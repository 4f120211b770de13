/**
 * The example crate (examples/simple-crud/src/lib.rs): books keyed by a
 * uuid id, the filter a page of books is listed with, the partial update
 * of a book and the controller the derive gives them.
 */
module SimpleCrud {
  import opened Wrappers
  import opened Sql
  import opened Postgres
  import opened Base
  import opened PageWalk
  import Pagination
  import opened DeriveCommon
  import DbBmcDerive
  import SelectDerive
  import UpdateDerive
  import UuidIdDerive

  /** `BookId(Uuid)`, an id made by `#[uuid_id]`. */
  type BookId = UuidIdDerive.UuidId

  /** `Genre`, stored as its variant name (`AsRefStr`). */
  datatype Genre = Mystery | ScienceFiction | Fantasy

  function GenreValue(g: Genre): (v: Value)
    ensures v.Text?
  {
    match g
    case Mystery => Text("Mystery")
    case ScienceFiction => Text("ScienceFiction")
    case Fantasy => Text("Fantasy")
  }

  lemma GenreValuesDistinct(a: Genre, b: Genre)
    ensures GenreValue(a) == GenreValue(b) <==> a == b
  {
  }

  /** The columns of the books table the filter and the cursor use. */
  const IdColumn: Iden := "id"
  const AuthorColumn: Iden := "author"
  const GenreColumn: Iden := "genre"

  /** The page limit the builder gives a filter that sets none. */
  const DefaultLimit: nat := 20

  /** `BookFilters`: page limit, cursor, and the optional author and genre to match. */
  class BookFilters {
    var limit: nat
    var cursor: Option<BookId>
    var author: Option<string>
    var genre: Option<Genre>

    /** The builder: every field optional, the limit defaulting to 20. */
    constructor (limit: Option<nat>, cursor: Option<BookId>, author: Option<string>, genre: Option<Genre>)
      ensures this.limit == if limit.Some? then limit.value else DefaultLimit
      ensures this.cursor == cursor && this.author == author && this.genre == genre
    {
      this.limit := if limit.Some? then limit.value else DefaultLimit;
      this.cursor := cursor;
      this.author := author;
      this.genre := genre;
    }

    /** `cursor()`. */
    function Cursor(): Option<BookId>
      reads this
    {
      cursor
    }

    /** `page_limit()`. */
    function PageLimit(): nat
      reads this
    {
      limit
    }

    /** `set_cursor`: the cursor becomes `c`; the limit and the criteria stay. */
    method SetCursor(c: BookId)
      modifies this
      ensures Cursor() == Some(c)
      ensures limit == old(limit) && author == old(author) && genre == old(genre)
    {
      cursor := Some(c);
    }

    /** The conjuncts `filter_query` adds: author equality when an author is set, then genre equality when a genre is. */
    function Extra(): (conds: seq<Cond>)
      reads this
      ensures |conds| == (if author.Some? then 1 else 0) + (if genre.Some? then 1 else 0)
      ensures forall a :: Eq(AuthorColumn, Val(Text(a))) in conds <==> author == Some(a)
      ensures forall g :: Eq(GenreColumn, Val(GenreValue(g))) in conds <==> genre == Some(g)
    {
      (match author case Some(a) => [Eq(AuthorColumn, Val(Text(a)))] case None => [])
        + (match genre case Some(g) => [Eq(GenreColumn, Val(GenreValue(g)))] case None => [])
    }

    /** `filter_query`: the query with the criteria's conjuncts added after its own. */
    method FilterQuery(query: SelectStmt) returns (q: SelectStmt)
      ensures q == query.(conds := query.conds + Extra())
    {
      q := query;
      if author.Some? {
        q := q.(conds := q.conds + [Eq(AuthorColumn, Val(Text(author.value)))]);
      }
      if genre.Some? {
        q := q.(conds := q.conds + [Eq(GenreColumn, Val(GenreValue(genre.value)))]);
      }
    }

    /**
     * What the engine sees of the filter: the cursor as a key value, the
     * page limit, the ascending order it does not override, and the
     * criteria as conjuncts.
     */
    function View(): FilterView
      reads this
    {
      var extra := Extra();
      FilterView(
        if cursor.Some? then Some(UuidIdDerive.ToValue(cursor.value)) else None,
        limit,
        Pagination.DefaultCursorColumnOrder(),
        (q: SelectStmt) => q.(conds := q.conds + extra))
    }
  }

  /** The engine's view of a filter pages ascending and with the filter's limit, and only adds the criteria. */
  lemma ViewAscendingWithCriteria(f: BookFilters)
    ensures f.View().order == Asc && f.View().pageLimit == f.PageLimit()
    ensures f.View().cursor.Some? <==> f.Cursor().Some?
    ensures forall q :: f.View().filterQuery(q) == q.(conds := q.conds + f.Extra())
  {
  }

  /** The criteria name only the author and genre columns and bind values, so the database can evaluate them. */
  lemma ExtraUsable(s: Schema, f: BookFilters)
    requires AuthorColumn in s.columns && GenreColumn in s.columns
    ensures CondsKnown(s, f.Extra()) && CondsEvaluable(f.Extra())
  {
  }

  /**
   * Walking the books: a filter without a cursor and a limit of at least
   * one, its cursor set to each page's next cursor, lists every book
   * matching the criteria exactly once, in id order, in `N / L + 1` pages.
   */
  lemma WalkBooks<Id>(s: Schema, rows: seq<Row>, mc: Controller<Id>, e: EntityShape, f: BookFilters, fuel: nat)
    requires WellKeyed(s, rows) && IntKeys(s, rows) && Serves(mc, s) && s.key == IdColumn
    requires AuthorColumn in s.columns && GenreColumn in s.columns
    requires e.cursorColumn == IdColumn && Known(s, e.selectCols) && IdColumn in e.selectCols
    requires f.Cursor().None? && f.PageLimit() >= 1
    requires fuel >= |Matching(rows, f.Extra())| / f.PageLimit()
    ensures var pages := Walk(s, rows, mc, e, f.View(), fuel);
      var n := |Matching(rows, f.Extra())|;
      && |pages| == n / f.PageLimit() + 1
      && (forall p :: 0 <= p < |pages| - 1 ==> |pages[p].entries| == f.PageLimit())
      && |pages[|pages| - 1].entries| == n % f.PageLimit()
      && Flatten(pages) == ProjectAll(Ordered(s, rows, f.Extra()), e.selectCols)
      && multiset(Ordered(s, rows, f.Extra())) == multiset(Matching(rows, f.Extra()))
      && Ascending(s, Ordered(s, rows, f.Extra()))
  {
    BooksSetting(s, rows, mc, e, f);
    WalkReturnsEverything(s, rows, mc, e, f.View(), f.Extra(), fuel);
  }

  /** The book filters meet every condition the engine's page walk places on a served table and a filter. */
  lemma BooksSetting<Id>(s: Schema, rows: seq<Row>, mc: Controller<Id>, e: EntityShape, f: BookFilters)
    requires WellKeyed(s, rows) && IntKeys(s, rows) && Serves(mc, s) && s.key == IdColumn
    requires AuthorColumn in s.columns && GenreColumn in s.columns
    requires e.cursorColumn == IdColumn && Known(s, e.selectCols) && IdColumn in e.selectCols
    requires f.PageLimit() >= 1
    ensures Setting(s, rows, mc, e, f.View(), f.Extra())
  {
    ViewAscendingWithCriteria(f);
    ExtraUsable(s, f);
  }

  // ---- BookUpdate ----

  /** `BookUpdate`'s fields: five `Option`s and the plain `updated_at`. */
  const BookUpdateFields: seq<UpdateDerive.UpdateField> := [
    UpdateDerive.UpdateField("title", true, None),
    UpdateDerive.UpdateField("author", true, None),
    UpdateDerive.UpdateField("genre", true, None),
    UpdateDerive.UpdateField("meta", true, None),
    UpdateDerive.UpdateField("pages", true, None),
    UpdateDerive.UpdateField("updated_at", false, None)]

  /**
   * `BookUpdate` always sets `updated_at`, so its update values are never
   * empty and `update` never answers EmptyUpdate for it.
   */
  lemma BookUpdateNeverEmpty<Id>(casing: Casing, record: Record, body: seq<UpdateDerive.PushStmt>, render: Path -> Iden,
                                 s: Schema, rows: seq<Row>, mc: Controller<Id>, id: Id, returning: seq<Iden>,
                                 fault: Option<Errors.SqlxError>)
    requires UpdateDerive.WellTyped(BookUpdateFields, record)
    requires |body| == |BookUpdateFields|
    requires forall i :: 0 <= i < |BookUpdateFields| ==> body[i] == UpdateDerive.StmtOf(["BookIden"], BookUpdateFields[i], casing)
    ensures UpdateDerive.Covers(body, record)
    ensures |UpdateDerive.Pairs(body, record)| > 0
    ensures UpdateResult(s, rows, mc, UpdateDerive.Rendered(UpdateDerive.Pairs(body, record), render), id, returning, fault)
      != Err(Domain(Errors.EmptyUpdate(mc.entity, mc.idString(id))))
  {
    UpdateDerive.UpdateValuesEmptyIff(["BookIden"], BookUpdateFields, casing, record, body);
    assert !BookUpdateFields[5].isOption;
  }

  // ---- BookBmc and Book ----

  /** `#[db_bmc(model = Book, id_type = BookId, methods(...))]` with every method requested. */
  const BookBmcArgs: DbBmcDerive.BmcArgs := DbBmcDerive.BmcArgs(
    ["Book"], ["BookId"], None, None, None, None, None, false,
    DbBmcDerive.MethodArgs(Some(["BookCreate"]), true, true, Some(["BookFilters"]), Some(["BookUpdate"]), true, true))

  /** `BookBmc` is named "book" over the table "books" and gets all seven wrappers, public, in emission order. */
  lemma BookBmcExpansion(casing: Casing)
    requires casing.snake("Book") == "book"
    ensures DbBmcDerive.NewControllerInfo(BookBmcArgs, casing).Ok?
    ensures var t := DbBmcDerive.TraitImplOf(DbBmcDerive.NewControllerInfo(BookBmcArgs, casing).value, BookBmcArgs);
      t.entity == "book" && t.table == "books" && t.idColumn == ["BookIden", "Id"]
    ensures DbBmcDerive.Selected(BookBmcArgs.methods) == DbBmcDerive.EmissionOrder
  {
    DbBmcDerive.BookNaming(casing, BookBmcArgs.methods);
    var m := BookBmcArgs.methods;
    var e := DbBmcDerive.EmissionOrder;
    assert DbBmcDerive.Keep(e[7..], m) == [];
    assert e[6..] == [e[6]] + e[7..];
    assert e[5..] == [e[5]] + e[6..];
    assert e[4..] == [e[4]] + e[5..];
    assert e[3..] == [e[3]] + e[4..];
    assert e[2..] == [e[2]] + e[3..];
    assert e[1..] == [e[1]] + e[2..];
    assert DbBmcDerive.Keep(e, m) == [e[0]] + DbBmcDerive.Keep(e[1..], m);
  }

  /** `Book`'s fields as `#[derive(Select)]` sees them; only `id` is marked as cursor. */
  const BookFields: seq<SelectDerive.NamedField> := [
    SelectDerive.NamedField("id", "BookId", true),
    SelectDerive.NamedField("title", "String", false),
    SelectDerive.NamedField("author", "String", false),
    SelectDerive.NamedField("genre", "Vec<Genre>", false),
    SelectDerive.NamedField("pages", "i64", false),
    SelectDerive.NamedField("meta", "Meta", false),
    SelectDerive.NamedField("created_at", "DateTime<Utc>", false),
    SelectDerive.NamedField("updated_at", "DateTime<Utc>", false)]

  /**
   * `Book`'s cursor is its `id`, of type BookId, and its cursor column is
   * the very path `BookBmc` uses as id column: pages walk the primary key.
   */
  lemma BookCursorIsIdColumn(casing: Casing, c: SelectDerive.CursorAttr, idenFields: seq<string>)
    requires casing.upperCamel("id") == "Id" && casing.snake("Book") == "book"
    requires SelectDerive.LastMarked(BookFields, c, casing)
    ensures c == SelectDerive.CursorAttr("id", "Id", "BookId")
    ensures var out := SelectDerive.ImplementSelectTrait(SelectDerive.ModelType("Book", "BookIden", idenFields, Some(c)));
      out.cursored.Some? && out.cursored.value.column
        == DbBmcDerive.TraitImplOf(DbBmcDerive.NewControllerInfo(BookBmcArgs, casing).value, BookBmcArgs).idColumn
  {
    var k :| 0 <= k < |BookFields| && BookFields[k].cursor && c == SelectDerive.AttrOf(BookFields[k], casing)
      && (forall j :: k < j < |BookFields| ==> !BookFields[j].cursor);
    assert k == 0;
    BookBmcExpansion(casing);
  }
}
