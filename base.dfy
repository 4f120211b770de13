/**
 * The CRUD engine (bodega/src/base.rs): the statements each operation
 * builds, what it makes of the driver's reply, and how it tags failures
 * with the entity and the operation. The store is a class holding the
 * table's rows and the statements sent so far; the database answers as
 * the Postgres module says, and a driver failure (lost connection, pool
 * timeout) is a parameter of each call.
 */
module Base {
  import opened Wrappers
  import opened Sql
  import opened Errors
  import opened Postgres
  import PostgresLaws
  import Pagination

  /** The operation a failure is tagged with. */
  datatype DbBmcOp = Count | Create | Delete | Get | List | ListPaginated | Update

  /** `Display for DbBmcOp`. */
  function OpName(op: DbBmcOp): (name: string)
    ensures |name| > 0 && forall i :: 0 <= i < |name| ==> 'A' <= name[i] <= 'Z' || name[i] == ' '
  {
    match op
    case Count => "COUNT"
    case Create => "CREATE"
    case Delete => "DELETE"
    case Get => "GET"
    case List => "LIST"
    case ListPaginated => "LIST PAGINATED"
    case Update => "UPDATE"
  }

  /** Distinct operations display differently. */
  lemma OpNamesDistinct(a: DbBmcOp, b: DbBmcOp)
    ensures OpName(a) == OpName(b) <==> a == b
  {
  }

  /** What went wrong underneath an operation. */
  datatype OpError = SqlxFailure(sqlx: SqlxError) | UsizeFailure(conversion: TryFromIntError)

  /** `DbBmcError::Operation`: the entity, the operation and the cause. */
  datatype DbBmcError = Operation(entity: string, operation: DbBmcOp, source: OpError)

  /** The error's `Display`: the operation and the entity; the cause is not part of it. */
  function DbBmcMessage(e: DbBmcError): string {
    "Error performing " + OpName(e.operation) + " for entity '" + e.entity + "': "
  }

  /**
   * The message names the operation and then the entity, each at a position
   * fixed by its template, and ends with the template's closing quote; two
   * errors with the same operation and entity but different causes display
   * alike.
   */
  lemma DbBmcMessageShows(e: DbBmcError, cause: OpError)
    ensures var m := DbBmcMessage(e);
      && OccursAt(m, OpName(e.operation), 17)
      && OccursAt(m, e.entity, 17 + |OpName(e.operation)| + 13)
      && |m| == 17 + |OpName(e.operation)| + 13 + |e.entity| + 3
      && m[|m| - 3..] == "': "
      && DbBmcMessage(e.(source := cause)) == m
  {
  }

  /**
   * How an operation fails: with one of the crate's own errors, raised
   * directly, or with a tagged driver or conversion error.
   */
  datatype Failure = Domain(error: Error) | Bmc(bmc: DbBmcError)

  function Tag(entity: string, op: DbBmcOp, e: SqlxError): (f: Failure)
    ensures f.Bmc? && f.bmc.entity == entity && f.bmc.operation == op && f.bmc.source == SqlxFailure(e)
  {
    Bmc(Operation(entity, op, SqlxFailure(e)))
  }

  /**
   * A model controller (`DbBmc`): ENTITY, TABLE, the id column, and the
   * id type's conversions to a query value (`id_to_value`) and to text
   * (`to_string`). `get_table_ref` is the table named TABLE.
   */
  datatype Controller<!Id> = Controller(
    entity: string,
    table: Iden,
    idColumn: Iden,
    idValue: Id -> SimpleExpr,
    idString: Id -> string)

  /** The controller names the schema's table and its primary key. */
  predicate Serves<Id>(mc: Controller<Id>, s: Schema) {
    mc.table == s.table && mc.idColumn == s.key
  }

  /** `id_column = id_to_value(id)`. */
  function IdCond<Id>(mc: Controller<Id>, id: Id): (c: Cond)
    ensures c.Eq? && c.col == mc.idColumn && c.rhs == mc.idValue(id)
  {
    Eq(mc.idColumn, mc.idValue(id))
  }

  /** What `Select` and `Cursored` give of an entity type: its columns and its cursor column. */
  datatype EntityShape = EntityShape(selectCols: seq<Iden>, cursorColumn: Iden) {
    /** `cursor_value`: the entity's cursor field, read from its row. */
    function CursorValue(row: Row): Value {
      Cell(row, cursorColumn)
    }
  }

  /**
   * What `CursoredFilter` and `Filter` give of a filter value: its cursor,
   * page limit, cursor order and `filter_query` (a change to the query).
   */
  datatype FilterView = FilterView(
    cursor: Option<Value>,
    pageLimit: nat,
    order: Order,
    filterQuery: SelectStmt -> SelectStmt)

  /** The largest usize on a 64-bit target. */
  const UsizeMax: int := 0xFFFF_FFFF_FFFF_FFFF

  /** `usize::try_from(i64)`. */
  function TryUsize(n: int): (r: Result<nat, TryFromIntError>)
    ensures r.Ok? <==> 0 <= n <= UsizeMax
    ensures r.Ok? ==> r.value == n
  {
    if 0 <= n <= UsizeMax then Ok(n) else Err(TryFromIntError)
  }

  // ---- the statements each operation sends ----

  function CountStatement<Id>(mc: Controller<Id>): Statement {
    CountOf(mc.table, mc.idColumn)
  }

  function InsertStatement<Id>(mc: Controller<Id>, cols: seq<Iden>, vals: seq<SimpleExpr>, returning: seq<Iden>): Statement {
    InsertInto(mc.table, cols, vals, returning)
  }

  function GetStatement<Id>(mc: Controller<Id>, cols: seq<Iden>, id: Id): Statement {
    SelectOf(SelectStmt(Some(mc.table), cols, [IdCond(mc, id)], [], None))
  }

  function ListStatement<Id>(mc: Controller<Id>, cols: seq<Iden>): Statement {
    SelectOf(SelectStmt(Some(mc.table), cols, [], [], None))
  }

  /** The keyset bound: past the cursor in the direction of the order. */
  function CursorBound(col: Iden, order: Order, cursor: Value): (c: Cond)
    ensures c.col == col && c.rhs == Val(cursor)
    ensures c.Gt? <==> order.Asc?
    ensures c.Lt? <==> order.Desc?
  {
    if order.Asc? then Gt(col, Val(cursor)) else Lt(col, Val(cursor))
  }

  /** The page query before `filter_query` runs: ordered by the cursor column, limited to the page. */
  function PageBase<Id>(mc: Controller<Id>, e: EntityShape, f: FilterView): SelectStmt {
    SelectStmt(Some(mc.table), e.selectCols, [], [(e.cursorColumn, f.order)], Some(f.pageLimit))
  }

  /** The page query: the base, then `filter_query`, then the cursor bound when a cursor is set. */
  function PageQuery<Id>(mc: Controller<Id>, e: EntityShape, f: FilterView): (q: SelectStmt)
    ensures f.cursor.None? ==> q == f.filterQuery(PageBase(mc, e, f))
    ensures f.cursor.Some? ==>
      var filtered := f.filterQuery(PageBase(mc, e, f));
      q == filtered.(conds := filtered.conds + [CursorBound(e.cursorColumn, f.order, f.cursor.value)])
  {
    var filtered := f.filterQuery(PageBase(mc, e, f));
    match f.cursor
    case None => filtered
    case Some(c) => filtered.(conds := filtered.conds + [CursorBound(e.cursorColumn, f.order, c)])
  }

  function UpdateStatement<Id>(mc: Controller<Id>, pairs: seq<(Iden, SimpleExpr)>, id: Id, returning: seq<Iden>): Statement {
    UpdateOf(mc.table, pairs, [IdCond(mc, id)], returning)
  }

  function DeleteStatement<Id>(mc: Controller<Id>, id: Id): Statement {
    DeleteFrom(mc.table, [IdCond(mc, id)])
  }

  // ---- the database's reply ----

  /** The rows a statement returns and the number of rows it affected. */
  datatype Reply = Reply(rows: seq<Row>, rowsAffected: nat)

  /** The column of the single row `SELECT COUNT(..)` returns. */
  const CountColumn: Iden := "count"

  /** The database's reply to a statement, and the table afterwards. */
  function Apply(s: Schema, rows: seq<Row>, stmt: Statement, defaults: Row): Result<(seq<Row>, Reply), DatabaseError> {
    match stmt
    case CountOf(table, column) =>
      (match RunCount(s, rows, table, column)
       case Err(e) => Err(e)
       case Ok(n) => Ok((rows, Reply([map[CountColumn := Int(n)]], 1))))
    case SelectOf(q) =>
      (match RunSelect(s, rows, q)
       case Err(e) => Err(e)
       case Ok(found) => Ok((rows, Reply(found, |found|))))
    case InsertInto(table, cols, vals, returning) =>
      (match RunInsert(s, rows, table, cols, vals, returning, defaults)
       case Err(e) => Err(e)
       case Ok((after, row)) => Ok((after, Reply([row], 1))))
    case UpdateOf(table, pairs, conds, returning) =>
      (match RunUpdate(s, rows, table, pairs, conds, returning)
       case Err(e) => Err(e)
       case Ok((after, returned)) => Ok((after, Reply(returned, |returned|))))
    case DeleteFrom(table, conds) =>
      (match RunDelete(s, rows, table, conds)
       case Err(e) => Err(e)
       case Ok((after, n)) => Ok((after, Reply([], n))))
  }

  /** What the driver hands back: its own failure, the database's error, or the reply. */
  function Outcome(s: Schema, rows: seq<Row>, stmt: Statement, defaults: Row, fault: Option<SqlxError>): (o: Result<(seq<Row>, Reply), SqlxError>)
    ensures fault.Some? ==> o == Err(fault.value)
    ensures o.Ok? <==> fault.None? && Apply(s, rows, stmt, defaults).Ok?
  {
    if fault.Some? then Err(fault.value)
    else match Apply(s, rows, stmt, defaults)
      case Err(db) => Err(SqlxError.Database(db))
      case Ok(x) => Ok(x)
  }

  /** The table after a statement: unchanged unless it succeeded. */
  function After(s: Schema, rows: seq<Row>, stmt: Statement, defaults: Row, fault: Option<SqlxError>): seq<Row> {
    match Outcome(s, rows, stmt, defaults, fault)
    case Ok((after, _)) => after
    case Err(_) => rows
  }

  /** Decoding the count row as `(i64,)`. */
  function DecodeCount(row: Row): Result<int, SqlxError> {
    if CountColumn in row && row[CountColumn].Int? then Ok(row[CountColumn].i)
    else Err(Other("mismatched types when decoding the count"))
  }

  // ---- what each operation returns ----

  /** `count`: fetch one row, decode it, convert the i64 to usize. */
  function CountResult<Id>(s: Schema, rows: seq<Row>, mc: Controller<Id>, fault: Option<SqlxError>): Result<nat, Failure> {
    match Outcome(s, rows, CountStatement(mc), map[], fault)
    case Err(e) => Err(Tag(mc.entity, Count, e))
    case Ok((_, reply)) =>
      if |reply.rows| == 0 then Err(Tag(mc.entity, Count, RowNotFound))
      else match DecodeCount(reply.rows[0])
        case Err(e) => Err(Tag(mc.entity, Count, e))
        case Ok(n) =>
          match TryUsize(n)
          case Err(e) => Err(Bmc(Operation(mc.entity, Count, UsizeFailure(e))))
          case Ok(u) => Ok(u)
  }

  /** `create`: fetch the one returned row. */
  function CreateResult<Id>(s: Schema, rows: seq<Row>, mc: Controller<Id>, cols: seq<Iden>, vals: seq<SimpleExpr>,
                            returning: seq<Iden>, defaults: Row, fault: Option<SqlxError>): Result<Row, Failure>
  {
    match Outcome(s, rows, InsertStatement(mc, cols, vals, returning), defaults, fault)
    case Err(e) => Err(Tag(mc.entity, Create, e))
    case Ok((_, reply)) =>
      if |reply.rows| == 0 then Err(Tag(mc.entity, Create, RowNotFound)) else Ok(reply.rows[0])
  }

  /** `get`: fetch an optional row; none is EntityNotFound. */
  function GetResult<Id>(s: Schema, rows: seq<Row>, mc: Controller<Id>, cols: seq<Iden>, id: Id, fault: Option<SqlxError>): Result<Row, Failure> {
    match Outcome(s, rows, GetStatement(mc, cols, id), map[], fault)
    case Err(e) => Err(Tag(mc.entity, Get, e))
    case Ok((_, reply)) =>
      if |reply.rows| == 0 then Err(Domain(EntityNotFound(mc.entity, mc.idString(id)))) else Ok(reply.rows[0])
  }

  /** `list`: fetch every row. */
  function ListResult<Id>(s: Schema, rows: seq<Row>, mc: Controller<Id>, cols: seq<Iden>, fault: Option<SqlxError>): Result<seq<Row>, Failure> {
    match Outcome(s, rows, ListStatement(mc, cols), map[], fault)
    case Err(e) => Err(Tag(mc.entity, List, e))
    case Ok((_, reply)) => Ok(reply.rows)
  }

  /** `list_paginated`: fetch the page and wrap it with the filter's page limit. */
  function PageResult<Id>(s: Schema, rows: seq<Row>, mc: Controller<Id>, e: EntityShape, f: FilterView,
                          fault: Option<SqlxError>): Result<Pagination.Paginated<Row, Value>, Failure>
  {
    match Outcome(s, rows, SelectOf(PageQuery(mc, e, f)), map[], fault)
    case Err(err) => Err(Tag(mc.entity, ListPaginated, err))
    case Ok((_, reply)) => Ok(Pagination.New(reply.rows, f.pageLimit, e.CursorValue))
  }

  /** `update`: nothing to set is EmptyUpdate; otherwise fetch an optional row, none being EntityNotFound. */
  function UpdateResult<Id>(s: Schema, rows: seq<Row>, mc: Controller<Id>, pairs: seq<(Iden, SimpleExpr)>, id: Id,
                            returning: seq<Iden>, fault: Option<SqlxError>): Result<Row, Failure>
  {
    if |pairs| == 0 then Err(Domain(EmptyUpdate(mc.entity, mc.idString(id))))
    else match Outcome(s, rows, UpdateStatement(mc, pairs, id, returning), map[], fault)
      case Err(e) => Err(Tag(mc.entity, Update, e))
      case Ok((_, reply)) =>
        if |reply.rows| == 0 then Err(Domain(EntityNotFound(mc.entity, mc.idString(id)))) else Ok(reply.rows[0])
  }

  /** `delete`: no affected row is EntityNotFound. */
  function DeleteResult<Id>(s: Schema, rows: seq<Row>, mc: Controller<Id>, id: Id, fault: Option<SqlxError>): Result<(), Failure> {
    match Outcome(s, rows, DeleteStatement(mc, id), map[], fault)
    case Err(e) => Err(Tag(mc.entity, Delete, e))
    case Ok((_, reply)) =>
      if reply.rowsAffected == 0 then Err(Domain(EntityNotFound(mc.entity, mc.idString(id)))) else Ok(())
  }

  /** The table a database holds and every statement sent to it, in order. */
  class Store {
    const schema: Schema
    var rows: seq<Row>
    var issued: seq<Statement>

    ghost predicate Valid()
      reads this
    {
      WellKeyed(schema, rows)
    }

    constructor (schema: Schema, rows: seq<Row>)
      requires WellKeyed(schema, rows)
      ensures Valid() && this.schema == schema && this.rows == rows && issued == []
    {
      this.schema := schema;
      this.rows := rows;
      issued := [];
    }

    /** Sends one statement through the executor; a failed statement leaves the table as it was. */
    method Send(stmt: Statement, defaults: Row, fault: Option<SqlxError>) returns (o: Result<(seq<Row>, Reply), SqlxError>)
      requires Valid()
      modifies this
      ensures Valid()
      ensures issued == old(issued) + [stmt]
      ensures o == Outcome(schema, old(rows), stmt, defaults, fault)
      ensures rows == After(schema, old(rows), stmt, defaults, fault)
    {
      issued := issued + [stmt];
      o := Outcome(schema, rows, stmt, defaults, fault);
      if o.Ok? {
        match stmt {
          case InsertInto(table, cols, vals, returning) =>
            PostgresLaws.InsertPreserves(schema, rows, table, cols, vals, returning, defaults);
          case UpdateOf(table, pairs, conds, returning) =>
            PostgresLaws.UpdatePreserves(schema, rows, table, pairs, conds, returning);
          case DeleteFrom(table, conds) =>
            PostgresLaws.DeletePreserves(schema, rows, table, conds);
          case _ =>
        }
        rows := o.value.0;
      }
    }

    /** `count`. */
    method Count<Id>(mc: Controller<Id>, fault: Option<SqlxError>) returns (r: Result<nat, Failure>)
      requires Valid()
      modifies this
      ensures Valid() && rows == old(rows)
      ensures issued == old(issued) + [CountStatement(mc)]
      ensures r == CountResult(schema, old(rows), mc, fault)
    {
      var query := CountOf(mc.table, mc.idColumn);
      var o := Send(query, map[], fault);
      if o.Err? {
        return Err(Tag(mc.entity, DbBmcOp.Count, o.error));
      }
      var reply := o.value.1;
      if |reply.rows| == 0 {
        return Err(Tag(mc.entity, DbBmcOp.Count, RowNotFound));
      }
      var num := DecodeCount(reply.rows[0]);
      if num.Err? {
        return Err(Tag(mc.entity, DbBmcOp.Count, num.error));
      }
      var n := TryUsize(num.value);
      if n.Err? {
        return Err(Bmc(Operation(mc.entity, DbBmcOp.Count, UsizeFailure(n.error))));
      }
      r := Ok(n.value);
    }

    /** `create`: `values_panic` demands as many values as columns. */
    method Create<Id>(mc: Controller<Id>, cols: seq<Iden>, vals: seq<SimpleExpr>, returning: seq<Iden>, defaults: Row,
                      fault: Option<SqlxError>) returns (r: Result<Row, Failure>)
      requires Valid()
      requires |cols| == |vals|
      modifies this
      ensures Valid()
      ensures issued == old(issued) + [InsertStatement(mc, cols, vals, returning)]
      ensures rows == After(schema, old(rows), InsertStatement(mc, cols, vals, returning), defaults, fault)
      ensures r == CreateResult(schema, old(rows), mc, cols, vals, returning, defaults, fault)
    {
      var query := InsertInto(mc.table, cols, vals, returning);
      var o := Send(query, defaults, fault);
      if o.Err? {
        return Err(Tag(mc.entity, DbBmcOp.Create, o.error));
      }
      var reply := o.value.1;
      if |reply.rows| == 0 {
        return Err(Tag(mc.entity, DbBmcOp.Create, RowNotFound));
      }
      r := Ok(reply.rows[0]);
    }

    /** `get`. */
    method Get<Id>(mc: Controller<Id>, cols: seq<Iden>, id: Id, fault: Option<SqlxError>) returns (r: Result<Row, Failure>)
      requires Valid()
      modifies this
      ensures Valid() && rows == old(rows)
      ensures issued == old(issued) + [GetStatement(mc, cols, id)]
      ensures r == GetResult(schema, old(rows), mc, cols, id, fault)
    {
      var query := EmptySelect;
      query := query.(from := Some(mc.table));
      query := query.(columns := query.columns + cols);
      query := query.(conds := query.conds + [Eq(mc.idColumn, mc.idValue(id))]);
      assert SelectOf(query) == GetStatement(mc, cols, id);
      var o := Send(SelectOf(query), map[], fault);
      if o.Err? {
        return Err(Tag(mc.entity, DbBmcOp.Get, o.error));
      }
      var found := o.value.1.rows;
      if |found| == 0 {
        return Err(Domain(EntityNotFound(mc.entity, mc.idString(id))));
      }
      r := Ok(found[0]);
    }

    /** `list`: no WHERE, no ORDER BY, no LIMIT. */
    method List<Id>(mc: Controller<Id>, cols: seq<Iden>, fault: Option<SqlxError>) returns (r: Result<seq<Row>, Failure>)
      requires Valid()
      modifies this
      ensures Valid() && rows == old(rows)
      ensures issued == old(issued) + [ListStatement(mc, cols)]
      ensures r == ListResult(schema, old(rows), mc, cols, fault)
    {
      var query := EmptySelect;
      query := query.(from := Some(mc.table));
      query := query.(columns := query.columns + cols);
      assert SelectOf(query) == ListStatement(mc, cols);
      var o := Send(SelectOf(query), map[], fault);
      if o.Err? {
        return Err(Tag(mc.entity, DbBmcOp.List, o.error));
      }
      r := Ok(o.value.1.rows);
    }

    /**
     * `list_paginated`: the query is built in a fixed order — table,
     * columns, ORDER BY the cursor column, LIMIT the page size — then the
     * filter edits it, and only then is the cursor bound added.
     */
    method ListPaginated<Id>(mc: Controller<Id>, e: EntityShape, f: FilterView, fault: Option<SqlxError>)
      returns (r: Result<Pagination.Paginated<Row, Value>, Failure>)
      requires Valid()
      modifies this
      ensures Valid() && rows == old(rows)
      ensures issued == old(issued) + [SelectOf(PageQuery(mc, e, f))]
      ensures r == PageResult(schema, old(rows), mc, e, f, fault)
    {
      var query := EmptySelect;
      query := query.(from := Some(mc.table));
      query := query.(columns := query.columns + e.selectCols);
      query := query.(orderBy := query.orderBy + [(e.cursorColumn, f.order)]);
      query := query.(limit := Some(f.pageLimit));
      assert query == PageBase(mc, e, f);
      query := f.filterQuery(query);
      if f.cursor.Some? {
        if f.order == Asc {
          query := query.(conds := query.conds + [Gt(e.cursorColumn, Val(f.cursor.value))]);
        } else {
          query := query.(conds := query.conds + [Lt(e.cursorColumn, Val(f.cursor.value))]);
        }
      }
      var o := Send(SelectOf(query), map[], fault);
      if o.Err? {
        return Err(Tag(mc.entity, DbBmcOp.ListPaginated, o.error));
      }
      r := Ok(Pagination.New(o.value.1.rows, f.pageLimit, e.CursorValue));
    }

    /** `update`: an empty change returns before anything is sent. */
    method Update<Id>(mc: Controller<Id>, pairs: seq<(Iden, SimpleExpr)>, id: Id, returning: seq<Iden>, fault: Option<SqlxError>)
      returns (r: Result<Row, Failure>)
      requires Valid()
      modifies this
      ensures Valid()
      ensures |pairs| == 0 ==> issued == old(issued) && rows == old(rows)
      ensures |pairs| > 0 ==> issued == old(issued) + [UpdateStatement(mc, pairs, id, returning)]
      ensures |pairs| > 0 ==> rows == After(schema, old(rows), UpdateStatement(mc, pairs, id, returning), map[], fault)
      ensures r == UpdateResult(schema, old(rows), mc, pairs, id, returning, fault)
    {
      if |pairs| == 0 {
        return Err(Domain(EmptyUpdate(mc.entity, mc.idString(id))));
      }
      var query := UpdateOf(mc.table, pairs, [Eq(mc.idColumn, mc.idValue(id))], returning);
      var o := Send(query, map[], fault);
      if o.Err? {
        return Err(Tag(mc.entity, DbBmcOp.Update, o.error));
      }
      var found := o.value.1.rows;
      if |found| == 0 {
        return Err(Domain(EntityNotFound(mc.entity, mc.idString(id))));
      }
      r := Ok(found[0]);
    }

    /** `delete`. */
    method Delete<Id>(mc: Controller<Id>, id: Id, fault: Option<SqlxError>) returns (r: Result<(), Failure>)
      requires Valid()
      modifies this
      ensures Valid()
      ensures issued == old(issued) + [DeleteStatement(mc, id)]
      ensures rows == After(schema, old(rows), DeleteStatement(mc, id), map[], fault)
      ensures r == DeleteResult(schema, old(rows), mc, id, fault)
    {
      var query := DeleteFrom(mc.table, [Eq(mc.idColumn, mc.idValue(id))]);
      var o := Send(query, map[], fault);
      if o.Err? {
        return Err(Tag(mc.entity, DbBmcOp.Delete, o.error));
      }
      if o.value.1.rowsAffected == 0 {
        return Err(Domain(EntityNotFound(mc.entity, mc.idString(id))));
      }
      r := Ok(());
    }
  }
}
