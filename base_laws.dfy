/**
 * What the CRUD engine promises when its controller serves the table (same
 * table, id column = primary key) and the driver does not fail: count is
 * the number of rows, get/update/delete act on exactly the row holding the
 * id or report EntityNotFound, list returns the table, and a created row
 * can be read back.
 */
module BaseLaws {
  import opened Wrappers
  import opened Sql
  import opened Errors
  import opened Postgres
  import opened PostgresLaws
  import opened Base

  /** Every operation tags a driver failure with its entity and its own kind; only the empty-update guard runs first. */
  lemma DriverFailuresAreTagged<Id>(s: Schema, rows: seq<Row>, mc: Controller<Id>, e: SqlxError, cols: seq<Iden>, vals: seq<SimpleExpr>,
                                    returning: seq<Iden>, defaults: Row, id: Id, shape: EntityShape, f: FilterView,
                                    pairs: seq<(Iden, SimpleExpr)>)
    ensures CountResult(s, rows, mc, Some(e)) == Err(Tag(mc.entity, DbBmcOp.Count, e))
    ensures CreateResult(s, rows, mc, cols, vals, returning, defaults, Some(e)) == Err(Tag(mc.entity, DbBmcOp.Create, e))
    ensures GetResult(s, rows, mc, cols, id, Some(e)) == Err(Tag(mc.entity, DbBmcOp.Get, e))
    ensures ListResult(s, rows, mc, cols, Some(e)) == Err(Tag(mc.entity, DbBmcOp.List, e))
    ensures PageResult(s, rows, mc, shape, f, Some(e)) == Err(Tag(mc.entity, DbBmcOp.ListPaginated, e))
    ensures UpdateResult(s, rows, mc, pairs, id, returning, Some(e)) ==
      if |pairs| == 0 then Err(Domain(EmptyUpdate(mc.entity, mc.idString(id)))) else Err(Tag(mc.entity, DbBmcOp.Update, e))
    ensures DeleteResult(s, rows, mc, id, Some(e)) == Err(Tag(mc.entity, DbBmcOp.Delete, e))
  {
  }

  /** A failed statement leaves the table as it was. */
  lemma FailureChangesNothing(s: Schema, rows: seq<Row>, stmt: Statement, defaults: Row, fault: Option<SqlxError>)
    requires Outcome(s, rows, stmt, defaults, fault).Err?
    ensures After(s, rows, stmt, defaults, fault) == rows
  {
  }

  /** `count` on a served table returns the number of rows. */
  lemma CountIsRowCount<Id>(s: Schema, rows: seq<Row>, mc: Controller<Id>)
    requires WellKeyed(s, rows) && Serves(mc, s) && |rows| <= UsizeMax
    ensures CountResult(s, rows, mc, None) == Ok(|rows|)
  {
    assert NonNullCount(rows, s.key) == |rows|;
  }

  /** A negative count from the driver is refused with a Usize error tagged COUNT. */
  lemma NegativeCountRefused(n: int)
    requires n < 0
    ensures TryUsize(n) == Err(TryFromIntError)
  {
  }

  /**
   * `get` on a served table: the row holding the id, cut to the selected
   * columns, or EntityNotFound naming the entity and the id.
   */
  lemma GetFindsKeyedRow<Id>(s: Schema, rows: seq<Row>, mc: Controller<Id>, cols: seq<Iden>, id: Id, v: Value)
    requires WellKeyed(s, rows) && Serves(mc, s) && Known(s, cols)
    requires mc.idValue(id) == Val(v)
    ensures !Present(rows, s.key, v) ==> GetResult(s, rows, mc, cols, id, None) == Err(Domain(EntityNotFound(mc.entity, mc.idString(id))))
    ensures forall i :: 0 <= i < |rows| && rows[i][s.key] == v ==> GetResult(s, rows, mc, cols, id, None) == Ok(Project(rows[i], cols))
  {
    GetByKey(s, rows, mc, cols, id, v);
    if !Present(rows, s.key, v) {
      KeyLookupAbsent(s, rows, v);
    }
    forall i | 0 <= i < |rows| && rows[i][s.key] == v
      ensures GetResult(s, rows, mc, cols, id, None) == Ok(Project(rows[i], cols))
    {
      KeyLookupFound(s, rows, v, i);
    }
  }

  /** `get` reads the first row whose key is the id, or reports EntityNotFound when there is none. */
  lemma GetByKey<Id>(s: Schema, rows: seq<Row>, mc: Controller<Id>, cols: seq<Iden>, id: Id, v: Value)
    requires Serves(mc, s) && s.key in s.columns && Known(s, cols) && mc.idValue(id) == Val(v)
    ensures var m := Matching(rows, KeyIs(s, v));
      GetResult(s, rows, mc, cols, id, None) ==
        if |m| == 0 then Err(Domain(EntityNotFound(mc.entity, mc.idString(id)))) else Ok(Project(m[0], cols))
  {
    var q := GetStatement(mc, cols, id).query;
    assert q.conds == KeyIs(s, v);
    assert q.orderBy == [] && q.limit == None;
    SortRowsNoKeys(Matching(rows, KeyIs(s, v)));
  }

  /** `list` on a served table returns every row once, cut to the selected columns, in the evaluator's row order. */
  lemma ListReturnsTable<Id>(s: Schema, rows: seq<Row>, mc: Controller<Id>, cols: seq<Iden>)
    requires Serves(mc, s) && Known(s, cols)
    ensures ListResult(s, rows, mc, cols, None) == Ok(ProjectAll(rows, cols))
  {
    MatchingNoConds(rows);
    SortRowsNoKeys(rows);
  }

  /** `update` of an absent id: EntityNotFound, and the table is unchanged. */
  lemma UpdateAbsent<Id>(s: Schema, rows: seq<Row>, mc: Controller<Id>, pairs: seq<(Iden, SimpleExpr)>, id: Id,
                         returning: seq<Iden>, v: Value)
    requires WellKeyed(s, rows) && Serves(mc, s)
    requires |pairs| > 0 && Known(s, Columns(pairs)) && Distinct(Columns(pairs)) && AllEvaluable(pairs) && Known(s, returning)
    requires mc.idValue(id) == Val(v) && !Present(rows, s.key, v)
    ensures UpdateResult(s, rows, mc, pairs, id, returning, None) == Err(Domain(EntityNotFound(mc.entity, mc.idString(id))))
    ensures After(s, rows, UpdateStatement(mc, pairs, id, returning), map[], None) == rows
  {
    UpdateAbsentRuns(s, rows, mc, pairs, id, returning, v);
    UpdateThroughDriver(s, rows, mc, pairs, id, returning);
  }

  /** An UPDATE on a key no row holds changes nothing and returns nothing. */
  lemma UpdateAbsentRuns<Id>(s: Schema, rows: seq<Row>, mc: Controller<Id>, pairs: seq<(Iden, SimpleExpr)>, id: Id,
                             returning: seq<Iden>, v: Value)
    requires WellKeyed(s, rows) && Serves(mc, s)
    requires |pairs| > 0 && Known(s, Columns(pairs)) && Distinct(Columns(pairs)) && AllEvaluable(pairs) && Known(s, returning)
    requires mc.idValue(id) == Val(v) && !Present(rows, s.key, v)
    ensures RunUpdate(s, rows, mc.table, pairs, [IdCond(mc, id)], returning) == Ok((rows, []))
  {
    var conds := KeyIs(s, v);
    assert [IdCond(mc, id)] == conds;
    KeyLookupAbsent(s, rows, v);
    assert UpdateRows(rows, pairs, conds) == rows;
    assert UpdatedMatches(rows, pairs, conds) == [];
  }

  /** The setting of an `update` whose id is held by row `i` of a served table, with a valid SET and RETURNING. */
  predicate PresentUpdate<Id>(s: Schema, rows: seq<Row>, mc: Controller<Id>, pairs: seq<(Iden, SimpleExpr)>, id: Id,
                              returning: seq<Iden>, i: int)
  {
    && WellKeyed(s, rows) && Serves(mc, s)
    && |pairs| > 0 && Known(s, Columns(pairs)) && Distinct(Columns(pairs)) && AllEvaluable(pairs) && Known(s, returning)
    && 0 <= i < |rows| && mc.idValue(id) == Val(rows[i][s.key])
  }

  /**
   * `update` of a present id: either exactly that row is changed and
   * returned, or the database refuses the change (a key constraint) and
   * the failure is tagged UPDATE with nothing changed.
   */
  lemma UpdatePresent<Id>(s: Schema, rows: seq<Row>, mc: Controller<Id>, pairs: seq<(Iden, SimpleExpr)>, id: Id,
                          returning: seq<Iden>, i: int)
    requires WellKeyed(s, rows) && Serves(mc, s)
    requires |pairs| > 0 && Known(s, Columns(pairs)) && Distinct(Columns(pairs)) && AllEvaluable(pairs) && Known(s, returning)
    requires 0 <= i < |rows| && mc.idValue(id) == Val(rows[i][s.key])
    ensures var changed := rows[i := Assign(rows[i], pairs)];
      var r := UpdateResult(s, rows, mc, pairs, id, returning, None);
      var after := After(s, rows, UpdateStatement(mc, pairs, id, returning), map[], None);
      (r == Ok(Project(Assign(rows[i], pairs), returning)) && after == changed)
      || (r.Err? && r.error.Bmc? && r.error.bmc.operation == DbBmcOp.Update && after == rows)
  {
    if RunUpdate(s, rows, mc.table, pairs, [IdCond(mc, id)], returning).Ok? {
      UpdatePresentRuns(s, rows, mc, pairs, id, returning, i);
      UpdatePresentReturns(s, rows, mc, pairs, id, returning, i);
      UpdatePresentWrites(s, rows, mc, pairs, id, returning, i);
    } else {
      UpdateRejectedTagged(s, rows, mc, pairs, id, returning);
      UpdateRejectedKeeps(s, rows, mc, pairs, id, returning);
    }
  }

  /** A committed UPDATE on the row's own key changes exactly that row and returns it. */
  lemma UpdatePresentRuns<Id>(s: Schema, rows: seq<Row>, mc: Controller<Id>, pairs: seq<(Iden, SimpleExpr)>, id: Id,
                          returning: seq<Iden>, i: int)
    requires PresentUpdate(s, rows, mc, pairs, id, returning, i)
    requires RunUpdate(s, rows, mc.table, pairs, [IdCond(mc, id)], returning).Ok?
    ensures RunUpdate(s, rows, mc.table, pairs, [IdCond(mc, id)], returning)
      == Ok((rows[i := Assign(rows[i], pairs)], [Project(Assign(rows[i], pairs), returning)]))
  {
    assert [IdCond(mc, id)] == KeyIs(s, rows[i][s.key]) by {
      assert UpdateStatement(mc, pairs, id, returning).conds == KeyIs(s, rows[i][s.key]);
    }
    UpdateOnKeyVerdict(s, rows, mc.table, pairs, [IdCond(mc, id)], returning, i);
  }

  lemma UpdatePresentReturns<Id>(s: Schema, rows: seq<Row>, mc: Controller<Id>, pairs: seq<(Iden, SimpleExpr)>, id: Id,
                          returning: seq<Iden>, i: int)
    requires PresentUpdate(s, rows, mc, pairs, id, returning, i)
    requires RunUpdate(s, rows, mc.table, pairs, [IdCond(mc, id)], returning)
      == Ok((rows[i := Assign(rows[i], pairs)], [Project(Assign(rows[i], pairs), returning)]))
    ensures UpdateResult(s, rows, mc, pairs, id, returning, None) == Ok(Project(Assign(rows[i], pairs), returning))
  {
    UpdateThroughDriver(s, rows, mc, pairs, id, returning);
  }

  lemma UpdatePresentWrites<Id>(s: Schema, rows: seq<Row>, mc: Controller<Id>, pairs: seq<(Iden, SimpleExpr)>, id: Id,
                          returning: seq<Iden>, i: int)
    requires PresentUpdate(s, rows, mc, pairs, id, returning, i)
    requires RunUpdate(s, rows, mc.table, pairs, [IdCond(mc, id)], returning)
      == Ok((rows[i := Assign(rows[i], pairs)], [Project(Assign(rows[i], pairs), returning)]))
    ensures After(s, rows, UpdateStatement(mc, pairs, id, returning), map[], None) == rows[i := Assign(rows[i], pairs)]
  {
    UpdateThroughDriver(s, rows, mc, pairs, id, returning);
  }

  /** An UPDATE the database refuses comes back tagged with the entity and the operation. */
  lemma UpdateRejectedTagged<Id>(s: Schema, rows: seq<Row>, mc: Controller<Id>, pairs: seq<(Iden, SimpleExpr)>, id: Id, returning: seq<Iden>)
    requires |pairs| > 0 && RunUpdate(s, rows, mc.table, pairs, [IdCond(mc, id)], returning).Err?
    ensures var r := UpdateResult(s, rows, mc, pairs, id, returning, None);
      r.Err? && r.error.Bmc? && r.error.bmc.operation == DbBmcOp.Update
  {
    UpdateThroughDriver(s, rows, mc, pairs, id, returning);
  }

  /** An UPDATE the database refuses leaves the table as it was. */
  lemma UpdateRejectedKeeps<Id>(s: Schema, rows: seq<Row>, mc: Controller<Id>, pairs: seq<(Iden, SimpleExpr)>, id: Id, returning: seq<Iden>)
    requires |pairs| > 0 && RunUpdate(s, rows, mc.table, pairs, [IdCond(mc, id)], returning).Err?
    ensures After(s, rows, UpdateStatement(mc, pairs, id, returning), map[], None) == rows
  {
    UpdateThroughDriver(s, rows, mc, pairs, id, returning);
  }

  /**
   * `update` of a present id succeeds exactly when the changed row's key is
   * non-null and held by no other row; otherwise the database refuses it
   * (see UpdatePresent for what a refusal returns and leaves behind).
   */
  lemma UpdatePresentSucceeds<Id>(s: Schema, rows: seq<Row>, mc: Controller<Id>, pairs: seq<(Iden, SimpleExpr)>, id: Id,
                          returning: seq<Iden>, i: int)
    requires WellKeyed(s, rows) && Serves(mc, s)
    requires |pairs| > 0 && Known(s, Columns(pairs)) && Distinct(Columns(pairs)) && AllEvaluable(pairs) && Known(s, returning)
    requires 0 <= i < |rows| && mc.idValue(id) == Val(rows[i][s.key])
    ensures UpdateResult(s, rows, mc, pairs, id, returning, None).Ok? <==> KeyFreeFor(s, rows, i, Assign(rows[i], pairs))
  {
    if KeyFreeFor(s, rows, i, Assign(rows[i], pairs)) {
      UpdatePresentFree(s, rows, mc, pairs, id, returning, i);
      UpdatePresentReturns(s, rows, mc, pairs, id, returning, i);
    } else {
      UpdatePresentTaken(s, rows, mc, pairs, id, returning, i);
      UpdateRejectedTagged(s, rows, mc, pairs, id, returning);
    }
  }

  /** When the changed row's key is free, `update` changes and returns exactly that row. */
  lemma UpdatePresentCommits<Id>(s: Schema, rows: seq<Row>, mc: Controller<Id>, pairs: seq<(Iden, SimpleExpr)>, id: Id,
                          returning: seq<Iden>, i: int)
    requires WellKeyed(s, rows) && Serves(mc, s)
    requires |pairs| > 0 && Known(s, Columns(pairs)) && Distinct(Columns(pairs)) && AllEvaluable(pairs) && Known(s, returning)
    requires 0 <= i < |rows| && mc.idValue(id) == Val(rows[i][s.key])
    requires KeyFreeFor(s, rows, i, Assign(rows[i], pairs))
    ensures UpdateResult(s, rows, mc, pairs, id, returning, None) == Ok(Project(Assign(rows[i], pairs), returning))
    ensures After(s, rows, UpdateStatement(mc, pairs, id, returning), map[], None) == rows[i := Assign(rows[i], pairs)]
  {
    UpdatePresentFree(s, rows, mc, pairs, id, returning, i);
    UpdatePresentReturns(s, rows, mc, pairs, id, returning, i);
    UpdatePresentWrites(s, rows, mc, pairs, id, returning, i);
  }

  /** An `update` that assigns no value to the key column always succeeds on a present id. */
  lemma UpdateKeepingKeySucceeds<Id>(s: Schema, rows: seq<Row>, mc: Controller<Id>, pairs: seq<(Iden, SimpleExpr)>, id: Id,
                          returning: seq<Iden>, i: int)
    requires WellKeyed(s, rows) && Serves(mc, s)
    requires |pairs| > 0 && Known(s, Columns(pairs)) && Distinct(Columns(pairs)) && AllEvaluable(pairs) && Known(s, returning)
    requires 0 <= i < |rows| && mc.idValue(id) == Val(rows[i][s.key])
    requires s.key !in Columns(pairs)
    ensures UpdateResult(s, rows, mc, pairs, id, returning, None) == Ok(Project(Assign(rows[i], pairs), returning))
    ensures After(s, rows, UpdateStatement(mc, pairs, id, returning), map[], None) == rows[i := Assign(rows[i], pairs)]
  {
    KeyUntouchedIsFree(s, rows, pairs, i);
    UpdatePresentCommits(s, rows, mc, pairs, id, returning, i);
  }

  lemma UpdatePresentFree<Id>(s: Schema, rows: seq<Row>, mc: Controller<Id>, pairs: seq<(Iden, SimpleExpr)>, id: Id,
                          returning: seq<Iden>, i: int)
    requires PresentUpdate(s, rows, mc, pairs, id, returning, i)
    requires KeyFreeFor(s, rows, i, Assign(rows[i], pairs))
    ensures RunUpdate(s, rows, mc.table, pairs, [IdCond(mc, id)], returning)
      == Ok((rows[i := Assign(rows[i], pairs)], [Project(Assign(rows[i], pairs), returning)]))
  {
    assert [IdCond(mc, id)] == KeyIs(s, rows[i][s.key]);
    UpdateOnKeyCommitted(s, rows, mc.table, pairs, [IdCond(mc, id)], returning, i);
  }

  lemma UpdatePresentTaken<Id>(s: Schema, rows: seq<Row>, mc: Controller<Id>, pairs: seq<(Iden, SimpleExpr)>, id: Id,
                          returning: seq<Iden>, i: int)
    requires PresentUpdate(s, rows, mc, pairs, id, returning, i)
    requires !KeyFreeFor(s, rows, i, Assign(rows[i], pairs))
    ensures RunUpdate(s, rows, mc.table, pairs, [IdCond(mc, id)], returning).Err?
  {
    assert [IdCond(mc, id)] == KeyIs(s, rows[i][s.key]);
    UpdateOnKeyCommits(s, rows, mc.table, pairs, [IdCond(mc, id)], returning, i);
  }

  /** `update`'s result and the table afterwards, read off the database's answer to the UPDATE. */
  lemma UpdateThroughDriver<Id>(s: Schema, rows: seq<Row>, mc: Controller<Id>, pairs: seq<(Iden, SimpleExpr)>, id: Id, returning: seq<Iden>)
    requires |pairs| > 0
    ensures var ru := RunUpdate(s, rows, mc.table, pairs, [IdCond(mc, id)], returning);
      && UpdateResult(s, rows, mc, pairs, id, returning, None) ==
        (match ru
         case Err(e) => Err(Tag(mc.entity, DbBmcOp.Update, SqlxError.Database(e)))
         case Ok((_, returned)) =>
           if |returned| == 0 then Err(Domain(EntityNotFound(mc.entity, mc.idString(id)))) else Ok(returned[0]))
      && After(s, rows, UpdateStatement(mc, pairs, id, returning), map[], None) ==
        (match ru
         case Err(_) => rows
         case Ok((after, _)) => after)
  {
  }

  /**
   * `delete` on a served table succeeds exactly when a row holds the id;
   * it then removes that row and no other, and otherwise changes nothing.
   */
  lemma DeleteByKey<Id>(s: Schema, rows: seq<Row>, mc: Controller<Id>, id: Id, v: Value)
    requires WellKeyed(s, rows) && Serves(mc, s)
    requires mc.idValue(id) == Val(v)
    ensures DeleteResult(s, rows, mc, id, None).Ok? <==> Present(rows, s.key, v)
    ensures DeleteResult(s, rows, mc, id, None).Err? ==>
      DeleteResult(s, rows, mc, id, None) == Err(Domain(EntityNotFound(mc.entity, mc.idString(id))))
      && After(s, rows, DeleteStatement(mc, id), map[], None) == rows
    ensures forall i :: 0 <= i < |rows| && rows[i][s.key] == v ==>
      After(s, rows, DeleteStatement(mc, id), map[], None) == rows[..i] + rows[i + 1..]
  {
    var conds := KeyIs(s, v);
    assert DeleteStatement(mc, id).conds == conds;
    if !Present(rows, s.key, v) {
      KeyLookupAbsent(s, rows, v);
    } else {
      var i :| 0 <= i < |rows| && Cell(rows[i], s.key) == v;
      KeyLookupFound(s, rows, v, i);
    }
    forall i | 0 <= i < |rows| && rows[i][s.key] == v
      ensures After(s, rows, DeleteStatement(mc, id), map[], None) == rows[..i] + rows[i + 1..]
    {
      KeyedRow(s, rows, v, i);
      KeyLookupFound(s, rows, v, i);
      FilterDropsOne(rows, conds, i);
    }
  }

  lemma {:induction false} FilterDropsOne(rows: seq<Row>, conds: seq<Cond>, i: int)
    requires 0 <= i < |rows|
    requires forall j :: 0 <= j < |rows| ==> (HoldsAll(conds, rows[j]) <==> j == i)
    ensures Filter(rows, conds, false) == rows[..i] + rows[i + 1..]
    decreases |rows|
  {
    assert rows == [rows[0]] + rows[1..];
    if i == 0 {
      FilterNone(rows[1..], conds);
    } else {
      FilterDropsOne(rows[1..], conds, i - 1);
      assert rows[..i] == [rows[0]] + rows[1..][..i - 1];
      assert rows[i + 1..] == rows[1..][i..];
    }
  }

  /** After a successful `create`, `get` with the new row's id and the same columns returns what `create` returned. */
  lemma CreateThenGet<Id>(s: Schema, rows: seq<Row>, mc: Controller<Id>, cols: seq<Iden>, vals: seq<SimpleExpr>,
                          returning: seq<Iden>, defaults: Row, id: Id, created: Row)
    requires WellKeyed(s, rows) && Serves(mc, s)
    requires CreateResult(s, rows, mc, cols, vals, returning, defaults, None).Ok?
    requires After(s, rows, InsertStatement(mc, cols, vals, returning), defaults, None) == rows + [created]
    requires mc.idValue(id) == Val(Cell(created, s.key))
    ensures GetResult(s, rows + [created], mc, returning, id, None) == CreateResult(s, rows, mc, cols, vals, returning, defaults, None)
  {
    var after := rows + [created];
    InsertPreserves(s, rows, s.table, cols, vals, returning, defaults);
    assert created == after[|after| - 1];
    assert Known(s, returning);
    GetFindsKeyedRow(s, after, mc, returning, id, Cell(created, s.key));
  }
}
