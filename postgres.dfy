/**
 * What the database does with the statements the engine issues: the model's
 * stand-in for PostgreSQL behind the driver. The database holds one table,
 * kept in one fixed row order, whose primary key is non-null and unique. Each Run
 * function gives the statement's reply or the SQLSTATE error PostgreSQL
 * reports for it, and the table afterwards.
 */
module Postgres {
  import opened Wrappers
  import opened Sql
  import opened Errors

  /** The table: its name, its columns and its primary-key column. */
  datatype Schema = Schema(table: Iden, columns: set<Iden>, key: Iden)

  const UndefinedTable: string := "42P01"
  const UndefinedColumn: string := "42703"
  const SyntaxError: string := "42601"
  const DuplicateColumn: string := "42701"
  const NotNullViolation: string := "23502"
  const UniqueViolation: string := "23505"

  function Fail(code: string, message: string): DatabaseError {
    DatabaseError(Some(code), message)
  }

  /** The value of column `c`, NULL when the row has no such column. */
  function Cell(r: Row, c: Iden): Value {
    if c in r then r[c] else Null
  }

  /** Only bound values and the fragment NULL are understood. */
  predicate Evaluable(e: SimpleExpr) {
    e.Val? || e.sql == "NULL"
  }

  function ValueOf(e: SimpleExpr): Value {
    if e.Val? then e.v else Null
  }

  /** A conjunct is true of a row (a comparison with NULL is never true). */
  predicate Holds(c: Cond, r: Row) {
    match c
    case Eq(col, rhs) => Cell(r, col) != Null && Cell(r, col) == ValueOf(rhs)
    case Gt(col, rhs) => Before(ValueOf(rhs), Cell(r, col))
    case Lt(col, rhs) => Before(Cell(r, col), ValueOf(rhs))
  }

  predicate HoldsAll(conds: seq<Cond>, r: Row) {
    forall i :: 0 <= i < |conds| ==> Holds(conds[i], r)
  }

  /** The rows, in table order, for which the conjunction is (`keep`) or is not (`!keep`) true. */
  function Filter(rows: seq<Row>, conds: seq<Cond>, keep: bool): (m: seq<Row>)
    ensures |m| <= |rows|
    ensures forall r :: r in m ==> r in rows && HoldsAll(conds, r) == keep
  {
    if |rows| == 0 then []
    else (if HoldsAll(conds, rows[0]) == keep then [rows[0]] else []) + Filter(rows[1..], conds, keep)
  }

  /** The rows a WHERE clause selects. */
  function Matching(rows: seq<Row>, conds: seq<Cond>): seq<Row> {
    Filter(rows, conds, true)
  }

  /** Ascending order on one ORDER BY key puts NULL last; descending puts it first (PostgreSQL's defaults). */
  predicate NullsLastBefore(x: Value, y: Value) {
    Before(x, y) || (x != Null && y == Null)
  }

  predicate KeyBefore(a: Row, b: Row, key: (Iden, Order)) {
    if key.1 == Asc then NullsLastBefore(Cell(a, key.0), Cell(b, key.0))
    else NullsLastBefore(Cell(b, key.0), Cell(a, key.0))
  }

  /** `a` sorts strictly before `b` under the ORDER BY keys, compared lexicographically. */
  predicate RowBefore(a: Row, b: Row, keys: seq<(Iden, Order)>)
    decreases |keys|
  {
    |keys| > 0
    && (KeyBefore(a, b, keys[0])
        || (Cell(a, keys[0].0) == Cell(b, keys[0].0) && RowBefore(a, b, keys[1..])))
  }

  function InsertSorted(x: Row, s: seq<Row>, keys: seq<(Iden, Order)>): seq<Row> {
    if |s| == 0 then [x]
    else if RowBefore(x, s[0], keys) then [x] + s
    else [s[0]] + InsertSorted(x, s[1..], keys)
  }

  /**
   * ORDER BY, as a stable insertion sort: each row goes after every row
   * already placed that it does not sort strictly before, so rows that tie
   * keep table order (SQL leaves their order open; this is one choice).
   */
  function SortRows(s: seq<Row>, keys: seq<(Iden, Order)>): seq<Row> {
    if |s| == 0 then [] else InsertSorted(s[|s| - 1], SortRows(s[..|s| - 1], keys), keys)
  }

  function Take(s: seq<Row>, limit: Option<nat>): (t: seq<Row>)
    ensures limit.Some? ==> |t| == if limit.value < |s| then limit.value else |s|
    ensures limit.None? ==> t == s
    ensures t == s[..|t|]
  {
    if limit.Some? && limit.value < |s| then s[..limit.value] else s
  }

  /** A row cut down to the requested columns (what `FromRow` then decodes). */
  function Project(r: Row, cols: seq<Iden>): (p: Row)
    ensures forall c :: c in p <==> c in cols && c in r
    ensures forall c :: c in p ==> p[c] == r[c]
  {
    map c | c in cols && c in r :: r[c]
  }

  function ProjectAll(rows: seq<Row>, cols: seq<Iden>): (ps: seq<Row>)
    ensures |ps| == |rows| && forall i :: 0 <= i < |rows| ==> ps[i] == Project(rows[i], cols)
  {
    seq(|rows|, i requires 0 <= i < |rows| => Project(rows[i], cols))
  }

  predicate Known(s: Schema, cols: seq<Iden>) {
    forall i :: 0 <= i < |cols| ==> cols[i] in s.columns
  }

  predicate CondsKnown(s: Schema, conds: seq<Cond>) {
    forall i :: 0 <= i < |conds| ==> conds[i].col in s.columns
  }

  predicate CondsEvaluable(conds: seq<Cond>) {
    forall i :: 0 <= i < |conds| ==> Evaluable(conds[i].rhs)
  }

  predicate OrderKnown(s: Schema, keys: seq<(Iden, Order)>) {
    forall i :: 0 <= i < |keys| ==> keys[i].0 in s.columns
  }

  predicate KeysNonNull(rows: seq<Row>, key: Iden) {
    forall i :: 0 <= i < |rows| ==> Cell(rows[i], key) != Null
  }

  predicate KeysDistinct(rows: seq<Row>, key: Iden) {
    forall i, j :: 0 <= i < j < |rows| ==> Cell(rows[i], key) != Cell(rows[j], key)
  }

  /** The table invariant: every row has exactly the schema's columns, and the key is non-null and unique. */
  predicate WellKeyed(s: Schema, rows: seq<Row>) {
    && s.key in s.columns
    && (forall i :: 0 <= i < |rows| ==> rows[i].Keys == s.columns)
    && KeysNonNull(rows, s.key)
    && KeysDistinct(rows, s.key)
  }

  predicate Distinct(cols: seq<Iden>) {
    forall i, j :: 0 <= i < j < |cols| ==> cols[i] != cols[j]
  }

  function Columns(pairs: seq<(Iden, SimpleExpr)>): (cols: seq<Iden>)
    ensures |cols| == |pairs| && forall i :: 0 <= i < |pairs| ==> cols[i] == pairs[i].0
  {
    seq(|pairs|, i requires 0 <= i < |pairs| => pairs[i].0)
  }

  function Zip(cols: seq<Iden>, vals: seq<SimpleExpr>): (pairs: seq<(Iden, SimpleExpr)>)
    requires |cols| == |vals|
    ensures Columns(pairs) == cols
    ensures |pairs| == |cols| && forall i :: 0 <= i < |cols| ==> pairs[i] == (cols[i], vals[i])
  {
    seq(|cols|, i requires 0 <= i < |cols| => (cols[i], vals[i]))
  }

  predicate AllEvaluable(pairs: seq<(Iden, SimpleExpr)>) {
    forall i :: 0 <= i < |pairs| ==> Evaluable(pairs[i].1)
  }

  /** A row with the pairs' columns set to the pairs' values (SET / VALUES). */
  function Assign(r: Row, pairs: seq<(Iden, SimpleExpr)>): (a: Row)
    ensures forall c :: c in a <==> c in r || c in Columns(pairs)
    ensures forall c :: c in r && c !in Columns(pairs) ==> a[c] == r[c]
    decreases |pairs|
  {
    if |pairs| == 0 then r
    else
      var a := Assign(r[pairs[0].0 := ValueOf(pairs[0].1)], pairs[1..]);
      assert Columns(pairs) == [pairs[0].0] + Columns(pairs[1..]);
      a
  }

  /** `SELECT COUNT(col) FROM table`: the rows whose `col` is not NULL. */
  function NonNullCount(rows: seq<Row>, col: Iden): (n: nat)
    ensures n <= |rows|
    ensures KeysNonNull(rows, col) ==> n == |rows|
  {
    if |rows| == 0 then 0
    else (if Cell(rows[0], col) != Null then 1 else 0) + NonNullCount(rows[1..], col)
  }

  function RunCount(s: Schema, rows: seq<Row>, table: Iden, col: Iden): Result<int, DatabaseError> {
    if table != s.table then Err(Fail(UndefinedTable, "relation does not exist"))
    else if col !in s.columns then Err(Fail(UndefinedColumn, "column does not exist"))
    else Ok(NonNullCount(rows, col))
  }

  function RunSelect(s: Schema, rows: seq<Row>, q: SelectStmt): Result<seq<Row>, DatabaseError> {
    if q.from != Some(s.table) then Err(Fail(UndefinedTable, "relation does not exist"))
    else if !Known(s, q.columns) || !CondsKnown(s, q.conds) || !OrderKnown(s, q.orderBy) then
      Err(Fail(UndefinedColumn, "column does not exist"))
    else if !CondsEvaluable(q.conds) then Err(Fail(SyntaxError, "syntax error"))
    else Ok(ProjectAll(Take(SortRows(Matching(rows, q.conds), q.orderBy), q.limit), q.columns))
  }

  /** The row an INSERT builds: the column defaults, then the inserted values. */
  function NewRow(s: Schema, pairs: seq<(Iden, SimpleExpr)>, defaults: Row): Row {
    Assign(map c | c in s.columns :: Cell(defaults, c), pairs)
  }

  /**
   * `INSERT INTO table (cols) VALUES (vals) RETURNING returning`: the new
   * table and the returned row. `defaults` are the values the schema's
   * column defaults produce for this row (generated ids, clocks).
   */
  function RunInsert(s: Schema, rows: seq<Row>, table: Iden, cols: seq<Iden>, vals: seq<SimpleExpr>,
                     returning: seq<Iden>, defaults: Row): Result<(seq<Row>, Row), DatabaseError>
  {
    if table != s.table then Err(Fail(UndefinedTable, "relation does not exist"))
    else if |cols| != |vals| then Err(Fail(SyntaxError, "INSERT has more target columns than expressions"))
    else if !Known(s, cols) || !Known(s, returning) then Err(Fail(UndefinedColumn, "column does not exist"))
    else if !Distinct(cols) then Err(Fail(DuplicateColumn, "column specified more than once"))
    else if !AllEvaluable(Zip(cols, vals)) then Err(Fail(SyntaxError, "syntax error"))
    else
      var row := NewRow(s, Zip(cols, vals), defaults);
      var after := rows + [row];
      if !KeysNonNull(after, s.key) then Err(Fail(NotNullViolation, "null value violates not-null constraint"))
      else if !KeysDistinct(after, s.key) then Err(Fail(UniqueViolation, "duplicate key value violates unique constraint"))
      else Ok((after, Project(row, returning)))
  }

  /** The table after SET `pairs` on the rows the conjunction selects. */
  function UpdateRows(rows: seq<Row>, pairs: seq<(Iden, SimpleExpr)>, conds: seq<Cond>): (u: seq<Row>)
    ensures |u| == |rows|
    ensures forall i :: 0 <= i < |rows| ==> u[i] == if HoldsAll(conds, rows[i]) then Assign(rows[i], pairs) else rows[i]
  {
    seq(|rows|, i requires 0 <= i < |rows| => if HoldsAll(conds, rows[i]) then Assign(rows[i], pairs) else rows[i])
  }

  /** The updated versions of the selected rows, in table order (what RETURNING sees). */
  function UpdatedMatches(rows: seq<Row>, pairs: seq<(Iden, SimpleExpr)>, conds: seq<Cond>): (u: seq<Row>)
    ensures |u| == |Matching(rows, conds)|
    ensures forall i :: 0 <= i < |u| ==> u[i] == Assign(Matching(rows, conds)[i], pairs)
  {
    var m := Matching(rows, conds);
    seq(|m|, i requires 0 <= i < |m| => Assign(m[i], pairs))
  }

  /**
   * `UPDATE table SET pairs WHERE conds RETURNING returning`: the new table
   * and the returned rows. An empty SET list is a syntax error.
   */
  function RunUpdate(s: Schema, rows: seq<Row>, table: Iden, pairs: seq<(Iden, SimpleExpr)>, conds: seq<Cond>,
                     returning: seq<Iden>): Result<(seq<Row>, seq<Row>), DatabaseError>
  {
    if table != s.table then Err(Fail(UndefinedTable, "relation does not exist"))
    else if |pairs| == 0 then Err(Fail(SyntaxError, "syntax error at or near \"WHERE\""))
    else if !Known(s, Columns(pairs)) || !CondsKnown(s, conds) || !Known(s, returning) then
      Err(Fail(UndefinedColumn, "column does not exist"))
    else if !Distinct(Columns(pairs)) then Err(Fail(SyntaxError, "multiple assignments to same column"))
    else if !AllEvaluable(pairs) || !CondsEvaluable(conds) then Err(Fail(SyntaxError, "syntax error"))
    else
      var after := UpdateRows(rows, pairs, conds);
      if !KeysNonNull(after, s.key) then Err(Fail(NotNullViolation, "null value violates not-null constraint"))
      else if !KeysDistinct(after, s.key) then Err(Fail(UniqueViolation, "duplicate key value violates unique constraint"))
      else Ok((after, ProjectAll(UpdatedMatches(rows, pairs, conds), returning)))
  }

  /** `DELETE FROM table WHERE conds`: the new table and the number of rows affected. */
  function RunDelete(s: Schema, rows: seq<Row>, table: Iden, conds: seq<Cond>): Result<(seq<Row>, nat), DatabaseError> {
    if table != s.table then Err(Fail(UndefinedTable, "relation does not exist"))
    else if !CondsKnown(s, conds) then Err(Fail(UndefinedColumn, "column does not exist"))
    else if !CondsEvaluable(conds) then Err(Fail(SyntaxError, "syntax error"))
    else Ok((Filter(rows, conds, false), |Matching(rows, conds)|))
  }
}
