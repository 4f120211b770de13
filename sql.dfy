/**
 * The statement language the CRUD engine builds with sea_query, reduced to
 * what the engine and the derived code produce: column identifiers, values,
 * value expressions, where-conjuncts, orderings and the five statements.
 * Rendering to PostgreSQL text and binding parameters are not modelled; a
 * statement is its abstract description.
 */
module Sql {
  import opened Wrappers

  /** A table or column identifier as the database sees it (a rendered DynIden). */
  type Iden = string

  /**
   * A SQL value. Uuids travel as Int: a uuid read as a 128-bit big-endian
   * integer, which keeps the order both Rust and PostgreSQL give uuids.
   */
  datatype Value = Null | Int(i: int) | Text(s: string)

  /** A row, by column. */
  type Row = map<Iden, Value>

  /** sea_query's SimpleExpr as the engine uses it: a bound value or a raw SQL fragment. */
  datatype SimpleExpr = Val(v: Value) | Custom(sql: string)

  datatype Order = Asc | Desc

  /** One conjunct of a WHERE clause: `col = e`, `col > e` or `col < e`. */
  datatype Cond = Eq(col: Iden, rhs: SimpleExpr) | Gt(col: Iden, rhs: SimpleExpr) | Lt(col: Iden, rhs: SimpleExpr)

  /** A SELECT: table, columns, where-conjuncts (in the order added), ORDER BY keys, LIMIT. */
  datatype SelectStmt = SelectStmt(
    from: Option<Iden>,
    columns: seq<Iden>,
    conds: seq<Cond>,
    orderBy: seq<(Iden, Order)>,
    limit: Option<nat>)

  /** `Query::select()`: nothing chosen yet. */
  const EmptySelect: SelectStmt := SelectStmt(None, [], [], [], None)

  datatype Statement =
    | CountOf(table: Iden, column: Iden)
    | SelectOf(query: SelectStmt)
    | InsertInto(table: Iden, columns: seq<Iden>, values: seq<SimpleExpr>, returning: seq<Iden>)
    | UpdateOf(table: Iden, sets: seq<(Iden, SimpleExpr)>, conds: seq<Cond>, returning: seq<Iden>)
    | DeleteFrom(table: Iden, conds: seq<Cond>)

  /** Strict lexicographic order on text (PostgreSQL's "C" collation: by code point). */
  predicate TextBefore(a: string, b: string)
    decreases |a|
  {
    if |a| == 0 then |b| > 0
    else if |b| == 0 then false
    else a[0] < b[0] || (a[0] == b[0] && TextBefore(a[1..], b[1..]))
  }

  /** `a < b` as the database compares two non-null values of one type; NULL and mixed types compare to nothing. */
  predicate Before(a: Value, b: Value) {
    match (a, b)
    case (Int(x), Int(y)) => x < y
    case (Text(x), Text(y)) => TextBefore(x, y)
    case _ => false
  }

  lemma {:induction false} TextBeforeIrreflexive(a: string)
    ensures !TextBefore(a, a)
    decreases |a|
  {
    if |a| > 0 {
      TextBeforeIrreflexive(a[1..]);
    }
  }

  lemma {:induction false} TextBeforeTransitive(a: string, b: string, c: string)
    requires TextBefore(a, b) && TextBefore(b, c)
    ensures TextBefore(a, c)
    decreases |a|
  {
    if |a| > 0 && a[0] == b[0] && b[0] == c[0] {
      TextBeforeTransitive(a[1..], b[1..], c[1..]);
    }
  }

  lemma BeforeIrreflexive(a: Value)
    ensures !Before(a, a)
  {
    if a.Text? {
      TextBeforeIrreflexive(a.s);
    }
  }

  lemma BeforeTransitive(a: Value, b: Value, c: Value)
    requires Before(a, b) && Before(b, c)
    ensures Before(a, c)
  {
    if a.Text? {
      TextBeforeTransitive(a.s, b.s, c.s);
    }
  }
}
