/**
 * Walking pages with `list_paginated` (bodega/src/base.rs, the cursor
 * contract of bodega/src/pagination.rs): starting without a cursor and
 * setting the cursor to each page's `next_cursor` until none is offered
 * returns every matching row exactly once, in cursor order. The setting:
 * the cursor column is the table's integer primary key, the order is
 * ascending (the default), and the filter only adds where-conjuncts.
 */
module PageWalk {
  import opened Wrappers
  import opened Sql
  import opened Postgres
  import opened PostgresLaws
  import opened Base
  import Pagination

  /** The order pages are walked in: ascending on the primary key. */
  function KeyOrder(s: Schema): seq<(Iden, Order)> {
    [(s.key, Asc)]
  }

  /** The rows the filter selects, in key order: what the walk should return. */
  function Ordered(s: Schema, rows: seq<Row>, extra: seq<Cond>): seq<Row> {
    SortRows(Matching(rows, extra), KeyOrder(s))
  }

  /** Every key is an integer (ids such as uuids). */
  predicate IntKeys(s: Schema, rows: seq<Row>) {
    forall i :: 0 <= i < |rows| ==> Cell(rows[i], s.key).Int?
  }

  /** Keys strictly increase along the sequence. */
  predicate Ascending(s: Schema, m: seq<Row>) {
    forall i, j :: 0 <= i < j < |m| ==> Cell(m[i], s.key).Int? && Cell(m[j], s.key).Int? && Cell(m[i], s.key).i < Cell(m[j], s.key).i
  }

  /** The setting of the walk theorem. */
  ghost predicate Setting<Id>(s: Schema, rows: seq<Row>, mc: Controller<Id>, e: EntityShape, f: FilterView, extra: seq<Cond>) {
    && WellKeyed(s, rows) && IntKeys(s, rows) && Serves(mc, s)
    && e.cursorColumn == s.key && Known(s, e.selectCols) && s.key in e.selectCols
    && f.order == Asc && f.pageLimit >= 1
    && CondsKnown(s, extra) && CondsEvaluable(extra)
    && (forall q :: f.filterQuery(q) == q.(conds := q.conds + extra))
  }

  /** The filter after the walk has passed `j` rows of `m`: no cursor at first, then the last row's key. */
  function CursorAt(f: FilterView, s: Schema, m: seq<Row>, j: nat): FilterView
    requires j <= |m|
  {
    f.(cursor := if j == 0 then None else Some(Cell(m[j - 1], s.key)))
  }

  /** Pages fetched by following `next_cursor`, at most `fuel` times after the first. */
  function Walk<Id>(s: Schema, rows: seq<Row>, mc: Controller<Id>, e: EntityShape, f: FilterView, fuel: nat)
    : seq<Pagination.Paginated<Row, Value>>
  {
    WalkWith((g: FilterView) => PageResult(s, rows, mc, e, g, None), f, fuel)
  }

  /** The walk over any way of fetching the page a filter asks for: stop at an error or at a page without cursor. */
  function WalkWith<T>(fetch: FilterView -> Result<Pagination.Paginated<T, Value>, Failure>, f: FilterView, fuel: nat)
    : seq<Pagination.Paginated<T, Value>>
    decreases fuel
  {
    match fetch(f)
    case Err(_) => []
    case Ok(page) =>
      if page.HasNext() && fuel > 0 then [page] + WalkWith(fetch, f.(cursor := page.nextCursor), fuel - 1)
      else [page]
  }

  /** The entries of the pages, in order. */
  function Flatten<T>(pages: seq<Pagination.Paginated<T, Value>>): seq<T> {
    if |pages| == 0 then [] else pages[0].entries + Flatten(pages[1..])
  }

  // ---- key order ----

  lemma KeyBeforeIsLess(s: Schema, a: Row, b: Row)
    requires Cell(a, s.key).Int? && Cell(b, s.key).Int?
    ensures RowBefore(a, b, KeyOrder(s)) <==> Cell(a, s.key).i < Cell(b, s.key).i
  {
    assert KeyOrder(s)[1..] == [];
  }

  /** Two positions of a sequence holding the same row make it occur twice. */
  lemma TwiceCounted(m: seq<Row>, i: int, j: int)
    requires 0 <= i < j < |m| && m[i] == m[j]
    ensures multiset(m)[m[i]] >= 2
  {
    assert m == m[..j] + m[j..];
    assert m[i] in m[..j];
    assert m[j] in m[j..];
  }

  /** A row occurring twice sits at two positions. */
  lemma TwoPositions(x: seq<Row>, r: Row) returns (p: int, q: int)
    requires multiset(x)[r] >= 2
    ensures 0 <= p < |x| && 0 <= q < |x| && p != q && x[p] == r && x[q] == r
  {
    assert r in multiset(x);
    p :| 0 <= p < |x| && x[p] == r;
    assert x == x[..p] + [x[p]] + x[p + 1..];
    assert multiset(x[..p])[r] + multiset(x[p + 1..])[r] >= 1;
    if multiset(x[..p])[r] >= 1 {
      assert r in x[..p];
      var k :| 0 <= k < p && x[..p][k] == r;
      q := k;
    } else {
      assert r in x[p + 1..];
      var k :| 0 <= k < |x| - p - 1 && x[p + 1..][k] == r;
      q := p + 1 + k;
    }
  }

  /** A reordering of rows with distinct keys still has distinct keys. */
  lemma PermutationKeysDistinct(x: seq<Row>, m: seq<Row>, key: Iden)
    requires multiset(x) == multiset(m) && KeysDistinct(x, key)
    ensures KeysDistinct(m, key)
  {
    forall i, j | 0 <= i < j < |m| ensures Cell(m[i], key) != Cell(m[j], key) {
      assert m[i] in multiset(x) && m[j] in multiset(x);
      var p :| 0 <= p < |x| && x[p] == m[i];
      var q :| 0 <= q < |x| && x[q] == m[j];
      if p == q {
        TwiceCounted(m, i, j);
        var p2, q2 := TwoPositions(x, m[i]);
      }
    }
  }

  /** The walk order: the filtered rows sorted by key have strictly increasing keys. */
  lemma OrderedAscending(s: Schema, rows: seq<Row>, extra: seq<Cond>)
    requires WellKeyed(s, rows) && IntKeys(s, rows)
    ensures Ascending(s, Ordered(s, rows, extra))
    ensures multiset(Ordered(s, rows, extra)) == multiset(Matching(rows, extra))
    ensures |Ordered(s, rows, extra)| == |Matching(rows, extra)|
  {
    var x := Matching(rows, extra);
    var m := Ordered(s, rows, extra);
    assert multiset(m) == multiset(x) && Sorted(m, KeyOrder(s)) by {
      SortRowsCorrect(x, KeyOrder(s));
    }
    assert KeysDistinct(m, s.key) by {
      FilterWellKeyed(s, rows, extra, true);
      PermutationKeysDistinct(x, m, s.key);
    }
    assert IntKeys(s, m) by {
      forall i | 0 <= i < |m| ensures Cell(m[i], s.key).Int? {
        assert m[i] in multiset(x);
        assert m[i] in rows;
        var p :| 0 <= p < |rows| && rows[p] == m[i];
      }
    }
    SortedDistinctAscending(s, m);
    assert |m| == |multiset(m)| == |multiset(x)| == |x|;
  }

  /** Sorted by key, with distinct integer keys: the keys strictly increase. */
  lemma SortedDistinctAscending(s: Schema, m: seq<Row>)
    requires IntKeys(s, m) && KeysDistinct(m, s.key) && Sorted(m, KeyOrder(s))
    ensures Ascending(s, m)
  {
    forall i, j | 0 <= i < j < |m|
      ensures Cell(m[i], s.key).Int? && Cell(m[j], s.key).Int? && Cell(m[i], s.key).i < Cell(m[j], s.key).i
    {
      KeyBeforeIsLess(s, m[j], m[i]);
    }
  }

  // ---- one page ----

  /** Keeping the rows a filter passes, when exactly the positions from `j` on pass, keeps the suffix. */
  lemma {:induction false} FilterSuffix(m: seq<Row>, conds: seq<Cond>, j: int)
    requires 0 <= j <= |m|
    requires forall t :: 0 <= t < |m| ==> (HoldsAll(conds, m[t]) <==> t >= j)
    ensures Matching(m, conds) == m[j..]
    decreases |m|
  {
    if |m| > 0 {
      assert m == [m[0]] + m[1..];
      if j == 0 {
        FilterSuffix(m[1..], conds, 0);
      } else {
        FilterSuffix(m[1..], conds, j - 1);
        assert m[j..] == m[1..][j - 1..];
      }
    }
  }

  /** A filter's result depends on the rows it is given, not their order. */
  lemma MatchingPermutation(x: seq<Row>, y: seq<Row>, conds: seq<Cond>)
    requires multiset(x) == multiset(y)
    ensures multiset(Matching(x, conds)) == multiset(Matching(y, conds))
  {
    forall r ensures multiset(Matching(x, conds))[r] == multiset(Matching(y, conds))[r] {
      FilterCount(x, conds, true, r);
      FilterCount(y, conds, true, r);
    }
  }

  /** Past an ascending sequence's `j - 1`-th key come exactly its rows from `j` on. */
  lemma PastCursor(s: Schema, m: seq<Row>, j: int)
    requires Ascending(s, m) && 0 < j <= |m|
    ensures Matching(m, [Gt(s.key, Val(Cell(m[j - 1], s.key)))]) == m[j..]
  {
    var bound := [Gt(s.key, Val(Cell(m[j - 1], s.key)))];
    forall t | 0 <= t < |m| ensures HoldsAll(bound, m[t]) <==> t >= j {
      assert HoldsAll(bound, m[t]) <==> Holds(bound[0], m[t]);
      if t == j - 1 {
        BeforeIrreflexive(Cell(m[t], s.key));
      }
    }
    FilterSuffix(m, bound, j);
  }

  /** An ascending run of rows is sorted by key and any two of its rows compare. */
  lemma AscendingSortedTotal(s: Schema, m: seq<Row>)
    requires Ascending(s, m)
    ensures Sorted(m, KeyOrder(s)) && Total(m, KeyOrder(s))
  {
    forall a, b | 0 <= a < b < |m| ensures !RowBefore(m[b], m[a], KeyOrder(s)) {
      KeyBeforeIsLess(s, m[b], m[a]);
    }
    forall a, b | 0 <= a < |m| && 0 <= b < |m| && m[a] != m[b]
      ensures RowBefore(m[a], m[b], KeyOrder(s)) || RowBefore(m[b], m[a], KeyOrder(s))
    {
      KeyBeforeIsLess(s, m[b], m[a]);
      KeyBeforeIsLess(s, m[a], m[b]);
    }
  }

  /** The rows the filter and a bound select hold the same rows as the bound applied to the walk order. */
  lemma BoundedSameRows(s: Schema, rows: seq<Row>, extra: seq<Cond>, bound: seq<Cond>)
    requires WellKeyed(s, rows) && IntKeys(s, rows)
    ensures multiset(Matching(rows, extra + bound)) == multiset(Matching(Ordered(s, rows, extra), bound))
  {
    OrderedAscending(s, rows, extra);
    MatchingConjunction(rows, extra, bound);
    MatchingPermutation(Matching(rows, extra), Ordered(s, rows, extra), bound);
  }

  /** The rows the filter and the cursor select, sorted by key, are the walk order from `j` on. */
  lemma SortedPastCursor(s: Schema, rows: seq<Row>, extra: seq<Cond>, j: int)
    requires WellKeyed(s, rows) && IntKeys(s, rows)
    requires 0 < j <= |Ordered(s, rows, extra)|
    ensures var m := Ordered(s, rows, extra);
      SortRows(Matching(rows, extra + [Gt(s.key, Val(Cell(m[j - 1], s.key)))]), KeyOrder(s)) == m[j..]
  {
    var m := Ordered(s, rows, extra);
    var bound := [Gt(s.key, Val(Cell(m[j - 1], s.key)))];
    var x := Matching(rows, extra + bound);
    var tail := m[j..];
    var sorted := SortRows(x, KeyOrder(s));
    assert Ascending(s, m) by {
      OrderedAscending(s, rows, extra);
    }
    assert multiset(sorted) == multiset(tail) && Sorted(sorted, KeyOrder(s)) by {
      BoundedSameRows(s, rows, extra, bound);
      PastCursor(s, m, j);
      SortRowsCorrect(x, KeyOrder(s));
    }
    assert Sorted(tail, KeyOrder(s)) && Total(tail, KeyOrder(s)) by {
      assert Ascending(s, tail);
      AscendingSortedTotal(s, tail);
    }
    SortedUnique(tail, sorted, KeyOrder(s));
  }

  /** The query behind the page at `j`: the filter's conjuncts, then the bound past the `j`-th row's key once there is one. */
  lemma QueryAt<Id>(mc: Controller<Id>, e: EntityShape, f: FilterView, s: Schema, m: seq<Row>, j: nat, extra: seq<Cond>)
    requires j <= |m| && e.cursorColumn == s.key && f.order == Asc
    requires forall q :: f.filterQuery(q) == q.(conds := q.conds + extra)
    ensures PageQuery(mc, e, CursorAt(f, s, m, j))
      == SelectStmt(Some(mc.table), e.selectCols, if j == 0 then extra else extra + [Gt(s.key, Val(Cell(m[j - 1], s.key)))],
                    KeyOrder(s), Some(f.pageLimit))
  {
    var g := CursorAt(f, s, m, j);
    var base := PageBase(mc, e, g);
    assert g.filterQuery(base) == base.(conds := base.conds + extra);
  }

  /** The rows the query at `j` returns: the next `pageLimit` rows of the walk order, projected. */
  lemma RowsAt<Id>(s: Schema, rows: seq<Row>, mc: Controller<Id>, e: EntityShape, f: FilterView, extra: seq<Cond>, j: nat)
    requires Setting(s, rows, mc, e, f, extra)
    requires j <= |Ordered(s, rows, extra)|
    ensures var m := Ordered(s, rows, extra);
      RunSelect(s, rows, PageQuery(mc, e, CursorAt(f, s, m, j))) == Ok(ProjectAll(Take(m[j..], Some(f.pageLimit)), e.selectCols))
  {
    var m := Ordered(s, rows, extra);
    QueryAt(mc, e, f, s, m, j, extra);
    if j == 0 {
      assert m[j..] == m;
    } else {
      var bound := Gt(s.key, Val(Cell(m[j - 1], s.key)));
      assert CondsKnown(s, extra + [bound]) && CondsEvaluable(extra + [bound]);
      SortedPastCursor(s, rows, extra, j);
    }
  }

  /** The page fetched with the cursor at `j`: the next `pageLimit` rows of the walk order. */
  lemma PageAt<Id>(s: Schema, rows: seq<Row>, mc: Controller<Id>, e: EntityShape, f: FilterView, extra: seq<Cond>, j: nat)
    requires Setting(s, rows, mc, e, f, extra)
    requires j <= |Ordered(s, rows, extra)|
    ensures var m := Ordered(s, rows, extra);
      PageResult(s, rows, mc, e, CursorAt(f, s, m, j), None)
        == Ok(PageOf(ProjectAll(m, e.selectCols), j, f.pageLimit, e.CursorValue))
  {
    var m := Ordered(s, rows, extra);
    RowsAt(s, rows, mc, e, f, extra, j);
    TakeProjected(m, j, f.pageLimit, e.selectCols);
  }

  /** The first `L` rows from `j`, projected, are the projected walk order from `j` to `Stop(|m|, j, L)`. */
  lemma TakeProjected(m: seq<Row>, j: nat, L: nat, cols: seq<Iden>)
    requires j <= |m|
    ensures ProjectAll(Take(m[j..], Some(L)), cols) == ProjectAll(m, cols)[j..Stop(|m|, j, L)]
  {
    var t := ProjectAll(Take(m[j..], Some(L)), cols);
    var u := ProjectAll(m, cols)[j..Stop(|m|, j, L)];
    assert |t| == |u|;
    forall i | 0 <= i < |t| ensures t[i] == u[i] {
      assert Take(m[j..], Some(L))[i] == m[j + i];
    }
  }

  // ---- the walk ----

  /** Cutting a row to the selected columns keeps its key when the key is selected. */
  lemma ProjectKeepsKey(s: Schema, r: Row, cols: seq<Iden>)
    requires s.key in cols && s.key in r
    ensures Cell(Project(r, cols), s.key) == Cell(r, s.key)
  {
  }

  /** A full page offers the key of its last row as the cursor, which moves the walk `pageLimit` rows on. */
  lemma FullPageMovesCursor(s: Schema, rows: seq<Row>, e: EntityShape, f: FilterView, extra: seq<Cond>, j: nat)
    requires WellKeyed(s, rows) && IntKeys(s, rows) && f.pageLimit >= 1
    requires e.cursorColumn == s.key && s.key in e.selectCols
    requires j + f.pageLimit <= |Ordered(s, rows, extra)|
    ensures var m := Ordered(s, rows, extra);
      var page := PageOf(ProjectAll(m, e.selectCols), j, f.pageLimit, e.CursorValue);
      && |page.entries| == f.pageLimit && page.HasNext()
      && CursorAt(f, s, m, j).(cursor := page.nextCursor) == CursorAt(f, s, m, j + f.pageLimit)
  {
    var m := Ordered(s, rows, extra);
    var L := f.pageLimit;
    var last := m[j + L - 1];
    assert s.key in last by {
      OrderedFromTable(s, rows, extra, j + L - 1);
    }
    ProjectKeepsKey(s, last, e.selectCols);
    assert ProjectAll(m, e.selectCols)[j + L - 1] == Project(last, e.selectCols);
  }

  /** Every row of the walk order is a row of the table, so it has the key column. */
  lemma OrderedFromTable(s: Schema, rows: seq<Row>, extra: seq<Cond>, k: nat)
    requires WellKeyed(s, rows) && k < |Ordered(s, rows, extra)|
    ensures Ordered(s, rows, extra)[k] in rows && s.key in Ordered(s, rows, extra)[k]
  {
    var m := Ordered(s, rows, extra);
    SortRowsCorrect(Matching(rows, extra), KeyOrder(s));
    assert m[k] in multiset(Matching(rows, extra));
    assert m[k] in rows;
  }

  /** Pages needed for `n` rows, `L` to a page, when a full page always asks for one more. */
  function PageCount(n: int, L: int): (k: nat)
    requires L >= 1
    ensures k >= 1
    decreases n
  {
    if n < L then 1 else 1 + PageCount(n - L, L)
  }

  /** The rows on the last of those pages. */
  function LastPageSize(n: int, L: int): int
    requires L >= 1
    decreases n
  {
    if n < L then n else LastPageSize(n - L, L)
  }

  /** The page count and the last page's size are the quotient and the remainder. */
  lemma {:induction false} PageCountDivides(n: nat, L: int)
    requires L >= 1
    ensures PageCount(n, L) == n / L + 1 && LastPageSize(n, L) == n % L
    decreases n
  {
    if n < L {
      DivUnique(n, L, 0, n);
    } else {
      PageCountDivides(n - L, L);
      var q, r := (n - L) / L, (n - L) % L;
      assert n == (q + 1) * L + r;
      DivUnique(n, L, q + 1, r);
    }
  }

  lemma DivUnique(x: int, L: int, q: int, r: int)
    requires L >= 1 && 0 <= r < L && x == q * L + r
    ensures x / L == q && x % L == r
  {
    var q', r' := x / L, x % L;
    if q' < q {
      Spread(q - q', L, q', q);
    } else if q' > q {
      Spread(q' - q, L, q, q');
    }
  }

  /** `b * L - a * L == (b - a) * L >= L` when `b - a == k >= 1`. */
  lemma Spread(k: int, L: int, a: int, b: int)
    requires k >= 1 && L >= 1 && b == a + k
    ensures b * L >= a * L + L
  {
    assert b * L == a * L + k * L;
    assert k * L == (k - 1) * L + L;
    assert (k - 1) * L >= 0;
  }

  /** Where the page that starts at `k` ends: `L` entries on, or the end of the `n` entries. */
  function Stop(n: nat, k: nat, L: nat): (hi: nat)
    requires k <= n
    ensures k <= hi <= n && (hi == k + L || hi == n)
    ensures hi - k == if n - k < L then n - k else L
  {
    if k + L <= n then k + L else n
  }

  /** The page fetched with the cursor at `k`: the next `L` entries of `xs`. */
  function PageOf<T>(xs: seq<T>, k: nat, L: nat, cursorValue: T -> Value): Pagination.Paginated<T, Value>
    requires k <= |xs|
  {
    Pagination.New(xs[k..Stop(|xs|, k, L)], L, cursorValue)
  }

  /** The pages a walk from position `k` fetches: pages of `L` until one comes short. */
  function PagesFrom<T>(xs: seq<T>, k: nat, L: nat, cursorValue: T -> Value): seq<Pagination.Paginated<T, Value>>
    requires L >= 1 && k <= |xs|
    decreases |xs| - k
  {
    var page := PageOf(xs, k, L, cursorValue);
    if |xs| - k >= L then [page] + PagesFrom(xs, k + L, L, cursorValue) else [page]
  }

  /**
   * The shape of a walk over `n` entries, `L` to a page: `PageCount(n, L)`
   * pages, all full but the last, which holds `LastPageSize(n, L)`
   * entries, and together the entries `all`.
   */
  ghost predicate Paged<T>(pages: seq<Pagination.Paginated<T, Value>>, n: int, L: int, all: seq<T>)
    requires L >= 1
  {
    && |pages| == PageCount(n, L)
    && (forall p :: 0 <= p < |pages| - 1 ==> |pages[p].entries| == L)
    && |pages[|pages| - 1].entries| == LastPageSize(n, L)
    && Flatten(pages) == all
  }

  /** Putting one more page in front of a walk. */
  lemma ConsPage<T>(page: Pagination.Paginated<T, Value>, rest: seq<Pagination.Paginated<T, Value>>, L: nat)
    requires |page.entries| == L && |rest| > 0
    requires forall p :: 0 <= p < |rest| - 1 ==> |rest[p].entries| == L
    ensures var pages := [page] + rest;
      && Flatten(pages) == page.entries + Flatten(rest)
      && (forall p :: 0 <= p < |pages| - 1 ==> |pages[p].entries| == L)
      && pages[|pages| - 1] == rest[|rest| - 1]
  {
    var pages := [page] + rest;
    assert pages[1..] == rest;
    forall p | 0 <= p < |pages| - 1 ensures |pages[p].entries| == L {
      if p > 0 {
        assert pages[p] == rest[p - 1];
      }
    }
  }

  /**
   * From `k`, the pages number `(n - k) / L + 1`: full ones, then one
   * holding the `(n - k) % L` entries left (empty when the entries left are
   * a multiple of the limit), and together they hold `xs` from `k` on.
   */
  lemma {:induction false} PagesFromShape<T>(xs: seq<T>, k: nat, L: nat, cursorValue: T -> Value)
    requires L >= 1 && k <= |xs|
    ensures Paged(PagesFrom(xs, k, L, cursorValue), |xs| - k, L, xs[k..])
    decreases |xs| - k
  {
    var page := PageOf(xs, k, L, cursorValue);
    if |xs| - k >= L {
      var rest := PagesFrom(xs, k + L, L, cursorValue);
      PagesFromShape(xs, k + L, L, cursorValue);
      assert PagesFrom(xs, k, L, cursorValue) == [page] + rest;
      ConsPage(page, rest, L);
      assert |xs| - (k + L) == (|xs| - k) - L;
      assert xs[k..] == xs[k..k + L] + xs[k + L..];
    } else {
      assert PagesFrom(xs, k, L, cursorValue) == [page];
      assert Flatten([page]) == page.entries + Flatten([]);
    }
  }

  /**
   * When the filter at every position from `j` on fetches its page, and
   * every full page's cursor moves the filter a page on, a walk with
   * enough requests left fetches exactly the pages from `j`.
   */
  lemma {:induction false} WalkWithPagesFrom<T>(fetch: FilterView -> Result<Pagination.Paginated<T, Value>, Failure>,
                                                at: nat -> FilterView, xs: seq<T>, j: nat, L: nat,
                                                cursorValue: T -> Value, fuel: nat)
    requires L >= 1 && j <= |xs| && fuel + 1 >= PageCount(|xs| - j, L)
    requires forall k :: j <= k <= |xs| ==> fetch(at(k)) == Ok(PageOf(xs, k, L, cursorValue))
    requires forall k :: j <= k && k + L <= |xs| ==> at(k).(cursor := PageOf(xs, k, L, cursorValue).nextCursor) == at(k + L)
    ensures WalkWith(fetch, at(j), fuel) == PagesFrom(xs, j, L, cursorValue)
    decreases |xs| - j
  {
    var page := PageOf(xs, j, L, cursorValue);
    assert fetch(at(j)) == Ok(page);
    if |xs| - j >= L {
      assert PageCount(|xs| - j, L) == 1 + PageCount(|xs| - (j + L), L);
      assert page.HasNext() && at(j).(cursor := page.nextCursor) == at(j + L);
      assert WalkWith(fetch, at(j), fuel) == [page] + WalkWith(fetch, at(j + L), fuel - 1);
      WalkWithPagesFrom(fetch, at, xs, j + L, L, cursorValue, fuel - 1);
      assert PagesFrom(xs, j, L, cursorValue) == [page] + PagesFrom(xs, j + L, L, cursorValue);
    } else {
      assert !page.HasNext();
      assert WalkWith(fetch, at(j), fuel) == [page];
      assert PagesFrom(xs, j, L, cursorValue) == [page];
    }
  }

  /** The filter once the walk has passed `k` rows of `m` (no further than the end). */
  function At(f: FilterView, s: Schema, m: seq<Row>): nat -> FilterView {
    (k: nat) => if k <= |m| then CursorAt(f, s, m, k) else f
  }

  /** Every position of the walk order fetches its page. */
  lemma FetchesAt<Id>(s: Schema, rows: seq<Row>, mc: Controller<Id>, e: EntityShape, f: FilterView, extra: seq<Cond>)
    requires Setting(s, rows, mc, e, f, extra)
    ensures var m := Ordered(s, rows, extra);
      forall k :: 0 <= k <= |m| ==>
        PageResult(s, rows, mc, e, At(f, s, m)(k), None) == Ok(PageOf(ProjectAll(m, e.selectCols), k, f.pageLimit, e.CursorValue))
  {
    var m := Ordered(s, rows, extra);
    forall k | 0 <= k <= |m|
      ensures PageResult(s, rows, mc, e, At(f, s, m)(k), None) == Ok(PageOf(ProjectAll(m, e.selectCols), k, f.pageLimit, e.CursorValue))
    {
      PageAt(s, rows, mc, e, f, extra, k);
    }
  }

  /** Every full page's cursor moves the filter a page on along the walk order. */
  lemma MovesAt(s: Schema, rows: seq<Row>, e: EntityShape, f: FilterView, extra: seq<Cond>)
    requires WellKeyed(s, rows) && IntKeys(s, rows) && f.pageLimit >= 1
    requires e.cursorColumn == s.key && s.key in e.selectCols
    ensures var m := Ordered(s, rows, extra);
      forall k :: 0 <= k && k + f.pageLimit <= |m| ==>
        At(f, s, m)(k).(cursor := PageOf(ProjectAll(m, e.selectCols), k, f.pageLimit, e.CursorValue).nextCursor)
          == At(f, s, m)(k + f.pageLimit)
  {
    var m := Ordered(s, rows, extra);
    forall k | 0 <= k && k + f.pageLimit <= |m|
      ensures At(f, s, m)(k).(cursor := PageOf(ProjectAll(m, e.selectCols), k, f.pageLimit, e.CursorValue).nextCursor)
        == At(f, s, m)(k + f.pageLimit)
    {
      FullPageMovesCursor(s, rows, e, f, extra, k);
    }
  }

  /** From the start, with enough requests left, the walk fetches exactly the pages of the projected walk order. */
  lemma WalkIsPagesFrom<Id>(s: Schema, rows: seq<Row>, mc: Controller<Id>, e: EntityShape, f: FilterView,
                            extra: seq<Cond>, fuel: nat)
    requires Setting(s, rows, mc, e, f, extra) && f.cursor.None?
    requires fuel >= |Ordered(s, rows, extra)| / f.pageLimit
    ensures var m := Ordered(s, rows, extra);
      Walk(s, rows, mc, e, f, fuel) == PagesFrom(ProjectAll(m, e.selectCols), 0, f.pageLimit, e.CursorValue)
  {
    var m := Ordered(s, rows, extra);
    PageCountDivides(|m|, f.pageLimit);
    FetchesAt(s, rows, mc, e, f, extra);
    MovesAt(s, rows, e, f, extra);
    assert At(f, s, m)(0) == f;
    WalkWithPagesFrom((g: FilterView) => PageResult(s, rows, mc, e, g, None), At(f, s, m), ProjectAll(m, e.selectCols),
                      0, f.pageLimit, e.CursorValue, fuel);
  }

  /** The pages from the start, over `n` entries: `n / L + 1` of them, full but the last, which holds `n % L`. */
  lemma PagesShape<T>(xs: seq<T>, n: nat, L: nat, cursorValue: T -> Value)
    requires L >= 1 && n == |xs|
    ensures var pages := PagesFrom(xs, 0, L, cursorValue);
      && |pages| == n / L + 1
      && (forall p :: 0 <= p < |pages| - 1 ==> |pages[p].entries| == L)
      && |pages[|pages| - 1].entries| == n % L
      && Flatten(pages) == xs
  {
    PagesFromShape(xs, 0, L, cursorValue);
    PageCountDivides(|xs|, L);
    assert xs[0..] == xs;
  }

  /**
   * The walk theorem: starting without a cursor and following `next_cursor`,
   * `list_paginated` returns every row the filter selects, exactly once and
   * in key order, in `N / L + 1` pages (N the rows selected, L the page
   * limit); every page but the last is full, and the last holds `N % L`
   * rows, so when N is a multiple of L the last request returns nothing.
   */
  lemma WalkReturnsEverything<Id>(s: Schema, rows: seq<Row>, mc: Controller<Id>, e: EntityShape, f: FilterView,
                                  extra: seq<Cond>, fuel: nat)
    requires Setting(s, rows, mc, e, f, extra) && f.cursor.None?
    requires fuel >= |Matching(rows, extra)| / f.pageLimit
    ensures var pages := Walk(s, rows, mc, e, f, fuel);
      var n := |Matching(rows, extra)|;
      && |pages| == n / f.pageLimit + 1
      && (forall p :: 0 <= p < |pages| - 1 ==> |pages[p].entries| == f.pageLimit)
      && |pages[|pages| - 1].entries| == n % f.pageLimit
      && Flatten(pages) == ProjectAll(Ordered(s, rows, extra), e.selectCols)
      && multiset(Ordered(s, rows, extra)) == multiset(Matching(rows, extra))
      && Ascending(s, Ordered(s, rows, extra))
  {
    var m := Ordered(s, rows, extra);
    OrderedAscending(s, rows, extra);
    WalkIsPagesFrom(s, rows, mc, e, f, extra, fuel);
    PagesShape(ProjectAll(m, e.selectCols), |Matching(rows, extra)|, f.pageLimit, e.CursorValue);
  }
}
