/**
 * Properties of the database model that the engine's guarantees rest on:
 * WHERE is a filter that splits the table, ORDER BY sorts and permutes, the
 * table invariant survives every successful write, and a lookup by primary
 * key finds at most one row.
 */
module PostgresLaws {
  import opened Wrappers
  import opened Sql
  import opened Postgres

  // ---- WHERE ----

  lemma {:induction false} FilterCount(rows: seq<Row>, conds: seq<Cond>, keep: bool, r: Row)
    ensures multiset(Filter(rows, conds, keep))[r] == if HoldsAll(conds, r) == keep then multiset(rows)[r] else 0
    decreases |rows|
  {
    if |rows| > 0 {
      FilterCount(rows[1..], conds, keep, r);
      assert rows == [rows[0]] + rows[1..];
    }
  }

  /** The rows a WHERE selects and the rows it leaves are, together, the whole table. */
  lemma FilterPartition(rows: seq<Row>, conds: seq<Cond>)
    ensures multiset(Matching(rows, conds)) + multiset(Filter(rows, conds, false)) == multiset(rows)
    ensures |Matching(rows, conds)| + |Filter(rows, conds, false)| == |rows|
  {
    forall r ensures (multiset(Matching(rows, conds)) + multiset(Filter(rows, conds, false)))[r] == multiset(rows)[r] {
      FilterCount(rows, conds, true, r);
      FilterCount(rows, conds, false, r);
    }
    assert multiset(Matching(rows, conds)) + multiset(Filter(rows, conds, false)) == multiset(rows);
    assert |multiset(Matching(rows, conds)) + multiset(Filter(rows, conds, false))| == |multiset(rows)|;
  }

  lemma FilterCons(x: Row, rest: seq<Row>, conds: seq<Cond>, keep: bool)
    ensures Filter([x] + rest, conds, keep) == (if HoldsAll(conds, x) == keep then [x] else []) + Filter(rest, conds, keep)
  {
    assert ([x] + rest)[0] == x && ([x] + rest)[1..] == rest;
  }

  lemma {:induction false} FilterAppend(a: seq<Row>, b: seq<Row>, conds: seq<Cond>, keep: bool)
    ensures Filter(a + b, conds, keep) == Filter(a, conds, keep) + Filter(b, conds, keep)
    decreases |a|
  {
    if |a| == 0 {
      assert a + b == b;
    } else {
      var h := if HoldsAll(conds, a[0]) == keep then [a[0]] else [];
      var rest := a[1..] + b;
      assert a + b == [a[0]] + rest by {
        assert a == [a[0]] + a[1..];
      }
      FilterCons(a[0], rest, conds, keep);
      FilterAppend(a[1..], b, conds, keep);
      assert Filter(a, conds, keep) == h + Filter(a[1..], conds, keep);
      SeqAssoc(h, Filter(a[1..], conds, keep), Filter(b, conds, keep));
    }
  }

  lemma SeqAssoc(x: seq<Row>, y: seq<Row>, z: seq<Row>)
    ensures x + (y + z) == (x + y) + z
  {
  }

  lemma HoldsAllAppend(c1: seq<Cond>, c2: seq<Cond>, r: Row)
    ensures HoldsAll(c1 + c2, r) <==> HoldsAll(c1, r) && HoldsAll(c2, r)
  {
    if HoldsAll(c1, r) && HoldsAll(c2, r) {
      forall i | 0 <= i < |c1 + c2| ensures Holds((c1 + c2)[i], r) {
        if i < |c1| { assert (c1 + c2)[i] == c1[i]; } else { assert (c1 + c2)[i] == c2[i - |c1|]; }
      }
    }
    if HoldsAll(c1 + c2, r) {
      forall i | 0 <= i < |c1| ensures Holds(c1[i], r) {
        assert (c1 + c2)[i] == c1[i];
      }
      forall i | 0 <= i < |c2| ensures Holds(c2[i], r) {
        assert (c1 + c2)[|c1| + i] == c2[i];
      }
    }
  }

  /** A conjunction of two lists of conditions filters like one list after the other. */
  lemma {:induction false} MatchingConjunction(rows: seq<Row>, c1: seq<Cond>, c2: seq<Cond>)
    ensures Matching(rows, c1 + c2) == Matching(Matching(rows, c1), c2)
    decreases |rows|
  {
    if |rows| > 0 {
      MatchingConjunction(rows[1..], c1, c2);
      var r := rows[0];
      HoldsAllAppend(c1, c2, r);
      var m1 := Matching(rows[1..], c1);
      if HoldsAll(c1, r) {
        assert Matching(rows, c1) == [r] + m1;
        FilterAppend([r], m1, c2, true);
        assert Matching([r], c2) == (if HoldsAll(c2, r) then [r] else []) + Matching([], c2);
      } else {
        assert Matching(rows, c1) == m1;
      }
    }
  }

  // ---- ORDER BY ----

  ghost predicate Sorted(s: seq<Row>, keys: seq<(Iden, Order)>) {
    forall i, j :: 0 <= i < j < |s| ==> !RowBefore(s[j], s[i], keys)
  }

  lemma NullsLastBeforeIrreflexive(x: Value)
    ensures !NullsLastBefore(x, x)
  {
    BeforeIrreflexive(x);
  }

  lemma NullsLastBeforeTransitive(x: Value, y: Value, z: Value)
    requires NullsLastBefore(x, y) && NullsLastBefore(y, z)
    ensures NullsLastBefore(x, z)
  {
    if Before(x, y) && Before(y, z) {
      BeforeTransitive(x, y, z);
    }
  }

  lemma {:induction false} RowBeforeIrreflexive(a: Row, keys: seq<(Iden, Order)>)
    ensures !RowBefore(a, a, keys)
    decreases |keys|
  {
    if |keys| > 0 {
      NullsLastBeforeIrreflexive(Cell(a, keys[0].0));
      RowBeforeIrreflexive(a, keys[1..]);
    }
  }

  lemma KeyBeforeTransitive(a: Row, b: Row, c: Row, k: (Iden, Order))
    requires KeyBefore(a, b, k) && KeyBefore(b, c, k)
    ensures KeyBefore(a, c, k)
  {
    if k.1 == Asc {
      NullsLastBeforeTransitive(Cell(a, k.0), Cell(b, k.0), Cell(c, k.0));
    } else {
      NullsLastBeforeTransitive(Cell(c, k.0), Cell(b, k.0), Cell(a, k.0));
    }
  }

  lemma {:induction false} RowBeforeTransitive(a: Row, b: Row, c: Row, keys: seq<(Iden, Order)>)
    requires RowBefore(a, b, keys) && RowBefore(b, c, keys)
    ensures RowBefore(a, c, keys)
    decreases |keys|
  {
    var k := keys[0];
    if KeyBefore(a, b, k) && KeyBefore(b, c, k) {
      KeyBeforeTransitive(a, b, c, k);
    } else if !KeyBefore(a, b, k) && !KeyBefore(b, c, k) {
      RowBeforeTransitive(a, b, c, keys[1..]);
    }
  }

  lemma {:induction false} InsertSortedPermutes(x: Row, s: seq<Row>, keys: seq<(Iden, Order)>)
    ensures multiset(InsertSorted(x, s, keys)) == multiset(s) + multiset{x}
    decreases |s|
  {
    if |s| > 0 && !RowBefore(x, s[0], keys) {
      InsertSortedPermutes(x, s[1..], keys);
      assert s == [s[0]] + s[1..];
    }
  }

  lemma ConsSorted(x: Row, t: seq<Row>, keys: seq<(Iden, Order)>)
    requires Sorted(t, keys)
    requires forall j :: 0 <= j < |t| ==> !RowBefore(t[j], x, keys)
    ensures Sorted([x] + t, keys)
  {
    var r := [x] + t;
    forall i, j | 0 <= i < j < |r| ensures !RowBefore(r[j], r[i], keys) {
      assert r[j] == t[j - 1];
      if i > 0 {
        assert r[i] == t[i - 1];
      }
    }
  }

  lemma {:induction false} InsertSortedCorrect(x: Row, s: seq<Row>, keys: seq<(Iden, Order)>)
    requires Sorted(s, keys)
    ensures Sorted(InsertSorted(x, s, keys), keys)
    ensures multiset(InsertSorted(x, s, keys)) == multiset(s) + multiset{x}
    decreases |s|
  {
    InsertSortedPermutes(x, s, keys);
    if |s| == 0 {
    } else if RowBefore(x, s[0], keys) {
      forall j | 0 <= j < |s| ensures !RowBefore(s[j], x, keys) {
        if RowBefore(s[j], x, keys) {
          RowBeforeTransitive(s[j], x, s[0], keys);
          RowBeforeIrreflexive(s[0], keys);
        }
      }
      ConsSorted(x, s, keys);
    } else {
      var t := InsertSorted(x, s[1..], keys);
      InsertSortedCorrect(x, s[1..], keys);
      forall j | 0 <= j < |t| ensures !RowBefore(t[j], s[0], keys) {
        assert t[j] in multiset(t);
        if t[j] != x {
          assert t[j] in multiset(s[1..]);
          var k :| 0 <= k < |s[1..]| && s[1..][k] == t[j];
          assert s[k + 1] == t[j];
        }
      }
      ConsSorted(s[0], t, keys);
    }
  }

  /** ORDER BY returns the same rows, sorted. */
  lemma {:induction false} SortRowsCorrect(s: seq<Row>, keys: seq<(Iden, Order)>)
    ensures Sorted(SortRows(s, keys), keys)
    ensures multiset(SortRows(s, keys)) == multiset(s)
    decreases |s|
  {
    if |s| > 0 {
      var init := s[..|s| - 1];
      SortRowsCorrect(init, keys);
      InsertSortedCorrect(s[|s| - 1], SortRows(init, keys), keys);
      assert s == init + [s[|s| - 1]];
    }
  }

  lemma {:induction false} InsertSortedNoKeys(x: Row, s: seq<Row>)
    ensures InsertSorted(x, s, []) == s + [x]
    decreases |s|
  {
    if |s| > 0 {
      InsertSortedNoKeys(x, s[1..]);
      assert s == [s[0]] + s[1..];
    }
  }

  /** Without ORDER BY keys, rows come back in table order. */
  lemma {:induction false} SortRowsNoKeys(s: seq<Row>)
    ensures SortRows(s, []) == s
    decreases |s|
  {
    if |s| > 0 {
      var init := s[..|s| - 1];
      SortRowsNoKeys(init);
      InsertSortedNoKeys(s[|s| - 1], init);
      assert s == init + [s[|s| - 1]];
    }
  }

  /** An empty WHERE selects every row. */
  lemma {:induction false} MatchingNoConds(rows: seq<Row>)
    ensures Matching(rows, []) == rows
    decreases |rows|
  {
    if |rows| > 0 {
      MatchingNoConds(rows[1..]);
      assert rows == [rows[0]] + rows[1..];
    }
  }

  /** Any two distinct rows are ordered one way or the other (e.g. the order includes a unique key). */
  ghost predicate Total(s: seq<Row>, keys: seq<(Iden, Order)>) {
    forall i, j :: 0 <= i < |s| && 0 <= j < |s| && s[i] != s[j] ==> RowBefore(s[i], s[j], keys) || RowBefore(s[j], s[i], keys)
  }

  lemma SortedHeadsAgree(s: seq<Row>, t: seq<Row>, keys: seq<(Iden, Order)>)
    requires Sorted(s, keys) && Sorted(t, keys) && multiset(s) == multiset(t) && Total(s, keys)
    requires |s| > 0 && |t| > 0
    ensures s[0] == t[0]
  {
    assert t[0] in multiset(s);
    var i :| 0 <= i < |s| && s[i] == t[0];
    assert s[0] in multiset(t);
    var j :| 0 <= j < |t| && t[j] == s[0];
  }

  lemma TailMultiset(s: seq<Row>)
    requires |s| > 0
    ensures multiset(s[1..]) == multiset(s) - multiset{s[0]}
  {
    assert s == [s[0]] + s[1..];
  }

  /** When the order leaves no ties, the sorted order of a set of rows is unique. */
  lemma {:induction false} SortedUnique(s: seq<Row>, t: seq<Row>, keys: seq<(Iden, Order)>)
    requires Sorted(s, keys) && Sorted(t, keys) && multiset(s) == multiset(t) && Total(s, keys)
    ensures s == t
    decreases |s|
  {
    assert |s| == |multiset(s)| == |multiset(t)| == |t|;
    if |s| > 0 {
      SortedHeadsAgree(s, t, keys);
      TailMultiset(s);
      TailMultiset(t);
      SortedUnique(s[1..], t[1..], keys);
      assert s == [s[0]] + s[1..];
      assert t == [t[0]] + t[1..];
    }
  }

  // ---- the table invariant ----

  lemma {:induction false} FilterWellKeyed(s: Schema, rows: seq<Row>, conds: seq<Cond>, keep: bool)
    requires WellKeyed(s, rows)
    ensures WellKeyed(s, Filter(rows, conds, keep))
    decreases |rows|
  {
    if |rows| > 0 {
      FilterWellKeyed(s, rows[1..], conds, keep);
      var tail := Filter(rows[1..], conds, keep);
      forall r | r in tail ensures Cell(r, s.key) != Cell(rows[0], s.key) {
        var k :| 0 <= k < |rows[1..]| && rows[1..][k] == r;
        assert rows[k + 1] == r;
      }
    }
  }

  lemma InsertPreserves(s: Schema, rows: seq<Row>, table: Iden, cols: seq<Iden>, vals: seq<SimpleExpr>, returning: seq<Iden>, defaults: Row)
    requires WellKeyed(s, rows)
    requires RunInsert(s, rows, table, cols, vals, returning, defaults).Ok?
    ensures WellKeyed(s, RunInsert(s, rows, table, cols, vals, returning, defaults).value.0)
  {
    var row := NewRow(s, Zip(cols, vals), defaults);
    assert row.Keys == s.columns;
  }

  lemma UpdatePreserves(s: Schema, rows: seq<Row>, table: Iden, pairs: seq<(Iden, SimpleExpr)>, conds: seq<Cond>, returning: seq<Iden>)
    requires WellKeyed(s, rows)
    requires RunUpdate(s, rows, table, pairs, conds, returning).Ok?
    ensures WellKeyed(s, RunUpdate(s, rows, table, pairs, conds, returning).value.0)
  {
    var after := UpdateRows(rows, pairs, conds);
    forall i | 0 <= i < |after| ensures after[i].Keys == s.columns {
      if HoldsAll(conds, rows[i]) {
        assert after[i] == Assign(rows[i], pairs);
      }
    }
  }

  lemma DeletePreserves(s: Schema, rows: seq<Row>, table: Iden, conds: seq<Cond>)
    requires WellKeyed(s, rows)
    requires RunDelete(s, rows, table, conds).Ok?
    ensures WellKeyed(s, RunDelete(s, rows, table, conds).value.0)
    ensures RunDelete(s, rows, table, conds).value.1 + |RunDelete(s, rows, table, conds).value.0| == |rows|
  {
    FilterWellKeyed(s, rows, conds, false);
    FilterPartition(rows, conds);
  }

  // ---- lookups by primary key ----

  function KeyIs(s: Schema, v: Value): seq<Cond> {
    [Eq(s.key, Val(v))]
  }

  /** A WHERE on the primary key selects exactly the rows holding that key: at most one. */
  lemma {:induction false} KeyLookup(s: Schema, rows: seq<Row>, v: Value)
    requires WellKeyed(s, rows)
    ensures |Matching(rows, KeyIs(s, v))| <= 1
    ensures |Matching(rows, KeyIs(s, v))| == 1 <==> v != Null && exists i :: 0 <= i < |rows| && rows[i][s.key] == v
    ensures forall r :: r in Matching(rows, KeyIs(s, v)) ==> r in rows && r[s.key] == v
    decreases |rows|
  {
    if |rows| > 0 {
      KeyLookup(s, rows[1..], v);
      if rows[0][s.key] == v && v != Null {
        assert HoldsAll(KeyIs(s, v), rows[0]);
      } else {
        assert !HoldsAll(KeyIs(s, v), rows[0]) by {
          assert !Holds(KeyIs(s, v)[0], rows[0]);
        }
        if v != Null && exists i :: 0 <= i < |rows| && rows[i][s.key] == v {
          var i :| 0 <= i < |rows| && rows[i][s.key] == v;
          assert rows[1..][i - 1][s.key] == v;
        }
      }
    }
  }

  /** The primary key `v` is held by some row. */
  predicate Present(rows: seq<Row>, key: Iden, v: Value) {
    exists i :: 0 <= i < |rows| && Cell(rows[i], key) == v
  }

  /** A filter that no row passes keeps nothing, and its complement keeps everything. */
  lemma {:induction false} FilterNone(rows: seq<Row>, conds: seq<Cond>)
    requires forall i :: 0 <= i < |rows| ==> !HoldsAll(conds, rows[i])
    ensures Matching(rows, conds) == []
    ensures Filter(rows, conds, false) == rows
    decreases |rows|
  {
    if |rows| > 0 {
      FilterNone(rows[1..], conds);
      assert rows == [rows[0]] + rows[1..];
    }
  }

  /** The row holding key `v`, found by index. */
  lemma KeyedRow(s: Schema, rows: seq<Row>, v: Value, i: int)
    requires WellKeyed(s, rows) && 0 <= i < |rows| && rows[i][s.key] == v
    ensures forall j :: 0 <= j < |rows| ==> (HoldsAll(KeyIs(s, v), rows[j]) <==> j == i)
  {
    forall j | 0 <= j < |rows| ensures HoldsAll(KeyIs(s, v), rows[j]) <==> j == i {
      assert HoldsAll(KeyIs(s, v), rows[j]) <==> Holds(KeyIs(s, v)[0], rows[j]);
    }
  }

  /** A lookup on a present key selects exactly the row holding it. */
  lemma KeyLookupFound(s: Schema, rows: seq<Row>, v: Value, i: int)
    requires WellKeyed(s, rows) && 0 <= i < |rows| && rows[i][s.key] == v
    ensures Matching(rows, KeyIs(s, v)) == [rows[i]]
  {
    KeyLookup(s, rows, v);
    var m := Matching(rows, KeyIs(s, v));
    assert |m| == 1;
    assert m[0] in m;
    var j :| 0 <= j < |rows| && rows[j] == m[0];
    assert rows[j][s.key] == v;
  }

  /** A lookup on an absent key selects nothing. */
  lemma KeyLookupAbsent(s: Schema, rows: seq<Row>, v: Value)
    requires WellKeyed(s, rows) && !Present(rows, s.key, v)
    ensures forall j :: 0 <= j < |rows| ==> !HoldsAll(KeyIs(s, v), rows[j])
    ensures Matching(rows, KeyIs(s, v)) == [] && Filter(rows, KeyIs(s, v), false) == rows
  {
    forall j | 0 <= j < |rows| ensures !HoldsAll(KeyIs(s, v), rows[j]) {
      assert Cell(rows[j], s.key) != v;
      assert !Holds(KeyIs(s, v)[0], rows[j]);
    }
    FilterNone(rows, KeyIs(s, v));
  }

  lemma UpdateRowsOne(rows: seq<Row>, pairs: seq<(Iden, SimpleExpr)>, conds: seq<Cond>, i: int)
    requires 0 <= i < |rows|
    requires forall j :: 0 <= j < |rows| ==> (HoldsAll(conds, rows[j]) <==> j == i)
    ensures UpdateRows(rows, pairs, conds) == rows[i := Assign(rows[i], pairs)]
  {
  }

  lemma UpdatedMatchesOne(rows: seq<Row>, pairs: seq<(Iden, SimpleExpr)>, conds: seq<Cond>, i: int)
    requires 0 <= i < |rows| && Matching(rows, conds) == [rows[i]]
    ensures UpdatedMatches(rows, pairs, conds) == [Assign(rows[i], pairs)]
  {
  }

  lemma KeyIsUsable(s: Schema, v: Value)
    requires s.key in s.columns
    ensures CondsKnown(s, KeyIs(s, v)) && CondsEvaluable(KeyIs(s, v))
  {
  }

  /** UPDATE on a present key changes that row alone and returns it alone. */
  lemma UpdateOnKey(s: Schema, rows: seq<Row>, pairs: seq<(Iden, SimpleExpr)>, returning: seq<Iden>, i: int)
    requires WellKeyed(s, rows) && 0 <= i < |rows|
    ensures var conds := KeyIs(s, rows[i][s.key]);
      && UpdateRows(rows, pairs, conds) == rows[i := Assign(rows[i], pairs)]
      && ProjectAll(UpdatedMatches(rows, pairs, conds), returning) == [Project(Assign(rows[i], pairs), returning)]
  {
    var v := rows[i][s.key];
    var conds := KeyIs(s, v);
    KeyedRow(s, rows, v, i);
    UpdateRowsOne(rows, pairs, conds, i);
    KeyLookupFound(s, rows, v, i);
    UpdatedMatchesOne(rows, pairs, conds, i);
  }

  /** A valid UPDATE either commits, returning the changed rows, or breaks a key constraint. */
  lemma UpdateVerdict(s: Schema, rows: seq<Row>, pairs: seq<(Iden, SimpleExpr)>, conds: seq<Cond>, returning: seq<Iden>)
    requires |pairs| > 0 && Known(s, Columns(pairs)) && Distinct(Columns(pairs)) && AllEvaluable(pairs) && Known(s, returning)
    requires CondsKnown(s, conds) && CondsEvaluable(conds)
    ensures var ru := RunUpdate(s, rows, s.table, pairs, conds, returning);
      ru == Ok((UpdateRows(rows, pairs, conds), ProjectAll(UpdatedMatches(rows, pairs, conds), returning)))
      || (ru.Err? && (ru.error.code == Some(NotNullViolation) || ru.error.code == Some(UniqueViolation)))
  {
  }

  /** UPDATE on a present key either changes that row alone and returns it alone, or breaks a key constraint. */
  lemma UpdateOnKeyVerdict(s: Schema, rows: seq<Row>, table: Iden, pairs: seq<(Iden, SimpleExpr)>, conds: seq<Cond>,
                           returning: seq<Iden>, i: int)
    requires WellKeyed(s, rows) && 0 <= i < |rows| && table == s.table && conds == KeyIs(s, rows[i][s.key])
    requires |pairs| > 0 && Known(s, Columns(pairs)) && Distinct(Columns(pairs)) && AllEvaluable(pairs) && Known(s, returning)
    ensures var ru := RunUpdate(s, rows, table, pairs, conds, returning);
      ru == Ok((rows[i := Assign(rows[i], pairs)], [Project(Assign(rows[i], pairs), returning)]))
      || (ru.Err? && (ru.error.code == Some(NotNullViolation) || ru.error.code == Some(UniqueViolation)))
  {
    KeyIsUsable(s, rows[i][s.key]);
    UpdateVerdict(s, rows, pairs, conds, returning);
    UpdateOnKey(s, rows, pairs, returning, i);
  }

  /** Row `r` may replace row `i`: its key is non-null and no other row holds it. */
  predicate KeyFreeFor(s: Schema, rows: seq<Row>, i: int, r: Row) {
    Cell(r, s.key) != Null && forall j :: 0 <= j < |rows| && j != i ==> Cell(rows[j], s.key) != Cell(r, s.key)
  }

  /** Replacing one row of a keyed table keeps the key constraints exactly when the new row's key is free. */
  lemma ReplaceKeepsKeys(s: Schema, rows: seq<Row>, i: int, r: Row)
    requires KeysNonNull(rows, s.key) && KeysDistinct(rows, s.key) && 0 <= i < |rows|
    ensures KeysNonNull(rows[i := r], s.key) && KeysDistinct(rows[i := r], s.key) <==> KeyFreeFor(s, rows, i, r)
  {
    var after := rows[i := r];
    if KeyFreeFor(s, rows, i, r) {
      forall p, q | 0 <= p < q < |after| ensures Cell(after[p], s.key) != Cell(after[q], s.key) {
        if p == i {
          assert after[q] == rows[q];
        } else if q == i {
          assert after[p] == rows[p];
        }
      }
    }
    if KeysNonNull(after, s.key) && KeysDistinct(after, s.key) {
      assert Cell(after[i], s.key) != Null;
      forall j | 0 <= j < |rows| && j != i ensures Cell(rows[j], s.key) != Cell(r, s.key) {
        assert after[j] == rows[j];
        if j < i {
          assert Cell(after[j], s.key) != Cell(after[i], s.key);
        } else {
          assert Cell(after[i], s.key) != Cell(after[j], s.key);
        }
      }
    }
  }

  /**
   * UPDATE on a present key commits exactly when the changed row's key is
   * non-null and held by no other row.
   */
  lemma UpdateOnKeyCommits(s: Schema, rows: seq<Row>, table: Iden, pairs: seq<(Iden, SimpleExpr)>, conds: seq<Cond>,
                           returning: seq<Iden>, i: int)
    requires WellKeyed(s, rows) && 0 <= i < |rows| && table == s.table && conds == KeyIs(s, rows[i][s.key])
    requires |pairs| > 0 && Known(s, Columns(pairs)) && Distinct(Columns(pairs)) && AllEvaluable(pairs) && Known(s, returning)
    ensures RunUpdate(s, rows, table, pairs, conds, returning).Ok? <==> KeyFreeFor(s, rows, i, Assign(rows[i], pairs))
  {
    UpdateOnKeyAccepts(s, rows, table, pairs, conds, returning, i);
    UpdateOnKeyKeysFree(s, rows, pairs, conds, returning, i);
  }

  /** UPDATE on a present key with a free new key changes that row alone and returns it alone. */
  lemma UpdateOnKeyCommitted(s: Schema, rows: seq<Row>, table: Iden, pairs: seq<(Iden, SimpleExpr)>, conds: seq<Cond>,
                             returning: seq<Iden>, i: int)
    requires WellKeyed(s, rows) && 0 <= i < |rows| && table == s.table && conds == KeyIs(s, rows[i][s.key])
    requires |pairs| > 0 && Known(s, Columns(pairs)) && Distinct(Columns(pairs)) && AllEvaluable(pairs) && Known(s, returning)
    requires KeyFreeFor(s, rows, i, Assign(rows[i], pairs))
    ensures RunUpdate(s, rows, table, pairs, conds, returning)
      == Ok((rows[i := Assign(rows[i], pairs)], [Project(Assign(rows[i], pairs), returning)]))
  {
    UpdateOnKeyCommits(s, rows, table, pairs, conds, returning, i);
    UpdateOnKeyVerdict(s, rows, table, pairs, conds, returning, i);
  }

  lemma UpdateOnKeyAccepts(s: Schema, rows: seq<Row>, table: Iden, pairs: seq<(Iden, SimpleExpr)>, conds: seq<Cond>,
                           returning: seq<Iden>, i: int)
    requires WellKeyed(s, rows) && 0 <= i < |rows| && table == s.table && conds == KeyIs(s, rows[i][s.key])
    requires |pairs| > 0 && Known(s, Columns(pairs)) && Distinct(Columns(pairs)) && AllEvaluable(pairs) && Known(s, returning)
    ensures RunUpdate(s, rows, table, pairs, conds, returning).Ok?
      <==> KeysNonNull(UpdateRows(rows, pairs, conds), s.key) && KeysDistinct(UpdateRows(rows, pairs, conds), s.key)
  {
    KeyIsUsable(s, rows[i][s.key]);
    UpdateAccepts(s, rows, pairs, conds, returning);
  }

  lemma UpdateOnKeyKeysFree(s: Schema, rows: seq<Row>, pairs: seq<(Iden, SimpleExpr)>, conds: seq<Cond>, returning: seq<Iden>, i: int)
    requires WellKeyed(s, rows) && 0 <= i < |rows| && conds == KeyIs(s, rows[i][s.key])
    ensures KeysNonNull(UpdateRows(rows, pairs, conds), s.key) && KeysDistinct(UpdateRows(rows, pairs, conds), s.key)
      <==> KeyFreeFor(s, rows, i, Assign(rows[i], pairs))
  {
    UpdateOnKey(s, rows, pairs, returning, i);
    ReplaceKeepsKeys(s, rows, i, Assign(rows[i], pairs));
  }

  /** A valid UPDATE commits exactly when the changed table still meets the key constraints. */
  lemma UpdateAccepts(s: Schema, rows: seq<Row>, pairs: seq<(Iden, SimpleExpr)>, conds: seq<Cond>, returning: seq<Iden>)
    requires |pairs| > 0 && Known(s, Columns(pairs)) && Distinct(Columns(pairs)) && AllEvaluable(pairs) && Known(s, returning)
    requires CondsKnown(s, conds) && CondsEvaluable(conds)
    ensures var after := UpdateRows(rows, pairs, conds);
      RunUpdate(s, rows, s.table, pairs, conds, returning).Ok? <==> KeysNonNull(after, s.key) && KeysDistinct(after, s.key)
    ensures RunUpdate(s, rows, s.table, pairs, conds, returning).Ok? ==>
      RunUpdate(s, rows, s.table, pairs, conds, returning)
        == Ok((UpdateRows(rows, pairs, conds), ProjectAll(UpdatedMatches(rows, pairs, conds), returning)))
  {
  }

  /** An UPDATE that leaves the key column alone always finds the row's own key free. */
  lemma KeyUntouchedIsFree(s: Schema, rows: seq<Row>, pairs: seq<(Iden, SimpleExpr)>, i: int)
    requires WellKeyed(s, rows) && 0 <= i < |rows| && s.key !in Columns(pairs)
    ensures KeyFreeFor(s, rows, i, Assign(rows[i], pairs))
  {
    var r := Assign(rows[i], pairs);
    assert s.key in rows[i];
    assert Cell(r, s.key) == Cell(rows[i], s.key);
    forall j | 0 <= j < |rows| && j != i ensures Cell(rows[j], s.key) != Cell(r, s.key) {
      if j < i {
        assert Cell(rows[j], s.key) != Cell(rows[i], s.key);
      } else {
        assert Cell(rows[i], s.key) != Cell(rows[j], s.key);
      }
    }
  }
}
