/**
 * Cursor pagination (bodega/src/pagination.rs): the page a list-paginated
 * call returns and the decision whether a next cursor exists.
 */
module Pagination {
  import opened Wrappers
  import Sql

  /**
   * A page of entries, the cursor to ask for the next page with, and the
   * limit the page was requested with. `C` is the entity's cursor type.
   */
  datatype Paginated<T, C> = Paginated(entries: seq<T>, nextCursor: Option<C>, limit: nat)
  {
    /** `has_next`: a next cursor is present. */
    predicate HasNext() {
      nextCursor.Some?
    }
  }

  /** `Default for Paginated`: no entries, no cursor, limit 10. */
  function Default<T, C>(): (p: Paginated<T, C>)
    ensures p.entries == [] && !p.HasNext() && p.limit == 10
  {
    Paginated([], None, 10)
  }

  /** `Vec::last`. */
  function Last<T>(s: seq<T>): Option<T> {
    if |s| == 0 then None else Some(s[|s| - 1])
  }

  /**
   * `Paginated::new`. A next cursor is offered as soon as the page is full,
   * taken from the last entry; a page whose length is an exact multiple of
   * the limit therefore still offers one, and the following page may be empty.
   */
  function New<T, C>(entries: seq<T>, limit: nat, cursorValue: T -> C): (p: Paginated<T, C>)
    ensures p.entries == entries && p.limit == limit
    ensures p.HasNext() <==> |entries| >= limit && |entries| > 0
    ensures p.HasNext() ==> p.nextCursor.value == cursorValue(entries[|entries| - 1])
  {
    var next :=
      if |entries| >= limit then
        match Last(entries)
        case Some(e) => Some(cursorValue(e))
        case None => None
      else None;
    Paginated(entries, next, limit)
  }

  /** `CursoredFilter::cursor_column_order`, as provided when a filter does not override it. */
  function DefaultCursorColumnOrder(): Sql.Order {
    Sql.Asc
  }

  /** A full page offers a cursor even when no further entry exists: the documented over-signal. */
  lemma ExactMultipleOverSignals<T, C>(entries: seq<T>, limit: nat, cursorValue: T -> C)
    requires limit > 0 && |entries| == limit
    ensures New(entries, limit, cursorValue).HasNext()
  {
  }

  /** With limit 0 an empty fetch offers no cursor, although it is "full". */
  lemma ZeroLimitEmptyPage<T, C>(cursorValue: T -> C)
    ensures !New([], 0, cursorValue).HasNext()
  {
  }

  /** The entries 1..n, as the tests build them; the cursor of an entry is the entry itself. */
  function Ids(n: nat): (s: seq<int>)
    ensures |s| == n && forall i :: 0 <= i < n ==> s[i] == i + 1
  {
    seq(n, i => i + 1)
  }

  /** The three tested cases of pagination.rs. */
  lemma TestedCases()
    ensures New(Ids(10), 10, (x: int) => x).nextCursor == Some(10)
    ensures New(Ids(10)[..2], 2, (x: int) => x).nextCursor == Some(2)
    ensures New(Ids(10), 11, (x: int) => x).nextCursor == None
  {
  }
}
