/**
  Keyset pagination over any strict total order: one page query, and walks by next_cursor over a
  table that may change arbitrarily between requests.
 */
module KeysetPaging {
  import opened Prelude

  ghost predicate Order<T(!new)>(lt: (T, T) -> bool) {
    && (forall a :: !lt(a, a))
    && (forall a, b, c :: lt(a, b) && lt(b, c) ==> lt(a, c))
    && (forall a, b :: lt(a, b) || a == b || lt(b, a))
  }

  predicate Above<T>(lt: (T, T) -> bool, cursor: Option<T>, k: T) { cursor.None? || lt(cursor.value, k) }

  /** A page's own next cursor lies below k. */
  predicate Beyond<T>(lt: (T, T) -> bool, page: Page<T>, k: T) { page.next.Some? && lt(page.next.value, k) }

  predicate Ascending<T>(lt: (T, T) -> bool, ks: seq<T>) { forall i, j :: 0 <= i < j < |ks| ==> lt(ks[i], ks[j]) }

  /**
    What ORDER BY ... LIMIT n returns from the matching rows: the n least above the cursor, in
    order. `matching` holds the keys of the rows that pass the filters.
   */
  ghost predicate QueryResult<T(!new)>(lt: (T, T) -> bool, matching: set<T>, cursor: Option<T>, n: nat, rows: seq<T>) {
    && |rows| <= n
    && Ascending(lt, rows)
    && (forall i :: 0 <= i < |rows| ==> rows[i] in matching && Above(lt, cursor, rows[i]))
    && (forall k :: k in matching && Above(lt, cursor, k) && k !in rows ==>
          |rows| == n && forall i :: 0 <= i < |rows| ==> lt(rows[i], k))
  }

  datatype Page<T> = Page(items: seq<T>, next: Option<T>)

  /** Keep `limit` of the limit+1 rows fetched; the last kept is the next cursor when one was dropped. */
  function Truncated<T>(rows: seq<T>, limit: nat): Page<T>
    requires limit > 0
  {
    if |rows| > limit then Page(rows[..limit], Some(rows[limit - 1])) else Page(rows, None)
  }

  /** The part of the handler after the query. */
  method BuildPage<T>(rows: seq<T>, limit: nat) returns (page: Page<T>)
    requires 0 < limit
    ensures page == Truncated(rows, limit)
  {
    var items := [];
    for i := 0 to |rows|
      invariant items == rows[..i]
    {
      items := items + [rows[i]];
    }
    var next := None;
    if |items| > limit {
      next := Some(items[limit - 1]);
      items := items[..limit];
    }
    page := Page(items, next);
  }

  ghost predicate Serves<T(!new)>(lt: (T, T) -> bool, matching: set<T>, cursor: Option<T>, limit: nat, page: Page<T>)
    requires limit > 0
  {
    exists rows :: QueryResult(lt, matching, cursor, limit + 1, rows) && page == Truncated(rows, limit)
  }

  /** A page lists exactly the matching rows above its cursor and up to its own next cursor, in order. */
  ghost predicate Covers<T(!new)>(lt: (T, T) -> bool, matching: set<T>, cursor: Option<T>, page: Page<T>) {
    && Ascending(lt, page.items)
    && (forall k :: k in page.items <==> k in matching && Above(lt, cursor, k) && !Beyond(lt, page, k))
    && (page.next.Some? ==> Above(lt, cursor, page.next.value))
  }

  lemma PageCovers<T(!new)>(lt: (T, T) -> bool, matching: set<T>, cursor: Option<T>, limit: nat, page: Page<T>)
    requires Order(lt) && limit > 0 && Serves(lt, matching, cursor, limit, page)
    ensures Covers(lt, matching, cursor, page)
  {
    var rows :| QueryResult(lt, matching, cursor, limit + 1, rows) && page == Truncated(rows, limit);
    if |rows| > limit {
      var last := rows[limit - 1];
      forall k | k in matching && Above(lt, cursor, k) && !lt(last, k) ensures k in rows[..limit] {
        var j :| 0 <= j < |rows| && rows[j] == k;
        assert j < limit;
        assert rows[..limit][j] == k;
      }
      forall k | k in rows[..limit] ensures !lt(last, k) {
        var j :| 0 <= j < limit && rows[j] == k;
        assert j == limit - 1 || lt(rows[j], last);
      }
    }
  }

  // ---------------------------------------------------------------- walks

  /** One request of a walk: the cursor it carried and the page it got. */
  datatype Visit<T> = Visit(cursor: Option<T>, page: Page<T>)

  /** Each request carries the previous page's next cursor; the first carries none. */
  ghost predicate Chained<T>(visits: seq<Visit<T>>) {
    && visits != [] && visits[0].cursor.None?
    && forall i, j :: 0 <= i < |visits| && 0 <= j < |visits| && j == i + 1 ==>
         visits[i].page.next.Some? && visits[j].cursor == visits[i].page.next
  }

  /** A walk: tables[i] is what matched when request i was served. */
  ghost predicate Walk<T(!new)>(lt: (T, T) -> bool, tables: seq<set<T>>, limit: nat, visits: seq<Visit<T>>) {
    && |tables| == |visits| && limit > 0 && Chained(visits)
    && forall i :: 0 <= i < |visits| ==> Serves(lt, tables[i], visits[i].cursor, limit, visits[i].page)
  }

  ghost predicate CoveredWalk<T(!new)>(lt: (T, T) -> bool, tables: seq<set<T>>, visits: seq<Visit<T>>) {
    && Order(lt) && |tables| == |visits| && Chained(visits)
    && forall i :: 0 <= i < |visits| ==> Covers(lt, tables[i], visits[i].cursor, visits[i].page)
  }

  lemma WalkIsCovered<T(!new)>(lt: (T, T) -> bool, tables: seq<set<T>>, limit: nat, visits: seq<Visit<T>>)
    requires Order(lt) && Walk(lt, tables, limit, visits)
    ensures CoveredWalk(lt, tables, visits)
  {
    forall i | 0 <= i < |visits| ensures Covers(lt, tables[i], visits[i].cursor, visits[i].page) {
      PageCovers(lt, tables[i], visits[i].cursor, limit, visits[i].page);
    }
  }

  predicate Completed<T>(visits: seq<Visit<T>>) { visits != [] && visits[|visits| - 1].page.next.None? }

  /** All items of pages m, m+1, ..., n-1. */
  function Listed<T>(visits: seq<Visit<T>>, m: nat, n: nat): seq<T>
    requires m <= n <= |visits|
    decreases n
  {
    if m == n then [] else Listed(visits, m, n - 1) + visits[n - 1].page.items
  }

  /** A row the cursor has passed stays passed. */
  lemma {:induction false} CursorNeverFalls<T(!new)>(lt: (T, T) -> bool, tables: seq<set<T>>, visits: seq<Visit<T>>,
                                                     m: nat, n: nat, k: T)
    requires CoveredWalk(lt, tables, visits) && m <= n < |visits| && Above(lt, visits[n].cursor, k)
    ensures Above(lt, visits[m].cursor, k)
    decreases n
  {
    if m < n {
      assert Covers(lt, tables[n - 1], visits[n - 1].cursor, visits[n - 1].page);
      CursorNeverFalls(lt, tables, visits, m, n - 1, k);
    }
  }

  /** Pages m..n-1 list only rows that matched at one of those requests, between the cursors at m and n. */
  lemma {:induction false} ListedSound<T(!new)>(lt: (T, T) -> bool, tables: seq<set<T>>, visits: seq<Visit<T>>,
                                                m: nat, n: nat, k: T)
    requires CoveredWalk(lt, tables, visits) && m <= n <= |visits| && k in Listed(visits, m, n)
    ensures n > 0 && !Beyond(lt, visits[n - 1].page, k) && Above(lt, visits[m].cursor, k)
    ensures exists i :: m <= i < n && k in tables[i]
    decreases n
  {
    var last := visits[n - 1];
    assert Covers(lt, tables[n - 1], last.cursor, last.page);
    if k in last.page.items {
      assert k in tables[n - 1];
      CursorNeverFalls(lt, tables, visits, m, n - 1, k);
    } else {
      ListedSound(lt, tables, visits, m, n - 1, k);
      assert visits[n - 1].cursor == visits[n - 2].page.next;
    }
  }

  /** A row present at requests m..n-1 is listed there exactly when the cursor went from below it to at least it. */
  lemma {:induction false} ListedComplete<T(!new)>(lt: (T, T) -> bool, tables: seq<set<T>>, visits: seq<Visit<T>>,
                                                   m: nat, n: nat, k: T)
    requires CoveredWalk(lt, tables, visits) && m < n <= |visits|
    requires forall i :: m <= i < n ==> k in tables[i]
    ensures k in Listed(visits, m, n) <==> (Above(lt, visits[m].cursor, k) && !Beyond(lt, visits[n - 1].page, k))
    decreases n
  {
    var last := visits[n - 1];
    assert Covers(lt, tables[n - 1], last.cursor, last.page);
    assert k in tables[n - 1];
    if k in Listed(visits, m, n) {
      ListedSound(lt, tables, visits, m, n, k);
    } else if m < n - 1 {
      ListedComplete(lt, tables, visits, m, n - 1, k);
      assert visits[n - 1].cursor == visits[n - 2].page.next;
    }
  }

  /** The concatenated pages are in strictly increasing order, so nothing is listed twice. */
  lemma {:induction false} ListedAscends<T(!new)>(lt: (T, T) -> bool, tables: seq<set<T>>, visits: seq<Visit<T>>, n: nat)
    requires CoveredWalk(lt, tables, visits) && n <= |visits|
    ensures Ascending(lt, Listed(visits, 0, n))
  {
    if n > 0 {
      ListedAscends(lt, tables, visits, n - 1);
      var before, last := Listed(visits, 0, n - 1), visits[n - 1];
      assert Covers(lt, tables[n - 1], last.cursor, last.page);
      forall i, j | 0 <= i < |before| && 0 <= j < |last.page.items| ensures lt(before[i], last.page.items[j]) {
        ListedSound(lt, tables, visits, 0, n - 1, before[i]);
        assert visits[n - 1].cursor == visits[n - 2].page.next;
        assert last.page.items[j] in last.page.items;
      }
    }
  }

  function Occurrences<T(==)>(ks: seq<T>, k: T): nat {
    if ks == [] then 0 else Occurrences(ks[..|ks| - 1], k) + if ks[|ks| - 1] == k then 1 else 0
  }

  lemma {:induction false} AscendingOnce<T(!new)>(lt: (T, T) -> bool, ks: seq<T>, k: T)
    requires Order(lt) && Ascending(lt, ks)
    ensures Occurrences(ks, k) == if k in ks then 1 else 0
  {
    if ks != [] {
      AscendingOnce(lt, ks[..|ks| - 1], k);
      assert forall i :: 0 <= i < |ks| - 1 ==> lt(ks[i], ks[|ks| - 1]);
    }
  }

  // ---------------------------------------------------------------- what a client of next_cursor gets

  /** Successive next_cursor values strictly increase, whatever happens to the table. */
  lemma CursorsIncrease<T(!new)>(lt: (T, T) -> bool, tables: seq<set<T>>, limit: nat, visits: seq<Visit<T>>, i: nat)
    requires Order(lt) && Walk(lt, tables, limit, visits) && i + 1 < |visits| && visits[i + 1].page.next.Some?
    ensures lt(visits[i].page.next.value, visits[i + 1].page.next.value)
  {
    PageCovers(lt, tables[i + 1], visits[i + 1].cursor, limit, visits[i + 1].page);
  }

  /**
    In a completed walk over a table that changes arbitrarily between requests, every row whose
    key and filter membership stay fixed appears exactly once.
   */
  lemma StableRowListedOnce<T(!new)>(lt: (T, T) -> bool, tables: seq<set<T>>, limit: nat, visits: seq<Visit<T>>, k: T)
    requires Order(lt) && Walk(lt, tables, limit, visits) && Completed(visits)
    requires forall i :: 0 <= i < |tables| ==> k in tables[i]
    ensures Occurrences(Listed(visits, 0, |visits|), k) == 1
  {
    WalkIsCovered(lt, tables, limit, visits);
    ListedComplete(lt, tables, visits, 0, |visits|, k);
    ListedAscends(lt, tables, visits, |visits|);
    AscendingOnce(lt, Listed(visits, 0, |visits|), k);
  }

  /** On a table that does not change, the pages concatenate to the matching rows in sorted order. */
  lemma StaticWalkIsListing<T(!new)>(lt: (T, T) -> bool, table: set<T>, tables: seq<set<T>>, limit: nat, visits: seq<Visit<T>>)
    requires Order(lt) && Walk(lt, tables, limit, visits) && Completed(visits)
    requires forall i :: 0 <= i < |tables| ==> tables[i] == table
    ensures Ascending(lt, Listed(visits, 0, |visits|))
    ensures forall k :: k in Listed(visits, 0, |visits|) <==> k in table
  {
    WalkIsCovered(lt, tables, limit, visits);
    ListedAscends(lt, tables, visits, |visits|);
    forall k ensures k in Listed(visits, 0, |visits|) <==> k in table {
      if k in table {
        ListedComplete(lt, tables, visits, 0, |visits|, k);
      } else if k in Listed(visits, 0, |visits|) {
        ListedSound(lt, tables, visits, 0, |visits|, k);
      }
    }
  }

  lemma {:induction false} ListedSplit<T>(visits: seq<Visit<T>>, m: nat, n: nat)
    requires m <= n <= |visits|
    ensures Listed(visits, 0, n) == Listed(visits, 0, m) + Listed(visits, m, n)
    decreases n
  {
    if m < n {
      ListedSplit(visits, m, n - 1);
    }
  }

  /**
    A row whose key drops from `before` to `after` between requests m-1 and m is listed exactly
    once, unless the cursor then stood between the two keys: in that case it is never listed.
   */
  lemma MovedRowListing<T(!new)>(lt: (T, T) -> bool, tables: seq<set<T>>, limit: nat, visits: seq<Visit<T>>,
                                 m: nat, before: T, after: T)
    requires Order(lt) && Walk(lt, tables, limit, visits) && Completed(visits) && 0 < m < |visits| && lt(after, before)
    requires forall i :: 0 <= i < m ==> before in tables[i] && after !in tables[i]
    requires forall i :: m <= i < |tables| ==> after in tables[i] && before !in tables[i]
    ensures visits[m].cursor.Some?
    ensures var c := visits[m].cursor.value;
      var all := Listed(visits, 0, |visits|);
      Occurrences(all, before) + Occurrences(all, after) == (if lt(c, before) && !lt(c, after) then 0 else 1)
  {
    var n := |visits|;
    WalkIsCovered(lt, tables, limit, visits);
    assert visits[m].cursor == visits[m - 1].page.next && visits[m - 1].page.next.Some?;
    ListedAscends(lt, tables, visits, n);
    AscendingOnce(lt, Listed(visits, 0, n), before);
    AscendingOnce(lt, Listed(visits, 0, n), after);
    ListedSplit(visits, m, n);
    ListedComplete(lt, tables, visits, 0, m, before);
    ListedComplete(lt, tables, visits, m, n, after);
    if after in Listed(visits, 0, m) {
      ListedSound(lt, tables, visits, 0, m, after);
    }
    if before in Listed(visits, m, n) {
      ListedSound(lt, tables, visits, m, n, before);
    }
  }
}
