/**
  The jit_penalized part of mv_provider_scores, which recomputes everything from the receipt log,
  against an online machine that remembers two timestamps and one expiry.
 */
module JitPenalty {
  import opened Prelude

  datatype Row = Row(provider: int, ts: int, jitFlag: bool, abandoned: bool)

  predicate Flagged(r: Row, p: int) { r.provider == p && r.jitFlag && !r.abandoned }

  // ---------------------------------------------------------------- the view

  /** The correlated COUNT(*) of the view. */
  function CountRows(log: seq<Row>, p: int, lo: int, hi: int): nat {
    if log == [] then 0 else
    var r := log[|log| - 1];
    CountRows(log[..|log| - 1], p, lo, hi) + if Flagged(r, p) && lo <= r.ts <= hi then 1 else 0
  }

  predicate ViewPenalizes(log: seq<Row>, p: int, now: int, medium: int, long: int) {
    exists i :: 0 <= i < |log| && Flagged(log[i], p) && log[i].ts >= now - long
                && CountRows(log, p, log[i].ts - medium, log[i].ts) >= 3
  }

  // ---------------------------------------------------------------- the online machine

  datatype Machine = Machine(older: Option<int>, newer: Option<int>, until: Option<int>)

  function Observe(m: Machine, t: int, medium: int, long: int): Machine {
    Machine(m.newer, Some(t),
            if m.older.Some? && m.older.value >= t - medium then Some(t + long) else m.until)
  }

  function Feed(ts: seq<int>, medium: int, long: int): Machine {
    if ts == [] then Machine(None, None, None)
    else Observe(Feed(ts[..|ts| - 1], medium, long), ts[|ts| - 1], medium, long)
  }

  predicate MachinePenalizes(m: Machine, now: int) { m.until.Some? && now <= m.until.value }

  // ---------------------------------------------------------------- timestamps of one provider's flags

  function FlagTimes(log: seq<Row>, p: int): seq<int> {
    if log == [] then [] else
    var r := log[|log| - 1];
    if Flagged(r, p) then FlagTimes(log[..|log| - 1], p) + [r.ts] else FlagTimes(log[..|log| - 1], p)
  }

  function Count(ts: seq<int>, lo: int, hi: int): nat {
    if ts == [] then 0 else
    Count(ts[..|ts| - 1], lo, hi) + if lo <= ts[|ts| - 1] <= hi then 1 else 0
  }

  predicate Sorted(ts: seq<int>) { forall i, j :: 0 <= i <= j < |ts| ==> ts[i] <= ts[j] }

  /** A flag inside the last `long` whose preceding `medium` window holds three. */
  predicate Qualifies(ts: seq<int>, i: int, now: int, medium: int, long: int) {
    0 <= i < |ts| && ts[i] >= now - long && Count(ts, ts[i] - medium, ts[i]) >= 3
  }

  lemma {:induction false} TimesOfRows(log: seq<Row>, p: int, lo: int, hi: int)
    ensures CountRows(log, p, lo, hi) == Count(FlagTimes(log, p), lo, hi)
  {
    if log != [] {
      TimesOfRows(log[..|log| - 1], p, lo, hi);
      var r := log[|log| - 1];
      if Flagged(r, p) {
        assert FlagTimes(log, p)[..|FlagTimes(log, p)| - 1] == FlagTimes(log[..|log| - 1], p);
      }
    }
  }

  lemma {:induction false} TimesContain(log: seq<Row>, p: int, t: int)
    ensures t in FlagTimes(log, p) <==> exists i :: 0 <= i < |log| && Flagged(log[i], p) && log[i].ts == t
  {
    if log != [] {
      var n := |log| - 1;
      TimesContain(log[..n], p, t);
      assert forall i :: 0 <= i < n ==> log[..n][i] == log[i];
      if Flagged(log[n], p) && log[n].ts == t {
        assert t in FlagTimes(log, p);
      }
      if t in FlagTimes(log[..n], p) {
        var i :| 0 <= i < n && Flagged(log[..n][i], p) && log[..n][i].ts == t;
        assert log[i].ts == t;
      }
    }
  }

  // ---------------------------------------------------------------- counting

  lemma {:induction false} CountSplit(a: seq<int>, b: seq<int>, lo: int, hi: int)
    ensures Count(a + b, lo, hi) == Count(a, lo, hi) + Count(b, lo, hi)
  {
    if b == [] {
      assert a + b == a;
    } else {
      CountSplit(a, b[..|b| - 1], lo, hi);
      assert (a + b)[..|a + b| - 1] == a + b[..|b| - 1];
    }
  }

  lemma {:induction false} CountIsTally(ts: seq<int>, lo: int, hi: int, inside: int -> bool)
    requires forall t :: inside(t) <==> lo <= t <= hi
    ensures Count(ts, lo, hi) == Tally(ts, inside)
  {
    if ts != [] { CountIsTally(ts[..|ts| - 1], lo, hi, inside); }
  }

  lemma CountOfPermutation(a: seq<int>, b: seq<int>, lo: int, hi: int)
    requires multiset(a) == multiset(b)
    ensures Count(a, lo, hi) == Count(b, lo, hi)
  {
    var inside := t => lo <= t <= hi;
    CountIsTally(a, lo, hi, inside);
    CountIsTally(b, lo, hi, inside);
    TallyOfPermutation(a, b, inside);
  }

  /** A wider interval counts at least as much, when it keeps every element of the narrower one. */
  lemma {:induction false} CountWidens(ts: seq<int>, lo: int, hi: int, lo': int, hi': int)
    requires forall i :: 0 <= i < |ts| && lo <= ts[i] <= hi ==> lo' <= ts[i] <= hi'
    ensures Count(ts, lo, hi) <= Count(ts, lo', hi')
  {
    if ts != [] {
      CountWidens(ts[..|ts| - 1], lo, hi, lo', hi');
    }
  }

  /** The last element inside the interval. */
  lemma {:induction false} LastInside(ts: seq<int>, lo: int, hi: int) returns (c: nat)
    requires Count(ts, lo, hi) > 0
    ensures c < |ts| && lo <= ts[c] <= hi && Count(ts[..c], lo, hi) == Count(ts, lo, hi) - 1
    ensures forall k :: c < k < |ts| ==> !(lo <= ts[k] <= hi)
  {
    var n := |ts| - 1;
    if lo <= ts[n] <= hi {
      c := n;
    } else {
      c := LastInside(ts[..n], lo, hi);
      assert ts[..n][..c] == ts[..c];
    }
  }

  /** In timestamp order, a flag completes three within the window iff the one two places back is in it. */
  predicate Completes(ts: seq<int>, i: int, now: int, medium: int, long: int) {
    2 <= i < |ts| && ts[i] >= now - long && ts[i - 2] >= ts[i] - medium
  }

  lemma CompletesQualifies(ts: seq<int>, i: int, now: int, medium: int, long: int)
    requires Sorted(ts) && Completes(ts, i, now, medium, long)
    ensures Qualifies(ts, i, now, medium, long)
  {
    var lo, hi := ts[i] - medium, ts[i];
    assert ts[i - 2] <= ts[i - 1] <= ts[i];
    assert ts[..i + 1][..i] == ts[..i] && ts[..i][..i - 1] == ts[..i - 1] && ts[..i - 1][..i - 2] == ts[..i - 2];
    assert Count(ts[..i - 1], lo, hi) >= 1;
    assert Count(ts[..i], lo, hi) >= 2;
    assert Count(ts[..i + 1], lo, hi) >= 3;
    CountSplit(ts[..i + 1], ts[i + 1..], lo, hi);
    assert ts == ts[..i + 1] + ts[i + 1..];
  }

  lemma QualifiesCompletes(ts: seq<int>, i: int, now: int, medium: int, long: int) returns (c: nat)
    requires Sorted(ts) && Qualifies(ts, i, now, medium, long)
    ensures Completes(ts, c, now, medium, long)
  {
    var lo, hi := ts[i] - medium, ts[i];
    c := LastInside(ts, lo, hi);
    assert medium >= 0 && c >= i;
    var b := LastInside(ts[..c], lo, hi);
    assert ts[..c][..b] == ts[..b];
    var a := LastInside(ts[..b], lo, hi);
    assert ts[..b][a] == ts[a] && a <= c - 2;
    assert ts[a] <= ts[c - 2];
  }

  /** The machine's expiry: the latest completing flag, if any, plus `long`. */
  lemma {:induction false} FeedUntil(ts: seq<int>, now: int, medium: int, long: int)
    requires Sorted(ts)
    ensures var m := Feed(ts, medium, long);
      && (m.newer == if |ts| >= 1 then Some(ts[|ts| - 1]) else None)
      && (m.older == if |ts| >= 2 then Some(ts[|ts| - 2]) else None)
      && (m.until.Some? ==> |ts| > 0 && m.until.value <= ts[|ts| - 1] + long)
      && (MachinePenalizes(m, now) <==> exists i :: Completes(ts, i, now, medium, long))
  {
    if ts != [] {
      var n := |ts| - 1;
      var init := ts[..n];
      FeedUntil(init, now, medium, long);
      assert forall i :: Completes(init, i, now, medium, long) ==> Completes(ts, i, now, medium, long);
      assert forall i :: i < n && Completes(ts, i, now, medium, long) ==> Completes(init, i, now, medium, long);
      var before, m := Feed(init, medium, long), Feed(ts, medium, long);
      if 2 <= n && ts[n - 2] >= ts[n] - medium {
        assert m.until == Some(ts[n] + long);
        if MachinePenalizes(m, now) {
          assert Completes(ts, n, now, medium, long);
        }
        if i :| Completes(ts, i, now, medium, long) {
          assert ts[i] <= ts[n];
        }
      } else {
        assert m.until == before.until;
        assert forall i :: Completes(ts, i, now, medium, long) ==> i != n;
        if MachinePenalizes(m, now) {
          var i :| Completes(init, i, now, medium, long);
          assert Completes(ts, i, now, medium, long);
        }
      }
    }
  }

  // ---------------------------------------------------------------- the equivalences

  /** Some closed window of length `medium` holds three flags, and its last flag is within `long` of now. */
  ghost predicate SomeWindow(ts: seq<int>, now: int, medium: int, long: int) {
    exists w: int, k: int :: 0 <= k < |ts| && WindowEndsAt(ts, w, k, medium)
      && Count(ts, w, w + medium) >= 3 && ts[k] >= now - long
  }

  predicate WindowEndsAt(ts: seq<int>, w: int, k: int, medium: int)
    requires 0 <= k < |ts|
  {
    && w <= ts[k] <= w + medium
    && forall j :: 0 <= j < |ts| && w <= ts[j] <= w + medium ==> ts[j] <= ts[k]
  }

  lemma WindowForm(ts: seq<int>, now: int, medium: int, long: int)
    ensures SomeWindow(ts, now, medium, long) <==> exists i :: Qualifies(ts, i, now, medium, long)
  {
    if SomeWindow(ts, now, medium, long) {
      var w: int, k: int :| 0 <= k < |ts| && WindowEndsAt(ts, w, k, medium)
        && Count(ts, w, w + medium) >= 3 && ts[k] >= now - long;
      CountWidens(ts, w, w + medium, ts[k] - medium, ts[k]);
      assert Qualifies(ts, k, now, medium, long);
    }
    if i :| Qualifies(ts, i, now, medium, long) {
      var w := ts[i] - medium;
      assert w + medium == ts[i];
      var c := LastInside(ts, w, ts[i]);
      assert WindowEndsAt(ts, w, i, medium);
    }
  }

  lemma RowCountIsTimes(log: seq<Row>, p: int, lo: int, hi: int, ts: seq<int>)
    requires multiset(ts) == multiset(FlagTimes(log, p))
    ensures CountRows(log, p, lo, hi) == Count(ts, lo, hi)
  {
    TimesOfRows(log, p, lo, hi);
    CountOfPermutation(ts, FlagTimes(log, p), lo, hi);
  }

  lemma RowHasTime(log: seq<Row>, p: int, i: nat, ts: seq<int>) returns (k: nat)
    requires multiset(ts) == multiset(FlagTimes(log, p)) && i < |log| && Flagged(log[i], p)
    ensures k < |ts| && ts[k] == log[i].ts
  {
    TimesContain(log, p, log[i].ts);
    assert log[i].ts in multiset(ts);
    k :| 0 <= k < |ts| && ts[k] == log[i].ts;
  }

  lemma TimeHasRow(log: seq<Row>, p: int, k: nat, ts: seq<int>) returns (i: nat)
    requires multiset(ts) == multiset(FlagTimes(log, p)) && k < |ts|
    ensures i < |log| && Flagged(log[i], p) && log[i].ts == ts[k]
  {
    assert ts[k] in multiset(FlagTimes(log, p));
    TimesContain(log, p, ts[k]);
    i :| 0 <= i < |log| && Flagged(log[i], p) && log[i].ts == ts[k];
  }

  /** The view, restated on the sorted timestamps. */
  lemma ViewIsQualifies(log: seq<Row>, p: int, now: int, medium: int, long: int, ts: seq<int>)
    requires multiset(ts) == multiset(FlagTimes(log, p))
    ensures ViewPenalizes(log, p, now, medium, long) <==> exists k :: Qualifies(ts, k, now, medium, long)
  {
    if i :| 0 <= i < |log| && Flagged(log[i], p) && log[i].ts >= now - long
            && CountRows(log, p, log[i].ts - medium, log[i].ts) >= 3 {
      var k := RowHasTime(log, p, i, ts);
      RowCountIsTimes(log, p, ts[k] - medium, ts[k], ts);
      assert Qualifies(ts, k, now, medium, long);
    }
    if k :| Qualifies(ts, k, now, medium, long) {
      var i := TimeHasRow(log, p, k, ts);
      RowCountIsTimes(log, p, ts[k] - medium, ts[k], ts);
    }
  }

  lemma QualifiesIffCompletes(ts: seq<int>, now: int, medium: int, long: int)
    requires Sorted(ts)
    ensures (exists k :: Qualifies(ts, k, now, medium, long)) <==> exists c :: Completes(ts, c, now, medium, long)
  {
    if k :| Qualifies(ts, k, now, medium, long) {
      var c := QualifiesCompletes(ts, k, now, medium, long);
    }
    if c :| Completes(ts, c, now, medium, long) {
      CompletesQualifies(ts, c, now, medium, long);
    }
  }

  /**
    For every receipt log and every instant, the stateless view equals the online machine fed
    that provider's non-abandoned flags in timestamp order, and equals the windowed reading of
    the rule.
   */
  lemma ViewEqualsMachine(log: seq<Row>, p: int, now: int, medium: int, long: int, ts: seq<int>)
    requires Sorted(ts) && multiset(ts) == multiset(FlagTimes(log, p))
    ensures ViewPenalizes(log, p, now, medium, long) <==> MachinePenalizes(Feed(ts, medium, long), now)
    ensures ViewPenalizes(log, p, now, medium, long) <==> SomeWindow(ts, now, medium, long)
  {
    ViewIsQualifies(log, p, now, medium, long, ts);
    QualifiesIffCompletes(ts, now, medium, long);
    FeedUntil(ts, now, medium, long);
    WindowForm(ts, now, medium, long);
  }

  // ---------------------------------------------------------------- the view over the rows

  /** Position x holds a JIT flag of provider p that was not abandoned, inside [lo, hi]. */
  predicate FlagRow(log: seq<Row>, x: int, p: int, lo: int, hi: int) {
    0 <= x < |log| && log[x].provider == p && log[x].jitFlag && !log[x].abandoned && lo <= log[x].ts <= hi
  }

  /** Three rows, the last position counted from at c. */
  predicate ThreeFlags(log: seq<Row>, p: int, now: int, medium: int, long: int, a: int, b: int, c: int) {
    && a != b && a != c && b != c && 0 <= c < |log|
    && FlagRow(log, c, p, now - long, log[c].ts)
    && FlagRow(log, a, p, log[c].ts - medium, log[c].ts)
    && FlagRow(log, b, p, log[c].ts - medium, log[c].ts)
  }

  /** The last counted row. */
  lemma {:induction false} LastRow(log: seq<Row>, p: int, lo: int, hi: int) returns (x: nat)
    requires CountRows(log, p, lo, hi) > 0
    ensures FlagRow(log, x, p, lo, hi) && CountRows(log[..x], p, lo, hi) == CountRows(log, p, lo, hi) - 1
  {
    var n := |log| - 1;
    if FlagRow(log, n, p, lo, hi) {
      x := n;
    } else {
      x := LastRow(log[..n], p, lo, hi);
      assert log[..n][..x] == log[..x];
    }
  }

  /** Every flag row counts. */
  lemma {:induction false} RowCounts(log: seq<Row>, p: int, lo: int, hi: int, x: nat)
    requires FlagRow(log, x, p, lo, hi)
    ensures CountRows(log, p, lo, hi) > CountRows(log[..x], p, lo, hi)
  {
    var n := |log| - 1;
    if x < n {
      RowCounts(log[..n], p, lo, hi, x);
      assert log[..n][..x] == log[..x];
    }
  }

  lemma ThreeInOrderCount(log: seq<Row>, p: int, lo: int, hi: int, x: nat, y: nat, z: nat)
    requires x < y < z && FlagRow(log, x, p, lo, hi) && FlagRow(log, y, p, lo, hi) && FlagRow(log, z, p, lo, hi)
    ensures CountRows(log, p, lo, hi) >= 3
  {
    RowCounts(log, p, lo, hi, z);
    RowCounts(log[..z], p, lo, hi, y);
    RowCounts(log[..y], p, lo, hi, x);
    assert log[..z][..y] == log[..y] && log[..y][..x] == log[..x];
  }

  /** The three counted rows, in log order. */
  lemma ThreeCounted(log: seq<Row>, p: int, lo: int, hi: int) returns (x: nat, y: nat, z: nat)
    requires CountRows(log, p, lo, hi) >= 3
    ensures x < y < z && FlagRow(log, x, p, lo, hi) && FlagRow(log, y, p, lo, hi) && FlagRow(log, z, p, lo, hi)
  {
    z := LastRow(log, p, lo, hi);
    y := LastRow(log[..z], p, lo, hi);
    assert log[..z][..y] == log[..y];
    x := LastRow(log[..y], p, lo, hi);
  }

  /**
    The view in terms of the receipt columns alone: a provider is penalised exactly when three of its
    own flagged, not abandoned receipts fall in one window that ends at the last of them, and that one is
    recent.
   */
  lemma ViewMeansThreeFlags(log: seq<Row>, p: int, now: int, medium: int, long: int)
    ensures ViewPenalizes(log, p, now, medium, long) <==> exists a, b, c :: ThreeFlags(log, p, now, medium, long, a, b, c)
  {
    if ViewPenalizes(log, p, now, medium, long) {
      var c :| 0 <= c < |log| && Flagged(log[c], p) && log[c].ts >= now - long
               && CountRows(log, p, log[c].ts - medium, log[c].ts) >= 3;
      var x, y, z := ThreeCounted(log, p, log[c].ts - medium, log[c].ts);
      var a, b := if x == c then y else x, if z == c then y else z;
      assert FlagRow(log, c, p, now - long, log[c].ts);
      assert ThreeFlags(log, p, now, medium, long, a, b, c);
    }
    if a, b, c :| ThreeFlags(log, p, now, medium, long, a, b, c) {
      var lo, hi := log[c].ts - medium, log[c].ts;
      assert FlagRow(log, c, p, lo, hi);
      var x, z := Min(Min(a, b), c), Max(Max(a, b), c);
      var y := a + b + c - x - z;
      ThreeInOrderCount(log, p, lo, hi, x, y, z);
    }
  }

  // ---------------------------------------------------------------- the other reading of the comment

  /** A penalty that is not renewed while it is running. */
  function ObserveOnce(m: Machine, t: int, medium: int, long: int): Machine {
    Machine(m.newer, Some(t),
            if m.older.Some? && m.older.value >= t - medium && !MachinePenalizes(m, t) then Some(t + long) else m.until)
  }

  function FeedOnce(ts: seq<int>, medium: int, long: int): Machine {
    if ts == [] then Machine(None, None, None)
    else ObserveOnce(FeedOnce(ts[..|ts| - 1], medium, long), ts[|ts| - 1], medium, long)
  }

  /** Flag i is a third one: the flag two places back is still in its window. */
  predicate Third(ts: seq<int>, i: int, medium: int) { 2 <= i < |ts| && ts[i - 2] >= ts[i] - medium }

  /** The latest third flag among the first n; -1 if there is none. */
  function LatestThird(ts: seq<int>, medium: int, n: nat): (l: int)
    requires n <= |ts|
    ensures -1 <= l < n && (l >= 0 ==> Third(ts, l, medium))
    ensures forall i :: 0 <= i < n && Third(ts, i, medium) ==> i <= l
  {
    if n == 0 then -1 else if Third(ts, n - 1, medium) then n - 1 else LatestThird(ts, medium, n - 1)
  }

  lemma {:induction false} MachinesRemember(ts: seq<int>, medium: int, long: int, n: nat)
    requires n <= |ts|
    ensures
      var m, once, l := Feed(ts[..n], medium, long), FeedOnce(ts[..n], medium, long), LatestThird(ts, medium, n);
      && m.until == (if l >= 0 then Some(ts[l] + long) else None)
      && m.older == once.older == (if n >= 2 then Some(ts[n - 2]) else None)
      && m.newer == once.newer == (if n >= 1 then Some(ts[n - 1]) else None)
  {
    if n > 0 {
      MachinesRemember(ts, medium, long, n - 1);
      assert ts[..n][..n - 1] == ts[..n - 1];
    }
  }

  /** Two third flags that a running penalty cannot tell apart, or that no running penalty joins. */
  predicate Apart(ts: seq<int>, i: int, j: int, long: int)
    requires 0 <= i < |ts| && 0 <= j < |ts|
  {
    ts[i] == ts[j] || ts[j] - ts[i] > long
  }

  ghost predicate AllApart(ts: seq<int>, medium: int, long: int, n: nat)
    requires n <= |ts|
  {
    forall i, j :: 0 <= i < j < n && Third(ts, i, medium) && Third(ts, j, medium) ==> Apart(ts, i, j, long)
  }

  predicate SameExpiry(ts: seq<int>, medium: int, long: int, m: nat)
    requires m <= |ts|
  {
    Feed(ts[..m], medium, long).until == FeedOnce(ts[..m], medium, long).until
  }

  /** With the first m flags in, both rules say the same at instant `now`. */
  predicate SameVerdict(ts: seq<int>, medium: int, long: int, m: nat, now: int)
    requires m <= |ts|
  {
    MachinePenalizes(Feed(ts[..m], medium, long), now) <==> MachinePenalizes(FeedOnce(ts[..m], medium, long), now)
  }

  /** One more flag, the rules having agreed so far. */
  lemma RenewalStep(ts: seq<int>, medium: int, long: int, n: nat)
    requires Sorted(ts) && n < |ts| && SameExpiry(ts, medium, long, n)
    ensures
      var l := LatestThird(ts, medium, n);
      var joined := Third(ts, n, medium) && l >= 0 && !Apart(ts, l, n, long);
      && (SameExpiry(ts, medium, long, n + 1) <==> !joined)
      && (joined ==> ts[n] + long >= ts[n] && !SameVerdict(ts, medium, long, n + 1, ts[n] + long))
  {
    MachinesRemember(ts, medium, long, n);
    MachinesRemember(ts, medium, long, n + 1);
    assert ts[..n + 1][..n] == ts[..n];
    var l := LatestThird(ts, medium, n);
    if l >= 0 { assert ts[l] <= ts[n]; }
  }

  /** A new third flag is apart from all earlier ones when it is apart from the latest. */
  lemma ApartFromLatest(ts: seq<int>, medium: int, long: int, n: nat)
    requires Sorted(ts) && n < |ts| && AllApart(ts, medium, long, n)
    ensures
      var l := LatestThird(ts, medium, n);
      AllApart(ts, medium, long, n + 1) <==> !(Third(ts, n, medium) && l >= 0 && !Apart(ts, l, n, long))
  {
    var l := LatestThird(ts, medium, n);
    if !(Third(ts, n, medium) && l >= 0 && !Apart(ts, l, n, long)) {
      forall i, j | 0 <= i < j < n + 1 && Third(ts, i, medium) && Third(ts, j, medium) ensures Apart(ts, i, j, long) {
        if j == n {
          assert i <= l && ts[i] <= ts[l] <= ts[n];
          assert i < l ==> Apart(ts, i, l, long);
        }
      }
    }
  }

  lemma {:induction false} RenewalMattersUpTo(ts: seq<int>, medium: int, long: int, n: nat)
    requires Sorted(ts) && n <= |ts|
    ensures (forall m: nat :: m <= n ==> SameExpiry(ts, medium, long, m)) <==> AllApart(ts, medium, long, n)
    ensures (forall m: nat, now :: 0 < m <= n && now >= ts[m - 1] ==> SameVerdict(ts, medium, long, m, now))
       <==> AllApart(ts, medium, long, n)
  {
    if n == 0 {
      assert SameExpiry(ts, medium, long, 0);
    } else {
      RenewalMattersUpTo(ts, medium, long, n - 1);
      if AllApart(ts, medium, long, n - 1) {
        assert SameExpiry(ts, medium, long, n - 1);
        RenewalStep(ts, medium, long, n - 1);
        ApartFromLatest(ts, medium, long, n - 1);
        assert SameExpiry(ts, medium, long, n) ==> forall now :: SameVerdict(ts, medium, long, n, now);
      } else {
        assert !AllApart(ts, medium, long, n);
      }
    }
  }

  /**
    The view agrees with "the third flag starts one penalty, and nothing renews it" after every flag and
    at every instant from that flag on, if and only if any two third flags are simultaneous or more than
    a penalty's length apart.
   */
  lemma RenewalMattersIff(ts: seq<int>, medium: int, long: int)
    requires Sorted(ts)
    ensures (forall m: nat, now :: 0 < m <= |ts| && now >= ts[m - 1] ==> SameVerdict(ts, medium, long, m, now))
       <==> AllApart(ts, medium, long, |ts|)
    ensures (forall m: nat :: m <= |ts| ==> SameExpiry(ts, medium, long, m)) <==> AllApart(ts, medium, long, |ts|)
  {
    RenewalMattersUpTo(ts, medium, long, |ts|);
  }

  /** Four flags and an instant at which the two readings differ. */
  lemma WithoutRenewalDiffers()
    ensures Sorted([0, 0, 0, 6])
    ensures MachinePenalizes(Feed([0, 0, 0, 6], 7, 30), 36) && !MachinePenalizes(FeedOnce([0, 0, 0, 6], 7, 30), 36)
  {
    var ts := [0, 0, 0, 6];
    assert ts[..3] == [0, 0, 0] && ts[..3][..2] == [0, 0] && ts[..3][..2][..1] == [0] && ts[..3][..2][..1][..0] == [];
    assert Feed(ts[..3][..2][..1], 7, 30) == Machine(None, Some(0), None);
    assert Feed(ts[..3][..2], 7, 30) == Machine(Some(0), Some(0), None);
    assert Feed(ts[..3], 7, 30) == Machine(Some(0), Some(0), Some(30));
    assert FeedOnce(ts[..3][..2][..1], 7, 30) == Machine(None, Some(0), None);
    assert FeedOnce(ts[..3][..2], 7, 30) == Machine(Some(0), Some(0), None);
    assert FeedOnce(ts[..3], 7, 30) == Machine(Some(0), Some(0), Some(30));
  }
}
