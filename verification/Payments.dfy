/** The append-only escrow ledgers and the groupings the program reads off them. */
module Ledger {
  import opened Prelude

  datatype Kind = Deposit | Release | Seizure | Reversal

  datatype Entry = Entry(provider: int, kind: Kind, amount: int, key: int)

  type Entries = seq<Entry>

  /** The CHECK and the UNIQUE idempotency key; a refused insert changes nothing. */
  predicate Accepts(l: Entries, e: Entry) { e.amount > 0 && forall x <- l :: x.key != e.key }

  function Append(l: Entries, e: Entry): Entries { if Accepts(l, e) then l + [e] else l }

  function AppendAll(l: Entries, es: seq<Entry>): Entries {
    if es == [] then l else Append(AppendAll(l, es[..|es|-1]), es[|es|-1])
  }

  // ---------------------------------------------------------------- groupings

  predicate IsCredit(k: Kind) { k.Deposit? || k.Reversal? }

  /** SUM(amount_paise) over one provider's rows of one sign. */
  function SumFor(l: Entries, p: int, credit: bool): int {
    if l == [] then 0
    else SumFor(l[..|l|-1], p, credit)
         + if l[|l|-1].provider == p && IsCredit(l[|l|-1].kind) == credit then l[|l|-1].amount else 0
  }

  function SumKind(l: Entries, k: Kind): int {
    if l == [] then 0 else SumKind(l[..|l|-1], k) + if l[|l|-1].kind == k then l[|l|-1].amount else 0
  }

  /** mv_provider_escrow_balance. */
  function ViewBalance(l: Entries, p: int): int {
    SumFor(l, p, true) - SumFor(l, p, false)
  }

  /** held_paise of the admin summary. */
  function Held(l: Entries): int {
    SumKind(l, Deposit) + SumKind(l, Reversal) - SumKind(l, Release) - SumKind(l, Seizure)
  }

  function Signed(e: Entry): int { if IsCredit(e.kind) then e.amount else -e.amount }

  /** computeSealedBalance's single signed sum, floored at zero. */
  function SignedSum(l: Entries, p: int): int {
    if l == [] then 0 else SignedSum(l[..|l|-1], p) + if l[|l|-1].provider == p then Signed(l[|l|-1]) else 0
  }

  function Sealed(l: Entries, p: int): int { Max(SignedSum(l, p), 0) }

  /** The rows of the view, one per provider, summed. */
  function SumView(l: Entries, ps: seq<int>): int {
    if ps == [] then 0 else SumView(l, ps[..|ps|-1]) + ViewBalance(l, ps[|ps|-1])
  }

  ghost predicate Distinct(ps: seq<int>) { forall i, j :: 0 <= i < j < |ps| ==> ps[i] != ps[j] }

  ghost predicate Covers(ps: seq<int>, l: Entries) { forall i :: 0 <= i < |l| ==> l[i].provider in ps }

  // ---------------------------------------------------------------- one append

  lemma {:induction false} AppendMovesOne(l: Entries, e: Entry, p: int)
    ensures ViewBalance(Append(l, e), p)
         == ViewBalance(l, p) + if Accepts(l, e) && p == e.provider then Signed(e) else 0
    ensures Held(Append(l, e)) == Held(l) + if Accepts(l, e) then Signed(e) else 0
    ensures Signed(e) == (match e.kind case Deposit => 1 case Reversal => 1 case Release => -1 case Seizure => -1) * e.amount
  {
    assert (l + [e])[..|l|] == l;
  }

  /** A positive amount under a new key is appended; anything else changes nothing. */
  lemma AppendOutcome(l: Entries, e: Entry)
    ensures Append(l, e) == l + [e] || Append(l, e) == l
    ensures Append(l, e) == l + [e] <==> e.amount >= 1 && forall i :: 0 <= i < |l| ==> l[i].key != e.key
  {
    assert l + [e] != l;
    assert (forall x <- l :: x.key != e.key) <==> forall i :: 0 <= i < |l| ==> l[i].key != e.key;
  }

  /** Whatever was tried once can be tried again: a second pass over the same inserts changes nothing. */
  lemma {:induction false} ReplayIsHarmless(l: Entries, es: seq<Entry>)
    ensures AppendAll(AppendAll(l, es), es) == AppendAll(l, es)
  {
    ReplayPrefix(l, es, |es|);
    assert es[..|es|] == es;
  }

  lemma {:induction false} KeysStay(l: Entries, es: seq<Entry>, n: nat, e: Entry)
    requires n <= |es| && !Accepts(AppendAll(l, es[..n]), e)
    ensures !Accepts(AppendAll(l, es), e)
    decreases |es|
  {
    if n < |es| {
      var init := es[..|es|-1];
      assert init[..n] == es[..n];
      KeysStay(l, init, n, e);
      var a := AppendAll(l, init);
      assert forall x :: x in a ==> x in AppendAll(l, es);
    } else {
      assert es[..n] == es;
    }
  }

  lemma {:induction false} ReplayPrefix(l: Entries, es: seq<Entry>, n: nat)
    requires n <= |es|
    ensures AppendAll(AppendAll(l, es), es[..n]) == AppendAll(l, es)
  {
    if n > 0 {
      ReplayPrefix(l, es, n - 1);
      assert es[..n][..n-1] == es[..n-1];
      var before := AppendAll(l, es[..n-1]);
      var after := AppendAll(l, es[..n]);
      assert !Accepts(after, es[n-1]) by {
        if Accepts(before, es[n-1]) { assert after == before + [es[n-1]] && es[n-1] in after; }
      }
      KeysStay(l, es, n, es[n-1]);
    }
  }

  // ---------------------------------------------------------------- conservation

  lemma {:induction false} SumViewStep(l: Entries, ps: seq<int>)
    requires l != [] && Distinct(ps)
    ensures SumView(l, ps)
         == SumView(l[..|l|-1], ps) + if l[|l|-1].provider in ps then Signed(l[|l|-1]) else 0
  {
    if ps != [] {
      var init := ps[..|ps|-1];
      SumViewStep(l, init);
      assert ps == init + [ps[|ps|-1]];
    }
  }

  lemma {:induction false} EmptyView(ps: seq<int>)
    ensures SumView([], ps) == 0
    ensures forall p, credit :: SumFor([], p, credit) == 0
    ensures forall k :: SumKind([], k) == 0
  {
    if ps != [] { EmptyView(ps[..|ps|-1]); }
  }

  /** However the view's rows are listed, they add up to what the summary says is held. */
  lemma {:induction false} ViewSumsToHeld(l: Entries, ps: seq<int>)
    requires Distinct(ps) && Covers(ps, l)
    ensures SumView(l, ps) == Held(l)
  {
    if l == [] {
      EmptyView(ps);
    } else {
      ViewSumsToHeld(l[..|l|-1], ps);
      SumViewStep(l, ps);
    }
  }

  /** The departure path's own query agrees with the view, floor included. */
  lemma {:induction false} SealedIsFlooredView(l: Entries, p: int)
    ensures SignedSum(l, p) == ViewBalance(l, p)
    ensures Sealed(l, p) == Max(ViewBalance(l, p), 0)
  {
    if l != [] { SealedIsFlooredView(l[..|l|-1], p); }
  }

  /** Seizing the sealed balance empties the account exactly when it was not overdrawn. */
  lemma SeizureEmptiesIff(l: Entries, p: int, key: int)
    requires forall x <- l :: x.key != key
    ensures
      var after := if Sealed(l, p) > 0 then Append(l, Entry(p, Seizure, Sealed(l, p), key)) else l;
      && (ViewBalance(after, p) == 0 <==> ViewBalance(l, p) >= 0)
      && Held(after) == Held(l) - Sealed(l, p)
  {
    SealedIsFlooredView(l, p);
    AppendMovesOne(l, Entry(p, Seizure, Sealed(l, p), key), p);
  }

  // ---------------------------------------------------------------- owners

  datatype OwnerKind = OwnerDeposit | Charge | Withdrawal | Refund

  datatype OwnerEntry = OwnerEntry(owner: int, kind: OwnerKind, amount: int)

  predicate IsOwnerCredit(k: OwnerKind) { k.OwnerDeposit? || k.Refund? }

  function OwnerSum(l: seq<OwnerEntry>, o: int, credit: bool): int {
    if l == [] then 0
    else OwnerSum(l[..|l|-1], o, credit)
         + if l[|l|-1].owner == o && IsOwnerCredit(l[|l|-1].kind) == credit then l[|l|-1].amount else 0
  }

  function OwnerExact(l: seq<OwnerEntry>, o: int): int {
    OwnerSum(l, o, true) - OwnerSum(l, o, false)
  }

  /** One entry moves its owner alone: deposits and refunds up, charges and withdrawals down. */
  lemma OwnerEntryMoves(l: seq<OwnerEntry>, e: OwnerEntry, o: int)
    ensures
      var up := match e.kind case OwnerDeposit => 1 case Refund => 1 case Charge => -1 case Withdrawal => -1;
      OwnerExact(l + [e], o) == OwnerExact(l, o) + if o == e.owner then up * e.amount else 0
    ensures forall credit :: OwnerSum([], o, credit) == 0
    ensures SumOwners(p => OwnerExact(l, p), []) == 0
  {
    assert (l + [e])[..|l|] == l;
  }

  /** mv_owner_escrow_balance. */
  function OwnerView(l: seq<OwnerEntry>, o: int): int { Max(OwnerExact(l, o), 0) }

  function SumOwners(f: int -> int, os: seq<int>): int {
    if os == [] then 0 else SumOwners(f, os[..|os|-1]) + f(os[|os|-1])
  }

  /** The floor never understates, and the total is exact exactly when no owner is overdrawn. */
  lemma {:induction false} FlooredOwners(l: seq<OwnerEntry>, os: seq<int>)
    ensures SumOwners(o => OwnerView(l, o), os) >= SumOwners(o => OwnerExact(l, o), os)
    ensures SumOwners(o => OwnerView(l, o), os) == SumOwners(o => OwnerExact(l, o), os)
       <==> forall i :: 0 <= i < |os| ==> OwnerExact(l, os[i]) >= 0
  {
    if os != [] {
      var n := |os| - 1;
      FlooredOwners(l, os[..n]);
      assert forall i :: 0 <= i < n ==> os[..n][i] == os[i];
      assert OwnerView(l, os[n]) >= OwnerExact(l, os[n]);
    }
  }
}

/** Splitting a file's monthly cost over its shard holders, and charging it under retries. */
module Charges {
  import opened Prelude

  function Sum(s: seq<int>): int { if s == [] then 0 else Sum(s[..|s|-1]) + s[|s|-1] }

  // ---------------------------------------------------------------- largest remainder

  function Base(total: nat, count: nat, shards: nat): nat
    requires shards > 0
  {
    (total * count) / shards
  }

  function Frac(total: nat, count: nat, shards: nat): nat
    requires shards > 0
  {
    (total * count) % shards
  }

  function Bases(total: nat, counts: seq<nat>, shards: nat): (b: seq<int>)
    requires shards > 0
    ensures |b| == |counts| && forall i :: 0 <= i < |b| ==> b[i] == Base(total, counts[i], shards)
  {
    if counts == [] then [] else Bases(total, counts[..|counts|-1], shards) + [Base(total, counts[|counts|-1], shards)]
  }

  function Fracs(total: nat, counts: seq<nat>, shards: nat): (f: seq<int>)
    requires shards > 0
    ensures |f| == |counts| && forall i :: 0 <= i < |f| ==> f[i] == Frac(total, counts[i], shards) && 0 <= f[i] < shards
  {
    if counts == [] then [] else Fracs(total, counts[..|counts|-1], shards) + [Frac(total, counts[|counts|-1], shards)]
  }

  /** The stable descending sort: larger remainder first, then the smaller provider id. */
  predicate Ahead(f: seq<int>, i: int, j: int)
    requires 0 <= i < |f| && 0 <= j < |f|
  {
    f[i] > f[j] || (f[i] == f[j] && i < j)
  }

  /**
    A largest-remainder split: everyone gets the floor of the exact quota or one more, the total is
    met to the paisa, and no one is raised while someone ahead in remainder order is not.
   */
  ghost predicate Split(total: nat, counts: seq<nat>, shares: seq<int>)
    requires Sum(counts) > 0
  {
    var b, f := Bases(total, counts, Sum(counts)), Fracs(total, counts, Sum(counts));
    && |shares| == |counts|
    && (forall i :: 0 <= i < |shares| ==> b[i] <= shares[i] <= b[i] + 1)
    && Sum(shares) == total
    && (forall i :: 0 <= i < |shares| && shares[i] > b[i] ==> f[i] > 0)
    && (forall i, j :: 0 <= i < |shares| && 0 <= j < |shares| && shares[i] > b[i] && Ahead(f, j, i) ==> shares[j] > b[j])
  }

  lemma DivMod(x: nat, n: nat)
    requires n > 0
    ensures (x / n) * n + x % n == x
  {
  }

  lemma {:induction false} QuotasAddUp(total: nat, counts: seq<nat>, shards: nat)
    requires shards > 0
    ensures Sum(Bases(total, counts, shards)) * shards + Sum(Fracs(total, counts, shards)) == total * Sum(counts)
  {
    if counts != [] {
      var init, c := counts[..|counts|-1], counts[|counts|-1];
      QuotasAddUp(total, init, shards);
      DivMod(total * c, shards);
      var b, f := Bases(total, counts, shards), Fracs(total, counts, shards);
      assert b[..|b|-1] == Bases(total, init, shards) && f[..|f|-1] == Fracs(total, init, shards);
      AddQuota(Sum(Bases(total, init, shards)), Sum(Fracs(total, init, shards)), Sum(init),
               Base(total, c, shards), Frac(total, c, shards), c, total, shards);
    }
  }

  lemma AddQuota(x: int, f: int, n: int, y: int, g: int, c: int, total: int, shards: int)
    requires x * shards + f == total * n && y * shards + g == total * c
    ensures (x + y) * shards + (f + g) == total * (n + c)
  {
  }

  function NonZero(f: seq<int>): nat { if f == [] then 0 else NonZero(f[..|f|-1]) + if f[|f|-1] > 0 then 1 else 0 }

  lemma {:induction false} FracsBound(f: seq<int>, shards: nat)
    requires shards > 0 && forall i :: 0 <= i < |f| ==> 0 <= f[i] < shards
    ensures 0 <= Sum(f) <= NonZero(f) * (shards - 1) && NonZero(f) <= |f|
  {
    if f != [] {
      FracsBound(f[..|f|-1], shards);
      var n := NonZero(f[..|f|-1]);
      assert (n + 1) * (shards - 1) == n * (shards - 1) + (shards - 1);
    }
  }

  /** What is left over is less than one paisa for each holder with a fractional quota. */
  lemma LeftoverBound(total: nat, counts: seq<nat>)
    requires Sum(counts) > 0
    ensures
      var s := Sum(counts);
      var left := total - Sum(Bases(total, counts, s));
      && 0 <= left <= NonZero(Fracs(total, counts, s)) <= |counts|
  {
    var s := Sum(counts);
    var f := Fracs(total, counts, s);
    QuotasAddUp(total, counts, s);
    FracsBound(f, s);
    SmallQuotient(total, Sum(Bases(total, counts, s)), s, NonZero(f), Sum(f));
  }

  lemma SmallQuotient(total: int, base: int, s: int, n: int, sum: int)
    requires s > 0 && base * s + sum == total * s && 0 <= sum <= n * (s - 1) && n >= 0
    ensures 0 <= total - base <= n
  {
    assert (total - base) * s == sum;
    assert (n - (total - base)) * s == n * s - sum >= n;
    FactorSign(total - base, s);
    FactorSign(n - (total - base), s);
  }

  lemma FactorSign(x: int, s: int)
    requires s > 0
    ensures x * s >= 0 ==> x >= 0
  {
    assert x <= -1 ==> x * s <= -1 * s;
  }

  function Positives(f: seq<int>, r: seq<int>): nat
    requires forall k :: 0 <= k < |r| ==> 0 <= r[k] < |f|
  {
    if r == [] then 0 else Positives(f, r[..|r|-1]) + if f[r[|r|-1]] > 0 then 1 else 0
  }

  predicate Ranked(r: seq<int>, i: int) { exists l :: 0 <= l < |r| && r[l] == i }

  /** The first n positions, each once, in remainder order. */
  ghost predicate Ranking(f: seq<int>, r: seq<int>, n: nat) {
    && |r| == n <= |f|
    && (forall k :: 0 <= k < |r| ==> 0 <= r[k] < n)
    && (forall i :: 0 <= i < n ==> Ranked(r, i))
    && (forall k, l :: 0 <= k < l < |r| ==> Ahead(f, r[k], r[l]))
    && Positives(f, r) == NonZero(f[..n])
  }

  lemma {:induction false} PositivesInsert(f: seq<int>, r: seq<int>, k: nat, i: int)
    requires k <= |r| && 0 <= i < |f| && forall l :: 0 <= l < |r| ==> 0 <= r[l] < |f|
    ensures Positives(f, r[..k] + [i] + r[k..]) == Positives(f, r) + if f[i] > 0 then 1 else 0
  {
    var s := r[..k] + [i] + r[k..];
    if k == |r| {
      assert s[..|s|-1] == r;
    } else {
      var init := r[..|r|-1];
      PositivesInsert(f, init, k, i);
      assert s[..|s|-1] == init[..k] + [i] + init[k..];
    }
  }

  lemma InsertPresent(r: seq<int>, k: nat, n: nat)
    requires k <= |r| && forall i :: 0 <= i < n ==> Ranked(r, i)
    ensures forall i :: 0 <= i < n + 1 ==> Ranked(r[..k] + [n] + r[k..], i)
  {
    var s := r[..k] + [n] + r[k..];
    forall i | 0 <= i < n + 1 ensures Ranked(s, i) {
      if i < n {
        assert Ranked(r, i);
        var l :| 0 <= l < |r| && r[l] == i;
        assert s[if l < k then l else l + 1] == i;
      } else {
        assert s[k] == i;
      }
    }
  }

  lemma InsertOrdered(f: seq<int>, r: seq<int>, k: nat, n: nat)
    requires k <= |r| && n < |f| && forall l :: 0 <= l < |r| ==> 0 <= r[l] < |f|
    requires forall i, j :: 0 <= i < j < |r| ==> Ahead(f, r[i], r[j])
    requires forall l :: 0 <= l < k ==> Ahead(f, r[l], n)
    requires forall l :: k <= l < |r| ==> Ahead(f, n, r[l])
    ensures
      var s := r[..k] + [n] + r[k..];
      && (forall l :: 0 <= l < |s| ==> 0 <= s[l] < |f|)
      && forall i, j :: 0 <= i < j < |s| ==> Ahead(f, s[i], s[j])
  {
  }

  lemma InsertRank(f: seq<int>, r: seq<int>, n: nat, k: nat)
    requires Ranking(f, r, n) && n < |f| && k <= n
    requires forall l :: 0 <= l < k ==> Ahead(f, r[l], n)
    requires forall l :: k <= l < n ==> Ahead(f, n, r[l])
    ensures Ranking(f, r[..k] + [n] + r[k..], n + 1)
  {
    InsertPresent(r, k, n);
    InsertOrdered(f, r, k, n);
    PositivesInsert(f, r, k, n);
    assert f[..n+1][..n] == f[..n];
  }

  /** Where position n belongs among the ranked ones: behind every one that is not smaller. */
  method FindRank(f: seq<int>, r: seq<int>, n: nat) returns (k: nat)
    requires n < |f| && Ranking(f, r, n)
    ensures k <= n && (forall l :: 0 <= l < k ==> Ahead(f, r[l], n)) && (forall l :: k <= l < n ==> Ahead(f, n, r[l]))
  {
    k := n;
    while k > 0 && f[r[k-1]] < f[n]
      invariant 0 <= k <= n
      invariant forall l :: k <= l < n ==> Ahead(f, n, r[l])
    {
      k := k - 1;
    }
    forall l | 0 <= l < k ensures Ahead(f, r[l], n) {
      if l < k - 1 { assert Ahead(f, r[l], r[k-1]); }
    }
  }

  method RankByRemainder(f: seq<int>) returns (r: seq<int>)
    ensures Ranking(f, r, |f|)
  {
    r := [];
    for n := 0 to |f|
      invariant Ranking(f, r, n)
    {
      var k := FindRank(f, r, n);
      InsertRank(f, r, n, k);
      r := r[..k] + [n] + r[k..];
    }
  }

  lemma {:induction false} SumUpdate(s: seq<int>, i: nat, v: int)
    requires i < |s|
    ensures Sum(s[i := v]) == Sum(s) - s[i] + v
  {
    var n := |s| - 1;
    if i == n {
      assert s[i := v][..n] == s[..n];
    } else {
      SumUpdate(s[..n], i, v);
      assert s[i := v][..n] == s[..n][i := v];
    }
  }

  lemma {:induction false} PositivesStop(f: seq<int>, r: seq<int>, n: nat, k: nat, m: nat)
    requires Ranking(f, r, n) && k < n && m <= n && f[r[k]] <= 0
    ensures Positives(f, r[..m]) <= k
  {
    if m > 0 {
      PositivesStop(f, r, n, k, m - 1);
      assert r[..m][..m-1] == r[..m-1];
      if m - 1 < k {
        PositivesAtMost(f, r[..m]);
      } else if m - 1 > k {
        assert Ahead(f, r[k], r[m-1]);
      }
    }
  }

  lemma {:induction false} PositivesAtMost(f: seq<int>, r: seq<int>)
    requires forall k :: 0 <= k < |r| ==> 0 <= r[k] < |f|
    ensures Positives(f, r) <= |r|
  {
    if r != [] { PositivesAtMost(f, r[..|r|-1]); }
  }

  /** Holders with a fractional quota come first in the ranking. */
  lemma FirstRanksArePositive(f: seq<int>, r: seq<int>, k: nat)
    requires Ranking(f, r, |f|) && k < NonZero(f)
    ensures k < |f| && f[r[k]] > 0
  {
    assert f[..|f|] == f && r[..|r|] == r;
    PositivesAtMost(f, r);
    if f[r[k]] <= 0 { PositivesStop(f, r, |f|, k, |f|); }
  }

  /** splitByLargestRemainder, the holders listed by ascending provider id. */
  method SplitByLargestRemainder(total: nat, counts: seq<nat>) returns (shares: seq<int>)
    requires Sum(counts) > 0
    ensures Split(total, counts, shares)
  {
    var s := Sum(counts);
    var b, f := Bases(total, counts, s), Fracs(total, counts, s);
    LeftoverBound(total, counts);
    var left := total - Sum(b);
    var r := RankByRemainder(f);
    shares := Raise(b, f, r, left);
    RaisedAreFirst(f, b, r, left, shares);
  }

  /** One extra paisa for each of the first `left` ranks. */
  method Raise(b: seq<int>, f: seq<int>, r: seq<int>, left: nat) returns (shares: seq<int>)
    requires |b| == |f| && Ranking(f, r, |f|) && left <= |f|
    ensures |shares| == |b| && Sum(shares) == Sum(b) + left
    ensures forall i :: 0 <= i < |b| ==> shares[i] == b[i] + if Ranked(r[..left], i) then 1 else 0
  {
    shares := b;
    for k := 0 to left
      invariant |shares| == |b| && Sum(shares) == Sum(b) + k
      invariant forall i :: 0 <= i < |b| ==> shares[i] == b[i] + if Ranked(r[..k], i) then 1 else 0
    {
      RankedNext(f, r, k);
      SumUpdate(shares, r[k], shares[r[k]] + 1);
      shares := shares[r[k] := shares[r[k]] + 1];
    }
  }

  lemma RankedNext(f: seq<int>, r: seq<int>, k: nat)
    requires Ranking(f, r, |f|) && k < |f|
    ensures !Ranked(r[..k], r[k])
    ensures forall i :: Ranked(r[..k+1], i) <==> Ranked(r[..k], i) || i == r[k]
  {
    assert r[..k+1] == r[..k] + [r[k]];
    assert forall l :: 0 <= l < k ==> Ahead(f, r[l], r[k]) && r[..k][l] == r[l];
    forall i ensures Ranked(r[..k+1], i) <==> Ranked(r[..k], i) || i == r[k] {
      assert r[..k+1][k] == r[k];
      if Ranked(r[..k], i) {
        var l :| 0 <= l < k && r[..k][l] == i;
        assert r[..k+1][l] == i;
      }
    }
  }

  lemma RankOrder(f: seq<int>, r: seq<int>, k: nat, l: nat)
    requires Ranking(f, r, |f|) && k < |f| && l < |f|
    ensures Ahead(f, r[l], r[k]) ==> l < k
  {
    if l > k { assert Ahead(f, r[k], r[l]); }
  }

  lemma RaisedAreFirst(f: seq<int>, b: seq<int>, r: seq<int>, left: nat, shares: seq<int>)
    requires |b| == |f| == |shares| && Ranking(f, r, |f|) && left <= NonZero(f) && left <= |f|
    requires forall i :: 0 <= i < |b| ==> shares[i] == b[i] + if Ranked(r[..left], i) then 1 else 0
    ensures forall i :: 0 <= i < |b| && shares[i] > b[i] ==> f[i] > 0
    ensures forall i, j :: 0 <= i < |b| && 0 <= j < |b| && shares[i] > b[i] && Ahead(f, j, i) ==> shares[j] > b[j]
  {
    forall i | 0 <= i < |b| && shares[i] > b[i] ensures f[i] > 0 {
      var k :| 0 <= k < left && r[..left][k] == i;
      FirstRanksArePositive(f, r, k);
    }
    forall i, j | 0 <= i < |b| && 0 <= j < |b| && shares[i] > b[i] && Ahead(f, j, i) ensures shares[j] > b[j] {
      var k :| 0 <= k < left && r[..left][k] == i;
      assert Ranked(r, j);
      var l :| 0 <= l < |r| && r[l] == j;
      RankOrder(f, r, k, l);
      assert r[..left][l] == j;
    }
  }

  lemma {:induction false} SumBelow(s: seq<int>, t: seq<int>)
    requires |s| == |t| && forall i :: 0 <= i < |s| ==> s[i] <= t[i]
    ensures Sum(s) <= Sum(t)
    ensures Sum(s) == Sum(t) ==> s == t
  {
    if s != [] { SumBelow(s[..|s|-1], t[..|t|-1]); }
  }

  /** There is one such split: retries and replicas that see the same holders agree to the paisa. */
  lemma SplitIsUnique(total: nat, counts: seq<nat>, s: seq<int>, t: seq<int>)
    requires Sum(counts) > 0 && Split(total, counts, s) && Split(total, counts, t)
    ensures s == t
  {
    var b, f := Bases(total, counts, Sum(counts)), Fracs(total, counts, Sum(counts));
    if i :| 0 <= i < |s| && s[i] > t[i] {
      forall j | 0 <= j < |s| ensures t[j] <= s[j] {
        assert Ahead(f, i, j) || Ahead(f, j, i) || i == j;
      }
      SumBelow(t, s);
    } else {
      SumBelow(s, t);
    }
  }

  // ---------------------------------------------------------------- charging one file for one period

  /** The DEPOSIT rows of this file and period; the key is per provider. */
  datatype Credit = Credit(provider: int, amount: int)

  type Credits = seq<Credit>

  predicate Credited(cs: Credits, p: int) { exists c <- cs :: c.provider == p }

  function Total(cs: Credits): int { if cs == [] then 0 else Total(cs[..|cs|-1]) + cs[|cs|-1].amount }

  /** Who holds shards now, by ascending provider id. */
  datatype Holders = Holders(ids: seq<int>, counts: seq<nat>)

  ghost predicate ValidHolders(h: Holders) {
    |h.ids| == |h.counts| > 0 && Sum(h.counts) > 0 && forall i, j :: 0 <= i < j < |h.ids| ==> h.ids[i] != h.ids[j]
  }

  /** The distribution loop over the first n shares; `fails` are inserts refused for another reason. */
  function Distribute(cs: Credits, ids: seq<int>, shares: seq<int>, fails: set<int>, n: nat): Credits
    requires n <= |ids| == |shares|
  {
    if n == 0 then cs
    else
      var done := Distribute(cs, ids, shares, fails, n - 1);
      if shares[n-1] <= 0 || Credited(done, ids[n-1]) || ids[n-1] in fails then done
      else done + [Credit(ids[n-1], shares[n-1])]
  }

  /** Every new credit is positive and is some holder's share of this split; earlier ones stay. */
  lemma {:induction false} CreditsArePositive(cs: Credits, ids: seq<int>, shares: seq<int>, fails: set<int>, n: nat)
    requires n <= |ids| == |shares|
    ensures
      var after := Distribute(cs, ids, shares, fails, n);
      && cs <= after
      && forall k :: |cs| <= k < |after| ==>
           after[k].amount > 0 && after[k].provider !in fails && exists i :: 0 <= i < n && after[k] == Credit(ids[i], shares[i])
  {
    if n > 0 { CreditsArePositive(cs, ids, shares, fails, n - 1); }
  }

  /** What the split would give those already credited. */
  function AlreadyDue(cs: Credits, ids: seq<int>, shares: seq<int>, n: nat): int
    requires n <= |ids| == |shares|
  {
    if n == 0 then 0 else AlreadyDue(cs, ids, shares, n - 1) + if Credited(cs, ids[n-1]) then shares[n-1] else 0
  }

  lemma {:induction false} DistributeKeeps(cs: Credits, ids: seq<int>, shares: seq<int>, fails: set<int>, n: nat, p: int)
    requires n <= |ids| == |shares|
    requires forall i :: 0 <= i < n ==> ids[i] != p
    ensures Credited(Distribute(cs, ids, shares, fails, n), p) <==> Credited(cs, p)
  {
    if n > 0 { DistributeKeeps(cs, ids, shares, fails, n - 1, p); }
  }

  lemma {:induction false} DistributeTotal(cs: Credits, ids: seq<int>, shares: seq<int>, n: nat)
    requires n <= |ids| == |shares| && forall i, j :: 0 <= i < j < |ids| ==> ids[i] != ids[j]
    requires forall i :: 0 <= i < n ==> shares[i] >= 0
    ensures Total(Distribute(cs, ids, shares, {}, n)) == Total(cs) + Sum(shares[..n]) - AlreadyDue(cs, ids, shares, n)
  {
    if n > 0 {
      DistributeTotal(cs, ids, shares, n - 1);
      DistributeKeeps(cs, ids, shares, {}, n - 1, ids[n-1]);
      assert shares[..n][..n-1] == shares[..n-1];
    }
  }

  /**
    After an attempt in which no insert fails, providers have received exactly what the owner was
    charged, if and only if the earlier credits add up to what today's holders' split gives the same
    providers.
   */
  lemma ChargeConservedIff(cost: nat, cs: Credits, h: Holders, shares: seq<int>)
    requires ValidHolders(h) && Split(cost, h.counts, shares)
    ensures Total(Distribute(cs, h.ids, shares, {}, |h.ids|)) == cost
       <==> Total(cs) == AlreadyDue(cs, h.ids, shares, |h.ids|)
  {
    DistributeTotal(cs, h.ids, shares, |h.ids|);
    assert shares[..|h.ids|] == shares;
  }

  predicate IsShare(c: Credit, ids: seq<int>, shares: seq<int>)
    requires |ids| == |shares|
  {
    exists i :: 0 <= i < |ids| && c == Credit(ids[i], shares[i])
  }

  /** Rows credited so far are rows of this very split. */
  ghost predicate FromSplit(cs: Credits, ids: seq<int>, shares: seq<int>)
    requires |ids| == |shares|
  {
    && (forall k :: 0 <= k < |cs| ==> IsShare(cs[k], ids, shares))
    && (forall k, l :: 0 <= k < l < |cs| ==> cs[k].provider != cs[l].provider)
  }

  lemma {:induction false} DueAppend(cs: Credits, c: Credit, ids: seq<int>, shares: seq<int>, i: nat, n: nat)
    requires n <= |ids| == |shares| && i < |ids| && c == Credit(ids[i], shares[i]) && !Credited(cs, ids[i])
    requires forall k, l :: 0 <= k < l < |ids| ==> ids[k] != ids[l]
    ensures AlreadyDue(cs + [c], ids, shares, n) == AlreadyDue(cs, ids, shares, n) + if i < n then shares[i] else 0
  {
    if n > 0 {
      DueAppend(cs, c, ids, shares, i, n - 1);
      assert Credited(cs + [c], ids[n-1]) <==> Credited(cs, ids[n-1]) || c.provider == ids[n-1] by {
        assert forall x :: x in cs + [c] <==> x in cs || x == c;
        assert c in cs + [c];
      }
    }
  }

  lemma {:induction false} NothingDue(ids: seq<int>, shares: seq<int>, n: nat)
    requires n <= |ids| == |shares|
    ensures AlreadyDue([], ids, shares, n) == 0
  {
    if n > 0 { NothingDue(ids, shares, n - 1); }
  }

  /** Credits taken from one split are worth exactly what that split gives their providers. */
  lemma {:induction false} FromSplitIsDue(cs: Credits, ids: seq<int>, shares: seq<int>)
    requires |ids| == |shares| && FromSplit(cs, ids, shares)
    requires forall k, l :: 0 <= k < l < |ids| ==> ids[k] != ids[l]
    ensures Total(cs) == AlreadyDue(cs, ids, shares, |ids|)
  {
    if cs == [] {
      NothingDue(ids, shares, |ids|);
    } else {
      var n := |cs| - 1;
      var init := cs[..n];
      assert forall k :: 0 <= k < n ==> init[k] == cs[k];
      FromSplitIsDue(init, ids, shares);
      assert IsShare(cs[n], ids, shares);
      var i :| 0 <= i < |ids| && cs[n] == Credit(ids[i], shares[i]);
      assert !Credited(init, ids[i]) by {
        assert forall k :: 0 <= k < n ==> init[k].provider != cs[n].provider;
      }
      DueAppend(init, cs[n], ids, shares, i, |ids|);
      assert cs == init + [cs[n]];
    }
  }

  lemma {:induction false} DistributeFromSplit(cs: Credits, ids: seq<int>, shares: seq<int>, fails: set<int>, n: nat)
    requires n <= |ids| == |shares| && FromSplit(cs, ids, shares)
    ensures FromSplit(Distribute(cs, ids, shares, fails, n), ids, shares)
  {
    if n > 0 {
      DistributeFromSplit(cs, ids, shares, fails, n - 1);
      var done := Distribute(cs, ids, shares, fails, n - 1);
      var after := Distribute(cs, ids, shares, fails, n);
      if after != done {
        forall k | 0 <= k < |done| ensures done[k].provider != ids[n-1] { assert done[k] in done; }
        assert after[|done|] == Credit(ids[n-1], shares[n-1]);
      }
    }
  }

  function Attempts(cs: Credits, ids: seq<int>, shares: seq<int>, fails: seq<set<int>>): Credits
    requires |ids| == |shares|
  {
    if fails == [] then cs
    else Distribute(Attempts(cs, ids, shares, fails[..|fails|-1]), ids, shares, fails[|fails|-1], |ids|)
  }

  lemma {:induction false} AttemptsFromSplit(ids: seq<int>, shares: seq<int>, fails: seq<set<int>>)
    requires |ids| == |shares|
    ensures FromSplit(Attempts([], ids, shares, fails), ids, shares)
  {
    if fails != [] {
      AttemptsFromSplit(ids, shares, fails[..|fails|-1]);
      DistributeFromSplit(Attempts([], ids, shares, fails[..|fails|-1]), ids, shares, fails[|fails|-1], |ids|);
    }
  }

  /**
    While the holders stay the same, any number of partly failed attempts followed by one that does
    not fail credits exactly the cost.
   */
  lemma RetriesConserve(cost: nat, h: Holders, shares: seq<int>, fails: seq<set<int>>)
    requires ValidHolders(h) && Split(cost, h.counts, shares)
    ensures Total(Attempts([], h.ids, shares, fails + [{}])) == cost
  {
    var cs := Attempts([], h.ids, shares, fails);
    assert (fails + [{}])[..|fails|] == fails;
    AttemptsFromSplit(h.ids, shares, fails);
    FromSplitIsDue(cs, h.ids, shares);
    ChargeConservedIff(cost, cs, h, shares);
  }

  /** The shares really are the split of the cost among these holders. */
  ghost predicate Charged(cost: nat, h: Holders, shares: seq<int>) {
    ValidHolders(h) && Split(cost, h.counts, shares)
  }

  lemma TwoForOne(id: int)
    ensures Charged(2, Holders([id], [2]), [2])
  {
    assert [2][..0] == [];
  }

  lemma OneEach(a: int, b: int)
    requires a != b
    ensures Charged(2, Holders([a, b], [1, 1]), [1, 1])
  {
    assert [1][..0] == [] && [1, 1][..1] == [1];
    assert Sum([1]) == 1;
  }

  /** The second holder's credit failed, then its shard moved to the first: one paisa is never paid. */
  lemma MovedShardLosesAPaisa()
    ensures Charged(2, Holders([10, 20], [1, 1]), [1, 1]) && Charged(2, Holders([10], [2]), [2])
    ensures Total(Distribute(Distribute([], [10, 20], [1, 1], {20}, 2), [10], [2], {}, 1)) == 1
  {
    OneEach(10, 20);
    TwoForOne(10);
    var cs := [Credit(10, 1)];
    assert Distribute([], [10, 20], [1, 1], {20}, 1) == cs;
    assert cs[0] in cs && cs[..0] == [];
  }

  /** The only holder was credited in full, then handed a shard on: the new holder is paid on top. */
  lemma MovedShardPaysTwice()
    ensures Charged(2, Holders([10], [2]), [2]) && Charged(2, Holders([10, 20], [1, 1]), [1, 1])
    ensures Total(Distribute(Distribute([], [10], [2], {}, 1), [10, 20], [1, 1], {}, 2)) == 3
  {
    OneEach(10, 20);
    TwoForOne(10);
    var ds := [Credit(10, 2)];
    assert Distribute([], [10], [2], {}, 1) == ds && ds[0] in ds;
    assert Distribute(ds, [10, 20], [1, 1], {}, 1) == ds;
    assert (ds + [Credit(20, 1)])[..1] == ds && ds[..0] == [];
  }
}
