/**
  The console's "when can the first upload land?" estimate (forecastVetting). The sort the estimate
  relies on is not stable, so every statement is made over every arrangement such a sort may leave.
  Durations and instants are integers, fractions are exact reals.
 */
module Forecast {
  import opened Prelude

  datatype Status = Active | Vetting | Other

  datatype Provider = Provider(id: int, status: Status, passes: int)

  datatype Profile = Profile(required: int, minPasses: int, minDuration: int, auditPeriod: int)

  datatype Cand = Cand(progress: real, remain: int)

  datatype Estimate = Estimate(active: int, required: int, fraction: real, eta: int, estimated: bool)

  // ---------------------------------------------------------------- one provider

  /** part / whole; a whole that is not positive is no gate at all. */
  function Share(part: int, whole: int): real {
    if whole > 0 then part as real / whole as real else 1.0
  }

  function PassRemain(f: Profile, passes: int): int {
    if f.minPasses > 0 then Max(f.minPasses - passes, 0) * f.auditPeriod else 0
  }

  function DurShare(f: Profile, since: Option<int>, now: int): real {
    if since.Some? then Share(now - since.value, f.minDuration) else 1.0
  }

  function DurRemain(f: Profile, since: Option<int>, now: int): int {
    if since.Some? && f.minDuration > 0 then Max(f.minDuration - (now - since.value), 0) else 0
  }

  function MinReal(a: real, b: real): real { if b < a then b else a }

  function VettingCand(f: Profile, passes: int, since: Option<int>, now: int): Cand {
    Cand(MinReal(MinReal(Share(passes, f.minPasses), DurShare(f, since, now)), 1.0),
         Max(PassRemain(f, passes), DurRemain(f, since, now)))
  }

  function Lookup(since: map<int, int>, id: int): Option<int> {
    if id in since then Some(since[id]) else None
  }

  function CandOf(f: Profile, p: Provider, since: map<int, int>, now: int): seq<Cand> {
    match p.status
    case Active => [Cand(1.0, 0)]
    case Vetting => [VettingCand(f, p.passes, Lookup(since, p.id), now)]
    case Other => []
  }

  type Rater = Provider -> seq<Cand>

  function Rating(f: Profile, since: map<int, int>, now: int): Rater {
    p => CandOf(f, p, since, now)
  }

  function Rated(rate: Rater, ps: seq<Provider>): seq<Cand> {
    if ps == [] then [] else Rated(rate, ps[..|ps|-1]) + rate(ps[|ps|-1])
  }

  function Cands(f: Profile, ps: seq<Provider>, since: map<int, int>, now: int): seq<Cand> {
    Rated(Rating(f, since, now), ps)
  }

  function ActiveCount(ps: seq<Provider>): nat {
    if ps == [] then 0 else ActiveCount(ps[..|ps|-1]) + (if ps[|ps|-1].status == Active then 1 else 0)
  }

  // ---------------------------------------------------------------- the estimate

  ghost predicate Descending(s: seq<Cand>) {
    forall i, j :: 0 <= i < j < |s| ==> s[i].progress >= s[j].progress
  }

  /** What sort.Slice may leave: any permutation with no pair out of order. */
  ghost predicate Arrangement(cands: seq<Cand>, s: seq<Cand>) {
    multiset(s) == multiset(cands) && Descending(s)
  }

  function Pick(f: Profile, active: nat, s: seq<Cand>): Estimate {
    if active >= f.required then Estimate(active, f.required, 1.0, 0, false)
    else if |s| < f.required then Estimate(active, f.required, 0.0, 0, false)
    else Estimate(active, f.required, s[f.required-1].progress, s[f.required-1].remain, true)
  }

  lemma InsertKeepsOrder(s: seq<Cand>, k: nat, c: Cand)
    requires Descending(s) && k <= |s|
    requires forall j :: k <= j < |s| ==> s[j].progress < c.progress
    requires k > 0 ==> s[k-1].progress >= c.progress
    ensures Descending(s[..k] + [c] + s[k..])
  {
    var r := s[..k] + [c] + s[k..];
    forall i, j | 0 <= i < j < |r| ensures r[i].progress >= r[j].progress {
      if i < k && j == k { assert s[i].progress >= s[k-1].progress; }
    }
  }

  lemma InsertKeepsElements(s: seq<Cand>, k: nat, c: Cand)
    requires k <= |s|
    ensures multiset(s[..k] + [c] + s[k..]) == multiset(s + [c])
  {
    assert s == s[..k] + s[k..];
  }

  method SortByProgress(cands: seq<Cand>) returns (s: seq<Cand>)
    ensures Arrangement(cands, s)
  {
    s := [];
    for i := 0 to |cands|
      invariant Arrangement(cands[..i], s)
    {
      var k := |s|;
      while k > 0 && s[k-1].progress < cands[i].progress
        invariant 0 <= k <= |s|
        invariant forall j :: k <= j < |s| ==> s[j].progress < cands[i].progress
      {
        k := k - 1;
      }
      assert cands[..i+1] == cands[..i] + [cands[i]];
      InsertKeepsOrder(s, k, cands[i]);
      InsertKeepsElements(s, k, cands[i]);
      s := s[..k] + [cands[i]] + s[k..];
    }
    assert cands[..|cands|] == cands;
  }

  method ForecastVetting(f: Profile, providers: Option<seq<Provider>>, since: map<int, int>, now: int)
    returns (e: Estimate, ghost order: seq<Cand>)
    ensures providers.None? ==> e == Estimate(0, f.required, 0.0, 0, false)
    ensures providers.Some? ==>
      Arrangement(Cands(f, providers.value, since, now), order)
      && e == Pick(f, ActiveCount(providers.value), order)
  {
    order := [];
    e := Estimate(0, f.required, 0.0, 0, false);
    if providers.None? { return; }
    var cands, active := RateAll(Rating(f, since, now), providers.value);
    var s := SortByProgress(cands);
    order := s;
    SameLength(s, cands);
    e := e.(active := active);
    if active >= f.required { e := e.(fraction := 1.0); return; }
    if |cands| == 0 { return; }
    if |s| < f.required { return; }
    e := Estimate(active, f.required, s[f.required-1].progress, s[f.required-1].remain, true);
  }

  lemma SameLength(s: seq<Cand>, r: seq<Cand>)
    requires multiset(s) == multiset(r)
    ensures |s| == |r|
  {
    assert |multiset(s)| == |multiset(r)|;
  }

  /** The scan over the provider list. */
  method RateAll(rate: Rater, ps: seq<Provider>) returns (cands: seq<Cand>, active: nat)
    ensures cands == Rated(rate, ps) && active == ActiveCount(ps)
  {
    cands, active := [], 0;
    for i := 0 to |ps|
      invariant cands == Rated(rate, ps[..i]) && active == ActiveCount(ps[..i])
    {
      assert ps[..i+1][..i] == ps[..i];
      if ps[i].status == Active { active := active + 1; }
      cands := cands + rate(ps[i]);
    }
    assert ps[..|ps|] == ps;
  }

  // ---------------------------------------------------------------- order statistics by counting

  function AtLeast(s: seq<Cand>, t: real): nat {
    if s == [] then 0 else AtLeast(s[..|s|-1], t) + (if s[|s|-1].progress >= t then 1 else 0)
  }

  function Above(s: seq<Cand>, t: real): nat {
    if s == [] then 0 else Above(s[..|s|-1], t) + (if s[|s|-1].progress > t then 1 else 0)
  }

  function NoLonger(s: seq<Cand>, w: int): nat {
    if s == [] then 0 else NoLonger(s[..|s|-1], w) + (if s[|s|-1].remain <= w then 1 else 0)
  }

  function Shorter(s: seq<Cand>, w: int): nat {
    if s == [] then 0 else Shorter(s[..|s|-1], w) + (if s[|s|-1].remain < w then 1 else 0)
  }

  ghost predicate NthLargest(s: seq<Cand>, n: int, t: real) { Above(s, t) < n <= AtLeast(s, t) }

  ghost predicate NthShortest(s: seq<Cand>, n: int, w: int) { Shorter(s, w) < n <= NoLonger(s, w) }

  // ---------------------------------------------------------------- counts of permutations

  lemma {:induction false} ProgressTallies(s: seq<Cand>, t: real, atLeast: Cand -> bool, above: Cand -> bool)
    requires forall c :: (atLeast(c) <==> c.progress >= t) && (above(c) <==> c.progress > t)
    ensures AtLeast(s, t) == Tally(s, atLeast) && Above(s, t) == Tally(s, above)
  {
    if s != [] { ProgressTallies(s[..|s|-1], t, atLeast, above); }
  }

  lemma {:induction false} WaitTallies(s: seq<Cand>, w: int, noLonger: Cand -> bool, shorter: Cand -> bool)
    requires forall c :: (noLonger(c) <==> c.remain <= w) && (shorter(c) <==> c.remain < w)
    ensures NoLonger(s, w) == Tally(s, noLonger) && Shorter(s, w) == Tally(s, shorter)
  {
    if s != [] { WaitTallies(s[..|s|-1], w, noLonger, shorter); }
  }

  lemma ProgressOfPermutation(a: seq<Cand>, b: seq<Cand>, t: real)
    requires multiset(a) == multiset(b)
    ensures AtLeast(a, t) == AtLeast(b, t) && Above(a, t) == Above(b, t)
  {
    var atLeast := (c: Cand) => c.progress >= t;
    var above := (c: Cand) => c.progress > t;
    ProgressTallies(a, t, atLeast, above);
    ProgressTallies(b, t, atLeast, above);
    TallyOfPermutation(a, b, atLeast);
    TallyOfPermutation(a, b, above);
  }

  lemma WaitsOfPermutation(a: seq<Cand>, b: seq<Cand>, w: int)
    requires multiset(a) == multiset(b)
    ensures NoLonger(a, w) == NoLonger(b, w) && Shorter(a, w) == Shorter(b, w)
  {
    var noLonger := (c: Cand) => c.remain <= w;
    var shorter := (c: Cand) => c.remain < w;
    WaitTallies(a, w, noLonger, shorter);
    WaitTallies(b, w, noLonger, shorter);
    TallyOfPermutation(a, b, noLonger);
    TallyOfPermutation(a, b, shorter);
  }

  /** In a descending sequence the counts are positions. */
  lemma {:induction false} CountsInOrder(s: seq<Cand>, k: nat)
    requires Descending(s) && k < |s|
    ensures Above(s, s[k].progress) <= k < AtLeast(s, s[k].progress)
  {
    AboveBound(s, k, |s|);
    AtLeastBound(s, k, |s|);
    assert s[..|s|] == s;
  }

  lemma {:induction false} AboveBound(s: seq<Cand>, k: nat, m: nat)
    requires Descending(s) && k < |s| && m <= |s|
    ensures Above(s[..m], s[k].progress) <= Min(m, k)
  {
    if m > 0 {
      AboveBound(s, k, m - 1);
      assert s[..m][..m-1] == s[..m-1];
      assert m - 1 >= k ==> s[m-1].progress <= s[k].progress;
    }
  }

  lemma {:induction false} AtLeastBound(s: seq<Cand>, k: nat, m: nat)
    requires Descending(s) && k < |s| && m <= |s|
    ensures AtLeast(s[..m], s[k].progress) >= Min(m, k + 1)
  {
    if m > 0 {
      AtLeastBound(s, k, m - 1);
      assert s[..m][..m-1] == s[..m-1];
      assert m - 1 <= k ==> s[m-1].progress >= s[k].progress;
    }
  }

  lemma {:induction false} CountsNest(s: seq<Cand>, t: real, u: real, v: int, w: int)
    requires t < u && v < w
    ensures AtLeast(s, u) <= Above(s, t) && NoLonger(s, v) <= Shorter(s, w)
  {
    if s != [] { CountsNest(s[..|s|-1], t, u, v, w); }
  }

  lemma NthIsUnique(s: seq<Cand>, n: int, t: real, u: real, v: int, w: int)
    ensures NthLargest(s, n, t) && NthLargest(s, n, u) ==> t == u
    ensures NthShortest(s, n, v) && NthShortest(s, n, w) ==> v == w
  {
    if t != u { CountsNest(s, if t < u then t else u, if t < u then u else t, 0, 1); }
    if v != w { CountsNest(s, 0.0, 1.0, if v < w then v else w, if v < w then w else v); }
  }

  // ---------------------------------------------------------------- the fraction

  lemma {:induction false} RatedAtMostOne(rate: Rater, ps: seq<Provider>)
    requires forall p :: (forall c <- rate(p) :: c.progress <= 1.0) && (p.status == Active ==> |rate(p)| == 1)
    ensures forall c <- Rated(rate, ps) :: c.progress <= 1.0
    ensures ActiveCount(ps) <= |Rated(rate, ps)|
  {
    if ps != [] { RatedAtMostOne(rate, ps[..|ps|-1]); }
  }

  lemma CandsAtMostOne(f: Profile, ps: seq<Provider>, since: map<int, int>, now: int)
    ensures forall c <- Cands(f, ps, since, now) :: c.progress <= 1.0
    ensures ActiveCount(ps) <= |Cands(f, ps, since, now)|
  {
    RatedAtMostOne(Rating(f, since, now), ps);
  }

  lemma PickIsNthLargest(f: Profile, active: nat, cands: seq<Cand>, s: seq<Cand>)
    requires Arrangement(cands, s)
    requires active <= |cands| && forall c <- cands :: c.progress <= 1.0
    ensures
      var e := Pick(f, active, s);
      && e.fraction <= 1.0
      && (e.estimated <==> active < f.required <= |cands|)
      && (e.estimated ==> NthLargest(cands, f.required, e.fraction) && exists c <- cands :: c.progress == e.fraction)
      && (!e.estimated ==> e.eta == 0 && e.fraction == if active >= f.required then 1.0 else 0.0)
  {
    assert |multiset(s)| == |multiset(cands)|;
    if active < f.required <= |s| {
      var x := s[f.required-1];
      assert x in multiset(s);
      assert x in cands;
      CountsInOrder(s, f.required - 1);
      ProgressOfPermutation(s, cands, x.progress);
    }
  }

  /**
    Whatever order ties end up in, the fraction is the required-th largest candidate progress, never
    above one, and an estimate is offered exactly when the fleet is short of active providers but
    holds enough candidates.
   */
  lemma FractionIsNthLargest(f: Profile, ps: seq<Provider>, since: map<int, int>, now: int, s: seq<Cand>)
    requires Arrangement(Cands(f, ps, since, now), s)
    ensures
      var e := Pick(f, ActiveCount(ps), s);
      && e.fraction <= 1.0
      && (e.estimated <==> ActiveCount(ps) < f.required <= |Cands(f, ps, since, now)|)
      && (e.estimated ==> NthLargest(Cands(f, ps, since, now), f.required, e.fraction))
      && (!e.estimated ==> e.eta == 0 && e.fraction == if ActiveCount(ps) >= f.required then 1.0 else 0.0)
  {
    CandsAtMostOne(f, ps, since, now);
    PickIsNthLargest(f, ActiveCount(ps), Cands(f, ps, since, now), s);
  }

  lemma FractionIgnoresTies(
    f: Profile, ps: seq<Provider>, since: map<int, int>, now: int, s: seq<Cand>, r: seq<Cand>)
    requires Arrangement(Cands(f, ps, since, now), s) && Arrangement(Cands(f, ps, since, now), r)
    ensures Pick(f, ActiveCount(ps), s).fraction == Pick(f, ActiveCount(ps), r).fraction
    ensures Pick(f, ActiveCount(ps), s).estimated == Pick(f, ActiveCount(ps), r).estimated
  {
    FractionIsNthLargest(f, ps, since, now, s);
    FractionIsNthLargest(f, ps, since, now, r);
    NthIsUnique(Cands(f, ps, since, now), f.required,
                Pick(f, ActiveCount(ps), s).fraction, Pick(f, ActiveCount(ps), r).fraction, 0, 0);
  }

  // ---------------------------------------------------------------- monotonicity

  /** The same provider, later: no fewer passes while it vets, perhaps promoted, perhaps starting to vet. */
  predicate Improves(p: Provider, q: Provider) {
    && p.id == q.id
    && match p.status
       case Active => q.status == Active
       case Vetting => q.status == Active || (q.status == Vetting && p.passes <= q.passes)
       case Other => true
  }

  /** A clock is kept for as long as its provider vets; promotion deletes it and a new run starts one. */
  predicate SameRun(p: Provider, q: Provider, since: map<int, int>, since': map<int, int>) {
    p.status == Vetting && q.status == Vetting ==> Lookup(since, p.id) == Lookup(since', p.id)
  }

  lemma ShareMonotone(a: int, b: int, whole: int)
    requires a <= b
    ensures Share(a, whole) <= Share(b, whole)
    ensures a >= 0 ==> Share(a, whole) >= 0.0
  {
    if whole > 0 {
      var w := whole as real;
      assert Share(b, whole) - Share(a, whole) == (b - a) as real / w;
      assert (b - a) as real / w >= 0.0;
    }
  }

  lemma CandMonotone(f: Profile, p: Provider, q: Provider, since: map<int, int>, since': map<int, int>,
                     now: int, now': int, t: real)
    requires Improves(p, q) && now <= now' && SameRun(p, q, since, since')
    ensures AtLeast(CandOf(f, p, since, now), t) <= AtLeast(CandOf(f, q, since', now'), t)
    ensures |CandOf(f, p, since, now)| <= |CandOf(f, q, since', now')|
  {
    var a, b := CandOf(f, p, since, now), CandOf(f, q, since', now');
    if p.status == Vetting && q.status == Vetting {
      ShareMonotone(p.passes, q.passes, f.minPasses);
      if p.id in since { ShareMonotone(now - since[p.id], now' - since[p.id], f.minDuration); }
    }
    if |a| == 1 {
      assert |b| == 1 && a[0].progress <= b[0].progress;
      assert a[..0] == [] && b[..0] == [];
    }
  }

  lemma {:induction false} AtLeastConcat(a: seq<Cand>, b: seq<Cand>, t: real)
    ensures AtLeast(a + b, t) == AtLeast(a, t) + AtLeast(b, t)
  {
    if b == [] {
      assert a + b == a;
    } else {
      assert (a + b)[..|a + b|-1] == a + b[..|b|-1];
      AtLeastConcat(a, b[..|b|-1], t);
    }
  }

  /** `rate'` rates the improved provider no worse. */
  ghost predicate RatesUp(rate: Rater, rate': Rater, p: Provider, q: Provider, t: real) {
    AtLeast(rate(p), t) <= AtLeast(rate'(q), t) && |rate(p)| <= |rate'(q)|
    && (p.status == Active ==> q.status == Active)
  }

  lemma {:induction false} FleetMonotone(rate: Rater, rate': Rater, ps: seq<Provider>, qs: seq<Provider>, t: real)
    requires |ps| == |qs|
    requires forall i :: 0 <= i < |ps| ==> RatesUp(rate, rate', ps[i], qs[i], t)
    ensures AtLeast(Rated(rate, ps), t) <= AtLeast(Rated(rate', qs), t)
    ensures |Rated(rate, ps)| <= |Rated(rate', qs)|
    ensures ActiveCount(ps) <= ActiveCount(qs)
  {
    if ps != [] {
      var n := |ps| - 1;
      FleetMonotone(rate, rate', ps[..n], qs[..n], t);
      assert RatesUp(rate, rate', ps[n], qs[n], t);
      AtLeastConcat(Rated(rate, ps[..n]), rate(ps[n]), t);
      AtLeastConcat(Rated(rate', qs[..n]), rate'(qs[n]), t);
    }
  }

  /** Joining providers only add candidates. */
  lemma {:induction false} FleetGrows(rate: Rater, qs: seq<Provider>, extra: seq<Provider>, t: real)
    ensures AtLeast(Rated(rate, qs), t) <= AtLeast(Rated(rate, qs + extra), t)
    ensures |Rated(rate, qs)| <= |Rated(rate, qs + extra)|
    ensures ActiveCount(qs) <= ActiveCount(qs + extra)
  {
    if extra == [] {
      assert qs + extra == qs;
    } else {
      var n := |extra| - 1;
      var all := qs + extra;
      assert all[..|all|-1] == qs + extra[..n];
      FleetGrows(rate, qs, extra[..n], t);
      AtLeastConcat(Rated(rate, qs + extra[..n]), rate(extra[n]), t);
    }
  }

  /** The clock is not behind any first sighting, and pass counters are counts. */
  ghost predicate Sane(ps: seq<Provider>, since: map<int, int>, now: int) {
    forall i :: 0 <= i < |ps| ==> ps[i].passes >= 0 && (ps[i].id in since ==> since[ps[i].id] <= now)
  }

  lemma CandNonNegative(f: Profile, p: Provider, since: map<int, int>, now: int)
    requires p.passes >= 0 && (p.id in since ==> since[p.id] <= now)
    ensures forall c <- CandOf(f, p, since, now) :: c.progress >= 0.0
  {
    ShareMonotone(p.passes, p.passes, f.minPasses);
    if p.id in since { ShareMonotone(now - since[p.id], now - since[p.id], f.minDuration); }
  }

  lemma {:induction false} SaneIsNonNegative(f: Profile, ps: seq<Provider>, since: map<int, int>, now: int)
    requires Sane(ps, since, now)
    ensures forall c <- Cands(f, ps, since, now) :: c.progress >= 0.0
  {
    if ps != [] {
      SaneIsNonNegative(f, ps[..|ps|-1], since, now);
      CandNonNegative(f, ps[|ps|-1], since, now);
    }
  }

  /** The order-statistic half of the argument, on any two candidate lists. */
  lemma PickIsMonotone(f: Profile, a: nat, cands: seq<Cand>, s: seq<Cand>, b: nat, more: seq<Cand>, r: seq<Cand>)
    requires Arrangement(cands, s) && Arrangement(more, r)
    requires a <= b && a <= |cands| <= |more| && b <= |more|
    requires (forall c <- cands :: c.progress <= 1.0) && (forall c <- more :: 0.0 <= c.progress <= 1.0)
    requires forall t :: AtLeast(cands, t) <= AtLeast(more, t)
    ensures Pick(f, a, s).fraction <= Pick(f, b, r).fraction
  {
    var e, e' := Pick(f, a, s), Pick(f, b, r);
    PickIsNthLargest(f, a, cands, s);
    PickIsNthLargest(f, b, more, r);
    if e.estimated && e'.estimated && e'.fraction < e.fraction {
      CountsNest(more, e'.fraction, e.fraction, 0, 1);
    }
  }

  /**
    Passes gained, time elapsed, promotions and joining providers never lower the fraction, however
    either sort breaks its ties.
   */
  lemma FractionIsMonotone(f: Profile, ps: seq<Provider>, qs: seq<Provider>, extra: seq<Provider>,
    since: map<int, int>, since': map<int, int>, now: int, now': int, s: seq<Cand>, r: seq<Cand>)
    requires |ps| == |qs| && now <= now'
    requires forall i :: 0 <= i < |ps| ==> Improves(ps[i], qs[i]) && SameRun(ps[i], qs[i], since, since')
    requires Sane(qs + extra, since', now')
    requires Arrangement(Cands(f, ps, since, now), s) && Arrangement(Cands(f, qs + extra, since', now'), r)
    ensures Pick(f, ActiveCount(ps), s).fraction <= Pick(f, ActiveCount(qs + extra), r).fraction
  {
    var all := qs + extra;
    var rate, rate' := Rating(f, since, now), Rating(f, since', now');
    forall t ensures AtLeast(Rated(rate, ps), t) <= AtLeast(Rated(rate', all), t)
                  && |Rated(rate, ps)| <= |Rated(rate', all)| && ActiveCount(ps) <= ActiveCount(all)
    {
      forall i | 0 <= i < |ps| ensures RatesUp(rate, rate', ps[i], qs[i], t) {
        CandMonotone(f, ps[i], qs[i], since, since', now, now', t);
      }
      FleetMonotone(rate, rate', ps, qs, t);
      FleetGrows(rate', qs, extra, t);
    }
    assert AtLeast(Rated(rate, ps), 0.0) <= AtLeast(Rated(rate', all), 0.0);
    CandsAtMostOne(f, ps, since, now);
    CandsAtMostOne(f, all, since', now');
    SaneIsNonNegative(f, all, since', now');
    PickIsMonotone(f, ActiveCount(ps), Rated(rate, ps), s, ActiveCount(all), Rated(rate', all), r);
  }

  // ---------------------------------------------------------------- the wait

  /** The profiles under which progress and remaining wait are two readings of one scale. */
  predicate OneScale(f: Profile) {
    f.minPasses <= 0 || f.minDuration <= 0 || f.minPasses * f.auditPeriod == f.minDuration
  }

  /** No gate ever leaves anything to wait for. */
  predicate NoWait(f: Profile) { f.minDuration <= 0 && (f.minPasses <= 0 || f.auditPeriod <= 0) }

  /** Otherwise, the length of the scale. */
  function Length(f: Profile): int { if f.minDuration > 0 then f.minDuration else f.minPasses * f.auditPeriod }

  /** A candidate w units along a scale of d. */
  function OnLine(d: int, w: int): Cand { Cand(MinReal(Share(w, d), 1.0), Max(d - w, 0)) }

  lemma ShareTimes(part: int, whole: int)
    requires whole > 0
    ensures Share(part, whole) * whole as real == part as real
  {
  }

  lemma ShareStrict(a: int, b: int, whole: int)
    requires whole > 0 && a < b
    ensures Share(a, whole) < Share(b, whole)
  {
    assert Share(b, whole) - Share(a, whole) == (b - a) as real / whole as real;
  }

  lemma ShareWhole(whole: int)
    requires whole > 0
    ensures Share(whole, whole) == 1.0 && Share(0, whole) == 0.0
  {
  }

  lemma SameShare(c: int, n: int, a: int)
    requires n > 0 && a > 0
    ensures n * a > 0 && Share(c, n) == Share(c * a, n * a)
  {
    var q, whole := Share(c, n), n * a;
    ShareTimes(c, n);
    assert (c * a) as real == q * whole as real by {
      assert (c * a) as real == c as real * a as real && whole as real == n as real * a as real;
    }
    ShareTimes(c * a, whole);
    SameQuotient(q, Share(c * a, whole), whole as real);
  }

  lemma SameQuotient(x: real, y: real, w: real)
    requires w > 0.0 && x * w == y * w
    ensures x == y
  {
    assert (x - y) * w == 0.0;
  }

  lemma ShareMin(u: int, e: int, d: int)
    requires d > 0
    ensures MinReal(Share(u, d), Share(e, d)) == Share(Min(u, e), d)
  {
    if u < e { ShareStrict(u, e, d); }
    if e < u { ShareStrict(e, u, d); }
  }

  lemma MissingPeriods(n: int, c: int, a: int)
    requires a > 0
    ensures Max(n - c, 0) * a == Max(n * a - c * a, 0)
  {
    assert (n - c) * a == n * a - c * a;
    assert n - c >= 0 ==> (n - c) * a >= 0;
    assert n - c < 0 ==> (n - c) * a < 0;
  }

  /** The passes gate on a scale of n periods. */
  lemma PassGate(n: int, c: int, a: int)
    requires n > 0 && a > 0
    ensures n * a > 0 && Cand(MinReal(Share(c, n), 1.0), Max(n - c, 0) * a) == OnLine(n * a, c * a)
  {
    SameShare(c, n, a);
    MissingPeriods(n, c, a);
  }

  /** Two gates on one scale are one gate, at the smaller of the two positions. */
  lemma TwoGates(d: int, u: int, e: int)
    requires d > 0
    ensures Cand(MinReal(MinReal(Share(u, d), Share(e, d)), 1.0), Max(Max(d - u, 0), Max(d - e, 0))) == OnLine(d, Min(u, e))
  {
    ShareMin(u, e, d);
  }

  lemma ClampTwice(a: real)
    ensures a >= 1.0 ==> MinReal(MinReal(a, 1.0), 1.0) == 1.0
    ensures MinReal(MinReal(a, 1.0), 1.0) == MinReal(a, 1.0) && MinReal(MinReal(1.0, a), 1.0) == MinReal(a, 1.0)
  {
  }

  lemma NoWaitCand(f: Profile, passes: int, since: Option<int>, now: int)
    requires NoWait(f)
    ensures VettingCand(f, passes, since, now).remain == 0
  {
    if f.minPasses > passes && f.minPasses > 0 { ProductSign(f.minPasses - passes, f.auditPeriod); }
  }

  lemma ProductSign(n: int, a: int)
    requires n > 0 && a <= 0
    ensures n * a <= 0
  {
  }

  /** Only the duration gate. */
  lemma DurationLine(f: Profile, passes: int, since: Option<int>, now: int) returns (w: int)
    requires f.minPasses <= 0 && f.minDuration > 0
    ensures VettingCand(f, passes, since, now) == OnLine(f.minDuration, w)
  {
    w := if since.Some? then now - since.value else f.minDuration;
    ShareWhole(f.minDuration);
    ClampTwice(Share(w, f.minDuration));
  }

  /** Only the passes gate. */
  lemma PassesLine(f: Profile, passes: int, since: Option<int>, now: int) returns (w: int)
    requires f.minPasses > 0 && f.minDuration <= 0 && f.auditPeriod > 0
    ensures f.minPasses * f.auditPeriod > 0 && VettingCand(f, passes, since, now) == OnLine(f.minPasses * f.auditPeriod, w)
  {
    w := passes * f.auditPeriod;
    PassGate(f.minPasses, passes, f.auditPeriod);
    ClampTwice(Share(passes, f.minPasses));
  }

  /** Both gates, measured alike. */
  lemma BothLine(f: Profile, passes: int, since: Option<int>, now: int) returns (w: int)
    requires f.minPasses > 0 && f.minDuration > 0 && f.auditPeriod > 0 && f.minPasses * f.auditPeriod == f.minDuration
    ensures VettingCand(f, passes, since, now) == OnLine(f.minDuration, w)
  {
    var u := passes * f.auditPeriod;
    var e := if since.Some? then now - since.value else Max(u, f.minDuration);
    SameShare(passes, f.minPasses, f.auditPeriod);
    MissingPeriods(f.minPasses, passes, f.auditPeriod);
    w := Min(u, e);
    if since.Some? {
      TwoGates(f.minDuration, u, e);
    } else {
      ClampTwice(Share(u, f.minDuration));
    }
  }

  lemma PositiveFactor(n: int, a: int)
    requires n > 0 && n * a > 0
    ensures a > 0
  {
    assert a <= 0 ==> n * a <= 0;
  }

  ghost predicate Along(d: int, c: Cand) { exists w :: c == OnLine(d, w) }

  lemma VettingOnLine(f: Profile, passes: int, since: Option<int>, now: int)
    requires OneScale(f) && !NoWait(f)
    ensures Length(f) > 0 && Along(Length(f), VettingCand(f, passes, since, now))
  {
    if f.minPasses <= 0 {
      var w := DurationLine(f, passes, since, now);
    } else if f.minDuration <= 0 {
      var w := PassesLine(f, passes, since, now);
    } else {
      PositiveFactor(f.minPasses, f.auditPeriod);
      var w := BothLine(f, passes, since, now);
    }
  }

  lemma ActiveOnLine(d: int)
    requires d > 0
    ensures Along(d, Cand(1.0, 0))
  {
    ShareWhole(d);
    assert Cand(1.0, 0) == OnLine(d, d);
  }

  /** Further along is a shorter wait. */
  lemma LineAntitone(d: int, v: int, w: int)
    requires d > 0 && OnLine(d, v).progress >= OnLine(d, w).progress
    ensures OnLine(d, v).remain <= OnLine(d, w).remain
  {
    ShareWhole(d);
    if v < w { ShareStrict(v, w, d); }
    if v < d { ShareStrict(v, d, d); }
  }

  ghost predicate Aligned(s: seq<Cand>) {
    forall i, j :: 0 <= i < |s| && 0 <= j < |s| && s[i].progress >= s[j].progress ==> s[i].remain <= s[j].remain
  }

  ghost predicate AllOnScale(f: Profile, s: seq<Cand>) {
    if NoWait(f) then forall c <- s :: c.remain == 0 else Length(f) > 0 && forall c <- s :: Along(Length(f), c)
  }

  lemma {:induction false} RatedOnScale(f: Profile, rate: Rater, ps: seq<Provider>)
    requires forall p :: AllOnScale(f, rate(p))
    ensures AllOnScale(f, Rated(rate, ps))
  {
    assert AllOnScale(f, rate(Provider(0, Other, 0)));
    if ps != [] {
      RatedOnScale(f, rate, ps[..|ps|-1]);
      assert AllOnScale(f, rate(ps[|ps|-1]));
    }
  }

  lemma CandOnScale(f: Profile, p: Provider, since: map<int, int>, now: int)
    requires OneScale(f)
    ensures AllOnScale(f, CandOf(f, p, since, now))
  {
    if NoWait(f) {
      NoWaitCand(f, p.passes, Lookup(since, p.id), now);
    } else {
      VettingOnLine(f, p.passes, Lookup(since, p.id), now);
      ActiveOnLine(Length(f));
    }
  }

  lemma CandsOnScale(f: Profile, ps: seq<Provider>, since: map<int, int>, now: int)
    requires OneScale(f)
    ensures AllOnScale(f, Cands(f, ps, since, now))
  {
    var rate := Rating(f, since, now);
    forall p ensures AllOnScale(f, rate(p)) { CandOnScale(f, p, since, now); }
    RatedOnScale(f, rate, ps);
  }

  lemma AlignedArrangement(f: Profile, cands: seq<Cand>, s: seq<Cand>)
    requires AllOnScale(f, cands) && Arrangement(cands, s)
    ensures Aligned(s)
  {
    forall i, j | 0 <= i < |s| && 0 <= j < |s| && s[i].progress >= s[j].progress
      ensures s[i].remain <= s[j].remain
    {
      assert s[i] in multiset(cands) && s[j] in multiset(cands);
      assert s[i] in cands && s[j] in cands;
      if !NoWait(f) {
        assert Along(Length(f), s[i]) && Along(Length(f), s[j]);
        var v :| s[i] == OnLine(Length(f), v);
        var w :| s[j] == OnLine(Length(f), w);
        LineAntitone(Length(f), v, w);
      }
    }
  }

  lemma {:induction false} WaitsInOrder(s: seq<Cand>, k: nat, m: nat)
    requires Descending(s) && Aligned(s) && k < |s| && m <= |s|
    ensures Shorter(s[..m], s[k].remain) <= Min(m, k)
    ensures NoLonger(s[..m], s[k].remain) >= Min(m, k + 1)
  {
    if m > 0 {
      WaitsInOrder(s, k, m - 1);
      assert s[..m][..m-1] == s[..m-1];
      if m - 1 >= k { assert s[k].progress >= s[m-1].progress; }
      if m - 1 <= k { assert s[m-1].progress >= s[k].progress; }
    }
  }

  lemma AlignedWait(f: Profile, cands: seq<Cand>, s: seq<Cand>)
    requires AllOnScale(f, cands) && Arrangement(cands, s) && 0 < f.required <= |s|
    ensures NthShortest(cands, f.required, s[f.required-1].remain)
  {
    AlignedArrangement(f, cands, s);
    WaitsInOrder(s, f.required - 1, |s|);
    assert s[..|s|] == s;
    WaitsOfPermutation(s, cands, s[f.required-1].remain);
  }

  lemma WaitIsNthShortest(f: Profile, ps: seq<Provider>, since: map<int, int>, now: int, s: seq<Cand>)
    requires OneScale(f)
    requires Arrangement(Cands(f, ps, since, now), s) && Pick(f, ActiveCount(ps), s).estimated
    ensures NthShortest(Cands(f, ps, since, now), f.required, Pick(f, ActiveCount(ps), s).eta)
  {
    CandsOnScale(f, ps, since, now);
    AlignedWait(f, Cands(f, ps, since, now), s);
  }

  // ---------------------------------------------------------------- exactly when the wait is right

  ghost predicate WaitIsRight(f: Profile, ps: seq<Provider>, since: map<int, int>, now: int, s: seq<Cand>) {
    Arrangement(Cands(f, ps, since, now), s) && Pick(f, ActiveCount(ps), s).estimated ==>
      NthShortest(Cands(f, ps, since, now), f.required, Pick(f, ActiveCount(ps), s).eta)
  }

  /** What the console holds: distinct providers, and a clock, not ahead of now, for exactly those vetting. */
  ghost predicate Clocked(ps: seq<Provider>, since: map<int, int>, now: int) {
    && (forall i, j :: 0 <= i < j < |ps| ==> ps[i].id != ps[j].id)
    && (forall i :: 0 <= i < |ps| && ps[i].status == Vetting ==> ps[i].id in since && since[ps[i].id] <= now)
    && (forall id :: id in since ==> exists i :: 0 <= i < |ps| && ps[i].id == id && ps[i].status == Vetting)
  }

  ghost predicate WaitIsAlwaysRight(f: Profile) {
    forall ps, since, now, s :: Clocked(ps, since, now) ==> WaitIsRight(f, ps, since, now, s)
  }

  function Actives(n: nat): seq<Provider> {
    if n == 0 then [] else Actives(n - 1) + [Provider(n + 2, Active, 0)]
  }

  function Finished(n: nat): seq<Cand> {
    if n == 0 then [] else Finished(n - 1) + [Cand(1.0, 0)]
  }

  lemma {:induction false} ActivesAreFinished(f: Profile, n: nat, since: map<int, int>, now: int)
    ensures Cands(f, Actives(n), since, now) == Finished(n) && ActiveCount(Actives(n)) == n
    ensures |Finished(n)| == n && forall c <- Finished(n) :: c == Cand(1.0, 0)
  {
    if n > 0 {
      ActivesAreFinished(f, n - 1, since, now);
      assert Actives(n)[..|Actives(n)|-1] == Actives(n - 1);
    }
  }

  /** One provider has the time and no pass, another the passes and no time: equal progress, different waits. */
  function StuckFleet(f: Profile): seq<Provider>
    requires f.required >= 1
  {
    Actives(f.required - 1) + [Provider(1, Vetting, 0)] + [Provider(2, Vetting, f.minPasses)]
  }

  function StuckClocks(f: Profile): map<int, int> { map[1 := -f.minDuration, 2 := 0] }

  lemma {:induction false} ActivesAreDistinct(n: nat)
    ensures |Actives(n)| == n
    ensures forall i :: 0 <= i < n ==> Actives(n)[i] == Provider(i + 3, Active, 0)
  {
    if n > 0 { ActivesAreDistinct(n - 1); }
  }

  lemma StuckFleetIsClocked(f: Profile)
    requires f.required >= 1 && f.minDuration > 0
    ensures Clocked(StuckFleet(f), StuckClocks(f), 0)
  {
    var n, ps := f.required - 1, StuckFleet(f);
    ActivesAreDistinct(n);
    assert forall i :: 0 <= i < |ps| ==>
      ps[i].id == (if i < n then i + 3 else if i == n then 1 else 2) && (ps[i].status == Vetting <==> i >= n);
    assert ps[n].id == 1 && ps[n + 1].id == 2;
  }

  lemma {:induction false} RatedAppend(rate: Rater, ps: seq<Provider>, p: Provider)
    ensures Rated(rate, ps + [p]) == Rated(rate, ps) + rate(p)
    ensures ActiveCount(ps + [p]) == ActiveCount(ps) + if p.status == Active then 1 else 0
  {
    assert (ps + [p])[..|ps|] == ps;
  }

  lemma StuckPair(f: Profile)
    requires f.minPasses > 0 && f.minDuration > 0
    ensures VettingCand(f, 0, Some(-f.minDuration), 0) == Cand(0.0, Max(f.minPasses * f.auditPeriod, 0))
    ensures VettingCand(f, f.minPasses, Some(0), 0) == Cand(0.0, f.minDuration)
  {
    ShareWhole(f.minPasses);
    ShareWhole(f.minDuration);
  }

  lemma StuckCands(f: Profile)
    requires f.required >= 1 && f.minPasses > 0 && f.minDuration > 0
    ensures Cands(f, StuckFleet(f), StuckClocks(f), 0)
         == Finished(f.required - 1) + [Cand(0.0, Max(f.minPasses * f.auditPeriod, 0))] + [Cand(0.0, f.minDuration)]
    ensures ActiveCount(StuckFleet(f)) == f.required - 1
  {
    var n := f.required - 1;
    var rate := Rating(f, StuckClocks(f), 0);
    ActivesAreFinished(f, n, StuckClocks(f), 0);
    var p, q := Provider(1, Vetting, 0), Provider(2, Vetting, f.minPasses);
    StuckPair(f);
    assert rate(p) == [VettingCand(f, 0, Some(-f.minDuration), 0)];
    assert rate(q) == [VettingCand(f, f.minPasses, Some(0), 0)];
    RatedTwice(rate, Actives(n), p, q);
  }

  lemma RatedTwice(rate: Rater, ps: seq<Provider>, p: Provider, q: Provider)
    requires p.status != Active && q.status != Active
    ensures Rated(rate, ps + [p] + [q]) == Rated(rate, ps) + rate(p) + rate(q)
    ensures ActiveCount(ps + [p] + [q]) == ActiveCount(ps)
  {
    RatedAppend(rate, ps, p);
    RatedAppend(rate, ps + [p], q);
  }

  lemma {:induction false} FinishedAreBest(n: nat)
    ensures |Finished(n)| == n && forall i :: 0 <= i < n ==> Finished(n)[i] == Cand(1.0, 0)
  {
    if n > 0 { FinishedAreBest(n - 1); }
  }

  lemma StuckDescends(n: nat, x: Cand, y: Cand)
    requires x.progress == y.progress == 0.0
    ensures Descending(Finished(n) + [x] + [y]) && |Finished(n)| == n
  {
    FinishedAreBest(n);
    var s := Finished(n) + [x] + [y];
    assert forall i :: 0 <= i < |s| ==> s[i] == if i < n then Cand(1.0, 0) else if i == n then x else y;
  }

  lemma SwapKeepsElements(a: seq<Cand>, x: Cand, y: Cand)
    ensures multiset(a + [x] + [y]) == multiset(a + [y] + [x])
  {
  }

  lemma StuckArrangements(n: nat, x: Cand, y: Cand)
    requires x.progress == y.progress == 0.0
    ensures Arrangement(Finished(n) + [x] + [y], Finished(n) + [y] + [x])
    ensures Arrangement(Finished(n) + [x] + [y], Finished(n) + [x] + [y])
    ensures |Finished(n)| == n
  {
    StuckDescends(n, x, y);
    StuckDescends(n, y, x);
    SwapKeepsElements(Finished(n), x, y);
  }

  /** Swapping the tied pair is another legal arrangement with another wait; both cannot be right. */
  lemma StuckDisagree(f: Profile, cands: seq<Cand>, v: int, w: int)
    requires f.required >= 1 && v != w
    requires cands == Finished(f.required - 1) + [Cand(0.0, v)] + [Cand(0.0, w)]
    ensures exists s :: Arrangement(cands, s) && Pick(f, f.required - 1, s).estimated
                        && !NthShortest(cands, f.required, Pick(f, f.required - 1, s).eta)
  {
    var n := f.required - 1;
    var x, y := Cand(0.0, v), Cand(0.0, w);
    var s := Finished(n) + [y] + [x];
    StuckArrangements(n, x, y);
    NthIsUnique(cands, f.required, 0.0, 0.0, v, w);
    assert Arrangement(cands, cands) && Pick(f, n, cands).eta == v;
    assert Arrangement(cands, s) && Pick(f, n, s).eta == w;
  }

  /**
    For every fleet the console can hold and every tie order the wait is the required-th shortest one, if and only if the
    profile measures both gates on one scale (or never estimates, or has one gate only).
   */
  lemma WaitRightIffOneScale(f: Profile)
    ensures WaitIsAlwaysRight(f) <==> f.required <= 0 || OneScale(f)
  {
    if OneScale(f) {
      forall ps, since, now, s ensures WaitIsRight(f, ps, since, now, s) {
        if Arrangement(Cands(f, ps, since, now), s) && Pick(f, ActiveCount(ps), s).estimated {
          WaitIsNthShortest(f, ps, since, now, s);
        }
      }
    } else if f.required > 0 {
      var w := Max(f.minPasses * f.auditPeriod, 0);
      StuckCands(f);
      StuckFleetIsClocked(f);
      StuckDisagree(f, Cands(f, StuckFleet(f), StuckClocks(f), 0), w, f.minDuration);
      var s :| Arrangement(Cands(f, StuckFleet(f), StuckClocks(f), 0), s) && Pick(f, f.required - 1, s).estimated
               && !NthShortest(Cands(f, StuckFleet(f), StuckClocks(f), 0), f.required, Pick(f, f.required - 1, s).eta);
      assert !WaitIsRight(f, StuckFleet(f), StuckClocks(f), 0, s);
    }
  }

  const MINUTE := 60_000_000_000
  const DAY := 24 * 60 * MINUTE

  function DemoProfile(): Profile { Profile(5, 5, 5 * MINUTE, 2 * MINUTE) }

  function ProductionProfile(): Profile { Profile(56, 80, 120 * DAY, 30 * DAY) }

  /** Neither shipped profile measures both gates on one scale. */
  lemma ShippedProfilesMisreport()
    ensures !WaitIsAlwaysRight(DemoProfile()) && !WaitIsAlwaysRight(ProductionProfile())
    ensures DemoProfile() == Profile(5, 5, 300_000_000_000, 120_000_000_000)
    ensures ProductionProfile() == Profile(56, 80, 10_368_000_000_000_000, 2_592_000_000_000_000)
  {
    WaitRightIffOneScale(DemoProfile());
    WaitRightIffOneScale(ProductionProfile());
  }
}
