/** The provider's memory of challenge-nonce versions. */
module NonceVersions {
  import opened Prelude

  const WINDOW := 24 * 60 * 60 * 1_000_000_000

  /** highest == 0 means no version has been seen. */
  datatype Mark = Mark(highest: nat, firstAt: int)

  datatype Call = Call(version: nat, at: int)

  function Next(m: Mark, c: Call): Mark {
    if c.version > m.highest then Mark(c.version, c.at) else m
  }

  predicate Accepts(m: Mark, c: Call) {
    c.version != 0 && (c.version >= m.highest || c.at - m.firstAt <= WINDOW)
  }

  class Tracker {
    var highest: nat
    var firstAt: int

    constructor ()
      ensures State() == Mark(0, 0)
    {
      highest, firstAt := 0, 0;
    }

    ghost function State(): Mark
      reads this
    {
      Mark(highest, firstAt)
    }

    method Accept(version: nat, now: int) returns (ok: bool)
      modifies this
      ensures State() == Next(old(State()), Call(version, now))
      ensures ok <==> Accepts(old(State()), Call(version, now))
    {
      if version == 0 { return false; }
      if highest == 0 {
        highest, firstAt := version, now;
        return true;
      }
      if version >= highest {
        if version > highest { highest, firstAt := version, now; }
        return true;
      }
      ok := now - firstAt <= WINDOW;
    }
  }

  function After(cs: seq<Call>): Mark {
    if cs == [] then Mark(0, 0) else Next(After(cs[..|cs|-1]), cs[|cs|-1])
  }

  /** Nonzero version v was presented for the first time in call k. */
  ghost predicate FirstSeen(cs: seq<Call>, v: nat, k: int) {
    0 <= k < |cs| && cs[k].version == v && forall j :: 0 <= j < k ==> cs[j].version != v
  }

  /** The mark is the largest version ever presented and the time of its first presentation. */
  lemma {:induction false} MarkIsMaximum(cs: seq<Call>)
    ensures forall c <- cs :: c.version <= After(cs).highest
    ensures After(cs).highest > 0 ==> exists k :: FirstSeen(cs, After(cs).highest, k) && After(cs).firstAt == cs[k].at
  {
    if cs != [] {
      var n := |cs| - 1;
      var init := cs[..n];
      MarkIsMaximum(init);
      assert cs == init + [cs[n]];
      if cs[n].version > After(init).highest {
        assert forall j :: 0 <= j < n ==> cs[j] in init;
        assert FirstSeen(cs, After(cs).highest, n);
      } else if After(init).highest > 0 {
        var k :| FirstSeen(init, After(init).highest, k) && After(init).firstAt == init[k].at;
        assert forall j :: 0 <= j <= k ==> cs[j] == init[j];
        assert FirstSeen(cs, After(cs).highest, k);
      }
    }
  }

  lemma {:induction false} MarkStays(cs: seq<Call>, more: seq<Call>)
    requires forall c <- more :: c.version <= After(cs).highest
    ensures After(cs + more) == After(cs)
  {
    if more == [] {
      assert cs + more == cs;
    } else {
      var init := more[..|more|-1];
      MarkStays(cs, init);
      assert (cs + more)[..|cs + more|-1] == cs + init;
      assert more[|more|-1] in more;
    }
  }

  /** A rejected version stays rejected for as long as nothing above the mark arrives. */
  lemma RejectionLasts(cs: seq<Call>, more: seq<Call>, v: nat, at: int, later: int)
    requires v > 0 && !Accepts(After(cs), Call(v, at)) && later >= at
    requires forall c <- more :: c.version <= After(cs).highest
    ensures !Accepts(After(cs + more), Call(v, later))
  {
    MarkStays(cs, more);
  }

  /** A version above the mark reopens the window: every retired version is accepted again for 24 hours. */
  lemma NewVersionReopens(cs: seq<Call>, higher: Call, v: nat, at: int)
    requires higher.version > After(cs).highest && 0 < v
    ensures Accepts(After(cs + [higher]), Call(v, at)) <==> v >= higher.version || at - higher.at <= 86_400_000_000_000
  {
    assert (cs + [higher])[..|cs|] == cs;
  }
}

/** The admin challenge endpoint: its gates, its deadline and its one-challenge-per-window rule. */
module AdminChallenge {
  import opened Prelude

  // ---------------------------------------------------------------- the tables it reads

  datatype ProviderStatus = PendingOnboarding | Vetting | Active | Departed

  datatype ProviderRow = ProviderRow(id: int, status: ProviderStatus, p95: Option<real>, stale: bool)

  datatype AssignmentStatus = Held | Repairing | PendingDeletion | Deleted

  datatype Assignment = Assignment(vetting: bool, segment: Option<int>, status: AssignmentStatus)

  /** Assignments by (chunk, provider), which is unique; segments by id, giving the file. */
  datatype Tables = Tables(providers: seq<ProviderRow>, assignments: map<(int, int), Assignment>, segments: map<int, int>)

  function ProviderOf(ps: seq<ProviderRow>, id: int): (r: Option<ProviderRow>)
    ensures r.Some? ==> r.value in ps && r.value.id == id
    ensures r.None? ==> forall p <- ps :: p.id != id
  {
    if ps == [] then None else if ps[0].id == id then Some(ps[0]) else ProviderOf(ps[1..], id)
  }

  /** A provider and chunk that may be challenged at all. */
  predicate Admissible(db: Tables, provider: int, chunk: int) {
    && var p := ProviderOf(db.providers, provider);
    && p.Some? && p.value.status != Departed
    && (chunk, provider) in db.assignments
    && var a := db.assignments[(chunk, provider)];
    && (a.status == Held || a.status == Repairing)
    && (a.vetting || (a.segment.Some? && a.segment.value in db.segments))
  }

  /** A synthetic chunk belongs to no file. */
  function FileOf(db: Tables, provider: int, chunk: int): Option<int>
    requires Admissible(db, provider, chunk)
  {
    var a := db.assignments[(chunk, provider)];
    if a.vetting then None else Some(db.segments[a.segment.value])
  }

  // ---------------------------------------------------------------- the deadline

  function Samples(ps: seq<ProviderRow>): seq<real> {
    if ps == [] then []
    else Samples(ps[..|ps|-1]) + match ps[|ps|-1].p95 case Some(x) => [x] case None => []
  }

  function Insert(s: seq<real>, x: real): seq<real> {
    if s == [] || s[|s|-1] <= x then s + [x] else Insert(s[..|s|-1], x) + [s[|s|-1]]
  }

  function Ranked(xs: seq<real>): seq<real> { if xs == [] then [] else Insert(Ranked(xs[..|xs|-1]), xs[|xs|-1]) }

  /** PERCENTILE_CONT(0.5): the middle sample, or half way between the middle two. */
  function Middle(s: seq<real>): real
    requires s != []
  {
    var k := |s| / 2;
    if |s| % 2 == 1 then s[k] else (s[k-1] + s[k]) / 2.0
  }

  function PoolMedian(ps: seq<ProviderRow>): Option<real> {
    var xs := Ranked(Samples(ps));
    if xs == [] || Middle(xs) <= 0.0 then None else Some(Middle(xs))
  }

  ghost predicate Ascending(s: seq<real>) { forall i, j :: 0 <= i < j < |s| ==> s[i] <= s[j] }

  lemma {:induction false} InsertElements(s: seq<real>, x: real)
    ensures multiset(Insert(s, x)) == multiset(s) + multiset{x}
  {
    if s != [] && s[|s|-1] > x {
      InsertElements(s[..|s|-1], x);
      assert s == s[..|s|-1] + [s[|s|-1]];
    }
  }

  ghost predicate AtMost(s: seq<real>, y: real) { forall i :: 0 <= i < |s| ==> s[i] <= y }

  lemma {:induction false} InsertAtMost(s: seq<real>, x: real, y: real)
    requires AtMost(s, y) && x <= y
    ensures AtMost(Insert(s, x), y)
  {
    if s != [] && s[|s|-1] > x { InsertAtMost(s[..|s|-1], x, y); }
  }

  lemma {:induction false} InsertAscends(s: seq<real>, x: real)
    requires Ascending(s)
    ensures Ascending(Insert(s, x))
  {
    if s != [] && s[|s|-1] > x {
      InsertAscends(s[..|s|-1], x);
      InsertAtMost(s[..|s|-1], x, s[|s|-1]);
    }
  }

  lemma {:induction false} RankedIsSorted(xs: seq<real>)
    ensures Ascending(Ranked(xs)) && multiset(Ranked(xs)) == multiset(xs) && |Ranked(xs)| == |xs|
  {
    if xs != [] {
      RankedIsSorted(xs[..|xs|-1]);
      InsertAscends(Ranked(xs[..|xs|-1]), xs[|xs|-1]);
      InsertElements(Ranked(xs[..|xs|-1]), xs[|xs|-1]);
      assert xs == xs[..|xs|-1] + [xs[|xs|-1]];
    }
    assert |multiset(Ranked(xs))| == |multiset(xs)|;
  }

  lemma MiddleBounds(s: seq<real>)
    requires Ascending(s) && s != []
    ensures forall i :: 0 <= i < (|s| + 1) / 2 ==> s[i] <= Middle(s)
    ensures forall i :: |s| / 2 <= i < |s| ==> s[i] >= Middle(s)
  {
    var k := |s| / 2;
    if |s| % 2 == 0 { assert s[k-1] <= Middle(s) <= s[k] by { assert s[k-1] <= s[k]; } }
  }

  /** The substitute is a true median: no more than half the samples lie on either side of it. */
  lemma PoolMedianSplits(ps: seq<ProviderRow>, below: real -> bool, above: real -> bool)
    requires PoolMedian(ps).Some?
    requires forall x :: (below(x) <==> x <= PoolMedian(ps).value) && (above(x) <==> x >= PoolMedian(ps).value)
    ensures 2 * Tally(Samples(ps), below) >= |Samples(ps)| && 2 * Tally(Samples(ps), above) >= |Samples(ps)|
  {
    var xs := Samples(ps);
    RankedIsSorted(xs);
    MiddleBounds(Ranked(xs));
    TallyAtLeast(Ranked(xs), below, (|xs| + 1) / 2);
    TallyFrom(Ranked(xs), above, |xs| / 2);
    TallyOfPermutation(xs, Ranked(xs), below);
    TallyOfPermutation(xs, Ranked(xs), above);
  }

  function Throughput(db: Tables, p: ProviderRow, medianFails: bool): (r: Option<real>)
    ensures r.Some? ==> r.value > 0.0
  {
    if p.p95.Some? && p.p95.value > 0.0 then p.p95 else if medianFails then None else PoolMedian(db.providers)
  }

  function Ceiling(x: real): int { -((-x).Floor) }

  /** Milliseconds to move 256 KB, with half as much again to spare. */
  function MoveMs(kbps: real): real
    requires kbps > 0.0
  {
    256.0 / kbps * 1500.0
  }

  function DeadlineMs(kbps: real): int
    requires kbps > 0.0
  {
    Ceiling(MoveMs(kbps))
  }

  lemma MoveTime(kbps: real)
    requires kbps > 0.0
    ensures MoveMs(kbps) > 0.0 && MoveMs(kbps) * kbps == 384000.0
  {
    var q := 256.0 / kbps;
    assert q * kbps == 256.0;
    assert q * 1500.0 * kbps == 1500.0 * (q * kbps);
  }

  lemma CeilingBounds(x: real)
    ensures Ceiling(x) as real - 1.0 < x <= Ceiling(x) as real
  {
  }

  /** The least whole number of milliseconds in which 256 KB and half as much again can be moved. */
  predicate Covers(ms: int, kbps: real) {
    ms >= 1 && Moved(ms - 1, kbps) < 384000.0 <= Moved(ms, kbps)
  }

  function Moved(ms: int, kbps: real): real { ms as real * kbps }

  lemma ProductGrows(a: real, b: real, k: real)
    requires k > 0.0 && a < b
    ensures a * k < b * k
  {
    assert (b - a) * k > 0.0;
    assert (b - a) * k == b * k - a * k;
  }

  lemma MovedBelow(ms: int, x: real, kbps: real)
    requires kbps > 0.0
    ensures ms as real < x ==> Moved(ms, kbps) < x * kbps
    ensures x <= ms as real ==> x * kbps <= Moved(ms, kbps)
  {
    if ms as real < x { ProductGrows(ms as real, x, kbps); }
    if x < ms as real { ProductGrows(x, ms as real, kbps); }
  }

  lemma CeilingCovers(x: real, kbps: real)
    requires kbps > 0.0 && x > 0.0 && x * kbps == 384000.0
    ensures Covers(Ceiling(x), kbps)
  {
    CeilingBounds(x);
    MovedBelow(Ceiling(x) - 1, x, kbps);
    MovedBelow(Ceiling(x), x, kbps);
  }

  lemma DeadlineCovers(kbps: real)
    requires kbps > 0.0
    ensures Covers(DeadlineMs(kbps), kbps)
    ensures DeadlineMs(kbps) >= 1 && Moved(DeadlineMs(kbps) - 1, kbps) < 384000.0 <= Moved(DeadlineMs(kbps), kbps)
  {
    MoveTime(kbps);
    CeilingCovers(MoveMs(kbps), kbps);
  }

  // ---------------------------------------------------------------- one request

  datatype Source = Admin | Dispatcher

  datatype Receipt = Receipt(provider: int, chunk: int, file: Option<int>, ts: int, nonce: int, stale: bool, source: Source)

  type Receipts = seq<Receipt>

  /** Which of the handler's database steps fails, and whether the cluster secret is missing. */
  datatype Faults = Faults(provider: bool, assignment: bool, segment: bool, median: bool, dedup: bool, secret: bool, write: bool)

  datatype Request = Request(provider: int, chunk: int, now: int, nonce: int, faults: Faults)

  datatype Reply = Accepted(nonce: int, ts: int, deadline: int) | Refused(code: nat)

  predicate Pair(r: Receipt, provider: int, chunk: int) { r.provider == provider && r.chunk == chunk }

  /** A row ORDER BY server_challenge_ts DESC LIMIT 1 may return; equal times may go either way. */
  ghost predicate Newest(t: Receipts, provider: int, chunk: int, r: Receipt) {
    && r in t && r.provider == provider && r.chunk == chunk
    && forall x <- t :: x.provider == provider && x.chunk == chunk ==> x.ts <= r.ts
  }

  /** Every receipt of the pair is at least the polling interval old. */
  ghost predicate Due(t: Receipts, q: Request, interval: nat) {
    forall x <- t :: x.provider == q.provider && x.chunk == q.chunk ==> q.now - x.ts >= interval
  }

  /** Every gate before the receipt table's own rule. */
  predicate Passes(db: Tables, q: Request) {
    && Admissible(db, q.provider, q.chunk)
    && !q.faults.provider && !q.faults.assignment && !q.faults.dedup
    && (q.faults.segment ==> db.assignments[(q.chunk, q.provider)].vetting)
    && Throughput(db, ProviderOf(db.providers, q.provider).value, q.faults.median).Some?
  }

  function NewReceipt(db: Tables, q: Request): Receipt
    requires Admissible(db, q.provider, q.chunk)
  {
    Receipt(q.provider, q.chunk, FileOf(db, q.provider, q.chunk), q.now, q.nonce,
            ProviderOf(db.providers, q.provider).value.stale, Admin)
  }

  predicate SeesDeparted(db: Tables, q: Request) {
    var p := ProviderOf(db.providers, q.provider);
    !q.faults.provider && p.Some? && p.value.status == Departed
  }

  predicate SeesNothingToChallenge(db: Tables, q: Request) {
    var p := ProviderOf(db.providers, q.provider);
    !q.faults.provider
    && (p.None? ||
        (&& p.value.status != Departed && !q.faults.assignment
         && ((q.chunk, q.provider) in db.assignments ==>
               db.assignments[(q.chunk, q.provider)].status in {PendingDeletion, Deleted})))
  }

  /**
    A request writes exactly when it passes every gate and the pair is due, and is then the receipt of
    that provider, chunk and file; a 202 carries a newest receipt of the pair and a covering deadline;
    403 and 404 say exactly what they should.
   */
  ghost predicate Handled(interval: nat, db: Tables, t: Receipts, q: Request, t': Receipts, reply: Reply) {
    && (t' == t || (Admissible(db, q.provider, q.chunk) && t' == t + [NewReceipt(db, q)]))
    && (t' != t <==> Passes(db, q) && Due(t, q, interval) && !q.faults.secret && !q.faults.write)
    && (reply.Accepted? <==> Passes(db, q) && (Due(t, q, interval) ==> !q.faults.secret && !q.faults.write))
    && (reply.Accepted? ==>
          exists r :: Newest(t', q.provider, q.chunk, r) && reply.nonce == r.nonce && reply.ts == r.ts)
    && (reply.Accepted? ==>
          reply.deadline == DeadlineMs(Throughput(db, ProviderOf(db.providers, q.provider).value, q.faults.median).value))
    && (reply == Refused(403) <==> SeesDeparted(db, q))
    && (reply == Refused(404) <==> SeesNothingToChallenge(db, q))
    && (reply.Refused? ==> reply.code in {403, 404, 500})
  }

  /** The deadline in a 202 covers the provider's own throughput when it has one, and the pool median otherwise. */
  lemma ReplyDeadlineCovers(interval: nat, db: Tables, t: Receipts, q: Request, t': Receipts, reply: Reply) returns (kbps: real)
    requires Handled(interval, db, t, q, t', reply) && reply.Accepted?
    ensures kbps > 0.0 && Covers(reply.deadline, kbps)
    ensures
      var p := ProviderOf(db.providers, q.provider);
      && p.Some?
      && (if p.value.p95.Some? && p.value.p95.value > 0.0 then kbps == p.value.p95.value
          else !q.faults.median && PoolMedian(db.providers) == Some(kbps))
  {
    kbps := Throughput(db, ProviderOf(db.providers, q.provider).value, q.faults.median).value;
    DeadlineCovers(kbps);
  }

  class Endpoint {
    var receipts: Receipts
    const interval: nat

    constructor (interval: nat, receipts: Receipts)
      ensures this.interval == interval && this.receipts == receipts
    {
      this.interval, this.receipts := interval, receipts;
    }

    method NewestOf(provider: int, chunk: int) returns (r: Option<Receipt>)
      ensures r.Some? ==> Newest(receipts, provider, chunk, r.value)
      ensures r.None? ==> forall x <- receipts :: !(x.provider == provider && x.chunk == chunk)
    {
      r := None;
      for i := 0 to |receipts|
        invariant r.Some? ==> Newest(receipts[..i], provider, chunk, r.value)
        invariant r.None? ==> forall x <- receipts[..i] :: !(x.provider == provider && x.chunk == chunk)
      {
        assert receipts[..i+1] == receipts[..i] + [receipts[i]];
        if Pair(receipts[i], provider, chunk) && (r.None? || receipts[i].ts > r.value.ts) {
          r := Some(receipts[i]);
        }
      }
      assert receipts[..|receipts|] == receipts;
    }

    method HandleDispatch(db: Tables, q: Request) returns (reply: Reply)
      modifies this`receipts
      ensures Handled(interval, db, old(receipts), q, receipts, reply)
    {
      if q.faults.provider { return Refused(500); }
      var provider := ProviderOf(db.providers, q.provider);
      if provider.None? { return Refused(404); }
      if provider.value.status == Departed { return Refused(403); }

      if q.faults.assignment { return Refused(500); }
      if (q.chunk, q.provider) !in db.assignments { return Refused(404); }
      var a := db.assignments[(q.chunk, q.provider)];
      if a.status != Held && a.status != Repairing { return Refused(404); }

      var file: Option<int> := None;
      if !a.vetting {
        if a.segment.None? || q.faults.segment || a.segment.value !in db.segments { return Refused(500); }
        file := Some(db.segments[a.segment.value]);
      }
      var kbps := Throughput(db, provider.value, q.faults.median);
      if kbps.None? { return Refused(500); }
      var deadline := DeadlineMs(kbps.value);

      if q.faults.dedup { return Refused(500); }
      var last := NewestOf(q.provider, q.chunk);
      if last.Some? && q.now - last.value.ts < interval {
        return Accepted(last.value.nonce, last.value.ts, deadline);
      }
      if q.faults.secret || q.faults.write { return Refused(500); }
      var r := Receipt(q.provider, q.chunk, file, q.now, q.nonce, provider.value.stale, Admin);
      receipts := receipts + [r];
      assert Newest(receipts, q.provider, q.chunk, r);
      reply := Accepted(q.nonce, q.now, deadline);
    }
  }

  // ---------------------------------------------------------------- whole runs

  datatype World = World(db: Tables, receipts: Receipts)

  /** Between requests the audit dispatcher writes receipts and anyone changes the tables. */
  datatype Event = Ask(request: Request) | Other(receipt: Receipt) | Change(db: Tables)

  ghost predicate Step(interval: nat, w: World, e: Event, w': World) {
    match e
    case Ask(q) => w'.db == w.db && exists reply :: Handled(interval, w.db, w.receipts, q, w'.receipts, reply)
    case Other(r) => r.source == Dispatcher && w' == w.(receipts := w.receipts + [r])
    case Change(db) => w' == w.(db := db)
  }

  ghost predicate Behaviour(interval: nat, es: seq<Event>, ws: seq<World>) {
    && |ws| == |es| + 1
    && forall i, j :: 0 <= i < |es| && j == i + 1 ==> Step(interval, ws[i], es[i], ws[j])
  }

  /** An admin receipt is at least the interval younger than every earlier one of its pair, from any source. */
  ghost predicate Spaced(interval: nat, t: Receipts) {
    forall i, j :: 0 <= i < j < |t| && t[j].source == Admin && t[i].provider == t[j].provider && t[i].chunk == t[j].chunk ==>
                     t[j].ts - t[i].ts >= interval
  }

  lemma StepKeepsSpaced(interval: nat, w: World, e: Event, w': World)
    requires Spaced(interval, w.receipts) && Step(interval, w, e, w')
    ensures Spaced(interval, w'.receipts)
  {
    var t, t' := w.receipts, w'.receipts;
    if e.Ask? && t' != t {
      var n := |t|;
      forall i | 0 <= i < n && t'[i].provider == t'[n].provider && t'[i].chunk == t'[n].chunk ensures t'[n].ts - t'[i].ts >= interval {
        assert t[i] in t;
      }
    }
  }

  /** Over every run from any such table, whatever other writers do. */
  lemma {:induction false} RunIsSpaced(interval: nat, es: seq<Event>, ws: seq<World>, n: nat)
    requires Behaviour(interval, es, ws) && n <= |es| && Spaced(interval, ws[0].receipts)
    ensures Spaced(interval, ws[n].receipts)
  {
    if n > 0 {
      RunIsSpaced(interval, es, ws, n - 1);
      assert Step(interval, ws[n-1], es[n-1], ws[n]);
      StepKeepsSpaced(interval, ws[n-1], es[n-1], ws[n]);
    }
  }

  /** Receipt j was written by request i, for a pair that could be challenged at that moment. */
  ghost predicate WrittenBy(es: seq<Event>, ws: seq<World>, r: Receipt, j: nat, i: nat) {
    && i < |es| && i < |ws| && es[i].Ask? && |ws[i].receipts| == j
    && var q := es[i].request;
    && Pair(r, q.provider, q.chunk)
    && Passes(ws[i].db, q) && r == NewReceipt(ws[i].db, q)
  }

  /**
    Over every run: each admin receipt was written for a provider that existed and had not departed and
    an assignment that was held or under repair when it was written, with the file of its segment.
   */
  lemma {:induction false} AdminReceiptsAreAdmissible(interval: nat, es: seq<Event>, ws: seq<World>, n: nat, j: nat)
    requires Behaviour(interval, es, ws) && n <= |es|
    requires |ws[0].receipts| <= j < |ws[n].receipts| && ws[n].receipts[j].source == Admin
    ensures exists i: nat :: i < n && WrittenBy(es, ws, ws[n].receipts[j], j, i)
  {
    if n > 0 {
      var w, w' := ws[n-1], ws[n];
      assert Step(interval, w, es[n-1], w');
      if j < |w.receipts| {
        assert w.receipts[j] == w'.receipts[j];
        AdminReceiptsAreAdmissible(interval, es, ws, n - 1, j);
      } else {
        assert WrittenBy(es, ws, w'.receipts[j], j, n - 1);
      }
    }
  }
}
