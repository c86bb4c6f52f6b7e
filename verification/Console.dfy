/**
  The operator console as a state machine over fetch cycles: last-good snapshots, first-seen vetting
  clocks, the bounded event feed and the announce-once tail of the code delivery log. A feed message
  is kept as the values its text is built from.
 */
module Console {
  import opened Prelude
  import opened EventFeed
  import opened LogTail

  datatype Status = Vetting | Standing(name: string)

  datatype Provider = Provider(id: int, status: Status)

  datatype RepairJob = RepairJob(id: int, status: string)

  datatype CodeLine = CodeLine(phone: string, code: string)

  datatype Note =
    | Joined(id: int, status: Status)
    | Moved(id: int, was: Status, now: Status)
    | JobMoved(job: int, before: string, after: string)
    | NewChallenges(count: int)
    | Code(line: CodeLine)

  type FeedEntry = Event<Note>

  /** The payloads of readiness, vetting status and escrow summary are carried, never inspected. */
  datatype Snapshot = Snapshot(
    at: int, errors: seq<string>, readiness: Option<int>, providers: Option<seq<Provider>>,
    repairs: Option<seq<RepairJob>>, challenges: Option<int>, vetting: Option<int>, escrow: Option<int>)

  /** One fetch cycle: None where that endpoint failed; `log` is what the delivery log read gave. */
  datatype Cycle = Cycle(
    at: int, errors: seq<string>, readiness: Option<int>, providers: Option<seq<Provider>>,
    repairs: Option<seq<RepairJob>>, challenges: Option<int>, vetting: Option<int>, escrow: Option<int>,
    log: seq<CodeLine>)

  datatype Model = Model(
    snapshot: Snapshot, prev: Snapshot, since: map<int, int>, events: seq<FeedEntry>, seen: nat,
    cycles: nat, haveData: bool)

  const FEED := 20

  function Blank(): Snapshot { Snapshot(0, [], None, None, None, None, None, None) }

  function Start(): Model { Model(Blank(), Blank(), map[], [], 0, 0, false) }

  // ---------------------------------------------------------------- one cycle, as a function

  function Carry<T>(fetched: Option<T>, kept: Option<T>): Option<T> { if fetched.Some? then fetched else kept }

  function Carried(s: Snapshot, c: Cycle): Snapshot {
    Snapshot(c.at, c.errors, Carry(c.readiness, s.readiness), Carry(c.providers, s.providers),
             Carry(c.repairs, s.repairs), Carry(c.challenges, s.challenges), Carry(c.vetting, s.vetting),
             Carry(c.escrow, s.escrow))
  }

  function VettingIds(ps: seq<Provider>): set<int> { set p | p in ps && p.status.Vetting? :: p.id }

  /** Known clocks stay, new ones start now, and whoever left VETTING is forgotten. */
  function Clocks(since: map<int, int>, ps: Option<seq<Provider>>, at: int): map<int, int> {
    match ps
    case None => since
    case Some(list) => map id | id in VettingIds(list) :: if id in since then since[id] else at
  }

  function StatusOf(ps: seq<Provider>, id: int): Option<Status> {
    if ps == [] then None
    else if ps[|ps|-1].id == id then Some(ps[|ps|-1].status) else StatusOf(ps[..|ps|-1], id)
  }

  function JobStatusOf(js: seq<RepairJob>, id: int): Option<string> {
    if js == [] then None
    else if js[|js|-1].id == id then Some(js[|js|-1].status) else JobStatusOf(js[..|js|-1], id)
  }

  function ProviderEvent(prev: Option<seq<Provider>>, p: Provider, at: int): seq<FeedEntry> {
    if prev.None? then []
    else
      match StatusOf(prev.value, p.id)
      case None => [Event(at, NodeEntry, Joined(p.id, p.status))]
      case Some(was) => if was == p.status then [] else [Event(at, StatusTransition, Moved(p.id, was, p.status))]
  }

  function ProviderEvents(prev: Option<seq<Provider>>, ps: seq<Provider>, at: int): seq<FeedEntry> {
    if ps == [] then [] else ProviderEvents(prev, ps[..|ps|-1], at) + ProviderEvent(prev, ps[|ps|-1], at)
  }

  function RepairEvent(prev: seq<RepairJob>, j: RepairJob, at: int): seq<FeedEntry> {
    match JobStatusOf(prev, j.id)
    case None => []
    case Some(was) => if was == j.status then [] else [Event(at, RepairProgress, JobMoved(j.id, was, j.status))]
  }

  function RepairEvents(prev: seq<RepairJob>, js: seq<RepairJob>, at: int): seq<FeedEntry> {
    if js == [] then [] else RepairEvents(prev, js[..|js|-1], at) + RepairEvent(prev, js[|js|-1], at)
  }

  function AuditEvents(prev: Option<int>, now: Option<int>, at: int): seq<FeedEntry> {
    if prev.Some? && now.Some? && now.value - prev.value > 0
    then [Event(at, AuditActivity, NewChallenges(now.value - prev.value))] else []
  }

  function AllProviderEvents(prev: Snapshot, s: Snapshot, at: int): seq<FeedEntry> {
    if s.providers.Some? then ProviderEvents(prev.providers, s.providers.value, at) else []
  }

  function AllRepairEvents(prev: Snapshot, s: Snapshot, at: int): seq<FeedEntry> {
    if s.repairs.Some? && prev.repairs.Some? then RepairEvents(prev.repairs.value, s.repairs.value, at) else []
  }

  function Derived(prev: Snapshot, s: Snapshot, at: int): seq<FeedEntry> {
    AllProviderEvents(prev, s, at) + AllRepairEvents(prev, s, at) + AuditEvents(prev.challenges, s.challenges, at)
  }

  function CodeEvents(ls: seq<CodeLine>, at: int): seq<FeedEntry> {
    if ls == [] then [] else CodeEvents(ls[..|ls|-1], at) + [Event(at, CodeSent, Code(ls[|ls|-1]))]
  }

  function CycleEvents(s: Snapshot, seen: nat, c: Cycle): seq<FeedEntry> {
    Derived(s, Carried(s, c), c.at) + CodeEvents(Unseen(c.log, seen), c.at)
  }

  function Tail(events: seq<FeedEntry>): seq<FeedEntry> {
    if |events| > FEED then events[|events|-FEED..] else events
  }

  predicate AnyFetched(c: Cycle) {
    c.readiness.Some? || c.providers.Some? || c.repairs.Some? || c.challenges.Some? || c.vetting.Some? || c.escrow.Some?
  }

  function Fold(m: Model, c: Cycle): Model {
    Model(Carried(m.snapshot, c), m.snapshot, Clocks(m.since, Carried(m.snapshot, c).providers, c.at),
          Tail(m.events + CycleEvents(m.snapshot, m.seen, c)), |c.log|, m.cycles + 1, m.haveData || AnyFetched(c))
  }

  function Run(cs: seq<Cycle>): Model {
    if cs == [] then Start() else Fold(Run(cs[..|cs|-1]), cs[|cs|-1])
  }

  // ---------------------------------------------------------------- one cycle, as the console does it

  lemma TailAppend(h: seq<FeedEntry>, e: FeedEntry)
    ensures Tail(Tail(h) + [e]) == Tail(h + [e])
  {
  }

  lemma TailAppendAll(h: seq<FeedEntry>, es: seq<FeedEntry>)
    ensures Tail(Tail(h) + es) == Tail(h + es)
  {
    assert Tail(h) + es == (h + es)[|h| - |Tail(h)|..];
  }

  /** Two bounded appends in a row are one. */
  lemma TailTwice(h: seq<FeedEntry>, a: seq<FeedEntry>, b: seq<FeedEntry>)
    ensures Tail(Tail(h + a) + b) == Tail(h + (a + b))
  {
    TailAppendAll(h + a, b);
    assert h + a + b == h + (a + b);
  }

  lemma ThreeAppends(h: seq<FeedEntry>, a: seq<FeedEntry>, b: seq<FeedEntry>, c: seq<FeedEntry>)
    ensures Tail(Tail(Tail(h + a) + b) + c) == Tail(h + (a + b + c))
  {
    TailTwice(h, a, b);
    TailTwice(h, a + b, c);
  }

  class Console {
    var snapshot: Snapshot
    var prev: Snapshot
    var since: map<int, int>
    var events: seq<FeedEntry>
    var seen: nat
    var cycles: nat
    var haveData: bool

    constructor ()
      ensures State() == Start()
    {
      snapshot, prev, since, events, seen, cycles, haveData := Blank(), Blank(), map[], [], 0, 0, false;
    }

    ghost function State(): Model
      reads this
    {
      Model(snapshot, prev, since, events, seen, cycles, haveData)
    }

    method Add(e: FeedEntry)
      modifies this`events
      ensures events == Tail(old(events) + [e])
    {
      events := events + [e];
      if |events| > FEED { events := events[|events|-FEED..]; }
    }

    method AddAll(es: seq<FeedEntry>)
      requires |events| <= FEED
      modifies this`events
      ensures events == Tail(old(events) + es) && |events| <= FEED
    {
      ghost var h := events;
      for i := 0 to |es|
        invariant events == Tail(h + es[..i])
      {
        TailAppend(h + es[..i], es[i]);
        assert h + es[..i] + [es[i]] == h + es[..i+1];
        Add(es[i]);
      }
      assert es[..|es|] == es;
    }

    method StampVetting(ps: seq<Provider>, at: int) returns (met: set<int>)
      modifies this`since
      ensures met == VettingIds(ps)
      ensures since.Keys == old(since.Keys) + met
      ensures forall id :: id in since ==> since[id] == if id in old(since) then old(since)[id] else at
    {
      met := {};
      for i := 0 to |ps|
        invariant met == VettingIds(ps[..i])
        invariant since.Keys == old(since.Keys) + met
        invariant forall id :: id in since ==> since[id] == if id in old(since) then old(since)[id] else at
      {
        assert ps[..i+1] == ps[..i] + [ps[i]];
        if ps[i].status.Vetting? {
          met := met + {ps[i].id};
          if ps[i].id !in since { since := since[ps[i].id := at]; }
        }
      }
      assert ps[..|ps|] == ps;
    }

    method TrackVettingStarts(at: int)
      modifies this`since
      ensures since == Clocks(old(since), snapshot.providers, at)
    {
      if snapshot.providers.None? { return; }
      var met := StampVetting(snapshot.providers.value, at);
      since := since - (since.Keys - met); // delete while ranging over the map
    }

    method AppendProviderEvents(at: int)
      requires |events| <= FEED
      modifies this`events
      ensures events == Tail(old(events) + AllProviderEvents(prev, snapshot, at)) && |events| <= FEED
    {
      ghost var h := events;
      assert h + [] == h;
      if snapshot.providers.None? { return; }
      var ps := snapshot.providers.value;
      for i := 0 to |ps|
        invariant |events| <= FEED
        invariant events == Tail(h + ProviderEvents(prev.providers, ps[..i], at))
      {
        assert ps[..i+1][..i] == ps[..i];
        var es := ProviderEvent(prev.providers, ps[i], at);
        TailTwice(h, ProviderEvents(prev.providers, ps[..i], at), es);
        AddAll(es);
      }
      assert ps[..|ps|] == ps;
    }

    method AppendRepairEvents(at: int)
      requires |events| <= FEED
      modifies this`events
      ensures events == Tail(old(events) + AllRepairEvents(prev, snapshot, at)) && |events| <= FEED
    {
      ghost var h := events;
      assert h + [] == h;
      if snapshot.repairs.None? || prev.repairs.None? { return; }
      var js := snapshot.repairs.value;
      for i := 0 to |js|
        invariant |events| <= FEED
        invariant events == Tail(h + RepairEvents(prev.repairs.value, js[..i], at))
      {
        assert js[..i+1][..i] == js[..i];
        var es := RepairEvent(prev.repairs.value, js[i], at);
        TailTwice(h, RepairEvents(prev.repairs.value, js[..i], at), es);
        AddAll(es);
      }
      assert js[..|js|] == js;
    }

    method AppendDerivedEvents(at: int)
      requires |events| <= FEED
      modifies this`events
      ensures events == Tail(old(events) + Derived(prev, snapshot, at)) && |events| <= FEED
    {
      ghost var h := events;
      ghost var a, b := AllProviderEvents(prev, snapshot, at), AllRepairEvents(prev, snapshot, at);
      var c := AuditEvents(prev.challenges, snapshot.challenges, at);
      AppendProviderEvents(at);
      AppendRepairEvents(at);
      ThreeAppends(h, a, b, c);
      AddAll(c);
    }

    method AddCodes(news: seq<CodeLine>, at: int)
      requires |events| <= FEED
      modifies this`events
      ensures events == Tail(old(events) + CodeEvents(news, at)) && |events| <= FEED
    {
      ghost var h := events;
      assert h + [] == h;
      for i := 0 to |news|
        invariant |events| <= FEED
        invariant events == Tail(h + CodeEvents(news[..i], at))
      {
        assert news[..i+1][..i] == news[..i];
        TailTwice(h, CodeEvents(news[..i], at), [Event(at, CodeSent, Code(news[i]))]);
        Add(Event(at, CodeSent, Code(news[i])));
      }
      assert news[..|news|] == news;
    }

    method AppendOtpEvents(log: seq<CodeLine>, at: int)
      requires |events| <= FEED
      modifies this`events, this`seen
      ensures events == Tail(old(events) + CodeEvents(Unseen(log, old(seen)), at)) && |events| <= FEED
      ensures seen == |log|
    {
      if |log| <= seen {
        assert old(events) + CodeEvents([], at) == old(events);
        if |log| < seen { seen := |log|; }
        return;
      }
      AddCodes(log[seen..], at);
      seen := |log|;
    }

    method CarrySnapshot(c: Cycle)
      modifies this`snapshot, this`prev
      ensures snapshot == Carried(old(snapshot), c) && prev == old(snapshot)
    {
      prev := snapshot;
      var next := snapshot.(at := c.at, errors := c.errors);
      if c.readiness.Some? { next := next.(readiness := c.readiness); }
      if c.providers.Some? { next := next.(providers := c.providers); }
      if c.repairs.Some? { next := next.(repairs := c.repairs); }
      if c.challenges.Some? { next := next.(challenges := c.challenges); }
      if c.vetting.Some? { next := next.(vetting := c.vetting); }
      if c.escrow.Some? { next := next.(escrow := c.escrow); }
      snapshot := next;
    }

    method AppendEvents(c: Cycle)
      requires |events| <= FEED && snapshot == Carried(prev, c)
      modifies this`events, this`seen
      ensures events == Tail(old(events) + CycleEvents(prev, old(seen), c)) && |events| <= FEED
      ensures seen == |c.log|
    {
      ghost var h, d := events, Derived(prev, snapshot, c.at);
      AppendDerivedEvents(c.at);
      TailTwice(h, d, CodeEvents(Unseen(c.log, seen), c.at));
      AppendOtpEvents(c.log, c.at);
    }

    method ApplyFetchResult(c: Cycle)
      requires |events| <= FEED
      modifies this
      ensures State() == Fold(old(State()), c)
      ensures |events| <= FEED
    {
      cycles := cycles + 1;
      CarrySnapshot(c);
      if AnyFetched(c) { haveData := true; }
      AppendEvents(c);
      TrackVettingStarts(c.at);
    }
  }

  // ---------------------------------------------------------------- a run, field by field

  function Snap(cs: seq<Cycle>): Snapshot {
    if cs == [] then Blank() else Carried(Snap(cs[..|cs|-1]), cs[|cs|-1])
  }

  function Since(cs: seq<Cycle>): map<int, int> {
    if cs == [] then map[] else Clocks(Since(cs[..|cs|-1]), Snap(cs).providers, cs[|cs|-1].at)
  }

  function Seen(cs: seq<Cycle>): nat { if cs == [] then 0 else |cs[|cs|-1].log| }

  /** Everything ever announced, without the bound. */
  function History(cs: seq<Cycle>): seq<FeedEntry> {
    if cs == [] then []
    else History(cs[..|cs|-1]) + CycleEvents(Snap(cs[..|cs|-1]), Seen(cs[..|cs|-1]), cs[|cs|-1])
  }

  /** The feed is always the last FEED entries of the unbounded history. */
  lemma {:induction false} FeedIsTail(cs: seq<Cycle>)
    ensures Run(cs).events == Tail(History(cs)) && |Run(cs).events| == Min(20, |History(cs)|)
    ensures Run(cs).cycles == |cs|
    ensures Run(cs).snapshot == Snap(cs) && Run(cs).since == Since(cs) && Run(cs).seen == Seen(cs)
  {
    if cs != [] {
      var n := |cs| - 1;
      FeedIsTail(cs[..n]);
      TailAppendAll(History(cs[..n]), CycleEvents(Snap(cs[..n]), Seen(cs[..n]), cs[n]));
    }
  }

  /** The console says it has data exactly from the first cycle in which some endpoint answered. */
  lemma {:induction false} HaveDataIff(cs: seq<Cycle>)
    ensures Run(cs).haveData <==> exists k :: 0 <= k < |cs| && Answered(cs[k])
  {
    if cs != [] {
      var n := |cs| - 1;
      HaveDataIff(cs[..n]);
      assert forall k :: 0 <= k < n ==> cs[..n][k] == cs[k];
      if Run(cs[..n]).haveData {
        var k :| 0 <= k < n && Answered(cs[..n][k]);
        assert Answered(cs[k]);
      }
    }
  }

  /** Some endpoint answered in this cycle. */
  predicate Answered(c: Cycle) {
    !(c.readiness == None && c.providers == None && c.repairs == None && c.challenges == None && c.vetting == None && c.escrow == None)
  }

  // ---------------------------------------------------------------- snapshots over whole runs

  function Latest<T>(cs: seq<Cycle>, field: Cycle -> Option<T>): Option<T> {
    if cs == [] then None else Carry(field(cs[|cs|-1]), Latest(cs[..|cs|-1], field))
  }

  /** Latest really is the last success: it is some cycle's value and every later cycle failed. */
  lemma {:induction false} LatestIsLast<T>(cs: seq<Cycle>, field: Cycle -> Option<T>) returns (k: int)
    ensures Latest(cs, field).None? ==> k == -1
    ensures Latest(cs, field).Some? ==> 0 <= k < |cs| && field(cs[k]) == Latest(cs, field)
    ensures -1 <= k && forall j :: k < j < |cs| ==> field(cs[j]).None?
  {
    k := |cs| - 1;
    if cs != [] && field(cs[k]).None? { k := LatestIsLast(cs[..|cs|-1], field); }
  }

  function LatestProviders(cs: seq<Cycle>): Option<seq<Provider>> { Latest(cs, (c: Cycle) => c.providers) }

  lemma {:induction false} ProvidersAreLatest(cs: seq<Cycle>)
    ensures Snap(cs).providers == LatestProviders(cs)
  {
    if cs != [] { ProvidersAreLatest(cs[..|cs|-1]); }
  }

  lemma {:induction false} RestIsLatest(cs: seq<Cycle>)
    ensures Snap(cs).readiness == Latest(cs, (c: Cycle) => c.readiness)
    ensures Snap(cs).repairs == Latest(cs, (c: Cycle) => c.repairs)
    ensures Snap(cs).challenges == Latest(cs, (c: Cycle) => c.challenges)
    ensures Snap(cs).vetting == Latest(cs, (c: Cycle) => c.vetting)
    ensures Snap(cs).escrow == Latest(cs, (c: Cycle) => c.escrow)
  {
    if cs != [] { RestIsLatest(cs[..|cs|-1]); }
  }

  /** Every panel shows its own endpoint's latest success, whatever else failed in between. */
  lemma SnapshotIsLatest(cs: seq<Cycle>)
    ensures
      var s := Run(cs).snapshot;
      && s.readiness == Latest(cs, (c: Cycle) => c.readiness)
      && s.providers == LatestProviders(cs)
      && s.repairs == Latest(cs, (c: Cycle) => c.repairs)
      && s.challenges == Latest(cs, (c: Cycle) => c.challenges)
      && s.vetting == Latest(cs, (c: Cycle) => c.vetting)
      && s.escrow == Latest(cs, (c: Cycle) => c.escrow)
  {
    FeedIsTail(cs);
    ProvidersAreLatest(cs);
    RestIsLatest(cs);
  }

  // ---------------------------------------------------------------- vetting clocks over whole runs

  predicate VettingAfter(cs: seq<Cycle>, id: int) {
    LatestProviders(cs).Some? && Provider(id, Vetting) in LatestProviders(cs).value
  }

  /** The unbroken run of cycles that ends now and in which `id` was VETTING began at cycle k. */
  ghost predicate RunBegan(cs: seq<Cycle>, id: int, k: int) {
    && 0 <= k < |cs|
    && (forall j :: k < j <= |cs| ==> VettingAfter(cs[..j], id))
    && !VettingAfter(cs[..k], id)
  }

  lemma {:induction false} ClockStep(cs: seq<Cycle>, id: int)
    requires cs != []
    requires id in Since(cs[..|cs|-1]) <==> VettingAfter(cs[..|cs|-1], id)
    ensures id in Since(cs) <==> VettingAfter(cs, id)
    ensures id in Since(cs) ==>
      Since(cs)[id] == if id in Since(cs[..|cs|-1]) then Since(cs[..|cs|-1])[id] else cs[|cs|-1].at
  {
    ProvidersAreLatest(cs);
    var ps := LatestProviders(cs);
    if ps.Some? {
      assert id in VettingIds(ps.value) <==> Provider(id, Vetting) in ps.value;
    } else {
      assert LatestProviders(cs[..|cs|-1]).None?;
    }
  }

  lemma {:induction false} ClockOf(cs: seq<Cycle>, id: int) returns (k: int)
    ensures id in Since(cs) <==> VettingAfter(cs, id)
    ensures VettingAfter(cs, id) ==> RunBegan(cs, id, k) && Since(cs)[id] == cs[k].at
  {
    k := |cs| - 1;
    if cs != [] {
      var init := cs[..|cs|-1];
      var m := ClockOf(init, id);
      ClockStep(cs, id);
      if VettingAfter(cs, id) {
        assert cs[..|cs|] == cs;
        if VettingAfter(init, id) {
          k := m;
          forall j | k < j <= |cs| ensures VettingAfter(cs[..j], id) {
            if j < |cs| { assert init[..j] == cs[..j]; }
          }
          assert init[..k] == cs[..k];
        }
      }
    }
  }

  /** The keys are the providers VETTING in the carried snapshot; each clock is its run's first cycle. */
  lemma ClocksAreRunStarts(cs: seq<Cycle>, id: int)
    ensures id in Run(cs).since <==> VettingAfter(cs, id)
    ensures VettingAfter(cs, id) ==> exists k :: RunBegan(cs, id, k) && Run(cs).since[id] == cs[k].at
  {
    FeedIsTail(cs);
    var k := ClockOf(cs, id);
  }

  lemma RunStartIsUnique(cs: seq<Cycle>, id: int)
    ensures forall j, k :: RunBegan(cs, id, j) && RunBegan(cs, id, k) ==> j == k
  {
    forall j, k | RunBegan(cs, id, j) && k < j ensures !RunBegan(cs, id, k) {
      assert !VettingAfter(cs[..j], id);
    }
  }

  // ---------------------------------------------------------------- what the derived events tell

  /** StatusOf is the last row with that id. */
  lemma {:induction false} StatusOfIsLast(ps: seq<Provider>, id: int) returns (k: int)
    ensures StatusOf(ps, id).None? <==> forall p <- ps :: p.id != id
    ensures StatusOf(ps, id).Some? ==>
      0 <= k < |ps| && ps[k] == Provider(id, StatusOf(ps, id).value) && forall j :: k < j < |ps| ==> ps[j].id != id
  {
    k := |ps| - 1;
    if ps != [] {
      assert forall p :: p in ps <==> p in ps[..|ps|-1] || p == ps[|ps|-1];
      if ps[k].id != id { k := StatusOfIsLast(ps[..|ps|-1], id); }
    }
  }

  lemma {:induction false} ProviderEventsTell(prev: seq<Provider>, ps: seq<Provider>, at: int, e: FeedEntry)
    ensures e in ProviderEvents(Some(prev), ps, at) <==> exists p <- ps :: e in ProviderEvent(Some(prev), p, at)
  {
    if ps != [] {
      ProviderEventsTell(prev, ps[..|ps|-1], at, e);
      assert forall p :: p in ps <==> p in ps[..|ps|-1] || p == ps[|ps|-1];
    }
  }

  /**
    After two successful provider listings the feed tells of exactly the changes: a provider joined if
    and only if it is listed now and was not before, and moved if and only if its status differs.
   */
  lemma ProviderChangesAreTold(prev: seq<Provider>, ps: seq<Provider>, at: int, id: int, was: Status, now: Status)
    ensures Event(at, StatusTransition, Moved(id, was, now)) in ProviderEvents(Some(prev), ps, at) <==>
              Provider(id, now) in ps && StatusOf(prev, id) == Some(was) && was != now
    ensures Event(at, NodeEntry, Joined(id, now)) in ProviderEvents(Some(prev), ps, at) <==>
              Provider(id, now) in ps && forall p <- prev :: p.id != id
  {
    var moved, joined := Event(at, StatusTransition, Moved(id, was, now)), Event(at, NodeEntry, Joined(id, now));
    ProviderEventsTell(prev, ps, at, moved);
    ProviderEventsTell(prev, ps, at, joined);
    var k := StatusOfIsLast(prev, id);
    var p := Provider(id, now);
    assert moved in ProviderEvent(Some(prev), p, at) <==> StatusOf(prev, id) == Some(was) && was != now;
    assert joined in ProviderEvent(Some(prev), p, at) <==> StatusOf(prev, id).None?;
    assert forall q :: moved in ProviderEvent(Some(prev), q, at) || joined in ProviderEvent(Some(prev), q, at) ==> q == p;
  }

  lemma {:induction false} JobStatusOfIsLast(js: seq<RepairJob>, id: int) returns (k: int)
    ensures JobStatusOf(js, id).None? <==> forall j <- js :: j.id != id
    ensures JobStatusOf(js, id).Some? ==>
      0 <= k < |js| && js[k] == RepairJob(id, JobStatusOf(js, id).value) && forall i :: k < i < |js| ==> js[i].id != id
  {
    k := |js| - 1;
    if js != [] {
      assert forall j :: j in js <==> j in js[..|js|-1] || j == js[|js|-1];
      if js[k].id != id { k := JobStatusOfIsLast(js[..|js|-1], id); }
    }
  }

  lemma {:induction false} RepairEventsTell(prev: seq<RepairJob>, js: seq<RepairJob>, at: int, e: FeedEntry)
    ensures e in RepairEvents(prev, js, at) <==> exists j <- js :: e in RepairEvent(prev, j, at)
  {
    if js != [] {
      RepairEventsTell(prev, js[..|js|-1], at, e);
      assert forall j :: j in js <==> j in js[..|js|-1] || j == js[|js|-1];
    }
  }

  /** The feed tells of a repair job exactly when its status differs from the last listing's, before and after in that order. */
  lemma RepairChangesAreTold(prev: seq<RepairJob>, js: seq<RepairJob>, at: int, id: int, was: string, now: string)
    ensures Event(at, RepairProgress, JobMoved(id, was, now)) in RepairEvents(prev, js, at) <==>
              RepairJob(id, now) in js && JobStatusOf(prev, id) == Some(was) && was != now
    ensures JobStatusOf(prev, id) == Some(was) ==> RepairJob(id, was) in prev
  {
    var e, j := Event(at, RepairProgress, JobMoved(id, was, now)), RepairJob(id, now);
    RepairEventsTell(prev, js, at, e);
    var k := JobStatusOfIsLast(prev, id);
    assert e in RepairEvent(prev, j, at) <==> JobStatusOf(prev, id) == Some(was) && was != now;
    assert forall i :: e in RepairEvent(prev, i, at) ==> i == j;
  }

  /** New challenges are told exactly when the total grew between two known totals, and by how much. */
  lemma AuditActivityIsTold(prev: Option<int>, now: Option<int>, at: int, e: FeedEntry)
    ensures e in AuditEvents(prev, now, at) <==>
      prev.Some? && now.Some? && now.value > prev.value && e == Event(at, AuditActivity, NewChallenges(now.value - prev.value))
  {
  }

  // ---------------------------------------------------------------- announce once

  function CodesIn(es: seq<FeedEntry>): seq<CodeLine> {
    if es == [] then []
    else CodesIn(es[..|es|-1]) + (if es[|es|-1].message.Code? then [es[|es|-1].message.line] else [])
  }

  lemma {:induction false} CodesConcat(a: seq<FeedEntry>, b: seq<FeedEntry>)
    ensures CodesIn(a + b) == CodesIn(a) + CodesIn(b)
  {
    if b == [] {
      assert a + b == a;
    } else {
      assert (a + b)[..|a + b|-1] == a + b[..|b|-1];
      CodesConcat(a, b[..|b|-1]);
    }
  }

  lemma {:induction false} NoCodes(es: seq<FeedEntry>)
    requires forall e <- es :: !e.message.Code?
    ensures CodesIn(es) == []
  {
    if es != [] { NoCodes(es[..|es|-1]); }
  }

  lemma {:induction false} ProvidersAnnounceNoCode(prev: Option<seq<Provider>>, ps: seq<Provider>, at: int)
    ensures forall e <- ProviderEvents(prev, ps, at) :: !e.message.Code?
  {
    if ps != [] { ProvidersAnnounceNoCode(prev, ps[..|ps|-1], at); }
  }

  lemma {:induction false} RepairsAnnounceNoCode(prev: seq<RepairJob>, js: seq<RepairJob>, at: int)
    ensures forall e <- RepairEvents(prev, js, at) :: !e.message.Code?
  {
    if js != [] { RepairsAnnounceNoCode(prev, js[..|js|-1], at); }
  }

  lemma DerivedHasNoCodes(prev: Snapshot, s: Snapshot, at: int)
    ensures CodesIn(Derived(prev, s, at)) == []
  {
    if s.providers.Some? { ProvidersAnnounceNoCode(prev.providers, s.providers.value, at); }
    if s.repairs.Some? && prev.repairs.Some? { RepairsAnnounceNoCode(prev.repairs.value, s.repairs.value, at); }
    NoCodes(Derived(prev, s, at));
  }

  lemma {:induction false} CodesOfCodeEvents(ls: seq<CodeLine>, at: int)
    ensures CodesIn(CodeEvents(ls, at)) == ls
  {
    if ls != [] {
      var n := |ls| - 1;
      CodesOfCodeEvents(ls[..n], at);
      assert CodeEvents(ls, at)[..|CodeEvents(ls, at)|-1] == CodeEvents(ls[..n], at);
    }
  }

  function Logs(cs: seq<Cycle>): seq<seq<CodeLine>> {
    if cs == [] then [] else Logs(cs[..|cs|-1]) + [cs[|cs|-1].log]
  }

  lemma {:induction false} LogsLength(cs: seq<Cycle>)
    ensures |Logs(cs)| == |cs|
  {
    if cs != [] { LogsLength(cs[..|cs|-1]); }
  }

  /** A cycle announces the unseen lines and no other code. */
  lemma CycleCodes(s: Snapshot, seen: nat, c: Cycle)
    ensures CodesIn(CycleEvents(s, seen, c)) == Unseen(c.log, seen)
  {
    DerivedHasNoCodes(s, Carried(s, c), c.at);
    CodesOfCodeEvents(Unseen(c.log, seen), c.at);
    CodesConcat(Derived(s, Carried(s, c), c.at), CodeEvents(Unseen(c.log, seen), c.at));
  }

  lemma {:induction false} AnnouncedStep(cs: seq<Cycle>)
    requires cs != []
    ensures Announced(Logs(cs)) == Announced(Logs(cs[..|cs|-1])) + Unseen(cs[|cs|-1].log, Seen(cs[..|cs|-1]))
  {
    var n := |cs| - 1;
    LogsLength(cs);
    LogsLength(cs[..n]);
    assert Logs(cs)[..n] == Logs(cs[..n]);
    if n > 0 { assert Logs(cs)[n-1] == Logs(cs[..n])[n-1] == cs[n-1].log; }
  }

  /** The code events in the history are the announced lines, in order. */
  lemma {:induction false} HistoryAnnounces(cs: seq<Cycle>)
    ensures CodesIn(History(cs)) == Announced(Logs(cs))
  {
    if cs != [] {
      var n := |cs| - 1;
      HistoryAnnounces(cs[..n]);
      AnnouncedStep(cs);
      CycleCodes(Snap(cs[..n]), Seen(cs[..n]), cs[n]);
      CodesConcat(History(cs[..n]), CycleEvents(Snap(cs[..n]), Seen(cs[..n]), cs[n]));
    }
  }

  /** When every read gives some first part of the log, each line reaches the history once and in order, unless a read dips. */
  lemma ConsoleAnnouncesOnce(cs: seq<Cycle>, full: seq<CodeLine>)
    requires PrefixesOf(Logs(cs), full)
    ensures CodesIn(History(cs)) == Longest(Logs(cs)) <==> !Dip(Logs(cs))
  {
    HistoryAnnounces(cs);
    AnnouncedOnceIffNoDip(Logs(cs), full);
  }
}
