/**
  The resizable background semaphore: a buffered channel behind an atomic pointer. A resize
  publishes a fresh channel; holders of an older one release into the channel they acquired from.
  One step is one atomic action of one goroutine, a run is any interleaving.
 */
module BackgroundSemaphore {
  import opened Prelude

  const MAX_SIZE := 8
  const MIN_SIZE := 1
  const HIGH_WATER := 50
  const LOW_WATER := 30

  /** One channel: its capacity and how many tokens sit in it. */
  datatype Generation = Generation(capacity: int, occupancy: int)

  datatype Client = Idle | Loaded(g: nat) | Holding(g: nat)

  /** The last generation is the published one; `limit` is the throttle loop's own counter. */
  datatype State = State(generations: seq<Generation>, limit: int, clients: map<int, Client>)

  datatype Step =
    | Load(c: int)
    | Acquire(c: int)
    | Cancel(c: int)
    | Release(c: int)
    | Sample(p99: Option<int>)     // milliseconds; None is a failed probe

  function ClientOf(s: State, c: int): Client { if c in s.clients then s.clients[c] else Idle }

  predicate Enabled(s: State, t: Step) {
    match t
    case Load(c) => ClientOf(s, c).Idle? && s.generations != []
    case Acquire(c) =>
      var k := ClientOf(s, c);
      k.Loaded? && k.g < |s.generations| && s.generations[k.g].occupancy < s.generations[k.g].capacity
    case Cancel(c) => ClientOf(s, c).Loaded?
    case Release(c) =>
      var k := ClientOf(s, c);
      k.Holding? && k.g < |s.generations| && s.generations[k.g].occupancy > 0
    case Sample(_) => true
  }

  function Resized(s: State, size: int): State {
    s.(limit := size, generations := s.generations + [Generation(size, 0)])
  }

  function Do(s: State, t: Step): State
    requires Enabled(s, t)
  {
    match t
    case Load(c) => s.(clients := s.clients[c := Loaded(|s.generations| - 1)])
    case Acquire(c) =>
      var g := s.clients[c].g;
      var gen := s.generations[g];
      s.(clients := s.clients[c := Holding(g)],
         generations := s.generations[g := gen.(occupancy := gen.occupancy + 1)])
    case Cancel(c) => s.(clients := s.clients[c := Idle])
    case Release(c) =>
      var g := s.clients[c].g;
      var gen := s.generations[g];
      s.(clients := s.clients[c := Idle],
         generations := s.generations[g := gen.(occupancy := gen.occupancy - 1)])
    case Sample(None) => s
    case Sample(Some(p99)) =>
      if p99 >= HIGH_WATER && s.limit > MIN_SIZE then Resized(s, s.limit - 1)
      else if p99 < LOW_WATER && s.limit < MAX_SIZE then Resized(s, s.limit + 1)
      else s
  }

  const INITIAL := State([Generation(MAX_SIZE, 0)], MAX_SIZE, map[])

  function Holders(s: State, g: nat): set<int> { set c | c in s.clients && s.clients[c] == Holding(g) }

  /** Holders that acquired from a generation other than the published one. */
  function Stragglers(s: State): set<int> {
    set c | c in s.clients && s.clients[c].Holding? && s.clients[c].g != |s.generations| - 1
  }

  function InFlight(s: State): set<int> { set c | c in s.clients && s.clients[c].Holding? }

  ghost predicate Inv(s: State) {
    && s.generations != []
    && s.limit == s.generations[|s.generations| - 1].capacity
    && (forall g :: 0 <= g < |s.generations| ==>
          && MIN_SIZE <= s.generations[g].capacity <= MAX_SIZE
          && s.generations[g].occupancy == |Holders(s, g)| <= s.generations[g].capacity)
    && (forall c :: c in s.clients && !s.clients[c].Idle? ==> s.clients[c].g < |s.generations|)
  }

  lemma AcquireKeepsInv(s: State, c: int)
    requires Inv(s) && Enabled(s, Acquire(c))
    ensures Inv(Do(s, Acquire(c)))
  {
    var g, s' := s.clients[c].g, Do(s, Acquire(c));
    assert Holders(s', g) == Holders(s, g) + {c};
    forall k: nat | k != g ensures Holders(s', k) == Holders(s, k) {}
  }

  lemma ReleaseKeepsInv(s: State, c: int)
    requires Inv(s) && Enabled(s, Release(c))
    ensures Inv(Do(s, Release(c)))
  {
    var g, s' := s.clients[c].g, Do(s, Release(c));
    assert Holders(s', g) == Holders(s, g) - {c};
    forall k: nat | k != g ensures Holders(s', k) == Holders(s, k) {}
  }

  lemma StepKeepsInv(s: State, t: Step)
    requires Inv(s) && Enabled(s, t)
    ensures Inv(Do(s, t))
  {
    var s' := Do(s, t);
    match t {
      case Acquire(c) => AcquireKeepsInv(s, c);
      case Release(c) => ReleaseKeepsInv(s, c);
      case Load(c) => forall k: nat ensures Holders(s', k) == Holders(s, k) {}
      case Cancel(c) => forall k: nat ensures Holders(s', k) == Holders(s, k) {}
      case Sample(_) =>
        forall k: nat ensures Holders(s', k) == Holders(s, k) {}
        assert forall c :: c in s.clients ==> s.clients[c] != Holding(|s.generations|);
        assert Holders(s, |s.generations|) == {};
    }
  }

  predicate Runs(s: State, ts: seq<Step>)
    decreases |ts|
  {
    ts == [] || (Enabled(s, ts[0]) && Runs(Do(s, ts[0]), ts[1..]))
  }

  function After(s: State, ts: seq<Step>): State
    requires Runs(s, ts)
    decreases |ts|
  {
    if ts == [] then s else After(Do(s, ts[0]), ts[1..])
  }

  lemma {:induction false} RunKeepsInv(s: State, ts: seq<Step>)
    requires Inv(s) && Runs(s, ts)
    ensures Inv(After(s, ts))
    decreases |ts|
  {
    if ts != [] {
      StepKeepsInv(s, ts[0]);
      RunKeepsInv(Do(s, ts[0]), ts[1..]);
    }
  }

  /**
    After every interleaving: each channel holds one token per live holder and never more than its
    capacity, the published capacity is the throttle loop's counter and lies in [1, 8], no release
    ever blocks, and the work in flight exceeds the published capacity by at most the stragglers.
   */
  lemma SemaphoreSafety(ts: seq<Step>)
    requires Runs(INITIAL, ts)
    ensures var s := After(INITIAL, ts);
      && s.generations != []
      && (forall g :: 0 <= g < |s.generations| ==> s.generations[g].occupancy == |Holders(s, g)| <= s.generations[g].capacity)
      && MIN_SIZE <= s.limit == s.generations[|s.generations| - 1].capacity <= MAX_SIZE
      && (forall c :: ClientOf(s, c).Holding? ==> Enabled(s, Release(c)))
      && |InFlight(s)| == s.generations[|s.generations| - 1].occupancy + |Stragglers(s)| <= s.limit + |Stragglers(s)|
  {
    assert Holders(INITIAL, 0) == {};
    RunKeepsInv(INITIAL, ts);
    var s := After(INITIAL, ts);
    var last := |s.generations| - 1;
    assert InFlight(s) == Holders(s, last) + Stragglers(s);
    forall c | ClientOf(s, c).Holding? ensures Enabled(s, Release(c)) {
      assert c in Holders(s, s.clients[c].g);
      assert s.generations[s.clients[c].g].occupancy == |Holders(s, s.clients[c].g)|;
    }
  }

  predicate Probed(t: Step) { t.Sample? && t.p99.Some? }

  function Probes(ts: seq<Step>): nat { if ts == [] then 0 else (if Probed(ts[0]) then 1 else 0) + Probes(ts[1..]) }

  /**
    Whatever else runs in between, k slow samples lower the limit by k down to the minimum, and k fast
    ones restore it by k up to the maximum.
   */
  lemma {:induction false} ThrottleFollowsLoad(s: State, ts: seq<Step>)
    requires Runs(s, ts) && MIN_SIZE <= s.limit <= MAX_SIZE
    ensures (forall t <- ts :: Probed(t) ==> t.p99.value >= HIGH_WATER) ==> After(s, ts).limit == Max(MIN_SIZE, s.limit - Probes(ts))
    ensures (forall t <- ts :: Probed(t) ==> t.p99.value < LOW_WATER) ==> After(s, ts).limit == Min(MAX_SIZE, s.limit + Probes(ts))
    decreases |ts|
  {
    if ts != [] {
      assert ts[0] in ts;
      ThrottleFollowsLoad(Do(s, ts[0]), ts[1..]);
      assert forall t <- ts[1..] :: t in ts;
    }
  }

  /** A step of one loop: it loads the published channel, takes or returns its one token, or gives up, and disturbs no other loop. */
  lemma ClientStep(s: State, c: int, t: Step)
    requires Inv(s) && Enabled(s, t) && t in {Load(c), Acquire(c), Cancel(c), Release(c)}
    ensures
      var s', was := Do(s, t), ClientOf(s, c);
      var now := ClientOf(s', c);
      && s'.limit == s.limit && |s'.generations| == |s.generations|
      && (forall d :: d != c ==> ClientOf(s', d) == ClientOf(s, d))
      && (t == Load(c) ==> was == Idle && now == Loaded(|s.generations| - 1) && s'.generations == s.generations)
      && (t == Cancel(c) ==> was.Loaded? && now == Idle && s'.generations == s.generations)
      && (t == Acquire(c) ==> was.Loaded? && now == Holding(was.g) && s'.generations[was.g].occupancy == s.generations[was.g].occupancy + 1)
      && (t == Release(c) ==> was.Holding? && now == Idle && s'.generations[was.g].occupancy == s.generations[was.g].occupancy - 1)
      && forall g :: 0 <= g < |s.generations| && (was.Idle? || g != was.g) ==> s'.generations[g] == s.generations[g]
  {
  }

  /** One sample moves the limit by at most one: down only at 50 ms or more, up only below 30 ms. */
  lemma SampleMoves(s: State, t: Step)
    requires Inv(s) && Enabled(s, t) && t.Sample?
    ensures
      var s' := Do(s, t);
      && (s'.limit < s.limit <==> t.p99.Some? && t.p99.value >= 50 && s.limit > 1)
      && (s'.limit > s.limit <==> t.p99.Some? && t.p99.value < 30 && s.limit < 8)
      && -1 <= s'.limit - s.limit <= 1
      && (s'.limit == s.limit <==> s' == s)
      && s'.clients == s.clients && s.generations <= s'.generations
  {
  }

  /** Between the marks nothing moves: over every run without a decisive sample no channel is replaced. */
  lemma {:induction false} BandHolds(s: State, ts: seq<Step>)
    requires Runs(s, ts) && Inv(s)
    requires forall t <- ts :: t.Sample? && t.p99.Some? ==> 30 <= t.p99.value < 50
    ensures After(s, ts).limit == s.limit && |After(s, ts).generations| == |s.generations|
    decreases |ts|
  {
    if ts != [] {
      assert ts[0] in ts;
      StepKeepsInv(s, ts[0]);
      BandHolds(Do(s, ts[0]), ts[1..]);
    }
  }

  /**
    The throttle limits admissions, not work in flight: whenever the published channel is full and
    a slow sample arrives, an idle loop is still admitted and more work runs than either limit.
   */
  lemma ReducingAdmitsMore(s: State, c: int, p99: int)
    requires Inv(s) && s.limit > MIN_SIZE && p99 >= HIGH_WATER && ClientOf(s, c).Idle?
    requires s.generations[|s.generations| - 1].occupancy == s.limit
    ensures Runs(s, [Sample(Some(p99)), Load(c), Acquire(c)])
    ensures |InFlight(After(s, [Sample(Some(p99)), Load(c), Acquire(c)]))| > s.limit
  {
    var ts := [Sample(Some(p99)), Load(c), Acquire(c)];
    var s1 := Do(s, ts[0]);
    var s2 := Do(s1, Load(c));
    ThreeSteps(s, ts[0], Load(c), Acquire(c));
    AdmittedOnTop(s, Do(s2, Acquire(c)), c);
  }

  lemma ThreeSteps(s: State, a: Step, b: Step, c: Step)
    ensures Runs(s, [a, b, c]) <==> Enabled(s, a) && Enabled(Do(s, a), b) && Enabled(Do(Do(s, a), b), c)
    ensures Runs(s, [a, b, c]) ==> After(s, [a, b, c]) == Do(Do(Do(s, a), b), c)
  {
    assert [a, b, c] == [a] + [b, c] && [b, c] == [b] + [c] && [c] == [c] + [];
    OneStep(s, a, [b, c]);
    if Enabled(s, a) {
      OneStep(Do(s, a), b, [c]);
      if Enabled(Do(s, a), b) { OneStep(Do(Do(s, a), b), c, []); }
    }
  }

  lemma OneStep(s: State, a: Step, rest: seq<Step>)
    ensures Runs(s, [a] + rest) <==> Enabled(s, a) && Runs(Do(s, a), rest)
    ensures Runs(s, [a] + rest) ==> After(s, [a] + rest) == After(Do(s, a), rest)
  {
    assert ([a] + rest)[1..] == rest;
  }

  lemma AdmittedOnTop(s: State, t: State, c: int)
    requires Inv(s) && s.generations[|s.generations| - 1].occupancy == s.limit
    requires c !in InFlight(s) && InFlight(t) == InFlight(s) + {c}
    ensures |InFlight(t)| > s.limit
  {
    var last := |s.generations| - 1;
    assert InFlight(s) == Holders(s, last) + Stragglers(s) && Holders(s, last) !! Stragglers(s);
  }
}
