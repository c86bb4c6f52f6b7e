/**
  The repair_jobs table under EnqueueJob, DequeueNextJob, PromoteStalePreWarningJobs and
  MarkJobComplete, with its CHECK constraints and the partial unique index. Each operation is one
  transaction; `now` is the database clock, which does not run backwards.
 */
module RepairQueue {
  import opened Prelude
  import opened RepairPaging

  datatype Trigger = SilentDeparture | AnnouncedDeparture | ThresholdWarning | EmergencyFloor

  datatype Status = Queued | InProgress | Done | Failed

  datatype Job = Job(
    chunk: int, provider: Option<int>, trigger: Trigger, priority: Priority, status: Status,
    createdAt: int, startedAt: Option<int>, completedAt: Option<int>)

  datatype Queue = Queue(jobs: map<int, Job>, now: int)

  datatype Profile = Profile(dataShards: int, totalShards: int, promotionTimeout: nat)

  function PriorityFor(t: Trigger): Priority {
    match t
    case EmergencyFloor => Emergency
    case SilentDeparture => PermanentDeparture
    case AnnouncedDeparture => PermanentDeparture
    case ThresholdWarning => PreWarning
  }

  // ---------------------------------------------------------------- constraints

  predicate Paired(j: Job) {
    || (j.trigger == EmergencyFloor && j.priority == Emergency)
    || (j.trigger in {SilentDeparture, AnnouncedDeparture} && j.priority == PermanentDeparture)
    || (j.trigger == ThresholdWarning && j.priority in {PreWarning, PermanentDeparture})
  }

  predicate Checks(j: Job) { Paired(j) && (j.completedAt.None? || j.startedAt.Some?) }

  predicate Live(j: Job) { j.status in {Queued, InProgress} }

  /** Rows the partial unique index covers, with equal keys. */
  predicate Clash(a: Job, b: Job) {
    Live(a) && Live(b) && a.provider.None? && b.provider.None? && a.chunk == b.chunk && a.trigger == b.trigger
  }

  // ---------------------------------------------------------------- operations

  datatype Op =
    | Enqueue(id: int, chunk: int, provider: Option<int>, trigger: Trigger, shardCount: int, at: int)
    | Dequeue(id: int, at: int)
    | Promote(at: int)
    | Complete(id: int, success: bool, at: int)

  function Fresh(op: Op): Job
    requires op.Enqueue?
  {
    Job(op.chunk, op.provider, op.trigger, PriorityFor(op.trigger), Queued, op.at, None, None)
  }

  /** ORDER BY priority ASC, created_at ASC. */
  predicate NoLater(a: Job, b: Job) {
    Rank(a.priority) < Rank(b.priority) || (a.priority == b.priority && a.createdAt <= b.createdAt)
  }

  /** What the operation may do from here; an equal (priority, created_at) pair may go either way. */
  predicate Possible(q: Queue, op: Op) {
    && op.at >= q.now
    && match op
       case Enqueue(id, _, _, _, _, _) => id !in q.jobs
       case Dequeue(id, _) =>
         id in q.jobs && q.jobs[id].status == Queued
         && forall k :: k in q.jobs && q.jobs[k].status == Queued ==> NoLater(q.jobs[id], q.jobs[k])
       case Promote(_) => true
       case Complete(id, _, _) => id in q.jobs
  }

  predicate Stale(j: Job, p: Profile, at: int) {
    j.priority == PreWarning && j.status == Queued && j.createdAt < at - p.promotionTimeout
  }

  function Apply(p: Profile, q: Queue, op: Op): Queue
    requires Possible(q, op)
  {
    match op
    case Enqueue(id, _, _, _, count, at) =>
      if !(p.dataShards <= count <= p.totalShards) then q.(now := at)
      else if exists k :: k in q.jobs && Clash(q.jobs[k], Fresh(op)) then q.(now := at)
      else Queue(q.jobs[id := Fresh(op)], at)
    case Dequeue(id, at) => Queue(q.jobs[id := q.jobs[id].(status := InProgress, startedAt := Some(at))], at)
    case Promote(at) =>
      Queue(map k | k in q.jobs :: if Stale(q.jobs[k], p, at) then q.jobs[k].(priority := PermanentDeparture) else q.jobs[k], at)
    case Complete(id, success, at) =>
      var j := q.jobs[id].(status := if success then Done else Failed, completedAt := Some(at));
      if Checks(j) then Queue(q.jobs[id := j], at) else q.(now := at)
  }

  // ---------------------------------------------------------------- what every run keeps

  ghost predicate Inv(q: Queue) {
    && (forall k :: k in q.jobs ==> Checks(q.jobs[k]) && q.jobs[k].createdAt <= q.now)
    && (forall i, j :: i in q.jobs && j in q.jobs && i != j ==> !Clash(q.jobs[i], q.jobs[j]))
  }

  lemma StepKeepsInv(p: Profile, q: Queue, op: Op)
    requires Inv(q) && Possible(q, op)
    ensures Inv(Apply(p, q, op))
  {
    var q' := Apply(p, q, op);
    match op {
      case Promote(at) =>
        forall i, j | i in q'.jobs && j in q'.jobs && i != j ensures !Clash(q'.jobs[i], q'.jobs[j]) {
          assert !Clash(q.jobs[i], q.jobs[j]);
        }
      case Enqueue(id, _, _, _, _, _) =>
        if id in q'.jobs {
          assert forall k :: k in q.jobs ==> !Clash(q.jobs[k], Fresh(op)) && !Clash(Fresh(op), q.jobs[k]);
        }
      case Dequeue(id, _) =>
        forall k | k in q.jobs && k != id ensures !Clash(q'.jobs[id], q'.jobs[k]) && !Clash(q'.jobs[k], q'.jobs[id]) {
          assert !Clash(q.jobs[id], q.jobs[k]) && !Clash(q.jobs[k], q.jobs[id]);
        }
      case Complete(_, _, _) =>
    }
  }

  predicate Runs(p: Profile, q: Queue, ops: seq<Op>)
    decreases |ops|
  {
    ops == [] || (Possible(q, ops[0]) && Runs(p, Apply(p, q, ops[0]), ops[1..]))
  }

  function After(p: Profile, q: Queue, ops: seq<Op>): Queue
    requires Runs(p, q, ops)
    decreases |ops|
  {
    if ops == [] then q else After(p, Apply(p, q, ops[0]), ops[1..])
  }

  /**
    Every run keeps the priority/trigger pairing, completion after start, and at most one live
    threshold job per chunk and trigger.
   */
  lemma {:induction false} RunKeepsInv(p: Profile, q: Queue, ops: seq<Op>)
    requires Inv(q) && Runs(p, q, ops)
    ensures Inv(After(p, q, ops))
    ensures
      var jobs := After(p, q, ops).jobs;
      forall k :: k in jobs ==>
        && (jobs[k].trigger == EmergencyFloor <==> jobs[k].priority == Emergency)
        && (jobs[k].priority == PreWarning ==> jobs[k].trigger == ThresholdWarning)
    ensures
      var jobs := After(p, q, ops).jobs;
      forall i, j :: i in jobs && j in jobs && jobs[i].status in {Queued, InProgress} && jobs[j].status in {Queued, InProgress}
        && jobs[i].provider.None? && jobs[j].provider.None? && jobs[i].chunk == jobs[j].chunk && jobs[i].trigger == jobs[j].trigger
        ==> i == j
    decreases |ops|
  {
    if ops != [] {
      StepKeepsInv(p, q, ops[0]);
      RunKeepsInv(p, Apply(p, q, ops[0]), ops[1..]);
    }
  }

  /** Job k is a live one without a provider for this chunk and trigger. */
  predicate HoldsKey(q: Queue, k: int, chunk: int, trigger: Trigger) {
    && k in q.jobs && q.jobs[k].status in {Queued, InProgress}
    && q.jobs[k].provider.None? && q.jobs[k].chunk == chunk && q.jobs[k].trigger == trigger
  }

  /** A job enters queued, in the tier of its trigger, unless its shard count is out of range or a live threshold job holds its key. */
  lemma EnqueueOutcome(p: Profile, q: Queue, op: Op)
    requires Inv(q) && op.Enqueue? && op.at >= q.now
    ensures Possible(q, op) <==> op.id !in q.jobs
    ensures op.id !in q.jobs ==>
      var q' := Apply(p, q, op);
      var held := op.provider.None? && exists k :: HoldsKey(q, k, op.chunk, op.trigger);
      && q'.now == op.at
      && (op.id in q'.jobs <==> p.dataShards <= op.shardCount <= p.totalShards && !held)
      && (forall k :: k in q.jobs ==> k in q'.jobs && q'.jobs[k] == q.jobs[k])
      && (op.id in q'.jobs ==>
            && q'.jobs == q.jobs[op.id := q'.jobs[op.id]]
            && var j := q'.jobs[op.id];
            && (j.priority == PreWarning <==> op.trigger == ThresholdWarning)
            && (j.priority == Emergency <==> op.trigger == EmergencyFloor)
            && j == Job(op.chunk, op.provider, op.trigger, j.priority, Queued, op.at, None, None))
  {
    if op.provider.None? {
      forall k ensures HoldsKey(q, k, op.chunk, op.trigger) <==> k in q.jobs && Clash(q.jobs[k], Fresh(op)) {}
    }
  }

  /** What is served next is a queued job no other queued one comes before; it is marked started now and nothing else changes. */
  lemma DequeueOutcome(p: Profile, q: Queue, id: int, at: int)
    ensures Possible(q, Dequeue(id, at)) <==>
      && at >= q.now && id in q.jobs && q.jobs[id].status == Queued
      && forall k :: k in q.jobs && q.jobs[k].status == Queued ==>
           Rank(q.jobs[id].priority) < Rank(q.jobs[k].priority)
           || (q.jobs[id].priority == q.jobs[k].priority && q.jobs[id].createdAt <= q.jobs[k].createdAt)
    ensures Possible(q, Dequeue(id, at)) ==>
      Apply(p, q, Dequeue(id, at)) == Queue(q.jobs[id := q.jobs[id].(status := InProgress, startedAt := Some(at))], at)
  {
  }

  /** A tick, at any time, raises exactly the queued warnings older than the timeout, and changes nothing else. */
  lemma PromoteOutcome(p: Profile, q: Queue, at: int, k: int)
    requires at >= q.now && k in q.jobs
    ensures Possible(q, Promote(at))
    ensures
      var j, q' := q.jobs[k], Apply(p, q, Promote(at));
      && q'.now == at && q'.jobs.Keys == q.jobs.Keys
      && q'.jobs[k] == j.(priority := q'.jobs[k].priority)
      && (q'.jobs[k].priority != j.priority <==> j.priority == PreWarning && j.status == Queued && at - j.createdAt > p.promotionTimeout)
      && (q'.jobs[k].priority != j.priority ==> q'.jobs[k].priority == PermanentDeparture)
  {
  }

  /** A job that was started is closed once and for all as what the repair said; one that never was stays. */
  lemma CompleteOutcome(p: Profile, q: Queue, id: int, success: bool, at: int)
    requires Inv(q) && at >= q.now && id in q.jobs
    ensures Possible(q, Complete(id, success, at))
    ensures
      var j, q' := q.jobs[id], Apply(p, q, Complete(id, success, at));
      && q'.now == at && q'.jobs.Keys == q.jobs.Keys
      && (forall k :: k in q.jobs && k != id ==> q'.jobs[k] == q.jobs[k])
      && (j.startedAt.None? ==> q'.jobs[id] == j)
      && (j.startedAt.Some? ==>
            && (q'.jobs[id].status == Done <==> success) && (q'.jobs[id].status == Failed <==> !success)
            && q'.jobs[id].completedAt == Some(at) && !Live(q'.jobs[id])
            && q'.jobs[id].(status := j.status, completedAt := j.completedAt) == j)
  {
    assert Checks(q.jobs[id]);
  }

  // ---------------------------------------------------------------- overtaking

  /** A queued job in the departure tier or better, created before the current instant. */
  predicate WaitsPromoted(q: Queue, j: int) {
    j in q.jobs && q.jobs[j].status == Queued && q.jobs[j].priority != PreWarning && q.jobs[j].createdAt < q.now
  }

  /** The only jobs that may be served before j without being emergencies. */
  function Ahead(q: Queue, j: int): set<int>
    requires j in q.jobs
  {
    set k | k in q.jobs && k != j && q.jobs[k].status == Queued && q.jobs[k].createdAt <= q.jobs[j].createdAt
  }

  predicate NonEmergencyDequeue(q: Queue, op: Op) {
    op.Dequeue? && op.id in q.jobs && q.jobs[op.id].priority != Emergency
  }

  function Overtakes(p: Profile, q: Queue, ops: seq<Op>): nat
    requires Runs(p, q, ops)
    decreases |ops|
  {
    if ops == [] then 0
    else (if NonEmergencyDequeue(q, ops[0]) then 1 else 0) + Overtakes(p, Apply(p, q, ops[0]), ops[1..])
  }

  predicate StillQueued(q: Queue, j: int) { j in q.jobs && q.jobs[j].status == Queued }

  /** Whatever is dequeued while a promoted job waits is an emergency or was created no later. */
  lemma DequeuedAheadOf(q: Queue, j: int, op: Op)
    requires WaitsPromoted(q, j) && op.Dequeue? && Possible(q, op) && op.id != j
    ensures q.jobs[op.id].priority == Emergency || op.id in Ahead(q, j)
  {
    assert NoLater(q.jobs[op.id], q.jobs[j]);
  }

  lemma AheadShrinks(p: Profile, q: Queue, j: int, op: Op)
    requires Inv(q) && WaitsPromoted(q, j) && Possible(q, op) && StillQueued(Apply(p, q, op), j)
    ensures WaitsPromoted(Apply(p, q, op), j)
    ensures Ahead(Apply(p, q, op), j) <= Ahead(q, j)
    ensures NonEmergencyDequeue(q, op) ==> op.id in Ahead(q, j) && op.id !in Ahead(Apply(p, q, op), j)
  {
    if op.Dequeue? {
      assert op.id != j;
      DequeuedAheadOf(q, j, op);
    }
  }

  /** Nothing leaves and re-enters the queue: a job once taken is never queued again. */
  lemma {:induction false} StaysQueuedBackwards(p: Profile, q: Queue, ops: seq<Op>, j: int)
    requires Runs(p, q, ops) && j in q.jobs && StillQueued(After(p, q, ops), j)
    ensures StillQueued(q, j)
    decreases |ops|
  {
    if ops != [] {
      assert j in Apply(p, q, ops[0]).jobs;
      StaysQueuedBackwards(p, Apply(p, q, ops[0]), ops[1..], j);
    }
  }

  /**
    Once promoted, a job waits behind at most the jobs then ahead of it, however many are enqueued
    later: the non-emergency dequeues of any run in which it is still queued number at most
    |Ahead| at the start, less what is still ahead at the end.
   */
  lemma {:induction false} PromotedWaitIsBounded(p: Profile, q: Queue, ops: seq<Op>, j: int)
    requires Inv(q) && WaitsPromoted(q, j) && Runs(p, q, ops) && StillQueued(After(p, q, ops), j)
    ensures WaitsPromoted(After(p, q, ops), j)
    ensures Overtakes(p, q, ops) + |Ahead(After(p, q, ops), j)| <= |Ahead(q, j)|
    decreases |ops|
  {
    if ops != [] {
      var q' := Apply(p, q, ops[0]);
      StaysQueuedBackwards(p, q', ops[1..], j);
      AheadShrinks(p, q, j, ops[0]);
      StepKeepsInv(p, q, ops[0]);
      PromotedWaitIsBounded(p, q', ops[1..], j);
      if NonEmergencyDequeue(q, ops[0]) {
        SmallerSet(Ahead(q', j), Ahead(q, j) - {ops[0].id});
        assert |Ahead(q, j) - {ops[0].id}| == |Ahead(q, j)| - 1;
      } else {
        SmallerSet(Ahead(q', j), Ahead(q, j));
      }
    }
  }

  lemma {:induction false} SmallerSet(a: set<int>, b: set<int>)
    requires a <= b
    ensures |a| <= |b|
  {
    assert b == a + (b - a);
    assert |b| == |a| + |b - a|;
  }

  /**
    A promotion tick after the timeout bounds the wait of every stale warning: over every further run in
    which it is still queued, the non-emergency dequeues number at most the jobs created no later than it.
   */
  lemma StaleWaitIsBounded(p: Profile, q: Queue, at: int, ops: seq<Op>, j: int)
    requires Inv(q) && StillQueued(q, j) && q.jobs[j].createdAt < at - p.promotionTimeout
    requires Possible(q, Promote(at)) && Runs(p, Apply(p, q, Promote(at)), ops)
    requires StillQueued(After(p, Apply(p, q, Promote(at)), ops), j)
    ensures Overtakes(p, Apply(p, q, Promote(at)), ops) <= |Ahead(q, j)|
  {
    var q' := Apply(p, q, Promote(at));
    StepKeepsInv(p, q, Promote(at));
    PromotedWaitIsBounded(p, q', ops, j);
    assert Ahead(q', j) == Ahead(q, j);
  }

  /** Without promotion there is no such bound: a departure enqueued any time later is served first. */
  lemma UnpromotedCanBeOvertaken(p: Profile, q: Queue, j: int, op: Op)
    requires Inv(q) && StillQueued(q, j) && q.jobs[j].priority == PreWarning
    requires Possible(q, op) && op.Enqueue? && op.trigger == SilentDeparture && op.provider.Some?
    requires p.dataShards <= op.shardCount <= p.totalShards
    requires forall k :: k in q.jobs && q.jobs[k].status == Queued ==> q.jobs[k].priority == PreWarning
    ensures Possible(Apply(p, q, op), Dequeue(op.id, op.at)) && !Possible(Apply(p, q, op), Dequeue(j, op.at))
  {
    var q' := Apply(p, q, op);
    assert q'.jobs[op.id] == Fresh(op);
    assert !NoLater(q'.jobs[j], q'.jobs[op.id]);
  }
}
