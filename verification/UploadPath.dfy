/**
  Chunk upload on the provider: many stream handlers, one writer goroutine, a bounded request
  channel, one single-slot result channel per request, timeouts, and deletions by the vetting
  collector, over the value log. One step is one handler or writer action; a run is any interleaving.
 */
module UploadPath {
  import opened Prelude
  import opened VLogFile
  import ValueLog

  const STATUS_OK: byte := 0
  const STATUS_MISMATCH: byte := 2
  const STATUS_NOT_ASSIGNED: byte := 3
  const STATUS_INTERNAL_ERROR: byte := 5
  const STATUS_ALREADY_STORED: byte := 6
  const STATUS_EXPIRED: byte := 7

  const QUEUE_CAPACITY: nat := 64

  datatype Phase =
    | Parsed                     // frame read, nothing decided
    | Verified                   // token and content hash accepted
    | Missing                    // lookup found nothing usable
    | Waiting                    // request sent, selecting on result and timer
    | Answered(status: byte)
    | Silent                     // timed out

  type Disk = ValueLog.Disk

  type Chunk = ValueLog.Chunk

  datatype Handler = Handler(chunk: Chunk, phase: Phase)

  datatype WriteRequest = WriteRequest(owner: int, chunk: Chunk)

  datatype Writer = Idle | Holding(req: WriteRequest) | Sending(req: WriteRequest, ok: bool)

  datatype State = State(
    disk: Disk, handlers: map<int, Handler>,
    queue: seq<WriteRequest>, writer: Writer, results: map<int, seq<bool>>)

  /** How AppendChunk may end: well, in a failed write or fsync, or in a failed index write. */
  datatype Ending = Stored | Torn(written: nat) | Unindexed

  datatype Step =
    | Arrive(h: int, chunk: Chunk)
    | Check(h: int, tokenStatus: byte)
    | Lookup(h: int, ioError: bool)
    | Enqueue(h: int)
    | Take
    | Append(ending: Ending)
    | Send
    | Receive(h: int)
    | Expire(h: int)
    | Delete(id: Digest)
    | Rot(slot: nat, junk: Window)    // silent disk corruption

  predicate InPhase(s: State, h: int, p: Phase) { h in s.handlers && s.handlers[h].phase == p }

  predicate Enabled(s: State, t: Step) {
    match t
    case Arrive(h, _) => h !in s.handlers
    case Check(h, token) => InPhase(s, h, Parsed) && token in {STATUS_OK, STATUS_NOT_ASSIGNED, STATUS_EXPIRED}
    case Lookup(h, _) => InPhase(s, h, Verified)
    case Enqueue(h) => InPhase(s, h, Missing) && |s.queue| < QUEUE_CAPACITY
    case Take => s.writer.Idle? && s.queue != []
    case Append(e) => s.writer.Holding? && (e.Torn? ==> e.written <= ENTRY)
    case Send => s.writer.Sending? && Room(s, s.writer.req.owner)
    case Receive(h) => InPhase(s, h, Waiting) && h in s.results && s.results[h] != []
    case Expire(h) => InPhase(s, h, Waiting)
    case Delete(_) => true
    case Rot(slot, _) => slot < |s.disk.file.wins|
  }

  /** A send on an owner's result channel would not block. */
  predicate Room(s: State, owner: int) { owner in s.results && |s.results[owner]| < 1 }

  function Enter(s: State, h: int, p: Phase): State
    requires h in s.handlers
  {
    s.(handlers := s.handlers[h := s.handlers[h].(phase := p)])
  }

  /** A lookup of this id would succeed. */
  predicate Intact(hash: Hash, s: State, id: Digest) { ValueLog.Lookup(hash, s.disk, id).Data? }

  /** A failed write or fsync leaves its bytes in the file and the head where it was. */
  function Written(hash: Hash, d: Disk, c: Chunk, e: Ending): Disk
    requires e.Torn? ==> e.written <= ENTRY
  {
    match e
    case Stored => ValueLog.Append(hash, d, c)
    case Torn(n) => d.(file := Write(d.file, ValueLog.Entry(hash, c)[..n]))
    case Unindexed => ValueLog.Append(hash, d, c).(index := d.index)
  }

  function Rotted(d: Disk, slot: nat, junk: Window): Disk
    requires slot < |d.file.wins|
  {
    d.(file := d.file.(wins := d.file.wins[slot := junk]))
  }

  /** The writer answers every request and goes on, whatever AppendChunk said. */
  function Do(hash: Hash, s: State, t: Step): State
    requires Enabled(s, t)
  {
    match t
    case Arrive(h, c) => s.(handlers := s.handlers[h := Handler(c, Parsed)])
    case Check(h, token) =>
      Enter(s, h, if token != STATUS_OK then Answered(token)
                  else if !ValueLog.Named(hash, s.handlers[h].chunk) then Answered(STATUS_MISMATCH)
                  else Verified)
    case Lookup(h, ioError) =>
      Enter(s, h, if !ioError && Intact(hash, s, s.handlers[h].chunk.id) then Answered(STATUS_ALREADY_STORED) else Missing)
    case Enqueue(h) =>
      Enter(s, h, Waiting).(queue := s.queue + [WriteRequest(h, s.handlers[h].chunk)], results := s.results[h := []])
    case Take => s.(writer := Holding(s.queue[0]), queue := s.queue[1..])
    case Append(e) =>
      s.(writer := Sending(s.writer.req, e.Stored?), disk := Written(hash, s.disk, s.writer.req.chunk, e))
    case Send =>
      var req := s.writer.req;
      s.(writer := Idle, results := s.results[req.owner := s.results[req.owner] + [s.writer.ok]])
    case Receive(h) =>
      Enter(s, h, Answered(if s.results[h][0] then STATUS_OK else STATUS_INTERNAL_ERROR))
        .(results := s.results[h := s.results[h][1..]])
    case Expire(h) => Enter(s, h, Silent)
    case Delete(id) => s.(disk := ValueLog.Delete(s.disk, id))
    case Rot(slot, junk) => s.(disk := Rotted(s.disk, slot, junk))
  }

  /** As recovery leaves it: the head is not past the windows. Anything may be torn, corrupt or misplaced. */
  predicate Settled(d: Disk) { d.head <= |d.file.wins| }

  predicate Init(s: State) {
    s.handlers == map[] && s.queue == [] && s.writer == Idle && s.results == map[] && Settled(s.disk)
  }

  /** trace[i] is the state before steps[i]. */
  predicate Execution(hash: Hash, trace: seq<State>, steps: seq<Step>) {
    && |trace| == |steps| + 1 && Init(trace[0])
    && forall i :: 0 <= i < |steps| ==> Enabled(trace[i], steps[i]) && trace[i + 1] == Do(hash, trace[i], steps[i])
  }

  // ---------------------------------------------------------------- the invariant

  predicate Genuine(hash: Hash, s: State, r: WriteRequest) {
    && ValueLog.Named(hash, r.chunk)
    && r.owner in s.handlers && s.handlers[r.owner].chunk == r.chunk
    && r.owner in s.results && s.results[r.owner] == []
    && s.handlers[r.owner].phase in {Waiting, Silent}
  }

  /** One handler's view: how far it is decides what may be in its result channel. */
  predicate HandlerInv(hash: Hash, s: State, h: int)
    requires h in s.handlers
  {
    var p := s.handlers[h].phase;
    && (p in {Parsed, Verified, Missing} ==> h !in s.results)
    && (p in {Verified, Missing} ==> ValueLog.Named(hash, s.handlers[h].chunk))
    && (p == Waiting ==> h in s.results)
    && (p.Answered? && h in s.results ==> s.results[h] == [])
    && (h in s.results ==> |s.results[h]| <= 1)
  }

  ghost predicate Inv(hash: Hash, s: State) {
    && (forall i :: 0 <= i < |s.queue| ==> Genuine(hash, s, s.queue[i]))
    && (forall i, j :: 0 <= i < j < |s.queue| ==> s.queue[i].owner != s.queue[j].owner)
    && (!s.writer.Idle? ==> Genuine(hash, s, s.writer.req))
    && (!s.writer.Idle? ==> forall i :: 0 <= i < |s.queue| ==> s.queue[i].owner != s.writer.req.owner)
    && (forall h :: h in s.results ==> h in s.handlers)
    && (forall h :: h in s.handlers ==> HandlerInv(hash, s, h))
  }

  lemma EnqueueKeepsInv(hash: Hash, s: State, h: int)
    requires Inv(hash, s) && Enabled(s, Enqueue(h))
    ensures Inv(hash, Do(hash, s, Enqueue(h)))
  {
    assert HandlerInv(hash, s, h);
  }

  lemma SendKeepsInv(hash: Hash, s: State)
    requires Inv(hash, s) && Enabled(s, Send)
    ensures Inv(hash, Do(hash, s, Send))
  {
    assert HandlerInv(hash, s, s.writer.req.owner);
  }

  lemma ReceiveKeepsInv(hash: Hash, s: State, h: int)
    requires Inv(hash, s) && Enabled(s, Receive(h))
    ensures Inv(hash, Do(hash, s, Receive(h)))
  {
    assert HandlerInv(hash, s, h);
  }

  lemma StepKeepsInv(hash: Hash, s: State, t: Step)
    requires Inv(hash, s) && Enabled(s, t)
    ensures Inv(hash, Do(hash, s, t))
  {
    match t {
      case Enqueue(h) => EnqueueKeepsInv(hash, s, h);
      case Send => SendKeepsInv(hash, s);
      case Receive(h) => ReceiveKeepsInv(hash, s, h);
      case _ =>
    }
  }

  // ---------------------------------------------------------------- whole runs

  lemma {:induction false} ExecutionKeepsInv(hash: Hash, trace: seq<State>, steps: seq<Step>, i: nat)
    requires Execution(hash, trace, steps) && i < |trace|
    ensures Inv(hash, trace[i])
  {
    if i > 0 {
      ExecutionKeepsInv(hash, trace, steps, i - 1);
      StepKeepsInv(hash, trace[i - 1], steps[i - 1]);
    }
  }

  /** Only content-addressed writes are ever queued or performed, and the writer's send never blocks. */
  lemma WriterIsSafe(hash: Hash, trace: seq<State>, steps: seq<Step>, i: nat)
    requires Execution(hash, trace, steps) && i < |trace|
    ensures forall k :: 0 <= k < |trace[i].queue| ==> ValueLog.Named(hash, trace[i].queue[k].chunk)
    ensures !trace[i].writer.Idle? ==> ValueLog.Named(hash, trace[i].writer.req.chunk)
    ensures trace[i].writer.Sending? ==> Enabled(trace[i], Send)
  {
    ExecutionKeepsInv(hash, trace, steps, i);
  }

  lemma WrittenIsSettled(hash: Hash, d: Disk, c: Chunk, e: Ending)
    requires Settled(d) && (e.Torn? ==> e.written <= ENTRY)
    ensures Settled(Written(hash, d, c, e)) && d.file.wins <= Written(hash, d, c, e).file.wins
  {
    ValueLog.AppendedFile(hash, d, c);
  }

  lemma {:induction false} ExecutionIsSettled(hash: Hash, trace: seq<State>, steps: seq<Step>, i: nat)
    requires Execution(hash, trace, steps) && i < |trace|
    ensures Settled(trace[i].disk)
  {
    if i > 0 {
      ExecutionIsSettled(hash, trace, steps, i - 1);
      var s, t := trace[i - 1], steps[i - 1];
      if t.Append? { WrittenIsSettled(hash, s.disk, s.writer.req.chunk, t.ending); }
    }
  }

  // ---------------------------------------------------------------- what an acknowledged append is worth

  /** The window the index entry of the next append leads to: at the head, whatever stands there. */
  function Target(hash: Hash, d: Disk, c: Chunk): Window
    requires Settled(d)
  {
    if d.head < |d.file.wins| then d.file.wins[d.head] else Straddle(d.file.rest, ValueLog.Entry(hash, c))
  }

  /** That window passes for the chunk. */
  predicate Spelled(hash: Hash, d: Disk, c: Chunk)
    requires Settled(d)
  {
    hash(Body(Target(hash, d, c))) == c.id
  }

  /** Nothing torn, and the head at the end of the file. */
  predicate Tidy(d: Disk) { d.file.rest == [] && d.head == |d.file.wins| }

  /** What the next append would be read back as: the chunk itself, in terms of the disk alone. */
  predicate ReadsBack(d: Disk, c: Chunk)
    requires Settled(d)
  {
    if d.head < |d.file.wins| then Body(d.file.wins[d.head]) == c.data else Echoes(d.file.rest, c.id, c.data)
  }

  lemma TargetIsFound(hash: Hash, d: Disk, c: Chunk)
    requires Settled(d)
    ensures ValueLog.Lookup(hash, ValueLog.Append(hash, d, c), c.id) == ValueLog.Check(hash, Target(hash, d, c), c.id)
  {
    ValueLog.AppendedFile(hash, d, c);
  }

  /** Spelling is reading back, but for a collision; on a tidy disk it always holds. */
  lemma SpelledIffReadsBack(hash: Hash, d: Disk, c: Chunk)
    requires Settled(d) && ValueLog.Named(hash, c)
    ensures ReadsBack(d, c) <==> ValueLog.Lookup(hash, ValueLog.Append(hash, d, c), c.id) == ValueLog.Data(c.data)
    ensures ReadsBack(d, c) ==> Spelled(hash, d, c)
    ensures ValueLog.CollisionFree(hash) ==> (Spelled(hash, d, c) <==> ReadsBack(d, c))
    ensures Tidy(d) ==> ReadsBack(d, c)
  {
    TargetIsFound(hash, d, c);
    ReadsBackIffEchoes(hash, d.file.rest, c.id, c.data);
    if ValueLog.CollisionFree(hash) { ValueLog.FoundIsTheChunk(hash, ValueLog.Append(hash, d, c), c); }
  }

  /**
    In every run, the chunk of an append the writer reports as stored can be read back right after it
    exactly when the disk before it either stood at its end with torn bytes the chunk echoes (none, for
    instance), or stood behind a window that already spells the chunk.
   */
  lemma AcknowledgedReadsBackIff(hash: Hash, trace: seq<State>, steps: seq<Step>, i: nat)
    requires Execution(hash, trace, steps) && i < |steps| && steps[i] == Append(Stored)
    ensures Settled(trace[i].disk)
    ensures
      var c := trace[i].writer.req.chunk;
      && (ValueLog.Lookup(hash, trace[i + 1].disk, c.id) == ValueLog.Data(c.data) <==> ReadsBack(trace[i].disk, c))
      && (Intact(hash, trace[i + 1], c.id) <==> Spelled(hash, trace[i].disk, c))
  {
    ExecutionKeepsInv(hash, trace, steps, i);
    ExecutionIsSettled(hash, trace, steps, i);
    TargetIsFound(hash, trace[i].disk, trace[i].writer.req.chunk);
    SpelledIffReadsBack(hash, trace[i].disk, trace[i].writer.req.chunk);
  }

  /** At some moment up to i, a lookup of this chunk would have succeeded. */
  ghost predicate WasStored(hash: Hash, trace: seq<State>, i: nat, id: Digest)
    requires i < |trace|
  {
    exists j :: 0 <= j <= i && Intact(hash, trace[j], id)
  }

  /** Every receipt given, on its way or about to be sent is for one of these chunks. */
  ghost predicate EarnedBy(s: State, ids: iset<Digest>) {
    && (forall h :: h in s.handlers && s.handlers[h].phase in {Answered(STATUS_OK), Answered(STATUS_ALREADY_STORED)}
          ==> s.handlers[h].chunk.id in ids)
    && (forall h :: h in s.results && h in s.handlers && s.results[h] == [true] ==> s.handlers[h].chunk.id in ids)
    && (s.writer.Sending? && s.writer.ok ==> s.writer.req.chunk.id in ids)
  }

  ghost function StoredUpTo(hash: Hash, trace: seq<State>, i: nat): iset<Digest>
    requires i < |trace|
  {
    iset id: Digest | WasStored(hash, trace, i, id)
  }

  ghost predicate ReceiptsEarned(hash: Hash, trace: seq<State>, i: nat)
    requires i < |trace|
  {
    EarnedBy(trace[i], StoredUpTo(hash, trace, i))
  }

  lemma WasStoredLater(hash: Hash, trace: seq<State>, i: nat, id: Digest)
    requires i + 1 < |trace|
    ensures WasStored(hash, trace, i + 1, id) <==> WasStored(hash, trace, i, id) || Intact(hash, trace[i + 1], id)
  {
    if WasStored(hash, trace, i, id) {
      var j :| 0 <= j <= i && Intact(hash, trace[j], id);
      assert Intact(hash, trace[j], id);
    }
  }

  /** Step j acknowledges an append whose chunk was never readable before and is not after it either. */
  ghost predicate HollowAck(hash: Hash, trace: seq<State>, steps: seq<Step>, j: nat) {
    && j < |steps| && j < |trace| && steps[j] == Append(Stored) && trace[j].writer.Holding? && Settled(trace[j].disk)
    && !WasStored(hash, trace, j, trace[j].writer.req.chunk.id)
    && !Spelled(hash, trace[j].disk, trace[j].writer.req.chunk)
  }

  lemma StepKeepsEarned(hash: Hash, s: State, t: Step, ids: iset<Digest>)
    requires Inv(hash, s) && Enabled(s, t) && !t.Append? && EarnedBy(s, ids)
    requires forall id :: Intact(hash, s, id) ==> id in ids
    ensures EarnedBy(Do(hash, s, t), ids)
  {
    match t {
      case Receive(h) =>
        assert HandlerInv(hash, s, h);
        assert s.results[h] == [s.results[h][0]];
      case Send =>
        assert Genuine(hash, s, s.writer.req);
        assert [] + [s.writer.ok] == [s.writer.ok];
        assert s.results[s.writer.req.owner] + [s.writer.ok] == [s.writer.ok];
      case _ =>
    }
  }

  lemma StoredGrows(hash: Hash, trace: seq<State>, i: nat)
    requires i + 1 < |trace|
    ensures forall id :: id in StoredUpTo(hash, trace, i) ==> id in StoredUpTo(hash, trace, i + 1)
    ensures forall id :: Intact(hash, trace[i], id) ==> id in StoredUpTo(hash, trace, i)
  {
    forall id | id in StoredUpTo(hash, trace, i) ensures id in StoredUpTo(hash, trace, i + 1) {
      WasStoredLater(hash, trace, i, id);
    }
  }

  lemma EarnedAppend(hash: Hash, trace: seq<State>, steps: seq<Step>, i: nat)
    requires Execution(hash, trace, steps) && 0 < i < |trace| && ReceiptsEarned(hash, trace, i - 1)
    requires steps[i - 1].Append?
    ensures ReceiptsEarned(hash, trace, i) <==> !HollowAck(hash, trace, steps, i - 1)
  {
    var s, s' := trace[i - 1], trace[i];
    StoredGrows(hash, trace, i - 1);
    WasStoredLater(hash, trace, i - 1, s.writer.req.chunk.id);
    if steps[i - 1] == Append(Stored) { AcknowledgedReadsBackIff(hash, trace, steps, i - 1); }
    assert s'.handlers == s.handlers && s'.results == s.results;
  }

  lemma EarnedStep(hash: Hash, trace: seq<State>, steps: seq<Step>, i: nat)
    requires Execution(hash, trace, steps) && 0 < i < |trace| && ReceiptsEarned(hash, trace, i - 1)
    ensures ReceiptsEarned(hash, trace, i) <==> !HollowAck(hash, trace, steps, i - 1)
  {
    if steps[i - 1].Append? {
      EarnedAppend(hash, trace, steps, i);
    } else {
      ExecutionKeepsInv(hash, trace, steps, i - 1);
      StoredGrows(hash, trace, i - 1);
      StepKeepsEarned(hash, trace[i - 1], steps[i - 1], StoredUpTo(hash, trace, i - 1));
    }
  }

  /**
    Through every run, each OK or ALREADY_STORED receipt follows a moment when its chunk could be looked
    up, if and only if no append is ever acknowledged at a head where the chunk cannot be read back.
   */
  lemma {:induction false} ReceiptsEarnedIff(hash: Hash, trace: seq<State>, steps: seq<Step>, n: nat)
    requires Execution(hash, trace, steps) && n < |trace|
    ensures (forall i: nat :: i <= n ==> ReceiptsEarned(hash, trace, i))
       <==> (forall j: nat :: j < n ==> !HollowAck(hash, trace, steps, j))
  {
    if n == 0 {
      assert ReceiptsEarned(hash, trace, 0);
    } else {
      ReceiptsEarnedIff(hash, trace, steps, n - 1);
      if ReceiptsEarned(hash, trace, n - 1) { EarnedStep(hash, trace, steps, n); }
    }
  }

  // ---------------------------------------------------------------- what is accepted

  /** A token that passes and data that hashes to its id go on; anything else is answered at once, with its own status. */
  lemma CheckOutcome(hash: Hash, s: State, h: int, token: byte)
    requires Enabled(s, Check(h, token))
    ensures token in {0, 3, 7}
    ensures
      var c, s' := s.handlers[h].chunk, Do(hash, s, Check(h, token));
      && (InPhase(s', h, Verified) <==> token == 0 && hash(c.data) == c.id)
      && (InPhase(s', h, Answered(2)) <==> token == 0 && hash(c.data) != c.id)
      && (token != 0 ==> InPhase(s', h, Answered(token)))
      && s' == s.(handlers := s'.handlers) && s'.handlers == s.handlers[h := Handler(c, s'.handlers[h].phase)]
  {
  }

  /** The other answers a handler may give: ALREADY_STORED on a clean read of the chunk, then OK or INTERNAL_ERROR as the writer said. */
  lemma AnswerOutcome(hash: Hash, s: State, h: int, ioError: bool)
    ensures Enabled(s, Lookup(h, ioError)) ==>
      var s' := Do(hash, s, Lookup(h, ioError));
      if !ioError && Intact(hash, s, s.handlers[h].chunk.id) then InPhase(s', h, Answered(6)) else InPhase(s', h, Missing)
    ensures Enabled(s, Receive(h)) ==>
      InPhase(Do(hash, s, Receive(h)), h, Answered(if s.results[h][0] then 0 else 5))
  {
  }

  /** At any moment a waiting handler may time out and a chunk may be deleted; neither touches a pending request or any other handler. */
  lemma TimeoutChangesNothingElse(hash: Hash, s: State, h: int, id: Digest)
    ensures InPhase(s, h, Waiting) ==>
      && Enabled(s, Expire(h)) && InPhase(Do(hash, s, Expire(h)), h, Silent)
      && Do(hash, s, Expire(h)) == s.(handlers := s.handlers[h := s.handlers[h].(phase := Silent)])
    ensures Enabled(s, Delete(id)) && !Intact(hash, Do(hash, s, Delete(id)), id)
    ensures forall k :: k != id ==> (Intact(hash, Do(hash, s, Delete(id)), k) <==> Intact(hash, s, k))
    ensures Do(hash, s, Delete(id)) == s.(disk := Do(hash, s, Delete(id)).disk)
  {
  }

  /** No more than 64 requests ever wait for the writer. */
  lemma {:induction false} QueueIsBounded(hash: Hash, trace: seq<State>, steps: seq<Step>, i: nat)
    requires Execution(hash, trace, steps) && i < |trace|
    ensures |trace[i].queue| <= 64
  {
    if i > 0 {
      QueueIsBounded(hash, trace, steps, i - 1);
      assert trace[i] == Do(hash, trace[i - 1], steps[i - 1]);
    }
  }

  /** The state after a list of steps, if each is enabled in turn. */
  function After(hash: Hash, s: State, steps: seq<Step>): Option<State>
    decreases |steps|
  {
    if steps == [] then Some(s)
    else if Enabled(s, steps[0]) then After(hash, Do(hash, s, steps[0]), steps[1..])
    else None
  }

  lemma FourSteps(hash: Hash, s: State, t1: Step, t2: Step, t3: Step, t4: Step)
    requires Enabled(s, t1) && Enabled(Do(hash, s, t1), t2) && Enabled(Do(hash, Do(hash, s, t1), t2), t3)
    requires Enabled(Do(hash, Do(hash, Do(hash, s, t1), t2), t3), t4)
    ensures After(hash, s, [t1, t2, t3, t4]) == Some(Do(hash, Do(hash, Do(hash, Do(hash, s, t1), t2), t3), t4))
  {
    var s1 := Do(hash, s, t1);
    var s2 := Do(hash, s1, t2);
    var s3 := Do(hash, s2, t3);
    var s4 := Do(hash, s3, t4);
    assert After(hash, s4, []) == Some(s4);
    assert [t4][1..] == [] && After(hash, s3, [t4]) == Some(s4);
    assert [t3, t4][1..] == [t4] && After(hash, s2, [t3, t4]) == Some(s4);
    assert [t2, t3, t4][1..] == [t3, t4] && After(hash, s1, [t2, t3, t4]) == Some(s4);
    assert [t1, t2, t3, t4][1..] == [t2, t3, t4];
  }

  /** Up to the enqueued request. */
  lemma UploadIsQueued(hash: Hash, s: State, h: int, c: Chunk) returns (r: State)
    requires h !in s.handlers && |s.queue| < QUEUE_CAPACITY && ValueLog.Named(hash, c) && !Intact(hash, s, c.id)
    ensures After(hash, s, [Arrive(h, c), Check(h, STATUS_OK), Lookup(h, false), Enqueue(h)]) == Some(r)
    ensures InPhase(r, h, Waiting) && h in r.results && r.results[h] == []
    ensures r.queue == s.queue + [WriteRequest(h, c)] && r.writer == s.writer && r.disk == s.disk
  {
    var s1 := Do(hash, s, Arrive(h, c));
    var s2 := Do(hash, s1, Check(h, STATUS_OK));
    var s3 := Do(hash, s2, Lookup(h, false));
    assert s2.disk == s.disk && InPhase(s3, h, Missing);
    r := Do(hash, s3, Enqueue(h));
    FourSteps(hash, s, Arrive(h, c), Check(h, STATUS_OK), Lookup(h, false), Enqueue(h));
  }

  /** From the request at the front of the queue to the receipt. */
  lemma UploadIsServed(hash: Hash, s: State, h: int, c: Chunk) returns (r: State)
    requires s.queue == [WriteRequest(h, c)] && s.writer.Idle? && InPhase(s, h, Waiting) && h in s.results && s.results[h] == []
    ensures After(hash, s, [Take, Append(Stored), Send, Receive(h)]) == Some(r)
    ensures InPhase(r, h, Answered(STATUS_OK)) && r.disk == ValueLog.Append(hash, s.disk, c) && r.queue == [] && r.writer.Idle?
  {
    var s1 := Do(hash, s, Take);
    var s2 := Do(hash, s1, Append(Stored));
    var s3 := Do(hash, s2, Send);
    assert s3.results[h] == [true];
    r := Do(hash, s3, Receive(h));
    FourSteps(hash, s, Take, Append(Stored), Send, Receive(h));
  }

  /**
    A valid upload of a new chunk can run to its end: with the queue empty, the writer idle and the disk
    tidy, whatever the other handlers are at, it is answered OK and the chunk is there to be read.
   */
  lemma UploadSucceeds(hash: Hash, s: State, h: int, c: Chunk) returns (r: State)
    requires h !in s.handlers && s.queue == [] && s.writer.Idle? && Tidy(s.disk)
    requires ValueLog.Named(hash, c) && !Intact(hash, s, c.id)
    ensures
      var queued := After(hash, s, [Arrive(h, c), Check(h, STATUS_OK), Lookup(h, false), Enqueue(h)]);
      queued.Some? && After(hash, queued.value, [Take, Append(Stored), Send, Receive(h)]) == Some(r)
    ensures InPhase(r, h, Answered(STATUS_OK)) && ValueLog.Lookup(hash, r.disk, c.id) == ValueLog.Data(c.data)
  {
    var q := UploadIsQueued(hash, s, h, c);
    r := UploadIsServed(hash, q, h, c);
    SpelledIffReadsBack(hash, s.disk, c);
  }

  // ---------------------------------------------------------------- runs without a torn write

  /** No append failed with part of its entry in the file. */
  predicate NoTear(steps: seq<Step>, n: nat)
    requires n <= |steps|
  {
    forall j :: 0 <= j < n && steps[j].Append? && steps[j].ending.Torn? ==> steps[j].ending.written == 0
  }

  lemma WrittenIsTidy(hash: Hash, d: Disk, c: Chunk, e: Ending)
    requires Tidy(d) && (e.Torn? ==> e.written == 0)
    ensures Tidy(Written(hash, d, c, e))
  {
    ValueLog.AppendedFile(hash, d, c);
    if e.Torn? { assert d.file.rest + ValueLog.Entry(hash, c)[..0] == d.file.rest; }
  }

  lemma {:induction false} TidyRun(hash: Hash, trace: seq<State>, steps: seq<Step>, i: nat)
    requires Execution(hash, trace, steps) && i < |trace| && Tidy(trace[0].disk) && NoTear(steps, i)
    ensures Tidy(trace[i].disk)
  {
    if i > 0 {
      TidyRun(hash, trace, steps, i - 1);
      var s, t := trace[i - 1], steps[i - 1];
      if t.Append? { WrittenIsTidy(hash, s.disk, s.writer.req.chunk, t.ending); }
    }
  }

  /** So from a tidy disk, while no write fails half way, every receipt is earned. */
  lemma ReceiptsAreEarned(hash: Hash, trace: seq<State>, steps: seq<Step>, i: nat)
    requires Execution(hash, trace, steps) && i < |trace| && Tidy(trace[0].disk) && NoTear(steps, i)
    ensures ReceiptsEarned(hash, trace, i)
  {
    forall j: nat | j < i ensures !HollowAck(hash, trace, steps, j) {
      TidyRun(hash, trace, steps, j);
      ExecutionKeepsInv(hash, trace, steps, j);
      if steps[j] == Append(Stored) { SpelledIffReadsBack(hash, trace[j].disk, trace[j].writer.req.chunk); }
    }
    ReceiptsEarnedIff(hash, trace, steps, i);
  }

  // ---------------------------------------------------------------- how long a chunk stays readable

  /** The three ways a readable chunk stops being so; the last is an upload of the very same chunk. */
  predicate Spoils(hash: Hash, s: State, t: Step, id: Digest)
    requires Enabled(s, t) && Settled(s.disk)
  {
    match t
    case Delete(k) => k == id
    case Rot(slot, junk) => id in s.disk.index && s.disk.index[id] == slot && hash(Body(junk)) != id
    case Append(e) => e == Stored && s.writer.req.chunk.id == id && !Spelled(hash, s.disk, s.writer.req.chunk)
    case _ => false
  }

  lemma StepKeepsIntactIff(hash: Hash, s: State, t: Step, id: Digest)
    requires Enabled(s, t) && Settled(s.disk) && Intact(hash, s, id)
    ensures Intact(hash, Do(hash, s, t), id) <==> !Spoils(hash, s, t, id)
  {
    if t.Append? {
      var c := s.writer.req.chunk;
      WrittenIsSettled(hash, s.disk, c, t.ending);
      if t.ending == Stored && c.id == id { TargetIsFound(hash, s.disk, c); }
    }
  }

  ghost predicate IntactFrom(hash: Hash, trace: seq<State>, i: nat, k: nat, id: Digest)
    requires k < |trace|
  {
    forall j :: i <= j <= k ==> Intact(hash, trace[j], id)
  }

  /** Once readable, a chunk stays so throughout a run if and only if no step of it spoils it. */
  lemma {:induction false} IntactPersistsIff(hash: Hash, trace: seq<State>, steps: seq<Step>, i: nat, k: nat, id: Digest)
    requires Execution(hash, trace, steps) && i <= k < |trace| && Intact(hash, trace[i], id)
    ensures forall j :: 0 <= j < |trace| ==> Settled(trace[j].disk)
    ensures IntactFrom(hash, trace, i, k, id) <==> forall j :: i <= j < k ==> !Spoils(hash, trace[j], steps[j], id)
    decreases k
  {
    forall j | 0 <= j < |trace| ensures Settled(trace[j].disk) { ExecutionIsSettled(hash, trace, steps, j); }
    if i < k {
      IntactPersistsIff(hash, trace, steps, i, k - 1, id);
      if IntactFrom(hash, trace, i, k - 1, id) {
        assert Intact(hash, trace[k - 1], id) && trace[k] == Do(hash, trace[k - 1], steps[k - 1]);
        StepKeepsIntactIff(hash, trace[k - 1], steps[k - 1], id);
        assert IntactFrom(hash, trace, i, k, id) <==> Intact(hash, trace[k], id);
      }
    }
  }

  /** No deletion of the chunk, and no corruption of the window it is read from. */
  predicate Spares(trace: seq<State>, steps: seq<Step>, i: nat, k: nat, id: Digest)
    requires i <= k <= |steps| && k < |trace|
  {
    forall j :: i <= j < k ==>
      && steps[j] != Delete(id)
      && !(steps[j].Rot? && id in trace[j].disk.index && trace[j].disk.index[id] == steps[j].slot)
  }

  /** From a tidy disk with no write failing half way, whoever else uploads the chunk meanwhile. */
  lemma IntactPersists(hash: Hash, trace: seq<State>, steps: seq<Step>, i: nat, k: nat, id: Digest)
    requires Execution(hash, trace, steps) && i <= k < |trace| && Tidy(trace[0].disk) && NoTear(steps, k)
    requires Intact(hash, trace[i], id) && Spares(trace, steps, i, k, id)
    ensures Intact(hash, trace[k], id)
  {
    IntactPersistsIff(hash, trace, steps, i, k, id);
    forall j | i <= j < k ensures !Spoils(hash, trace[j], steps[j], id) {
      TidyRun(hash, trace, steps, j);
      ExecutionKeepsInv(hash, trace, steps, j);
      if steps[j] == Append(Stored) { SpelledIffReadsBack(hash, trace[j].disk, trace[j].writer.req.chunk); }
    }
  }

  // ---------------------------------------------------------------- retries

  /** No step stores this chunk again, deletes it or corrupts its window. */
  predicate Untouched(trace: seq<State>, steps: seq<Step>, i: nat, k: nat, id: Digest)
    requires i <= k <= |steps| && k < |trace|
  {
    Spares(trace, steps, i, k, id) &&
    forall j :: i <= j < k && steps[j] == Append(Stored) && trace[j].writer.Holding? ==> trace[j].writer.req.chunk.id != id
  }

  lemma {:induction false} LookupStays(hash: Hash, trace: seq<State>, steps: seq<Step>, i: nat, k: nat, id: Digest)
    requires Execution(hash, trace, steps) && i <= k < |trace| && Untouched(trace, steps, i, k, id)
    requires id in trace[i].disk.index && trace[i].disk.index[id] < |trace[i].disk.file.wins|
    ensures id in trace[k].disk.index && trace[k].disk.index[id] < |trace[k].disk.file.wins|
    ensures ValueLog.Lookup(hash, trace[k].disk, id) == ValueLog.Lookup(hash, trace[i].disk, id)
    decreases k
  {
    if i < k {
      LookupStays(hash, trace, steps, i, k - 1, id);
      ExecutionIsSettled(hash, trace, steps, k - 1);
      var s, t := trace[k - 1], steps[k - 1];
      if t.Append? { WrittenIsSettled(hash, s.disk, s.writer.req.chunk, t.ending); }
    }
  }

  /**
    A write that succeeds after its handler gave up: while nothing else touches the chunk, a retry whose
    lookup reads cleanly is answered ALREADY_STORED exactly when the late write can be read back, and
    otherwise asks for the write again.
   */
  lemma RetryFindsStoredIff(hash: Hash, trace: seq<State>, steps: seq<Step>, i: nat, k: nat, retry: int)
    requires Execution(hash, trace, steps) && i < k < |steps|
    requires steps[i] == Append(Stored) && steps[k] == Lookup(retry, false)
    requires trace[k].handlers[retry].chunk.id == trace[i].writer.req.chunk.id
    requires Untouched(trace, steps, i + 1, k, trace[i].writer.req.chunk.id)
    ensures Settled(trace[i].disk)
    ensures trace[k + 1].handlers[retry].phase
         == if Spelled(hash, trace[i].disk, trace[i].writer.req.chunk) then Answered(STATUS_ALREADY_STORED) else Missing
  {
    var c := trace[i].writer.req.chunk;
    AcknowledgedReadsBackIff(hash, trace, steps, i);
    ValueLog.AppendedFile(hash, trace[i].disk, c);
    LookupStays(hash, trace, steps, i + 1, k, c.id);
  }

  /** From a tidy disk with no write failing half way, the retry is answered ALREADY_STORED, other uploads or not. */
  lemma RetryFindsStored(hash: Hash, trace: seq<State>, steps: seq<Step>, i: nat, k: nat, retry: int)
    requires Execution(hash, trace, steps) && i < k < |steps| && Tidy(trace[0].disk) && NoTear(steps, k)
    requires steps[i] == Append(Stored) && steps[k] == Lookup(retry, false)
    requires trace[k].handlers[retry].chunk.id == trace[i].writer.req.chunk.id
    requires Spares(trace, steps, i + 1, k, trace[i].writer.req.chunk.id)
    ensures trace[k + 1].handlers[retry].phase == Answered(STATUS_ALREADY_STORED)
  {
    var c := trace[i].writer.req.chunk;
    TidyRun(hash, trace, steps, i);
    ExecutionKeepsInv(hash, trace, steps, i);
    AcknowledgedReadsBackIff(hash, trace, steps, i);
    SpelledIffReadsBack(hash, trace[i].disk, c);
    IntactPersists(hash, trace, steps, i + 1, k, c.id);
  }

  // ---------------------------------------------------------------- a writer that does not halt

  /** One failed write, then the next request served: the disk it leaves. */
  function AfterFailure(hash: Hash, d: Disk, x: Chunk, written: nat, y: Chunk): Disk
    requires written <= ENTRY
  {
    ValueLog.Append(hash, Written(hash, d, x, Torn(written)), y)
  }

  /** The chunk that window would have to spell for the acknowledged one to be read back. */
  lemma AfterFailureReadsBackIff(hash: Hash, d: Disk, x: Chunk, written: nat, y: Chunk)
    requires Tidy(d) && written <= ENTRY && ValueLog.Named(hash, y)
    ensures ValueLog.Lookup(hash, AfterFailure(hash, d, x, written, y), y.id) == ValueLog.Data(y.data) <==>
      if written == ENTRY then y.data == x.data else Echoes(ValueLog.Entry(hash, x)[..written], y.id, y.data)
  {
    var e := Written(hash, d, x, Torn(written));
    var t := ValueLog.Entry(hash, x)[..written];
    assert d.file.rest + t == t;
    SpelledIffReadsBack(hash, e, y);
    if written == ENTRY {
      assert e.file.wins == d.file.wins + [Straddle([], t)];
      assert Straddle([], t) == ValueLog.Entry(hash, x);
      EncodeFields(hash, x.id, x.data);
    }
  }

  /** The six steps from a failing write to the next handler's OK. */
  function FailThenServe(hash: Hash, s: State, written: nat): State
    requires Inv(hash, s) && s.writer.Holding? && s.queue != [] && written <= ENTRY
    requires InPhase(s, s.queue[0].owner, Waiting)
  {
    var h := s.queue[0].owner;
    var s1 := Do(hash, s, Append(Torn(written)));
    var s2 := Do(hash, s1, Send);
    var s3 := Do(hash, s2, Take);
    var s4 := Do(hash, s3, Append(Stored));
    var s5 := Do(hash, s4, Send);
    Do(hash, s5, Receive(h))
  }

  /**
    Whatever the program is doing: if a write or its fsync fails with any part of the entry in the file
    and the writer goes on, the next upload is answered OK, and its chunk can be read back exactly when it
    echoes the torn bytes (or, after a failed fsync, is the failed chunk itself).
   */
  lemma FailedWriteSpoilsNext(hash: Hash, s: State, written: nat)
    requires Inv(hash, s) && s.writer.Holding? && s.queue != [] && written <= ENTRY && Tidy(s.disk)
    requires InPhase(s, s.queue[0].owner, Waiting)
    ensures
      var x, y := s.writer.req.chunk, s.queue[0].chunk;
      var s' := FailThenServe(hash, s, written);
      && InPhase(s', s.queue[0].owner, Answered(STATUS_OK))
      && (ValueLog.Lookup(hash, s'.disk, y.id) == ValueLog.Data(y.data) <==>
            if written == ENTRY then y.data == x.data else Echoes(ValueLog.Entry(hash, x)[..written], y.id, y.data))
  {
    assert Genuine(hash, s, s.queue[0]);
    AfterFailureReadsBackIff(hash, s.disk, s.writer.req.chunk, written, s.queue[0].chunk);
  }

  /** One byte of a failed write is enough: every upload but the chunk of zeros is then acknowledged and lost. */
  lemma OneByteSpoilsNext(hash: Hash, s: State)
    requires Inv(hash, s) && s.writer.Holding? && s.queue != [] && Tidy(s.disk)
    requires InPhase(s, s.queue[0].owner, Waiting)
    ensures
      var y, s' := s.queue[0].chunk, FailThenServe(hash, s, 1);
      && InPhase(s', s.queue[0].owner, Answered(STATUS_OK))
      && (ValueLog.Lookup(hash, s'.disk, y.id) == ValueLog.Data(y.data) <==> y.data == Zeros())
  {
    var y := s.queue[0].chunk;
    var t := ValueLog.Entry(hash, s.writer.req.chunk)[..1];
    FailedWriteSpoilsNext(hash, s, 1);
    assert t == [t[0]];
    ZerosEchoOneByte(t[0], y.id);
    if Echoes(t, y.id, y.data) { OneByteEchoIsZeros(t[0], y.id, y.data); }
  }

  // ---------------------------------------------------------------- requests are not withdrawn

  predicate Pending(s: State, h: int) {
    || (exists j :: 0 <= j < |s.queue| && s.queue[j].owner == h)
    || (s.writer.Holding? && s.writer.req.owner == h)
  }

  /** Step j is the append of h's request. */
  predicate AppendsFor(trace: seq<State>, steps: seq<Step>, j: nat, h: int) {
    j < |steps| && j < |trace| && steps[j].Append? && trace[j].writer.Holding? && trace[j].writer.req.owner == h
  }

  /** A request once enqueued is still pending until the writer appends it; giving up does not withdraw it. */
  lemma {:induction false} WriteNotLost(hash: Hash, trace: seq<State>, steps: seq<Step>, i: nat, k: nat, h: int)
    requires Execution(hash, trace, steps) && i < k < |trace| && steps[i] == Enqueue(h)
    ensures Pending(trace[k], h) || exists j :: i < j < k && AppendsFor(trace, steps, j, h)
    decreases k
  {
    if k == i + 1 {
      assert trace[k].queue[|trace[i].queue|].owner == h;
    } else {
      WriteNotLost(hash, trace, steps, i, k - 1, h);
      var s, s' := trace[k - 1], trace[k];
      if Pending(s, h) {
        if j :| 0 <= j < |s.queue| && s.queue[j].owner == h {
          if steps[k - 1] == Take {
            assert j > 0 ==> s'.queue[j - 1].owner == h;
          } else {
            assert s'.queue[j].owner == h;
          }
        } else if steps[k - 1].Append? {
          assert AppendsFor(trace, steps, k - 1, h);
        }
      }
    }
  }
}
