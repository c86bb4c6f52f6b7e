/**
  dispatchOneChallenge, finalizeTimeout, adjudicateResponse and the streak rules. Everything the
  dispatcher learns from outside (the cache, the network, the clock, lookups, connection faults,
  and what other sessions do to the table between its statements) is an `Environment`.
 */
module AuditDispatch {
  import opened Prelude
  import opened AuditReceipts

  const STATUS_OK: byte := 0
  const STATUS_NOT_FOUND: byte := 1
  const STATUS_CORRUPTION: byte := 2
  const STATUS_INVALID_NONCE: byte := 3
  const STATUS_INTERNAL_ERROR: byte := 4

  /** What readChallengeResponse hands back: only these five statuses, fixed-size arrays. */
  datatype Reply = Reply(status: byte, hash: Bytes, sig: Bytes)

  predicate WellFormed(r: Reply) {
    r.status <= STATUS_INTERNAL_ERROR && |r.hash| == 32 && |r.sig| == 64
  }

  /** A database call that never took effect, one that came back, or one that committed with its answer lost. */
  datatype Call = NotRun | Done | AckLost

  datatype Environment = Environment(
    secretLoaded: bool, receiptId: int, fields: Fields, phase1: Call,
    streamOpened: bool, rtoKnown: bool, deadlineSet: bool, requestWritten: bool,
    reply: Option<Reply>, latency: nat, versionValid: bool,
    keyFound: bool, signatureValid: bool, throughputFound: bool, jit: bool,
    record: Call, phase2: Call,
    serviceSig: Bytes, now1: int, now2: int, now3: int,
    gap1: seq<Event>, gap2: seq<Event>)       // other sessions, before and after RecordResponse

  /** Other sessions never learn this receipt's id; only the collector may touch its row. */
  predicate Foreign(ours: set<int>, es: seq<Event>) {
    forall i :: 0 <= i < |es| ==> es[i].stmt.id in ours ==> es[i].stmt.Abandon?
  }

  predicate Admissible(e: Environment, ours: set<int>) {
    && e.receiptId in ours
    && |e.serviceSig| == 64
    && (e.reply.Some? ==> WellFormed(e.reply.value))
    && Foreign(ours, e.gap1) && Foreign(ours, e.gap2)
  }

  datatype Adjudication = Verdict(result: AuditResult) | LookupFailed

  /** adjudicateResponse: PASS needs status OK and a valid signature, and nothing else gives it. */
  function Adjudicate(status: byte, keyFound: bool, signatureValid: bool): (a: Adjudication)
    ensures a == Verdict(Pass) <==> status == STATUS_OK && keyFound && signatureValid
    ensures a != Verdict(Timeout)
    ensures a == LookupFailed <==> !keyFound && status !in {STATUS_INVALID_NONCE, STATUS_INTERNAL_ERROR}
  {
    if status == STATUS_INVALID_NONCE || status == STATUS_INTERNAL_ERROR then Verdict(Fail)
    else if !keyFound then LookupFailed
    else if status == STATUS_OK then (if signatureValid then Verdict(Pass) else Verdict(Fail))
    else Verdict(Fail)
  }

  datatype Effect = Increment | Reset | NoChange

  datatype Attempt = Attempt(stmt: Statement, outcome: Outcome)

  datatype Dispatched = Dispatched(db: Db, attempts: seq<Attempt>, effect: Effect)

  function FinalizeTimeout(db: Db, e: Environment, log: seq<Attempt>): Dispatched {
    if e.phase2.NotRun? then Dispatched(db, log, NoChange) else
    var s := Phase2(e.receiptId, Timeout, e.serviceSig, e.now3);
    var (db', o) := Exec(db, Event(e.now3, s));
    Dispatched(db', log + [Attempt(s, o)],
               if o == Affected(1) && e.phase2.Done? && !e.fields.addressWasStale then Reset else NoChange)
  }

  function Adjudicating(db: Db, e: Environment, log: seq<Attempt>, result: AuditResult): Dispatched
    requires e.reply.Some?
  {
    if e.record.NotRun? then Dispatched(db, log, NoChange) else
    var s := RecordResponse(e.receiptId, e.reply.value.hash, e.reply.value.sig, e.latency, e.jit);
    var (db1, o1) := Exec(db, Event(e.now2, s));
    var log1 := log + [Attempt(s, o1)];
    if o1 != Affected(1) || e.record.AckLost? then Dispatched(db1, log1, NoChange) else
    var db2 := Run(db1, e.gap2);
    if e.phase2.NotRun? then Dispatched(db2, log1, NoChange) else
    var s2 := Phase2(e.receiptId, result, e.serviceSig, e.now3);
    var (db3, o2) := Exec(db2, Event(e.now3, s2));
    Dispatched(db3, log1 + [Attempt(s2, o2)],
               if o2 != Affected(1) || e.phase2.AckLost? then NoChange else if result == Pass then Increment else Reset)
  }

  /** dispatchOneChallenge, one branch per return statement. */
  function Dispatch(db: Db, e: Environment): Dispatched {
    if !e.secretLoaded || e.phase1.NotRun? then Dispatched(db, [], NoChange) else
    var s := Phase1(e.receiptId, e.fields);
    var (db1, o) := Exec(db, Event(e.now1, s));
    var log := [Attempt(s, o)];
    if o != Affected(1) || e.phase1.AckLost? then Dispatched(db1, log, NoChange) else
    var db2 := Run(db1, e.gap1);
    if !e.streamOpened then FinalizeTimeout(db2, e, log)
    else if !e.rtoKnown || !e.deadlineSet then Dispatched(db2, log, NoChange)
    else if !e.requestWritten || e.reply.None? then FinalizeTimeout(db2, e, log)
    else if !e.versionValid then Dispatched(db2, log, NoChange)
    else match Adjudicate(e.reply.value.status, e.keyFound, e.signatureValid)
      case LookupFailed => Dispatched(db2, log, NoChange)
      case Verdict(result) =>
        if !e.throughputFound then Dispatched(db2, log, NoChange)
        else Adjudicating(db2, e, log, result)
  }

  // ---------------------------------------------------------------- one dispatch

  /** The streak change a row's final content calls for. */
  function EffectOf(r: Receipt): Effect {
    match r.result
    case None => NoChange
    case Some(Pass) => Increment
    case Some(Fail) => Reset
    case Some(Timeout) => if r.fields.addressWasStale then NoChange else Reset
  }

  /** Foreign statements leave an unanswered row of ours unanswered, or the collector abandons it. */
  lemma {:induction false} ForeignRunOnOurs(db: Db, es: seq<Event>, ours: set<int>, id: int)
    requires Sound(db) && Foreign(ours, es) && id in ours && id in db.rows
    ensures id in Run(db, es).rows && Evolves(db.rows[id], Run(db, es).rows[id]) && Sound(Run(db, es))
    ensures Run(db, es).rows[id] == db.rows[id] || Abandoned(Run(db, es).rows[id])
    ensures Run(db, es).rows[id] == db.rows[id].(abandonedAt := Run(db, es).rows[id].abandonedAt)
    ensures Run(db, es).rows[id].result == db.rows[id].result
    decreases |es|
  {
    RunEvolves(db, es, id);
    RunKeepsSound(db, es);
    if es != [] {
      var db' := Exec(db, es[0]).0;
      ExecKeepsSound(db, es[0]);
      ExecEvolves(db, es[0], id);
      assert InExactlyOneState(db.rows[id]);
      assert db'.rows[id] == db.rows[id] || Abandoned(db'.rows[id]);
      assert db'.rows[id] == db.rows[id].(abandonedAt := db'.rows[id].abandonedAt);
      ForeignRunOnOurs(db', es[1..], ours, id);
    }
  }

  lemma AdjudicatingLeavesOthers(db: Db, e: Environment, log: seq<Attempt>, result: AuditResult, ours: set<int>, id: int)
    requires Sound(db) && Admissible(e, ours) && e.reply.Some? && id in ours && id in db.rows && id != e.receiptId
    ensures var d := Adjudicating(db, e, log, result).db;
      && id in d.rows && d.rows[id].result == db.rows[id].result && d.rows[id].fields == db.rows[id].fields
      && (d.rows[id] == db.rows[id] || Abandoned(d.rows[id]))
  {
    var s := Event(e.now2, RecordResponse(e.receiptId, e.reply.value.hash, e.reply.value.sig, e.latency, e.jit));
    ExecKeepsSound(db, s);
    ForeignRunOnOurs(Exec(db, s).0, e.gap2, ours, id);
  }

  /** A row of ours that is already there can at most be abandoned while another is dispatched. */
  lemma DispatchLeavesOthers(db: Db, e: Environment, ours: set<int>, id: int)
    requires Sound(db) && Admissible(e, ours) && id in ours && id in db.rows
    ensures var d := Dispatch(db, e).db;
      && id in d.rows && d.rows[id].result == db.rows[id].result && d.rows[id].fields == db.rows[id].fields
      && (d.rows[id] == db.rows[id] || Abandoned(d.rows[id]))
  {
    var e1 := Event(e.now1, Phase1(e.receiptId, e.fields));
    var (db1, o) := Exec(db, e1);
    if e.secretLoaded && !e.phase1.NotRun? && o == Affected(1) {
      ExecKeepsSound(db, e1);
      ForeignRunOnOurs(db1, e.gap1, ours, id);
      if e.reply.Some? {
        forall result ensures var d := Adjudicating(Run(db1, e.gap1), e, [Attempt(e1.stmt, o)], result).db;
          && id in d.rows && d.rows[id].result == db.rows[id].result && d.rows[id].fields == db.rows[id].fields
          && (d.rows[id] == db.rows[id] || Abandoned(d.rows[id]))
        {
          AdjudicatingLeavesOthers(Run(db1, e.gap1), e, [Attempt(e1.stmt, o)], result, ours, id);
        }
      }
    }
  }

  lemma DispatchKeepsSound(db: Db, e: Environment)
    requires Sound(db)
    ensures Sound(Dispatch(db, e).db)
  {
    if e.secretLoaded && !e.phase1.NotRun? {
      var e1 := Event(e.now1, Phase1(e.receiptId, e.fields));
      ExecKeepsSound(db, e1);
      var db1 := Exec(db, e1).0;
      RunKeepsSound(db1, e.gap1);
      var db2 := Run(db1, e.gap1);
      ExecKeepsSound(db2, Event(e.now3, Phase2(e.receiptId, Timeout, e.serviceSig, e.now3)));
      if e.reply.Some? {
        var s := Event(e.now2, RecordResponse(e.receiptId, e.reply.value.hash, e.reply.value.sig, e.latency, e.jit));
        ExecKeepsSound(db2, s);
        var db3 := Exec(db2, s).0;
        RunKeepsSound(db3, e.gap2);
        var db4 := Run(db3, e.gap2);
        ExecKeepsSound(db4, Event(e.now3, Phase2(e.receiptId, Pass, e.serviceSig, e.now3)));
        ExecKeepsSound(db4, Event(e.now3, Phase2(e.receiptId, Fail, e.serviceSig, e.now3)));
      }
    }
  }

  /** Whatever the row holds came from this dispatch: the reply as it was read, all of it or nothing, and Phase 2's signature and time. */
  predicate Recorded(r: Receipt, e: Environment) {
    && (if r.responseHash == None then r.providerSig == None && r.latencyMs == None && !r.jitFlag
        else e.reply.Some? && r.responseHash == Some(e.reply.value.hash) && r.providerSig == Some(e.reply.value.sig)
             && r.latencyMs == Some(e.latency) && r.jitFlag == e.jit)
    && (if r.result == None then r.serviceSig == None && r.countersignTs == None
        else r.serviceSig == Some(e.serviceSig) && r.countersignTs == Some(e.now3))
  }

  /** The response write and the adjudication that follows it, from an unanswered row. */
  lemma AnsweredPath(db: Db, e: Environment, ours: set<int>)
    requires Sound(db) && Admissible(e, ours) && e.reply.Some? && e.receiptId in db.rows
    requires PendingEmpty(db.rows[e.receiptId]) || Abandoned(db.rows[e.receiptId])
    ensures
      var s := Event(e.now2, RecordResponse(e.receiptId, e.reply.value.hash, e.reply.value.sig, e.latency, e.jit));
      var (db1, o1) := Exec(db, s);
      && o1 in {Affected(0), Affected(1)}
      && (o1 == Affected(1) ==>
            var db2 := Run(db1, e.gap2);
            && e.receiptId in db2.rows && db2.rows[e.receiptId].fields == db.rows[e.receiptId].fields
            && db2.rows[e.receiptId].result.None? && Recorded(db2.rows[e.receiptId], e)
            && db2.rows[e.receiptId].responseHash.Some?
            && forall r :: r in {Pass, Fail} ==>
                var (db3, o2) := Exec(db2, Event(e.now3, Phase2(e.receiptId, r, e.serviceSig, e.now3)));
                && o2 in {Affected(0), Affected(1)}
                && db3.rows[e.receiptId].fields == db.rows[e.receiptId].fields
                && db3.rows[e.receiptId].result == (if o2 == Affected(1) then Some(r) else None)
                && Recorded(db3.rows[e.receiptId], e))
  {
    var s := Event(e.now2, RecordResponse(e.receiptId, e.reply.value.hash, e.reply.value.sig, e.latency, e.jit));
    var (db1, o1) := Exec(db, s);
    ExecKeepsSound(db, s);
    if o1 == Affected(1) {
      assert PendingAnswered(db1.rows[e.receiptId]);
      ForeignRunOnOurs(db1, e.gap2, ours, e.receiptId);
    }
  }

  /** What Phase 1 may be followed by: at most a response write, then an adjudication, none of them rejected. */
  predicate Follows(before: seq<Attempt>, after: seq<Attempt>) {
    && before <= after
    && forall i :: |before| <= i < |after| ==>
         && !after[i].stmt.Phase1? && (after[i].stmt.RecordResponse? ==> i == |before|)
         && after[i].outcome in {Affected(0), Affected(1)}
  }

  /** The row left and the counter effect that matches it, unless the answer to Phase 2 was lost. */
  predicate Matches(d: Dispatched, e: Environment) {
    && e.receiptId in d.db.rows && d.db.rows[e.receiptId].fields == e.fields && Recorded(d.db.rows[e.receiptId], e)
    && d.effect == if e.phase2.AckLost? then NoChange else EffectOf(d.db.rows[e.receiptId])
  }

  predicate Unanswered(db: Db, e: Environment) {
    && e.receiptId in db.rows && db.rows[e.receiptId].fields == e.fields && Recorded(db.rows[e.receiptId], e)
    && db.rows[e.receiptId].responseHash == None
    && (PendingEmpty(db.rows[e.receiptId]) || Abandoned(db.rows[e.receiptId]))
  }

  lemma FinalizeTimeoutPath(db: Db, e: Environment, log: seq<Attempt>, ours: set<int>)
    requires Sound(db) && Admissible(e, ours) && Unanswered(db, e)
    ensures Follows(log, FinalizeTimeout(db, e, log).attempts) && Matches(FinalizeTimeout(db, e, log), e)
  {
  }

  lemma AdjudicatingPath(db: Db, e: Environment, log: seq<Attempt>, result: AuditResult, ours: set<int>)
    requires Sound(db) && Admissible(e, ours) && Unanswered(db, e) && e.reply.Some? && result in {Pass, Fail}
    ensures Follows(log, Adjudicating(db, e, log, result).attempts) && Matches(Adjudicating(db, e, log, result), e)
  {
    AnsweredPath(db, e, ours);
    var s := Event(e.now2, RecordResponse(e.receiptId, e.reply.value.hash, e.reply.value.sig, e.latency, e.jit));
    ExecEvolves(db, s, e.receiptId);
    assert Exec(db, s).0.rows[e.receiptId].result.None?;
  }

  lemma AfterPhase1(db: Db, e: Environment, ours: set<int>)
    requires Sound(db) && Admissible(e, ours)
    requires Exec(db, Event(e.now1, Phase1(e.receiptId, e.fields))).1 == Affected(1)
    ensures
      var db1 := Exec(db, Event(e.now1, Phase1(e.receiptId, e.fields))).0;
      && Unanswered(db1, e) && Sound(Run(db1, e.gap1)) && Unanswered(Run(db1, e.gap1), e)
  {
    var e1 := Event(e.now1, Phase1(e.receiptId, e.fields));
    ExecKeepsSound(db, e1);
    ForeignRunOnOurs(Exec(db, e1).0, e.gap1, ours, e.receiptId);
  }

  lemma DispatchPath(db: Db, e: Environment, ours: set<int>)
    requires Sound(db) && Admissible(e, ours) && e.secretLoaded && !e.phase1.NotRun?
    ensures
      var s := Phase1(e.receiptId, e.fields);
      var o := Exec(db, Event(e.now1, s)).1;
      var d := Dispatch(db, e);
      && Follows([Attempt(s, o)], d.attempts)
      && (o == Affected(1) ==> Matches(d, e))
  {
    var s := Phase1(e.receiptId, e.fields);
    var (db1, o) := Exec(db, Event(e.now1, s));
    if o == Affected(1) {
      AfterPhase1(db, e, ours);
      var db2 := Run(db1, e.gap1);
      FinalizeTimeoutPath(db2, e, [Attempt(s, o)], ours);
      if e.reply.Some? {
        AdjudicatingPath(db2, e, [Attempt(s, o)], Pass, ours);
        AdjudicatingPath(db2, e, [Attempt(s, o)], Fail, ours);
      }
    }
  }

  /** The statements a dispatch attempts: Phase 1 first and once, the response at most once, no rejection after. */
  lemma DispatchAttempts(db: Db, e: Environment, ours: set<int>)
    requires Sound(db) && Admissible(e, ours)
    ensures var d := Dispatch(db, e);
      && (e.secretLoaded && !e.phase1.NotRun? <==> d.attempts != [])
      && (forall i :: 0 <= i < |d.attempts| ==> (d.attempts[i].stmt.Phase1? <==> i == 0))
      && (forall i :: 0 <= i < |d.attempts| ==> (d.attempts[i].stmt.RecordResponse? ==> i == 1))
      && (forall i :: 1 <= i < |d.attempts| ==> d.attempts[i].outcome in {Affected(0), Affected(1)})
  {
    if e.secretLoaded && !e.phase1.NotRun? {
      DispatchPath(db, e, ours);
      assert Dispatch(db, e).attempts[0].stmt == Phase1(e.receiptId, e.fields);
    }
  }

  /** The row a dispatch leaves, and the counter effect that matches it unless Phase 2's answer was lost. */
  lemma DispatchRow(db: Db, e: Environment, ours: set<int>)
    requires Sound(db) && Admissible(e, ours)
    ensures var d := Dispatch(db, e);
      && (d.attempts != [] && d.attempts[0].outcome == Affected(1) ==> e.receiptId !in db.rows && Matches(d, e))
      && (d.attempts == [] || d.attempts[0].outcome != Affected(1) ==> d.effect == NoChange && d.db == db)
  {
    if e.secretLoaded && !e.phase1.NotRun? { DispatchPath(db, e, ours); }
  }

  /**
    Every path through the dispatcher: one Phase 1 attempt, at most one response write, no attempt
    after Phase 1 that a CHECK or a policy rejects (the collector can only turn it into zero rows),
    and a counter effect that is exactly the one the row left in the table calls for, unless the
    answer to Phase 2 was lost.
   */
  lemma DispatchIsDisciplined(db: Db, e: Environment, ours: set<int>)
    requires Sound(db) && Admissible(e, ours)
    ensures var d := Dispatch(db, e);
      && Sound(d.db)
      && (e.secretLoaded && !e.phase1.NotRun? <==> d.attempts != [])
      && (forall i :: 0 <= i < |d.attempts| ==> (d.attempts[i].stmt.Phase1? <==> i == 0))
      && (forall i :: 0 <= i < |d.attempts| ==> (d.attempts[i].stmt.RecordResponse? ==> i == 1))
      && (forall i :: 1 <= i < |d.attempts| ==> d.attempts[i].outcome in {Affected(0), Affected(1)})
      && (d.attempts != [] && d.attempts[0].outcome == Affected(1) ==> e.receiptId !in db.rows && Matches(d, e))
      && (d.attempts == [] || d.attempts[0].outcome != Affected(1) ==> d.effect == NoChange && d.db == db)
  {
    DispatchKeepsSound(db, e);
    DispatchAttempts(db, e, ours);
    DispatchRow(db, e, ours);
  }

  /**
    With no fault and no collector in the way, the row left behind is exactly: TIMEOUT when no
    reply arrived, the adjudicated verdict when one did, PENDING under a retired secret version.
   */
  lemma UndisturbedOutcome(db: Db, e: Environment, ours: set<int>)
    requires Sound(db) && Admissible(e, ours)
    requires e.secretLoaded && e.phase1.Done? && e.rtoKnown && e.deadlineSet && e.keyFound && e.throughputFound
    requires e.record.Done? && e.phase2.Done? && e.gap1 == [] && e.gap2 == []
    requires e.receiptId !in db.rows && e.fields.nonce !in db.nonces && ChecksHold(FreshRow(e.fields))
    ensures var d := Dispatch(db, e).db;
      && e.receiptId in d.rows
      && (!e.streamOpened || !e.requestWritten || e.reply.None? <==> TimedOut(d.rows[e.receiptId]))
      && (e.streamOpened && e.requestWritten && e.reply.Some? && e.versionValid <==> Adjudicated(d.rows[e.receiptId]))
      && (e.streamOpened && e.requestWritten && e.reply.Some? && !e.versionValid <==> PendingEmpty(d.rows[e.receiptId]))
      && (d.rows[e.receiptId].result == Some(Pass) <==>
            e.streamOpened && e.requestWritten && e.reply.Some? && e.versionValid
            && e.reply.value.status == STATUS_OK && e.signatureValid)
  {
  }

  /** What an undisturbed dispatch records: the Phase 1 columns, the reply as it came, and Phase 2's signature and time. */
  lemma UndisturbedRow(db: Db, e: Environment, ours: set<int>)
    requires Sound(db) && Admissible(e, ours)
    requires e.secretLoaded && e.phase1.Done? && e.rtoKnown && e.deadlineSet && e.keyFound && e.throughputFound
    requires e.record.Done? && e.phase2.Done? && e.gap1 == [] && e.gap2 == []
    requires e.receiptId !in db.rows && e.fields.nonce !in db.nonces && ChecksHold(FreshRow(e.fields))
    ensures
      var d := Dispatch(db, e).db;
      var answered := e.streamOpened && e.requestWritten && e.reply.Some? && e.versionValid;
      var final := answered || !e.streamOpened || !e.requestWritten || e.reply.None?;
      && e.receiptId in d.rows
      && var r := d.rows[e.receiptId];
      && r.fields == e.fields && r.abandonedAt.None?
      && r.responseHash == (if answered then Some(e.reply.value.hash) else None)
      && r.providerSig == (if answered then Some(e.reply.value.sig) else None)
      && r.latencyMs == (if answered then Some(e.latency) else None)
      && r.jitFlag == (answered && e.jit)
      && r.serviceSig == (if final then Some(e.serviceSig) else None)
      && r.countersignTs == (if final then Some(e.now3) else None)
      && d.nonces == db.nonces + {e.fields.nonce}
      && forall id :: id in db.rows ==> id in d.rows && d.rows[id] == db.rows[id]
  {
  }

  // ---------------------------------------------------------------- serial runs of one provider

  datatype Status = Vetting | Active

  datatype Provider = Provider(status: Status, passes: nat)

  datatype Profile = Profile(minPasses: nat, minDuration: int)

  /** IncrementConsecutivePasses and ResetConsecutivePasses; Reset does not look at the status. */
  function Apply(p: Provider, f: Effect, profile: Profile, vettingAge: Option<int>): Provider {
    match f
    case NoChange => p
    case Reset => p.(passes := 0)
    case Increment =>
      if p.status != Vetting then p
      else if p.passes + 1 >= profile.minPasses && vettingAge.Some? && vettingAge.value >= profile.minDuration
      then Provider(Active, p.passes + 1)
      else p.(passes := p.passes + 1)
  }

  /** One dispatch of a serial run: its environment, the provider's age when it is scored, and whether that update works. */
  datatype Round = Round(env: Environment, vettingAge: Option<int>, counterUpdated: bool)

  datatype World = World(db: Db, provider: Provider)

  /** The counter change that takes place; a failing update is only logged. */
  function Applied(db: Db, r: Round): Effect { if r.counterUpdated then Dispatch(db, r.env).effect else NoChange }

  function Serial(w: World, rounds: seq<Round>, profile: Profile): World
    decreases |rounds|
  {
    if rounds == [] then w else
    var last := rounds[|rounds| - 1];
    var w' := Serial(w, rounds[..|rounds| - 1], profile);
    World(Dispatch(w'.db, last.env).db, Apply(w'.provider, Applied(w'.db, last), profile, last.vettingAge))
  }

  /** Receipt ids of the run, each used once, none known to other sessions. */
  predicate RunAdmissible(w: World, rounds: seq<Round>, ours: set<int>) {
    && (forall i :: 0 <= i < |rounds| ==> Admissible(rounds[i].env, ours) && rounds[i].env.receiptId !in w.db.rows)
    && (forall i, j :: 0 <= i < j < |rounds| ==> rounds[i].env.receiptId != rounds[j].env.receiptId)
  }

  /** One round on the counter: a PASS adds one while VETTING and nothing afterwards, and is the only way to ACTIVE. */
  lemma ScoreOutcome(p: Provider, f: Effect, profile: Profile, age: Option<int>)
    ensures
      var q := Apply(p, f, profile, age);
      && q.passes == (match f case NoChange => p.passes case Reset => 0 case Increment => if p.status == Vetting then p.passes + 1 else p.passes)
      && (p.status == Active ==> q.status == Active)
      && (p.status == Vetting ==>
            (q.status == Active <==> f == Increment && q.passes >= profile.minPasses && age.Some? && age.value >= profile.minDuration))
  {
  }

  /**
    The streak read off the receipt table: PASSes counted back to the last FAIL or fresh-address
    TIMEOUT, added to the starting count when there is neither.
   */
  function Streak(start: nat, db: Db, rounds: seq<Round>): nat
    decreases |rounds|
  {
    if rounds == [] then start else
    var before := Streak(start, db, rounds[..|rounds| - 1]);
    var id := rounds[|rounds| - 1].env.receiptId;
    if id !in db.rows then before
    else match EffectOf(db.rows[id]) case Increment => before + 1 case Reset => 0 case NoChange => before
  }

  lemma {:induction false} StreakDependsOnResults(start: nat, a: Db, b: Db, rounds: seq<Round>)
    requires forall i :: 0 <= i < |rounds| ==> var id := rounds[i].env.receiptId;
      (id in a.rows <==> id in b.rows) && (id in a.rows ==> EffectOf(a.rows[id]) == EffectOf(b.rows[id]))
    ensures Streak(start, a, rounds) == Streak(start, b, rounds)
    decreases |rounds|
  {
    if rounds != [] {
      var last := rounds[|rounds| - 1];
      assert rounds[|rounds| - 1].env.receiptId == last.env.receiptId;
      StreakDependsOnResults(start, a, b, rounds[..|rounds| - 1]);
    }
  }

  /** A row of ours appears only through its own dispatch. */
  lemma {:induction false} ForeignRunAddsNoneOfOurs(db: Db, es: seq<Event>, ours: set<int>, id: int)
    requires Foreign(ours, es) && id in ours && id !in db.rows
    ensures id !in Run(db, es).rows
    decreases |es|
  {
    if es != [] {
      assert es[0].stmt.id == id ==> es[0].stmt.Abandon?;
      assert forall i :: 0 <= i < |es| - 1 ==> es[1..][i] == es[i + 1];
      ForeignRunAddsNoneOfOurs(Exec(db, es[0]).0, es[1..], ours, id);
    }
  }

  lemma DispatchAddsOnlyItsRow(db: Db, e: Environment, ours: set<int>, id: int)
    requires Admissible(e, ours) && id in ours && id !in db.rows && id != e.receiptId
    ensures id !in Dispatch(db, e).db.rows
  {
    if e.secretLoaded && !e.phase1.NotRun? {
      var db1 := Exec(db, Event(e.now1, Phase1(e.receiptId, e.fields))).0;
      ForeignRunAddsNoneOfOurs(db1, e.gap1, ours, id);
      if e.reply.Some? {
        var s := RecordResponse(e.receiptId, e.reply.value.hash, e.reply.value.sig, e.latency, e.jit);
        ForeignRunAddsNoneOfOurs(Exec(Run(db1, e.gap1), Event(e.now2, s)).0, e.gap2, ours, id);
      }
    }
  }

  /** What holds of the table after a serial run. */
  lemma {:induction false} SerialTable(w: World, rounds: seq<Round>, profile: Profile, ours: set<int>)
    requires Sound(w.db) && RunAdmissible(w, rounds, ours)
    ensures Sound(Serial(w, rounds, profile).db)
    ensures forall id :: id in ours && id !in w.db.rows && (forall i :: 0 <= i < |rounds| ==> rounds[i].env.receiptId != id)
              ==> id !in Serial(w, rounds, profile).db.rows
    decreases |rounds|
  {
    if rounds != [] {
      var init, last := rounds[..|rounds| - 1], rounds[|rounds| - 1];
      SerialTable(w, init, profile, ours);
      var w' := Serial(w, init, profile);
      DispatchKeepsSound(w'.db, last.env);
      forall id | id in ours && id !in w.db.rows && (forall i :: 0 <= i < |rounds| ==> rounds[i].env.receiptId != id)
        ensures id !in Serial(w, rounds, profile).db.rows
      {
        assert forall i :: 0 <= i < |init| ==> init[i] == rounds[i];
        assert rounds[|rounds| - 1].env.receiptId != id;
        DispatchAddsOnlyItsRow(w'.db, last.env, ours, id);
      }
    }
  }

  /** The change the row left by round k calls for. */
  function DueAt(db: Db, e: Environment): Effect {
    var d := Dispatch(db, e).db;
    if e.receiptId in d.rows then EffectOf(d.rows[e.receiptId]) else NoChange
  }

  /** Round k's change was called for and not made, and making it would have changed the counter. */
  predicate Missed(w: World, rounds: seq<Round>, profile: Profile, k: nat)
    requires k < |rounds|
  {
    var before := Serial(w, rounds[..k], profile);
    var due := DueAt(before.db, rounds[k].env);
    Applied(before.db, rounds[k]) != due && !(due == Reset && before.provider.passes == 0)
  }

  /** After n rounds the counter is the streak read off the table as it then stands. */
  predicate Agrees(w: World, rounds: seq<Round>, profile: Profile, n: nat)
    requires n <= |rounds|
  {
    var v := Serial(w, rounds[..n], profile);
    v.provider.passes == Streak(w.provider.passes, v.db, rounds[..n])
  }

  /** A further dispatch leaves the streak of the rounds before it as it was. */
  lemma StreakStays(w: World, rounds: seq<Round>, profile: Profile, ours: set<int>)
    requires Sound(w.db) && RunAdmissible(w, rounds, ours) && rounds != []
    ensures
      var init, last := rounds[..|rounds| - 1], rounds[|rounds| - 1];
      var w' := Serial(w, init, profile);
      && Sound(w'.db) && last.env.receiptId !in w'.db.rows
      && Streak(w.provider.passes, w'.db, init) == Streak(w.provider.passes, Dispatch(w'.db, last.env).db, init)
  {
    var init, last := rounds[..|rounds| - 1], rounds[|rounds| - 1];
    var w' := Serial(w, init, profile);
    var d := Dispatch(w'.db, last.env);
    assert forall i :: 0 <= i < |init| ==> init[i] == rounds[i];
    assert Admissible(last.env, ours);
    SerialTable(w, init, profile, ours);
    assert last.env.receiptId !in w'.db.rows by {
      assert forall i :: 0 <= i < |init| ==> init[i].env.receiptId != rounds[|rounds| - 1].env.receiptId;
    }
    forall i | 0 <= i < |init|
      ensures var id := init[i].env.receiptId;
        (id in w'.db.rows <==> id in d.db.rows) &&
        (id in w'.db.rows ==> EffectOf(w'.db.rows[id]) == EffectOf(d.db.rows[id]))
    {
      var id := init[i].env.receiptId;
      assert rounds[i].env.receiptId != rounds[|rounds| - 1].env.receiptId;
      if id in w'.db.rows {
        DispatchLeavesOthers(w'.db, last.env, ours, id);
      } else {
        DispatchAddsOnlyItsRow(w'.db, last.env, ours, id);
      }
    }
    StreakDependsOnResults(w.provider.passes, w'.db, d.db, init);
  }

  /** What a dispatch changes is what its row calls for, or nothing at all. */
  lemma AppliedIsDueOrNothing(db: Db, r: Round, ours: set<int>)
    requires Sound(db) && Admissible(r.env, ours) && r.env.receiptId !in db.rows
    ensures Applied(db, r) == if r.counterUpdated && !r.env.phase2.AckLost? then DueAt(db, r.env) else NoChange
  {
    DispatchRow(db, r.env, ours);
  }

  lemma RoundKeepsAgreementIff(w: World, rounds: seq<Round>, profile: Profile, ours: set<int>)
    requires Sound(w.db) && RunAdmissible(w, rounds, ours) && rounds != []
    requires Serial(w, rounds, profile).provider.status == Vetting
    requires Agrees(w, rounds, profile, |rounds| - 1)
    ensures Agrees(w, rounds, profile, |rounds|) <==> !Missed(w, rounds, profile, |rounds| - 1)
  {
    var n := |rounds| - 1;
    var before := Serial(w, rounds[..n], profile);
    assert rounds[..n + 1] == rounds;
    StreakStays(w, rounds, profile, ours);
    assert Admissible(rounds[n].env, ours);
    AppliedIsDueOrNothing(before.db, rounds[n], ours);
  }

  lemma MissedInPrefix(w: World, rounds: seq<Round>, profile: Profile, n: nat, k: nat)
    requires k < n <= |rounds|
    ensures Missed(w, rounds[..n], profile, k) == Missed(w, rounds, profile, k)
  {
    assert rounds[..n][..k] == rounds[..k];
  }

  lemma AgreesInPrefix(w: World, rounds: seq<Round>, profile: Profile, n: nat, m: nat)
    requires m <= n <= |rounds|
    ensures Agrees(w, rounds[..n], profile, m) == Agrees(w, rounds, profile, m)
  {
    assert rounds[..n][..m] == rounds[..m];
  }

  /** A provider VETTING at the end was VETTING all along. */
  lemma {:induction false} VettingThroughout(w: World, rounds: seq<Round>, profile: Profile, n: nat)
    requires n <= |rounds| && Serial(w, rounds, profile).provider.status == Vetting
    ensures Serial(w, rounds[..n], profile).provider.status == Vetting
    decreases |rounds|
  {
    var m := |rounds|;
    if n == m {
      assert rounds[..n] == rounds;
    } else {
      VettingThroughout(w, rounds[..m - 1], profile, n);
      assert rounds[..m - 1][..n] == rounds[..n];
    }
  }

  lemma AgreementStep(w: World, rounds: seq<Round>, profile: Profile, ours: set<int>, n: nat)
    requires Sound(w.db) && RunAdmissible(w, rounds, ours) && 0 < n <= |rounds|
    requires Serial(w, rounds, profile).provider.status == Vetting
    requires Agrees(w, rounds, profile, n - 1)
    ensures Agrees(w, rounds, profile, n) <==> !Missed(w, rounds, profile, n - 1)
  {
    var upTo := rounds[..n];
    assert forall i :: 0 <= i < n ==> upTo[i] == rounds[i];
    VettingThroughout(w, rounds, profile, n);
    AgreesInPrefix(w, rounds, profile, n, n - 1);
    AgreesInPrefix(w, rounds, profile, n, n);
    MissedInPrefix(w, rounds, profile, n, n - 1);
    RoundKeepsAgreementIff(w, upTo, profile, ours);
  }

  lemma {:induction false} StreakMatchesUpTo(w: World, rounds: seq<Round>, profile: Profile, ours: set<int>, n: nat)
    requires Sound(w.db) && RunAdmissible(w, rounds, ours) && n <= |rounds|
    requires Serial(w, rounds, profile).provider.status == Vetting
    ensures (forall m: nat :: m <= n ==> Agrees(w, rounds, profile, m))
       <==> (forall k: nat :: k < n ==> !Missed(w, rounds, profile, k))
  {
    if n == 0 {
      assert rounds[..0] == [];
    } else {
      StreakMatchesUpTo(w, rounds, profile, ours, n - 1);
      if Agrees(w, rounds, profile, n - 1) { AgreementStep(w, rounds, profile, ours, n); }
    }
  }

  /**
    Over any serial run of one provider still VETTING at its end, the counter equals the streak read
    off the receipt table after every round if and only if no round's change was missed: stale-address
    TIMEOUTs, retired-version replies, abandoned rows and calls that never ran are invisible.
   */
  lemma StreakMatchesIff(w: World, rounds: seq<Round>, profile: Profile, ours: set<int>)
    requires Sound(w.db) && RunAdmissible(w, rounds, ours)
    requires Serial(w, rounds, profile).provider.status == Vetting
    ensures (forall n: nat :: n <= |rounds| ==> Agrees(w, rounds, profile, n))
       <==> (forall k: nat :: k < |rounds| ==> !Missed(w, rounds, profile, k))
  {
    StreakMatchesUpTo(w, rounds, profile, ours, |rounds|);
  }

  /**
    A change is missed exactly when the answer to Phase 2 is lost or the counter update fails, the row
    left behind calls for a change, and that change is not a reset of a counter already at zero.
   */
  lemma MissedIff(w: World, rounds: seq<Round>, profile: Profile, ours: set<int>, k: nat)
    requires Sound(w.db) && RunAdmissible(w, rounds, ours) && k < |rounds|
    ensures
      var before := Serial(w, rounds[..k], profile);
      var due := DueAt(before.db, rounds[k].env);
      Missed(w, rounds, profile, k) <==>
        && (rounds[k].env.phase2.AckLost? || !rounds[k].counterUpdated)
        && due != NoChange && !(due == Reset && before.provider.passes == 0)
  {
    var upTo := rounds[..k + 1];
    assert upTo[..k] == rounds[..k] && upTo[k] == rounds[k];
    assert forall i :: 0 <= i < |upTo| ==> upTo[i] == rounds[i];
    StreakStays(w, upTo, profile, ours);
    AppliedIsDueOrNothing(Serial(w, rounds[..k], profile).db, rounds[k], ours);
  }

  /** So without those two faults the counter is the streak at the end of the run. */
  lemma StreakMatchesTable(w: World, rounds: seq<Round>, profile: Profile, ours: set<int>)
    requires Sound(w.db) && RunAdmissible(w, rounds, ours)
    requires Serial(w, rounds, profile).provider.status == Vetting
    requires forall i :: 0 <= i < |rounds| ==> !rounds[i].env.phase2.AckLost? && rounds[i].counterUpdated
    ensures Serial(w, rounds, profile).provider.passes ==
            Streak(w.provider.passes, Serial(w, rounds, profile).db, rounds)
  {
    forall k: nat | k < |rounds| ensures !Missed(w, rounds, profile, k) {
      MissedIff(w, rounds, profile, ours, k);
    }
    StreakMatchesIff(w, rounds, profile, ours);
    assert Agrees(w, rounds, profile, |rounds|) && rounds[..|rounds|] == rounds;
  }

  /** Round k is a PASS that completes the count once the minimum age is reached. */
  predicate Completes(w: World, rounds: seq<Round>, profile: Profile, k: nat)
    requires k < |rounds|
  {
    var before := Serial(w, rounds[..k], profile);
    && before.provider.status == Vetting
    && Applied(before.db, rounds[k]) == Increment
    && before.provider.passes + 1 >= profile.minPasses
    && rounds[k].vettingAge.Some? && rounds[k].vettingAge.value >= profile.minDuration
  }

  lemma ActivationStep(w: World, rounds: seq<Round>, profile: Profile)
    requires rounds != []
    requires Serial(w, rounds[..|rounds| - 1], profile).provider.status in {Vetting, Active}
    ensures Serial(w, rounds, profile).provider.status in {Vetting, Active}
    ensures Serial(w, rounds, profile).provider.status == Active <==>
            Serial(w, rounds[..|rounds| - 1], profile).provider.status == Active
            || Completes(w, rounds, profile, |rounds| - 1)
  {
  }

  lemma CompletesInPrefix(w: World, rounds: seq<Round>, profile: Profile, n: nat, k: nat)
    requires k < n <= |rounds|
    ensures Completes(w, rounds[..n], profile, k) == Completes(w, rounds, profile, k)
  {
    assert rounds[..n][..k] == rounds[..k];
  }

  /** The provider has turned ACTIVE exactly when some round completed the count. */
  lemma {:induction false} ActivationPoint(w: World, rounds: seq<Round>, profile: Profile)
    requires w.provider.status == Vetting
    ensures Serial(w, rounds, profile).provider.status in {Vetting, Active}
    ensures Serial(w, rounds, profile).provider.status == Active <==>
            exists k: nat :: k < |rounds| && Completes(w, rounds, profile, k)
    decreases |rounds|
  {
    if rounds != [] {
      var n := |rounds| - 1;
      ActivationPoint(w, rounds[..n], profile);
      forall k: nat | k < n ensures Completes(w, rounds[..n], profile, k) == Completes(w, rounds, profile, k) {
        CompletesInPrefix(w, rounds, profile, n, k);
      }
      ActivationStep(w, rounds, profile);
    }
  }

  // ---------------------------------------------------------------- the dispatcher, statement by statement

  /** The coordinator's database session, with the log of the statements it has attempted. */
  class Coordinator {
    var db: Db
    var attempts: seq<Attempt>

    constructor (initial: Db)
      ensures db == initial && attempts == []
    {
      db, attempts := initial, [];
    }

    method Execute(now: int, s: Statement) returns (o: Outcome)
      modifies this
      ensures (db, o) == Exec(old(db), Event(now, s))
      ensures attempts == old(attempts) + [Attempt(s, o)]
    {
      var (db', outcome) := Exec(db, Event(now, s));
      db, o, attempts := db', outcome, attempts + [Attempt(s, outcome)];
    }

    /** Statements other sessions run while this one waits. */
    method Interfere(es: seq<Event>)
      modifies this
      ensures db == Run(old(db), es) && attempts == old(attempts)
    {
      for i := 0 to |es|
        invariant Run(db, es[i..]) == Run(old(db), es) && attempts == old(attempts)
      {
        assert es[i..][0] == es[i] && es[i..][1..] == es[i + 1..];
        db := Exec(db, es[i]).0;
      }
    }

    method FinalizeTimeoutNow(e: Environment) returns (f: Effect)
      modifies this
      ensures var d := FinalizeTimeout(old(db), e, old(attempts));
        db == d.db && attempts == d.attempts && f == d.effect
    {
      f := NoChange;
      if !e.phase2.NotRun? {
        var o := Execute(e.now3, Phase2(e.receiptId, Timeout, e.serviceSig, e.now3));
        if o == Affected(1) && e.phase2.Done? && !e.fields.addressWasStale {
          f := Reset;
        }
      }
    }

    /** Runs the whole protocol for one assignment and leaves what `Dispatch` says. */
    method DispatchOneChallenge(e: Environment) returns (f: Effect)
      requires attempts == []
      modifies this
      ensures var d := Dispatch(old(db), e); db == d.db && attempts == d.attempts && f == d.effect
    {
      f := NoChange;
      if !e.secretLoaded || e.phase1.NotRun? { return; }
      var o := Execute(e.now1, Phase1(e.receiptId, e.fields));
      if o != Affected(1) || e.phase1.AckLost? { return; }
      Interfere(e.gap1);
      if !e.streamOpened {
        f := FinalizeTimeoutNow(e);
        return;
      }
      if !e.rtoKnown || !e.deadlineSet { return; }
      if !e.requestWritten || e.reply.None? {
        f := FinalizeTimeoutNow(e);
        return;
      }
      if !e.versionValid { return; }
      var verdict := Adjudicate(e.reply.value.status, e.keyFound, e.signatureValid);
      if verdict.LookupFailed? || !e.throughputFound || e.record.NotRun? { return; }
      o := Execute(e.now2, RecordResponse(e.receiptId, e.reply.value.hash, e.reply.value.sig, e.latency, e.jit));
      if o != Affected(1) || e.record.AckLost? { return; }
      Interfere(e.gap2);
      if e.phase2.NotRun? { return; }
      o := Execute(e.now3, Phase2(e.receiptId, verdict.result, e.serviceSig, e.now3));
      if o == Affected(1) && e.phase2.Done? {
        f := if verdict.result == Pass then Increment else Reset;
      }
    }
  }
}
