/**
  The audit_receipts table: columns, CHECK constraints, row security policies and the four
  statements that ever touch it. Rows are keyed by receipt_id.
 */
module AuditReceipts {
  import opened Prelude

  datatype AuditResult = Pass | Fail | Timeout

  /** The columns Phase 1 writes; no later statement assigns them. */
  datatype Fields = Fields(
    chunkId: Bytes, fileId: Option<int>, providerId: int,
    nonce: Bytes, challengeTs: int, addressWasStale: bool)

  datatype Receipt = Receipt(
    fields: Fields,
    responseHash: Option<Bytes>, providerSig: Option<Bytes>, latencyMs: Option<int>, jitFlag: bool,
    result: Option<AuditResult>, serviceSig: Option<Bytes>, countersignTs: Option<int>,
    abandonedAt: Option<int>)

  /** The receipt table and the global nonce guard written in the same transaction. */
  datatype Db = Db(rows: map<int, Receipt>, nonces: set<Bytes>)

  // ---------------------------------------------------------------- constraints and policies

  predicate ChecksHold(r: Receipt) {
    && |r.fields.chunkId| == 32
    && |r.fields.nonce| == 33
    && (r.responseHash.Some? ==> |r.responseHash.value| == 32)
    && (r.providerSig.Some? ==> |r.providerSig.value| == 64)
    && (r.serviceSig.Some? ==> |r.serviceSig.value| == 64)
    && (r.latencyMs.Some? ==> r.latencyMs.value >= 0)
    && (|| (r.result in {Some(Pass), Some(Fail)} && r.responseHash.Some? && r.providerSig.Some?)
        || (r.result == Some(Timeout) && r.responseHash.None? && r.providerSig.None?)
        || r.result.None?)
    && (r.serviceSig.None? <==> r.countersignTs.None?)
  }

  datatype Role = App | Gc

  const ABANDON_AGE := 48 * 60 * 60 * 1000

  /** USING, with the permissive policies of one role ORed together. */
  predicate Using(role: Role, r: Receipt, now: int) {
    match role
    case App =>
      || (r.result.None? && r.abandonedAt.None?)
      || (r.result.None? && r.abandonedAt.None? && r.responseHash.None?)
    case Gc =>
      r.result.None? && r.abandonedAt.None? && r.fields.challengeTs < now - ABANDON_AGE
  }

  /** WITH CHECK, ORed separately from USING. */
  predicate WithCheck(role: Role, r: Receipt) {
    match role
    case App =>
      || (r.result.Some? && r.serviceSig.Some? && r.countersignTs.Some?)
      || (r.result.None? && r.responseHash.Some? && r.providerSig.Some?)
    case Gc =>
      r.abandonedAt.Some? && r.result.None?
  }

  // ---------------------------------------------------------------- statements

  datatype Outcome = Affected(rows: nat) | PolicyViolation | CheckViolation | UniqueViolation

  datatype Statement =
    | Phase1(id: int, fields: Fields)
    | RecordResponse(id: int, hash: Bytes, sig: Bytes, latency: int, jit: bool)
    | Phase2(id: int, result: AuditResult, serviceSig: Bytes, at: int)
    | Abandon(id: int, at: int)

  datatype Event = Event(now: int, stmt: Statement)

  function FreshRow(f: Fields): Receipt {
    Receipt(f, None, None, None, false, None, None, None, None)
  }

  /** The row a statement's SET clause would produce. */
  function Assigned(r: Receipt, s: Statement): Receipt
    requires !s.Phase1?
  {
    match s
    case RecordResponse(_, hash, sig, latency, jit) =>
      r.(responseHash := Some(hash), providerSig := Some(sig), latencyMs := Some(latency), jitFlag := jit)
    case Phase2(_, result, sig, at) =>
      r.(result := Some(result), serviceSig := Some(sig), countersignTs := Some(at))
    case Abandon(_, at) => r.(abandonedAt := Some(at))
  }

  /** The statement's own WHERE clause, apart from the receipt_id equality. */
  predicate Where(r: Receipt, s: Statement)
    requires !s.Phase1?
  {
    match s
    case RecordResponse(_, _, _, _, _) => r.result.None? && r.abandonedAt.None? && r.responseHash.None?
    case Phase2(_, _, _, _) => r.result.None? && r.abandonedAt.None?
    case Abandon(_, _) => true
  }

  function RoleOf(s: Statement): Role { if s.Abandon? then Gc else App }

  /** One statement against the database, under row security and the constraints. */
  function Exec(db: Db, e: Event): (Db, Outcome) {
    var s := e.stmt;
    if s.Phase1? then
      if s.fields.nonce in db.nonces || s.id in db.rows then (db, UniqueViolation)
      else if !ChecksHold(FreshRow(s.fields)) then (db, CheckViolation)
      else (Db(db.rows[s.id := FreshRow(s.fields)], db.nonces + {s.fields.nonce}), Affected(1))
    else if s.id !in db.rows || !Where(db.rows[s.id], s) || !Using(RoleOf(s), db.rows[s.id], e.now) then
      (db, Affected(0))
    else
      var r := Assigned(db.rows[s.id], s);
      if !WithCheck(RoleOf(s), r) then (db, PolicyViolation)
      else if !ChecksHold(r) then (db, CheckViolation)
      else (db.(rows := db.rows[s.id := r]), Affected(1))
  }

  /** Any interleaving of statements, as the order in which the database serialised them. */
  function Run(db: Db, es: seq<Event>): Db
    decreases |es|
  {
    if es == [] then db else Run(Exec(db, es[0]).0, es[1..])
  }

  // ---------------------------------------------------------------- the five row states

  predicate PendingEmpty(r: Receipt) {
    r.result.None? && r.abandonedAt.None? && r.responseHash.None? && r.providerSig.None? &&
    r.latencyMs.None? && r.serviceSig.None?
  }

  predicate PendingAnswered(r: Receipt) {
    r.result.None? && r.abandonedAt.None? && r.responseHash.Some? && r.providerSig.Some? &&
    r.latencyMs.Some? && r.serviceSig.None?
  }

  predicate Adjudicated(r: Receipt) {
    r.result in {Some(Pass), Some(Fail)} && r.abandonedAt.None? && r.responseHash.Some? && r.providerSig.Some? &&
    r.latencyMs.Some? && r.serviceSig.Some?
  }

  predicate TimedOut(r: Receipt) {
    r.result == Some(Timeout) && r.abandonedAt.None? && r.responseHash.None? && r.providerSig.None? &&
    r.latencyMs.None? && r.serviceSig.Some?
  }

  predicate Abandoned(r: Receipt) {
    r.result.None? && r.abandonedAt.Some? && r.serviceSig.None? &&
    (r.responseHash.Some? <==> r.providerSig.Some?) && (r.responseHash.Some? <==> r.latencyMs.Some?)
  }

  function Counted(b: bool): nat { if b then 1 else 0 }

  predicate InExactlyOneState(r: Receipt) {
    Counted(PendingEmpty(r)) + Counted(PendingAnswered(r)) + Counted(Adjudicated(r)) + Counted(TimedOut(r))
    + Counted(Abandoned(r)) == 1
  }

  ghost predicate Reachable(db: Db) {
    exists es :: db == Run(Db(map[], {}), es)
  }

  ghost predicate Sound(db: Db) {
    && (forall id :: id in db.rows ==> InExactlyOneState(db.rows[id]) && ChecksHold(db.rows[id]))
    && (forall id :: id in db.rows ==> db.rows[id].fields.nonce in db.nonces)
    && (forall i, j :: i in db.rows && j in db.rows && i != j ==> db.rows[i].fields.nonce != db.rows[j].fields.nonce)
  }

  /** What may become of one row, over any number of statements. */
  predicate Evolves(r: Receipt, r': Receipt) {
    && r'.fields == r.fields
    && (Adjudicated(r) || TimedOut(r) || Abandoned(r) ==> r' == r)
    && (PendingAnswered(r) ==>
          && r'.responseHash == r.responseHash && r'.providerSig == r.providerSig
          && r'.latencyMs == r.latencyMs && r'.jitFlag == r.jitFlag
          && (PendingAnswered(r') || Adjudicated(r') || Abandoned(r')))
    && (PendingEmpty(r) && PendingEmpty(r') ==> r' == r)
  }

  lemma ExecKeepsSound(db: Db, e: Event)
    requires Sound(db)
    ensures Sound(Exec(db, e).0)
  {
    var s := e.stmt;
    if !s.Phase1? && s.id in db.rows {
      var r := db.rows[s.id];
      assert InExactlyOneState(r);
    }
  }

  lemma ExecEvolves(db: Db, e: Event, id: int)
    requires Sound(db) && id in db.rows
    ensures id in Exec(db, e).0.rows && Evolves(db.rows[id], Exec(db, e).0.rows[id])
  {
    assert InExactlyOneState(db.rows[id]);
  }

  lemma EvolvesTransitive(a: Receipt, b: Receipt, c: Receipt)
    requires InExactlyOneState(a) && InExactlyOneState(b)
    requires Evolves(a, b) && Evolves(b, c)
    ensures Evolves(a, c)
  {
  }

  /**
    Over every interleaving of the coordinator's writes and the collector's, every row is in
    exactly one of the five states, the nonce guard covers every row and nonces never repeat.
   */
  lemma {:induction false} RunKeepsSound(db: Db, es: seq<Event>)
    requires Sound(db)
    ensures Sound(Run(db, es))
    decreases |es|
  {
    if es != [] {
      ExecKeepsSound(db, es[0]);
      RunKeepsSound(Exec(db, es[0]).0, es[1..]);
    }
  }

  /**
    Terminal and abandoned rows never change again, a recorded response is never rewritten, an
    answered row never becomes TIMEOUT and no row loses its Phase 1 columns or disappears.
   */
  lemma {:induction false} RunEvolves(db: Db, es: seq<Event>, id: int)
    requires Sound(db) && id in db.rows
    ensures id in Run(db, es).rows && Evolves(db.rows[id], Run(db, es).rows[id])
    ensures
      var r, r' := db.rows[id], Run(db, es).rows[id];
      && r'.fields == r.fields
      && (r.result.Some? || r.abandonedAt.Some? ==> r' == r)
      && (r.responseHash.Some? ==>
            && r'.responseHash == r.responseHash && r'.providerSig == r.providerSig
            && r'.latencyMs == r.latencyMs && r'.jitFlag == r.jitFlag && r'.result != Some(Timeout))
    decreases |es|
  {
    assert InExactlyOneState(db.rows[id]);
    if es == [] {
      assert InExactlyOneState(db.rows[id]);
    } else {
      var db' := Exec(db, es[0]).0;
      ExecKeepsSound(db, es[0]);
      ExecEvolves(db, es[0], id);
      RunEvolves(db', es[1..], id);
      EvolvesTransitive(db.rows[id], db'.rows[id], Run(db', es[1..]).rows[id]);
    }
  }

  lemma ReachableIsSound(db: Db)
    requires Reachable(db)
    ensures Sound(db)
  {
    var es :| db == Run(Db(map[], {}), es);
    RunKeepsSound(Db(map[], {}), es);
  }

  /** Whatever happens in between, a nonce once on record is refused with any timestamp or receipt id. */
  lemma ReplayRefused(db: Db, es: seq<Event>, e: Event, id: int)
    requires Sound(db) && id in db.rows && e.stmt.Phase1? && e.stmt.fields.nonce == db.rows[id].fields.nonce
    ensures Exec(Run(db, es), e) == (Run(db, es), UniqueViolation)
  {
    RunKeepsSound(db, es);
    RunEvolves(db, es, id);
    assert Run(db, es).rows[id].fields.nonce in Run(db, es).nonces;
  }

  /** Phase 1 is accepted exactly for a new receipt id and a new nonce, both of the right size, and leaves an empty pending row. */
  lemma IssuesIff(db: Db, now: int, id: int, f: Fields)
    ensures
      var (db', o) := Exec(db, Event(now, Phase1(id, f)));
      && (o == UniqueViolation <==> id in db.rows || f.nonce in db.nonces)
      && (o == Affected(1) <==> id !in db.rows && f.nonce !in db.nonces && |f.chunkId| == 32 && |f.nonce| == 33)
      && (o == Affected(1) ==>
            db' == Db(db.rows[id := Receipt(f, None, None, None, false, None, None, None, None)], db.nonces + {f.nonce}))
      && (o != Affected(1) ==> db' == db)
  {
  }

  /** A response is recorded exactly on a pending row without one, all four columns together, and nothing else changes. */
  lemma RecordsIff(db: Db, now: int, id: int, hash: Bytes, sig: Bytes, latency: int, jit: bool)
    requires Sound(db)
    ensures
      var (db', o) := Exec(db, Event(now, RecordResponse(id, hash, sig, latency, jit)));
      var open := id in db.rows && PendingEmpty(db.rows[id]);
      && (o == Affected(0) <==> !open)
      && (o == Affected(1) <==> open && |hash| == 32 && |sig| == 64 && latency >= 0)
      && (o == CheckViolation <==> open && !(|hash| == 32 && |sig| == 64 && latency >= 0))
      && db' == (if o == Affected(1)
                 then db.(rows := db.rows[id := Receipt(db.rows[id].fields, Some(hash), Some(sig), Some(latency), jit, None, None, None, None)])
                 else db)
  {
    if id in db.rows { assert InExactlyOneState(db.rows[id]) && ChecksHold(db.rows[id]); }
  }

  /** A pending row is closed exactly as PASS or FAIL over a recorded response, or as TIMEOUT without one. */
  lemma ClosesIff(db: Db, now: int, id: int, result: AuditResult, sig: Bytes, at: int)
    requires Sound(db)
    ensures
      var (db', o) := Exec(db, Event(now, Phase2(id, result, sig, at)));
      var open := id in db.rows && db.rows[id].result.None? && db.rows[id].abandonedAt.None?;
      && (o == Affected(0) <==> !open)
      && (o == Affected(1) <==> open && |sig| == 64 && (result == Timeout <==> db.rows[id].responseHash.None?))
      && (o == CheckViolation <==> open && !(|sig| == 64 && (result == Timeout <==> db.rows[id].responseHash.None?)))
      && db' == (if o == Affected(1)
                 then db.(rows := db.rows[id := db.rows[id].(result := Some(result), serviceSig := Some(sig), countersignTs := Some(at))])
                 else db)
  {
    if id in db.rows { assert InExactlyOneState(db.rows[id]) && ChecksHold(db.rows[id]); }
  }

  /** The collector abandons exactly the rows still pending 48 hours after they were issued, answered or not. */
  lemma AbandonsIff(db: Db, now: int, id: int, at: int)
    requires Sound(db)
    ensures
      var (db', o) := Exec(db, Event(now, Abandon(id, at)));
      && (o == Affected(1) <==>
            id in db.rows && db.rows[id].result.None? && db.rows[id].abandonedAt.None?
            && now - db.rows[id].fields.challengeTs > 48 * 60 * 60 * 1000)
      && (o == Affected(0) <==> o != Affected(1))
      && db' == if o == Affected(1) then db.(rows := db.rows[id := db.rows[id].(abandonedAt := Some(at))]) else db
  {
    if id in db.rows { assert InExactlyOneState(db.rows[id]); }
  }

  // ---------------------------------------------------------------- what the schema alone permits

  /** Some UPDATE by the application role could turn row r into row r'. */
  predicate SchemaAdmits(r: Receipt, r': Receipt, now: int) {
    Using(App, r, now) && WithCheck(App, r') && ChecksHold(r')
  }

  /**
    The policies alone make a recorded response rewritable exactly while its row is pending: the
    `response_hash IS NULL` conjunct of one policy is absorbed by the other. Write-once comes from
    the statement's WHERE clause, which RunEvolves relies on.
   */
  lemma PoliciesAdmitRewriteIffPending(r: Receipt, now: int, hash: Bytes, sig: Bytes)
    requires InExactlyOneState(r) && ChecksHold(r) && r.responseHash.Some? && |hash| == 32 && |sig| == 64
    ensures SchemaAdmits(r, r.(responseHash := Some(hash), providerSig := Some(sig)), now) <==> PendingAnswered(r)
    ensures !Where(r, RecordResponse(0, hash, sig, 0, false))
  {
  }

  /**
    What the schema lets the application role make of a row, whatever statement it sends: only a pending
    row that is not abandoned, and only into a signed final row whose response matches its verdict, or
    into a pending row with a whole response.
   */
  lemma SchemaAdmitsIff(r: Receipt, r': Receipt, now: int)
    requires InExactlyOneState(r) && r'.fields == r.fields && ChecksHold(r)
    ensures SchemaAdmits(r, r', now) <==>
      && r.result.None? && r.abandonedAt.None?
      && (match r'.result
          case None => r'.responseHash.Some? && r'.providerSig.Some? && (r'.serviceSig.Some? <==> r'.countersignTs.Some?)
          case Some(v) =>
            && r'.serviceSig.Some? && r'.countersignTs.Some?
            && (if v == Timeout then r'.responseHash.None? && r'.providerSig.None? else r'.responseHash.Some? && r'.providerSig.Some?))
      && (r'.responseHash.Some? ==> |r'.responseHash.value| == 32)
      && (r'.providerSig.Some? ==> |r'.providerSig.value| == 64)
      && (r'.serviceSig.Some? ==> |r'.serviceSig.value| == 64)
      && (r'.latencyMs.Some? ==> r'.latencyMs.value >= 0)
  {
  }
}
