/**
  The chunk_assignments table: its CHECK, its unique constraints and every statement the program runs
  against it, from upload and repair to the two deletion loops.
 */
module Assignments {
  import opened Prelude

  datatype Status = Active | Repairing | PendingDeletion | Deleted

  datatype Row = Row(
    chunk: int, provider: int, vetting: bool, segment: Option<int>, shard: Option<int>,
    status: Status, deletedAt: Option<int>)

  type Table = map<int, Row>

  // ---------------------------------------------------------------- constraints

  /** The row CHECKs, plus the policy that a DELETED row carries its time. */
  predicate RowOk(total: nat, r: Row) {
    && (if r.vetting then r.segment.None? && r.shard.None?
        else r.segment.Some? && r.shard.Some? && 0 <= r.shard.value < total)
    && (r.status == Deleted ==> r.deletedAt.Some?)
  }

  /** Rows the partial unique index covers. */
  predicate Live(r: Row) { !r.vetting && r.status in {Active, Repairing} }

  predicate SlotClash(a: Row, b: Row) {
    Live(a) && Live(b) && a.segment == b.segment && a.shard == b.shard
  }

  predicate SameCopy(a: Row, b: Row) { a.chunk == b.chunk && a.provider == b.provider }

  ghost predicate Consistent(total: nat, t: Table) {
    && (forall i :: i in t ==> RowOk(total, t[i]))
    && (forall i, j :: i in t && j in t && i != j ==> !SameCopy(t[i], t[j]) && !SlotClash(t[i], t[j]))
  }

  // ---------------------------------------------------------------- statements

  datatype Op =
    | Insert(id: int, row: Row)
    | Activate(chunk: int, provider: int)
    | Abandon(chunk: int, provider: int, at: int)
    | DepartShard(chunk: int, provider: int, at: int)
    | DepartVetting(provider: int, at: int)
    | OwnerDelete(segments: set<int>)
    | SetPending(provider: int, chunks: set<int>)
    | SetDeleted(provider: int, chunks: set<int>, at: int)

  /** loadActiveSyntheticChunkIDs. */
  function ActiveSynthetic(t: Table, provider: int): set<int> {
    set i | i in t && t[i].vetting && t[i].provider == provider && t[i].status == Active :: t[i].chunk
  }

  /** loadPendingDeletionRealChunkIDs. */
  function PendingReal(t: Table, provider: int): set<int> {
    set i | i in t && !t[i].vetting && t[i].provider == provider && t[i].status == PendingDeletion :: t[i].chunk
  }

  function Deleting(r: Row, at: int): Row { r.(status := Deleted, deletedAt := Some(at)) }

  /** What an UPDATE would leave behind, before the constraints are asked. */
  function Updated(t: Table, op: Op): Table
    requires !op.Insert?
  {
    match op
    case Activate(c, p) =>
      map i | i in t ::
        if t[i].chunk == c && t[i].provider == p && t[i].status == Repairing then t[i].(status := Active) else t[i]
    case Abandon(c, p, at) =>
      map i | i in t ::
        if t[i].chunk == c && t[i].provider == p && t[i].status == Repairing then Deleting(t[i], at) else t[i]
    case DepartShard(c, p, at) =>
      map i | i in t ::
        if t[i].chunk == c && t[i].provider == p && t[i].status == Active then Deleting(t[i], at) else t[i]
    case DepartVetting(p, at) =>
      map i | i in t :: if t[i].provider == p && t[i].vetting then Deleting(t[i], at) else t[i]
    case OwnerDelete(segs) =>
      map i | i in t ::
        if t[i].segment.Some? && t[i].segment.value in segs && t[i].status !in {PendingDeletion, Deleted}
        then t[i].(status := PendingDeletion) else t[i]
    // setChunkAssignmentsStatus: neither form looks at the row's present status
    case SetPending(p, chunks) =>
      map i | i in t ::
        if t[i].provider == p && t[i].chunk in chunks then t[i].(status := PendingDeletion) else t[i]
    case SetDeleted(p, chunks, at) =>
      map i | i in t ::
        if t[i].provider == p && t[i].chunk in chunks then Deleting(t[i], at) else t[i]
  }

  /** A statement that would break a constraint changes nothing. */
  ghost function Exec(total: nat, t: Table, op: Op): Table {
    match op
    case Insert(id, row) =>
      if id !in t && row.status in {Active, Repairing} && Consistent(total, t[id := row]) then t[id := row] else t
    case _ => if Consistent(total, Updated(t, op)) then Updated(t, op) else t
  }

  ghost function Run(total: nat, t: Table, ops: seq<Op>): Table {
    if ops == [] then t else Exec(total, Run(total, t, ops[..|ops|-1]), ops[|ops|-1])
  }

  // ---------------------------------------------------------------- what one row goes through

  /** Everything an update may do to a row: its identity stays, and it never becomes live again. */
  predicate RowStep(r: Row, s: Row) {
    && s.chunk == r.chunk && s.provider == r.provider && s.vetting == r.vetting
    && s.segment == r.segment && s.shard == r.shard
    && (Live(s) ==> Live(r))
    && (s.status == Deleted ==> s.deletedAt.Some? || r == s)
  }

  lemma UpdateSteps(t: Table, op: Op)
    requires !op.Insert?
    ensures Updated(t, op).Keys == t.Keys
    ensures forall i :: i in t ==> RowStep(t[i], Updated(t, op)[i])
  {
  }

  /** Only an INSERT can ever be refused: no update violates a constraint. */
  lemma UpdatesAreNeverRefused(total: nat, t: Table, op: Op)
    requires Consistent(total, t) && !op.Insert?
    ensures Exec(total, t, op) == Updated(t, op) && Consistent(total, Updated(t, op))
  {
    UpdateSteps(t, op);
    var u := Updated(t, op);
    forall i, j | i in u && j in u && i != j ensures !SameCopy(u[i], u[j]) && !SlotClash(u[i], u[j]) {
      assert !SameCopy(t[i], t[j]) && !SlotClash(t[i], t[j]);
      assert RowStep(t[i], u[i]) && RowStep(t[j], u[j]);
    }
    forall i | i in u ensures RowOk(total, u[i]) {
      assert RowStep(t[i], u[i]) && RowOk(total, t[i]);
    }
  }

  lemma {:induction false} RunIsConsistent(total: nat, t: Table, ops: seq<Op>)
    requires Consistent(total, t)
    ensures Consistent(total, Run(total, t, ops))
    ensures
      var u := Run(total, t, ops);
      forall i :: i in u ==>
        && (u[i].status == Deleted ==> u[i].deletedAt.Some?)
        && (u[i].vetting <==> u[i].segment.None?) && (u[i].vetting <==> u[i].shard.None?)
        && (u[i].shard.Some? ==> 0 <= u[i].shard.value < total)
  {
    if ops != [] {
      RunIsConsistent(total, t, ops[..|ops|-1]);
      if !ops[|ops|-1].Insert? {
        UpdatesAreNeverRefused(total, Run(total, t, ops[..|ops|-1]), ops[|ops|-1]);
      }
    }
  }

  // ---------------------------------------------------------------- pigeonhole

  function LiveRows(t: Table, segment: int): set<int> {
    set i | i in t && Live(t[i]) && t[i].segment == Some(segment)
  }

  function LiveBelow(t: Table, segment: int, k: int): set<int> {
    set i | i in t && Live(t[i]) && t[i].segment == Some(segment) && t[i].shard.Some? && t[i].shard.value < k
  }

  lemma {:induction false} LiveBelowBound(total: nat, t: Table, segment: int, k: nat)
    requires Consistent(total, t)
    ensures |LiveBelow(t, segment, k)| <= k
  {
    if |LiveBelow(t, segment, k)| > 0 {
      var a := Member(LiveBelow(t, segment, k));
      assert RowOk(total, t[a]);
      LiveBelowBound(total, t, segment, k - 1);
      var last := LiveBelow(t, segment, k) - LiveBelow(t, segment, k - 1);
      if |last| > 1 {
        var b := Member(last);
        var c := Member(last - {b});
        assert false;
      }
      assert LiveBelow(t, segment, k) == LiveBelow(t, segment, k - 1) + last;
    }
  }

  /** Over every run at most TotalShards live real shards stand for any segment. */
  lemma LiveShardsAreBounded(total: nat, t: Table, ops: seq<Op>, segment: int)
    requires Consistent(total, t)
    ensures |LiveRows(Run(total, t, ops), segment)| <= total
  {
    var u := Run(total, t, ops);
    RunIsConsistent(total, t, ops);
    LiveBelowBound(total, u, segment, total);
    assert forall i :: i in LiveRows(u, segment) ==> RowOk(total, u[i]);
    assert LiveRows(u, segment) == LiveBelow(u, segment, total);
  }

  // ---------------------------------------------------------------- repair

  predicate SlotTaken(t: Table, segment: int, shard: int) {
    exists i :: i in t && Live(t[i]) && t[i].segment == Some(segment) && t[i].shard == Some(shard)
  }

  predicate EverHeld(t: Table, chunk: int, provider: int) {
    exists i :: i in t && t[i].chunk == chunk && t[i].provider == provider
  }

  function Replacement(chunk: int, segment: int, shard: int, provider: int): Row {
    Row(chunk, provider, false, Some(segment), Some(shard), Repairing, None)
  }

  /** What the table takes, column by column: a new live row, of one of the two kinds, for a pair and a slot not yet taken. */
  lemma InsertAcceptedIff(total: nat, t: Table, id: int, row: Row)
    requires Consistent(total, t) && id !in t
    ensures Exec(total, t, Insert(id, row)) == (if id in Exec(total, t, Insert(id, row)) then t[id := row] else t)
    ensures id in Exec(total, t, Insert(id, row)) <==>
      && (row.status == Active || row.status == Repairing)
      && (if row.vetting then row.segment.None? && row.shard.None?
          else row.segment.Some? && row.shard.Some? && 0 <= row.shard.value < total)
      && !EverHeld(t, row.chunk, row.provider)
      && (row.vetting || !SlotTaken(t, row.segment.value, row.shard.value))
  {
    var u := t[id := row];
    if Consistent(total, u) {
      assert u[id] == row && RowOk(total, u[id]);
      forall i | i in t ensures !SameCopy(t[i], row) && !SlotClash(t[i], row) { assert u[i] == t[i]; }
    }
    if !EverHeld(t, row.chunk, row.provider) { assert forall i :: i in t ==> !SameCopy(t[i], row); }
    if !row.vetting && row.segment.Some? && row.shard.Some? {
      assert SlotTaken(t, row.segment.value, row.shard.value) <==>
        exists i :: i in t && Live(t[i]) && t[i].segment == row.segment && t[i].shard == row.shard;
    }
  }

  /**
    Pre-registering a replacement is accepted exactly when the slot has no live holder and this
    provider never had a row for the chunk, not even a deleted one.
   */
  lemma PreRegisterAcceptedIff(total: nat, t: Table, id: int, chunk: int, segment: int, shard: int, provider: int)
    requires Consistent(total, t) && id !in t
    ensures
      var row := Replacement(chunk, segment, shard, provider);
      id in Exec(total, t, Insert(id, row)) <==>
        0 <= shard < total && !SlotTaken(t, segment, shard) && !EverHeld(t, chunk, provider)
  {
    var row := Replacement(chunk, segment, shard, provider);
    var u := t[id := row];
    assert Consistent(total, u) <==>
      RowOk(total, row) && forall i :: i in t ==> !SameCopy(t[i], row) && !SlotClash(t[i], row)
    by {
      if Consistent(total, u) {
        assert u[id] == row;
        forall i | i in t ensures !SameCopy(t[i], row) && !SlotClash(t[i], row) { assert u[i] == t[i]; }
      }
    }
    assert SlotTaken(t, segment, shard) <==> exists i :: i in t && SlotClash(t[i], row);
    assert EverHeld(t, chunk, provider) <==> exists i :: i in t && SameCopy(t[i], row);
  }

  /** Abandoning a failed candidate frees its slot for anyone who never held the chunk. */
  lemma AbandonFreesSlot(total: nat, t: Table, id: int, chunk: int, segment: int, shard: int, failed: int, at: int)
    requires Consistent(total, t) && id in t && t[id] == Replacement(chunk, segment, shard, failed)
    ensures
      var u := Exec(total, t, Abandon(chunk, failed, at));
      && !SlotTaken(u, segment, shard)
      && (forall p :: p != failed ==> (EverHeld(u, chunk, p) <==> EverHeld(t, chunk, p)))
      && u == t[id := t[id].(status := Deleted, deletedAt := Some(at))]
  {
    var u := Updated(t, Abandon(chunk, failed, at));
    UpdatesAreNeverRefused(total, t, Abandon(chunk, failed, at));
    UpdateSteps(t, Abandon(chunk, failed, at));
    forall i | i in t && i != id ensures u[i] == t[i] { assert !SameCopy(t[i], t[id]); }
    forall i | i in u ensures !(Live(u[i]) && u[i].segment == Some(segment) && u[i].shard == Some(shard)) {
      if i != id { assert RowStep(t[i], u[i]) && !SlotClash(t[i], t[id]); }
    }
    forall p | p != failed ensures EverHeld(u, chunk, p) <==> EverHeld(t, chunk, p) {
      if EverHeld(t, chunk, p) {
        var i :| i in t && t[i].chunk == chunk && t[i].provider == p;
        assert i in u && u[i].chunk == chunk && u[i].provider == p;
      }
      if EverHeld(u, chunk, p) {
        var i :| i in u && u[i].chunk == chunk && u[i].provider == p;
        assert i in t && t[i].chunk == chunk && t[i].provider == p;
      }
    }
  }

  /**
    The whole repair of one shard: the departed row is retired, the replacement is accepted and
    activated, and the segment has the same live slots as before under one new holder.
   */
  lemma RepairRestoresSlot(total: nat, t: Table, lost: int, made: int, replacement: int, at: int)
    requires Consistent(total, t) && lost in t && made !in t
    requires !t[lost].vetting && t[lost].status == Active && !EverHeld(t, t[lost].chunk, replacement)
    ensures
      var r := t[lost];
      var t1 := Exec(total, t, DepartShard(r.chunk, r.provider, at));
      var t2 := Exec(total, t1, Insert(made, Row(r.chunk, replacement, false, r.segment, r.shard, Repairing, None)));
      var t3 := Exec(total, t2, Activate(r.chunk, replacement));
      && t3.Keys == t.Keys + {made}
      && t3[lost].status == Deleted
      && t3[made] == Row(r.chunk, replacement, false, r.segment, r.shard, Active, None)
      && (forall i :: i in LiveRows(t3, r.segment.value) <==> i == made || (i in LiveRows(t, r.segment.value) && i != lost))
      && forall i :: i in t && i != lost ==> t3[i] == t[i]
  {
    var r := t[lost];
    assert RowOk(total, r);
    var departed := DepartShard(r.chunk, r.provider, at);
    UpdatesAreNeverRefused(total, t, departed);
    var t1 := Updated(t, departed);
    forall i | i in t && i != lost ensures t1[i] == t[i] && t[i].chunk == r.chunk ==> t[i].provider != replacement {
      assert !SameCopy(t[i], r);
    }
    assert !SlotTaken(t1, r.segment.value, r.shard.value) by {
      forall i | i in t1 && i != lost ensures !(Live(t1[i]) && t1[i].segment == r.segment && t1[i].shard == r.shard) {
        assert !SlotClash(t[i], r);
      }
    }
    assert !EverHeld(t1, r.chunk, replacement) by {
      forall i | i in t1 ensures !(t1[i].chunk == r.chunk && t1[i].provider == replacement) {
        assert t[i].chunk == r.chunk ==> t[i].provider != replacement;
      }
    }
    PreRegisterAcceptedIff(total, t1, made, r.chunk, r.segment.value, r.shard.value, replacement);
    var t2 := t1[made := Replacement(r.chunk, r.segment.value, r.shard.value, replacement)];
    UpdatesAreNeverRefused(total, t2, Activate(r.chunk, replacement));
    var t3 := Updated(t2, Activate(r.chunk, replacement));
    assert forall i :: i in t ==> t3[i] == t1[i];
  }

  /** Deleting a file leaves no live shard in its segments and every row there on its way out. */
  lemma OwnerDeleteRetires(total: nat, t: Table, segments: set<int>, s: int)
    requires Consistent(total, t) && s in segments
    ensures
      var u := Exec(total, t, OwnerDelete(segments));
      && (forall i :: i !in LiveRows(u, s))
      && (forall i :: i in u && u[i].segment == Some(s) ==> u[i].status in {PendingDeletion, Deleted})
      && (forall i :: i in t && (t[i].segment.None? || t[i].segment.value !in segments) ==> u[i] == t[i])
      && (forall i :: i in t && t[i].status in {PendingDeletion, Deleted} ==> u[i] == t[i])
      && (forall i :: i in t && u[i] != t[i] ==> u[i] == t[i].(status := PendingDeletion))
  {
    UpdatesAreNeverRefused(total, t, OwnerDelete(segments));
  }

  datatype Holder = Holder(provider: int, shard: int, chunk: int)

  predicate ActiveIn(t: Table, segment: int, i: int) {
    i in t && !t[i].vetting && t[i].status == Active && t[i].segment == Some(segment)
  }

  /** The rows the query returns, each once, in whatever order. */
  ghost predicate ResultOf(t: Table, segment: int, ids: seq<int>) {
    && (forall n :: 0 <= n < |ids| ==> ActiveIn(t, segment, ids[n]))
    && (forall i :: ActiveIn(t, segment, i) ==> i in ids)
    && (forall a, b :: 0 <= a < b < |ids| ==> ids[a] != ids[b])
  }

  predicate Excluded(exclude: Option<int>, provider: int) { exclude == Some(provider) }

  predicate FromRow(t: Table, exclude: Option<int>, i: int, h: Holder) {
    && i in t && t[i].shard.Some? && !Excluded(exclude, t[i].provider)
    && h == Holder(t[i].provider, t[i].shard.value, t[i].chunk)
  }

  /** Row i is a live ACTIVE row of a real shard of the segment, with these columns. */
  predicate RowOfHolder(t: Table, segment: int, h: Holder, i: int) {
    i in t && t[i] == Row(h.chunk, h.provider, false, Some(segment), Some(h.shard), Active, t[i].deletedAt)
  }

  /** findSurvivingHolders, and the exclusion list its caller builds from it. */
  method FindSurvivingHolders(total: nat, t: Table, segment: int, exclude: Option<int>, rows: seq<int>)
    returns (holders: seq<Holder>, excluded: seq<int>)
    requires Consistent(total, t) && ResultOf(t, segment, rows)
    ensures forall h :: h in holders <==>
      exists i :: ActiveIn(t, segment, i) && FromRow(t, exclude, i, h)
    ensures forall h <- holders :: exists i :: RowOfHolder(t, segment, h, i)
    ensures forall i, h :: RowOfHolder(t, segment, h, i) && exclude != Some(h.provider) ==> h in holders
    ensures forall a, b :: 0 <= a < b < |holders| ==> holders[a].shard != holders[b].shard
    ensures forall h <- holders :: 0 <= h.shard < total && !Excluded(exclude, h.provider)
    ensures forall i :: ActiveIn(t, segment, i) ==> t[i].provider in excluded
    ensures exclude.Some? ==> exclude.value in excluded
    ensures forall p <- excluded :: Excluded(exclude, p) || exists i :: ActiveIn(t, segment, i) && t[i].provider == p
  {
    holders, excluded := [], [];
    ghost var from: seq<int> := [];
    for n := 0 to |rows|
      invariant |from| == |holders|
      invariant forall a :: 0 <= a < |from| ==> from[a] in rows[..n] && ActiveIn(t, segment, from[a]) && FromRow(t, exclude, from[a], holders[a])
      invariant forall a, b :: 0 <= a < b < |from| ==> from[a] != from[b]
      invariant forall i :: i in rows[..n] && !Excluded(exclude, t[i].provider) ==> i in from && t[i].provider in excluded
      invariant forall p <- excluded :: exists i :: ActiveIn(t, segment, i) && t[i].provider == p
    {
      assert ActiveIn(t, segment, rows[n]);
      var r := t[rows[n]];
      assert rows[..n+1] == rows[..n] + [rows[n]];
      assert RowOk(total, r);
      if exclude.Some? && r.provider == exclude.value {
        continue;
      }
      assert rows[n] !in rows[..n];
      holders := holders + [Holder(r.provider, r.shard.value, r.chunk)];
      excluded := excluded + [r.provider];
      from := from + [rows[n]];
    }
    assert rows[..|rows|] == rows;
    HoldersAreDistinct(total, t, segment, exclude, rows, from, holders);
    HoldersAreRows(total, t, segment, exclude, from, holders);
    if exclude.Some? { excluded := excluded + [exclude.value]; }
  }

  lemma HoldersAreRows(total: nat, t: Table, segment: int, exclude: Option<int>, from: seq<int>, holders: seq<Holder>)
    requires Consistent(total, t) && |from| == |holders|
    requires forall a :: 0 <= a < |from| ==> ActiveIn(t, segment, from[a]) && FromRow(t, exclude, from[a], holders[a])
    requires forall i :: ActiveIn(t, segment, i) && !Excluded(exclude, t[i].provider) ==> i in from
    ensures forall h :: h in holders <==> exists i :: ActiveIn(t, segment, i) && FromRow(t, exclude, i, h)
    ensures forall h <- holders :: exists i :: RowOfHolder(t, segment, h, i)
    ensures forall i, h :: RowOfHolder(t, segment, h, i) && exclude != Some(h.provider) ==> h in holders
  {
    forall h | h in holders
      ensures exists i :: ActiveIn(t, segment, i) && FromRow(t, exclude, i, h)
      ensures exists i :: RowOfHolder(t, segment, h, i)
    {
      var a :| 0 <= a < |holders| && holders[a] == h;
      assert ActiveIn(t, segment, from[a]) && FromRow(t, exclude, from[a], h) && RowOk(total, t[from[a]]);
      assert RowOfHolder(t, segment, h, from[a]);
    }
    forall i, h | ActiveIn(t, segment, i) && FromRow(t, exclude, i, h) ensures h in holders {
      var a :| 0 <= a < |from| && from[a] == i;
      assert holders[a] == h;
    }
    forall i, h | RowOfHolder(t, segment, h, i) && exclude != Some(h.provider) ensures h in holders {
      assert ActiveIn(t, segment, i) && FromRow(t, exclude, i, h);
    }
  }

  lemma HoldersAreDistinct(total: nat, t: Table, segment: int, exclude: Option<int>, rows: seq<int>, from: seq<int>, holders: seq<Holder>)
    requires Consistent(total, t) && ResultOf(t, segment, rows) && |from| == |holders|
    requires forall a :: 0 <= a < |from| ==> ActiveIn(t, segment, from[a]) && FromRow(t, exclude, from[a], holders[a])
    requires forall a, b :: 0 <= a < b < |from| ==> from[a] != from[b]
    ensures forall a, b :: 0 <= a < b < |holders| ==> holders[a].shard != holders[b].shard
  {
    forall a, b | 0 <= a < b < |holders| ensures holders[a].shard != holders[b].shard {
      assert !SlotClash(t[from[a]], t[from[b]]);
    }
  }

  // ---------------------------------------------------------------- deletion, one delivery at a time

  /** A delivery between loading its chunk ids and its last answer. Only the synthetic kind stages what it loaded. */
  datatype Flight = Flight(provider: int, chunks: set<int>, synthetic: bool)

  datatype Sys = Sys(t: Table, flights: map<int, Flight>)

  /** Every statement of the program, with each delivery cut at its database calls; it may end anywhere. */
  datatype Act =
    | Other(op: Op)
    | LoadSynthetic(k: int, provider: int)
    | LoadOwner(k: int, provider: int)
    | Stage(k: int)
    | Confirm(k: int, chunks: set<int>, at: int)
    | End(k: int)

  ghost function Do(total: nat, s: Sys, a: Act): Sys {
    match a
    case Other(op) => if op.SetPending? || op.SetDeleted? then s else s.(t := Exec(total, s.t, op))
    case LoadSynthetic(k, p) => s.(flights := s.flights[k := Flight(p, ActiveSynthetic(s.t, p), true)])
    case LoadOwner(k, p) => s.(flights := s.flights[k := Flight(p, PendingReal(s.t, p), false)])
    case Stage(k) =>
      if k in s.flights && s.flights[k].synthetic
      then s.(t := Exec(total, s.t, SetPending(s.flights[k].provider, s.flights[k].chunks))) else s
    case Confirm(k, chunks, at) =>
      if k in s.flights
      then s.(t := Exec(total, s.t, SetDeleted(s.flights[k].provider, chunks * s.flights[k].chunks, at))) else s
    case End(k) => s.(flights := s.flights - {k})
  }

  ghost function DoAll(total: nat, s: Sys, acts: seq<Act>): Sys {
    if acts == [] then s else Do(total, DoAll(total, s, acts[..|acts|-1]), acts[|acts|-1])
  }

  lemma DoKeepsConsistent(total: nat, s: Sys, a: Act)
    requires Consistent(total, s.t)
    ensures Consistent(total, Do(total, s, a).t)
  {
    match a
    case Other(op) => if !op.Insert? { UpdatesAreNeverRefused(total, s.t, op); }
    case Stage(k) =>
      if k in s.flights { UpdatesAreNeverRefused(total, s.t, SetPending(s.flights[k].provider, s.flights[k].chunks)); }
    case Confirm(k, chunks, at) =>
      if k in s.flights {
        UpdatesAreNeverRefused(total, s.t, SetDeleted(s.flights[k].provider, chunks * s.flights[k].chunks, at));
      }
    case _ =>
  }

  /** Some delivery in flight has loaded this row's chunk from its provider. */
  predicate Loaded(s: Sys, r: Row) {
    exists k :: k in s.flights && s.flights[k].provider == r.provider && r.chunk in s.flights[k].chunks
  }

  /** Chunk ids the two deletion loops would load for this row's provider now. */
  predicate WouldBeSent(t: Table, i: int)
    requires i in t
  {
    t[i].chunk in ActiveSynthetic(t, t[i].provider) + PendingReal(t, t[i].provider)
  }

  /** Of the rows no longer live, exactly the real ones awaiting deletion are loaded again. */
  lemma ResentIffPendingReal(total: nat, t: Table, i: int)
    requires Consistent(total, t) && i in t && t[i].status in {PendingDeletion, Deleted}
    ensures WouldBeSent(t, i) <==> !t[i].vetting && t[i].status == PendingDeletion
  {
    if t[i].chunk in ActiveSynthetic(t, t[i].provider) {
      var j :| j in t && t[j].vetting && t[j].provider == t[i].provider && t[j].status == Active && t[j].chunk == t[i].chunk;
      assert j != i && SameCopy(t[i], t[j]);
      assert false;
    }
    if t[i].chunk in PendingReal(t, t[i].provider) {
      var j :| j in t && !t[j].vetting && t[j].provider == t[i].provider && t[j].status == PendingDeletion && t[j].chunk == t[i].chunk;
      assert j != i ==> SameCopy(t[i], t[j]);
    }
  }

  /** A retired synthetic row that no delivery holds: only its provider's departure still touches it. */
  lemma RetiredStep(total: nat, s: Sys, a: Act, i: int)
    requires Consistent(total, s.t) && i in s.t && s.t[i].vetting && s.t[i].status in {PendingDeletion, Deleted}
    requires !Loaded(s, s.t[i]) && !(a.Other? && a.op.DepartVetting? && a.op.provider == s.t[i].provider)
    ensures i in Do(total, s, a).t && Do(total, s, a).t[i] == s.t[i] && !Loaded(Do(total, s, a), s.t[i])
  {
    ResentIffPendingReal(total, s.t, i);
    assert RowOk(total, s.t[i]);
    var u := Do(total, s, a);
    forall k | k in u.flights && u.flights[k].provider == s.t[i].provider ensures s.t[i].chunk !in u.flights[k].chunks {
      if k in s.flights && u.flights[k] == s.flights[k] {
      } else {
        assert u.flights[k].chunks == ActiveSynthetic(s.t, s.t[i].provider) || u.flights[k].chunks == PendingReal(s.t, s.t[i].provider);
      }
    }
  }

  /**
    A synthetic chunk left PENDING_DELETION with no delivery holding it, whether unconfirmed or cut off
    between staging and the answer, is never sent again: over every further run its row stays as it is
    until its provider departs.
   */
  lemma {:induction false} UnconfirmedSyntheticIsStuck(total: nat, s: Sys, acts: seq<Act>, i: int)
    requires Consistent(total, s.t) && i in s.t && s.t[i].vetting && s.t[i].status in {PendingDeletion, Deleted}
    requires !Loaded(s, s.t[i])
    requires forall a <- acts :: !(a.Other? && a.op.DepartVetting? && a.op.provider == s.t[i].provider)
    ensures
      var u := DoAll(total, s, acts);
      i in u.t && u.t[i] == s.t[i] && !Loaded(u, s.t[i]) && Consistent(total, u.t)
  {
    if acts != [] {
      var init := acts[..|acts|-1];
      UnconfirmedSyntheticIsStuck(total, s, init, i);
      assert acts[|acts|-1] in acts;
      RetiredStep(total, DoAll(total, s, init), acts[|acts|-1], i);
      DoKeepsConsistent(total, DoAll(total, s, init), acts[|acts|-1]);
    }
  }

  ghost function Delivery(total: nat, s: Sys, k: int, provider: int, answers: seq<set<int>>, at: int): Sys {
    if answers == [] then Do(total, Do(total, s, LoadSynthetic(k, provider)), Stage(k))
    else Do(total, Delivery(total, s, k, provider, answers[..|answers|-1], at), Confirm(k, answers[|answers|-1], at))
  }

  predicate Confirmed(answers: seq<set<int>>, chunk: int) { exists n :: 0 <= n < |answers| && chunk in answers[n] }

  lemma ConfirmedNext(answers: seq<set<int>>, chunk: int)
    requires answers != []
    ensures Confirmed(answers, chunk) <==> Confirmed(answers[..|answers|-1], chunk) || chunk in answers[|answers|-1]
  {
    var init := answers[..|answers|-1];
    if Confirmed(init, chunk) {
      var n :| 0 <= n < |init| && chunk in init[n];
      assert chunk in answers[n];
    }
  }

  /** However many frames are answered before the delivery ends, a row is DELETED or left to wait. */
  lemma {:induction false} DeliveryOutcome(total: nat, s: Sys, k: int, i: int, answers: seq<set<int>>, at: int)
    requires Consistent(total, s.t) && i in s.t && s.t[i].vetting && s.t[i].status == Active
    ensures
      var u := Delivery(total, s, k, s.t[i].provider, answers, at);
      && Consistent(total, u.t) && i in u.t
      && u.t[i] == s.t[i].(status := u.t[i].status, deletedAt := u.t[i].deletedAt)
      && u.t[i].status == (if Confirmed(answers, s.t[i].chunk) then Deleted else PendingDeletion)
      && k in u.flights && u.flights == s.flights[k := u.flights[k]]
      && u.flights[k] == Flight(s.t[i].provider, ActiveSynthetic(s.t, s.t[i].provider), true)
  {
    var p, chunk := s.t[i].provider, s.t[i].chunk;
    assert chunk in ActiveSynthetic(s.t, p);
    if answers == [] {
      var l := Do(total, s, LoadSynthetic(k, p));
      UpdatesAreNeverRefused(total, l.t, SetPending(p, l.flights[k].chunks));
    } else {
      var init := answers[..|answers|-1];
      DeliveryOutcome(total, s, k, i, init, at);
      var v := Delivery(total, s, k, p, init, at);
      UpdatesAreNeverRefused(total, v.t, SetDeleted(p, answers[|answers|-1] * v.flights[k].chunks, at));
      ConfirmedNext(answers, chunk);
    }
  }

  /** A deletion of synthetic chunks, however far it gets, leaves every real row alone. */
  lemma {:induction false} DeliverySparesReal(total: nat, s: Sys, k: int, provider: int, answers: seq<set<int>>, at: int, i: int)
    requires Consistent(total, s.t) && i in s.t && !s.t[i].vetting
    ensures
      var u := Delivery(total, s, k, provider, answers, at);
      && Consistent(total, u.t) && i in u.t && u.t[i] == s.t[i]
      && k in u.flights && u.flights[k] == Flight(provider, ActiveSynthetic(s.t, provider), true)
  {
    assert !(s.t[i].provider == provider && s.t[i].chunk in ActiveSynthetic(s.t, provider)) by {
      if s.t[i].provider == provider && s.t[i].chunk in ActiveSynthetic(s.t, provider) {
        var j :| j in s.t && s.t[j].vetting && s.t[j].provider == provider && s.t[j].status == Active && s.t[j].chunk == s.t[i].chunk;
        assert j != i && SameCopy(s.t[i], s.t[j]);
        assert false;
      }
    }
    if answers == [] {
      var l := Do(total, s, LoadSynthetic(k, provider));
      UpdatesAreNeverRefused(total, l.t, SetPending(provider, l.flights[k].chunks));
    } else {
      var init := answers[..|answers|-1];
      DeliverySparesReal(total, s, k, provider, init, at, i);
      var v := Delivery(total, s, k, provider, init, at);
      UpdatesAreNeverRefused(total, v.t, SetDeleted(provider, answers[|answers|-1] * v.flights[k].chunks, at));
    }
  }

  /** And a deletion of an owner's chunks stages nothing and touches no row but real ones awaiting it. */
  lemma OwnerDeliverySparesOthers(total: nat, s: Sys, k: int, provider: int, confirmed: set<int>, at: int, i: int)
    requires Consistent(total, s.t) && i in s.t
    ensures
      var l := Do(total, s, LoadOwner(k, provider));
      var u := Do(total, l, Confirm(k, confirmed, at));
      && Do(total, l, Stage(k)) == l
      && i in u.t
      && (u.t[i] != s.t[i] ==> s.t[i].provider == provider && !s.t[i].vetting && s.t[i].status == PendingDeletion)
  {
    var l := Do(total, s, LoadOwner(k, provider));
    UpdatesAreNeverRefused(total, s.t, SetDeleted(provider, confirmed * l.flights[k].chunks, at));
    if s.t[i].provider == provider && s.t[i].chunk in PendingReal(s.t, provider) {
      var j :| j in s.t && !s.t[j].vetting && s.t[j].provider == provider && s.t[j].status == PendingDeletion && s.t[j].chunk == s.t[i].chunk;
      assert j != i ==> SameCopy(s.t[i], s.t[j]);
    }
  }

  /** So what one delivery did not get confirmed stays, over every further run, until its provider departs. */
  lemma OneDeliveryIsAll(total: nat, s: Sys, k: int, i: int, answers: seq<set<int>>, at: int, acts: seq<Act>)
    requires Consistent(total, s.t) && i in s.t && s.t[i].vetting && s.t[i].status == Active
    requires !Loaded(s.(flights := s.flights - {k}), s.t[i])
    requires forall a <- acts :: !(a.Other? && a.op.DepartVetting? && a.op.provider == s.t[i].provider)
    ensures
      var u := DoAll(total, Do(total, Delivery(total, s, k, s.t[i].provider, answers, at), End(k)), acts);
      i in u.t && u.t[i].status == if Confirmed(answers, s.t[i].chunk) then Deleted else PendingDeletion
  {
    DeliveryOutcome(total, s, k, i, answers, at);
    var v := Do(total, Delivery(total, s, k, s.t[i].provider, answers, at), End(k));
    assert v.flights == s.flights - {k};
    UnconfirmedSyntheticIsStuck(total, v, acts, i);
  }

  /** A real row awaiting deletion leaves with the first confirmed answer, and until then is loaded every time. */
  lemma OwnerDeletionOutcome(total: nat, s: Sys, k: int, i: int, confirmed: set<int>, at: int)
    requires Consistent(total, s.t) && i in s.t && !s.t[i].vetting && s.t[i].status == PendingDeletion
    ensures
      var u := Do(total, Do(total, s, LoadOwner(k, s.t[i].provider)), Confirm(k, confirmed, at));
      && i in u.t
      && u.t[i].status == (if s.t[i].chunk in confirmed then Deleted else PendingDeletion)
      && (WouldBeSent(u.t, i) <==> s.t[i].chunk !in confirmed)
  {
    var l := Do(total, s, LoadOwner(k, s.t[i].provider));
    var op := SetDeleted(s.t[i].provider, confirmed * l.flights[k].chunks, at);
    assert s.t[i].chunk in PendingReal(s.t, s.t[i].provider);
    UpdatesAreNeverRefused(total, s.t, op);
    ResentIffPendingReal(total, Updated(s.t, op), i);
  }

  // ---------------------------------------------------------------- departure against a delivery in flight

  /** This act stages the provider's chunk from a delivery that loaded it earlier. */
  predicate Stages(s: Sys, a: Act, provider: int, chunk: int) {
    && a.Stage? && a.k in s.flights && s.flights[a.k].synthetic
    && s.flights[a.k].provider == provider && chunk in s.flights[a.k].chunks
  }

  lemma DepartedStep(total: nat, s: Sys, a: Act, i: int)
    requires Consistent(total, s.t) && i in s.t && s.t[i].vetting && s.t[i].status == Deleted
    ensures
      var u := Do(total, s, a);
      && i in u.t && u.t[i].chunk == s.t[i].chunk && u.t[i].provider == s.t[i].provider && u.t[i].vetting
      && (u.t[i].status == Deleted <==> !Stages(s, a, s.t[i].provider, s.t[i].chunk))
  {
    assert RowOk(total, s.t[i]);
    match a
    case Other(op) => if !op.Insert? { UpdatesAreNeverRefused(total, s.t, op); }
    case Stage(k) =>
      if k in s.flights { UpdatesAreNeverRefused(total, s.t, SetPending(s.flights[k].provider, s.flights[k].chunks)); }
    case Confirm(k, chunks, at) =>
      if k in s.flights {
        UpdatesAreNeverRefused(total, s.t, SetDeleted(s.flights[k].provider, chunks * s.flights[k].chunks, at));
      }
    case _ =>
  }

  /** Row i is DELETED now and after each act of the run. */
  ghost predicate StaysDeleted(total: nat, s: Sys, acts: seq<Act>, i: int)
    decreases |acts|
  {
    && i in s.t && s.t[i].status == Deleted
    && (acts == [] || StaysDeleted(total, Do(total, s, acts[0]), acts[1..], i))
  }

  ghost predicate NeverStaged(total: nat, s: Sys, acts: seq<Act>, provider: int, chunk: int)
    decreases |acts|
  {
    acts == [] || (!Stages(s, acts[0], provider, chunk) && NeverStaged(total, Do(total, s, acts[0]), acts[1..], provider, chunk))
  }

  lemma {:induction false} RetiredUntilStaged(total: nat, s: Sys, acts: seq<Act>, i: int)
    requires Consistent(total, s.t) && i in s.t && s.t[i].vetting && s.t[i].status == Deleted
    ensures StaysDeleted(total, s, acts, i) <==> NeverStaged(total, s, acts, s.t[i].provider, s.t[i].chunk)
    decreases |acts|
  {
    if acts != [] {
      DepartedStep(total, s, acts[0], i);
      DoKeepsConsistent(total, s, acts[0]);
      if !Stages(s, acts[0], s.t[i].provider, s.t[i].chunk) {
        RetiredUntilStaged(total, Do(total, s, acts[0]), acts[1..], i);
      }
    }
  }

  /**
    A departing provider's synthetic rows are retired, and stay so throughout every further run if and
    only if no delivery that loaded them before stages them afterwards.
   */
  lemma DepartureRetiresSynthetic(total: nat, s: Sys, at: int, acts: seq<Act>, i: int)
    requires Consistent(total, s.t) && i in s.t && s.t[i].vetting
    ensures
      var d := Do(total, s, Other(DepartVetting(s.t[i].provider, at)));
      StaysDeleted(total, d, acts, i) <==> NeverStaged(total, d, acts, s.t[i].provider, s.t[i].chunk)
  {
    UpdatesAreNeverRefused(total, s.t, DepartVetting(s.t[i].provider, at));
    RetiredUntilStaged(total, Do(total, s, Other(DepartVetting(s.t[i].provider, at))), acts, i);
  }

  /** It happens: loaded while ACTIVE, retired by the departure, then staged by the delivery still in flight. */
  lemma StagingUndoesDeparture(total: nat, s: Sys, k: int, at: int, i: int)
    requires Consistent(total, s.t) && i in s.t && s.t[i].vetting && s.t[i].status == Active
    ensures
      var departed := Do(total, Do(total, s, LoadSynthetic(k, s.t[i].provider)), Other(DepartVetting(s.t[i].provider, at)));
      var u := Do(total, departed, Stage(k));
      && i in departed.t && departed.t[i].status == Deleted
      && i in u.t && u.t[i].status == PendingDeletion
  {
    var p := s.t[i].provider;
    var loaded := Do(total, s, LoadSynthetic(k, p));
    var departed := Do(total, loaded, Other(DepartVetting(p, at)));
    assert s.t[i].chunk in loaded.flights[k].chunks;
    UpdatesAreNeverRefused(total, s.t, DepartVetting(p, at));
    UpdatesAreNeverRefused(total, departed.t, SetPending(p, loaded.flights[k].chunks));
  }
}
