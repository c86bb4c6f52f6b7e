/**
  Compaction while the daemon keeps running. The collector snapshots the index, scans the growing log
  with its own handle and renames its copy over it; the writer appends (log first, then index) and
  handlers delete, in any interleaving.
 */
module CompactionRace {
  import opened Prelude
  import opened VLogFile
  import opened ValueLog

  /** The writer between its log write and its index write. */
  datatype Pending = Pending(id: Digest, slot: nat)

  /**
    A compaction under way. `moved` and `put` are history: the ids whose index entry was last written,
    since the snapshot, by the scan and by the writer.
   */
  datatype Scan = Scan(live: set<Digest>, next: nat, copied: seq<Window>, ended: bool,
                       moved: set<Digest>, put: set<Digest>)

  datatype World = World(disk: Disk, pending: Option<Pending>, scan: Option<Scan>)

  datatype Step =
    | WriteEntry(c: Chunk) | FailWrite(c: Chunk, written: nat) | PutIndex | Erase(id: Digest)
    | Begin | CopyNext | SeeEnd | Cancel | Rename

  predicate Enabled(hash: Hash, w: World, s: Step) {
    match s
    case WriteEntry(c) => w.pending.None? && Named(hash, c)
    case FailWrite(_, written) => w.pending.None? && written <= ENTRY
    case PutIndex => w.pending.Some?
    case Erase(_) => true
    case Begin => w.scan.None?
    case CopyNext => w.scan.Some? && !w.scan.value.ended && w.scan.value.next < |w.disk.file.wins|
    case SeeEnd => w.scan.Some? && !w.scan.value.ended && w.scan.value.next == |w.disk.file.wins|
    case Cancel => w.scan.Some? && !w.scan.value.ended
    case Rename => w.scan.Some? && w.scan.value.ended
  }

  function Put(w: World): World
    requires w.pending.Some?
  {
    var p := w.pending.value;
    World(w.disk.(index := w.disk.index[p.id := p.slot]), None,
          if w.scan.None? then None
          else Some(w.scan.value.(moved := w.scan.value.moved - {p.id}, put := w.scan.value.put + {p.id})))
  }

  function Erased(w: World, id: Digest): World {
    World(Delete(w.disk, id), w.pending,
          if w.scan.None? then None
          else Some(w.scan.value.(moved := w.scan.value.moved - {id}, put := w.scan.value.put - {id})))
  }

  function Copied(w: World): World
    requires w.scan.Some? && w.scan.value.next < |w.disk.file.wins|
  {
    var c := w.scan.value;
    var win := w.disk.file.wins[c.next];
    if Head(win) !in c.live then w.(scan := Some(c.(next := c.next + 1)))
    else World(w.disk.(index := w.disk.index[Head(win) := |c.copied|]), w.pending,
               Some(c.(next := c.next + 1, copied := c.copied + [win],
                       moved := c.moved + {Head(win)}, put := c.put - {Head(win)})))
  }

  function Renamed(w: World): World
    requires w.scan.Some?
  {
    var c := w.scan.value;
    World(Disk(File(c.copied, []), w.disk.index, |c.copied|), w.pending, None)
  }

  function Next(hash: Hash, w: World, s: Step): World
    requires Enabled(hash, w, s)
  {
    match s
    case WriteEntry(c) =>
      World(Disk(Write(w.disk.file, Entry(hash, c)), w.disk.index, w.disk.head + 1),
            Some(Pending(c.id, w.disk.head)), w.scan)
    case FailWrite(c, written) => w.(disk := w.disk.(file := Write(w.disk.file, Entry(hash, c)[..written])))
    case PutIndex => Put(w)
    case Erase(id) => Erased(w, id)
    case Begin => w.(scan := Some(Scan(w.disk.index.Keys, 0, [], false, {}, {})))
    case CopyNext => Copied(w)
    case SeeEnd => w.(scan := Some(w.scan.value.(ended := true)))
    case Cancel => w.(scan := None)
    case Rename => Renamed(w)
  }

  predicate Legal(hash: Hash, w: World, steps: seq<Step>)
    decreases |steps|
  {
    steps == [] || (Enabled(hash, w, steps[0]) && Legal(hash, Next(hash, w, steps[0]), steps[1..]))
  }

  function Run(hash: Hash, w: World, steps: seq<Step>): World
    requires Legal(hash, w, steps)
    decreases |steps|
  {
    if steps == [] then w else Run(hash, Next(hash, w, steps[0]), steps[1..])
  }

  /** Who may step when: one writer, one scan that stops for good at the end of the file, and deletions at any time. */
  lemma Interleavings(hash: Hash, w: World, c: Chunk, written: nat, id: Digest)
    ensures Enabled(hash, w, Erase(id))
    ensures Enabled(hash, w, WriteEntry(c)) <==> w.pending == None && hash(c.data) == c.id
    ensures Enabled(hash, w, FailWrite(c, written)) <==> w.pending == None && written <= 262212
    ensures Enabled(hash, w, PutIndex) <==> w.pending != None
    ensures Enabled(hash, w, Begin) <==> w.scan == None
    ensures w.scan.Some? ==>
      var x, n := w.scan.value, |w.disk.file.wins|;
      && (Enabled(hash, w, CopyNext) <==> !x.ended && x.next < n)
      && (Enabled(hash, w, SeeEnd) <==> !x.ended && x.next == n)
      && (Enabled(hash, w, Cancel) <==> !x.ended)
      && (Enabled(hash, w, Rename) <==> x.ended)
    ensures Enabled(hash, w, Cancel) ==> Next(hash, w, Cancel) == World(w.disk, w.pending, None)
  {
  }

  // ---------------------------------------------------------------- what holds on every disk

  ghost predicate CopyShape(d: Disk, c: Scan) {
    && c.next <= |d.file.wins|
    && forall q :: 0 <= q < |c.copied| ==>
         Head(c.copied[q]) in c.live && Headed(d.file.wins[..c.next], Head(c.copied[q]))
  }

  /** Where one id stands: moved to its copy, put by the writer, or not reached by the scan yet. */
  ghost predicate IdOk(d: Disk, c: Scan, id: Digest) {
    && (id in c.moved ==> id in d.index && d.index[id] < |c.copied| && Head(c.copied[d.index[id]]) == id)
    && (id in c.put ==> id in d.index && id !in c.moved)
    && (id in d.index && id !in c.moved && id !in c.put && c.next <= |d.file.wins| ==>
          id in c.live && !Headed(d.file.wins[..c.next], id))
  }

  ghost predicate Shape(w: World) {
    w.scan.Some? ==> CopyShape(w.disk, w.scan.value) && forall id :: IdOk(w.disk, w.scan.value, id)
  }

  lemma CopyKeepsShape(hash: Hash, w: World)
    requires Shape(w) && Enabled(hash, w, CopyNext)
    ensures Shape(Copied(w))
  {
    var c, d, n := w.scan.value, w.disk, w.scan.value.next;
    var w' := Copied(w);
    var c' := w'.scan.value;
    forall id ensures Headed(d.file.wins[..n+1], id) <==> Headed(d.file.wins[..n], id) || Head(d.file.wins[n]) == id {
      HeadedNext(d.file.wins, n + 1, id);
    }
    forall q | 0 <= q < |c'.copied|
      ensures Head(c'.copied[q]) in c.live && Headed(d.file.wins[..n+1], Head(c'.copied[q]))
    {
      if q < |c.copied| { assert c'.copied[q] == c.copied[q]; }
    }
    forall id ensures IdOk(w'.disk, c', id) {
      assert IdOk(d, c, id);
    }
  }

  /** More bytes at the end of the file change nothing the scan has done. */
  lemma GrowthKeepsShape(w: World, w': World)
    requires Shape(w) && w'.scan == w.scan && w'.disk.index == w.disk.index && w.disk.file.wins <= w'.disk.file.wins
    ensures Shape(w')
  {
    if w.scan.Some? {
      var c := w.scan.value;
      assert w'.disk.file.wins[..c.next] == w.disk.file.wins[..c.next];
      forall id ensures IdOk(w'.disk, c, id) { assert IdOk(w.disk, c, id); }
    }
  }

  lemma StepKeepsShape(hash: Hash, w: World, s: Step)
    requires Shape(w) && Enabled(hash, w, s)
    ensures Shape(Next(hash, w, s))
  {
    match s
    case WriteEntry(c) => GrowthKeepsShape(w, Next(hash, w, s));
    case FailWrite(c, _) => GrowthKeepsShape(w, Next(hash, w, s));
    case PutIndex =>
      if w.scan.Some? {
        forall id ensures IdOk(Put(w).disk, Put(w).scan.value, id) { assert IdOk(w.disk, w.scan.value, id); }
      }
    case Erase(k) =>
      if w.scan.Some? {
        forall id ensures IdOk(Erased(w, k).disk, Erased(w, k).scan.value, id) { assert IdOk(w.disk, w.scan.value, id); }
      }
    case CopyNext => CopyKeepsShape(hash, w);
    case Begin =>
      assert w.disk.file.wins[..0] == [];
    case SeeEnd =>
      forall id ensures IdOk(w.disk, w.scan.value.(ended := true), id) { assert IdOk(w.disk, w.scan.value, id); }
    case Cancel =>
    case Rename =>
  }

  lemma {:induction false} RunKeepsShape(hash: Hash, w: World, steps: seq<Step>)
    requires Shape(w) && Legal(hash, w, steps)
    ensures Shape(Run(hash, w, steps))
    decreases |steps|
  {
    if steps != [] {
      StepKeepsShape(hash, w, steps[0]);
      RunKeepsShape(hash, Next(hash, w, steps[0]), steps[1..]);
    }
  }

  function Idle(d: Disk): World { World(d, None, None) }

  /**
    Over every interleaving from any disk, writes that fail half way included: when the copy is renamed
    into place, an id the scan wrote last gets the window copied for it, and is readable exactly when that
    window's body is its own; an id the writer put last is left with an offset of the old file; any other
    id heads no window that was scanned.
   */
  lemma AnyCompactionOutcome(hash: Hash, d: Disk, steps: seq<Step>, id: Digest)
    requires Legal(hash, Idle(d), steps) && Enabled(hash, Run(hash, Idle(d), steps), Rename)
    ensures
      var w := Run(hash, Idle(d), steps);
      var c := w.scan.value;
      && (id in c.moved ==>
            && id in w.disk.index && w.disk.index[id] < |c.copied| && Head(c.copied[w.disk.index[id]]) == id
            && (Lookup(hash, Renamed(w).disk, id).Data? <==> hash(Body(c.copied[w.disk.index[id]])) == id))
      && c.next <= |w.disk.file.wins|
      && (id !in c.moved && id !in c.put && id in w.disk.index ==> !Headed(w.disk.file.wins[..c.next], id))
      && (id !in c.live ==> id !in c.moved)
  {
    RunKeepsShape(hash, Idle(d), steps);
    assert IdOk(Run(hash, Idle(d), steps).disk, Run(hash, Idle(d), steps).scan.value, id);
  }

  // ---------------------------------------------------------------- whole entries

  ghost predicate LogOk(hash: Hash, d: Disk) {
    && d.file.rest == [] && d.head == |d.file.wins|
    && forall i :: 0 <= i < |d.file.wins| ==> Whole(hash, d.file.wins[i])
  }

  ghost predicate CopyOk(hash: Hash, c: Scan) { forall q :: 0 <= q < |c.copied| ==> Whole(hash, c.copied[q]) }

  ghost predicate Inv(hash: Hash, w: World) {
    Shape(w) && LogOk(hash, w.disk) && (w.scan.Some? ==> CopyOk(hash, w.scan.value))
  }

  /** A write that fails before its first byte leaves no trace; any other leaves bytes behind. */
  predicate LeavesNoTear(s: Step) { s.FailWrite? ==> s.written == 0 }

  lemma WriteKeepsInv(hash: Hash, w: World, c: Chunk)
    requires LogOk(hash, w.disk) && Named(hash, c)
    ensures
      var f := Write(w.disk.file, Entry(hash, c));
      && f == File(w.disk.file.wins + [Entry(hash, c)], [])
      && LogOk(hash, Disk(f, w.disk.index, w.disk.head + 1))
  {
    AppendedFile(hash, w.disk, c);
    EncodeFields(hash, c.id, c.data);
  }

  lemma StepKeepsInv(hash: Hash, w: World, s: Step)
    requires Inv(hash, w) && Enabled(hash, w, s) && LeavesNoTear(s)
    ensures Inv(hash, Next(hash, w, s))
  {
    StepKeepsShape(hash, w, s);
    match s
    case WriteEntry(c) => WriteKeepsInv(hash, w, c);
    case FailWrite(c, written) => assert w.disk.file.rest + Entry(hash, c)[..0] == [];
    case _ =>
  }

  ghost predicate NoTears(steps: seq<Step>) { forall i :: 0 <= i < |steps| ==> LeavesNoTear(steps[i]) }

  lemma {:induction false} RunKeepsInv(hash: Hash, w: World, steps: seq<Step>)
    requires Inv(hash, w) && Legal(hash, w, steps) && NoTears(steps)
    ensures Inv(hash, Run(hash, w, steps))
    decreases |steps|
  {
    if steps != [] {
      StepKeepsInv(hash, w, steps[0]);
      RunKeepsInv(hash, Next(hash, w, steps[0]), steps[1..]);
    }
  }

  // ---------------------------------------------------------------- what a finished compaction leaves

  /** The writer's slot in the old file happens to be the slot of a copy of the same chunk in the new one. */
  predicate Coincides(d: Disk, c: Scan, id: Digest) {
    id in d.index && d.index[id] < |c.copied| && Head(c.copied[d.index[id]]) == id
  }

  lemma RenameOutcome(hash: Hash, w: World, id: Digest)
    requires Inv(hash, w) && Enabled(hash, w, Rename)
    ensures
      var c := w.scan.value;
      && (Lookup(hash, Renamed(w).disk, id).Data? <==> id in c.moved || (id in c.put && Coincides(w.disk, c, id)))
      && (id !in c.live ==> !Lookup(hash, Renamed(w).disk, id).Data?)
  {
    var c := w.scan.value;
    assert IdOk(w.disk, c, id);
    if Coincides(w.disk, c, id) { assert Whole(hash, c.copied[w.disk.index[id]]); }
  }

  /**
    Over every interleaving from a clean store in which no write fails half way: when the copy is renamed
    into place, a chunk is readable exactly when the scan was the last to write its index entry, or the
    writer's old offset happens to hold the same chunk in the new file. A chunk that was not in the
    snapshot is not readable.
   */
  lemma CompactionOutcome(hash: Hash, d: Disk, steps: seq<Step>, id: Digest)
    requires Clean(hash, d) && Legal(hash, Idle(d), steps) && NoTears(steps)
    requires Enabled(hash, Run(hash, Idle(d), steps), Rename)
    ensures
      var w := Run(hash, Idle(d), steps);
      var c := w.scan.value;
      && (Lookup(hash, Renamed(w).disk, id).Data? <==> id in c.moved || (id in c.put && Coincides(w.disk, c, id)))
      && (id !in c.live ==> !Lookup(hash, Renamed(w).disk, id).Data?)
  {
    RunKeepsInv(hash, Idle(d), steps);
    RenameOutcome(hash, Run(hash, Idle(d), steps), id);
  }

  /**
    An index entry written by the writer, whenever that is: readable exactly when the window then at its
    slot is of the same chunk. Written after the rename, the slot is still one of the old file.
   */
  lemma PutReadableIff(hash: Hash, w: World)
    requires Inv(hash, w) && w.pending.Some?
    ensures
      var p, wins := w.pending.value, w.disk.file.wins;
      Lookup(hash, Put(w).disk, p.id).Data? <==> p.slot < |wins| && Head(wins[p.slot]) == p.id
  {
    if w.pending.value.slot < |w.disk.file.wins| { assert Whole(hash, w.disk.file.wins[w.pending.value.slot]); }
  }

  /** The ids erased between the rename and a late index write. */
  function Erasures(ids: seq<Digest>): seq<Step> { if ids == [] then [] else [Erase(ids[0])] + Erasures(ids[1..]) }

  lemma {:induction false} ErasuresRun(hash: Hash, w: World, ids: seq<Digest>)
    requires w.scan.None?
    ensures Legal(hash, w, Erasures(ids))
    ensures
      var v := Run(hash, w, Erasures(ids));
      v.disk.file == w.disk.file && v.disk.head == w.disk.head && v.pending == w.pending && v.scan.None?
    decreases |ids|
  {
    if ids != [] {
      ErasuresRun(hash, Erased(w, ids[0]), ids[1..]);
      assert Erasures(ids)[1..] == Erasures(ids[1..]);
    }
  }

  /**
    A write before the rename whose index entry comes after it: until then no other write can run, and the
    chunk is readable exactly when the copy at its old slot is of the same chunk.
   */
  lemma LatePutReadableIff(hash: Hash, w: World, ids: seq<Digest>)
    requires Inv(hash, w) && Enabled(hash, w, Rename) && w.pending.Some?
    ensures
      var p, c := w.pending.value, w.scan.value;
      && Legal(hash, Renamed(w), Erasures(ids))
      && var v := Run(hash, Renamed(w), Erasures(ids));
      && v.pending == Some(p)
      && (Lookup(hash, Put(v).disk, p.id).Data? <==> p.slot < |c.copied| && Head(c.copied[p.slot]) == p.id)
  {
    StepKeepsInv(hash, w, Rename);
    ErasuresRun(hash, Renamed(w), ids);
    PutReadableIff(hash, Run(hash, Renamed(w), Erasures(ids)));
  }

  // ---------------------------------------------------------------- one id during one compaction

  /** A step that neither ends the compaction nor writes or deletes this id's index entry from outside it. */
  predicate LeavesAlone(w: World, s: Step, id: Digest) {
    match s
    case PutIndex => w.pending.Some? ==> w.pending.value.id != id
    case Erase(k) => k != id
    case Begin => false
    case Cancel => false
    case Rename => false
    case _ => true
  }

  predicate Undisturbed(hash: Hash, w: World, steps: seq<Step>, id: Digest)
    requires Legal(hash, w, steps)
    decreases |steps|
  {
    steps == [] || (LeavesAlone(w, steps[0], id) && Undisturbed(hash, Next(hash, w, steps[0]), steps[1..], id))
  }

  /** Safe so far: already copied, or indexed at a window the scan has still to reach. */
  ghost predicate OnTrack(w: World, id: Digest) {
    && w.scan.Some? && id in w.disk.index
    && (|| id in w.scan.value.moved
        || (id in w.scan.value.live && w.scan.value.next <= w.disk.index[id] && PointsAt(w.disk, id) && !w.scan.value.ended))
  }

  lemma StepKeepsOnTrack(hash: Hash, w: World, s: Step, id: Digest)
    requires Enabled(hash, w, s) && LeavesAlone(w, s, id) && OnTrack(w, id)
    ensures OnTrack(Next(hash, w, s), id)
  {
    match s
    case WriteEntry(c) => AppendedFile(hash, w.disk, c);
    case _ =>
  }

  lemma {:induction false} RunKeepsOnTrack(hash: Hash, w: World, steps: seq<Step>, id: Digest)
    requires Legal(hash, w, steps) && Undisturbed(hash, w, steps, id) && OnTrack(w, id)
    ensures OnTrack(Run(hash, w, steps), id)
    decreases |steps|
  {
    if steps != [] {
      StepKeepsOnTrack(hash, w, steps[0], id);
      RunKeepsOnTrack(hash, Next(hash, w, steps[0]), steps[1..], id);
    }
  }

  /** A stored chunk that nobody re-uploads or deletes meanwhile survives, whatever happens to the others. */
  lemma UntouchedSurvives(hash: Hash, d: Disk, steps: seq<Step>, id: Digest)
    requires Clean(hash, d) && id in d.index
    requires Legal(hash, Next(hash, Idle(d), Begin), steps) && NoTears(steps)
    requires Undisturbed(hash, Next(hash, Idle(d), Begin), steps, id)
    requires Enabled(hash, Run(hash, Next(hash, Idle(d), Begin), steps), Rename)
    ensures Lookup(hash, Renamed(Run(hash, Next(hash, Idle(d), Begin), steps)).disk, id).Data?
  {
    var b := Next(hash, Idle(d), Begin);
    assert PointsAt(d, id);
    StepKeepsInv(hash, Idle(d), Begin);
    RunKeepsInv(hash, b, steps);
    RunKeepsOnTrack(hash, b, steps, id);
    RenameOutcome(hash, Run(hash, b, steps), id);
  }

  ghost predicate HeadedBetween(wins: seq<Window>, lo: nat, hi: nat, id: Digest) {
    exists i :: lo <= i < hi && i < |wins| && Head(wins[i]) == id
  }

  lemma {:induction false} ReturnsIffAhead(hash: Hash, w: World, steps: seq<Step>, id: Digest)
    requires w.scan.Some? && w.scan.value.next <= |w.disk.file.wins| && Legal(hash, w, steps) && Undisturbed(hash, w, steps, id)
    ensures
      var v := Run(hash, w, steps);
      && v.scan.Some? && v.scan.value.live == w.scan.value.live && w.scan.value.next <= v.scan.value.next
      && w.disk.file.wins <= v.disk.file.wins
      && (id in v.disk.index <==>
          id in w.disk.index
          || (id in w.scan.value.live && HeadedBetween(v.disk.file.wins, w.scan.value.next, v.scan.value.next, id)))
    decreases |steps|
  {
    if steps != [] {
      var u, v := Next(hash, w, steps[0]), Run(hash, w, steps);
      ReturnsIffAhead(hash, u, steps[1..], id);
      var lo, hi, wins := w.scan.value.next, v.scan.value.next, v.disk.file.wins;
      if steps[0] == CopyNext {
        assert wins[lo] == w.disk.file.wins[lo];
        assert HeadedBetween(wins, lo, hi, id) <==> Head(wins[lo]) == id || HeadedBetween(wins, lo + 1, hi, id);
      }
    }
  }

  /**
    A deletion during a compaction is undone exactly when the snapshot still held the chunk and the
    scan then meets an entry of it.
   */
  lemma DeletionUndoneIff(hash: Hash, w: World, id: Digest, steps: seq<Step>)
    requires w.scan.Some? && w.scan.value.next <= |w.disk.file.wins|
    requires Legal(hash, Erased(w, id), steps) && Undisturbed(hash, Erased(w, id), steps, id)
    ensures
      var v := Run(hash, Erased(w, id), steps);
      && v.scan.Some?
      && (id in v.disk.index <==>
          id in w.scan.value.live && HeadedBetween(v.disk.file.wins, w.scan.value.next, v.scan.value.next, id))
  {
    ReturnsIffAhead(hash, Erased(w, id), steps, id);
  }

  lemma {:induction false} RunConcat(hash: Hash, w: World, xs: seq<Step>, ys: seq<Step>)
    requires Legal(hash, w, xs) && Legal(hash, Run(hash, w, xs), ys)
    ensures Legal(hash, w, xs + ys) && Run(hash, w, xs + ys) == Run(hash, Run(hash, w, xs), ys)
    decreases |xs|
  {
    if xs == [] {
      assert xs + ys == ys;
    } else {
      RunConcat(hash, Next(hash, w, xs[0]), xs[1..], ys);
      assert (xs + ys)[1..] == xs[1..] + ys;
    }
  }

  function Copies(n: nat): seq<Step> { if n == 0 then [] else [CopyNext] + Copies(n - 1) }

  lemma {:induction false} QuietScan(hash: Hash, w: World, d: Disk)
    requires w.scan.Some? && !w.scan.value.ended && w.scan.value.next <= |d.file.wins|
    requires w.disk == Cancelled(d, w.scan.value.next)
    requires w.scan.value.copied == Kept(d, w.scan.value.next) && w.scan.value.live == d.index.Keys
    ensures
      var n := |d.file.wins|;
      var steps := Copies(n - w.scan.value.next) + [SeeEnd];
      && Legal(hash, w, steps)
      && var v := Run(hash, w, steps);
      && v.disk == Cancelled(d, n) && v.pending == w.pending
      && v.scan.Some? && v.scan.value.ended && v.scan.value.copied == Kept(d, n)
    decreases |d.file.wins| - w.scan.value.next
  {
    var k := |d.file.wins| - w.scan.value.next;
    if k > 0 {
      QuietScan(hash, Copied(w), d);
      assert (Copies(k) + [SeeEnd])[1..] == Copies(k - 1) + [SeeEnd];
    }
  }

  /** With the writer and the deleters idle, all this is the one-step compaction. */
  lemma QuietCompaction(hash: Hash, d: Disk)
    ensures
      var steps := [Begin] + (Copies(|d.file.wins|) + [SeeEnd]) + [Rename];
      Legal(hash, Idle(d), steps) && Run(hash, Idle(d), steps) == Idle(Compacted(d))
  {
    var b := Next(hash, Idle(d), Begin);
    QuietScan(hash, b, d);
    var scan := Copies(|d.file.wins|) + [SeeEnd];
    assert Legal(hash, b, []) && Legal(hash, Idle(d), [Begin]) && Run(hash, Idle(d), [Begin]) == b;
    RunConcat(hash, Idle(d), [Begin], scan);
    var v := Run(hash, Idle(d), [Begin] + scan);
    assert Legal(hash, Renamed(v), []) && Run(hash, v, [Rename]) == Renamed(v);
    RunConcat(hash, Idle(d), [Begin] + scan, [Rename]);
  }

  // ---------------------------------------------------------------- it happens

  lemma {:induction false} CopiesRun(hash: Hash, w: World)
    requires w.scan.Some? && !w.scan.value.ended && w.scan.value.next <= |w.disk.file.wins|
    ensures
      var steps := Copies(|w.disk.file.wins| - w.scan.value.next);
      && Legal(hash, w, steps) && NoTears(steps) && (forall id :: Undisturbed(hash, w, steps, id))
      && var v := Run(hash, w, steps);
      && v.scan.Some? && !v.scan.value.ended && v.scan.value.next == |v.disk.file.wins| == |w.disk.file.wins|
      && v.scan.value.live == w.scan.value.live && v.disk.file == w.disk.file
      && forall id :: id in w.disk.index ==> id in v.disk.index
    decreases |w.disk.file.wins| - w.scan.value.next
  {
    var k := |w.disk.file.wins| - w.scan.value.next;
    if k > 0 {
      CopiesRun(hash, Copied(w));
      assert Copies(k)[1..] == Copies(k - 1);
    }
  }

  /** Any stored chunk deleted right after the snapshot is back when the scan is through. */
  lemma DeletionComesBack(hash: Hash, d: Disk, id: Digest)
    requires id in d.index && PointsAt(d, id)
    ensures
      var b := Erased(Next(hash, Idle(d), Begin), id);
      var steps := Copies(|d.file.wins|);
      && id !in b.disk.index && Legal(hash, b, steps)
      && id in Run(hash, b, steps).disk.index
  {
    var w := Next(hash, Idle(d), Begin);
    CopiesRun(hash, Erased(w, id));
    DeletionUndoneIff(hash, w, id, Copies(|d.file.wins|));
    assert HeadedBetween(d.file.wins, 0, |d.file.wins|, id);
  }

  /** The world just before the rename, one new chunk having been uploaded right after the snapshot. */
  function UploadDuringScan(hash: Hash, d: Disk, c: Chunk): seq<Step> {
    [Begin, WriteEntry(c), PutIndex] + (Copies(|d.file.wins| + 1) + [SeeEnd])
  }

  /** Any new chunk uploaded during a compaction is in the index afterwards and cannot be read. */
  lemma UploadIsLost(hash: Hash, d: Disk, c: Chunk)
    requires Clean(hash, d) && Named(hash, c) && c.id !in d.index
    ensures
      var steps := UploadDuringScan(hash, d, c);
      && Legal(hash, Idle(d), steps)
      && var w := Run(hash, Idle(d), steps);
      && Enabled(hash, w, Rename)
      && c.id in Renamed(w).disk.index && !Lookup(hash, Renamed(w).disk, c.id).Data?
  {
    var first := [Begin, WriteEntry(c), PutIndex];
    var b := Next(hash, Idle(d), Begin);
    var u := Next(hash, b, WriteEntry(c));
    var v := Next(hash, u, PutIndex);
    WriteKeepsInv(hash, b, c);
    assert first[1..] == [WriteEntry(c), PutIndex] && first[1..][1..] == [PutIndex] && first[1..][1..][1..] == [];
    assert Legal(hash, Idle(d), first) && Run(hash, Idle(d), first) == v by {
      assert Legal(hash, v, []) && Run(hash, v, []) == v;
      assert Legal(hash, u, [PutIndex]) && Run(hash, u, [PutIndex]) == v;
      assert Legal(hash, b, [WriteEntry(c), PutIndex]) && Run(hash, b, [WriteEntry(c), PutIndex]) == v;
    }
    CopiesRun(hash, v);
    var copies := Copies(|d.file.wins| + 1);
    var x := Run(hash, v, copies);
    assert Legal(hash, Next(hash, x, SeeEnd), []) && Legal(hash, x, [SeeEnd]);
    RunConcat(hash, v, copies, [SeeEnd]);
    RunConcat(hash, Idle(d), first, copies + [SeeEnd]);
    CompactionOutcome(hash, d, UploadDuringScan(hash, d, c), c.id);
  }
}
