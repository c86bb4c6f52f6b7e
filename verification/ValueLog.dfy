/**
  The value log as bytes. Every offset the store ever reads, scans or records is a multiple of ENTRY, so
  the file is kept cut into windows of ENTRY bytes and the bytes left over. A write after torn bytes
  then falls across two windows.
 */
module VLogFile {
  import opened Prelude

  const ENTRY := 262212
  const BODY := 262144

  type Digest = b: Bytes | |b| == 32 witness seq(32, _ => 0)
  type Block = b: Bytes | |b| == 262144 witness seq(262144, _ => 0)
  type Window = b: Bytes | |b| == 262212 witness seq(262212, _ => 0)
  type Rest = b: Bytes | |b| < 262212

  type Hash = Bytes -> Digest

  /** chunk_id, then the chunk size as a big-endian uint32. */
  function Header(id: Digest): (h: Bytes)
    ensures |h| == 36
  {
    id + [0, 4, 0, 0]
  }

  function Encode(hash: Hash, id: Digest, data: Block): Window { Header(id) + data + hash(data) }

  function Head(w: Window): Digest { w[..32] }

  function Body(w: Window): Block { w[36..262180] }

  function Sum(w: Window): Digest { w[262180..] }

  lemma EncodeFields(hash: Hash, id: Digest, data: Block)
    ensures
      var w := Encode(hash, id, data);
      Head(w) == id && Body(w) == data && Sum(w) == hash(data)
  {
  }

  /** The layout in numbers: id, the chunk size as four big-endian bytes, the chunk, its hash; 262212 bytes. */
  lemma EntryLayout(hash: Hash, id: Digest, data: Block)
    ensures
      var w := Encode(hash, id, data);
      var b0: int, b1: int, b2: int, b3: int := w[32], w[33], w[34], w[35];
      && |w| == 32 + 4 + 262144 + 32 == ENTRY
      && w[..32] == id && w[36..262180] == data && w[262180..] == hash(data)
      && b0 * 0x100_0000 + b1 * 0x1_0000 + b2 * 0x100 + b3 == BODY == 262144
  {
    var w := Encode(hash, id, data);
    assert w[32..36] == [0, 4, 0, 0];
    assert w[32] == w[32..36][0] && w[33] == w[32..36][1] && w[34] == w[32..36][2] && w[35] == w[32..36][3];
  }

  datatype File = File(wins: seq<Window>, rest: Rest)

  function Flat(wins: seq<Window>): Bytes {
    if wins == [] then [] else Flat(wins[..|wins|-1]) + wins[|wins|-1]
  }

  function Content(f: File): Bytes { Flat(f.wins) + f.rest }

  /** O_APPEND: `e`, a whole entry or the part of one a crash let through, lands at the end of the file. */
  function Write(f: File, e: Bytes): File
    requires |e| <= ENTRY
  {
    if |f.rest| + |e| < ENTRY then File(f.wins, f.rest + e)
    else File(f.wins + [Straddle(f.rest, e)], e[ENTRY - |f.rest|..])
  }

  function Straddle(rest: Rest, e: Bytes): Window
    requires |rest| + |e| >= ENTRY
  {
    rest + e[..ENTRY - |rest|]
  }

  lemma WriteIsAppend(f: File, e: Bytes)
    requires |e| <= ENTRY
    ensures Content(Write(f, e)) == Content(f) + e
  {
    if |f.rest| + |e| >= ENTRY {
      var k := ENTRY - |f.rest|;
      var g := Write(f, e);
      assert g.wins[..|g.wins|-1] == f.wins;
      assert e == e[..k] + e[k..];
      calc {
        Content(g);
        Flat(f.wins) + (f.rest + e[..k]) + e[k..];
        Flat(f.wins) + f.rest + (e[..k] + e[k..]);
      }
    }
  }

  lemma {:induction false} FlatLength(wins: seq<Window>)
    ensures |Flat(wins)| == ENTRY * |wins|
  {
    if wins != [] { FlatLength(wins[..|wins|-1]); }
  }

  lemma {:induction false} FlatSlice(wins: seq<Window>, j: nat)
    requires j < |wins|
    ensures ENTRY * j + ENTRY <= |Flat(wins)| && Flat(wins)[ENTRY * j..ENTRY * j + ENTRY] == wins[j]
  {
    FlatLength(wins);
    var front := wins[..|wins|-1];
    FlatLength(front);
    if j < |front| {
      FlatSlice(front, j);
      assert Flat(wins)[ENTRY * j..ENTRY * j + ENTRY] == Flat(front)[ENTRY * j..ENTRY * j + ENTRY];
    }
  }

  /** A full-length read at a multiple of ENTRY succeeds exactly inside the windows, and returns one. */
  lemma WindowIsRead(f: File, j: nat)
    ensures ENTRY * j + ENTRY <= |Content(f)| <==> j < |f.wins|
    ensures j < |f.wins| ==> Content(f)[ENTRY * j..ENTRY * j + ENTRY] == f.wins[j]
  {
    FlatLength(f.wins);
    if j < |f.wins| {
      FlatSlice(f.wins, j);
      assert Content(f)[ENTRY * j..ENTRY * j + ENTRY] == Flat(f.wins)[ENTRY * j..ENTRY * j + ENTRY];
    }
  }

  // ---------------------------------------------------------------- an entry written after torn bytes

  /** The chunk is the last |rest| bytes of (rest, header), over and over. */
  predicate Echoes(rest: Rest, id: Digest, data: Block) {
    forall j: nat :: j < BODY ==> data[j] == Echo(rest, id, data, j)
  }

  function Echo(rest: Rest, id: Digest, data: Block, j: nat): byte
    requires j < BODY
  {
    if j < |rest| then (rest + Header(id))[36 + j] else data[j - |rest|]
  }

  lemma StraddleAt(hash: Hash, rest: Rest, id: Digest, data: Block, j: nat)
    requires j < BODY
    ensures Body(Straddle(rest, Encode(hash, id, data)))[j] == Echo(rest, id, data, j)
  {
    var e := Encode(hash, id, data);
    assert Body(Straddle(rest, e))[j] == (rest + e)[36 + j];
  }

  /** Read at the window it starts in, an entry gives its chunk exactly when the chunk echoes what precedes it. */
  lemma ReadsBackIffEchoes(hash: Hash, rest: Rest, id: Digest, data: Block)
    ensures Body(Straddle(rest, Encode(hash, id, data))) == data <==> Echoes(rest, id, data)
    ensures rest == [] ==> Echoes(rest, id, data)
  {
    var b := Body(Straddle(rest, Encode(hash, id, data)));
    forall j: nat | j < BODY ensures b[j] == Echo(rest, id, data, j) { StraddleAt(hash, rest, id, data, j); }
    if Echoes(rest, id, data) { assert forall j: nat :: j < BODY ==> b[j] == data[j]; }
  }

  function Zeros(): Block { seq(262144, _ => 0) }

  /** So a torn tail does not spoil every chunk: behind one torn byte the chunk of zeros reads back. */
  lemma ZerosEchoOneByte(b: byte, id: Digest)
    ensures Echoes([b], id, Zeros())
  {
    assert ([b] + Header(id))[36] == 0;
  }

  /** Nor does it need torn bytes of any special value to spoil one: no other chunk survives one torn byte. */
  lemma {:induction false} OneByteEchoIsZeros(b: byte, id: Digest, data: Block)
    requires Echoes([b], id, data)
    ensures data == Zeros()
  {
    forall j: nat | j < BODY ensures data[j] == 0 { OneByteEchoAt(b, id, data, j); }
  }

  lemma {:induction false} OneByteEchoAt(b: byte, id: Digest, data: Block, j: nat)
    requires Echoes([b], id, data) && j < BODY
    ensures data[j] == 0
  {
    if j > 0 { OneByteEchoAt(b, id, data, j - 1); assert data[j] == Echo([b], id, data, j); } else { assert data[0] == Echo([b], id, data, 0); }
  }

  /** Behind 36 torn bytes or more, a chunk that reads back contains its own id, as far as there is room for it. */
  lemma LongTearNeedsOwnId(rest: Rest, id: Digest, data: Block, i: nat)
    requires Echoes(rest, id, data) && 36 <= |rest| && i < 32 && |rest| - 36 + i < BODY
    ensures data[|rest| - 36 + i] == id[i]
  {
    var j := |rest| - 36 + i;
    assert data[j] == Echo(rest, id, data, j);
  }

  /** Torn within its content hash, an entry holds a whole body: then the chunk of that body, and no other, reads back. */
  lemma LateTearEchoesIff(rest: Rest, id: Digest, data: Block)
    requires |rest| >= 262180
    ensures Echoes(rest, id, data) <==> data == rest[36..262180]
  {
    var body := rest[36..262180];
    assert forall j: nat :: j < BODY ==> Echo(rest, id, data, j) == body[j];
    if Echoes(rest, id, data) { assert forall j: nat :: j < BODY ==> data[j] == body[j]; }
  }

  /** So the retry of a chunk torn that late reads back. */
  lemma RetryAfterLateTear(hash: Hash, id: Digest, data: Block, k: nat)
    requires 262180 <= k < ENTRY
    ensures Echoes(Encode(hash, id, data)[..k], id, data)
  {
    var t := Encode(hash, id, data)[..k];
    assert t[36..262180] == data;
    LateTearEchoesIff(t, id, data);
  }
}

/**
  The provider's chunk store: the value log, an index from chunk id to window, crash recovery and
  compaction. Statements hold for every disk unless they say otherwise: torn tails, corrupt windows,
  windows that straddle two entries and index entries that point anywhere are all included.
 */
module ValueLog {
  import opened Prelude
  import opened VLogFile

  datatype Disk = Disk(file: File, index: map<Digest, nat>, head: nat)

  datatype Chunk = Chunk(id: Digest, data: Block)

  datatype Found = NotFound | ReadError | Mismatch | Data(data: Block)

  /** readFromVLog: what was read must hash to the id asked for. */
  function Check(hash: Hash, w: Window, id: Digest): Found {
    if hash(Body(w)) == id then Data(Body(w)) else Mismatch
  }

  function ReadSlot(hash: Hash, wins: seq<Window>, slot: nat, id: Digest): Found {
    if slot < |wins| then Check(hash, wins[slot], id) else ReadError
  }

  function Lookup(hash: Hash, d: Disk, id: Digest): Found {
    if id !in d.index then NotFound else ReadSlot(hash, d.file.wins, d.index[id], id)
  }

  /** What the caller of AppendChunk must have checked. */
  predicate Named(hash: Hash, c: Chunk) { hash(c.data) == c.id }

  function Entry(hash: Hash, c: Chunk): Window { Encode(hash, c.id, c.data) }

  ghost predicate CollisionFree(hash: Hash) {
    forall a: Block, b: Block :: hash(a) == hash(b) ==> a == b
  }

  /** Whatever a lookup returns has the id's hash; without collisions it is the chunk itself. */
  lemma FoundIsTheChunk(hash: Hash, d: Disk, c: Chunk)
    requires Named(hash, c) && CollisionFree(hash)
    ensures Lookup(hash, d, c.id).Data? <==> Lookup(hash, d, c.id) == Data(c.data)
  {
  }

  predicate Headed(wins: seq<Window>, id: Digest) { exists i :: 0 <= i < |wins| && Head(wins[i]) == id }

  predicate Whole(hash: Hash, w: Window) { hash(Body(w)) == Head(w) == Sum(w) }

  /** A log of whole entries and perhaps a torn tail, with an index that points at the right ones. */
  ghost predicate Sound(hash: Hash, d: Disk) {
    && (forall i :: 0 <= i < |d.file.wins| ==> Whole(hash, d.file.wins[i]))
    && (forall id :: id in d.index ==> PointsAt(d, id))
  }

  predicate PointsAt(d: Disk, id: Digest)
    requires id in d.index
  {
    d.index[id] < |d.file.wins| && Head(d.file.wins[d.index[id]]) == id
  }

  /** Ready for the writer: nothing torn, and the next slot is the end of the file. */
  ghost predicate Clean(hash: Hash, d: Disk) {
    Sound(hash, d) && d.file.rest == [] && d.head == |d.file.wins|
  }

  lemma SoundLookup(hash: Hash, d: Disk, id: Digest)
    requires Sound(hash, d)
    ensures id in d.index <==> Lookup(hash, d, id).Data?
    ensures id !in d.index <==> Lookup(hash, d, id) == NotFound
    ensures id in d.index ==> Headed(d.file.wins, id)
  {
    if id in d.index { assert PointsAt(d, id) && Whole(hash, d.file.wins[d.index[id]]); }
  }

  // ---------------------------------------------------------------- append, delete

  /** The entry goes to the end of the file; the index records the head. */
  function Append(hash: Hash, d: Disk, c: Chunk): Disk {
    Disk(Write(d.file, Entry(hash, c)), d.index[c.id := d.head], d.head + 1)
  }

  function Delete(d: Disk, id: Digest): Disk { d.(index := d.index - {id}) }

  lemma AppendedFile(hash: Hash, d: Disk, c: Chunk)
    ensures
      var f := Append(hash, d, c).file;
      && f.wins == d.file.wins + [Straddle(d.file.rest, Entry(hash, c))]
      && f.rest == Entry(hash, c)[ENTRY - |d.file.rest|..]
      && |f.rest| == |d.file.rest|
      && (d.file.rest == [] ==> f.wins == d.file.wins + [Entry(hash, c)])
  {
    if d.file.rest == [] { assert Straddle(d.file.rest, Entry(hash, c)) == Entry(hash, c); }
  }

  /**
    On every disk, what decides whether an appended chunk can be read back: with the head at the end of
    the windows, the chunk must echo the torn bytes before it (no torn bytes: always); with the head
    behind the end, the window already there must spell the chunk.
   */
  lemma AppendReadsBackIff(hash: Hash, d: Disk, c: Chunk)
    requires Named(hash, c)
    ensures
      var back := Lookup(hash, Append(hash, d, c), c.id) == Data(c.data);
      && (d.head == |d.file.wins| ==> (back <==> Echoes(d.file.rest, c.id, c.data)))
      && (d.head < |d.file.wins| ==> (back <==> Body(d.file.wins[d.head]) == c.data))
      && (d.head > |d.file.wins| ==> Lookup(hash, Append(hash, d, c), c.id) == ReadError)
    ensures forall k :: k != c.id && k in d.index && d.index[k] < |d.file.wins| ==>
      Lookup(hash, Append(hash, d, c), k) == Lookup(hash, d, k)
  {
    AppendedFile(hash, d, c);
    ReadsBackIffEchoes(hash, d.file.rest, c.id, c.data);
  }

  lemma AppendKeepsClean(hash: Hash, d: Disk, c: Chunk)
    requires Clean(hash, d) && Named(hash, c)
    ensures Clean(hash, Append(hash, d, c)) && Lookup(hash, Append(hash, d, c), c.id) == Data(c.data)
    ensures forall k :: k != c.id ==> Lookup(hash, Append(hash, d, c), k) == Lookup(hash, d, k)
  {
    var a := Append(hash, d, c);
    AppendedFile(hash, d, c);
    AppendReadsBackIff(hash, d, c);
    ReadsBackIffEchoes(hash, d.file.rest, c.id, c.data);
    EncodeFields(hash, c.id, c.data);
    forall k | k in a.index ensures PointsAt(a, k) {
      if k != c.id { assert PointsAt(d, k); }
    }
    forall k | k != c.id ensures Lookup(hash, a, k) == Lookup(hash, d, k) {
      if k in d.index { assert PointsAt(d, k); }
    }
  }

  lemma DeleteKeepsSound(hash: Hash, d: Disk, id: Digest)
    requires Sound(hash, d)
    ensures Sound(hash, Delete(d, id)) && Lookup(hash, Delete(d, id), id) == NotFound
    ensures forall k :: k != id ==> Lookup(hash, Delete(d, id), k) == Lookup(hash, d, k)
  {
    var e := Delete(d, id);
    forall k | k in e.index ensures PointsAt(e, k) { assert PointsAt(d, k); }
  }

  // ---------------------------------------------------------------- recovery

  predicate Consistent(hash: Hash, w: Window) { hash(Body(w)) == Sum(w) }

  /** Where the scan stops: the first window whose body does not match its content hash, or the end. */
  function Good(hash: Hash, wins: seq<Window>, i: nat := 0): (g: nat)
    requires i <= |wins|
    ensures i <= g <= |wins| && (g < |wins| ==> !Consistent(hash, wins[g]))
    ensures forall j :: i <= j < g ==> Consistent(hash, wins[j])
    decreases |wins| - i
  {
    if i < |wins| && Consistent(hash, wins[i]) then Good(hash, wins, i + 1) else i
  }

  lemma GoodIs(hash: Hash, wins: seq<Window>, g: nat)
    requires g <= |wins| && (g < |wins| ==> !Consistent(hash, wins[g]))
    requires forall j :: 0 <= j < g ==> Consistent(hash, wins[j])
    ensures Good(hash, wins) == g
  {
  }

  /** The index after scanning the first n windows: missing ids come back at their first window. */
  function Rescanned(wins: seq<Window>, index: map<Digest, nat>, n: nat): map<Digest, nat>
    requires n <= |wins|
  {
    if n == 0 then index
    else
      var ix := Rescanned(wins, index, n - 1);
      if Head(wins[n-1]) in ix then ix else ix[Head(wins[n-1]) := n - 1]
  }

  function Recovered(hash: Hash, d: Disk): Disk {
    var g := Good(hash, d.file.wins);
    d.(index := Rescanned(d.file.wins, d.index, g), head := g)
  }

  lemma HeadedNext(wins: seq<Window>, n: nat, id: Digest)
    requires 0 < n <= |wins|
    ensures Headed(wins[..n], id) <==> Headed(wins[..n-1], id) || Head(wins[n-1]) == id
  {
    assert Head(wins[..n][n-1]) == Head(wins[n-1]);
    if Headed(wins[..n-1], id) {
      var i :| 0 <= i < n - 1 && Head(wins[..n-1][i]) == id;
      assert Head(wins[..n][i]) == id;
    }
    if Headed(wins[..n], id) {
      var i :| 0 <= i < n && Head(wins[..n][i]) == id;
      assert i < n - 1 ==> Head(wins[..n-1][i]) == id;
    }
  }

  lemma {:induction false} RescannedAt(wins: seq<Window>, index: map<Digest, nat>, n: nat, id: Digest)
    requires n <= |wins|
    ensures
      var ix := Rescanned(wins, index, n);
      && (id in ix <==> id in index || Headed(wins[..n], id))
      && (id in index ==> ix[id] == index[id])
      && (id in ix && id !in index ==> ix[id] < n && Head(wins[ix[id]]) == id)
  {
    if n > 0 {
      RescannedAt(wins, index, n - 1, id);
      HeadedNext(wins, n, id);
    }
  }

  /**
    A restart, whatever the disk: indexed chunks stay as they are, and exactly the ids heading a window
    before the first inconsistent one come back.
   */
  lemma RestartHoldsThePrefix(hash: Hash, d: Disk, id: Digest)
    ensures
      var r, good := Recovered(hash, d), d.file.wins[..Good(hash, d.file.wins)];
      && (id in d.index ==> Lookup(hash, r, id) == Lookup(hash, d, id))
      && (id !in d.index ==> (Lookup(hash, r, id) == NotFound <==> !Headed(good, id)))
      && (id in r.index && id !in d.index ==> PointsAt(r, id) && r.index[id] < |good|)
  {
    RescannedAt(d.file.wins, d.index, Good(hash, d.file.wins), id);
  }

  /** On a sound disk the store then holds exactly the chunks in the log, whatever was deleted before. */
  lemma RestartHoldsTheLog(hash: Hash, d: Disk)
    requires Sound(hash, d)
    ensures Sound(hash, Recovered(hash, d)) && Recovered(hash, d).head == |d.file.wins|
    ensures forall id :: Lookup(hash, Recovered(hash, d), id).Data? <==> Headed(d.file.wins, id)
  {
    var r := Recovered(hash, d);
    assert forall i :: 0 <= i < |d.file.wins| ==> Whole(hash, d.file.wins[i]);
    GoodIs(hash, d.file.wins, |d.file.wins|);
    assert d.file.wins[..|d.file.wins|] == d.file.wins;
    forall id | id in r.index ensures PointsAt(r, id) {
      RestartHoldsThePrefix(hash, d, id);
      if id in d.index { RescannedAt(d.file.wins, d.index, |d.file.wins|, id); assert PointsAt(d, id); }
    }
    forall id ensures Lookup(hash, r, id).Data? <==> Headed(d.file.wins, id) {
      RestartHoldsThePrefix(hash, d, id);
      SoundLookup(hash, r, id);
      SoundLookup(hash, d, id);
    }
  }

  /** So a deletion outlives a restart exactly when no window the scan reaches is headed by the chunk. */
  lemma DeletionOutlivesRestartIff(hash: Hash, d: Disk, id: Digest)
    ensures Lookup(hash, Recovered(hash, Delete(d, id)), id) == NotFound
       <==> !Headed(d.file.wins[..Good(hash, d.file.wins)], id)
  {
    RestartHoldsThePrefix(hash, Delete(d, id), id);
  }

  // ---------------------------------------------------------------- runs with crashes

  datatype Op = Put(c: Chunk) | Crash(c: Chunk, written: nat) | Remove(id: Digest) | Restart

  /** A crash lets `written` bytes of an entry through and never reaches the index. */
  predicate Possible(hash: Hash, op: Op) {
    match op
    case Put(c) => Named(hash, c)
    case Crash(c, written) => Named(hash, c) && written <= ENTRY
    case _ => true
  }

  function Apply(hash: Hash, d: Disk, op: Op): Disk
    requires Possible(hash, op)
  {
    match op
    case Put(c) => Append(hash, d, c)
    case Crash(c, written) => d.(file := Write(d.file, Entry(hash, c)[..written]))
    case Remove(id) => Delete(d, id)
    case Restart => Recovered(hash, d)
  }

  ghost predicate AllPossible(hash: Hash, ops: seq<Op>) { forall i :: 0 <= i < |ops| ==> Possible(hash, ops[i]) }

  function Run(hash: Hash, d: Disk, ops: seq<Op>): Disk
    requires AllPossible(hash, ops)
  {
    if ops == [] then d else Apply(hash, Run(hash, d, ops[..|ops|-1]), ops[|ops|-1])
  }

  lemma {:induction false} WindowsStay(hash: Hash, d: Disk, ops: seq<Op>)
    requires AllPossible(hash, ops)
    ensures d.file.wins <= Run(hash, d, ops).file.wins
  {
    if ops != [] { WindowsStay(hash, d, ops[..|ops|-1]); }
  }

  lemma GoodOfPrefix(hash: Hash, wins: seq<Window>, more: seq<Window>)
    requires wins <= more && Good(hash, wins) < |wins|
    ensures Good(hash, more) == Good(hash, wins)
  {
    var g := Good(hash, wins);
    assert forall j :: 0 <= j < |wins| ==> more[j] == wins[j];
    GoodIs(hash, more, g);
  }

  /**
    Once the scan stops before the last window it stops there after every further run of uploads,
    crashes, deletions and restarts: each restart sends the writer back to that window, and of all
    chunks only the one that window already spells could then be stored and read back.
   */
  lemma BlockedForever(hash: Hash, d: Disk, ops: seq<Op>, c: Chunk)
    requires AllPossible(hash, ops) && Named(hash, c)
    requires Good(hash, d.file.wins) < |d.file.wins|
    ensures forall op :: Possible(hash, op) <==>
      (op.Put? ==> hash(op.c.data) == op.c.id) && (op.Crash? ==> hash(op.c.data) == op.c.id && op.written <= 262212)
    ensures
      var g := Good(hash, d.file.wins);
      var r := Recovered(hash, Run(hash, d, ops));
      && r.head == g
      && (Lookup(hash, Append(hash, r, c), c.id) == Data(c.data) <==> Body(d.file.wins[g]) == c.data)
  {
    var e := Run(hash, d, ops);
    WindowsStay(hash, d, ops);
    GoodOfPrefix(hash, d.file.wins, e.file.wins);
    AppendReadsBackIff(hash, Recovered(hash, e), c);
  }

  /** The first upload after a torn tail blocks the log unless the straddling window happens to be consistent. */
  lemma TornTailBlocksIff(hash: Hash, d: Disk, c: Chunk)
    requires Sound(hash, d) && Named(hash, c)
    ensures
      var a := Append(hash, Recovered(hash, d), c);
      && (Good(hash, a.file.wins) < |a.file.wins| <==> !Consistent(hash, Straddle(d.file.rest, Entry(hash, c))))
      && (d.file.rest == [] ==> Good(hash, a.file.wins) == |a.file.wins|)
      && (Lookup(hash, a, c.id) == Data(c.data) <==> Echoes(d.file.rest, c.id, c.data))
  {
    RestartHoldsTheLog(hash, d);
    var r := Recovered(hash, d);
    var a := Append(hash, r, c);
    AppendedFile(hash, r, c);
    AppendReadsBackIff(hash, r, c);
    EncodeFields(hash, c.id, c.data);
    assert forall i :: 0 <= i < |d.file.wins| ==> Whole(hash, d.file.wins[i]);
    var w := Straddle(d.file.rest, Entry(hash, c));
    GoodIs(hash, a.file.wins, if Consistent(hash, w) then |d.file.wins| + 1 else |d.file.wins|);
  }

  function Appended(hash: Hash, d: Disk, cs: seq<Chunk>): Disk {
    if cs == [] then d else Append(hash, Appended(hash, d, cs[..|cs|-1]), cs[|cs|-1])
  }

  lemma {:induction false} AppendedShape(hash: Hash, d: Disk, cs: seq<Chunk>)
    requires d.head == |d.file.wins|
    ensures
      var a := Appended(hash, d, cs);
      && a.head == |a.file.wins| == |d.file.wins| + |cs|
      && |a.file.rest| == |d.file.rest|
      && d.file.wins <= a.file.wins
  {
    if cs != [] {
      AppendedShape(hash, d, cs[..|cs|-1]);
      AppendedFile(hash, Appended(hash, d, cs[..|cs|-1]), cs[|cs|-1]);
    }
  }

  ghost predicate LastOfItsId(cs: seq<Chunk>, i: nat)
    requires i < |cs|
  {
    forall j :: i < j < |cs| ==> cs[j].id != cs[i].id
  }

  lemma AppendedOneMore(hash: Hash, d: Disk, cs: seq<Chunk>, i: nat)
    requires i < |cs|
    ensures Appended(hash, d, cs[..i+1]) == Append(hash, Appended(hash, d, cs[..i]), cs[i])
  {
    assert cs[..i+1][..i] == cs[..i];
  }

  lemma AppendLeaves(hash: Hash, d: Disk, c: Chunk, id: Digest)
    requires id != c.id && id in d.index && d.index[id] < |d.file.wins|
    ensures
      var a := Append(hash, d, c);
      Lookup(hash, a, id) == Lookup(hash, d, id) && id in a.index && a.index[id] < |a.file.wins|
  {
    AppendedFile(hash, d, c);
  }

  lemma {:induction false} LaterAppendsLeave(hash: Hash, d: Disk, cs: seq<Chunk>, i: nat, m: nat)
    requires d.head == |d.file.wins| && i < m <= |cs| && LastOfItsId(cs, i)
    ensures
      var a := Appended(hash, d, cs[..m]);
      && Lookup(hash, a, cs[i].id) == Lookup(hash, Appended(hash, d, cs[..i+1]), cs[i].id)
      && cs[i].id in a.index && a.index[cs[i].id] < |a.file.wins|
  {
    AppendedOneMore(hash, d, cs, m - 1);
    if i < m - 1 {
      LaterAppendsLeave(hash, d, cs, i, m - 1);
      AppendLeaves(hash, Appended(hash, d, cs[..m-1]), cs[m-1], cs[i].id);
    } else {
      AppendedShape(hash, d, cs[..i]);
      AppendedFile(hash, Appended(hash, d, cs[..i]), cs[i]);
    }
  }

  lemma RestBefore(hash: Hash, d: Disk, cs: seq<Chunk>, i: nat)
    requires d.head == |d.file.wins| && 0 < i <= |cs|
    ensures Appended(hash, d, cs[..i]).file.rest == Entry(hash, cs[i-1])[ENTRY - |d.file.rest|..]
  {
    var a := Appended(hash, d, cs[..i-1]);
    assert cs[..i][..i-1] == cs[..i-1];
    AppendedShape(hash, d, cs[..i-1]);
    AppendedFile(hash, a, cs[i-1]);
  }

  /**
    Every upload after a torn tail, however many: the torn length never goes away, each entry falls
    across two windows, and a chunk reads back exactly when it echoes the bytes that precede its own
    entry in the file.
   */
  lemma UploadsAfterTear(hash: Hash, d: Disk, cs: seq<Chunk>, i: nat)
    requires d.head == |d.file.wins| && i < |cs| && LastOfItsId(cs, i) && Named(hash, cs[i])
    ensures
      var before := Appended(hash, d, cs[..i]).file.rest;
      && |before| == |d.file.rest|
      && (i == 0 ==> before == d.file.rest)
      && (i > 0 ==> before == Entry(hash, cs[i-1])[ENTRY - |d.file.rest|..])
      && (Lookup(hash, Appended(hash, d, cs), cs[i].id) == Data(cs[i].data) <==> Echoes(before, cs[i].id, cs[i].data))
  {
    LaterAppendsLeave(hash, d, cs, i, |cs|);
    assert cs[..|cs|] == cs;
    AppendedShape(hash, d, cs[..i]);
    AppendedOneMore(hash, d, cs, i);
    AppendReadsBackIff(hash, Appended(hash, d, cs[..i]), cs[i]);
    if i > 0 { RestBefore(hash, d, cs, i); }
  }

  /** Behind a single torn byte the chunk of zeros, and no other, reads back. */
  lemma OneTornByte(hash: Hash, d: Disk, c: Chunk)
    requires Sound(hash, d) && |d.file.rest| == 1 && Named(hash, c)
    ensures Lookup(hash, Append(hash, Recovered(hash, d), c), c.id) == Data(c.data) <==> c.data == Zeros()
  {
    TornTailBlocksIff(hash, d, c);
    var b := d.file.rest[0];
    assert d.file.rest == [b];
    ZerosEchoOneByte(b, c.id);
    if Echoes([b], c.id, c.data) { OneByteEchoIsZeros(b, c.id, c.data); }
  }

  // ---------------------------------------------------------------- compaction

  /** The windows copied from the first n: those headed by an id in the index. No hash is checked. */
  function Kept(d: Disk, n: nat): seq<Window>
    requires n <= |d.file.wins|
  {
    if n == 0 then []
    else Kept(d, n - 1) + if Head(d.file.wins[n-1]) in d.index then [d.file.wins[n-1]] else []
  }

  /** The index after n windows: each id copied so far points at its latest copy. */
  function Moved(d: Disk, n: nat): map<Digest, nat>
    requires n <= |d.file.wins|
  {
    if n == 0 then d.index
    else if Head(d.file.wins[n-1]) in d.index then Moved(d, n - 1)[Head(d.file.wins[n-1]) := |Kept(d, n - 1)|]
    else Moved(d, n - 1)
  }

  function Compacted(d: Disk): Disk {
    var n := |d.file.wins|;
    Disk(File(Kept(d, n), []), Moved(d, n), |Kept(d, n)|)
  }

  /** Cancelled after n windows: the index has moved, the file has not. */
  function Cancelled(d: Disk, n: nat): Disk
    requires n <= |d.file.wins|
  {
    d.(index := Moved(d, n))
  }

  /** The last of the first n windows headed by `id`; n if there is none. */
  function Last(wins: seq<Window>, id: Digest, n: nat): (i: nat)
    requires n <= |wins|
    ensures i < n ==> Head(wins[i]) == id
    ensures forall j :: 0 <= j < n && Head(wins[j]) == id ==> j <= i < n
  {
    if n == 0 then 0
    else if Head(wins[n-1]) == id then n - 1
    else
      var i := Last(wins, id, n - 1);
      if i < n - 1 then i else n
  }

  lemma {:induction false} KeptAt(d: Disk, i: nat, n: nat)
    requires i < n <= |d.file.wins| && Head(d.file.wins[i]) in d.index
    ensures |Kept(d, i)| < |Kept(d, n)| && Kept(d, n)[|Kept(d, i)|] == d.file.wins[i]
  {
    if i < n - 1 { KeptAt(d, i, n - 1); }
  }

  lemma {:induction false} KeptAreLive(d: Disk, n: nat)
    requires n <= |d.file.wins|
    ensures |Kept(d, n)| <= n
    ensures forall q :: 0 <= q < |Kept(d, n)| ==> Kept(d, n)[q] in d.file.wins && Head(Kept(d, n)[q]) in d.index
  {
    if n > 0 { KeptAreLive(d, n - 1); }
  }

  lemma {:induction false} MovedAt(d: Disk, id: Digest, n: nat)
    requires n <= |d.file.wins|
    ensures id in Moved(d, n) <==> id in d.index
    ensures
      var i := Last(d.file.wins, id, n);
      id in d.index ==> Moved(d, n)[id] == if i < n then |Kept(d, i)| else d.index[id]
  {
    if n > 0 { MovedAt(d, id, n - 1); }
  }

  /**
    A lookup after a completed compaction, whatever the disk: an id that heads a window gets the last
    such window, right or wrong; an id that heads none keeps its old offset, now into the new file.
   */
  lemma CompactedLookup(hash: Hash, d: Disk, id: Digest)
    ensures
      var wins, c := d.file.wins, Compacted(d);
      if id !in d.index then Lookup(hash, c, id) == NotFound
      else if Headed(wins, id) then
        var i := Last(wins, id, |wins|);
        i < |wins| && Lookup(hash, c, id) == Check(hash, wins[i], id)
      else Lookup(hash, c, id) == ReadSlot(hash, c.file.wins, d.index[id], id)
  {
    var n := |d.file.wins|;
    MovedAt(d, id, n);
    if id in d.index && Headed(d.file.wins, id) {
      var j :| 0 <= j < n && Head(d.file.wins[j]) == id;
      KeptAt(d, Last(d.file.wins, id, n), n);
    }
  }

  /** With an index that points right, compaction loses no chunk exactly when no last window is spoiled. */
  lemma CompactionHarmlessIff(hash: Hash, d: Disk)
    requires forall id :: id in d.index ==> PointsAt(d, id)
    ensures (forall id :: id in d.index ==> Lookup(hash, Compacted(d), id).Data?)
       <==> (forall i :: 0 <= i < |d.file.wins| && Head(d.file.wins[i]) in d.index
               && Last(d.file.wins, Head(d.file.wins[i]), |d.file.wins|) == i
               ==> hash(Body(d.file.wins[i])) == Head(d.file.wins[i]))
  {
    var wins := d.file.wins;
    forall id | id in d.index
      ensures Headed(wins, id) && Last(wins, id, |wins|) < |wins|
      ensures Lookup(hash, Compacted(d), id).Data? <==> hash(Body(wins[Last(wins, id, |wins|)])) == id
    {
      assert PointsAt(d, id);
      CompactedLookup(hash, d, id);
    }
  }

  /** On a sound disk it keeps every chunk, drops every deleted one for good, and clears a torn tail. */
  lemma CompactionKeepsChunks(hash: Hash, d: Disk)
    requires Sound(hash, d)
    ensures Clean(hash, Compacted(d))
    ensures forall id :: id in Compacted(d).index <==> id in d.index
    ensures forall id :: Lookup(hash, Recovered(hash, Compacted(d)), id).Data? <==> id in d.index
  {
    var c, n := Compacted(d), |d.file.wins|;
    KeptAreLive(d, n);
    forall q | 0 <= q < |c.file.wins| ensures Whole(hash, c.file.wins[q]) {
      var i :| 0 <= i < n && d.file.wins[i] == Kept(d, n)[q];
    }
    forall id ensures id in c.index <==> id in d.index { MovedAt(d, id, n); }
    forall id | id in c.index ensures PointsAt(c, id) {
      MovedAt(d, id, n);
      assert PointsAt(d, id);
      KeptAt(d, Last(d.file.wins, id, n), n);
    }
    RestartHoldsTheLog(hash, c);
    forall id ensures Headed(c.file.wins, id) <==> id in d.index { SoundLookup(hash, c, id); }
  }

  lemma CrashTears(hash: Hash, d: Disk, x: Chunk, k: nat)
    requires Clean(hash, d) && Named(hash, x) && k < ENTRY
    ensures
      var e := Apply(hash, d, Crash(x, k));
      Sound(hash, e) && e.file == File(d.file.wins, Entry(hash, x)[..k]) && e.index == d.index
  {
    var e := Apply(hash, d, Crash(x, k));
    assert d.file.rest + Entry(hash, x)[..k] == Entry(hash, x)[..k];
    forall id | id in e.index ensures PointsAt(e, id) { assert PointsAt(d, id); }
  }

  lemma StraddleHead(hash: Hash, x: Chunk, k: nat, y: Chunk)
    requires 32 <= k < ENTRY
    ensures Head(Straddle(Entry(hash, x)[..k], Entry(hash, y))) == x.id
  {
    EncodeFields(hash, x.id, x.data);
    assert Head(Straddle(Entry(hash, x)[..k], Entry(hash, y))) == Head(Entry(hash, x));
  }

  lemma LastWindowWins(hash: Hash, d: Disk, ws: seq<Window>, w: Window)
    requires d.file.wins == ws + [w] && Head(w) in d.index
    ensures Lookup(hash, Compacted(d), Head(w)) == Check(hash, w, Head(w))
  {
    assert d.file.wins[|ws|] == w;
    CompactedLookup(hash, d, Head(w));
  }

  /**
    A healthy chunk lost: a second write of a stored chunk is cut off after its id, the daemon restarts,
    another chunk goes in, and the next compaction moves the stored chunk's index entry to the window
    that straddles both.
   */
  lemma TornDuplicateIsLost(hash: Hash, d: Disk, x: Chunk, k: nat, y: Chunk)
    requires Clean(hash, d) && Named(hash, x) && Named(hash, y)
    requires x.id in d.index && x.id != y.id && 32 <= k < ENTRY
    ensures
      var a := Append(hash, Recovered(hash, Apply(hash, d, Crash(x, k))), y);
      && Lookup(hash, a, x.id).Data?
      && (Lookup(hash, Compacted(a), x.id).Data? <==>
          hash(Body(Straddle(Entry(hash, x)[..k], Entry(hash, y)))) == x.id)
  {
    var e := Apply(hash, d, Crash(x, k));
    var r := Recovered(hash, e);
    CrashTears(hash, d, x, k);
    RestartHoldsTheLog(hash, e);
    RescannedAt(e.file.wins, e.index, Good(hash, e.file.wins), x.id);
    assert PointsAt(r, x.id);
    SoundLookup(hash, r, x.id);
    AppendLeaves(hash, r, y, x.id);
    AppendedFile(hash, r, y);
    StraddleHead(hash, x, k, y);
    LastWindowWins(hash, Append(hash, r, y), d.file.wins, Straddle(e.file.rest, Entry(hash, y)));
  }

  // ---------------------------------------------------------------- cancelled compaction

  /** A lookup after a cancelled compaction: a copied id reads whatever stands where its copy would be. */
  lemma CancelledLookup(hash: Hash, d: Disk, n: nat, id: Digest)
    requires n <= |d.file.wins|
    ensures
      var i := Last(d.file.wins, id, n);
      if id in d.index && i < n then
        |Kept(d, i)| <= i && Lookup(hash, Cancelled(d, n), id) == Check(hash, d.file.wins[|Kept(d, i)|], id)
      else Lookup(hash, Cancelled(d, n), id) == Lookup(hash, d, id)
  {
    MovedAt(d, id, n);
    var i := Last(d.file.wins, id, n);
    if i < n { KeptAreLive(d, i); }
  }

  /** Window i is the last copied so far for its id. */
  predicate LastCopy(d: Disk, n: nat, i: nat)
    requires n <= |d.file.wins|
  {
    i < n && Head(d.file.wins[i]) in d.index && Last(d.file.wins, Head(d.file.wins[i]), n) == i
  }

  /**
    Cancelling a compaction loses no chunk if and only if every id's last copy would land on a window
    headed by that same id. The log may hold a chunk any number of times.
   */
  lemma CancelHarmlessIff(hash: Hash, d: Disk, n: nat)
    requires Sound(hash, d) && n <= |d.file.wins|
    ensures (forall id :: id in d.index ==> Lookup(hash, Cancelled(d, n), id).Data?)
       <==> (forall i: nat :: LastCopy(d, n, i) ==> |Kept(d, i)| <= i && Head(d.file.wins[|Kept(d, i)|]) == Head(d.file.wins[i]))
  {
    var wins := d.file.wins;
    forall i: nat | LastCopy(d, n, i)
      ensures |Kept(d, i)| <= i
      ensures Lookup(hash, Cancelled(d, n), Head(wins[i])).Data? <==> Head(wins[|Kept(d, i)|]) == Head(wins[i])
    {
      CancelledLookup(hash, d, n, Head(wins[i]));
      assert Whole(hash, wins[|Kept(d, i)|]);
    }
    forall id | id in d.index && Last(wins, id, n) == n ensures Lookup(hash, Cancelled(d, n), id).Data? {
      CancelledLookup(hash, d, n, id);
      SoundLookup(hash, d, id);
    }
    forall id | id in d.index && Last(wins, id, n) < n ensures LastCopy(d, n, Last(wins, id, n)) {}
    if forall i: nat :: LastCopy(d, n, i) ==> |Kept(d, i)| <= i && Head(wins[|Kept(d, i)|]) == Head(wins[i]) {
      forall id | id in d.index ensures Lookup(hash, Cancelled(d, n), id).Data? {
        var i := Last(wins, id, n);
        if i < n { assert LastCopy(d, n, i) && Head(wins[i]) == id; }
      }
    }
  }

  ghost predicate LoggedOnce(d: Disk) {
    forall i, j :: 0 <= i < j < |d.file.wins| ==> Head(d.file.wins[i]) != Head(d.file.wins[j])
  }

  /** No deleted entry lies before a live one among the windows copied. */
  ghost predicate NoDeadBefore(d: Disk, n: nat)
    requires n <= |d.file.wins|
  {
    forall i: nat :: i < n && Head(d.file.wins[i]) in d.index ==> |Kept(d, i)| == i
  }

  lemma CancelHarmlessIffNoDead(hash: Hash, d: Disk, n: nat)
    requires Sound(hash, d) && n <= |d.file.wins| && LoggedOnce(d)
    ensures (forall id :: id in d.index ==> Lookup(hash, Cancelled(d, n), id).Data?) <==> NoDeadBefore(d, n)
  {
    CancelHarmlessIff(hash, d, n);
    forall i: nat | i < n && Head(d.file.wins[i]) in d.index
      ensures LastCopy(d, n, i)
      ensures |Kept(d, i)| <= i
      ensures Head(d.file.wins[|Kept(d, i)|]) == Head(d.file.wins[i]) <==> |Kept(d, i)| == i
    {
      KeptAreLive(d, i);
      assert Head(d.file.wins[Last(d.file.wins, Head(d.file.wins[i]), n)]) == Head(d.file.wins[i]);
    }
  }

  // ---------------------------------------------------------------- the store as the daemon runs it

  class Store {
    var disk: Disk
    const hash: Hash

    constructor (hash: Hash)
      ensures this.hash == hash && disk == Disk(File([], []), map[], 0) && Clean(hash, disk)
    {
      this.hash := hash;
      disk := Disk(File([], []), map[], 0);
    }

    method AppendChunk(c: Chunk) returns (slot: nat)
      requires Named(hash, c)
      modifies this
      ensures disk == Append(hash, old(disk), c) && slot == old(disk).head
      ensures Clean(hash, old(disk)) ==> Clean(hash, disk)
    {
      if Clean(hash, disk) { AppendKeepsClean(hash, disk, c); }
      slot := disk.head;
      disk := disk.(file := Write(disk.file, Entry(hash, c)));
      disk := disk.(head := disk.head + 1);
      disk := disk.(index := disk.index[c.id := slot]);
    }

    method LookupChunk(id: Digest) returns (r: Found)
      ensures r == Lookup(hash, disk, id) && (r.Data? ==> hash(r.data) == id)
    {
      if id !in disk.index { return NotFound; }
      var slot := disk.index[id];
      if slot >= |disk.file.wins| { return ReadError; }
      var body := Body(disk.file.wins[slot]);
      if hash(body) != id { return Mismatch; }
      r := Data(body);
    }

    method RecoverFromCrash()
      modifies this
      ensures disk == Recovered(hash, old(disk))
    {
      var n := 0;
      while n < |disk.file.wins| && Consistent(hash, disk.file.wins[n])
        invariant n <= |old(disk).file.wins| && disk == old(disk).(index := Rescanned(old(disk).file.wins, old(disk).index, n))
        invariant forall j :: 0 <= j < n ==> Consistent(hash, disk.file.wins[j])
        decreases |disk.file.wins| - n
      {
        var id := Head(disk.file.wins[n]);
        if id !in disk.index { disk := disk.(index := disk.index[id := n]); }
        n := n + 1;
      }
      GoodIs(hash, disk.file.wins, n);
      disk := disk.(head := n);
    }

    /** RunGC, cut short before window `stop` by cancellation or a failed write when that lies within the log. */
    method RunGC(stop: nat) returns (finished: bool)
      modifies this
      ensures finished <==> stop > |old(disk).file.wins|
      ensures finished ==> disk == Compacted(old(disk)) && (Sound(hash, old(disk)) ==> Clean(hash, disk))
      ensures !finished ==> disk == Cancelled(old(disk), stop)
    {
      if Sound(hash, disk) { CompactionKeepsChunks(hash, disk); }
      var live := disk.index;
      var copied: seq<Window> := [];
      var n := 0;
      while true
        invariant n <= |old(disk).file.wins| && n <= stop
        invariant copied == Kept(old(disk), n) && disk == old(disk).(index := Moved(old(disk), n))
        decreases |disk.file.wins| - n
      {
        if n == stop { return false; }
        if n >= |disk.file.wins| { break; }
        var w := disk.file.wins[n];
        if Head(w) in live {
          disk := disk.(index := disk.index[Head(w) := |copied|]);
          copied := copied + [w];
        }
        n := n + 1;
      }
      disk := Disk(File(copied, []), disk.index, |copied|);
      finished := true;
    }
  }
}
