/** Bits of a byte, least significant first, and bitmaps as rows of bytes. */
module Bitmaps {
  import opened Prelude

  function Pow2(k: nat): (p: nat)
    ensures p > 0
  {
    if k == 0 then 1 else 2 * Pow2(k - 1)
  }

  /** x & (1 << k) != 0 */
  predicate Bit(x: nat, k: nat) {
    if k == 0 then x % 2 == 1 else Bit(x / 2, k - 1)
  }

  /** x | (1 << k) */
  function SetBit(x: nat, k: nat): nat {
    if k == 0 then (if x % 2 == 1 then x else x + 1) else 2 * SetBit(x / 2, k - 1) + x % 2
  }

  lemma {:induction false} SetBitRange(x: nat, k: nat, width: nat)
    requires k < width && x < Pow2(width)
    ensures SetBit(x, k) < Pow2(width)
  {
    assert Pow2(width) == 2 * Pow2(width - 1);
    if k > 0 {
      assert x / 2 < Pow2(width - 1);
      SetBitRange(x / 2, k - 1, width - 1);
    }
  }

  lemma {:induction false} SetBitBits(x: nat, k: nat, j: nat)
    ensures Bit(SetBit(x, k), j) <==> j == k || Bit(x, j)
  {
    if j > 0 && k > 0 { SetBitBits(x / 2, k - 1, j - 1); }
  }

  function SetByteBit(x: byte, k: nat): byte
    requires k < 8
  {
    assert Pow2(8) == 256 by { assert Pow2(4) == 16 && Pow2(5) == 32 && Pow2(6) == 64 && Pow2(7) == 128; }
    SetBitRange(x, k, 8);
    SetBit(x, k)
  }

  lemma {:induction false} ZeroHasNoBits(k: nat)
    ensures !Bit(0, k)
  {
    if k > 0 { ZeroHasNoBits(k - 1); }
  }

  /** Bit i of a bitmap; bits past its end do not exist. */
  predicate BitAt(bitmap: Bytes, i: nat)
    requires i / 8 < |bitmap|
  {
    Bit(bitmap[i / 8], i % 8)
  }

  /** How many of the first n bits are set. */
  function PopCount(bitmap: Bytes, n: nat): (c: nat)
    requires n <= 8 * |bitmap|
    ensures c <= n
  {
    if n == 0 then 0 else PopCount(bitmap, n - 1) + if BitAt(bitmap, n - 1) then 1 else 0
  }

  lemma SetBitAt(bitmap: Bytes, i: nat, j: nat)
    requires i < 8 * |bitmap| && j < 8 * |bitmap|
    ensures BitAt(bitmap[i / 8 := SetByteBit(bitmap[i / 8], i % 8)], j) <==> j == i || BitAt(bitmap, j)
  {
    SetBitBits(bitmap[i / 8], i % 8, j % 8);
    if i / 8 == j / 8 && i % 8 == j % 8 { assert i == 8 * (i / 8) + i % 8 && j == 8 * (j / 8) + j % 8; }
  }
}

/**
  The vetting-gc exchange: the provider's frame loop with its delete pass and failure bitmap, and the
  coordinator's encoder, decoder and bookkeeping.
 */
module VettingGC {
  import opened Prelude
  import opened BigEndian
  import opened Streams
  import opened Bitmaps

  const MAX_CHUNKS := 10_000
  const ID_SIZE := 32
  const SIG_SIZE := 64
  const MAX_UINT32 := 0x1_0000_0000

  type Flags = seq<bool>

  // ---------------------------------------------------------------- the delete pass

  function IdAt(flat: Bytes, i: nat): (id: Bytes)
    requires ID_SIZE * (i + 1) <= |flat|
    ensures |id| == ID_SIZE
  {
    flat[ID_SIZE * i..ID_SIZE * (i + 1)]
  }

  /** Store and failures after the first n deletes; fails[i] says whether delete i reports an error. */
  function DeletedFrom(chunks: set<Bytes>, flat: Bytes, fails: Flags, n: nat): set<Bytes>
    requires n <= |fails| && ID_SIZE * n <= |flat|
  {
    if n == 0 then chunks
    else
      var rest := DeletedFrom(chunks, flat, fails, n - 1);
      if fails[n-1] then rest else rest - {IdAt(flat, n - 1)}
  }

  function Failures(fails: Flags, n: nat): (c: nat)
    requires n <= |fails|
    ensures c <= n
  {
    if n == 0 then 0 else Failures(fails, n - 1) + if fails[n-1] then 1 else 0
  }

  /** ceil(count / 8), in uint32 arithmetic. */
  function BitmapSize(count: nat): nat { ((count + 8 - 1) % MAX_UINT32) / 8 }

  /** Bit i is set exactly when delete i failed, and every padding bit is clear. */
  ghost predicate Records(bitmap: Bytes, fails: Flags) {
    && |bitmap| == (|fails| + 7) / 8
    && forall i :: 0 <= i < 8 * |bitmap| ==> (BitAt(bitmap, i) <==> i < |fails| && fails[i])
  }

  lemma {:induction false} RecordedCount(bitmap: Bytes, fails: Flags, n: nat)
    requires Records(bitmap, fails) && n <= |fails|
    ensures PopCount(bitmap, n) == Failures(fails, n)
  {
    if n > 0 { RecordedCount(bitmap, fails, n - 1); }
  }

  /** As `Records`, after the first n deletes. */
  ghost predicate RecordsFirst(bitmap: Bytes, fails: Flags, n: nat)
    requires n <= |fails|
  {
    forall j :: 0 <= j < 8 * |bitmap| ==> (BitAt(bitmap, j) <==> j < n && fails[j])
  }

  lemma BlankRecordsNothing(bitmap: Bytes, fails: Flags)
    requires forall k :: 0 <= k < |bitmap| ==> bitmap[k] == 0
    ensures RecordsFirst(bitmap, fails, 0)
  {
    forall j | 0 <= j < 8 * |bitmap| ensures !BitAt(bitmap, j) { ZeroHasNoBits(j % 8); }
  }

  lemma MarkRecords(bitmap: Bytes, fails: Flags, i: nat)
    requires i < |fails| && fails[i] && i < 8 * |bitmap| && RecordsFirst(bitmap, fails, i)
    ensures RecordsFirst(bitmap[i / 8 := SetByteBit(bitmap[i / 8], i % 8)], fails, i + 1)
  {
    var after := bitmap[i / 8 := SetByteBit(bitmap[i / 8], i % 8)];
    forall j | 0 <= j < 8 * |after| ensures BitAt(after, j) <==> j < i + 1 && fails[j] { SetBitAt(bitmap, i, j); }
  }

  lemma SkipRecords(bitmap: Bytes, fails: Flags, i: nat)
    requires i < |fails| && !fails[i] && RecordsFirst(bitmap, fails, i)
    ensures RecordsFirst(bitmap, fails, i + 1)
  {
  }

  method BlankBitmap(size: nat, ghost fails: Flags) returns (bits: array<byte>)
    ensures fresh(bits) && bits.Length == size && RecordsFirst(bits[..], fails, 0)
  {
    bits := new byte[size](_ => 0);
    BlankRecordsNothing(bits[..], fails);
  }

  /** failureBitmap[i/8] |= 1 << (i%8) */
  method MarkFailure(bits: array<byte>, i: nat)
    requires i < 8 * bits.Length
    modifies bits
    ensures bits[..] == old(bits[..])[i / 8 := SetByteBit(old(bits[..])[i / 8], i % 8)]
  {
    bits[i / 8] := SetByteBit(bits[i / 8], i % 8);
  }

  method DeleteChunks(chunks: set<Bytes>, flat: Bytes, fails: Flags)
    returns (left: set<Bytes>, bitmap: Bytes, failCount: nat)
    requires |fails| <= MAX_CHUNKS && |flat| == ID_SIZE * |fails|
    ensures left == DeletedFrom(chunks, flat, fails, |fails|)
    ensures Records(bitmap, fails)
    ensures failCount == PopCount(bitmap, |fails|) == Failures(fails, |fails|)
  {
    var bits := BlankBitmap(BitmapSize(|fails|), fails);
    left, failCount := chunks, 0;
    for i := 0 to |fails|
      invariant left == DeletedFrom(chunks, flat, fails, i)
      invariant failCount == Failures(fails, i)
      invariant RecordsFirst(bits[..], fails, i)
    {
      if fails[i] {
        failCount := failCount + 1;
        MarkRecords(bits[..], fails, i);
        MarkFailure(bits, i);
      } else {
        left := left - {IdAt(flat, i)};
        SkipRecords(bits[..], fails, i);
      }
    }
    bitmap := bits[..];
    RecordedCount(bitmap, fails, |fails|);
  }

  // ---------------------------------------------------------------- frame 2

  datatype Reply = Done | Partial(bitmap: Bytes) | NotAuthorised | Stale | Internal

  function StatusByte(r: Reply): byte {
    match r case Done => 0 case Partial(_) => 1 case NotAuthorised => 3 case Stale => 4 case Internal => 5
  }

  /** The status trichotomy after a delete pass. */
  function ReplyTo(count: nat, failCount: nat, bitmap: Bytes): Reply {
    if count > 0 && failCount == count then Internal
    else if failCount > 0 then Partial(bitmap)
    else Done
  }

  /** OK exactly when no delete failed, INTERNAL_ERROR exactly when all of some did, and otherwise the bitmap. */
  lemma StatusTrichotomy(fails: Flags, bitmap: Bytes)
    ensures
      var n := |fails|;
      var r := ReplyTo(n, Failures(fails, n), bitmap);
      && (r == Done <==> forall i :: 0 <= i < n ==> !fails[i])
      && (r == Internal <==> n > 0 && forall i :: 0 <= i < n ==> fails[i])
      && (r == Partial(bitmap) <==> (exists i :: 0 <= i < n && fails[i]) && (exists i :: 0 <= i < n && !fails[i]))
  {
    FailuresCount(fails, |fails|);
  }

  lemma {:induction false} FailuresCount(fails: Flags, n: nat)
    requires n <= |fails|
    ensures Failures(fails, n) == 0 <==> forall i :: 0 <= i < n ==> !fails[i]
    ensures Failures(fails, n) == n <==> forall i :: 0 <= i < n ==> fails[i]
  {
    if n > 0 { FailuresCount(fails, n - 1); }
  }

  function ReplyFrame(r: Reply): Bytes {
    if r.Partial? then Put((1 + |r.bitmap|) % MAX_UINT32, 4) + [1] + r.bitmap else Put(1, 4) + [StatusByte(r)]
  }

  /** readVettingGCResponse, on what the length prefix announced. */
  function ParseBody(body: Bytes, count: nat): Option<Reply> {
    if |body| < 1 then None
    else if body[0] == 1 then (if |body| - 1 == (count + 7) / 8 then Some(Partial(body[1..])) else None)
    else if body[0] == 0 then Some(Done)
    else if body[0] == 3 then Some(NotAuthorised)
    else if body[0] == 4 then Some(Stale)
    else if body[0] == 5 then Some(Internal)
    else None
  }

  method ReadVettingGCResponse(s: Stream, count: nat) returns (r: Option<Reply>)
    modifies s
    ensures var p := old(s.pending);
      && (r.Some? ==> |p| >= 4 && |p| >= 4 + Get(p[..4]) && r == ParseBody(p[4..4 + Get(p[..4])], count)
                      && s.pending == p[4 + Get(p[..4])..])
      && (|p| >= 4 && |p| >= 4 + Get(p[..4]) ==> r == ParseBody(p[4..4 + Get(p[..4])], count))
  {
    ghost var p := s.pending;
    var lenBuf, ok := ReadFull(s, 4);
    if !ok { return None; }
    var body, ok2 := ReadFull(s, Get(lenBuf));
    if !ok2 { return None; }
    assert p[4..][..Get(lenBuf)] == p[4..4 + Get(lenBuf)];
    assert p[4..][Get(lenBuf)..] == p[4 + Get(lenBuf)..];
    r := ParseBody(body, count);
  }

  /** Whatever the provider answers, the coordinator reads back, and nothing of what follows it. */
  lemma ReplyRoundTrip(r: Reply, count: nat, after: Bytes)
    requires r.Partial? ==> |r.bitmap| == (count + 7) / 8 && |r.bitmap| < MAX_UINT32 - 1
    ensures
      var p := ReplyFrame(r) + after;
      && |p| >= 4 && |p| >= 4 + Get(p[..4])
      && ParseBody(p[4..4 + Get(p[..4])], count) == Some(r)
      && p[4 + Get(p[..4])..] == after
  {
    ReplyLayout(r);
    ParseOfBody(r, count);
    PrefixAnnounces(|ReplyBody(r)|, ReplyBody(r), after);
  }

  function ReplyBody(r: Reply): Bytes { [StatusByte(r)] + if r.Partial? then r.bitmap else [] }

  lemma ReplyLayout(r: Reply)
    requires r.Partial? ==> |r.bitmap| < MAX_UINT32 - 1
    ensures |ReplyBody(r)| < MAX_UINT32 && ReplyFrame(r) == Put(|ReplyBody(r)|, 4) + ReplyBody(r)
  {
    if r.Partial? {
      assert (1 + |r.bitmap|) % MAX_UINT32 == 1 + |r.bitmap|;
      assert Put(1 + |r.bitmap|, 4) + [1] + r.bitmap == Put(1 + |r.bitmap|, 4) + ([1] + r.bitmap);
    } else {
      assert ReplyBody(r) == [StatusByte(r)];
    }
  }

  lemma ParseOfBody(r: Reply, count: nat)
    requires r.Partial? ==> |r.bitmap| == (count + 7) / 8
    ensures ParseBody(ReplyBody(r), count) == Some(r)
  {
    if r.Partial? { assert ReplyBody(r)[1..] == r.bitmap; }
  }

  lemma PrefixAnnounces(n: nat, body: Bytes, after: Bytes)
    requires n < MAX_UINT32 && |body| == n
    ensures
      var p := Put(n, 4) + body + after;
      && |p| == 4 + n + |after| && Get(p[..4]) == n && p[4..4 + n] == body && p[4 + n..] == after
  {
    Pow256Values();
    GetPut(n, 4);
    assert (Put(n, 4) + body + after)[..4] == Put(n, 4);
  }

  // ---------------------------------------------------------------- what the coordinator concludes

  /** Positions the reply lets the coordinator mark DELETED; None where deliverBatch reports an error. */
  method SucceededChunkIDs(flat: Bytes, count: nat, bitmap: Bytes) returns (ids: seq<Bytes>)
    requires |flat| == ID_SIZE * count
    ensures ids == Survivors(flat, bitmap, count)
  {
    ids := [];
    for i := 0 to count
      invariant ids == Survivors(flat, bitmap, i)
    {
      if i / 8 < |bitmap| && Bit(bitmap[i / 8], i % 8) {
        continue;
      }
      ids := ids + [IdAt(flat, i)];
    }
  }

  function Survivors(flat: Bytes, bitmap: Bytes, n: nat): seq<Bytes>
    requires ID_SIZE * n <= |flat|
  {
    if n == 0 then []
    else Survivors(flat, bitmap, n - 1)
         + if (n - 1) / 8 < |bitmap| && Bit(bitmap[(n - 1) / 8], (n - 1) % 8) then [] else [IdAt(flat, n - 1)]
  }

  function AllIds(flat: Bytes, n: nat): seq<Bytes>
    requires ID_SIZE * n <= |flat|
  {
    if n == 0 then [] else AllIds(flat, n - 1) + [IdAt(flat, n - 1)]
  }

  /** The ids deliverBatch sets to DELETED, and whether it returns an error. */
  function Conclude(flat: Bytes, count: nat, r: Reply): (seq<Bytes>, bool)
    requires |flat| == ID_SIZE * count
  {
    match r
    case Done => (AllIds(flat, count), false)
    case Partial(bitmap) => (Survivors(flat, bitmap, count), false)
    case _ => ([], true)
  }

  /** The ids whose delete succeeded, in batch order. */
  function Deleted(flat: Bytes, fails: Flags, n: nat): seq<Bytes>
    requires n <= |fails| && ID_SIZE * n <= |flat|
  {
    if n == 0 then [] else Deleted(flat, fails, n - 1) + if fails[n-1] then [] else [IdAt(flat, n - 1)]
  }

  lemma {:induction false} SurvivorsAreDeleted(flat: Bytes, fails: Flags, bitmap: Bytes, n: nat)
    requires Records(bitmap, fails) && n <= |fails| && ID_SIZE * n <= |flat|
    ensures Survivors(flat, bitmap, n) == Deleted(flat, fails, n)
  {
    if n > 0 {
      SurvivorsAreDeleted(flat, fails, bitmap, n - 1);
      assert BitAt(bitmap, n - 1) <==> fails[n-1];
    }
  }

  lemma {:induction false} ExtremeFailures(flat: Bytes, fails: Flags, n: nat)
    requires n <= |fails| && ID_SIZE * n <= |flat|
    ensures Failures(fails, n) == 0 ==> Deleted(flat, fails, n) == AllIds(flat, n)
    ensures Failures(fails, n) == n ==> Deleted(flat, fails, n) == []
  {
    if n > 0 { ExtremeFailures(flat, fails, n - 1); }
  }

  /**
    Across the two binaries and the wire: the ids the coordinator marks DELETED are exactly those the
    provider deleted, in order, and it reports an error exactly when a non-empty batch failed whole.
   */
  lemma BatchConfirmsExactly(flat: Bytes, fails: Flags, bitmap: Bytes, after: Bytes)
    requires |fails| <= MAX_CHUNKS && |flat| == ID_SIZE * |fails| && Records(bitmap, fails)
    ensures
      var n := |fails|;
      var frame := ReplyFrame(ReplyTo(n, PopCount(bitmap, n), bitmap)) + after;
      && |frame| >= 4 && |frame| >= 4 + Get(frame[..4])
      && var r := ParseBody(frame[4..4 + Get(frame[..4])], n);
      && r.Some?
      && Conclude(flat, n, r.value).0 == Deleted(flat, fails, n)
      && (Conclude(flat, n, r.value).1 <==> n > 0 && Deleted(flat, fails, n) == [])
  {
    var n := |fails|;
    RecordedCount(bitmap, fails, n);
    ReplyRoundTrip(ReplyTo(n, PopCount(bitmap, n), bitmap), n, after);
    SurvivorsAreDeleted(flat, fails, bitmap, n);
    ExtremeFailures(flat, fails, n);
    DeletedLength(flat, fails, n);
  }

  lemma {:induction false} DeletedLength(flat: Bytes, fails: Flags, n: nat)
    requires n <= |fails| && ID_SIZE * n <= |flat|
    ensures |Deleted(flat, fails, n)| == n - Failures(fails, n)
  {
    if n > 0 { DeletedLength(flat, fails, n - 1); }
  }

  /** A confirmed id is gone from the store, and only listed ids ever are. */
  lemma {:induction false} DeletedIsGone(chunks: set<Bytes>, flat: Bytes, fails: Flags, n: nat, id: Bytes)
    requires n <= |fails| && ID_SIZE * n <= |flat|
    ensures id in DeletedFrom(chunks, flat, fails, n) <==> id in chunks && id !in Deleted(flat, fails, n)
  {
    if n > 0 { DeletedIsGone(chunks, flat, fails, n - 1, id); }
  }

  // ---------------------------------------------------------------- frame 1

  function RequestFrame(flat: Bytes, count: nat, ts: int64, sig: Bytes): Bytes {
    Put((4 + |flat| + 8 + |sig|) % MAX_UINT32, 4) + Put(count % MAX_UINT32, 4) + flat + PutInt64(ts) + sig
  }

  /** The length check, in uint32 arithmetic as written. */
  function ExpectedLength(count: nat): nat {
    (4 + (count * ID_SIZE) % MAX_UINT32 + 8 + SIG_SIZE) % MAX_UINT32
  }

  lemma LengthNeverWraps(count: nat)
    requires count <= MAX_CHUNKS
    ensures ExpectedLength(count) == 4 + count * ID_SIZE + 8 + SIG_SIZE
    ensures BitmapSize(count) == (count + 7) / 8
  {
  }

  datatype Request = Request(flat: Bytes, ts: int64, sig: Bytes)

  function CountOf(q: Request): nat { |q.flat| / ID_SIZE }

  predicate ValidRequest(q: Request) {
    |q.flat| % ID_SIZE == 0 && CountOf(q) <= MAX_CHUNKS && |q.sig| == SIG_SIZE
  }

  /** What the provider makes of the bytes in front of it. */
  datatype Parsed = Ended | Malformed | Frame(request: Request, rest: Bytes)

  const HEADER := 8

  function TailSize(count: nat): nat { ID_SIZE * count + 8 + SIG_SIZE }

  function Parse(p: Bytes): Parsed {
    if |p| < HEADER then Ended
    else
      var declared, count := Get(p[..4]), Get(p[4..8]);
      if count > MAX_CHUNKS || declared != ExpectedLength(count) then Malformed
      else if |p| < HEADER + TailSize(count) then Ended
      else
        var n := ID_SIZE * count;
        Frame(Request(p[8..8 + n], GetInt64(p[8 + n..16 + n]), p[16 + n..80 + n]), p[80 + n..])
  }

  /** A stream whose end arrives together with the last byte of a frame loses that frame. */
  function Heard(p: Bytes, eager: bool): Parsed {
    var r := Parse(p);
    if r.Frame? && eager && r.rest == [] then Ended else r
  }

  /** The limits in numbers: at most 10000 chunk ids of 32 bytes, and a length that says exactly so. */
  lemma ParseRefusals(p: Bytes)
    ensures
      var declared, count := if |p| >= 8 then Get(p[..4]) else 0, if |p| >= 8 then Get(p[4..8]) else 0;
      && (Parse(p).Malformed? <==> |p| >= 8 && (count > 10000 || declared != 76 + 32 * count))
      && (Parse(p).Frame? <==> |p| >= 8 && count <= 10000 && declared == 76 + 32 * count && |p| >= 80 + 32 * count)
  {
    if |p| >= 8 && Get(p[4..8]) <= 10000 { LengthNeverWraps(Get(p[4..8])); }
  }

  lemma ParseIsValid(p: Bytes)
    ensures Parse(p).Frame? ==> ValidRequest(Parse(p).request) && |Parse(p).rest| < |p|
  {
  }

  lemma FrameLayout(q: Request)
    requires ValidRequest(q)
    ensures RequestFrame(q.flat, CountOf(q), q.ts, q.sig)
         == Put(ExpectedLength(CountOf(q)), 4) + Put(CountOf(q), 4) + q.flat + PutInt64(q.ts) + q.sig
  {
    LengthNeverWraps(CountOf(q));
    assert (4 + |q.flat| + 8 + |q.sig|) % MAX_UINT32 == ExpectedLength(CountOf(q));
    assert CountOf(q) % MAX_UINT32 == CountOf(q);
  }

  lemma ParseFields(p: Bytes, q: Request, after: Bytes)
    requires ValidRequest(q)
    requires
      var n := |q.flat|;
      && |p| >= 80 + n && p[..4] == Put(ExpectedLength(CountOf(q)), 4) && p[4..8] == Put(CountOf(q), 4)
      && p[8..8 + n] == q.flat && p[8 + n..16 + n] == PutInt64(q.ts) && p[16 + n..80 + n] == q.sig && p[80 + n..] == after
    ensures Parse(p) == Frame(q, after)
  {
    Pow256Values();
    LengthNeverWraps(CountOf(q));
    GetPut(ExpectedLength(CountOf(q)), 4);
    GetPut(CountOf(q), 4);
    Int64RoundTrip(q.ts);
  }

  lemma FieldsOf(a: Bytes, b: Bytes, c: Bytes, d: Bytes, e: Bytes, after: Bytes)
    requires |a| == 4 && |b| == 4 && |d| == 8 && |e| == SIG_SIZE
    ensures
      var p, n := a + b + c + d + e + after, |c|;
      && |p| >= 80 + n && p[..4] == a && p[4..8] == b && p[8..8 + n] == c && p[8 + n..16 + n] == d
      && p[16 + n..80 + n] == e && p[80 + n..] == after
  {
  }

  /** The provider parses back every frame the coordinator can write, and takes no byte beyond it. */
  lemma RequestRoundTrip(q: Request, frame: Bytes, after: Bytes)
    requires ValidRequest(q) && frame == RequestFrame(q.flat, CountOf(q), q.ts, q.sig)
    ensures Parse(frame + after) == Frame(q, after)
  {
    FrameLayout(q);
    FieldsOf(Put(ExpectedLength(CountOf(q)), 4), Put(CountOf(q), 4), q.flat, PutInt64(q.ts), q.sig, after);
    ParseFields(frame + after, q, after);
  }

  // ---------------------------------------------------------------- freshness in 64-bit arithmetic

  const TWO63 := 0x8000_0000_0000_0000
  const TWO64 := 0x1_0000_0000_0000_0000

  function Wrap64(x: int): int64 { (x + TWO63) % TWO64 - TWO63 }

  /** abs: negating the least int64 gives it back. */
  function Abs64(v: int64): int64 {
    var x: int := v;
    if x < 0 then Wrap64(-x) else v
  }

  predicate Fresh(now: int64, ts: int64, window: int64) { Abs64(Wrap64(now - ts)) <= window }

  /**
    The check accepts what lies within the window, on the 64-bit circle, and one timestamp more: the
    one exactly half the circle away.
   */
  lemma FreshIff(now: int64, ts: int64, window: int64)
    requires window >= 0
    ensures
      var d := now - ts;
      Fresh(now, ts, window) <==>
        -window <= d <= window || d >= TWO64 - window || d <= window - TWO64 || d == TWO63 || d == -TWO63
  {
  }

  /** With a clock between 1970 and the year 146 million: within the window, or exactly 2^63 ms old. */
  lemma FreshForRealClocks(now: int64, ts: int64, window: int64)
    requires 0 <= window < TWO63 / 2 && 0 <= now < TWO63 / 2
    ensures Fresh(now, ts, window) <==> -window <= now - ts <= window || now - ts == TWO63
  {
    FreshIff(now, ts, window);
  }

  // ---------------------------------------------------------------- one frame

  /** What the handler was built with, and who is calling. */
  datatype Config = Config(authorised: bool, haveKey: bool, window: int64, peer: Bytes, verify: (Bytes, Bytes) -> bool)

  /** What the outside decides about frame k, and how the stream reports its end. */
  datatype World = World(clock: nat -> int64, fails: (nat, nat) -> bool, eager: bool)

  function SigningInput(q: Request, peer: Bytes): Bytes { q.flat + PutInt64(q.ts) + peer }

  predicate Checked(c: Config, w: World, k: nat, q: Request) {
    c.authorised && c.haveKey && Fresh(w.clock(k), q.ts, c.window) && c.verify(SigningInput(q, c.peer), q.sig)
  }

  function FlagsOf(w: World, k: nat, n: nat): (f: Flags)
    ensures |f| == n && forall i :: 0 <= i < n ==> f[i] == w.fails(k, i)
  {
    if n == 0 then [] else FlagsOf(w, k, n - 1) + [w.fails(k, n - 1)]
  }

  datatype Step = Step(chunks: set<Bytes>, reply: Option<Reply>, more: bool, rest: Bytes)

  /** handleOneFrame as a function of the bytes waiting: check, then delete, then answer. */
  ghost predicate FrameStep(c: Config, w: World, k: nat, chunks: set<Bytes>, p: Bytes, s: Step) {
    if !c.authorised then s == Step(chunks, Some(NotAuthorised), false, s.rest)
    else
      match Heard(p, w.eager)
      case Ended => s.chunks == chunks && s.reply.None? && !s.more
      case Malformed => s.chunks == chunks && s.reply.None? && !s.more
      case Frame(q, rest) =>
        if !Fresh(w.clock(k), q.ts, c.window) then s == Step(chunks, Some(Stale), false, rest)
        else if !Checked(c, w, k, q) then s == Step(chunks, Some(NotAuthorised), false, rest)
        else
          var fails := FlagsOf(w, k, CountOf(q));
          && s.chunks == DeletedFrom(chunks, q.flat, fails, CountOf(q))
          && s.more && s.rest == rest && s.reply.Some?
          && exists bitmap :: Records(bitmap, fails)
               && s.reply.value == ReplyTo(CountOf(q), Failures(fails, CountOf(q)), bitmap)
  }

  class Handler {
    var chunks: set<Bytes>
    const config: Config

    constructor (config: Config, chunks: set<Bytes>)
      ensures this.config == config && this.chunks == chunks
    {
      this.config, this.chunks := config, chunks;
    }

    /** Reads one request, or gives up. */
    method ReadRequest(s: Stream) returns (r: Option<Request>)
      modifies s
      ensures
        var h := Heard(old(s.pending), s.eager);
        && r == (if h.Frame? then Some(h.request) else None)
        && (r.Some? ==> s.pending == h.rest)
    {
      ghost var p := s.pending;
      var lenBuf, ok := ReadFull(s, 4);
      if !ok { return None; }
      var declared := Get(lenBuf);
      var countBuf, ok2 := ReadStreamFull(s, 4);
      if !ok2 { return None; }
      assert p[4..][..4] == p[4..8] && p[4..][4..] == p[8..];
      var count := Get(countBuf);
      if count > MAX_CHUNKS { return None; }
      if declared != ExpectedLength(count) { return None; }
      ghost var n := ID_SIZE * count;
      var flat, ok3 := ReadStreamFull(s, ID_SIZE * count);
      if !ok3 { return None; }
      assert p[8..][..n] == p[8..8 + n] && p[8..][n..] == p[8 + n..];
      var tsBuf, ok4 := ReadStreamFull(s, 8);
      if !ok4 { return None; }
      assert p[8 + n..][..8] == p[8 + n..16 + n] && p[8 + n..][8..] == p[16 + n..];
      var sig, ok5 := ReadStreamFull(s, SIG_SIZE);
      if !ok5 { return None; }
      assert p[16 + n..][..64] == p[16 + n..80 + n] && p[16 + n..][64..] == p[80 + n..];
      return Some(Request(flat, GetInt64(tsBuf), sig));
    }

    method HandleOneFrame(s: Stream, w: World, k: nat) returns (more: bool, reply: Option<Reply>)
      requires w.eager == s.eager
      modifies s, this`chunks
      ensures FrameStep(config, w, k, old(chunks), old(s.pending), Step(chunks, reply, more, s.pending))
    {
      if !config.authorised { return false, Some(NotAuthorised); }
      var r := ReadRequest(s);
      ParseIsValid(old(s.pending));
      if r.None? { return false, None; }
      var q := r.value;
      if Abs64(Wrap64(w.clock(k) - q.ts)) > config.window { return false, Some(Stale); }
      if !config.haveKey { return false, Some(NotAuthorised); }
      if !config.verify(SigningInput(q, config.peer), q.sig) { return false, Some(NotAuthorised); }
      var fails := FlagsOf(w, k, CountOf(q));
      var left, bitmap, failCount := DeleteChunks(chunks, q.flat, fails);
      chunks := left;
      more, reply := true, Some(ReplyTo(CountOf(q), failCount, bitmap));
    }

    method HandleStream(s: Stream, w: World) returns (replies: seq<Reply>, ghost steps: seq<Step>, ghost inputs: seq<Bytes>)
      requires w.eager == s.eager
      modifies s, this`chunks
      ensures Session(config, w, old(chunks), inputs, steps) && inputs[0] == old(s.pending)
      ensures chunks == steps[|steps|-1].chunks
    {
      var more, reply := HandleOneFrame(s, w, 0);
      replies := if reply.Some? then [reply.value] else [];
      steps, inputs := [Step(chunks, reply, more, s.pending)], [old(s.pending)];
      var frames := 1;
      while more
        invariant frames == |steps| && Session(config, w, old(chunks), inputs, steps) && inputs[0] == old(s.pending)
        invariant steps[|steps|-1].chunks == chunks && steps[|steps|-1].more == more && steps[|steps|-1].rest == s.pending
        decreases more, |s.pending|
      {
        ghost var before, p := chunks, s.pending;
        more, reply := HandleOneFrame(s, w, frames);
        frames := frames + 1;
        ParseIsValid(p);
        if reply.Some? { replies := replies + [reply.value]; }
        ghost var step := Step(chunks, reply, more, s.pending);
        SessionExtend(config, w, old(chunks), inputs, steps, p, step);
        steps, inputs := steps + [step], inputs + [p];
      }
    }
  }

  /** The signature covers what is deleted, when, and by whom: two frames with one signing input agree on all three. */
  lemma SignatureCoversFrame(q: Request, peer: Bytes, q': Request, peer': Bytes)
    requires ValidRequest(q) && ValidRequest(q') && |peer| == |peer'|
    requires SigningInput(q, peer) == SigningInput(q', peer')
    ensures q.flat == q'.flat && q.ts == q'.ts && peer == peer'
  {
    var a, b, n := SigningInput(q, peer), SigningInput(q', peer'), |q.flat|;
    assert |a| == n + 8 + |peer| && |b| == |q'.flat| + 8 + |peer'|;
    assert a[..n] == q.flat && b[..n] == q'.flat;
    assert a[n..n + 8] == PutInt64(q.ts) && b[n..n + 8] == PutInt64(q'.ts);
    assert a[n + 8..] == peer && b[n + 8..] == peer';
    Int64RoundTrip(q.ts);
    Int64RoundTrip(q'.ts);
  }

  /** What signGCAuthSig signs on the coordinator's side. */
  function AuthInput(flat: Bytes, ts: int64, peer: Bytes): Bytes { flat + PutInt64(ts) + peer }

  /** deliverBatch: one batch as the coordinator frames and signs it. */
  function SignedRequest(sign: Bytes -> Bytes, flat: Bytes, ts: int64, peer: Bytes): Request {
    Request(flat, ts, sign(AuthInput(flat, ts, peer)))
  }

  /**
    Across the two binaries: the frame the coordinator builds and signs over its own peer id is handled
    in full by an authorised provider with its key and peer id, exactly when it arrives fresh and is not
    cut off by the end of the stream.
   */
  lemma SignedFrameIsHandledIff(
    sign: Bytes -> Bytes, c: Config, w: World, k: nat, chunks: set<Bytes>, flat: Bytes, ts: int64, after: Bytes, s: Step)
    requires forall m :: |sign(m)| == SIG_SIZE && c.verify(m, sign(m))
    requires c.authorised && c.haveKey && |flat| % ID_SIZE == 0 && |flat| / ID_SIZE <= MAX_CHUNKS
    requires
      var q := SignedRequest(sign, flat, ts, c.peer);
      FrameStep(c, w, k, chunks, RequestFrame(flat, CountOf(q), ts, q.sig) + after, s)
    ensures s.more <==> Fresh(w.clock(k), ts, c.window) && !(w.eager && after == [])
    ensures s.more ==> s.rest == after
    ensures s.more ==> s.chunks == DeletedFrom(chunks, flat, FlagsOf(w, k, |flat| / ID_SIZE), |flat| / ID_SIZE)
    ensures !s.more ==> s.chunks == chunks
  {
    var q := SignedRequest(sign, flat, ts, c.peer);
    var frame := RequestFrame(flat, CountOf(q), ts, q.sig);
    RequestRoundTrip(q, frame, after);
    assert SigningInput(q, c.peer) == AuthInput(flat, ts, c.peer);
    FrameHandledIff(c, w, k, chunks, frame + after, s);
  }

  // ---------------------------------------------------------------- a whole stream

  function Before(chunks: set<Bytes>, steps: seq<Step>, k: nat): set<Bytes>
    requires k <= |steps|
  {
    if k == 0 then chunks else steps[k-1].chunks
  }

  /** Each frame starts from where the one before left the store and the stream, and only if it said to go on. */
  ghost predicate Session(c: Config, w: World, chunks: set<Bytes>, inputs: seq<Bytes>, steps: seq<Step>) {
    && |inputs| == |steps| > 0
    && var n := |steps| - 1;
    && FrameStep(c, w, n, Before(chunks, steps, n), inputs[n], steps[n])
    && (n > 0 ==> steps[n-1].more && inputs[n] == steps[n-1].rest && Session(c, w, chunks, inputs[..n], steps[..n]))
  }

  lemma SessionExtend(c: Config, w: World, chunks: set<Bytes>, inputs: seq<Bytes>, steps: seq<Step>, p: Bytes, s: Step)
    requires Session(c, w, chunks, inputs, steps) && steps[|steps|-1].more && p == steps[|steps|-1].rest
    requires FrameStep(c, w, |steps|, steps[|steps|-1].chunks, p, s)
    ensures Session(c, w, chunks, inputs + [p], steps + [s])
  {
    assert (inputs + [p])[..|steps|] == inputs && (steps + [s])[..|steps|] == steps;
  }

  /** One frame is handled in full exactly when it is whole, well-formed, checked, and not cut off by the end. */
  lemma FrameHandledIff(c: Config, w: World, k: nat, chunks: set<Bytes>, p: Bytes, s: Step)
    requires FrameStep(c, w, k, chunks, p, s)
    ensures s.more <==> Parse(p).Frame? && Checked(c, w, k, Parse(p).request) && !(w.eager && Parse(p).rest == [])
  {
  }

  /** Frame k, read from p, passed authorisation, freshness at its own clock and its signature, and lists id. */
  ghost predicate Justified(c: Config, w: World, k: nat, p: Bytes, id: Bytes) {
    && Parse(p).Frame? && Checked(c, w, k, Parse(p).request)
    && ID_SIZE * CountOf(Parse(p).request) <= |Parse(p).request.flat|
    && id in AllIds(Parse(p).request.flat, CountOf(Parse(p).request))
  }

  /** One frame deletes nothing unless it passed every check, and then nothing it does not list. */
  lemma FrameDeletesOnlyWhenChecked(c: Config, w: World, k: nat, chunks: set<Bytes>, p: Bytes, s: Step, id: Bytes)
    requires FrameStep(c, w, k, chunks, p, s)
    ensures id in s.chunks ==> id in chunks
    ensures id in chunks && id !in s.chunks ==> Justified(c, w, k, p, id)
  {
    ParseIsValid(p);
    if Parse(p).Frame? && Checked(c, w, k, Parse(p).request) {
      var q := Parse(p).request;
      var fails := FlagsOf(w, k, CountOf(q));
      DeletedIsGone(chunks, q.flat, fails, CountOf(q), id);
      DeletedIsListed(q.flat, fails, CountOf(q), id);
    }
  }

  lemma {:induction false} DeletedIsListed(flat: Bytes, fails: Flags, n: nat, id: Bytes)
    requires n <= |fails| && ID_SIZE * n <= |flat|
    ensures id in Deleted(flat, fails, n) ==> id in AllIds(flat, n)
  {
    if n > 0 { DeletedIsListed(flat, fails, n - 1, id); }
  }

  /**
    Over a whole stream, whatever has left the store was listed in one of its frames, and that frame
    had passed authorisation, freshness at its own clock and its signature.
   */
  lemma {:induction false} EveryDeleteIsChecked(
    c: Config, w: World, chunks: set<Bytes>, inputs: seq<Bytes>, steps: seq<Step>, id: Bytes) returns (k: nat)
    requires Session(c, w, chunks, inputs, steps)
    requires id in chunks && id !in steps[|steps|-1].chunks
    ensures k < |steps| && Justified(c, w, k, inputs[k], id)
  {
    var n := |steps| - 1;
    k := n;
    if id in Before(chunks, steps, n) {
      FrameDeletesOnlyWhenChecked(c, w, n, Before(chunks, steps, n), inputs[n], steps[n], id);
    } else {
      k := EveryDeleteIsChecked(c, w, chunks, inputs[..n], steps[..n], id);
    }
  }

  /** A stream from anyone but the registered coordinator changes nothing and ends at once. */
  lemma StrangersDeleteNothing(c: Config, w: World, chunks: set<Bytes>, inputs: seq<Bytes>, steps: seq<Step>)
    requires Session(c, w, chunks, inputs, steps) && !c.authorised
    ensures |steps| == 1 && steps[0].chunks == chunks && steps[0].reply == Some(NotAuthorised)
  {
  }
}
