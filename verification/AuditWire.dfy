/** Fixed-width big-endian integers, as encoding/binary writes and reads them. */
module BigEndian {
  import opened Prelude

  function Pow256(k: nat): (p: nat)
    ensures p > 0
  {
    if k == 0 then 1 else 256 * Pow256(k - 1)
  }

  function Put(n: nat, k: nat): (s: Bytes)
    ensures |s| == k
  {
    if k == 0 then [] else Put(n / 256, k - 1) + [n % 256]
  }

  function Get(s: Bytes): nat {
    if s == [] then 0 else Get(s[..|s| - 1]) * 256 + s[|s| - 1]
  }

  lemma {:induction false} GetPut(n: nat, k: nat)
    requires n < Pow256(k)
    ensures Get(Put(n, k)) == n
  {
    if k > 0 {
      GetPut(n / 256, k - 1);
      assert Put(n, k)[..k - 1] == Put(n / 256, k - 1);
    }
  }

  lemma {:induction false} PutGet(s: Bytes)
    ensures Get(s) < Pow256(|s|) && Put(Get(s), |s|) == s
  {
    if s != [] {
      PutGet(s[..|s| - 1]);
    }
  }

  lemma Pow256Values()
    ensures Pow256(4) == 0x1_0000_0000 && Pow256(8) == 0x1_0000_0000_0000_0000
  {
    assert Pow256(1) == 256 && Pow256(2) == 0x1_0000 && Pow256(3) == 0x100_0000;
    assert Pow256(5) == 0x100_0000_0000 && Pow256(6) == 0x1_0000_0000_0000 && Pow256(7) == 0x100_0000_0000_0000;
  }

  type int64 = x: int | -0x8000_0000_0000_0000 <= x < 0x8000_0000_0000_0000

  /** The uint64(x) and int64(x) conversions of a 64-bit two's complement value. */
  function ToUnsigned(x: int64): (u: nat)
    ensures u < 0x1_0000_0000_0000_0000
  {
    if x < 0 then x + 0x1_0000_0000_0000_0000 else x
  }

  function ToSigned(u: nat): int64
    requires u < 0x1_0000_0000_0000_0000
  {
    if u < 0x8000_0000_0000_0000 then u else u - 0x1_0000_0000_0000_0000
  }

  function PutInt64(x: int64): Bytes { Put(ToUnsigned(x), 8) }

  function GetInt64(s: Bytes): int64
    requires |s| == 8
  {
    PutGet(s); Pow256Values();
    ToSigned(Get(s))
  }

  lemma Int64RoundTrip(x: int64)
    ensures GetInt64(PutInt64(x)) == x
  {
    Pow256Values();
    GetPut(ToUnsigned(x), 8);
  }
}

/** A byte stream whose reads may be split anywhere, and the two ways the program fills a buffer from it. */
module Streams {
  import opened Prelude

  /**
    `pending` is what the peer has sent and this side has not read. The i-th Read returns at most
    split(i) + 1 bytes. With `eager` set, the read that drains the stream reports its end as well.
   */
  class Stream {
    var pending: Bytes
    var taken: nat
    const split: nat -> nat
    const eager: bool

    constructor (data: Bytes, split: nat -> nat, eager: bool)
      ensures pending == data && this.split == split && this.eager == eager
    {
      pending, taken := data, 0;
      this.split, this.eager := split, eager;
    }

    method Read(max: nat) returns (got: Bytes, err: bool)
      requires max > 0
      modifies this
      ensures got + pending == old(pending) && |got| <= max
      ensures old(pending) != [] ==> got != []
      ensures err <==> old(pending) == [] || (eager && pending == [])
    {
      var n := Min(max, Min(|pending|, split(taken) + 1));
      got := pending[..n];
      err := pending == [] || (eager && n == |pending|);
      pending, taken := pending[n..], taken + 1;
    }
  }

  /** readStreamFull of the provider: any error ends it, even one that arrives with the last byte. */
  method ReadStreamFull(s: Stream, n: nat) returns (buf: Bytes, ok: bool)
    modifies s
    ensures ok <==> n == 0 || (|old(s.pending)| >= n && !(s.eager && |old(s.pending)| == n))
    ensures ok ==> buf == old(s.pending)[..n] && s.pending == old(s.pending)[n..]
  {
    buf := [];
    while |buf| < n
      invariant |buf| <= n && buf + s.pending == old(s.pending)
      invariant s.eager && buf != [] ==> s.pending != []
      decreases n - |buf|
    {
      var got, err := s.Read(n - |buf|);
      buf := buf + got;
      if err {
        return buf, false;
      }
    }
    return buf, true;
  }

  /** io.ReadFull, used by the coordinator: an error with the last byte is not an error. */
  method ReadFull(s: Stream, n: nat) returns (buf: Bytes, ok: bool)
    modifies s
    ensures ok <==> |old(s.pending)| >= n
    ensures ok ==> buf == old(s.pending)[..n] && s.pending == old(s.pending)[n..]
  {
    buf := [];
    var err := false;
    while |buf| < n && !err
      invariant |buf| <= n && buf + s.pending == old(s.pending)
      invariant err ==> s.pending == []
      decreases !err, n - |buf|
    {
      var got, e := s.Read(n - |buf|);
      buf, err := buf + got, e;
    }
    ok := |buf| == n;
  }
}

/** The audit challenge frames: both binaries' encoders, decoders and signing inputs. */
module AuditWire {
  import opened Prelude
  import opened BigEndian
  import opened Streams
  import opened AuditReceipts
  import opened AuditDispatch
  import VLogFile
  import ValueLog

  const REQUEST_SIZE: nat := 73
  const OK_SIZE: nat := 97
  const FAIL_SIZE: nat := 65

  /** A zero-valued Go array. */
  function Zeros(n: nat): (z: Bytes)
    ensures |z| == n && forall i :: 0 <= i < n ==> z[i] == 0
  {
    seq(n, _ => 0)
  }

  datatype Request = Request(chunkId: Bytes, nonce: Bytes, ts: int64)

  predicate ValidRequest(q: Request) { |q.chunkId| == 32 && |q.nonce| == 33 }

  // ---------------------------------------------------------------- frame 1

  function RequestFrame(q: Request): Bytes { Put(REQUEST_SIZE, 4) + q.chunkId + q.nonce + PutInt64(q.ts) }

  method CopyInto(frame: array<byte>, offset: nat, src: Bytes)
    requires offset + |src| <= frame.Length
    modifies frame
    ensures frame[..] == old(frame[..offset]) + src + old(frame[offset + |src|..])
    ensures frame[..offset + |src|] == old(frame[..offset]) + src
  {
    for i := 0 to |src|
      invariant frame[..] == old(frame[..offset]) + src[..i] + old(frame[offset + i..])
    {
      frame[offset + i] := src[i];
    }
  }

  /** writeChallengeRequest: fills a fixed buffer field by field. */
  method WriteChallengeRequest(q: Request) returns (sent: Bytes)
    requires ValidRequest(q)
    ensures sent == RequestFrame(q)
  {
    var frame := new byte[4 + REQUEST_SIZE](_ => 0);
    CopyInto(frame, 0, Put(REQUEST_SIZE, 4));
    var offset: nat := 4;
    CopyInto(frame, offset, q.chunkId);
    offset := offset + 32;
    CopyInto(frame, offset, q.nonce);
    offset := offset + 33;
    CopyInto(frame, offset, PutInt64(q.ts));
    assert frame[..offset + 8] == frame[..];
    sent := frame[..];
  }

  /** A length prefix and the bytes it announces. */
  lemma Prefixed(n: nat, body: Bytes)
    requires n < 0x1_0000_0000
    ensures Get((Put(n, 4) + body)[..4]) == n && (Put(n, 4) + body)[4..] == body
  {
    Pow256Values();
    GetPut(n, 4);
    assert (Put(n, 4) + body)[..4] == Put(n, 4);
  }

  function PayloadRequest(p: Bytes): (q: Request)
    requires |p| == REQUEST_SIZE
    ensures ValidRequest(q)
  {
    Request(p[..32], p[32..65], GetInt64(p[65..]))
  }

  lemma PayloadUndoesFrame(q: Request, rest: Bytes)
    requires ValidRequest(q)
    ensures var f := RequestFrame(q) + rest;
      |RequestFrame(q)| == 77 && Get(f[..4]) == REQUEST_SIZE && f[4..][..REQUEST_SIZE] == q.chunkId + q.nonce + PutInt64(q.ts)
    ensures PayloadRequest(q.chunkId + q.nonce + PutInt64(q.ts)) == q
  {
    var p := q.chunkId + q.nonce + PutInt64(q.ts);
    assert RequestFrame(q) + rest == Put(REQUEST_SIZE, 4) + (p + rest);
    Prefixed(REQUEST_SIZE, p + rest);
    assert p[..32] == q.chunkId && p[32..65] == q.nonce && p[65..] == PutInt64(q.ts);
    Int64RoundTrip(q.ts);
  }

  lemma FrameUndoesPayload(prefix: Bytes, p: Bytes)
    requires |prefix| == 4 && Get(prefix) == REQUEST_SIZE == |p|
    ensures RequestFrame(PayloadRequest(p)) == prefix + p
  {
    PutGet(prefix);
    Signed64RoundTrip(p[65..]);
    ThreeFields(prefix, p);
  }

  lemma ThreeFields(prefix: Bytes, p: Bytes)
    requires |p| == REQUEST_SIZE
    ensures prefix + p[..32] + p[32..65] + p[65..] == prefix + p
  {
  }

  lemma SentFrame(sent: Bytes, q: Request, rest: Bytes)
    requires ValidRequest(q) && sent == RequestFrame(q) + rest
    ensures |sent| == 77 + |rest| && Get(sent[..4]) == REQUEST_SIZE
    ensures PayloadRequest(sent[4..][..REQUEST_SIZE]) == q && sent[4..][REQUEST_SIZE..] == rest
  {
    PayloadUndoesFrame(q, rest);
    assert sent[4..][REQUEST_SIZE..] == sent[77..] == rest;
  }

  lemma ThreePieces(sent: Bytes, prefix: Bytes, payload: Bytes, rest: Bytes)
    requires |sent| >= 77 && prefix == sent[..4] && payload == sent[4..][..REQUEST_SIZE] && rest == sent[4..][REQUEST_SIZE..]
    ensures sent == prefix + payload + rest
  {
  }

  datatype Received = Dropped | BadLength | Accepted(request: Request)

  /**
    The provider's reading of Frame 1: whatever the read splitting, the coordinator's frame is
    parsed back and exactly consumed, and only such frames are accepted.
   */
  method ReceiveRequest(s: Stream) returns (r: Received)
    modifies s
    ensures r.Accepted? ==> ValidRequest(r.request) && RequestFrame(r.request) + s.pending == old(s.pending)
    ensures forall q, rest :: ValidRequest(q) && old(s.pending) == RequestFrame(q) + rest && (s.eager ==> rest != [])
              ==> r == Accepted(q) && s.pending == rest
  {
    ghost var sent := s.pending;
    forall q, rest | ValidRequest(q) && sent == RequestFrame(q) + rest
      ensures |sent| == 77 + |rest| && Get(sent[..4]) == REQUEST_SIZE
      ensures PayloadRequest(sent[4..][..REQUEST_SIZE]) == q && sent[4..][REQUEST_SIZE..] == rest
    {
      SentFrame(sent, q, rest);
    }
    var prefix, ok := ReadStreamFull(s, 4);
    if !ok { return Dropped; }
    if Get(prefix) != REQUEST_SIZE { return BadLength; }
    var payload, ok2 := ReadStreamFull(s, REQUEST_SIZE);
    if !ok2 { return Dropped; }
    FrameUndoesPayload(prefix, payload);
    ThreePieces(sent, prefix, payload, s.pending);
    return Accepted(PayloadRequest(payload));
  }

  lemma Signed64RoundTrip(s: Bytes)
    requires |s| == 8
    ensures PutInt64(GetInt64(s)) == s
  {
    PutGet(s);
    Pow256Values();
  }

  // ---------------------------------------------------------------- frame 2

  /** What the provider may answer; each constructor has its own frame writer. */
  datatype Answer =
    | OkAnswer(hash: Bytes, sig: Bytes)
    | FailAnswer(status: byte, sig: Bytes)
    | StatusAnswer(status: byte)

  predicate ValidAnswer(a: Answer) {
    match a
    case OkAnswer(hash, sig) => |hash| == 32 && |sig| == 64
    case FailAnswer(status, sig) => status in {STATUS_NOT_FOUND, STATUS_CORRUPTION} && |sig| == 64
    case StatusAnswer(status) => status in {STATUS_INVALID_NONCE, STATUS_INTERNAL_ERROR}
  }

  function AnswerBody(a: Answer): Bytes {
    match a
    case OkAnswer(hash, sig) => [STATUS_OK] + hash + sig
    case FailAnswer(status, sig) => [status] + sig
    case StatusAnswer(status) => [status]
  }

  function AnswerFrame(a: Answer): Bytes { Put(|AnswerBody(a)|, 4) + AnswerBody(a) }

  /** The coordinator's view of an answer: absent fields read as zero arrays. */
  function ReplyOf(a: Answer): Reply {
    match a
    case OkAnswer(hash, sig) => Reply(STATUS_OK, hash, sig)
    case FailAnswer(status, sig) => Reply(status, Zeros(32), sig)
    case StatusAnswer(status) => Reply(status, Zeros(32), Zeros(64))
  }

  function DecodeBody(body: Bytes): (r: Option<Reply>)
    ensures r.Some? ==> WellFormed(r.value)
  {
    if |body| < 1 then None
    else if body[0] == STATUS_OK then
      if |body| != OK_SIZE then None else Some(Reply(body[0], body[1..33], body[33..]))
    else if body[0] in {STATUS_NOT_FOUND, STATUS_CORRUPTION} then
      if |body| != FAIL_SIZE then None else Some(Reply(body[0], Zeros(32), body[1..]))
    else if body[0] in {STATUS_INVALID_NONCE, STATUS_INTERNAL_ERROR} then Some(Reply(body[0], Zeros(32), Zeros(64)))
    else None
  }

  lemma DecodeAnswer(a: Answer)
    requires ValidAnswer(a)
    ensures Get(AnswerFrame(a)[..4]) == |AnswerFrame(a)| - 4
    ensures DecodeBody(AnswerFrame(a)[4..]) == Some(ReplyOf(a))
  {
    var body := AnswerBody(a);
    Prefixed(|body|, body);
    match a {
      case OkAnswer(hash, sig) => assert body[1..33] == hash && body[33..] == sig;
      case FailAnswer(status, sig) => assert body[1..] == sig;
      case StatusAnswer(_) =>
    }
  }

  /** readChallengeResponse: whatever the read splitting, decodes the frame and consumes exactly it. */
  method ReadChallengeResponse(s: Stream) returns (r: Option<Reply>)
    modifies s
    ensures r.Some? ==> WellFormed(r.value)
    ensures forall a, rest :: ValidAnswer(a) && old(s.pending) == AnswerFrame(a) + rest
              ==> r == Some(ReplyOf(a)) && s.pending == rest
  {
    ghost var sent := s.pending;
    var prefix, ok := ReadFull(s, 4);
    forall a, rest | ValidAnswer(a) && sent == AnswerFrame(a) + rest
      ensures |sent| >= 4 && Get(sent[..4]) == |AnswerFrame(a)| - 4
    {
      DecodeAnswer(a);
      assert sent[..4] == AnswerFrame(a)[..4];
    }
    if !ok { return None; }
    var body, ok2 := ReadFull(s, Get(prefix));
    if !ok2 { return None; }
    r := DecodeBody(body);
    forall a, rest | ValidAnswer(a) && sent == AnswerFrame(a) + rest
      ensures r == Some(ReplyOf(a)) && s.pending == rest
    {
      DecodeAnswer(a);
      assert body == AnswerFrame(a)[4..];
    }
  }

  // ---------------------------------------------------------------- signing inputs and the honest exchange

  function SigningInput(leading: Bytes, q: Request, providerId: Bytes): Bytes {
    leading + q.nonce + PutInt64(q.ts) + providerId
  }

  /** An OK signing input never equals a FAIL one, and either fixes every field signed. */
  lemma SigningInputsSeparate(l1: Bytes, q1: Request, p1: Bytes, l2: Bytes, q2: Request, p2: Bytes)
    requires ValidRequest(q1) && ValidRequest(q2) && |p1| == |p2| == 16 && |l1| in {1, 32} && |l2| in {1, 32}
    requires SigningInput(l1, q1, p1) == SigningInput(l2, q2, p2)
    ensures l1 == l2 && q1.nonce == q2.nonce && q1.ts == q2.ts && p1 == p2
  {
    var a, b := SigningInput(l1, q1, p1), SigningInput(l2, q2, p2);
    assert |a| == |l1| + 57 && |b| == |l2| + 57;
    var n := |l1|;
    assert a[..n] == l1 && b[..n] == l2;
    assert a[n..n + 33] == q1.nonce && b[n..n + 33] == q2.nonce;
    assert a[n + 33..n + 41] == PutInt64(q1.ts) && b[n + 33..n + 41] == PutInt64(q2.ts);
    assert a[n + 41..] == p1 && b[n + 41..] == p2;
    Int64RoundTrip(q1.ts);
    Int64RoundTrip(q2.ts);
  }

  /** A signature scheme and a hash, of which only what is stated is known. */
  datatype Crypto = Crypto(sign: (int, Bytes) -> Bytes, verify: (int, Bytes, Bytes) -> bool, hash: Bytes -> Bytes)

  ghost predicate Correct(c: Crypto) {
    && (forall k, m :: |c.sign(k, m)| == 64 && c.verify(k, m, c.sign(k, m)))
    && (forall m :: |c.hash(m)| == 32)
  }

  datatype Lookup = Found(data: Bytes) | NotFound | HashMismatch | IoError

  /** AuditHandler.HandleStream after the frame is parsed. */
  function Answering(c: Crypto, key: int, providerId: Bytes, q: Request, versionAccepted: bool, found: Lookup): Answer {
    if !versionAccepted then StatusAnswer(STATUS_INVALID_NONCE) else
    match found
    case NotFound => FailAnswer(STATUS_NOT_FOUND, c.sign(key, SigningInput([STATUS_NOT_FOUND], q, providerId)))
    case HashMismatch => FailAnswer(STATUS_CORRUPTION, c.sign(key, SigningInput([STATUS_CORRUPTION], q, providerId)))
    case IoError => StatusAnswer(STATUS_INTERNAL_ERROR)
    case Found(data) => SignedOk(c, key, providerId, q, c.hash(data + q.nonce))
  }

  function SignedOk(c: Crypto, key: int, providerId: Bytes, q: Request, h: Bytes): Answer {
    OkAnswer(h, c.sign(key, SigningInput(h, q, providerId)))
  }

  /** ValidateResponse and ValidateFailResponse, over the reply the coordinator decoded. */
  predicate ReplySigned(c: Crypto, key: int, providerId: Bytes, q: Request, r: Reply) {
    c.verify(key, SigningInput(if r.status == STATUS_OK then r.hash else [r.status], q, providerId), r.sig)
  }

  /**
    Across the two binaries, over any stream: the answer of a provider that follows the protocol
    is decoded whole and adjudicated PASS exactly when it accepted the version and had the chunk,
    FAIL otherwise; its signature verifies whenever the frame carries one.
   */
  lemma HonestExchange(c: Crypto, key: int, providerId: Bytes, q: Request, accepted: bool, found: Lookup)
    requires Correct(c) && ValidRequest(q) && |providerId| == 16
    ensures var a := Answering(c, key, providerId, q, accepted, found);
      var r := ReplyOf(a);
      && ValidAnswer(a)
      && DecodeBody(AnswerFrame(a)[4..]) == Some(r)
      && (!a.StatusAnswer? ==> ReplySigned(c, key, providerId, q, r))
      && Adjudicate(r.status, true, ReplySigned(c, key, providerId, q, r)) ==
           Verdict(if accepted && found.Found? then Pass else Fail)
  {
    DecodeAnswer(Answering(c, key, providerId, q, accepted, found));
  }

  ghost predicate CollisionFree(hash: Bytes -> Bytes) { forall a, b :: hash(a) == hash(b) ==> a == b }

  /** A provider cannot answer without the chunk: but for a collision, the response hash fixes chunk and nonce. */
  lemma ResponseFixesChunk(c: Crypto, key: int, id: Bytes, q: Request, data: Bytes, q': Request, data': Bytes)
    requires CollisionFree(c.hash) && ValidRequest(q) && ValidRequest(q')
    requires ReplyOf(Answering(c, key, id, q, true, Found(data))).hash == ReplyOf(Answering(c, key, id, q', true, Found(data'))).hash
    ensures data == data' && q.nonce == q'.nonce
  {
    var a, b := data + q.nonce, data' + q'.nonce;
    assert a == b;
    assert a[..|data|] == data && a[|data|..] == q.nonce;
    assert b[..|data'|] == data' && b[|data'|..] == q'.nonce;
  }

  /** What each answer signs: the answer itself, the nonce, the time and the provider, under the provider's key. */
  lemma AnswerSigns(c: Crypto, key: int, id: Bytes, q: Request, found: Lookup)
    requires found.Found? || found.NotFound? || found.HashMismatch?
    ensures
      var r := ReplyOf(Answering(c, key, id, q, true, found));
      && r.status == (match found case Found(_) => 0 case NotFound => 1 case _ => 2)
      && (found.Found? ==> r.hash == c.hash(found.data + q.nonce))
      && r.sig == c.sign(key, (if found.Found? then r.hash else [r.status]) + q.nonce + PutInt64(q.ts) + id)
  {
  }

  /** The two answers that sign nothing: INVALID_NONCE for a retired version, whatever is stored, and INTERNAL_ERROR for a failed read. */
  lemma UnsignedAnswers(c: Crypto, key: int, id: Bytes, q: Request, accepted: bool, found: Lookup)
    ensures
      var a := Answering(c, key, id, q, accepted, found);
      && (a.StatusAnswer? <==> !accepted || found.IoError?)
      && (a.StatusAnswer? ==> ReplyOf(a).status == (if accepted then 4 else 3) && AnswerBody(a) == [ReplyOf(a).status])
  {
  }

  /** What LookupChunk gives the audit handler for the chunk asked for. */
  function FoundOnDisk(hash: VLogFile.Hash, d: ValueLog.Disk, id: VLogFile.Digest): Lookup {
    match ValueLog.Lookup(hash, d, id)
    case NotFound => NotFound
    case Mismatch => HashMismatch
    case ReadError => IoError
    case Data(data) => Found(data)
  }

  /**
    From the store to the verdict: an honest provider passes exactly when it accepts the version and the
    chunk asked for can be read from its value log, and what it then hashes with the nonce is data of
    that very chunk id.
   */
  lemma AuditPassesIffReadable(
    c: Crypto, hash: VLogFile.Hash, key: int, providerId: Bytes, q: Request, accepted: bool, d: ValueLog.Disk)
    requires Correct(c) && ValidRequest(q) && |providerId| == 16 && forall m :: c.hash(m) == hash(m)
    ensures
      var found := ValueLog.Lookup(hash, d, q.chunkId);
      var r := ReplyOf(Answering(c, key, providerId, q, accepted, FoundOnDisk(hash, d, q.chunkId)));
      && Adjudicate(r.status, true, ReplySigned(c, key, providerId, q, r)) == Verdict(if accepted && found.Data? then Pass else Fail)
      && (accepted && found.Data? ==> hash(found.data) == q.chunkId && r.hash == hash(found.data + q.nonce))
  {
    HonestExchange(c, key, providerId, q, accepted, FoundOnDisk(hash, d, q.chunkId));
  }
}
