/**
  A segment's way out and back: the all-or-nothing transform, the erasure code, and any sufficient set
  of surviving shards. The hash and the two key streams are arbitrary functions.
 */
module SegmentPipeline {
  import opened Prelude
  import opened GF256
  import opened ReedSolomon

  type Text = seq<Elem>

  const WORD := 16
  const KEY := 32

  /** SHA-256 and the key stream under either cipher, of any length. */
  datatype Ciphers = Ciphers(hash: Text -> Text, stream: (Text, bool, nat) -> Text)

  ghost predicate Sized(c: Ciphers) {
    (forall t :: |c.hash(t)| == KEY) && (forall k, aes, n :: |c.stream(k, aes, n)| == n)
  }

  function XorText(a: Text, b: Text): (r: Text)
    requires |a| <= |b|
    ensures |r| == |a| && forall i :: 0 <= i < |r| ==> r[i] == Xor(a[i], b[i])
  {
    seq(|a|, i requires 0 <= i < |a| => Xor(a[i], b[i]))
  }

  lemma XorTwice(a: Text, b: Text)
    requires |a| == |b|
    ensures XorText(XorText(a, b), b) == a && XorText(XorText(b, a), b) == a
  {
  }

  /** AONTEncodeSegment under the key drawn for this segment. */
  function AontEncode(c: Ciphers, canary: Text, key: Text, aes: bool, segment: Text): (r: Option<Text>)
    requires Sized(c) && |canary| == WORD && |key| == KEY
    ensures r.Some? <==> |segment| > 0 && |segment| % WORD == 0
    ensures r.Some? ==> |r.value| == |segment| + WORD + KEY
  {
    if |segment| == 0 || |segment| % WORD != 0 then None
    else
      var plain := segment + canary;
      var cipher := XorText(plain, c.stream(key, aes, |plain|));
      Some(cipher + XorText(key, c.hash(cipher)))
  }

  datatype Opened = Malformed | CanaryMismatch | Segment(text: Text)

  /** AONTDecodePackage */
  function AontDecode(c: Ciphers, canary: Text, aes: bool, pkg: Text): Opened
    requires Sized(c) && |canary| == WORD
  {
    if |pkg| < 2 * WORD + KEY || (|pkg| - KEY) % WORD != 0 then Malformed
    else
      var n := |pkg| - KEY;
      var cipher, block := pkg[..n], pkg[n..];
      var key := XorText(block, c.hash(cipher));
      var plain := XorText(cipher, c.stream(key, aes, n));
      if plain[n - WORD..] == canary then Segment(plain[..n - WORD]) else CanaryMismatch
  }

  /** A package of this form opens to what was encrypted. */
  lemma PackageOpens(c: Ciphers, canary: Text, aes: bool, key: Text, plain: Text, cipher: Text, pkg: Text)
    requires Sized(c) && |canary| == WORD && |key| == KEY && |plain| >= 2 * WORD && |plain| % WORD == 0
    requires cipher == XorText(plain, c.stream(key, aes, |plain|)) && pkg == cipher + XorText(key, c.hash(cipher))
    ensures AontDecode(c, canary, aes, pkg)
         == if plain[|plain| - WORD..] == canary then Segment(plain[..|plain| - WORD]) else CanaryMismatch
  {
    var n := |plain|;
    assert pkg[..n] == cipher && pkg[n..] == XorText(key, c.hash(cipher));
    XorTwice(key, c.hash(cipher));
    XorTwice(plain, c.stream(key, aes, n));
  }

  lemma AontRoundTrip(c: Ciphers, canary: Text, key: Text, aes: bool, segment: Text)
    requires Sized(c) && |canary| == WORD && |key| == KEY && |segment| > 0 && |segment| % WORD == 0
    ensures AontDecode(c, canary, aes, AontEncode(c, canary, key, aes, segment).value) == Segment(segment)
  {
    var plain := segment + canary;
    var cipher := XorText(plain, c.stream(key, aes, |plain|));
    PackageOpens(c, canary, aes, key, plain, cipher, AontEncode(c, canary, key, aes, segment).value);
    assert plain[|plain| - WORD..] == canary && plain[..|plain| - WORD] == segment;
  }

  /** Only a package too short for one word, the canary and the key, or not cut into words, is turned away unread. */
  lemma MalformedIff(c: Ciphers, canary: Text, aes: bool, pkg: Text)
    requires Sized(c) && |canary| == WORD
    ensures AontDecode(c, canary, aes, pkg).Malformed? <==> |pkg| < 64 || (|pkg| - 32) % 16 != 0
  {
  }

  datatype Retrieved = NoPackage(reason: Decoded<Elem>) | Refused(why: Opened) | Text(segment: Text)

  /** Download, decode, open. */
  method Retrieve(e: Engine<Elem>, c: Ciphers, canary: Text, aes: bool, shards: Partial<Elem>) returns (r: Retrieved)
    requires Built(e) && Sized(c) && |canary| == WORD
    ensures forall pkg, all :: EncodingOf(e, pkg, all) && Survives(shards, all) && |Available(shards)| >= e.data ==>
              r == match AontDecode(c, canary, aes, pkg) case Segment(t) => Text(t) case o => Refused(o)
  {
    var d := DecodeSegment(e, shards);
    if !d.Package? { return NoPackage(d); }
    match AontDecode(c, canary, aes, d.pkg) {
      case Segment(t) => r := Text(t);
      case o => r := Refused(o);
    }
  }

  function Erase(all: seq<Shard<Elem>>, lost: set<nat>): (shards: Partial<Elem>)
    ensures |shards| == |all|
    ensures forall i :: 0 <= i < |all| ==> shards[i] == if i in lost then None else Some(all[i])
  {
    seq(|all|, i requires 0 <= i < |all| => if i in lost then None else Some(all[i]))
  }

  /** Store a segment, lose any shards but `data` of them, and the segment comes back. */
  method StoreAndRetrieve(e: Engine<Elem>, c: Ciphers, canary: Text, key: Text, aes: bool, segment: Text, lost: set<nat>)
    returns (r: Option<Retrieved>)
    requires Built(e) && Sized(c) && |canary| == WORD && |key| == KEY
    ensures r.Some? <==> |segment| > 0 && |segment| % WORD == 0 && |segment| + WORD + KEY == e.data * e.size
    ensures r.Some? && |set i | 0 <= i < |e.pts| && i !in lost| >= e.data ==> r == Some(Text(segment))
  {
    var pkg := AontEncode(c, canary, key, aes, segment);
    if pkg.None? { return None; }
    var all := EncodeSegment(e, pkg.value);
    if all.None? { return None; }
    var shards := Erase(all.value, lost);
    AvailableCount(shards, lost, |shards|);
    assert shards[..|shards|] == shards;
    assert Survives(shards, all.value);
    AontRoundTrip(c, canary, key, aes, segment);
    var got := Retrieve(e, c, canary, aes, shards);
    r := Some(got);
  }

  lemma {:induction false} AvailableCount(shards: Partial<Elem>, lost: set<nat>, n: nat)
    requires n <= |shards| && forall i :: 0 <= i < |shards| ==> (shards[i].None? <==> i in lost)
    ensures |Available(shards[..n])| == |set i | 0 <= i < n && i !in lost|
  {
    var kept := set i | 0 <= i < n && i !in lost;
    if n == 0 {
      assert kept == {};
    } else {
      AvailableCount(shards, lost, n - 1);
      var before := set i | 0 <= i < n - 1 && i !in lost;
      assert shards[..n][..n-1] == shards[..n-1];
      assert kept == if n - 1 in lost then before else before + {n - 1};
    }
  }
}
