/** Types shared by every component model. */
module Prelude {

  /** A nullable column, a Go pointer or a Go (value, ok) pair. */
  datatype Option<+T> = None | Some(value: T)

  /** One octet. */
  type byte = x: int | 0 <= x < 256

  type Bytes = seq<byte>

  function Min(a: int, b: int): int { if a <= b then a else b }

  function Max(a: int, b: int): int { if a >= b then a else b }

  /** A non-empty set has a member to name. */
  lemma Member<T>(s: set<T>) returns (x: T)
    requires |s| > 0
    ensures x in s
  {
    x :| x in s;
  }

  /** How many elements satisfy `hit`. */
  function Tally<T>(s: seq<T>, hit: T -> bool): nat {
    if s == [] then 0 else Tally(s[..|s|-1], hit) + (if hit(s[|s|-1]) then 1 else 0)
  }

  lemma {:induction false} TallyConcat<T>(a: seq<T>, b: seq<T>, hit: T -> bool)
    ensures Tally(a + b, hit) == Tally(a, hit) + Tally(b, hit)
  {
    if b == [] {
      assert a + b == a;
    } else {
      TallyConcat(a, b[..|b|-1], hit);
      assert (a + b)[..|a + b|-1] == a + b[..|b|-1];
    }
  }

  lemma TallySnoc<T>(a: seq<T>, x: T, hit: T -> bool)
    ensures Tally(a + [x], hit) == Tally(a, hit) + (if hit(x) then 1 else 0)
  {
    assert (a + [x])[..|a|] == a;
  }

  lemma {:induction false} TallyMiddle<T>(l: seq<T>, x: T, r: seq<T>, hit: T -> bool)
    ensures Tally(l + [x] + r, hit) == Tally(l + r, hit) + (if hit(x) then 1 else 0)
  {
    TallyConcat(l, r, hit);
    TallyConcat(l + [x], r, hit);
    TallySnoc(l, x, hit);
  }

  lemma TallyWithout<T>(a: seq<T>, i: nat, hit: T -> bool)
    requires i < |a|
    ensures Tally(a, hit) == Tally(a[..i] + a[i+1..], hit) + (if hit(a[i]) then 1 else 0)
  {
    assert a[..i] + [a[i]] + a[i+1..] == a;
    TallyMiddle(a[..i], a[i], a[i+1..], hit);
  }

  lemma MultisetWithout<T>(a: seq<T>, i: nat)
    requires i < |a|
    ensures multiset(a[..i] + a[i+1..]) == multiset(a) - multiset{a[i]}
  {
    assert a == a[..i] + [a[i]] + a[i+1..];
  }

  /** Counting in a permutation: remove from `a` the occurrence of `b`'s last element. */
  lemma {:induction false} TallyOfPermutation<T>(a: seq<T>, b: seq<T>, hit: T -> bool)
    requires multiset(a) == multiset(b)
    ensures Tally(a, hit) == Tally(b, hit)
    decreases |b|
  {
    assert |multiset(a)| == |multiset(b)|;
    if b != [] {
      var n := |b| - 1;
      assert b[n] in multiset(b);
      var i :| 0 <= i < |a| && a[i] == b[n];
      MultisetWithout(a, i);
      MultisetWithout(b, n);
      assert b[..n] + b[n+1..] == b[..n];
      TallyOfPermutation(a[..i] + a[i+1..], b[..n], hit);
      TallyWithout(a, i, hit);
    }
  }

  lemma {:induction false} TallyAtLeast<T>(s: seq<T>, hit: T -> bool, k: nat)
    requires k <= |s| && forall i :: 0 <= i < k ==> hit(s[i])
    ensures Tally(s, hit) >= k
  {
    if k < |s| {
      TallyAtLeast(s[..|s|-1], hit, k);
    } else if k > 0 {
      TallyAtLeast(s[..|s|-1], hit, k - 1);
    }
  }

  lemma {:induction false} TallyFrom<T>(s: seq<T>, hit: T -> bool, k: nat)
    requires k <= |s| && forall i :: k <= i < |s| ==> hit(s[i])
    ensures Tally(s, hit) >= |s| - k
  {
    if k < |s| { TallyFrom(s[..|s|-1], hit, k); }
  }
}
