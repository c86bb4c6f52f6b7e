/** Polynomials over a field, and why as many distinct roots as coefficients leave only zero. */
module Polynomials {
  import opened Fields
  import opened LinearAlgebra

  function Pow<T>(f: Field<T>, p: T, c: nat): T { if c == 0 then f.one else f.mul(p, Pow(f, p, c - 1)) }

  /** A row of the Vandermonde matrix. */
  function PowRow<T>(f: Field<T>, p: T, k: nat): (v: Vec<T>)
    ensures |v| == k && forall c :: 0 <= c < k ==> v[c] == Pow(f, p, c)
  {
    seq(k, c requires 0 <= c < k => Pow(f, p, c))
  }

  /** y[0] + y[1] z + y[2] z^2 + ... */
  function Eval<T>(f: Field<T>, y: Vec<T>, z: T): T {
    if y == [] then f.zero else f.add(y[0], f.mul(z, Eval(f, y[1..], z)))
  }

  lemma {:induction false} EvalSnoc<T(!new)>(f: Field<T>, y: Vec<T>, z: T)
    requires Laws(f) && y != []
    ensures Eval(f, y, z) == f.add(Eval(f, y[..|y|-1], z), f.mul(Pow(f, z, |y| - 1), y[|y|-1]))
    decreases |y|
  {
    var n := |y| - 1;
    if n == 0 {
      assert y[1..] == [] && y[..0] == [];
      assert MulZero(f, z) && AddZero(f, y[0]) && MulOne(f, y[0]);
    } else {
      var a, b := y[1..][..n-1], Pow(f, z, n - 1);
      EvalSnoc(f, y[1..], z);
      assert y[..n][1..] == a && y[..n] != [];
      assert Distrib(f, z, Eval(f, a, z), f.mul(b, y[n]));
      assert MulAssoc(f, z, b, y[n]);
      assert AddAssoc(f, y[0], f.mul(z, Eval(f, a, z)), f.mul(z, f.mul(b, y[n])));
    }
  }

  lemma {:induction false} DotIsEval<T(!new)>(f: Field<T>, p: T, y: Vec<T>)
    requires Laws(f)
    ensures Dot(f, PowRow(f, p, |y|), y) == Eval(f, y, p)
  {
    if y != [] {
      var n := |y| - 1;
      DotIsEval(f, p, y[..n]);
      EvalSnoc(f, y, p);
      assert PowRow(f, p, |y|)[..n] == PowRow(f, p, n);
    }
  }

  /** The quotient of y by (z + p). */
  function Divide<T>(f: Field<T>, y: Vec<T>, p: T): (q: Vec<T>)
    ensures |q| == if y == [] then 0 else |y| - 1
  {
    if |y| <= 1 then [] else [Eval(f, y[1..], p)] + Divide(f, y[1..], p)
  }

  /** y(z) == (z + p) q(z) + y(p) */
  lemma {:induction false} DivideIdentity<T(!new)>(f: Field<T>, y: Vec<T>, p: T, z: T)
    requires Laws(f) && y != []
    ensures Eval(f, y, z) == f.add(f.mul(f.add(z, p), Eval(f, Divide(f, y, p), z)), Eval(f, y, p))
    decreases |y|
  {
    if |y| == 1 {
      assert y[1..] == [];
      assert MulZero(f, z) && MulZero(f, p) && MulZero(f, f.add(z, p)) && AddZero(f, y[0]);
    } else {
      var e, q := Eval(f, y[1..], p), Eval(f, Divide(f, y[1..], p), z);
      DivideIdentity(f, y[1..], p, z);
      assert Divide(f, y, p)[1..] == Divide(f, y[1..], p);
      DivideStep(f, y[0], e, q, p, z);
    }
  }

  /** y0 + z((z+p) q + e) == (z+p)(e + z q) + (y0 + p e) */
  lemma DivideStep<T(!new)>(f: Field<T>, y0: T, e: T, q: T, p: T, z: T)
    requires Laws(f)
    ensures
      var s := f.add(z, p);
      f.add(y0, f.mul(z, f.add(f.mul(s, q), e)))
      == f.add(f.mul(s, f.add(e, f.mul(z, q))), f.add(y0, f.mul(p, e)))
  {
    var s := f.add(z, p);
    var zsq, ze, pe := f.mul(z, f.mul(s, q)), f.mul(z, e), f.mul(p, e);
    assert Distrib(f, z, f.mul(s, q), e);
    assert Distrib(f, s, e, f.mul(z, q));
    assert MulAssoc(f, s, z, q) && MulComm(f, s, z) && MulAssoc(f, z, s, q);
    RightDistrib(f, z, p, e);
    // left: y0 + (zsq + ze); right: ((ze + pe) + zsq) + (y0 + pe)
    Gather(f, y0, zsq, ze, pe);
  }

  lemma Gather<T(!new)>(f: Field<T>, y0: T, a: T, b: T, c: T)
    requires Laws(f)
    ensures f.add(y0, f.add(a, b)) == f.add(f.add(f.add(b, c), a), f.add(y0, c))
  {
    var bc := f.add(b, c);
    Shuffle(f, bc, a, y0, c);
    assert f.add(f.add(bc, a), f.add(y0, c)) == f.add(f.add(bc, y0), f.add(a, c));
    Shuffle(f, b, c, y0, f.zero);
    assert AddZero(f, y0) && AddZero(f, c);
    assert f.add(bc, y0) == f.add(f.add(b, y0), c);
    assert AddAssoc(f, f.add(b, y0), c, f.add(a, c)) && AddComm(f, a, c) && AddAssoc(f, c, c, a) && AddSelf(f, c) && AddZero(f, a);
    assert f.add(f.add(bc, y0), f.add(a, c)) == f.add(f.add(b, y0), a);
    assert AddComm(f, b, y0) && AddAssoc(f, y0, b, a) && AddComm(f, a, b);
  }

  ghost predicate AllZero<T>(f: Field<T>, y: Vec<T>) { forall i :: 0 <= i < |y| ==> y[i] == f.zero }

  lemma {:induction false} EvalOfZero<T(!new)>(f: Field<T>, y: Vec<T>, z: T)
    requires Laws(f) && AllZero(f, y)
    ensures Eval(f, y, z) == f.zero
  {
    if y != [] {
      EvalOfZero(f, y[1..], z);
      assert MulZero(f, z) && AddZero(f, f.zero);
    }
  }

  lemma {:induction false} QuotientZero<T(!new)>(f: Field<T>, y: Vec<T>, p: T)
    requires Laws(f) && y != [] && AllZero(f, Divide(f, y, p))
    ensures AllZero(f, y[1..])
    decreases |y|
  {
    if |y| > 1 {
      var q := Divide(f, y, p);
      assert forall i :: 0 <= i < |q| - 1 ==> Divide(f, y[1..], p)[i] == q[i + 1];
      QuotientZero(f, y[1..], p);
      EvalOfZero(f, y[1..][1..], p);
      assert q[0] == f.zero;
      assert MulZero(f, p) && AddZero(f, y[1]);
      assert forall i :: 1 <= i < |y| - 1 ==> y[1..][i] == y[1..][1..][i - 1];
    }
  }

  /** With as many distinct roots as coefficients, every coefficient is zero. */
  lemma {:induction false} RootsForceZero<T(!new)>(f: Field<T>, y: Vec<T>, ps: seq<T>)
    requires Laws(f) && |ps| == |y|
    requires forall i, j :: 0 <= i < j < |ps| ==> ps[i] != ps[j]
    requires forall i :: 0 <= i < |ps| ==> Eval(f, y, ps[i]) == f.zero
    ensures AllZero(f, y)
    decreases |y|
  {
    if y != [] {
      var n := |y| - 1;
      var p, q := ps[n], Divide(f, y, ps[n]);
      forall i | 0 <= i < n ensures Eval(f, q, ps[i]) == f.zero {
        DivideIdentity(f, y, p, ps[i]);
        var s := f.add(ps[i], p);
        assert AddZero(f, f.mul(s, Eval(f, q, ps[i])));
        if s == f.zero { CancelSum(f, ps[i], p); }
        NoZeroDivisors(f, s, Eval(f, q, ps[i]));
      }
      RootsForceZero(f, q, ps[..n]);
      QuotientZero(f, y, p);
      EvalOfZero(f, y[1..], p);
      assert MulZero(f, p) && AddZero(f, y[0]);
      assert forall i :: 1 <= i < |y| ==> y[i] == y[1..][i - 1];
    }
  }
}

/** The systematic Reed-Solomon codec over any such field, and over GF(2^8) with the points 2^0, 2^1, ... */
module ReedSolomon {
  import opened Prelude
  import opened Fields
  import opened CyclicFields
  import opened GF256
  import opened LinearAlgebra
  import opened Polynomials

  // ---------------------------------------------------------------- the generator matrix

  /** Shard i is the value at point i of the polynomial that takes the data values at the first points. */
  ghost predicate Interpolates<T>(f: Field<T>, pts: seq<T>, gen: Rows<T>, data: nat, d: Vec<T>, y: Vec<T>)
    requires |d| == data && |pts| == data + |gen| && IsMatrix(gen, |gen|, data)
  {
    && |y| == data
    && (forall i :: 0 <= i < data ==> Eval(f, y, pts[i]) == d[i])
    && (forall r :: 0 <= r < |gen| ==> Eval(f, y, pts[data + r]) == Dot(f, gen[r], d))
  }

  ghost predicate HasPolynomial<T(!new)>(f: Field<T>, pts: seq<T>, gen: Rows<T>, data: nat, d: Vec<T>)
    requires |pts| == data + |gen| && IsMatrix(gen, |gen|, data)
  {
    |d| == data ==> exists y :: Interpolates(f, pts, gen, data, d, y)
  }

  ghost predicate IsGenerator<T(!new)>(f: Field<T>, pts: seq<T>, gen: Rows<T>, data: nat) {
    && |pts| == data + |gen| && IsMatrix(gen, |gen|, data)
    && forall d :: HasPolynomial(f, pts, gen, data, d)
  }

  ghost predicate Distinct<T(!new)>(pts: seq<T>) { forall i, j :: 0 <= i < j < |pts| ==> pts[i] != pts[j] }

  function Vandermonde<T>(f: Field<T>, pts: seq<T>, k: nat): (v: Rows<T>)
    ensures |v| == |pts| && forall i :: 0 <= i < |v| ==> v[i] == PowRow(f, pts[i], k)
  {
    seq(|pts|, i requires 0 <= i < |pts| => PowRow(f, pts[i], k))
  }

  lemma DistinctIsInjective<T(!new)>(f: Field<T>, pts: seq<T>, n: nat)
    requires Laws(f) && |pts| == n && Distinct(pts)
    ensures Injective(f, Vandermonde(f, pts, n), n)
  {
    var v := Vandermonde(f, pts, n);
    forall z ensures OnlyZero(f, v, n, z) {
      if |z| == n && InKernel(f, v, z) {
        forall i | 0 <= i < n ensures Eval(f, z, pts[i]) == f.zero {
          assert Kills(f, v[i], z);
          DotIsEval(f, pts[i], z);
        }
        RootsForceZero(f, z, pts);
      }
    }
  }

  /** Two equal points make two equal rows, which nothing can tell apart. */
  lemma InvertibleIsDistinct<T(!new)>(f: Field<T>, pts: seq<T>, n: nat, r: Rows<T>)
    requires Laws(f) && |pts| == n && IsMatrix(r, n, n) && Injective(f, r, n)
    requires LeftInverse(f, r, Vandermonde(f, pts, n), n)
    ensures Distinct(pts)
  {
    var v := Vandermonde(f, pts, n);
    forall i, j | 0 <= i < j < n ensures pts[i] != pts[j] {
      var e := Unit(f, n, i);
      RightInverse(f, r, v, n, e);
      var z := MatVec(f, r, e);
      assert MatVec(f, v, z)[i] == Dot(f, v[i], z) && MatVec(f, v, z)[j] == Dot(f, v[j], z);
    }
  }

  lemma GeneratorFromInverse<T(!new)>(f: Field<T>, pts: seq<T>, data: nat, inv: Rows<T>, gen: Rows<T>)
    requires Laws(f) && |pts| == data + |gen| && IsMatrix(inv, data, data)
    requires LeftInverse(f, inv, Vandermonde(f, pts[..data], data), data) && Injective(f, inv, data)
    requires forall r :: 0 <= r < |gen| ==> gen[r] == RowTimes(f, PowRow(f, pts[data + r], data), inv, data)
    ensures IsGenerator(f, pts, gen, data)
  {
    var top := Vandermonde(f, pts[..data], data);
    forall d ensures HasPolynomial(f, pts, gen, data, d) {
      if |d| == data {
        var y := MatVec(f, inv, d);
        RightInverse(f, inv, top, data, d);
        forall i | 0 <= i < data ensures Eval(f, y, pts[i]) == d[i] {
          assert MatVec(f, top, y)[i] == Dot(f, top[i], y);
          DotIsEval(f, pts[i], y);
        }
        forall r | 0 <= r < |gen| ensures Eval(f, y, pts[data + r]) == Dot(f, gen[r], d) {
          RowTimesVec(f, PowRow(f, pts[data + r], data), inv, data, d);
          DotIsEval(f, pts[data + r], y);
        }
        assert Interpolates(f, pts, gen, data, d, y);
      }
    }
  }

  /** buildGeneratorMatrix */
  method BuildGeneratorMatrix<T(==, !new)>(f: Field<T>, pts: seq<T>, data: nat, parity: nat) returns (gen: Option<Rows<T>>)
    requires Laws(f) && |pts| == data + parity
    ensures gen.Some? ==> |gen.value| == parity && IsGenerator(f, pts, gen.value, data)
    ensures gen.Some? <==> Distinct(pts[..data])
  {
    var top := Vandermonde(f, pts[..data], data);
    if Distinct(pts[..data]) { DistinctIsInjective(f, pts[..data], data); }
    var inv := InvertMatrix(f, top, data);
    if inv.None? { return None; }
    InvertibleIsDistinct(f, pts[..data], data, inv.value);
    var rows: Rows<T> := [];
    for r := 0 to parity
      invariant |rows| == r
      invariant forall i :: 0 <= i < r ==> rows[i] == RowTimes(f, PowRow(f, pts[data + i], data), inv.value, data)
    {
      rows := rows + [RowTimes(f, PowRow(f, pts[data + r], data), inv.value, data)];
    }
    GeneratorFromInverse(f, pts, data, inv.value, rows);
    gen := Some(rows);
  }

  // ---------------------------------------------------------------- which shards determine the data

  /** Row i of the full encoding matrix. */
  function FullRow<T>(f: Field<T>, gen: Rows<T>, data: nat, i: nat): (v: Vec<T>)
    requires IsMatrix(gen, |gen|, data) && i < data + |gen|
    ensures |v| == data
  {
    if i < data then Unit(f, data, i) else gen[i - data]
  }

  lemma RowIsEval<T(!new)>(f: Field<T>, pts: seq<T>, gen: Rows<T>, data: nat, d: Vec<T>, y: Vec<T>, i: nat)
    requires Laws(f) && |d| == data && |pts| == data + |gen| && IsMatrix(gen, |gen|, data)
    requires Interpolates(f, pts, gen, data, d, y) && i < |pts|
    ensures Dot(f, FullRow(f, gen, data, i), d) == Eval(f, y, pts[i])
  {
    if i < data {
      DotUnit(f, data, i, d);
    } else {
      assert pts[data + (i - data)] == pts[i];
    }
  }

  ghost predicate Selects<T(!new)>(f: Field<T>, gen: Rows<T>, data: nat, idx: seq<nat>, sub: Rows<T>) {
    && IsMatrix(gen, |gen|, data) && |idx| == data == |sub|
    && (forall j :: 0 <= j < data ==> idx[j] < data + |gen| && sub[j] == FullRow(f, gen, data, idx[j]))
    && (forall i, j :: 0 <= i < j < data ==> idx[i] < idx[j])
  }

  /** Any `data` rows with distinct points determine the data. */
  lemma SelectionIsInjective<T(!new)>(f: Field<T>, pts: seq<T>, gen: Rows<T>, data: nat, idx: seq<nat>, sub: Rows<T>)
    requires Laws(f) && IsGenerator(f, pts, gen, data) && Selects(f, gen, data, idx, sub)
    requires forall i, j :: 0 <= i < j < data ==> pts[idx[i]] != pts[idx[j]]
    ensures Injective(f, sub, data)
  {
    forall z ensures OnlyZero(f, sub, data, z) {
      if |z| == data && InKernel(f, sub, z) {
        assert HasPolynomial(f, pts, gen, data, z);
        var y :| Interpolates(f, pts, gen, data, z, y);
        var chosen := seq(data, j requires 0 <= j < data => pts[idx[j]]);
        forall j | 0 <= j < data ensures Eval(f, y, chosen[j]) == f.zero {
          assert Kills(f, sub[j], z);
          RowIsEval(f, pts, gen, data, z, y, idx[j]);
        }
        RootsForceZero(f, y, chosen);
        forall i | 0 <= i < data ensures z[i] == f.zero { EvalOfZero(f, y, pts[i]); }
      }
    }
  }

  /** Two rows at one point carry the same information: such a selection has no inverse. */
  lemma RepeatedPointIsSingular<T(!new)>(
    f: Field<T>, pts: seq<T>, gen: Rows<T>, data: nat, idx: seq<nat>, sub: Rows<T>, r: Rows<T>, a: nat, b: nat)
    requires Laws(f) && IsGenerator(f, pts, gen, data) && Selects(f, gen, data, idx, sub)
    requires a < b < data && pts[idx[a]] == pts[idx[b]]
    requires IsMatrix(r, data, data) && Injective(f, r, data)
    ensures IsMatrix(sub, data, data) && !LeftInverse(f, r, sub, data)
  {
    if LeftInverse(f, r, sub, data) {
      var e := Unit(f, data, a);
      var z := MatVec(f, r, e);
      RightInverse(f, r, sub, data, e);
      assert HasPolynomial(f, pts, gen, data, z);
      var y :| Interpolates(f, pts, gen, data, z, y);
      RowIsEval(f, pts, gen, data, z, y, idx[a]);
      RowIsEval(f, pts, gen, data, z, y, idx[b]);
      assert false;
    }
  }

  // ---------------------------------------------------------------- shards: one codeword per byte position

  type Shard<T> = seq<T>

  function At<T>(shards: seq<Shard<T>>, b: nat): (v: Vec<T>)
    requires forall i :: 0 <= i < |shards| ==> b < |shards[i]|
    ensures |v| == |shards| && forall i :: 0 <= i < |v| ==> v[i] == shards[i][b]
  {
    Column(shards, b)
  }

  /** The shard whose byte b is the coefficients against byte b of every input shard. */
  ghost predicate Combination<T>(f: Field<T>, coeffs: Vec<T>, shards: seq<Shard<T>>, size: nat, out: Shard<T>)
    requires IsMatrix(shards, |coeffs|, size)
  {
    |out| == size && forall b :: 0 <= b < size ==> out[b] == Dot(f, coeffs, At(shards, b))
  }

  lemma CombinationStep<T(!new)>(f: Field<T>, coeffs: Vec<T>, shards: seq<Shard<T>>, size: nat, out: Shard<T>, c: T, s: Shard<T>)
    requires Laws(f) && IsMatrix(shards, |coeffs|, size) && Combination(f, coeffs, shards, size, out) && |s| == size
    ensures Combination(f, coeffs + [c], shards + [s], size, AddScaled(f, out, c, s))
    ensures c == f.zero ==> Combination(f, coeffs + [c], shards + [s], size, out)
  {
    forall b | 0 <= b < size
      ensures AddScaled(f, out, c, s)[b] == Dot(f, coeffs + [c], At(shards + [s], b))
      ensures c == f.zero ==> out[b] == AddScaled(f, out, c, s)[b]
    {
      assert At(shards + [s], b) == At(shards, b) + [s[b]];
      assert (coeffs + [c])[..|coeffs|] == coeffs && (At(shards, b) + [s[b]])[..|coeffs|] == At(shards, b);
      assert MulZero(f, s[b]) && AddZero(f, out[b]);
    }
  }

  /** The accumulation loop of encode and reconstruct; zero factors are skipped. */
  method Accumulate<T(==, !new)>(f: Field<T>, coeffs: Vec<T>, shards: seq<Shard<T>>, size: nat) returns (out: Shard<T>)
    requires Laws(f) && IsMatrix(shards, |coeffs|, size)
    ensures Combination(f, coeffs, shards, size, out)
  {
    out := Zeros(f, size);
    for c := 0 to |coeffs|
      invariant Combination(f, coeffs[..c], shards[..c], size, out)
    {
      assert coeffs[..c+1] == coeffs[..c] + [coeffs[c]] && shards[..c+1] == shards[..c] + [shards[c]];
      CombinationStep(f, coeffs[..c], shards[..c], size, out, coeffs[c], shards[c]);
      if coeffs[c] == f.zero { continue; }
      out := AddScaled(f, out, coeffs[c], shards[c]);
    }
    assert coeffs[..|coeffs|] == coeffs && shards[..|coeffs|] == shards;
  }

  /** All shards of the encoded data: the data itself, then the parity. */
  ghost predicate Encodes<T>(f: Field<T>, gen: Rows<T>, data: seq<Shard<T>>, size: nat, all: seq<Shard<T>>) {
    && IsMatrix(gen, |gen|, |data|) && IsMatrix(data, |data|, size) && |all| == |data| + |gen|
    && all[..|data|] == data
    && forall r :: 0 <= r < |gen| ==> Combination(f, gen[r], data, size, all[|data| + r])
  }

  /** encode */
  method Encode<T(==, !new)>(f: Field<T>, gen: Rows<T>, data: seq<Shard<T>>, size: nat) returns (all: seq<Shard<T>>)
    requires Laws(f) && IsMatrix(gen, |gen|, |data|) && IsMatrix(data, |data|, size)
    ensures Encodes(f, gen, data, size, all)
  {
    all := data;
    for r := 0 to |gen|
      invariant |all| == |data| + r && all[..|data|] == data
      invariant forall i :: 0 <= i < r ==> Combination(f, gen[i], data, size, all[|data| + i])
    {
      var parity := Accumulate(f, gen[r], data, size);
      all := all + [parity];
    }
  }

  /** Every shard, data or parity, is its full row against the data. */
  lemma ShardIsRow<T(!new)>(f: Field<T>, gen: Rows<T>, data: seq<Shard<T>>, size: nat, all: seq<Shard<T>>, i: nat)
    requires Laws(f) && Encodes(f, gen, data, size, all) && i < |all|
    ensures Combination(f, FullRow(f, gen, |data|, i), data, size, all[i])
  {
    if i < |data| {
      forall b | 0 <= b < size ensures all[i][b] == Dot(f, Unit(f, |data|, i), At(data, b)) {
        DotUnit(f, |data|, i, At(data, b));
        assert all[..|data|][i] == all[i];
      }
    } else {
      assert Combination(f, gen[i - |data|], data, size, all[|data| + (i - |data|)]);
    }
  }

  // ---------------------------------------------------------------- reconstruction

  type Partial<T> = seq<Option<Shard<T>>>

  function Available<T>(shards: Partial<T>): (idx: seq<nat>)
    ensures forall j :: 0 <= j < |idx| ==> idx[j] < |shards| && shards[idx[j]].Some?
    ensures forall i, j :: 0 <= i < j < |idx| ==> idx[i] < idx[j]
    ensures forall i :: 0 <= i < |shards| && shards[i].Some? ==> i in idx
  {
    if shards == [] then []
    else
      var init := Available(shards[..|shards|-1]);
      if shards[|shards|-1].Some? then init + [|shards| - 1] else init
  }

  /** What survives of an encoding: every shard is absent or as it was written. */
  ghost predicate Survives<T>(shards: Partial<T>, all: seq<Shard<T>>) {
    |shards| == |all| && forall i :: 0 <= i < |all| && shards[i].Some? ==> shards[i].value == all[i]
  }

  datatype Outcome<T> = WrongCount | TooFewShards | Singular | Restored(data: seq<Shard<T>>)

  /** Present positions, in ascending order. */
  ghost predicate Listing<T>(shards: Partial<T>, avail: seq<nat>) {
    && (forall j :: 0 <= j < |avail| ==> avail[j] < |shards| && shards[avail[j]].Some?)
    && (forall i, j :: 0 <= i < j < |avail| ==> avail[i] < avail[j])
  }

  /** The rows and shards reconstruct picks: the first `data` that are present. */
  method SelectRows<T(==, !new)>(f: Field<T>, gen: Rows<T>, data: nat, shards: Partial<T>, avail: seq<nat>)
    returns (sub: Rows<T>, picked: seq<Shard<T>>)
    requires IsMatrix(gen, |gen|, data) && |shards| == data + |gen| && |avail| == data && Listing(shards, avail)
    ensures Selects(f, gen, data, avail, sub)
    ensures |picked| == data && forall j :: 0 <= j < data ==> picked[j] == shards[avail[j]].value
  {
    sub, picked := [], [];
    for j := 0 to data
      invariant |sub| == j && |picked| == j
      invariant forall k :: 0 <= k < j ==> sub[k] == FullRow(f, gen, data, avail[k])
      invariant forall k :: 0 <= k < j ==> picked[k] == shards[avail[k]].value
    {
      sub := sub + [FullRow(f, gen, data, avail[j])];
      picked := picked + [shards[avail[j]].value];
    }
  }

  /** Applying the inverse of the selected rows to the selected shards gives back the data shards. */
  lemma InverseRestores<T(!new)>(
    f: Field<T>, gen: Rows<T>, data: seq<Shard<T>>, size: nat, all: seq<Shard<T>>,
    idx: seq<nat>, sub: Rows<T>, r: Rows<T>, picked: seq<Shard<T>>, i: nat, out: Shard<T>)
    requires Laws(f) && Encodes(f, gen, data, size, all) && Selects(f, gen, |data|, idx, sub)
    requires |picked| == |data| && forall j :: 0 <= j < |data| ==> picked[j] == all[idx[j]] && |picked[j]| == size
    requires IsMatrix(sub, |data|, |data|) && IsMatrix(r, |data|, |data|) && LeftInverse(f, r, sub, |data|)
    requires i < |data| && Combination(f, r[i], picked, size, out)
    ensures out == data[i]
  {
    forall b | 0 <= b < size ensures out[b] == data[i][b] {
      var d := At(data, b);
      forall j | 0 <= j < |data| ensures At(picked, b)[j] == MatVec(f, sub, d)[j] {
        ShardIsRow(f, gen, data, size, all, idx[j]);
      }
      assert At(picked, b) == MatVec(f, sub, d);
      assert Undoes(f, r, sub, |data|, d);
      assert MatVec(f, r, MatVec(f, sub, d))[i] == d[i];
    }
  }

  /** The available points do not repeat. */
  ghost predicate Apart<T(!new)>(pts: seq<T>, idx: seq<nat>)
    requires forall j :: 0 <= j < |idx| ==> idx[j] < |pts|
  {
    forall i, j :: 0 <= i < j < |idx| ==> pts[idx[i]] != pts[idx[j]]
  }

  /**
    reconstruct: too few shards are refused; otherwise, whenever the points of the shards it picks are
    apart, whatever data these shards survive from comes back exactly, and when two of them coincide
    (and some data shard is missing) it reports failure rather than a wrong answer.
   */
  method Reconstruct<T(==, !new)>(f: Field<T>, pts: seq<T>, gen: Rows<T>, data: nat, size: nat, shards: Partial<T>)
    returns (o: Outcome<T>)
    requires Laws(f) && IsGenerator(f, pts, gen, data)
    requires forall i :: 0 <= i < |shards| && shards[i].Some? ==> |shards[i].value| == size
    ensures o.WrongCount? <==> |shards| != data + |gen|
    ensures |shards| == data + |gen| ==> (o.TooFewShards? <==> |Available(shards)| < data)
    ensures |shards| == data + |gen| && |Available(shards)| >= data && Apart(pts, Available(shards)[..data]) ==>
      o.Restored? && forall orig, all :: |orig| == data && Encodes(f, gen, orig, size, all) && Survives(shards, all) ==> o.data == orig
    ensures |shards| == data + |gen| && |Available(shards)| >= data && !Apart(pts, Available(shards)[..data]) ==>
      o.Singular? || forall i :: 0 <= i < data ==> shards[i].Some?
  {
    if |shards| != data + |gen| { return WrongCount; }
    if |Available(shards)| < data { return TooFewShards; }
    var missing := FirstMissing(shards, data);
    if missing == data {
      var present := seq(data, i requires 0 <= i < data && i < |shards| && shards[i].Some? => shards[i].value);
      forall orig, all | |orig| == data && Encodes(f, gen, orig, size, all) && Survives(shards, all) ensures present == orig {
        forall i | 0 <= i < data ensures present[i] == orig[i] { assert all[..data][i] == all[i]; }
      }
      return Restored(present);
    }
    var idx := Available(shards)[..data];
    var sub, picked := SelectRows(f, gen, data, shards, idx);
    if Apart(pts, idx) { SelectionIsInjective(f, pts, gen, data, idx, sub); }
    var inv := InvertMatrix(f, sub, data);
    if inv.None? { return Singular; }
    if !Apart(pts, idx) {
      var a, b :| 0 <= a < b < data && pts[idx[a]] == pts[idx[b]];
      RepeatedPointIsSingular(f, pts, gen, data, idx, sub, inv.value, a, b);
      assert false;
    }
    var restored := RestoreMissing(f, pts, gen, data, size, shards, sub, picked, idx, inv.value);
    o := Restored(restored);
  }

  method FirstMissing<T(!new)>(shards: Partial<T>, data: nat) returns (i: nat)
    requires data <= |shards|
    ensures i <= data && (i < data ==> shards[i].None?) && forall j :: 0 <= j < i ==> shards[j].Some?
  {
    i := 0;
    while i < data && shards[i].Some?
      invariant i <= data && forall j :: 0 <= j < i ==> shards[j].Some?
    {
      i := i + 1;
    }
  }

  method RestoreMissing<T(==, !new)>(f: Field<T>, ghost pts: seq<T>, gen: Rows<T>, data: nat, size: nat, shards: Partial<T>,
    sub: Rows<T>, picked: seq<Shard<T>>, ghost idx: seq<nat>, inv: Rows<T>) returns (restored: seq<Shard<T>>)
    requires Laws(f) && IsGenerator(f, pts, gen, data) && |shards| == data + |gen| && Selects(f, gen, data, idx, sub)
    requires forall i :: 0 <= i < |shards| && shards[i].Some? ==> |shards[i].value| == size
    requires forall j :: 0 <= j < |idx| ==> idx[j] < |shards| && shards[idx[j]].Some?
    requires |picked| == data && forall j :: 0 <= j < data ==> picked[j] == shards[idx[j]].value
    requires IsMatrix(sub, data, data) && IsMatrix(inv, data, data) && LeftInverse(f, inv, sub, data)
    ensures forall orig, all :: |orig| == data && Encodes(f, gen, orig, size, all) && Survives(shards, all) ==> restored == orig
  {
    restored := [];
    for i := 0 to data
      invariant |restored| == i
      invariant forall k :: 0 <= k < i && shards[k].Some? ==> restored[k] == shards[k].value
      invariant forall k :: 0 <= k < i && shards[k].None? ==> Combination(f, inv[k], picked, size, restored[k])
    {
      if shards[i].Some? {
        restored := restored + [shards[i].value];
      } else {
        var out := Accumulate(f, inv[i], picked, size);
        restored := restored + [out];
      }
    }
    forall orig, all | |orig| == data && Encodes(f, gen, orig, size, all) && Survives(shards, all) ensures restored == orig {
      forall i | 0 <= i < data ensures restored[i] == orig[i] {
        assert all[..data][i] == all[i];
        if shards[i].None? {
          InverseRestores(f, gen, orig, size, all, idx, sub, inv, picked, i, restored[i]);
        }
      }
    }
  }

  // ---------------------------------------------------------------- GF(2^8), and how many points it has

  /** The evaluation points 2^0 .. 2^(total-1). */
  function Points<T>(g: Gen<T>, total: nat): (pts: seq<T>)
    ensures |pts| == total && forall r :: 0 <= r < total ==> pts[r] == Exp(g, r)
  {
    seq(total, r requires 0 <= r < total => Exp(g, r))
  }

  /** They are distinct exactly up to the order of the generator: 255 shards over GF(2^8). */
  lemma PointsDistinctIff<T(!new)>(g: Gen<T>, total: nat)
    requires Cyclic(g)
    ensures Distinct(Points(g, total)) <==> total <= g.order
  {
    var pts := Points(g, total);
    if total <= g.order {
      forall i, j | 0 <= i < j < total ensures pts[i] != pts[j] {
        if pts[i] == pts[j] { ExpInjective(g, i, j); }
      }
    } else {
      assert pts[0] == g.one && pts[g.order] == Exp(g, g.order);
    }
  }

  /** Ascending positions of `data` surviving shards out of `total`. */
  ghost predicate Pattern(idx: seq<nat>, data: nat, total: nat) {
    |idx| == data && (forall j :: 0 <= j < data ==> idx[j] < total) && forall i, j :: 0 <= i < j < data ==> idx[i] < idx[j]
  }

  /** Whichever `data` shards survive, their points are apart, if and only if the field has enough points. */
  lemma EveryPatternApartIff<T(!new)>(g: Gen<T>, data: nat, total: nat)
    requires Cyclic(g) && 1 <= data <= g.order && data < total
    ensures (forall idx :: Pattern(idx, data, total) ==> Apart(Points(g, total), idx)) <==> data == 1 || total <= g.order
  {
    var pts := Points(g, total);
    if total <= g.order {
      PointsDistinctIff(g, total);
      forall idx | Pattern(idx, data, total) ensures Apart(pts, idx) { DistinctIsApart(pts, idx); }
    } else if data > 1 {
      // the first data-1 shards and shard number `order`, which repeats shard 0
      var idx := seq(data, j requires 0 <= j < data => if j < data - 1 then j else g.order);
      assert Pattern(idx, data, total);
      assert pts[idx[0]] == pts[idx[data - 1]];
      assert !Apart(pts, idx);
    }
  }

  lemma DistinctIsApart<T(!new)>(pts: seq<T>, idx: seq<nat>)
    requires Distinct(pts) && forall j :: 0 <= j < |idx| ==> idx[j] < |pts|
    requires forall i, j :: 0 <= i < j < |idx| ==> idx[i] < idx[j]
    ensures Apart(pts, idx)
  {
  }

  lemma {:induction false} PowOfExp<T(!new)>(g: Gen<T>, r: nat, c: nat)
    requires Cyclic(g) && Additive(g)
    ensures Polynomials.Pow(FieldOf(g), Exp(g, r), c) == Exp(g, r * c)
  {
    if c > 0 {
      PowOfExp(g, r, c - 1);
      MulOfPowers(g, r, r * (c - 1));
      assert r * c == r + r * (c - 1);
    }
  }

  lemma MulOfPowers<T(!new)>(g: Gen<T>, i: nat, j: nat)
    requires Cyclic(g)
    ensures CyclicFields.Mul(g, Exp(g, i), Exp(g, j)) == Exp(g, i + j)
  {
    TimesZero(g, i, g.one);
    MulIsTimes(g, Exp(g, i), Exp(g, j));
    LogFinds(g, Exp(g, i));
    TimesOfEqualPowers(g, Log(g, Exp(g, i)), i, Exp(g, j));
    PowerSum(g, i, j, Exp(g, j));
  }

  lemma {:induction false} ExpPeriods<T(!new)>(g: Gen<T>, q: nat, r: nat)
    requires Cyclic(g)
    ensures Exp(g, q * g.order + r) == Exp(g, r)
  {
    if q > 0 {
      assert q * g.order + r == (q - 1) * g.order + r + g.order;
      ExpWraps(g, (q - 1) * g.order + r + g.order);
      ExpPeriods(g, q - 1, r);
    }
  }

  lemma ExpMod<T(!new)>(g: Gen<T>, k: nat)
    requires Cyclic(g)
    ensures Exp(g, k) == Exp(g, k % g.order)
  {
    ExpPeriods(g, k / g.order, k % g.order);
    assert (k / g.order) * g.order + k % g.order == k;
  }

  /** The matrix entry as written, gfPow(2, r*c) = gfExp[(gfLog[2]*r*c) % 255], is (2^r)^c. */
  lemma VandermondeEntry<T(!new)>(g: Gen<T>, r: nat, c: nat)
    requires Cyclic(g) && Additive(g)
    ensures Exp(g, (r * c) % g.order) == Polynomials.Pow(FieldOf(g), Exp(g, r), c)
  {
    ExpMod(g, r * c);
    PowOfExp(g, r, c);
  }

  // ---------------------------------------------------------------- whole segments

  function Slice<T>(pkg: seq<T>, size: nat, i: nat): (s: Shard<T>)
    requires (i + 1) * size <= |pkg|
    ensures |s| == size
  {
    assert (i + 1) * size == i * size + size;
    pkg[i * size..(i + 1) * size]
  }

  function SplitPackage<T>(pkg: seq<T>, size: nat, n: nat): (ss: seq<Shard<T>>)
    requires n * size <= |pkg|
    ensures IsMatrix(ss, n, size)
  {
    if n == 0 then []
    else
      assert n * size == (n - 1) * size + size;
      SplitPackage(pkg, size, n - 1) + [Slice(pkg, size, n - 1)]
  }

  function Join<T>(ss: seq<Shard<T>>): seq<T> { if ss == [] then [] else Join(ss[..|ss|-1]) + ss[|ss|-1] }

  lemma {:induction false} JoinUndoesSplit<T>(pkg: seq<T>, size: nat, n: nat)
    requires n * size <= |pkg|
    ensures Join(SplitPackage(pkg, size, n)) == pkg[..n * size]
  {
    if n > 0 {
      assert n * size == (n - 1) * size + size;
      JoinUndoesSplit(pkg, size, n - 1);
      var ss := SplitPackage(pkg, size, n);
      assert ss[..|ss|-1] == SplitPackage(pkg, size, n - 1);
      assert pkg[..n * size] == pkg[..(n - 1) * size] + Slice(pkg, size, n - 1);
    }
  }

  /** An engine for `data` + `parity` shards of `size` bytes, as NewEngine builds it. */
  datatype Engine<!T> = Engine(field: Field<T>, pts: seq<T>, gen: Rows<T>, data: nat, size: nat)

  ghost predicate Built<T(!new)>(e: Engine<T>) {
    Laws(e.field) && IsGenerator(e.field, e.pts, e.gen, e.data) && Distinct(e.pts)
  }

  ghost predicate EncodingOf<T>(e: Engine<T>, pkg: seq<T>, all: seq<Shard<T>>) {
    |pkg| == e.data * e.size && Encodes(e.field, e.gen, SplitPackage(pkg, e.size, e.data), e.size, all)
  }

  /** EncodeSegment */
  method EncodeSegment<T(==, !new)>(e: Engine<T>, pkg: seq<T>) returns (r: Option<seq<Shard<T>>>)
    requires Built(e)
    ensures r.Some? <==> |pkg| == e.data * e.size
    ensures r.Some? ==> EncodingOf(e, pkg, r.value)
  {
    if |pkg| != e.data * e.size { return None; }
    var all := Encode(e.field, e.gen, SplitPackage(pkg, e.size, e.data), e.size);
    r := Some(all);
  }

  datatype Decoded<T> = BadCount | BadSize | TooFew | Package(pkg: seq<T>)

  /**
    DecodeSegment: from any `data` or more surviving shards of any package, that package; every other
    input is refused for its own reason, and the inversion never fails.
   */
  method DecodeSegment<T(==, !new)>(e: Engine<T>, shards: Partial<T>) returns (r: Decoded<T>)
    requires Built(e)
    ensures |shards| != |e.pts| ==> r == BadCount
    ensures |shards| == |e.pts| && (exists i :: 0 <= i < |shards| && shards[i].Some? && |shards[i].value| != e.size) ==> r == BadSize
    ensures |shards| == |e.pts| && (forall i :: 0 <= i < |shards| && shards[i].Some? ==> |shards[i].value| == e.size) ==>
      (r == TooFew <==> |Available(shards)| < e.data) && (r.Package? <==> |Available(shards)| >= e.data)
    ensures forall pkg, all :: EncodingOf(e, pkg, all) && Survives(shards, all) && |Available(shards)| >= e.data ==> r == Package(pkg)
  {
    if |shards| != |e.pts| { return BadCount; }
    for i := 0 to |shards|
      invariant forall j :: 0 <= j < i && shards[j].Some? ==> |shards[j].value| == e.size
    {
      if shards[i].Some? && |shards[i].value| != e.size {
        forall pkg, all | EncodingOf(e, pkg, all) ensures !Survives(shards, all) { EncodedSizes(e, pkg, all, i); }
        return BadSize;
      }
    }
    if |Available(shards)| < e.data { return TooFew; }
    DistinctIsApart(e.pts, Available(shards)[..e.data]);
    var o := Reconstruct(e.field, e.pts, e.gen, e.data, e.size, shards);
    forall pkg, all | EncodingOf(e, pkg, all) && Survives(shards, all) ensures Join(o.data) == pkg {
      JoinUndoesSplit(pkg, e.size, e.data);
      assert pkg[..|pkg|] == pkg;
    }
    r := Package(Join(o.data));
  }

  lemma EncodedSizes<T>(e: Engine<T>, pkg: seq<T>, all: seq<Shard<T>>, i: nat)
    requires EncodingOf(e, pkg, all) && i < |all|
    ensures |all[i]| == e.size
  {
    var data := SplitPackage(pkg, e.size, e.data);
    if i < e.data {
      assert all[..|data|][i] == data[i];
    } else {
      assert Combination(e.field, e.gen[i - e.data], data, e.size, all[|data| + (i - e.data)]);
    }
  }

  const SHARD_SIZE := 262144

  /** The fields of a network profile that NewEngine looks at. */
  datatype Profile = Profile(data: int, parity: int, total: int, shardSize: int)

  datatype EngineResult = DataShardsZero | TotalShardsMismatch | ShardSizeMismatch | CodecFailed | Ready(engine: Engine<Elem>)

  /** profileConsistencyCheck, newRSEncoder and NewEngine over GF(2^8). */
  method NewEngine(p: Profile) returns (r: EngineResult)
    ensures r.DataShardsZero? <==> p.data < 1
    ensures r.TotalShardsMismatch? <==> p.data >= 1 && p.total != p.data + p.parity
    ensures r.ShardSizeMismatch? <==> p.data >= 1 && p.total == p.data + p.parity && p.shardSize != 262144
    ensures r.Ready? <==>
      p.data >= 1 && p.parity >= 1 && p.total == p.data + p.parity && p.shardSize == 262144 && p.data <= 255
    ensures r.Ready? ==> r.engine.data == p.data && |r.engine.pts| == p.total && r.engine.size == 262144
    ensures r.Ready? ==> (Built(r.engine) <==> p.total <= 255)
  {
    if p.data < 1 { return DataShardsZero; }
    if p.total != p.data + p.parity { return TotalShardsMismatch; }
    if p.shardSize != SHARD_SIZE { return ShardSizeMismatch; }
    if p.parity < 1 { return CodecFailed; }
    var g := Gf();
    GfIsAField(g);
    var f := FieldOf(g);
    var pts := Points(g, p.total);
    PointsDistinctIff(g, p.total);
    PointsDistinctIff(g, p.data);
    assert pts[..p.data] == Points(g, p.data);
    var gen := BuildGeneratorMatrix(f, pts, p.data, p.parity);
    if gen.None? { return CodecFailed; }
    r := Ready(Engine(f, pts, gen.value, p.data, SHARD_SIZE));
  }
}
