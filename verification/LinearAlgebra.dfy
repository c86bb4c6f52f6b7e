/** Vectors, row operations and in-place Gauss-Jordan inversion over a field of characteristic two. */
module LinearAlgebra {
  import opened Prelude
  import opened Fields

  type Vec<T> = seq<T>

  type Rows<T> = seq<seq<T>>

  predicate IsMatrix<T>(m: Rows<T>, rows: nat, cols: nat) {
    |m| == rows && forall i :: 0 <= i < rows ==> |m[i]| == cols
  }

  function Dot<T>(f: Field<T>, a: Vec<T>, x: Vec<T>): T
    requires |a| == |x|
  {
    if a == [] then f.zero else f.add(Dot(f, a[..|a|-1], x[..|x|-1]), f.mul(a[|a|-1], x[|x|-1]))
  }

  function AddV<T>(f: Field<T>, a: Vec<T>, b: Vec<T>): (c: Vec<T>)
    requires |a| == |b|
    ensures |c| == |a| && forall i :: 0 <= i < |c| ==> c[i] == f.add(a[i], b[i])
  {
    seq(|a|, i requires 0 <= i < |a| => f.add(a[i], b[i]))
  }

  function Scale<T>(f: Field<T>, k: T, a: Vec<T>): (c: Vec<T>)
    ensures |c| == |a| && forall i :: 0 <= i < |c| ==> c[i] == f.mul(k, a[i])
  {
    seq(|a|, i requires 0 <= i < |a| => f.mul(k, a[i]))
  }

  function AddScaled<T>(f: Field<T>, a: Vec<T>, k: T, b: Vec<T>): (c: Vec<T>)
    requires |a| == |b|
    ensures |c| == |a| && forall i :: 0 <= i < |c| ==> c[i] == f.add(a[i], f.mul(k, b[i]))
  {
    AddV(f, a, Scale(f, k, b))
  }

  function Zeros<T>(f: Field<T>, n: nat): (z: Vec<T>)
    ensures |z| == n && forall i :: 0 <= i < n ==> z[i] == f.zero
  {
    seq(n, _ => f.zero)
  }

  function Unit<T>(f: Field<T>, n: nat, i: nat): (u: Vec<T>)
    ensures |u| == n && forall j :: 0 <= j < n ==> u[j] == if i == j then f.one else f.zero
  {
    seq(n, j => if i == j then f.one else f.zero)
  }

  function MatVec<T>(f: Field<T>, m: Rows<T>, x: Vec<T>): (y: Vec<T>)
    requires IsMatrix(m, |m|, |x|)
    ensures |y| == |m| && forall i :: 0 <= i < |y| ==> y[i] == Dot(f, m[i], x)
  {
    seq(|m|, i requires 0 <= i < |m| => Dot(f, m[i], x))
  }

  // ---------------------------------------------------------------- linearity

  lemma Shuffle<T(!new)>(f: Field<T>, a: T, b: T, p: T, q: T)
    requires Laws(f)
    ensures f.add(f.add(a, b), f.add(p, q)) == f.add(f.add(a, p), f.add(b, q))
  {
    assert AddAssoc(f, a, b, f.add(p, q)) && AddAssoc(f, b, p, q) && AddComm(f, b, p);
    assert AddAssoc(f, p, b, q) && AddAssoc(f, a, p, f.add(b, q));
  }

  lemma RightDistrib<T(!new)>(f: Field<T>, a: T, b: T, x: T)
    requires Laws(f)
    ensures f.mul(f.add(a, b), x) == f.add(f.mul(a, x), f.mul(b, x))
  {
    assert MulComm(f, f.add(a, b), x) && Distrib(f, x, a, b) && MulComm(f, a, x) && MulComm(f, b, x);
  }

  lemma {:induction false} DotScale<T(!new)>(f: Field<T>, k: T, a: Vec<T>, x: Vec<T>)
    requires Laws(f) && |a| == |x|
    ensures Dot(f, Scale(f, k, a), x) == f.mul(k, Dot(f, a, x))
  {
    if a == [] {
      assert MulZero(f, k);
    } else {
      var n := |a| - 1;
      DotScale(f, k, a[..n], x[..n]);
      assert Scale(f, k, a)[..n] == Scale(f, k, a[..n]);
      assert Distrib(f, k, Dot(f, a[..n], x[..n]), f.mul(a[n], x[n])) && MulAssoc(f, k, a[n], x[n]);
    }
  }

  lemma {:induction false} DotAdd<T(!new)>(f: Field<T>, a: Vec<T>, b: Vec<T>, x: Vec<T>)
    requires Laws(f) && |a| == |b| == |x|
    ensures Dot(f, AddV(f, a, b), x) == f.add(Dot(f, a, x), Dot(f, b, x))
  {
    if a == [] {
      assert AddZero(f, f.zero);
    } else {
      var n := |a| - 1;
      DotAdd(f, a[..n], b[..n], x[..n]);
      assert AddV(f, a, b)[..n] == AddV(f, a[..n], b[..n]);
      RightDistrib(f, a[n], b[n], x[n]);
      Shuffle(f, Dot(f, a[..n], x[..n]), Dot(f, b[..n], x[..n]), f.mul(a[n], x[n]), f.mul(b[n], x[n]));
    }
  }

  lemma {:induction false} DotComm<T(!new)>(f: Field<T>, a: Vec<T>, x: Vec<T>)
    requires Laws(f) && |a| == |x|
    ensures Dot(f, a, x) == Dot(f, x, a)
  {
    if a != [] {
      DotComm(f, a[..|a|-1], x[..|x|-1]);
      assert MulComm(f, a[|a|-1], x[|x|-1]);
    }
  }

  lemma DotAddRight<T(!new)>(f: Field<T>, a: Vec<T>, x: Vec<T>, y: Vec<T>)
    requires Laws(f) && |a| == |x| == |y|
    ensures Dot(f, a, AddV(f, x, y)) == f.add(Dot(f, a, x), Dot(f, a, y))
  {
    DotComm(f, a, AddV(f, x, y));
    DotComm(f, a, x);
    DotComm(f, a, y);
    DotAdd(f, x, y, a);
  }

  lemma {:induction false} DotZeros<T(!new)>(f: Field<T>, n: nat, x: Vec<T>)
    requires Laws(f) && |x| == n
    ensures Dot(f, Zeros(f, n), x) == f.zero
  {
    if n > 0 {
      DotZeros(f, n - 1, x[..n-1]);
      assert Zeros(f, n)[..n-1] == Zeros(f, n - 1);
      assert MulZero(f, x[n-1]) && AddZero(f, f.zero);
    }
  }

  lemma {:induction false} DotUnit<T(!new)>(f: Field<T>, n: nat, i: nat, x: Vec<T>)
    requires Laws(f) && |x| == n
    ensures Dot(f, Unit(f, n, i), x) == if i < n then x[i] else f.zero
  {
    if n > 0 {
      DotUnit(f, n - 1, i, x[..n-1]);
      assert Unit(f, n, i)[..n-1] == Unit(f, n - 1, i);
      assert MulZero(f, x[n-1]) && MulOne(f, x[n-1]) && AddZero(f, x[n-1]) && AddZero(f, if i < n - 1 then x[i] else f.zero);
    }
  }

  lemma DotAddScaled<T(!new)>(f: Field<T>, a: Vec<T>, k: T, b: Vec<T>, x: Vec<T>)
    requires Laws(f) && |a| == |b| == |x|
    ensures Dot(f, AddScaled(f, a, k, b), x) == f.add(Dot(f, a, x), f.mul(k, Dot(f, b, x)))
  {
    DotAdd(f, a, Scale(f, k, b), x);
    DotScale(f, k, b, x);
  }

  // ---------------------------------------------------------------- what row operations keep

  /** One row of the augmented matrix [A | B]. */
  datatype AugRow<T> = AugRow(left: Vec<T>, right: Vec<T>)

  type Aug<T> = seq<AugRow<T>>

  predicate IsAug<T>(aug: Aug<T>, n: nat) {
    |aug| == n && forall i :: 0 <= i < n ==> |aug[i].left| == n && |aug[i].right| == n
  }

  ghost predicate Kills<T>(f: Field<T>, v: Vec<T>, x: Vec<T>) { |v| == |x| && Dot(f, v, x) == f.zero }

  ghost predicate InKernel<T>(f: Field<T>, m: Rows<T>, x: Vec<T>) {
    forall i :: 0 <= i < |m| ==> Kills(f, m[i], x)
  }

  ghost predicate LeftKills<T>(f: Field<T>, aug: Aug<T>, x: Vec<T>) {
    forall i :: 0 <= i < |aug| ==> Kills(f, aug[i].left, x)
  }

  ghost predicate RightKills<T>(f: Field<T>, aug: Aug<T>, z: Vec<T>) {
    forall i :: 0 <= i < |aug| ==> Kills(f, aug[i].right, z)
  }

  // The three facts below are stated for one vector each, so that they are used only where asked for.

  /** A x == B (M x), for this row. */
  ghost predicate Tracks<T>(f: Field<T>, m: Rows<T>, n: nat, w: AugRow<T>, x: Vec<T>)
    requires IsMatrix(m, n, n) && |w.left| == n && |w.right| == n
  {
    |x| == n ==> Dot(f, w.left, x) == Dot(f, w.right, MatVec(f, m, x))
  }

  /** A x == 0 only if M x == 0. */
  ghost predicate KernelKept<T>(f: Field<T>, m: Rows<T>, n: nat, aug: Aug<T>, x: Vec<T>) {
    |x| == n && LeftKills(f, aug, x) ==> InKernel(f, m, x)
  }

  /** B z == 0 only if z == 0. */
  ghost predicate NothingLost<T>(f: Field<T>, n: nat, aug: Aug<T>, z: Vec<T>) {
    |z| == n && RightKills(f, aug, z) ==> z == Zeros(f, n)
  }

  /** [A | B] was reached from [M | I] by reversible row operations. */
  ghost predicate Sound<T(!new)>(f: Field<T>, m: Rows<T>, n: nat, aug: Aug<T>)
    requires IsMatrix(m, n, n)
  {
    && IsAug(aug, n)
    && (forall i, x :: 0 <= i < n ==> Tracks(f, m, n, aug[i], x))
    && (forall x :: KernelKept(f, m, n, aug, x))
    && (forall z :: NothingLost(f, n, aug, z))
  }

  function Augment<T>(f: Field<T>, m: Rows<T>, n: nat): (aug: Aug<T>)
    requires IsMatrix(m, n, n)
    ensures |aug| == n && forall i :: 0 <= i < n ==> aug[i] == AugRow(m[i], Unit(f, n, i))
  {
    seq(n, i requires 0 <= i < n => AugRow(m[i], Unit(f, n, i)))
  }

  lemma AugmentIsSound<T(!new)>(f: Field<T>, m: Rows<T>, n: nat)
    requires Laws(f) && IsMatrix(m, n, n)
    ensures Sound(f, m, n, Augment(f, m, n))
  {
    var aug := Augment(f, m, n);
    forall i, x | 0 <= i < n ensures Tracks(f, m, n, aug[i], x) {
      if |x| == n { DotUnit(f, n, i, MatVec(f, m, x)); }
    }
    forall x ensures KernelKept(f, m, n, aug, x) {
      if LeftKills(f, aug, x) {
        forall i | 0 <= i < n ensures Kills(f, m[i], x) { assert Kills(f, aug[i].left, x); }
      }
    }
    forall z ensures NothingLost(f, n, aug, z) {
      if |z| == n && RightKills(f, aug, z) {
        forall i | 0 <= i < n ensures z[i] == f.zero {
          DotUnit(f, n, i, z);
          assert Kills(f, aug[i].right, z);
        }
      }
    }
  }

  /** Swapping rows i and j. */
  function Swapped<T>(aug: Aug<T>, i: nat, j: nat): Aug<T>
    requires i < |aug| && j < |aug|
  {
    aug[i := aug[j]][j := aug[i]]
  }

  lemma SwapKeeps<T(!new)>(f: Field<T>, m: Rows<T>, n: nat, aug: Aug<T>, i: nat, j: nat)
    requires IsMatrix(m, n, n) && Sound(f, m, n, aug) && i < n && j < n
    ensures Sound(f, m, n, Swapped(aug, i, j))
  {
    var s := Swapped(aug, i, j);
    assert forall k :: 0 <= k < n ==> s[k] == aug[Other(i, j, k)] && aug[k] == s[Other(i, j, k)];
    forall k, x | 0 <= k < n ensures Tracks(f, m, n, s[k], x) { assert Tracks(f, m, n, aug[Other(i, j, k)], x); }
    forall x ensures KernelKept(f, m, n, s, x) {
      assert KernelKept(f, m, n, aug, x);
      if LeftKills(f, s, x) { assert LeftKills(f, aug, x); }
    }
    forall z ensures NothingLost(f, n, s, z) {
      assert NothingLost(f, n, aug, z);
      if RightKills(f, s, z) { assert RightKills(f, aug, z); }
    }
  }

  function Other(i: nat, j: nat, k: nat): nat { if k == i then j else if k == j then i else k }

  function ScaledRow<T>(f: Field<T>, k: T, w: AugRow<T>): AugRow<T> {
    AugRow(Scale(f, k, w.left), Scale(f, k, w.right))
  }

  lemma KillsScaled<T(!new)>(f: Field<T>, k: T, v: Vec<T>, x: Vec<T>)
    requires Laws(f) && k != f.zero && Kills(f, Scale(f, k, v), x)
    ensures Kills(f, v, x)
  {
    DotScale(f, k, v, x);
    NoZeroDivisors(f, k, Dot(f, v, x));
  }

  lemma ScaleKeeps<T(!new)>(f: Field<T>, m: Rows<T>, n: nat, aug: Aug<T>, i: nat, k: T)
    requires Laws(f) && IsMatrix(m, n, n) && Sound(f, m, n, aug) && i < n && k != f.zero
    ensures Sound(f, m, n, aug[i := ScaledRow(f, k, aug[i])])
  {
    var s := aug[i := ScaledRow(f, k, aug[i])];
    forall j, x | 0 <= j < n ensures Tracks(f, m, n, s[j], x) {
      assert Tracks(f, m, n, aug[j], x);
      if j == i && |x| == n {
        DotScale(f, k, aug[i].left, x);
        DotScale(f, k, aug[i].right, MatVec(f, m, x));
      }
    }
    forall x ensures KernelKept(f, m, n, s, x) {
      assert KernelKept(f, m, n, aug, x);
      if LeftKills(f, s, x) {
        forall j | 0 <= j < n ensures Kills(f, aug[j].left, x) {
          assert Kills(f, s[j].left, x);
          if j == i { KillsScaled(f, k, aug[i].left, x); }
        }
      }
    }
    forall z ensures NothingLost(f, n, s, z) {
      assert NothingLost(f, n, aug, z);
      if RightKills(f, s, z) {
        forall j | 0 <= j < n ensures Kills(f, aug[j].right, z) {
          assert Kills(f, s[j].right, z);
          if j == i { KillsScaled(f, k, aug[i].right, z); }
        }
      }
    }
  }

  function CombinedRow<T>(f: Field<T>, w: AugRow<T>, k: T, v: AugRow<T>): AugRow<T>
    requires |w.left| == |v.left| && |w.right| == |v.right|
  {
    AugRow(AddScaled(f, w.left, k, v.left), AddScaled(f, w.right, k, v.right))
  }

  lemma KillsCombined<T(!new)>(f: Field<T>, a: Vec<T>, k: T, b: Vec<T>, x: Vec<T>)
    requires Laws(f) && |a| == |b| && Kills(f, AddScaled(f, a, k, b), x) && Kills(f, b, x)
    ensures Kills(f, a, x)
  {
    DotAddScaled(f, a, k, b, x);
    assert MulZero(f, k) && AddZero(f, Dot(f, a, x));
  }

  lemma EliminateKeeps<T(!new)>(f: Field<T>, m: Rows<T>, n: nat, aug: Aug<T>, i: nat, k: T, j: nat)
    requires Laws(f) && IsMatrix(m, n, n) && Sound(f, m, n, aug) && i < n && j < n && i != j
    ensures Sound(f, m, n, aug[i := CombinedRow(f, aug[i], k, aug[j])])
  {
    var s := aug[i := CombinedRow(f, aug[i], k, aug[j])];
    forall l, x | 0 <= l < n ensures Tracks(f, m, n, s[l], x) {
      assert Tracks(f, m, n, aug[l], x) && Tracks(f, m, n, aug[j], x);
      if l == i && |x| == n {
        DotAddScaled(f, aug[i].left, k, aug[j].left, x);
        DotAddScaled(f, aug[i].right, k, aug[j].right, MatVec(f, m, x));
      }
    }
    forall x ensures KernelKept(f, m, n, s, x) {
      assert KernelKept(f, m, n, aug, x);
      if LeftKills(f, s, x) {
        assert Kills(f, s[j].left, x);
        forall l | 0 <= l < n ensures Kills(f, aug[l].left, x) {
          assert Kills(f, s[l].left, x);
          if l == i { KillsCombined(f, aug[i].left, k, aug[j].left, x); }
        }
      }
    }
    forall z ensures NothingLost(f, n, s, z) {
      assert NothingLost(f, n, aug, z);
      if RightKills(f, s, z) {
        assert Kills(f, s[j].right, z);
        forall l | 0 <= l < n ensures Kills(f, aug[l].right, z) {
          assert Kills(f, s[l].right, z);
          if l == i { KillsCombined(f, aug[i].right, k, aug[j].right, z); }
        }
      }
    }
  }

  // ---------------------------------------------------------------- Gauss-Jordan

  /** Columns of A below `col` are those of the identity. */
  ghost predicate UnitColumns<T>(f: Field<T>, aug: Aug<T>, n: nat, col: nat)
    requires IsAug(aug, n) && col <= n
  {
    forall i, j :: 0 <= i < n && 0 <= j < col ==> aug[i].left[j] == if i == j then f.one else f.zero
  }

  /** r (m x) == x, for this vector. */
  ghost predicate Undoes<T>(f: Field<T>, r: Rows<T>, m: Rows<T>, n: nat, x: Vec<T>)
    requires IsMatrix(m, n, n) && IsMatrix(r, n, n)
  {
    |x| == n ==> MatVec(f, r, MatVec(f, m, x)) == x
  }

  /** m z == 0 only for z == 0. */
  ghost predicate OnlyZero<T>(f: Field<T>, m: Rows<T>, n: nat, z: Vec<T>) {
    |z| == n && InKernel(f, m, z) ==> z == Zeros(f, n)
  }

  ghost predicate LeftInverse<T(!new)>(f: Field<T>, r: Rows<T>, m: Rows<T>, n: nat)
    requires IsMatrix(m, n, n) && IsMatrix(r, n, n)
  {
    forall x :: Undoes(f, r, m, n, x)
  }

  ghost predicate Injective<T(!new)>(f: Field<T>, m: Rows<T>, n: nat) {
    forall z :: OnlyZero(f, m, n, z)
  }

  /** A vector the partly reduced matrix sends to zero, when column `col` has no pivot left. */
  function Dependent<T>(f: Field<T>, aug: Aug<T>, n: nat, col: nat): (x: Vec<T>)
    requires IsAug(aug, n) && col < n
    ensures |x| == n
    ensures forall j :: 0 <= j < n ==> x[j] == if j < col then aug[j].left[col] else if j == col then f.one else f.zero
  {
    seq(n, j requires 0 <= j < n => if j < col then aug[j].left[col] else if j == col then f.one else f.zero)
  }

  /** Row i against that vector, over its first k columns. */
  lemma {:induction false} DependentPrefix<T(!new)>(f: Field<T>, aug: Aug<T>, n: nat, col: nat, i: nat, x: Vec<T>, k: nat)
    requires Laws(f) && IsAug(aug, n) && col < n && i < n && k <= n && UnitColumns(f, aug, n, col)
    requires x == Dependent(f, aug, n, col)
    requires forall l :: col <= l < n ==> aug[l].left[col] == f.zero
    ensures Dot(f, aug[i].left[..k], x[..k]) == if i < k <= col then aug[i].left[col] else f.zero
  {
    if k > 0 {
      var a := aug[i].left;
      DependentPrefix(f, aug, n, col, i, x, k - 1);
      assert a[..k][..k-1] == a[..k-1] && x[..k][..k-1] == x[..k-1];
      assert MulZero(f, x[k-1]) && MulZero(f, a[k-1]) && MulOne(f, x[k-1]) && MulOne(f, a[k-1]);
      assert AddZero(f, x[k-1]) && AddZero(f, a[col]) && AddZero(f, f.zero) && AddSelf(f, a[col]);
    }
  }

  lemma SingularWitness<T(!new)>(f: Field<T>, m: Rows<T>, n: nat, aug: Aug<T>, col: nat)
    requires Laws(f) && IsMatrix(m, n, n) && Sound(f, m, n, aug) && col < n && UnitColumns(f, aug, n, col)
    requires forall l :: col <= l < n ==> aug[l].left[col] == f.zero
    ensures !Injective(f, m, n)
  {
    var x := Dependent(f, aug, n, col);
    forall i | 0 <= i < n ensures Kills(f, aug[i].left, x) {
      DependentPrefix(f, aug, n, col, i, x, n);
      assert aug[i].left[..n] == aug[i].left && x[..n] == x;
    }
    assert KernelKept(f, m, n, aug, x);
    assert x[col] != f.zero;
    assert !OnlyZero(f, m, n, x);
  }

  method FindPivot<T(==, !new)>(f: Field<T>, aug: Aug<T>, n: nat, col: nat) returns (p: nat)
    requires IsAug(aug, n) && col < n
    ensures col <= p <= n && (p < n ==> aug[p].left[col] != f.zero)
    ensures p == n ==> forall l :: col <= l < n ==> aug[l].left[col] == f.zero
  {
    p := col;
    while p < n && aug[p].left[col] == f.zero
      invariant col <= p <= n && forall l :: col <= l < p ==> aug[l].left[col] == f.zero
    {
      p := p + 1;
    }
  }

  lemma SwapColumns<T(!new)>(f: Field<T>, aug: Aug<T>, n: nat, col: nat, p: nat)
    requires IsAug(aug, n) && col <= p < n && UnitColumns(f, aug, n, col)
    ensures IsAug(Swapped(aug, col, p), n) && UnitColumns(f, Swapped(aug, col, p), n, col)
  {
  }

  lemma ScaleColumns<T(!new)>(f: Field<T>, aug: Aug<T>, n: nat, col: nat, k: T)
    requires Laws(f) && IsAug(aug, n) && col < n && UnitColumns(f, aug, n, col)
    ensures IsAug(aug[col := ScaledRow(f, k, aug[col])], n) && UnitColumns(f, aug[col := ScaledRow(f, k, aug[col])], n, col)
  {
    assert MulZero(f, k);
  }

  lemma EliminateColumns<T(!new)>(f: Field<T>, aug: Aug<T>, n: nat, col: nat, row: nat)
    requires Laws(f) && IsAug(aug, n) && col < n && row < n && row != col && UnitColumns(f, aug, n, col)
    requires aug[col].left[col] == f.one
    ensures
      var s := aug[row := CombinedRow(f, aug[row], aug[row].left[col], aug[col])];
      IsAug(s, n) && UnitColumns(f, s, n, col) && s[row].left[col] == f.zero
  {
    var k := aug[row].left[col];
    assert MulZero(f, k) && MulOne(f, k) && AddSelf(f, k);
    assert forall j :: 0 <= j < col ==> AddZero(f, aug[row].left[j]);
  }

  /** Clear column `col` from every row but its own. */
  method EliminateColumn<T(==, !new)>(f: Field<T>, m: Rows<T>, n: nat, start: Aug<T>, col: nat) returns (aug: Aug<T>)
    requires Laws(f) && IsMatrix(m, n, n) && Sound(f, m, n, start) && col < n && UnitColumns(f, start, n, col)
    requires start[col].left[col] == f.one
    ensures Sound(f, m, n, aug) && UnitColumns(f, aug, n, col + 1)
  {
    aug := start;
    for row := 0 to n
      invariant Sound(f, m, n, aug) && UnitColumns(f, aug, n, col) && aug[col] == start[col]
      invariant forall i :: 0 <= i < row ==> aug[i].left[col] == if i == col then f.one else f.zero
    {
      if row == col || aug[row].left[col] == f.zero { continue; }
      var factor := aug[row].left[col];
      EliminateKeeps(f, m, n, aug, row, factor, col);
      EliminateColumns(f, aug, n, col, row);
      aug := aug[row := CombinedRow(f, aug[row], factor, aug[col])];
    }
  }

  lemma ReducedGivesInverse<T(!new)>(f: Field<T>, m: Rows<T>, n: nat, aug: Aug<T>, r: Rows<T>)
    requires Laws(f) && IsMatrix(m, n, n) && Sound(f, m, n, aug) && UnitColumns(f, aug, n, n)
    requires |r| == n && forall i :: 0 <= i < n ==> r[i] == aug[i].right
    ensures IsMatrix(r, n, n) && LeftInverse(f, r, m, n) && Injective(f, r, n)
  {
    forall x ensures Undoes(f, r, m, n, x) {
      if |x| == n {
        var y := MatVec(f, m, x);
        forall i | 0 <= i < n ensures MatVec(f, r, y)[i] == x[i] {
          assert Tracks(f, m, n, aug[i], x);
          assert aug[i].left == Unit(f, n, i);
          DotUnit(f, n, i, x);
        }
      }
    }
    forall z ensures OnlyZero(f, r, n, z) {
      assert NothingLost(f, n, aug, z);
      if InKernel(f, r, z) {
        forall i | 0 <= i < n ensures Kills(f, aug[i].right, z) { assert Kills(f, r[i], z); }
      }
    }
  }

  /** invertMatrix: an inverse exactly when the matrix is injective, an error otherwise. */
  method InvertMatrix<T(==, !new)>(f: Field<T>, m: Rows<T>, n: nat) returns (r: Option<Rows<T>>)
    requires Laws(f) && IsMatrix(m, n, n)
    ensures r.Some? ==> IsMatrix(r.value, n, n) && LeftInverse(f, r.value, m, n) && Injective(f, r.value, n)
    ensures r.None? <==> !Injective(f, m, n)
  {
    var aug := Augment(f, m, n);
    AugmentIsSound(f, m, n);
    for col := 0 to n
      invariant Sound(f, m, n, aug) && UnitColumns(f, aug, n, col)
    {
      var p := FindPivot(f, aug, n, col);
      if p == n {
        SingularWitness(f, m, n, aug, col);
        return None;
      }
      SwapKeeps(f, m, n, aug, col, p);
      SwapColumns(f, aug, n, col, p);
      aug := Swapped(aug, col, p);
      var pivot := aug[col].left[col];
      assert MulInv(f, pivot) && MulComm(f, pivot, f.inv(pivot));
      ScaleKeeps(f, m, n, aug, col, f.inv(pivot));
      ScaleColumns(f, aug, n, col, f.inv(pivot));
      aug := aug[col := ScaledRow(f, f.inv(pivot), aug[col])];
      aug := EliminateColumn(f, m, n, aug, col);
    }
    var inverse := seq(n, i requires 0 <= i < |aug| => aug[i].right);
    ReducedGivesInverse(f, m, n, aug, inverse);
    LeftInverseInjective(f, inverse, m, n);
    r := Some(inverse);
  }

  // ---------------------------------------------------------------- consequences

  /** A left inverse that loses nothing is an inverse on the other side as well. */
  lemma RightInverse<T(!new)>(f: Field<T>, r: Rows<T>, m: Rows<T>, n: nat, d: Vec<T>)
    requires Laws(f) && IsMatrix(m, n, n) && IsMatrix(r, n, n) && |d| == n
    requires LeftInverse(f, r, m, n) && Injective(f, r, n)
    ensures MatVec(f, m, MatVec(f, r, d)) == d
  {
    var rd := MatVec(f, r, d);
    var e := MatVec(f, m, rd);
    var z := AddV(f, e, d);
    assert Undoes(f, r, m, n, rd);
    forall i | 0 <= i < n ensures Kills(f, r[i], z) {
      DotAddRight(f, r[i], e, d);
      assert MatVec(f, r, e)[i] == rd[i];
      assert AddSelf(f, Dot(f, r[i], d));
    }
    assert OnlyZero(f, r, n, z);
    forall i | 0 <= i < n ensures e[i] == d[i] {
      assert z[i] == f.zero;
      CancelSum(f, e[i], d[i]);
    }
  }

  /** A matrix with a left inverse is injective. */
  lemma LeftInverseInjective<T(!new)>(f: Field<T>, r: Rows<T>, m: Rows<T>, n: nat)
    requires Laws(f) && IsMatrix(m, n, n) && IsMatrix(r, n, n) && LeftInverse(f, r, m, n)
    ensures Injective(f, m, n)
  {
    forall z ensures OnlyZero(f, m, n, z) {
      if |z| == n && InKernel(f, m, z) {
        var y := MatVec(f, m, z);
        forall i | 0 <= i < n ensures y[i] == f.zero { assert Kills(f, m[i], z); }
        assert y == Zeros(f, n);
        assert Undoes(f, r, m, n, z);
        forall i | 0 <= i < n ensures z[i] == f.zero {
          DotComm(f, r[i], Zeros(f, n));
          DotZeros(f, n, r[i]);
          assert MatVec(f, r, y)[i] == Dot(f, r[i], y);
        }
      }
    }
  }

  // ---------------------------------------------------------------- a row times a matrix

  function Column<T>(m: Rows<T>, c: nat): (v: Vec<T>)
    requires forall i :: 0 <= i < |m| ==> c < |m[i]|
    ensures |v| == |m| && forall i :: 0 <= i < |v| ==> v[i] == m[i][c]
  {
    seq(|m|, i requires 0 <= i < |m| => m[i][c])
  }

  function RowTimes<T>(f: Field<T>, u: Vec<T>, m: Rows<T>, cols: nat): (w: Vec<T>)
    requires IsMatrix(m, |u|, cols)
    ensures |w| == cols && forall c :: 0 <= c < cols ==> w[c] == Dot(f, u, Column(m, c))
  {
    seq(cols, c requires 0 <= c < cols => Dot(f, u, Column(m, c)))
  }

  /** (u M) x == u (M x) */
  lemma {:induction false} RowTimesVec<T(!new)>(f: Field<T>, u: Vec<T>, m: Rows<T>, cols: nat, x: Vec<T>)
    requires Laws(f) && IsMatrix(m, |u|, cols) && |x| == cols
    ensures Dot(f, RowTimes(f, u, m, cols), x) == Dot(f, u, MatVec(f, m, x))
  {
    var w := RowTimes(f, u, m, cols);
    if u == [] {
      assert w == Zeros(f, cols) by {
        forall c | 0 <= c < cols ensures w[c] == f.zero { assert Column(m, c) == []; }
      }
      DotZeros(f, cols, x);
    } else {
      var n := |u| - 1;
      RowTimesVec(f, u[..n], m[..n], cols, x);
      var w' := RowTimes(f, u[..n], m[..n], cols);
      assert w == AddScaled(f, w', u[n], m[n]) by {
        forall c | 0 <= c < cols ensures w[c] == f.add(w'[c], f.mul(u[n], m[n][c])) {
          assert Column(m, c)[..n] == Column(m[..n], c);
        }
      }
      DotAdd(f, w', Scale(f, u[n], m[n]), x);
      DotScale(f, u[n], m[n], x);
      assert MatVec(f, m, x)[..n] == MatVec(f, m[..n], x);
    }
  }
}
