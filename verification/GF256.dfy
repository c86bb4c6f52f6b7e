/** What the codec needs of its arithmetic: a field in which every element is its own opposite. */
module Fields {

  datatype Field<!T> = Field(zero: T, one: T, add: (T, T) -> T, mul: (T, T) -> T, inv: T -> T)

  // Each law is a predicate of its own, so that it is used only where it is asked for.

  ghost predicate AddComm<T>(f: Field<T>, a: T, b: T) { f.add(a, b) == f.add(b, a) }

  ghost predicate AddAssoc<T>(f: Field<T>, a: T, b: T, c: T) { f.add(f.add(a, b), c) == f.add(a, f.add(b, c)) }

  ghost predicate AddZero<T>(f: Field<T>, a: T) { f.add(a, f.zero) == a && f.add(f.zero, a) == a }

  ghost predicate AddSelf<T>(f: Field<T>, a: T) { f.add(a, a) == f.zero }

  ghost predicate MulComm<T>(f: Field<T>, a: T, b: T) { f.mul(a, b) == f.mul(b, a) }

  ghost predicate MulAssoc<T>(f: Field<T>, a: T, b: T, c: T) { f.mul(f.mul(a, b), c) == f.mul(a, f.mul(b, c)) }

  ghost predicate MulOne<T>(f: Field<T>, a: T) { f.mul(a, f.one) == a && f.mul(f.one, a) == a }

  ghost predicate MulZero<T>(f: Field<T>, a: T) { f.mul(a, f.zero) == f.zero && f.mul(f.zero, a) == f.zero }

  ghost predicate Distrib<T>(f: Field<T>, a: T, b: T, c: T) {
    f.mul(a, f.add(b, c)) == f.add(f.mul(a, b), f.mul(a, c))
  }

  ghost predicate MulInv<T>(f: Field<T>, a: T) {
    a != f.zero ==> f.mul(a, f.inv(a)) == f.one && f.inv(a) != f.zero
  }

  ghost predicate Laws<T(!new)>(f: Field<T>) {
    && f.one != f.zero
    && (forall a, b :: AddComm(f, a, b)) && (forall a, b, c :: AddAssoc(f, a, b, c))
    && (forall a :: AddZero(f, a)) && (forall a :: AddSelf(f, a))
    && (forall a, b :: MulComm(f, a, b)) && (forall a, b, c :: MulAssoc(f, a, b, c))
    && (forall a :: MulOne(f, a)) && (forall a :: MulZero(f, a))
    && (forall a, b, c :: Distrib(f, a, b, c)) && (forall a :: MulInv(f, a))
  }

  lemma NoZeroDivisors<T(!new)>(f: Field<T>, a: T, b: T)
    requires Laws(f) && f.mul(a, b) == f.zero && a != f.zero
    ensures b == f.zero
  {
    var i := f.inv(a);
    assert MulInv(f, a) && MulComm(f, a, i) && MulAssoc(f, i, a, b) && MulOne(f, b) && MulZero(f, i);
  }

  /** a + b == 0 only when a == b. */
  lemma CancelSum<T(!new)>(f: Field<T>, a: T, b: T)
    requires Laws(f) && f.add(a, b) == f.zero
    ensures a == b
  {
    assert AddAssoc(f, a, b, b) && AddSelf(f, b) && AddZero(f, a) && AddZero(f, b);
  }
}

/**
  Arithmetic by logarithms: addition is given, and one injective additive map (doubling) runs through
  every non-zero element before it returns to one.
 */
module CyclicFields {
  import opened Fields

  datatype Gen<!T> = Gen(zero: T, one: T, add: (T, T) -> T, double: T -> T, order: nat)

  function Times<T>(g: Gen<T>, k: nat, x: T): T { if k == 0 then x else g.double(Times(g, k - 1, x)) }

  /** The k-th power of the generator. */
  function Exp<T>(g: Gen<T>, k: nat): T { Times(g, k, g.one) }

  ghost predicate DoubleAdd<T>(g: Gen<T>, a: T, b: T) { g.double(g.add(a, b)) == g.add(g.double(a), g.double(b)) }

  ghost predicate DoubleInjective<T>(g: Gen<T>, a: T, b: T) { g.double(a) == g.double(b) ==> a == b }

  ghost predicate DoubleZero<T>(g: Gen<T>, a: T) { g.double(a) == g.zero <==> a == g.zero }

  predicate IsPower<T(==)>(g: Gen<T>, x: T) { exists i :: 0 <= i < g.order && Exp(g, i) == x }

  ghost predicate Additive<T(!new)>(g: Gen<T>) {
    && (forall a, b :: g.add(a, b) == g.add(b, a))
    && (forall a, b, c :: g.add(g.add(a, b), c) == g.add(a, g.add(b, c)))
    && (forall a :: g.add(a, g.zero) == a) && (forall a :: g.add(a, a) == g.zero)
  }

  ghost predicate Cyclic<T(!new)>(g: Gen<T>) {
    && g.order > 1 && g.one != g.zero
    && (forall a, b :: DoubleAdd(g, a, b)) && (forall a, b :: DoubleInjective(g, a, b)) && (forall a :: DoubleZero(g, a))
    && Exp(g, g.order) == g.one
    && (forall j :: 0 < j < g.order ==> Exp(g, j) != g.one)
    && (forall x :: x != g.zero ==> IsPower(g, x))
  }

  lemma {:induction false} TimesPlus<T(!new)>(g: Gen<T>, k: nat, x: T, y: T)
    requires Cyclic(g)
    ensures Times(g, k, g.add(x, y)) == g.add(Times(g, k, x), Times(g, k, y))
  {
    if k > 0 {
      TimesPlus(g, k - 1, x, y);
      assert DoubleAdd(g, Times(g, k - 1, x), Times(g, k - 1, y));
    }
  }

  lemma {:induction false} TimesSum<T>(g: Gen<T>, j: nat, k: nat, x: T)
    ensures Times(g, j + k, x) == Times(g, j, Times(g, k, x))
  {
    if j > 0 { TimesSum(g, j - 1, k, x); }
  }

  lemma {:induction false} TimesZero<T(!new)>(g: Gen<T>, k: nat, x: T)
    requires Cyclic(g)
    ensures Times(g, k, x) == g.zero <==> x == g.zero
  {
    if k > 0 {
      TimesZero(g, k - 1, x);
      assert DoubleZero(g, Times(g, k - 1, x));
    }
  }

  lemma {:induction false} TimesInjective<T(!new)>(g: Gen<T>, k: nat, x: T, y: T)
    requires Cyclic(g) && Times(g, k, x) == Times(g, k, y)
    ensures x == y
  {
    if k > 0 {
      assert DoubleInjective(g, Times(g, k - 1, x), Times(g, k - 1, y));
      TimesInjective(g, k - 1, x, y);
    }
  }

  lemma ExpInjective<T(!new)>(g: Gen<T>, i: nat, j: nat)
    requires Cyclic(g) && i < g.order && j < g.order && Exp(g, i) == Exp(g, j)
    ensures i == j
  {
    var a, b := if i < j then i else j, if i < j then j else i;
    TimesSum(g, a, b - a, g.one);
    TimesInjective(g, a, g.one, Exp(g, b - a));
  }

  // ---------------------------------------------------------------- logarithms

  function Search<T(==)>(g: Gen<T>, x: T, n: nat): nat {
    if n == 0 then 0 else if Exp(g, n - 1) == x then n - 1 else Search(g, x, n - 1)
  }

  /** gfLog */
  function Log<T(==)>(g: Gen<T>, x: T): nat { Search(g, x, g.order) }

  lemma {:induction false} SearchFinds<T>(g: Gen<T>, x: T, n: nat, i: nat)
    requires i < n && Exp(g, i) == x
    ensures Search(g, x, n) < n && Exp(g, Search(g, x, n)) == x
  {
    if Exp(g, n - 1) != x { SearchFinds(g, x, n - 1, i); }
  }

  lemma LogFinds<T(!new)>(g: Gen<T>, x: T)
    requires Cyclic(g) && x != g.zero
    ensures Log(g, x) < g.order && Exp(g, Log(g, x)) == x
  {
    assert IsPower(g, x);
    var i :| 0 <= i < g.order && Exp(g, i) == x;
    SearchFinds(g, x, g.order, i);
  }

  // ---------------------------------------------------------------- product and inverse

  /** gfMul */
  function Mul<T(==)>(g: Gen<T>, a: T, b: T): T {
    if a == g.zero || b == g.zero then g.zero else Exp(g, Log(g, a) + Log(g, b))
  }

  /** gfInv; zero where the program panics. */
  function Inv<T(==)>(g: Gen<T>, a: T): T {
    if a == g.zero || Log(g, a) > g.order then g.zero else Exp(g, g.order - Log(g, a))
  }

  lemma PowerSum<T>(g: Gen<T>, i: nat, j: nat, x: T)
    requires Exp(g, j) == x
    ensures Exp(g, i + j) == Times(g, i, x)
  {
    TimesSum(g, i, j, g.one);
  }

  lemma MulIsTimes<T(!new)>(g: Gen<T>, a: T, b: T)
    requires Cyclic(g) && a != g.zero
    ensures Mul(g, a, b) == Times(g, Log(g, a), b)
  {
    if b == g.zero {
      TimesZero(g, Log(g, a), g.zero);
    } else {
      LogFinds(g, b);
      PowerSum(g, Log(g, a), Log(g, b), b);
    }
  }

  lemma TimesOfEqualPowers<T(!new)>(g: Gen<T>, i: nat, j: nat, c: T)
    requires Cyclic(g) && Exp(g, i) == Exp(g, j)
    ensures Times(g, i, c) == Times(g, j, c)
  {
    if c == g.zero {
      TimesZero(g, i, c);
      TimesZero(g, j, c);
    } else {
      LogFinds(g, c);
      var k := Log(g, c);
      PowerSum(g, i, k, c); PowerSum(g, k, i, Exp(g, i));
      PowerSum(g, j, k, c); PowerSum(g, k, j, Exp(g, j));
    }
  }

  lemma MulZeroIff<T(!new)>(g: Gen<T>, a: T, b: T)
    requires Cyclic(g)
    ensures Mul(g, a, b) == g.zero <==> a == g.zero || b == g.zero
  {
    if a != g.zero {
      MulIsTimes(g, a, b);
      TimesZero(g, Log(g, a), b);
    }
  }

  lemma AssocNonZero<T(!new)>(g: Gen<T>, a: T, b: T, ab: T, c: T)
    requires Cyclic(g) && a != g.zero && b != g.zero && ab == Mul(g, a, b) && ab != g.zero
    ensures Mul(g, ab, c) == Times(g, Log(g, a), Times(g, Log(g, b), c))
  {
    MulIsTimes(g, ab, c);
    LogFinds(g, ab);
    TimesOfEqualPowers(g, Log(g, ab), Log(g, a) + Log(g, b), c);
    TimesSum(g, Log(g, a), Log(g, b), c);
  }

  lemma MulIsAssociative<T(!new)>(g: Gen<T>, a: T, b: T, c: T)
    requires Cyclic(g)
    ensures Mul(g, Mul(g, a, b), c) == Mul(g, a, Mul(g, b, c))
  {
    MulZeroIff(g, a, b);
    if a != g.zero && b != g.zero {
      AssocNonZero(g, a, b, Mul(g, a, b), c);
      MulIsTimes(g, b, c);
      MulIsTimes(g, a, Mul(g, b, c));
    }
  }

  lemma MulDistributes<T(!new)>(g: Gen<T>, a: T, b: T, c: T)
    requires Cyclic(g) && Additive(g)
    ensures Mul(g, a, g.add(b, c)) == g.add(Mul(g, a, b), Mul(g, a, c))
  {
    if a != g.zero {
      MulIsTimes(g, a, b); MulIsTimes(g, a, c); MulIsTimes(g, a, g.add(b, c));
      TimesPlus(g, Log(g, a), b, c);
    }
  }

  lemma InvInverts<T(!new)>(g: Gen<T>, a: T)
    requires Cyclic(g) && a != g.zero
    ensures Mul(g, a, Inv(g, a)) == g.one && Inv(g, a) != g.zero
  {
    LogFinds(g, a);
    var k: nat := g.order - Log(g, a);
    MulIsTimes(g, a, Inv(g, a));
    TimesZero(g, k, g.one);
    PowerSum(g, Log(g, a), k, Inv(g, a));
  }

  lemma OneIsUnit<T(!new)>(g: Gen<T>, a: T)
    requires Cyclic(g)
    ensures Mul(g, a, g.one) == a && Mul(g, g.one, a) == a
  {
    if a != g.zero {
      MulIsTimes(g, a, g.one);
      LogFinds(g, a);
    }
  }

  function FieldOf<T(==)>(g: Gen<T>): Field<T> {
    Field(g.zero, g.one, g.add, (a, b) => Mul(g, a, b), a => Inv(g, a))
  }

  /** Log-table arithmetic over any such generator is a field. */
  lemma LogArithmeticIsAField<T(!new)>(g: Gen<T>)
    requires Cyclic(g) && Additive(g)
    ensures Laws(FieldOf(g))
  {
    var f := FieldOf(g);
    forall a, b, c ensures MulAssoc(f, a, b, c) { MulIsAssociative(g, a, b, c); }
    forall a, b, c ensures Distrib(f, a, b, c) { MulDistributes(g, a, b, c); }
    forall a ensures MulInv(f, a) { if a != g.zero { InvInverts(g, a); } }
    forall a ensures MulOne(f, a) { OneIsUnit(g, a); }
  }

  // ---------------------------------------------------------------- the lookup tables

  /** The antilog table, doubled so that a sum of two logs needs no reduction, and the log table. */
  ghost predicate Tables<T(!new)>(g: Gen<T>, exp: seq<T>, log: map<T, nat>) {
    && |exp| > 2 * g.order && (forall i :: 0 <= i < |exp| ==> exp[i] == Exp(g, i))
    && (forall x :: x != g.zero ==> x in log && log[x] == Log(g, x))
  }

  lemma ExpWraps<T(!new)>(g: Gen<T>, i: nat)
    requires Cyclic(g) && i >= g.order
    ensures Exp(g, i) == Exp(g, i - g.order)
  {
    PowerSum(g, i - g.order, g.order, g.one);
  }

  method FillPowers<T(==, !new)>(g: Gen<T>) returns (exp: seq<T>, log: map<T, nat>)
    requires Cyclic(g)
    ensures |exp| == g.order && (forall i :: 0 <= i < g.order ==> exp[i] == Exp(g, i))
    ensures forall j :: 0 <= j < g.order ==> Exp(g, j) in log && log[Exp(g, j)] == j
  {
    exp, log := [], map[];
    var x := g.one;
    for i := 0 to g.order
      invariant x == Exp(g, i) && |exp| == i
      invariant forall j :: 0 <= j < i ==> exp[j] == Exp(g, j)
      invariant forall j :: 0 <= j < i ==> Exp(g, j) in log && log[Exp(g, j)] == j
    {
      forall j | 0 <= j < i ensures Exp(g, j) != x {
        if Exp(g, j) == x { ExpInjective(g, j, i); }
      }
      exp, log := exp + [x], log[x := i];
      x := g.double(x);
    }
  }

  /** init */
  method InitTables<T(==, !new)>(g: Gen<T>) returns (exp: seq<T>, log: map<T, nat>)
    requires Cyclic(g)
    ensures Tables(g, exp, log) && |exp| == 2 * g.order + 2
  {
    exp, log := FillPowers(g);
    for i := g.order to 2 * g.order + 2
      invariant |exp| == i && forall j :: 0 <= j < i ==> exp[j] == Exp(g, j)
    {
      ExpWraps(g, i);
      exp := exp + [exp[i - g.order]];
    }
    forall y | y != g.zero ensures y in log && log[y] == Log(g, y) {
      LogFinds(g, y);
    }
  }

  /** gfMul, on the tables, is the field's product. */
  method TableMul<T(==, !new)>(g: Gen<T>, exp: seq<T>, log: map<T, nat>, a: T, b: T) returns (r: T)
    requires Cyclic(g) && Tables(g, exp, log)
    ensures r == Mul(g, a, b)
  {
    if a == g.zero || b == g.zero { return g.zero; }
    LogFinds(g, a);
    LogFinds(g, b);
    r := exp[log[a] + log[b]];
  }
}

/** GF(2^8) with polynomial 0x11d, by powers of the generator 2, and its two lookup tables. */
module GF256 {
  import opened Fields
  import opened CyclicFields

  /** A byte as its bits, least significant first. */
  datatype Elem = Byte(b0: bool, b1: bool, b2: bool, b3: bool, b4: bool, b5: bool, b6: bool, b7: bool)

  function Zero(): Elem { Byte(false, false, false, false, false, false, false, false) }

  function One(): Elem { Byte(true, false, false, false, false, false, false, false) }

  /** x ^ y */
  function Xor(x: Elem, y: Elem): Elem {
    Byte(x.b0 != y.b0, x.b1 != y.b1, x.b2 != y.b2, x.b3 != y.b3, x.b4 != y.b4, x.b5 != y.b5, x.b6 != y.b6, x.b7 != y.b7)
  }

  /** x <<= 1; if x&0x100 != 0 { x ^= 0x11d } */
  function Double(x: Elem): Elem {
    Byte(x.b7, x.b0, x.b1 != x.b7, x.b2 != x.b7, x.b3 != x.b7, x.b4, x.b5, x.b6)
  }

  function Gf(): Gen<Elem> { Gen(Zero(), One(), Xor, Double, 255) }

  /** A power of 2, by doubling alone. */
  function Pow(k: nat): Elem { if k == 0 then One() else Double(Pow(k - 1)) }

  lemma {:induction false} PowIsExp(k: nat)
    ensures Exp(Gf(), k) == Pow(k)
  {
    if k > 0 { PowIsExp(k - 1); }
  }

  // ---------------------------------------------------------------- the order of 2

  // Multiplication by fixed powers of 2, bit by bit.

  /** x * 2^4 */
  function By4(x: Elem): Elem {
    Byte(
      x.b4,
      x.b5,
      x.b4 != x.b6,
      (x.b4 != x.b5) != x.b7,
      ((x.b0 != x.b4) != x.b5) != x.b6,
      ((x.b1 != x.b5) != x.b6) != x.b7,
      (x.b2 != x.b6) != x.b7,
      x.b3 != x.b7)
  }

  /** x * 2^8 */
  function By8(x: Elem): Elem {
    Byte(
      ((x.b0 != x.b4) != x.b5) != x.b6,
      ((x.b1 != x.b5) != x.b6) != x.b7,
      (((x.b0 != x.b2) != x.b4) != x.b5) != x.b7,
      ((x.b0 != x.b1) != x.b3) != x.b4,
      ((x.b0 != x.b1) != x.b2) != x.b6,
      ((x.b1 != x.b2) != x.b3) != x.b7,
      (x.b2 != x.b3) != x.b4,
      (x.b3 != x.b4) != x.b5)
  }

  /** x * 2^12 */
  function By12(x: Elem): Elem {
    Byte(
      ((x.b0 != x.b1) != x.b2) != x.b6,
      ((x.b1 != x.b2) != x.b3) != x.b7,
      (((x.b0 != x.b1) != x.b3) != x.b4) != x.b6,
      (((x.b0 != x.b4) != x.b5) != x.b6) != x.b7,
      (x.b2 != x.b5) != x.b7,
      x.b3 != x.b6,
      (x.b0 != x.b4) != x.b7,
      (x.b0 != x.b1) != x.b5)
  }

  /** x * 2^16 */
  function By16(x: Elem): Elem {
    Byte(
      (x.b2 != x.b5) != x.b7,
      x.b3 != x.b6,
      ((x.b0 != x.b2) != x.b4) != x.b5,
      ((((x.b0 != x.b1) != x.b2) != x.b3) != x.b6) != x.b7,
      ((x.b1 != x.b3) != x.b4) != x.b5,
      ((x.b2 != x.b4) != x.b5) != x.b6,
      (((x.b0 != x.b3) != x.b5) != x.b6) != x.b7,
      ((x.b1 != x.b4) != x.b6) != x.b7)
  }

  /** x * 2^17 */
  function By17(x: Elem): Elem {
    Byte(
      ((x.b1 != x.b4) != x.b6) != x.b7,
      (x.b2 != x.b5) != x.b7,
      ((x.b1 != x.b3) != x.b4) != x.b7,
      ((((x.b0 != x.b1) != x.b2) != x.b5) != x.b6) != x.b7,
      ((x.b0 != x.b2) != x.b3) != x.b4,
      ((x.b1 != x.b3) != x.b4) != x.b5,
      ((x.b2 != x.b4) != x.b5) != x.b6,
      (((x.b0 != x.b3) != x.b5) != x.b6) != x.b7)
  }

  lemma FourUp(k: nat)
    ensures Pow(k + 4) == By4(Pow(k))
  {
    assert Pow(k + 1) == Double(Pow(k));
    assert Pow(k + 2) == Double(Pow(k + 1));
    assert Pow(k + 3) == Double(Pow(k + 2));
  }

  lemma By8Is4Twice(x: Elem)
    ensures By8(x) == By4(By4(x))
  {
  }

  lemma By12Is8Then4(x: Elem)
    ensures By12(x) == By4(By8(x))
  {
  }

  lemma By16Is12Then4(x: Elem)
    ensures By16(x) == By4(By12(x))
  {
  }

  lemma By17IsDoubled(x: Elem)
    ensures By17(x) == Double(By16(x))
  {
  }

  /** From 2^k to 2^(k+17). */
  lemma SeventeenUp(k: nat)
    ensures Pow(k + 17) == By17(Pow(k))
  {
    var x := Pow(k);
    FourUp(k);
    FourUp(k + 4);
    FourUp(k + 8);
    FourUp(k + 12);
    By8Is4Twice(x);
    By12Is8Then4(x);
    By16Is12Then4(x);
    By17IsDoubled(x);
    assert Pow(k + 17) == Double(Pow(k + 16));
  }

  /** The byte written in binary. */
  function Bin(b7: int, b6: int, b5: int, b4: int, b3: int, b2: int, b1: int, b0: int): Elem {
    Byte(b0 == 1, b1 == 1, b2 == 1, b3 == 1, b4 == 1, b5 == 1, b6 == 1, b7 == 1)
  }

  lemma Step(k: nat, x: Elem, y: Elem)
    requires Pow(k) == x && y == By17(x)
    ensures Pow(k + 17) == y
  {
    SeventeenUp(k);
  }

  lemma From0To51(k: nat)
    requires Pow(k) == Bin(0, 0, 0, 0, 0, 0, 0, 1)
    ensures Pow(k + 51) == Bin(0, 0, 0, 0, 1, 0, 1, 0)
  {
    Step(k + 0, Bin(0, 0, 0, 0, 0, 0, 0, 1), Bin(1, 0, 0, 1, 1, 0, 0, 0));
    Step(k + 17, Bin(1, 0, 0, 1, 1, 0, 0, 0), Bin(0, 1, 0, 0, 1, 1, 1, 0));
    Step(k + 34, Bin(0, 1, 0, 0, 1, 1, 1, 0), Bin(0, 0, 0, 0, 1, 0, 1, 0));
  }

  lemma From51To85(k: nat)
    requires Pow(k) == Bin(0, 0, 0, 0, 1, 0, 1, 0)
    ensures Pow(k + 34) == Bin(1, 1, 0, 1, 0, 1, 1, 0)
  {
    Step(k + 0, Bin(0, 0, 0, 0, 1, 0, 1, 0), Bin(1, 0, 0, 1, 1, 0, 0, 1));
    Step(k + 17, Bin(1, 0, 0, 1, 1, 0, 0, 1), Bin(1, 1, 0, 1, 0, 1, 1, 0));
  }

  lemma From85To170(k: nat)
    requires Pow(k) == Bin(1, 1, 0, 1, 0, 1, 1, 0)
    ensures Pow(k + 85) == Bin(1, 1, 0, 1, 0, 1, 1, 1)
  {
    Step(k + 0, Bin(1, 1, 0, 1, 0, 1, 1, 0), Bin(0, 1, 0, 0, 0, 1, 0, 0));
    Step(k + 17, Bin(0, 1, 0, 0, 0, 1, 0, 0), Bin(1, 0, 0, 1, 0, 0, 1, 1));
    Step(k + 34, Bin(1, 0, 0, 1, 0, 0, 1, 1), Bin(0, 1, 0, 0, 1, 1, 1, 1));
    Step(k + 51, Bin(0, 1, 0, 0, 1, 1, 1, 1), Bin(1, 0, 0, 1, 0, 0, 1, 0));
    Step(k + 68, Bin(1, 0, 0, 1, 0, 0, 1, 0), Bin(1, 1, 0, 1, 0, 1, 1, 1));
  }

  lemma From170To255(k: nat)
    requires Pow(k) == Bin(1, 1, 0, 1, 0, 1, 1, 1)
    ensures Pow(k + 85) == Bin(0, 0, 0, 0, 0, 0, 0, 1)
  {
    Step(k + 0, Bin(1, 1, 0, 1, 0, 1, 1, 1), Bin(1, 1, 0, 1, 1, 1, 0, 0));
    Step(k + 17, Bin(1, 1, 0, 1, 1, 1, 0, 0), Bin(1, 1, 0, 1, 1, 1, 0, 1));
    Step(k + 34, Bin(1, 1, 0, 1, 1, 1, 0, 1), Bin(0, 1, 0, 0, 0, 1, 0, 1));
    Step(k + 51, Bin(0, 1, 0, 0, 0, 1, 0, 1), Bin(0, 0, 0, 0, 1, 0, 1, 1));
    Step(k + 68, Bin(0, 0, 0, 0, 1, 0, 1, 1), Bin(0, 0, 0, 0, 0, 0, 0, 1));
  }

  /** 2^15, 2^51 and 2^85 are not one; 2^255 is. (The exponents stand off a variable that is zero.) */
  lemma PowersOfTwo(k: nat)
    requires k == 0
    ensures Pow(k + 15) != One() && Pow(k + 51) != One() && Pow(k + 85) != One() && Pow(k + 255) == One()
  {
    From0To51(k);
    From51To85(k + 51);
    From85To170(k + 85);
    From170To255(k + 170);
    SeventeenUp(k);
    assert Pow(k + 16) == Double(Pow(k + 15));
    assert Pow(k + 17) == Double(Pow(k + 16));
  }

  lemma {:induction false} PowSum(j: nat, k: nat)
    requires Pow(k) == One()
    ensures Pow(j + k) == Pow(j)
  {
    if j > 0 { PowSum(j - 1, k); }
  }

  lemma {:induction false} MultiplesOfPeriod(p: nat, m: nat)
    requires Pow(p) == One()
    ensures Pow(m * p) == One()
  {
    if m > 0 {
      MultiplesOfPeriod(p, m - 1);
      assert m * p == p + (m - 1) * p;
      PowSum(p, (m - 1) * p);
    }
  }

  lemma {:induction false} LeastPeriod(i: nat, order: nat) returns (p: nat)
    requires 0 < i <= order && Pow(order) == One() && forall j :: 0 < j < i ==> Pow(j) != One()
    ensures 0 < p <= order && Pow(p) == One() && forall j :: 0 < j < p ==> Pow(j) != One()
    decreases order - i
  {
    if Pow(i) == One() { p := i; } else { p := LeastPeriod(i + 1, order); }
  }

  /** A proper divisor of 255 divides 85, 51 or 15. */
  lemma DivisorsOf255(p: nat, q: nat) returns (m: nat)
    requires p * q == 255 && q > 1
    ensures m * p == 85 || m * p == 51 || m * p == 15
  {
    if q >= 16 {
      BigFactor(p, q);
      assert p == 1 || p == 3 || p == 5 || p == 15 by { SmallFactor(p, q); }
      m := if p == 1 then 15 else if p == 3 then 5 else if p == 5 then 3 else 1;
    } else {
      assert q == 3 || q == 5 || q == 15 by { SmallFactor(q, p); }
      m := if q == 15 then 3 else 1;
    }
  }

  lemma BigFactor(a: nat, b: nat)
    requires b >= 16 && a * b < 256
    ensures a < 16
  {
    assert a >= 16 ==> a * b >= 16 * b;
  }

  lemma SmallFactor(a: nat, b: nat)
    requires a * b == 255 && a < 16
    ensures a == 1 || a == 3 || a == 5 || a == 15
  {
    if a == 0 {} else if a == 2 {} else if a == 4 {} else if a == 6 {} else if a == 7 {} else if a == 8 {} else if a == 9 {}
    else if a == 10 {} else if a == 11 {} else if a == 12 {} else if a == 13 {} else if a == 14 {}
  }

  /** A period that is least divides every period. */
  lemma LeastDivides(p: nat, order: nat) returns (q: nat)
    requires 0 < p && Pow(p) == One() && Pow(order) == One() && forall j :: 0 < j < p ==> Pow(j) != One()
    ensures p * q == order
  {
    q := order / p;
    var r := order % p;
    assert order == r + q * p;
    MultiplesOfPeriod(p, q);
    PowSum(r, q * p);
  }

  /** No smaller power of 2 is one: 2 generates all of the field but zero. */
  lemma OrderOfTwo(order: nat)
    requires order == 255
    ensures Pow(order) == One() && forall j :: 0 < j < order ==> Pow(j) != One()
  {
    var k: nat := 255 - order;
    PowersOfTwo(k);
    var p := LeastPeriod(1, order);
    var q := LeastDivides(p, order);
    if p < order {
      assert q != 0 && q != 1;
      var m := DivisorsOf255(p, q);
      MultiplesOfPeriod(p, m);
    }
  }

  // ---------------------------------------------------------------- every non-zero byte is a power of 2

  function Bit(b: bool): nat { if b then 1 else 0 }

  function Nibble(a: bool, b: bool, c: bool, d: bool): (n: nat)
    ensures n < 16
  {
    Bit(a) + 2 * (Bit(b) + 2 * (Bit(c) + 2 * Bit(d)))
  }

  function Low(x: Elem): (n: nat)
    ensures n < 16
  {
    Nibble(x.b0, x.b1, x.b2, x.b3)
  }

  function High(x: Elem): (n: nat)
    ensures n < 16
  {
    Nibble(x.b4, x.b5, x.b6, x.b7)
  }

  function Index(x: Elem): nat { Low(x) + 16 * High(x) }

  lemma IndexSum(x: Elem)
    ensures Index(x) == Bit(x.b0) + 2 * Bit(x.b1) + 4 * Bit(x.b2) + 8 * Bit(x.b3)
                     + 16 * Bit(x.b4) + 32 * Bit(x.b5) + 64 * Bit(x.b6) + 128 * Bit(x.b7)
  {
  }

  function Shifted(x: Elem): Elem { Byte(false, x.b0, x.b1, x.b2, x.b3, x.b4, x.b5, x.b6) }

  lemma ShiftedIndex(x: Elem)
    ensures 2 * Index(x) == Index(Shifted(x)) + 256 * Bit(x.b7)
  {
    IndexSum(x);
    IndexSum(Shifted(x));
  }

  /** Doubling in numbers: shift left within the byte, and on overflow add 0x1d, the reduction by 0x11d. */
  lemma DoubleReduces(x: Elem) returns (poly: Elem)
    ensures Index(poly) == 0x1d
    ensures 2 * Index(x) == Index(Shifted(x)) + 256 * Bit(x.b7)
    ensures Double(x) == if x.b7 then Xor(Shifted(x), poly) else Shifted(x)
  {
    poly := Byte(true, false, true, true, true, false, false, false);
    ShiftedIndex(x);
  }

  lemma LowEqual(x: Elem, y: Elem)
    requires Low(x) == Low(y)
    ensures x.b0 == y.b0 && x.b1 == y.b1 && x.b2 == y.b2 && x.b3 == y.b3
  {
  }

  lemma HighEqual(x: Elem, y: Elem)
    requires High(x) == High(y)
    ensures x.b4 == y.b4 && x.b5 == y.b5 && x.b6 == y.b6 && x.b7 == y.b7
  {
  }

  lemma SixteenSplit(a: nat, b: nat, c: nat, d: nat)
    requires a < 16 && c < 16 && a + 16 * b == c + 16 * d
    ensures a == c && b == d
  {
  }

  lemma IndexParts(x: Elem, y: Elem, i: nat)
    requires Index(x) == i == Index(y)
    ensures Low(x) == Low(y) && High(x) == High(y)
  {
    SixteenSplit(Low(x), High(x), Low(y), High(y));
  }

  lemma IndexEqual(x: Elem, y: Elem, i: nat)
    requires Index(x) == i == Index(y)
    ensures x == y
  {
    IndexParts(x, y, i);
    LowEqual(x, y);
    HighEqual(x, y);
  }

  lemma IndexInjective(x: Elem, y: Elem)
    ensures Index(x) == Index(y) <==> x == y
    ensures Index(x) < 256 && (Index(x) == 0 <==> x == Zero())
  {
    if Index(x) == Index(y) { IndexEqual(x, y, Index(x)); }
    if Index(x) == 0 { IndexEqual(x, Zero(), 0); }
  }

  /** m + 1 distinct numbers do not fit into 1..m. */
  lemma {:induction false} Pigeonhole(s: seq<int>, m: nat)
    requires |s| == m + 1 && forall i :: 0 <= i < |s| ==> 1 <= s[i] <= m
    ensures exists i, j :: 0 <= i < j < |s| && s[i] == s[j]
  {
    assert 1 <= s[0] <= m;
    if k :| 0 <= k < |s| && s[k] == m {
      if l :| 0 <= l < |s| && l != k && s[l] == m {
        assert s[if k < l then k else l] == s[if k < l then l else k];
      } else {
        var rest := s[..k] + s[k+1..];
        Pigeonhole(rest, m - 1);
        var i, j :| 0 <= i < j < |rest| && rest[i] == rest[j];
        assert s[if i < k then i else i + 1] == s[if j < k then j else j + 1];
      }
    } else {
      var rest := s[..m];
      Pigeonhole(rest, m - 1);
      var i, j :| 0 <= i < j < |rest| && rest[i] == rest[j];
      assert s[i] == s[j];
    }
  }

  lemma {:induction false} PowNonZero(k: nat)
    ensures Pow(k) != Zero()
  {
    if k > 0 { PowNonZero(k - 1); }
  }

  lemma {:induction false} PowCancel(a: nat, d: nat)
    requires Pow(a + d) == Pow(a)
    ensures Pow(d) == One()
  {
    if a > 0 { PowCancel(a - 1, d); }
  }

  /** 255 distinct non-zero bytes leave none out. */
  lemma NonZeroIsPower(x: Elem, order: nat)
    requires x != Zero() && order == 255 && forall j :: 0 < j < order ==> Pow(j) != One()
    ensures exists i :: 0 <= i < order && Pow(i) == x
  {
    var s := seq(order + 1, i requires 0 <= i < order + 1 => if i < order then Index(Pow(i)) else Index(x));
    forall i | 0 <= i < order + 1 ensures 1 <= s[i] <= order {
      if i < order { PowNonZero(i); }
      IndexInjective(if i < order then Pow(i) else x, Zero());
    }
    Pigeonhole(s, order);
    var i, j :| 0 <= i < j < |s| && s[i] == s[j];
    IndexInjective(Pow(i), if j < order then Pow(j) else x);
    if j < order { PowCancel(i, j - i); }
  }

  lemma DoubleXor(x: Elem, y: Elem)
    ensures Double(Xor(x, y)) == Xor(Double(x), Double(y))
  {
  }

  lemma DoubleCancels(x: Elem, y: Elem)
    ensures Double(x) == Double(y) ==> x == y
  {
  }

  lemma GfIsAdditive()
    ensures Additive(Gf())
  {
  }

  lemma GfIsCyclic(g: Gen<Elem>)
    requires g == Gf()
    ensures Cyclic(g)
  {
    OrderOfTwo(g.order);
    PowIsExp(g.order);
    forall a, b ensures DoubleAdd(g, a, b) { DoubleXor(a, b); }
    forall a, b ensures DoubleInjective(g, a, b) { DoubleCancels(a, b); }
    forall a ensures DoubleZero(g, a) { DoubleCancels(a, Zero()); }
    forall j | 0 < j < g.order ensures Exp(g, j) != g.one { PowIsExp(j); }
    forall x | x != g.zero ensures IsPower(g, x) {
      NonZeroIsPower(x, g.order);
      var i :| 0 <= i < g.order && Pow(i) == x;
      PowIsExp(i);
    }
  }

  /** The codec's arithmetic is a field in which 2 has order 255. */
  lemma GfIsAField(g: Gen<Elem>)
    requires g == Gf()
    ensures Cyclic(g) && Laws(FieldOf(g))
  {
    GfIsCyclic(g);
    GfIsAdditive();
    LogArithmeticIsAField(g);
  }
}
