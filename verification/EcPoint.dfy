/**
 * Jacobian point arithmetic on a short Weierstrass curve over the integers modulo p
 * (ecDouble, ecAdd, ecFullAdd, ecFullSub and the modular helpers).
 *
 * A multiple precision integer is an int; allocation failures of the Mpi layer are not modelled.
 */
module EcPoint {
  import opened Modular

  datatype CurveType = SecpK1 | SecpR1 | Other

  datatype Params = Params(kind: CurveType, p: nat, a: int, b: int) {
    // What the domain parameters of every curve satisfy.
    ghost predicate Valid() {
      && OddPrime(p)
      && 0 <= a < p && 0 <= b < p
      && (kind == SecpK1 ==> a == 0)
      && (kind == SecpR1 ==> a == p - 3)
    }

    predicate Reduced(v: int) { 0 <= v < p }
  }

  // A point value: projective coordinates (x, y, z) stand for (x / z^2, y / z^3).
  datatype Jacobian = Jacobian(x: int, y: int, z: int)

  const INFINITY := Jacobian(1, 1, 0)
  const SENTINEL := Jacobian(0, 0, 0)

  predicate InRange(c: Params, s: Jacobian) {
    c.Reduced(s.x) && c.Reduced(s.y) && c.Reduced(s.z)
  }

  // A second operand may carry the unreduced ordinate p.
  predicate Operand(c: Params, t: Jacobian) {
    c.Reduced(t.x) && 0 <= t.y <= c.p && c.Reduced(t.z)
  }

  class EcPoint {
    var x: int
    var y: int
    var z: int

    function Value(): Jacobian
      reads this
    {
      Jacobian(x, y, z)
    }

    constructor () {
      x, y, z := 0, 0, 0;
    }
  }

  // ---------------------------------------------------------------- modular helpers

  method EcAddMod(c: Params, a: int, b: int) returns (r: int)
    requires c.p > 0 && c.Reduced(a) && c.Reduced(b)
    ensures r == Rem(c.p, a + b)
  {
    r := a + b;
    if r >= c.p {
      r := r - c.p;
    }
  }

  method EcSubMod(c: Params, a: int, b: int) returns (r: int)
    requires c.p > 0 && c.Reduced(a) && c.Reduced(b)
    ensures r == Rem(c.p, a - b)
  {
    r := a - b;
    if r < 0 {
      r := r + c.p;
    }
  }

  // The curve-specific fast reduction computes the same remainder as mpiMod.
  method EcMulMod(c: Params, a: int, b: int) returns (r: int)
    requires c.p > 0
    ensures r == Rem(c.p, a * b)
  {
    r := a * b;
    r := Rem(c.p, r);
  }

  method EcSqrMod(c: Params, a: int) returns (r: int)
    requires c.p > 0
    ensures r == Rem(c.p, a * a)
  {
    r := a * a;
    r := Rem(c.p, r);
  }

  // ---------------------------------------------------------------- doubling

  function Sq(v: int): int { v * v }

  // The doubling formulas over the integers, before reduction.
  function Slope(c: Params, s: Jacobian): int { 3 * Sq(s.x) + c.a * Sq(Sq(s.z)) }

  function Centre(s: Jacobian): int { 4 * (s.x * Sq(s.y)) }

  function DoubleX(c: Params, s: Jacobian): int { Sq(Slope(c, s)) - 2 * Centre(s) }

  function DoubleY(c: Params, s: Jacobian): int {
    Slope(c, s) * (Centre(s) - DoubleX(c, s)) - 8 * Sq(Sq(s.y))
  }

  function DoubleZ(s: Jacobian): int { 2 * (s.z * s.y) }

  function Reduce(c: Params, x: int, y: int, z: int): Jacobian
    requires c.p > 0
  {
    Jacobian(Rem(c.p, x), Rem(c.p, y), Rem(c.p, z))
  }

  function DoubleValue(c: Params, s: Jacobian): Jacobian
    requires c.p > 0
  {
    if s.z == 0 then INFINITY else Reduce(c, DoubleX(c, s), DoubleY(c, s), DoubleZ(s))
  }

  // Each lemma below follows one stretch of the straight-line code, with p and the values the
  // temporaries went through, and says which integer the last one is the remainder of.

  lemma Tripled(p: nat, e: int, w0: int, w1: int, w2: int)
    requires p > 0 && w0 == Rem(p, e) && w1 == Rem(p, w0 + w0) && w2 == Rem(p, w1 + w0)
    ensures w2 == Rem(p, 3 * e)
  {
    hide Rem;
    RemAdd(p, e, e);
    RemAdd(p, 2 * e, e);
  }

  lemma Doubled(p: nat, e: int, w0: int, w1: int)
    requires p > 0 && w0 == Rem(p, e) && w1 == Rem(p, w0 + w0)
    ensures w1 == Rem(p, 2 * e)
  {
    hide Rem;
    RemAdd(p, e, e);
  }

  lemma Product(p: nat, a: int, b: int, ra: int, rb: int, w: int)
    requires p > 0 && ra == Rem(p, a) && rb == Rem(p, b) && w == Rem(p, ra * rb)
    ensures w == Rem(p, a * b)
  {
    hide Rem;
    RemMul(p, a, b);
  }

  lemma ProductLeft(p: nat, a: int, b: int)
    requires p > 0
    ensures Rem(p, a * Rem(p, b)) == Rem(p, a * b)
  {
    hide Rem;
    var q := RemQuotient(p, b);
    assert a * b == a * Rem(p, b) + (a * q) * p;
    Shift(p, a * Rem(p, b), a * q);
  }

  // a.z^4 + 3 x^2 is accumulated by three additions of x^2
  lemma GeneralSlope(p: nat, az: int, xx: int, w0: int, w1: int, w2: int, w3: int, v: int)
    requires p > 0 && w0 == Rem(p, az) && v == Rem(p, xx)
    requires w1 == Rem(p, w0 + v) && w2 == Rem(p, w1 + v) && w3 == Rem(p, w2 + v)
    ensures w3 == Rem(p, 3 * xx + az)
  {
    hide Rem;
    RemAdd(p, az, xx);
    RemAdd(p, az + xx, xx);
    RemAdd(p, az + 2 * xx, xx);
    assert az + 2 * xx + xx == 3 * xx + az;
  }

  // 3 (x + z^2)(x - z^2) = 3 x^2 + (p - 3) z^4 (mod p)
  lemma MinusThree(p: nat, a: int, x: int, z: int, w: int)
    requires p > 0 && a == p - 3
    requires w == Rem(p, 3 * ((x + z * z) * (x - z * z)))
    ensures w == Rem(p, 3 * (x * x) + a * (z * z * (z * z)))
  {
    hide Rem;
    var zz := z * z;
    var q := zz * zz;
    assert (x + zz) * (x - zz) == x * x - q;
    assert a * q == q * p - 3 * q;
    Shift(p, 3 * (x * x) - 3 * q, q);
  }

  // Three times v, by two additions.
  method TripleMod(c: Params, v: int, ghost e: int) returns (r: int)
    requires c.p > 0 && v == Rem(c.p, e)
    ensures r == Rem(c.p, 3 * e)
  {
    r := EcAddMod(c, v, v);
    ghost var w := r;
    r := EcAddMod(c, r, v);
    Tripled(c.p, e, v, w, r);
  }

  // SECP R1 curves: 3 (x + z^2)(x - z^2)
  method SlopeR1(c: Params, t1: int, t3: int) returns (t4: int)
    requires c.Valid() && c.Reduced(t1) && c.kind == SecpR1
    ensures t4 == Rem(c.p, 3 * (t1 * t1) + c.a * (t3 * t3 * (t3 * t3)))
  {
    hide Rem;
    ghost var p, zz := c.p, t3 * t3;
    t4 := EcSqrMod(c, t3);
    RemSmall(p, t1);
    RemAdd(p, t1, zz);
    RemSub(p, t1, zz);
    var t5 := EcSubMod(c, t1, t4);
    t4 := EcAddMod(c, t1, t4);
    ghost var w := t5;
    t5 := EcMulMod(c, t4, t5);
    Product(p, t1 + zz, t1 - zz, t4, w, t5);
    ghost var d := (t1 + zz) * (t1 - zz);
    t4 := TripleMod(c, t5, d);
    MinusThree(p, c.a, t1, t3, t4);
  }

  // Other curves: a z^4 + 3 x^2
  method SlopeGeneral(c: Params, t1: int, t3: int) returns (t4: int)
    requires c.Valid()
    ensures t4 == Rem(c.p, 3 * (t1 * t1) + c.a * (t3 * t3 * (t3 * t3)))
  {
    hide Rem;
    ghost var p, zz := c.p, t3 * t3;
    t4 := EcSqrMod(c, t3);
    ghost var w0 := t4;
    t4 := EcSqrMod(c, t4);
    Product(p, zz, zz, w0, w0, t4);
    ghost var q := zz * zz;
    w0 := t4;
    t4 := EcMulMod(c, t4, c.a);
    RemSmall(p, c.a);
    Product(p, q, c.a, w0, c.a, t4);
    w0 := t4;
    var t5 := EcSqrMod(c, t1);
    t4 := EcAddMod(c, t4, t5);
    ghost var w1 := t4;
    t4 := EcAddMod(c, t4, t5);
    ghost var w2 := t4;
    t4 := EcAddMod(c, t4, t5);
    GeneralSlope(p, q * c.a, t1 * t1, w0, w1, w2, t4, t5);
    assert q * c.a == c.a * q;
  }

  // The a = 0 and a = -3 shortcuts give the general slope.
  method SlopeMod(c: Params, t1: int, t3: int) returns (t4: int)
    requires c.Valid() && c.Reduced(t1)
    ensures t4 == Rem(c.p, 3 * (t1 * t1) + c.a * (t3 * t3 * (t3 * t3)))
  {
    if c.kind == SecpK1 {
      var t5 := EcSqrMod(c, t1);
      t4 := TripleMod(c, t5, t1 * t1);
      ghost var q := t3 * t3 * (t3 * t3);
      assert c.a * q == 0;
    } else if c.kind == SecpR1 {
      t4 := SlopeR1(c, t1, t3);
    } else {
      t4 := SlopeGeneral(c, t1, t3);
    }
  }

  // 4 x u
  method CentreMod(c: Params, t1: int, t2: int, ghost x: int, ghost u: int) returns (t5: int)
    requires c.p > 0 && t1 == Rem(c.p, x) && t2 == Rem(c.p, u)
    ensures t5 == Rem(c.p, 4 * (x * u))
  {
    t5 := EcMulMod(c, t1, t2);
    Product(c.p, x, u, t1, t2, t5);
    ghost var e, w := x * u, t5;
    t5 := EcAddMod(c, t5, t5);
    Doubled(c.p, e, w, t5);
    w := t5;
    t5 := EcAddMod(c, t5, t5);
    Doubled(c.p, 2 * e, w, t5);
  }

  // m^2 - 2 s
  method AbscissaMod(c: Params, t4: int, t5: int, ghost m: int, ghost s: int) returns (t1: int)
    requires c.p > 0 && t4 == Rem(c.p, m) && t5 == Rem(c.p, s)
    ensures t1 == Rem(c.p, m * m - 2 * s)
  {
    t1 := EcSqrMod(c, t4);
    Product(c.p, m, m, t4, t4, t1);
    ghost var mm := m * m;
    t1 := EcSubMod(c, t1, t5);
    RemSub(c.p, mm, s);
    t1 := EcSubMod(c, t1, t5);
    RemSub(c.p, mm - s, s);
  }

  // 8 u^2
  method EightSquares(c: Params, t2: int, ghost u: int) returns (r: int)
    requires c.p > 0 && t2 == Rem(c.p, u)
    ensures r == Rem(c.p, 8 * (u * u))
  {
    r := EcSqrMod(c, t2);
    Product(c.p, u, u, t2, t2, r);
    ghost var e, w := u * u, r;
    r := EcAddMod(c, r, r);
    Doubled(c.p, e, w, r);
    w := r;
    r := EcAddMod(c, r, r);
    Doubled(c.p, 2 * e, w, r);
    w := r;
    r := EcAddMod(c, r, r);
    Doubled(c.p, 4 * e, w, r);
  }

  // m (s - x) - e
  method OrdinateMod(c: Params, t4: int, t5: int, t1: int, t2: int, ghost m: int, ghost s: int, ghost x: int, ghost e: int)
    returns (r: int)
    requires c.p > 0 && t4 == Rem(c.p, m) && t5 == Rem(c.p, s) && t1 == Rem(c.p, x) && t2 == Rem(c.p, e)
    ensures r == Rem(c.p, m * (s - x) - e)
  {
    var d := EcSubMod(c, t5, t1);
    RemSub(c.p, s, x);
    var w := EcMulMod(c, t4, d);
    Product(c.p, m, s - x, t4, d, w);
    RemSub(c.p, m * (s - x), e);
    r := EcSubMod(c, w, t2);
  }

  lemma DoubleForms(c: Params, v: Jacobian)
    ensures Slope(c, v) == 3 * (v.x * v.x) + c.a * (v.z * v.z * (v.z * v.z))
    ensures Centre(v) == 4 * (v.x * (v.y * v.y))
    ensures DoubleX(c, v) == Slope(c, v) * Slope(c, v) - 2 * Centre(v)
    ensures DoubleY(c, v) == Slope(c, v) * (Centre(v) - DoubleX(c, v)) - 8 * (v.y * v.y * (v.y * v.y))
    ensures DoubleZ(v) == 2 * (v.z * v.y)
  {
  }

  // The doubling may overwrite its operand: the coordinates are copied first.
  method EcDouble(c: Params, r: EcPoint, s: EcPoint)
    requires c.Valid() && InRange(c, s.Value())
    modifies r
    ensures r.Value() == DoubleValue(c, old(s.Value()))
  {
    hide Slope, Sq, Centre, DoubleX, DoubleY, DoubleZ, Rem;
    var t1 := s.x;
    var t2 := s.y;
    var t3 := s.z;
    if t3 == 0 {
      r.x := 1;
      r.y := 1;
      r.z := 0;
    } else {
      ghost var v := s.Value();
      ghost var m, u := Slope(c, v), v.y * v.y;
      DoubleForms(c, v);
      var t4 := SlopeMod(c, t1, t3);
      t3 := EcMulMod(c, t3, t2);
      ghost var w := t3;
      t3 := EcAddMod(c, t3, t3);
      Doubled(c.p, v.z * v.y, w, t3);
      t2 := EcSqrMod(c, t2);
      RemSmall(c.p, t1);
      var t5 := CentreMod(c, t1, t2, v.x, u);
      t1 := AbscissaMod(c, t4, t5, m, Centre(v));
      t2 := EightSquares(c, t2, u);
      t2 := OrdinateMod(c, t4, t5, t1, t2, m, Centre(v), DoubleX(c, v), 8 * (u * u));
      r.x := t1;
      r.y := t2;
      r.z := t3;
    }
  }

  // ---------------------------------------------------------------- addition

  // Both operands over the common denominator z1 z2, and their differences and sums.
  function U1(s: Jacobian, t: Jacobian): int { s.x * (t.z * t.z) }
  function U2(s: Jacobian, t: Jacobian): int { t.x * (s.z * s.z) }
  function S1(s: Jacobian, t: Jacobian): int { s.y * (t.z * (t.z * t.z)) }
  function S2(s: Jacobian, t: Jacobian): int { t.y * (s.z * (s.z * s.z)) }
  function DiffU(s: Jacobian, t: Jacobian): int { U1(s, t) - U2(s, t) }
  function DiffS(s: Jacobian, t: Jacobian): int { S1(s, t) - S2(s, t) }
  function SumU(s: Jacobian, t: Jacobian): int { U1(s, t) + U2(s, t) }
  function SumS(s: Jacobian, t: Jacobian): int { S1(s, t) + S2(s, t) }

  // The addition formulas over the integers, in w = DiffU, r = DiffS, u = SumU, m = SumS.
  function AddX(w: int, r: int, u: int): int { r * r - u * (w * w) }
  function AddTwiceY(w: int, r: int, u: int, m: int): int {
    r * (u * (w * w) - 2 * AddX(w, r, u)) - m * (w * (w * w))
  }

  // v / 2 modulo the odd number p
  function Half(p: nat, v: int): int {
    if v % 2 == 0 then v / 2 else (v + p) / 2
  }

  function AddValue(c: Params, s: Jacobian, t: Jacobian): Jacobian
    requires c.p > 0
  {
    var w, r, u, m := DiffU(s, t), DiffS(s, t), SumU(s, t), SumS(s, t);
    if Rem(c.p, w) == 0 then
      if Rem(c.p, r) == 0 then SENTINEL else INFINITY
    else
      Jacobian(Rem(c.p, AddX(w, r, u)), Half(c.p, Rem(c.p, AddTwiceY(w, r, u, m))), Rem(c.p, s.z * t.z * w))
  }

  // (x z^2, y z^3)
  method ScaleMod(c: Params, x: int, y: int, z: int) returns (sx: int, sy: int)
    requires c.p > 0
    ensures sx == Rem(c.p, x * (z * z)) && sy == Rem(c.p, y * (z * (z * z)))
  {
    ghost var p, zz := c.p, z * z;
    var t7 := EcSqrMod(c, z);
    sx := EcMulMod(c, x, t7);
    ProductLeft(p, x, zz);
    ProductLeft(p, z, zz);
    t7 := EcMulMod(c, z, t7);
    sy := EcMulMod(c, y, t7);
    ProductLeft(p, y, z * zz);
  }

  lemma ScaleByOne(p: nat, v: int)
    requires 0 <= v < p
    ensures v == Rem(p, v * (1 * 1)) && v == Rem(p, v * (1 * (1 * 1))) && v == Rem(p, v * 1)
  {
    RemSmall(p, v);
  }

  // 2 a - (a - b) = a + b
  method SumFromDifference(c: Params, a: int, d: int, ghost ea: int, ghost eb: int) returns (r: int)
    requires c.p > 0 && a == Rem(c.p, ea) && d == Rem(c.p, ea - eb)
    ensures r == Rem(c.p, ea + eb)
  {
    r := EcAddMod(c, a, a);
    Doubled(c.p, ea, a, r);
    RemSub(c.p, 2 * ea, ea - eb);
    r := EcSubMod(c, r, d);
  }

  // The abscissa and twice the ordinate of the sum.
  method ChordMod(c: Params, t4: int, t5: int, t1: int, t2: int, ghost w: int, ghost r: int, ghost u: int, ghost m: int)
    returns (x: int, yy: int)
    requires c.p > 0 && t4 == Rem(c.p, w) && t5 == Rem(c.p, r) && t1 == Rem(c.p, u) && t2 == Rem(c.p, m)
    ensures x == Rem(c.p, AddX(w, r, u)) && yy == Rem(c.p, AddTwiceY(w, r, u, m))
  {
    ghost var p, ww := c.p, w * w;
    var t7 := EcSqrMod(c, t4);
    Product(p, w, w, t4, t4, t7);
    var cube := EcMulMod(c, t4, t7);
    Product(p, w, ww, t4, t7, cube);
    ghost var g := t7;
    t7 := EcMulMod(c, t1, t7);
    Product(p, u, ww, t1, g, t7);
    ghost var v := u * ww;
    x := EcSqrMod(c, t5);
    Product(p, r, r, t5, t5, x);
    RemSub(p, r * r, v);
    x := EcSubMod(c, x, t7);
    ghost var ex := AddX(w, r, u);
    var t6 := EcAddMod(c, x, x);
    Doubled(p, ex, x, t6);
    RemSub(p, v, 2 * ex);
    t7 := EcSubMod(c, t7, t6);
    var q := EcMulMod(c, t5, t7);
    Product(p, r, v - 2 * ex, t5, t7, q);
    ghost var www := w * ww;
    var n := EcMulMod(c, t2, cube);
    Product(p, m, www, t2, cube, n);
    RemSub(p, r * (v - 2 * ex), m * www);
    yy := EcSubMod(c, q, n);
  }

  // The operands may be the result object: nothing is written before both are read.
  method EcAdd(c: Params, r: EcPoint, s: EcPoint, t: EcPoint)
    requires c.Valid() && InRange(c, s.Value()) && Operand(c, t.Value())
    modifies r
    ensures r.Value() == AddValue(c, old(s.Value()), old(t.Value()))
  {
    ghost var p, a, b := c.p, s.Value(), t.Value();
    var t1 := s.x;
    var t2 := s.y;
    var t3 := s.z;
    var t4 := t.x;
    var t5 := t.y;
    var t6 := 1;
    ghost var u1, u2, s1, s2 := U1(a, b), U2(a, b), S1(a, b), S2(a, b);
    if t.z != 1 {
      t6 := t.z;
      t1, t2 := ScaleMod(c, t1, t2, t6);
    } else {
      ScaleByOne(p, t1);
      ScaleByOne(p, t2);
    }
    t4, t5 := ScaleMod(c, t4, t5, t3);
    RemSub(p, u1, u2);
    RemSub(p, s1, s2);
    t4 := EcSubMod(c, t1, t4);
    t5 := EcSubMod(c, t2, t5);
    if t4 == 0 {
      if t5 == 0 {
        r.x := 0;
        r.y := 0;
        r.z := 0;
      } else {
        r.x := 1;
        r.y := 1;
        r.z := 0;
      }
    } else {
      t1 := SumFromDifference(c, t1, t4, u1, u2);
      t2 := SumFromDifference(c, t2, t5, s1, s2);
      ScaleByOne(p, t3);
      ghost var zz := a.z * b.z;
      if t.z != 1 {
        t3 := EcMulMod(c, t3, t6);
      }
      ghost var g := t3;
      t3 := EcMulMod(c, t3, t4);
      Product(p, zz, DiffU(a, b), g, t4, t3);
      t1, t2 := ChordMod(c, t4, t5, t1, t2, DiffU(a, b), DiffS(a, b), SumU(a, b), SumS(a, b));
      if t2 % 2 == 0 {
        t2 := t2 / 2;
      } else {
        t2 := t2 + c.p;
        t2 := t2 / 2;
      }
      r.x := t1;
      r.y := t2;
      r.z := t3;
    }
  }

  // R = S + T, where the result object may be the first operand: the doubling fallback then
  // reads the operand after it was overwritten.
  function FullAddValue(c: Params, aliased: bool, s: Jacobian, t: Jacobian): Jacobian
    requires c.p > 0
  {
    if s.z == 0 then t
    else if t.z == 0 then s
    else if AddValue(c, s, t) == SENTINEL then
      if aliased then INFINITY else DoubleValue(c, s)
    else AddValue(c, s, t)
  }

  method EcFullAdd(c: Params, r: EcPoint, s: EcPoint, t: EcPoint)
    requires c.Valid() && InRange(c, s.Value()) && Operand(c, t.Value())
    modifies r
    ensures r.Value() == FullAddValue(c, r == s, old(s.Value()), old(t.Value()))
  {
    if s.z == 0 {
      r.x := t.x;
      r.y := t.y;
      r.z := t.z;
    } else if t.z == 0 {
      r.x := s.x;
      r.y := s.y;
      r.z := s.z;
    } else {
      EcAdd(c, r, s, t);
      if r.x == 0 && r.y == 0 && r.z == 0 {
        EcDouble(c, r, s);
      }
    }
  }

  // (x, p - y, z); the ordinate is left as p when y is 0.
  function Negated(c: Params, t: Jacobian): Jacobian { Jacobian(t.x, c.p - t.y, t.z) }

  method EcFullSub(c: Params, r: EcPoint, s: EcPoint, t: EcPoint)
    requires c.Valid() && InRange(c, s.Value()) && InRange(c, t.Value())
    modifies r
    ensures r.Value() == FullAddValue(c, r == s, old(s.Value()), Negated(c, old(t.Value())))
  {
    var u := new EcPoint();
    u.x := t.x;
    u.z := t.z;
    u.y := c.p - t.y;
    EcFullAdd(c, r, s, u);
  }
}
