/**
 * What the coordinate formulas of EcPoint.dfy mean: they stay on the curve, and they compute
 * the chord and tangent law of affine points.
 */
module EcCurve {
  import opened Modular
  import opened EcPoint

  // y^2 - (x^3 + a x z^4 + b z^6)
  function CurveGap(c: Params, s: Jacobian): int {
    var zz := s.z * s.z;
    s.y * s.y - (s.x * s.x * s.x + c.a * (zz * zz) * s.x + c.b * (zz * zz * zz))
  }

  predicate OnCurve(c: Params, s: Jacobian)
    requires c.p > 0
  {
    Divides(c.p, CurveGap(c, s))
  }

  // ---------------------------------------------------------------- polynomial identities

  lemma SquareOfSum(a: int, b: int)
    ensures (a + b) * (a + b) == a * a + 2 * (a * b) + b * b
  {
  }

  lemma CubeRoots(t: int, s: int)
    ensures (t + 2 * s) * ((t - s) * (t - s)) == t * t * t - 3 * (s * s) * t + 2 * (s * s * s)
  {
  }

  // A line of slope m through (s, y) that is tangent there meets the cubic again at t.
  lemma TangentMeetsAgain(m: int, s: int, t: int, y: int)
    requires t == m * m - 2 * s
    ensures t * t * t + (2 * (m * y) - 3 * (s * s)) * t + (2 * (s * s * s) - 2 * (m * y) * s + y * y)
         == (m * (s - t) - y) * (m * (s - t) - y)
  {
    var d := t - s;
    var md := m * d;
    assert m * (s - t) - y == -(md + y);
    SquareOfSum(md, y);
    CubeRoots(t, s);
    assert md * md == m * m * (d * d);
    assert md * y == (m * y) * d;
    assert (-(md + y)) * (-(md + y)) == (md + y) * (md + y);
  }

  lemma DoubleIdentity(x: int, u: int, a: int, b: int, m: int, s: int, t: int, y: int)
    requires m == 3 * (x * x) + a && s == 4 * (x * u) && t == m * m - 2 * s
    requires y == m * (s - t) - 8 * (u * u)
    ensures y * y - (t * t * t + 16 * (u * u) * a * t + 64 * (u * u * u) * b)
         == 64 * (u * u * u) * (u - (x * x * x + a * x + b))
  {
    var y0, uu := 8 * (u * u), u * u;
    TangentMeetsAgain(m, s, t, y0);
    assert 2 * (m * y0) - 3 * (s * s) == 16 * uu * a by {
      assert s * s == 16 * (uu * (x * x));
      assert m * y0 == 8 * (uu * m);
      assert uu * m == uu * (3 * (x * x)) + uu * a;
    }
    ConstantTerm(x, u, a, m, s, y0);
    var u3 := u * uu;
    assert u3 * (u - (x * x * x + a * x + b)) == u3 * (u - x * x * x - a * x) - u3 * b;
  }

  lemma ConstantTerm(x: int, u: int, a: int, m: int, s: int, y: int)
    requires m == 3 * (x * x) + a && s == 4 * (x * u) && y == 8 * (u * u)
    ensures 2 * (s * s * s) - 2 * (m * y) * s + y * y == 64 * (u * (u * u) * (u - x * x * x - a * x))
  {
    var u3, x3 := u * (u * u), x * x * x;
    assert s * s * s == 64 * (x3 * u3) by { assert x * u * (x * u) * (x * u) == x3 * u3; }
    assert m * y * s == 32 * (u3 * (m * x)) by { assert u * u * (x * u) == u3 * x; }
    assert m * x == 3 * x3 + a * x;
    assert y * y == 64 * (u3 * u);
    assert u3 * (3 * x3 + a * x) == 3 * (u3 * x3) + u3 * (a * x);
    assert u3 * (u - x3 - a * x) == u3 * u - u3 * x3 - u3 * (a * x);
  }

  // ---------------------------------------------------------------- doubling stays on the curve

  lemma DoubleGap(c: Params, s: Jacobian)
    ensures var u := s.y * s.y; CurveGap(c, Jacobian(DoubleX(c, s), DoubleY(c, s), DoubleZ(s))) == 64 * (u * u * u) * CurveGap(c, s)
  {
    var u, zz := s.y * s.y, s.z * s.z;
    var a, b := c.a * (zz * zz), c.b * (zz * zz * zz);
    var m, centre, t, y := Slope(c, s), Centre(s), DoubleX(c, s), DoubleY(c, s);
    DoubleIdentity(s.x, u, a, b, m, centre, t, y);
    var z := DoubleZ(s);
    var ww := z * z;
    assert ww == 4 * (u * zz);
    ScaledCoefficients(c, u, zz, ww, t, a, b);
  }

  lemma ScaledCoefficients(c: Params, u: int, zz: int, ww: int, t: int, a: int, b: int)
    requires ww == 4 * (u * zz) && a == c.a * (zz * zz) && b == c.b * (zz * zz * zz)
    ensures c.a * (ww * ww) * t == 16 * (u * u) * a * t
    ensures c.b * (ww * ww * ww) == 64 * (u * u * u) * b
  {
    var uu, zz2 := u * u, zz * zz;
    assert ww * ww == 16 * (uu * zz2) by { assert u * zz * (u * zz) == uu * zz2; }
    assert c.a * (uu * zz2) == uu * a;
    var u3, zz3 := u * u * u, zz * zz * zz;
    assert ww * ww * ww == 64 * (u3 * zz3) by { assert uu * zz2 * (u * zz) == u3 * zz3; }
    assert c.b * (u3 * zz3) == u3 * b;
  }

  lemma CongruentPower(p: nat, a: int, b: int)
    requires p > 0 && Congruent(p, a, b)
    ensures Congruent(p, a * a, b * b)
    ensures Congruent(p, a * a * a, b * b * b)
  {
    CongruentMul(p, a, b, a, b);
    CongruentMul(p, a * a, b * b, a, b);
  }

  // Coordinates congruent modulo p leave the same gap.
  lemma GapCongruent(c: Params, s: Jacobian, t: Jacobian)
    requires c.p > 0 && Congruent(c.p, s.x, t.x) && Congruent(c.p, s.y, t.y) && Congruent(c.p, s.z, t.z)
    ensures OnCurve(c, s) <==> OnCurve(c, t)
  {
    var p := c.p;
    var zz, ww := s.z * s.z, t.z * t.z;
    CongruentPower(p, s.z, t.z);
    CongruentPower(p, zz, ww);
    CongruentPower(p, s.x, t.x);
    CongruentPower(p, s.y, t.y);
    ReflCongruent(p, c.a);
    ReflCongruent(p, c.b);
    CongruentMul(p, c.a, c.a, zz * zz, ww * ww);
    CongruentMul(p, c.a * (zz * zz), c.a * (ww * ww), s.x, t.x);
    CongruentMul(p, c.b, c.b, zz * zz * zz, ww * ww * ww);
    var a, a' := c.a * (zz * zz) * s.x, c.a * (ww * ww) * t.x;
    var b, b' := c.b * (zz * zz * zz), c.b * (ww * ww * ww);
    CongruentAdd(p, s.x * s.x * s.x, t.x * t.x * t.x, a, a');
    CongruentAdd(p, s.x * s.x * s.x + a, t.x * t.x * t.x + a', b, b');
    CongruentAdd(p, s.y * s.y, t.y * t.y, s.x * s.x * s.x + a + b, t.x * t.x * t.x + a' + b');
    SameDivides(p, CurveGap(c, s), CurveGap(c, t));
  }

  lemma ReflCongruent(p: nat, a: int)
    requires p > 0
    ensures Congruent(p, a, a)
  {
    RemSmall(p, 0);
  }

  lemma SameDivides(p: nat, a: int, b: int)
    requires p > 0 && Congruent(p, a, b)
    ensures Divides(p, a) <==> Divides(p, b)
  {
    SameRemainder(p, a, b);
  }

  // ecDouble maps points of the curve to points of the curve, with coordinates in [0, p).
  lemma DoubleOnCurve(c: Params, s: Jacobian)
    requires c.Valid() && OnCurve(c, s)
    ensures OnCurve(c, DoubleValue(c, s)) && InRange(c, DoubleValue(c, s))
  {
    if s.z == 0 {
      InfinityOnCurve(c);
    } else {
      var t := Jacobian(DoubleX(c, s), DoubleY(c, s), DoubleZ(s));
      var u := s.y * s.y;
      DoubleGap(c, s);
      DividesProduct(c.p, CurveGap(c, s), 64 * (u * u * u));
      CongruentRem(c.p, t.x);
      CongruentRem(c.p, t.y);
      CongruentRem(c.p, t.z);
      GapCongruent(c, DoubleValue(c, s), t);
    }
  }

  lemma InfinityOnCurve(c: Params)
    requires c.p > 1
    ensures OnCurve(c, INFINITY)
  {
    assert CurveGap(c, INFINITY) == 0 by {
      assert c.a * (0 * 0) * 1 == 0 && c.b * (0 * 0 * 0) == 0;
    }
    RemSmall(c.p, 0);
  }

  // ---------------------------------------------------------------- addition stays on the curve

  // t^3 + a t + b - (r t + k)^2 is linear in t at the three roots of the chord cubic.
  lemma ChordRemainder(a: int, b: int, r: int, k: int, x1: int, x2: int, x3: int)
    requires r * r == x1 + x2 + x3
    ensures var al, be := a - 2 * (r * k) - (x1 * x2 + x1 * x3 + x2 * x3), b - k * k + x1 * x2 * x3;
      && x1 * x1 * x1 + a * x1 + b - (r * x1 + k) * (r * x1 + k) == al * x1 + be
      && x2 * x2 * x2 + a * x2 + b - (r * x2 + k) * (r * x2 + k) == al * x2 + be
      && x3 * x3 * x3 + a * x3 + b - (r * x3 + k) * (r * x3 + k) == al * x3 + be
  {
    RemainderAt(a, b, r, k, x1, x2, x3);
    RemainderAt(a, b, r, k, x2, x1, x3);
    RemainderAt(a, b, r, k, x3, x1, x2);
    assert x2 * x1 == x1 * x2 && x3 * x1 == x1 * x3 && x3 * x2 == x2 * x3;
    assert x2 * x1 * x3 == x1 * x2 * x3 && x3 * x1 * x2 == x1 * x2 * x3;
  }

  lemma RemainderAt(a: int, b: int, r: int, k: int, t: int, u: int, v: int)
    requires r * r == t + u + v
    ensures t * t * t + a * t + b - (r * t + k) * (r * t + k)
         == (a - 2 * (r * k) - (t * u + t * v + u * v)) * t + (b - k * k + t * u * v)
  {
    SquareOfSum(r * t, k);
    SquareScaled(r, t);
    CubicTerms(t, u, v);
    Assoc(r, t, k);
    Assoc(r, k, t);
    assert r * t * k == r * k * t;
    var rk, e := r * k, t * u + t * v + u * v;
    assert (a - 2 * rk - e) * t == a * t - 2 * (rk * t) - e * t;
  }

  lemma CubicTerms(t: int, u: int, v: int)
    ensures (t + u + v) * (t * t) == t * t * t + t * t * u + t * t * v
    ensures (t * u + t * v + u * v) * t == t * t * u + t * t * v + t * u * v
  {
    var tt := t * t;
    assert (t + u + v) * tt == t * tt + u * tt + v * tt;
    assert t * u * t == tt * u && t * v * t == tt * v && u * v * t == t * u * v;
  }

  // The third point of the chord through two points of the curve, mirrored, is on the curve.
  lemma ChordOnCurve(p: nat, a: int, b: int, r: int, x1: int, y1: int, x2: int, y2: int, x3: int, y3: int)
    requires OddPrime(p) && !Divides(p, x1 - x2)
    requires Divides(p, y1 * y1 - (x1 * x1 * x1 + a * x1 + b))
    requires Divides(p, y2 * y2 - (x2 * x2 * x2 + a * x2 + b))
    requires y1 - y2 == r * (x1 - x2) && x3 == r * r - x1 - x2 && y3 == r * (x1 - x3) - y1
    ensures Divides(p, y3 * y3 - (x3 * x3 * x3 + a * x3 + b))
  {
    hide Rem, Divides;
    var k := y1 - r * x1;
    ChordRemainder(a, b, r, k, x1, x2, x3);
    var al, be := a - 2 * (r * k) - (x1 * x2 + x1 * x3 + x2 * x3), b - k * k + x1 * x2 * x3;
    assert r * x1 + k == y1 && r * x2 + k == y2;
    assert y3 == -(r * x3 + k);
    assert y3 * y3 == (r * x3 + k) * (r * x3 + k);
    NegatedDivides(p, al * x1 + be);
    NegatedDivides(p, al * x2 + be);
    NegatedDivides(p, al * x3 + be);
    DividesSum(p, al * x1 + be, al * x2 + be);
    assert (al * x1 + be) - (al * x2 + be) == (x1 - x2) * al;
    Cancel(p, x1 - x2, al);
    DividesProduct(p, al, x1);
    DividesProduct(p, al, x3);
    DividesSum(p, al * x1 + be, al * x1);
    DividesSum(p, al * x3, be);
  }

  lemma NegatedDivides(p: nat, e: int)
    requires p > 0
    ensures Divides(p, e) <==> Divides(p, -e)
  {
    RemSmall(p, 0);
    if Divides(p, e) { DividesSum(p, 0, e); }
    if Divides(p, -e) { DividesSum(p, 0, -e); }
  }

  // (x k^2, y k^3, z k) is the same point.
  function Rescaled(s: Jacobian, k: int): Jacobian {
    Jacobian(s.x * (k * k), s.y * (k * (k * k)), s.z * k)
  }

  lemma SquareScaled(v: int, k: int)
    ensures v * k * (v * k) == k * k * (v * v)
  {
  }

  lemma CubeScaled(v: int, k: int)
    ensures v * k * (v * k) * (v * k) == k * k * k * (v * v * v)
  {
    SquareScaled(v, k);
    assert k * k * (v * v) * (v * k) == k * k * k * (v * v * v);
  }

  lemma SixthPower(k: int)
    ensures k * k * (k * k) * (k * k) == k * k * k * (k * k * k) && k * (k * k) == k * k * k
  {
  }

  lemma Regroup(a: int, b: int, c: int, d: int)
    ensures a * b * (c * d) == b * d * (a * c)
  {
  }

  lemma RescaledGap(c: Params, s: Jacobian, k: int)
    ensures CurveGap(c, Rescaled(s, k)) == k * k * k * (k * k * k) * CurveGap(c, s)
  {
    var q, k3, zz := k * k, k * k * k, s.z * s.z;
    var k6 := k3 * k3;
    SixthPower(k);
    SquareScaled(s.y, k3);
    CubeScaled(s.x, q);
    SquareScaled(s.z, k);
    var ww := s.z * k * (s.z * k);
    assert ww == zz * q;
    SquareScaled(zz, q);
    CubeScaled(zz, q);
    LinearTerm(c.a, zz * zz, ww * ww, s.x, q, k6);
    ConstTerm(c.b, zz * zz * zz, ww * ww * ww, k6);
    Distribute(k6, s.y * s.y, s.x * s.x * s.x, c.a * (zz * zz) * s.x, c.b * (zz * zz * zz));
  }

  lemma LinearTerm(a: int, z4: int, w4: int, x: int, q: int, k6: int)
    requires w4 == q * q * z4 && k6 == q * q * q
    ensures a * w4 * (x * q) == k6 * (a * z4 * x)
  {
    assert a * w4 == a * z4 * (q * q);
    Regroup(a * z4, q * q, x, q);
  }

  lemma ConstTerm(b: int, z6: int, w6: int, k6: int)
    requires w6 == k6 * z6
    ensures b * w6 == k6 * (b * z6)
  {
  }

  lemma Distribute(k: int, a: int, b: int, c: int, d: int)
    ensures k * a - (k * b + k * c + k * d) == k * (a - (b + c + d))
  {
  }

  // Both operands over the common denominator z1 z2 w.
  function Common(s: Jacobian, t: Jacobian, w: int): Jacobian { Rescaled(Rescaled(s, t.z), w) }

  lemma CommonPoints(s: Jacobian, t: Jacobian)
    ensures var w, r, u := DiffU(s, t), DiffS(s, t), SumU(s, t);
      var a, b := Common(s, t, w), Common(t, s, w);
      && a == Jacobian(U1(s, t) * (w * w), S1(s, t) * (w * (w * w)), s.z * t.z * w)
      && a.z == b.z
      && a.x - b.x == w * (w * w)
      && a.y - b.y == r * (a.x - b.x)
      && a.x + b.x == u * (w * w)
  {
    var w := DiffU(s, t);
    var ww := w * w;
    var www := w * ww;
    assert t.z * s.z == s.z * t.z;
    assert U1(s, t) * ww - U2(s, t) * ww == w * ww;
    assert U1(s, t) * ww + U2(s, t) * ww == SumU(s, t) * ww;
    assert S1(s, t) * www - S2(s, t) * www == DiffS(s, t) * www;
  }

  lemma AddGap(c: Params, s: Jacobian, t: Jacobian)
    requires c.Valid() && OnCurve(c, s) && OnCurve(c, t) && !Divides(c.p, DiffU(s, t))
    ensures OnCurve(c, Jacobian(AddX(DiffU(s, t), DiffS(s, t), SumU(s, t)), AddY(s, t), s.z * t.z * DiffU(s, t)))
  {
    var w, r := DiffU(s, t), DiffS(s, t);
    var a, b := Common(s, t, w), Common(t, s, w);
    CommonPoints(s, t);
    RescaledOnCurve(c, s, t.z);
    RescaledOnCurve(c, Rescaled(s, t.z), w);
    RescaledOnCurve(c, t, s.z);
    RescaledOnCurve(c, Rescaled(t, s.z), w);
    CubeNonzero(c.p, w);
    var zz := a.z * a.z;
    ChordOnCurve(c.p, c.a * (zz * zz), c.b * (zz * zz * zz), r, a.x, a.y, b.x, b.y, AddX(w, r, SumU(s, t)), AddY(s, t));
  }

  // The ordinate whose double the code computes.
  function AddY(s: Jacobian, t: Jacobian): int {
    var w, r := DiffU(s, t), DiffS(s, t);
    r * (U1(s, t) * (w * w) - AddX(w, r, SumU(s, t))) - S1(s, t) * (w * (w * w))
  }

  lemma RescaledOnCurve(c: Params, s: Jacobian, k: int)
    requires c.p > 0 && OnCurve(c, s)
    ensures OnCurve(c, Rescaled(s, k))
  {
    RescaledGap(c, s, k);
    DividesProduct(c.p, CurveGap(c, s), k * k * k * (k * k * k));
  }

  lemma CubeNonzero(p: nat, w: int)
    requires OddPrime(p) && !Divides(p, w)
    ensures !Divides(p, w * w) && !Divides(p, w * (w * w))
  {
    assert PrimeAt(p, w, w);
    assert PrimeAt(p, w, w * w);
  }

  // ---------------------------------------------------------------- halving

  lemma TwiceY(s: Jacobian, t: Jacobian)
    ensures AddTwiceY(DiffU(s, t), DiffS(s, t), SumU(s, t), SumS(s, t)) == 2 * AddY(s, t)
  {
    var w, r := DiffU(s, t), DiffS(s, t);
    var a, b := Common(s, t, w), Common(t, s, w);
    CommonPoints(s, t);
    var x, www := AddX(w, r, SumU(s, t)), w * (w * w);
    assert SumS(s, t) * www == a.y + b.y;
    assert r * (a.x + b.x - 2 * x) - (a.y + b.y) == 2 * (r * (a.x - x) - a.y) by {
      assert r * (a.x + b.x - 2 * x) == 2 * (r * (a.x - x)) - r * (a.x - b.x);
    }
  }

  // Halving modulo an odd prime recovers v from the remainder of 2 v.
  lemma HalfOfTwice(p: nat, v: int)
    requires OddPrime(p)
    ensures Half(p, Rem(p, 2 * v)) == Rem(p, v)
  {
    var d := Rem(p, 2 * v);
    var h := Half(p, d);
    assert 0 <= h < p && (2 * h == d || 2 * h == d + p);
    Shift(p, d, 1);
    RemSmall(p, d);
    assert Rem(p, 2 * h) == Rem(p, 2 * v);
    SameRemainder(p, 2 * h, 2 * v);
    assert 2 * h - 2 * v == 2 * (h - v);
    RemSmall(p, 2);
    Cancel(p, 2, h - v);
    SameRemainder(p, h, v);
    RemSmall(p, h);
  }

  lemma AddValueIs(c: Params, s: Jacobian, t: Jacobian)
    requires c.Valid() && !Divides(c.p, DiffU(s, t))
    ensures AddValue(c, s, t)
         == Reduce(c, AddX(DiffU(s, t), DiffS(s, t), SumU(s, t)), AddY(s, t), s.z * t.z * DiffU(s, t))
  {
    TwiceY(s, t);
    HalfOfTwice(c.p, AddY(s, t));
  }

  lemma ReduceOnCurve(c: Params, x: int, y: int, z: int)
    requires c.Valid()
    ensures OnCurve(c, Reduce(c, x, y, z)) <==> OnCurve(c, Jacobian(x, y, z))
    ensures InRange(c, Reduce(c, x, y, z))
  {
    CongruentRem(c.p, x);
    CongruentRem(c.p, y);
    CongruentRem(c.p, z);
    GapCongruent(c, Reduce(c, x, y, z), Jacobian(x, y, z));
  }

  lemma SentinelOnCurve(c: Params)
    requires c.p > 1
    ensures OnCurve(c, SENTINEL)
  {
    assert CurveGap(c, SENTINEL) == 0 by {
      assert c.a * (0 * 0) * 0 == 0 && c.b * (0 * 0 * 0) == 0;
    }
    RemSmall(c.p, 0);
  }

  // ecFullAdd maps points of the curve to points of the curve, aliased or not.
  lemma FullAddOnCurve(c: Params, aliased: bool, s: Jacobian, t: Jacobian)
    requires c.Valid() && OnCurve(c, s) && OnCurve(c, t)
    ensures OnCurve(c, FullAddValue(c, aliased, s, t))
  {
    InfinityOnCurve(c);
    SentinelOnCurve(c);
    DoubleOnCurve(c, s);
    if !Divides(c.p, DiffU(s, t)) {
      AddValueIs(c, s, t);
      AddGap(c, s, t);
      ReduceOnCurve(c, AddX(DiffU(s, t), DiffS(s, t), SumU(s, t)), AddY(s, t), s.z * t.z * DiffU(s, t));
    }
  }

  lemma NegatedOnCurve(c: Params, t: Jacobian)
    requires c.p > 0 && OnCurve(c, t)
    ensures OnCurve(c, Negated(c, t))
  {
    hide Rem;
    var p, y := c.p, t.y;
    var k := p - 2 * y;
    assert (p - y) * (p - y) == y * y + k * p;
    assert CurveGap(c, Negated(c, t)) == CurveGap(c, t) + k * p;
    Shift(p, CurveGap(c, t), k);
  }

  // ecFullSub too: the mirrored operand is on the curve.
  lemma FullSubOnCurve(c: Params, aliased: bool, s: Jacobian, t: Jacobian)
    requires c.Valid() && OnCurve(c, s) && OnCurve(c, t)
    ensures OnCurve(c, FullAddValue(c, aliased, s, Negated(c, t)))
  {
    NegatedOnCurve(c, t);
    FullAddOnCurve(c, aliased, s, Negated(c, t));
  }

  // All results are reduced, except that subtracting a point with y = 0 from infinity
  // leaves the ordinate p.
  lemma FullSubRange(c: Params, aliased: bool, s: Jacobian, t: Jacobian)
    requires c.Valid() && InRange(c, s) && InRange(c, t)
    ensures InRange(c, FullAddValue(c, aliased, s, Negated(c, t))) <==> !(s.z == 0 && t.y == 0)
    ensures InRange(c, FullAddValue(c, aliased, s, t))
  {
    FullAddRange(c, aliased, s, t);
    FullAddRange(c, aliased, s, Negated(c, t));
  }

  lemma FullAddRange(c: Params, aliased: bool, s: Jacobian, t: Jacobian)
    requires c.Valid() && InRange(c, s)
    ensures s.z != 0 ==> InRange(c, FullAddValue(c, aliased, s, t))
  {
  }

  // ---------------------------------------------------------------- the sentinel and aliasing

  // s and t stand for the same affine point.
  predicate SamePoint(c: Params, s: Jacobian, t: Jacobian)
    requires c.p > 0
  {
    Divides(c.p, DiffU(s, t)) && Divides(c.p, DiffS(s, t))
  }

  lemma ProductNonzero(p: nat, a: int, b: int)
    requires OddPrime(p) && !Divides(p, a) && !Divides(p, b)
    ensures !Divides(p, a * b)
  {
    assert PrimeAt(p, a, b);
  }

  // ecAdd returns (0, 0, 0) for equal operands only, and a point at infinity only when the
  // abscissas agree.
  lemma AddSentinel(c: Params, s: Jacobian, t: Jacobian)
    requires c.Valid() && c.Reduced(s.z) && c.Reduced(t.z) && s.z != 0 && t.z != 0
    ensures AddValue(c, s, t) == SENTINEL <==> SamePoint(c, s, t)
    ensures AddValue(c, s, t).z == 0 <==> Divides(c.p, DiffU(s, t))
  {
    if !Divides(c.p, DiffU(s, t)) {
      RemSmall(c.p, s.z);
      RemSmall(c.p, t.z);
      ProductNonzero(c.p, s.z, t.z);
      ProductNonzero(c.p, s.z * t.z, DiffU(s, t));
    }
  }

  // Storing the sum over the first operand loses exactly the doubling case: it then returns
  // infinity, whereas a separate result object receives 2.S.
  lemma InPlaceSum(c: Params, s: Jacobian, t: Jacobian)
    requires c.Valid() && InRange(c, s) && c.Reduced(t.z)
    ensures FullAddValue(c, true, s, t) ==
      if s.z == 0 then t
      else if t.z == 0 then s
      else if SamePoint(c, s, t) then INFINITY
      else FullAddValue(c, false, s, t)
    ensures s.z != 0 && t.z != 0 && SamePoint(c, s, t) ==>
      && FullAddValue(c, false, s, t) == DoubleValue(c, s)
      && (DoubleValue(c, s).z == 0 <==> s.y == 0)
  {
    if s.z != 0 && t.z != 0 {
      AddSentinel(c, s, t);
      DoubleInfinite(c, s);
    }
  }

  lemma DoubleInfinite(c: Params, s: Jacobian)
    requires c.Valid() && InRange(c, s) && s.z != 0
    ensures DoubleValue(c, s).z == 0 <==> s.y == 0
  {
    RemSmall(c.p, s.z);
    RemSmall(c.p, s.y);
    RemSmall(c.p, 2);
    RemSmall(c.p, 0);
    if s.y != 0 {
      ProductNonzero(c.p, s.z, s.y);
      ProductNonzero(c.p, 2, s.z * s.y);
    }
  }

  // ---------------------------------------------------------------- the chord and tangent law

  // s stands for the affine point (x, y).
  predicate Represents(c: Params, s: Jacobian, x: int, y: int)
    requires c.p > 0
  {
    && !Divides(c.p, s.z)
    && Congruent(c.p, s.x, x * (s.z * s.z))
    && Congruent(c.p, s.y, y * (s.z * (s.z * s.z)))
  }

  // The affine chord through (x1, y1) and (x2, y2) with slope l.
  function ChordX(l: int, x1: int, x2: int): int { l * l - x1 - x2 }
  function ChordY(l: int, x1: int, y1: int, x3: int): int { l * (x1 - x3) - y1 }

  // a == b (mod p) survives multiplication by k
  lemma CongruentTimes(p: nat, a: int, b: int, k: int)
    requires p > 0 && Congruent(p, a, b)
    ensures Congruent(p, a * k, b * k) && Congruent(p, k * a, k * b)
  {
    ReflCongruent(p, k);
    CongruentMul(p, a, b, k, k);
    CongruentMul(p, k, k, a, b);
  }

  lemma Factor(a: int, b: int, k: int)
    ensures a * k - b * k == (a - b) * k && a * k + b * k == (a + b) * k
  {
  }

  lemma Assoc(a: int, b: int, c: int)
    ensures a * b * c == a * (b * c) && a * b * c == a * c * b
  {
  }

  // With m = l z, g = x1 z^2 and e = y1 z^3 the formulas for the third point are homogeneous.
  lemma ThirdX(p: nat, l: int, z: int, zz: int, m: int, sum: int, xs: int)
    requires p > 0 && zz == z * z && Congruent(p, m, l * z) && Congruent(p, sum, xs * zz)
    ensures Congruent(p, m * m - sum, (l * l - xs) * zz)
  {
    CongruentMul(p, m, l * z, m, l * z);
    SquareScaled(l, z);
    assert l * z * (l * z) == l * l * zz;
    CongruentAdd(p, m * m, l * l * zz, sum, xs * zz);
    Factor(l * l, xs, zz);
  }

  lemma ThirdY(p: nat, l: int, z: int, zz: int, m: int, x: int, x3: int, g: int, x1: int, e: int, y1: int)
    requires p > 0 && Congruent(p, m, l * z) && Congruent(p, x, x3 * zz)
    requires Congruent(p, g, x1 * zz) && Congruent(p, e, y1 * (z * zz))
    ensures Congruent(p, m * (g - x) - e, (l * (x1 - x3) - y1) * (z * zz))
  {
    CongruentAdd(p, g, x1 * zz, x, x3 * zz);
    Factor(x1, x3, zz);
    CongruentMul(p, m, l * z, g - x, (x1 - x3) * zz);
    Regroup(l, z, x1 - x3, zz);
    var k, z3 := l * (x1 - x3), z * zz;
    assert z3 * k == k * z3;
    CongruentAdd(p, m * (g - x), k * z3, e, y1 * z3);
    Factor(k, y1, z3);
  }

  lemma ThirdPoint(p: nat, l: int, z: int, m: int, sum: int, xs: int, g: int, x1: int, e: int, y1: int)
    requires p > 0 && Congruent(p, m, l * z)
    requires Congruent(p, sum, xs * (z * z)) && Congruent(p, g, x1 * (z * z)) && Congruent(p, e, y1 * (z * (z * z)))
    ensures Congruent(p, m * m - sum, (l * l - xs) * (z * z))
    ensures Congruent(p, m * (g - (m * m - sum)) - e, (l * (x1 - (l * l - xs)) - y1) * (z * (z * z)))
  {
    var zz := z * z;
    ThirdX(p, l, z, zz, m, sum, xs);
    ThirdY(p, l, z, zz, m, m * m - sum, l * l - xs, g, x1, e, y1);
  }

  lemma RepresentsReduced(c: Params, x: int, y: int, z: int, ax: int, ay: int)
    requires c.Valid() && !Divides(c.p, z)
    requires Congruent(c.p, x, ax * (z * z)) && Congruent(c.p, y, ay * (z * (z * z)))
    ensures Represents(c, Reduce(c, x, y, z), ax, ay)
  {
    var p, w := c.p, Rem(c.p, z);
    CongruentRem(p, x);
    CongruentRem(p, y);
    CongruentRem(p, z);
    SameDivides(p, z, w);
    CongruentMul(p, z, w, z, w);
    CongruentMul(p, z, w, z * z, w * w);
    CongruentTimes(p, z * z, w * w, ax);
    CongruentTimes(p, z * (z * z), w * (w * w), ay);
    CongruentTrans(p, Rem(p, x), x, ax * (z * z));
    CongruentTrans(p, Rem(p, x), ax * (z * z), ax * (w * w));
    CongruentTrans(p, Rem(p, y), y, ay * (z * (z * z)));
    CongruentTrans(p, Rem(p, y), ay * (z * (z * z)), ay * (w * (w * w)));
  }

  // ecDouble computes the tangent law: with slope l = (3 x^2 + a) / (2 y), the result stands
  // for (l^2 - 2 x, l (x - x3) - y).
  lemma DoubleLaw(c: Params, s: Jacobian, x: int, y: int, l: int)
    requires c.Valid() && c.Reduced(s.z) && Represents(c, s, x, y) && !Divides(c.p, y)
    requires Congruent(c.p, l * (2 * y), 3 * (x * x) + c.a)
    ensures var x3 := ChordX(l, x, x); Represents(c, DoubleValue(c, s), x3, ChordY(l, x, y, x3))
  {
    var p, z := c.p, s.z;
    RemSmall(p, 0);
    DoubleTerms(c, s, x, y, l);
    var d := DoubleZ(s);
    var dd := d * d;
    var m, centre, u := Slope(c, s), Centre(s), s.y * s.y;
    CongruentAdd(p, centre, x * dd, centre, x * dd);
    assert x * dd + x * dd == (2 * x) * dd;
    ThirdPoint(p, l, d, m, 2 * centre, 2 * x, centre, x, 8 * (u * u), y);
    RepresentsReduced(c, DoubleX(c, s), DoubleY(c, s), d, ChordX(l, x, x), ChordY(l, x, y, ChordX(l, x, x)));
  }

  lemma DoubleTerms(c: Params, s: Jacobian, x: int, y: int, l: int)
    requires c.Valid() && Represents(c, s, x, y) && !Divides(c.p, y)
    requires Congruent(c.p, l * (2 * y), 3 * (x * x) + c.a)
    ensures var d, u := DoubleZ(s), s.y * s.y;
      && !Divides(c.p, d)
      && Congruent(c.p, Slope(c, s), l * d)
      && Congruent(c.p, Centre(s), x * (d * d))
      && Congruent(c.p, 8 * (u * u), y * (d * (d * d)))
  {
    var z := s.z;
    var zz := z * z;
    DoubleDenominator(c.p, s.y, z, zz, y);
    DoubleSlope(c.p, c.a, s.x, zz, x, y, l, DoubleZ(s));
    DoubleCentre(c.p, s.x, s.y, z, zz, x);
    DoubleFourth(c.p, s.y, z, zz, y);
  }

  // d = 2 z y is a unit, and d = 2 y' z^4
  lemma DoubleDenominator(p: nat, sy: int, z: int, zz: int, y: int)
    requires OddPrime(p) && zz == z * z && !Divides(p, z) && !Divides(p, y) && Congruent(p, sy, y * (z * zz))
    ensures !Divides(p, 2 * (z * sy))
    ensures Congruent(p, 2 * (z * sy), 2 * y * (zz * zz))
  {
    var z3 := z * zz;
    CubeNonzero(p, z);
    ProductNonzero(p, y, z3);
    SameDivides(p, sy, y * z3);
    ProductNonzero(p, z, sy);
    RemSmall(p, 2);
    ProductNonzero(p, 2, z * sy);
    CongruentTimes(p, sy, y * z3, 2 * z);
    Assoc(2, z, sy);
    Regroup(2, z, y, z3);
    assert z * z3 == zz * zz by { Assoc(z, z, zz); }
    assert zz * zz * (2 * y) == 2 * y * (zz * zz);
  }

  // 3 x^2 + a z^4 = l d
  lemma DoubleSlope(p: nat, a: int, sx: int, zz: int, x: int, y: int, l: int, d: int)
    requires p > 0 && Congruent(p, sx, x * zz) && Congruent(p, d, 2 * y * (zz * zz))
    requires Congruent(p, l * (2 * y), 3 * (x * x) + a)
    ensures Congruent(p, 3 * (sx * sx) + a * (zz * zz), l * d)
  {
    var z4, xx := zz * zz, x * x;
    CongruentMul(p, sx, x * zz, sx, x * zz);
    SquareScaled(x, zz);
    assert z4 * xx == xx * z4;
    CongruentTimes(p, sx * sx, xx * z4, 3);
    ReflCongruent(p, a * z4);
    CongruentAdd(p, 3 * (sx * sx), 3 * (xx * z4), a * z4, a * z4);
    Factor(3 * xx, a, z4);
    Assoc(3, xx, z4);
    CongruentSymm(p, l * (2 * y), 3 * xx + a);
    CongruentTimes(p, 3 * xx + a, l * (2 * y), z4);
    CongruentTrans(p, 3 * (sx * sx) + a * z4, (3 * xx + a) * z4, l * (2 * y) * z4);
    CongruentTimes(p, d, 2 * y * z4, l);
    CongruentSymm(p, l * d, l * (2 * y * z4));
    Assoc(l, 2 * y, z4);
    CongruentTrans(p, 3 * (sx * sx) + a * z4, l * (2 * y) * z4, l * d);
  }

  // 4 x y^2 = x' d^2
  lemma DoubleCentre(p: nat, sx: int, sy: int, z: int, zz: int, x: int)
    requires p > 0 && zz == z * z && Congruent(p, sx, x * zz)
    ensures var d := 2 * (z * sy); Congruent(p, 4 * (sx * (sy * sy)), x * (d * d))
  {
    var d, k := 2 * (z * sy), 4 * (sy * sy);
    SquareScaled(z, sy);
    var q := z * sy * (z * sy);
    assert d * d == 4 * q && q == sy * sy * zz;
    assert zz * k == d * d;
    CongruentTimes(p, sx, x * zz, k);
    Assoc(x, zz, k);
    assert sx * k == 4 * (sx * (sy * sy));
  }

  // 8 y^4 = y' d^3
  lemma DoubleFourth(p: nat, sy: int, z: int, zz: int, y: int)
    requires p > 0 && zz == z * z && Congruent(p, sy, y * (z * zz))
    ensures var d, u := 2 * (z * sy), sy * sy; Congruent(p, 8 * (u * u), y * (d * (d * d)))
  {
    var u, z3 := sy * sy, z * zz;
    var d, k := 2 * (z * sy), 8 * (u * sy);
    SquareScaled(z, sy);
    assert d * d == 4 * (zz * u);
    assert d * (d * d) == 8 * (z * sy * (zz * u));
    Regroup(z, sy, zz, u);
    assert d * (d * d) == z3 * k;
    CongruentTimes(p, sy, y * z3, k);
    Assoc(y, z3, k);
    assert sy * k == 8 * (u * u) by { Assoc(sy, sy, u); }
  }

  // ecAdd computes the chord law: with slope l = (y1 - y2) / (x1 - x2), the result stands for
  // (l^2 - x1 - x2, l (x1 - x3) - y1).
  lemma AddLaw(c: Params, s: Jacobian, t: Jacobian, x1: int, y1: int, x2: int, y2: int, l: int)
    requires c.Valid() && Represents(c, s, x1, y1) && Represents(c, t, x2, y2) && !Congruent(c.p, x1, x2)
    requires Congruent(c.p, l * (x1 - x2), y1 - y2)
    ensures var x3 := ChordX(l, x1, x2); Represents(c, AddValue(c, s, t), x3, ChordY(l, x1, y1, x3))
  {
    var p := c.p;
    var w, r, u := DiffU(s, t), DiffS(s, t), SumU(s, t);
    AddTerms(c, s, t, x1, y1, x2, y2, l);
    AddValueIs(c, s, t);
    var z, ww := s.z * t.z * w, w * w;
    ThirdPoint(p, l, z, r, u * ww, x1 + x2, U1(s, t) * ww, x1, S1(s, t) * (w * ww), y1);
    RepresentsReduced(c, AddX(w, r, u), AddY(s, t), z, ChordX(l, x1, x2), ChordY(l, x1, y1, ChordX(l, x1, x2)));
  }

  lemma AddTerms(c: Params, s: Jacobian, t: Jacobian, x1: int, y1: int, x2: int, y2: int, l: int)
    requires c.Valid() && Represents(c, s, x1, y1) && Represents(c, t, x2, y2) && !Congruent(c.p, x1, x2)
    requires Congruent(c.p, l * (x1 - x2), y1 - y2)
    ensures var w, r, u := DiffU(s, t), DiffS(s, t), SumU(s, t);
      var z := s.z * t.z * w;
      && !Divides(c.p, z) && !Divides(c.p, w)
      && Congruent(c.p, r, l * z)
      && Congruent(c.p, u * (w * w), (x1 + x2) * (z * z))
      && Congruent(c.p, U1(s, t) * (w * w), x1 * (z * z))
      && Congruent(c.p, S1(s, t) * (w * (w * w)), y1 * (z * (z * z)))
  {
    var p, w, f := c.p, DiffU(s, t), s.z * t.z;
    var ff := f * f;
    var f3 := f * ff;
    CommonScale(p, s.x, s.y, s.z, t.z, x1, y1);
    CommonScale(p, t.x, t.y, t.z, s.z, x2, y2);
    assert t.z * s.z == f;
    CongruentAdd(p, U1(s, t), x1 * ff, U2(s, t), x2 * ff);
    CongruentAdd(p, S1(s, t), y1 * f3, S2(s, t), y2 * f3);
    Factor(x1, x2, ff);
    Factor(y1, y2, f3);
    ProductNonzero(p, s.z, t.z);
    AddDenominator(p, f, ff, w, x1 - x2);
    ChordSlope(p, l, f, ff, w, DiffS(s, t), x1 - x2, y1 - y2);
    MoveScale(p, U1(s, t), S1(s, t), x1, y1, f, w);
    MoveScale(p, SumU(s, t), S1(s, t), x1 + x2, y1, f, w);
  }

  lemma AddDenominator(p: nat, f: int, ff: int, w: int, dx: int)
    requires OddPrime(p) && ff == f * f && !Divides(p, f) && !Divides(p, dx) && Congruent(p, w, dx * ff)
    ensures !Divides(p, w) && !Divides(p, f * w)
  {
    CubeNonzero(p, f);
    ProductNonzero(p, dx, ff);
    SameDivides(p, w, dx * ff);
    ProductNonzero(p, f, w);
  }

  // r = dy f^3 = l dx f^3 = l f w
  lemma ChordSlope(p: nat, l: int, f: int, ff: int, w: int, r: int, dx: int, dy: int)
    requires p > 0 && Congruent(p, w, dx * ff) && Congruent(p, r, dy * (f * ff)) && Congruent(p, l * dx, dy)
    ensures Congruent(p, r, l * (f * w))
  {
    var f3 := f * ff;
    CongruentSymm(p, l * dx, dy);
    CongruentTimes(p, dy, l * dx, f3);
    CongruentTrans(p, r, dy * f3, l * dx * f3);
    CongruentTimes(p, w, dx * ff, l * f);
    CongruentSymm(p, l * f * w, l * f * (dx * ff));
    Regroup(l, f, dx, ff);
    assert f3 * (l * dx) == l * dx * f3;
    CongruentTrans(p, r, l * dx * f3, l * f * w);
    Assoc(l, f, w);
  }

  // From the denominator f to the denominator f w.
  lemma MoveScale(p: nat, u: int, v: int, x: int, y: int, f: int, w: int)
    requires p > 0 && Congruent(p, u, x * (f * f)) && Congruent(p, v, y * (f * (f * f)))
    ensures var z := f * w; Congruent(p, u * (w * w), x * (z * z)) && Congruent(p, v * (w * (w * w)), y * (z * (z * z)))
  {
    var ff, ww, z := f * f, w * w, f * w;
    var f3, w3 := f * ff, w * ww;
    SquareScaled(f, w);
    assert z * z == ff * ww;
    Regroup(f, w, ff, ww);
    assert z * (z * z) == f3 * w3 by { assert w * ww * (f * ff) == f3 * w3; }
    CongruentTimes(p, u, x * ff, ww);
    CongruentTimes(p, v, y * f3, w3);
    Assoc(x, ff, ww);
    Assoc(y, f3, w3);
  }

  lemma CommonScale(p: nat, sx: int, sy: int, a: int, b: int, x: int, y: int)
    requires p > 0 && Congruent(p, sx, x * (a * a)) && Congruent(p, sy, y * (a * (a * a)))
    ensures var f := a * b;
      && Congruent(p, sx * (b * b), x * (f * f))
      && Congruent(p, sy * (b * (b * b)), y * (f * (f * f)))
  {
    MoveScale(p, sx, sy, x, y, a, b);
  }

  // ---------------------------------------------------------------- the complete law

  // A point of the affine curve, or the point at infinity.
  datatype Affine = Infinity | Affine(x: int, y: int)

  predicate Stands(c: Params, s: Jacobian, a: Affine)
    requires c.p > 0
  {
    if a.Infinity? then s.z == 0 else Represents(c, s, a.x, a.y)
  }

  predicate AffineOnCurve(c: Params, a: Affine)
    requires c.p > 0
  {
    a.Affine? ==> Congruent(c.p, a.y * a.y, a.x * a.x * a.x + c.a * a.x + c.b)
  }

  function Minus(a: Affine): Affine { if a.Infinity? then a else Affine(a.x, -a.y) }

  // l is the slope of the chord through two points, or of the tangent where they agree.
  predicate IsSlope(c: Params, a: Affine, b: Affine, l: int)
    requires c.p > 0
  {
    a.Affine? && b.Affine? ==>
      if !Congruent(c.p, a.x, b.x) then Congruent(c.p, l * (a.x - b.x), a.y - b.y)
      else Congruent(c.p, l * (2 * a.y), 3 * (a.x * a.x) + c.a)
  }

  // The sum of two points: the third point of the line through them, mirrored.
  function AffineSum(c: Params, a: Affine, b: Affine, l: int): Affine
    requires c.p > 0
  {
    if a.Infinity? then b
    else if b.Infinity? then a
    else if Congruent(c.p, a.x, b.x) && Congruent(c.p, a.y, -b.y) then Infinity
    else Affine(ChordX(l, a.x, b.x), ChordY(l, a.x, a.y, ChordX(l, a.x, b.x)))
  }

  // The mirrored operand of ecFullSub stands for the mirrored point.
  lemma NegatedRepresents(c: Params, t: Jacobian, x: int, y: int)
    requires c.Valid() && Represents(c, t, x, y)
    ensures Represents(c, Negated(c, t), x, -y)
  {
    var p, z3 := c.p, t.z * (t.z * t.z);
    CongruentTimes(p, t.y, y * z3, -1);
    assert y * z3 * -1 == -y * z3;
    Shift(p, -t.y - -y * z3, 1);
    assert Congruent(p, p - t.y, -y * z3);
  }

  // On affine points, equal up to the scale means equal.
  lemma SamePointIs(c: Params, s: Jacobian, t: Jacobian, a: Affine, b: Affine)
    requires c.Valid() && a.Affine? && b.Affine? && Stands(c, s, a) && Stands(c, t, b)
    ensures Divides(c.p, DiffU(s, t)) <==> Congruent(c.p, a.x, b.x)
    ensures Divides(c.p, DiffS(s, t)) <==> Congruent(c.p, a.y, b.y)
  {
    var p, f := c.p, s.z * t.z;
    var ff := f * f;
    var f3 := f * ff;
    CommonScale(p, s.x, s.y, s.z, t.z, a.x, a.y);
    CommonScale(p, t.x, t.y, t.z, s.z, b.x, b.y);
    assert t.z * s.z == f;
    CongruentAdd(p, U1(s, t), a.x * ff, U2(s, t), b.x * ff);
    CongruentAdd(p, S1(s, t), a.y * f3, S2(s, t), b.y * f3);
    Factor(a.x, b.x, ff);
    Factor(a.y, b.y, f3);
    ProductNonzero(p, s.z, t.z);
    CubeNonzero(p, f);
    ScaledVanishes(p, DiffU(s, t), a.x - b.x, ff);
    ScaledVanishes(p, DiffS(s, t), a.y - b.y, f3);
  }

  lemma ScaledVanishes(p: nat, d: int, e: int, k: int)
    requires OddPrime(p) && !Divides(p, k) && Congruent(p, d, e * k)
    ensures Divides(p, d) <==> Divides(p, e)
  {
    SameDivides(p, d, e * k);
    if Divides(p, e) {
      DividesProduct(p, e, k);
    } else {
      ProductNonzero(p, e, k);
    }
  }

  // Points of the curve with one abscissa are equal or opposite.
  lemma EqualOrOpposite(c: Params, a: Affine, b: Affine)
    requires c.Valid() && a.Affine? && b.Affine? && AffineOnCurve(c, a) && AffineOnCurve(c, b)
    requires Congruent(c.p, a.x, b.x)
    ensures Congruent(c.p, a.y, b.y) || Congruent(c.p, a.y, -b.y)
  {
    var p := c.p;
    CongruentPower(p, a.x, b.x);
    CongruentTimes(p, a.x, b.x, c.a);
    ReflCongruent(p, c.b);
    CongruentAdd(p, a.x * a.x * a.x, b.x * b.x * b.x, c.a * a.x, c.a * b.x);
    var u, v := a.x * a.x * a.x + c.a * a.x, b.x * b.x * b.x + c.a * b.x;
    CongruentAdd(p, u, v, c.b, c.b);
    CongruentTrans(p, a.y * a.y, u + c.b, v + c.b);
    CongruentSymm(p, b.y * b.y, v + c.b);
    CongruentTrans(p, a.y * a.y, v + c.b, b.y * b.y);
    assert a.y * a.y - b.y * b.y == (a.y - b.y) * (a.y + b.y);
    assert PrimeAt(p, a.y - b.y, a.y + b.y);
    assert a.y + b.y == a.y - -b.y;
  }

  // ecFullAdd computes the sum of the points of the curve its operands stand for; when the
  // result object is the first operand, except for two equal points.
  lemma FullAddLaw(c: Params, aliased: bool, s: Jacobian, t: Jacobian, a: Affine, b: Affine, l: int)
    requires c.Valid() && InRange(c, s) && c.Reduced(t.z) && Stands(c, s, a) && Stands(c, t, b)
    requires AffineOnCurve(c, a) && AffineOnCurve(c, b) && IsSlope(c, a, b, l)
    ensures Stands(c, FullAddValue(c, aliased, s, t),
      if aliased && a.Affine? && b.Affine? && SamePoint(c, s, t) then Infinity else AffineSum(c, a, b, l))
  {
    RemSmall(c.p, 0);
    if a.Affine? && b.Affine? {
      SamePointIs(c, s, t, a, b);
      AddSentinel(c, s, t);
      if !Congruent(c.p, a.x, b.x) {
        AddLaw(c, s, t, a.x, a.y, b.x, b.y, l);
      } else {
        FullAddVertical(c, aliased, s, t, a, b, l);
      }
    }
  }

  lemma FullAddVertical(c: Params, aliased: bool, s: Jacobian, t: Jacobian, a: Affine, b: Affine, l: int)
    requires c.Valid() && InRange(c, s) && c.Reduced(t.z) && s.z != 0 && t.z != 0
    requires a.Affine? && b.Affine? && Stands(c, s, a) && Stands(c, t, b)
    requires AffineOnCurve(c, a) && AffineOnCurve(c, b) && IsSlope(c, a, b, l) && Congruent(c.p, a.x, b.x)
    requires Divides(c.p, DiffU(s, t))
    requires SamePoint(c, s, t) <==> Congruent(c.p, a.y, b.y)
    requires AddValue(c, s, t) == SENTINEL <==> SamePoint(c, s, t)
    requires AddValue(c, s, t).z == 0
    ensures Stands(c, FullAddValue(c, aliased, s, t),
      if aliased && SamePoint(c, s, t) then Infinity else AffineSum(c, a, b, l))
  {
    EqualOrOpposite(c, a, b);
    if SamePoint(c, s, t) && !aliased {
      if Congruent(c.p, a.y, -b.y) {
        DoubleInfinite(c, s);
        SelfOpposite(c, s, a, b);
      } else {
        NotSelfOpposite(c.p, a.y, b.y);
        DoubleLaw(c, s, a.x, a.y, l);
        TangentAt(c, a, b, l);
        var x3 := ChordX(l, a.x, a.x);
        var x4 := ChordX(l, a.x, b.x);
        RepresentsCongruent(c, DoubleValue(c, s), x3, ChordY(l, a.x, a.y, x3), x4, ChordY(l, a.x, a.y, x4));
      }
    }
  }

  lemma SelfOpposite(c: Params, s: Jacobian, a: Affine, b: Affine)
    requires c.Valid() && InRange(c, s) && a.Affine? && b.Affine? && Stands(c, s, a)
    requires Congruent(c.p, a.y, b.y) && Congruent(c.p, a.y, -b.y)
    ensures s.y == 0
  {
    var p, z3 := c.p, s.z * (s.z * s.z);
    CongruentAdd(p, a.y, b.y, a.y, -b.y);
    assert a.y + a.y == 2 * a.y && b.y + -b.y == 0;
    RemSmall(p, 2);
    RemSmall(p, 0);
    Cancel(p, 2, a.y);
    DividesProduct(p, a.y, z3);
    SameDivides(p, s.y, a.y * z3);
    RemSmall(p, s.y);
  }

  lemma NotSelfOpposite(p: nat, y: int, z: int)
    requires p > 0 && Congruent(p, y, z) && !Congruent(p, y, -z)
    ensures !Divides(p, y)
  {
    assert y - (y - z) == z && y + z == y - -z;
    if Divides(p, y) {
      DividesSum(p, y, y - z);
      DividesSum(p, y, z);
    }
  }

  // The tangent at one point in terms of both.
  lemma TangentAt(c: Params, a: Affine, b: Affine, l: int)
    requires c.Valid() && a.Affine? && b.Affine? && Congruent(c.p, a.x, b.x)
    ensures Congruent(c.p, ChordX(l, a.x, a.x), ChordX(l, a.x, b.x))
    ensures Congruent(c.p, ChordY(l, a.x, a.y, ChordX(l, a.x, a.x)), ChordY(l, a.x, a.y, ChordX(l, a.x, b.x)))
  {
    var p, x3, x3' := c.p, ChordX(l, a.x, a.x), ChordX(l, a.x, b.x);
    CongruentSymm(p, a.x, b.x);
    assert x3 - x3' == b.x - a.x;
    CongruentTimes(p, x3, x3', -l);
    assert ChordY(l, a.x, a.y, x3) - ChordY(l, a.x, a.y, x3') == x3 * -l - x3' * -l;
  }

  // Which representative of a coordinate is named makes no difference.
  lemma RepresentsCongruent(c: Params, s: Jacobian, x: int, y: int, x': int, y': int)
    requires c.p > 0 && Represents(c, s, x, y) && Congruent(c.p, x, x') && Congruent(c.p, y, y')
    ensures Represents(c, s, x', y')
  {
    var p, zz, z3 := c.p, s.z * s.z, s.z * (s.z * s.z);
    CongruentTimes(p, x, x', zz);
    CongruentTimes(p, y, y', z3);
    CongruentTrans(p, s.x, x * zz, x' * zz);
    CongruentTrans(p, s.y, y * z3, y' * z3);
  }

  lemma MinusOnCurve(c: Params, a: Affine)
    requires c.p > 0 && AffineOnCurve(c, a)
    ensures AffineOnCurve(c, Minus(a))
  {
    if a.Affine? {
      assert -a.y * -a.y == a.y * a.y;
    }
  }

  // ecFullSub computes the sum with the mirrored point.
  lemma FullSubLaw(c: Params, aliased: bool, s: Jacobian, t: Jacobian, a: Affine, b: Affine, l: int)
    requires c.Valid() && InRange(c, s) && InRange(c, t) && Stands(c, s, a) && Stands(c, t, b)
    requires AffineOnCurve(c, a) && AffineOnCurve(c, b) && IsSlope(c, a, Minus(b), l)
    ensures Stands(c, FullAddValue(c, aliased, s, Negated(c, t)),
      if aliased && a.Affine? && b.Affine? && SamePoint(c, s, Negated(c, t)) then Infinity
      else AffineSum(c, a, Minus(b), l))
  {
    if b.Affine? {
      NegatedRepresents(c, t, b.x, b.y);
    }
    MinusOnCurve(c, b);
    FullAddLaw(c, aliased, s, Negated(c, t), a, Minus(b), l);
  }
}
