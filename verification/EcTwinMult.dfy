/** Simultaneous multiplication d0.S + d1.T (ecTwinMult), over any abelian group. */
module EcTwinMult {
  import opened Groups
  import opened EcMult

  const WORD := 0x1_0000_0000  // uint_t is 32 bits wide

  function TwinMultF(t: nat): (f: nat)
    ensures 9 <= f <= 14
  {
    if 18 <= t < 22 then 9
    else if 14 <= t < 18 then 10
    else if 22 <= t < 24 then 11
    else if 4 <= t < 12 then 14
    else 12
  }

  // The sign of a register is bit 5.
  predicate SignBit(c: nat) { c / 32 % 2 == 1 }

  // The low five bits, complemented when the sign bit is set
  function Magnitude(c: nat): (h: nat)
    ensures h < 32
  {
    if SignBit(c) then 31 - c % 32 else c % 32
  }

  // The digit: 0 below the threshold given by the other register, otherwise the sign of c
  function Column(c: nat, other: nat): int {
    if Magnitude(c) < TwinMultF(Magnitude(other)) then 0
    else if SignBit(c) then -1
    else 1
  }

  // The register moved up by one bit, with the next bit of the scalar, and its sign bit turned
  // when a digit was emitted
  function Shifted(c: nat, bit: nat, u: int): nat
    requires bit < 2
  {
    var c' := (2 * c + bit) % WORD;
    if u == 0 then c' else if SignBit(c') then c' - 32 else c' + 32
  }

  // The four leading bits of d, as loaded before the loop.
  function Leading(d: nat, m: nat): nat {
    Bit(d, m - 4) + 2 * Bit(d, m - 3) + 4 * Bit(d, m - 2) + 8 * Bit(d, m - 1)
  }

  // The low six bits of the register, read as a signed number.
  function Signed(c: nat): int {
    if c % 64 >= 32 then c % 64 - 64 else c % 64
  }

  // The bits of d from the top down to index i, where bits below index 0 read as 0.
  function Consumed(d: nat, i: int): int {
    if i >= 0 then d / Pow2(i) else d * Pow2(-i)
  }

  lemma ConsumedStep(d: nat, i: int)
    ensures Consumed(d, i) == 2 * Consumed(d, i + 1) + Bit(d, i)
  {
    if i >= 0 {
      HalfShift(d, i);
    } else {
      assert Pow2(-i) == 2 * Pow2(-i - 1);
      if i == -1 { assert Pow2(0) == 1; }
    }
  }

  // Consumed bits = 32 * digits + register, and the register stays away from its extremes.
  ghost predicate Tracks(d: nat, i: int, digits: int, c: nat) {
    && Consumed(d, i) == 32 * digits + Signed(c)
    && -28 <= Signed(c) <= 27
  }

  lemma MagnitudeOf(c: nat)
    ensures SignBit(c) <==> Signed(c) < 0
    ensures Magnitude(c) == if Signed(c) < 0 then -1 - Signed(c) else Signed(c)
  {
  }

  lemma SignBitOf(c: nat)
    ensures SignBit(c) <==> c % 64 >= 32
    ensures c % 64 >= 32 ==> c >= 32 && (c - 32) % 64 == c % 64 - 32
    ensures c % 64 < 32 ==> (c + 32) % 64 == c % 64 + 32
  {
    var q, v := c / 64, c % 64;
    if v >= 32 {
      QuotientIs(c, 32, 2 * q + 1, v - 32);
      QuotientIs(c - 32, 64, q, v - 32);
    } else {
      QuotientIs(c, 32, 2 * q, v);
      QuotientIs(c + 32, 64, q, v + 32);
    }
  }

  lemma ShiftedOf(c: nat, bit: nat, u: int)
    requires bit < 2 && -1 <= u <= 1
    requires -32 <= 2 * Signed(c) + bit - 32 * u <= 31
    ensures Signed(Shifted(c, bit, u)) == 2 * Signed(c) + bit - 32 * u
  {
    LowSixBits(c, bit);
    SignBitOf((2 * c + bit) % WORD);
    DoubledSixBits(c % 64, bit);
  }

  lemma DoubledSixBits(v: nat, bit: nat)
    requires v < 64 && bit < 2
    ensures (2 * v + bit) % 64 == if v >= 32 then 2 * v + bit - 64 else 2 * v + bit
  {
  }

  lemma LowSixBits(c: nat, bit: nat)
    requires bit < 2
    ensures (2 * c + bit) % WORD % 64 == (2 * (c % 64) + bit) % 64
  {
    var w := 2 * c + bit;
    assert w % WORD == w - 64 * (67108864 * (w / WORD));
    assert w == 2 * (c % 64) + bit + 64 * (2 * (c / 64));
  }

  lemma RegisterStep(d: nat, i: int, digits: int, c: nat, other: nat)
    requires Tracks(d, i + 1, digits, c)
    ensures Tracks(d, i, 2 * digits + Column(c, other), Shifted(c, Bit(d, i), Column(c, other)))
  {
    MagnitudeOf(c);
    ConsumedStep(d, i);
    ShiftedOf(c, Bit(d, i), Column(c, other));
  }

  lemma {:induction false} PrefixIsZero(d: nat, m: nat)
    requires BitLength(d) <= m
    ensures d / Pow2(m) == 0
  {
    if m == 0 {
    } else if d == 0 {
    } else {
      PrefixIsZero(d / 2, m - 1);
      DivDiv(d, Pow2(m - 1));
    }
  }

  lemma RegisterStart(d: nat, m: nat)
    requires BitLength(d) <= m
    ensures Tracks(d, m - 4, 0, Leading(d, m))
  {
    hide Pow2, Bit, BitLength;
    PrefixIsZero(d, m);
    assert Consumed(d, m) == 0;
    ConsumedStep(d, m - 1);
    ConsumedStep(d, m - 2);
    ConsumedStep(d, m - 3);
    ConsumedStep(d, m - 4);
    var c := Leading(d, m);
    assert c < 16 && c == Consumed(d, m - 4);
  }

  lemma RegisterEnd(d: nat, digits: int, c: nat)
    requires Tracks(d, -5, digits, c)
    ensures digits == d
  {
    assert Pow2(5) == 32 by { assert Pow2(3) == 8 by { assert Pow2(2) == 4; } assert Pow2(4) == 16; }
  }

  // ---------------------------------------------------------------- the point accumulator

  // The eight branches on (u0, u1), with spt = S + T and smt = S - T.
  function AddColumn<G(==)>(g: Group<G>, aliased: bool, r: G, u0: int, u1: int, s: G, t: G, spt: G, smt: G): G {
    if u0 == -1 && u1 == -1 then Difference(g, aliased, r, spt)
    else if u0 == -1 && u1 == 0 then Difference(g, aliased, r, s)
    else if u0 == -1 && u1 == 1 then Difference(g, aliased, r, smt)
    else if u0 == 0 && u1 == -1 then Difference(g, aliased, r, t)
    else if u0 == 0 && u1 == 1 then Sum(g, aliased, r, t)
    else if u0 == 1 && u1 == -1 then Sum(g, aliased, r, smt)
    else if u0 == 1 && u1 == 0 then Sum(g, aliased, r, s)
    else if u0 == 1 && u1 == 1 then Sum(g, aliased, r, spt)
    else r
  }

  // The digit pairs (u0, u1) of the passes k, k - 1, ..., 0, where count = k + 1.
  function Recode(d0: nat, d1: nat, count: nat, c0: nat, c1: nat): seq<(int, int)> {
    if count == 0 then []
    else
      var u0, u1 := Column(c0, c1), Column(c1, c0);
      [(u0, u1)] + Recode(d0, d1, count - 1, Shifted(c0, Bit(d0, count - 6), u0), Shifted(c1, Bit(d1, count - 6), u1))
  }

  function TwinDigits(d0: nat, d1: nat): seq<(int, int)> {
    var m := Max(BitLength(d0), BitLength(d1));
    Recode(d0, d1, m + 1, Leading(d0, m), Leading(d1, m))
  }

  // Double and add a column, for every digit pair.
  function Accumulate<G(==)>(g: Group<G>, aliased: bool, us: seq<(int, int)>, s: G, t: G, r: G): G {
    if us == [] then r
    else Accumulate(g, aliased, us[1..], s, t,
                    AddColumn(g, aliased, g.add(r, r), us[0].0, us[0].1, s, t, g.add(s, t), g.add(s, g.neg(t))))
  }

  function TwinValue<G(==)>(g: Group<G>, aliased: bool, d0: nat, s: G, d1: nat, t: G): G {
    Accumulate(g, aliased, TwinDigits(d0, d1), s, t, g.zero)
  }

  function Max(a: nat, b: nat): nat { if a > b then a else b }

  method EcTwinMult<G(==)>(g: Group<G>, d0: nat, s: G, d1: nat, t: G) returns (r: G)
    ensures r == TwinValue(g, true, d0, s, d1, t)
  {
    var spt := g.add(s, t);
    var smt := g.add(s, g.neg(t));
    var m := Max(BitLength(d0), BitLength(d1));
    var c0 := Leading(d0, m);
    var c1 := Leading(d1, m);
    r := g.zero;
    var k: int := m;
    while k >= 0
      invariant -1 <= k <= m
      invariant Accumulate(g, true, Recode(d0, d1, k + 1, c0, c1), s, t, r) == TwinValue(g, true, d0, s, d1, t)
    {
      ghost var us := Recode(d0, d1, k + 1, c0, c1);
      var h0 := Magnitude(c0);
      var h1 := Magnitude(c1);
      var u0, u1;
      if h0 < TwinMultF(h1) { u0 := 0; } else if SignBit(c0) { u0 := -1; } else { u0 := 1; }
      if h1 < TwinMultF(h0) { u1 := 0; } else if SignBit(c1) { u1 := -1; } else { u1 := 1; }
      c0 := Shifted(c0, Bit(d0, k - 5), u0);
      c1 := Shifted(c1, Bit(d1, k - 5), u1);
      r := g.add(r, r);
      if u0 == -1 && u1 == -1 {
        r := AddOnto(g, r, g.neg(spt));
      } else if u0 == -1 && u1 == 0 {
        r := AddOnto(g, r, g.neg(s));
      } else if u0 == -1 && u1 == 1 {
        r := AddOnto(g, r, g.neg(smt));
      } else if u0 == 0 && u1 == -1 {
        r := AddOnto(g, r, g.neg(t));
      } else if u0 == 0 && u1 == 1 {
        r := AddOnto(g, r, t);
      } else if u0 == 1 && u1 == -1 {
        r := AddOnto(g, r, smt);
      } else if u0 == 1 && u1 == 0 {
        r := AddOnto(g, r, s);
      } else if u0 == 1 && u1 == 1 {
        r := AddOnto(g, r, spt);
      }
      k := k - 1;
      assert us[1..] == Recode(d0, d1, k + 1, c0, c1);
    }
  }

  // The in-place branch that fails: the doubled accumulator is the point to be added.
  ghost predicate Meets<G>(g: Group<G>, r2: G, u0: int, u1: int, s: G, t: G) {
    (u0 != 0 || u1 != 0) && r2 == Comb(g, u0, u1, s, t) && r2 != g.zero
  }

  // No pass meets its own operand, from the scalars (a0, a1) on.
  ghost predicate Clear<G>(g: Group<G>, us: seq<(int, int)>, s: G, t: G, a0: int, a1: int) {
    us == [] ||
    (&& !Meets(g, Comb(g, 2 * a0, 2 * a1, s, t), us[0].0, us[0].1, s, t)
     && Clear(g, us[1..], s, t, 2 * a0 + us[0].0, 2 * a1 + us[0].1))
  }

  // The scalars that digit pairs stand for, most significant first, continued from (a0, a1).
  function Scalars(us: seq<(int, int)>, a0: int, a1: int): (int, int) {
    if us == [] then (a0, a1) else Scalars(us[1..], 2 * a0 + us[0].0, 2 * a1 + us[0].1)
  }

  ghost predicate Signed1(us: seq<(int, int)>) {
    forall u | u in us :: -1 <= u.0 <= 1 && -1 <= u.1 <= 1
  }

  lemma ColumnDigit(c: nat, other: nat)
    ensures -1 <= Column(c, other) <= 1
  {
  }

  lemma {:induction false} RecodeScalars(d0: nat, d1: nat, count: nat, c0: nat, c1: nat, a0: int, a1: int)
    requires Tracks(d0, count - 5, a0, c0) && Tracks(d1, count - 5, a1, c1)
    ensures Scalars(Recode(d0, d1, count, c0, c1), a0, a1) == (d0, d1)
    ensures Signed1(Recode(d0, d1, count, c0, c1))
  {
    hide Column, Shifted, Bit, Tracks;
    if count == 0 {
      RegisterEnd(d0, a0, c0);
      RegisterEnd(d1, a1, c1);
    } else {
      var u0, u1 := Column(c0, c1), Column(c1, c0);
      ColumnDigit(c0, c1);
      ColumnDigit(c1, c0);
      RegisterStep(d0, count - 6, a0, c0, c1);
      RegisterStep(d1, count - 6, a1, c1, c0);
      var n0, n1 := Shifted(c0, Bit(d0, count - 6), u0), Shifted(c1, Bit(d1, count - 6), u1);
      RecodeScalars(d0, d1, count - 1, n0, n1, 2 * a0 + u0, 2 * a1 + u1);
      assert Recode(d0, d1, count, c0, c1)[1..] == Recode(d0, d1, count - 1, n0, n1);
    }
  }

  // The joint recoding is exact for all scalars: one digit pair per pass, digits -1, 0, 1.
  lemma TwinRecodingIsExact(d0: nat, d1: nat)
    ensures Scalars(TwinDigits(d0, d1), 0, 0) == (d0, d1)
    ensures Signed1(TwinDigits(d0, d1))
  {
    var m := Max(BitLength(d0), BitLength(d1));
    RegisterStart(d0, m);
    RegisterStart(d1, m);
    RecodeScalars(d0, d1, m + 1, Leading(d0, m), Leading(d1, m), 0, 0);
  }

  lemma CombSmall<G(!new)>(g: Group<G>, u0: int, u1: int, s: G, t: G)
    requires Abelian(g)
    ensures Comb(g, 1, 1, s, t) == g.add(s, t) && Comb(g, 1, -1, s, t) == g.add(s, g.neg(t))
    ensures Comb(g, 1, 0, s, t) == s && Comb(g, 0, 1, s, t) == t
    ensures Comb(g, 0, 0, s, t) == g.zero
    ensures Comb(g, -u0, -u1, s, t) == g.neg(Comb(g, u0, u1, s, t))
  {
    TimesOne(g, s);
    TimesOne(g, t);
    assert UnitAt(g, s) && UnitAt(g, g.zero);
    ZeroLeft(g, t);
    CombNeg(g, u0, u1, s, t);
  }

  lemma AddColumnValue<G(!new)>(g: Group<G>, aliased: bool, a0: int, a1: int, u0: int, u1: int, s: G, t: G)
    requires Abelian(g) && -1 <= u0 <= 1 && -1 <= u1 <= 1
    requires aliased ==> !Meets(g, Comb(g, a0, a1, s, t), u0, u1, s, t)
    ensures AddColumn(g, aliased, Comb(g, a0, a1, s, t), u0, u1, s, t, g.add(s, t), g.add(s, g.neg(t)))
         == Comb(g, a0 + u0, a1 + u1, s, t)
  {
    var r2, c := Comb(g, a0, a1, s, t), Comb(g, u0, u1, s, t);
    CombSmall(g, -u0, -u1, s, t);
    CombAdd(g, a0, a1, u0, u1, s, t);
    ZeroLeft(g, c);
    assert UnitAt(g, r2);
    if u0 == 0 && u1 == 0 {
    } else {
      assert Sum(g, aliased, r2, c) == Comb(g, a0 + u0, a1 + u1, s, t);
      assert AddColumn(g, aliased, r2, u0, u1, s, t, g.add(s, t), g.add(s, g.neg(t))) == Sum(g, aliased, r2, c);
    }
  }

  lemma {:induction false} AccumulateValue<G(!new)>(g: Group<G>, aliased: bool, us: seq<(int, int)>, s: G, t: G, a0: int, a1: int)
    requires Abelian(g) && Signed1(us)
    requires aliased ==> Clear(g, us, s, t, a0, a1)
    ensures var k := Scalars(us, a0, a1);
      Accumulate(g, aliased, us, s, t, Comb(g, a0, a1, s, t)) == Comb(g, k.0, k.1, s, t)
    decreases |us|
  {
    hide Comb, AddColumn;
    if us != [] {
      CombAdd(g, a0, a1, a0, a1, s, t);
      AddColumnValue(g, aliased, 2 * a0, 2 * a1, us[0].0, us[0].1, s, t);
      AccumulateValue(g, aliased, us[1..], s, t, 2 * a0 + us[0].0, 2 * a1 + us[0].1);
    }
  }

  // With exact sums the loop computes d0.S + d1.T for all scalars and all points; with the
  // in-place sums of the code it does whenever no pass adds the accumulator to itself.
  lemma TwinCorrect<G(!new)>(g: Group<G>, aliased: bool, d0: nat, s: G, d1: nat, t: G)
    requires Abelian(g)
    requires aliased ==> Clear(g, TwinDigits(d0, d1), s, t, 0, 0)
    ensures TwinValue(g, aliased, d0, s, d1, t) == Comb(g, d0, d1, s, t)
  {
    TwinRecodingIsExact(d0, d1);
    CombSmall(g, 0, 0, s, t);
    AccumulateValue(g, aliased, TwinDigits(d0, d1), s, t, 0, 0);
  }

  // How many passes of the in-place run meet their operand, from accumulator (a0, a1) on. Such
  // a pass leaves zero instead of the double.
  ghost function Meetings<G>(g: Group<G>, us: seq<(int, int)>, s: G, t: G, a0: int, a1: int): nat {
    if us == [] then 0
    else if Meets(g, Comb(g, 2 * a0, 2 * a1, s, t), us[0].0, us[0].1, s, t) then 1 + Meetings(g, us[1..], s, t, 0, 0)
    else Meetings(g, us[1..], s, t, 2 * a0 + us[0].0, 2 * a1 + us[0].1)
  }

  // The scalars of the digits after the last such pass.
  ghost function Kept<G>(g: Group<G>, us: seq<(int, int)>, s: G, t: G, a0: int, a1: int): (int, int) {
    if us == [] then (a0, a1)
    else if Meets(g, Comb(g, 2 * a0, 2 * a1, s, t), us[0].0, us[0].1, s, t) then Kept(g, us[1..], s, t, 0, 0)
    else Kept(g, us[1..], s, t, 2 * a0 + us[0].0, 2 * a1 + us[0].1)
  }

  lemma AddColumnMeets<G(!new)>(g: Group<G>, a0: int, a1: int, u0: int, u1: int, s: G, t: G)
    requires Abelian(g) && -1 <= u0 <= 1 && -1 <= u1 <= 1
    requires Meets(g, Comb(g, a0, a1, s, t), u0, u1, s, t)
    ensures AddColumn(g, true, Comb(g, a0, a1, s, t), u0, u1, s, t, g.add(s, t), g.add(s, g.neg(t))) == g.zero
  {
    var r2, c := Comb(g, a0, a1, s, t), Comb(g, u0, u1, s, t);
    CombSmall(g, -u0, -u1, s, t);
    assert Sum(g, true, r2, c) == g.zero;
    assert AddColumn(g, true, r2, u0, u1, s, t, g.add(s, t), g.add(s, g.neg(t))) == Sum(g, true, r2, c);
  }

  lemma {:induction false} InPlaceValue<G(!new)>(g: Group<G>, us: seq<(int, int)>, s: G, t: G, a0: int, a1: int)
    requires Abelian(g) && Signed1(us)
    ensures var k := Kept(g, us, s, t, a0, a1);
      Accumulate(g, true, us, s, t, Comb(g, a0, a1, s, t)) == Comb(g, k.0, k.1, s, t)
    decreases |us|
  {
    hide Comb, AddColumn, Meets;
    if us != [] {
      CombAdd(g, a0, a1, a0, a1, s, t);
      if Meets(g, Comb(g, 2 * a0, 2 * a1, s, t), us[0].0, us[0].1, s, t) {
        AddColumnMeets(g, 2 * a0, 2 * a1, us[0].0, us[0].1, s, t);
        CombSmall(g, 0, 0, s, t);
        InPlaceValue(g, us[1..], s, t, 0, 0);
      } else {
        AddColumnValue(g, true, 2 * a0, 2 * a1, us[0].0, us[0].1, s, t);
        InPlaceValue(g, us[1..], s, t, 2 * a0 + us[0].0, 2 * a1 + us[0].1);
      }
    }
  }

  lemma DoublePower(n: nat, b: int)
    requires n > 0
    ensures Pow2(n - 1) * (2 * b) == Pow2(n) * b
  {
  }

  lemma {:induction false} ClearMeansNone<G(!new)>(g: Group<G>, us: seq<(int, int)>, s: G, t: G, a0: int, a1: int)
    ensures Clear(g, us, s, t, a0, a1) <==> Meetings(g, us, s, t, a0, a1) == 0
    decreases |us|
  {
    hide Meets, Comb;
    if us != [] {
      ClearMeansNone(g, us[1..], s, t, 2 * a0 + us[0].0, 2 * a1 + us[0].1);
    }
  }

  // Only zero is its own inverse, as in every group of odd order.
  ghost predicate Halvable<G(!new)>(g: Group<G>) {
    forall x: G :: HalvableAt(g, x)
  }

  ghost predicate HalvableAt<G>(g: Group<G>, x: G) {
    g.add(x, x) == g.zero ==> x == g.zero
  }

  lemma {:induction false} PowerNonZero<G(!new)>(g: Group<G>, n: nat, b0: int, b1: int, s: G, t: G)
    requires Abelian(g) && Halvable(g) && Comb(g, b0, b1, s, t) != g.zero
    ensures Comb(g, Pow2(n) * b0, Pow2(n) * b1, s, t) != g.zero
  {
    hide Comb;
    if n > 0 {
      assert HalvableAt(g, Comb(g, b0, b1, s, t));
      CombAdd(g, b0, b1, b0, b1, s, t);
      PowerNonZero(g, n - 1, 2 * b0, 2 * b1, s, t);
      DoublePower(n, b0);
      DoublePower(n, b1);
    }
  }

  // As the code runs it, the result is that of the digits after the last pass that met its
  // operand, for all scalars and points.
  lemma TwinInPlace<G(!new)>(g: Group<G>, d0: nat, s: G, d1: nat, t: G)
    requires Abelian(g)
    ensures var k := Kept(g, TwinDigits(d0, d1), s, t, 0, 0);
      TwinValue(g, true, d0, s, d1, t) == Comb(g, k.0, k.1, s, t)
  {
    TwinRecodingIsExact(d0, d1);
    CombSmall(g, 0, 0, s, t);
    InPlaceValue(g, TwinDigits(d0, d1), s, t, 0, 0);
  }

  // The scalars of the digits up to the last such pass, as they stand at the end, when (l0, l1)
  // have been lost before.
  ghost function Lost<G>(g: Group<G>, us: seq<(int, int)>, s: G, t: G, a0: int, a1: int, l0: int, l1: int): (int, int) {
    if us == [] then (l0, l1)
    else if Meets(g, Comb(g, 2 * a0, 2 * a1, s, t), us[0].0, us[0].1, s, t) then
      Lost(g, us[1..], s, t, 0, 0, 2 * (l0 + a0) + us[0].0, 2 * (l1 + a1) + us[0].1)
    else Lost(g, us[1..], s, t, 2 * a0 + us[0].0, 2 * a1 + us[0].1, 2 * l0, 2 * l1)
  }

  // Every digit is kept or lost.
  lemma {:induction false} KeptAndLost<G(!new)>(g: Group<G>, us: seq<(int, int)>, s: G, t: G, a0: int, a1: int,
                                               l0: int, l1: int)
    ensures var k, l := Kept(g, us, s, t, a0, a1), Lost(g, us, s, t, a0, a1, l0, l1);
      Scalars(us, a0 + l0, a1 + l1) == (k.0 + l.0, k.1 + l.1)
    decreases |us|
  {
    hide Meets, Comb;
    if us != [] {
      var u0, u1 := us[0].0, us[0].1;
      if Meets(g, Comb(g, 2 * a0, 2 * a1, s, t), u0, u1, s, t) {
        KeptAndLost(g, us[1..], s, t, 0, 0, 2 * (l0 + a0) + u0, 2 * (l1 + a1) + u1);
      } else {
        KeptAndLost(g, us[1..], s, t, 2 * a0 + u0, 2 * a1 + u1, 2 * l0, 2 * l1);
      }
    }
  }

  // For all scalars and all points of every abelian group, the in-place result is right if and
  // only if the scalars lost give zero.
  lemma TwinExact<G(!new)>(g: Group<G>, d0: nat, s: G, d1: nat, t: G)
    requires Abelian(g)
    ensures var l := Lost(g, TwinDigits(d0, d1), s, t, 0, 0, 0, 0);
      && TwinValue(g, true, d0, s, d1, t) == Comb(g, d0 - l.0, d1 - l.1, s, t)
      && (TwinValue(g, true, d0, s, d1, t) == Comb(g, d0, d1, s, t) <==> Comb(g, l.0, l.1, s, t) == g.zero)
  {
    hide Comb, TwinDigits, TwinValue, Kept, Lost;
    var us := TwinDigits(d0, d1);
    var l := Lost(g, us, s, t, 0, 0, 0, 0);
    TwinInPlace(g, d0, s, d1, t);
    TwinRecodingIsExact(d0, d1);
    KeptAndLost(g, us, s, t, 0, 0, 0, 0);
    CombAdd(g, d0 - l.0, d1 - l.1, l.0, l.1, s, t);
    SumKeeps(g, Comb(g, d0 - l.0, d1 - l.1, s, t), Comb(g, l.0, l.1, s, t));
  }

  // The scalars up to the last such pass, as they stand right after it, when (e0, e1) is the
  // exact accumulator.
  ghost function LastLoss<G>(g: Group<G>, us: seq<(int, int)>, s: G, t: G, a0: int, a1: int, e0: int, e1: int)
    : (int, int) {
    if us == [] then (0, 0)
    else
      var x0, x1 := 2 * e0 + us[0].0, 2 * e1 + us[0].1;
      if !Meets(g, Comb(g, 2 * a0, 2 * a1, s, t), us[0].0, us[0].1, s, t) then
        LastLoss(g, us[1..], s, t, 2 * a0 + us[0].0, 2 * a1 + us[0].1, x0, x1)
      else if Meetings(g, us[1..], s, t, 0, 0) == 0 then (x0, x1)
      else LastLoss(g, us[1..], s, t, 0, 0, x0, x1)
  }

  // What is lost at the end is that, doubled in every pass that follows.
  lemma {:induction false} LostIsDoubled<G(!new)>(g: Group<G>, us: seq<(int, int)>, s: G, t: G, a0: int, a1: int,
                                                 e0: int, e1: int) returns (n: nat)
    requires Meetings(g, us, s, t, a0, a1) > 0
    ensures Lost(g, us, s, t, a0, a1, e0 - a0, e1 - a1)
      == (Pow2(n) * LastLoss(g, us, s, t, a0, a1, e0, e1).0, Pow2(n) * LastLoss(g, us, s, t, a0, a1, e0, e1).1)
    decreases |us|
  {
    hide Meets, Comb;
    var u0, u1 := us[0].0, us[0].1;
    if !Meets(g, Comb(g, 2 * a0, 2 * a1, s, t), u0, u1, s, t) {
      n := LostIsDoubled(g, us[1..], s, t, 2 * a0 + u0, 2 * a1 + u1, 2 * e0 + u0, 2 * e1 + u1);
    } else if Meetings(g, us[1..], s, t, 0, 0) == 0 {
      n := |us[1..]|;
      NoneLost(g, us[1..], s, t, 0, 0, 2 * e0 + u0, 2 * e1 + u1);
    } else {
      n := LostIsDoubled(g, us[1..], s, t, 0, 0, 2 * e0 + u0, 2 * e1 + u1);
    }
  }

  lemma {:induction false} NoneLost<G(!new)>(g: Group<G>, us: seq<(int, int)>, s: G, t: G, a0: int, a1: int,
                                            l0: int, l1: int)
    requires Meetings(g, us, s, t, a0, a1) == 0
    ensures Lost(g, us, s, t, a0, a1, l0, l1) == (Pow2(|us|) * l0, Pow2(|us|) * l1)
    decreases |us|
  {
    hide Meets, Comb;
    if us != [] {
      NoneLost(g, us[1..], s, t, 2 * a0 + us[0].0, 2 * a1 + us[0].1, 2 * l0, 2 * l1);
      DoublePower(|us|, l0);
      DoublePower(|us|, l1);
    }
  }

  // In a group of odd order the in-place result is right if and only if no pass met its operand
  // or the scalars read up to the last one that did give zero.
  lemma TwinExactOdd<G(!new)>(g: Group<G>, d0: nat, s: G, d1: nat, t: G)
    requires Abelian(g) && Halvable(g)
    ensures var us := TwinDigits(d0, d1);
      var p := LastLoss(g, us, s, t, 0, 0, 0, 0);
      TwinValue(g, true, d0, s, d1, t) == Comb(g, d0, d1, s, t)
      <==> Clear(g, us, s, t, 0, 0) || Comb(g, p.0, p.1, s, t) == g.zero
  {
    hide Comb, TwinDigits, TwinValue, Lost, LastLoss, Meetings, Clear;
    var us := TwinDigits(d0, d1);
    ClearMeansNone(g, us, s, t, 0, 0);
    TwinExact(g, d0, s, d1, t);
    if Meetings(g, us, s, t, 0, 0) > 0 {
      var p := LastLoss(g, us, s, t, 0, 0, 0, 0);
      var n := LostIsDoubled(g, us, s, t, 0, 0, 0, 0);
      if Comb(g, p.0, p.1, s, t) == g.zero {
        PowerOfZero(g, n, p.0, p.1, s, t);
      } else {
        PowerNonZero(g, n, p.0, p.1, s, t);
      }
    } else {
      TwinCorrect(g, true, d0, s, d1, t);
    }
  }

  lemma {:induction false} PowerOfZero<G(!new)>(g: Group<G>, n: nat, b0: int, b1: int, s: G, t: G)
    requires Abelian(g) && Comb(g, b0, b1, s, t) == g.zero
    ensures Comb(g, Pow2(n) * b0, Pow2(n) * b1, s, t) == g.zero
  {
    hide Comb;
    if n > 0 {
      CombAdd(g, b0, b1, b0, b1, s, t);
      ZeroLeft(g, g.zero);
      PowerOfZero(g, n - 1, 2 * b0, 2 * b1, s, t);
      DoublePower(n, b0);
      DoublePower(n, b1);
    }
  }

  // In such a group a single pass that met its operand always spoils the result.
  lemma OneMeetingSpoils<G(!new)>(g: Group<G>, d0: nat, s: G, d1: nat, t: G)
    requires Abelian(g) && Halvable(g) && Meetings(g, TwinDigits(d0, d1), s, t, 0, 0) <= 1
    ensures TwinValue(g, true, d0, s, d1, t) == Comb(g, d0, d1, s, t) <==> Clear(g, TwinDigits(d0, d1), s, t, 0, 0)
  {
    hide Comb, TwinDigits, TwinValue, LastLoss, Meetings, Clear;
    var us := TwinDigits(d0, d1);
    TwinExactOdd(g, d0, s, d1, t);
    ClearMeansNone(g, us, s, t, 0, 0);
    if Meetings(g, us, s, t, 0, 0) == 1 {
      FirstLoss(g, us, s, t, 0, 0);
    }
  }

  // The first such pass loses the double of its operand.
  lemma {:induction false} FirstLoss<G(!new)>(g: Group<G>, us: seq<(int, int)>, s: G, t: G, a0: int, a1: int)
    requires Abelian(g) && Halvable(g) && Meetings(g, us, s, t, a0, a1) == 1
    ensures var p := LastLoss(g, us, s, t, a0, a1, a0, a1); Comb(g, p.0, p.1, s, t) != g.zero
    decreases |us|
  {
    hide Comb;
    var u0, u1 := us[0].0, us[0].1;
    if Meets(g, Comb(g, 2 * a0, 2 * a1, s, t), u0, u1, s, t) {
      CombAdd(g, 2 * a0, 2 * a1, u0, u1, s, t);
      assert HalvableAt(g, Comb(g, u0, u1, s, t));
    } else {
      FirstLoss(g, us[1..], s, t, 2 * a0 + u0, 2 * a1 + u1);
    }
  }

  // With S = T of order 5 the in-place result for d0 = 1, d1 = 3 is not 4.S.
  lemma TwinFailsAtOrderFive()
    ensures Abelian(CYCLIC5) && HasOrder(CYCLIC5, 1, 5)
    ensures TwinValue(CYCLIC5, true, 1, 1, 3, 1) != Comb(CYCLIC5, 1, 3, 1, 1)
  {
    Cyclic5();
    Cyclic5Times(1);
    Cyclic5Times(3);
    DigitsOf13();
    var spt: Mod5, smt: Mod5 := Add5(1, 1), Add5(1, Neg5(1));
    assert AddColumn(CYCLIC5, true, 0, 0, 0, 1, 1, spt, smt) == 0;
    assert AddColumn(CYCLIC5, true, 0, 0, 1, 1, 1, spt, smt) == 1;
    assert AddColumn(CYCLIC5, true, 2, 1, 1, 1, 1, spt, smt) == 0;
    assert Accumulate(CYCLIC5, true, [(1, 1)], 1, 1, 1) == 0;
    assert [(0, 1), (1, 1)][1..] == [(1, 1)];
    assert Accumulate(CYCLIC5, true, [(0, 1), (1, 1)], 1, 1, 0) == 0;
    assert [(0, 0), (0, 1), (1, 1)][1..] == [(0, 1), (1, 1)];
  }

  lemma DigitsOf13()
    ensures TwinDigits(1, 3) == [(0, 0), (0, 1), (1, 1)]
  {
    hide Column, Shifted, Leading, BitLength, Bit, Max;
    StartOf13();
    PassesOf13();
    assert Recode(1, 3, 1, 16, 16) == [(1, 1)];
    assert Recode(1, 3, 2, 8, 24) == [(0, 1), (1, 1)];
    assert Recode(1, 3, 3, 4, 12) == [(0, 0), (0, 1), (1, 1)];
  }

  lemma StartOf13()
    ensures Max(BitLength(1), BitLength(3)) == 2
    ensures Leading(1, 2) == 4 && Leading(3, 2) == 12
  {
    assert BitLength(1) == 1 && BitLength(3) == 2;
    assert Pow2(1) == 2;
  }

  lemma PassesOf13()
    ensures Column(4, 12) == 0 && Column(12, 4) == 0
    ensures Column(8, 24) == 0 && Column(24, 8) == 1
    ensures Column(16, 16) == 1
    ensures Shifted(4, Bit(1, -3), 0) == 8 && Shifted(12, Bit(3, -3), 0) == 24
    ensures Shifted(8, Bit(1, -4), 0) == 16 && Shifted(24, Bit(3, -4), 1) == 16
  {
  }

  // Two such passes can make up for one another: with S = T of order 5 the in-place result for
  // d0 = 8, d1 = 27 is right although the third pass and the last one meet their operands.
  lemma TwinRightAtOrderFive()
    ensures TwinValue(CYCLIC5, true, 8, 1, 27, 1) == Comb(CYCLIC5, 8, 27, 1, 1)
    ensures !Clear(CYCLIC5, TwinDigits(8, 27), 1, 1, 0, 0)
  {
    hide TwinDigits, AddColumn;
    Cyclic5();
    forall k: int ensures Times(CYCLIC5, k, 1) == k % 5 { Cyclic5Times(k); }
    DigitsOf827();
    ghost var us := [(0, 0), (0, 1), (1, 1), (0, 1), (0, 0), (0, -1)];
    ColumnsOfOne();
    assert us[1..] == [(0, 1), (1, 1), (0, 1), (0, 0), (0, -1)];
    assert us[1..][1..] == [(1, 1), (0, 1), (0, 0), (0, -1)];
    assert us[1..][1..][1..] == [(0, 1), (0, 0), (0, -1)];
    assert us[1..][1..][1..][1..] == [(0, 0), (0, -1)];
    assert us[1..][1..][1..][1..][1..] == [(0, -1)];
    assert Accumulate(CYCLIC5, true, [(0, -1)], 1, 1, 2) == 0;
    assert Accumulate(CYCLIC5, true, us[1..][1..][1..][1..], 1, 1, 1) == 0;
    assert Accumulate(CYCLIC5, true, us[1..][1..][1..], 1, 1, 0) == 0;
    assert Accumulate(CYCLIC5, true, us[1..][1..], 1, 1, 1) == 0;
    assert Accumulate(CYCLIC5, true, us[1..], 1, 1, 0) == 0;
    assert !Clear(CYCLIC5, us[1..][1..], 1, 1, 0, 1);
    assert !Clear(CYCLIC5, us[1..], 1, 1, 0, 0);
  }

  lemma ColumnsOfOne()
    ensures var p: Mod5, q: Mod5 := Add5(1, 1), Add5(1, Neg5(1));
      && AddColumn(CYCLIC5, true, 0, 0, 0, 1, 1, p, q) == 0
      && AddColumn(CYCLIC5, true, 0, 0, 1, 1, 1, p, q) == 1
      && AddColumn(CYCLIC5, true, 2, 1, 1, 1, 1, p, q) == 0
      && AddColumn(CYCLIC5, true, 2, 0, 0, 1, 1, p, q) == 2
      && AddColumn(CYCLIC5, true, 4, 0, -1, 1, 1, p, q) == 0
  {
  }

  lemma DigitsOf827()
    ensures TwinDigits(8, 27) == [(0, 0), (0, 1), (1, 1), (0, 1), (0, 0), (0, -1)]
  {
    hide Column, Shifted, Leading, BitLength, Bit, Max;
    StartOf827();
    ColumnsOf827();
    BitsOf827();
    ShiftsOf827();
    assert Recode(8, 27, 1, 0, 112) == [(0, -1)];
    assert Recode(8, 27, 2, 0, 56) == [(0, 0), (0, -1)];
    assert Recode(8, 27, 3, 0, 12) == [(0, 1), (0, 0), (0, -1)];
    assert Recode(8, 27, 4, 16, 22) == [(1, 1), (0, 1), (0, 0), (0, -1)];
    assert Recode(8, 27, 5, 8, 27) == [(0, 1), (1, 1), (0, 1), (0, 0), (0, -1)];
    assert Recode(8, 27, 6, 4, 13) == [(0, 0), (0, 1), (1, 1), (0, 1), (0, 0), (0, -1)];
  }

  lemma StartOf827()
    ensures Max(BitLength(8), BitLength(27)) == 5
    ensures Leading(8, 5) == 4 && Leading(27, 5) == 13
  {
    assert Pow2(1) == 2 && Pow2(2) == 4;
    assert Pow2(3) == 8 && Pow2(4) == 16;
    assert BitLength(2) == 2 && BitLength(3) == 2;
    assert BitLength(6) == 3 && BitLength(4) == 3;
    assert BitLength(13) == 4 && BitLength(8) == 4;
  }

  lemma ColumnsOf827()
    ensures Column(4, 13) == 0 && Column(13, 4) == 0
    ensures Column(8, 27) == 0 && Column(27, 8) == 1
    ensures Column(16, 22) == 1 && Column(22, 16) == 1
    ensures Column(0, 12) == 0 && Column(12, 0) == 1
    ensures Column(0, 56) == 0 && Column(56, 0) == 0
    ensures Column(0, 112) == 0 && Column(112, 0) == -1
  {
  }

  lemma BitsOf827()
    ensures Bit(8, 0) == 0 && Bit(27, 0) == 1
    ensures forall i: int :: i < 0 ==> Bit(8, i) == 0 && Bit(27, i) == 0
  {
  }

  lemma ShiftsOf827()
    ensures Shifted(4, 0, 0) == 8 && Shifted(13, 1, 0) == 27
    ensures Shifted(8, 0, 0) == 16 && Shifted(27, 0, 1) == 22
    ensures Shifted(16, 0, 1) == 0 && Shifted(22, 0, 1) == 12
    ensures Shifted(0, 0, 0) == 0 && Shifted(12, 0, 1) == 56
    ensures Shifted(56, 0, 0) == 112
  {
  }
}
