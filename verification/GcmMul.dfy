/** The in-place multiplication of GHASH (gcmMul, gcmShiftBlock) and the field it multiplies in. */
module GcmMul {
  import opened Blocks
  import opened Gf128

  // Bit k of an octet, counted from the most significant one.
  predicate BitOf(b: byte, k: nat)
    requires k < 8
  {
    b & Mask(k) != 0
  }

  predicate SingleBit(m: byte) {
    m == 0x80 || m == 0x40 || m == 0x20 || m == 0x10 || m == 0x08 || m == 0x04 || m == 0x02 || m == 0x01
  }

  // The octet with only bit k set
  function Mask(k: nat): (m: byte)
    ensures SingleBit(m)
  {
    if k == 0 then 0x80 else if k == 1 then 0x40 else if k == 2 then 0x20 else if k == 3 then 0x10
    else if k == 4 then 0x08 else if k == 5 then 0x04 else if k == 6 then 0x02 else 0x01
  }

  // Bit i of a string is the coefficient of x^i.
  predicate BitAt(b: seq<byte>, i: nat)
    requires i < 8 * |b|
  {
    BitOf(b[i / 8], i % 8)
  }

  function PolyOf(b: seq<byte>): (p: Poly)
    ensures Below(p, 8 * |b|)
  {
    set i: nat | 0 <= i < 8 * |b| && BitAt(b, i)
  }

  lemma MaskXor(a: byte, b: byte, m: byte)
    requires SingleBit(m)
    ensures (a ^ b) & m != 0 <==> (a & m != 0) != (b & m != 0)
  {
    assert (a ^ b) & m == (a & m) ^ (b & m);
    MaskBit(a, m);
    MaskBit(b, m);
  }

  lemma MaskBit(a: byte, m: byte)
    requires SingleBit(m)
    ensures a & m == 0 || a & m == m
  {
  }

  lemma BitXor(a: byte, b: byte, k: nat)
    requires k < 8
    ensures BitOf(a ^ b, k) <==> BitOf(a, k) != BitOf(b, k)
  {
    hide Mask;
    MaskXor(a, b, Mask(k));
  }

  lemma BitShift(a: byte, prev: byte, k: nat)
    requires k < 8
    ensures BitOf(Carry(a, prev), k) <==> if k == 0 then BitOf(prev, 7) else BitOf(a, k - 1)
    ensures BitOf(a >> 1, k) <==> k > 0 && BitOf(a, k - 1)
    ensures a & 0x01 != 0 <==> BitOf(a, 7)
    ensures BitOf(0xE1, k) <==> k == 0 || k == 1 || k == 2 || k == 7
  {
    if k == 0 {} else if k == 1 {} else if k == 2 {} else if k == 3 {}
    else if k == 4 {} else if k == 5 {} else if k == 6 {} else {}
  }

  lemma BitsDetermine(a: byte, b: byte)
    requires forall k: nat | k < 8 :: BitOf(a, k) == BitOf(b, k)
    ensures a == b
  {
    assert BitOf(a, 0) == BitOf(b, 0) && BitOf(a, 1) == BitOf(b, 1);
    assert BitOf(a, 2) == BitOf(b, 2) && BitOf(a, 3) == BitOf(b, 3);
    assert BitOf(a, 4) == BitOf(b, 4) && BitOf(a, 5) == BitOf(b, 5);
    assert BitOf(a, 6) == BitOf(b, 6) && BitOf(a, 7) == BitOf(b, 7);
  }

  // ---------------------------------------------------------------- octet strings as polynomials

  lemma PolyXor(a: seq<byte>, b: seq<byte>)
    requires |a| == |b|
    ensures PolyOf(Xor(a, b)) == Plus(PolyOf(a), PolyOf(b))
  {
    hide BitOf;
    forall i: nat ensures i in PolyOf(Xor(a, b)) <==> i in Plus(PolyOf(a), PolyOf(b)) {
      if i < 8 * |a| {
        BitXor(a[i / 8], b[i / 8], i % 8);
      }
    }
  }

  lemma PolyZeros(n: nat)
    ensures PolyOf(Zeros(n)) == {}
  {
    forall i: nat | i < 8 * n ensures !BitAt(Zeros(n), i) {
      ZeroBits(i % 8);
    }
  }

  lemma ZeroBits(k: nat)
    requires k < 8
    ensures !BitOf(0, k)
  {
    hide Mask;
    MaskXor(0, 0, Mask(k));
  }

  lemma PolyDetermines(a: seq<byte>, b: seq<byte>)
    requires |a| == |b| && PolyOf(a) == PolyOf(b)
    ensures a == b
  {
    forall j | 0 <= j < |a| ensures a[j] == b[j] {
      forall k: nat | k < 8 ensures BitOf(a[j], k) == BitOf(b[j], k) {
        Position(j, k);
        assert BitAt(a, 8 * j + k) == (8 * j + k in PolyOf(a));
        assert BitAt(b, 8 * j + k) == (8 * j + k in PolyOf(b));
      }
      BitsDetermine(a[j], b[j]);
    }
  }

  lemma Position(j: nat, k: nat)
    requires k < 8
    ensures (8 * j + k) / 8 == j && (8 * j + k) % 8 == k
  {
  }

  // ---------------------------------------------------------------- multiplication by x

  function Carry(a: byte, prev: byte): byte { (a >> 1) | (prev << 7) }

  // gcmShiftBlock: every bit moves to the next position, the last one is dropped.
  function ShiftBlock(a: seq<byte>): (r: seq<byte>)
    requires |a| > 0
    ensures |r| == |a|
  {
    [a[0] >> 1] + seq(|a| - 1, i requires 0 <= i < |a| - 1 => Carry(a[i + 1], a[i]))
  }

  lemma ShiftBlockAt(a: seq<byte>, k: nat)
    requires k < |a|
    ensures ShiftBlock(a)[k] == if k == 0 then a[0] >> 1 else Carry(a[k], a[k - 1])
  {
    hide Carry;
  }

  method GcmShiftBlock(a: array<byte>)
    requires a.Length == 16
    modifies a
    ensures a[..] == ShiftBlock(old(a[..]))
  {
    hide Carry, ShiftBlock;
    ghost var was := a[..];
    for i := 0 to 15
      invariant forall k | 0 <= k < 16 - i :: a[k] == was[k]
      invariant forall k | 16 - i <= k < 16 :: a[k] == ShiftBlock(was)[k]
    {
      ShiftBlockAt(was, 15 - i);
      a[15 - i] := Carry(a[15 - i], a[14 - i]);
    }
    ShiftBlockAt(was, 0);
    a[0] := a[0] >> 1;
  }

  lemma ShiftBits(a: seq<byte>, i: nat)
    requires |a| == 16 && i < 128
    ensures BitAt(ShiftBlock(a), i) <==> i > 0 && BitAt(a, i - 1)
  {
    hide Carry, BitOf, ShiftBlock;
    var j, k := i / 8, i % 8;
    ShiftBlockAt(a, j);
    if j == 0 {
      BitShift(a[0], 0, k);
    } else {
      BitShift(a[j], a[j - 1], k);
      if k == 0 {
        Position(j - 1, 7);
      } else {
        Position(j, k - 1);
      }
    }
    if j == 0 && k > 0 {
      Position(0, k - 1);
    }
  }

  // One step of v in gcmMul.
  function TimesX(v: seq<byte>): (r: seq<byte>)
    requires |v| == 16
    ensures |r| == 16
  {
    if v[15] & 0x01 != 0 then ShiftBlock(v)[0 := ShiftBlock(v)[0] ^ 0xE1] else ShiftBlock(v)
  }

  const REDUCTION: Poly := {0, 1, 2, 7}

  lemma ReductionBits(w: seq<byte>)
    requires |w| == 16
    ensures PolyOf(w[0 := w[0] ^ 0xE1]) == Plus(PolyOf(w), REDUCTION)
  {
    hide Carry, BitOf;
    var r := w[0 := w[0] ^ 0xE1];
    forall i: nat ensures i in PolyOf(r) <==> i in Plus(PolyOf(w), REDUCTION) {
      if i < 8 {
        BitXor(w[0], 0xE1, i);
        BitShift(0, 0, i);
      } else if i < 128 {
        assert r[i / 8] == w[i / 8];
      }
    }
  }

  lemma PolyShift(v: seq<byte>)
    requires |v| == 16
    ensures PolyOf(ShiftBlock(v)) == Shift(PolyOf(v), 1) - {128}
    ensures 128 in Shift(PolyOf(v), 1) <==> v[15] & 0x01 != 0
    ensures Below(Shift(PolyOf(v), 1), 129)
  {
    hide ShiftBlock, BitOf, Carry;
    BitShift(v[15], 0, 0);
    InShift(PolyOf(v), 1, 128);
    forall i: nat ensures i in PolyOf(ShiftBlock(v)) <==> i in Shift(PolyOf(v), 1) - {128} {
      InShift(PolyOf(v), 1, i);
      if i < 128 {
        ShiftBits(v, i);
      }
    }
  }

  // v becomes x v modulo the field polynomial.
  lemma TimesXIsShift(v: seq<byte>)
    requires |v| == 16
    ensures Congruent(PolyOf(TimesX(v)), Shift(PolyOf(v), 1))
  {
    hide ShiftBlock, PolyOf, TimesModulus;
    var s := Shift(PolyOf(v), 1);
    PolyShift(v);
    if v[15] & 0x01 != 0 {
      ReductionBits(ShiftBlock(v));
      ModulusOfOne();
      assert Plus(s - {128}, REDUCTION) == Plus(s, TimesModulus({0}));
    } else {
      assert s - {128} == s;
      CongruentRefl(s);
    }
  }

  lemma ModulusOfOne()
    ensures TimesModulus({0}) == {0, 1, 2, 7, 128}
  {
    assert Shift({0}, 1) == {1};
    assert Shift({0}, 2) == {2};
    assert Shift({0}, 7) == {7};
    assert Shift({0}, 128) == {128};
  }

  // ---------------------------------------------------------------- the product

  // v after i iterations
  function PowerTimes(y: seq<byte>, i: nat): (v: seq<byte>)
    requires |y| == 16
    ensures |v| == 16
  {
    if i == 0 then y else TimesX(PowerTimes(y, i - 1))
  }

  // z after i iterations
  function Partial(x: seq<byte>, y: seq<byte>, i: nat): (z: seq<byte>)
    requires |x| == 16 && |y| == 16 && i <= 128
    ensures |z| == 16
  {
    if i == 0 then Zeros(16)
    else if BitAt(x, i - 1) then Xor(Partial(x, y, i - 1), PowerTimes(y, i - 1))
    else Partial(x, y, i - 1)
  }

  function MulBlock(x: seq<byte>, y: seq<byte>): (z: seq<byte>)
    requires |x| == 16 && |y| == 16
    ensures |z| == 16
  {
    Partial(x, y, 128)
  }

  // The update of v, in both branches.
  method StepV(v: array<byte>)
    requires v.Length == 16
    modifies v
    ensures v[..] == TimesX(old(v[..]))
  {
    hide ShiftBlock;
    if v[15] & 0x01 != 0 {
      GcmShiftBlock(v);
      v[0] := v[0] ^ 0xE1;
    } else {
      GcmShiftBlock(v);
    }
  }

  // The update of z for bit i of x.
  method StepZ(x: array<byte>, z: array<byte>, v: array<byte>, i: nat)
    requires x.Length == 16 && z.Length == 16 && v.Length == 16 && x != z && v != z && i < 128
    modifies z
    ensures z[..] == if BitAt(x[..], i) then Xor(old(z[..]), v[..]) else old(z[..])
  {
    hide Xor, Mask;
    assert x[i / 8] == x[..][i / 8];
    if x[i / 8] & Mask(i % 8) != 0 {
      assert z[0..16] == z[..] && v[0..16] == v[..];
      XorBlock(z, 0, z, 0, v, 0, 16);
    }
  }

  method GcmMul(x: array<byte>, y: array<byte>)
    requires x.Length == 16 && y.Length == 16
    modifies x
    ensures x[..] == MulBlock(old(x[..]), old(y[..]))
  {
    hide TimesX, Xor, BitAt;
    var z := new byte[16];
    var v := new byte[16];
    Clear(z);
    Copy(v, 0, y, 0, 16);
    ghost var xs, ys := x[..], y[..];
    assert y[..] == y[0..16];
    for i := 0 to 128
      invariant x[..] == xs
      invariant z[..] == Partial(xs, ys, i)
      invariant v[..] == PowerTimes(ys, i)
    {
      StepZ(x, z, v, i);
      assert z[..] == Partial(xs, ys, i + 1);
      StepV(v);
    }
    Copy(x, 0, z, 0, 16);
    assert z[..] == z[0..16];
  }

  lemma {:induction false} PowerIsShift(y: seq<byte>, i: nat)
    requires |y| == 16
    ensures Congruent(PolyOf(PowerTimes(y, i)), Shift(PolyOf(y), i))
  {
    hide TimesX, Congruent, PolyOf, Shift;
    var p := PolyOf(y);
    if i == 0 {
      assert Shift(p, 0) == p by {
        forall j: nat ensures j in Shift(p, 0) <==> j in p { InShift(p, 0, j); }
      }
      CongruentRefl(p);
    } else {
      var v := PowerTimes(y, i - 1);
      PowerIsShift(y, i - 1);
      TimesXIsShift(v);
      CongruentShift(PolyOf(v), Shift(p, i - 1), 1);
      ShiftShift(p, i - 1, 1);
      CongruentTrans(PolyOf(TimesX(v)), Shift(PolyOf(v), 1), Shift(p, i));
    }
  }

  lemma {:induction false} PartialIsProduct(x: seq<byte>, y: seq<byte>, i: nat)
    requires |x| == 16 && |y| == 16 && i <= 128
    ensures Congruent(PolyOf(Partial(x, y, i)), TimesBelow(PolyOf(x), PolyOf(y), i))
  {
    hide PowerTimes, Congruent, BitOf, Shift;
    if i == 0 {
      PolyZeros(16);
      CongruentRefl({});
    } else {
      PartialIsProduct(x, y, i - 1);
      assert i - 1 in PolyOf(x) <==> BitAt(x, i - 1);
      if BitAt(x, i - 1) {
        PowerIsShift(y, i - 1);
        PolyXor(Partial(x, y, i - 1), PowerTimes(y, i - 1));
        CongruentPlus(PolyOf(Partial(x, y, i - 1)), TimesBelow(PolyOf(x), PolyOf(y), i - 1),
                      PolyOf(PowerTimes(y, i - 1)), Shift(PolyOf(y), i - 1));
      }
    }
  }

  // gcmMul is the product of polynomials modulo x^128 + x^7 + x^2 + x + 1.
  lemma MulIsFieldProduct(x: seq<byte>, y: seq<byte>)
    requires |x| == 16 && |y| == 16
    ensures Congruent(PolyOf(MulBlock(x, y)), Times(PolyOf(x), PolyOf(y)))
    ensures Below(PolyOf(MulBlock(x, y)), 128)
  {
    PartialIsProduct(x, y, 128);
  }

  // A block congruent to a product is that product.
  lemma MulUnique(x: seq<byte>, y: seq<byte>, z: seq<byte>)
    requires |x| == 16 && |y| == 16 && |z| == 16
    requires Congruent(PolyOf(z), Times(PolyOf(x), PolyOf(y)))
    ensures z == MulBlock(x, y)
  {
    hide Partial, PowerTimes, Times, Congruent, PolyOf;
    MulIsFieldProduct(x, y);
    var p := Times(PolyOf(x), PolyOf(y));
    CongruentTrans(PolyOf(MulBlock(x, y)), p, p) by { CongruentRefl(p); }
    CongruentTrans(PolyOf(z), p, PolyOf(MulBlock(x, y)));
    ResidueUnique(PolyOf(z), PolyOf(MulBlock(x, y)));
    PolyDetermines(z, MulBlock(x, y));
  }

  lemma MulCommutes(x: seq<byte>, y: seq<byte>)
    requires |x| == 16 && |y| == 16
    ensures MulBlock(x, y) == MulBlock(y, x)
  {
    hide Partial, PowerTimes, Times, Congruent, PolyOf;
    MulIsFieldProduct(x, y);
    TimesCommutes(PolyOf(x), PolyOf(y));
    MulUnique(y, x, MulBlock(x, y));
  }

  lemma MulLinear(x: seq<byte>, x': seq<byte>, y: seq<byte>)
    requires |x| == 16 && |x'| == 16 && |y| == 16
    ensures MulBlock(Xor(x, x'), y) == Xor(MulBlock(x, y), MulBlock(x', y))
    ensures MulBlock(y, Xor(x, x')) == Xor(MulBlock(y, x), MulBlock(y, x'))
  {
    hide Partial, PowerTimes, Congruent, PolyOf;
    var p, p', q := PolyOf(x), PolyOf(x'), PolyOf(y);
    MulIsFieldProduct(x, y);
    MulIsFieldProduct(x', y);
    PolyXor(MulBlock(x, y), MulBlock(x', y));
    PolyXor(x, x');
    CongruentPlus(PolyOf(MulBlock(x, y)), Times(p, q), PolyOf(MulBlock(x', y)), Times(p', q));
    TimesPlusLeft(p, p', q, 128);
    MulUnique(Xor(x, x'), y, Xor(MulBlock(x, y), MulBlock(x', y)));
    MulCommutes(y, Xor(x, x'));
    MulCommutes(y, x);
    MulCommutes(y, x');
  }
}
