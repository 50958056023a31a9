/** The layers of ARIA on 16-octet states (section 2.4 of RFC 5794). */
module AriaLayers {
  import opened Blocks
  import opened AesTables
  import opened AriaTables
  import AesRounds

  // ---------------------------------------------------------------- substitution

  // sb1, sb2, sb3 and sb4
  function Box(k: nat, x: byte): byte {
    if k == 0 then Sbox(x) else if k == 1 then Sb2(x) else if k == 2 then InvSbox(x) else Sb4(x)
  }

  function Sl1(b: seq<byte>): (r: seq<byte>)
    ensures |r| == |b|
  {
    seq(|b|, i requires 0 <= i < |b| => Box(i % 4, b[i]))
  }

  function Sl2(b: seq<byte>): (r: seq<byte>)
    ensures |r| == |b|
  {
    seq(|b|, i requires 0 <= i < |b| => Box((i + 2) % 4, b[i]))
  }

  lemma BoxInverse(k: nat, x: byte)
    requires k < 4
    ensures Box((k + 2) % 4, Box(k, x)) == x
  {
    hide Sbox, InvSbox, Sb2, Sb4;
    SboxInverse(x);
    Sb4OfSb2(x);
    Sb2OfSb4(x);
  }

  lemma SlAt(b: seq<byte>, i: nat)
    requires i < |b|
    ensures Sl1(b)[i] == Box(i % 4, b[i]) && Sl2(b)[i] == Box((i + 2) % 4, b[i])
  {
    hide Box;
  }

  lemma SlInverseAt(b: seq<byte>, i: nat)
    requires i < |b|
    ensures Sl2(Sl1(b))[i] == b[i] && Sl1(Sl2(b))[i] == b[i]
  {
    hide Box, Sl1, Sl2;
    SlAt(b, i);
    SlAt(Sl1(b), i);
    SlAt(Sl2(b), i);
    assert (i % 4 + 2) % 4 == (i + 2) % 4 && ((i + 2) % 4 + 2) % 4 == i % 4;
    BoxInverse(i % 4, b[i]);
    BoxInverse((i + 2) % 4, b[i]);
  }

  // The two substitution layers undo each other.
  lemma SlInverse(b: seq<byte>)
    ensures Sl2(Sl1(b)) == b && Sl1(Sl2(b)) == b
  {
    hide Sl1, Sl2;
    forall i | 0 <= i < |b| ensures Sl2(Sl1(b))[i] == b[i] && Sl1(Sl2(b))[i] == b[i] {
      SlInverseAt(b, i);
    }
  }

  // ---------------------------------------------------------------- diffusion

  function Seven(a: byte, b: byte, c: byte, d: byte, e: byte, f: byte, g: byte): byte {
    Sum(Sum(Sum(Sum(Sum(Sum(a, b), c), d), e), f), g)
  }

  // The diffusion layer A
  function Diffuse(x: seq<byte>): (y: seq<byte>)
    requires |x| == 16
    ensures |y| == 16
  {
    [Seven(x[3], x[4], x[6], x[8], x[9], x[13], x[14]),
     Seven(x[2], x[5], x[7], x[8], x[9], x[12], x[15]),
     Seven(x[1], x[4], x[6], x[10], x[11], x[12], x[15]),
     Seven(x[0], x[5], x[7], x[10], x[11], x[13], x[14]),
     Seven(x[0], x[2], x[5], x[8], x[11], x[14], x[15]),
     Seven(x[1], x[3], x[4], x[9], x[10], x[14], x[15]),
     Seven(x[0], x[2], x[7], x[9], x[10], x[12], x[13]),
     Seven(x[1], x[3], x[6], x[8], x[11], x[12], x[13]),
     Seven(x[0], x[1], x[4], x[7], x[10], x[13], x[15]),
     Seven(x[0], x[1], x[5], x[6], x[11], x[12], x[14]),
     Seven(x[2], x[3], x[5], x[6], x[8], x[13], x[15]),
     Seven(x[2], x[3], x[4], x[7], x[9], x[12], x[14]),
     Seven(x[1], x[2], x[6], x[7], x[9], x[11], x[12]),
     Seven(x[0], x[3], x[6], x[7], x[8], x[10], x[13]),
     Seven(x[0], x[3], x[4], x[5], x[9], x[11], x[14]),
     Seven(x[1], x[2], x[4], x[5], x[8], x[10], x[15])]
  }

  // A row of A as a set of columns: bit k stands for octet k.
  function RowMask(i: nat): bv16 {
    if i == 0 then 0x6358
    else if i == 1 then 0x93A4
    else if i == 2 then 0x9C52
    else if i == 3 then 0x6CA1
    else if i == 4 then 0xC925
    else if i == 5 then 0xC61A
    else if i == 6 then 0x3685
    else if i == 7 then 0x394A
    else if i == 8 then 0xA493
    else if i == 9 then 0x5863
    else if i == 10 then 0xA16C
    else if i == 11 then 0x529C
    else if i == 12 then 0x1AC6
    else if i == 13 then 0x25C9
    else if i == 14 then 0x4A39
    else 0x8536
  }

  function Bit(i: nat): bv16 {
    if i == 0 then 0x0001
    else if i == 1 then 0x0002
    else if i == 2 then 0x0004
    else if i == 3 then 0x0008
    else if i == 4 then 0x0010
    else if i == 5 then 0x0020
    else if i == 6 then 0x0040
    else if i == 7 then 0x0080
    else if i == 8 then 0x0100
    else if i == 9 then 0x0200
    else if i == 10 then 0x0400
    else if i == 11 then 0x0800
    else if i == 12 then 0x1000
    else if i == 13 then 0x2000
    else if i == 14 then 0x4000
    else 0x8000
  }

  function Select(m: bv16, p: bv16): bv16 { m & p }

  predicate Has(m: bv16, i: nat) { Select(m, Bit(i)) != 0 }

  function Plus(m: bv16, n: bv16): bv16 { m ^ n }

  function Plus7(a: bv16, b: bv16, c: bv16, d: bv16, e: bv16, f: bv16, g: bv16): bv16 {
    Plus(Plus(Plus(Plus(Plus(Plus(a, b), c), d), e), f), g)
  }

  // The sum of the octets among the first n that m selects.
  function SumOver(x: seq<byte>, m: bv16, n: nat): byte
    requires n <= |x|
  {
    if n == 0 then 0 else if Has(m, n - 1) then Sum(SumOver(x, m, n - 1), x[n - 1]) else SumOver(x, m, n - 1)
  }

  // ---------------------------------------------------------------- selections

  lemma HasPlus(a: bv16, b: bv16, i: nat)
    requires i < 16
    ensures Has(Plus(a, b), i) <==> (Has(a, i) != Has(b, i))
  {
    hide Bit, Plus, Select;
    var p := Bit(i);
    SelectPlus(a, b, p);
    OneBit(a, i);
    OneBit(b, i);
    BitSums(p);
  }

  lemma SelectPlus(a: bv16, b: bv16, p: bv16)
    ensures Select(Plus(a, b), p) == Plus(Select(a, p), Select(b, p))
  {
  }

  lemma BitSums(p: bv16)
    ensures Plus(0, 0) == 0 && Plus(0, p) == p && Plus(p, 0) == p && Plus(p, p) == 0
  {
  }

  lemma OneBit(m: bv16, i: nat)
    requires i < 16
    ensures Bit(i) != 0 && (Select(m, Bit(i)) == 0 || Select(m, Bit(i)) == Bit(i))
  {
  }

  lemma HasBit(i: nat, k: nat)
    requires i < 16 && k < 16
    ensures Has(Bit(i), k) <==> i == k
  {
  }

  lemma ZeroSum(a: byte)
    ensures Sum(0, a) == a && Sum(a, 0) == a
  {
  }

  lemma FourSums(a: byte, b: byte, c: byte)
    ensures Sum(Sum(a, c), b) == Sum(Sum(a, b), c)
    ensures Sum(a, Sum(b, c)) == Sum(Sum(a, b), c)
    ensures Sum(Sum(a, c), Sum(b, c)) == Sum(a, b)
  {
    hide Sum;
    AesRounds.SumAssoc(a, b, c);
    AesRounds.SumAssoc(a, c, b);
    AesRounds.SumLaws(b, c);
    AesRounds.SumLaws(c, b);
    AesRounds.SumAssoc(a, c, Sum(b, c));
    AesRounds.SumAssoc(c, c, b);
    AesRounds.SumLaws(c, Sum(b, c));
    AesRounds.SumLaws(Sum(b, c), c);
  }

  // Selecting is additive in the selection ...
  lemma {:induction false} SumOverPlus(x: seq<byte>, a: bv16, b: bv16, n: nat)
    requires n <= |x| && n <= 16
    ensures SumOver(x, Plus(a, b), n) == Sum(SumOver(x, a, n), SumOver(x, b, n))
  {
    hide Has, Plus, Sum;
    ZeroSum(0);
    if n > 0 {
      SumOverPlus(x, a, b, n - 1);
      HasPlus(a, b, n - 1);
      FourSums(SumOver(x, a, n - 1), SumOver(x, b, n - 1), x[n - 1]);
    }
  }

  // ... and in the octets.
  lemma {:induction false} SumOverXor(x: seq<byte>, y: seq<byte>, m: bv16, n: nat)
    requires n <= |x| == |y|
    ensures SumOver(Xor(x, y), m, n) == Sum(SumOver(x, m, n), SumOver(y, m, n))
  {
    hide Has, Sum, Xor;
    ZeroSum(0);
    if n > 0 {
      SumOverXor(x, y, m, n - 1);
      XorAt(x, y, n - 1);
      AesRounds.SumAssoc(SumOver(x, m, n - 1), SumOver(y, m, n - 1), Sum(x[n - 1], y[n - 1]));
      Interchange(SumOver(x, m, n - 1), SumOver(y, m, n - 1), x[n - 1], y[n - 1]);
    }
  }

  lemma Interchange(a: byte, b: byte, c: byte, d: byte)
    ensures Sum(Sum(a, b), Sum(c, d)) == Sum(Sum(a, c), Sum(b, d))
  {
    hide Sum;
    FourSums(a, c, b);
    AesRounds.SumAssoc(Sum(a, b), c, d);
    AesRounds.SumAssoc(Sum(a, c), b, d);
  }

  lemma {:induction false} SumOverBit(x: seq<byte>, i: nat, n: nat)
    requires i < 16 && n <= |x| && n <= 16
    ensures SumOver(x, Bit(i), n) == if i < n then x[i] else 0
  {
    hide Has, Bit, Sum;
    if n > 0 {
      SumOverBit(x, i, n - 1);
      HasBit(i, n - 1);
      ZeroSum(x[n - 1]);
    }
  }

  // Seven selections added up.
  lemma SumOverPlus7(x: seq<byte>, a: bv16, b: bv16, c: bv16, d: bv16, e: bv16, f: bv16, g: bv16)
    requires |x| == 16
    ensures SumOver(x, Plus7(a, b, c, d, e, f, g), 16)
      == Seven(SumOver(x, a, 16), SumOver(x, b, 16), SumOver(x, c, 16), SumOver(x, d, 16), SumOver(x, e, 16),
               SumOver(x, f, 16), SumOver(x, g, 16))
  {
    hide Sum, Plus, SumOver;
    SumOverPlus(x, a, b, 16);
    SumOverPlus(x, Plus(a, b), c, 16);
    SumOverPlus(x, Plus(Plus(a, b), c), d, 16);
    SumOverPlus(x, Plus(Plus(Plus(a, b), c), d), e, 16);
    SumOverPlus(x, Plus(Plus(Plus(Plus(a, b), c), d), e), f, 16);
    SumOverPlus(x, Plus(Plus(Plus(Plus(Plus(a, b), c), d), e), f), g, 16);
  }

  lemma SevenOctets(x: seq<byte>, a: nat, b: nat, c: nat, d: nat, e: nat, f: nat, g: nat)
    requires |x| == 16 && a < 16 && b < 16 && c < 16 && d < 16 && e < 16 && f < 16 && g < 16
    ensures SumOver(x, Plus7(Bit(a), Bit(b), Bit(c), Bit(d), Bit(e), Bit(f), Bit(g)), 16)
      == Seven(x[a], x[b], x[c], x[d], x[e], x[f], x[g])
  {
    hide Seven, Plus7, SumOver, Bit;
    SumOverPlus7(x, Bit(a), Bit(b), Bit(c), Bit(d), Bit(e), Bit(f), Bit(g));
    SumOverBit(x, a, 16);
    SumOverBit(x, b, 16);
    SumOverBit(x, c, 16);
    SumOverBit(x, d, 16);
    SumOverBit(x, e, 16);
    SumOverBit(x, f, 16);
    SumOverBit(x, g, 16);
  }

  // ---------------------------------------------------------------- the matrix

  // The columns of a row of A
  function Columns(i: nat): (c: seq<nat>)
    ensures |c| == 7 && forall k | 0 <= k < 7 :: c[k] < 16
  {
    if i == 0 then [3, 4, 6, 8, 9, 13, 14]
    else if i == 1 then [2, 5, 7, 8, 9, 12, 15]
    else if i == 2 then [1, 4, 6, 10, 11, 12, 15]
    else if i == 3 then [0, 5, 7, 10, 11, 13, 14]
    else if i == 4 then [0, 2, 5, 8, 11, 14, 15]
    else if i == 5 then [1, 3, 4, 9, 10, 14, 15]
    else if i == 6 then [0, 2, 7, 9, 10, 12, 13]
    else if i == 7 then [1, 3, 6, 8, 11, 12, 13]
    else if i == 8 then [0, 1, 4, 7, 10, 13, 15]
    else if i == 9 then [0, 1, 5, 6, 11, 12, 14]
    else if i == 10 then [2, 3, 5, 6, 8, 13, 15]
    else if i == 11 then [2, 3, 4, 7, 9, 12, 14]
    else if i == 12 then [1, 2, 6, 7, 9, 11, 12]
    else if i == 13 then [0, 3, 6, 7, 8, 10, 13]
    else if i == 14 then [0, 3, 4, 5, 9, 11, 14]
    else [1, 2, 4, 5, 8, 10, 15]
  }

  // The row as a selection, and its product with A
  predicate RowHolds(i: nat) {
    var c := Columns(i);
    && Plus7(Bit(c[0]), Bit(c[1]), Bit(c[2]), Bit(c[3]), Bit(c[4]), Bit(c[5]), Bit(c[6])) == RowMask(i)
    && Plus7(RowMask(c[0]), RowMask(c[1]), RowMask(c[2]), RowMask(c[3]), RowMask(c[4]), RowMask(c[5]), RowMask(c[6]))
       == Bit(i)
  }

  lemma Rows(i: nat)
    requires i < 16
    ensures RowHolds(i)
  {
    hide RowHolds;
    if i < 4 {
      Rows0();
    } else if i < 8 {
      Rows4();
    } else if i < 12 {
      Rows8();
    } else {
      Rows12();
    }
  }

  lemma Rows0()
    ensures RowHolds(0) && RowHolds(1) && RowHolds(2) && RowHolds(3)
  {
  }

  lemma Rows4()
    ensures RowHolds(4) && RowHolds(5) && RowHolds(6) && RowHolds(7)
  {
  }

  lemma Rows8()
    ensures RowHolds(8) && RowHolds(9) && RowHolds(10) && RowHolds(11)
  {
  }

  lemma Rows12()
    ensures RowHolds(12) && RowHolds(13) && RowHolds(14) && RowHolds(15)
  {
  }

  predicate ColumnsHold(x: seq<byte>, i: nat)
    requires |x| == 16 && i < 16
  {
    var c := Columns(i);
    Diffuse(x)[i] == Seven(x[c[0]], x[c[1]], x[c[2]], x[c[3]], x[c[4]], x[c[5]], x[c[6]])
  }

  lemma DiffuseColumns(x: seq<byte>, i: nat)
    requires |x| == 16 && i < 16
    ensures ColumnsHold(x, i)
  {
    hide ColumnsHold;
    if i < 4 {
      DiffuseColumns0(x);
    } else if i < 8 {
      DiffuseColumns4(x);
    } else if i < 12 {
      DiffuseColumns8(x);
    } else {
      DiffuseColumns12(x);
    }
  }

  lemma DiffuseColumns0(x: seq<byte>)
    requires |x| == 16
    ensures ColumnsHold(x, 0) && ColumnsHold(x, 1) && ColumnsHold(x, 2) && ColumnsHold(x, 3)
  {
    hide Seven;
  }

  lemma DiffuseColumns4(x: seq<byte>)
    requires |x| == 16
    ensures ColumnsHold(x, 4) && ColumnsHold(x, 5) && ColumnsHold(x, 6) && ColumnsHold(x, 7)
  {
    hide Seven;
  }

  lemma DiffuseColumns8(x: seq<byte>)
    requires |x| == 16
    ensures ColumnsHold(x, 8) && ColumnsHold(x, 9) && ColumnsHold(x, 10) && ColumnsHold(x, 11)
  {
    hide Seven;
  }

  lemma DiffuseColumns12(x: seq<byte>)
    requires |x| == 16
    ensures ColumnsHold(x, 12) && ColumnsHold(x, 13) && ColumnsHold(x, 14) && ColumnsHold(x, 15)
  {
    hide Seven;
  }

  lemma DiffuseAt(x: seq<byte>, i: nat)
    requires |x| == 16 && i < 16
    ensures Diffuse(x)[i] == SumOver(x, RowMask(i), 16)
  {
    hide Seven, Plus7, SumOver, Bit, RowMask, Columns, Diffuse;
    var c := Columns(i);
    DiffuseColumns(x, i);
    Rows(i);
    SevenOctets(x, c[0], c[1], c[2], c[3], c[4], c[5], c[6]);
  }

  lemma DiffuseTwiceAt(x: seq<byte>, i: nat)
    requires |x| == 16 && i < 16
    ensures Diffuse(Diffuse(x))[i] == x[i]
  {
    hide Seven, Plus7, SumOver, Bit, RowMask, Columns, Diffuse;
    var y, c := Diffuse(x), Columns(i);
    forall k | 0 <= k < 7 ensures y[c[k]] == SumOver(x, RowMask(c[k]), 16) {
      DiffuseAt(x, c[k]);
    }
    Rows(i);
    DiffuseColumns(y, i);
    SumOverPlus7(x, RowMask(c[0]), RowMask(c[1]), RowMask(c[2]), RowMask(c[3]), RowMask(c[4]), RowMask(c[5]), RowMask(c[6]));
    SumOverBit(x, i, 16);
  }

  // A is an involution.
  lemma DiffuseTwice(x: seq<byte>)
    requires |x| == 16
    ensures Diffuse(Diffuse(x)) == x
  {
    hide Diffuse;
    forall i | 0 <= i < 16 ensures Diffuse(Diffuse(x))[i] == x[i] {
      DiffuseTwiceAt(x, i);
    }
  }

  // A is additive.
  lemma DiffuseXor(x: seq<byte>, y: seq<byte>)
    requires |x| == |y| == 16
    ensures Diffuse(Xor(x, y)) == Xor(Diffuse(x), Diffuse(y))
  {
    hide Diffuse, Xor, Sum, SumOver, RowMask;
    forall i | 0 <= i < 16 ensures Diffuse(Xor(x, y))[i] == Xor(Diffuse(x), Diffuse(y))[i] {
      DiffuseAt(x, i);
      DiffuseAt(y, i);
      DiffuseAt(Xor(x, y), i);
      SumOverXor(x, y, RowMask(i), 16);
      XorAt(Diffuse(x), Diffuse(y), i);
    }
  }
}
