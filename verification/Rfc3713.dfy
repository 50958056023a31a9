/** Camellia as RFC 3713 writes it: the F-function on octets, and the order of the subkeys. */
module Rfc3713 {
  import opened Blocks
  import opened Camellia
  import L = AriaLayers

  // ---------------------------------------------------------------- section 2.4.1: the F-function

  // The entries of the substitution boxes are octets.
  ghost predicate OctetBoxes(sb: SBoxes) { forall n: nat, x: bv32 :: OctetEntry(sb, n, x) }

  ghost predicate OctetEntry(sb: SBoxes, n: nat, x: bv32) { sb(n, x) <= 0xFF }

  // Which of t1 to t8 are added up to octet j of the P-function, y1 to y8; t1 is the lowest bit.
  function Selection(j: nat): bv16 {
    if j == 0 then 0xED       // t1 t3 t4 t6 t7 t8
    else if j == 1 then 0xDB  // t1 t2 t4 t5 t7 t8
    else if j == 2 then 0xB7  // t1 t2 t3 t5 t6 t8
    else if j == 3 then 0x7E  // t2 t3 t4 t5 t6 t7
    else if j == 4 then 0xE3  // t1 t2 t6 t7 t8
    else if j == 5 then 0xD6  // t2 t3 t5 t7 t8
    else if j == 6 then 0xBC  // t3 t4 t5 t6 t8
    else 0x79                 // t1 t4 t5 t6 t7
  }

  function P(t: seq<byte>): (y: seq<byte>)
    requires |t| == 8
    ensures |y| == 8
  {
    seq(8, j requires 0 <= j < 8 => L.SumOver(t, Selection(j), 8))
  }

  // The boxes by turns: SBOX1 to SBOX4 for the left word, SBOX2 to SBOX4 and SBOX1 for the right
  function Entry(sb: SBoxes, n: nat, x: byte): byte
    requires OctetEntry(sb, n, x as bv32)
  {
    sb(n, x as bv32) as byte
  }

  ghost function S(sb: SBoxes, x: seq<byte>): (t: seq<byte>)
    requires OctetBoxes(sb) && |x| == 8
    ensures |t| == 8
  {
    assert OctetEntry(sb, 1, x[0] as bv32) && OctetEntry(sb, 2, x[1] as bv32) && OctetEntry(sb, 3, x[2] as bv32);
    assert OctetEntry(sb, 4, x[3] as bv32) && OctetEntry(sb, 2, x[4] as bv32) && OctetEntry(sb, 3, x[5] as bv32);
    assert OctetEntry(sb, 4, x[6] as bv32) && OctetEntry(sb, 1, x[7] as bv32);
    [Entry(sb, 1, x[0]), Entry(sb, 2, x[1]), Entry(sb, 3, x[2]), Entry(sb, 4, x[3]),
     Entry(sb, 2, x[4]), Entry(sb, 3, x[5]), Entry(sb, 4, x[6]), Entry(sb, 1, x[7])]
  }

  ghost function FRfc(sb: SBoxes, x: seq<byte>, k: seq<byte>): (y: seq<byte>)
    requires OctetBoxes(sb) && |x| == |k| == 8
    ensures |y| == 8
  {
    P(S(sb, Xor(x, k)))
  }

  // ---------------------------------------------------------------- words and octets

  lemma Rol8Load(a: byte, b: byte, c: byte, d: byte)
    ensures Rol8(Load(a, b, c, d)) == Load(b, c, d, a)
  {
  }

  lemma Rol16Load(a: byte, b: byte, c: byte, d: byte)
    ensures Rol16(Load(a, b, c, d)) == Load(c, d, a, b)
  {
  }

  lemma Ror8Load(a: byte, b: byte, c: byte, d: byte)
    ensures Ror8(Load(a, b, c, d)) == Load(d, a, b, c)
  {
  }

  lemma AddLoad(a: byte, b: byte, c: byte, d: byte, e: byte, f: byte, g: byte, h: byte)
    ensures Add(Load(a, b, c, d), Load(e, f, g, h)) == Load(Sum(a, e), Sum(b, f), Sum(c, g), Sum(d, h))
  {
  }

  // The four lookups of one word give the word of the entries.
  lemma LookupsAre(sb: SBoxes, p: nat, q: nat, r: nat, s: nat, a: byte, b: byte, c: byte, d: byte)
    requires OctetEntry(sb, p, a as bv32) && OctetEntry(sb, q, b as bv32)
    requires OctetEntry(sb, r, c as bv32) && OctetEntry(sb, s, d as bv32)
    ensures Lookups(sb, p, q, r, s, Load(a, b, c, d)) == Load(Entry(sb, p, a), Entry(sb, q, b), Entry(sb, r, c), Entry(sb, s, d))
  {
    hide Load, Part, Joined;
    PartsOf(a, b, c, d);
    Narrowed(sb(p, a as bv32), sb(q, b as bv32), sb(r, c as bv32), sb(s, d as bv32));
  }

  lemma PartsOf(a: byte, b: byte, c: byte, d: byte)
    ensures var z := Load(a, b, c, d);
      Part(z, 0) == a as bv32 && Part(z, 1) == b as bv32 && Part(z, 2) == c as bv32 && Part(z, 3) == d as bv32
  {
  }

  lemma Narrowed(a: bv32, b: bv32, c: bv32, d: bv32)
    requires a <= 0xFF && b <= 0xFF && c <= 0xFF && d <= 0xFF
    ensures Joined(a, b, c, d) == Load(a as byte, b as byte, c as byte, d as byte)
  {
  }

  // The word steps of CAMELLIA_P are the P-function on octets.
  function PWords(zl: bv32, zr: bv32): Half {
    var zl1 := Add(zl, Rol8(zr));
    var zr1 := Add(zr, Rol16(zl1));
    var zl2 := Add(zl1, Ror8(zr1));
    Half(Add(zr1, Ror8(zl2)), zl2)
  }

  lemma PIs(t: seq<byte>)
    requires |t| == 8
    ensures
      var y := P(t);
      PWords(Load(t[0], t[1], t[2], t[3]), Load(t[4], t[5], t[6], t[7]))
        == Half(Load(y[0], y[1], y[2], y[3]), Load(y[4], y[5], y[6], y[7]))
  {
    hide Add, Rol8, Rol16, Ror8, Load, Sum, L.SumOver, P;
    Steps(t);
    var a, b, c, d := L.SumOver(t, 0x21, 8), L.SumOver(t, 0x42, 8), L.SumOver(t, 0x84, 8), L.SumOver(t, 0x18, 8);
    var e, f, g, h := L.SumOver(t, 0x94, 8), L.SumOver(t, 0x38, 8), L.SumOver(t, 0x61, 8), L.SumOver(t, 0xC2, 8);
    var y := P(t);
    Rol8Load(t[4], t[5], t[6], t[7]);
    AddLoad(t[0], t[1], t[2], t[3], t[5], t[6], t[7], t[4]);
    Rol16Load(a, b, c, d);
    AddLoad(t[4], t[5], t[6], t[7], c, d, a, b);
    Ror8Load(e, f, g, h);
    AddLoad(a, b, c, d, h, e, f, g);
    Ror8Load(y[4], y[5], y[6], y[7]);
    AddLoad(e, f, g, h, y[7], y[4], y[5], y[6]);
  }

  // One more step adds one selection to another.
  lemma Together(t: seq<byte>, a: bv16, b: bv16, c: bv16)
    requires |t| == 8 && c == L.Plus(a, b)
    ensures L.SumOver(t, c, 8) == Sum(L.SumOver(t, a, 8), L.SumOver(t, b, 8))
  {
    hide L.SumOver, L.Plus, Sum;
    L.SumOverPlus(t, a, b, 8);
  }

  lemma Single(t: seq<byte>, i: nat)
    requires |t| == 8 && i < 8
    ensures L.SumOver(t, L.Bit(i), 8) == t[i]
  {
    hide L.SumOver, L.Bit;
    L.SumOverBit(t, i, 8);
  }

  lemma Steps(t: seq<byte>)
    requires |t| == 8
    ensures
      var a, b, c, d := L.SumOver(t, 0x21, 8), L.SumOver(t, 0x42, 8), L.SumOver(t, 0x84, 8), L.SumOver(t, 0x18, 8);
      var e, f, g, h := L.SumOver(t, 0x94, 8), L.SumOver(t, 0x38, 8), L.SumOver(t, 0x61, 8), L.SumOver(t, 0xC2, 8);
      var y := P(t);
      && a == Sum(t[0], t[5]) && b == Sum(t[1], t[6]) && c == Sum(t[2], t[7]) && d == Sum(t[3], t[4])
      && e == Sum(t[4], c) && f == Sum(t[5], d) && g == Sum(t[6], a) && h == Sum(t[7], b)
      && y[4] == Sum(a, h) && y[5] == Sum(b, e) && y[6] == Sum(c, f) && y[7] == Sum(d, g)
      && y[0] == Sum(e, y[7]) && y[1] == Sum(f, y[4]) && y[2] == Sum(g, y[5]) && y[3] == Sum(h, y[6])
  {
    hide L.SumOver, L.Plus, L.Bit, Sum;
    Bits();
    Sums();
    Single(t, 0);
    Single(t, 1);
    Single(t, 2);
    Single(t, 3);
    Single(t, 4);
    Single(t, 5);
    Single(t, 6);
    Single(t, 7);
    Together(t, 0x01, 0x20, 0x21);
    Together(t, 0x02, 0x40, 0x42);
    Together(t, 0x04, 0x80, 0x84);
    Together(t, 0x08, 0x10, 0x18);
    Together(t, 0x10, 0x84, 0x94);
    Together(t, 0x20, 0x18, 0x38);
    Together(t, 0x40, 0x21, 0x61);
    Together(t, 0x80, 0x42, 0xC2);
    Together(t, 0x21, 0xC2, 0xE3);
    Together(t, 0x42, 0x94, 0xD6);
    Together(t, 0x84, 0x38, 0xBC);
    Together(t, 0x18, 0x61, 0x79);
    Together(t, 0x94, 0x79, 0xED);
    Together(t, 0x38, 0xE3, 0xDB);
    Together(t, 0x61, 0xD6, 0xB7);
    Together(t, 0xC2, 0xBC, 0x7E);
  }

  lemma Bits()
    ensures L.Bit(0) == 0x01 && L.Bit(1) == 0x02 && L.Bit(2) == 0x04 && L.Bit(3) == 0x08
    ensures L.Bit(4) == 0x10 && L.Bit(5) == 0x20 && L.Bit(6) == 0x40 && L.Bit(7) == 0x80
  {
  }

  lemma Sums()
    ensures L.Plus(0x01, 0x20) == 0x21 && L.Plus(0x02, 0x40) == 0x42 && L.Plus(0x04, 0x80) == 0x84 && L.Plus(0x08, 0x10) == 0x18
    ensures L.Plus(0x10, 0x84) == 0x94 && L.Plus(0x20, 0x18) == 0x38 && L.Plus(0x40, 0x21) == 0x61 && L.Plus(0x80, 0x42) == 0xC2
    ensures L.Plus(0x21, 0xC2) == 0xE3 && L.Plus(0x42, 0x94) == 0xD6 && L.Plus(0x84, 0x38) == 0xBC && L.Plus(0x18, 0x61) == 0x79
    ensures L.Plus(0x94, 0x79) == 0xED && L.Plus(0x38, 0xE3) == 0xDB && L.Plus(0x61, 0xD6) == 0xB7 && L.Plus(0xC2, 0xBC) == 0x7E
  {
  }

  function HalfOf(x: seq<byte>): Half
    requires |x| == 8
  {
    Half(Load(x[0], x[1], x[2], x[3]), Load(x[4], x[5], x[6], x[7]))
  }

  // The F-function of the code, on words, is that of the standard.
  lemma FIs(sb: SBoxes, x: seq<byte>, k: seq<byte>)
    requires OctetBoxes(sb) && |x| == |k| == 8
    ensures F(sb, HalfOf(x), HalfOf(k)) == HalfOf(FRfc(sb, x, k))
  {
    hide Lookups, Load, Add, Rol8, Rol16, Ror8, Xor, Sum, P, Entry;
    var z := Xor(x, k);
    HalfSum(x, k);
    assert OctetEntry(sb, 1, z[0] as bv32) && OctetEntry(sb, 2, z[1] as bv32) && OctetEntry(sb, 3, z[2] as bv32);
    assert OctetEntry(sb, 4, z[3] as bv32) && OctetEntry(sb, 2, z[4] as bv32) && OctetEntry(sb, 3, z[5] as bv32);
    assert OctetEntry(sb, 4, z[6] as bv32) && OctetEntry(sb, 1, z[7] as bv32);
    LookupsAre(sb, 1, 2, 3, 4, z[0], z[1], z[2], z[3]);
    LookupsAre(sb, 2, 3, 4, 1, z[4], z[5], z[6], z[7]);
    PIs(S(sb, z));
  }

  lemma HalfSum(x: seq<byte>, k: seq<byte>)
    requires |x| == |k| == 8
    ensures AddHalf(HalfOf(x), HalfOf(k)) == HalfOf(Xor(x, k))
  {
    hide Load, Add, Sum;
    AddLoad(x[0], x[1], x[2], x[3], k[0], k[1], k[2], k[3]);
    AddLoad(x[4], x[5], x[6], x[7], k[4], k[5], k[6], k[7]);
  }

  // ---------------------------------------------------------------- section 2.4.2: the FL-function

  // On 64 bits, x1 and k1 being the upper halves
  const MASK32: bv64 := 0xFFFFFFFF

  function FlRfc(x: bv64, k: bv64): bv64 {
    var y2 := Add64(Lower(x), Rol64(And64(Upper(x), Upper(k))));
    Join64(Add64(Upper(x), Or64(y2, Lower(k))), y2)
  }

  function Upper(x: bv64): bv64 { x >> 32 }
  function Lower(x: bv64): bv64 { x & MASK32 }
  function Add64(a: bv64, b: bv64): bv64 { a ^ b }
  function And64(a: bv64, b: bv64): bv64 { a & b }
  function Or64(a: bv64, b: bv64): bv64 { a | b }
  function Rol64(a: bv64): bv64 { ((a << 1) | (a >> 31)) & MASK32 }
  function Join64(a: bv64, b: bv64): bv64 { (a << 32) | b }
  function Wide(a: bv32): bv64 { a as bv64 }
  function WideHalf(x: Half): bv64 { Join64(Wide(x.w1), Wide(x.w2)) }

  // On halves it is the function of the code, and so the inverse is that of the standard too.
  lemma FlIs(x: Half, k: Half)
    ensures WideHalf(Fl(x, k)) == FlRfc(WideHalf(x), WideHalf(k))
    ensures FlRfc(WideHalf(InvFl(x, k)), WideHalf(k)) == WideHalf(x)
  {
    hide FlRfc, WideHalf;
    FlWords(x, k);
    FlWords(InvFl(x, k), k);
    FlInverse(x, k);
  }

  lemma FlWords(x: Half, k: Half)
    ensures WideHalf(Fl(x, k)) == FlRfc(WideHalf(x), WideHalf(k))
  {
    hide Add, And, Or, Rol1, Upper, Lower, Add64, And64, Or64, Rol64, Join64, Wide;
    Halves(x.w1, x.w2);
    Halves(k.w1, k.w2);
    WideAnd(x.w1, k.w1);
    WideRol(And(x.w1, k.w1));
    var y2 := Add(x.w2, Rol1(And(x.w1, k.w1)));
    WideAdd(x.w2, Rol1(And(x.w1, k.w1)));
    WideOr(y2, k.w2);
    WideAdd(x.w1, Or(y2, k.w2));
  }

  lemma Halves(a: bv32, b: bv32)
    ensures Upper(Join64(Wide(a), Wide(b))) == Wide(a) && Lower(Join64(Wide(a), Wide(b))) == Wide(b)
  {
  }

  lemma WideAdd(a: bv32, b: bv32)
    ensures Add64(Wide(a), Wide(b)) == Wide(Add(a, b))
  {
  }

  lemma WideAnd(a: bv32, b: bv32)
    ensures And64(Wide(a), Wide(b)) == Wide(And(a, b))
  {
  }

  lemma WideOr(a: bv32, b: bv32)
    ensures Or64(Wide(a), Wide(b)) == Wide(Or(a, b))
  {
  }

  lemma WideRol(a: bv32)
    ensures Rol64(Wide(a)) == Wide(Rol1(a))
  {
  }

  // ---------------------------------------------------------------- section 2.3: the order of the subkeys

  // Six rounds on D1 and D2, with the subkeys from word i on
  function SixRounds(sb: SBoxes, ks: seq<bv32>, i: nat, d: State): State
    requires i + 12 <= |ks|
  {
    var d2 := AddHalf(F(sb, d.left, KeyAt(ks, i)), d.right);
    var d1 := AddHalf(F(sb, d2, KeyAt(ks, i + 2)), d.left);
    var e2 := AddHalf(F(sb, d1, KeyAt(ks, i + 4)), d2);
    var e1 := AddHalf(F(sb, e2, KeyAt(ks, i + 6)), d1);
    var f2 := AddHalf(F(sb, e1, KeyAt(ks, i + 8)), e2);
    var f1 := AddHalf(F(sb, f2, KeyAt(ks, i + 10)), e1);
    State(f1, f2)
  }

  // FL on D1 and its inverse on D2
  function Layers(ks: seq<bv32>, i: nat, d: State): State
    requires i + 4 <= |ks|
  {
    State(Fl(d.left, KeyAt(ks, i)), InvFl(d.right, KeyAt(ks, i + 2)))
  }

  function Whitened(ks: seq<bv32>, i: nat, d: State): State
    requires i + 4 <= |ks|
  {
    State(AddHalf(d.left, KeyAt(ks, i)), AddHalf(d.right, KeyAt(ks, i + 2)))
  }

  // The cipher for keys of 128 bits, with 18 rounds, and for longer ones, with 24: kw1 and kw2 are
  // the first four words, ke1 and ke2 follow k6, and so on; kw3 and kw4 come last and are added to
  // D2 and D1.
  function Cipher18(sb: SBoxes, ks: seq<bv32>, m: State): State
    requires |ks| == 68
  {
    var d := SixRounds(sb, ks, 4, Whitened(ks, 0, m));
    var e := SixRounds(sb, ks, 20, Layers(ks, 16, d));
    var f := SixRounds(sb, ks, 36, Layers(ks, 32, e));
    Whitened(ks, 48, State(f.right, f.left))
  }

  function Cipher24(sb: SBoxes, ks: seq<bv32>, m: State): State
    requires |ks| == 68
  {
    var d := SixRounds(sb, ks, 4, Whitened(ks, 0, m));
    var e := SixRounds(sb, ks, 20, Layers(ks, 16, d));
    var f := SixRounds(sb, ks, 36, Layers(ks, 32, e));
    var g := SixRounds(sb, ks, 52, Layers(ks, 48, f));
    Whitened(ks, 64, State(g.right, g.left))
  }

  lemma OneMore(sb: SBoxes, ks: seq<bv32>, nr: nat, r: nat, s: State)
    requires RoundCount(nr) && |ks| == 68 && r < nr
    ensures Before(sb, ks, nr, r + 1, s) == Round(sb, RoundKey(ks, nr, r), After(sb, ks, nr, r, s))
    ensures !LayerAfter(nr, r) ==> After(sb, ks, nr, r, s) == Before(sb, ks, nr, r, s)
  {
    hide Round, RoundKey, Layer;
  }

  lemma SixMore(sb: SBoxes, ks: seq<bv32>, nr: nat, q: nat, s: State)
    requires RoundCount(nr) && |ks| == 68 && 6 * q + 6 <= nr
    ensures Before(sb, ks, nr, 6 * q + 6, s) == SixRounds(sb, ks, 4 + 16 * q, After(sb, ks, nr, 6 * q, s))
  {
    hide F, AddHalf, KeyAt, Before, After;
    OneMore(sb, ks, nr, 6 * q, s);
    OneMore(sb, ks, nr, 6 * q + 1, s);
    OneMore(sb, ks, nr, 6 * q + 2, s);
    OneMore(sb, ks, nr, 6 * q + 3, s);
    OneMore(sb, ks, nr, 6 * q + 4, s);
    OneMore(sb, ks, nr, 6 * q + 5, s);
  }

  lemma LayerAt(sb: SBoxes, ks: seq<bv32>, nr: nat, q: nat, s: State)
    requires RoundCount(nr) && |ks| == 68 && 6 * q < nr
    ensures After(sb, ks, nr, 6 * q, s)
      == if q == 0 then s else Layers(ks, 16 * q, Before(sb, ks, nr, 6 * q, s))
  {
    hide Fl, InvFl, KeyAt;
    if q > 0 {
      assert LayerAfter(nr, 6 * q) && 2 * (6 * q) + 4 * (6 * q / 6) == 16 * q;
    }
  }

  // The recursion of the model, and so the code, keeps that order.
  lemma EncryptIs(sb: SBoxes, ks: seq<bv32>, nr: nat, s: State)
    requires RoundCount(nr) && |ks| == 68
    ensures Encrypt(sb, ks, nr, s) == if nr == 18 then Cipher18(sb, ks, s) else Cipher24(sb, ks, s)
  {
    hide Before, After, SixRounds, Layers, AddHalf, KeyAt;
    var t := Whiten(ks, 0, s);
    assert t == Whitened(ks, 0, s);
    SixMore(sb, ks, nr, 0, t);
    LayerAt(sb, ks, nr, 0, t);
    SixMore(sb, ks, nr, 1, t);
    LayerAt(sb, ks, nr, 1, t);
    SixMore(sb, ks, nr, 2, t);
    LayerAt(sb, ks, nr, 2, t);
    if nr == 24 {
      SixMore(sb, ks, nr, 3, t);
      LayerAt(sb, ks, nr, 3, t);
    }
  }

  // The first eight octets of a block are D1, the others D2, and the result is stored that way.
  lemma BlockIs(l: seq<byte>, r: seq<byte>)
    requires |l| == |r| == 8
    ensures BlockState(l + r) == State(HalfOf(l), HalfOf(r))
    ensures StateBlock(State(HalfOf(l), HalfOf(r))) == l + r
  {
    hide Load, Store;
    var b := l + r;
    assert BlockState(b) == State(HalfOf(l), HalfOf(r));
    StateRoundTrip(b, BlockState(b));
  }
}
