/**
 * The rounds of Camellia (camellia.c): encryption walks up the subkey array, decryption walks
 * down it, for any subkeys and any substitution boxes.
 */
module Camellia {
  import opened Blocks

  // Substitution box n, for n = 1 to 4
  type SBoxes = (nat, bv32) -> bv32

  datatype Half = Half(w1: bv32, w2: bv32)
  datatype State = State(left: Half, right: Half)

  function Add(a: bv32, b: bv32): bv32 { a ^ b }
  function And(a: bv32, b: bv32): bv32 { a & b }
  function Or(a: bv32, b: bv32): bv32 { a | b }
  function Rol1(a: bv32): bv32 { (a << 1) | (a >> 31) }
  function Rol8(a: bv32): bv32 { (a << 8) | (a >> 24) }
  function Rol16(a: bv32): bv32 { (a << 16) | (a >> 16) }
  function Ror8(a: bv32): bv32 { (a >> 8) | (a << 24) }

  function AddHalf(a: Half, b: Half): Half { Half(Add(a.w1, b.w1), Add(a.w2, b.w2)) }

  lemma AddTwice(a: bv32, b: bv32)
    ensures Add(Add(a, b), b) == a
  {
  }

  lemma AddCommutes(a: bv32, b: bv32)
    ensures Add(a, b) == Add(b, a)
  {
  }

  lemma AddHalfTwice(a: Half, b: Half)
    ensures AddHalf(AddHalf(a, b), b) == a
  {
    hide Add;
    AddTwice(a.w1, b.w1);
    AddTwice(a.w2, b.w2);
  }

  // ---------------------------------------------------------------- the functions

  // The octets of a word, the highest first, and the word of four such octets
  function Part(z: bv32, j: nat): bv32 {
    if j == 0 then (z >> 24) & 0xFF else if j == 1 then (z >> 16) & 0xFF else if j == 2 then (z >> 8) & 0xFF else z & 0xFF
  }

  function Joined(a: bv32, b: bv32, c: bv32, d: bv32): bv32 { (a << 24) | (b << 16) | (c << 8) | d }

  // The four lookups of one word, in boxes a to d
  function Lookups(sb: SBoxes, a: nat, b: nat, c: nat, d: nat, z: bv32): bv32 {
    Joined(sb(a, Part(z, 0)), sb(b, Part(z, 1)), sb(c, Part(z, 2)), sb(d, Part(z, 3)))
  }

  // CAMELLIA_S and CAMELLIA_P after the sum with the subkey
  function F(sb: SBoxes, x: Half, k: Half): Half {
    var zl := Lookups(sb, 1, 2, 3, 4, Add(x.w1, k.w1));
    var zr := Lookups(sb, 2, 3, 4, 1, Add(x.w2, k.w2));
    var zl1 := Add(zl, Rol8(zr));
    var zr1 := Add(zr, Rol16(zl1));
    var zl2 := Add(zl1, Ror8(zr1));
    Half(Add(zr1, Ror8(zl2)), zl2)
  }

  function Round(sb: SBoxes, k: Half, s: State): State {
    State(AddHalf(F(sb, s.left, k), s.right), s.left)
  }

  function Fl(x: Half, k: Half): Half {
    var xr := Add(x.w2, Rol1(And(x.w1, k.w1)));
    Half(Add(x.w1, Or(xr, k.w2)), xr)
  }

  function InvFl(y: Half, k: Half): Half {
    var yl := Add(y.w1, Or(y.w2, k.w2));
    Half(yl, Add(y.w2, Rol1(And(yl, k.w1))))
  }

  function Exchanged(s: State): State { State(s.right, s.left) }

  // FL and its inverse cancel, in either order and for every subkey.
  lemma FlInverse(x: Half, k: Half)
    ensures InvFl(Fl(x, k), k) == x && Fl(InvFl(x, k), k) == x
  {
    hide Add, And, Or, Rol1;
    var y := Fl(x, k);
    AddTwice(x.w1, Or(y.w2, k.w2));
    AddTwice(x.w2, Rol1(And(x.w1, k.w1)));
    var z := InvFl(x, k);
    AddTwice(x.w2, Rol1(And(z.w1, k.w1)));
    AddTwice(x.w1, Or(x.w2, k.w2));
  }

  // A round with the halves in exchanged roles undoes the round.
  lemma RoundInverse(sb: SBoxes, k: Half, s: State)
    ensures Exchanged(Round(sb, k, Exchanged(Round(sb, k, s)))) == s
  {
    hide F, Add;
    AddCommutes(F(sb, s.left, k).w1, s.right.w1);
    AddCommutes(F(sb, s.left, k).w2, s.right.w2);
    var t := AddHalf(F(sb, s.left, k), s.right);
    AddCommutes(F(sb, s.left, k).w1, t.w1);
    AddCommutes(F(sb, s.left, k).w2, t.w2);
    AddHalfTwice(s.right, F(sb, s.left, k));
  }

  // ---------------------------------------------------------------- the cipher

  predicate RoundCount(nr: nat) { nr == 18 || nr == 24 }

  // The length of the subkey array in use: two words a round, four words for each layer
  // between groups of six rounds, eight words for the sums at both ends.
  function Words(nr: nat): nat { 8 + 2 * nr + 4 * (nr / 6 - 1) }

  function KeyAt(ks: seq<bv32>, i: nat): Half
    requires i + 1 < |ks|
  {
    Half(ks[i], ks[i + 1])
  }

  // Subkey of round r, counted from 0.
  function RoundKey(ks: seq<bv32>, nr: nat, r: nat): Half
    requires RoundCount(nr) && |ks| == 68 && r < nr
  {
    KeyAt(ks, 4 + 2 * r + 4 * (r / 6))
  }

  // A layer follows round r when r rounds are done, r is a multiple of six and rounds remain.
  predicate LayerAfter(nr: nat, r: nat) { 0 < r < nr && r % 6 == 0 }

  function Layer(ks: seq<bv32>, nr: nat, r: nat, s: State): State
    requires RoundCount(nr) && |ks| == 68 && LayerAfter(nr, r)
  {
    var i := 2 * r + 4 * (r / 6);
    State(Fl(s.left, KeyAt(ks, i)), InvFl(s.right, KeyAt(ks, i + 2)))
  }

  function UndoLayer(ks: seq<bv32>, nr: nat, r: nat, s: State): State
    requires RoundCount(nr) && |ks| == 68 && LayerAfter(nr, r)
  {
    var i := 2 * r + 4 * (r / 6);
    State(InvFl(s.left, KeyAt(ks, i)), Fl(s.right, KeyAt(ks, i + 2)))
  }

  // After r rounds, without and with the layer that follows.
  function Before(sb: SBoxes, ks: seq<bv32>, nr: nat, r: nat, s: State): State
    requires RoundCount(nr) && |ks| == 68 && r <= nr
    decreases r, 0
  {
    if r == 0 then s else Round(sb, RoundKey(ks, nr, r - 1), After(sb, ks, nr, r - 1, s))
  }

  function After(sb: SBoxes, ks: seq<bv32>, nr: nat, r: nat, s: State): State
    requires RoundCount(nr) && |ks| == 68 && r <= nr
    decreases r, 1
  {
    var t := Before(sb, ks, nr, r, s);
    if LayerAfter(nr, r) then Layer(ks, nr, r, t) else t
  }

  // From r rounds back to none.
  function Back(sb: SBoxes, ks: seq<bv32>, nr: nat, r: nat, s: State): State
    requires RoundCount(nr) && |ks| == 68 && r <= nr
    decreases r
  {
    if r == 0 then s
    else Back(sb, ks, nr, r - 1, BackOne(sb, ks, nr, r, s))
  }

  // One round back, and the layer before it.
  function BackOne(sb: SBoxes, ks: seq<bv32>, nr: nat, r: nat, s: State): State
    requires RoundCount(nr) && |ks| == 68 && 0 < r <= nr
  {
    var t := Exchanged(Round(sb, RoundKey(ks, nr, r - 1), Exchanged(s)));
    if LayerAfter(nr, r - 1) then UndoLayer(ks, nr, r - 1, t) else t
  }

  function Whiten(ks: seq<bv32>, i: nat, s: State): State
    requires i + 3 < |ks|
  {
    State(AddHalf(s.left, KeyAt(ks, i)), AddHalf(s.right, KeyAt(ks, i + 2)))
  }

  function Encrypt(sb: SBoxes, ks: seq<bv32>, nr: nat, s: State): State
    requires RoundCount(nr) && |ks| == 68
  {
    Whiten(ks, Words(nr) - 4, Exchanged(Before(sb, ks, nr, nr, Whiten(ks, 0, s))))
  }

  function Decrypt(sb: SBoxes, ks: seq<bv32>, nr: nat, s: State): State
    requires RoundCount(nr) && |ks| == 68
  {
    Whiten(ks, 0, Back(sb, ks, nr, nr, Exchanged(Whiten(ks, Words(nr) - 4, s))))
  }

  lemma {:induction false} BackUndoes(sb: SBoxes, ks: seq<bv32>, nr: nat, r: nat, s: State)
    requires RoundCount(nr) && |ks| == 68 && r <= nr
    ensures Back(sb, ks, nr, r, Before(sb, ks, nr, r, s)) == s
  {
    hide Round, Fl, InvFl, Exchanged, KeyAt, LayerAfter;
    if r > 0 {
      var b := Before(sb, ks, nr, r - 1, s);
      var t := After(sb, ks, nr, r - 1, s);
      RoundInverse(sb, RoundKey(ks, nr, r - 1), t);
      if LayerAfter(nr, r - 1) {
        LayerUndone(ks, nr, r - 1, b);
      }
      BackUndoes(sb, ks, nr, r - 1, s);
    }
  }

  lemma LayerUndone(ks: seq<bv32>, nr: nat, r: nat, s: State)
    requires RoundCount(nr) && |ks| == 68 && LayerAfter(nr, r)
    ensures UndoLayer(ks, nr, r, Layer(ks, nr, r, s)) == s
  {
    hide Fl, InvFl, KeyAt;
    var i := 2 * r + 4 * (r / 6);
    FlInverse(s.left, KeyAt(ks, i));
    FlInverse(s.right, KeyAt(ks, i + 2));
  }

  // Decryption undoes encryption for 18 and 24 rounds and every subkey array.
  lemma DecryptUndoes(sb: SBoxes, ks: seq<bv32>, nr: nat, s: State)
    requires RoundCount(nr) && |ks| == 68
    ensures Decrypt(sb, ks, nr, Encrypt(sb, ks, nr, s)) == s
  {
    hide Before, Back, AddHalf, KeyAt;
    var t := Before(sb, ks, nr, nr, Whiten(ks, 0, s));
    BackUndoes(sb, ks, nr, nr, Whiten(ks, 0, s));
    WhitenTwice(ks, Words(nr) - 4, Exchanged(t));
    WhitenTwice(ks, 0, s);
  }

  lemma WhitenTwice(ks: seq<bv32>, i: nat, s: State)
    requires i + 3 < |ks|
    ensures Whiten(ks, i, Whiten(ks, i, s)) == s
  {
    hide AddHalf, KeyAt;
    AddHalfTwice(s.left, KeyAt(ks, i));
    AddHalfTwice(s.right, KeyAt(ks, i + 2));
  }

  // ---------------------------------------------------------------- octets

  function BlockState(b: seq<byte>): State
    requires |b| == 16
  {
    State(Half(Load(b[0], b[1], b[2], b[3]), Load(b[4], b[5], b[6], b[7])),
          Half(Load(b[8], b[9], b[10], b[11]), Load(b[12], b[13], b[14], b[15])))
  }

  function StateBlock(s: State): (b: seq<byte>)
    ensures |b| == 16
  {
    Store(s.left.w1) + Store(s.left.w2) + Store(s.right.w1) + Store(s.right.w2)
  }

  lemma StateRoundTrip(b: seq<byte>, s: State)
    requires |b| == 16
    ensures StateBlock(BlockState(b)) == b && BlockState(StateBlock(s)) == s
  {
    hide Load, Store;
    StoreLoad(b[0], b[1], b[2], b[3], s.left.w1);
    StoreLoad(b[4], b[5], b[6], b[7], s.left.w2);
    StoreLoad(b[8], b[9], b[10], b[11], s.right.w1);
    StoreLoad(b[12], b[13], b[14], b[15], s.right.w2);
    assert b == [b[0], b[1], b[2], b[3]] + [b[4], b[5], b[6], b[7]] + [b[8], b[9], b[10], b[11]]
      + [b[12], b[13], b[14], b[15]];
  }

  class CamelliaContext {
    var nr: nat
    const ks: array<bv32>

    constructor (rounds: nat)
      ensures fresh(ks) && ks.Length == 68 && nr == rounds
    {
      nr := rounds;
      ks := new bv32[68];
    }
  }

  method LoadBlock(input: array<byte>) returns (a: bv32, b: bv32, c: bv32, d: bv32)
    requires input.Length == 16
    ensures State(Half(a, b), Half(c, d)) == BlockState(input[..])
  {
    hide Load;
    a := Load(input[0], input[1], input[2], input[3]);
    b := Load(input[4], input[5], input[6], input[7]);
    c := Load(input[8], input[9], input[10], input[11]);
    d := Load(input[12], input[13], input[14], input[15]);
  }

  method StoreBlock(a: bv32, b: bv32, c: bv32, d: bv32, output: array<byte>)
    requires output.Length == 16
    modifies output
    ensures output[..] == StateBlock(State(Half(a, b), Half(c, d)))
  {
    hide Store, Overwrite;
    ghost var was := output[..];
    StoreWord(a, output, 0);
    StoreWord(b, output, 4);
    StoreWord(c, output, 8);
    StoreWord(d, output, 12);
    OverwriteQuarters(was, Store(a), Store(b), Store(c), Store(d));
  }

  lemma OverwriteQuarters(was: seq<byte>, a: seq<byte>, b: seq<byte>, c: seq<byte>, d: seq<byte>)
    requires |was| == 16 && |a| == 4 && |b| == 4 && |c| == 4 && |d| == 4
    ensures Overwrite(Overwrite(Overwrite(Overwrite(was, 0, a), 4, b), 8, c), 12, d) == a + b + c + d
  {
    hide Overwrite;
    OverwriteFirst(was, a);
    OverwriteSecond(was, a, b);
    var v := Overwrite(Overwrite(was, 0, a), 4, b);
    OverwriteThird(v, c);
    OverwriteFourth(v, c, d);
  }

  lemma OverwriteFirst(was: seq<byte>, a: seq<byte>)
    requires |was| == 16 && |a| == 4
    ensures Overwrite(was, 0, a) == a + was[4..]
  {
  }

  lemma OverwriteSecond(was: seq<byte>, a: seq<byte>, b: seq<byte>)
    requires |was| == 16 && |a| == 4 && |b| == 4
    ensures Overwrite(Overwrite(was, 0, a), 4, b)[..8] == a + b
  {
  }

  lemma OverwriteThird(was: seq<byte>, c: seq<byte>)
    requires |was| == 16 && |c| == 4
    ensures Overwrite(was, 8, c) == was[..8] + c + was[12..]
  {
  }

  lemma OverwriteFourth(was: seq<byte>, c: seq<byte>, d: seq<byte>)
    requires |was| == 16 && |c| == 4 && |d| == 4
    ensures Overwrite(Overwrite(was, 8, c), 12, d) == was[..8] + c + d
  {
  }

  // CAMELLIA_ROUND
  method CamelliaRound(sb: SBoxes, l1: bv32, l2: bv32, r1: bv32, r2: bv32, k1: bv32, k2: bv32)
    returns (left1: bv32, left2: bv32, right1: bv32, right2: bv32)
    ensures State(Half(left1, left2), Half(right1, right2))
      == Round(sb, Half(k1, k2), State(Half(l1, l2), Half(r1, r2)))
  {
    hide Add, Lookups, Rol8, Rol16, Ror8;
    left1, left2, right1, right2 := l1, l2, r1, r2;
    var temp1 := Add(left1, k1);
    var temp2 := Add(left2, k2);
    temp1 := Lookups(sb, 1, 2, 3, 4, temp1);
    temp2 := Lookups(sb, 2, 3, 4, 1, temp2);
    temp1 := Add(temp1, Rol8(temp2));
    temp2 := Add(temp2, Rol16(temp1));
    temp1 := Add(temp1, Ror8(temp2));
    temp2 := Add(temp2, Ror8(temp1));
    temp1 := Add(temp1, right2);
    temp2 := Add(temp2, right1);
    right1 := left1;
    right2 := left2;
    left1 := temp2;
    left2 := temp1;
  }

  // CAMELLIA_FL
  method CamelliaFl(l: bv32, r: bv32, kl: bv32, kr: bv32) returns (xl: bv32, xr: bv32)
    ensures Half(xl, xr) == Fl(Half(l, r), Half(kl, kr))
  {
    hide Add, And, Or, Rol1;
    xl, xr := l, r;
    var temp1 := And(xl, kl);
    xr := Add(xr, Rol1(temp1));
    xl := Add(xl, Or(xr, kr));
  }

  // CAMELLIA_INV_FL
  method CamelliaInvFl(l: bv32, r: bv32, kl: bv32, kr: bv32) returns (yl: bv32, yr: bv32)
    ensures Half(yl, yr) == InvFl(Half(l, r), Half(kl, kr))
  {
    hide Add, And, Or, Rol1;
    yl, yr := l, r;
    yl := Add(yl, Or(yr, kr));
    var temp1 := And(yl, kl);
    yr := Add(yr, Rol1(temp1));
  }

  // Where the subkey pointer stands after r rounds and the layer that follows them.
  function Position(nr: nat, r: nat): nat
    requires RoundCount(nr) && r <= nr
  {
    4 + 2 * r + 4 * (if r == nr then r / 6 - 1 else r / 6)
  }

  // One pass of the encryption loop.
  method ForwardStep(sb: SBoxes, keys: array<bv32>, i: nat, p: nat, l1: bv32, l2: bv32, r1: bv32, r2: bv32)
    returns (left1: bv32, left2: bv32, right1: bv32, right2: bv32, ks: nat)
    requires p + (if LayerAt(i) then 6 else 2) <= keys.Length
    ensures ks == p + (if LayerAt(i) then 6 else 2)
    ensures
      var t := Round(sb, Half(keys[p], keys[p + 1]), State(Half(l1, l2), Half(r1, r2)));
      State(Half(left1, left2), Half(right1, right2)) == if LayerAt(i)
        then State(Fl(t.left, Half(keys[p + 2], keys[p + 3])), InvFl(t.right, Half(keys[p + 4], keys[p + 5])))
        else t
  {
    hide Round, Fl, InvFl;
    ks := p;
    left1, left2, right1, right2 := CamelliaRound(sb, l1, l2, r1, r2, keys[ks], keys[ks + 1]);
    ks := ks + 2;
    if i == 7 || i == 13 || i == 19 {
      left1, left2 := CamelliaFl(left1, left2, keys[ks], keys[ks + 1]);
      right1, right2 := CamelliaInvFl(right1, right2, keys[ks + 2], keys[ks + 3]);
      ks := ks + 4;
    }
  }

  predicate LayerAt(i: nat) { i == 7 || i == 13 || i == 19 }

  method CamelliaEncryptBlock(sb: SBoxes, context: CamelliaContext, input: array<byte>, output: array<byte>)
    requires RoundCount(context.nr) && context.ks.Length == 68 && input.Length == output.Length == 16
    modifies output
    ensures output[..] == StateBlock(Encrypt(sb, old(context.ks[..]), context.nr, BlockState(old(input[..]))))
  {
    hide Add, Round, Fl, InvFl, BlockState, StateBlock, Before, After, LayerAt, Position;
    ghost var keys := context.ks[..];
    var nr := context.nr;
    var left1, left2, right1, right2 := LoadBlock(input);
    ghost var s0 := State(Half(left1, left2), Half(right1, right2));
    var ks := 0;
    left1 := Add(left1, context.ks[0]);
    left2 := Add(left2, context.ks[1]);
    right1 := Add(right1, context.ks[2]);
    right2 := Add(right2, context.ks[3]);
    ks := ks + 4;
    ghost var s := State(Half(left1, left2), Half(right1, right2));
    assert s == Whiten(keys, 0, s0);
    Start(sb, keys, nr, s);
    var i := nr;
    while i > 0
      invariant 0 <= i <= nr && ks == Position(nr, nr - i)
      invariant State(Half(left1, left2), Half(right1, right2)) == After(sb, keys, nr, nr - i, s)
    {
      Next(sb, keys, nr, nr - i + 1, s);
      left1, left2, right1, right2, ks := ForwardStep(sb, context.ks, i, ks, left1, left2, right1, right2);
      i := i - 1;
    }
    NoLayerAtEnd(sb, keys, nr, s);
    ghost var t := State(Half(left1, left2), Half(right1, right2));
    right1 := Add(right1, context.ks[ks]);
    right2 := Add(right2, context.ks[ks + 1]);
    left1 := Add(left1, context.ks[ks + 2]);
    left2 := Add(left2, context.ks[ks + 3]);
    assert State(Half(right1, right2), Half(left1, left2)) == Whiten(keys, Words(nr) - 4, Exchanged(t));
    StoreBlock(right1, right2, left1, left2, output);
  }

  lemma Start(sb: SBoxes, ks: seq<bv32>, nr: nat, s: State)
    requires RoundCount(nr) && |ks| == 68
    ensures After(sb, ks, nr, 0, s) == s && Position(nr, 0) == 4
  {
  }

  lemma NoLayerAtEnd(sb: SBoxes, ks: seq<bv32>, nr: nat, s: State)
    requires RoundCount(nr) && |ks| == 68
    ensures After(sb, ks, nr, nr, s) == Before(sb, ks, nr, nr, s) && Position(nr, nr) == Words(nr) - 4
  {
    hide Before;
  }

  // The step of the loop: which subkeys it reads and when a layer follows.
  lemma Next(sb: SBoxes, ks: seq<bv32>, nr: nat, r: nat, s: State)
    requires RoundCount(nr) && |ks| == 68 && 0 < r <= nr
    ensures
      var i, p := nr - r + 1, Position(nr, r - 1);
      && Position(nr, r) == p + (if LayerAt(i) then 6 else 2) <= 68
      && var t := Round(sb, Half(ks[p], ks[p + 1]), After(sb, ks, nr, r - 1, s));
        After(sb, ks, nr, r, s) == if LayerAt(i)
          then State(Fl(t.left, Half(ks[p + 2], ks[p + 3])), InvFl(t.right, Half(ks[p + 4], ks[p + 5])))
          else t
  {
    hide Round, Fl, InvFl, After;
    AfterIs(sb, ks, nr, r, s);
    LayerPlaces(nr, r);
  }

  lemma AfterIs(sb: SBoxes, ks: seq<bv32>, nr: nat, r: nat, s: State)
    requires RoundCount(nr) && |ks| == 68 && 0 < r <= nr
    ensures
      var t := Round(sb, RoundKey(ks, nr, r - 1), After(sb, ks, nr, r - 1, s));
      After(sb, ks, nr, r, s) == if LayerAfter(nr, r) then Layer(ks, nr, r, t) else t
  {
    hide Round, Layer, RoundKey, LayerAfter;
  }

  lemma LayerPlaces(nr: nat, r: nat)
    requires RoundCount(nr) && 0 < r <= nr
    ensures LayerAfter(nr, r) <==> LayerAt(nr - r + 1)
    ensures r < nr ==> (LayerAfter(nr, r) <==> LayerAt(r + 1))
    ensures Position(nr, r - 1) == 4 + 2 * (r - 1) + 4 * ((r - 1) / 6)
    ensures Position(nr, r) == Position(nr, r - 1) + (if LayerAfter(nr, r) then 6 else 2) <= 68
    ensures LayerAfter(nr, r) ==> 2 * r + 4 * (r / 6) == Position(nr, r - 1) + 2
  {
  }

  // Where the subkey pointer stands before round i is undone.
  function DownPosition(i: nat): nat { if i == 0 then 4 else 4 + 2 * i + 4 * ((i - 1) / 6) }

  // One pass of the decryption loop.
  method BackwardStep(sb: SBoxes, keys: array<bv32>, i: nat, p: nat, l1: bv32, l2: bv32, r1: bv32, r2: bv32)
    returns (left1: bv32, left2: bv32, right1: bv32, right2: bv32, ks: nat)
    requires (if LayerAt(i) then 6 else 2) <= p <= keys.Length
    ensures ks == p - (if LayerAt(i) then 6 else 2)
    ensures
      var t := Exchanged(Round(sb, Half(keys[p - 2], keys[p - 1]), State(Half(r1, r2), Half(l1, l2))));
      State(Half(left1, left2), Half(right1, right2)) == if LayerAt(i)
        then State(InvFl(t.left, Half(keys[p - 6], keys[p - 5])), Fl(t.right, Half(keys[p - 4], keys[p - 3])))
        else t
  {
    hide Round, Fl, InvFl;
    ks := p - 2;
    right1, right2, left1, left2 := CamelliaRound(sb, r1, r2, l1, l2, keys[ks], keys[ks + 1]);
    if i == 7 || i == 13 || i == 19 {
      ks := ks - 4;
      right1, right2 := CamelliaFl(right1, right2, keys[ks + 2], keys[ks + 3]);
      left1, left2 := CamelliaInvFl(left1, left2, keys[ks], keys[ks + 1]);
    }
  }

  method CamelliaDecryptBlock(sb: SBoxes, context: CamelliaContext, input: array<byte>, output: array<byte>)
    requires RoundCount(context.nr) && context.ks.Length == 68 && input.Length == output.Length == 16
    modifies output
    ensures output[..] == StateBlock(Decrypt(sb, old(context.ks[..]), context.nr, BlockState(old(input[..]))))
  {
    hide Add, Round, Fl, InvFl, BlockState, StateBlock, Back, BackOne, LayerAt, DownPosition;
    ghost var keys := context.ks[..];
    var nr := context.nr;
    DownStart(nr);
    var right1, right2, left1, left2 := LoadBlock(input);
    ghost var s0 := State(Half(right1, right2), Half(left1, left2));
    var ks := if nr == 18 then 48 else 64;
    right1 := Add(right1, context.ks[ks]);
    right2 := Add(right2, context.ks[ks + 1]);
    left1 := Add(left1, context.ks[ks + 2]);
    left2 := Add(left2, context.ks[ks + 3]);
    assert State(Half(right1, right2), Half(left1, left2)) == Whiten(keys, Words(nr) - 4, s0);
    ghost var s := State(Half(left1, left2), Half(right1, right2));
    var i := nr;
    while i > 0
      invariant 0 <= i <= nr && ks == DownPosition(i)
      invariant Back(sb, keys, nr, i, State(Half(left1, left2), Half(right1, right2))) == Back(sb, keys, nr, nr, s)
    {
      Previous(sb, keys, nr, i, State(Half(left1, left2), Half(right1, right2)));
      left1, left2, right1, right2, ks := BackwardStep(sb, context.ks, i, ks, left1, left2, right1, right2);
      i := i - 1;
    }
    ks := ks - 4;
    AllBack(sb, keys, nr, State(Half(left1, left2), Half(right1, right2)));
    left1 := Add(left1, context.ks[ks]);
    left2 := Add(left2, context.ks[ks + 1]);
    right1 := Add(right1, context.ks[ks + 2]);
    right2 := Add(right2, context.ks[ks + 3]);
    assert State(Half(left1, left2), Half(right1, right2)) == Whiten(keys, 0, Back(sb, keys, nr, nr, s));
    StoreBlock(left1, left2, right1, right2, output);
  }

  lemma AllBack(sb: SBoxes, ks: seq<bv32>, nr: nat, s: State)
    requires RoundCount(nr) && |ks| == 68
    ensures Back(sb, ks, nr, 0, s) == s
  {
  }

  lemma DownStart(nr: nat)
    requires RoundCount(nr)
    ensures DownPosition(nr) == Words(nr) - 4 && DownPosition(0) == 4
  {
  }

  // The step of the backward loop.
  lemma Previous(sb: SBoxes, ks: seq<bv32>, nr: nat, i: nat, s: State)
    requires RoundCount(nr) && |ks| == 68 && 0 < i <= nr
    ensures
      var p := DownPosition(i);
      && DownPosition(i - 1) == p - (if LayerAt(i) then 6 else 2) && p <= 68
      && Back(sb, ks, nr, i, s) == Back(sb, ks, nr, i - 1, BackOne(sb, ks, nr, i, s))
      && var t := Exchanged(Round(sb, Half(ks[p - 2], ks[p - 1]), State(s.right, s.left)));
        BackOne(sb, ks, nr, i, s) == if LayerAt(i)
          then State(InvFl(t.left, Half(ks[p - 6], ks[p - 5])), Fl(t.right, Half(ks[p - 4], ks[p - 3])))
          else t
  {
    hide Round, Fl, InvFl;
    if i > 1 {
      LayerPlaces(nr, i - 1);
    }
  }

  // Decrypting what was encrypted returns the block.
  method RoundTrip(sb: SBoxes, context: CamelliaContext, block: array<byte>) returns (c: array<byte>, p: array<byte>)
    requires RoundCount(context.nr) && context.ks.Length == 68 && block.Length == 16
    ensures fresh(c) && fresh(p) && p[..] == block[..]
  {
    hide Encrypt, Decrypt, BlockState, StateBlock;
    c, p := new byte[16], new byte[16];
    CamelliaEncryptBlock(sb, context, block, c);
    CamelliaDecryptBlock(sb, context, c, p);
    ghost var s := BlockState(block[..]);
    StateRoundTrip(block[..], Encrypt(sb, context.ks[..], context.nr, s));
    DecryptUndoes(sb, context.ks[..], context.nr, s);
  }
}
