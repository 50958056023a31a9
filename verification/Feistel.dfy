/**
 * The Data Encryption Standard on 32-bit halves, for any selection tables and any number of
 * rounds: what both implementations of the repository are compared with.
 */
module Feistel {
  import opened Blocks

  datatype Pair = Pair(l: bv32, r: bv32)
  datatype Subkey = Subkey(k0: bv32, k1: bv32)

  // sp(n, i) is entry i of selection table n, for n = 1 to 8.
  type SBoxes = (nat, bv32) -> bv32

  function Add32(a: bv32, b: bv32): bv32 { a ^ b }

  function Swap(p: Pair): Pair { Pair(p.r, p.l) }

  // Six bits of t, from bit n on.
  function Six(t: bv32, n: nat): bv32
    requires n == 0 || n == 8 || n == 16 || n == 24
  {
    if n == 0 then t & 0x3F
    else if n == 8 then (t >> 8) & 0x3F
    else if n == 16 then (t >> 16) & 0x3F
    else (t >> 24) & 0x3F
  }

  function Ror4(w: bv32): bv32 { (w >> 4) | (w << 28) }

  // The sum of the eight selections for one half and one subkey.
  function F(sp: SBoxes, r: bv32, k: Subkey): bv32 {
    var t, u := Add32(r, k.k0), Add32(Ror4(r), k.k1);
    Add32(Add32(Add32(sp(2, Six(t, 24)), sp(4, Six(t, 16))), Add32(sp(6, Six(t, 8)), sp(8, Six(t, 0)))),
        Add32(Add32(sp(1, Six(u, 24)), sp(3, Six(u, 16))), Add32(sp(5, Six(u, 8)), sp(7, Six(u, 0)))))
  }

  function Round(sp: SBoxes, k: Subkey, p: Pair): Pair {
    Pair(p.r, Add32(p.l, F(sp, p.r, k)))
  }

  function Rounds(sp: SBoxes, ks: seq<Subkey>, p: Pair): Pair {
    if ks == [] then p else Rounds(sp, ks[1..], Round(sp, ks[0], p))
  }

  function Reverse(ks: seq<Subkey>): (r: seq<Subkey>)
    ensures |r| == |ks|
  {
    if ks == [] then [] else Reverse(ks[1..]) + [ks[0]]
  }

  predicate Group(n: nat) { n == 1 || n == 2 || n == 4 || n == 8 || n == 16 }

  // Exchanges every second group of n bits of p.l with the group n places below it in p.r.
  function Exchange(n: nat, p: Pair): Pair
    requires Group(n)
  {
    Pair(Upper(n, p.l, p.r), Lower(n, p.l, p.r))
  }

  function Upper(n: nat, a: bv32, b: bv32): bv32
    requires Group(n)
  {
    if n == 1 then a ^ ((((a >> 1) ^ b) & 0x55555555) << 1)
    else if n == 2 then a ^ ((((a >> 2) ^ b) & 0x33333333) << 2)
    else if n == 4 then a ^ ((((a >> 4) ^ b) & 0x0F0F0F0F) << 4)
    else if n == 8 then a ^ ((((a >> 8) ^ b) & 0x00FF00FF) << 8)
    else a ^ ((((a >> 16) ^ b) & 0x0000FFFF) << 16)
  }

  function Lower(n: nat, a: bv32, b: bv32): bv32
    requires Group(n)
  {
    if n == 1 then b ^ (((a >> 1) ^ b) & 0x55555555)
    else if n == 2 then b ^ (((a >> 2) ^ b) & 0x33333333)
    else if n == 4 then b ^ (((a >> 4) ^ b) & 0x0F0F0F0F)
    else if n == 8 then b ^ (((a >> 8) ^ b) & 0x00FF00FF)
    else b ^ (((a >> 16) ^ b) & 0x0000FFFF)
  }

  // The expressions the exchanges are written with.
  function Difference(n: nat, a: bv32, b: bv32): bv32
    requires Group(n)
  {
    if n == 1 then ((a >> 1) ^ b) & 0x55555555
    else if n == 2 then ((a >> 2) ^ b) & 0x33333333
    else if n == 4 then ((a >> 4) ^ b) & 0x0F0F0F0F
    else if n == 8 then ((a >> 8) ^ b) & 0x00FF00FF
    else ((a >> 16) ^ b) & 0x0000FFFF
  }

  function Up(n: nat, t: bv32): bv32
    requires Group(n)
  {
    if n == 1 then t << 1
    else if n == 2 then t << 2
    else if n == 4 then t << 4
    else if n == 8 then t << 8
    else t << 16
  }

  lemma UpperIs1(a: bv32, b: bv32)
    ensures Upper(1, a, b) == Add32(a, Up(1, Difference(1, a, b)))
  {
  }

  lemma UpperIs2(a: bv32, b: bv32)
    ensures Upper(2, a, b) == Add32(a, Up(2, Difference(2, a, b)))
  {
  }

  lemma UpperIs4(a: bv32, b: bv32)
    ensures Upper(4, a, b) == Add32(a, Up(4, Difference(4, a, b)))
  {
  }

  lemma UpperIs8(a: bv32, b: bv32)
    ensures Upper(8, a, b) == Add32(a, Up(8, Difference(8, a, b)))
  {
  }

  lemma UpperIs16(a: bv32, b: bv32)
    ensures Upper(16, a, b) == Add32(a, Up(16, Difference(16, a, b)))
  {
  }

  lemma UpperIs(n: nat, a: bv32, b: bv32)
    requires Group(n)
    ensures Upper(n, a, b) == Add32(a, Up(n, Difference(n, a, b)))
  {
    hide Upper, Up, Difference, Add32;
    if n == 1 {
      UpperIs1(a, b);
    } else if n == 2 {
      UpperIs2(a, b);
    } else if n == 4 {
      UpperIs4(a, b);
    } else if n == 8 {
      UpperIs8(a, b);
    } else {
      UpperIs16(a, b);
    }
  }

  lemma LowerIs1(a: bv32, b: bv32)
    ensures Lower(1, a, b) == Add32(b, Difference(1, a, b))
  {
  }

  lemma LowerIs2(a: bv32, b: bv32)
    ensures Lower(2, a, b) == Add32(b, Difference(2, a, b))
  {
  }

  lemma LowerIs4(a: bv32, b: bv32)
    ensures Lower(4, a, b) == Add32(b, Difference(4, a, b))
  {
  }

  lemma LowerIs8(a: bv32, b: bv32)
    ensures Lower(8, a, b) == Add32(b, Difference(8, a, b))
  {
  }

  lemma LowerIs16(a: bv32, b: bv32)
    ensures Lower(16, a, b) == Add32(b, Difference(16, a, b))
  {
  }

  lemma LowerIs(n: nat, a: bv32, b: bv32)
    requires Group(n)
    ensures Lower(n, a, b) == Add32(b, Difference(n, a, b))
  {
    hide Lower, Difference, Add32;
    if n == 1 {
      LowerIs1(a, b);
    } else if n == 2 {
      LowerIs2(a, b);
    } else if n == 4 {
      LowerIs4(a, b);
    } else if n == 8 {
      LowerIs8(a, b);
    } else {
      LowerIs16(a, b);
    }
  }

  function Cross(n: nat, p: Pair): Pair
    requires Group(n)
  {
    Swap(Exchange(n, Swap(p)))
  }

  function Rol1(w: bv32): bv32 { (w << 1) | (w >> 31) }

  function Ror1(w: bv32): bv32 { (w >> 1) | (w << 31) }

  // Initial and final permutation, as sequences of exchanged bit groups.
  function Ip(p: Pair): Pair {
    var q := Exchange(1, Cross(8, Cross(2, Exchange(16, Exchange(4, p)))));
    Pair(Rol1(q.l), Rol1(q.r))
  }

  function Fp(p: Pair): Pair {
    Exchange(4, Exchange(16, Cross(2, Cross(8, Exchange(1, Pair(Ror1(p.l), Ror1(p.r)))))))
  }

  // The cipher on one block: the halves are exchanged before the final permutation.
  function Des(sp: SBoxes, ks: seq<Subkey>, p: Pair): Pair {
    Fp(Swap(Rounds(sp, ks, Ip(p))))
  }

  // ---------------------------------------------------------------- inverses

  lemma UpperTwice1(a: bv32, b: bv32)
    ensures Upper(1, Upper(1, a, b), Lower(1, a, b)) == a
  {
  }

  lemma UpperTwice2(a: bv32, b: bv32)
    ensures Upper(2, Upper(2, a, b), Lower(2, a, b)) == a
  {
  }

  lemma UpperTwice4(a: bv32, b: bv32)
    ensures Upper(4, Upper(4, a, b), Lower(4, a, b)) == a
  {
  }

  lemma UpperTwice8(a: bv32, b: bv32)
    ensures Upper(8, Upper(8, a, b), Lower(8, a, b)) == a
  {
  }

  lemma UpperTwice16(a: bv32, b: bv32)
    ensures Upper(16, Upper(16, a, b), Lower(16, a, b)) == a
  {
  }

  lemma UpperTwice(n: nat, a: bv32, b: bv32)
    requires Group(n)
    ensures Upper(n, Upper(n, a, b), Lower(n, a, b)) == a
  {
    hide Upper, Lower;
    if n == 1 {
      UpperTwice1(a, b);
    } else if n == 2 {
      UpperTwice2(a, b);
    } else if n == 4 {
      UpperTwice4(a, b);
    } else if n == 8 {
      UpperTwice8(a, b);
    } else {
      UpperTwice16(a, b);
    }
  }

  lemma LowerTwice1(a: bv32, b: bv32)
    ensures Lower(1, Upper(1, a, b), Lower(1, a, b)) == b
  {
  }

  lemma LowerTwice2(a: bv32, b: bv32)
    ensures Lower(2, Upper(2, a, b), Lower(2, a, b)) == b
  {
  }

  lemma LowerTwice4(a: bv32, b: bv32)
    ensures Lower(4, Upper(4, a, b), Lower(4, a, b)) == b
  {
  }

  lemma LowerTwice8(a: bv32, b: bv32)
    ensures Lower(8, Upper(8, a, b), Lower(8, a, b)) == b
  {
  }

  lemma LowerTwice16(a: bv32, b: bv32)
    ensures Lower(16, Upper(16, a, b), Lower(16, a, b)) == b
  {
  }

  lemma LowerTwice(n: nat, a: bv32, b: bv32)
    requires Group(n)
    ensures Lower(n, Upper(n, a, b), Lower(n, a, b)) == b
  {
    hide Upper, Lower;
    if n == 1 {
      LowerTwice1(a, b);
    } else if n == 2 {
      LowerTwice2(a, b);
    } else if n == 4 {
      LowerTwice4(a, b);
    } else if n == 8 {
      LowerTwice8(a, b);
    } else {
      LowerTwice16(a, b);
    }
  }

  lemma ExchangeTwice(n: nat, p: Pair)
    requires Group(n)
    ensures Exchange(n, Exchange(n, p)) == p
  {
    hide Upper, Lower;
    UpperTwice(n, p.l, p.r);
    LowerTwice(n, p.l, p.r);
  }

  lemma CrossTwice(n: nat, p: Pair)
    requires Group(n)
    ensures Cross(n, Cross(n, p)) == p
  {
    hide Exchange;
    ExchangeTwice(n, Swap(p));
  }

  lemma RolRor(w: bv32)
    ensures Ror1(Rol1(w)) == w && Rol1(Ror1(w)) == w
  {
  }

  lemma FpIp(p: Pair)
    ensures Fp(Ip(p)) == p
  {
    hide Exchange, Cross, Rol1, Ror1;
    var a := Exchange(4, p);
    var b := Exchange(16, a);
    var c := Cross(2, b);
    var d := Cross(8, c);
    var e := Exchange(1, d);
    RolRor(e.l);
    RolRor(e.r);
    ExchangeTwice(1, d);
    CrossTwice(8, c);
    CrossTwice(2, b);
    ExchangeTwice(16, a);
    ExchangeTwice(4, p);
  }

  lemma IpFp(p: Pair)
    ensures Ip(Fp(p)) == p
  {
    hide Exchange, Cross, Rol1, Ror1;
    var e := Pair(Ror1(p.l), Ror1(p.r));
    var d := Exchange(1, e);
    var c := Cross(8, d);
    var b := Cross(2, c);
    var a := Exchange(16, b);
    RolRor(p.l);
    RolRor(p.r);
    ExchangeTwice(4, a);
    ExchangeTwice(16, b);
    CrossTwice(2, c);
    CrossTwice(8, d);
    ExchangeTwice(1, e);
  }

  lemma XorTwice(a: bv32, b: bv32)
    ensures Add32(Add32(a, b), b) == a
  {
  }

  lemma AddAssoc(a: bv32, b: bv32, c: bv32)
    ensures Add32(Add32(a, b), c) == Add32(a, Add32(b, c))
  {
  }

  lemma AddCommutes(a: bv32, b: bv32)
    ensures Add32(a, b) == Add32(b, a)
  {
  }

  lemma {:induction false} RoundsAppend(sp: SBoxes, ks: seq<Subkey>, js: seq<Subkey>, p: Pair)
    ensures Rounds(sp, ks + js, p) == Rounds(sp, js, Rounds(sp, ks, p))
  {
    hide Round;
    if ks == [] {
      assert ks + js == js;
    } else {
      assert (ks + js)[1..] == ks[1..] + js;
      RoundsAppend(sp, ks[1..], js, Round(sp, ks[0], p));
    }
  }

  // A round with the halves exchanged undoes itself.
  lemma RoundUndo(sp: SBoxes, k: Subkey, p: Pair)
    ensures Swap(Round(sp, k, Swap(Round(sp, k, p)))) == p
  {
    hide F, Add32;
    XorTwice(p.l, F(sp, p.r, k));
  }

  // The rounds in reverse order undo the rounds, whatever the subkeys and selections are.
  lemma {:induction false} RoundsUndo(sp: SBoxes, ks: seq<Subkey>, p: Pair)
    ensures Swap(Rounds(sp, Reverse(ks), Swap(Rounds(sp, ks, p)))) == p
  {
    hide Round;
    if ks != [] {
      var q := Round(sp, ks[0], p);
      RoundsUndo(sp, ks[1..], q);
      RoundsAppend(sp, Reverse(ks[1..]), [ks[0]], Swap(Rounds(sp, ks, p)));
      assert Rounds(sp, [ks[0]], Swap(q)) == Round(sp, ks[0], Swap(q)) by { assert [ks[0]][1..] == []; }
      SwapTwice(Rounds(sp, Reverse(ks[1..]), Swap(Rounds(sp, ks, p))));
      RoundUndo(sp, ks[0], p);
    }
  }

  lemma SwapTwice(p: Pair)
    ensures Swap(Swap(p)) == p
  {
  }

  lemma {:induction false} ReverseAppend(ks: seq<Subkey>, js: seq<Subkey>)
    ensures Reverse(ks + js) == Reverse(js) + Reverse(ks)
  {
    if ks == [] {
      assert ks + js == js;
      assert Reverse(js) + [] == Reverse(js);
    } else {
      assert (ks + js)[1..] == ks[1..] + js;
      ReverseAppend(ks[1..], js);
    }
  }

  lemma {:induction false} ReverseTwice(ks: seq<Subkey>)
    ensures Reverse(Reverse(ks)) == ks
  {
    if ks != [] {
      ReverseTwice(ks[1..]);
      ReverseAppend(Reverse(ks[1..]), [ks[0]]);
      assert Reverse([ks[0]]) == [ks[0]];
      assert [ks[0]] + ks[1..] == ks;
    }
  }

  lemma {:induction false} ReverseAt(ks: seq<Subkey>, i: nat)
    requires i < |ks|
    ensures Reverse(ks)[i] == ks[|ks| - 1 - i]
  {
    if i < |ks| - 1 {
      ReverseAt(ks[1..], i);
    }
  }

  // Decryption, the cipher with the subkeys reversed, undoes encryption and is undone by it.
  lemma DesUndo(sp: SBoxes, ks: seq<Subkey>, p: Pair)
    ensures Des(sp, Reverse(ks), Des(sp, ks, p)) == p
    ensures Des(sp, ks, Des(sp, Reverse(ks), p)) == p
  {
    hide Ip, Fp, Rounds, Swap;
    DesUndoOneWay(sp, ks, p);
    DesUndoOneWay(sp, Reverse(ks), p);
    ReverseTwice(ks);
  }

  lemma DesUndoOneWay(sp: SBoxes, ks: seq<Subkey>, p: Pair)
    ensures Des(sp, Reverse(ks), Des(sp, ks, p)) == p
  {
    hide Ip, Fp, Rounds, Swap;
    RoundsUndo(sp, ks, Ip(p));
    IpFp(Swap(Rounds(sp, ks, Ip(p))));
    FpIp(p);
  }

  // ---------------------------------------------------------------- three keys

  function TripleEncrypt(sp: SBoxes, k1: seq<Subkey>, k2: seq<Subkey>, k3: seq<Subkey>, p: Pair): Pair {
    Des(sp, k3, Des(sp, Reverse(k2), Des(sp, k1, p)))
  }

  function TripleDecrypt(sp: SBoxes, k1: seq<Subkey>, k2: seq<Subkey>, k3: seq<Subkey>, p: Pair): Pair {
    Des(sp, Reverse(k1), Des(sp, k2, Des(sp, Reverse(k3), p)))
  }

  lemma TripleUndo(sp: SBoxes, k1: seq<Subkey>, k2: seq<Subkey>, k3: seq<Subkey>, p: Pair)
    ensures TripleDecrypt(sp, k1, k2, k3, TripleEncrypt(sp, k1, k2, k3, p)) == p
  {
    hide Des;
    DesUndo(sp, k1, p);
    DesUndo(sp, k2, Des(sp, k1, p));
    DesUndo(sp, k3, Des(sp, Reverse(k2), Des(sp, k1, p)));
  }

  // With one key three times the outer and inner operations cancel.
  lemma TripleWithOneKey(sp: SBoxes, k: seq<Subkey>, p: Pair)
    ensures TripleEncrypt(sp, k, k, k, p) == Des(sp, k, p)
  {
    hide Des;
    DesUndo(sp, k, p);
  }

  // ---------------------------------------------------------------- octets

  // A block of eight octets as two halves.
  function BlockPair(b: seq<byte>): Pair
    requires |b| == 8
  {
    Pair(Load(b[0], b[1], b[2], b[3]), Load(b[4], b[5], b[6], b[7]))
  }

  function PairBlock(p: Pair): (b: seq<byte>)
    ensures |b| == 8
  {
    Store(p.l) + Store(p.r)
  }

  lemma BlockRoundTrip(b: seq<byte>, p: Pair)
    requires |b| == 8
    ensures PairBlock(BlockPair(b)) == b && BlockPair(PairBlock(p)) == p
  {
    hide Load, Store;
    StoreLoad(b[0], b[1], b[2], b[3], p.l);
    StoreLoad(b[4], b[5], b[6], b[7], p.r);
    assert b == [b[0], b[1], b[2], b[3]] + [b[4], b[5], b[6], b[7]];
  }

  // Two words per subkey.
  function Subkeys(w: seq<bv32>): (ks: seq<Subkey>)
    requires |w| % 2 == 0
    ensures |ks| == |w| / 2
  {
    seq(|w| / 2, i requires 0 <= i < |w| / 2 => Subkey(w[2 * i], w[2 * i + 1]))
  }
}
