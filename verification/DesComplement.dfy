/**
 * The complementation property of DES: complementing key and plaintext complements the
 * ciphertext. It exercises every part of the cipher, from the key permutations to the rounds.
 */
module DesComplement {
  import opened Feistel
  import opened DesKeys

  function Not32(w: bv32): bv32 { !w }

  // Among the 28 bits a key half has.
  function Not28(w: bv32): bv32 { w ^ 0x0FFFFFFF }

  // The bits a round reads of a subkey word.
  function NotKeyWord(w: bv32): bv32 { w ^ 0x3F3F3F3F }

  function Not(p: Pair): Pair { Pair(Not32(p.l), Not32(p.r)) }

  function NotHalves(p: Pair): Pair { Pair(Not28(p.l), Not28(p.r)) }

  function NotSubkey(k: Subkey): Subkey { Subkey(NotKeyWord(k.k0), NotKeyWord(k.k1)) }

  function NotSubkeys(ks: seq<Subkey>): (r: seq<Subkey>)
    ensures |r| == |ks|
  {
    if ks == [] then [] else [NotSubkey(ks[0])] + NotSubkeys(ks[1..])
  }

  // ---------------------------------------------------------------- the permutations

  lemma NotIsAdd(a: bv32)
    ensures Not32(a) == Add32(0xFFFFFFFF, a)
  {
  }

  lemma AddNot(a: bv32, b: bv32)
    ensures Add32(Not32(a), b) == Not32(Add32(a, b))
  {
    hide Add32, Not32;
    NotIsAdd(a);
    NotIsAdd(Add32(a, b));
    AddAssoc(0xFFFFFFFF, a, b);
  }

  lemma DifferenceNot1(a: bv32, b: bv32)
    ensures Difference(1, !a, !b) == Difference(1, a, b)
  {
  }

  lemma DifferenceNot2(a: bv32, b: bv32)
    ensures Difference(2, !a, !b) == Difference(2, a, b)
  {
  }

  lemma DifferenceNot4(a: bv32, b: bv32)
    ensures Difference(4, !a, !b) == Difference(4, a, b)
  {
  }

  lemma DifferenceNot8(a: bv32, b: bv32)
    ensures Difference(8, !a, !b) == Difference(8, a, b)
  {
  }

  lemma DifferenceNot16(a: bv32, b: bv32)
    ensures Difference(16, !a, !b) == Difference(16, a, b)
  {
  }

  lemma DifferenceNot(n: nat, a: bv32, b: bv32)
    requires Group(n)
    ensures Difference(n, Not32(a), Not32(b)) == Difference(n, a, b)
  {
    hide Difference;
    if n == 1 {
      DifferenceNot1(a, b);
    } else if n == 2 {
      DifferenceNot2(a, b);
    } else if n == 4 {
      DifferenceNot4(a, b);
    } else if n == 8 {
      DifferenceNot8(a, b);
    } else {
      DifferenceNot16(a, b);
    }
  }

  lemma UpperNot(n: nat, a: bv32, b: bv32)
    requires Group(n)
    ensures Upper(n, Not32(a), Not32(b)) == Not32(Upper(n, a, b))
  {
    hide Upper, Difference, Up, Add32, Not32;
    DifferenceNot(n, a, b);
    UpperIs(n, a, b);
    UpperIs(n, Not32(a), Not32(b));
    AddNot(a, Up(n, Difference(n, a, b)));
  }

  lemma LowerNot(n: nat, a: bv32, b: bv32)
    requires Group(n)
    ensures Lower(n, Not32(a), Not32(b)) == Not32(Lower(n, a, b))
  {
    hide Lower, Difference, Add32, Not32;
    DifferenceNot(n, a, b);
    LowerIs(n, a, b);
    LowerIs(n, Not32(a), Not32(b));
    AddNot(b, Difference(n, a, b));
  }

  lemma ExchangeNot(n: nat, p: Pair)
    requires Group(n)
    ensures Exchange(n, Not(p)) == Not(Exchange(n, p))
  {
    hide Upper, Lower, Not32;
    UpperNot(n, p.l, p.r);
    LowerNot(n, p.l, p.r);
  }

  lemma CrossNot(n: nat, p: Pair)
    requires Group(n)
    ensures Cross(n, Not(p)) == Not(Cross(n, p))
  {
    hide Exchange, Not32;
    ExchangeNot(n, Swap(p));
  }

  lemma Rol1NotWord(w: bv32)
    ensures Rol1(!w) == !Rol1(w)
  {
  }

  lemma Rol1Not(w: bv32)
    ensures Rol1(Not32(w)) == Not32(Rol1(w))
  {
    hide Rol1;
    Rol1NotWord(w);
  }

  lemma Ror1NotWord(w: bv32)
    ensures Ror1(!w) == !Ror1(w)
  {
  }

  lemma Ror1Not(w: bv32)
    ensures Ror1(Not32(w)) == Not32(Ror1(w))
  {
    hide Ror1;
    Ror1NotWord(w);
  }

  lemma Ror4NotWord(w: bv32)
    ensures Ror4(!w) == !Ror4(w)
  {
  }

  lemma Ror4Not(w: bv32)
    ensures Ror4(Not32(w)) == Not32(Ror4(w))
  {
    hide Ror4;
    Ror4NotWord(w);
  }

  lemma IpNot(p: Pair)
    ensures Ip(Not(p)) == Not(Ip(p))
  {
    hide Exchange, Cross, Rol1, Not32;
    var a := Exchange(4, p);
    var b := Exchange(16, a);
    var c := Cross(2, b);
    var d := Cross(8, c);
    var e := Exchange(1, d);
    ExchangeNot(4, p);
    ExchangeNot(16, a);
    CrossNot(2, b);
    CrossNot(8, c);
    ExchangeNot(1, d);
    Rol1Not(e.l);
    Rol1Not(e.r);
  }

  lemma FpNot(p: Pair)
    ensures Fp(Not(p)) == Not(Fp(p))
  {
    hide Exchange, Cross, Ror1, Not32;
    var e := Pair(Ror1(p.l), Ror1(p.r));
    var d := Exchange(1, e);
    var c := Cross(8, d);
    var b := Cross(2, c);
    var a := Exchange(16, b);
    Ror1Not(p.l);
    Ror1Not(p.r);
    ExchangeNot(1, e);
    CrossNot(8, d);
    CrossNot(2, c);
    ExchangeNot(16, b);
    ExchangeNot(4, a);
  }

  // ---------------------------------------------------------------- the rounds

  lemma SixNotWord(r: bv32, k: bv32, n: nat)
    requires n == 0 || n == 8 || n == 16 || n == 24
    ensures Six(Add32(!r, k ^ 0x3F3F3F3F), n) == Six(Add32(r, k), n)
  {
    if n == 0 {
    } else if n == 8 {
    } else if n == 16 {
    } else {
    }
  }

  // What a selection reads is the same when half and subkey are both complemented.
  lemma SixNot(r: bv32, k: bv32, n: nat)
    requires n == 0 || n == 8 || n == 16 || n == 24
    ensures Six(Add32(Not32(r), NotKeyWord(k)), n) == Six(Add32(r, k), n)
  {
    hide Six, Add32;
    SixNotWord(r, k, n);
  }

  lemma FNot(sp: SBoxes, r: bv32, k: Subkey)
    ensures F(sp, Not32(r), NotSubkey(k)) == F(sp, r, k)
  {
    hide Add32, Not32, Six, Ror4, NotKeyWord;
    Ror4Not(r);
    SixNot(r, k.k0, 0);
    SixNot(r, k.k0, 8);
    SixNot(r, k.k0, 16);
    SixNot(r, k.k0, 24);
    SixNot(Ror4(r), k.k1, 0);
    SixNot(Ror4(r), k.k1, 8);
    SixNot(Ror4(r), k.k1, 16);
    SixNot(Ror4(r), k.k1, 24);
  }

  lemma RoundNot(sp: SBoxes, k: Subkey, p: Pair)
    ensures Round(sp, NotSubkey(k), Not(p)) == Not(Round(sp, k, p))
  {
    hide F, Add32, Not32, NotKeyWord;
    FNot(sp, p.r, k);
    AddNot(p.l, F(sp, p.r, k));
  }

  lemma {:induction false} RoundsNot(sp: SBoxes, ks: seq<Subkey>, p: Pair)
    ensures Rounds(sp, NotSubkeys(ks), Not(p)) == Not(Rounds(sp, ks, p))
  {
    hide Round, Not, NotSubkey;
    if ks != [] {
      RoundNot(sp, ks[0], p);
      RoundsNot(sp, ks[1..], Round(sp, ks[0], p));
      assert NotSubkeys(ks)[1..] == NotSubkeys(ks[1..]);
    }
  }

  // ---------------------------------------------------------------- the key schedule

  lemma Pc1NotLeft(x: bv32, y: bv32)
    ensures Pc1Words(!x, !y).l == Pc1Words(x, y).l ^ 0x0FFFFFFF
  {
  }

  lemma Pc1NotRight(x: bv32, y: bv32)
    ensures Pc1Words(!x, !y).r == Pc1Words(x, y).r ^ 0x0FFFFFFF
  {
  }

  lemma Pc1Not(p: Pair)
    ensures Pc1(Not(p)) == NotHalves(Pc1(p))
  {
    hide Pc1Words;
    Pc1NotLeft(p.l, p.r);
    Pc1NotRight(p.l, p.r);
  }

  lemma Rol28NotOnce(a: bv32)
    requires a <= 0x0FFFFFFF
    ensures Rol28(a ^ 0x0FFFFFFF, false) == Rol28(a, false) ^ 0x0FFFFFFF
  {
  }

  lemma Rol28NotTwice(a: bv32)
    requires a <= 0x0FFFFFFF
    ensures Rol28(a ^ 0x0FFFFFFF, true) == Rol28(a, true) ^ 0x0FFFFFFF
  {
  }

  lemma Rol28Not(a: bv32, twice: bool)
    requires a <= 0x0FFFFFFF
    ensures Rol28(Not28(a), twice) == Not28(Rol28(a, twice))
  {
    hide Rol28;
    if twice {
      Rol28NotTwice(a);
    } else {
      Rol28NotOnce(a);
    }
  }

  lemma RotatedNot(p: Pair, i: nat)
    requires Is28(p)
    ensures Rotated(NotHalves(p), i) == NotHalves(Rotated(p, i))
  {
    hide Rol28, Not28;
    var twice := !(i == 0 || i == 1 || i == 8 || i == 15);
    Rol28Not(p.l, twice);
    Rol28Not(p.r, twice);
  }

  lemma {:induction false} HalvesNot(p: Pair, i: nat)
    requires Is28(p)
    ensures Is28(Halves(p, i))
    ensures Halves(NotHalves(p), i) == NotHalves(Halves(p, i))
  {
    hide Rotated, NotHalves, Is28;
    if i > 0 {
      HalvesNot(p, i - 1);
      RotatedIs28(Halves(p, i - 1), i - 1);
      RotatedNot(Halves(p, i - 1), i - 1);
    }
  }

  lemma Pc2EvenNot(c: bv32, d: bv32)
    ensures Pc2Even(c ^ 0x0FFFFFFF, d ^ 0x0FFFFFFF) == Pc2Even(c, d) ^ 0x3F3F3F3F
  {
  }

  lemma Pc2OddNot(c: bv32, d: bv32)
    ensures Pc2Odd(c ^ 0x0FFFFFFF, d ^ 0x0FFFFFFF) == Pc2Odd(c, d) ^ 0x3F3F3F3F
  {
  }

  lemma SubkeyOfNot(p: Pair)
    ensures SubkeyOf(NotHalves(p)) == NotSubkey(SubkeyOf(p))
  {
    hide Pc2Even, Pc2Odd;
    Pc2EvenNot(p.l, p.r);
    Pc2OddNot(p.l, p.r);
  }

  lemma ScheduleNot(key: Pair)
    ensures Schedule(Not(key)) == NotSubkeys(Schedule(key))
  {
    hide Pc1, Halves, SubkeyOf, Not, NotHalves, NotSubkey, NotSubkeys, Is28;
    Pc1Not(key);
    Pc1Is28(key);
    forall i | 0 <= i < 16 ensures Schedule(Not(key))[i] == NotSubkeys(Schedule(key))[i] {
      HalvesNot(Pc1(key), i + 1);
      SubkeyOfNot(Halves(Pc1(key), i + 1));
      NotSubkeysAt(Schedule(key), i);
    }
  }

  lemma {:induction false} NotSubkeysAt(ks: seq<Subkey>, i: nat)
    requires i < |ks|
    ensures NotSubkeys(ks)[i] == NotSubkey(ks[i])
  {
    hide NotSubkey;
    if i > 0 {
      NotSubkeysAt(ks[1..], i - 1);
    }
  }

  // For every key and block, whatever the selection tables hold.
  lemma Complementation(sp: SBoxes, key: Pair, p: Pair)
    ensures Des(sp, Schedule(Not(key)), Not(p)) == Not(Des(sp, Schedule(key), p))
  {
    hide Ip, Fp, Rounds, Schedule, Not32, Not, NotSubkeys;
    ScheduleNot(key);
    IpNot(p);
    RoundsNot(sp, Schedule(key), Ip(p));
    SwapNot(Rounds(sp, Schedule(key), Ip(p)));
    FpNot(Swap(Rounds(sp, Schedule(key), Ip(p))));
  }

  lemma SwapNot(p: Pair)
    ensures Swap(Not(p)) == Not(Swap(p))
  {
    hide Not32;
  }
}
