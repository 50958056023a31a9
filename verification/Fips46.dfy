/**
 * DES as FIPS 46-3 writes it, with its permutation tables, for any selection tables: what the
 * rearranged rounds, subkeys and permutations of des.c and s_des.cpp amount to.
 */
module Fips46 {
  import opened Blocks
  import opened Feistel
  import opened DesKeys

  // ---------------------------------------------------------------- permutations of 64 bits

  // The lowest bits of the eight octets of a block, the last octet first
  function Column(l: bv32, r: bv32): bv32 {
    ((r & 1) << 7) | (((r >> 8) & 1) << 6) | (((r >> 16) & 1) << 5) | (((r >> 24) & 1) << 4)
    | ((l & 1) << 3) | (((l >> 8) & 1) << 2) | (((l >> 16) & 1) << 1) | ((l >> 24) & 1)
  }

  // The initial permutation: bits 2, 4, 6 and 8 of all octets, then bits 1, 3, 5 and 7.
  function InitialPermutation(p: Pair): Pair {
    Pair(IpLeft(p.l, p.r), IpRight(p.l, p.r))
  }

  function IpLeft(l: bv32, r: bv32): bv32 {
    (Column(l >> 6, r >> 6) << 24) | (Column(l >> 4, r >> 4) << 16) | (Column(l >> 2, r >> 2) << 8) | Column(l, r)
  }

  function IpRight(l: bv32, r: bv32): bv32 {
    (Column(l >> 7, r >> 7) << 24) | (Column(l >> 5, r >> 5) << 16) | (Column(l >> 3, r >> 3) << 8) | Column(l >> 1, r >> 1)
  }

  // Permuted choice 1: bits 1, 2 and 3 of all octets and bit 4 of the last four, then bits 7, 6
  // and 5 of all octets and bit 4 of the first four.
  function PermutedChoice1(p: Pair): Pair {
    Pair(Pc1Left(p.l, p.r), Pc1Right(p.l, p.r))
  }

  function Pc1Left(l: bv32, r: bv32): bv32 {
    (Column(l >> 7, r >> 7) << 20) | (Column(l >> 6, r >> 6) << 12) | (Column(l >> 5, r >> 5) << 4)
    | (Column(l >> 4, r >> 4) >> 4)
  }

  function Pc1Right(l: bv32, r: bv32): bv32 {
    (Column(l >> 1, r >> 1) << 20) | (Column(l >> 2, r >> 2) << 12) | (Column(l >> 3, r >> 3) << 4)
    | (Column(l >> 4, r >> 4) & 0xF)
  }

  // ---------------------------------------------------------------- groups of six bits

  // Group n of the expansion: bits 4 n - 4 to 4 n + 1, counted cyclically
  function Expansion(r: bv32, n: nat): bv32 {
    if n == 1 then ((r << 5) | (r >> 27)) & 0x3F
    else if n == 2 then (r >> 23) & 0x3F
    else if n == 3 then (r >> 19) & 0x3F
    else if n == 4 then (r >> 15) & 0x3F
    else if n == 5 then (r >> 11) & 0x3F
    else if n == 6 then (r >> 7) & 0x3F
    else if n == 7 then (r >> 3) & 0x3F
    else ((r << 1) | (r >> 31)) & 0x3F
  }

  // Group n of permuted choice 2; bit k of C is c >> 28 - k, and bit k of D is d >> 56 - k.
  function PermutedChoice2(c: bv32, d: bv32, n: nat): bv32 {
    if n == 1 then
      (((c >> 14) & 1) << 5) | (((c >> 11) & 1) << 4) | (((c >> 17) & 1) << 3) | (((c >> 4) & 1) << 2) | (((c >> 27) & 1) << 1) | ((c >> 23) & 1)
    else if n == 2 then
      (((c >> 25) & 1) << 5) | ((c & 1) << 4) | (((c >> 13) & 1) << 3) | (((c >> 22) & 1) << 2) | (((c >> 7) & 1) << 1) | ((c >> 18) & 1)
    else if n == 3 then
      (((c >> 5) & 1) << 5) | (((c >> 9) & 1) << 4) | (((c >> 16) & 1) << 3) | (((c >> 24) & 1) << 2) | (((c >> 2) & 1) << 1) | ((c >> 20) & 1)
    else if n == 4 then
      (((c >> 12) & 1) << 5) | (((c >> 21) & 1) << 4) | (((c >> 1) & 1) << 3) | (((c >> 8) & 1) << 2) | (((c >> 15) & 1) << 1) | ((c >> 26) & 1)
    else if n == 5 then
      (((d >> 15) & 1) << 5) | (((d >> 4) & 1) << 4) | (((d >> 25) & 1) << 3) | (((d >> 19) & 1) << 2) | (((d >> 9) & 1) << 1) | ((d >> 1) & 1)
    else if n == 6 then
      (((d >> 26) & 1) << 5) | (((d >> 16) & 1) << 4) | (((d >> 5) & 1) << 3) | (((d >> 11) & 1) << 2) | (((d >> 23) & 1) << 1) | ((d >> 8) & 1)
    else if n == 7 then
      (((d >> 12) & 1) << 5) | (((d >> 7) & 1) << 4) | (((d >> 17) & 1) << 3) | ((d & 1) << 2) | (((d >> 22) & 1) << 1) | ((d >> 3) & 1)
    else
      (((d >> 10) & 1) << 5) | (((d >> 14) & 1) << 4) | (((d >> 6) & 1) << 3) | (((d >> 20) & 1) << 2) | (((d >> 27) & 1) << 1) | ((d >> 24) & 1)
  }

  // ---------------------------------------------------------------- the key schedule

  // One bit to the left in 28 bits
  function Turn(c: bv32): bv32 { ((c << 1) | (c >> 27)) & 0x0FFFFFFF }

  function Turned(c: bv32, k: nat): bv32 { if k == 0 then c else Turn(Turned(c, k - 1)) }

  // How far the halves are turned for subkey i
  function Total(i: nat): nat {
    if i == 1 then 1 else if i == 2 then 2 else if i == 3 then 4 else if i == 4 then 6
    else if i == 5 then 8 else if i == 6 then 10 else if i == 7 then 12 else if i == 8 then 14
    else if i == 9 then 15 else if i == 10 then 17 else if i == 11 then 19 else if i == 12 then 21
    else if i == 13 then 23 else if i == 14 then 25 else if i == 15 then 27 else if i == 16 then 28
    else 0
  }

  function Group(key: Pair, i: nat, n: nat): bv32 {
    var p := PermutedChoice1(key);
    PermutedChoice2(Turned(p.l, Total(i)), Turned(p.r, Total(i)), n)
  }

  // ---------------------------------------------------------------- the cipher

  // The function f: eight groups, looked up and summed. The entries of the selection tables stand
  // one bit further to the left than the bits they are added to.
  function Looked(sp: SBoxes, r: bv32, key: Pair, i: nat, n: nat): bv32 {
    sp(n, Add32(Expansion(r, n), Group(key, i, n)))
  }

  function F46(sp: SBoxes, r: bv32, key: Pair, i: nat): bv32 {
    Ror1(Add32(Add32(Add32(Add32(Add32(Add32(Add32(Looked(sp, r, key, i, 1), Looked(sp, r, key, i, 2)),
      Looked(sp, r, key, i, 3)), Looked(sp, r, key, i, 4)), Looked(sp, r, key, i, 5)), Looked(sp, r, key, i, 6)),
      Looked(sp, r, key, i, 7)), Looked(sp, r, key, i, 8)))
  }

  // L(i) and R(i)
  function Half(sp: SBoxes, key: Pair, p: Pair, i: nat): Pair {
    if i == 0 then InitialPermutation(p)
    else
      var q := Half(sp, key, p, i - 1);
      Pair(q.r, Add32(q.l, F46(sp, q.r, key, i)))
  }

  // ---------------------------------------------------------------- the permutations of the code

  lemma LeftIs(l: bv32, r: bv32)
    ensures Ip(Pair(l, r)).l == Rol1(IpLeft(l, r))
  {
  }

  lemma RightIs(l: bv32, r: bv32)
    ensures Ip(Pair(l, r)).r == Rol1(IpRight(l, r))
  {
  }

  function BothRol(p: Pair): Pair { Pair(Rol1(p.l), Rol1(p.r)) }

  // DES_IP is the initial permutation, with both halves turned by one bit.
  lemma IpIs(p: Pair)
    ensures Ip(p) == BothRol(InitialPermutation(p))
  {
    hide Ip, IpLeft, IpRight, Rol1;
    LeftIs(p.l, p.r);
    RightIs(p.l, p.r);
  }

  // The lowest bits of eight octets, and bits 1 to 7 of them, bit 1 being the highest
  function Bits8(a: byte, b: byte, c: byte, d: byte, e: byte, f: byte, g: byte, h: byte): byte {
    ((a & 1) << 7) | ((b & 1) << 6) | ((c & 1) << 5) | ((d & 1) << 4) | ((e & 1) << 3) | ((f & 1) << 2) | ((g & 1) << 1) | (h & 1)
  }

  function Bits1(a: byte, b: byte, c: byte, d: byte, e: byte, f: byte, g: byte, h: byte): byte {
    Bits8(a >> 7, b >> 7, c >> 7, d >> 7, e >> 7, f >> 7, g >> 7, h >> 7)
  }

  function Bits2(a: byte, b: byte, c: byte, d: byte, e: byte, f: byte, g: byte, h: byte): byte {
    Bits8(a >> 6, b >> 6, c >> 6, d >> 6, e >> 6, f >> 6, g >> 6, h >> 6)
  }

  function Bits3(a: byte, b: byte, c: byte, d: byte, e: byte, f: byte, g: byte, h: byte): byte {
    Bits8(a >> 5, b >> 5, c >> 5, d >> 5, e >> 5, f >> 5, g >> 5, h >> 5)
  }

  function Bits4(a: byte, b: byte, c: byte, d: byte, e: byte, f: byte, g: byte, h: byte): byte {
    Bits8(a >> 4, b >> 4, c >> 4, d >> 4, e >> 4, f >> 4, g >> 4, h >> 4)
  }

  function Bits5(a: byte, b: byte, c: byte, d: byte, e: byte, f: byte, g: byte, h: byte): byte {
    Bits8(a >> 3, b >> 3, c >> 3, d >> 3, e >> 3, f >> 3, g >> 3, h >> 3)
  }

  function Bits6(a: byte, b: byte, c: byte, d: byte, e: byte, f: byte, g: byte, h: byte): byte {
    Bits8(a >> 2, b >> 2, c >> 2, d >> 2, e >> 2, f >> 2, g >> 2, h >> 2)
  }

  function Bits7(a: byte, b: byte, c: byte, d: byte, e: byte, f: byte, g: byte, h: byte): byte {
    Bits8(a >> 1, b >> 1, c >> 1, d >> 1, e >> 1, f >> 1, g >> 1, h >> 1)
  }

  // On the octets of a block: octet 1 of the result holds bit 2 of octets 8 to 1, octet 2 bit 4,
  // and so on.
  function InitialOctets(b: seq<byte>): (r: seq<byte>)
    requires |b| == 8
    ensures |r| == 8
  {
    [Bits2(b[7], b[6], b[5], b[4], b[3], b[2], b[1], b[0]), Bits4(b[7], b[6], b[5], b[4], b[3], b[2], b[1], b[0]),
     Bits6(b[7], b[6], b[5], b[4], b[3], b[2], b[1], b[0]), Bits8(b[7], b[6], b[5], b[4], b[3], b[2], b[1], b[0]),
     Bits1(b[7], b[6], b[5], b[4], b[3], b[2], b[1], b[0]), Bits3(b[7], b[6], b[5], b[4], b[3], b[2], b[1], b[0]),
     Bits5(b[7], b[6], b[5], b[4], b[3], b[2], b[1], b[0]), Bits7(b[7], b[6], b[5], b[4], b[3], b[2], b[1], b[0])]
  }

  lemma IpOctets(b: seq<byte>)
    requires |b| == 8
    ensures InitialPermutation(BlockPair(b)) == BlockPair(InitialOctets(b))
  {
    hide Load, IpLeft, IpRight, Bits1, Bits2, Bits3, Bits4, Bits5, Bits6, Bits7, Bits8;
    LeftOctets(b[0], b[1], b[2], b[3], b[4], b[5], b[6], b[7]);
    RightOctets(b[0], b[1], b[2], b[3], b[4], b[5], b[6], b[7]);
  }

  lemma LeftOctets(a: byte, b: byte, c: byte, d: byte, e: byte, f: byte, g: byte, h: byte)
    ensures IpLeft(Load(a, b, c, d), Load(e, f, g, h))
      == Load(Bits2(h, g, f, e, d, c, b, a), Bits4(h, g, f, e, d, c, b, a), Bits6(h, g, f, e, d, c, b, a), Bits8(h, g, f, e, d, c, b, a))
  {
  }

  lemma RightOctets(a: byte, b: byte, c: byte, d: byte, e: byte, f: byte, g: byte, h: byte)
    ensures IpRight(Load(a, b, c, d), Load(e, f, g, h))
      == Load(Bits1(h, g, f, e, d, c, b, a), Bits3(h, g, f, e, d, c, b, a), Bits5(h, g, f, e, d, c, b, a), Bits7(h, g, f, e, d, c, b, a))
  {
  }

  lemma Pc1LeftIs(l: bv32, r: bv32)
    ensures Pc1Words(l, r).l == Pc1Left(l, r)
  {
  }

  lemma Pc1RightIs(l: bv32, r: bv32)
    ensures Pc1Words(l, r).r == Pc1Right(l, r)
  {
  }

  // DES_PC1 is permuted choice 1.
  lemma Pc1Is(p: Pair)
    ensures Pc1(p) == PermutedChoice1(p)
  {
    hide Pc1Words, Pc1Left, Pc1Right;
    Pc1LeftIs(p.l, p.r);
    Pc1RightIs(p.l, p.r);
  }

  // ---------------------------------------------------------------- the groups of the code

  lemma Expansion1(r: bv32)
    ensures Six(Ror4(Rol1(r)), 24) == Expansion(r, 1)
  {
  }

  lemma Expansion2(r: bv32)
    ensures Six(Rol1(r), 24) == Expansion(r, 2)
  {
  }

  lemma Expansion3(r: bv32)
    ensures Six(Ror4(Rol1(r)), 16) == Expansion(r, 3)
  {
  }

  lemma Expansion4(r: bv32)
    ensures Six(Rol1(r), 16) == Expansion(r, 4)
  {
  }

  lemma Expansion5(r: bv32)
    ensures Six(Ror4(Rol1(r)), 8) == Expansion(r, 5)
  {
  }

  lemma Expansion6(r: bv32)
    ensures Six(Rol1(r), 8) == Expansion(r, 6)
  {
  }

  lemma Expansion7(r: bv32)
    ensures Six(Ror4(Rol1(r)), 0) == Expansion(r, 7)
  {
  }

  lemma Expansion8(r: bv32)
    ensures Six(Rol1(r), 0) == Expansion(r, 8)
  {
  }

  lemma Choice1(c: bv32, d: bv32)
    ensures Six(Pc2Odd(c, d), 24) == PermutedChoice2(c, d, 1)
  {
  }

  lemma Choice2(c: bv32, d: bv32)
    ensures Six(Pc2Even(c, d), 24) == PermutedChoice2(c, d, 2)
  {
  }

  lemma Choice3(c: bv32, d: bv32)
    ensures Six(Pc2Odd(c, d), 16) == PermutedChoice2(c, d, 3)
  {
  }

  lemma Choice4(c: bv32, d: bv32)
    ensures Six(Pc2Even(c, d), 16) == PermutedChoice2(c, d, 4)
  {
  }

  lemma Choice5(c: bv32, d: bv32)
    ensures Six(Pc2Odd(c, d), 8) == PermutedChoice2(c, d, 5)
  {
  }

  lemma Choice6(c: bv32, d: bv32)
    ensures Six(Pc2Even(c, d), 8) == PermutedChoice2(c, d, 6)
  {
  }

  lemma Choice7(c: bv32, d: bv32)
    ensures Six(Pc2Odd(c, d), 0) == PermutedChoice2(c, d, 7)
  {
  }

  lemma Choice8(c: bv32, d: bv32)
    ensures Six(Pc2Even(c, d), 0) == PermutedChoice2(c, d, 8)
  {
  }

  lemma SixSum(a: bv32, b: bv32, n: nat)
    requires n == 0 || n == 8 || n == 16 || n == 24
    ensures Six(Add32(a, b), n) == Add32(Six(a, n), Six(b, n))
  {
    hide Six, Add32;
    SixSum0(a, b);
    SixSum8(a, b);
    SixSum16(a, b);
    SixSum24(a, b);
  }

  lemma SixSum0(a: bv32, b: bv32)
    ensures Six(Add32(a, b), 0) == Add32(Six(a, 0), Six(b, 0))
  {
  }

  lemma SixSum8(a: bv32, b: bv32)
    ensures Six(Add32(a, b), 8) == Add32(Six(a, 8), Six(b, 8))
  {
  }

  lemma SixSum16(a: bv32, b: bv32)
    ensures Six(Add32(a, b), 16) == Add32(Six(a, 16), Six(b, 16))
  {
  }

  lemma SixSum24(a: bv32, b: bv32)
    ensures Six(Add32(a, b), 24) == Add32(Six(a, 24), Six(b, 24))
  {
  }

  // The order in which the eight terms are added makes no difference.
  lemma EightTerms(a: bv32, b: bv32, c: bv32, d: bv32, e: bv32, f: bv32, g: bv32, h: bv32)
    ensures Add32(Add32(Add32(b, d), Add32(f, h)), Add32(Add32(a, c), Add32(e, g)))
      == Add32(Add32(Add32(Add32(Add32(Add32(Add32(a, b), c), d), e), f), g), h)
  {
    hide Add32;
    Interchange(Add32(b, d), Add32(f, h), Add32(a, c), Add32(e, g));
    Interchange(b, d, a, c);
    Interchange(f, h, e, g);
    AddCommutes(a, b);
    AddCommutes(c, d);
    AddCommutes(e, f);
    AddCommutes(g, h);
    var x := Add32(Add32(a, b), Add32(c, d));
    AddAssoc(Add32(a, b), c, d);
    AddAssoc(Add32(x, e), f, Add32(g, h));
    AddAssoc(x, e, f);
    AddAssoc(x, Add32(e, f), Add32(g, h));
    AddAssoc(Add32(x, Add32(e, f)), g, h);
  }

  lemma Interchange(a: bv32, b: bv32, c: bv32, d: bv32)
    ensures Add32(Add32(a, b), Add32(c, d)) == Add32(Add32(a, c), Add32(b, d))
  {
    hide Add32;
    AddAssoc(a, b, Add32(c, d));
    AddAssoc(b, c, d);
    AddCommutes(b, c);
    AddAssoc(c, b, d);
    AddAssoc(a, c, Add32(b, d));
  }

  // DES_ROUND looks up the groups of the expansion summed with those of the subkey.
  lemma FIs(sp: SBoxes, r: bv32, key: Pair, i: nat)
    requires 1 <= i <= 16
    ensures Ror1(F(sp, Rol1(r), Schedule(key)[i - 1])) == F46(sp, r, key, i)
  {
    hide Six, Expansion, PermutedChoice2, Add32, Pc2Even, Pc2Odd, Rol1, Ror1, Ror4, Pc1, PermutedChoice1, Halves, Turned, Total, Looked;
    var p := PermutedChoice1(key);
    var c, d := Turned(p.l, Total(i)), Turned(p.r, Total(i));
    Pc1Is(key);
    HalvesAre(key, i);
    ScheduleAt(key, i);
    OddGroups(sp, r, key, i, c, d);
    EvenGroups(sp, r, key, i, c, d);
    EightTerms(Looked(sp, r, key, i, 1), Looked(sp, r, key, i, 2), Looked(sp, r, key, i, 3), Looked(sp, r, key, i, 4),
      Looked(sp, r, key, i, 5), Looked(sp, r, key, i, 6), Looked(sp, r, key, i, 7), Looked(sp, r, key, i, 8));
  }

  lemma ScheduleAt(key: Pair, i: nat)
    requires 1 <= i <= 16
    ensures Schedule(key)[i - 1] == SubkeyOf(Halves(Pc1(key), i))
  {
    hide SubkeyOf, Halves, Pc1;
  }

  lemma EvenGroups(sp: SBoxes, r: bv32, key: Pair, i: nat, c: bv32, d: bv32)
    requires var p := PermutedChoice1(key); c == Turned(p.l, Total(i)) && d == Turned(p.r, Total(i))
    ensures
      var t := Add32(Rol1(r), Pc2Even(c, d));
      && sp(2, Six(t, 24)) == Looked(sp, r, key, i, 2) && sp(4, Six(t, 16)) == Looked(sp, r, key, i, 4)
      && sp(6, Six(t, 8)) == Looked(sp, r, key, i, 6) && sp(8, Six(t, 0)) == Looked(sp, r, key, i, 8)
  {
    hide Six, Expansion, PermutedChoice2, Add32, Pc2Even, Rol1, PermutedChoice1, Turned, Total;
    SixSum(Rol1(r), Pc2Even(c, d), 24);
    SixSum(Rol1(r), Pc2Even(c, d), 16);
    SixSum(Rol1(r), Pc2Even(c, d), 8);
    SixSum(Rol1(r), Pc2Even(c, d), 0);
    Expansion2(r);
    Expansion4(r);
    Expansion6(r);
    Expansion8(r);
    Choice2(c, d);
    Choice4(c, d);
    Choice6(c, d);
    Choice8(c, d);
  }

  lemma OddGroups(sp: SBoxes, r: bv32, key: Pair, i: nat, c: bv32, d: bv32)
    requires var p := PermutedChoice1(key); c == Turned(p.l, Total(i)) && d == Turned(p.r, Total(i))
    ensures
      var u := Add32(Ror4(Rol1(r)), Pc2Odd(c, d));
      && sp(1, Six(u, 24)) == Looked(sp, r, key, i, 1) && sp(3, Six(u, 16)) == Looked(sp, r, key, i, 3)
      && sp(5, Six(u, 8)) == Looked(sp, r, key, i, 5) && sp(7, Six(u, 0)) == Looked(sp, r, key, i, 7)
  {
    hide Six, Expansion, PermutedChoice2, Add32, Pc2Odd, Rol1, Ror4, PermutedChoice1, Turned, Total;
    SixSum(Ror4(Rol1(r)), Pc2Odd(c, d), 24);
    SixSum(Ror4(Rol1(r)), Pc2Odd(c, d), 16);
    SixSum(Ror4(Rol1(r)), Pc2Odd(c, d), 8);
    SixSum(Ror4(Rol1(r)), Pc2Odd(c, d), 0);
    Expansion1(r);
    Expansion3(r);
    Expansion5(r);
    Expansion7(r);
    Choice1(c, d);
    Choice3(c, d);
    Choice5(c, d);
    Choice7(c, d);
  }

  // ---------------------------------------------------------------- the turns of the code

  lemma TurnOnce(c: bv32)
    ensures Rol28(c, false) == Turn(c)
  {
  }

  lemma TurnTwice(c: bv32)
    requires c <= 0x0FFFFFFF
    ensures Rol28(c, true) == Turn(Turn(c))
  {
  }

  lemma TurnFits(c: bv32)
    ensures Turn(c) <= 0x0FFFFFFF
  {
  }

  lemma {:induction false} TurnedFits(c: bv32, k: nat)
    requires c <= 0x0FFFFFFF
    ensures Turned(c, k) <= 0x0FFFFFFF
  {
    hide Turn;
    if k > 0 {
      TurnFits(Turned(c, k - 1));
    }
  }

  lemma TotalStep(i: nat)
    requires 1 <= i <= 16
    ensures Total(i) == Total(i - 1) + if i == 1 || i == 2 || i == 9 || i == 16 then 1 else 2
  {
  }

  lemma TurnedMore(c: bv32, k: nat)
    ensures Turned(c, k + 1) == Turn(Turned(c, k)) && Turned(c, k + 2) == Turn(Turn(Turned(c, k)))
  {
    hide Turn;
    assert Turned(c, k + 2) == Turn(Turned(c, k + 1));
  }

  lemma TurnIs(c: bv32, k: nat, twice: bool)
    requires c <= 0x0FFFFFFF
    ensures Rol28(Turned(c, k), twice) == Turned(c, k + if twice then 2 else 1)
  {
    hide Rol28, Turn, Turned;
    TurnedFits(c, k);
    TurnOnce(Turned(c, k));
    TurnTwice(Turned(c, k));
    TurnedMore(c, k);
  }

  lemma {:induction false} HalvesAre(key: Pair, i: nat)
    requires i <= 16
    ensures Halves(Pc1(key), i) == Pair(Turned(Pc1(key).l, Total(i)), Turned(Pc1(key).r, Total(i)))
  {
    hide Rol28, Turn, Pc1, Total;
    if i == 0 {
      assert Total(0) == 0 by { TotalStart(); }
    } else {
      HalvesAre(key, i - 1);
      Pc1Is28(key);
      TotalStep(i);
      var twice := !(i == 1 || i == 2 || i == 9 || i == 16);
      TurnIs(Pc1(key).l, Total(i - 1), twice);
      TurnIs(Pc1(key).r, Total(i - 1), twice);
    }
  }

  lemma TotalStart()
    ensures Total(0) == 0
  {
  }

  // ---------------------------------------------------------------- the rounds of the code

  lemma RolSum(a: bv32, b: bv32)
    ensures Add32(Rol1(a), b) == Rol1(Add32(a, Ror1(b)))
  {
  }

  lemma {:induction false} HalvesOfRounds(sp: SBoxes, key: Pair, p: Pair, i: nat)
    requires i <= 16
    ensures Rounds(sp, Schedule(key)[..i], Ip(p)) == BothRol(Half(sp, key, p, i))
  {
    hide Ip, InitialPermutation, F, F46, Add32, Rol1, Schedule;
    var ks := Schedule(key);
    if i == 0 {
      IpIs(p);
    } else {
      HalvesOfRounds(sp, key, p, i - 1);
      var q := Half(sp, key, p, i - 1);
      RoundsNext(sp, ks, i - 1, Ip(p));
      FIs(sp, q.r, key, i);
      RolSum(q.l, F(sp, Rol1(q.r), ks[i - 1]));
    }
  }

  lemma {:induction false} RoundsNext(sp: SBoxes, ks: seq<Subkey>, n: nat, p: Pair)
    requires n < |ks|
    ensures Rounds(sp, ks[..n + 1], p) == Round(sp, ks[n], Rounds(sp, ks[..n], p))
    decreases n
  {
    hide Round;
    if n == 0 {
      assert ks[..1][1..] == [];
    } else {
      RoundsNext(sp, ks[1..], n - 1, Round(sp, ks[0], p));
      assert ks[..n + 1][1..] == ks[1..][..n] && ks[..n][1..] == ks[1..][..n - 1];
    }
  }

  // For every key, block and selection tables, des.c maps a block to the one whose initial
  // permutation is R16 L16. So it computes DES: the initial permutation has an inverse.
  lemma DesIsFips(sp: SBoxes, key: Pair, p: Pair)
    ensures var h := Half(sp, key, p, 16); InitialPermutation(Des(sp, Schedule(key), p)) == Pair(h.r, h.l)
  {
    hide Ip, Fp, InitialPermutation, Rounds, Half, Rol1, Schedule;
    var ks, h := Schedule(key), Half(sp, key, p, 16);
    assert ks[..16] == ks;
    HalvesOfRounds(sp, key, p, 16);
    var c := Des(sp, ks, p);
    IpFp(Swap(Rounds(sp, ks, Ip(p))));
    IpIs(c);
    RolInjective(InitialPermutation(c).l, h.r);
    RolInjective(InitialPermutation(c).r, h.l);
  }

  lemma RolInjective(a: bv32, b: bv32)
    requires Rol1(a) == Rol1(b)
    ensures a == b
  {
    hide Rol1, Ror1;
    RolRor(a);
    RolRor(b);
  }

  // Blocks with one initial permutation are equal.
  lemma PermutationInjective(p: Pair, q: Pair)
    requires InitialPermutation(p) == InitialPermutation(q)
    ensures p == q
  {
    hide Ip, Fp, InitialPermutation;
    IpIs(p);
    IpIs(q);
    FpIp(p);
    FpIp(q);
  }
}
