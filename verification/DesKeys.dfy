/**
 * The DES key schedule in the two forms the repository contains: des.c permutes the key with
 * swapped bit groups, s_des.cpp with lookup tables. Both give the same subkeys.
 */
module DesKeys {
  import opened Feistel

  // ---------------------------------------------------------------- permuted choice 1

  // DES_PC1 of des.c, one binding for each value left, right and temp take.
  function Pc1(p: Pair): Pair { Pc1Words(p.l, p.r) }

  function Pc1Words(l0: bv32, r0: bv32): Pair {
    var t1 := ((l0 >> 4) ^ r0) & 0x0F0F0F0F; var r1 := r0 ^ t1; var l1 := l0 ^ (t1 << 4);
    var t2 := ((r1 >> 16) ^ l1) & 0x0000FFFF; var l2 := l1 ^ t2; var r2 := r1 ^ (t2 << 16);
    var t3 := ((l2 >> 2) ^ r2) & 0x33333333; var r3 := r2 ^ t3; var l3 := l2 ^ (t3 << 2);
    var t4 := ((r3 >> 16) ^ l3) & 0x0000FFFF; var l4 := l3 ^ t4; var r4 := r3 ^ (t4 << 16);
    var t5 := ((l4 >> 1) ^ r4) & 0x55555555; var r5 := r4 ^ t5; var l5 := l4 ^ (t5 << 1);
    var t6 := ((r5 >> 8) ^ l5) & 0x00FF00FF; var l6 := l5 ^ t6; var r6 := r5 ^ (t6 << 8);
    var t7 := ((l6 >> 1) ^ r6) & 0x55555555; var r7 := r6 ^ t7; var l7 := l6 ^ (t7 << 1);
    var temp := (l7 << 8) | ((r7 >> 20) & 0x000000F0);
    Pair(((r7 << 20) & 0x0FF00000) | ((r7 << 4) & 0x000FF000) | ((r7 >> 12) & 0x00000FF0) | ((r7 >> 28) & 0x0000000F),
         temp >> 4)
  }

  // The bit-spreading tables of s_des.cpp
  function LHs(n: bv32): bv32 {
    if n == 0 then 0x00000000 else if n == 1 then 0x00000001 else if n == 2 then 0x00000100 else if n == 3 then 0x00000101
    else if n == 4 then 0x00010000 else if n == 5 then 0x00010001 else if n == 6 then 0x00010100 else if n == 7 then 0x00010101
    else if n == 8 then 0x01000000 else if n == 9 then 0x01000001 else if n == 10 then 0x01000100 else if n == 11 then 0x01000101
    else if n == 12 then 0x01010000 else if n == 13 then 0x01010001 else if n == 14 then 0x01010100 else 0x01010101
  }

  function RHs(n: bv32): bv32 {
    if n == 0 then 0x00000000 else if n == 1 then 0x01000000 else if n == 2 then 0x00010000 else if n == 3 then 0x01010000
    else if n == 4 then 0x00000100 else if n == 5 then 0x01000100 else if n == 6 then 0x00010100 else if n == 7 then 0x01010100
    else if n == 8 then 0x00000001 else if n == 9 then 0x01000001 else if n == 10 then 0x00010001 else if n == 11 then 0x01010001
    else if n == 12 then 0x00000101 else if n == 13 then 0x01000101 else if n == 14 then 0x00010101 else 0x01010101
  }

  // The two swaps before the table lookups
  function TableX(x: bv32, y: bv32): bv32 {
    var t := ((y >> 4) ^ x) & 0x0F0F0F0F;
    var x1 := x ^ t;
    var y1 := y ^ (t << 4);
    x1 ^ ((y1 ^ x1) & 0x10101010)
  }

  function TableY(x: bv32, y: bv32): bv32 {
    var t := ((y >> 4) ^ x) & 0x0F0F0F0F;
    var x1 := x ^ t;
    var y1 := y ^ (t << 4);
    y1 ^ ((y1 ^ x1) & 0x10101010)
  }

  function TableLeft(x: bv32): bv32 {
    ((LHs(x & 0xF) << 3) | (LHs((x >> 8) & 0xF) << 2)
     | (LHs((x >> 16) & 0xF) << 1) | LHs((x >> 24) & 0xF)
     | (LHs((x >> 5) & 0xF) << 7) | (LHs((x >> 13) & 0xF) << 6)
     | (LHs((x >> 21) & 0xF) << 5) | (LHs((x >> 29) & 0xF) << 4)) & 0x0FFFFFFF
  }

  function TableRight(y: bv32): bv32 {
    ((RHs((y >> 1) & 0xF) << 3) | (RHs((y >> 9) & 0xF) << 2)
     | (RHs((y >> 17) & 0xF) << 1) | RHs((y >> 25) & 0xF)
     | (RHs((y >> 4) & 0xF) << 7) | (RHs((y >> 12) & 0xF) << 6)
     | (RHs((y >> 20) & 0xF) << 5) | (RHs((y >> 28) & 0xF) << 4)) & 0x0FFFFFFF
  }

  // Permuted choice 1 of s_des.cpp
  function TablePc1(p: Pair): Pair {
    Pair(TableLeft(TableX(p.l, p.r)), TableRight(TableY(p.l, p.r)))
  }

  lemma LHsSpreads(n: bv32)
    requires n < 16
    ensures LHs(n) == (n & 1) | ((n & 2) << 7) | ((n & 4) << 14) | ((n & 8) << 21)
  {
  }

  lemma RHsSpreads(n: bv32)
    requires n < 16
    ensures RHs(n) == ((n & 1) << 24) | ((n & 2) << 15) | ((n & 4) << 6) | ((n & 8) >> 3)
  {
  }

  // The lookups written out as moved bits.
  function SpreadLeft(x: bv32): bv32 {
    var n0 := x & 0xF;
    var n1 := (x >> 8) & 0xF;
    var n2 := (x >> 16) & 0xF;
    var n3 := (x >> 24) & 0xF;
    var n4 := (x >> 5) & 0xF;
    var n5 := (x >> 13) & 0xF;
    var n6 := (x >> 21) & 0xF;
    var n7 := (x >> 29) & 0xF;
    ((((n0 & 1) | ((n0 & 2) << 7) | ((n0 & 4) << 14) | ((n0 & 8) << 21)) << 3)
     | (((n1 & 1) | ((n1 & 2) << 7) | ((n1 & 4) << 14) | ((n1 & 8) << 21)) << 2)
     | (((n2 & 1) | ((n2 & 2) << 7) | ((n2 & 4) << 14) | ((n2 & 8) << 21)) << 1)
     | ((n3 & 1) | ((n3 & 2) << 7) | ((n3 & 4) << 14) | ((n3 & 8) << 21))
     | (((n4 & 1) | ((n4 & 2) << 7) | ((n4 & 4) << 14) | ((n4 & 8) << 21)) << 7)
     | (((n5 & 1) | ((n5 & 2) << 7) | ((n5 & 4) << 14) | ((n5 & 8) << 21)) << 6)
     | (((n6 & 1) | ((n6 & 2) << 7) | ((n6 & 4) << 14) | ((n6 & 8) << 21)) << 5)
     | (((n7 & 1) | ((n7 & 2) << 7) | ((n7 & 4) << 14) | ((n7 & 8) << 21)) << 4)) & 0x0FFFFFFF
  }

  function SpreadRight(y: bv32): bv32 {
    var n0 := (y >> 1) & 0xF;
    var n1 := (y >> 9) & 0xF;
    var n2 := (y >> 17) & 0xF;
    var n3 := (y >> 25) & 0xF;
    var n4 := (y >> 4) & 0xF;
    var n5 := (y >> 12) & 0xF;
    var n6 := (y >> 20) & 0xF;
    var n7 := (y >> 28) & 0xF;
    (((((n0 & 1) << 24) | ((n0 & 2) << 15) | ((n0 & 4) << 6) | ((n0 & 8) >> 3)) << 3)
     | ((((n1 & 1) << 24) | ((n1 & 2) << 15) | ((n1 & 4) << 6) | ((n1 & 8) >> 3)) << 2)
     | ((((n2 & 1) << 24) | ((n2 & 2) << 15) | ((n2 & 4) << 6) | ((n2 & 8) >> 3)) << 1)
     | (((n3 & 1) << 24) | ((n3 & 2) << 15) | ((n3 & 4) << 6) | ((n3 & 8) >> 3))
     | ((((n4 & 1) << 24) | ((n4 & 2) << 15) | ((n4 & 4) << 6) | ((n4 & 8) >> 3)) << 7)
     | ((((n5 & 1) << 24) | ((n5 & 2) << 15) | ((n5 & 4) << 6) | ((n5 & 8) >> 3)) << 6)
     | ((((n6 & 1) << 24) | ((n6 & 2) << 15) | ((n6 & 4) << 6) | ((n6 & 8) >> 3)) << 5)
     | ((((n7 & 1) << 24) | ((n7 & 2) << 15) | ((n7 & 4) << 6) | ((n7 & 8) >> 3)) << 4)) & 0x0FFFFFFF
  }

  lemma TableLeftIs(x: bv32)
    ensures TableLeft(x) == SpreadLeft(x)
  {
    hide LHs;
    LHsSpreads(x & 0xF);
    LHsSpreads((x >> 8) & 0xF);
    LHsSpreads((x >> 16) & 0xF);
    LHsSpreads((x >> 24) & 0xF);
    LHsSpreads((x >> 5) & 0xF);
    LHsSpreads((x >> 13) & 0xF);
    LHsSpreads((x >> 21) & 0xF);
    LHsSpreads((x >> 29) & 0xF);
  }

  lemma TableRightIs(y: bv32)
    ensures TableRight(y) == SpreadRight(y)
  {
    hide RHs;
    RHsSpreads((y >> 1) & 0xF);
    RHsSpreads((y >> 9) & 0xF);
    RHsSpreads((y >> 17) & 0xF);
    RHsSpreads((y >> 25) & 0xF);
    RHsSpreads((y >> 4) & 0xF);
    RHsSpreads((y >> 12) & 0xF);
    RHsSpreads((y >> 20) & 0xF);
    RHsSpreads((y >> 28) & 0xF);
  }

  lemma SpreadLeftIs(x: bv32, y: bv32)
    ensures SpreadLeft(TableX(x, y)) == Pc1Words(x, y).l
  {
  }

  lemma SpreadRightIs(x: bv32, y: bv32)
    ensures SpreadRight(TableY(x, y)) == Pc1Words(x, y).r
  {
  }

  // The table-driven permutation is the swap-driven one, for every key.
  lemma TablePc1Is(p: Pair)
    ensures TablePc1(p) == Pc1(p)
  {
    hide TableX, TableY, TableLeft, TableRight, SpreadLeft, SpreadRight, Pc1Words;
    TableLeftIs(TableX(p.l, p.r));
    TableRightIs(TableY(p.l, p.r));
    SpreadLeftIs(p.l, p.r);
    SpreadRightIs(p.l, p.r);
  }

  // ---------------------------------------------------------------- the sixteen subkeys

  function Rol28(a: bv32, twice: bool): bv32 {
    (if twice then (a << 2) | (a >> 26) else (a << 1) | (a >> 27)) & 0x0FFFFFFF
  }

  // The halves before subkey i: rotated once in passes 0, 1, 8 and 15, otherwise twice.
  function Rotated(p: Pair, i: nat): Pair {
    var twice := !(i == 0 || i == 1 || i == 8 || i == 15);
    Pair(Rol28(p.l, twice), Rol28(p.r, twice))
  }

  function Halves(p: Pair, i: nat): Pair {
    if i == 0 then p else Rotated(Halves(p, i - 1), i - 1)
  }

  // Permuted choice 2
  function Pc2Even(c: bv32, d: bv32): bv32 {
    ((c << 4) & 0x24000000) | ((c << 28) & 0x10000000) | ((c << 14) & 0x08000000) | ((c << 18) & 0x02080000)
    | ((c << 6) & 0x01000000) | ((c << 9) & 0x00200000) | ((c >> 1) & 0x00100000) | ((c << 10) & 0x00040000)
    | ((c << 2) & 0x00020000) | ((c >> 10) & 0x00010000) | ((d >> 13) & 0x00002000) | ((d >> 4) & 0x00001000)
    | ((d << 6) & 0x00000800) | ((d >> 1) & 0x00000400) | ((d >> 14) & 0x00000200) | (d & 0x00000100)
    | ((d >> 5) & 0x00000020) | ((d >> 10) & 0x00000010) | ((d >> 3) & 0x00000008) | ((d >> 18) & 0x00000004)
    | ((d >> 26) & 0x00000002) | ((d >> 24) & 0x00000001)
  }

  function Pc2Odd(c: bv32, d: bv32): bv32 {
    ((c << 15) & 0x20000000) | ((c << 17) & 0x10000000) | ((c << 10) & 0x08000000) | ((c << 22) & 0x04000000)
    | ((c >> 2) & 0x02000000) | ((c << 1) & 0x01000000) | ((c << 16) & 0x00200000) | ((c << 11) & 0x00100000)
    | ((c << 3) & 0x00080000) | ((c >> 6) & 0x00040000) | ((c << 15) & 0x00020000) | ((c >> 4) & 0x00010000)
    | ((d >> 2) & 0x00002000) | ((d << 8) & 0x00001000) | ((d >> 14) & 0x00000808) | ((d >> 9) & 0x00000400)
    | (d & 0x00000200) | ((d << 7) & 0x00000100) | ((d >> 7) & 0x00000020) | ((d >> 3) & 0x00000011)
    | ((d << 2) & 0x00000004) | ((d >> 21) & 0x00000002)
  }

  function SubkeyOf(p: Pair): Subkey { Subkey(Pc2Even(p.l, p.r), Pc2Odd(p.l, p.r)) }

  function Schedule(key: Pair): (ks: seq<Subkey>)
    ensures |ks| == 16
  {
    seq(16, i requires 0 <= i < 16 => SubkeyOf(Halves(Pc1(key), i + 1)))
  }

  // ---------------------------------------------------------------- what the schedule keeps

  predicate Is28(p: Pair) { p.l <= 0x0FFFFFFF && p.r <= 0x0FFFFFFF }

  lemma Pc1Is28(p: Pair)
    ensures Is28(Pc1(p))
  {
  }

  lemma RotatedIs28(p: Pair, i: nat)
    ensures Is28(Rotated(p, i))
  {
  }
}
