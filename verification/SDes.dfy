/**
 * The second DES of the repository (s_des.cpp): other permutation macros, a fused 48-round
 * triple encryption, and key arrays filled in place. It computes what des.c and des3.c compute.
 */
module SDes {
  import opened Blocks
  import opened Feistel
  import opened DesKeys
  import Des

  // ---------------------------------------------------------------- permutations

  function Pick(x: bv32, y: bv32): bv32 { (x ^ y) & 0xAAAAAAAA }

  // Picking alternate bits after one rotation is exchanging them and rotating both halves.
  lemma PickUpper(x: bv32, y: bv32)
    ensures Add32(x, Pick(x, Rol1(y))) == Upper(1, x, y)
  {
  }

  lemma PickLower(x: bv32, y: bv32)
    ensures Add32(Rol1(y), Pick(x, Rol1(y))) == Rol1(Lower(1, x, y))
  {
  }

  // DES_IP
  method InitialPermutation(x0: bv32, y0: bv32) returns (x: bv32, y: bv32)
    ensures Pair(x, y) == Ip(Pair(x0, y0))
  {
    hide Upper, Lower, Rol1, Pick, Add32;
    x, y := Des.SwapGroups(4, x0, y0);
    x, y := Des.SwapGroups(16, x, y);
    y, x := Des.SwapGroups(2, y, x);
    y, x := Des.SwapGroups(8, y, x);
    PickUpper(x, y);
    PickLower(x, y);
    y := Rol1(y);
    var t := Pick(x, y);
    y := Add32(y, t);
    x := Add32(x, t);
    x := Rol1(x);
  }

  // DES_FP
  method FinalPermutation(x0: bv32, y0: bv32) returns (x: bv32, y: bv32)
    ensures Pair(x, y) == Fp(Pair(x0, y0))
  {
    hide Upper, Lower, Rol1, Ror1, Pick, Add32;
    PickUpper(Ror1(x0), Ror1(y0));
    PickLower(Ror1(x0), Ror1(y0));
    RolRor(y0);
    RolRor(Lower(1, Ror1(x0), Ror1(y0)));
    x, y := Ror1(x0), y0;
    var t := Pick(x, y);
    x := Add32(x, t);
    y := Add32(y, t);
    y := Ror1(y);
    y, x := Des.SwapGroups(8, y, x);
    y, x := Des.SwapGroups(2, y, x);
    x, y := Des.SwapGroups(16, x, y);
    x, y := Des.SwapGroups(4, x, y);
  }

  // ---------------------------------------------------------------- rounds

  function Ror(x: bv32): bv32 { (x << 28) | (x >> 4) }

  lemma RorIs(x: bv32)
    ensures Ror(x) == Ror4(x)
  {
  }

  // DES_ROUND(X, Y)
  method DesRound(sp: SBoxes, x: bv32, y0: bv32, k0: bv32, k1: bv32) returns (y: bv32)
    ensures y == Add32(y0, F(sp, x, Subkey(k0, k1)))
  {
    hide Add32, Six, Ror4, Ror;
    var t := Add32(k0, x);
    y := Add32(y0, Add32(Add32(Add32(sp(8, Six(t, 0)), sp(6, Six(t, 8))), sp(4, Six(t, 16))), sp(2, Six(t, 24))));
    ghost var u := t;
    t := Add32(k1, Ror(x));
    y := Add32(y, Add32(Add32(Add32(sp(7, Six(t, 0)), sp(5, Six(t, 8))), sp(3, Six(t, 16))), sp(1, Six(t, 24))));
    RorIs(x);
    AddCommutes(k0, x);
    AddCommutes(k1, Ror(x));
    FourReversed(sp(2, Six(u, 24)), sp(4, Six(u, 16)), sp(6, Six(u, 8)), sp(8, Six(u, 0)));
    FourReversed(sp(1, Six(t, 24)), sp(3, Six(t, 16)), sp(5, Six(t, 8)), sp(7, Six(t, 0)));
    AddAssoc(y0, Add32(Add32(sp(2, Six(u, 24)), sp(4, Six(u, 16))), Add32(sp(6, Six(u, 8)), sp(8, Six(u, 0)))),
      Add32(Add32(sp(1, Six(t, 24)), sp(3, Six(t, 16))), Add32(sp(5, Six(t, 8)), sp(7, Six(t, 0)))));
  }

  lemma FourReversed(a: bv32, b: bv32, c: bv32, d: bv32)
    ensures Add32(Add32(Add32(d, c), b), a) == Add32(Add32(a, b), Add32(c, d))
  {
    hide Add32;
    AddCommutes(d, c);
    AddAssoc(Add32(c, d), b, a);
    AddCommutes(b, a);
    AddCommutes(Add32(c, d), Add32(a, b));
  }

  // Eight pairs of rounds on the words of sk from off on.
  method SixteenRounds(sp: SBoxes, sk: array<bv32>, off: nat, x0: bv32, y0: bv32) returns (x: bv32, y: bv32)
    requires off % 32 == 0 && off + 32 <= sk.Length && sk.Length % 2 == 0
    ensures Pair(x, y) == Rounds(sp, Subkeys(sk[..])[off / 2..off / 2 + 16], Pair(x0, y0))
  {
    hide F, Add32, Rounds, Subkeys;
    x, y := x0, y0;
    ghost var keys := Subkeys(sk[..])[off / 2..off / 2 + 16];
    ghost var p := Pair(x0, y0);
    assert keys[..0] == [];
    Des.RoundsNone(sp, p);
    for i := 0 to 8
      invariant Pair(x, y) == Rounds(sp, keys[..2 * i], p)
    {
      var k := off + 4 * i;
      Des.SubkeysAt(sk[..], off / 2 + 2 * i);
      Des.SubkeysAt(sk[..], off / 2 + 2 * i + 1);
      ghost var q := Pair(x, y);
      x := DesRound(sp, y, x, sk[k], sk[k + 1]);
      y := DesRound(sp, x, y, sk[k + 2], sk[k + 3]);
      Des.RoundsLast(sp, keys[..2 * i], keys[2 * i], p);
      Des.RoundsLast(sp, keys[..2 * i + 1], keys[2 * i + 1], p);
      assert keys[..2 * i + 1] == keys[..2 * i] + [keys[2 * i]];
      assert keys[..2 * i + 2] == keys[..2 * i + 1] + [keys[2 * i + 1]];
    }
    assert keys[..16] == keys;
  }

  // des_crypt. The buffers may be one.
  method DesCrypt(sp: SBoxes, sk: array<bv32>, input: array<byte>, output: array<byte>)
    requires sk.Length == 32 && input.Length == 8 && output.Length == 8
    modifies output
    ensures output[..] == PairBlock(Feistel.Des(sp, old(Subkeys(sk[..])), BlockPair(old(input[..]))))
  {
    hide Ip, Fp, Rounds, BlockPair, PairBlock, Subkeys;
    var x, y := Des.LoadBlock(input);
    x, y := InitialPermutation(x, y);
    x, y := SixteenRounds(sp, sk, 0, x, y);
    assert Subkeys(sk[..])[0..16] == Subkeys(sk[..]);
    y, x := FinalPermutation(y, x);
    Des.StoreBlock(y, x, output);
  }

  // ---------------------------------------------------------------- the fused triple encryption

  // Three complete operations, one for each third of the subkeys.
  function TripleCrypt(sp: SBoxes, ks: seq<Subkey>, p: Pair): Pair
    requires |ks| == 48
  {
    Feistel.Des(sp, ks[32..48], Feistel.Des(sp, ks[16..32], Feistel.Des(sp, ks[0..16], p)))
  }

  // One initial and one final permutation are enough: the inner ones cancel, leaving the
  // exchange of halves.
  lemma Fused(sp: SBoxes, ks: seq<Subkey>, p: Pair)
    requires |ks| == 48
    ensures TripleCrypt(sp, ks, p)
      == Fp(Swap(Rounds(sp, ks[32..48], Swap(Rounds(sp, ks[16..32], Swap(Rounds(sp, ks[0..16], Ip(p))))))))
  {
    hide Ip, Fp, Rounds, Swap;
    var a := Swap(Rounds(sp, ks[0..16], Ip(p)));
    IpFp(a);
    IpFp(Swap(Rounds(sp, ks[16..32], a)));
  }

  // des3_crypt: 48 rounds, with the halves in exchanged roles in the middle third.
  method Des3Crypt(sp: SBoxes, sk: array<bv32>, input: array<byte>, output: array<byte>)
    requires sk.Length == 96 && input.Length == 8 && output.Length == 8
    modifies output
    ensures output[..] == PairBlock(TripleCrypt(sp, old(Subkeys(sk[..])), BlockPair(old(input[..]))))
  {
    hide Ip, Fp, Rounds, BlockPair, PairBlock, Subkeys, TripleCrypt;
    Fused(sp, Subkeys(sk[..]), BlockPair(input[..]));
    var x, y := Des.LoadBlock(input);
    x, y := InitialPermutation(x, y);
    x, y := SixteenRounds(sp, sk, 0, x, y);
    y, x := SixteenRounds(sp, sk, 32, y, x);
    x, y := SixteenRounds(sp, sk, 64, x, y);
    y, x := FinalPermutation(y, x);
    Des.StoreBlock(y, x, output);
  }

  // Running with the reversed subkeys undoes the run.
  lemma TripleCryptUndo(sp: SBoxes, ks: seq<Subkey>, p: Pair)
    requires |ks| == 48
    ensures TripleCrypt(sp, Reverse(ks), TripleCrypt(sp, ks, p)) == p
  {
    hide Feistel.Des, Reverse;
    var a, b, c := ks[0..16], ks[16..32], ks[32..48];
    ReverseThirds(a, b, c);
    assert ks == a + b + c;
    var p1 := Feistel.Des(sp, a, p);
    var p2 := Feistel.Des(sp, b, p1);
    DesUndo(sp, a, p);
    DesUndo(sp, b, p1);
    DesUndo(sp, c, p2);
  }

  lemma ReverseThirds(a: seq<Subkey>, b: seq<Subkey>, c: seq<Subkey>)
    requires |a| == |b| == |c| == 16
    ensures Reverse(a + b + c) == Reverse(c) + Reverse(b) + Reverse(a)
    ensures Reverse(a + b + c)[0..16] == Reverse(c)
    ensures Reverse(a + b + c)[16..32] == Reverse(b)
    ensures Reverse(a + b + c)[32..48] == Reverse(a)
  {
    hide Reverse;
    ReverseAppend(a + b, c);
    ReverseAppend(a, b);
    assert Reverse(c) + (Reverse(b) + Reverse(a)) == Reverse(c) + Reverse(b) + Reverse(a);
  }

  // ---------------------------------------------------------------- key setup

  class Des3Context {
    const esk: array<bv32>
    const dsk: array<bv32>

    constructor ()
      ensures Valid() && fresh(esk) && fresh(dsk)
    {
      esk := new bv32[96];
      dsk := new bv32[96];
    }

    predicate Valid() { esk != dsk && esk.Length == dsk.Length == 96 }
  }

  // Subkey j of an array of words
  function SubkeyIn(w: seq<bv32>, j: nat): Subkey
    requires 2 * j + 1 < |w|
  {
    Subkey(w[2 * j], w[2 * j + 1])
  }

  // Subkeys lo, lo + 1, ... of the array are those of ks.
  ghost predicate Held(w: seq<bv32>, lo: nat, ks: seq<Subkey>)
    requires 2 * (lo + |ks|) <= |w|
  {
    forall j | lo <= j < lo + |ks| :: SubkeyIn(w, j) == ks[j - lo]
  }

  // Subkeys lo, lo + 1, ... before lo + n are the last n of ks backwards.
  ghost predicate BackHeld(w: seq<bv32>, lo: nat, n: nat, ks: seq<Subkey>)
    requires n <= |ks| && 2 * (lo + n) <= |w|
  {
    forall j | lo <= j < lo + n :: SubkeyIn(w, j) == ks[|ks| - 1 - (j - lo)]
  }

  lemma BackHeldAll(w: seq<bv32>, lo: nat, ks: seq<Subkey>)
    requires 2 * (lo + |ks|) <= |w| && BackHeld(w, lo, |ks|, ks)
    ensures Held(w, lo, Reverse(ks))
  {
    hide SubkeyIn, Reverse;
    forall j | lo <= j < lo + |ks| ensures SubkeyIn(w, j) == Reverse(ks)[j - lo] {
      ReverseAt(ks, j - lo);
    }
  }

  // The array with subkey i replaced by s
  function Put(w: seq<bv32>, i: nat, s: Subkey): (r: seq<bv32>)
    requires 2 * i + 1 < |w|
    ensures |r| == |w|
  {
    w[2 * i := s.k0][2 * i + 1 := s.k1]
  }

  lemma PutAt(w: seq<bv32>, i: nat, s: Subkey, j: nat)
    requires 2 * i + 1 < |w| && 2 * j + 1 < |w|
    ensures SubkeyIn(Put(w, i, s), j) == if i == j then s else SubkeyIn(w, j)
  {
  }

  lemma HeldPut(w: seq<bv32>, i: nat, s: Subkey, lo: nat, ks: seq<Subkey>)
    requires 2 * i + 1 < |w| && 2 * (lo + |ks|) <= |w| && Held(w, lo, ks)
    requires i < lo || lo + |ks| <= i
    ensures Held(Put(w, i, s), lo, ks)
  {
    hide Put, SubkeyIn;
    forall j | lo <= j < lo + |ks| ensures SubkeyIn(Put(w, i, s), j) == ks[j - lo] {
      PutAt(w, i, s, j);
    }
  }

  lemma HeldNext(w: seq<bv32>, lo: nat, n: nat, ks: seq<Subkey>)
    requires n < |ks| && 2 * (lo + n) + 1 < |w| && Held(w, lo, ks[..n])
    ensures Held(Put(w, lo + n, ks[n]), lo, ks[..n + 1])
  {
    hide Put, SubkeyIn;
    var r := Put(w, lo + n, ks[n]);
    forall j | lo <= j < lo + n + 1 ensures SubkeyIn(r, j) == ks[j - lo] {
      PutAt(w, lo + n, ks[n], j);
      assert j < lo + n ==> ks[j - lo] == ks[..n][j - lo];
    }
  }

  lemma BackHeldPut(w: seq<bv32>, i: nat, s: Subkey, lo: nat, n: nat, ks: seq<Subkey>)
    requires 2 * i + 1 < |w| && n <= |ks| && 2 * (lo + n) <= |w| && BackHeld(w, lo, n, ks)
    requires i < lo || lo + n <= i
    ensures BackHeld(Put(w, i, s), lo, n, ks)
  {
    hide Put, SubkeyIn;
    forall j | lo <= j < lo + n ensures SubkeyIn(Put(w, i, s), j) == ks[|ks| - 1 - (j - lo)] {
      PutAt(w, i, s, j);
    }
  }

  lemma BackHeldNext(w: seq<bv32>, lo: nat, n: nat, ks: seq<Subkey>)
    requires n < |ks| && 2 * (lo + n) + 1 < |w| && BackHeld(w, lo, n, ks)
    ensures BackHeld(Put(w, lo + n, ks[|ks| - 1 - n]), lo, n + 1, ks)
  {
    hide Put, SubkeyIn;
    var s := ks[|ks| - 1 - n];
    var r := Put(w, lo + n, s);
    forall j | lo <= j < lo + n + 1 ensures SubkeyIn(r, j) == ks[|ks| - 1 - (j - lo)] {
      PutAt(w, lo + n, s, j);
    }
  }

  lemma HeldAt(w: seq<bv32>, lo: nat, ks: seq<Subkey>, j: nat)
    requires 2 * (lo + |ks|) <= |w| && Held(w, lo, ks) && lo <= j < lo + |ks|
    ensures SubkeyIn(w, j) == ks[j - lo]
  {
  }

  lemma BackHeldAt(w: seq<bv32>, lo: nat, n: nat, ks: seq<Subkey>, j: nat)
    requires n <= |ks| && 2 * (lo + n) <= |w| && BackHeld(w, lo, n, ks) && lo <= j < lo + n
    ensures SubkeyIn(w, j) == ks[|ks| - 1 - (j - lo)]
  {
  }

  lemma NothingHeld(w: seq<bv32>, ks: seq<Subkey>)
    requires |w| == 96
    ensures Held(w, 32, ks[..0]) && BackHeld(w, 0, 0, ks) && BackHeld(w, 16, 0, ks) && BackHeld(w, 32, 0, ks)
  {
  }

  lemma NoneHeld(w: seq<bv32>, lo: nat)
    requires 2 * lo <= |w|
    ensures Held(w, lo, [])
  {
  }

  lemma HeldFrame(w: seq<bv32>, w': seq<bv32>, ks: seq<Subkey>)
    requires |w| == |w'| && 2 * |ks| <= |w| && Held(w, 0, ks)
    requires forall k | 0 <= k < 2 * |ks| :: w'[k] == w[k]
    ensures Held(w', 0, ks)
  {
    forall j | 0 <= j < |ks| ensures SubkeyIn(w', j) == ks[j] {
      assert SubkeyIn(w, j) == ks[j];
    }
  }

  // Copies subkey j of b to place i of a; the arrays may be one.
  method CopySubkey(a: array<bv32>, i: nat, b: array<bv32>, j: nat)
    requires 2 * i + 1 < a.Length && 2 * j + 1 < b.Length && i != j
    modifies a
    ensures a[..] == Put(old(a[..]), i, SubkeyIn(old(b[..]), j))
  {
    a[2 * i] := b[2 * j];
    a[2 * i + 1] := b[2 * j + 1];
  }

  // des_main_ks: the sixteen subkeys of one key, from subkey lo of the array on.
  method MainKs(sk: array<bv32>, lo: nat, key: array<byte>)
    requires 2 * lo + 32 <= sk.Length && key.Length == 8
    modifies sk
    ensures forall k | 0 <= k < 2 * lo :: sk[k] == old(sk[k])
    ensures forall k | 2 * lo + 32 <= k < sk.Length :: sk[k] == old(sk[k])
    ensures Held(sk[..], lo, Schedule(BlockPair(key[..])))
  {
    hide BlockPair, Pc1, TablePc1, Rotated, Schedule, Pc2Even, Pc2Odd, Held;
    NoneHeld(sk[..], lo);
    var x, y := Des.LoadBlock(key);
    ghost var p := Pc1(Pair(x, y));
    TablePc1Is(Pair(x, y));
    var pc := TablePc1(Pair(x, y));
    x, y := pc.l, pc.r;
    ghost var ks := Schedule(BlockPair(key[..]));
    assert ks[..0] == [];
    for i := 0 to 16
      invariant Pair(x, y) == Halves(p, i)
      invariant forall k | 0 <= k < 2 * lo :: sk[k] == old(sk[k])
      invariant forall k | 2 * lo + 32 <= k < sk.Length :: sk[k] == old(sk[k])
      invariant Held(sk[..], lo, ks[..i])
    {
      ghost var was := sk[..];
      x, y := Des.Rotate(x, y, i);
      sk[2 * (lo + i)] := Pc2Even(x, y);
      sk[2 * (lo + i) + 1] := Pc2Odd(x, y);
      ScheduleAt(BlockPair(key[..]), i, x, y);
      assert sk[..] == Put(was, lo + i, ks[i]);
      HeldNext(was, lo, i, ks);
    }
    assert ks[..16] == ks;
  }

  lemma ScheduleAt(key: Pair, i: nat, c: bv32, d: bv32)
    requires i < 16 && Pair(c, d) == Halves(Pc1(key), i + 1)
    ensures Schedule(key)[i] == Subkey(Pc2Even(c, d), Pc2Odd(c, d))
  {
    hide Pc2Even, Pc2Odd, Halves, Pc1;
    assert Schedule(key)[i] == SubkeyOf(Halves(Pc1(key), i + 1));
    assert SubkeyOf(Pair(c, d)) == Subkey(Pc2Even(c, d), Pc2Odd(c, d));
  }

  lemma HeldThirds(w: seq<bv32>, a: seq<Subkey>, b: seq<Subkey>, c: seq<Subkey>)
    requires |w| == 96 && |a| == |b| == |c| == 16
    requires Held(w, 0, a) && Held(w, 16, b) && Held(w, 32, c)
    ensures Subkeys(w) == a + b + c
  {
    forall j | 0 <= j < 48 ensures Subkeys(w)[j] == (a + b + c)[j] {
      assert SubkeyIn(w, j) == Subkeys(w)[j];
    }
  }

  // des3_set_2keys: both arrays are filled in one pass, each from the other and from itself.
  method Des3Set2Keys(ctx: Des3Context, key1: array<byte>, key2: array<byte>)
    requires ctx.Valid() && key1.Length == key2.Length == 8
    modifies ctx.esk, ctx.dsk
    ensures Subkeys(ctx.esk[..]) == Schedule(BlockPair(key1[..])) + Reverse(Schedule(BlockPair(key2[..])))
      + Schedule(BlockPair(key1[..]))
    ensures Subkeys(ctx.dsk[..]) == Reverse(Subkeys(ctx.esk[..]))
  {
    hide BlockPair, Schedule, Reverse, Subkeys, Held, BackHeld, Put, SubkeyIn;
    var esk, dsk := ctx.esk, ctx.dsk;
    ghost var s1, s2 := Schedule(BlockPair(key1[..])), Schedule(BlockPair(key2[..]));
    MainKs(esk, 0, key1);
    MainKs(dsk, 16, key2);
    NothingHeld(esk[..], s1);
    NothingHeld(esk[..], s2);
    NothingHeld(dsk[..], s1);
    for n := 0 to 16
      invariant Held(esk[..], 0, s1) && Held(dsk[..], 16, s2)
      invariant BackHeld(dsk[..], 0, n, s1) && BackHeld(esk[..], 16, n, s2)
      invariant Held(esk[..], 32, s1[..n]) && BackHeld(dsk[..], 32, n, s1)
    {
      ghost var e, f := esk[..], dsk[..];
      HeldAt(e, 0, s1, 15 - n);
      CopySubkey(dsk, n, esk, 15 - n);
      BackHeldNext(f, 0, n, s1);
      HeldPut(f, n, s1[15 - n], 16, s2);
      BackHeldPut(f, n, s1[15 - n], 32, n, s1);

      HeldAt(dsk[..], 16, s2, 31 - n);
      CopySubkey(esk, 16 + n, dsk, 31 - n);
      BackHeldNext(e, 16, n, s2);
      HeldPut(e, 16 + n, s2[15 - n], 0, s1);
      HeldPut(e, 16 + n, s2[15 - n], 32, s1[..n]);

      e, f := esk[..], dsk[..];
      HeldAt(e, 0, s1, n);
      CopySubkey(esk, 32 + n, esk, n);
      HeldNext(e, 32, n, s1);
      HeldPut(e, 32 + n, s1[n], 0, s1);
      BackHeldPut(e, 32 + n, s1[n], 16, n + 1, s2);

      BackHeldAt(f, 0, n + 1, s1, n);
      CopySubkey(dsk, 32 + n, dsk, n);
      BackHeldNext(f, 32, n, s1);
      BackHeldPut(f, 32 + n, s1[15 - n], 0, n + 1, s1);
      HeldPut(f, 32 + n, s1[15 - n], 16, s2);
    }
    assert s1[..16] == s1;
    BackHeldAll(dsk[..], 0, s1);
    BackHeldAll(dsk[..], 32, s1);
    BackHeldAll(esk[..], 16, s2);
    HeldThirds(esk[..], s1, Reverse(s2), s1);
    HeldThirds(dsk[..], Reverse(s1), s2, Reverse(s1));
    ReverseThirds(s1, Reverse(s2), s1);
    ReverseTwice(s2);
  }

  // des3_set_3keys
  method Des3Set3Keys(ctx: Des3Context, key1: array<byte>, key2: array<byte>, key3: array<byte>)
    requires ctx.Valid() && key1.Length == key2.Length == key3.Length == 8
    modifies ctx.esk, ctx.dsk
    ensures Subkeys(ctx.esk[..]) == Schedule(BlockPair(key1[..])) + Reverse(Schedule(BlockPair(key2[..])))
      + Schedule(BlockPair(key3[..]))
    ensures Subkeys(ctx.dsk[..]) == Reverse(Subkeys(ctx.esk[..]))
  {
    hide BlockPair, Schedule, Reverse, Subkeys, Held, BackHeld, Put, SubkeyIn;
    var esk, dsk := ctx.esk, ctx.dsk;
    ghost var s1, s2 := Schedule(BlockPair(key1[..])), Schedule(BlockPair(key2[..]));
    ghost var s3 := Schedule(BlockPair(key3[..]));
    MainKs(esk, 0, key1);
    MainKs(dsk, 16, key2);
    ghost var e1 := esk[..];
    MainKs(esk, 32, key3);
    HeldFrame(e1, esk[..], s1);
    NothingHeld(esk[..], s2);
    NothingHeld(dsk[..], s1);
    NothingHeld(dsk[..], s3);
    for n := 0 to 16
      invariant Held(esk[..], 0, s1) && Held(dsk[..], 16, s2) && Held(esk[..], 32, s3)
      invariant BackHeld(dsk[..], 0, n, s3) && BackHeld(esk[..], 16, n, s2) && BackHeld(dsk[..], 32, n, s1)
    {
      ghost var e, f := esk[..], dsk[..];
      HeldAt(e, 32, s3, 47 - n);
      CopySubkey(dsk, n, esk, 47 - n);
      BackHeldNext(f, 0, n, s3);
      HeldPut(f, n, s3[15 - n], 16, s2);
      BackHeldPut(f, n, s3[15 - n], 32, n, s1);

      HeldAt(dsk[..], 16, s2, 31 - n);
      CopySubkey(esk, 16 + n, dsk, 31 - n);
      BackHeldNext(e, 16, n, s2);
      HeldPut(e, 16 + n, s2[15 - n], 0, s1);
      HeldPut(e, 16 + n, s2[15 - n], 32, s3);

      f := dsk[..];
      HeldAt(esk[..], 0, s1, 15 - n);
      CopySubkey(dsk, 32 + n, esk, 15 - n);
      BackHeldNext(f, 32, n, s1);
      BackHeldPut(f, 32 + n, s1[15 - n], 0, n + 1, s3);
      HeldPut(f, 32 + n, s1[15 - n], 16, s2);
    }
    BackHeldAll(dsk[..], 0, s3);
    BackHeldAll(dsk[..], 32, s1);
    BackHeldAll(esk[..], 16, s2);
    HeldThirds(esk[..], s1, Reverse(s2), s3);
    HeldThirds(dsk[..], Reverse(s3), s2, Reverse(s1));
    ReverseThirds(s1, Reverse(s2), s3);
    ReverseTwice(s2);
  }

  // ---------------------------------------------------------------- the whole

  // With the subkeys of three keys the fused form is the encrypt-decrypt-encrypt of des3.c.
  lemma TripleCryptIs(sp: SBoxes, k1: seq<Subkey>, k2: seq<Subkey>, k3: seq<Subkey>, p: Pair)
    requires |k1| == |k2| == |k3| == 16
    ensures TripleCrypt(sp, k1 + Reverse(k2) + k3, p) == TripleEncrypt(sp, k1, k2, k3, p)
    ensures TripleCrypt(sp, Reverse(k1 + Reverse(k2) + k3), p) == TripleDecrypt(sp, k1, k2, k3, p)
  {
    hide Feistel.Des, Reverse;
    var ks := k1 + Reverse(k2) + k3;
    assert ks[0..16] == k1 && ks[16..32] == Reverse(k2) && ks[32..48] == k3;
    ReverseThirds(k1, Reverse(k2), k3);
    ReverseTwice(k2);
  }

  // des3_decrypt after des3_encrypt returns the block, for every three keys ...
  method RoundTrip(sp: SBoxes, key1: array<byte>, key2: array<byte>, key3: array<byte>, input: array<byte>)
    returns (output: array<byte>)
    requires key1.Length == key2.Length == key3.Length == input.Length == 8
    ensures fresh(output) && output[..] == input[..]
  {
    hide Schedule, Reverse, Subkeys;
    var ctx := new Des3Context();
    Des3Set3Keys(ctx, key1, key2, key3);
    output := CryptBack(sp, ctx, input);
  }

  // ... and for every two.
  method RoundTripTwoKeys(sp: SBoxes, key1: array<byte>, key2: array<byte>, input: array<byte>)
    returns (output: array<byte>)
    requires key1.Length == key2.Length == input.Length == 8
    ensures fresh(output) && output[..] == input[..]
  {
    hide Schedule, Reverse, Subkeys;
    var ctx := new Des3Context();
    Des3Set2Keys(ctx, key1, key2);
    output := CryptBack(sp, ctx, input);
  }

  method CryptBack(sp: SBoxes, ctx: Des3Context, input: array<byte>) returns (output: array<byte>)
    requires ctx.Valid() && input.Length == 8
    requires Subkeys(ctx.dsk[..]) == Reverse(Subkeys(ctx.esk[..]))
    ensures fresh(output) && output[..] == input[..]
  {
    hide BlockPair, PairBlock, Reverse, Subkeys, TripleCrypt;
    ghost var ks, p := Subkeys(ctx.esk[..]), BlockPair(input[..]);
    output := new byte[8];
    Des3Crypt(sp, ctx.esk, input, output);
    Des.PairRoundTrip(TripleCrypt(sp, ks, p));
    Des3Crypt(sp, ctx.dsk, output, output);
    TripleCryptUndo(sp, ks, p);
    BlockRoundTrip(input[..], p);
  }

  // Under a key of 16 octets the triple DES of des3.c is the fused form with the arrays of the
  // two-key setup ...
  lemma TwoKeysAgree(sp: SBoxes, key1: seq<byte>, key2: seq<byte>, b: seq<byte>)
    requires |key1| == |key2| == |b| == 8
    ensures
      var s1, s2 := Schedule(BlockPair(key1)), Schedule(BlockPair(key2));
      && Des.TripleEnc(sp, key1 + key2, b) == PairBlock(TripleCrypt(sp, s1 + Reverse(s2) + s1, BlockPair(b)))
      && Des.TripleDec(sp, key1 + key2, b) == PairBlock(TripleCrypt(sp, Reverse(s1 + Reverse(s2) + s1), BlockPair(b)))
  {
    hide Schedule, BlockPair, PairBlock, TripleCrypt, TripleEncrypt, TripleDecrypt, Reverse;
    var key := key1 + key2;
    assert key[0..8] == key1 && key[8..16] == key2;
    var s1, s2 := Schedule(BlockPair(key1)), Schedule(BlockPair(key2));
    TripleCryptIs(sp, s1, s2, s1, BlockPair(b));
  }

  // ... and under a key of 24 octets with those of the three-key setup.
  lemma ThreeKeysAgree(sp: SBoxes, key1: seq<byte>, key2: seq<byte>, key3: seq<byte>, b: seq<byte>)
    requires |key1| == |key2| == |key3| == |b| == 8
    ensures
      var s1, s2, s3 := Schedule(BlockPair(key1)), Schedule(BlockPair(key2)), Schedule(BlockPair(key3));
      var key := key1 + key2 + key3;
      && Des.TripleEnc(sp, key, b) == PairBlock(TripleCrypt(sp, s1 + Reverse(s2) + s3, BlockPair(b)))
      && Des.TripleDec(sp, key, b) == PairBlock(TripleCrypt(sp, Reverse(s1 + Reverse(s2) + s3), BlockPair(b)))
  {
    hide Schedule, BlockPair, PairBlock, TripleCrypt, TripleEncrypt, TripleDecrypt, Reverse;
    var key := key1 + key2 + key3;
    assert key[0..8] == key1 && key[8..16] == key2 && key[16..24] == key3;
    TripleCryptIs(sp, Schedule(BlockPair(key1)), Schedule(BlockPair(key2)), Schedule(BlockPair(key3)), BlockPair(b));
  }
}
