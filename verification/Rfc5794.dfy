/** ARIA once more, on octets and in the order in which RFC 5794 writes it. */
module Rfc5794 {
  import opened Blocks
  import opened AesTables
  import opened AriaTables
  import L = AriaLayers
  import A = Aria

  // ---------------------------------------------------------------- section 2.4: the round functions

  // The four boxes by turns: SB1, SB2 and their inverses SB3 and SB4
  function Sl1(x: seq<byte>): (y: seq<byte>)
    requires |x| == 16
    ensures |y| == 16
  {
    seq(16, i requires 0 <= i < 16 =>
      if i % 4 == 0 then Sbox(x[i]) else if i % 4 == 1 then Sb2(x[i]) else if i % 4 == 2 then InvSbox(x[i]) else Sb4(x[i]))
  }

  function Sl2(x: seq<byte>): (y: seq<byte>)
    requires |x| == 16
    ensures |y| == 16
  {
    seq(16, i requires 0 <= i < 16 =>
      if i % 4 == 0 then InvSbox(x[i]) else if i % 4 == 1 then Sb4(x[i]) else if i % 4 == 2 then Sbox(x[i]) else Sb2(x[i]))
  }

  function Fo(d: seq<byte>, rk: seq<byte>): (r: seq<byte>)
    requires |d| == |rk| == 16
    ensures |r| == 16
  {
    L.Diffuse(Sl1(Xor(d, rk)))
  }

  function Fe(d: seq<byte>, rk: seq<byte>): (r: seq<byte>)
    requires |d| == |rk| == 16
    ensures |r| == 16
  {
    L.Diffuse(Sl2(Xor(d, rk)))
  }

  // ---------------------------------------------------------------- section 2.2: the key schedule

  predicate KeyLength(n: nat) { n == 16 || n == 24 || n == 32 }

  // CK1, CK2 and CK3 for the three key lengths
  function Ck(n: nat, j: nat): (c: seq<byte>)
    requires KeyLength(n) && 1 <= j <= 3
    ensures |c| == 16
  {
    if n == 16 then (if j == 1 then A.C1() else if j == 2 then A.C2() else A.C3())
    else if n == 24 then (if j == 1 then A.C2() else if j == 2 then A.C3() else A.C1())
    else (if j == 1 then A.C3() else if j == 2 then A.C1() else A.C2())
  }

  // KL is the first 16 octets of the key, and KR the others, followed by zeros.
  function W(key: seq<byte>, j: nat): (w: seq<byte>)
    requires KeyLength(|key|) && j < 4
    ensures |w| == 16
  {
    if j == 0 then key[..16]
    else if j == 1 then Xor(Fo(W(key, 0), Ck(|key|, 1)), key[16..] + Zeros(32 - |key|))
    else if j == 2 then Xor(Fe(W(key, 1), Ck(|key|, 2)), W(key, 0))
    else Xor(Fo(W(key, 2), Ck(|key|, 3)), W(key, 1))
  }

  // Rotation to the left by 109, 97, 61, 31 or 19 bits, of the words most significant first; the
  // first two are rotations to the right by 19 and 31.
  function RotL(x: seq<byte>, n: nat): (y: seq<byte>)
    requires |x| == 16 && A.Amount(n)
    ensures |y| == 16
  {
    A.QuadBlock(A.RolQuad(A.QuadOf(x), n))
  }

  // The sum of value t and the rotated value f
  function Added(key: seq<byte>, t: nat, f: nat, n: nat): (k: seq<byte>)
    requires KeyLength(|key|) && t < 4 && f < 4 && A.Amount(n)
    ensures |k| == 16
  {
    Xor(W(key, t), RotL(W(key, f), n))
  }

  // ek1 to ek17, counted from 0
  function EncryptionKey(key: seq<byte>, i: nat): (k: seq<byte>)
    requires KeyLength(|key|) && i < 17
    ensures |k| == 16
  {
    if i == 0 then Added(key, 0, 1, 109)
    else if i == 1 then Added(key, 1, 2, 109)
    else if i == 2 then Added(key, 2, 3, 109)
    else if i == 3 then Added(key, 3, 0, 109)
    else if i == 4 then Added(key, 0, 1, 97)
    else if i == 5 then Added(key, 1, 2, 97)
    else if i == 6 then Added(key, 2, 3, 97)
    else if i == 7 then Added(key, 3, 0, 97)
    else if i == 8 then Added(key, 0, 1, 61)
    else if i == 9 then Added(key, 1, 2, 61)
    else if i == 10 then Added(key, 2, 3, 61)
    else if i == 11 then Added(key, 3, 0, 61)
    else if i == 12 then Added(key, 0, 1, 31)
    else if i == 13 then Added(key, 1, 2, 31)
    else if i == 14 then Added(key, 2, 3, 31)
    else if i == 15 then Added(key, 3, 0, 31)
    else Added(key, 0, 1, 19)
  }

  // ---------------------------------------------------------------- section 2.3: the cipher

  function RoundCount(n: nat): nat
    requires KeyLength(n)
  {
    if n == 16 then 12 else if n == 24 then 14 else 16
  }

  // The state after n rounds
  function P(key: seq<byte>, n: nat, b: seq<byte>): (p: seq<byte>)
    requires KeyLength(|key|) && |b| == 16 && n < 17
    ensures |p| == 16
  {
    if n == 0 then b
    else if n % 2 == 1 then Fo(P(key, n - 1, b), EncryptionKey(key, n - 1))
    else Fe(P(key, n - 1, b), EncryptionKey(key, n - 1))
  }

  function Cipher(key: seq<byte>, b: seq<byte>): (c: seq<byte>)
    requires KeyLength(|key|) && |b| == 16
    ensures |c| == 16
  {
    var n := RoundCount(|key|);
    Xor(Sl2(Xor(P(key, n - 1, b), EncryptionKey(key, n - 1))), EncryptionKey(key, n))
  }

  // ---------------------------------------------------------------- the round functions of the code

  lemma LayersAre(x: seq<byte>)
    requires |x| == 16
    ensures L.Sl1(x) == Sl1(x) && L.Sl2(x) == Sl2(x)
  {
    hide L.Box, L.Sl1, L.Sl2, Sl1, Sl2;
    forall i | 0 <= i < 16 ensures L.Sl1(x)[i] == Sl1(x)[i] && L.Sl2(x)[i] == Sl2(x)[i] {
      L.SlAt(x, i);
      OddLayerAt(x, i);
      EvenLayerAt(x, i);
    }
  }

  lemma OddLayerAt(x: seq<byte>, i: nat)
    requires |x| == 16 && i < 16
    ensures Sl1(x)[i] == L.Box(i % 4, x[i])
  {
    hide Sbox, InvSbox, Sb2, Sb4;
    if i % 4 == 0 {
    } else if i % 4 == 1 {
    } else if i % 4 == 2 {
    } else {
    }
  }

  lemma EvenLayerAt(x: seq<byte>, i: nat)
    requires |x| == 16 && i < 16
    ensures Sl2(x)[i] == L.Box((i + 2) % 4, x[i])
  {
    hide Sbox, InvSbox, Sb2, Sb4;
    if i % 4 == 0 {
    } else if i % 4 == 1 {
    } else if i % 4 == 2 {
    } else {
    }
  }

  lemma RoundIs(i: nat, k: seq<byte>, s: seq<byte>)
    requires |k| == |s| == 16
    ensures A.Round(i, k, s) == if i % 2 == 0 then Fo(s, k) else Fe(s, k)
  {
    hide L.Diffuse, Xor, Sl1, Sl2, L.Sl1, L.Sl2;
    LayersAre(Xor(s, k));
  }

  // ---------------------------------------------------------------- words and octets

  lemma QuadRoundTrip(q: A.Quad, b: seq<byte>)
    requires |b| == 16
    ensures A.QuadOf(A.QuadBlock(q)) == q && A.QuadBlock(A.QuadOf(b)) == b
  {
    hide Load, Store;
    StoreLoad(b[0], b[1], b[2], b[3], q.w0);
    StoreLoad(b[4], b[5], b[6], b[7], q.w1);
    StoreLoad(b[8], b[9], b[10], b[11], q.w2);
    StoreLoad(b[12], b[13], b[14], b[15], q.w3);
    assert b == b[..4] + b[4..8] + b[8..12] + b[12..];
  }

  function Number(b: seq<byte>): bv128
    requires |b| == 16
  {
    var q := A.QuadOf(b);
    A.Number(q.w0, q.w1, q.w2, q.w3)
  }

  // On the 128-bit number the octets stand for, RotL is the rotation.
  lemma RotLIsRotation(x: seq<byte>, n: nat)
    requires |x| == 16 && A.Amount(n)
    ensures Number(RotL(x, n)) == A.Rotate128(Number(x), n)
  {
    hide A.Number, A.Rotate128, A.RolQuad, A.QuadOf, A.QuadBlock;
    A.RolQuadIsRotation(A.QuadOf(x), n);
    QuadRoundTrip(A.RolQuad(A.QuadOf(x), n), x);
  }

  lemma StoreSum(a: bv32, b: bv32)
    ensures Store(A.Add32(a, b)) == Xor(Store(a), Store(b))
  {
    hide A.Add32, Sum;
    StoreSum0(a, b);
    StoreSum1(a, b);
    StoreSum2(a, b);
    StoreSum3(a, b);
  }

  lemma StoreSum0(a: bv32, b: bv32)
    ensures Store(A.Add32(a, b))[0] == Sum(Store(a)[0], Store(b)[0])
  {
  }

  lemma StoreSum1(a: bv32, b: bv32)
    ensures Store(A.Add32(a, b))[1] == Sum(Store(a)[1], Store(b)[1])
  {
  }

  lemma StoreSum2(a: bv32, b: bv32)
    ensures Store(A.Add32(a, b))[2] == Sum(Store(a)[2], Store(b)[2])
  {
  }

  lemma StoreSum3(a: bv32, b: bv32)
    ensures Store(A.Add32(a, b))[3] == Sum(Store(a)[3], Store(b)[3])
  {
  }

  lemma BlockSum(a: A.Quad, b: A.Quad)
    ensures A.QuadBlock(A.AddQuad(a, b)) == Xor(A.QuadBlock(a), A.QuadBlock(b))
  {
    hide Store, Xor, A.Add32;
    StoreSum(a.w0, b.w0);
    StoreSum(a.w1, b.w1);
    StoreSum(a.w2, b.w2);
    StoreSum(a.w3, b.w3);
    XorParts(Store(a.w0), Store(b.w0), Store(a.w1), Store(b.w1));
    XorParts(Store(a.w0) + Store(a.w1), Store(b.w0) + Store(b.w1), Store(a.w2), Store(b.w2));
    XorParts(Store(a.w0) + Store(a.w1) + Store(a.w2), Store(b.w0) + Store(b.w1) + Store(b.w2), Store(a.w3), Store(b.w3));
  }

  lemma XorParts(a: seq<byte>, b: seq<byte>, c: seq<byte>, d: seq<byte>)
    requires |a| == |b| && |c| == |d|
    ensures Xor(a + c, b + d) == Xor(a, b) + Xor(c, d)
  {
    hide Sum;
  }

  // ---------------------------------------------------------------- the key schedule

  lemma ConstantsAre(n: nat, j: nat)
    requires KeyLength(n) && j < 3
    ensures A.CK(n, j) == Ck(n, j + 1)
  {
    hide A.C1, A.C2, A.C3;
  }

  lemma ValuesAre(key: seq<byte>, j: nat)
    requires KeyLength(|key|) && j < 4
    ensures A.W(key, j) == W(key, j)
  {
    hide A.Round, Fo, Fe, Xor, A.CK, Ck, Zeros;
    ConstantsAre(|key|, 0);
    ConstantsAre(|key|, 1);
    ConstantsAre(|key|, 2);
    RoundIs(0, A.CK(|key|, 0), A.W0(key));
    RoundIs(1, A.CK(|key|, 1), A.W1(key));
    RoundIs(0, A.CK(|key|, 2), A.W2(key));
    assert W(key, 0) == A.W0(key);
    assert W(key, 1) == A.W1(key);
    assert W(key, 2) == A.W2(key);
  }

  lemma KeyIs(key: seq<byte>, i: nat)
    requires KeyLength(|key|) && i < 17
    ensures A.QuadBlock(A.EncryptionKey(key, i)) == EncryptionKey(key, i)
  {
    var f, t, n := (i + 1) % 4, i % 4, A.AmountOf(i / 4);
    KeyBySum(key, i, f, t, n);
    TableEntry(key, i, f, t, n);
  }

  lemma KeyBySum(key: seq<byte>, i: nat, f: nat, t: nat, n: nat)
    requires KeyLength(|key|) && f == (i + 1) % 4 && t == i % 4 && n == A.AmountOf(i / 4)
    ensures A.QuadBlock(A.EncryptionKey(key, i)) == Xor(W(key, t), RotL(W(key, f), n))
  {
    hide A.QuadOf, A.QuadBlock, A.RolQuad, A.AddQuad, A.W, W, A.AmountOf, Xor;
    ValuesAre(key, f);
    ValuesAre(key, t);
    var a, b := A.RolQuad(A.QuadOf(W(key, f)), n), A.QuadOf(W(key, t));
    BlockSum(a, b);
    QuadRoundTrip(a, W(key, t));
    XorCommutes(A.QuadBlock(a), A.QuadBlock(b));
  }

  lemma TableEntry(key: seq<byte>, i: nat, f: nat, t: nat, n: nat)
    requires KeyLength(|key|) && i < 17 && f == (i + 1) % 4 && t == i % 4 && n == A.AmountOf(i / 4)
    ensures EncryptionKey(key, i) == Xor(W(key, t), RotL(W(key, f), n))
  {
    hide W, RotL, Xor;
  }

  // ---------------------------------------------------------------- the cipher

  // The round keys of ariaInit are those of the standard.
  ghost predicate Expands(key: seq<byte>, ks: seq<seq<byte>>) {
    && KeyLength(|key|) && |ks| == RoundCount(|key|) + 1 && A.Keys(ks)
    && forall i | 0 <= i < |ks| :: ks[i] == EncryptionKey(key, i)
  }

  lemma {:induction false} RoundsAre(key: seq<byte>, ks: seq<seq<byte>>, n: nat, b: seq<byte>)
    requires Expands(key, ks) && n < |ks| && |b| == 16
    ensures A.Rounds(ks, n, b) == P(key, n, b)
  {
    hide A.Round, Fo, Fe, EncryptionKey;
    if n > 0 {
      RoundsAre(key, ks, n - 1, b);
      RoundIs(n - 1, ks[n - 1], P(key, n - 1, b));
    }
  }

  lemma CipherIs(key: seq<byte>, ks: seq<seq<byte>>, b: seq<byte>)
    requires Expands(key, ks) && |b| == 16
    ensures A.Encipher(ks, b) == Cipher(key, b)
  {
    hide A.Rounds, P, EncryptionKey, Xor, Sl2, L.Sl2;
    var n := |ks| - 1;
    RoundsAre(key, ks, n - 1, b);
    LayersAre(Xor(P(key, n - 1, b), ks[n - 1]));
  }

  lemma Expanded(key: seq<byte>, ek: seq<byte>, nr: nat)
    requires KeyLength(|key|) && |ek| == 272 && nr == 12 + (|key| - 16) / 4
    requires forall i | 0 <= i < 17 :: A.BlockAt(ek, i) == A.QuadBlock(A.EncryptionKey(key, i))
    ensures 16 * (nr + 1) <= |ek| && Expands(key, A.RoundKeys(ek, nr))
  {
    hide EncryptionKey, A.EncryptionKey, A.QuadBlock, A.RoundKeys;
    var ks := A.RoundKeys(ek, nr);
    forall i | 0 <= i < nr + 1 ensures ks[i] == EncryptionKey(key, i) {
      KeyIs(key, i);
      A.RoundKeysAt(ek, nr, i);
      assert A.BlockAt(ek, i) == ek[16 * i..16 * i + 16];
    }
  }

  // ariaInit followed by the block function computes ARIA as RFC 5794 defines it, for all three
  // key lengths and every block ...
  method Encrypt(key: array<byte>, block: array<byte>) returns (c: array<byte>)
    requires KeyLength(key.Length) && block.Length == 16
    ensures fresh(c) && c[..] == Cipher(key[..], block[..])
  {
    hide A.Encipher, Cipher, A.RoundKeys, A.DecryptionKeys, A.EncryptionKey, A.QuadBlock, A.BlockAt, Expands;
    var context := new A.AriaContext();
    var status := A.AriaInit(context, key);
    c := new byte[16];
    A.CryptBlock(context.nr, context.ek, block, c);
    Expanded(key[..], context.ek[..], context.nr);
    CipherIs(key[..], A.RoundKeys(context.ek[..], context.nr), block[..]);
  }

  // ... and with the decryption keys it finds the block that this maps to the given one.
  method Decrypt(key: array<byte>, block: array<byte>) returns (p: array<byte>)
    requires KeyLength(key.Length) && block.Length == 16
    ensures fresh(p) && p.Length == 16
    ensures forall q: seq<byte> | |q| == 16 && Cipher(key[..], q) == block[..] :: q == p[..]
  {
    hide A.Encipher, Cipher, A.RoundKeys, A.DecryptionKeys, A.EncryptionKey, A.QuadBlock, A.BlockAt, Expands;
    var context := new A.AriaContext();
    var status := A.AriaInit(context, key);
    p := new byte[16];
    A.CryptBlock(context.nr, context.dk, block, p);
    ghost var ks := A.RoundKeys(context.ek[..], context.nr);
    Expanded(key[..], context.ek[..], context.nr);
    forall q: seq<byte> | |q| == 16 && Cipher(key[..], q) == block[..] ensures q == p[..] {
      CipherIs(key[..], ks, q);
      A.DecryptionInverts(ks, q);
    }
  }
}
