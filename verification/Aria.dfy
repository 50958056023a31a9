/** ARIA: the round structure, key setup and block operations of aria.c. */
module Aria {
  import opened Blocks
  import opened AriaLayers

  // ---------------------------------------------------------------- rounds

  // Round number i, counted from 0: odd rounds of the standard use SL1, even ones SL2.
  function Layer(i: nat, b: seq<byte>): (r: seq<byte>)
    ensures |r| == |b|
  {
    if i % 2 == 0 then Sl1(b) else Sl2(b)
  }

  function Round(i: nat, k: seq<byte>, s: seq<byte>): (r: seq<byte>)
    requires |k| == |s| == 16
    ensures |r| == 16
  {
    Diffuse(Layer(i, Xor(s, k)))
  }

  ghost predicate Keys(ks: seq<seq<byte>>) { forall i | 0 <= i < |ks| :: |ks[i]| == 16 }

  ghost function Rounds(ks: seq<seq<byte>>, i: nat, s: seq<byte>): (r: seq<byte>)
    requires Keys(ks) && i <= |ks| && |s| == 16
    ensures |r| == 16
  {
    if i == 0 then s else Round(i - 1, ks[i - 1], Rounds(ks, i - 1, s))
  }

  // The cipher with n + 1 round keys: n - 1 full rounds and a last one without diffusion.
  ghost function Encipher(ks: seq<seq<byte>>, s: seq<byte>): (r: seq<byte>)
    requires Keys(ks) && |ks| >= 2 && |s| == 16
    ensures |r| == 16
  {
    var n := |ks| - 1;
    Xor(Layer(n - 1, Xor(Rounds(ks, n - 1, s), ks[n - 1])), ks[n])
  }

  // dk1 = ek(n + 1), dk(i) = A(ek(n + 2 - i)), dk(n + 1) = ek1
  ghost function DecryptionKeys(ks: seq<seq<byte>>): (dk: seq<seq<byte>>)
    requires Keys(ks)
    ensures |dk| == |ks| && Keys(dk)
  {
    seq(|ks|, i requires 0 <= i < |ks| =>
      if i == 0 || i == |ks| - 1 then ks[|ks| - 1 - i] else Diffuse(ks[|ks| - 1 - i]))
  }

  lemma LayersInvert(i: nat, j: nat, b: seq<byte>)
    requires (i + j) % 2 == 1
    ensures Layer(i, Layer(j, b)) == b
  {
    hide Sl1, Sl2;
    SlInverse(b);
  }

  // What the state is after j rounds of decryption: the state of encryption before round
  // n - j, summed with its key and substituted.
  lemma {:induction false} RunsBackwards(ks: seq<seq<byte>>, s: seq<byte>, j: nat)
    requires Keys(ks) && |ks| >= 2 && |ks| % 2 == 1 && |s| == 16 && j < |ks| - 1
    ensures var n, dk := |ks| - 1, DecryptionKeys(ks);
      Xor(Rounds(dk, j, Encipher(ks, s)), dk[j]) == Layer(n - 1 - j, Xor(Rounds(ks, n - 1 - j, s), ks[n - 1 - j]))
    decreases j
  {
    hide Layer, Diffuse, Xor, DecryptionKeys;
    var n, dk, c := |ks| - 1, DecryptionKeys(ks), Encipher(ks, s);
    DecryptionKeyAt(ks, j);
    if j == 0 {
      XorCancels(Layer(n - 1, Xor(Rounds(ks, n - 1, s), ks[n - 1])), ks[n]);
    } else {
      var m := n - j;
      RunsBackwards(ks, s, j - 1);
      LayersInvert(j - 1, m, Xor(Rounds(ks, m, s), ks[m]));
      assert Rounds(dk, j, c) == Diffuse(Xor(Rounds(ks, m, s), ks[m]));
      DiffuseXor(Rounds(ks, m, s), ks[m]);
      XorCancels(Diffuse(Rounds(ks, m, s)), Diffuse(ks[m]));
      DiffuseTwice(Layer(m - 1, Xor(Rounds(ks, m - 1, s), ks[m - 1])));
    }
  }

  lemma DecryptionKeyAt(ks: seq<seq<byte>>, j: nat)
    requires Keys(ks) && j < |ks|
    ensures DecryptionKeys(ks)[j] == if j == 0 || j == |ks| - 1 then ks[|ks| - 1 - j] else Diffuse(ks[|ks| - 1 - j])
  {
    hide Diffuse;
  }

  // The same rounds with the decryption keys undo the rounds with the encryption keys, for any
  // even number of rounds.
  lemma DecryptionInverts(ks: seq<seq<byte>>, s: seq<byte>)
    requires Keys(ks) && |ks| >= 3 && |ks| % 2 == 1 && |s| == 16
    ensures Encipher(DecryptionKeys(ks), Encipher(ks, s)) == s
  {
    hide Layer, Diffuse, Xor, DecryptionKeys;
    var n := |ks| - 1;
    RunsBackwards(ks, s, n - 1);
    DecryptionKeyAt(ks, n);
    LayersInvert(n - 1, 0, Xor(s, ks[0]));
    XorCancels(s, ks[0]);
  }

  // ---------------------------------------------------------------- octet operations

  // Adds a round key to the state in place.
  method XorKey(d: array<byte>, rk: array<byte>, off: nat)
    requires d.Length == 16 && off + 16 <= rk.Length && d != rk
    modifies d
    ensures d[..] == Xor(old(d[..]), rk[off..off + 16])
  {
    hide Xor;
    ghost var was := d[..];
    assert d[0..16] == was;
    XorBlock(d, 0, d, 0, rk, off, 16);
    OverwriteAll(was, Xor(was, rk[off..off + 16]));
  }

  // SL1(b, a)
  method SubstituteOdd(b: array<byte>, a: array<byte>)
    requires a.Length == b.Length == 16 && a != b
    modifies b
    ensures b[..] == Sl1(a[..])
  {
    hide Box;
    for i := 0 to 16
      invariant forall k | 0 <= k < i :: b[k] == Sl1(a[..])[k]
    {
      b[i] := Box(i % 4, a[i]);
    }
  }

  // SL2(b, a)
  method SubstituteEven(b: array<byte>, a: array<byte>)
    requires a.Length == b.Length == 16 && a != b
    modifies b
    ensures b[..] == Sl2(a[..])
  {
    hide Box;
    for i := 0 to 16
      invariant forall k | 0 <= k < i :: b[k] == Sl2(a[..])[k]
    {
      b[i] := Box((i + 2) % 4, a[i]);
    }
  }

  // A(b + off, a)
  method DiffuseInto(b: array<byte>, off: nat, a: array<byte>, ao: nat)
    requires off + 16 <= b.Length && ao + 16 <= a.Length && a != b
    modifies b
    ensures b[..] == Overwrite(old(b[..]), off, Diffuse(a[ao..ao + 16]))
  {
    hide Diffuse;
    var y := Diffuse(a[ao..ao + 16]);
    for i := 0 to 16
      invariant b[..] == Overwrite(old(b[..]), off, y[..i])
    {
      b[off + i] := y[i];
    }
    assert y[..16] == y;
  }

  // OF
  method OddRound(d: array<byte>, rk: array<byte>, off: nat)
    requires d.Length == 16 && off + 16 <= rk.Length && d != rk
    modifies d
    ensures d[..] == Round(0, rk[off..off + 16], old(d[..]))
  {
    hide Diffuse, Xor, Sl1, Overwrite;
    var t := new byte[16];
    XorKey(d, rk, off);
    SubstituteOdd(t, d);
    ghost var was := d[..];
    DiffuseInto(d, 0, t, 0);
    assert t[0..16] == t[..];
    OverwriteAll(was, Diffuse(t[..]));
  }

  // EF
  method EvenRound(d: array<byte>, rk: array<byte>, off: nat)
    requires d.Length == 16 && off + 16 <= rk.Length && d != rk
    modifies d
    ensures d[..] == Round(1, rk[off..off + 16], old(d[..]))
  {
    hide Diffuse, Xor, Sl2, Overwrite;
    var t := new byte[16];
    XorKey(d, rk, off);
    SubstituteEven(t, d);
    ghost var was := d[..];
    DiffuseInto(d, 0, t, 0);
    assert t[0..16] == t[..];
    OverwriteAll(was, Diffuse(t[..]));
  }

  // ---------------------------------------------------------------- blocks

  class AriaContext {
    var nr: nat
    const ek: array<byte>
    const dk: array<byte>

    constructor ()
      ensures Shape() && fresh(ek) && fresh(dk)
    {
      nr := 0;
      ek := new byte[272];
      dk := new byte[272];
    }

    // Round keys as the octets memory holds
    predicate Shape() { ek != dk && ek.Length == dk.Length == 272 }
  }

  predicate RoundCount(nr: nat) { nr == 12 || nr == 14 || nr == 16 }

  // The first n + 1 round keys
  ghost function RoundKeys(k: seq<byte>, n: nat): (ks: seq<seq<byte>>)
    requires 16 * (n + 1) <= |k|
    ensures |ks| == n + 1 && Keys(ks)
  {
    seq(n + 1, i requires 0 <= i < n + 1 => k[16 * i..16 * i + 16])
  }

  lemma RoundKeysAt(k: seq<byte>, n: nat, i: nat)
    requires 16 * (n + 1) <= |k| && i <= n
    ensures RoundKeys(k, n)[i] == k[16 * i..16 * i + 16]
  {
  }

  lemma RoundsNext(k: seq<byte>, n: nat, i: nat, s: seq<byte>)
    requires 16 * (n + 1) <= |k| && i <= n && |s| == 16
    ensures Rounds(RoundKeys(k, n), i + 1, s) == Round(i, k[16 * i..16 * i + 16], Rounds(RoundKeys(k, n), i, s))
  {
    hide RoundKeys, Round;
    RoundKeysAt(k, n, i);
  }

  // The odd round in place, as round number i of a run with n rounds from state s
  method Odd(p: array<byte>, k: array<byte>, i: nat, ghost n: nat, ghost s: seq<byte>)
    requires p.Length == 16 && k.Length == 272 && p != k && n <= 16 && i < n && i % 2 == 0 && |s| == 16
    requires p[..] == Rounds(RoundKeys(k[..], n), i, s)
    modifies p
    ensures p[..] == Rounds(RoundKeys(k[..], n), i + 1, s)
  {
    hide Diffuse, Xor, Sl1, Sl2, RoundKeys, Rounds;
    OddRound(p, k, 16 * i);
    RoundsNext(k[..], n, i, s);
    assert k[16 * i..16 * i + 16] == k[..][16 * i..16 * i + 16];
  }

  // The even round in place
  method Even(p: array<byte>, k: array<byte>, i: nat, ghost n: nat, ghost s: seq<byte>)
    requires p.Length == 16 && k.Length == 272 && p != k && n <= 16 && i < n && i % 2 == 1 && |s| == 16
    requires p[..] == Rounds(RoundKeys(k[..], n), i, s)
    modifies p
    ensures p[..] == Rounds(RoundKeys(k[..], n), i + 1, s)
  {
    hide Diffuse, Xor, Sl1, Sl2, RoundKeys, Rounds;
    EvenRound(p, k, 16 * i);
    RoundsNext(k[..], n, i, s);
    assert k[16 * i..16 * i + 16] == k[..][16 * i..16 * i + 16];
  }

  // The last three steps: add a round key, substitute with the second layer, add the last key.
  method LastRound(p: array<byte>, q: array<byte>, k: array<byte>, n: nat, ghost s: seq<byte>)
    requires p.Length == q.Length == 16 && k.Length == 272 && p != k && q != k && p != q && RoundCount(n) && |s| == 16
    requires p[..] == Rounds(RoundKeys(k[..], n), n - 1, s)
    modifies p, q
    ensures q[..] == Encipher(RoundKeys(k[..], n), s)
  {
    hide Diffuse, Xor, Sl1, Sl2, RoundKeys, Rounds;
    ghost var ks := RoundKeys(k[..], n);
    RoundKeysAt(k[..], n, n - 1);
    RoundKeysAt(k[..], n, n);
    XorKey(p, k, 16 * (n - 1));
    SubstituteEven(q, p);
    XorKey(q, k, 16 * n);
    assert k[16 * (n - 1)..16 * (n - 1) + 16] == k[..][16 * (n - 1)..16 * (n - 1) + 16];
    assert k[16 * n..16 * n + 16] == k[..][16 * n..16 * n + 16];
  }

  // ariaEncryptBlock and ariaDecryptBlock, which differ in the key array only. The buffers
  // may be one.
  method CryptBlock(nr: nat, k: array<byte>, input: array<byte>, output: array<byte>)
    requires RoundCount(nr) && k.Length == 272 && input.Length == output.Length == 16 && output != k
    modifies output
    ensures output[..] == Encipher(RoundKeys(k[..], nr), old(input[..]))
  {
    hide RoundKeys, Rounds, Encipher, Overwrite;
    ghost var s := input[..];
    var p, q := new byte[16], new byte[16];
    ghost var p0 := p[..];
    Copy(p, 0, input, 0, 16);
    assert input[0..16] == s;
    OverwriteAll(p0, s);
    RoundsStart(RoundKeys(k[..], nr), s);
    Odd(p, k, 0, nr, s);
    Even(p, k, 1, nr, s);
    Odd(p, k, 2, nr, s);
    Even(p, k, 3, nr, s);
    Odd(p, k, 4, nr, s);
    Even(p, k, 5, nr, s);
    Odd(p, k, 6, nr, s);
    Even(p, k, 7, nr, s);
    Odd(p, k, 8, nr, s);
    Even(p, k, 9, nr, s);
    Odd(p, k, 10, nr, s);
    if nr == 12 {
      LastRound(p, q, k, 12, s);
    } else if nr == 14 {
      Even(p, k, 11, nr, s);
      Odd(p, k, 12, nr, s);
      LastRound(p, q, k, 14, s);
    } else {
      Even(p, k, 11, nr, s);
      Odd(p, k, 12, nr, s);
      Even(p, k, 13, nr, s);
      Odd(p, k, 14, nr, s);
      LastRound(p, q, k, 16, s);
    }
    ghost var was := output[..];
    Copy(output, 0, q, 0, 16);
    assert q[0..16] == q[..];
    OverwriteAll(was, q[..]);
  }

  lemma RoundsStart(ks: seq<seq<byte>>, s: seq<byte>)
    requires Keys(ks) && |s| == 16
    ensures Rounds(ks, 0, s) == s
  {
  }

  // ---------------------------------------------------------------- key setup

  datatype Status = NoError | InvalidKeyLength

  datatype Quad = Quad(w0: bv32, w1: bv32, w2: bv32, w3: bv32)

  function Add32(a: bv32, b: bv32): bv32 { a ^ b }

  function AddQuad(a: Quad, b: Quad): Quad {
    Quad(Add32(a.w0, b.w0), Add32(a.w1, b.w1), Add32(a.w2, b.w2), Add32(a.w3, b.w3))
  }

  // Word k of a quadruple, counted cyclically
  function Word(a: Quad, k: nat): bv32 {
    if k % 4 == 0 then a.w0 else if k % 4 == 1 then a.w1 else if k % 4 == 2 then a.w2 else a.w3
  }

  predicate Amount(n: nat) { n == 109 || n == 97 || n == 61 || n == 31 || n == 19 }

  // The word that starts n % 32 bits into a and continues with b.
  function Spliced(a: bv32, b: bv32, n: nat): bv32
    requires Amount(n)
  {
    if n == 109 then (a << 13) | (b >> 19)
    else if n == 97 then (a << 1) | (b >> 31)
    else if n == 61 then (a << 29) | (b >> 3)
    else if n == 31 then (a << 31) | (b >> 1)
    else (a << 19) | (b >> 13)
  }

  // ROL128
  function RolQuad(a: Quad, n: nat): Quad
    requires Amount(n)
  {
    Quad(Spliced(Word(a, n / 32), Word(a, n / 32 + 1), n), Spliced(Word(a, n / 32 + 1), Word(a, n / 32 + 2), n),
         Spliced(Word(a, n / 32 + 2), Word(a, n / 32 + 3), n), Spliced(Word(a, n / 32 + 3), Word(a, n / 32 + 4), n))
  }

  // The 128-bit number of four words, most significant first
  function Number(a: bv32, b: bv32, c: bv32, d: bv32): bv128 {
    ((a as bv128) << 96) | ((b as bv128) << 64) | ((c as bv128) << 32) | (d as bv128)
  }

  function Rotate128(v: bv128, n: nat): bv128
    requires Amount(n)
  {
    if n == 109 then (v << 109) | (v >> 19)
    else if n == 97 then (v << 97) | (v >> 31)
    else if n == 61 then (v << 61) | (v >> 67)
    else if n == 31 then (v << 31) | (v >> 97)
    else (v << 19) | (v >> 109)
  }

  lemma RotateBy109(a: bv32, b: bv32, c: bv32, d: bv32)
    ensures Number((d << 13) | (a >> 19), (a << 13) | (b >> 19), (b << 13) | (c >> 19), (c << 13) | (d >> 19))
      == Rotate128(Number(a, b, c, d), 109)
  {
  }

  lemma RotateWords109(a: bv32, b: bv32, c: bv32, d: bv32)
    ensures Number(Spliced(d, a, 109), Spliced(a, b, 109), Spliced(b, c, 109), Spliced(c, d, 109))
      == Rotate128(Number(a, b, c, d), 109)
  {
    hide Number, Rotate128;
    RotateBy109(a, b, c, d);
  }

  lemma RotateBy97(a: bv32, b: bv32, c: bv32, d: bv32)
    ensures Number((d << 1) | (a >> 31), (a << 1) | (b >> 31), (b << 1) | (c >> 31), (c << 1) | (d >> 31))
      == Rotate128(Number(a, b, c, d), 97)
  {
  }

  lemma RotateWords97(a: bv32, b: bv32, c: bv32, d: bv32)
    ensures Number(Spliced(d, a, 97), Spliced(a, b, 97), Spliced(b, c, 97), Spliced(c, d, 97))
      == Rotate128(Number(a, b, c, d), 97)
  {
    hide Number, Rotate128;
    RotateBy97(a, b, c, d);
  }

  lemma RotateBy61(a: bv32, b: bv32, c: bv32, d: bv32)
    ensures Number((b << 29) | (c >> 3), (c << 29) | (d >> 3), (d << 29) | (a >> 3), (a << 29) | (b >> 3))
      == Rotate128(Number(a, b, c, d), 61)
  {
  }

  lemma RotateWords61(a: bv32, b: bv32, c: bv32, d: bv32)
    ensures Number(Spliced(b, c, 61), Spliced(c, d, 61), Spliced(d, a, 61), Spliced(a, b, 61))
      == Rotate128(Number(a, b, c, d), 61)
  {
    hide Number, Rotate128;
    RotateBy61(a, b, c, d);
  }

  lemma RotateBy31(a: bv32, b: bv32, c: bv32, d: bv32)
    ensures Number((a << 31) | (b >> 1), (b << 31) | (c >> 1), (c << 31) | (d >> 1), (d << 31) | (a >> 1))
      == Rotate128(Number(a, b, c, d), 31)
  {
  }

  lemma RotateWords31(a: bv32, b: bv32, c: bv32, d: bv32)
    ensures Number(Spliced(a, b, 31), Spliced(b, c, 31), Spliced(c, d, 31), Spliced(d, a, 31))
      == Rotate128(Number(a, b, c, d), 31)
  {
    hide Number, Rotate128;
    RotateBy31(a, b, c, d);
  }

  lemma RotateBy19(a: bv32, b: bv32, c: bv32, d: bv32)
    ensures Number((a << 19) | (b >> 13), (b << 19) | (c >> 13), (c << 19) | (d >> 13), (d << 19) | (a >> 13))
      == Rotate128(Number(a, b, c, d), 19)
  {
  }

  lemma RotateWords19(a: bv32, b: bv32, c: bv32, d: bv32)
    ensures Number(Spliced(a, b, 19), Spliced(b, c, 19), Spliced(c, d, 19), Spliced(d, a, 19))
      == Rotate128(Number(a, b, c, d), 19)
  {
    hide Number, Rotate128;
    RotateBy19(a, b, c, d);
  }

  lemma RolQuadBy109(a: Quad)
    ensures RolQuad(a, 109) == Quad(Spliced(a.w3, a.w0, 109), Spliced(a.w0, a.w1, 109), Spliced(a.w1, a.w2, 109), Spliced(a.w2, a.w3, 109))
    ensures var r := RolQuad(a, 109);
      Number(r.w0, r.w1, r.w2, r.w3) == Rotate128(Number(a.w0, a.w1, a.w2, a.w3), 109)
  {
    hide Spliced, Word, Number, Rotate128;
    WordAt(a);
    RotateWords109(a.w0, a.w1, a.w2, a.w3);
  }

  lemma RolQuadBy97(a: Quad)
    ensures RolQuad(a, 97) == Quad(Spliced(a.w3, a.w0, 97), Spliced(a.w0, a.w1, 97), Spliced(a.w1, a.w2, 97), Spliced(a.w2, a.w3, 97))
    ensures var r := RolQuad(a, 97);
      Number(r.w0, r.w1, r.w2, r.w3) == Rotate128(Number(a.w0, a.w1, a.w2, a.w3), 97)
  {
    hide Spliced, Word, Number, Rotate128;
    WordAt(a);
    RotateWords97(a.w0, a.w1, a.w2, a.w3);
  }

  lemma RolQuadBy61(a: Quad)
    ensures RolQuad(a, 61) == Quad(Spliced(a.w1, a.w2, 61), Spliced(a.w2, a.w3, 61), Spliced(a.w3, a.w0, 61), Spliced(a.w0, a.w1, 61))
    ensures var r := RolQuad(a, 61);
      Number(r.w0, r.w1, r.w2, r.w3) == Rotate128(Number(a.w0, a.w1, a.w2, a.w3), 61)
  {
    hide Spliced, Word, Number, Rotate128;
    WordAt(a);
    RotateWords61(a.w0, a.w1, a.w2, a.w3);
  }

  lemma RolQuadBy31(a: Quad)
    ensures RolQuad(a, 31) == Quad(Spliced(a.w0, a.w1, 31), Spliced(a.w1, a.w2, 31), Spliced(a.w2, a.w3, 31), Spliced(a.w3, a.w0, 31))
    ensures var r := RolQuad(a, 31);
      Number(r.w0, r.w1, r.w2, r.w3) == Rotate128(Number(a.w0, a.w1, a.w2, a.w3), 31)
  {
    hide Spliced, Word, Number, Rotate128;
    WordAt(a);
    RotateWords31(a.w0, a.w1, a.w2, a.w3);
  }

  lemma RolQuadBy19(a: Quad)
    ensures RolQuad(a, 19) == Quad(Spliced(a.w0, a.w1, 19), Spliced(a.w1, a.w2, 19), Spliced(a.w2, a.w3, 19), Spliced(a.w3, a.w0, 19))
    ensures var r := RolQuad(a, 19);
      Number(r.w0, r.w1, r.w2, r.w3) == Rotate128(Number(a.w0, a.w1, a.w2, a.w3), 19)
  {
    hide Spliced, Word, Number, Rotate128;
    WordAt(a);
    RotateWords19(a.w0, a.w1, a.w2, a.w3);
  }

  lemma WordAt(a: Quad)
    ensures Word(a, 0) == a.w0 && Word(a, 1) == a.w1 && Word(a, 2) == a.w2 && Word(a, 3) == a.w3
    ensures Word(a, 4) == a.w0 && Word(a, 5) == a.w1 && Word(a, 6) == a.w2 && Word(a, 7) == a.w3
  {
  }

  // ROL128 on words is the rotation of the 128-bit number, for the five amounts in use.
  lemma RolQuadIsRotation(a: Quad, n: nat)
    requires Amount(n)
    ensures var r := RolQuad(a, n);
      Number(r.w0, r.w1, r.w2, r.w3) == Rotate128(Number(a.w0, a.w1, a.w2, a.w3), n)
  {
    hide Number, Rotate128, RolQuad;
    if n == 109 {
      RolQuadBy109(a);
    } else if n == 97 {
      RolQuadBy97(a);
    } else if n == 61 {
      RolQuadBy61(a);
    } else if n == 31 {
      RolQuadBy31(a);
    } else {
      RolQuadBy19(a);
    }
  }

  // Sixteen octets as four big-endian words, and back
  function QuadOf(b: seq<byte>): Quad
    requires |b| == 16
  {
    Quad(Load(b[0], b[1], b[2], b[3]), Load(b[4], b[5], b[6], b[7]),
         Load(b[8], b[9], b[10], b[11]), Load(b[12], b[13], b[14], b[15]))
  }

  function QuadBlock(q: Quad): (b: seq<byte>)
    ensures |b| == 16
  {
    Store(q.w0) + Store(q.w1) + Store(q.w2) + Store(q.w3)
  }

  // The constants C1, C2 and C3 of the standard
  function C1(): (c: seq<byte>)
    ensures |c| == 16
  {
    [0x51, 0x7C, 0xC1, 0xB7, 0x27, 0x22, 0x0A, 0x94, 0xFE, 0x13, 0xAB, 0xE8, 0xFA, 0x9A, 0x6E, 0xE0]
  }

  function C2(): (c: seq<byte>)
    ensures |c| == 16
  {
    [0x6D, 0xB1, 0x4A, 0xCC, 0x9E, 0x21, 0xC8, 0x20, 0xFF, 0x28, 0xB1, 0xD5, 0xEF, 0x5D, 0xE2, 0xB0]
  }

  function C3(): (c: seq<byte>)
    ensures |c| == 16
  {
    [0xDB, 0x92, 0x37, 0x1D, 0x21, 0x26, 0xE9, 0x70, 0x03, 0x24, 0x97, 0x75, 0x04, 0xE8, 0xC9, 0x0E]
  }

  predicate KeyLength(n: nat) { n == 16 || n == 24 || n == 32 }

  // Constant number j = 0, 1, 2 of a key: where they start depends on the key length.
  function CK(n: nat, j: nat): (c: seq<byte>)
    requires KeyLength(n)
    ensures |c| == 16
  {
    var k := ((n - 16) / 8 + j) % 3;
    if k == 0 then C1() else if k == 1 then C2() else C3()
  }

  // The four intermediate values of the key schedule
  function W0(key: seq<byte>): (w: seq<byte>)
    requires KeyLength(|key|)
    ensures |w| == 16
  {
    key[..16]
  }

  function W1(key: seq<byte>): (w: seq<byte>)
    requires KeyLength(|key|)
    ensures |w| == 16
  {
    Xor(Round(0, CK(|key|, 0), W0(key)), key[16..] + Zeros(32 - |key|))
  }

  function W2(key: seq<byte>): (w: seq<byte>)
    requires KeyLength(|key|)
    ensures |w| == 16
  {
    Xor(Round(1, CK(|key|, 1), W1(key)), W0(key))
  }

  function W3(key: seq<byte>): (w: seq<byte>)
    requires KeyLength(|key|)
    ensures |w| == 16
  {
    Xor(Round(0, CK(|key|, 2), W2(key)), W1(key))
  }

  function W(key: seq<byte>, j: nat): (w: seq<byte>)
    requires KeyLength(|key|)
    ensures |w| == 16
  {
    if j == 0 then W0(key) else if j == 1 then W1(key) else if j == 2 then W2(key) else W3(key)
  }

  function AmountOf(g: nat): (n: nat)
    ensures Amount(n)
  {
    if g == 0 then 109 else if g == 1 then 97 else if g == 2 then 61 else if g == 3 then 31 else 19
  }

  // Encryption round key i, counted from 0: one value rotated, summed with its predecessor.
  function EncryptionKey(key: seq<byte>, i: nat): Quad
    requires KeyLength(|key|)
  {
    AddQuad(RolQuad(QuadOf(W(key, (i + 1) % 4)), AmountOf(i / 4)), QuadOf(W(key, i % 4)))
  }

  function QuadAt(w: seq<bv32>, i: nat): Quad
    requires 4 * i + 4 <= |w|
  {
    Quad(w[4 * i], w[4 * i + 1], w[4 * i + 2], w[4 * i + 3])
  }

  // The words of the four intermediate values
  ghost predicate Intermediate(w: seq<bv32>, key: seq<byte>)
    requires |w| == 16 && KeyLength(|key|)
  {
    && QuadAt(w, 0) == QuadOf(W(key, 0)) && QuadAt(w, 1) == QuadOf(W(key, 1))
    && QuadAt(w, 2) == QuadOf(W(key, 2)) && QuadAt(w, 3) == QuadOf(W(key, 3))
  }

  // The first m round keys are in place.
  ghost predicate Made(ek: seq<bv32>, key: seq<byte>, m: nat)
    requires 4 * m <= |ek| && KeyLength(|key|)
  {
    forall j | 0 <= j < m :: QuadAt(ek, j) == EncryptionKey(key, j)
  }

  function PutQuad(w: seq<bv32>, i: nat, q: Quad): (r: seq<bv32>)
    requires 4 * i + 4 <= |w|
    ensures |r| == |w|
  {
    w[..4 * i] + [q.w0, q.w1, q.w2, q.w3] + w[4 * i + 4..]
  }

  // Round key i: value f rotated by n bits, with value t added.
  method RotateAddWords(ek: array<bv32>, i: nat, w: array<bv32>, f: nat, n: nat, t: nat)
    requires ek != w && 4 * i + 4 <= ek.Length && 4 * f + 4 <= w.Length && 4 * t + 4 <= w.Length && Amount(n)
    modifies ek
    ensures ek[..] == PutQuad(old(ek[..]), i, AddQuad(RolQuad(QuadAt(w[..], f), n), QuadAt(w[..], t)))
  {
    hide RolQuad, AddQuad, Amount, PutQuad, QuadAt;
    ghost var was := ek[..];
    var a := QuadAt(w[..], f);
    var r := RolQuad(a, n);
    StoreQuad(ek, i, r);
    AddQuadTo(ek, i, w, t);
    QuadPut(was, i, r, AddQuad(r, QuadAt(w[..], t)));
  }

  method StoreQuad(ek: array<bv32>, i: nat, q: Quad)
    requires 4 * i + 4 <= ek.Length
    modifies ek
    ensures ek[..] == PutQuad(old(ek[..]), i, q)
  {
    ek[4 * i], ek[4 * i + 1], ek[4 * i + 2], ek[4 * i + 3] := q.w0, q.w1, q.w2, q.w3;
  }

  // Adds value t to round key i.
  method AddQuadTo(ek: array<bv32>, i: nat, w: array<bv32>, t: nat)
    requires ek != w && 4 * i + 4 <= ek.Length && 4 * t + 4 <= w.Length
    modifies ek
    ensures ek[..] == PutQuad(old(ek[..]), i, AddQuad(QuadAt(old(ek[..]), i), QuadAt(w[..], t)))
  {
    hide AddQuad, Add32;
    ghost var a, b := QuadAt(ek[..], i), QuadAt(w[..], t);
    ek[4 * i] := Add32(ek[4 * i], w[4 * t]);
    ek[4 * i + 1] := Add32(ek[4 * i + 1], w[4 * t + 1]);
    ek[4 * i + 2] := Add32(ek[4 * i + 2], w[4 * t + 2]);
    ek[4 * i + 3] := Add32(ek[4 * i + 3], w[4 * t + 3]);
    AddQuadIs(a, b);
  }

  lemma QuadPut(w: seq<bv32>, i: nat, q: Quad, r: Quad)
    requires 4 * i + 4 <= |w|
    ensures QuadAt(PutQuad(w, i, q), i) == q && PutQuad(PutQuad(w, i, q), i, r) == PutQuad(w, i, r)
  {
  }

  lemma MadeNext(ek: seq<bv32>, key: seq<byte>, i: nat)
    requires KeyLength(|key|) && 4 * i + 4 <= |ek| && Made(ek, key, i)
    ensures Made(PutQuad(ek, i, EncryptionKey(key, i)), key, i + 1)
  {
    hide EncryptionKey;
    var r := PutQuad(ek, i, EncryptionKey(key, i));
    forall j | 0 <= j < i + 1 ensures QuadAt(r, j) == EncryptionKey(key, j) {
      if j < i {
        assert QuadAt(r, j) == QuadAt(ek, j);
      }
    }
  }

  lemma EncryptionKeyIs(w: seq<bv32>, key: seq<byte>, i: nat, f: nat, n: nat, t: nat)
    requires |w| == 16 && KeyLength(|key|) && Intermediate(w, key)
    requires f == (i + 1) % 4 && t == i % 4 && n == AmountOf(i / 4)
    ensures EncryptionKey(key, i) == AddQuad(RolQuad(QuadAt(w, f), n), QuadAt(w, t))
  {
    hide W0, W1, W2, W3, QuadOf, QuadAt, AddQuad, RolQuad, AmountOf;
  }

  // Round key i, given the place of the two values and the amount.
  method RotateAdd(ek: array<bv32>, i: nat, w: array<bv32>, f: nat, n: nat, t: nat, ghost key: seq<byte>)
    requires ek != w && ek.Length == 68 && w.Length == 16 && i < 17 && KeyLength(|key|)
    requires f == (i + 1) % 4 && t == i % 4 && n == AmountOf(i / 4)
    requires Intermediate(w[..], key) && Made(ek[..], key, i)
    modifies ek
    ensures Made(ek[..], key, i + 1)
  {
    hide RolQuad, QuadAt, AddQuad, EncryptionKey, PutQuad, Intermediate, Made, AmountOf;
    MadeNext(ek[..], key, i);
    EncryptionKeyIs(w[..], key, i, f, n, t);
    RotateAddWords(ek, i, w, f, n, t);
  }

  lemma AddQuadIs(a: Quad, b: Quad)
    ensures AddQuad(a, b) == Quad(Add32(a.w0, b.w0), Add32(a.w1, b.w1), Add32(a.w2, b.w2), Add32(a.w3, b.w3))
  {
  }

  // Four round keys with one amount
  method FourKeys(ek: array<bv32>, g: nat, w: array<bv32>, n: nat, ghost key: seq<byte>)
    requires ek != w && ek.Length == 68 && w.Length == 16 && g < 4 && KeyLength(|key|) && n == AmountOf(g)
    requires Intermediate(w[..], key) && Made(ek[..], key, 4 * g)
    modifies ek
    ensures Made(ek[..], key, 4 * g + 4)
  {
    hide Intermediate, Made, KeyLength, AmountOf;
    RotateAdd(ek, 4 * g, w, 1, n, 0, key);
    RotateAdd(ek, 4 * g + 1, w, 2, n, 1, key);
    RotateAdd(ek, 4 * g + 2, w, 3, n, 2, key);
    RotateAdd(ek, 4 * g + 3, w, 0, n, 3, key);
  }

  // The seventeen round keys
  method ExpandKey(ek: array<bv32>, w: array<bv32>, ghost key: seq<byte>)
    requires ek != w && ek.Length == 68 && w.Length == 16 && KeyLength(|key|) && Intermediate(w[..], key)
    modifies ek
    ensures Made(ek[..], key, 17)
  {
    hide Intermediate, Made, KeyLength;
    NoneMade(ek[..], key);
    FourKeys(ek, 0, w, 109, key);
    FourKeys(ek, 1, w, 97, key);
    FourKeys(ek, 2, w, 61, key);
    FourKeys(ek, 3, w, 31, key);
    RotateAdd(ek, 16, w, 1, 19, 0, key);
  }

  lemma NoneMade(ek: seq<bv32>, key: seq<byte>)
    requires KeyLength(|key|)
    ensures Made(ek, key, 0)
  {
  }

  // Copies one 128-bit value.
  method Move(b: array<byte>, a: array<byte>)
    requires a.Length == b.Length == 16 && a != b
    modifies b
    ensures b[..] == a[..]
  {
    hide Overwrite;
    ghost var was := b[..];
    Copy(b, 0, a, 0, 16);
    assert a[0..16] == a[..];
    OverwriteAll(was, a[..]);
  }

  method FromSeq(s: seq<byte>) returns (a: array<byte>)
    ensures fresh(a) && a[..] == s
  {
    a := new byte[|s|](i requires 0 <= i < |s| => s[i]);
  }

  // One intermediate value: a round on the previous value, with another value added.
  method NextValue(w: array<byte>, prev: array<byte>, odd: bool, c: seq<byte>, other: array<byte>)
    requires w.Length == prev.Length == other.Length == |c| == 16 && w != prev && w != other
    modifies w
    ensures w[..] == Xor(Round(if odd then 0 else 1, c, prev[..]), other[..])
  {
    hide Round, Xor;
    var ck := FromSeq(c);
    Move(w, prev);
    assert ck[0..16] == c;
    if odd {
      OddRound(w, ck, 0);
    } else {
      EvenRound(w, ck, 0);
    }
    XorKey(w, other, 0);
    assert other[0..16] == other[..];
  }

  // KL and KR, the second filled up with zeros
  method Halves(key: array<byte>) returns (l: array<byte>, r: array<byte>)
    requires KeyLength(key.Length)
    ensures fresh(l) && fresh(r) && l != r && l[..] == W0(key[..])
    ensures r[..] == key[16..] + Zeros(32 - key.Length)
  {
    hide Overwrite;
    l, r := new byte[16], new byte[16];
    ghost var was := l[..];
    Copy(l, 0, key, 0, 16);
    OverwriteAll(was, key[0..16]);
    Clear(r);
    Copy(r, 0, key, 16, key.Length - 16);
    RightHalf(key[..]);
    assert key[..][16..16 + (key.Length - 16)] == key[16..16 + (key.Length - 16)] && key[..][16..] == key[16..];
    assert key[..][..16] == key[0..16];
  }

  // The four quarters of w, as octets: KL, and the values computed from it and KR, which
  // stands in the third quarter until it is used.
  method KeyValues(key: array<byte>) returns (w0: array<byte>, w1: array<byte>, w2: array<byte>, w3: array<byte>)
    requires KeyLength(key.Length)
    ensures fresh(w0) && fresh(w1) && fresh(w2) && fresh(w3)
    ensures w0[..] == W0(key[..]) && w1[..] == W1(key[..]) && w2[..] == W2(key[..]) && w3[..] == W3(key[..])
  {
    hide Round, Xor, CK, W0, Zeros;
    var n := key.Length;
    assert key[..][16..] == key[16..];
    w0, w2 := Halves(key);
    w1, w3 := new byte[16], new byte[16];
    NextValue(w1, w0, true, CK(n, 0), w2);
    NextValue(w2, w1, false, CK(n, 1), w0);
    NextValue(w3, w2, true, CK(n, 2), w1);
  }

  lemma RightHalf(key: seq<byte>)
    requires KeyLength(|key|)
    ensures Overwrite(Zeros(16), 0, key[16..16 + (|key| - 16)]) == key[16..] + Zeros(32 - |key|)
    ensures key[0..16] == key[..16]
  {
    var d := key[16..];
    assert key[16..16 + (|key| - 16)] == d;
    ZerosOverwritten(d);
  }

  lemma ZerosOverwritten(d: seq<byte>)
    requires |d| <= 16
    ensures Overwrite(Zeros(16), 0, d) == d + Zeros(16 - |d|)
  {
  }

  // betoh32 on every word
  method LoadWords(w0: array<byte>, w1: array<byte>, w2: array<byte>, w3: array<byte>, ghost key: seq<byte>)
    returns (w: array<bv32>)
    requires w0.Length == w1.Length == w2.Length == w3.Length == 16 && KeyLength(|key|)
    requires w0[..] == W0(key) && w1[..] == W1(key) && w2[..] == W2(key) && w3[..] == W3(key)
    ensures fresh(w) && w.Length == 16 && Intermediate(w[..], key)
  {
    hide W0, W1, W2, W3, Load, QuadAt;
    w := new bv32[16];
    LoadQuad(w, 0, w0);
    LoadQuad(w, 1, w1);
    LoadQuad(w, 2, w2);
    LoadQuad(w, 3, w3);
  }

  method LoadQuad(w: array<bv32>, j: nat, b: array<byte>)
    requires w.Length == 16 && b.Length == 16 && j < 4
    modifies w
    ensures QuadAt(w[..], j) == QuadOf(b[..])
    ensures forall k | 0 <= k < 4 && k != j :: QuadAt(w[..], k) == QuadAt(old(w[..]), k)
  {
    hide Load;
    w[4 * j] := Load(b[0], b[1], b[2], b[3]);
    w[4 * j + 1] := Load(b[4], b[5], b[6], b[7]);
    w[4 * j + 2] := Load(b[8], b[9], b[10], b[11]);
    w[4 * j + 3] := Load(b[12], b[13], b[14], b[15]);
  }

  // htobe32 on every word
  method StoreWords(w: array<bv32>, ek: array<byte>)
    requires w.Length == 68 && ek.Length == 272
    modifies ek
    ensures forall i | 0 <= i < 17 :: BlockAt(ek[..], i) == QuadBlock(QuadAt(w[..], i))
  {
    hide Store;
    for i := 0 to 68
      invariant forall k | 0 <= k < i :: WordAtOctets(ek[..], k) == Store(w[k])
    {
      ghost var was := ek[..];
      StoreWord(w[i], ek, 4 * i);
      forall k | 0 <= k < i + 1 ensures WordAtOctets(ek[..], k) == Store(w[k]) {
        if k < i {
          assert WordAtOctets(ek[..], k) == WordAtOctets(was, k);
        }
      }
    }
    forall i | 0 <= i < 17 ensures BlockAt(ek[..], i) == QuadBlock(QuadAt(w[..], i)) {
      BlockOfWords(ek[..], i);
    }
  }

  function BlockAt(k: seq<byte>, i: nat): (b: seq<byte>)
    requires 16 * i + 16 <= |k|
    ensures |b| == 16
  {
    k[16 * i..16 * i + 16]
  }

  function WordAtOctets(k: seq<byte>, i: nat): (b: seq<byte>)
    requires 4 * i + 4 <= |k|
    ensures |b| == 4
  {
    k[4 * i..4 * i + 4]
  }

  lemma BlockOfWords(k: seq<byte>, i: nat)
    requires 16 * i + 16 <= |k|
    ensures BlockAt(k, i) == WordAtOctets(k, 4 * i) + WordAtOctets(k, 4 * i + 1) + WordAtOctets(k, 4 * i + 2)
      + WordAtOctets(k, 4 * i + 3)
  {
  }

  // dk(1), ..., dk(n + 1)
  method DeriveDecryptionKeys(ek: array<byte>, dk: array<byte>, nr: nat)
    requires ek != dk && ek.Length == dk.Length == 272 && RoundCount(nr)
    modifies dk
    ensures RoundKeys(dk[..], nr) == DecryptionKeys(RoundKeys(ek[..], nr))
  {
    hide Diffuse, DecryptionKeys, Overwrite, RoundKeys;
    ghost var ks := RoundKeys(ek[..], nr);
    ghost var ds := DecryptionKeys(ks);
    PutKey(dk[..], ds, 0, ek[16 * nr..16 * nr + 16], nr, ek[..]);
    Copy(dk, 0, ek, 16 * nr, 16);
    for i := 1 to nr
      invariant forall j | 0 <= j < i :: BlockAt(dk[..], j) == ds[j]
    {
      PutKey(dk[..], ds, i, Diffuse(ek[16 * (nr - i)..16 * (nr - i) + 16]), nr, ek[..]);
      DiffuseInto(dk, 16 * i, ek, 16 * (nr - i));
    }
    PutKey(dk[..], ds, nr, ek[0..16], nr, ek[..]);
    Copy(dk, 16 * nr, ek, 0, 16);
    forall j | 0 <= j < nr + 1 ensures RoundKeys(dk[..], nr)[j] == ds[j] {
      RoundKeysAt(dk[..], nr, j);
      assert BlockAt(dk[..], j) == ds[j];
    }
  }

  // Writing key i after the keys before it
  lemma PutKey(dk: seq<byte>, ds: seq<seq<byte>>, i: nat, b: seq<byte>, nr: nat, ek: seq<byte>)
    requires |dk| == |ek| == 272 && i <= nr && RoundCount(nr) && |b| == 16
    requires ds == DecryptionKeys(RoundKeys(ek, nr))
    requires b == if i == 0 || i == nr then ek[16 * (nr - i)..16 * (nr - i) + 16]
      else Diffuse(ek[16 * (nr - i)..16 * (nr - i) + 16])
    requires forall j | 0 <= j < i :: BlockAt(dk, j) == ds[j]
    ensures forall j | 0 <= j < i + 1 :: BlockAt(Overwrite(dk, 16 * i, b), j) == ds[j]
  {
    hide Diffuse, DecryptionKeys, RoundKeys;
    DecryptionKeyAt(RoundKeys(ek, nr), i);
    RoundKeysAt(ek, nr, nr - i);
    var r := Overwrite(dk, 16 * i, b);
    forall j | 0 <= j < i + 1 ensures BlockAt(r, j) == ds[j] {
      if j < i {
        assert BlockAt(r, j) == BlockAt(dk, j);
      }
    }
  }

  // ariaInit
  method AriaInit(context: AriaContext, key: array<byte>) returns (status: Status)
    requires context.Shape()
    modifies context, context.ek, context.dk
    ensures status == if KeyLength(key.Length) then NoError else InvalidKeyLength
    ensures status == NoError ==>
      && context.nr == 12 + (key.Length - 16) / 4 && RoundCount(context.nr)
      && (forall i | 0 <= i < 17 :: BlockAt(context.ek[..], i) == QuadBlock(EncryptionKey(key[..], i)))
      && RoundKeys(context.dk[..], context.nr) == DecryptionKeys(RoundKeys(context.ek[..], context.nr))
    ensures status != NoError ==>
      context.nr == old(context.nr) && context.ek[..] == old(context.ek[..]) && context.dk[..] == old(context.dk[..])
  {
    hide W0, W1, W2, W3, Intermediate, Made, EncryptionKey, QuadBlock, BlockAt, RoundKeys, DecryptionKeys, QuadAt;
    if key.Length == 16 {
      context.nr := 12;
    } else if key.Length == 24 {
      context.nr := 14;
    } else if key.Length == 32 {
      context.nr := 16;
    } else {
      return InvalidKeyLength;
    }
    ghost var octets := key[..];
    var w0, w1, w2, w3 := KeyValues(key);
    var w := LoadWords(w0, w1, w2, w3, octets);
    var ek := new bv32[68];
    ExpandKey(ek, w, octets);
    StoreWords(ek, context.ek);
    AllMade(ek[..], octets);
    DeriveDecryptionKeys(context.ek, context.dk, context.nr);
    status := NoError;
  }

  lemma AllMade(ek: seq<bv32>, key: seq<byte>)
    requires |ek| == 68 && KeyLength(|key|) && Made(ek, key, 17)
    ensures forall i | 0 <= i < 17 :: QuadAt(ek, i) == EncryptionKey(key, i)
  {
    hide QuadAt, EncryptionKey;
  }

  // For every key of 16, 24 or 32 octets and every block, decryption undoes encryption.
  method RoundTrip(key: array<byte>, block: array<byte>) returns (c: array<byte>, p: array<byte>)
    requires KeyLength(key.Length) && block.Length == 16
    ensures fresh(c) && fresh(p) && p[..] == block[..]
  {
    hide BlockAt, EncryptionKey, RoundKeys, DecryptionKeys, Encipher;
    var context := new AriaContext();
    var status := AriaInit(context, key);
    c, p := new byte[16], new byte[16];
    CryptBlock(context.nr, context.ek, block, c);
    CryptBlock(context.nr, context.dk, c, p);
    DecryptionInverts(RoundKeys(context.ek[..], context.nr), block[..]);
  }
}
