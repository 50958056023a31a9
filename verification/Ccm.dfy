/** Authenticated encryption with CCM (ccmEncrypt, ccmDecrypt), over any 128-bit block cipher. */
module Ccm {
  import opened Blocks
  import opened Counter
  import opened CounterMode
  import opened CcmFormat
  import opened Octets

  datatype Status = NoError | InvalidParameter | InvalidLength | Failure

  // ---------------------------------------------------------------- the authentication value

  // Cipher block chaining continued from y; a last partial block changes only the octets it has.
  function Chain(cipher: Cipher, y: seq<byte>, d: seq<byte>): (r: seq<byte>)
    requires cipher.Valid() && cipher.blockSize == 16 && |y| == 16
    ensures |r| == 16
    decreases |d|
  {
    if d == [] then y
    else
      var k := Min(|d|, 16);
      assert cipher.BlockAt(XorPrefix(y, d[..k]));
      Chain(cipher, cipher.enc(XorPrefix(y, d[..k])), d[k..])
  }

  lemma ChainUnfold(cipher: Cipher, y: seq<byte>, d: seq<byte>)
    requires cipher.Valid() && cipher.blockSize == 16 && |y| == 16 && d != []
    ensures
      var k := Min(|d|, 16);
      |cipher.enc(XorPrefix(y, d[..k]))| == 16
      && Chain(cipher, y, d) == Chain(cipher, cipher.enc(XorPrefix(y, d[..k])), d[k..])
  {
    hide XorPrefix;
    assert cipher.BlockAt(XorPrefix(y, d[..Min(|d|, 16)]));
  }

  lemma ChainNothing(cipher: Cipher, y: seq<byte>)
    requires cipher.Valid() && cipher.blockSize == 16 && |y| == 16
    ensures Chain(cipher, y, []) == y
  {
  }

  // Whole blocks first
  lemma {:induction false} ChainAppend(cipher: Cipher, y: seq<byte>, c: seq<byte>, d: seq<byte>)
    requires cipher.Valid() && cipher.blockSize == 16 && |y| == 16 && |c| % 16 == 0
    ensures Chain(cipher, y, c + d) == Chain(cipher, Chain(cipher, y, c), d)
    decreases |c|
  {
    hide XorPrefix, Chain;
    if c == [] {
      ChainNothing(cipher, y);
      assert c + d == d;
    } else {
      ChainUnfold(cipher, y, c);
      ChainUnfold(cipher, y, c + d);
      assert (c + d)[..16] == c[..16] && (c + d)[16..] == c[16..] + d;
      ChainAppend(cipher, cipher.enc(XorPrefix(y, c[..16])), c[16..], d);
    }
  }

  // Padding with zeros makes no difference.
  lemma {:induction false} ChainPadded(cipher: Cipher, y: seq<byte>, d: seq<byte>)
    requires cipher.Valid() && cipher.blockSize == 16 && |y| == 16
    ensures Chain(cipher, y, Padded(d)) == Chain(cipher, y, d)
    decreases |d|
  {
    hide XorPrefix, Chain, Padded;
    PaddedLaws(d);
    if d != [] {
      ChainUnfold(cipher, y, d);
      ChainUnfold(cipher, y, Padded(d));
      if |d| >= 16 {
        ChainPadded(cipher, cipher.enc(XorPrefix(y, d[..16])), d[16..]);
      } else {
        XorZeros(y, d);
        assert d[..|d|] == d && Padded(d)[..16] == Padded(d);
        assert Padded(d)[16..] == [] && d[|d|..] == [];
      }
    }
  }

  // The authentication value of an input
  function Tag(cipher: Cipher, x: Input): (r: seq<byte>)
    requires cipher.Valid() && cipher.blockSize == 16 && Lengths(|x.n|, x.tLen)
    ensures |r| == x.tLen
  {
    assert cipher.BlockAt(FirstCounter(x.n));
    Xor(cipher.enc(FirstCounter(x.n)), Chain(cipher, Zeros(16), Format(x)))[..x.tLen]
  }

  function Ciphertext(cipher: Cipher, n: seq<byte>, p: seq<byte>): (r: seq<byte>)
    requires cipher.Valid() && cipher.blockSize == 16 && 7 <= |n| <= 13
    ensures |r| == |p|
  {
    Gctr(cipher, 15 - |n|, FirstCounter(n), p)
  }

  // ---------------------------------------------------------------- formatting

  // The first block; the result says whether the length fits its field.
  method FormatFirst(b: array<byte>, n: array<byte>, aLen: nat, tLen: nat, length: nat) returns (fits: bool)
    requires b.Length == 16 && b != n && Lengths(n.Length, tLen)
    modifies b
    ensures b[..] == FirstBlock(n[..], aLen, tLen, length)
    ensures fits <==> length < Pow256(15 - n.Length)
  {
    hide Overwrite, Octet, Flags, BeOctets, Pow256;
    var qLen := 15 - n.Length;
    b[0] := Octet(Flags(aLen, tLen, qLen));
    ghost var was := b[..];
    Copy(b, 1, n, 0, n.Length);
    assert n[0..n.Length] == n[..];
    OverwriteParts(was, 1, n[..]);
    ghost var head := b[..1 + n.Length];
    assert head == [Octet(Flags(aLen, tLen, qLen))] + n[..] by { assert head == b[..][..1] + b[..][1..1 + n.Length]; }
    fits := FormatLength(b, qLen, length);
    assert b[..] == head + b[16 - qLen..];
  }

  // The length of the payload, octet by octet from the last one, and what does not fit.
  method FormatLength(b: array<byte>, qLen: nat, length: nat) returns (fits: bool)
    requires b.Length == 16 && qLen <= 16
    modifies b
    ensures b[..16 - qLen] == old(b[..16 - qLen]) && b[16 - qLen..] == BeOctets(qLen, length)
    ensures fits <==> length < Pow256(qLen)
  {
    hide Octet, BeOctets, Pow256;
    var q: nat := length;
    assert b[16..] == [];
    for m := 0 to qLen
      invariant b[..16 - qLen] == old(b[..16 - qLen])
      invariant BeOctets(qLen, length) == BeOctets(qLen - m, q) + b[16 - m..]
      invariant length < Pow256(qLen) <==> q < Pow256(qLen - m)
    {
      ghost var tail := b[16 - m..];
      NextDigit(qLen - m, q);
      b[15 - m] := Octet(q);
      q := q / 256;
      assert b[15 - m..] == [b[15 - m]] + tail;
    }
    NoDigits(q);
    fits := q == 0;
  }

  lemma NextDigit(m: nat, q: nat)
    requires m > 0
    ensures BeOctets(m, q) == BeOctets(m - 1, q / 256) + [Octet(q)]
    ensures q < Pow256(m) <==> q / 256 < Pow256(m - 1)
  {
    hide Octet;
  }

  lemma NoDigits(q: nat)
    ensures BeOctets(0, q) == [] && (q < Pow256(0) <==> q == 0)
  {
  }

  // The first block of the additional data
  method FormatData(b: array<byte>, a: array<byte>) returns (m: nat)
    requires b.Length == 16 && b != a && a.Length > 0
    modifies b
    ensures m == Min(a.Length, 16 - |LengthOctets(a.Length)|)
    ensures b[..] == Padded(LengthOctets(a.Length) + a[..])[..16]
  {
    hide Overwrite, Octet, Be32;
    Clear(b);
    ghost var was;
    ghost var e := LengthOctets(a.Length);
    if a.Length < 0xFF00 {
      b[0] := Octet(a.Length / 256);
      b[1] := Octet(a.Length);
      m := Min(a.Length, 16 - 2);
      was := b[..];
      assert was == e + Zeros(14);
      Copy(b, 2, a, 0, m);
    } else {
      b[0] := 0xFF;
      b[1] := 0xFE;
      was := b[..];
      Store32(b, 2, a.Length);
      OverwriteParts(was, 2, Be32(a.Length));
      m := Min(a.Length, 16 - 6);
      assert b[..] == b[..][..2] + b[..][2..6] + b[..][6..];
      was := b[..];
      assert was == e + Zeros(10);
      Copy(b, 6, a, 0, m);
    }
    assert a[0..m] == a[..][..m];
    FirstDataBlock(was, e, a[..], m);
  }

  lemma FirstDataBlock(was: seq<byte>, e: seq<byte>, a: seq<byte>, m: nat)
    requires |e| <= 6 && was == e + Zeros(16 - |e|) && a != [] && m == Min(|a|, 16 - |e|)
    ensures Overwrite(was, |e|, a[..m]) == Padded(e + a)[..16]
  {
    var d := e + a;
    PaddedLaws(d);
    if |d| >= 16 {
      assert d[..16] == e + a[..m];
    } else {
      assert a[..m] == a;
    }
  }

  // ---------------------------------------------------------------- the chaining loops

  // ccmXorBlock(y, d, y, k), then y = CIPH(y)
  method AbsorbBlock(cipher: Cipher, y: array<byte>, d: array<byte>, pos: nat, k: nat)
    requires cipher.Valid() && cipher.blockSize == 16 && y.Length == 16 && y != d
    requires k <= 16 && pos + k <= d.Length
    modifies y
    ensures y[..] == cipher.enc(XorPrefix(old(y[..]), d[pos..pos + k]))
  {
    hide Xor, Overwrite, XorPrefix;
    ghost var was := y[..];
    XorBlock(y, 0, d, pos, y, 0, k);
    assert was[0..k] == was[..k] == old(y[0..k]);
    XorCommutes(d[pos..pos + k], was[..k]);
    PrefixSum(was, d[pos..pos + k]);
    EncryptBlock(cipher, y, y);
  }

  lemma PrefixSum(s: seq<byte>, d: seq<byte>)
    requires |d| <= |s|
    ensures Overwrite(s, 0, Xor(s[..|d|], d)) == XorPrefix(s, d)
  {
    hide Xor;
  }

  // Blocks of d from octet pos on
  method Absorb(cipher: Cipher, y: array<byte>, d: array<byte>, start: nat)
    requires cipher.Valid() && cipher.blockSize == 16 && y.Length == 16 && y != d && start <= d.Length
    modifies y
    ensures y[..] == Chain(cipher, old(y[..]), d[start..])
  {
    hide XorPrefix, Chain;
    var pos := start;
    while pos < d.Length
      invariant start <= pos <= d.Length
      invariant Chain(cipher, y[..], d[pos..]) == Chain(cipher, old(y[..]), d[start..])
    {
      var k := Min(d.Length - pos, 16);
      ChainUnfold(cipher, y[..], d[pos..]);
      assert d[pos..][..k] == d[pos..pos + k] && d[pos..][k..] == d[pos + k..];
      AbsorbBlock(cipher, y, d, pos, k);
      pos := pos + k;
    }
    assert d[pos..] == [];
    ChainNothing(cipher, y[..]);
  }

  // The additional data
  method AbsorbData(cipher: Cipher, y: array<byte>, a: array<byte>)
    requires cipher.Valid() && cipher.blockSize == 16 && y.Length == 16 && y != a
    modifies y
    ensures y[..] == Chain(cipher, old(y[..]), DataBlocks(a[..]))
  {
    hide XorPrefix, Chain, Padded, LengthOctets;
    if a.Length > 0 {
      ghost var y0 := y[..];
      var b := new byte[16];
      var m := FormatData(b, a);
      ghost var e := LengthOctets(a.Length);
      ghost var d := e + a[..];
      ChainUnfold(cipher, y0, Padded(d));
      assert b[0..16] == b[..];
      AbsorbBlock(cipher, y, b, 0, 16);
      RestOfData(e, a[..], m);
      ChainPadded(cipher, y[..], a[m..]);
      assert a[..][m..] == a[m..];
      Absorb(cipher, y, a, m);
    } else {
      ChainNothing(cipher, y[..]);
    }
  }

  lemma RestOfData(e: seq<byte>, a: seq<byte>, m: nat)
    requires |e| <= 6 && a != [] && m == Min(|a|, 16 - |e|)
    ensures Padded(e + a)[16..] == Padded(a[m..])
  {
    var d := e + a;
    PaddedLaws(d);
    PaddedLaws(a[m..]);
    if |d| >= 16 {
      assert d[16..] == a[m..];
    } else {
      assert a[m..] == [];
    }
  }

  // Everything before the payload: y holds the chained value of the first block and the data.
  method StartMac(cipher: Cipher, y: array<byte>, n: array<byte>, a: array<byte>, tLen: nat, length: nat)
    returns (fits: bool)
    requires cipher.Valid() && cipher.blockSize == 16 && y.Length == 16 && y != a && y != n && Lengths(n.Length, tLen)
    modifies y
    ensures fits <==> length < Pow256(15 - n.Length)
    ensures fits ==>
      y[..] == Chain(cipher, Zeros(16), FirstBlock(n[..], a.Length, tLen, length) + DataBlocks(a[..]))
  {
    hide Chain, FirstBlock, DataBlocks;
    var b := new byte[16];
    fits := FormatFirst(b, n, a.Length, tLen, length);
    if !fits { return; }
    ghost var first := b[..];
    EncryptBlock(cipher, b, y);
    ChainFirst(cipher, first);
    AbsorbData(cipher, y, a);
    ChainAppend(cipher, Zeros(16), first, DataBlocks(a[..]));
  }

  lemma ChainFirst(cipher: Cipher, b: seq<byte>)
    requires cipher.Valid() && cipher.blockSize == 16 && |b| == 16
    ensures Chain(cipher, Zeros(16), b) == cipher.enc(b)
  {
    hide Chain;
    ChainUnfold(cipher, Zeros(16), b);
    assert b[..16] == b && b[16..] == [];
    XorFirst(b);
    ChainNothing(cipher, cipher.enc(b));
  }

  lemma XorFirst(b: seq<byte>)
    requires |b| == 16
    ensures XorPrefix(Zeros(16), b) == b
  {
    hide Xor;
    forall i | 0 <= i < 16 ensures XorPrefix(Zeros(16), b)[i] == b[i] {
      XorAt(Zeros(16)[..16], b, i);
      SumZero(b[i]);
    }
  }

  // Counter block 0: the flags, the nonce, and a counter of zero.
  method FormatCounter(b: array<byte>, n: array<byte>)
    requires b.Length == 16 && b != n && 7 <= n.Length <= 13
    modifies b
    ensures b[..] == FirstCounter(n[..])
  {
    hide Overwrite, Octet;
    Clear(b);
    b[0] := Octet(14 - n.Length);
    ghost var was := b[..];
    assert was == [Octet(14 - n.Length)] + Zeros(15);
    Copy(b, 1, n, 0, n.Length);
    assert n[0..n.Length] == n[..];
    CounterOverwritten(was, n[..], Octet(14 - n.Length));
  }

  lemma CounterOverwritten(was: seq<byte>, n: seq<byte>, f: byte)
    requires 7 <= |n| <= 13 && was == [f] + Zeros(15)
    ensures Overwrite(was, 1, n) == [f] + n + Zeros(15 - |n|)
  {
  }

  // Counter block 0 and the part of its encryption that masks the tag
  method StartCounter(cipher: Cipher, b: array<byte>, n: array<byte>, t: array<byte>)
    requires cipher.Valid() && cipher.blockSize == 16 && b.Length == 16 && Lengths(n.Length, t.Length)
    requires b != n && b != t && t != n
    modifies b, t
    ensures b[..] == FirstCounter(n[..])
    ensures |cipher.enc(b[..])| == 16 && t[..] == cipher.enc(b[..])[..t.Length]
  {
    hide Overwrite, FirstCounter;
    FormatCounter(b, n);
    var s := new byte[16];
    assert cipher.BlockAt(b[..]);
    EncryptBlock(cipher, b, s);
    ghost var t0 := t[..];
    Copy(t, 0, s, 0, t.Length);
    assert s[0..t.Length] == s[..][..t.Length];
    OverwriteAll(t0, s[..][..t.Length]);
  }

  // ---------------------------------------------------------------- encryption

  // The payload loop: chain a block, then encrypt it. The buffers p and c may be one.
  method EncryptBlocks(cipher: Cipher, m: nat, b: array<byte>, y: array<byte>, p: array<byte>, c: array<byte>)
    requires cipher.Valid() && cipher.blockSize == 16 && p.Length == c.Length && m <= 16
    requires b.Length == 16 && y.Length == 16 && b != y && c != b && c != y && p != b && p != y
    modifies b, y, c
    ensures c[..] == Gctr(cipher, m, old(b[..]), old(p[..]))
    ensures y[..] == Chain(cipher, old(y[..]), old(p[..]))
  {
    hide Xor, XorPrefix, Chain, Gctr, NextBlock, Overwrite;
    ghost var y1, p0 := y[..], p[..];
    ghost var full := Gctr(cipher, m, b[..], p0);
    var pos := 0;
    assert p0[0..] == p0 && full[0..] == full;
    while pos < p.Length
      invariant 0 <= pos <= p.Length == |full|
      invariant c[..pos] == full[..pos] && p[pos..] == p0[pos..]
      invariant Remaining(cipher, m, b[..], p0[pos..], full, pos)
      invariant Chain(cipher, y[..], p0[pos..]) == Chain(cipher, y1, p0)
    {
      var k := Min(p.Length - pos, 16);
      EncryptOne(cipher, m, b, y, p, c, pos, k, p0, full);
      pos := pos + k;
    }
    assert p0[pos..] == [] && full[..pos] == full && c[..pos] == c[..];
    ChainNothing(cipher, y[..]);
  }

  method EncryptOne(cipher: Cipher, m: nat, b: array<byte>, y: array<byte>, p: array<byte>, c: array<byte>,
                    pos: nat, k: nat, ghost p0: seq<byte>, ghost full: seq<byte>)
    requires cipher.Valid() && cipher.blockSize == 16 && p.Length == c.Length == |p0| == |full| && m <= 16
    requires b.Length == 16 && y.Length == 16 && b != y && c != b && c != y && p != b && p != y
    requires pos < p.Length && k == Min(p.Length - pos, 16)
    requires c[..pos] == full[..pos] && p[pos..] == p0[pos..]
    requires Remaining(cipher, m, b[..], p0[pos..], full, pos)
    modifies b, y, c
    ensures c[..pos + k] == full[..pos + k] && p[pos + k..] == p0[pos + k..]
    ensures Remaining(cipher, m, b[..], p0[pos + k..], full, pos + k)
    ensures Chain(cipher, y[..], p0[pos + k..]) == Chain(cipher, old(y[..]), p0[pos..])
  {
    hide Xor, XorPrefix, Chain, Gctr, NextBlock, Overwrite, Remaining;
    ghost var b0, c0, x := b[..], c[..], p0[pos..];
    assert p[pos..pos + k] == p[pos..][..k] == x[..k];
    assert x[k..] == p0[pos + k..];
    ChainUnfold(cipher, y[..], x);
    AbsorbBlock(cipher, y, p, pos, k);
    KeystreamBlock(cipher, m, b, p, c, pos, k);
    ghost var o := Xor(x[..k], cipher.enc(b[..])[..k]);
    RemainingStep(cipher, m, b0, x, full, pos, o);
    OverwriteParts(c0, pos, o);
    assert c[..pos + k] == c[..pos] + c[pos..pos + k];
    assert full[..pos + k] == full[..pos] + full[pos..pos + k];
    assert p[pos + k..] == p0[pos + k..] by {
      assert p != c ==> p[pos + k..] == p[pos..][k..];
      assert c0[pos + k..] == c0[pos..][k..];
    }
  }

  // The chained value of the whole input
  lemma ChainFormat(cipher: Cipher, x: Input)
    requires cipher.Valid() && cipher.blockSize == 16 && Lengths(|x.n|, x.tLen)
    ensures
      var start := FirstBlock(x.n, |x.a|, x.tLen, |x.p|) + DataBlocks(x.a);
      Chain(cipher, Zeros(16), Format(x)) == Chain(cipher, Chain(cipher, Zeros(16), start), x.p)
  {
    hide Chain, FirstBlock, DataBlocks, Padded;
    var start := FirstBlock(x.n, |x.a|, x.tLen, |x.p|) + DataBlocks(x.a);
    ChainAppend(cipher, Zeros(16), start, Padded(x.p));
    ChainPadded(cipher, Chain(cipher, Zeros(16), start), x.p);
  }

  // Encryption; p and c may be the same buffer.
  method CcmEncrypt(cipher: Cipher, n: array<byte>, a: array<byte>, p: array<byte>, c: array<byte>, t: array<byte>)
    returns (status: Status)
    requires cipher.Valid() && p.Length == c.Length
    requires c != n && c != a && t != n && t != a && t != p && t != c
    modifies c, t
    ensures status == (
      if cipher.blockSize != 16 then InvalidParameter
      else if !Lengths(n.Length, t.Length) || p.Length >= Pow256(15 - n.Length) then InvalidLength
      else NoError)
    ensures status != NoError ==> c[..] == old(c[..]) && t[..] == old(t[..])
    ensures status == NoError ==>
      && c[..] == Ciphertext(cipher, n[..], old(p[..]))
      && t[..] == Tag(cipher, Input(n[..], a[..], old(p[..]), t.Length))
  {
    hide Chain, FirstBlock, DataBlocks, Gctr, FirstCounter, Format, Xor, Pow256;
    if cipher.blockSize != 16 { return InvalidParameter; }
    if n.Length < 7 || n.Length > 13 { return InvalidLength; }
    if t.Length < 4 || t.Length > 16 || t.Length % 2 != 0 { return InvalidLength; }
    ghost var x := Input(n[..], a[..], p[..], t.Length);
    var y := new byte[16];
    var fits := StartMac(cipher, y, n, a, t.Length, p.Length);
    if !fits { return InvalidLength; }
    var b := new byte[16];
    StartCounter(cipher, b, n, t);
    ghost var e := cipher.enc(b[..]);
    EncryptBlocks(cipher, 15 - n.Length, b, y, p, c);
    ChainFormat(cipher, x);
    FinishTag(t, e, y);
    status := NoError;
  }

  // ---------------------------------------------------------------- decryption

  // The ciphertext loop: decrypt a block, then chain it. The buffers c and p may be one.
  method DecryptBlocks(cipher: Cipher, m: nat, b: array<byte>, y: array<byte>, c: array<byte>, p: array<byte>)
    requires cipher.Valid() && cipher.blockSize == 16 && p.Length == c.Length && m <= 16
    requires b.Length == 16 && y.Length == 16 && b != y && p != b && p != y && c != b && c != y
    modifies b, y, p
    ensures p[..] == Gctr(cipher, m, old(b[..]), old(c[..]))
    ensures y[..] == Chain(cipher, old(y[..]), p[..])
  {
    hide Xor, XorPrefix, Chain, Gctr, NextBlock, Overwrite;
    ghost var y1, c0 := y[..], c[..];
    ghost var full := Gctr(cipher, m, b[..], c0);
    var pos := 0;
    assert c0[0..] == c0 && full[0..] == full;
    while pos < c.Length
      invariant 0 <= pos <= c.Length == |full|
      invariant p[..pos] == full[..pos] && c[pos..] == c0[pos..]
      invariant Remaining(cipher, m, b[..], c0[pos..], full, pos)
      invariant Chain(cipher, y[..], full[pos..]) == Chain(cipher, y1, full)
    {
      var k := Min(c.Length - pos, 16);
      DecryptOne(cipher, m, b, y, c, p, pos, k, c0, full);
      pos := pos + k;
    }
    assert full[pos..] == [] && full[..pos] == full && p[..pos] == p[..];
    ChainNothing(cipher, y[..]);
  }

  method DecryptOne(cipher: Cipher, m: nat, b: array<byte>, y: array<byte>, c: array<byte>, p: array<byte>,
                    pos: nat, k: nat, ghost c0: seq<byte>, ghost full: seq<byte>)
    requires cipher.Valid() && cipher.blockSize == 16 && p.Length == c.Length == |c0| == |full| && m <= 16
    requires b.Length == 16 && y.Length == 16 && b != y && p != b && p != y && c != b && c != y
    requires pos < c.Length && k == Min(c.Length - pos, 16)
    requires p[..pos] == full[..pos] && c[pos..] == c0[pos..]
    requires Remaining(cipher, m, b[..], c0[pos..], full, pos)
    modifies b, y, p
    ensures p[..pos + k] == full[..pos + k] && c[pos + k..] == c0[pos + k..]
    ensures Remaining(cipher, m, b[..], c0[pos + k..], full, pos + k)
    ensures Chain(cipher, y[..], full[pos + k..]) == Chain(cipher, old(y[..]), full[pos..])
  {
    hide Xor, XorPrefix, Chain, Gctr, NextBlock, Overwrite, Remaining;
    ghost var b0, p0, x := b[..], p[..], c0[pos..];
    assert c[pos..pos + k] == c[pos..][..k] == x[..k];
    assert x[k..] == c0[pos + k..];
    KeystreamBlock(cipher, m, b, c, p, pos, k);
    ghost var o := Xor(x[..k], cipher.enc(b[..])[..k]);
    RemainingStep(cipher, m, b0, x, full, pos, o);
    OverwriteParts(p0, pos, o);
    assert p[..pos + k] == p[..pos] + p[pos..pos + k];
    assert full[..pos + k] == full[..pos] + full[pos..pos + k];
    assert c[pos + k..] == c0[pos + k..] by {
      assert p != c ==> c[pos + k..] == c[pos..][k..];
      assert p0[pos + k..] == p0[pos..][k..];
    }
    ChainUnfold(cipher, y[..], full[pos..]);
    assert |full[pos..]| == |x|;
    AbsorbBlock(cipher, y, p, pos, k);
  }

  // Decryption; the payload is written even when the tag does not match.
  method CcmDecrypt(cipher: Cipher, n: array<byte>, a: array<byte>, c: array<byte>, p: array<byte>, t: array<byte>)
    returns (status: Status)
    requires cipher.Valid() && p.Length == c.Length
    requires p != n && p != a && p != t
    modifies p
    ensures cipher.blockSize != 16 ==> status == InvalidParameter && p[..] == old(p[..])
    ensures cipher.blockSize == 16 && (!Lengths(n.Length, t.Length) || c.Length >= Pow256(15 - n.Length)) ==>
      status == InvalidLength && p[..] == old(p[..])
    ensures cipher.blockSize == 16 && Lengths(n.Length, t.Length) && c.Length < Pow256(15 - n.Length) ==>
      && p[..] == Ciphertext(cipher, n[..], old(c[..]))
      && status == if t[..] == Tag(cipher, Input(n[..], a[..], p[..], t.Length)) then NoError else Failure
  {
    hide Chain, FirstBlock, DataBlocks, Gctr, FirstCounter, Format, Xor, Pow256;
    if cipher.blockSize != 16 { return InvalidParameter; }
    if n.Length < 7 || n.Length > 13 { return InvalidLength; }
    if t.Length < 4 || t.Length > 16 || t.Length % 2 != 0 { return InvalidLength; }
    var y := new byte[16];
    var fits := StartMac(cipher, y, n, a, t.Length, c.Length);
    if !fits { return InvalidLength; }
    var b := new byte[16];
    var r := new byte[t.Length];
    StartCounter(cipher, b, n, r);
    ghost var e := cipher.enc(b[..]);
    DecryptBlocks(cipher, 15 - n.Length, b, y, c, p);
    ChainFormat(cipher, Input(n[..], a[..], p[..], t.Length));
    FinishTag(r, e, y);
    var same := Equal(r, t);
    status := if same then NoError else Failure;
  }

  // ---------------------------------------------------------------- round trip

  lemma CiphertextInverts(cipher: Cipher, n: seq<byte>, p: seq<byte>)
    requires cipher.Valid() && cipher.blockSize == 16 && 7 <= |n| <= 13
    ensures Ciphertext(cipher, n, Ciphertext(cipher, n, p)) == p
  {
    GctrInvolution(cipher, 15 - |n|, FirstCounter(n), p);
  }

  // ccmDecrypt of the output of ccmEncrypt succeeds and returns the payload.
  method RoundTrip(cipher: Cipher, n: array<byte>, a: array<byte>, p: array<byte>, tLen: nat) returns (q: array<byte>)
    requires cipher.Valid() && cipher.blockSize == 16 && Lengths(n.Length, tLen) && p.Length < Pow256(15 - n.Length)
    ensures fresh(q) && q[..] == p[..]
  {
    hide Ciphertext, Tag, Pow256;
    var c := new byte[p.Length];
    var t := new byte[tLen];
    var sealed := CcmEncrypt(cipher, n, a, p, c, t);
    assert sealed == NoError;
    q := new byte[p.Length];
    var verdict := CcmDecrypt(cipher, n, a, c, q, t);
    CiphertextInverts(cipher, n[..], p[..]);
    assert verdict == NoError;
  }
}
