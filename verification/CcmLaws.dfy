/** What CCM authenticates and how it enciphers, octet by octet, as SP 800-38C defines them. */
module CcmLaws {
  import opened Blocks
  import opened Counter
  import opened CounterMode
  import opened CcmFormat
  import opened Ccm
  import opened Octets

  // ---------------------------------------------------------------- the fields of the input

  // Appendix A.2.1: the flags octet holds, from its highest bit on, a zero, whether there is
  // additional data, half the tag length less one, and the octets of the length field less one;
  // then come the nonce and the length of the payload.
  lemma FirstBlockFields(x: Input)
    requires x.Accepted()
    ensures
      var b, k := FirstBlock(x.n, |x.a|, x.tLen, |x.p|), 1 + |x.n|;
      var f := b[0] as nat;
      && f / 128 == 0 && (f / 64 % 2 == 1 <==> x.a != [])
      && f / 8 % 8 == (x.tLen - 2) / 2 && f % 8 + 1 == 15 - |x.n|
      && b[1..k] == x.n && BeNat(b[k..]) == |x.p|
  {
    hide BeOctets, Octet, Flags, BeNat, Pow256;
    var b, k, f := FirstBlock(x.n, |x.a|, x.tLen, |x.p|), 1 + |x.n|, Flags(|x.a|, x.tLen, 15 - |x.n|);
    assert b[0] == Octet(f) && b[1..k] == x.n && b[k..] == BeOctets(15 - |x.n|, |x.p|);
    OctetValue(f);
    FlagFields(|x.a|, x.tLen, 15 - |x.n|);
    BeOctetsValue(15 - |x.n|, |x.p|);
  }

  lemma FlagFields(aLen: nat, tLen: nat, qLen: nat)
    requires 4 <= tLen <= 16 && 1 <= qLen <= 8
    ensures var f := Flags(aLen, tLen, qLen);
      && f % 256 == f && f / 128 == 0 && (f / 64 % 2 == 1 <==> aLen > 0)
      && f / 8 % 8 == (tLen - 2) / 2 && f % 8 + 1 == qLen
  {
    var e, t, q := if aLen > 0 then 1 else 0, (tLen - 2) / 2, qLen - 1;
    FieldsOf(e, t, q);
  }

  lemma FieldsOf(e: nat, t: nat, q: nat)
    requires e < 2 && t < 8 && q < 8
    ensures var f := 64 * e + 8 * t + q; f / 64 % 2 == e && f / 8 % 8 == t && f % 8 == q
  {
  }

  // Appendix A.2.2: the data follow their length, in two octets, or in six that start with FF FE.
  lemma DataBlocksFields(a: seq<byte>)
    requires a != []
    ensures
      var d, k := DataBlocks(a), if |a| < 0xFF00 then 2 else 6;
      && k + |a| <= |d| < k + |a| + 16
      && (|a| < 0xFF00 ==> BeNat(d[..2]) == |a|)
      && (|a| >= 0xFF00 ==> d[..2] == [0xFF, 0xFE] && BeNat(d[2..6]) == |a| % 0x1_0000_0000)
      && d[k..k + |a|] == a && d[k + |a|..] == Zeros(|d| - k - |a|)
  {
    hide LengthOctets, BeNat;
    var d, l := DataBlocks(a), LengthOctets(|a|);
    LengthNumber(|a|);
    assert d[..|l|] == l;
    if |a| >= 0xFF00 {
      assert d[2..6] == l[2..6] && d[..2] == l[..2];
    } else {
      assert d[..2] == l[..2];
    }
    assert d[|l|..|l| + |a|] == a;
    assert d[|l| + |a|..] == Zeros(|d| - |l| - |a|);
  }

  lemma LengthNumber(n: nat)
    ensures n < 0xFF00 ==> BeNat(LengthOctets(n)[..2]) == n
    ensures n >= 0xFF00 ==> LengthOctets(n)[..2] == [0xFF, 0xFE] && BeNat(LengthOctets(n)[2..6]) == n % 0x1_0000_0000
  {
    hide Octet, Be32, BeNat;
    var l := LengthOctets(n);
    if n < 0xFF00 {
      assert l[..2] == l;
      TwoOctets(n);
    } else {
      assert l[2..6] == Be32(n);
      WordNumber(n);
    }
  }

  lemma TwoOctets(n: nat)
    requires n < 0x10000
    ensures BeNat([Octet(n / 256), Octet(n)]) == n
  {
    hide Octet;
    OctetValue(n / 256);
    OctetValue(n);
    var s := [Octet(n / 256), Octet(n)];
    assert s[..1] == [s[0]] && s[..1][..0] == [];
    assert BeNat(s[..1]) == s[0] as nat;
  }

  // The whole input: first block, data, and the payload filled up with zeros.
  lemma FormatFields(x: Input)
    requires x.Accepted()
    ensures
      var f, k := Format(x), 16 + |DataBlocks(x.a)|;
      && f[..16] == FirstBlock(x.n, |x.a|, x.tLen, |x.p|) && f[16..k] == DataBlocks(x.a)
      && k + |x.p| <= |f| < k + |x.p| + 16 && |f| % 16 == 0
      && f[k..k + |x.p|] == x.p && f[k + |x.p|..] == Zeros(|f| - k - |x.p|)
  {
    hide FirstBlock, DataBlocks;
    FormatParts(x);
    var f, k, n := Format(x), 16 + |DataBlocks(x.a)|, |x.p|;
    assert f[k..] == Padded(x.p);
    assert f[k..k + n] == f[k..][..n] && f[k + n..] == f[k..][n..];
    assert Padded(x.p)[..n] == x.p && Padded(x.p)[n..] == Zeros(|f| - k - n);
  }

  // ---------------------------------------------------------------- the tag

  // Cipher block chaining, by the last block (section 6.1, steps 2 and 3)
  function CbcMac(cipher: Cipher, d: seq<byte>): (y: seq<byte>)
    requires cipher.Valid() && cipher.blockSize == 16 && |d| % 16 == 0
    ensures |y| == 16
    decreases |d|
  {
    if d == [] then Zeros(16)
    else
      var x := Xor(CbcMac(cipher, d[..|d| - 16]), d[|d| - 16..]);
      assert cipher.BlockAt(x);
      cipher.enc(x)
  }

  lemma {:induction false} ChainIsCbcMac(cipher: Cipher, d: seq<byte>)
    requires cipher.Valid() && cipher.blockSize == 16 && |d| % 16 == 0
    ensures Chain(cipher, Zeros(16), d) == CbcMac(cipher, d)
    decreases |d|
  {
    hide Chain, Xor;
    if d == [] {
      ChainNothing(cipher, Zeros(16));
    } else {
      var init, last := d[..|d| - 16], d[|d| - 16..];
      ChainIsCbcMac(cipher, init);
      ChainAppend(cipher, Zeros(16), init, last);
      ChainBlock(cipher, Chain(cipher, Zeros(16), init), last);
      assert d == init + last;
    }
  }

  lemma ChainBlock(cipher: Cipher, y: seq<byte>, b: seq<byte>)
    requires cipher.Valid() && cipher.blockSize == 16 && |y| == |b| == 16
    ensures Chain(cipher, y, b) == cipher.enc(Xor(y, b))
  {
    hide Chain, Xor;
    ChainUnfold(cipher, y, b);
    assert b[..16] == b && b[16..] == [] && y[..16] == y && y[16..] == [];
    assert Xor(y, b) + [] == Xor(y, b);
    assert XorPrefix(y, b) == Xor(y, b);
    ChainNothing(cipher, cipher.enc(Xor(y, b)));
  }

  // Counter block i (appendix A.3): the octets of the counter less one, the nonce, and i.
  function CounterBlock(n: seq<byte>, i: nat): (b: seq<byte>)
    requires 7 <= |n| <= 13
    ensures |b| == 16
  {
    [Octet(14 - |n|)] + n + BeOctets(15 - |n|, i)
  }

  lemma {:induction false} ZeroOctets(m: nat)
    ensures BeOctets(m, 0) == Zeros(m)
  {
    if m > 0 {
      ZeroOctets(m - 1);
      OctetValue(0);
      assert (0 as byte) as nat == 0;
      assert Zeros(m) == Zeros(m - 1) + [0];
    }
  }

  lemma CounterBlockIs(n: seq<byte>, i: nat)
    requires 7 <= |n| <= 13 && i < Pow256(15 - |n|)
    ensures BlockAfter(FirstCounter(n), 15 - |n|, i) == CounterBlock(n, i)
  {
    hide BlockAfter, BeOctets, Octet, BeNat, Pow256;
    var m, t := 15 - |n|, FirstCounter(n);
    ZeroOctets(m);
    assert t == CounterBlock(n, 0);
    assert t[16 - m..] == BeOctets(m, 0) && t[..16 - m] == [Octet(14 - |n|)] + n;
    BeOctetsValue(m, 0);
    BlockAfterValue(t, m, i);
    BeOctetsValue(m, i);
    var b := BlockAfter(t, m, i);
    BeNatInjective(b[16 - m..], BeOctets(m, i));
    assert b == b[..16 - m] + b[16 - m..];
  }

  // The tag is the leading part of the sum of the encrypted counter block 0 and the chained value
  // of the formatted input (section 6.1).
  lemma TagIs(cipher: Cipher, x: Input)
    requires cipher.Valid() && cipher.blockSize == 16 && x.Accepted()
    ensures |cipher.enc(CounterBlock(x.n, 0))| == 16 && |Format(x)| % 16 == 0
    ensures Tag(cipher, x) == Xor(cipher.enc(CounterBlock(x.n, 0)), CbcMac(cipher, Format(x)))[..x.tLen]
  {
    hide Chain, Format, Xor, CbcMac, FirstCounter, CounterBlock, Pow256;
    FormatFields(x);
    ChainIsCbcMac(cipher, Format(x));
    CounterBlockIs(x.n, 0);
    assert cipher.BlockAt(CounterBlock(x.n, 0));
    assert BlockAfter(FirstCounter(x.n), 15 - |x.n|, 0) == FirstCounter(x.n);
  }

  // ---------------------------------------------------------------- the ciphertext

  // Octet i of the payload is added to octet i % 16 of the encrypted counter block i / 16 + 1.
  lemma CiphertextAt(cipher: Cipher, n: seq<byte>, p: seq<byte>, i: nat)
    requires cipher.Valid() && cipher.blockSize == 16 && 7 <= |n| <= 13 && i < |p| < Pow256(15 - |n|)
    ensures
      var b := CounterBlock(n, i / 16 + 1);
      |cipher.enc(b)| == 16 && Ciphertext(cipher, n, p)[i] == Sum(p[i], cipher.enc(b)[i % 16])
  {
    hide Gctr, BlockAfter, CounterBlock, FirstCounter, Sum, Pow256;
    GctrAt(cipher, 15 - |n|, FirstCounter(n), p, i);
    assert i / 16 + 1 <= i + 1 <= |p|;
    CounterBlockIs(n, i / 16 + 1);
  }
}
