/** The formatting of CCM inputs into blocks (SP 800-38C, appendix A), and what it determines. */
module CcmFormat {
  import opened Blocks
  import opened Counter
  import opened Octets

  // Nonces of 7 to 13 octets, even tag lengths from 4 to 16.
  predicate Lengths(nLen: nat, tLen: nat) { 7 <= nLen <= 13 && 4 <= tLen <= 16 && tLen % 2 == 0 }

  // An input that ccmEncrypt accepts: the length of the payload fits its field.
  datatype Input = Input(n: seq<byte>, a: seq<byte>, p: seq<byte>, tLen: nat) {
    predicate Accepted() { Lengths(|n|, tLen) && |p| < Pow256(15 - |n|) }
  }

  // The fields of the first octet do not overlap, so that combining them by OR adds them.
  function Flags(aLen: nat, tLen: nat, qLen: nat): (f: nat)
    requires 4 <= tLen <= 16 && 1 <= qLen <= 8
    ensures f < 128
  {
    (if aLen > 0 then 64 else 0) + 8 * ((tLen - 2) / 2) + (qLen - 1)
  }

  // q in m octets, most significant first
  function BeOctets(m: nat, q: nat): (r: seq<byte>)
    ensures |r| == m
  {
    if m == 0 then [] else BeOctets(m - 1, q / 256) + [Octet(q)]
  }

  function FirstBlock(n: seq<byte>, aLen: nat, tLen: nat, length: nat): (b: seq<byte>)
    requires Lengths(|n|, tLen)
    ensures |b| == 16
  {
    [Octet(Flags(aLen, tLen, 15 - |n|))] + n + BeOctets(15 - |n|, length)
  }

  // Counter block 0
  function FirstCounter(n: seq<byte>): (b: seq<byte>)
    requires 7 <= |n| <= 13
    ensures |b| == 16
  {
    [Octet(14 - |n|)] + n + Zeros(15 - |n|)
  }

  // How the length of the additional data is encoded: in 2 octets, or in 6, modulo 2^32.
  function LengthOctets(aLen: nat): (r: seq<byte>)
    ensures |r| == if aLen < 0xFF00 then 2 else 6
  {
    if aLen < 0xFF00 then [Octet(aLen / 256), Octet(aLen)] else [0xFF, 0xFE] + Be32(aLen)
  }

  function DataBlocks(a: seq<byte>): (r: seq<byte>)
    ensures |r| % 16 == 0
  {
    if a == [] then [] else Padded(LengthOctets(|a|) + a)
  }

  // All octets that go into the authentication value, block after block.
  function Format(x: Input): (r: seq<byte>)
    requires Lengths(|x.n|, x.tLen)
    ensures |r| == 16 + |DataBlocks(x.a)| + |Padded(x.p)|
  {
    FirstBlock(x.n, |x.a|, x.tLen, |x.p|) + DataBlocks(x.a) + Padded(x.p)
  }

  // ---------------------------------------------------------------- numbers in octets

  lemma {:induction false} BeOctetsValue(m: nat, q: nat)
    requires q < Pow256(m)
    ensures BeNat(BeOctets(m, q)) == q
  {
    if m > 0 {
      BeOctetsValue(m - 1, q / 256);
      var r := BeOctets(m, q);
      assert r[..|r| - 1] == BeOctets(m - 1, q / 256);
      OctetValue(q);
    }
  }

  // ---------------------------------------------------------------- the first block

  lemma FlagsInjective(aLen: nat, tLen: nat, qLen: nat, aLen': nat, tLen': nat, qLen': nat)
    requires 4 <= tLen <= 16 && tLen % 2 == 0 && 1 <= qLen <= 8
    requires 4 <= tLen' <= 16 && tLen' % 2 == 0 && 1 <= qLen' <= 8
    requires Flags(aLen, tLen, qLen) == Flags(aLen', tLen', qLen')
    ensures tLen == tLen' && qLen == qLen' && (aLen > 0 <==> aLen' > 0)
  {
  }

  // The first block determines the nonce, the tag length, the payload length, and whether
  // there is additional data.
  lemma FirstBlockDetermines(x: Input, y: Input)
    requires x.Accepted() && y.Accepted()
    requires FirstBlock(x.n, |x.a|, x.tLen, |x.p|) == FirstBlock(y.n, |y.a|, y.tLen, |y.p|)
    ensures x.n == y.n && x.tLen == y.tLen && |x.p| == |y.p| && (x.a == [] <==> y.a == [])
  {
    hide Octet, Flags, BeOctets;
    var b, c := FirstBlock(x.n, |x.a|, x.tLen, |x.p|), FirstBlock(y.n, |y.a|, y.tLen, |y.p|);
    assert b[0] == c[0];
    OctetInjective(Flags(|x.a|, x.tLen, 15 - |x.n|), Flags(|y.a|, y.tLen, 15 - |y.n|));
    FlagsInjective(|x.a|, x.tLen, 15 - |x.n|, |y.a|, y.tLen, 15 - |y.n|);
    var k := 1 + |x.n|;
    assert x.n == b[1..k] && y.n == c[1..k];
    assert BeOctets(15 - |x.n|, |x.p|) == b[k..] && BeOctets(15 - |y.n|, |y.p|) == c[k..];
    BeOctetsValue(15 - |x.n|, |x.p|);
    BeOctetsValue(15 - |y.n|, |y.p|);
  }

  // No counter block is a first block: a first block has a tag length in its first octet.
  lemma FirstBlockIsNoCounter(n: seq<byte>, aLen: nat, tLen: nat, length: nat, n': seq<byte>, k: nat)
    requires Lengths(|n|, tLen) && 7 <= |n'| <= 13
    ensures FirstBlock(n, aLen, tLen, length) != BlockAfter(FirstCounter(n'), 15 - |n'|, k)
  {
    hide Octet, BlockAfter, BeOctets;
    var b, c := FirstBlock(n, aLen, tLen, length), BlockAfter(FirstCounter(n'), 15 - |n'|, k);
    CounterKeepsFlags(n', k);
    var f := Flags(aLen, tLen, 15 - |n|);
    assert b[0] == Octet(f) && f >= 8;
    if b == c {
      OctetInjective(f, 14 - |n'|);
    }
  }

  lemma {:induction false} CounterKeepsFlags(n: seq<byte>, k: nat)
    requires 7 <= |n| <= 13
    ensures BlockAfter(FirstCounter(n), 15 - |n|, k)[0] == Octet(14 - |n|)
  {
    hide Octet;
    if k > 0 {
      CounterKeepsFlags(n, k - 1);
    }
  }

  // ---------------------------------------------------------------- the additional data

  lemma LengthForm(aLen: nat)
    ensures aLen < 0xFF00 <==> LengthOctets(aLen)[0] != 0xFF
  {
    if aLen < 0xFF00 {
      OctetValue(aLen / 256);
      assert (0xFF as byte) as nat == 255;
    }
  }

  // Equal encodings belong to lengths that are equal modulo 2^32, and equal below 2^32.
  lemma LengthOctetsDetermine(a: nat, b: nat)
    requires LengthOctets(a) <= LengthOctets(b) || LengthOctets(b) <= LengthOctets(a)
    ensures a < 0xFF00 <==> b < 0xFF00
    ensures a % 0x1_0000_0000 == b % 0x1_0000_0000
  {
    hide Octet, Be32;
    LengthForm(a);
    LengthForm(b);
    var x, y := LengthOctets(a), LengthOctets(b);
    assert x[0] == y[0];
    if a < 0xFF00 {
      assert x[1] == y[1];
      OctetInjective(a / 256, b / 256);
      OctetValue(a);
      OctetValue(b);
    } else {
      assert Be32(a) == x[2..] && Be32(b) == y[2..];
      Be32Injective(a, b);
    }
  }

  // The encoding of the length at the start of the blocks
  lemma DataBlocksStart(a: seq<byte>)
    requires a != []
    ensures |DataBlocks(a)| >= 16 && LengthOctets(|a|) <= DataBlocks(a)
  {
    hide LengthOctets;
    var d := LengthOctets(|a|) + a;
    assert DataBlocks(a)[..|LengthOctets(|a|)|] == d[..|LengthOctets(|a|)|];
  }

  lemma PrefixesAgree(x: seq<byte>, y: seq<byte>, z: seq<byte>)
    requires x <= z && y <= z
    ensures x <= y || y <= x
  {
    if |x| <= |y| {
      assert x == y[..|x|];
    }
  }

  lemma SameBlockCount(a: nat, b: nat, e: nat)
    requires a % 0x1_0000_0000 == b % 0x1_0000_0000
    requires (e + a + 15) / 16 == (e + b + 15) / 16
    ensures a == b
  {
  }

  // The blocks of the additional data determine it, whatever its length.
  lemma DataBlocksInjective(a: seq<byte>, b: seq<byte>)
    requires DataBlocks(a) == DataBlocks(b) && (a == [] <==> b == [])
    ensures a == b
  {
    hide LengthOctets, Padded;
    if a != [] {
      DataBlocksStart(a);
      DataBlocksStart(b);
      PrefixesAgree(LengthOctets(|a|), LengthOctets(|b|), DataBlocks(a));
      LengthOctetsDetermine(|a|, |b|);
      var c, d := LengthOctets(|a|) + a, LengthOctets(|b|) + b;
      SameBlockCount(|a|, |b|, |LengthOctets(|a|)|);
      PaddedInjective(c, d);
      assert a == c[|LengthOctets(|a|)|..] && b == d[|LengthOctets(|b|)|..];
    }
  }

  // ---------------------------------------------------------------- the whole

  lemma FormatParts(x: Input)
    requires Lengths(|x.n|, x.tLen)
    ensures Format(x)[..16] == FirstBlock(x.n, |x.a|, x.tLen, |x.p|)
    ensures Format(x)[16..16 + |DataBlocks(x.a)|] == DataBlocks(x.a)
    ensures Format(x)[16 + |DataBlocks(x.a)|..] == Padded(x.p)
  {
    hide FirstBlock, DataBlocks, Padded;
  }

  // The octets authenticated determine nonce, additional data, payload and tag length, for all
  // inputs that are accepted.
  lemma FormatInjective(x: Input, y: Input)
    requires x.Accepted() && y.Accepted() && Format(x) == Format(y)
    ensures x == y
  {
    hide FirstBlock, DataBlocks, Format;
    FormatParts(x);
    FormatParts(y);
    FirstBlockDetermines(x, y);
    DataBlocksInjective(x.a, y.a);
    PaddedInjective(x.p, y.p);
  }

  // And an input whose length takes the short form starts no other one; nor does one whose data
  // has fewer than 2^32 octets start another such input.
  lemma FormatPrefixFree(x: Input, y: Input)
    requires x.Accepted() && y.Accepted() && Format(x) <= Format(y)
    requires |x.a| < 0xFF00 || (|x.a| < 0x1_0000_0000 && |y.a| < 0x1_0000_0000)
    ensures x == y
  {
    hide FirstBlock, DataBlocks, Padded, LengthOctets;
    var f, g := Format(x), Format(y);
    FormatParts(x);
    FormatParts(y);
    assert f[..16] == g[..16];
    FirstBlockDetermines(x, y);
    if x.a != [] {
      DataBlocksStart(x.a);
      DataBlocksStart(y.a);
      var l, m := LengthOctets(|x.a|), LengthOctets(|y.a|);
      assert l == f[16..16 + |l|] && m == g[16..16 + |m|] && l == g[16..16 + |l|];
      PrefixesAgree(l, m, g[16..]);
      LengthOctetsDetermine(|x.a|, |y.a|);
      DataBlocksLength(x.a, y.a);
    }
    assert |f| == |g|;
    assert f == g;
    FormatInjective(x, y);
  }

  lemma DataBlocksLength(a: seq<byte>, b: seq<byte>)
    requires |a| == |b|
    ensures |DataBlocks(a)| == |DataBlocks(b)|
  {
    hide LengthOctets;
  }

  // The long form stores the length modulo 2^32. So every input with that form starts another
  // one: its own octets after the length field, filled up with zeros, are longer data.
  function Extended(x: Input): (y: Input)
    requires Lengths(|x.n|, x.tLen) && |x.a| >= 0xFF00
    ensures |y.a| == |x.a| + 0x1_0000_0000 * (|x.p| + 1)
  {
    RestFits(x);
    var rest := Format(x)[22..];
    var room := |x.a| + 0x1_0000_0000 * (|x.p| + 1);
    Input(x.n, rest + Zeros(room - |rest|), x.p, x.tLen)
  }

  lemma RestFits(x: Input)
    requires Lengths(|x.n|, x.tLen) && |x.a| >= 0xFF00
    ensures 22 <= |Format(x)| <= 16 + |x.a| + |x.p| + 36
  {
    hide FirstBlock, LengthOctets;
  }

  lemma FormatExtends(x: Input)
    requires x.Accepted() && |x.a| >= 0xFF00
    ensures var y := Extended(x); y.Accepted() && y != x && Format(x) <= Format(y)
  {
    var y := Extended(x);
    ExtendedFirst(x, y);
    hide Format, FirstBlock, DataBlocks, Padded, LengthOctets;
    FormatParts(x);
    FormatParts(y);
    DataBlocksStart(x.a);
    LongData(y.a);
    LengthCongruent(|x.a|, |y.a|, |x.p| + 1);
    Assembled(Format(x), Format(y), FirstBlock(x.n, |x.a|, x.tLen, |x.p|), LengthOctets(|x.a|), y.a, DataBlocks(x.a), DataBlocks(y.a));
  }

  lemma ExtendedFirst(x: Input, y: Input)
    requires Lengths(|x.n|, x.tLen) && |x.a| > 0 && |y.a| > 0 && y.n == x.n && y.tLen == x.tLen && |y.p| == |x.p|
    ensures FirstBlock(x.n, |x.a|, x.tLen, |x.p|) == FirstBlock(y.n, |y.a|, y.tLen, |y.p|)
  {
    hide BeOctets, Octet;
  }

  lemma Assembled(f: seq<byte>, g: seq<byte>, first: seq<byte>, l: seq<byte>, a: seq<byte>, c: seq<byte>, d: seq<byte>)
    requires |f| >= 16 + |c| && |g| >= 16 + |d| && f[..16] == g[..16] == first
    requires f[16..16 + |c|] == c && g[16..16 + |d|] == d && |l| == 6 && l <= c && l + a <= d && f[22..] <= a
    ensures f <= g
  {
    assert forall i | 16 <= i < 22 :: f[i] == c[i - 16] == l[i - 16];
    assert forall i | 16 <= i < |f| :: g[i] == d[i - 16] == (l + a)[i - 16];
    assert forall i | 22 <= i < |f| :: f[i] == f[22..][i - 22] == a[i - 22];
  }

  lemma LongData(a: seq<byte>)
    requires a != []
    ensures LengthOctets(|a|) + a <= DataBlocks(a)
  {
    hide LengthOctets;
  }

  lemma LengthCongruent(a: nat, b: nat, k: nat)
    requires a >= 0xFF00 && b == a + 0x1_0000_0000 * k
    ensures LengthOctets(a) == LengthOctets(b)
  {
    hide Octet;
    Be32Congruent(a, b, k);
  }

  // So whether an accepted input starts another one is decided by the form of its length.
  lemma FormatPrefixExact(x: Input)
    requires x.Accepted()
    ensures (exists y: Input :: y.Accepted() && y != x && Format(x) <= Format(y)) <==> |x.a| >= 0xFF00
  {
    hide Format, Extended;
    if |x.a| >= 0xFF00 {
      FormatExtends(x);
    } else {
      forall y: Input | y.Accepted() && Format(x) <= Format(y)
        ensures x == y
      {
        FormatPrefixFree(x, y);
      }
    }
  }

  // For example all-zero data of 0xFF00 octets starts like all-zero data that is 2^32 octets longer.
  lemma FormatNotPrefixFree(n: seq<byte>, tLen: nat)
    requires Lengths(|n|, tLen)
    ensures
      var x, y := Input(n, Zeros(0xFF00), [], tLen), Input(n, Zeros(0x1_0000_FF00), [], tLen);
      x.Accepted() && y.Accepted() && Format(x) <= Format(y) && x != y
  {
    hide FirstBlock, LengthOctets, Format, Padded;
    LengthCongruent(0xFF00, 0x1_0000_FF00, 1);
    NoPayloadFits(n);
    ZerosFormat(n, 0xFF00, tLen);
    ZerosFormat(n, 0x1_0000_FF00, tLen);
    assert |Zeros(0xFF00)| != |Zeros(0x1_0000_FF00)|;
  }

  lemma NoPayloadFits(n: seq<byte>)
    requires 7 <= |n| <= 13
    ensures 0 < Pow256(15 - |n|)
  {
  }

  lemma ZerosFormat(n: seq<byte>, k: nat, tLen: nat)
    requires Lengths(|n|, tLen) && k >= 0xFF00
    ensures Format(Input(n, Zeros(k), [], tLen))
      == FirstBlock(n, 1, tLen, 0) + LengthOctets(k) + Zeros((k + 21) / 16 * 16 - 6)
  {
    hide LengthOctets, BeOctets, Octet;
    var l := LengthOctets(k);
    assert Zeros(k) != [] && Padded([]) == [];
    assert FirstBlock(n, k, tLen, 0) == FirstBlock(n, 1, tLen, 0);
    assert Padded(l + Zeros(k)) == l + Zeros((k + 21) / 16 * 16 - 6);
    assert FirstBlock(n, 1, tLen, 0) + (l + Zeros((k + 21) / 16 * 16 - 6)) + []
      == FirstBlock(n, 1, tLen, 0) + l + Zeros((k + 21) / 16 * 16 - 6);
  }
}
