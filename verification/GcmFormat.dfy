/** What a GCM tag authenticates: the octets hashed, and how the stored lengths differ from SP 800-38D. */
module GcmFormat {
  import opened Blocks
  import opened Counter
  import opened CounterMode
  import opened Gcm
  import opened GcmMul
  import opened Octets

  // The octets that GHASH runs over
  function Hashed(a: seq<byte>, c: seq<byte>): (r: seq<byte>)
    ensures |r| == |Padded(a)| + |Padded(c)| + 16
  {
    Padded(a) + Padded(c) + Lengths(|a|, |c|)
  }

  // ---------------------------------------------------------------- the tag is a function of them

  lemma {:induction false} GhashPadded(h: seq<byte>, s: seq<byte>, d: seq<byte>)
    requires |h| == 16 && |s| == 16
    ensures Ghash(h, s, Padded(d)) == Ghash(h, s, d)
    decreases |d|
  {
    hide XorPrefix, Ghash, Padded, MulBlock;
    PaddedLaws(d);
    if d != [] {
      GhashUnfold(h, s, d);
      GhashUnfold(h, s, Padded(d));
      if |d| >= 16 {
        GhashPadded(h, MulBlock(XorPrefix(s, d[..16]), h), d[16..]);
      } else {
        XorZeros(s, d);
        assert d[..|d|] == d && Padded(d)[..16] == Padded(d);
        assert Padded(d)[16..] == [] && d[|d|..] == [];
      }
    }
  }

  lemma {:induction false} GhashAppend(h: seq<byte>, s: seq<byte>, d: seq<byte>, e: seq<byte>)
    requires |h| == 16 && |s| == 16 && |d| % 16 == 0
    ensures Ghash(h, s, d + e) == Ghash(h, Ghash(h, s, d), e)
    decreases |d|
  {
    hide XorPrefix, Ghash, MulBlock;
    if d == [] {
      GhashEnd(h, s);
      assert d + e == e;
    } else {
      GhashUnfold(h, s, d);
      GhashUnfold(h, s, d + e);
      assert (d + e)[..16] == d[..16] && (d + e)[16..] == d[16..] + e;
      GhashAppend(h, MulBlock(XorPrefix(s, d[..16]), h), d[16..], e);
    }
  }

  lemma GhashBlock(h: seq<byte>, s: seq<byte>, b: seq<byte>)
    requires |h| == 16 && |s| == 16 && |b| == 16
    ensures Ghash(h, s, b) == MulBlock(Xor(s, b), h)
  {
    hide Ghash, MulBlock, Xor;
    GhashUnfold(h, s, b);
    GhashEnd(h, MulBlock(XorPrefix(s, b), h));
    assert b[..16] == b && b[16..] == [] && s[..16] == s && s[16..] == [];
    assert Xor(s, b) + [] == Xor(s, b);
  }

  // The hash of data, ciphertext and any block of lengths
  lemma GhashParts(h: seq<byte>, a: seq<byte>, c: seq<byte>, l: seq<byte>)
    requires |h| == 16 && |l| == 16
    ensures Ghash(h, Zeros(16), Padded(a) + Padded(c) + l)
      == MulBlock(Xor(Ghash(h, Ghash(h, Zeros(16), a), c), l), h)
  {
    hide Ghash, MulBlock, Xor, Padded;
    WholeSum(|Padded(a)|, |Padded(c)|);
    GhashAppend(h, Zeros(16), Padded(a) + Padded(c), l);
    GhashAppend(h, Zeros(16), Padded(a), Padded(c));
    GhashPadded(h, Zeros(16), a);
    GhashPadded(h, Ghash(h, Zeros(16), a), c);
    GhashBlock(h, Ghash(h, Ghash(h, Zeros(16), a), c), l);
  }

  lemma WholeSum(m: nat, n: nat)
    requires m % 16 == 0 && n % 16 == 0
    ensures (m + n) % 16 == 0
  {
  }

  lemma TagOfHashed(cipher: Cipher, iv: seq<byte>, a: seq<byte>, c: seq<byte>)
    requires cipher.Valid() && cipher.blockSize == 16
    ensures var h := HashKey(cipher);
      && |cipher.enc(PreCounter(h, iv))| == 16
      && Tag(cipher, iv, a, c) == Xor(cipher.enc(PreCounter(h, iv)), Ghash(h, Zeros(16), Hashed(a, c)))
  {
    hide Ghash, MulBlock, Xor, Padded, Lengths;
    var h := HashKey(cipher);
    assert cipher.BlockAt(PreCounter(h, iv));
    GhashParts(h, a, c, Lengths(|a|, |c|));
  }

  // ---------------------------------------------------------------- what they determine

  const QUARTER := 0x2000_0000  // octets whose number of bits is 2^32

  function WholeBlocks(n: nat): nat { (n + 15) / 16 * 16 }

  // Another length u of the data is possible: it is congruent to the true one, and the octets that
  // would be its padding are zero.
  predicate Splits(a: seq<byte>, c: seq<byte>, u: nat) {
    var d := Padded(a) + Padded(c);
    && u != |a| && u % QUARTER == |a| % QUARTER && u <= |a| + |c| && WholeBlocks(u) <= |d|
    && forall i | u <= i < WholeBlocks(u) :: d[i] == 0
  }

  ghost predicate Ambiguous(a: seq<byte>, c: seq<byte>) { exists u: nat :: Splits(a, c, u) }

  lemma LengthsDetermine(a: nat, c: nat, a': nat, c': nat)
    ensures Lengths(a, c) == Lengths(a', c') <==> a % QUARTER == a' % QUARTER && c % QUARTER == c' % QUARTER
  {
    hide Be32;
    var l, m := Lengths(a, c), Lengths(a', c');
    assert l[4..8] == Be32(a * 8) && l[12..] == Be32(c * 8);
    assert m[4..8] == Be32(a' * 8) && m[12..] == Be32(c' * 8);
    BitCount(a, a');
    BitCount(c, c');
  }

  lemma BitCount(a: nat, b: nat)
    ensures Be32(a * 8) == Be32(b * 8) <==> a % QUARTER == b % QUARTER
  {
    hide Be32;
    EighthOf(a, b);
    if Be32(a * 8) == Be32(b * 8) {
      Be32Injective(a * 8, b * 8);
    } else if a % QUARTER == b % QUARTER {
      var k := a / QUARTER - b / QUARTER;
      if k >= 0 {
        Be32Congruent(b * 8, a * 8, k);
      } else {
        Be32Congruent(a * 8, b * 8, -k);
      }
    }
  }

  lemma EighthOf(a: nat, b: nat)
    ensures a * 8 % 0x1_0000_0000 == b * 8 % 0x1_0000_0000 <==> a % QUARTER == b % QUARTER
  {
  }

  lemma SameTotal(a: nat, c: nat, u: nat, v: nat)
    requires u % QUARTER == a % QUARTER && v % QUARTER == c % QUARTER
    requires WholeBlocks(u) + WholeBlocks(v) == WholeBlocks(a) + WholeBlocks(c)
    ensures u + v == a + c
  {
    var j, k := u / QUARTER - a / QUARTER, v / QUARTER - c / QUARTER;
    Turned(a, u, j);
    Turned(c, v, k);
  }

  lemma Turned(a: nat, u: nat, j: int)
    requires u == a + QUARTER * j
    ensures WholeBlocks(u) == WholeBlocks(a) + QUARTER * j
  {
    assert (u + 15) / 16 == (a + 15) / 16 + 0x200_0000 * j;
  }

  // A different input with the same hashed octets gives another length that is possible.
  lemma OtherSplits(a: seq<byte>, c: seq<byte>, a': seq<byte>, c': seq<byte>)
    requires Hashed(a, c) == Hashed(a', c') && (a' != a || c' != c)
    ensures Splits(a, c, |a'|)
  {
    HashedPartsEqual(a, c, a', c');
    LengthsDetermine(|a|, |c|, |a'|, |c'|);
    SameTotal(|a|, |c|, |a'|, |c'|);
    hide Lengths;
    var d := Padded(a) + Padded(c);
    assert d == Padded(a') + Padded(c');
    assert forall i | |a'| <= i < WholeBlocks(|a'|) :: d[i] == Padded(a')[i] == 0;
    if |a'| == |a| {
      assert Padded(a) == d[..|Padded(a)|] == Padded(a');
      assert Padded(c) == d[|Padded(a)|..] == Padded(c');
      PaddedInjective(a, a');
      PaddedInjective(c, c');
    }
  }

  lemma HashedPartsEqual(a: seq<byte>, c: seq<byte>, a': seq<byte>, c': seq<byte>)
    requires Hashed(a, c) == Hashed(a', c')
    ensures Padded(a) + Padded(c) == Padded(a') + Padded(c')
    ensures Lengths(|a|, |c|) == Lengths(|a'|, |c'|)
  {
    hide Padded, Lengths;
    var x, y := Hashed(a, c), Hashed(a', c');
    assert x[..|x| - 16] == Padded(a) + Padded(c) && y[..|y| - 16] == Padded(a') + Padded(c');
    assert x[|x| - 16..] == Lengths(|a|, |c|) && y[|y| - 16..] == Lengths(|a'|, |c'|);
  }

  // And every length that is possible belongs to a different input.
  lemma SplitIsOther(a: seq<byte>, c: seq<byte>, u: nat) returns (a': seq<byte>, c': seq<byte>)
    requires Splits(a, c, u)
    ensures a' != a && Hashed(a, c) == Hashed(a', c')
  {
    var d, w, v := Padded(a) + Padded(c), WholeBlocks(u), |a| + |c| - u;
    SplitLengths(|a|, |c|, u, v);
    TailIsZero(a, c);
    LengthsDetermine(|a|, |c|, u, v);
    hide WholeBlocks, QUARTER, Padded, Lengths;
    a', c' := d[..u], d[w..w + v];
    FilledUp(d[..w], u);
    assert d[..w][..u] == a';
    FilledUp(d[w..], v);
    assert d[w..][..v] == c';
    assert d[..w] + d[w..] == d;
  }

  lemma TailIsZero(a: seq<byte>, c: seq<byte>)
    ensures var d := Padded(a) + Padded(c);
      && |d| == WholeBlocks(|a|) + WholeBlocks(|c|)
      && forall i | WholeBlocks(|a|) + |c| <= i < |d| :: d[i] == 0
  {
    var d := Padded(a) + Padded(c);
    assert forall i | |Padded(a)| + |c| <= i < |d| :: d[i] == Padded(c)[i - |Padded(a)|] == 0;
  }

  lemma SplitLengths(a: nat, c: nat, u: nat, v: nat)
    requires u % QUARTER == a % QUARTER && u + v == a + c
    ensures v % QUARTER == c % QUARTER
    ensures WholeBlocks(u) + v == WholeBlocks(a) + c && WholeBlocks(u) + WholeBlocks(v) == WholeBlocks(a) + WholeBlocks(c)
  {
    var j := u / QUARTER - a / QUARTER;
    Turned(a, u, j);
    Turned(c, v, -j);
  }

  // Octets of whole blocks that are zero from n on are the first n of them, filled up.
  lemma FilledUp(d: seq<byte>, n: nat)
    requires n <= |d| == WholeBlocks(n) && forall i | n <= i < |d| :: d[i] == 0
    ensures Padded(d[..n]) == d
  {
    assert |d[..n]| == n;
  }

  // Whether other data and ciphertext have the same hashed octets, and so the same tag under
  // every key and nonce, is decided by the lengths and by the octets near the possible ends.
  lemma HashedExact(a: seq<byte>, c: seq<byte>)
    ensures (exists a': seq<byte>, c': seq<byte> :: (a' != a || c' != c) && Hashed(a', c') == Hashed(a, c))
      <==> Ambiguous(a, c)
  {
    hide Hashed, Splits;
    forall a': seq<byte>, c': seq<byte> | (a' != a || c' != c) && Hashed(a', c') == Hashed(a, c)
      ensures Ambiguous(a, c)
    {
      OtherSplits(a, c, a', c');
    }
    if Ambiguous(a, c) {
      var u: nat :| Splits(a, c, u);
      var a', c' := SplitIsOther(a, c, u);
      assert Hashed(a', c') == Hashed(a, c);
    }
  }

  // Below 2^29 octets the hashed octets determine additional data and ciphertext.
  lemma HashedInjective(a: seq<byte>, c: seq<byte>, a': seq<byte>, c': seq<byte>)
    requires |a| < QUARTER && |c| < QUARTER && Hashed(a, c) == Hashed(a', c')
    ensures a == a' && c == c'
  {
    hide Hashed;
    if a' != a || c' != c {
      OtherSplits(a, c, a', c');
      NoOtherLength(|a|, |c|, |a'|);
    }
  }

  lemma NoOtherLength(a: nat, c: nat, u: nat)
    requires a < QUARTER && c < QUARTER && u % QUARTER == a % QUARTER && u <= a + c
    ensures u == a
  {
  }

  lemma SameHashedSameTag(cipher: Cipher, iv: seq<byte>, a: seq<byte>, c: seq<byte>, a': seq<byte>, c': seq<byte>)
    requires cipher.Valid() && cipher.blockSize == 16 && Hashed(a, c) == Hashed(a', c')
    ensures Tag(cipher, iv, a, c) == Tag(cipher, iv, a', c')
  {
    hide Tag, Hashed, Ghash, PreCounter;
    TagOfHashed(cipher, iv, a, c);
    TagOfHashed(cipher, iv, a', c');
  }

  // Beyond that they do not: zeros can move from the data to the ciphertext without a change of
  // the tag, under every key and nonce.
  lemma TagsCollide(cipher: Cipher, iv: seq<byte>)
    requires cipher.Valid() && cipher.blockSize == 16
    ensures Tag(cipher, iv, Zeros(QUARTER + 16), Zeros(16)) == Tag(cipher, iv, Zeros(16), Zeros(QUARTER + 16))
  {
    hide Tag, Hashed;
    HashedExchanged(QUARTER + 16, 16);
    SameHashedSameTag(cipher, iv, Zeros(QUARTER + 16), Zeros(16), Zeros(16), Zeros(QUARTER + 16));
  }

  lemma HashedExchanged(m: nat, n: nat)
    requires m % QUARTER == n % QUARTER
    ensures Hashed(Zeros(m), Zeros(n)) == Hashed(Zeros(n), Zeros(m))
  {
    hide Padded, Lengths, QUARTER;
    LengthsDetermine(m, n, n, m);
    ZerosExchanged(m, n);
  }

  lemma ZerosExchanged(m: nat, n: nat)
    ensures Padded(Zeros(m)) + Padded(Zeros(n)) == Padded(Zeros(n)) + Padded(Zeros(m))
  {
    FilledUp(Zeros(WholeBlocks(m)), m);
    FilledUp(Zeros(WholeBlocks(n)), n);
    assert Zeros(WholeBlocks(m))[..m] == Zeros(m) && Zeros(WholeBlocks(n))[..n] == Zeros(n);
  }

  // ---------------------------------------------------------------- the lengths of the standard

  // A number in 64 bits
  function Be64(n: nat): (r: seq<byte>)
    ensures |r| == 8
  {
    Be32(n / 0x1_0000_0000) + Be32(n)
  }

  // The number of bits fits 32 bits, once it is taken modulo 2^64.
  predicate Short(n: nat) { n % 0x2000_0000_0000_0000 < QUARTER }

  lemma UpperHalf(n: nat)
    ensures Be64(n * 8) == Zeros(4) + Be32(n * 8) <==> Short(n)
  {
    hide Be32, Short;
    var k := n * 8 / 0x1_0000_0000;
    UpperIsZero(n, k);
    ZeroWord();
    assert Be64(n * 8)[..4] == Be32(k) && (Zeros(4) + Be32(n * 8))[..4] == Zeros(4);
    if Be32(k) == Zeros(4) {
      Be32Injective(k, 0);
    } else if Short(n) {
      Be32Congruent(0, k, k / 0x1_0000_0000);
    }
  }

  lemma UpperIsZero(n: nat, k: nat)
    requires k == n * 8 / 0x1_0000_0000
    ensures Short(n) <==> k % 0x1_0000_0000 == 0
  {
    EighthShift(n);
    var m, q, r := n % QUARTER, k / 0x1_0000_0000, k % 0x1_0000_0000;
    assert n == QUARTER * k + m;
    RemainderIs(n, q, QUARTER * r + m);
  }

  lemma EighthShift(n: nat)
    ensures n * 8 / 0x1_0000_0000 == n / QUARTER
  {
  }

  lemma RemainderIs(n: nat, q: nat, w: nat)
    requires n == 0x2000_0000_0000_0000 * q + w && w < 0x2000_0000_0000_0000
    ensures n % 0x2000_0000_0000_0000 == w
  {
  }

  lemma ZeroWord()
    ensures Be32(0) == Zeros(4)
  {
  }

  // The length block is that of the standard if and only if both numbers of bits fit 32 bits.
  lemma LengthsExact(a: nat, c: nat)
    ensures Lengths(a, c) == Be64(a * 8) + Be64(c * 8) <==> Short(a) && Short(c)
  {
    hide Be32, Be64, Short;
    UpperHalf(a);
    UpperHalf(c);
    var l, m := Lengths(a, c), Be64(a * 8) + Be64(c * 8);
    assert l[..8] == Zeros(4) + Be32(a * 8) && l[8..] == Zeros(4) + Be32(c * 8);
    assert m[..8] == Be64(a * 8) && m[8..] == Be64(c * 8);
  }

  // GHASH of section 6.4 of SP 800-38D, by its last block
  function StandardGhash(h: seq<byte>, x: seq<byte>): (y: seq<byte>)
    requires |h| == 16 && |x| % 16 == 0
    ensures |y| == 16
    decreases |x|
  {
    if x == [] then Zeros(16)
    else MulBlock(Xor(StandardGhash(h, x[..|x| - 16]), x[|x| - 16..]), h)
  }

  lemma {:induction false} GhashIsStandard(h: seq<byte>, x: seq<byte>)
    requires |h| == 16 && |x| % 16 == 0
    ensures Ghash(h, Zeros(16), x) == StandardGhash(h, x)
    decreases |x|
  {
    hide Ghash, MulBlock, Xor;
    if x == [] {
      GhashEnd(h, Zeros(16));
    } else {
      var init, last := x[..|x| - 16], x[|x| - 16..];
      GhashIsStandard(h, init);
      GhashAppend(h, Zeros(16), init, last);
      GhashBlock(h, Ghash(h, Zeros(16), init), last);
      assert x == init + last;
    }
  }

  // Section 7.1 of SP 800-38D
  function StandardPreCounter(h: seq<byte>, iv: seq<byte>): (r: seq<byte>)
    requires |h| == 16
    ensures |r| == 16
  {
    if |iv| == 12 then iv + [0, 0, 0, 1]
    else
      WholeSum(|Padded(iv)|, 16);
      StandardGhash(h, Padded(iv) + (Zeros(8) + Be64(|iv| * 8)))
  }

  lemma One32()
    ensures Be32(1) == [0, 0, 0, 1]
  {
    hide Octet;
    SmallOctets();
  }

  lemma SmallOctets()
    ensures Octet(0) == 0 && Octet(1) == 1
  {
  }

  function StandardTag(cipher: Cipher, iv: seq<byte>, a: seq<byte>, c: seq<byte>): (r: seq<byte>)
    requires cipher.Valid() && cipher.blockSize == 16
    ensures |r| == 16
  {
    assert cipher.BlockAt(Zeros(16));
    var h := cipher.enc(Zeros(16));
    var j := StandardPreCounter(h, iv);
    assert cipher.BlockAt(j);
    WholeSum(|Padded(a)|, |Padded(c)|);
    WholeSum(|Padded(a) + Padded(c)|, 16);
    Xor(cipher.enc(j), StandardGhash(h, Padded(a) + Padded(c) + (Be64(|a| * 8) + Be64(|c| * 8))))
  }

  // The pre-counter block of a nonce of other than 12 octets is that of the standard if and only
  // if the difference of the two length blocks times the hash subkey is zero.
  lemma PreCounterExact(h: seq<byte>, iv: seq<byte>)
    requires |h| == 16 && |iv| != 12
    ensures var l, m := Zeros(12) + Be32(|iv| * 8), Zeros(8) + Be64(|iv| * 8);
      PreCounter(h, iv) == StandardPreCounter(h, iv) <==> MulBlock(Xor(l, m), h) == Zeros(16)
  {
    hide Ghash, MulBlock, Xor, Padded, Be32, Be64;
    var l, m := Zeros(12) + Be32(|iv| * 8), Zeros(8) + Be64(|iv| * 8);
    WholeSum(|Padded(iv)|, 16);
    GhashIsStandard(h, Padded(iv) + m);
    GhashAppend(h, Zeros(16), Padded(iv), m);
    GhashPadded(h, Zeros(16), iv);
    var s := Ghash(h, Zeros(16), iv);
    GhashBlock(h, s, m);
    ProductsEqual(s, l, m, h);
  }

  // In particular it is when the number of bits fits.
  lemma PreCounterIsStandard(h: seq<byte>, iv: seq<byte>)
    requires |h| == 16 && Short(|iv|)
    ensures PreCounter(h, iv) == StandardPreCounter(h, iv)
  {
    hide Ghash, MulBlock, Xor, Padded, Be32, Be64, Short;
    One32();
    if |iv| != 12 {
      UpperHalf(|iv|);
      var l := Zeros(8) + Be64(|iv| * 8);
      WholeSum(|Padded(iv)|, 16);
      GhashIsStandard(h, Padded(iv) + l);
      assert l == Zeros(12) + Be32(|iv| * 8);
      GhashAppend(h, Zeros(16), Padded(iv), l);
      GhashPadded(h, Zeros(16), iv);
      GhashBlock(h, Ghash(h, Zeros(16), iv), l);
    }
  }

  lemma StandardParts(h: seq<byte>, a: seq<byte>, c: seq<byte>, l: seq<byte>)
    requires |h| == 16 && |l| == 16
    ensures (|Padded(a)| + |Padded(c)| + |l|) % 16 == 0
    ensures StandardGhash(h, Padded(a) + Padded(c) + l) == Ghash(h, Zeros(16), Padded(a) + Padded(c) + l)
  {
    hide Ghash, StandardGhash, Padded;
    WholeSum(|Padded(a)|, |Padded(c)|);
    WholeSum(|Padded(a) + Padded(c)|, 16);
    GhashIsStandard(h, Padded(a) + Padded(c) + l);
  }

  lemma ProductsEqual(s: seq<byte>, l: seq<byte>, m: seq<byte>, h: seq<byte>)
    requires |s| == |l| == |m| == |h| == 16
    ensures MulBlock(Xor(s, l), h) == MulBlock(Xor(s, m), h) <==> MulBlock(Xor(l, m), h) == Zeros(16)
  {
    hide MulBlock, Xor;
    MulLinear(s, l, h);
    MulLinear(s, m, h);
    MulLinear(l, m, h);
    XorSame(MulBlock(s, h), MulBlock(l, h), MulBlock(m, h));
    XorZero(MulBlock(l, h), MulBlock(m, h));
  }

  // For nonces whose number of bits fits, the tag is that of the standard if and only if the
  // difference of the two length blocks times the hash subkey is zero.
  lemma TagExact(cipher: Cipher, iv: seq<byte>, a: seq<byte>, c: seq<byte>)
    requires cipher.Valid() && cipher.blockSize == 16 && Short(|iv|)
    ensures var m := Be64(|a| * 8) + Be64(|c| * 8);
      Tag(cipher, iv, a, c) == StandardTag(cipher, iv, a, c)
      <==> MulBlock(Xor(Lengths(|a|, |c|), m), HashKey(cipher)) == Zeros(16)
  {
    hide Ghash, MulBlock, Xor, Padded, Be32, Be64, Short, Lengths, PreCounter, StandardPreCounter;
    var h, l, m := HashKey(cipher), Lengths(|a|, |c|), Be64(|a| * 8) + Be64(|c| * 8);
    PreCounterIsStandard(h, iv);
    var j, s := PreCounter(h, iv), Ghash(h, Ghash(h, Zeros(16), a), c);
    assert cipher.BlockAt(j);
    StandardParts(h, a, c, m);
    GhashParts(h, a, c, m);
    XorSame(cipher.enc(j), MulBlock(Xor(s, l), h), MulBlock(Xor(s, m), h));
    ProductsEqual(s, l, m, h);
  }

  lemma XorSame(x: seq<byte>, y: seq<byte>, z: seq<byte>)
    requires |x| == |y| == |z|
    ensures Xor(x, y) == Xor(x, z) <==> y == z
  {
    hide Xor;
    XorCancels(y, x);
    XorCancels(z, x);
    XorCommutes(x, y);
    XorCommutes(x, z);
  }

  lemma XorZero(x: seq<byte>, y: seq<byte>)
    requires |x| == |y| == 16
    ensures Xor(x, y) == Zeros(16) <==> x == y
  {
    hide Xor;
    SelfSum(y);
    XorSame(y, x, y);
    XorCommutes(x, y);
  }

  lemma SelfSum(x: seq<byte>)
    ensures Xor(x, x) == Zeros(|x|)
  {
    forall i | 0 <= i < |x| ensures Xor(x, x)[i] == 0 {
      NoSum(x[i]);
    }
  }

  lemma NoSum(a: byte)
    ensures Sum(a, a) == 0
  {
  }

  // In particular it is whenever all three numbers of bits fit, as they do below 2^29 octets.
  lemma TagIsStandard(cipher: Cipher, iv: seq<byte>, a: seq<byte>, c: seq<byte>)
    requires cipher.Valid() && cipher.blockSize == 16 && Short(|iv|) && Short(|a|) && Short(|c|)
    ensures Tag(cipher, iv, a, c) == StandardTag(cipher, iv, a, c)
  {
    hide Ghash, MulBlock, Xor, Padded, Be32, Be64, Short, Lengths;
    var h := HashKey(cipher);
    LengthsExact(|a|, |c|);
    PreCounterIsStandard(h, iv);
    StandardParts(h, a, c, Lengths(|a|, |c|));
    GhashParts(h, a, c, Lengths(|a|, |c|));
  }

  // ---------------------------------------------------------------- the ciphertext

  // Octet i of the message is added to octet i % 16 of the encrypted block that follows the
  // pre-counter block by i / 16 + 1 (sections 6.5 and 7.1 of SP 800-38D).
  lemma CiphertextAt(cipher: Cipher, iv: seq<byte>, p: seq<byte>, i: nat)
    requires cipher.Valid() && cipher.blockSize == 16 && Short(|iv|) && i < |p| && |cipher.enc(Zeros(16))| == 16
    ensures var b := BlockAfter(StandardPreCounter(cipher.enc(Zeros(16)), iv), 4, i / 16 + 1);
      |cipher.enc(b)| == 16 && Ciphertext(cipher, iv, p)[i] == Sum(p[i], cipher.enc(b)[i % 16])
  {
    hide PreCounter, StandardPreCounter, Sum, BlockAfter, Gctr, Short;
    PreCounterIsStandard(HashKey(cipher), iv);
    GctrAt(cipher, 4, PreCounter(HashKey(cipher), iv), p, i);
  }

  // With a nonce of 12 octets that is the nonce followed by i / 16 + 2, in 32 bits.
  lemma CiphertextAt96(cipher: Cipher, iv: seq<byte>, p: seq<byte>, i: nat)
    requires cipher.Valid() && cipher.blockSize == 16 && |iv| == 12 && i < |p|
    ensures var b := iv + Be32(i / 16 + 2);
      |cipher.enc(b)| == 16 && Ciphertext(cipher, iv, p)[i] == Sum(p[i], cipher.enc(b)[i % 16])
  {
    hide Sum, BlockAfter, Gctr, Be32;
    GctrAt(cipher, 4, iv + Be32(1), p, i);
    CountsUp(iv, 1, i / 16 + 1);
  }

  lemma {:induction false} CountsUp(x: seq<byte>, n: nat, k: nat)
    ensures BlockAfter(x + Be32(n), 4, k) == x + Be32(n + k)
  {
    hide Be32, Incremented;
    if k > 0 {
      CountsUp(x, n, k - 1);
      NextWord(n + k - 1);
      var b := x + Be32(n + k - 1);
      assert b[..|b| - 4] == x && b[|b| - 4..] == Be32(n + k - 1);
    }
  }

  lemma NextWord(n: nat)
    ensures Incremented(Be32(n)) == Be32(n + 1)
  {
    hide Be32, Incremented, BeNat;
    IncrementedValue(Be32(n));
    WordNumber(n);
    WordNumber(n + 1);
    assert Pow256(4) == 256 * Pow256(3) && Pow256(3) == 256 * Pow256(2) && Pow256(2) == 256 * Pow256(1);
    NextRemainder(n);
    BeNatInjective(Incremented(Be32(n)), Be32(n + 1));
  }

  lemma NextRemainder(n: nat)
    ensures (n + 1) % 0x1_0000_0000 == if n % 0x1_0000_0000 + 1 == 0x1_0000_0000 then 0 else n % 0x1_0000_0000 + 1
  {
  }
}
