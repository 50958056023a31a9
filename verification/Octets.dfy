/** Octets of numbers, and octets filled up to whole blocks. */
module Octets {
  import opened Blocks
  import opened Counter

  // ---------------------------------------------------------------- numbers in octets

  lemma OctetInjective(a: nat, b: nat)
    requires a < 256 && b < 256 && Octet(a) == Octet(b)
    ensures a == b
  {
    OctetValue(a);
    OctetValue(b);
  }

  lemma Be32Value(a: nat)
    ensures a % 0x1_0000_0000 == 0x1000000 * (Octet(a / 0x1000000) as nat) + 0x10000 * (Octet(a / 0x10000) as nat)
      + 0x100 * (Octet(a / 0x100) as nat) + Octet(a) as nat
  {
    hide Octet;
    OctetValue(a / 0x1000000);
    OctetValue(a / 0x10000);
    OctetValue(a / 0x100);
    OctetValue(a);
    Digits(a);
  }

  lemma Digits(a: nat)
    ensures a % 0x1_0000_0000
      == 0x1000000 * (a / 0x1000000 % 256) + 0x10000 * (a / 0x10000 % 256) + 0x100 * (a / 0x100 % 256) + a % 256
  {
    var b := a / 0x100;
    var c := b / 0x100;
    var e := c / 0x100;
    assert a / 0x10000 == c && a / 0x1000000 == e;
    assert a == 0x1_0000_0000 * (e / 0x100) + 0x1000000 * (e % 0x100) + 0x10000 * (c % 0x100) + 0x100 * (b % 0x100) + a % 0x100;
  }

  lemma Be32Injective(a: nat, b: nat)
    requires Be32(a) == Be32(b)
    ensures a % 0x1_0000_0000 == b % 0x1_0000_0000
  {
    hide Octet;
    var x, y := Be32(a), Be32(b);
    Be32Value(a);
    Be32Value(b);
    assert x[0] == y[0] && x[1] == y[1] && x[2] == y[2] && x[3] == y[3];
  }

  lemma OctetCongruent(a: nat, b: nat)
    requires a % 256 == b % 256
    ensures Octet(a) == Octet(b)
  {
  }

  lemma Be32Congruent(a: nat, b: nat, k: nat)
    requires b == a + 0x1_0000_0000 * k
    ensures Be32(a) == Be32(b)
  {
    hide Octet;
    HighOctet(a, b, k);
    OctetCongruent(a, b);
    OctetCongruent(a / 0x100, b / 0x100);
    OctetCongruent(a / 0x10000, b / 0x10000);
    OctetCongruent(a / 0x1000000, b / 0x1000000);
  }

  lemma HighOctet(a: nat, b: nat, k: nat)
    requires b == a + 0x1_0000_0000 * k
    ensures b % 256 == a % 256 && b / 0x100 % 256 == a / 0x100 % 256
    ensures b / 0x10000 % 256 == a / 0x10000 % 256 && b / 0x1000000 % 256 == a / 0x1000000 % 256
  {
    OctetDown(a, b, 0x1000000 * k);
    OctetDown(a / 0x100, b / 0x100, 0x10000 * k);
    OctetDown(a / 0x100 / 0x100, b / 0x100 / 0x100, 0x100 * k);
    OctetDown(a / 0x100 / 0x100 / 0x100, b / 0x100 / 0x100 / 0x100, k);
    HighParts(a);
    HighParts(b);
  }

  lemma OctetDown(a: nat, b: nat, m: nat)
    requires b == a + 256 * m
    ensures b / 0x100 == a / 0x100 + m && b % 256 == a % 256
  {
  }

  lemma HighParts(a: nat)
    ensures a / 0x10000 == a / 0x100 / 0x100 && a / 0x1000000 == a / 0x100 / 0x100 / 0x100
  {
  }

  lemma WordNumber(n: nat)
    ensures BeNat(Be32(n)) == n % 0x1_0000_0000
  {
    hide Octet;
    Be32Value(n);
    var s := Be32(n);
    assert s[..3] == [s[0], s[1], s[2]] && s[..3][..2] == [s[0], s[1]] && s[..3][..2][..1] == [s[0]];
    assert s[..3][..2][..1][..0] == [];
    assert BeNat(s[..3][..2][..1]) == s[0] as nat;
    assert BeNat(s[..3][..2]) == 256 * (s[0] as nat) + s[1] as nat;
  }

  // ---------------------------------------------------------------- whole blocks

  // Filled up with zeros to whole blocks
  function Padded(d: seq<byte>): (r: seq<byte>)
    ensures |r| == (|d| + 15) / 16 * 16 && |r| >= |d| && |r| % 16 == 0
  {
    d + Zeros((|d| + 15) / 16 * 16 - |d|)
  }

  lemma PaddedLaws(d: seq<byte>)
    ensures d == [] ==> Padded(d) == []
    ensures |d| >= 16 ==> Padded(d)[..16] == d[..16] && Padded(d)[16..] == Padded(d[16..])
    ensures 0 < |d| < 16 ==> Padded(d) == d + Zeros(16 - |d|)
  {
  }

  lemma PaddedInjective(c: seq<byte>, d: seq<byte>)
    requires |c| == |d| && Padded(c) == Padded(d)
    ensures c == d
  {
    assert c == Padded(c)[..|c|] && d == Padded(d)[..|d|];
  }

  lemma XorZeros(y: seq<byte>, d: seq<byte>)
    requires |d| <= |y|
    ensures XorPrefix(y, d + Zeros(|y| - |d|)) == XorPrefix(y, d)
  {
    hide Xor;
    var e := d + Zeros(|y| - |d|);
    forall i | 0 <= i < |y| ensures XorPrefix(y, e)[i] == XorPrefix(y, d)[i] {
      assert y[..|y|] == y;
      XorAt(y, e, i);
      if i < |d| {
        XorAt(y[..|d|], d, i);
      } else {
        SumZero(y[i]);
      }
    }
  }

  lemma SumZero(a: byte)
    ensures Sum(a, 0) == a && Sum(0, a) == a
  {
  }
}
