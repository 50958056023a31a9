/** What the octets of asn1.c stand for, by section 8 of ITU-T X.690. */
module X690 {
  import opened Asn1

  // The number of octets with eight bits each, and with seven, most significant first
  function Base256(s: seq<octet>): nat {
    if s == [] then 0 else 256 * Base256(s[..|s| - 1]) + s[|s| - 1]
  }

  function Base128(s: seq<octet>): nat {
    if s == [] then 0 else 128 * Base128(s[..|s| - 1]) + s[|s| - 1] % 128
  }

  // Section 8.3.3: two's complement
  function TwosComplement(s: seq<octet>): int {
    if s == [] then 0 else Base256(s) - (if s[0] >= 128 then Pow(256, |s|) else 0)
  }

  // Section 8.1.2.4: bit 8 is set in all octets but the last, and the first is not zero.
  predicate Continues(s: seq<octet>) {
    && s != [] && s[|s| - 1] < 128 && (forall i | 0 <= i < |s| - 1 :: s[i] >= 128)
    && (|s| > 1 ==> s[0] != 128)
  }

  // ---------------------------------------------------------------- what is written

  lemma {:induction false} BigEndianNumber(n: nat, v: nat)
    requires v < Pow(256, n)
    ensures Base256(BigEndian(n, v)) == v
  {
    if n > 0 {
      BigEndianNumber(n - 1, v / 256);
      var r := BigEndian(n, v);
      assert r[..|r| - 1] == BigEndian(n - 1, v / 256);
    }
  }

  lemma {:induction false} ContinuedNumber(k: nat, u: nat)
    requires u < Pow(128, k)
    ensures Base128(Continued(k, u)) == u && forall i | 0 <= i < k :: Continued(k, u)[i] >= 128
    ensures k > 0 && u >= Pow(128, k - 1) ==> Continued(k, u)[0] != 128
  {
    if k > 0 {
      ContinuedNumber(k - 1, u / 128);
      var r := Continued(k, u);
      assert r[..|r| - 1] == Continued(k - 1, u / 128);
      if k > 1 && u >= Pow(128, k - 1) {
        assert Pow(128, k - 1) == 128 * Pow(128, k - 2);
        assert r[0] == Continued(k - 1, u / 128)[0];
      }
    }
  }

  lemma NumberOctetsMean(m: nat, kind: nat)
    requires m > 0 && kind < Pow(128, m) && (m > 1 ==> kind >= Pow(128, m - 1))
    ensures Continues(NumberOctets(m, kind)) && Base128(NumberOctets(m, kind)) == kind
  {
    hide Continued;
    var c, r := Continued(m - 1, kind / 128), NumberOctets(m, kind);
    if m > 1 {
      assert Pow(128, m) == 128 * Pow(128, m - 1) && Pow(128, m - 1) == 128 * Pow(128, m - 2);
    } else {
      assert Pow(128, 1) == 128 * Pow(128, 0);
    }
    ContinuedNumber(m - 1, kind / 128);
    assert r[..|r| - 1] == c && r[|r| - 1] == kind % 128;
  }

  // The header that asn1WriteTag writes: class, encoding and tag number in the identifier octets,
  // then the definite length, short or long.
  lemma HeaderMeans(t: Tag)
    requires t.Valid()
    ensures
      var h, m, n := Header(t), NumberSize(t.kind), LengthSize(t.length);
      && |h| == m + n + 2
      && h[0] / 64 * 64 == t.cls && (h[0] / 32 % 2 == 1 <==> t.constructed)
      && (if t.kind < 31 then m == 0 && h[0] % 32 == t.kind
          else h[0] % 32 == 31 && Continues(h[1..m + 1]) && Base128(h[1..m + 1]) == t.kind)
      && (if t.length < 128 then n == 0 && h[m + 1] == t.length
          else h[m + 1] == 128 + n && 1 <= n <= 4 && Base256(h[m + 2..]) == t.length)
  {
    hide NumberOctets, BigEndian, NumberSize, LengthSize;
    var h, m, n := Header(t), NumberSize(t.kind), LengthSize(t.length);
    SizesAreMinimal(t.kind, t.length);
    SmallSizes(t.kind, t.length);
    FirstOctetMeans(t);
    assert h[0] == Identifier(t)[0];
    if t.kind >= 31 {
      NumberOctetsMean(m, t.kind);
      assert h[1..m + 1] == NumberOctets(m, t.kind);
    }
    assert h[m + 1..] == LengthField(t.length);
    assert h[m + 1] == LengthField(t.length)[0];
    if t.length >= 128 {
      BigEndianNumber(n, t.length);
      assert h[m + 2..] == h[m + 1..][1..] == BigEndian(n, t.length);
    }
  }

  lemma SmallSizes(kind: nat, length: nat)
    ensures kind < 31 <==> NumberSize(kind) == 0
    ensures length < 128 <==> LengthSize(length) == 0
    ensures LengthSize(length) <= 4
  {
  }

  lemma FirstOctetMeans(t: Tag)
    requires t.Valid()
    ensures var x := Identifier(t)[0];
      && x / 64 * 64 == t.cls && (x / 32 % 2 == 1 <==> t.constructed)
      && x % 32 == if t.kind < 31 then t.kind else 31
  {
    hide NumberOctets, NumberSize;
    SmallSizes(t.kind, t.length);
    ThreeFields(t.cls / 64, if t.constructed then 1 else 0, if t.kind < 31 then t.kind else 31);
  }

  lemma ThreeFields(a: nat, b: nat, k: nat)
    requires b < 2 && k < 32
    ensures var x := 64 * a + 32 * b + k; x / 64 == a && x / 32 % 2 == b && x % 32 == k
  {
    var x := 64 * a + 32 * b + k;
    assert x / 32 == 2 * a + b;
  }

  // The integer that asn1WriteInt32 writes: universal class, primitive, tag number 2, and the
  // contents in two's complement.
  lemma IntEncodingMeans(v: int)
    requires Int32(v)
    ensures
      var e := IntEncoding(v);
      e[0] == 2 && e[1] == |e| - 2 && TwosComplement(e[2..]) == v
  {
    hide IntOctets, IntSize;
    var n, e := IntSize(v), IntEncoding(v);
    assert e[2..] == IntOctets(n, v);
    IntOctetsMean(n, v);
  }

  lemma IntOctetsMean(n: nat, v: int)
    requires 1 <= n <= 4 && FitsOctets(v, n)
    ensures TwosComplement(IntOctets(n, v)) == v
  {
    hide IntOctets, FitsOctets;
    LowOctets(n, v);
    SignBit(v, n);
  }

  // The octets are those of v without what is left beyond them.
  lemma {:induction false} LowOctets(n: nat, v: int)
    ensures Base256(IntOctets(n, v)) == v - Pow(256, n) * ShiftRight(v, n)
  {
    hide Base256, IntOctets, ShiftRight;
    if n == 0 {
      NoOctets(v);
    } else {
      LowOctets(n - 1, v / 256);
      ShiftOnce(v, n - 1);
      OneOctetMore(n, v);
      Scaled(Pow(256, n - 1), ShiftRight(v, n));
    }
  }

  lemma NoOctets(v: int)
    ensures Base256(IntOctets(0, v)) == 0 && ShiftRight(v, 0) == v
  {
  }

  lemma OneOctetMore(n: nat, v: int)
    requires n > 0
    ensures Base256(IntOctets(n, v)) == 256 * Base256(IntOctets(n - 1, v / 256)) + v % 256
  {
    var r := IntOctets(n, v);
    assert r[..|r| - 1] == IntOctets(n - 1, v / 256);
  }

  lemma Scaled(p: nat, q: int)
    ensures 256 * (p * q) == (256 * p) * q
  {
  }

  // ---------------------------------------------------------------- what is read

  predicate Ends(s: seq<octet>) { s != [] && s[|s| - 1] < 128 && forall i | 0 <= i < |s| - 1 :: s[i] >= 128 }

  // The input starts with a header of m octets more for the tag number and n more for the length
  // that says t. The last octet of the length may be the one that follows the input.
  predicate HeaderSays(data: seq<octet>, beyond: octet, t: Tag, m: nat, n: nat) {
    && m + 1 < |data| && m <= 5 && n <= 4
    && t.cls == data[0] / 64 * 64 && (t.constructed <==> data[0] / 32 % 2 == 1)
    && (if m == 0 then data[0] % 32 < 31 && t.kind == data[0] % 32
        else data[0] % 32 == 31 && Ends(data[1..m + 1]) && t.kind == U32(Base128(data[1..m + 1])))
    && (if n == 0 then data[m + 1] < 128 && t.length == data[m + 1]
        else data[m + 1] == 128 + n && m + n < |data| && t.length == Base256((data + [beyond])[m + 2..m + 2 + n]))
  }

  // The contents end within the input; when the header does not, nothing is checked.
  predicate ContentsFit(data: seq<octet>, t: Tag, start: nat) { start <= |data| ==> start + t.length <= |data| }

  // asn1ReadTag accepts exactly such inputs, and returns what the header says.
  lemma DecodeExact(data: seq<octet>, beyond: octet)
    requires |data| < WORD
    ensures Decode(data, beyond).Ok? <==>
      exists t, m: nat, n: nat :: HeaderSays(data, beyond, t, m, n) && ContentsFit(data, t, m + n + 2)
    ensures forall t, m: nat, n: nat :: HeaderSays(data, beyond, t, m, n) && ContentsFit(data, t, m + n + 2) ==>
      Decode(data, beyond) == Ok(t, m + n + 2, U32(m + n + 2 + t.length))
  {
    hide HeaderSays, ContentsFit;
    if Decode(data, beyond).Ok? {
      var t, m, n := HeaderFound(data, beyond);
    }
    forall t, m: nat, n: nat | HeaderSays(data, beyond, t, m, n) && ContentsFit(data, t, m + n + 2)
      ensures Decode(data, beyond) == Ok(t, m + n + 2, U32(m + n + 2 + t.length))
    {
      HeaderRead(data, beyond, t, m, n);
    }
  }

  lemma HeaderRead(data: seq<octet>, beyond: octet, t: Tag, m: nat, n: nat)
    requires |data| < WORD && HeaderSays(data, beyond, t, m, n) && ContentsFit(data, t, m + n + 2)
    ensures Decode(data, beyond) == Ok(t, m + n + 2, U32(m + n + 2 + t.length))
  {
    hide NumberFrom, LengthThen, Base128, Base256, Ends, U32;
    if m > 0 {
      NumberFound(data, m);
    }
    LengthRead(data, beyond, t, m, n);
  }

  lemma LengthRead(data: seq<octet>, beyond: octet, t: Tag, m: nat, n: nat)
    requires |data| < WORD && HeaderSays(data, beyond, t, m, n) && ContentsFit(data, t, m + n + 2)
    ensures LengthThen(data, beyond, t.constructed, t.cls, t.kind, m + 1)
      == Ok(t, m + n + 2, U32(m + n + 2 + t.length))
  {
    hide LengthFrom, Base128, Base256, Ends;
    if n > 0 {
      LengthIs(data, beyond, m + 2, n);
    }
    RoomFor(data, t, m + n + 2);
  }

  lemma RoomFor(data: seq<octet>, t: Tag, start: nat)
    requires |data| < WORD && t.length < WORD && start <= |data| + 1 && ContentsFit(data, t, start)
    ensures U32(|data| - start) >= t.length
  {
  }

  lemma HeaderFound(data: seq<octet>, beyond: octet) returns (t: Tag, m: nat, n: nat)
    requires |data| < WORD && Decode(data, beyond).Ok?
    ensures HeaderSays(data, beyond, t, m, n) && ContentsFit(data, t, m + n + 2)
  {
    hide NumberFrom, LengthThen, Base128, Base256, Ends, U32, ContentsFit;
    t := Decode(data, beyond).tag;
    var constructed, cls, kind := data[0] / 32 % 2 == 1, data[0] / 64 * 64, data[0] % 32;
    if kind < 31 {
      m := 0;
    } else {
      m := FirstEnd(data, 1, 0);
      NumberFound(data, m);
      kind := U32(Base128(data[1..m + 1]));
    }
    n := LengthFound(data, beyond, constructed, cls, kind, m);
  }

  lemma LengthFound(data: seq<octet>, beyond: octet, constructed: bool, cls: nat, kind: nat, m: nat) returns (n: nat)
    requires m < |data| < WORD && LengthThen(data, beyond, constructed, cls, kind, m + 1).Ok?
    ensures
      var t := LengthThen(data, beyond, constructed, cls, kind, m + 1).tag;
      && t.constructed == constructed && t.cls == cls && t.kind == kind
      && m + 1 < |data| && n <= 4 && ContentsFit(data, t, m + n + 2)
      && (if n == 0 then data[m + 1] < 128 && t.length == data[m + 1]
          else data[m + 1] == 128 + n && m + n < |data| && t.length == Base256((data + [beyond])[m + 2..m + 2 + n]))
  {
    hide LengthFrom, Base256;
    if data[m + 1] < 128 {
      n := 0;
    } else {
      n := data[m + 1] % 128;
      LengthIs(data, beyond, m + 2, n);
    }
  }

  lemma NumberFound(data: seq<octet>, m: nat)
    requires 1 <= m <= 5 && m < |data| && Ends(data[1..m + 1])
    ensures NumberFrom(data, 1, 0) == Number(U32(Base128(data[1..m + 1])), m + 1)
  {
    forall j | 1 <= j < m ensures data[j] >= 128 {
      assert data[1..m + 1][j - 1] >= 128;
    }
    NumberSoFar(data, m);
    assert data[m] == data[1..m + 1][m - 1];
    OneMoreDigit(data, m);
  }

  // What has been read before position i
  lemma {:induction false} NumberSoFar(data: seq<octet>, i: nat)
    requires 1 <= i <= |data| && i <= 6 && forall j | 1 <= j < i :: data[j] >= 128
    ensures NumberFrom(data, 1, 0) == NumberFrom(data, i, U32(Base128(data[1..i])))
  {
    if i == 1 {
      assert data[1..1] == [];
    } else {
      NumberSoFar(data, i - 1);
      OneMoreDigit(data, i - 1);
    }
  }

  lemma OneMoreDigit(data: seq<octet>, i: nat)
    requires 1 <= i < |data|
    ensures U32(U32(Base128(data[1..i])) * 128) + data[i] % 128 == U32(Base128(data[1..i + 1]))
  {
    hide U32;
    var s := data[1..i + 1];
    assert s[..|s| - 1] == data[1..i] && s[|s| - 1] == data[i];
    SevenBitsMore(Base128(data[1..i]), data[i] % 128);
  }

  lemma SevenBitsMore(x: nat, d: nat)
    requires d < 128
    ensures U32(U32(x) * 128) + d == U32(128 * x + d)
  {
    var q, r := x / WORD, x % WORD;
    assert x * 128 == 128 * q * WORD + r * 128;
    assert (r * 128) % WORD % 128 == 0;
  }

  lemma EightBitsMore(x: nat, d: nat)
    requires d < 256
    ensures U32(U32(x) * 256) + d == U32(256 * x + d)
  {
    var q, r := x / WORD, x % WORD;
    assert x * 256 == 256 * q * WORD + r * 256;
    assert (r * 256) % WORD % 256 == 0;
  }

  lemma {:induction false} FirstEnd(data: seq<octet>, i: nat, kind: nat) returns (m: nat)
    requires 1 <= i <= |data| && NumberFrom(data, i, kind).Number? && forall j | 1 <= j < i :: data[j] >= 128
    ensures i <= m <= 5 && m < |data| && Ends(data[1..m + 1])
    decreases |data| - i
  {
    if data[i] < 128 {
      m := i;
    } else {
      m := FirstEnd(data, i + 1, U32(kind * 128) + data[i] % 128);
    }
  }

  lemma LengthIs(data: seq<octet>, beyond: octet, i: nat, n: nat)
    requires n <= 4 && i + n <= |data| + 1
    ensures LengthFrom(data, beyond, i, n, 0) == Base256((data + [beyond])[i..i + n]) < WORD
  {
    hide LengthFrom;
    var s := (data + [beyond])[i..i + n];
    LengthSoFar(data, beyond, i, n, n);
    Below(s);
    Powers();
    LengthNothing(data, beyond, i + n, U32(Base256(s)));
  }

  lemma {:induction false} LengthSoFar(data: seq<octet>, beyond: octet, i: nat, n: nat, k: nat)
    requires k <= n && i + n <= |data| + 1
    ensures LengthFrom(data, beyond, i, n, 0) == LengthFrom(data, beyond, i + k, n - k, U32(Base256((data + [beyond])[i..i + k])))
    decreases k
  {
    hide U32;
    var s := data + [beyond];
    if k == 0 {
      ZeroIs();
      assert s[i..i] == [];
    } else {
      LengthSoFar(data, beyond, i, n, k - 1);
      assert s[i..i + k][..k - 1] == s[i..i + k - 1];
      LengthFromStep(data, beyond, i + k - 1, n - k + 1, U32(Base256(s[i..i + k - 1])));
      EightBitsMore(Base256(s[i..i + k - 1]), s[i + k - 1]);
    }
  }

  lemma ZeroIs()
    ensures U32(0) == 0
  {
  }

  lemma {:induction false} Below(s: seq<octet>)
    ensures Base256(s) < Pow(256, |s|)
  {
    if s != [] {
      Below(s[..|s| - 1]);
    }
  }

  // The value that asn1ReadInt32 computes is the number in two's complement, whether or not it has
  // the fewest octets.
  lemma IntReadMeans(data: seq<octet>, beyond: octet, i: nat, n: nat)
    requires 1 <= n <= 4 && i + n <= |data| + 1
    ensures IntAt(data, beyond, i, n) == TwosComplement((data + [beyond])[i..i + n])
  {
    hide IntFrom, Base256, Pow;
    var s, v := (data + [beyond])[i..i + n], if At(data, beyond, i) >= 128 then -1 else 0;
    assert s[0] == At(data, beyond, i);
    IntSoFar(data, beyond, i, n, n, v);
    IntFromNothing(data, beyond, i + n, v * Pow(256, n) + Base256(s));
  }

  lemma {:induction false} IntSoFar(data: seq<octet>, beyond: octet, i: nat, n: nat, k: nat, v: int)
    requires k <= n && i + n <= |data| + 1
    ensures IntFrom(data, beyond, i, n, v)
      == IntFrom(data, beyond, i + k, n - k, v * Pow(256, k) + Base256((data + [beyond])[i..i + k]))
    decreases k
  {
    hide IntFrom, Base256;
    var s := data + [beyond];
    if k == 0 {
      assert s[i..i] == [];
      Nothing();
    } else {
      IntSoFar(data, beyond, i, n, k - 1, v);
      OctetAfter(s, i, k);
      IntFromStep(data, beyond, i + k - 1, n - k + 1, v * Pow(256, k - 1) + Base256(s[i..i + k - 1]));
      Scaled(Pow(256, k - 1), v);
    }
  }

  lemma Nothing()
    ensures Base256([]) == 0
  {
  }

  lemma OctetAfter(s: seq<octet>, i: nat, k: nat)
    requires k > 0 && i + k <= |s|
    ensures Base256(s[i..i + k]) == 256 * Base256(s[i..i + k - 1]) + s[i + k - 1]
  {
    assert s[i..i + k][..k - 1] == s[i..i + k - 1];
  }
}
