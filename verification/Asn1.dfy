/**
 * Tags and integers in the basic encoding rules of ASN.1 (asn1.c). Octets are numbers below
 * 256; masks and shifts are written as division and remainder. Lengths have 32 bits.
 */
module Asn1 {

  type octet = x: int | 0 <= x < 256

  const WORD := 0x1_0000_0000

  function U32(x: int): nat { x % WORD }

  datatype Status = NoError | InvalidTag | WrongEncoding | InvalidClass | InvalidType

  // Identifier and length: cls is a multiple of 64.
  datatype Tag = Tag(constructed: bool, cls: nat, kind: nat, length: nat) {
    predicate Valid() { cls % 64 == 0 && cls < 256 && kind < WORD && length < WORD }
  }

  // ---------------------------------------------------------------- what is written

  // The number of octets after the first for a tag number.
  function NumberSize(kind: nat): nat {
    if kind < 31 then 0 else if kind < 128 then 1 else if kind < 16384 then 2 else if kind < 2097152 then 3
    else if kind < 268435456 then 4 else 5
  }

  // The number of octets after the first for a length.
  function LengthSize(length: nat): nat {
    if length < 128 then 0 else if length < 256 then 1 else if length < 65536 then 2 else if length < 16777216 then 3
    else 4
  }

  // The k octets of u with seven bits each, bit 8 set in all of them
  function Continued(k: nat, u: nat): (r: seq<octet>)
    ensures |r| == k
  {
    if k == 0 then [] else Continued(k - 1, u / 128) + [u % 128 + 128]
  }

  // And with bit 8 clear in the last
  function NumberOctets(m: nat, kind: nat): (r: seq<octet>)
    requires m > 0
    ensures |r| == m
  {
    Continued(m - 1, kind / 128) + [kind % 128]
  }

  function BigEndian(n: nat, v: nat): (r: seq<octet>)
    ensures |r| == n
  {
    if n == 0 then [] else BigEndian(n - 1, v / 256) + [v % 256]
  }

  function Identifier(t: Tag): (r: seq<octet>)
    requires t.Valid()
    ensures |r| == 1 + NumberSize(t.kind)
  {
    var m := NumberSize(t.kind);
    var first := t.cls + (if t.constructed then 32 else 0);
    if m == 0 then [first + t.kind] else [first + 31] + NumberOctets(m, t.kind)
  }

  function LengthField(length: nat): (r: seq<octet>)
    requires length < WORD
    ensures |r| == 1 + LengthSize(length)
  {
    var n := LengthSize(length);
    if n == 0 then [length] else [128 + n] + BigEndian(n, length)
  }

  function Header(t: Tag): (r: seq<octet>)
    requires t.Valid()
    ensures |r| == NumberSize(t.kind) + LengthSize(t.length) + 2
  {
    Identifier(t) + LengthField(t.length)
  }

  // ---------------------------------------------------------------- what is read

  datatype Outcome = Ok(tag: Tag, value: nat, totalLength: nat) | Bad

  datatype Number = Number(kind: nat, next: nat) | NoNumber

  // The octets of a tag number from position i on; at most five are taken.
  function NumberFrom(data: seq<octet>, i: nat, kind: nat): Number
    requires i <= |data|
    decreases |data| - i
  {
    if i > 5 || i == |data| then NoNumber
    else
      var next := U32(kind * 128) + data[i] % 128;
      if data[i] < 128 then Number(next, i + 1) else NumberFrom(data, i + 1, next)
  }

  // An octet of the input, or the octet that follows it in memory.
  function At(data: seq<octet>, beyond: octet, i: nat): octet { if i < |data| then data[i] else beyond }

  function LengthFrom(data: seq<octet>, beyond: octet, i: nat, n: nat, length: nat): nat
    decreases n
  {
    if n == 0 then length else LengthFrom(data, beyond, i + 1, n - 1, U32(length * 256) + At(data, beyond, i))
  }

  function Contents(data: seq<octet>, constructed: bool, cls: nat, kind: nat, length: nat, i: nat): Outcome {
    if U32(|data| - i) < length then Bad else Ok(Tag(constructed, cls, kind, length), i, U32(i + length))
  }

  // From the length field on
  function LengthThen(data: seq<octet>, beyond: octet, constructed: bool, cls: nat, kind: nat, i: nat): Outcome
    requires i <= |data|
  {
    if i == |data| then Bad
    else if data[i] < 128 then Contents(data, constructed, cls, kind, data[i], i + 1)
    else if 128 < data[i] < 255 then
      var n := data[i] % 128;
      if n > 4 then Bad
      else if |data| - i < n then Bad
      else Contents(data, constructed, cls, kind, LengthFrom(data, beyond, i + 1, n, 0), i + 1 + n)
    else Bad
  }

  // asn1ReadTag as a function of the input and the octet that follows it
  function Decode(data: seq<octet>, beyond: octet): Outcome {
    if data == [] then Bad
    else
      var cls, constructed := data[0] / 64 * 64, data[0] / 32 % 2 == 1;
      if data[0] % 32 < 31 then LengthThen(data, beyond, constructed, cls, data[0] % 32, 1)
      else
        match NumberFrom(data, 1, 0)
        case NoNumber => Bad
        case Number(kind, next) =>
          assert next <= |data| by { NumberEnds(data, 1, 0); }
          LengthThen(data, beyond, constructed, cls, kind, next)
  }

  lemma {:induction false} NumberEnds(data: seq<octet>, i: nat, kind: nat)
    requires i <= |data|
    ensures var r := NumberFrom(data, i, kind); r.Number? ==> i < r.next <= |data|
    decreases |data| - i
  {
    if i <= 5 && i < |data| && data[i] >= 128 {
      NumberEnds(data, i + 1, U32(kind * 128) + data[i] % 128);
    }
  }

  class Asn1Tag {
    var constructed: bool
    var cls: nat
    var kind: nat
    var length: nat
    var value: nat
    var totalLength: nat

    ghost function Value(): Outcome
      reads this
    {
      Ok(Tag(constructed, cls, kind, length), value, totalLength)
    }
  }

  // The loop that decodes the tag number
  method ReadNumber(data: array<octet>) returns (ok: bool, kind: nat, i: nat)
    requires data.Length > 0
    ensures NumberFrom(data[..], 1, 0) == if ok then Number(kind, i) else NoNumber
  {
    hide U32;
    ghost var d := data[..];
    kind, i := 0, 1;
    while true
      invariant 1 <= i <= data.Length
      invariant NumberFrom(d, i, kind) == NumberFrom(d, 1, 0)
      decreases data.Length - i
    {
      if i > 5 { return false, kind, i; }
      if data.Length - i == 0 { return false, kind, i; }
      ghost var before := kind;
      kind := U32(kind * 128) + data[i] % 128;
      if data[i] < 128 { break; }
      i := i + 1;
    }
    ok, i := true, i + 1;
  }

  // The loop that reads n octets of a length
  method ReadLength(data: array<octet>, beyond: octet, at: nat, n0: nat) returns (length: nat, i: nat)
    ensures length == LengthFrom(data[..], beyond, at, n0, 0) && i == at + n0
  {
    hide U32;
    length, i := 0, at;
    var n := n0;
    while n > 0
      invariant 0 <= n <= n0 && i == at + n0 - n
      invariant LengthFrom(data[..], beyond, i, n, length) == LengthFrom(data[..], beyond, at, n0, 0)
    {
      length := U32(length * 256) + At(data[..], beyond, i);
      i := i + 1;
      n := n - 1;
    }
  }

  // The second half of asn1ReadTag: the length field from position i0 on
  method ReadRest(data: array<octet>, beyond: octet, tag: Asn1Tag, i0: nat) returns (status: Status)
    requires data.Length < WORD && i0 <= data.Length
    modifies tag
    ensures
      var r := LengthThen(data[..], beyond, old(tag.constructed), old(tag.cls), old(tag.kind), i0);
      if r.Ok? then status == NoError && tag.Value() == r else status == InvalidTag
  {
    hide U32, LengthFrom;
    var length, i := data.Length, i0;
    if length - i == 0 { return InvalidTag; }
    if data[i] < 128 {
      tag.length := data[i];
      i := i + 1;
    } else if data[i] > 128 && data[i] < 255 {
      var n := data[i] % 128;
      if n > 4 { return InvalidTag; }
      if length - i < n { return InvalidTag; }
      var v, next := ReadLength(data, beyond, i + 1, n);
      tag.length := v;
      i := next;
    } else {
      return InvalidTag;
    }
    tag.value := i;
    if U32(length - i) < tag.length { return InvalidTag; }
    tag.totalLength := U32(i + tag.length);
    status := NoError;
  }

  // asn1ReadTag. When the result is an error the tag is left partly filled.
  method ReadTag(data: array<octet>, beyond: octet, tag: Asn1Tag) returns (status: Status)
    requires data.Length < WORD
    modifies tag
    ensures status == if Decode(data[..], beyond).Ok? then NoError else InvalidTag
    ensures status == NoError ==> tag.Value() == Decode(data[..], beyond)
  {
    hide NumberFrom, LengthThen;
    var i := 1;
    if data.Length == 0 { return InvalidTag; }
    tag.cls := data[0] / 64 * 64;
    tag.constructed := data[0] / 32 % 2 == 1;
    if data[0] % 32 < 31 {
      tag.kind := data[0] % 32;
    } else {
      var ok, kind, next := ReadNumber(data);
      tag.kind := kind;
      if !ok { return InvalidTag; }
      NumberEnds(data[..], 1, 0);
      i := next;
    }
    status := ReadRest(data, beyond, tag, i);
  }

  // ---------------------------------------------------------------- writing

  // was with d written from position at on
  function Put(was: seq<octet>, at: nat, d: seq<octet>): (r: seq<octet>)
    requires at + |d| <= |was|
    ensures |r| == |was|
  {
    was[..at] + d + was[at + |d|..]
  }

  // v shifted right by i groups of seven and of eight bits.
  function Shift7(v: nat, i: nat): nat { if i == 0 then v else Shift7(v, i - 1) / 128 }
  function Shift8(v: nat, i: nat): nat { if i == 0 then v else Shift8(v, i - 1) / 256 }

  // The octets of the tag number, from the last one backwards.
  method WriteNumber(data: array<octet>, at: nat, m: nat, kind: nat)
    requires 0 < m && at + m < data.Length
    modifies data
    ensures data[..] == Put(old(data[..]), at + 1, NumberOctets(m, kind))
  {
    hide Put, Continued, Shift7;
    ghost var was := data[..];
    ghost var tail: seq<octet> := [];
    PutNothing(was, at + m + 1);
    ShiftNothing(kind);
    for i := 0 to m
      invariant |tail| == i && data[..] == Put(was, at + m + 1 - i, tail)
      invariant i == 0 || NumberOctets(m, kind) == Continued(m - i, Shift7(kind, i)) + tail
    {
      ghost var x: octet := Shift7(kind, i) % 128 + (if i != 0 then 128 else 0);
      PutBefore(was, at + m + 1 - i, tail, x);
      NumberStep(m, kind, i, tail);
      data[at + m - i] := Shift7(kind, i) % 128;
      if i != 0 {
        data[at + m - i] := data[at + m - i] + 128;
      }
      assert data[..] == Put(was, at + m + 1 - i, tail)[at + m - i := x];
      tail := [x] + tail;
    }
    ContinuedNothing(Shift7(kind, m));
    NothingBefore(tail);
  }

  lemma PutNothing(was: seq<octet>, at: nat)
    requires at <= |was|
    ensures Put(was, at, []) == was
  {
  }

  lemma PutBefore(was: seq<octet>, at: nat, tail: seq<octet>, x: octet)
    requires 0 < at && at + |tail| <= |was|
    ensures Put(was, at, tail)[at - 1 := x] == Put(was, at - 1, [x] + tail)
  {
  }

  lemma ShiftNothing(v: nat)
    ensures Shift7(v, 0) == v && Shift8(v, 0) == v
  {
  }

  lemma ContinuedNothing(u: nat)
    ensures Continued(0, u) == []
  {
  }

  lemma NumberStep(m: nat, kind: nat, i: nat, tail: seq<octet>)
    requires i < m && (i == 0 ==> tail == [])
    requires i == 0 || NumberOctets(m, kind) == Continued(m - i, Shift7(kind, i)) + tail
    ensures
      var x: octet := Shift7(kind, i) % 128 + (if i != 0 then 128 else 0);
      NumberOctets(m, kind) == Continued(m - i - 1, Shift7(kind, i + 1)) + ([x] + tail)
  {
    if i == 0 {
      assert Shift7(kind, 1) == Shift7(kind, 0) / 128;
    } else {
      var c := Continued(m - i - 1, Shift7(kind, i + 1));
      assert Shift7(kind, i + 1) == Shift7(kind, i) / 128;
      var x: octet := Shift7(kind, i) % 128 + 128;
      assert c + [x] + tail == c + ([x] + tail);
    }
  }

  // The octets of a length, from the last one backwards.
  method WriteBigEndian(data: array<octet>, at: nat, n: nat, v: nat)
    requires at + n < data.Length
    modifies data
    ensures data[..] == Put(old(data[..]), at + 1, BigEndian(n, v))
  {
    hide Put, BigEndian, Shift8;
    ghost var was := data[..];
    ghost var tail: seq<octet> := [];
    PutNothing(was, at + n + 1);
    ShiftNothing(v);
    BigEndianStart(n, v);
    for i := 0 to n
      invariant |tail| == i && data[..] == Put(was, at + n + 1 - i, tail)
      invariant BigEndian(n, v) == BigEndian(n - i, Shift8(v, i)) + tail
    {
      ghost var x: octet := Shift8(v, i) % 256;
      PutBefore(was, at + n + 1 - i, tail, x);
      BigEndianStep(n, v, i, tail);
      data[at + n - i] := Shift8(v, i) % 256;
      assert data[..] == Put(was, at + n + 1 - i, tail)[at + n - i := x];
      tail := [x] + tail;
    }
    BigEndianNothing(Shift8(v, n));
    NothingBefore(tail);
  }

  lemma BigEndianStart(n: nat, v: nat)
    ensures BigEndian(n, v) == BigEndian(n, v) + []
  {
  }

  lemma BigEndianNothing(v: nat)
    ensures BigEndian(0, v) == []
  {
  }

  lemma BigEndianStep(n: nat, v: nat, i: nat, tail: seq<octet>)
    requires i < n && BigEndian(n, v) == BigEndian(n - i, Shift8(v, i)) + tail
    ensures BigEndian(n, v) == BigEndian(n - i - 1, Shift8(v, i + 1)) + ([Shift8(v, i) % 256] + tail)
  {
    var c := BigEndian(n - i - 1, Shift8(v, i + 1));
    assert Shift8(v, i + 1) == Shift8(v, i) / 256;
    assert c + [Shift8(v, i) % 256] + tail == c + ([Shift8(v, i) % 256] + tail);
  }

  lemma NothingBefore(tail: seq<octet>)
    ensures [] + tail == tail
  {
  }

  lemma PutTwice(was: seq<octet>, at: nat, c: seq<octet>, d: seq<octet>)
    requires at + |c| + |d| <= |was|
    ensures Put(Put(was, at, c), at + |c|, d) == Put(was, at, c + d)
    ensures Put(Put(was, at + |c|, d), at, c) == Put(was, at, c + d)
  {
  }

  // The header at position at
  method WriteHeader(data: array<octet>, at: nat, t: Tag)
    requires t.Valid() && at + |Header(t)| <= data.Length
    modifies data
    ensures data[..] == Put(old(data[..]), at, Header(t))
  {
    hide Put, NumberOctets, BigEndian, NumberSize, LengthSize;
    ghost var was := data[..];
    var m, n := NumberSize(t.kind), LengthSize(t.length);
    var first: nat := t.cls;
    if t.constructed {
      first := first + 32;
    }
    if m == 0 {
      SmallNumber(t.kind);
      data[at] := first + t.kind;
      PutOne(was, at, first + t.kind);
    } else {
      data[at] := first + 31;
      PutOne(was, at, first + 31);
      WriteNumber(data, at, m, t.kind);
      PutTwice(was, at, [first + 31], NumberOctets(m, t.kind));
    }
    ghost var identified := data[..];
    if n == 0 {
      SmallLength(t.length);
      data[at + 1 + m] := t.length;
      PutOne(identified, at + 1 + m, t.length);
    } else {
      SizeBound(t.length);
      data[at + 1 + m] := 128 + n;
      PutOne(identified, at + 1 + m, 128 + n);
      WriteBigEndian(data, at + 1 + m, n, t.length);
      PutTwice(identified, at + 1 + m, [128 + n], BigEndian(n, t.length));
    }
    PutTwice(was, at, Identifier(t), LengthField(t.length));
  }

  lemma PutOne(was: seq<octet>, at: nat, x: octet)
    requires at < |was|
    ensures was[at := x] == Put(was, at, [x])
  {
  }

  lemma SmallNumber(kind: nat)
    ensures NumberSize(kind) == 0 <==> kind < 31
  {
  }

  lemma SmallLength(length: nat)
    ensures LengthSize(length) == 0 <==> length < 128
  {
  }

  lemma SizeBound(length: nat)
    ensures LengthSize(length) <= 4
  {
  }

  // The contents to copy: none when there is no pointer to them.
  function Body(t: Tag, hasValue: bool, value: seq<octet>): (b: seq<octet>)
    requires hasValue ==> |value| >= t.length
  {
    if hasValue then value[..t.length] else []
  }

  // memmove of the contents to position at
  method WriteBody(data: array<octet>, at: nat, body: seq<octet>)
    requires at + |body| <= data.Length
    modifies data
    ensures data[..] == Put(old(data[..]), at, body)
  {
    hide Put;
    ghost var was := data[..];
    PutNothing(was, at);
    assert body[..0] == [];
    for i := 0 to |body|
      invariant data[..] == Put(was, at, body[..i])
    {
      PutNext(was, at, body, i);
      data[at + i] := body[i];
      assert data[..] == Put(was, at, body[..i])[at + i := body[i]];
    }
    assert body[..|body|] == body;
  }

  lemma PutNext(was: seq<octet>, at: nat, body: seq<octet>, i: nat)
    requires i < |body| && at + |body| <= |was|
    ensures Put(was, at, body[..i])[at + i := body[i]] == Put(was, at, body[..i + 1])
  {
  }

  // asn1WriteTag at position at of the buffer, or ending there when reverse is set. The value
  // is the contents as they are before the call, and there may be no buffer.
  method WriteTag(t: Tag, hasValue: bool, value: seq<octet>, reverse: bool, data: array?<octet>, at: nat)
    returns (totalLength: nat, written: nat)
    requires t.Valid() && (hasValue ==> |value| >= t.length)
    requires data != null && reverse ==> |Header(t)| + |Body(t, hasValue, value)| <= at <= data.Length
    requires data != null && !reverse ==> at + |Header(t)| + |Body(t, hasValue, value)| <= data.Length
    modifies if data == null then {} else {data}
    ensures totalLength == |Header(t)| + t.length
    ensures written == if reverse && !hasValue then |Header(t)| else totalLength
    ensures data != null ==>
      var body := Body(t, hasValue, value);
      var start := if reverse then at - |Header(t)| - |body| else at;
      data[..] == Put(old(data[..]), start, Header(t) + body)
  {
    hide Put, NumberSize, LengthSize, Header;
    HeaderSize(t);
    var m, n := NumberSize(t.kind), LengthSize(t.length);
    if data != null {
      ghost var was := data[..];
      var start := at;
      if reverse {
        if hasValue && t.length > 0 {
          start := start - t.length;
          WriteBody(data, start, value[..t.length]);
        }
        start := start - (m + n + 2);
      } else {
        if hasValue && t.length > 0 {
          WriteBody(data, at + m + n + 2, value[..t.length]);
        }
      }
      ghost var body := Body(t, hasValue, value);
      if body == [] {
        PutNothing(was, start + |Header(t)|);
      }
      assert data[..] == Put(was, start + |Header(t)|, body);
      WriteHeader(data, start, t);
      PutTwice(was, start, Header(t), body);
    }
    totalLength := t.length + m + n + 2;
    if reverse && !hasValue {
      written := m + n + 2;
    } else {
      written := t.length + m + n + 2;
    }
  }

  lemma HeaderSize(t: Tag)
    requires t.Valid()
    ensures |Header(t)| == NumberSize(t.kind) + LengthSize(t.length) + 2
  {
  }

  // ---------------------------------------------------------------- the fewest octets

  function Pow(b: nat, k: nat): nat { if k == 0 then 1 else b * Pow(b, k - 1) }

  // A tag number above 30 takes m octets of seven bits and not fewer, and a length above 127
  // takes n octets and not fewer.
  lemma SizesAreMinimal(kind: nat, length: nat)
    requires kind < WORD && length < WORD
    ensures kind >= 31 ==> var m := NumberSize(kind); kind < Pow(128, m) && (m > 1 ==> kind >= Pow(128, m - 1))
    ensures length >= 128 ==> var n := LengthSize(length); length < Pow(256, n) && (n > 1 ==> length >= Pow(256, n - 1))
  {
    Powers();
  }

  lemma Powers()
    ensures Pow(128, 1) == 128 && Pow(128, 2) == 16384 && Pow(128, 3) == 2097152 && Pow(128, 4) == 268435456
    ensures Pow(128, 5) == 34359738368
    ensures Pow(256, 1) == 256 && Pow(256, 2) == 65536 && Pow(256, 3) == 16777216 && Pow(256, 4) == WORD
  {
    assert Pow(128, 0) == 1 && Pow(256, 0) == 1;
    assert Pow(128, 1) == 128 * Pow(128, 0) && Pow(256, 1) == 256 * Pow(256, 0);
    assert Pow(128, 2) == 128 * Pow(128, 1) && Pow(256, 2) == 256 * Pow(256, 1);
    assert Pow(128, 3) == 128 * Pow(128, 2) && Pow(256, 3) == 256 * Pow(256, 2);
    assert Pow(128, 4) == 128 * Pow(128, 3) && Pow(256, 4) == 256 * Pow(256, 3);
    assert Pow(128, 5) == 128 * Pow(128, 4);
  }

  // ---------------------------------------------------------------- round trip

  // Reading k continued octets from position i on accumulates their value.
  lemma {:induction false} NumberRead(data: seq<octet>, i: nat, k: nat, u: nat)
    requires i + k <= |data| && i + k <= 5 && data[i..i + k] == Continued(k, u) && u < Pow(128, k) && u < WORD
    ensures NumberFrom(data, i, 0) == NumberFrom(data, i + k, u)
    decreases k
  {
    hide WORD, NumberFrom;
    if k == 0 {
      assert u == 0;
    } else {
      SliceParts(data, i, k, Continued(k - 1, u / 128), u % 128 + 128);
      Quotient(u, k);
      NumberRead(data, i, k - 1, u / 128);
      NumberFromStep(data, i + k - 1, u / 128);
      Unshifted(u);
    }
  }

  lemma SliceParts(data: seq<octet>, i: nat, k: nat, init: seq<octet>, last: octet)
    requires 0 < k && i + k <= |data| && data[i..i + k] == init + [last]
    ensures data[i..i + (k - 1)] == init && data[i + k - 1] == last
  {
    var r := data[i..i + k];
    assert |r| == |init| + 1 && r[k - 1] == last && r[..k - 1] == init;
  }

  lemma Quotient(u: nat, k: nat)
    requires k > 0 && u < Pow(128, k) && u < WORD
    ensures u / 128 < Pow(128, k - 1) && u / 128 < WORD
  {
  }

  lemma NumberFromStep(data: seq<octet>, i: nat, kind: nat)
    requires i < |data| && i <= 5
    ensures
      var next := U32(kind * 128) + data[i] % 128;
      NumberFrom(data, i, kind) == if data[i] < 128 then Number(next, i + 1) else NumberFrom(data, i + 1, next)
  {
    hide U32;
  }

  lemma Unshifted(u: nat)
    requires u < WORD
    ensures U32(u / 128 * 128) + u % 128 == u && (u % 128 + 128) % 128 == u % 128
  {
  }

  // The tag number written is the tag number read.
  lemma NumberRoundTrip(data: seq<octet>, m: nat, kind: nat)
    requires 0 < m <= 5 && m < |data| && data[1..1 + m] == NumberOctets(m, kind) && kind < Pow(128, m) && kind < WORD
    ensures NumberFrom(data, 1, 0) == Number(kind, 1 + m)
  {
    hide WORD, NumberFrom;
    SliceParts(data, 1, m, Continued(m - 1, kind / 128), kind % 128);
    Quotient(kind, m);
    NumberRead(data, 1, m - 1, kind / 128);
    NumberFromStep(data, m, kind / 128);
    Unshifted(kind);
    assert kind % 128 % 128 == kind % 128;
  }

  // n octets of a length from position i on
  lemma {:induction false} LengthRead(data: seq<octet>, beyond: octet, i: nat, n: nat, k: nat, v: nat)
    requires i + n <= |data| && k <= n && data[i..i + k] == BigEndian(k, v) && v < Pow(256, k) && v < WORD
    ensures LengthFrom(data, beyond, i, n, 0) == LengthFrom(data, beyond, i + k, n - k, v)
    decreases k
  {
    hide WORD, LengthFrom;
    if k == 0 {
      assert v == 0;
    } else {
      SliceParts(data, i, k, BigEndian(k - 1, v / 256), v % 256);
      Quotient256(v, k);
      LengthRead(data, beyond, i, n, k - 1, v / 256);
      LengthFromStep(data, beyond, i + k - 1, n - k + 1, v / 256);
      Unshifted256(v);
    }
  }

  lemma Quotient256(v: nat, k: nat)
    requires k > 0 && v < Pow(256, k) && v < WORD
    ensures v / 256 < Pow(256, k - 1) && v / 256 < WORD
  {
  }

  lemma LengthFromStep(data: seq<octet>, beyond: octet, i: nat, n: nat, length: nat)
    requires n > 0
    ensures LengthFrom(data, beyond, i, n, length)
      == LengthFrom(data, beyond, i + 1, n - 1, U32(length * 256) + At(data, beyond, i))
  {
    hide U32;
  }

  lemma Unshifted256(v: nat)
    requires v < WORD
    ensures U32(v / 256 * 256) + v % 256 == v
  {
  }

  // The length field
  lemma LengthRoundTrip(data: seq<octet>, beyond: octet, constructed: bool, cls: nat, kind: nat, i: nat, length: nat)
    requires length < WORD && |data| < WORD && i + |LengthField(length)| + length <= |data|
    requires data[i..i + |LengthField(length)|] == LengthField(length)
    ensures
      var at := i + |LengthField(length)|;
      LengthThen(data, beyond, constructed, cls, kind, i) == Ok(Tag(constructed, cls, kind, length), at, at + length)
  {
    hide LengthFrom, BigEndian, Contents, U32;
    var f := LengthField(length);
    var n := LengthSize(length);
    assert data[i] == data[i..i + |f|][0] == f[0];
    SmallLength(length);
    ContentsFit(data, constructed, cls, kind, length, i + |f|);
    if n > 0 {
      SizesAreMinimal(0, length);
      SizeBound(length);
      assert data[i + 1..i + 1 + n] == data[i..i + |f|][1..] == f[1..] == BigEndian(n, length);
      LengthRead(data, beyond, i + 1, n, n, length);
      LengthNothing(data, beyond, i + 1 + n, length);
      assert (128 + n) % 128 == n;
    }
  }

  lemma ContentsFit(data: seq<octet>, constructed: bool, cls: nat, kind: nat, length: nat, i: nat)
    requires |data| < WORD && i + length <= |data|
    ensures Contents(data, constructed, cls, kind, length, i) == Ok(Tag(constructed, cls, kind, length), i, i + length)
  {
  }

  lemma LengthNothing(data: seq<octet>, beyond: octet, i: nat, length: nat)
    ensures LengthFrom(data, beyond, i, 0, length) == length
  {
  }

  // asn1ReadTag recovers what asn1WriteTag wrote, whatever follows: class, encoding, tag
  // number, length, the place of the contents and the total length.
  lemma TagRoundTrip(t: Tag, rest: seq<octet>, beyond: octet)
    requires t.Valid() && |rest| >= t.length && |Header(t)| + |rest| < WORD
    ensures Decode(Header(t) + rest, beyond) == Ok(t, |Header(t)|, |Header(t)| + t.length)
  {
    hide WORD, NumberFrom, LengthThen, NumberOctets;
    var data := Header(t) + rest;
    var id, f := Identifier(t), LengthField(t.length);
    var m := NumberSize(t.kind);
    assert data[0] == id[0];
    assert data[1 + m..1 + m + |f|] == f;
    FirstOctet(t);
    LengthRoundTrip(data, beyond, t.constructed, t.cls, t.kind, 1 + m, t.length);
    if m > 0 {
      SizesAreMinimal(t.kind, 0);
      assert data[1..1 + m] == id[1..] == NumberOctets(m, t.kind);
      NumberRoundTrip(data, m, t.kind);
    }
  }

  lemma FirstOctet(t: Tag)
    requires t.Valid()
    ensures
      var x := Identifier(t)[0];
      && x / 64 * 64 == t.cls && (x / 32 % 2 == 1 <==> t.constructed)
      && x % 32 == (if t.kind < 31 then t.kind else 31)
  {
    hide NumberOctets;
    Masks(t.cls / 64, if t.constructed then 1 else 0, if t.kind < 31 then t.kind else 31);
  }

  lemma Masks(c: nat, e: nat, k: nat)
    requires c < 4 && e < 2 && k < 32
    ensures var x := 64 * c + 32 * e + k; x / 64 * 64 == 64 * c && x / 32 % 2 == e && x % 32 == k
  {
  }

  // ---------------------------------------------------------------- results within the input

  // The octets of the length field that starts at position i are all there.
  predicate LengthComplete(data: seq<octet>, i: nat) {
    i < |data| && (data[i] >= 128 ==> i + 1 + data[i] % 128 <= |data|)
  }

  // Identifier and length field are all there.
  predicate HeaderComplete(data: seq<octet>) {
    && data != []
    && if data[0] % 32 < 31 then LengthComplete(data, 1)
       else var r := NumberFrom(data, 1, 0); r.Number? && LengthComplete(data, r.next)
  }

  // The check of a long length field counts its octets against those from its first one on,
  // so that the field may end one octet past the input. A result lies within the input, and
  // does not depend on what follows, exactly when the header is complete.
  lemma DecodedWithin(data: seq<octet>, beyond: octet, other: octet)
    requires |data| < WORD
    ensures
      var r := Decode(data, beyond);
      r.Ok? ==>
        && (HeaderComplete(data) <==> r.value + r.tag.length <= |data| && r.totalLength == r.value + r.tag.length)
        && (HeaderComplete(data) ==> Decode(data, other) == r)
        && (!HeaderComplete(data) ==> r.value == |data| + 1)
  {
    hide WORD, NumberFrom, LengthThen, LengthComplete;
    if data != [] {
      var constructed, cls := data[0] / 32 % 2 == 1, data[0] / 64 * 64;
      if data[0] % 32 < 31 {
        LengthThenWithin(data, beyond, other, constructed, cls, data[0] % 32, 1);
      } else {
        NumberEnds(data, 1, 0);
        var r := NumberFrom(data, 1, 0);
        if r.Number? {
          LengthThenWithin(data, beyond, other, constructed, cls, r.kind, r.next);
        }
      }
    }
  }

  lemma LengthThenWithin(data: seq<octet>, beyond: octet, other: octet, constructed: bool, cls: nat, kind: nat, i: nat)
    requires |data| < WORD && i <= |data|
    ensures
      var r := LengthThen(data, beyond, constructed, cls, kind, i);
      r.Ok? ==>
        && (LengthComplete(data, i) <==> r.value + r.tag.length <= |data| && r.totalLength == r.value + r.tag.length)
        && (LengthComplete(data, i) ==> LengthThen(data, other, constructed, cls, kind, i) == r)
        && (!LengthComplete(data, i) ==> r.value == |data| + 1)
  {
    hide LengthFrom;
    if i < |data| && 128 < data[i] < 255 && data[i] % 128 <= 4 {
      var n := data[i] % 128;
      if i + 1 + n <= |data| {
        SameLength(data, beyond, other, i + 1, n, 0);
      }
    }
  }

  lemma {:induction false} SameLength(data: seq<octet>, beyond: octet, other: octet, i: nat, n: nat, length: nat)
    requires i + n <= |data|
    ensures LengthFrom(data, beyond, i, n, length) == LengthFrom(data, other, i, n, length)
    decreases n
  {
    hide U32;
    if n > 0 {
      SameLength(data, beyond, other, i + 1, n - 1, U32(length * 256) + At(data, beyond, i));
    }
  }

  // An input that ends before the only octet of its length field is such a case.
  lemma OneOctetShort(beyond: octet)
    ensures
      var data: seq<octet> := [0x04, 0x81];
      Decode(data, beyond) == Ok(Tag(false, 0, 4, beyond), 3, 3 + beyond)
  {
    hide LengthFrom, NumberFrom, Contents;
    var data: seq<octet> := [0x04, 0x81];
    LengthFromStep(data, beyond, 2, 1, 0);
    assert U32(0) == 0 && At(data, beyond, 2) == beyond;
    LengthNothing(data, beyond, 3, beyond);
    PastTheEnd(data, beyond);
  }

  lemma PastTheEnd(data: seq<octet>, length: octet)
    requires |data| == 2
    ensures Contents(data, false, 0, 4, length, 3) == Ok(Tag(false, 0, 4, length), 3, 3 + length)
  {
  }

  // ---------------------------------------------------------------- integers

  predicate Int32(v: int) { -0x8000_0000 <= v < 0x8000_0000 }

  // v fits n octets in two's complement.
  predicate FitsOctets(v: int, n: nat) {
    if n == 1 then -0x80 <= v < 0x80
    else if n == 2 then -0x8000 <= v < 0x8000
    else if n == 3 then -0x80_0000 <= v < 0x80_0000
    else Int32(v)
  }

  // The upper nine bits of the low n octets of v, by an arithmetic shift.
  function UpperNine(v: int, n: nat): nat {
    (if n == 2 then v / 0x80 else if n == 3 then v / 0x8000 else v / 0x80_0000) % 0x200
  }

  // The upper nine bits of an n-octet value are all equal exactly if one octet less is enough.
  lemma NineEqualBits(v: int, n: nat)
    requires 2 <= n <= 4 && FitsOctets(v, n)
    ensures UpperNine(v, n) == 0 || UpperNine(v, n) == 0x1FF <==> FitsOctets(v, n - 1)
  {
  }

  // The fewest octets for v
  function IntSize(v: int): (n: nat)
    requires Int32(v)
    ensures 1 <= n <= 4 && FitsOctets(v, n)
    ensures n > 1 ==> !FitsOctets(v, n - 1)
  {
    if FitsOctets(v, 1) then 1 else if FitsOctets(v, 2) then 2 else if FitsOctets(v, 3) then 3 else 4
  }

  // A signed v shifted right by i octets.
  function ShiftRight(v: int, i: nat): int { if i == 0 then v else ShiftRight(v, i - 1) / 256 }

  // n octets in two's complement
  function IntOctets(n: nat, v: int): (r: seq<octet>)
    ensures |r| == n
  {
    if n == 0 then [] else IntOctets(n - 1, v / 256) + [v % 256]
  }

  function IntEncoding(v: int): (r: seq<octet>)
    requires Int32(v)
    ensures 3 <= |r| <= 6
  {
    [2, IntSize(v)] + IntOctets(IntSize(v), v)
  }

  // The contents octets, from the last one backwards.
  method WriteOctets(data: array<octet>, at: nat, n: nat, v: int)
    requires at + n < data.Length
    modifies data
    ensures data[..] == Put(old(data[..]), at + 1, IntOctets(n, v))
  {
    hide Put, IntOctets, ShiftRight;
    ghost var was := data[..];
    ghost var tail: seq<octet> := [];
    PutNothing(was, at + n + 1);
    IntStart(n, v);
    for i := 0 to n
      invariant |tail| == i && data[..] == Put(was, at + n + 1 - i, tail)
      invariant IntOctets(n, v) == IntOctets(n - i, ShiftRight(v, i)) + tail
    {
      ghost var x: octet := ShiftRight(v, i) % 256;
      PutBefore(was, at + n + 1 - i, tail, x);
      IntStep(n, v, i, tail);
      data[at + n - i] := ShiftRight(v, i) % 256;
      assert data[..] == Put(was, at + n + 1 - i, tail)[at + n - i := x];
      tail := [x] + tail;
    }
    IntNothing(ShiftRight(v, n));
    NothingBefore(tail);
  }

  lemma IntStart(n: nat, v: int)
    ensures IntOctets(n, v) == IntOctets(n, ShiftRight(v, 0)) + []
  {
    assert ShiftRight(v, 0) == v;
  }

  lemma IntNothing(v: int)
    ensures IntOctets(0, v) == []
  {
  }

  lemma IntStep(n: nat, v: int, i: nat, tail: seq<octet>)
    requires i < n && IntOctets(n, v) == IntOctets(n - i, ShiftRight(v, i)) + tail
    ensures IntOctets(n, v) == IntOctets(n - i - 1, ShiftRight(v, i + 1)) + ([ShiftRight(v, i) % 256] + tail)
  {
    var c := IntOctets(n - i - 1, ShiftRight(v, i + 1));
    assert ShiftRight(v, i + 1) == ShiftRight(v, i) / 256;
    assert c + [ShiftRight(v, i) % 256] + tail == c + ([ShiftRight(v, i) % 256] + tail);
  }

  // asn1WriteInt32 at position at0 of the buffer, or ending there when reverse is set.
  method WriteInt32(value: int, reverse: bool, data: array?<octet>, at0: nat) returns (written: nat)
    requires Int32(value)
    requires data != null && reverse ==> |IntEncoding(value)| <= at0 <= data.Length
    requires data != null && !reverse ==> at0 + |IntEncoding(value)| <= data.Length
    modifies if data == null then {} else {data}
    ensures written == |IntEncoding(value)|
    ensures data != null ==>
      data[..] == Put(old(data[..]), if reverse then at0 - |IntEncoding(value)| else at0, IntEncoding(value))
  {
    hide Put, IntOctets, UpperNine;
    var n := 4;
    while n > 1
      invariant 1 <= n <= 4 && FitsOctets(value, n)
      invariant IntSize(value) <= n
      invariant data != null ==> data[..] == old(data[..])
    {
      NineEqualBits(value, n);
      var msb := UpperNine(value, n);
      if msb != 0x0000 && msb != 0x01FF {
        break;
      }
      n := n - 1;
    }
    assert n == IntSize(value);
    if data != null {
      ghost var was := data[..];
      var at := if reverse then at0 - (n + 2) else at0;
      data[at] := 2;
      PutOne(was, at, 2);
      ghost var one := data[..];
      assert one == Put(was, at, [2]);
      data[at + 1] := n;
      PutOne(one, at + 1, n);
      assert data[..] == Put(one, at + 1, [n]);
      WriteOctets(data, at + 1, n, value);
      PutThree(was, at, 2, n, IntOctets(n, value));
      assert IntEncoding(value) == [2, n] + IntOctets(n, value);
    }
    written := n + 2;
  }

  lemma PutThree(was: seq<octet>, at: nat, x: octet, y: octet, d: seq<octet>)
    requires at + 2 + |d| <= |was|
    ensures Put(Put(Put(was, at, [x]), at + 1, [y]), at + 2, d) == Put(was, at, [x, y] + d)
  {
    hide Put;
    PutTwice(was, at, [x], [y]);
    assert [x] + [y] == [x, y];
    PutTwice(was, at, [x, y], d);
  }

  // asn1CheckTag
  method CheckTag(tag: Asn1Tag, constructed: bool, cls: nat, kind: nat) returns (status: Status)
    ensures status == NoError <==> tag.constructed == constructed && tag.cls == cls && tag.kind == kind
    ensures status == WrongEncoding <==> tag.constructed != constructed
    ensures status == InvalidClass <==> tag.constructed == constructed && tag.cls != cls
    ensures status == InvalidType <==> tag.constructed == constructed && tag.cls == cls && tag.kind != kind
  {
    if tag.constructed != constructed { return WrongEncoding; }
    if tag.cls != cls { return InvalidClass; }
    if tag.kind != kind { return InvalidType; }
    status := NoError;
  }

  // The number in two's complement that n octets from position i on stand for, continued from v.
  function IntFrom(data: seq<octet>, beyond: octet, i: nat, n: nat, v: int): int
    decreases n
  {
    if n == 0 then v else IntFrom(data, beyond, i + 1, n - 1, v * 256 + At(data, beyond, i))
  }

  function IntAt(data: seq<octet>, beyond: octet, i: nat, n: nat): int {
    IntFrom(data, beyond, i, n, if At(data, beyond, i) >= 128 then -1 else 0)
  }

  predicate IsInteger(r: Outcome) {
    r.Ok? && !r.tag.constructed && r.tag.cls == 0 && r.tag.kind == 2 && 1 <= r.tag.length <= 4
  }

  // The first of the four checks that fails: no tag, or its encoding, its class, or its type. A
  // length that does not suit an integer is an invalid tag as well.
  function IntStatus(r: Outcome): (status: Status)
    ensures status == NoError <==> IsInteger(r)
  {
    match r
    case Bad => InvalidTag
    case Ok(t, _, _) =>
      if t.constructed then WrongEncoding
      else if t.cls != 0 then InvalidClass
      else if t.kind != 2 then InvalidType
      else if t.length < 1 || t.length > 4 then InvalidTag
      else NoError
  }

  // asn1ReadInt32. The variable for the value, was, is written only on success, and the tag is
  // filled whenever there is one.
  method ReadInt32(data: array<octet>, beyond: octet, tag: Asn1Tag, was: int) returns (status: Status, value: int)
    requires data.Length < WORD
    modifies tag
    ensures
      var r := Decode(data[..], beyond);
      && status == IntStatus(r)
      && (r.Ok? ==> tag.Value() == r)
      && value == if IsInteger(r) then IntAt(data[..], beyond, r.value, r.tag.length) else was
  {
    hide Decode;
    value := was;
    status := ReadTag(data, beyond, tag);
    if status != NoError { return; }
    status := CheckTag(tag, false, 0, 2);
    if status != NoError { return; }
    if tag.length < 1 || tag.length > 4 { return InvalidTag, was; }
    value := if At(data[..], beyond, tag.value) >= 128 then -1 else 0;
    ghost var start := value;
    for i := 0 to tag.length
      invariant IntFrom(data[..], beyond, tag.value + i, tag.length - i, value)
        == IntFrom(data[..], beyond, tag.value, tag.length, start)
    {
      value := value * 256 + At(data[..], beyond, tag.value + i);
    }
  }

  // Reading k octets accumulates the value that has no more bits than them.
  lemma {:induction false} IntRead(data: seq<octet>, beyond: octet, i: nat, n: nat, k: nat, v: int, s: int)
    requires i + n <= |data| && k <= n && data[i..i + k] == IntOctets(k, v) && s == ShiftRight(v, k)
    ensures IntFrom(data, beyond, i, n, s) == IntFrom(data, beyond, i + k, n - k, v)
    decreases k
  {
    hide IntFrom;
    if k > 0 {
      SliceParts(data, i, k, IntOctets(k - 1, v / 256), v % 256);
      ShiftOnce(v, k - 1);
      IntRead(data, beyond, i, n, k - 1, v / 256, s);
      IntFromStep(data, beyond, i + k - 1, n - k + 1, v / 256);
      assert v / 256 * 256 + v % 256 == v;
    }
  }

  lemma {:induction false} ShiftOnce(v: int, k: nat)
    ensures ShiftRight(v, k + 1) == ShiftRight(v / 256, k)
  {
    if k == 0 {
      assert ShiftRight(v, 1) == ShiftRight(v, 0) / 256;
    } else {
      ShiftOnce(v, k - 1);
    }
  }

  lemma IntFromStep(data: seq<octet>, beyond: octet, i: nat, n: nat, v: int)
    requires n > 0
    ensures IntFrom(data, beyond, i, n, v) == IntFrom(data, beyond, i + 1, n - 1, v * 256 + At(data, beyond, i))
  {
  }

  lemma IntFromNothing(data: seq<octet>, beyond: octet, i: nat, v: int)
    ensures IntFrom(data, beyond, i, 0, v) == v
  {
  }

  // The sign is the first bit of the first octet, and all that is left beyond n octets.
  lemma SignBit(v: int, n: nat)
    requires 1 <= n <= 4 && FitsOctets(v, n)
    ensures IntOctets(n, v)[0] == ShiftRight(v, n - 1) % 256
    ensures ShiftRight(v, n) == if ShiftRight(v, n - 1) % 256 >= 128 then -1 else 0
  {
    FirstIntOctet(n, v);
    assert ShiftRight(v, 0) == v && ShiftRight(v, 1) == v / 256;
    assert ShiftRight(v, 2) == v / 256 / 256 && ShiftRight(v, 3) == v / 256 / 256 / 256;
    assert ShiftRight(v, 4) == v / 256 / 256 / 256 / 256;
  }

  lemma {:induction false} FirstIntOctet(n: nat, v: int)
    requires n >= 1
    ensures IntOctets(n, v)[0] == ShiftRight(v, n - 1) % 256
  {
    if n > 1 {
      FirstIntOctet(n - 1, v / 256);
      ShiftOnce(v, n - 2);
    }
  }

  // asn1ReadInt32 recovers every 32-bit integer from what asn1WriteInt32 wrote.
  lemma IntRoundTrip(v: int, rest: seq<octet>, beyond: octet)
    requires Int32(v) && |rest| < WORD - 6
    ensures
      var data := IntEncoding(v) + rest;
      var r := Decode(data, beyond);
      IsInteger(r) && r.totalLength == |IntEncoding(v)| && IntAt(data, beyond, r.value, r.tag.length) == v
  {
    hide Decode, IntFrom, IntOctets;
    var n := IntSize(v);
    var t := Tag(false, 0, 2, n);
    var data := IntEncoding(v) + rest;
    assert Header(t) == [2, n];
    assert data == Header(t) + (IntOctets(n, v) + rest);
    TagRoundTrip(t, IntOctets(n, v) + rest, beyond);
    assert data[2..2 + n] == IntOctets(n, v);
    assert data[2] == data[2..2 + n][0];
    SignBit(v, n);
    IntRead(data, beyond, 2, n, n, v, ShiftRight(v, n));
    IntFromNothing(data, beyond, 2 + n, v);
  }

  // No encoding of n octets or fewer stands for a number that needs more.
  lemma IntMinimal(data: seq<octet>, beyond: octet, i: nat, n: nat)
    requires 1 <= n <= 4
    ensures Int32(IntAt(data, beyond, i, n)) && IntSize(IntAt(data, beyond, i, n)) <= n
  {
    var a: int, b: int, c: int := At(data, beyond, i), At(data, beyond, i + 1), At(data, beyond, i + 2);
    var s: int := if a >= 128 then -1 else 0;
    IntFromStep(data, beyond, i, n, s);
    if n == 1 {
    } else if n == 2 {
      IntFromStep(data, beyond, i + 1, 1, s * 256 + a);
    } else if n == 3 {
      IntFromStep(data, beyond, i + 1, 2, s * 256 + a);
      IntFromStep(data, beyond, i + 2, 1, (s * 256 + a) * 256 + b);
    } else {
      IntFromStep(data, beyond, i + 1, 3, s * 256 + a);
      IntFromStep(data, beyond, i + 2, 2, (s * 256 + a) * 256 + b);
      IntFromStep(data, beyond, i + 3, 1, ((s * 256 + a) * 256 + b) * 256 + c);
    }
  }
}
