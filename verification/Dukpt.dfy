/** Derivation of session keys from a key serial number with a 21-bit counter (base_security.cpp). */
module Dukpt {
  import opened Blocks
  import opened Feistel
  import opened DesKeys
  import opened Octets
  import D = Des

  function And(a: byte, b: byte): byte { a & b }
  function Or(a: byte, b: byte): byte { a | b }

  // ---------------------------------------------------------------- the black box

  // DES encryption of one block
  function DesEnc(sp: SBoxes, key: seq<byte>, b: seq<byte>): (r: seq<byte>)
    requires |key| == |b| == 8
    ensures |r| == 8
  {
    PairBlock(Feistel.Des(sp, Schedule(BlockPair(key)), BlockPair(b)))
  }

  // The pattern that turns a key into the one for the other half
  function Variant(): (v: seq<byte>)
    ensures |v| == 16
  {
    [0xC0, 0xC0, 0xC0, 0xC0, 0, 0, 0, 0, 0xC0, 0xC0, 0xC0, 0xC0, 0, 0, 0, 0]
  }

  // Half of a new key: the right half of the key, summed with the register, encrypted under
  // the left half, and summed with the right half again.
  function NewHalf(sp: SBoxes, key: seq<byte>, register: seq<byte>): (r: seq<byte>)
    requires |key| == 16 && |register| == 8
    ensures |r| == 8
  {
    Xor(DesEnc(sp, key[..8], Xor(key[8..], register)), key[8..])
  }

  // The new key for a key serial number: its last eight octets are the register.
  function BlackBox(sp: SBoxes, key: seq<byte>, ksn: seq<byte>): (r: seq<byte>)
    requires |key| == 16 && |ksn| == 10
    ensures |r| == 16
  {
    NewHalf(sp, Xor(key, Variant()), ksn[2..]) + NewHalf(sp, key, ksn[2..])
  }

  // DES decryption of one block
  function DesDec(sp: SBoxes, key: seq<byte>, b: seq<byte>): (r: seq<byte>)
    requires |key| == |b| == 8
    ensures |r| == 8
  {
    PairBlock(Feistel.Des(sp, Reverse(Schedule(BlockPair(key))), BlockPair(b)))
  }

  lemma DesDecEnc(sp: SBoxes, key: seq<byte>, b: seq<byte>)
    requires |key| == |b| == 8
    ensures DesDec(sp, key, DesEnc(sp, key, b)) == b
  {
    hide Feistel.Des, Schedule, BlockPair, PairBlock, Reverse;
    var k, p := Schedule(BlockPair(key)), BlockPair(b);
    D.PairRoundTrip(Feistel.Des(sp, k, p));
    DesUndo(sp, k, p);
    BlockRoundTrip(b, p);
  }

  // The key whose octets 0 to 3 and 8 to 11 have their two highest bits changed
  function Changed(key: seq<byte>): (r: seq<byte>)
    ensures |r| == |key|
  {
    seq(|key|, i requires 0 <= i < |key| => if i % 8 < 4 then Sum(key[i], 0xC0) else key[i])
  }

  lemma ChangedIs(key: seq<byte>)
    requires |key| == 16
    ensures Xor(key, Variant()) == Changed(key)
  {
    hide Sum, Xor, Variant;
    forall i | 0 <= i < 16 ensures Xor(key, Variant())[i] == Changed(key)[i] {
      XorAt(key, Variant(), i);
      VariantAt(i);
      SumZero(key[i]);
    }
  }

  lemma VariantAt(i: nat)
    requires i < 16
    ensures Variant()[i] == if i % 8 < 4 then 0xC0 else 0
  {
  }

  // A half of the new key, less the right half of the key it is made with, deciphers under the
  // left half of that key to the sum of the right half and the register.
  lemma HalfDeciphers(sp: SBoxes, key: seq<byte>, register: seq<byte>)
    requires |key| == 16 && |register| == 8
    ensures DesDec(sp, key[..8], Xor(NewHalf(sp, key, register), key[8..])) == Xor(key[8..], register)
  {
    hide DesEnc, DesDec, Xor;
    XorCancels(DesEnc(sp, key[..8], Xor(key[8..], register)), key[8..]);
    DesDecEnc(sp, key[..8], Xor(key[8..], register));
  }

  // So the right half of the new key is made with the key itself, the left half with the changed
  // key, and both with the last eight octets of the serial number.
  lemma BlackBoxDeciphers(sp: SBoxes, key: seq<byte>, ksn: seq<byte>)
    requires |key| == 16 && |ksn| == 10
    ensures
      var next, c := BlackBox(sp, key, ksn), Changed(key);
      && DesDec(sp, key[..8], Xor(next[8..], key[8..])) == Xor(key[8..], ksn[2..])
      && DesDec(sp, c[..8], Xor(next[..8], c[8..])) == Xor(c[8..], ksn[2..])
  {
    hide NewHalf, DesDec, Xor, Changed, Variant;
    ChangedIs(key);
    HalfDeciphers(sp, key, ksn[2..]);
    HalfDeciphers(sp, Changed(key), ksn[2..]);
    var a, b := NewHalf(sp, Xor(key, Variant()), ksn[2..]), NewHalf(sp, key, ksn[2..]);
    assert (a + b)[..8] == a && (a + b)[8..] == b;
  }

  // The two masks of the register select complementary bits.
  function RegisterMask(i: nat): byte { if i < 5 then 0xFF else if i == 5 then 0xE0 else 0 }
  function CountMask(i: nat): byte { if i < 5 then 0 else if i == 5 then 0x1F else 0xFF }

  lemma MasksComplete(x: byte, i: nat)
    ensures Or(And(x, RegisterMask(i)), And(x, CountMask(i))) == x
  {
    if i < 5 {
    } else if i == 5 {
    } else {
    }
  }

  // One half: out = DES(left, right ^ register), then out ^ right
  method MakeHalf(sp: SBoxes, key: array<byte>, register: array<byte>) returns (half: array<byte>)
    requires key.Length == 16 && register.Length == 8
    ensures fresh(half) && half[..] == NewHalf(sp, key[..], register[..])
  {
    hide Xor, Overwrite, Schedule, BlockPair, PairBlock, Feistel.Des, Subkeys;
    var left, right, msg := new byte[8], new byte[8], new byte[8];
    ghost var l0, r0, m0 := left[..], right[..], msg[..];
    Copy(left, 0, key, 0, 8);
    OverwriteAll(l0, key[0..8]);
    Copy(right, 0, key, 8, 8);
    OverwriteAll(r0, key[8..16]);
    assert key[0..8] == key[..][..8] && key[8..16] == key[..][8..];
    assert right[0..8] == right[..] && register[0..8] == register[..];
    XorBlock(msg, 0, right, 0, register, 0, 8);
    OverwriteAll(m0, Xor(right[..], register[..]));
    var context := new D.DesContext();
    half := new byte[8];
    var status := D.DesInit(context, left, 0, 8);
    assert left[0..8] == left[..];
    D.DesEncryptBlock(sp, context, msg, half);
    ghost var x := half[..];
    assert half[0..8] == x;
    XorBlock(half, 0, half, 0, right, 0, 8);
    OverwriteAll(x, Xor(x, right[..]));
  }

  // The register, put together from two masked parts.
  method MakeRegister(ksn: array<byte>) returns (register: array<byte>)
    requires ksn.Length == 10
    ensures fresh(register) && register[..] == ksn[2..]
  {
    hide And, Or;
    register := new byte[8];
    for i := 0 to 8
      invariant forall k | 0 <= k < i :: register[k] == ksn[k + 2]
    {
      register[i] := And(ksn[i + 2], RegisterMask(i));
      register[i] := Or(register[i], And(ksn[i + 2], CountMask(i)));
      MasksComplete(ksn[i + 2], i);
    }
  }

  // _dukpt_blackbox
  method DukptBlackBox(sp: SBoxes, key: array<byte>, ksn: array<byte>) returns (next: array<byte>)
    requires key.Length == 16 && ksn.Length == 10
    ensures fresh(next) && next[..] == BlackBox(sp, key[..], ksn[..])
  {
    hide NewHalf, Xor, Overwrite;
    var register := MakeRegister(ksn);
    var lsb := MakeHalf(sp, key, register);
    var pattern, mod := new byte[16], new byte[16];
    ghost var p0, m0 := pattern[..], mod[..];
    Write(pattern, 0, Variant());
    OverwriteAll(p0, Variant());
    assert key[0..16] == key[..] && pattern[0..16] == pattern[..];
    XorBlock(mod, 0, key, 0, pattern, 0, 16);
    OverwriteAll(m0, Xor(key[..], Variant()));
    var msb := MakeHalf(sp, mod, register);
    next := new byte[16];
    ghost var n0 := next[..];
    Copy(next, 0, msb, 0, 8);
    Copy(next, 8, lsb, 0, 8);
    assert msb[0..8] == msb[..] && lsb[0..8] == lsb[..];
    TwoHalves(n0, msb[..], lsb[..]);
    assert ksn[..][2..] == ksn[2..];
  }

  lemma TwoHalves(was: seq<byte>, a: seq<byte>, b: seq<byte>)
    requires |was| == 16 && |a| == |b| == 8
    ensures Overwrite(Overwrite(was, 0, a), 8, b) == a + b
  {
  }

  // ---------------------------------------------------------------- the counter

  // The 21 bits of a counter: five in the first octet.
  datatype Count = Count(a: byte, b: byte, c: byte) {
    predicate Valid() { a <= 0x1F }
    predicate Zero() { a == 0 && b == 0 && c == 0 }
  }

  function Low(x: byte): byte { And(x, x - 1) }

  // The counter without its lowest set bit
  function WithoutLowest(n: Count): Count {
    if n.c != 0 then Count(n.a, n.b, Low(n.c))
    else if n.b != 0 then Count(n.a, Low(n.b), 0)
    else Count(Low(n.a), 0, 0)
  }

  // A key serial number with the given counter
  function WithCount(ksn: seq<byte>, n: Count): (r: seq<byte>)
    requires |ksn| == 10
    ensures |r| == 10
  {
    ksn[..7] + [Or(And(ksn[7], 0xE0), n.a), n.b, n.c]
  }

  function CountOf(ksn: seq<byte>): (n: Count)
    requires |ksn| == 10
  {
    Count(And(ksn[7], 0x1F), ksn[8], ksn[9])
  }

  lemma LowLess(x: byte)
    requires x != 0
    ensures Low(x) < x
  {
  }

  // The session key of a counter: the black box applied to the key of the counter without its
  // lowest set bit.
  function Key(sp: SBoxes, ipek: seq<byte>, ksn: seq<byte>, n: Count): (k: seq<byte>)
    requires |ipek| == 16 && |ksn| == 10
    ensures |k| == 16
    decreases n.a, n.b, n.c
  {
    if n.Zero() then ipek
    else
      if n.c != 0 then (LowLess(n.c); BlackBox(sp, Key(sp, ipek, ksn, WithoutLowest(n)), WithCount(ksn, n)))
      else if n.b != 0 then (LowLess(n.b); BlackBox(sp, Key(sp, ipek, ksn, WithoutLowest(n)), WithCount(ksn, n)))
      else (LowLess(n.a); BlackBox(sp, Key(sp, ipek, ksn, WithoutLowest(n)), WithCount(ksn, n)))
  }

  lemma KeyUnfold(sp: SBoxes, ipek: seq<byte>, ksn: seq<byte>, n: Count)
    requires |ipek| == 16 && |ksn| == 10 && !n.Zero()
    ensures Key(sp, ipek, ksn, n) == BlackBox(sp, Key(sp, ipek, ksn, WithoutLowest(n)), WithCount(ksn, n))
  {
    hide BlackBox, WithCount;
  }

  // On the counter as one number, WithoutLowest clears the lowest set bit.
  function Number(n: Count): bv32 { Load(0, n.a, n.b, n.c) }

  lemma WithoutLowestNumber(n: Count)
    requires !n.Zero()
    ensures Number(WithoutLowest(n)) == Number(n) & (Number(n) - 1)
  {
    if n.c != 0 {
    } else if n.b != 0 {
    } else {
    }
  }

  // ---------------------------------------------------------------- the mask loops

  // The highest i bits
  function Kept(i: nat): byte {
    if i == 0 then 0x00 else if i == 1 then 0x80 else if i == 2 then 0xC0 else if i == 3 then 0xE0
    else if i == 4 then 0xF0 else if i == 5 then 0xF8 else if i == 6 then 0xFC else if i == 7 then 0xFE else 0xFF
  }

  // Bit i from the left
  function Mask(i: nat): byte {
    if i == 0 then 0x80 else if i == 1 then 0x40 else if i == 2 then 0x20 else if i == 3 then 0x10
    else if i == 4 then 0x08 else if i == 5 then 0x04 else if i == 6 then 0x02 else if i == 7 then 0x01 else 0
  }

  lemma MaskShifts(i: nat)
    requires i < 8
    ensures Mask(i) >> 1 == Mask(i + 1)
  {
  }

  // One more bit: either it is clear, or it is set and is the lowest of those kept so far.
  lemma OneMoreBit(x: byte, i: nat)
    requires i < 8
    ensures
      var now, next := And(x, Kept(i)), And(x, Kept(i + 1));
      if And(x, Mask(i)) == 0 then next == now
      else next == Or(now, Mask(i)) && next != 0 && Low(next) == now
  {
    if i == 0 {
    } else if i == 1 {
    } else if i == 2 {
    } else if i == 3 {
    } else if i == 4 {
    } else if i == 5 {
    } else if i == 6 {
    } else {
    }
  }

  // What of the counter has been used when i bits of octet k = 7, 8 or 9 are done.
  function Partial(n: Count, k: nat, i: nat): Count {
    if k == 7 then Count(And(n.a, Kept(i)), 0, 0)
    else if k == 8 then Count(n.a, And(n.b, Kept(i)), 0)
    else Count(n.a, n.b, And(n.c, Kept(i)))
  }

  function CountOctet(n: Count, k: nat): byte { if k == 7 then n.a else if k == 8 then n.b else n.c }

  lemma OrAssoc(a: byte, b: byte, c: byte)
    ensures Or(Or(a, b), c) == Or(a, Or(b, c))
  {
  }

  lemma AndOrBounds(x: byte)
    ensures And(x, Kept(0)) == 0 && And(x, Kept(8)) == x && Or(x, 0) == x
    ensures x <= 0x1F ==> And(x, Kept(3)) == 0
  {
  }

  lemma BitClear(n: Count, k: nat, i: nat)
    requires 7 <= k <= 9 && i < 8 && And(CountOctet(n, k), Mask(i)) == 0
    ensures Partial(n, k, i + 1) == Partial(n, k, i)
  {
    hide And, Kept, Mask;
    OneMoreBit(CountOctet(n, k), i);
  }

  lemma BitSet(ksn: seq<byte>, n: Count, k: nat, i: nat)
    requires |ksn| == 10 && 7 <= k <= 9 && i < 8 && And(CountOctet(n, k), Mask(i)) != 0
    ensures
      var p, q := Partial(n, k, i), Partial(n, k, i + 1);
      && !q.Zero() && WithoutLowest(q) == p
      && WithCount(ksn, q) == WithCount(ksn, p)[k := Or(WithCount(ksn, p)[k], Mask(i))]
  {
    hide And, Or, Low, Kept, Mask, WithCount;
    OneMoreBit(CountOctet(n, k), i);
    WithMoreCount(ksn, n, k, i);
  }

  lemma WithMoreCount(ksn: seq<byte>, n: Count, k: nat, i: nat)
    requires |ksn| == 10 && 7 <= k <= 9 && i < 8
    requires var x := CountOctet(n, k); And(x, Kept(i + 1)) == Or(And(x, Kept(i)), Mask(i))
    ensures
      var p, q := Partial(n, k, i), Partial(n, k, i + 1);
      WithCount(ksn, q) == WithCount(ksn, p)[k := Or(WithCount(ksn, p)[k], Mask(i))]
  {
    hide And, Or, Kept, Mask;
    var p := Partial(n, k, i);
    OrAssoc(And(ksn[7], 0xE0), And(n.a, Kept(i)), Mask(i));
    PutLast(ksn[..7], Or(And(ksn[7], 0xE0), p.a), p.b, p.c, Or(WithCount(ksn, p)[k], Mask(i)));
    AndOrBounds(n.b);
    AndOrBounds(n.c);
  }

  lemma PutLast(h: seq<byte>, x: byte, y: byte, z: byte, v: byte)
    requires |h| == 7
    ensures
      var s := h + [x, y, z];
      && s[7] == x && s[8] == y && s[9] == z
      && s[7 := v] == h + [v, y, z] && s[8 := v] == h + [x, v, z] && s[9 := v] == h + [x, y, v]
  {
  }

  // The state between two bits: the register, and the key of the part of the counter used.
  ghost predicate Derived(sp: SBoxes, ipek: seq<byte>, ksn: seq<byte>, p: Count,
                          register: seq<byte>, keyIn: seq<byte>, keyOut: seq<byte>)
    requires |ipek| == 16 && |ksn| == 10
  {
    register == WithCount(ksn, p) && keyIn == Key(sp, ipek, ksn, p) && (p.Zero() || keyOut == keyIn)
  }

  // The body of the loops for a bit that is set.
  method UseBit(sp: SBoxes, k: nat, mask: byte, ksnBase: array<byte>, keyIn: array<byte>, keyOut: array<byte>)
    requires k < 10 && ksnBase.Length == 10 && keyIn.Length == keyOut.Length == 16
    requires ksnBase != keyIn && ksnBase != keyOut && keyIn != keyOut
    modifies ksnBase, keyIn, keyOut
    ensures ksnBase[..] == old(ksnBase[..])[k := Or(old(ksnBase[k]), mask)]
    ensures keyIn[..] == keyOut[..] == BlackBox(sp, old(keyIn[..]), ksnBase[..])
  {
    hide BlackBox, Or;
    var ksnIn := new byte[10];
    CopyAll(ksnIn, ksnBase);
    ksnIn[k] := Or(ksnIn[k], mask);
    var next := DukptBlackBox(sp, keyIn, ksnIn);
    CopyAll(keyOut, next);
    CopyAll(keyIn, keyOut);
    CopyAll(ksnBase, ksnIn);
  }

  // One of the three loops, over the bits of octet k from bit first on.
  method MaskLoop(sp: SBoxes, k: nat, first: nat, x: byte, ksnBase: array<byte>, keyIn: array<byte>, keyOut: array<byte>,
                  ghost ipek: seq<byte>, ghost ksn: seq<byte>, ghost n: Count)
    requires 7 <= k <= 9 && first <= 8 && |ipek| == 16 && |ksn| == 10 && x == CountOctet(n, k)
    requires ksnBase.Length == 10 && keyIn.Length == keyOut.Length == 16
    requires ksnBase != keyIn && ksnBase != keyOut && keyIn != keyOut
    requires Derived(sp, ipek, ksn, Partial(n, k, first), ksnBase[..], keyIn[..], keyOut[..])
    modifies ksnBase, keyIn, keyOut
    ensures Derived(sp, ipek, ksn, Partial(n, k, 8), ksnBase[..], keyIn[..], keyOut[..])
  {
    hide BlackBox, Key, WithCount, And, Or, Mask, Partial, WithoutLowest;
    var mask := Mask(first);
    for i := first to 8
      invariant mask == Mask(i)
      invariant Derived(sp, ipek, ksn, Partial(n, k, i), ksnBase[..], keyIn[..], keyOut[..])
    {
      if And(x, mask) != 0 {
        BitSet(ksn, n, k, i);
        KeyUnfold(sp, ipek, ksn, Partial(n, k, i + 1));
        UseBit(sp, k, mask, ksnBase, keyIn, keyOut);
      } else {
        BitClear(n, k, i);
      }
      MaskShifts(i);
      mask := mask >> 1;
    }
  }

  // dukpt_generate_sk. With a zero counter the source copies out an array it never wrote, and
  // nothing is said about the result.
  method GenerateSk(sp: SBoxes, sessionKey: array<byte>, ksn: array<byte>, ipek: array<byte>)
    requires ksn.Length == 10 && ipek.Length == 16 && sessionKey.Length == 16
    modifies sessionKey
    ensures
      var n := CountOf(old(ksn[..]));
      !n.Zero() ==> sessionKey[..] == Key(sp, old(ipek[..]), old(ksn[..]), n)
  {
    hide BlackBox, Key, WithCount, And, Or, Kept, Derived, Partial;
    ghost var k0, i0, n := ksn[..], ipek[..], CountOf(ksn[..]);
    var c0, c1, c2 := And(ksn[7], 0x1F), ksn[8], ksn[9];
    var ksnBase, keyIn, keyOut := new byte[10], new byte[16], new byte[16];
    CopyAll(ksnBase, ksn);
    ksnBase[7] := And(ksnBase[7], 0xE0);
    ksnBase[8] := 0;
    ksnBase[9] := 0;
    CopyAll(keyIn, ipek);
    assert ksnBase[..] == k0[..7] + [And(k0[7], 0xE0), 0, 0];
    Nothing(sp, i0, k0, n, ksnBase[..], keyIn[..], keyOut[..]);
    MaskLoop(sp, 7, 3, c0, ksnBase, keyIn, keyOut, i0, k0, n);
    NextOctet(n);
    MaskLoop(sp, 8, 0, c1, ksnBase, keyIn, keyOut, i0, k0, n);
    MaskLoop(sp, 9, 0, c2, ksnBase, keyIn, keyOut, i0, k0, n);
    AllBits(sp, i0, k0, n, ksnBase[..], keyIn[..], keyOut[..]);
    CopyAll(sessionKey, keyOut);
  }

  lemma Nothing(sp: SBoxes, ipek: seq<byte>, ksn: seq<byte>, n: Count, register: seq<byte>, keyIn: seq<byte>, keyOut: seq<byte>)
    requires |ipek| == 16 && |ksn| == 10 && n == CountOf(ksn)
    requires register == ksn[..7] + [And(ksn[7], 0xE0), 0, 0] && keyIn == ipek
    ensures Derived(sp, ipek, ksn, Partial(n, 7, 3), register, keyIn, keyOut)
  {
    hide BlackBox, And, Or, Kept;
    AndBound(ksn[7]);
    AndOrBounds(n.a);
    AndOrBounds(And(ksn[7], 0xE0));
  }

  lemma AndBound(x: byte)
    ensures And(x, 0x1F) <= 0x1F
  {
  }

  lemma NextOctet(n: Count)
    ensures Partial(n, 7, 8) == Partial(n, 8, 0) && Partial(n, 8, 8) == Partial(n, 9, 0) && Partial(n, 9, 8) == n
  {
    hide And, Kept;
    AndOrBounds(n.a);
    AndOrBounds(n.b);
    AndOrBounds(n.c);
  }

  lemma AllBits(sp: SBoxes, ipek: seq<byte>, ksn: seq<byte>, n: Count, register: seq<byte>, keyIn: seq<byte>, keyOut: seq<byte>)
    requires |ipek| == 16 && |ksn| == 10 && Derived(sp, ipek, ksn, Partial(n, 9, 8), register, keyIn, keyOut)
    ensures !n.Zero() ==> keyOut == Key(sp, ipek, ksn, n)
  {
    hide Key, Partial;
    NextOctet(n);
  }

  // ---------------------------------------------------------------- the next number

  // The counter as a natural number below 2^21
  function Value(ksn: seq<byte>): nat
    requires |ksn| == 10
  {
    0x10000 * (And(ksn[7], 0x1F) as nat) + 0x100 * (ksn[8] as nat) + ksn[9] as nat
  }

  // Everything but the counter
  predicate SameDevice(ksn: seq<byte>, other: seq<byte>)
    requires |ksn| == |other| == 10
  {
    ksn[..7] == other[..7] && And(ksn[7], 0xE0) == And(other[7], 0xE0)
  }

  function CounterMask(i: nat): byte { if i < 7 then 0 else if i == 7 then 0x1F else 0xFF }

  // The counter one higher, or zero after the last one.
  function Counted(n: Count): Count {
    if n.c < 0xFF then Count(n.a, n.b, n.c + 1)
    else if n.b < 0xFF then Count(n.a, n.b + 1, 0)
    else if n.a < 0x1F then Count(n.a + 1, 0, 0)
    else Count(0, 0, 0)
  }

  function NextKsn(ksn: seq<byte>): (r: seq<byte>)
    requires |ksn| == 10
    ensures |r| == 10
  {
    WithCount(ksn, Counted(CountOf(ksn)))
  }

  // Takes the counter bits out of the number.
  method SplitCount(ksn: array<byte>) returns (count: array<byte>)
    requires ksn.Length == 10
    modifies ksn
    ensures fresh(count) && count.Length == 10
    ensures forall k | 0 <= k < 10 :: count[k] == And(old(ksn[k]), CounterMask(k))
    ensures forall k | 0 <= k < 10 :: ksn[k] == And(old(ksn[k]), !CounterMask(k))
  {
    hide And;
    count := new byte[10];
    for i := 0 to 10
      invariant forall k | 0 <= k < i :: count[k] == And(old(ksn[k]), CounterMask(k))
      invariant forall k | 0 <= k < i :: ksn[k] == And(old(ksn[k]), !CounterMask(k))
      invariant forall k | i <= k < 10 :: ksn[k] == old(ksn[k])
    {
      count[i] := And(ksn[i], CounterMask(i));
      ksn[i] := And(ksn[i], !CounterMask(i));
    }
  }

  // The nested comparisons that add one with carry.
  method IncreaseCount(count: array<byte>) returns (more: bool)
    requires count.Length == 10 && count[7] <= 0x1F
    modifies count
    ensures count[..7] == old(count[..7])
    ensures Count(count[7], count[8], count[9]) == Counted(Count(old(count[7]), old(count[8]), old(count[9])))
    ensures more <==> CountValue(Count(old(count[7]), old(count[8]), old(count[9]))) < 0x1F_FFFF
  {
    hide CountValue;
    Largest(Count(count[7], count[8], count[9]));
    more := true;
    if count[9] < 0xFF {
      count[9] := count[9] + 1;
    } else {
      if count[8] < 0xFF {
        count[9] := 0;
        count[8] := count[8] + 1;
      } else {
        if count[7] < 0x1F {
          count[9], count[8] := 0, 0;
          count[7] := count[7] + 1;
        } else {
          count[9], count[8], count[7] := 0, 0, 0;
          more := false;
        }
      }
    }
  }

  // Puts the counter bits back into the number.
  method Merge(ksn: array<byte>, count: array<byte>)
    requires ksn.Length == count.Length == 10 && ksn != count
    modifies ksn
    ensures forall k | 0 <= k < 10 :: ksn[k] == Or(old(ksn[k]), count[k])
  {
    hide Or;
    for i := 0 to 10
      invariant forall k | 0 <= k < i :: ksn[k] == Or(old(ksn[k]), count[k])
      invariant forall k | i <= k < 10 :: ksn[k] == old(ksn[k])
    {
      ksn[i] := Or(ksn[i], count[i]);
    }
  }

  // dukpt_increase_ksn: false when the counter starts again from zero.
  method IncreaseKsn(ksn: array<byte>) returns (more: bool)
    requires ksn.Length == 10
    modifies ksn
    ensures ksn[..] == NextKsn(old(ksn[..]))
    ensures more <==> Value(old(ksn[..])) < 0x1F_FFFF
  {
    hide And, Or, Counted;
    ghost var was, n := ksn[..], CountOf(ksn[..]);
    AndBound(was[7]);
    MaskEnds(was[8]);
    MaskEnds(was[9]);
    var count := SplitCount(ksn);
    assert Count(count[7], count[8], count[9]) == n;
    ghost var kept := count[..7];
    assert forall k | 0 <= k < 7 :: kept[k] == And(was[k], CounterMask(k));
    more := IncreaseCount(count);
    assert forall k | 0 <= k < 7 :: count[k] == kept[k];
    Merge(ksn, count);
    Reassembled(was, Counted(n), ksn[..], count[..]);
  }

  lemma MaskEnds(x: byte)
    ensures And(x, 0xFF) == x && And(x, 0) == 0 && And(x, !(0 as byte)) == x && And(x, !(0xFF as byte)) == 0
    ensures And(x, !(0x1F as byte)) == And(x, 0xE0) && Or(x, 0) == x && Or(0, x) == x
  {
  }

  lemma Reassembled(was: seq<byte>, next: Count, ksn: seq<byte>, count: seq<byte>)
    requires |was| == |ksn| == |count| == 10
    requires forall k | 0 <= k < 7 :: count[k] == And(was[k], CounterMask(k))
    requires count[7] == next.a && count[8] == next.b && count[9] == next.c
    requires forall k | 0 <= k < 10 :: ksn[k] == Or(And(was[k], !CounterMask(k)), count[k])
    ensures ksn == WithCount(was, next)
  {
    hide And, Or;
    forall k | 0 <= k < 10 ensures ksn[k] == WithCount(was, next)[k] {
      MaskEnds(was[k]);
      MaskEnds(count[k]);
    }
  }

  // ---------------------------------------------------------------- all numbers

  function CountValue(n: Count): nat { 0x10000 * (n.a as nat) + 0x100 * (n.b as nat) + n.c as nat }

  lemma OctetOrder(x: byte)
    ensures x as nat < 256
    ensures x < 0xFF <==> x as nat < 255
    ensures x < 0xFF ==> (x + 1) as nat == x as nat + 1
    ensures x == 0xFF ==> x as nat == 255
  {
  }

  lemma FiveBits(x: byte)
    requires x <= 0x1F
    ensures x as nat <= 31 && (x < 0x1F <==> x as nat < 31)
  {
  }

  // The largest counter is the one with all bits set.
  lemma Largest(n: Count)
    requires n.Valid()
    ensures CountValue(n) <= 0x1F_FFFF
    ensures CountValue(n) < 0x1F_FFFF <==> n.c < 0xFF || n.b < 0xFF || n.a < 0x1F
  {
    OctetOrder(n.b);
    OctetOrder(n.c);
    FiveBits(n.a);
  }

  lemma CountedValue(n: Count)
    requires n.Valid()
    ensures Counted(n).Valid()
    ensures CountValue(Counted(n)) == if CountValue(n) < 0x1F_FFFF then CountValue(n) + 1 else 0
  {
    OctetOrder(n.a);
    OctetOrder(n.b);
    OctetOrder(n.c);
    FiveBits(n.a);
    Largest(n);
  }

  lemma CountInserted(x: byte, a: byte)
    requires a <= 0x1F
    ensures And(Or(And(x, 0xE0), a), 0x1F) == a && And(Or(And(x, 0xE0), a), 0xE0) == And(x, 0xE0)
  {
  }

  lemma CountSplit(x: byte)
    ensures Or(And(x, 0xE0), And(x, 0x1F)) == x
  {
  }

  // A number with another counter belongs to the same device and has that counter.
  lemma WithCountIs(ksn: seq<byte>, n: Count)
    requires |ksn| == 10 && n.Valid()
    ensures SameDevice(WithCount(ksn, n), ksn) && CountOf(WithCount(ksn, n)) == n
    ensures Value(WithCount(ksn, n)) == CountValue(n)
  {
    hide And, Or;
    CountInserted(ksn[7], n.a);
  }

  // The next number belongs to the same device, and its counter is one higher modulo 2^21.
  lemma NextKsnCounts(ksn: seq<byte>)
    requires |ksn| == 10
    ensures SameDevice(NextKsn(ksn), ksn)
    ensures Value(NextKsn(ksn)) == if Value(ksn) < 0x1F_FFFF then Value(ksn) + 1 else 0
  {
    hide And, Or, Counted;
    var n := CountOf(ksn);
    AndBound(ksn[7]);
    CountedValue(n);
    CountInserted(ksn[7], Counted(n).a);
  }

  function After(ksn: seq<byte>, k: nat): (r: seq<byte>)
    requires |ksn| == 10
    ensures |r| == 10
  {
    if k == 0 then ksn else NextKsn(After(ksn, k - 1))
  }

  // From counter 0, the number after k steps has counter k: every counter comes once before
  // dukpt_increase_ksn returns false, and nothing else changes.
  lemma {:induction false} EveryCounterOnce(ksn: seq<byte>, k: nat)
    requires |ksn| == 10 && Value(ksn) == 0 && k <= 0x1F_FFFF
    ensures Value(After(ksn, k)) == k && SameDevice(After(ksn, k), ksn)
  {
    hide NextKsn, Value;
    if k > 0 {
      EveryCounterOnce(ksn, k - 1);
      NextKsnCounts(After(ksn, k - 1));
    }
  }

  lemma OctetEqual(x: byte, y: byte)
    requires x as nat == y as nat
    ensures x == y
  {
  }

  lemma Digits(a: nat, b: nat, c: nat, a': nat, b': nat, c': nat)
    requires b < 256 && c < 256 && b' < 256 && c' < 256
    requires 0x10000 * a + 0x100 * b + c == 0x10000 * a' + 0x100 * b' + c'
    ensures a == a' && b == b' && c == c'
  {
  }

  // Device and counter determine the number.
  lemma KsnDetermined(ksn: seq<byte>, other: seq<byte>)
    requires |ksn| == |other| == 10 && SameDevice(ksn, other) && Value(ksn) == Value(other)
    ensures ksn == other
  {
    hide And, Or;
    var m, n := CountOf(ksn), CountOf(other);
    OctetOrder(m.b);
    OctetOrder(m.c);
    OctetOrder(n.b);
    OctetOrder(n.c);
    Digits(m.a as nat, m.b as nat, m.c as nat, n.a as nat, n.b as nat, n.c as nat);
    OctetEqual(m.a, n.a);
    OctetEqual(m.b, n.b);
    OctetEqual(m.c, n.c);
    CountSplit(ksn[7]);
    CountSplit(other[7]);
    assert ksn == ksn[..7] + [ksn[7], ksn[8], ksn[9]];
    assert other == other[..7] + [other[7], other[8], other[9]];
  }

  // After the last counter the series starts again.
  lemma SeriesRepeats(ksn: seq<byte>)
    requires |ksn| == 10 && Value(ksn) == 0
    ensures After(ksn, 0x20_0000) == ksn
  {
    hide NextKsn, Value, After, SameDevice;
    EveryCounterOnce(ksn, 0x1F_FFFF);
    var last := After(ksn, 0x1F_FFFF);
    NextKsnCounts(last);
    SameDeviceTwice(NextKsn(last), last, ksn);
    KsnDetermined(NextKsn(last), ksn);
    AfterStep(ksn, 0x1F_FFFF);
  }

  lemma SameDeviceTwice(a: seq<byte>, b: seq<byte>, c: seq<byte>)
    requires |a| == |b| == |c| == 10 && SameDevice(a, b) && SameDevice(b, c)
    ensures SameDevice(a, c)
  {
    hide And;
  }

  lemma AfterStep(ksn: seq<byte>, k: nat)
    requires |ksn| == 10
    ensures After(ksn, k + 1) == NextKsn(After(ksn, k))
  {
    hide NextKsn;
  }

  // Within a series all session keys belong to different counters of one device: the counter
  // in the key derivation of number k is k.
  lemma KeyOfNumber(sp: SBoxes, ipek: seq<byte>, ksn: seq<byte>, k: nat)
    requires |ipek| == 16 && |ksn| == 10 && Value(ksn) == 0 && 0 < k <= 0x1F_FFFF
    ensures
      var number := After(ksn, k);
      var n := CountOf(number);
      && CountValue(n) == k && !n.Zero()
      && Key(sp, ipek, number, n) == BlackBox(sp, Key(sp, ipek, number, WithoutLowest(n)), number)
  {
    hide BlackBox, Key, After, And, Or, WithoutLowest;
    EveryCounterOnce(ksn, k);
    var number := After(ksn, k);
    var n := CountOf(number);
    assert (0 as byte) as nat == 0;
    KeyUnfold(sp, ipek, number, n);
    CountSplit(number[7]);
    assert number == number[..7] + [number[7], number[8], number[9]];
  }
}
