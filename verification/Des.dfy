/** DES and triple DES as des.c and des3.c run them, in place on octet buffers. */
module Des {
  import opened Blocks
  import opened Feistel
  import opened DesKeys

  datatype Status = NoError | InvalidKeyLength

  class DesContext {
    const ks: array<bv32>

    constructor ()
      ensures fresh(ks) && ks.Length == 32
    {
      ks := new bv32[32];
    }
  }

  // Exchanges the bits of b under the mask with the bits of a that lie n places higher.
  method SwapGroups(n: nat, a0: bv32, b0: bv32) returns (a: bv32, b: bv32)
    requires Group(n)
    ensures Pair(a, b) == Exchange(n, Pair(a0, b0))
  {
    hide Upper, Lower, Difference, Up, Add32;
    a, b := a0, b0;
    var temp := Difference(n, a, b);
    b := Add32(b, temp);
    a := Add32(a, Up(n, temp));
    UpperIs(n, a0, b0);
    LowerIs(n, a0, b0);
  }

  // DES_IP
  method InitialPermutation(left0: bv32, right0: bv32) returns (left: bv32, right: bv32)
    ensures Pair(left, right) == Ip(Pair(left0, right0))
  {
    hide Exchange, Rol1;
    left, right := SwapGroups(4, left0, right0);
    left, right := SwapGroups(16, left, right);
    right, left := SwapGroups(2, right, left);
    right, left := SwapGroups(8, right, left);
    left, right := SwapGroups(1, left, right);
    left := Rol1(left);
    right := Rol1(right);
  }

  // DES_FP
  method FinalPermutation(left0: bv32, right0: bv32) returns (left: bv32, right: bv32)
    ensures Pair(left, right) == Fp(Pair(left0, right0))
  {
    hide Exchange, Ror1;
    left := Ror1(left0);
    right := Ror1(right0);
    left, right := SwapGroups(1, left, right);
    right, left := SwapGroups(8, right, left);
    right, left := SwapGroups(2, right, left);
    left, right := SwapGroups(16, left, right);
    left, right := SwapGroups(4, left, right);
  }

  // DES_ROUND
  method DesRound(sp: SBoxes, left0: bv32, right0: bv32, k0: bv32, k1: bv32) returns (left: bv32, right: bv32)
    ensures Pair(left, right) == Round(sp, Subkey(k0, k1), Pair(left0, right0))
  {
    hide Add32, Six, Ror4;
    left, right := left0, right0;
    var temp := Add32(right, k0);
    left := Add32(left, sp(2, Six(temp, 24)));
    left := Add32(left, sp(4, Six(temp, 16)));
    left := Add32(left, sp(6, Six(temp, 8)));
    left := Add32(left, sp(8, Six(temp, 0)));
    ghost var t := temp;
    temp := Add32(Ror4(right), k1);
    left := Add32(left, sp(1, Six(temp, 24)));
    left := Add32(left, sp(3, Six(temp, 16)));
    left := Add32(left, sp(5, Six(temp, 8)));
    left := Add32(left, sp(7, Six(temp, 0)));
    EightTerms(left0, sp(2, Six(t, 24)), sp(4, Six(t, 16)), sp(6, Six(t, 8)), sp(8, Six(t, 0)),
      sp(1, Six(temp, 24)), sp(3, Six(temp, 16)), sp(5, Six(temp, 8)), sp(7, Six(temp, 0)));
    temp := right;
    right := left;
    left := temp;
  }

  lemma EightTerms(a: bv32, b: bv32, c: bv32, d: bv32, e: bv32, f: bv32, g: bv32, h: bv32, i: bv32)
    ensures Add32(Add32(Add32(Add32(Add32(Add32(Add32(Add32(a, b), c), d), e), f), g), h), i)
      == Add32(a, Add32(Add32(Add32(b, c), Add32(d, e)), Add32(Add32(f, g), Add32(h, i))))
  {
    hide Add32;
    FourTerms(a, b, c, d, e);
    FourTerms(Add32(a, Add32(Add32(b, c), Add32(d, e))), f, g, h, i);
    AddAssoc(a, Add32(Add32(b, c), Add32(d, e)), Add32(Add32(f, g), Add32(h, i)));
  }

  lemma FourTerms(a: bv32, b: bv32, c: bv32, d: bv32, e: bv32)
    ensures Add32(Add32(Add32(Add32(a, b), c), d), e) == Add32(a, Add32(Add32(b, c), Add32(d, e)))
  {
    hide Add32;
    AddAssoc(a, b, c);
    AddAssoc(Add32(a, Add32(b, c)), d, e);
    AddAssoc(a, Add32(b, c), Add32(d, e));
  }

  // ---------------------------------------------------------------- key schedule

  // desInit on the key octets from off on.
  method DesInit(context: DesContext, key: array<byte>, off: nat, keyLength: nat) returns (status: Status)
    requires context.ks.Length == 32 && off + keyLength <= key.Length
    modifies context.ks
    ensures keyLength != 8 ==> status == InvalidKeyLength && context.ks[..] == old(context.ks[..])
    ensures keyLength == 8 ==> status == NoError && Subkeys(context.ks[..]) == Schedule(BlockPair(key[off..off + 8]))
  {
    hide BlockPair, Pc1, Rotated, Pc2Even, Pc2Odd, Load;
    if keyLength != 8 { return InvalidKeyLength; }
    var ks := context.ks;
    var c := Load(key[off], key[off + 1], key[off + 2], key[off + 3]);
    var d := Load(key[off + 4], key[off + 5], key[off + 6], key[off + 7]);
    BlockPairIs(key[off..off + 8]);
    var p := Pc1(Pair(c, d));
    c, d := p.l, p.r;
    for i := 0 to 16
      invariant Pair(c, d) == Halves(p, i)
      invariant forall k | 0 <= k < i :: SubkeyAt(ks[..], k, p)
    {
      ghost var before := ks[..];
      c, d := Rotate(c, d, i);
      ks[2 * i] := Pc2Even(c, d);
      ks[2 * i + 1] := Pc2Odd(c, d);
      assert ks[..] == before[2 * i := Pc2Even(c, d)][2 * i + 1 := Pc2Odd(c, d)];
      SubkeyStored(before, ks[..], i, p, c, d);
    }
    assert Subkeys(ks[..]) == Schedule(BlockPair(key[off..off + 8])) by {
      forall k | 0 <= k < 16
        ensures Subkeys(ks[..])[k] == Schedule(BlockPair(key[off..off + 8]))[k]
      {
        assert SubkeyAt(ks[..], k, p);
      }
    }
    status := NoError;
  }

  // Words 2k and 2k + 1 are subkey k of the permuted key p.
  ghost predicate SubkeyAt(w: seq<bv32>, k: nat, p: Pair)
    requires 2 * k + 1 < |w|
  {
    Subkey(w[2 * k], w[2 * k + 1]) == SubkeyOf(Halves(p, k + 1))
  }

  lemma SubkeyStored(before: seq<bv32>, w: seq<bv32>, i: nat, p: Pair, c: bv32, d: bv32)
    requires |before| == |w| == 32 && i < 16
    requires forall k | 0 <= k < i :: SubkeyAt(before, k, p)
    requires Pair(c, d) == Halves(p, i + 1)
    requires w == before[2 * i := Pc2Even(c, d)][2 * i + 1 := Pc2Odd(c, d)]
    ensures forall k | 0 <= k < i + 1 :: SubkeyAt(w, k, p)
  {
    hide Pc2Even, Pc2Odd, Halves;
    forall k | 0 <= k < i + 1 ensures SubkeyAt(w, k, p) {
      if k < i {
        assert SubkeyAt(before, k, p);
      }
    }
  }

  lemma BlockPairIs(b: seq<byte>)
    requires |b| == 8
    ensures BlockPair(b) == Pair(Load(b[0], b[1], b[2], b[3]), Load(b[4], b[5], b[6], b[7]))
  {
  }

  method Rotate(c0: bv32, d0: bv32, i: nat) returns (c: bv32, d: bv32)
    ensures Pair(c, d) == Rotated(Pair(c0, d0), i)
  {
    hide Rol28;
    if i == 0 || i == 1 || i == 8 || i == 15 {
      c, d := Rol28(c0, false), Rol28(d0, false);
    } else {
      c, d := Rol28(c0, true), Rol28(d0, true);
    }
  }

  // ---------------------------------------------------------------- one block

  // Both halves of a block, most significant octet first.
  method LoadBlock(input: array<byte>) returns (left: bv32, right: bv32)
    requires input.Length == 8
    ensures Pair(left, right) == BlockPair(input[..])
  {
    hide Load;
    left := Load(input[0], input[1], input[2], input[3]);
    right := Load(input[4], input[5], input[6], input[7]);
  }

  // Both halves
  method StoreBlock(left: bv32, right: bv32, output: array<byte>)
    requires output.Length == 8
    modifies output
    ensures output[..] == PairBlock(Pair(left, right))
  {
    hide Store, Overwrite;
    ghost var was := output[..];
    StoreWord(left, output, 0);
    StoreWord(right, output, 4);
    OverwriteHalves(was, Store(left), Store(right));
  }

  lemma OverwriteHalves(was: seq<byte>, a: seq<byte>, b: seq<byte>)
    requires |was| == 8 && |a| == 4 && |b| == 4
    ensures Overwrite(Overwrite(was, 0, a), 4, b) == a + b
  {
  }

  lemma {:induction false} RoundsLast(sp: SBoxes, ks: seq<Subkey>, k: Subkey, p: Pair)
    ensures Rounds(sp, ks + [k], p) == Round(sp, k, Rounds(sp, ks, p))
  {
    hide Round;
    RoundsAppend(sp, ks, [k], p);
    assert [k][1..] == [];
  }

  // The input and output buffers may be one.
  method DesEncryptBlock(sp: SBoxes, context: DesContext, input: array<byte>, output: array<byte>)
    requires context.ks.Length == 32 && input.Length == 8 && output.Length == 8
    modifies output
    ensures output[..] == PairBlock(Des(sp, old(Subkeys(context.ks[..])), BlockPair(old(input[..]))))
  {
    hide Ip, Fp, Round, Rounds, BlockPair, PairBlock, Subkeys;
    var ks := context.ks;
    ghost var keys := Subkeys(ks[..]);
    var left, right := LoadBlock(input);
    left, right := InitialPermutation(left, right);
    ghost var p := Pair(left, right);
    assert keys[..0] == [];
    RoundsNone(sp, p);
    for i := 0 to 16
      invariant Pair(left, right) == Rounds(sp, keys[..i], p)
    {
      SubkeysAt(ks[..], i);
      left, right := DesRound(sp, left, right, ks[2 * i], ks[2 * i + 1]);
      RoundsLast(sp, keys[..i], keys[i], p);
      assert keys[..i + 1] == keys[..i] + [keys[i]];
    }
    assert keys[..16] == keys;
    right, left := FinalPermutation(right, left);
    StoreBlock(right, left, output);
  }

  lemma SubkeysAt(w: seq<bv32>, i: nat)
    requires |w| % 2 == 0 && 2 * i + 1 < |w|
    ensures Subkeys(w)[i] == Subkey(w[2 * i], w[2 * i + 1])
  {
  }

  lemma RoundsNone(sp: SBoxes, p: Pair)
    ensures Rounds(sp, [], p) == p
  {
  }

  method DesDecryptBlock(sp: SBoxes, context: DesContext, input: array<byte>, output: array<byte>)
    requires context.ks.Length == 32 && input.Length == 8 && output.Length == 8
    modifies output
    ensures output[..] == PairBlock(Des(sp, Reverse(old(Subkeys(context.ks[..]))), BlockPair(old(input[..]))))
  {
    hide Ip, Fp, Round, Rounds, BlockPair, PairBlock, Subkeys, Reverse;
    var ks := context.ks;
    ghost var keys := Reverse(Subkeys(ks[..]));
    var left, right := LoadBlock(input);
    left, right := InitialPermutation(left, right);
    ghost var p := Pair(left, right);
    assert keys[..0] == [];
    RoundsNone(sp, p);
    for i := 0 to 16
      invariant Pair(left, right) == Rounds(sp, keys[..i], p)
    {
      SubkeysAt(ks[..], 15 - i);
      ReverseAt(Subkeys(ks[..]), i);
      left, right := DesRound(sp, left, right, ks[30 - 2 * i], ks[31 - 2 * i]);
      RoundsLast(sp, keys[..i], keys[i], p);
      assert keys[..i + 1] == keys[..i] + [keys[i]];
    }
    assert keys[..16] == keys;
    right, left := FinalPermutation(right, left);
    StoreBlock(right, left, output);
  }

  // ---------------------------------------------------------------- triple DES

  class Des3Context {
    const k1: DesContext
    const k2: DesContext
    const k3: DesContext

    constructor ()
      ensures Distinct() && fresh(k1.ks) && fresh(k2.ks) && fresh(k3.ks)
    {
      k1 := new DesContext();
      k2 := new DesContext();
      k3 := new DesContext();
    }

    predicate Distinct() {
      && k1.ks.Length == k2.ks.Length == k3.ks.Length == 32
      && k1.ks != k2.ks && k1.ks != k3.ks && k2.ks != k3.ks
    }
  }

  predicate KeyLength(n: nat) { n == 8 || n == 16 || n == 24 }

  // Where the second and third key start: one key three times, two keys, or three keys.
  function SecondKey(n: nat): nat { if n == 8 then 0 else 8 }

  function ThirdKey(n: nat): nat { if n == 24 then 16 else 0 }

  // des3Init. Every octet of key belongs to the key.
  method Des3Init(context: Des3Context, key: array<byte>) returns (status: Status)
    requires context.Distinct()
    modifies context.k1.ks, context.k2.ks, context.k3.ks
    ensures status == if KeyLength(key.Length) then NoError else InvalidKeyLength
    ensures status == NoError ==>
      && Subkeys(context.k1.ks[..]) == Schedule(KeyAt(key[..], 0))
      && Subkeys(context.k2.ks[..]) == Schedule(KeyAt(key[..], SecondKey(key.Length)))
      && Subkeys(context.k3.ks[..]) == Schedule(KeyAt(key[..], ThirdKey(key.Length)))
    ensures status != NoError ==>
      && context.k1.ks[..] == old(context.k1.ks[..])
      && context.k2.ks[..] == old(context.k2.ks[..])
      && context.k3.ks[..] == old(context.k3.ks[..])
  {
    hide Schedule, BlockPair;
    if key.Length == 8 {
      var r := DesInit(context.k1, key, 0, 8);
      r := DesInit(context.k2, key, 0, 8);
      r := DesInit(context.k3, key, 0, 8);
    } else if key.Length == 16 {
      var r := DesInit(context.k1, key, 0, 8);
      r := DesInit(context.k2, key, 8, 8);
      r := DesInit(context.k3, key, 0, 8);
      assert key[..][0..8] == key[0..8] && key[..][8..16] == key[8..16];
    } else if key.Length == 24 {
      var r := DesInit(context.k1, key, 0, 8);
      r := DesInit(context.k2, key, 8, 8);
      r := DesInit(context.k3, key, 16, 8);
      assert key[..][0..8] == key[0..8] && key[..][8..16] == key[8..16] && key[..][16..24] == key[16..24];
    } else {
      return InvalidKeyLength;
    }
    status := NoError;
  }

  function KeyAt(key: seq<byte>, off: nat): Pair
    requires off + 8 <= |key|
  {
    BlockPair(key[off..off + 8])
  }

  // Three passes, the last two in place on the output buffer.
  method Des3EncryptBlock(sp: SBoxes, context: Des3Context, input: array<byte>, output: array<byte>)
    requires context.Distinct() && input.Length == 8 && output.Length == 8
    modifies output
    ensures output[..] == PairBlock(TripleEncrypt(sp, old(Subkeys(context.k1.ks[..])), old(Subkeys(context.k2.ks[..])),
      old(Subkeys(context.k3.ks[..])), BlockPair(old(input[..]))))
  {
    hide Des, BlockPair, PairBlock, Subkeys, Reverse;
    ghost var k1, k2, k3 := Subkeys(context.k1.ks[..]), Subkeys(context.k2.ks[..]), Subkeys(context.k3.ks[..]);
    ghost var p := BlockPair(input[..]);
    DesEncryptBlock(sp, context.k1, input, output);
    PairRoundTrip(Des(sp, k1, p));
    DesDecryptBlock(sp, context.k2, output, output);
    PairRoundTrip(Des(sp, Reverse(k2), Des(sp, k1, p)));
    DesEncryptBlock(sp, context.k3, output, output);
  }

  method Des3DecryptBlock(sp: SBoxes, context: Des3Context, input: array<byte>, output: array<byte>)
    requires context.Distinct() && input.Length == 8 && output.Length == 8
    modifies output
    ensures output[..] == PairBlock(TripleDecrypt(sp, old(Subkeys(context.k1.ks[..])), old(Subkeys(context.k2.ks[..])),
      old(Subkeys(context.k3.ks[..])), BlockPair(old(input[..]))))
  {
    hide Des, BlockPair, PairBlock, Subkeys, Reverse;
    ghost var k1, k2, k3 := Subkeys(context.k1.ks[..]), Subkeys(context.k2.ks[..]), Subkeys(context.k3.ks[..]);
    ghost var p := BlockPair(input[..]);
    DesDecryptBlock(sp, context.k3, input, output);
    PairRoundTrip(Des(sp, Reverse(k3), p));
    DesEncryptBlock(sp, context.k2, output, output);
    PairRoundTrip(Des(sp, k2, Des(sp, Reverse(k3), p)));
    DesDecryptBlock(sp, context.k1, output, output);
  }

  lemma PairRoundTrip(p: Pair)
    ensures BlockPair(PairBlock(p)) == p
  {
    hide BlockPair, PairBlock;
    BlockRoundTrip(PairBlock(p), p);
  }

  // ---------------------------------------------------------------- as block ciphers

  // Encryption and decryption of octet blocks under a whole key.
  function TripleEnc(sp: SBoxes, key: seq<byte>, b: seq<byte>): (r: seq<byte>)
    requires KeyLength(|key|)
    ensures |b| == 8 ==> |r| == 8
  {
    if |b| != 8 then b
    else PairBlock(TripleEncrypt(sp, Schedule(KeyAt(key, 0)), Schedule(KeyAt(key, SecondKey(|key|))),
                                 Schedule(KeyAt(key, ThirdKey(|key|))), BlockPair(b)))
  }

  function TripleDec(sp: SBoxes, key: seq<byte>, b: seq<byte>): (r: seq<byte>)
    requires KeyLength(|key|)
    ensures |b| == 8 ==> |r| == 8
  {
    if |b| != 8 then b
    else PairBlock(TripleDecrypt(sp, Schedule(KeyAt(key, 0)), Schedule(KeyAt(key, SecondKey(|key|))),
                                 Schedule(KeyAt(key, ThirdKey(|key|))), BlockPair(b)))
  }

  lemma TripleDecEnc(sp: SBoxes, key: seq<byte>, b: seq<byte>)
    requires KeyLength(|key|) && |b| == 8
    ensures TripleDec(sp, key, TripleEnc(sp, key, b)) == b
  {
    hide BlockPair, PairBlock, TripleEncrypt, TripleDecrypt, Schedule, KeyAt;
    var k1, k2 := Schedule(KeyAt(key, 0)), Schedule(KeyAt(key, SecondKey(|key|)));
    var k3, p := Schedule(KeyAt(key, ThirdKey(|key|))), BlockPair(b);
    PairRoundTrip(TripleEncrypt(sp, k1, k2, k3, p));
    TripleUndo(sp, k1, k2, k3, p);
    BlockRoundTrip(b, p);
  }

  // des3CipherAlgo with an initialised context.
  function TripleDes(sp: SBoxes, key: seq<byte>): Cipher
    requires KeyLength(|key|)
  {
    Cipher(8, b => TripleEnc(sp, key, b), b => TripleDec(sp, key, b))
  }

  // Triple DES is a block cipher in the sense the modes need, for keys of 8, 16 and 24 octets.
  lemma TripleDesValid(sp: SBoxes, key: seq<byte>)
    requires KeyLength(|key|)
    ensures TripleDes(sp, key).Valid()
  {
    hide TripleEnc, TripleDec;
    var c := TripleDes(sp, key);
    forall b: seq<byte> ensures c.BlockAt(b) {
      if |b| == 8 {
        TripleDecEnc(sp, key, b);
      }
    }
  }

  // Under an 8-octet key triple DES is DES.
  lemma SingleKeyIsDes(sp: SBoxes, key: seq<byte>, b: seq<byte>)
    requires |key| == 8 && |b| == 8
    ensures TripleEnc(sp, key, b) == PairBlock(Des(sp, Schedule(BlockPair(key)), BlockPair(b)))
  {
    hide BlockPair, PairBlock, TripleEncrypt, Schedule, Des;
    assert key[0..8] == key;
    TripleWithOneKey(sp, Schedule(BlockPair(key)), BlockPair(b));
  }

  // Key setup and the block methods compute this cipher.
  method KeyedEncryptDecrypt(sp: SBoxes, key: array<byte>, block: array<byte>) returns (c: array<byte>, p: array<byte>)
    requires KeyLength(key.Length) && block.Length == 8
    ensures fresh(c) && fresh(p)
    ensures c[..] == TripleDes(sp, key[..]).enc(block[..])
    ensures p[..] == TripleDes(sp, key[..]).dec(block[..])
  {
    hide Schedule, KeyAt, TripleEncrypt, TripleDecrypt, PairBlock, BlockPair, Subkeys;
    var context := new Des3Context();
    var status := Des3Init(context, key);
    c, p := new byte[8], new byte[8];
    Des3EncryptBlock(sp, context, block, c);
    Des3DecryptBlock(sp, context, block, p);
  }
}
