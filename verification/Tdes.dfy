/**
 * The triple-DES CBC functions of base_security.cpp: the message is filled up with a padding
 * octet and handed to the CBC mode one block at a time.
 */
module Tdes {
  import opened Blocks
  import opened Feistel
  import opened Des
  import opened Modes
  import Cbc

  // The message filled up with c to a multiple of 8 octets.
  function Filled(d: seq<byte>, c: byte): (r: seq<byte>)
    ensures |r| % 8 == 0 && |d| <= |r| < |d| + 8
    ensures r[..|d|] == d && forall i | |d| <= i < |r| :: r[i] == c
  {
    d + seq((8 - |d| % 8) % 8, _ => c)
  }

  lemma BlockWhole(mode: Mode, i: nat)
    requires mode.Size() == 8
    ensures Whole(mode.Size(), 8 * i)
  {
    WholeMultiple(8, i);
  }

  // One call of cbcEncrypt for each block
  method EncryptCalls(cipher: Cipher, iv: array<byte>, message: array<byte>, out: array<byte>, count: nat)
    requires cipher.Valid() && cipher.blockSize == 8 && iv.Length == 8 && iv != message && iv != out && message != out
    requires message.Length == out.Length == 8 * count
    modifies iv, out
    ensures
      var mode := CbcEncrypt(cipher);
      out[..] == Output(mode, old(iv[..]), message[..]) && iv[..] == Final(mode, old(iv[..]), message[..])
  {
    hide Overwrite, Output, Final, Cipher.Valid;
    ghost var mode, r0, v := CbcEncrypt(cipher), iv[..], message[..];
    assert v[..0] == [];
    Stopped(mode, r0, []);
    for i := 0 to count
      invariant iv[..] == Final(mode, r0, v[..8 * i])
      invariant |Output(mode, r0, v[..8 * i])| == 8 * i && out[..8 * i] == Output(mode, r0, v[..8 * i])
    {
      ghost var done, was := v[..8 * i], out[..];
      var status := Cbc.Encrypt(cipher, iv, message, 8 * i, out, 8 * i, 8);
      NextBlock(mode, r0, v, i);
      assert message[8 * i..8 * i + 8] == v[8 * i..8 * i + 8];
      OverwriteParts(was, 8 * i, Output(mode, Final(mode, r0, done), v[8 * i..8 * i + 8]));
      assert out[..8 * (i + 1)] == out[..][..8 * i] + out[..][8 * i..8 * i + 8];
      assert was[..8 * i] == out[..][..8 * i];
    }
    assert v[..8 * count] == v && out[..8 * count] == out[..];
  }

  // One call of cbcDecrypt for each block
  method DecryptCalls(cipher: Cipher, iv: array<byte>, input: array<byte>, out: array<byte>, count: nat)
    requires cipher.Valid() && cipher.blockSize == 8 && iv.Length == 8 && iv != input && iv != out && input != out
    requires input.Length == out.Length == 8 * count
    modifies iv, out
    ensures
      var mode := CbcDecrypt(cipher);
      out[..] == Output(mode, old(iv[..]), input[..]) && iv[..] == Final(mode, old(iv[..]), input[..])
  {
    hide Overwrite, Output, Final, Cipher.Valid;
    ghost var mode, r0, v := CbcDecrypt(cipher), iv[..], input[..];
    assert v[..0] == [];
    Stopped(mode, r0, []);
    for i := 0 to count
      invariant iv[..] == Final(mode, r0, v[..8 * i])
      invariant |Output(mode, r0, v[..8 * i])| == 8 * i && out[..8 * i] == Output(mode, r0, v[..8 * i])
    {
      ghost var done, was := v[..8 * i], out[..];
      var status := Cbc.Decrypt(cipher, iv, input, 8 * i, out, 8 * i, 8);
      NextBlock(mode, r0, v, i);
      assert input[8 * i..8 * i + 8] == v[8 * i..8 * i + 8];
      OverwriteParts(was, 8 * i, Output(mode, Final(mode, r0, done), v[8 * i..8 * i + 8]));
      assert out[..8 * (i + 1)] == out[..][..8 * i] + out[..][8 * i..8 * i + 8];
      assert was[..8 * i] == out[..][..8 * i];
    }
    assert v[..8 * count] == v && out[..8 * count] == out[..];
  }

  // _en_cbc_tdes. Keys of other lengths give no output. The initialization vector is updated.
  method EnCbcTdes(sp: SBoxes, key: seq<byte>, iv: array<byte>, input: seq<byte>, padding: byte)
    returns (out: array<byte>)
    requires iv.Length == 8
    modifies iv
    ensures fresh(out)
    ensures |key| != 16 ==> out[..] == [] && iv[..] == old(iv[..])
    ensures |key| == 16 ==>
      var mode := CbcEncrypt(TripleDes(sp, key));
      && mode.Valid()
      && out[..] == Output(mode, old(iv[..]), Filled(input, padding))
      && iv[..] == Final(mode, old(iv[..]), Filled(input, padding))
  {
    hide Overwrite, Output, Final, TripleEnc, TripleDec, Cipher.Valid;
    if |key| != 16 {
      out := new byte[0];
      return;
    }
    var count := |input| / 8;
    if |input| % 8 != 0 { count := count + 1; }
    ghost var v := Filled(input, padding);
    assert |v| == 8 * count;
    var message := new byte[8 * count](i requires 0 <= i < 8 * count => if i < |input| then input[i] else padding);
    assert message[..] == v;
    out := new byte[8 * count](_ => 0);
    TripleDesValid(sp, key);
    EncryptCalls(TripleDes(sp, key), iv, message, out, count);
  }

  // One more block of eight octets, by a call of its own.
  lemma NextBlock(mode: Mode, r: seq<byte>, v: seq<byte>, i: nat)
    requires mode.Valid() && mode.cipher.blockSize == 8 && (mode.CbcEncrypt? || mode.CbcDecrypt?) && |r| == 8
    requires 8 * i + 8 <= |v|
    ensures
      var done, block := v[..8 * i], v[8 * i..8 * i + 8];
      && |Output(mode, Final(mode, r, done), block)| == 8
      && Output(mode, r, v[..8 * (i + 1)]) == Output(mode, r, done) + Output(mode, Final(mode, r, done), block)
      && Final(mode, r, v[..8 * (i + 1)]) == Final(mode, Final(mode, r, done), block)
  {
    hide Output, Final, Cipher.Valid;
    var done, block := v[..8 * i], v[8 * i..8 * i + 8];
    assert v[..8 * (i + 1)] == done + block;
    BlockWhole(mode, i);
    Pieces(mode, r, done, block);
    OneBlock(mode);
  }

  lemma OneBlock(mode: Mode)
    requires mode.Size() == 8 && !mode.Ctr?
    ensures mode.Taken(8) == 8
  {
    assert mode.Taken(0) == 0;
  }

  // _de_cbc_tdes. Lengths that are no multiple of 8 give no output either.
  method DeCbcTdes(sp: SBoxes, key: seq<byte>, iv: array<byte>, input: array<byte>) returns (out: array<byte>)
    requires iv.Length == 8 && iv != input
    modifies iv
    ensures fresh(out)
    ensures |key| != 16 || input.Length % 8 != 0 ==> out[..] == [] && iv[..] == old(iv[..])
    ensures |key| == 16 && input.Length % 8 == 0 ==>
      var mode := CbcDecrypt(TripleDes(sp, key));
      && mode.Valid()
      && out[..] == Output(mode, old(iv[..]), input[..])
      && iv[..] == Final(mode, old(iv[..]), input[..])
  {
    hide Overwrite, Output, Final, TripleEnc, TripleDec, Cipher.Valid;
    if |key| != 16 {
      out := new byte[0];
      return;
    }
    if input.Length % 8 != 0 {
      out := new byte[0];
      return;
    }
    var count := input.Length / 8;
    out := new byte[input.Length](_ => 0);
    TripleDesValid(sp, key);
    DecryptCalls(TripleDes(sp, key), iv, input, out, count);
  }

  // The initialization vector is copied, so that the caller's stays as it is.
  method CopyOf(iv: seq<byte>) returns (v: array<byte>)
    ensures fresh(v) && v[..] == iv
  {
    v := new byte[|iv|](i requires 0 <= i < |iv| => iv[i]);
  }

  // tdes_cbc_encrypt_with_padding
  method TdesCbcEncryptWithPadding(sp: SBoxes, input: seq<byte>, key: seq<byte>, iv: seq<byte>, padding: byte)
    returns (out: array<byte>)
    requires |key| == 16 && |iv| == 8
    ensures fresh(out)
    ensures
      var mode := CbcEncrypt(TripleDes(sp, key));
      mode.Valid() && out[..] == Output(mode, iv, Filled(input, padding))
  {
    hide Output, Filled, Cipher.Valid;
    var v := CopyOf(iv);
    out := EnCbcTdes(sp, key, v, input, padding);
  }

  // tdes_cbc_descrypt
  method TdesCbcDescrypt(sp: SBoxes, input: array<byte>, key: seq<byte>, iv: seq<byte>) returns (out: array<byte>)
    requires |key| == 16 && |iv| == 8
    ensures fresh(out)
    ensures input.Length % 8 != 0 ==> out[..] == []
    ensures input.Length % 8 == 0 ==>
      var mode := CbcDecrypt(TripleDes(sp, key));
      mode.Valid() && out[..] == Output(mode, iv, input[..])
  {
    hide Output, Cipher.Valid;
    var v := CopyOf(iv);
    out := DeCbcTdes(sp, key, v, input);
  }

  // Decrypting what was encrypted gives the message followed by the padding octet up to the
  // next multiple of 8.
  method RoundTrip(sp: SBoxes, message: seq<byte>, key: seq<byte>, iv: seq<byte>, padding: byte)
    returns (out: array<byte>)
    requires |key| == 16 && |iv| == 8
    ensures fresh(out) && out[..] == Filled(message, padding)
  {
    hide Output, Filled, Final, Cipher.Valid;
    var c := TdesCbcEncryptWithPadding(sp, message, key, iv, padding);
    ghost var v, mode := Filled(message, padding), CbcEncrypt(TripleDes(sp, key));
    TakesWhole(mode, |v|);
    out := TdesCbcDescrypt(sp, c, key, iv);
    Inverse(mode, iv, v);
    assert v[..|v|] == v;
  }

  lemma {:induction false} TakesWhole(mode: Mode, n: nat)
    requires mode.Size() == 8 && n % 8 == 0
    ensures mode.Taken(n) == n
  {
    if n >= 8 {
      TakesWhole(mode, n - 8);
    }
  }
}
