/** Cipher feedback (cfbEncrypt, cfbDecrypt) with segments of any number of octets up to a block. */
module Cfb {
  import opened Blocks
  import opened Modes

  datatype Status = NoError | InvalidParameter | InvalidLength

  // memmove(iv, iv + s, n - s)
  method ShiftLeft(iv: array<byte>, s: nat)
    requires s <= iv.Length
    modifies iv
    ensures iv[..iv.Length - s] == old(iv[s..])
  {
    for i := 0 to iv.Length - s
      invariant iv[..i] == old(iv[s..s + i])
      invariant iv[i..] == old(iv[i..])
    {
      assert iv[s + i] == iv[i..][s] == old(iv[i..])[s] == old(iv[s + i]);
      iv[i] := iv[s + i];
    }
    assert old(iv[s..]) == old(iv[s..s + (iv.Length - s)]);
  }

  // The register loses its first s octets and gains the s octets of c from co on.
  method ShiftIn(iv: array<byte>, s: nat, c: array<byte>, co: nat)
    requires s <= iv.Length && co + s <= c.Length && iv != c
    modifies iv
    ensures iv[..] == old(iv[s..]) + c[co..co + s]
  {
    hide Overwrite;
    var n := iv.Length;
    ShiftLeft(iv, s);
    ghost var was := iv[..];
    Copy(iv, n - s, c, co, s);
    OverwriteParts(was, n - s, c[co..co + s]);
    assert iv[..] == iv[..][..n - s] + iv[..][n - s..n] + iv[..][n..];
    assert iv[..][n..] == [];
  }

  method EncryptStep(cipher: Cipher, s: nat, iv: array<byte>, p: array<byte>, po: nat, c: array<byte>, co: nat)
    requires cipher.Valid() && iv.Length == cipher.blockSize && iv != p && iv != c && 1 <= s <= cipher.blockSize
    requires po + s <= p.Length && co + s <= c.Length && (p == c ==> po == co)
    modifies iv, c
    ensures
      var t := One(CfbEncrypt(cipher, s), old(iv[..]), old(p[po..po + s]));
      iv[..] == t.next && c[..] == Overwrite(old(c[..]), co, t.out)
  {
    hide Xor, Overwrite;
    ghost var iv0, c0, d := iv[..], c[..], p[po..po + s];
    var o := new byte[cipher.blockSize];
    assert cipher.BlockAt(iv0);
    EncryptBlock(cipher, iv, o);
    assert o[0..s] == cipher.enc(iv0)[..s];
    XorBlock(c, co, p, po, o, 0, s);
    OverwriteParts(c0, co, Xor(d, cipher.enc(iv0)[..s]));
    ShiftIn(iv, s, c, co);
    assert old(iv[s..]) == iv0[s..];
  }

  method DecryptStep(cipher: Cipher, s: nat, iv: array<byte>, c: array<byte>, co: nat, p: array<byte>, po: nat)
    requires cipher.Valid() && iv.Length == cipher.blockSize && iv != p && iv != c && 1 <= s <= cipher.blockSize
    requires po + s <= p.Length && co + s <= c.Length && (p == c ==> po == co)
    modifies iv, p
    ensures
      var t := One(CfbDecrypt(cipher, s), old(iv[..]), old(c[co..co + s]));
      iv[..] == t.next && p[..] == Overwrite(old(p[..]), po, t.out)
  {
    hide Xor, Overwrite;
    ghost var iv0, d := iv[..], c[co..co + s];
    var o := new byte[cipher.blockSize];
    assert cipher.BlockAt(iv0);
    EncryptBlock(cipher, iv, o);
    assert o[0..s] == cipher.enc(iv0)[..s];
    ShiftIn(iv, s, c, co);
    assert old(iv[s..]) == iv0[s..];
    XorBlock(p, po, c, co, o, 0, s);
  }

  predicate SegmentBits(cipher: Cipher, bits: nat) { bits % 8 == 0 && 1 <= bits / 8 <= cipher.blockSize }

  // cfbEncrypt; the segment size is given in bits. The buffers may be the same.
  method Encrypt(cipher: Cipher, bits: nat, iv: array<byte>, p: array<byte>, po: nat, c: array<byte>, co: nat,
      length: nat)
    returns (status: Status)
    requires cipher.Valid() && iv.Length == cipher.blockSize && iv != p && iv != c
    requires po + length <= p.Length && co + length <= c.Length && (p == c ==> po == co)
    modifies iv, c
    ensures !SegmentBits(cipher, bits) ==>
      status == InvalidParameter && c[..] == old(c[..]) && iv[..] == old(iv[..])
    ensures SegmentBits(cipher, bits) ==>
      var mode, d := CfbEncrypt(cipher, bits / 8), old(p[po..po + length]);
      && c[..] == Overwrite(old(c[..]), co, Output(mode, old(iv[..]), d))
      && iv[..] == Final(mode, old(iv[..]), d)
      && status == if mode.Taken(length) == length then NoError else InvalidLength
  {
    hide Overwrite, Output, Final, One, Halfway, Fits;
    if bits % 8 != 0 { return InvalidParameter; }
    var s := bits / 8;
    if s < 1 || s > cipher.blockSize { return InvalidParameter; }
    ghost var mode, r0, d0, out0 := CfbEncrypt(cipher, s), iv[..], p[po..po + length], c[..];
    ghost var full := Output(mode, r0, d0);
    var pos := 0;
    LoopStart(mode, r0, d0);
    OverwriteNothing(out0, co);
    while length - pos >= s
      invariant 0 <= pos <= length && pos <= |full|
      invariant Halfway(mode, r0, d0, iv[..], pos)
      invariant c[..] == Overwrite(out0, co, full[..pos])
      invariant p != c ==> p[..][po..po + length] == d0
    {
      LoopStep(mode, r0, d0, iv[..], pos);
      Operand(p[..], po, p == c, out0, full, d0, pos, s);
      assert p[po + pos..po + pos + s] == p[..][po + pos..po + pos + s];
      EncryptStep(cipher, s, iv, p, po + pos, c, co + pos);
      Written(out0, co, full, pos, s);
      pos := pos + s;
    }
    LoopEnd(mode, r0, d0, iv[..], pos);
    status := if pos != length then InvalidLength else NoError;
  }

  // cfbDecrypt
  method Decrypt(cipher: Cipher, bits: nat, iv: array<byte>, c: array<byte>, co: nat, p: array<byte>, po: nat,
      length: nat)
    returns (status: Status)
    requires cipher.Valid() && iv.Length == cipher.blockSize && iv != p && iv != c
    requires po + length <= p.Length && co + length <= c.Length && (p == c ==> po == co)
    modifies iv, p
    ensures !SegmentBits(cipher, bits) ==>
      status == InvalidParameter && p[..] == old(p[..]) && iv[..] == old(iv[..])
    ensures SegmentBits(cipher, bits) ==>
      var mode, d := CfbDecrypt(cipher, bits / 8), old(c[co..co + length]);
      && p[..] == Overwrite(old(p[..]), po, Output(mode, old(iv[..]), d))
      && iv[..] == Final(mode, old(iv[..]), d)
      && status == if mode.Taken(length) == length then NoError else InvalidLength
  {
    hide Overwrite, Output, Final, One, Halfway, Fits;
    if bits % 8 != 0 { return InvalidParameter; }
    var s := bits / 8;
    if s < 1 || s > cipher.blockSize { return InvalidParameter; }
    ghost var mode, r0, d0, out0 := CfbDecrypt(cipher, s), iv[..], c[co..co + length], p[..];
    ghost var full := Output(mode, r0, d0);
    var pos := 0;
    LoopStart(mode, r0, d0);
    OverwriteNothing(out0, po);
    while length - pos >= s
      invariant 0 <= pos <= length && pos <= |full|
      invariant Halfway(mode, r0, d0, iv[..], pos)
      invariant p[..] == Overwrite(out0, po, full[..pos])
      invariant p != c ==> c[..][co..co + length] == d0
    {
      LoopStep(mode, r0, d0, iv[..], pos);
      Operand(c[..], co, p == c, out0, full, d0, pos, s);
      assert c[co + pos..co + pos + s] == c[..][co + pos..co + pos + s];
      DecryptStep(cipher, s, iv, c, co + pos, p, po + pos);
      Written(out0, po, full, pos, s);
      pos := pos + s;
    }
    LoopEnd(mode, r0, d0, iv[..], pos);
    status := if pos != length then InvalidLength else NoError;
  }
}
