/** Cipher block chaining (cbcEncrypt, cbcDecrypt) on buffers that may be processed in place. */
module Cbc {
  import opened Blocks
  import opened Modes

  datatype Status = NoError | InvalidLength

  // One block: add the iv, encrypt in place, and take the result as the next iv.
  method EncryptStep(cipher: Cipher, iv: array<byte>, p: array<byte>, po: nat, c: array<byte>, co: nat)
    requires cipher.Valid() && iv.Length == cipher.blockSize && iv != p && iv != c
    requires po + cipher.blockSize <= p.Length && co + cipher.blockSize <= c.Length && (p == c ==> po == co)
    modifies iv, c
    ensures
      var t := One(CbcEncrypt(cipher), old(iv[..]), old(p[po..po + cipher.blockSize]));
      iv[..] == t.next && c[..] == Overwrite(old(c[..]), co, t.out)
  {
    hide Xor, Overwrite;
    var n := cipher.blockSize;
    ghost var c0, iv0, d := c[..], iv[..], p[po..po + n];
    assert iv[0..n] == iv0;
    XorBlock(c, co, p, po, iv, 0, n);
    OverwriteParts(c0, co, Xor(d, iv0));
    ghost var c1 := c[..];
    EncryptAt(cipher, c, co, c, co);
    ghost var x := cipher.enc(Xor(d, iv0));
    OverwriteTwice(c0, co, Xor(d, iv0), x);
    OverwriteParts(c0, co, x);
    Copy(iv, 0, c, co, n);
    OverwriteAll(iv0, x);
  }

  // The number of octets processed is the length up to the last whole block; the buffers may
  // be the same, and iv is left ready for the next call.
  method Encrypt(cipher: Cipher, iv: array<byte>, p: array<byte>, po: nat, c: array<byte>, co: nat, length: nat)
    returns (status: Status)
    requires cipher.Valid() && iv.Length == cipher.blockSize && iv != p && iv != c
    requires po + length <= p.Length && co + length <= c.Length && (p == c ==> po == co)
    modifies iv, c
    ensures
      var mode, d := CbcEncrypt(cipher), old(p[po..po + length]);
      && c[..] == Overwrite(old(c[..]), co, Output(mode, old(iv[..]), d))
      && iv[..] == Final(mode, old(iv[..]), d)
      && status == if mode.Taken(length) == length then NoError else InvalidLength
  {
    hide Overwrite, Output, Final, One, Halfway, Fits;
    ghost var mode, r0, d0, c0 := CbcEncrypt(cipher), iv[..], p[po..po + length], c[..];
    ghost var full := Output(mode, r0, d0);
    var n := cipher.blockSize;
    var pos := 0;
    LoopStart(mode, r0, d0);
    OverwriteNothing(c0, co);
    while length - pos >= n
      invariant 0 <= pos <= length && pos <= |full|
      invariant Halfway(mode, r0, d0, iv[..], pos)
      invariant c[..] == Overwrite(c0, co, full[..pos])
      invariant p != c ==> p[..][po..po + length] == d0
    {
      LoopStep(mode, r0, d0, iv[..], pos);
      Operand(p[..], po, p == c, c0, full, d0, pos, n);
      assert p[po + pos..po + pos + n] == p[..][po + pos..po + pos + n];
      EncryptStep(cipher, iv, p, po + pos, c, co + pos);
      Written(c0, co, full, pos, n);
      pos := pos + n;
    }
    LoopEnd(mode, r0, d0, iv[..], pos);
    status := if pos != length then InvalidLength else NoError;
  }

  // One block: save the ciphertext, decrypt, add the iv, and take the saved block as the next iv.
  method DecryptStep(cipher: Cipher, iv: array<byte>, c: array<byte>, co: nat, p: array<byte>, po: nat)
    requires cipher.Valid() && iv.Length == cipher.blockSize && iv != p && iv != c
    requires po + cipher.blockSize <= p.Length && co + cipher.blockSize <= c.Length && (p == c ==> po == co)
    modifies iv, p
    ensures
      var t := One(CbcDecrypt(cipher), old(iv[..]), old(c[co..co + cipher.blockSize]));
      iv[..] == t.next && p[..] == Overwrite(old(p[..]), po, t.out)
  {
    hide Xor, Overwrite;
    var n := cipher.blockSize;
    ghost var p0, iv0, d := p[..], iv[..], c[co..co + n];
    var t := new byte[n];
    ghost var t0 := t[..];
    Copy(t, 0, c, co, n);
    OverwriteAll(t0, d);
    DecryptAt(cipher, c, co, p, po);
    ghost var x := cipher.dec(d);
    OverwriteParts(p0, po, x);
    assert iv[0..n] == iv0;
    XorBlock(p, po, p, po, iv, 0, n);
    OverwriteTwice(p0, po, x, Xor(x, iv0));
    Copy(iv, 0, t, 0, n);
    assert t[0..n] == d;
    OverwriteAll(iv0, d);
  }

  method Decrypt(cipher: Cipher, iv: array<byte>, c: array<byte>, co: nat, p: array<byte>, po: nat, length: nat)
    returns (status: Status)
    requires cipher.Valid() && iv.Length == cipher.blockSize && iv != p && iv != c
    requires po + length <= p.Length && co + length <= c.Length && (p == c ==> po == co)
    modifies iv, p
    ensures
      var mode, d := CbcDecrypt(cipher), old(c[co..co + length]);
      && p[..] == Overwrite(old(p[..]), po, Output(mode, old(iv[..]), d))
      && iv[..] == Final(mode, old(iv[..]), d)
      && status == if mode.Taken(length) == length then NoError else InvalidLength
  {
    hide Overwrite, Output, Final, One, Halfway, Fits;
    ghost var mode, r0, d0, p0 := CbcDecrypt(cipher), iv[..], c[co..co + length], p[..];
    ghost var full := Output(mode, r0, d0);
    var n := cipher.blockSize;
    var pos := 0;
    LoopStart(mode, r0, d0);
    OverwriteNothing(p0, po);
    while length - pos >= n
      invariant 0 <= pos <= length && pos <= |full|
      invariant Halfway(mode, r0, d0, iv[..], pos)
      invariant p[..] == Overwrite(p0, po, full[..pos])
      invariant p != c ==> c[..][co..co + length] == d0
    {
      LoopStep(mode, r0, d0, iv[..], pos);
      Operand(c[..], co, p == c, p0, full, d0, pos, n);
      assert c[co + pos..co + pos + n] == c[..][co + pos..co + pos + n];
      DecryptStep(cipher, iv, c, co + pos, p, po + pos);
      Written(p0, po, full, pos, n);
      pos := pos + n;
    }
    LoopEnd(mode, r0, d0, iv[..], pos);
    status := if pos != length then InvalidLength else NoError;
  }
}
