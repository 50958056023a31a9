/** Counter mode (ctrEncrypt, ctrDecrypt): both directions are the same loop. */
module Ctr {
  import opened Blocks
  import opened Counter
  import opened Modes

  datatype Status = NoError | InvalidParameter

  predicate CounterBits(cipher: Cipher, bits: nat) { bits % 8 == 0 && bits / 8 <= cipher.blockSize }

  // One block: add k octets of the key stream, then increment the counter.
  method Block(cipher: Cipher, m: nat, t: array<byte>, p: array<byte>, po: nat, c: array<byte>, co: nat, k: nat)
    requires cipher.Valid() && t.Length == cipher.blockSize && t != p && t != c && m <= cipher.blockSize
    requires 0 < k <= cipher.blockSize && po + k <= p.Length && co + k <= c.Length && (p == c ==> po == co)
    modifies t, c
    ensures
      var s := One(Mode.Ctr(cipher, m), old(t[..]), old(p[po..po + k]));
      t[..] == s.next && c[..] == Overwrite(old(c[..]), co, s.out)
  {
    hide Xor, Overwrite, NextBlock;
    ghost var t0, d := t[..], p[po..po + k];
    var o := new byte[cipher.blockSize];
    CtrOne(cipher, m, t0, d);
    EncryptBlock(cipher, t, o);
    assert o[0..k] == cipher.enc(t0)[..k];
    XorBlock(c, co, p, po, o, 0, k);
    Increment(t, m);
  }

  // The counter width is given in bits. The buffers may be the same.
  method Crypt(cipher: Cipher, bits: nat, t: array<byte>, p: array<byte>, po: nat, c: array<byte>, co: nat, length: nat)
    returns (status: Status)
    requires cipher.Valid() && t.Length == cipher.blockSize && t != p && t != c
    requires po + length <= p.Length && co + length <= c.Length && (p == c ==> po == co)
    modifies t, c
    ensures status == if CounterBits(cipher, bits) then NoError else InvalidParameter
    ensures status != NoError ==> c[..] == old(c[..]) && t[..] == old(t[..])
    ensures status == NoError ==>
      var mode, d := Mode.Ctr(cipher, bits / 8), old(p[po..po + length]);
      && c[..] == Overwrite(old(c[..]), co, Output(mode, old(t[..]), d))
      && t[..] == Final(mode, old(t[..]), d)
  {
    hide Overwrite, Output, Final, One, Halfway, Fits;
    if bits % 8 != 0 { return InvalidParameter; }
    var m := bits / 8;
    if m > cipher.blockSize { return InvalidParameter; }
    ghost var mode, r0, d0, out0 := Mode.Ctr(cipher, m), t[..], p[po..po + length], c[..];
    ghost var full := Output(mode, r0, d0);
    var pos := 0;
    LoopStart(mode, r0, d0);
    OverwriteNothing(out0, co);
    while length - pos > 0
      invariant 0 <= pos <= length && pos <= |full|
      invariant Halfway(mode, r0, d0, t[..], pos)
      invariant c[..] == Overwrite(out0, co, full[..pos])
      invariant p != c ==> p[..][po..po + length] == d0
    {
      var k := Min(length - pos, cipher.blockSize);
      LoopStep(mode, r0, d0, t[..], pos);
      Operand(p[..], po, p == c, out0, full, d0, pos, k);
      assert p[po + pos..po + pos + k] == p[..][po + pos..po + pos + k];
      Block(cipher, m, t, p, po + pos, c, co + pos, k);
      Written(out0, co, full, pos, k);
      pos := pos + k;
    }
    LoopEnd(mode, r0, d0, t[..], pos);
    status := NoError;
  }
}
