/** Authenticated encryption with GCM (gcmEncrypt, gcmDecrypt), over any 128-bit block cipher. */
module Gcm {
  import opened Blocks
  import opened Counter
  import opened CounterMode
  import opened GcmMul

  datatype Status = NoError | InvalidParameter | Failure

  // ---------------------------------------------------------------- hash, counter and tag

  // GHASH continued from s: each block of at most 16 octets is added and multiplied by h.
  function Ghash(h: seq<byte>, s: seq<byte>, d: seq<byte>): (r: seq<byte>)
    requires |h| == 16 && |s| == 16
    ensures |r| == 16
    decreases |d|
  {
    if d == [] then s
    else
      var k := Min(|d|, 16);
      Ghash(h, MulBlock(XorPrefix(s, d[..k]), h), d[k..])
  }

  // Two 64-bit lengths in bits, of which the code stores the low 32 bits.
  function Lengths(a: nat, c: nat): (r: seq<byte>)
    ensures |r| == 16
  {
    Zeros(4) + Be32(a * 8) + Zeros(4) + Be32(c * 8)
  }

  function PreCounter(h: seq<byte>, iv: seq<byte>): (r: seq<byte>)
    requires |h| == 16
    ensures |r| == 16
  {
    if |iv| == 12 then iv + Be32(1)
    else MulBlock(Xor(Ghash(h, Zeros(16), iv), Zeros(12) + Be32(|iv| * 8)), h)
  }

  function HashKey(cipher: Cipher): (r: seq<byte>)
    requires cipher.Valid() && cipher.blockSize == 16
    ensures |r| == 16
  {
    assert cipher.BlockAt(Zeros(16));
    cipher.enc(Zeros(16))
  }

  // The full tag of additional data a and ciphertext c.
  function Tag(cipher: Cipher, iv: seq<byte>, a: seq<byte>, c: seq<byte>): (r: seq<byte>)
    requires cipher.Valid() && cipher.blockSize == 16
    ensures |r| == 16
  {
    var h := HashKey(cipher);
    var s := MulBlock(Xor(Ghash(h, Ghash(h, Zeros(16), a), c), Lengths(|a|, |c|)), h);
    var j := PreCounter(h, iv);
    assert cipher.BlockAt(j);
    Xor(cipher.enc(j), s)
  }

  predicate Accepted(cipher: Cipher, ivLen: nat, tLen: nat) {
    cipher.blockSize == 16 && ivLen >= 1 && 4 <= tLen <= 16
  }

  function Ciphertext(cipher: Cipher, iv: seq<byte>, p: seq<byte>): (r: seq<byte>)
    requires cipher.Valid() && cipher.blockSize == 16
    ensures |r| == |p|
  {
    Gctr(cipher, 4, PreCounter(HashKey(cipher), iv), p)
  }

  // ---------------------------------------------------------------- the loops

  // Adds block after block of d to s, multiplying by h each time.
  method Absorb(s: array<byte>, h: array<byte>, d: array<byte>)
    requires s.Length == 16 && h.Length == 16 && s != h && s != d
    modifies s
    ensures s[..] == Ghash(h[..], old(s[..]), d[..])
  {
    hide MulBlock, XorPrefix;
    var pos := 0;
    assert d[0..] == d[..];
    while pos < d.Length
      invariant 0 <= pos <= d.Length
      invariant Ghash(h[..], s[..], d[pos..]) == Ghash(h[..], old(s[..]), d[..])
    {
      var k := Min(d.Length - pos, 16);
      AbsorbBlock(s, h, d, pos, k);
      assert d[pos..][..k] == d[pos..pos + k] && d[pos..][k..] == d[pos + k..];
      pos := pos + k;
    }
  }

  method AbsorbBlock(s: array<byte>, h: array<byte>, d: array<byte>, pos: nat, k: nat)
    requires s.Length == 16 && h.Length == 16 && s != h && s != d
    requires k <= 16 && pos + k <= d.Length
    modifies s
    ensures s[..] == MulBlock(XorPrefix(old(s[..]), d[pos..pos + k]), h[..])
  {
    hide MulBlock, Xor;
    XorBlock(s, 0, s, 0, d, pos, k);
    PrefixOverwritten(old(s[..]), d[pos..pos + k]);
    assert old(s[..])[0..k] == old(s[0..k]) == old(s[..])[..k];
    GcmMul.GcmMul(s, h);
  }

  lemma PrefixOverwritten(s: seq<byte>, d: seq<byte>)
    requires |d| <= |s|
    ensures Overwrite(s, 0, Xor(s[..|d|], d)) == XorPrefix(s, d)
  {
    hide Xor;
  }

  // The hash subkey and the pre-counter block, as both directions compute them.
  method Start(cipher: Cipher, iv: array<byte>) returns (h: array<byte>, j: array<byte>)
    requires cipher.Valid() && cipher.blockSize == 16
    ensures fresh(h) && fresh(j) && h != j && h.Length == 16 && j.Length == 16
    ensures h[..] == HashKey(cipher) && j[..] == PreCounter(HashKey(cipher), iv[..])
  {
    hide MulBlock, Xor, Ghash, Be32;
    h := new byte[16];
    j := new byte[16];
    Clear(h);
    EncryptBlock(cipher, h, h);
    Clear(j);
    if iv.Length == 12 {
      Copy(j, 0, iv, 0, 12);
      assert iv[0..12] == iv[..];
      Store32(j, 12, 1);
      TailOverwritten(iv[..], Zeros(16), Be32(1));
    } else {
      Absorb(j, h, iv);
      var b := new byte[16];
      Clear(b);
      Store32(b, 12, iv.Length * 8);
      ZerosTail(Be32(iv.Length * 8));
      AddBlock(j, b);
      GcmMul.GcmMul(j, h);
    }
  }

  // Adds a whole block in place.
  method AddBlock(a: array<byte>, b: array<byte>)
    requires a.Length == 16 && b.Length == 16 && a != b
    modifies a
    ensures a[..] == Xor(old(a[..]), b[..])
  {
    hide Xor;
    ghost var was := a[..];
    assert a[0..16] == a[..] && b[0..16] == b[..];
    XorBlock(a, 0, a, 0, b, 0, 16);
    OverwriteAll(was, Xor(was, b[..]));
  }

  lemma TailOverwritten(iv: seq<byte>, z: seq<byte>, d: seq<byte>)
    requires |iv| == 12 && |z| == 16 && |d| == 4
    ensures Overwrite(Overwrite(z, 0, iv), 12, d) == iv + d
  {
  }

  lemma ZerosTail(d: seq<byte>)
    requires |d| == 4
    ensures Overwrite(Zeros(16), 12, d) == Zeros(12) + d
  {
  }

  lemma LengthsStored(a: nat, c: nat)
    ensures Overwrite(Overwrite(Zeros(16), 4, Be32(a * 8)), 12, Be32(c * 8)) == Lengths(a, c)
  {
    hide Be32;
  }

  // The length block and the last multiplication.
  method Finish(s: array<byte>, h: array<byte>, aLen: nat, length: nat)
    requires s.Length == 16 && h.Length == 16 && s != h
    modifies s
    ensures s[..] == MulBlock(Xor(old(s[..]), Lengths(aLen, length)), h[..])
  {
    hide MulBlock, Xor, Lengths, Be32;
    var b := new byte[16];
    Clear(b);
    Store32(b, 4, aLen * 8);
    Store32(b, 12, length * 8);
    LengthsStored(aLen, length);
    AddBlock(s, b);
    GcmMul.GcmMul(s, h);
  }

  lemma GhashUnfold(h: seq<byte>, s: seq<byte>, d: seq<byte>)
    requires |h| == 16 && |s| == 16 && d != []
    ensures var k := Min(|d|, 16); Ghash(h, s, d) == Ghash(h, MulBlock(XorPrefix(s, d[..k]), h), d[k..])
  {
    hide MulBlock, XorPrefix;
  }

  lemma GhashEnd(h: seq<byte>, s: seq<byte>)
    requires |h| == 16 && |s| == 16
    ensures Ghash(h, s, []) == s
  {
  }

  // The plaintext loop. The buffers p and c may be the same.
  method EncryptBlocks(cipher: Cipher, h: array<byte>, j: array<byte>, s: array<byte>, p: array<byte>, c: array<byte>)
    requires cipher.Valid() && cipher.blockSize == 16 && p.Length == c.Length
    requires h.Length == 16 && j.Length == 16 && s.Length == 16
    requires h != j && h != s && j != s && c != h && c != j && c != s && p != j && p != s
    modifies j, s, c
    ensures c[..] == Gctr(cipher, 4, old(j[..]), old(p[..]))
    ensures s[..] == Ghash(h[..], old(s[..]), c[..])
  {
    hide MulBlock, Xor, XorPrefix, Ghash, Gctr, NextBlock, Overwrite;
    ghost var hs, s1, p0 := h[..], s[..], p[..];
    ghost var full := Gctr(cipher, 4, j[..], p0);
    var pos := 0;
    assert p0[0..] == p0 && full[0..] == full;
    while pos < p.Length
      invariant 0 <= pos <= p.Length == |full|
      invariant h[..] == hs
      invariant c[..pos] == full[..pos] && p[pos..] == p0[pos..]
      invariant Remaining(cipher, 4, j[..], p0[pos..], full, pos)
      invariant Ghash(hs, s[..], full[pos..]) == Ghash(hs, s1, full)
    {
      var k := Min(p.Length - pos, 16);
      EncryptOne(cipher, h, j, s, p, c, pos, k, p0, full);
      pos := pos + k;
    }
    assert full[pos..] == [] && full[..pos] == full && c[..pos] == c[..];
    GhashEnd(hs, s[..]);
  }

  method EncryptOne(cipher: Cipher, h: array<byte>, j: array<byte>, s: array<byte>, p: array<byte>, c: array<byte>,
                    pos: nat, k: nat, ghost p0: seq<byte>, ghost full: seq<byte>)
    requires cipher.Valid() && cipher.blockSize == 16 && p.Length == c.Length == |p0| == |full|
    requires h.Length == 16 && j.Length == 16 && s.Length == 16
    requires h != j && h != s && j != s && c != h && c != j && c != s && p != j && p != s
    requires pos < p.Length && k == Min(p.Length - pos, 16)
    requires c[..pos] == full[..pos] && p[pos..] == p0[pos..]
    requires Remaining(cipher, 4, j[..], p0[pos..], full, pos)
    modifies j, s, c
    ensures c[..pos + k] == full[..pos + k] && p[pos + k..] == p0[pos + k..]
    ensures Remaining(cipher, 4, j[..], p0[pos + k..], full, pos + k)
    ensures Ghash(h[..], s[..], full[pos + k..]) == Ghash(h[..], old(s[..]), full[pos..])
  {
    hide MulBlock, Xor, XorPrefix, Ghash, Gctr, NextBlock, Overwrite, Remaining;
    ghost var j0, c0, x := j[..], c[..], p0[pos..];
    assert p[pos..pos + k] == p[pos..][..k];
    KeystreamBlock(cipher, 4, j, p, c, pos, k);
    ghost var o := Xor(x[..k], cipher.enc(j[..])[..k]);
    RemainingStep(cipher, 4, j0, x, full, pos, o);
    OverwriteParts(c0, pos, o);
    assert c[..pos + k] == c[..pos] + c[pos..pos + k];
    assert full[..pos + k] == full[..pos] + full[pos..pos + k];
    assert x[k..] == p0[pos + k..];
    assert p[pos + k..] == p0[pos + k..] by {
      assert p != c ==> p[pos + k..] == p[pos..][k..];
      assert c0[pos + k..] == c0[pos..][k..];
    }
    GhashUnfold(h[..], s[..], full[pos..]);
    AbsorbBlock(s, h, c, pos, k);
  }

  // Encryption; p and c may be the same buffer.
  method GcmEncrypt(cipher: Cipher, iv: array<byte>, a: array<byte>, p: array<byte>, c: array<byte>, t: array<byte>)
    returns (status: Status)
    requires cipher.Valid() && p.Length == c.Length
    requires c != iv && c != a && t != iv && t != a && t != p && t != c
    modifies c, t
    ensures status == if Accepted(cipher, iv.Length, t.Length) then NoError else InvalidParameter
    ensures status != NoError ==> c[..] == old(c[..]) && t[..] == old(t[..])
    ensures status == NoError ==>
      && c[..] == Ciphertext(cipher, iv[..], old(p[..]))
      && t[..] == Tag(cipher, iv[..], a[..], c[..])[..t.Length]
  {
    hide MulBlock, Xor, Ghash, Gctr, NextBlock, Overwrite, HashKey, PreCounter, Lengths;
    if cipher.blockSize != 16 { return InvalidParameter; }
    if iv.Length < 1 { return InvalidParameter; }
    if t.Length < 4 || t.Length > 16 { return InvalidParameter; }
    var h, j := Start(cipher, iv);
    var b := new byte[16];
    assert cipher.BlockAt(j[..]);
    EncryptBlock(cipher, j, b);
    ghost var e := b[..];
    Copy(t, 0, b, 0, t.Length);
    assert b[0..t.Length] == e[..t.Length];
    OverwriteAll(old(t[..]), e[..t.Length]);
    var s := new byte[16];
    Clear(s);
    Absorb(s, h, a);
    EncryptBlocks(cipher, h, j, s, p, c);
    Finish(s, h, a.Length, p.Length);
    FinishTag(t, e, s);
    status := NoError;
  }

  // ---------------------------------------------------------------- decryption

  // The ciphertext loop: absorb first, then decrypt. The buffers c and p may be the same.
  method DecryptBlocks(cipher: Cipher, h: array<byte>, j: array<byte>, s: array<byte>, c: array<byte>, p: array<byte>)
    requires cipher.Valid() && cipher.blockSize == 16 && p.Length == c.Length
    requires h.Length == 16 && j.Length == 16 && s.Length == 16
    requires h != j && h != s && j != s && p != h && p != j && p != s && c != j && c != s
    modifies j, s, p
    ensures p[..] == Gctr(cipher, 4, old(j[..]), old(c[..]))
    ensures s[..] == Ghash(h[..], old(s[..]), old(c[..]))
  {
    hide MulBlock, Xor, XorPrefix, Ghash, Gctr, NextBlock, Overwrite;
    ghost var hs, s1, c0 := h[..], s[..], c[..];
    ghost var full := Gctr(cipher, 4, j[..], c0);
    var pos := 0;
    assert c0[0..] == c0 && full[0..] == full;
    while pos < c.Length
      invariant 0 <= pos <= c.Length == |full|
      invariant h[..] == hs
      invariant p[..pos] == full[..pos] && c[pos..] == c0[pos..]
      invariant Remaining(cipher, 4, j[..], c0[pos..], full, pos)
      invariant Ghash(hs, s[..], c0[pos..]) == Ghash(hs, s1, c0)
    {
      var k := Min(c.Length - pos, 16);
      DecryptOne(cipher, h, j, s, c, p, pos, k, c0, full);
      pos := pos + k;
    }
    assert c0[pos..] == [] && full[..pos] == full && p[..pos] == p[..];
    GhashEnd(hs, s[..]);
  }

  method DecryptOne(cipher: Cipher, h: array<byte>, j: array<byte>, s: array<byte>, c: array<byte>, p: array<byte>,
                    pos: nat, k: nat, ghost c0: seq<byte>, ghost full: seq<byte>)
    requires cipher.Valid() && cipher.blockSize == 16 && p.Length == c.Length == |c0| == |full|
    requires h.Length == 16 && j.Length == 16 && s.Length == 16
    requires h != j && h != s && j != s && p != h && p != j && p != s && c != j && c != s
    requires pos < c.Length && k == Min(c.Length - pos, 16)
    requires p[..pos] == full[..pos] && c[pos..] == c0[pos..]
    requires Remaining(cipher, 4, j[..], c0[pos..], full, pos)
    modifies j, s, p
    ensures p[..pos + k] == full[..pos + k] && c[pos + k..] == c0[pos + k..]
    ensures Remaining(cipher, 4, j[..], c0[pos + k..], full, pos + k)
    ensures Ghash(h[..], s[..], c0[pos + k..]) == Ghash(h[..], old(s[..]), c0[pos..])
  {
    hide MulBlock, Xor, XorPrefix, Ghash, Gctr, NextBlock, Overwrite, Remaining;
    ghost var j0, p0, x := j[..], p[..], c0[pos..];
    assert c[pos..pos + k] == c[pos..][..k] == x[..k];
    assert x[k..] == c0[pos + k..];
    GhashUnfold(h[..], s[..], x);
    AbsorbBlock(s, h, c, pos, k);
    KeystreamBlock(cipher, 4, j, c, p, pos, k);
    ghost var o := Xor(x[..k], cipher.enc(j[..])[..k]);
    RemainingStep(cipher, 4, j0, x, full, pos, o);
    OverwriteParts(p0, pos, o);
    assert p[..pos + k] == p[..pos] + p[pos..pos + k];
    assert full[..pos + k] == full[..pos] + full[pos..pos + k];
    assert c[pos + k..] == c0[pos + k..] by {
      assert p != c ==> c[pos + k..] == c[pos..][k..];
      assert p0[pos + k..] == p0[pos..][k..];
    }
  }

  // Decryption; the plaintext is written even when the tag does not match.
  method GcmDecrypt(cipher: Cipher, iv: array<byte>, a: array<byte>, c: array<byte>, p: array<byte>, t: array<byte>)
    returns (status: Status)
    requires cipher.Valid() && p.Length == c.Length
    requires p != iv && p != a && p != t
    modifies p
    ensures !Accepted(cipher, iv.Length, t.Length) ==> status == InvalidParameter && p[..] == old(p[..])
    ensures Accepted(cipher, iv.Length, t.Length) ==>
      && p[..] == Ciphertext(cipher, iv[..], old(c[..]))
      && status == if t[..] == Tag(cipher, iv[..], a[..], old(c[..]))[..t.Length] then NoError else Failure
  {
    hide MulBlock, Xor, Ghash, Gctr, NextBlock, Overwrite, HashKey, PreCounter, Lengths;
    if cipher.blockSize != 16 { return InvalidParameter; }
    if iv.Length < 1 { return InvalidParameter; }
    if t.Length < 4 || t.Length > 16 { return InvalidParameter; }
    var h, j := Start(cipher, iv);
    var b := new byte[16];
    assert cipher.BlockAt(j[..]);
    EncryptBlock(cipher, j, b);
    ghost var e := b[..];
    var r := new byte[t.Length];
    ghost var r0 := r[..];
    Copy(r, 0, b, 0, t.Length);
    assert b[0..t.Length] == e[..t.Length];
    OverwriteAll(r0, e[..t.Length]);
    var s := new byte[16];
    Clear(s);
    Absorb(s, h, a);
    DecryptBlocks(cipher, h, j, s, c, p);
    Finish(s, h, a.Length, c.Length);
    FinishTag(r, e, s);
    var same := Equal(r, t);
    status := if same then NoError else Failure;
  }

  // ---------------------------------------------------------------- round trip

  // Deciphering what was enciphered under the same nonce gives the message back, so the tag
  // computed by either direction covers the same octets.
  lemma CiphertextInverts(cipher: Cipher, iv: seq<byte>, p: seq<byte>)
    requires cipher.Valid() && cipher.blockSize == 16
    ensures Ciphertext(cipher, iv, Ciphertext(cipher, iv, p)) == p
  {
    GctrInvolution(cipher, 4, PreCounter(HashKey(cipher), iv), p);
  }

  // gcmDecrypt of the output of gcmEncrypt succeeds and returns the plaintext.
  method RoundTrip(cipher: Cipher, iv: array<byte>, a: array<byte>, p: array<byte>, tLen: nat) returns (q: array<byte>)
    requires cipher.Valid() && Accepted(cipher, iv.Length, tLen)
    ensures fresh(q) && q[..] == p[..]
  {
    var c := new byte[p.Length];
    var t := new byte[tLen];
    var sealed := GcmEncrypt(cipher, iv, a, p, c, t);
    assert sealed == NoError;
    q := new byte[p.Length];
    var verdict := GcmDecrypt(cipher, iv, a, c, q, t);
    assert verdict == NoError;
    CiphertextInverts(cipher, iv[..], p[..]);
  }
}
