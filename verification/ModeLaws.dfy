/**
 * CBC and CFB chunk by chunk, as sections 6.2 and 6.3 of SP 800-38A define them: which register
 * meets which chunk, in terms of the iv and the ciphertext before it.
 */
module ModeLaws {
  import opened Blocks
  import opened Modes

  predicate Chained(mode: Mode) { !mode.Ctr? }

  // The last block of the iv followed by the ciphertext so far
  function Last(iv: seq<byte>, c: seq<byte>): (r: seq<byte>)
    ensures |r| == |iv|
  {
    (iv + c)[|c|..]
  }

  function Part(d: seq<byte>, k: nat, q: nat): (r: seq<byte>)
    requires k * q + k <= |d|
    ensures |r| == k
  {
    d[k * q..k * q + k]
  }

  lemma LastAppend(iv: seq<byte>, c: seq<byte>, x: seq<byte>)
    ensures Last(iv, c + x) == Last(Last(iv, c), x)
  {
    assert iv + (c + x) == iv + c + x;
    assert Last(iv, c) + x == (iv + c + x)[|c|..];
  }

  // The ciphertext of a run: its output, or its input when it decrypts.
  function CipherSide(mode: Mode, iv: seq<byte>, d: seq<byte>): seq<byte>
    requires mode.Valid() && |iv| == mode.cipher.blockSize
  {
    if Encrypts(mode) then Output(mode, iv, d) else d
  }

  lemma OneKeepsLast(mode: Mode, r: seq<byte>, x: seq<byte>)
    requires mode.Valid() && Chained(mode) && Fits(mode, r, x)
    ensures One(mode, r, x).next == Last(r, if Encrypts(mode) then One(mode, r, x).out else x)
  {
    hide Xor;
    var y := if Encrypts(mode) then One(mode, r, x).out else x;
    if mode.CbcEncrypt? || mode.CbcDecrypt? {
      assert (r + y)[|y|..] == y;
    } else {
      assert (r + y)[|y|..] == r[mode.s..] + y;
    }
  }

  lemma OneChunk(mode: Mode, r: seq<byte>, x: seq<byte>)
    requires mode.Valid() && Chained(mode) && Fits(mode, r, x)
    ensures Output(mode, r, x) == One(mode, r, x).out && Final(mode, r, x) == One(mode, r, x).next
  {
    hide One, Output, Final;
    Unfold(mode, r, x);
    var k := Chunk(mode, |x|);
    assert x[..k] == x && x[k..] == [];
    Stopped(mode, One(mode, r, x).next, []);
    assert One(mode, r, x).out + [] == One(mode, r, x).out;
  }

  lemma NextChunk(k: nat, q: nat)
    ensures k * (q + 1) == k * q + k
  {
  }

  lemma LastOfNothing(iv: seq<byte>)
    ensures Last(iv, []) == iv
  {
    assert (iv + [])[0..] == iv;
  }

  // After whole chunks the register is the last block of the iv followed by the ciphertext.
  lemma {:induction false} RegisterAt(mode: Mode, iv: seq<byte>, d: seq<byte>)
    requires mode.Valid() && Chained(mode) && |iv| == mode.cipher.blockSize && Whole(mode.Size(), |d|)
    ensures |Output(mode, iv, d)| == |d|
    ensures Final(mode, iv, d) == Last(iv, CipherSide(mode, iv, d))
    decreases |d|, 1
  {
    hide One, Output, Final, Last;
    if d == [] {
      Stopped(mode, iv, d);
      LastOfNothing(iv);
    } else {
      var k := mode.Size();
      var x, rest := d[..k], d[k..];
      assert d == x + rest;
      RegisterFirst(mode, iv, x, rest);
    }
  }

  lemma {:induction false} RegisterFirst(mode: Mode, iv: seq<byte>, x: seq<byte>, rest: seq<byte>)
    requires mode.Valid() && Chained(mode) && |iv| == mode.cipher.blockSize
    requires |x| == mode.Size() && Whole(mode.Size(), |rest|)
    ensures |Output(mode, iv, x + rest)| == |x + rest|
    ensures Final(mode, iv, x + rest) == Last(iv, CipherSide(mode, iv, x + rest))
    decreases |x + rest|, 0
  {
    hide One, Output, Final, Last;
    OneChunk(mode, iv, x);
    OneKeepsLast(mode, iv, x);
    Pieces(mode, iv, x, rest);
    var r := Final(mode, iv, x);
    RegisterAt(mode, r, rest);
    LastAppend(iv, CipherSide(mode, iv, x), CipherSide(mode, r, rest));
  }

  // The chunk of the output at position n comes from the chunk of the input there and that register.
  lemma ChunkAt(mode: Mode, iv: seq<byte>, d: seq<byte>, n: nat)
    requires mode.Valid() && Chained(mode) && |iv| == mode.cipher.blockSize
    requires Whole(mode.Size(), n) && n + mode.Size() <= |d|
    ensures
      var k, out := mode.Size(), Output(mode, iv, d);
      && n + k <= |out|
      && var r := Last(iv, if Encrypts(mode) then out[..n] else d[..n]);
        Fits(mode, r, d[n..n + k]) && out[n..n + k] == One(mode, r, d[n..n + k]).out
  {
    hide One, Output, Final, Last, Whole;
    var k := mode.Size();
    var c, rest := d[..n], d[n..];
    assert d == c + rest && rest[..k] == d[n..n + k];
    RegisterAt(mode, iv, c);
    Pieces(mode, iv, c, rest);
    Unfold(mode, Final(mode, iv, c), rest);
    FirstOfSecond(Output(mode, iv, c), One(mode, Final(mode, iv, c), rest[..k]).out,
                  Output(mode, One(mode, Final(mode, iv, c), rest[..k]).next, rest[k..]));
  }

  lemma FirstOfSecond(a: seq<byte>, b: seq<byte>, c: seq<byte>)
    ensures (a + (b + c))[..|a|] == a && (a + (b + c))[|a|..|a| + |b|] == b
  {
  }

  // CBC and CFB process all full chunks and nothing else.
  lemma {:induction false} TakenIs(mode: Mode, n: nat)
    requires mode.Valid() && Chained(mode)
    ensures Whole(mode.Size(), mode.Taken(n)) && mode.Taken(n) <= n < mode.Taken(n) + mode.Size()
  {
    if n >= mode.Size() {
      TakenIs(mode, n - mode.Size());
    }
  }

  // The chaining value of CBC: the iv, then the ciphertext block before.
  function Previous(iv: seq<byte>, c: seq<byte>, q: nat): (r: seq<byte>)
    requires |iv| * q <= |c|
    ensures |r| == |iv|
  {
    if q == 0 then iv else NextChunk(|iv|, q - 1); Part(c, |iv|, q - 1)
  }

  lemma LastIsPrevious(iv: seq<byte>, c: seq<byte>, q: nat)
    requires |iv| * q <= |c|
    ensures Last(iv, c[..|iv| * q]) == Previous(iv, c, q)
  {
    var k := |iv|;
    if q == 0 {
      assert (iv + c[..0])[0..] == iv;
    } else {
      NextChunk(k, q - 1);
      assert (iv + c[..k * q])[k * q..] == c[k * (q - 1)..k * q];
    }
  }

  // CBC: ciphertext block q is the encryption of the sum of plaintext block q and the
  // ciphertext block before it; before the first one stands the iv.
  lemma CbcAt(c: Cipher, iv: seq<byte>, d: seq<byte>, q: nat)
    requires c.Valid() && |iv| == c.blockSize && |iv| * q + |iv| <= |d|
    ensures
      var k, out := |iv|, Output(CbcEncrypt(c), iv, d);
      && k * q + k <= |out|
      && Part(out, k, q) == c.enc(Xor(Part(d, k, q), Previous(iv, out, q)))
  {
    hide Xor, Output, Last, Previous;
    WholeMultiple(|iv|, q);
    ChunkAt(CbcEncrypt(c), iv, d, |iv| * q);
    LastIsPrevious(iv, Output(CbcEncrypt(c), iv, d), q);
  }

  // CBC decryption: plaintext block q is the decryption of ciphertext block q, summed with the
  // ciphertext block before it.
  lemma CbcDecryptAt(c: Cipher, iv: seq<byte>, d: seq<byte>, q: nat)
    requires c.Valid() && |iv| == c.blockSize && |iv| * q + |iv| <= |d|
    ensures
      var k, out := |iv|, Output(CbcDecrypt(c), iv, d);
      && k * q + k <= |out| && |c.dec(Part(d, k, q))| == k
      && Part(out, k, q) == Xor(c.dec(Part(d, k, q)), Previous(iv, d, q))
  {
    hide Xor, Output, Last, Previous;
    assert c.BlockAt(Part(d, |iv|, q));
    WholeMultiple(|iv|, q);
    ChunkAt(CbcDecrypt(c), iv, d, |iv| * q);
    LastIsPrevious(iv, d, q);
  }

  // CFB: segment q is summed with the leading octets of the encryption of the last block of the
  // iv followed by the ciphertext segments before it, in either direction.
  lemma CfbAt(c: Cipher, s: nat, iv: seq<byte>, d: seq<byte>, q: nat)
    requires c.Valid() && 1 <= s <= c.blockSize == |iv| && s * q + s <= |d|
    ensures
      var out := Output(CfbEncrypt(c, s), iv, d);
      && s * q + s <= |out|
      && var key := c.enc(Last(iv, out[..s * q]));
        |key| == |iv| && Part(out, s, q) == Xor(Part(d, s, q), key[..s])
  {
    hide Xor, Output, Last;
    WholeMultiple(s, q);
    ChunkAt(CfbEncrypt(c, s), iv, d, s * q);
    assert c.BlockAt(Last(iv, Output(CfbEncrypt(c, s), iv, d)[..s * q]));
  }

  lemma CfbDecryptAt(c: Cipher, s: nat, iv: seq<byte>, d: seq<byte>, q: nat)
    requires c.Valid() && 1 <= s <= c.blockSize == |iv| && s * q + s <= |d|
    ensures
      var out := Output(CfbDecrypt(c, s), iv, d);
      && s * q + s <= |out|
      && var key := c.enc(Last(iv, d[..s * q]));
        |key| == |iv| && Part(out, s, q) == Xor(Part(d, s, q), key[..s])
  {
    hide Xor, Output, Last;
    WholeMultiple(s, q);
    ChunkAt(CfbDecrypt(c, s), iv, d, s * q);
    assert c.BlockAt(Last(iv, d[..s * q]));
  }
}
