/**
 * Counter mode over 16-octet blocks, as GCM and CCM use it: the last m octets of the counter
 * block are incremented before each block.
 */
module CounterMode {
  import opened Blocks
  import opened Counter

  // The counter is incremented before each block.
  function Gctr(cipher: Cipher, m: nat, j: seq<byte>, d: seq<byte>): (r: seq<byte>)
    requires cipher.Valid() && cipher.blockSize == 16 && |j| == 16 && m <= 16
    ensures |r| == |d|
    decreases |d|
  {
    if d == [] then []
    else
      var k := Min(|d|, 16);
      var j' := NextBlock(j, m);
      assert cipher.BlockAt(j');
      Xor(d[..k], cipher.enc(j')[..k]) + Gctr(cipher, m, j', d[k..])
  }

  lemma GctrUnfold(cipher: Cipher, m: nat, j: seq<byte>, d: seq<byte>)
    requires cipher.Valid() && cipher.blockSize == 16 && |j| == 16 && m <= 16 && d != []
    ensures var k, j' := Min(|d|, 16), NextBlock(j, m);
      && |cipher.enc(j')| == 16
      && Gctr(cipher, m, j, d)[..k] == Xor(d[..k], cipher.enc(j')[..k])
      && Gctr(cipher, m, j, d)[k..] == Gctr(cipher, m, j', d[k..])
  {
    hide Xor, NextBlock;
    assert cipher.BlockAt(NextBlock(j, m));
  }

  // What remains to be done at octet pos of the message: full is the whole output.
  ghost predicate Remaining(cipher: Cipher, m: nat, j: seq<byte>, rest: seq<byte>, full: seq<byte>, pos: nat)
    requires cipher.Valid() && cipher.blockSize == 16 && |j| == 16 && m <= 16
  {
    pos <= |full| && Gctr(cipher, m, j, rest) == full[pos..]
  }

  lemma RemainingStep(cipher: Cipher, m: nat, j: seq<byte>, rest: seq<byte>, full: seq<byte>, pos: nat, x: seq<byte>)
    requires cipher.Valid() && cipher.blockSize == 16 && |j| == 16 && m <= 16 && rest != []
    requires Remaining(cipher, m, j, rest, full, pos)
    requires var k, j' := Min(|rest|, 16), NextBlock(j, m);
      |cipher.enc(j')| == 16 && x == Xor(rest[..k], cipher.enc(j')[..k])
    ensures var k := Min(|rest|, 16);
      && Remaining(cipher, m, NextBlock(j, m), rest[k..], full, pos + k)
      && full[pos..][..k] == x && full[pos..pos + k] == x && full[pos..][k..] == full[pos + k..]
  {
    hide Xor, NextBlock, Gctr;
    GctrUnfold(cipher, m, j, rest);
    var k := Min(|rest|, 16);
    assert |full[pos..]| == |rest|;
    assert full[pos..][..k] == full[pos..pos + k] && full[pos..][k..] == full[pos + k..];
  }

  // One block of the encryption loop: increment, encrypt, add; the operands may be one buffer.
  method KeystreamBlock(cipher: Cipher, m: nat, j: array<byte>, p: array<byte>, c: array<byte>, pos: nat, k: nat)
    requires cipher.Valid() && cipher.blockSize == 16 && j.Length == 16 && k <= 16 && m <= 16
    requires pos + k <= p.Length == c.Length && j != p && j != c
    modifies j, c
    ensures j[..] == NextBlock(old(j[..]), m)
    ensures |cipher.enc(j[..])| == 16
    ensures c[..] == Overwrite(old(c[..]), pos, Xor(old(p[pos..pos + k]), cipher.enc(j[..])[..k]))
  {
    hide Xor, NextBlock, Overwrite;
    Increment(j, m);
    var b := new byte[16];
    assert cipher.BlockAt(j[..]);
    EncryptBlock(cipher, j, b);
    assert b[0..k] == b[..][..k];
    XorBlock(c, pos, p, pos, b, 0, k);
  }

  // t = MSB(e ^ s)
  method FinishTag(t: array<byte>, ghost e: seq<byte>, s: array<byte>)
    requires s.Length == 16 && t.Length <= 16 && |e| == 16 && t != s && t[..] == e[..t.Length]
    modifies t
    ensures t[..] == Xor(e, s[..])[..t.Length]
  {
    hide Xor, Overwrite;
    var n := t.Length;
    assert t[0..n] == e[..n] && s[0..n] == s[..][..n];
    XorBlock(t, 0, t, 0, s, 0, n);
    OverwriteAll(e[..n], Xor(e[..n], s[..][..n]));
    XorTake(e, s[..], n);
  }

  lemma XorTake(a: seq<byte>, b: seq<byte>, n: nat)
    requires |a| == |b| && n <= |a|
    ensures Xor(a, b)[..n] == Xor(a[..n], b[..n])
  {
    hide Sum;
  }

  // memcmp(a, b, n) == 0
  method Equal(a: array<byte>, b: array<byte>) returns (same: bool)
    requires a.Length == b.Length
    ensures same <==> a[..] == b[..]
  {
    for i := 0 to a.Length
      invariant a[..i] == b[..i]
    {
      if a[i] != b[i] {
        assert a[..][i] != b[..][i];
        return false;
      }
    }
    return true;
  }

  lemma {:induction false} GctrInvolution(cipher: Cipher, m: nat, j: seq<byte>, d: seq<byte>)
    requires cipher.Valid() && cipher.blockSize == 16 && |j| == 16 && m <= 16
    ensures Gctr(cipher, m, j, Gctr(cipher, m, j, d)) == d
    decreases |d|
  {
    hide Xor, NextBlock, Gctr;
    var c := Gctr(cipher, m, j, d);
    if d == [] {
      GctrEmpty(cipher, m, j);
    } else {
      var k, j' := Min(|d|, 16), NextBlock(j, m);
      GctrUnfold(cipher, m, j, d);
      GctrUnfold(cipher, m, j, c);
      XorCancels(d[..k], cipher.enc(j')[..k]);
      GctrInvolution(cipher, m, j', d[k..]);
      var r := Gctr(cipher, m, j, c);
      assert r == r[..k] + r[k..] && d == d[..k] + d[k..];
    }
  }

  lemma GctrEmpty(cipher: Cipher, m: nat, j: seq<byte>)
    requires cipher.Valid() && cipher.blockSize == 16 && |j| == 16 && m <= 16
    ensures Gctr(cipher, m, j, []) == []
  {
  }

  // Octet i of the message is added to octet i % 16 of the encrypted counter block number
  // i / 16 + 1; by Counter.CountersDistinct those blocks differ from each other and from the
  // first block, which masks the tag, for messages of fewer than 256^m - 1 blocks.
  lemma {:induction false} GctrAt(cipher: Cipher, m: nat, j: seq<byte>, d: seq<byte>, i: nat)
    requires cipher.Valid() && cipher.blockSize == 16 && |j| == 16 && m <= 16 && i < |d|
    ensures var b := BlockAfter(j, m, i / 16 + 1);
      && |cipher.enc(b)| == 16
      && Gctr(cipher, m, j, d)[i] == Sum(d[i], cipher.enc(b)[i % 16])
    decreases |d|
  {
    hide Xor, NextBlock, Gctr, Sum;
    var k, j' := Min(|d|, 16), NextBlock(j, m);
    GctrUnfold(cipher, m, j, d);
    var r := Gctr(cipher, m, j, d);
    if i < k {
      assert i / 16 == 0 && i % 16 == i;
      assert BlockAfter(j, m, 1) == NextBlock(BlockAfter(j, m, 0), m);
      XorAt(d[..k], cipher.enc(j')[..k], i);
      assert r[..k][i] == r[i];
    } else {
      assert i / 16 == (i - 16) / 16 + 1 && i % 16 == (i - 16) % 16;
      GctrAt(cipher, m, j', d[k..], i - k);
      BlockAfterNext(j, m, (i - 16) / 16 + 1);
      assert r[k..][i - k] == r[i];
    }
  }
}
