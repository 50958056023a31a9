/**
 * The chained modes of operation (CBC, CFB and CTR, SP 800-38A) as one kind of machine: a
 * register of one block, and a step that turns a chunk of input into a chunk of output and the
 * next register.
 */
module Modes {
  import opened Blocks
  import opened Counter

  datatype Mode =
    | CbcEncrypt(cipher: Cipher)
    | CbcDecrypt(cipher: Cipher)
    | CfbEncrypt(cipher: Cipher, s: nat)
    | CfbDecrypt(cipher: Cipher, s: nat)
    | Ctr(cipher: Cipher, m: nat)
  {
    ghost predicate Valid() {
      && cipher.Valid()
      && (CfbEncrypt? || CfbDecrypt? ==> 1 <= s <= cipher.blockSize)
      && (Ctr? ==> m <= cipher.blockSize)
    }

    // The length of a full chunk
    function Size(): nat {
      match this
      case CbcEncrypt(c) => c.blockSize
      case CbcDecrypt(c) => c.blockSize
      case CfbEncrypt(_, s) => s
      case CfbDecrypt(_, s) => s
      case Ctr(c, _) => c.blockSize
    }

    // Only counter mode takes a last chunk that is shorter.
    predicate Stops(n: nat) { if Ctr? then n == 0 else n < Size() }

    // How many of n octets are processed: all that make full chunks, or all in counter mode.
    function Taken(n: nat): (k: nat)
      requires Size() > 0
      ensures k <= n
    {
      if Stops(n) then 0 else if n < Size() then n else Size() + Taken(n - Size())
    }

    // The mode that undoes this one
    function Opposite(): Mode {
      match this
      case CbcEncrypt(c) => CbcDecrypt(c)
      case CbcDecrypt(c) => CbcEncrypt(c)
      case CfbEncrypt(c, s) => CfbDecrypt(c, s)
      case CfbDecrypt(c, s) => CfbEncrypt(c, s)
      case Ctr(c, m) => Ctr(c, m)
    }
  }

  datatype Step = Step(out: seq<byte>, next: seq<byte>)

  predicate Fits(mode: Mode, r: seq<byte>, d: seq<byte>) {
    |r| == mode.cipher.blockSize && 0 < |d| <= mode.Size() && (mode.Ctr? || |d| == mode.Size())
  }

  // One chunk
  function One(mode: Mode, r: seq<byte>, d: seq<byte>): (t: Step)
    requires mode.Valid() && Fits(mode, r, d)
    ensures |t.out| == |d| && |t.next| == |r|
  {
    var c := mode.cipher;
    assert c.BlockAt(r) && c.BlockAt(d);
    match mode
    case CbcEncrypt(_) =>
      assert c.BlockAt(Xor(d, r));
      var x := c.enc(Xor(d, r));
      Step(x, x)
    case CbcDecrypt(_) => Step(Xor(c.dec(d), r), d)
    case CfbEncrypt(_, s) =>
      var x := Xor(d, c.enc(r)[..s]);
      Step(x, r[s..] + x)
    case CfbDecrypt(_, s) => Step(Xor(d, c.enc(r)[..s]), r[s..] + d)
    case Ctr(_, m) => Step(Xor(d, c.enc(r)[..|d|]), NextBlock(r, m))
  }

  function Chunk(mode: Mode, n: nat): nat { Min(n, mode.Size()) }

  // The output for a whole message
  function Output(mode: Mode, r: seq<byte>, d: seq<byte>): (out: seq<byte>)
    requires mode.Valid() && |r| == mode.cipher.blockSize
    ensures |out| == mode.Taken(|d|)
    decreases |d|
  {
    if mode.Stops(|d|) then []
    else
      var k := Chunk(mode, |d|);
      var t := One(mode, r, d[..k]);
      t.out + Output(mode, t.next, d[k..])
  }

  // The register after it
  function Final(mode: Mode, r: seq<byte>, d: seq<byte>): (next: seq<byte>)
    requires mode.Valid() && |r| == mode.cipher.blockSize
    ensures |next| == |r|
    decreases |d|
  {
    if mode.Stops(|d|) then r
    else
      var k := Chunk(mode, |d|);
      Final(mode, One(mode, r, d[..k]).next, d[k..])
  }

  lemma Unfold(mode: Mode, r: seq<byte>, d: seq<byte>)
    requires mode.Valid() && |r| == mode.cipher.blockSize && !mode.Stops(|d|)
    ensures
      var k := Chunk(mode, |d|);
      && 0 < k <= |d| && Fits(mode, r, d[..k])
      && var t := One(mode, r, d[..k]);
        && Output(mode, r, d) == t.out + Output(mode, t.next, d[k..])
        && Final(mode, r, d) == Final(mode, t.next, d[k..])
  {
    hide One;
  }

  lemma Stopped(mode: Mode, r: seq<byte>, d: seq<byte>)
    requires mode.Valid() && |r| == mode.cipher.blockSize && mode.Stops(|d|)
    ensures Output(mode, r, d) == [] && Final(mode, r, d) == r
  {
  }

  // ---------------------------------------------------------------- messages in pieces

  // n octets are full chunks of k octets.
  predicate Whole(k: nat, n: nat)
    requires k > 0
  {
    n == 0 || (n >= k && Whole(k, n - k))
  }

  lemma {:induction false} WholeMultiple(k: nat, q: nat)
    requires k > 0
    ensures Whole(k, k * q)
  {
    if q > 0 {
      WholeMultiple(k, q - 1);
      assert k * q == k * (q - 1) + k;
    }
  }

  // A message in two pieces, the first of whole chunks, with the register carried over, is
  // processed like the message in one piece.
  lemma {:induction false} Pieces(mode: Mode, r: seq<byte>, c: seq<byte>, d: seq<byte>)
    requires mode.Valid() && |r| == mode.cipher.blockSize && Whole(mode.Size(), |c|)
    ensures Output(mode, r, c + d) == Output(mode, r, c) + Output(mode, Final(mode, r, c), d)
    ensures Final(mode, r, c + d) == Final(mode, Final(mode, r, c), d)
    decreases |c|
  {
    hide One, Output, Final;
    if c == [] {
      Stopped(mode, r, c);
      assert c + d == d;
    } else {
      var k := mode.Size();
      Unfold(mode, r, c);
      Unfold(mode, r, c + d);
      assert (c + d)[..k] == c[..k] && (c + d)[k..] == c[k..] + d;
      Pieces(mode, One(mode, r, c[..k]).next, c[k..], d);
    }
  }

  // ---------------------------------------------------------------- inverses

  predicate Encrypts(mode: Mode) { mode.CbcEncrypt? || mode.CfbEncrypt? || mode.Ctr? }

  lemma OneInverse(mode: Mode, r: seq<byte>, d: seq<byte>)
    requires mode.Valid() && Encrypts(mode) && Fits(mode, r, d)
    ensures
      var t := One(mode, r, d);
      Fits(mode.Opposite(), r, t.out) && One(mode.Opposite(), r, t.out) == Step(d, t.next)
  {
    hide Xor, NextBlock;
    var c := mode.cipher;
    var t := One(mode, r, d);
    assert c.BlockAt(r);
    match mode
    case CbcEncrypt(_) =>
      assert c.BlockAt(Xor(d, r));
      XorCancels(d, r);
    case CfbEncrypt(_, s) => XorCancels(d, c.enc(r)[..s]);
    case Ctr(_, m) => XorCancels(d, c.enc(r)[..|d|]);
    case _ =>
  }

  // Decryption undoes encryption on the octets that were processed, and leaves the register
  // that encryption left, for every cipher, segment size and message.
  lemma {:induction false} Inverse(mode: Mode, r: seq<byte>, d: seq<byte>)
    requires mode.Valid() && Encrypts(mode) && |r| == mode.cipher.blockSize
    ensures
      var c, back := Output(mode, r, d), mode.Opposite();
      && Output(back, r, c) == d[..mode.Taken(|d|)]
      && Final(back, r, c) == Final(mode, r, d)
    decreases |d|
  {
    hide One, Output, Final;
    var c, back := Output(mode, r, d), mode.Opposite();
    if mode.Stops(|d|) {
      Stopped(mode, r, d);
      Stopped(back, r, c);
    } else {
      Unfold(mode, r, d);
      var k := Chunk(mode, |d|);
      var t := One(mode, r, d[..k]);
      OneInverse(mode, r, d[..k]);
      Inverse(mode, t.next, d[k..]);
      assert c[..k] == t.out && c[k..] == Output(mode, t.next, d[k..]);
      TakenStep(mode, |d|);
      StillGoes(mode, |d|);
      Unfold(back, r, c);
      TakeParts(d, k, mode.Taken(|d| - k));
    }
  }

  lemma TakeParts(d: seq<byte>, k: nat, n: nat)
    requires k + n <= |d|
    ensures d[..k + n] == d[..k] + d[k..][..n]
  {
  }

  lemma TakenStep(mode: Mode, n: nat)
    requires mode.Size() > 0 && !mode.Stops(n)
    ensures mode.Taken(n) == Chunk(mode, n) + mode.Taken(n - Chunk(mode, n))
  {
  }

  lemma StillGoes(mode: Mode, n: nat)
    requires mode.Size() > 0 && !mode.Stops(n)
    ensures !mode.Opposite().Stops(mode.Taken(n)) && Chunk(mode.Opposite(), mode.Taken(n)) == Chunk(mode, n)
    ensures mode.Opposite().Size() == mode.Size()
  {
    TakenStep(mode, n);
  }

  // ---------------------------------------------------------------- counter mode

  lemma {:induction false} CtrTakesAll(mode: Mode, n: nat)
    requires mode.Ctr? && mode.Size() > 0
    ensures mode.Taken(n) == n
  {
    if n > mode.Size() {
      CtrTakesAll(mode, n - mode.Size());
    }
  }

  // Octet i of chunk q of a message is summed with octet i of the encryption of counter block
  // q. Counter.CountersDistinct: those blocks are pairwise distinct for up to 256^m of them.
  lemma {:induction false} CtrAt(cipher: Cipher, m: nat, r: seq<byte>, d: seq<byte>, q: nat, i: nat, at: nat)
    requires Ctr(cipher, m).Valid() && |r| == cipher.blockSize && i < cipher.blockSize
    requires at == cipher.blockSize * q + i < |d|
    ensures
      var b, out := BlockAfter(r, m, q), Output(Ctr(cipher, m), r, d);
      |cipher.enc(b)| == cipher.blockSize && |out| == |d| && out[at] == Sum(d[at], cipher.enc(b)[i])
    decreases q
  {
    hide Xor, Sum, NextBlock, Output, One;
    var mode, k := Ctr(cipher, m), cipher.blockSize;
    if q == 0 {
      CtrFirst(cipher, m, r, d, i);
    } else {
      OneChunkLess(k, q, i, at);
      CtrRest(cipher, m, r, d, at);
      CtrAt(cipher, m, NextBlock(r, m), d[k..], q - 1, i, at - k);
      BlockAfterNext(r, m, q - 1);
    }
  }

  // An octet of the first chunk
  lemma CtrFirst(cipher: Cipher, m: nat, r: seq<byte>, d: seq<byte>, i: nat)
    requires Ctr(cipher, m).Valid() && |r| == cipher.blockSize && i < cipher.blockSize && i < |d|
    ensures
      var out := Output(Ctr(cipher, m), r, d);
      |cipher.enc(r)| == cipher.blockSize && |out| == |d| && out[i] == Sum(d[i], cipher.enc(r)[i])
  {
    hide Xor, Sum, NextBlock, Output, One;
    var mode := Ctr(cipher, m);
    var n := Chunk(mode, |d|);
    CtrTakesAll(mode, |d|);
    Unfold(mode, r, d);
    CtrOne(cipher, m, r, d[..n]);
    XorAt(d[..n], cipher.enc(r)[..n], i);
    assert Output(mode, r, d)[i] == One(mode, r, d[..n]).out[i];
  }

  // An octet behind the first chunk
  lemma CtrRest(cipher: Cipher, m: nat, r: seq<byte>, d: seq<byte>, at: nat)
    requires Ctr(cipher, m).Valid() && |r| == cipher.blockSize && cipher.blockSize <= at < |d|
    ensures
      var k, mode := cipher.blockSize, Ctr(cipher, m);
      var out, rest := Output(mode, r, d), Output(mode, NextBlock(r, m), d[k..]);
      |out| == |d| && |rest| == |d| - k && out[at] == rest[at - k]
  {
    hide Xor, Sum, NextBlock, Output, One;
    var mode, k := Ctr(cipher, m), cipher.blockSize;
    CtrTakesAll(mode, |d|);
    CtrTakesAll(mode, |d| - k);
    Unfold(mode, r, d);
    CtrOne(cipher, m, r, d[..k]);
  }

  lemma OneChunkLess(k: nat, q: nat, i: nat, at: nat)
    requires q > 0 && at == k * q + i
    ensures at - k == k * (q - 1) + i && at >= k
  {
    assert k * q == k * (q - 1) + k;
  }

  lemma CtrOne(cipher: Cipher, m: nat, r: seq<byte>, d: seq<byte>)
    requires Ctr(cipher, m).Valid() && Fits(Ctr(cipher, m), r, d)
    ensures |cipher.enc(r)| == cipher.blockSize
    ensures One(Ctr(cipher, m), r, d) == Step(Xor(d, cipher.enc(r)[..|d|]), NextBlock(r, m))
  {
    hide Xor, NextBlock;
    assert cipher.BlockAt(r);
  }

  // ---------------------------------------------------------------- loops over buffers

  // At octet pos of the message: the register is r, and the rest of the output and the last
  // register are those of the whole run.
  ghost predicate Halfway(mode: Mode, r0: seq<byte>, d0: seq<byte>, r: seq<byte>, pos: nat)
    requires mode.Valid() && |r0| == mode.cipher.blockSize
  {
    && |r| == |r0| && pos <= |d0| && pos <= |Output(mode, r0, d0)|
    && Output(mode, r, d0[pos..]) == Output(mode, r0, d0)[pos..]
    && Final(mode, r, d0[pos..]) == Final(mode, r0, d0)
  }

  lemma LoopStart(mode: Mode, r: seq<byte>, d: seq<byte>)
    requires mode.Valid() && |r| == mode.cipher.blockSize
    ensures Halfway(mode, r, d, r, 0)
  {
    hide Output, Final;
    assert d[0..] == d;
  }

  lemma LoopStep(mode: Mode, r0: seq<byte>, d0: seq<byte>, r: seq<byte>, pos: nat)
    requires mode.Valid() && |r0| == mode.cipher.blockSize && Halfway(mode, r0, d0, r, pos) && !mode.Stops(|d0| - pos)
    ensures
      var k, full := Chunk(mode, |d0| - pos), Output(mode, r0, d0);
      && 0 < k && pos + k <= |d0| && pos + k <= |full| && Fits(mode, r, d0[pos..pos + k])
      && var t := One(mode, r, d0[pos..pos + k]);
        full[pos..pos + k] == t.out && Halfway(mode, r0, d0, t.next, pos + k)
  {
    hide Output, Final, One;
    var k, full, rest := Chunk(mode, |d0| - pos), Output(mode, r0, d0), d0[pos..];
    Unfold(mode, r, rest);
    assert rest[..k] == d0[pos..pos + k] && rest[k..] == d0[pos + k..];
    var t := One(mode, r, rest[..k]);
    DropParts(full, pos, k, t.out, Output(mode, t.next, rest[k..]));
  }

  lemma DropParts(full: seq<byte>, pos: nat, k: nat, a: seq<byte>, b: seq<byte>)
    requires pos <= |full| && full[pos..] == a + b && |a| == k
    ensures pos + k <= |full| && full[pos..pos + k] == a && full[pos + k..] == b
  {
    var r := full[pos..];
    assert r[..k] == a && r[k..] == b;
  }

  lemma LoopEnd(mode: Mode, r0: seq<byte>, d0: seq<byte>, r: seq<byte>, pos: nat)
    requires mode.Valid() && |r0| == mode.cipher.blockSize && Halfway(mode, r0, d0, r, pos) && mode.Stops(|d0| - pos)
    ensures r == Final(mode, r0, d0) && Output(mode, r0, d0)[..pos] == Output(mode, r0, d0)
    ensures mode.Taken(|d0|) == pos
  {
    hide Output, Final;
    Stopped(mode, r, d0[pos..]);
    var full := Output(mode, r0, d0);
    assert |full[pos..]| == 0;
  }

  lemma Written(was: seq<byte>, ao: nat, full: seq<byte>, pos: nat, k: nat)
    requires pos + k <= |full| && ao + |full| <= |was|
    ensures Overwrite(Overwrite(was, ao, full[..pos]), ao + pos, full[pos..pos + k]) == Overwrite(was, ao, full[..pos + k])
  {
  }

  lemma NotYetWritten(was: seq<byte>, ao: nat, full: seq<byte>, pos: nat, k: nat)
    requires pos <= |full| && ao + |full| <= |was| && ao + pos + k <= |was|
    ensures Overwrite(was, ao, full[..pos])[ao + pos..ao + pos + k] == was[ao + pos..ao + pos + k]
  {
  }

  // The next chunk of an input that may be the output buffer itself.
  lemma Operand(p: seq<byte>, po: nat, same: bool, was: seq<byte>, full: seq<byte>, d: seq<byte>, pos: nat, k: nat)
    requires po + |d| <= |p| && pos + k <= |d| && pos <= |full| && |full| <= |d|
    requires same ==> |p| == |was| && d == was[po..po + |d|] && p == Overwrite(was, po, full[..pos])
    requires !same ==> p[po..po + |d|] == d
    ensures p[po + pos..po + pos + k] == d[pos..pos + k]
  {
    hide Overwrite;
    if same {
      NotYetWritten(was, po, full, pos, k);
      SliceOfSlice(was, po, |d|, pos, k);
    } else {
      SliceOfSlice(p, po, |d|, pos, k);
    }
  }

  lemma SliceOfSlice(s: seq<byte>, a: nat, n: nat, pos: nat, k: nat)
    requires a + n <= |s| && pos + k <= n
    ensures s[a..a + n][pos..pos + k] == s[a + pos..a + pos + k]
  {
    var t := s[a..a + n];
    var u, v := t[pos..pos + k], s[a + pos..a + pos + k];
    forall i | 0 <= i < k ensures u[i] == v[i] {
      assert t[pos + i] == s[a + (pos + i)];
    }
  }
}
