/** Octets, blocks and abstract block ciphers, shared by the cipher modes. */
module Blocks {

  type byte = bv8

  function Sum(a: byte, b: byte): byte { a ^ b }

  function Xor(a: seq<byte>, b: seq<byte>): (r: seq<byte>)
    requires |a| == |b|
    ensures |r| == |a|
  {
    seq(|a|, i requires 0 <= i < |a| => Sum(a[i], b[i]))
  }

  // b with its leading octets replaced by their sum with d
  function XorPrefix(b: seq<byte>, d: seq<byte>): (r: seq<byte>)
    requires |d| <= |b|
    ensures |r| == |b|
  {
    Xor(b[..|d|], d) + b[|d|..]
  }

  function Zeros(n: nat): (r: seq<byte>)
    ensures |r| == n
  {
    seq(n, _ => 0)
  }

  function Min(a: nat, b: nat): nat { if a < b then a else b }

  lemma XorCancels(a: seq<byte>, b: seq<byte>)
    requires |a| == |b|
    ensures Xor(Xor(a, b), b) == a
  {
    forall i | 0 <= i < |a| ensures Xor(Xor(a, b), b)[i] == a[i] {
      XorByte(a[i], b[i]);
    }
  }

  lemma XorByte(a: byte, b: byte)
    ensures a ^ b ^ b == a && a ^ b == b ^ a
  {
  }

  lemma XorCommutes(a: seq<byte>, b: seq<byte>)
    requires |a| == |b|
    ensures Xor(a, b) == Xor(b, a)
  {
    forall i | 0 <= i < |a| ensures Xor(a, b)[i] == Xor(b, a)[i] {
      XorByte(a[i], b[i]);
    }
  }

  // was with the octets of d written from position ao on.
  function Overwrite(was: seq<byte>, ao: nat, d: seq<byte>): (r: seq<byte>)
    requires ao + |d| <= |was|
    ensures |r| == |was|
  {
    was[..ao] + d + was[ao + |d|..]
  }

  lemma OverwriteNothing(was: seq<byte>, ao: nat)
    requires ao <= |was|
    ensures Overwrite(was, ao, []) == was
  {
  }

  lemma OverwriteMore(was: seq<byte>, ao: nat, x: seq<byte>, i: nat)
    requires i < |x| && ao + |x| <= |was|
    ensures Overwrite(was, ao, x[..i])[ao + i := x[i]] == Overwrite(was, ao, x[..i + 1])
  {
  }

  lemma OverwriteAll(was: seq<byte>, x: seq<byte>)
    requires |x| == |was|
    ensures Overwrite(was, 0, x) == x
  {
  }

  lemma OverwriteParts(was: seq<byte>, ao: nat, d: seq<byte>)
    requires ao + |d| <= |was|
    ensures var r := Overwrite(was, ao, d);
      r[..ao] == was[..ao] && r[ao..ao + |d|] == d && r[ao + |d|..] == was[ao + |d|..]
  {
  }

  lemma OverwriteTwice(was: seq<byte>, ao: nat, c: seq<byte>, d: seq<byte>)
    requires ao + |d| <= |was| && |c| == |d|
    ensures Overwrite(Overwrite(was, ao, c), ao, d) == Overwrite(was, ao, d)
  {
  }

  // The next octet of an operand that may be the partly overwritten buffer itself.
  lemma OperandAt(was: seq<byte>, ao: nat, x: seq<byte>, i: nat)
    requires i < |x| && ao + |x| <= |was|
    ensures Overwrite(was, ao, x[..i])[ao + i] == was[ao..ao + |x|][i]
  {
  }

  lemma XorAt(a: seq<byte>, b: seq<byte>, i: nat)
    requires |a| == |b| && i < |a|
    ensures Xor(a, b)[i] == Sum(a[i], b[i])
  {
    hide Sum;
  }

  // Adds n octets of b and c into a. An operand may be the result buffer itself.
  method XorBlock(a: array<byte>, ao: nat, b: array<byte>, bo: nat, c: array<byte>, co: nat, n: nat)
    requires ao + n <= a.Length && bo + n <= b.Length && co + n <= c.Length
    requires (a == b ==> ao == bo) && (a == c ==> ao == co)
    modifies a
    ensures a[..] == Overwrite(old(a[..]), ao, Xor(old(b[bo..bo + n]), old(c[co..co + n])))
  {
    hide Xor, Sum, Overwrite;
    ghost var was, bs, cs := a[..], b[bo..bo + n], c[co..co + n];
    ghost var x := Xor(bs, cs);
    assert x[..0] == [];
    OverwriteNothing(was, ao);
    for i := 0 to n
      invariant a[..] == Overwrite(was, ao, x[..i])
      invariant b != a ==> b[bo..bo + n] == bs
      invariant c != a ==> c[co..co + n] == cs
    {
      OperandAt(was, ao, x, i);
      assert b[bo + i] == if b == a then a[..][ao + i] else b[bo..bo + n][i];
      assert c[co + i] == if c == a then a[..][ao + i] else c[co..co + n][i];
      XorAt(bs, cs, i);
      OverwriteMore(was, ao, x, i);
      a[ao + i] := Sum(b[bo + i], c[co + i]);
      assert a[..] == Overwrite(was, ao, x[..i])[ao + i := x[i]];
    }
    assert x[..n] == x;
  }

  // Copies octets between distinct buffers.
  method Copy(a: array<byte>, ao: nat, b: array<byte>, bo: nat, n: nat)
    requires ao + n <= a.Length && bo + n <= b.Length && a != b
    modifies a
    ensures a[..] == Overwrite(old(a[..]), ao, b[bo..bo + n])
  {
    hide Overwrite;
    ghost var was, x := a[..], b[bo..bo + n];
    assert x[..0] == [];
    OverwriteNothing(was, ao);
    for i := 0 to n
      invariant a[..] == Overwrite(was, ao, x[..i])
    {
      OverwriteMore(was, ao, x, i);
      a[ao + i] := b[bo + i];
      assert a[..] == Overwrite(was, ao, x[..i])[ao + i := x[i]];
    }
    assert x[..n] == x;
  }

  // Copies a whole buffer.
  method CopyAll(a: array<byte>, b: array<byte>)
    requires a.Length == b.Length && a != b
    modifies a
    ensures a[..] == b[..]
  {
    hide Overwrite;
    ghost var was := a[..];
    Copy(a, 0, b, 0, b.Length);
    assert b[0..b.Length] == b[..];
    OverwriteAll(was, b[..]);
  }

  // Sets a buffer to zero.
  method Clear(a: array<byte>)
    modifies a
    ensures a[..] == Zeros(a.Length)
  {
    for i := 0 to a.Length
      invariant forall k | 0 <= k < i :: a[k] == 0
    {
      a[i] := 0;
    }
  }

  // A keyed block cipher: encryption and decryption of one block of blockSize octets.
  datatype Cipher = Cipher(blockSize: nat, enc: seq<byte> -> seq<byte>, dec: seq<byte> -> seq<byte>) {
    ghost predicate Valid() {
      && 0 < blockSize <= 16
      && forall b: seq<byte> :: BlockAt(b)
    }

    ghost predicate BlockAt(b: seq<byte>) {
      |b| == blockSize ==> |enc(b)| == blockSize && |dec(b)| == blockSize && dec(enc(b)) == b
    }
  }

  // One call of the block encryption.
  method EncryptBlock(cipher: Cipher, input: array<byte>, output: array<byte>)
    requires cipher.Valid() && input.Length == cipher.blockSize && output.Length == cipher.blockSize
    modifies output
    ensures output[..] == cipher.enc(old(input[..]))
  {
    assert cipher.BlockAt(input[..]);
    var b := cipher.enc(input[..]);
    for i := 0 to output.Length
      invariant output[..i] == b[..i]
    {
      output[i] := b[i];
    }
  }

  // The block encryption within buffers; the places may be one.
  method EncryptAt(cipher: Cipher, a: array<byte>, ao: nat, b: array<byte>, bo: nat)
    requires cipher.Valid() && ao + cipher.blockSize <= a.Length && bo + cipher.blockSize <= b.Length
    modifies b
    ensures |cipher.enc(old(a[ao..ao + cipher.blockSize]))| == cipher.blockSize
    ensures b[..] == Overwrite(old(b[..]), bo, cipher.enc(old(a[ao..ao + cipher.blockSize])))
  {
    assert cipher.BlockAt(a[ao..ao + cipher.blockSize]);
    var x := cipher.enc(a[ao..ao + cipher.blockSize]);
    Write(b, bo, x);
  }

  // The block decryption within buffers.
  method DecryptAt(cipher: Cipher, a: array<byte>, ao: nat, b: array<byte>, bo: nat)
    requires cipher.Valid() && ao + cipher.blockSize <= a.Length && bo + cipher.blockSize <= b.Length
    modifies b
    ensures |cipher.dec(old(a[ao..ao + cipher.blockSize]))| == cipher.blockSize
    ensures b[..] == Overwrite(old(b[..]), bo, cipher.dec(old(a[ao..ao + cipher.blockSize])))
  {
    assert cipher.BlockAt(a[ao..ao + cipher.blockSize]);
    var x := cipher.dec(a[ao..ao + cipher.blockSize]);
    Write(b, bo, x);
  }

  method Write(b: array<byte>, bo: nat, x: seq<byte>)
    requires bo + |x| <= b.Length
    modifies b
    ensures b[..] == Overwrite(old(b[..]), bo, x)
  {
    hide Overwrite;
    ghost var was := b[..];
    assert x[..0] == [];
    OverwriteNothing(was, bo);
    for i := 0 to |x|
      invariant b[..] == Overwrite(was, bo, x[..i])
    {
      OverwriteMore(was, bo, x, i);
      b[bo + i] := x[i];
      assert b[..] == Overwrite(was, bo, x[..i])[bo + i := x[i]];
    }
    assert x[..|x|] == x;
  }

  // The four octets of n modulo 2^32, most significant first (STORE32BE).
  function Be32(n: nat): (r: seq<byte>)
    ensures |r| == 4
  {
    [Octet(n / 0x1000000), Octet(n / 0x10000), Octet(n / 0x100), Octet(n)]
  }

  function Octet(n: nat): byte { (n % 256) as byte }

  lemma NatByte(v: nat)
    requires v < 256
    ensures (v as byte) as nat == v
  {
    assert v % 256 == v;
  }

  lemma OctetValue(n: nat)
    ensures Octet(n) as nat == n % 256
  {
    NatByte(n % 256);
  }

  // Stores the low 32 bits of n, most significant octet first.
  method Store32(a: array<byte>, ao: nat, n: nat)
    requires ao + 4 <= a.Length
    modifies a
    ensures a[..] == Overwrite(old(a[..]), ao, Be32(n))
  {
    a[ao] := Octet(n / 0x1000000);
    a[ao + 1] := Octet(n / 0x10000);
    a[ao + 2] := Octet(n / 0x100);
    a[ao + 3] := Octet(n);
  }

  // The word of four octets, most significant first.
  function Load(a: byte, b: byte, c: byte, d: byte): bv32 {
    ((a as bv32) << 24) | ((b as bv32) << 16) | ((c as bv32) << 8) | (d as bv32)
  }

  // The octets of a word, most significant first.
  function Store(w: bv32): (r: seq<byte>)
    ensures |r| == 4
  {
    [((w >> 24) & 0xFF) as byte, ((w >> 16) & 0xFF) as byte, ((w >> 8) & 0xFF) as byte, (w & 0xFF) as byte]
  }

  lemma StoreLoad(a: byte, b: byte, c: byte, d: byte, w: bv32)
    ensures Store(Load(a, b, c, d)) == [a, b, c, d]
    ensures Load(Store(w)[0], Store(w)[1], Store(w)[2], Store(w)[3]) == w
  {
    LoadOctets(a, b, c, d);
    LoadStored(w);
  }

  lemma LoadOctets(a: byte, b: byte, c: byte, d: byte)
    ensures Store(Load(a, b, c, d)) == [a, b, c, d]
  {
  }

  lemma LoadStored(w: bv32)
    ensures Load(Store(w)[0], Store(w)[1], Store(w)[2], Store(w)[3]) == w
  {
  }

  // Stores a word, most significant octet first.
  method StoreWord(w: bv32, output: array<byte>, off: nat)
    requires off + 4 <= output.Length
    modifies output
    ensures output[..] == Overwrite(old(output[..]), off, Store(w))
  {
    hide Store;
    var d := Store(w);
    output[off], output[off + 1], output[off + 2], output[off + 3] := d[0], d[1], d[2], d[3];
  }
}
