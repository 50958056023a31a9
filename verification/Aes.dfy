/** AES as implemented with 32-bit tables (aesInit, aesEncryptBlock, aesDecryptBlock). */
module Aes {
  import opened Blocks
  import opened AesTables
  import opened AesRounds

  // ---------------------------------------------------------------- words and columns

  function B0(w: bv32): byte { (w & 0xFF) as byte }
  function B1(w: bv32): byte { ((w >> 8) & 0xFF) as byte }
  function B2(w: bv32): byte { ((w >> 16) & 0xFF) as byte }
  function B3(w: bv32): byte { ((w >> 24) & 0xFF) as byte }

  function Rol8(w: bv32): bv32 { (w << 8) | (w >> 24) }
  function Rol16(w: bv32): bv32 { (w << 16) | (w >> 16) }
  function Rol24(w: bv32): bv32 { (w << 24) | (w >> 8) }

  function Add(v: bv32, w: bv32): bv32 { v ^ w }

  function ColOf(w: bv32): Col { Col(B0(w), B1(w), B2(w), B3(w)) }
  function WordOf(c: Col): bv32 { Pack(c.r0, c.r1, c.r2, c.r3) }

  lemma WordRoundTrip(c: Col, w: bv32)
    ensures ColOf(WordOf(c)) == c && WordOf(ColOf(w)) == w
  {
    PackBytes(c.r0, c.r1, c.r2, c.r3);
    BytesPack(w);
  }

  lemma PackBytes(a: byte, b: byte, c: byte, d: byte)
    ensures B0(Pack(a, b, c, d)) == a && B1(Pack(a, b, c, d)) == b
    ensures B2(Pack(a, b, c, d)) == c && B3(Pack(a, b, c, d)) == d
  {
  }

  lemma BytesPack(w: bv32)
    ensures Pack(B0(w), B1(w), B2(w), B3(w)) == w
  {
  }

  lemma Rol8Pack(a: byte, b: byte, c: byte, d: byte)
    ensures Rol8(Pack(a, b, c, d)) == Pack(d, a, b, c)
  {
  }

  lemma Rol16Pack(a: byte, b: byte, c: byte, d: byte)
    ensures Rol16(Pack(a, b, c, d)) == Pack(c, d, a, b)
  {
  }

  lemma Rol24Pack(a: byte, b: byte, c: byte, d: byte)
    ensures Rol24(Pack(a, b, c, d)) == Pack(b, c, d, a)
  {
  }

  lemma AddPack(a: byte, b: byte, c: byte, d: byte, e: byte, f: byte, g: byte, h: byte)
    ensures Add(Pack(a, b, c, d), Pack(e, f, g, h)) == Pack(Sum(a, e), Sum(b, f), Sum(c, g), Sum(d, h))
  {
  }

  lemma ColOfAdd(v: bv32, w: bv32)
    ensures ColOf(Add(v, w)) == AddCol(ColOf(v), ColOf(w))
  {
    hide B0, B1, B2, B3, Pack, Add, Sum;
    BytesPack(v);
    BytesPack(w);
    var a, b := ColOf(v), ColOf(w);
    AddPack(a.r0, a.r1, a.r2, a.r3, b.r0, b.r1, b.r2, b.r3);
    PackBytes(Sum(a.r0, b.r0), Sum(a.r1, b.r1), Sum(a.r2, b.r2), Sum(a.r3, b.r3));
  }

  // ---------------------------------------------------------------- table lookups

  // The sum of four entries of te, each rotated by eight bits more than the one before; likewise for td.
  function TeSum(a: byte, b: byte, c: byte, d: byte): bv32 {
    Add(Add(Add(Te(a), Rol8(Te(b))), Rol16(Te(c))), Rol24(Te(d)))
  }

  function TdSum(a: byte, b: byte, c: byte, d: byte): bv32 {
    Add(Add(Add(Td(a), Rol8(Td(b))), Rol16(Td(c))), Rol24(Td(d)))
  }

  // The sum of four rotated packs, octet by octet.
  lemma RotatedPacks(a: Col, b: Col, c: Col, d: Col)
    ensures Add(Add(Add(WordOf(a), Rol8(WordOf(b))), Rol16(WordOf(c))), Rol24(WordOf(d)))
         == Pack(Sum4(a.r0, b.r3, c.r2, d.r1), Sum4(a.r1, b.r0, c.r3, d.r2),
                 Sum4(a.r2, b.r1, c.r0, d.r3), Sum4(a.r3, b.r2, c.r1, d.r0))
  {
    hide Pack, Add, Sum, Sum4, Rol8, Rol16, Rol24;
    Rol8Pack(b.r0, b.r1, b.r2, b.r3);
    Rol16Pack(c.r0, c.r1, c.r2, c.r3);
    Rol24Pack(d.r0, d.r1, d.r2, d.r3);
    AddPack(a.r0, a.r1, a.r2, a.r3, b.r3, b.r0, b.r1, b.r2);
    var s0, s1, s2, s3 := Sum(a.r0, b.r3), Sum(a.r1, b.r0), Sum(a.r2, b.r1), Sum(a.r3, b.r2);
    AddPack(s0, s1, s2, s3, c.r2, c.r3, c.r0, c.r1);
    AddPack(Sum(s0, c.r2), Sum(s1, c.r3), Sum(s2, c.r0), Sum(s3, c.r1), d.r1, d.r2, d.r3, d.r0);
    Sum4AsSums(a.r0, b.r3, c.r2, d.r1);
    Sum4AsSums(a.r1, b.r0, c.r3, d.r2);
    Sum4AsSums(a.r2, b.r1, c.r0, d.r3);
    Sum4AsSums(a.r3, b.r2, c.r1, d.r0);
  }

  // The encryption tables compute SubBytes and MixColumns of one column.
  lemma TeSumIsRound(a: byte, b: byte, c: byte, d: byte)
    ensures TeSum(a, b, c, d) == WordOf(MixCol(SubCol(Col(a, b, c, d))))
  {
    hide Te, Sbox, Pack, Add, Sum4, X2, X3, Rol8, Rol16, Rol24;
    var p, q, r, s := Sbox(a), Sbox(b), Sbox(c), Sbox(d);
    TeEquation(a);
    TeEquation(b);
    TeEquation(c);
    TeEquation(d);
    RotatedPacks(Col(X2(p), p, p, X3(p)), Col(X2(q), q, q, X3(q)), Col(X2(r), r, r, X3(r)), Col(X2(s), s, s, X3(s)));
    Rotate4(p, X2(q), X3(r), s);
    Rotate4(p, q, X2(r), X3(s));
    Rotate4(X3(p), q, r, X2(s));
  }

  // The decryption tables compute InvSubBytes and InvMixColumns of one column.
  lemma TdSumIsRound(a: byte, b: byte, c: byte, d: byte)
    ensures TdSum(a, b, c, d) == WordOf(InvMixCol(InvSubCol(Col(a, b, c, d))))
  {
    hide Td, InvSbox, Pack, Add, Sum4, X9, XB, XD, XE, Rol8, Rol16, Rol24;
    var p, q, r, s := InvSbox(a), InvSbox(b), InvSbox(c), InvSbox(d);
    TdEquation(a);
    TdEquation(b);
    TdEquation(c);
    TdEquation(d);
    RotatedPacks(Col(XE(p), X9(p), XD(p), XB(p)), Col(XE(q), X9(q), XD(q), XB(q)),
                 Col(XE(r), X9(r), XD(r), XB(r)), Col(XE(s), X9(s), XD(s), XB(s)));
    Rotate4(X9(p), XE(q), XB(r), XD(s));
    Rotate4(XD(p), X9(q), XE(r), XB(s));
    Rotate4(XB(p), XD(q), X9(r), XE(s));
  }

  // ---------------------------------------------------------------- states and round keys

  function Words(w0: bv32, w1: bv32, w2: bv32, w3: bv32): State {
    State(ColOf(w0), ColOf(w1), ColOf(w2), ColOf(w3))
  }

  // The word of four octets, least significant first.
  function Load(b: seq<byte>, i: nat): bv32
    requires i + 4 <= |b|
  {
    Pack(b[i], b[i + 1], b[i + 2], b[i + 3])
  }

  function BlockState(b: seq<byte>): State
    requires |b| == 16
  {
    State(Col(b[0], b[1], b[2], b[3]), Col(b[4], b[5], b[6], b[7]),
          Col(b[8], b[9], b[10], b[11]), Col(b[12], b[13], b[14], b[15]))
  }

  function StateBlock(s: State): (b: seq<byte>)
    ensures |b| == 16 && BlockState(b) == s
  {
    Octets(s.c0) + Octets(s.c1) + Octets(s.c2) + Octets(s.c3)
  }

  function RoundKey(w: seq<bv32>, i: nat): State
    requires 4 * i + 4 <= |w|
  {
    Words(w[4 * i], w[4 * i + 1], w[4 * i + 2], w[4 * i + 3])
  }

  function RoundKeys(w: seq<bv32>, nr: nat): (ks: seq<State>)
    requires 4 * (nr + 1) <= |w|
    ensures |ks| == nr + 1
  {
    seq(nr + 1, i requires 0 <= i < nr + 1 => RoundKey(w, i))
  }

  lemma WordsAdd(v0: bv32, v1: bv32, v2: bv32, v3: bv32, w0: bv32, w1: bv32, w2: bv32, w3: bv32)
    ensures Words(Add(v0, w0), Add(v1, w1), Add(v2, w2), Add(v3, w3))
         == AddRoundKey(Words(v0, v1, v2, v3), Words(w0, w1, w2, w3))
  {
    hide Add, AddCol, ColOf;
    ColOfAdd(v0, w0);
    ColOfAdd(v1, w1);
    ColOfAdd(v2, w2);
    ColOfAdd(v3, w3);
  }

  // ---------------------------------------------------------------- one round on words

  // One column of the state: the entries are looked up, rotated and added one after the other.
  method EncryptColumn(a: bv32, b: bv32, c: bv32, d: bv32) returns (t: bv32)
    ensures ColOf(t) == MixCol(SubCol(Col(B0(a), B1(b), B2(c), B3(d))))
  {
    hide Te, Sbox, Add, Rol8, Rol16, Rol24, B0, B1, B2, B3, MixCol, SubCol, ColOf, Pack;
    t := Te(B0(a));
    var temp := Te(B1(b));
    t := Add(t, Rol8(temp));
    temp := Te(B2(c));
    t := Add(t, Rol16(temp));
    temp := Te(B3(d));
    t := Add(t, Rol24(temp));
    TeSumIsRound(B0(a), B1(b), B2(c), B3(d));
    WordRoundTrip(MixCol(SubCol(Col(B0(a), B1(b), B2(c), B3(d)))), t);
  }

  method DecryptColumn(a: bv32, b: bv32, c: bv32, d: bv32) returns (t: bv32)
    ensures ColOf(t) == InvMixCol(InvSubCol(Col(B0(a), B1(b), B2(c), B3(d))))
  {
    hide Td, InvSbox, Add, Rol8, Rol16, Rol24, B0, B1, B2, B3, InvMixCol, InvSubCol, ColOf, Pack;
    t := Td(B0(a));
    var temp := Td(B1(b));
    t := Add(t, Rol8(temp));
    temp := Td(B2(c));
    t := Add(t, Rol16(temp));
    temp := Td(B3(d));
    t := Add(t, Rol24(temp));
    TdSumIsRound(B0(a), B1(b), B2(c), B3(d));
    WordRoundTrip(InvMixCol(InvSubCol(Col(B0(a), B1(b), B2(c), B3(d)))), t);
  }

  // The last rounds look up the S-boxes and assemble a word from four octets.
  method EncryptLast(a: bv32, b: bv32, c: bv32, d: bv32) returns (t: bv32)
    ensures ColOf(t) == SubCol(Col(B0(a), B1(b), B2(c), B3(d)))
  {
    hide Sbox, Pack, B0, B1, B2, B3, ColOf;
    t := Pack(Sbox(B0(a)), Sbox(B1(b)), Sbox(B2(c)), Sbox(B3(d)));
    WordRoundTrip(SubCol(Col(B0(a), B1(b), B2(c), B3(d))), t);
  }

  method DecryptLast(a: bv32, b: bv32, c: bv32, d: bv32) returns (t: bv32)
    ensures ColOf(t) == InvSubCol(Col(B0(a), B1(b), B2(c), B3(d)))
  {
    hide InvSbox, Pack, B0, B1, B2, B3, ColOf;
    t := Pack(InvSbox(B0(a)), InvSbox(B1(b)), InvSbox(B2(c)), InvSbox(B3(d)));
    WordRoundTrip(InvSubCol(Col(B0(a), B1(b), B2(c), B3(d))), t);
  }

  // The state loaded from a block, and stored to one.
  method LoadState(b: array<byte>) returns (s0: bv32, s1: bv32, s2: bv32, s3: bv32)
    requires b.Length == 16
    ensures Words(s0, s1, s2, s3) == BlockState(b[..])
  {
    hide Pack, ColOf;
    s0 := Load(b[..], 0);
    s1 := Load(b[..], 4);
    s2 := Load(b[..], 8);
    s3 := Load(b[..], 12);
    var s := BlockState(b[..]);
    WordRoundTrip(s.c0, s0);
    WordRoundTrip(s.c1, s1);
    WordRoundTrip(s.c2, s2);
    WordRoundTrip(s.c3, s3);
  }

  // Stores a word, least significant octet first.
  method StoreWord(b: array<byte>, i: nat, w: bv32)
    requires i + 4 <= b.Length
    modifies b
    ensures b[..] == Overwrite(old(b[..]), i, Octets(ColOf(w)))
  {
    hide B0, B1, B2, B3;
    b[i], b[i + 1], b[i + 2], b[i + 3] := B0(w), B1(w), B2(w), B3(w);
  }

  function Octets(c: Col): (r: seq<byte>)
    ensures |r| == 4
  {
    [c.r0, c.r1, c.r2, c.r3]
  }

  lemma FourWords(b: seq<byte>, x0: seq<byte>, x1: seq<byte>, x2: seq<byte>, x3: seq<byte>)
    requires |b| == 16 && |x0| == |x1| == |x2| == |x3| == 4
    ensures Overwrite(Overwrite(Overwrite(Overwrite(b, 0, x0), 4, x1), 8, x2), 12, x3) == x0 + x1 + x2 + x3
  {
    assert Overwrite(b, 0, x0) == x0 + b[4..];
    assert Overwrite(x0 + b[4..], 4, x1) == x0 + x1 + b[8..];
    assert Overwrite(x0 + x1 + b[8..], 8, x2) == x0 + x1 + x2 + b[12..];
  }

  method StoreState(b: array<byte>, s0: bv32, s1: bv32, s2: bv32, s3: bv32)
    requires b.Length == 16
    modifies b
    ensures b[..] == StateBlock(Words(s0, s1, s2, s3))
  {
    hide ColOf, Octets, Overwrite;
    ghost var was := b[..];
    StoreWord(b, 0, s0);
    StoreWord(b, 4, s1);
    StoreWord(b, 8, s2);
    StoreWord(b, 12, s3);
    FourWords(was, Octets(ColOf(s0)), Octets(ColOf(s1)), Octets(ColOf(s2)), Octets(ColOf(s3)));
  }

  lemma BlockStateInjective(b: seq<byte>)
    requires |b| == 16
    ensures StateBlock(BlockState(b)) == b
  {
  }

  // ---------------------------------------------------------------- the context

  class AesContext {
    var nr: nat
    const ek: array<bv32>
    const dk: array<bv32>

    constructor ()
      ensures fresh(ek) && fresh(dk) && ek.Length == 60 && dk.Length == 60 && ek != dk
    {
      nr := 0;
      ek := new bv32[60];
      dk := new bv32[60];
    }

    // The two key schedules agree, as aesInit leaves them.
    ghost predicate Ready()
      reads this, ek, dk
    {
      && (nr == 10 || nr == 12 || nr == 14)
      && ek.Length == 60 && dk.Length == 60 && ek != dk
      && RoundKeys(dk[..], nr) == DecryptionKeys(RoundKeys(ek[..], nr))
    }
  }

  method AesEncryptBlock(context: AesContext, input: array<byte>, output: array<byte>)
    requires context.Ready() && input.Length == 16 && output.Length == 16
    modifies output
    ensures output[..] == StateBlock(Encipher(RoundKeys(context.ek[..], context.nr), BlockState(old(input[..]))))
  {
    hide Words, AddRoundKey, MixColumns, ShiftRows, SubBytes, StateBlock, BlockState, Add, RoundKeys, Rounds;
    var nr := context.nr;
    ghost var w := context.ek[..];
    ghost var ks, s := RoundKeys(w, nr), BlockState(input[..]);
    var s0, s1, s2, s3 := LoadState(input);
    s0, s1, s2, s3 := AddKey(context.ek, 0, nr, s0, s1, s2, s3);
    RoundsStart(ks, s);
    for i := 1 to nr
      invariant Words(s0, s1, s2, s3) == Rounds(ks, i - 1, s)
    {
      var t0 := EncryptColumn(s0, s1, s2, s3);
      var t1 := EncryptColumn(s1, s2, s3, s0);
      var t2 := EncryptColumn(s2, s3, s0, s1);
      var t3 := EncryptColumn(s3, s0, s1, s2);
      RoundOnWords(s0, s1, s2, s3, t0, t1, t2, t3);
      s0, s1, s2, s3 := AddKey(context.ek, i, nr, t0, t1, t2, t3);
      RoundsStep(ks, i, s);
    }
    var t0 := EncryptLast(s0, s1, s2, s3);
    var t1 := EncryptLast(s1, s2, s3, s0);
    var t2 := EncryptLast(s2, s3, s0, s1);
    var t3 := EncryptLast(s3, s0, s1, s2);
    LastOnWords(s0, s1, s2, s3, t0, t1, t2, t3);
    s0, s1, s2, s3 := AddKey(context.ek, nr, nr, t0, t1, t2, t3);
    StoreState(output, s0, s1, s2, s3);
  }

  // Round key addition
  method AddKey(k: array<bv32>, i: nat, nr: nat, t0: bv32, t1: bv32, t2: bv32, t3: bv32)
    returns (s0: bv32, s1: bv32, s2: bv32, s3: bv32)
    requires i <= nr && 4 * (nr + 1) <= k.Length
    ensures Words(s0, s1, s2, s3) == AddRoundKey(Words(t0, t1, t2, t3), RoundKeys(k[..], nr)[i])
  {
    hide Words, AddRoundKey, Add;
    s0 := Add(t0, k[i * 4]);
    s1 := Add(t1, k[i * 4 + 1]);
    s2 := Add(t2, k[i * 4 + 2]);
    s3 := Add(t3, k[i * 4 + 3]);
    WordsAdd(t0, t1, t2, t3, k[i * 4], k[i * 4 + 1], k[i * 4 + 2], k[i * 4 + 3]);
  }

  lemma RoundsStart(ks: seq<State>, s: State)
    requires |ks| > 0
    ensures Rounds(ks, 0, s) == AddRoundKey(s, ks[0])
  {
  }

  lemma RoundsStep(ks: seq<State>, i: nat, s: State)
    requires 0 < i < |ks|
    ensures Rounds(ks, i, s) == AddRoundKey(MixColumns(ShiftRows(SubBytes(Rounds(ks, i - 1, s)))), ks[i])
  {
    hide AddRoundKey, MixColumns, ShiftRows, SubBytes;
  }

  lemma RoundOnWords(s0: bv32, s1: bv32, s2: bv32, s3: bv32, t0: bv32, t1: bv32, t2: bv32, t3: bv32)
    requires ColOf(t0) == MixCol(SubCol(Col(B0(s0), B1(s1), B2(s2), B3(s3))))
    requires ColOf(t1) == MixCol(SubCol(Col(B0(s1), B1(s2), B2(s3), B3(s0))))
    requires ColOf(t2) == MixCol(SubCol(Col(B0(s2), B1(s3), B2(s0), B3(s1))))
    requires ColOf(t3) == MixCol(SubCol(Col(B0(s3), B1(s0), B2(s1), B3(s2))))
    ensures Words(t0, t1, t2, t3) == MixColumns(ShiftRows(SubBytes(Words(s0, s1, s2, s3))))
  {
    hide B0, B1, B2, B3, MixCol, Sbox;
  }

  lemma LastOnWords(s0: bv32, s1: bv32, s2: bv32, s3: bv32, t0: bv32, t1: bv32, t2: bv32, t3: bv32)
    requires ColOf(t0) == SubCol(Col(B0(s0), B1(s1), B2(s2), B3(s3)))
    requires ColOf(t1) == SubCol(Col(B0(s1), B1(s2), B2(s3), B3(s0)))
    requires ColOf(t2) == SubCol(Col(B0(s2), B1(s3), B2(s0), B3(s1)))
    requires ColOf(t3) == SubCol(Col(B0(s3), B1(s0), B2(s1), B3(s2)))
    ensures Words(t0, t1, t2, t3) == ShiftRows(SubBytes(Words(s0, s1, s2, s3)))
  {
    hide B0, B1, B2, B3, Sbox;
  }

  method AesDecryptBlock(context: AesContext, input: array<byte>, output: array<byte>)
    requires context.Ready() && input.Length == 16 && output.Length == 16
    modifies output
    ensures output[..] == StateBlock(InvCipher(RoundKeys(context.ek[..], context.nr), BlockState(old(input[..]))))
  {
    hide Words, AddRoundKey, InvMixColumns, InvShiftRows, InvSubBytes, StateBlock, BlockState, RoundKeys, EqRounds, InvRounds, DecryptionKeys, AddCol;
    var nr := context.nr;
    ghost var s := BlockState(input[..]);
    ghost var dks := RoundKeys(context.dk[..], nr);
    var s0, s1, s2, s3 := LoadState(input);
    s0, s1, s2, s3 := AddKey(context.dk, nr, nr, s0, s1, s2, s3);
    ghost var goal := EqInvCipher(dks, s);
    var i := nr - 1;
    while i >= 1
      invariant 0 <= i < nr
      invariant EqRounds(dks, i, Words(s0, s1, s2, s3)) == goal
    {
      EqRoundsStep(dks, i, Words(s0, s1, s2, s3));
      var t0 := DecryptColumn(s0, s3, s2, s1);
      var t1 := DecryptColumn(s1, s0, s3, s2);
      var t2 := DecryptColumn(s2, s1, s0, s3);
      var t3 := DecryptColumn(s3, s2, s1, s0);
      InvRoundOnWords(s0, s1, s2, s3, t0, t1, t2, t3);
      s0, s1, s2, s3 := AddKey(context.dk, i, nr, t0, t1, t2, t3);
      i := i - 1;
    }
    EqRoundsEnd(dks, Words(s0, s1, s2, s3));
    var t0 := DecryptLast(s0, s3, s2, s1);
    var t1 := DecryptLast(s1, s0, s3, s2);
    var t2 := DecryptLast(s2, s1, s0, s3);
    var t3 := DecryptLast(s3, s2, s1, s0);
    InvLastOnWords(s0, s1, s2, s3, t0, t1, t2, t3);
    s0, s1, s2, s3 := AddKey(context.dk, 0, nr, t0, t1, t2, t3);
    EquivalentInverse(RoundKeys(context.ek[..], nr), s);
    StoreState(output, s0, s1, s2, s3);
  }

  lemma EqRoundsEnd(dk: seq<State>, s: State)
    requires |dk| > 0
    ensures EqRounds(dk, 0, s) == AddRoundKey(InvShiftRows(InvSubBytes(s)), dk[0])
  {
    hide AddRoundKey, InvMixColumns, InvShiftRows, InvSubBytes;
  }

  lemma EqRoundsStep(dk: seq<State>, i: nat, s: State)
    requires 0 < i < |dk|
    ensures EqRounds(dk, i, s) == EqRounds(dk, i - 1, AddRoundKey(InvMixColumns(InvShiftRows(InvSubBytes(s))), dk[i]))
  {
    hide AddRoundKey, InvMixColumns, InvShiftRows, InvSubBytes;
  }

  lemma InvRoundOnWords(s0: bv32, s1: bv32, s2: bv32, s3: bv32, t0: bv32, t1: bv32, t2: bv32, t3: bv32)
    requires ColOf(t0) == InvMixCol(InvSubCol(Col(B0(s0), B1(s3), B2(s2), B3(s1))))
    requires ColOf(t1) == InvMixCol(InvSubCol(Col(B0(s1), B1(s0), B2(s3), B3(s2))))
    requires ColOf(t2) == InvMixCol(InvSubCol(Col(B0(s2), B1(s1), B2(s0), B3(s3))))
    requires ColOf(t3) == InvMixCol(InvSubCol(Col(B0(s3), B1(s2), B2(s1), B3(s0))))
    ensures Words(t0, t1, t2, t3) == InvMixColumns(InvShiftRows(InvSubBytes(Words(s0, s1, s2, s3))))
  {
    hide B0, B1, B2, B3, InvMixCol, InvSbox;
  }

  lemma InvLastOnWords(s0: bv32, s1: bv32, s2: bv32, s3: bv32, t0: bv32, t1: bv32, t2: bv32, t3: bv32)
    requires ColOf(t0) == InvSubCol(Col(B0(s0), B1(s3), B2(s2), B3(s1)))
    requires ColOf(t1) == InvSubCol(Col(B0(s1), B1(s0), B2(s3), B3(s2)))
    requires ColOf(t2) == InvSubCol(Col(B0(s2), B1(s1), B2(s0), B3(s3)))
    requires ColOf(t3) == InvSubCol(Col(B0(s3), B1(s2), B2(s1), B3(s0)))
    ensures Words(t0, t1, t2, t3) == InvShiftRows(InvSubBytes(Words(s0, s1, s2, s3)))
  {
    hide B0, B1, B2, B3, InvSbox;
  }

  // ---------------------------------------------------------------- key expansion

  // rcon[1..10]
  function Rcon(k: nat): bv32 {
    if k == 1 then 0x01 else if k == 2 then 0x02 else if k == 3 then 0x04 else if k == 4 then 0x08
    else if k == 5 then 0x10 else if k == 6 then 0x20 else if k == 7 then 0x40 else if k == 8 then 0x80
    else if k == 9 then 0x1B else if k == 10 then 0x36 else 0
  }

  function XPower(k: nat): byte { if k == 0 then 1 else X2(XPower(k - 1)) }

  // The round constants are the powers of x (section 5.2 of FIPS 197).
  lemma RconIsPower(k: nat)
    requires 1 <= k <= 10
    ensures Rcon(k) == Pack(XPower(k - 1), 0, 0, 0)
  {
    Powers1To10();
  }

  lemma Powers1To10()
    ensures XPower(0) == 0x01 && XPower(1) == 0x02 && XPower(2) == 0x04 && XPower(3) == 0x08 && XPower(4) == 0x10
    ensures XPower(5) == 0x20 && XPower(6) == 0x40 && XPower(7) == 0x80 && XPower(8) == 0x1B && XPower(9) == 0x36
  {
    assert XPower(1) == 0x02;
    assert XPower(2) == 0x04;
    assert XPower(3) == 0x08;
    assert XPower(4) == 0x10;
    assert XPower(5) == 0x20;
    assert XPower(6) == 0x40;
    assert XPower(7) == 0x80;
    assert XPower(8) == 0x1B;
  }

  function RotCol(c: Col): Col { Col(c.r1, c.r2, c.r3, c.r0) }

  // The word that is added to word i - nk (section 5.2 of FIPS 197).
  function Schedule(temp: bv32, i: nat, nk: nat): bv32
    requires nk > 0
  {
    if i % nk == 0 then Add(WordOf(SubCol(RotCol(ColOf(temp)))), Rcon(i / nk))
    else if nk > 6 && i % nk == 4 then WordOf(SubCol(ColOf(temp)))
    else temp
  }

  // Word i of the expanded key.
  function KeyWord(key: seq<byte>, i: nat): bv32
    requires |key| >= 4
  {
    var nk := |key| / 4;
    if i < nk then Load(key, 4 * i)
    else Add(Schedule(KeyWord(key, i - 1), i, nk), KeyWord(key, i - nk))
  }

  datatype Error = None | InvalidKeyLength

  method AesInit(context: AesContext, key: array<byte>) returns (error: Error)
    requires context.ek.Length == 60 && context.dk.Length == 60 && context.ek != context.dk
    modifies context, context.ek, context.dk
    ensures error == if key.Length == 16 || key.Length == 24 || key.Length == 32 then None else InvalidKeyLength
    ensures error != None ==> unchanged(context) && unchanged(context.ek) && unchanged(context.dk)
    ensures error == None ==>
      && context.nr == key.Length / 4 + 6
      && context.Ready()
      && forall i | 0 <= i < 4 * (context.nr + 1) :: context.ek[i] == KeyWord(key[..], i)
  {
    hide KeyWord, DecryptionWord, RoundKeys, DecryptionKeys;
    if key.Length == 16 {
      context.nr := 10;
    } else if key.Length == 24 {
      context.nr := 12;
    } else if key.Length == 32 {
      context.nr := 14;
    } else {
      return InvalidKeyLength;
    }
    ExpandKey(context.ek, key, 4 * (context.nr + 1));
    DeriveDecryptionKeys(context.ek, context.dk, 4 * (context.nr + 1));
    DecryptionWords(context.ek[..], context.dk[..], context.nr);
    error := None;
  }

  // The key schedule for encryption.
  method ExpandKey(ek: array<bv32>, key: array<byte>, size: nat)
    requires ek.Length == 60 && size <= 60
    requires key.Length == 16 || key.Length == 24 || key.Length == 32
    requires key.Length / 4 <= size
    modifies ek
    ensures forall i | 0 <= i < size :: ek[i] == KeyWord(key[..], i)
  {
    hide Add, Schedule, Pack, KeyWord;
    var nk := key.Length / 4;
    for i := 0 to nk
      invariant forall j | 0 <= j < i :: ek[j] == KeyWord(key[..], j)
    {
      KeyWordIs(key[..], i);
      ek[i] := Load(key[..], i * 4);
    }
    for i := nk to size
      invariant forall j | 0 <= j < i :: ek[j] == KeyWord(key[..], j)
    {
      KeyWordIs(key[..], i);
      var temp := ek[i - 1];
      ek[i] := Schedule(temp, i, nk);
      ek[i] := Add(ek[i], ek[i - nk]);
    }
  }

  lemma KeyWordIs(key: seq<byte>, i: nat)
    requires |key| >= 4
    ensures
      var nk := |key| / 4;
      KeyWord(key, i) == if i < nk then Load(key, 4 * i)
        else Add(Schedule(KeyWord(key, i - 1), i, nk), KeyWord(key, i - nk))
  {
    hide Add, Schedule, Load;
  }

  // The key schedule for decryption.
  method DeriveDecryptionKeys(ek: array<bv32>, dk: array<bv32>, size: nat)
    requires ek.Length == dk.Length == 60 && ek != dk && 8 <= size <= 60
    modifies dk
    ensures forall j | 0 <= j < size :: dk[j] == DecryptionWord(ek[..], size, j)
  {
    hide InvMixWord;
    for i := 0 to size
      invariant forall j | 0 <= j < i :: dk[j] == DecryptionWord(ek[..], size, j)
    {
      if i < 4 || i >= size - 4 {
        dk[i] := ek[i];
      } else {
        dk[i] := InvMixWord(ek[i]);
      }
    }
  }

  // The entries of td for the substituted octets of w, rotated and added.
  function InvMixWord(w: bv32): bv32 {
    TdSum(Sbox(B0(w)), Sbox(B1(w)), Sbox(B2(w)), Sbox(B3(w)))
  }

  function DecryptionWord(w: seq<bv32>, size: nat, j: nat): bv32
    requires j < size <= |w|
  {
    if j < 4 || j >= size - 4 then w[j] else InvMixWord(w[j])
  }

  // Looking up td of sbox leaves InvMixColumns alone.
  lemma InvMixWordIs(w: bv32)
    ensures ColOf(InvMixWord(w)) == InvMixCol(ColOf(w))
  {
    hide Sbox, InvSbox, TdSum, Pack, B0, B1, B2, B3, InvMixCol;
    TdSumIsRound(Sbox(B0(w)), Sbox(B1(w)), Sbox(B2(w)), Sbox(B3(w)));
    SubColInverse(ColOf(w));
    WordRoundTrip(InvMixCol(ColOf(w)), w);
  }

  lemma DecryptionWords(w: seq<bv32>, d: seq<bv32>, nr: nat)
    requires nr >= 1 && 4 * (nr + 1) <= |w| && |d| == |w|
    requires forall j | 0 <= j < 4 * (nr + 1) :: d[j] == DecryptionWord(w, 4 * (nr + 1), j)
    ensures RoundKeys(d, nr) == DecryptionKeys(RoundKeys(w, nr))
  {
    hide InvMixWord, ColOf, InvMixCol;
    var ks, dks := RoundKeys(w, nr), RoundKeys(d, nr);
    forall i | 0 <= i < nr + 1 ensures dks[i] == DecryptionKeys(ks)[i] {
      InvMixWordIs(w[4 * i]);
      InvMixWordIs(w[4 * i + 1]);
      InvMixWordIs(w[4 * i + 2]);
      InvMixWordIs(w[4 * i + 3]);
    }
  }

  // For every key of 16, 24 or 32 octets, decryption undoes encryption.
  method RoundTrip(key: array<byte>, block: array<byte>) returns (c: array<byte>, p: array<byte>)
    requires (key.Length == 16 || key.Length == 24 || key.Length == 32) && block.Length == 16
    ensures p[..] == block[..]
  {
    hide Encipher, InvCipher, RoundKeys, StateBlock, BlockState, KeyWord;
    var context := new AesContext();
    var error := AesInit(context, key);
    c := new byte[16];
    p := new byte[16];
    AesEncryptBlock(context, block, c);
    AesDecryptBlock(context, c, p);
    AesInverse(RoundKeys(context.ek[..], context.nr), block[..]);
  }

  lemma AesInverse(ks: seq<State>, b: seq<byte>)
    requires |ks| >= 2 && |b| == 16
    ensures StateBlock(InvCipher(ks, BlockState(StateBlock(Encipher(ks, BlockState(b)))))) == b
  {
    hide Encipher, InvCipher, StateBlock, BlockState;
    InvCipherUndoesCipher(ks, BlockState(b));
    BlockStateInjective(b);
  }
}
