/**
 * The AES cipher of FIPS 197 on columns of octets: encryption, the straightforward inverse
 * (section 5.3) and the equivalent inverse cipher (section 5.3.5).
 */
module AesRounds {
  import opened Blocks
  import opened AesTables

  // A column of the state, rows 0 to 3, and the four columns.
  datatype Col = Col(r0: byte, r1: byte, r2: byte, r3: byte)
  datatype State = State(c0: Col, c1: Col, c2: Col, c3: Col)

  function AddCol(a: Col, b: Col): Col { Col(Sum(a.r0, b.r0), Sum(a.r1, b.r1), Sum(a.r2, b.r2), Sum(a.r3, b.r3)) }

  function AddRoundKey(s: State, k: State): State {
    State(AddCol(s.c0, k.c0), AddCol(s.c1, k.c1), AddCol(s.c2, k.c2), AddCol(s.c3, k.c3))
  }

  function SubCol(c: Col): Col { Col(Sbox(c.r0), Sbox(c.r1), Sbox(c.r2), Sbox(c.r3)) }
  function InvSubCol(c: Col): Col { Col(InvSbox(c.r0), InvSbox(c.r1), InvSbox(c.r2), InvSbox(c.r3)) }

  function SubBytes(s: State): State { State(SubCol(s.c0), SubCol(s.c1), SubCol(s.c2), SubCol(s.c3)) }
  function InvSubBytes(s: State): State {
    State(InvSubCol(s.c0), InvSubCol(s.c1), InvSubCol(s.c2), InvSubCol(s.c3))
  }

  // Row r is rotated left, or right, by r columns.
  function ShiftRows(s: State): State {
    State(Col(s.c0.r0, s.c1.r1, s.c2.r2, s.c3.r3), Col(s.c1.r0, s.c2.r1, s.c3.r2, s.c0.r3),
          Col(s.c2.r0, s.c3.r1, s.c0.r2, s.c1.r3), Col(s.c3.r0, s.c0.r1, s.c1.r2, s.c2.r3))
  }

  function InvShiftRows(s: State): State {
    State(Col(s.c0.r0, s.c3.r1, s.c2.r2, s.c1.r3), Col(s.c1.r0, s.c0.r1, s.c3.r2, s.c2.r3),
          Col(s.c2.r0, s.c1.r1, s.c0.r2, s.c3.r3), Col(s.c3.r0, s.c2.r1, s.c1.r2, s.c0.r3))
  }

  // One output octet of MixColumns and of InvMixColumns; the others rotate the arguments.
  function Mix(a: byte, b: byte, c: byte, d: byte): byte { Sum4(X2(a), X3(b), c, d) }
  function InvMix(a: byte, b: byte, c: byte, d: byte): byte { Sum4(XE(a), XB(b), XD(c), X9(d)) }
  function Sum4(a: byte, b: byte, c: byte, d: byte): byte { a ^ b ^ c ^ d }

  function MixCol(c: Col): Col {
    Col(Mix(c.r0, c.r1, c.r2, c.r3), Mix(c.r1, c.r2, c.r3, c.r0),
        Mix(c.r2, c.r3, c.r0, c.r1), Mix(c.r3, c.r0, c.r1, c.r2))
  }

  function InvMixCol(c: Col): Col {
    Col(InvMix(c.r0, c.r1, c.r2, c.r3), InvMix(c.r1, c.r2, c.r3, c.r0),
        InvMix(c.r2, c.r3, c.r0, c.r1), InvMix(c.r3, c.r0, c.r1, c.r2))
  }

  function MixColumns(s: State): State { State(MixCol(s.c0), MixCol(s.c1), MixCol(s.c2), MixCol(s.c3)) }
  function InvMixColumns(s: State): State {
    State(InvMixCol(s.c0), InvMixCol(s.c1), InvMixCol(s.c2), InvMixCol(s.c3))
  }

  // ---------------------------------------------------------------- the ciphers

  // The state after rounds 1 to i; ks holds one round key per round.
  function Rounds(ks: seq<State>, i: nat, s: State): State
    requires i < |ks|
  {
    if i == 0 then AddRoundKey(s, ks[0])
    else AddRoundKey(MixColumns(ShiftRows(SubBytes(Rounds(ks, i - 1, s)))), ks[i])
  }

  function Encipher(ks: seq<State>, s: State): State
    requires |ks| >= 2
  {
    AddRoundKey(ShiftRows(SubBytes(Rounds(ks, |ks| - 2, s))), ks[|ks| - 1])
  }

  // Rounds i, i - 1, ..., 1 of the straightforward inverse, then the final round.
  function InvRounds(ks: seq<State>, i: nat, s: State): State
    requires i < |ks|
  {
    var t := InvSubBytes(InvShiftRows(s));
    if i == 0 then AddRoundKey(t, ks[0])
    else InvRounds(ks, i - 1, InvMixColumns(AddRoundKey(t, ks[i])))
  }

  function InvCipher(ks: seq<State>, s: State): State
    requires |ks| >= 2
  {
    InvRounds(ks, |ks| - 2, AddRoundKey(s, ks[|ks| - 1]))
  }

  // The same rounds in the shape of encryption, with other round keys.
  function EqRounds(dk: seq<State>, i: nat, s: State): State
    requires i < |dk|
  {
    var t := InvShiftRows(InvSubBytes(s));
    if i == 0 then AddRoundKey(t, dk[0])
    else EqRounds(dk, i - 1, AddRoundKey(InvMixColumns(t), dk[i]))
  }

  function EqInvCipher(dk: seq<State>, s: State): State
    requires |dk| >= 2
  {
    EqRounds(dk, |dk| - 2, AddRoundKey(s, dk[|dk| - 1]))
  }

  // InvMixColumns applied to all round keys but the first and the last.
  function DecryptionKeys(ks: seq<State>): (dk: seq<State>)
    ensures |dk| == |ks|
  {
    seq(|ks|, i requires 0 <= i < |ks| => if i == 0 || i == |ks| - 1 then ks[i] else InvMixColumns(ks[i]))
  }

  // ---------------------------------------------------------------- octet arithmetic

  lemma SumLaws(a: byte, b: byte)
    ensures Sum(Sum(a, b), b) == a && Sum(a, b) == Sum(b, a)
  {
  }

  lemma SumAssoc(a: byte, b: byte, c: byte)
    ensures Sum(Sum(a, b), c) == Sum(a, Sum(b, c))
  {
  }

  lemma X2Linear(a: byte, b: byte)
    ensures X2(Sum(a, b)) == Sum(X2(a), X2(b))
  {
    X2Xor(a, b);
  }

  lemma X2Xor(a: byte, b: byte)
    ensures X2(a ^ b) == X2(a) ^ X2(b)
  {
    if a & 0x80 != 0 {
      if b & 0x80 != 0 {} else {}
    } else {
      if b & 0x80 != 0 {} else {}
    }
  }

  lemma Powers(a: byte, b: byte)
    ensures X4(Sum(a, b)) == Sum(X4(a), X4(b)) && X8(Sum(a, b)) == Sum(X8(a), X8(b))
  {
    hide X2, Sum;
    X2Linear(a, b);
    X2Linear(X2(a), X2(b));
    X2Linear(X2(X2(a)), X2(X2(b)));
  }

  lemma Regroup2(p: byte, q: byte, r: byte, s: byte)
    ensures Sum(Sum(p, q), Sum(r, s)) == Sum(Sum(p, r), Sum(q, s))
  {
    hide Sum;
    SumAssoc(p, q, Sum(r, s));
    SumAssoc(q, r, s);
    SumLaws(q, r);
    SumAssoc(r, q, s);
    SumAssoc(p, r, Sum(q, s));
  }

  lemma Regroup3(p: byte, q: byte, r: byte, s: byte, t: byte, u: byte)
    ensures Sum3(Sum(p, q), Sum(r, s), Sum(t, u)) == Sum(Sum3(p, r, t), Sum3(q, s, u))
  {
    hide Sum, Sum3;
    Sum3AsSums(Sum(p, q), Sum(r, s), Sum(t, u));
    Sum3AsSums(p, r, t);
    Sum3AsSums(q, s, u);
    Regroup2(p, q, r, s);
    Regroup2(Sum(p, r), Sum(q, s), t, u);
  }

  lemma Sum3AsSums(a: byte, b: byte, c: byte)
    ensures Sum3(a, b, c) == Sum(Sum(a, b), c)
  {
  }

  lemma Regroup4(p: byte, q: byte, r: byte, s: byte, t: byte, u: byte, v: byte, w: byte)
    ensures Sum4(Sum(p, q), Sum(r, s), Sum(t, u), Sum(v, w)) == Sum(Sum4(p, r, t, v), Sum4(q, s, u, w))
  {
    hide Sum, Sum4;
    Sum4Halves(Sum(p, q), Sum(r, s), Sum(t, u), Sum(v, w));
    Sum4Halves(p, r, t, v);
    Sum4Halves(q, s, u, w);
    Regroup2(p, q, r, s);
    Regroup2(t, u, v, w);
    Regroup2(Sum(p, r), Sum(q, s), Sum(t, v), Sum(u, w));
  }

  lemma Transpose4(a: byte, b: byte, c: byte, d: byte, e: byte, f: byte, g: byte, h: byte,
                   i: byte, j: byte, k: byte, l: byte, m: byte, n: byte, o: byte, p: byte)
    ensures Sum4(Sum4(a, b, c, d), Sum4(e, f, g, h), Sum4(i, j, k, l), Sum4(m, n, o, p))
         == Sum4(Sum4(a, e, i, m), Sum4(b, f, j, n), Sum4(c, g, k, o), Sum4(d, h, l, p))
  {
    hide Sum, Sum4;
    Sum4Halves(a, b, c, d);
    Sum4Halves(e, f, g, h);
    Sum4Halves(i, j, k, l);
    Sum4Halves(m, n, o, p);
    Regroup4(Sum(a, b), Sum(c, d), Sum(e, f), Sum(g, h), Sum(i, j), Sum(k, l), Sum(m, n), Sum(o, p));
    Regroup4(a, b, e, f, i, j, m, n);
    Regroup4(c, d, g, h, k, l, o, p);
    Sum4Halves(Sum4(a, e, i, m), Sum4(b, f, j, n), Sum4(c, g, k, o), Sum4(d, h, l, p));
  }

  lemma Sum4Halves(a: byte, b: byte, c: byte, d: byte)
    ensures Sum4(a, b, c, d) == Sum(Sum(a, b), Sum(c, d))
  {
  }

  lemma Sum4AsSums(a: byte, b: byte, c: byte, d: byte)
    ensures Sum4(a, b, c, d) == Sum(Sum(Sum(a, b), c), d)
  {
  }

  lemma MultiplesLinear(a: byte, b: byte)
    ensures XE(Sum(a, b)) == Sum(XE(a), XE(b)) && XB(Sum(a, b)) == Sum(XB(a), XB(b))
    ensures XD(Sum(a, b)) == Sum(XD(a), XD(b)) && X9(Sum(a, b)) == Sum(X9(a), X9(b))
  {
    hide X2, X4, X8, Sum, Sum3;
    X2Linear(a, b);
    Powers(a, b);
    Regroup3(X8(a), X8(b), X4(a), X4(b), X2(a), X2(b));
    Regroup3(X8(a), X8(b), X2(a), X2(b), a, b);
    Regroup3(X8(a), X8(b), X4(a), X4(b), a, b);
    Regroup2(X8(a), X8(b), a, b);
  }

  lemma MultiplesOfSum4(a: byte, b: byte, c: byte, d: byte)
    ensures XE(Sum4(a, b, c, d)) == Sum4(XE(a), XE(b), XE(c), XE(d))
    ensures XB(Sum4(a, b, c, d)) == Sum4(XB(a), XB(b), XB(c), XB(d))
    ensures XD(Sum4(a, b, c, d)) == Sum4(XD(a), XD(b), XD(c), XD(d))
    ensures X9(Sum4(a, b, c, d)) == Sum4(X9(a), X9(b), X9(c), X9(d))
  {
    hide XE, XB, XD, X9, Sum, Sum4;
    MultiplesLinear(a, b);
    MultiplesLinear(Sum(a, b), c);
    MultiplesLinear(Sum(Sum(a, b), c), d);
    Sum4AsSums(a, b, c, d);
    Sum4AsSums(XE(a), XE(b), XE(c), XE(d));
    Sum4AsSums(XB(a), XB(b), XB(c), XB(d));
    Sum4AsSums(XD(a), XD(b), XD(c), XD(d));
    Sum4AsSums(X9(a), X9(b), X9(c), X9(d));
  }

  // The matrix of InvMixColumns times the matrix of MixColumns is the identity.
  lemma MatrixInverse(a: byte)
    ensures Sum4(XE(X2(a)), XB(a), XD(a), X9(X3(a))) == a
    ensures Sum4(XE(X3(a)), XB(X2(a)), XD(a), X9(a)) == 0
    ensures Sum4(XE(a), XB(X3(a)), XD(X2(a)), X9(a)) == 0
    ensures Sum4(XE(a), XB(a), XD(X3(a)), X9(X2(a))) == 0
  {
    hide *;
    Row0(a);
    Row1(a);
    Row2(a);
    Row3(a);
  }

  lemma Row0(a: byte)
    ensures Sum4(XE(X2(a)), XB(a), XD(a), X9(X3(a))) == a
  {
    hide X2, Sum, Sum3, Sum4;
    MultiplesLinear(X2(a), a);
    Cancel0(a, X2(a), X4(a), X8(a), X2(X8(a)));
  }

  lemma Row1(a: byte)
    ensures Sum4(XE(X3(a)), XB(X2(a)), XD(a), X9(a)) == 0
  {
    hide X2, Sum, Sum3, Sum4;
    MultiplesLinear(X2(a), a);
    Cancel1(a, X2(a), X4(a), X8(a), X2(X8(a)));
  }

  lemma Row2(a: byte)
    ensures Sum4(XE(a), XB(X3(a)), XD(X2(a)), X9(a)) == 0
  {
    hide X2, Sum, Sum3, Sum4;
    MultiplesLinear(X2(a), a);
    Cancel2(a, X2(a), X4(a), X8(a), X2(X8(a)));
  }

  lemma Row3(a: byte)
    ensures Sum4(XE(a), XB(a), XD(X3(a)), X9(X2(a))) == 0
  {
    hide X2, Sum, Sum3, Sum4;
    MultiplesLinear(X2(a), a);
    Cancel3(a, X2(a), X4(a), X8(a), X2(X8(a)));
  }

  // The same sums with a, 2a, 4a, 8a, 16a as unknowns: every unknown but one cancels.
  lemma Cancel0(a: byte, b: byte, c: byte, d: byte, e: byte)
    ensures Sum4(Sum3(e, d, c), Sum3(d, b, a), Sum3(d, c, a), Sum(Sum(e, b), Sum(d, a))) == a
  {
  }

  lemma Cancel1(a: byte, b: byte, c: byte, d: byte, e: byte)
    ensures Sum4(Sum(Sum3(e, d, c), Sum3(d, c, b)), Sum3(e, c, b), Sum3(d, c, a), Sum(d, a)) == 0
  {
  }

  lemma Cancel2(a: byte, b: byte, c: byte, d: byte, e: byte)
    ensures Sum4(Sum3(d, c, b), Sum(Sum3(e, c, b), Sum3(d, b, a)), Sum3(e, d, b), Sum(d, a)) == 0
  {
  }

  lemma Cancel3(a: byte, b: byte, c: byte, d: byte, e: byte)
    ensures Sum4(Sum3(d, c, b), Sum3(d, b, a), Sum(Sum3(e, d, b), Sum3(d, c, a)), Sum(e, b)) == 0
  {
  }

  // One octet of InvMixColumns after MixColumns.
  lemma InvMixMix(a: byte, b: byte, c: byte, d: byte)
    ensures InvMix(Mix(a, b, c, d), Mix(b, c, d, a), Mix(c, d, a, b), Mix(d, a, b, c)) == a
  {
    hide X2, X3, X9, XB, XD, XE, Sum, Sum4;
    MultiplesOfSum4(X2(a), X3(b), c, d);
    MultiplesOfSum4(X2(b), X3(c), d, a);
    MultiplesOfSum4(X2(c), X3(d), a, b);
    MultiplesOfSum4(X2(d), X3(a), b, c);
    Rotate4(XB(X2(b)), XB(X3(c)), XB(d), XB(a));
    Rotate4(XD(X2(c)), XD(X3(d)), XD(a), XD(b));
    Rotate4(X9(X2(d)), X9(X3(a)), X9(b), X9(c));
    Transpose4(XE(X2(a)), XE(X3(b)), XE(c), XE(d), XB(a), XB(X2(b)), XB(X3(c)), XB(d),
               XD(a), XD(b), XD(X2(c)), XD(X3(d)), X9(X3(a)), X9(b), X9(c), X9(X2(d)));
    MatrixInverse(a);
    MatrixInverse(b);
    MatrixInverse(c);
    MatrixInverse(d);
    Sum4WithZeros(a);
  }

  lemma Rotate4(a: byte, b: byte, c: byte, d: byte)
    ensures Sum4(a, b, c, d) == Sum4(d, a, b, c) && Sum4(a, b, c, d) == Sum4(c, d, a, b)
    ensures Sum4(a, b, c, d) == Sum4(b, c, d, a)
  {
    hide Sum, Sum4;
    Sum4Halves(a, b, c, d);
    Sum4Halves(b, c, d, a);
    Sum4Halves(c, d, a, b);
    Sum4Halves(d, a, b, c);
    SumLaws(a, b);
    SumLaws(a, d);
    SumLaws(Sum(a, b), Sum(c, d));
    SumLaws(Sum(b, c), Sum(d, a));
    Regroup2(b, a, c, d);
  }

  lemma Sum4WithZeros(a: byte)
    ensures Sum4(a, 0, 0, 0) == a
  {
  }

  // ---------------------------------------------------------------- layers of a round

  lemma MixColInverse(c: Col)
    ensures InvMixCol(MixCol(c)) == c
  {
    hide Mix, InvMix;
    InvMixMix(c.r0, c.r1, c.r2, c.r3);
    InvMixMix(c.r1, c.r2, c.r3, c.r0);
    InvMixMix(c.r2, c.r3, c.r0, c.r1);
    InvMixMix(c.r3, c.r0, c.r1, c.r2);
  }

  lemma InvMixLinear(a: byte, b: byte, c: byte, d: byte, e: byte, f: byte, g: byte, h: byte)
    ensures InvMix(Sum(a, e), Sum(b, f), Sum(c, g), Sum(d, h)) == Sum(InvMix(a, b, c, d), InvMix(e, f, g, h))
  {
    hide XE, XB, XD, X9, Sum, Sum4;
    MultiplesLinear(a, e);
    MultiplesLinear(b, f);
    MultiplesLinear(c, g);
    MultiplesLinear(d, h);
    Regroup4(XE(a), XE(e), XB(b), XB(f), XD(c), XD(g), X9(d), X9(h));
  }

  lemma InvMixColLinear(c: Col, k: Col)
    ensures InvMixCol(AddCol(c, k)) == AddCol(InvMixCol(c), InvMixCol(k))
  {
    hide InvMix, Sum;
    InvMixLinear(c.r0, c.r1, c.r2, c.r3, k.r0, k.r1, k.r2, k.r3);
    InvMixLinear(c.r1, c.r2, c.r3, c.r0, k.r1, k.r2, k.r3, k.r0);
    InvMixLinear(c.r2, c.r3, c.r0, c.r1, k.r2, k.r3, k.r0, k.r1);
    InvMixLinear(c.r3, c.r0, c.r1, c.r2, k.r3, k.r0, k.r1, k.r2);
  }

  lemma AddColTwice(c: Col, k: Col)
    ensures AddCol(AddCol(c, k), k) == c
  {
    hide Sum;
    SumLaws(c.r0, k.r0);
    SumLaws(c.r1, k.r1);
    SumLaws(c.r2, k.r2);
    SumLaws(c.r3, k.r3);
  }

  lemma SubColInverse(c: Col)
    ensures InvSubCol(SubCol(c)) == c
  {
    hide Sbox, InvSbox;
    SboxInverse(c.r0);
    SboxInverse(c.r1);
    SboxInverse(c.r2);
    SboxInverse(c.r3);
  }

  lemma LayersInvert(s: State, k: State)
    ensures InvSubBytes(SubBytes(s)) == s && InvShiftRows(ShiftRows(s)) == s
    ensures InvMixColumns(MixColumns(s)) == s && AddRoundKey(AddRoundKey(s, k), k) == s
  {
    hide SubCol, InvSubCol, MixCol, InvMixCol, AddCol;
    SubColInverse(s.c0);
    SubColInverse(s.c1);
    SubColInverse(s.c2);
    SubColInverse(s.c3);
    MixColInverse(s.c0);
    MixColInverse(s.c1);
    MixColInverse(s.c2);
    MixColInverse(s.c3);
    AddColTwice(s.c0, k.c0);
    AddColTwice(s.c1, k.c1);
    AddColTwice(s.c2, k.c2);
    AddColTwice(s.c3, k.c3);
  }

  // The two facts that turn the inverse cipher into the shape of encryption.
  lemma LayersCommute(s: State, k: State)
    ensures InvShiftRows(InvSubBytes(s)) == InvSubBytes(InvShiftRows(s))
    ensures InvMixColumns(AddRoundKey(s, k)) == AddRoundKey(InvMixColumns(s), InvMixColumns(k))
  {
    hide InvMixCol, AddCol, InvSbox;
    InvMixColLinear(s.c0, k.c0);
    InvMixColLinear(s.c1, k.c1);
    InvMixColLinear(s.c2, k.c2);
    InvMixColLinear(s.c3, k.c3);
  }

  // ---------------------------------------------------------------- the inverse ciphers

  lemma {:induction false} InvRoundsUndo(ks: seq<State>, i: nat, s: State)
    requires i < |ks|
    ensures InvRounds(ks, i, ShiftRows(SubBytes(Rounds(ks, i, s)))) == s
  {
    hide SubBytes, ShiftRows, MixColumns, AddRoundKey, InvSubBytes, InvShiftRows, InvMixColumns;
    var r := Rounds(ks, i, s);
    LayersInvert(r, r);
    LayersInvert(SubBytes(r), r);
    if i == 0 {
      LayersInvert(s, ks[0]);
    } else {
      var t := ShiftRows(SubBytes(Rounds(ks, i - 1, s)));
      LayersInvert(MixColumns(t), ks[i]);
      LayersInvert(t, ks[i]);
      InvRoundsUndo(ks, i - 1, s);
    }
  }

  // The straightforward inverse undoes the cipher, for all round keys.
  lemma InvCipherUndoesCipher(ks: seq<State>, s: State)
    requires |ks| >= 2
    ensures InvCipher(ks, Encipher(ks, s)) == s
  {
    hide SubBytes, ShiftRows, AddRoundKey, Rounds, InvRounds;
    InvRoundsUndo(ks, |ks| - 2, s);
    LayersInvert(ShiftRows(SubBytes(Rounds(ks, |ks| - 2, s))), ks[|ks| - 1]);
  }

  lemma {:induction false} EqRoundsAre(ks: seq<State>, i: nat, s: State)
    requires i < |ks| - 1
    ensures EqRounds(DecryptionKeys(ks), i, s) == InvRounds(ks, i, s)
  {
    hide AddRoundKey, InvSubBytes, InvShiftRows, InvMixColumns;
    var t := InvSubBytes(InvShiftRows(s));
    LayersCommute(s, s);
    if i > 0 {
      LayersCommute(t, ks[i]);
      EqRoundsAre(ks, i - 1, InvMixColumns(AddRoundKey(t, ks[i])));
    }
  }

  // Section 5.3.5: with transformed round keys the forward-shaped rounds are the inverse cipher.
  lemma EquivalentInverse(ks: seq<State>, s: State)
    requires |ks| >= 2
    ensures EqInvCipher(DecryptionKeys(ks), s) == InvCipher(ks, s)
  {
    hide AddRoundKey, EqRounds, InvRounds, InvMixColumns;
    EqRoundsAre(ks, |ks| - 2, AddRoundKey(s, ks[|ks| - 1]));
  }
}
