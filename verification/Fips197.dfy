/**
 * AES once more, octet by octet as FIPS 197 writes it: a state is sixteen octets, row r and
 * column c at place r + 4 c, and the expanded key is one sequence of octets.
 */
module Fips197 {
  import opened Blocks
  import opened AesTables
  import A = Aes
  import R = AesRounds

  predicate KeyLength(n: nat) { n == 16 || n == 24 || n == 32 }

  // Figure 4 of FIPS 197: the number of rounds
  function RoundCount(n: nat): nat
    requires KeyLength(n)
  {
    if n == 16 then 10 else if n == 24 then 12 else 14
  }

  // Sections 5.1.1 to 5.1.4
  function SubBytes(s: seq<byte>): (t: seq<byte>)
    requires |s| == 16
    ensures |t| == 16
  {
    seq(16, i requires 0 <= i < 16 => Sbox(s[i]))
  }

  function ShiftRows(s: seq<byte>): (t: seq<byte>)
    requires |s| == 16
    ensures |t| == 16
  {
    seq(16, i requires 0 <= i < 16 => s[i % 4 + 4 * ((i / 4 + i % 4) % 4)])
  }

  // Row i of column c
  function At(s: seq<byte>, c: nat, i: nat): byte
    requires |s| == 16 && c < 4
  {
    s[i % 4 + 4 * c]
  }

  function MixColumns(s: seq<byte>): (t: seq<byte>)
    requires |s| == 16
    ensures |t| == 16
  {
    seq(16, i requires 0 <= i < 16 =>
      Sum(Sum(Sum(X2(At(s, i / 4, i)), X3(At(s, i / 4, i + 1))), At(s, i / 4, i + 2)), At(s, i / 4, i + 3)))
  }

  // Section 5.2: octet j of the expanded key. Every fourth octet starts a word.
  function KeyOctet(key: seq<byte>, j: nat): byte
    requires KeyLength(|key|)
  {
    if j < |key| then key[j]
    else
      var i, nk, b := j / 4, |key| / 4, j % 4;
      var temp :=
        if i % nk == 0 then Sum(Sbox(KeyOctet(key, 4 * i - 4 + (b + 1) % 4)), if b == 0 then PowerOfX(i / nk - 1) else 0)
        else if nk > 6 && i % nk == 4 then Sbox(KeyOctet(key, j - 4))
        else KeyOctet(key, j - 4);
      Sum(KeyOctet(key, j - |key|), temp)
  }

  // x^k in GF(2^8)
  function PowerOfX(k: nat): byte { if k == 0 then 0x01 else X2(PowerOfX(k - 1)) }

  function RoundKey(key: seq<byte>, round: nat): (k: seq<byte>)
    requires KeyLength(|key|)
    ensures |k| == 16
  {
    seq(16, i requires 0 <= i < 16 => KeyOctet(key, 16 * round + i))
  }

  // Figure 5: the cipher. State after the given number of full rounds
  function Rounds(key: seq<byte>, n: nat, s: seq<byte>): (t: seq<byte>)
    requires KeyLength(|key|) && |s| == 16
    ensures |t| == 16
  {
    if n == 0 then Xor(s, RoundKey(key, 0))
    else Xor(MixColumns(ShiftRows(SubBytes(Rounds(key, n - 1, s)))), RoundKey(key, n))
  }

  function Cipher(key: seq<byte>, b: seq<byte>): (c: seq<byte>)
    requires KeyLength(|key|) && |b| == 16
    ensures |c| == 16
  {
    var nr := RoundCount(|key|);
    Xor(ShiftRows(SubBytes(Rounds(key, nr - 1, b))), RoundKey(key, nr))
  }

  // ---------------------------------------------------------------- the transformations on columns

  function Column(s: R.State, c: nat): R.Col { if c == 0 then s.c0 else if c == 1 then s.c1 else if c == 2 then s.c2 else s.c3 }

  function Cell(k: R.Col, r: nat): byte { if r == 0 then k.r0 else if r == 1 then k.r1 else if r == 2 then k.r2 else k.r3 }

  lemma BlockCell(s: R.State, r: nat, c: nat)
    requires r < 4 && c < 4
    ensures A.StateBlock(s)[r + 4 * c] == Cell(Column(s, c), r)
  {
    if c == 0 {
    } else if c == 1 {
    } else if c == 2 {
    } else {
    }
  }

  lemma Places(i: nat)
    requires i < 16
    ensures i == i % 4 + 4 * (i / 4) && i % 4 < 4 && i / 4 < 4
  {
  }

  // Two blocks are equal when their cells are.
  lemma SameCells(s: R.State, b: seq<byte>)
    requires |b| == 16 && forall r: nat, c: nat | r < 4 && c < 4 :: b[r + 4 * c] == Cell(Column(s, c), r)
    ensures A.StateBlock(s) == b
  {
    hide A.StateBlock, Cell, Column;
    forall i | 0 <= i < 16 ensures A.StateBlock(s)[i] == b[i] {
      Places(i);
      BlockCell(s, i % 4, i / 4);
      assert b[i % 4 + 4 * (i / 4)] == Cell(Column(s, i / 4), i % 4);
    }
  }

  lemma SubBytesIs(s: R.State)
    ensures A.StateBlock(R.SubBytes(s)) == SubBytes(A.StateBlock(s))
  {
    hide A.StateBlock, Cell, Column, Sbox, R.SubBytes;
    var b := A.StateBlock(s);
    forall r: nat, c: nat | r < 4 && c < 4
      ensures SubBytes(b)[r + 4 * c] == Cell(Column(R.SubBytes(s), c), r)
    {
      PlaceOf(r, c);
      BlockCell(s, r, c);
      SubstitutedCell(s, r, c);
    }
    SameCells(R.SubBytes(s), SubBytes(b));
  }

  lemma SubstitutedCell(s: R.State, r: nat, c: nat)
    requires r < 4 && c < 4
    ensures Cell(Column(R.SubBytes(s), c), r) == Sbox(Cell(Column(s, c), r))
  {
    hide Sbox;
  }

  lemma ShiftedCell(s: R.State, r: nat, c: nat)
    requires r < 4 && c < 4
    ensures Cell(Column(R.ShiftRows(s), c), r) == Cell(Column(s, (c + r) % 4), r)
  {
  }

  lemma PlaceOf(r: nat, c: nat)
    requires r < 4 && c < 4
    ensures (r + 4 * c) % 4 == r && (r + 4 * c) / 4 == c && r + 4 * c < 16
  {
  }

  lemma ShiftRowsIs(s: R.State)
    ensures A.StateBlock(R.ShiftRows(s)) == ShiftRows(A.StateBlock(s))
  {
    hide A.StateBlock, Cell, Column, R.ShiftRows;
    var b := A.StateBlock(s);
    forall r: nat, c: nat | r < 4 && c < 4
      ensures ShiftRows(b)[r + 4 * c] == Cell(Column(R.ShiftRows(s), c), r)
    {
      PlaceOf(r, c);
      ShiftedCell(s, r, c);
      BlockCell(s, r, (c + r) % 4);
    }
    SameCells(R.ShiftRows(s), ShiftRows(b));
  }

  lemma MixIs(a: byte, b: byte, c: byte, d: byte)
    ensures R.Mix(a, b, c, d) == Sum(Sum(Sum(X2(a), X3(b)), c), d)
  {
    hide X2, X3, Sum, R.Sum4;
    R.Sum4AsSums(X2(a), X3(b), c, d);
  }

  lemma MixedCell(k: R.Col, r: nat)
    requires r < 4
    ensures Cell(R.MixCol(k), r)
      == Sum(Sum(Sum(X2(Cell(k, r)), X3(Cell(k, (r + 1) % 4))), Cell(k, (r + 2) % 4)), Cell(k, (r + 3) % 4))
  {
    hide X2, X3, Sum, R.Mix;
    MixIs(Cell(k, r), Cell(k, (r + 1) % 4), Cell(k, (r + 2) % 4), Cell(k, (r + 3) % 4));
    if r == 0 {
    } else if r == 1 {
    } else if r == 2 {
    } else {
    }
  }

  lemma MixColumnsIs(s: R.State)
    ensures A.StateBlock(R.MixColumns(s)) == MixColumns(A.StateBlock(s))
  {
    hide A.StateBlock, Cell, Column, R.MixColumns, MixColumns;
    var b := A.StateBlock(s);
    forall r: nat, c: nat | r < 4 && c < 4
      ensures MixColumns(b)[r + 4 * c] == Cell(Column(R.MixColumns(s), c), r)
    {
      MixedPlace(s, r, c);
    }
    SameCells(R.MixColumns(s), MixColumns(b));
  }

  lemma MixedPlace(s: R.State, r: nat, c: nat)
    requires r < 4 && c < 4
    ensures MixColumns(A.StateBlock(s))[r + 4 * c] == Cell(Column(R.MixColumns(s), c), r)
  {
    hide A.StateBlock, Cell, X2, X3, Sum, R.MixCol, At;
    PlaceOf(r, c);
    MixedCell(Column(s, c), r);
    CellOf(s, c, r, 0);
    CellOf(s, c, r, 1);
    CellOf(s, c, r, 2);
    CellOf(s, c, r, 3);
  }

  lemma CellOf(s: R.State, c: nat, r: nat, k: nat)
    requires c < 4 && r < 4
    ensures At(A.StateBlock(s), c, r + 4 * c + k) == Cell(Column(s, c), (r + k) % 4)
  {
    hide A.StateBlock, Cell, Column;
    assert (r + 4 * c + k) % 4 == (r + k) % 4;
    BlockCell(s, (r + k) % 4, c);
  }

  lemma AddRoundKeyIs(s: R.State, k: R.State)
    ensures A.StateBlock(R.AddRoundKey(s, k)) == Xor(A.StateBlock(s), A.StateBlock(k))
  {
    hide A.StateBlock, Xor, R.AddRoundKey, Cell, Column;
    var a, b := A.StateBlock(s), A.StateBlock(k);
    forall r: nat, c: nat | r < 4 && c < 4
      ensures Xor(a, b)[r + 4 * c] == Cell(Column(R.AddRoundKey(s, k), c), r)
    {
      PlaceOf(r, c);
      XorAt(a, b, r + 4 * c);
      BlockCell(s, r, c);
      BlockCell(k, r, c);
      AddedCell(s, k, r, c);
    }
    SameCells(R.AddRoundKey(s, k), Xor(a, b));
  }

  lemma AddedCell(s: R.State, k: R.State, r: nat, c: nat)
    requires r < 4 && c < 4
    ensures Cell(Column(R.AddRoundKey(s, k), c), r) == Sum(Cell(Column(s, c), r), Cell(Column(k, c), r))
  {
    hide Sum;
  }

  // ---------------------------------------------------------------- the expanded key

  lemma {:induction false} PowersAgree(k: nat)
    ensures PowerOfX(k) == A.XPower(k)
  {
    if k > 0 {
      PowersAgree(k - 1);
    }
  }

  function KeyCol(key: seq<byte>, i: nat): R.Col
    requires KeyLength(|key|)
  {
    R.Col(KeyOctet(key, 4 * i), KeyOctet(key, 4 * i + 1), KeyOctet(key, 4 * i + 2), KeyOctet(key, 4 * i + 3))
  }

  // Word i of the expanded key holds its octets.
  lemma {:induction false} KeyWordIs(key: seq<byte>, i: nat)
    requires KeyLength(|key|) && i < 4 * (RoundCount(|key|) + 1)
    ensures A.ColOf(A.KeyWord(key, i)) == KeyCol(key, i)
  {
    hide A.KeyWord, A.ColOf, A.Schedule, A.Load, KeyOctet;
    var nk := |key| / 4;
    A.KeyWordIs(key, i);
    if i < nk {
      FirstWords(key, i);
    } else {
      KeyWordIs(key, i - 1);
      KeyWordIs(key, i - nk);
      ScheduleIs(A.KeyWord(key, i - 1), i, nk);
      A.ColOfAdd(A.Schedule(A.KeyWord(key, i - 1), i, nk), A.KeyWord(key, i - nk));
      NextWord(key, i);
    }
  }

  lemma FirstWords(key: seq<byte>, i: nat)
    requires KeyLength(|key|) && i < |key| / 4
    ensures A.ColOf(A.Load(key, 4 * i)) == KeyCol(key, i)
  {
    hide A.ColOf, Pack;
    A.WordRoundTrip(KeyCol(key, i), 0);
  }

  // The column added to column i - nk
  function ScheduleCol(temp: R.Col, i: nat, nk: nat): R.Col
    requires nk > 0
  {
    if i % nk == 0 then
      R.Col(Sum(Sbox(temp.r1), PowerOfX(if i < nk then 0 else i / nk - 1)), Sbox(temp.r2), Sbox(temp.r3), Sbox(temp.r0))
    else if nk > 6 && i % nk == 4 then R.SubCol(temp)
    else temp
  }

  lemma ScheduleIs(temp: bv32, i: nat, nk: nat)
    requires (nk == 4 || nk == 6 || nk == 8) && nk <= i && i / nk <= 10
    ensures A.ColOf(A.Schedule(temp, i, nk)) == ScheduleCol(A.ColOf(temp), i, nk)
  {
    hide A.ColOf, Pack, Sbox, A.Add, A.Rcon, PowerOfX, A.XPower, Sum;
    if i % nk == 0 {
      var k, c := i / nk, R.SubCol(A.RotCol(A.ColOf(temp)));
      A.RconIsPower(k);
      PowersAgree(k - 1);
      var p := R.Col(PowerOfX(k - 1), 0, 0, 0);
      A.WordRoundTrip(c, 0);
      A.WordRoundTrip(p, 0);
      A.ColOfAdd(A.WordOf(c), A.Rcon(k));
      NoChange(c.r1);
      NoChange(c.r2);
      NoChange(c.r3);
    } else {
      A.WordRoundTrip(R.SubCol(A.ColOf(temp)), 0);
    }
  }

  lemma NoChange(x: byte)
    ensures Sum(x, 0) == x
  {
  }

  lemma NextWord(key: seq<byte>, i: nat)
    requires KeyLength(|key|) && |key| / 4 <= i
    ensures KeyCol(key, i) == R.AddCol(ScheduleCol(KeyCol(key, i - 1), i, |key| / 4), KeyCol(key, i - |key| / 4))
  {
    hide KeyOctet, PowerOfX, Sbox, Sum;
    NextOctet(key, i, 0);
    NextOctet(key, i, 1);
    NextOctet(key, i, 2);
    NextOctet(key, i, 3);
  }

  lemma NextOctet(key: seq<byte>, i: nat, b: nat)
    requires KeyLength(|key|) && |key| / 4 <= i && b < 4
    ensures KeyOctet(key, 4 * i + b)
      == Sum(Cell(ScheduleCol(KeyCol(key, i - 1), i, |key| / 4), b), KeyOctet(key, 4 * (i - |key| / 4) + b))
  {
    hide PowerOfX, Sbox, Sum, KeyOctet;
    OctetUnfold(key, i, b);
    var nk := |key| / 4;
    assert i / nk >= 1;
    NoChange(Sbox(KeyOctet(key, 4 * i - 4 + (b + 1) % 4)));
    SumCommutes(KeyOctet(key, 4 * (i - nk) + b), Cell(ScheduleCol(KeyCol(key, i - 1), i, nk), b));
    if b == 0 {
    } else if b == 1 {
    } else if b == 2 {
    } else {
    }
  }

  lemma OctetUnfold(key: seq<byte>, i: nat, b: nat)
    requires KeyLength(|key|) && |key| / 4 <= i && b < 4
    ensures
      var nk := |key| / 4;
      KeyOctet(key, 4 * i + b) == Sum(KeyOctet(key, 4 * (i - nk) + b),
        if i % nk == 0 then Sum(Sbox(KeyOctet(key, 4 * i - 4 + (b + 1) % 4)), if b == 0 then PowerOfX(i / nk - 1) else 0)
        else if nk > 6 && i % nk == 4 then Sbox(KeyOctet(key, 4 * (i - 1) + b))
        else KeyOctet(key, 4 * (i - 1) + b))
  {
    hide PowerOfX, Sbox, Sum;
    assert (4 * i + b) / 4 == i && (4 * i + b) % 4 == b;
    assert 4 * i + b - |key| == 4 * (i - |key| / 4) + b && 4 * i + b - 4 == 4 * (i - 1) + b;
  }

  lemma SumCommutes(a: byte, b: byte)
    ensures Sum(a, b) == Sum(b, a)
  {
  }

  // ---------------------------------------------------------------- the cipher

  // The round keys of aesInit stand for the expanded key.
  ghost predicate Expands(key: seq<byte>, ks: seq<R.State>) {
    && KeyLength(|key|) && |ks| == RoundCount(|key|) + 1
    && forall i | 0 <= i < |ks| :: A.StateBlock(ks[i]) == RoundKey(key, i)
  }

  lemma RoundKeyIs(key: seq<byte>, w: seq<bv32>, i: nat)
    requires KeyLength(|key|) && 4 * i + 4 <= |w| && i <= RoundCount(|key|)
    requires forall j | 4 * i <= j < 4 * i + 4 :: w[j] == A.KeyWord(key, j)
    ensures A.StateBlock(A.RoundKey(w, i)) == RoundKey(key, i)
  {
    hide A.KeyWord, A.RoundKey, A.StateBlock, KeyCol, RoundKey, RoundCount, Cell, Column;
    forall r: nat, c: nat | r < 4 && c < 4
      ensures RoundKey(key, i)[r + 4 * c] == Cell(Column(A.RoundKey(w, i), c), r)
    {
      ColumnOfKey(key, w, i, c);
      KeyCell(key, i, r, c);
    }
    SameCells(A.RoundKey(w, i), RoundKey(key, i));
  }

  lemma ColumnOfKey(key: seq<byte>, w: seq<bv32>, i: nat, c: nat)
    requires KeyLength(|key|) && 4 * i + 4 <= |w| && i <= RoundCount(|key|) && c < 4
    requires forall j | 4 * i <= j < 4 * i + 4 :: w[j] == A.KeyWord(key, j)
    ensures Column(A.RoundKey(w, i), c) == KeyCol(key, 4 * i + c)
  {
    hide A.KeyWord, A.ColOf, KeyCol;
    KeyWordIs(key, 4 * i + c);
    assert w[4 * i + c] == A.KeyWord(key, 4 * i + c);
  }

  lemma KeyCell(key: seq<byte>, i: nat, r: nat, c: nat)
    requires KeyLength(|key|) && r < 4 && c < 4
    ensures RoundKey(key, i)[r + 4 * c] == Cell(KeyCol(key, 4 * i + c), r)
  {
    hide KeyOctet;
    PlaceOf(r, c);
    assert 16 * i + (r + 4 * c) == 4 * (4 * i + c) + r;
  }

  lemma {:induction false} RoundsAre(key: seq<byte>, ks: seq<R.State>, n: nat, s: R.State)
    requires Expands(key, ks) && n < |ks|
    ensures A.StateBlock(R.Rounds(ks, n, s)) == Rounds(key, n, A.StateBlock(s))
  {
    hide A.StateBlock, R.SubBytes, R.ShiftRows, R.MixColumns, R.AddRoundKey, Xor, SubBytes, ShiftRows, MixColumns,
      RoundKey;
    if n == 0 {
      AddRoundKeyIs(s, ks[0]);
    } else {
      RoundsAre(key, ks, n - 1, s);
      var t := R.Rounds(ks, n - 1, s);
      SubBytesIs(t);
      ShiftRowsIs(R.SubBytes(t));
      MixColumnsIs(R.ShiftRows(R.SubBytes(t)));
      AddRoundKeyIs(R.MixColumns(R.ShiftRows(R.SubBytes(t))), ks[n]);
    }
  }

  lemma CipherIs(key: seq<byte>, ks: seq<R.State>, s: R.State)
    requires Expands(key, ks)
    ensures A.StateBlock(R.Encipher(ks, s)) == Cipher(key, A.StateBlock(s))
  {
    hide A.StateBlock, R.SubBytes, R.ShiftRows, R.AddRoundKey, Xor, SubBytes, ShiftRows, RoundKey, R.Rounds, Rounds;
    var n := |ks| - 2;
    RoundsAre(key, ks, n, s);
    var t := R.Rounds(ks, n, s);
    SubBytesIs(t);
    ShiftRowsIs(R.SubBytes(t));
    AddRoundKeyIs(R.ShiftRows(R.SubBytes(t)), ks[n + 1]);
  }

  // aesInit followed by aesEncryptBlock computes the cipher of FIPS 197, for all three key
  // lengths and every block ...
  method Encrypt(key: array<byte>, block: array<byte>) returns (c: array<byte>)
    requires KeyLength(key.Length) && block.Length == 16
    ensures fresh(c) && c[..] == Cipher(key[..], block[..])
  {
    hide A.StateBlock, A.BlockState, R.Encipher, Cipher, A.RoundKeys, A.KeyWord, Expands;
    var context := new A.AesContext();
    var error := A.AesInit(context, key);
    c := new byte[16];
    A.AesEncryptBlock(context, block, c);
    Expanded(key[..], context.ek[..], context.nr);
    A.BlockStateInjective(block[..]);
    CipherIs(key[..], A.RoundKeys(context.ek[..], context.nr), A.BlockState(block[..]));
  }

  // ... and aesDecryptBlock finds the block that it maps to the given one.
  method Decrypt(key: array<byte>, block: array<byte>) returns (p: array<byte>)
    requires KeyLength(key.Length) && block.Length == 16
    ensures fresh(p) && p.Length == 16
    ensures forall q: seq<byte> | |q| == 16 && Cipher(key[..], q) == block[..] :: q == p[..]
  {
    hide A.StateBlock, A.BlockState, R.Encipher, R.InvCipher, Cipher, A.RoundKeys, A.KeyWord, Expands;
    var context := new A.AesContext();
    var error := A.AesInit(context, key);
    p := new byte[16];
    A.AesDecryptBlock(context, block, p);
    ghost var ks := A.RoundKeys(context.ek[..], context.nr);
    Expanded(key[..], context.ek[..], context.nr);
    forall q: seq<byte> | |q| == 16 && Cipher(key[..], q) == block[..] ensures q == p[..] {
      A.AesInverse(ks, q);
      CipherIs(key[..], ks, A.BlockState(q));
      A.BlockStateInjective(q);
    }
  }

  lemma Expanded(key: seq<byte>, ek: seq<bv32>, nr: nat)
    requires KeyLength(|key|) && nr == |key| / 4 + 6 && |ek| == 60
    requires forall i | 0 <= i < 4 * (nr + 1) :: ek[i] == A.KeyWord(key, i)
    ensures Expands(key, A.RoundKeys(ek, nr))
  {
    hide A.KeyWord, A.RoundKey, A.StateBlock, RoundKey;
    assert nr == RoundCount(|key|);
    forall i | 0 <= i < nr + 1 ensures A.StateBlock(A.RoundKeys(ek, nr)[i]) == RoundKey(key, i) {
      RoundKeyIs(key, ek, i);
    }
  }
}
