/**
 * Scalar multiplication (ecMult), over any abelian group.
 *
 * Points are group elements here; the arithmetic of their coordinates, and the reason the
 * in-place sum below differs from the group sum, are in EcPoint.dfy.
 */
module EcMult {
  import opened Groups

  function Pow2(n: nat): (p: nat)
    ensures p > 0
  {
    if n == 0 then 1 else 2 * Pow2(n - 1)
  }

  // mpiGetBitValue: a bit outside the number reads as 0.
  function Bit(d: nat, i: int): (b: nat)
    ensures b < 2
  {
    if i < 0 then 0 else d / Pow2(i) % 2
  }

  // mpiGetBitLength
  function BitLength(d: nat): nat {
    if d == 0 then 0 else 1 + BitLength(d / 2)
  }

  // ecFullAdd(params, r, r, t): the sum as computed when the result object is also the
  // first operand (EcPoint.FullAddValue with aliased true is the same table on coordinates).
  function AddOnto<G(==)>(g: Group<G>, r: G, t: G): G {
    if r == g.zero then t
    else if t == g.zero then r
    else if r == t then g.zero
    else g.add(r, t)
  }

  // The sum with the result stored over the first operand, or in a third object.
  function Sum<G(==)>(g: Group<G>, aliased: bool, r: G, t: G): G {
    if aliased then AddOnto(g, r, t) else g.add(r, t)
  }

  // ecFullSub
  function Difference<G(==)>(g: Group<G>, aliased: bool, r: G, t: G): G {
    Sum(g, aliased, r, g.neg(t))
  }

  // One pass of the loop body of ecMult, at bit index i.
  function Step<G(==)>(g: Group<G>, aliased: bool, d: nat, i: nat, s: G, r: G): G {
    var r2 := g.add(r, r);
    if Bit(3 * d, i) == 1 && Bit(d, i) == 0 then Sum(g, aliased, r2, s)
    else if Bit(3 * d, i) == 0 && Bit(d, i) == 1 then Difference(g, aliased, r2, s)
    else r2
  }

  // The passes i, i - 1, ..., 1.
  function Steps<G(==)>(g: Group<G>, aliased: bool, d: nat, i: nat, s: G, r: G): G {
    if i == 0 then r else Steps(g, aliased, d, i - 1, s, Step(g, aliased, d, i, s, r))
  }

  function MultValue<G(==)>(g: Group<G>, aliased: bool, d: nat, s: G): G {
    if d == 0 then g.zero
    else if d == 1 then s
    else if s == g.zero then g.zero
    else Steps(g, aliased, d, Abs(BitLength(3 * d) - 2), s, s)
  }

  function Abs(n: int): nat { if n < 0 then -n else n }

  // The loop body: double, then add or subtract where the bits of h = 3d and d differ.
  method Pass<G(==)>(g: Group<G>, d: nat, h: nat, i: nat, s: G, r0: G) returns (r: G)
    requires h == 3 * d
    ensures r == Step(g, true, d, i, s, r0)
  {
    r := g.add(r0, r0);
    if Bit(h, i) != 0 && Bit(d, i) == 0 {
      r := AddOnto(g, r, s);
    } else if Bit(h, i) == 0 && Bit(d, i) != 0 {
      r := AddOnto(g, r, g.neg(s));
    }
  }

  method EcMult<G(==)>(g: Group<G>, d: nat, s: G) returns (r: G)
    ensures r == MultValue(g, true, d, s)
  {
    if d == 0 {
      r := g.zero;
    } else if d == 1 {
      r := s;
    } else if s == g.zero {
      r := g.zero;
    } else {
      hide Step, Bit, Pow2;
      r := s;
      var h := d + d;
      h := h + d;
      LengthAtLeast(h);
      var i := BitLength(h) - 2;
      while i >= 1
        invariant 0 <= i
        invariant Steps(g, true, d, i, s, r) == MultValue(g, true, d, s)
      {
        r := Pass(g, d, h, i, s, r);
        i := i - 1;
      }
    }
  }

  lemma LengthAtLeast(h: nat)
    requires h >= 2
    ensures BitLength(h) >= 2
  {
  }

  // ---------------------------------------------------------------- the recoding of d

  // The scalar accumulated before bit j - 1 is processed.
  function Acc(d: nat, j: nat): int {
    3 * d / Pow2(j) - d / Pow2(j)
  }

  lemma HalfShift(d: nat, j: nat)
    ensures d / Pow2(j + 1) == d / Pow2(j) / 2
    ensures d / Pow2(j) == 2 * (d / Pow2(j + 1)) + Bit(d, j)
  {
    hide Pow2, Bit;
    HalfDivision(d, Pow2(j));
    PowStep(j);
    BitIs(d, j, d / Pow2(j));
  }

  lemma HalfDivision(d: nat, p: nat)
    requires p > 0
    ensures d / (2 * p) == d / p / 2
  {
    DivisionParts(d, p);
    HalfQuotient(d, p, d / p, d % p);
  }

  lemma PowStep(j: nat)
    ensures Pow2(j + 1) == 2 * Pow2(j)
  {
  }

  lemma BitIs(d: nat, j: nat, q: nat)
    requires q == d / Pow2(j)
    ensures q == 2 * (q / 2) + Bit(d, j)
  {
    hide Pow2;
  }

  lemma DivisionParts(d: nat, p: nat)
    requires p > 0
    ensures d == d / p * p + d % p && 0 <= d % p < p
  {
  }

  lemma HalfQuotient(d: nat, p: nat, q: nat, m: nat)
    requires p > 0 && d == q * p + m && m < p
    ensures d / (2 * p) == q / 2
  {
    var q2, b := q / 2, q % 2;
    Regrouped(q2, b, p);
    assert b * p == 0 || b * p == p;
    QuotientIs(d, 2 * p, q2, b * p + m);
  }

  lemma Regrouped(a: int, b: int, p: int)
    ensures (2 * a + b) * p == a * (2 * p) + b * p
  {
  }

  lemma QuotientIs(d: int, p: int, q: int, m: int)
    requires p > 0 && d == q * p + m && 0 <= m < p
    ensures d / p == q && d % p == m
  {
    var q', m' := d / p, d % p;
    assert (q - q') * p == m' - m;
    MulAtLeast(q - q', p);
  }

  lemma MulAtLeast(k: int, p: int)
    requires p > 0
    ensures k >= 1 ==> k * p >= p
    ensures k <= -1 ==> k * p <= -p
  {
  }

  // The signed digit at position i.
  function Digit(d: nat, i: nat): int { Bit(3 * d, i) - Bit(d, i) }

  lemma AccStep(d: nat, j: nat)
    ensures Acc(d, j) == 2 * Acc(d, j + 1) + Digit(d, j)
  {
    HalfShift(3 * d, j);
    HalfShift(d, j);
  }

  lemma AccEnd(d: nat)
    ensures Acc(d, 1) == d
    ensures d > 0 ==> 4 * Acc(d, 2) <= 2 * d + 3 && Acc(d, 2) >= 0
  {
    assert Pow2(1) == 2 && Pow2(2) == 4;
  }

  // Before the last pass the accumulated scalar is at most about d / 4.
  lemma {:induction false} AccSmall(d: nat, j: nat)
    requires j >= 3 && d >= 1
    ensures 0 <= 4 * Acc(d, j) <= d + 3
    decreases j
  {
    if j == 3 {
      assert Pow2(3) == 8 by { assert Pow2(2) == 4; }
    } else {
      AccSmall(d, j - 1);
      AccStep(d, j - 1);
    }
  }

  // The first pass starts from the accumulated scalar 1.
  lemma {:induction false} LeadingBit(h: nat)
    requires h > 0
    ensures h / Pow2(BitLength(h) - 1) == 1
  {
    if h == 1 {
      assert BitLength(1) == 1;
    } else {
      LeadingBit(h / 2);
      var n := BitLength(h / 2) - 1;
      assert Pow2(n + 1) == 2 * Pow2(n);
      DivDiv(h, Pow2(n));
    }
  }

  lemma DivDiv(h: nat, p: nat)
    requires p > 0
    ensures h / (2 * p) == h / 2 / p
  {
    var q, m := h / 2 / p, h / 2 % p;
    assert h == 2 * (q * p + m) + h % 2;
    assert h == q * (2 * p) + (2 * m + h % 2);
    QuotientIs(h, 2 * p, q, 2 * m + h % 2);
  }

  lemma AccStart(d: nat)
    requires d >= 2
    ensures BitLength(3 * d) >= 3
    ensures Acc(d, BitLength(3 * d) - 1) == 1
  {
    var h := 3 * d;
    assert BitLength(h) == 1 + BitLength(h / 2);
    assert BitLength(h / 2) == 1 + BitLength(h / 2 / 2);
    assert BitLength(h / 2 / 2) >= 1;
    LeadingBit(h);
    var p := Pow2(BitLength(h) - 1);
    var m := h % p;
    assert h == p + m;
    assert 3 * d < 2 * p;
    QuotientIs(d, p, 0, d);
  }

  // The signed digits, most significant first, continued from acc.
  function Horner(d: nat, i: nat, acc: int): int {
    if i == 0 then acc else Horner(d, i - 1, 2 * acc + Digit(d, i))
  }

  lemma {:induction false} HornerFrom(d: nat, i: nat)
    ensures Horner(d, i, Acc(d, i + 1)) == Acc(d, 1)
  {
    if i > 0 {
      AccStep(d, i);
      HornerFrom(d, i - 1);
    }
  }

  // The digits bit(3d, i) - bit(d, i), for i from the second bit of 3d down to 1, and
  // started at 1, are a signed binary representation of d.
  lemma RecodingIsExact(d: nat)
    requires d >= 2
    ensures BitLength(3 * d) >= 3
    ensures Horner(d, BitLength(3 * d) - 2, 1) == d
  {
    AccStart(d);
    HornerFrom(d, BitLength(3 * d) - 2);
    AccEnd(d);
  }

  // ---------------------------------------------------------------- the group

  // A pass with digit u on the accumulator a.s adds a point to itself: in place that gives zero.
  ghost predicate Loses<G>(g: Group<G>, a: int, u: int, s: G) {
    u != 0 && Times(g, 2 * a, s) == Times(g, u, s) && Times(g, u, s) != g.zero
  }

  // Pass i does so when no earlier pass did.
  ghost predicate Collision<G>(g: Group<G>, d: nat, i: nat, s: G) {
    Loses(g, Acc(d, i + 1), Digit(d, i), s)
  }

  lemma StepFrom<G(!new)>(g: Group<G>, aliased: bool, d: nat, i: nat, s: G, a: int)
    requires Abelian(g)
    ensures Step(g, aliased, d, i, s, Times(g, a, s))
         == if aliased && Loses(g, a, Digit(d, i), s) then g.zero else Times(g, 2 * a + Digit(d, i), s)
  {
    TimesAdd(g, a, a, s);
    TimesAdd(g, 2 * a, Digit(d, i), s);
    TimesOne(g, s);
    ZeroLeft(g, Times(g, Digit(d, i), s));
    assert UnitAt(g, Times(g, 2 * a, s));
  }

  lemma StepValue<G(!new)>(g: Group<G>, aliased: bool, d: nat, i: nat, s: G)
    requires Abelian(g)
    ensures Step(g, aliased, d, i, s, Times(g, Acc(d, i + 1), s))
         == if aliased && Collision(g, d, i, s) then g.zero else Times(g, Acc(d, i), s)
  {
    StepFrom(g, aliased, d, i, s, Acc(d, i + 1));
    AccStep(d, i);
  }

  lemma {:induction false} StepsValue<G(!new)>(g: Group<G>, aliased: bool, d: nat, i: nat, s: G)
    requires Abelian(g)
    requires aliased ==> forall j | 1 <= j <= i :: !Collision(g, d, j, s)
    ensures Steps(g, aliased, d, i, s, Times(g, Acc(d, i + 1), s)) == Times(g, Acc(d, 1), s)
  {
    if i > 0 {
      StepValue(g, aliased, d, i, s);
      StepsValue(g, aliased, d, i - 1, s);
    }
  }

  lemma {:induction false} TimesZero<G(!new)>(g: Group<G>, k: nat)
    requires Abelian(g)
    ensures Times(g, k, g.zero) == g.zero
  {
    if k > 0 {
      TimesZero(g, k - 1);
      ZeroLeft(g, g.zero);
    }
  }

  // With exact sums the loop computes d.S in any abelian group; with in-place sums it does
  // whenever no pass adds the accumulator to itself.
  lemma MultCorrect<G(!new)>(g: Group<G>, aliased: bool, d: nat, s: G)
    requires Abelian(g)
    requires aliased ==> forall i | 1 <= i <= BitLength(3 * d) - 2 :: !Collision(g, d, i, s)
    ensures MultValue(g, aliased, d, s) == Times(g, d, s)
  {
    hide Acc, Bit, Pow2, BitLength;
    TimesOne(g, s);
    if d < 2 {
    } else if s == g.zero {
      TimesZero(g, d);
    } else {
      var top := BitLength(3 * d) - 2;
      AccStart(d);
      StepsValue(g, aliased, d, top, s);
      AccEnd(d);
    }
  }

  // 2 Acc - digit is the multiple of s that must vanish for pass i to collide.
  lemma Gap(d: nat, i: nat)
    requires 2 <= d && 1 <= i <= BitLength(3 * d) - 2 && Digit(d, i) != 0
    ensures 2 * Acc(d, i + 1) - Digit(d, i) > 0
    ensures i == 1 ==> 2 * Acc(d, i + 1) - Digit(d, i) == d - 2 * Digit(d, i)
    ensures i >= 2 ==> 2 * Acc(d, i + 1) - Digit(d, i) <= d && 2 * (2 * Acc(d, i + 1) - Digit(d, i)) <= d + 5
  {
    hide Acc, Bit, Pow2;
    AccPositive(d, i + 1);
    AccStep(d, i);
    AccEnd(d);
    if i >= 2 {
      AccSmall(d, i + 1);
    }
  }

  lemma LosesOfOrder<G(!new)>(g: Group<G>, a: int, u: int, s: G, n: nat)
    requires Abelian(g) && HasOrder(g, s, n) && s != g.zero && -1 <= u <= 1
    ensures Loses(g, a, u, s) <==> u != 0 && (2 * a - u) % n == 0
  {
    SameMultiple(g, s, n, 2 * a, u);
    TimesOne(g, s);
    if u != 0 && Times(g, u, s) == g.zero {
      NegTimes(g, u, s);
      ZeroLeft(g, g.zero);
      NegUnique(g, g.zero, g.zero);
      assert false;
    }
  }

  lemma CollisionGap<G(!new)>(g: Group<G>, d: nat, i: nat, s: G, n: nat)
    requires Abelian(g) && HasOrder(g, s, n) && s != g.zero
    ensures Collision(g, d, i, s) <==> Digit(d, i) != 0 && (2 * Acc(d, i + 1) - Digit(d, i)) % n == 0
  {
    hide Acc, Bit, Pow2, BitLength, Loses;
    LosesOfOrder(g, Acc(d, i + 1), Digit(d, i), s, n);
  }

  // The scalars around n that are lost.
  predicate Unlucky(d: nat, n: nat) {
    (n % 4 == 1 && d == n - 2) || (n % 4 == 3 && d == n + 2)
  }

  // The scalars below n, and those up to nearly 2n.
  predicate Moderate(d: nat, n: nat) { d < n || d + 5 < 2 * n }

  lemma CollisionOnlyAt<G(!new)>(g: Group<G>, d: nat, i: nat, s: G, n: nat)
    requires Abelian(g) && HasOrder(g, s, n) && s != g.zero
    requires 2 <= d && Moderate(d, n) && 1 <= i <= BitLength(3 * d) - 2
    ensures Collision(g, d, i, s) <==> i == 1 && Unlucky(d, n)
  {
    hide Acc, Bit, Pow2, BitLength;
    CollisionGap(g, d, i, s, n);
    GapMultiple(d, i, n);
  }

  lemma GapMultiple(d: nat, i: nat, n: nat)
    requires 2 <= d && n > 0 && Moderate(d, n) && 1 <= i <= BitLength(3 * d) - 2
    ensures Digit(d, i) != 0 && (2 * Acc(d, i + 1) - Digit(d, i)) % n == 0 <==> i == 1 && Unlucky(d, n)
  {
    hide Acc, Bit, Pow2, Digit, BitLength;
    var u, k := Digit(d, i), 2 * Acc(d, i + 1) - Digit(d, i);
    LowDigit(d);
    if u != 0 {
      Gap(d, i);
      GapDecides(d, i, n, u, k);
    }
  }

  lemma GapDecides(d: nat, i: nat, n: nat, u: int, k: int)
    requires 2 <= d && n > 0 && Moderate(d, n) && i >= 1 && u != 0 && k > 0
    requires i == 1 ==> k == d - 2 * u && u == (if d % 4 == 3 then -1 else if d % 4 == 1 then 1 else 0)
    requires i >= 2 ==> k <= d && 2 * k <= d + 5
    ensures k % n == 0 <==> i == 1 && Unlucky(d, n)
  {
    MultipleBelowTwice(k, n);
    GapIsOrder(d, i, n, u, k);
  }

  lemma GapIsOrder(d: nat, i: nat, n: nat, u: int, k: int)
    requires 2 <= d && Moderate(d, n) && i >= 1 && u != 0
    requires i == 1 ==> k == d - 2 * u && u == (if d % 4 == 3 then -1 else if d % 4 == 1 then 1 else 0)
    requires i >= 2 ==> k <= d && 2 * k <= d + 5
    ensures k == n <==> i == 1 && Unlucky(d, n)
  {
  }

  lemma MultipleBelowTwice(k: int, n: nat)
    requires 0 < n && 0 < k < 2 * n
    ensures k % n == 0 <==> k == n
  {
    assert k == n * (k / n) + k % n;
    MulAtLeast(k / n - 2, n);
  }

  lemma LowDigit(d: nat)
    ensures Digit(d, 1) == if d % 4 == 3 then -1 else if d % 4 == 1 then 1 else 0
  {
    assert Pow2(1) == 2;
  }

  lemma {:induction false} AccPositive(d: nat, j: nat)
    requires d >= 2 && 1 <= j <= BitLength(3 * d) - 1
    ensures Acc(d, j) >= 1
    decreases BitLength(3 * d) - j
  {
    hide Acc, Bit, Pow2;
    if j == BitLength(3 * d) - 1 {
      AccStart(d);
    } else {
      AccPositive(d, j + 1);
      AccStep(d, j);
    }
  }

  // For a point of order n and any scalar below n, or up to nearly 2n, ecMult returns d.S except
  // in two cases: n = 1 (mod 4) and d = n - 2, where the last pass computes (-S) - S in place,
  // and n = 3 (mod 4) and d = n + 2, where it computes S + S in place.
  lemma MultExact<G(!new)>(g: Group<G>, d: nat, s: G, n: nat)
    requires Abelian(g) && HasOrder(g, s, n) && Moderate(d, n)
    ensures MultValue(g, true, d, s) == Times(g, d, s) <==> !Unlucky(d, n)
  {
    TimesOne(g, s);
    OrderOfZero(g, s, n);
    if d >= 2 {
      MultExactLoop(g, d, s, n);
    }
  }

  lemma MultExactLoop<G(!new)>(g: Group<G>, d: nat, s: G, n: nat)
    requires Abelian(g) && HasOrder(g, s, n) && 2 <= d && Moderate(d, n) && s != g.zero
    ensures MultValue(g, true, d, s) == Times(g, d, s) <==> !Unlucky(d, n)
  {
    hide Acc, Bit, Pow2, BitLength, Collision, MultValue, Digit;
    forall i | 1 <= i <= BitLength(3 * d) - 2
      ensures Collision(g, d, i, s) <==> i == 1 && Unlucky(d, n)
    {
      CollisionOnlyAt(g, d, i, s, n);
    }
    if Unlucky(d, n) {
      MultAtLastCollision(g, d, s);
      MultipleNotZero(g, d, s, n);
    } else {
      MultCorrect(g, true, d, s);
    }
  }

  lemma MultipleNotZero<G(!new)>(g: Group<G>, d: nat, s: G, n: nat)
    requires HasOrder(g, s, n) && 2 <= d && Unlucky(d, n)
    ensures Times(g, d, s) != g.zero
  {
    hide Times;
    NotMultiple(d, n);
    assert OrderAt(g, s, n, d);
  }

  lemma NotMultiple(d: nat, n: nat)
    requires n > 0 && 2 <= d && Unlucky(d, n)
    ensures d % n != 0
  {
    if d < n {
      QuotientIs(d, n, 0, d);
    } else {
      assert n >= 3;
      QuotientIs(d, n, 1, 2);
    }
  }

  lemma MultAtLastCollision<G(!new)>(g: Group<G>, d: nat, s: G)
    requires Abelian(g) && d >= 2 && s != g.zero
    requires forall i | 1 <= i <= BitLength(3 * d) - 2 :: Collision(g, d, i, s) <==> i == 1
    ensures MultValue(g, true, d, s) == g.zero
  {
    hide Acc, Bit, Pow2, BitLength;
    AccStart(d);
    TimesOne(g, s);
    StepsToLast(g, d, BitLength(3 * d) - 2, s);
    StepValue(g, true, d, 1, s);
  }

  lemma {:induction false} StepsToLast<G(!new)>(g: Group<G>, d: nat, i: nat, s: G)
    requires Abelian(g) && i >= 1
    requires forall j | 2 <= j <= i :: !Collision(g, d, j, s)
    ensures Steps(g, true, d, i, s, Times(g, Acc(d, i + 1), s)) == Step(g, true, d, 1, s, Times(g, Acc(d, 2), s))
  {
    if i > 1 {
      StepValue(g, true, d, i, s);
      StepsToLast(g, d, i - 1, s);
    }
  }

  // ---------------------------------------------------------------- every scalar

  // The part of the scalar that the in-place passes i, ..., 1 lose, and the part they keep, when
  // the accumulator stands for a and l has been lost before.
  ghost function LostScalar<G>(g: Group<G>, d: nat, i: nat, s: G, a: int, l: int): int {
    if i == 0 then l
    else if Loses(g, a, Digit(d, i), s) then LostScalar(g, d, i - 1, s, 0, 2 * (l + a) + Digit(d, i))
    else LostScalar(g, d, i - 1, s, 2 * a + Digit(d, i), 2 * l)
  }

  ghost function KeptScalar<G>(g: Group<G>, d: nat, i: nat, s: G, a: int): int {
    if i == 0 then a
    else KeptScalar(g, d, i - 1, s, if Loses(g, a, Digit(d, i), s) then 0 else 2 * a + Digit(d, i))
  }

  // Nothing else happens to the scalar.
  lemma {:induction false} KeptAndLost<G(!new)>(g: Group<G>, d: nat, i: nat, s: G, a: int, l: int)
    ensures KeptScalar(g, d, i, s, a) + LostScalar(g, d, i, s, a, l) == Horner(d, i, a + l)
  {
    hide Loses, Digit;
    if i > 0 {
      var u := Digit(d, i);
      if Loses(g, a, u, s) {
        KeptAndLost(g, d, i - 1, s, 0, 2 * (l + a) + u);
      } else {
        KeptAndLost(g, d, i - 1, s, 2 * a + u, 2 * l);
      }
    }
  }

  lemma {:induction false} StepsKeep<G(!new)>(g: Group<G>, d: nat, i: nat, s: G, a: int)
    requires Abelian(g)
    ensures Steps(g, true, d, i, s, Times(g, a, s)) == Times(g, KeptScalar(g, d, i, s, a), s)
  {
    hide Loses, Digit, Step;
    if i > 0 {
      StepFrom(g, true, d, i, s, a);
      assert Times(g, 0, s) == g.zero;
      StepsKeep(g, d, i - 1, s, if Loses(g, a, Digit(d, i), s) then 0 else 2 * a + Digit(d, i));
    }
  }

  // The scalar ecMult loses on d and S.
  ghost function MultLost<G>(g: Group<G>, d: nat, s: G): int {
    if d < 2 then 0 else LostScalar(g, d, Abs(BitLength(3 * d) - 2), s, 1, 0)
  }

  // For every scalar and every point of every abelian group, ecMult returns (d - lost).S, and so
  // d.S if and only if lost.S is zero.
  lemma MultInPlace<G(!new)>(g: Group<G>, d: nat, s: G)
    requires Abelian(g)
    ensures MultValue(g, true, d, s) == Times(g, d - MultLost(g, d, s), s)
    ensures MultValue(g, true, d, s) == Times(g, d, s) <==> Times(g, MultLost(g, d, s), s) == g.zero
  {
    hide Horner, BitLength, LostScalar, KeptScalar;
    var l := MultLost(g, d, s);
    TimesOne(g, s);
    if d < 2 {
      assert Times(g, 0, s) == g.zero;
    } else if s == g.zero {
      MultiplesOfZero(g, d - l);
      MultiplesOfZero(g, d);
      MultiplesOfZero(g, l);
    } else {
      var top := BitLength(3 * d) - 2;
      RecodingIsExact(d);
      KeptAndLost(g, d, top, s, 1, 0);
      StepsKeep(g, d, top, s, 1);
    }
    TimesAdd(g, d - l, l, s);
    SumKeeps(g, Times(g, d - l, s), Times(g, l, s));
  }

  lemma MultiplesOfZero<G(!new)>(g: Group<G>, k: int)
    requires Abelian(g)
    ensures Times(g, k, g.zero) == g.zero
  {
    if k >= 0 {
      TimesZero(g, k);
    } else {
      TimesZero(g, -k);
      NegTimes(g, -k, g.zero);
      ZeroLeft(g, g.zero);
      NegUnique(g, g.zero, g.zero);
    }
  }

  lemma SumKeeps<G(!new)>(g: Group<G>, x: G, y: G)
    requires Abelian(g)
    ensures g.add(x, y) == x <==> y == g.zero
  {
    assert CommAt(g, x, y) && InverseAt(g, x) && UnitAt(g, x);
    Cancel(g, y, x);
  }

  // For a point of order n the lost scalar is a number computed from d and n.
  function LostOf(d: nat, n: nat, i: nat, a: int, l: int): int
    requires n > 0
  {
    if i == 0 then l
    else if Digit(d, i) != 0 && (2 * a - Digit(d, i)) % n == 0 then LostOf(d, n, i - 1, 0, 2 * (l + a) + Digit(d, i))
    else LostOf(d, n, i - 1, 2 * a + Digit(d, i), 2 * l)
  }

  lemma {:induction false} LostIsNumber<G(!new)>(g: Group<G>, d: nat, i: nat, s: G, n: nat, a: int, l: int)
    requires Abelian(g) && HasOrder(g, s, n) && s != g.zero
    ensures LostScalar(g, d, i, s, a, l) == LostOf(d, n, i, a, l)
  {
    hide Loses, HasOrder;
    if i > 0 {
      var u := Digit(d, i);
      assert -1 <= u <= 1;
      LosesOfOrder(g, a, u, s, n);
      hide Digit;
      if Loses(g, a, u, s) {
        LostIsNumber(g, d, i - 1, s, n, 0, 2 * (l + a) + u);
      } else {
        LostIsNumber(g, d, i - 1, s, n, 2 * a + u, 2 * l);
      }
    }
  }

  // So for every scalar, however large, whether ecMult is right depends on d and n only.
  lemma MultExactAll<G(!new)>(g: Group<G>, d: nat, s: G, n: nat)
    requires Abelian(g) && HasOrder(g, s, n) && s != g.zero && d >= 2
    ensures MultValue(g, true, d, s) == Times(g, d, s) <==> LostOf(d, n, Abs(BitLength(3 * d) - 2), 1, 0) % n == 0
  {
    hide LostScalar, LostOf, BitLength, MultValue;
    var top := Abs(BitLength(3 * d) - 2);
    MultInPlace(g, d, s);
    LostIsNumber(g, d, top, s, n, 1, 0);
    assert OrderAt(g, s, n, LostOf(d, n, top, 1, 0));
  }

  // ---------------------------------------------------------------- concrete failures

  type Mod5 = k: int | 0 <= k < 5

  function Add5(a: Mod5, b: Mod5): Mod5 { if a + b >= 5 then a + b - 5 else a + b }

  function Neg5(a: Mod5): Mod5 { if a == 0 then 0 else 5 - a }

  const CYCLIC5: Group<Mod5> := Group<Mod5>.Group(0, Add5, Neg5)

  lemma NextResidue(k: int, n: nat)
    requires n > 1
    ensures (k + 1) % n == if k % n == n - 1 then 0 else k % n + 1
  {
    var q, m := k / n, k % n;
    if m == n - 1 {
      assert k + 1 == (q + 1) * n + 0;
      QuotientIs(k + 1, n, q + 1, 0);
    } else {
      QuotientIs(k + 1, n, q, m + 1);
    }
  }

  lemma {:induction false} Cyclic5Times(k: int)
    ensures Times(CYCLIC5, k, 1) == k % 5
    decreases if k < 0 then -k else k
  {
    if k > 0 {
      Cyclic5Times(k - 1);
      NextResidue(k - 1, 5);
    } else if k < 0 {
      Cyclic5Times(k + 1);
      NextResidue(k, 5);
    }
  }

  lemma Cyclic5()
    ensures Abelian(CYCLIC5) && HasOrder(CYCLIC5, 1, 5)
  {
    forall a: Mod5, b: Mod5, c: Mod5 ensures AssocAt(CYCLIC5, a, b, c) {}
    forall a: Mod5, b: Mod5 ensures CommAt(CYCLIC5, a, b) {}
    forall a: Mod5 ensures UnitAt(CYCLIC5, a) && InverseAt(CYCLIC5, a) {}
    forall k: int ensures OrderAt(CYCLIC5, 1, 5, k) {
      Cyclic5Times(k);
    }
  }

  // With n = 5 and d = 3 the result is the point at infinity instead of 3.S.
  lemma MultFailsAtOrderFive()
    ensures Abelian(CYCLIC5) && HasOrder(CYCLIC5, 1, 5)
    ensures MultValue(CYCLIC5, true, 3, 1) == 0 && Times(CYCLIC5, 3, 1) == 3
  {
    Cyclic5();
    Cyclic5Times(3);
    assert BitLength(9) == 4 by { assert BitLength(4) == 3 by { assert BitLength(2) == 2; } }
    assert Pow2(1) == 2 && Pow2(2) == 4;
    assert Step(CYCLIC5, true, 3, 2, 1, 1) == 2;
    assert Step(CYCLIC5, true, 3, 1, 1, 2) == 0;
    assert Steps(CYCLIC5, true, 3, 1, 1, 2) == 0;
    assert Steps(CYCLIC5, true, 3, 2, 1, 1) == 0;
  }

  type Mod7 = k: int | 0 <= k < 7

  function Add7(a: Mod7, b: Mod7): Mod7 { if a + b >= 7 then a + b - 7 else a + b }

  function Neg7(a: Mod7): Mod7 { if a == 0 then 0 else 7 - a }

  const CYCLIC7: Group<Mod7> := Group<Mod7>.Group(0, Add7, Neg7)

  lemma {:induction false} Cyclic7Times(k: int)
    ensures Times(CYCLIC7, k, 1) == k % 7
    decreases if k < 0 then -k else k
  {
    if k > 0 {
      Cyclic7Times(k - 1);
      NextResidue(k - 1, 7);
    } else if k < 0 {
      Cyclic7Times(k + 1);
      NextResidue(k, 7);
    }
  }

  // With n = 7 and d = 9 it is the point at infinity instead of 2.S.
  lemma MultFailsAtOrderSeven()
    ensures Abelian(CYCLIC7) && HasOrder(CYCLIC7, 1, 7)
    ensures MultValue(CYCLIC7, true, 9, 1) == 0 && Times(CYCLIC7, 9, 1) == 2
  {
    forall a: Mod7, b: Mod7, c: Mod7 ensures AssocAt(CYCLIC7, a, b, c) {}
    forall a: Mod7, b: Mod7 ensures CommAt(CYCLIC7, a, b) {}
    forall a: Mod7 ensures UnitAt(CYCLIC7, a) && InverseAt(CYCLIC7, a) {}
    forall k: int ensures OrderAt(CYCLIC7, 1, 7, k) {
      Cyclic7Times(k);
    }
    Cyclic7Times(9);
    PassesOf9();
    hide Step, BitLength;
    assert Steps(CYCLIC7, true, 9, 1, 1, 4) == 0;
    assert Steps(CYCLIC7, true, 9, 2, 1, 2) == 0;
    assert Steps(CYCLIC7, true, 9, 3, 1, 1) == 0;
  }

  lemma PassesOf9()
    ensures BitLength(27) == 5
    ensures Step(CYCLIC7, true, 9, 3, 1, 1) == 2
    ensures Step(CYCLIC7, true, 9, 2, 1, 2) == 4
    ensures Step(CYCLIC7, true, 9, 1, 1, 4) == 0
  {
    assert BitLength(27) == 5 by { assert BitLength(6) == 3 by { assert BitLength(3) == 2; } }
    assert Pow2(1) == 2 && Pow2(2) == 4 && Pow2(3) == 8;
  }
}
