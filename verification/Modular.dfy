/** Integers modulo p: remainders, congruence and cancellation of nonzero factors. */
module Modular {

  // The remainder of v modulo p, by repeated subtraction or addition of p.
  function Rem(p: nat, v: int): (r: int)
    requires p > 0
    ensures 0 <= r < p
    decreases if v < 0 then p - v else v
  {
    if v < 0 then Rem(p, v + p) else if v >= p then Rem(p, v - p) else v
  }

  // p divides e
  predicate Divides(p: nat, e: int)
    requires p > 0
  {
    Rem(p, e) == 0
  }

  predicate Congruent(p: nat, a: int, b: int)
    requires p > 0
  {
    Divides(p, a - b)
  }

  // p is odd and a prime element of the integers.
  ghost predicate OddPrime(p: nat) {
    p > 2 && p % 2 == 1 && forall a: int, b: int :: PrimeAt(p, a, b)
  }

  ghost predicate PrimeAt(p: nat, a: int, b: int)
    requires p > 0
  {
    Divides(p, a * b) ==> Divides(p, a) || Divides(p, b)
  }

  lemma {:induction false} RemQuotient(p: nat, v: int) returns (q: int)
    requires p > 0
    ensures v == q * p + Rem(p, v)
    decreases if v < 0 then p - v else v
  {
    if v < 0 {
      q := RemQuotient(p, v + p);
      assert (q - 1) * p == q * p - p;
      q := q - 1;
    } else if v >= p {
      q := RemQuotient(p, v - p);
      assert (q + 1) * p == q * p + p;
      q := q + 1;
    } else {
      q := 0;
    }
  }

  lemma SmallMultiple(p: nat, k: int, e: int)
    requires p > 0 && 0 < e + p && e < p && e == k * p
    ensures e == 0
  {
    if k >= 1 { MulAtLeast(k, p); }
    if k <= -1 { MulAtLeast(-k, p); }
  }

  lemma MulAtLeast(k: int, p: nat)
    requires k >= 1
    ensures k * p >= p
  {
  }

  lemma RemUnique(p: nat, v: int, q: int, r: int)
    requires p > 0 && v == q * p + r && 0 <= r < p
    ensures Rem(p, v) == r
  {
    var q' := RemQuotient(p, v);
    assert r - Rem(p, v) == (q' - q) * p;
    SmallMultiple(p, q' - q, r - Rem(p, v));
  }

  lemma MultipleDivides(p: nat, k: int)
    requires p > 0
    ensures Divides(p, k * p) && Divides(p, p * k)
  {
    RemUnique(p, k * p, k, 0);
    assert k * p == p * k;
  }

  lemma Quotient(p: nat, e: int) returns (k: int)
    requires p > 0 && Divides(p, e)
    ensures e == k * p
  {
    k := RemQuotient(p, e);
  }

  lemma DividesSum(p: nat, a: int, b: int)
    requires p > 0 && Divides(p, a) && Divides(p, b)
    ensures Divides(p, a + b) && Divides(p, a - b)
  {
    var j := Quotient(p, a);
    var k := Quotient(p, b);
    assert a + b == (j + k) * p && a - b == (j - k) * p;
    MultipleDivides(p, j + k);
    MultipleDivides(p, j - k);
  }

  lemma DividesProduct(p: nat, a: int, m: int)
    requires p > 0 && Divides(p, a)
    ensures Divides(p, a * m) && Divides(p, m * a)
  {
    var j := Quotient(p, a);
    assert a * m == (j * m) * p;
    assert m * a == a * m;
    MultipleDivides(p, j * m);
  }

  lemma CongruentRem(p: nat, a: int)
    requires p > 0
    ensures Congruent(p, Rem(p, a), a) && Congruent(p, a, Rem(p, a))
  {
    var q := RemQuotient(p, a);
    assert a - Rem(p, a) == q * p && Rem(p, a) - a == (-q) * p;
    MultipleDivides(p, q);
    MultipleDivides(p, -q);
  }

  lemma CongruentSymm(p: nat, a: int, b: int)
    requires p > 0 && Congruent(p, a, b)
    ensures Congruent(p, b, a)
  {
    var k := Quotient(p, a - b);
    assert b - a == (-k) * p;
    MultipleDivides(p, -k);
  }

  lemma CongruentTrans(p: nat, a: int, b: int, c: int)
    requires p > 0 && Congruent(p, a, b) && Congruent(p, b, c)
    ensures Congruent(p, a, c)
  {
    DividesSum(p, a - b, b - c);
  }

  lemma CongruentAdd(p: nat, a: int, a': int, b: int, b': int)
    requires p > 0 && Congruent(p, a, a') && Congruent(p, b, b')
    ensures Congruent(p, a + b, a' + b') && Congruent(p, a - b, a' - b')
  {
    DividesSum(p, a - a', b - b');
    assert (a + b) - (a' + b') == (a - a') + (b - b');
    assert (a - b) - (a' - b') == (a - a') - (b - b');
  }

  lemma CongruentMul(p: nat, a: int, a': int, b: int, b': int)
    requires p > 0 && Congruent(p, a, a') && Congruent(p, b, b')
    ensures Congruent(p, a * b, a' * b')
  {
    DividesProduct(p, a - a', b);
    DividesProduct(p, b - b', a');
    DividesSum(p, (a - a') * b, a' * (b - b'));
    assert a * b - a' * b' == (a - a') * b + a' * (b - b');
  }

  // Two numbers have the same remainder exactly when they are congruent.
  lemma SameRemainder(p: nat, a: int, b: int)
    requires p > 0
    ensures Congruent(p, a, b) <==> Rem(p, a) == Rem(p, b)
  {
    var qa := RemQuotient(p, a);
    var qb := RemQuotient(p, b);
    assert a - b == (qa - qb) * p + (Rem(p, a) - Rem(p, b));
    if Rem(p, a) == Rem(p, b) {
      MultipleDivides(p, qa - qb);
    }
    if Congruent(p, a, b) {
      var k := Quotient(p, a - b);
      assert (k - qa + qb) * p == Rem(p, a) - Rem(p, b);
      SmallMultiple(p, k - qa + qb, Rem(p, a) - Rem(p, b));
    }
  }

  // Adding a multiple of p does not change the remainder.
  lemma Shift(p: nat, v: int, k: int)
    requires p > 0
    ensures Rem(p, v + k * p) == Rem(p, v)
  {
    var q := RemQuotient(p, v);
    assert v + k * p == (q + k) * p + Rem(p, v);
    RemUnique(p, v + k * p, q + k, Rem(p, v));
  }

  lemma RemSmall(p: nat, v: int)
    requires 0 <= v < p
    ensures Rem(p, v) == v
  {
  }

  // Remainders of sums, differences and products of remainders.
  lemma RemAdd(p: nat, a: int, b: int)
    requires p > 0
    ensures Rem(p, Rem(p, a) + Rem(p, b)) == Rem(p, a + b)
  {
    CongruentRem(p, a);
    CongruentRem(p, b);
    CongruentAdd(p, Rem(p, a), a, Rem(p, b), b);
    SameRemainder(p, Rem(p, a) + Rem(p, b), a + b);
  }

  lemma RemSub(p: nat, a: int, b: int)
    requires p > 0
    ensures Rem(p, Rem(p, a) - Rem(p, b)) == Rem(p, a - b)
  {
    CongruentRem(p, a);
    CongruentRem(p, b);
    CongruentAdd(p, Rem(p, a), a, Rem(p, b), b);
    SameRemainder(p, Rem(p, a) - Rem(p, b), a - b);
  }

  lemma RemMul(p: nat, a: int, b: int)
    requires p > 0
    ensures Rem(p, Rem(p, a) * Rem(p, b)) == Rem(p, a * b)
  {
    CongruentRem(p, a);
    CongruentRem(p, b);
    CongruentMul(p, Rem(p, a), a, Rem(p, b), b);
    SameRemainder(p, Rem(p, a) * Rem(p, b), a * b);
  }

  lemma Cancel(p: nat, a: int, b: int)
    requires OddPrime(p) && Divides(p, a * b) && !Divides(p, a)
    ensures Divides(p, b)
  {
    assert PrimeAt(p, a, b);
  }
}
