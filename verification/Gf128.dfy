/**
 * GF(2)[x] and the field GF(2^128) of section 6.3 of SP 800-38D.
 *
 * A polynomial over GF(2) is the set of its exponents; addition is symmetric difference.
 */
module Gf128 {

  type Poly = set<nat>

  function Plus(p: Poly, q: Poly): Poly { (p - q) + (q - p) }

  // x^k p
  function Shift(p: Poly, k: nat): Poly { set i | i in p :: i + k }

  lemma InShift(p: Poly, k: nat, j: nat)
    ensures j in Shift(p, k) <==> j >= k && (j - k) in p
  {
    if j >= k && (j - k) in p {
      assert j == (j - k) + k;
    }
  }

  // The sum of x^i q for the exponents i of p below n.
  function TimesBelow(p: Poly, q: Poly, n: nat): Poly {
    if n == 0 then {}
    else if n - 1 in p then Plus(TimesBelow(p, q, n - 1), Shift(q, n - 1))
    else TimesBelow(p, q, n - 1)
  }

  predicate Below(p: Poly, n: nat) { forall i | i in p :: i < n }

  // The product of polynomials of degree less than 128.
  function Times(p: Poly, q: Poly): Poly { TimesBelow(p, q, 128) }

  // m (x^128 + x^7 + x^2 + x + 1)
  function TimesModulus(m: Poly): Poly {
    Plus(Plus(Plus(Plus(m, Shift(m, 1)), Shift(m, 2)), Shift(m, 7)), Shift(m, 128))
  }

  // p = q modulo x^128 + x^7 + x^2 + x + 1
  ghost predicate Congruent(p: Poly, q: Poly) {
    exists m: Poly :: p == Plus(q, TimesModulus(m))
  }

  // ---------------------------------------------------------------- the ring

  lemma ShiftPlus(p: Poly, q: Poly, k: nat)
    ensures Shift(Plus(p, q), k) == Plus(Shift(p, k), Shift(q, k))
  {
    forall j: nat ensures j in Shift(Plus(p, q), k) <==> j in Plus(Shift(p, k), Shift(q, k)) {
      InShift(Plus(p, q), k, j);
      InShift(p, k, j);
      InShift(q, k, j);
    }
  }

  lemma ShiftShift(p: Poly, k: nat, l: nat)
    ensures Shift(Shift(p, k), l) == Shift(p, k + l)
  {
    forall j: nat ensures j in Shift(Shift(p, k), l) <==> j in Shift(p, k + l) {
      InShift(p, k + l, j);
      InShift(Shift(p, k), l, j);
      if j >= l { InShift(p, k, j - l); }
    }
  }

  lemma PlusAssoc(p: Poly, q: Poly, r: Poly)
    ensures Plus(Plus(p, q), r) == Plus(p, Plus(q, r))
    ensures Plus(p, q) == Plus(q, p)
    ensures Plus(Plus(p, q), q) == p
  {
  }

  lemma PlusSwap(a: Poly, b: Poly, c: Poly, d: Poly)
    ensures Plus(Plus(a, b), Plus(c, d)) == Plus(Plus(a, c), Plus(b, d))
  {
  }

  lemma ModulusPlus(m: Poly, n: Poly)
    ensures TimesModulus(Plus(m, n)) == Plus(TimesModulus(m), TimesModulus(n))
  {
    ShiftPlus(m, n, 1);
    ShiftPlus(m, n, 2);
    ShiftPlus(m, n, 7);
    ShiftPlus(m, n, 128);
    PlusSwap(m, n, Shift(m, 1), Shift(n, 1));
    var a, b := Plus(m, Shift(m, 1)), Plus(n, Shift(n, 1));
    PlusSwap(a, b, Shift(m, 2), Shift(n, 2));
    var a', b' := Plus(a, Shift(m, 2)), Plus(b, Shift(n, 2));
    PlusSwap(a', b', Shift(m, 7), Shift(n, 7));
    PlusSwap(Plus(a', Shift(m, 7)), Plus(b', Shift(n, 7)), Shift(m, 128), Shift(n, 128));
  }

  lemma ModulusShift(m: Poly, k: nat)
    ensures TimesModulus(Shift(m, k)) == Shift(TimesModulus(m), k)
  {
    var s1, s2, s7, s128 := Shift(m, 1), Shift(m, 2), Shift(m, 7), Shift(m, 128);
    ShiftShift(m, k, 1);  ShiftShift(m, 1, k);
    ShiftShift(m, k, 2);  ShiftShift(m, 2, k);
    ShiftShift(m, k, 7);  ShiftShift(m, 7, k);
    ShiftShift(m, k, 128);  ShiftShift(m, 128, k);
    var a := Plus(m, s1);
    var b := Plus(a, s2);
    var c := Plus(b, s7);
    ShiftPlus(m, s1, k);
    ShiftPlus(a, s2, k);
    ShiftPlus(b, s7, k);
    ShiftPlus(c, s128, k);
  }

  lemma CongruentRefl(p: Poly)
    ensures Congruent(p, p)
  {
    assert TimesModulus({}) == {};
    assert p == Plus(p, TimesModulus({}));
  }

  lemma CongruentPlus(p: Poly, p': Poly, q: Poly, q': Poly)
    requires Congruent(p, p') && Congruent(q, q')
    ensures Congruent(Plus(p, q), Plus(p', q'))
  {
    var m: Poly :| p == Plus(p', TimesModulus(m));
    var n: Poly :| q == Plus(q', TimesModulus(n));
    ModulusPlus(m, n);
    PlusSwap(p', TimesModulus(m), q', TimesModulus(n));
    assert Plus(p, q) == Plus(Plus(p', q'), TimesModulus(Plus(m, n)));
  }

  lemma CongruentTrans(p: Poly, q: Poly, r: Poly)
    requires Congruent(p, q) && Congruent(q, r)
    ensures Congruent(p, r) && Congruent(q, p)
  {
    var m: Poly :| p == Plus(q, TimesModulus(m));
    var n: Poly :| q == Plus(r, TimesModulus(n));
    ModulusPlus(n, m);
    PlusAssoc(r, TimesModulus(n), TimesModulus(m));
    assert p == Plus(r, TimesModulus(Plus(n, m)));
    PlusAssoc(q, TimesModulus(m), {});
    assert q == Plus(p, TimesModulus(m));
  }

  lemma CongruentShift(p: Poly, q: Poly, k: nat)
    requires Congruent(p, q)
    ensures Congruent(Shift(p, k), Shift(q, k))
  {
    var m: Poly :| p == Plus(q, TimesModulus(m));
    ModulusShift(m, k);
    ShiftPlus(q, TimesModulus(m), k);
    assert Shift(p, k) == Plus(Shift(q, k), TimesModulus(Shift(m, k)));
  }

  // Polynomials of degree less than 128 are their own residues.
  lemma ResidueUnique(p: Poly, q: Poly)
    requires Below(p, 128) && Below(q, 128) && Congruent(p, q)
    ensures p == q
  {
    var m: Poly :| p == Plus(q, TimesModulus(m));
    if m != {} {
      var k := Greatest(m);
      ModulusLeads(m, k);
      assert false;
    } else {
      assert TimesModulus({}) == {};
    }
  }

  lemma Greatest(m: Poly) returns (k: nat)
    requires m != {}
    ensures k in m && forall i | i in m :: i <= k
  {
    var j :| j in m;
    var rest := m - {j};
    k := j;
    if rest != {} {
      var l := Greatest(rest);
      k := if l > j then l else j;
    }
    forall i | i in m ensures i <= k {
      assert i == j || i in rest;
    }
  }

  lemma ModulusLeads(m: Poly, k: nat)
    requires k in m && forall i | i in m :: i <= k
    ensures k + 128 in TimesModulus(m)
  {
    InShift(m, 1, k + 128);
    InShift(m, 2, k + 128);
    InShift(m, 7, k + 128);
    InShift(m, 128, k + 128);
  }

  // ---------------------------------------------------------------- the product

  lemma {:induction false} TimesPlusLeft(p: Poly, p': Poly, q: Poly, n: nat)
    ensures TimesBelow(Plus(p, p'), q, n) == Plus(TimesBelow(p, q, n), TimesBelow(p', q, n))
  {
    if n > 0 {
      TimesPlusLeft(p, p', q, n - 1);
      var a, b, s := TimesBelow(p, q, n - 1), TimesBelow(p', q, n - 1), Shift(q, n - 1);
      PlusSwap(a, s, b, s);
      PlusSwap(a, {}, b, s);
      PlusSwap(a, s, b, {});
    }
  }

  lemma {:induction false} TimesPlusRight(p: Poly, q: Poly, q': Poly, n: nat)
    ensures TimesBelow(p, Plus(q, q'), n) == Plus(TimesBelow(p, q, n), TimesBelow(p, q', n))
  {
    if n > 0 {
      TimesPlusRight(p, q, q', n - 1);
      ShiftPlus(q, q', n - 1);
      PlusSwap(TimesBelow(p, q, n - 1), TimesBelow(p, q', n - 1), Shift(q, n - 1), Shift(q', n - 1));
    }
  }

  lemma {:induction false} TimesMonomialLeft(k: nat, q: Poly, n: nat)
    ensures TimesBelow({k}, q, n) == if k < n then Shift(q, k) else {}
  {
    if n > 0 {
      TimesMonomialLeft(k, q, n - 1);
    }
  }

  lemma {:induction false} TimesMonomialRight(p: Poly, k: nat, n: nat)
    ensures TimesBelow(p, {k}, n) == Shift((set i | i in p && i < n), k)
  {
    if n > 0 {
      TimesMonomialRight(p, k, n - 1);
      var low := set i | i in p && i < n - 1;
      var all := set i | i in p && i < n;
      assert Shift({k}, n - 1) == {k + n - 1} by { assert Shift({k}, n - 1) == {k + (n - 1)}; }
      if n - 1 in p {
        assert all == Plus(low, {n - 1});
        ShiftPlus(low, {n - 1}, k);
        assert Shift({n - 1}, k) == {n - 1 + k};
      } else {
        assert all == low;
      }
    }
  }

  lemma {:induction false} TimesCommutes(p: Poly, q: Poly)
    requires Below(p, 128) && Below(q, 128)
    ensures Times(p, q) == Times(q, p)
    decreases |q|
  {
    if q == {} {
      TimesEmpty(p, 128);
    } else {
      var k :| k in q;
      var rest := q - {k};
      assert q == Plus(rest, {k});
      TimesCommutes(p, rest);
      TimesPlusRight(p, rest, {k}, 128);
      TimesPlusLeft(rest, {k}, p, 128);
      TimesMonomialRight(p, k, 128);
      TimesMonomialLeft(k, p, 128);
      assert (set i | i in p && i < 128) == p;
    }
  }

  lemma TimesEmpty(p: Poly, n: nat)
    ensures TimesBelow(p, {}, n) == {} && TimesBelow({}, p, n) == {}
  {
  }
}
