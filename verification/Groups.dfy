/** Abelian groups as first-class values, and the integer multiples of their elements. */
module Groups {

  datatype Group<!G> = Group(zero: G, add: (G, G) -> G, neg: G -> G)

  // The laws are stated one instance at a time, so that the universally quantified
  // group axioms are instantiated only where a proof names the instance.
  ghost predicate AssocAt<G>(g: Group<G>, a: G, b: G, c: G) {
    g.add(g.add(a, b), c) == g.add(a, g.add(b, c))
  }

  ghost predicate CommAt<G>(g: Group<G>, a: G, b: G) {
    g.add(a, b) == g.add(b, a)
  }

  ghost predicate UnitAt<G>(g: Group<G>, a: G) {
    g.add(a, g.zero) == a
  }

  ghost predicate InverseAt<G>(g: Group<G>, a: G) {
    g.add(a, g.neg(a)) == g.zero
  }

  ghost predicate Abelian<G(!new)>(g: Group<G>) {
    && (forall a: G, b: G, c: G :: AssocAt(g, a, b, c))
    && (forall a: G, b: G :: CommAt(g, a, b))
    && (forall a: G :: UnitAt(g, a))
    && (forall a: G :: InverseAt(g, a))
  }

  // k . s for any integer k.
  function Times<G>(g: Group<G>, k: int, s: G): G
    decreases if k < 0 then -k else k
  {
    if k == 0 then g.zero
    else if k > 0 then g.add(Times(g, k - 1, s), s)
    else g.add(Times(g, k + 1, s), g.neg(s))
  }

  lemma ZeroLeft<G(!new)>(g: Group<G>, a: G)
    requires Abelian(g)
    ensures g.add(g.zero, a) == a
  {
    assert CommAt(g, g.zero, a);
    assert UnitAt(g, a);
  }

  lemma Cancel<G(!new)>(g: Group<G>, a: G, b: G)
    requires Abelian(g)
    ensures g.add(g.add(a, b), g.neg(b)) == a
    ensures g.add(g.add(a, g.neg(b)), b) == a
  {
    assert AssocAt(g, a, b, g.neg(b));
    assert AssocAt(g, a, g.neg(b), b);
    assert InverseAt(g, b);
    assert CommAt(g, g.neg(b), b);
    assert UnitAt(g, a);
  }

  lemma TimesSucc<G(!new)>(g: Group<G>, k: int, s: G)
    requires Abelian(g)
    ensures Times(g, k + 1, s) == g.add(Times(g, k, s), s)
    ensures Times(g, k - 1, s) == g.add(Times(g, k, s), g.neg(s))
  {
    Cancel(g, Times(g, k + 1, s), s);
    Cancel(g, Times(g, k - 1, s), s);
  }

  lemma {:induction false} TimesAdd<G(!new)>(g: Group<G>, j: int, k: int, s: G)
    requires Abelian(g)
    ensures Times(g, j + k, s) == g.add(Times(g, j, s), Times(g, k, s))
    decreases if k < 0 then -k else k
  {
    var a := Times(g, j, s);
    if k == 0 {
      assert UnitAt(g, a);
    } else if k > 0 {
      TimesAdd(g, j, k - 1, s);
      TimesSucc(g, j + k - 1, s);
      assert AssocAt(g, a, Times(g, k - 1, s), s);
    } else {
      TimesAdd(g, j, k + 1, s);
      TimesSucc(g, j + k + 1, s);
      assert AssocAt(g, a, Times(g, k + 1, s), g.neg(s));
    }
  }

  lemma TimesOne<G(!new)>(g: Group<G>, s: G)
    requires Abelian(g)
    ensures Times(g, 1, s) == s
    ensures Times(g, -1, s) == g.neg(s)
  {
    ZeroLeft(g, s);
    ZeroLeft(g, g.neg(s));
    assert Times(g, 0, s) == g.zero;
  }

  lemma NegUnique<G(!new)>(g: Group<G>, a: G, b: G)
    requires Abelian(g) && g.add(a, b) == g.zero
    ensures b == g.neg(a)
  {
    assert CommAt(g, a, b);
    Cancel(g, b, a);
    ZeroLeft(g, g.neg(a));
  }

  lemma NegTimes<G(!new)>(g: Group<G>, k: int, s: G)
    requires Abelian(g)
    ensures g.neg(Times(g, k, s)) == Times(g, -k, s)
  {
    TimesAdd(g, k, -k, s);
    NegUnique(g, Times(g, k, s), Times(g, -k, s));
  }

  // s has order n when exactly the multiples of n annihilate it.
  ghost predicate HasOrder<G(!new)>(g: Group<G>, s: G, n: nat) {
    n > 0 && forall k: int :: OrderAt(g, s, n, k)
  }

  ghost predicate OrderAt<G>(g: Group<G>, s: G, n: nat, k: int)
    requires n > 0
  {
    Times(g, k, s) == g.zero <==> k % n == 0
  }

  lemma SameMultiple<G(!new)>(g: Group<G>, s: G, n: nat, j: int, k: int)
    requires Abelian(g) && HasOrder(g, s, n)
    ensures Times(g, j, s) == Times(g, k, s) <==> (j - k) % n == 0
  {
    TimesAdd(g, j, -k, s);
    NegTimes(g, k, s);
    assert InverseAt(g, Times(g, k, s));
    assert OrderAt(g, s, n, j - k);
    if (j - k) % n == 0 {
      assert Times(g, j - k, s) == g.zero;
      Cancel(g, Times(g, j, s), Times(g, -k, s));
      NegTimes(g, -k, s);
      ZeroLeft(g, Times(g, k, s));
    }
  }

  lemma OrderOfZero<G(!new)>(g: Group<G>, s: G, n: nat)
    requires Abelian(g) && HasOrder(g, s, n)
    ensures s == g.zero <==> n == 1
  {
    TimesOne(g, s);
    assert OrderAt(g, s, n, 1);
  }

  // j0.s + j1.t, the value of a pair of scalars.
  function Comb<G>(g: Group<G>, j0: int, j1: int, s: G, t: G): G {
    g.add(Times(g, j0, s), Times(g, j1, t))
  }

  lemma CombAdd<G(!new)>(g: Group<G>, j0: int, j1: int, k0: int, k1: int, s: G, t: G)
    requires Abelian(g)
    ensures Comb(g, j0 + k0, j1 + k1, s, t) == g.add(Comb(g, j0, j1, s, t), Comb(g, k0, k1, s, t))
  {
    var a, b, c, d := Times(g, j0, s), Times(g, j1, t), Times(g, k0, s), Times(g, k1, t);
    TimesAdd(g, j0, k0, s);
    TimesAdd(g, j1, k1, t);
    calc {
      g.add(g.add(a, b), g.add(c, d));
    == { assert AssocAt(g, a, b, g.add(c, d)); }
      g.add(a, g.add(b, g.add(c, d)));
    == { assert AssocAt(g, b, c, d); assert CommAt(g, b, c); assert AssocAt(g, c, b, d); }
      g.add(a, g.add(c, g.add(b, d)));
    == { assert AssocAt(g, a, c, g.add(b, d)); }
      g.add(g.add(a, c), g.add(b, d));
    }
  }

  lemma CombNeg<G(!new)>(g: Group<G>, k0: int, k1: int, s: G, t: G)
    requires Abelian(g)
    ensures g.neg(Comb(g, k0, k1, s, t)) == Comb(g, -k0, -k1, s, t)
  {
    CombAdd(g, k0, k1, -k0, -k1, s, t);
    ZeroLeft(g, g.zero);
    NegUnique(g, Comb(g, k0, k1, s, t), Comb(g, -k0, -k1, s, t));
  }
}
