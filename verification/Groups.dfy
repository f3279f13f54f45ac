/** Commutative groups as explicit hypotheses: an operation, a zero, and n-fold sums. Inverses are never needed. */
module Groups {

  datatype Group<!G> = Group(op: (G, G) -> G, zero: G)
  {
    ghost predicate Commutes(a: G, b: G) { op(a, b) == op(b, a) }
    ghost predicate Associates(a: G, b: G, c: G) { op(op(a, b), c) == op(a, op(b, c)) }
    ghost predicate HasUnit(a: G) { op(a, zero) == a }
  }

  ghost predicate Commutative<G(!new)>(g: Group<G>) {
    && (forall a, b :: g.Commutes(a, b))
    && (forall a, b, c :: g.Associates(a, b, c))
    && (forall a :: g.HasUnit(a))
  }

  ghost function NFold<G>(g: Group<G>, x: G, n: nat): G {
    if n == 0 then g.zero else g.op(NFold(g, x, n - 1), x)
  }

  lemma {:induction false} NFoldAdd<G(!new)>(g: Group<G>, x: G, m: nat, n: nat)
    requires Commutative(g)
    ensures NFold(g, x, m + n) == g.op(NFold(g, x, m), NFold(g, x, n))
  {
    if n == 0 {
      assert g.HasUnit(NFold(g, x, m));
    } else {
      NFoldAdd(g, x, m, n - 1);
      assert g.Associates(NFold(g, x, m), NFold(g, x, n - 1), x);
    }
  }

  lemma {:induction false} NFoldMul<G(!new)>(g: Group<G>, x: G, m: nat, n: nat)
    requires Commutative(g)
    ensures m * n >= 0 && NFold(g, NFold(g, x, m), n) == NFold(g, x, m * n)
  {
    if n == 0 {
    } else {
      NFoldMul(g, x, m, n - 1);
      NFoldAdd(g, x, m * (n - 1), m);
      assert m * n == m * (n - 1) + m;
    }
  }

  lemma {:induction false} NFoldZero<G(!new)>(g: Group<G>, n: nat)
    requires Commutative(g)
    ensures NFold(g, g.zero, n) == g.zero
  {
    if n == 0 {
    } else {
      NFoldZero(g, n - 1);
      assert g.HasUnit(g.zero);
    }
  }

  /** An element of order dividing l: only the multiple modulo l matters. */
  lemma NFoldMod<G(!new)>(g: Group<G>, x: G, l: nat, n: nat)
    requires Commutative(g) && l > 0 && NFold(g, x, l) == g.zero
    ensures NFold(g, x, n % l) == NFold(g, x, n)
  {
    var k := n / l;
    NFoldMul(g, x, l, k);
    NFoldZero(g, k);
    NFoldAdd(g, x, l * k, n % l);
    var r := NFold(g, x, n % l);
    assert g.Commutes(g.zero, r) && g.HasUnit(r);
  }

  /** n-fold sums of an element commute: a times (b times x) is b times (a times x). */
  lemma NFoldSwap<G(!new)>(g: Group<G>, x: G, a: nat, b: nat)
    requires Commutative(g)
    ensures NFold(g, NFold(g, x, a), b) == NFold(g, NFold(g, x, b), a)
  {
    NFoldMul(g, x, a, b);
    NFoldMul(g, x, b, a);
    assert a * b == b * a;
  }

  /** b has order l: exactly the multiples of l bring it to zero. */
  ghost predicate OrderIs<G>(g: Group<G>, b: G, l: nat, n: nat)
    requires l > 0
  {
    NFold(g, b, n) == g.zero <==> n % l == 0
  }

  /** A multiple of such an element can be cancelled: it has an inverse among the multiples. */
  lemma CancelFold<G(!new)>(g: Group<G>, b: G, l: nat, r: nat, x: G, y: G)
    requires Commutative(g) && l > 0 && NFold(g, b, l) == g.zero
    requires g.op(NFold(g, b, r), x) == g.op(NFold(g, b, r), y)
    ensures x == y
  {
    var R, k := NFold(g, b, r % l), l - r % l;
    var R' := NFold(g, b, k);
    NFoldMod(g, b, l, r);
    NFoldAdd(g, b, r % l, k);
    assert g.op(R, R') == g.zero;
    CancelInverse(g, R, R', x);
    CancelInverse(g, R, R', y);
  }

  lemma CancelInverse<G(!new)>(g: Group<G>, r: G, s: G, x: G)
    requires Commutative(g) && g.op(r, s) == g.zero
    ensures g.op(s, g.op(r, x)) == x
  {
    assert g.Associates(s, r, x) && g.Commutes(s, r) && g.Commutes(g.zero, x) && g.HasUnit(x);
  }

  /** Different multiples below the order are different elements. */
  lemma FoldIsInjective<G(!new)>(g: Group<G>, b: G, l: nat, i: nat, j: nat)
    requires Commutative(g) && i < l && j < l && NFold(g, b, i) == NFold(g, b, j)
    requires forall n: nat :: OrderIs(g, b, l, n)
    ensures i == j
  {
    var k := l - j;
    NFoldAdd(g, b, i, k);
    NFoldAdd(g, b, j, k);
    assert OrderIs(g, b, l, j + k) && OrderIs(g, b, l, i + k);
    SmallSums(i, j, l);
  }

  lemma SmallSums(i: nat, j: nat, l: nat)
    requires i < l && j < l
    ensures (j + (l - j)) % l == 0 && ((i + (l - j)) % l == 0 ==> i == j)
  {
    if i >= j {
      assert i + (l - j) == l + (i - j);
      assert (l + (i - j)) % l == i - j;
    }
  }
}
