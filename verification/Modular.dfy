/** Congruence of integers modulo a positive q: the ring laws every field formula below is proved with. */
module Modular {

  ghost predicate Eqm(q: int, a: int, b: int)
    requires q > 0
  {
    a % q == b % q
  }

  /** No non-zero multiple of q lies strictly between -q and q. */
  lemma SmallMultipleIsZero(q: int, e: int)
    requires q > 0 && -q < q * e < q
    ensures e == 0
  {
  }

  lemma ModShift(q: int, a: int, k: int)
    requires q > 0
    ensures (a + q * k) % q == a % q
  {
    var b := a + q * k;
    assert q * (b / q - a / q - k) == a % q - b % q;
    SmallMultipleIsZero(q, b / q - a / q - k);
  }

  /** Congruent numbers differ by a multiple of q. */
  ghost function Quotient(q: int, a: int, b: int): (k: int)
    requires q > 0 && Eqm(q, a, b)
    ensures a == b + q * k
  {
    a / q - b / q
  }

  lemma FromWitness(q: int, a: int, b: int, k: int)
    requires q > 0 && a == b + q * k
    ensures Eqm(q, a, b)
  {
    ModShift(q, b, k);
  }

  lemma Reduced(q: int, a: int)
    requires q > 0
    ensures Eqm(q, a % q, a)
  {
    FromWitness(q, a, a % q, a / q);
  }

  lemma Add(q: int, a: int, a': int, b: int, b': int)
    requires q > 0 && Eqm(q, a, a') && Eqm(q, b, b')
    ensures Eqm(q, a + b, a' + b')
  {
    var i, j := Quotient(q, a, a'), Quotient(q, b, b');
    FromWitness(q, a + b, a' + b', i + j);
  }

  lemma Sub(q: int, a: int, a': int, b: int, b': int)
    requires q > 0 && Eqm(q, a, a') && Eqm(q, b, b')
    ensures Eqm(q, a - b, a' - b')
  {
    var i, j := Quotient(q, a, a'), Quotient(q, b, b');
    FromWitness(q, a - b, a' - b', i - j);
  }

  lemma Mul(q: int, a: int, a': int, b: int, b': int)
    requires q > 0 && Eqm(q, a, a') && Eqm(q, b, b')
    ensures Eqm(q, a * b, a' * b')
  {
    var i, j := Quotient(q, a, a'), Quotient(q, b, b');
    assert a * b == a' * b' + q * (a' * j + i * b' + q * i * j) by {
      assert (a' + q * i) * (b' + q * j) == a' * b' + a' * (q * j) + (q * i) * b' + (q * i) * (q * j);
    }
    FromWitness(q, a * b, a' * b', a' * j + i * b' + q * i * j);
  }

  // ---- multiples of q ----

  ghost predicate IsZero(q: int, e: int)
    requires q > 0
  {
    e % q == 0
  }

  lemma ZeroTimes(q: int, e: int, k: int)
    requires q > 0 && IsZero(q, e)
    ensures IsZero(q, e * k) && IsZero(q, k * e)
  {
    Mul(q, e, 0, k, k);
    assert k * e == e * k;
  }

  lemma ZeroSum(q: int, e: int, f: int)
    requires q > 0 && IsZero(q, e) && IsZero(q, f)
    ensures IsZero(q, e + f) && IsZero(q, e - f)
  {
    Add(q, e, 0, f, 0);
    Sub(q, e, 0, f, 0);
  }

  /** e and f differ by k times a multiple of q. */
  lemma ZeroShift(q: int, e: int, f: int, g: int, k: int)
    requires q > 0 && IsZero(q, g) && e == f + g * k
    ensures IsZero(q, e) <==> IsZero(q, f)
  {
    ZeroTimes(q, g, k);
    if IsZero(q, f) {
      ZeroSum(q, f, g * k);
    }
    if IsZero(q, e) {
      ZeroSum(q, e, g * k);
    }
  }

  lemma EqmIsZero(q: int, a: int, b: int)
    requires q > 0
    ensures Eqm(q, a, b) <==> IsZero(q, a - b)
  {
    if Eqm(q, a, b) {
      Sub(q, a, b, b, b);
    }
    if IsZero(q, a - b) {
      Add(q, a - b, 0, b, b);
    }
  }

  lemma ZeroNegated(q: int, e: int)
    requires q > 0
    ensures IsZero(q, e) <==> IsZero(q, -e)
  {
    if IsZero(q, e) {
      ZeroTimes(q, e, -1);
    }
    if IsZero(q, -e) {
      ZeroTimes(q, -e, -1);
    }
  }

  lemma Rearranged(a: int, b: int, e: int, f: int)
    ensures (a * b) * (e * f) == (a * e) * (b * f)
  {
  }

  lemma Regrouped(a: int, b: int, i: int)
    ensures (a * b) * i == (a * i) * b
  {
  }

  lemma Halve(q: int, e: int)
    requires q > 0 && q % 2 == 1 && IsZero(q, 2 * e)
    ensures IsZero(q, e)
  {
    var h := (q + 1) / 2;
    ZeroTimes(q, 2 * e, h);
    HalfIdentity(q, e, h);
    ModShift(q, (2 * e) * h, -e);
  }

  lemma HalfIdentity(q: int, e: int, h: int)
    requires 2 * h == q + 1
    ensures e == (2 * e) * h + q * -e
  {
    assert (2 * e) * h == e * (2 * h) == e * (q + 1);
  }
}
