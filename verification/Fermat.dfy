/** Prime moduli: a product vanishes only with a factor, and the power p - 1 of anything else is 1. */
module Fermat {
  import opened Modular

  ghost predicate DoesNotDivide(d: int, p: int) {
    1 < d < p ==> p % d != 0
  }

  ghost predicate IsPrime(p: int) {
    p > 1 && forall d :: DoesNotDivide(d, p)
  }

  // ---- no zero divisors ----

  lemma Multiple(a: int, g: int, k: int)
    requires g > 0 && a == g * k
    ensures IsZero(g, a)
  {
    ModShift(g, 0, k);
  }

  /** The greatest common divisor as a combination of both. */
  lemma {:induction false} Bezout(a: nat, b: nat) returns (x: int, y: int, g: int)
    requires a > 0 || b > 0
    ensures g > 0 && a * x + b * y == g && IsZero(g, a) && IsZero(g, b)
    decreases b
  {
    if b == 0 {
      x, y, g := 1, 0, a;
      Multiple(a, a, 1);
    } else {
      var k := a / b;
      x, y, g := Bezout(b, a % b);
      ZeroTimes(g, b, k);
      ZeroSum(g, b * k, a % b);
      x, y := y, x - k * y;
      BezoutStep(a, b, k, a % b, x, y);
    }
  }

  lemma BezoutStep(a: int, b: int, k: int, r: int, x: int, y: int)
    requires a == b * k + r
    ensures b * (y + k * x) + r * x == a * x + b * y
  {
    assert a * x == (b * k) * x + r * x;
    assert b * (k * x) == (b * k) * x;
  }

  /** Euclid's lemma. */
  lemma PrimeDivides(p: int, a: int, b: int)
    requires IsPrime(p) && IsZero(p, a * b) && !IsZero(p, a)
    ensures IsZero(p, b)
  {
    var x, y, g := Bezout(a % p, p);
    assert DoesNotDivide(g, p);
    DivisorIsSmall(g, a % p);
    assert g == 1;
    Reduced(p, a);
    ZeroProduct(p, a, a % p, b, x, y);
  }

  lemma DivisorIsSmall(g: int, a: int)
    requires g > 0 && a > 0 && IsZero(g, a)
    ensures g <= a
  {
  }

  lemma ZeroProduct(p: int, a: int, r: int, b: int, x: int, y: int)
    requires p > 1 && Eqm(p, r, a) && r * x + p * y == 1 && IsZero(p, a * b)
    ensures IsZero(p, b)
  {
    Mul(p, r, a, b, b);
    ZeroTimes(p, r * b, x);
    Multiple(p * (y * b), p, y * b);
    ZeroSum(p, (r * b) * x, p * (y * b));
    assert (r * b) * x + p * (y * b) == (r * x + p * y) * b;
  }

  // ---- powers ----

  function Pow(b: int, e: nat): int {
    if e == 0 then 1 else b * Pow(b, e - 1)
  }

  lemma {:induction false} PowAdd(b: int, m: nat, n: nat)
    ensures Pow(b, m + n) == Pow(b, m) * Pow(b, n)
  {
    if m > 0 {
      PowAdd(b, m - 1, n);
      assert b * (Pow(b, m - 1) * Pow(b, n)) == (b * Pow(b, m - 1)) * Pow(b, n);
    }
  }

  lemma PowTwo(b: int, n: nat)
    ensures Pow(b, n + n) == Pow(b, n) * Pow(b, n)
  {
    PowAdd(b, n, n);
  }

  /** Powers of a square. */
  lemma {:induction false} PowOfSquare(b: int, n: nat)
    ensures Pow(b * b, n) == Pow(b, n + n)
  {
    if n > 0 {
      PowOfSquare(b, n - 1);
      assert Pow(b, n + n) == b * Pow(b, n + n - 1) == b * (b * Pow(b, n + n - 2));
      assert b * (b * Pow(b, n + n - 2)) == (b * b) * Pow(b, n + n - 2);
    }
  }

  lemma {:induction false} PowEqm(q: int, a: int, b: int, n: nat)
    requires q > 0 && Eqm(q, a, b)
    ensures Eqm(q, Pow(a, n), Pow(b, n))
  {
    if n > 0 {
      PowEqm(q, a, b, n - 1);
      Mul(q, a, b, Pow(a, n - 1), Pow(b, n - 1));
    }
  }

  // ---- the binomial theorem ----

  function Choose(n: nat, k: nat): nat {
    if k == 0 then 1 else if n == 0 then 0 else Choose(n - 1, k - 1) + Choose(n - 1, k)
  }

  lemma {:induction false} ChooseTooMany(n: nat, k: nat)
    requires k > n
    ensures Choose(n, k) == 0
  {
    if n > 0 {
      ChooseTooMany(n - 1, k - 1);
      ChooseTooMany(n - 1, k);
    }
  }

  lemma {:induction false} ChooseAll(n: nat)
    ensures Choose(n, n) == 1
  {
    if n > 0 {
      ChooseAll(n - 1);
      ChooseTooMany(n - 1, n);
    }
  }

  lemma {:induction false} Absorption(n: nat, k: nat)
    requires n > 0 && k > 0
    ensures k * Choose(n, k) == n * Choose(n - 1, k - 1)
  {
    if n == 1 {
      if k > 1 {
        ChooseTooMany(1, k);
        ChooseTooMany(0, k - 1);
      }
    } else {
      Absorption(n - 1, k);
      if k > 1 {
        Absorption(n - 1, k - 1);
      }
      var c, e := Choose(n - 1, k - 1), Choose(n - 1, k);
      assert k * (c + e) == c + (k - 1) * c + k * e;
      if k > 1 {
        assert c == Choose(n - 2, k - 2) + Choose(n - 2, k - 1);
        assert (k - 1) * c == (n - 1) * Choose(n - 2, k - 2);
        assert k * e == (n - 1) * Choose(n - 2, k - 1);
        Distributed(n - 1, Choose(n - 2, k - 2), Choose(n - 2, k - 1), c);
      }
    }
  }

  lemma Distributed(n: int, a: int, b: int, c: int)
    requires c == a + b
    ensures n * a + n * b == n * c && c + n * c == (n + 1) * c
  {
  }

  /** The terms 0 to k of (1 + a)^n. */
  function Terms(n: nat, a: int, k: nat): int {
    if k == 0 then 1 else Terms(n, a, k - 1) + Choose(n, k) * Pow(a, k)
  }

  lemma {:induction false} TermsNext(n: nat, a: int, k: nat)
    requires n > 0 && k > 0
    ensures Terms(n, a, k) == Terms(n - 1, a, k) + a * Terms(n - 1, a, k - 1)
  {
    var u, v, w := Choose(n - 1, k - 1), Choose(n - 1, k), Pow(a, k);
    assert (u + v) * w == u * w + v * w;
    assert w == a * Pow(a, k - 1);
    assert u * (a * Pow(a, k - 1)) == a * (u * Pow(a, k - 1));
    if k > 1 {
      TermsNext(n, a, k - 1);
      assert a * (Terms(n - 1, a, k - 2) + u * Pow(a, k - 1)) == a * Terms(n - 1, a, k - 2) + a * (u * Pow(a, k - 1));
    }
  }

  lemma {:induction false} Binomial(n: nat, a: int)
    ensures Terms(n, a, n) == Pow(a + 1, n)
  {
    if n > 0 {
      Binomial(n - 1, a);
      TermsNext(n, a, n);
      ChooseTooMany(n - 1, n);
      assert Terms(n - 1, a, n) == Terms(n - 1, a, n - 1) + 0 * Pow(a, n);
      assert Pow(a + 1, n) == (a + 1) * Pow(a + 1, n - 1);
    }
  }

  /** All inner terms vanish for a prime exponent. */
  lemma {:induction false} InnerTermsVanish(p: int, a: int, k: nat)
    requires IsPrime(p) && k < p
    ensures Eqm(p, Terms(p, a, k), 1)
  {
    if k > 0 {
      InnerTermsVanish(p, a, k - 1);
      Absorption(p, k);
      Multiple(k * Choose(p, k), p, Choose(p - 1, k - 1));
      SmallIsUnit(p, k);
      PrimeDivides(p, k, Choose(p, k));
      ZeroTimes(p, Choose(p, k), Pow(a, k));
      Add(p, Terms(p, a, k - 1), 1, Choose(p, k) * Pow(a, k), 0);
    }
  }

  lemma SmallIsUnit(p: int, k: int)
    requires 0 < k < p
    ensures !IsZero(p, k)
  {
  }

  // ---- Fermat's little theorem ----

  lemma {:induction false} PowP(p: int, a: nat)
    requires IsPrime(p)
    ensures Eqm(p, Pow(a, p), a)
  {
    if a == 0 {
    } else {
      PowP(p, a - 1);
      Binomial(p, a - 1);
      InnerTermsVanish(p, a - 1, p - 1);
      ChooseAll(p);
      assert Terms(p, a - 1, p) == Terms(p, a - 1, p - 1) + 1 * Pow(a - 1, p);
      Add(p, Terms(p, a - 1, p - 1), 1, Pow(a - 1, p), a - 1);
    }
  }

  /** What is not a multiple of p has the power p - 1 congruent to 1. */
  lemma LittleFermat(p: int, a: int)
    requires IsPrime(p) && !IsZero(p, a)
    ensures Eqm(p, Pow(a, p - 1), 1)
  {
    PowP(p, a % p);
    Reduced(p, a);
    PowEqm(p, a % p, a, p);
    var e := Pow(a, p - 1);
    EqmIsZero(p, a * e, a);
    assert a * e - a == a * (e - 1);
    PrimeDivides(p, a, e - 1);
    EqmIsZero(p, e, 1);
  }
}
