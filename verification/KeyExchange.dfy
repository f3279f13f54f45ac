/**
 The x-only formulas of the ladder on the points of the signatures: r = (x, z) stands for an affine Edwards point when
 (x - z) / (x + z) is its y. All the laws that X25519 asks for, and the agreement of the secrets, follow from there.
 */
module KeyExchange {
  import opened Bytes
  import opened Bits
  import opened Modular
  import opened Groups
  import opened Fermat
  import opened Points
  import opened Ed25519
  import opened X25519
  import opened Montgomery
  import ScalarMult

  ghost predicate Stands<G(!new)>(c: Curve, m: ScalarMult.Reading<G>, r: Pair, g: G, a: Affine) {
    && IsOnCurve(c, a) && Value(c, m, a) == g
    && Eqm(c.q, r.x - r.z, (r.x + r.z) * a.y)
    && !(IsZero(c.q, r.x) && IsZero(c.q, r.z))
  }

  ghost predicate IsX<G(!new)>(c: Curve, m: ScalarMult.Reading<G>, r: Pair, g: G) {
    exists a :: Stands(c, m, r, g, a)
  }

  // ---- what both formulas compute ----

  /** The sum of the two coordinates is a unit: it cannot vanish without both. */
  lemma SumIsUnit(q: int, r: Pair, y: int)
    requires q > 0 && q % 2 == 1 && Eqm(q, r.x - r.z, (r.x + r.z) * y)
    requires !(IsZero(q, r.x) && IsZero(q, r.z))
    ensures !IsZero(q, r.x + r.z)
  {
    if IsZero(q, r.x + r.z) {
      ZeroTimes(q, r.x + r.z, y);
      ZeroSum(q, r.x + r.z, r.x - r.z);
      assert (r.x + r.z) + (r.x - r.z) == 2 * r.x && (r.x + r.z) - (r.x - r.z) == 2 * r.z;
      Halve(q, r.x);
      Halve(q, r.z);
    }
  }

  /** Doubling, in terms of y and of e = (x + z)^2. */
  lemma DblForm(q: int, r: Pair, y: int, e: int, yy: int)
    requires q > 0 && Eqm(q, r.x - r.z, (r.x + r.z) * y)
    requires e == (r.x + r.z) * (r.x + r.z) && yy == y * y
    ensures Eqm(q, Dbl(q, r).x, (e * e) * yy)
    ensures Eqm(q, Dbl(q, r).z, (e * e) * ((1 - yy) * (121666 - 121665 * yy)))
  {
    var s, t := r.x + r.z, r.x - r.z;
    var BB := t * t;
    Mul(q, t, s * y, t, s * y);
    SquareOfProduct(s, y, e, yy);
    Mul(q, e, e, BB, e * yy);
    Reduced(q, e * BB);
    var E := e - BB;
    Sub(q, e, e, BB, e * yy);
    Mul(q, 121665, 121665, E, e - e * yy);
    Add(q, e, e, 121665 * E, 121665 * (e - e * yy));
    Mul(q, E, e - e * yy, e + 121665 * E, e + 121665 * (e - e * yy));
    Reduced(q, E * (e + 121665 * E));
    DblIdentity(e, yy);
  }

  lemma SquareOfProduct(s: int, y: int, e: int, yy: int)
    requires e == s * s && yy == y * y
    ensures (s * y) * (s * y) == e * yy && e * (e * yy) == (e * e) * yy
  {
    assert (s * y) * (s * y) == (s * s) * (y * y);
  }

  lemma DblIdentity(e: int, yy: int)
    ensures (e - e * yy) * (e + 121665 * (e - e * yy)) == (e * e) * ((1 - yy) * (121666 - 121665 * yy))
  {
    assert e - e * yy == e * (1 - yy);
    assert e + 121665 * (e * (1 - yy)) == e * (121666 - 121665 * yy);
    Rearranged(e, 1 - yy, e, 121666 - 121665 * yy);
  }

  /** Differential addition, in terms of the y of both operands and of k = ((x + z) (x' + z'))^2. */
  lemma DAddForm(q: int, u: int, r: Pair, s: Pair, y1: int, y2: int, k: int)
    requires q > 0 && Eqm(q, r.x - r.z, (r.x + r.z) * y1) && Eqm(q, s.x - s.z, (s.x + s.z) * y2)
    requires var w := (r.x + r.z) * (s.x + s.z); k == w * w
    ensures Eqm(q, DAdd(q, u, r, s).x, k * ((y1 + y2) * (y1 + y2)))
    ensures Eqm(q, DAdd(q, u, r, s).z, u * (k * ((y2 - y1) * (y2 - y1))))
  {
    var s1, s2 := r.x + r.z, s.x + s.z;
    var w := s1 * s2;
    var DA, CB := (s.x - s.z) * s1, s2 * (r.x - r.z);
    Mul(q, s.x - s.z, s2 * y2, s1, s1);
    Mul(q, s2, s2, r.x - r.z, s1 * y1);
    Factored(s1, s2, y1, y2, w);
    Add(q, DA, w * y2, CB, w * y1);
    Sub(q, DA, w * y2, CB, w * y1);
    SquaredForm(q, DA + CB, w, y1 + y2, k);
    SquaredForm(q, DA - CB, w, y2 - y1, k);
    Reduced(q, (DA + CB) * (DA + CB));
    Mul(q, u, u, (DA - CB) * (DA - CB), k * ((y2 - y1) * (y2 - y1)));
    Reduced(q, u * ((DA - CB) * (DA - CB)));
  }

  lemma Factored(s1: int, s2: int, y1: int, y2: int, w: int)
    requires w == s1 * s2
    ensures (s2 * y2) * s1 == w * y2 && s2 * (s1 * y1) == w * y1
    ensures w * y2 + w * y1 == w * (y1 + y2) && w * y2 - w * y1 == w * (y2 - y1)
  {
  }

  lemma SquaredForm(q: int, e: int, w: int, y: int, k: int)
    requires q > 0 && Eqm(q, e, w * y) && k == w * w
    ensures Eqm(q, e * e, k * (y * y))
  {
    Mul(q, e, w * y, e, w * y);
    Rearranged(w, y, w, y);
  }

  // ---- doubling ----

  /** The doubled pair stands for the doubled point. */
  lemma DoublingLaw<G(!new)>(c: Curve, m: ScalarMult.Reading<G>, r: Pair, g: G)
    requires OnMontgomery(c, m) && IsX(c, m, r, g)
    ensures IsX(c, m, Dbl(c.q, r), m.group.op(g, g))
  {
    var a :| Stands(c, m, r, g, a);
    var e := SumOfAffine(c, m, a, a);
    CurveEquation(c, a);
    DeltaOfDouble(c.d, a.x, a.y);
    DoubledRatio(c.q, c.d, a.x * a.x, a.y * a.y, e.y, Delta(c, a, a));
    DoubledStands(c, m, r, a.y, a.y * a.y, e.y);
    assert Stands(c, m, Dbl(c.q, r), m.group.op(g, g), e);
  }

  lemma DoubledStands<G(!new)>(c: Curve, m: ScalarMult.Reading<G>, r: Pair, y: int, yy: int, y2: int)
    requires OnMontgomery(c, m) && yy == y * y
    requires Eqm(c.q, r.x - r.z, (r.x + r.z) * y) && !(IsZero(c.q, r.x) && IsZero(c.q, r.z))
    requires var h := (1 - yy) * (121666 - 121665 * yy); IsZero(c.q, (yy - h) - (yy + h) * y2)
    ensures var t := Dbl(c.q, r);
            Eqm(c.q, t.x - t.z, (t.x + t.z) * y2) && !(IsZero(c.q, t.x) && IsZero(c.q, t.z))
  {
    var s := r.x + r.z;
    var k := (s * s) * (s * s);
    SumIsUnit(c.q, r, y);
    UnitSquare(c, s);
    UnitSquare(c, s * s);
    DblForm(c.q, r, y, s * s, yy);
    DoubledPair(c, Dbl(c.q, r), k, yy, y2);
  }

  lemma UnitSquare(c: Curve, s: int)
    requires IsPrime(c.q) && !IsZero(c.q, s)
    ensures !IsZero(c.q, s * s)
  {
    if IsZero(c.q, s * s) {
      Cancel(c, s, s);
    }
  }

  lemma DeltaOfDouble(d: int, x: int, y: int)
    ensures d * ((x * y) * (x * y)) == d * (x * x) * (y * y)
  {
    Rearranged(x, y, x, y);
  }

  /** With x^2 = a and y^2 = b, the doubled y is the ratio that the doubling formula gives. */
  lemma DoubledRatio(q: int, d: int, a: int, b: int, y2: int, delta: int)
    requires q > 0 && IsZero(q, a * (1 + d * b) - (b - 1)) && IsZero(q, 121666 * d + 121665)
    requires delta == d * a * b && Eqm(q, y2 * (1 - delta), b + a)
    ensures var h := (1 - b) * (121666 - 121665 * b); IsZero(q, (b - h) - (b + h) * y2)
  {
    var n, v, w := 121665 * b - 121666, a + b, b - a - 2;
    var h := (1 - b) * (121666 - 121665 * b);
    var curve, rel := a * (1 + d * b) - (b - 1), 121666 * d + 121665;
    var g := n * a - 121666 * (1 - b);
    RatioIdentities(d, a, b, n, h, g, delta);
    ZeroDifference(q, rel, a * b, curve, 121666);
    EqmIsZero(q, y2 * (1 - delta), v);
    Third(q, y2, delta, w, v, curve);
    Combine(q, b - h, b + h, n, v, w, y2, g);
  }

  lemma ZeroDifference(q: int, e: int, i: int, f: int, j: int)
    requires q > 0 && IsZero(q, e) && IsZero(q, f)
    ensures IsZero(q, e * i - f * j)
  {
    ZeroTimes(q, e, i);
    ZeroTimes(q, f, j);
    ZeroSum(q, e * i, f * j);
  }

  lemma RatioIdentities(d: int, a: int, b: int, n: int, h: int, g: int, delta: int)
    requires n == 121665 * b - 121666 && h == (1 - b) * (121666 - 121665 * b)
    requires g == n * a - 121666 * (1 - b) && delta == d * a * b
    ensures g == (121666 * d + 121665) * (a * b) - (a * (1 + d * b) - (b - 1)) * 121666
    ensures (b - h) + n * (a + b) == g && (b + h) - n * (b - a - 2) == g
    ensures (1 - delta) + (b - a - 2) == -(a * (1 + d * b) - (b - 1))
  {
    assert a * (1 + d * b) == a + delta;
    assert (121666 * d + 121665) * (a * b) == 121666 * delta + 121665 * (a * b);
    assert n * a == 121665 * (a * b) - 121666 * a;
    assert n * b == 121665 * (b * b) - 121666 * b;
    assert h == 121666 - 243331 * b + 121665 * (b * b);
    assert n * (a + b) == n * a + n * b && n * (b - a - 2) == n * b - n * a - 2 * n;
  }

  lemma Third(q: int, y2: int, delta: int, w: int, v: int, curve: int)
    requires q > 0 && IsZero(q, curve) && (1 - delta) + w == -curve && IsZero(q, y2 * (1 - delta) - v)
    ensures IsZero(q, w * y2 + v)
  {
    ZeroTimes(q, curve, y2);
    ZeroSum(q, y2 * (1 - delta) - v, curve * y2);
    assert y2 * (1 - delta) + y2 * w == -(curve * y2);
    assert w * y2 + v == -((y2 * (1 - delta) - v) + curve * y2);
    ZeroNegated(q, w * y2 + v);
  }

  lemma Combine(q: int, low: int, high: int, n: int, v: int, w: int, y2: int, g: int)
    requires q > 0 && IsZero(q, g) && low + n * v == g && high - n * w == g && IsZero(q, w * y2 + v)
    ensures IsZero(q, low - high * y2)
  {
    ZeroDifference(q, g, 1 - y2, w * y2 + v, n);
    CombineIdentity(low, high, n, v, w, y2, g);
  }

  lemma CombineIdentity(low: int, high: int, n: int, v: int, w: int, y2: int, g: int)
    requires low == g - n * v && high == g + n * w
    ensures low - high * y2 == g * (1 - y2) - (w * y2 + v) * n
  {
    assert high * y2 == g * y2 + n * w * y2;
    assert (w * y2 + v) * n == n * w * y2 + n * v;
  }

  /** From the ratio to the pair, which is not (0, 0). */
  lemma DoubledPair(c: Curve, r: Pair, k: int, b: int, y2: int)
    requires IsPrime(c.q) && !IsZero(c.q, k) && IsZero(c.q, 121666 * c.d + 121665)
    requires var h := (1 - b) * (121666 - 121665 * b);
             Eqm(c.q, r.x, k * b) && Eqm(c.q, r.z, k * h) && IsZero(c.q, (b - h) - (b + h) * y2)
    ensures Eqm(c.q, r.x - r.z, (r.x + r.z) * y2) && !(IsZero(c.q, r.x) && IsZero(c.q, r.z))
  {
    var q, h := c.q, (1 - b) * (121666 - 121665 * b);
    RatioOfPair(q, r, k, b, h, y2);
    if IsZero(q, r.x) && IsZero(q, r.z) {
      Cancel(c, k, b);
      Cancel(c, k, h);
      assert h == 121666 + b * (121665 * b - 243331);
      ZeroShift(q, h, 121666, b, 121665 * b - 243331);
      ZeroTimes(q, 121666, c.d);
      ZeroSum(q, 121666 * c.d + 121665, 121666 * c.d);
      ZeroSum(q, 121666, 121665);
    }
  }

  lemma RatioOfPair(q: int, r: Pair, k: int, low: int, high: int, y: int)
    requires q > 0 && Eqm(q, r.x, k * low) && Eqm(q, r.z, k * high)
    requires IsZero(q, (low - high) - (low + high) * y)
    ensures Eqm(q, r.x - r.z, (r.x + r.z) * y)
  {
    Sub(q, r.x, k * low, r.z, k * high);
    Add(q, r.x, k * low, r.z, k * high);
    Mul(q, r.x + r.z, k * low + k * high, y, y);
    ZeroTimes(q, (low - high) - (low + high) * y, k);
    assert (k * low - k * high) - (k * low + k * high) * y == ((low - high) - (low + high) * y) * k;
    EqmIsZero(q, k * low - k * high, (k * low + k * high) * y);
  }

  // ---- differential addition ----

  /** The identity behind it, in terms of p = y1 y2 and n = y1^2 + y2^2: what does not depend on n, and the rest. */
  lemma SumIdentity(d: int, p: int, n: int)
    ensures (1 + p) * (1 + p) * (1 + d * n + d * d * (p * p)) - (p * p - n + 1) * ((1 - d * p) * (1 - d * p))
         == (n + 2 * p) * ((1 + d) * (1 + d * (p * p)))
  {
    var e, f, g, h := (1 + p) * (1 + p), (1 - d * p) * (1 - d * p), 1 + d * d * (p * p), (1 + d) * (1 + d * (p * p));
    ConstantPart(d, p, p * p, e, f, g, h);
    LinearPart(d, p, p * p, e, f, h);
    BothParts(d, n, p * p + 1, 2 * p, e, f, g, h);
  }

  lemma BothParts(d: int, n: int, k: int, p2: int, e: int, f: int, g: int, h: int)
    requires e * g - k * f == p2 * h && e * d + f == h
    ensures e * (g + d * n) - (k - n) * f == (n + p2) * h
  {
    assert e * (d * n) == n * (e * d);
    assert n * (e * d) + n * f == n * h;
  }

  lemma LinearPart(d: int, p: int, pp: int, e: int, f: int, h: int)
    requires pp == p * p && e == (1 + p) * (1 + p) && f == (1 - d * p) * (1 - d * p) && h == (1 + d) * (1 + d * pp)
    ensures e * d + f == h
  {
    assert e * d == d + 2 * (d * p) + d * pp;
    assert f == 1 - 2 * (d * p) + d * d * pp;
  }

  lemma ConstantPart(d: int, p: int, pp: int, e: int, f: int, g: int, h: int)
    requires pp == p * p && e == (1 + p) * (1 + p) && f == (1 - d * p) * (1 - d * p)
    requires g == 1 + d * d * pp && h == (1 + d) * (1 + d * pp)
    ensures e * g - (pp + 1) * f == 2 * p * h
  {
    ExpandedParts(d, p, pp, e, f, g, h);
    assert e * g == (pp + 1) * g + 2 * p * g;
    assert (pp + 1) * f == (pp + 1) * g - (pp + 1) * (2 * (d * p));
    assert 2 * p * h == 2 * p * g + 2 * p * (d * pp + d);
  }

  lemma ExpandedParts(d: int, p: int, pp: int, e: int, f: int, g: int, h: int)
    requires pp == p * p && e == (1 + p) * (1 + p) && f == (1 - d * p) * (1 - d * p)
    requires g == 1 + d * d * pp && h == (1 + d) * (1 + d * pp)
    ensures e == pp + 1 + 2 * p && f == g - 2 * (d * p) && h == g + (d * pp + d)
    ensures (pp + 1) * (2 * (d * p)) == 2 * p * (d * pp + d)
  {
    assert (d * p) * (d * p) == d * d * pp;
    assert (1 + d) * (d * pp) == d * pp + d * d * pp;
  }

  /** M (1 + p)^2 - M (X - d X p)^2 = (y1 + y2)^2 R on the curve, for the product M of the two denominators. */
  lemma HalfOfLaw(q: int, d: int, x1: int, y1: int, x2: int, y2: int, p: int, x: int, m: int)
    requires q > 0 && p == y1 * y2 && x == x1 * x2
    requires m == (1 + d * (y1 * y1)) * (1 + d * (y2 * y2))
    requires IsZero(q, (x1 * x1) * (1 + d * (y1 * y1)) - (y1 * y1 - 1))
    requires IsZero(q, (x2 * x2) * (1 + d * (y2 * y2)) - (y2 * y2 - 1))
    ensures IsZero(q, m * ((1 + p) * (1 + p) - (x - d * x * p) * (x - d * x * p))
                      - ((y1 + y2) * (y1 + y2)) * ((1 + d) * (1 + d * (p * p))))
  {
    var a1, a2, b1, b2 := 1 + d * (y1 * y1), 1 + d * (y2 * y2), y1 * y1 - 1, y2 * y2 - 1;
    EqmIsZero(q, (x1 * x1) * a1, b1);
    EqmIsZero(q, (x2 * x2) * a2, b2);
    Mul(q, (x1 * x1) * a1, b1, (x2 * x2) * a2, b2);
    var e := ((x1 * x1) * a1) * ((x2 * x2) * a2);
    EqmIsZero(q, e, b1 * b2);
    ProductsOfSquares(d, y1, y2, p, m);
    SumIdentity(d, p, y1 * y1 + y2 * y2);
    XSquared(d, x1, x2, a1, a2, x, p, m);
    HalfFromParts(q, m, (1 + p) * (1 + p), (x - d * x * p) * (x - d * x * p),
                  ((y1 + y2) * (y1 + y2)) * ((1 + d) * (1 + d * (p * p))), e, b1 * b2, (1 - d * p) * (1 - d * p));
  }

  lemma HalfFromParts(q: int, m: int, plus: int, minus: int, right: int, e: int, b: int, k: int)
    requires q > 0 && IsZero(q, e - b) && e * k == m * minus && plus * m - b * k == right
    ensures IsZero(q, m * (plus - minus) - right)
  {
    ZeroTimes(q, e - b, -k);
    assert m * (plus - minus) - right == (e - b) * -k;
  }

  lemma ProductsOfSquares(d: int, y1: int, y2: int, p: int, m: int)
    requires p == y1 * y2 && m == (1 + d * (y1 * y1)) * (1 + d * (y2 * y2))
    ensures m == 1 + d * (y1 * y1 + y2 * y2) + d * d * (p * p)
    ensures (y1 * y1 - 1) * (y2 * y2 - 1) == p * p - (y1 * y1 + y2 * y2) + 1
    ensures (y1 + y2) * (y1 + y2) == y1 * y1 + y2 * y2 + 2 * p
  {
    var a, b := y1 * y1, y2 * y2;
    Rearranged(y1, y2, y1, y2);
    assert a * b == p * p;
    assert (d * a) * (d * b) == d * d * (a * b);
  }

  lemma XSquared(d: int, x1: int, x2: int, a1: int, a2: int, x: int, p: int, m: int)
    requires x == x1 * x2 && m == a1 * a2
    ensures ((x1 * x1) * a1) * ((x2 * x2) * a2) * ((1 - d * p) * (1 - d * p))
         == m * ((x - d * x * p) * (x - d * x * p))
  {
    var f := 1 - d * p;
    assert x - d * x * p == x * f;
    Rearranged(x, f, x, f);
    Rearranged(x1 * x1, a1, x2 * x2, a2);
    Rearranged(x1, x1, x2, x2);
    assert ((x * x) * m) * (f * f) == m * ((x * x) * (f * f));
  }

  /** The factors F, G = 1 -+ d x1 x2 y1 y2 and H, H' = y1 y2 +- x1 x2 of a sum and of a difference. */
  datatype Factors = Factors(f: int, h: int, g: int, h': int)

  ghost predicate FactorsOf(q: int, d: int, a: Affine, b: Affine, k: Factors) {
    var p, x := a.y * b.y, a.x * b.x;
    k.f == 1 - d * x * p && k.g == 1 + d * x * p && k.h == p + x && k.h' == p - x
  }

  lemma ProductsOfFactors(q: int, d: int, a: Affine, b: Affine, k: Factors)
    requires FactorsOf(q, d, a, b, k)
    ensures var p, x := a.y * b.y, a.x * b.x;
            && (k.f + k.h) * (k.g + k.h') == (1 + p) * (1 + p) - (x - d * x * p) * (x - d * x * p)
            && (k.f - k.h) * (k.g - k.h') == (1 - p) * (1 - p) - (x + d * x * p) * (x + d * x * p)
  {
    var p, x := a.y * b.y, a.x * b.x;
    var t := d * x * p;
    TwoSquares(1 + p, x - t);
    TwoSquares(1 - p, x + t);
  }

  lemma TwoSquares(a: int, b: int)
    ensures (a + b) * (a - b) == a * a - b * b
  {
  }

  /** (y1 + y2)^2 (F - H) (G - H') = (y2 - y1)^2 (F + H) (G + H') for any two points of the curve; each side is, up to
      the unit M, the product of both squares with one constant. */
  lemma SymmetricLaw<G(!new)>(c: Curve, m: ScalarMult.Reading<G>, a: Affine, b: Affine, k: Factors)
    returns (unit: int, r: int)
    requires OnMontgomery(c, m) && IsOnCurve(c, a) && IsOnCurve(c, b) && FactorsOf(c.q, c.d, a, b, k)
    ensures !IsZero(c.q, unit)
    ensures IsZero(c.q, unit * ((k.f + k.h) * (k.g + k.h')) - ((a.y + b.y) * (a.y + b.y)) * r)
    ensures IsZero(c.q, unit * ((k.f - k.h) * (k.g - k.h')) - ((b.y - a.y) * (b.y - a.y)) * r)
  {
    var q, d := c.q, c.d;
    var a1, a2, p := 1 + d * (a.y * a.y), 1 + d * (b.y * b.y), a.y * b.y;
    unit, r := a1 * a2, (1 + d) * (1 + d * (p * p));
    CurveEquation(c, a);
    CurveEquation(c, b);
    DenominatorIsUnit(c, a);
    DenominatorIsUnit(c, b);
    UnitProduct(c, m, a1, a2);
    ProductsOfFactors(q, d, a, b, k);
    HalfOfLaw(q, d, a.x, a.y, b.x, b.y, p, a.x * b.x, unit);
    OtherHalf(q, d, a.x, a.y, b.x, b.y, p, a.x * b.x, unit);
  }

  lemma UnitProduct<G(!new)>(c: Curve, m: ScalarMult.Reading<G>, e: int, f: int)
    requires OnMontgomery(c, m) && !IsZero(c.q, e) && !IsZero(c.q, f)
    ensures !IsZero(c.q, e * f)
  {
    if IsZero(c.q, e * f) {
      Cancel(c, e, f);
    }
  }

  /** The same with y2 negated. */
  lemma OtherHalf(q: int, d: int, x1: int, y1: int, x2: int, y2: int, p: int, x: int, m: int)
    requires q > 0 && p == y1 * y2 && x == x1 * x2
    requires m == (1 + d * (y1 * y1)) * (1 + d * (y2 * y2))
    requires IsZero(q, (x1 * x1) * (1 + d * (y1 * y1)) - (y1 * y1 - 1))
    requires IsZero(q, (x2 * x2) * (1 + d * (y2 * y2)) - (y2 * y2 - 1))
    ensures IsZero(q, m * ((1 - p) * (1 - p) - (x + d * x * p) * (x + d * x * p))
                      - ((y2 - y1) * (y2 - y1)) * ((1 + d) * (1 + d * (p * p))))
  {
    var z := -y2;
    SquareOfNegative(y2, z);
    assert y1 * z == -p && (-p) * (-p) == p * p;
    assert d * x * -p == -(d * x * p);
    assert (y1 + z) * (y1 + z) == (y2 - y1) * (y2 - y1);
    HalfOfLaw(q, d, x1, y1, x2, z, -p, x, m);
  }

  /** u (G - H') = G + H', for the x-coordinate u of a difference. */
  lemma DifferenceIs(q: int, u: int, y0: int, y: int, g: int, h': int)
    requires q > 0 && Eqm(q, u - 1, (u + 1) * y0) && Eqm(q, y, y0) && Eqm(q, y * g, h')
    ensures IsZero(q, u * (g - h') - (g + h'))
  {
    Mul(q, u + 1, u + 1, y, y0);
    Mul(q, u - 1, (u + 1) * y, g, g);
    Mul(q, u + 1, u + 1, y * g, h');
    DifferenceIdentity(u, y, g, h');
    EqmIsZero(q, (u - 1) * g, (u + 1) * h');
  }

  lemma DifferenceIdentity(u: int, y: int, g: int, h': int)
    ensures ((u + 1) * y) * g == (u + 1) * (y * g)
    ensures u * (g - h') - (g + h') == (u - 1) * g - (u + 1) * h'
  {
  }

  /** Then G - H' is a unit. */
  lemma DifferenceUnit(q: int, u: int, g: int, h': int)
    requires q > 0 && q % 2 == 1 && !IsZero(q, g) && IsZero(q, u * (g - h') - (g + h'))
    ensures !IsZero(q, g - h')
  {
    if IsZero(q, g - h') {
      ZeroTimes(q, g - h', u);
      ZeroSum(q, u * (g - h'), u * (g - h') - (g + h'));
      ZeroSum(q, g + h', g - h');
      assert (g + h') + (g - h') == 2 * g;
      Halve(q, g);
    }
  }

  /** What SymmetricLaw gives about the squares S = (y1 + y2)^2 and D = (y2 - y1)^2. */
  lemma CrossedSquares(q: int, unit: int, r: int, s: int, d: int, plus: int, minus: int)
    requires IsPrime(q) && !IsZero(q, unit)
    requires IsZero(q, unit * plus - s * r) && IsZero(q, unit * minus - d * r)
    ensures IsZero(q, s * minus - d * plus)
  {
    ZeroDifference(q, unit * minus - d * r, s, unit * plus - s * r, d);
    assert (unit * minus - d * r) * s - (unit * plus - s * r) * d == unit * (s * minus - d * plus);
    PrimeDivides(q, unit, s * minus - d * plus);
  }

  /** x' (F - H) = z' (F + H) for the pair x' = k S, z' = u k D of the differential addition; l and h are F -+ H, and
      e and e' are G -+ H'. */
  lemma AddedRatio(q: int, u: int, k: int, s: int, d: int, l: int, h: int, e: int, e': int)
    requires IsPrime(q) && !IsZero(q, e) && IsZero(q, u * e - e')
    requires IsZero(q, s * (l * e) - d * (h * e'))
    ensures IsZero(q, (k * s) * l - (u * (k * d)) * h)
  {
    ZeroDifference(q, s * (l * e) - d * (h * e'), k, u * e - e', k * d * h);
    AddedIdentity(u, k, s, d, l, h, e, e');
    PrimeDivides(q, e, (k * s) * l - (u * (k * d)) * h);
  }

  lemma AddedIdentity(u: int, k: int, s: int, d: int, l: int, h: int, e: int, e': int)
    ensures (s * (l * e) - d * (h * e')) * k - (u * e - e') * (k * d * h) == e * ((k * s) * l - (u * (k * d)) * h)
  {
    var kdh, ksl := k * d * h, k * s * l;
    assert (s * (l * e)) * k == e * ksl && (d * (h * e')) * k == e' * kdh;
    assert (u * e - e') * kdh == e * (u * kdh) - e' * kdh;
    assert (k * s) * l == ksl && (u * (k * d)) * h == u * kdh;
  }

  /** From there to the ratio of the pair, for the y of the sum. */
  lemma RatioOfSum(q: int, x: int, z: int, y: int, f: int, h: int)
    requires IsPrime(q) && !IsZero(q, f) && Eqm(q, y * f, h)
    requires IsZero(q, x * (f - h) - z * (f + h))
    ensures IsZero(q, (x - z) - (x + z) * y)
  {
    EqmIsZero(q, y * f, h);
    ZeroTimes(q, y * f - h, x + z);
    ZeroSum(q, x * (f - h) - z * (f + h), (y * f - h) * (x + z));
    assert (x * (f - h) - z * (f + h)) - (y * f - h) * (x + z) == f * ((x - z) - (x + z) * y);
    PrimeDivides(q, f, (x - z) - (x + z) * y);
  }

  /** The pair is not (0, 0): else both squares vanish, and with them one of the units. */
  lemma AddedIsProper<G(!new)>(c: Curve, m: ScalarMult.Reading<G>, u: int, k: int, s: int, d: int, t: Factors,
                               unit: int, r: int)
    requires OnMontgomery(c, m) && !IsZero(c.q, u) && !IsZero(c.q, k) && !IsZero(c.q, t.f)
    requires !IsZero(c.q, t.g - t.h') && !IsZero(c.q, unit) && IsZero(c.q, u * (t.g - t.h') - (t.g + t.h'))
    requires IsZero(c.q, unit * ((t.f + t.h) * (t.g + t.h')) - s * r)
    requires IsZero(c.q, unit * ((t.f - t.h) * (t.g - t.h')) - d * r)
    ensures !(IsZero(c.q, k * s) && IsZero(c.q, u * (k * d)))
  {
    if IsZero(c.q, k * s) && IsZero(c.q, u * (k * d)) {
      SquaresVanish(c, u, k, s, d);
      Vanishes(c, unit, (t.f + t.h) * (t.g + t.h'), s, r);
      Vanishes(c, unit, (t.f - t.h) * (t.g - t.h'), d, r);
      CancelRight(c, t.f - t.h, t.g - t.h');
      NeitherVanishes(c, m, u, t);
    }
  }

  lemma SquaresVanish(c: Curve, u: int, k: int, s: int, d: int)
    requires IsPrime(c.q) && !IsZero(c.q, u) && !IsZero(c.q, k)
    requires IsZero(c.q, k * s) && IsZero(c.q, u * (k * d))
    ensures IsZero(c.q, s) && IsZero(c.q, d)
  {
    Cancel(c, k, s);
    Cancel(c, u, k * d);
    Cancel(c, k, d);
  }

  lemma CancelRight(c: Curve, e: int, f: int)
    requires IsPrime(c.q) && !IsZero(c.q, f) && IsZero(c.q, e * f)
    ensures IsZero(c.q, e)
  {
    assert f * e == e * f;
    Cancel(c, f, e);
  }

  lemma Vanishes(c: Curve, unit: int, e: int, s: int, r: int)
    requires IsPrime(c.q) && !IsZero(c.q, unit) && IsZero(c.q, s) && IsZero(c.q, unit * e - s * r)
    ensures IsZero(c.q, e)
  {
    ZeroTimes(c.q, s, r);
    ZeroSum(c.q, unit * e - s * r, s * r);
    Cancel(c, unit, e);
  }

  lemma NeitherVanishes<G(!new)>(c: Curve, m: ScalarMult.Reading<G>, u: int, t: Factors)
    requires OnMontgomery(c, m) && !IsZero(c.q, u) && !IsZero(c.q, t.f) && !IsZero(c.q, t.g - t.h')
    requires IsZero(c.q, u * (t.g - t.h') - (t.g + t.h')) && IsZero(c.q, t.f - t.h)
    ensures !IsZero(c.q, (t.f + t.h) * (t.g + t.h'))
  {
    var q := c.q;
    if IsZero(q, t.f + t.h) {
      ZeroSum(q, t.f + t.h, t.f - t.h);
      assert (t.f + t.h) + (t.f - t.h) == 2 * t.f;
      Halve(q, t.f);
    }
    if IsZero(q, t.g + t.h') {
      ZeroSum(q, u * (t.g - t.h') - (t.g + t.h'), t.g + t.h');
      UnitProduct(c, m, u, t.g - t.h');
    }
    if !IsZero(q, t.f + t.h) && !IsZero(q, t.g + t.h') {
      UnitProduct(c, m, t.f + t.h, t.g + t.h');
    }
  }

  /** The point that the difference of two points is, in the terms of the law. */
  lemma DifferencePoint<G(!new)>(c: Curve, m: ScalarMult.Reading<G>, a: Affine, b: Affine, k: Factors, p: G)
    returns (e: Affine)
    requires OnMontgomery(c, m) && IsOnCurve(c, a) && IsOnCurve(c, b) && FactorsOf(c.q, c.d, a, b, k)
    requires Value(c, m, b) == m.group.op(Value(c, m, a), p)
    ensures IsOnCurve(c, e) && Value(c, m, e) == p && Eqm(c.q, e.y * k.g, k.h')
  {
    var n := Negated(a);
    NegatedOnCurve(c, a);
    NegatedIsInverse(c, m, a);
    e := SumOfAffine(c, m, b, n);
    TakenOff(m.group, Value(c, m, a), p, Value(c, m, n));
    DeltaOfDifference(c.d, a, b);
  }

  lemma TakenOff<G(!new)>(g: Group<G>, x: G, p: G, n: G)
    requires Commutative(g) && g.op(x, n) == g.zero
    ensures g.op(g.op(x, p), n) == p
  {
    assert g.Commutes(x, p) && g.Associates(p, x, n) && g.HasUnit(p);
  }

  lemma DeltaOfDifference(d: int, a: Affine, b: Affine)
    ensures var n := Negated(a); var p, x := a.y * b.y, a.x * b.x;
            && 1 - d * ((b.x * b.y) * (n.x * n.y)) == 1 + d * x * p
            && b.y * n.y + b.x * n.x == p - x
    ensures d * ((a.x * a.y) * (b.x * b.y)) == d * (a.x * b.x) * (a.y * b.y)
  {
    var p, x := a.y * b.y, a.x * b.x;
    Rearranged(b.x, b.y, -a.x, a.y);
    Rearranged(a.x, a.y, b.x, b.y);
    assert b.x * -a.x == -x && b.y * a.y == p;
    assert (-x) * p == -(x * p) && d * (x * p) == d * x * p;
  }

  /** The pair of a differential addition stands for the sum. */
  lemma AddingLaw<G(!new)>(c: Curve, m: ScalarMult.Reading<G>, u: int, p: G, r: Pair, s: Pair, g: G)
    requires OnMontgomery(c, m) && u % c.q != 0
    requires IsX(c, m, Pair(u, 1), p) && IsX(c, m, r, g) && IsX(c, m, s, m.group.op(g, p))
    ensures IsX(c, m, DAdd(c.q, u, r, s), m.group.op(m.group.op(g, g), p))
  {
    var a0 :| Stands(c, m, Pair(u, 1), p, a0);
    var a :| Stands(c, m, r, g, a);
    var b :| Stands(c, m, s, m.group.op(g, p), b);
    var e := SumOfAffine(c, m, a, b);
    var x, y := a.x * b.x, a.y * b.y;
    var k := Factors(1 - c.d * x * y, y + x, 1 + c.d * x * y, y - x);
    var e0 := DifferencePoint(c, m, a, b, k, p);
    DeltaOfDifference(c.d, a, b);
    SameY(c, m, e0, a0);
    AddedPair(c, m, u, r, s, a, b, k, e.y, a0.y, e0.y);
    assert m.group.Associates(g, g, p);
    assert Stands(c, m, DAdd(c.q, u, r, s), m.group.op(m.group.op(g, g), p), e);
  }

  lemma AddedPair<G(!new)>(c: Curve, m: ScalarMult.Reading<G>, u: int, r: Pair, s: Pair, a: Affine, b: Affine,
                           k: Factors, y: int, y0: int, yd: int)
    requires OnMontgomery(c, m) && !IsZero(c.q, u) && IsOnCurve(c, a) && IsOnCurve(c, b) && FactorsOf(c.q, c.d, a, b, k)
    requires Eqm(c.q, r.x - r.z, (r.x + r.z) * a.y) && !(IsZero(c.q, r.x) && IsZero(c.q, r.z))
    requires Eqm(c.q, s.x - s.z, (s.x + s.z) * b.y) && !(IsZero(c.q, s.x) && IsZero(c.q, s.z))
    requires !IsZero(c.q, k.f) && !IsZero(c.q, k.g) && Eqm(c.q, y * k.f, k.h)
    requires Eqm(c.q, yd * k.g, k.h') && Eqm(c.q, yd, y0) && Eqm(c.q, u - 1, (u + 1) * y0)
    ensures var t := DAdd(c.q, u, r, s);
            Eqm(c.q, t.x - t.z, (t.x + t.z) * y) && !(IsZero(c.q, t.x) && IsZero(c.q, t.z))
  {
    var w := (r.x + r.z) * (s.x + s.z);
    var (plus, minus) := ((a.y + b.y) * (a.y + b.y), (b.y - a.y) * (b.y - a.y));
    SumIsUnit(c.q, r, a.y);
    SumIsUnit(c.q, s, b.y);
    UnitProduct(c, m, r.x + r.z, s.x + s.z);
    UnitProduct(c, m, w, w);
    DAddForm(c.q, u, r, s, a.y, b.y, w * w);
    DifferenceIs(c.q, u, y0, yd, k.g, k.h');
    DifferenceUnit(c.q, u, k.g, k.h');
    var unit, q := SymmetricLaw(c, m, a, b, k);
    AddedCoordinates(c, m, u, w * w, plus, minus, k, unit, q, y, DAdd(c.q, u, r, s));
  }

  lemma AddedCoordinates<G(!new)>(c: Curve, m: ScalarMult.Reading<G>, u: int, k: int, s: int, d: int, t: Factors,
                                  unit: int, r: int, y: int, sum: Pair)
    requires OnMontgomery(c, m) && !IsZero(c.q, u) && !IsZero(c.q, k) && !IsZero(c.q, t.f)
    requires !IsZero(c.q, t.g - t.h') && !IsZero(c.q, unit) && IsZero(c.q, u * (t.g - t.h') - (t.g + t.h'))
    requires IsZero(c.q, unit * ((t.f + t.h) * (t.g + t.h')) - s * r)
    requires IsZero(c.q, unit * ((t.f - t.h) * (t.g - t.h')) - d * r)
    requires Eqm(c.q, y * t.f, t.h) && Eqm(c.q, sum.x, k * s) && Eqm(c.q, sum.z, u * (k * d))
    ensures Eqm(c.q, sum.x - sum.z, (sum.x + sum.z) * y) && !(IsZero(c.q, sum.x) && IsZero(c.q, sum.z))
  {
    var x, z := k * s, u * (k * d);
    AddedIsProper(c, m, u, k, s, d, t, unit, r);
    CrossedSquares(c.q, unit, r, s, d, (t.f + t.h) * (t.g + t.h'), (t.f - t.h) * (t.g - t.h'));
    AddedRatio(c.q, u, k, s, d, t.f - t.h, t.f + t.h, t.g - t.h', t.g + t.h');
    RatioOfSum(c.q, x, z, y, t.f, t.h);
    assert x == 1 * x && z == 1 * z;
    RatioOfPair(c.q, sum, 1, x, z, y);
  }

  // ---- the laws of the ladder ----

  /** Two pairs for one element have the same x-coordinate x / z. */
  lemma SameCoordinate<G(!new)>(c: Curve, m: ScalarMult.Reading<G>, r: Pair, s: Pair, g: G)
    requires OnMontgomery(c, m) && IsX(c, m, r, g) && IsX(c, m, s, g)
    ensures AffineX(c, r) == AffineX(c, s)
  {
    var a :| Stands(c, m, r, g, a);
    var b :| Stands(c, m, s, g, b);
    SameY(c, m, a, b);
    CrossRatio(c.q, r, s, a.y, b.y);
    SameQuotient(c, r, s);
  }

  lemma CrossRatio(q: int, r: Pair, s: Pair, y: int, y': int)
    requires q > 0 && q % 2 == 1 && Eqm(q, y, y')
    requires Eqm(q, r.x - r.z, (r.x + r.z) * y) && Eqm(q, s.x - s.z, (s.x + s.z) * y')
    ensures IsZero(q, r.x * s.z - s.x * r.z)
  {
    var (e, f) := (r.x + r.z, s.x + s.z);
    Mul(q, r.x - r.z, e * y, f, f);
    Mul(q, s.x - s.z, f * y', e, e);
    Mul(q, e * f, e * f, y, y');
    assert (e * y) * f == (e * f) * y && (f * y') * e == (e * f) * y';
    EqmIsZero(q, (s.x - s.z) * e, (r.x - r.z) * f);
    CrossIdentity(r, s);
    ZeroNegated(q, (s.x - s.z) * e - (r.x - r.z) * f);
    Halve(q, r.x * s.z - s.x * r.z);
  }

  lemma CrossIdentity(r: Pair, s: Pair)
    ensures -((s.x - s.z) * (r.x + r.z) - (r.x - r.z) * (s.x + s.z)) == 2 * (r.x * s.z - s.x * r.z)
  {
  }

  lemma SameQuotient(c: Curve, r: Pair, s: Pair)
    requires IsPrime(c.q)
    requires IsZero(c.q, r.x * s.z - s.x * r.z)
    requires !(IsZero(c.q, r.x) && IsZero(c.q, r.z)) && !(IsZero(c.q, s.x) && IsZero(c.q, s.z))
    ensures AffineX(c, r) == AffineX(c, s)
  {
    if IsZero(c.q, r.z) {
      ZeroTimes(c.q, r.z, s.x);
      ZeroSum(c.q, r.x * s.z - s.x * r.z, s.x * r.z);
      Cancel(c, r.x, s.z);
      InfiniteIsZero(c, r);
      InfiniteIsZero(c, s);
    } else {
      if IsZero(c.q, s.z) {
        ZeroTimes(c.q, s.z, r.x);
        ZeroSum(c.q, r.x * s.z - s.x * r.z, r.x * s.z);
        ZeroNegated(c.q, s.x * r.z);
        Cancel(c, s.x, r.z);
      }
      InvInverts(c, r.z);
      InvInverts(c, s.z);
      QuotientsAgree(c.q, r, s, Inv(c, r.z), Inv(c, s.z));
    }
  }

  lemma QuotientsAgree(q: int, r: Pair, s: Pair, i: int, j: int)
    requires q > 1 && (r.z * i) % q == 1 && (s.z * j) % q == 1 && IsZero(q, r.x * s.z - s.x * r.z)
    ensures (r.x * i) % q == (s.x * j) % q
  {
    DivModUnique(1, q, 0, 1);
    Mul(q, s.z * j, 1, r.x * i, r.x * i);
    Mul(q, r.z * i, 1, s.x * j, s.x * j);
    EqmIsZero(q, r.x * s.z, s.x * r.z);
    Mul(q, r.x * s.z, s.x * r.z, i * j, i * j);
    Rearranged(s.z, j, r.x, i);
    Rearranged(r.z, i, s.x, j);
    Rearranged(r.x, s.z, i, j);
    Rearranged(s.x, r.z, i, j);
    FourFactors(r, s, i, j);
  }

  lemma FourFactors(r: Pair, s: Pair, i: int, j: int)
    ensures (s.z * j) * (r.x * i) == (r.x * s.z) * (i * j) && (r.z * i) * (s.x * j) == (s.x * r.z) * (i * j)
  {
  }

  /** Inv of a multiple of q is 0, as it is of 0 itself. */
  lemma InfiniteIsZero(c: Curve, r: Pair)
    requires IsZero(c.q, r.z)
    ensures AffineX(c, r) == 0
  {
    PowOfMultiple(c.q, r.z, c.q - 2);
    TimesZero(c.q, 0, r.x);
  }

  lemma PowOfMultiple(q: int, z: int, e: nat)
    requires q > 0 && IsZero(q, z) && e > 0
    ensures Pow(z, e) % q == 0
  {
    ZeroTimes(q, z, Pow(z, e - 1));
  }

  ghost function XCoordinate<G(!new)>(c: Curve, m: ScalarMult.Reading<G>, g: G): int {
    if exists r :: IsX(c, m, r, g) then var r :| IsX(c, m, r, g); AffineX(c, r) else 0
  }

  /** The reading of pairs that the reading of Edwards points gives. */
  ghost function XOf<G(!new)>(c: Curve, m: ScalarMult.Reading<G>): XReading<G> {
    XReading(m.group, (r, g) => IsX(c, m, r, g), g => XCoordinate(c, m, g))
  }

  lemma ZeroStands<G(!new)>(c: Curve, m: ScalarMult.Reading<G>)
    requires OnMontgomery(c, m)
    ensures IsX(c, m, Pair(1, 0), m.group.zero)
  {
    var a := Affine(0, 1);
    DivModUnique(1, c.q, 0, 1);
    DivModUnique(0, c.q, 0, 0);
    ZeroPoint(c, m, a);
    assert Stands(c, m, Pair(1, 0), m.group.zero, a);
  }

  /** The point with u = 0 has y = -1 and so x = 0: it is its own negation. */
  lemma ZeroDoublesLaw<G(!new)>(c: Curve, m: ScalarMult.Reading<G>, u: int, p: G)
    requires OnMontgomery(c, m) && IsX(c, m, Pair(u, 1), p) && u % c.q == 0
    ensures m.group.op(p, p) == m.group.zero
  {
    var a :| Stands(c, m, Pair(u, 1), p, a);
    OrderTwo(c, m, a, u);
    var n := Negated(a);
    NegatedIsInverse(c, m, a);
    ZeroNegated(c.q, a.x);
    assert AffToExt(c, n) == AffToExt(c, a) by {
      ZeroTimes(c.q, a.x, a.y);
      ZeroTimes(c.q, n.x, n.y);
    }
  }

  lemma OrderTwo<G(!new)>(c: Curve, m: ScalarMult.Reading<G>, a: Affine, u: int)
    requires OnMontgomery(c, m) && IsOnCurve(c, a) && IsZero(c.q, u) && Eqm(c.q, u - 1, (u + 1) * a.y)
    ensures IsZero(c.q, a.x)
  {
    var q, y := c.q, a.y;
    EqmIsZero(q, u - 1, (u + 1) * y);
    OrderTwoIdentity(u, y);
    ZeroShift(q, (u - 1) - (u + 1) * y, -(1 + y), u, 1 - y);
    ZeroNegated(q, 1 + y);
    XIsZero(c, m, a, 1 + y, y - 1);
  }

  lemma OrderTwoIdentity(u: int, y: int)
    ensures (u - 1) - (u + 1) * y == -(1 + y) + u * (1 - y)
    ensures (1 + y) * (y - 1) == y * y - 1
  {
  }

  /** On the curve y^2 = 1 only with x = 0. */
  lemma XIsZero<G(!new)>(c: Curve, m: ScalarMult.Reading<G>, a: Affine, e: int, f: int)
    requires OnMontgomery(c, m) && IsOnCurve(c, a) && IsZero(c.q, e) && e * f == a.y * a.y - 1
    ensures IsZero(c.q, a.x)
  {
    var q, xx, unit := c.q, a.x * a.x, 1 + c.d * (a.y * a.y);
    ZeroTimes(q, e, f);
    CurveEquation(c, a);
    DenominatorIsUnit(c, a);
    ZeroSum(q, xx * unit - (a.y * a.y - 1), e * f);
    CancelRight(c, xx, unit);
    if !IsZero(q, a.x) {
      Cancel(c, a.x, a.x);
    }
  }

  /** All the laws that the ladder needs, from the Edwards formulas. */
  lemma LawsHold<G(!new)>(c: Curve, m: ScalarMult.Reading<G>)
    requires OnMontgomery(c, m)
    ensures XOnlyLaws(c, XOf(c, m))
  {
    var x := XOf(c, m);
    ZeroStands(c, m);
    forall r, g ensures x.Doubles(c.q, r, g) && x.Divides(c, r, g) {
      if IsX(c, m, r, g) {
        DoublingLaw(c, m, r, g);
        CoordinateOf(c, m, r, g);
      }
    }
    forall u, p, r, s, g ensures x.AddsWithDifference(c.q, u, p, r, s, g) {
      if u % c.q != 0 && IsX(c, m, Pair(u, 1), p) && IsX(c, m, r, g) && IsX(c, m, s, m.group.op(g, p)) {
        AddingLaw(c, m, u, p, r, s, g);
      }
    }
    forall u, p ensures x.ZeroDoubles(c.q, u, p) {
      if u % c.q == 0 && IsX(c, m, Pair(u, 1), p) {
        ZeroDoublesLaw(c, m, u, p);
      }
    }
  }

  // ---- public keys ----

  /** The u that is computed from an encoded point stands for that point, unless it is zero. */
  lemma PublicKeyStands<G(!new)>(c: Curve, m: ScalarMult.Reading<G>, p: Ext)
    requires OnMontgomery(c, m) && m.points(p) && m.value(p) != m.group.zero
    ensures IsX(c, m, Pair(UCoordinate(c, PointBytes(c, p)), 1), m.value(p))
  {
    var a := ExtToAff(c, p);
    AffineForm(c, m, p);
    EncodesY(a);
    NotIdentity(c, m, a);
    var u := UCoordinate(c, PointBytes(c, p));
    InvInverts(c, (1 - a.y) % c.q);
    UIsRatio(c.q, a.y, Inv(c, (1 - a.y) % c.q), u);
    DivModUnique(1, c.q, 0, 1);
    assert Stands(c, m, Pair(u, 1), m.value(p), a);
  }

  lemma NotIdentity<G(!new)>(c: Curve, m: ScalarMult.Reading<G>, a: Affine)
    requires OnMontgomery(c, m) && IsOnCurve(c, a) && Value(c, m, a) != m.group.zero
    ensures !IsZero(c.q, (1 - a.y) % c.q)
  {
    Reduced(c.q, 1 - a.y);
    if IsZero(c.q, 1 - a.y) {
      ZeroNegated(c.q, 1 - a.y);
      XIsZero(c, m, a, a.y - 1, a.y + 1);
      ZeroPoint(c, m, a);
    }
  }

  lemma UIsRatio(q: int, y: int, i: int, u: int)
    requires q > 1 && (((1 - y) % q) * i) % q == 1 && u == (((y + 1) % q) * i) % q
    ensures Eqm(q, u - 1, (u + 1) * y)
  {
    DivModUnique(1, q, 0, 1);
    Reduced(q, 1 - y);
    Reduced(q, y + 1);
    Mul(q, (1 - y) % q, 1 - y, i, i);
    Mul(q, (y + 1) % q, y + 1, i, i);
    Reduced(q, ((y + 1) % q) * i);
    Mul(q, u, (y + 1) * i, 1 - y, 1 - y);
    Mul(q, (1 - y) * i, 1, y + 1, y + 1);
    assert ((y + 1) * i) * (1 - y) == ((1 - y) * i) * (y + 1);
    EqmIsZero(q, u * (1 - y), 1 * (y + 1));
    assert (u - 1) - (u + 1) * y == u * (1 - y) - 1 * (y + 1);
    EqmIsZero(q, u - 1, (u + 1) * y);
  }

  /** The x-coordinate of an affine point is u = (1 + y) / (1 - y), and 0 for the point at infinity, which is zero. */
  ghost predicate HasX<G>(c: Curve, m: ScalarMult.Reading<G>, a: Affine, u: int) {
    && 0 <= u < c.q
    && if Value(c, m, a) == m.group.zero then u == 0 else IsZero(c.q, u * (1 - a.y) - (1 + a.y))
  }

  lemma XOfAffine<G(!new)>(c: Curve, m: ScalarMult.Reading<G>, a: Affine)
    requires OnMontgomery(c, m) && IsOnCurve(c, a)
    ensures IsX(c, m, Pair(1 + a.y, 1 - a.y), Value(c, m, a))
    ensures HasX(c, m, a, XCoordinate(c, m, Value(c, m, a)))
  {
    var r, g := Pair(1 + a.y, 1 - a.y), Value(c, m, a);
    NotBothZero(c.q, a.y);
    assert Stands(c, m, r, g, a);
    CoordinateOf(c, m, r, g);
    if g == m.group.zero {
      ZeroStands(c, m);
      CoordinateOf(c, m, Pair(1, 0), g);
      DivModUnique(0, c.q, 0, 0);
      InfiniteIsZero(c, Pair(1, 0));
    } else {
      NotIdentity(c, m, a);
      Reduced(c.q, 1 - a.y);
      InvInverts(c, 1 - a.y);
      QuotientIs(c.q, 1 + a.y, 1 - a.y, Inv(c, 1 - a.y));
    }
  }

  lemma CoordinateOf<G(!new)>(c: Curve, m: ScalarMult.Reading<G>, r: Pair, g: G)
    requires OnMontgomery(c, m) && IsX(c, m, r, g)
    ensures XCoordinate(c, m, g) == AffineX(c, r)
  {
    var s :| IsX(c, m, s, g) && XCoordinate(c, m, g) == AffineX(c, s);
    SameCoordinate(c, m, r, s, g);
  }

  lemma NotBothZero(q: int, y: int)
    requires q > 1 && q % 2 == 1
    ensures !(IsZero(q, 1 + y) && IsZero(q, 1 - y))
    ensures (1 + y) - (1 - y) == ((1 + y) + (1 - y)) * y
  {
    if IsZero(q, 1 + y) && IsZero(q, 1 - y) {
      ZeroSum(q, 1 + y, 1 - y);
      Halve(q, 1);
      DivModUnique(1, q, 0, 1);
    }
  }

  lemma QuotientIs(q: int, x: int, z: int, i: int)
    requires q > 1 && (z * i) % q == 1
    ensures IsZero(q, ((x * i) % q) * z - x)
  {
    Divided(q, z, i, x);
    EqmIsZero(q, x, z * ((x * i) % q));
    ZeroNegated(q, x - z * ((x * i) % q));
    assert ((x * i) % q) * z - x == -(x - z * ((x * i) % q));
  }

  /** The secret shared with the holder of any point but zero spells, in 32 bytes, the x-coordinate of that point times
      the clamped scalar; that multiple is itself an affine point of the curve. */
  lemma SecretOfPoint<G(!new)>(c: Curve, m: ScalarMult.Reading<G>, prv: Data, p: Ext) returns (a: Affine, u: int)
    requires OnMontgomery(c, m) && m.points(p) && m.value(p) != m.group.zero
    ensures IsOnCurve(c, a)
    ensures Value(c, m, a) == NFold(m.group, m.value(p), Clamp(if |prv| <= 32 then prv else prv[..32]))
    ensures HasX(c, m, a, u) && Spells(SharedSecret(c, prv, PointBytes(c, p)), u)
  {
    ScalarIsClamp(prv);
    ScalarMult.TimesReads(c.q, c.d, m, p, Scalar(prv));
    var t := ScalarMult.Times(c.q, c.d, p, Scalar(prv));
    AffineForm(c, m, t);
    a := ExtToAff(c, t);
    u := XCoordinate(c, m, Value(c, m, a));
    XOfAffine(c, m, a);
    LawsHold(c, m);
    PublicKeyStands(c, m, p);
    SecretReads(c, XOf(c, m), prv, PointBytes(c, p), m.value(p));
  }

  /** Section 6.1 of RFC 7748, under the group hypotheses of the signatures: both parties derive the same secret. */
  lemma KeysAgree<G(!new)>(c: Curve, m: ScalarMult.Reading<G>, sha512: Sha512, prvA: Digest, prvB: Digest)
    requires OnMontgomery(c, m) && c.l % 2 == 1 && Pow2(252) < c.l
    requires forall n: nat :: OrderIs(m.group, m.value(c.base), c.l, n)
    ensures SharedSecret(c, prvA, PublicKey(c, sha512, McKey(prvB)))
         == SharedSecret(c, prvB, PublicKey(c, sha512, McKey(prvA)))
  {
    var x, b := XOf(c, m), m.value(c.base);
    LawsHold(c, m);
    forall n: nat ensures MapsBase(c, x, b, n) && OrderIs(x.group, b, c.l, n) {
      MultipleIsElement(c, m, n);
      if NFold(m.group, b, n) != m.group.zero {
        PublicKeyStands(c, m, BaseMult(c, n));
      }
    }
    SecretsAgree(c, x, b, sha512, prvA, prvB);
  }
}
