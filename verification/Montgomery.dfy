/**
 The key exchange on the curve of the signatures. The x-only laws of the ladder, and that a public key maps to the
 x-coordinate of the same multiple of the base point, are derived from the formulas for adding Edwards points and the
 group hypotheses of Ed25519: u = (1 + y) / (1 - y).
 */
module Montgomery {
  import opened Bytes
  import opened Bits
  import opened Modular
  import opened Fermat
  import opened Points
  import opened Ed25519
  import opened X25519
  import Edwards
  import ScalarMult

  // ---- affine points ----

  /** The constant of the curve is -121665/121666. */
  ghost predicate OnMontgomery<G(!new)>(c: Curve, m: ScalarMult.Reading<G>) {
    Assumed(c, m) && IsZero(c.q, 121666 * c.d + 121665)
  }

  // ---- adding affine points ----

  /** What is added to or taken from one in the denominators. */
  function Delta(c: Curve, a: Affine, b: Affine): int { c.d * ((a.x * a.y) * (b.x * b.y)) }

  /** The sum of two affine points, with both denominators units. */
  lemma SumOfAffine<G(!new)>(c: Curve, m: ScalarMult.Reading<G>, a: Affine, b: Affine) returns (e: Affine)
    requires OnMontgomery(c, m) && IsOnCurve(c, a) && IsOnCurve(c, b)
    ensures IsOnCurve(c, e) && Value(c, m, e) == m.group.op(Value(c, m, a), Value(c, m, b))
    ensures !IsZero(c.q, 1 - Delta(c, a, b)) && !IsZero(c.q, 1 + Delta(c, a, b))
    ensures Eqm(c.q, e.x * (1 + Delta(c, a, b)), a.x * b.y + a.y * b.x)
    ensures Eqm(c.q, e.y * (1 - Delta(c, a, b)), a.y * b.y + a.x * b.x)
  {
    var p, r := AffToExt(c, a), AffToExt(c, b);
    var s := Edwards.Add(c.q, c.d, p, r);
    assert m.AddsUp(c.q, c.d, p, r);
    AffineForm(c, m, s);
    e := ExtToAff(c, s);
    AffineSums(c, a, b);
    Edwards.AddForm(c.q, c.d, p, r);
    UnitsOfSum(c, m, s, p.Z * r.Z, c.d * (p.T * r.T), Delta(c, a, b));
    Edwards.AdditionLaw(c.q, c.d, p, r);
    CommonFactor(c, s.X, s.Z, e.x, p.Z * r.Z + c.d * (p.T * r.T), 1 + Delta(c, a, b),
                 p.X * r.Y + p.Y * r.X, a.x * b.y + a.y * b.x);
    CommonFactor(c, s.Y, s.Z, e.y, p.Z * r.Z - c.d * (p.T * r.T), 1 - Delta(c, a, b),
                 p.Y * r.Y + p.X * r.X, a.y * b.y + a.x * b.x);
  }

  /** The sums in the law are, up to reduction, those of the affine coordinates. */
  lemma AffineSums(c: Curve, a: Affine, b: Affine)
    ensures var p, r := AffToExt(c, a), AffToExt(c, b); var t := c.d * (p.T * r.T);
            && Eqm(c.q, t, Delta(c, a, b))
            && Eqm(c.q, p.Z * r.Z + t, 1 + Delta(c, a, b)) && Eqm(c.q, p.Z * r.Z - t, 1 - Delta(c, a, b))
            && Eqm(c.q, p.X * r.Y + p.Y * r.X, a.x * b.y + a.y * b.x)
            && Eqm(c.q, p.Y * r.Y + p.X * r.X, a.y * b.y + a.x * b.x)
  {
    var q, p, r := c.q, AffToExt(c, a), AffToExt(c, b);
    Reduced(q, a.x); Reduced(q, a.y); Reduced(q, b.x); Reduced(q, b.y);
    Reduced(q, a.x * a.y); Reduced(q, b.x * b.y);
    Mul(q, p.T, a.x * a.y, r.T, b.x * b.y);
    Mul(q, c.d, c.d, p.T * r.T, (a.x * a.y) * (b.x * b.y));
    Add(q, 1, 1, c.d * (p.T * r.T), Delta(c, a, b));
    Sub(q, 1, 1, c.d * (p.T * r.T), Delta(c, a, b));
    Mul(q, p.X, a.x, r.Y, b.y); Mul(q, p.Y, a.y, r.X, b.x);
    Mul(q, p.Y, a.y, r.Y, b.y); Mul(q, p.X, a.x, r.X, b.x);
    Add(q, p.X * r.Y, a.x * b.y, p.Y * r.X, a.y * b.x);
    Add(q, p.Y * r.Y, a.y * b.y, p.X * r.X, a.x * b.x);
  }

  /** Z of a sum is four times the product of the denominators. */
  lemma UnitsOfSum<G(!new)>(c: Curve, m: ScalarMult.Reading<G>, s: Ext, z: int, t: int, delta: int)
    requires OnMontgomery(c, m) && m.points(s)
    requires Eqm(c.q, s.Z, 1 * ((2 * (z - t)) * (2 * (z + t))))
    requires Eqm(c.q, z + t, 1 + delta) && Eqm(c.q, z - t, 1 - delta)
    ensures !IsZero(c.q, 1 - delta) && !IsZero(c.q, 1 + delta)
  {
    var f, g := 2 * (z - t), 2 * (z + t);
    if IsZero(c.q, 1 - delta) {
      ZeroTimes(c.q, z - t, 2);
      ZeroTimes(c.q, f, g);
    }
    if IsZero(c.q, 1 + delta) {
      ZeroTimes(c.q, z + t, 2);
      ZeroTimes(c.q, g, f);
    }
  }

  /** From x f = z n and x = z e: e f = n, all up to congruence. */
  lemma CommonFactor(c: Curve, x: int, z: int, e: int, f: int, f': int, n: int, n': int)
    requires IsPrime(c.q) && !IsZero(c.q, z)
    requires Eqm(c.q, x, z * e) && Eqm(c.q, x * f, z * n) && Eqm(c.q, f, f') && Eqm(c.q, n, n')
    ensures Eqm(c.q, e * f', n')
  {
    var q := c.q;
    Mul(q, x, z * e, f, f');
    Mul(q, z, z, n, n');
    EqmIsZero(q, (z * e) * f', z * n');
    assert (z * e) * f' - z * n' == z * (e * f' - n');
    Cancel(c, z, e * f' - n');
    EqmIsZero(q, e * f', n');
  }

  function Negated(a: Affine): Affine { Affine(-a.x, a.y) }

  lemma NegatedOnCurve(c: Curve, a: Affine)
    requires IsOnCurve(c, a)
    ensures IsOnCurve(c, Negated(a))
  {
    CurveEquation(c, a);
    CurveEquation(c, Negated(a));
    SquareOfNegative(a.x, -a.x);
  }

  lemma SquareOfNegative(y: int, z: int)
    requires z == -y
    ensures z * z == y * y
  {
  }

  /** An affine point with x = 0 and y = 1 stands for zero. */
  lemma ZeroPoint<G(!new)>(c: Curve, m: ScalarMult.Reading<G>, a: Affine)
    requires OnMontgomery(c, m) && IsZero(c.q, a.x) && IsZero(c.q, a.y - 1)
    ensures Value(c, m, a) == m.group.zero
  {
    IdentityOfAffine(c, a);
  }

  lemma IdentityOfAffine(c: Curve, a: Affine)
    requires IsZero(c.q, a.x) && IsZero(c.q, a.y - 1)
    ensures AffToExt(c, a) == Edwards.IDENT
  {
    EqmIsZero(c.q, a.y, 1);
    DivModUnique(1, c.q, 0, 1);
    ZeroTimes(c.q, a.x, a.y);
  }

  /** A point and its negation add up to zero. */
  lemma NegatedIsInverse<G(!new)>(c: Curve, m: ScalarMult.Reading<G>, a: Affine)
    requires OnMontgomery(c, m) && IsOnCurve(c, a)
    ensures m.group.op(Value(c, m, a), Value(c, m, Negated(a))) == m.group.zero
  {
    NegatedOnCurve(c, a);
    var e := SumOfAffine(c, m, a, Negated(a));
    var delta := Delta(c, a, Negated(a));
    CurveEquation(c, a);
    NegatedSum(c.d, a.x, a.y, -a.x);
    DivModUnique(0, c.q, 0, 0);
    SumIsIdentity(c, e, 1 + delta, 1 - delta, a.x * a.y + a.y * -a.x, a.y * a.y + a.x * -a.x,
                  (a.x * a.x) * (1 + c.d * (a.y * a.y)) - (a.y * a.y - 1));
    ZeroPoint(c, m, e);
  }

  lemma SumIsIdentity(c: Curve, e: Affine, g: int, f: int, u: int, v: int, eq: int)
    requires IsPrime(c.q) && !IsZero(c.q, g) && !IsZero(c.q, f)
    requires IsZero(c.q, u) && IsZero(c.q, eq) && f == v + eq
    requires Eqm(c.q, e.x * g, u) && Eqm(c.q, e.y * f, v)
    ensures IsZero(c.q, e.x) && IsZero(c.q, e.y - 1)
  {
    XVanishes(c, e.x, g, u);
    YIsOne(c, e.y, f, v, eq);
  }

  lemma XVanishes(c: Curve, x: int, f: int, n: int)
    requires IsPrime(c.q) && !IsZero(c.q, f) && IsZero(c.q, n) && Eqm(c.q, x * f, n)
    ensures IsZero(c.q, x)
  {
    assert f * x == x * f;
    Cancel(c, f, x);
  }

  lemma YIsOne(c: Curve, y: int, f: int, n: int, eq: int)
    requires IsPrime(c.q) && !IsZero(c.q, f) && IsZero(c.q, eq) && Eqm(c.q, y * f, n) && f == n + eq
    ensures IsZero(c.q, y - 1)
  {
    EqmIsZero(c.q, y * f, n);
    ZeroSum(c.q, y * f - n, eq);
    assert y * f - n - eq == f * (y - 1);
    Cancel(c, f, y - 1);
  }

  lemma NegatedSum(d: int, x: int, y: int, x': int)
    requires x' == -x
    ensures x * y + y * x' == 0
    ensures 1 - d * ((x * y) * (x' * y))
         == (y * y + x * x') + ((x * x) * (1 + d * (y * y)) - (y * y - 1))
  {
    assert y * x' == -(x * y);
    assert d * ((x * y) * (x' * y)) == -((x * x) * (d * (y * y)));
  }

  // ---- one value, one y ----

  /** Points of the same value have the same y. */
  lemma SameY<G(!new)>(c: Curve, m: ScalarMult.Reading<G>, a: Affine, b: Affine)
    requires OnMontgomery(c, m) && IsOnCurve(c, a) && IsOnCurve(c, b) && Value(c, m, a) == Value(c, m, b)
    ensures Eqm(c.q, a.y, b.y)
  {
    var p, r := AffToExt(c, a), AffToExt(c, b);
    SameBytes(c, m, p, r);
    AffineOfAffine(c, a);
    AffineOfAffine(c, b);
    EncodesY(ExtToAff(c, p));
    EncodesY(ExtToAff(c, r));
  }

  lemma {:induction false} PowOfOne(e: nat)
    ensures Pow(1, e) == 1
  {
    if e > 0 {
      PowOfOne(e - 1);
    }
  }

  lemma AffineOfAffine(c: Curve, a: Affine)
    ensures ExtToAff(c, AffToExt(c, a)).y == a.y % c.q
  {
    InvOfOne(c);
    TimesOne(a.y % c.q, c.q);
  }

  lemma InvOfOne(c: Curve)
    ensures Inv(c, 1) == 1
  {
    PowOfOne(c.q - 2);
    DivModUnique(1, c.q, 0, 1);
  }

  lemma TimesOne(y: int, q: int)
    requires 0 <= y < q
    ensures (y * 1) % q == y
  {
  }

  /** The low 255 bits of an encoded point are y. */
  lemma EncodesY(a: Affine)
    requires 0 <= a.y < Pow2(255)
    ensures ClearBit(FromLittle(EncodePoint(a)), 255) == a.y
  {
    var n := if a.x % 2 == 1 then a.y + Pow2(255) else a.y;
    EncodedNumber(EncodePoint(a), n, a.y, 32, 255);
    TopBitCleared(n, a.y, 255);
  }

  lemma TopBitCleared(n: nat, y: nat, k: nat)
    requires y < Pow2(k) && (n == y || n == y + Pow2(k))
    ensures ClearBit(n, k) == y
  {
    if n == y {
      SmallHasNoBit(y, k);
    } else {
      DivModUnique(n, Pow2(k), 1, y);
    }
  }
}
