/**
 The extended-coordinate arithmetic of meshcore_crypto.py, over any modulus q and any curve constant d.
 Ed25519 fixes q and d; no law below depends on which they are.
 */
module Edwards {
  import opened Modular

  /** (X, Y, Z, T) stands for the affine point (X/Z, Y/Z), with T = XY/Z. */
  datatype Ext = Ext(X: int, Y: int, Z: int, T: int)

  const IDENT := Ext(0, 1, 1, 0)

  function Double(q: int, p: Ext): Ext
    requires q > 0
  {
    var A := (p.X * p.X) % q;
    var B := (p.Y * p.Y) % q;
    var C := (2 * p.Z * p.Z) % q;
    var D := (-A) % q;
    var J := (p.X + p.Y) % q;
    var E := (J * J - A - B) % q;
    var G := (D + B) % q;
    var F := (G - C) % q;
    var H := (D - B) % q;
    Ext((E * F) % q, (G * H) % q, (F * G) % q, (E * H) % q)
  }

  function Add(q: int, d: int, p1: Ext, p2: Ext): Ext
    requires q > 0
  {
    var A := ((p1.Y - p1.X) * (p2.Y - p2.X)) % q;
    var B := ((p1.Y + p1.X) * (p2.Y + p2.X)) % q;
    var C := p1.T * (2 * d) * p2.T % q;
    var D := p1.Z * 2 * p2.Z % q;
    var E := (B - A) % q;
    var F := (D - C) % q;
    var G := (D + C) % q;
    var H := (B + A) % q;
    Ext((E * F) % q, (G * H) % q, (F * G) % q, (E * H) % q)
  }

  /** The curve equation -x^2 + y^2 = 1 + d x^2 y^2, and xy = t, with denominators cleared. */
  ghost predicate OnCurve(q: int, d: int, p: Ext)
    requires q > 0
  {
    && Eqm(q, p.X * p.Y, p.Z * p.T)
    && Eqm(q, p.Y * p.Y - p.X * p.X, p.Z * p.Z + d * (p.T * p.T))
  }

  /** p is r with every coordinate multiplied by c. */
  ghost predicate Scaled(q: int, c: int, p: Ext, r: Ext)
    requires q > 0
  {
    && Eqm(q, p.X, c * r.X) && Eqm(q, p.Y, c * r.Y)
    && Eqm(q, p.Z, c * r.Z) && Eqm(q, p.T, c * r.T)
  }

  // The products E*F, G*H, F*G, E*H are shared by both formulas: what is needed of them is needed once.

  ghost function Product(E: int, F: int, G: int, H: int): Ext {
    Ext(E * F, G * H, F * G, E * H)
  }

  lemma ReducedProduct(q: int, E: int, F: int, G: int, H: int, e: int, f: int, g: int, h: int)
    requires q > 0
    requires Eqm(q, E, e) && Eqm(q, F, f) && Eqm(q, G, g) && Eqm(q, H, h)
    ensures Scaled(q, 1, Ext((E * F) % q, (G * H) % q, (F * G) % q, (E * H) % q), Product(e, f, g, h))
  {
    Mul(q, E, e, F, f); Reduced(q, E * F);
    Mul(q, G, g, H, h); Reduced(q, G * H);
    Mul(q, F, f, G, g); Reduced(q, F * G);
    Mul(q, E, e, H, h); Reduced(q, E * H);
  }

  /** The unreduced forms of the four intermediate values of Add. */
  lemma AddForm(q: int, d: int, p: Ext, r: Ext)
    requires q > 0
    ensures var u := p.X * r.Y + p.Y * r.X; var v := p.Y * r.Y + p.X * r.X;
            var z := p.Z * r.Z; var t := d * (p.T * r.T);
            Scaled(q, 1, Add(q, d, p, r), Product(2 * u, 2 * (z - t), 2 * (z + t), 2 * v))
  {
    var u := p.X * r.Y + p.Y * r.X; var v := p.Y * r.Y + p.X * r.X;
    var z := p.Z * r.Z; var t := d * (p.T * r.T);
    var a := (p.Y - p.X) * (r.Y - r.X);
    var b := (p.Y + p.X) * (r.Y + r.X);
    var c := p.T * (2 * d) * r.T;
    var dd := p.Z * 2 * r.Z;
    assert b - a == 2 * u && b + a == 2 * v;
    assert c == 2 * t && dd == 2 * z;
    Reduced(q, a); Reduced(q, b); Reduced(q, c); Reduced(q, dd);
    Sub(q, b % q, b, a % q, a); Reduced(q, b % q - a % q);
    Sub(q, dd % q, dd, c % q, c); Reduced(q, dd % q - c % q);
    Modular.Add(q, dd % q, dd, c % q, c); Reduced(q, dd % q + c % q);
    Modular.Add(q, b % q, b, a % q, a); Reduced(q, b % q + a % q);
    ReducedProduct(q, (b % q - a % q) % q, (dd % q - c % q) % q, (dd % q + c % q) % q, (b % q + a % q) % q,
                   2 * u, 2 * (z - t), 2 * (z + t), 2 * v);
  }

  lemma DoubleCross(q: int, x: int, y: int)
    requires q > 0
    ensures var J := (x + y) % q; var A := (x * x) % q; var B := (y * y) % q;
            Eqm(q, (J * J - A - B) % q, 2 * (x * y))
  {
    var a, b, j := x * x, y * y, x + y;
    var J := j % q;
    Reduced(q, a); Reduced(q, b); Reduced(q, j);
    Mul(q, J, j, J, j); Sub(q, J * J, j * j, a % q, a); Sub(q, J * J - a % q, j * j - a, b % q, b);
    Reduced(q, J * J - a % q - b % q);
    assert j * j - a - b == 2 * (x * y);
  }

  lemma DoubleSums(q: int, a: int, b: int, c: int)
    requires q > 0
    ensures var A, B, C := a % q, b % q, c % q; var D := (-A) % q; var G := (D + B) % q;
            Eqm(q, G, b - a) && Eqm(q, (G - C) % q, b - a - c) && Eqm(q, (D - B) % q, -(a + b))
  {
    var A, B, C, D := a % q, b % q, c % q, (-(a % q)) % q;
    Reduced(q, a); Reduced(q, b); Reduced(q, c);
    Sub(q, 0, 0, A, a); Reduced(q, -A);
    Modular.Add(q, D, -a, B, b); Reduced(q, D + B);
    var G := (D + B) % q;
    Sub(q, G, b - a, C, c); Reduced(q, G - C);
    Sub(q, D, -a, B, b); Reduced(q, D - B);
  }

  lemma DoubleForm(q: int, p: Ext)
    requires q > 0
    ensures var g := p.Y * p.Y - p.X * p.X;
            Scaled(q, 1, Double(q, p),
                   Product(2 * (p.X * p.Y), g - 2 * (p.Z * p.Z), g, -(p.X * p.X + p.Y * p.Y)))
  {
    var a, b, c := p.X * p.X, p.Y * p.Y, 2 * p.Z * p.Z;
    var g := b - a;
    assert c == 2 * (p.Z * p.Z);
    DoubleSums(q, a, b, c);
    DoubleCross(q, p.X, p.Y);
    var A, B, C, J := a % q, b % q, c % q, (p.X + p.Y) % q;
    var D := (-A) % q;
    var G := (D + B) % q;
    ReducedProduct(q, (J * J - A - B) % q, (G - C) % q, G, (D - B) % q,
                   2 * (p.X * p.Y), g - 2 * (p.Z * p.Z), g, -(a + b));
  }

  // ---- the curve equation ----

  /** Congruent, or scaled, coordinates satisfy the same equations. */
  lemma ScaledOnCurve(q: int, d: int, c: int, p: Ext, r: Ext)
    requires q > 0 && Scaled(q, c, p, r) && OnCurve(q, d, r)
    ensures OnCurve(q, d, p)
  {
    var cc := c * c;
    ScaledProduct(q, c, p.X, r.X, p.Y, r.Y);
    ScaledProduct(q, c, p.Z, r.Z, p.T, r.T);
    Mul(q, cc, cc, r.X * r.Y, r.Z * r.T);
    ScaledProduct(q, c, p.Y, r.Y, p.Y, r.Y);
    ScaledProduct(q, c, p.X, r.X, p.X, r.X);
    ScaledProduct(q, c, p.Z, r.Z, p.Z, r.Z);
    ScaledProduct(q, c, p.T, r.T, p.T, r.T);
    Sub(q, p.Y * p.Y, cc * (r.Y * r.Y), p.X * p.X, cc * (r.X * r.X));
    Mul(q, d, d, p.T * p.T, cc * (r.T * r.T));
    Modular.Add(q, p.Z * p.Z, cc * (r.Z * r.Z), d * (p.T * p.T), d * (cc * (r.T * r.T)));
    Mul(q, cc, cc, r.Y * r.Y - r.X * r.X, r.Z * r.Z + d * (r.T * r.T));
    Distribute(cc, d, r.Y * r.Y, r.X * r.X, r.Z * r.Z, r.T * r.T);
  }

  lemma ScaledProduct(q: int, c: int, a: int, a': int, b: int, b': int)
    requires q > 0 && Eqm(q, a, c * a') && Eqm(q, b, c * b')
    ensures Eqm(q, a * b, c * c * (a' * b'))
  {
    Mul(q, a, c * a', b, c * b');
    assert (c * a') * (c * b') == c * c * (a' * b');
  }

  lemma Distribute(c: int, d: int, y: int, x: int, z: int, t: int)
    ensures c * (y - x) == c * y - c * x && c * (z + d * t) == c * z + d * (c * t)
  {
  }

  /** On Product(e, f, g, h) the first equation is an identity; the second is this one. */
  lemma ProductOnCurve(q: int, d: int, e: int, f: int, g: int, h: int)
    requires q > 0
    requires Eqm(q, (g * h) * (g * h) - (e * f) * (e * f), (f * g) * (f * g) + d * ((e * h) * (e * h)))
    ensures OnCurve(q, d, Product(e, f, g, h))
  {
    assert (e * f) * (g * h) == (f * g) * (e * h);
  }

  /** The four facts about the unreduced sums that the curve equations of both operands give. */
  lemma AddFacts(q: int, d: int, p: Ext, r: Ext, n1: int, m1: int, s1: int, n2: int, m2: int, s2: int)
    requires q > 0 && OnCurve(q, d, p) && OnCurve(q, d, r)
    requires n1 == p.Z * p.Z + d * (p.T * p.T) && m1 == p.Z * p.T && s1 == p.X * p.X + p.Y * p.Y
    requires n2 == r.Z * r.Z + d * (r.T * r.T) && m2 == r.Z * r.T && s2 == r.X * r.X + r.Y * r.Y
    ensures var u := p.X * r.Y + p.Y * r.X; var v := p.Y * r.Y + p.X * r.X;
            && Eqm(q, v * v - u * u, n1 * n2)
            && Eqm(q, u * u + v * v, s1 * s2 + 4 * (m1 * m2))
            && Eqm(q, u * v, m1 * s2 + m2 * s1)
  {
    var u := p.X * r.Y + p.Y * r.X; var v := p.Y * r.Y + p.X * r.X;
    DifferenceIdentity(p.X, p.Y, r.X, r.Y, u, v);
    SumIdentity(p.X, p.Y, r.X, r.Y, u, v);
    ProductIdentity(p.X, p.Y, r.X, r.Y, u, v);
    Mul(q, p.Y * p.Y - p.X * p.X, n1, r.Y * r.Y - r.X * r.X, n2);
    Mul(q, p.X * p.Y, m1, r.X * r.Y, m2);
    Mul(q, 4, 4, (p.X * p.Y) * (r.X * r.Y), m1 * m2);
    Modular.Add(q, s1 * s2, s1 * s2, 4 * ((p.X * p.Y) * (r.X * r.Y)), 4 * (m1 * m2));
    Mul(q, p.X * p.Y, m1, s2, s2);
    Mul(q, r.X * r.Y, m2, s1, s1);
    Modular.Add(q, (p.X * p.Y) * s2, m1 * s2, (r.X * r.Y) * s1, m2 * s1);
  }

  lemma DifferenceIdentity(x1: int, y1: int, x2: int, y2: int, u: int, v: int)
    requires u == x1 * y2 + y1 * x2 && v == y1 * y2 + x1 * x2
    ensures v * v - u * u == (y1 * y1 - x1 * x1) * (y2 * y2 - x2 * x2)
  {
  }

  lemma SumIdentity(x1: int, y1: int, x2: int, y2: int, u: int, v: int)
    requires u == x1 * y2 + y1 * x2 && v == y1 * y2 + x1 * x2
    ensures u * u + v * v == (x1 * x1 + y1 * y1) * (x2 * x2 + y2 * y2) + 4 * ((x1 * y1) * (x2 * y2))
  {
  }

  lemma ProductIdentity(x1: int, y1: int, x2: int, y2: int, u: int, v: int)
    requires u == x1 * y2 + y1 * x2 && v == y1 * y2 + x1 * x2
    ensures u * v == (x1 * y1) * (x2 * x2 + y2 * y2) + (x2 * y2) * (x1 * x1 + y1 * y1)
  {
  }

  /** (x^2 + y^2)^2 in terms of the two quantities the curve equations speak of. */
  lemma SumOfSquares(q: int, d: int, p: Ext, n: int, m: int, s: int)
    requires q > 0 && OnCurve(q, d, p)
    requires n == p.Z * p.Z + d * (p.T * p.T) && m == p.Z * p.T && s == p.X * p.X + p.Y * p.Y
    ensures Eqm(q, s * s, n * n + 4 * (m * m))
  {
    var w := p.Y * p.Y - p.X * p.X;
    var xy := p.X * p.Y;
    assert s * s == w * w + 4 * (xy * xy);
    Mul(q, w, n, w, n);
    Mul(q, xy, m, xy, m);
    Mul(q, 4, 4, xy * xy, m * m);
    Modular.Add(q, w * w, n * n, 4 * (xy * xy), 4 * (m * m));
  }

  /** (m1 s2 + m2 s1)^2 after both squares s1^2 and s2^2 are replaced. */
  lemma CrossSquare(q: int, n1: int, m1: int, s1: int, n2: int, m2: int, s2: int, w: int)
    requires q > 0
    requires Eqm(q, s1 * s1, n1 * n1 + 4 * (m1 * m1)) && Eqm(q, s2 * s2, n2 * n2 + 4 * (m2 * m2))
    requires Eqm(q, w, m1 * s2 + m2 * s1)
    ensures Eqm(q, w * w, m1 * m1 * (n2 * n2) + m2 * m2 * (n1 * n1) + 8 * (m1 * m1 * (m2 * m2))
                          + 2 * (m1 * m2) * (s1 * s2))
  {
    var a := m1 * s2 + m2 * s1;
    var k1, k2 := n1 * n1 + 4 * (m1 * m1), n2 * n2 + 4 * (m2 * m2);
    Mul(q, w, a, w, a);
    assert a * a == m1 * m1 * (s2 * s2) + m2 * m2 * (s1 * s1) + 2 * (m1 * m2) * (s1 * s2);
    Mul(q, m1 * m1, m1 * m1, s2 * s2, k2);
    Mul(q, m2 * m2, m2 * m2, s1 * s1, k1);
    Modular.Add(q, m1 * m1 * (s2 * s2), m1 * m1 * k2, m2 * m2 * (s1 * s1), m2 * m2 * k1);
    Modular.Add(q, m1 * m1 * (s2 * s2) + m2 * m2 * (s1 * s1), m1 * m1 * k2 + m2 * m2 * k1,
                2 * (m1 * m2) * (s1 * s2), 2 * (m1 * m2) * (s1 * s2));
    assert m1 * m1 * k2 + m2 * m2 * k1 == m1 * m1 * (n2 * n2) + m2 * m2 * (n1 * n1) + 8 * (m1 * m1 * (m2 * m2)) by {
      assert m1 * m1 * k2 == m1 * m1 * (n2 * n2) + 4 * (m1 * m1 * (m2 * m2));
      assert m2 * m2 * k1 == m2 * m2 * (n1 * n1) + 4 * (m1 * m1 * (m2 * m2));
    }
  }

  /** With a = Z^2 and b = d T^2 of each operand, what is left of the curve equation is an identity. */
  lemma NormIdentity(a1: int, b1: int, a2: int, b2: int)
    ensures (a1 * a2 + b1 * b2) * ((a1 + b1) * (a2 + b2))
            == (a1 * a2 - b1 * b2) * (a1 * a2 - b1 * b2)
               + (a1 * b1 * ((a2 + b2) * (a2 + b2)) + a2 * b2 * ((a1 + b1) * (a1 + b1)))
  {
    var p, r, s, u := a1 * a2, b1 * b2, a1 * b2, b1 * a2;
    assert (a1 + b1) * (a2 + b2) == p + r + (s + u);
    NormSide(a1, b1, a2, b2);
    NormSide(a2, b2, a1, b1);
    assert p * r == s * u;
    assert (p + r) * (p + r + (s + u)) == (p - r) * (p - r) + 4 * (p * r) + (p + r) * (s + u);
  }

  lemma NormSide(a1: int, b1: int, a2: int, b2: int)
    ensures a1 * b1 * ((a2 + b2) * (a2 + b2))
            == (a1 * a2) * (b1 * a2) + 2 * ((a1 * a2) * (b1 * b2)) + (a1 * b2) * (b1 * b2)
  {
    assert (a2 + b2) * (a2 + b2) == a2 * a2 + 2 * (a2 * b2) + b2 * b2;
  }

  lemma AddCore(q: int, d: int, z: int, t: int, u: int, v: int, n: int, s: int, m: int, k: int)
    requires q > 0
    requires z * t == d * m
    requires Eqm(q, v * v - u * u, n) && Eqm(q, u * u + v * v, s + 4 * m)
    requires Eqm(q, (u * v) * (u * v), k + 8 * (m * m) + 2 * m * s)
    requires (z * z + t * t) * n == (z * z - t * t) * (z * z - t * t) + d * k
    ensures Eqm(q, (z + t) * (z + t) * (v * v) - (z - t) * (z - t) * (u * u),
                (z * z - t * t) * (z * z - t * t) + d * ((u * v) * (u * v)))
  {
    var w, x := v * v - u * u, u * u + v * v;
    assert (z + t) * (z + t) * (v * v) - (z - t) * (z - t) * (u * u) == (z * z + t * t) * w + 2 * (z * t) * x by {
      SquareDifference(z, t, u * u, v * v);
    }
    Mul(q, z * z + t * t, z * z + t * t, w, n);
    Mul(q, 2 * (z * t), 2 * (z * t), x, s + 4 * m);
    Modular.Add(q, (z * z + t * t) * w, (z * z + t * t) * n, 2 * (z * t) * x, 2 * (z * t) * (s + 4 * m));
    var r := (z * z - t * t) * (z * z - t * t);
    var y := k + 8 * (m * m) + 2 * m * s;
    Mul(q, d, d, (u * v) * (u * v), y);
    Modular.Add(q, r, r, d * ((u * v) * (u * v)), d * y);
    assert (z * z + t * t) * n + 2 * (z * t) * (s + 4 * m) == r + d * y by {
      assert 2 * (z * t) * (s + 4 * m) == 2 * (d * m) * (s + 4 * m);
      assert d * y == d * k + 8 * d * (m * m) + 2 * d * m * s;
    }
  }

  lemma SquareDifference(z: int, t: int, a: int, b: int)
    ensures (z + t) * (z + t) * b - (z - t) * (z - t) * a == (z * z + t * t) * (b - a) + 2 * (z * t) * (a + b)
  {
  }

  /** Multiplying all four factors by two multiplies the equation by sixteen. */
  lemma DoubledFactors(q: int, d: int, e: int, f: int, g: int, h: int)
    requires q > 0
    requires Eqm(q, g * g * (h * h) - f * f * (e * e), f * g * (f * g) + d * ((e * h) * (e * h)))
    ensures OnCurve(q, d, Product(2 * e, 2 * f, 2 * g, 2 * h))
  {
    var fg, eh := f * g * (f * g), (e * h) * (e * h);
    Mul(q, 16, 16, g * g * (h * h) - f * f * (e * e), fg + d * eh);
    Sixteen(2 * g, 2 * h, g, h);
    Sixteen(2 * e, 2 * f, e, f);
    Sixteen(2 * f, 2 * g, f, g);
    Sixteen(2 * e, 2 * h, e, h);
    Distribute(16, d, g * g * (h * h), f * f * (e * e), fg, eh);
    ProductOnCurve(q, d, 2 * e, 2 * f, 2 * g, 2 * h);
  }

  lemma Sixteen(a: int, b: int, x: int, y: int)
    requires a == 2 * x && b == 2 * y
    ensures (a * b) * (a * b) == 16 * (x * y * (x * y)) == 16 * (x * x * (y * y)) == 16 * (y * y * (x * x))
  {
    assert a * b == 4 * (x * y);
  }

  /** What the products of the operands' coordinates are in terms of z = Z1 Z2 and t = d T1 T2. */
  lemma AddProducts(d: int, z1: int, t1: int, z2: int, t2: int)
    ensures var z, t := z1 * z2, d * (t1 * t2); var m1, m2 := z1 * t1, z2 * t2;
            && z * t == d * (m1 * m2)
            && z * z == (z1 * z1) * (z2 * z2)
            && t * t == (d * (t1 * t1)) * (d * (t2 * t2))
            && d * (m1 * m1) == (z1 * z1) * (d * (t1 * t1))
            && d * (m2 * m2) == (z2 * z2) * (d * (t2 * t2))
            && m1 * m1 * (m2 * m2) == m1 * m2 * (m1 * m2)
  {
    Regrouped(z1, z2, z1, z2);
    Regrouped(z1 * t1, z2 * t2, z1 * t1, z2 * t2);
    SquareOut(d, z1, t1); SquareOut(d, z2, t2);
    PullOut(d, z1, t1, z2, t2);
    PullOutTwice(d, t1, t2);
  }

  lemma SquareOut(d: int, z: int, t: int)
    ensures d * ((z * t) * (z * t)) == (z * z) * (d * (t * t))
  {
  }

  lemma PullOut(d: int, z1: int, t1: int, z2: int, t2: int)
    ensures (z1 * z2) * (d * (t1 * t2)) == d * ((z1 * t1) * (z2 * t2))
  {
  }

  lemma PullOutTwice(d: int, t1: int, t2: int)
    ensures (d * (t1 * t2)) * (d * (t1 * t2)) == (d * (t1 * t1)) * (d * (t2 * t2))
  {
  }

  lemma Regrouped(a: int, b: int, c: int, d: int)
    ensures (a * b) * (c * d) == (a * c) * (b * d)
  {
  }

  lemma Factor(d: int, a: int, b: int, x: int, y: int)
    ensures d * (a * x + b * y) == (d * a) * x + (d * b) * y
  {
  }

  /** Section 5.1.4 of RFC 8032: adding keeps the curve equation and XY = ZT. */
  lemma AddStaysOnCurve(q: int, d: int, p: Ext, r: Ext)
    requires q > 0 && OnCurve(q, d, p) && OnCurve(q, d, r)
    ensures OnCurve(q, d, Add(q, d, p, r))
  {
    var u := p.X * r.Y + p.Y * r.X; var v := p.Y * r.Y + p.X * r.X;
    var z := p.Z * r.Z; var t := d * (p.T * r.T);
    AddUnreduced(q, d, p, r, z, t, u, v);
    DoubledFactors(q, d, u, z - t, z + t, v);
    AddForm(q, d, p, r);
    ScaledOnCurve(q, d, 1, Add(q, d, p, r), Product(2 * u, 2 * (z - t), 2 * (z + t), 2 * v));
  }

  lemma AddUnreduced(q: int, d: int, p: Ext, r: Ext, z: int, t: int, u: int, v: int)
    requires q > 0 && OnCurve(q, d, p) && OnCurve(q, d, r)
    requires z == p.Z * r.Z && t == d * (p.T * r.T)
    requires u == p.X * r.Y + p.Y * r.X && v == p.Y * r.Y + p.X * r.X
    ensures Eqm(q, (z + t) * (z + t) * (v * v) - (z - t) * (z - t) * (u * u),
                (z - t) * (z + t) * ((z - t) * (z + t)) + d * ((u * v) * (u * v)))
  {
    var a1, b1, a2, b2 := p.Z * p.Z, d * (p.T * p.T), r.Z * r.Z, d * (r.T * r.T);
    var n1, m1, s1 := a1 + b1, p.Z * p.T, p.X * p.X + p.Y * p.Y;
    var n2, m2, s2 := a2 + b2, r.Z * r.T, r.X * r.X + r.Y * r.Y;
    AddFacts(q, d, p, r, n1, m1, s1, n2, m2, s2);
    SumOfSquares(q, d, p, n1, m1, s1);
    SumOfSquares(q, d, r, n2, m2, s2);
    CrossSquare(q, n1, m1, s1, n2, m2, s2, u * v);
    NormIdentity(a1, b1, a2, b2);
    AddProducts(d, p.Z, p.T, r.Z, r.T);
    Factor(d, m1 * m1, m2 * m2, n2 * n2, n1 * n1);
    var k := m1 * m1 * (n2 * n2) + m2 * m2 * (n1 * n1);
    AddCore(q, d, z, t, u, v, n1 * n2, s1 * s2, m1 * m2, k);
    SumTimesDifference(z, t);
  }

  lemma SumTimesDifference(z: int, t: int)
    ensures (z - t) * (z + t) == z * z - t * t
  {
  }

  /** The curve equation gives d (XY)^2 = Z^2 (g - Z^2), for g = Y^2 - X^2. */
  lemma DoubleFact(q: int, d: int, p: Ext, g: int, xy: int, z2: int)
    requires q > 0 && OnCurve(q, d, p)
    requires g == p.Y * p.Y - p.X * p.X && xy == p.X * p.Y && z2 == p.Z * p.Z
    ensures Eqm(q, d * (xy * xy), z2 * (g - z2))
    ensures Eqm(q, d * (p.T * p.T), g - z2)
  {
    var zt, t2 := p.Z * p.T, p.T * p.T;
    Sub(q, g, z2 + d * t2, z2, z2);
    Mul(q, z2, z2, g - z2, d * t2);
    Mul(q, xy, zt, xy, zt);
    Mul(q, d, d, xy * xy, zt * zt);
    assert d * (zt * zt) == z2 * (d * t2);
  }

  lemma DoubleIdentity(g: int, z: int, x: int, hh: int)
    requires hh == g * g + 4 * (x * x)
    ensures var f := g - 2 * z;
            f * f * (g * g) + 4 * hh * (z * (g - z)) == g * g * hh - 4 * (x * x) * (f * f)
  {
    var f := g - 2 * z;
    assert f * f == g * g - 4 * (z * (g - z));
    assert f * f * (g * g + 4 * (x * x)) == hh * (g * g) - 4 * hh * (z * (g - z)) by {
      assert f * f * hh == g * g * hh - 4 * (z * (g - z)) * hh;
    }
  }

  lemma SquaredProduct(a: int, b: int)
    ensures (a * b) * (a * b) == a * a * (b * b)
    ensures (2 * a * b) * (2 * a * b) == 4 * (a * a) * (b * b)
    ensures (2 * a * -b) * (2 * a * -b) == 4 * (b * b) * (a * a)
    ensures (a * -b) * (a * -b) == a * a * (b * b)
  {
    var c := a * b;
    assert 2 * a * b == 2 * c && a * -b == -c && 2 * a * -b == -2 * c;
    assert c * c == a * a * (b * b);
  }

  lemma DoubleUnreduced(q: int, d: int, p: Ext, g: int, h: int, xy: int, z2: int)
    requires q > 0 && OnCurve(q, d, p)
    requires g == p.Y * p.Y - p.X * p.X && xy == p.X * p.Y && z2 == p.Z * p.Z && h == p.X * p.X + p.Y * p.Y
    ensures OnCurve(q, d, Product(2 * xy, g - 2 * z2, g, -h))
  {
    var f := g - 2 * z2;
    var w := z2 * (g - z2);
    var hh := h * h;
    DoubleFact(q, d, p, g, xy, z2);
    assert hh == g * g + 4 * (xy * xy);
    DoubleIdentity(g, z2, xy, hh);
    Mul(q, 4 * hh, 4 * hh, d * (xy * xy), w);
    Modular.Add(q, f * f * (g * g), f * f * (g * g), 4 * hh * (d * (xy * xy)), 4 * hh * w);
    SquaredProduct(g, h); SquaredProduct(xy, f); SquaredProduct(f, g); SquaredProduct(xy, h);
    Swap(d, 4 * hh, xy * xy);
    ProductOnCurve(q, d, 2 * xy, f, g, -h);
  }

  lemma Swap(a: int, b: int, c: int)
    ensures a * (b * c) == b * (a * c)
  {
  }

  /** Section 5.1.4 of RFC 8032: doubling keeps them too. */
  lemma DoubleStaysOnCurve(q: int, d: int, p: Ext)
    requires q > 0 && OnCurve(q, d, p)
    ensures OnCurve(q, d, Double(q, p))
  {
    var g, h := p.Y * p.Y - p.X * p.X, p.X * p.X + p.Y * p.Y;
    DoubleUnreduced(q, d, p, g, h, p.X * p.Y, p.Z * p.Z);
    DoubleForm(q, p);
    ScaledOnCurve(q, d, 1, Double(q, p), Product(2 * (p.X * p.Y), g - 2 * (p.Z * p.Z), g, -h));
  }

  /** The twisted-Edwards addition law with both denominators multiplied out. */
  lemma AdditionLaw(q: int, d: int, p: Ext, r: Ext)
    requires q > 0
    ensures var s := Add(q, d, p, r);
            && Eqm(q, s.X * (p.Z * r.Z + d * (p.T * r.T)), s.Z * (p.X * r.Y + p.Y * r.X))
            && Eqm(q, s.Y * (p.Z * r.Z - d * (p.T * r.T)), s.Z * (p.Y * r.Y + p.X * r.X))
  {
    var s := Add(q, d, p, r);
    var u := p.X * r.Y + p.Y * r.X; var v := p.Y * r.Y + p.X * r.X;
    var z := p.Z * r.Z; var t := d * (p.T * r.T);
    AddForm(q, d, p, r);
    var w := Product(2 * u, 2 * (z - t), 2 * (z + t), 2 * v);
    Mul(q, s.X, w.X, z + t, z + t);
    Mul(q, s.Z, w.Z, u, u);
    Mul(q, s.Y, w.Y, z - t, z - t);
    Mul(q, s.Z, w.Z, v, v);
    Regroup(u, z - t, z + t);
    Regroup(v, z + t, z - t);
  }

  lemma Regroup(u: int, f: int, g: int)
    ensures (2 * u) * (2 * f) * g == (2 * f) * (2 * g) * u
    ensures (2 * f) * (2 * u) * g == (2 * g) * (2 * f) * u
  {
  }

  /** The factors of Add(p, p) are twice those of Double(p), two of them with the sign changed. */
  lemma AddSelfFactors(q: int, d: int, p: Ext, f: int, g: int)
    requires q > 0 && OnCurve(q, d, p)
    requires g == p.Y * p.Y - p.X * p.X && f == g - 2 * (p.Z * p.Z)
    ensures var z2, t := p.Z * p.Z, d * (p.T * p.T);
            Eqm(q, 2 * (z2 - t), -2 * f) && Eqm(q, 2 * (z2 + t), 2 * g)
  {
    var z2, t := p.Z * p.Z, d * (p.T * p.T);
    DoubleFact(q, d, p, g, p.X * p.Y, z2);
    Sub(q, z2, z2, t, g - z2);
    Modular.Add(q, z2, z2, t, g - z2);
    Mul(q, 2, 2, z2 - t, -f);
    Mul(q, 2, 2, z2 + t, g);
  }

  lemma ProductScaled(q: int, e: int, f: int, g: int, h: int, f': int, g': int)
    requires q > 0 && Eqm(q, f', -2 * f) && Eqm(q, g', 2 * g)
    ensures Scaled(q, -4, Product(2 * e, f', g', -2 * h), Product(e, f, g, h))
  {
    Mul(q, 2 * e, 2 * e, f', -2 * f);
    Mul(q, g', 2 * g, -2 * h, -2 * h);
    Mul(q, f', -2 * f, g', 2 * g);
    MinusFour(e, f); MinusFour(h, g); MinusFour(g, f); MinusFour(e, h);
  }

  lemma MinusFour(a: int, b: int)
    ensures (2 * a) * (-2 * b) == -4 * (a * b) && (2 * b) * (-2 * a) == -4 * (b * a)
    ensures (-2 * b) * (2 * a) == -4 * (b * a)
  {
  }

  lemma ScaledTransfer(q: int, c: int, a: Ext, b: Ext, a': Ext, b': Ext)
    requires q > 0 && Scaled(q, c, a, b) && Scaled(q, 1, a', a) && Scaled(q, 1, b', b)
    ensures Scaled(q, c, a', b')
  {
    Mul(q, c, c, b'.X, b.X); Mul(q, c, c, b'.Y, b.Y); Mul(q, c, c, b'.Z, b.Z); Mul(q, c, c, b'.T, b.T);
  }

  /** Adding a curve point to itself gives -4 times its double, coordinate by coordinate. */
  lemma AddSelfIsDouble(q: int, d: int, p: Ext)
    requires q > 0 && OnCurve(q, d, p)
    ensures Scaled(q, -4, Add(q, d, p, p), Double(q, p))
  {
    var g, h := p.Y * p.Y - p.X * p.X, p.X * p.X + p.Y * p.Y;
    var e, f := 2 * (p.X * p.Y), g - 2 * (p.Z * p.Z);
    var z2, t := p.Z * p.Z, d * (p.T * p.T);
    AddSelfFactors(q, d, p, f, g);
    ProductScaled(q, e, f, g, -h, 2 * (z2 - t), 2 * (z2 + t));
    assert p.X * p.Y + p.Y * p.X == e && p.Y * p.Y + p.X * p.X == h;
    AddForm(q, d, p, p);
    DoubleForm(q, p);
    ScaledTransfer(q, -4, Product(2 * e, 2 * (z2 - t), 2 * (z2 + t), -2 * -h), Product(e, f, g, -h),
                   Add(q, d, p, p), Double(q, p));
  }
}
