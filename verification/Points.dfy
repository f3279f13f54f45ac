/**
 Points of the curve and their 32-byte encodings, as meshcore_crypto.py has them: point compression and decompression
 undo each other. Everything is stated for any odd modulus below 2^255; where it must be prime, that is a hypothesis.
 */
module Points {
  import opened Bytes
  import opened Bits
  import opened Modular
  import opened Fermat
  import Edwards

  type Ext = Edwards.Ext

  datatype Affine = Affine(x: int, y: int)

  /** Q, L, _d, _I and _BASE_EXT. */
  datatype Params = Params(q: int, l: int, d: int, i: int, base: Ext)

  type Curve = c: Params | 1 < c.q < Pow2(255) && c.q % 2 == 1 && 0 < c.l < Pow2(253)
    witness Params(3, 1, 0, 0, Edwards.IDENT)

  /** pow(x, Q - 2, Q) */
  function Inv(c: Curve, x: int): (r: int)
    ensures 0 <= r < c.q
  {
    Pow(x, c.q - 2) % c.q
  }

  /** A square root of xx modulo q, if it has one. */
  function Root(c: Curve, xx: int): (x: int)
    ensures 0 <= x < c.q
  {
    var x0 := Pow(xx, (c.q + 3) / 8) % c.q;
    if (x0 * x0 - xx) % c.q != 0 then (x0 * c.i) % c.q else x0
  }

  /** The root of the wanted parity; for x = 0 and odd parity that is q itself. */
  function WithParity(c: Curve, x: int, odd: bool): (r: int)
    requires 0 <= x < c.q
    ensures 0 <= r <= c.q && (r % 2 == 1) == odd
    ensures r == x || r == c.q - x
    ensures !odd ==> r < c.q
  {
    if (x % 2 == 1) != odd then c.q - x else x
  }

  /** The even square root for x, given y. */
  function XRecover(c: Curve, y: int): (x: int)
    ensures 0 <= x < c.q && x % 2 == 0
  {
    var xx := (y * y - 1) * Inv(c, c.d * y * y + 1);
    WithParity(c, Root(c, xx), false)
  }

  function AffToExt(c: Curve, a: Affine): Ext {
    Edwards.Ext(a.x % c.q, a.y % c.q, 1, (a.x * a.y) % c.q)
  }

  function ExtToAff(c: Curve, p: Ext): (a: Affine)
    ensures 0 <= a.x < c.q && 0 <= a.y < c.q
  {
    var zi := Inv(c, p.Z);
    Affine((p.X * zi) % c.q, (p.Y * zi) % c.q)
  }

  /** to_bytes(32) overflows unless y is below 2^255. */
  function EncodePoint(a: Affine): (s: Data)
    requires 0 <= a.y < Pow2(255)
    ensures |s| == 32
  {
    BytesAreBits(32);
    ToLittle(if a.x % 2 == 1 then a.y + Pow2(255) else a.y, 32)
  }

  predicate IsOnCurve(c: Curve, a: Affine) {
    (-a.x * a.x + a.y * a.y - 1 - c.d * a.x * a.x * a.y * a.y) % c.q == 0
  }

  /** None where the source raises "point not on curve". */
  function DecodePoint(c: Curve, s: Data): Option<Affine> {
    var a := Candidate(c, FromLittle(if |s| <= 32 then s else s[..32]));
    if IsOnCurve(c, a) then Some(a) else None
  }

  /** The low 255 bits are y, and the top bit says which root x is. */
  function Candidate(c: Curve, unclamped: nat): Affine {
    var y := Low(unclamped, 255);
    Affine(WithParity(c, XRecover(c, y), BitAt(unclamped, 255) == 1), y)
  }

  function PointBytes(c: Curve, p: Ext): (s: Data)
    ensures |s| == 32
  {
    EncodePoint(ExtToAff(c, p))
  }

  /** Whatever 32 bytes decode accepts, encode gives back: also y >= Q, and x = 0 with the sign bit set. */
  lemma EncodeUndoesDecode(c: Curve, s: Data)
    requires |s| == 32 && DecodePoint(c, s).Some?
    ensures 0 <= DecodePoint(c, s).value.y < Pow2(255)
    ensures EncodePoint(DecodePoint(c, s).value) == s
  {
    DecodedParts(c, s);
    EncodedParts(DecodePoint(c, s).value, s);
  }

  /** A decoded point holds the low 255 bits as y, and the top bit as the parity of x. */
  lemma DecodedParts(c: Curve, s: Data)
    requires |s| == 32 && DecodePoint(c, s).Some?
    ensures var a := DecodePoint(c, s).value;
            a.y == Low(FromLittle(s), 255) && (a.x % 2 == 1) == (BitAt(FromLittle(s), 255) == 1)
  {
  }

  lemma EncodedParts(a: Affine, s: Data)
    requires |s| == 32 && a.y == Low(FromLittle(s), 255) && (a.x % 2 == 1) == (BitAt(FromLittle(s), 255) == 1)
    ensures EncodePoint(a) == s
  {
    EncodedValue(s, FromLittle(s), a.x, a.y, 255);
  }

  lemma EncodedValue(s: Data, n: nat, x: int, y: int, k: nat)
    requires n == FromLittle(s) && k + 1 == 8 * |s| && y == Low(n, k) && (x % 2 == 1) == (BitAt(n, k) == 1)
    ensures n == (if x % 2 == 1 then y + Pow2(k) else y) && n < Pow256(|s|) && ToLittle(n, |s|) == s
  {
    IntOfLittle(s);
    BytesAreBits(|s|);
    SplitTopBit(n, k);
  }

  lemma SplitTopBit(n: nat, k: nat)
    requires n < Pow2(k + 1)
    ensures n == Low(n, k) + (if BitAt(n, k) == 1 then Pow2(k) else 0)
  {
    var p := Pow2(k);
    assert n == p * (n / p) + n % p;
    assert n / p <= 1;
  }

  /** A decoded point satisfies the extended curve equations. */
  lemma DecodedOnCurve(c: Curve, s: Data)
    requires DecodePoint(c, s).Some?
    ensures Edwards.OnCurve(c.q, c.d, AffToExt(c, DecodePoint(c, s).value))
  {
    AffineOnCurve(c, DecodePoint(c, s).value);
  }

  lemma AffineOnCurve(c: Curve, a: Affine)
    requires IsOnCurve(c, a)
    ensures Edwards.OnCurve(c.q, c.d, AffToExt(c, a))
  {
    var q, x, y := c.q, a.x, a.y;
    var t := x * y;
    Reduced(q, x); Reduced(q, y); Reduced(q, t);
    AffineEquation(c.d, x, y);
    var e := -x * x + y * y - 1 - c.d * x * x * y * y;
    FromWitness(q, y * y - x * x, 1 + c.d * (t * t), e / q);
    Edwards.ScaledOnCurve(q, c.d, 1, AffToExt(c, a), Edwards.Ext(x, y, 1, t));
  }

  lemma AffineEquation(d: int, x: int, y: int)
    ensures y * y - x * x - (1 + d * ((x * y) * (x * y))) == -x * x + y * y - 1 - d * x * x * y * y
  {
  }

  // ---- decompression finds the point ----

  /** The modulus is a prime of the form 8 k + 5, i is a square root of -1, and d is not -1. */
  ghost predicate IsField(c: Curve) {
    IsPrime(c.q) && c.q % 8 == 5 && IsZero(c.q, c.i * c.i + 1) && !IsZero(c.q, 1 + c.d)
  }

  /** pow(x, Q - 2, Q) inverts x. */
  lemma InvInverts(c: Curve, x: int)
    requires IsPrime(c.q) && !IsZero(c.q, x)
    ensures (x * Inv(c, x)) % c.q == 1
  {
    LittleFermat(c.q, x);
    Reduced(c.q, Pow(x, c.q - 2));
    Mul(c.q, x, x, Inv(c, x), Pow(x, c.q - 2));
    DivModUnique(1, c.q, 0, 1);
  }

  lemma Cancel(c: Curve, a: int, b: int)
    requires IsPrime(c.q) && IsZero(c.q, a * b) && !IsZero(c.q, a)
    ensures IsZero(c.q, b)
  {
    PrimeDivides(c.q, a, b);
  }

  /** w^((q - 1) / 2) is 1 or -1. */
  lemma HalfPower(q: int, w: int, h: nat)
    requires IsPrime(q) && q - 1 == h + h && !IsZero(q, w)
    ensures var e := Pow(w, h); IsZero(q, e - 1) || IsZero(q, e + 1)
  {
    var e := Pow(w, h);
    LittleFermat(q, w);
    PowTwo(w, h);
    EqmIsZero(q, e * e, 1);
    assert e * e - 1 == (e - 1) * (e + 1);
    if !IsZero(q, e - 1) {
      PrimeDivides(q, e - 1, e + 1);
    }
  }

  /** The first candidate squares to xx or to -xx, if xx is a square. */
  lemma FirstCandidate(q: int, xx: int, w: int, m: nat)
    requires IsPrime(q) && q == 8 * m + 5 && Eqm(q, xx, w * w)
    ensures var x0 := Pow(xx, m + 1) % q; IsZero(q, x0 * x0 - xx) || IsZero(q, x0 * x0 + xx)
  {
    var p := Pow(xx, m + 1);
    var e := Pow(xx, m + m + 1);
    Reduced(q, p);
    Mul(q, p % q, p, p % q, p);
    PowTwo(xx, m + 1);
    assert Pow(xx, m + 1 + (m + 1)) == xx * e;
    if IsZero(q, w) {
      ZeroTimes(q, w, w);
      EqmIsZero(q, xx, w * w);
      ZeroSum(q, xx - w * w, w * w);
      ZeroTimes(q, xx, e);
      ZeroSum(q, p % q * (p % q), xx);
    } else {
      PowEqm(q, xx, w * w, m + m + 1);
      PowOfSquare(w, m + m + 1);
      HalfPower(q, w, m + m + 1 + (m + m + 1));
      CandidateSign(q, p % q * (p % q), xx, e, Pow(w, m + m + 1 + (m + m + 1)));
    }
  }

  lemma CandidateSign(q: int, s: int, xx: int, e: int, f: int)
    requires q > 0 && Eqm(q, s, xx * e) && Eqm(q, e, f) && (IsZero(q, f - 1) || IsZero(q, f + 1))
    ensures IsZero(q, s - xx) || IsZero(q, s + xx)
  {
    Mul(q, xx, xx, e, f);
    EqmIsZero(q, s, xx * f);
    if IsZero(q, f - 1) {
      ZeroShift(q, s - xx * f, s - xx, f - 1, -xx);
    } else {
      ZeroShift(q, s - xx * f, s + xx, f + 1, -xx);
    }
  }

  /** Whatever is a square has Root for a square root. */
  lemma RootOfSquare(c: Curve, xx: int, w: int)
    requires IsField(c) && Eqm(c.q, xx, w * w)
    ensures IsZero(c.q, Root(c, xx) * Root(c, xx) - xx)
  {
    var q, m := c.q, c.q / 8;
    assert (q + 3) / 8 == m + 1;
    FirstCandidate(q, xx, w, m);
    var x0 := Pow(xx, m + 1) % q;
    if !IsZero(q, x0 * x0 - xx) {
      SecondCandidate(q, xx, x0, c.i);
    }
  }

  lemma SecondCandidate(q: int, xx: int, x0: int, i: int)
    requires q > 0 && IsZero(q, x0 * x0 + xx) && IsZero(q, i * i + 1)
    ensures var r := (x0 * i) % q; IsZero(q, r * r - xx)
  {
    var r, e := (x0 * i) % q, x0 * i;
    Reduced(q, e);
    Mul(q, r, e, r, e);
    EqmIsZero(q, r * r, e * e);
    Rearranged(x0, i, x0, i);
    ZeroTimes(q, i * i + 1, x0 * x0);
    SignsCancel(q, r * r, e * e, (x0 * x0) * (i * i + 1), x0 * x0, xx);
  }

  lemma SignsCancel(q: int, rr: int, ee: int, k: int, s: int, xx: int)
    requires q > 0 && IsZero(q, rr - ee) && IsZero(q, k) && k == ee + s && IsZero(q, s + xx)
    ensures IsZero(q, rr - xx)
  {
    ZeroSum(q, rr - ee, k);
    ZeroSum(q, rr - ee + k, s + xx);
  }

  /** Section 5.1.3 of RFC 8032: the recovered x squares to (y^2 - 1) / (d y^2 + 1), if that is a square at all. */
  lemma RecoveredSquares(c: Curve, x: int, y: int)
    requires IsField(c) && IsOnCurve(c, Affine(x, y))
    ensures IsZero(c.q, XRecover(c, y) * XRecover(c, y) - x * x)
  {
    var q, unit := c.q, c.d * y * y + 1;
    var xx := (y * y - 1) * Inv(c, unit);
    CurveEquation(c, Affine(x, y));
    UnitForm(c.d, y);
    UnitUnless(q, c.d, x * x, y * y);
    InvInverts(c, unit);
    SolvedForX(q, x * x, unit, Inv(c, unit), y * y - 1);
    RootOfSquare(c, xx, x);
    NegatedRoot(q, Root(c, xx), XRecover(c, y), xx);
    EqmIsZero(q, xx, x * x);
    ZeroSum(q, XRecover(c, y) * XRecover(c, y) - xx, xx - x * x);
  }

  lemma UnitForm(d: int, y: int)
    ensures d * y * y + 1 == 1 + d * (y * y)
  {
  }

  lemma SolvedForX(q: int, xx: int, unit: int, i: int, n: int)
    requires q > 1 && IsZero(q, xx * unit - n) && (unit * i) % q == 1
    ensures Eqm(q, n * i, xx)
  {
    EqmIsZero(q, xx * unit, n);
    Mul(q, xx * unit, n, i, i);
    DivModUnique(1, q, 0, 1);
    Mul(q, xx, xx, unit * i, 1);
    assert (xx * unit) * i == xx * (unit * i);
  }

  lemma NegatedRoot(q: int, r: int, x: int, xx: int)
    requires q > 0 && IsZero(q, r * r - xx) && (x == r || x == q - r)
    ensures IsZero(q, x * x - xx)
  {
    if x == q - r {
      assert x * x - xx == (r * r - xx) + q * (q - 2 * r);
      Multiple(q * (q - 2 * r), q, q - 2 * r);
      ZeroSum(q, r * r - xx, q * (q - 2 * r));
    }
  }

  lemma CurveEquation(c: Curve, a: Affine)
    ensures IsOnCurve(c, a) <==> IsZero(c.q, (a.x * a.x) * (1 + c.d * (a.y * a.y)) - (a.y * a.y - 1))
  {
    var e := (a.x * a.x) * (1 + c.d * (a.y * a.y)) - (a.y * a.y - 1);
    SameEquation(c.d, a.x, a.y);
    assert -a.x * a.x + a.y * a.y - 1 - c.d * a.x * a.x * a.y * a.y == -e;
    ZeroNegated(c.q, e);
  }

  lemma SameEquation(d: int, x: int, y: int)
    ensures -x * x + y * y - 1 - d * x * x * y * y == -((x * x) * (1 + d * (y * y)) - (y * y - 1))
  {
    assert d * x * x * y * y == (x * x) * (d * (y * y));
  }

  /** 1 + d y^2 has no zero on the curve, unless d is -1. */
  lemma UnitUnless(q: int, d: int, xx: int, yy: int)
    requires q > 0 && IsZero(q, xx * (1 + d * yy) - (yy - 1)) && !IsZero(q, 1 + d)
    ensures !IsZero(q, 1 + d * yy)
  {
    if IsZero(q, 1 + d * yy) {
      ZeroTimes(q, 1 + d * yy, xx);
      ZeroSum(q, xx * (1 + d * yy), xx * (1 + d * yy) - (yy - 1));
      ZeroShift(q, 1 + d * yy, 1 + d, yy - 1, d);
    }
  }

  /** Two reduced roots of one square are the same or add up to q. */
  lemma TwoRoots(q: int, r: int, x: int)
    requires IsPrime(q) && IsZero(q, r * r - x * x) && 0 <= r < q && 0 <= x < q
    ensures r == x || r + x == q
  {
    assert r * r - x * x == (r - x) * (r + x);
    if IsZero(q, r - x) {
      SmallMultiple(q, r - x);
    } else {
      PrimeDivides(q, r - x, r + x);
      SmallMultiple(q, r + x);
    }
  }

  lemma SmallMultiple(q: int, e: int)
    requires q > 0 && IsZero(q, e) && -q < e < 2 * q
    ensures e == 0 || e == q
  {
  }

  ghost predicate IsReduced(c: Curve, a: Affine) {
    0 <= a.x < c.q && 0 <= a.y < c.q
  }

  /** Whatever point is encoded, decompression finds it again. */
  lemma DecodeUndoesEncode(c: Curve, a: Affine)
    requires IsField(c) && IsOnCurve(c, a) && IsReduced(c, a)
    ensures DecodePoint(c, EncodePoint(a)) == Some(a)
  {
    RecoveredSquares(c, a.x, a.y);
    TwoRoots(c.q, XRecover(c, a.y), a.x);
    ParityPicks(c, XRecover(c, a.y), a.x);
    EncodedBits(a);
    CandidateIs(c, FromLittle(EncodePoint(a)), a);
    WholeString(EncodePoint(a));
  }

  lemma WholeString(s: Data)
    requires |s| == 32
    ensures (if |s| <= 32 then s else s[..32]) == s
  {
  }

  lemma CandidateIs(c: Curve, n: nat, a: Affine)
    requires Low(n, 255) == a.y && (BitAt(n, 255) == 1) == (a.x % 2 == 1)
    requires WithParity(c, XRecover(c, a.y), a.x % 2 == 1) == a.x
    ensures Candidate(c, n) == a
  {
  }

  lemma ParityPicks(c: Curve, r: int, x: int)
    requires 0 <= r < c.q && r % 2 == 0 && 0 <= x < c.q && (r == x || r + x == c.q)
    ensures WithParity(c, r, x % 2 == 1) == x
  {
  }

  /** The low 255 bits of an encoded point are y, and the top one is the parity of x. */
  lemma EncodedBits(a: Affine)
    requires 0 <= a.y < Pow2(255)
    ensures var n := FromLittle(EncodePoint(a)); Low(n, 255) == a.y && (BitAt(n, 255) == 1) == (a.x % 2 == 1)
  {
    EncodedNumber(EncodePoint(a), if a.x % 2 == 1 then a.y + Pow2(255) else a.y, a.y, 32, 255);
  }

  lemma EncodedNumber(s: Data, n: nat, y: nat, len: nat, k: nat)
    requires y < Pow2(k) && k + 1 == 8 * len && (n == y || n == y + Pow2(k))
    requires n < Pow256(len) ==> s == ToLittle(n, len)
    ensures FromLittle(s) == n && Low(n, k) == y && BitAt(n, k) == if n == y then 0 else 1
  {
    FitsInBytes(n, len, k);
    LittleOfInt(n, len);
    DivModUnique(n, Pow2(k), if n == y then 0 else 1, y);
  }

  lemma FitsInBytes(n: nat, len: nat, k: nat)
    requires n < 2 * Pow2(k) && k + 1 == 8 * len
    ensures n < Pow256(len)
  {
    BytesAreBits(len);
    PowDoubles(k);
  }

  lemma PowDoubles(k: nat)
    ensures Pow2(k + 1) == 2 * Pow2(k)
  {
  }

  /** y is the y of some point of the curve. */
  ghost predicate HasPoint(c: Curve, y: int) {
    exists x :: IsOnCurve(c, Affine(x, y))
  }

  /** Exactly the strings whose low 255 bits are the y of a point are accepted; also y >= q, and x = 0 with the sign. */
  lemma DecodesIff(c: Curve, s: Data)
    requires IsField(c) && |s| == 32
    ensures DecodePoint(c, s).Some? <==> HasPoint(c, Low(FromLittle(s), 255))
  {
    WholeString(s);
    CandidateIff(c, FromLittle(s));
  }

  lemma CandidateIff(c: Curve, n: nat)
    requires IsField(c)
    ensures IsOnCurve(c, Candidate(c, n)) <==> HasPoint(c, Low(n, 255))
  {
    var a := Candidate(c, n);
    assert a == Affine(a.x, Low(n, 255));
    if HasPoint(c, Low(n, 255)) {
      var x :| IsOnCurve(c, Affine(x, Low(n, 255)));
      CandidateOnCurve(c, n, x);
    }
  }

  lemma CandidateOnCurve(c: Curve, n: nat, x: int)
    requires IsField(c) && IsOnCurve(c, Affine(x, Low(n, 255)))
    ensures IsOnCurve(c, Candidate(c, n))
  {
    var y := Low(n, 255);
    RecoveredSquares(c, x, y);
    NegatedRoot(c.q, XRecover(c, y), Candidate(c, n).x, x * x);
    SameSquareOnCurve(c, Candidate(c, n).x, x, y);
  }

  lemma SameSquareOnCurve(c: Curve, x': int, x: int, y: int)
    requires IsZero(c.q, x' * x' - x * x) && IsOnCurve(c, Affine(x, y))
    ensures IsOnCurve(c, Affine(x', y))
  {
    CurveEquation(c, Affine(x, y));
    CurveEquation(c, Affine(x', y));
    SameEquationHolds(c.q, x' * x', x * x, 1 + c.d * (y * y), y * y - 1);
  }

  lemma SameEquationHolds(q: int, s: int, t: int, unit: int, n: int)
    requires q > 0 && IsZero(q, s - t) && IsZero(q, t * unit - n)
    ensures IsZero(q, s * unit - n)
  {
    assert s * unit - n == (t * unit - n) + (s - t) * unit;
    ZeroShift(q, s * unit - n, t * unit - n, s - t, unit);
  }
}
