/**
 Ed25519 as meshcore_crypto.py has it: key derivation, signing and verifying. Everything is stated for any modulus and
 any group order; Curve25519 gives the file's own numbers.
 */
module Ed25519 {
  import opened Bytes
  import opened Bits
  import opened Modular
  import opened Fermat
  import opened Groups
  import opened Points
  import Edwards
  import ScalarMult

  type Digest = s: Data | |s| == 64 witness Zeros(64)
  type Sha512 = Data -> Digest

  lemma EightTimes(k: nat)
    ensures Pow2(k + 3) == 8 * Pow2(k)
  {
    assert Pow2(k + 3) == 2 * Pow2(k + 2) && Pow2(k + 2) == 2 * Pow2(k + 1);
  }

  /** (a & ((1 << k + 3) - 8)) | (1 << k + 3) */
  function ClampBits(a: nat, k: nat): nat {
    EightTimes(k);
    Or(And(a, Pow2(k + 3) - 8), Pow2(k + 3))
  }

  /** (a & ((1 << 254) - 1 - 7)) | (1 << 254) */
  function Clamp(s: Data): nat { ClampBits(FromLittle(s), 251) }

  /** The low three bits are cleared, bit k + 3 is set, and so nothing above it is left. */
  lemma ClampBitsAre(a: nat, k: nat)
    ensures ClampBits(a, k) == Pow2(k + 3) + 8 * Low(a / 8, k)
    ensures ClampBits(a, k) < Pow2(k + 4) && ClampBits(a, k) % 8 == 0
  {
    MaskedToEight(a, k);
    OrIsSum(8 * Low(a / 8, k), k + 3);
    EightParts(ClampBits(a, k), Low(a / 8, k), k);
  }

  lemma EightParts(n: nat, m: nat, k: nat)
    requires n == Pow2(k + 3) + 8 * m && 8 * m < Pow2(k + 3)
    ensures n < Pow2(k + 4) && n % 8 == 0
  {
    EightTimes(k);
    assert n == 8 * (Pow2(k) + m);
  }

  lemma MaskedToEight(a: nat, k: nat)
    ensures Pow2(k + 3) == 8 * Pow2(k) && And(a, Pow2(k + 3) - 8) == 8 * Low(a / 8, k) < Pow2(k + 3)
  {
    EightTimes(k);
    AndEight(a, Pow2(k) - 1);
    MaskIsLow(a / 8, k);
  }

  /** The clamped scalar is 2^254 plus the multiple of 8 in bits 3 to 253. */
  lemma ClampIs(s: Data)
    ensures Clamp(s) == Pow2(254) + 8 * Low(FromLittle(s) / 8, 251)
    ensures Clamp(s) < Pow2(255) && Clamp(s) % 8 == 0
  {
    ClampBitsAre(FromLittle(s), 251);
  }

  lemma AndEight(a: nat, m: nat)
    ensures And(a, 8 * m) == 8 * And(a / 8, m)
  {
    var m2, m4, a2, a4 := 2 * m, 4 * m, a / 2, a / 4;
    AndTwo(a, m4);
    AndTwo(a2, m2);
    AndTwo(a4, m);
    assert a2 / 2 == a4 && a4 / 2 == a / 8;
  }

  lemma AndTwo(a: nat, m: nat)
    ensures And(a, 2 * m) == 2 * And(a / 2, m)
  {
    if a == 0 || m == 0 {
    } else {
      assert 2 * m / 2 == m;
    }
  }

  // ---- keys, signatures ----

  /** A 64-byte MeshCore key, or a seed that is hashed to one. */
  datatype SecretKey = McKey(privkey: Digest) | Seed(seed: Data)

  function H(sha512: Sha512, sk: SecretKey): Digest {
    match sk
    case McKey(k) => k
    case Seed(s) => sha512(s)
  }

  function HInt(sha512: Sha512, m: Data): nat { FromLittle(sha512(m)) }

  function BaseMult(c: Curve, a: nat): Ext {
    ScalarMult.Times(c.q, c.d, c.base, a % c.l)
  }

  function PublicKey(c: Curve, sha512: Sha512, sk: SecretKey): (pk: Data)
    ensures |pk| == 32
  {
    PointBytes(c, BaseMult(c, Clamp(H(sha512, sk)[..32])))
  }

  /** Signing hashes only the first 32 bytes of a seed, although PublicKey hashes all of it. */
  function SigningHash(sha512: Sha512, sk: SecretKey): Digest {
    match sk
    case McKey(k) => k
    case Seed(s) => sha512(if |s| <= 32 then s else s[..32])
  }

  function ScalarToBytes(c: Curve, y: nat): (s: Data)
    ensures |s| == 32 && FromLittle(s) == y % c.l
  {
    BytesAreBits(32);
    Pow2Grows(253, 256);
    LittleOfInt(y % c.l, 32);
    ToLittle(y % c.l, 32)
  }

  function Nonce(sha512: Sha512, m: Data, sk: SecretKey): nat {
    HInt(sha512, SigningHash(sha512, sk)[32..] + m)
  }

  function Signature(c: Curve, sha512: Sha512, m: Data, sk: SecretKey, pk: Data): (sig: Data)
    ensures |sig| == 64
  {
    var a := Clamp(SigningHash(sha512, sk)[..32]);
    var r := Nonce(sha512, m, sk);
    var rBytes := PointBytes(c, BaseMult(c, r));
    rBytes + ScalarToBytes(c, (r + HInt(sha512, rBytes + pk + m) * a) % c.l)
  }

  /** None where the source raises: not a curve point, or not in the group of order L. */
  function BytesToElement(c: Curve, b: Data): Option<Ext> {
    match DecodePoint(c, b)
    case None => None
    case Some(a) =>
      var p := AffToExt(c, a);
      if PointBytes(c, ScalarMult.Times(c.q, c.d, p, c.l)) != PointBytes(c, Edwards.IDENT) then None else Some(p)
  }

  /** verify: _checkvalid with its exceptions turned into False. */
  predicate Verify(c: Curve, sha512: Sha512, pk: Data, sig: Data, m: Data) {
    && |sig| == 64 && |pk| == 32
    && var R, A := BytesToElement(c, sig[..32]), BytesToElement(c, pk);
    && R.Some? && A.Some?
    && var s, h := FromLittle(sig[32..]), HInt(sha512, sig[..32] + pk + m);
    && PointBytes(c, BaseMult(c, s))
       == PointBytes(c, Edwards.Add(c.q, c.d, R.value, ScalarMult.Times(c.q, c.d, A.value, h % c.l)))
  }

  /** sign: MCKey raises unless the key has 64 bytes. */
  function Sign(c: Curve, sha512: Sha512, prv: Data, m: Data): Option<Data> {
    if |prv| != 64 then None
    else Some(Signature(c, sha512, m, McKey(prv), PublicKey(c, sha512, McKey(prv))))
  }

  // ---- what is assumed of the curve ----

  /**
   The modulus is a prime, and the points of the curve read as a commutative group: every affine point of the curve is
   one of the points, none is at infinity, different affine points stand for different elements, and the base point has
   order L. Everything else, from inverses and square roots to encodings, is proved.
   */
  ghost predicate Assumed<G(!new)>(c: Curve, m: ScalarMult.Reading<G>) {
    && IsField(c) && ScalarMult.Reads(c.q, c.d, m)
    && m.points(c.base) && NFold(m.group, m.value(c.base), c.l) == m.group.zero
    && (forall a :: IsOnCurve(c, a) ==> m.points(AffToExt(c, a)))
    && (forall p :: m.points(p) ==> !IsZero(c.q, p.Z))
    && (forall a, b :: Separates(c, m, a, b))
  }

  ghost predicate Separates<G>(c: Curve, m: ScalarMult.Reading<G>, a: Affine, b: Affine) {
    && IsOnCurve(c, a) && IsOnCurve(c, b) && IsReduced(c, a) && IsReduced(c, b) && Value(c, m, a) == Value(c, m, b)
    ==> a == b
  }

  /** The element that an affine point stands for. */
  ghost function Value<G>(c: Curve, m: ScalarMult.Reading<G>, a: Affine): G {
    m.value(AffToExt(c, a))
  }

  /** 1 + d y^2 has no zero on the curve. */
  lemma DenominatorIsUnit(c: Curve, a: Affine)
    requires IsField(c) && IsOnCurve(c, a)
    ensures !IsZero(c.q, 1 + c.d * (a.y * a.y))
  {
    CurveEquation(c, a);
    UnitUnless(c.q, c.d, a.x * a.x, a.y * a.y);
  }

  /** A point that is not at infinity has the value of its affine form, which is on the curve. */
  lemma AffineForm<G(!new)>(c: Curve, m: ScalarMult.Reading<G>, p: Ext)
    requires Assumed(c, m) && m.points(p)
    ensures var a := ExtToAff(c, p);
            && Eqm(c.q, p.X, p.Z * a.x) && Eqm(c.q, p.Y, p.Z * a.y)
            && IsOnCurve(c, a) && Value(c, m, a) == m.value(p)
  {
    var q, a, i := c.q, ExtToAff(c, p), Inv(c, p.Z);
    InvInverts(c, p.Z);
    Divided(q, p.Z, i, p.X);
    Divided(q, p.Z, i, p.Y);
    FourthCoordinate(c, m, p, a);
    assert m.Rescales(q, p.Z, p, AffToExt(c, a));
    UnscaledOnCurve(c, m, AffToExt(c, a), a);
  }

  lemma Divided(q: int, z: int, i: int, x: int)
    requires q > 1 && (z * i) % q == 1
    ensures Eqm(q, x, z * ((x * i) % q))
  {
    Reduced(q, x * i);
    Mul(q, z, z, (x * i) % q, x * i);
    assert z * (x * i) == (z * i) * x;
    Mul(q, z * i, 1, x, x);
  }

  lemma FourthCoordinate<G(!new)>(c: Curve, m: ScalarMult.Reading<G>, p: Ext, a: Affine)
    requires Assumed(c, m) && m.points(p)
    requires Eqm(c.q, p.X, p.Z * a.x) && Eqm(c.q, p.Y, p.Z * a.y)
    ensures Edwards.Scaled(c.q, p.Z, p, AffToExt(c, a))
  {
    var q, z, t := c.q, p.Z, a.x * a.y;
    assert Edwards.OnCurve(q, c.d, p);
    ProductOfScaled(c, p, a.x, a.y, t);
    Reduced(q, a.x); Reduced(q, a.y); Reduced(q, t);
    Mul(q, z, z, a.x % q, a.x); Mul(q, z, z, a.y % q, a.y); Mul(q, z, z, t % q, t);
  }

  lemma ProductOfScaled(c: Curve, p: Ext, x: int, y: int, t: int)
    requires IsPrime(c.q) && !IsZero(c.q, p.Z) && t == x * y && Eqm(c.q, p.X * p.Y, p.Z * p.T)
    requires Eqm(c.q, p.X, p.Z * x) && Eqm(c.q, p.Y, p.Z * y)
    ensures Eqm(c.q, p.T, p.Z * t)
  {
    var q, z := c.q, p.Z;
    Mul(q, p.X, z * x, p.Y, z * y);
    assert (z * x) * (z * y) == z * (z * t);
    EqmIsZero(q, z * p.T, z * (z * t));
    assert z * p.T - z * (z * t) == z * (p.T - z * t);
    Cancel(c, z, p.T - z * t);
    EqmIsZero(q, p.T, z * t);
  }

  /** An extended point with Z = 1 is on the curve exactly when its affine form is. */
  lemma UnscaledOnCurve<G(!new)>(c: Curve, m: ScalarMult.Reading<G>, p: Ext, a: Affine)
    requires Assumed(c, m) && m.points(p) && p == AffToExt(c, a)
    ensures IsOnCurve(c, a)
  {
    var q, x, y, t := c.q, a.x, a.y, a.x * a.y;
    assert Edwards.OnCurve(q, c.d, p);
    Reduced(q, x); Reduced(q, y); Reduced(q, t);
    Mul(q, x % q, x, x % q, x); Mul(q, y % q, y, y % q, y); Mul(q, t % q, t, t % q, t);
    Sub(q, p.Y * p.Y, y * y, p.X * p.X, x * x);
    Mul(q, c.d, c.d, p.T * p.T, t * t);
    Add(q, 1, 1, c.d * (p.T * p.T), c.d * (t * t));
    EqmIsZero(q, y * y - x * x, 1 + c.d * (t * t));
    AffineEquation(c.d, x, y);
  }

  /** An encoded point is decoded to its affine form, which has the same value. */
  lemma Decodes<G(!new)>(c: Curve, m: ScalarMult.Reading<G>, p: Ext)
    requires Assumed(c, m) && m.points(p)
    ensures DecodePoint(c, PointBytes(c, p)) == Some(ExtToAff(c, p))
    ensures m.value(AffToExt(c, ExtToAff(c, p))) == m.value(p)
  {
    AffineForm(c, m, p);
    DecodeUndoesEncode(c, ExtToAff(c, p));
  }

  /** Equal bytes mean equal elements. */
  lemma SameBytes<G(!new)>(c: Curve, m: ScalarMult.Reading<G>, p: Ext, r: Ext)
    requires Assumed(c, m) && m.points(p) && m.points(r)
    ensures PointBytes(c, p) == PointBytes(c, r) <==> m.value(p) == m.value(r)
  {
    Decodes(c, m, p);
    Decodes(c, m, r);
    AffineForm(c, m, p);
    AffineForm(c, m, r);
    assert Separates(c, m, ExtToAff(c, p), ExtToAff(c, r));
  }

  /** BytesToElement accepts exactly the curve points whose L-fold sum is zero. */
  lemma ElementMeans<G(!new)>(c: Curve, m: ScalarMult.Reading<G>, b: Data)
    requires Assumed(c, m)
    ensures BytesToElement(c, b).Some? <==>
            DecodePoint(c, b).Some?
            && NFold(m.group, m.value(AffToExt(c, DecodePoint(c, b).value)), c.l) == m.group.zero
    ensures BytesToElement(c, b).Some? ==>
            BytesToElement(c, b).value == AffToExt(c, DecodePoint(c, b).value)
            && m.points(BytesToElement(c, b).value)
  {
    if DecodePoint(c, b).Some? {
      var p := AffToExt(c, DecodePoint(c, b).value);
      ScalarMult.TimesReads(c.q, c.d, m, p, c.l);
      SameBytes(c, m, ScalarMult.Times(c.q, c.d, p, c.l), Edwards.IDENT);
    }
  }

  /** A multiple of the base point survives encoding and the subgroup check. */
  lemma MultipleIsElement<G(!new)>(c: Curve, m: ScalarMult.Reading<G>, n: nat)
    requires Assumed(c, m)
    ensures m.points(BaseMult(c, n)) && m.value(BaseMult(c, n)) == NFold(m.group, m.value(c.base), n)
    ensures BytesToElement(c, PointBytes(c, BaseMult(c, n))).Some?
    ensures m.value(BytesToElement(c, PointBytes(c, BaseMult(c, n))).value) == NFold(m.group, m.value(c.base), n)
  {
    var g, b, p := m.group, m.value(c.base), BaseMult(c, n);
    ScalarMult.TimesReads(c.q, c.d, m, c.base, n % c.l);
    NFoldMod(g, b, c.l, n);
    Decodes(c, m, p);
    NFoldSwap(g, b, n, c.l);
    NFoldZero(g, n);
    ElementMeans(c, m, PointBytes(c, p));
  }

  /** S B = R + h A, for the scalar S and the point R of the signature, the point A of the key, and h = H(R, A, M). */
  ghost predicate Equation<G>(c: Curve, m: ScalarMult.Reading<G>, sha512: Sha512, pk: Data, sig: Data, msg: Data)
    requires |sig| == 64 && BytesToElement(c, sig[..32]).Some? && BytesToElement(c, pk).Some?
  {
    var R, A := m.value(BytesToElement(c, sig[..32]).value), m.value(BytesToElement(c, pk).value);
    NFold(m.group, m.value(c.base), FromLittle(sig[32..]))
    == m.group.op(R, NFold(m.group, A, FromLittle(sha512(sig[..32] + pk + msg))))
  }

  /** Verify accepts exactly when the lengths are right, both points are elements and the equation holds. */
  lemma VerifyMeans<G(!new)>(c: Curve, m: ScalarMult.Reading<G>, sha512: Sha512, pk: Data, sig: Data, msg: Data)
    requires Assumed(c, m)
    ensures Verify(c, sha512, pk, sig, msg) <==>
            && |sig| == 64 && |pk| == 32
            && BytesToElement(c, sig[..32]).Some? && BytesToElement(c, pk).Some?
            && Equation(c, m, sha512, pk, sig, msg)
  {
    if |sig| == 64 && |pk| == 32 && BytesToElement(c, sig[..32]).Some? && BytesToElement(c, pk).Some? {
      ElementsVerify(c, m, sha512, pk, sig, msg);
    }
  }

  lemma ElementsVerify<G(!new)>(c: Curve, m: ScalarMult.Reading<G>, sha512: Sha512, pk: Data, sig: Data, msg: Data)
    requires Assumed(c, m)
    requires |sig| == 64 && |pk| == 32
    requires BytesToElement(c, sig[..32]).Some? && BytesToElement(c, pk).Some?
    ensures Verify(c, sha512, pk, sig, msg) <==> Equation(c, m, sha512, pk, sig, msg)
  {
    ElementMeans(c, m, sig[..32]);
    ElementMeans(c, m, pk);
    var R, A := BytesToElement(c, sig[..32]).value, BytesToElement(c, pk).value;
    var h := HInt(sha512, sig[..32] + pk + msg);
    MultipleIsElement(c, m, FromLittle(sig[32..]));
    ScalarMult.TimesReads(c.q, c.d, m, A, h % c.l);
    NFoldMod(m.group, m.value(A), c.l, h);
    var t := ScalarMult.Times(c.q, c.d, A, h % c.l);
    assert m.AddsUp(c.q, c.d, R, t);
    SameBytes(c, m, BaseMult(c, FromLittle(sig[32..])), Edwards.Add(c.q, c.d, R, t));
  }

  /** (r + h a) B = r B + h (a B), with the sum reduced modulo L twice on the way. */
  lemma SignedScalar<G(!new)>(g: Group<G>, b: G, l: nat, r: nat, h: nat, a: nat, p: nat)
    requires Commutative(g) && l > 0 && NFold(g, b, l) == g.zero
    requires p == h * a
    ensures NFold(g, b, (r + p) % l % l) == g.op(NFold(g, b, r), NFold(g, NFold(g, b, a), h))
  {
    var n := r + p;
    NFoldMod(g, b, l, n);
    assert n % l % l == n % l;
    NFoldAdd(g, b, r, p);
    assert p == a * h;
    NFoldMul(g, b, a, h);
  }

  /** The two halves of a signature, read back, with the scalars they were made from. */
  lemma SignatureParts(c: Curve, sha512: Sha512, msg: Data, sk: SecretKey, pk: Data)
    returns (r: nat, a: nat, h: nat, ha: nat)
    ensures a == Clamp(SigningHash(sha512, sk)[..32]) && r == FromLittle(sha512(SigningHash(sha512, sk)[32..] + msg))
    ensures var sig := Signature(c, sha512, msg, sk, pk);
            && sig[..32] == PointBytes(c, BaseMult(c, r))
            && h == HInt(sha512, sig[..32] + pk + msg) && ha == h * a
            && FromLittle(sig[32..]) == (r + ha) % c.l % c.l
  {
    a, r := Clamp(SigningHash(sha512, sk)[..32]), Nonce(sha512, msg, sk);
    var rBytes := PointBytes(c, BaseMult(c, r));
    h := HInt(sha512, rBytes + pk + msg);
    ProductIsNat(h, a);
    ha := h * a;
    Halves(rBytes, ScalarToBytes(c, (r + ha) % c.l));
  }

  lemma Halves(first: Data, second: Data)
    requires |first| == 32
    ensures (first + second)[..32] == first && (first + second)[32..] == second
  {
  }

  /** A signature whose R is r B and whose S is r + h a modulo L verifies under the key b B exactly when
      r B + h (a B) and r B + h (b B) are the same element. */
  lemma EquationMeans<G(!new)>(c: Curve, m: ScalarMult.Reading<G>, sha512: Sha512, pk: Data, sig: Data, msg: Data,
                               r: nat, a: nat, b: nat, h: nat, ha: nat)
    requires Assumed(c, m) && ha == h * a
    requires |sig| == 64 && sig[..32] == PointBytes(c, BaseMult(c, r)) && pk == PointBytes(c, BaseMult(c, b))
    requires h == HInt(sha512, sig[..32] + pk + msg)
    requires FromLittle(sig[32..]) == (r + ha) % c.l % c.l
    ensures var g, base := m.group, m.value(c.base); var R := NFold(g, base, r);
            Verify(c, sha512, pk, sig, msg) <==>
            g.op(R, NFold(g, NFold(g, base, a), h)) == g.op(R, NFold(g, NFold(g, base, b), h))
  {
    MultipleIsElement(c, m, r);
    MultipleIsElement(c, m, b);
    SignedScalar(m.group, m.value(c.base), c.l, r, h, a, ha);
    VerifyMeans(c, m, sha512, pk, sig, msg);
  }

  /** h (a B) depends only on h a modulo the order. */
  lemma SameProduct<G(!new)>(g: Group<G>, base: G, l: nat, a: nat, b: nat, h: nat)
    requires Commutative(g) && l > 0 && NFold(g, base, l) == g.zero && (h * a) % l == (h * b) % l
    ensures NFold(g, NFold(g, base, a), h) == NFold(g, NFold(g, base, b), h)
  {
    Scaled(g, base, l, a, h);
    Scaled(g, base, l, b, h);
  }

  lemma Scaled<G(!new)>(g: Group<G>, base: G, l: nat, a: nat, h: nat)
    requires Commutative(g) && l > 0 && NFold(g, base, l) == g.zero
    ensures h * a >= 0 && NFold(g, NFold(g, base, a), h) == NFold(g, base, (h * a) % l)
  {
    NFoldMul(g, base, a, h);
    assert a * h == h * a;
    NFoldMod(g, base, l, h * a);
  }

  /** And for a base of order exactly l, on nothing else. */
  lemma OnlySameProduct<G(!new)>(g: Group<G>, base: G, l: nat, r: nat, a: nat, b: nat, h: nat)
    requires Commutative(g) && l > 0 && forall n: nat :: OrderIs(g, base, l, n)
    requires var R := NFold(g, base, r);
             g.op(R, NFold(g, NFold(g, base, a), h)) == g.op(R, NFold(g, NFold(g, base, b), h))
    ensures (h * a) % l == (h * b) % l
  {
    MultiplesOfL(l);
    assert OrderIs(g, base, l, l);
    Scaled(g, base, l, a, h);
    Scaled(g, base, l, b, h);
    CancelFold(g, base, l, r, NFold(g, base, (h * a) % l), NFold(g, base, (h * b) % l));
    FoldIsInjective(g, base, l, (h * a) % l, (h * b) % l);
  }

  lemma MultiplesOfL(l: nat)
    requires l > 0
    ensures l % l == 0
  {
  }

  /** Section 5.1.5 of RFC 8032: clamping keeps bits 3 to 253 and sets bit 254. */
  ghost predicate IsClamped(a: nat, h: Digest) {
    a == Pow2(254) + 8 * Low(FromLittle(h[..32]) / 8, 251)
  }

  ghost predicate StandsFor<G(!new)>(c: Curve, m: ScalarMult.Reading<G>, s: Data, n: nat) {
    BytesToElement(c, s).Some? && m.value(BytesToElement(c, s).value) == NFold(m.group, m.value(c.base), n)
  }

  /** The public key is the clamped first half of the hashed seed, or of the 64-byte key, times B. */
  lemma PublicKeyIs<G(!new)>(c: Curve, m: ScalarMult.Reading<G>, sha512: Sha512, sk: SecretKey, a: nat)
    requires Assumed(c, m) && IsClamped(a, if sk.McKey? then sk.privkey else sha512(sk.seed))
    ensures |PublicKey(c, sha512, sk)| == 32 && StandsFor(c, m, PublicKey(c, sha512, sk), a)
  {
    ClampedIs(a, H(sha512, sk));
    MultipleIsElement(c, m, a);
  }

  lemma ClampedIs(a: nat, h: Digest)
    requires IsClamped(a, h)
    ensures a == Clamp(h[..32])
  {
    ClampIs(h[..32]);
  }

  /** Section 5.1.6 of RFC 8032, what signing computes: R is r B for r = H(prefix, M), the prefix being the other half
      of the hash, and S is r + H(R, A, M) a modulo L. */
  lemma SignatureIs<G(!new)>(c: Curve, m: ScalarMult.Reading<G>, sha512: Sha512, sk: SecretKey, pk: Data, msg: Data,
                             a: nat)
    requires Assumed(c, m)
    requires IsClamped(a, if sk.McKey? then sk.privkey else sha512(if |sk.seed| <= 32 then sk.seed else sk.seed[..32]))
    ensures var sig := Signature(c, sha512, msg, sk, pk);
            var hash := if sk.McKey? then sk.privkey else sha512(if |sk.seed| <= 32 then sk.seed else sk.seed[..32]);
            var r := FromLittle(sha512(hash[32..] + msg));
            var h := FromLittle(sha512(sig[..32] + pk + msg));
            && |sig| == 64 && StandsFor(c, m, sig[..32], r)
            && h * a >= 0 && FromLittle(sig[32..]) == (r + h * a) % c.l
  {
    var r, a', h, ha := SignatureParts(c, sha512, msg, sk, pk);
    ClampedIs(a, SigningHash(sha512, sk));
    MultipleIsElement(c, m, r);
    ReducedTwice(r + ha, c.l);
  }

  lemma ReducedTwice(n: nat, l: nat)
    requires l > 0
    ensures n % l % l == n % l
  {
    DivModUnique(n % l, l, 0, n % l);
  }

  /** The scalar that signs and the scalar behind the public key agree as far as this message can tell: signing hashes
      the first 32 bytes of a seed, key derivation all of it. */
  ghost predicate ScalarsAgree(c: Curve, sha512: Sha512, sk: SecretKey, msg: Data) {
    var pk := PublicKey(c, sha512, sk);
    var h := HInt(sha512, Signature(c, sha512, msg, sk, pk)[..32] + pk + msg);
    (h * Clamp(SigningHash(sha512, sk)[..32])) % c.l == (h * Clamp(H(sha512, sk)[..32])) % c.l
  }

  /** They are the same scalar for a 64-byte key, and for a seed of at most 32 bytes. */
  lemma SameHashAgrees(c: Curve, sha512: Sha512, sk: SecretKey, msg: Data)
    requires sk.Seed? ==> |sk.seed| <= 32
    ensures ScalarsAgree(c, sha512, sk, msg)
  {
  }

  lemma SignatureMeans<G(!new)>(c: Curve, m: ScalarMult.Reading<G>, sha512: Sha512, sk: SecretKey, msg: Data)
    returns (r: nat, a: nat, b: nat, h: nat)
    requires Assumed(c, m)
    ensures a == Clamp(SigningHash(sha512, sk)[..32]) && b == Clamp(H(sha512, sk)[..32])
    ensures var pk := PublicKey(c, sha512, sk); var sig := Signature(c, sha512, msg, sk, pk);
            var g, base := m.group, m.value(c.base); var R := NFold(g, base, r);
            && h == HInt(sha512, sig[..32] + pk + msg)
            && (Verify(c, sha512, pk, sig, msg) <==>
                g.op(R, NFold(g, NFold(g, base, a), h)) == g.op(R, NFold(g, NFold(g, base, b), h)))
  {
    var pk, ha := PublicKey(c, sha512, sk), 0;
    r, a, h, ha := SignatureParts(c, sha512, msg, sk, pk);
    b := Clamp(H(sha512, sk)[..32]);
    EquationMeans(c, m, sha512, pk, Signature(c, sha512, msg, sk, pk), msg, r, a, b, h, ha);
  }

  /** Sections 5.1.6 and 5.1.7 of RFC 8032: what Signature produces, Verify accepts, if the two scalars agree; they do
      for all keys but seeds of more than 32 bytes. */
  lemma SignatureVerifies<G(!new)>(c: Curve, m: ScalarMult.Reading<G>, sha512: Sha512, sk: SecretKey, msg: Data)
    requires Assumed(c, m)
    ensures var pk := PublicKey(c, sha512, sk);
            ScalarsAgree(c, sha512, sk, msg) ==> Verify(c, sha512, pk, Signature(c, sha512, msg, sk, pk), msg)
    ensures (sk.Seed? ==> |sk.seed| <= 32) ==> ScalarsAgree(c, sha512, sk, msg)
  {
    var r, a, b, h := SignatureMeans(c, m, sha512, sk, msg);
    if ScalarsAgree(c, sha512, sk, msg) {
      SameProduct(m.group, m.value(c.base), c.l, a, b, h);
    }
    if sk.Seed? ==> |sk.seed| <= 32 {
      SameHashAgrees(c, sha512, sk, msg);
    }
  }

  /** Exactly when: for a base point of order L, and seeds of every length. */
  lemma SignatureVerifiesIff<G(!new)>(c: Curve, m: ScalarMult.Reading<G>, sha512: Sha512, sk: SecretKey, msg: Data)
    requires Assumed(c, m) && forall n: nat :: OrderIs(m.group, m.value(c.base), c.l, n)
    ensures var pk := PublicKey(c, sha512, sk);
            Verify(c, sha512, pk, Signature(c, sha512, msg, sk, pk), msg) <==> ScalarsAgree(c, sha512, sk, msg)
  {
    var r, a, b, h := SignatureMeans(c, m, sha512, sk, msg);
    var pk := PublicKey(c, sha512, sk);
    if ScalarsAgree(c, sha512, sk, msg) {
      SameProduct(m.group, m.value(c.base), c.l, a, b, h);
    } else if Verify(c, sha512, pk, Signature(c, sha512, msg, sk, pk), msg) {
      OnlySameProduct(m.group, m.value(c.base), c.l, r, a, b, h);
    }
  }

  /** A hash that tells a seed of 33 bytes from its first 32. */
  function LengthHash(s: Data): Digest {
    [if |s| == 32 then 0 else if |s| == 33 then 8 else 1] + Zeros(63)
  }

  lemma {:induction false} ZerosAreZero(n: nat)
    ensures FromLittle(Zeros(n)) == 0
  {
    if n > 0 {
      assert Zeros(n)[1..] == Zeros(n - 1);
      ZerosAreZero(n - 1);
    }
  }

  lemma OneByte(b: Byte, n: nat)
    ensures FromLittle([b] + Zeros(n)) == b
  {
    ZerosAreZero(n);
    assert ([b] + Zeros(n))[1..] == Zeros(n);
  }

  lemma ClampOfByte(s: Data, b: Byte, k: nat)
    requires s == [b] + Zeros(31) && b == 8 * k && k < 2
    ensures Clamp(s) == Pow2(254) + 8 * k
  {
    OneByte(b, 31);
    ClampOfSmall(b, k, 251);
  }

  lemma ClampOfSmall(a: nat, k: nat, n: nat)
    requires a == 8 * k && k < 2 && n > 0
    ensures ClampBits(a, n) == Pow2(n + 3) + 8 * k
  {
    ClampBitsAre(a, n);
    LowOfSmall(k, n - 1);
  }

  lemma LowOfSmall(k: nat, n: nat)
    requires k < 2
    ensures Low(k, n + 1) == k
  {
    PowDoubles(n);
    DivModUnique(k, Pow2(n + 1), 0, k);
  }

  lemma FirstHalf(b: Byte)
    ensures ([b] + Zeros(63))[..32] == [b] + Zeros(31)
  {
  }

  lemma LongSeedScalars(c: Curve, sha512: Sha512, seed: Data)
    requires |seed| == 33 && sha512 == (s => LengthHash(s))
    ensures Clamp(SigningHash(sha512, Seed(seed))[..32]) == Pow2(254)
    ensures Clamp(H(sha512, Seed(seed))[..32]) == Pow2(254) + 8
  {
    FirstHalf(0);
    FirstHalf(8);
    ClampOfByte(SigningHash(sha512, Seed(seed))[..32], 0, 0);
    ClampOfByte(H(sha512, Seed(seed))[..32], 8, 1);
  }

  lemma OtherLengthsHashToOne(sha512: Sha512, s: Data)
    requires |s| > 33 && sha512 == (s => LengthHash(s))
    ensures HInt(sha512, s) == 1
  {
    OneByte(1, 63);
  }

  lemma ScalarsDiffer(c: Curve, sha512: Sha512, sk: SecretKey, msg: Data, k: nat)
    requires Clamp(SigningHash(sha512, sk)[..32]) == k && Clamp(H(sha512, sk)[..32]) == k + 8 && c.l > 8
    requires var pk := PublicKey(c, sha512, sk); HInt(sha512, Signature(c, sha512, msg, sk, pk)[..32] + pk + msg) == 1
    ensures !ScalarsAgree(c, sha512, sk, msg)
  {
    EightMoreDiffers(k, c.l);
  }

  /** With such a hash, whatever a seed of 33 bytes signs is refused under its own public key. */
  lemma LongSeedFails<G(!new)>(c: Curve, m: ScalarMult.Reading<G>, sha512: Sha512, seed: Data, msg: Data)
    requires Assumed(c, m) && forall n: nat :: OrderIs(m.group, m.value(c.base), c.l, n)
    requires c.l > 8 && |seed| == 33 && sha512 == (s => LengthHash(s))
    ensures var pk := PublicKey(c, sha512, Seed(seed));
            !Verify(c, sha512, pk, Signature(c, sha512, msg, Seed(seed), pk), msg)
  {
    var pk := PublicKey(c, sha512, Seed(seed));
    OtherLengthsHashToOne(sha512, Signature(c, sha512, msg, Seed(seed), pk)[..32] + pk + msg);
    LongSeedScalars(c, sha512, seed);
    ScalarsDiffer(c, sha512, Seed(seed), msg, Pow2(254));
    SignatureVerifiesIff(c, m, sha512, Seed(seed), msg);
  }

  lemma EightMoreDiffers(n: nat, l: nat)
    requires l > 8
    ensures (1 * n) % l != (1 * (n + 8)) % l
  {
    var e := (n + 8) / l - n / l;
    assert l * e == 8 - ((n + 8) % l - n % l);
    assert e <= 0 ==> l * e <= 0;
    assert e >= 1 ==> l * e >= l;
  }

  /** Every message signed with a 64-byte key verifies under that key's public key; other key sizes are refused. */
  lemma SignThenVerify<G(!new)>(c: Curve, m: ScalarMult.Reading<G>, sha512: Sha512, prv: Data, msg: Data)
    requires Assumed(c, m)
    ensures Sign(c, sha512, prv, msg).Some? <==> |prv| == 64
    ensures |prv| == 64 ==> Verify(c, sha512, PublicKey(c, sha512, McKey(prv)), Sign(c, sha512, prv, msg).value, msg)
  {
    if |prv| == 64 {
      SignatureVerifies(c, m, sha512, McKey(prv), msg);
    }
  }

  /** Only S modulo L matters to Verify: section 5.1.7 of RFC 8032 would refuse S outside [0, L). */
  lemma ScalarCountsModuloL(c: Curve, sha512: Sha512, pk: Data, sig: Data, sig': Data, m: Data)
    requires |sig| == 64 && |sig'| == 64 && sig[..32] == sig'[..32]
    requires FromLittle(sig[32..]) % c.l == FromLittle(sig'[32..]) % c.l
    ensures Verify(c, sha512, pk, sig, m) <==> Verify(c, sha512, pk, sig', m)
  {
  }

  /** S + L still has 32 bytes. */
  ghost predicate HasRoom(c: Curve, sig: Data) {
    |sig| == 64 && FromLittle(sig[32..]) + c.l < Pow256(|sig| - 32)
  }

  /** The same signature with L added to S. */
  function Twin(c: Curve, sig: Data): Data
    requires HasRoom(c, sig)
  {
    sig[..32] + ToLittle(FromLittle(sig[32..]) + c.l, |sig| - 32)
  }

  lemma TwinParts(c: Curve, sig: Data)
    requires HasRoom(c, sig)
    ensures |Twin(c, sig)| == 64 && Twin(c, sig)[..32] == sig[..32]
    ensures FromLittle(Twin(c, sig)[32..]) == FromLittle(sig[32..]) + c.l
  {
    TailPlus(sig, c.l, sig[32..]);
  }

  lemma TailPlus(sig: Data, l: nat, tail: Data)
    requires |sig| >= 32 && FromLittle(tail) + l < Pow256(|tail|)
    ensures var t := sig[..32] + ToLittle(FromLittle(tail) + l, |tail|);
            |t| == 32 + |tail| && t[..32] == sig[..32] && FromLittle(t[32..]) == FromLittle(tail) + l
  {
    LittleAppended(sig[..32], FromLittle(tail) + l, |tail|);
  }

  lemma LittleAppended(first: Data, n: nat, len: nat)
    requires |first| == 32 && n < Pow256(len)
    ensures var t := first + ToLittle(n, len); |t| == 32 + len && t[..32] == first && FromLittle(t[32..]) == n
  {
    LittleOfInt(n, len);
    Halves(first, ToLittle(n, len));
  }

  /** A signature has a second form with S outside [0, L), accepted if and only if the signature is. */
  lemma TwinIsAccepted(c: Curve, sha512: Sha512, pk: Data, sig: Data, m: Data)
    requires HasRoom(c, sig)
    ensures var twin := Twin(c, sig);
            && |twin| == 64 && twin != sig && twin[..32] == sig[..32] && FromLittle(twin[32..]) >= c.l
            && (Verify(c, sha512, pk, twin, m) <==> Verify(c, sha512, pk, sig, m))
  {
    TwinParts(c, sig);
    ModShift(c.l, FromLittle(sig[32..]), 1);
    ScalarCountsModuloL(c, sha512, pk, sig, Twin(c, sig), m);
  }

  lemma SmallHasRoom(c: Curve, sig: Data)
    requires |sig| == 64 && FromLittle(sig[32..]) < c.l
    ensures HasRoom(c, sig)
  {
    BytesAreBits(|sig| - 32);
    Pow2Grows(254, 256);
    PowDoubles(253);
  }

  /** So every signature that Signature makes has a twin, and Verify accepts both or neither; both, if the scalars of
      signing and key derivation agree. */
  lemma SignaturesHaveTwins<G(!new)>(c: Curve, m: ScalarMult.Reading<G>, sha512: Sha512, sk: SecretKey, msg: Data)
    requires Assumed(c, m)
    ensures var pk := PublicKey(c, sha512, sk);
            var sig := Signature(c, sha512, msg, sk, pk);
            && FromLittle(sig[32..]) < c.l && HasRoom(c, sig)
            && var twin := Twin(c, sig);
               && |twin| == 64 && twin != sig && FromLittle(twin[32..]) >= c.l
               && (Verify(c, sha512, pk, twin, msg) <==> Verify(c, sha512, pk, sig, msg))
               && (ScalarsAgree(c, sha512, sk, msg) ==> Verify(c, sha512, pk, twin, msg))
  {
    var pk := PublicKey(c, sha512, sk);
    var r, a, h, ha := SignatureParts(c, sha512, msg, sk, pk);
    var sig := Signature(c, sha512, msg, sk, pk);
    SignatureVerifies(c, m, sha512, sk, msg);
    SmallHasRoom(c, sig);
    TwinIsAccepted(c, sha512, pk, sig, msg);
  }
}
