/** shared_secret: the Montgomery ladder with deferred swaps, and the ladder of section 5 of RFC 7748 it refines. */
module X25519 {
  import opened Bytes
  import opened Bits
  import opened Modular
  import opened Groups
  import opened Fermat
  import opened Points
  import opened Ed25519

  /** x/z, projectively. */
  datatype Pair = Pair(x: int, z: int)

  // ---- the formulas of RFC 7748, reduced once at the end ----

  /** Doubling, with a24 = 121665. */
  function Dbl(q: int, r: Pair): Pair
    requires q > 0
  {
    var AA, BB := (r.x + r.z) * (r.x + r.z), (r.x - r.z) * (r.x - r.z);
    var E := AA - BB;
    Pair((AA * BB) % q, (E * (AA + 121665 * E)) % q)
  }

  /** Differential addition of two points whose difference has x-coordinate u. */
  function DAdd(q: int, u: int, r: Pair, s: Pair): Pair
    requires q > 0
  {
    var DA, CB := (s.x - s.z) * (r.x + r.z), (s.x + s.z) * (r.x - r.z);
    Pair(((DA + CB) * (DA + CB)) % q, (u * ((DA - CB) * (DA - CB))) % q)
  }

  /** The plain ladder after n of its 255 steps, from bit 254 downwards: no swaps, one branch per bit. */
  function Plain(q: int, u: int, e: nat, n: nat): (Pair, Pair)
    requires q > 0 && n <= 255
  {
    if n == 0 then (Pair(1, 0), Pair(u, 1))
    else
      var (r, s) := Plain(q, u, e, n - 1);
      if BitAt(e, 255 - n) == 0 then (Dbl(q, r), DAdd(q, u, r, s))
      else (DAdd(q, u, r, s), Dbl(q, s))
  }

  // ---- one step of the source's loop ----

  /** The body of the loop after the swap: every operation reduced, 121666 times E added to BB. */
  function Step(q: int, x1: int, r: Pair, s: Pair): (Pair, Pair)
    requires q > 0
  {
    var D := (s.x - s.z) % q;
    var B := (r.x - r.z) % q;
    var A := (r.x + r.z) % q;
    var C := (s.x + s.z) % q;
    var DA := (D * A) % q;
    var CB := (C * B) % q;
    var BB := (B * B) % q;
    var AA := (A * A) % q;
    var plus := (DA + CB) % q;
    var minus := (DA - CB) % q;
    var E := (AA - BB) % q;
    var minus2 := (minus * minus) % q;
    var t := (E * 121666) % q;
    (Pair((AA * BB) % q, (E * ((BB + t) % q)) % q), Pair((plus * plus) % q, (x1 * minus2) % q))
  }

  lemma SquareMod(q: int, a: int, b: int)
    requires q > 0 && Eqm(q, a, b)
    ensures Eqm(q, (a * a) % q, b * b)
  {
    Mul(q, a, b, a, b);
    Reduced(q, a * a);
  }

  lemma ProductMod(q: int, a: int, a': int, b: int, b': int)
    requires q > 0 && Eqm(q, a, a') && Eqm(q, b, b')
    ensures Eqm(q, (a * b) % q, a' * b')
  {
    Mul(q, a, a', b, b');
    Reduced(q, a * b);
  }

  lemma SumMod(q: int, a: int, a': int, b: int, b': int)
    requires q > 0 && Eqm(q, a, a') && Eqm(q, b, b')
    ensures Eqm(q, (a + b) % q, a' + b') && Eqm(q, (a - b) % q, a' - b')
  {
    Add(q, a, a', b, b');
    Sub(q, a, a', b, b');
    Reduced(q, a + b);
    Reduced(q, a - b);
  }

  /** AA + 121665 E = BB + 121666 E, and reducing early or late gives the same residues. */
  lemma DoubleSums(q: int, aa: int, bb: int, AA: int, BB: int)
    requires q > 0 && Eqm(q, AA, aa) && Eqm(q, BB, bb)
    ensures (AA * BB) % q == (aa * bb) % q
    ensures var e, E := aa - bb, (AA - BB) % q;
            (E * ((BB + (E * 121666) % q) % q)) % q == (e * (aa + 121665 * e)) % q
  {
    var e, E := aa - bb, (AA - BB) % q;
    Mul(q, AA, aa, BB, bb);
    SumMod(q, AA, aa, BB, bb);
    ProductMod(q, E, e, 121666, 121666);
    var t := (E * 121666) % q;
    SumMod(q, BB, bb, t, e * 121666);
    var w := (BB + t) % q;
    var v := aa + 121665 * e;
    assert v == bb + e * 121666;
    Mul(q, E, e, w, v);
  }

  lemma StepDoubles(q: int, x1: int, r: Pair, s: Pair)
    requires q > 0
    ensures Step(q, x1, r, s).0 == Dbl(q, r)
  {
    var a, b := r.x + r.z, r.x - r.z;
    var A, B := a % q, b % q;
    Reduced(q, a); Reduced(q, b);
    SquareMod(q, A, a); SquareMod(q, B, b);
    DoubleSums(q, a * a, b * b, (A * A) % q, (B * B) % q);
  }

  lemma AddSums(q: int, u: int, da: int, cb: int, DA: int, CB: int)
    requires q > 0 && Eqm(q, DA, da) && Eqm(q, CB, cb)
    ensures var plus, minus := (DA + CB) % q, (DA - CB) % q;
            && (plus * plus) % q == ((da + cb) * (da + cb)) % q
            && (u * ((minus * minus) % q)) % q == (u * ((da - cb) * (da - cb))) % q
  {
    var plus, minus := (DA + CB) % q, (DA - CB) % q;
    var p, m := da + cb, da - cb;
    SumMod(q, DA, da, CB, cb);
    Mul(q, plus, p, plus, p);
    SquareMod(q, minus, m);
    Mul(q, u, u, (minus * minus) % q, m * m);
  }

  lemma StepAdds(q: int, x1: int, r: Pair, s: Pair)
    requires q > 0
    ensures Step(q, x1, r, s).1 == DAdd(q, x1, r, s)
  {
    var a, b, c, d := r.x + r.z, r.x - r.z, s.x + s.z, s.x - s.z;
    var A, B, C, D := a % q, b % q, c % q, d % q;
    Reduced(q, a); Reduced(q, b); Reduced(q, c); Reduced(q, d);
    ProductMod(q, D, d, A, a);
    ProductMod(q, C, c, B, b);
    AddSums(q, x1, d * a, c * b, (D * A) % q, (C * B) % q);
  }

  /** Differential addition does not care which of its operands comes first. */
  lemma DAddSymmetric(q: int, u: int, r: Pair, s: Pair)
    requires q > 0
    ensures DAdd(q, u, r, s) == DAdd(q, u, s, r)
  {
    var m, n := (s.x - s.z) * (r.x + r.z), (s.x + s.z) * (r.x - r.z);
    assert (r.x - r.z) * (s.x + s.z) == n && (r.x + r.z) * (s.x - s.z) == m;
    assert (m - n) * (m - n) == (n - m) * (n - m);
  }

  /** The loop of shared_secret. Swapping is put off until the bit changes. */
  method Ladder(q: int, x1: int, e: nat) returns (x2: int, z2: int)
    requires q > 0
    ensures Pair(x2, z2) == Plain(q, x1, e, 255).0
  {
    var x3, z3;
    x2, z2, x3, z3 := 1, 0, x1, 1;
    var swap := 0;
    for pos := 255 downto 0
      invariant swap == 0 || swap == 1
      invariant Plain(q, x1, e, 255 - pos)
                == if swap == 1 then (Pair(x3, z3), Pair(x2, z2)) else (Pair(x2, z2), Pair(x3, z3))
    {
      var b := BitAt(e, pos);
      swap := if swap == b then 0 else 1;
      if swap == 1 {
        x2, x3 := x3, x2;
        z2, z3 := z3, z2;
      }
      swap := b;
      ghost var r, s := Pair(x2, z2), Pair(x3, z3);
      var tmp0 := (x3 - z3) % q;
      var tmp1 := (x2 - z2) % q;
      x2 := (x2 + z2) % q;
      z2 := (x3 + z3) % q;
      z3 := (tmp0 * x2) % q;
      z2 := (z2 * tmp1) % q;
      tmp0 := (tmp1 * tmp1) % q;
      tmp1 := (x2 * x2) % q;
      x3 := (z3 + z2) % q;
      z2 := (z3 - z2) % q;
      x2 := (tmp1 * tmp0) % q;
      tmp1 := (tmp1 - tmp0) % q;
      z2 := (z2 * z2) % q;
      z3 := (tmp1 * 121666) % q;
      x3 := (x3 * x3) % q;
      tmp0 := (tmp0 + z3) % q;
      z3 := (x1 * z2) % q;
      z2 := (tmp1 * tmp0) % q;
      assert (Pair(x2, z2), Pair(x3, z3)) == Step(q, x1, r, s);
      StepDoubles(q, x1, r, s);
      StepAdds(q, x1, r, s);
      DAddSymmetric(q, x1, r, s);
    }
    if swap == 1 {
      x2, x3 := x3, x2;
      z2, z3 := z3, z2;
    }
  }

  // ---- the whole key exchange ----

  /** n & ~(1 << k) */
  function ClearBit(n: nat, k: nat): nat {
    assert n >= Pow2(k) * (n / Pow2(k));
    n - (if BitAt(n, k) == 1 then Pow2(k) else 0)
  }

  function First32(s: Data): Data { if |s| <= 32 then s else s[..32] }

  function Scalar(prv: Data): nat {
    ClearBit(ClampBits(FromLittle(First32(prv)), 251), 255)
  }

  /** The key exchange clamps exactly as signing does. */
  lemma ScalarIsClamp(prv: Data)
    ensures Scalar(prv) == Clamp(First32(prv)) && Scalar(prv) < Pow2(255)
  {
    ClampIs(First32(prv));
    SmallHasNoBit(Clamp(First32(prv)), 255);
  }

  lemma SmallHasNoBit(n: nat, k: nat)
    requires n < Pow2(k)
    ensures n / Pow2(k) == 0 && ClearBit(n, k) == n
  {
    DivModUnique(n, Pow2(k), 0, n);
  }

  /** The Montgomery x of a public key: (y + 1) / (1 - y). */
  function UCoordinate(c: Curve, pub: Data): (u: int)
    ensures 0 <= u < c.q
  {
    var y := ClearBit(FromLittle(pub), 255);
    (((y + 1) % c.q) * Inv(c, (1 - y) % c.q)) % c.q
  }

  function AffineX(c: Curve, r: Pair): (x: int)
    ensures 0 <= x < c.q
  {
    (r.x * Inv(c, r.z)) % c.q
  }

  /** x2.to_bytes(32, "little") */
  function FieldBytes(c: Curve, x: int): (r: Data)
    requires 0 <= x < c.q
    ensures |r| == 32 && FromLittle(r) == x
  {
    BytesAreBits(32);
    Pow2Grows(255, 256);
    LittleOfInt(x, 32);
    ToLittle(x, 32)
  }

  /** The secret is x in 32 little-endian bytes. */
  ghost predicate Spells(secret: Option<Data>, x: int) {
    secret.Some? && |secret.value| == 32 && FromLittle(secret.value) == x
  }

  /** None where the source raises "public key must be 32 bytes". */
  function SharedSecret(c: Curve, prv: Data, pub: Data): (r: Option<Data>)
    ensures r.Some? <==> |pub| == 32
  {
    if |pub| != 32 then None
    else Some(FieldBytes(c, AffineX(c, Plain(c.q, UCoordinate(c, pub), Scalar(prv), 255).0)))
  }

  method ComputeSharedSecret(c: Curve, prv: Data, pub: Data) returns (secret: Option<Data>)
    ensures secret == SharedSecret(c, prv, pub)
  {
    if |pub| != 32 {
      return None;
    }
    var x2, z2 := Ladder(c.q, UCoordinate(c, pub), Scalar(prv));
    secret := Some(FieldBytes(c, AffineX(c, Pair(x2, z2))));
  }

  // ---- what the ladder computes, given the x-only laws ----

  /** A reading of pairs as x-coordinates of group elements. */
  datatype XReading<!G> = XReading(group: Group<G>, isX: (Pair, G) -> bool, x: G -> int)
  {
    ghost predicate Doubles(q: int, r: Pair, g: G)
      requires q > 0
    {
      isX(r, g) ==> isX(Dbl(q, r), group.op(g, g))
    }

    /** r reads as g, s as g + p, and their difference p has x-coordinate u, which must not be 0. */
    ghost predicate AddsWithDifference(q: int, u: int, p: G, r: Pair, s: Pair, g: G)
      requires q > 0
    {
      u % q != 0 && isX(Pair(u, 1), p) && isX(r, g) && isX(s, group.op(g, p)) ==>
        isX(DAdd(q, u, r, s), group.op(group.op(g, g), p))
    }

    /** x-coordinate 0 belongs to the point of order two. */
    ghost predicate ZeroDoubles(q: int, u: int, p: G)
      requires q > 0
    {
      u % q == 0 && isX(Pair(u, 1), p) ==> group.op(p, p) == group.zero
    }

    ghost predicate Divides(c: Curve, r: Pair, g: G) {
      isX(r, g) ==> AffineX(c, r) == x(g)
    }
  }

  ghost predicate XOnlyLaws<G(!new)>(c: Curve, m: XReading<G>) {
    && Commutative(m.group)
    && m.isX(Pair(1, 0), m.group.zero)
    && (forall r, g :: m.Doubles(c.q, r, g))
    && (forall u, p, r, s, g :: m.AddsWithDifference(c.q, u, p, r, s, g))
    && (forall u, p :: m.ZeroDoubles(c.q, u, p))
    && (forall r, g :: m.Divides(c, r, g))
  }

  /** The top n of the 255 bits of e. */
  function Prefix(e: nat, n: nat): nat
    requires n <= 255
  {
    High(e, 255 - n)
  }

  lemma PrefixNext(e: nat, n: nat)
    requires 0 < n <= 255
    ensures Prefix(e, n) == 2 * Prefix(e, n - 1) + BitAt(e, 255 - n)
  {
    var p := Pow2(255 - n);
    var t := e / p;
    var k := t / 2;
    assert e == p * t + e % p;
    assert t == 2 * k + t % 2;
    assert p * t == 2 * p * k + p * (t % 2);
    assert p * (t % 2) + e % p < 2 * p;
    DivModUnique(e, 2 * p, k, p * (t % 2) + e % p);
  }

  /** After n steps the two pairs stand for [k]P and [k + 1]P, k being the bits used so far. */
  lemma {:induction false} PlainReads<G(!new)>(c: Curve, m: XReading<G>, u: int, p: G, e: nat, n: nat)
    requires XOnlyLaws(c, m) && m.isX(Pair(u, 1), p) && u % c.q != 0 && e < Pow2(255) && n <= 255
    ensures m.isX(Plain(c.q, u, e, n).0, NFold(m.group, p, Prefix(e, n)))
    ensures m.isX(Plain(c.q, u, e, n).1, NFold(m.group, p, Prefix(e, n) + 1))
  {
    if n == 0 {
      SmallHasNoBit(e, 255);
      NFoldOnce(m.group, p);
    } else {
      PlainReads(c, m, u, p, e, n - 1);
      PrefixNext(e, n);
      var (r, s) := Plain(c.q, u, e, n - 1);
      BranchReads(c, m, u, p, r, s, Prefix(e, n - 1), BitAt(e, 255 - n));
    }
  }

  lemma BranchReads<G(!new)>(c: Curve, m: XReading<G>, u: int, p: G, r: Pair, s: Pair, k: nat, bit: nat)
    requires XOnlyLaws(c, m) && m.isX(Pair(u, 1), p) && u % c.q != 0 && bit < 2
    requires m.isX(r, NFold(m.group, p, k)) && m.isX(s, NFold(m.group, p, k + 1))
    ensures var t := if bit == 0 then (Dbl(c.q, r), DAdd(c.q, u, r, s)) else (DAdd(c.q, u, r, s), Dbl(c.q, s));
            m.isX(t.0, NFold(m.group, p, 2 * k + bit)) && m.isX(t.1, NFold(m.group, p, 2 * k + bit + 1))
  {
    StepReads(c, m, u, p, r, s, k);
  }

  lemma NFoldOnce<G(!new)>(g: Group<G>, p: G)
    requires Commutative(g)
    ensures NFold(g, p, 0) == g.zero && NFold(g, p, 1) == p
  {
    assert g.Commutes(g.zero, p) && g.HasUnit(p);
  }

  /** From [k]P and [k + 1]P the formulas reach [2k]P, [2k + 1]P and [2k + 2]P. */
  lemma StepReads<G(!new)>(c: Curve, m: XReading<G>, u: int, p: G, r: Pair, s: Pair, k: nat)
    requires XOnlyLaws(c, m) && m.isX(Pair(u, 1), p) && u % c.q != 0
    requires m.isX(r, NFold(m.group, p, k)) && m.isX(s, NFold(m.group, p, k + 1))
    ensures m.isX(Dbl(c.q, r), NFold(m.group, p, 2 * k))
    ensures m.isX(DAdd(c.q, u, r, s), NFold(m.group, p, 2 * k + 1))
    ensures m.isX(Dbl(c.q, s), NFold(m.group, p, 2 * k + 2))
  {
    var g, x := m.group, NFold(m.group, p, k);
    NFoldAdd(g, p, k, k);
    NFoldAdd(g, p, k + 1, k + 1);
    assert k + k == 2 * k && (k + 1) + (k + 1) == 2 * k + 2;
    assert m.Doubles(c.q, r, x) && m.Doubles(c.q, s, NFold(g, p, k + 1));
    assert m.AddsWithDifference(c.q, u, p, r, s, x);
  }

  /** From x-coordinate 0 the ladder only ever reaches z = 0: the formula for adding does not hold there. */
  lemma {:induction false} PlainFromZero(q: int, u: int, e: nat, n: nat)
    requires q > 0 && u % q == 0 && n <= 255
    ensures Plain(q, u, e, n).0.z == 0 && (n > 0 ==> Plain(q, u, e, n).1.z == 0)
  {
    if n > 0 {
      PlainFromZero(q, u, e, n - 1);
      var (r, s) := Plain(q, u, e, n - 1);
      AddFromZero(q, u, r, s);
      DoubleOfZero(q, r);
      if n == 1 {
        DoubleOfMultiple(q, u);
      } else {
        DoubleOfZero(q, s);
      }
    }
  }

  lemma AddFromZero(q: int, u: int, r: Pair, s: Pair)
    requires q > 0 && u % q == 0
    ensures DAdd(q, u, r, s).z == 0
  {
    var DA, CB := (s.x - s.z) * (r.x + r.z), (s.x + s.z) * (r.x - r.z);
    MultipleTimes(q, u, (DA - CB) * (DA - CB));
  }

  lemma DoubleOfZero(q: int, r: Pair)
    requires q > 0 && r.z == 0
    ensures Dbl(q, r).z == 0
  {
    var AA, BB := (r.x + r.z) * (r.x + r.z), (r.x - r.z) * (r.x - r.z);
    assert r.x + r.z == r.x - r.z;
    TimesZero(q, AA - BB, AA + 121665 * (AA - BB));
  }

  lemma TimesZero(q: int, e: int, w: int)
    requires q > 0 && e == 0
    ensures (e * w) % q == 0
  {
  }

  lemma DoubleOfMultiple(q: int, u: int)
    requires q > 0 && u % q == 0
    ensures Dbl(q, Pair(u, 1)).z == 0
  {
    var AA, BB := (u + 1) * (u + 1), (u - 1) * (u - 1);
    SquaresDiffer(u, AA, BB);
    MultipleTimes(q, u, 4);
    MultipleTimes(q, AA - BB, AA + 121665 * (AA - BB));
  }

  lemma SquaresDiffer(u: int, a: int, b: int)
    requires a == (u + 1) * (u + 1) && b == (u - 1) * (u - 1)
    ensures a - b == u * 4
  {
  }

  lemma MultipleTimes(q: int, e: int, w: int)
    requires q > 0 && e % q == 0
    ensures (e * w) % q == 0
  {
    Mul(q, e, 0, w, w);
  }

  lemma NoInverseOfZero(c: Curve, x: int)
    ensures AffineX(c, Pair(x, 0)) == 0
  {
    PowOfZero(c.q - 2);
    TimesZero(c.q, 0, x);
  }

  lemma PowOfZero(e: nat)
    ensures e > 0 ==> Pow(0, e) == 0
  {
  }

  /** An even multiple of an element of order two is zero. */
  lemma EvenFold<G(!new)>(g: Group<G>, p: G, n: nat)
    requires Commutative(g) && g.op(p, p) == g.zero && n % 2 == 0
    ensures NFold(g, p, n) == g.zero
  {
    NFoldOnce(g, p);
    NFoldAdd(g, p, 1, 1);
    NFoldMod(g, p, 2, n);
  }

  lemma SecretReadsZero<G(!new)>(c: Curve, m: XReading<G>, u: int, p: G, e: nat)
    requires XOnlyLaws(c, m) && m.isX(Pair(u, 1), p) && u % c.q == 0 && e % 2 == 0
    ensures AffineX(c, Plain(c.q, u, e, 255).0) == m.x(NFold(m.group, p, e)) == 0
  {
    assert m.ZeroDoubles(c.q, u, p);
    EvenFold(m.group, p, e);
    PlainFromZero(c.q, u, e, 255);
    NoInverseOfZero(c, Plain(c.q, u, e, 255).0.x);
    NoInverseOfZero(c, 1);
    assert m.Divides(c, Pair(1, 0), m.group.zero);
  }

  /** The shared secret depends only on the group element [e]P; it is 0 where P is the point of order two. */
  lemma SecretReads<G(!new)>(c: Curve, m: XReading<G>, prv: Data, pub: Data, p: G)
    requires XOnlyLaws(c, m) && |pub| == 32 && m.isX(Pair(UCoordinate(c, pub), 1), p)
    ensures 0 <= m.x(NFold(m.group, p, Scalar(prv))) < c.q
    ensures Spells(SharedSecret(c, prv, pub), m.x(NFold(m.group, p, Scalar(prv))))
  {
    var e, u := Scalar(prv), UCoordinate(c, pub);
    ScalarIsClamp(prv);
    if u % c.q == 0 {
      ScalarIsEven(prv);
      SecretReadsZero(c, m, u, p, e);
    } else {
      PlainReads(c, m, u, p, e, 255);
      assert Prefix(e, 255) == e;
      assert m.Divides(c, Plain(c.q, u, e, 255).0, NFold(m.group, p, e));
    }
  }

  lemma ScalarIsEven(prv: Data)
    ensures Scalar(prv) % 2 == 0
  {
    ScalarIsClamp(prv);
    ClampIs(First32(prv));
    EvenOfEight(Scalar(prv));
  }

  lemma EvenOfEight(n: nat)
    requires n % 8 == 0
    ensures n % 2 == 0
  {
    DivModUnique(n, 2, 4 * (n / 8), 0);
  }

  /** The map from the Edwards curve: the u of n times the base point reads as n times b, unless that is zero. */
  ghost predicate MapsBase<G>(c: Curve, m: XReading<G>, b: G, n: nat) {
    NFold(m.group, b, n) != m.group.zero ==>
      m.isX(Pair(UCoordinate(c, PointBytes(c, BaseMult(c, n))), 1), NFold(m.group, b, n))
  }

  lemma OddDivides(l: nat, n: nat, k: nat)
    requires l % 2 == 1 && n == 2 * k && n % l == 0
    ensures k % l == 0
  {
    var m := n / l;
    assert 2 * k == l * m;
    var h, j := l / 2, m / 2;
    assert l * m == 2 * (h * m) + m;
    assert m == 2 * j;
    assert l * m == 2 * (l * j);
    DivModUnique(k, l, j, 0);
  }

  /** Eight times a number between 0 and an odd l is no multiple of l. */
  lemma EightIsNoMultiple(l: nat, n: nat, k: nat)
    requires l % 2 == 1 && 0 < k < l && n == 8 * k
    ensures n % l != 0
  {
    if n % l == 0 {
      OddDivides(l, n, 4 * k);
      OddDivides(l, 4 * k, 2 * k);
      OddDivides(l, 2 * k, k);
      DivModUnique(k, l, 0, k);
    }
  }

  lemma ScalarIsEight(prv: Data, l: nat)
    requires Pow2(252) < l
    ensures exists k: nat :: 0 < k < l && Scalar(prv) == 8 * k
  {
    ScalarIsClamp(prv);
    ClampIs(First32(prv));
    var low := Low(FromLittle(First32(prv)) / 8, 251);
    TopAndLow(low, 251);
    assert Scalar(prv) == 8 * (Pow2(251) + low);
  }

  lemma TopAndLow(low: nat, k: nat)
    requires low < Pow2(k)
    ensures Pow2(k + 3) == 8 * Pow2(k) && 0 < Pow2(k) + low < Pow2(k + 1)
  {
    EightTimes(k);
    PowDoubles(k);
  }

  /** A clamped scalar never brings an element of a large odd order to zero. */
  lemma ScalarIsNoMultiple(prv: Data, l: nat)
    requires l % 2 == 1 && Pow2(252) < l
    ensures Scalar(prv) % l != 0
  {
    ScalarIsEight(prv, l);
    var k: nat :| 0 < k < l && Scalar(prv) == 8 * k;
    EightIsNoMultiple(l, Scalar(prv), k);
  }

  /** Section 6.1 of RFC 7748: both parties derive the same secret from each other's public key. */
  lemma SecretsAgree<G(!new)>(c: Curve, m: XReading<G>, b: G, sha512: Sha512, prvA: Digest, prvB: Digest)
    requires XOnlyLaws(c, m) && c.l % 2 == 1 && Pow2(252) < c.l
    requires forall n: nat :: MapsBase(c, m, b, n) && OrderIs(m.group, b, c.l, n)
    ensures SharedSecret(c, prvA, PublicKey(c, sha512, McKey(prvB)))
         == SharedSecret(c, prvB, PublicKey(c, sha512, McKey(prvA)))
  {
    var x, y := Scalar(prvA), Scalar(prvB);
    ScalarIsClamp(prvA);
    ScalarIsClamp(prvB);
    ScalarIsNoMultiple(prvA, c.l);
    ScalarIsNoMultiple(prvB, c.l);
    assert OrderIs(m.group, b, c.l, x) && OrderIs(m.group, b, c.l, y);
    assert MapsBase(c, m, b, x) && MapsBase(c, m, b, y);
    SecretReads(c, m, prvA, PublicKey(c, sha512, McKey(prvB)), NFold(m.group, b, y));
    SecretReads(c, m, prvB, PublicKey(c, sha512, McKey(prvA)), NFold(m.group, b, x));
    NFoldSwap(m.group, b, x, y);
  }
}
