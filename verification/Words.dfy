/** 64-bit words as integers: the masked expressions of the source, and what each bit of them is. */
module Words {
  import opened Bytes
  import opened Bits

  const MASK: nat := 0xffff_ffff_ffff_ffff
  const MODULUS: nat := 0x1_0000_0000_0000_0000

  type Word = x: int | 0 <= x < MODULUS

  lemma ModulusIsPower()
    ensures Pow2(64) == MODULUS == Pow256(8)
  {
    assert Pow256(1) == 256 && Pow256(2) == 0x1_0000 && Pow256(4) == 0x1_0000_0000;
    BytesAreBits(8);
  }

  /** x & _MASK64 */
  function Masked(x: nat): (r: Word)
    ensures r == x % MODULUS
  {
    ModulusIsPower();
    MaskIsLow(x, 64);
    And(x, MASK)
  }

  /** Addition modulo 2^64, section 3.2 of FIPS 180-4. */
  function Plus(x: Word, y: Word): Word { (x + y) % MODULUS }

  /** ~a & b, on as many bits as b has */
  function AndNot(a: nat, b: nat): (r: nat)
    ensures r <= b
  {
    if b == 0 then 0
    else 2 * AndNot(a / 2, b / 2) + (if a % 2 == 0 && b % 2 == 1 then 1 else 0)
  }

  lemma BitOfZero(k: nat)
    ensures BitAt(0, k) == 0
  {
    DivModUnique(0, Pow2(k), 0, 0);
  }

  lemma {:induction false} BitOfAnd(a: nat, b: nat, k: nat)
    ensures BitAt(And(a, b), k) == (if BitAt(a, k) == 1 && BitAt(b, k) == 1 then 1 else 0)
  {
    AndStep(a, b);
    if a == 0 || b == 0 {
      BitOfZero(k);
    } else if k > 0 {
      HalfAgain(a, k); HalfAgain(b, k); HalfAgain(And(a, b), k);
      BitOfAnd(a / 2, b / 2, k - 1);
    }
  }

  lemma AndNotStep(a: nat, b: nat)
    ensures AndNot(a, b) / 2 == AndNot(a / 2, b / 2)
    ensures AndNot(a, b) % 2 == (if a % 2 == 0 && b % 2 == 1 then 1 else 0)
  {
  }

  lemma {:induction false} BitOfAndNot(a: nat, b: nat, k: nat)
    ensures BitAt(AndNot(a, b), k) == (if BitAt(a, k) == 0 && BitAt(b, k) == 1 then 1 else 0)
  {
    AndNotStep(a, b);
    if b == 0 {
      BitOfZero(k);
    } else if k > 0 {
      HalfAgain(a, k); HalfAgain(b, k); HalfAgain(AndNot(a, b), k);
      BitOfAndNot(a / 2, b / 2, k - 1);
    }
  }

  lemma {:induction false} BitOfXor(a: nat, b: nat, k: nat)
    ensures BitAt(Xor(a, b), k) == (if BitAt(a, k) != BitAt(b, k) then 1 else 0)
    decreases k
  {
    if a == 0 || b == 0 {
      BitOfZero(k);
    } else if k == 0 {
      XorStep(a, b);
    } else {
      HalfAgain(a, k); HalfAgain(b, k); HalfAgain(Xor(a, b), k);
      XorStep(a, b);
      BitOfXor(a / 2, b / 2, k - 1);
    }
  }

  /** The bits of a low part and of a high part shifted past it. */
  lemma {:induction false} BitOfSum(a: nat, b: nat, k: nat, i: nat)
    requires a < Pow2(k)
    ensures BitAt(a + b * Pow2(k), i) == if i < k then BitAt(a, i) else BitAt(b, i - k)
    decreases k
  {
    if k == 0 {
    } else {
      var s := a + b * Pow2(k);
      assert s == a + 2 * (b * Pow2(k - 1));
      assert s / 2 == a / 2 + b * Pow2(k - 1);
      if i > 0 {
        HalfAgain(s, i);
        HalfAgain(a, i);
        BitOfSum(a / 2, b, k - 1, i - 1);
      }
    }
  }

  // ---- rotation ----

  lemma {:induction false} PowersMultiply(m: nat, n: nat)
    ensures Pow2(m) * Pow2(n) == Pow2(m + n)
  {
    if m == 0 {
    } else {
      PowersMultiply(m - 1, n);
      ProductOfDouble(Pow2(m - 1), Pow2(n));
    }
  }

  lemma ProductOfDouble(p: int, q: int)
    ensures 2 * p * q == 2 * (p * q)
  {
  }

  /** ROTR: the low n bits of x move to the top. */
  function Rotr(x: Word, n: nat): Word
    requires 0 < n < 64
  {
    RotrFits(x, n);
    x / Pow2(n) + x % Pow2(n) * Pow2(64 - n)
  }

  lemma Cancel(p: int, a: int, b: int)
    requires p > 0 && p * a < p * b
    ensures a < b
  {
  }

  lemma QuotientFits(x: nat, p: nat, q: nat)
    requires p > 0 && x < p * q
    ensures x / p < q
  {
    Cancel(p, x / p, q);
  }

  lemma RotrFits(x: Word, n: nat)
    requires 0 < n < 64
    ensures x / Pow2(n) < Pow2(64 - n) && 0 <= x / Pow2(n) + x % Pow2(n) * Pow2(64 - n) < MODULUS
  {
    Split64(n);
    SwappedFits(x, Pow2(n), Pow2(64 - n));
  }

  lemma Split64(n: nat)
    requires n <= 64
    ensures Pow2(n) * Pow2(64 - n) == MODULUS
  {
    PowersMultiply(n, 64 - n);
    ModulusIsPower();
  }

  lemma SwappedFits(x: nat, p: nat, q: nat)
    requires p > 0 && q > 0 && x < p * q
    ensures x / p < q && 0 <= x / p + x % p * q < p * q
  {
    QuotientFits(x, p, q);
    ScaledBelow(x / p, x % p, p, q);
  }

  lemma ScaledBelow(hi: nat, lo: nat, p: nat, q: nat)
    requires hi < q && lo < p
    ensures hi + lo * q < p * q
  {
    assert (lo + 1) * q <= p * q;
  }

  /** x << n */
  function Shl(x: nat, n: nat): nat {
    ProductIsNat(x, Pow2(n));
    x * Pow2(n)
  }

  /** x >> n */
  function Shr(x: Word, n: nat): Word {
    DivShrinks(x, Pow2(n));
    x / Pow2(n)
  }

  lemma DivShrinks(x: nat, p: nat)
    requires p > 0
    ensures 0 <= x / p <= x
  {
    GrowsByFactor(p, x / p);
  }

  lemma GrowsByFactor(p: int, a: nat)
    requires p > 0
    ensures a <= p * a
  {
  }

  /** _rotr64: an unbounded left shift, and one mask. */
  function Rotr64(x: Word, n: nat): Word
    requires 0 < n < 64
  {
    Masked(Or(Shr(x, n), Shl(x, 64 - n)))
  }

  /** The expression is the rotation. */
  lemma Rotr64Rotates(x: Word, n: nat)
    requires 0 < n < 64
    ensures Rotr64(x, n) == Rotr(x, n)
  {
    Split64(n);
    RotrFits(x, n);
    OrOfShifted(x / Pow2(n), x, 64 - n);
    RotatedParts(x, Pow2(n), Pow2(64 - n));
  }

  lemma RotatedParts(x: nat, p: nat, q: nat)
    requires p > 0 && q > 0 && x < p * q
    ensures (x / p + x * q) % (p * q) == x / p + x % p * q
  {
    SwappedFits(x, p, q);
    HighDropsOut(x, x / p, x % p, p, q);
  }

  lemma Spread(hi: nat, lo: nat, p: nat, q: nat)
    ensures (p * hi + lo) * q == (p * q) * hi + lo * q
  {
  }

  lemma HighDropsOut(x: nat, hi: nat, lo: nat, p: nat, q: nat)
    requires p > 0 && q > 0 && x == p * hi + lo && hi + lo * q < p * q
    ensures (hi + x * q) % (p * q) == hi + lo * q
  {
    Spread(hi, lo, p, q);
    DivModUnique(hi + x * q, p * q, hi, hi + lo * q);
  }

  /** Swapping a high and a low part moves every bit cyclically. */
  lemma BitOfSwapped(hi: nat, lo: nat, n: nat, i: nat)
    requires 0 < n < 64 && i < 64 && hi < Pow2(64 - n) && lo < Pow2(n)
    ensures BitAt(hi + lo * Pow2(64 - n), i) == BitAt(lo + hi * Pow2(n), if i + n < 64 then i + n else i + n - 64)
  {
    BitOfSum(hi, lo, 64 - n, i);
    BitOfSum(lo, hi, n, if i + n < 64 then i + n else i + n - 64);
  }

  /** Bit i of a rotation is bit i + n of the word, counted cyclically. */
  lemma BitOfRotr(x: Word, n: nat, i: nat)
    requires 0 < n < 64 && i < 64
    ensures BitAt(Rotr(x, n), i) == BitAt(x, if i + n < 64 then i + n else i + n - 64)
  {
    RotrFits(x, n);
    BitOfParts(x, n, i, x / Pow2(n), x % Pow2(n));
  }

  lemma BitOfParts(x: nat, n: nat, i: nat, hi: nat, lo: nat)
    requires 0 < n < 64 && i < 64 && hi < Pow2(64 - n) && lo < Pow2(n)
    requires hi == x / Pow2(n) && lo == x % Pow2(n)
    ensures BitAt(hi + lo * Pow2(64 - n), i) == BitAt(x, if i + n < 64 then i + n else i + n - 64)
  {
    Rejoin(x, Pow2(n));
    BitOfSwapped(hi, lo, n, i);
  }

  lemma Rejoin(x: nat, p: nat)
    requires p > 0
    ensures x % p + x / p * p == x
  {
  }

  // ---- the functions of section 4.1.3 of FIPS 180-4 ----

  /** (e & f) ^ (~e & g & _MASK64) */
  function Choose(e: Word, f: Word, g: Word): Word {
    ModulusIsPower();
    AndFits(e, f);
    XorFits(And(e, f), AndNot(e, g), 64);
    Xor(And(e, f), AndNot(e, g))
  }

  /** (a & b) ^ (a & c) ^ (b & c) */
  function Majority(a: Word, b: Word, c: Word): Word {
    ModulusIsPower();
    AndFits(a, b); AndFits(a, c); AndFits(b, c);
    XorFits(And(a, b), And(a, c), 64);
    XorFits(Xor(And(a, b), And(a, c)), And(b, c), 64);
    Xor(Xor(And(a, b), And(a, c)), And(b, c))
  }

  lemma {:induction false} AndFits(a: nat, b: nat)
    ensures And(a, b) <= a
  {
    if a == 0 || b == 0 {
    } else {
      AndFits(a / 2, b / 2);
    }
  }

  /** Each bit of e picks the bit of f or of g. */
  lemma ChooseChooses(e: Word, f: Word, g: Word, i: nat)
    ensures BitAt(Choose(e, f, g), i) == if BitAt(e, i) == 1 then BitAt(f, i) else BitAt(g, i)
  {
    BitOfAnd(e, f, i);
    BitOfAndNot(e, g, i);
    BitOfXor(And(e, f), AndNot(e, g), i);
  }

  /** Each bit is the one that at least two of the three have. */
  lemma MajorityIsMajority(a: Word, b: Word, c: Word, i: nat)
    ensures BitAt(Majority(a, b, c), i) == if BitAt(a, i) + BitAt(b, i) + BitAt(c, i) >= 2 then 1 else 0
  {
    BitOfAnd(a, b, i); BitOfAnd(a, c, i); BitOfAnd(b, c, i);
    BitOfXor(And(a, b), And(a, c), i);
    BitOfXor(Xor(And(a, b), And(a, c)), And(b, c), i);
  }

  function WordXor(a: Word, b: Word): Word {
    ModulusIsPower();
    XorFits(a, b, 64);
    Xor(a, b)
  }
}
