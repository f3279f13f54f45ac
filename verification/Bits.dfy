/** Bit operations on non-negative integers of any size, and the arithmetic each mask stands for. */
module Bits {
  import opened Bytes

  function Pow2(n: nat): (r: int)
    ensures r > 0
  {
    if n == 0 then 1 else 2 * Pow2(n - 1)
  }

  /** a & b */
  function And(a: nat, b: nat): nat {
    if a == 0 || b == 0 then 0
    else 2 * And(a / 2, b / 2) + (if a % 2 == 1 && b % 2 == 1 then 1 else 0)
  }

  /** a | b */
  function Or(a: nat, b: nat): nat
    decreases a + b
  {
    if a == 0 then b else if b == 0 then a
    else 2 * Or(a / 2, b / 2) + (if a % 2 == 1 || b % 2 == 1 then 1 else 0)
  }

  /** a & ((1 << k) - 1) */
  function Low(a: nat, k: nat): (r: nat)
    ensures r < Pow2(k)
  {
    a % Pow2(k)
  }

  /** a >> k */
  function High(a: nat, k: nat): nat {
    QuotientIsNat(a, Pow2(k));
    a / Pow2(k)
  }

  lemma ProductIsNat(a: nat, b: nat)
    ensures 0 <= a * b
  {
  }

  lemma QuotientIsNat(a: nat, p: int)
    requires p > 0
    ensures a / p >= 0
  {
  }

  /** (a >> k) & 1 */
  function BitAt(a: nat, k: nat): (r: nat)
    ensures r <= 1
  {
    a / Pow2(k) % 2
  }

  lemma {:induction false} HalfOfLow(a: nat, k: nat)
    requires k > 0
    ensures a % Pow2(k) == 2 * (a / 2 % Pow2(k - 1)) + a % 2
  {
    var p, h := Pow2(k - 1), a / 2;
    var t := h / p;
    assert h == p * t + h % p;
    assert a == (2 * p) * t + (2 * (h % p) + a % 2);
    DivModUnique(a, 2 * p, t, 2 * (h % p) + a % 2);
  }

  lemma DivModUnique(a: int, m: int, t: int, r: int)
    requires m > 0 && a == m * t + r && 0 <= r < m
    ensures a / m == t && a % m == r
  {
    var e := a / m - t;
    assert m * e == r - a % m;
  }

  lemma AndStep(a: nat, b: nat)
    ensures And(a, b) / 2 == And(a / 2, b / 2)
    ensures And(a, b) % 2 == (if a % 2 == 1 && b % 2 == 1 then 1 else 0)
  {
  }

  lemma {:induction false} MaskIsLow(a: nat, k: nat)
    ensures And(a, Pow2(k) - 1) == Low(a, k)
  {
    if k == 0 {
    } else {
      HalfOfLow(a, k);
      MaskIsLow(a / 2, k - 1);
      assert (Pow2(k) - 1) / 2 == Pow2(k - 1) - 1;
      if a == 0 {
        assert Low(0, k) == 0;
      }
    }
  }

  /** The bits of a and those of b shifted past them do not meet. */
  lemma {:induction false} OrOfShifted(a: nat, b: nat, k: nat)
    requires a < Pow2(k)
    ensures Or(a, b * Pow2(k)) == a + b * Pow2(k) == Or(b * Pow2(k), a)
  {
    var s := b * Pow2(k);
    if a == 0 || k == 0 || s == 0 {
    } else {
      assert s == 2 * (b * Pow2(k - 1));
      OrOfShifted(a / 2, b, k - 1);
    }
  }

  lemma OrIsSum(a: nat, k: nat)
    requires a < Pow2(k)
    ensures Or(a, Pow2(k)) == a + Pow2(k)
  {
    OrOfShifted(a, 1, k);
  }

  lemma {:induction false} BytesAreBits(n: nat)
    ensures Pow256(n) == Pow2(8 * n)
  {
    if n == 0 {
    } else {
      BytesAreBits(n - 1);
      var m := 8 * n - 8;
      assert Pow2(m + 2) == 4 * Pow2(m);
      assert Pow2(m + 4) == 4 * Pow2(m + 2);
      assert Pow2(m + 6) == 4 * Pow2(m + 4);
      assert Pow2(m + 8) == 4 * Pow2(m + 6);
    }
  }

  lemma {:induction false} Pow2Grows(m: nat, n: nat)
    requires m <= n
    ensures Pow2(m) <= Pow2(n)
  {
    if m == n {
    } else {
      Pow2Grows(m, n - 1);
    }
  }

  // ---- exclusive or ----

  /** a ^ b */
  function Xor(a: nat, b: nat): nat
    decreases a + b
  {
    if a == 0 then b else if b == 0 then a
    else 2 * Xor(a / 2, b / 2) + (if a % 2 != b % 2 then 1 else 0)
  }

  /** The recursion step without its two base cases. */
  lemma XorStep(a: nat, b: nat)
    ensures Xor(a, b) / 2 == Xor(a / 2, b / 2)
    ensures Xor(a, b) % 2 == (if a % 2 != b % 2 then 1 else 0)
  {
  }

  lemma {:induction false} XorCommutes(a: nat, b: nat)
    ensures Xor(a, b) == Xor(b, a)
    decreases a + b
  {
    if a == 0 || b == 0 {
    } else {
      XorCommutes(a / 2, b / 2);
    }
  }

  lemma {:induction false} XorAssociates(a: nat, b: nat, c: nat)
    ensures Xor(Xor(a, b), c) == Xor(a, Xor(b, c))
    decreases a + b + c
  {
    if a == 0 || b == 0 || c == 0 {
    } else {
      XorAssociates(a / 2, b / 2, c / 2);
      XorStep(a, b); XorStep(b, c);
      XorStep(Xor(a, b), c); XorStep(a, Xor(b, c));
    }
  }

  lemma {:induction false} XorSelf(a: nat)
    ensures Xor(a, a) == 0
  {
    if a == 0 {
    } else {
      XorSelf(a / 2);
    }
  }

  /** xor with the same value twice changes nothing. */
  lemma XorTwice(a: nat, k: nat)
    ensures Xor(Xor(a, k), k) == a
  {
    XorAssociates(a, k, k);
    XorSelf(k);
  }

  lemma {:induction false} XorFits(a: nat, b: nat, k: nat)
    requires a < Pow2(k) && b < Pow2(k)
    ensures Xor(a, b) < Pow2(k)
  {
    if a == 0 || b == 0 {
    } else {
      XorFits(a / 2, b / 2, k - 1);
    }
  }

  lemma XorInterchange(a: nat, b: nat, c: nat, d: nat)
    ensures Xor(Xor(a, b), Xor(c, d)) == Xor(Xor(a, c), Xor(b, d))
  {
    XorAssociates(a, b, Xor(c, d));
    XorAssociates(b, c, d);
    XorCommutes(b, c);
    XorAssociates(c, b, d);
    XorAssociates(a, c, Xor(b, d));
  }

  lemma {:induction false} HalfAgain(a: nat, k: nat)
    requires k > 0
    ensures a / Pow2(k) == a / 2 / Pow2(k - 1)
    ensures BitAt(a, k) == BitAt(a / 2, k - 1)
  {
    var p, h := Pow2(k - 1), a / 2;
    assert h == p * (h / p) + h % p;
    assert a == (2 * p) * (h / p) + (2 * (h % p) + a % 2);
    DivModUnique(a, 2 * p, h / p, 2 * (h % p) + a % 2);
  }

  lemma XorOfDoubled(x: nat, y: nat, i: nat, j: nat)
    requires i <= 1 && j <= 1
    ensures Xor(2 * x + i, 2 * y + j) == 2 * Xor(x, y) + (if i != j then 1 else 0)
  {
    XorStep(2 * x + i, 2 * y + j);
  }

  /** The bits below position k and those from k on are combined independently. */
  lemma {:induction false} XorSplits(a: nat, b: nat, k: nat)
    ensures Low(Xor(a, b), k) == Xor(Low(a, k), Low(b, k))
    ensures High(Xor(a, b), k) == Xor(High(a, k), High(b, k))
  {
    if k == 0 {
    } else {
      XorSplits(a / 2, b / 2, k - 1);
      XorStep(a, b);
      HalfAgain(a, k); HalfAgain(b, k); HalfAgain(Xor(a, b), k);
      HalfOfLow(a, k); HalfOfLow(b, k); HalfOfLow(Xor(a, b), k);
      XorOfDoubled(Low(a / 2, k - 1), Low(b / 2, k - 1), a % 2, b % 2);
    }
  }
}
