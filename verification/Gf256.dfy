/** Multiplication in GF(2^8), section 4.2 of FIPS 197: _gmul, and the algebra MixColumns rests on. */
module Gf256 {
  import opened Bytes
  import opened Bits

  function ByteXor(a: Byte, b: Byte): Byte {
    XorFits(a, b, 8);
    Xor(a, b)
  }

  /** a times x, reduced by x^8 + x^4 + x^3 + x + 1. */
  function Xtime(a: Byte): Byte {
    if a >= 0x80 then ByteXor(2 * a % 256, 0x1b) else 2 * a % 256
  }

  /** a times the polynomial whose coefficients are the bits of k: each set bit i contributes a times x^i. */
  function Mul(a: Byte, k: nat): Byte
    decreases k
  {
    if k == 0 then 0
    else if k % 2 == 1 then ByteXor(a, Mul(Xtime(a), k / 2))
    else Mul(Xtime(a), k / 2)
  }

  method Gmul(a: Byte, b: Byte) returns (r: Byte)
    ensures r == Mul(a, b)
  {
    var x: Byte := a;
    var y: Byte := b;
    r := 0;
    for i := 0 to 8
      invariant y < Pow2(8 - i)
      invariant ByteXor(r, Mul(x, y)) == Mul(a, b)
    {
      if y % 2 == 1 {
        XorAssociates(r, x, Mul(Xtime(x), y / 2));
        r := ByteXor(r, x);
      }
      var hi := x >= 0x80;
      x := 2 * x % 256;
      if hi {
        x := ByteXor(x, 0x1b);
      }
      y := y / 2;
    }
  }

  /** The low seven bits and the top bit of a sum. */
  lemma TopOfXor(a: Byte, b: Byte)
    ensures ByteXor(a, b) % 128 == Xor(a % 128, b % 128)
    ensures (ByteXor(a, b) >= 128) == ((a >= 128) != (b >= 128))
  {
    assert Pow2(7) == 128;
    XorSplits(a, b, 7);
    OneBit(a / 128, b / 128);
  }

  lemma OneBit(u: nat, v: nat)
    requires u <= 1 && v <= 1
    ensures Xor(u, v) == if u != v then 1 else 0
  {
  }

  function Overflow(high: bool): nat { if high then 0x1b else 0 }

  lemma XtimeForm(a: Byte)
    ensures Xtime(a) == Xor(2 * (a % 128), Overflow(a >= 128))
  {
    TopShiftedOut(a);
    XorCommutes(2 * a, 0);
  }

  lemma TopShiftedOut(a: Byte)
    ensures 2 * a % 256 == 2 * (a % 128) && (a < 128 ==> 2 * a % 256 == 2 * a)
  {
  }

  lemma OverflowLinear(u: bool, v: bool)
    ensures Xor(Overflow(u), Overflow(v)) == Overflow(u != v)
  {
    XorSelf(0x1b);
  }

  lemma ShiftedSum(al: nat, bl: nat, u: bool, v: bool)
    ensures Xor(2 * Xor(al, bl), Overflow(u != v)) == Xor(Xor(2 * al, Overflow(u)), Xor(2 * bl, Overflow(v)))
  {
    XorStep(2 * al, 2 * bl);
    OverflowLinear(u, v);
    XorInterchange(2 * al, Overflow(u), 2 * bl, Overflow(v));
  }

  /** Doubling is xor-linear, also when the top bit overflows. */
  lemma XtimeLinear(a: Byte, b: Byte)
    ensures Xtime(ByteXor(a, b)) == ByteXor(Xtime(a), Xtime(b))
  {
    TopOfXor(a, b);
    XtimeForm(a);
    XtimeForm(b);
    XtimeForm(ByteXor(a, b));
    ShiftedSum(a % 128, b % 128, a >= 128, b >= 128);
  }

  /** Multiplication distributes over xor on the left... */
  lemma {:induction false} MulLinear(a: Byte, c: Byte, k: nat)
    ensures Mul(ByteXor(a, c), k) == ByteXor(Mul(a, k), Mul(c, k))
    decreases k
  {
    if k == 0 {
    } else {
      XtimeLinear(a, c);
      MulLinear(Xtime(a), Xtime(c), k / 2);
      XorInterchange(a, c, Mul(Xtime(a), k / 2), Mul(Xtime(c), k / 2));
    }
  }

  /** ... and on the right: the polynomials add. */
  lemma {:induction false} MulOfXor(a: Byte, k: nat, l: nat)
    ensures Mul(a, Xor(k, l)) == ByteXor(Mul(a, k), Mul(a, l))
    decreases k + l
  {
    if k == 0 || l == 0 {
      assert ByteXor(Mul(a, 0), Mul(a, l)) == Mul(a, l);
      XorCommutes(Mul(a, k), 0);
    } else {
      var t := Xtime(a);
      XorStep(k, l);
      MulOfXor(t, k / 2, l / 2);
      MulStep(a, k); MulStep(a, l); MulStep(a, Xor(k, l));
      XorInterchange(Odd(a, k), Mul(t, k / 2), Odd(a, l), Mul(t, l / 2));
      XorSelf(a);
      XorCommutes(a, 0);
    }
  }

  function Odd(a: Byte, k: nat): Byte { if k % 2 == 1 then a else 0 }

  lemma MulStep(a: Byte, k: nat)
    ensures Mul(a, k) == ByteXor(Odd(a, k), Mul(Xtime(a), k / 2))
  {
  }

  /** The product of two polynomials with bit coefficients, before any reduction. */
  function Carryless(k: nat, l: nat): nat
    decreases k
  {
    if k == 0 then 0 else Xor(if k % 2 == 1 then l else 0, 2 * Carryless(k / 2, l))
  }

  lemma {:induction false} XtimeOfMul(a: Byte, k: nat)
    ensures Xtime(Mul(a, k)) == Mul(Xtime(a), k)
    decreases k
  {
    if k == 0 {
    } else {
      var t := Xtime(a);
      XtimeOfMul(t, k / 2);
      XtimeLinear(a, Mul(t, k / 2));
    }
  }

  /** Multiplying by l and then by k is multiplying by the product of the polynomials. */
  lemma {:induction false} MulMul(a: Byte, k: nat, l: nat)
    ensures Mul(Mul(a, l), k) == Mul(a, Carryless(k, l))
    decreases k
  {
    if k == 0 {
    } else {
      var c := Carryless(k / 2, l);
      var b := Mul(a, l);
      MulMul(Xtime(a), k / 2, l);
      XtimeOfMul(a, l);
      MulStep(b, k);
      MulStep(a, 2 * c);
      MulOfXor(a, if k % 2 == 1 then l else 0, 2 * c);
    }
  }
}
