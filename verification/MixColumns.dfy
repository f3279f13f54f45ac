/** MixColumns and its inverse, sections 5.1.3 and 5.3.3 of FIPS 197, as 4 by 4 matrices over GF(2^8). */
module MixColumns {
  import opened Bytes
  import opened Bits
  import opened Gf256

  datatype Column = Column(c0: Byte, c1: Byte, c2: Byte, c3: Byte)

  function MixColumn(c: Column): Column {
    Column(ByteXor(ByteXor(ByteXor(Mul(c.c0, 2), Mul(c.c1, 3)), c.c2), c.c3),
           ByteXor(ByteXor(ByteXor(c.c0, Mul(c.c1, 2)), Mul(c.c2, 3)), c.c3),
           ByteXor(ByteXor(ByteXor(c.c0, c.c1), Mul(c.c2, 2)), Mul(c.c3, 3)),
           ByteXor(ByteXor(ByteXor(Mul(c.c0, 3), c.c1), c.c2), Mul(c.c3, 2)))
  }

  function InvMixColumn(c: Column): Column {
    Column(ByteXor(ByteXor(ByteXor(Mul(c.c0, 14), Mul(c.c1, 11)), Mul(c.c2, 13)), Mul(c.c3, 9)),
           ByteXor(ByteXor(ByteXor(Mul(c.c0, 9), Mul(c.c1, 14)), Mul(c.c2, 11)), Mul(c.c3, 13)),
           ByteXor(ByteXor(ByteXor(Mul(c.c0, 13), Mul(c.c1, 9)), Mul(c.c2, 14)), Mul(c.c3, 11)),
           ByteXor(ByteXor(ByteXor(Mul(c.c0, 11), Mul(c.c1, 13)), Mul(c.c2, 9)), Mul(c.c3, 14)))
  }

  // ---- rows of coefficients ----

  datatype Row = Row(k0: nat, k1: nat, k2: nat, k3: nat)
  datatype Matrix = Matrix(r0: Row, r1: Row, r2: Row, r3: Row)

  function Xor4(a: nat, b: nat, c: nat, d: nat): nat {
    Xor(Xor(a, b), Xor(c, d))
  }

  function Dot(k: Row, c: Column): Byte {
    ByteXor(ByteXor(Mul(c.c0, k.k0), Mul(c.c1, k.k1)), ByteXor(Mul(c.c2, k.k2), Mul(c.c3, k.k3)))
  }

  function Apply(m: Matrix, c: Column): Column {
    Column(Dot(m.r0, c), Dot(m.r1, c), Dot(m.r2, c), Dot(m.r3, c))
  }

  /** The row k of a product of matrices, with unreduced polynomial coefficients. */
  function RowTimes(k: Row, m: Matrix): Row {
    Row(Xor4(Carryless(k.k0, m.r0.k0), Carryless(k.k1, m.r1.k0), Carryless(k.k2, m.r2.k0), Carryless(k.k3, m.r3.k0)),
        Xor4(Carryless(k.k0, m.r0.k1), Carryless(k.k1, m.r1.k1), Carryless(k.k2, m.r2.k1), Carryless(k.k3, m.r3.k1)),
        Xor4(Carryless(k.k0, m.r0.k2), Carryless(k.k1, m.r1.k2), Carryless(k.k2, m.r2.k2), Carryless(k.k3, m.r3.k2)),
        Xor4(Carryless(k.k0, m.r0.k3), Carryless(k.k1, m.r1.k3), Carryless(k.k2, m.r2.k3), Carryless(k.k3, m.r3.k3)))
  }

  lemma Xor4Interchange(a0: nat, a1: nat, a2: nat, a3: nat, b0: nat, b1: nat, b2: nat, b3: nat)
    ensures Xor(Xor4(a0, a1, a2, a3), Xor4(b0, b1, b2, b3))
         == Xor4(Xor(a0, b0), Xor(a1, b1), Xor(a2, b2), Xor(a3, b3))
  {
    XorInterchange(Xor(a0, a1), Xor(a2, a3), Xor(b0, b1), Xor(b2, b3));
    XorInterchange(a0, a1, b0, b1);
    XorInterchange(a2, a3, b2, b3);
  }

  /** The sum of four sums of four, rows first or columns first. */
  lemma Transpose(a: Row, b: Row, c: Row, d: Row)
    ensures Xor4(Xor4(a.k0, a.k1, a.k2, a.k3), Xor4(b.k0, b.k1, b.k2, b.k3),
                 Xor4(c.k0, c.k1, c.k2, c.k3), Xor4(d.k0, d.k1, d.k2, d.k3))
         == Xor4(Xor4(a.k0, b.k0, c.k0, d.k0), Xor4(a.k1, b.k1, c.k1, d.k1),
                 Xor4(a.k2, b.k2, c.k2, d.k2), Xor4(a.k3, b.k3, c.k3, d.k3))
  {
    Xor4Interchange(a.k0, a.k1, a.k2, a.k3, b.k0, b.k1, b.k2, b.k3);
    Xor4Interchange(c.k0, c.k1, c.k2, c.k3, d.k0, d.k1, d.k2, d.k3);
    Xor4Interchange(Xor(a.k0, b.k0), Xor(a.k1, b.k1), Xor(a.k2, b.k2), Xor(a.k3, b.k3),
                    Xor(c.k0, d.k0), Xor(c.k1, d.k1), Xor(c.k2, d.k2), Xor(c.k3, d.k3));
  }

  /** One byte of a row product: the coefficients of a column of the matrix add up. */
  lemma MulOfXor4(a: Byte, k0: nat, k1: nat, k2: nat, k3: nat)
    ensures Mul(a, Xor4(k0, k1, k2, k3)) == Xor4(Mul(a, k0), Mul(a, k1), Mul(a, k2), Mul(a, k3))
  {
    MulOfXor(a, Xor(k0, k1), Xor(k2, k3));
    MulOfXor(a, k0, k1);
    MulOfXor(a, k2, k3);
  }

  /** Multiplying a row product by k. */
  lemma MulOfDot(r: Row, c: Column, k: nat)
    ensures Mul(Dot(r, c), k) == Xor4(Mul(c.c0, Carryless(k, r.k0)), Mul(c.c1, Carryless(k, r.k1)),
                                      Mul(c.c2, Carryless(k, r.k2)), Mul(c.c3, Carryless(k, r.k3)))
  {
    var p0, p1, p2, p3 := Mul(c.c0, r.k0), Mul(c.c1, r.k1), Mul(c.c2, r.k2), Mul(c.c3, r.k3);
    MulLinear(ByteXor(p0, p1), ByteXor(p2, p3), k);
    MulLinear(p0, p1, k);
    MulLinear(p2, p3, k);
    MulMul(c.c0, k, r.k0); MulMul(c.c1, k, r.k1); MulMul(c.c2, k, r.k2); MulMul(c.c3, k, r.k3);
  }

  /** Applying a row after a matrix is applying one row: the matrix product. */
  lemma DotOfApply(k: Row, m: Matrix, c: Column)
    ensures Dot(k, Apply(m, c)) == Dot(RowTimes(k, m), c)
  {
    MulOfDot(m.r0, c, k.k0); MulOfDot(m.r1, c, k.k1); MulOfDot(m.r2, c, k.k2); MulOfDot(m.r3, c, k.k3);
    Transpose(Terms(m.r0, c, k.k0), Terms(m.r1, c, k.k1), Terms(m.r2, c, k.k2), Terms(m.r3, c, k.k3));
    MulOfXor4(c.c0, Carryless(k.k0, m.r0.k0), Carryless(k.k1, m.r1.k0),
              Carryless(k.k2, m.r2.k0), Carryless(k.k3, m.r3.k0));
    MulOfXor4(c.c1, Carryless(k.k0, m.r0.k1), Carryless(k.k1, m.r1.k1),
              Carryless(k.k2, m.r2.k1), Carryless(k.k3, m.r3.k1));
    MulOfXor4(c.c2, Carryless(k.k0, m.r0.k2), Carryless(k.k1, m.r1.k2),
              Carryless(k.k2, m.r2.k2), Carryless(k.k3, m.r3.k2));
    MulOfXor4(c.c3, Carryless(k.k0, m.r0.k3), Carryless(k.k1, m.r1.k3),
              Carryless(k.k2, m.r2.k3), Carryless(k.k3, m.r3.k3));
  }

  ghost function Terms(r: Row, c: Column, k: nat): Row {
    Row(Mul(c.c0, Carryless(k, r.k0)), Mul(c.c1, Carryless(k, r.k1)),
        Mul(c.c2, Carryless(k, r.k2)), Mul(c.c3, Carryless(k, r.k3)))
  }

  const MIX := Matrix(Row(2, 3, 1, 1), Row(1, 2, 3, 1), Row(1, 1, 2, 3), Row(3, 1, 1, 2))
  const INV_MIX := Matrix(Row(14, 11, 13, 9), Row(9, 14, 11, 13), Row(13, 9, 14, 11), Row(11, 13, 9, 14))

  // ---- the first row of each matrix product, worked out ----

  lemma ThreeBy(k: nat)
    ensures Carryless(3, k) == Xor(k, 2 * k)
  {
    XorCommutes(k, 0);
    assert Carryless(1, k) == Xor(k, 2 * Carryless(0, k));
  }

  lemma TimesThree()
    ensures Carryless(3, 9) == Carryless(9, 3) == 27
  {
    ThreeBy(9);
    assert Xor(1, 2) == 3; assert Xor(2, 4) == 6; assert Xor(4, 9) == 13; assert Xor(9, 18) == 27;
    assert Carryless(1, 3) == 3; assert Carryless(2, 3) == 6; assert Carryless(4, 3) == 12;
    assert Xor(1, 12) == 13; assert Xor(3, 24) == 27;
  }

  lemma TimesThree2()
    ensures Carryless(3, 11) == Carryless(11, 3) == 29
  {
    ThreeBy(11);
    assert Xor(1, 2) == 3; assert Xor(2, 5) == 7; assert Xor(5, 11) == 14; assert Xor(11, 22) == 29;
    assert Carryless(1, 3) == 3; assert Carryless(2, 3) == 6;
    assert Xor(1, 6) == 7; assert Xor(3, 12) == 15;
    assert Carryless(5, 3) == 15;
    assert Xor(1, 15) == 14; assert Xor(3, 30) == 29;
  }

  lemma TimesThree3()
    ensures Carryless(3, 13) == Carryless(13, 3) == 23
  {
    ThreeBy(13);
    assert Xor(1, 3) == 2; assert Xor(3, 6) == 5; assert Xor(6, 13) == 11; assert Xor(13, 26) == 23;
    assert Xor(1, 3) == 2; assert Xor(3, 6) == 5;
    assert Carryless(1, 3) == 3; assert Carryless(3, 3) == 5; assert Carryless(6, 3) == 10;
    assert Xor(1, 10) == 11; assert Xor(3, 20) == 23;
  }

  lemma TimesThree4()
    ensures Carryless(3, 14) == Carryless(14, 3) == 18
  {
    ThreeBy(14);
    assert Xor(1, 3) == 2; assert Xor(3, 7) == 4; assert Xor(7, 14) == 9; assert Xor(14, 28) == 18;
    assert Xor(1, 3) == 2; assert Xor(3, 6) == 5;
    assert Carryless(1, 3) == 3; assert Carryless(3, 3) == 5;
    assert Xor(1, 5) == 4; assert Xor(3, 10) == 9;
    assert Carryless(7, 3) == 9;
  }

  lemma {:induction false} ByTwo(k: nat)
    ensures Carryless(2, k) == 2 * k == Carryless(k, 2)
  {
    TwoBy(k);
    if k == 0 {
    } else {
      ByTwo(k / 2);
      XorOfDoubled(k % 2, 2 * (k / 2), 0, 0);
      XorOfDoubled(0, k / 2, k % 2, 0);
    }
  }

  lemma TwoBy(k: nat)
    ensures Carryless(2, k) == 2 * k
  {
    XorCommutes(k, 0);
    assert Carryless(1, k) == Xor(k, 2 * Carryless(0, k));
  }

  lemma {:induction false} ByOne(k: nat)
    ensures Carryless(1, k) == k == Carryless(k, 1)
  {
    XorCommutes(k, 0);
    if k == 0 {
    } else {
      ByOne(k / 2);
      XorStep(if k % 2 == 1 then 1 else 0, 2 * (k / 2));
    }
  }

  lemma DiagonalSum()
    ensures Xor4(28, 11, 13, 27) == 1
  {
    assert Xor(3, 1) == 2; assert Xor(7, 2) == 5; assert Xor(14, 5) == 11; assert Xor(28, 11) == 23;
    assert Xor(1, 3) == 2; assert Xor(3, 6) == 5; assert Xor(6, 13) == 11; assert Xor(13, 27) == 22;
    assert Xor(1, 1) == 0; assert Xor(2, 2) == 0; assert Xor(5, 5) == 0;
    assert Xor(11, 11) == 0; assert Xor(23, 22) == 1;
  }

  lemma DiagonalSum2()
    ensures Xor4(28, 27, 13, 11) == 1
  {
    assert Xor(1, 1) == 0; assert Xor(3, 3) == 0; assert Xor(7, 6) == 1;
    assert Xor(14, 13) == 3; assert Xor(28, 27) == 7;
    assert Xor(1, 1) == 0; assert Xor(3, 2) == 1; assert Xor(6, 5) == 3; assert Xor(13, 11) == 6;
    assert Xor(1, 1) == 0; assert Xor(3, 3) == 0; assert Xor(7, 6) == 1;
  }

  /** Two pairs with the same sum cancel, in whatever order each pair stands. */
  lemma Cancels(a: nat, b: nat, c: nat, d: nat)
    requires Xor(a, b) == Xor(c, d)
    ensures Xor4(a, b, c, d) == 0 && Xor4(b, a, d, c) == 0 && Xor4(c, d, a, b) == 0 && Xor4(d, c, b, a) == 0
  {
    XorSelf(Xor(a, b));
    XorCommutes(a, b);
    XorCommutes(c, d);
  }

  lemma OtherSums()
    ensures Xor(18, 22) == 4 && Xor(13, 9) == 4
  {
    assert Xor(1, 1) == 0; assert Xor(2, 2) == 0; assert Xor(4, 5) == 1;
    assert Xor(9, 11) == 2; assert Xor(18, 22) == 4;
    assert Xor(1, 1) == 0; assert Xor(3, 2) == 1; assert Xor(6, 4) == 2; assert Xor(13, 9) == 4;
  }

  lemma OtherSums2()
    ensures Xor(14, 29) == 19 && Xor(26, 9) == 19
  {
    assert Xor(1, 3) == 2; assert Xor(3, 7) == 4; assert Xor(7, 14) == 9; assert Xor(14, 29) == 19;
    assert Xor(3, 1) == 2; assert Xor(6, 2) == 4; assert Xor(13, 4) == 9; assert Xor(26, 9) == 19;
  }

  lemma OtherSums3()
    ensures Xor(14, 11) == 5 && Xor(23, 18) == 5
  {
    assert Xor(1, 1) == 0; assert Xor(3, 2) == 1; assert Xor(7, 5) == 2; assert Xor(14, 11) == 5;
    assert Xor(1, 1) == 0; assert Xor(2, 2) == 0; assert Xor(5, 4) == 1;
    assert Xor(11, 9) == 2; assert Xor(23, 18) == 5;
  }

  lemma OtherSums4()
    ensures Xor(26, 29) == 7 && Xor(14, 9) == 7
  {
    assert Xor(1, 1) == 0; assert Xor(3, 3) == 0; assert Xor(6, 7) == 1;
    assert Xor(13, 14) == 3; assert Xor(26, 29) == 7;
    assert Xor(1, 1) == 0; assert Xor(3, 2) == 1; assert Xor(7, 4) == 3; assert Xor(14, 9) == 7;
  }

  lemma AllSums()
    ensures Xor4(18, 22, 13, 9) == 0 && Xor4(22, 18, 9, 13) == 0
    ensures Xor4(14, 29, 26, 9) == 0 && Xor4(14, 11, 23, 18) == 0
    ensures Xor4(26, 29, 14, 9) == 0 && Xor4(18, 23, 11, 14) == 0
  {
    OtherSums(); OtherSums2(); OtherSums3(); OtherSums4();
    Cancels(18, 22, 13, 9); Cancels(14, 29, 26, 9); Cancels(14, 11, 23, 18); Cancels(26, 29, 14, 9);
  }

  lemma FirstRows()
    ensures RowTimes(INV_MIX.r0, MIX) == Row(1, 0, 0, 0) == RowTimes(MIX.r0, INV_MIX)
  {
    TimesThree(); TimesThree2(); TimesThree3(); TimesThree4();
    ByTwo(9); ByTwo(11); ByTwo(13); ByTwo(14);
    ByOne(9); ByOne(11); ByOne(13); ByOne(14);
    DiagonalSum(); DiagonalSum2(); AllSums();
  }

  // ---- the other rows are rotations of the first ----

  function Rotated(c: Column): Column {
    Column(c.c1, c.c2, c.c3, c.c0)
  }

  lemma Xor4Rotates(a: nat, b: nat, c: nat, d: nat)
    ensures Xor4(a, b, c, d) == Xor4(b, c, d, a)
  {
    XorInterchange(a, b, c, d);
    XorCommutes(Xor(a, c), Xor(b, d));
    XorInterchange(b, d, a, c);
    XorCommutes(a, c);
    XorInterchange(b, d, c, a);
    XorCommutes(Xor(b, d), Xor(c, a));
  }

  lemma ApplyRotates(m: Matrix, c: Column)
    requires m == MIX || m == INV_MIX
    ensures Apply(m, Rotated(c)) == Rotated(Apply(m, c))
  {
    RowRotates(m.r0, c); RowRotates(m.r1, c); RowRotates(m.r2, c); RowRotates(m.r3, c);
  }

  lemma RowRotates(k: Row, c: Column)
    ensures Dot(k, Rotated(c)) == Dot(Row(k.k3, k.k0, k.k1, k.k2), c)
  {
    Xor4Rotates(Mul(c.c0, k.k3), Mul(c.c1, k.k0), Mul(c.c2, k.k1), Mul(c.c3, k.k2));
  }

  lemma DotOfUnit(c: Column)
    ensures Dot(Row(1, 0, 0, 0), c) == c.c0
  {
    XorCommutes(c.c0, 0);
    assert Mul(c.c0, 1) == c.c0;
  }

  lemma FirstByte(m: Matrix, n: Matrix, c: Column)
    requires (m == MIX && n == INV_MIX) || (m == INV_MIX && n == MIX)
    ensures Apply(m, Apply(n, c)).c0 == c.c0
  {
    FirstRows();
    DotOfApply(m.r0, n, c);
    DotOfUnit(c);
  }

  /** The two matrices are inverse to each other. */
  lemma MatricesInvert(m: Matrix, n: Matrix, c: Column)
    requires (m == MIX && n == INV_MIX) || (m == INV_MIX && n == MIX)
    ensures Apply(m, Apply(n, c)) == c
  {
    var c1 := Rotated(c); var c2 := Rotated(c1); var c3 := Rotated(c2);
    FirstByte(m, n, c); FirstByte(m, n, c1); FirstByte(m, n, c2); FirstByte(m, n, c3);
    ApplyRotates(n, c); ApplyRotates(n, c1); ApplyRotates(n, c2);
    var d := Apply(n, c);
    ApplyRotates(m, d); ApplyRotates(m, Rotated(d)); ApplyRotates(m, Rotated(Rotated(d)));
  }

  // ---- the source's expressions are these matrices ----

  lemma MulByOne(a: Byte)
    ensures Mul(a, 1) == a
  {
    XorCommutes(a, 0);
  }

  lemma MixColumnIsMix(c: Column)
    ensures MixColumn(c) == Apply(MIX, c)
  {
    MulByOne(c.c0); MulByOne(c.c1); MulByOne(c.c2); MulByOne(c.c3);
    XorAssociates(Xor(Mul(c.c0, 2), Mul(c.c1, 3)), c.c2, c.c3);
    XorAssociates(Xor(c.c0, Mul(c.c1, 2)), Mul(c.c2, 3), c.c3);
    XorAssociates(Xor(c.c0, c.c1), Mul(c.c2, 2), Mul(c.c3, 3));
    XorAssociates(Xor(Mul(c.c0, 3), c.c1), c.c2, Mul(c.c3, 2));
  }

  lemma InvMixColumnIsInvMix(c: Column)
    ensures InvMixColumn(c) == Apply(INV_MIX, c)
  {
    XorAssociates(Xor(Mul(c.c0, 14), Mul(c.c1, 11)), Mul(c.c2, 13), Mul(c.c3, 9));
    XorAssociates(Xor(Mul(c.c0, 9), Mul(c.c1, 14)), Mul(c.c2, 11), Mul(c.c3, 13));
    XorAssociates(Xor(Mul(c.c0, 13), Mul(c.c1, 9)), Mul(c.c2, 14), Mul(c.c3, 11));
    XorAssociates(Xor(Mul(c.c0, 11), Mul(c.c1, 13)), Mul(c.c2, 9), Mul(c.c3, 14));
  }

  /** InvMixColumn undoes MixColumn, and the other way round. */
  lemma MixColumnInverts(c: Column)
    ensures InvMixColumn(MixColumn(c)) == c && MixColumn(InvMixColumn(c)) == c
  {
    MixColumnIsMix(c);
    InvMixColumnIsInvMix(MixColumn(c));
    MatricesInvert(INV_MIX, MIX, c);
    InvMixColumnIsInvMix(c);
    MixColumnIsMix(InvMixColumn(c));
    MatricesInvert(MIX, INV_MIX, c);
  }
}
