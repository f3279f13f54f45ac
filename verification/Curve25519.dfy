/** The numbers of meshcore_crypto.py, and the equations that define them. */
module Curve25519 {
  import opened Bits
  import Edwards
  import opened Fermat
  import opened Points

  const Q: int := 0x7fffffffffffffffffffffffffffffffffffffffffffffffffffffffffffffed
  const L: int := 0x1000000000000000000000000000000014def9dea2f79cd65812631a5cf5d3ed
  const D: int := 0x52036cee2b6ffe738cc740797779e89800700a4d4141d8ab75eb4dca135978a3
  const I: int := 0x2b8324804fc1df0b2b4d00993dfbd7a72f431806ad2fe478c4ee1b274a0ea0b0
  const BX: int := 0x216936d3cd6e53fec0a4e231fdd6dc5c692cc7609525a7b2c9562d608f25d51a
  const BY: int := 0x6666666666666666666666666666666666666666666666666666666666666658
  const BT: int := 0x67875f0fd78b766566ea4e8e64abe37d20f09f80775152f56dde8ab3a5b7dda3

  lemma PowersOfTwo()
    ensures Pow2(252) == 0x1000000000000000000000000000000000000000000000000000000000000000
    ensures Pow2(255) == 8 * Pow2(252) && Pow2(253) == 2 * Pow2(252)
  {
    Double64(0); Double64(64); Double64(128);
    assert Pow2(192) == 0x1000000000000000000000000000000000000000000000000;
    Double32(192); Double8(224); Double8(232); Double8(240);
    assert Pow2(250) == 4 * Pow2(248);
    assert Pow2(252) == 4 * Pow2(250);
    assert Pow2(254) == 4 * Pow2(252);
  }

  lemma Double64(n: nat)
    ensures Pow2(n + 64) == 0x1_0000_0000_0000_0000 * Pow2(n)
  {
    Double32(n); Double32(n + 32);
  }

  lemma Double32(n: nat)
    ensures Pow2(n + 32) == 0x1_0000_0000 * Pow2(n)
  {
    Double8(n); Double8(n + 8); Double8(n + 16); Double8(n + 24);
  }

  lemma Double8(n: nat)
    ensures Pow2(n + 8) == 256 * Pow2(n)
  {
    assert Pow2(n + 2) == 4 * Pow2(n);
    assert Pow2(n + 4) == 4 * Pow2(n + 2);
    assert Pow2(n + 6) == 4 * Pow2(n + 4);
  }

  function Ed25519Curve(): Curve {
    PowersOfTwo();
    Params(Q, L, D, I, Edwards.Ext(BX, BY, 1, BT))
  }

  /** Section 5.1 of RFC 8032: each constant satisfies the equation it is computed from. */
  lemma ConstantsAreRight()
    ensures Q == Pow2(255) - 19 && Q % 8 == 5 && (1 + D) % Q != 0
    ensures L == Pow2(252) + 27742317777372353535851937790883648493 && L % 2 == 1
    ensures (D * 121666 + 121665) % Q == 0 && (I * I + 1) % Q == 0 && (5 * BY - 4) % Q == 0
    ensures BX % 2 == 0 && IsOnCurve(Ed25519Curve(), Affine(BX, BY))
    ensures AffToExt(Ed25519Curve(), Affine(BX, BY)) == Ed25519Curve().base
  {
    PowersOfTwo();
  }

  /** So the only thing left to assume of the field is that Q is a prime. */
  lemma FieldIsRight()
    ensures IsPrime(Q) ==> IsField(Ed25519Curve())
  {
    ConstantsAreRight();
  }
}
