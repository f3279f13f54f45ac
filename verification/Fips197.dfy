/** AES against FIPS 197, byte by byte: the S-box by its definition, the key schedule and its worked example, the four
    transformations, and the order of the rounds. */
module Fips197 {
  import opened Bytes
  import opened Bits
  import opened Gf256
  import opened SBoxes
  import opened MixColumns
  import opened Aes
  import opened PyAes
  import R = Rounds

  // ---- bytes as bit vectors ----

  function Bit(b: bv8, mask: bv8): nat { if b & mask == 0 then 0 else 1 }

  /** The byte whose binary digits are those of b. */
  function Value(b: bv8): Byte {
    Bit(b, 1) + 2 * (Bit(b, 2) + 2 * (Bit(b, 4) + 2 * (Bit(b, 8) + 2 * (
    Bit(b, 16) + 2 * (Bit(b, 32) + 2 * (Bit(b, 64) + 2 * Bit(b, 128)))))))
  }

  lemma BitOfXor(a: bv8, b: bv8, mask: bv8)
    requires mask == 1 || mask == 2 || mask == 4 || mask == 8 || mask == 16 || mask == 32 || mask == 64 || mask == 128
    ensures Bit(a ^ b, mask) == if Bit(a, mask) != Bit(b, mask) then 1 else 0
  {
  }

  lemma XorOfDigits(x: nat, y: nat, p: nat, q: nat)
    requires x < 2 && y < 2
    ensures Xor(x + 2 * p, y + 2 * q) == (if x != y then 1 else 0) + 2 * Xor(p, q)
  {
    XorStep(x + 2 * p, y + 2 * q);
    DivModUnique(x + 2 * p, 2, p, x);
    DivModUnique(y + 2 * q, 2, q, y);
  }

  /** The number with these binary digits, the lowest first. */
  function FromDigits(s: seq<nat>): nat {
    if s == [] then 0 else s[0] + 2 * FromDigits(s[1..])
  }

  ghost predicate AreDigits(s: seq<nat>) { forall i :: 0 <= i < |s| ==> s[i] < 2 }

  lemma {:induction false} XorOfNumbers(s: seq<nat>, t: seq<nat>, u: seq<nat>)
    requires |s| == |t| == |u| && AreDigits(s) && AreDigits(t)
    requires forall i :: 0 <= i < |u| ==> u[i] == if s[i] != t[i] then 1 else 0
    ensures Xor(FromDigits(s), FromDigits(t)) == FromDigits(u)
  {
    if s != [] {
      XorOfNumbers(s[1..], t[1..], u[1..]);
      XorOfDigits(s[0], t[0], FromDigits(s[1..]), FromDigits(t[1..]));
    }
  }

  lemma Unfolded(a: nat, b: nat, c: nat, d: nat, s: seq<nat>)
    ensures FromDigits([a, b, c, d] + s) == a + 2 * (b + 2 * (c + 2 * (d + 2 * FromDigits(s))))
  {
    var (s3, s2, s1, s0) := ([d] + s, [c, d] + s, [b, c, d] + s, [a, b, c, d] + s);
    assert s3[1..] == s && s2[1..] == s3 && s1[1..] == s2 && s0[1..] == s1;
    assert FromDigits(s3) == d + 2 * FromDigits(s);
    assert FromDigits(s2) == c + 2 * FromDigits(s3);
    assert FromDigits(s1) == b + 2 * FromDigits(s2);
  }

  lemma EightDigits(a: nat, b: nat, c: nat, d: nat, e: nat, f: nat, g: nat, h: nat)
    ensures FromDigits([a, b, c, d] + [e, f, g, h])
         == a + 2 * (b + 2 * (c + 2 * (d + 2 * (e + 2 * (f + 2 * (g + 2 * h))))))
  {
    Unfolded(e, f, g, h, []);
    assert [e, f, g, h] + [] == [e, f, g, h];
    Unfolded(a, b, c, d, [e, f, g, h]);
  }

  function Digits(b: bv8): seq<nat> {
    [Bit(b, 1), Bit(b, 2), Bit(b, 4), Bit(b, 8)] + [Bit(b, 16), Bit(b, 32), Bit(b, 64), Bit(b, 128)]
  }

  lemma ValueOfDigits(b: bv8)
    ensures FromDigits(Digits(b)) == Value(b) && |Digits(b)| == 8 && AreDigits(Digits(b))
  {
    EightDigits(Bit(b, 1), Bit(b, 2), Bit(b, 4), Bit(b, 8), Bit(b, 16), Bit(b, 32), Bit(b, 64), Bit(b, 128));
  }

  lemma ValueOfXor(a: bv8, b: bv8)
    ensures Value(a ^ b) == ByteXor(Value(a), Value(b))
  {
    ValueOfDigits(a);
    ValueOfDigits(b);
    ValueOfDigits(a ^ b);
    BitOfXor(a, b, 1); BitOfXor(a, b, 2); BitOfXor(a, b, 4); BitOfXor(a, b, 8);
    BitOfXor(a, b, 16); BitOfXor(a, b, 32); BitOfXor(a, b, 64); BitOfXor(a, b, 128);
    NumberXor(Digits(a), Digits(b), Digits(a ^ b), Value(a), Value(b), Value(a ^ b));
  }

  lemma NumberXor(s: seq<nat>, t: seq<nat>, u: seq<nat>, a: Byte, b: Byte, c: Byte)
    requires |s| == |t| == |u| == 8 && AreDigits(s) && AreDigits(t)
    requires u[0] == (if s[0] != t[0] then 1 else 0) && u[1] == (if s[1] != t[1] then 1 else 0)
    requires u[2] == (if s[2] != t[2] then 1 else 0) && u[3] == (if s[3] != t[3] then 1 else 0)
    requires u[4] == (if s[4] != t[4] then 1 else 0) && u[5] == (if s[5] != t[5] then 1 else 0)
    requires u[6] == (if s[6] != t[6] then 1 else 0) && u[7] == (if s[7] != t[7] then 1 else 0)
    requires FromDigits(s) == a && FromDigits(t) == b && FromDigits(u) == c
    ensures c == ByteXor(a, b)
  {
    EachDigit(s, t, u);
    XorOfNumbers(s, t, u);
  }

  lemma EachDigit(s: seq<nat>, t: seq<nat>, u: seq<nat>)
    requires |s| == |t| == |u| == 8
    requires u[0] == (if s[0] != t[0] then 1 else 0) && u[1] == (if s[1] != t[1] then 1 else 0)
    requires u[2] == (if s[2] != t[2] then 1 else 0) && u[3] == (if s[3] != t[3] then 1 else 0)
    requires u[4] == (if s[4] != t[4] then 1 else 0) && u[5] == (if s[5] != t[5] then 1 else 0)
    requires u[6] == (if s[6] != t[6] then 1 else 0) && u[7] == (if s[7] != t[7] then 1 else 0)
    ensures forall i :: 0 <= i < |u| ==> u[i] == if s[i] != t[i] then 1 else 0
  {
  }

  function Doubled(a: bv8): bv8 { (a << 1) ^ (if a & 0x80 == 0 then 0 else 0x1b) }

  /** The lowest seven digits, read as a number. */
  function LowDigits(b: bv8): nat {
    Bit(b, 1) + 2 * (Bit(b, 2) + 2 * (Bit(b, 4) + 2 * (Bit(b, 8) + 2 * (
    Bit(b, 16) + 2 * (Bit(b, 32) + 2 * Bit(b, 64))))))
  }

  lemma SplitDigits(a: bv8)
    ensures Value(a) == LowDigits(a) + 128 * Bit(a, 128) && LowDigits(a) < 128
  {
  }

  lemma ShiftedDigits(a: bv8)
    ensures Value(a << 1) == 2 * LowDigits(a)
  {
    assert Bit(a << 1, 1) == 0 && Bit(a << 1, 2) == Bit(a, 1) && Bit(a << 1, 4) == Bit(a, 2);
    assert Bit(a << 1, 8) == Bit(a, 4) && Bit(a << 1, 16) == Bit(a, 8) && Bit(a << 1, 32) == Bit(a, 16);
    assert Bit(a << 1, 64) == Bit(a, 32) && Bit(a << 1, 128) == Bit(a, 64);
  }

  lemma ValueOfShift(a: bv8)
    ensures Value(a << 1) == 2 * Value(a) % 256
  {
    SplitDigits(a);
    ShiftedDigits(a);
    Halves(LowDigits(a), Bit(a, 128));
  }

  lemma Halves(low: nat, high: nat)
    requires low < 128
    ensures 2 * (low + 128 * high) % 256 == 2 * low
  {
  }

  lemma HighBit(a: bv8)
    ensures a & 0x80 == 0 <==> Value(a) < 0x80
  {
  }

  lemma ValueOfDoubled(a: bv8)
    ensures Value(Doubled(a)) == Xtime(Value(a))
  {
    ValueOfShift(a);
    HighBit(a);
    assert Value(0x1b) == 0x1b;
    ValueOfXor(a << 1, 0x1b);
    assert (a << 1) ^ 0 == a << 1;
  }

  function If(digit: nat, a: bv8): bv8 { if digit == 0 then 0 else a }

  function FourTerms(a: bv8, d0: nat, d1: nat, d2: nat, d3: nat, rest: bv8): bv8 {
    var a1 := Doubled(a); var a2 := Doubled(a1); var a3 := Doubled(a2);
    If(d0, a) ^ (If(d1, a1) ^ (If(d2, a2) ^ (If(d3, a3) ^ rest)))
  }

  /** The product in GF(2^8), section 4.2 of FIPS 197: the sum of a times x^i for each digit i of b that is set. */
  function Product(a: bv8, b: bv8): bv8 {
    var a4 := Doubled(Doubled(Doubled(Doubled(a))));
    FourTerms(a, Bit(b, 1), Bit(b, 2), Bit(b, 4), Bit(b, 8),
              FourTerms(a4, Bit(b, 16), Bit(b, 32), Bit(b, 64), Bit(b, 128), 0))
  }

  // ---- the S-box: the inverse in GF(2^8), then the affine map of section 5.1.1 ----

  function AffineMap(i: bv8): bv8 {
    i ^ ((i << 1) | (i >> 7)) ^ ((i << 2) | (i >> 6)) ^ ((i << 3) | (i >> 5)) ^ ((i << 4) | (i >> 4)) ^ 0x63
  }

  /** b is v, i is its inverse or 0 like b, and SBox(b) is s, the affine map of i. */
  ghost predicate IsEntry(b: Byte, v: bv8, i: bv8, s: bv8) {
    && Value(v) == b && SBox(b) == Value(s) && AffineMap(i) == s
    && if v == 0 then i == 0 else Product(v, i) == 1
  }

  lemma Row00(b: Byte) returns (v: bv8, i: bv8, s: bv8)
    requires 0x00 <= b <= 0x07
    ensures IsEntry(b, v, i, s)
  {
    if b == 0x00 { v, i, s := 0x00, 0x00, 0x63; }
    else if b == 0x01 { v, i, s := 0x01, 0x01, 0x7c; }
    else if b == 0x02 { v, i, s := 0x02, 0x8d, 0x77; }
    else if b == 0x03 { v, i, s := 0x03, 0xf6, 0x7b; }
    else if b == 0x04 { v, i, s := 0x04, 0xcb, 0xf2; }
    else if b == 0x05 { v, i, s := 0x05, 0x52, 0x6b; }
    else if b == 0x06 { v, i, s := 0x06, 0x7b, 0x6f; }
    else { v, i, s := 0x07, 0xd1, 0xc5; }
  }

  lemma Row08(b: Byte) returns (v: bv8, i: bv8, s: bv8)
    requires 0x08 <= b <= 0x0f
    ensures IsEntry(b, v, i, s)
  {
    if b == 0x08 { v, i, s := 0x08, 0xe8, 0x30; }
    else if b == 0x09 { v, i, s := 0x09, 0x4f, 0x01; }
    else if b == 0x0a { v, i, s := 0x0a, 0x29, 0x67; }
    else if b == 0x0b { v, i, s := 0x0b, 0xc0, 0x2b; }
    else if b == 0x0c { v, i, s := 0x0c, 0xb0, 0xfe; }
    else if b == 0x0d { v, i, s := 0x0d, 0xe1, 0xd7; }
    else if b == 0x0e { v, i, s := 0x0e, 0xe5, 0xab; }
    else { v, i, s := 0x0f, 0xc7, 0x76; }
  }

  lemma Row10(b: Byte) returns (v: bv8, i: bv8, s: bv8)
    requires 0x10 <= b <= 0x17
    ensures IsEntry(b, v, i, s)
  {
    if b == 0x10 { v, i, s := 0x10, 0x74, 0xca; }
    else if b == 0x11 { v, i, s := 0x11, 0xb4, 0x82; }
    else if b == 0x12 { v, i, s := 0x12, 0xaa, 0xc9; }
    else if b == 0x13 { v, i, s := 0x13, 0x4b, 0x7d; }
    else if b == 0x14 { v, i, s := 0x14, 0x99, 0xfa; }
    else if b == 0x15 { v, i, s := 0x15, 0x2b, 0x59; }
    else if b == 0x16 { v, i, s := 0x16, 0x60, 0x47; }
    else { v, i, s := 0x17, 0x5f, 0xf0; }
  }

  lemma Row18(b: Byte) returns (v: bv8, i: bv8, s: bv8)
    requires 0x18 <= b <= 0x1f
    ensures IsEntry(b, v, i, s)
  {
    if b == 0x18 { v, i, s := 0x18, 0x58, 0xad; }
    else if b == 0x19 { v, i, s := 0x19, 0x3f, 0xd4; }
    else if b == 0x1a { v, i, s := 0x1a, 0xfd, 0xa2; }
    else if b == 0x1b { v, i, s := 0x1b, 0xcc, 0xaf; }
    else if b == 0x1c { v, i, s := 0x1c, 0xff, 0x9c; }
    else if b == 0x1d { v, i, s := 0x1d, 0x40, 0xa4; }
    else if b == 0x1e { v, i, s := 0x1e, 0xee, 0x72; }
    else { v, i, s := 0x1f, 0xb2, 0xc0; }
  }

  lemma Row20(b: Byte) returns (v: bv8, i: bv8, s: bv8)
    requires 0x20 <= b <= 0x27
    ensures IsEntry(b, v, i, s)
  {
    if b == 0x20 { v, i, s := 0x20, 0x3a, 0xb7; }
    else if b == 0x21 { v, i, s := 0x21, 0x6e, 0xfd; }
    else if b == 0x22 { v, i, s := 0x22, 0x5a, 0x93; }
    else if b == 0x23 { v, i, s := 0x23, 0xf1, 0x26; }
    else if b == 0x24 { v, i, s := 0x24, 0x55, 0x36; }
    else if b == 0x25 { v, i, s := 0x25, 0x4d, 0x3f; }
    else if b == 0x26 { v, i, s := 0x26, 0xa8, 0xf7; }
    else { v, i, s := 0x27, 0xc9, 0xcc; }
  }

  lemma Row28(b: Byte) returns (v: bv8, i: bv8, s: bv8)
    requires 0x28 <= b <= 0x2f
    ensures IsEntry(b, v, i, s)
  {
    if b == 0x28 { v, i, s := 0x28, 0xc1, 0x34; }
    else if b == 0x29 { v, i, s := 0x29, 0x0a, 0xa5; }
    else if b == 0x2a { v, i, s := 0x2a, 0x98, 0xe5; }
    else if b == 0x2b { v, i, s := 0x2b, 0x15, 0xf1; }
    else if b == 0x2c { v, i, s := 0x2c, 0x30, 0x71; }
    else if b == 0x2d { v, i, s := 0x2d, 0x44, 0xd8; }
    else if b == 0x2e { v, i, s := 0x2e, 0xa2, 0x31; }
    else { v, i, s := 0x2f, 0xc2, 0x15; }
  }

  lemma Row30(b: Byte) returns (v: bv8, i: bv8, s: bv8)
    requires 0x30 <= b <= 0x37
    ensures IsEntry(b, v, i, s)
  {
    if b == 0x30 { v, i, s := 0x30, 0x2c, 0x04; }
    else if b == 0x31 { v, i, s := 0x31, 0x45, 0xc7; }
    else if b == 0x32 { v, i, s := 0x32, 0x92, 0x23; }
    else if b == 0x33 { v, i, s := 0x33, 0x6c, 0xc3; }
    else if b == 0x34 { v, i, s := 0x34, 0xf3, 0x18; }
    else if b == 0x35 { v, i, s := 0x35, 0x39, 0x96; }
    else if b == 0x36 { v, i, s := 0x36, 0x66, 0x05; }
    else { v, i, s := 0x37, 0x42, 0x9a; }
  }

  lemma Row38(b: Byte) returns (v: bv8, i: bv8, s: bv8)
    requires 0x38 <= b <= 0x3f
    ensures IsEntry(b, v, i, s)
  {
    if b == 0x38 { v, i, s := 0x38, 0xf2, 0x07; }
    else if b == 0x39 { v, i, s := 0x39, 0x35, 0x12; }
    else if b == 0x3a { v, i, s := 0x3a, 0x20, 0x80; }
    else if b == 0x3b { v, i, s := 0x3b, 0x6f, 0xe2; }
    else if b == 0x3c { v, i, s := 0x3c, 0x77, 0xeb; }
    else if b == 0x3d { v, i, s := 0x3d, 0xbb, 0x27; }
    else if b == 0x3e { v, i, s := 0x3e, 0x59, 0xb2; }
    else { v, i, s := 0x3f, 0x19, 0x75; }
  }

  lemma Row40(b: Byte) returns (v: bv8, i: bv8, s: bv8)
    requires 0x40 <= b <= 0x47
    ensures IsEntry(b, v, i, s)
  {
    if b == 0x40 { v, i, s := 0x40, 0x1d, 0x09; }
    else if b == 0x41 { v, i, s := 0x41, 0xfe, 0x83; }
    else if b == 0x42 { v, i, s := 0x42, 0x37, 0x2c; }
    else if b == 0x43 { v, i, s := 0x43, 0x67, 0x1a; }
    else if b == 0x44 { v, i, s := 0x44, 0x2d, 0x1b; }
    else if b == 0x45 { v, i, s := 0x45, 0x31, 0x6e; }
    else if b == 0x46 { v, i, s := 0x46, 0xf5, 0x5a; }
    else { v, i, s := 0x47, 0x69, 0xa0; }
  }

  lemma Row48(b: Byte) returns (v: bv8, i: bv8, s: bv8)
    requires 0x48 <= b <= 0x4f
    ensures IsEntry(b, v, i, s)
  {
    if b == 0x48 { v, i, s := 0x48, 0xa7, 0x52; }
    else if b == 0x49 { v, i, s := 0x49, 0x64, 0x3b; }
    else if b == 0x4a { v, i, s := 0x4a, 0xab, 0xd6; }
    else if b == 0x4b { v, i, s := 0x4b, 0x13, 0xb3; }
    else if b == 0x4c { v, i, s := 0x4c, 0x54, 0x29; }
    else if b == 0x4d { v, i, s := 0x4d, 0x25, 0xe3; }
    else if b == 0x4e { v, i, s := 0x4e, 0xe9, 0x2f; }
    else { v, i, s := 0x4f, 0x09, 0x84; }
  }

  lemma Row50(b: Byte) returns (v: bv8, i: bv8, s: bv8)
    requires 0x50 <= b <= 0x57
    ensures IsEntry(b, v, i, s)
  {
    if b == 0x50 { v, i, s := 0x50, 0xed, 0x53; }
    else if b == 0x51 { v, i, s := 0x51, 0x5c, 0xd1; }
    else if b == 0x52 { v, i, s := 0x52, 0x05, 0x00; }
    else if b == 0x53 { v, i, s := 0x53, 0xca, 0xed; }
    else if b == 0x54 { v, i, s := 0x54, 0x4c, 0x20; }
    else if b == 0x55 { v, i, s := 0x55, 0x24, 0xfc; }
    else if b == 0x56 { v, i, s := 0x56, 0x87, 0xb1; }
    else { v, i, s := 0x57, 0xbf, 0x5b; }
  }

  lemma Row58(b: Byte) returns (v: bv8, i: bv8, s: bv8)
    requires 0x58 <= b <= 0x5f
    ensures IsEntry(b, v, i, s)
  {
    if b == 0x58 { v, i, s := 0x58, 0x18, 0x6a; }
    else if b == 0x59 { v, i, s := 0x59, 0x3e, 0xcb; }
    else if b == 0x5a { v, i, s := 0x5a, 0x22, 0xbe; }
    else if b == 0x5b { v, i, s := 0x5b, 0xf0, 0x39; }
    else if b == 0x5c { v, i, s := 0x5c, 0x51, 0x4a; }
    else if b == 0x5d { v, i, s := 0x5d, 0xec, 0x4c; }
    else if b == 0x5e { v, i, s := 0x5e, 0x61, 0x58; }
    else { v, i, s := 0x5f, 0x17, 0xcf; }
  }

  lemma Row60(b: Byte) returns (v: bv8, i: bv8, s: bv8)
    requires 0x60 <= b <= 0x67
    ensures IsEntry(b, v, i, s)
  {
    if b == 0x60 { v, i, s := 0x60, 0x16, 0xd0; }
    else if b == 0x61 { v, i, s := 0x61, 0x5e, 0xef; }
    else if b == 0x62 { v, i, s := 0x62, 0xaf, 0xaa; }
    else if b == 0x63 { v, i, s := 0x63, 0xd3, 0xfb; }
    else if b == 0x64 { v, i, s := 0x64, 0x49, 0x43; }
    else if b == 0x65 { v, i, s := 0x65, 0xa6, 0x4d; }
    else if b == 0x66 { v, i, s := 0x66, 0x36, 0x33; }
    else { v, i, s := 0x67, 0x43, 0x85; }
  }

  lemma Row68(b: Byte) returns (v: bv8, i: bv8, s: bv8)
    requires 0x68 <= b <= 0x6f
    ensures IsEntry(b, v, i, s)
  {
    if b == 0x68 { v, i, s := 0x68, 0xf4, 0x45; }
    else if b == 0x69 { v, i, s := 0x69, 0x47, 0xf9; }
    else if b == 0x6a { v, i, s := 0x6a, 0x91, 0x02; }
    else if b == 0x6b { v, i, s := 0x6b, 0xdf, 0x7f; }
    else if b == 0x6c { v, i, s := 0x6c, 0x33, 0x50; }
    else if b == 0x6d { v, i, s := 0x6d, 0x93, 0x3c; }
    else if b == 0x6e { v, i, s := 0x6e, 0x21, 0x9f; }
    else { v, i, s := 0x6f, 0x3b, 0xa8; }
  }

  lemma Row70(b: Byte) returns (v: bv8, i: bv8, s: bv8)
    requires 0x70 <= b <= 0x77
    ensures IsEntry(b, v, i, s)
  {
    if b == 0x70 { v, i, s := 0x70, 0x79, 0x51; }
    else if b == 0x71 { v, i, s := 0x71, 0xb7, 0xa3; }
    else if b == 0x72 { v, i, s := 0x72, 0x97, 0x40; }
    else if b == 0x73 { v, i, s := 0x73, 0x85, 0x8f; }
    else if b == 0x74 { v, i, s := 0x74, 0x10, 0x92; }
    else if b == 0x75 { v, i, s := 0x75, 0xb5, 0x9d; }
    else if b == 0x76 { v, i, s := 0x76, 0xba, 0x38; }
    else { v, i, s := 0x77, 0x3c, 0xf5; }
  }

  lemma Row78(b: Byte) returns (v: bv8, i: bv8, s: bv8)
    requires 0x78 <= b <= 0x7f
    ensures IsEntry(b, v, i, s)
  {
    if b == 0x78 { v, i, s := 0x78, 0xb6, 0xbc; }
    else if b == 0x79 { v, i, s := 0x79, 0x70, 0xb6; }
    else if b == 0x7a { v, i, s := 0x7a, 0xd0, 0xda; }
    else if b == 0x7b { v, i, s := 0x7b, 0x06, 0x21; }
    else if b == 0x7c { v, i, s := 0x7c, 0xa1, 0x10; }
    else if b == 0x7d { v, i, s := 0x7d, 0xfa, 0xff; }
    else if b == 0x7e { v, i, s := 0x7e, 0x81, 0xf3; }
    else { v, i, s := 0x7f, 0x82, 0xd2; }
  }

  lemma Row80(b: Byte) returns (v: bv8, i: bv8, s: bv8)
    requires 0x80 <= b <= 0x87
    ensures IsEntry(b, v, i, s)
  {
    if b == 0x80 { v, i, s := 0x80, 0x83, 0xcd; }
    else if b == 0x81 { v, i, s := 0x81, 0x7e, 0x0c; }
    else if b == 0x82 { v, i, s := 0x82, 0x7f, 0x13; }
    else if b == 0x83 { v, i, s := 0x83, 0x80, 0xec; }
    else if b == 0x84 { v, i, s := 0x84, 0x96, 0x5f; }
    else if b == 0x85 { v, i, s := 0x85, 0x73, 0x97; }
    else if b == 0x86 { v, i, s := 0x86, 0xbe, 0x44; }
    else { v, i, s := 0x87, 0x56, 0x17; }
  }

  lemma Row88(b: Byte) returns (v: bv8, i: bv8, s: bv8)
    requires 0x88 <= b <= 0x8f
    ensures IsEntry(b, v, i, s)
  {
    if b == 0x88 { v, i, s := 0x88, 0x9b, 0xc4; }
    else if b == 0x89 { v, i, s := 0x89, 0x9e, 0xa7; }
    else if b == 0x8a { v, i, s := 0x8a, 0x95, 0x7e; }
    else if b == 0x8b { v, i, s := 0x8b, 0xd9, 0x3d; }
    else if b == 0x8c { v, i, s := 0x8c, 0xf7, 0x64; }
    else if b == 0x8d { v, i, s := 0x8d, 0x02, 0x5d; }
    else if b == 0x8e { v, i, s := 0x8e, 0xb9, 0x19; }
    else { v, i, s := 0x8f, 0xa4, 0x73; }
  }

  lemma Row90(b: Byte) returns (v: bv8, i: bv8, s: bv8)
    requires 0x90 <= b <= 0x97
    ensures IsEntry(b, v, i, s)
  {
    if b == 0x90 { v, i, s := 0x90, 0xde, 0x60; }
    else if b == 0x91 { v, i, s := 0x91, 0x6a, 0x81; }
    else if b == 0x92 { v, i, s := 0x92, 0x32, 0x4f; }
    else if b == 0x93 { v, i, s := 0x93, 0x6d, 0xdc; }
    else if b == 0x94 { v, i, s := 0x94, 0xd8, 0x22; }
    else if b == 0x95 { v, i, s := 0x95, 0x8a, 0x2a; }
    else if b == 0x96 { v, i, s := 0x96, 0x84, 0x90; }
    else { v, i, s := 0x97, 0x72, 0x88; }
  }

  lemma Row98(b: Byte) returns (v: bv8, i: bv8, s: bv8)
    requires 0x98 <= b <= 0x9f
    ensures IsEntry(b, v, i, s)
  {
    if b == 0x98 { v, i, s := 0x98, 0x2a, 0x46; }
    else if b == 0x99 { v, i, s := 0x99, 0x14, 0xee; }
    else if b == 0x9a { v, i, s := 0x9a, 0x9f, 0xb8; }
    else if b == 0x9b { v, i, s := 0x9b, 0x88, 0x14; }
    else if b == 0x9c { v, i, s := 0x9c, 0xf9, 0xde; }
    else if b == 0x9d { v, i, s := 0x9d, 0xdc, 0x5e; }
    else if b == 0x9e { v, i, s := 0x9e, 0x89, 0x0b; }
    else { v, i, s := 0x9f, 0x9a, 0xdb; }
  }

  lemma Rowa0(b: Byte) returns (v: bv8, i: bv8, s: bv8)
    requires 0xa0 <= b <= 0xa7
    ensures IsEntry(b, v, i, s)
  {
    if b == 0xa0 { v, i, s := 0xa0, 0xfb, 0xe0; }
    else if b == 0xa1 { v, i, s := 0xa1, 0x7c, 0x32; }
    else if b == 0xa2 { v, i, s := 0xa2, 0x2e, 0x3a; }
    else if b == 0xa3 { v, i, s := 0xa3, 0xc3, 0x0a; }
    else if b == 0xa4 { v, i, s := 0xa4, 0x8f, 0x49; }
    else if b == 0xa5 { v, i, s := 0xa5, 0xb8, 0x06; }
    else if b == 0xa6 { v, i, s := 0xa6, 0x65, 0x24; }
    else { v, i, s := 0xa7, 0x48, 0x5c; }
  }

  lemma Rowa8(b: Byte) returns (v: bv8, i: bv8, s: bv8)
    requires 0xa8 <= b <= 0xaf
    ensures IsEntry(b, v, i, s)
  {
    if b == 0xa8 { v, i, s := 0xa8, 0x26, 0xc2; }
    else if b == 0xa9 { v, i, s := 0xa9, 0xc8, 0xd3; }
    else if b == 0xaa { v, i, s := 0xaa, 0x12, 0xac; }
    else if b == 0xab { v, i, s := 0xab, 0x4a, 0x62; }
    else if b == 0xac { v, i, s := 0xac, 0xce, 0x91; }
    else if b == 0xad { v, i, s := 0xad, 0xe7, 0x95; }
    else if b == 0xae { v, i, s := 0xae, 0xd2, 0xe4; }
    else { v, i, s := 0xaf, 0x62, 0x79; }
  }

  lemma Rowb0(b: Byte) returns (v: bv8, i: bv8, s: bv8)
    requires 0xb0 <= b <= 0xb7
    ensures IsEntry(b, v, i, s)
  {
    if b == 0xb0 { v, i, s := 0xb0, 0x0c, 0xe7; }
    else if b == 0xb1 { v, i, s := 0xb1, 0xe0, 0xc8; }
    else if b == 0xb2 { v, i, s := 0xb2, 0x1f, 0x37; }
    else if b == 0xb3 { v, i, s := 0xb3, 0xef, 0x6d; }
    else if b == 0xb4 { v, i, s := 0xb4, 0x11, 0x8d; }
    else if b == 0xb5 { v, i, s := 0xb5, 0x75, 0xd5; }
    else if b == 0xb6 { v, i, s := 0xb6, 0x78, 0x4e; }
    else { v, i, s := 0xb7, 0x71, 0xa9; }
  }

  lemma Rowb8(b: Byte) returns (v: bv8, i: bv8, s: bv8)
    requires 0xb8 <= b <= 0xbf
    ensures IsEntry(b, v, i, s)
  {
    if b == 0xb8 { v, i, s := 0xb8, 0xa5, 0x6c; }
    else if b == 0xb9 { v, i, s := 0xb9, 0x8e, 0x56; }
    else if b == 0xba { v, i, s := 0xba, 0x76, 0xf4; }
    else if b == 0xbb { v, i, s := 0xbb, 0x3d, 0xea; }
    else if b == 0xbc { v, i, s := 0xbc, 0xbd, 0x65; }
    else if b == 0xbd { v, i, s := 0xbd, 0xbc, 0x7a; }
    else if b == 0xbe { v, i, s := 0xbe, 0x86, 0xae; }
    else { v, i, s := 0xbf, 0x57, 0x08; }
  }

  lemma Rowc0(b: Byte) returns (v: bv8, i: bv8, s: bv8)
    requires 0xc0 <= b <= 0xc7
    ensures IsEntry(b, v, i, s)
  {
    if b == 0xc0 { v, i, s := 0xc0, 0x0b, 0xba; }
    else if b == 0xc1 { v, i, s := 0xc1, 0x28, 0x78; }
    else if b == 0xc2 { v, i, s := 0xc2, 0x2f, 0x25; }
    else if b == 0xc3 { v, i, s := 0xc3, 0xa3, 0x2e; }
    else if b == 0xc4 { v, i, s := 0xc4, 0xda, 0x1c; }
    else if b == 0xc5 { v, i, s := 0xc5, 0xd4, 0xa6; }
    else if b == 0xc6 { v, i, s := 0xc6, 0xe4, 0xb4; }
    else { v, i, s := 0xc7, 0x0f, 0xc6; }
  }

  lemma Rowc8(b: Byte) returns (v: bv8, i: bv8, s: bv8)
    requires 0xc8 <= b <= 0xcf
    ensures IsEntry(b, v, i, s)
  {
    if b == 0xc8 { v, i, s := 0xc8, 0xa9, 0xe8; }
    else if b == 0xc9 { v, i, s := 0xc9, 0x27, 0xdd; }
    else if b == 0xca { v, i, s := 0xca, 0x53, 0x74; }
    else if b == 0xcb { v, i, s := 0xcb, 0x04, 0x1f; }
    else if b == 0xcc { v, i, s := 0xcc, 0x1b, 0x4b; }
    else if b == 0xcd { v, i, s := 0xcd, 0xfc, 0xbd; }
    else if b == 0xce { v, i, s := 0xce, 0xac, 0x8b; }
    else { v, i, s := 0xcf, 0xe6, 0x8a; }
  }

  lemma Rowd0(b: Byte) returns (v: bv8, i: bv8, s: bv8)
    requires 0xd0 <= b <= 0xd7
    ensures IsEntry(b, v, i, s)
  {
    if b == 0xd0 { v, i, s := 0xd0, 0x7a, 0x70; }
    else if b == 0xd1 { v, i, s := 0xd1, 0x07, 0x3e; }
    else if b == 0xd2 { v, i, s := 0xd2, 0xae, 0xb5; }
    else if b == 0xd3 { v, i, s := 0xd3, 0x63, 0x66; }
    else if b == 0xd4 { v, i, s := 0xd4, 0xc5, 0x48; }
    else if b == 0xd5 { v, i, s := 0xd5, 0xdb, 0x03; }
    else if b == 0xd6 { v, i, s := 0xd6, 0xe2, 0xf6; }
    else { v, i, s := 0xd7, 0xea, 0x0e; }
  }

  lemma Rowd8(b: Byte) returns (v: bv8, i: bv8, s: bv8)
    requires 0xd8 <= b <= 0xdf
    ensures IsEntry(b, v, i, s)
  {
    if b == 0xd8 { v, i, s := 0xd8, 0x94, 0x61; }
    else if b == 0xd9 { v, i, s := 0xd9, 0x8b, 0x35; }
    else if b == 0xda { v, i, s := 0xda, 0xc4, 0x57; }
    else if b == 0xdb { v, i, s := 0xdb, 0xd5, 0xb9; }
    else if b == 0xdc { v, i, s := 0xdc, 0x9d, 0x86; }
    else if b == 0xdd { v, i, s := 0xdd, 0xf8, 0xc1; }
    else if b == 0xde { v, i, s := 0xde, 0x90, 0x1d; }
    else { v, i, s := 0xdf, 0x6b, 0x9e; }
  }

  lemma Rowe0(b: Byte) returns (v: bv8, i: bv8, s: bv8)
    requires 0xe0 <= b <= 0xe7
    ensures IsEntry(b, v, i, s)
  {
    if b == 0xe0 { v, i, s := 0xe0, 0xb1, 0xe1; }
    else if b == 0xe1 { v, i, s := 0xe1, 0x0d, 0xf8; }
    else if b == 0xe2 { v, i, s := 0xe2, 0xd6, 0x98; }
    else if b == 0xe3 { v, i, s := 0xe3, 0xeb, 0x11; }
    else if b == 0xe4 { v, i, s := 0xe4, 0xc6, 0x69; }
    else if b == 0xe5 { v, i, s := 0xe5, 0x0e, 0xd9; }
    else if b == 0xe6 { v, i, s := 0xe6, 0xcf, 0x8e; }
    else { v, i, s := 0xe7, 0xad, 0x94; }
  }

  lemma Rowe8(b: Byte) returns (v: bv8, i: bv8, s: bv8)
    requires 0xe8 <= b <= 0xef
    ensures IsEntry(b, v, i, s)
  {
    if b == 0xe8 { v, i, s := 0xe8, 0x08, 0x9b; }
    else if b == 0xe9 { v, i, s := 0xe9, 0x4e, 0x1e; }
    else if b == 0xea { v, i, s := 0xea, 0xd7, 0x87; }
    else if b == 0xeb { v, i, s := 0xeb, 0xe3, 0xe9; }
    else if b == 0xec { v, i, s := 0xec, 0x5d, 0xce; }
    else if b == 0xed { v, i, s := 0xed, 0x50, 0x55; }
    else if b == 0xee { v, i, s := 0xee, 0x1e, 0x28; }
    else { v, i, s := 0xef, 0xb3, 0xdf; }
  }

  lemma Rowf0(b: Byte) returns (v: bv8, i: bv8, s: bv8)
    requires 0xf0 <= b <= 0xf7
    ensures IsEntry(b, v, i, s)
  {
    if b == 0xf0 { v, i, s := 0xf0, 0x5b, 0x8c; }
    else if b == 0xf1 { v, i, s := 0xf1, 0x23, 0xa1; }
    else if b == 0xf2 { v, i, s := 0xf2, 0x38, 0x89; }
    else if b == 0xf3 { v, i, s := 0xf3, 0x34, 0x0d; }
    else if b == 0xf4 { v, i, s := 0xf4, 0x68, 0xbf; }
    else if b == 0xf5 { v, i, s := 0xf5, 0x46, 0xe6; }
    else if b == 0xf6 { v, i, s := 0xf6, 0x03, 0x42; }
    else { v, i, s := 0xf7, 0x8c, 0x68; }
  }

  lemma Rowf8(b: Byte) returns (v: bv8, i: bv8, s: bv8)
    requires 0xf8 <= b <= 0xff
    ensures IsEntry(b, v, i, s)
  {
    if b == 0xf8 { v, i, s := 0xf8, 0xdd, 0x41; }
    else if b == 0xf9 { v, i, s := 0xf9, 0x9c, 0x99; }
    else if b == 0xfa { v, i, s := 0xfa, 0x7d, 0x2d; }
    else if b == 0xfb { v, i, s := 0xfb, 0xa0, 0x0f; }
    else if b == 0xfc { v, i, s := 0xfc, 0xcd, 0xb0; }
    else if b == 0xfd { v, i, s := 0xfd, 0x1a, 0x54; }
    else if b == 0xfe { v, i, s := 0xfe, 0x41, 0xbb; }
    else { v, i, s := 0xff, 0x1c, 0x16; }
  }

  /** Section 5.1.1 of FIPS 197, for every entry of the table. */
  lemma SBoxIsStandard(b: Byte) returns (v: bv8, i: bv8, s: bv8)
    ensures IsEntry(b, v, i, s)
  {
    if b < 0x08 { v, i, s := Row00(b); } else if b < 0x10 { v, i, s := Row08(b); }
    else if b < 0x18 { v, i, s := Row10(b); } else if b < 0x20 { v, i, s := Row18(b); }
    else if b < 0x28 { v, i, s := Row20(b); } else if b < 0x30 { v, i, s := Row28(b); }
    else if b < 0x38 { v, i, s := Row30(b); } else if b < 0x40 { v, i, s := Row38(b); }
    else if b < 0x48 { v, i, s := Row40(b); } else if b < 0x50 { v, i, s := Row48(b); }
    else if b < 0x58 { v, i, s := Row50(b); } else if b < 0x60 { v, i, s := Row58(b); }
    else if b < 0x68 { v, i, s := Row60(b); } else if b < 0x70 { v, i, s := Row68(b); }
    else if b < 0x78 { v, i, s := Row70(b); } else if b < 0x80 { v, i, s := Row78(b); }
    else if b < 0x88 { v, i, s := Row80(b); } else if b < 0x90 { v, i, s := Row88(b); }
    else if b < 0x98 { v, i, s := Row90(b); } else if b < 0xa0 { v, i, s := Row98(b); }
    else if b < 0xa8 { v, i, s := Rowa0(b); } else if b < 0xb0 { v, i, s := Rowa8(b); }
    else if b < 0xb8 { v, i, s := Rowb0(b); } else if b < 0xc0 { v, i, s := Rowb8(b); }
    else if b < 0xc8 { v, i, s := Rowc0(b); } else if b < 0xd0 { v, i, s := Rowc8(b); }
    else if b < 0xd8 { v, i, s := Rowd0(b); } else if b < 0xe0 { v, i, s := Rowd8(b); }
    else if b < 0xe8 { v, i, s := Rowe0(b); } else if b < 0xf0 { v, i, s := Rowe8(b); }
    else if b < 0xf8 { v, i, s := Rowf0(b); } else { v, i, s := Rowf8(b); }
  }

  // ---- the key schedule, byte by byte ----

  function ByteAt(c: Column, r: nat): Byte
    requires r < 4
  {
    if r == 0 then c.c0 else if r == 1 then c.c1 else if r == 2 then c.c2 else c.c3
  }

  /** Byte r of word i: the one four words back, plus the byte above it in the word before; but every fourth word takes
      the substitute of the next byte of that word, cyclically, and the first byte also a power of x. */
  ghost predicate WordFollows(t: Tables, w: Schedule, i: nat, r: nat)
    requires 4 <= i < 44 && r < 4
  {
    ByteAt(w[i], r)
    == if i % 4 != 0 then ByteXor(ByteAt(w[i - 4], r), ByteAt(w[i - 1], r))
       else if r != 0 then ByteXor(ByteAt(w[i - 4], r), t.sub(ByteAt(w[i - 1], (r + 1) % 4)))
       else ByteXor(ByteAt(w[i - 4], 0), ByteXor(t.sub(ByteAt(w[i - 1], 1)), RCON[i / 4 - 1]))
  }

  /** Section 5.2 of FIPS 197, for every word of every key. */
  lemma ScheduleIsStandard(t: Tables, key: Data, i: nat, r: nat)
    requires |key| == 16 && i < 44 && r < 4
    ensures var w := ExpandKey(t, key); if i < 4 then ByteAt(w[i], r) == key[4 * i + r] else WordFollows(t, w, i, r)
  {
    var w := ExpandKey(t, key);
    ExpandKeyIsSchedule(t, key, w);
    if i < 4 {
      assert w[i] == KeyWord(key, i);
    } else {
      assert w[i] == ScheduledWord(t, w[i - 4], w[i - 1], i);
      ScheduledByte(t, w[i - 4], w[i - 1], i, r);
    }
  }

  lemma ScheduledByte(t: Tables, x: Column, y: Column, i: nat, r: nat)
    requires 4 <= i < 44 && r < 4
    ensures ByteAt(ScheduledWord(t, x, y, i), r)
         == if i % 4 != 0 then ByteXor(ByteAt(x, r), ByteAt(y, r))
            else if r != 0 then ByteXor(ByteAt(x, r), t.sub(ByteAt(y, (r + 1) % 4)))
            else ByteXor(ByteAt(x, 0), ByteXor(t.sub(ByteAt(y, 1)), RCON[i / 4 - 1]))
  {
    if i % 4 != 0 {
    } else if r != 0 {
      SubstitutedByte(t, x, y, i, r);
    } else {
      RconIsPowers(i / 4 - 1);
    }
  }

  lemma SubstitutedByte(t: Tables, x: Column, y: Column, i: nat, r: nat)
    requires 4 <= i < 44 && i % 4 == 0 && 0 < r < 4
    ensures ByteAt(ScheduledWord(t, x, y, i), r) == ByteXor(ByteAt(x, r), t.sub(ByteAt(y, (r + 1) % 4)))
  {
  }

  /** The key of appendix A.1. */
  ghost predicate IsExample(key: Data) {
    && |key| == 16
    && key[0] == 0x2b && key[1] == 0x7e && key[2] == 0x15 && key[3] == 0x16
    && key[4] == 0x28 && key[5] == 0xae && key[6] == 0xd2 && key[7] == 0xa6
    && key[8] == 0xab && key[9] == 0xf7 && key[10] == 0x15 && key[11] == 0x88
    && key[12] == 0x09 && key[13] == 0xcf && key[14] == 0x4f && key[15] == 0x3c
  }

  lemma SumIs(x: bv8, y: bv8, z: bv8, a: Byte, b: Byte)
    requires x ^ y == z && a == Value(x) && b == Value(y)
    ensures ByteXor(a, b) == Value(z)
  {
    ValueOfXor(x, y);
  }

  /** Words 4 and 5 of a schedule, from the key. */
  lemma WordFour(t: Tables, key: Data, w: Schedule, r: nat)
    requires |key| == 16 && w == ExpandKey(t, key) && r < 4
    ensures ByteAt(w[4], r)
         == ByteXor(key[r], if r == 0 then ByteXor(t.sub(key[13]), RCON[0]) else t.sub(key[12 + (r + 1) % 4]))
  {
    ScheduleIsStandard(t, key, 0, r);
    ScheduleIsStandard(t, key, 3, (r + 1) % 4);
    ScheduleIsStandard(t, key, 4, r);
  }

  lemma WordFive(t: Tables, key: Data, w: Schedule, r: nat)
    requires |key| == 16 && w == ExpandKey(t, key) && r < 4
    ensures ByteAt(w[5], r) == ByteXor(key[4 + r], ByteAt(w[4], r))
  {
    ScheduleIsStandard(t, key, 1, r);
    ScheduleIsStandard(t, key, 5, r);
  }

  /** The first expanded words of appendix A.1, for the key 2b7e1516 28aed2a6 abf71588 09cf4f3c. */
  lemma FirstWords(t: Tables, key: Data)
    requires t == AesTables() && IsExample(key)
    ensures var w := ExpandKey(t, key);
            w[4] == Column(0xa0, 0xfa, 0xfe, 0x17) && w[5] == Column(0x88, 0x54, 0x2c, 0xb1)
  {
    var w := ExpandKey(t, key);
    Substituted(t, key);
    WordsFrom(t, key, w);
    ExampleFour(key, t.sub(key[13]), t.sub(key[14]), t.sub(key[15]), t.sub(key[12]), w[4]);
    ExampleFive(key, w[4], w[5]);
  }

  lemma WordsFrom(t: Tables, key: Data, w: Schedule)
    requires |key| == 16 && w == ExpandKey(t, key)
    ensures w[4].c0 == ByteXor(key[0], ByteXor(t.sub(key[13]), RCON[0])) && w[4].c1 == ByteXor(key[1], t.sub(key[14]))
    ensures w[4].c2 == ByteXor(key[2], t.sub(key[15])) && w[4].c3 == ByteXor(key[3], t.sub(key[12]))
    ensures w[5].c0 == ByteXor(key[4], w[4].c0) && w[5].c1 == ByteXor(key[5], w[4].c1)
    ensures w[5].c2 == ByteXor(key[6], w[4].c2) && w[5].c3 == ByteXor(key[7], w[4].c3)
  {
    WordFour(t, key, w, 0); WordFour(t, key, w, 1); WordFour(t, key, w, 2); WordFour(t, key, w, 3);
    WordFive(t, key, w, 0); WordFive(t, key, w, 1); WordFive(t, key, w, 2); WordFive(t, key, w, 3);
  }

  lemma Substituted(t: Tables, key: Data)
    requires t == AesTables() && IsExample(key)
    ensures t.sub(key[13]) == 0x8a && t.sub(key[14]) == 0x84 && t.sub(key[15]) == 0xeb && t.sub(key[12]) == 0x01
  {
    assert SBox(0xcf) == 0x8a;
    assert SBox(0x4f) == 0x84;
    assert SBox(0x3c) == 0xeb;
    assert SBox(0x09) == 0x01;
  }

  lemma ExampleFour(key: Data, s0: Byte, s1: Byte, s2: Byte, s3: Byte, u: Column)
    requires IsExample(key) && s0 == 0x8a && s1 == 0x84 && s2 == 0xeb && s3 == 0x01
    requires u.c0 == ByteXor(key[0], ByteXor(s0, RCON[0]))
    requires u.c1 == ByteXor(key[1], s1) && u.c2 == ByteXor(key[2], s2) && u.c3 == ByteXor(key[3], s3)
    ensures u == Column(0xa0, 0xfa, 0xfe, 0x17)
  {
    FirstByte(key[0], s0, RCON[0]);
    OtherBytes(key[1], s1, key[2], s2, key[3], s3);
  }

  lemma FirstByte(k: Byte, s: Byte, c: Byte)
    requires k == 0x2b && s == 0x8a && c == 0x01
    ensures ByteXor(k, ByteXor(s, c)) == 0xa0
  {
    assert Value(0x8a) == 0x8a && Value(0x01) == 0x01 && Value(0x8b) == 0x8b;
    assert Value(0x2b) == 0x2b && Value(0xa0) == 0xa0;
    SumIs(0x8a, 0x01, 0x8b, s, c);
    SumIs(0x2b, 0x8b, 0xa0, k, ByteXor(s, c));
  }

  lemma OtherBytes(a: Byte, x: Byte, b: Byte, y: Byte, c: Byte, z: Byte)
    requires a == 0x7e && x == 0x84 && b == 0x15 && y == 0xeb && c == 0x16 && z == 0x01
    ensures ByteXor(a, x) == 0xfa && ByteXor(b, y) == 0xfe && ByteXor(c, z) == 0x17
  {
    assert Value(0x7e) == 0x7e && Value(0x84) == 0x84 && Value(0xfa) == 0xfa;
    assert Value(0x15) == 0x15 && Value(0xeb) == 0xeb && Value(0xfe) == 0xfe;
    assert Value(0x16) == 0x16 && Value(0x01) == 0x01 && Value(0x17) == 0x17;
    SumIs(0x7e, 0x84, 0xfa, a, x);
    SumIs(0x15, 0xeb, 0xfe, b, y);
    SumIs(0x16, 0x01, 0x17, c, z);
  }

  lemma ExampleFive(key: Data, u: Column, v: Column)
    requires IsExample(key) && u == Column(0xa0, 0xfa, 0xfe, 0x17)
    requires v.c0 == ByteXor(key[4], u.c0) && v.c1 == ByteXor(key[5], u.c1)
    requires v.c2 == ByteXor(key[6], u.c2) && v.c3 == ByteXor(key[7], u.c3)
    ensures v == Column(0x88, 0x54, 0x2c, 0xb1)
  {
    NextBytes(key[4], u.c0, key[5], u.c1);
    LastBytes(key[6], u.c2, key[7], u.c3);
  }

  lemma NextBytes(a: Byte, x: Byte, b: Byte, y: Byte)
    requires a == 0x28 && x == 0xa0 && b == 0xae && y == 0xfa
    ensures ByteXor(a, x) == 0x88 && ByteXor(b, y) == 0x54
  {
    assert Value(0x28) == 0x28 && Value(0xa0) == 0xa0 && Value(0x88) == 0x88;
    assert Value(0xae) == 0xae && Value(0xfa) == 0xfa && Value(0x54) == 0x54;
    SumIs(0x28, 0xa0, 0x88, a, x);
    SumIs(0xae, 0xfa, 0x54, b, y);
  }

  lemma LastBytes(a: Byte, x: Byte, b: Byte, y: Byte)
    requires a == 0xd2 && x == 0xfe && b == 0xa6 && y == 0x17
    ensures ByteXor(a, x) == 0x2c && ByteXor(b, y) == 0xb1
  {
    assert Value(0xd2) == 0xd2 && Value(0xfe) == 0xfe && Value(0x2c) == 0x2c;
    assert Value(0xa6) == 0xa6 && Value(0x17) == 0x17 && Value(0xb1) == 0xb1;
    SumIs(0xd2, 0xfe, 0x2c, a, x);
    SumIs(0xa6, 0x17, 0xb1, b, y);
  }

  // ---- the cipher, byte by byte ----

  function ColumnOf(s: Block, c: nat): Column
    requires c < 4
  {
    if c == 0 then s.a else if c == 1 then s.b else if c == 2 then s.c else s.d
  }

  /** Row r, column c of the state. */
  function Cell(s: Block, r: nat, c: nat): Byte
    requires r < 4 && c < 4
  {
    ByteAt(ColumnOf(s, c), r)
  }

  /** Sections 3.4 and 5.1 of FIPS 197: the bytes fill the state by columns, and each transformation byte by byte. The
      inverse transformations are pinned by undoing these. */
  lemma LayersAreStandard(t: Tables, w: Schedule, s: Block, data: Data, n: nat, r: nat, c: nat)
    requires |data| == 16 && n <= 10 && r < 4 && c < 4
    ensures Cell(ToBlock(data), r, c) == data[r + 4 * c] && Flat(s)[r + 4 * c] == Cell(s, r, c)
    ensures Cell(SubBytes(t, s), r, c) == t.sub(Cell(s, r, c))
    ensures Cell(ShiftRows(s), r, c) == Cell(s, r, (c + r) % 4)
    ensures Cell(AddKey(s, w, n), r, c) == ByteXor(Cell(s, r, c), ByteAt(w[4 * n + c], r))
  {
  }

  /** Twice a, three times b, and the other two. */
  function MixSum(a: Byte, b: Byte, c: Byte, d: Byte): nat { Xor4(Xtime(a), Xor(Xtime(b), b), c, d) }

  /** Section 5.1.3 of FIPS 197: each byte of a column from itself and the three below it, cyclically. */
  lemma MixIsStandard(s: Block, r: nat, c: nat)
    requires r < 4 && c < 4
    ensures Cell(MixBlock(s), r, c)
         == MixSum(Cell(s, r, c), Cell(s, (r + 1) % 4, c), Cell(s, (r + 2) % 4, c), Cell(s, (r + 3) % 4, c))
  {
    MixedColumn(s, c);
    MixedByte(ColumnOf(s, c), r);
  }

  lemma MixedColumn(s: Block, c: nat)
    requires c < 4
    ensures ColumnOf(MixBlock(s), c) == MixColumn(ColumnOf(s, c))
  {
  }

  lemma TwiceAndThrice(x: Byte)
    ensures Mul(x, 2) == Xtime(x) && Mul(x, 3) == ByteXor(Xtime(x), x)
  {
    MulByOne(Xtime(x));
    XorCommutes(x, Xtime(x));
  }

  lemma MixedByte(x: Column, r: nat)
    requires r < 4
    ensures ByteAt(MixColumn(x), r)
         == MixSum(ByteAt(x, r), ByteAt(x, (r + 1) % 4), ByteAt(x, (r + 2) % 4), ByteAt(x, (r + 3) % 4))
  {
    MixedBytes(x, MixColumn(x));
    Cyclic(x, MixColumn(x), MixSum, r);
  }

  lemma Cyclic(x: Column, y: Column, f: (Byte, Byte, Byte, Byte) -> nat, r: nat)
    requires r < 4 && y.c0 == f(x.c0, x.c1, x.c2, x.c3) && y.c1 == f(x.c1, x.c2, x.c3, x.c0)
    requires y.c2 == f(x.c2, x.c3, x.c0, x.c1) && y.c3 == f(x.c3, x.c0, x.c1, x.c2)
    ensures ByteAt(y, r) == f(ByteAt(x, r), ByteAt(x, (r + 1) % 4), ByteAt(x, (r + 2) % 4), ByteAt(x, (r + 3) % 4))
  {
  }

  lemma MixedBytes(x: Column, y: Column)
    requires y == MixColumn(x)
    ensures y.c0 == MixSum(x.c0, x.c1, x.c2, x.c3) && y.c1 == MixSum(x.c1, x.c2, x.c3, x.c0)
    ensures y.c2 == MixSum(x.c2, x.c3, x.c0, x.c1) && y.c3 == MixSum(x.c3, x.c0, x.c1, x.c2)
  {
    Mixed0(x.c0, x.c1, x.c2, x.c3);
    Mixed1(x.c0, x.c1, x.c2, x.c3);
    Mixed2(x.c0, x.c1, x.c2, x.c3);
    Mixed3(x.c0, x.c1, x.c2, x.c3);
  }

  lemma Mixed0(a: Byte, b: Byte, c: Byte, d: Byte)
    ensures ByteXor(ByteXor(ByteXor(Mul(a, 2), Mul(b, 3)), c), d) == MixSum(a, b, c, d)
  {
    TwiceAndThrice(a); TwiceAndThrice(b);
    RotatedSums(Xtime(a), Xor(Xtime(b), b), c, d);
  }

  lemma Mixed1(a: Byte, b: Byte, c: Byte, d: Byte)
    ensures ByteXor(ByteXor(ByteXor(a, Mul(b, 2)), Mul(c, 3)), d) == MixSum(b, c, d, a)
  {
    TwiceAndThrice(b); TwiceAndThrice(c);
    RotatedSums(Xtime(b), Xor(Xtime(c), c), d, a);
  }

  lemma Mixed2(a: Byte, b: Byte, c: Byte, d: Byte)
    ensures ByteXor(ByteXor(ByteXor(a, b), Mul(c, 2)), Mul(d, 3)) == MixSum(c, d, a, b)
  {
    TwiceAndThrice(c); TwiceAndThrice(d);
    RotatedSums(Xtime(c), Xor(Xtime(d), d), a, b);
  }

  lemma Mixed3(a: Byte, b: Byte, c: Byte, d: Byte)
    ensures ByteXor(ByteXor(ByteXor(Mul(a, 3), b), c), Mul(d, 2)) == MixSum(d, a, b, c)
  {
    TwiceAndThrice(d); TwiceAndThrice(a);
    RotatedSums(Xtime(d), Xor(Xtime(a), a), b, c);
  }

  /** A sum of four, started anywhere. */
  lemma RotatedSums(a: nat, b: nat, c: nat, d: nat)
    ensures Xor(Xor(Xor(a, b), c), d) == Xor4(a, b, c, d) && Xor(Xor(Xor(d, a), b), c) == Xor4(a, b, c, d)
    ensures Xor(Xor(Xor(c, d), a), b) == Xor4(a, b, c, d) && Xor(Xor(Xor(b, c), d), a) == Xor4(a, b, c, d)
  {
    XorAssociates(Xor(a, b), c, d);
    XorAssociates(Xor(c, d), a, b);
    XorCommutes(Xor(c, d), Xor(a, b));
    XorAssociates(Xor(d, a), b, c);
    XorAssociates(Xor(b, c), d, a);
    XorCommutes(Xor(b, c), Xor(d, a));
    XorInterchange(d, a, b, c);
    XorCommutes(d, b);
    XorInterchange(a, b, c, d);
    XorInterchange(b, c, a, d);
    XorCommutes(b, a); XorCommutes(c, d); XorCommutes(d, a); XorCommutes(b, c);
  }

  /** The state after round n is the mixed, shifted, substituted one before it, plus the round's key. */
  ghost predicate RoundFollows(t: Tables, w: Schedule, states: seq<Block>, n: nat)
    requires 0 < n < |states|
  {
    states[n] == AddKey(MixBlock(ShiftRows(SubBytes(t, states[n - 1]))), w, n)
  }

  /** Section 5.1 of FIPS 197: one key addition, nine full rounds, and one round that does not mix. */
  lemma CipherIsStandard(l: R.Layers<Block>, t: Tables, w: Schedule, s: Block, states: seq<Block>)
    requires IsAes(l, t, w) && |states| == 10 && states[0] == AddKey(s, w, 0)
    requires forall n :: 0 < n < 10 ==> RoundFollows(t, w, states, n)
    ensures R.Encrypt(l, s) == AddKey(ShiftRows(SubBytes(t, states[9])), w, 10)
  {
    StatesAre(l, t, w, s, states, 9);
    LastRound(l, t, w, s, states[9]);
  }

  lemma LastRound(l: R.Layers<Block>, t: Tables, w: Schedule, s: Block, u: Block)
    requires IsAes(l, t, w) && u == R.EncryptRounds(l, s, 9)
    ensures R.Encrypt(l, s) == AddKey(ShiftRows(SubBytes(t, u)), w, 10)
  {
    assert SubIs(l, t, u);
    assert KeyIs(l, w, l.sub(u), 10);
  }

  lemma {:induction false} StatesAre(l: R.Layers<Block>, t: Tables, w: Schedule, s: Block, states: seq<Block>, n: nat)
    requires IsAes(l, t, w) && |states| == 10 && states[0] == AddKey(s, w, 0) && n < 10
    requires forall n :: 0 < n < 10 ==> RoundFollows(t, w, states, n)
    ensures R.EncryptRounds(l, s, n) == states[n]
  {
    if n == 0 {
      assert KeyIs(l, w, s, 0);
    } else {
      StatesAre(l, t, w, s, states, n - 1);
      assert RoundFollows(t, w, states, n);
      var u := states[n - 1];
      assert SubIs(l, t, u) && MixIs(l, l.sub(u)) && KeyIs(l, w, l.mix(l.sub(u)), n);
    }
  }
}
