/** _sha512_pure against sections 5.1.2, 6.4 and 4.1.3 of FIPS 180-4. */
module Sha512 {
  import opened Bytes
  import opened Bits
  import opened Words

  // ---- padding, section 5.1.2 ----

  /** The number of zero bytes after the byte 0x80. */
  function Gap(n: nat): (z: nat)
    ensures z < 128 && (n + 1 + z) % 128 == 112
  {
    (111 - n) % 128
  }

  /** The longest message that the 16-byte length field can describe has fewer than 2^128 bits. */
  function Padded(m: Data): Data
    requires 8 * |m| < Pow256(16)
  {
    m + [0x80] + Zeros(Gap(|m|)) + ToBig(8 * |m|, 16)
  }

  /** The padding fills whole blocks, and no more than it must. */
  lemma PaddedIsBlocks(m: Data)
    requires 8 * |m| < Pow256(16)
    ensures |Padded(m)| % 128 == 0 && |m| + 17 <= |Padded(m)| < |m| + 17 + 128
  {
  }

  lemma LengthField(m: Data)
    requires 8 * |m| < Pow256(16)
    ensures var p := Padded(m); |m| <= |p| - 16 && p[..|m|] == m && FromBig(p[|p| - 16..]) == 8 * |m|
  {
    var p := Padded(m);
    assert p[|p| - 16..] == ToBig(8 * |m|, 16);
    BigOfInt(8 * |m|, 16);
  }

  /** Two messages with the same padding are the same. */
  lemma PaddingIsInjective(m: Data, n: Data)
    requires 8 * |m| < Pow256(16) && 8 * |n| < Pow256(16)
    requires Padded(m) == Padded(n)
    ensures m == n
  {
    LengthField(m);
    LengthField(n);
  }

  // ---- one block, section 6.4.2 ----

  datatype Vars = Vars(a: Word, b: Word, c: Word, d: Word, e: Word, f: Word, g: Word, h: Word)

  type Block = d: Data | |d| == 128 witness Zeros(128)

  /** The six functions of section 4.1.3, and the table of constants of section 4.2.3. */
  datatype Functions = Functions(
    bigSigma0: Word -> Word, bigSigma1: Word -> Word, smallSigma0: Word -> Word, smallSigma1: Word -> Word,
    choose: (Word, Word, Word) -> Word, majority: (Word, Word, Word) -> Word, k: nat -> Word)

  function BlockWord(block: Block, t: nat): Word
    requires t < 16
  {
    WordOfBytes(block[8 * t..8 * t + 8])
  }

  function WordOfBytes(s: Data): Word
    requires |s| == 8
  {
    FromBigBound(s);
    ModulusIsPower();
    FromBig(s)
  }

  /** The message schedule W. */
  function Scheduled(fs: Functions, block: Block, t: nat): Word
  {
    if t < 16 then BlockWord(block, t)
    else Plus(Plus(Plus(fs.smallSigma1(Scheduled(fs, block, t - 2)), Scheduled(fs, block, t - 7)),
                   fs.smallSigma0(Scheduled(fs, block, t - 15))), Scheduled(fs, block, t - 16))
  }

  function T1(fs: Functions, v: Vars, k: Word, w: Word): Word {
    Plus(Plus(Plus(Plus(v.h, fs.bigSigma1(v.e)), fs.choose(v.e, v.f, v.g)), k), w)
  }

  function T2(fs: Functions, v: Vars): Word { Plus(fs.bigSigma0(v.a), fs.majority(v.a, v.b, v.c)) }

  function Round(fs: Functions, v: Vars, k: Word, w: Word): Vars {
    var t1 := T1(fs, v, k, w);
    Vars(Plus(t1, T2(fs, v)), v.a, v.b, v.c, Plus(v.d, t1), v.e, v.f, v.g)
  }

  /** The eight variables after the first t rounds. */
  function AfterRounds(fs: Functions, h: Vars, block: Block, t: nat): Vars {
    if t == 0 then h else Round(fs, AfterRounds(fs, h, block, t - 1), fs.k(t - 1), Scheduled(fs, block, t - 1))
  }

  function AddVars(h: Vars, v: Vars): Vars {
    Vars(Plus(h.a, v.a), Plus(h.b, v.b), Plus(h.c, v.c), Plus(h.d, v.d),
         Plus(h.e, v.e), Plus(h.f, v.f), Plus(h.g, v.g), Plus(h.h, v.h))
  }

  function Compress(fs: Functions, h: Vars, block: Block, rounds: nat): Vars {
    AddVars(h, AfterRounds(fs, h, block, rounds))
  }

  function Compressor(fs: Functions, rounds: nat): (Vars, Block) -> Vars {
    (v: Vars, b: Block) => Compress(fs, v, b, rounds)
  }

  /** The hash value after all the blocks of msg, each taken in by f. */
  function HashBlocks(f: (Vars, Block) -> Vars, h: Vars, msg: Data): Vars
    requires |msg| % 128 == 0
    decreases |msg|
  {
    if msg == [] then h else HashBlocks(f, f(h, msg[..128]), msg[128..])
  }

  lemma NextBlock(f: (Vars, Block) -> Vars, h: Vars, msg: Data, i: nat)
    requires |msg| % 128 == 0 && i % 128 == 0 && i < |msg|
    ensures HashBlocks(f, h, msg[i..]) == HashBlocks(f, f(h, msg[i..i + 128]), msg[i + 128..])
  {
    assert msg[i..][..128] == msg[i..i + 128] && msg[i..][128..] == msg[i + 128..];
  }

  function WordBytes(x: Word): (r: Data)
    ensures |r| == 8
  {
    ModulusIsPower();
    ToBig(x, 8)
  }

  function Digest(h: Vars): (r: Data)
    ensures |r| == 64
  {
    WordBytes(h.a) + (WordBytes(h.b) + (WordBytes(h.c) + (WordBytes(h.d) +
    (WordBytes(h.e) + (WordBytes(h.f) + (WordBytes(h.g) + WordBytes(h.h)))))))
  }

  lemma HeadAndTail(x: Word, s: Data, y: Word, t: Data)
    requires WordBytes(x) + s == WordBytes(y) + t
    ensures x == y && s == t
  {
    assert WordBytes(x) == (WordBytes(x) + s)[..8] && WordBytes(y) == (WordBytes(y) + t)[..8];
    assert s == (WordBytes(x) + s)[8..] && t == (WordBytes(y) + t)[8..];
    ModulusIsPower();
    BigOfInt(x, 8);
    BigOfInt(y, 8);
  }

  /** The digest determines the eight words. */
  lemma DigestIsInjective(x: Vars, y: Vars)
    requires Digest(x) == Digest(y)
    ensures x == y
  {
    var xh, yh := WordBytes(x.h), WordBytes(y.h);
    var xg, yg := WordBytes(x.g) + xh, WordBytes(y.g) + yh;
    var xf, yf := WordBytes(x.f) + xg, WordBytes(y.f) + yg;
    var xe, ye := WordBytes(x.e) + xf, WordBytes(y.e) + yf;
    var xd, yd := WordBytes(x.d) + xe, WordBytes(y.d) + ye;
    var xc, yc := WordBytes(x.c) + xd, WordBytes(y.c) + yd;
    HeadAndTail(x.a, WordBytes(x.b) + xc, y.a, WordBytes(y.b) + yc);
    HeadAndTail(x.b, xc, y.b, yc);
    HeadAndTail(x.c, xd, y.c, yd);
    HeadAndTail(x.d, xe, y.d, ye);
    HeadAndTail(x.e, xf, y.e, yf);
    HeadAndTail(x.f, xg, y.f, yg);
    HeadAndTail(x.g, xh, y.g, yh);
    assert xh + [] == xh && yh + [] == yh;
    HeadAndTail(x.h, [], y.h, []);
  }

  function Hash(fs: Functions, h: Vars, m: Data, rounds: nat): (r: Data)
    requires 8 * |m| < Pow256(16)
    ensures |r| == 64
  {
    PaddedIsBlocks(m);
    Digest(HashBlocks(Compressor(fs, rounds), h, Padded(m)))
  }

  // ---- the six functions and their source expressions ----

  function BigSigma0(x: Word): Word { WordXor(WordXor(Rotr(x, 28), Rotr(x, 34)), Rotr(x, 39)) }
  function BigSigma1(x: Word): Word { WordXor(WordXor(Rotr(x, 14), Rotr(x, 18)), Rotr(x, 41)) }
  function SmallSigma0(x: Word): Word { WordXor(WordXor(Rotr(x, 1), Rotr(x, 8)), Shr(x, 7)) }
  function SmallSigma1(x: Word): Word { WordXor(WordXor(Rotr(x, 19), Rotr(x, 61)), Shr(x, 6)) }

  ghost predicate SmallIs(fs: Functions, x: Word) {
    fs.smallSigma0(x) == SmallSigma0(x) && fs.smallSigma1(x) == SmallSigma1(x)
  }

  ghost predicate BigIs(fs: Functions, x: Word) {
    fs.bigSigma0(x) == BigSigma0(x) && fs.bigSigma1(x) == BigSigma1(x)
  }

  ghost predicate ChoiceIs(fs: Functions, x: Word, y: Word, z: Word) {
    fs.choose(x, y, z) == Choose(x, y, z) && fs.majority(x, y, z) == Majority(x, y, z)
  }

  ghost predicate Standard(fs: Functions) {
    && (forall x :: SmallIs(fs, x))
    && (forall x :: BigIs(fs, x))
    && (forall x, y, z :: ChoiceIs(fs, x, y, z))
  }

  method SmallSigma0Expr(ghost fs: Functions, x: Word) returns (r: Word)
    requires Standard(fs)
    ensures r == fs.smallSigma0(x)
  {
    assert SmallIs(fs, x);
    Rotr64Rotates(x, 1); Rotr64Rotates(x, 8);
    r := WordXor(WordXor(Rotr64(x, 1), Rotr64(x, 8)), Shr(x, 7));
  }

  method SmallSigma1Expr(ghost fs: Functions, x: Word) returns (r: Word)
    requires Standard(fs)
    ensures r == fs.smallSigma1(x)
  {
    assert SmallIs(fs, x);
    Rotr64Rotates(x, 19); Rotr64Rotates(x, 61);
    r := WordXor(WordXor(Rotr64(x, 19), Rotr64(x, 61)), Shr(x, 6));
  }

  method BigSigma0Expr(ghost fs: Functions, x: Word) returns (r: Word)
    requires Standard(fs)
    ensures r == fs.bigSigma0(x)
  {
    assert BigIs(fs, x);
    Rotr64Rotates(x, 28); Rotr64Rotates(x, 34); Rotr64Rotates(x, 39);
    r := WordXor(WordXor(Rotr64(x, 28), Rotr64(x, 34)), Rotr64(x, 39));
  }

  method BigSigma1Expr(ghost fs: Functions, x: Word) returns (r: Word)
    requires Standard(fs)
    ensures r == fs.bigSigma1(x)
  {
    assert BigIs(fs, x);
    Rotr64Rotates(x, 14); Rotr64Rotates(x, 18); Rotr64Rotates(x, 41);
    r := WordXor(WordXor(Rotr64(x, 14), Rotr64(x, 18)), Rotr64(x, 41));
  }

  method ChooseExpr(ghost fs: Functions, e: Word, f: Word, g: Word) returns (r: Word)
    requires Standard(fs)
    ensures r == fs.choose(e, f, g)
  {
    assert ChoiceIs(fs, e, f, g);
    r := Choose(e, f, g);
  }

  method MajorityExpr(ghost fs: Functions, a: Word, b: Word, c: Word) returns (r: Word)
    requires Standard(fs)
    ensures r == fs.majority(a, b, c)
  {
    assert ChoiceIs(fs, a, b, c);
    r := Majority(a, b, c);
  }

  // ---- the source's loops ----

  method PadLoop(m: Data) returns (msg: Data)
    requires 8 * |m| < Pow256(16)
    ensures msg == Padded(m)
  {
    msg := m + [0x80];
    ghost var z := 0;
    while |msg| % 128 != 112
      invariant z <= Gap(|m|) && msg == m + [0x80] + Zeros(z)
      decreases Gap(|m|) - z
    {
      msg := msg + [0];
      z := z + 1;
    }
    msg := msg + ToBig(8 * |m|, 16);
  }

  /** A mask after every addition changes nothing that the last mask keeps. */
  lemma MaskedPlus(s: nat, x: Word)
    ensures Masked(s + x) == Plus(Masked(s), x)
  {
    ModPlus(s, x, MODULUS);
  }

  lemma ModPlus(s: nat, x: nat, m: nat)
    requires m > 0
    ensures (s + x) % m == (s % m + x) % m
  {
    var y := s % m + x;
    assert s + x == m * (s / m) + y;
    Regroup(m, s / m, y / m, y % m);
    DivModUnique(s + x, m, s / m + y / m, y % m);
  }

  lemma Regroup(m: int, u: int, v: int, r: int)
    ensures m * u + (m * v + r) == m * (u + v) + r
  {
  }

  lemma MaskOnce(a: Word, b: Word, c: Word, d: Word)
    ensures Masked(a + b + c + d) == Plus(Plus(Plus(d, c), b), a)
  {
    MaskedPlus(d, c);
    MaskedPlus(d + c, b);
    MaskedPlus(d + c + b, a);
  }

  lemma MaskFive(h: Word, s: Word, c: Word, k: Word, w: Word)
    ensures Masked(h + s + c + k + w) == Plus(Plus(Plus(Plus(h, s), c), k), w)
  {
    MaskedPlus(h + s, c);
    MaskedPlus(h + s + c, k);
    MaskedPlus(h + s + c + k, w);
  }

  method ScheduleLoop(ghost fs: Functions, block: Block) returns (w: seq<Word>)
    requires Standard(fs)
    ensures |w| == 80 && forall t {:trigger w[t]} :: 0 <= t < 80 ==> w[t] == Scheduled(fs, block, t)
  {
    w := [];
    for j := 0 to 16
      invariant |w| == j && forall t {:trigger w[t]} :: 0 <= t < j ==> w[t] == Scheduled(fs, block, t)
    {
      w := w + [WordOfBytes(block[8 * j..8 * j + 8])];
    }
    for j := 16 to 80
      invariant |w| == j && forall t {:trigger w[t]} :: 0 <= t < j ==> w[t] == Scheduled(fs, block, t)
    {
      var x := ScheduleStep(fs, w[j - 16], w[j - 15], w[j - 7], w[j - 2]);
      w := w + [x];
    }
  }

  method ScheduleStep(ghost fs: Functions, w16: Word, w15: Word, w7: Word, w2: Word) returns (x: Word)
    requires Standard(fs)
    ensures x == Plus(Plus(Plus(fs.smallSigma1(w2), w7), fs.smallSigma0(w15)), w16)
  {
    var s0 := SmallSigma0Expr(fs, w15);
    var s1 := SmallSigma1Expr(fs, w2);
    MaskOnce(w16, s0, w7, s1);
    x := Masked(w16 + s0 + w7 + s1);
  }

  method RoundStep(ghost fs: Functions, v: Vars, k: Word, w: Word) returns (t1: Word, t2: Word)
    requires Standard(fs)
    ensures Vars(Plus(t1, t2), v.a, v.b, v.c, Plus(v.d, t1), v.e, v.f, v.g) == Round(fs, v, k, w)
  {
    var s1 := BigSigma1Expr(fs, v.e);
    var ch := ChooseExpr(fs, v.e, v.f, v.g);
    MaskFive(v.h, s1, ch, k, w);
    t1 := Masked(v.h + s1 + ch + k + w);
    var s0 := BigSigma0Expr(fs, v.a);
    var maj := MajorityExpr(fs, v.a, v.b, v.c);
    t2 := Masked(s0 as int + maj);
  }

  type Constants = k: seq<Word> | |k| == 80 witness seq(80, _ => 0)

  /** fs.k lists these constants. */
  ghost predicate Lists(fs: Functions, k: Constants) {
    forall t {:trigger k[t]} :: 0 <= t < 80 ==> fs.k(t) == k[t]
  }

  method CompressLoop(ghost fs: Functions, k: Constants, h: Vars, block: Block) returns (r: Vars)
    requires Standard(fs) && Lists(fs, k)
    ensures r == Compress(fs, h, block, |k|)
  {
    var w := ScheduleLoop(fs, block);
    var a, b, c, d, e, f, g, hh := h.a, h.b, h.c, h.d, h.e, h.f, h.g, h.h;
    for j := 0 to |k|
      invariant Vars(a, b, c, d, e, f, g, hh) == AfterRounds(fs, h, block, j)
    {
      var t1, t2 := RoundStep(fs, Vars(a, b, c, d, e, f, g, hh), k[j], w[j]);
      hh, g, f, e, d, c, b, a := g, f, e, Masked(d as int + t1), c, b, a, Masked(t1 as int + t2);
    }
    r := AddLoop(h, Vars(a, b, c, d, e, f, g, hh));
  }

  method AddLoop(h: Vars, v: Vars) returns (r: Vars)
    ensures r == AddVars(h, v)
  {
    var a := AddWord(h.a, v.a); var b := AddWord(h.b, v.b); var c := AddWord(h.c, v.c); var d := AddWord(h.d, v.d);
    var e := AddWord(h.e, v.e); var f := AddWord(h.f, v.f); var g := AddWord(h.g, v.g); var hh := AddWord(h.h, v.h);
    r := Vars(a, b, c, d, e, f, g, hh);
  }

  method AddWord(x: Word, y: Word) returns (r: Word)
    ensures r == Plus(x, y)
  {
    r := Masked(x as int + y);
  }

  ghost predicate Compresses(f: (Vars, Block) -> Vars, fs: Functions, h: Vars, block: Block, rounds: nat) {
    f(h, block) == Compress(fs, h, block, rounds)
  }

  method OneBlock(ghost f: (Vars, Block) -> Vars, ghost fs: Functions, k: Constants, h: Vars, block: Block)
    returns (r: Vars)
    requires Standard(fs) && Lists(fs, k) && forall v, b :: Compresses(f, fs, v, b, |k|)
    ensures r == f(h, block)
  {
    assert Compresses(f, fs, h, block, |k|);
    r := CompressLoop(fs, k, h, block);
  }

  method BlocksLoop(ghost f: (Vars, Block) -> Vars, ghost fs: Functions, k: Constants, h0: Vars, msg: Data)
    returns (h: Vars)
    requires Standard(fs) && Lists(fs, k) && |msg| % 128 == 0
    requires forall v, b :: Compresses(f, fs, v, b, |k|)
    ensures h == HashBlocks(f, h0, msg)
  {
    h := h0;
    var i := 0;
    while i < |msg|
      invariant 0 <= i <= |msg| && i % 128 == 0
      invariant HashBlocks(f, h, msg[i..]) == HashBlocks(f, h0, msg)
    {
      NextBlock(f, h, msg, i);
      h := OneBlock(f, fs, k, h, msg[i..i + 128]);
      i := i + 128;
    }
  }

  method HashLoop(ghost fs: Functions, k: Constants, h0: Vars, message: Data) returns (digest: Data)
    requires Standard(fs) && Lists(fs, k)
    requires 8 * |message| < Pow256(16)
    ensures digest == Hash(fs, h0, message, |k|)
  {
    var msg := PadLoop(message);
    PaddedIsBlocks(message);
    var h := BlocksLoop(Compressor(fs, |k|), fs, k, h0, msg);
    digest := Digest(h);
  }

  // ---- the constants ----

  const K0: seq<Word> := [
    0x428a_2f98_d728_ae22, 0x7137_4491_23ef_65cd, 0xb5c0_fbcf_ec4d_3b2f, 0xe9b5_dba5_8189_dbbc,
    0x3956_c25b_f348_b538, 0x59f1_11f1_b605_d019, 0x923f_82a4_af19_4f9b, 0xab1c_5ed5_da6d_8118,
    0xd807_aa98_a303_0242, 0x1283_5b01_4570_6fbe, 0x2431_85be_4ee4_b28c, 0x550c_7dc3_d5ff_b4e2,
    0x72be_5d74_f27b_896f, 0x80de_b1fe_3b16_96b1, 0x9bdc_06a7_25c7_1235, 0xc19b_f174_cf69_2694]

  const K16: seq<Word> := [
    0xe49b_69c1_9ef1_4ad2, 0xefbe_4786_384f_25e3, 0x0fc1_9dc6_8b8c_d5b5, 0x240c_a1cc_77ac_9c65,
    0x2de9_2c6f_592b_0275, 0x4a74_84aa_6ea6_e483, 0x5cb0_a9dc_bd41_fbd4, 0x76f9_88da_8311_53b5,
    0x983e_5152_ee66_dfab, 0xa831_c66d_2db4_3210, 0xb003_27c8_98fb_213f, 0xbf59_7fc7_beef_0ee4,
    0xc6e0_0bf3_3da8_8fc2, 0xd5a7_9147_930a_a725, 0x06ca_6351_e003_826f, 0x1429_2967_0a0e_6e70]

  const K32: seq<Word> := [
    0x27b7_0a85_46d2_2ffc, 0x2e1b_2138_5c26_c926, 0x4d2c_6dfc_5ac4_2aed, 0x5338_0d13_9d95_b3df,
    0x650a_7354_8baf_63de, 0x766a_0abb_3c77_b2a8, 0x81c2_c92e_47ed_aee6, 0x9272_2c85_1482_353b,
    0xa2bf_e8a1_4cf1_0364, 0xa81a_664b_bc42_3001, 0xc24b_8b70_d0f8_9791, 0xc76c_51a3_0654_be30,
    0xd192_e819_d6ef_5218, 0xd699_0624_5565_a910, 0xf40e_3585_5771_202a, 0x106a_a070_32bb_d1b8]

  const K48: seq<Word> := [
    0x19a4_c116_b8d2_d0c8, 0x1e37_6c08_5141_ab53, 0x2748_774c_df8e_eb99, 0x34b0_bcb5_e19b_48a8,
    0x391c_0cb3_c5c9_5a63, 0x4ed8_aa4a_e341_8acb, 0x5b9c_ca4f_7763_e373, 0x682e_6ff3_d6b2_b8a3,
    0x748f_82ee_5def_b2fc, 0x78a5_636f_4317_2f60, 0x84c8_7814_a1f0_ab72, 0x8cc7_0208_1a64_39ec,
    0x90be_fffa_2363_1e28, 0xa450_6ceb_de82_bde9, 0xbef9_a3f7_b2c6_7915, 0xc671_78f2_e372_532b]

  const K64: seq<Word> := [
    0xca27_3ece_ea26_619c, 0xd186_b8c7_21c0_c207, 0xeada_7dd6_cde0_eb1e, 0xf57d_4f7f_ee6e_d178,
    0x06f0_67aa_7217_6fba, 0x0a63_7dc5_a2c8_98a6, 0x113f_9804_bef9_0dae, 0x1b71_0b35_131c_471b,
    0x28db_77f5_2304_7d84, 0x32ca_ab7b_40c7_2493, 0x3c9e_be0a_15c9_bebc, 0x431d_67c4_9c10_0d4c,
    0x4cc5_d4be_cb3e_42b6, 0x597f_299c_fc65_7e2a, 0x5fcb_6fab_3ad6_faec, 0x6c44_198c_4a47_5817]

  /** _SHA512_K */
  const K: Constants := K0 + K16 + K32 + K48 + K64

  const H0 := Vars(0x6a09e667f3bcc908, 0xbb67ae8584caa73b, 0x3c6ef372fe94f82b, 0xa54ff53a5f1d36f1,
                   0x510e527fade682d1, 0x9b05688c2b3e6c1f, 0x1f83d9abfb41bd6b, 0x5be0cd19137e2179)

  function ConstantAt(t: nat): Word {
    var k: Constants := K;
    if t < 80 then k[t] else 0
  }

  function StandardFunctions(): Functions {
    Functions(x => BigSigma0(x), x => BigSigma1(x), x => SmallSigma0(x), x => SmallSigma1(x),
              (x, y, z) => Choose(x, y, z), (x, y, z) => Majority(x, y, z), t => ConstantAt(t))
  }

  lemma StandardFunctionsAreStandard()
    ensures Standard(StandardFunctions()) && Lists(StandardFunctions(), K)
  {
  }

  /** SHA-512 of section 6.4 of FIPS 180-4. */
  ghost function Sha512(m: Data): (r: Data)
    requires 8 * |m| < Pow256(16)
    ensures |r| == 64
  {
    Hash(StandardFunctions(), H0, m, |K|)
  }

  method Sha512Pure(message: Data) returns (digest: Data)
    requires 8 * |message| < Pow256(16)
    ensures digest == Sha512(message)
  {
    StandardFunctionsAreStandard();
    digest := HashLoop(StandardFunctions(), K, H0, message);
  }
}
