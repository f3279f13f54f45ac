/** SHA-512 against FIPS 180-4: the bits of its functions, the padding, the schedule, the rounds, the chain of hash
    values, and where the constants come from. */
module Fips180 {
  import opened Bytes
  import opened Bits
  import opened Words
  import opened Sha512
  import S = Sha512
  import F = Fermat

  // ---- the functions, section 4.1.3 ----

  /** Bit i of x turned right by n: bit i + n, cyclically. */
  function Turned(x: Word, n: nat, i: nat): nat { BitAt(x, (i + n) % 64) }

  /** Bit i of x shifted right by n. */
  function Shifted(x: Word, n: nat, i: nat): nat { if i + n < 64 then BitAt(x, i + n) else 0 }

  lemma BitOfShr(x: Word, n: nat, i: nat)
    requires n < 64
    ensures BitAt(Shr(x, n), i) == Shifted(x, n, i)
  {
    Rejoin(x, Pow2(n));
    BitOfSum(x % Pow2(n), x / Pow2(n), n, i + n);
    if i + n >= 64 {
      ModulusIsPower();
      BitOfSum(x, 0, 64, i + n);
      BitOfZero(i + n - 64);
    }
  }

  lemma BitOfTurn(x: Word, n: nat, i: nat)
    requires 0 < n < 64 && i < 64
    ensures BitAt(Rotr(x, n), i) == Turned(x, n, i)
  {
    BitOfRotr(x, n, i);
  }

  function Odd(a: nat, b: nat): nat { if a != b then 1 else 0 }

  lemma BitOfWordXor(a: Word, b: Word, i: nat)
    ensures BitAt(WordXor(a, b), i) == Odd(BitAt(a, i), BitAt(b, i))
  {
    BitOfXor(a, b, i);
  }

  lemma OddOfThree(a: nat, b: nat, c: nat)
    requires a < 2 && b < 2 && c < 2
    ensures Odd(Odd(a, b), c) == (a + b + c) % 2
  {
  }

  lemma IsBit(x: nat, i: nat)
    ensures BitAt(x, i) < 2
  {
  }

  lemma BitOfThree(a: Word, b: Word, c: Word, ab: Word, abc: Word, i: nat)
    requires ab == WordXor(a, b) && abc == WordXor(ab, c)
    ensures BitAt(abc, i) == (BitAt(a, i) + BitAt(b, i) + BitAt(c, i)) % 2
  {
    BitOfWordXor(a, b, i);
    BitOfWordXor(ab, c, i);
    IsBit(a, i); IsBit(b, i); IsBit(c, i);
    OddOfThree(BitAt(a, i), BitAt(b, i), BitAt(c, i));
  }

  lemma TurnedThree(x: Word, k: nat, m: nat, n: nat, i: nat)
    requires 0 < k < 64 && 0 < m < 64 && 0 < n < 64 && i < 64
    ensures BitAt(WordXor(WordXor(Rotr(x, k), Rotr(x, m)), Rotr(x, n)), i)
         == (Turned(x, k, i) + Turned(x, m, i) + Turned(x, n, i)) % 2
  {
    var a, b, c := Rotr(x, k), Rotr(x, m), Rotr(x, n);
    BitOfTurn(x, k, i); BitOfTurn(x, m, i); BitOfTurn(x, n, i);
    BitOfThree(a, b, c, WordXor(a, b), WordXor(WordXor(a, b), c), i);
  }

  lemma TurnedTwoShiftedOne(x: Word, k: nat, m: nat, n: nat, i: nat)
    requires 0 < k < 64 && 0 < m < 64 && 0 < n < 64 && i < 64
    ensures BitAt(WordXor(WordXor(Rotr(x, k), Rotr(x, m)), Shr(x, n)), i)
         == (Turned(x, k, i) + Turned(x, m, i) + Shifted(x, n, i)) % 2
  {
    var a, b, c := Rotr(x, k), Rotr(x, m), Shr(x, n);
    BitOfTurn(x, k, i); BitOfTurn(x, m, i); BitOfShr(x, n, i);
    BitOfThree(a, b, c, WordXor(a, b), WordXor(WordXor(a, b), c), i);
  }

  /** Each bit of the four functions of one word is the sum modulo 2 of three bits of it. */
  lemma BigSigmasAreStandard(x: Word, i: nat)
    requires i < 64
    ensures BitAt(BigSigma0(x), i) == (Turned(x, 28, i) + Turned(x, 34, i) + Turned(x, 39, i)) % 2
    ensures BitAt(BigSigma1(x), i) == (Turned(x, 14, i) + Turned(x, 18, i) + Turned(x, 41, i)) % 2
  {
    TurnedThree(x, 28, 34, 39, i);
    TurnedThree(x, 14, 18, 41, i);
  }

  lemma SmallSigmasAreStandard(x: Word, i: nat)
    requires i < 64
    ensures BitAt(SmallSigma0(x), i) == (Turned(x, 1, i) + Turned(x, 8, i) + Shifted(x, 7, i)) % 2
    ensures BitAt(SmallSigma1(x), i) == (Turned(x, 19, i) + Turned(x, 61, i) + Shifted(x, 6, i)) % 2
  {
    TurnedTwoShiftedOne(x, 1, 8, 7, i);
    TurnedTwoShiftedOne(x, 19, 61, 6, i);
  }

  // ---- padding, section 5.1.2 ----

  /** The message, a one bit, zeros to whole blocks, and the length in bits in sixteen bytes, the highest first. */
  lemma PaddingIsStandard(m: Data)
    requires 8 * |m| < Pow256(16)
    ensures var p := Padded(m);
            && |p| % 128 == 0 && |m| + 17 <= |p| < |m| + 17 + 128
            && p[..|m|] == m && p[|m|] == 0x80 && (forall i :: |m| < i < |p| - 16 ==> p[i] == 0)
            && FromBig(p[|p| - 16..]) == 8 * |m|
  {
    PaddedIsBlocks(m);
    LengthField(m);
  }

  /** The two byte orders. */
  lemma ByteOrders(a: Byte, b: Byte)
    ensures FromBig([a, b]) == 256 * a + b && FromLittle([a, b]) == a + 256 * b
  {
    var s := [a, b];
    assert s[..1] == [a] && s[1..] == [b];
    OneByteNumber(a);
    OneByteNumber(b);
    assert FromBig(s) == 256 * FromBig([a]) + b && FromLittle(s) == a + 256 * FromLittle([b]);
  }

  lemma OneByteNumber(a: Byte)
    ensures FromBig([a]) == a && FromLittle([a]) == a
  {
    var s := [a];
    var none: Data := [];
    assert s[..0] == none && s[1..] == none;
    assert FromBig(none) == 0 && FromLittle(none) == 0;
    assert FromBig(s) == 256 * FromBig(s[..0]) + a && FromLittle(s) == a + 256 * FromLittle(s[1..]);
  }

  // ---- one block, section 6.4.2 ----

  lemma ModPlusInt(s: int, x: int, m: int)
    requires m > 0
    ensures (s % m + x) % m == (s + x) % m
  {
    var y := s % m + x;
    Regroup(m, s / m, y / m, y % m);
    DivModUnique(s + x, m, s / m + y / m, y % m);
  }

  /** The message schedule: sixteen words of the block, the highest byte first, and then the sums of four. */
  lemma ScheduleIsStandard(fs: Functions, block: Block, t: nat)
    ensures Scheduled(fs, block, t)
         == if t < 16 then FromBig(block[8 * t..8 * t + 8])
            else (fs.smallSigma1(Scheduled(fs, block, t - 2)) + Scheduled(fs, block, t - 7)
                  + fs.smallSigma0(Scheduled(fs, block, t - 15)) + Scheduled(fs, block, t - 16))
                 % 0x1_0000_0000_0000_0000
  {
    if t >= 16 {
      FourAdded(fs.smallSigma1(Scheduled(fs, block, t - 2)), Scheduled(fs, block, t - 7),
                fs.smallSigma0(Scheduled(fs, block, t - 15)), Scheduled(fs, block, t - 16));
    }
  }

  lemma FourAdded(a: Word, b: Word, c: Word, d: Word)
    ensures Plus(Plus(Plus(a, b), c), d) == (a + b + c + d) % 0x1_0000_0000_0000_0000
  {
    ModPlusInt(a + b, c, MODULUS);
    ModPlusInt(a + b + c, d, MODULUS);
  }

  lemma FiveAdded(a: Word, b: Word, c: Word, d: Word, e: Word, rest: int)
    ensures (Plus(Plus(Plus(Plus(a, b), c), d), e) + rest) % MODULUS == (a + b + c + d + e + rest) % MODULUS
  {
    FourAdded(a, b, c, d);
    ModPlusInt(a + b + c + d, e, MODULUS);
    ModPlusInt(a + b + c + d + e, rest, MODULUS);
  }

  /** One round: two of the words are new sums, the others move on. */
  lemma RoundIsStandard(fs: Functions, v: Vars, k: Word, w: Word)
    ensures var n := Round(fs, v, k, w);
            var t1 := v.h + fs.bigSigma1(v.e) + fs.choose(v.e, v.f, v.g) + k + w;
            && n.a == (t1 + (fs.bigSigma0(v.a) + fs.majority(v.a, v.b, v.c))) % 0x1_0000_0000_0000_0000
            && n.e == (t1 + v.d) % 0x1_0000_0000_0000_0000
            && n.b == v.a && n.c == v.b && n.d == v.c && n.f == v.e && n.g == v.f && n.h == v.g
  {
    RoundSums(v.h, fs.bigSigma1(v.e), fs.choose(v.e, v.f, v.g), k, w, v.d, fs.bigSigma0(v.a),
              fs.majority(v.a, v.b, v.c));
  }

  lemma RoundSums(h: Word, s1: Word, ch: Word, k: Word, w: Word, d: Word, s0: Word, maj: Word)
    ensures var t := Plus(Plus(Plus(Plus(h, s1), ch), k), w);
            && Plus(d, t) == (h + s1 + ch + k + w + d) % 0x1_0000_0000_0000_0000
            && Plus(t, Plus(s0, maj)) == (h + s1 + ch + k + w + (s0 + maj)) % 0x1_0000_0000_0000_0000
  {
    var t := Plus(Plus(Plus(Plus(h, s1), ch), k), w);
    FiveAdded(h, s1, ch, k, w, d);
    FiveAdded(h, s1, ch, k, w, s0 + maj);
    ModPlusInt(s0 + maj, t, MODULUS);
  }

  ghost predicate RoundsFrom(fs: Functions, h: Vars, block: Block, vs: seq<Vars>) {
    && |vs| == 81 && vs[0] == h
    && forall t :: 0 <= t < 80 ==> IsNext(fs, block, vs, t)
  }

  ghost predicate IsNext(fs: Functions, block: Block, vs: seq<Vars>, t: nat)
    requires t + 1 < |vs|
  {
    vs[t + 1] == Round(fs, vs[t], fs.k(t), Scheduled(fs, block, t))
  }

  function Nth(v: Vars, j: nat): Word {
    if j == 0 then v.a else if j == 1 then v.b else if j == 2 then v.c else if j == 3 then v.d
    else if j == 4 then v.e else if j == 5 then v.f else if j == 6 then v.g else v.h
  }

  /** One block takes the hash value h to n: eighty rounds, whose outcome is added to h word by word. */
  ghost predicate Takes(fs: Functions, block: Block, h: Vars, n: Vars) {
    exists vs :: RoundsFrom(fs, h, block, vs)
                 && forall j :: 0 <= j < 8 ==> Nth(n, j) == (Nth(h, j) + Nth(vs[80], j)) % 0x1_0000_0000_0000_0000
  }

  lemma {:induction false} RoundsAre(fs: Functions, h: Vars, block: Block, vs: seq<Vars>, t: nat)
    requires RoundsFrom(fs, h, block, vs) && t <= 80
    ensures vs[t] == AfterRounds(fs, h, block, t)
  {
    if t > 0 {
      RoundsAre(fs, h, block, vs, t - 1);
      assert IsNext(fs, block, vs, t - 1);
    }
  }

  lemma SumsAre(h: Vars, v: Vars, n: Vars)
    requires forall j :: 0 <= j < 8 ==> Nth(n, j) == (Nth(h, j) + Nth(v, j)) % 0x1_0000_0000_0000_0000
    ensures n == AddVars(h, v)
  {
    assert Nth(n, 0) == n.a && Nth(n, 1) == n.b && Nth(n, 2) == n.c && Nth(n, 3) == n.d;
    assert Nth(n, 4) == n.e && Nth(n, 5) == n.f && Nth(n, 6) == n.g && Nth(n, 7) == n.h;
  }

  lemma TakesIsCompress(fs: Functions, block: Block, h: Vars, n: Vars)
    requires Takes(fs, block, h, n)
    ensures n == Compress(fs, h, block, 80)
  {
    var vs :| RoundsFrom(fs, h, block, vs)
              && forall j :: 0 <= j < 8 ==> Nth(n, j) == (Nth(h, j) + Nth(vs[80], j)) % 0x1_0000_0000_0000_0000;
    RoundsAre(fs, h, block, vs, 80);
    SumsAre(h, vs[80], n);
  }

  // ---- a whole message, section 6.4 ----

  /** The chain of hash values: from the first one on, each block of the padded message takes one to the next. */
  ghost predicate IsChain(fs: Functions, msg: Data, hs: seq<Vars>) {
    && |msg| == 128 * (|hs| - 1)
    && forall i :: 0 <= i < |hs| - 1 ==> Links(fs, msg, hs, i)
  }

  ghost predicate Links(fs: Functions, msg: Data, hs: seq<Vars>, i: nat)
    requires i + 1 < |hs| && |msg| == 128 * (|hs| - 1)
  {
    Takes(fs, msg[128 * i..128 * i + 128], hs[i], hs[i + 1])
  }

  lemma {:induction false} ChainIs(fs: Functions, msg: Data, hs: seq<Vars>)
    requires IsChain(fs, msg, hs) && |hs| > 0
    ensures HashBlocks(Compressor(fs, 80), hs[0], msg) == hs[|hs| - 1]
    decreases |hs|
  {
    if |hs| > 1 {
      assert Links(fs, msg, hs, 0);
      TakesIsCompress(fs, msg[..128], hs[0], hs[1]);
      var rest, tail := msg[128..], hs[1..];
      forall i | 0 <= i < |tail| - 1 ensures Links(fs, rest, tail, i) {
        assert Links(fs, msg, hs, i + 1);
        assert rest[128 * i..128 * i + 128] == msg[128 * (i + 1)..128 * (i + 1) + 128];
      }
      ChainIs(fs, rest, tail);
    }
  }

  lemma DigestWord(h: Vars, j: nat)
    requires j < 8
    ensures FromBig(Digest(h)[8 * j..8 * j + 8]) == Nth(h, j)
  {
    DigestSlice(h, j);
    ModulusIsPower();
    BigOfInt(Nth(h, j), 8);
  }

  lemma DigestSlice(h: Vars, j: nat)
    requires j < 8
    ensures Digest(h)[8 * j..8 * j + 8] == WordBytes(Nth(h, j))
  {
  }

  /** SHA-512: pad, start from the eight constants, let each block take the hash value on, and write the last one down,
      the highest byte of each word first. */
  lemma HashIsStandard(m: Data, hs: seq<Vars>, j: nat)
    requires 8 * |m| < Pow256(16) && j < 8
    requires |hs| > 0 && hs[0] == H0 && IsChain(StandardFunctions(), Padded(m), hs)
    ensures FromBig(S.Sha512(m)[8 * j..8 * j + 8]) == Nth(hs[|hs| - 1], j)
  {
    ChainIs(StandardFunctions(), Padded(m), hs);
    DigestWord(hs[|hs| - 1], j);
  }

  // ---- the constants, sections 4.2.3 and 5.3.5: fractional bits of the roots of the first primes ----

  const P0: seq<nat> := [2, 3, 5, 7, 11, 13, 17, 19, 23, 29, 31, 37, 41, 43, 47, 53]
  const P16: seq<nat> := [59, 61, 67, 71, 73, 79, 83, 89, 97, 101, 103, 107, 109, 113, 127, 131]
  const P32: seq<nat> := [137, 139, 149, 151, 157, 163, 167, 173, 179, 181, 191, 193, 197, 199, 211, 223]
  const P48: seq<nat> := [227, 229, 233, 239, 241, 251, 257, 263, 269, 271, 277, 281, 283, 293, 307, 311]
  const P64: seq<nat> := [313, 317, 331, 337, 347, 349, 353, 359, 367, 373, 379, 383, 389, 397, 401, 409]

  /** The first eighty primes, counted from 0. */
  function PrimeAt(t: nat): nat
    requires t < 80
  {
    if t < 16 then P0[t] else if t < 32 then P16[t - 16] else if t < 48 then P32[t - 32]
    else if t < 64 then P48[t - 48] else P64[t - 64]
  }

  /** None of the primes up to 19 divides n. */
  predicate Sifted(n: nat) {
    && n % 2 != 0 && n % 3 != 0 && n % 5 != 0 && n % 7 != 0
    && n % 11 != 0 && n % 13 != 0 && n % 17 != 0 && n % 19 != 0
  }

  lemma SmallDivisor(n: nat, d: nat)
    requires Sifted(n) && 2 <= d < 23
    ensures n % d != 0
  {
    if d % 2 == 0 {
      DividesOn(n, d, 2);
    } else if d % 3 == 0 {
      DividesOn(n, d, 3);
    }
  }

  lemma DividesOn(n: nat, d: nat, e: nat)
    requires d > 0 && e > 0 && d % e == 0 && n % e != 0
    ensures n % d != 0
  {
    if n % d == 0 {
      assert n == d * (n / d) && d == e * (d / e);
      Regrouped(e, d / e, n / d, n);
    }
  }

  lemma Regrouped(e: nat, q: nat, k: nat, n: nat)
    requires e > 0 && n == e * q * k
    ensures n % e == 0
  {
    assert e * q * k == e * (q * k);
    DivModUnique(n, e, q * k, 0);
  }

  lemma SiftedIsPrime(n: nat)
    requires 23 <= n < 529 && Sifted(n)
    ensures F.IsPrime(n)
  {
    forall d | 1 < d < n ensures n % d != 0 {
      if d < 23 {
        SmallDivisor(n, d);
      } else if n % d == 0 {
        Cofactor(n, d, n / d);
        SmallDivisor(n, n / d);
      }
    }
  }

  lemma Cofactor(n: nat, d: nat, e: nat)
    requires n < 529 && 23 <= d < n && n == d * e
    ensures 2 <= e < 23 && n % e == 0
  {
    assert e >= 23 ==> d * e >= 23 * 23;
    assert n == e * d;
    DivModUnique(n, e, d, 0);
  }

  lemma PrimesFrom0(i: nat)
    requires i < 16
    ensures F.IsPrime(P0[i])
  {
    if i < 8 {
      FirstPrimes(i);
    } else {
      assert Sifted(P0[i]);
      SiftedIsPrime(P0[i]);
    }
  }

  lemma PrimesFrom16(i: nat)
    requires i < 16
    ensures F.IsPrime(P16[i])
  {
    assert Sifted(P16[i]);
    SiftedIsPrime(P16[i]);
  }

  lemma PrimesFrom32(i: nat)
    requires i < 16
    ensures F.IsPrime(P32[i])
  {
    assert Sifted(P32[i]);
    SiftedIsPrime(P32[i]);
  }

  lemma PrimesFrom48(i: nat)
    requires i < 16
    ensures F.IsPrime(P48[i])
  {
    assert Sifted(P48[i]);
    SiftedIsPrime(P48[i]);
  }

  lemma PrimesFrom64(i: nat)
    requires i < 16
    ensures F.IsPrime(P64[i])
  {
    assert Sifted(P64[i]);
    SiftedIsPrime(P64[i]);
  }

  lemma FirstPrimes(i: nat)
    requires i < 8
    ensures F.IsPrime(P0[i])
  {
    var p := P0[i];
    forall d | 1 < d < p ensures p % d != 0 {
    }
  }

  lemma Between23(n: nat)
    requires 23 <= n <= 53 && Sifted(n)
    ensures n in P0
  {
    assert n in {23, 29, 31, 37, 41, 43, 47, 53};
    assert P0[8] == 23 && P0[9] == 29 && P0[10] == 31 && P0[11] == 37 && P0[12] == 41 && P0[13] == 43;
    assert P0[14] == 47 && P0[15] == 53;
  }

  lemma Between54(n: nat)
    requires 54 <= n <= 85 && Sifted(n)
    ensures n in P16
  {
    assert n in {59, 61, 67, 71, 73, 79, 83};
    assert P16[0] == 59 && P16[1] == 61 && P16[2] == 67 && P16[3] == 71 && P16[4] == 73 && P16[5] == 79;
    assert P16[6] == 83;
  }

  lemma Between86(n: nat)
    requires 86 <= n <= 117 && Sifted(n)
    ensures n in P16
  {
    assert n in {89, 97, 101, 103, 107, 109, 113};
    assert P16[7] == 89 && P16[8] == 97 && P16[9] == 101 && P16[10] == 103 && P16[11] == 107 && P16[12] == 109;
    assert P16[13] == 113;
  }

  lemma Between118(n: nat)
    requires 118 <= n <= 131 && Sifted(n)
    ensures n in P16
  {
    assert n in {127, 131};
    assert P16[14] == 127 && P16[15] == 131;
  }

  lemma Between132(n: nat)
    requires 132 <= n <= 163 && Sifted(n)
    ensures n in P32
  {
    assert n in {137, 139, 149, 151, 157, 163};
    assert P32[0] == 137 && P32[1] == 139 && P32[2] == 149 && P32[3] == 151 && P32[4] == 157 && P32[5] == 163;
  }

  lemma Between164(n: nat)
    requires 164 <= n <= 195 && Sifted(n)
    ensures n in P32
  {
    assert n in {167, 173, 179, 181, 191, 193};
    assert P32[6] == 167 && P32[7] == 173 && P32[8] == 179 && P32[9] == 181 && P32[10] == 191 && P32[11] == 193;
  }

  lemma Between196(n: nat)
    requires 196 <= n <= 223 && Sifted(n)
    ensures n in P32
  {
    assert n in {197, 199, 211, 223};
    assert P32[12] == 197 && P32[13] == 199 && P32[14] == 211 && P32[15] == 223;
  }

  lemma Between224(n: nat)
    requires 224 <= n <= 255 && Sifted(n)
    ensures n in P48
  {
    assert n in {227, 229, 233, 239, 241, 251};
    assert P48[0] == 227 && P48[1] == 229 && P48[2] == 233 && P48[3] == 239 && P48[4] == 241 && P48[5] == 251;
  }

  lemma Between256(n: nat)
    requires 256 <= n <= 287 && Sifted(n)
    ensures n in P48
  {
    assert n in {257, 263, 269, 271, 277, 281, 283};
    assert P48[6] == 257 && P48[7] == 263 && P48[8] == 269 && P48[9] == 271 && P48[10] == 277 && P48[11] == 281;
    assert P48[12] == 283;
  }

  lemma Between288(n: nat)
    requires 288 <= n <= 311 && Sifted(n)
    ensures n in P48
  {
    assert n in {293, 307, 311};
    assert P48[13] == 293 && P48[14] == 307 && P48[15] == 311;
  }

  lemma Between312(n: nat)
    requires 312 <= n <= 343 && Sifted(n)
    ensures n in P64
  {
    assert n in {313, 317, 331, 337};
    assert P64[0] == 313 && P64[1] == 317 && P64[2] == 331 && P64[3] == 337;
  }

  lemma Between344(n: nat)
    requires 344 <= n <= 375 && Sifted(n)
    ensures n in P64
  {
    assert n in {347, 349, 353, 359, 367, 373};
    assert P64[4] == 347 && P64[5] == 349 && P64[6] == 353 && P64[7] == 359 && P64[8] == 367 && P64[9] == 373;
  }

  lemma Between376(n: nat)
    requires 376 <= n <= 407 && Sifted(n)
    ensures n in P64
  {
    assert n in {379, 383, 389, 397, 401};
    assert P64[10] == 379 && P64[11] == 383 && P64[12] == 389 && P64[13] == 397 && P64[14] == 401;
  }

  lemma Between408(n: nat)
    requires 408 <= n <= 409 && Sifted(n)
    ensures n in P64
  {
    assert n in {409};
    assert P64[15] == 409;
  }

  function Index(s: seq<nat>, n: nat): (i: nat)
    requires n in s
    ensures i < |s| && s[i] == n
  {
    if s[0] == n then 0 else 1 + Index(s[1..], n)
  }

  // ---- roots ----

  function Square(r: nat): nat { r * r }
  function Cube(r: nat): nat { r * r * r }

  /** f * 2^64 + k is the integer part of 2^64 times the square root of p. */
  ghost predicate HasSquareRoot(p: nat, f: nat, k: nat) {
    var r := f * 0x1_0000_0000_0000_0000 + k;
    Square(r) <= p * Square(0x1_0000_0000_0000_0000) < Square(r + 1)
  }

  ghost predicate HasCubeRoot(p: nat, f: nat, k: nat) {
    var r := f * 0x1_0000_0000_0000_0000 + k;
    Cube(r) <= p * Cube(0x1_0000_0000_0000_0000) < Cube(r + 1)
  }

  /** k, a word, is the first 64 bits of the fraction of the root of p. */
  ghost predicate IsSquareRoot(k: Word, p: nat) { exists f: nat :: HasSquareRoot(p, f, k) }
  ghost predicate IsCubeRoot(k: Word, p: nat) { exists f: nat :: HasCubeRoot(p, f, k) }

  lemma CubeRoot(f: nat, k: Word, p: nat)
    requires HasCubeRoot(p, f, k)
    ensures IsCubeRoot(k, p)
  {
  }

  lemma SquareRoot(f: nat, k: Word, p: nat)
    requires HasSquareRoot(p, f, k)
    ensures IsSquareRoot(k, p)
  {
  }

  lemma CubeRootsFrom0(i: nat)
    requires i < 16
    ensures IsCubeRoot(K0[i], P0[i])
  {
    if i == 0 { CubeRoot(1, 0x428a_2f98_d728_ae22, 2); }
    else if i == 1 { CubeRoot(1, 0x7137_4491_23ef_65cd, 3); }
    else if i == 2 { CubeRoot(1, 0xb5c0_fbcf_ec4d_3b2f, 5); }
    else if i == 3 { CubeRoot(1, 0xe9b5_dba5_8189_dbbc, 7); }
    else if i == 4 { CubeRoot(2, 0x3956_c25b_f348_b538, 11); }
    else if i == 5 { CubeRoot(2, 0x59f1_11f1_b605_d019, 13); }
    else if i == 6 { CubeRoot(2, 0x923f_82a4_af19_4f9b, 17); }
    else if i == 7 { CubeRoot(2, 0xab1c_5ed5_da6d_8118, 19); }
    else if i == 8 { CubeRoot(2, 0xd807_aa98_a303_0242, 23); }
    else if i == 9 { CubeRoot(3, 0x1283_5b01_4570_6fbe, 29); }
    else if i == 10 { CubeRoot(3, 0x2431_85be_4ee4_b28c, 31); }
    else if i == 11 { CubeRoot(3, 0x550c_7dc3_d5ff_b4e2, 37); }
    else if i == 12 { CubeRoot(3, 0x72be_5d74_f27b_896f, 41); }
    else if i == 13 { CubeRoot(3, 0x80de_b1fe_3b16_96b1, 43); }
    else if i == 14 { CubeRoot(3, 0x9bdc_06a7_25c7_1235, 47); }
    else { CubeRoot(3, 0xc19b_f174_cf69_2694, 53); }
  }

  lemma CubeRootsFrom16(i: nat)
    requires i < 16
    ensures IsCubeRoot(K16[i], P16[i])
  {
    if i == 0 { CubeRoot(3, 0xe49b_69c1_9ef1_4ad2, 59); }
    else if i == 1 { CubeRoot(3, 0xefbe_4786_384f_25e3, 61); }
    else if i == 2 { CubeRoot(4, 0x0fc1_9dc6_8b8c_d5b5, 67); }
    else if i == 3 { CubeRoot(4, 0x240c_a1cc_77ac_9c65, 71); }
    else if i == 4 { CubeRoot(4, 0x2de9_2c6f_592b_0275, 73); }
    else if i == 5 { CubeRoot(4, 0x4a74_84aa_6ea6_e483, 79); }
    else if i == 6 { CubeRoot(4, 0x5cb0_a9dc_bd41_fbd4, 83); }
    else if i == 7 { CubeRoot(4, 0x76f9_88da_8311_53b5, 89); }
    else if i == 8 { CubeRoot(4, 0x983e_5152_ee66_dfab, 97); }
    else if i == 9 { CubeRoot(4, 0xa831_c66d_2db4_3210, 101); }
    else if i == 10 { CubeRoot(4, 0xb003_27c8_98fb_213f, 103); }
    else if i == 11 { CubeRoot(4, 0xbf59_7fc7_beef_0ee4, 107); }
    else if i == 12 { CubeRoot(4, 0xc6e0_0bf3_3da8_8fc2, 109); }
    else if i == 13 { CubeRoot(4, 0xd5a7_9147_930a_a725, 113); }
    else if i == 14 { CubeRoot(5, 0x06ca_6351_e003_826f, 127); }
    else { CubeRoot(5, 0x1429_2967_0a0e_6e70, 131); }
  }

  lemma CubeRootsFrom32(i: nat)
    requires i < 16
    ensures IsCubeRoot(K32[i], P32[i])
  {
    if i == 0 { CubeRoot(5, 0x27b7_0a85_46d2_2ffc, 137); }
    else if i == 1 { CubeRoot(5, 0x2e1b_2138_5c26_c926, 139); }
    else if i == 2 { CubeRoot(5, 0x4d2c_6dfc_5ac4_2aed, 149); }
    else if i == 3 { CubeRoot(5, 0x5338_0d13_9d95_b3df, 151); }
    else if i == 4 { CubeRoot(5, 0x650a_7354_8baf_63de, 157); }
    else if i == 5 { CubeRoot(5, 0x766a_0abb_3c77_b2a8, 163); }
    else if i == 6 { CubeRoot(5, 0x81c2_c92e_47ed_aee6, 167); }
    else if i == 7 { CubeRoot(5, 0x9272_2c85_1482_353b, 173); }
    else if i == 8 { CubeRoot(5, 0xa2bf_e8a1_4cf1_0364, 179); }
    else if i == 9 { CubeRoot(5, 0xa81a_664b_bc42_3001, 181); }
    else if i == 10 { CubeRoot(5, 0xc24b_8b70_d0f8_9791, 191); }
    else if i == 11 { CubeRoot(5, 0xc76c_51a3_0654_be30, 193); }
    else if i == 12 { CubeRoot(5, 0xd192_e819_d6ef_5218, 197); }
    else if i == 13 { CubeRoot(5, 0xd699_0624_5565_a910, 199); }
    else if i == 14 { CubeRoot(5, 0xf40e_3585_5771_202a, 211); }
    else { CubeRoot(6, 0x106a_a070_32bb_d1b8, 223); }
  }

  lemma CubeRootsFrom48(i: nat)
    requires i < 16
    ensures IsCubeRoot(K48[i], P48[i])
  {
    if i == 0 { CubeRoot(6, 0x19a4_c116_b8d2_d0c8, 227); }
    else if i == 1 { CubeRoot(6, 0x1e37_6c08_5141_ab53, 229); }
    else if i == 2 { CubeRoot(6, 0x2748_774c_df8e_eb99, 233); }
    else if i == 3 { CubeRoot(6, 0x34b0_bcb5_e19b_48a8, 239); }
    else if i == 4 { CubeRoot(6, 0x391c_0cb3_c5c9_5a63, 241); }
    else if i == 5 { CubeRoot(6, 0x4ed8_aa4a_e341_8acb, 251); }
    else if i == 6 { CubeRoot(6, 0x5b9c_ca4f_7763_e373, 257); }
    else if i == 7 { CubeRoot(6, 0x682e_6ff3_d6b2_b8a3, 263); }
    else if i == 8 { CubeRoot(6, 0x748f_82ee_5def_b2fc, 269); }
    else if i == 9 { CubeRoot(6, 0x78a5_636f_4317_2f60, 271); }
    else if i == 10 { CubeRoot(6, 0x84c8_7814_a1f0_ab72, 277); }
    else if i == 11 { CubeRoot(6, 0x8cc7_0208_1a64_39ec, 281); }
    else if i == 12 { CubeRoot(6, 0x90be_fffa_2363_1e28, 283); }
    else if i == 13 { CubeRoot(6, 0xa450_6ceb_de82_bde9, 293); }
    else if i == 14 { CubeRoot(6, 0xbef9_a3f7_b2c6_7915, 307); }
    else { CubeRoot(6, 0xc671_78f2_e372_532b, 311); }
  }

  lemma CubeRootsFrom64(i: nat)
    requires i < 16
    ensures IsCubeRoot(K64[i], P64[i])
  {
    if i == 0 { CubeRoot(6, 0xca27_3ece_ea26_619c, 313); }
    else if i == 1 { CubeRoot(6, 0xd186_b8c7_21c0_c207, 317); }
    else if i == 2 { CubeRoot(6, 0xeada_7dd6_cde0_eb1e, 331); }
    else if i == 3 { CubeRoot(6, 0xf57d_4f7f_ee6e_d178, 337); }
    else if i == 4 { CubeRoot(7, 0x06f0_67aa_7217_6fba, 347); }
    else if i == 5 { CubeRoot(7, 0x0a63_7dc5_a2c8_98a6, 349); }
    else if i == 6 { CubeRoot(7, 0x113f_9804_bef9_0dae, 353); }
    else if i == 7 { CubeRoot(7, 0x1b71_0b35_131c_471b, 359); }
    else if i == 8 { CubeRoot(7, 0x28db_77f5_2304_7d84, 367); }
    else if i == 9 { CubeRoot(7, 0x32ca_ab7b_40c7_2493, 373); }
    else if i == 10 { CubeRoot(7, 0x3c9e_be0a_15c9_bebc, 379); }
    else if i == 11 { CubeRoot(7, 0x431d_67c4_9c10_0d4c, 383); }
    else if i == 12 { CubeRoot(7, 0x4cc5_d4be_cb3e_42b6, 389); }
    else if i == 13 { CubeRoot(7, 0x597f_299c_fc65_7e2a, 397); }
    else if i == 14 { CubeRoot(7, 0x5fcb_6fab_3ad6_faec, 401); }
    else { CubeRoot(7, 0x6c44_198c_4a47_5817, 409); }
  }

  /** These eighty are primes, in order, and no prime up to the last of them is missing. */
  lemma PrimesAreFirst(t: nat, n: nat)
    requires t < 80
    ensures F.IsPrime(PrimeAt(t)) && (t > 0 ==> PrimeAt(t - 1) < PrimeAt(t))
    ensures F.IsPrime(n) && n <= PrimeAt(79) ==> exists i: nat :: i < 80 && PrimeAt(i) == n
  {
    IsPrimeAt(t);
    Ascend(t);
    if F.IsPrime(n) && n <= PrimeAt(79) {
      var i := PlaceOfPrime(n);
    }
  }

  lemma IsPrimeAt(t: nat)
    requires t < 80
    ensures F.IsPrime(PrimeAt(t))
  {
    if t < 16 { PrimesFrom0(t); } else if t < 32 { PrimesFrom16(t - 16); } else if t < 48 { PrimesFrom32(t - 32); }
    else if t < 64 { PrimesFrom48(t - 48); } else { PrimesFrom64(t - 64); }
  }

  lemma Ascend(t: nat)
    requires t < 80
    ensures t > 0 ==> PrimeAt(t - 1) < PrimeAt(t)
  {
  }

  lemma PlaceOfPrime(n: nat) returns (t: nat)
    requires F.IsPrime(n) && n <= 409
    ensures t < 80 && PrimeAt(t) == n
  {
    if n < 23 {
      t := PlaceOfSmall(n);
    } else {
      PrimeIsSifted(n);
      if n <= 131 { t := PlaceOfMiddle(n); }
      else if n <= 163 { Between132(n); t := 32 + Index(P32, n); }
      else if n <= 195 { Between164(n); t := 32 + Index(P32, n); }
      else if n <= 223 { Between196(n); t := 32 + Index(P32, n); }
      else if n <= 255 { Between224(n); t := 48 + Index(P48, n); }
      else if n <= 287 { Between256(n); t := 48 + Index(P48, n); }
      else if n <= 311 { Between288(n); t := 48 + Index(P48, n); }
      else if n <= 343 { Between312(n); t := 64 + Index(P64, n); }
      else if n <= 375 { Between344(n); t := 64 + Index(P64, n); }
      else if n <= 407 { Between376(n); t := 64 + Index(P64, n); }
      else { Between408(n); t := 64 + Index(P64, n); }
    }
  }

  lemma PlaceOfMiddle(n: nat) returns (t: nat)
    requires 23 <= n <= 131 && Sifted(n)
    ensures t < 80 && PrimeAt(t) == n
  {
    if n <= 53 { Between23(n); t := 0 + Index(P0, n); }
    else if n <= 85 { Between54(n); t := 16 + Index(P16, n); }
    else if n <= 117 { Between86(n); t := 16 + Index(P16, n); }
    else { Between118(n); t := 16 + Index(P16, n); }
  }

  lemma PlaceOfSmall(n: nat) returns (t: nat)
    requires F.IsPrime(n) && n < 23
    ensures t < 8 && PrimeAt(t) == n
  {
    assert F.DoesNotDivide(2, n) && F.DoesNotDivide(3, n) && F.DoesNotDivide(5, n);
    t := if n == 2 then 0 else if n == 3 then 1 else if n == 5 then 2 else if n == 7 then 3 else if n == 11 then 4
         else if n == 13 then 5 else if n == 17 then 6 else 7;
  }

  lemma PrimeIsSifted(n: nat)
    requires F.IsPrime(n) && n >= 23
    ensures Sifted(n)
  {
    assert F.DoesNotDivide(2, n) && F.DoesNotDivide(3, n) && F.DoesNotDivide(5, n) && F.DoesNotDivide(7, n);
    assert F.DoesNotDivide(11, n) && F.DoesNotDivide(13, n) && F.DoesNotDivide(17, n) && F.DoesNotDivide(19, n);
  }

  /** The eighty constants of the rounds are fractions of the cube roots of the first eighty primes, and the first hash
      value those of the square roots of the first eight. */
  lemma ConstantsAreRoots(t: nat)
    requires t < 80
    ensures IsCubeRoot(StandardFunctions().k(t), PrimeAt(t)) && (t < 8 ==> IsSquareRoot(Nth(H0, t), PrimeAt(t)))
  {
    ChunkOf(t);
    if t < 16 { CubeRootsFrom0(t); } else if t < 32 { CubeRootsFrom16(t - 16); }
    else if t < 48 { CubeRootsFrom32(t - 32); } else if t < 64 { CubeRootsFrom48(t - 48); }
    else { CubeRootsFrom64(t - 64); }
    if t < 8 {
      SquareRoots(t);
    }
  }

  lemma ChunkOf(t: nat)
    requires t < 80
    ensures StandardFunctions().k(t)
         == if t < 16 then K0[t] else if t < 32 then K16[t - 16] else if t < 48 then K32[t - 32]
            else if t < 64 then K48[t - 48] else K64[t - 64]
  {
  }

  lemma SquareRoots(t: nat)
    requires t < 8
    ensures IsSquareRoot(Nth(H0, t), PrimeAt(t))
  {
    if t == 0 { SquareRoot(1, 0x6a09e667f3bcc908, 2); }
    else if t == 1 { SquareRoot(1, 0xbb67ae8584caa73b, 3); }
    else if t == 2 { SquareRoot(2, 0x3c6ef372fe94f82b, 5); }
    else if t == 3 { SquareRoot(2, 0xa54ff53a5f1d36f1, 7); }
    else if t == 4 { SquareRoot(3, 0x510e527fade682d1, 11); }
    else if t == 5 { SquareRoot(3, 0x9b05688c2b3e6c1f, 13); }
    else if t == 6 { SquareRoot(4, 0x1f83d9abfb41bd6b, 17); }
    else { SquareRoot(4, 0x5be0cd19137e2179, 19); }
  }
}
