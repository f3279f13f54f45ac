/** The byte-array loops of _PyAES, each against the function of Aes it computes. */
module PyAes {
  import opened Bytes
  import opened Bits
  import opened Gf256
  import opened MixColumns
  import opened Aes
  import R = Rounds

  const RCON: Data := [0x01, 0x02, 0x04, 0x08, 0x10, 0x20, 0x40, 0x80, 0x1b, 0x36]

  lemma LastConstants()
    ensures Xtime(0x80) == 0x1b && Xtime(0x1b) == 0x36
  {
  }

  lemma NextConstant(j: nat)
    requires j < 9
    ensures RCON[j + 1] == Xtime(RCON[j])
  {
    if j < 7 {
      assert RCON[j] < 0x80 && RCON[j + 1] == 2 * RCON[j];
    } else {
      LastConstants();
      assert RCON[7] == 0x80 && RCON[8] == 0x1b && RCON[9] == 0x36;
    }
  }

  /** The table of round constants holds the successive powers of x. */
  lemma {:induction false} RconIsPowers(j: nat)
    requires j < 10
    ensures RCON[j] == Rcon(j)
  {
    if j > 0 {
      RconIsPowers(j - 1);
      NextConstant(j - 1);
    }
  }

  /** Byte r of a column. */
  function ByteAt(c: Column, r: nat): Byte
    requires r < 4
  {
    if r == 0 then c.c0 else if r == 1 then c.c1 else if r == 2 then c.c2 else c.c3
  }

  lemma ScheduleGrows(t: Tables, key: Data, w: seq<Column>)
    requires IsScheduleOf(t, key, w)
    ensures IsScheduleOf(t, key, w + [ScheduledWord(t, w[|w| - 4], w[|w| - 1], |w|)])
  {
  }

  method ExpandKeyLoop(t: Tables, key: Data) returns (w: Schedule)
    requires |key| == 16
    ensures w == ExpandKey(t, key)
  {
    var words := [KeyWord(key, 0), KeyWord(key, 1), KeyWord(key, 2), KeyWord(key, 3)];
    for i := 4 to 44
      invariant |words| == i && IsScheduleOf(t, key, words)
    {
      ScheduleGrows(t, key, words);
      var u := ScheduleInput(t, words, i);
      words := words + [ColumnXor(words[i - 4], u)];
    }
    w := words;
    ExpandKeyIsSchedule(t, key, w);
  }

  /** The constructor of _PyAES: only 128-bit keys have a schedule. */
  method NewSchedule(t: Tables, key: Data) returns (w: Option<Schedule>)
    ensures w == if |key| == 16 then Some(ExpandKey(t, key)) else None
  {
    if |key| != 16 {
      return None;
    }
    var s := ExpandKeyLoop(t, key);
    return Some(s);
  }

  /** The word that is added to the one four back. */
  method ScheduleInput(t: Tables, words: seq<Column>, i: nat) returns (u: Column)
    requires 4 <= i == |words| && i < 44
    ensures ColumnXor(words[i - 4], u) == ScheduledWord(t, words[i - 4], words[i - 1], i)
  {
    u := words[i - 1];
    if i % 4 == 0 {
      u := SubColumn(t, RotWord(u));
      RconIsPowers(i / 4 - 1);
      u := u.(c0 := ByteXor(u.c0, RCON[i / 4 - 1]));
    }
  }

  lemma AddedByIndex(s: Data, ns: Data, w: Schedule, rnd: nat)
    requires |s| == |ns| == 16 && rnd <= 10
    requires forall i :: 0 <= i < 16 ==> ns[i] == ByteXor(s[i], ByteAt(w[rnd * 4 + i / 4], i % 4))
    ensures ToBlock(ns) == AddKey(ToBlock(s), w, rnd)
  {
  }

  method AddRoundKey(s: array<Byte>, w: Schedule, rnd: nat)
    requires s.Length == 16 && rnd <= 10
    modifies s
    ensures ToBlock(s[..]) == AddKey(ToBlock(old(s[..])), w, rnd)
  {
    ghost var was := s[..];
    for c := 0 to 4
      invariant forall i :: 0 <= i < 4 * c ==> s[i] == ByteXor(was[i], ByteAt(w[rnd * 4 + i / 4], i % 4))
      invariant forall i :: 4 * c <= i < 16 ==> s[i] == was[i]
    {
      for r := 0 to 4
        invariant forall i :: 0 <= i < r + 4 * c ==> s[i] == ByteXor(was[i], ByteAt(w[rnd * 4 + i / 4], i % 4))
        invariant forall i :: r + 4 * c <= i < 16 ==> s[i] == was[i]
      {
        s[r + 4 * c] := ByteXor(s[r + 4 * c], ByteAt(w[rnd * 4 + c], r));
      }
    }
    AddedByIndex(was, s[..], w, rnd);
  }

  method Substitute(table: Byte -> Byte, s: array<Byte>) returns (ns: array<Byte>)
    requires s.Length == 16
    ensures fresh(ns) && ns.Length == 16 && forall i :: 0 <= i < 16 ==> ns[i] == table(s[i])
  {
    ns := new Byte[16](i requires 0 <= i < 16 reads s => table(s[i]));
  }

  /** Where ShiftRows and its inverse take the byte at position k from. */
  function Source(k: nat): nat { k % 4 + 4 * ((k / 4 + k % 4) % 4) }
  function InvSource(k: nat): nat { k % 4 + 4 * ((k / 4 - k % 4) % 4) }

  lemma SourceAt(r: nat, c: nat)
    requires r < 4 && c < 4
    ensures Source(r + 4 * c) == r + 4 * ((c + r) % 4) && InvSource(r + 4 * c) == r + 4 * ((c - r) % 4)
  {
    DivModUnique(r + 4 * c, 4, c, r);
  }

  lemma SourceValues()
    ensures Source(0) == 0 && Source(1) == 5 && Source(2) == 10 && Source(3) == 15
    ensures Source(4) == 4 && Source(5) == 9 && Source(6) == 14 && Source(7) == 3
    ensures Source(8) == 8 && Source(9) == 13 && Source(10) == 2 && Source(11) == 7
    ensures Source(12) == 12 && Source(13) == 1 && Source(14) == 6 && Source(15) == 11
  {
  }

  lemma InvSourceValues()
    ensures InvSource(0) == 0 && InvSource(1) == 13 && InvSource(2) == 10 && InvSource(3) == 7
    ensures InvSource(4) == 4 && InvSource(5) == 1 && InvSource(6) == 14 && InvSource(7) == 11
    ensures InvSource(8) == 8 && InvSource(9) == 5 && InvSource(10) == 2 && InvSource(11) == 15
    ensures InvSource(12) == 12 && InvSource(13) == 9 && InvSource(14) == 6 && InvSource(15) == 3
  {
  }

  lemma ShiftedByIndex(s: Data, ns: Data)
    requires |s| == |ns| == 16 && forall k :: 0 <= k < 16 ==> Source(k) < 16 && ns[k] == s[Source(k)]
    ensures ToBlock(ns) == ShiftRows(ToBlock(s))
  {
    SourceValues();
  }

  lemma InvShiftedByIndex(s: Data, ns: Data)
    requires |s| == |ns| == 16 && forall k :: 0 <= k < 16 ==> InvSource(k) < 16 && ns[k] == s[InvSource(k)]
    ensures ToBlock(ns) == InvShiftRows(ToBlock(s))
  {
    InvSourceValues();
  }

  method ShiftRowsLoop(s: array<Byte>) returns (ns: array<Byte>)
    requires s.Length == 16
    ensures fresh(ns) && ns.Length == 16 && ToBlock(ns[..]) == ShiftRows(ToBlock(s[..]))
  {
    ns := new Byte[16](_ => 0);
    for r := 0 to 4
      invariant forall k :: 0 <= k < 16 && k % 4 < r ==> Source(k) < 16 && ns[k] == s[Source(k)]
    {
      for c := 0 to 4
        invariant forall k :: 0 <= k < 16 && (k % 4 < r || (k % 4 == r && k / 4 < c)) ==>
                    Source(k) < 16 && ns[k] == s[Source(k)]
      {
        SourceAt(r, c);
        ns[r + 4 * c] := s[r + 4 * ((c + r) % 4)];
      }
    }
    ShiftedByIndex(s[..], ns[..]);
  }

  method InvShiftRowsLoop(s: array<Byte>) returns (ns: array<Byte>)
    requires s.Length == 16
    ensures fresh(ns) && ns.Length == 16 && ToBlock(ns[..]) == InvShiftRows(ToBlock(s[..]))
  {
    ns := new Byte[16](_ => 0);
    for r := 0 to 4
      invariant forall k :: 0 <= k < 16 && k % 4 < r ==> InvSource(k) < 16 && ns[k] == s[InvSource(k)]
    {
      for c := 0 to 4
        invariant forall k :: 0 <= k < 16 && (k % 4 < r || (k % 4 == r && k / 4 < c)) ==>
                    InvSource(k) < 16 && ns[k] == s[InvSource(k)]
      {
        SourceAt(r, c);
        ns[r + 4 * c] := s[r + 4 * ((c - r) % 4)];
      }
    }
    InvShiftedByIndex(s[..], ns[..]);
  }

  /** One column, each product computed by the loop of _gmul. */
  method MixColumnLoop(c: Column) returns (m: Column)
    ensures m == MixColumn(c)
  {
    var d0 := Gmul(c.c0, 2); var d1 := Gmul(c.c1, 2); var d2 := Gmul(c.c2, 2); var d3 := Gmul(c.c3, 2);
    var t0 := Gmul(c.c0, 3); var t1 := Gmul(c.c1, 3); var t2 := Gmul(c.c2, 3); var t3 := Gmul(c.c3, 3);
    m := Column(ByteXor(ByteXor(ByteXor(d0, t1), c.c2), c.c3), ByteXor(ByteXor(ByteXor(c.c0, d1), t2), c.c3),
                ByteXor(ByteXor(ByteXor(c.c0, c.c1), d2), t3), ByteXor(ByteXor(ByteXor(t0, c.c1), c.c2), d3));
  }

  /** The sum of four products, each computed by the loop of _gmul. */
  method DotLoop(c: Column, k0: Byte, k1: Byte, k2: Byte, k3: Byte) returns (m: Byte)
    ensures m == ByteXor(ByteXor(ByteXor(Mul(c.c0, k0), Mul(c.c1, k1)), Mul(c.c2, k2)), Mul(c.c3, k3))
  {
    var p0 := Gmul(c.c0, k0); var p1 := Gmul(c.c1, k1); var p2 := Gmul(c.c2, k2); var p3 := Gmul(c.c3, k3);
    m := ByteXor(ByteXor(ByteXor(p0, p1), p2), p3);
  }

  method InvMixColumnLoop(c: Column) returns (m: Column)
    ensures m == InvMixColumn(c)
  {
    var m0 := DotLoop(c, 14, 11, 13, 9);
    var m1 := DotLoop(c, 9, 14, 11, 13);
    var m2 := DotLoop(c, 13, 9, 14, 11);
    var m3 := DotLoop(c, 11, 13, 9, 14);
    m := Column(m0, m1, m2, m3);
  }

  /** f is the mixing of one column in the two directions, as values. */
  ghost predicate Mixes(f: Column -> Column, g: Column -> Column, c: Column) {
    f(c) == MixColumn(c) && g(c) == InvMixColumn(c)
  }

  ghost function EachColumn(f: Column -> Column, s: Block): Block { Block(f(s.a), f(s.b), f(s.c), f(s.d)) }

  method MixOne(c: Column, ghost f: Column -> Column, ghost g: Column -> Column) returns (m: Column)
    requires forall x :: Mixes(f, g, x)
    ensures m == f(c)
  {
    assert Mixes(f, g, c);
    m := MixColumnLoop(c);
  }

  method UnmixOne(c: Column, ghost f: Column -> Column, ghost g: Column -> Column) returns (m: Column)
    requires forall x :: Mixes(f, g, x)
    ensures m == g(c)
  {
    assert Mixes(f, g, c);
    m := InvMixColumnLoop(c);
  }

  method MixColumnsLoop(s: array<Byte>, ghost f: Column -> Column, ghost g: Column -> Column)
    returns (ns: array<Byte>)
    requires s.Length == 16 && forall x :: Mixes(f, g, x)
    ensures fresh(ns) && ns.Length == 16 && ToBlock(ns[..]) == EachColumn(f, ToBlock(s[..]))
  {
    ns := new Byte[16](_ => 0);
    for c := 0 to 4
      invariant forall j :: 0 <= j < c ==> ColumnAt(ns[..], j) == f(ColumnAt(s[..], j))
    {
      var m := MixOne(Column(s[4 * c], s[1 + 4 * c], s[2 + 4 * c], s[3 + 4 * c]), f, g);
      ns[4 * c], ns[1 + 4 * c], ns[2 + 4 * c], ns[3 + 4 * c] := m.c0, m.c1, m.c2, m.c3;
    }
  }

  method InvMixColumnsLoop(s: array<Byte>, ghost f: Column -> Column, ghost g: Column -> Column)
    returns (ns: array<Byte>)
    requires s.Length == 16 && forall x :: Mixes(f, g, x)
    ensures fresh(ns) && ns.Length == 16 && ToBlock(ns[..]) == EachColumn(g, ToBlock(s[..]))
  {
    ns := new Byte[16](_ => 0);
    for c := 0 to 4
      invariant forall j :: 0 <= j < c ==> ColumnAt(ns[..], j) == g(ColumnAt(s[..], j))
    {
      var m := UnmixOne(Column(s[4 * c], s[1 + 4 * c], s[2 + 4 * c], s[3 + 4 * c]), f, g);
      ns[4 * c], ns[1 + 4 * c], ns[2 + 4 * c], ns[3 + 4 * c] := m.c0, m.c1, m.c2, m.c3;
    }
  }

  lemma EachColumnMixes(f: Column -> Column, g: Column -> Column, s: Block)
    requires forall x :: Mixes(f, g, x)
    ensures EachColumn(f, s) == MixBlock(s) && EachColumn(g, s) == InvMixBlock(s)
  {
    assert Mixes(f, g, s.a) && Mixes(f, g, s.b) && Mixes(f, g, s.c) && Mixes(f, g, s.d);
  }

  lemma MixingFunctions()
    returns (f: Column -> Column, g: Column -> Column)
    ensures forall x :: Mixes(f, g, x)
  {
    f, g := c => MixColumn(c), c => InvMixColumn(c);
  }

  lemma SubstitutedByIndex(t: Tables, s: Data, ns: Data)
    requires |s| == |ns| == 16
    ensures (forall i :: 0 <= i < 16 ==> ns[i] == t.sub(s[i])) ==> ToBlock(ns) == SubBytes(t, ToBlock(s))
    ensures (forall i :: 0 <= i < 16 ==> ns[i] == t.unsub(s[i])) ==> ToBlock(ns) == InvSubBytes(t, ToBlock(s))
  {
  }

  method SubAndShift(t: Tables, s0: array<Byte>) returns (s: array<Byte>)
    requires s0.Length == 16
    ensures fresh(s) && s.Length == 16 && ToBlock(s[..]) == ShiftRows(SubBytes(t, ToBlock(s0[..])))
  {
    s := Substitute(t.sub, s0);
    SubstitutedByIndex(t, s0[..], s[..]);
    s := ShiftRowsLoop(s);
  }

  method UnshiftAndUnsub(t: Tables, s0: array<Byte>) returns (s: array<Byte>)
    requires s0.Length == 16
    ensures fresh(s) && s.Length == 16 && ToBlock(s[..]) == InvSubBytes(t, InvShiftRows(ToBlock(s0[..])))
  {
    var u := InvShiftRowsLoop(s0);
    s := Substitute(t.unsub, u);
    SubstitutedByIndex(t, u[..], s[..]);
  }

  // The layers l are the same cipher as one value; they name each intermediate state.

  method SubLayer(t: Tables, w: Schedule, ghost l: R.Layers<Block>, s0: array<Byte>) returns (s: array<Byte>)
    requires s0.Length == 16 && IsAes(l, t, w)
    ensures fresh(s) && s.Length == 16 && ToBlock(s[..]) == l.sub(ToBlock(s0[..]))
  {
    assert SubIs(l, t, ToBlock(s0[..]));
    s := SubAndShift(t, s0);
  }

  method UnsubLayer(t: Tables, w: Schedule, ghost l: R.Layers<Block>, s0: array<Byte>) returns (s: array<Byte>)
    requires s0.Length == 16 && IsAes(l, t, w)
    ensures fresh(s) && s.Length == 16 && ToBlock(s[..]) == l.unsub(ToBlock(s0[..]))
  {
    assert SubIs(l, t, ToBlock(s0[..]));
    s := UnshiftAndUnsub(t, s0);
  }

  method KeyLayer(t: Tables, w: Schedule, ghost l: R.Layers<Block>, s: array<Byte>, rnd: nat)
    requires s.Length == 16 && IsAes(l, t, w) && rnd <= 10
    modifies s
    ensures ToBlock(s[..]) == l.key(ToBlock(old(s[..])), rnd)
  {
    assert KeyIs(l, w, ToBlock(s[..]), rnd);
    AddRoundKey(s, w, rnd);
  }

  method MixLayer(t: Tables, w: Schedule, ghost l: R.Layers<Block>, s0: array<Byte>) returns (s: array<Byte>)
    requires s0.Length == 16 && IsAes(l, t, w)
    ensures fresh(s) && s.Length == 16 && ToBlock(s[..]) == l.mix(ToBlock(s0[..]))
  {
    assert MixIs(l, ToBlock(s0[..]));
    ghost var f, g := MixingFunctions();
    EachColumnMixes(f, g, ToBlock(s0[..]));
    s := MixColumnsLoop(s0, f, g);
  }

  method UnmixLayer(t: Tables, w: Schedule, ghost l: R.Layers<Block>, s0: array<Byte>) returns (s: array<Byte>)
    requires s0.Length == 16 && IsAes(l, t, w)
    ensures fresh(s) && s.Length == 16 && ToBlock(s[..]) == l.unmix(ToBlock(s0[..]))
  {
    assert MixIs(l, ToBlock(s0[..]));
    ghost var f, g := MixingFunctions();
    EachColumnMixes(f, g, ToBlock(s0[..]));
    s := InvMixColumnsLoop(s0, f, g);
  }

  /** bytearray(block) */
  method Copied(block: Data) returns (s: array<Byte>)
    requires |block| == 16
    ensures fresh(s) && s.Length == 16 && s[..] == block
  {
    s := new Byte[16](i requires 0 <= i < 16 => block[i]);
  }

  lemma FlatOf(s: Data, b: Block)
    requires |s| == 16 && ToBlock(s) == b
    ensures s == Flat(b)
  {
    FlatInverts(s, b);
  }

  /** The body of the loop over the rounds, from one intermediate state to the next. */
  method OneRound(t: Tables, w: Schedule, ghost l: R.Layers<Block>, s0: array<Byte>, ghost b: Block, rnd: nat)
    returns (s: array<Byte>)
    requires s0.Length == 16 && IsAes(l, t, w) && 0 < rnd < 10 && ToBlock(s0[..]) == R.EncryptRounds(l, b, rnd - 1)
    ensures fresh(s) && s.Length == 16 && ToBlock(s[..]) == R.EncryptRounds(l, b, rnd)
  {
    s := SubLayer(t, w, l, s0);
    s := MixLayer(t, w, l, s);
    KeyLayer(t, w, l, s, rnd);
  }

  method NineRounds(t: Tables, w: Schedule, ghost l: R.Layers<Block>, s0: array<Byte>, ghost b: Block)
    returns (s: array<Byte>)
    requires s0.Length == 16 && IsAes(l, t, w) && ToBlock(s0[..]) == R.EncryptRounds(l, b, 0)
    ensures (s == s0 || fresh(s)) && s.Length == 16 && ToBlock(s[..]) == R.EncryptRounds(l, b, l.rounds - 1)
  {
    s := s0;
    for rnd := 1 to 10
      invariant (s == s0 || fresh(s)) && s.Length == 16 && ToBlock(s[..]) == R.EncryptRounds(l, b, rnd - 1)
    {
      s := OneRound(t, w, l, s, b, rnd);
    }
  }

  lemma LastRound(l: R.Layers<Block>, b: Block, n: nat)
    requires l.rounds == n + 1
    ensures R.Encrypt(l, b) == l.key(l.sub(R.EncryptRounds(l, b, n)), l.rounds)
  {
  }

  /** All rounds of _encrypt_block on the state array. */
  method EncryptState(t: Tables, w: Schedule, ghost l: R.Layers<Block>, s0: array<Byte>, ghost b: Block)
    returns (s: array<Byte>)
    requires s0.Length == 16 && IsAes(l, t, w) && ToBlock(s0[..]) == b
    modifies s0
    ensures s.Length == 16 && ToBlock(s[..]) == R.Encrypt(l, b)
  {
    KeyLayer(t, w, l, s0, 0);
    s := NineRounds(t, w, l, s0, b);
    LastRound(l, b, 9);
    s := SubLayer(t, w, l, s);
    KeyLayer(t, w, l, s, 10);
  }

  /** All rounds of _decrypt_block on the state array. */
  method DecryptState(t: Tables, w: Schedule, ghost l: R.Layers<Block>, s0: array<Byte>, ghost b: Block)
    returns (s: array<Byte>)
    requires s0.Length == 16 && IsAes(l, t, w) && ToBlock(s0[..]) == b
    modifies s0
    ensures s.Length == 16 && ToBlock(s[..]) == R.Decrypt(l, b)
  {
    s := s0;
    KeyLayer(t, w, l, s, 10);
    for rnd := 10 downto 1
      invariant s == s0 || fresh(s)
      invariant s.Length == 16 && ToBlock(s[..]) == R.DecryptRounds(l, b, rnd)
    {
      s := OneRoundBack(t, w, l, s, rnd);
    }
    s := UnsubLayer(t, w, l, s);
    KeyLayer(t, w, l, s, 0);
  }

  method OneRoundBack(t: Tables, w: Schedule, ghost l: R.Layers<Block>, s0: array<Byte>, rnd: nat)
    returns (s: array<Byte>)
    requires s0.Length == 16 && IsAes(l, t, w) && rnd <= 10
    ensures fresh(s) && s.Length == 16 && ToBlock(s[..]) == l.unmix(l.key(l.unsub(ToBlock(s0[..])), rnd))
  {
    s := UnsubLayer(t, w, l, s0);
    KeyLayer(t, w, l, s, rnd);
    s := UnmixLayer(t, w, l, s);
  }

  method EncryptBlock(t: Tables, w: Schedule, ghost l: R.Layers<Block>, block: Data) returns (out: Data)
    requires |block| == 16 && IsAes(l, t, w)
    ensures out == Flat(R.Encrypt(l, ToBlock(block)))
  {
    var s := Copied(block);
    s := EncryptState(t, w, l, s, ToBlock(block));
    out := s[..];
    FlatOf(out, R.Encrypt(l, ToBlock(block)));
  }

  method DecryptBlock(t: Tables, w: Schedule, ghost l: R.Layers<Block>, block: Data) returns (out: Data)
    requires |block| == 16 && IsAes(l, t, w)
    ensures out == Flat(R.Decrypt(l, ToBlock(block)))
  {
    var s := Copied(block);
    s := DecryptState(t, w, l, s, ToBlock(block));
    out := s[..];
    FlatOf(out, R.Decrypt(l, ToBlock(block)));
  }

  lemma NextEcb(f: Chunk -> Chunk, data: Data, i: nat) returns (rest: Data)
    requires |data| % 16 == 0 && i % 16 == 0 && i < |data|
    ensures i + 16 <= |data| && (i + 16) % 16 == 0
    ensures rest == Ecb(f, data[i + 16..]) && Ecb(f, data[i..]) == f(data[i..i + 16]) + rest
  {
    assert data[i..][..16] == data[i..i + 16] && data[i..][16..] == data[i + 16..];
    rest := Ecb(f, data[i + 16..]);
  }

  lemma Regrouped(a: Data, b: Data, c: Data, bc: Data, all: Data)
    requires bc == b + c && a + bc == all
    ensures (a + b) + c == all
  {
    assert (a + b) + c == a + (b + c);
  }

  /** f is one direction of the cipher, as a value. */
  ghost predicate IsEncrypt(f: Chunk -> Chunk, l: R.Layers<Block>, d: Chunk) {
    l.rounds >= 1 && f(d) == Flat(R.Encrypt(l, ToBlock(d)))
  }

  ghost predicate IsDecrypt(f: Chunk -> Chunk, l: R.Layers<Block>, d: Chunk) {
    l.rounds >= 1 && f(d) == Flat(R.Decrypt(l, ToBlock(d)))
  }

  method EncryptOne(t: Tables, w: Schedule, ghost l: R.Layers<Block>, ghost f: Chunk -> Chunk, d: Chunk)
    returns (out: Data)
    requires IsAes(l, t, w) && forall x :: IsEncrypt(f, l, x)
    ensures out == f(d)
  {
    assert IsEncrypt(f, l, d);
    out := EncryptBlock(t, w, l, d);
  }

  method DecryptOne(t: Tables, w: Schedule, ghost l: R.Layers<Block>, ghost f: Chunk -> Chunk, d: Chunk)
    returns (out: Data)
    requires IsAes(l, t, w) && forall x :: IsDecrypt(f, l, x)
    ensures out == f(d)
  {
    assert IsDecrypt(f, l, d);
    out := DecryptBlock(t, w, l, d);
  }

  method EncryptEcbBlocks(t: Tables, w: Schedule, ghost l: R.Layers<Block>, ghost f: Chunk -> Chunk, data: Data)
    returns (out: Data)
    requires |data| % 16 == 0 && IsAes(l, t, w) && forall x :: IsEncrypt(f, l, x)
    ensures out == Ecb(f, data)
  {
    out := [];
    var i := 0;
    ghost var all := Ecb(f, data);
    ghost var rest := all;
    assert data[0..] == data;
    while i < |data|
      invariant 0 <= i <= |data| && i % 16 == 0
      invariant rest == Ecb(f, data[i..]) && out + rest == all
    {
      ghost var next := NextEcb(f, data, i);
      var b := EncryptOne(t, w, l, f, data[i..i + 16]);
      Regrouped(out, b, next, rest, all);
      rest := next;
      out := out + b;
      i := i + 16;
    }
  }

  method DecryptEcbBlocks(t: Tables, w: Schedule, ghost l: R.Layers<Block>, ghost f: Chunk -> Chunk, data: Data)
    returns (out: Data)
    requires |data| % 16 == 0 && IsAes(l, t, w) && forall x :: IsDecrypt(f, l, x)
    ensures out == Ecb(f, data)
  {
    out := [];
    var i := 0;
    ghost var all := Ecb(f, data);
    ghost var rest := all;
    assert data[0..] == data;
    while i < |data|
      invariant 0 <= i <= |data| && i % 16 == 0
      invariant rest == Ecb(f, data[i..]) && out + rest == all
    {
      ghost var next := NextEcb(f, data, i);
      var b := DecryptOne(t, w, l, f, data[i..i + 16]);
      Regrouped(out, b, next, rest, all);
      rest := next;
      out := out + b;
      i := i + 16;
    }
  }

  /** encrypt_ecb */
  method EncryptEcbLoop(t: Tables, w: Schedule, ghost l: R.Layers<Block>, data: Data) returns (out: Data)
    requires |data| % 16 == 0 && IsAes(l, t, w)
    ensures out == EncryptEcb(l, data)
  {
    out := EncryptEcbBlocks(t, w, l, EncryptChunk(l), data);
  }

  /** decrypt_ecb */
  method DecryptEcbLoop(t: Tables, w: Schedule, ghost l: R.Layers<Block>, data: Data) returns (out: Data)
    requires |data| % 16 == 0 && IsAes(l, t, w)
    ensures out == DecryptEcb(l, data)
  {
    out := DecryptEcbBlocks(t, w, l, DecryptChunk(l), data);
  }

  /** The loops of both directions, from the key on: what one writes, the other reads. */
  method EncryptAndDecrypt(key: Data, data: Data) returns (cipher: Data, out: Option<Data>)
    requires |data| % 16 == 0
    ensures out == if |key| == 16 then Some(data) else None
    ensures |key| == 16 ==> cipher == EncryptEcb(Layers(AesTables(), ExpandKey(AesTables(), key)), data)
  {
    var t := AesTables();
    var schedule := NewSchedule(t, key);
    if schedule.None? {
      return [], None;
    }
    var w := schedule.value;
    ghost var l := Layers(t, w);
    LayersAreAes(t, w);
    cipher := EncryptEcbLoop(t, w, l, data);
    var plain := DecryptEcbLoop(t, w, l, cipher);
    AesRoundTrip(key, data);
    out := Some(plain);
  }
}
