/** AES-128 as the pure-Python fallback computes it, and the proof that each direction undoes the other. */
module Aes {
  import opened Bytes
  import opened Bits
  import opened Gf256
  import opened SBoxes
  import opened MixColumns
  import R = Rounds

  /** The state: four columns of four bytes. */
  datatype Block = Block(a: Column, b: Column, c: Column, d: Column)

  /** The 44 words of the key schedule, four for each of the ten rounds and four more. */
  type Schedule = w: seq<Column> | |w| == 44 witness seq(44, _ => Column(0, 0, 0, 0))

  /** A substitution and its inverse, as two lookup tables. */
  datatype Tables = Tables(sub: Byte -> Byte, unsub: Byte -> Byte)

  ghost predicate Inverse(t: Tables) {
    forall b :: t.unsub(t.sub(b)) == b && t.sub(t.unsub(b)) == b
  }

  /** _SBOX and _INV_SBOX. */
  function AesTables(): Tables { Tables(b => SBox(b), b => InvSBox(b)) }

  lemma AesTablesInvert()
    ensures Inverse(AesTables())
  {
    forall b: Byte ensures InvSBox(SBox(b)) == b && SBox(InvSBox(b)) == b {
      SBoxInverts(b);
    }
  }

  // ---- the four layers ----

  function ColumnXor(c: Column, d: Column): Column {
    Column(ByteXor(c.c0, d.c0), ByteXor(c.c1, d.c1), ByteXor(c.c2, d.c2), ByteXor(c.c3, d.c3))
  }

  /** Key addition; rounds beyond the tenth have no key. */
  function AddKey(s: Block, w: Schedule, round: nat): Block {
    if round > 10 then s
    else Block(ColumnXor(s.a, w[4 * round]), ColumnXor(s.b, w[4 * round + 1]),
               ColumnXor(s.c, w[4 * round + 2]), ColumnXor(s.d, w[4 * round + 3]))
  }

  function SubColumn(t: Tables, c: Column): Column {
    Column(t.sub(c.c0), t.sub(c.c1), t.sub(c.c2), t.sub(c.c3))
  }

  function InvSubColumn(t: Tables, c: Column): Column {
    Column(t.unsub(c.c0), t.unsub(c.c1), t.unsub(c.c2), t.unsub(c.c3))
  }

  function SubBytes(t: Tables, s: Block): Block {
    Block(SubColumn(t, s.a), SubColumn(t, s.b), SubColumn(t, s.c), SubColumn(t, s.d))
  }

  function InvSubBytes(t: Tables, s: Block): Block {
    Block(InvSubColumn(t, s.a), InvSubColumn(t, s.b), InvSubColumn(t, s.c), InvSubColumn(t, s.d))
  }

  /** Row r moves left by r columns. */
  function ShiftRows(s: Block): Block {
    Block(Column(s.a.c0, s.b.c1, s.c.c2, s.d.c3), Column(s.b.c0, s.c.c1, s.d.c2, s.a.c3),
          Column(s.c.c0, s.d.c1, s.a.c2, s.b.c3), Column(s.d.c0, s.a.c1, s.b.c2, s.c.c3))
  }

  /** Row r moves right by r columns. */
  function InvShiftRows(s: Block): Block {
    Block(Column(s.a.c0, s.d.c1, s.c.c2, s.b.c3), Column(s.b.c0, s.a.c1, s.d.c2, s.c.c3),
          Column(s.c.c0, s.b.c1, s.a.c2, s.d.c3), Column(s.d.c0, s.c.c1, s.b.c2, s.a.c3))
  }

  function MixBlock(s: Block): Block { Block(MixColumn(s.a), MixColumn(s.b), MixColumn(s.c), MixColumn(s.d)) }
  function InvMixBlock(s: Block): Block {
    Block(InvMixColumn(s.a), InvMixColumn(s.b), InvMixColumn(s.c), InvMixColumn(s.d))
  }

  lemma ColumnXorTwice(c: Column, d: Column)
    ensures ColumnXor(ColumnXor(c, d), d) == c
  {
    XorTwice(c.c0, d.c0); XorTwice(c.c1, d.c1); XorTwice(c.c2, d.c2); XorTwice(c.c3, d.c3);
  }

  lemma AddKeyTwice(s: Block, w: Schedule, round: nat)
    ensures AddKey(AddKey(s, w, round), w, round) == s
  {
    if round <= 10 {
      ColumnXorTwice(s.a, w[4 * round]); ColumnXorTwice(s.b, w[4 * round + 1]);
      ColumnXorTwice(s.c, w[4 * round + 2]); ColumnXorTwice(s.d, w[4 * round + 3]);
    }
  }

  lemma SubBytesInverts(t: Tables, s: Block)
    requires Inverse(t)
    ensures InvSubBytes(t, SubBytes(t, s)) == s && SubBytes(t, InvSubBytes(t, s)) == s
  {
  }

  lemma ShiftRowsInverts(s: Block)
    ensures InvShiftRows(ShiftRows(s)) == s && ShiftRows(InvShiftRows(s)) == s
  {
  }

  lemma MixBlockInverts(s: Block)
    ensures InvMixBlock(MixBlock(s)) == s && MixBlock(InvMixBlock(s)) == s
  {
    MixColumnInverts(s.a); MixColumnInverts(s.b); MixColumnInverts(s.c); MixColumnInverts(s.d);
  }

  // ---- rounds ----

  function Layers(t: Tables, w: Schedule): R.Layers<Block> {
    R.Layers(10, (s: Block, n: nat) => AddKey(s, w, n),
             (s: Block) => ShiftRows(SubBytes(t, s)), (s: Block) => InvSubBytes(t, InvShiftRows(s)),
             (s: Block) => MixBlock(s), (s: Block) => InvMixBlock(s))
  }

  lemma KeyLayerInverts(t: Tables, w: Schedule)
    ensures forall s, n :: Layers(t, w).KeyInverts(s, n)
  {
    forall s, n ensures Layers(t, w).KeyInverts(s, n) {
      AddKeyTwice(s, w, n);
    }
  }

  lemma SubLayersInvert(t: Tables, w: Schedule)
    requires Inverse(t)
    ensures forall s :: Layers(t, w).SubInverts(s)
  {
    forall s: Block ensures Layers(t, w).SubInverts(s) {
      SubLayerInverts(t, s);
    }
  }

  lemma MixLayerInverts(t: Tables, w: Schedule, s: Block)
    ensures Layers(t, w).MixInverts(s)
  {
    MixBlockInverts(s);
  }

  lemma MixLayersInvert(t: Tables, w: Schedule)
    ensures forall s :: Layers(t, w).MixInverts(s)
  {
    forall s: Block ensures Layers(t, w).MixInverts(s) {
      MixLayerInverts(t, w, s);
    }
  }

  lemma LayersInvert(t: Tables, w: Schedule)
    requires Inverse(t)
    ensures R.Invertible(Layers(t, w))
  {
    KeyLayerInverts(t, w);
    SubLayersInvert(t, w);
    MixLayersInvert(t, w);
  }

  lemma SubLayerInverts(t: Tables, s: Block)
    requires Inverse(t)
    ensures InvSubBytes(t, InvShiftRows(ShiftRows(SubBytes(t, s)))) == s
    ensures ShiftRows(SubBytes(t, InvSubBytes(t, InvShiftRows(s)))) == s
  {
    ShiftRowsInverts(SubBytes(t, s));
    SubBytesInverts(t, s);
    SubBytesInverts(t, InvShiftRows(s));
    ShiftRowsInverts(s);
  }

  /** l is the cipher with these tables and this schedule, layer by layer. */
  ghost predicate IsAes(l: R.Layers<Block>, t: Tables, w: Schedule) {
    && l.rounds == 10
    && (forall s, n :: KeyIs(l, w, s, n))
    && (forall s :: SubIs(l, t, s))
    && (forall s :: MixIs(l, s))
  }

  ghost predicate KeyIs(l: R.Layers<Block>, w: Schedule, s: Block, n: nat) { l.key(s, n) == AddKey(s, w, n) }

  ghost predicate SubIs(l: R.Layers<Block>, t: Tables, s: Block) {
    l.sub(s) == ShiftRows(SubBytes(t, s)) && l.unsub(s) == InvSubBytes(t, InvShiftRows(s))
  }

  ghost predicate MixIs(l: R.Layers<Block>, s: Block) { l.mix(s) == MixBlock(s) && l.unmix(s) == InvMixBlock(s) }

  lemma LayersAreAes(t: Tables, w: Schedule)
    ensures IsAes(Layers(t, w), t, w)
  {
    var l := Layers(t, w);
    forall s: Block, n: nat ensures KeyIs(l, w, s, n) { KeyLayerIs(t, w, s, n); }
    forall s: Block ensures SubIs(l, t, s) && MixIs(l, s) { SubLayerIs(t, w, s); MixLayerIs(t, w, s); }
  }

  lemma KeyLayerIs(t: Tables, w: Schedule, s: Block, n: nat)
    ensures KeyIs(Layers(t, w), w, s, n)
  {
  }

  lemma SubLayerIs(t: Tables, w: Schedule, s: Block)
    ensures SubIs(Layers(t, w), t, s)
  {
  }

  lemma MixLayerIs(t: Tables, w: Schedule, s: Block)
    ensures MixIs(Layers(t, w), s)
  {
  }

  // ---- the key schedule, section 5.2 of FIPS 197 ----

  function Rcon(j: nat): Byte {
    if j == 0 then 0x01 else Xtime(Rcon(j - 1))
  }

  function RotWord(c: Column): Column { Column(c.c1, c.c2, c.c3, c.c0) }

  /** Word i of the schedule from the words four and one before it. */
  function ScheduledWord(t: Tables, fourBack: Column, oneBack: Column, i: nat): Column
    requires i >= 4
  {
    var u := SubColumn(t, RotWord(oneBack));
    ColumnXor(fourBack, if i % 4 == 0 then u.(c0 := ByteXor(u.c0, Rcon(i / 4 - 1))) else oneBack)
  }

  function KeyWord(key: Data, i: nat): Column
    requires |key| == 16 && i < 4
  {
    Column(key[4 * i], key[4 * i + 1], key[4 * i + 2], key[4 * i + 3])
  }

  /** The words so far are the ones the standard prescribes. */
  ghost predicate IsScheduleOf(t: Tables, key: Data, w: seq<Column>) {
    && |key| == 16 && |w| >= 4
    && (forall i :: 0 <= i < 4 ==> w[i] == KeyWord(key, i))
    && (forall i :: 4 <= i < |w| ==> w[i] == ScheduledWord(t, w[i - 4], w[i - 1], i))
  }

  function Grow(t: Tables, w: seq<Column>): Schedule
    requires 4 <= |w| <= 44
    decreases 44 - |w|
  {
    if |w| == 44 then w else Grow(t, w + [ScheduledWord(t, w[|w| - 4], w[|w| - 1], |w|)])
  }

  function ExpandKey(t: Tables, key: Data): Schedule
    requires |key| == 16
  {
    Grow(t, [KeyWord(key, 0), KeyWord(key, 1), KeyWord(key, 2), KeyWord(key, 3)])
  }

  lemma {:induction false} GrowSchedules(t: Tables, key: Data, w: seq<Column>)
    requires |w| <= 44 && IsScheduleOf(t, key, w)
    ensures IsScheduleOf(t, key, Grow(t, w))
    decreases 44 - |w|
  {
    if |w| < 44 {
      GrowSchedules(t, key, w + [ScheduledWord(t, w[|w| - 4], w[|w| - 1], |w|)]);
    }
  }

  /** Any two schedules of a key that are equally long are equal. */
  lemma {:induction false} ScheduleUnique(t: Tables, key: Data, v: seq<Column>, w: seq<Column>, n: nat)
    requires IsScheduleOf(t, key, v) && IsScheduleOf(t, key, w) && n <= |v| == |w|
    ensures v[..n] == w[..n]
  {
    if n > 0 {
      ScheduleUnique(t, key, v, w, n - 1);
      assert v[n - 1] == w[n - 1] by {
        if n > 4 {
          assert v[n - 5] == v[..n - 1][n - 5] == w[n - 5];
          assert v[n - 2] == v[..n - 1][n - 2] == w[n - 2];
        }
      }
    }
  }

  /** ExpandKey is the schedule the standard prescribes, and the only one. */
  lemma ExpandKeyIsSchedule(t: Tables, key: Data, w: Schedule)
    requires |key| == 16
    ensures IsScheduleOf(t, key, w) <==> w == ExpandKey(t, key)
  {
    GrowSchedules(t, key, [KeyWord(key, 0), KeyWord(key, 1), KeyWord(key, 2), KeyWord(key, 3)]);
    if IsScheduleOf(t, key, w) {
      ScheduleUnique(t, key, w, ExpandKey(t, key), 44);
      assert w[..44] == w && ExpandKey(t, key)[..44] == ExpandKey(t, key);
    }
  }

  // ---- whole messages ----

  function ColumnAt(s: Data, c: nat): Column
    requires |s| == 16 && c < 4
  {
    Column(s[4 * c], s[4 * c + 1], s[4 * c + 2], s[4 * c + 3])
  }

  function ToBlock(s: Data): Block
    requires |s| == 16
  {
    Block(ColumnAt(s, 0), ColumnAt(s, 1), ColumnAt(s, 2), ColumnAt(s, 3))
  }

  function Flat(s: Block): (r: Data)
    ensures |r| == 16
  {
    [s.a.c0, s.a.c1, s.a.c2, s.a.c3, s.b.c0, s.b.c1, s.b.c2, s.b.c3,
     s.c.c0, s.c.c1, s.c.c2, s.c.c3, s.d.c0, s.d.c1, s.d.c2, s.d.c3]
  }

  lemma FlatInverts(s: Data, b: Block)
    requires |s| == 16
    ensures Flat(ToBlock(s)) == s && ToBlock(Flat(b)) == b
  {
  }

  type Chunk = d: Data | |d| == 16 witness Zeros(16)

  /** One function on chunks of 16 bytes, applied to each of them. */
  function Ecb(f: Chunk -> Chunk, data: Data): (r: Data)
    requires |data| % 16 == 0
    ensures |r| == |data|
  {
    if data == [] then [] else f(data[..16]) + Ecb(f, data[16..])
  }

  ghost predicate Undone(f: Chunk -> Chunk, g: Chunk -> Chunk, d: Chunk) { g(f(d)) == d }

  /** Electronic codebook mode inherits the inverse from the block function. */
  lemma {:induction false} EcbInverts(f: Chunk -> Chunk, g: Chunk -> Chunk, data: Data)
    requires |data| % 16 == 0 && forall d :: Undone(f, g, d)
    ensures Ecb(g, Ecb(f, data)) == data
  {
    if data == [] {
    } else {
      var e := Ecb(f, data);
      assert e[..16] == f(data[..16]) && e[16..] == Ecb(f, data[16..]);
      assert Undone(f, g, data[..16]);
      EcbInverts(f, g, data[16..]);
      assert data == data[..16] + data[16..];
    }
  }

  /** The cipher on 16 bytes, and back. */
  function EncryptChunk(l: R.Layers<Block>): Chunk -> Chunk
    requires l.rounds >= 1
  {
    (d: Chunk) => Flat(R.Encrypt(l, ToBlock(d)))
  }

  function DecryptChunk(l: R.Layers<Block>): Chunk -> Chunk
    requires l.rounds >= 1
  {
    (d: Chunk) => Flat(R.Decrypt(l, ToBlock(d)))
  }

  function EncryptEcb(l: R.Layers<Block>, data: Data): (r: Data)
    requires l.rounds >= 1 && |data| % 16 == 0
    ensures |r| == |data|
  {
    Ecb(EncryptChunk(l), data)
  }

  function DecryptEcb(l: R.Layers<Block>, data: Data): (r: Data)
    requires l.rounds >= 1 && |data| % 16 == 0
    ensures |r| == |data|
  {
    Ecb(DecryptChunk(l), data)
  }

  /** Each 16 bytes of a message go through the block function on their own. */
  lemma {:induction false} EcbBlocks(f: Chunk -> Chunk, data: Data, k: nat)
    requires |data| % 16 == 0 && 16 * k + 16 <= |data|
    ensures Ecb(f, data)[16 * k..16 * k + 16] == f(data[16 * k..16 * k + 16])
  {
    var rest := Ecb(f, data[16..]);
    assert Ecb(f, data) == f(data[..16]) + rest;
    if k == 0 {
      assert Ecb(f, data)[0..16] == f(data[..16]);
    } else {
      EcbBlocks(f, data[16..], k - 1);
      assert Ecb(f, data)[16 * k..16 * k + 16] == rest[16 * (k - 1)..16 * (k - 1) + 16];
      assert data[16 * k..16 * k + 16] == data[16..][16 * (k - 1)..16 * (k - 1) + 16];
    }
  }

  /** Electronic codebook mode, section 6.1 of SP 800-38A. */
  lemma EncryptedBlock(l: R.Layers<Block>, data: Data, k: nat)
    requires l.rounds >= 1 && |data| % 16 == 0 && 16 * k + 16 <= |data|
    ensures EncryptEcb(l, data)[16 * k..16 * k + 16] == Flat(R.Encrypt(l, ToBlock(data[16 * k..16 * k + 16])))
  {
    EcbBlocks(EncryptChunk(l), data, k);
  }

  lemma ChunkInverts(l: R.Layers<Block>, d: Chunk)
    requires R.Invertible(l)
    ensures Undone(EncryptChunk(l), DecryptChunk(l), d) && Undone(DecryptChunk(l), EncryptChunk(l), d)
  {
    var b := ToBlock(d);
    R.RoundTrip(l, b);
    FlatInverts(d, R.Encrypt(l, b));
    FlatInverts(d, R.Decrypt(l, b));
  }

  /** For invertible layers, each direction undoes the other on all block-aligned data. */
  lemma EcbRoundTrip(l: R.Layers<Block>, data: Data)
    requires R.Invertible(l) && |data| % 16 == 0
    ensures DecryptEcb(l, EncryptEcb(l, data)) == data
    ensures EncryptEcb(l, DecryptEcb(l, data)) == data
  {
    var f, g := EncryptChunk(l), DecryptChunk(l);
    forall d: Chunk ensures Undone(f, g, d) && Undone(g, f, d) {
      ChunkInverts(l, d);
    }
    EcbInverts(f, g, data);
    EcbInverts(g, f, data);
  }

  /** Section 5 of FIPS 197: AES-128 with any key, in both directions. */
  lemma AesRoundTrip(key: Data, data: Data)
    requires |key| == 16 && |data| % 16 == 0
    ensures var l := Layers(AesTables(), ExpandKey(AesTables(), key));
            DecryptEcb(l, EncryptEcb(l, data)) == data && EncryptEcb(l, DecryptEcb(l, data)) == data
  {
    AesTablesInvert();
    LayersInvert(AesTables(), ExpandKey(AesTables(), key));
    EcbRoundTrip(Layers(AesTables(), ExpandKey(AesTables(), key)), data);
  }
}
