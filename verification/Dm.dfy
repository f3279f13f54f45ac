/** Direct messages and PATH returns: what the sender encodes, the recipient decodes. */
module Dm {
  import opened Bytes
  import opened Bits
  import opened Envelope
  import P = Packet

  const PATH_EXTRA_ACK: Byte := 0x03

  /** struct.pack("<I", t & 0xFFFFFFFF) */
  function U32(t: nat): (r: Data)
    ensures |r| == 4
  {
    [t % 256, t / 256 % 256, t / 65536 % 256, t / 16777216 % 256]
  }

  function FromU32(s: Data): nat
    requires |s| == 4
  {
    var a: int, b: int, c: int, d: int := s[0], s[1], s[2], s[3];
    a + 256 * (b + 256 * (c + 256 * d))
  }

  lemma U32RoundTrip(t: nat)
    ensures FromU32(U32(t)) == t % 0x1_0000_0000
  {
    var a, b, c := t / 256, t / 65536, t / 16777216;
    assert b == a / 256 && c == b / 256;
    assert t == t % 256 + 256 * (a % 256 + 256 * (b % 256 + 256 * c));
    assert c == c % 256 + 256 * (c / 256);
    var low := t % 256 + 256 * (a % 256 + 256 * (b % 256 + 256 * (c % 256)));
    DivModUnique(t, 0x1_0000_0000, c / 256, low);
  }

  /** The attempt in the low two bits, the text type above; struct.pack("B") admits types below 64. */
  function Flags(attempt: nat, txtType: nat): Byte
    requires txtType < 64
  {
    attempt % 4 + 4 * txtType
  }

  /** (attempt & 3) | (txt_type << 2) */
  lemma FlagsAreMasks(attempt: nat, txtType: nat)
    requires txtType < 64
    ensures Or(And(attempt, 3), txtType * Pow2(2)) == Flags(attempt, txtType)
  {
    MaskIsLow(attempt, 2);
    assert Pow2(2) == 4;
    OrOfShifted(attempt % 4, txtType, 2);
  }

  function Plaintext(timestamp: nat, text: Data, attempt: nat, txtType: nat): (r: Data)
    requires txtType < 64
    ensures |r| == 5 + |text|
  {
    U32(timestamp) + [Flags(attempt, txtType)] + text
  }

  function AckHash(c: Crypto, core: Data, key: Key): (r: Data)
    ensures |r| == 4
  {
    c.sha256(core + key)[..4]
  }

  /** The payload, and the ack hash the sender will wait for. */
  function Encode(c: Crypto, secret: Key, sender: Key, dstHash: nat, text: Data, timestamp: nat,
                  attempt: nat, txtType: nat): (Data, Data)
    requires txtType < 64
  {
    var core := Plaintext(timestamp, text, attempt, txtType);
    ([dstHash % 256, sender[0]] + EncryptThenMac(c, secret, core), AckHash(c, core, sender))
  }

  datatype Message = Message(key: Key, dstHash: Byte, srcHash: Byte, timestamp: nat, flags: Byte,
                             txtType: nat, attempt: nat, text: Data, ackHash: Data)

  function ParsePlaintext(c: Crypto, key: Key, dstHash: Byte, srcHash: Byte, pt: Data): Option<Message> {
    if |pt| < 5 then None
    else
      var text := UntilNul(pt[5..]);
      Some(Message(key, dstHash, srcHash, FromU32(pt[..4]), pt[4], pt[4] / 4, pt[4] % 4, text,
                   AckHash(c, pt[..5] + text, key)))
  }

  /** The part of decoding that direct messages and PATH returns share: whose payload opens, and to what. */
  function Open(c: Crypto, payload: Data, selfHash: nat, candidates: seq<Candidate>): Option<(Candidate, Data)> {
    if |payload| < 20 then None
    else if payload[0] != selfHash % 256 then None
    else FirstMatch(c, candidates, payload[1], payload[2..4], payload[4..])
  }

  function Decode(c: Crypto, payload: Data, selfHash: nat, candidates: seq<Candidate>): Option<Message> {
    match Open(c, payload, selfHash, candidates)
    case None => None
    case Some((who, pt)) => ParsePlaintext(c, who.key, payload[0], payload[1], pt)
  }

  /** candidates[k] is the sender, and no candidate before it takes the payload for its own. */
  ghost predicate Identified(c: Crypto, payload: Data, candidates: seq<Candidate>, k: nat, sender: Key, secret: Key) {
    && k < |candidates| && candidates[k] == Candidate(sender, secret)
    && |payload| >= 4
    && forall j :: 0 <= j < k ==> !Matches(c, candidates[j], payload[1], payload[2..4], payload[4..])
  }

  function Sealed(c: Crypto, secret: Key, sender: Key, dstHash: nat, core: Data): Data {
    [dstHash % 256, sender[0]] + EncryptThenMac(c, secret, core)
  }

  /** The recipient opens what was sealed for it. */
  lemma SealedIsOpened(c: Crypto, secret: Key, sender: Key, dstHash: nat, core: Data,
                       candidates: seq<Candidate>, k: nat)
    requires Sound(c) && core != []
    requires Identified(c, Sealed(c, secret, sender, dstHash, core), candidates, k, sender, secret)
    ensures var p := Sealed(c, secret, sender, dstHash, core);
            && |p| == 4 + |Pad16(core)| && p[0] == dstHash % 256 && p[1] == sender[0]
            && Open(c, p, dstHash, candidates) == Some((Candidate(sender, secret), Pad16(core)))
  {
    var e := EncryptThenMac(c, secret, core);
    var p := Sealed(c, secret, sender, dstHash, core);
    SealedOpens(c, secret, core);
    assert p[2..4] == e[..2] && p[4..] == e[2..];
    assert Matches(c, candidates[k], p[1], p[2..4], p[4..]);
    FirstMatchIs(c, candidates, k, p[1], p[2..4], p[4..]);
  }

  /** A recipient with another hash byte does not open it. */
  lemma OthersDecline(c: Crypto, payload: Data, selfHash: nat, candidates: seq<Candidate>)
    requires |payload| > 0 && payload[0] != selfHash % 256
    ensures Decode(c, payload, selfHash, candidates) == None && DecodePath(c, payload, selfHash, candidates) == None
  {
  }

  lemma PlaintextParses(c: Crypto, key: Key, dstHash: Byte, srcHash: Byte, timestamp: nat, text: Data,
                        attempt: nat, txtType: nat)
    requires txtType < 64
    ensures ParsePlaintext(c, key, dstHash, srcHash, Pad16(Plaintext(timestamp, text, attempt, txtType)))
         == Some(Message(key, dstHash, srcHash, timestamp % 0x1_0000_0000, Flags(attempt, txtType), txtType,
                         attempt % 4, UntilNul(text),
                         AckHash(c, Plaintext(timestamp, UntilNul(text), attempt, txtType), key)))
  {
    var core := Plaintext(timestamp, text, attempt, txtType);
    var pt := Pad16(core);
    assert pt[..4] == U32(timestamp);
    U32RoundTrip(timestamp);
    assert pt[5..] == text + Zeros(-|core| % 16);
    UntilNulOfPadded(text, -|core| % 16);
    assert pt[..5] == U32(timestamp) + [Flags(attempt, txtType)];
    FlagsSplit(attempt % 4, txtType);
  }

  lemma FlagsSplit(a: nat, t: nat)
    requires a < 4
    ensures (a + 4 * t) / 4 == t && (a + 4 * t) % 4 == a
  {
  }

  lemma UntilNulIsAll(s: Data)
    ensures UntilNul(s) == s <==> 0 !in s
  {
  }

  /** decode_dm of encode_dm, at every padding length: timestamp, attempt and type come back, and the
      text comes back, with the very ack hash the sender waits for, exactly when it holds no NUL. */
  lemma DmRoundTrip(c: Crypto, secret: Key, sender: Key, dstHash: nat, text: Data, timestamp: nat, attempt: nat,
                    txtType: nat, candidates: seq<Candidate>, k: nat)
    requires Sound(c) && txtType < 64
    requires Identified(c, Encode(c, secret, sender, dstHash, text, timestamp, attempt, txtType).0,
                        candidates, k, sender, secret)
    ensures var (payload, ack) := Encode(c, secret, sender, dstHash, text, timestamp, attempt, txtType);
            var got := Decode(c, payload, dstHash, candidates);
            && got.Some? && got.value.key == sender && got.value.timestamp == timestamp % 0x1_0000_0000
            && got.value.attempt == attempt % 4 && got.value.txtType == txtType
            && (got.value.text == text <==> 0 !in text)
            && (0 !in text ==> got.value.ackHash == ack)
  {
    var core := Plaintext(timestamp, text, attempt, txtType);
    assert Encode(c, secret, sender, dstHash, text, timestamp, attempt, txtType).0
        == Sealed(c, secret, sender, dstHash, core);
    SealedIsOpened(c, secret, sender, dstHash, core, candidates, k);
    PlaintextParses(c, sender, dstHash % 256, sender[0], timestamp, text, attempt, txtType);
    UntilNulIsAll(text);
  }

  /** Payloads of two attempts are equal only if the attempts agree modulo 4. */
  lemma AttemptsDiffer(c: Crypto, secret: Key, sender: Key, dstHash: nat, text: Data, timestamp: nat, a: nat, b: nat)
    requires Sound(c)
    ensures (Encode(c, secret, sender, dstHash, text, timestamp, a, 0).0
             == Encode(c, secret, sender, dstHash, text, timestamp, b, 0).0) <==> a % 4 == b % 4
  {
    var p, q := Plaintext(timestamp, text, a, 0), Plaintext(timestamp, text, b, 0);
    var x, y := Sealed(c, secret, sender, dstHash, p), Sealed(c, secret, sender, dstHash, q);
    assert x[2..] == EncryptThenMac(c, secret, p) && y[2..] == EncryptThenMac(c, secret, q);
    if x == y {
      SealingIsInjective(c, secret, p, q);
      assert Pad16(p)[4] == p[4] && Pad16(q)[4] == q[4];
    }
  }

  lemma AttemptsBelowFourDiffer(c: Crypto, secret: Key, sender: Key, dstHash: nat, text: Data, timestamp: nat,
                                a: nat, b: nat)
    requires Sound(c) && a < 4 && b < 4 && a != b
    ensures Encode(c, secret, sender, dstHash, text, timestamp, a, 0).0
         != Encode(c, secret, sender, dstHash, text, timestamp, b, 0).0
  {
    assert a % 4 == a && b % 4 == b;
    AttemptsDiffer(c, secret, sender, dstHash, text, timestamp, a, b);
  }

  // ---- PATH returns ----

  function PathPlaintext(path: Data, pathLenRaw: nat, ack: Data): Data {
    [pathLenRaw % 256] + path + [PATH_EXTRA_ACK] + ack
  }

  function BuildPathAck(c: Crypto, secret: Key, dstHash: nat, src: Key, path: Data, pathLenRaw: nat, ack: Data): Data {
    Sealed(c, secret, src, dstHash, PathPlaintext(path, pathLenRaw, ack))
  }

  datatype PathReturn = PathReturn(key: Key, srcHash: Byte, path: Data, pathLenRaw: Byte, ackHash: Option<Data>)

  /** pt[i..j], cut off at the end as a slice is in the source */
  function Cut(s: Data, i: nat, j: nat): (r: Data)
    requires i <= j
    ensures |r| <= j - i
  {
    if i >= |s| then [] else if j >= |s| then s[i..] else s[i..j]
  }

  function ParsePath(key: Key, srcHash: Byte, pt: Data): Option<PathReturn> {
    if |pt| < 1 then None
    else
      var i := 1 + P.PathByteLen(pt[0]);
      var path := Cut(pt, 1, i);
      var ack := if |pt| > i && pt[i] == PATH_EXTRA_ACK && |pt| >= i + 5 then Some(pt[i + 1..i + 5]) else None;
      Some(PathReturn(key, srcHash, path, pt[0], ack))
  }

  function DecodePath(c: Crypto, payload: Data, selfHash: nat, candidates: seq<Candidate>): Option<PathReturn> {
    match Open(c, payload, selfHash, candidates)
    case None => None
    case Some((who, pt)) => ParsePath(who.key, payload[1], pt)
  }

  /** decode_ack: a bare ACK packet's payload starts with the ack hash. */
  function DecodeAck(payload: Data): Option<Data> {
    if |payload| < 4 then None else Some(payload[..4])
  }

  /** The six bytes that carry an ack: its hash, a zero and a random byte. */
  function Ack6(ackHash: Data, random: Byte): Data { ackHash + [0, random] }

  lemma BareAckRoundTrip(ackHash: Data, random: Byte)
    requires |ackHash| == 4
    ensures DecodeAck(Ack6(ackHash, random)) == Some(ackHash) && Ack6(ackHash, random)[..4] == ackHash
  {
  }

  lemma PathPlaintextParses(key: Key, srcHash: Byte, path: Data, pathLenRaw: Byte, ack: Data)
    requires |path| == P.PathByteLen(pathLenRaw) && |ack| >= 4
    ensures ParsePath(key, srcHash, Pad16(PathPlaintext(path, pathLenRaw, ack)))
         == Some(PathReturn(key, srcHash, path, pathLenRaw, Some(ack[..4])))
  {
    var core := PathPlaintext(path, pathLenRaw, ack);
    var pt := Pad16(core);
    var i := 1 + |path|;
    assert pt[0] == pathLenRaw;
    assert pt[1..i] == path;
    assert pt[i] == PATH_EXTRA_ACK;
    assert pt[i + 1..i + 5] == ack[..4];
  }

  /** decode_path of build_path_ack gives back the path and the ack hash. */
  lemma PathRoundTrip(c: Crypto, secret: Key, src: Key, dstHash: nat, path: Data, pathLenRaw: Byte, ack: Data,
                      candidates: seq<Candidate>, k: nat)
    requires Sound(c) && |path| == P.PathByteLen(pathLenRaw) && |ack| >= 4
    requires Identified(c, BuildPathAck(c, secret, dstHash, src, path, pathLenRaw, ack), candidates, k, src, secret)
    ensures DecodePath(c, BuildPathAck(c, secret, dstHash, src, path, pathLenRaw, ack), dstHash, candidates)
         == Some(PathReturn(src, src[0], path, pathLenRaw, Some(ack[..4])))
  {
    SealedIsOpened(c, secret, src, dstHash, PathPlaintext(path, pathLenRaw, ack), candidates, k);
    PathPlaintextParses(src, src[0], path, pathLenRaw, ack);
  }

  /** A PATH return for a path off a parsed packet, with a six-byte ack, has at most 84 bytes. */
  lemma PathAckFits(c: Crypto, secret: Key, dstHash: nat, src: Key, path: Data, pathLenRaw: nat, ack: Data)
    requires Sound(c) && |path| <= P.MAX_PATH_SIZE && |ack| == 6
    ensures |BuildPathAck(c, secret, dstHash, src, path, pathLenRaw, ack)| <= 84
  {
    SealedOpens(c, secret, PathPlaintext(path, pathLenRaw, ack));
  }

  /** The path that is read back is as long as its length byte says exactly when the plaintext is long enough. */
  lemma ParsedPathLength(key: Key, srcHash: Byte, pt: Data)
    requires |pt| >= 1
    ensures |ParsePath(key, srcHash, pt).value.path| == P.PathByteLen(pt[0]) <==> |pt| >= 1 + P.PathByteLen(pt[0])
  {
  }

  /** A length byte that the packet parser would refuse, and a path cut short, are both accepted here. */
  lemma BadPathsAreAccepted(key: Key)
    ensures var r := ParsePath(key, 7, [0xC1] + Zeros(15)).value;
            |r.path| == P.PathByteLen(r.pathLenRaw) && !P.IsValidPathLen(r.pathLenRaw)
    ensures var r := ParsePath(key, 7, [0x3F] + Zeros(15)).value;
            P.IsValidPathLen(r.pathLenRaw) && |r.path| != P.PathByteLen(r.pathLenRaw)
  {
  }
}
