/** What goes over the air, byte by byte: the keyed hash, the envelope, the four kinds of payload, and the packet. */
module Layouts {
  import opened Bytes
  import opened Bits
  import opened Envelope
  import A = Aes
  import R = Rounds
  import Channel
  import Delivery
  import Dm
  import E = EndToEnd
  import P = Packet
  import opened Protocol
  import opened Runs

  // ---- HMAC and the envelope ----

  ghost predicate Extends(k: Data, prefix: Data, n: nat) {
    |k| == n && prefix <= k && forall i :: |prefix| <= i < n ==> k[i] == 0
  }

  ghost predicate StartsMasked(s: Data, k: Data, mask: Byte)
    requires |k| == 64
  {
    |s| >= 64 && forall i :: 0 <= i < 64 ==> s[i] == Xor(k[i], mask)
  }

  /** Section 2 of RFC 2104: the key, hashed if it is longer than a block, is extended with zeros to 64 bytes; the hash
      of the message under one mask of it is hashed again under the other. */
  lemma HmacIsStandard(c: Crypto, key: Data, msg: Data) returns (k: Data, inner: Data, outer: Data)
    ensures Extends(k, if |key| > 64 then c.sha256(key) else key, 64)
    ensures StartsMasked(inner, k, 0x36) && inner[64..] == msg
    ensures StartsMasked(outer, k, 0x5C) && outer[64..] == c.sha256(inner)
    ensures Hmac(c, key, msg) == c.sha256(outer)
  {
    var short := if |key| > 64 then c.sha256(key) else key;
    k := short + Zeros(64 - |short|);
    inner := XorEach(k, 0x36) + msg;
    outer := XorEach(k, 0x5C) + c.sha256(inner);
    assert inner[64..] == msg && outer[64..] == c.sha256(inner);
  }

  /** The envelope of a plaintext: two bytes of the HMAC over the ciphertext, keyed by all of the secret; then the
      ciphertext of the plaintext and fewer than 16 zeros, keyed by half of it. */
  lemma EnvelopeIs(c: Crypto, secret: Key, plaintext: Data) returns (padded: Data, ciphertext: Data)
    ensures |padded| % 16 == 0 && |padded| < |plaintext| + 16 && Extends(padded, plaintext, |padded|)
    ensures ciphertext == c.encrypt(secret[..16], padded)
    ensures var mac := Hmac(c, secret, ciphertext);
            EncryptThenMac(c, secret, plaintext) == [mac[0], mac[1]] + ciphertext
  {
    padded := Pad16(plaintext);
    ciphertext := c.encrypt(secret[..16], padded);
    var mac := Hmac(c, secret, ciphertext);
    assert mac[..2] == [mac[0], mac[1]];
  }

  /** AES in this envelope is electronic codebook mode of the block cipher. */
  lemma AesBlocks(key: Data, l: R.Layers<A.Block>, data: Data, k: nat)
    requires |key| == 16 && l == A.Layers(A.AesTables(), A.ExpandKey(A.AesTables(), key)) && l.rounds >= 1
    requires |data| % 16 == 0 && 16 * k + 16 <= |data|
    ensures |AesEncrypt(key, data)| == |data|
    ensures AesEncrypt(key, data)[16 * k..16 * k + 16] == A.Flat(R.Encrypt(l, A.ToBlock(data[16 * k..16 * k + 16])))
  {
    AesIsEcb(key, l, data);
    A.EncryptedBlock(l, data, k);
  }

  lemma AesIsEcb(key: Data, l: R.Layers<A.Block>, data: Data)
    requires |key| == 16 && l == A.Layers(A.AesTables(), A.ExpandKey(A.AesTables(), key)) && l.rounds >= 1
    requires |data| % 16 == 0
    ensures AesEncrypt(key, data) == A.EncryptEcb(l, data)
  {
  }

  /** An envelope opens exactly when its ciphertext is whole blocks and its two bytes are the HMAC's. */
  lemma OpensIff(c: Crypto, secret: Key, mac: Data, ciphertext: Data, plaintext: Data)
    ensures MacThenDecrypt(c, secret, mac, ciphertext) == Some(plaintext)
       <==> ciphertext != [] && |ciphertext| % 16 == 0 && mac == Hmac(c, secret, ciphertext)[..2]
            && plaintext == c.decrypt(secret[..16], ciphertext)
  {
  }

  // ---- who opens a payload ----

  /** The payload names the first byte of this key, and its MAC is right under this secret. */
  ghost predicate SealedBy(c: Crypto, payload: Data, who: Candidate)
    requires |payload| >= 4
  {
    payload[1] == who.key[0] && payload[2..4] == Hmac(c, who.secret, payload[4..])[..2]
  }

  lemma {:induction false} NoneMatches(c: Crypto, candidates: seq<Candidate>, hash: Byte, mac: Data, ciphertext: Data)
    requires forall j :: 0 <= j < |candidates| ==> !Matches(c, candidates[j], hash, mac, ciphertext)
    ensures FirstMatch(c, candidates, hash, mac, ciphertext) == None
  {
    if candidates != [] {
      assert !Matches(c, candidates[0], hash, mac, ciphertext);
      forall j | 0 <= j < |candidates| - 1 ensures !Matches(c, candidates[1..][j], hash, mac, ciphertext) {
        assert candidates[1..][j] == candidates[j + 1];
      }
      NoneMatches(c, candidates[1..], hash, mac, ciphertext);
    }
  }

  lemma MatchesIs(c: Crypto, payload: Data, who: Candidate)
    requires |payload| >= 20 && |payload| % 16 == 4
    ensures Matches(c, who, payload[1], payload[2..4], payload[4..]) <==> SealedBy(c, payload, who)
    ensures SealedBy(c, payload, who) ==>
              MacThenDecrypt(c, who.secret, payload[2..4], payload[4..])
              == Some(c.decrypt(who.secret[..16], payload[4..]))
  {
  }

  /** The first candidate that sealed the payload. */
  ghost predicate FirstSealer(c: Crypto, payload: Data, candidates: seq<Candidate>, k: nat)
    requires |payload| >= 4
  {
    && k < |candidates| && SealedBy(c, payload, candidates[k])
    && forall j :: 0 <= j < k ==> !SealedBy(c, payload, candidates[j])
  }

  /** Direct messages and PATH returns open for the first candidate that sealed them, if they are addressed to our hash
      byte and hold whole blocks, and not otherwise. */
  lemma OpenIs(c: Crypto, payload: Data, selfHash: nat, candidates: seq<Candidate>)
    ensures var got := Dm.Open(c, payload, selfHash, candidates);
            if |payload| < 20 || |payload| % 16 != 4 || payload[0] != selfHash % 256 then got == None
            else if exists k: nat :: FirstSealer(c, payload, candidates, k) then
              exists k: nat :: FirstSealer(c, payload, candidates, k)
                          && got == Some((candidates[k], c.decrypt(candidates[k].secret[..16], payload[4..])))
            else got == None
  {
    if |payload| >= 20 {
      if |payload| % 16 != 4 {
        NoneMatches(c, candidates, payload[1], payload[2..4], payload[4..]);
      } else {
        forall j | 0 <= j < |candidates|
          ensures Matches(c, candidates[j], payload[1], payload[2..4], payload[4..])
             <==> SealedBy(c, payload, candidates[j])
        {
          MatchesIs(c, payload, candidates[j]);
        }
        if k: nat :| FirstSealer(c, payload, candidates, k) {
          FirstMatchIs(c, candidates, k, payload[1], payload[2..4], payload[4..]);
          MatchesIs(c, payload, candidates[k]);
        } else {
          NobodySealed(c, payload, candidates, |candidates|);
          NoneMatches(c, candidates, payload[1], payload[2..4], payload[4..]);
        }
      }
    }
  }

  lemma {:induction false} NobodySealed(c: Crypto, payload: Data, candidates: seq<Candidate>, n: nat)
    requires |payload| >= 4 && n <= |candidates| && !exists k: nat :: FirstSealer(c, payload, candidates, k)
    ensures forall j :: 0 <= j < n ==> !SealedBy(c, payload, candidates[j])
  {
    if n > 0 {
      NobodySealed(c, payload, candidates, n - 1);
      assert !FirstSealer(c, payload, candidates, n - 1);
    }
  }

  lemma {:induction false} NoChannelMatches(c: Crypto, channels: seq<Channel.Channel>, hash: Byte, mac: Data,
                                            ciphertext: Data)
    requires forall j :: 0 <= j < |channels| ==> !Channel.Matches(c, channels[j], hash, mac, ciphertext)
    ensures Channel.FirstChannel(c, channels, hash, mac, ciphertext) == None
  {
    if channels != [] {
      assert !Channel.Matches(c, channels[0], hash, mac, ciphertext);
      forall j | 0 <= j < |channels| - 1 ensures !Channel.Matches(c, channels[1..][j], hash, mac, ciphertext) {
        assert channels[1..][j] == channels[j + 1];
      }
      NoChannelMatches(c, channels[1..], hash, mac, ciphertext);
    }
  }

  /** The payload names this channel's hash byte, and its MAC is right under the channel's secret. */
  ghost predicate SentOn(c: Crypto, payload: Data, ch: Channel.Channel)
    requires |payload| >= 3
  {
    payload[0] == Channel.HashOf(c, ch) && payload[1..3] == Hmac(c, ch.secret, payload[3..])[..2]
  }

  /** A channel payload that is too short, or no whole blocks, or on none of our channels, is not decoded. */
  lemma OtherChannelsDecline(c: Crypto, payload: Data, channels: seq<Channel.Channel>)
    requires |payload| < 19 || |payload| % 16 != 3
             || forall j :: 0 <= j < |channels| ==> !SentOn(c, payload, channels[j])
    ensures Channel.Decode(c, payload, channels) == None
  {
    if |payload| >= 19 && |payload| % 16 == 3 {
      forall j | 0 <= j < |channels|
        ensures !Channel.Matches(c, channels[j], payload[0], payload[1..3], payload[3..])
      {
        assert !SentOn(c, payload, channels[j]);
      }
      NoChannelMatches(c, channels, payload[0], payload[1..3], payload[3..]);
    }
  }

  /** What a plaintext must hold to be read: five bytes; on a channel plain text only; in a PATH return an ack only if
      it is marked, and whole. */
  lemma PlaintextsRead(c: Crypto, key: Key, h: Byte, name: Data, pt: Data)
    ensures Dm.ParsePlaintext(c, key, h, h, pt) == None <==> |pt| < 5
    ensures Channel.ParsePlaintext(name, pt) == None <==> |pt| < 5 || pt[4] >= 4
    ensures Dm.ParsePath(key, h, pt) == None <==> |pt| == 0
    ensures |pt| > 0 ==>
              var i := 1 + pt[0] % 64 * (pt[0] / 64 + 1);
              Dm.ParsePath(key, h, pt).value.ackHash
              == if |pt| >= i + 5 && pt[i] == 3 then Some([pt[i + 1], pt[i + 2], pt[i + 3], pt[i + 4]]) else None
  {
    if |pt| > 0 {
      var i := 1 + P.PathByteLen(pt[0]);
      if |pt| >= i + 5 {
        assert pt[i + 1..i + 5] == [pt[i + 1], pt[i + 2], pt[i + 3], pt[i + 4]];
      }
    }
  }

  // ---- the payloads ----

  lemma LittleOfFour(a: Byte, b: Byte, c: Byte, d: Byte)
    ensures FromLittle([a, b, c, d]) == Dm.FromU32([a, b, c, d])
  {
    assert [a, b, c, d][1..] == [b, c, d] && [b, c, d][1..] == [c, d] && [c, d][1..] == [d] && [d][1..] == [];
    assert FromLittle([d]) == d && FromLittle([c, d]) == c + 256 * FromLittle([d]);
    assert FromLittle([b, c, d]) == b + 256 * FromLittle([c, d]);
  }

  lemma TimeField(t: nat)
    ensures FromLittle(Dm.U32(t)) == t % 0x1_0000_0000
  {
    var s := Dm.U32(t);
    assert s == [s[0], s[1], s[2], s[3]];
    LittleOfFour(s[0], s[1], s[2], s[3]);
    Dm.U32RoundTrip(t);
  }

  /** The time modulo 2^32 in the first four bytes, the lowest first; then this byte; then the rest. */
  ghost predicate Timed(pt: Data, timestamp: nat, flags: nat, rest: Data) {
    |pt| >= 5 && FromLittle(pt[..4]) == timestamp % 0x1_0000_0000 && pt[4] == flags && pt[5..] == rest
  }

  /** A direct message: two hash bytes and the envelope of time, attempt and type, and text. Its ack is four bytes of
      the hash over that plaintext and the sender's key. */
  lemma DmIs(c: Crypto, secret: Key, sender: Key, dstHash: nat, text: Data, timestamp: nat, attempt: nat, txtType: nat)
    returns (pt: Data)
    requires txtType < 64
    ensures Timed(pt, timestamp, 4 * txtType + attempt % 4, text)
    ensures var (payload, ack) := Dm.Encode(c, secret, sender, dstHash, text, timestamp, attempt, txtType);
            payload == [dstHash % 256, sender[0]] + EncryptThenMac(c, secret, pt) && ack == c.sha256(pt + sender)[..4]
  {
    pt := Dm.Plaintext(timestamp, text, attempt, txtType);
    assert pt[..4] == Dm.U32(timestamp) && pt[5..] == text;
    TimeField(timestamp);
  }

  /** A channel's hash byte, before the envelope of time, a zero, sender and text. A 16-byte key is stored with 16 zeros
      after it, and hashed without them. */
  lemma GroupIs(c: Crypto, ch: Channel.Channel, sender: Data, text: Data, timestamp: nat) returns (pt: Data, key: Data)
    ensures Timed(pt, timestamp, 0, sender + [0x3A, 0x20] + text)
    ensures key <= ch.secret && |key| == if forall i :: 16 <= i < 32 ==> ch.secret[i] == 0 then 16 else 32
    ensures Channel.Encode(c, ch, sender, text, timestamp) == [c.sha256(key)[0]] + EncryptThenMac(c, ch.secret, pt)
  {
    pt := Channel.Plaintext(sender, text, timestamp);
    assert pt[..4] == Dm.U32(timestamp) && pt[5..] == sender + [0x3A, 0x20] + text;
    TimeField(timestamp);
    var half := ch.secret[16..];
    assert half == Zeros(16) <==> forall i :: 16 <= i < 32 ==> ch.secret[i] == 0 by {
      assert forall i :: 0 <= i < 16 ==> half[i] == ch.secret[i + 16];
      assert forall i :: 16 <= i < 32 ==> ch.secret[i] == half[i - 16];
    }
    key := if half == Zeros(16) then ch.secret[..16] else ch.secret;
  }

  /** A PATH return: two hash bytes and the envelope of the length byte, the path, the mark 3 and the ack. */
  lemma PathReturnIs(c: Crypto, secret: Key, dstHash: nat, src: Key, path: Data, raw: Byte, ack: Data)
    ensures Dm.BuildPathAck(c, secret, dstHash, src, path, raw, ack)
         == [dstHash % 256, src[0]] + EncryptThenMac(c, secret, [raw] + path + [3] + ack)
  {
  }

  /** The two answers to a direct message: its ack hash, a zero and a random byte, bare or in a PATH return. */
  lemma AnswerIs(c: Crypto, got: Dm.Message, form: E.Form)
    requires form.Return? ==> form.raw < 256
    ensures var payload := E.AnswerTo(c, got, form).payload; var ack := got.ackHash + [0, form.random];
            payload == match form
              case Bare(_) => ack
              case Return(_, secret, self, path, raw) =>
                [got.srcHash, self[0]] + EncryptThenMac(c, secret, [raw] + path + [3] + ack)
  {
    if form.Return? {
      PathReturnIs(c, form.secret, got.srcHash, form.self, form.path, form.raw, got.ackHash + [0, form.random]);
    }
  }

  /** What the manager gives the two encoders for an attempt: the secret, our key and the hash byte of the contact; or
      the channel, our nickname, and the time moved on by the attempt. */
  lemma AttemptIs(c: Crypto, n: Delivery.Node, w: Wire, m: Msg, attempt: nat, hash: nat)
    requires w == Delivery.Codecs(c, n)
    requires m.kind.Direct? ==> hash == if |m.kind.peer| > 0 then m.kind.peer[0] as nat else 0
    ensures PayloadOf(w, m, attempt)
         == if m.kind.Direct? then Dm.Encode(c, n.secretOf(m.kind.peer), n.key, hash, m.text, m.ts, attempt, 0).0
            else Channel.Encode(c, n.channelOf(m.kind.name), n.nickname, m.text, m.ts + attempt)
  {
    Delivery.CodecsEncode(c, n, w, m, attempt);
  }

  // ---- packets ----

  function CodesLength(header: nat): nat { if header % 4 == 0 || header % 4 == 3 then 4 else 0 }

  /** What a packet may hold. */
  lemma WellFormedIs(p: P.Packet)
    ensures P.WellFormed(p) <==>
              && p.header < 256 && p.pathLenRaw < 192
              && |p.path| == p.pathLenRaw % 64 * (p.pathLenRaw / 64 + 1) <= 64 && 1 <= |p.payload| <= 184
              && (if CodesLength(p.header) == 4 then p.code0 < 65536 && p.code1 < 65536 else p.code0 == p.code1 == 0)
  {
  }

  lemma CodeField(n: nat)
    requires n < 65536
    ensures FromLittle(P.U16(n)) == n
  {
    var s := P.U16(n);
    assert s[1..] == [s[1]] && s[1..][1..] == [];
    assert FromLittle(s[1..]) == s[1];
  }

  /** A packet in bytes: the header, the two codes of a transport route, the length byte, the path and the payload. */
  lemma PacketIs(p: P.Packet)
    requires P.WellFormed(p)
    ensures var d := P.ToBytes(p); var i := 1 + CodesLength(p.header); var j := i + 1 + |p.path|;
            && |d| == j + |p.payload| && d[0] == p.header && d[i] == p.pathLenRaw && d[i + 1..j] == p.path
            && d[j..] == p.payload
            && (i == 5 ==> FromLittle(d[1..3]) == p.code0 && FromLittle(d[3..5]) == p.code1)
  {
    var d := P.ToBytes(p);
    if CodesLength(p.header) == 4 {
      CodeField(p.code0);
      CodeField(p.code1);
      assert d == [p.header] + P.U16(p.code0) + P.U16(p.code1) + [p.pathLenRaw] + p.path + p.payload;
      assert d[1..3] == P.U16(p.code0) && d[3..5] == P.U16(p.code1);
    } else {
      assert d == [p.header] + [p.pathLenRaw] + p.path + p.payload;
    }
  }

  /** Which error a packet that does not parse gives: the first of these that applies. */
  function ErrorOf(d: Data): Option<P.ParseError> {
    var i := if d == [] then 1 else 1 + CodesLength(d[0]);
    if |d| < 2 then Some(P.TooShort)
    else if |d| < i then Some(P.TruncatedCodes)
    else if |d| == i then Some(P.MissingPathLen)
    else
      var n := d[i] % 64 * (d[i] / 64 + 1);
      if d[i] >= 192 || n > 64 then Some(P.InvalidPathLen)
      else if |d| < i + 1 + n then Some(P.PathOverruns)
      else if |d| == i + 1 + n then Some(P.MissingPayload)
      else if |d| > i + 1 + n + 184 then Some(P.PayloadTooLong)
      else None
  }

  lemma ErrorsAre(d: Data)
    ensures if ErrorOf(d) == None then P.Parse(d).Ok? else P.Parse(d) == P.Err(ErrorOf(d).value)
  {
  }

  // ---- packet hashes ----

  /** A packet is hashed over its type and payload; a trace also over its path byte, in two bytes. */
  lemma HashedBytes(p: P.Packet)
    requires p.header < 256 && p.pathLenRaw < 256
    ensures var t := p.header / 4 % 16;
            P.HashInput(p) == (if t == 9 then [t, p.pathLenRaw, 0] else [t]) + p.payload
  {
  }

  /** The hash by which a channel message is recognized is the packet hash of every copy of it, whatever its route. */
  lemma EchoHashIs(c: Crypto, n: Delivery.Node, p: P.Packet)
    requires P.PayloadType(p.header) == 5
    ensures Delivery.Codecs(c, n).hash(5, p.payload) == c.sha256(P.HashInput(p))[..8]
  {
    assert [5] + [] + p.payload == [5] + p.payload;
  }

  /** And the hash that is remembered of an answer is the packet hash of every copy of that answer. */
  lemma AnswerHashIs(c: Crypto, got: Dm.Message, form: E.Form, p: P.Packet)
    requires P.PayloadType(p.header) == (if form.Bare? then 3 else 8) && p.payload == E.AnswerTo(c, got, form).payload
    ensures E.AnswerTo(c, got, form).hash == c.sha256(P.HashInput(p))[..8]
  {
    var t := P.PayloadType(p.header);
    assert [t] + [] + p.payload == [t] + p.payload;
  }
}
