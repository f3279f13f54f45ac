/** Group text: a channel's members decode what one of them encodes. */
module Channel {
  import opened Bytes
  import opened Envelope
  import Dm

  const COLON: Byte := 0x3A
  const SPACE: Byte := 0x20

  /** A channel as its members know it; the hash byte is derived from the secret. */
  datatype Channel = Channel(name: Data, secret: Key)

  /** A 16-byte key is hashed on its own, a 32-byte key whole. */
  function HashOf(c: Crypto, ch: Channel): Byte {
    c.sha256(if ch.secret[16..] == Zeros(16) then ch.secret[..16] else ch.secret)[0]
  }

  /** "sender: text" */
  function Body(sender: Data, text: Data): Data {
    sender + [COLON, SPACE] + text
  }

  function Plaintext(sender: Data, text: Data, timestamp: nat): (r: Data)
    ensures |r| == 7 + |sender| + |text|
  {
    Dm.U32(timestamp) + [0] + Body(sender, text)
  }

  function Encode(c: Crypto, ch: Channel, sender: Data, text: Data, timestamp: nat): Data {
    [HashOf(c, ch)] + EncryptThenMac(c, ch.secret, Plaintext(sender, text, timestamp))
  }

  /** Where ": " first occurs, or the length: find(": "). */
  function Separator(s: Data): (i: nat)
    ensures i <= |s| && (i < |s| ==> i + 1 < |s| && s[i] == COLON && s[i + 1] == SPACE)
    ensures forall j :: 0 <= j < i && j + 1 < |s| ==> !(s[j] == COLON && s[j + 1] == SPACE)
  {
    if s == [] then 0
    else if |s| >= 2 && s[0] == COLON && s[1] == SPACE then 0
    else
      SeparatorTail(s);
      1 + Separator(s[1..])
  }

  lemma SeparatorTail(s: Data)
    requires |s| > 0
    ensures forall j :: 0 <= j < |s| - 1 ==> s[1..][j] == s[j + 1]
  {
  }

  datatype GroupText = GroupText(channel: Data, timestamp: nat, sender: Data, text: Data)

  function ParsePlaintext(name: Data, pt: Data): Option<GroupText> {
    if |pt| < 5 then None
    else if pt[4] / 4 != 0 then None
    else
      var raw := UntilNul(pt[5..]);
      var i := Separator(raw);
      if i < |raw| then Some(GroupText(name, Dm.FromU32(pt[..4]), raw[..i], raw[i + 2..]))
      else Some(GroupText(name, Dm.FromU32(pt[..4]), [], raw))
  }

  ghost predicate Matches(c: Crypto, ch: Channel, hash: Byte, mac: Data, ciphertext: Data) {
    HashOf(c, ch) == hash && Mac(c, ch.secret, ciphertext) == mac
  }

  /** The first channel whose hash and MAC match parses what it decrypts to. */
  function FirstChannel(c: Crypto, channels: seq<Channel>, hash: Byte, mac: Data, ciphertext: Data): Option<GroupText> {
    if channels == [] then None
    else if HashOf(c, channels[0]) != hash then FirstChannel(c, channels[1..], hash, mac, ciphertext)
    else if Mac(c, channels[0].secret, ciphertext) != mac then FirstChannel(c, channels[1..], hash, mac, ciphertext)
    else ParsePlaintext(channels[0].name, c.decrypt(channels[0].secret[..16], ciphertext))
  }

  function Decode(c: Crypto, payload: Data, channels: seq<Channel>): Option<GroupText> {
    if |payload| < 19 then None
    else if (|payload| - 3) % 16 != 0 then None
    else FirstChannel(c, channels, payload[0], payload[1..3], payload[3..])
  }

  lemma {:induction false} FirstChannelIs(c: Crypto, channels: seq<Channel>, k: nat, hash: Byte, mac: Data,
                                          ciphertext: Data)
    requires k < |channels| && Matches(c, channels[k], hash, mac, ciphertext)
    requires forall j :: 0 <= j < k ==> !Matches(c, channels[j], hash, mac, ciphertext)
    ensures FirstChannel(c, channels, hash, mac, ciphertext)
         == ParsePlaintext(channels[k].name, c.decrypt(channels[k].secret[..16], ciphertext))
  {
    if k > 0 {
      assert !Matches(c, channels[0], hash, mac, ciphertext);
      forall j | 0 <= j < k - 1 ensures !Matches(c, channels[1..][j], hash, mac, ciphertext) {
        assert channels[1..][j] == channels[j + 1];
      }
      FirstChannelIs(c, channels[1..], k - 1, hash, mac, ciphertext);
    }
  }

  /** s does not contain ": ". */
  ghost predicate Separable(s: Data) {
    forall j :: 0 <= j && j + 1 < |s| ==> !(s[j] == COLON && s[j + 1] == SPACE)
  }

  /** The separator of a body is the one that was put there, exactly when the sender holds none. */
  lemma SeparatorOfBody(sender: Data, text: Data)
    ensures Separator(Body(sender, text)) <= |sender|
    ensures Separator(Body(sender, text)) == |sender| <==> Separable(sender)
  {
    var s := Body(sender, text);
    var i, n := Separator(s), |sender|;
    assert s[n] == COLON && s[n + 1] == SPACE;
    assert i <= n;
    assert s[..n] == sender;
    if i == n {
      forall j | 0 <= j && j + 1 < n ensures !(sender[j] == COLON && sender[j + 1] == SPACE) {
        assert s[j] == sender[j] && s[j + 1] == sender[j + 1];
      }
    } else {
      assert s[i] == sender[i];
      assert s[n] != SPACE;
      assert i + 1 < n;
      assert s[i + 1] == sender[i + 1];
    }
  }

  lemma PlaintextParses(name: Data, sender: Data, text: Data, timestamp: nat)
    ensures var got := ParsePlaintext(name, Pad16(Plaintext(sender, text, timestamp)));
            var raw := UntilNul(Body(sender, text));
            var i := Separator(raw);
            && got.Some? && got.value.channel == name && got.value.timestamp == timestamp % 0x1_0000_0000
            && got.value.sender == (if i < |raw| then raw[..i] else [])
            && got.value.text == (if i < |raw| then raw[i + 2..] else raw)
  {
    var core := Plaintext(sender, text, timestamp);
    var n := -|core| % 16;
    HeadAndRest(Dm.U32(timestamp), 0, Body(sender, text), Zeros(n), Pad16(core));
    Dm.U32RoundTrip(timestamp);
    UntilNulOfPadded(Body(sender, text), n);
  }

  lemma HeadAndRest(head: Data, b: Byte, body: Data, pad: Data, pt: Data)
    requires |head| == 4 && pt == head + [b] + body + pad
    ensures pt[..4] == head && pt[4] == b && pt[5..] == body + pad
  {
  }

  lemma PartsAreNulFree(s: Data, i: nat)
    requires i + 2 <= |s| && 0 !in s
    ensures 0 !in s[..i] && 0 !in s[i + 2..]
  {
  }

  /** Splitting gives back sender and text exactly when neither holds a NUL and the sender no ": ". */
  lemma SplitsBack(sender: Data, text: Data)
    ensures var raw := UntilNul(Body(sender, text));
            var i := Separator(raw);
            ((if i < |raw| then raw[..i] else []) == sender && (if i < |raw| then raw[i + 2..] else raw) == text)
            <==> (0 !in sender && 0 !in text && Separable(sender))
  {
    var s := Body(sender, text);
    var raw := UntilNul(s);
    var i := Separator(raw);
    if 0 !in sender && 0 !in text {
      assert 0 !in s;
      Dm.UntilNulIsAll(s);
      SeparatorOfBody(sender, text);
      assert s[..|sender|] == sender && s[|sender| + 2..] == text;
    } else if i < |raw| {
      PartsAreNulFree(raw, i);
    }
  }

  /** got is a message of this channel and time, and it is this sender's text exactly when it can be. */
  ghost predicate Reads(got: Option<GroupText>, name: Data, sender: Data, text: Data, timestamp: nat) {
    && got.Some? && got.value.channel == name && got.value.timestamp == timestamp % 0x1_0000_0000
    && ((got.value.sender == sender && got.value.text == text)
        <==> (0 !in sender && 0 !in text && Separable(sender)))
  }

  lemma PlaintextReads(name: Data, sender: Data, text: Data, timestamp: nat)
    ensures Reads(ParsePlaintext(name, Pad16(Plaintext(sender, text, timestamp))), name, sender, text, timestamp)
  {
    PlaintextParses(name, sender, text, timestamp);
    SplitsBack(sender, text);
  }

  /** ch is channels[k], and no channel before it takes the payload for its own. */
  ghost predicate Identified(c: Crypto, payload: Data, channels: seq<Channel>, k: nat, ch: Channel) {
    && k < |channels| && channels[k] == ch && |payload| >= 3
    && forall j :: 0 <= j < k ==> !Matches(c, channels[j], payload[0], payload[1..3], payload[3..])
  }

  lemma DecodesToParse(c: Crypto, ch: Channel, sender: Data, text: Data, timestamp: nat, channels: seq<Channel>, k: nat)
    requires Sound(c) && Identified(c, Encode(c, ch, sender, text, timestamp), channels, k, ch)
    ensures Decode(c, Encode(c, ch, sender, text, timestamp), channels)
         == ParsePlaintext(ch.name, Pad16(Plaintext(sender, text, timestamp)))
  {
    var core := Plaintext(sender, text, timestamp);
    var e := EncryptThenMac(c, ch.secret, core);
    var p := Encode(c, ch, sender, text, timestamp);
    SealedOpens(c, ch.secret, core);
    AfterFirst(HashOf(c, ch), e, p);
    assert Matches(c, ch, p[0], p[1..3], p[3..]);
    FirstChannelIs(c, channels, k, p[0], p[1..3], p[3..]);
  }

  lemma AfterFirst(b: Byte, e: Data, p: Data)
    requires p == [b] + e && |e| >= 2
    ensures p[0] == b && p[1..3] == e[..2] && p[3..] == e[2..]
  {
  }

  /** decode_group_text of encode_group_text: the channel and the timestamp come back, and sender and
      text do exactly when neither holds a NUL and the sender holds no ": ". */
  lemma GroupRoundTrip(c: Crypto, ch: Channel, sender: Data, text: Data, timestamp: nat, channels: seq<Channel>, k: nat)
    requires Sound(c) && Identified(c, Encode(c, ch, sender, text, timestamp), channels, k, ch)
    ensures Reads(Decode(c, Encode(c, ch, sender, text, timestamp), channels), ch.name, sender, text, timestamp)
  {
    DecodesToParse(c, ch, sender, text, timestamp, channels, k);
    PlaintextReads(ch.name, sender, text, timestamp);
  }

  /** Two resends are the same payload only if their timestamps agree modulo 2^32. */
  lemma ResendsDiffer(c: Crypto, ch: Channel, sender: Data, text: Data, t: nat, u: nat)
    requires Sound(c)
    ensures Encode(c, ch, sender, text, t) == Encode(c, ch, sender, text, u) ==> t % 0x1_0000_0000 == u % 0x1_0000_0000
  {
    var p, q := Plaintext(sender, text, t), Plaintext(sender, text, u);
    var x, y := Encode(c, ch, sender, text, t), Encode(c, ch, sender, text, u);
    assert x[1..] == EncryptThenMac(c, ch.secret, p) && y[1..] == EncryptThenMac(c, ch.secret, q);
    if x == y {
      SealingIsInjective(c, ch.secret, p, q);
      assert Pad16(p)[..4] == Dm.U32(t) && Pad16(q)[..4] == Dm.U32(u);
      Dm.U32RoundTrip(t);
      Dm.U32RoundTrip(u);
    }
  }

  lemma LaterResendDiffers(c: Crypto, ch: Channel, sender: Data, text: Data, t: nat, u: nat)
    requires Sound(c) && t < u < t + 0x1_0000_0000
    ensures Encode(c, ch, sender, text, t) != Encode(c, ch, sender, text, u)
  {
    NearbyDiffer(t, u, 0x1_0000_0000);
    ResendsDiffer(c, ch, sender, text, t, u);
  }

  lemma NearbyDiffer(t: nat, u: nat, m: nat)
    requires t < u < t + m
    ensures t % m != u % m
  {
    var e := u / m - t / m;
    assert m * e == u - t - (u % m - t % m);
    assert e <= 0 ==> m * e <= 0;
    assert e >= 1 ==> m * e >= m;
  }
}
