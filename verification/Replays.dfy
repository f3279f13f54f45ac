/** What the receiver's two bounded tables forget: the echo of an own message, and a message shown twice. */
module Replays {
  import opened Bytes
  import opened Envelope
  import opened Tables
  import opened EndToEnd
  import Channel

  // ---- the echo of a channel message of our own ----

  lemma {:induction false} NeverEntered(r: Receiver, arrivals: seq<Arrival>, key: MsgKey)
    requires key !in r.shown.entered
    requires forall j :: 0 <= j < |arrivals| && arrivals[j].Text? ==> arrivals[j].key != key
    ensures key !in ArriveAll(r, arrivals).shown.entered
    decreases |arrivals|
  {
    if arrivals != [] {
      NeverEntered(r, arrivals[..|arrivals| - 1], key);
    }
  }

  /** The echo a of a packet with hash h is shown exactly when 64 hashes or more were accepted since h was. */
  ghost predicate ShownIffForgotten(g: Receiver, h: Data, a: Arrival, e: Entry) {
    if |g.accepted| - LastHeard(g.accepted, h) >= 64 then Arrive(g, a).chat == g.chat + [e]
    else Arrive(g, a) == g
  }

  /** A packet of our own is remembered when it is queued. Whatever arrives afterwards, its echo is taken for a new
      message, and shown, exactly when at least 64 hashes were accepted since its own was; until then it is dropped,
      which is when _note_echo sees it. Sending does not enter the message in _recent, so nothing else stops it. */
  lemma OwnEchoIsShownIff(r: Receiver, h: Data, arrivals: seq<Arrival>, key: MsgKey, ts: nat)
    requires key !in r.shown.entered
    requires forall j :: 0 <= j < |arrivals| && arrivals[j].Text? ==> arrivals[j].key != key
    ensures var g := ArriveAll(Arrive(r, Other(h)), arrivals);
            ShownIffForgotten(g, h, Text(h, key, ts, None), Entry(key, ts))
  {
    var g := ArriveAll(Arrive(r, Other(h)), arrivals);
    NeverEntered(Arrive(r, Other(h)), arrivals, key);
    QueuedIsHeard(r, h, arrivals);
    InWindowIff(g.accepted, MAX_RECENT, h);
  }

  lemma {:induction false} QueuedIsHeard(r: Receiver, h: Data, arrivals: seq<Arrival>)
    ensures h in ArriveAll(Arrive(r, Other(h)), arrivals).accepted
    decreases |arrivals|
  {
    if arrivals != [] {
      QueuedIsHeard(r, h, arrivals[..|arrivals| - 1]);
    }
  }

  /** Through the codec: the echo a of any attempt of ours comes back as our own text under our own nickname. */
  lemma OwnGroupEchoIsShownIff(c: Crypto, m: SentGroup, channels: seq<Channel.Channel>, k: nat, a: Arrival,
                               r: Receiver, arrivals: seq<Arrival>)
    requires Sound(c) && Sendable(m) && IsGroupAttempt(c, m, channels, k, a)
    requires GroupKey(m) !in r.shown.entered
    requires forall j :: 0 <= j < |arrivals| && arrivals[j].Text? ==> arrivals[j].key != GroupKey(m)
    ensures var g := ArriveAll(Arrive(r, Other(a.hash)), arrivals);
            a.Text? && ShownIffForgotten(g, a.hash, a, Entry(GroupKey(m), a.ts))
  {
    GroupAttemptArrives(c, m, channels, k, a);
    OwnEchoIsShownIff(r, a.hash, arrivals, GroupKey(m), a.ts);
  }

  // ---- a run in which a message is shown twice ----

  const EMPTY := Receiver([], Shown([], map[]), [], [])

  function OtherKey(i: Byte): MsgKey { DmKey([], [i]) }

  function Filler(i: Byte): Arrival { Text([i], OtherKey(i), 0, None) }

  function Fillers(n: nat): (s: seq<Arrival>)
    requires n <= MAX_RECENT
    ensures |s| == n && forall i :: 0 <= i < n ==> s[i] == Filler(i)
  {
    seq(n, i requires 0 <= i < n => Filler(i))
  }

  /** What a first message and n others leave behind. */
  ghost predicate Filled(g: Receiver, key: MsgKey, n: nat) {
    && |g.accepted| == n + 1 && g.accepted[0] == [0, 0] && (forall i: Byte :: i < n ==> g.accepted[i + 1] == [i])
    && |g.shown.entered| == n + 1 && g.shown.entered[0] == key
    && (forall i: Byte :: i < n ==> g.shown.entered[i + 1] == OtherKey(i))
    && key in g.shown.latest && g.shown.latest[key] == 0
    && |g.chat| == n + 1
  }

  lemma FilledFirst(key: MsgKey)
    ensures Filled(ArriveAll(EMPTY, [Text([0, 0], key, 0, None)]), key, 0)
  {
    var first := Text([0, 0], key, 0, None);
    assert [first][..0] == [];
    assert ArriveAll(EMPTY, [first]) == Arrive(EMPTY, first);
  }

  lemma FilledNext(g: Receiver, key: MsgKey, n: nat)
    requires Filled(g, key, n) && n < MAX_RECENT - 1 && forall i: Byte :: key != OtherKey(i)
    ensures Filled(Arrive(g, Filler(n)), key, n + 1)
  {
    forall i | 0 <= i < |g.accepted| ensures g.accepted[i] != [n] {
      if i > 0 {
        assert g.accepted[(i - 1) + 1] == [i - 1];
      }
    }
    forall i | 0 <= i < |g.shown.entered| ensures g.shown.entered[i] != OtherKey(n) {
      if i > 0 {
        assert g.shown.entered[(i - 1) + 1] == OtherKey(i - 1);
      }
    }
  }

  lemma {:induction false} FilledAll(key: MsgKey, n: nat)
    requires n < MAX_RECENT && forall i: Byte :: key != OtherKey(i)
    ensures Filled(ArriveAll(EMPTY, [Text([0, 0], key, 0, None)] + Fillers(n)), key, n)
  {
    var first := [Text([0, 0], key, 0, None)];
    if n == 0 {
      FilledFirst(key);
      assert first + Fillers(0) == first;
    } else {
      var all := first + Fillers(n);
      assert all[..|all| - 1] == first + Fillers(n - 1);
      FilledAll(key, n - 1);
      FilledNext(ArriveAll(EMPTY, first + Fillers(n - 1)), key, n - 1);
    }
  }

  /** A text was sent at time 0, then came 63 others. It is sent again at time 9, and between two attempts of that one
      there is one new message: both attempts are shown. */
  function TwiceShown(key: MsgKey): seq<Arrival> {
    [Text([0, 0], key, 0, None)] + Fillers(63)
    + [Text([0, 1], key, 9, None)] + [Text([0, 2], OtherKey(63), 0, None)] + [Text([0, 3], key, 9, None)]
  }

  lemma LastThree(g: Receiver, key: MsgKey)
    requires Filled(g, key, 63) && WindowOf(key) < 9 && forall i: Byte :: key != OtherKey(i)
    ensures var g1 := Arrive(g, Text([0, 1], key, 9, None));
            var g2 := Arrive(g1, Text([0, 2], OtherKey(63), 0, None));
            Arrive(g2, Text([0, 3], key, 9, None)).chat
            == g.chat + [Entry(key, 9)] + [Entry(OtherKey(63), 0)] + [Entry(key, 9)]
  {
    var g1 := Arrive(g, Text([0, 1], key, 9, None));
    NotAmong(g, key);
    ShownTwice(g.shown, key, OtherKey(63), 9, 0);
  }

  lemma NotAmong(g: Receiver, key: MsgKey)
    requires Filled(g, key, 63) && forall i: Byte :: key != OtherKey(i)
    ensures key !in g.shown.entered[1..] && OtherKey(63) !in g.shown.entered
    ensures forall b: Byte :: b > 0 ==> [0, b] !in g.accepted
  {
    forall i | 0 <= i < 64 ensures (i > 0 ==> g.shown.entered[i] != key) && g.shown.entered[i] != OtherKey(63) {
      if i > 0 {
        assert g.shown.entered[(i - 1) + 1] == OtherKey(i - 1);
      }
    }
    forall i, b: Byte | 0 <= i < 64 && b > 0 ensures g.accepted[i] != [0, b] {
      if i > 0 {
        assert g.accepted[(i - 1) + 1] == [i - 1];
      }
    }
  }

  lemma ArriveMore(r: Receiver, arrivals: seq<Arrival>, a: Arrival)
    ensures ArriveAll(r, arrivals + [a]) == Arrive(ArriveAll(r, arrivals), a)
  {
    assert (arrivals + [a])[..|arrivals|] == arrivals;
  }

  /** The whole run, from a receiver that has heard nothing yet. */
  lemma RunShownTwice(key: MsgKey)
    requires forall i: Byte :: key != OtherKey(i)
    ensures var chat := ArriveAll(EMPTY, TwiceShown(key)).chat;
            |chat| == 67 && chat[64] == Entry(key, 9) && chat[66] == Entry(key, 9)
  {
    var before := [Text([0, 0], key, 0, None)] + Fillers(63);
    var (a, b, d) := (Text([0, 1], key, 9, None), Text([0, 2], OtherKey(63), 0, None), Text([0, 3], key, 9, None));
    FilledAll(key, 63);
    ArriveMore(EMPTY, before, a);
    ArriveMore(EMPTY, before + [a], b);
    ArriveMore(EMPTY, before + [a] + [b], d);
    LastThree(ArriveAll(EMPTY, before), key);
  }
}
