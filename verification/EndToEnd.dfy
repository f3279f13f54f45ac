/** Sender and receiver together: a message is sent up to four times and shown once. */
module EndToEnd {
  import opened Bytes
  import opened Envelope
  import opened Tables
  import Dm
  import Channel
  import P = Packet
  import Protocol

  /** What _dup_message compares: a DM by contact and text, a channel message by channel, sender and text. */
  datatype MsgKey = DmKey(peer: Data, text: Data) | ChannelKey(channel: Data, sender: Data, text: Data)

  function WindowOf(key: MsgKey): nat { if key.DmKey? then 0 else Protocol.CH_MAX_SENDS }

  /** The ack packet that goes out for a DM: its packet hash and its payload. */
  datatype Answer = Answer(hash: Data, payload: Data)

  /** A packet that reached us, by its hash; Text if it decoded to a message for us, with the answer we give it.
      Packets that we queue ourselves are remembered too: they are Other. */
  datatype Arrival = Text(hash: Data, key: MsgKey, ts: nat, reply: Option<Answer>) | Other(hash: Data)

  /** Hearing a means that packet hash h is remembered. */
  predicate Mentions(a: Arrival, h: Data) {
    a.hash == h || (a.Text? && a.reply.Some? && a.reply.value.hash == h)
  }

  datatype Entry = Entry(key: MsgKey, ts: nat)

  /** An ack packet that was queued, and for whom. */
  datatype Acked = Acked(key: MsgKey, payload: Data)

  /** The two tables of the receiving side, the chat entries it has shown and the ack packets it has queued. */
  datatype Receiver = Receiver(accepted: seq<Data>, shown: Shown<MsgKey>, chat: seq<Entry>, acks: seq<Acked>)

  /** The echo of our own ack will not be taken for news. */
  function Replied(accepted: seq<Data>, reply: Option<Answer>): seq<Data> {
    if reply.Some? then Remembered(accepted, reply.value.hash) else accepted
  }

  /** _ingest, with _handle_dm, _handle_group_text and _send_ack */
  function Arrive(r: Receiver, a: Arrival): Receiver {
    if !Accepts(r.accepted, a.hash) then r
    else
      var r1 := r.(accepted := Remembered(r.accepted, a.hash));
      if a.Other? then r1
      else
        r1.(accepted := Replied(r1.accepted, a.reply),
            shown := Noted(r.shown, a.key, a.ts, WindowOf(a.key)),
            chat := if IsResend(r.shown, a.key, a.ts, WindowOf(a.key)) then r.chat else r.chat + [Entry(a.key, a.ts)],
            acks := if a.reply.Some? then r.acks + [Acked(a.key, a.reply.value.payload)] else r.acks)
  }

  function ArriveAll(r: Receiver, arrivals: seq<Arrival>): Receiver {
    if arrivals == [] then r else Arrive(ArriveAll(r, arrivals[..|arrivals| - 1]), arrivals[|arrivals| - 1])
  }

  /** The receiving side on its bounded tables. */
  class Inbox {
    const seen: SeenTable<Data>
    const recent: RecentTable<MsgKey>
    var chat: seq<Entry>
    var acks: seq<Acked>

    ghost predicate Valid()
      reads this, seen, recent
    {
      seen.Valid() && recent.Valid()
    }

    ghost function Now(): Receiver
      reads this, seen, recent
    {
      Receiver(seen.accepted, recent.shown, chat, acks)
    }

    constructor ()
      ensures Valid() && fresh(seen) && fresh(recent)
      ensures Now() == Receiver([], Shown([], map[]), [], [])
    {
      seen := new SeenTable();
      recent := new RecentTable();
      chat, acks := [], [];
    }

    /** _ingest for a packet that parsed: a repeat is dropped, a resend is acked but not shown, and the ack that goes
        out is remembered. */
    method Ingest(a: Arrival)
      requires Valid()
      modifies this, seen, recent
      ensures Valid() && Now() == Arrive(old(Now()), a)
    {
      var isNew := seen.Remember(a.hash);
      if !isNew || a.Other? {
        return;
      }
      var dup := recent.DupMessage(a.key, a.ts, if a.key.DmKey? then 0 else Protocol.CH_MAX_SENDS);
      if !dup {
        chat := chat + [Entry(a.key, a.ts)];
      }
      if a.reply.Some? {
        var _ := seen.Remember(a.reply.value.hash);
        acks := acks + [Acked(a.key, a.reply.value.payload)];
      }
    }
  }

  function CountOf(entries: seq<Entry>, key: MsgKey): nat {
    if entries == [] then 0
    else CountOf(entries[..|entries| - 1], key) + if entries[|entries| - 1].key == key then 1 else 0
  }

  lemma CountMore(entries: seq<Entry>, e: Entry, key: MsgKey)
    ensures CountOf(entries + [e], key) == CountOf(entries, key) + if e.key == key then 1 else 0
  {
    assert (entries + [e])[..|entries|] == entries;
  }

  /** How many copies with this key pass _remember. */
  function AcceptedCopies(r: Receiver, arrivals: seq<Arrival>, key: MsgKey): nat {
    if arrivals == [] then 0
    else
      var a := arrivals[|arrivals| - 1];
      AcceptedCopies(r, arrivals[..|arrivals| - 1], key) +
      if a.Text? && a.key == key && Accepts(ArriveAll(r, arrivals[..|arrivals| - 1]).accepted, a.hash) then 1 else 0
  }

  /** All that arrives under this key are attempts of one message, first sent at t0. */
  ghost predicate OnlyAttempts(arrivals: seq<Arrival>, key: MsgKey, t0: nat) {
    forall i :: 0 <= i < |arrivals| && arrivals[i].Text? && arrivals[i].key == key ==>
      AttemptTime(key, t0, arrivals[i].ts)
  }

  /** A DM keeps its time; a channel message is moved on by one for each of its three attempts. */
  ghost predicate AttemptTime(key: MsgKey, t0: nat, ts: nat) {
    t0 <= ts <= t0 + if key.DmKey? then 0 else Protocol.CH_MAX_SENDS - 1
  }

  /** The key was entered at position p or later, and its noted time is that of an attempt. */
  ghost predicate Holds(s: Shown<MsgKey>, key: MsgKey, t0: nat, from: nat) {
    && key in s.latest && AttemptTime(key, t0, s.latest[key])
    && exists p :: from <= p < |s.entered| && s.entered[p] == key
  }

  lemma HeldIsKnown(s: Shown<MsgKey>, key: MsgKey, t0: nat, from: nat)
    requires Holds(s, key, t0, from) && |s.entered| <= from + MAX_RECENT
    ensures Known(s, key)
  {
    var p :| from <= p < |s.entered| && s.entered[p] == key;
    var w := Window(s.entered, MAX_RECENT);
    assert w[p - (|s.entered| - |w|)] == key;
  }

  lemma EnteredGrows(r: Receiver, a: Arrival)
    ensures |r.shown.entered| <= |Arrive(r, a).shown.entered| && r.shown.entered <= Arrive(r, a).shown.entered
  {
  }

  lemma OthersKeep(s: Shown<MsgKey>, key: MsgKey, t0: nat, from: nat, other: MsgKey, ts: nat)
    requires Holds(s, key, t0, from) && other != key
    ensures Holds(Noted(s, other, ts, WindowOf(other)), key, t0, from)
  {
    var p :| from <= p < |s.entered| && s.entered[p] == key;
    var t := Noted(s, other, ts, WindowOf(other));
    assert t.entered[p] == key;
  }

  /** No earlier message can be mistaken for this one: its key is not in the table, or it has been there since
      position from, with a time further from every attempt's than the window. */
  ghost predicate Clear(s: Shown<MsgKey>, key: MsgKey, t0: nat, from: nat) {
    || (!Known(s, key) && from <= |s.entered|)
    || (from < |s.entered| && s.entered[from] == key && key in s.latest
        && forall ts :: AttemptTime(key, t0, ts) ==> Distance(ts, s.latest[key]) > WindowOf(key))
  }

  /** The first attempt that is accepted is shown, and its key is held from then on. */
  lemma FirstIsShown(s: Shown<MsgKey>, key: MsgKey, ts: nat, t0: nat, from: nat)
    requires Clear(s, key, t0, from) && AttemptTime(key, t0, ts)
    ensures !IsResend(s, key, ts, WindowOf(key)) && Holds(Noted(s, key, ts, WindowOf(key)), key, t0, from)
  {
    var t := Noted(s, key, ts, WindowOf(key));
    if !Known(s, key) {
      assert t.entered[|s.entered|] == key;
    } else {
      assert t.entered[from] == key;
    }
  }

  /** Every later attempt is a resend, as long as the key is held. */
  lemma LaterIsResend(s: Shown<MsgKey>, key: MsgKey, ts: nat, t0: nat, from: nat)
    requires Holds(s, key, t0, from) && |s.entered| <= from + MAX_RECENT && AttemptTime(key, t0, ts)
    ensures IsResend(s, key, ts, WindowOf(key))
  {
    HeldIsKnown(s, key, t0, from);
  }

  lemma StillOutside<T(!new)>(log: seq<T>, n: nat, x: T, other: T)
    requires x !in Window(log, n) && x != other && n > 0
    ensures x !in Window(log + [other], n)
  {
    var w := Window(log + [other], n);
    forall i | 0 <= i < |w| ensures w[i] != x {
      if i < |w| - 1 {
        assert w[i] in Window(log, n);
      }
    }
  }

  lemma OthersKeepClear(s: Shown<MsgKey>, key: MsgKey, t0: nat, from: nat, other: MsgKey, ts: nat)
    requires Clear(s, key, t0, from) && other != key
    ensures Clear(Noted(s, other, ts, WindowOf(other)), key, t0, from)
  {
    if !Known(s, key) && key !in Window(s.entered, MAX_RECENT) {
      StillOutside(s.entered, MAX_RECENT, key, other);
    }
  }

  /** Where the counting stands: shown once and held, or not at all. */
  ghost predicate Tally(r: Receiver, g: Receiver, key: MsgKey, t0: nat, from: nat, copies: nat) {
    && CountOf(g.chat, key) == CountOf(r.chat, key) + (if copies > 0 then 1 else 0)
    && (if copies > 0 then Holds(g.shown, key, t0, from) else Clear(g.shown, key, t0, from))
  }

  lemma OtherArrives(r: Receiver, g: Receiver, a: Arrival, key: MsgKey, t0: nat, from: nat, copies: nat)
    requires Tally(r, g, key, t0, from, copies) && (a.Text? ==> a.key != key)
    ensures Tally(r, Arrive(g, a), key, t0, from, copies)
  {
    if a.Text? && Accepts(g.accepted, a.hash) {
      CountMore(g.chat, Entry(a.key, a.ts), key);
      if copies > 0 {
        OthersKeep(g.shown, key, t0, from, a.key, a.ts);
      } else {
        OthersKeepClear(g.shown, key, t0, from, a.key, a.ts);
      }
    }
  }

  lemma CopyArrives(r: Receiver, g: Receiver, a: Arrival, key: MsgKey, t0: nat, from: nat, copies: nat)
    requires Tally(r, g, key, t0, from, copies) && a.Text? && a.key == key && AttemptTime(key, t0, a.ts)
    requires Accepts(g.accepted, a.hash)
    requires |g.shown.entered| <= from + MAX_RECENT
    ensures Tally(r, Arrive(g, a), key, t0, from, copies + 1)
  {
    CountMore(g.chat, Entry(a.key, a.ts), key);
    if copies > 0 {
      LaterIsResend(g.shown, key, a.ts, t0, from);
    } else {
      FirstIsShown(g.shown, key, a.ts, t0, from);
    }
  }

  /** The ack packets that were queued for one key. */
  function AcksFor(acks: seq<Acked>, key: MsgKey): seq<Data> {
    if acks == [] then []
    else AcksFor(acks[..|acks| - 1], key) + if acks[|acks| - 1].key == key then [acks[|acks| - 1].payload] else []
  }

  lemma AcksMore(acks: seq<Acked>, a: Acked, key: MsgKey)
    ensures AcksFor(acks + [a], key) == AcksFor(acks, key) + if a.key == key then [a.payload] else []
  {
    assert (acks + [a])[..|acks|] == acks;
  }

  /** What the accepted copies with this key are answered, in the order of their arrival. */
  function Answers(r: Receiver, arrivals: seq<Arrival>, key: MsgKey): seq<Data> {
    if arrivals == [] then []
    else
      var before := arrivals[..|arrivals| - 1];
      Answers(r, before, key) + AnswerIn(ArriveAll(r, before), arrivals[|arrivals| - 1], key)
  }

  function AnswerIn(g: Receiver, a: Arrival, key: MsgKey): seq<Data> {
    if a.Text? && a.key == key && a.reply.Some? && Accepts(g.accepted, a.hash) then [a.reply.value.payload] else []
  }

  /** Every accepted copy that has an answer is answered once, shown or not, and nothing else is. */
  lemma {:induction false} CopiesAreAnswered(r: Receiver, arrivals: seq<Arrival>, key: MsgKey)
    ensures AcksFor(ArriveAll(r, arrivals).acks, key) == AcksFor(r.acks, key) + Answers(r, arrivals, key)
    decreases |arrivals|
  {
    if arrivals != [] {
      var a, g := arrivals[|arrivals| - 1], ArriveAll(r, arrivals[..|arrivals| - 1]);
      CopiesAreAnswered(r, arrivals[..|arrivals| - 1], key);
      OneAnswered(g, a, key);
      assert Answers(r, arrivals, key) == Answers(r, arrivals[..|arrivals| - 1], key) + AnswerIn(g, a, key);
    }
  }

  lemma OneAnswered(g: Receiver, a: Arrival, key: MsgKey)
    ensures AcksFor(Arrive(g, a).acks, key) == AcksFor(g.acks, key) + AnswerIn(g, a, key)
  {
    if a.Text? && a.reply.Some? && Accepts(g.accepted, a.hash) {
      AcksMore(g.acks, Acked(a.key, a.reply.value.payload), key);
    }
  }

  /** If every copy has an answer, there are as many answers as accepted copies, and each is the answer of a copy. */
  lemma {:induction false} AllAreAnswered(r: Receiver, arrivals: seq<Arrival>, key: MsgKey)
    requires forall j :: 0 <= j < |arrivals| && arrivals[j].Text? && arrivals[j].key == key ==> arrivals[j].reply.Some?
    ensures |Answers(r, arrivals, key)| == AcceptedCopies(r, arrivals, key)
    ensures forall i :: 0 <= i < |Answers(r, arrivals, key)| ==> GivenFor(arrivals, key, Answers(r, arrivals, key)[i])
    decreases |arrivals|
  {
    if arrivals != [] {
      var before := arrivals[..|arrivals| - 1];
      AllAreAnswered(r, before, key);
      var all, some := Answers(r, arrivals, key), Answers(r, before, key);
      forall i | 0 <= i < |all| ensures GivenFor(arrivals, key, all[i]) {
        if i < |some| {
          assert all[i] == some[i];
          GivenLater(before, arrivals, key, some[i]);
        } else {
          assert Gives(arrivals[|arrivals| - 1], key, all[i]);
        }
      }
    }
  }

  ghost predicate Gives(a: Arrival, key: MsgKey, payload: Data) {
    a.Text? && a.key == key && a.reply.Some? && a.reply.value.payload == payload
  }

  ghost predicate GivenFor(arrivals: seq<Arrival>, key: MsgKey, payload: Data) {
    exists j :: 0 <= j < |arrivals| && Gives(arrivals[j], key, payload)
  }

  lemma GivenLater(before: seq<Arrival>, arrivals: seq<Arrival>, key: MsgKey, payload: Data)
    requires before <= arrivals && GivenFor(before, key, payload)
    ensures GivenFor(arrivals, key, payload)
  {
    var j :| 0 <= j < |before| && Gives(before[j], key, payload);
    assert Gives(arrivals[j], key, payload);
  }

  /** Whichever attempts of a message arrive, in whatever order, how often and among whatever else: the chat
      gains one entry if any copy is accepted, and exactly the accepted copies are answered, each with its own answer.
      No earlier message with its key may be near, and fewer than 64 keys may enter the table after this one did. */
  lemma {:induction false} ShownOnce(r: Receiver, arrivals: seq<Arrival>, key: MsgKey, t0: nat, from: nat)
    requires OnlyAttempts(arrivals, key, t0) && Clear(r.shown, key, t0, from)
    requires |ArriveAll(r, arrivals).shown.entered| <= from + MAX_RECENT
    ensures Tally(r, ArriveAll(r, arrivals), key, t0, from, AcceptedCopies(r, arrivals, key))
    ensures AcksFor(ArriveAll(r, arrivals).acks, key) == AcksFor(r.acks, key) + Answers(r, arrivals, key)
    decreases |arrivals|
  {
    CopiesAreAnswered(r, arrivals, key);
    if arrivals == [] {
    } else {
      var before, a := arrivals[..|arrivals| - 1], arrivals[|arrivals| - 1];
      var g := ArriveAll(r, before);
      EnteredGrows(g, a);
      assert OnlyAttempts(before, key, t0);
      ShownOnce(r, before, key, t0, from);
      if a.Text? && a.key == key {
        if Accepts(g.accepted, a.hash) {
          CopyArrives(r, g, a, key, t0, from, AcceptedCopies(r, before, key));
        }
      } else {
        OtherArrives(r, g, a, key, t0, from, AcceptedCopies(r, before, key));
      }
    }
  }

  lemma {:induction false} NotYetRemembered(r: Receiver, arrivals: seq<Arrival>, h: Data)
    requires h !in Window(r.accepted, MAX_RECENT) && forall j :: 0 <= j < |arrivals| ==> !Mentions(arrivals[j], h)
    ensures h !in Window(ArriveAll(r, arrivals).accepted, MAX_RECENT)
    decreases |arrivals|
  {
    if arrivals == [] {
    } else {
      var before, a := arrivals[..|arrivals| - 1], arrivals[|arrivals| - 1];
      NotYetRemembered(r, before, h);
      var accepted := ArriveAll(r, before).accepted;
      StillOutside(accepted, MAX_RECENT, h, a.hash);
      if a.Text? && a.reply.Some? {
        StillOutside(Remembered(accepted, a.hash), MAX_RECENT, h, a.reply.value.hash);
      }
    }
  }

  lemma {:induction false} CopiesAddUp(r: Receiver, arrivals: seq<Arrival>, i: nat, key: MsgKey)
    requires i <= |arrivals|
    ensures AcceptedCopies(r, arrivals[..i], key) <= AcceptedCopies(r, arrivals, key)
    decreases |arrivals|
  {
    if i == |arrivals| {
      assert arrivals[..i] == arrivals;
    } else {
      CopiesAddUp(r, arrivals[..|arrivals| - 1], i, key);
      assert arrivals[..|arrivals| - 1][..i] == arrivals[..i];
    }
  }

  /** The first copy of a packet not lately seen is accepted. */
  lemma FirstCopyIsAccepted(r: Receiver, arrivals: seq<Arrival>, i: nat, key: MsgKey)
    requires i < |arrivals| && arrivals[i].Text? && arrivals[i].key == key
    requires arrivals[i].hash !in Window(r.accepted, MAX_RECENT)
    requires forall j :: 0 <= j < i ==> !Mentions(arrivals[j], arrivals[i].hash)
    ensures AcceptedCopies(r, arrivals, key) > 0
  {
    NotYetRemembered(r, arrivals[..i], arrivals[i].hash);
    assert arrivals[..i + 1][..i] == arrivals[..i];
    CopiesAddUp(r, arrivals, i + 1, key);
  }

  /** So any nonempty set of attempts, in any order, adds exactly one entry. */
  lemma AnyAttemptShowsOnce(r: Receiver, arrivals: seq<Arrival>, key: MsgKey, t0: nat, from: nat, i: nat)
    requires OnlyAttempts(arrivals, key, t0) && Clear(r.shown, key, t0, from)
    requires |ArriveAll(r, arrivals).shown.entered| <= from + MAX_RECENT
    requires i < |arrivals| && arrivals[i].Text? && arrivals[i].key == key
    requires arrivals[i].hash !in Window(r.accepted, MAX_RECENT)
    requires forall j :: 0 <= j < i ==> !Mentions(arrivals[j], arrivals[i].hash)
    ensures var f := ArriveAll(r, arrivals);
            && CountOf(f.chat, key) == CountOf(r.chat, key) + 1
            && AcksFor(f.acks, key) == AcksFor(r.acks, key) + Answers(r, arrivals, key)
  {
    FirstCopyIsAccepted(r, arrivals, i, key);
    ShownOnce(r, arrivals, key, t0, from);
  }

  /** A key that was shown stays in the log, with the time of one of its attempts. */
  lemma {:induction false} HoldsOn(r: Receiver, arrivals: seq<Arrival>, key: MsgKey, t0: nat)
    requires Holds(r.shown, key, t0, 0) && OnlyAttempts(arrivals, key, t0)
    ensures Holds(ArriveAll(r, arrivals).shown, key, t0, 0)
    decreases |arrivals|
  {
    if arrivals == [] {
    } else {
      var before, a := arrivals[..|arrivals| - 1], arrivals[|arrivals| - 1];
      assert OnlyAttempts(before, key, t0);
      HoldsOn(r, before, key, t0);
      NotedHolds(ArriveAll(r, before), a, key, t0);
    }
  }

  lemma NotedHolds(g: Receiver, a: Arrival, key: MsgKey, t0: nat)
    requires Holds(g.shown, key, t0, 0) && (a.Text? && a.key == key ==> AttemptTime(key, t0, a.ts))
    ensures Holds(Arrive(g, a).shown, key, t0, 0)
  {
    if a.Text? && Accepts(g.accepted, a.hash) {
      if a.key == key {
        var p :| 0 <= p < |g.shown.entered| && g.shown.entered[p] == key;
        assert Noted(g.shown, key, a.ts, WindowOf(key)).entered[p] == key;
      } else {
        OthersKeep(g.shown, key, t0, 0, a.key, a.ts);
      }
    }
  }

  /** After a message was shown, however long the run since and whatever arrived in it, a further attempt is shown
      again exactly when at least 64 keys were entered after this one last was. */
  lemma ShownAgainIff(r: Receiver, arrivals: seq<Arrival>, key: MsgKey, t0: nat, ts: nat)
    requires Holds(r.shown, key, t0, 0) && OnlyAttempts(arrivals, key, t0) && AttemptTime(key, t0, ts)
    ensures var s := ArriveAll(r, arrivals).shown;
            !IsResend(s, key, ts, WindowOf(key)) <==> |s.entered| - LastHeard(s.entered, key) >= 64
  {
    HoldsOn(r, arrivals, key, t0);
    InWindowIff(ArriveAll(r, arrivals).shown.entered, MAX_RECENT, key);
  }

  /** Two copies that both pass _remember, and whose text was not in the table: the first is shown, with its own time;
      the second too, unless it is a DM of the very same time, or a channel message within three of the first. */
  lemma SecondIsShownIff(r: Receiver, a: Arrival, b: Arrival)
    requires a.Text? && b.Text? && a.key == b.key && !Known(r.shown, a.key)
    requires Accepts(r.accepted, a.hash) && Accepts(Arrive(r, a).accepted, b.hash)
    ensures var once := r.chat + [Entry(a.key, a.ts)];
            Arrive(Arrive(r, a), b).chat
            == if b.ts == a.ts || (a.key.ChannelKey? && a.ts <= b.ts + 3 && b.ts <= a.ts + 3) then once
               else once + [Entry(a.key, b.ts)]
  {
    var s := Arrive(r, a).shown;
    assert s.entered[|s.entered| - 1] == a.key && a.key in Window(s.entered, MAX_RECENT);
  }

  lemma PushedOut(entered: seq<MsgKey>, another: MsgKey)
    requires |entered| == MAX_RECENT
    ensures Window(entered + [another], MAX_RECENT) == entered[1..] + [another]
  {
  }

  /** The table does not move a key up when it is used again. With the same text shown long ago and its key next
      to fall out, one other new message between two attempts is enough: neither attempt counts as a resend. */
  lemma ShownTwice(s: Shown<MsgKey>, text: MsgKey, another: MsgKey, ts: nat, later: nat)
    requires |s.entered| == MAX_RECENT && s.entered[0] == text && text !in s.entered[1..] && another !in s.entered
    requires text in s.latest && Distance(ts, s.latest[text]) > WindowOf(text)
    ensures var s1 := Noted(s, text, ts, WindowOf(text)); var s2 := Noted(s1, another, later, WindowOf(another));
            Known(s, text) && !IsResend(s, text, ts, WindowOf(text)) && !IsResend(s2, text, ts, WindowOf(text))
  {
    var s1 := Noted(s, text, ts, WindowOf(text));
    assert s.entered[0] in Window(s.entered, MAX_RECENT);
    assert s1.entered == s.entered;
    PushedOut(s.entered, another);
  }

  // ---- from the sender's codec to the receiver's tables ----

  /** The two ways to ack: a bare ACK, or a PATH return with the path of the packet that is acked. */
  datatype Form = Bare(random: Byte) | Return(random: Byte, secret: Key, self: Key, path: Data, raw: nat)

  function AckPayload(c: Crypto, srcHash: nat, ackHash: Data, form: Form): Data {
    match form
    case Bare(random) => Dm.Ack6(ackHash, random)
    case Return(random, secret, self, path, raw) =>
      Dm.BuildPathAck(c, secret, srcHash, self, path, raw, Dm.Ack6(ackHash, random))
  }

  /** _send_ack: the packet is remembered by its packet hash. */
  function AnswerTo(c: Crypto, got: Dm.Message, form: Form): Answer {
    var payload := AckPayload(c, got.srcHash, got.ackHash, form);
    var payloadType := if form.Bare? then P.PAYLOAD_TYPE_ACK else P.PAYLOAD_TYPE_PATH;
    Answer(c.sha256([payloadType] + payload)[..8], payload)
  }

  /** A DM as its recipient sees it arrive, and acks it. */
  function DmArrival(c: Crypto, hash: Data, form: Form, payload: Data, selfHash: nat,
                     candidates: seq<Candidate>): Arrival
  {
    match Dm.Decode(c, payload, selfHash, candidates)
    case Some(m) => Text(hash, DmKey(m.key, m.text), m.timestamp, Some(AnswerTo(c, m, form)))
    case None => Other(hash)
  }

  const QUESTION_MARK: Byte := 0x3F

  /** A channel message as a member sees it arrive; a missing sender is shown as "?". */
  function GroupArrival(c: Crypto, hash: Data, payload: Data, channels: seq<Channel.Channel>): Arrival {
    GroupSeen(hash, Channel.Decode(c, payload, channels))
  }

  function GroupSeen(hash: Data, got: Option<Channel.GroupText>): Arrival {
    match got
    case Some(g) =>
      Text(hash, ChannelKey(g.channel, if g.sender == [] then [QUESTION_MARK] else g.sender, g.text), g.timestamp, None)
    case None => Other(hash)
  }

  datatype SentDm = SentDm(secret: Key, sender: Key, dstHash: nat, text: Data, ts: nat)

  function DmPayload(c: Crypto, m: SentDm, attempt: nat): Data {
    Dm.Encode(c, m.secret, m.sender, m.dstHash, m.text, m.ts, attempt, 0).0
  }

  /** a is this attempt of m, received and acked in this form by a node that knows the sender as candidates[k]. */
  ghost predicate ArrivesAs(c: Crypto, m: SentDm, candidates: seq<Candidate>, k: nat, a: Arrival,
                            attempt: nat, form: Form)
  {
    && attempt < Protocol.DM_MAX_SENDS
    && Dm.Identified(c, DmPayload(c, m, attempt), candidates, k, m.sender, m.secret)
    && a == DmArrival(c, a.hash, form, DmPayload(c, m, attempt), m.dstHash, candidates)
  }

  ghost predicate IsDmAttempt(c: Crypto, m: SentDm, candidates: seq<Candidate>, k: nat, a: Arrival) {
    exists attempt: nat, form: Form :: ArrivesAs(c, m, candidates, k, a, attempt, form)
  }

  /** An ack packet for this attempt of m, with the very ack hash that its sender waits for. */
  ghost predicate AcksAttempt(c: Crypto, m: SentDm, attempt: nat, form: Form, payload: Data) {
    payload == AckPayload(c, m.sender[0],
                          Dm.Encode(c, m.secret, m.sender, m.dstHash, m.text, m.ts, attempt, 0).1, form)
  }

  ghost predicate AcksSome(c: Crypto, m: SentDm, payload: Data) {
    exists attempt: nat, form: Form :: attempt < Protocol.DM_MAX_SENDS && AcksAttempt(c, m, attempt, form, payload)
  }

  lemma DmAttemptArrives(c: Crypto, m: SentDm, candidates: seq<Candidate>, k: nat, a: Arrival)
    requires Sound(c) && 0 !in m.text && IsDmAttempt(c, m, candidates, k, a)
    ensures a.Text? && a == Text(a.hash, DmKey(m.sender, m.text), m.ts % 0x1_0000_0000, a.reply)
    ensures a.reply.Some? && AcksSome(c, m, a.reply.value.payload)
  {
    var attempt: nat, form: Form :| ArrivesAs(c, m, candidates, k, a, attempt, form);
    Dm.DmRoundTrip(c, m.secret, m.sender, m.dstHash, m.text, m.ts, attempt, 0, candidates, k);
    assert AcksAttempt(c, m, attempt, form, a.reply.value.payload);
  }

  /** A DM, end to end. Of its up to four attempts any nonempty choice arrives, in any order and any number of
      copies, among any other traffic: the recipient's chat gains exactly one entry with the sender's text, and each
      copy that is not a repeat of a packet already heard is answered by one ack packet, for an attempt of this
      message. */
  lemma DmShownOnce(c: Crypto, m: SentDm, candidates: seq<Candidate>, k: nat, r: Receiver, arrivals: seq<Arrival>,
                    from: nat, i: nat)
    requires Sound(c) && 0 !in m.text
    requires forall j :: 0 <= j < |arrivals| ==>
               IsDmAttempt(c, m, candidates, k, arrivals[j])
               || (arrivals[j].Text? ==> arrivals[j].key != DmKey(m.sender, m.text))
    requires Clear(r.shown, DmKey(m.sender, m.text), m.ts % 0x1_0000_0000, from)
    requires |ArriveAll(r, arrivals).shown.entered| <= from + MAX_RECENT
    requires i < |arrivals| && IsDmAttempt(c, m, candidates, k, arrivals[i])
    requires arrivals[i].hash !in Window(r.accepted, MAX_RECENT)
    requires forall j :: 0 <= j < i ==> !Mentions(arrivals[j], arrivals[i].hash)
    ensures var f := ArriveAll(r, arrivals); var key := DmKey(m.sender, m.text);
            && CountOf(f.chat, key) == CountOf(r.chat, key) + 1
            && AcksFor(f.acks, key) == AcksFor(r.acks, key) + Answers(r, arrivals, key)
            && |Answers(r, arrivals, key)| == AcceptedCopies(r, arrivals, key) >= 1
            && forall x :: 0 <= x < |Answers(r, arrivals, key)| ==> AcksSome(c, m, Answers(r, arrivals, key)[x])
  {
    var key, t0 := DmKey(m.sender, m.text), m.ts % 0x1_0000_0000;
    forall j | 0 <= j < |arrivals| && arrivals[j].Text? && arrivals[j].key == key
      ensures AttemptTime(key, t0, arrivals[j].ts)
              && arrivals[j].reply.Some? && AcksSome(c, m, arrivals[j].reply.value.payload)
    {
      DmAttemptArrives(c, m, candidates, k, arrivals[j]);
    }
    DmAttemptArrives(c, m, candidates, k, arrivals[i]);
    AnyAttemptShowsOnce(r, arrivals, key, t0, from, i);
    FirstCopyIsAccepted(r, arrivals, i, key);
    AllAreAnswered(r, arrivals, key);
    forall x | 0 <= x < |Answers(r, arrivals, key)| ensures AcksSome(c, m, Answers(r, arrivals, key)[x]) {
      var j :| 0 <= j < |arrivals| && Gives(arrivals[j], key, Answers(r, arrivals, key)[x]);
    }
  }

  lemma DmPayloadsDiffer(c: Crypto, m: SentDm, a: nat, b: nat)
    requires Sound(c) && a < Protocol.DM_MAX_SENDS && b < Protocol.DM_MAX_SENDS && a != b
    ensures DmPayload(c, m, a) != DmPayload(c, m, b)
  {
    Dm.AttemptsBelowFourDiffer(c, m.secret, m.sender, m.dstHash, m.text, m.ts, a, b);
  }

  lemma OtherPayloadOtherInput(p: P.Packet, q: P.Packet)
    requires p.pathLenRaw < 256 && q.pathLenRaw < 256 && p.payload != q.payload
    ensures P.HashInput(p) != P.HashInput(q)
  {
    P.HashInputIdentifies(p, q);
  }

  /** The packets of two attempts are hashed over different bytes, so repeaters carry both. */
  lemma DmAttemptsHashApart(c: Crypto, m: SentDm, a: nat, b: nat, p: P.Packet, q: P.Packet)
    requires Sound(c) && a < Protocol.DM_MAX_SENDS && b < Protocol.DM_MAX_SENDS && a != b
    requires p.pathLenRaw < 256 && q.pathLenRaw < 256
    requires p.payload == DmPayload(c, m, a) && q.payload == DmPayload(c, m, b)
    ensures P.HashInput(p) != P.HashInput(q)
  {
    DmPayloadsDiffer(c, m, a, b);
    OtherPayloadOtherInput(p, q);
  }

  datatype SentGroup = SentGroup(ch: Channel.Channel, sender: Data, text: Data, ts: nat)

  function GroupPayload(c: Crypto, m: SentGroup, attempt: nat): Data {
    Channel.Encode(c, m.ch, m.sender, m.text, m.ts + attempt)
  }

  ghost predicate IsGroupAttempt(c: Crypto, m: SentGroup, channels: seq<Channel.Channel>, k: nat, a: Arrival) {
    exists attempt: nat :: attempt < Protocol.CH_MAX_SENDS
      && Channel.Identified(c, GroupPayload(c, m, attempt), channels, k, m.ch)
      && a == GroupArrival(c, a.hash, GroupPayload(c, m, attempt), channels)
  }

  function GroupKey(m: SentGroup): MsgKey {
    ChannelKey(m.ch.name, if m.sender == [] then [QUESTION_MARK] else m.sender, m.text)
  }

  /** The name and the text survive the codec, and the timestamp does not wrap. */
  ghost predicate Sendable(m: SentGroup) {
    0 !in m.sender && 0 !in m.text && Channel.Separable(m.sender) && m.ts + Protocol.CH_MAX_SENDS <= 0x1_0000_0000
  }

  lemma GroupReadArrives(hash: Data, got: Option<Channel.GroupText>, m: SentGroup, attempt: nat)
    requires Sendable(m) && attempt < Protocol.CH_MAX_SENDS
    requires Channel.Reads(got, m.ch.name, m.sender, m.text, m.ts + attempt)
    ensures GroupSeen(hash, got) == Text(hash, GroupKey(m), m.ts + attempt, None)
  {
  }

  lemma GroupAttemptSeen(c: Crypto, m: SentGroup, channels: seq<Channel.Channel>, k: nat, hash: Data, attempt: nat)
    requires Sound(c) && Sendable(m) && attempt < Protocol.CH_MAX_SENDS
    requires Channel.Identified(c, GroupPayload(c, m, attempt), channels, k, m.ch)
    ensures GroupArrival(c, hash, GroupPayload(c, m, attempt), channels)
         == Text(hash, GroupKey(m), m.ts + attempt, None)
  {
    Channel.GroupRoundTrip(c, m.ch, m.sender, m.text, m.ts + attempt, channels, k);
    GroupReadArrives(hash, Channel.Decode(c, GroupPayload(c, m, attempt), channels), m, attempt);
  }

  lemma GroupAttemptArrives(c: Crypto, m: SentGroup, channels: seq<Channel.Channel>, k: nat, a: Arrival)
    requires Sound(c) && Sendable(m) && IsGroupAttempt(c, m, channels, k, a)
    ensures a.Text? && a.key == GroupKey(m) && AttemptTime(GroupKey(m), m.ts, a.ts) && a.reply.None?
  {
    var attempt: nat :| attempt < Protocol.CH_MAX_SENDS
      && Channel.Identified(c, GroupPayload(c, m, attempt), channels, k, m.ch)
      && a == GroupArrival(c, a.hash, GroupPayload(c, m, attempt), channels);
    GroupAttemptSeen(c, m, channels, k, a.hash, attempt);
  }

  /** A channel message, end to end: whichever of its attempts a member hears, its chat gains exactly one entry. */
  lemma GroupShownOnce(c: Crypto, m: SentGroup, channels: seq<Channel.Channel>, k: nat, r: Receiver,
                       arrivals: seq<Arrival>, from: nat, i: nat)
    requires Sound(c) && Sendable(m)
    requires forall j :: 0 <= j < |arrivals| ==>
               IsGroupAttempt(c, m, channels, k, arrivals[j]) || (arrivals[j].Text? ==> arrivals[j].key != GroupKey(m))
    requires Clear(r.shown, GroupKey(m), m.ts, from)
    requires |ArriveAll(r, arrivals).shown.entered| <= from + MAX_RECENT
    requires i < |arrivals| && IsGroupAttempt(c, m, channels, k, arrivals[i])
    requires arrivals[i].hash !in Window(r.accepted, MAX_RECENT)
    requires forall j :: 0 <= j < i ==> !Mentions(arrivals[j], arrivals[i].hash)
    ensures CountOf(ArriveAll(r, arrivals).chat, GroupKey(m)) == CountOf(r.chat, GroupKey(m)) + 1
  {
    forall j | 0 <= j < |arrivals| && arrivals[j].Text? && arrivals[j].key == GroupKey(m)
      ensures AttemptTime(GroupKey(m), m.ts, arrivals[j].ts)
    {
      GroupAttemptArrives(c, m, channels, k, arrivals[j]);
    }
    GroupAttemptArrives(c, m, channels, k, arrivals[i]);
    AnyAttemptShowsOnce(r, arrivals, GroupKey(m), m.ts, from, i);
  }

  lemma GroupPayloadsDiffer(c: Crypto, m: SentGroup, a: nat, b: nat)
    requires Sound(c) && a < Protocol.CH_MAX_SENDS && b < Protocol.CH_MAX_SENDS && a != b
    ensures GroupPayload(c, m, a) != GroupPayload(c, m, b)
  {
    Channel.LaterResendDiffers(c, m.ch, m.sender, m.text, m.ts + if a < b then a else b, m.ts + if a < b then b else a);
  }

  lemma GroupAttemptsHashApart(c: Crypto, m: SentGroup, a: nat, b: nat, p: P.Packet, q: P.Packet)
    requires Sound(c) && a < Protocol.CH_MAX_SENDS && b < Protocol.CH_MAX_SENDS && a != b
    requires p.pathLenRaw < 256 && q.pathLenRaw < 256
    requires p.payload == GroupPayload(c, m, a) && q.payload == GroupPayload(c, m, b)
    ensures P.HashInput(p) != P.HashInput(q)
  {
    GroupPayloadsDiffer(c, m, a, b);
    OtherPayloadOtherInput(p, q);
  }
}
