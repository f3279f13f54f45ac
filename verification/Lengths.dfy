/** How long a text may be: which of the packets that a run queues can be read at all. */
module Lengths {
  import opened Bytes
  import opened Envelope
  import opened Protocol
  import opened Retries
  import opened Acks
  import opened Outcomes
  import opened Runs
  import opened Delivery
  import opened Routes
  import Packet
  import Dm
  import Channel

  // ---- the payloads ----

  /** Padding to whole blocks of 16. */
  lemma PaddedFits(s: Data)
    ensures |Pad16(s)| <= 180 <==> |s| <= 176
    ensures |Pad16(s)| <= 181 <==> |s| <= 176
  {
  }

  /** A direct message fits a packet exactly when its text has at most 171 bytes. */
  lemma DmFits(c: Crypto, secret: Key, sender: Key, dstHash: nat, text: Data, timestamp: nat, attempt: nat)
    requires Sound(c)
    ensures var payload := Dm.Encode(c, secret, sender, dstHash, text, timestamp, attempt, 0).0;
            payload != [] && (|payload| <= Packet.MAX_PACKET_PAYLOAD <==> |text| <= 171)
  {
    var core := Dm.Plaintext(timestamp, text, attempt, 0);
    SealedOpens(c, secret, core);
    PaddedFits(core);
  }

  /** A channel message fits exactly when nickname and text have at most 169 bytes together. */
  lemma GroupFits(c: Crypto, ch: Channel.Channel, nickname: Data, text: Data, timestamp: nat)
    requires Sound(c)
    ensures var payload := Channel.Encode(c, ch, nickname, text, timestamp);
            payload != [] && (|payload| <= Packet.MAX_PACKET_PAYLOAD <==> |nickname| + |text| <= 169)
  {
    var core := Channel.Plaintext(nickname, text, timestamp);
    SealedOpens(c, ch.secret, core);
    PaddedFits(core);
  }

  predicate TextFits(n: Node, kind: Kind, text: Data) {
    if kind.Direct? then |text| <= 171 else |n.nickname| + |text| <= 169
  }

  lemma AttemptFits(c: Crypto, n: Node, w: Wire, m: Msg, attempt: nat)
    requires Sound(c) && w == Codecs(c, n)
    ensures var payload := PayloadOf(w, m, attempt);
            payload != [] && (|payload| <= Packet.MAX_PACKET_PAYLOAD <==> TextFits(n, m.kind, m.text))
  {
    if m.kind.Direct? {
      DmFits(c, n.secretOf(m.kind.peer), n.key, HashByte(m.kind.peer), m.text, m.ts, attempt);
    } else {
      GroupFits(c, n.channelOf(m.kind.name), n.nickname, m.text, m.ts + attempt);
    }
  }

  // ---- where queued packets come from ----

  /** Message id was sent by one of the events, or nothing was ever queued for it. */
  ghost predicate HasOrigin(s: State, es: seq<Event>, id: nat)
    requires id in s.msgs
  {
    || (Retired(s, id) && SendsOf(s.queue, id) == [])
    || exists k :: 0 <= k < |es| && SentBy(s.msgs[id], es[k])
  }

  lemma NewHasOrigin(w: Wire, s: State, e: Event, id: nat)
    requires Inv(w, s) && id !in s.msgs && id in Step(w, s, e).msgs
    ensures SentBy(Step(w, s, e).msgs[id], e)
            || (Retired(Step(w, s, e), id) && SendsOf(Step(w, s, e).queue, id) == [])
  {
    AllPendingKnown(w, s);
    if e.SendsDm? || e.SendsGroup? {
      SentMessageIsNew(w, s, e, id);
    } else if e.HearsDm? {
      ReceivedMessageIsNew(w, s, e, id);
      UnknownWasNotSent(s.msgs, s.queue, id);
      forall j | 0 <= j < |s.retries| ensures s.retries[j].id != id {
        assert RecordOk(s.msgs, s.queue, s.retries[j]);
      }
    } else {
      OtherStepsAddNone(w, s, e);
    }
  }

  lemma OldHasOrigin(w: Wire, s: State, e: Event, before: seq<Event>, id: nat)
    requires Inv(w, s) && id in s.msgs && HasOrigin(s, before, id)
    ensures id in Step(w, s, e).msgs && HasOrigin(Step(w, s, e), before + [e], id)
  {
    StepInv(w, s, e);
    assert Kept(s, Step(w, s, e), id);
    if !(Retired(s, id) && SendsOf(s.queue, id) == []) {
      var k :| 0 <= k < |before| && SentBy(s.msgs[id], before[k]);
      assert (before + [e])[k] == before[k];
    }
  }

  lemma {:induction false} SendsHaveOrigins(w: Wire, s0: State, es: seq<Event>, id: nat)
    requires Initial(s0) && id in Run(w, s0, es).msgs
    ensures HasOrigin(Run(w, s0, es), es, id)
    decreases |es|
  {
    if es == [] {
    } else {
      var before, e := es[..|es| - 1], es[|es| - 1];
      var s := Run(w, s0, before);
      assert es == before + [e] && es[|es| - 1] == e;
      InitialInv(w, s0);
      RunInv(w, s0, before);
      if id in s.msgs {
        SendsHaveOrigins(w, s0, before, id);
        OldHasOrigin(w, s, e, before, id);
      } else {
        NewHasOrigin(w, s, e, id);
      }
    }
  }

  lemma {:induction false} QueuedHasSend(queue: seq<Sent>, i: nat)
    requires i < |queue|
    ensures SendsOf(queue, queue[i].id) != []
  {
    var before := queue[..|queue| - 1];
    if i < |before| {
      QueuedHasSend(before, i);
    }
  }

  lemma QueuedHasOrigin(w: Wire, s0: State, es: seq<Event>, i: nat)
    requires Initial(s0) && i < |Run(w, s0, es).queue| && Run(w, s0, es).queue[i].id in Run(w, s0, es).msgs
    ensures var s := Run(w, s0, es); exists k :: 0 <= k < |es| && SentBy(s.msgs[s.queue[i].id], es[k])
  {
    SendsHaveOrigins(w, s0, es, Run(w, s0, es).queue[i].id);
    QueuedHasSend(Run(w, s0, es).queue, i);
  }

  // ---- the packets of a run ----

  function PayloadTypeOf(kind: Kind): nat {
    if kind.Direct? then Packet.PAYLOAD_TYPE_TXT_MSG else Packet.PAYLOAD_TYPE_GRP_TXT
  }

  function PacketOf(e: Sent, kind: Kind): Packet.Packet {
    PacketTo(e.route, PayloadTypeOf(kind), e.payload)
  }

  /** The packet of a queued attempt is read back as it was sent exactly when the text of its message fits. */
  ghost predicate ParsesIfFits(n: Node, m: Msg, e: Sent) {
    var p := PacketOf(e, m.kind);
    Packet.Parse(Packet.ToBytes(p))
    == if TextFits(n, m.kind, m.text) then Packet.Ok(p) else Packet.Err(Packet.PayloadTooLong)
  }

  /** If contacts return honest paths, every packet a run queues, for any attempt on any route, parses back exactly when
      the text of its message fits; otherwise the parser refuses it for its length. The text is the one of an event. */
  lemma MessagePacketsParse(c: Crypto, n: Node, w: Wire, s0: State, es: seq<Event>, i: nat)
    requires Sound(c) && w == Codecs(c, n) && Initial(s0) && RoutesOk(s0) && HonestPaths(es)
    requires i < |Run(w, s0, es).queue|
    ensures var s := Run(w, s0, es); var e := s.queue[i];
            && e.id in s.msgs && ParsesIfFits(n, s.msgs[e.id], e)
            && exists k :: 0 <= k < |es| && SentBy(s.msgs[e.id], es[k])
  {
    InitialInv(w, s0);
    RunInv(w, s0, es);
    var s := Run(w, s0, es);
    var e := s.queue[i];
    assert AttemptEncoded(w, s.msgs, s.registered, e);
    var m := s.msgs[e.id];
    AttemptFits(c, n, w, m, e.attempt);
    QueuedPacketsParse(w, s0, es, i, PayloadTypeOf(m.kind));
    QueuedHasOrigin(w, s0, es, i);
  }

  /** Every text that a run is given fits. */
  ghost predicate TextsFit(n: Node, es: seq<Event>) {
    && (forall k :: 0 <= k < |es| && es[k].SendsDm? ==> TextFits(n, Direct(es[k].peer), es[k].text))
    && (forall k :: 0 <= k < |es| && es[k].SendsGroup? ==> TextFits(n, Group(es[k].name), es[k].text))
  }

  /** So if every text fits, every packet that is ever queued parses back to itself. */
  lemma FittingTextsParse(c: Crypto, n: Node, w: Wire, s0: State, es: seq<Event>, i: nat)
    requires Sound(c) && w == Codecs(c, n) && Initial(s0) && RoutesOk(s0) && HonestPaths(es) && TextsFit(n, es)
    requires i < |Run(w, s0, es).queue|
    ensures var s := Run(w, s0, es); var e := s.queue[i];
            e.id in s.msgs && var p := PacketOf(e, s.msgs[e.id].kind); Packet.Parse(Packet.ToBytes(p)) == Packet.Ok(p)
  {
    MessagePacketsParse(c, n, w, s0, es, i);
  }

  lemma LongPayloadIsRefused(c: Crypto, n: Node, w: Wire, r: Route, peer: Data, text: Data, ts: nat)
    requires Sound(c) && w == Codecs(c, n) && RouteFits(r) && |text| > 171
    ensures var p := PacketTo(r, Packet.PAYLOAD_TYPE_TXT_MSG, w.dm(peer, text, ts, 0).0);
            Packet.Parse(Packet.ToBytes(p)) == Packet.Err(Packet.PayloadTooLong)
  {
    DmFits(c, n.secretOf(peer), n.key, HashByte(peer), text, ts, 0);
    FittingRouteParses(r, Packet.PAYLOAD_TYPE_TXT_MSG, w.dm(peer, text, ts, 0).0);
  }

  lemma SendQueues(w: Wire, s: State, peer: Data, text: Data, ts: nat, now: int)
    requires peer in s.contacts && text != []
    ensures var (t, err) := SendDm(w, s, peer, text, ts, now);
            && err == None
            && t.queue == s.queue + [Sent(s.next, 0, RouteTo(ContactOf(s, peer)), w.dm(peer, text, ts, 0).0)]
  {
    AfterSend(w, s, peer, text, ts, now);
  }

  /** A text of 172 bytes or more is taken without an error, and what is queued for it cannot be parsed. */
  lemma LongDmIsQueued(c: Crypto, n: Node, w: Wire, s: State, peer: Data, text: Data, ts: nat, now: int)
    requires Sound(c) && w == Codecs(c, n) && RoutesOk(s) && peer in s.contacts && |text| > 171
    ensures var (t, err) := SendDm(w, s, peer, text, ts, now);
            && err == None && |t.queue| == |s.queue| + 1
            && var p := PacketOf(t.queue[|s.queue|], Direct(peer));
               Packet.Parse(Packet.ToBytes(p)) == Packet.Err(Packet.PayloadTooLong)
  {
    SendQueues(w, s, peer, text, ts, now);
    RouteToFits(s, peer);
    LongPayloadIsRefused(c, n, w, RouteTo(ContactOf(s, peer)), peer, text, ts);
  }
}
