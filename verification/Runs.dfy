/** What holds after any run of sends, ticks, acks, echoes, contact changes and write-backs, in any order. */
module Runs {
  import opened Bytes
  import opened Protocol
  import opened Retries
  import opened Acks
  import opened History
  import opened Progress
  import opened Routes
  import Pending
  import Packet
  import Dm

  ghost predicate Inv(w: Wire, s: State) {
    Safe(s) && AcksOk(w, s) && HistoryOk(s)
  }

  /** As loaded from storage: histories as stored, nothing sent yet. */
  ghost predicate Initial(s: State) {
    && s.retries == [] && s.queue == [] && s.pending == Pending.Table(map[], []) && s.registered == []
    && (forall id :: id in s.msgs ==> id < s.next) && HistoryOk(s)
  }

  lemma InitialInv(w: Wire, s: State)
    requires Initial(s)
    ensures Inv(w, s)
  {
    assert Pending.Placed([], [], []);
    forall id ensures MessageOk(s.msgs, s.queue, s.heard, id) {
    }
  }

  lemma StepInv(w: Wire, s: State, e: Event)
    requires Inv(w, s)
    ensures Inv(w, Step(w, s, e)) && Advances(s, Step(w, s, e))
  {
    AllPendingKnown(w, s);
    StepSafe(w, s, e);
    StepAcks(w, s, e);
    forall a | a in s.pending.acks
      ensures var p := s.pending.acks[a]; p.id in s.msgs && s.msgs[p.id].kind == Direct(p.peer)
    {
      PendingIsKnown(w, s, a);
    }
    StepHistory(w, s, e);
  }

  /** Every run keeps the invariant, and moves every message on. */
  lemma {:induction false} RunInv(w: Wire, s: State, es: seq<Event>)
    requires Inv(w, s)
    ensures Inv(w, Run(w, s, es)) && Advances(s, Run(w, s, es))
    decreases |es|
  {
    if es == [] {
      SameAdvances(s, s);
    } else {
      var t := Run(w, s, es[..|es| - 1]);
      RunInv(w, s, es[..|es| - 1]);
      StepInv(w, t, es[|es| - 1]);
      AdvancesOn(s, t, Run(w, s, es));
    }
  }

  /** Retry safety. After any run each message has at most one record; its attempts were queued once each, in
      order, no two direct ones in a row, at most four of a DM and three of a channel message; and a message that is
      waited for is unsettled, has had exactly its attempts 0 to r.attempt queued, and has a send left or is on its
      last. */
  lemma RetrySafety(w: Wire, s0: State, es: seq<Event>, id: nat)
    requires Initial(s0)
    ensures var s := Run(w, s0, es); var sends := SendsOf(s.queue, id);
            && (forall i, j :: 0 <= i < j < |s.retries| ==> s.retries[i].id != s.retries[j].id)
            && (id in s.msgs ==> |sends| <= if s.msgs[id].kind.Direct? then 4 else 3) && (id !in s.msgs ==> sends == [])
            && (forall i :: 0 <= i < |sends| ==> sends[i].attempt == i)
            && (forall i :: 0 < i < |sends| ==> !(WentDirect(sends[i - 1]) && WentDirect(sends[i])))
            && (forall i :: 0 <= i < |s.retries| && s.retries[i].id == id ==>
                  && id in s.msgs && !Settled(s.msgs[id]) && |sends| == s.retries[i].attempt + 1
                  && s.retries[i].attempt < if s.retries[i].kind.Direct? then 4 else 3)
  {
    InitialInv(w, s0);
    RunInv(w, s0, es);
    var s := Run(w, s0, es);
    assert MessageOk(s.msgs, s.queue, s.heard, id);
    if id !in s.msgs {
      UnknownWasNotSent(s.msgs, s.queue, id);
    }
    forall i | 0 <= i < |s.retries| && s.retries[i].id == id
      ensures id in s.msgs && !Settled(s.msgs[id]) && |SendsOf(s.queue, id)| == s.retries[i].attempt + 1
              && s.retries[i].attempt < MaxSends(s.retries[i].kind)
    {
      assert RecordOk(s.msgs, s.queue, s.retries[i]);
    }
  }

  /** Once delivered, confirmed or failed, a message stays so, and nothing is ever queued for it again. */
  lemma NothingAfterSettling(w: Wire, s: State, es: seq<Event>, id: nat)
    requires Inv(w, s) && id in s.msgs && Settled(s.msgs[id])
    ensures var t := Run(w, s, es);
            id in t.msgs && Settled(t.msgs[id]) && Retired(t, id) && SendsOf(t.queue, id) == SendsOf(s.queue, id)
  {
    RunInv(w, s, es);
    SettledIsRetired(s, id);
    assert Kept(s, Run(w, s, es), id);
  }

  lemma GroupSendQueues(w: Wire, s: State, name: Data, text: Data, ts: nat, now: int)
    requires Safe(s) && text != []
    ensures var t := SendGroup(w, s, name, text, ts, now).0;
            && |t.queue| == |s.queue| + 1 && SendsOf(t.queue, s.next) == [t.queue[|s.queue|]]
            && s.next in t.msgs && t.msgs[s.next].kind == Group(name)
  {
    var t := SendGroup(w, s, name, text, ts, now).0;
    UnknownWasNotSent(s.msgs, s.queue, s.next);
    SendsGrow(s.queue, t.queue[|s.queue|], s.next);
  }

  lemma GroupSentOnce(t: State, u: State, id: nat)
    requires Safe(u) && Advances(t, u) && id in t.msgs && t.msgs[id].kind.Group?
    requires |SendsOf(t.queue, id)| == 1 && !u.heard
    ensures SendsOf(u.queue, id) == SendsOf(t.queue, id)
  {
    assert Kept(t, u, id) && MessageOk(u.msgs, u.queue, u.heard, id);
  }

  /** While no repeater has been heard a channel message is sent exactly once. */
  lemma SentOnceWhileAlone(w: Wire, s: State, name: Data, text: Data, ts: nat, now: int, es: seq<Event>)
    requires Inv(w, s) && text != []
    ensures var t := SendGroup(w, s, name, text, ts, now).0; var u := Run(w, t, es);
            |t.queue| == |s.queue| + 1 && (!u.heard ==> SendsOf(u.queue, s.next) == [t.queue[|s.queue|]])
  {
    var t := SendGroup(w, s, name, text, ts, now).0;
    StepInv(w, s, SendsGroup(name, text, ts, now));
    GroupSendQueues(w, s, name, text, ts, now);
    RunInv(w, t, es);
    if !Run(w, t, es).heard {
      GroupSentOnce(t, Run(w, t, es), s.next);
    }
  }

  /** This ack settles message id and no other, and stops its resends. */
  ghost predicate Settles(s: State, id: nat, ack: Data) {
    var (t, ok) := MarkDelivered(s, ack);
    ok && t.msgs == WithDelivered(s.msgs, id) && id in t.msgs && t.msgs[id].delivered && Retired(t, id)
  }

  /** The ack is pending, and the last attempt that registered it was one of message id. */
  ghost predicate Owns(s: State, id: nat, peer: Data, ack: Data) {
    ack in s.pending.acks && Pending.Newest(s.registered, ack, Pending.Entry(peer, id))
  }

  lemma OwnerIsSettled(w: Wire, s: State, ack: Data)
    requires Inv(w, s) && ack in s.pending.acks
    ensures Settles(s, s.pending.acks[ack].id, ack)
  {
    PendingIsKnown(w, s, ack);
    AfterDelivery(s, ack);
    AckSafe(s, ack);
    StepInv(w, s, HearsAck(ack));
    SettledIsRetired(MarkDelivered(s, ack).0, s.pending.acks[ack].id);
  }

  lemma OnlyOneIsSettled(s: State, id: nat, ack: Data)
    requires ack in s.pending.acks && s.pending.acks[ack].id in s.msgs
    requires id in s.msgs && !s.msgs[id].delivered && Settles(s, id, ack)
    ensures id == s.pending.acks[ack].id
  {
    AfterDelivery(s, ack);
  }

  /** Exactly when an ack settles its own message, whatever else registered the same ack: it must still be pending, and
      no attempt of another message may have registered it later. */
  lemma AckSettlesExactly(w: Wire, s: State, id: nat, peer: Data, ack: Data)
    requires Inv(w, s) && id in s.msgs && s.msgs[id].kind == Direct(peer) && !s.msgs[id].delivered
    ensures Settles(s, id, ack) <==> Owns(s, id, peer, ack)
  {
    if ack in s.pending.acks {
      var e := s.pending.acks[ack];
      PendingIsKnown(w, s, ack);
      Pending.NewestIsOne(s.registered, ack, e, Pending.Entry(peer, id));
      OwnerIsSettled(w, s, ack);
      if Settles(s, id, ack) {
        OnlyOneIsSettled(s, id, ack);
      }
    }
  }

  /** What any ack settles is the message of the attempt that registered it last; if it is not pending, nothing. */
  lemma AckSettlesARegistrant(w: Wire, s: State, ack: Data)
    requires Inv(w, s)
    ensures if ack in s.pending.acks
            then exists k :: 0 <= k < |s.registered| && Pending.IsLast(s.registered, k, ack, s.registered[k].entry)
                             && Settles(s, s.registered[k].entry.id, ack)
            else MarkDelivered(s, ack) == (s, false)
  {
    if ack in s.pending.acks {
      var e := s.pending.acks[ack];
      Pending.NewestIsOne(s.registered, ack, e, e);
      var k :| Pending.IsLast(s.registered, k, ack, e);
      OwnerIsSettled(w, s, ack);
    }
  }

  /** In terms of the log alone: a late ack, for any of the last 32 attempts registered, settles exactly its own
      message, if no other attempt registered this very ack. */
  lemma LateAckSettles(w: Wire, s: State, k: nat)
    requires Inv(w, s) && k < |s.registered| && |s.registered| - 32 <= k
    requires Pending.Alone(s.registered, k) && s.registered[k].entry.id !in Delivered(s.msgs)
    ensures var e := s.registered[k].entry; e.id in s.msgs && Owns(s, e.id, e.peer, s.registered[k].ack)
    ensures Settles(s, s.registered[k].entry.id, s.registered[k].ack)
  {
    var (ack, e) := (s.registered[k].ack, s.registered[k].entry);
    assert EntryOk(s.msgs, e);
    Pending.AloneIsNewest(s.registered, k);
    AckSettlesExactly(w, s, e.id, e.peer, ack);
  }

  /** Every attempt of a DM that was ever queued registered the ack that is expected for it. */
  lemma AttemptsAreRegistered(w: Wire, s: State, i: nat)
    requires Inv(w, s) && i < |s.queue|
    ensures var e := s.queue[i]; e.id in s.msgs && var m := s.msgs[e.id];
            m.kind.Direct? ==> Pending.Registration(w.dm(m.kind.peer, m.text, m.ts, e.attempt).1,
                                                    Pending.Entry(m.kind.peer, e.id)) in s.registered
  {
    assert AttemptEncoded(w, s.msgs, s.registered, s.queue[i]);
  }

  lemma {:induction false} SendsComeFromQueue(queue: seq<Sent>, id: nat, j: nat) returns (i: nat)
    requires j < |SendsOf(queue, id)|
    ensures i < |queue| && queue[i] == SendsOf(queue, id)[j] && queue[i].id == id
  {
    var before := queue[..|queue| - 1];
    if j < |SendsOf(before, id)| {
      i := SendsComeFromQueue(before, id, j);
    } else {
      i := |queue| - 1;
    }
  }

  function PayloadOf(w: Wire, m: Msg, attempt: nat): Data {
    if m.kind.Direct? then w.dm(m.kind.peer, m.text, m.ts, attempt).0
    else w.group(m.kind.name, m.text, m.ts + attempt)
  }

  /** The j-th packet queued for a message carries the codec's payload for attempt j, and j is below the limit. */
  lemma SendCarriesAttempt(w: Wire, s: State, id: nat, j: nat)
    requires Inv(w, s) && j < |SendsOf(s.queue, id)|
    ensures id in s.msgs && j < MaxSends(s.msgs[id].kind)
    ensures SendsOf(s.queue, id)[j].payload == PayloadOf(w, s.msgs[id], j)
  {
    var i := SendsComeFromQueue(s.queue, id, j);
    assert AttemptEncoded(w, s.msgs, s.registered, s.queue[i]);
    assert MessageOk(s.msgs, s.queue, s.heard, id);
  }

  /** The pending table after any run: at most 32 places, covering every ack that is waited for. */
  lemma PendingIsBounded(w: Wire, s0: State, es: seq<Event>)
    requires Initial(s0)
    ensures var t := Run(w, s0, es).pending;
            |t.order| <= 32 && forall a :: a in t.acks ==> a in t.order
  {
    InitialInv(w, s0);
    RunInv(w, s0, es);
  }

  /** Storage, after any run: a contact with nothing unsaved is stored as it is in memory; a flush leaves nothing
      unsaved. */
  lemma StorageIsCurrent(w: Wire, s0: State, es: seq<Event>, peer: Data)
    requires Initial(s0)
    ensures var s := Run(w, s0, es); var t := Flushed(s);
            && (peer in s.contacts && peer !in s.dirty ==>
                  Same(StoredOf(s.stored, peer), s.msgs, ListOf(s.lists, peer)))
            && (peer !in s.contacts ==> peer !in s.stored)
            && (!s.worker ==> s.dirty == {})
            && t.dirty == {}
            && (peer in s.contacts ==> Same(StoredOf(t.stored, peer), s.msgs, ListOf(s.lists, peer)))
  {
    InitialInv(w, s0);
    RunInv(w, s0, es);
    var s := Run(w, s0, es);
    assert PeerOk(s, peer);
    FlushSaves(s);
  }

  /** At most four packets for each DM and three for each channel message. */
  function AllStarts(es: seq<Event>): nat {
    if es == [] then 0 else AllStarts(es[..|es| - 1]) + Starts(es[|es| - 1])
  }

  lemma {:induction false} RunBudget(w: Wire, s: State, es: seq<Event>)
    requires Inv(w, s)
    ensures Budget(Run(w, s, es)) <= Budget(s) + AllStarts(es)
    decreases |es|
  {
    if es == [] {
    } else {
      RunInv(w, s, es[..|es| - 1]);
      RunBudget(w, s, es[..|es| - 1]);
      StepBudget(w, Run(w, s, es[..|es| - 1]), es[|es| - 1]);
    }
  }

  /** However many timeouts there are, a run queues at most four packets for each DM and three for each channel
      message. */
  lemma TrafficIsBounded(w: Wire, s0: State, es: seq<Event>)
    requires Initial(s0)
    ensures |Run(w, s0, es).queue| <= AllStarts(es)
  {
    InitialInv(w, s0);
    RunInv(w, s0, es);
    RunBudget(w, s0, es);
    QueueWithinBudget(Run(w, s0, es));
  }

  // ---- learned routes ----

  ghost predicate RouteFits(r: Route) {
    Fits(r.raw, r.path) && (r.kind == Packet.ROUTE_TYPE_FLOOD || r.kind == Packet.ROUTE_TYPE_DIRECT)
  }

  ghost predicate RoutesOk(s: State) {
    && (forall p :: p in s.contacts ==> WellRouted(s.contacts[p]))
    && (forall i :: 0 <= i < |s.queue| ==> RouteFits(s.queue[i].route))
  }

  /** No contact returns a path that its own length byte contradicts. */
  ghost predicate HonestPaths(es: seq<Event>) {
    forall i :: 0 <= i < |es| && es[i].HearsPath? ==> Fits(es[i].dec.pathLenRaw, es[i].dec.path)
  }

  lemma RouteToFits(s: State, peer: Data)
    requires forall p :: p in s.contacts ==> WellRouted(s.contacts[p])
    ensures RouteFits(RouteTo(ContactOf(s, peer)))
  {
  }

  lemma TxKeepsRoutes(s: State, t: State, e: Sent)
    requires RoutesOk(s) && t.contacts == s.contacts && t.queue == s.queue + [e] && RouteFits(e.route)
    ensures RoutesOk(t)
  {
  }

  lemma SaveKeepsContacts(s: State, peer: Data, id: nat)
    ensures SaveHistory(s, peer).contacts == s.contacts && AddDm(s, peer, id).contacts == s.contacts
  {
  }

  lemma SendDmRoutes(w: Wire, s: State, peer: Data, text: Data, ts: nat, now: int)
    requires RoutesOk(s)
    ensures RoutesOk(SendDm(w, s, peer, text, ts, now).0)
  {
    if text != [] && peer in s.contacts {
      var (s1, r) := TxDm(w, Fresh(s, Direct(peer), text, ts), NewRecord(s.next, Direct(peer), text, ts), now);
      SaveKeepsContacts(s1, peer, s.next);
      SavingKeepsDelivery(s1, peer, s.next);
      RouteToFits(s, peer);
      TxKeepsRoutes(s, SendDmTo(w, s, peer, text, ts, now), s1.queue[|s.queue|]);
    }
  }

  lemma ResendRoutes(w: Wire, s: State, i: nat, now: int)
    requires RoutesOk(s) && i < |s.retries|
    ensures RoutesOk(Resend(w, s, i, now))
  {
    var r := s.retries[i];
    if r.kind.Direct? {
      RouteToFits(s, r.kind.peer);
    }
    var t := Resend(w, s, i, now);
    TxKeepsRoutes(s, t, t.queue[|s.queue|]);
  }

  lemma GiveUpRoutes(s: State, i: nat)
    requires RoutesOk(s) && i < |s.retries|
    ensures RoutesOk(GiveUp(s, i))
  {
    var r := s.retries[i];
    var s1 := s.(msgs := WithFailed(s.msgs, r.id), retries := Without(s.retries, i));
    if r.kind.Direct? {
      SaveKeepsContacts(s1, r.kind.peer, 0);
      SavingKeepsDelivery(s1, r.kind.peer, 0);
    }
  }

  lemma ResetRoutes(s: State, peer: Data)
    requires RoutesOk(s)
    ensures RoutesOk(ResetPath(s, peer))
  {
  }

  lemma TickAtRoutes(w: Wire, s: State, i: nat, now: int)
    requires RoutesOk(s) && i < |s.retries| && Due(s.retries[i], now)
    ensures RoutesOk(TickAt(w, s, i, now))
  {
    var r := s.retries[i];
    if r.kind.Direct? {
      var s1 := if r.direct then ResetPath(s, r.kind.peer) else s;
      ResetRoutes(s, r.kind.peer);
      GiveUpRoutes(s1, i);
      ResendRoutes(w, s1, i, now);
    } else {
      GiveUpRoutes(s, i);
      ResendRoutes(w, s, i, now);
    }
  }

  lemma {:induction false} TickFromRoutes(w: Wire, s: State, i: nat, now: int)
    requires RoutesOk(s) && i <= |s.retries|
    ensures RoutesOk(TickFrom(w, s, i, now))
    decreases |s.retries| - i
  {
    if i == |s.retries| {
    } else if !Due(s.retries[i], now) {
      TickFromRoutes(w, s, i + 1, now);
    } else {
      var t := TickAt(w, s, i, now);
      TickAtRoutes(w, s, i, now);
      TickFromRoutes(w, t, if |t.retries| < |s.retries| then i else i + 1, now);
    }
  }

  lemma AckRoutes(s: State, ack: Data)
    requires RoutesOk(s)
    ensures RoutesOk(MarkDelivered(s, ack).0)
  {
    if ack in s.pending.acks {
      var e := s.pending.acks[ack];
      var s1 := s.(pending := Pending.Take(s.pending, ack), msgs := WithDelivered(s.msgs, e.id));
      SaveKeepsContacts(CancelRetry(s1, e.id), e.peer, 0);
      SavingKeepsDelivery(CancelRetry(s1, e.id), e.peer, 0);
    }
  }

  lemma ReceiveRoutes(s: State, peer: Data, ts: nat, text: Data)
    requires RoutesOk(s)
    ensures RoutesOk(Receive(s, peer, ts, text))
  {
    if peer in s.contacts {
      var m := Msg(Direct(peer), true, ts, text, 0, None, false, false, false);
      var f := s.(next := s.next + 1, msgs := s.msgs[s.next := m]);
      SaveKeepsContacts(f, peer, s.next);
      SavingKeepsDelivery(f, peer, s.next);
    }
  }

  lemma LearnRoutes(s: State, dec: Dm.PathReturn)
    requires RoutesOk(s) && Fits(dec.pathLenRaw, dec.path)
    ensures RoutesOk(LearnPath(s, dec))
  {
    if dec.key in s.contacts {
      LearningKeepsRoutes(s.contacts[dec.key], dec);
    }
  }

  lemma StepRoutes(w: Wire, s: State, e: Event)
    requires RoutesOk(s) && (e.HearsPath? ==> Fits(e.dec.pathLenRaw, e.dec.path))
    ensures RoutesOk(Step(w, s, e))
  {
    match e
    case SendsDm(peer, text, ts, now) => SendDmRoutes(w, s, peer, text, ts, now);
    case Ticks(now) => TickFromRoutes(w, s, 0, now);
    case HearsAck(ack) => AckRoutes(s, ack);
    case HearsPath(dec) => LearnRoutes(s, dec);
    case HearsDm(peer, ts, text) => ReceiveRoutes(s, peer, ts, text);
    case _ =>
  }

  lemma {:induction false} RunRoutes(w: Wire, s: State, es: seq<Event>)
    requires RoutesOk(s) && HonestPaths(es)
    ensures RoutesOk(Run(w, s, es))
    decreases |es|
  {
    if es == [] {
    } else {
      var last := es[|es| - 1];
      assert HonestPaths(es[..|es| - 1]);
      RunRoutes(w, s, es[..|es| - 1]);
      StepRoutes(w, Run(w, s, es[..|es| - 1]), last);
    }
  }

  /** What a parser says of a packet whose route is sound: only the length of the payload counts. */
  function ParsedBack(p: Packet.Packet): Packet.Result<Packet.Packet, Packet.ParseError> {
    if p.payload == [] then Packet.Err(Packet.MissingPayload)
    else if |p.payload| > Packet.MAX_PACKET_PAYLOAD then Packet.Err(Packet.PayloadTooLong)
    else Packet.Ok(p)
  }

  /** If contacts return honest paths, every message packet a run queues, on whatever route, parses back to itself,
      or is refused for the length of its payload alone. */
  lemma QueuedPacketsParse(w: Wire, s0: State, es: seq<Event>, i: nat, payloadType: nat)
    requires RoutesOk(s0) && HonestPaths(es) && i < |Run(w, s0, es).queue|
    ensures var e := Run(w, s0, es).queue[i]; var p := PacketTo(e.route, payloadType, e.payload);
            Packet.Parse(Packet.ToBytes(p)) == ParsedBack(p) && Packet.RouteType(p.header) == e.route.kind
  {
    RunRoutes(w, s0, es);
    var e := Run(w, s0, es).queue[i];
    FittingRouteParses(e.route, payloadType, e.payload);
  }

  lemma FittingRouteParses(r: Route, payloadType: nat, payload: Data)
    requires RouteFits(r)
    ensures var p := PacketTo(r, payloadType, payload);
            Packet.Parse(Packet.ToBytes(p)) == ParsedBack(p) && Packet.RouteType(p.header) == r.kind
  {
    RouteHeader(r.kind, payloadType);
    var p := PacketTo(r, payloadType, payload);
    if 1 <= |payload| <= Packet.MAX_PACKET_PAYLOAD {
      Packet.PrintedParses(p);
    } else {
      RefusedForLength(p);
    }
  }

  lemma RefusedForLength(p: Packet.Packet)
    requires p.header < 256 && !Packet.HasTransportCodes(p.header) && Fits(p.pathLenRaw, p.path)
    requires p.payload == [] || |p.payload| > Packet.MAX_PACKET_PAYLOAD
    ensures Packet.Parse(Packet.ToBytes(p)) == ParsedBack(p)
  {
    var data := Packet.ToBytes(p);
    assert data == [p.header, p.pathLenRaw] + p.path + p.payload;
    assert data[0] == p.header && data[1] == p.pathLenRaw && |data| == 2 + |p.path| + |p.payload|;
  }
}
