/** Retry safety: what every step keeps true of messages, their records in _retries and the packets queued for them. */
module Retries {
  import opened Bytes
  import opened Protocol
  import Packet
  import Pending
  import opened Routes

  /** The packets queued for one message, oldest first. */
  function SendsOf(queue: seq<Sent>, id: nat): seq<Sent> {
    if queue == [] then []
    else
      var last := queue[|queue| - 1];
      SendsOf(queue[..|queue| - 1], id) + if last.id == id then [last] else []
  }

  lemma SendsGrow(queue: seq<Sent>, e: Sent, id: nat)
    ensures SendsOf(queue + [e], id) == if e.id == id then SendsOf(queue, id) + [e] else SendsOf(queue, id)
  {
    assert (queue + [e])[..|queue|] == queue;
  }

  lemma {:induction false} SendsAreQueued(queue: seq<Sent>, id: nat)
    requires SendsOf(queue, id) != []
    ensures exists i :: 0 <= i < |queue| && queue[i].id == id
  {
    if queue[|queue| - 1].id != id {
      SendsAreQueued(queue[..|queue| - 1], id);
    }
  }

  predicate WentDirect(e: Sent) { e.route.kind == Packet.ROUTE_TYPE_DIRECT }

  predicate Settled(m: Msg) { m.delivered || m.confirmed || m.failed }

  /** Attempts 0, 1, 2, ... were queued once each and in this order; never two direct ones in a row; and of a
      channel message only one while no repeater was heard. */
  ghost predicate SendsOk(m: Msg, sends: seq<Sent>, heard: bool) {
    && |sends| <= MaxSends(m.kind)
    && (forall i :: 0 <= i < |sends| ==> sends[i].attempt == i)
    && (forall i :: 0 < i < |sends| ==> !(WentDirect(sends[i - 1]) && WentDirect(sends[i])))
    && (m.kind.Group? && !heard ==> |sends| <= 1)
    && (m.incoming ==> sends == [])
  }

  ghost predicate MessageOk(msgs: map<nat, Msg>, queue: seq<Sent>, heard: bool, id: nat) {
    id in msgs ==> SendsOk(msgs[id], SendsOf(queue, id), heard)
  }

  /** The record's message is unsettled, and its attempts 0 to r.attempt are what was queued for it. */
  ghost predicate RecordOk(msgs: map<nat, Msg>, queue: seq<Sent>, r: Record) {
    && r.id in msgs && msgs[r.id].kind == r.kind && !msgs[r.id].incoming
    && !Settled(msgs[r.id])
    && r.attempt < MaxSends(r.kind) && (r.kind.Group? ==> !r.direct)
    && var sends := SendsOf(queue, r.id);
       |sends| == r.attempt + 1 && r.direct == WentDirect(sends[r.attempt])
  }

  /** A message has at most one record. */
  ghost predicate OneEach(retries: seq<Record>) {
    forall i, j :: 0 <= i < j < |retries| ==> retries[i].id != retries[j].id
  }

  ghost predicate RetriesOk(msgs: map<nat, Msg>, retries: seq<Record>, queue: seq<Sent>, heard: bool) {
    && OneEach(retries)
    && (forall i :: 0 <= i < |retries| ==> RecordOk(msgs, queue, retries[i]))
    && (forall id :: MessageOk(msgs, queue, heard, id))
    && (forall i :: 0 <= i < |queue| ==> queue[i].id in msgs)
  }

  lemma UnknownWasNotSent(msgs: map<nat, Msg>, queue: seq<Sent>, id: nat)
    requires id !in msgs && forall i :: 0 <= i < |queue| ==> queue[i].id in msgs
    ensures SendsOf(queue, id) == []
  {
    if SendsOf(queue, id) != [] {
      SendsAreQueued(queue, id);
    }
  }

  // ---- the six ways in which a step changes these ----

  lemma FirstSend(msgs: map<nat, Msg>, retries: seq<Record>, queue: seq<Sent>, heard: bool, m: Msg, r: Record, e: Sent)
    requires RetriesOk(msgs, retries, queue, heard) && r.id !in msgs
    requires m.kind == r.kind && !m.incoming && !Settled(m) && r.attempt == 0
    requires e.id == r.id && e.attempt == 0 && r.direct == WentDirect(e) && (r.kind.Group? ==> !r.direct)
    ensures RetriesOk(msgs[r.id := m], retries + [r], queue + [e], heard)
  {
    var n, q := msgs[r.id := m], queue + [e];
    UnknownWasNotSent(msgs, queue, r.id);
    SendsGrow(queue, e, r.id);
    forall id ensures MessageOk(n, q, heard, id) {
      SendsGrow(queue, e, id);
      assert MessageOk(msgs, queue, heard, id);
    }
    forall i | 0 <= i < |retries| ensures RecordOk(n, q, retries[i]) && retries[i].id != r.id {
      assert RecordOk(msgs, queue, retries[i]);
      SendsGrow(queue, e, retries[i].id);
    }
  }

  lemma Resent(msgs: map<nat, Msg>, retries: seq<Record>, queue: seq<Sent>, heard: bool,
               i: nat, m: Msg, r: Record, e: Sent)
    requires RetriesOk(msgs, retries, queue, heard) && i < |retries|
    requires r.id == retries[i].id && r.kind == retries[i].kind
    requires r.attempt == retries[i].attempt + 1 < MaxSends(r.kind)
    requires m.kind == r.kind && !m.incoming && !Settled(m)
    requires e.id == r.id && e.attempt == r.attempt && r.direct == WentDirect(e) && (r.kind.Group? ==> !r.direct)
    requires !(retries[i].direct && r.direct) && (r.kind.Group? ==> heard)
    ensures RetriesOk(msgs[r.id := m], retries[i := r], queue + [e], heard)
  {
    var n, q := msgs[r.id := m], queue + [e];
    assert RecordOk(msgs, queue, retries[i]);
    SendsGrow(queue, e, r.id);
    forall id ensures MessageOk(n, q, heard, id) {
      SendsGrow(queue, e, id);
      assert MessageOk(msgs, queue, heard, id);
    }
    var rs := retries[i := r];
    forall j | 0 <= j < |retries| ensures RecordOk(n, q, rs[j]) {
      assert RecordOk(msgs, queue, retries[j]);
      SendsGrow(queue, e, retries[j].id);
    }
  }

  lemma RecordGoes(msgs: map<nat, Msg>, retries: seq<Record>, queue: seq<Sent>, heard: bool, i: nat)
    requires RetriesOk(msgs, retries, queue, heard) && i < |retries|
    ensures RetriesOk(msgs, Without(retries, i), queue, heard)
    ensures forall j :: 0 <= j < |retries| - 1 ==> Without(retries, i)[j].id != retries[i].id
  {
  }

  lemma MessageChanges(msgs: map<nat, Msg>, retries: seq<Record>, queue: seq<Sent>, heard: bool, id: nat, m: Msg)
    requires RetriesOk(msgs, retries, queue, heard) && id in msgs
    requires m.kind == msgs[id].kind && m.incoming == msgs[id].incoming
    requires Settled(m) ==> forall j :: 0 <= j < |retries| ==> retries[j].id != id
    ensures RetriesOk(msgs[id := m], retries, queue, heard)
  {
    var n := msgs[id := m];
    forall k ensures MessageOk(n, queue, heard, k) {
      assert MessageOk(msgs, queue, heard, k);
    }
    forall j | 0 <= j < |retries| ensures RecordOk(n, queue, retries[j]) {
      assert RecordOk(msgs, queue, retries[j]);
    }
  }

  lemma MessageArrives(msgs: map<nat, Msg>, retries: seq<Record>, queue: seq<Sent>, heard: bool, id: nat, m: Msg)
    requires RetriesOk(msgs, retries, queue, heard) && id !in msgs
    ensures RetriesOk(msgs[id := m], retries, queue, heard)
  {
    var n := msgs[id := m];
    UnknownWasNotSent(msgs, queue, id);
    forall k ensures MessageOk(n, queue, heard, k) {
      assert MessageOk(msgs, queue, heard, k);
    }
    forall j | 0 <= j < |retries| ensures RecordOk(n, queue, retries[j]) {
      assert RecordOk(msgs, queue, retries[j]);
    }
  }

  lemma RepeaterHeard(msgs: map<nat, Msg>, retries: seq<Record>, queue: seq<Sent>, heard: bool)
    requires RetriesOk(msgs, retries, queue, heard)
    ensures RetriesOk(msgs, retries, queue, true)
  {
    forall id ensures MessageOk(msgs, queue, true, id) {
      assert MessageOk(msgs, queue, heard, id);
    }
  }

  // ---- every step ----

  ghost predicate Safe(s: State) {
    RetriesOk(s.msgs, s.retries, s.queue, s.heard) && forall id :: id in s.msgs ==> id < s.next
  }

  /** The message is in memory and nothing waits for it any more. */
  ghost predicate Retired(s: State, id: nat) {
    id in s.msgs && forall j :: 0 <= j < |s.retries| ==> s.retries[j].id != id
  }

  ghost predicate OnwardFrom(m: Msg, n: Msg) {
    && n.kind == m.kind && n.incoming == m.incoming && n.text == m.text && n.ts == m.ts
    && (m.delivered ==> n.delivered) && (m.confirmed ==> n.confirmed) && (m.failed ==> n.failed)
  }

  /** A message stays what it is and where it has got to; what was queued for it stays queued; once retired
      it stays so and nothing more is queued for it. */
  ghost predicate Kept(s: State, t: State, id: nat) {
    id in s.msgs ==>
      && id in t.msgs
      && OnwardFrom(s.msgs[id], t.msgs[id])
      && SendsOf(s.queue, id) <= SendsOf(t.queue, id)
      && (Retired(s, id) ==> Retired(t, id) && SendsOf(t.queue, id) == SendsOf(s.queue, id))
  }

  ghost predicate Advances(s: State, t: State) {
    (s.heard ==> t.heard) && forall id :: Kept(s, t, id)
  }

  lemma AdvancesOn(s: State, t: State, u: State)
    requires Advances(s, t) && Advances(t, u)
    ensures Advances(s, u)
  {
    forall id ensures Kept(s, u, id) {
      assert Kept(s, t, id) && Kept(t, u, id);
    }
  }

  lemma SettledIsRetired(s: State, id: nat)
    requires Safe(s) && id in s.msgs && Settled(s.msgs[id])
    ensures Retired(s, id)
  {
    forall j | 0 <= j < |s.retries| ensures s.retries[j].id != id {
      assert RecordOk(s.msgs, s.queue, s.retries[j]);
    }
  }

  /** The state differs in nothing that retries depend on. */
  ghost predicate SameDelivery(s: State, t: State) {
    s.msgs == t.msgs && s.retries == t.retries && s.queue == t.queue && s.heard == t.heard && s.next == t.next
  }

  lemma SavingKeepsDelivery(s: State, peer: Data, id: nat)
    ensures SameDelivery(s, SaveHistory(s, peer)) && SameDelivery(s, AddDm(s, peer, id))
  {
  }

  lemma SameAdvances(s: State, t: State)
    requires Safe(s) && SameDelivery(s, t)
    ensures Safe(t) && Advances(s, t)
  {
    forall id ensures Kept(s, t, id) {
    }
  }

  /** A first attempt of a new message. */
  lemma FirstAttempt(s: State, t: State, m: Msg, r: Record, e: Sent)
    requires Safe(s) && r.id == s.next && t.next == s.next + 1
    requires m.kind == r.kind && !m.incoming && !Settled(m) && r.attempt == 0
    requires e.id == r.id && e.attempt == 0 && r.direct == WentDirect(e) && (r.kind.Group? ==> !r.direct)
    requires t.msgs == s.msgs[r.id := m] && t.retries == s.retries + [r]
    requires t.queue == s.queue + [e] && t.heard == s.heard
    ensures Safe(t) && Advances(s, t)
  {
    FirstSend(s.msgs, s.retries, s.queue, s.heard, m, r, e);
    forall id ensures Kept(s, t, id) {
      SendsGrow(s.queue, e, id);
    }
  }

  lemma SendDmSafe(w: Wire, s: State, peer: Data, text: Data, ts: nat, now: int)
    requires Safe(s)
    ensures Safe(SendDm(w, s, peer, text, ts, now).0) && Advances(s, SendDm(w, s, peer, text, ts, now).0)
  {
    if text == [] || peer !in s.contacts {
      SameAdvances(s, s);
    } else {
      var f, r0 := Fresh(s, Direct(peer), text, ts), NewRecord(s.next, Direct(peer), text, ts);
      var (s1, r) := TxDm(w, f, r0, now);
      SavingKeepsDelivery(s1, peer, s.next);
      FirstAttempt(s, SendDmTo(w, s, peer, text, ts, now), s1.msgs[s.next], r, s1.queue[|s.queue|]);
    }
  }

  lemma SendGroupSafe(w: Wire, s: State, name: Data, text: Data, ts: nat, now: int)
    requires Safe(s)
    ensures Safe(SendGroup(w, s, name, text, ts, now).0) && Advances(s, SendGroup(w, s, name, text, ts, now).0)
  {
    if text == [] {
      SameAdvances(s, s);
    } else {
      var f, r0 := Fresh(s, Group(name), text, ts), NewRecord(s.next, Group(name), text, ts);
      var (s1, r) := TxGroup(w, f, r0, now);
      FirstAttempt(s, SendGroup(w, s, name, text, ts, now).0, s1.msgs[s.next], r, s1.queue[|s.queue|]);
    }
  }

  lemma NextAttempt(s: State, t: State, i: nat, m: Msg, r: Record, e: Sent)
    requires Safe(s) && i < |s.retries| && r.id == s.retries[i].id && r.id in s.msgs && t.next == s.next
    requires r.kind == s.retries[i].kind && r.attempt == s.retries[i].attempt + 1 < MaxSends(r.kind)
    requires m == s.msgs[r.id].(attempt := m.attempt, ack := m.ack)
    requires e.id == r.id && e.attempt == r.attempt && r.direct == WentDirect(e) && (r.kind.Group? ==> !r.direct)
    requires !(s.retries[i].direct && r.direct) && (r.kind.Group? ==> s.heard)
    requires t.msgs == s.msgs[r.id := m] && t.retries == s.retries[i := r]
    requires t.queue == s.queue + [e] && t.heard == s.heard
    ensures Safe(t) && Advances(s, t)
  {
    assert RecordOk(s.msgs, s.queue, s.retries[i]);
    Resent(s.msgs, s.retries, s.queue, s.heard, i, m, r, e);
    forall id ensures Kept(s, t, id) {
      SendsGrow(s.queue, e, id);
    }
  }

  lemma ResendSafe(w: Wire, s: State, i: nat, now: int)
    requires Safe(s) && i < |s.retries| && s.retries[i].attempt + 1 < MaxSends(s.retries[i].kind)
    requires s.retries[i].kind.Group? ==> s.heard
    requires s.retries[i].direct && s.retries[i].kind.Direct? ==>
               RouteTo(ContactOf(s, s.retries[i].kind.peer)) == Routes.FLOOD_ROUTE
    ensures Safe(Resend(w, s, i, now)) && Advances(s, Resend(w, s, i, now))
  {
    var t := Resend(w, s, i, now);
    assert RecordOk(s.msgs, s.queue, s.retries[i]);
    var id := s.retries[i].id;
    NextAttempt(s, t, i, t.msgs[id], t.retries[i], t.queue[|s.queue|]);
  }

  lemma GiveUpSafe(s: State, i: nat)
    requires Safe(s) && i < |s.retries|
    ensures Safe(GiveUp(s, i)) && Advances(s, GiveUp(s, i))
  {
    var id := s.retries[i].id;
    assert RecordOk(s.msgs, s.queue, s.retries[i]);
    DroppedAndMarked(s, GiveUp(s, i), i, s.msgs[id].(failed := true));
  }

  /** Record i goes, and its message is marked or left as it is. */
  lemma DroppedAndMarked(s: State, t: State, i: nat, m: Msg)
    requires Safe(s) && i < |s.retries| && s.retries[i].id in s.msgs
    requires var was := s.msgs[s.retries[i].id];
             m == was.(delivered := m.delivered, confirmed := m.confirmed, failed := m.failed)
             && (was.delivered ==> m.delivered) && (was.confirmed ==> m.confirmed) && (was.failed ==> m.failed)
    requires t.msgs == s.msgs[s.retries[i].id := m] && t.retries == Without(s.retries, i)
    requires t.queue == s.queue && t.heard == s.heard && t.next == s.next
    ensures Safe(t) && Advances(s, t)
  {
    var id := s.retries[i].id;
    RecordGoes(s.msgs, s.retries, s.queue, s.heard, i);
    MessageChanges(s.msgs, t.retries, s.queue, s.heard, id, m);
    forall k ensures Kept(s, t, k) {
    }
  }

  lemma ResetFloods(s: State, peer: Data)
    ensures RouteTo(ContactOf(ResetPath(s, peer), peer)) == Routes.FLOOD_ROUTE
    ensures SameDelivery(s, ResetPath(s, peer))
  {
  }

  /** One due record: a direct attempt that was not acked is followed by a flooded one. */
  lemma TickAtSafe(w: Wire, s: State, i: nat, now: int)
    requires Safe(s) && i < |s.retries| && Due(s.retries[i], now)
    ensures Safe(TickAt(w, s, i, now)) && Advances(s, TickAt(w, s, i, now))
  {
    var r := s.retries[i];
    assert RecordOk(s.msgs, s.queue, r);
    if r.kind.Group? {
      if !s.heard {
        DroppedAndMarked(s, s.(retries := Without(s.retries, i)), i, s.msgs[r.id]);
      } else if r.attempt + 1 >= CH_MAX_SENDS {
        GiveUpSafe(s, i);
      } else {
        ResendSafe(w, s, i, now);
      }
    } else {
      var s1 := if r.direct then ResetPath(s, r.kind.peer) else s;
      ResetFloods(s, r.kind.peer);
      SameAdvances(s, s1);
      if r.attempt + 1 >= DM_MAX_SENDS {
        GiveUpSafe(s1, i);
      } else {
        ResendSafe(w, s1, i, now);
      }
      AdvancesOn(s, s1, TickAt(w, s, i, now));
    }
  }

  lemma {:induction false} TickFromSafe(w: Wire, s: State, i: nat, now: int)
    requires Safe(s) && i <= |s.retries|
    ensures Safe(TickFrom(w, s, i, now)) && Advances(s, TickFrom(w, s, i, now))
    decreases |s.retries| - i
  {
    if i == |s.retries| {
      SameAdvances(s, s);
    } else if !Due(s.retries[i], now) {
      TickFromSafe(w, s, i + 1, now);
    } else {
      var t := TickAt(w, s, i, now);
      TickAtSafe(w, s, i, now);
      if |t.retries| < |s.retries| {
        TickFromSafe(w, t, i, now);
      } else {
        TickFromSafe(w, t, i + 1, now);
      }
      AdvancesOn(s, t, TickFrom(w, s, i, now));
    }
  }

  lemma CancelSafe(s: State, id: nat)
    requires Safe(s)
    ensures Safe(CancelRetry(s, id)) && Advances(s, CancelRetry(s, id))
    ensures id in s.msgs ==> Retired(CancelRetry(s, id), id)
  {
    var i := Find(s.retries, id);
    if i < |s.retries| {
      assert RecordOk(s.msgs, s.queue, s.retries[i]);
      RecordGoes(s.msgs, s.retries, s.queue, s.heard, i);
      DroppedAndMarked(s, CancelRetry(s, id), i, s.msgs[id]);
    } else {
      SameAdvances(s, CancelRetry(s, id));
    }
  }

  /** Cancelling and marking commute: the record is gone before the message counts as settled. */
  lemma DeliveredSafe(s: State, t: State, id: nat)
    requires Safe(s) && Retired(s, id)
    requires t.msgs == WithDelivered(s.msgs, id) && t.retries == s.retries
    requires t.queue == s.queue && t.heard == s.heard && t.next == s.next
    ensures Safe(t) && Advances(s, t) && t.msgs[id].delivered
  {
    MessageChanges(s.msgs, s.retries, s.queue, s.heard, id, s.msgs[id].(delivered := true));
    forall k ensures Kept(s, t, k) {
    }
  }

  lemma AckSafe(s: State, ack: Data)
    requires Safe(s) && (ack in s.pending.acks ==> s.pending.acks[ack].id in s.msgs)
    ensures Safe(MarkDelivered(s, ack).0) && Advances(s, MarkDelivered(s, ack).0)
    ensures ack in s.pending.acks ==> MarkDelivered(s, ack).0.msgs[s.pending.acks[ack].id].delivered
  {
    if ack !in s.pending.acks {
      SameAdvances(s, s);
    } else {
      var e := s.pending.acks[ack];
      var c := CancelRetry(s, e.id);
      CancelSafe(s, e.id);
      var s1 := s.(pending := Pending.Take(s.pending, ack), msgs := WithDelivered(s.msgs, e.id));
      var t := CancelRetry(s1, e.id);
      assert t.retries == c.retries && t.queue == c.queue && c.msgs == s.msgs;
      DeliveredSafe(c, t, e.id);
      AdvancesOn(s, c, t);
      SavingKeepsDelivery(t, e.peer, 0);
      SameAdvances(t, MarkDelivered(s, ack).0);
      AdvancesOn(s, t, MarkDelivered(s, ack).0);
    }
  }

  lemma EchoSafe(s: State, h: Data)
    requires Safe(s)
    ensures Safe(NoteEcho(s, h)) && Advances(s, NoteEcho(s, h))
  {
    var i := FindEcho(s.retries, h);
    if i < |s.retries| {
      var id := s.retries[i].id;
      assert RecordOk(s.msgs, s.queue, s.retries[i]);
      DroppedAndMarked(s, NoteEcho(s, h), i, s.msgs[id].(confirmed := true));
    } else {
      SameAdvances(s, s);
    }
  }

  lemma ReceiveSafe(s: State, peer: Data, ts: nat, text: Data)
    requires Safe(s)
    ensures Safe(Receive(s, peer, ts, text)) && Advances(s, Receive(s, peer, ts, text))
  {
    if peer !in s.contacts {
      SameAdvances(s, s);
    } else {
      var m := Msg(Direct(peer), true, ts, text, 0, None, false, false, false);
      var f := s.(next := s.next + 1, msgs := s.msgs[s.next := m]);
      MessageArrives(s.msgs, s.retries, s.queue, s.heard, s.next, m);
      forall id ensures Kept(s, f, id) {
      }
      SavingKeepsDelivery(f, peer, s.next);
      SameAdvances(f, Receive(s, peer, ts, text));
      AdvancesOn(s, f, Receive(s, peer, ts, text));
    }
  }

  lemma HeardSafe(s: State)
    requires Safe(s)
    ensures Safe(s.(heard := true)) && Advances(s, s.(heard := true))
  {
    RepeaterHeard(s.msgs, s.retries, s.queue, s.heard);
    forall id ensures Kept(s, s.(heard := true), id) {
    }
  }

  /** Every pending ack names a message in memory. */
  ghost predicate PendingKnown(s: State) {
    forall a :: a in s.pending.acks ==> s.pending.acks[a].id in s.msgs
  }

  lemma StepSafe(w: Wire, s: State, e: Event)
    requires Safe(s) && PendingKnown(s)
    ensures Safe(Step(w, s, e)) && Advances(s, Step(w, s, e))
  {
    match e
    case SendsDm(peer, text, ts, now) => SendDmSafe(w, s, peer, text, ts, now);
    case SendsGroup(name, text, ts, now) => SendGroupSafe(w, s, name, text, ts, now);
    case Ticks(now) => TickFromSafe(w, s, 0, now);
    case HearsAck(ack) => AckSafe(s, ack);
    case HearsEcho(h) => EchoSafe(s, h);
    case HearsRepeater => HeardSafe(s);
    case HearsDm(peer, ts, text) => ReceiveSafe(s, peer, ts, text);
    case _ => SameAdvances(s, Step(w, s, e));
  }
}
