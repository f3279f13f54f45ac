/** The pending-ack table over every run: which message an ack settles, and when an ack is still known. */
module Acks {
  import opened Bytes
  import opened Protocol
  import opened Retries
  import opened Pending
  import opened Routes
  import Packet

  function Delivered(msgs: map<nat, Msg>): set<nat> {
    set id | id in msgs && msgs[id].delivered
  }

  /** The entry's message is in memory, and it is a DM to this peer. */
  ghost predicate EntryOk(msgs: map<nat, Msg>, e: Entry) {
    e.id in msgs && msgs[e.id].kind == Direct(e.peer)
  }

  /** Every ack a record collected was registered for its message. */
  ghost predicate RecordAcks(msgs: map<nat, Msg>, log: seq<Registration>, r: Record) {
    && r.id in msgs && r.text == msgs[r.id].text && r.ts == msgs[r.id].ts
    && (r.kind.Direct? ==> forall a :: a in r.acks ==> Registered(log, a, Entry(r.kind.peer, r.id)))
  }

  /** What was queued for an attempt is the codec's payload for it, and the ack expected for it was registered. */
  ghost predicate AttemptEncoded(w: Wire, msgs: map<nat, Msg>, log: seq<Registration>, e: Sent) {
    && e.id in msgs
    && var m := msgs[e.id];
       if m.kind.Direct? then
         && e.payload == w.dm(m.kind.peer, m.text, m.ts, e.attempt).0
         && Registered(log, w.dm(m.kind.peer, m.text, m.ts, e.attempt).1, Entry(m.kind.peer, e.id))
       else
         e.payload == w.group(m.kind.name, m.text, m.ts + e.attempt)
  }

  ghost predicate AcksOk(w: Wire, s: State) {
    && Bounded(s.pending, s.registered)
    && Complete(s.pending, s.registered, Delivered(s.msgs))
    && (forall k :: 0 <= k < |s.registered| ==> EntryOk(s.msgs, s.registered[k].entry))
    && (forall i :: 0 <= i < |s.retries| ==> RecordAcks(s.msgs, s.registered, s.retries[i]))
    && (forall i :: 0 <= i < |s.queue| ==> AttemptEncoded(w, s.msgs, s.registered, s.queue[i]))
  }

  lemma PendingIsKnown(w: Wire, s: State, ack: Data)
    requires AcksOk(w, s) && ack in s.pending.acks
    ensures EntryOk(s.msgs, s.pending.acks[ack]) && Registered(s.registered, ack, s.pending.acks[ack])
  {
    NewestIsOne(s.registered, ack, s.pending.acks[ack], s.pending.acks[ack]);
    var k :| 0 <= k < |s.registered| && s.registered[k] == Registration(ack, s.pending.acks[ack]);
    assert EntryOk(s.msgs, s.registered[k].entry);
  }

  lemma AllPendingKnown(w: Wire, s: State)
    requires AcksOk(w, s)
    ensures PendingKnown(s)
  {
    forall a | a in s.pending.acks ensures s.pending.acks[a].id in s.msgs {
      PendingIsKnown(w, s, a);
    }
  }

  /** What only moves messages on, and registers and settles nothing, keeps the table. */
  lemma UntouchedKeeps(w: Wire, s: State, t: State)
    requires AcksOk(w, s) && Advances(s, t)
    requires t.pending == s.pending && t.registered == s.registered
    requires forall i :: 0 <= i < |t.retries| ==> RecordAcks(t.msgs, t.registered, t.retries[i])
    requires forall i :: 0 <= i < |t.queue| ==>
               t.queue[i] in s.queue || AttemptEncoded(w, t.msgs, t.registered, t.queue[i])
    ensures AcksOk(w, t)
  {
    forall k | 0 <= k < |t.registered| ensures EntryOk(t.msgs, t.registered[k].entry) {
      assert EntryOk(s.msgs, s.registered[k].entry) && Kept(s, t, s.registered[k].entry.id);
    }
    forall i | 0 <= i < |t.queue| ensures AttemptEncoded(w, t.msgs, t.registered, t.queue[i]) {
      if t.queue[i] in s.queue {
        AttemptStays(w, s, t, t.queue[i]);
      }
    }
    DeliveredGrows(s, t);
  }

  lemma AttemptStays(w: Wire, s: State, t: State, e: Sent)
    requires Advances(s, t) && AttemptEncoded(w, s.msgs, s.registered, e)
    requires forall r :: r in s.registered ==> r in t.registered
    ensures AttemptEncoded(w, t.msgs, t.registered, e)
  {
    assert Kept(s, t, e.id);
  }

  lemma DeliveredGrows(s: State, t: State)
    requires Advances(s, t)
    ensures Delivered(s.msgs) <= Delivered(t.msgs)
  {
    forall id | id in Delivered(s.msgs) ensures id in Delivered(t.msgs) {
      assert Kept(s, t, id);
    }
  }

  lemma FewerCounted(t: Table, log: seq<Registration>, d: set<nat>, more: set<nat>)
    requires Complete(t, log, d) && d <= more
    ensures Complete(t, log, more)
  {
  }

  lemma RecordStays(s: State, t: State, r: Record)
    requires Advances(s, t) && RecordAcks(s.msgs, s.registered, r)
    requires forall x :: x in s.registered ==> x in t.registered
    ensures RecordAcks(t.msgs, t.registered, r)
  {
    assert Kept(s, t, r.id);
  }

  /** One more attempt: its ack is registered, and its record and packet are added. */
  lemma RegistrationKeeps(w: Wire, s: State, t: State, ack: Data, e: Entry, r: Record, sent: Sent)
    requires AcksOk(w, s) && Advances(s, t) && EntryOk(t.msgs, e)
    requires t.pending == Register(s.pending, ack, e) && t.registered == s.registered + [Registration(ack, e)]
    requires forall i :: 0 <= i < |t.retries| ==> t.retries[i] in s.retries || t.retries[i] == r
    requires RecordAcks(t.msgs, t.registered, r)
    requires t.queue == s.queue + [sent] && AttemptEncoded(w, t.msgs, t.registered, sent)
    ensures AcksOk(w, t)
  {
    RegisterBounded(s.pending, s.registered, ack, e);
    RegisterComplete(s.pending, s.registered, ack, e, Delivered(s.msgs));
    DeliveredGrows(s, t);
    FewerCounted(t.pending, t.registered, Delivered(s.msgs), Delivered(t.msgs));
    forall k | 0 <= k < |t.registered| ensures EntryOk(t.msgs, t.registered[k].entry) {
      if k < |s.registered| {
        assert EntryOk(s.msgs, s.registered[k].entry) && Kept(s, t, s.registered[k].entry.id);
      }
    }
    forall i | 0 <= i < |t.retries| ensures RecordAcks(t.msgs, t.registered, t.retries[i]) {
      if t.retries[i] in s.retries {
        RecordStays(s, t, t.retries[i]);
      }
    }
    forall i | 0 <= i < |t.queue| ensures AttemptEncoded(w, t.msgs, t.registered, t.queue[i]) {
      if i < |s.queue| {
        AttemptStays(w, s, t, s.queue[i]);
      }
    }
  }

  /** The state after a DM was sent, in terms of the state before. */
  lemma AfterSend(w: Wire, s: State, peer: Data, text: Data, ts: nat, now: int)
    ensures var t := SendDmTo(w, s, peer, text, ts, now);
            var (payload, ack) := w.dm(peer, text, ts, 0);
            var route := RouteTo(ContactOf(s, peer));
            && t.msgs == s.msgs[s.next := Msg(Direct(peer), false, ts, text, 0, Some(ack), false, false, false)]
            && t.pending == Register(s.pending, ack, Entry(peer, s.next))
            && t.registered == s.registered + [Registration(ack, Entry(peer, s.next))]
            && t.queue == s.queue + [Sent(s.next, 0, route, payload)]
            && t.retries == s.retries + [Record(s.next, Direct(peer), text, ts, 0,
                                                route.kind == Packet.ROUTE_TYPE_DIRECT, [ack], None, now)]
  {
    var (s1, r) := TxDm(w, Fresh(s, Direct(peer), text, ts), NewRecord(s.next, Direct(peer), text, ts), now);
    SavingKeepsAcks(s1, peer, s.next);
    SavingKeepsDelivery(s1, peer, s.next);
    var m := Msg(Direct(peer), false, ts, text, 0, None, false, false, false);
    assert s.msgs[s.next := m][s.next := m.(ack := Some(w.dm(peer, text, ts, 0).1))]
        == s.msgs[s.next := m.(ack := Some(w.dm(peer, text, ts, 0).1))];
    assert [] + [w.dm(peer, text, ts, 0).1] == [w.dm(peer, text, ts, 0).1];
  }

  lemma SentKeeps(w: Wire, s: State, t: State, id: nat, m: Msg, r: Record, sent: Sent, ack: Data)
    requires AcksOk(w, s) && Advances(s, t) && m.kind.Direct? && t.msgs == s.msgs[id := m]
    requires t.pending == Register(s.pending, ack, Entry(m.kind.peer, id))
    requires t.registered == s.registered + [Registration(ack, Entry(m.kind.peer, id))]
    requires t.queue == s.queue + [sent] && t.retries == s.retries + [r]
    requires sent.id == r.id == id && r.kind == m.kind && r.text == m.text && r.ts == m.ts && r.acks == [ack]
    requires (sent.payload, ack) == w.dm(m.kind.peer, m.text, m.ts, sent.attempt)
    ensures AcksOk(w, t)
  {
    RegistrationKeeps(w, s, t, ack, Entry(m.kind.peer, id), r, sent);
  }

  lemma SendDmAcks(w: Wire, s: State, peer: Data, text: Data, ts: nat, now: int)
    requires Safe(s) && AcksOk(w, s)
    ensures AcksOk(w, SendDm(w, s, peer, text, ts, now).0)
  {
    if text != [] && peer in s.contacts {
      var t := SendDmTo(w, s, peer, text, ts, now);
      SendDmSafe(w, s, peer, text, ts, now);
      AfterSend(w, s, peer, text, ts, now);
      SentKeeps(w, s, t, s.next, t.msgs[s.next], t.retries[|s.retries|], t.queue[|s.queue|], w.dm(peer, text, ts, 0).1);
    }
  }

  lemma SavingKeepsAcks(s: State, peer: Data, id: nat)
    ensures SaveHistory(s, peer).pending == s.pending && SaveHistory(s, peer).registered == s.registered
    ensures AddDm(s, peer, id).pending == s.pending && AddDm(s, peer, id).registered == s.registered
  {
  }

  lemma ResendDmAcks(w: Wire, s: State, i: nat, now: int)
    requires Safe(s) && AcksOk(w, s) && i < |s.retries| && s.retries[i].kind.Direct?
    requires Advances(s, Resend(w, s, i, now))
    ensures AcksOk(w, Resend(w, s, i, now))
  {
    var t := Resend(w, s, i, now);
    var r := s.retries[i];
    assert RecordOk(s.msgs, s.queue, r) && RecordAcks(s.msgs, s.registered, r);
    assert Kept(s, t, r.id);
    var ack := w.dm(r.kind.peer, r.text, r.ts, r.attempt + 1).1;
    var e := Entry(r.kind.peer, r.id);
    assert Registered(t.registered, ack, e);
    RecordGains(s, t, r, t.retries[i], ack);
    RegistrationKeeps(w, s, t, ack, e, t.retries[i], t.queue[|s.queue|]);
  }

  lemma RecordGains(s: State, t: State, r: Record, r2: Record, ack: Data)
    requires Advances(s, t) && RecordAcks(s.msgs, s.registered, r) && r.kind.Direct?
    requires t.registered == s.registered + [Registration(ack, Entry(r.kind.peer, r.id))]
    requires r2 == r.(attempt := r2.attempt, direct := r2.direct, acks := r.acks + [ack], sentMs := r2.sentMs)
    ensures RecordAcks(t.msgs, t.registered, r2)
  {
    RecordStays(s, t, r);
    assert Registered(t.registered, ack, Entry(r.kind.peer, r.id));
  }

  /** Steps that register nothing: each record left was there before, but for its attempt, hash and time. */
  lemma RecordsRemain(w: Wire, s: State, t: State)
    requires AcksOk(w, s) && Advances(s, t) && t.pending == s.pending && t.registered == s.registered
    requires forall i :: 0 <= i < |t.retries| ==> CameFrom(s, t.retries[i])
    requires forall i :: 0 <= i < |t.queue| ==>
               t.queue[i] in s.queue || AttemptEncoded(w, t.msgs, t.registered, t.queue[i])
    ensures AcksOk(w, t)
  {
    forall i | 0 <= i < |t.retries| ensures RecordAcks(t.msgs, t.registered, t.retries[i]) {
      assert CameFrom(s, t.retries[i]);
      var j :| 0 <= j < |s.retries| && SameMessage(s.retries[j], t.retries[i]);
      RecordStays(s, t, s.retries[j]);
    }
    UntouchedKeeps(w, s, t);
  }

  ghost predicate SameMessage(r: Record, q: Record) {
    q == r.(attempt := q.attempt, hash := q.hash, sentMs := q.sentMs)
  }

  ghost predicate CameFrom(s: State, r: Record) {
    exists j :: 0 <= j < |s.retries| && SameMessage(s.retries[j], r)
  }

  lemma SameRecords(s: State, t: State)
    requires t.retries == s.retries
    ensures forall i :: 0 <= i < |t.retries| ==> CameFrom(s, t.retries[i])
  {
    forall i | 0 <= i < |t.retries| ensures CameFrom(s, t.retries[i]) {
      assert SameMessage(s.retries[i], t.retries[i]);
    }
  }

  lemma FewerRecords(s: State, t: State, i: nat)
    requires i < |s.retries| && t.retries == Without(s.retries, i)
    ensures forall j :: 0 <= j < |t.retries| ==> CameFrom(s, t.retries[j])
  {
    forall j | 0 <= j < |t.retries| ensures CameFrom(s, t.retries[j]) {
      assert SameMessage(s.retries[if j < i then j else j + 1], t.retries[j]);
    }
  }

  lemma OneRecordNew(s: State, t: State, i: nat)
    requires i < |s.retries| == |t.retries| && t.retries == s.retries[i := t.retries[i]]
    requires SameMessage(s.retries[i], t.retries[i])
    ensures forall j :: 0 <= j < |t.retries| ==> CameFrom(s, t.retries[j])
  {
    forall j | 0 <= j < |t.retries| ensures CameFrom(s, t.retries[j]) {
      assert SameMessage(s.retries[j], t.retries[j]);
    }
  }

  lemma GiveUpAcks(w: Wire, s: State, i: nat)
    requires Safe(s) && AcksOk(w, s) && i < |s.retries|
    ensures AcksOk(w, GiveUp(s, i))
  {
    var t := GiveUp(s, i);
    GiveUpSafe(s, i);
    var s1 := s.(msgs := WithFailed(s.msgs, s.retries[i].id), retries := Without(s.retries, i));
    if s.retries[i].kind.Direct? {
      SavingKeepsAcks(s1, s.retries[i].kind.peer, 0);
      SavingKeepsDelivery(s1, s.retries[i].kind.peer, 0);
    }
    FewerRecords(s, t, i);
    RecordsRemain(w, s, t);
  }

  lemma ResendGroupAcks(w: Wire, s: State, i: nat, now: int)
    requires Safe(s) && AcksOk(w, s) && i < |s.retries| && s.retries[i].kind.Group?
    requires Advances(s, Resend(w, s, i, now))
    ensures AcksOk(w, Resend(w, s, i, now))
  {
    var t := Resend(w, s, i, now);
    assert RecordOk(s.msgs, s.queue, s.retries[i]);
    assert Kept(s, t, s.retries[i].id);
    OneRecordNew(s, t, i);
    RecordsRemain(w, s, t);
  }

  lemma SameDeliveryKeepsAcks(w: Wire, s: State, t: State)
    requires Safe(s) && AcksOk(w, s) && SameDelivery(s, t) && t.pending == s.pending && t.registered == s.registered
    ensures AcksOk(w, t)
  {
    SameAdvances(s, t);
    SameRecords(s, t);
    RecordsRemain(w, s, t);
  }

  lemma TickAtAcks(w: Wire, s: State, i: nat, now: int)
    requires Safe(s) && AcksOk(w, s) && i < |s.retries| && Due(s.retries[i], now)
    ensures AcksOk(w, TickAt(w, s, i, now))
  {
    var r := s.retries[i];
    TickAtSafe(w, s, i, now);
    if r.kind.Group? {
      if !s.heard {
        FewerRecords(s, TickAt(w, s, i, now), i);
        RecordsRemain(w, s, TickAt(w, s, i, now));
      } else if r.attempt + 1 >= CH_MAX_SENDS {
        GiveUpAcks(w, s, i);
      } else {
        ResendGroupAcks(w, s, i, now);
      }
    } else {
      var s1 := if r.direct then ResetPath(s, r.kind.peer) else s;
      ResetFloods(s, r.kind.peer);
      SameAdvances(s, s1);
      SameDeliveryKeepsAcks(w, s, s1);
      if r.attempt + 1 >= DM_MAX_SENDS {
        GiveUpAcks(w, s1, i);
      } else {
        ResendSafe(w, s1, i, now);
        ResendDmAcks(w, s1, i, now);
      }
    }
  }

  lemma {:induction false} TickFromAcks(w: Wire, s: State, i: nat, now: int)
    requires Safe(s) && AcksOk(w, s) && i <= |s.retries|
    ensures AcksOk(w, TickFrom(w, s, i, now))
    decreases |s.retries| - i
  {
    if i == |s.retries| {
    } else if !Due(s.retries[i], now) {
      TickFromAcks(w, s, i + 1, now);
    } else {
      var t := TickAt(w, s, i, now);
      TickAtSafe(w, s, i, now);
      TickAtAcks(w, s, i, now);
      TickFromAcks(w, t, if |t.retries| < |s.retries| then i else i + 1, now);
    }
  }

  /** The table after an ack was taken out and the other acks of its message with it. */
  lemma DeliveryKeepsTable(t: Table, log: seq<Registration>, ack: Data, acks: seq<Data>, delivered: set<nat>)
    requires Bounded(t, log) && ack in t.acks
    requires Complete(t, log, delivered)
    requires forall a :: a in acks ==> Registered(log, a, t.acks[ack])
    ensures Bounded(Drop(Take(t, ack), acks), log) && Bounded(Take(t, ack), log)
    ensures Complete(Drop(Take(t, ack), acks), log, delivered + {t.acks[ack].id})
    ensures Complete(Take(t, ack), log, delivered + {t.acks[ack].id})
  {
    var e := t.acks[ack];
    TakeBounded(t, log, ack);
    TakeComplete(t, log, ack, delivered);
    forall a | a in acks ensures exists p :: Registered(log, a, Entry(p, e.id)) {
      assert Registered(log, a, Entry(e.peer, e.id));
    }
    DropKeeps(Take(t, ack), log, acks, e.id, delivered + {e.id});
  }

  /** The acks that go with a delivered message: those of its record, if it still has one. */
  function Others(s: State, id: nat): seq<Data> {
    var i := Find(s.retries, id);
    if i < |s.retries| then s.retries[i].acks else []
  }

  lemma OthersAreItsOwn(w: Wire, s: State, e: Entry)
    requires Safe(s) && AcksOk(w, s) && EntryOk(s.msgs, e)
    ensures forall a :: a in Others(s, e.id) ==> Registered(s.registered, a, e)
  {
    var i := Find(s.retries, e.id);
    if i < |s.retries| {
      assert RecordOk(s.msgs, s.queue, s.retries[i]) && RecordAcks(s.msgs, s.registered, s.retries[i]);
    }
  }

  /** The state after _mark_delivered, in terms of the state before. */
  lemma AfterDelivery(s: State, ack: Data)
    requires ack in s.pending.acks
    ensures var e := s.pending.acks[ack]; var t := MarkDelivered(s, ack).0; var i := Find(s.retries, e.id);
            && t.msgs == WithDelivered(s.msgs, e.id) && t.registered == s.registered && t.queue == s.queue
            && t.retries == (if i < |s.retries| then Without(s.retries, i) else s.retries)
            && t.pending == (if i < |s.retries| then Pending.Drop(Pending.Take(s.pending, ack), Others(s, e.id))
                             else Pending.Take(s.pending, ack))
  {
    var e := s.pending.acks[ack];
    var s1 := s.(pending := Pending.Take(s.pending, ack), msgs := WithDelivered(s.msgs, e.id));
    SavingKeepsAcks(CancelRetry(s1, e.id), e.peer, 0);
    SavingKeepsDelivery(CancelRetry(s1, e.id), e.peer, 0);
  }

  lemma DeliveredAfter(s: State, t: State, id: nat)
    requires t.msgs == WithDelivered(s.msgs, id) && id in s.msgs
    ensures Delivered(t.msgs) == Delivered(s.msgs) + {id}
  {
  }

  lemma AckAcks(w: Wire, s: State, ack: Data)
    requires Safe(s) && AcksOk(w, s)
    ensures AcksOk(w, MarkDelivered(s, ack).0)
  {
    if ack in s.pending.acks {
      var e, t := s.pending.acks[ack], MarkDelivered(s, ack).0;
      PendingIsKnown(w, s, ack);
      AckSafe(s, ack);
      AfterDelivery(s, ack);
      OthersAreItsOwn(w, s, e);
      DeliveryKeepsTable(s.pending, s.registered, ack, Others(s, e.id), Delivered(s.msgs));
      DeliveredAfter(s, t, e.id);
      DeliveredTable(w, s, t);
    }
  }

  lemma DeliveredTable(w: Wire, s: State, t: State)
    requires AcksOk(w, s) && Advances(s, t)
    requires t.registered == s.registered && t.queue == s.queue
    requires Bounded(t.pending, t.registered)
    requires Complete(t.pending, t.registered, Delivered(t.msgs))
    requires t.retries == s.retries || exists i: nat :: i < |s.retries| && t.retries == Without(s.retries, i)
    ensures AcksOk(w, t)
  {
    forall k | 0 <= k < |t.registered| ensures EntryOk(t.msgs, t.registered[k].entry) {
      assert EntryOk(s.msgs, s.registered[k].entry) && Kept(s, t, s.registered[k].entry.id);
    }
    forall i | 0 <= i < |t.queue| ensures AttemptEncoded(w, t.msgs, t.registered, t.queue[i]) {
      AttemptStays(w, s, t, s.queue[i]);
    }
    forall i | 0 <= i < |t.retries| ensures RecordAcks(t.msgs, t.registered, t.retries[i]) {
      assert t.retries[i] in s.retries;
      RecordStays(s, t, t.retries[i]);
    }
  }

  lemma SendGroupAcks(w: Wire, s: State, name: Data, text: Data, ts: nat, now: int)
    requires Safe(s) && AcksOk(w, s)
    ensures AcksOk(w, SendGroup(w, s, name, text, ts, now).0)
  {
    if text != [] {
      var t := SendGroup(w, s, name, text, ts, now).0;
      SendGroupSafe(w, s, name, text, ts, now);
      forall i | 0 <= i < |t.retries| ensures RecordAcks(t.msgs, t.registered, t.retries[i]) {
        if i < |s.retries| {
          RecordStays(s, t, s.retries[i]);
        }
      }
      UntouchedKeeps(w, s, t);
    }
  }

  lemma EchoAcks(w: Wire, s: State, h: Data)
    requires Safe(s) && AcksOk(w, s)
    ensures AcksOk(w, NoteEcho(s, h))
  {
    var i := FindEcho(s.retries, h);
    EchoSafe(s, h);
    if i < |s.retries| {
      FewerRecords(s, NoteEcho(s, h), i);
      RecordsRemain(w, s, NoteEcho(s, h));
    }
  }

  lemma ReceiveAcks(w: Wire, s: State, peer: Data, ts: nat, text: Data)
    requires Safe(s) && AcksOk(w, s)
    ensures AcksOk(w, Receive(s, peer, ts, text))
  {
    var t := Receive(s, peer, ts, text);
    ReceiveSafe(s, peer, ts, text);
    if peer in s.contacts {
      var m := Msg(Direct(peer), true, ts, text, 0, None, false, false, false);
      var f := s.(next := s.next + 1, msgs := s.msgs[s.next := m]);
      SavingKeepsDelivery(f, peer, s.next);
      SavingKeepsAcks(f, peer, s.next);
      SameRecords(s, t);
      RecordsRemain(w, s, t);
    }
  }

  lemma HeardAcks(w: Wire, s: State)
    requires Safe(s) && AcksOk(w, s)
    ensures AcksOk(w, s.(heard := true))
  {
    HeardSafe(s);
    SameRecords(s, s.(heard := true));
    RecordsRemain(w, s, s.(heard := true));
  }

  lemma QuietStep(w: Wire, s: State, e: Event)
    requires e.HearsPath? || e.AddsContact? || e.RemovesContact? || e.Flushes? || e.StartsWorker? || e.StopsWorker?
    ensures var t := Step(w, s, e); SameDelivery(s, t) && t.pending == s.pending && t.registered == s.registered
  {
  }

  lemma StepAcks(w: Wire, s: State, e: Event)
    requires Safe(s) && AcksOk(w, s)
    ensures AcksOk(w, Step(w, s, e))
  {
    match e
    case SendsDm(peer, text, ts, now) => SendDmAcks(w, s, peer, text, ts, now);
    case SendsGroup(name, text, ts, now) => SendGroupAcks(w, s, name, text, ts, now);
    case Ticks(now) => TickFromAcks(w, s, 0, now);
    case HearsAck(ack) => AckAcks(w, s, ack);
    case HearsEcho(h) => EchoAcks(w, s, h);
    case HearsRepeater => HeardAcks(w, s);
    case HearsDm(peer, ts, text) => ReceiveAcks(w, s, peer, ts, text);
    case _ =>
      QuietStep(w, s, e);
      SameDeliveryKeepsAcks(w, s, Step(w, s, e));
  }
}
