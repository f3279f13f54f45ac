/** The chat histories that storage holds, against those in memory, over every run. */
module History {
  import opened Bytes
  import opened Protocol
  import opened Retries
  import Dm
  import Pending

  /** Equal in what the source saves whenever it changes; the attempt, the ack and the echo may be newer in memory. */
  ghost predicate Alike(m: Msg, n: Msg) {
    && m.kind == n.kind && m.incoming == n.incoming && m.ts == n.ts && m.text == n.text
    && m.delivered == n.delivered && m.failed == n.failed
  }

  ghost predicate Same(saved: seq<Msg>, msgs: map<nat, Msg>, ids: seq<nat>) {
    |saved| == |ids| && forall i :: 0 <= i < |ids| ==> Alike(saved[i], Get(msgs, ids[i]))
  }

  function StoredOf(stored: map<Data, seq<Msg>>, peer: Data): seq<Msg> {
    if peer in stored then stored[peer] else []
  }

  /** The list in memory holds messages to and from this peer, at most 200 of them; who is not a contact has none,
      nor anything unsaved or stored. */
  ghost predicate PeerListed(s: State, p: Data) {
    && |ListOf(s.lists, p)| <= MAX_MESSAGES
    && (forall id :: id in ListOf(s.lists, p) ==> id in s.msgs && s.msgs[id].kind == Direct(p))
    && (p !in s.contacts ==> p !in s.lists && p !in s.dirty && p !in s.stored)
  }

  /** A contact with nothing unsaved is stored as it is in memory. */
  ghost predicate PeerOk(s: State, p: Data) {
    && PeerListed(s, p)
    && (p in s.contacts && p !in s.dirty ==> Same(StoredOf(s.stored, p), s.msgs, ListOf(s.lists, p)))
  }

  ghost predicate AllButOne(s: State, q: Data) {
    PeerListed(s, q) && forall p :: p != q ==> PeerOk(s, p)
  }

  /** Without a worker to write it back later, nothing is left unsaved. */
  ghost predicate HistoryOk(s: State) {
    (forall p :: PeerOk(s, p)) && (!s.worker ==> s.dirty == {})
  }

  lemma FlushSaves(s: State)
    requires forall p :: PeerOk(s, p)
    ensures HistoryOk(Flushed(s)) && Flushed(s).dirty == {}
    ensures forall p :: p in s.contacts ==> Same(StoredOf(Flushed(s).stored, p), s.msgs, ListOf(s.lists, p))
  {
    forall p ensures PeerOk(Flushed(s), p) {
      assert PeerOk(s, p);
    }
    forall p | p in s.contacts ensures Same(StoredOf(Flushed(s).stored, p), s.msgs, ListOf(s.lists, p)) {
      assert PeerOk(Flushed(s), p);
    }
  }

  /** Saving makes up for whatever changed in one peer's history. */
  lemma SavingRestores(s: State, q: Data)
    requires AllButOne(s, q) && (!s.worker ==> s.dirty == {})
    ensures HistoryOk(SaveHistory(s, q))
  {
    var t := if q in s.contacts then s.(dirty := s.dirty + {q}) else s;
    forall p ensures PeerOk(t, p) {
      assert p != q ==> PeerOk(s, p);
    }
    if q in s.contacts && !s.worker {
      FlushSaves(t);
    }
  }

  ghost predicate SameHistory(s: State, t: State) {
    && t.msgs == s.msgs && t.contacts.Keys == s.contacts.Keys && t.lists == s.lists
    && t.dirty == s.dirty && t.stored == s.stored && t.worker == s.worker
  }

  lemma SameKeeps(s: State, t: State)
    requires HistoryOk(s) && SameHistory(s, t)
    ensures HistoryOk(t)
  {
    forall p ensures PeerOk(t, p) {
      assert PeerOk(s, p);
    }
  }

  /** One message appears or changes, in nothing that is saved or in a channel's message. */
  lemma QuietChange(s: State, t: State, id: nat, m: Msg)
    requires HistoryOk(s) && SameHistory(s.(msgs := t.msgs), t) && t.msgs == s.msgs[id := m]
    requires id in s.msgs ==> m.kind == s.msgs[id].kind && (m.kind.Group? || Alike(m, s.msgs[id]))
    ensures HistoryOk(t)
  {
    forall p ensures PeerOk(t, p) {
      assert PeerOk(s, p);
      ListUnmoved(s, t, p);
    }
  }

  lemma ListUnmoved(s: State, t: State, p: Data)
    requires PeerOk(s, p) && t.lists == s.lists && t.stored == s.stored && t.dirty == s.dirty
    requires t.contacts.Keys == s.contacts.Keys
    requires forall id :: id in ListOf(s.lists, p) && id in s.msgs ==>
               id in t.msgs && t.msgs[id].kind == s.msgs[id].kind && Alike(t.msgs[id], s.msgs[id])
    ensures PeerOk(t, p)
  {
    var ids := ListOf(s.lists, p);
    if p in s.contacts && p !in s.dirty {
      var saved := StoredOf(s.stored, p);
      forall i | 0 <= i < |ids| ensures Alike(saved[i], Get(t.msgs, ids[i])) {
        assert ids[i] in ids;
      }
    }
  }

  /** A message to q settles: every other history is as it was. */
  lemma LoudChange(s: State, t: State, id: nat, m: Msg, q: Data)
    requires HistoryOk(s) && SameHistory(s.(msgs := t.msgs), t) && t.msgs == s.msgs[id := m]
    requires id in s.msgs && m.kind == s.msgs[id].kind == Direct(q)
    ensures AllButOne(t, q)
  {
    assert PeerOk(s, q);
    forall p | p != q ensures PeerOk(t, p) {
      assert PeerOk(s, p);
      ListUnmoved(s, t, p);
    }
  }

  lemma AppendedIds(ids: seq<nat>, id: nat)
    requires |ids| <= MAX_MESSAGES
    ensures |Appended(ids, id)| <= MAX_MESSAGES && forall x :: x in Appended(ids, id) ==> x in ids || x == id
  {
  }

  /** A message is put into its peer's list. */
  lemma AddingRestores(s: State, q: Data, id: nat)
    requires HistoryOk(s) && id in s.msgs && s.msgs[id].kind == Direct(q) && q in s.contacts
    ensures HistoryOk(AddDm(s, q, id))
  {
    var t := s.(lists := s.lists[q := Appended(ListOf(s.lists, q), id)]);
    assert PeerOk(s, q);
    AppendedIds(ListOf(s.lists, q), id);
    forall p | p != q ensures PeerOk(t, p) {
      assert PeerOk(s, p);
    }
    SavingRestores(t, q);
  }

  // ---- every step ----

  lemma SendDmHistory(w: Wire, s: State, peer: Data, text: Data, ts: nat, now: int)
    requires Safe(s) && HistoryOk(s)
    ensures HistoryOk(SendDm(w, s, peer, text, ts, now).0)
  {
    if text != [] && peer in s.contacts {
      var (s1, r) := TxDm(w, Fresh(s, Direct(peer), text, ts), NewRecord(s.next, Direct(peer), text, ts), now);
      var m := Msg(Direct(peer), false, ts, text, 0, Some(w.dm(peer, text, ts, 0).1), false, false, false);
      assert s1.msgs == s.msgs[s.next := m];
      QuietChange(s, s1, s.next, m);
      AddingRestores(s1, peer, s.next);
      var s2 := AddDm(s1, peer, s.next);
      SameKeeps(s2, s2.(retries := s2.retries + [r]));
    }
  }

  lemma SendGroupHistory(w: Wire, s: State, name: Data, text: Data, ts: nat, now: int)
    requires Safe(s) && HistoryOk(s)
    ensures HistoryOk(SendGroup(w, s, name, text, ts, now).0)
  {
    if text != [] {
      var m := Msg(Group(name), false, ts, text, 0, None, false, false, false);
      QuietChange(s, SendGroup(w, s, name, text, ts, now).0, s.next, m);
    }
  }

  lemma ReceiveHistory(s: State, peer: Data, ts: nat, text: Data)
    requires Safe(s) && HistoryOk(s)
    ensures HistoryOk(Receive(s, peer, ts, text))
  {
    if peer in s.contacts {
      var m := Msg(Direct(peer), true, ts, text, 0, None, false, false, false);
      var f := s.(next := s.next + 1, msgs := s.msgs[s.next := m]);
      QuietChange(s, f, s.next, m);
      AddingRestores(f, peer, s.next);
    }
  }

  /** A resend changes the attempt and the ack of its message, and nothing else that is in a history. */
  lemma ResentMessage(w: Wire, s: State, i: nat, now: int)
    requires i < |s.retries| && s.retries[i].id in s.msgs
    ensures var t := Resend(w, s, i, now); var id := s.retries[i].id; var m := s.msgs[id];
            && SameHistory(s.(msgs := t.msgs), t)
            && t.msgs == s.msgs[id := m.(
                 attempt := s.retries[i].attempt + 1,
                 ack := if s.retries[i].kind.Direct? then Some(NextAck(w, s.retries[i])) else m.ack)]
  {
    var r := s.retries[i];
    var m := s.msgs[r.id].(attempt := r.attempt + 1);
    if r.kind.Direct? {
      SetTwice(s.msgs, r.id, m, m.(ack := Some(NextAck(w, r))));
    }
  }

  function NextAck(w: Wire, r: Record): Data
    requires r.kind.Direct?
  {
    w.dm(r.kind.peer, r.text, r.ts, r.attempt + 1).1
  }

  lemma ResendHistory(w: Wire, s: State, i: nat, now: int)
    requires Safe(s) && HistoryOk(s) && i < |s.retries|
    ensures HistoryOk(Resend(w, s, i, now))
  {
    assert RecordOk(s.msgs, s.queue, s.retries[i]);
    ResentMessage(w, s, i, now);
    var t, id := Resend(w, s, i, now), s.retries[i].id;
    QuietChange(s, t, id, t.msgs[id]);
  }

  /** A message to q settles, and q's history is saved. */
  lemma SettledHistory(s: State, t: State, id: nat, m: Msg, q: Data)
    requires HistoryOk(s) && SameHistory(s.(msgs := t.msgs), t) && t.msgs == s.msgs[id := m]
    requires id in s.msgs && m.kind == s.msgs[id].kind == Direct(q)
    ensures HistoryOk(SaveHistory(t, q))
  {
    LoudChange(s, t, id, m, q);
    SavingRestores(t, q);
  }

  lemma GiveUpHistory(s: State, i: nat)
    requires Safe(s) && HistoryOk(s) && i < |s.retries|
    ensures HistoryOk(GiveUp(s, i))
  {
    var r := s.retries[i];
    assert RecordOk(s.msgs, s.queue, r);
    var m := s.msgs[r.id].(failed := true);
    var s1 := s.(msgs := WithFailed(s.msgs, r.id), retries := Without(s.retries, i));
    if r.kind.Direct? {
      SettledHistory(s, s1, r.id, m, r.kind.peer);
    } else {
      QuietChange(s, s1, r.id, m);
    }
  }

  lemma TickAtHistory(w: Wire, s: State, i: nat, now: int)
    requires Safe(s) && HistoryOk(s) && i < |s.retries| && Due(s.retries[i], now)
    ensures HistoryOk(TickAt(w, s, i, now))
  {
    var r := s.retries[i];
    if r.kind.Group? {
      if !s.heard {
        SameKeeps(s, s.(retries := Without(s.retries, i)));
      } else if r.attempt + 1 >= CH_MAX_SENDS {
        GiveUpHistory(s, i);
      } else {
        ResendHistory(w, s, i, now);
      }
    } else {
      var s1 := if r.direct then ResetPath(s, r.kind.peer) else s;
      ResetKeepsKeys(s, r.kind.peer);
      SameKeeps(s, s1);
      ResetFloods(s, r.kind.peer);
      SameAdvances(s, s1);
      if r.attempt + 1 >= DM_MAX_SENDS {
        GiveUpHistory(s1, i);
      } else {
        ResendHistory(w, s1, i, now);
      }
    }
  }

  lemma ResetKeepsKeys(s: State, peer: Data)
    ensures SameHistory(s, ResetPath(s, peer))
  {
  }

  lemma {:induction false} TickFromHistory(w: Wire, s: State, i: nat, now: int)
    requires Safe(s) && HistoryOk(s) && i <= |s.retries|
    ensures HistoryOk(TickFrom(w, s, i, now))
    decreases |s.retries| - i
  {
    if i == |s.retries| {
    } else if !Due(s.retries[i], now) {
      TickFromHistory(w, s, i + 1, now);
    } else {
      var t := TickAt(w, s, i, now);
      TickAtSafe(w, s, i, now);
      TickAtHistory(w, s, i, now);
      TickFromHistory(w, t, if |t.retries| < |s.retries| then i else i + 1, now);
    }
  }

  lemma AckHistory(s: State, ack: Data)
    requires HistoryOk(s)
    requires ack in s.pending.acks ==>
               var e := s.pending.acks[ack]; e.id in s.msgs && s.msgs[e.id].kind == Direct(e.peer)
    ensures HistoryOk(MarkDelivered(s, ack).0)
  {
    if ack in s.pending.acks {
      var e := s.pending.acks[ack];
      var s1 := s.(pending := Pending.Take(s.pending, ack), msgs := WithDelivered(s.msgs, e.id));
      SettledHistory(s, CancelRetry(s1, e.id), e.id, s.msgs[e.id].(delivered := true), e.peer);
    }
  }

  lemma EchoHistory(s: State, h: Data)
    requires Safe(s) && HistoryOk(s)
    ensures HistoryOk(NoteEcho(s, h))
  {
    var i := FindEcho(s.retries, h);
    if i < |s.retries| {
      assert RecordOk(s.msgs, s.queue, s.retries[i]);
      var id := s.retries[i].id;
      QuietChange(s, NoteEcho(s, h), id, s.msgs[id].(confirmed := true));
    }
  }

  lemma ContactHistory(s: State, peer: Data)
    requires HistoryOk(s)
    ensures HistoryOk(AddContact(s, peer)) && HistoryOk(RemoveContact(s, peer))
  {
    forall p ensures PeerOk(AddContact(s, peer), p) && PeerOk(RemoveContact(s, peer), p) {
      assert PeerOk(s, p);
    }
  }

  lemma WorkerHistory(s: State)
    requires HistoryOk(s)
    ensures HistoryOk(s.(worker := true)) && HistoryOk(Flushed(s.(worker := false))) && HistoryOk(Flushed(s))
  {
    forall p ensures PeerOk(s.(worker := true), p) && PeerOk(s.(worker := false), p) {
      assert PeerOk(s, p);
    }
    FlushSaves(s);
    FlushSaves(s.(worker := false));
  }

  lemma PathHistory(s: State, dec: Dm.PathReturn)
    requires HistoryOk(s)
    ensures HistoryOk(LearnPath(s, dec))
  {
    SameKeeps(s, LearnPath(s, dec));
  }

  lemma StepHistory(w: Wire, s: State, e: Event)
    requires Safe(s) && HistoryOk(s)
    requires forall a :: a in s.pending.acks ==>
               var p := s.pending.acks[a]; p.id in s.msgs && s.msgs[p.id].kind == Direct(p.peer)
    ensures HistoryOk(Step(w, s, e))
  {
    match e
    case SendsDm(peer, text, ts, now) => SendDmHistory(w, s, peer, text, ts, now);
    case SendsGroup(name, text, ts, now) => SendGroupHistory(w, s, name, text, ts, now);
    case Ticks(now) => TickFromHistory(w, s, 0, now);
    case HearsAck(ack) => AckHistory(s, ack);
    case HearsEcho(h) => EchoHistory(s, h);
    case HearsRepeater => SameKeeps(s, s.(heard := true));
    case HearsPath(dec) => PathHistory(s, dec);
    case HearsDm(peer, ts, text) => ReceiveHistory(s, peer, ts, text);
    case AddsContact(peer) => ContactHistory(s, peer);
    case RemovesContact(peer) => ContactHistory(s, peer);
    case _ => WorkerHistory(s);
  }
}
