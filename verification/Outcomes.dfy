/** What becomes of each message: the exact effect of a tick and of an echo on every record. */
module Outcomes {
  import opened Bytes
  import opened Protocol
  import opened Retries
  import opened Progress
  import opened Acks

  /** A record with this id, attempt and time is waiting. */
  ghost predicate Waits(t: State, id: nat, attempt: nat, sentMs: int) {
    exists k :: 0 <= k < |t.retries| && t.retries[k].id == id
                && t.retries[k].attempt == attempt && t.retries[k].sentMs == sentMs
  }

  /** What one tick must have done to the message of record r. */
  ghost predicate Outcome(s: State, t: State, r: Record, now: int)
    requires r.id in s.msgs
  {
    && r.id in t.msgs
    && var m, n := s.msgs[r.id], t.msgs[r.id];
       var before, after := SendsOf(s.queue, r.id), SendsOf(t.queue, r.id);
       if now - r.sentMs < 15000 then
         r in t.retries && n == m && after == before
       else if r.kind.Group? && !s.heard then
         Retired(t, r.id) && n == m && after == before
       else if r.attempt + 1 >= (if r.kind.Direct? then 4 else 3) then
         Retired(t, r.id) && n == m.(failed := true) && after == before
       else
         Waits(t, r.id, r.attempt + 1, now) && n == m.(attempt := r.attempt + 1, ack := n.ack)
         && |after| == |before| + 1
  }

  /** Nothing about message id differs. */
  ghost predicate Untouched(s: State, t: State, id: nat) {
    && (id in s.msgs ==> id in t.msgs && t.msgs[id] == s.msgs[id])
    && SendsOf(t.queue, id) == SendsOf(s.queue, id)
    && (Retired(s, id) ==> Retired(t, id))
    && (forall k :: 0 <= k < |s.retries| && s.retries[k].id == id ==> s.retries[k] in t.retries)
  }

  lemma UntouchedOn(s: State, t: State, u: State, id: nat)
    requires Untouched(s, t, id) && Untouched(t, u, id)
    ensures Untouched(s, u, id)
  {
    forall k | 0 <= k < |s.retries| && s.retries[k].id == id ensures s.retries[k] in u.retries {
      var j :| 0 <= j < |t.retries| && t.retries[j] == s.retries[k];
    }
  }

  lemma StillWaits(t: State, u: State, id: nat, attempt: nat, sentMs: int)
    requires Waits(t, id, attempt, sentMs) && Untouched(t, u, id)
    ensures Waits(u, id, attempt, sentMs)
  {
    var k :| 0 <= k < |t.retries| && t.retries[k].id == id
             && t.retries[k].attempt == attempt && t.retries[k].sentMs == sentMs;
    var j :| 0 <= j < |u.retries| && u.retries[j] == t.retries[k];
  }

  lemma OutcomeStays(s: State, t: State, u: State, r: Record, now: int)
    requires r.id in s.msgs && Outcome(s, t, r, now) && Untouched(t, u, r.id)
    ensures Outcome(s, u, r, now)
  {
    if !Due(r, now) {
      var k :| 0 <= k < |t.retries| && t.retries[k] == r;
    } else if Waits(t, r.id, r.attempt + 1, now) {
      StillWaits(t, u, r.id, r.attempt + 1, now);
    }
  }

  lemma OutcomeFromLater(s: State, t: State, u: State, r: Record, now: int)
    requires r.id in s.msgs && Untouched(s, t, r.id) && t.heard == s.heard && r.id in t.msgs && Outcome(t, u, r, now)
    ensures Outcome(s, u, r, now)
  {
  }

  /** A step that queues at most a packet of message x, and changes that message and its record only. */
  lemma OthersUntouched(s: State, t: State, i: nat, id: nat)
    requires i < |s.retries| && s.retries[i].id != id
    requires t.retries == Without(s.retries, i)
             || (|t.retries| == |s.retries| && t.retries == s.retries[i := t.retries[i]]
                 && t.retries[i].id == s.retries[i].id)
    requires t.queue == s.queue
             || (|t.queue| == |s.queue| + 1 && t.queue[..|s.queue|] == s.queue
                 && t.queue[|s.queue|].id == s.retries[i].id)
    requires id in s.msgs ==> id in t.msgs && t.msgs[id] == s.msgs[id]
    ensures Untouched(s, t, id)
  {
    if t.queue != s.queue {
      SendsGrow(s.queue, t.queue[|s.queue|], id);
      assert t.queue == s.queue + [t.queue[|s.queue|]];
    }
    forall k | 0 <= k < |s.retries| && s.retries[k].id == id ensures s.retries[k] in t.retries {
      if |t.retries| == |s.retries| {
        assert t.retries[k] == s.retries[k];
      } else {
        assert t.retries[if k < i then k else k - 1] == s.retries[k];
      }
    }
  }

  /** Queueing one attempt, seen from outside. */
  ghost predicate OneMoreSend(s: State, r: Record, t: State, q: Record, now: int) {
    && t.retries == s.retries && t.heard == s.heard
    && |t.queue| == |s.queue| + 1 && t.queue[..|s.queue|] == s.queue && t.queue[|s.queue|].id == r.id
    && q.id == r.id && q.attempt == r.attempt && q.sentMs == now
    && (r.id in s.msgs ==> r.id in t.msgs && t.msgs == s.msgs[r.id := s.msgs[r.id].(ack := t.msgs[r.id].ack)])
  }

  lemma TxShape(w: Wire, s: State, r: Record, now: int)
    ensures r.kind.Direct? ==> OneMoreSend(s, r, TxDm(w, s, r, now).0, TxDm(w, s, r, now).1, now)
    ensures r.kind.Group? ==> OneMoreSend(s, r, TxGroup(w, s, r, now).0, TxGroup(w, s, r, now).1, now)
  {
    if r.id in s.msgs {
      assert s.msgs[r.id := s.msgs[r.id]] == s.msgs;
    }
  }

  ghost predicate Resent(s: State, i: nat, t: State, now: int)
    requires i < |s.retries| && s.retries[i].id in s.msgs
  {
    var r := s.retries[i];
    && |t.retries| == |s.retries| && t.retries == s.retries[i := t.retries[i]]
    && t.retries[i].id == r.id && t.retries[i].attempt == r.attempt + 1 && t.retries[i].sentMs == now
    && |t.queue| == |s.queue| + 1 && t.queue[..|s.queue|] == s.queue && t.queue[|s.queue|].id == r.id
    && r.id in t.msgs && t.msgs == s.msgs[r.id := t.msgs[r.id]] && t.heard == s.heard
    && t.msgs[r.id] == s.msgs[r.id].(attempt := r.attempt + 1, ack := t.msgs[r.id].ack)
  }

  lemma ResentBy(s: State, i: nat, s1: State, r: Record, s2: State, q: Record, now: int)
    requires i < |s.retries| && s.retries[i].id in s.msgs && r == s.retries[i].(attempt := s.retries[i].attempt + 1)
    requires s1 == s.(msgs := s.msgs[r.id := s.msgs[r.id].(attempt := r.attempt)]) && OneMoreSend(s1, r, s2, q, now)
    ensures Resent(s, i, s2.(retries := s2.retries[i := q]), now)
  {
    SetTwice(s.msgs, r.id, s1.msgs[r.id], s2.msgs[r.id]);
  }

  /** A resend, seen from outside. */
  lemma ResendShape(w: Wire, s: State, i: nat, now: int)
    requires i < |s.retries| && s.retries[i].id in s.msgs
    ensures Resent(s, i, Resend(w, s, i, now), now)
  {
    var r := s.retries[i].(attempt := s.retries[i].attempt + 1);
    var s1 := s.(msgs := WithAttempt(s.msgs, r.id, r.attempt));
    TxShape(w, s1, r, now);
    if r.kind.Direct? {
      ResentBy(s, i, s1, r, TxDm(w, s1, r, now).0, TxDm(w, s1, r, now).1, now);
    } else {
      ResentBy(s, i, s1, r, TxGroup(w, s1, r, now).0, TxGroup(w, s1, r, now).1, now);
    }
  }

  lemma GiveUpShape(s: State, i: nat)
    requires i < |s.retries| && s.retries[i].id in s.msgs
    ensures var t := GiveUp(s, i); var r := s.retries[i];
            && t.retries == Without(s.retries, i) && t.queue == s.queue && t.heard == s.heard
            && t.msgs == s.msgs[r.id := s.msgs[r.id].(failed := true)]
  {
    var r := s.retries[i];
    var s1 := s.(msgs := WithFailed(s.msgs, r.id), retries := Without(s.retries, i));
    if r.kind.Direct? {
      SavingKeepsDelivery(s1, r.kind.peer, 0);
    }
  }

  lemma ResendLeaves(w: Wire, s: State, i: nat, now: int, id: nat)
    requires Safe(s) && i < |s.retries| && s.retries[i].id != id
    ensures Untouched(s, Resend(w, s, i, now), id)
  {
    assert RecordOk(s.msgs, s.queue, s.retries[i]);
    ResendShape(w, s, i, now);
    OthersUntouched(s, Resend(w, s, i, now), i, id);
  }

  lemma GiveUpLeaves(s: State, i: nat, id: nat)
    requires Safe(s) && i < |s.retries| && s.retries[i].id != id
    ensures Untouched(s, GiveUp(s, i), id)
  {
    assert RecordOk(s.msgs, s.queue, s.retries[i]);
    GiveUpShape(s, i);
    OthersUntouched(s, GiveUp(s, i), i, id);
  }

  lemma SameUntouched(s: State, t: State, id: nat)
    requires SameDelivery(s, t)
    ensures Untouched(s, t, id)
  {
  }

  /** One due record: no other message notices. */
  lemma TickAtLeaves(w: Wire, s: State, i: nat, now: int, id: nat)
    requires Safe(s) && i < |s.retries| && Due(s.retries[i], now) && s.retries[i].id != id
    ensures Untouched(s, TickAt(w, s, i, now), id) && TickAt(w, s, i, now).heard == s.heard
  {
    var r := s.retries[i];
    assert RecordOk(s.msgs, s.queue, r);
    if r.kind.Group? {
      if !s.heard {
        OthersUntouched(s, s.(retries := Without(s.retries, i)), i, id);
      } else if r.attempt + 1 >= CH_MAX_SENDS {
        GiveUpLeaves(s, i, id); GiveUpShape(s, i);
      } else {
        ResendLeaves(w, s, i, now, id); ResendShape(w, s, i, now);
      }
    } else {
      var s1 := if r.direct then ResetPath(s, r.kind.peer) else s;
      ResetFloods(s, r.kind.peer);
      SameAdvances(s, s1);
      SameUntouched(s, s1, id);
      if r.attempt + 1 >= DM_MAX_SENDS {
        GiveUpLeaves(s1, i, id); GiveUpShape(s1, i);
      } else {
        ResendLeaves(w, s1, i, now, id); ResendShape(w, s1, i, now);
      }
      UntouchedOn(s, s1, TickAt(w, s, i, now), id);
    }
  }

  lemma ResendDoes(s: State, t: State, i: nat, now: int)
    requires Safe(s) && i < |s.retries| && s.retries[i].id in s.msgs && Resent(s, i, t, now)
    requires Due(s.retries[i], now) && s.retries[i].attempt + 1 < MaxSends(s.retries[i].kind)
    requires s.retries[i].kind.Group? ==> s.heard
    ensures Outcome(s, t, s.retries[i], now)
  {
    assert t.queue == s.queue + [t.queue[|s.queue|]];
    OneMoreQueued(s.queue, t.queue, t.queue[|s.queue|]);
    assert Waits(t, s.retries[i].id, s.retries[i].attempt + 1, now);
  }

  lemma OneMoreQueued(before: seq<Sent>, after: seq<Sent>, e: Sent)
    requires after == before + [e]
    ensures |SendsOf(after, e.id)| == |SendsOf(before, e.id)| + 1
  {
    SendsGrow(before, e, e.id);
  }

  lemma GoneDoes(s: State, t: State, i: nat, now: int)
    requires Safe(s) && i < |s.retries| && s.retries[i].id in s.msgs && Due(s.retries[i], now)
    requires t.retries == Without(s.retries, i) && t.queue == s.queue
    requires var r := s.retries[i];
             if r.kind.Group? && !s.heard then t.msgs == s.msgs
             else r.attempt + 1 >= MaxSends(r.kind) && t.msgs == s.msgs[r.id := s.msgs[r.id].(failed := true)]
    ensures Outcome(s, t, s.retries[i], now)
  {
    RecordGoes(s.msgs, s.retries, s.queue, s.heard, i);
  }

  /** One due record: what the branches of _retry_tick come to. */
  lemma TickAtDoes(w: Wire, s: State, i: nat, now: int)
    requires Safe(s) && i < |s.retries| && Due(s.retries[i], now)
    ensures s.retries[i].id in s.msgs && Outcome(s, TickAt(w, s, i, now), s.retries[i], now)
  {
    var r := s.retries[i];
    assert RecordOk(s.msgs, s.queue, r);
    if r.kind.Group? {
      if !s.heard {
        GoneDoes(s, TickAt(w, s, i, now), i, now);
      } else if r.attempt + 1 >= CH_MAX_SENDS {
        GiveUpShape(s, i);
        GoneDoes(s, GiveUp(s, i), i, now);
      } else {
        ResendShape(w, s, i, now);
        ResendDoes(s, Resend(w, s, i, now), i, now);
      }
    } else {
      var s1 := if r.direct then ResetPath(s, r.kind.peer) else s;
      ResetFloods(s, r.kind.peer);
      SameAdvances(s, s1);
      if r.attempt + 1 >= DM_MAX_SENDS {
        GiveUpShape(s1, i);
        GoneDoes(s1, GiveUp(s1, i), i, now);
      } else {
        ResendShape(w, s1, i, now);
        ResendDoes(s1, Resend(w, s1, i, now), i, now);
      }
    }
  }

  /** The rest of a tick leaves alone whatever has no record from position i on. */
  lemma {:induction false} TickFromLeaves(w: Wire, s: State, i: nat, now: int, id: nat)
    requires Safe(s) && i <= |s.retries| && forall k :: i <= k < |s.retries| ==> s.retries[k].id != id
    ensures Untouched(s, TickFrom(w, s, i, now), id)
    decreases |s.retries| - i
  {
    if i == |s.retries| {
      SameUntouched(s, s, id);
    } else if !Due(s.retries[i], now) {
      TickFromLeaves(w, s, i + 1, now, id);
    } else {
      var t := TickAt(w, s, i, now);
      TickAtSafe(w, s, i, now);
      TickAtUses(w, s, i, now);
      TickAtLeaves(w, s, i, now, id);
      RestSame(s, t, i);
      TickFromLeaves(w, t, if |t.retries| < |s.retries| then i else i + 1, now, id);
      UntouchedOn(s, t, TickFrom(w, s, i, now), id);
    }
  }

  /** What comes after position i is still there, one place earlier if the record at i went. */
  lemma RestSame(s: State, t: State, i: nat)
    requires i < |s.retries| && UsesUp(s, t, i)
    ensures |t.retries| < |s.retries| ==>
              |t.retries| == |s.retries| - 1 && forall k :: i <= k < |t.retries| ==> t.retries[k] == s.retries[k + 1]
    ensures |t.retries| == |s.retries| ==> forall k :: i < k < |t.retries| ==> t.retries[k] == s.retries[k]
  {
  }

  lemma ThisOneDone(w: Wire, s: State, i: nat, now: int)
    requires Safe(s) && i < |s.retries| && Due(s.retries[i], now) && s.retries[i].id in s.msgs
    ensures Outcome(s, TickFrom(w, s, i, now), s.retries[i], now)
  {
    var t := TickAt(w, s, i, now);
    var next := if |t.retries| < |s.retries| then i else i + 1;
    TickAtSafe(w, s, i, now);
    TickAtUses(w, s, i, now);
    RestSame(s, t, i);
    TickAtDoes(w, s, i, now);
    TickFromLeaves(w, t, next, now, s.retries[i].id);
    OutcomeStays(s, t, TickFrom(w, s, i, now), s.retries[i], now);
  }

  lemma {:induction false} TickFromDoes(w: Wire, s: State, i: nat, now: int, j: nat)
    requires Safe(s) && i <= j < |s.retries|
    ensures s.retries[j].id in s.msgs && Outcome(s, TickFrom(w, s, i, now), s.retries[j], now)
    decreases |s.retries| - i
  {
    var r := s.retries[j];
    assert RecordOk(s.msgs, s.queue, r);
    if !Due(s.retries[i], now) {
      if i == j {
        TickFromLeaves(w, s, i + 1, now, r.id);
      } else {
        TickFromDoes(w, s, i + 1, now, j);
      }
    } else {
      var t := TickAt(w, s, i, now);
      var next := if |t.retries| < |s.retries| then i else i + 1;
      TickAtSafe(w, s, i, now);
      TickAtUses(w, s, i, now);
      RestSame(s, t, i);
      if i == j {
        ThisOneDone(w, s, i, now);
      } else {
        TickAtLeaves(w, s, i, now, r.id);
        TickFromDoes(w, t, next, now, if |t.retries| < |s.retries| then j - 1 else j);
        OutcomeFromLater(s, t, TickFrom(w, s, i, now), r, now);
      }
    }
  }

  /** A whole tick, for every record at once: a record that is not due is left alone; a due DM is resent or, after its
      fourth send, failed; a due channel message is dropped unmarked while no repeater was heard, and otherwise resent
      or, after its third send, failed. Nothing else happens to any message. */
  lemma TickDoes(w: Wire, s: State, now: int, j: nat)
    requires Safe(s) && j < |s.retries|
    ensures s.retries[j].id in s.msgs && Outcome(s, Tick(w, s, now), s.retries[j], now)
  {
    TickFromDoes(w, s, 0, now, j);
  }

  /** And a message without a record is not touched by a tick. */
  lemma TickLeavesRetired(w: Wire, s: State, now: int, id: nat)
    requires Safe(s) && Retired(s, id)
    ensures Untouched(s, Tick(w, s, now), id)
  {
    TickFromLeaves(w, s, 0, now, id);
  }

  /** An echo confirms the message of the first record with its hash and stops the resends; it touches no other. */
  lemma EchoDoes(s: State, h: Data, id: nat)
    requires Safe(s) && id in s.msgs
    ensures var t := NoteEcho(s, h); var i := FindEcho(s.retries, h);
            if i < |s.retries| && s.retries[i].id == id
            then id in t.msgs && t.msgs[id] == s.msgs[id].(confirmed := true) && Retired(t, id)
            else Untouched(s, t, id)
  {
    var t := NoteEcho(s, h);
    var i := FindEcho(s.retries, h);
    if i == |s.retries| {
      SameUntouched(s, t, id);
    } else {
      assert RecordOk(s.msgs, s.queue, s.retries[i]);
      RecordGoes(s.msgs, s.retries, s.queue, s.heard, i);
      if id != s.retries[i].id {
        OthersUntouched(s, t, i, id);
      }
    }
  }

  // ---- where messages come from ----

  lemma TickAtAddsNone(w: Wire, s: State, i: nat, now: int)
    requires Safe(s) && i < |s.retries| && Due(s.retries[i], now)
    ensures TickAt(w, s, i, now).msgs.Keys == s.msgs.Keys
  {
    var r := s.retries[i];
    assert RecordOk(s.msgs, s.queue, r);
    if r.kind.Group? {
      if s.heard {
        if r.attempt + 1 >= CH_MAX_SENDS {
          GiveUpShape(s, i);
        } else {
          ResendShape(w, s, i, now);
        }
      }
    } else {
      var s1 := if r.direct then ResetPath(s, r.kind.peer) else s;
      ResetFloods(s, r.kind.peer);
      if r.attempt + 1 >= DM_MAX_SENDS {
        GiveUpShape(s1, i);
      } else {
        ResendShape(w, s1, i, now);
      }
    }
  }

  lemma {:induction false} TickAddsNone(w: Wire, s: State, i: nat, now: int)
    requires Safe(s) && i <= |s.retries|
    ensures TickFrom(w, s, i, now).msgs.Keys == s.msgs.Keys
    decreases |s.retries| - i
  {
    if i == |s.retries| {
    } else if !Due(s.retries[i], now) {
      TickAddsNone(w, s, i + 1, now);
    } else {
      var t := TickAt(w, s, i, now);
      TickAtSafe(w, s, i, now);
      TickAtAddsNone(w, s, i, now);
      TickAddsNone(w, t, if |t.retries| < |s.retries| then i else i + 1, now);
    }
  }

  ghost predicate SentBy(m: Msg, e: Event) {
    || (e.SendsDm? && m.kind == Direct(e.peer) && m.text == e.text)
    || (e.SendsGroup? && m.kind == Group(e.name) && m.text == e.text)
  }

  /** The event sent this message, which then waits; or the message came in. */
  ghost predicate CameBy(m: Msg, e: Event) {
    SentBy(m, e) || m.incoming
  }

  lemma SentMessageIsNew(w: Wire, s: State, e: Event, id: nat)
    requires Safe(s) && id !in s.msgs && id in Step(w, s, e).msgs && (e.SendsDm? || e.SendsGroup?)
    ensures id == s.next && SentBy(Step(w, s, e).msgs[id], e) && !Retired(Step(w, s, e), id)
  {
    var t := Step(w, s, e);
    if e.SendsDm? {
      AfterSend(w, s, e.peer, e.text, e.ts, e.now);
    }
    assert t.retries[|s.retries|].id == s.next;
  }

  lemma ReceivedMessageIsNew(w: Wire, s: State, e: Event, id: nat)
    requires e.HearsDm? && id !in s.msgs && id in Step(w, s, e).msgs
    ensures Step(w, s, e).msgs[id].incoming && Step(w, s, e).retries == s.retries && Step(w, s, e).queue == s.queue
  {
    var m := Msg(Direct(e.peer), true, e.ts, e.text, 0, None, false, false, false);
    SavingKeepsDelivery(s.(next := s.next + 1, msgs := s.msgs[s.next := m]), e.peer, s.next);
  }

  lemma OtherStepsAddNone(w: Wire, s: State, e: Event)
    requires Safe(s) && !e.SendsDm? && !e.SendsGroup? && !e.HearsDm?
    requires e.HearsAck? && e.ack in s.pending.acks ==> s.pending.acks[e.ack].id in s.msgs
    ensures Step(w, s, e).msgs.Keys == s.msgs.Keys
  {
    match e
    case Ticks(now) => TickAddsNone(w, s, 0, now);
    case HearsAck(ack) =>
      if ack in s.pending.acks {
        AfterDelivery(s, ack);
      }
    case HearsEcho(h) =>
      var i := FindEcho(s.retries, h);
      if i < |s.retries| {
        assert RecordOk(s.msgs, s.queue, s.retries[i]);
      }
    case _ =>
  }

  /** A message that appears in a step was sent by it and is waited for, or came in. */
  lemma NewMessage(w: Wire, s: State, e: Event, id: nat)
    requires Safe(s) && PendingKnown(s) && id !in s.msgs && id in Step(w, s, e).msgs
    ensures CameBy(Step(w, s, e).msgs[id], e)
    ensures !Step(w, s, e).msgs[id].incoming ==> !Retired(Step(w, s, e), id)
  {
    if e.SendsDm? || e.SendsGroup? {
      SentMessageIsNew(w, s, e, id);
    } else if e.HearsDm? {
      ReceivedMessageIsNew(w, s, e, id);
    } else {
      OtherStepsAddNone(w, s, e);
    }
  }
}
