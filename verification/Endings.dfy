/** Every message ends: how many timeouts it can live through, whatever else happens in between, and how it ends. */
module Endings {
  import opened Bytes
  import opened Protocol
  import opened Retries
  import opened Acks
  import opened Outcomes
  import opened Runs

  /** The event is a tick that finds the record of message id due. */
  ghost predicate TimesOut(s: State, e: Event, id: nat) {
    e.Ticks? && exists i :: 0 <= i < |s.retries| && s.retries[i].id == id && Due(s.retries[i], e.now)
  }

  /** How often message id times out in a run. */
  ghost function Timeouts(w: Wire, s: State, es: seq<Event>, id: nat): nat {
    if es == [] then 0
    else
      var before := es[..|es| - 1];
      Timeouts(w, s, before, id) + if TimesOut(Run(w, s, before), es[|es| - 1], id) then 1 else 0
  }

  /** Something still waits for message id. */
  ghost predicate Waiting(s: State, id: nat) { id in s.msgs && !Retired(s, id) }

  lemma WaitingWasSent(w: Wire, s: State, id: nat)
    requires Inv(w, s) && Waiting(s, id)
    ensures 1 <= |SendsOf(s.queue, id)| <= MaxSends(s.msgs[id].kind)
  {
    var i :| 0 <= i < |s.retries| && s.retries[i].id == id;
    assert RecordOk(s.msgs, s.queue, s.retries[i]);
    assert MessageOk(s.msgs, s.queue, s.heard, id);
  }

  lemma TimeoutIsOfAMessage(s: State, e: Event, id: nat)
    requires Safe(s) && TimesOut(s, e, id)
    ensures id in s.msgs
  {
    var i :| 0 <= i < |s.retries| && s.retries[i].id == id && Due(s.retries[i], e.now);
    assert RecordOk(s.msgs, s.queue, s.retries[i]);
  }

  /** A message that times out and is still waited for was sent once more. */
  lemma TimeoutUsesASend(w: Wire, s: State, e: Event, id: nat)
    requires Inv(w, s) && TimesOut(s, e, id) && !Retired(Step(w, s, e), id)
    ensures |SendsOf(Step(w, s, e).queue, id)| == |SendsOf(s.queue, id)| + 1
  {
    var i :| 0 <= i < |s.retries| && s.retries[i].id == id && Due(s.retries[i], e.now);
    TickDoes(w, s, e.now, i);
  }

  /** While a message is waited for, it was sent once more than it has timed out; before it exists it does not time
      out. */
  lemma {:induction false} TimeoutsAreSends(w: Wire, s: State, es: seq<Event>, id: nat)
    requires Inv(w, s)
    ensures var t := Run(w, s, es);
            && (id !in t.msgs ==> Timeouts(w, s, es, id) == 0)
            && (Waiting(t, id) ==> Timeouts(w, s, es, id) < |SendsOf(t.queue, id)|)
    decreases |es|
  {
    var t := Run(w, s, es);
    RunInv(w, s, es);
    if Waiting(t, id) {
      WaitingWasSent(w, t, id);
    }
    if es != [] {
      var before, e := es[..|es| - 1], es[|es| - 1];
      var u := Run(w, s, before);
      RunInv(w, s, before);
      StepInv(w, u, e);
      TimeoutsAreSends(w, s, before, id);
      assert Kept(u, t, id);
      if TimesOut(u, e, id) {
        TimeoutIsOfAMessage(u, e, id);
        if Waiting(t, id) {
          TimeoutUsesASend(w, u, e, id);
        }
      }
    }
  }

  /** Termination, for every message and every run: after as many timeouts as it has sends nothing waits for it any
      more, whatever was sent, heard, acked, added or removed in between. */
  lemma RetiredAfterTimeouts(w: Wire, s: State, es: seq<Event>, id: nat)
    requires Inv(w, s)
    ensures var t := Run(w, s, es);
            id in t.msgs && Timeouts(w, s, es, id) >= MaxSends(t.msgs[id].kind) ==> Retired(t, id)
  {
    var t := Run(w, s, es);
    RunInv(w, s, es);
    TimeoutsAreSends(w, s, es, id);
    if Waiting(t, id) {
      WaitingWasSent(w, t, id);
    }
  }

  // ---- how a message ends ----

  /** It is delivered, confirmed or failed; only a channel message may also be dropped unmarked, at a tick before
      which no repeater was heard. */
  ghost predicate Ended(s: State, e: Event, m: Msg) {
    Settled(m) || (m.kind.Group? && e.Ticks? && !s.heard)
  }

  /** The record of a waiting message is still there. */
  lemma RecordRemains(s: State, t: State, i: nat)
    requires i < |s.retries| && s.retries[i] in t.retries
    ensures !Retired(t, s.retries[i].id)
  {
    var k :| 0 <= k < |t.retries| && t.retries[k] == s.retries[i];
  }

  lemma TickEnds(w: Wire, s: State, now: int, id: nat)
    requires Inv(w, s) && Waiting(s, id) && Retired(Tick(w, s, now), id)
    ensures Ended(s, Ticks(now), Tick(w, s, now).msgs[id])
  {
    var i: nat :| i < |s.retries| && s.retries[i].id == id;
    assert RecordOk(s.msgs, s.queue, s.retries[i]);
    TickDoes(w, s, now, i);
    if !Due(s.retries[i], now) {
      RecordRemains(s, Tick(w, s, now), i);
    }
  }

  lemma AckEnds(w: Wire, s: State, ack: Data, id: nat)
    requires Inv(w, s) && Waiting(s, id) && Retired(MarkDelivered(s, ack).0, id)
    ensures Settled(MarkDelivered(s, ack).0.msgs[id])
  {
    var t := MarkDelivered(s, ack).0;
    if ack in s.pending.acks {
      PendingIsKnown(w, s, ack);
      AfterDelivery(s, ack);
      var gone := Find(s.retries, s.pending.acks[ack].id);
      StaysUnlessGone(s, t, gone, id);
    }
  }

  /** A message whose record is not the one that goes is still waited for. */
  lemma StaysUnlessGone(s: State, t: State, gone: nat, id: nat)
    requires Waiting(s, id) && Retired(t, id) && gone <= |s.retries|
    requires t.retries == if gone < |s.retries| then Without(s.retries, gone) else s.retries
    ensures gone < |s.retries| && s.retries[gone].id == id
  {
    var i :| 0 <= i < |s.retries| && s.retries[i].id == id;
    if i != gone {
      StaysElsewhere(s, t, gone, i);
    }
  }

  lemma StaysElsewhere(s: State, t: State, gone: nat, i: nat)
    requires i < |s.retries| && gone <= |s.retries| && i != gone
    requires t.retries == if gone < |s.retries| then Without(s.retries, gone) else s.retries
    ensures !Retired(t, s.retries[i].id)
  {
    assert t.retries[if i < gone then i else i - 1] == s.retries[i];
  }

  lemma EchoEnds(w: Wire, s: State, h: Data, id: nat)
    requires Inv(w, s) && Waiting(s, id) && Retired(NoteEcho(s, h), id)
    ensures Settled(NoteEcho(s, h).msgs[id])
  {
    StaysUnlessGone(s, NoteEcho(s, h), FindEcho(s.retries, h), id);
  }

  /** Every other step leaves all records in place. */
  lemma OthersKeepRecords(w: Wire, s: State, e: Event, id: nat)
    requires Waiting(s, id) && !e.Ticks? && !e.HearsAck? && !e.HearsEcho?
    ensures !Retired(Step(w, s, e), id)
  {
    var t := Step(w, s, e);
    var i :| 0 <= i < |s.retries| && s.retries[i].id == id;
    if e.SendsDm? && e.text != [] && e.peer in s.contacts {
      AfterSend(w, s, e.peer, e.text, e.ts, e.now);
    } else if e.HearsDm? && e.peer in s.contacts {
      var m := Msg(Direct(e.peer), true, e.ts, e.text, 0, None, false, false, false);
      SavingKeepsDelivery(s.(next := s.next + 1, msgs := s.msgs[s.next := m]), e.peer, s.next);
    }
    assert t.retries[i] == s.retries[i];
  }

  lemma StepEnds(w: Wire, s: State, e: Event, id: nat)
    requires Inv(w, s) && Waiting(s, id) && Retired(Step(w, s, e), id)
    ensures Ended(s, e, Step(w, s, e).msgs[id])
  {
    match e
    case Ticks(now) => TickEnds(w, s, now, id);
    case HearsAck(ack) => AckEnds(w, s, ack, id);
    case HearsEcho(h) => EchoEnds(w, s, h, id);
    case _ => OthersKeepRecords(w, s, e, id);
  }

  /** At some tick of the run, with no repeater heard before it, message id was dropped. */
  ghost predicate DroppedAlone(w: Wire, s0: State, es: seq<Event>, id: nat) {
    es != [] &&
    var before := es[..|es| - 1];
    || DroppedAlone(w, s0, before, id)
    || (es[|es| - 1].Ticks? && !Run(w, s0, before).heard && Waiting(Run(w, s0, before), id)
        && Retired(Run(w, s0, es), id))
  }

  /** A message that was sent and is no longer waited for has been delivered, confirmed or failed, or it is a
      channel message that was dropped while no repeater had been heard. */
  lemma {:induction false} SentMessagesEnd(w: Wire, s0: State, es: seq<Event>, id: nat)
    requires Initial(s0)
    ensures var t := Run(w, s0, es);
            Retired(t, id) && SendsOf(t.queue, id) != [] ==>
              Settled(t.msgs[id]) || (t.msgs[id].kind.Group? && DroppedAlone(w, s0, es, id))
    decreases |es|
  {
    InitialInv(w, s0);
    var t := Run(w, s0, es);
    if es != [] && Retired(t, id) && SendsOf(t.queue, id) != [] {
      var before, e := es[..|es| - 1], es[|es| - 1];
      var u := Run(w, s0, before);
      RunInv(w, s0, before);
      StepInv(w, u, e);
      SentMessagesEnd(w, s0, before, id);
      LastStepEnds(w, u, e, id);
    }
  }

  lemma LastStepEnds(w: Wire, u: State, e: Event, id: nat)
    requires Inv(w, u) && Inv(w, Step(w, u, e)) && Advances(u, Step(w, u, e))
    requires Retired(Step(w, u, e), id) && SendsOf(Step(w, u, e).queue, id) != []
    ensures var t := Step(w, u, e);
            if id in u.msgs && Retired(u, id) then SendsOf(u.queue, id) != [] && OnwardFrom(u.msgs[id], t.msgs[id])
            else Waiting(u, id) && Ended(u, e, t.msgs[id])
  {
    var t := Step(w, u, e);
    assert Kept(u, t, id) && MessageOk(t.msgs, t.queue, t.heard, id);
    AllPendingKnown(w, u);
    if Waiting(u, id) {
      StepEnds(w, u, e, id);
    } else if id !in u.msgs {
      NewMessage(w, u, e, id);
    }
  }

  /** So every DM that was sent ends: after four timeouts, at the latest, it is delivered or failed; and a channel
      message after three is confirmed or failed, or was dropped while no repeater had been heard. */
  lemma EveryMessageEnds(w: Wire, s0: State, es: seq<Event>, id: nat)
    requires Initial(s0) && SendsOf(Run(w, s0, es).queue, id) != []
    requires id in Run(w, s0, es).msgs && Timeouts(w, s0, es, id) >= MaxSends(Run(w, s0, es).msgs[id].kind)
    ensures var t := Run(w, s0, es); var m := t.msgs[id];
            && Retired(t, id)
            && (m.kind.Direct? ==> Settled(m))
            && (m.kind.Group? ==> Settled(m) || DroppedAlone(w, s0, es, id))
  {
    InitialInv(w, s0);
    RetiredAfterTimeouts(w, s0, es, id);
    SentMessagesEnd(w, s0, es, id);
  }
}
