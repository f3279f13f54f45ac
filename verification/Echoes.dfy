/** The echo of a channel message: exactly which message it confirms, and when it comes too late. */
module Echoes {
  import opened Bytes
  import opened Protocol
  import opened Retries
  import opened Acks
  import opened Outcomes
  import opened Runs
  import Packet

  // ---- a record knows the hash of the packet it queued last ----

  ghost predicate RecordHashed(w: Wire, r: Record) {
    r.kind.Group? ==>
      r.hash == Some(w.hash(Packet.PAYLOAD_TYPE_GRP_TXT, w.group(r.kind.name, r.text, r.ts + r.attempt)))
  }

  ghost predicate Hashed(w: Wire, retries: seq<Record>) {
    forall i :: 0 <= i < |retries| ==> RecordHashed(w, retries[i])
  }

  lemma WithoutHashed(w: Wire, retries: seq<Record>, i: nat)
    requires Hashed(w, retries) && i < |retries|
    ensures Hashed(w, Without(retries, i))
  {
  }

  lemma ResendHashed(w: Wire, s: State, i: nat, now: int)
    requires Hashed(w, s.retries) && i < |s.retries|
    ensures Hashed(w, Resend(w, s, i, now).retries)
  {
    var r := s.retries[i].(attempt := s.retries[i].attempt + 1);
    var s1 := s.(msgs := WithAttempt(s.msgs, r.id, r.attempt));
    TxHashed(w, s1, r, now);
    var q := if r.kind.Direct? then TxDm(w, s1, r, now).1 else TxGroup(w, s1, r, now).1;
    assert Resend(w, s, i, now).retries == s.retries[i := q];
  }

  lemma TxHashed(w: Wire, s: State, r: Record, now: int)
    ensures r.kind.Direct? ==> RecordHashed(w, TxDm(w, s, r, now).1) && TxDm(w, s, r, now).0.retries == s.retries
    ensures r.kind.Group? ==> RecordHashed(w, TxGroup(w, s, r, now).1) && TxGroup(w, s, r, now).0.retries == s.retries
  {
  }

  lemma SendDmHashed(w: Wire, s: State, peer: Data, text: Data, ts: nat, now: int)
    requires Hashed(w, s.retries)
    ensures Hashed(w, SendDm(w, s, peer, text, ts, now).0.retries)
  {
    AfterSend(w, s, peer, text, ts, now);
  }

  lemma SendGroupHashed(w: Wire, s: State, name: Data, text: Data, ts: nat, now: int)
    requires Hashed(w, s.retries)
    ensures Hashed(w, SendGroup(w, s, name, text, ts, now).0.retries)
  {
    TxHashed(w, Fresh(s, Group(name), text, ts), NewRecord(s.next, Group(name), text, ts), now);
  }

  lemma AckHashed(w: Wire, s: State, ack: Data)
    requires Hashed(w, s.retries)
    ensures Hashed(w, MarkDelivered(s, ack).0.retries)
  {
    if ack in s.pending.acks {
      AfterDelivery(s, ack);
    }
  }

  lemma TickAtHashed(w: Wire, s: State, i: nat, now: int)
    requires Hashed(w, s.retries) && i < |s.retries| && Due(s.retries[i], now)
    ensures Hashed(w, TickAt(w, s, i, now).retries)
  {
    var r := s.retries[i];
    var s1 := if r.kind.Direct? && r.direct then ResetPath(s, r.kind.peer) else s;
    WithoutHashed(w, s1.retries, i);
    ResendHashed(w, s1, i, now);
  }

  lemma {:induction false} TickFromHashed(w: Wire, s: State, i: nat, now: int)
    requires Hashed(w, s.retries) && i <= |s.retries|
    ensures Hashed(w, TickFrom(w, s, i, now).retries)
    decreases |s.retries| - i
  {
    if i == |s.retries| {
    } else if !Due(s.retries[i], now) {
      TickFromHashed(w, s, i + 1, now);
    } else {
      var t := TickAt(w, s, i, now);
      TickAtHashed(w, s, i, now);
      TickFromHashed(w, t, if |t.retries| < |s.retries| then i else i + 1, now);
    }
  }

  lemma StepHashed(w: Wire, s: State, e: Event)
    requires Hashed(w, s.retries)
    ensures Hashed(w, Step(w, s, e).retries)
  {
    match e
    case SendsDm(peer, text, ts, now) => SendDmHashed(w, s, peer, text, ts, now);
    case SendsGroup(name, text, ts, now) => SendGroupHashed(w, s, name, text, ts, now);
    case Ticks(now) => TickFromHashed(w, s, 0, now);
    case HearsAck(ack) => AckHashed(w, s, ack);
    case HearsDm(peer, ts, text) =>
      var m := Msg(Direct(peer), true, ts, text, 0, None, false, false, false);
      SavingKeepsDelivery(s.(next := s.next + 1, msgs := s.msgs[s.next := m]), peer, s.next);
    case _ =>
  }

  lemma {:induction false} RunHashed(w: Wire, s0: State, es: seq<Event>)
    requires Hashed(w, s0.retries)
    ensures Hashed(w, Run(w, s0, es).retries)
    decreases |es|
  {
    if es == [] {
    } else {
      RunHashed(w, s0, es[..|es| - 1]);
      StepHashed(w, Run(w, s0, es[..|es| - 1]), es[|es| - 1]);
    }
  }

  // ---- which message an echo confirms ----

  /** The record waits for an echo, and h is the hash of the last packet that was queued for its message. */
  ghost predicate AwaitsEcho(w: Wire, s: State, r: Record, h: Data) {
    var sends := SendsOf(s.queue, r.id);
    r.kind.Group? && sends != [] && h == w.hash(Packet.PAYLOAD_TYPE_GRP_TXT, sends[|sends| - 1].payload)
  }

  lemma HashOfLastSend(w: Wire, s: State, i: nat, h: Data)
    requires Inv(w, s) && Hashed(w, s.retries) && i < |s.retries|
    ensures s.retries[i].kind.Group? && s.retries[i].hash == Some(h) <==> AwaitsEcho(w, s, s.retries[i], h)
  {
    var r := s.retries[i];
    assert RecordOk(s.msgs, s.queue, r) && RecordAcks(s.msgs, s.registered, r) && RecordHashed(w, r);
    SendCarriesAttempt(w, s, r.id, r.attempt);
  }

  /** The record of message id is the first in the list that awaits this echo. */
  ghost predicate Confirms(w: Wire, s: State, h: Data, id: nat) {
    exists j :: 0 <= j < |s.retries| && s.retries[j].id == id && AwaitsEcho(w, s, s.retries[j], h)
                && forall k :: 0 <= k < j ==> !AwaitsEcho(w, s, s.retries[k], h)
  }

  lemma ConfirmsIsFound(w: Wire, s: State, h: Data, id: nat)
    requires Inv(w, s) && Hashed(w, s.retries)
    ensures var i := FindEcho(s.retries, h); Confirms(w, s, h, id) <==> i < |s.retries| && s.retries[i].id == id
  {
    var i := FindEcho(s.retries, h);
    forall k | 0 <= k < |s.retries|
      ensures s.retries[k].kind.Group? && s.retries[k].hash == Some(h) <==> AwaitsEcho(w, s, s.retries[k], h)
    {
      HashOfLastSend(w, s, k, h);
    }
    if i < |s.retries| && s.retries[i].id == id {
      assert AwaitsEcho(w, s, s.retries[i], h);
    }
  }

  /** After any run, an echo confirms a message exactly when it is the hash of the last packet queued for it, and its
      record is the first such; then its resends stop. Every other message is left alone. */
  lemma EchoConfirms(w: Wire, s0: State, es: seq<Event>, h: Data, id: nat)
    requires Initial(s0) && id in Run(w, s0, es).msgs
    ensures var s := Run(w, s0, es); var t := Step(w, s, HearsEcho(h));
            if Confirms(w, s, h, id)
            then id in t.msgs && t.msgs[id] == s.msgs[id].(confirmed := true) && Retired(t, id)
            else Untouched(s, t, id)
  {
    InitialInv(w, s0);
    RunInv(w, s0, es);
    RunHashed(w, s0, es);
    var s := Run(w, s0, es);
    ConfirmsIsFound(w, s, h, id);
    EchoDoes(s, h, id);
  }

  /** So an echo of an earlier packet is lost, once a later one went out: nothing changes, and a channel message that
      repeaters did carry ends as failed when its last attempt is not heard back in time. */
  lemma LateEchoIsLost(w: Wire, s0: State, es: seq<Event>, j: nat, a: nat, now: int)
    requires Initial(s0) && j < |Run(w, s0, es).retries|
    requires var s := Run(w, s0, es); var r := s.retries[j]; var sends := SendsOf(s.queue, r.id);
             && r.kind.Group? && a < r.attempt == CH_MAX_SENDS - 1 && a < |sends| && Due(r, now) && s.heard
             && forall k :: 0 <= k < |s.retries| ==>
                  !AwaitsEcho(w, s, s.retries[k], w.hash(Packet.PAYLOAD_TYPE_GRP_TXT, sends[a].payload))
    ensures var s := Run(w, s0, es); var r := s.retries[j]; var sends := SendsOf(s.queue, r.id);
            var t := NoteEcho(s, w.hash(Packet.PAYLOAD_TYPE_GRP_TXT, sends[a].payload));
            t == s && r.id in s.msgs && r.id in Tick(w, t, now).msgs
            && Tick(w, t, now).msgs[r.id] == s.msgs[r.id].(failed := true) && !s.msgs[r.id].confirmed
  {
    InitialInv(w, s0);
    RunInv(w, s0, es);
    RunHashed(w, s0, es);
    var s := Run(w, s0, es);
    var h := w.hash(Packet.PAYLOAD_TYPE_GRP_TXT, SendsOf(s.queue, s.retries[j].id)[a].payload);
    NobodyAwaits(w, s, h);
    TickDoes(w, s, now, j);
    assert RecordOk(s.msgs, s.queue, s.retries[j]);
  }

  lemma NobodyAwaits(w: Wire, s: State, h: Data)
    requires Inv(w, s) && Hashed(w, s.retries)
    requires forall k :: 0 <= k < |s.retries| ==> !AwaitsEcho(w, s, s.retries[k], h)
    ensures NoteEcho(s, h) == s
  {
    var i := FindEcho(s.retries, h);
    if i < |s.retries| {
      HashOfLastSend(w, s, i, h);
    }
  }

  // ---- a run in which that happens ----

  lemma RunMore(w: Wire, s: State, es: seq<Event>, e: Event)
    ensures Run(w, s, es + [e]) == Step(w, Run(w, s, es), e)
  {
    assert (es + [e])[..|es|] == es;
  }

  /** The only record is due: it is resent, or given up. */
  lemma TickOfOne(w: Wire, s: State, now: int)
    requires |s.retries| == 1 && s.retries[0].kind.Group? && Due(s.retries[0], now) && s.heard
    ensures Tick(w, s, now) == if s.retries[0].attempt + 1 >= CH_MAX_SENDS then GiveUp(s, 0) else Resend(w, s, 0, now)
  {
    var t := TickAt(w, s, 0, now);
    assert TickFrom(w, t, |t.retries|, now) == t;
    assert Tick(w, s, now) == TickFrom(w, t, |t.retries|, now);
  }

  /** A message of ours that was sent at time now as number id, and resent until attempt was made at time sentMs. */
  ghost predicate OnItsOwn(w: Wire, s: State, id: nat, name: Data, text: Data, ts: nat, attempt: nat, sentMs: int) {
    && s.retries == [Record(id, Group(name), text, ts, attempt, false, [],
                            Some(w.hash(Packet.PAYLOAD_TYPE_GRP_TXT, w.group(name, text, ts + attempt))), sentMs)]
    && id in s.msgs && s.msgs[id] == Msg(Group(name), false, ts, text, attempt, None, false, false, false)
  }

  lemma SentOnItsOwn(w: Wire, s: State, name: Data, text: Data, ts: nat, now: int)
    requires s.retries == [] && text != []
    ensures OnItsOwn(w, Step(w, s, SendsGroup(name, text, ts, now)), s.next, name, text, ts, 0, now)
  {
  }

  lemma ResentOnItsOwn(w: Wire, s: State, id: nat, name: Data, text: Data, ts: nat, attempt: nat, sentMs: int, now: int)
    requires OnItsOwn(w, s, id, name, text, ts, attempt, sentMs) && s.heard
    requires attempt + 1 < CH_MAX_SENDS && now - sentMs >= RETRY_AFTER_MS
    ensures OnItsOwn(w, Tick(w, s, now), id, name, text, ts, attempt + 1, now) && Tick(w, s, now).heard
  {
    TickOfOne(w, s, now);
    var r := s.retries[0].(attempt := attempt + 1);
    var s1 := s.(msgs := WithAttempt(s.msgs, id, attempt + 1));
    assert TxGroup(w, s1, r, now).0.retries == s.retries;
  }

  /** A channel message is sent, a repeater is heard, two timeouts go by; then the echo of the first packet comes. */
  function TooLate(w: Wire, name: Data, text: Data, ts: nat, now: int): seq<Event> {
    [SendsGroup(name, text, ts, now)] + [HearsRepeater] + [Ticks(now + RETRY_AFTER_MS)]
    + [Ticks(now + 2 * RETRY_AFTER_MS)] + [HearsEcho(w.hash(Packet.PAYLOAD_TYPE_GRP_TXT, w.group(name, text, ts)))]
    + [Ticks(now + 3 * RETRY_AFTER_MS)]
  }

  /** From start-up, or whenever nothing else waits: the message still fails at the next timeout. */
  lemma RunTooLate(w: Wire, s0: State, name: Data, text: Data, ts: nat, now: int)
    requires s0.retries == [] && text != []
    requires w.hash(Packet.PAYLOAD_TYPE_GRP_TXT, w.group(name, text, ts))
          != w.hash(Packet.PAYLOAD_TYPE_GRP_TXT, w.group(name, text, ts + 2))
    ensures var t := Run(w, s0, TooLate(w, name, text, ts, now)); var id := s0.next;
            && id in t.msgs && t.retries == []
            && t.msgs[id] == Msg(Group(name), false, ts, text, 2, None, false, false, true)
  {
    var id := s0.next;
    var es := [SendsGroup(name, text, ts, now)];
    RunMore(w, s0, [], es[0]);
    assert [] + es == es;
    SentOnItsOwn(w, s0, name, text, ts, now);
    RunMore(w, s0, es, HearsRepeater);
    var s2 := Run(w, s0, es + [HearsRepeater]);
    RunMore(w, s0, es + [HearsRepeater], Ticks(now + RETRY_AFTER_MS));
    ResentOnItsOwn(w, s2, id, name, text, ts, 0, now, now + RETRY_AFTER_MS);
    var s3 := Tick(w, s2, now + RETRY_AFTER_MS);
    ResentOnItsOwn(w, s3, id, name, text, ts, 1, now + RETRY_AFTER_MS, now + 2 * RETRY_AFTER_MS);
    var s4 := Tick(w, s3, now + 2 * RETRY_AFTER_MS);
    LastThree(w, s0, s2, s4, name, text, ts, now);
    FailsOnItsOwn(w, s4, id, name, text, ts, now);
  }

  /** The last three events of that run. */
  lemma LastThree(w: Wire, s0: State, s2: State, s4: State, name: Data, text: Data, ts: nat, now: int)
    requires var es := [SendsGroup(name, text, ts, now)] + [HearsRepeater];
             s2 == Run(w, s0, es) && s4 == Tick(w, Tick(w, s2, now + RETRY_AFTER_MS), now + 2 * RETRY_AFTER_MS)
    ensures var h := w.hash(Packet.PAYLOAD_TYPE_GRP_TXT, w.group(name, text, ts));
            Run(w, s0, TooLate(w, name, text, ts, now)) == Tick(w, NoteEcho(s4, h), now + 3 * RETRY_AFTER_MS)
  {
    var es2 := [SendsGroup(name, text, ts, now)] + [HearsRepeater];
    var es3 := es2 + [Ticks(now + RETRY_AFTER_MS)];
    var es4 := es3 + [Ticks(now + 2 * RETRY_AFTER_MS)];
    var es5 := es4 + [HearsEcho(w.hash(Packet.PAYLOAD_TYPE_GRP_TXT, w.group(name, text, ts)))];
    RunMore(w, s0, es2, Ticks(now + RETRY_AFTER_MS));
    RunMore(w, s0, es3, Ticks(now + 2 * RETRY_AFTER_MS));
    RunMore(w, s0, es4, HearsEcho(w.hash(Packet.PAYLOAD_TYPE_GRP_TXT, w.group(name, text, ts))));
    RunMore(w, s0, es5, Ticks(now + 3 * RETRY_AFTER_MS));
  }

  lemma FailsOnItsOwn(w: Wire, s: State, id: nat, name: Data, text: Data, ts: nat, now: int)
    requires OnItsOwn(w, s, id, name, text, ts, 2, now + 2 * RETRY_AFTER_MS) && s.heard
    requires w.hash(Packet.PAYLOAD_TYPE_GRP_TXT, w.group(name, text, ts))
          != w.hash(Packet.PAYLOAD_TYPE_GRP_TXT, w.group(name, text, ts + 2))
    ensures var h := w.hash(Packet.PAYLOAD_TYPE_GRP_TXT, w.group(name, text, ts));
            var t := Tick(w, NoteEcho(s, h), now + 3 * RETRY_AFTER_MS);
            && NoteEcho(s, h) == s && id in t.msgs && t.retries == []
            && t.msgs[id] == Msg(Group(name), false, ts, text, 2, None, false, false, true)
  {
    TickOfOne(w, s, now + 3 * RETRY_AFTER_MS);
  }
}
