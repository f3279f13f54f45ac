/** What single events do, in numbers: the first packet of a message, an ack that comes twice, a repeater. */
module Effects {
  import opened Bytes
  import opened Protocol
  import opened Routes
  import opened Retries
  import opened Acks
  import opened Outcomes
  import opened Runs
  import Pending

  // ---- sending ----

  /** send_dm refuses for the first of four reasons: no text, no identity, not a contact, no secret. */
  lemma RefusedFor(s: State, peer: Data, text: Data, identity: bool, secret: bool)
    ensures var err := Refusal(s, peer, text, identity, secret);
            && (err == Some(EmptyMessage) <==> |text| == 0)
            && (err == Some(NoIdentity) <==> |text| > 0 && !identity)
            && (err == Some(NotAContact) <==> |text| > 0 && identity && peer !in s.contacts)
            && (err == Some(NoSharedSecret) <==> |text| > 0 && identity && peer in s.contacts && !secret)
  {
  }

  /** One packet is queued, and its message waits for it: since now, with attempt 0. */
  ghost predicate FirstSent(s: State, t: State, m: Msg, e: Sent, r: Record) {
    && t.next == s.next + 1 && t.msgs == s.msgs[s.next := m] && t.queue == s.queue + [e] && t.retries == s.retries + [r]
    && e.id == r.id == s.next && e.attempt == r.attempt == 0 && r.kind == m.kind && r.text == m.text && r.ts == m.ts
    && !m.incoming && !Settled(m)
  }

  lemma DmIsSent(w: Wire, s: State, p: Data, text: Data, ts: nat, now: int)
    ensures var t := Step(w, s, SendsDm(p, text, ts, now));
            if |text| == 0 || p !in s.contacts then t == s
            else
              var (payload, ack) := w.dm(p, text, ts, 0);
              var route := RouteTo(Some(s.contacts[p]));
              FirstSent(s, t, Msg(Direct(p), false, ts, text, 0, Some(ack), false, false, false),
                        Sent(s.next, 0, route, payload),
                        Record(s.next, Direct(p), text, ts, 0, route.kind == 2, [ack], None, now))
  {
    if |text| > 0 && p in s.contacts {
      AfterSend(w, s, p, text, ts, now);
    }
  }

  lemma GroupIsSent(w: Wire, s: State, name: Data, text: Data, ts: nat, now: int)
    ensures var t := Step(w, s, SendsGroup(name, text, ts, now));
            if |text| == 0 then t == s
            else
              var payload := w.group(name, text, ts);
              FirstSent(s, t, Msg(Group(name), false, ts, text, 0, None, false, false, false),
                        Sent(s.next, 0, Route(1, 0, []), payload),
                        Record(s.next, Group(name), text, ts, 0, false, [], Some(w.hash(5, payload)), now))
  {
  }

  // ---- a record knows the acks of all its attempts ----

  ghost predicate RecordListed(w: Wire, r: Record) {
    r.kind.Direct? ==>
      |r.acks| == r.attempt + 1 && forall j :: 0 <= j <= r.attempt ==> r.acks[j] == w.dm(r.kind.peer, r.text, r.ts, j).1
  }

  ghost predicate Listed(w: Wire, retries: seq<Record>) {
    forall i :: 0 <= i < |retries| ==> RecordListed(w, retries[i])
  }

  lemma ResendListed(w: Wire, s: State, i: nat, now: int)
    requires Listed(w, s.retries) && i < |s.retries|
    ensures Listed(w, Resend(w, s, i, now).retries)
  {
    assert RecordListed(w, s.retries[i]);
    var r := s.retries[i].(attempt := s.retries[i].attempt + 1);
    var s1 := s.(msgs := WithAttempt(s.msgs, r.id, r.attempt));
    TxListed(w, s1, r, now);
    var q := if r.kind.Direct? then TxDm(w, s1, r, now).1 else TxGroup(w, s1, r, now).1;
    assert Resend(w, s, i, now).retries == s.retries[i := q];
  }

  lemma TxListed(w: Wire, s: State, r: Record, now: int)
    requires r.kind.Direct? ==>
      |r.acks| == r.attempt && forall j :: 0 <= j < r.attempt ==> r.acks[j] == w.dm(r.kind.peer, r.text, r.ts, j).1
    ensures r.kind.Direct? ==> RecordListed(w, TxDm(w, s, r, now).1) && TxDm(w, s, r, now).0.retries == s.retries
    ensures r.kind.Group? ==> RecordListed(w, TxGroup(w, s, r, now).1) && TxGroup(w, s, r, now).0.retries == s.retries
  {
  }

  lemma GoneListed(w: Wire, retries: seq<Record>, i: nat)
    requires Listed(w, retries) && i < |retries|
    ensures Listed(w, Without(retries, i))
  {
  }

  lemma TickAtListed(w: Wire, s: State, i: nat, now: int)
    requires Listed(w, s.retries) && i < |s.retries| && Due(s.retries[i], now)
    ensures Listed(w, TickAt(w, s, i, now).retries)
  {
    var r := s.retries[i];
    var s1 := if r.kind.Direct? && r.direct then ResetPath(s, r.kind.peer) else s;
    GoneListed(w, s1.retries, i);
    ResendListed(w, s1, i, now);
  }

  lemma {:induction false} TickFromListed(w: Wire, s: State, i: nat, now: int)
    requires Listed(w, s.retries) && i <= |s.retries|
    ensures Listed(w, TickFrom(w, s, i, now).retries)
    decreases |s.retries| - i
  {
    if i == |s.retries| {
    } else if !Due(s.retries[i], now) {
      TickFromListed(w, s, i + 1, now);
    } else {
      var t := TickAt(w, s, i, now);
      TickAtListed(w, s, i, now);
      TickFromListed(w, t, if |t.retries| < |s.retries| then i else i + 1, now);
    }
  }

  lemma StepListed(w: Wire, s: State, e: Event)
    requires Listed(w, s.retries)
    ensures Listed(w, Step(w, s, e).retries)
  {
    match e
    case SendsDm(p, text, ts, now) => DmIsSent(w, s, p, text, ts, now);
    case SendsGroup(name, text, ts, now) => GroupIsSent(w, s, name, text, ts, now);
    case Ticks(now) => TickFromListed(w, s, 0, now);
    case HearsAck(ack) => AckListed(w, s, ack);
    case HearsDm(p, ts, text) => ReceiveListed(w, s, p, ts, text);
    case _ =>
  }

  lemma AckListed(w: Wire, s: State, ack: Data)
    requires Listed(w, s.retries)
    ensures Listed(w, MarkDelivered(s, ack).0.retries)
  {
    if ack in s.pending.acks {
      AfterDelivery(s, ack);
    }
  }

  lemma ReceiveListed(w: Wire, s: State, p: Data, ts: nat, text: Data)
    requires Listed(w, s.retries)
    ensures Listed(w, Receive(s, p, ts, text).retries)
  {
    var m := Msg(Direct(p), true, ts, text, 0, None, false, false, false);
    SavingKeepsDelivery(s.(next := s.next + 1, msgs := s.msgs[s.next := m]), p, s.next);
  }

  lemma {:induction false} RunListed(w: Wire, s0: State, es: seq<Event>)
    requires Listed(w, s0.retries)
    ensures Listed(w, Run(w, s0, es).retries)
    decreases |es|
  {
    if es == [] {
    } else {
      RunListed(w, s0, es[..|es| - 1]);
      StepListed(w, Run(w, s0, es[..|es| - 1]), es[|es| - 1]);
    }
  }

  // ---- acks ----

  /** Hearing this ack changes nothing. */
  ghost predicate Ignored(w: Wire, s: State, ack: Data) { Step(w, s, HearsAck(ack)) == s }

  /** An ack settles its message as an event of a run, once: the same ack is ignored from then on, and so is the ack of
      every other attempt, if the message was still waited for. One place in the order is freed. */
  lemma AckSettlesOnce(w: Wire, s0: State, es: seq<Event>, ack: Data)
    requires Initial(s0) && ack in Run(w, s0, es).pending.acks
    ensures var s := Run(w, s0, es); var t := Step(w, s, HearsAck(ack)); var e := s.pending.acks[ack];
            && e.id in s.msgs && s.msgs[e.id].kind == Direct(e.peer)
            && t.msgs == s.msgs[e.id := s.msgs[e.id].(delivered := true)] && Retired(t, e.id)
            && Ignored(w, t, ack) && |t.pending.order| == |s.pending.order| - 1
            && (!Retired(s, e.id) ==>
                  forall j :: 0 <= j < |SendsOf(s.queue, e.id)| ==>
                    Ignored(w, t, w.dm(e.peer, s.msgs[e.id].text, s.msgs[e.id].ts, j).1))
  {
    InitialInv(w, s0);
    RunInv(w, s0, es);
    RunListed(w, s0, es);
    var s := Run(w, s0, es);
    var t := MarkDelivered(s, ack).0;
    var e := s.pending.acks[ack];
    PendingIsKnown(w, s, ack);
    AfterDelivery(s, ack);
    AckSafe(s, ack);
    StepInv(w, s, HearsAck(ack));
    SettledIsRetired(t, e.id);
    OnePlaceGoes(s.pending, ack);
    if !Retired(s, e.id) {
      var i := Find(s.retries, e.id);
      WaitingIsFound(s, e.id);
      AcksAreGone(w, s, t, i, e.peer);
    }
  }

  lemma WaitingIsFound(s: State, id: nat)
    requires id in s.msgs && !Retired(s, id)
    ensures Find(s.retries, id) < |s.retries|
  {
  }

  lemma OnePlaceGoes(t: Pending.Table, ack: Data)
    requires forall a :: a in t.acks ==> a in t.order
    requires ack in t.acks
    ensures |Pending.Take(t, ack).order| == |t.order| - 1
  {
    var i := Pending.RemovedIsAt(t.order, ack);
  }

  lemma AcksAreGone(w: Wire, s: State, t: State, i: nat, p: Data)
    requires Safe(s) && i < |s.retries| && RecordListed(w, s.retries[i]) && s.retries[i].kind == Direct(p)
    requires s.retries[i].text == s.msgs[s.retries[i].id].text && s.retries[i].ts == s.msgs[s.retries[i].id].ts
    requires forall a :: a in s.retries[i].acks ==> a !in t.pending.acks
    ensures var id := s.retries[i].id;
            forall j :: 0 <= j < |SendsOf(s.queue, id)| ==>
              Ignored(w, t, w.dm(p, s.msgs[id].text, s.msgs[id].ts, j).1)
  {
    var r := s.retries[i];
    assert RecordOk(s.msgs, s.queue, r);
    forall j | 0 <= j < |SendsOf(s.queue, r.id)| ensures Ignored(w, t, w.dm(p, r.text, r.ts, j).1) {
      assert r.acks[j] in r.acks;
    }
  }

  // ---- repeaters ----

  lemma {:induction false} TickHears(w: Wire, s: State, i: nat, now: int)
    requires Safe(s) && i <= |s.retries|
    ensures TickFrom(w, s, i, now).heard == s.heard
    decreases |s.retries| - i
  {
    if i == |s.retries| {
    } else if !Due(s.retries[i], now) {
      TickHears(w, s, i + 1, now);
    } else {
      var t := TickAt(w, s, i, now);
      TickAtSafe(w, s, i, now);
      TickAtLeaves(w, s, i, now, s.retries[i].id + 1);
      TickHears(w, t, if |t.retries| < |s.retries| then i else i + 1, now);
    }
  }

  lemma StepHears(w: Wire, s: State, e: Event)
    requires Safe(s)
    ensures Step(w, s, e).heard <==> s.heard || e.HearsRepeater?
  {
    match e
    case SendsDm(p, text, ts, now) =>
      var (s1, r) := TxDm(w, Fresh(s, Direct(p), text, ts), NewRecord(s.next, Direct(p), text, ts), now);
      SavingKeepsDelivery(s1, p, s.next);
    case Ticks(now) => TickHears(w, s, 0, now);
    case HearsAck(ack) =>
      if ack in s.pending.acks {
        var entry := s.pending.acks[ack];
        var s1 := s.(pending := Pending.Take(s.pending, ack), msgs := WithDelivered(s.msgs, entry.id));
        SavingKeepsDelivery(CancelRetry(s1, entry.id), entry.peer, 0);
      }
    case HearsDm(p, ts, text) =>
      var m := Msg(Direct(p), true, ts, text, 0, None, false, false, false);
      SavingKeepsDelivery(s.(next := s.next + 1, msgs := s.msgs[s.next := m]), p, s.next);
    case _ =>
  }

  /** Channel messages are resent once a repeater was heard, at any time before: nothing else sets or clears that. */
  lemma {:induction false} HeardFollows(w: Wire, s0: State, es: seq<Event>)
    requires Initial(s0)
    ensures Run(w, s0, es).heard <==> s0.heard || exists k :: 0 <= k < |es| && es[k].HearsRepeater?
    decreases |es|
  {
    if es == [] {
    } else {
      var before := es[..|es| - 1];
      InitialInv(w, s0);
      RunInv(w, s0, before);
      HeardFollows(w, s0, before);
      StepHears(w, Run(w, s0, before), es[|es| - 1]);
      assert es == before + [es[|es| - 1]];
    }
  }
}
