/** Why retrying ends: every record has only so many sends left. */
module Progress {
  import opened Bytes
  import opened Protocol
  import opened Retries
  import opened Acks

  /** The attempts a record may still use up, the one it waits for included. */
  function Left(r: Record): nat {
    if r.attempt < MaxSends(r.kind) then MaxSends(r.kind) - r.attempt else 0
  }

  function Measure(rs: seq<Record>): nat {
    if rs == [] then 0 else Left(rs[0]) + Measure(rs[1..])
  }

  function DueCount(rs: seq<Record>, now: int): nat {
    if rs == [] then 0 else (if Due(rs[0], now) then 1 else 0) + DueCount(rs[1..], now)
  }

  lemma {:induction false} MeasureAt(rs: seq<Record>, i: nat)
    requires i < |rs|
    ensures Measure(rs) == Left(rs[i]) + Measure(Without(rs, i))
  {
    if i == 0 {
      assert Without(rs, 0) == rs[1..];
    } else {
      MeasureAt(rs[1..], i - 1);
      assert Without(rs, i)[1..] == Without(rs[1..], i - 1);
    }
  }

  lemma MeasureSet(rs: seq<Record>, i: nat, r: Record)
    requires i < |rs|
    ensures Measure(rs[i := r]) + Left(rs[i]) == Measure(rs) + Left(r)
  {
    MeasureAt(rs, i);
    MeasureAt(rs[i := r], i);
    assert Without(rs[i := r], i) == Without(rs, i);
  }

  /** One due record: it goes, or it uses up one attempt and one packet is queued for it. */
  ghost predicate UsesUp(s: State, t: State, i: nat)
    requires i < |s.retries|
  {
    || (t.retries == Without(s.retries, i) && t.queue == s.queue)
    || (|t.retries| == |s.retries| && t.retries == s.retries[i := t.retries[i]]
        && t.retries[i].kind == s.retries[i].kind && t.retries[i].attempt == s.retries[i].attempt + 1
        && |t.queue| == |s.queue| + 1)
  }

  lemma ResendUses(w: Wire, s: State, i: nat, now: int)
    requires i < |s.retries|
    ensures UsesUp(s, Resend(w, s, i, now), i) && Resend(w, s, i, now).retries[i].sentMs == now
    ensures |Resend(w, s, i, now).retries| == |s.retries|
  {
    var r := s.retries[i].(attempt := s.retries[i].attempt + 1);
    var s1 := s.(msgs := WithAttempt(s.msgs, r.id, r.attempt));
    TxQueuesOne(w, s1, r, now);
    var (s2, q) := if r.kind.Direct? then TxDm(w, s1, r, now) else TxGroup(w, s1, r, now);
    TxUses(s, s1, s2, q, i);
    assert Resend(w, s, i, now) == s2.(retries := s2.retries[i := q]);
  }

  ghost predicate QueuesOne(s: State, t: State, r: Record, q: Record, now: int) {
    && t.retries == s.retries && |t.queue| == |s.queue| + 1
    && q.kind == r.kind && q.attempt == r.attempt && q.sentMs == now
  }

  lemma TxQueuesOne(w: Wire, s: State, r: Record, now: int)
    ensures r.kind.Direct? ==> QueuesOne(s, TxDm(w, s, r, now).0, r, TxDm(w, s, r, now).1, now)
    ensures r.kind.Group? ==> QueuesOne(s, TxGroup(w, s, r, now).0, r, TxGroup(w, s, r, now).1, now)
  {
  }

  lemma TxUses(s: State, s1: State, s2: State, r: Record, i: nat)
    requires i < |s.retries| && s1.retries == s2.retries == s.retries && s1.queue == s.queue
    requires |s2.queue| == |s1.queue| + 1
    requires r.kind == s.retries[i].kind && r.attempt == s.retries[i].attempt + 1
    ensures UsesUp(s, s2.(retries := s2.retries[i := r]), i)
  {
  }

  lemma GiveUpUses(s: State, i: nat)
    requires i < |s.retries|
    ensures UsesUp(s, GiveUp(s, i), i) && GiveUp(s, i).retries == Without(s.retries, i)
  {
    var r := s.retries[i];
    var s1 := s.(msgs := WithFailed(s.msgs, r.id), retries := Without(s.retries, i));
    if r.kind.Direct? {
      SavingKeepsDelivery(s1, r.kind.peer, 0);
    }
  }

  lemma TickAtUses(w: Wire, s: State, i: nat, now: int)
    requires i < |s.retries| && Due(s.retries[i], now)
    ensures UsesUp(s, TickAt(w, s, i, now), i)
    ensures |TickAt(w, s, i, now).retries| == |s.retries| ==> TickAt(w, s, i, now).retries[i].sentMs == now
  {
    var r := s.retries[i];
    if r.kind.Direct? {
      var s1 := if r.direct then ResetPath(s, r.kind.peer) else s;
      ResetFloods(s, r.kind.peer);
      if r.attempt + 1 >= DM_MAX_SENDS {
        GiveUpUses(s1, i);
      } else {
        ResendUses(w, s1, i, now);
      }
    } else if s.heard {
      if r.attempt + 1 >= CH_MAX_SENDS {
        GiveUpUses(s, i);
      } else {
        ResendUses(w, s, i, now);
      }
    }
  }

  /** Attempts used up, packets queued. */
  lemma UsedUp(s: State, t: State, i: nat)
    requires Safe(s) && i < |s.retries| && UsesUp(s, t, i)
    ensures Measure(t.retries) + 1 <= Measure(s.retries)
    ensures |t.queue| + Measure(t.retries) - |t.retries| <= |s.queue| + Measure(s.retries) - |s.retries|
  {
    assert RecordOk(s.msgs, s.queue, s.retries[i]);
    MeasureAt(s.retries, i);
    if |t.retries| == |s.retries| {
      MeasureSet(s.retries, i, t.retries[i]);
    }
  }

  lemma DueNext(rs: seq<Record>, i: nat, now: int)
    requires i < |rs|
    ensures DueCount(rs[i..], now) == (if Due(rs[i], now) then 1 else 0) + DueCount(rs[i + 1..], now)
  {
    assert rs[i..][1..] == rs[i + 1..];
  }

  lemma RestUnmoved(s: State, t: State, i: nat)
    requires i < |s.retries| && UsesUp(s, t, i)
    ensures |t.retries| < |s.retries| ==> t.retries[i..] == s.retries[i + 1..]
    ensures |t.retries| == |s.retries| ==> t.retries[i + 1..] == s.retries[i + 1..]
  {
  }

  /** Every due record costs the measure at least one; packets are paid for out of it. */
  lemma {:induction false} TickDropsFrom(w: Wire, s: State, i: nat, now: int)
    requires Safe(s) && i <= |s.retries|
    ensures var t := TickFrom(w, s, i, now);
            && Measure(t.retries) + DueCount(s.retries[i..], now) <= Measure(s.retries)
            && |t.queue| + Measure(t.retries) - |t.retries| <= |s.queue| + Measure(s.retries) - |s.retries|
    decreases |s.retries| - i
  {
    if i == |s.retries| {
    } else {
      DueNext(s.retries, i, now);
      if !Due(s.retries[i], now) {
        TickDropsFrom(w, s, i + 1, now);
      } else {
        var t := TickAt(w, s, i, now);
        TickAtSafe(w, s, i, now);
        TickAtUses(w, s, i, now);
        UsedUp(s, t, i);
        RestUnmoved(s, t, i);
        TickDropsFrom(w, t, if |t.retries| < |s.retries| then i else i + 1, now);
      }
    }
  }

  lemma TickDrops(w: Wire, s: State, now: int)
    requires Safe(s)
    ensures Measure(Tick(w, s, now).retries) + DueCount(s.retries, now) <= Measure(s.retries)
  {
    TickDropsFrom(w, s, 0, now);
    assert s.retries[0..] == s.retries;
  }

  // ---- the other steps ----

  lemma {:induction false} MeasureMore(rs: seq<Record>, r: Record)
    ensures Measure(rs + [r]) == Measure(rs) + Left(r)
  {
    if rs == [] {
      assert [r][1..] == [];
    } else {
      assert (rs + [r])[1..] == rs[1..] + [r];
      MeasureMore(rs[1..], r);
    }
  }

  /** The packets queued so far and those that the records may still cause. */
  function Budget(s: State): int { |s.queue| + Measure(s.retries) - |s.retries| }

  lemma {:induction false} MeasureCoversRecords(msgs: map<nat, Msg>, queue: seq<Sent>, rs: seq<Record>)
    requires forall i :: 0 <= i < |rs| ==> RecordOk(msgs, queue, rs[i])
    ensures Measure(rs) >= |rs|
  {
    if rs == [] {
    } else {
      assert RecordOk(msgs, queue, rs[0]);
      forall i | 0 <= i < |rs[1..]| ensures RecordOk(msgs, queue, rs[1..][i]) {
        assert rs[1..][i] == rs[i + 1];
      }
      MeasureCoversRecords(msgs, queue, rs[1..]);
    }
  }

  /** Nothing was queued beyond the budget. */
  lemma QueueWithinBudget(s: State)
    requires Safe(s)
    ensures |s.queue| <= Budget(s)
  {
    MeasureCoversRecords(s.msgs, s.queue, s.retries);
  }

  /** How many sends an event may start. */
  function Starts(e: Event): nat {
    if e.SendsDm? then DM_MAX_SENDS else if e.SendsGroup? then CH_MAX_SENDS else 0
  }

  lemma DroppedBudget(s: State, t: State, i: nat)
    requires Safe(s) && i < |s.retries| && t.retries == Without(s.retries, i) && t.queue == s.queue
    ensures Budget(t) <= Budget(s) && Measure(t.retries) <= Measure(s.retries)
  {
    assert UsesUp(s, t, i);
    UsedUp(s, t, i);
  }

  lemma StartedBudget(s: State, t: State, r: Record, e: Sent)
    requires t.retries == s.retries + [r] && t.queue == s.queue + [e] && r.attempt == 0
    ensures Budget(t) == Budget(s) + MaxSends(r.kind) && Measure(t.retries) == Measure(s.retries) + MaxSends(r.kind)
  {
    MeasureMore(s.retries, r);
  }

  lemma SendBudget(w: Wire, s: State, peer: Data, text: Data, ts: nat, now: int)
    ensures var t := SendDm(w, s, peer, text, ts, now).0;
            Budget(t) <= Budget(s) + DM_MAX_SENDS && Measure(t.retries) <= Measure(s.retries) + DM_MAX_SENDS
  {
    if text != [] && peer in s.contacts {
      var t := SendDmTo(w, s, peer, text, ts, now);
      AfterSend(w, s, peer, text, ts, now);
      StartedBudget(s, t, t.retries[|s.retries|], t.queue[|s.queue|]);
    }
  }

  lemma GroupBudget(w: Wire, s: State, name: Data, text: Data, ts: nat, now: int)
    ensures var t := SendGroup(w, s, name, text, ts, now).0;
            Budget(t) <= Budget(s) + CH_MAX_SENDS && Measure(t.retries) <= Measure(s.retries) + CH_MAX_SENDS
  {
    if text != [] {
      var t := SendGroup(w, s, name, text, ts, now).0;
      StartedBudget(s, t, t.retries[|s.retries|], t.queue[|s.queue|]);
    }
  }

  lemma AckBudget(s: State, ack: Data)
    requires Safe(s)
    ensures var t := MarkDelivered(s, ack).0; Budget(t) <= Budget(s) && Measure(t.retries) <= Measure(s.retries)
  {
    if ack in s.pending.acks {
      AfterDelivery(s, ack);
      var i := Find(s.retries, s.pending.acks[ack].id);
      if i < |s.retries| {
        DroppedBudget(s, MarkDelivered(s, ack).0, i);
      }
    }
  }

  lemma ReceiveBudget(s: State, peer: Data, ts: nat, text: Data)
    ensures var t := Receive(s, peer, ts, text); t.retries == s.retries && t.queue == s.queue
  {
    if peer in s.contacts {
      var m := Msg(Direct(peer), true, ts, text, 0, None, false, false, false);
      SavingKeepsDelivery(s.(next := s.next + 1, msgs := s.msgs[s.next := m]), peer, s.next);
    }
  }

  lemma EchoBudget(s: State, h: Data)
    requires Safe(s)
    ensures var t := NoteEcho(s, h); Budget(t) <= Budget(s) && Measure(t.retries) <= Measure(s.retries)
  {
    if FindEcho(s.retries, h) < |s.retries| {
      DroppedBudget(s, NoteEcho(s, h), FindEcho(s.retries, h));
    }
  }

  /** Only a new send raises the measure, and the budget by as many packets as it may take. */
  lemma StepBudget(w: Wire, s: State, e: Event)
    requires Safe(s)
    ensures Budget(Step(w, s, e)) <= Budget(s) + Starts(e)
    ensures Measure(Step(w, s, e).retries) <= Measure(s.retries) + Starts(e)
  {
    match e
    case SendsDm(peer, text, ts, now) => SendBudget(w, s, peer, text, ts, now);
    case SendsGroup(name, text, ts, now) => GroupBudget(w, s, name, text, ts, now);
    case Ticks(now) => TickDropsFrom(w, s, 0, now);
    case HearsAck(ack) => AckBudget(s, ack);
    case HearsEcho(h) => EchoBudget(s, h);
    case HearsDm(peer, ts, text) => ReceiveBudget(s, peer, ts, text);
    case _ =>
  }
}
