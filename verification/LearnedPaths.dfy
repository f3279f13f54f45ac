/** Routes over a run: what a contact's path is after any run, and over which route each packet to it is queued. */
module LearnedPaths {
  import opened Bytes
  import opened Protocol
  import opened Routes
  import opened Retries
  import opened Acks
  import opened Progress
  import opened Runs
  import Outcomes
  import Packet
  import Dm
  import Pending

  /** The event is a tick that finds a direct attempt to p due. */
  ghost predicate DirectTimesOut(s: State, e: Event, p: Data) {
    e.Ticks? && DirectDue(s.retries, 0, e.now, p)
  }

  ghost predicate DirectDue(retries: seq<Record>, i: nat, now: int, p: Data) {
    exists k :: i <= k < |retries| && IsDirectDue(retries[k], now, p)
  }

  ghost predicate IsDirectDue(r: Record, now: int, p: Data) {
    r.kind == Direct(p) && r.direct && now - r.sentMs >= 15000
  }

  /** A packet of a DM to p. */
  ghost predicate IsTo(msgs: map<nat, Msg>, e: Sent, p: Data) { e.id in msgs && msgs[e.id].kind == Direct(p) }

  /** Every packet queued since was for the route of this contact; or it was flooded, if a path was forgotten. */
  ghost predicate RoutedBy(s: State, t: State, p: Data, contact: Option<Contact>, forgotten: bool) {
    && s.queue <= t.queue
    && forall k :: |s.queue| <= k < |t.queue| && IsTo(t.msgs, t.queue[k], p) ==>
         t.queue[k].route == RouteTo(contact)
         || (forgotten && t.queue[k].route == Route(Packet.ROUTE_TYPE_FLOOD, 0, []))
  }

  /** A path of some hops is forgotten. */
  ghost function Forgotten(contact: Option<Contact>, due: bool): Option<Contact> {
    if due && contact.Some? && contact.value.path != None && contact.value.path != Some([]) then Some(Contact(None, 0))
    else contact
  }

  /** What the step leaves of the contact. */
  ghost function After(s: State, e: Event, p: Data, contact: Option<Contact>): Option<Contact> {
    match e
    case HearsPath(dec) =>
      if contact.Some? && dec.key == p && contact.value.path != Some(dec.path)
      then Some(Contact(Some(dec.path), dec.pathLenRaw)) else contact
    case AddsContact(q) => if contact.None? && q == p && |p| == 32 then Some(Contact(None, 0)) else contact
    case RemovesContact(q) => if q == p then None else contact
    case Ticks(_) =>
      Forgotten(contact, DirectTimesOut(s, e, p))
    case _ => contact
  }

  // ---- one due record ----

  lemma ResetElsewhere(s: State, q: Data, p: Data)
    ensures ContactOf(ResetPath(s, q), p) == if p == q then Forgotten(ContactOf(s, p), true) else ContactOf(s, p)
  {
  }

  lemma ResendRoute(w: Wire, s: State, i: nat, now: int, p: Data)
    requires Safe(s) && i < |s.retries|
    ensures var t := Resend(w, s, i, now);
            && t.contacts == s.contacts && |t.queue| == |s.queue| + 1 && t.queue[..|s.queue|] == s.queue
            && RoutedBy(s, t, p, ContactOf(s, p), false)
  {
    var r := s.retries[i];
    assert RecordOk(s.msgs, s.queue, r);
    Outcomes.ResendShape(w, s, i, now);
    var t := Resend(w, s, i, now);
    assert t.msgs[r.id].kind == r.kind;
    if r.kind.Direct? {
      assert t.queue[|s.queue|].route == RouteTo(ContactOf(s, r.kind.peer));
    }
  }

  lemma GiveUpRoute(s: State, i: nat)
    requires i < |s.retries|
    ensures GiveUp(s, i).contacts == s.contacts && GiveUp(s, i).queue == s.queue
  {
    var r := s.retries[i];
    var s1 := s.(msgs := WithFailed(s.msgs, r.id), retries := Without(s.retries, i));
    if r.kind.Direct? {
      SaveKeepsContacts(s1, r.kind.peer, 0);
      SavingKeepsDelivery(s1, r.kind.peer, 0);
    }
  }

  /** After a direct attempt to p the path of p is gone before anything is queued. */
  lemma TickAtRoute(w: Wire, s: State, i: nat, now: int, p: Data)
    requires Safe(s) && i < |s.retries| && Due(s.retries[i], now)
    ensures var t := TickAt(w, s, i, now); var due := IsDirectDue(s.retries[i], now, p);
            && ContactOf(t, p) == Forgotten(ContactOf(s, p), due)
            && RoutedBy(s, t, p, Forgotten(ContactOf(s, p), due), false)
  {
    var r := s.retries[i];
    if r.kind.Group? {
      if s.heard {
        if r.attempt + 1 >= CH_MAX_SENDS {
          GiveUpRoute(s, i);
        } else {
          ResendRoute(w, s, i, now, p);
        }
      }
    } else {
      var s1 := if r.direct then ResetPath(s, r.kind.peer) else s;
      ResetElsewhere(s, r.kind.peer, p);
      ResetFloods(s, r.kind.peer);
      SameAdvances(s, s1);
      if r.attempt + 1 >= DM_MAX_SENDS {
        GiveUpRoute(s1, i);
      } else {
        ResendRoute(w, s1, i, now, p);
      }
    }
  }

  // ---- a whole tick ----

  lemma RoutedOn(s: State, t: State, u: State, p: Data, c: Option<Contact>, first: bool, second: bool)
    requires RoutedBy(s, t, p, Forgotten(c, first), false) && RoutedBy(t, u, p, Forgotten(c, first), second)
    requires forall id :: id in t.msgs ==> id in u.msgs && u.msgs[id].kind == t.msgs[id].kind
    requires forall k :: 0 <= k < |t.queue| ==> t.queue[k].id in t.msgs
    ensures RoutedBy(s, u, p, c, first || second)
  {
    forall k | |s.queue| <= k < |u.queue| && IsTo(u.msgs, u.queue[k], p)
      ensures u.queue[k].route == RouteTo(c)
              || ((first || second) && u.queue[k].route == Route(Packet.ROUTE_TYPE_FLOOD, 0, []))
    {
      if k < |t.queue| {
        assert u.queue[k] == t.queue[k] && IsTo(t.msgs, t.queue[k], p);
      }
      if Forgotten(c, first) != c {
        assert RouteTo(Forgotten(c, first)) == Route(Packet.ROUTE_TYPE_FLOOD, 0, []);
      }
    }
  }

  lemma KindsStay(s: State, t: State)
    requires Advances(s, t)
    ensures forall id :: id in s.msgs ==> id in t.msgs && t.msgs[id].kind == s.msgs[id].kind
  {
    forall id | id in s.msgs ensures id in t.msgs && t.msgs[id].kind == s.msgs[id].kind {
      assert Kept(s, t, id);
    }
  }

  lemma DueFrom(s: State, t: State, i: nat, now: int, p: Data)
    requires i < |s.retries| && UsesUp(s, t, i)
    ensures DirectDue(s.retries, i, now, p)
       <==> IsDirectDue(s.retries[i], now, p)
            || DirectDue(t.retries, if |t.retries| < |s.retries| then i else i + 1, now, p)
  {
    Outcomes.RestSame(s, t, i);
    if |t.retries| < |s.retries| {
      forall k | i < k < |s.retries| ensures s.retries[k] == t.retries[k - 1] {
      }
    }
    if DirectDue(s.retries, i, now, p) {
      var k :| i <= k < |s.retries| && IsDirectDue(s.retries[k], now, p);
      if k > i {
        var j := if |t.retries| < |s.retries| then k - 1 else k;
        assert IsDirectDue(t.retries[j], now, p);
      }
    }
    var next := if |t.retries| < |s.retries| then i else i + 1;
    if DirectDue(t.retries, next, now, p) {
      var k :| next <= k < |t.retries| && IsDirectDue(t.retries[k], now, p);
      var j := if |t.retries| < |s.retries| then k + 1 else k;
      assert IsDirectDue(s.retries[j], now, p);
    }
  }

  lemma NotDueFrom(rs: seq<Record>, i: nat, now: int, p: Data)
    requires i < |rs| && !Due(rs[i], now)
    ensures DirectDue(rs, i, now, p) <==> DirectDue(rs, i + 1, now, p)
  {
    if DirectDue(rs, i, now, p) {
      var k :| i <= k < |rs| && IsDirectDue(rs[k], now, p);
      assert k != i;
    }
  }

  lemma {:induction false} TickFromRoute(w: Wire, s: State, i: nat, now: int, p: Data)
    requires Safe(s) && i <= |s.retries|
    ensures var t := TickFrom(w, s, i, now); var due := DirectDue(s.retries, i, now, p);
            && ContactOf(t, p) == Forgotten(ContactOf(s, p), due)
            && RoutedBy(s, t, p, ContactOf(s, p), due)
    decreases |s.retries| - i
  {
    if i == |s.retries| {
    } else if !Due(s.retries[i], now) {
      NotDueFrom(s.retries, i, now, p);
      TickFromRoute(w, s, i + 1, now, p);
    } else {
      var t := TickAt(w, s, i, now);
      var next := if |t.retries| < |s.retries| then i else i + 1;
      TickAtSafe(w, s, i, now);
      TickAtUses(w, s, i, now);
      TickAtRoute(w, s, i, now, p);
      DueFrom(s, t, i, now, p);
      TickFromRoute(w, t, next, now, p);
      TickFromSafe(w, t, next, now);
      KindsStay(t, TickFrom(w, t, next, now));
      RoutedOn(s, t, TickFrom(w, t, next, now), p, ContactOf(s, p), IsDirectDue(s.retries[i], now, p),
               DirectDue(t.retries, next, now, p));
    }
  }

  // ---- every step ----

  lemma SendDmRoute(w: Wire, s: State, q: Data, text: Data, ts: nat, now: int, p: Data)
    ensures var t := SendDm(w, s, q, text, ts, now).0;
            t.contacts == s.contacts && RoutedBy(s, t, p, ContactOf(s, p), false)
  {
    if text != [] && q in s.contacts {
      var t := SendDmTo(w, s, q, text, ts, now);
      AfterSend(w, s, q, text, ts, now);
      var (s1, r) := TxDm(w, Fresh(s, Direct(q), text, ts), NewRecord(s.next, Direct(q), text, ts), now);
      SaveKeepsContacts(s1, q, s.next);
      assert t.queue[|s.queue|].route == RouteTo(ContactOf(s, q)) && t.msgs[s.next].kind == Direct(q);
    }
  }

  lemma SendGroupRoute(w: Wire, s: State, name: Data, text: Data, ts: nat, now: int, p: Data)
    ensures var t := SendGroup(w, s, name, text, ts, now).0;
            t.contacts == s.contacts && RoutedBy(s, t, p, ContactOf(s, p), false)
  {
  }

  lemma QuietStep(w: Wire, s: State, e: Event)
    requires e.HearsAck? || e.HearsDm?
    ensures Step(w, s, e).contacts == s.contacts && Step(w, s, e).queue == s.queue
  {
    if e.HearsDm? && e.peer in s.contacts {
      var f := s.(next := s.next + 1,
                  msgs := s.msgs[s.next := Msg(Direct(e.peer), true, e.ts, e.text, 0, None, false, false, false)]);
      SaveKeepsContacts(f, e.peer, s.next);
      SavingKeepsDelivery(f, e.peer, s.next);
    } else if e.HearsAck? && e.ack in s.pending.acks {
      var entry := s.pending.acks[e.ack];
      var s1 := s.(pending := Pending.Take(s.pending, e.ack), msgs := WithDelivered(s.msgs, entry.id));
      SaveKeepsContacts(CancelRetry(s1, entry.id), entry.peer, 0);
      SavingKeepsDelivery(CancelRetry(s1, entry.id), entry.peer, 0);
    }
  }

  lemma ContactStep(w: Wire, s: State, e: Event, p: Data)
    requires !e.SendsDm? && !e.SendsGroup? && !e.Ticks? && !e.HearsAck? && !e.HearsDm?
    ensures ContactOf(Step(w, s, e), p) == After(s, e, p, ContactOf(s, p)) && Step(w, s, e).queue == s.queue
  {
  }

  /** Every step: what becomes of the path of p, and over which route it queues packets to p. */
  lemma StepRoute(w: Wire, s: State, e: Event, p: Data)
    requires Safe(s)
    ensures var t := Step(w, s, e);
            ContactOf(t, p) == After(s, e, p, ContactOf(s, p))
            && RoutedBy(s, t, p, ContactOf(s, p), DirectTimesOut(s, e, p))
  {
    match e
    case SendsDm(q, text, ts, now) => SendDmRoute(w, s, q, text, ts, now, p);
    case SendsGroup(name, text, ts, now) => SendGroupRoute(w, s, name, text, ts, now, p);
    case Ticks(now) => TickFromRoute(w, s, 0, now, p);
    case HearsAck(_) => QuietStep(w, s, e);
    case HearsDm(_, _, _) => QuietStep(w, s, e);
    case _ => ContactStep(w, s, e, p);
  }

  /** Contact p holds this path, with its length byte if the path is new, and nothing else differs. */
  ghost predicate Holds(s: State, t: State, p: Data, path: Data, raw: nat) {
    && t == s.(contacts := t.contacts) && t.contacts.Keys == s.contacts.Keys
    && (forall q :: q in s.contacts && q != p ==> t.contacts[q] == s.contacts[q])
    && (p in s.contacts ==>
          t.contacts[p] == if s.contacts[p].path == Some(path) then s.contacts[p] else Contact(Some(path), raw))
  }

  lemma LearningHolds(s: State, dec: Dm.PathReturn)
    ensures Holds(s, LearnPath(s, dec), dec.key, dec.path, dec.pathLenRaw)
  {
  }

  /** _learn_path, whoever sent the path, as a step. */
  lemma PathIsLearned(w: Wire, s: State, dec: Dm.PathReturn)
    ensures Holds(s, Step(w, s, HearsPath(dec)), dec.key, dec.path, dec.pathLenRaw)
  {
    LearningHolds(s, dec);
  }

  // ---- runs ----

  /** What becomes of a contact in a run: only the last path taught, unless it was forgotten or the contact removed. */
  ghost function ContactAfter(w: Wire, s: State, es: seq<Event>, p: Data): Option<Contact> {
    if es == [] then ContactOf(s, p)
    else
      var before := es[..|es| - 1];
      After(Run(w, s, before), es[|es| - 1], p, ContactAfter(w, s, before, p))
  }

  lemma {:induction false} ContactFollows(w: Wire, s: State, es: seq<Event>, p: Data)
    requires Inv(w, s)
    ensures ContactOf(Run(w, s, es), p) == ContactAfter(w, s, es, p)
    decreases |es|
  {
    if es == [] {
    } else {
      var before := es[..|es| - 1];
      ContactFollows(w, s, before, p);
      RunInv(w, s, before);
      StepRoute(w, Run(w, s, before), es[|es| - 1], p);
    }
  }

  /** The event ends the use of this path: a direct attempt times out, the contact goes, or another path is taught. */
  ghost predicate Disturbs(s: State, e: Event, p: Data, path: Data) {
    || DirectTimesOut(s, e, p)
    || e == RemovesContact(p)
    || (e.HearsPath? && e.dec.key == p && e.dec.path != path)
  }

  ghost predicate Undisturbed(w: Wire, s: State, es: seq<Event>, p: Data, path: Data) {
    es == [] ||
    var before := es[..|es| - 1];
    Undisturbed(w, s, before, p, path) && !Disturbs(Run(w, s, before), es[|es| - 1], p, path)
  }

  lemma {:induction false} RouteStays(w: Wire, s: State, es: seq<Event>, p: Data)
    requires Inv(w, s) && p in s.contacts && HasPath(s.contacts[p])
    requires Undisturbed(w, s, es, p, s.contacts[p].path.value)
    ensures var t := Run(w, s, es);
            ContactOf(t, p) == ContactOf(s, p) && RoutedBy(s, t, p, ContactOf(s, p), false)
    decreases |es|
  {
    if es == [] {
    } else {
      var before, e := es[..|es| - 1], es[|es| - 1];
      var t, u := Run(w, s, before), Run(w, s, es);
      RouteStays(w, s, before, p);
      RunInv(w, s, before);
      StepRoute(w, t, e, p);
      StepInv(w, t, e);
      KindsStay(t, u);
      RoutedOn(s, t, u, p, ContactOf(s, p), false, false);
    }
  }

  /** The direct route over a path; a missing length byte counts one-byte hashes. */
  function Over(path: Data, raw: nat): Route {
    Route(Packet.ROUTE_TYPE_DIRECT, if raw != 0 then raw else |path|, path)
  }

  /**
   A learned route is used. Once a contact has taught a new path, then in any run every packet queued for it, first
   attempt or resend, goes direct over exactly that path, until a direct attempt to it times out, it is removed or it
   teaches another path; and the contact still holds the path.
   */
  lemma TaughtRouteIsUsed(w: Wire, s: State, dec: Dm.PathReturn, es: seq<Event>)
    requires Inv(w, s) && dec.key in s.contacts && dec.path != [] && s.contacts[dec.key].path != Some(dec.path)
    requires Undisturbed(w, Step(w, s, HearsPath(dec)), es, dec.key, dec.path)
    ensures var t := Run(w, Step(w, s, HearsPath(dec)), es);
            && ContactOf(t, dec.key) == Some(Contact(Some(dec.path), dec.pathLenRaw))
            && forall k :: |s.queue| <= k < |t.queue| && IsTo(t.msgs, t.queue[k], dec.key) ==>
                 t.queue[k].route == Over(dec.path, dec.pathLenRaw)
  {
    var t := Step(w, s, HearsPath(dec));
    PathIsLearned(w, s, dec);
    StepInv(w, s, HearsPath(dec));
    RouteStays(w, t, es, dec.key);
  }

  /** So the next DM to it is queued at once, over that path. */
  lemma NextDmGoesDirect(w: Wire, s: State, dec: Dm.PathReturn, es: seq<Event>, text: Data, ts: nat, now: int)
    requires Inv(w, s) && dec.key in s.contacts && dec.path != [] && s.contacts[dec.key].path != Some(dec.path)
    requires Undisturbed(w, Step(w, s, HearsPath(dec)), es, dec.key, dec.path) && text != []
    ensures var t := Run(w, Step(w, s, HearsPath(dec)), es);
            var packet := Sent(t.next, 0, Over(dec.path, dec.pathLenRaw), w.dm(dec.key, text, ts, 0).0);
            Step(w, t, SendsDm(dec.key, text, ts, now)).queue == t.queue + [packet]
  {
    var t := Run(w, Step(w, s, HearsPath(dec)), es);
    TaughtRouteIsUsed(w, s, dec, es);
    AfterSend(w, t, dec.key, text, ts, now);
  }

  /** And once a direct attempt has timed out, everything to the contact is flooded until a path is taught anew. */
  lemma TimeoutFloods(w: Wire, s: State, now: int, p: Data)
    requires Safe(s) && DirectTimesOut(s, Ticks(now), p)
    ensures RouteTo(ContactOf(Step(w, s, Ticks(now)), p)) == Route(Packet.ROUTE_TYPE_FLOOD, 0, [])
  {
    StepRoute(w, s, Ticks(now), p);
  }
}
