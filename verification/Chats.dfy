/** Chat histories over a run: what each contact's list is, told from the events alone. */
module Chats {
  import opened Bytes
  import opened Protocol
  import opened Retries
  import opened Acks
  import opened History
  import opened Runs
  import Pending

  /** A line of a chat: who wrote it, when, and what. */
  datatype Line = Line(incoming: bool, ts: nat, text: Data)

  function LineOf(m: Msg): Line { Line(m.incoming, m.ts, m.text) }

  function LinesOf(msgs: map<nat, Msg>, ids: seq<nat>): (r: seq<Line>)
    ensures |r| == |ids| && forall i :: 0 <= i < |ids| ==> r[i] == LineOf(Get(msgs, ids[i]))
  {
    seq(|ids|, i requires 0 <= i < |ids| => LineOf(Get(msgs, ids[i])))
  }

  function SavedLines(saved: seq<Msg>): (r: seq<Line>)
    ensures |r| == |saved| && forall i :: 0 <= i < |saved| ==> r[i] == LineOf(saved[i])
  {
    seq(|saved|, i requires 0 <= i < |saved| => LineOf(saved[i]))
  }

  function LastOf<T>(s: seq<T>, n: nat): seq<T> { if |s| <= n then s else s[|s| - n..] }

  // ---- what a run should leave, from its events ----

  /** Whether p is a contact after these events. */
  function IsContact(s0: State, es: seq<Event>, p: Data): bool {
    if es == [] then p in s0.contacts
    else
      var before := IsContact(s0, es[..|es| - 1], p);
      match es[|es| - 1]
      case AddsContact(q) => before || (q == p && |p| == 32)
      case RemovesContact(q) => before && q != p
      case _ => before
  }

  /** What an event adds to the chat with p: nothing, unless p is a contact; removing p forgets everything. */
  function ChatAfter(e: Event, p: Data, isContact: bool, chat: seq<Line>): seq<Line> {
    match e
    case SendsDm(q, text, ts, _) => if q == p && isContact && text != [] then chat + [Line(false, ts, text)] else chat
    case HearsDm(q, ts, text) => if q == p && isContact then chat + [Line(true, ts, text)] else chat
    case RemovesContact(q) => if q == p then [] else chat
    case _ => chat
  }

  /** All that was written to and by p: the history as loaded, then every message sent to and received from p. */
  function Chat(s0: State, es: seq<Event>, p: Data): seq<Line> {
    if es == [] then LinesOf(s0.msgs, ListOf(s0.lists, p))
    else
      var before := es[..|es| - 1];
      ChatAfter(es[|es| - 1], p, IsContact(s0, before, p), Chat(s0, before, p))
  }

  /** Whether the worker runs after these events. */
  function Working(s0: State, es: seq<Event>): bool {
    if es == [] then s0.worker
    else es[|es| - 1].StartsWorker? || (Working(s0, es[..|es| - 1]) && !es[|es| - 1].StopsWorker?)
  }

  // ---- what a step does to the lists ----

  lemma SavingKeepsLists(s: State, peer: Data, id: nat)
    ensures SaveHistory(s, peer).lists == s.lists && SaveHistory(s, peer).contacts == s.contacts
    ensures AddDm(s, peer, id).lists == s.lists[peer := Appended(ListOf(s.lists, peer), id)]
    ensures AddDm(s, peer, id).contacts == s.contacts
    ensures Deferred(s, SaveHistory(s, peer)) && Deferred(s, AddDm(s, peer, id))
  {
  }

  /** The lists are as they were, and so is who is a contact; while a worker runs, storage is left to it. */
  ghost predicate SameLists(s: State, t: State) {
    t.lists == s.lists && t.contacts.Keys == s.contacts.Keys && Deferred(s, t)
  }

  ghost predicate Deferred(s: State, t: State) { t.worker == s.worker && (s.worker ==> t.stored == s.stored) }

  lemma TickAtLists(w: Wire, s: State, i: nat, now: int)
    requires i < |s.retries| && Due(s.retries[i], now)
    ensures SameLists(s, TickAt(w, s, i, now))
  {
    var r := s.retries[i];
    if r.kind.Group? {
      if s.heard && r.attempt + 1 >= CH_MAX_SENDS {
        GiveUpLists(s, i);
      }
    } else {
      var s1 := if r.direct then ResetPath(s, r.kind.peer) else s;
      if r.attempt + 1 >= DM_MAX_SENDS {
        GiveUpLists(s1, i);
      } else {
        ResendLists(w, s1, i, now);
      }
    }
  }

  lemma ResendLists(w: Wire, s: State, i: nat, now: int)
    requires i < |s.retries|
    ensures SameLists(s, Resend(w, s, i, now))
  {
    var r := s.retries[i].(attempt := s.retries[i].attempt + 1);
    var s1 := s.(msgs := WithAttempt(s.msgs, r.id, r.attempt));
    TxLists(w, s1, r, now);
    var (s2, q) := if r.kind.Direct? then TxDm(w, s1, r, now) else TxGroup(w, s1, r, now);
    assert Resend(w, s, i, now) == s2.(retries := s2.retries[i := q]);
  }

  lemma TxLists(w: Wire, s: State, r: Record, now: int)
    ensures r.kind.Direct? ==> SameLists(s, TxDm(w, s, r, now).0)
    ensures r.kind.Group? ==> SameLists(s, TxGroup(w, s, r, now).0)
  {
  }

  lemma GiveUpLists(s: State, i: nat)
    requires i < |s.retries|
    ensures SameLists(s, GiveUp(s, i))
  {
    var r := s.retries[i];
    var s1 := s.(msgs := WithFailed(s.msgs, r.id), retries := Without(s.retries, i));
    if r.kind.Direct? {
      SavingKeepsLists(s1, r.kind.peer, 0);
    }
  }

  lemma {:induction false} TickFromLists(w: Wire, s: State, i: nat, now: int)
    requires i <= |s.retries|
    ensures SameLists(s, TickFrom(w, s, i, now))
    decreases |s.retries| - i
  {
    if i == |s.retries| {
    } else if !Due(s.retries[i], now) {
      TickFromLists(w, s, i + 1, now);
    } else {
      var t := TickAt(w, s, i, now);
      TickAtLists(w, s, i, now);
      TickFromLists(w, t, if |t.retries| < |s.retries| then i else i + 1, now);
    }
  }

  lemma AckLists(s: State, ack: Data)
    ensures SameLists(s, MarkDelivered(s, ack).0)
  {
    if ack in s.pending.acks {
      var e := s.pending.acks[ack];
      var s1 := s.(pending := Pending.Take(s.pending, ack), msgs := WithDelivered(s.msgs, e.id));
      SavingKeepsLists(CancelRetry(s1, e.id), e.peer, 0);
    }
  }

  /** One message more, at the end of p's list; of 200 or more the first goes. */
  ghost predicate OneMore(s: State, t: State, p: Data, line: Line) {
    && t.contacts == s.contacts && t.lists == s.lists[p := LastOf(ListOf(s.lists, p) + [s.next], 200)]
    && s.next in t.msgs && LineOf(t.msgs[s.next]) == line
  }

  lemma AppendedIsLast(ids: seq<nat>, id: nat)
    requires |ids| <= 200
    ensures Appended(ids, id) == LastOf(ids + [id], 200)
  {
  }

  lemma SendLists(w: Wire, s: State, p: Data, text: Data, ts: nat, now: int)
    requires text != [] && p in s.contacts && |ListOf(s.lists, p)| <= 200
    ensures OneMore(s, SendDm(w, s, p, text, ts, now).0, p, Line(false, ts, text))
  {
    AfterSend(w, s, p, text, ts, now);
    var (s1, r) := TxDm(w, Fresh(s, Direct(p), text, ts), NewRecord(s.next, Direct(p), text, ts), now);
    SavingKeepsLists(s1, p, s.next);
    AppendedIsLast(ListOf(s.lists, p), s.next);
  }

  lemma ReceiveLists(s: State, p: Data, ts: nat, text: Data)
    requires p in s.contacts && |ListOf(s.lists, p)| <= 200
    ensures OneMore(s, Receive(s, p, ts, text), p, Line(true, ts, text))
  {
    var f := s.(next := s.next + 1,
                msgs := s.msgs[s.next := Msg(Direct(p), true, ts, text, 0, None, false, false, false)]);
    SavingKeepsLists(f, p, s.next);
    SavingKeepsDelivery(f, p, s.next);
    AppendedIsLast(ListOf(s.lists, p), s.next);
  }

  // ---- lists as lines ----

  /** Lines do not change as their messages move on. */
  lemma LinesStay(s: State, t: State, ids: seq<nat>)
    requires Advances(s, t) && forall id :: id in ids ==> id in s.msgs
    ensures LinesOf(t.msgs, ids) == LinesOf(s.msgs, ids)
  {
    forall i | 0 <= i < |ids| ensures LinesOf(t.msgs, ids)[i] == LinesOf(s.msgs, ids)[i] {
      assert ids[i] in ids && Kept(s, t, ids[i]);
    }
  }

  lemma LastLines(msgs: map<nat, Msg>, ids: seq<nat>, n: nat)
    ensures LinesOf(msgs, LastOf(ids, n)) == LastOf(LinesOf(msgs, ids), n)
  {
  }

  /** Keeping the last n of the last n and one more. */
  lemma LastOfLast<T>(s: seq<T>, x: T, n: nat)
    requires n > 0
    ensures LastOf(LastOf(s, n) + [x], n) == LastOf(s + [x], n)
  {
  }

  lemma OneMoreLine(s: State, t: State, p: Data, chat: seq<Line>, line: Line)
    requires OneMore(s, t, p, line) && Advances(s, t) && LinesOf(s.msgs, ListOf(s.lists, p)) == LastOf(chat, 200)
    requires forall id :: id in ListOf(s.lists, p) ==> id in s.msgs
    ensures LinesOf(t.msgs, ListOf(t.lists, p)) == LastOf(chat + [line], 200)
  {
    var ids := ListOf(s.lists, p);
    LinesStay(s, t, ids);
    assert LinesOf(t.msgs, ids + [s.next]) == LinesOf(t.msgs, ids) + [line];
    LastLines(t.msgs, ids + [s.next], 200);
    LastOfLast(chat, line, 200);
  }

  /** The list of p reads as this chat, cut to 200 lines. */
  ghost predicate Reads(s: State, p: Data, chat: seq<Line>) {
    LinesOf(s.msgs, ListOf(s.lists, p)) == LastOf(chat, 200)
  }

  lemma SameListReads(s: State, t: State, p: Data, chat: seq<Line>)
    requires Reads(s, p, chat) && Advances(s, t) && ListOf(t.lists, p) == ListOf(s.lists, p)
    requires forall id :: id in ListOf(s.lists, p) ==> id in s.msgs
    ensures Reads(t, p, chat)
  {
    LinesStay(s, t, ListOf(s.lists, p));
  }

  lemma SendReads(w: Wire, s: State, e: Event, p: Data, chat: seq<Line>)
    requires e.SendsDm? && PeerListed(s, p) && Reads(s, p, chat) && Advances(s, Step(w, s, e))
    ensures Reads(Step(w, s, e), p, ChatAfter(e, p, p in s.contacts, chat))
    ensures Step(w, s, e).contacts == s.contacts
  {
    var t := SendDm(w, s, e.peer, e.text, e.ts, e.now).0;
    if e.text != [] && e.peer in s.contacts {
      SendKeepsOthers(w, s, e.peer, e.text, e.ts, e.now, p);
      if e.peer == p {
        SendLists(w, s, p, e.text, e.ts, e.now);
        OneMoreLine(s, t, p, chat, Line(false, e.ts, e.text));
      } else {
        SameListReads(s, t, p, chat);
      }
    }
  }

  lemma SendKeepsOthers(w: Wire, s: State, q: Data, text: Data, ts: nat, now: int, p: Data)
    requires text != [] && q in s.contacts
    ensures var t := SendDm(w, s, q, text, ts, now).0;
            && t.contacts == s.contacts && (p != q ==> ListOf(t.lists, p) == ListOf(s.lists, p))
            && Deferred(s, t)
  {
    var (s1, r) := TxDm(w, Fresh(s, Direct(q), text, ts), NewRecord(s.next, Direct(q), text, ts), now);
    SavingKeepsLists(s1, q, s.next);
  }

  lemma ReceiveReads(s: State, q: Data, ts: nat, text: Data, p: Data, chat: seq<Line>)
    requires PeerListed(s, p) && Reads(s, p, chat) && Advances(s, Receive(s, q, ts, text))
    ensures Reads(Receive(s, q, ts, text), p, ChatAfter(HearsDm(q, ts, text), p, p in s.contacts, chat))
    ensures Receive(s, q, ts, text).contacts == s.contacts
  {
    var t := Receive(s, q, ts, text);
    if q in s.contacts {
      var f := s.(next := s.next + 1,
                  msgs := s.msgs[s.next := Msg(Direct(q), true, ts, text, 0, None, false, false, false)]);
      SavingKeepsLists(f, q, s.next);
      if q == p {
        ReceiveLists(s, p, ts, text);
        OneMoreLine(s, t, p, chat, Line(true, ts, text));
      } else {
        SameListReads(s, t, p, chat);
      }
    }
  }

  lemma ContactReads(s: State, q: Data, p: Data, chat: seq<Line>)
    requires PeerListed(s, p) && Reads(s, p, chat)
    ensures Reads(AddContact(s, q), p, chat)
    ensures Reads(RemoveContact(s, q), p, if q == p then [] else chat)
  {
  }

  lemma OtherReads(w: Wire, s: State, e: Event, p: Data, chat: seq<Line>)
    requires !e.SendsDm? && !e.HearsDm? && !e.AddsContact? && !e.RemovesContact?
    requires PeerListed(s, p) && Reads(s, p, chat) && Advances(s, Step(w, s, e))
    ensures Reads(Step(w, s, e), p, chat)
  {
    OtherLists(w, s, e);
    SameListReads(s, Step(w, s, e), p, chat);
  }

  lemma OtherLists(w: Wire, s: State, e: Event)
    requires !e.SendsDm? && !e.HearsDm? && !e.AddsContact? && !e.RemovesContact?
    ensures Step(w, s, e).lists == s.lists && Step(w, s, e).contacts.Keys == s.contacts.Keys
    ensures !e.Flushes? && !e.StartsWorker? && !e.StopsWorker? ==> Deferred(s, Step(w, s, e))
  {
    match e
    case Ticks(now) => TickFromLists(w, s, 0, now);
    case HearsAck(ack) => AckLists(s, ack);
    case SendsGroup(name, text, ts, now) => GroupLists(w, s, name, text, ts, now);
    case HearsEcho(h) => EchoLists(s, h);
    case _ =>
  }

  lemma GroupLists(w: Wire, s: State, name: Data, text: Data, ts: nat, now: int)
    ensures SameLists(s, SendGroup(w, s, name, text, ts, now).0)
  {
  }

  lemma EchoLists(s: State, h: Data)
    ensures SameLists(s, NoteEcho(s, h))
  {
  }

  /** Every step, for every peer. */
  lemma StepReads(w: Wire, s: State, e: Event, p: Data, chat: seq<Line>)
    requires Inv(w, s) && Reads(s, p, chat)
    ensures Reads(Step(w, s, e), p, ChatAfter(e, p, p in s.contacts, chat))
  {
    StepInv(w, s, e);
    assert PeerOk(s, p);
    match e
    case SendsDm(_, _, _, _) => SendReads(w, s, e, p, chat);
    case HearsDm(q, ts, text) => ReceiveReads(s, q, ts, text, p, chat);
    case AddsContact(q) => ContactReads(s, q, p, chat);
    case RemovesContact(q) => ContactReads(s, q, p, chat);
    case _ => OtherReads(w, s, e, p, chat);
  }

  // ---- runs ----

  lemma StepContacts(w: Wire, s: State, e: Event, p: Data)
    ensures p in Step(w, s, e).contacts <==>
              match e
              case AddsContact(q) => p in s.contacts || (q == p && |p| == 32)
              case RemovesContact(q) => p in s.contacts && q != p
              case _ => p in s.contacts
  {
    match e
    case SendsDm(q, text, ts, now) =>
      if text != [] && q in s.contacts {
        SendKeepsOthers(w, s, q, text, ts, now, p);
      }
    case HearsDm(q, ts, text) =>
      if q in s.contacts {
        var f := s.(next := s.next + 1,
                    msgs := s.msgs[s.next := Msg(Direct(q), true, ts, text, 0, None, false, false, false)]);
        SavingKeepsLists(f, q, s.next);
      }
    case AddsContact(q) =>
    case RemovesContact(q) =>
    case _ => OtherLists(w, s, e);
  }

  /** Who is a contact after any run: a 32-byte key comes when it is added and goes when it is removed, and nothing else
      changes that. */
  lemma {:induction false} ContactsFollow(w: Wire, s0: State, es: seq<Event>, p: Data)
    ensures p in Run(w, s0, es).contacts <==> IsContact(s0, es, p)
    decreases |es|
  {
    if es == [] {
    } else {
      ContactsFollow(w, s0, es[..|es| - 1], p);
      StepContacts(w, Run(w, s0, es[..|es| - 1]), es[|es| - 1], p);
    }
  }

  /** The chat with every contact, after any run: the last 200 lines of all that was loaded, sent and received, in
      order, with who wrote each, when, and what. */
  lemma {:induction false} ChatFollows(w: Wire, s0: State, es: seq<Event>, p: Data)
    requires Initial(s0)
    ensures var s := Run(w, s0, es);
            LinesOf(s.msgs, ListOf(s.lists, p)) == LastOf(Chat(s0, es, p), 200)
    decreases |es|
  {
    if es == [] {
      assert PeerOk(s0, p);
    } else {
      var before := es[..|es| - 1];
      var s := Run(w, s0, before);
      ChatFollows(w, s0, before, p);
      InitialInv(w, s0);
      RunInv(w, s0, before);
      ContactsFollow(w, s0, before, p);
      StepReads(w, s, es[|es| - 1], p, Chat(s0, before, p));
    }
  }

  /** A running worker is left to write; until it does, or is stopped, storage only loses removed contacts. */
  lemma WorkerWrites(w: Wire, s: State, e: Event)
    requires s.worker && !e.Flushes? && !e.StopsWorker?
    ensures Step(w, s, e).stored == s.stored - (if e.RemovesContact? && e.peer in s.contacts then {e.peer} else {})
  {
    match e
    case SendsDm(q, text, ts, now) =>
      if text != [] && q in s.contacts {
        SendKeepsOthers(w, s, q, text, ts, now, q);
      }
    case HearsDm(q, ts, text) => ReceiveDefers(s, q, ts, text);
    case AddsContact(q) =>
    case RemovesContact(q) =>
    case StartsWorker =>
    case _ => OtherLists(w, s, e);
  }

  lemma ReceiveDefers(s: State, q: Data, ts: nat, text: Data)
    ensures Deferred(s, Receive(s, q, ts, text))
  {
    if q in s.contacts {
      var f := s.(next := s.next + 1,
                  msgs := s.msgs[s.next := Msg(Direct(q), true, ts, text, 0, None, false, false, false)]);
      SavingKeepsLists(f, q, s.next);
    }
  }

  lemma StepWorker(w: Wire, s: State, e: Event)
    ensures Step(w, s, e).worker <==> e.StartsWorker? || (s.worker && !e.StopsWorker?)
  {
    match e
    case SendsDm(q, text, ts, now) =>
      if text != [] && q in s.contacts {
        SendKeepsOthers(w, s, q, text, ts, now, q);
      }
    case HearsDm(q, ts, text) => ReceiveDefers(s, q, ts, text);
    case AddsContact(q) =>
    case RemovesContact(q) =>
    case _ => OtherLists(w, s, e);
  }

  lemma {:induction false} WorkerFollows(w: Wire, s0: State, es: seq<Event>)
    ensures Run(w, s0, es).worker <==> Working(s0, es)
    decreases |es|
  {
    if es == [] {
    } else {
      WorkerFollows(w, s0, es[..|es| - 1]);
      StepWorker(w, Run(w, s0, es[..|es| - 1]), es[|es| - 1]);
    }
  }

  lemma SavedReads(saved: seq<Msg>, s: State, p: Data)
    requires Same(saved, s.msgs, ListOf(s.lists, p))
    ensures SavedLines(saved) == LinesOf(s.msgs, ListOf(s.lists, p))
  {
  }

  /** And so is what a flush leaves in storage for a contact, and what is there at any time while no worker runs. */
  lemma StoredChat(w: Wire, s0: State, es: seq<Event>, p: Data)
    requires Initial(s0) && IsContact(s0, es, p)
    ensures SavedLines(StoredOf(Step(w, Run(w, s0, es), Flushes).stored, p)) == LastOf(Chat(s0, es, p), 200)
    ensures !Working(s0, es) ==> SavedLines(StoredOf(Run(w, s0, es).stored, p)) == LastOf(Chat(s0, es, p), 200)
  {
    var s := Run(w, s0, es);
    WorkerFollows(w, s0, es);
    ContactsFollow(w, s0, es, p);
    ChatFollows(w, s0, es, p);
    StorageIsCurrent(w, s0, es, p);
    SavedReads(StoredOf(Flushed(s).stored, p), s, p);
    if !Working(s0, es) {
      SavedReads(StoredOf(s.stored, p), s, p);
    }
  }
}
