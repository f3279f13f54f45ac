/** The manager's fields and methods. Each method does, field by field, what the state machine says. */
module Manager {
  import opened Bytes
  import opened Protocol
  import opened Routes
  import opened Retries
  import opened Acks
  import opened Runs
  import Pending
  import Packet
  import Dm

  /** What is in storage while the contacts in todo are still to be written. */
  ghost predicate FlushedBut(was: State, stored: map<Data, seq<Msg>>, todo: set<Data>) {
    && stored.Keys == was.stored.Keys + (was.dirty - todo) * was.contacts.Keys
    && forall p :: p in stored ==>
         stored[p] == if p in was.dirty && p !in todo && p in was.contacts
                      then Snapshot(was.msgs, ListOf(was.lists, p)) else was.stored[p]
  }

  lemma AllFlushed(was: State, stored: map<Data, seq<Msg>>)
    requires FlushedBut(was, stored, {})
    ensures stored == Flushed(was).stored
  {
  }

  class MeshCoreManager {
    const wire: Wire
    var next: nat
    var messages: map<nat, Msg>
    var retries: seq<Record>
    var queue: seq<Sent>
    var repeaterHeard: bool
    var pendingAcks: map<Data, Pending.Entry>
    var pendingOrder: seq<Data>
    ghost var registered: seq<Pending.Registration>
    var contacts: map<Data, Contact>
    var dmMessages: map<Data, seq<nat>>
    var dirtyHistory: set<Data>
    var stored: map<Data, seq<Msg>>
    var workerRunning: bool

    /** The fields as one state. */
    ghost function Now(): State
      reads this
    {
      State(next, messages, retries, queue, repeaterHeard, Pending.Table(pendingAcks, pendingOrder), registered,
            contacts, dmMessages, dirtyHistory, stored, workerRunning)
    }

    /** A manager that has just loaded its contacts and their histories. */
    constructor (w: Wire, n: nat, m: map<nat, Msg>, c: map<Data, Contact>, lists: map<Data, seq<nat>>,
                 st: map<Data, seq<Msg>>)
      ensures wire == w
      ensures Now() == State(n, m, [], [], false, Pending.Table(map[], []), [], c, lists, {}, st, false)
    {
      wire, next, messages, retries, queue, repeaterHeard := w, n, m, [], [], false;
      pendingAcks, pendingOrder, registered := map[], [], [];
      contacts, dmMessages, dirtyHistory, stored, workerRunning := c, lists, {}, st, false;
    }

    /** _register_pending */
    method RegisterPending(ack: Data, peer: Data, id: nat)
      modifies this`pendingAcks, this`pendingOrder, this`registered
      ensures Pending.Table(pendingAcks, pendingOrder)
           == Pending.Register(old(Now()).pending, ack, Pending.Entry(peer, id))
      ensures registered == old(registered) + [Pending.Registration(ack, Pending.Entry(peer, id))]
    {
      registered := registered + [Pending.Registration(ack, Pending.Entry(peer, id))];
      pendingAcks := pendingAcks[ack := Pending.Entry(peer, id)];
      pendingOrder := pendingOrder + [ack];
      while |pendingOrder| > Pending.MAX_PENDING
        invariant Pending.Trim(Pending.Table(pendingAcks, pendingOrder))
               == Pending.Register(old(Now()).pending, ack, Pending.Entry(peer, id))
        invariant registered == old(registered) + [Pending.Registration(ack, Pending.Entry(peer, id))]
        decreases |pendingOrder|
      {
        var oldest := pendingOrder[0];
        pendingOrder := pendingOrder[1..];
        pendingAcks := pendingAcks - {oldest};
      }
    }

    /** _flush_dirty_history */
    method FlushDirtyHistory()
      modifies this`dirtyHistory, this`stored
      ensures Now() == Flushed(old(Now()))
    {
      ghost var was := Now();
      var todo := dirtyHistory;
      dirtyHistory := {};
      while todo != {}
        invariant todo <= was.dirty && dirtyHistory == {}
        invariant FlushedBut(was, stored, todo)
        decreases |todo|
      {
        var p :| p in todo;
        todo := todo - {p};
        if p in contacts {
          stored := stored[p := Snapshot(messages, if p in dmMessages then dmMessages[p] else [])];
        }
      }
      AllFlushed(was, stored);
    }

    /** _save_history */
    method SaveHistory(peer: Data)
      modifies this`dirtyHistory, this`stored
      ensures Now() == Protocol.SaveHistory(old(Now()), peer)
    {
      if peer !in contacts {
        return;
      }
      dirtyHistory := dirtyHistory + {peer};
      if !workerRunning {
        FlushDirtyHistory();
      }
    }

    /** _add_dm */
    method AddDm(peer: Data, id: nat)
      modifies this`dmMessages, this`dirtyHistory, this`stored
      ensures Now() == Protocol.AddDm(old(Now()), peer, id)
    {
      var list := if peer in dmMessages then dmMessages[peer] else [];
      list := list + [id];
      if |list| > MAX_MESSAGES {
        list := list[1..];
      }
      dmMessages := dmMessages[peer := list];
      SaveHistory(peer);
    }

    /** _tx_dm */
    method TxDm(r: Record, now: int) returns (sent: Record)
      requires r.kind.Direct? && r.id in messages
      modifies this`messages, this`pendingAcks, this`pendingOrder, this`registered, this`queue
      ensures (Now(), sent) == Protocol.TxDm(wire, old(Now()), r, now)
    {
      var (payload, ack) := wire.dm(r.kind.peer, r.text, r.ts, r.attempt);
      var route := RouteTo(if r.kind.peer in contacts then Some(contacts[r.kind.peer]) else None);
      sent := r.(direct := route.kind == Packet.ROUTE_TYPE_DIRECT);
      sent := sent.(acks := sent.acks + [ack]);
      messages := messages[r.id := messages[r.id].(ack := Some(ack))];
      RegisterPending(ack, r.kind.peer, r.id);
      queue := queue + [Sent(r.id, r.attempt, route, payload)];
      sent := sent.(sentMs := now);
    }

    /** _tx_group */
    method TxGroup(r: Record, now: int) returns (sent: Record)
      requires r.kind.Group?
      modifies this`queue
      ensures (Now(), sent) == Protocol.TxGroup(wire, old(Now()), r, now)
    {
      var payload := wire.group(r.kind.name, r.text, r.ts + r.attempt);
      sent := r.(hash := Some(wire.hash(Packet.PAYLOAD_TYPE_GRP_TXT, payload)));
      queue := queue + [Sent(r.id, r.attempt, FLOOD_ROUTE, payload)];
      sent := sent.(sentMs := now);
    }

    method NewMessage(kind: Kind, text: Data, ts: nat) returns (id: nat)
      modifies this`next, this`messages
      ensures id == old(next) && Now() == Fresh(old(Now()), kind, text, ts)
    {
      id := next;
      next := next + 1;
      messages := messages[id := Msg(kind, false, ts, text, 0, None, false, false, false)];
    }

    /** The part of send_dm that queues the first attempt. */
    method SendNewDm(peer: Data, text: Data, ts: nat, now: int)
      modifies this
      ensures Now() == Protocol.SendDmTo(wire, old(Now()), peer, text, ts, now)
    {
      var id := NewMessage(Direct(peer), text, ts);
      var rec := TxDm(NewRecord(id, Direct(peer), text, ts), now);
      AddDm(peer, id);
      retries := retries + [rec];
    }

    /** send_dm: refused for the first reason that holds, and then nothing changes. */
    method SendDm(peer: Data, text: Data, ts: nat, now: int, identity: bool, secret: bool)
      returns (err: Option<SendError>)
      modifies this
      ensures err == Refusal(old(Now()), peer, text, identity, secret)
      ensures Now() == if err.Some? then old(Now()) else Protocol.SendDmTo(wire, old(Now()), peer, text, ts, now)
      ensures identity && secret ==> (Now(), err) == Protocol.SendDm(wire, old(Now()), peer, text, ts, now)
    {
      if text == [] {
        return Some(EmptyMessage);
      }
      if !identity {
        return Some(NoIdentity);
      }
      if peer !in contacts {
        return Some(NotAContact);
      }
      if !secret {
        return Some(NoSharedSecret);
      }
      SendNewDm(peer, text, ts, now);
      return None;
    }

    /** send_group_text */
    method SendGroupText(name: Data, text: Data, ts: nat, now: int) returns (ok: bool)
      modifies this
      ensures (Now(), ok) == Protocol.SendGroup(wire, old(Now()), name, text, ts, now)
    {
      if text == [] {
        return false;
      }
      var id := NewMessage(Group(name), text, ts);
      var rec := TxGroup(NewRecord(id, Group(name), text, ts), now);
      retries := retries + [rec];
      return true;
    }

    /** _give_up, for the record at position i */
    method GiveUp(i: nat)
      requires i < |retries| && retries[i].id in messages
      modifies this`messages, this`retries, this`dirtyHistory, this`stored
      ensures Now() == Protocol.GiveUp(old(Now()), i)
    {
      var rec := retries[i];
      messages := messages[rec.id := messages[rec.id].(failed := true)];
      retries := retries[..i] + retries[i + 1..];
      if rec.kind.Direct? {
        SaveHistory(rec.kind.peer);
      }
    }

    /** _reset_path */
    method ResetPath(peer: Data)
      modifies this`contacts
      ensures Now() == Protocol.ResetPath(old(Now()), peer)
    {
      if peer !in contacts || !HasPath(contacts[peer]) {
        return;
      }
      contacts := contacts[peer := contacts[peer].(path := None, pathRaw := 0)];
    }

    /** _learn_path */
    method LearnPath(dec: Dm.PathReturn)
      modifies this`contacts
      ensures Now() == Protocol.LearnPath(old(Now()), dec)
    {
      if dec.key !in contacts || contacts[dec.key].path == Some(dec.path) {
        return;
      }
      contacts := contacts[dec.key := contacts[dec.key].(path := Some(dec.path), pathRaw := dec.pathLenRaw)];
    }

    /** One more attempt for the record at position i. */
    method Resend(i: nat, now: int)
      requires i < |retries| && retries[i].id in messages
      modifies this
      ensures Now() == Protocol.Resend(wire, old(Now()), i, now)
    {
      var rec := retries[i];
      rec := rec.(attempt := rec.attempt + 1);
      messages := messages[rec.id := messages[rec.id].(attempt := rec.attempt)];
      if rec.kind.Direct? {
        rec := TxDm(rec, now);
      } else {
        rec := TxGroup(rec, now);
      }
      retries := retries[i := rec];
    }

    /** What _retry_tick does to one due record. */
    method RetryOne(i: nat, now: int)
      requires i < |retries| && retries[i].id in messages && Due(retries[i], now)
      modifies this
      ensures Now() == TickAt(wire, old(Now()), i, now)
    {
      var rec := retries[i];
      if rec.kind.Group? {
        if !repeaterHeard {
          retries := retries[..i] + retries[i + 1..];
        } else if rec.attempt + 1 >= CH_MAX_SENDS {
          GiveUp(i);
        } else {
          Resend(i, now);
        }
      } else {
        if rec.direct {
          ResetPath(rec.kind.peer);
        }
        if rec.attempt + 1 >= DM_MAX_SENDS {
          GiveUp(i);
        } else {
          Resend(i, now);
        }
      }
    }

    /** _retry_tick: each record of a copy of the list in turn; kept counts those that stay behind. */
    method RetryTick(now: int)
      requires Safe(Now())
      modifies this
      ensures Now() == Tick(wire, old(Now()), now)
    {
      var snapshot := retries;
      var kept := 0;
      for k := 0 to |snapshot|
        invariant kept + |snapshot| - k == |retries| && Safe(Now())
        invariant TickFrom(wire, Now(), kept, now) == Tick(wire, old(Now()), now)
      {
        if now - retries[kept].sentMs < RETRY_AFTER_MS {
          kept := kept + 1;
          continue;
        }
        ghost var was := Now();
        var before := |retries|;
        assert RecordOk(messages, queue, retries[kept]);
        TickAtSafe(wire, was, kept, now);
        RetryOne(kept, now);
        if |retries| == before {
          kept := kept + 1;
        }
      }
    }

    method DropAcks(acks: seq<Data>)
      modifies this`pendingAcks
      ensures pendingAcks == old(pendingAcks) - set a | a in acks
    {
      for k := 0 to |acks|
        invariant pendingAcks == old(pendingAcks) - set a | a in acks[..k]
      {
        assert acks[..k + 1] == acks[..k] + [acks[k]];
        pendingAcks := pendingAcks - {acks[k]};
      }
      assert acks[..|acks|] == acks;
    }

    /** _cancel_retry */
    method CancelRetry(id: nat)
      modifies this`retries, this`pendingAcks
      ensures Now() == Protocol.CancelRetry(old(Now()), id)
    {
      var i := 0;
      while i < |retries|
        invariant i <= |retries| && retries == old(retries) && pendingAcks == old(pendingAcks)
        invariant forall j :: 0 <= j < i ==> retries[j].id != id
      {
        if retries[i].id == id {
          DropAcks(retries[i].acks);
          retries := retries[..i] + retries[i + 1..];
          return;
        }
        i := i + 1;
      }
    }

    /** _mark_delivered */
    method MarkDelivered(ack: Data) returns (ok: bool)
      requires ack in pendingAcks ==> pendingAcks[ack].id in messages
      modifies this
      ensures (Now(), ok) == Protocol.MarkDelivered(old(Now()), ack)
    {
      if ack !in pendingAcks {
        return false;
      }
      var entry := pendingAcks[ack];
      pendingAcks := pendingAcks - {ack};
      pendingOrder := Pending.Removed(pendingOrder, ack);
      messages := messages[entry.id := messages[entry.id].(delivered := true)];
      CancelRetry(entry.id);
      SaveHistory(entry.peer);
      return true;
    }

    /** _note_echo */
    method NoteEcho(h: Data)
      requires Safe(Now())
      modifies this`messages, this`retries
      ensures Now() == Protocol.NoteEcho(old(Now()), h)
    {
      var i := 0;
      while i < |retries|
        invariant i <= |retries| && retries == old(retries) && messages == old(messages)
        invariant forall j :: 0 <= j < i ==> !(retries[j].kind.Group? && retries[j].hash == Some(h))
      {
        var rec := retries[i];
        if rec.kind.Group? && rec.hash == Some(h) {
          assert RecordOk(messages, queue, rec);
          messages := messages[rec.id := messages[rec.id].(confirmed := true)];
          retries := retries[..i] + retries[i + 1..];
          return;
        }
        i := i + 1;
      }
    }

    /** What _handle_dm keeps of a DM that was not shown before. */
    method Receive(peer: Data, ts: nat, text: Data)
      modifies this
      ensures Now() == Protocol.Receive(old(Now()), peer, ts, text)
    {
      if peer !in contacts {
        return;
      }
      var id := next;
      next := next + 1;
      messages := messages[id := Msg(Direct(peer), true, ts, text, 0, None, false, false, false)];
      AddDm(peer, id);
    }

    /** add_contact */
    method AddContact(peer: Data)
      modifies this`contacts, this`dmMessages
      ensures Now() == Protocol.AddContact(old(Now()), peer)
    {
      if |peer| != 32 || peer in contacts {
        return;
      }
      contacts := contacts[peer := Contact(None, 0)];
      if peer !in dmMessages {
        dmMessages := dmMessages[peer := []];
      }
    }

    /** remove_contact and _delete_history */
    method RemoveContact(peer: Data)
      modifies this`contacts, this`dmMessages, this`dirtyHistory, this`stored
      ensures Now() == Protocol.RemoveContact(old(Now()), peer)
    {
      if peer !in contacts {
        return;
      }
      contacts := contacts - {peer};
      dmMessages := dmMessages - {peer};
      dirtyHistory := dirtyHistory - {peer};
      stored := stored - {peer};
    }

    /** Whatever comes next, the manager handles it as the state machine does, and its invariant holds again. */
    method Handle(e: Event)
      requires Inv(wire, Now())
      modifies this
      ensures Now() == Step(wire, old(Now()), e) && Inv(wire, Now())
    {
      StepInv(wire, Now(), e);
      AllPendingKnown(wire, Now());
      match e
      case SendsDm(peer, text, ts, now) => var _ := SendDm(peer, text, ts, now, true, true);
      case SendsGroup(name, text, ts, now) => var _ := SendGroupText(name, text, ts, now);
      case Ticks(now) => RetryTick(now);
      case HearsAck(ack) => var _ := MarkDelivered(ack);
      case HearsEcho(h) => NoteEcho(h);
      case HearsRepeater => repeaterHeard := true;
      case HearsPath(dec) => LearnPath(dec);
      case HearsDm(peer, ts, text) => Receive(peer, ts, text);
      case AddsContact(peer) => AddContact(peer);
      case RemovesContact(peer) => RemoveContact(peer);
      case Flushes => FlushDirtyHistory();
      case StartsWorker => workerRunning := true;
      case StopsWorker => workerRunning := false; FlushDirtyHistory();
    }
  }
}
