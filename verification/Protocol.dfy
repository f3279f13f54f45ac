/** The delivery protocol as a state machine: what each manager method does to everything it touches. */
module Protocol {
  import opened Bytes
  import opened Routes
  import Pending
  import Dm
  import Packet

  const RETRY_AFTER_MS := 15000
  const DM_MAX_SENDS := 4
  const CH_MAX_SENDS := 3
  const MAX_MESSAGES := 200

  /** To a contact, or to a channel. */
  datatype Kind = Direct(peer: Data) | Group(name: Data)

  function MaxSends(kind: Kind): nat {
    if kind.Direct? then DM_MAX_SENDS else CH_MAX_SENDS
  }

  /** One message in memory. Messages are known by number, as the source knows them by object identity. */
  datatype Msg = Msg(kind: Kind, incoming: bool, ts: nat, text: Data, attempt: nat, ack: Option<Data>,
                     delivered: bool, confirmed: bool, failed: bool)

  /** An entry of _retries: a message still waiting for its ack or its echo. */
  datatype Record = Record(id: nat, kind: Kind, text: Data, ts: nat, attempt: nat, direct: bool,
                           acks: seq<Data>, hash: Option<Data>, sentMs: int)

  /** A packet that was queued for one attempt of a message. */
  datatype Sent = Sent(id: nat, attempt: nat, route: Route, payload: Data)

  /** The codecs: a DM's payload and expected ack, a channel payload, and the packet hash. */
  datatype Wire = Wire(dm: (Data, Data, nat, nat) -> (Data, Data), group: (Data, Data, nat) -> Data,
                       hash: (nat, Data) -> Data)

  /** queue and registered log everything ever queued and registered; stored is what storage holds. */
  datatype State = State(
    next: nat, msgs: map<nat, Msg>, retries: seq<Record>, queue: seq<Sent>, heard: bool,
    pending: Pending.Table, registered: seq<Pending.Registration>,
    contacts: map<Data, Contact>,
    lists: map<Data, seq<nat>>, dirty: set<Data>, stored: map<Data, seq<Msg>>, worker: bool)

  // ---- in-place changes of one message ----

  function WithAttempt(msgs: map<nat, Msg>, id: nat, n: nat): map<nat, Msg> {
    if id in msgs then msgs[id := msgs[id].(attempt := n)] else msgs
  }

  function WithAck(msgs: map<nat, Msg>, id: nat, ack: Data): map<nat, Msg> {
    if id in msgs then msgs[id := msgs[id].(ack := Some(ack))] else msgs
  }

  function WithDelivered(msgs: map<nat, Msg>, id: nat): map<nat, Msg> {
    if id in msgs then msgs[id := msgs[id].(delivered := true)] else msgs
  }

  function WithConfirmed(msgs: map<nat, Msg>, id: nat): map<nat, Msg> {
    if id in msgs then msgs[id := msgs[id].(confirmed := true)] else msgs
  }

  function WithFailed(msgs: map<nat, Msg>, id: nat): map<nat, Msg> {
    if id in msgs then msgs[id := msgs[id].(failed := true)] else msgs
  }

  lemma SetTwice(msgs: map<nat, Msg>, id: nat, m: Msg, n: Msg)
    ensures msgs[id := m][id := n] == msgs[id := n]
  {
  }

  // ---- history: _add_dm, _save_history, _flush_dirty_history, _delete_history ----

  const NO_MESSAGE := Msg(Group([]), true, 0, [], 0, None, false, false, false)

  function Get(msgs: map<nat, Msg>, id: nat): Msg {
    if id in msgs then msgs[id] else NO_MESSAGE
  }

  function ListOf(lists: map<Data, seq<nat>>, peer: Data): seq<nat> {
    if peer in lists then lists[peer] else []
  }

  function Snapshot(msgs: map<nat, Msg>, ids: seq<nat>): (r: seq<Msg>)
    ensures |r| == |ids| && forall i :: 0 <= i < |ids| ==> r[i] == Get(msgs, ids[i])
  {
    seq(|ids|, i requires 0 <= i < |ids| => Get(msgs, ids[i]))
  }

  /** Contacts that are dirty are written, and nobody is dirty any more. */
  function Flushed(s: State): State {
    s.(stored := map p | p in s.stored.Keys + s.dirty * s.contacts.Keys ::
                   if p in s.dirty && p in s.contacts then Snapshot(s.msgs, ListOf(s.lists, p)) else s.stored[p],
       dirty := {})
  }

  function SaveHistory(s: State, peer: Data): State {
    if peer !in s.contacts then s
    else
      var s1 := s.(dirty := s.dirty + {peer});
      if s.worker then s1 else Flushed(s1)
  }

  function Appended(ids: seq<nat>, id: nat): seq<nat> {
    if |ids| >= MAX_MESSAGES then (ids + [id])[1..] else ids + [id]
  }

  function AddDm(s: State, peer: Data, id: nat): State {
    SaveHistory(s.(lists := s.lists[peer := Appended(ListOf(s.lists, peer), id)]), peer)
  }

  // ---- sending ----

  function ContactOf(s: State, peer: Data): Option<Contact> {
    if peer in s.contacts then Some(s.contacts[peer]) else None
  }

  /** _tx_dm */
  function TxDm(w: Wire, s: State, r: Record, now: int): (State, Record)
    requires r.kind.Direct?
  {
    var (payload, ack) := w.dm(r.kind.peer, r.text, r.ts, r.attempt);
    var route := RouteTo(ContactOf(s, r.kind.peer));
    var entry := Pending.Entry(r.kind.peer, r.id);
    (s.(msgs := WithAck(s.msgs, r.id, ack),
        pending := Pending.Register(s.pending, ack, entry),
        registered := s.registered + [Pending.Registration(ack, entry)],
        queue := s.queue + [Sent(r.id, r.attempt, route, payload)]),
     r.(direct := route.kind == Packet.ROUTE_TYPE_DIRECT, acks := r.acks + [ack], sentMs := now))
  }

  /** _tx_group */
  function TxGroup(w: Wire, s: State, r: Record, now: int): (State, Record)
    requires r.kind.Group?
  {
    var payload := w.group(r.kind.name, r.text, r.ts + r.attempt);
    (s.(queue := s.queue + [Sent(r.id, r.attempt, FLOOD_ROUTE, payload)]),
     r.(hash := Some(w.hash(Packet.PAYLOAD_TYPE_GRP_TXT, payload)), sentMs := now))
  }

  datatype SendError = EmptyMessage | NoIdentity | NotAContact | NoSharedSecret

  /** Why send_dm sends nothing, in the order of its checks; whether there is an identity, and a secret with this
      contact, is not part of the state. */
  function Refusal(s: State, peer: Data, text: Data, identity: bool, secret: bool): Option<SendError> {
    if text == [] then Some(EmptyMessage)
    else if !identity then Some(NoIdentity)
    else if peer !in s.contacts then Some(NotAContact)
    else if !secret then Some(NoSharedSecret)
    else None
  }

  function NewRecord(id: nat, kind: Kind, text: Data, ts: nat): Record {
    Record(id, kind, text, ts, 0, false, [], None, 0)
  }

  function Fresh(s: State, kind: Kind, text: Data, ts: nat): State {
    s.(next := s.next + 1, msgs := s.msgs[s.next := Msg(kind, false, ts, text, 0, None, false, false, false)])
  }

  function SendDmTo(w: Wire, s: State, peer: Data, text: Data, ts: nat, now: int): State {
    var (s1, r) := TxDm(w, Fresh(s, Direct(peer), text, ts), NewRecord(s.next, Direct(peer), text, ts), now);
    var s2 := AddDm(s1, peer, s.next);
    s2.(retries := s2.retries + [r])
  }

  /** send_dm of a node with an identity and secrets, for text already stripped of surrounding blanks */
  function SendDm(w: Wire, s: State, peer: Data, text: Data, ts: nat, now: int): (State, Option<SendError>) {
    if text == [] then (s, Some(EmptyMessage))
    else if peer !in s.contacts then (s, Some(NotAContact))
    else (SendDmTo(w, s, peer, text, ts, now), None)
  }

  /** send_group_text, for a channel that was joined */
  function SendGroup(w: Wire, s: State, name: Data, text: Data, ts: nat, now: int): (State, bool) {
    if text == [] then (s, false)
    else
      var (s1, r) := TxGroup(w, Fresh(s, Group(name), text, ts), NewRecord(s.next, Group(name), text, ts), now);
      (s1.(retries := s1.retries + [r]), true)
  }

  // ---- _retry_tick ----

  function Without(retries: seq<Record>, i: nat): seq<Record>
    requires i < |retries|
  {
    retries[..i] + retries[i + 1..]
  }

  /** _give_up */
  function GiveUp(s: State, i: nat): (t: State)
    requires i < |s.retries|
    ensures t.retries == Without(s.retries, i)
  {
    var r := s.retries[i];
    var s1 := s.(msgs := WithFailed(s.msgs, r.id), retries := Without(s.retries, i));
    if r.kind.Direct? then SaveHistory(s1, r.kind.peer) else s1
  }

  /** _reset_path */
  function ResetPath(s: State, peer: Data): (t: State)
    ensures t.retries == s.retries
  {
    if peer in s.contacts then s.(contacts := s.contacts[peer := Reset(s.contacts[peer])]) else s
  }

  function Resend(w: Wire, s: State, i: nat, now: int): (t: State)
    requires i < |s.retries|
    ensures |t.retries| == |s.retries|
  {
    var r := s.retries[i].(attempt := s.retries[i].attempt + 1);
    var s1 := s.(msgs := WithAttempt(s.msgs, r.id, r.attempt));
    var (s2, r2) := if r.kind.Direct? then TxDm(w, s1, r, now) else TxGroup(w, s1, r, now);
    s2.(retries := s2.retries[i := r2])
  }

  predicate Due(r: Record, now: int) { now - r.sentMs >= RETRY_AFTER_MS }

  /** What one tick does to the record at position i, if it is due. */
  function TickAt(w: Wire, s: State, i: nat, now: int): (t: State)
    requires i < |s.retries| && Due(s.retries[i], now)
    ensures |t.retries| == |s.retries| || |t.retries| == |s.retries| - 1
  {
    var r := s.retries[i];
    if r.kind.Group? then
      if !s.heard then s.(retries := Without(s.retries, i))
      else if r.attempt + 1 >= CH_MAX_SENDS then GiveUp(s, i)
      else Resend(w, s, i, now)
    else
      var s1 := if r.direct then ResetPath(s, r.kind.peer) else s;
      if r.attempt + 1 >= DM_MAX_SENDS then GiveUp(s1, i) else Resend(w, s1, i, now)
  }

  /** The records from position i on, in order; a record that goes makes room for the next one. */
  function TickFrom(w: Wire, s: State, i: nat, now: int): State
    requires i <= |s.retries|
    decreases |s.retries| - i
  {
    if i == |s.retries| then s
    else if !Due(s.retries[i], now) then TickFrom(w, s, i + 1, now)
    else
      var t := TickAt(w, s, i, now);
      if |t.retries| < |s.retries| then TickFrom(w, t, i, now) else TickFrom(w, t, i + 1, now)
  }

  function Tick(w: Wire, s: State, now: int): State { TickFrom(w, s, 0, now) }

  // ---- acks and echoes ----

  /** The first record of message id, or the length. */
  function Find(retries: seq<Record>, id: nat): (i: nat)
    ensures i <= |retries| && (i < |retries| ==> retries[i].id == id)
    ensures forall j :: 0 <= j < i ==> retries[j].id != id
  {
    if retries == [] || retries[0].id == id then 0
    else
      assert forall j :: 1 <= j < |retries| ==> retries[1..][j - 1] == retries[j];
      1 + Find(retries[1..], id)
  }

  function CancelRetry(s: State, id: nat): State {
    var i := Find(s.retries, id);
    if i < |s.retries|
    then s.(retries := Without(s.retries, i), pending := Pending.Drop(s.pending, s.retries[i].acks))
    else s
  }

  /** _mark_delivered */
  function MarkDelivered(s: State, ack: Data): (State, bool) {
    if ack !in s.pending.acks then (s, false)
    else
      var e := s.pending.acks[ack];
      var s1 := s.(pending := Pending.Take(s.pending, ack), msgs := WithDelivered(s.msgs, e.id));
      (SaveHistory(CancelRetry(s1, e.id), e.peer), true)
  }

  /** The first channel record that waits for this packet hash, or the length. */
  function FindEcho(retries: seq<Record>, h: Data): (i: nat)
    ensures i <= |retries| && (i < |retries| ==> retries[i].kind.Group? && retries[i].hash == Some(h))
    ensures forall j :: 0 <= j < i ==> !(retries[j].kind.Group? && retries[j].hash == Some(h))
  {
    if retries == [] || (retries[0].kind.Group? && retries[0].hash == Some(h)) then 0
    else
      assert forall j :: 1 <= j < |retries| ==> retries[1..][j - 1] == retries[j];
      1 + FindEcho(retries[1..], h)
  }

  /** _note_echo */
  function NoteEcho(s: State, h: Data): State {
    var i := FindEcho(s.retries, h);
    if i < |s.retries|
    then s.(msgs := WithConfirmed(s.msgs, s.retries[i].id), retries := Without(s.retries, i))
    else s
  }

  // ---- receiving, contacts ----

  /** A new incoming DM of a contact is kept; copies and resends never come this far. */
  function Receive(s: State, peer: Data, ts: nat, text: Data): State {
    if peer !in s.contacts then s
    else
      var m := Msg(Direct(peer), true, ts, text, 0, None, false, false, false);
      AddDm(s.(next := s.next + 1, msgs := s.msgs[s.next := m]), peer, s.next)
  }

  /** _learn_path */
  function LearnPath(s: State, dec: Dm.PathReturn): State {
    if dec.key in s.contacts then s.(contacts := s.contacts[dec.key := Learn(s.contacts[dec.key], dec)]) else s
  }

  /** add_contact: a key that is not 32 bytes long is refused. */
  function AddContact(s: State, peer: Data): State {
    if |peer| != 32 || peer in s.contacts then s
    else s.(contacts := s.contacts[peer := Contact(None, 0)], lists := s.lists[peer := ListOf(s.lists, peer)])
  }

  function RemoveContact(s: State, peer: Data): State {
    if peer !in s.contacts then s
    else s.(contacts := s.contacts - {peer}, lists := s.lists - {peer},
            dirty := s.dirty - {peer}, stored := s.stored - {peer})
  }

  // ---- runs ----

  datatype Event =
    | SendsDm(peer: Data, text: Data, ts: nat, now: int)
    | SendsGroup(name: Data, text: Data, ts: nat, now: int)
    | Ticks(now: int)
    | HearsAck(ack: Data)
    | HearsEcho(hash: Data)
    | HearsRepeater
    | HearsPath(dec: Dm.PathReturn)
    | HearsDm(peer: Data, ts: nat, text: Data)
    | AddsContact(peer: Data)
    | RemovesContact(peer: Data)
    | Flushes
    | StartsWorker
    | StopsWorker

  function Step(w: Wire, s: State, e: Event): State {
    match e
    case SendsDm(peer, text, ts, now) => SendDm(w, s, peer, text, ts, now).0
    case SendsGroup(name, text, ts, now) => SendGroup(w, s, name, text, ts, now).0
    case Ticks(now) => Tick(w, s, now)
    case HearsAck(ack) => MarkDelivered(s, ack).0
    case HearsEcho(h) => NoteEcho(s, h)
    case HearsRepeater => s.(heard := true)
    case HearsPath(dec) => LearnPath(s, dec)
    case HearsDm(peer, ts, text) => Receive(s, peer, ts, text)
    case AddsContact(peer) => AddContact(s, peer)
    case RemovesContact(peer) => RemoveContact(s, peer)
    case Flushes => Flushed(s)
    case StartsWorker => s.(worker := true)
    case StopsWorker => Flushed(s.(worker := false))
  }

  function Run(w: Wire, s: State, es: seq<Event>): State {
    if es == [] then s else Step(w, Run(w, s, es[..|es| - 1]), es[|es| - 1])
  }
}
