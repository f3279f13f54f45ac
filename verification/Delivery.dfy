/** The sending state machine with the real codecs, and what a recipient makes of what it queues. */
module Delivery {
  import opened Bytes
  import opened Envelope
  import opened Protocol
  import opened Retries
  import opened Acks
  import opened Runs
  import E = EndToEnd
  import Dm
  import Channel
  import Packet
  import Pending
  import LearnedPaths

  /** Who we are: our key and name, the secrets shared with contacts, and the channels joined. */
  datatype Node = Node(key: Key, nickname: Data, secretOf: Data -> Key, channelOf: Data -> Channel.Channel)

  function HashByte(peer: Data): nat { if peer == [] then 0 else peer[0] }

  function SentDmOf(n: Node, peer: Data, text: Data, ts: nat): E.SentDm {
    E.SentDm(n.secretOf(peer), n.key, HashByte(peer), text, ts)
  }

  function SentGroupOf(n: Node, name: Data, text: Data, ts: nat): E.SentGroup {
    E.SentGroup(n.channelOf(name), n.nickname, text, ts)
  }

  /** encode_dm, encode_group_text and packet_hash as the manager calls them. */
  function Codecs(c: Crypto, n: Node): Wire {
    Wire((peer, text, ts, attempt) => Dm.Encode(c, n.secretOf(peer), n.key, HashByte(peer), text, ts, attempt, 0),
         (name, text, ts) => Channel.Encode(c, n.channelOf(name), n.nickname, text, ts),
         (payloadType, payload) => c.sha256([payloadType % 256] + payload)[..8])
  }

  /** The payload of an attempt, as the end-to-end results speak of it. */
  function Expected(c: Crypto, n: Node, m: Msg, attempt: nat): Data {
    if m.kind.Direct? then E.DmPayload(c, SentDmOf(n, m.kind.peer, m.text, m.ts), attempt)
    else E.GroupPayload(c, SentGroupOf(n, m.kind.name, m.text, m.ts), attempt)
  }

  lemma CodecsEncode(c: Crypto, n: Node, w: Wire, m: Msg, attempt: nat)
    requires w == Codecs(c, n)
    ensures PayloadOf(w, m, attempt) == Expected(c, n, m, attempt)
  {
  }

  /** Every packet a run queues for a DM is one of the message's four attempts, for a channel message one of its
      three. */
  lemma QueuedIsAttempt(c: Crypto, n: Node, w: Wire, s0: State, es: seq<Event>, id: nat, j: nat)
    requires w == Codecs(c, n) && Initial(s0) && j < |SendsOf(Run(w, s0, es).queue, id)|
    ensures var s := Run(w, s0, es);
            && id in s.msgs && j < MaxSends(s.msgs[id].kind)
            && SendsOf(s.queue, id)[j].payload == Expected(c, n, s.msgs[id], j)
  {
    InitialInv(w, s0);
    RunInv(w, s0, es);
    var s := Run(w, s0, es);
    SendCarriesAttempt(w, s, id, j);
    CodecsEncode(c, n, w, s.msgs[id], j);
  }

  /** No two packets queued for one message carry the same payload, so repeaters and recipients take each for a new
      one. */
  lemma QueuedPayloadsDiffer(c: Crypto, n: Node, w: Wire, s0: State, es: seq<Event>, id: nat, i: nat, j: nat)
    requires Sound(c) && w == Codecs(c, n) && Initial(s0) && i < j < |SendsOf(Run(w, s0, es).queue, id)|
    ensures SendsOf(Run(w, s0, es).queue, id)[i].payload != SendsOf(Run(w, s0, es).queue, id)[j].payload
  {
    QueuedIsAttempt(c, n, w, s0, es, id, i);
    QueuedIsAttempt(c, n, w, s0, es, id, j);
    AttemptsDiffer(c, n, Run(w, s0, es).msgs[id], i, j);
  }

  lemma AttemptsDiffer(c: Crypto, n: Node, m: Msg, i: nat, j: nat)
    requires Sound(c) && i < j < MaxSends(m.kind)
    ensures Expected(c, n, m, i) != Expected(c, n, m, j)
  {
    if m.kind.Direct? {
      E.DmPayloadsDiffer(c, SentDmOf(n, m.kind.peer, m.text, m.ts), i, j);
    } else {
      E.GroupPayloadsDiffer(c, SentGroupOf(n, m.kind.name, m.text, m.ts), i, j);
    }
  }

  /** What a recipient that knows us as candidates[k] answers to a payload: the ack hash it decoded. */
  lemma AckForAttempt(c: Crypto, m: E.SentDm, attempt: nat, candidates: seq<Candidate>, k: nat)
    requires Sound(c) && attempt < 4 && 0 !in m.text
    requires Dm.Identified(c, E.DmPayload(c, m, attempt), candidates, k, m.sender, m.secret)
    ensures var got := Dm.Decode(c, E.DmPayload(c, m, attempt), m.dstHash, candidates);
            && got.Some? && got.value.text == m.text && got.value.key == m.sender
            && got.value.ackHash == Dm.Encode(c, m.secret, m.sender, m.dstHash, m.text, m.ts, attempt, 0).1
  {
    Dm.DmRoundTrip(c, m.secret, m.sender, m.dstHash, m.text, m.ts, attempt, 0, candidates, k);
  }

  lemma CodecsAck(c: Crypto, n: Node, w: Wire, peer: Data, text: Data, ts: nat, attempt: nat)
    requires w == Codecs(c, n)
    ensures w.dm(peer, text, ts, attempt).1
         == Dm.Encode(c, n.secretOf(peer), n.key, HashByte(peer), text, ts, attempt, 0).1
  {
  }

  /** The ack that attempt j of a message waits for. */
  function AckOf(w: Wire, m: Msg, j: nat): Data
    requires m.kind.Direct?
  {
    w.dm(m.kind.peer, m.text, m.ts, j).1
  }

  /** Attempt j of this DM of ours was queued, and no ack has settled it yet. */
  ghost predicate Attempted(s: State, id: nat, j: nat) {
    && id in s.msgs && s.msgs[id].kind.Direct? && !s.msgs[id].delivered && 0 !in s.msgs[id].text
    && j < |SendsOf(s.queue, id)|
  }

  /** It was registered among the last 32, for an ack that no other attempt registered. */
  ghost predicate LateAndAlone(w: Wire, s: State, id: nat, j: nat, at: nat)
    requires Attempted(s, id, j)
  {
    var m := s.msgs[id];
    && at < |s.registered| && |s.registered| - 32 <= at && Pending.Alone(s.registered, at)
    && s.registered[at] == Pending.Registration(AckOf(w, m, j), Pending.Entry(m.kind.peer, id))
  }

  /** The recipient, who knows us as candidates[k], reads attempt j of our message. */
  ghost predicate Reaches(c: Crypto, n: Node, m: Msg, j: nat, candidates: seq<Candidate>, k: nat)
    requires m.kind.Direct?
  {
    var sent := SentDmOf(n, m.kind.peer, m.text, m.ts);
    Dm.Identified(c, E.DmPayload(c, sent, j), candidates, k, n.key, sent.secret)
  }

  /** What the recipient decodes: our text, and the ack hash that the attempt waits for. */
  lemma AttemptIsRead(c: Crypto, n: Node, w: Wire, s: State, id: nat, j: nat, candidates: seq<Candidate>, k: nat)
    requires Sound(c) && w == Codecs(c, n) && Inv(w, s) && Attempted(s, id, j)
    requires Reaches(c, n, s.msgs[id], j, candidates, k)
    ensures var m := s.msgs[id];
            var got := Dm.Decode(c, SendsOf(s.queue, id)[j].payload, HashByte(m.kind.peer), candidates);
            && got.Some? && got.value.text == m.text && got.value.key == n.key
            && got.value.ackHash == AckOf(w, m, j) && |got.value.ackHash| == 4
  {
    var m := s.msgs[id];
    SendCarriesAttempt(w, s, id, j);
    CodecsEncode(c, n, w, m, j);
    AckForAttempt(c, SentDmOf(n, m.kind.peer, m.text, m.ts), j, candidates, k);
    CodecsAck(c, n, w, m.kind.peer, m.text, m.ts, j);
  }

  /** Exactly when the ack of attempt j settles its message; a log in which it is late and alone is enough. */
  ghost predicate SettlesExactly(w: Wire, s: State, t: State, id: nat, j: nat, ack: Data)
    requires Attempted(s, id, j)
  {
    && (Settles(t, id, ack) <==> Owns(s, id, s.msgs[id].kind.peer, ack))
    && ((exists at :: LateAndAlone(w, s, id, j, at)) ==> Settles(t, id, ack))
  }

  lemma AckOfAttemptSettles(w: Wire, s: State, id: nat, j: nat)
    requires Inv(w, s) && Attempted(s, id, j)
    ensures SettlesExactly(w, s, s, id, j, AckOf(w, s.msgs[id], j))
  {
    AckSettlesExactly(w, s, id, s.msgs[id].kind.peer, AckOf(w, s.msgs[id], j));
    if exists at :: LateAndAlone(w, s, id, j, at) {
      var at :| LateAndAlone(w, s, id, j, at);
      LateAckSettles(w, s, at);
    }
  }

  /**
   There and back, with a bare ACK. After any run of the sender, let the packet of any attempt j of a DM reach the
   recipient. The recipient reads our text, and the ack it returns settles exactly this message if and only if it is
   still pending and no attempt of another message registered the same ack later. However many attempts were made since,
   that is so while fewer than 32 others were registered, if no other attempt at all registered the same ack.
   */
  lemma AckComesHome(c: Crypto, n: Node, w: Wire, s: State, id: nat, j: nat,
                     candidates: seq<Candidate>, k: nat, random: Byte)
    requires Sound(c) && w == Codecs(c, n) && Inv(w, s) && Attempted(s, id, j)
    requires Reaches(c, n, s.msgs[id], j, candidates, k)
    ensures var m := s.msgs[id];
            var got := Dm.Decode(c, SendsOf(s.queue, id)[j].payload, HashByte(m.kind.peer), candidates);
            && got.Some? && got.value.text == m.text && got.value.key == n.key
            && var ack := Dm.DecodeAck(Dm.Ack6(got.value.ackHash, random));
               ack.Some? && SettlesExactly(w, s, s, id, j, ack.value)
  {
    AttemptIsRead(c, n, w, s, id, j, candidates, k);
    Dm.BareAckRoundTrip(AckOf(w, s.msgs[id], j), random);
    AckOfAttemptSettles(w, s, id, j);
  }

  /** The PATH return with which a recipient answers a message that came by flood over this path. */
  function PathAnswer(c: Crypto, n: Node, peer: Key, path: Data, raw: Byte, ackHash: Data, random: Byte): Data {
    Dm.BuildPathAck(c, n.secretOf(peer), n.key[0], peer, path, raw, Dm.Ack6(ackHash, random))
  }

  /** Learning a path changes nothing about which acks settle what. */
  lemma LearningSettlesSame(s: State, dec: Dm.PathReturn, id: nat, ack: Data)
    ensures Settles(LearnPath(s, dec), id, ack) <==> Settles(s, id, ack)
  {
    var t := LearnPath(s, dec);
    if ack in s.pending.acks {
      AfterDelivery(s, ack);
      AfterDelivery(t, ack);
    }
  }

  /**
   There and back, with a PATH return, the answer to a message that came by flood. Its sender opens the return with
   the secret of the recipient as mine[l]; then the contact holds the path that the packet took, and the ack inside
   settles exactly this message under the same condition.
   */
  lemma PathAckComesHome(c: Crypto, n: Node, w: Wire, s: State, id: nat, j: nat,
                         candidates: seq<Candidate>, k: nat, random: Byte,
                         peer: Key, path: Data, raw: Byte, mine: seq<Candidate>, l: nat)
    requires Sound(c) && w == Codecs(c, n) && Inv(w, s) && Attempted(s, id, j)
    requires Reaches(c, n, s.msgs[id], j, candidates, k)
    requires s.msgs[id].kind.peer == peer && |path| == Packet.PathByteLen(raw)
    requires var answer := PathAnswer(c, n, peer, path, raw, AckOf(w, s.msgs[id], j), random);
             Dm.Identified(c, answer, mine, l, peer, n.secretOf(peer))
    ensures var got := Dm.Decode(c, SendsOf(s.queue, id)[j].payload, peer[0], candidates);
            && got.Some? && got.value.text == s.msgs[id].text && got.value.key == n.key
            && var answer := PathAnswer(c, n, peer, path, raw, got.value.ackHash, random);
               var dec := Dm.DecodePath(c, answer, n.key[0], mine);
               && dec.Some? && dec.value.key == peer && dec.value.path == path && dec.value.pathLenRaw == raw
               && dec.value.ackHash.Some?
               && Taken(w, s, LearnPath(s, dec.value), id, j, dec.value, dec.value.ackHash.value)
  {
    var ack := AckOf(w, s.msgs[id], j);
    AttemptIsRead(c, n, w, s, id, j, candidates, k);
    PathAnswerIsRead(c, n, peer, path, raw, ack, random, mine, l);
    PathAnswerIsTaken(w, s, id, j, Dm.PathReturn(peer, peer[0], path, raw, Some(ack)), ack);
  }

  lemma PathAnswerIsRead(c: Crypto, n: Node, peer: Key, path: Data, raw: Byte, ack: Data, random: Byte,
                         mine: seq<Candidate>, l: nat)
    requires Sound(c) && |ack| == 4 && |path| == Packet.PathByteLen(raw)
    requires Dm.Identified(c, PathAnswer(c, n, peer, path, raw, ack, random), mine, l, peer, n.secretOf(peer))
    ensures Dm.DecodePath(c, PathAnswer(c, n, peer, path, raw, ack, random), n.key[0], mine)
         == Some(Dm.PathReturn(peer, peer[0], path, raw, Some(ack)))
  {
    Dm.PathRoundTrip(c, n.secretOf(peer), peer, n.key[0], path, raw, Dm.Ack6(ack, random), mine, l);
    Dm.BareAckRoundTrip(ack, random);
  }

  /** What the sender makes of the answer. */
  ghost predicate Taken(w: Wire, s: State, t: State, id: nat, j: nat, dec: Dm.PathReturn, ack: Data)
    requires Attempted(s, id, j)
  {
    SettlesExactly(w, s, t, id, j, ack) && LearnedPaths.Holds(s, t, dec.key, dec.path, dec.pathLenRaw)
  }

  lemma PathAnswerIsTaken(w: Wire, s: State, id: nat, j: nat, dec: Dm.PathReturn, ack: Data)
    requires Inv(w, s) && Attempted(s, id, j) && ack == AckOf(w, s.msgs[id], j)
    ensures Taken(w, s, LearnPath(s, dec), id, j, dec, ack)
  {
    LearnedPaths.LearningHolds(s, dec);
    PathAnswerSettles(w, s, LearnPath(s, dec), id, j, dec, ack);
    BothTaken(w, s, LearnPath(s, dec), id, j, dec, ack);
  }

  lemma BothTaken(w: Wire, s: State, t: State, id: nat, j: nat, dec: Dm.PathReturn, ack: Data)
    requires Attempted(s, id, j) && SettlesExactly(w, s, t, id, j, ack)
    requires LearnedPaths.Holds(s, t, dec.key, dec.path, dec.pathLenRaw)
    ensures Taken(w, s, t, id, j, dec, ack)
  {
  }

  lemma PathAnswerSettles(w: Wire, s: State, t: State, id: nat, j: nat, dec: Dm.PathReturn, ack: Data)
    requires Inv(w, s) && Attempted(s, id, j) && ack == AckOf(w, s.msgs[id], j) && t == LearnPath(s, dec)
    ensures SettlesExactly(w, s, t, id, j, ack)
  {
    AckOfAttemptSettles(w, s, id, j);
    LearningSettlesSame(s, dec, id, ack);
    SettlesAfter(w, s, t, id, j, ack);
  }

  lemma SettlesAfter(w: Wire, s: State, t: State, id: nat, j: nat, ack: Data)
    requires Attempted(s, id, j) && SettlesExactly(w, s, s, id, j, ack)
    requires Settles(t, id, ack) <==> Settles(s, id, ack)
    ensures SettlesExactly(w, s, t, id, j, ack)
  {
  }

  /** What a send of a DM leaves behind. */
  ghost predicate SentOne(w: Wire, s: State, t: State, peer: Data, ack: Data) {
    && Inv(w, t) && t.next == s.next + 1 && t.contacts == s.contacts
    && t.pending == Pending.Register(s.pending, ack, Pending.Entry(peer, s.next))
    && s.next in t.msgs && t.msgs[s.next].ack == Some(ack)
    && t.msgs[s.next].kind == Direct(peer) && !t.msgs[s.next].delivered
    && forall id :: id in s.msgs && id != s.next ==> id in t.msgs && t.msgs[id] == s.msgs[id]
  }

  lemma SendDoes(w: Wire, s: State, peer: Data, text: Data, ts: nat, now: int)
    requires Inv(w, s) && text != [] && peer in s.contacts
    ensures SentOne(w, s, SendDm(w, s, peer, text, ts, now).0, peer, w.dm(peer, text, ts, 0).1)
  {
    StepInv(w, s, SendsDm(peer, text, ts, now));
    AfterSend(w, s, peer, text, ts, now);
    var (s1, r) := TxDm(w, Fresh(s, Direct(peer), text, ts), NewRecord(s.next, Direct(peer), text, ts), now);
    SaveKeepsContacts(s1, peer, s.next);
  }

  /** The ack of a DM does not depend on the contact: one text sent to two contacts in one second has one ack. Then
      the later message owns it: the ack settles that one, and not the other, whichever of the two it was meant for. */
  lemma SharedAck(c: Crypto, n: Node, w: Wire, s: State, p: Data, q: Data, text: Data, ts: nat, now: int, later: int)
    requires w == Codecs(c, n) && Inv(w, s) && text != [] && p != q && p in s.contacts && q in s.contacts
    requires w.dm(p, text, ts, 0).1 !in s.pending.order
    ensures var t := SendDm(w, SendDm(w, s, p, text, ts, now).0, q, text, ts, later).0;
            var ack := w.dm(p, text, ts, 0).1;
            && s.next in t.msgs && s.next + 1 in t.msgs
            && t.msgs[s.next].ack == Some(ack) && t.msgs[s.next + 1].ack == Some(ack)
            && Settles(t, s.next + 1, ack) && !Settles(t, s.next, ack)
  {
    var s1 := SendDm(w, s, p, text, ts, now).0;
    var t := SendDm(w, s1, q, text, ts, later).0;
    var ack := w.dm(p, text, ts, 0).1;
    CodecsAck(c, n, w, p, text, ts, 0);
    CodecsAck(c, n, w, q, text, ts, 0);
    SendDoes(w, s, p, text, ts, now);
    SendDoes(w, s1, q, text, ts, later);
    Pending.RegisteredTwice(s.pending, ack, Pending.Entry(p, s.next), Pending.Entry(q, s1.next));
    Pending.NewestIsOne(t.registered, ack, t.pending.acks[ack], Pending.Entry(p, s.next));
    AckSettlesExactly(w, t, s.next, p, ack);
    AckSettlesExactly(w, t, s1.next, q, ack);
  }
}
