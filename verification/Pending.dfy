/** The table of acks a node waits for: at most 32 in order of registration, some of them stale. */
module Pending {
  import opened Bytes

  /** Whose ack it is, and which message it settles. */
  datatype Entry = Entry(peer: Data, id: nat)

  /** _pending_acks and _pending_order */
  datatype Table = Table(acks: map<Data, Entry>, order: seq<Data>)

  const MAX_PENDING := 32

  function Trim(t: Table): Table
    decreases |t.order|
  {
    if |t.order| > MAX_PENDING then Trim(Table(t.acks - {t.order[0]}, t.order[1..])) else t
  }

  /** _register_pending */
  function Register(t: Table, ack: Data, e: Entry): Table {
    Trim(Table(t.acks[ack := e], t.order + [ack]))
  }

  /** list.remove: the first occurrence goes, if there is one. */
  function Removed(order: seq<Data>, ack: Data): seq<Data> {
    if order == [] then []
    else if order[0] == ack then order[1..]
    else [order[0]] + Removed(order[1..], ack)
  }

  /** What _mark_delivered takes out before it settles the message. */
  function Take(t: Table, ack: Data): Table {
    Table(t.acks - {ack}, Removed(t.order, ack))
  }

  /** What _cancel_retry takes out: entries, but not their places in the order. */
  function Drop(t: Table, acks: seq<Data>): Table {
    Table(t.acks - (set a | a in acks), t.order)
  }

  // ---- against the log of all registrations ----

  datatype Registration = Registration(ack: Data, entry: Entry)

  /** No other attempt ever registered the ack that registration k did. */
  ghost predicate Alone(log: seq<Registration>, k: nat)
    requires k < |log|
  {
    forall j :: 0 <= j < |log| && j != k ==> log[j].ack != log[k].ack
  }

  /** The places in order are those of increasing positions in the log. */
  ghost predicate Placed(order: seq<Data>, log: seq<Registration>, at: seq<nat>) {
    && |at| == |order|
    && (forall i :: 0 <= i < |at| ==> at[i] < |log| && log[at[i]].ack == order[i])
    && (forall i, j :: 0 <= i < j < |at| ==> at[i] < at[j])
  }

  ghost predicate Registered(log: seq<Registration>, ack: Data, e: Entry) {
    Registration(ack, e) in log
  }

  /** Registration k is the last one of this ack, and it is for e. */
  ghost predicate IsLast(log: seq<Registration>, k: nat, ack: Data, e: Entry) {
    k < |log| && log[k] == Registration(ack, e) && forall j :: k < j < |log| ==> log[j].ack != ack
  }

  /** The last attempt that registered this ack did so for e. */
  ghost predicate Newest(log: seq<Registration>, ack: Data, e: Entry) {
    exists k :: IsLast(log, k, ack, e)
  }

  lemma NewestIsOne(log: seq<Registration>, ack: Data, e: Entry, f: Entry)
    requires Newest(log, ack, e)
    ensures Registered(log, ack, e) && (Newest(log, ack, f) <==> f == e)
  {
    var k :| IsLast(log, k, ack, e);
    if Newest(log, ack, f) {
      var j :| IsLast(log, j, ack, f);
      assert j == k;
    }
  }

  lemma NewestAfter(log: seq<Registration>, r: Registration, ack: Data, e: Entry)
    requires Newest(log, ack, e) && r.ack != ack
    ensures Newest(log + [r], ack, e)
  {
    var k :| IsLast(log, k, ack, e);
    assert IsLast(log + [r], k, ack, e);
  }

  /** An ack that no other attempt registered has its one registration for the newest. */
  lemma AloneIsNewest(log: seq<Registration>, k: nat)
    requires k < |log| && Alone(log, k)
    ensures Newest(log, log[k].ack, log[k].entry)
  {
    assert IsLast(log, k, log[k].ack, log[k].entry);
  }

  /** The order is bounded and covers the table, and every entry is that of the newest registration of its ack. */
  ghost predicate Bounded(t: Table, log: seq<Registration>) {
    && |t.order| <= MAX_PENDING
    && (forall a :: a in t.acks ==> a in t.order)
    && (exists at: seq<nat> :: Placed(t.order, log, at))
    && (forall a :: a in t.acks ==> Newest(log, a, t.acks[a]))
  }

  /** Of the last 32 registrations, each of a message not yet delivered is still there, if it is alone with its ack. */
  ghost predicate Complete(t: Table, log: seq<Registration>, delivered: set<nat>) {
    forall k :: 0 <= k < |log| && |log| - MAX_PENDING <= k && log[k].entry.id !in delivered && Alone(log, k) ==>
      log[k].ack in t.acks
  }

  /** In increasing positions below n, the first of m is at most n - m. */
  lemma {:induction false} FirstIsEarly(at: seq<nat>, n: nat)
    requires at != [] && (forall i :: 0 <= i < |at| ==> at[i] < n)
    requires forall i, j :: 0 <= i < j < |at| ==> at[i] < at[j]
    ensures at[0] + |at| <= n
    decreases |at|
  {
    if |at| > 1 {
      var last := at[|at| - 1];
      FirstIsEarly(at[..|at| - 1], last);
    }
  }

  lemma PlacedMore(order: seq<Data>, log: seq<Registration>, at: seq<nat>, r: Registration)
    requires Placed(order, log, at)
    ensures Placed(order + [r.ack], log + [r], at + [|log|])
  {
  }

  lemma PlacedTail(order: seq<Data>, log: seq<Registration>, at: seq<nat>)
    requires Placed(order, log, at) && order != []
    ensures Placed(order[1..], log, at[1..])
  {
  }

  lemma TrimOnce(t: Table)
    requires |t.order| == MAX_PENDING + 1
    ensures Trim(t) == Table(t.acks - {t.order[0]}, t.order[1..])
  {
  }

  /** Registering drops an entry exactly when the oldest place of a full order is one of its ack's; that may be an
      earlier place of the very ack that is registered now. */
  lemma RegisterKeepsIff(t: Table, ack: Data, e: Entry, a: Data)
    requires |t.order| <= MAX_PENDING
    ensures a in Register(t, ack, e).acks
       <==> (a == ack || a in t.acks) && !(|t.order| == MAX_PENDING && t.order[0] == a)
  {
    var u := Table(t.acks[ack := e], t.order + [ack]);
    if |u.order| > MAX_PENDING {
      TrimOnce(u);
    }
  }

  /** An ack that is registered twice in a row is there for the later entry. */
  lemma RegisteredTwice(t: Table, ack: Data, e: Entry, f: Entry)
    requires |t.order| <= MAX_PENDING && ack !in t.order
    ensures var u := Register(Register(t, ack, e), ack, f); ack in u.acks && u.acks[ack] == f
  {
    var t1 := Table(t.acks[ack := e], t.order + [ack]);
    if |t1.order| > MAX_PENDING {
      TrimOnce(t1);
    }
    var u := Register(t, ack, e);
    assert u == Trim(t1) && u.order != [] && |u.order| <= MAX_PENDING && (|u.order| > 1 ==> u.order[0] != ack);
    var u1 := Table(u.acks[ack := f], u.order + [ack]);
    if |u1.order| > MAX_PENDING {
      TrimOnce(u1);
    }
  }

  /** Registering keeps the table bounded. */
  lemma RegisterBounded(t: Table, log: seq<Registration>, ack: Data, e: Entry)
    requires Bounded(t, log)
    ensures Bounded(Register(t, ack, e), log + [Registration(ack, e)])
  {
    var at: seq<nat> :| Placed(t.order, log, at);
    var r := Registration(ack, e);
    var u := Table(t.acks[ack := e], t.order + [ack]);
    PlacedMore(t.order, log, at, r);
    forall a | a in u.acks ensures a in u.order && Newest(log + [r], a, u.acks[a]) {
      if a == ack {
        assert IsLast(log + [r], |log|, ack, e);
      } else {
        NewestAfter(log, r, a, t.acks[a]);
      }
    }
    if |u.order| > MAX_PENDING {
      TrimOnce(u);
      PlacedTail(u.order, log + [r], at + [|log|]);
      forall a | a in Trim(u).acks ensures a in u.order[1..] {
        assert u.order == [u.order[0]] + u.order[1..];
      }
    }
  }

  /** Registering loses nothing but what is older than the last 32 registrations. */
  lemma RegisterComplete(t: Table, log: seq<Registration>, ack: Data, e: Entry, delivered: set<nat>)
    requires Bounded(t, log) && Complete(t, log, delivered)
    ensures Complete(Register(t, ack, e), log + [Registration(ack, e)], delivered)
  {
    var at: seq<nat> :| Placed(t.order, log, at);
    var r := Registration(ack, e);
    var all := log + [r];
    var u := Table(t.acks[ack := e], t.order + [ack]);
    PlacedMore(t.order, log, at, r);
    var first := |all|;
    if |u.order| > MAX_PENDING {
      TrimOnce(u);
      var places := at + [|log|];
      FirstIsEarly(places, |all|);
      first := places[0];
      assert all[first].ack == u.order[0];
    }
    forall k | 0 <= k < |all| && |all| - MAX_PENDING <= k && all[k].entry.id !in delivered && Alone(all, k)
      ensures all[k].ack in Register(t, ack, e).acks
    {
      assert first < |all| ==> first != k;
      if k < |log| {
        AloneBefore(log, r, k);
      }
    }
  }

  lemma AloneBefore(log: seq<Registration>, r: Registration, k: nat)
    requires k < |log| && Alone(log + [r], k)
    ensures Alone(log, k) && (log + [r])[k] == log[k] && r.ack != log[k].ack
  {
    var all := log + [r];
    assert all[|log|] == r;
    forall j | 0 <= j < |log| && j != k ensures log[j].ack != log[k].ack {
      assert all[j] == log[j];
    }
  }

  lemma {:induction false} RemovedIsAt(order: seq<Data>, ack: Data) returns (i: nat)
    ensures i <= |order|
    ensures Removed(order, ack) == if i < |order| then order[..i] + order[i + 1..] else order
    ensures if i < |order| then order[i] == ack else ack !in order
  {
    if order == [] {
      i := 0;
    } else if order[0] == ack {
      i := 0;
    } else {
      i := RemovedIsAt(order[1..], ack);
      i := i + 1;
      if i < |order| {
        assert order[1..][..i - 1] == order[1..i];
        assert [order[0]] + order[1..i] == order[..i];
        assert order[1..][i..] == order[i + 1..];
        assert Removed(order, ack) == [order[0]] + (order[1..i] + order[i + 1..]);
      } else {
        assert order == [order[0]] + order[1..];
      }
    }
  }

  lemma PlacedWithout(order: seq<Data>, log: seq<Registration>, at: seq<nat>, i: nat)
    requires Placed(order, log, at) && i < |order|
    ensures Placed(order[..i] + order[i + 1..], log, at[..i] + at[i + 1..])
  {
  }

  lemma OthersStay(order: seq<Data>, i: nat, a: Data)
    requires i < |order| && a in order && a != order[i]
    ensures a in order[..i] + order[i + 1..]
  {
    assert order == order[..i] + [order[i]] + order[i + 1..];
  }

  /** Taking an ack out keeps the table bounded. */
  lemma TakeBounded(t: Table, log: seq<Registration>, ack: Data)
    requires Bounded(t, log)
    ensures Bounded(Take(t, ack), log)
  {
    var at: seq<nat> :| Placed(t.order, log, at);
    var i := RemovedIsAt(t.order, ack);
    var u := Take(t, ack);
    if i < |t.order| {
      PlacedWithout(t.order, log, at, i);
      forall a | a in u.acks ensures a in u.order {
        OthersStay(t.order, i, a);
      }
    } else {
      assert Placed(u.order, log, at);
    }
  }

  /** Taking a registered ack out loses nothing of any message but the one it settles. */
  lemma TakeComplete(t: Table, log: seq<Registration>, ack: Data, delivered: set<nat>)
    requires Bounded(t, log) && Complete(t, log, delivered) && ack in t.acks
    ensures Complete(Take(t, ack), log, delivered + {t.acks[ack].id})
  {
    NewestIsOne(log, ack, t.acks[ack], t.acks[ack]);
    var j :| 0 <= j < |log| && log[j] == Registration(ack, t.acks[ack]);
  }

  lemma OneOwner(log: seq<Registration>, k: nat, e: Entry)
    requires k < |log| && Alone(log, k) && Registered(log, log[k].ack, e)
    ensures log[k].entry == e
  {
    var j :| 0 <= j < |log| && log[j] == Registration(log[k].ack, e);
  }

  /** Dropping the acks of a delivered message keeps the table bounded and complete. */
  lemma DropKeeps(t: Table, log: seq<Registration>, acks: seq<Data>, id: nat, delivered: set<nat>)
    requires Bounded(t, log)
    ensures Bounded(Drop(t, acks), log)
    ensures Complete(t, log, delivered) && id in delivered
            && (forall a :: a in acks ==> exists p :: Registered(log, a, Entry(p, id)))
            ==> Complete(Drop(t, acks), log, delivered)
  {
    if Complete(t, log, delivered) && id in delivered
       && forall a :: a in acks ==> exists p :: Registered(log, a, Entry(p, id)) {
      forall k | 0 <= k < |log| && |log| - MAX_PENDING <= k && log[k].entry.id !in delivered && Alone(log, k)
        ensures log[k].ack in Drop(t, acks).acks
      {
        if log[k].ack in acks {
          var p :| Registered(log, log[k].ack, Entry(p, id));
          OneOwner(log, k, Entry(p, id));
          assert false;
        }
      }
    }
  }
}
