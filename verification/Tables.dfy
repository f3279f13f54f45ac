/** The manager's bounded tables, each against the unbounded history it stands for. */
module Tables {

  /** The last n entries of a log. */
  function Window<T>(log: seq<T>, n: nat): (r: seq<T>)
    ensures |r| <= n && |r| <= |log|
  {
    if |log| <= n then log else log[|log| - n..]
  }

  ghost predicate Distinct<T(!new)>(s: seq<T>) {
    forall i, j :: 0 <= i < j < |s| ==> s[i] != s[j]
  }

  /** Appending, and dropping the oldest entry if there are now too many, moves the window on. */
  lemma WindowMoves<T(!new)>(log: seq<T>, n: nat, x: T)
    requires n > 0 && Distinct(Window(log, n)) && x !in Window(log, n)
    ensures var w := Window(log, n) + [x];
            Window(log + [x], n) == (if |w| > n then w[1..] else w) && Distinct(Window(log + [x], n)) && Distinct(w)
  {
    var w := Window(log, n) + [x];
    forall i, j | 0 <= i < j < |w| ensures w[i] != w[j] {
      assert w[i] in Window(log, n);
    }
  }

  lemma WithoutFirst<T(!new)>(s: seq<T>)
    requires s != [] && Distinct(s)
    ensures (set x | x in s[1..]) == (set x | x in s) - {s[0]}
  {
    forall x | x in s && x != s[0] ensures x in s[1..] {
      var i :| 0 <= i < |s| && s[i] == x;
      assert s[1..][i - 1] == x;
    }
  }

  const MAX_RECENT := 64

  // ---- _seen and _seen_set ----

  /** A hash is accepted exactly when it is not among the last 64 accepted. */
  predicate Accepts<H(==)>(accepted: seq<H>, h: H) {
    h !in Window(accepted, MAX_RECENT)
  }

  function Remembered<H(==)>(accepted: seq<H>, h: H): seq<H> {
    if Accepts(accepted, h) then accepted + [h] else accepted
  }

  class SeenTable<H(==,!new)> {
    var seen: seq<H>
    var seenSet: set<H>
    ghost var accepted: seq<H>

    ghost predicate Valid()
      reads this
    {
      && seen == Window(accepted, MAX_RECENT) && Distinct(seen)
      && seenSet == set h | h in seen
    }

    constructor ()
      ensures Valid() && accepted == []
    {
      seen, seenSet, accepted := [], {}, [];
    }

    /** _remember */
    method Remember(h: H) returns (isNew: bool)
      requires Valid()
      modifies this
      ensures Valid()
      ensures isNew == Accepts(old(accepted), h) && accepted == Remembered(old(accepted), h)
    {
      if h in seenSet {
        return false;
      }
      WindowMoves(accepted, MAX_RECENT, h);
      accepted := accepted + [h];
      seen := seen + [h];
      seenSet := seenSet + {h};
      assert seenSet == set x | x in seen;
      if |seen| > MAX_RECENT {
        WithoutFirst(seen);
        var first := seen[0];
        seen := seen[1..];
        seenSet := seenSet - {first};
      }
      return true;
    }
  }

  // ---- _recent and _recent_order ----

  function Distance(a: nat, b: nat): nat { if a > b then a - b else b - a }

  /** What the table stands for: the keys in the order they were entered, and the last time noted for each. */
  datatype Shown<K> = Shown(entered: seq<K>, latest: map<K, nat>)

  predicate Known<K(==)>(s: Shown<K>, key: K) {
    key in Window(s.entered, MAX_RECENT) && key in s.latest
  }

  predicate IsResend<K(==)>(s: Shown<K>, key: K, ts: nat, window: nat) {
    Known(s, key) && Distance(ts, s.latest[key]) <= window
  }

  /** A resend is not noted; a new message under a known key moves its time but not its place. */
  function Noted<K(==)>(s: Shown<K>, key: K, ts: nat, window: nat): Shown<K> {
    if IsResend(s, key, ts, window) then s
    else Shown(if Known(s, key) then s.entered else s.entered + [key], s.latest[key := ts])
  }

  class RecentTable<K(==,!new)> {
    var recent: map<K, nat>
    var order: seq<K>
    ghost var shown: Shown<K>

    ghost predicate Valid()
      reads this
    {
      && order == Window(shown.entered, MAX_RECENT) && Distinct(order)
      && recent.Keys == (set k | k in order)
      && recent.Keys <= shown.latest.Keys
      && forall k :: k in recent ==> recent[k] == shown.latest[k]
    }

    constructor ()
      ensures Valid() && shown == Shown([], map[])
    {
      recent, order, shown := map[], [], Shown([], map[]);
    }

    /** _dup_message */
    method DupMessage(key: K, ts: nat, window: nat) returns (dup: bool)
      requires Valid()
      modifies this
      ensures Valid()
      ensures dup == IsResend(old(shown), key, ts, window) && shown == Noted(old(shown), key, ts, window)
      ensures |order| <= MAX_RECENT && recent.Keys == (set k | k in order)
    {
      ghost var was := shown;
      if key in recent {
        var prev := recent[key];
        if (if ts > prev then ts - prev else prev - ts) <= window {
          return true;
        }
        recent := recent[key := ts];
        shown := Noted(was, key, ts, window);
        return false;
      }
      WindowMoves(shown.entered, MAX_RECENT, key);
      shown := Noted(was, key, ts, window);
      recent := recent[key := ts];
      order := order + [key];
      assert recent.Keys == set k | k in order;
      while |order| > MAX_RECENT
        invariant |order| <= MAX_RECENT + 1 && Distinct(order) && recent.Keys == (set k | k in order)
        invariant |order| == MAX_RECENT + 1 ==> order[1..] == Window(shown.entered, MAX_RECENT)
        invariant |order| <= MAX_RECENT ==> order == Window(shown.entered, MAX_RECENT)
        invariant recent.Keys <= shown.latest.Keys && forall k :: k in recent ==> recent[k] == shown.latest[k]
        invariant shown == Noted(was, key, ts, window)
        decreases |order|
      {
        WithoutFirst(order);
        var first := order[0];
        order := order[1..];
        recent := recent - {first};
      }
      return false;
    }
  }

  // ---- _nodes ----

  const MAX_NODES := 100

  /** The last position at which k was heard, counted from 1 as _seq counts; 0 if it never was. */
  function LastHeard<K(==)>(heard: seq<K>, k: K): (r: nat)
    ensures r <= |heard| && (r > 0 <==> k in heard)
  {
    if heard == [] then 0
    else if heard[|heard| - 1] == k then |heard|
    else
      assert forall x :: x in heard ==> x == heard[|heard| - 1] || x in heard[..|heard| - 1];
      LastHeard(heard[..|heard| - 1], k)
  }

  /** The window holds what was last heard less than n entries ago. */
  lemma InWindowIff<K(!new)>(log: seq<K>, n: nat, k: K)
    ensures k in Window(log, n) <==> k in log && |log| - LastHeard(log, k) < n
  {
    if k in Window(log, n) {
      var at := PlaceInLog(log, n, k);
      LastIsLast(log, k, at);
    } else if k in log && |log| - LastHeard(log, k) < n {
      HeardThere(log, k);
      LateIsInWindow(log, n, LastHeard(log, k) - 1);
    }
  }

  lemma PlaceInLog<K>(log: seq<K>, n: nat, k: K) returns (at: nat)
    requires k in Window(log, n)
    ensures |log| - n <= at < |log| && log[at] == k
  {
    var w := Window(log, n);
    var i :| 0 <= i < |w| && w[i] == k;
    at := i + (|log| - |w|);
  }

  lemma LateIsInWindow<K>(log: seq<K>, n: nat, at: nat)
    requires |log| - n <= at < |log|
    ensures log[at] in Window(log, n)
  {
    var w := Window(log, n);
    assert w[at - (|log| - |w|)] == log[at];
  }

  lemma {:induction false} LastIsLast<K(!new)>(log: seq<K>, k: K, i: nat)
    requires i < |log| && log[i] == k
    ensures i < LastHeard(log, k)
  {
    if log[|log| - 1] != k {
      LastIsLast(log[..|log| - 1], k, i);
    }
  }

  /** nodes holds the 100 companions heard last, or all of them if they are fewer: whoever is missing
      was last heard before every one that is kept. */
  ghost predicate MostRecent<K(!new)>(nodes: map<K, nat>, heard: seq<K>) {
    && |nodes| <= 100
    && (forall k :: k in nodes ==> k in heard && nodes[k] == LastHeard(heard, k))
    && (forall k :: k in heard && k !in nodes ==> |nodes| == 100 && Behind(LastHeard(heard, k), nodes))
  }

  ghost predicate Behind<K(!new)>(t: nat, nodes: map<K, nat>) {
    forall m :: m in nodes ==> t < nodes[m]
  }

  lemma HeardAgain<K(!new)>(heard: seq<K>, k: K, m: K)
    ensures LastHeard(heard + [k], m) == if m == k then |heard| + 1 else LastHeard(heard, m)
  {
    assert (heard + [k])[..|heard|] == heard;
  }

  lemma {:induction false} HeardThere<K>(heard: seq<K>, k: K)
    requires k in heard
    ensures heard[LastHeard(heard, k) - 1] == k
  {
    if heard[|heard| - 1] != k {
      HeardThere(heard[..|heard| - 1], k);
    }
  }

  /** nodes after k is heard, before anyone is dropped */
  function HeardNow<K>(nodes: map<K, nat>, heard: seq<K>, k: K): map<K, nat> {
    nodes[k := |heard| + 1]
  }

  lemma KnownAgain<K(!new)>(nodes: map<K, nat>, heard: seq<K>, k: K)
    requires MostRecent(nodes, heard) && (k in nodes || |nodes| < MAX_NODES)
    ensures MostRecent(HeardNow(nodes, heard, k), heard + [k])
  {
    var n := HeardNow(nodes, heard, k);
    Cardinality(nodes, k, |heard| + 1);
    forall m | m in n ensures m in heard + [k] && n[m] == LastHeard(heard + [k], m) {
      HeardAgain(heard, k, m);
    }
    forall m | m in heard + [k] && m !in n ensures |n| == MAX_NODES && Behind(LastHeard(heard + [k], m), n) {
      HeardAgain(heard, k, m);
      assert m in heard && m !in nodes;
    }
  }

  lemma Cardinality<K>(nodes: map<K, nat>, k: K, v: nat)
    ensures |nodes[k := v]| == if k in nodes then |nodes| else |nodes| + 1
  {
    assert nodes[k := v].Keys == nodes.Keys + {k};
    assert |nodes| == |nodes.Keys| && |nodes[k := v]| == |nodes[k := v].Keys|;
  }

  lemma OneLess<K>(nodes: map<K, nat>, k: K)
    requires k in nodes
    ensures |nodes - {k}| == |nodes| - 1
  {
    assert (nodes - {k}).Keys == nodes.Keys - {k};
    assert |nodes| == |nodes.Keys| && |nodes - {k}| == |(nodes - {k}).Keys|;
  }

  /** Dropping the entry with the smallest _seq drops the companion heard longest ago, never the newest. */
  lemma OldestDropped<K(!new)>(nodes: map<K, nat>, heard: seq<K>, k: K, oldest: K)
    requires MostRecent(nodes, heard) && k !in nodes && |nodes| == MAX_NODES
    requires oldest in HeardNow(nodes, heard, k)
    requires forall m :: m in HeardNow(nodes, heard, k) ==>
               HeardNow(nodes, heard, k)[oldest] <= HeardNow(nodes, heard, k)[m]
    ensures oldest != k && MostRecent(HeardNow(nodes, heard, k) - {oldest}, heard + [k])
  {
    var n, h := HeardNow(nodes, heard, k), heard + [k];
    Cardinality(nodes, k, |heard| + 1);
    OneLess(n, oldest);
    var other :| other in nodes;
    assert n[other] <= |heard|;
    assert oldest != k;
    var r := n - {oldest};
    forall m | m in r ensures m in h && r[m] == LastHeard(h, m) {
      HeardAgain(heard, k, m);
    }
    forall m | m in h && m !in r ensures Behind(LastHeard(h, m), r) {
      HeardAgain(heard, k, m);
      forall x | x in r ensures LastHeard(h, m) < r[x] {
        HeardAgain(heard, k, x);
        if m == oldest {
          HeardThere(h, oldest);
          HeardThere(h, x);
        } else {
          assert Behind(LastHeard(heard, m), nodes);
        }
      }
    }
  }

  class NodeTable<K(==,!new)> {
    var nodes: map<K, nat>
    var sequence: nat
    ghost var heard: seq<K>

    ghost predicate Valid()
      reads this
    {
      sequence == |heard| && MostRecent(nodes, heard)
    }

    constructor ()
      ensures Valid() && heard == []
    {
      nodes, sequence, heard := map[], 0, [];
    }

    /** The key whose entry is smallest: min with a key function. */
    method Oldest(n: map<K, nat>) returns (oldest: K)
      requires n.Keys != {}
      ensures oldest in n && forall m :: m in n ==> n[oldest] <= n[m]
    {
      oldest :| oldest in n.Keys;
      var rest := n.Keys - {oldest};
      while rest != {}
        invariant oldest in n && rest <= n.Keys
        invariant forall m :: m in n && m !in rest ==> n[oldest] <= n[m]
        decreases |rest|
      {
        var k :| k in rest;
        if n[k] < n[oldest] {
          oldest := k;
        }
        rest := rest - {k};
      }
    }

    /** _handle_advert: our own adverts and those of anything but a chat companion are ignored. */
    method HandleAdvert(own: set<K>, key: K, isChat: bool)
      requires Valid()
      modifies this
      ensures Valid()
      ensures heard == if key !in own && isChat then old(heard) + [key] else old(heard)
      ensures heard != old(heard) ==> key in nodes && nodes[key] == |heard|
    {
      if key in own || !isChat {
        return;
      }
      sequence := sequence + 1;
      var isNew := key !in nodes;
      ghost var was := nodes;
      Cardinality(nodes, key, sequence);
      nodes := nodes[key := sequence];
      if isNew && |nodes| > MAX_NODES {
        assert key in nodes.Keys;
        var oldest := Oldest(nodes);
        OldestDropped(was, heard, key, oldest);
        nodes := nodes - {oldest};
      } else {
        KnownAgain(was, heard, key);
      }
      heard := heard + [key];
    }
  }
}
