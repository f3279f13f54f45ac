/** Scalar multiplication: the double-and-add loop, its recursive form, and what it means in a group. */
module ScalarMult {
  import opened Edwards
  import opened Groups

  /** The halving form: n times p from n/2 times p. */
  function Times(q: int, d: int, p: Ext, n: nat): Ext
    requires q > 0
  {
    if n == 0 then IDENT
    else
      var r := Double(q, Times(q, d, p, n / 2));
      if n % 2 == 1 then Add(q, d, r, p) else r
  }

  function Halved(n: nat, i: nat): nat {
    if i == 0 then n else Halved(n / 2, i - 1)
  }

  lemma {:induction false} HalvedNext(n: nat, i: nat)
    ensures Halved(n, i + 1) == Halved(n, i) / 2
  {
    if i == 0 {
    } else {
      HalvedNext(n / 2, i - 1);
    }
  }

  /** The bits of n are collected from the low end and consumed from the high end. */
  method DoubleAndAdd(q: int, d: int, p: Ext, n: nat) returns (result: Ext)
    requires q > 0
    ensures result == Times(q, d, p, n)
  {
    if n == 0 {
      return IDENT;
    }
    var bits: seq<nat> := [];
    var rest := n;
    while rest > 0
      invariant rest == Halved(n, |bits|)
      invariant forall j :: 0 <= j < |bits| ==> bits[j] == Halved(n, j) % 2 && Halved(n, j) > 0
    {
      HalvedNext(n, |bits|);
      bits := bits + [rest % 2];
      rest := rest / 2;
    }
    result := IDENT;
    for i := |bits| downto 0
      invariant result == Times(q, d, p, Halved(n, i))
    {
      HalvedNext(n, i);
      result := Double(q, result);
      if bits[i] != 0 {
        result := Add(q, d, result, p);
      }
    }
  }

  /**
   A reading of extended points as elements of a commutative group: `points` are the points it covers and
   `value` the element each stands for. Add is addition, and a point keeps its value when all its
   coordinates are divided by a common factor.
   */
  datatype Reading<!G> = Reading(group: Group<G>, points: Ext -> bool, value: Ext -> G)
  {
    ghost predicate AddsUp(q: int, d: int, p: Ext, r: Ext)
      requires q > 0
    {
      points(p) && points(r) ==>
        points(Add(q, d, p, r)) && value(Add(q, d, p, r)) == group.op(value(p), value(r))
    }

    ghost predicate Rescales(q: int, c: int, p: Ext, r: Ext)
      requires q > 0
    {
      points(p) && Scaled(q, c, p, r) ==> points(r) && value(r) == value(p)
    }
  }

  ghost predicate Reads<G(!new)>(q: int, d: int, m: Reading<G>)
    requires q > 0
  {
    && Commutative(m.group)
    && (forall p :: m.points(p) ==> OnCurve(q, d, p))
    && m.points(IDENT) && m.value(IDENT) == m.group.zero
    && (forall p, r :: m.AddsUp(q, d, p, r))
    && (forall c, p, r :: m.Rescales(q, c, p, r))
  }

  /** Double needs no hypothesis of its own: it is a rescaled Add(p, p). */
  lemma DoubleReads<G(!new)>(q: int, d: int, m: Reading<G>, p: Ext)
    requires q > 0 && Reads(q, d, m) && m.points(p)
    ensures m.points(Double(q, p)) && m.value(Double(q, p)) == m.group.op(m.value(p), m.value(p))
  {
    AddSelfIsDouble(q, d, p);
    assert m.AddsUp(q, d, p, p) && m.Rescales(q, -4, Add(q, d, p, p), Double(q, p));
  }

  lemma {:induction false} TimesReads<G(!new)>(q: int, d: int, m: Reading<G>, p: Ext, n: nat)
    requires q > 0 && Reads(q, d, m) && m.points(p)
    ensures m.points(Times(q, d, p, n)) && m.value(Times(q, d, p, n)) == NFold(m.group, m.value(p), n)
  {
    if n == 0 {
    } else {
      var h := Times(q, d, p, n / 2);
      TimesReads(q, d, m, p, n / 2);
      DoubleReads(q, d, m, h);
      NFoldAdd(m.group, m.value(p), n / 2, n / 2);
      assert m.AddsUp(q, d, Double(q, h), p);
    }
  }

  /** Scalar multiplication distributes over the sum of scalars. */
  lemma TimesDistributes<G(!new)>(q: int, d: int, r: Reading<G>, p: Ext, m: nat, n: nat)
    requires q > 0 && Reads(q, d, r) && r.points(p)
    ensures r.value(Times(q, d, p, m + n)) == r.value(Add(q, d, Times(q, d, p, m), Times(q, d, p, n)))
  {
    TimesReads(q, d, r, p, m);
    TimesReads(q, d, r, p, n);
    TimesReads(q, d, r, p, m + n);
    NFoldAdd(r.group, r.value(p), m, n);
    assert r.AddsUp(q, d, Times(q, d, p, m), Times(q, d, p, n));
  }

  /** Every multiple of a curve point is on the curve, with no hypothesis about groups. */
  lemma {:induction false} TimesStaysOnCurve(q: int, d: int, p: Ext, n: nat)
    requires q > 0 && OnCurve(q, d, p)
    ensures OnCurve(q, d, Times(q, d, p, n))
  {
    if n == 0 {
    } else {
      TimesStaysOnCurve(q, d, p, n / 2);
      DoubleStaysOnCurve(q, d, Times(q, d, p, n / 2));
      if n % 2 == 1 {
        AddStaysOnCurve(q, d, Double(q, Times(q, d, p, n / 2)), p);
      }
    }
  }
}
