/** The metric table (geomalg/include/geomalg/Metric.h). */
module Metrics {

  datatype Entry = Entry(a: nat, b: nat, product: int)

  /** Products of basis vectors, orthonormal unless the table says otherwise. */
  datatype Metric = Metric(dim: nat, entries: seq<Entry>) {

    /** ApplyMetric handles the products -1, 0 and 1 only. */
    ghost predicate Valid() {
      forall i :: 0 <= i < |entries| ==> -1 <= entries[i].product <= 1
    }

    function Find(a: nat, b: nat, from: nat): int
      requires from <= |entries|
      decreases |entries| - from
    {
      if from == |entries| then (if a == b then 1 else 0)
      else if entries[from].a == a && entries[from].b == b then entries[from].product
      else Find(a, b, from + 1)
    }

    function DotProduct(a: nat, b: nat): int {
      if a > b then Find(b, a, 0) else Find(a, b, 0)
    }
  }

  /** The lookup on ordered arguments makes any table a symmetric form. */
  lemma {:induction false} DotProductSymmetric(m: Metric, a: nat, b: nat)
    ensures m.DotProduct(a, b) == m.DotProduct(b, a)
  {}

  /** Metric::get: conformal geometry of three dimensions with the null vectors 3 and 4, or no metric. */
  function Get(isConformal: bool): Metric {
    if isConformal then Metric(5, [Entry(3, 3, 0), Entry(4, 4, 0), Entry(3, 4, -1)]) else Metric(0, [])
  }

  predicate IsFor(e: Entry, a: nat, b: nat) { e.a == a && e.b == b }

  /** The entry at i is the first one for a and b. */
  ghost predicate IsFirst(m: Metric, i: nat, a: nat, b: nat) {
    i < |m.entries| && IsFor(m.entries[i], a, b) && forall j :: 0 <= j < i ==> !IsFor(m.entries[j], a, b)
  }

  ghost predicate HasNone(m: Metric, a: nat, b: nat) {
    forall i :: 0 <= i < |m.entries| ==> !IsFor(m.entries[i], a, b)
  }

  lemma {:induction false} FindIs(m: Metric, a: nat, b: nat, from: nat)
    requires from <= |m.entries| && forall j :: 0 <= j < from ==> !IsFor(m.entries[j], a, b)
    ensures forall i: nat :: IsFirst(m, i, a, b) ==> m.Find(a, b, from) == m.entries[i].product
    ensures HasNone(m, a, b) ==> m.Find(a, b, from) == if a == b then 1 else 0
    decreases |m.entries| - from
  {
    if from < |m.entries| {
      if IsFor(m.entries[from], a, b) {
        forall i: nat | IsFirst(m, i, a, b)
          ensures i == from
        {
          assert i >= from;
        }
      } else {
        FindIs(m, a, b, from + 1);
      }
    }
  }

  /** A product is that of the first entry for the smaller and the larger vector, and without one the basis is
      orthonormal. */
  lemma {:induction false} DotProductIs(m: Metric, a: nat, b: nat)
    ensures var lo, hi := if a <= b then a else b, if a <= b then b else a;
      (forall i: nat :: IsFirst(m, i, lo, hi) ==> m.DotProduct(a, b) == m.entries[i].product) &&
      (HasNone(m, lo, hi) ==> m.DotProduct(a, b) == if a == b then 1 else 0)
  {
    FindIs(m, if a <= b then a else b, if a <= b then b else a, 0);
  }

  /** The products of conformal geometry: three unit vectors and two null vectors with the product -1. */
  lemma {:induction false} ConformalProducts(a: nat, b: nat)
    requires a < 5 && b < 5
    ensures Get(true).DotProduct(a, b) ==
      if a < 3 || b < 3 then (if a == b then 1 else 0) else if a == b then 0 else -1
  {
    var m := Get(true);
    var lo, hi := if a <= b then a else b, if a <= b then b else a;
    assert m.Find(lo, hi, 3) == if lo == hi then 1 else 0;
    assert m.Find(lo, hi, 2) == if lo == 3 && hi == 4 then -1 else m.Find(lo, hi, 3);
    assert m.Find(lo, hi, 1) == if lo == 4 && hi == 4 then 0 else m.Find(lo, hi, 2);
    assert m.Find(lo, hi, 0) == if lo == 3 && hi == 3 then 0 else m.Find(lo, hi, 1);
  }

  lemma {:induction false} FindRange(m: Metric, a: nat, b: nat, from: nat)
    requires m.Valid() && from <= |m.entries|
    ensures -1 <= m.Find(a, b, from) <= 1
    decreases |m.entries| - from
  {
    if from < |m.entries| {
      FindRange(m, a, b, from + 1);
    }
  }
}
