/**
 Basis blades as bit masks (geomalg/include/geomalg/BladeTag.h).

 A tag holds the set of bits below the sign bit, one per basis vector, and the
 sign bit itself, which says that the basis vectors are in a noncanonical order.
 A basis vector is named by the position of its bit.
 */
module BladeTags {
  import opened Permutations

  datatype BladeTag = BladeTag(bits: set<nat>, sign: bool) {

    function Grade(): nat { |bits| }

    predicate IsCanonical() { !sign }

    /** A noncanonical scalar denotes zero. */
    predicate IsZero() { bits == {} && sign }

    /** The constructor's assertion: 1-blades cannot have a noncanonical order. */
    predicate Valid() { sign ==> Grade() != 1 }

    function OSwap(): BladeTag {
      if Grade() > 1 then BladeTag(bits, !sign) else this
    }

    predicate ShouldInvoNegate() { Grade() % 2 != 0 }

    predicate ShouldReverseNegate() { Grade() % 4 == 2 || Grade() % 4 == 3 }
  }

  const ZERO := BladeTag({}, true)

  const SCALAR := BladeTag({}, false)

  // ---------------------------------------------------------------- lowest bit

  ghost predicate IsLowest(bits: set<nat>, a: nat) {
    a in bits && forall x :: x in bits ==> a <= x
  }

  lemma {:induction false} LowestExists(bits: set<nat>)
    requires bits != {}
    ensures exists a :: IsLowest(bits, a)
  {
    var x :| x in bits;
    if bits == {x} {
      assert IsLowest(bits, x);
    } else {
      assert bits - {x} != {};
      LowestExists(bits - {x});
      var a :| IsLowest(bits - {x}, a);
      forall y | y in bits ensures (if a < x then a else x) <= y {
        assert y == x || y in bits - {x};
      }
      assert IsLowest(bits, if a < x then a else x);
    }
  }

  /** The position of the lowest set bit. */
  function CountRZero(bits: set<nat>): (a: nat)
    requires bits != {}
    ensures IsLowest(bits, a)
  {
    LowestExists(bits);
    var a :| a in bits && forall x :: x in bits ==> a <= x;
    a
  }

  lemma {:induction false} LowestIs(bits: set<nat>, a: nat)
    requires IsLowest(bits, a)
    ensures CountRZero(bits) == a
  {}

  // ---------------------------------------------------------------- factoring

  /** Peel off the leftmost basis vector; the rest is in canonical order. */
  function Factor(t: BladeTag): (r: (nat, BladeTag))
    requires t.Grade() > 1
    ensures r.0 in t.bits && r.1 == BladeTag(t.bits - {r.0}, false)
    ensures r.1.Grade() == t.Grade() - 1
  {
    var a := CountRZero(t.bits);
    if t.IsCanonical() then
      (a, BladeTag(t.bits - {a}, false))
    else
      SecondBit(t.bits, a);
      var b := CountRZero(t.bits - {a});
      (b, BladeTag(t.bits - {b}, false))
  }

  lemma {:induction false} SecondBit(bits: set<nat>, a: nat)
    requires a in bits && |bits| > 1
    ensures bits - {a} != {}
  {
    assert |bits - {a}| == |bits| - 1;
  }

  /** The 1-vector wedge factors of a tag from left to right. */
  function Factors(t: BladeTag): (s: seq<nat>)
    ensures |s| == t.Grade()
    ensures ToSet(s) == t.bits
    ensures Distinct(s)
    decreases t.Grade()
  {
    if t.Grade() == 0 then []
    else if t.Grade() == 1 then
      var a := CountRZero(t.bits);
      assert t.bits == {a} by {
        if x :| x in t.bits && x != a { SecondIsMore(t.bits, a, x); }
      }
      [a]
    else
      var (a, rest) := Factor(t);
      var f := Factors(rest);
      assert ToSet([a] + f) == {a} + ToSet(f);
      assert ([a] + f)[1..] == f && a !in ToSet(f);
      [a] + f
  }

  lemma {:induction false} SecondIsMore(bits: set<nat>, a: nat, x: nat)
    requires a in bits && x in bits && a != x
    ensures |bits| > 1
  {
    assert {a, x} <= bits && |{a, x}| == 2;
    SubsetSize({a, x}, bits);
  }

  lemma {:induction false} SubsetSize<T>(a: set<T>, b: set<T>)
    requires a <= b
    ensures |a| <= |b|
  {
    if a != {} {
      var x :| x in a;
      SubsetSize(a - {x}, b - {x});
    }
  }

  /** The 1-blades of basis vectors. */
  function OneBlades(s: seq<nat>): (r: seq<BladeTag>)
    ensures |r| == |s| && forall i :: 0 <= i < |s| ==> r[i] == BladeTag({s[i]}, false)
  {
    seq(|s|, i requires 0 <= i < |s| => BladeTag({s[i]}, false))
  }

  /** BladeTag::factorize pushes each factor while more than one remains, and then what remains, which is
      the tag itself for scalars and 1-blades. */
  method Factorize(t: BladeTag) returns (result: seq<BladeTag>)
    ensures result == if t.Grade() <= 1 then [t] else OneBlades(Factors(t))
  {
    hide Factors, OneBlades, Factor, Partly;
    var a := t;
    result := [];
    PartlyStart(t);
    while a.Grade() > 1
      invariant Partly(t, result, a)
      decreases a.Grade()
    {
      PartlyNext(t, result, a);
      var (x, rest) := Factor(a);
      result := result + [BladeTag({x}, false)];
      a := rest;
    }
    PartlyEnd(t, result, a);
    result := result + [a];
  }

  /** What is pushed before a remains. */
  ghost predicate Partly(t: BladeTag, result: seq<BladeTag>, a: BladeTag) {
    (t.Grade() <= 1 ==> a == t && result == []) &&
    (t.Grade() > 1 ==> a.Grade() >= 1 && (a == t || a.IsCanonical())) &&
    result + OneBlades(Factors(a)) == OneBlades(Factors(t))
  }

  lemma {:induction false} PartlyStart(t: BladeTag)
    ensures Partly(t, [], t)
  {
    assert [] + OneBlades(Factors(t)) == OneBlades(Factors(t));
  }

  lemma {:induction false} PartlyNext(t: BladeTag, result: seq<BladeTag>, a: BladeTag)
    requires Partly(t, result, a) && a.Grade() > 1
    ensures var (x, rest) := Factor(a); Partly(t, result + [BladeTag({x}, false)], rest)
  {
    hide Factors, OneBlades;
    FactorsNext(a);
    var (x, rest) := Factor(a);
    Regrouped(result, BladeTag({x}, false), OneBlades(Factors(rest)));
  }

  lemma {:induction false} Regrouped(s: seq<BladeTag>, b: BladeTag, t: seq<BladeTag>)
    ensures s + [b] + t == s + ([b] + t)
  {}

  lemma {:induction false} PartlyEnd(t: BladeTag, result: seq<BladeTag>, a: BladeTag)
    requires Partly(t, result, a) && a.Grade() <= 1
    ensures result + [a] == if t.Grade() <= 1 then [t] else OneBlades(Factors(t))
  {
    hide Factors, OneBlades;
    if t.Grade() > 1 { OneBladeLeft(a); }
  }

  lemma {:induction false} FactorsNext(a: BladeTag)
    requires a.Grade() > 1
    ensures var (x, rest) := Factor(a);
            OneBlades(Factors(a)) == [BladeTag({x}, false)] + OneBlades(Factors(rest))
  {
    var (x, rest) := Factor(a);
    assert Factors(a) == [x] + Factors(rest);
  }

  lemma {:induction false} OneBladeLeft(a: BladeTag)
    requires a.Grade() == 1 && a.IsCanonical()
    ensures OneBlades(Factors(a)) == [a]
  {
    var x := CountRZero(a.bits);
    assert ToSet(Factors(a)) == ToSet([x]) == {x};
  }

  // ---------------------------------------------------------------- inversions

  function ToSet(s: seq<nat>): set<nat> { set x | x in s }

  predicate Distinct(s: seq<nat>) {
    s == [] || (s[0] !in s[1..] && Distinct(s[1..]))
  }

  lemma {:induction false} DistinctAt(s: seq<nat>, i: nat, j: nat)
    requires Distinct(s) && i < j < |s|
    ensures s[i] != s[j]
  {
    if i == 0 {
      assert s[j] == s[1..][j - 1];
    } else {
      DistinctAt(s[1..], i - 1, j - 1);
    }
  }

  /** The parts of a list without repeats have no repeats and nothing in common. */
  lemma {:induction false} DistinctParts(s: seq<nat>, t: seq<nat>)
    requires Distinct(s + t)
    ensures Distinct(s) && Distinct(t)
  {
    if s == [] {
      assert s + t == t;
    } else {
      assert (s + t)[1..] == s[1..] + t;
      DistinctParts(s[1..], t);
      assert s[0] !in s[1..] + t;
    }
  }

  predicate Ascending(s: seq<nat>) {
    forall i, j :: 0 <= i < j < |s| ==> s[i] < s[j]
  }

  /** The number of elements of s less than x. */
  function Below(s: seq<nat>, x: nat): nat {
    if s == [] then 0 else (if s[0] < x then 1 else 0) + Below(s[1..], x)
  }

  /** The number of pairs of s that are out of order. */
  function Inversions(s: seq<nat>): nat {
    if s == [] then 0 else Below(s[1..], s[0]) + Inversions(s[1..])
  }

  /** The number of pairs out of order with the first from s and the second from t. */
  function Cross(s: seq<nat>, t: seq<nat>): nat {
    if s == [] then 0 else Below(t, s[0]) + Cross(s[1..], t)
  }

  predicate OddInversions(s: seq<nat>) { Inversions(s) % 2 == 1 }

  /** The wedge product of basis vectors: zero on a repeat, otherwise their union
      with a sign bit that is the parity of the order. */
  function WedgeTag(s: seq<nat>): (t: BladeTag)
  {
    if Distinct(s) then BladeTag(ToSet(s), OddInversions(s)) else ZERO
  }

  lemma {:induction false} BelowConcat(s: seq<nat>, t: seq<nat>, x: nat)
    ensures Below(s + t, x) == Below(s, x) + Below(t, x)
  {
    if s == [] {
      assert s + t == t;
    } else {
      assert (s + t)[1..] == s[1..] + t;
      BelowConcat(s[1..], t, x);
    }
  }

  lemma {:induction false} InversionsConcat(s: seq<nat>, t: seq<nat>)
    ensures Inversions(s + t) == Inversions(s) + Inversions(t) + Cross(s, t)
  {
    if s == [] {
      assert s + t == t;
    } else {
      assert (s + t)[1..] == s[1..] + t;
      BelowConcat(s[1..], t, s[0]);
      InversionsConcat(s[1..], t);
    }
  }

  lemma {:induction false} CrossConcat(s: seq<nat>, t: seq<nat>, u: seq<nat>)
    ensures Cross(s + t, u) == Cross(s, u) + Cross(t, u)
    ensures Cross(u, s + t) == Cross(u, s) + Cross(u, t)
    decreases |s| + |u|
  {
    if s == [] {
      assert s + t == t;
    } else {
      assert (s + t)[1..] == s[1..] + t;
      CrossConcat(s[1..], t, u);
    }
    if u != [] {
      BelowConcat(s, t, u[0]);
      CrossConcat(s, t, u[1..]);
    }
  }

  lemma {:induction false} BelowOfPermutation(s: seq<nat>, t: seq<nat>, x: nat)
    requires multiset(s) == multiset(t)
    ensures Below(s, x) == Below(t, x)
  {
    if s == [] {
      assert |t| == |multiset(t)| == 0;
    } else {
      var i := RemoveOne(s, t);
      BelowOfPermutation(s[1..], t[..i] + t[i + 1..], x);
      BelowConcat(t[..i], t[i + 1..], x);
      BelowConcat(t[..i] + [s[0]], t[i + 1..], x);
      BelowConcat(t[..i], [s[0]], x);
    }
  }

  lemma {:induction false} CrossOfPermutation(s: seq<nat>, t: seq<nat>, u: seq<nat>)
    requires multiset(s) == multiset(t)
    ensures Cross(s, u) == Cross(t, u) && Cross(u, s) == Cross(u, t)
    decreases |s| + |u|
  {
    if s == [] {
      assert |t| == |multiset(t)| == 0;
    } else {
      var i := RemoveOne(s, t);
      CrossOfPermutation(s[1..], t[..i] + t[i + 1..], u);
      CrossConcat(t[..i], t[i + 1..], u);
      CrossConcat(t[..i] + [s[0]], t[i + 1..], u);
      CrossConcat(t[..i], [s[0]], u);
    }
    if u != [] {
      BelowOfPermutation(s, t, u[0]);
      CrossOfPermutation(s, t, u[1..]);
    }
  }

  /** A list without repeats has as many elements as its set; one with repeats has more. */
  lemma {:induction false} SetSize(s: seq<nat>)
    ensures if Distinct(s) then |ToSet(s)| == |s| else |ToSet(s)| < |s|
  {
    if s != [] {
      var x, t := s[0], s[1..];
      SetSize(t);
      assert ToSet(s) == {x} + ToSet(t);
      if x in t {
        assert ToSet(s) == ToSet(t);
      } else {
        assert x !in ToSet(t);
      }
    }
  }

  lemma {:induction false} DistinctMultiset(s: seq<nat>)
    requires Distinct(s)
    ensures multiset(s) == multiset(ToSet(s))
  {
    if s != [] {
      var x, t := s[0], s[1..];
      assert s == [x] + t;
      DistinctMultiset(t);
      assert ToSet(s) == {x} + ToSet(t);
    }
  }

  /** Lists with the same elements, all distinct, are permutations of each other. */
  lemma {:induction false} SameElements(s: seq<nat>, t: seq<nat>)
    requires Distinct(s) && Distinct(t) && ToSet(s) == ToSet(t)
    ensures multiset(s) == multiset(t) && |s| == |t|
  {
    DistinctMultiset(s);
    DistinctMultiset(t);
    SetSize(s);
    SetSize(t);
  }

  // ---------------------------------------------------------------- exchange

  predicate SameParity(a: int, b: int) { (a - b) % 2 == 0 }

  lemma {:induction false} InversionsOfTwo(x: nat, y: nat, b: seq<nat>)
    ensures Inversions([x] + ([y] + b))
         == (if y < x then 1 else 0) + Below(b, x) + Below(b, y) + Inversions(b)
  {
    var t := [y] + b;
    assert ([x] + t)[1..] == t && t[1..] == b;
  }

  lemma {:induction false} AdjacentExchange(a: seq<nat>, x: nat, y: nat, b: seq<nat>)
    requires x != y
    ensures SameParity(Inversions(a + ([x] + ([y] + b))) + 1, Inversions(a + ([y] + ([x] + b))))
  {
    var p, q := [x] + ([y] + b), [y] + ([x] + b);
    InversionsConcat(a, p);
    InversionsConcat(a, q);
    assert multiset(p) == multiset(q);
    CrossOfPermutation(p, q, a);
    InversionsOfTwo(x, y, b);
    InversionsOfTwo(y, x, b);
  }

  /** Moving x right past m takes |m| adjacent exchanges of distinct elements. */
  lemma {:induction false} MovePast(a: seq<nat>, x: nat, m: seq<nat>, b: seq<nat>)
    requires x !in m
    ensures SameParity(Inversions(a + ([x] + (m + b))) + |m|, Inversions(a + (m + ([x] + b))))
    decreases m
  {
    if m == [] {
      assert m + b == b && m + ([x] + b) == [x] + b;
    } else {
      var y, m' := m[0], m[1..];
      AdjacentExchange(a, x, y, m' + b);
      MovePast(a + [y], x, m', b);
      assert m + b == [y] + (m' + b);
      assert (a + [y]) + ([x] + (m' + b)) == a + ([y] + ([x] + (m' + b)));
      assert (a + [y]) + (m' + ([x] + b)) == a + (m + ([x] + b));
    }
  }

  lemma {:induction false} ExchangeSplit(a: seq<nat>, x: nat, m: seq<nat>, y: nat, b: seq<nat>)
    requires x !in m && y !in m && x != y
    ensures SameParity(Inversions(a + ([x] + (m + ([y] + b)))) + 1, Inversions(a + ([y] + (m + ([x] + b)))))
  {
    MovePast(a, x, m, [y] + b);
    MovePast(a, y, m, [x] + b);
    AdjacentExchange(a + m, x, y, b);
    assert a + (m + ([x] + ([y] + b))) == a + m + ([x] + ([y] + b));
    assert a + (m + ([y] + ([x] + b))) == a + m + ([y] + ([x] + b));
  }

  lemma {:induction false} ExchangeParts(s: seq<nat>, i: nat, j: nat)
    requires i < j < |s|
    ensures s == s[..i] + ([s[i]] + (s[i + 1..j] + ([s[j]] + s[j + 1..])))
    ensures s[i := s[j]][j := s[i]] == s[..i] + ([s[j]] + (s[i + 1..j] + ([s[i]] + s[j + 1..])))
  {}

  lemma {:induction false} BetweenDiffers(s: seq<nat>, i: nat, j: nat)
    requires i < j < |s| && Distinct(s)
    ensures s[i] !in s[i + 1..j] && s[j] !in s[i + 1..j] && s[i] != s[j]
  {
    DistinctAt(s, i, j);
    forall k | i < k < j ensures s[k] != s[i] && s[k] != s[j] {
      DistinctAt(s, i, k);
      DistinctAt(s, k, j);
    }
  }

  /** Exchanging any two elements of a list without repeats flips the parity. */
  lemma {:induction false} ExchangeFlips(s: seq<nat>, i: nat, j: nat)
    requires i < j < |s| && Distinct(s)
    ensures SameParity(Inversions(s) + 1, Inversions(s[i := s[j]][j := s[i]]))
  {
    BetweenDiffers(s, i, j);
    ExchangeSplit(s[..i], s[i], s[i + 1..j], s[j], s[j + 1..]);
    ExchangeParts(s, i, j);
  }

  lemma {:induction false} AscendingHasNoInversions(s: seq<nat>)
    requires Ascending(s)
    ensures Inversions(s) == 0
  {
    if s != [] {
      NoneBelow(s[1..], s[0]);
      AscendingHasNoInversions(s[1..]);
    }
  }

  lemma {:induction false} NoneBelow(s: seq<nat>, x: nat)
    requires forall i :: 0 <= i < |s| ==> s[i] >= x
    ensures Below(s, x) == 0
  {
    if s != [] {
      NoneBelow(s[1..], x);
    }
  }

  lemma {:induction false} PermutationKeeps(s: seq<nat>, t: seq<nat>)
    requires multiset(s) == multiset(t)
    ensures |s| == |t| && ToSet(s) == ToSet(t) && (Distinct(s) ==> Distinct(t))
  {
    forall x ensures x in s <==> x in t {
      assert x in multiset(s) <==> x in multiset(t);
    }
    assert |s| == |multiset(s)| && |t| == |multiset(t)|;
    SetSize(s);
    SetSize(t);
  }

  /** `s` is what `before` can become after some exchanges counted by `sign`. */
  ghost predicate Exchanged(before: seq<nat>, s: seq<nat>, sign: bool) {
    && multiset(s) == multiset(before)
    && Distinct(s)
    && SameParity(Inversions(s) + (if sign then 1 else 0), Inversions(before))
  }

  lemma {:induction false} ExchangedStep(before: seq<nat>, s: seq<nat>, sign: bool, i: nat, j: nat)
    requires Exchanged(before, s, sign) && i < j < |s|
    ensures Exchanged(before, s[i := s[j]][j := s[i]], !sign)
  {
    ExchangeFlips(s, i, j);
    PermutationKeeps(s, s[i := s[j]][j := s[i]]);
  }

  lemma {:induction false} ExchangedSorted(before: seq<nat>, s: seq<nat>, sign: bool)
    requires Exchanged(before, s, sign) && SortedTo(s, |s|)
    ensures WedgeTag(before) == BladeTag(ToSet(s), sign)
    ensures Ascending(s) && Distinct(before) && multiset(s) == multiset(before)
  {
    AscendingHasNoInversions(s);
    PermutationKeeps(s, before);
  }

  lemma {:induction false} ExchangedStart(before: seq<nat>)
    requires Distinct(before)
    ensures Exchanged(before, before, false) && SortedTo(before, 0)
  {}

  lemma {:induction false} SortedToNext(s: seq<nat>, i: nat)
    requires SortedTo(s, i) && i < |s| && forall q :: i < q < |s| ==> s[i] < s[q]
    ensures SortedTo(s, i + 1)
  {}

  /** The first i elements are in order and less than the rest. */
  ghost predicate SortedTo(s: seq<nat>, i: nat) {
    forall p, q :: 0 <= p < i && p < q < |s| ==> s[p] < s[q]
  }

  lemma {:induction false} ExchangedDiffer(before: seq<nat>, s: seq<nat>, sign: bool, i: nat, j: nat)
    requires Exchanged(before, s, sign) && i < j < |s|
    ensures s[i] != s[j]
  {
    DistinctAt(s, i, j);
  }

  lemma {:induction false} SortedToExchange(s: seq<nat>, i: nat, j: nat)
    requires SortedTo(s, i) && i < j < |s|
    ensures SortedTo(s[i := s[j]][j := s[i]], i)
  {
    var t := s[i := s[j]][j := s[i]];
    forall p, q | 0 <= p < i && p < q < |t| ensures t[p] < t[q] {
      assert s[p] < s[i] && s[p] < s[j] && s[p] < s[q];
    }
  }

  /** The bitwise or of 1-blades. */
  method Union(tags: array<nat>) returns (bits: set<nat>)
    ensures bits == ToSet(tags[..])
  {
    bits := {};
    for i := 0 to tags.Length
      invariant bits == ToSet(tags[..i])
    {
      bits := bits + {tags[i]};
      assert tags[..i + 1] == tags[..i] + [tags[i]];
    }
    assert tags[..tags.Length] == tags[..];
  }

  /** The inner loop of the sort brings the least of the rest to position i. */
  method ExchangeFrom(tags: array<nat>, i: nat, start: bool, ghost before: seq<nat>) returns (sign: bool)
    requires i < tags.Length
    requires Exchanged(before, tags[..], start) && SortedTo(tags[..], i)
    modifies tags
    ensures Exchanged(before, tags[..], sign) && SortedTo(tags[..], i + 1)
  {
    sign := start;
    for j := i + 1 to tags.Length
      invariant Exchanged(before, tags[..], sign) && SortedTo(tags[..], i)
      invariant forall q :: i < q < j ==> tags[i] < tags[q]
    {
      ExchangedDiffer(before, tags[..], sign, i, j);
      if !(tags[i] <= tags[j]) {
        ghost var s := tags[..];
        ExchangedStep(before, s, sign, i, j);
        SortedToExchange(s, i, j);
        tags[i], tags[j] := tags[j], tags[i];
        assert tags[..] == s[i := s[j]][j := s[i]];
        sign := !sign;
      }
    }
    SortedToNext(tags[..], i);
  }

  /** BladeTag::create sorts the 1-blades in place by exchange. */
  method Create(tags: array<nat>) returns (t: BladeTag)
    modifies tags
    ensures t == WedgeTag(old(tags[..]))
    ensures multiset(tags[..]) == multiset(old(tags[..]))
    ensures Distinct(old(tags[..])) ==> Ascending(tags[..])
    ensures !Distinct(old(tags[..])) ==> tags[..] == old(tags[..])
  {
    ghost var before := tags[..];
    if tags.Length == 0 {
      return SCALAR;
    }
    SetSize(before);
    var sum := Union(tags);
    if tags.Length > 1 && |sum| < tags.Length {
      return ZERO;
    }
    var sign := false;
    ExchangedStart(before);
    for i := 0 to tags.Length
      invariant Exchanged(before, tags[..], sign) && SortedTo(tags[..], i)
    {
      sign := ExchangeFrom(tags, i, sign, before);
    }
    ExchangedSorted(before, tags[..], sign);
    var bits := Union(tags);
    t := BladeTag(bits, sign);
  }

  // ---------------------------------------------------------------- tags are wedges

  /** Factoring a canonical tag lists its basis vectors in ascending order. */
  lemma {:induction false} FactorsAscending(t: BladeTag)
    requires t.IsCanonical()
    ensures Ascending(Factors(t))
    decreases t.Grade()
  {
    if t.Grade() > 1 {
      var (a, rest) := Factor(t);
      FactorsAscending(rest);
      forall x | x in Factors(rest) ensures a < x {
        assert x in ToSet(Factors(rest));
        assert x in t.bits && x != a;
      }
      AscendingCons(a, Factors(rest));
    }
  }

  lemma {:induction false} AscendingCons(a: nat, f: seq<nat>)
    requires Ascending(f) && forall x :: x in f ==> a < x
    ensures Ascending([a] + f)
  {
    var s := [a] + f;
    forall i, j | 0 <= i < j < |s| ensures s[i] < s[j] {
      assert s[j] == f[j - 1] && f[j - 1] in f;
      assert i > 0 ==> s[i] == f[i - 1];
    }
  }

  lemma {:induction false} FactorsOfSwapped(t: BladeTag)
    requires t.Grade() > 1 && !t.IsCanonical()
    ensures Inversions(Factors(t)) == 1
  {
    var (b, rest) := Factor(t);
    var a := CountRZero(t.bits);
    assert rest.bits == t.bits - {b};
    LowestIs(rest.bits, a);
    FactorsAscending(rest);
    var f := Factors(rest);
    assert f[0] == a by {
      if rest.Grade() > 1 {
        assert Factor(rest).0 == a;
      }
    }
    AscendingHasNoInversions(f);
    forall i | 0 <= i < |f[1..]| ensures f[1..][i] >= b {
      assert f[i + 1] in ToSet(f);
      assert f[i + 1] != a;
      assert f[i + 1] in t.bits - {a};
    }
    NoneBelow(f[1..], b);
    assert Below(f, b) == 1;
    assert Factors(t) == [b] + f;
    assert ([b] + f)[1..] == f;
  }

  /** Wedging the factors of a tag gives back the tag, including its sign. */
  lemma {:induction false} WedgeOfFactors(t: BladeTag)
    requires t.Valid() && !t.IsZero()
    ensures WedgeTag(Factors(t)) == t
  {
    if t.IsCanonical() {
      FactorsAscending(t);
      AscendingHasNoInversions(Factors(t));
    } else {
      assert t.bits != {};
      FactorsOfSwapped(t);
    }
  }

  /** A wedge of basis vectors is a well-formed tag. */
  lemma {:induction false} WedgeValid(s: seq<nat>)
    ensures WedgeTag(s).Valid()
  {
    if Distinct(s) {
      SetSize(s);
      if |s| == 1 {
        assert s[1..] == [];
        assert Below([], s[0]) == 0 && Inversions([]) == 0;
      }
    }
  }

  // ---------------------------------------------------------------- products of tags

  /** createBladeType: the wedge of all the factors, zero if an operand is zero. */
  function Product(a: BladeTag, b: BladeTag): BladeTag {
    if a.IsZero() || b.IsZero() then ZERO else WedgeTag(Factors(a) + Factors(b))
  }

  lemma {:induction false} ParityReplace(s: seq<nat>, s': seq<nat>, t: seq<nat>)
    requires multiset(s) == multiset(s')
    requires OddInversions(s) == OddInversions(s')
    ensures OddInversions(s + t) == OddInversions(s' + t) && OddInversions(t + s) == OddInversions(t + s')
  {
    hide Inversions, Cross;
    CrossOfPermutation(s, s', t);
    InversionsConcat(s, t);
    InversionsConcat(s', t);
    OddOfSum(Inversions(s), Inversions(s'), Inversions(t) + Cross(s, t));
    InversionsConcat(t, s);
    InversionsConcat(t, s');
    OddOfSum(Inversions(s), Inversions(s'), Inversions(t) + Cross(t, s));
  }

  lemma {:induction false} OddOfSum(a: nat, b: nat, c: nat)
    requires a % 2 == 1 <==> b % 2 == 1
    ensures (a + c) % 2 == 1 <==> (b + c) % 2 == 1
  {}

  lemma {:induction false} WedgeOfPermutation(s: seq<nat>, t: seq<nat>)
    requires multiset(s) == multiset(t) && OddInversions(s) == OddInversions(t)
    ensures WedgeTag(s) == WedgeTag(t)
  {
    PermutationKeeps(s, t);
    PermutationKeeps(t, s);
  }

  /** Only the set and the parity of a list matter to the wedge of a longer list. */
  lemma {:induction false} WedgeReplace(s: seq<nat>, s': seq<nat>, t: seq<nat>)
    requires Distinct(s) && Distinct(s') && ToSet(s) == ToSet(s')
    requires OddInversions(s) == OddInversions(s')
    ensures WedgeTag(s + t) == WedgeTag(s' + t) && WedgeTag(t + s) == WedgeTag(t + s')
  {
    SameElements(s, s');
    ParityReplace(s, s', t);
    assert multiset(s + t) == multiset(s' + t) && multiset(t + s) == multiset(t + s');
    WedgeOfPermutation(s + t, s' + t);
    WedgeOfPermutation(t + s, t + s');
  }

  /** The wedge of a list may first combine its front or its back into one tag. */
  lemma {:induction false} WedgeGroup(s: seq<nat>, t: seq<nat>)
    ensures WedgeTag(s + t) == if WedgeTag(s).IsZero() then ZERO else WedgeTag(Factors(WedgeTag(s)) + t)
    ensures WedgeTag(t + s) == if WedgeTag(s).IsZero() then ZERO else WedgeTag(t + Factors(WedgeTag(s)))
  {
    var w := WedgeTag(s);
    if !Distinct(s) {
      if Distinct(s + t) { DistinctParts(s, t); }
      if Distinct(t + s) { DistinctParts(t, s); }
    } else {
      SetSize(s);
      assert !w.IsZero() by {
        assert Inversions([]) == 0;
        assert |ToSet(s)| == 0 ==> s == [];
      }
      WedgeValid(s);
      WedgeOfFactors(w);
      var s' := Factors(w);
      WedgeReplace(s, s', t);
    }
  }

  lemma {:induction false} ProductOfProducts(a: BladeTag, b: BladeTag, c: BladeTag)
    requires !a.IsZero() && !b.IsZero() && !c.IsZero()
    ensures Product(Product(a, b), c) == WedgeTag(Factors(a) + Factors(b) + Factors(c))
    ensures Product(c, Product(a, b)) == WedgeTag(Factors(c) + (Factors(a) + Factors(b)))
  {
    hide Factors, WedgeTag;
    WedgeGroup(Factors(a) + Factors(b), Factors(c));
  }

  lemma {:induction false} ProductAssociative(a: BladeTag, b: BladeTag, c: BladeTag)
    ensures Product(Product(a, b), c) == Product(a, Product(b, c))
  {
    hide Factors, WedgeTag;
    if !a.IsZero() && !b.IsZero() && !c.IsZero() {
      ProductOfProducts(a, b, c);
      ProductOfProducts(b, c, a);
      assert Factors(a) + Factors(b) + Factors(c) == Factors(a) + (Factors(b) + Factors(c));
    }
  }

  /** Each pair of elements from s and t, all distinct, is out of order one way. */
  lemma {:induction false} CrossBothWays(s: seq<nat>, t: seq<nat>)
    requires Distinct(s + t)
    ensures Cross(s, t) + Cross(t, s) == |s| * |t|
  {
    if s == [] {
      CrossEmpty(t);
    } else {
      var x, s' := s[0], s[1..];
      assert s' + t == (s + t)[1..];
      CrossBothWays(s', t);
      assert s == [x] + s';
      CrossConcat([x], s', t);
      assert x !in s' + t;
      CrossOne(x, t);
      assert Cross([x], t) == Below(t, x) by { assert [x][1..] == []; }
      TimesNext(|s'|, |t|);
    }
  }

  lemma {:induction false} TimesNext(a: nat, b: nat)
    ensures (a + 1) * b == a * b + b
  {}

  lemma {:induction false} CrossEmpty(t: seq<nat>)
    ensures Cross(t, []) == 0
  {
    if t != [] {
      CrossEmpty(t[1..]);
    }
  }

  lemma {:induction false} CrossOne(x: nat, t: seq<nat>)
    requires forall i :: 0 <= i < |t| ==> t[i] != x
    ensures Below(t, x) + Cross(t, [x]) == |t|
  {
    if t != [] {
      CrossOne(x, t[1..]);
      assert [x][1..] == [];
      assert Below([x], t[0]) == if x < t[0] then 1 else 0;
    }
  }

  lemma {:induction false} ParityOfParts(a: int, c: int, d: int, p: int)
    requires c + d == p
    ensures (a + d) % 2 == 1 <==> ((a + c) % 2 == 1) != (p % 2 == 1)
  {}

  lemma {:induction false} OddExchanged(x: seq<nat>, y: seq<nat>)
    requires Distinct(x + y)
    ensures OddInversions(y + x) == (OddInversions(x + y) != (|x| * |y| % 2 == 1))
  {
    InversionsConcat(x, y);
    InversionsConcat(y, x);
    CrossBothWays(x, y);
    ParityOfParts(Inversions(x) + Inversions(y), Cross(x, y), Cross(y, x), |x| * |y|);
  }

  lemma {:induction false} WedgeExchanged(x: seq<nat>, y: seq<nat>)
    requires Distinct(x + y)
    ensures Distinct(y + x) && ToSet(y + x) == ToSet(x + y) && |ToSet(x + y)| == |x| + |y|
  {
    assert multiset(x + y) == multiset(y + x);
    PermutationKeeps(x + y, y + x);
    SetSize(x + y);
  }

  /** B ∧ A == (-1)^(|A||B|) A ∧ B */
  lemma {:induction false} ProductGradedAnticommutative(a: BladeTag, b: BladeTag)
    ensures Product(b, a) == if a.Grade() * b.Grade() % 2 == 1 then Product(a, b).OSwap() else Product(a, b)
  {
    if !a.IsZero() && !b.IsZero() {
      var x, y := Factors(a), Factors(b);
      if Distinct(x + y) {
        WedgeExchanged(x, y);
        OddExchanged(x, y);
        if a.Grade() * b.Grade() % 2 == 1 {
          assert a.Grade() != 0 && b.Grade() != 0;
        }
      } else if Distinct(y + x) {
        WedgeExchanged(y, x);
      }
    }
  }

  // ---------------------------------------------------------------- reversal

  function Reversed(s: seq<nat>): (r: seq<nat>)
    ensures |r| == |s| && multiset(r) == multiset(s)
  {
    if s == [] then [] else
      assert s == [s[0]] + s[1..];
      Reversed(s[1..]) + [s[0]]
  }

  /** The number of pairs among g things. */
  function Pairs(g: nat): nat { if g == 0 then 0 else Pairs(g - 1) + g - 1 }

  lemma {:induction false} InversionsOfReversed(s: seq<nat>)
    requires Ascending(s)
    ensures Inversions(Reversed(s)) == Pairs(|s|)
  {
    if s != [] {
      var x, r := s[0], Reversed(s[1..]);
      InversionsOfReversed(s[1..]);
      InversionsConcat(r, [x]);
      assert Inversions([x]) == 0 by { assert [x][1..] == []; }
      FirstIsLeast(s);
      NoneBelow(r, x);
      CrossOne(x, r);
    }
  }

  lemma {:induction false} FirstIsLeast(s: seq<nat>)
    requires Ascending(s) && s != []
    ensures forall i :: 0 <= i < |Reversed(s[1..])| ==> Reversed(s[1..])[i] > s[0]
  {
    var x, r := s[0], Reversed(s[1..]);
    forall i | 0 <= i < |r|
      ensures r[i] > x
    {
      assert r[i] in multiset(r);
      assert r[i] in multiset(s[1..]);
    }
  }

  lemma {:induction false} PairsParity(g: nat)
    ensures Pairs(g) % 2 == 1 <==> g % 4 == 2 || g % 4 == 3
  {
    if g >= 4 {
      PairsParity(g - 4);
      assert Pairs(g - 1) == Pairs(g - 2) + g - 2 && Pairs(g - 2) == Pairs(g - 3) + g - 3;
      assert Pairs(g) == Pairs(g - 4) + 4 * (g - 4) + 6;
    } else {
      assert Pairs(0) == 0 && Pairs(1) == 0 && Pairs(2) == 1 && Pairs(3) == 3;
    }
  }

  /** Sorting the factors of a canonical tag again from the reverse order negates
      exactly in the grades for which shouldReverseNegate holds. */
  lemma {:induction false} ReverseNegateIsResorting(t: BladeTag)
    requires t.IsCanonical()
    ensures WedgeTag(Reversed(Factors(t))) == if t.ShouldReverseNegate() then t.OSwap() else t
  {
    var s := Factors(t);
    FactorsAscending(t);
    InversionsOfReversed(s);
    PairsParity(|s|);
    PermutationKeeps(s, Reversed(s));
  }
}
