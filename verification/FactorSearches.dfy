/**
 The budgeted search for the cheapest factoring (getCubeChoices, applyCubeChoice,
 getFactoredCost and FactorSum in geomalg/lib/Geomalg/Passes.cpp).

 A product is the sorted list of the ids of its factors.  The memo table is keyed
 by the terms of a sum in any order, which the original gets by sorting them.
 */
module FactorSearches {
  import opened Permutations
  import opened Options
  import opened Factorings

  type Ids = seq<nat>

  type Terms = seq<Ids>

  predicate IsSorted(s: Ids) {
    s == [] || (NotBelow(s[1..], s[0]) && IsSorted(s[1..]))
  }

  predicate NotBelow(s: Ids, x: nat) {
    s == [] || (x <= s[0] && NotBelow(s[1..], x))
  }

  ghost predicate AllSorted(terms: Terms) {
    forall i :: 0 <= i < |terms| ==> IsSorted(terms[i])
  }

  /** The products that lists of ids stand for. */
  ghost function Abs(terms: Terms): (r: seq<Product>)
    ensures |r| == |terms| && forall i :: 0 <= i < |r| ==> r[i] == multiset(terms[i])
  {
    seq(|terms|, i requires 0 <= i < |terms| => multiset(terms[i]))
  }

  // ---------------------------------------------------------------- sorted lists

  /** std::set_intersection */
  function Intersect(s: Ids, t: Ids): Ids
    decreases |s| + |t|
  {
    if s == [] || t == [] then []
    else if s[0] < t[0] then Intersect(s[1..], t)
    else if t[0] < s[0] then Intersect(s, t[1..])
    else [s[0]] + Intersect(s[1..], t[1..])
  }

  /** std::set_difference */
  function Difference(s: Ids, t: Ids): Ids
    decreases |s| + |t|
  {
    if s == [] || t == [] then s
    else if s[0] < t[0] then [s[0]] + Difference(s[1..], t)
    else if t[0] < s[0] then Difference(s, t[1..])
    else Difference(s[1..], t[1..])
  }

  lemma {:induction false} HeadTail(s: Ids)
    requires s != []
    ensures multiset(s) == multiset{s[0]} + multiset(s[1..])
  {
    assert s == [s[0]] + s[1..];
  }

  lemma {:induction false} NotBelowIn(s: Ids, x: nat, y: nat)
    requires NotBelow(s, x) && y in s
    ensures x <= y
  {
    if y != s[0] {
      assert s == [s[0]] + s[1..];
      NotBelowIn(s[1..], x, y);
    }
  }

  lemma {:induction false} NotBelowLess(s: Ids, x: nat, y: nat)
    requires NotBelow(s, x) && y <= x
    ensures NotBelow(s, y)
  {
    if s != [] {
      NotBelowLess(s[1..], x, y);
    }
  }

  lemma {:induction false} AbsentBelow(s: Ids, x: nat)
    requires IsSorted(s) && s != [] && x < s[0]
    ensures x !in multiset(s)
  {
    if x in s {
      NotBelowIn(s, s[0], x);
    }
  }

  lemma {:induction false} MeetLess(a: nat, s: Product, t: Product)
    requires a !in t
    ensures (multiset{a} + s) * t == s * t
  {}

  lemma {:induction false} MeetEqual(a: nat, s: Product, t: Product)
    ensures (multiset{a} + s) * (multiset{a} + t) == multiset{a} + s * t
  {}

  lemma {:induction false} LessKept(a: nat, s: Product, t: Product)
    requires a !in t
    ensures (multiset{a} + s) - t == multiset{a} + (s - t)
  {}

  lemma {:induction false} LessAbsent(a: nat, s: Product, t: Product)
    requires a !in t
    ensures t - (multiset{a} + s) == t - s
  {}

  lemma {:induction false} LessBoth(a: nat, s: Product, t: Product)
    ensures (multiset{a} + s) - (multiset{a} + t) == s - t
  {}

  lemma {:induction false} IntersectIs(s: Ids, t: Ids)
    requires IsSorted(s) && IsSorted(t)
    ensures multiset(Intersect(s, t)) == multiset(s) * multiset(t)
    decreases |s| + |t|
  {
    if s == [] || t == [] {
    } else if s[0] < t[0] {
      HeadTail(s);
      AbsentBelow(t, s[0]);
      MeetLess(s[0], multiset(s[1..]), multiset(t));
      IntersectIs(s[1..], t);
    } else if t[0] < s[0] {
      HeadTail(t);
      AbsentBelow(s, t[0]);
      MeetLess(t[0], multiset(t[1..]), multiset(s));
      IntersectIs(s, t[1..]);
    } else {
      HeadTail(s);
      HeadTail(t);
      MeetEqual(s[0], multiset(s[1..]), multiset(t[1..]));
      IntersectIs(s[1..], t[1..]);
    }
  }

  lemma {:induction false} IntersectSorted(s: Ids, t: Ids, x: nat)
    requires IsSorted(s) && NotBelow(s, x)
    ensures IsSorted(Intersect(s, t)) && NotBelow(Intersect(s, t), x)
    decreases |s| + |t|
  {
    if s == [] || t == [] {
    } else if s[0] < t[0] {
      IntersectSorted(s[1..], t, x);
    } else if t[0] < s[0] {
      IntersectSorted(s, t[1..], x);
    } else {
      IntersectSorted(s[1..], t[1..], s[0]);
      Prepend(s[0], Intersect(s[1..], t[1..]), x);
    }
  }

  lemma {:induction false} Prepend(a: nat, r: Ids, x: nat)
    requires IsSorted(r) && NotBelow(r, a) && x <= a
    ensures IsSorted([a] + r) && NotBelow([a] + r, x)
  {
    assert ([a] + r)[1..] == r;
    NotBelowLess(r, a, x);
  }

  lemma {:induction false} DifferenceKept(s: Ids, t: Ids, r: Ids)
    requires s != [] && s[0] !in multiset(t) && multiset(r) == multiset(s[1..]) - multiset(t)
    ensures multiset([s[0]] + r) == multiset(s) - multiset(t)
  {
    HeadTail(s);
    LessKept(s[0], multiset(s[1..]), multiset(t));
  }

  lemma {:induction false} DifferenceDropped(s: Ids, t: Ids)
    requires t != [] && t[0] !in multiset(s)
    ensures multiset(s) - multiset(t) == multiset(s) - multiset(t[1..])
  {
    HeadTail(t);
    LessAbsent(t[0], multiset(t[1..]), multiset(s));
  }

  lemma {:induction false} DifferenceBoth(s: Ids, t: Ids)
    requires s != [] && t != [] && s[0] == t[0]
    ensures multiset(s) - multiset(t) == multiset(s[1..]) - multiset(t[1..])
  {
    HeadTail(s);
    HeadTail(t);
    LessBoth(s[0], multiset(s[1..]), multiset(t[1..]));
  }

  lemma {:induction false} DifferenceIs(s: Ids, t: Ids)
    requires IsSorted(s) && IsSorted(t)
    ensures multiset(Difference(s, t)) == multiset(s) - multiset(t)
    decreases |s| + |t|
  {
    if s == [] || t == [] {
    } else if s[0] < t[0] {
      AbsentBelow(t, s[0]);
      DifferenceIs(s[1..], t);
      DifferenceKept(s, t, Difference(s[1..], t));
    } else if t[0] < s[0] {
      AbsentBelow(s, t[0]);
      DifferenceIs(s, t[1..]);
      DifferenceDropped(s, t);
    } else {
      DifferenceIs(s[1..], t[1..]);
      DifferenceBoth(s, t);
    }
  }

  lemma {:induction false} DifferenceSorted(s: Ids, t: Ids, x: nat)
    requires IsSorted(s) && NotBelow(s, x)
    ensures IsSorted(Difference(s, t)) && NotBelow(Difference(s, t), x)
    decreases |s| + |t|
  {
    if s == [] || t == [] {
    } else if s[0] < t[0] {
      DifferenceSorted(s[1..], t, s[0]);
      Prepend(s[0], Difference(s[1..], t), x);
    } else if t[0] < s[0] {
      DifferenceSorted(s, t[1..], x);
    } else {
      DifferenceSorted(s[1..], t[1..], x);
    }
  }

  lemma {:induction false} NotBelowZero(s: Ids)
    ensures NotBelow(s, 0)
  {
    if s != [] {
      NotBelowZero(s[1..]);
    }
  }

  lemma {:induction false} LastIsLargest(s: Ids, x: nat)
    requires IsSorted(s) && x in s
    ensures x <= s[|s| - 1]
  {
    if |s| > 1 {
      assert s == [s[0]] + s[1..];
      if x in s[1..] {
        LastIsLargest(s[1..], x);
      } else {
        NotBelowIn(s[1..], s[0], s[1..][|s| - 2]);
      }
    }
  }

  lemma {:induction false} SortedSnoc(s: Ids, k: nat, x: nat)
    requires IsSorted(s) && NotBelow(s, x) && x <= k && (s == [] || s[|s| - 1] <= k)
    ensures IsSorted(s + [k]) && NotBelow(s + [k], x)
  {
    if s == [] {
      assert [] + [k] == [k];
    } else {
      LastIsLargest(s, s[0]);
      SortedSnoc(s[1..], k, s[0]);
      NotBelowLess(s[1..] + [k], s[0], x);
      assert (s + [k])[1..] == s[1..] + [k];
    }
  }

  // ---------------------------------------------------------------- choices

  /** A choice of terms, the factors they share and the multiplications it saves. */
  datatype CubeChoice = CubeChoice(mask: seq<bool>, cube: Ids, savings: int)

  ghost function MaskOf(terms: seq<Product>, id: nat, skip: bool): (m: seq<bool>)
    ensures |m| == |terms|
  {
    seq(|terms|, i requires 0 <= i < |terms| => IsChosen(terms[i], id, skip))
  }

  ghost predicate IsChoice(terms: seq<Product>, c: CubeChoice, id: nat, skip: bool) {
    && Worthwhile(terms, id, skip)
    && c.mask == MaskOf(terms, id, skip)
    && IsSorted(c.cube) && multiset(c.cube) == Cube(Chosen(terms, id, skip))
    && c.savings == Savings(Chosen(terms, id, skip), |c.cube|)
  }

  lemma {:induction false} MaskDetermines(terms: seq<Product>, id: nat, skip: bool, id': nat, skip': bool)
    requires MaskOf(terms, id, skip) == MaskOf(terms, id', skip')
    ensures Chosen(terms, id, skip) == Chosen(terms, id', skip')
    ensures Others(terms, id, skip) == Others(terms, id', skip')
  {
    if terms != [] {
      assert MaskOf(terms, id, skip)[0] == MaskOf(terms, id', skip')[0];
      forall i | 0 <= i < |terms[1..]| ensures MaskOf(terms[1..], id, skip)[i] == MaskOf(terms[1..], id', skip')[i] {
        assert MaskOf(terms, id, skip)[i + 1] == MaskOf(terms, id', skip')[i + 1];
      }
      assert MaskOf(terms[1..], id, skip) == MaskOf(terms[1..], id', skip');
      MaskDetermines(terms[1..], id, skip, id', skip');
    }
  }

  lemma {:induction false} ChosenSnoc(terms: seq<Product>, t: Product, id: nat, skip: bool)
    ensures Chosen(terms + [t], id, skip)
         == if IsChosen(t, id, skip) then Chosen(terms, id, skip) + [t] else Chosen(terms, id, skip)
    ensures Others(terms + [t], id, skip)
         == if IsChosen(t, id, skip) then Others(terms, id, skip) else Others(terms, id, skip) + [t]
  {
    if terms == [] {
      assert terms + [t] == [t];
      var none: seq<Product> := [t][1..];
      assert none == [];
    } else {
      assert (terms + [t])[1..] == terms[1..] + [t];
      ChosenSnoc(terms[1..], t, id, skip);
    }
  }

  lemma {:induction false} CubeSnoc(chosen: seq<Product>, t: Product)
    requires chosen != []
    ensures Cube(chosen + [t]) == Cube(chosen) * t
  {
    if |chosen| == 1 {
      assert (chosen + [t])[1..] == [t];
    } else {
      assert (chosen + [t])[1..] == chosen[1..] + [t];
      CubeSnoc(chosen[1..], t);
    }
  }

  lemma {:induction false} AbsSnoc(terms: Terms, i: nat)
    requires i < |terms|
    ensures Abs(terms[..i + 1]) == Abs(terms[..i]) + [multiset(terms[i])]
  {}

  /** stable_sort by falling savings. */
  function StableSort(s: seq<CubeChoice>): (r: seq<CubeChoice>)
    ensures multiset(r) == multiset(s)
    ensures BySavings(r)
  {
    if s == [] then [] else
      assert s == [s[0]] + s[1..];
      Insert(s[0], StableSort(s[1..]))
  }

  /** The choices that save k, in order. */
  function Saving(s: seq<CubeChoice>, k: int): seq<CubeChoice> {
    if s == [] then [] else (if s[0].savings == k then [s[0]] else []) + Saving(s[1..], k)
  }

  /** Choices that save the same stay in order. */
  lemma {:induction false} SortIsStable(s: seq<CubeChoice>, k: int)
    ensures Saving(StableSort(s), k) == Saving(s, k)
  {
    if s != [] {
      SortIsStable(s[1..], k);
      InsertIsStable(s[0], StableSort(s[1..]), k);
    }
  }

  lemma {:induction false} InsertIsStable(c: CubeChoice, t: seq<CubeChoice>, k: int)
    requires BySavings(t)
    ensures Saving(Insert(c, t), k) == (if c.savings == k then [c] else []) + Saving(t, k)
  {
    if t == [] || c.savings >= t[0].savings {
      assert ([c] + t)[1..] == t;
    } else {
      InsertIsStable(c, t[1..], k);
      var r := Insert(c, t[1..]);
      assert ([t[0]] + r)[1..] == r;
    }
  }

  function Insert(c: CubeChoice, t: seq<CubeChoice>): (r: seq<CubeChoice>)
    requires BySavings(t)
    ensures multiset(r) == multiset{c} + multiset(t)
    ensures BySavings(r)
    ensures forall k :: NoMore(t, k) && c.savings <= k ==> NoMore(r, k)
  {
    if t == [] || c.savings >= t[0].savings then
      InsertFirst(c, t);
      [c] + t
    else
      assert t == [t[0]] + t[1..];
      var r := Insert(c, t[1..]);
      assert ([t[0]] + r)[1..] == r;
      [t[0]] + r
  }

  lemma {:induction false} InsertFirst(c: CubeChoice, t: seq<CubeChoice>)
    requires BySavings(t) && (t == [] || c.savings >= t[0].savings)
    ensures BySavings([c] + t) && forall k :: NoMore(t, k) && c.savings <= k ==> NoMore([c] + t, k)
  {
    assert ([c] + t)[1..] == t;
    if t != [] {
      NoMoreRaise(t[1..], t[0].savings, c.savings);
    }
  }

  lemma {:induction false} NoMoreRaise(s: seq<CubeChoice>, j: int, k: int)
    requires NoMore(s, j) && j <= k
    ensures NoMore(s, k)
  {
    if s != [] {
      NoMoreRaise(s[1..], j, k);
    }
  }

  predicate NoMore(s: seq<CubeChoice>, k: int) {
    s == [] || (s[0].savings <= k && NoMore(s[1..], k))
  }

  predicate BySavings(s: seq<CubeChoice>) {
    s == [] || (NoMore(s[1..], s[0].savings) && BySavings(s[1..]))
  }

  // ---------------------------------------------------------------- getCubeChoices

  /** The distinct ids of the terms in the order in which they appear. */
  method CollectIds(terms: Terms) returns (ids: seq<nat>)
    ensures forall i, x :: 0 <= i < |terms| && x in terms[i] ==> x in ids
  {
    ids := [];
    for i := 0 to |terms|
      invariant forall k, x :: 0 <= k < i && x in terms[k] ==> x in ids
    {
      for j := 0 to |terms[i]|
        invariant forall k, x :: 0 <= k < i && x in terms[k] ==> x in ids
        invariant forall k :: 0 <= k < j ==> terms[i][k] in ids
      {
        if terms[i][j] !in ids {
          ids := ids + [terms[i][j]];
        }
      }
    }
  }

  /** The terms chosen so far and the factors they share. */
  ghost predicate ChosenSoFar(terms: seq<Product>, id: nat, skip: bool, mask: seq<bool>, n: nat, cube: Ids) {
    && mask == MaskOf(terms, id, skip)
    && n == |Chosen(terms, id, skip)|
    && IsSorted(cube)
    && (n > 0 ==> multiset(cube) == Cube(Chosen(terms, id, skip)))
  }

  lemma {:induction false} MaskSnoc(terms: seq<Product>, t: Product, id: nat, skip: bool)
    ensures MaskOf(terms + [t], id, skip) == MaskOf(terms, id, skip) + [IsChosen(t, id, skip)]
  {}

  lemma {:induction false} ChosenStep(terms: seq<Product>, t: Ids, id: nat, skip: bool, mask: seq<bool>, n: nat,
                                      cube: Ids)
    requires ChosenSoFar(terms, id, skip, mask, n, cube) && IsSorted(t)
    ensures var p := multiset(t);
      ChosenSoFar(terms + [p], id, skip, mask + [IsChosen(p, id, skip)], if IsChosen(p, id, skip) then n + 1 else n,
                  if !IsChosen(p, id, skip) then cube else if n == 0 then t else Intersect(cube, t))
  {
    var p := multiset(t);
    MaskSnoc(terms, p, id, skip);
    ChosenSnoc(terms, p, id, skip);
    if IsChosen(p, id, skip) {
      if n == 0 {
        assert Chosen(terms, id, skip) + [p] == [p];
      } else {
        CubeSnoc(Chosen(terms, id, skip), p);
        IntersectIs(cube, t);
        NotBelowZero(cube);
        IntersectSorted(cube, t, 0);
      }
    }
  }

  /** The terms with a factor, as a mask, how many there are, and what they share. */
  method Choose(terms: Terms, id: nat, skip: bool) returns (mask: seq<bool>, n: nat, cube: Ids)
    requires AllSorted(terms)
    ensures ChosenSoFar(Abs(terms), id, skip, mask, n, cube)
  {
    mask, n, cube := [], 0, [];
    for i := 0 to |terms|
      invariant ChosenSoFar(Abs(terms[..i]), id, skip, mask, n, cube)
    {
      var t := terms[i];
      ChosenStep(Abs(terms[..i]), t, id, skip, mask, n, cube);
      AbsSnoc(terms, i);
      assert id in t <==> id in multiset(t);
      assert |t| == |multiset(t)|;
      var isChosen := id in t && !(skip && |t| == 1);
      mask := mask + [isChosen];
      if isChosen {
        if n == 0 {
          cube := t;
        } else {
          cube := Intersect(cube, t);
        }
        n := n + 1;
      }
    }
    assert terms[..|terms|] == terms;
  }

  lemma {:induction false} SizeSnoc(chosen: seq<Product>, t: Product, size: nat)
    ensures CountOfSize(chosen + [t], size) == CountOfSize(chosen, size) + (if |t| == size then 1 else 0)
  {
    SizeConcat(chosen, [t], size);
    OneOf(t, size, t);
  }

  /** The multiplications that a choice of n terms saves. */
  method CountSavings(terms: Terms, mask: seq<bool>, n: nat, size: nat, ghost id: nat, ghost skip: bool)
    returns (savings: int)
    requires mask == MaskOf(Abs(terms), id, skip) && n == |Chosen(Abs(terms), id, skip)|
    ensures savings == Savings(Chosen(Abs(terms), id, skip), size)
  {
    savings := (n - 1) * size;
    for i := 0 to |terms|
      invariant savings == (n - 1) * size - CountOfSize(Chosen(Abs(terms[..i]), id, skip), size)
    {
      AbsSnoc(terms, i);
      ChosenSnoc(Abs(terms[..i]), multiset(terms[i]), id, skip);
      SizeSnoc(Chosen(Abs(terms[..i]), id, skip), multiset(terms[i]), size);
      if mask[i] && |terms[i]| == size {
        savings := savings - 1;
      }
    }
    assert terms[..|terms|] == terms;
  }

  ghost predicate IsSomeChoice(terms: seq<Product>, c: CubeChoice) {
    exists id, skip :: IsChoice(terms, c, id, skip)
  }

  ghost predicate AreChoices(terms: seq<Product>, choices: seq<CubeChoice>) {
    forall c :: c in choices ==> IsSomeChoice(terms, c)
  }

  /** The choices have one with the terms of each worthwhile choice by this factor. */
  ghost predicate Tried(terms: seq<Product>, choices: seq<CubeChoice>, id: nat, skip: bool) {
    Worthwhile(terms, id, skip) ==> HasMask(choices, MaskOf(terms, id, skip))
  }

  lemma {:induction false} TriedMore(terms: seq<Product>, choices: seq<CubeChoice>, more: seq<CubeChoice>, id: nat,
                                     skip: bool)
    requires Tried(terms, choices, id, skip) && forall c :: c in choices ==> c in more
    ensures Tried(terms, more, id, skip)
  {
    if Worthwhile(terms, id, skip) {
      var c :| c in choices && c.mask == MaskOf(terms, id, skip);
      assert c in more;
    }
  }

  predicate HasMask(choices: seq<CubeChoice>, mask: seq<bool>) {
    exists c :: c in choices && c.mask == mask
  }

  /** No choice is there twice. */
  ghost predicate Once(choices: seq<CubeChoice>) { forall c :: multiset(choices)[c] <= 1 }

  lemma {:induction false} OnceAt(choices: seq<CubeChoice>, i: nat)
    requires Once(choices) && i < |choices|
    ensures choices[i] !in choices[..i]
  {
    var front, c := multiset(choices[..i]), choices[i];
    assert choices == choices[..i] + [c] + choices[i + 1..];
    assert multiset(choices) == front + multiset{c} + multiset(choices[i + 1..]);
    assert multiset(choices)[c] == front[c] + 1 + multiset(choices[i + 1..])[c];
  }

  lemma {:induction false} OnceMore(choices: seq<CubeChoice>, c: CubeChoice)
    requires Once(choices) && c !in choices
    ensures Once(choices + [c])
  {
    assert c !in multiset(choices);
  }

  /** Try the terms containing a factor, with or without those that are only it. */
  method TryChoice(terms: Terms, id: nat, skip: bool, choices: seq<CubeChoice>) returns (r: seq<CubeChoice>)
    requires AllSorted(terms) && AreChoices(Abs(terms), choices) && Once(choices)
    ensures AreChoices(Abs(terms), r) && (forall c :: c in choices ==> c in r) && Once(r)
    ensures Tried(Abs(terms), r, id, skip)
  {
    hide Chosen, Others, Cube, CountOfSize, Once;
    r := choices;
    var mask, n, cube := Choose(terms, id, skip);
    if n < 2 {
      return;
    }
    assert |cube| == |multiset(cube)|;
    var savings := CountSavings(terms, mask, n, |cube|, id, skip);
    if savings <= 0 {
      return;
    }
    if HasMask(choices, mask) {
      return;
    }
    var choice := CubeChoice(mask, cube, savings);
    assert IsChoice(Abs(terms), choice, id, skip);
    OnceMore(choices, choice);
    r := choices + [choice];
    assert choice in r && choice.mask == MaskOf(Abs(terms), id, skip);
  }

  /** The ways to factor shared factors out of a sum, by falling savings. */
  method GetCubeChoices(terms: Terms) returns (choices: seq<CubeChoice>)
    requires AllSorted(terms)
    ensures AreChoices(Abs(terms), choices)
    ensures forall id, skip :: Tried(Abs(terms), choices, id, skip)
    ensures BySavings(choices) && Once(choices)
  {
    hide IsChoice, Worthwhile, Chosen, Cube, MaskOf, Tried, BySavings;
    var ids := CollectIds(terms);
    choices := [];
    for i := 0 to |ids|
      invariant AreChoices(Abs(terms), choices) && Once(choices)
      invariant forall k, skip :: 0 <= k < i ==> Tried(Abs(terms), choices, ids[k], skip)
    {
      var first := TryChoice(terms, ids[i], false, choices);
      var second := TryChoice(terms, ids[i], true, first);
      TriedMore(Abs(terms), first, second, ids[i], false);
      forall k, skip | 0 <= k < i ensures Tried(Abs(terms), second, ids[k], skip) {
        TriedMore(Abs(terms), choices, second, ids[k], skip);
      }
      choices := second;
    }
    AllIdsTried(terms, ids, choices);
    ghost var before := choices;
    choices := StableSort(choices);
    SortKeeps(Abs(terms), before, choices);
  }

  lemma {:induction false} AllIdsTried(terms: Terms, ids: Ids, choices: seq<CubeChoice>)
    requires forall i, id :: 0 <= i < |terms| && id in terms[i] ==> id in ids
    requires forall k, skip :: 0 <= k < |ids| ==> Tried(Abs(terms), choices, ids[k], skip)
    ensures forall id, skip :: Tried(Abs(terms), choices, id, skip)
  {
    hide Chosen, Cube, MaskOf, Savings;
    forall id, skip ensures Tried(Abs(terms), choices, id, skip) {
      if Worthwhile(Abs(terms), id, skip) {
        IdOfChoice(terms, id, skip);
        var i :| 0 <= i < |terms| && id in terms[i];
        assert id in ids;
        var k :| 0 <= k < |ids| && ids[k] == id;
        assert Tried(Abs(terms), choices, ids[k], skip);
      }
    }
  }

  lemma {:induction false} IdOfChoice(terms: Terms, id: nat, skip: bool)
    requires Worthwhile(Abs(terms), id, skip)
    ensures exists i :: 0 <= i < |terms| && id in terms[i]
  {
    var chosen := Chosen(Abs(terms), id, skip);
    ChosenCount(Abs(terms), id, skip, chosen[0]);
    assert chosen[0] in multiset(chosen);
    assert chosen[0] in multiset(Abs(terms));
    var i :| 0 <= i < |Abs(terms)| && Abs(terms)[i] == chosen[0];
    assert id in terms[i];
  }

  lemma {:induction false} SortKeeps(terms: seq<Product>, before: seq<CubeChoice>, after: seq<CubeChoice>)
    requires multiset(after) == multiset(before) && AreChoices(terms, before)
    requires forall id, skip :: Tried(terms, before, id, skip)
    ensures AreChoices(terms, after)
    ensures forall id, skip :: Tried(terms, after, id, skip)
  {
    hide IsChoice, Worthwhile;
    forall c ensures c in before <==> c in after {
      assert c in multiset(before) <==> c in multiset(after);
    }
    forall id, skip ensures Tried(terms, after, id, skip) {
      TriedMore(terms, before, after, id, skip);
    }
  }

  // ---------------------------------------------------------------- applyCubeChoice

  lemma {:induction false} NewIdStep(terms: seq<Product>, t: Ids, k: nat)
    requires IsNewId(terms, k) && IsSorted(t)
    ensures IsNewId(terms + [multiset(t)], if t != [] && t[|t| - 1] + 1 > k then t[|t| - 1] + 1 else k)
  {
    var more := terms + [multiset(t)];
    var m := if t != [] && t[|t| - 1] + 1 > k then t[|t| - 1] + 1 else k;
    forall i, x | 0 <= i < |more| && x in more[i] ensures x < m {
      if i == |terms| {
        LastIsLargest(t, x);
      }
    }
    if m != k {
      assert m - 1 in more[|terms|];
    } else if k > 0 {
      var i :| 0 <= i < |terms| && k - 1 in terms[i];
      assert more[i] == terms[i];
    }
  }

  lemma {:induction false} NewIdUnique(terms: seq<Product>, j: nat, k: nat)
    requires IsNewId(terms, j) && IsNewId(terms, k)
    ensures j == k
  {}

  lemma {:induction false} NoTermsId()
    ensures IsNewId([], 0)
  {}

  method GetNewId(terms: Terms) returns (newId: nat)
    requires AllSorted(terms)
    ensures newId == NewId(Abs(terms))
  {
    hide IsNewId, NewId, IsSorted;
    newId := 0;
    NoTermsId();
    for i := 0 to |terms|
      invariant IsNewId(Abs(terms[..i]), newId)
    {
      AbsSnoc(terms, i);
      NewIdStep(Abs(terms[..i]), terms[i], newId);
      var t := terms[i];
      if t != [] && t[|t| - 1] + 1 > newId {
        newId := t[|t| - 1] + 1;
      }
    }
    assert terms[..|terms|] == terms;
    NewIdUnique(Abs(terms), newId, NewId(Abs(terms)));
  }

  lemma {:induction false} WithoutSnoc(chosen: seq<Product>, t: Product, cube: Product)
    ensures WithoutCube(chosen + [t], cube) == WithoutCube(chosen, cube) + [t - cube]
  {
    WithoutCubeConcat(chosen, [t], cube);
    OneOf(t, 0, cube);
  }

  lemma {:induction false} AbsAppend(terms: Terms, t: Ids)
    ensures Abs(terms + [t]) == Abs(terms) + [multiset(t)]
  {}

  lemma {:induction false} NoTerms(id: nat, skip: bool, cube: Product)
    ensures WithoutCube(Chosen([], id, skip), cube) == [] && Others([], id, skip) == []
  {}

  lemma {:induction false} InnerStep(inner: Terms, t: Ids, chosen: seq<Product>, cube: Ids)
    requires AllSorted(inner) && IsSorted(t) && IsSorted(cube) && Abs(inner) == WithoutCube(chosen, multiset(cube))
    ensures var r := inner + [Difference(t, cube)];
      AllSorted(r) && Abs(r) == WithoutCube(chosen + [multiset(t)], multiset(cube))
  {
    hide WithoutCube, IsSorted, Difference;
    WithoutSnoc(chosen, multiset(t), multiset(cube));
    DifferenceIs(t, cube);
    NotBelowZero(t);
    DifferenceSorted(t, cube, 0);
    AbsAppend(inner, Difference(t, cube));
  }

  lemma {:induction false} NoneUnsorted()
    ensures AllSorted([]) && Abs([]) == []
  {}

  lemma {:induction false} TermSorted(terms: Terms, i: nat)
    requires AllSorted(terms) && i < |terms|
    ensures IsSorted(terms[i])
  {}

  lemma {:induction false} OuterStep(outer: Terms, t: Ids)
    requires AllSorted(outer) && IsSorted(t)
    ensures AllSorted(outer + [t]) && Abs(outer + [t]) == Abs(outer) + [multiset(t)]
  {
    hide IsSorted;
    AbsAppend(outer, t);
  }

  /** The chosen terms without the cube, and the others. */
  method SplitTerms(terms: Terms, choice: CubeChoice, ghost id: nat, ghost skip: bool)
    returns (inner: Terms, outer: Terms)
    requires AllSorted(terms) && IsSorted(choice.cube) && choice.mask == MaskOf(Abs(terms), id, skip)
    ensures AllSorted(inner) && Abs(inner) == WithoutCube(Chosen(Abs(terms), id, skip), multiset(choice.cube))
    ensures AllSorted(outer) && Abs(outer) == Others(Abs(terms), id, skip)
  {
    hide Chosen, Others, WithoutCube, Difference, IsSorted, AllSorted;
    inner, outer := [], [];
    NoneUnsorted();
    NoTerms(id, skip, multiset(choice.cube));
    for i := 0 to |terms|
      invariant AllSorted(inner) && Abs(inner) == WithoutCube(Chosen(Abs(terms[..i]), id, skip), multiset(choice.cube))
      invariant AllSorted(outer) && Abs(outer) == Others(Abs(terms[..i]), id, skip)
    {
      var t := terms[i];
      TermSorted(terms, i);
      AbsSnoc(terms, i);
      ChosenSnoc(Abs(terms[..i]), multiset(t), id, skip);
      assert choice.mask[i] == IsChosen(multiset(t), id, skip);
      if !choice.mask[i] {
        OuterStep(outer, t);
        outer := outer + [t];
      } else {
        InnerStep(inner, t, Chosen(Abs(terms[..i]), id, skip), choice.cube);
        inner := inner + [Difference(t, choice.cube)];
      }
    }
    assert terms[..|terms|] == terms;
  }

  /** Split a sum into the terms of the inner sum and the outer sum. */
  method ApplyCubeChoice(terms: Terms, choice: CubeChoice, ghost id: nat, ghost skip: bool)
    returns (inner: Terms, outer: Terms)
    requires AllSorted(terms) && IsChoice(Abs(terms), choice, id, skip)
    ensures AllSorted(inner) && Abs(inner) == Inner(Abs(terms), id, skip)
    ensures AllSorted(outer) && Abs(outer) == Outer(Abs(terms), id, skip, NewId(Abs(terms)))
  {
    hide IsNewId, NewId, Chosen, Others, WithoutCube, Cube, CountOfSize;
    var newId := GetNewId(terms);
    inner, outer := SplitTerms(terms, choice, id, skip);
    CubeBelowNewId(terms, choice.cube, id, skip, newId);
    NotBelowZero(choice.cube);
    SortedSnoc(choice.cube, newId, 0);
    var product := choice.cube + [newId];
    AbsAppend(outer, product);
    assert multiset(product) == multiset(choice.cube) + multiset{newId};
    outer := outer + [product];
  }

  lemma {:induction false} CubeBelowNewId(terms: Terms, cube: Ids, id: nat, skip: bool, k: nat)
    requires Worthwhile(Abs(terms), id, skip) && multiset(cube) == Cube(Chosen(Abs(terms), id, skip))
    requires IsNewId(Abs(terms), k)
    ensures cube == [] || cube[|cube| - 1] <= k
  {
    if cube != [] {
      var x := cube[|cube| - 1];
      var chosen := Chosen(Abs(terms), id, skip);
      assert x in multiset(cube);
      assert multiset(cube)[x] <= chosen[0][x];
      ChosenCount(Abs(terms), id, skip, chosen[0]);
      assert chosen[0] in multiset(chosen);
      assert chosen[0] in multiset(Abs(terms));
      var i :| 0 <= i < |terms| && Abs(terms)[i] == chosen[0];
    }
  }

  // ---------------------------------------------------------------- getFactoredCost

  /** The number of multiplications in a sum of products. */
  method GetProductsCost(terms: Terms) returns (cost: nat)
    ensures cost == ProductsCost(Abs(terms))
  {
    cost := 0;
    for i := 0 to |terms|
      invariant cost == ProductsCost(Abs(terms[..i]))
    {
      AbsSnoc(terms, i);
      CostConcat(Abs(terms[..i]), [multiset(terms[i])]);
      CostOne(multiset(terms[i]));
      assert |multiset(terms[i])| == |terms[i]|;
      cost := cost + if terms[i] == [] then 0 else |terms[i]| - 1;
    }
    assert terms[..|terms|] == terms;
  }

  /** No plan that starts with the terms of a mask costs less. */
  ghost predicate Beats(terms: seq<Product>, mask: seq<bool>, cost: nat) {
    forall id, skip, p, q :: MaskOf(terms, id, skip) == mask && Follows(Split(id, skip, p, q), terms) ==>
      cost <= PlanCost(Split(id, skip, p, q), terms)
  }

  lemma {:induction false} MaskBeats(terms: seq<Product>, id: nat, skip: bool, c: nat, d: nat)
    requires Worthwhile(terms, id, skip)
    requires Optimal(Inner(terms, id, skip), c) && Optimal(Outer(terms, id, skip, NewId(terms)), d)
    ensures Beats(terms, MaskOf(terms, id, skip), c + d)
  {
    forall id', skip', p, q | MaskOf(terms, id', skip') == MaskOf(terms, id, skip) &&
      Follows(Split(id', skip', p, q), terms)
      ensures c + d <= PlanCost(Split(id', skip', p, q), terms)
    {
      MaskDetermines(terms, id, skip, id', skip');
    }
  }

  lemma {:induction false} SplitAchieves(terms: seq<Product>, id: nat, skip: bool, c: nat, d: nat)
    requires Worthwhile(terms, id, skip)
    requires Achievable(Inner(terms, id, skip), c) && Achievable(Outer(terms, id, skip, NewId(terms)), d)
    ensures Achievable(terms, c + d)
  {
    var p :| Follows(p, Inner(terms, id, skip)) && PlanCost(p, Inner(terms, id, skip)) == c;
    var q :| Follows(q, Outer(terms, id, skip, NewId(terms)))
          && PlanCost(q, Outer(terms, id, skip, NewId(terms))) == d;
    assert Follows(Split(id, skip, p, q), terms) && PlanCost(Split(id, skip, p, q), terms) == c + d;
  }

  lemma {:induction false} FlatAchieves(terms: seq<Product>)
    ensures Achievable(terms, ProductsCost(terms))
  {
    assert Follows(Flat, terms) && PlanCost(Flat, terms) == ProductsCost(terms);
  }

  lemma {:induction false} AllTriedIsOptimal(terms: seq<Product>, choices: seq<CubeChoice>, cost: nat)
    requires forall id, skip :: Tried(terms, choices, id, skip)
    requires cost <= ProductsCost(terms)
    requires forall c :: c in choices ==> Beats(terms, c.mask, cost)
    ensures Optimal(terms, cost)
  {
    forall plan | Follows(plan, terms) ensures cost <= PlanCost(plan, terms) {
      match plan
      case Flat =>
      case Split(id, skip, p, q) =>
        assert Tried(terms, choices, id, skip);
        var c :| c in choices && c.mask == MaskOf(terms, id, skip);
        assert Beats(terms, c.mask, cost);
    }
  }

  lemma {:induction false} BeatsLess(terms: seq<Product>, mask: seq<bool>, c: nat, d: nat)
    requires Beats(terms, mask, d) && c <= d
    ensures Beats(terms, mask, c)
  {
    forall id, skip, p, q | MaskOf(terms, id, skip) == mask && Follows(Split(id, skip, p, q), terms)
      ensures c <= PlanCost(Split(id, skip, p, q), terms)
    {
      assert d <= PlanCost(Split(id, skip, p, q), terms);
    }
  }

  /** No single choice costs less, its parts as they are. */
  ghost predicate BeatsSplits(terms: seq<Product>, cost: nat) {
    forall id, skip :: Worthwhile(terms, id, skip) ==>
      cost <= ProductsCost(Inner(terms, id, skip)) + ProductsCost(Outer(terms, id, skip, NewId(terms)))
  }

  /** A cost that some plan has, that no single choice is below and that, unless the search was cut short, no
      plan is below. */
  ghost predicate IsCost(terms: seq<Product>, cost: nat, greedy: bool) {
    && Achievable(terms, cost) && (!greedy ==> Optimal(terms, cost)) && cost <= ProductsCost(terms)
    && BeatsSplits(terms, cost)
  }

  lemma {:induction false} SplitsOfOrder(s: seq<Product>, t: seq<Product>, cost: nat)
    requires multiset(s) == multiset(t) && BeatsSplits(s, cost)
    ensures BeatsSplits(t, cost)
  {
    hide Worthwhile, Inner, Outer, NewId, ProductsCost;
    forall id, skip | Worthwhile(t, id, skip)
      ensures cost <= ProductsCost(Inner(t, id, skip)) + ProductsCost(Outer(t, id, skip, NewId(t)))
    {
      ChoiceSame(t, s, id, skip);
      SameTerms(Inner(t, id, skip), Inner(s, id, skip), 0);
      SameTerms(Outer(t, id, skip, NewId(t)), Outer(s, id, skip, NewId(s)), 0);
    }
  }

  /** The choice that saves most is enough. */
  lemma {:induction false} FirstIsEnough(terms: seq<Product>, choices: seq<CubeChoice>, cost: nat)
    requires AreChoices(terms, choices) && BySavings(choices)
    requires forall id, skip :: Tried(terms, choices, id, skip)
    requires choices != [] ==> cost + choices[0].savings <= ProductsCost(terms)
    ensures BeatsSplits(terms, cost)
    ensures (exists id, skip :: Worthwhile(terms, id, skip)) ==> choices != []
  {
    hide Worthwhile, Inner, Outer, NewId, ProductsCost, MaskOf, Chosen, Cube, Savings;
    forall id, skip | Worthwhile(terms, id, skip)
      ensures choices != []
      ensures cost <= ProductsCost(Inner(terms, id, skip)) + ProductsCost(Outer(terms, id, skip, NewId(terms)))
    {
      assert Tried(terms, choices, id, skip);
      var c :| c in choices && c.mask == MaskOf(terms, id, skip);
      assert IsSomeChoice(terms, c);
      var id', skip' :| IsChoice(terms, c, id', skip');
      MaskDetermines(terms, id, skip, id', skip');
      SavingsExact(terms, id, skip, NewId(terms));
      SavingsOf(terms, c, id', skip');
      FirstSavesMost(choices, c);
    }
  }

  lemma {:induction false} SavingsOf(terms: seq<Product>, c: CubeChoice, id: nat, skip: bool)
    requires IsChoice(terms, c, id, skip)
    ensures c.savings == Savings(Chosen(terms, id, skip), |Cube(Chosen(terms, id, skip))|)
  {
    hide Chosen, Cube, Savings, MaskOf;
    assert |c.cube| == |multiset(c.cube)|;
  }

  lemma {:induction false} FirstSavesMost(choices: seq<CubeChoice>, c: CubeChoice)
    requires BySavings(choices) && c in choices
    ensures c.savings <= choices[0].savings
  {
    if c != choices[0] {
      assert choices == [choices[0]] + choices[1..];
      NoMoreIn(choices[1..], choices[0].savings, c);
    }
  }

  lemma {:induction false} NoMoreIn(s: seq<CubeChoice>, k: int, c: CubeChoice)
    requires NoMore(s, k) && c in s
    ensures c.savings <= k
  {
    if c != s[0] {
      assert s == [s[0]] + s[1..];
      NoMoreIn(s[1..], k, c);
    }
  }

  /** A choice with factored parts saves at least what it says. */
  lemma {:induction false} PartsSave(terms: seq<Product>, c: CubeChoice, id: nat, skip: bool, x: nat, y: nat)
    requires IsChoice(terms, c, id, skip)
    requires x <= ProductsCost(Inner(terms, id, skip)) && y <= ProductsCost(Outer(terms, id, skip, NewId(terms)))
    ensures x + y + c.savings <= ProductsCost(terms) && c.savings > 0
  {
    hide Chosen, Cube, Savings, MaskOf, Inner, Outer, NewId, ProductsCost;
    SavingsExact(terms, id, skip, NewId(terms));
    SavingsOf(terms, c, id, skip);
  }

  lemma {:induction false} CostOfOrder(s: Terms, t: Terms, cost: nat, greedy: bool)
    requires multiset(s) == multiset(t) && IsCost(Abs(s), cost, greedy)
    ensures IsCost(Abs(t), cost, greedy)
  {
    AbsSame(s, t);
    CostSame(Abs(s), Abs(t), cost);
    SameTerms(Abs(s), Abs(t), 0);
    SplitsOfOrder(Abs(s), Abs(t), cost);
  }

  lemma {:induction false} AbsSame(s: Terms, t: Terms)
    requires multiset(s) == multiset(t)
    ensures multiset(Abs(s)) == multiset(Abs(t))
  {
    if s == [] {
      assert |t| == |multiset(t)| == 0;
    } else {
      hide Abs;
      var i := RemoveOne(s, t);
      AbsSame(s[1..], t[..i] + t[i + 1..]);
      assert s == [s[0]] + s[1..];
      AbsConcat([s[0]], s[1..]);
      AbsConcat(t[..i] + [s[0]], t[i + 1..]);
      AbsConcat(t[..i], [s[0]]);
      AbsConcat(t[..i], t[i + 1..]);
    }
  }

  lemma {:induction false} AbsConcat(s: Terms, t: Terms)
    ensures Abs(s + t) == Abs(s) + Abs(t)
  {}

  // ---------------------------------------------------------------- the budget

  /** The inner or the outer sum of a choice. */
  datatype Turn = Turn(id: nat, skip: bool, isInner: bool)

  /** The sum that some turns lead to. */
  ghost function At(root: seq<Product>, path: seq<Turn>): Option<seq<Product>> {
    if path == [] then Some(root)
    else
      var t, s := path[|path| - 1], At(root, path[..|path| - 1]);
      if s.None? || !Worthwhile(s.value, t.id, t.skip) then None
      else Some(if t.isInner then Inner(s.value, t.id, t.skip)
                else Outer(s.value, t.id, t.skip, NewId(s.value)))
  }

  /** One turn or more lead to the sum s. */
  ghost predicate Below(root: seq<Product>, s: seq<Product>) {
    exists path :: path != [] && At(root, path) == Some(s)
  }

  lemma {:induction false} BelowNext(root: seq<Product>, s: seq<Product>, id: nat, skip: bool)
    requires (s == root || Below(root, s)) && Worthwhile(s, id, skip)
    ensures Below(root, Inner(s, id, skip)) && Below(root, Outer(s, id, skip, NewId(s)))
  {
    hide Worthwhile, Inner, Outer, NewId;
    var path :| At(root, path) == Some(s) by { if s == root { assert At(root, []) == Some(s); } }
    var inner, outer := path + [Turn(id, skip, true)], path + [Turn(id, skip, false)];
    assert inner[..|path|] == path && outer[..|path|] == path;
    assert At(root, inner) == Some(Inner(s, id, skip)) && At(root, outer) == Some(Outer(s, id, skip, NewId(s)));
  }

  /** A choice of a sum, for which the search has spent one of its budget. */
  datatype Try = Try(terms: Terms, choice: CubeChoice)

  ghost predicate AreTries(root: seq<Product>, tries: set<Try>) {
    forall t :: t in tries ==> Below(root, Abs(t.terms)) && IsSomeChoice(Abs(t.terms), t.choice)
  }

  ghost predicate HasTry(tries: set<Try>, terms: Terms, mask: seq<bool>) {
    exists t :: t in tries && t.terms == terms && t.choice.mask == mask
  }

  /** Each choice of the sum was tried. */
  ghost predicate IsTriedOut(tries: set<Try>, terms: Terms) {
    forall id, skip :: Worthwhile(Abs(terms), id, skip) ==> HasTry(tries, terms, MaskOf(Abs(terms), id, skip))
  }

  /** Each choice of a sum of these terms in some order was tried. */
  ghost predicate Counted(tries: set<Try>, key: multiset<Ids>) {
    exists r: Terms :: multiset(r) == key && IsTriedOut(tries, r)
  }

  ghost function Factors(t: Try): nat { TotalFactors(Abs(t.terms)) }

  type Costs = map<multiset<Ids>, nat>

  /** The tries so far are of sums whose costs are known or that have more factors. */
  ghost predicate Settled(tries: set<Try>, costs: Costs, bound: nat) {
    forall t :: t in tries ==> multiset(t.terms) in costs || Factors(t) > bound
  }

  /** The search went on with sums of as many factors at most. */
  ghost predicate WentOn(tries: set<Try>, costs: Costs, more: set<Try>, after: Costs, bound: nat) {
    && tries <= more && (forall key :: key in costs ==> key in after)
    && forall t :: t in more && t !in tries ==> multiset(t.terms) in after && Factors(t) <= bound
  }

  /** While the choices of a sum are tried, the first i of them have been. */
  ghost predicate Trying(tries: set<Try>, costs: Costs, more: set<Try>, after: Costs, terms: Terms,
                         tried: seq<CubeChoice>)
  {
    && tries <= more && (forall key :: key in costs ==> key in after)
    && forall t :: t in more && t !in tries ==>
         (t.terms == terms && t.choice in tried) ||
         (multiset(t.terms) in after && Factors(t) < TotalFactors(Abs(terms)))
  }

  lemma {:induction false} TryIsNew(tries: set<Try>, costs: Costs, more: set<Try>, after: Costs, terms: Terms,
                                    tried: seq<CubeChoice>, c: CubeChoice)
    requires Settled(tries, costs, TotalFactors(Abs(terms))) && multiset(terms) !in costs
    requires Trying(tries, costs, more, after, terms, tried) && c !in tried
    ensures Try(terms, c) !in more
    ensures Trying(tries, costs, more + {Try(terms, c)}, after, terms, tried + [c])
  {
    hide TotalFactors, Abs;
    assert Factors(Try(terms, c)) == TotalFactors(Abs(terms));
  }

  lemma {:induction false} TryingSettled(tries: set<Try>, costs: Costs, more: set<Try>, after: Costs, terms: Terms,
                                         tried: seq<CubeChoice>, bound: nat)
    requires Settled(tries, costs, TotalFactors(Abs(terms)))
    requires Trying(tries, costs, more, after, terms, tried) && bound < TotalFactors(Abs(terms))
    ensures Settled(more, after, bound)
  {
    hide TotalFactors, Abs;
    forall t | t in more
      ensures multiset(t.terms) in after || Factors(t) > bound
    {
      if t !in tries && t.terms == terms { assert Factors(t) == TotalFactors(Abs(terms)); }
    }
  }

  lemma {:induction false} TryingOn(tries: set<Try>, costs: Costs, more: set<Try>, after: Costs, terms: Terms,
                                    tried: seq<CubeChoice>, most: set<Try>, last: Costs, bound: nat)
    requires Trying(tries, costs, more, after, terms, tried) && bound < TotalFactors(Abs(terms))
    requires WentOn(more, after, most, last, bound)
    ensures Trying(tries, costs, most, last, terms, tried)
  {
    hide TotalFactors, Abs, Factors;
  }

  lemma {:induction false} TryingEnds(tries: set<Try>, costs: Costs, more: set<Try>, after: Costs, terms: Terms,
                                      tried: seq<CubeChoice>, cost: nat)
    requires Trying(tries, costs, more, after, terms, tried)
    ensures WentOn(tries, costs, more, after[multiset(terms) := cost], TotalFactors(Abs(terms)))
  {
    hide TotalFactors, Abs;
  }

  lemma {:induction false} CountedMore(tries: set<Try>, more: set<Try>, key: multiset<Ids>)
    requires Counted(tries, key) && tries <= more
    ensures Counted(more, key)
  {
    hide Worthwhile, MaskOf, Abs;
    var r: Terms :| multiset(r) == key && IsTriedOut(tries, r);
    forall id, skip | Worthwhile(Abs(r), id, skip)
      ensures HasTry(more, r, MaskOf(Abs(r), id, skip))
    {
      assert HasTry(tries, r, MaskOf(Abs(r), id, skip));
    }
    assert IsTriedOut(more, r);
  }

  lemma {:induction false} AllCounted(tries: set<Try>, terms: Terms, choices: seq<CubeChoice>)
    requires forall id, skip :: Tried(Abs(terms), choices, id, skip)
    requires forall c :: c in choices ==> Try(terms, c) in tries
    ensures Counted(tries, multiset(terms))
  {
    hide Worthwhile, MaskOf, Abs;
    forall id, skip | Worthwhile(Abs(terms), id, skip)
      ensures HasTry(tries, terms, MaskOf(Abs(terms), id, skip))
    {
      assert Tried(Abs(terms), choices, id, skip);
      var c :| c in choices && c.mask == MaskOf(Abs(terms), id, skip);
      assert Try(terms, c) in tries;
    }
    assert IsTriedOut(tries, terms);
  }

  /** The memo table and the budget of the search. */
  class FactorSearch {
    var costs: Costs
    var budget: nat

    /** Whether some loop over choices stopped after one of them. */
    ghost var greedy: bool

    /** The sum that is searched, and what the budget was spent on. */
    ghost const root: seq<Product>
    ghost const start: nat
    ghost var tries: set<Try>

    ghost predicate Valid()
      reads this
    {
      && (greedy ==> budget == 0)
      && AreTries(root, tries) && |tries| + budget == start
      && (forall terms: Terms :: multiset(terms) in costs ==> IsCost(Abs(terms), costs[multiset(terms)], greedy))
      && (!greedy ==> forall key :: key in costs ==> Counted(tries, key))
    }

    constructor (budget: nat, ghost root: seq<Product>)
      ensures Valid() && !greedy && this.budget == start == budget && this.root == root
      ensures tries == {} && costs == map[]
    {
      costs := map[];
      this.budget := budget;
      greedy := false;
      this.root := root;
      start := budget;
      tries := {};
    }

    lemma Remember(terms: Terms, cost: nat, after: Costs)
      requires Valid() && IsCost(Abs(terms), cost, greedy) && after == costs[multiset(terms) := cost]
      ensures forall s: Terms :: multiset(s) in after ==> IsCost(Abs(s), after[multiset(s)], greedy)
    {
      forall s: Terms | multiset(s) in after ensures IsCost(Abs(s), after[multiset(s)], greedy) {
        if multiset(s) == multiset(terms) {
          CostOfOrder(terms, s, cost, greedy);
        }
      }
    }

    /** Spend one of the budget on a choice. */
    method Spend(terms: Terms, choice: CubeChoice) returns (isGreedy: bool)
      requires Valid() && Below(root, Abs(terms)) && IsSomeChoice(Abs(terms), choice) && Try(terms, choice) !in tries
      modifies this`budget, this`tries
      ensures Valid() && isGreedy == (old(budget) == 0)
      ensures if isGreedy then budget == old(budget) && tries == old(tries)
        else budget == old(budget) - 1 && tries == old(tries) + {Try(terms, choice)}
    {
      hide IsCost, Counted, Abs, IsSomeChoice, Below;
      isGreedy := budget == 0;
      if !isGreedy {
        budget := budget - 1;
        tries := tries + {Try(terms, choice)};
        forall key | key in costs && !greedy
          ensures Counted(tries, key)
        {
          CountedMore(old(tries), tries, key);
        }
      }
    }

    /** Spend on a choice of a sum and factor its parts. */
    method TryParts(terms: Terms, choice: CubeChoice, ghost tried: seq<CubeChoice>, ghost tries0: set<Try>,
                    ghost costs0: Costs)
      returns (cost: nat, isGreedy: bool)
      requires Valid() && AllSorted(terms) && Below(root, Abs(terms)) && IsSomeChoice(Abs(terms), choice)
      requires Settled(tries0, costs0, TotalFactors(Abs(terms))) && multiset(terms) !in costs0
      requires Trying(tries0, costs0, tries, costs, terms, tried) && choice !in tried
      modifies this`costs, this`budget, this`greedy, this`tries
      ensures Valid() && budget <= old(budget) && (old(greedy) ==> greedy) && (isGreedy ==> budget == 0)
      ensures Achievable(Abs(terms), cost) && cost + choice.savings <= ProductsCost(Abs(terms)) && choice.savings > 0
      ensures !greedy ==> Beats(Abs(terms), choice.mask, cost)
      ensures old(tries) <= tries && (!isGreedy ==> Try(terms, choice) in tries)
      ensures Trying(tries0, costs0, tries, costs, terms, tried + [choice])
      decreases TotalFactors(Abs(terms)), 0
    {
      hide Optimal, Achievable, Worthwhile, Inner, Outer, NewId, ProductsCost, TotalFactors, Beats, Abs, MaskOf;
      hide Chosen, Cube, Savings, IsSorted, Settled, Trying, Counted, AreTries, Below, BeatsSplits;
      ghost var A, now := Abs(terms), tried + [choice];
      ghost var id, skip :| IsChoice(A, choice, id, skip);
      var inner, outer := ApplyCubeChoice(terms, choice, id, skip);
      FactorsFall(A, id, skip, NewId(A));
      BelowNext(root, A, id, skip);
      TryIsNew(tries0, costs0, tries, costs, terms, tried, choice);
      TryingMore(tries0, costs0, tries, costs, terms, tried, choice);
      isGreedy := Spend(terms, choice);
      TryingSettled(tries0, costs0, tries, costs, terms, now, TotalFactors(Abs(inner)));
      ghost var tries1, costs1 := tries, costs;
      var x := GetFactoredCost(inner);
      TryingOn(tries0, costs0, tries1, costs1, terms, now, tries, costs, TotalFactors(Abs(inner)));
      TryingSettled(tries0, costs0, tries, costs, terms, now, TotalFactors(Abs(outer)));
      ghost var tries2, costs2 := tries, costs;
      var y := GetFactoredCost(outer);
      TryingOn(tries0, costs0, tries2, costs2, terms, now, tries, costs, TotalFactors(Abs(outer)));
      SplitAchieves(A, id, skip, x, y);
      PartsSave(A, choice, id, skip, x, y);
      if !greedy { MaskBeats(A, id, skip, x, y); }
      cost := x + y;
    }

    /** The fewest multiplications after factoring, searching greedily once the budget is spent. */
    method GetFactoredCost(terms: Terms) returns (cost: nat)
      requires Valid() && AllSorted(terms) && Below(root, Abs(terms))
      requires Settled(tries, costs, TotalFactors(Abs(terms)))
      modifies this`costs, this`budget, this`greedy, this`tries
      ensures Valid() && budget <= old(budget) && (old(greedy) ==> greedy)
      ensures IsCost(Abs(terms), cost, greedy) && multiset(terms) in costs
      ensures WentOn(old(tries), old(costs), tries, costs, TotalFactors(Abs(terms)))
      decreases TotalFactors(Abs(terms)), 1
    {
      hide Optimal, Achievable, Worthwhile, Inner, Outer, NewId, ProductsCost, TotalFactors, Beats, Tried, Abs, MaskOf;
      hide Chosen, Cube, Savings, BySavings, IsSorted, Settled, WentOn, Trying, Counted, AreTries, Below, BeatsSplits;
      hide Once, IsChoice;
      if multiset(terms) in costs {
        WentNowhere(tries, costs, TotalFactors(Abs(terms)));
        return costs[multiset(terms)];
      }
      ghost var A, tries0, costs0 := Abs(terms), tries, costs;
      cost := GetProductsCost(terms);
      FlatAchieves(A);
      var choices := GetCubeChoices(terms);
      var i := 0;
      var stopped := false;
      NothingTried(tries, costs, terms);
      while i < |choices| && !stopped
        invariant 0 <= i <= |choices| && (stopped ==> greedy && i > 0)
        invariant Valid() && budget <= old(budget) && (old(greedy) ==> greedy)
        invariant Achievable(A, cost) && cost <= ProductsCost(A)
        invariant i > 0 ==> cost + choices[0].savings <= ProductsCost(A)
        invariant !greedy ==> forall c :: c in choices[..i] ==> Beats(A, c.mask, cost) && Try(terms, c) in tries
        invariant Trying(tries0, costs0, tries, costs, terms, choices[..i])
      {
        ghost var before := cost;
        assert choices[i] in choices && choices[..i + 1] == choices[..i] + [choices[i]];
        OnceAt(choices, i);
        var xy, isGreedy := TryParts(terms, choices[i], choices[..i], tries0, costs0);
        if xy < cost {
          cost := xy;
        }
        if !greedy { BeatsNext(A, choices, i, xy, before, cost); }
        if isGreedy {
          greedy := true;
          stopped := true;
        }
        i := i + 1;
      }
      FirstIsEnough(A, choices, cost);
      if !greedy {
        assert choices[..|choices|] == choices;
        AllTriedIsOptimal(A, choices, cost);
        AllCounted(tries, terms, choices);
      }
      Remember(terms, cost, costs[multiset(terms) := cost]);
      TryingEnds(tries0, costs0, tries, costs, terms, choices[..i], cost);
      costs := costs[multiset(terms) := cost];
    }
  }

  lemma {:induction false} WentNowhere(tries: set<Try>, costs: Costs, bound: nat)
    ensures WentOn(tries, costs, tries, costs, bound)
  {}

  lemma {:induction false} NothingTried(tries: set<Try>, costs: Costs, terms: Terms)
    ensures Trying(tries, costs, tries, costs, terms, [])
  {}

  lemma {:induction false} TryingMore(tries: set<Try>, costs: Costs, more: set<Try>, after: Costs, terms: Terms,
                                      tried: seq<CubeChoice>, c: CubeChoice)
    requires Trying(tries, costs, more, after, terms, tried)
    ensures Trying(tries, costs, more, after, terms, tried + [c])
  {}

  lemma {:induction false} BeatsNext(terms: seq<Product>, choices: seq<CubeChoice>, i: nat, xy: nat, before: nat,
                                     cost: nat)
    requires i < |choices| && Beats(terms, choices[i].mask, xy) && cost <= before && cost <= xy
    requires forall c :: c in choices[..i] ==> Beats(terms, c.mask, before)
    ensures forall c :: c in choices[..i + 1] ==> Beats(terms, c.mask, cost)
  {
    hide Beats;
    forall c | c in choices[..i + 1] ensures Beats(terms, c.mask, cost) {
      if c in choices[..i] {
        BeatsLess(terms, c.mask, cost, before);
      } else {
        assert c == choices[i];
        BeatsLess(terms, c.mask, cost, xy);
      }
    }
  }

  /** Factoring by the choice c, with inner and outer sums that cost p and q. */
  ghost predicate SplitCosts(terms: seq<Product>, c: CubeChoice, p: nat, q: nat) {
    exists id, skip ::
      IsChoice(terms, c, id, skip) &&
      Achievable(Inner(terms, id, skip), p) && Achievable(Outer(terms, id, skip, NewId(terms)), q)
  }

  ghost predicate Achieves(terms: seq<Product>, c: CubeChoice, cost: nat) {
    exists p: nat, q: nat :: SplitCosts(terms, c, p, q) && p + q == cost
  }

  /** No choice, however its parts are factored, costs less. */
  ghost predicate NoneCheaper(terms: seq<Product>, cost: nat) {
    forall c, p: nat, q: nat :: SplitCosts(terms, c, p, q) ==> cost <= p + q
  }

  lemma {:induction false} OptimalIsLeast(terms: seq<Product>, cost: nat)
    requires Optimal(terms, cost)
    ensures NoneCheaper(terms, cost)
  {
    forall c, p: nat, q: nat | SplitCosts(terms, c, p, q) ensures cost <= p + q {
      var id, skip :|
        IsChoice(terms, c, id, skip) &&
        Achievable(Inner(terms, id, skip), p) && Achievable(Outer(terms, id, skip, NewId(terms)), q);
      SplitAchieves(terms, id, skip, p, q);
      var plan :| Follows(plan, terms) && PlanCost(plan, terms) == p + q;
    }
  }

  ghost predicate HasChoice(terms: seq<Product>) { exists id, skip :: Worthwhile(terms, id, skip) }

  /** The first choice of the best factoring, when there is a choice at all: it achieves the cost, no single
      choice costs less, and unless the search was cut short no other choice with factored parts does. */
  ghost predicate IsBest(terms: seq<Product>, best: Option<CubeChoice>, cost: nat, greedy: bool) {
    && IsCost(terms, cost, greedy)
    && (best.Some? <==> HasChoice(terms))
    && (best.None? ==> cost == ProductsCost(terms))
    && (best.Some? ==> cost < ProductsCost(terms) && Achieves(terms, best.value, cost))
    && (!greedy ==> NoneCheaper(terms, cost))
  }

  /** Each choice of the sum, in some order, was tried. */
  ghost predicate IsSearched(tries: set<Try>, s: seq<Product>) {
    exists r: Terms :: multiset(Abs(r)) == multiset(s) && IsTriedOut(tries, r)
  }

  /** The budget was spent on choices of sums below the first one, each once. With some of it left all of the
      choices of the inner and outer sums were tried. */
  ghost predicate IsSpent(terms: seq<Product>, tries: set<Try>, budget: nat, left: nat) {
    && AreTries(terms, tries) && |tries| + left == budget
    && (left > 0 ==> forall id, skip :: Worthwhile(terms, id, skip) ==>
         IsSearched(tries, Inner(terms, id, skip)) && IsSearched(tries, Outer(terms, id, skip, NewId(terms))))
  }

  ghost predicate AllKnown(tries: set<Try>, costs: Costs) { forall t :: t in tries ==> multiset(t.terms) in costs }

  lemma {:induction false} KnownIsSettled(tries: set<Try>, costs: Costs, more: set<Try>, after: Costs, bound: nat,
                                          next: nat)
    requires AllKnown(tries, costs)
    ensures Settled(tries, costs, next)
    ensures WentOn(tries, costs, more, after, bound) ==> AllKnown(more, after)
  {
    hide TotalFactors, Abs, Factors;
  }

  lemma {:induction false} CountedIsSearched(tries: set<Try>, terms: Terms)
    requires Counted(tries, multiset(terms))
    ensures IsSearched(tries, Abs(terms))
  {
    hide IsTriedOut, Abs;
    var r: Terms :| multiset(r) == multiset(terms) && IsTriedOut(tries, r);
    AbsSame(r, terms);
  }

  /** Choices whose parts have known costs. */
  ghost predicate PartsKnown(costs: Costs, terms: seq<Product>, c: CubeChoice) {
    exists id, skip, inner: Terms, outer: Terms ::
      IsChoice(terms, c, id, skip) && Abs(inner) == Inner(terms, id, skip) &&
      Abs(outer) == Outer(terms, id, skip, NewId(terms)) && multiset(inner) in costs && multiset(outer) in costs
  }

  lemma {:induction false} PartsStayKnown(costs: Costs, after: Costs, terms: seq<Product>, choices: seq<CubeChoice>)
    requires forall key :: key in costs ==> key in after
    requires forall c :: c in choices ==> PartsKnown(costs, terms, c)
    ensures forall c :: c in choices ==> PartsKnown(after, terms, c)
  {
    hide IsChoice, Inner, Outer, NewId, Abs;
    forall c | c in choices
      ensures PartsKnown(after, terms, c)
    {
      assert PartsKnown(costs, terms, c);
    }
  }

  lemma {:induction false} PartsSearched(tries: set<Try>, costs: Costs, terms: seq<Product>, choices: seq<CubeChoice>,
                                         id: nat, skip: bool)
    requires forall key :: key in costs ==> Counted(tries, key)
    requires forall c :: c in choices ==> PartsKnown(costs, terms, c)
    requires Tried(terms, choices, id, skip) && Worthwhile(terms, id, skip)
    ensures IsSearched(tries, Inner(terms, id, skip)) && IsSearched(tries, Outer(terms, id, skip, NewId(terms)))
  {
    hide Worthwhile, Counted, IsSearched, MaskOf, NewId, Chosen, Others, Cube, Savings;
    var c :| c in choices && c.mask == MaskOf(terms, id, skip);
    assert PartsKnown(costs, terms, c);
    var id', skip', inner: Terms, outer: Terms :|
      IsChoice(terms, c, id', skip') && Abs(inner) == Inner(terms, id', skip') &&
      Abs(outer) == Outer(terms, id', skip', NewId(terms)) && multiset(inner) in costs && multiset(outer) in costs;
    MaskDetermines(terms, id, skip, id', skip');
    CountedIsSearched(tries, inner);
    CountedIsSearched(tries, outer);
  }

  lemma {:induction false} ChoiceIsWorthwhile(terms: seq<Product>, c: CubeChoice)
    requires IsSomeChoice(terms, c)
    ensures HasChoice(terms)
  {}

  /** The cost of factoring by a choice of the sum that is searched. */
  method SearchParts(search: FactorSearch, terms: Terms, choice: CubeChoice) returns (cost: nat)
    requires search.Valid() && AllSorted(terms) && search.root == Abs(terms) && IsSomeChoice(Abs(terms), choice)
    requires AllKnown(search.tries, search.costs)
    modifies search`costs, search`budget, search`greedy, search`tries
    ensures search.Valid() && AllKnown(search.tries, search.costs) && (old(search.greedy) ==> search.greedy)
    ensures Achievable(Abs(terms), cost) && Achieves(Abs(terms), choice, cost)
    ensures cost + choice.savings <= ProductsCost(Abs(terms)) && choice.savings > 0
    ensures !search.greedy ==> Beats(Abs(terms), choice.mask, cost)
    ensures (forall key :: key in old(search.costs) ==> key in search.costs)
    ensures PartsKnown(search.costs, Abs(terms), choice)
  {
    hide Optimal, Achievable, Worthwhile, Inner, Outer, NewId, ProductsCost, Beats, Abs, MaskOf, TotalFactors;
    hide Chosen, Cube, Savings, IsSorted, Settled, WentOn, Counted, AreTries, Below, BeatsSplits, AllKnown, Achieves;
    ghost var A := Abs(terms);
    ghost var id, skip :| IsChoice(A, choice, id, skip);
    var inner, outer := ApplyCubeChoice(terms, choice, id, skip);
    BelowNext(A, A, id, skip);
    ghost var bound, bound' := TotalFactors(Abs(inner)), TotalFactors(Abs(outer));
    ghost var tries0, costs0 := search.tries, search.costs;
    KnownIsSettled(tries0, costs0, tries0, costs0, bound, bound);
    var x := search.GetFactoredCost(inner);
    ghost var tries1, costs1 := search.tries, search.costs;
    KnownIsSettled(tries0, costs0, tries1, costs1, bound, bound);
    KnownIsSettled(tries1, costs1, tries1, costs1, bound, bound');
    var y := search.GetFactoredCost(outer);
    KnownIsSettled(tries1, costs1, search.tries, search.costs, bound', bound');
    CostsGrow(tries0, costs0, tries1, costs1, bound);
    CostsGrow(tries1, costs1, search.tries, search.costs, bound');
    SplitAchieves(A, id, skip, x, y);
    PartsSave(A, choice, id, skip, x, y);
    ChoiceAchieves(A, choice, id, skip, x, y);
    if !search.greedy { MaskBeats(A, id, skip, x, y); }
    cost := x + y;
  }

  /** FactorSum chooses the cube to factor out of a sum. */
  method FactorSum(terms: Terms, budget: nat)
    returns (best: Option<CubeChoice>, cost: nat, left: nat, ghost tries: set<Try>)
    requires AllSorted(terms)
    ensures IsBest(Abs(terms), best, cost, left == 0)
    ensures IsSpent(Abs(terms), tries, budget, left)
  {
    hide Optimal, Achievable, Worthwhile, Inner, Outer, NewId, ProductsCost, Beats, Tried, Abs, MaskOf;
    hide BySavings, IsSorted, Counted, AreTries, BeatsSplits, Once, IsChoice;
    hide IsSearched, AllKnown, Achieves, NoneCheaper, PartsKnown;
    ghost var A := Abs(terms);
    var search := new FactorSearch(budget, A);
    cost := GetProductsCost(terms);
    best := None;
    FlatAchieves(A);
    var choices := GetCubeChoices(terms);
    NothingKnown(search.costs);
    for i := 0 to |choices|
      invariant fresh(search) && search.Valid() && search.root == A && search.start == budget
      invariant AllKnown(search.tries, search.costs)
      invariant Achievable(A, cost) && cost <= ProductsCost(A)
      invariant i > 0 ==> cost + choices[0].savings <= ProductsCost(A) && best.Some?
      invariant !search.greedy ==> forall c :: c in choices[..i] ==> Beats(A, c.mask, cost)
      invariant forall c :: c in choices[..i] ==> PartsKnown(search.costs, A, c)
      invariant best.None? ==> cost == ProductsCost(A)
      invariant best.Some? ==> cost < ProductsCost(A) && Achieves(A, best.value, cost) && HasChoice(A)
    {
      ghost var before, costs0 := cost, search.costs;
      assert choices[i] in choices && choices[..i + 1] == choices[..i] + [choices[i]];
      ChoiceIsWorthwhile(A, choices[i]);
      var xy := SearchParts(search, terms, choices[i]);
      PartsStayKnown(costs0, search.costs, A, choices[..i]);
      if xy < cost {
        cost := xy;
        best := Some(choices[i]);
      }
      if !search.greedy { BeatsNext(A, choices, i, xy, before, cost); }
    }
    left, tries := search.budget, search.tries;
    FirstIsEnough(A, choices, cost);
    assert choices[..|choices|] == choices;
    if !search.greedy {
      AllTriedIsOptimal(A, choices, cost);
      OptimalIsLeast(A, cost);
      forall id, skip | Worthwhile(A, id, skip)
        ensures IsSearched(tries, Inner(A, id, skip)) && IsSearched(tries, Outer(A, id, skip, NewId(A)))
      {
        assert Tried(A, choices, id, skip);
        PartsSearched(tries, search.costs, A, choices, id, skip);
      }
    }
  }

  lemma {:induction false} NothingKnown(costs: Costs)
    ensures AllKnown({}, costs)
  {}

  lemma {:induction false} CostsGrow(tries: set<Try>, costs: Costs, more: set<Try>, after: Costs, bound: nat)
    requires WentOn(tries, costs, more, after, bound)
    ensures forall key :: key in costs ==> key in after
  {}

  lemma {:induction false} ChoiceAchieves(terms: seq<Product>, c: CubeChoice, id: nat, skip: bool, x: nat, y: nat)
    requires IsChoice(terms, c, id, skip)
    requires Achievable(Inner(terms, id, skip), x) && Achievable(Outer(terms, id, skip, NewId(terms)), y)
    ensures Achieves(terms, c, x + y)
  {
    hide Worthwhile, Achievable, Inner, Outer, NewId;
    assert SplitCosts(terms, c, x, y);
  }
}
