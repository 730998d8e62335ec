/**
 Ways of factoring a sum of products (FactorSum in geomalg/lib/Geomalg/Passes.cpp),
 apart from how the search for the cheapest is done.

 A product is the multiset of the ids of its factors.
 */
module Factorings {
  import opened Permutations
  import opened RealProducts

  type Product = multiset<nat>

  // ---------------------------------------------------------------- costs

  function ProductCost(t: Product): nat { if |t| == 0 then 0 else |t| - 1 }

  /** The multiplications in a sum of products. */
  function ProductsCost(terms: seq<Product>): nat {
    if terms == [] then 0 else ProductCost(terms[0]) + ProductsCost(terms[1..])
  }

  function TotalFactors(terms: seq<Product>): nat {
    if terms == [] then 0 else |terms[0]| + TotalFactors(terms[1..])
  }

  // ---------------------------------------------------------------- choices

  /** The terms that contain a factor, with or without the terms that are only that factor. */
  predicate IsChosen(t: Product, id: nat, skip: bool) { id in t && !(skip && |t| == 1) }

  function Chosen(terms: seq<Product>, id: nat, skip: bool): (r: seq<Product>)
    ensures forall i :: 0 <= i < |r| ==> IsChosen(r[i], id, skip)
  {
    if terms == [] then []
    else if IsChosen(terms[0], id, skip) then [terms[0]] + Chosen(terms[1..], id, skip)
    else Chosen(terms[1..], id, skip)
  }

  function Others(terms: seq<Product>, id: nat, skip: bool): seq<Product> {
    if terms == [] then []
    else if IsChosen(terms[0], id, skip) then Others(terms[1..], id, skip)
    else [terms[0]] + Others(terms[1..], id, skip)
  }

  /** The factors that all the terms share. */
  function Cube(chosen: seq<Product>): (c: Product)
    requires chosen != []
    ensures forall i :: 0 <= i < |chosen| ==> c <= chosen[i]
  {
    if |chosen| == 1 then chosen[0] else chosen[0] * Cube(chosen[1..])
  }

  /** The multiplications saved: the multiplication by a term that is only the cube does not count. */
  function Savings(chosen: seq<Product>, size: nat): int {
    (|chosen| - 1) * size - CountOfSize(chosen, size)
  }

  function CountOfSize(chosen: seq<Product>, size: nat): (k: nat)
    ensures k <= |chosen|
  {
    if chosen == [] then 0 else (if |chosen[0]| == size then 1 else 0) + CountOfSize(chosen[1..], size)
  }

  function WithoutCube(chosen: seq<Product>, cube: Product): (r: seq<Product>)
    ensures |r| == |chosen|
  {
    if chosen == [] then [] else [chosen[0] - cube] + WithoutCube(chosen[1..], cube)
  }

  /** An id for the new inner sum: one more than any id of the terms. */
  ghost predicate IsNewId(terms: seq<Product>, k: nat) {
    && (forall i, x :: 0 <= i < |terms| && x in terms[i] ==> x < k)
    && (k == 0 || exists i :: 0 <= i < |terms| && k - 1 in terms[i])
  }

  /** A choice is tried when it joins two terms or more and saves a multiplication. */
  predicate Worthwhile(terms: seq<Product>, id: nat, skip: bool) {
    var chosen := Chosen(terms, id, skip);
    |chosen| >= 2 && Savings(chosen, |Cube(chosen)|) > 0
  }

  function Inner(terms: seq<Product>, id: nat, skip: bool): seq<Product>
    requires Worthwhile(terms, id, skip)
  {
    var chosen := Chosen(terms, id, skip);
    WithoutCube(chosen, Cube(chosen))
  }

  function Outer(terms: seq<Product>, id: nat, skip: bool, newId: nat): seq<Product>
    requires Worthwhile(terms, id, skip)
  {
    Others(terms, id, skip) + [Cube(Chosen(terms, id, skip)) + multiset{newId}]
  }

  // ---------------------------------------------------------------- exact savings

  lemma {:induction false} CostConcat(s: seq<Product>, t: seq<Product>)
    ensures ProductsCost(s + t) == ProductsCost(s) + ProductsCost(t)
    ensures TotalFactors(s + t) == TotalFactors(s) + TotalFactors(t)
  {
    if s == [] {
      assert s + t == t;
    } else {
      assert (s + t)[1..] == s[1..] + t;
      CostConcat(s[1..], t);
    }
  }

  lemma {:induction false} CostOne(t: Product)
    ensures ProductsCost([t]) == ProductCost(t) && TotalFactors([t]) == |t|
  {
    var none: seq<Product> := [t][1..];
    assert none == [];
  }

  lemma {:induction false} CostSplit(terms: seq<Product>, id: nat, skip: bool)
    ensures ProductsCost(terms) == ProductsCost(Chosen(terms, id, skip)) + ProductsCost(Others(terms, id, skip))
    ensures TotalFactors(terms) == TotalFactors(Chosen(terms, id, skip)) + TotalFactors(Others(terms, id, skip))
  {
    if terms != [] {
      CostSplit(terms[1..], id, skip);
      if IsChosen(terms[0], id, skip) {
        CostConcat([terms[0]], Chosen(terms[1..], id, skip));
      } else {
        CostConcat([terms[0]], Others(terms[1..], id, skip));
      }
      CostOne(terms[0]);
    }
  }

  lemma {:induction false} Removed(t: Product, cube: Product)
    requires cube <= t
    ensures t == cube + (t - cube) && |t - cube| == |t| - |cube|
  {
    assert t == cube + (t - cube);
  }

  lemma {:induction false} CostWithoutCube(chosen: seq<Product>, cube: Product)
    requires forall i :: 0 <= i < |chosen| ==> cube <= chosen[i] && |chosen[i]| > 0
    ensures ProductsCost(chosen) + CountOfSize(chosen, |cube|)
         == ProductsCost(WithoutCube(chosen, cube)) + |chosen| * |cube|
    ensures TotalFactors(chosen) == TotalFactors(WithoutCube(chosen, cube)) + |chosen| * |cube|
    ensures |chosen| - CountOfSize(chosen, |cube|) <= TotalFactors(WithoutCube(chosen, cube))
  {
    if chosen != [] {
      Removed(chosen[0], cube);
      CostWithoutCube(chosen[1..], cube);
      Times(|chosen|, |cube|);
      assert WithoutCube(chosen, cube)[1..] == WithoutCube(chosen[1..], cube);
    }
  }

  lemma {:induction false} Times(n: nat, k: nat)
    requires n > 0
    ensures n * k == (n - 1) * k + k
  {}

  /** The savings of a choice are what it saves. */
  lemma {:induction false} SavingsExact(terms: seq<Product>, id: nat, skip: bool, newId: nat)
    requires Worthwhile(terms, id, skip)
    ensures var chosen := Chosen(terms, id, skip);
      Savings(chosen, |Cube(chosen)|)
      == ProductsCost(terms) - ProductsCost(Inner(terms, id, skip)) - ProductsCost(Outer(terms, id, skip, newId))
  {
    var chosen := Chosen(terms, id, skip);
    var cube := Cube(chosen);
    CostSplit(terms, id, skip);
    CostWithoutCube(chosen, cube);
    CostOfProduct(cube, newId);
    CostConcat(Others(terms, id, skip), [cube + multiset{newId}]);
    Times(|chosen|, |cube|);
  }

  lemma {:induction false} CostOfProduct(cube: Product, newId: nat)
    ensures ProductsCost([cube + multiset{newId}]) == |cube|
    ensures TotalFactors([cube + multiset{newId}]) == |cube| + 1
  {
    var p := cube + multiset{newId};
    CostOne(p);
    assert |p| == |cube| + 1;
  }

  /** Both parts have fewer factors in all, so the search ends. */
  lemma {:induction false} FactorsFall(terms: seq<Product>, id: nat, skip: bool, newId: nat)
    requires Worthwhile(terms, id, skip)
    ensures TotalFactors(Inner(terms, id, skip)) < TotalFactors(terms)
    ensures TotalFactors(Outer(terms, id, skip, newId)) < TotalFactors(terms)
  {
    var chosen := Chosen(terms, id, skip);
    var cube := Cube(chosen);
    CostSplit(terms, id, skip);
    CostWithoutCube(chosen, cube);
    CostOfProduct(cube, newId);
    CostConcat(Others(terms, id, skip), [cube + multiset{newId}]);
    Times(|chosen|, |cube|);
    AtLeast(|chosen| - 1, |cube|, CountOfSize(chosen, |cube|));
  }

  lemma {:induction false} AtLeast(n: nat, k: nat, e: nat)
    requires n * k - e > 0
    ensures n > 0 && k > 0 && n * k > e
  {}

  /** The chosen terms are those that contain the factor, without those that are only it if they are skipped. */
  lemma {:induction false} ChosenExactly(terms: seq<Product>, id: nat, skip: bool, t: Product)
    ensures t in Chosen(terms, id, skip) <==> t in terms && id in t && (skip ==> |t| != 1)
    ensures t in Others(terms, id, skip) <==> t in terms && (id !in t || (skip && |t| == 1))
  {
    if terms != [] {
      ChosenExactly(terms[1..], id, skip, t);
      assert terms == [terms[0]] + terms[1..];
    }
  }

  /** A choice is tried exactly when it joins two terms or more and costs less, its parts as they are. */
  lemma {:induction false} WorthwhileExactly(terms: seq<Product>, id: nat, skip: bool, newId: nat)
    ensures var chosen := Chosen(terms, id, skip);
      Worthwhile(terms, id, skip) <==>
        |chosen| >= 2 &&
        ProductsCost(WithoutCube(chosen, Cube(chosen))) +
          ProductsCost(Others(terms, id, skip) + [Cube(chosen) + multiset{newId}]) < ProductsCost(terms)
  {
    var chosen := Chosen(terms, id, skip);
    if |chosen| >= 2 {
      var cube := Cube(chosen);
      CostSplit(terms, id, skip);
      CostWithoutCube(chosen, cube);
      CostOfProduct(cube, newId);
      CostConcat(Others(terms, id, skip), [cube + multiset{newId}]);
      Times(|chosen|, |cube|);
    }
  }

  // ---------------------------------------------------------------- values

  /** The product of the values of factors. */
  ghost function Value(env: nat -> real, t: Product): real
    decreases |t|
  {
    if t == multiset{} then 1.0 else
      var x :| x in t;
      Mul(env(x), Value(env, t - multiset{x}))
  }

  /** A sum of products with coefficients. */
  ghost function SumValue(env: nat -> real, cs: seq<real>, terms: seq<Product>): real
    requires |cs| == |terms|
  {
    if terms == [] then 0.0 else Mul(cs[0], Value(env, terms[0])) + SumValue(env, cs[1..], terms[1..])
  }

  /** The coefficients of the chosen terms and of the others. */
  function ChosenOf(cs: seq<real>, terms: seq<Product>, id: nat, skip: bool): (r: seq<real>)
    requires |cs| == |terms|
    ensures |r| == |Chosen(terms, id, skip)|
  {
    if terms == [] then []
    else if IsChosen(terms[0], id, skip) then [cs[0]] + ChosenOf(cs[1..], terms[1..], id, skip)
    else ChosenOf(cs[1..], terms[1..], id, skip)
  }

  function OthersOf(cs: seq<real>, terms: seq<Product>, id: nat, skip: bool): (r: seq<real>)
    requires |cs| == |terms|
    ensures |r| == |Others(terms, id, skip)|
  {
    if terms == [] then []
    else if IsChosen(terms[0], id, skip) then OthersOf(cs[1..], terms[1..], id, skip)
    else [cs[0]] + OthersOf(cs[1..], terms[1..], id, skip)
  }

  lemma {:induction false} RemoveBoth(t: Product, x: nat, y: nat)
    ensures t - multiset{y} - multiset{x} == t - multiset{x} - multiset{y}
  {}

  lemma {:induction false} ValueRemove(env: nat -> real, t: Product, x: nat)
    requires x in t
    ensures Value(env, t) == Mul(env(x), Value(env, t - multiset{x}))
    decreases |t|
  {
    hide Mul;
    var y :| y in t && Value(env, t) == Mul(env(y), Value(env, t - multiset{y}));
    if x != y {
      var p, q := t - multiset{x}, t - multiset{y};
      ValueRemove(env, q, x);
      ValueRemove(env, p, y);
      RemoveBoth(t, x, y);
      MulSwap(env(x), env(y), Value(env, p - multiset{y}));
    }
  }

  lemma {:induction false} RemoveLeft(s: Product, t: Product, x: nat)
    requires x in s
    ensures s + t - multiset{x} == (s - multiset{x}) + t && x in s + t
  {}

  lemma {:induction false} ValueAdd(env: nat -> real, s: Product, t: Product)
    ensures Value(env, s + t) == Mul(Value(env, s), Value(env, t))
    decreases |s|
  {
    hide Mul;
    if s == multiset{} {
      assert s + t == t;
      MulUnit(Value(env, t));
    } else {
      var x :| x in s;
      var r := s - multiset{x};
      ValueRemove(env, s, x);
      RemoveLeft(s, t, x);
      ValueRemove(env, s + t, x);
      ValueAdd(env, r, t);
      MulAssoc(env(x), Value(env, r), Value(env, t));
    }
  }

  /** The cube times the rest of the chosen terms is the chosen terms. */
  lemma {:induction false} WithoutCubeValue(env: nat -> real, cs: seq<real>, chosen: seq<Product>, cube: Product)
    requires |cs| == |chosen| && forall i :: 0 <= i < |chosen| ==> cube <= chosen[i]
    ensures SumValue(env, cs, chosen) == Mul(Value(env, cube), SumValue(env, cs, WithoutCube(chosen, cube)))
  {
    hide Mul, Value;
    if chosen == [] {
      MulUnit(Value(env, cube));
    } else {
      var a, r := Value(env, cube), chosen[0] - cube;
      Removed(chosen[0], cube);
      ValueAdd(env, cube, r);
      WithoutCubeValue(env, cs[1..], chosen[1..], cube);
      var rest := WithoutCube(chosen[1..], cube);
      assert WithoutCube(chosen, cube)[1..] == rest;
      MulSwap(a, cs[0], Value(env, r));
      MulAdd(a, Mul(cs[0], Value(env, r)), SumValue(env, cs[1..], rest));
    }
  }

  lemma {:induction false} SumValueCons(env: nat -> real, c: real, t: Product, cs: seq<real>, terms: seq<Product>)
    requires |cs| == |terms|
    ensures SumValue(env, [c] + cs, [t] + terms) == Mul(c, Value(env, t)) + SumValue(env, cs, terms)
  {
    assert ([c] + cs)[1..] == cs && ([t] + terms)[1..] == terms;
  }

  lemma {:induction false} SumValueSplit(env: nat -> real, cs: seq<real>, terms: seq<Product>, id: nat, skip: bool)
    requires |cs| == |terms|
    ensures SumValue(env, cs, terms)
         == SumValue(env, ChosenOf(cs, terms, id, skip), Chosen(terms, id, skip))
          + SumValue(env, OthersOf(cs, terms, id, skip), Others(terms, id, skip))
  {
    hide Mul, Value;
    if terms != [] {
      SumValueSplit(env, cs[1..], terms[1..], id, skip);
      if IsChosen(terms[0], id, skip) {
        SumValueCons(env, cs[0], terms[0], ChosenOf(cs[1..], terms[1..], id, skip), Chosen(terms[1..], id, skip));
      } else {
        SumValueCons(env, cs[0], terms[0], OthersOf(cs[1..], terms[1..], id, skip), Others(terms[1..], id, skip));
      }
    }
  }

  /** Factoring out the cube of a choice keeps the value of the sum. */
  lemma {:induction false} ChoiceKeepsValue(env: nat -> real, cs: seq<real>, terms: seq<Product>, id: nat, skip: bool)
    requires |cs| == |terms| && Worthwhile(terms, id, skip)
    ensures |ChosenOf(cs, terms, id, skip)| == |Inner(terms, id, skip)|
    ensures SumValue(env, cs, terms)
         == Mul(Value(env, Cube(Chosen(terms, id, skip))),
                SumValue(env, ChosenOf(cs, terms, id, skip), Inner(terms, id, skip)))
          + SumValue(env, OthersOf(cs, terms, id, skip), Others(terms, id, skip))
  {
    hide Mul, Value, SumValue, ChosenOf, OthersOf;
    var chosen := Chosen(terms, id, skip);
    SumValueSplit(env, cs, terms, id, skip);
    WithoutCubeValue(env, ChosenOf(cs, terms, id, skip), chosen, Cube(chosen));
  }

  // ---------------------------------------------------------------- plans

  /** A way to evaluate a sum of products. */
  datatype Plan = Flat | Split(id: nat, skip: bool, inner: Plan, outer: Plan)

  ghost function Bound(t: Product): (k: nat)
    ensures forall x :: x in t ==> x < k
    ensures k == 0 || k - 1 in t
    decreases |t|
  {
    if t == multiset{} then 0 else
      var x :| x in t;
      var k := Bound(t - multiset{x});
      assert forall y :: y in t ==> y == x || y in t - multiset{x};
      if x + 1 > k then x + 1 else k
  }

  ghost function NewId(terms: seq<Product>): (k: nat)
    ensures IsNewId(terms, k)
  {
    if terms == [] then 0 else
      var b, k := Bound(terms[0]), NewId(terms[1..]);
      NewIdCons(terms, b, k);
      if b > k then b else k
  }

  lemma {:induction false} NewIdCons(terms: seq<Product>, b: nat, k: nat)
    requires terms != [] && IsNewId(terms[1..], k)
    requires (forall x :: x in terms[0] ==> x < b) && (b == 0 || b - 1 in terms[0])
    ensures IsNewId(terms, if b > k then b else k)
  {
    var m := if b > k then b else k;
    forall i, x | 0 <= i < |terms| && x in terms[i] ensures x < m {
      if i > 0 {
        assert x in terms[1..][i - 1];
      }
    }
    if b <= k && k > 0 {
      var i :| 0 <= i < |terms[1..]| && k - 1 in terms[1..][i];
      assert k - 1 in terms[i + 1];
    }
  }

  /** The plan factors by choices that the search may try. */
  ghost predicate Follows(plan: Plan, terms: seq<Product>) {
    match plan
    case Flat => true
    case Split(id, skip, p, q) =>
      Worthwhile(terms, id, skip) && Follows(p, Inner(terms, id, skip)) &&
        Follows(q, Outer(terms, id, skip, NewId(terms)))
  }

  ghost function PlanCost(plan: Plan, terms: seq<Product>): nat
    requires Follows(plan, terms)
  {
    match plan
    case Flat => ProductsCost(terms)
    case Split(id, skip, p, q) =>
      PlanCost(p, Inner(terms, id, skip)) + PlanCost(q, Outer(terms, id, skip, NewId(terms)))
  }

  ghost predicate Achievable(terms: seq<Product>, cost: nat) {
    exists plan :: Follows(plan, terms) && PlanCost(plan, terms) == cost
  }

  ghost predicate Optimal(terms: seq<Product>, cost: nat) {
    forall plan :: Follows(plan, terms) ==> cost <= PlanCost(plan, terms)
  }

  // ---------------------------------------------------------------- the order of terms

  /** How often a term is chosen does not depend on the order. */
  lemma {:induction false} ChosenCount(s: seq<Product>, id: nat, skip: bool, t: Product)
    ensures multiset(Chosen(s, id, skip))[t] == if IsChosen(t, id, skip) then multiset(s)[t] else 0
    ensures multiset(Others(s, id, skip))[t] == if IsChosen(t, id, skip) then 0 else multiset(s)[t]
  {
    if s != [] {
      ChosenCount(s[1..], id, skip, t);
      assert s == [s[0]] + s[1..];
    }
  }

  lemma {:induction false} ChosenSame(s: seq<Product>, t: seq<Product>, id: nat, skip: bool)
    requires multiset(s) == multiset(t)
    ensures multiset(Chosen(s, id, skip)) == multiset(Chosen(t, id, skip))
    ensures multiset(Others(s, id, skip)) == multiset(Others(t, id, skip))
  {
    forall x: Product
      ensures multiset(Chosen(s, id, skip))[x] == multiset(Chosen(t, id, skip))[x]
      ensures multiset(Others(s, id, skip))[x] == multiset(Others(t, id, skip))[x]
    {
      ChosenCount(s, id, skip, x);
      ChosenCount(t, id, skip, x);
    }
  }

  lemma {:induction false} SizeConcat(s: seq<Product>, t: seq<Product>, size: nat)
    ensures CountOfSize(s + t, size) == CountOfSize(s, size) + CountOfSize(t, size)
  {
    if s == [] {
      assert s + t == t;
    } else {
      assert (s + t)[1..] == s[1..] + t;
      SizeConcat(s[1..], t, size);
    }
  }

  lemma {:induction false} WithoutCubeConcat(s: seq<Product>, t: seq<Product>, cube: Product)
    ensures WithoutCube(s + t, cube) == WithoutCube(s, cube) + WithoutCube(t, cube)
  {
    if s == [] {
      assert s + t == t;
    } else {
      assert (s + t)[1..] == s[1..] + t;
      WithoutCubeConcat(s[1..], t, cube);
    }
  }

  lemma {:induction false} OneOf(x: Product, size: nat, cube: Product)
    ensures CountOfSize([x], size) == if |x| == size then 1 else 0
    ensures WithoutCube([x], cube) == [x - cube]
  {
    var none: seq<Product> := [x][1..];
    assert none == [];
  }

  lemma {:induction false} SameTerms(s: seq<Product>, t: seq<Product>, size: nat)
    requires multiset(s) == multiset(t)
    ensures |s| == |t| && CountOfSize(s, size) == CountOfSize(t, size)
    ensures ProductsCost(s) == ProductsCost(t) && TotalFactors(s) == TotalFactors(t)
  {
    assert |s| == |multiset(s)| && |t| == |multiset(t)|;
    if s != [] {
      var i := RemoveOne(s, t);
      SameTerms(s[1..], t[..i] + t[i + 1..], size);
      SizeConcat(t[..i] + [s[0]], t[i + 1..], size);
      SizeConcat(t[..i], [s[0]], size);
      SizeConcat(t[..i], t[i + 1..], size);
      CostConcat(t[..i] + [s[0]], t[i + 1..]);
      CostConcat(t[..i], [s[0]]);
      CostConcat(t[..i], t[i + 1..]);
      OneOf(s[0], size, s[0]);
      CostOne(s[0]);
    }
  }

  lemma {:induction false} WithoutCubeSame(s: seq<Product>, t: seq<Product>, cube: Product)
    requires multiset(s) == multiset(t)
    ensures multiset(WithoutCube(s, cube)) == multiset(WithoutCube(t, cube))
  {
    if s == [] {
      assert |t| == |multiset(t)| == 0;
    } else {
      var i := RemoveOne(s, t);
      WithoutCubeSame(s[1..], t[..i] + t[i + 1..], cube);
      WithoutCubeConcat(t[..i] + [s[0]], t[i + 1..], cube);
      WithoutCubeConcat(t[..i], [s[0]], cube);
      WithoutCubeConcat(t[..i], t[i + 1..], cube);
      OneOf(s[0], 0, cube);
    }
  }

  /** The cube is the largest product that all the terms contain. */
  lemma {:induction false} CubeIsLargest(chosen: seq<Product>, m: Product)
    requires chosen != [] && forall i :: 0 <= i < |chosen| ==> m <= chosen[i]
    ensures m <= Cube(chosen)
  {
    if |chosen| > 1 {
      CubeIsLargest(chosen[1..], m);
    }
  }

  lemma {:induction false} CubeSame(s: seq<Product>, t: seq<Product>)
    requires s != [] && t != [] && multiset(s) == multiset(t)
    ensures Cube(s) == Cube(t)
  {
    CubeWithin(s, t);
    CubeWithin(t, s);
  }

  lemma {:induction false} CubeWithin(s: seq<Product>, t: seq<Product>)
    requires s != [] && t != [] && multiset(s) == multiset(t)
    ensures Cube(s) <= Cube(t)
  {
    forall i | 0 <= i < |t| ensures Cube(s) <= t[i] {
      assert t[i] in multiset(s);
      var j :| 0 <= j < |s| && s[j] == t[i];
    }
    CubeIsLargest(t, Cube(s));
  }

  lemma {:induction false} NewIdWithin(s: seq<Product>, t: seq<Product>, k: nat)
    requires multiset(s) == multiset(t) && IsNewId(s, k)
    ensures NewId(t) <= k
  {
    var m := NewId(t);
    if m > 0 {
      var i :| 0 <= i < |t| && m - 1 in t[i];
      assert t[i] in multiset(s);
      var j :| 0 <= j < |s| && s[j] == t[i];
    }
  }

  /** A choice is the same for any order of the terms. */
  lemma {:induction false} ChoiceSame(s: seq<Product>, t: seq<Product>, id: nat, skip: bool)
    requires multiset(s) == multiset(t) && Worthwhile(s, id, skip)
    ensures Worthwhile(t, id, skip)
    ensures multiset(Inner(s, id, skip)) == multiset(Inner(t, id, skip))
    ensures multiset(Outer(s, id, skip, NewId(s))) == multiset(Outer(t, id, skip, NewId(t)))
  {
    hide Chosen, Others, Cube, CountOfSize, WithoutCube, NewId, IsNewId;
    var c, d := Chosen(s, id, skip), Chosen(t, id, skip);
    ChosenSame(s, t, id, skip);
    SameTerms(c, d, |Cube(c)|);
    CubeSame(c, d);
    WithoutCubeSame(c, d, Cube(c));
    NewIdWithin(s, t, NewId(s));
    NewIdWithin(t, s, NewId(t));
  }

  lemma {:induction false} PlanSame(plan: Plan, s: seq<Product>, t: seq<Product>)
    requires multiset(s) == multiset(t) && Follows(plan, s)
    ensures Follows(plan, t) && PlanCost(plan, s) == PlanCost(plan, t)
  {
    hide Worthwhile, Inner, Outer, NewId, ProductsCost;
    match plan
    case Flat =>
      SameTerms(s, t, 0);
    case Split(id, skip, p, q) =>
      ChoiceSame(s, t, id, skip);
      PlanSame(p, Inner(s, id, skip), Inner(t, id, skip));
      PlanSame(q, Outer(s, id, skip, NewId(s)), Outer(t, id, skip, NewId(t)));
  }

  /** So a cost found for some terms may be used for the same terms in another order. */
  lemma {:induction false} CostSame(s: seq<Product>, t: seq<Product>, cost: nat)
    requires multiset(s) == multiset(t)
    ensures Achievable(s, cost) ==> Achievable(t, cost)
    ensures Optimal(s, cost) ==> Optimal(t, cost)
  {
    if Achievable(s, cost) {
      var plan :| Follows(plan, s) && PlanCost(plan, s) == cost;
      PlanSame(plan, s, t);
    }
    if Optimal(s, cost) {
      forall plan | Follows(plan, t) ensures cost <= PlanCost(plan, t) {
        PlanSame(plan, t, s);
      }
    }
  }

  // ---------------------------------------------------------------- the new inner sum

  ghost function With(env: nat -> real, k: nat, v: real): nat -> real {
    (x: nat) => if x == k then v else env(x)
  }

  lemma {:induction false} ValueOfOthers(env: nat -> real, k: nat, v: real, t: Product)
    requires k !in t
    ensures Value(With(env, k, v), t) == Value(env, t)
    decreases |t|
  {
    hide Mul;
    if t != multiset{} {
      var x :| x in t;
      ValueRemove(env, t, x);
      ValueRemove(With(env, k, v), t, x);
      ValueOfOthers(env, k, v, t - multiset{x});
    }
  }

  lemma {:induction false} SumValueOfOthers(env: nat -> real, k: nat, v: real, cs: seq<real>, terms: seq<Product>)
    requires |cs| == |terms| && forall i :: 0 <= i < |terms| ==> k !in terms[i]
    ensures SumValue(With(env, k, v), cs, terms) == SumValue(env, cs, terms)
  {
    hide Mul, Value;
    if terms != [] {
      ValueOfOthers(env, k, v, terms[0]);
      SumValueOfOthers(env, k, v, cs[1..], terms[1..]);
    }
  }

  lemma {:induction false} SumValueSnoc(env: nat -> real, cs: seq<real>, terms: seq<Product>, c: real, t: Product)
    requires |cs| == |terms|
    ensures SumValue(env, cs + [c], terms + [t]) == SumValue(env, cs, terms) + Mul(c, Value(env, t))
  {
    hide Mul, Value;
    if terms == [] {
      assert cs + [c] == [c] + [] && terms + [t] == [t] + [];
      SumValueCons(env, c, t, [], []);
    } else {
      assert (cs + [c])[1..] == cs[1..] + [c] && (terms + [t])[1..] == terms[1..] + [t];
      SumValueSnoc(env, cs[1..], terms[1..], c, t);
    }
  }

  lemma {:induction false} OthersAreTerms(terms: seq<Product>, id: nat, skip: bool, k: nat)
    requires forall i :: 0 <= i < |terms| ==> k !in terms[i]
    ensures forall i :: 0 <= i < |Others(terms, id, skip)| ==> k !in Others(terms, id, skip)[i]
    ensures forall i :: 0 <= i < |Chosen(terms, id, skip)| ==> k !in Chosen(terms, id, skip)[i]
  {
    if terms != [] {
      OthersAreTerms(terms[1..], id, skip, k);
    }
  }

  /** The outer sum, with the new id standing for the inner sum, has the value of the whole. */
  lemma {:induction false} OuterKeepsValue(env: nat -> real, cs: seq<real>, terms: seq<Product>, id: nat, skip: bool)
    requires |cs| == |terms| && Worthwhile(terms, id, skip)
    ensures |ChosenOf(cs, terms, id, skip)| == |Inner(terms, id, skip)|
    ensures |OthersOf(cs, terms, id, skip) + [1.0]| == |Outer(terms, id, skip, NewId(terms))|
    ensures var inner := SumValue(env, ChosenOf(cs, terms, id, skip), Inner(terms, id, skip));
      SumValue(With(env, NewId(terms), inner), OthersOf(cs, terms, id, skip) + [1.0],
               Outer(terms, id, skip, NewId(terms)))
      == SumValue(env, cs, terms)
  {
    hide Mul, Value, SumValue;
    var k, cube := NewId(terms), Cube(Chosen(terms, id, skip));
    var inner := SumValue(env, ChosenOf(cs, terms, id, skip), Inner(terms, id, skip));
    ChoiceKeepsValue(env, cs, terms, id, skip);
    NewIdIsNew(terms, k);
    OthersAreTerms(terms, id, skip, k);
    SumValueSnoc(With(env, k, inner), OthersOf(cs, terms, id, skip), Others(terms, id, skip), 1.0, cube + multiset{k});
    SumValueOfOthers(env, k, inner, OthersOf(cs, terms, id, skip), Others(terms, id, skip));
    ValueOfNew(env, k, inner, cube);
    MulUnit(Mul(inner, Value(env, cube)));
    MulComm(inner, Value(env, cube));
  }

  lemma {:induction false} NewIdIsNew(terms: seq<Product>, k: nat)
    requires IsNewId(terms, k)
    ensures forall i :: 0 <= i < |terms| ==> k !in terms[i]
  {}

  lemma {:induction false} ValueOfNew(env: nat -> real, k: nat, v: real, cube: Product)
    requires k !in cube
    ensures Value(With(env, k, v), cube + multiset{k}) == Mul(v, Value(env, cube))
  {
    hide Mul;
    var p := cube + multiset{k};
    ValueRemove(With(env, k, v), p, k);
    assert p - multiset{k} == cube;
    ValueOfOthers(env, k, v, cube);
  }
}