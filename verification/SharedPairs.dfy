/**
 Multiplying a pair of factors that products of a block share only once
 (factorProducts in geomalg/lib/Geomalg/Passes.cpp).
 */
module SharedPairs {
  import opened Options
  import opened RealProducts
  import opened Factorings

  /** An operation defines a value from others.  Some of them are products. */
  datatype Op = Op(id: nat, args: seq<nat>, isMul: bool)

  type Ops = seq<Op>

  type Pair = (nat, nat)

  /** A product of two factors or more that has both of a pair among them. */
  predicate Holds(op: Op, p: Pair) {
    op.isMul && |op.args| >= 2 && multiset{p.0, p.1} <= multiset(op.args)
  }

  // ---------------------------------------------------------------- meaning and cost

  /** The values of a block: each product is the product of its factors. */
  ghost predicate Consistent(env: nat -> real, ops: Ops) {
    forall i :: 0 <= i < |ops| && ops[i].isMul ==> env(ops[i].id) == Value(env, multiset(ops[i].args))
  }

  /** Every operand is defined before its use, and nothing is defined twice. */
  predicate Scoped(ops: Ops, defined: set<nat>) {
    ops == [] ||
    (&& (forall x :: x in ops[0].args ==> x in defined)
     && ops[0].id !in defined
     && Scoped(ops[1..], defined + {ops[0].id}))
  }

  /** The number of multiplications of a block. */
  function Cost(ops: Ops): nat {
    if ops == [] then 0 else OpCost(ops[0]) + Cost(ops[1..])
  }

  function OpCost(op: Op): nat { if op.isMul && |op.args| > 0 then |op.args| - 1 else 0 }

  function CountOf(ops: Ops, p: Pair): nat {
    if ops == [] then 0 else (if Holds(ops[0], p) then 1 else 0) + CountOf(ops[1..], p)
  }

  predicate HasOther(ops: Ops, p: Pair) {
    ops != [] && ((Holds(ops[0], p) && |ops[0].args| > 2) || HasOther(ops[1..], p))
  }

  // ---------------------------------------------------------------- a round

  function RemoveFirst(s: seq<nat>, x: nat): (r: seq<nat>)
    requires x in s
    ensures multiset(r) == multiset(s) - multiset{x} && |r| == |s| - 1
  {
    assert s == [s[0]] + s[1..];
    if s[0] == x then s[1..] else
      assert multiset([s[0]] + RemoveFirst(s[1..], x)) == multiset{s[0]} + multiset(RemoveFirst(s[1..], x));
      [s[0]] + RemoveFirst(s[1..], x)
  }

  /** The product with the new factor in the place of the pair. */
  function Replaced(op: Op, p: Pair, k: nat): (r: Op)
    requires Holds(op, p)
    ensures r.id == op.id && r.isMul && |r.args| == |op.args| - 1
    ensures multiset(r.args) == multiset{k} + (multiset(op.args) - multiset{p.0, p.1})
  {
    HasBoth(op, p);
    var rest := RemoveFirst(RemoveFirst(op.args, p.0), p.1);
    assert multiset([k] + rest) == multiset{k} + multiset(rest);
    Op(op.id, [k] + rest, true)
  }

  lemma {:induction false} HasBoth(op: Op, p: Pair)
    requires Holds(op, p)
    ensures p.0 in op.args && p.1 in RemoveFirst(op.args, p.0)
    ensures multiset(op.args) - multiset{p.0} - multiset{p.1} == multiset(op.args) - multiset{p.0, p.1}
  {
    assert p.0 in multiset{p.0, p.1};
    assert p.1 in multiset{p.0, p.1} - multiset{p.0};
    assert p.1 in multiset(RemoveFirst(op.args, p.0));
  }

  /** The block after the pair is multiplied once, before its first use. */
  function Rewritten(ops: Ops, p: Pair, k: nat, placed: bool): Ops {
    if ops == [] then []
    else if !Holds(ops[0], p) then [ops[0]] + Rewritten(ops[1..], p, k, placed)
    else
      var rest := [Replaced(ops[0], p, k)] + Rewritten(ops[1..], p, k, true);
      if placed then rest else [Op(k, [p.0, p.1], true)] + rest
  }

  lemma {:induction false} CostCons(op: Op, ops: Ops)
    ensures Cost([op] + ops) == OpCost(op) + Cost(ops)
  {
    assert ([op] + ops)[1..] == ops;
  }

  lemma {:induction false} RewrittenCons(ops: Ops, p: Pair, k: nat, placed: bool)
    requires ops != [] && Holds(ops[0], p)
    ensures Rewritten(ops, p, k, placed)
         == (if placed then [Replaced(ops[0], p, k)] + Rewritten(ops[1..], p, k, true)
             else [Op(k, [p.0, p.1], true)] + ([Replaced(ops[0], p, k)] + Rewritten(ops[1..], p, k, true)))
  {}

  /** Each use of the pair costs one multiplication less, and the pair itself costs one. */
  lemma {:induction false} CostFalls(ops: Ops, p: Pair, k: nat, placed: bool)
    ensures Cost(Rewritten(ops, p, k, placed)) + CountOf(ops, p)
         == Cost(ops) + if placed || CountOf(ops, p) == 0 then 0 else 1
  {
    if ops != [] {
      if Holds(ops[0], p) {
        CostFalls(ops[1..], p, k, true);
        RewrittenCons(ops, p, k, placed);
        var r := Rewritten(ops[1..], p, k, true);
        CostCons(Replaced(ops[0], p, k), r);
        CostCons(Op(k, [p.0, p.1], true), [Replaced(ops[0], p, k)] + r);
      } else {
        CostFalls(ops[1..], p, k, placed);
        CostCons(ops[0], Rewritten(ops[1..], p, k, placed));
      }
    }
  }

  /** k is not mentioned in a block. */
  predicate Fresh(ops: Ops, k: nat) {
    ops == [] || (ops[0].id != k && k !in ops[0].args && Fresh(ops[1..], k))
  }

  lemma {:induction false} ScopedCons(op: Op, ops: Ops, defined: set<nat>)
    requires (forall x :: x in op.args ==> x in defined) && op.id !in defined && Scoped(ops, defined + {op.id})
    ensures Scoped([op] + ops, defined)
  {
    assert ([op] + ops)[1..] == ops;
  }

  lemma {:induction false} ReplacedArgs(op: Op, p: Pair, k: nat, x: nat)
    requires Holds(op, p) && x in Replaced(op, p, k).args
    ensures x == k || x in op.args
  {
    assert x in multiset(Replaced(op, p, k).args);
    if x != k {
      assert x in multiset(op.args);
    }
  }

  /** Operands stay defined before their use. */
  lemma {:induction false} RewrittenScoped(ops: Ops, defined: set<nat>, p: Pair, k: nat, placed: bool)
    requires Scoped(ops, defined) && Fresh(ops, k) && k !in defined
    ensures Scoped(Rewritten(ops, p, k, placed), if placed then defined + {k} else defined)
  {
    if ops != [] {
      var op, rest := ops[0], ops[1..];
      var all := if placed then defined + {k} else defined;
      assert defined + {op.id} + {k} == defined + {k} + {op.id};
      if Holds(op, p) {
        RewrittenScoped(rest, defined + {op.id}, p, k, true);
        RewrittenCons(ops, p, k, placed);
        var after, r := Replaced(op, p, k), Rewritten(rest, p, k, true);
        forall x | x in after.args ensures x in defined + {k} {
          ReplacedArgs(op, p, k, x);
        }
        ScopedCons(after, r, defined + {k});
        if !placed {
          HasBoth(op, p);
          BothDefined(op, p);
          ScopedCons(Op(k, [p.0, p.1], true), [after] + r, defined);
        }
      } else {
        RewrittenScoped(rest, defined + {op.id}, p, k, placed);
        ScopedCons(op, Rewritten(rest, p, k, placed), all);
      }
    }
  }

  lemma {:induction false} BothDefined(op: Op, p: Pair)
    requires Holds(op, p)
    ensures p.0 in op.args && p.1 in op.args
  {
    assert p.0 in multiset{p.0, p.1} && p.1 in multiset{p.0, p.1};
    assert p.0 in multiset(op.args) && p.1 in multiset(op.args);
  }

  // ---------------------------------------------------------------- values

  lemma {:induction false} PairValue(env: nat -> real, p: Pair)
    ensures Value(env, multiset{p.0, p.1}) == Mul(env(p.0), env(p.1))
  {
    hide Mul;
    var m := multiset{p.0, p.1};
    ValueRemove(env, m, p.0);
    ValueRemove(env, m - multiset{p.0}, p.1);
    assert m - multiset{p.0} - multiset{p.1} == multiset{};
    MulUnit(env(p.1));
  }

  /** A product keeps its value when the new factor is the product of the pair. */
  lemma {:induction false} ReplacedValue(env: nat -> real, op: Op, p: Pair, k: nat)
    requires Holds(op, p) && k !in op.args
    ensures Value(With(env, k, Mul(env(p.0), env(p.1))), multiset(Replaced(op, p, k).args))
         == Value(env, multiset(op.args))
  {
    hide Mul;
    var v, pair := Mul(env(p.0), env(p.1)), multiset{p.0, p.1};
    var rest := multiset(op.args) - pair;
    assert multiset{k} + rest == rest + multiset{k};
    assert k !in multiset(op.args);
    ValueOfNew(env, k, v, rest);
    ValueAdd(env, pair, rest);
    assert pair + rest == multiset(op.args);
    PairValue(env, p);
  }

  lemma {:induction false} ConsistentCons(env: nat -> real, op: Op, ops: Ops)
    ensures Consistent(env, [op] + ops)
       <==> (op.isMul ==> env(op.id) == Value(env, multiset(op.args))) && Consistent(env, ops)
  {
    var all := [op] + ops;
    if Consistent(env, all) {
      forall i | 0 <= i < |ops| && ops[i].isMul ensures env(ops[i].id) == Value(env, multiset(ops[i].args)) {
        assert all[i + 1] == ops[i];
      }
      assert all[0] == op;
    }
  }

  /** Every product of the block keeps its value. */
  lemma {:induction false} RewrittenConsistent(env: nat -> real, ops: Ops, p: Pair, k: nat, placed: bool)
    requires Consistent(env, ops) && Fresh(ops, k)
    requires k != p.0 && k != p.1
    ensures Consistent(With(env, k, Mul(env(p.0), env(p.1))), Rewritten(ops, p, k, placed))
  {
    hide Mul;
    if ops != [] {
      var op, rest := ops[0], ops[1..];
      var more := With(env, k, Mul(env(p.0), env(p.1)));
      assert ops == [op] + rest;
      ConsistentCons(env, op, rest);
      if Holds(op, p) {
        RewrittenConsistent(env, rest, p, k, true);
        RewrittenCons(ops, p, k, placed);
        var after, r, pair := Replaced(op, p, k), Rewritten(rest, p, k, true), Op(k, [p.0, p.1], true);
        ReplacedValue(env, op, p, k);
        ConsistentCons(more, after, r);
        NewPairValue(env, p, k);
        ConsistentCons(more, pair, [after] + r);
      } else {
        RewrittenConsistent(env, rest, p, k, placed);
        ConsistentCons(more, op, Rewritten(rest, p, k, placed));
        assert k !in multiset(op.args);
        ValueOfOthers(env, k, Mul(env(p.0), env(p.1)), multiset(op.args));
      }
    }
  }

  lemma {:induction false} NewPairValue(env: nat -> real, p: Pair, k: nat)
    requires k != p.0 && k != p.1
    ensures var more := With(env, k, Mul(env(p.0), env(p.1)));
      more(k) == Value(more, multiset([p.0, p.1]))
  {
    hide Mul;
    var m := multiset{p.0, p.1};
    assert multiset([p.0, p.1]) == m;
    PairValue(env, p);
    ValueOfOthers(env, k, Mul(env(p.0), env(p.1)), m);
  }

  // ---------------------------------------------------------------- counting pairs

  /** The products that contain a pair and whether one of them has another factor. */
  datatype PairCount = PairCount(count: nat, hasOtherFactors: bool)

  function Ordered(a: nat, b: nat): Pair { if b < a then (b, a) else (a, b) }

  lemma {:induction false} CountSnoc(ops: Ops, op: Op, p: Pair)
    ensures CountOf(ops + [op], p) == CountOf(ops, p) + (if Holds(op, p) then 1 else 0)
    ensures HasOther(ops + [op], p) <==> HasOther(ops, p) || (Holds(op, p) && |op.args| > 2)
  {
    if ops == [] {
      assert ops + [op] == [op] && [op][1..] == [];
    } else {
      assert (ops + [op])[1..] == ops[1..] + [op];
      CountSnoc(ops[1..], op, p);
    }
  }

  /** The order of a pair does not matter. */
  lemma {:induction false} CountSwap(ops: Ops, p: Pair, q: Pair)
    requires q == (p.1, p.0)
    ensures CountOf(ops, p) == CountOf(ops, q) && HasOther(ops, p) == HasOther(ops, q)
  {
    if ops != [] {
      CountSwap(ops[1..], p, q);
      assert multiset{p.0, p.1} == multiset{q.0, q.1};
    }
  }

  lemma {:induction false} OtherIsCounted(ops: Ops, p: Pair)
    requires HasOther(ops, p)
    ensures CountOf(ops, p) > 0
  {
    if !(Holds(ops[0], p) && |ops[0].args| > 2) {
      OtherIsCounted(ops[1..], p);
    }
  }

  lemma {:induction false} InRest(s: seq<nat>, x: nat) returns (i: nat)
    requires x in multiset(s)
    ensures i < |s| && s[i] == x
  {
    i :| 0 <= i < |s| && s[i] == x;
  }

  lemma {:induction false} PairAtIndices(args: seq<nat>, a: nat, b: nat) returns (i: nat, j: nat)
    requires multiset{a, b} <= multiset(args)
    ensures i < j < |args| && Ordered(args[i], args[j]) == Ordered(a, b)
  {
    assert a in multiset{a, b} && b in multiset{a, b} - multiset{a};
    var m := InRest(args, a);
    var rest := args[..m] + args[m + 1..];
    assert args == args[..m] + [a] + args[m + 1..];
    assert multiset(args) == multiset(rest) + multiset{a};
    assert b in multiset(rest);
    var n := InRest(rest, b);
    if n < m {
      i, j := n, m;
    } else {
      i, j := m, n + 1;
    }
  }

  lemma {:induction false} IndicesHold(args: seq<nat>, i: nat, j: nat)
    requires i < j < |args|
    ensures var p := Ordered(args[i], args[j]);
      multiset{p.0, p.1} <= multiset(args)
  {
    var a, b, p := args[i], args[j], Ordered(args[i], args[j]);
    assert args == args[..i] + [a] + args[i + 1..j] + [b] + args[j + 1..];
    assert multiset(args) ==
      multiset(args[..i]) + multiset{a} + multiset(args[i + 1..j]) + multiset{b} + multiset(args[j + 1..]);
    assert multiset{p.0, p.1} == multiset{a} + multiset{b};
  }

  /** The pairs of factors at positions before (i, j). */
  ghost predicate SeenBefore(args: seq<nat>, p: Pair, i: nat, j: nat) {
    exists a, b :: 0 <= a < b < |args| && (a < i || (a == i && b < j)) && Ordered(args[a], args[b]) == p
  }

  /** The pairs of a product. */
  method PairsOf(args: seq<nat>) returns (seen: seq<Pair>)
    requires |args| >= 2
    ensures forall p :: p in seen <==> p.0 <= p.1 && multiset{p.0, p.1} <= multiset(args)
    ensures forall a, b :: 0 <= a < b < |seen| ==> seen[a] != seen[b]
  {
    seen := [];
    for i := 0 to |args|
      invariant forall p :: p in seen <==> SeenBefore(args, p, i, 0)
      invariant forall a, b :: 0 <= a < b < |seen| ==> seen[a] != seen[b]
    {
      for j := i + 1 to |args|
        invariant forall p :: p in seen <==> SeenBefore(args, p, i, j)
        invariant forall a, b :: 0 <= a < b < |seen| ==> seen[a] != seen[b]
      {
        var p := Ordered(args[i], args[j]);
        SeenNext(args, i, j);
        if p !in seen {
          seen := seen + [p];
        }
      }
      SeenRow(args, i);
    }
    SeenAll(args);
  }

  lemma {:induction false} SeenNext(args: seq<nat>, i: nat, j: nat)
    requires i < j < |args|
    ensures forall p :: SeenBefore(args, p, i, j + 1) <==> SeenBefore(args, p, i, j) || p == Ordered(args[i], args[j])
  {
    forall p ensures SeenBefore(args, p, i, j + 1) <==> SeenBefore(args, p, i, j) || p == Ordered(args[i], args[j]) {
      if SeenBefore(args, p, i, j) {
        var a, b :| 0 <= a < b < |args| && (a < i || (a == i && b < j)) && Ordered(args[a], args[b]) == p;
        assert SeenBefore(args, p, i, j + 1);
      }
    }
  }

  lemma {:induction false} SeenRow(args: seq<nat>, i: nat)
    requires i < |args|
    ensures forall p :: SeenBefore(args, p, i + 1, 0) <==> SeenBefore(args, p, i, |args|)
  {
    forall p ensures SeenBefore(args, p, i + 1, 0) <==> SeenBefore(args, p, i, |args|) {
      if SeenBefore(args, p, i, |args|) {
        var a, b :| 0 <= a < b < |args| && (a < i || (a == i && b < |args|)) && Ordered(args[a], args[b]) == p;
        assert a < i + 1;
      }
    }
  }

  lemma {:induction false} SeenAll(args: seq<nat>)
    ensures forall p :: SeenBefore(args, p, |args|, 0) <==> p.0 <= p.1 && multiset{p.0, p.1} <= multiset(args)
  {
    forall p ensures SeenBefore(args, p, |args|, 0) <==> p.0 <= p.1 && multiset{p.0, p.1} <= multiset(args) {
      if p.0 <= p.1 && multiset{p.0, p.1} <= multiset(args) {
        var a, b := PairAtIndices(args, p.0, p.1);
        assert Ordered(args[a], args[b]) == p;
      }
      if SeenBefore(args, p, |args|, 0) {
        var a, b :| 0 <= a < b < |args| && (a < |args| || (a == |args| && b < 0)) && Ordered(args[a], args[b]) == p;
        IndicesHold(args, a, b);
      }
    }
  }

  /** The counts of the pairs of the products so far. */
  ghost predicate AreCounts(ops: Ops, counts: map<Pair, PairCount>) {
    && (forall p :: p in counts ==> p.0 <= p.1 && counts[p] == PairCount(CountOf(ops, p), HasOther(ops, p)))
    && (forall p: Pair :: p.0 <= p.1 && CountOf(ops, p) > 0 ==> p in counts)
  }

  lemma {:induction false} CountsSkip(ops: Ops, op: Op, counts: map<Pair, PairCount>)
    requires AreCounts(ops, counts) && !(op.isMul && |op.args| >= 2)
    ensures AreCounts(ops + [op], counts)
  {
    forall p ensures CountOf(ops + [op], p) == CountOf(ops, p) && HasOther(ops + [op], p) == HasOther(ops, p) {
      CountSnoc(ops, op, p);
    }
  }

  lemma {:induction false} CountsNext(ops: Ops, op: Op, before: map<Pair, PairCount>, after: map<Pair, PairCount>,
                                      seen: seq<Pair>)
    requires AreCounts(ops, before) && op.isMul && |op.args| >= 2
    requires forall p :: p in seen <==> p.0 <= p.1 && multiset{p.0, p.1} <= multiset(op.args)
    requires forall p :: p in after <==> p in before || p in seen
    requires forall p :: p in after ==> after[p] == if p in seen then Bumped(before, p, |op.args| > 2) else before[p]
    ensures AreCounts(ops + [op], after)
  {
    hide CountOf, HasOther, Holds, Bumped;
    forall p: Pair | p.0 <= p.1
      ensures p in after ==> after[p] == PairCount(CountOf(ops + [op], p), HasOther(ops + [op], p))
      ensures CountOf(ops + [op], p) > 0 ==> p in after
    {
      CountsNextAt(ops, op, before, p, p in seen);
    }
  }

  lemma {:induction false} CountsNextAt(ops: Ops, op: Op, before: map<Pair, PairCount>, p: Pair, isSeen: bool)
    requires AreCounts(ops, before) && op.isMul && |op.args| >= 2 && p.0 <= p.1
    requires isSeen <==> multiset{p.0, p.1} <= multiset(op.args)
    ensures isSeen ==> Bumped(before, p, |op.args| > 2) == PairCount(CountOf(ops + [op], p), HasOther(ops + [op], p))
    ensures !isSeen && p in before ==> before[p] == PairCount(CountOf(ops + [op], p), HasOther(ops + [op], p))
    ensures !isSeen && p !in before ==> CountOf(ops + [op], p) == 0
  {
    CountSnoc(ops, op, p);
    if p !in before && HasOther(ops, p) {
      OtherIsCounted(ops, p);
    }
  }

  function Bumped(counts: map<Pair, PairCount>, p: Pair, hasOther: bool): PairCount {
    if p in counts then PairCount(counts[p].count + 1, counts[p].hasOtherFactors || hasOther)
    else PairCount(1, hasOther)
  }

  /** Count each pair of one more product once. */
  method AddPairs(seen: seq<Pair>, before: map<Pair, PairCount>, hasOther: bool) returns (counts: map<Pair, PairCount>)
    requires forall a, b :: 0 <= a < b < |seen| ==> seen[a] != seen[b]
    ensures forall p :: p in counts <==> p in before || p in seen
    ensures forall p :: p in counts ==> counts[p] == if p in seen then Bumped(before, p, hasOther) else before[p]
  {
    counts := before;
    for j := 0 to |seen|
      invariant forall p :: p in counts <==> p in before || p in seen[..j]
      invariant forall p :: p in counts ==>
        counts[p] == if p in seen[..j] then Bumped(before, p, hasOther) else before[p]
    {
      var p := seen[j];
      assert p !in seen[..j];
      assert seen[..j + 1] == seen[..j] + [p];
      counts := counts[p := Bumped(counts, p, hasOther)];
    }
    assert seen[..|seen|] == seen;
  }

  method CountPairs(ops: Ops) returns (counts: map<Pair, PairCount>)
    ensures AreCounts(ops, counts)
  {
    counts := map[];
    for i := 0 to |ops|
      invariant AreCounts(ops[..i], counts)
    {
      hide AreCounts, Bumped;
      var op := ops[i];
      assert ops[..i + 1] == ops[..i] + [op];
      if !op.isMul || |op.args| < 2 {
        CountsSkip(ops[..i], op, counts);
      } else {
        var seen := PairsOf(op.args);
        var after := AddPairs(seen, counts, |op.args| > 2);
        CountsNext(ops[..i], op, counts, after, seen);
        counts := after;
      }
    }
    assert ops[..|ops|] == ops;
  }

  /** A pair in two products or more, one of which has another factor. */
  predicate Shared(ops: Ops, p: Pair) { HasOther(ops, p) && CountOf(ops, p) > 1 }

  lemma {:induction false} HasOtherExactly(ops: Ops, p: Pair)
    ensures HasOther(ops, p) <==> exists i :: 0 <= i < |ops| && Holds(ops[i], p) && |ops[i].args| > 2
  {
    hide Holds;
    if ops != [] {
      HasOtherExactly(ops[1..], p);
      if HasOther(ops[1..], p) {
        var i :| 0 <= i < |ops[1..]| && Holds(ops[1..][i], p) && |ops[1..][i].args| > 2;
        assert Holds(ops[i + 1], p);
      }
      if i :| 0 <= i < |ops| && Holds(ops[i], p) && |ops[i].args| > 2 {
        if i > 0 { assert ops[1..][i - 1] == ops[i]; }
      }
    }
  }

  /** A pair is shared exactly when multiplying it once lowers the cost and it is not all of each product. */
  lemma {:induction false} SharedExactly(ops: Ops, p: Pair, k: nat)
    ensures Shared(ops, p) <==>
      Cost(Rewritten(ops, p, k, false)) < Cost(ops) &&
      exists i :: 0 <= i < |ops| && Holds(ops[i], p) && |ops[i].args| > 2
  {
    hide Holds, HasOther, Rewritten, Cost, CountOf;
    CostFalls(ops, p, k, false);
    HasOtherExactly(ops, p);
  }

  /** The pair in the most products where one of them has another factor. */
  method ChoosePair(ops: Ops) returns (best: Option<Pair>)
    ensures best.None? ==> forall p :: !Shared(ops, p)
    ensures best.Some? ==> Shared(ops, best.value)
    ensures best.Some? ==> forall p :: Shared(ops, p) ==> CountOf(ops, p) <= CountOf(ops, best.value)
  {
    var counts := CountPairs(ops);
    best := None;
    var bestCount := 1;
    var rest := counts.Keys;
    while rest != {}
      invariant rest <= counts.Keys && bestCount >= 1
      invariant best.None? ==> bestCount == 1
      invariant best.Some? ==> Shared(ops, best.value) && CountOf(ops, best.value) == bestCount
      invariant forall p :: p in counts && p !in rest && HasOther(ops, p) ==> CountOf(ops, p) <= bestCount
    {
      var p :| p in rest;
      if counts[p].hasOtherFactors && counts[p].count > bestCount {
        best, bestCount := Some(p), counts[p].count;
      }
      rest := rest - {p};
    }
    forall p | Shared(ops, p) ensures CountOf(ops, p) <= bestCount {
      var q := Ordered(p.0, p.1);
      if q != p {
        CountSwap(ops, p, q);
      }
      assert q in counts;
    }
  }

  // ---------------------------------------------------------------- the rounds

  /** All the values that a block mentions are below n. */
  predicate Below(ops: Ops, n: nat) {
    ops == [] || (ops[0].id < n && (forall x :: x in ops[0].args ==> x < n) && Below(ops[1..], n))
  }

  lemma {:induction false} BelowFresh(ops: Ops, n: nat)
    requires Below(ops, n)
    ensures Fresh(ops, n)
  {
    if ops != [] {
      BelowFresh(ops[1..], n);
    }
  }

  lemma {:induction false} PairBelow(ops: Ops, p: Pair, n: nat)
    requires Below(ops, n) && CountOf(ops, p) > 0
    ensures p.0 < n && p.1 < n
  {
    if Holds(ops[0], p) {
      BothDefined(ops[0], p);
    } else {
      PairBelow(ops[1..], p, n);
    }
  }

  lemma {:induction false} BelowCons(op: Op, ops: Ops, n: nat)
    requires op.id < n && (forall x :: x in op.args ==> x < n) && Below(ops, n)
    ensures Below([op] + ops, n)
  {
    assert ([op] + ops)[1..] == ops;
  }

  lemma {:induction false} RewrittenBelow(ops: Ops, p: Pair, n: nat, placed: bool)
    requires Below(ops, n) && (p.0 < n && p.1 < n)
    ensures Below(Rewritten(ops, p, n, placed), n + 1)
  {
    hide Replaced, Holds;
    if ops != [] {
      var op := ops[0];
      if Holds(op, p) {
        RewrittenBelow(ops[1..], p, n, true);
        RewrittenCons(ops, p, n, placed);
        var after, r := Replaced(op, p, n), Rewritten(ops[1..], p, n, true);
        forall x | x in after.args ensures x < n + 1 {
          ReplacedArgs(op, p, n, x);
        }
        BelowCons(after, r, n + 1);
        BelowCons(Op(n, [p.0, p.1], true), [after] + r, n + 1);
      } else {
        RewrittenBelow(ops[1..], p, n, placed);
        BelowCons(op, Rewritten(ops[1..], p, n, placed), n + 1);
      }
    }
  }

  /** `after` computes what `before` does: any values of the old block are values
      of the new one when its new products are given theirs. */
  ghost predicate Computes(before: Ops, after: Ops, n: nat) {
    forall env: nat -> real :: Consistent(env, before) ==>
      exists more: nat -> real :: Consistent(more, after) && forall x: nat :: x < n ==> more(x) == env(x)
  }

  lemma {:induction false} ComputesRound(ops: Ops, mid: Ops, p: Pair, n: nat, k: nat)
    requires n <= k && Computes(ops, mid, n) && Fresh(mid, k) && p.0 < k && p.1 < k
    ensures Computes(ops, Rewritten(mid, p, k, false), n)
  {
    hide Mul;
    forall env: nat -> real | Consistent(env, ops)
      ensures exists more: nat -> real ::
          Consistent(more, Rewritten(mid, p, k, false)) && forall x: nat :: x < n ==> more(x) == env(x)
    {
      var env': nat -> real :| Consistent(env', mid) && forall x: nat :: x < n ==> env'(x) == env(x);
      RewrittenConsistent(env', mid, p, k, false);
      var more := With(env', k, Mul(env'(p.0), env'(p.1)));
      assert forall x: nat :: x < n ==> more(x) == env(x);
    }
  }

  lemma {:induction false} ComputesItself(ops: Ops, n: nat)
    ensures Computes(ops, ops, n)
  {
    forall env: nat -> real | Consistent(env, ops)
      ensures exists more: nat -> real :: Consistent(more, ops) && forall x: nat :: x < n ==> more(x) == env(x)
    {
      assert forall x: nat :: x < n ==> env(x) == env(x);
    }
  }

  lemma {:induction false} RewrittenSkip(ops: Ops, p: Pair, k: nat, placed: bool)
    requires ops != [] && !Holds(ops[0], p)
    ensures Rewritten(ops, p, k, placed) == [ops[0]] + Rewritten(ops[1..], p, k, placed)
  {}

  lemma {:induction false} Regroup(whole: Ops, done: Ops, more: Ops, rest: Ops)
    requires whole == done + (more + rest)
    ensures whole == (done + more) + rest
  {}

  method RewriteOps(before: Ops, p: Pair, k: nat) returns (after: Ops)
    ensures after == Rewritten(before, p, k, false)
  {
    hide Replaced, Holds, Rewritten;
    var placed := false;
    after := [];
    assert before[0..] == before;
    for i := 0 to |before|
      invariant Rewritten(before, p, k, false) == after + Rewritten(before[i..], p, k, placed)
    {
      var op := before[i];
      assert before[i..][1..] == before[i + 1..] && before[i..][0] == op;
      if Holds(op, p) {
        RewrittenCons(before[i..], p, k, placed);
        var uses := [Replaced(op, p, k)];
        ghost var rest := Rewritten(before[i + 1..], p, k, true);
        if !placed {
          var product := [Op(k, [p.0, p.1], true)];
          Regroup(Rewritten(before, p, k, false), after, product, uses + rest);
          after := after + product;
          placed := true;
        }
        Regroup(Rewritten(before, p, k, false), after, uses, rest);
        after := after + uses;
      } else {
        RewrittenSkip(before[i..], p, k, placed);
        Regroup(Rewritten(before, p, k, false), after, [op], Rewritten(before[i + 1..], p, k, placed));
        after := after + [op];
      }
    }
    RewrittenNone(p, k, placed);
    assert before[|before|..] == [];
  }

  lemma {:induction false} RewrittenNone(p: Pair, k: nat, placed: bool)
    ensures Rewritten([], p, k, placed) == []
  {}

  class Block {
    var ops: Ops

    /** Values from here on are not used yet. */
    var next: nat

    /** Values that are defined outside of the block. */
    const outside: set<nat>

    ghost predicate Valid()
      reads this
    {
      Below(ops, next) && Scoped(ops, outside) && forall x :: x in outside ==> x < next
    }

    constructor (ops: Ops, next: nat, outside: set<nat>)
      requires Below(ops, next) && Scoped(ops, outside) && forall x :: x in outside ==> x < next
      ensures Valid() && this.ops == ops && this.next == next && this.outside == outside
    {
      this.ops, this.next, this.outside := ops, next, outside;
    }

    /** Multiply the pair before its first use and use the product in its place. */
    method Rewrite(p: Pair)
      requires Valid() && Shared(ops, p)
      modifies this
      ensures Valid() && next == old(next) + 1 && ops == Rewritten(old(ops), p, old(next), false)
      ensures Cost(ops) == Cost(old(ops)) + 1 - CountOf(old(ops), p)
    {
      hide Below, Scoped, Cost, CountOf, HasOther, Rewritten, Fresh;
      var k := next;
      BelowFresh(ops, k);
      PairBelow(ops, p, k);
      RewrittenBelow(ops, p, k, false);
      RewrittenScoped(ops, outside, p, k, false);
      CostFalls(ops, p, k, false);
      var after := RewriteOps(ops, p, k);
      ops, next := after, k + 1;
    }

    /** Repeat until no pair is shared. */
    method FactorProducts()
      requires Valid()
      modifies this
      ensures Valid() && Computes(old(ops), ops, old(next)) && Cost(ops) <= Cost(old(ops))
      ensures forall p :: !Shared(ops, p)
    {
      ComputesItself(ops, next);
      var best := ChoosePair(ops);
      while best.Some?
        invariant Valid() && next >= old(next) && Computes(old(ops), ops, old(next)) && Cost(ops) <= Cost(old(ops))
        invariant best.Some? ==> Shared(ops, best.value)
        invariant best.None? ==> forall p :: !Shared(ops, p)
        decreases Cost(ops), best.Some?
      {
        BelowFresh(ops, next);
        PairBelow(ops, best.value, next);
        ComputesRound(old(ops), ops, best.value, old(next), next);
        Rewrite(best.value);
        best := ChoosePair(ops);
      }
    }
  }
}