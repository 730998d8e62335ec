/** Patterns of syntax-rules: the forms that a pattern admits as the compiler reads it, the match operations
    it compiles to (schir/lib/PatternTemplate.h), and what running them does (schir/lib/OpEval.cpp).
    SyntaxStandard has the match relation of section 4.3.2 of R7RS, and when both are the same. */
module SyntaxPatterns {
  import opened Options
  import opened Utf8
  import opened Printing

  /** The ellipsis and the literal identifiers, and whether a literal identifier and a form have the
      same binding. */
  datatype Rules = Rules(ellipsis: Bytes, literals: set<Bytes>, agrees: (Bytes, Datum) -> bool)

  const UNDERSCORE: Bytes := ['_' as int]

  /** A sub-pattern followed by the ellipsis. */
  predicate Repeats(rules: Rules, p: Datum) { p.Pair? && p.cdr.Pair? && p.cdr.car == Symbol(rules.ellipsis) }

  /** The compiler tests for the underscore first, so it is never a literal. */
  predicate IsLiteral(rules: Rules, s: Bytes) { s != UNDERSCORE && s in rules.literals }

  predicate IsVariable(rules: Rules, s: Bytes) {
    s != UNDERSCORE && s !in rules.literals && s != rules.ellipsis
  }

  /** The pattern variables in the order in which they are bound: a tail comes before what repeats. */
  function Names(rules: Rules, p: Datum): seq<Bytes> {
    match p
    case Pair(x, y) =>
      if Repeats(rules, p) then Names(rules, y.cdr) + Names(rules, x) else Names(rules, x) + Names(rules, y)
    case Symbol(s) => if IsVariable(rules, s) then [s] else []
    case _ => []
  }

  /** No vector and no misplaced ellipsis. */
  predicate Valid(rules: Rules, p: Datum) {
    match p
    case Pair(x, y) =>
      if Repeats(rules, p) then Valid(rules, y.cdr) && Valid(rules, x) else Valid(rules, x) && Valid(rules, y)
    case Symbol(s) => s == UNDERSCORE || s in rules.literals || s != rules.ellipsis
    case Vector(_) => false
    case _ => true
  }

  // ---------------------------------------------------------------- what a pattern admits

  /** The number of pairs in a row. */
  function Pairs(d: Datum): nat { if d.Pair? then 1 + Pairs(d.cdr) else 0 }

  /** What follows the first k pairs. */
  function DropPairs(d: Datum, k: nat): (r: Datum)
    requires k <= Pairs(d)
    ensures Pairs(r) == Pairs(d) - k
  {
    if k == 0 then d else DropPairs(d.cdr, k - 1)
  }

  /** The forms that a repeated pattern has to match, when its tail is a pattern of n pairs. */
  function Repetitions(e: Datum, tail: Datum): int { Pairs(e) - Pairs(tail) }

  /** The pattern matches the form, as the compiler reads it. */
  predicate Admits(rules: Rules, p: Datum, e: Datum)
    decreases p, 0
  {
    match p
    case Pair(x, y) =>
      if Repeats(rules, p) then
        var k := Repetitions(e, y.cdr);
        k >= 0 && AllAdmit(rules, x, e, k) && Admits(rules, y.cdr, DropPairs(e, k))
      else
        e.Pair? && Admits(rules, x, e.car) && Admits(rules, y, e.cdr)
    case Symbol(s) => if IsLiteral(rules, s) then rules.agrees(s, e) else true
    case Vector(_) => false
    case _ => e == p
  }

  /** Each of the first k elements is admitted. */
  predicate AllAdmit(rules: Rules, p: Datum, e: Datum, k: nat)
    requires k <= Pairs(e)
    decreases p, 1, k
  {
    k == 0 || (Admits(rules, p, e.car) && AllAdmit(rules, p, e.cdr, k - 1))
  }

  /** What a pattern variable stands for: one form, or the sequence of what it stands for in each repetition. */
  datatype Binding = One(form: Datum) | Many(items: seq<Binding>)

  /** What each of the Names stands for. */
  function Bindings(rules: Rules, p: Datum, e: Datum): (bs: seq<Binding>)
    requires Admits(rules, p, e)
    ensures |bs| == |Names(rules, p)|
    decreases p, 0
  {
    match p
    case Pair(x, y) =>
      if Repeats(rules, p) then
        var k := Repetitions(e, y.cdr);
        Bindings(rules, y.cdr, DropPairs(e, k)) +
        LoopBindings(rules, x, e, k)
      else
        Bindings(rules, x, e.car) + Bindings(rules, y, e.cdr)
    case Symbol(s) => if IsVariable(rules, s) then [One(e)] else []
    case _ => []
  }

  /** What the variables of a repeated pattern stand for. */
  function LoopBindings(rules: Rules, p: Datum, e: Datum, k: nat): (bs: seq<Binding>)
    requires k <= Pairs(e) && AllAdmit(rules, p, e, k)
    ensures |bs| == |Names(rules, p)|
    decreases p, 2
  {
    seq(|Names(rules, p)|, i requires 0 <= i < |Names(rules, p)| => Many(Column(rules, p, e, k, i)))
  }

  /** What the i-th variable stands for in each of the first k elements. */
  function Column(rules: Rules, p: Datum, e: Datum, k: nat, i: nat): (c: seq<Binding>)
    requires k <= Pairs(e) && AllAdmit(rules, p, e, k) && i < |Names(rules, p)|
    ensures |c| == k
    decreases p, 1, k
  {
    if k == 0 then [] else [Bindings(rules, p, e.car)[i]] + Column(rules, p, e.cdr, k - 1, i)
  }

  // ---------------------------------------------------------------- match operations

  /** A run-time value: a form, or a pack, whose newest item comes first. */
  datatype Value = Form(d: Datum) | Pack(items: seq<Value>)

  /** An operation and the numbers of the values it reads and defines. MatchPair defines the car at
      result and the cdr after it; Subpattern defines one pack for each resolved value from result on. */
  datatype Op =
    | Match(p: Datum, input: int)
    | MatchPair(input: int, result: int)
    | MatchTail(length: nat, input: int, result: int)
    | Closure(input: int, result: int)
    | Subpattern(input: int, tail: int, arg: int, body: seq<Op>, resolved: seq<int>, result: int)

  type Env = map<int, Value>

  function Literally(rules: Rules, p: Datum, e: Datum): bool {
    if p.Symbol? then rules.agrees(p.s, e) else p == e
  }

  predicate IsForm(env: Env, id: int) { id in env && env[id].Form? }

  /** The items of the pack numbered id. */
  function ItemsAt(env: Env, id: int): seq<Value> {
    if id in env && env[id].Pack? then env[id].items else []
  }

  /** The values after an operation, None when it fails to match. */
  function Step(rules: Rules, op: Op, env: Env): Option<Env>
    decreases op, 2
  {
    match op
    case Match(p, input) =>
      if IsForm(env, input) && Literally(rules, p, env[input].d) then Some(env) else None
    case MatchPair(input, result) =>
      if IsForm(env, input) && env[input].d.Pair? then
        Some(env[result := Form(env[input].d.car)][result + 1 := Form(env[input].d.cdr)])
      else None
    case MatchTail(length, input, result) =>
      if IsForm(env, input) && Pairs(env[input].d) + 1 >= length > 0 then
        Some(env[result := Form(DropPairs(env[input].d, Pairs(env[input].d) + 1 - length))])
      else None
    case Closure(input, result) => if input in env then Some(env[result := env[input]]) else None
    case Subpattern(input, tail, arg, body, resolved, result) =>
      if !IsForm(env, input) || !IsForm(env, tail) then None
      else
        var start := EmptyPacks(env, result, |resolved|);
        if env[input].d.Empty? then Some(start)
        else Repeat(rules, op, env[input].d, env[tail].d, start)
  }

  /** The loop of a Subpattern from the pair e on. */
  function Repeat(rules: Rules, op: Op, e: Datum, tail: Datum, env: Env): Option<Env>
    requires op.Subpattern?
    decreases op, 1, e
  {
    if e.Pair? && e != tail then
      match Run(rules, op.body, env[op.arg := Form(e)])
      case Some(inner) => Repeat(rules, op, e.cdr, tail, Resolve(env, inner, op.resolved, op.result))
      case None => None
    else if e == tail then Some(env)
    else None
  }

  function Run(rules: Rules, ops: seq<Op>, env: Env): Option<Env>
    decreases ops, 0
  {
    if ops == [] then Some(env)
    else
      match Step(rules, ops[0], env)
      case Some(next) => Run(rules, ops[1..], next)
      case None => None
  }

  /** n empty packs from result on. */
  function EmptyPacks(env: Env, result: int, n: nat): Env {
    if n == 0 then env else EmptyPacks(env, result, n - 1)[result + n - 1 := Pack([])]
  }

  /** Each resolved value goes in front of its pack. */
  function Resolve(env: Env, inner: Env, resolved: seq<int>, result: int): Env
    decreases |resolved|
  {
    if resolved == [] then env
    else
      var last := |resolved| - 1;
      var rest := Resolve(env, inner, resolved[..last], result);
      if resolved[last] in inner then
        rest[result + last := Pack([inner[resolved[last]]] + ItemsAt(inner, result + last))]
      else rest
  }

  // ---------------------------------------------------------------- compilation

  /** The values that an operation gives to pattern variables. */
  function Slots(ops: seq<Op>): seq<int> {
    if ops == [] then [] else OwnSlots(ops[0]) + Slots(ops[1..])
  }

  function Consecutive(lo: int, n: nat): (r: seq<int>)
    ensures |r| == n
  {
    if n == 0 then [] else Consecutive(lo, n - 1) + [lo + n - 1]
  }

  lemma {:induction false} ConsecutiveAt(lo: int, n: nat, i: nat)
    requires i < n
    ensures Consecutive(lo, n)[i] == lo + i
  {
    if i < n - 1 { ConsecutiveAt(lo, n - 1, i); }
  }

  function OwnSlots(op: Op): seq<int> {
    match op
    case Closure(_, result) => [result]
    case Subpattern(_, _, _, _, resolved, result) => Consecutive(result, |resolved|)
    case _ => []
  }

  /** The operations for p, matched against the value numbered id, and the next free number after n. */
  function Compile(rules: Rules, p: Datum, id: int, n: int): (r: (seq<Op>, int))
    ensures r.1 >= n && |Slots(r.0)| == |Names(rules, p)|
    decreases p, 0
  {
    match p
    case Pair(x, y) =>
      if Repeats(rules, p) then
        var tail := Compile(rules, y.cdr, n, n + 1);
        var op := Loop(rules, x, id, n, tail.1);
        RepeatSlots(Pairs(y.cdr) + 1, id, n, tail.0, op);
        (RepeatOps(Pairs(y.cdr) + 1, id, n, tail.0, op), op.result + |op.resolved|)
      else
        var car := Compile(rules, x, n, n + 2);
        var cdr := Compile(rules, y, n + 1, car.1);
        PairSlots(id, n, car.0, cdr.0);
        (PairOps(id, n, car.0, cdr.0), cdr.1)
    case Symbol(s) =>
      if IsLiteral(rules, s) then ([Match(p, id)], n)
      else if IsVariable(rules, s) then ([Closure(id, n)], n + 1)
      else ([], n)
    case Vector(_) => ([], n)
    case _ => ([Match(p, id)], n)
  }

  /** The operation for a repeated pattern. */
  function Loop(rules: Rules, p: Datum, id: int, tail: int, arg: int): (op: Op)
    ensures op.Subpattern? && op.tail == tail && op.input == id && op.arg == arg
    ensures op.result > arg && |op.resolved| == |Names(rules, p)|
    decreases p, 1
  {
    var sub := Compile(rules, p, arg + 1, arg + 3);
    Subpattern(id, tail, arg, [MatchPair(arg, arg + 1)] + sub.0, Slots(sub.0), sub.1)
  }

  lemma {:induction false} LoopBody(rules: Rules, p: Datum, id: int, tail: int, arg: int)
    ensures var op := Loop(rules, p, id, tail, arg);
            var sub := Compile(rules, p, arg + 1, arg + 3);
            op.body == [MatchPair(arg, arg + 1)] + sub.0 && op.resolved == Slots(sub.0) && op.result == sub.1
  {
  }

  function PairOps(id: int, n: int, car: seq<Op>, cdr: seq<Op>): seq<Op> { [MatchPair(id, n)] + car + cdr }

  function RepeatOps(length: nat, id: int, n: int, tail: seq<Op>, op: Op): seq<Op> {
    [MatchTail(length, id, n)] + tail + [op]
  }

  lemma {:induction false} NoSlots(length: nat, id: int, n: int)
    ensures OwnSlots(MatchTail(length, id, n)) == [] && OwnSlots(MatchPair(id, n)) == []
  {
  }

  lemma {:induction false} PackSlots(op: Op)
    requires op.Subpattern?
    ensures Between(OwnSlots(op), op.result, op.result + |op.resolved|) && |OwnSlots(op)| == |op.resolved|
  {
    forall i | 0 <= i < |op.resolved|
      ensures OwnSlots(op)[i] == op.result + i
    {
      ConsecutiveAt(op.result, |op.resolved|, i);
    }
  }

  lemma {:induction false} SlotsConcat(xs: seq<Op>, ys: seq<Op>)
    ensures Slots(xs + ys) == Slots(xs) + Slots(ys)
  {
    hide OwnSlots;
    if xs == [] {
      assert xs + ys == ys;
    } else {
      SlotsConcat(xs[1..], ys);
      assert (xs + ys)[1..] == xs[1..] + ys;
    }
  }

  lemma {:induction false} RunConcat(rules: Rules, xs: seq<Op>, ys: seq<Op>, env: Env)
    ensures Run(rules, xs + ys, env) ==
      match Run(rules, xs, env) case Some(next) => Run(rules, ys, next) case None => None
  {
    if xs == [] {
      assert xs + ys == ys;
    } else {
      assert (xs + ys)[1..] == xs[1..] + ys;
      if Step(rules, xs[0], env).Some? {
        RunConcat(rules, xs[1..], ys, Step(rules, xs[0], env).value);
      }
    }
  }

  lemma {:induction false} CompiledPair(rules: Rules, p: Datum, id: int, n: int)
    requires p.Pair? && !Repeats(rules, p)
    ensures var car := Compile(rules, p.car, n, n + 2);
            var cdr := Compile(rules, p.cdr, n + 1, car.1);
            Compile(rules, p, id, n) == (PairOps(id, n, car.0, cdr.0), cdr.1) &&
            Slots(Compile(rules, p, id, n).0) == Slots(car.0) + Slots(cdr.0)
  {
    var car := Compile(rules, p.car, n, n + 2);
    hide Slots, OwnSlots, PairOps;
    PairSlots(id, n, car.0, Compile(rules, p.cdr, n + 1, car.1).0);
  }

  lemma {:induction false} CompiledRepeat(rules: Rules, p: Datum, id: int, n: int)
    requires Repeats(rules, p)
    ensures var tail := Compile(rules, p.cdr.cdr, n, n + 1);
            var op := Loop(rules, p.car, id, n, tail.1);
            var c := Compile(rules, p, id, n);
            c == (RepeatOps(Pairs(p.cdr.cdr) + 1, id, n, tail.0, op), op.result + |op.resolved|) &&
            Slots(c.0) == Slots(tail.0) + OwnSlots(op)
  {
    hide Slots, OwnSlots, Names, Pairs, Valid, RepeatOps, Loop, Compile;
    CompiledRepeatOps(rules, p, id, n);
    var tail := Compile(rules, p.cdr.cdr, n, n + 1);
    RepeatSlots(Pairs(p.cdr.cdr) + 1, id, n, tail.0, Loop(rules, p.car, id, n, tail.1));
  }

  lemma {:induction false} CompiledRepeatOps(rules: Rules, p: Datum, id: int, n: int)
    requires Repeats(rules, p)
    ensures var tail := Compile(rules, p.cdr.cdr, n, n + 1);
            var op := Loop(rules, p.car, id, n, tail.1);
            Compile(rules, p, id, n) ==
              (RepeatOps(Pairs(p.cdr.cdr) + 1, id, n, tail.0, op), op.result + |op.resolved|)
  {
    hide Slots, OwnSlots, Names, Pairs, Valid, RepeatOps, Loop;
  }

  lemma {:induction false} PairSlots(id: int, n: int, car: seq<Op>, cdr: seq<Op>)
    ensures Slots(PairOps(id, n, car, cdr)) == Slots(car) + Slots(cdr)
    ensures Slots([MatchPair(id, n)] + car) == Slots(car)
  {
    NoSlots(0, id, n);
    SlotsConcat([MatchPair(id, n)] + car, cdr);
    assert ([MatchPair(id, n)] + car)[1..] == car;
  }

  lemma {:induction false} RepeatSlots(length: nat, id: int, n: int, tail: seq<Op>, op: Op)
    ensures Slots(RepeatOps(length, id, n, tail, op)) == Slots(tail) + OwnSlots(op)
  {
    hide OwnSlots;
    NoSlots(length, id, n);
    var ops := [MatchTail(length, id, n)] + tail;
    assert ops[1..] == tail;
    var none: seq<Op> := [];
    assert [op][1..] == none && Slots([op]) == OwnSlots(op);
    SlotsConcat(ops, [op]);
  }

  /** The variables' values lie among the numbers taken. */
  predicate Between(slots: seq<int>, lo: int, hi: int) { forall i :: 0 <= i < |slots| ==> lo <= slots[i] < hi }

  lemma {:induction false} BetweenBoth(xs: seq<int>, ys: seq<int>, lo: int, mid: int, from: int, hi: int)
    requires Between(xs, lo, mid) && Between(ys, from, hi) && lo <= from && mid <= hi
    ensures Between(xs + ys, lo, hi)
  {
  }

  lemma {:induction false} SlotsBetween(rules: Rules, p: Datum, id: int, n: int)
    ensures Between(Slots(Compile(rules, p, id, n).0), n, Compile(rules, p, id, n).1)
    decreases p
  {
    hide Slots, OwnSlots, Loop, Names;
    if p.Pair? {
      hide Compile, Between;
      if Repeats(rules, p) {
        var tail := Compile(rules, p.cdr.cdr, n, n + 1);
        var op := Loop(rules, p.car, id, n, tail.1);
        CompiledRepeat(rules, p, id, n);
        SlotsBetween(rules, p.cdr.cdr, n, n + 1);
        PackSlots(op);
        BetweenBoth(Slots(tail.0), OwnSlots(op), n + 1, tail.1, op.result, op.result + |op.resolved|);
        BetweenWider(Slots(tail.0) + OwnSlots(op), n + 1, n, op.result + |op.resolved|);
      } else {
        var car := Compile(rules, p.car, n, n + 2);
        var cdr := Compile(rules, p.cdr, n + 1, car.1);
        CompiledPair(rules, p, id, n);
        SlotsBetween(rules, p.car, n, n + 2);
        SlotsBetween(rules, p.cdr, n + 1, car.1);
        BetweenBoth(Slots(car.0), Slots(cdr.0), n + 2, car.1, car.1, cdr.1);
        BetweenWider(Slots(car.0) + Slots(cdr.0), n + 2, n, cdr.1);
      }
    } else {
      AtomSlots(rules, p, id, n);
    }
  }

  lemma {:induction false} AtomSlots(rules: Rules, p: Datum, id: int, n: int)
    requires !p.Pair?
    ensures var c := Compile(rules, p, id, n);
            Slots(c.0) == if p.Symbol? && IsVariable(rules, p.s) then [n] else []
  {
    SymbolSlots(Match(p, id), id, n);
  }

  lemma {:induction false} BetweenWider(xs: seq<int>, lo: int, wider: int, hi: int)
    requires Between(xs, lo, hi) && wider <= lo
    ensures Between(xs, wider, hi)
  {
  }

  lemma {:induction false} SymbolSlots(op: Op, id: int, n: int)
    requires op.Match?
    ensures Slots([]) == [] && Slots([op]) == [] && Slots([Closure(id, n)]) == [n]
  {
    var none: seq<Op> := [];
    assert [op][1..] == none && [Closure(id, n)][1..] == none;
  }

  // ---------------------------------------------------------------- compiled patterns match

  /** The run-time value of a pattern variable: a pack is in reverse order. */
  function Represent(b: Binding): Value
    decreases b, 1
  {
    match b case One(d) => Form(d) case Many(items) => Pack(RepresentAll(items))
  }

  function RepresentAll(bs: seq<Binding>): seq<Value>
    decreases bs, 0
  {
    if bs == [] then [] else RepresentAll(bs[1..]) + [Represent(bs[0])]
  }

  ghost predicate Holds(env: Env, slots: seq<int>, bs: seq<Binding>) {
    |slots| == |bs| &&
    forall i :: 0 <= i < |slots| ==> slots[i] in env && env[slots[i]] == Represent(bs[i])
  }

  ghost predicate SameAt(env: Env, was: Env, id: int) {
    (id in env <==> id in was) && (id in env ==> env[id] == was[id])
  }

  /** Nothing changed but the values from lo to hi. */
  ghost predicate Outside(env: Env, was: Env, lo: int, hi: int) {
    forall id: int :: id < lo || id >= hi ==> SameAt(env, was, id)
  }

  lemma {:induction false} ResolveAt(env: Env, inner: Env, resolved: seq<int>, result: int, i: int)
    requires forall j :: 0 <= j < |resolved| ==> resolved[j] in inner
    ensures var r := Resolve(env, inner, resolved, result);
            if result <= i < result + |resolved| then
              i in r && r[i] == Pack([inner[resolved[i - result]]] + ItemsAt(inner, i))
            else SameAt(r, env, i)
    decreases |resolved|
  {
    if resolved != [] {
      ResolveAt(env, inner, resolved[..|resolved| - 1], result, i);
    }
  }

  lemma {:induction false} EmptyPacksAt(env: Env, result: int, n: nat, i: int)
    ensures var r := EmptyPacks(env, result, n);
            if result <= i < result + n then i in r && r[i] == Pack([]) else SameAt(r, env, i)
  {
    if n > 0 { EmptyPacksAt(env, result, n - 1, i); }
  }

  ghost predicate PacksAre(rules: Rules, p: Datum, e: Datum, k: nat, env: Env, was: Env, result: int)
    requires k <= Pairs(e) && AllAdmit(rules, p, e, k)
  {
    forall i :: 0 <= i < |Names(rules, p)| ==> Grown(env, was, result + i, RepresentAll(Column(rules, p, e, k, i)))
  }

  /** A pack with new items in front. */
  ghost predicate Grown(env: Env, was: Env, id: int, front: seq<Value>) {
    id in env && env[id] == Pack(front + ItemsAt(was, id))
  }

  /** The packs after one repetition. */
  ghost predicate OneMore(rules: Rules, p: Datum, e: Datum, env: Env, was: Env, result: int)
    requires Admits(rules, p, e)
  {
    forall i :: 0 <= i < |Names(rules, p)| ==> Grown(env, was, result + i, [Represent(Bindings(rules, p, e)[i])])
  }

  /** Running the operations for a pattern succeeds exactly when the pattern admits the form, and then the values
      of the pattern variables are in place and nothing else has changed. */
  ghost predicate Correct(rules: Rules, p: Datum, e: Datum, id: int, n: int, env: Env) {
    var c := Compile(rules, p, id, n);
    var r := Run(rules, c.0, env);
    (r.Some? <==> Admits(rules, p, e)) &&
    (r.Some? ==> Outside(r.value, env, n, c.1) && Holds(r.value, Slots(c.0), Bindings(rules, p, e)))
  }

  lemma {:induction false} CompiledMatches(rules: Rules, p: Datum, e: Datum, id: int, n: int, env: Env)
    requires Valid(rules, p) && id < n && id in env && env[id] == Form(e)
    ensures Correct(rules, p, e, id, n, env)
    decreases p, 3
  {
    hide Compile, Run, Slots, Bindings, Correct, Admits, Names;
    match p
    case Pair(x, y) =>
      if Repeats(rules, p) { RepeatedMatches(rules, p, e, id, n, env); } else { PairMatches(rules, p, e, id, n, env); }
    case Symbol(s) => AtomMatches(rules, p, e, id, n, env);
    case Vector(_) =>
    case _ => AtomMatches(rules, p, e, id, n, env);
  }

  lemma {:induction false} AtomMatches(rules: Rules, p: Datum, e: Datum, id: int, n: int, env: Env)
    requires Valid(rules, p) && id < n && id in env && env[id] == Form(e) && !p.Pair?
    ensures Correct(rules, p, e, id, n, env)
  {
    var op := Match(p, id);
    SymbolSlots(op, id, n);
    RunOne(rules, op, env);
    RunOne(rules, Closure(id, n), env);
  }

  lemma {:induction false} RunOne(rules: Rules, op: Op, env: Env)
    ensures Run(rules, [op], env) == Step(rules, op, env)
  {
    var none: seq<Op> := [];
    assert [op][1..] == none;
  }

  lemma {:induction false} HoldsBoth(env: Env, was: Env, xs: seq<int>, bs: seq<Binding>, lo: int, hi: int, end: int,
                                     ys: seq<int>, cs: seq<Binding>)
    requires Holds(was, xs, bs) && Between(xs, lo, hi) && Outside(env, was, hi, end) && Holds(env, ys, cs)
    ensures Holds(env, xs + ys, bs + cs)
  {
    forall i | 0 <= i < |xs|
      ensures xs[i] in env && env[xs[i]] == Represent(bs[i])
    {
      assert SameAt(env, was, xs[i]);
    }
  }

  lemma {:induction false} OutsideTwice(a: Env, b: Env, c: Env, lo: int, mid: int, hi: int)
    requires lo <= mid <= hi && Outside(b, a, lo, mid) && Outside(c, b, mid, hi)
    ensures Outside(c, a, lo, hi)
  {
    forall id: int | id < lo || id >= hi
      ensures SameAt(c, a, id)
    {
      assert SameAt(b, a, id) && SameAt(c, b, id);
    }
  }

  lemma {:induction false} PairMatches(rules: Rules, p: Datum, e: Datum, id: int, n: int, env: Env)
    requires Valid(rules, p) && id < n && id in env && env[id] == Form(e) && p.Pair? && !Repeats(rules, p)
    ensures Correct(rules, p, e, id, n, env)
    decreases p, 0
  {
    hide Slots, Run, Valid, Compile, Names;
    CompiledPair(rules, p, id, n);
    var car := Compile(rules, p.car, n, n + 2);
    var cdr := Compile(rules, p.cdr, n + 1, car.1);
    var first := [MatchPair(id, n)];
    RunConcat(rules, first + car.0, cdr.0, env);
    RunConcat(rules, first, car.0, env);
    RunOne(rules, first[0], env);
    if e.Pair? {
      ValidParts(rules, p);
      var env1: Env := env[n := Form(e.car)][n + 1 := Form(e.cdr)];
      CompiledMatches(rules, p.car, e.car, n, n + 2, env1);
      assert Outside(env1, env, n, n + 2);
      if Admits(rules, p.car, e.car) {
        var env2 := Run(rules, car.0, env1).value;
        assert SameAt(env2, env1, n + 1);
        CompiledMatches(rules, p.cdr, e.cdr, n + 1, car.1, env2);
        if Admits(rules, p.cdr, e.cdr) {
          var env3 := Run(rules, cdr.0, env2).value;
          OutsideTwice(env, env1, env2, n, n + 2, car.1);
          OutsideTwice(env, env2, env3, n, car.1, cdr.1);
          SlotsBetween(rules, p.car, n, n + 2);
          HoldsBoth(env3, env2, Slots(car.0), Bindings(rules, p.car, e.car), n + 2, car.1, cdr.1,
                    Slots(cdr.0), Bindings(rules, p.cdr, e.cdr));
        }
      }
    }
  }

  lemma {:induction false} ValidParts(rules: Rules, p: Datum)
    requires Valid(rules, p) && p.Pair?
    ensures Valid(rules, p.car)
    ensures if Repeats(rules, p) then Valid(rules, p.cdr.cdr) else Valid(rules, p.cdr)
  {
  }

  lemma {:induction false} RepeatedMatches(rules: Rules, p: Datum, e: Datum, id: int, n: int, env: Env)
    requires Valid(rules, p) && id < n && id in env && env[id] == Form(e) && Repeats(rules, p)
    ensures Correct(rules, p, e, id, n, env)
    decreases p, 2
  {
    hide Slots, Run, Valid, Names, Compile, Loop;
    ValidParts(rules, p);
    CompiledRepeat(rules, p, id, n);
    var rest := p.cdr.cdr;
    var k := Repetitions(e, rest);
    var tail := Compile(rules, rest, n, n + 1);
    var first := [MatchTail(Pairs(rest) + 1, id, n)];
    var op := Loop(rules, p.car, id, n, tail.1);
    RunConcat(rules, first + tail.0, [op], env);
    RunConcat(rules, first, tail.0, env);
    RunOne(rules, first[0], env);
    if k >= 0 {
      var env1: Env := env[n := Form(DropPairs(e, k))];
      assert Outside(env1, env, n, n + 1);
      CompiledMatches(rules, rest, DropPairs(e, k), n, n + 1, env1);
      if Admits(rules, rest, DropPairs(e, k)) {
        var env2 := Run(rules, tail.0, env1).value;
        OutsideTwice(env, env1, env2, n, n + 1, tail.1);
        assert SameAt(env2, env1, n) && SameAt(env2, env1, id);
        RunOne(rules, op, env2);
        LoopMatches(rules, p.car, e, k, id, n, tail.1, env2);
        if AllAdmit(rules, p.car, e, k) {
          var env3 := Step(rules, op, env2).value;
          OutsideTwice(env, env2, env3, n, tail.1, Compile(rules, p, id, n).1);
          SlotsBetween(rules, rest, n, n + 1);
          HoldsBoth(env3, env2, Slots(tail.0), Bindings(rules, rest, DropPairs(e, k)), n + 1, tail.1,
                    Compile(rules, p, id, n).1, OwnSlots(op), LoopBindings(rules, p.car, e, k));
        }
      }
    }
  }

  lemma {:induction false} LoopMatches(rules: Rules, p: Datum, e: Datum, k: nat, id: int, tail: int, arg: int, env: Env)
    requires Valid(rules, p) && id < arg && tail < arg && k <= Pairs(e)
    requires id in env && env[id] == Form(e) && tail in env && env[tail] == Form(DropPairs(e, k))
    ensures var op := Loop(rules, p, id, tail, arg);
            var r := Step(rules, op, env);
            (r.Some? <==> AllAdmit(rules, p, e, k)) &&
            (r.Some? ==> Outside(r.value, env, arg, op.result + |op.resolved|) &&
                         Holds(r.value, OwnSlots(op), LoopBindings(rules, p, e, k)))
    decreases p, 5
  {
    hide Slots, Run, Valid, Names, Compile;
    var op := Loop(rules, p, id, tail, arg);
    var start := EmptyPacks(env, op.result, |op.resolved|);
    forall i: int
      ensures if op.result <= i < op.result + |op.resolved| then i in start && start[i] == Pack([])
              else SameAt(start, env, i)
    {
      EmptyPacksAt(env, op.result, |op.resolved|, i);
    }
    assert Outside(start, env, arg, op.result + |op.resolved|);
    RepeatMatches(rules, p, e, k, id, tail, arg, DropPairs(e, k), start);
    if AllAdmit(rules, p, e, k) {
      var final := Step(rules, op, env).value;
      assert !e.Empty? ==> Repeat(rules, op, e, DropPairs(e, k), start) == Some(final);
      OutsideWithin(env, start, final, arg, op.result, op.result + |op.resolved|);
      ReversedPacks(rules, p, e, k, final, start, op.result, |op.resolved|);
    }
  }

  lemma {:induction false} OutsideWithin(a: Env, b: Env, c: Env, lo: int, mid: int, hi: int)
    requires lo <= mid && Outside(b, a, lo, hi) && Outside(c, b, mid, hi)
    ensures Outside(c, a, lo, hi)
  {
    forall id: int | id < lo || id >= hi
      ensures SameAt(c, a, id)
    {
      assert SameAt(b, a, id) && SameAt(c, b, id);
    }
  }

  lemma {:induction false} ReversedPacks(rules: Rules, p: Datum, e: Datum, k: nat, env: Env, was: Env, result: int,
                                         n: nat)
    requires k <= Pairs(e) && AllAdmit(rules, p, e, k) && n == |Names(rules, p)|
    requires PacksAre(rules, p, e, k, env, was, result)
    requires forall i :: result <= i < result + n ==> i in was && was[i] == Pack([])
    ensures Holds(env, Consecutive(result, n), LoopBindings(rules, p, e, k))
  {
    forall i | 0 <= i < n
      ensures Consecutive(result, n)[i] in env
      ensures env[Consecutive(result, n)[i]] == Represent(LoopBindings(rules, p, e, k)[i])
    {
      var none: seq<Value> := [];
      ConsecutiveAt(result, n, i);
      assert Grown(env, was, result + i, RepresentAll(Column(rules, p, e, k, i)));
      assert ItemsAt(was, result + i) == none;
      assert RepresentAll(Column(rules, p, e, k, i)) + none == RepresentAll(Column(rules, p, e, k, i));
    }
  }

  lemma {:induction false} ResolvedBindings(env: Env, inner: Env, start: Env, resolved: seq<int>, result: int,
                                            bs: seq<Binding>, lo: int)
    requires Holds(inner, resolved, bs) && Outside(inner, start, lo, result) && lo <= result
    requires forall i: int :: i >= lo ==> SameAt(start, env, i)
    ensures var next := Resolve(env, inner, resolved, result);
            Outside(next, env, result, result + |resolved|) &&
            forall i :: 0 <= i < |bs| ==> Grown(next, env, result + i, [Represent(bs[i])])
  {
    var next := Resolve(env, inner, resolved, result);
    forall i: int | i < result || i >= result + |resolved|
      ensures SameAt(next, env, i)
    {
      ResolveAt(env, inner, resolved, result, i);
    }
    forall i | 0 <= i < |bs|
      ensures Grown(next, env, result + i, [Represent(bs[i])])
    {
      ResolveAt(env, inner, resolved, result, result + i);
      assert SameAt(inner, start, result + i) && SameAt(start, env, result + i);
    }
  }

  /** The values when the body of the loop has taken the pair e apart. */
  function Entered(env: Env, e: Datum, arg: int): (r: Env)
    requires e.Pair?
    ensures forall i: int :: i >= arg + 3 ==> SameAt(r, env, i)
  {
    env[arg := Form(e)][arg + 1 := Form(e.car)][arg + 2 := Form(e.cdr)]
  }

  lemma {:induction false} BodyRuns(rules: Rules, p: Datum, e: Datum, id: int, tail: int, arg: int, env: Env)
    requires e.Pair?
    ensures Run(rules, Loop(rules, p, id, tail, arg).body, env[arg := Form(e)]) ==
      Run(rules, Compile(rules, p, arg + 1, arg + 3).0, Entered(env, e, arg))
  {
    hide Run, Compile, Loop;
    LoopBody(rules, p, id, tail, arg);
    RunConcat(rules, [MatchPair(arg, arg + 1)], Compile(rules, p, arg + 1, arg + 3).0, env[arg := Form(e)]);
    RunOne(rules, MatchPair(arg, arg + 1), env[arg := Form(e)]);
  }

  /** One repetition: what the variables stand for goes in front of the packs. */
  lemma {:induction false} OneRepetition(rules: Rules, p: Datum, e: Datum, id: int, tail: int, arg: int, env: Env)
    requires Valid(rules, p) && e.Pair?
    ensures var op := Loop(rules, p, id, tail, arg);
            var r := Run(rules, op.body, env[arg := Form(e)]);
            (r.Some? <==> Admits(rules, p, e.car)) &&
            (r.Some? ==>
               var next := Resolve(env, r.value, op.resolved, op.result);
               Outside(next, env, op.result, op.result + |op.resolved|) &&
               OneMore(rules, p, e.car, next, env, op.result))
    decreases p, 4, 0
  {
    hide Slots, Run, Valid, Names, Compile, Loop, Resolve, Outside, Holds, Grown;
    LoopBody(rules, p, id, tail, arg);
    BodyRuns(rules, p, e, id, tail, arg, env);
    var op := Loop(rules, p, id, tail, arg);
    var sub := Compile(rules, p, arg + 1, arg + 3);
    var env1 := Entered(env, e, arg);
    CompiledMatches(rules, p, e.car, arg + 1, arg + 3, env1);
    if Admits(rules, p, e.car) {
      var inner := Run(rules, sub.0, env1).value;
      ResolvedBindings(env, inner, env1, op.resolved, op.result, Bindings(rules, p, e.car), arg + 3);
    }
  }

  /** The rest of the loop. */
  lemma {:induction false} RepeatMatches(rules: Rules, p: Datum, e: Datum, k: nat, id: int, tail: int, arg: int,
                                         end: Datum, env: Env)
    requires Valid(rules, p) && k <= Pairs(e) && end == DropPairs(e, k)
    requires var op := Loop(rules, p, id, tail, arg);
             forall i :: op.result <= i < op.result + |op.resolved| ==> i in env && env[i].Pack?
    ensures var op := Loop(rules, p, id, tail, arg);
            var r := Repeat(rules, op, e, end, env);
            (r.Some? <==> AllAdmit(rules, p, e, k)) &&
            (r.Some? ==> Outside(r.value, env, op.result, op.result + |op.resolved|) &&
                         PacksAre(rules, p, e, k, r.value, env, op.result))
    decreases p, 4, k
  {
    hide Slots, Run, Valid, Names, Compile, Resolve;
    var op := Loop(rules, p, id, tail, arg);
    var n := |op.resolved|;
    if k == 0 {
      forall i | 0 <= i < |Names(rules, p)|
        ensures Grown(env, env, op.result + i, RepresentAll(Column(rules, p, e, k, i)))
      {
        assert op.result + i in env;
        assert RepresentAll(Column(rules, p, e, k, i)) + ItemsAt(env, op.result + i) == ItemsAt(env, op.result + i);
      }
    } else {
      OneRepetition(rules, p, e, id, tail, arg, env);
      if Admits(rules, p, e.car) {
        StillPacks(rules, p, e.car, Run(rules, op.body, env[arg := Form(e)]).value, env, op);
        var next := Resolve(env, Run(rules, op.body, env[arg := Form(e)]).value, op.resolved, op.result);
        RepeatMatches(rules, p, e.cdr, k - 1, id, tail, arg, end, next);
        if AllAdmit(rules, p, e.cdr, k - 1) {
          var final := Repeat(rules, op, e.cdr, end, next).value;
          OutsideWithin(env, next, final, op.result, op.result, op.result + n);
          MorePacks(rules, p, e, k, final, next, env, op.result);
        }
      }
    }
  }

  lemma {:induction false} StillPacks(rules: Rules, p: Datum, e: Datum, inner: Env, env: Env, op: Op)
    requires op.Subpattern? && |op.resolved| == |Names(rules, p)| && Admits(rules, p, e)
    requires OneMore(rules, p, e, Resolve(env, inner, op.resolved, op.result), env, op.result)
    ensures var next := Resolve(env, inner, op.resolved, op.result);
            forall i :: op.result <= i < op.result + |op.resolved| ==> i in next && next[i].Pack?
  {
    var next := Resolve(env, inner, op.resolved, op.result);
    forall i | op.result <= i < op.result + |op.resolved|
      ensures i in next && next[i].Pack?
    {
      assert Grown(next, env, op.result + (i - op.result), [Represent(Bindings(rules, p, e)[i - op.result])]);
    }
  }

  lemma {:induction false} MorePacks(rules: Rules, p: Datum, e: Datum, k: nat, final: Env, next: Env, env: Env,
                                     result: int)
    requires 0 < k <= Pairs(e) && AllAdmit(rules, p, e, k)
    requires PacksAre(rules, p, e.cdr, k - 1, final, next, result)
    requires OneMore(rules, p, e.car, next, env, result)
    ensures PacksAre(rules, p, e, k, final, env, result)
  {
    forall i | 0 <= i < |Names(rules, p)|
      ensures Grown(final, env, result + i, RepresentAll(Column(rules, p, e, k, i)))
    {
      var rest := Column(rules, p, e.cdr, k - 1, i);
      var b := Bindings(rules, p, e.car)[i];
      assert Grown(next, env, result + i, [Represent(b)]);
      assert Grown(final, next, result + i, RepresentAll(rest));
      MoreItems(rest, b, ItemsAt(env, result + i));
    }
  }

  lemma {:induction false} MoreItems(rest: seq<Binding>, b: Binding, items: seq<Value>)
    ensures RepresentAll(rest) + ([Represent(b)] + items) == RepresentAll([b] + rest) + items
  {
    assert ([b] + rest)[1..] == rest;
  }
}
