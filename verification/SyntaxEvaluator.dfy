/** The interpreter's visits to the operations of syntax-rules (schir/lib/OpEval.cpp), with its scoped
    table of values. */
module SyntaxEvaluator {
  import opened Options
  import opened Utf8
  import opened Printing
  import opened DatumLists
  import opened SyntaxPatterns
  import opened SyntaxTemplates

  /** The outermost scope first. */
  type Scopes = seq<Env>

  /** The values in sight. */
  function Flat(scopes: Scopes): Env {
    if scopes == [] then map[] else Flat(scopes[..|scopes| - 1]) + scopes[|scopes| - 1]
  }

  function Range(lo: int, n: nat): (r: set<int>)
    ensures forall i :: i in r <==> lo <= i < lo + n
  {
    if n == 0 then {} else Range(lo, n - 1) + {lo + n - 1}
  }

  function Defines(op: Op): set<int> {
    match op
    case Match(_, _) => {}
    case MatchPair(_, result) => {result, result + 1}
    case MatchTail(_, _, result) => {result}
    case Closure(_, result) => {result}
    case Subpattern(_, _, _, _, resolved, result) => Range(result, |resolved|)
  }

  function DefinesAll(ops: seq<Op>): set<int> {
    if ops == [] then {} else Defines(ops[0]) + DefinesAll(ops[1..])
  }

  /** The packs of a Subpattern have numbers of their own. */
  predicate Numbered(op: Op)
    decreases op, 1
  {
    op.Subpattern? ==>
      var packs := Range(op.result, |op.resolved|);
      NumberedAll(op.body) && DefinesAll(op.body) !! packs && op.arg !in packs &&
      forall id <- op.resolved :: id !in packs
  }

  predicate NumberedAll(ops: seq<Op>)
    decreases ops, 0
  {
    ops == [] || (Numbered(ops[0]) && NumberedAll(ops[1..]))
  }

  lemma {:induction false} ResolveOutside(env: Env, inner: Env, resolved: seq<int>, result: int, id: int)
    requires id < result || id >= result + |resolved|
    ensures SameAt(Resolve(env, inner, resolved, result), env, id)
    decreases |resolved|
  {
    if resolved != [] { ResolveOutside(env, inner, resolved[..|resolved| - 1], result, id); }
  }

  class Evaluator {
    const rules: Rules
    var scopes: Scopes

    constructor (rules: Rules, env: Env)
      ensures this.rules == rules && Flat(scopes) == env && |scopes| == 1
    {
      this.rules := rules;
      scopes := [env];
      new;
      assert Flat(scopes[..0]) == map[];
    }

    method GetValue(id: int) returns (v: Option<Value>)
      ensures v == if id in Flat(scopes) then Some(Flat(scopes)[id]) else None
    {
      var n := |scopes|;
      assert scopes[..n] == scopes;
      while n > 0
        invariant 0 <= n <= |scopes| && SameAt(Flat(scopes), Flat(scopes[..n]), id)
      {
        assert scopes[..n][..n - 1] == scopes[..n - 1];
        n := n - 1;
        if id in scopes[n] { return Some(scopes[n][id]); }
      }
      v := None;
    }

    method SetValue(id: int, v: Value)
      requires |scopes| > 0
      modifies this
      ensures Changed(old(scopes), scopes, {id}) && Flat(scopes) == Flat(old(scopes))[id := v]
    {
      var last := |scopes| - 1;
      scopes := scopes[..last] + [scopes[last][id := v]];
    }

    method SetValueParentScope(id: int, v: Value)
      requires |scopes| > 1
      modifies this
      ensures |scopes| == |old(scopes)| && scopes[|scopes| - 1] == old(scopes)[|scopes| - 1]
      ensures var n := |scopes| - 1;
              Changed(old(scopes)[..n], scopes[..n], {id}) && Flat(scopes[..n]) == Flat(old(scopes)[..n])[id := v]
    {
      var parent := |scopes| - 2;
      var was := scopes;
      scopes := scopes[..parent] + [scopes[parent][id := v], scopes[parent + 1]];
      assert scopes[..parent + 1] == was[..parent] + [was[parent][id := v]];
      assert was[..parent + 1][..parent] == was[..parent];
    }

    /** The loop over the operations of a block. */
    method Run(ops: seq<Op>) returns (ok: bool)
      requires |scopes| > 0 && NumberedAll(ops)
      modifies this
      ensures Changed(old(scopes), scopes, DefinesAll(ops))
      ensures ok == SyntaxPatterns.Run(rules, ops, Flat(old(scopes))).Some?
      ensures ok ==> SyntaxPatterns.Run(rules, ops, Flat(old(scopes))) == Some(Flat(scopes))
      decreases ops, 0
    {
      if ops == [] { return true; }
      ok := Visit(ops[0]);
      if ok { ok := Run(ops[1..]); }
    }

    method Visit(op: Op) returns (ok: bool)
      requires |scopes| > 0 && Numbered(op)
      modifies this
      ensures Changed(old(scopes), scopes, Defines(op))
      ensures ok == Step(rules, op, Flat(old(scopes))).Some?
      ensures ok ==> Step(rules, op, Flat(old(scopes))) == Some(Flat(scopes))
      decreases op, 2
    {
      match op {
        case Match(p, input) =>
          var e := GetValue(input);
          ok := e.Some? && e.value.Form? && Literally(rules, p, e.value.d);
        case MatchPair(input, result) =>
          var e := GetValue(input);
          ok := e.Some? && e.value.Form? && e.value.d.Pair?;
          if ok {
            SetValue(result, Form(e.value.d.car));
            SetValue(result + 1, Form(e.value.d.cdr));
          }
        case MatchTail(length, input, result) =>
          ok := VisitMatchTail(length, input, result);
        case Closure(input, result) =>
          var e := GetValue(input);
          ok := e.Some?;
          if ok { SetValue(result, e.value); }
        case Subpattern(_, _, _, _, _, _) =>
          ok := VisitSubpattern(op);
      }
    }

    /** The tail is what is left when as many pairs as the pattern has remain. */
    method VisitMatchTail(length: nat, input: int, result: int) returns (ok: bool)
      requires |scopes| > 0
      modifies this
      ensures Changed(old(scopes), scopes, {result})
      ensures var op := MatchTail(length, input, result);
        ok == Step(rules, op, Flat(old(scopes))).Some? &&
        (ok ==> Step(rules, op, Flat(old(scopes))) == Some(Flat(scopes)))
    {
      var e := GetValue(input);
      if e.None? || e.value.Pack? || length == 0 { return false; }
      var total: nat := 1;
      var cur := e.value.d;
      while cur.Pair?
        invariant total + Pairs(cur) == 1 + Pairs(e.value.d)
        decreases cur
      {
        total := total + 1;
        cur := cur.cdr;
      }
      if total < length { return false; }
      cur := e.value.d;
      for i := 0 to total - length
        invariant total - length - i <= Pairs(cur)
        invariant DropPairs(cur, total - length - i) == DropPairs(e.value.d, total - length)
      {
        cur := cur.cdr;
      }
      SetValue(result, Form(cur));
      ok := true;
    }

    method VisitSubpattern(op: Op) returns (ok: bool)
      requires |scopes| > 0 && Numbered(op) && op.Subpattern?
      modifies this
      ensures Changed(old(scopes), scopes, Defines(op))
      ensures ok == Step(rules, op, Flat(old(scopes))).Some?
      ensures ok ==> Step(rules, op, Flat(old(scopes))) == Some(Flat(scopes))
      decreases op, 1
    {
      hide Range, Resolve, Flat;
      var input := GetValue(op.input);
      var last := GetValue(op.tail);
      if input.None? || input.value.Pack? || last.None? || last.value.Pack? { return false; }
      var e, tail := input.value.d, last.value.d;
      ghost var env := Flat(scopes);
      ghost var packs := Range(op.result, |op.resolved|);
      for i := 0 to |op.resolved|
        invariant Changed(old(scopes), scopes, packs) && Flat(scopes) == EmptyPacks(env, op.result, i)
      {
        SetValue(op.result + i, Pack([]));
      }
      if e.Empty? { return true; }
      ghost var result := Repeat(rules, op, e, tail, Flat(scopes));
      while e.Pair? && e != tail
        invariant Changed(old(scopes), scopes, packs)
        invariant Repeat(rules, op, e, tail, Flat(scopes)) == result
        decreases e
      {
        ok := VisitBody(op, e);
        if !ok { break; }
        e := e.cdr;
      }
      ok := e == tail;
    }

    /** One run of the body in a scope of its own. */
    method VisitBody(op: Op, e: Datum) returns (ok: bool)
      requires |scopes| > 0 && Numbered(op) && op.Subpattern?
      modifies this
      ensures Changed(old(scopes), scopes, Range(op.result, |op.resolved|))
      ensures var inner := SyntaxPatterns.Run(rules, op.body, Flat(old(scopes))[op.arg := Form(e)]);
        ok == inner.Some? &&
        (ok ==> Flat(scopes) == Resolve(Flat(old(scopes)), inner.value, op.resolved, op.result))
      decreases op, 0
    {
      hide SyntaxPatterns.Run, Resolve, Range;
      ghost var outer := scopes;
      var n := |scopes|;
      scopes := scopes + [map[]];
      assert scopes[..n] == outer;
      SetValue(op.arg, Form(e));
      assert Flat(scopes) == Flat(outer)[op.arg := Form(e)] && scopes[n].Keys <= {op.arg};
      ok := Run(op.body);
      assert scopes[..n] == outer && scopes[n].Keys <= {op.arg} + DefinesAll(op.body);
      if ok { VisitResolve(op); }
      scopes := scopes[..n];
    }

    /** The terminator of the body puts each value in front of its pack in the scope outside. */
    method VisitResolve(op: Op)
      requires |scopes| > 1 && op.Subpattern?
      requires forall id <- op.resolved :: id !in Range(op.result, |op.resolved|)
      requires scopes[|scopes| - 1].Keys !! Range(op.result, |op.resolved|)
      modifies this
      ensures |scopes| == |old(scopes)|
      ensures var n := |scopes| - 1;
              Changed(old(scopes)[..n], scopes[..n], Range(op.result, |op.resolved|)) &&
              Flat(scopes[..n]) == Resolve(Flat(old(scopes)[..n]), Flat(old(scopes)), op.resolved, op.result)
    {
      hide SyntaxPatterns.Run, Range, Numbered;
      ghost var n := |scopes| - 1;
      ghost var env, inner := Flat(scopes[..n]), Flat(scopes);
      for i := 0 to |op.resolved|
        invariant |scopes| == |old(scopes)| && scopes[n] == old(scopes)[n]
        invariant Changed(old(scopes)[..n], scopes[..n], Range(op.result, |op.resolved|))
        invariant Flat(scopes[..n]) == Resolve(env, inner, op.resolved[..i], op.result)
      {
        var v := GetValue(op.resolved[i]);
        var pack := GetValue(op.result + i);
        ResolveOutside(env, inner, op.resolved[..i], op.result, op.resolved[i]);
        ResolveOutside(env, inner, op.resolved[..i], op.result, op.result + i);
        assert op.resolved[i] in op.resolved;
        assert op.resolved[..i + 1][..i] == op.resolved[..i];
        if v.Some? {
          var items := if pack.Some? && pack.value.Pack? then pack.value.items else [];
          SetValueParentScope(op.result + i, Pack([v.value] + items));
        }
      }
      assert op.resolved[..|op.resolved|] == op.resolved;
    }

    /** Running a template's code, with the arguments of the expansions around it. */
    method VisitCode(code: Code, args: Args) returns (r: Option<Datum>)
      ensures r == Evaluate(code, Flat(scopes), args)
      decreases code, 1
    {
      match code {
        case Literal(d) => r := Some(d);
        case Rename(s) => r := Some(Symbol(s));
        case Use(ref) =>
          var v := GetRef(ref, args);
          r := if v.Some? && v.value.Form? then Some(v.value.d) else None;
        case Cons(x, y) =>
          var car := VisitCode(x, args);
          var cdr := VisitCode(y, args);
          r := Paired(car, cdr);
        case NoElements => r := Some(Vector([]));
        case VectorOf(list) =>
          var l := VisitCode(list, args);
          if l.None? { return None; }
          r := CollectVector(l.value);
        case Expand(_, _, _) => r := VisitExpandPacks(code, args);
      }
    }

    method GetRef(ref: Ref, args: Args) returns (v: Option<Value>)
      ensures v == ValueOf(ref, Flat(scopes), args)
    {
      match ref {
        case Slot(id) => v := GetValue(id);
        case Arg(level, index) =>
          v := if level < |args| && index < |args[level]| then Some(args[level][index]) else None;
      }
    }

    /** The result starts as the rest of the list, and each run of the body adds to its front. */
    method VisitExpandPacks(code: Code, args: Args) returns (r: Option<Datum>)
      requires code.Expand?
      ensures r == Evaluate(code, Flat(scopes), args)
      decreases code, 0
    {
      var rest := VisitCode(code.cdr, args);
      var values := GetRefs(code.packs, args);
      if rest.None? || values.None? || values.value == [] { return None; }
      var result, packs := rest.value, values.value;
      while HasItem(packs[0])
        invariant packs != []
        invariant Iterate(code.body, packs, result, Flat(scopes), args) ==
          Iterate(code.body, values.value, rest.value, Flat(scopes), args)
        decreases if packs[0].Pack? then |packs[0].items| else 0
      {
        if !AllHaveItems(packs) { return None; }
        var item := VisitCode(code.body, args + [Heads(packs)]);
        if item.None? { return None; }
        result := Pair(item.value, result);
        packs := Tails(packs);
      }
      r := if NoneHasItems(packs) then Some(result) else None;
    }

    method GetRefs(refs: seq<Ref>, args: Args) returns (r: Option<seq<Value>>)
      ensures r == ValuesOf(refs, Flat(scopes), args)
    {
      var n := |refs|;
      var values: seq<Value> := [];
      assert refs[n..] == [];
      while n > 0
        invariant 0 <= n <= |refs| && ValuesOf(refs[n..], Flat(scopes), args) == Some(values)
      {
        assert refs[n - 1..][1..] == refs[n..];
        var v := GetRef(refs[n - 1], args);
        if v.None? {
          MissingValue(refs, n - 1, Flat(scopes), args);
          return None;
        }
        n := n - 1;
        values := [v.value] + values;
      }
      assert refs[0..] == refs;
      r := Some(values);
    }
  }

  lemma {:induction false} MissingValue(refs: seq<Ref>, i: nat, env: Env, args: Args)
    requires i < |refs| && ValueOf(refs[i], env, args).None?
    ensures ValuesOf(refs, env, args).None?
  {
    if i > 0 { MissingValue(refs[1..], i - 1, env, args); }
  }

  // ---------------------------------------------------------------- compiled patterns are well numbered

  lemma {:induction false} NumberedConcat(xs: seq<Op>, ys: seq<Op>)
    ensures NumberedAll(xs + ys) <==> NumberedAll(xs) && NumberedAll(ys)
    ensures DefinesAll(xs + ys) == DefinesAll(xs) + DefinesAll(ys)
  {
    if xs == [] {
      assert xs + ys == ys;
    } else {
      NumberedConcat(xs[1..], ys);
      assert (xs + ys)[1..] == xs[1..] + ys;
    }
  }

  lemma {:induction false} NumberedOne(op: Op)
    ensures NumberedAll([op]) <==> Numbered(op)
    ensures DefinesAll([op]) == Defines(op)
  {
    var none: seq<Op> := [];
    assert [op][1..] == none;
  }

  ghost predicate Within(ids: set<int>, lo: int, hi: int) { forall i <- ids :: lo <= i < hi }

  lemma {:induction false} CompiledNumbered(rules: Rules, p: Datum, id: int, n: int)
    ensures NumberedAll(Compile(rules, p, id, n).0)
    ensures Within(DefinesAll(Compile(rules, p, id, n).0), n, Compile(rules, p, id, n).1)
    decreases p, 1
  {
    hide Names, Slots, Loop, Numbered, NumberedAll, DefinesAll;
    if p.Pair? {
      hide Compile;
      if Repeats(rules, p) {
        var tail := Compile(rules, p.cdr.cdr, n, n + 1);
        var op := Loop(rules, p.car, id, n, tail.1);
        var first := MatchTail(Pairs(p.cdr.cdr) + 1, id, n);
        CompiledRepeat(rules, p, id, n);
        CompiledNumbered(rules, p.cdr.cdr, n, n + 1);
        LoopNumbered(rules, p.car, id, n, tail.1);
        NumberedConcat([first] + tail.0, [op]);
        NumberedConcat([first], tail.0);
        NumberedOne(first);
        NumberedOne(op);
        PlainNumbered(first);
      } else {
        var car := Compile(rules, p.car, n, n + 2);
        var cdr := Compile(rules, p.cdr, n + 1, car.1);
        CompiledPair(rules, p, id, n);
        CompiledNumbered(rules, p.car, n, n + 2);
        CompiledNumbered(rules, p.cdr, n + 1, car.1);
        NumberedConcat([MatchPair(id, n)] + car.0, cdr.0);
        NumberedConcat([MatchPair(id, n)], car.0);
        NumberedOne(MatchPair(id, n));
        PlainNumbered(MatchPair(id, n));
      }
    } else {
      AtomNumbered(rules, p, id, n);
    }
  }

  lemma {:induction false} AtomNumbered(rules: Rules, p: Datum, id: int, n: int)
    requires !p.Pair?
    ensures NumberedAll(Compile(rules, p, id, n).0)
    ensures Within(DefinesAll(Compile(rules, p, id, n).0), n, Compile(rules, p, id, n).1)
  {
    NumberedOne(Match(p, id));
    NumberedOne(Closure(id, n));
  }

  lemma {:induction false} PlainNumbered(op: Op)
    requires !op.Subpattern?
    ensures Numbered(op)
  {
  }

  lemma {:induction false} LoopNumbered(rules: Rules, p: Datum, id: int, tail: int, arg: int)
    ensures Numbered(Loop(rules, p, id, tail, arg))
    decreases p, 2
  {
    hide Compile, Slots, Loop, NumberedAll, DefinesAll;
    LoopBody(rules, p, id, tail, arg);
    var sub := Compile(rules, p, arg + 1, arg + 3);
    CompiledNumbered(rules, p, arg + 1, arg + 3);
    SlotsBetween(rules, p, arg + 1, arg + 3);
    NumberedConcat([MatchPair(arg, arg + 1)], sub.0);
    NumberedOne(MatchPair(arg, arg + 1));
    PlainNumbered(MatchPair(arg, arg + 1));
  }

  /** Only the innermost scope changed, and only in the given values. */
  ghost predicate Changed(was: Scopes, scopes: Scopes, ids: set<int>) {
    |was| == |scopes| > 0 &&
    was[..|was| - 1] == scopes[..|was| - 1] &&
    scopes[|was| - 1].Keys <= was[|was| - 1].Keys + ids
  }
}
