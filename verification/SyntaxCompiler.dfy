/** The compiler of syntax-rules at work: PatternTemplate (schir/lib/PatternTemplate.h) and TemplateGen
    (schir/lib/TemplateGen.h) as they emit operations. */
module SyntaxCompiler {
  import opened Options
  import opened Utf8
  import opened Printing
  import opened DatumLists
  import opened SyntaxPatterns
  import opened SyntaxTemplates
  import opened SyntaxRules

  /** The names are new, and no two are the same. */
  ghost predicate Fresh(names: seq<Bytes>, vars: set<Bytes>) {
    NoRepeats(names) && forall v <- names :: v !in vars
  }

  lemma {:induction false} FreshBoth(xs: seq<Bytes>, ys: seq<Bytes>, vars: set<Bytes>)
    ensures Fresh(xs + ys, vars) <==> Fresh(xs, vars) && Fresh(ys, vars + set v | v in xs)
    ensures (set v | v in xs + ys) == (set v | v in xs) + set v | v in ys
  {
    var all := xs + ys;
    if Fresh(all, vars) {
      forall i, j | 0 <= i < j < |xs|
        ensures xs[i] != xs[j]
      {
        assert all[i] != all[j];
      }
      forall i, j | 0 <= i < j < |ys|
        ensures ys[i] != ys[j]
      {
        assert all[|xs| + i] != all[|xs| + j];
      }
      forall v <- ys
        ensures v !in xs && v !in vars
      {
        assert v in all;
        var j :| 0 <= j < |ys| && ys[j] == v;
        forall i | 0 <= i < |xs|
          ensures xs[i] != v
        {
          assert all[i] != all[|xs| + j];
        }
      }
      forall v <- xs
        ensures v !in vars
      {
        assert v in all;
      }
    } else if Fresh(xs, vars) && Fresh(ys, vars + set v | v in xs) {
      forall i, j | 0 <= i < j < |all|
        ensures all[i] != all[j]
      {
        if i < |xs| <= j { assert all[i] in xs && all[j] in ys; }
      }
    }
  }

  lemma {:induction false} PairParts(rules: Rules, p: Datum)
    requires p.Pair?
    ensures if Repeats(rules, p) then
        Names(rules, p) == Names(rules, p.cdr.cdr) + Names(rules, p.car) &&
        (Valid(rules, p) <==> Valid(rules, p.cdr.cdr) && Valid(rules, p.car))
      else
        Names(rules, p) == Names(rules, p.car) + Names(rules, p.cdr) &&
        (Valid(rules, p) <==> Valid(rules, p.car) && Valid(rules, p.cdr))
  {
  }

  /** The operations for p are emitted and its variables bound. */
  ghost predicate Emitted(rules: Rules, p: Datum, id: int, block: seq<Op>, was: seq<Op>, next: int, n: int,
                          vars: set<Bytes>, before: set<Bytes>)
  {
    var c := Compile(rules, p, id, n);
    block == was + c.0 && next == c.1 && vars == before + set v | v in Names(rules, p)
  }

  lemma {:induction false} EmittedPair(rules: Rules, p: Datum, id: int, was: seq<Op>, n: int, before: set<Bytes>,
                                       mid: seq<Op>, middle: int, vars: set<Bytes>,
                                       block: seq<Op>, next: int, after: set<Bytes>)
    requires p.Pair? && !Repeats(rules, p)
    requires Emitted(rules, p.car, n, mid, was + [MatchPair(id, n)], middle, n + 2, vars, before)
    requires Emitted(rules, p.cdr, n + 1, block, mid, next, middle, after, vars)
    ensures Emitted(rules, p, id, block, was, next, n, after, before)
  {
    hide Compile, Slots, Names;
    CompiledPair(rules, p, id, n);
    PairParts(rules, p);
    FreshBoth(Names(rules, p.car), Names(rules, p.cdr), before);
    var car := Compile(rules, p.car, n, n + 2);
    var cdr := Compile(rules, p.cdr, n + 1, car.1);
    assert was + [MatchPair(id, n)] + car.0 + cdr.0 == was + PairOps(id, n, car.0, cdr.0);
  }

  lemma {:induction false} EmittedRepeat(rules: Rules, p: Datum, id: int, was: seq<Op>, n: int, before: set<Bytes>,
                                         outer: seq<Op>, arg: int, vars: set<Bytes>,
                                         body: seq<Op>, next: int, after: set<Bytes>)
    requires Repeats(rules, p)
    requires Emitted(rules, p.cdr.cdr, n, outer, was + [MatchTail(Pairs(p.cdr.cdr) + 1, id, n)], arg, n + 1,
                     vars, before)
    requires Emitted(rules, p.car, arg + 1, body, [MatchPair(arg, arg + 1)], next, arg + 3, after, vars)
    ensures var op := Subpattern(id, n, arg, body, Slots(body), next);
            Emitted(rules, p, id, outer + [op], was, next + |op.resolved|, n, after, before)
  {
    hide Compile, Slots, Names, Loop;
    CompiledRepeat(rules, p, id, n);
    PairParts(rules, p);
    FreshBoth(Names(rules, p.cdr.cdr), Names(rules, p.car), before);
    var tail := Compile(rules, p.cdr.cdr, n, n + 1);
    LoopBody(rules, p.car, id, n, arg);
    PairSlots(arg, arg + 1, Compile(rules, p.car, arg + 1, arg + 3).0, []);
    var op := Loop(rules, p.car, id, n, arg);
    assert was + [MatchTail(Pairs(p.cdr.cdr) + 1, id, n)] + tail.0 + [op] ==
      was + RepeatOps(Pairs(p.cdr.cdr) + 1, id, n, tail.0, op);
  }

  class PatternTemplate {
    const rules: Rules
    /** The operations at the insertion point. */
    var block: seq<Op>
    /** The number of the next value. */
    var next: int
    var patternVars: set<Bytes>
    var failed: bool

    constructor (rules: Rules, next: int)
      ensures this.rules == rules && this.next == next && block == [] && patternVars == {} && !failed
    {
      this.rules := rules;
      this.next := next;
      block := [];
      patternVars := {};
      failed := false;
    }

    /** Takes the form apart to skip its keyword. */
    method Enter(id: int)
      modifies this
      ensures block == old(block) + [MatchPair(id, old(next))] && next == old(next) + 2
      ensures patternVars == old(patternVars) && failed == old(failed)
    {
      block := block + [MatchPair(id, next)];
      next := next + 2;
    }

    /** Emits the operations that match p against the value id. It fails exactly when the pattern is
        not valid or a variable is bound twice. */
    method Visit(p: Datum, id: int)
      modifies this
      ensures failed == (old(failed) || !Valid(rules, p) || !Fresh(Names(rules, p), old(patternVars)))
      ensures !failed ==>
        Emitted(rules, p, id, block, old(block), next, old(next), patternVars, old(patternVars))
      decreases p, 2
    {
      match p {
        case Pair(_, _) => VisitPair(p, id);
        case Symbol(_) => VisitSymbol(p, id);
        case Vector(_) => failed := true;
        case _ => block := block + [Match(p, id)];
      }
    }

    method VisitSymbol(p: Datum, id: int)
      requires p.Symbol?
      modifies this
      ensures failed == (old(failed) || !Valid(rules, p) || !Fresh(Names(rules, p), old(patternVars)))
      ensures !failed ==>
        Emitted(rules, p, id, block, old(block), next, old(next), patternVars, old(patternVars))
    {
      if p.s == UNDERSCORE { return; }
      if p.s in rules.literals {
        block := block + [Match(p, id)];
      } else if p.s == rules.ellipsis {
        failed := true;
      } else {
        if p.s in patternVars { failed := true; }
        patternVars := patternVars + {p.s};
        block := block + [Closure(id, next)];
        next := next + 1;
      }
    }

    method VisitPair(p: Datum, id: int)
      requires p.Pair?
      modifies this
      ensures failed == (old(failed) || !Valid(rules, p) || !Fresh(Names(rules, p), old(patternVars)))
      ensures !failed ==>
        Emitted(rules, p, id, block, old(block), next, old(next), patternVars, old(patternVars))
      decreases p, 1
    {
      hide Compile, Names, Valid, Fresh, Emitted;
      if Repeats(rules, p) {
        VisitSubpattern(p, id);
      } else {
        VisitPlainPair(p, id);
      }
    }

    method VisitPlainPair(p: Datum, id: int)
      requires p.Pair? && !Repeats(rules, p)
      modifies this
      ensures failed == (old(failed) || !Valid(rules, p) || !Fresh(Names(rules, p), old(patternVars)))
      ensures !failed ==>
        Emitted(rules, p, id, block, old(block), next, old(next), patternVars, old(patternVars))
      decreases p, 0
    {
      hide Compile, Names, Valid, Fresh;
      PairParts(rules, p);
      FreshBoth(Names(rules, p.car), Names(rules, p.cdr), patternVars);
      ghost var was, before := block, patternVars;
      var n := next;
      block := block + [MatchPair(id, n)];
      next := next + 2;
      Visit(p.car, n);
      ghost var mid, middle, vars := block, next, patternVars;
      if !failed { Visit(p.cdr, n + 1); }
      if !failed { EmittedPair(rules, p, id, was, n, before, mid, middle, vars, block, next, patternVars); }
    }

    /** The pairs of the pattern that follows the ellipsis, with its end, are counted for the tail. */
    method VisitTail(p: Datum, id: int) returns (tail: int)
      modifies this
      ensures tail == old(next)
      ensures failed == (old(failed) || !Valid(rules, p) || !Fresh(Names(rules, p), old(patternVars)))
      ensures !failed ==>
        Emitted(rules, p, tail, block, old(block) + [MatchTail(Pairs(p) + 1, id, tail)], next, tail + 1,
                patternVars, old(patternVars))
      decreases p, 3
    {
      var length: nat := 1;
      var cur := p;
      while cur.Pair?
        invariant length + Pairs(cur) == 1 + Pairs(p)
        decreases cur
      {
        length := length + 1;
        cur := cur.cdr;
      }
      tail := next;
      next := next + 1;
      block := block + [MatchTail(length, id, tail)];
      Visit(p, tail);
    }

    method VisitSubpattern(p: Datum, id: int)
      requires Repeats(rules, p)
      modifies this
      ensures failed == (old(failed) || !Valid(rules, p) || !Fresh(Names(rules, p), old(patternVars)))
      ensures !failed ==>
        Emitted(rules, p, id, block, old(block), next, old(next), patternVars, old(patternVars))
      decreases p, 0
    {
      hide Compile, Names, Valid, Fresh, Slots;
      PairParts(rules, p);
      FreshBoth(Names(rules, p.cdr.cdr), Names(rules, p.car), patternVars);
      ghost var was, before, n := block, patternVars, next;
      var tail := VisitTail(p.cdr.cdr, id);
      var outer := block;
      ghost var vars := patternVars;
      // the body of the loop
      var arg := next;
      next := next + 3;
      block := [MatchPair(arg, arg + 1)];
      Visit(p.car, arg + 1);
      var body := block;
      var packs := CollectPacks(body);
      if !failed { EmittedRepeat(rules, p, id, was, n, before, outer, arg, vars, body, next, patternVars); }
      block := outer + [Subpattern(id, tail, arg, body, packs, next)];
      next := next + |packs|;
    }

    /** The values of the pattern variables that a body defines. */
    method CollectPacks(ops: seq<Op>) returns (packs: seq<int>)
      ensures packs == Slots(ops)
    {
      packs := [];
      for i := 0 to |ops|
        invariant packs == Slots(ops[..i])
      {
        match ops[i] {
          case Closure(_, result) => packs := packs + [result];
          case Subpattern(_, _, _, _, resolved, result) => packs := packs + Consecutive(result, |resolved|);
          case _ =>
        }
        SlotsConcat(ops[..i], [ops[i]]);
        assert ops[..i + 1] == ops[..i] + [ops[i]];
        assert [ops[i]][1..] == [];
      }
      assert ops[..|ops|] == ops;
    }
  }

  class TemplateGen {
    const sc: Scope
    /** The captures of the expansions under construction. */
    var packStack: Stack
    var failed: bool

    constructor (sc: Scope)
      ensures this.sc == sc && packStack == [] && !failed
    {
      this.sc := sc;
      packStack := [];
      failed := false;
    }

    /** The code of a template; it fails exactly when Generate does. */
    method Visit(t: Datum) returns (code: Code)
      modifies this
      ensures failed == (old(failed) || Generate(sc, t, old(packStack)).None?)
      ensures !failed ==> Generate(sc, t, old(packStack)) == Some((code, packStack))
      decreases Size(t), 1
    {
      code := Literal(t);
      match t {
        case Pair(_, _) => code := VisitPair(t);
        case Vector(xs) =>
          if xs == [] {
            code := NoElements;
          } else {
            var list := Visit(ListOf(xs));
            code := VectorOf(list);
          }
        case Symbol(s) =>
          if s in sc.vars {
            code := GetPatternVar(s);
          } else if s == sc.ellipsis {
            failed := true;
          } else {
            code := Rename(s);
          }
        case _ =>
      }
    }

    method VisitPair(t: Datum) returns (code: Code)
      requires t.Pair?
      modifies this
      ensures failed == (old(failed) || Generate(sc, t, old(packStack)).None?)
      ensures !failed ==> Generate(sc, t, old(packStack)) == Some((code, packStack))
      decreases Size(t), 0
    {
      if Expands(sc.ellipsis, t) {
        SizeOfParts(t);
        code := ExpandPack(t.car, t.cdr.cdr);
        ExpandParts(sc, t, old(packStack));
      } else {
        var car := Visit(t.car);
        var cdr := Visit(t.cdr);
        code := Joined(t.car, t.cdr, car, cdr);
      }
    }

    /** The body of an expansion is generated with captures of its own. */
    method ExpandPack(x: Datum, rest: Datum) returns (code: Code)
      modifies this
      ensures failed == (old(failed) || GenerateExpand(sc, x, rest, old(packStack)).None?)
      ensures !failed ==> GenerateExpand(sc, x, rest, old(packStack)) == Some((code, packStack))
      decreases Size(x) + Size(rest), 2
    {
      var cdr := Visit(rest);
      packStack := packStack + [[]];
      var body := Visit(x);
      code := Literal(Empty);
      if failed { return; }
      var packs := packStack[|packStack| - 1];
      if packs == [] {
        failed := true;
      } else {
        code := Expand(cdr, packs, body);
        packStack := packStack[..|packStack| - 1];
      }
    }

    method GetPatternVar(s: Bytes) returns (code: Code)
      requires s in sc.vars
      modifies this
      ensures failed == (old(failed) || Generate(sc, Symbol(s), old(packStack)).None?)
      ensures !failed ==> Generate(sc, Symbol(s), old(packStack)) == Some((code, packStack))
    {
      code := Literal(Empty);
      if failed { return; }
      if sc.vars[s].depth != |packStack| {
        failed := true;
        return;
      }
      var ref := MaybeCaptureExpandArg(Slot(sc.vars[s].slot));
      code := Use(ref);
    }

    /** Each expansion under construction captures the value from the one around it. */
    method MaybeCaptureExpandArg(ref: Ref) returns (last: Ref)
      requires !failed
      modifies this
      ensures failed == Capture(ref, old(packStack), 0).None?
      ensures !failed ==> Capture(ref, old(packStack), 0) == Some((last, packStack))
    {
      last := ref;
      for level := 0 to |packStack|
        invariant |packStack| == |old(packStack)| && !failed
        invariant Capture(last, packStack, level) == Capture(ref, old(packStack), 0)
      {
        var captures := packStack[level];
        var i := IndexOf(captures, last);
        if i < |captures| {
          // the argument numbered -i
          if i != 0 {
            failed := true;
            return;
          }
          last := Arg(level, 0);
        } else {
          packStack := packStack[level := captures + [last]];
          last := Arg(level, |captures|);
        }
      }
    }
  }

  lemma {:induction false} SizeOfParts(t: Datum)
    requires t.Pair? && t.cdr.Pair?
    ensures Size(t.car) + Size(t.cdr.cdr) < Size(t)
  {
    assert Size(t.cdr) == 1 + Size(t.cdr.car) + Size(t.cdr.cdr);
  }

  /** The keyword at the head of a pattern is not matched. */
  predicate HasKeyword(p: Datum) { p.Pair? && p.car.Symbol? }

  function Rest(p: Datum): Datum { if HasKeyword(p) then p.cdr else p }

  /** Whether the Rest of p admits the part of a form that is matched. */
  ghost predicate FormAdmits(rules: Rules, p: Datum, e: Datum) {
    if HasKeyword(p) then e.Pair? && Admits(rules, p.cdr, e.cdr) else Admits(rules, p, e)
  }

  ghost function FormBound(rules: Rules, p: Datum, e: Datum): Bound
    requires FormAdmits(rules, p, e)
  {
    BoundTo(rules, Rest(p), if HasKeyword(p) then e.cdr else e)
  }

  /** The variables in the scope of a template whose form is the value id. */
  function RuleScope(rules: Rules, p: Datum, id: int, n: int): Scope {
    if HasKeyword(p) then ScopeOf(rules, p.cdr, n + 1, n + 2) else ScopeOf(rules, p, id, n)
  }

  /** Whether running a rule on e does what its reading says: the form is rewritten exactly when the pattern
      admits it, to what the template stands for. */
  ghost predicate Rewrites(rules: Rules, p: Datum, t: Datum, ops: seq<Op>, code: Code, e: Datum, env: Env) {
    var matched := Run(rules, ops, env);
    (matched.Some? <==> FormAdmits(rules, p, e)) &&
    (matched.Some? ==> Evaluate(code, matched.value, []) == Instantiate(rules.ellipsis, t, FormBound(rules, p, e)))
  }

  /** Whether a rule is compiled: the ellipsis is no literal, the pattern is valid and binds no variable
      twice, and the template is accepted. */
  ghost predicate Compiles(rules: Rules, p: Datum, t: Datum, id: int, n: int) {
    rules.ellipsis !in rules.literals &&
    Valid(rules, Rest(p)) && NoRepeats(Names(rules, Rest(p))) &&
    WellPlaced(RuleScope(rules, p, id, n), t, 0) && !ReusesLater(RuleScope(rules, p, id, n), t)
  }

  /** Compiles a rule. */
  method CompileRule(rules: Rules, p: Datum, t: Datum, id: int, n: int) returns (ops: seq<Op>, code: Option<Code>)
    requires id < n
    ensures code.Some? <==> Compiles(rules, p, t, id, n)
    ensures code.Some? ==> ops == RuleOps(rules, p, id, n)
    ensures code.Some? ==>
      forall e, env :: id in env && env[id] == Form(e) ==> Rewrites(rules, p, t, ops, code.value, e, env)
  {
    hide Names, Slots, Compile, Depths, Bindings, Generate, Evaluate, Instantiate, Run, Admits, Valid,
         WellPlaced, ReusesLater;
    ops, code := [], None;
    if rules.ellipsis in rules.literals { return; }
    var pattern := new PatternTemplate(rules, n);
    if HasKeyword(p) {
      pattern.Enter(id);
      pattern.Visit(p.cdr, n + 1);
    } else {
      pattern.Visit(p, id);
    }
    ops := pattern.block;
    if pattern.failed { return; }
    assert ops == RuleOps(rules, p, id, n);
    var sc := RuleScope(rules, p, id, n);
    var template := new TemplateGen(sc);
    var generated := template.Visit(t);
    RuleAccepted(rules, p, t, id, n);
    if template.failed { return; }
    code := Some(generated);
    forall e, env: Env | id in env && env[id] == Form(e)
      ensures Rewrites(rules, p, t, ops, generated, e, env)
    {
      RuleRuns(rules, p, t, id, n, e, env);
    }
  }

  lemma {:induction false} RuleAccepted(rules: Rules, p: Datum, t: Datum, id: int, n: int)
    requires NoRepeats(Names(rules, Rest(p)))
    ensures Generate(RuleScope(rules, p, id, n), t, []).Some? <==>
      WellPlaced(RuleScope(rules, p, id, n), t, 0) && !ReusesLater(RuleScope(rules, p, id, n), t)
  {
    if HasKeyword(p) { TemplateAccepted(rules, p.cdr, t, n + 1, n + 2); } else { TemplateAccepted(rules, p, t, id, n); }
  }

  function RuleOps(rules: Rules, p: Datum, id: int, n: int): seq<Op> {
    if HasKeyword(p) then [MatchPair(id, n)] + Compile(rules, p.cdr, n + 1, n + 2).0 else Compile(rules, p, id, n).0
  }

  lemma {:induction false} RuleRuns(rules: Rules, p: Datum, t: Datum, id: int, n: int, e: Datum, env: Env)
    requires Valid(rules, Rest(p)) && NoRepeats(Names(rules, Rest(p))) && id < n && id in env && env[id] == Form(e)
    requires Generate(RuleScope(rules, p, id, n), t, []).Some?
    ensures Rewrites(rules, p, t, RuleOps(rules, p, id, n), Generate(RuleScope(rules, p, id, n), t, []).value.0, e, env)
  {
    hide Names, Slots, Compile, Depths, Bindings, Generate, Evaluate, Instantiate, Run, Admits, Valid, ScopeOf;
    if HasKeyword(p) {
      RunConcat(rules, [MatchPair(id, n)], Compile(rules, p.cdr, n + 1, n + 2).0, env);
      RunOne(rules, MatchPair(id, n), env);
      if e.Pair? {
        RuleRewrites(rules, p.cdr, t, e.cdr, n + 1, n + 2, env[n := Form(e.car)][n + 1 := Form(e.cdr)]);
      }
    } else {
      RuleRewrites(rules, p, t, e, id, n, env);
    }
  }
}
