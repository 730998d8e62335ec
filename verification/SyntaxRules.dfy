/** A rule of syntax-rules: its pattern and its template together. */
module SyntaxRules {
  import opened Options
  import opened Utf8
  import opened Printing
  import opened DatumLists
  import opened SyntaxPatterns
  import opened SyntaxTemplates

  ghost predicate NoRepeats(names: seq<Bytes>) {
    forall i, j :: 0 <= i < j < |names| ==> names[i] != names[j]
  }

  /** The number of ellipses each of the Names is under. */
  function Depths(rules: Rules, p: Datum, depth: nat): (ds: seq<nat>)
    ensures |ds| == |Names(rules, p)|
  {
    match p
    case Pair(x, y) =>
      if Repeats(rules, p) then Depths(rules, y.cdr, depth) + Depths(rules, x, depth + 1)
      else Depths(rules, x, depth) + Depths(rules, y, depth)
    case Symbol(s) => if IsVariable(rules, s) then [depth] else []
    case _ => []
  }

  /** The pattern variables as the template sees them. */
  function VariablesOf(names: seq<Bytes>, slots: seq<int>, depths: seq<nat>): (r: map<Bytes, Variable>)
    requires |names| == |slots| == |depths|
    ensures r.Keys == set v | v in names
    ensures NoRepeats(names) ==> forall i :: 0 <= i < |names| ==> r[names[i]] == Variable(slots[i], depths[i])
  {
    if names == [] then map[]
    else
      var last := |names| - 1;
      var before := VariablesOf(names[..last], slots[..last], depths[..last]);
      var r := before[names[last] := Variable(slots[last], depths[last])];
      assert names == names[..last] + [names[last]];
      r
  }

  ghost function BoundBy(names: seq<Bytes>, bs: seq<Binding>): (r: Bound)
    requires |names| == |bs|
    ensures r.Keys == set v | v in names
    ensures NoRepeats(names) ==> forall i :: 0 <= i < |names| ==> r[names[i]] == bs[i]
  {
    if names == [] then map[]
    else
      var last := |names| - 1;
      var r := BoundBy(names[..last], bs[..last])[names[last] := bs[last]];
      assert names == names[..last] + [names[last]];
      r
  }

  ghost predicate Increasing(xs: seq<int>) { forall i, j :: 0 <= i < j < |xs| ==> xs[i] < xs[j] }

  lemma {:induction false} SlotsIncrease(rules: Rules, p: Datum, id: int, n: int)
    ensures Increasing(Slots(Compile(rules, p, id, n).0))
    decreases p
  {
    hide Slots, Loop, Names;
    if p.Pair? {
      hide Compile, OwnSlots;
      if Repeats(rules, p) {
        var tail := Compile(rules, p.cdr.cdr, n, n + 1);
        var op := Loop(rules, p.car, id, n, tail.1);
        CompiledRepeat(rules, p, id, n);
        SlotsIncrease(rules, p.cdr.cdr, n, n + 1);
        SlotsBetween(rules, p.cdr.cdr, n, n + 1);
        PackSlots(op);
        PacksIncrease(op);
      } else {
        var car := Compile(rules, p.car, n, n + 2);
        CompiledPair(rules, p, id, n);
        SlotsIncrease(rules, p.car, n, n + 2);
        SlotsIncrease(rules, p.cdr, n + 1, car.1);
        SlotsBetween(rules, p.car, n, n + 2);
        SlotsBetween(rules, p.cdr, n + 1, car.1);
      }
    } else {
      AtomSlots(rules, p, id, n);
    }
  }

  lemma {:induction false} PacksIncrease(op: Op)
    requires op.Subpattern?
    ensures Increasing(OwnSlots(op))
  {
    forall i, j | 0 <= i < j < |OwnSlots(op)|
      ensures OwnSlots(op)[i] < OwnSlots(op)[j]
    {
      ConsecutiveAt(op.result, |op.resolved|, i);
      ConsecutiveAt(op.result, |op.resolved|, j);
    }
  }

  /** The variables of a pattern whose match operations start from the value id. */
  function ScopeOf(rules: Rules, p: Datum, id: int, n: int): Scope {
    Scope(rules.ellipsis, VariablesOf(Names(rules, p), Slots(Compile(rules, p, id, n).0), Depths(rules, p, 0)))
  }

  ghost function BoundTo(rules: Rules, p: Datum, e: Datum): Bound
    requires Admits(rules, p, e)
  {
    BoundBy(Names(rules, p), Bindings(rules, p, e))
  }

  lemma {:induction false} ScopeDistinct(rules: Rules, p: Datum, id: int, n: int)
    requires NoRepeats(Names(rules, p))
    ensures Distinct(ScopeOf(rules, p, id, n))
  {
    hide Names, Slots, Compile, Depths;
    var names := Names(rules, p);
    var vars := ScopeOf(rules, p, id, n).vars;
    SlotsIncrease(rules, p, id, n);
    AllVariables(rules, p);
    forall v, w | v in vars && w in vars && vars[v].slot == vars[w].slot
      ensures v == w
    {
      var i :| 0 <= i < |names| && names[i] == v;
      var j :| 0 <= j < |names| && names[j] == w;
    }
  }

  ghost predicate Deep(bs: seq<Binding>, ds: seq<nat>, depth: nat) {
    |bs| == |ds| && forall i :: 0 <= i < |bs| ==> ds[i] >= depth && HasDepth(bs[i], ds[i] - depth)
  }

  /** What the variables stand for is nested as deep as the ellipses. */
  lemma {:induction false} BindingDepths(rules: Rules, p: Datum, e: Datum, depth: nat)
    requires Admits(rules, p, e)
    ensures Deep(Bindings(rules, p, e), Depths(rules, p, depth), depth)
    decreases p, 0
  {
    hide LoopBindings, HasDepth, Names, Column, Deep;
    if !p.Pair? { AtomDepths(rules, p, e, depth); }
    match p
    case Pair(x, y) =>
      if Repeats(rules, p) {
        var k := Repetitions(e, y.cdr);
        BindingDepths(rules, y.cdr, DropPairs(e, k), depth);
        LoopDepths(rules, x, e, k, depth);
        DeepBoth(Bindings(rules, y.cdr, DropPairs(e, k)), LoopBindings(rules, x, e, k),
                 Depths(rules, y.cdr, depth), Depths(rules, x, depth + 1), depth);
      } else {
        BindingDepths(rules, x, e.car, depth);
        BindingDepths(rules, y, e.cdr, depth);
        DeepBoth(Bindings(rules, x, e.car), Bindings(rules, y, e.cdr), Depths(rules, x, depth),
                 Depths(rules, y, depth), depth);
      }
    case _ =>
  }

  lemma {:induction false} AtomDepths(rules: Rules, p: Datum, e: Datum, depth: nat)
    requires Admits(rules, p, e) && !p.Pair?
    ensures Deep(Bindings(rules, p, e), Depths(rules, p, depth), depth)
  {
  }

  lemma {:induction false} DeepBoth(bs: seq<Binding>, cs: seq<Binding>, ds: seq<nat>, es: seq<nat>, depth: nat)
    requires Deep(bs, ds, depth) && Deep(cs, es, depth)
    ensures Deep(bs + cs, ds + es, depth)
  {
  }

  lemma {:induction false} LoopDepths(rules: Rules, p: Datum, e: Datum, k: nat, depth: nat)
    requires k <= Pairs(e) && AllAdmit(rules, p, e, k)
    ensures Deep(LoopBindings(rules, p, e, k), Depths(rules, p, depth + 1), depth)
    decreases p, 2
  {
    hide Names, Depths, Bindings;
    var ds := Depths(rules, p, depth + 1);
    forall i | 0 <= i < |Names(rules, p)|
      ensures ds[i] > depth && HasDepth(LoopBindings(rules, p, e, k)[i], ds[i] - depth)
    {
      DepthAtLeast(rules, p, depth + 1, i);
      ColumnDepth(rules, p, e, k, i, depth + 1);
    }
  }

  lemma {:induction false} DepthAtLeast(rules: Rules, p: Datum, depth: nat, i: nat)
    requires i < |Names(rules, p)|
    ensures Depths(rules, p, depth)[i] >= depth
    decreases p
  {
    match p
    case Pair(x, y) =>
      if Repeats(rules, p) {
        var n := |Names(rules, y.cdr)|;
        if i < n { DepthAtLeast(rules, y.cdr, depth, i); } else { DepthAtLeast(rules, x, depth + 1, i - n); }
      } else {
        var n := |Names(rules, x)|;
        if i < n { DepthAtLeast(rules, x, depth, i); } else { DepthAtLeast(rules, y, depth, i - n); }
      }
    case _ =>
  }

  lemma {:induction false} ColumnDepth(rules: Rules, p: Datum, e: Datum, k: nat, i: nat, depth: nat)
    requires k <= Pairs(e) && AllAdmit(rules, p, e, k) && i < |Names(rules, p)|
    requires Depths(rules, p, depth)[i] >= depth
    ensures forall j :: 0 <= j < k ==> HasDepth(Column(rules, p, e, k, i)[j], Depths(rules, p, depth)[i] - depth)
    decreases p, 1, k
  {
    hide Names, Depths, Bindings, HasDepth, Admits;
    if k > 0 {
      BindingDepths(rules, p, e.car, depth);
      ColumnDepth(rules, p, e.cdr, k - 1, i, depth);
    }
  }

  /** After a match, every variable of the pattern is in place. */
  lemma {:induction false} ScopeHeld(rules: Rules, p: Datum, e: Datum, id: int, n: int, env: Env)
    requires NoRepeats(Names(rules, p)) && Admits(rules, p, e)
    requires Holds(env, Slots(Compile(rules, p, id, n).0), Bindings(rules, p, e))
    ensures Held(ScopeOf(rules, p, id, n), [], BoundTo(rules, p, e), env, [])
  {
    hide Names, Slots, Compile, Depths, Bindings, HasDepth;
    var sc, b := ScopeOf(rules, p, id, n), BoundTo(rules, p, e);
    var names := Names(rules, p);
    BindingDepths(rules, p, e, 0);
    forall v <- sc.vars.Keys
      ensures HeldAt(sc, [], b, env, [], v)
    {
      var i :| 0 <= i < |names| && names[i] == v;
      assert b[names[i]] == Bindings(rules, p, e)[i];
      assert sc.vars[names[i]] == Variable(Slots(Compile(rules, p, id, n).0)[i], Depths(rules, p, 0)[i]);
    }
  }

  /** A rule whose template is accepted rewrites a form exactly when the form matches the pattern, and
      then to what the template stands for. */
  lemma {:induction false} RuleRewrites(rules: Rules, p: Datum, t: Datum, e: Datum, id: int, n: int, env: Env)
    requires Valid(rules, p) && NoRepeats(Names(rules, p)) && id < n && id in env && env[id] == Form(e)
    ensures var matched := Run(rules, Compile(rules, p, id, n).0, env);
            var code := Generate(ScopeOf(rules, p, id, n), t, []);
            (matched.Some? <==> Admits(rules, p, e)) &&
            (matched.Some? && code.Some? ==>
               Evaluate(code.value.0, matched.value, []) == Instantiate(rules.ellipsis, t, BoundTo(rules, p, e)))
  {
    hide Names, Slots, Compile, Depths, Bindings, Generate, Evaluate, Instantiate, Run, Admits, Valid;
    CompiledMatches(rules, p, e, id, n, env);
    ScopeDistinct(rules, p, id, n);
    if Admits(rules, p, e) {
      var after := Run(rules, Compile(rules, p, id, n).0, env).value;
      ScopeHeld(rules, p, e, id, n, after);
      if Generate(ScopeOf(rules, p, id, n), t, []).Some? {
        GeneratedMeans(ScopeOf(rules, p, id, n), t, [], [], [], BoundTo(rules, p, e), after, []);
      }
    }
  }

  /** Which templates a pattern accepts. */
  lemma {:induction false} TemplateAccepted(rules: Rules, p: Datum, t: Datum, id: int, n: int)
    requires NoRepeats(Names(rules, p))
    ensures var sc := ScopeOf(rules, p, id, n);
            Generate(sc, t, []).Some? <==> WellPlaced(sc, t, 0) && !ReusesLater(sc, t)
  {
    hide Names, Slots, Compile, Depths, Generate, WellPlaced, ReusesLater, Order;
    ScopeDistinct(rules, p, id, n);
    GeneratesExactly(ScopeOf(rules, p, id, n), t, [], []);
  }

  // ---------------------------------------------------------------- a pattern as its own template

  /** Patterns that keep the whole form: nothing is ignored, and each repeated part has a variable. */
  predicate Keeps(rules: Rules, p: Datum) {
    match p
    case Pair(x, y) =>
      if Repeats(rules, p) then Keeps(rules, y.cdr) && Keeps(rules, x) && Names(rules, x) != []
      else Keeps(rules, x) && Keeps(rules, y)
    case Symbol(s) => s != UNDERSCORE
    case _ => true
  }

  /** A literal identifier matches itself only, and is not the ellipsis. */
  ghost predicate PlainLiterals(rules: Rules) {
    rules.ellipsis !in rules.literals && rules.ellipsis != UNDERSCORE &&
    forall s, d :: rules.agrees(s, d) ==> d == Symbol(s)
  }

  /** The variables in scope are variables of the rule, those of p among them. */
  ghost predicate Covers(rules: Rules, p: Datum, vars: set<Bytes>) {
    (forall s <- vars :: IsVariable(rules, s)) && forall s <- Names(rules, p) :: s in vars
  }

  lemma {:induction false} OrderIsNames(rules: Rules, p: Datum, vars: set<Bytes>)
    requires Covers(rules, p, vars) && Valid(rules, p)
    ensures Order(rules.ellipsis, vars, p) == Names(rules, p)
    decreases p
  {
    hide Size, SizeAll, Prepend;
    match p
    case Pair(x, y) =>
      if Repeats(rules, p) {
        OrderIsNames(rules, y.cdr, vars);
        OrderIsNames(rules, x, vars);
      } else {
        OrderIsNames(rules, x, vars);
        OrderIsNames(rules, y, vars);
      }
    case Symbol(s) =>
    case _ =>
  }

  /** The variables of p are in scope, as deep as in p. */
  ghost predicate Scoped(rules: Rules, p: Datum, depth: nat, sc: Scope) {
    Covers(rules, p, sc.vars.Keys) &&
    forall i :: 0 <= i < |Names(rules, p)| ==> sc.vars[Names(rules, p)[i]].depth == Depths(rules, p, depth)[i]
  }

  lemma {:induction false} PatternPlaced(rules: Rules, p: Datum, depth: nat, sc: Scope)
    requires sc.ellipsis == rules.ellipsis && Scoped(rules, p, depth, sc) && PlainLiterals(rules)
    requires Valid(rules, p) && Keeps(rules, p)
    ensures WellPlaced(sc, p, depth)
    decreases p
  {
    hide Size, SizeAll, Prepend, Depths;
    match p
    case Pair(x, y) =>
      ScopedParts(rules, p, depth, sc);
      if Repeats(rules, p) {
        PatternPlaced(rules, y.cdr, depth, sc);
        PatternPlaced(rules, x, depth + 1, sc);
        OrderIsNames(rules, x, sc.vars.Keys);
      } else {
        PatternPlaced(rules, x, depth, sc);
        PatternPlaced(rules, y, depth, sc);
      }
    case Symbol(s) => SymbolPlaced(rules, p, depth, sc);
    case _ =>
  }

  lemma {:induction false} SymbolPlaced(rules: Rules, p: Datum, depth: nat, sc: Scope)
    requires sc.ellipsis == rules.ellipsis && Scoped(rules, p, depth, sc) && PlainLiterals(rules)
    requires Valid(rules, p) && Keeps(rules, p) && p.Symbol?
    ensures WellPlaced(sc, p, depth)
  {
    if IsVariable(rules, p.s) { assert Names(rules, p)[0] == p.s; }
  }

  lemma {:induction false} ScopedParts(rules: Rules, p: Datum, depth: nat, sc: Scope)
    requires Scoped(rules, p, depth, sc) && p.Pair?
    ensures if Repeats(rules, p) then Scoped(rules, p.cdr.cdr, depth, sc) && Scoped(rules, p.car, depth + 1, sc)
            else Scoped(rules, p.car, depth, sc) && Scoped(rules, p.cdr, depth, sc)
  {
    var names, ds := Names(rules, p), Depths(rules, p, depth);
    if Repeats(rules, p) {
      var rest := p.cdr.cdr;
      PartPlaced(names, ds, 0, Names(rules, rest), Depths(rules, rest, depth), sc);
      PartPlaced(names, ds, |Names(rules, rest)|, Names(rules, p.car), Depths(rules, p.car, depth + 1), sc);
    } else {
      PartPlaced(names, ds, 0, Names(rules, p.car), Depths(rules, p.car, depth), sc);
      PartPlaced(names, ds, |Names(rules, p.car)|, Names(rules, p.cdr), Depths(rules, p.cdr, depth), sc);
    }
  }

  lemma {:induction false} PartPlaced(names: seq<Bytes>, ds: seq<nat>, from: nat,
                                      part: seq<Bytes>, depths: seq<nat>, sc: Scope)
    requires |names| == |ds| && |part| == |depths| && from + |part| <= |names|
    requires names[from..from + |part|] == part && ds[from..from + |part|] == depths
    requires forall v <- names :: v in sc.vars
    requires forall i :: 0 <= i < |names| ==> sc.vars[names[i]].depth == ds[i]
    ensures forall i :: 0 <= i < |part| ==> part[i] in sc.vars && sc.vars[part[i]].depth == depths[i]
  {
    forall i | 0 <= i < |part|
      ensures part[i] in sc.vars && sc.vars[part[i]].depth == depths[i]
    {
      assert part[i] == names[from + i] && depths[i] == ds[from + i];
    }
  }

  lemma {:induction false} PatternReuses(rules: Rules, p: Datum, sc: Scope)
    requires sc.ellipsis == rules.ellipsis && Covers(rules, p, sc.vars.Keys)
    requires Valid(rules, p) && NoRepeats(Names(rules, p))
    ensures !ReusesLater(sc, p)
    decreases p
  {
    hide Size, SizeAll, Prepend;
    match p
    case Pair(x, y) =>
      var names := Names(rules, p);
      if Repeats(rules, p) {
        var n := |Names(rules, y.cdr)|;
        assert names[..n] == Names(rules, y.cdr) && names[n..] == Names(rules, x);
        NoRepeatsParts(names, n);
        PatternReuses(rules, y.cdr, sc);
        PatternReuses(rules, x, sc);
        OrderIsNames(rules, x, sc.vars.Keys);
        NotLate(Names(rules, x));
      } else {
        var n := |Names(rules, x)|;
        assert names[..n] == Names(rules, x) && names[n..] == Names(rules, y);
        NoRepeatsParts(names, n);
        PatternReuses(rules, x, sc);
        PatternReuses(rules, y, sc);
      }
    case _ =>
  }

  lemma {:induction false} NoRepeatsParts(names: seq<Bytes>, n: nat)
    requires NoRepeats(names) && n <= |names|
    ensures NoRepeats(names[..n]) && NoRepeats(names[n..])
  {
  }

  lemma {:induction false} NotLate(o: seq<Bytes>)
    requires NoRepeats(o)
    ensures !LateReuse(o)
  {
  }

  /** The first k elements. */
  function TakeCars(e: Datum, k: nat): seq<Datum>
    requires k <= Pairs(e)
  {
    if k == 0 then [] else TakeCars(e, k - 1) + [DropPairs(e, k - 1).car]
  }

  lemma {:induction false} TakeAll(e: Datum, k: nat)
    requires k <= Pairs(e)
    ensures Prepend(TakeCars(e, k), DropPairs(e, k)) == e
  {
    if k > 0 {
      TakeAll(e, k - 1);
      var last := DropPairs(e, k - 1);
      DropNext(e, k);
      PrependLast(TakeCars(e, k - 1), last.car, last.cdr);
    }
  }

  lemma {:induction false} DropNext(e: Datum, k: nat)
    requires 0 < k <= Pairs(e)
    ensures DropPairs(e, k - 1).Pair? && DropPairs(e, k) == DropPairs(e, k - 1).cdr
  {
    if k > 1 { DropNext(e.cdr, k - 1); }
  }

  lemma {:induction false} ColumnAt(rules: Rules, p: Datum, e: Datum, k: nat, i: nat, j: nat)
    requires k <= Pairs(e) && AllAdmit(rules, p, e, k) && i < |Names(rules, p)| && j < k
    ensures DropPairs(e, j).Pair? && Admits(rules, p, DropPairs(e, j).car)
    ensures Column(rules, p, e, k, i)[j] == Bindings(rules, p, DropPairs(e, j).car)[i]
    decreases k
  {
    hide Admits, Bindings, Names;
    if j > 0 { ColumnAt(rules, p, e.cdr, k - 1, i, j - 1); }
  }

  /** b gives the variables of p the parts of e. */
  ghost predicate Gives(rules: Rules, p: Datum, e: Datum, b: Bound)
    requires Admits(rules, p, e)
  {
    Covers(rules, p, b.Keys) &&
    forall i :: 0 <= i < |Names(rules, p)| ==> b[Names(rules, p)[i]] == Bindings(rules, p, e)[i]
  }

  /** A pattern, taken as a template, stands for the form it matched. */
  lemma {:induction false} PatternRebuilds(rules: Rules, p: Datum, e: Datum, b: Bound)
    requires PlainLiterals(rules) && Valid(rules, p) && Keeps(rules, p)
    requires Admits(rules, p, e) && Gives(rules, p, e, b)
    ensures Instantiate(rules.ellipsis, p, b) == Some(e)
    decreases p, 1
  {
    match p
    case Pair(x, y) =>
      if Repeats(rules, p) {
        RepeatRebuilds(rules, p, e, b);
      } else {
        ValidNoEscape(rules, p);
        GivesBoth(rules, p, e, b);
        PatternRebuilds(rules, x, e.car, b);
        PatternRebuilds(rules, y, e.cdr, b);
      }
    case Symbol(s) =>
      if IsVariable(rules, s) { assert Names(rules, p)[0] == s; }
    case _ =>
  }

  lemma {:induction false} RepeatRebuilds(rules: Rules, p: Datum, e: Datum, b: Bound)
    requires PlainLiterals(rules) && Valid(rules, p) && Keeps(rules, p) && Repeats(rules, p)
    requires Admits(rules, p, e) && Gives(rules, p, e, b)
    ensures Instantiate(rules.ellipsis, p, b) == Some(e)
    decreases p, 0
  {
    hide Size, SizeAll, Prepend;
    var x, rest := p.car, p.cdr.cdr;
    var k: nat := Repetitions(e, rest);
    GivesParts(rules, p, e, b);
    PatternRebuilds(rules, rest, DropPairs(e, k), b);
    var vs := Repeated(rules.ellipsis, x, b);
    ValidNoEscape(rules, p);
    UniformParts(rules, x, e, k, b);
    var n := Count(vs, b);
    assert vs[0] in vs && n == k;
    EachRebuilds(rules, x, e, k, k, b);
    TakeAll(e, k);
  }

  lemma {:induction false} GivesBoth(rules: Rules, p: Datum, e: Datum, b: Bound)
    requires p.Pair? && !Repeats(rules, p) && Admits(rules, p, e) && Gives(rules, p, e, b)
    ensures Gives(rules, p.car, e.car, b) && Gives(rules, p.cdr, e.cdr, b)
  {
    var names, bs := Names(rules, p), Bindings(rules, p, e);
    var n := |Names(rules, p.car)|;
    forall i | 0 <= i < n
      ensures Names(rules, p.car)[i] == names[i] && Bindings(rules, p.car, e.car)[i] == bs[i]
    {
    }
    forall i | 0 <= i < |Names(rules, p.cdr)|
      ensures Names(rules, p.cdr)[i] == names[n + i] && Bindings(rules, p.cdr, e.cdr)[i] == bs[n + i]
    {
    }
  }

  /** b gives the variables of a repeated pattern their parts in each of the first k elements. */
  ghost predicate GivesEach(rules: Rules, p: Datum, e: Datum, k: nat, b: Bound)
    requires k <= Pairs(e) && AllAdmit(rules, p, e, k)
  {
    Covers(rules, p, b.Keys) &&
    forall i :: 0 <= i < |Names(rules, p)| ==> b[Names(rules, p)[i]] == Many(Column(rules, p, e, k, i))
  }

  lemma {:induction false} GivesParts(rules: Rules, p: Datum, e: Datum, b: Bound)
    requires Repeats(rules, p) && Admits(rules, p, e) && Gives(rules, p, e, b)
    ensures var k := Repetitions(e, p.cdr.cdr);
            Gives(rules, p.cdr.cdr, DropPairs(e, k), b) && GivesEach(rules, p.car, e, k, b)
  {
    var names, bs := Names(rules, p), Bindings(rules, p, e);
    var k := Repetitions(e, p.cdr.cdr);
    var n := |Names(rules, p.cdr.cdr)|;
    forall i | 0 <= i < n
      ensures Names(rules, p.cdr.cdr)[i] == names[i] && Bindings(rules, p.cdr.cdr, DropPairs(e, k))[i] == bs[i]
    {
    }
    forall i | 0 <= i < |Names(rules, p.car)|
      ensures Names(rules, p.car)[i] == names[n + i] && Many(Column(rules, p.car, e, k, i)) == bs[n + i]
    {
      assert bs[n + i] == LoopBindings(rules, p.car, e, k)[i];
    }
  }

  lemma {:induction false} UniformParts(rules: Rules, p: Datum, e: Datum, k: nat, b: Bound)
    requires k <= Pairs(e) && AllAdmit(rules, p, e, k) && GivesEach(rules, p, e, k, b) && Valid(rules, p)
    ensures Uniform(Names(rules, p), b, k) && Repeated(rules.ellipsis, p, b) == Names(rules, p)
  {
    OrderIsNames(rules, p, b.Keys);
    var names := Names(rules, p);
    forall v <- names
      ensures v in b && b[v].Many? && |b[v].items| == k
    {
      var i :| 0 <= i < |names| && names[i] == v;
      assert b[names[i]] == Many(Column(rules, p, e, k, i));
    }
    RepeatingAll(names, b);
  }

  /** A valid pattern has no misplaced ellipsis, so it is no escape as a template. */
  lemma {:induction false} ValidNoEscape(rules: Rules, p: Datum)
    requires Valid(rules, p) && PlainLiterals(rules)
    ensures !Escapes(rules.ellipsis, p)
  {
  }

  lemma {:induction false} EachRebuilds(rules: Rules, p: Datum, e: Datum, k: nat, m: nat, b: Bound)
    requires PlainLiterals(rules) && Valid(rules, p) && Keeps(rules, p)
    requires m <= k <= Pairs(e) && AllAdmit(rules, p, e, k)
    requires GivesEach(rules, p, e, k, b) && Uniform(Repeated(rules.ellipsis, p, b), b, k)
    ensures InstantiateEach(rules.ellipsis, p, b, k, m) == Some(TakeCars(e, m))
    decreases p, 2, m
  {
    hide Size, SizeAll, Prepend, Instantiate, Bindings, Column, Names, Repeated, Valid, Keeps, DropPairs,
         AllAdmit, Admits;
    if m > 0 {
      var names := Names(rules, p);
      EachRebuilds(rules, p, e, k, m - 1, b);
      UniformParts(rules, p, e, k, b);
      var c := Slice(names, b, k, m - 1);
      ElementMatches(rules, p, e, k, m - 1);
      var item := DropPairs(e, m - 1).car;
      forall i | 0 <= i < |names|
        ensures c[names[i]] == Bindings(rules, p, item)[i]
      {
        ColumnAt(rules, p, e, k, i, m - 1);
        assert b[names[i]] == Many(Column(rules, p, e, k, i));
      }
      PatternRebuilds(rules, p, item, c);
    }
  }

  lemma {:induction false} ElementMatches(rules: Rules, p: Datum, e: Datum, k: nat, j: nat)
    requires k <= Pairs(e) && AllAdmit(rules, p, e, k) && j < k
    ensures DropPairs(e, j).Pair? && Admits(rules, p, DropPairs(e, j).car)
    decreases k
  {
    if j > 0 { ElementMatches(rules, p, e.cdr, k - 1, j - 1); }
  }

  /** Compiled as a template from its own variables, a pattern is accepted and rebuilds the form it matched. */
  lemma {:induction false} RebuildsForm(rules: Rules, p: Datum, e: Datum, id: int, n: int, env: Env)
    requires PlainLiterals(rules) && Valid(rules, p) && Keeps(rules, p) && NoRepeats(Names(rules, p))
    requires id < n && id in env && env[id] == Form(e) && Admits(rules, p, e)
    ensures var matched := Run(rules, Compile(rules, p, id, n).0, env);
            var code := Generate(ScopeOf(rules, p, id, n), p, []);
            matched.Some? && code.Some? && Evaluate(code.value.0, matched.value, []) == Some(e)
  {
    hide Slots, Compile, Depths, Bindings, Generate, Evaluate, Instantiate, Run, Admits, Valid, Names,
         WellPlaced, ReusesLater;
    RuleRewrites(rules, p, p, e, id, n, env);
    PatternAccepted(rules, p, id, n);
    BoundGives(rules, p, e);
    PatternRebuilds(rules, p, e, BoundTo(rules, p, e));
  }

  lemma {:induction false} PatternAccepted(rules: Rules, p: Datum, id: int, n: int)
    requires PlainLiterals(rules) && Valid(rules, p) && Keeps(rules, p) && NoRepeats(Names(rules, p))
    ensures Generate(ScopeOf(rules, p, id, n), p, []).Some?
  {
    hide Slots, Compile, Depths, Generate, Valid, Names, WellPlaced, ReusesLater;
    var sc := ScopeOf(rules, p, id, n);
    TemplateAccepted(rules, p, p, id, n);
    AllVariables(rules, p);
    PatternPlaced(rules, p, 0, sc);
    PatternReuses(rules, p, sc);
  }

  lemma {:induction false} BoundGives(rules: Rules, p: Datum, e: Datum)
    requires Admits(rules, p, e) && NoRepeats(Names(rules, p))
    ensures Gives(rules, p, e, BoundTo(rules, p, e))
  {
    hide Bindings, Admits, Names;
    AllVariables(rules, p);
  }

  lemma {:induction false} AllVariables(rules: Rules, p: Datum)
    ensures forall s <- Names(rules, p) :: IsVariable(rules, s)
  {
    match p
    case Pair(x, y) =>
      AllVariables(rules, x);
      if Repeats(rules, p) { AllVariables(rules, y.cdr); } else { AllVariables(rules, y); }
    case _ =>
  }

  // ---------------------------------------------------------------- a template that is not accepted

  /** ((a b b) ...) repeats well-placed variables, and is not accepted: b is the second capture. */
  lemma {:induction false} SecondCaptureRejected(ellipsis: Bytes, a: Bytes, b: Bytes, vars: map<Bytes, Variable>)
    requires a != b && vars.Keys == {a, b} && vars[a].depth == vars[b].depth == 1 && vars[a].slot != vars[b].slot
    requires ellipsis !in vars
    ensures var item := Pair(Symbol(a), Pair(Symbol(b), Pair(Symbol(b), Empty)));
            var t := Pair(item, Pair(Symbol(ellipsis), Empty));
            var sc := Scope(ellipsis, vars);
            WellPlaced(sc, t, 0) && Generate(sc, t, []).None?
  {
    hide Size, SizeAll, Prepend, Generate;
    var sc := Scope(ellipsis, vars);
    var end := Pair(Symbol(b), Empty);
    var middle := Pair(Symbol(b), end);
    var item := Pair(Symbol(a), middle);
    var t := Pair(item, Pair(Symbol(ellipsis), Empty));
    assert Order(ellipsis, vars.Keys, end) == [b];
    assert Order(ellipsis, vars.Keys, middle) == [b] + [b];
    assert Order(ellipsis, vars.Keys, item) == [a] + ([b] + [b]);
    var o := Order(ellipsis, vars.Keys, item);
    assert o == [a, b, b] && o[2] in o[..2] by { assert o[..2][1] == b; }
    assert WellPlaced(sc, end, 1) && WellPlaced(sc, middle, 1) && WellPlaced(sc, item, 1);
    assert LateReuse(o);
    GeneratesExactly(sc, t, [], []);
  }
}
