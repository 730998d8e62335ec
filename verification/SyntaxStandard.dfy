/** Section 4.3.2 of R7RS: the match relation and the templates it allows, and exactly when the compiler's
    reading of patterns and templates is the same. */
module SyntaxStandard {
  import opened Options
  import opened Utf8
  import opened Printing
  import opened DatumLists
  import opened SyntaxPatterns
  import opened SyntaxTemplates
  import opened SyntaxRules
  import opened SyntaxCompiler

  // ---------------------------------------------------------------- the match relation

  /** The pattern matches the form. A literal identifier takes precedence over the ellipsis and the
      underscore. */
  ghost predicate Matches(rules: Rules, p: Datum, e: Datum)
    decreases Size(p), 0
  {
    match p
    case Pair(x, y) =>
      if Repeats(rules, p) && rules.ellipsis !in rules.literals then
        assert Size(y) == 1 + Size(y.car) + Size(y.cdr);
        var k := Repetitions(e, y.cdr);
        k >= 0 && AllMatch(rules, x, e, k) && Matches(rules, y.cdr, DropPairs(e, k))
      else
        e.Pair? && Matches(rules, x, e.car) && Matches(rules, y, e.cdr)
    case Symbol(s) => s in rules.literals ==> rules.agrees(s, e)
    case Vector(ps) => e.Vector? && Matches(rules, ListOf(ps), ListOf(e.elements))
    case _ => e == p
  }

  ghost predicate AllMatch(rules: Rules, p: Datum, e: Datum, k: nat)
    requires k <= Pairs(e)
    decreases Size(p), 1, k
  {
    k == 0 || (Matches(rules, p, e.car) && AllMatch(rules, p, e.cdr, k - 1))
  }

  /** Whether a pattern without vectors differs from its reading only in what it says about an underscore. */
  lemma {:induction false} MatchedIsAdmitted(rules: Rules, p: Datum, e: Datum)
    requires Valid(rules, p) && rules.ellipsis !in rules.literals && Matches(rules, p, e)
    ensures Admits(rules, p, e)
    decreases p, 1
  {
    hide Size, SizeAll, Prepend;
    match p
    case Pair(x, y) =>
      if Repeats(rules, p) {
        var k := Repetitions(e, y.cdr);
        AllMatchedAdmitted(rules, x, e, k);
        MatchedIsAdmitted(rules, y.cdr, DropPairs(e, k));
      } else {
        MatchedIsAdmitted(rules, x, e.car);
        MatchedIsAdmitted(rules, y, e.cdr);
      }
    case _ =>
  }

  lemma {:induction false} AllMatchedAdmitted(rules: Rules, p: Datum, e: Datum, k: nat)
    requires Valid(rules, p) && rules.ellipsis !in rules.literals && k <= Pairs(e) && AllMatch(rules, p, e, k)
    ensures AllAdmit(rules, p, e, k)
    decreases p, 2, k
  {
    hide Matches, Admits;
    if k > 0 {
      MatchedIsAdmitted(rules, p, e.car);
      AllMatchedAdmitted(rules, p, e.cdr, k - 1);
    }
  }

  // ---------------------------------------------------------------- the underscore among the literals

  /** Some form agrees with a literal identifier, or some form that is no pair. */
  ghost predicate Agreeable(rules: Rules, s: Bytes) { exists d: Datum :: rules.agrees(s, d) }

  ghost predicate AgreeableAtom(rules: Rules, s: Bytes) { exists d: Datum :: !d.Pair? && rules.agrees(s, d) }

  /** Some form is admitted. */
  ghost predicate Possible(rules: Rules, p: Datum) {
    match p
    case Pair(x, y) =>
      if Repeats(rules, p) then PossibleTail(rules, y.cdr) else Possible(rules, x) && Possible(rules, y)
    case Symbol(s) => IsLiteral(rules, s) ==> Agreeable(rules, s)
    case Vector(_) => false
    case _ => true
  }

  /** Some form with as many pairs as the pattern is admitted, as it has to be after an ellipsis. */
  ghost predicate PossibleTail(rules: Rules, p: Datum) {
    match p
    case Pair(x, y) =>
      Possible(rules, x) && if Repeats(rules, p) then PossibleTail(rules, y.cdr) else PossibleTail(rules, y)
    case Symbol(s) => IsLiteral(rules, s) ==> AgreeableAtom(rules, s)
    case Vector(_) => false
    case _ => true
  }

  /** Some form is admitted with a part that an underscore of the pattern, as a literal, does not agree with. */
  ghost predicate Differs(rules: Rules, p: Datum) {
    match p
    case Pair(x, y) =>
      if Repeats(rules, p) then (Differs(rules, x) && PossibleTail(rules, y.cdr)) || DiffersTail(rules, y.cdr)
      else (Differs(rules, x) && Possible(rules, y)) || (Possible(rules, x) && Differs(rules, y))
    case Symbol(s) => s == UNDERSCORE && s in rules.literals && exists d: Datum :: !rules.agrees(s, d)
    case _ => false
  }

  ghost predicate DiffersTail(rules: Rules, p: Datum) {
    match p
    case Pair(x, y) =>
      if Repeats(rules, p) then
        (Differs(rules, x) && PossibleTail(rules, y.cdr)) || (Possible(rules, x) && DiffersTail(rules, y.cdr))
      else (Differs(rules, x) && PossibleTail(rules, y)) || (Possible(rules, x) && DiffersTail(rules, y))
    case Symbol(s) => s == UNDERSCORE && s in rules.literals && exists d: Datum :: !d.Pair? && !rules.agrees(s, d)
    case _ => false
  }

  /** What an admitted form shows about the pattern. */
  lemma {:induction false} AdmittedShows(rules: Rules, p: Datum, e: Datum)
    requires Valid(rules, p) && rules.ellipsis !in rules.literals && Admits(rules, p, e)
    ensures Possible(rules, p) && (Pairs(e) == Pairs(p) ==> PossibleTail(rules, p))
    ensures !Matches(rules, p, e) ==> Differs(rules, p) && (Pairs(e) == Pairs(p) ==> DiffersTail(rules, p))
    decreases p, 1
  {
    hide Size, SizeAll, Prepend;
    match p
    case Pair(x, y) =>
      if Repeats(rules, p) {
        var k := Repetitions(e, y.cdr);
        assert Pairs(y) == 1 + Pairs(y.cdr);
        AllShow(rules, x, e, k);
        AdmittedShows(rules, y.cdr, DropPairs(e, k));
      } else {
        AdmittedShows(rules, x, e.car);
        AdmittedShows(rules, y, e.cdr);
      }
    case _ =>
  }

  lemma {:induction false} AllShow(rules: Rules, p: Datum, e: Datum, k: nat)
    requires Valid(rules, p) && rules.ellipsis !in rules.literals && k <= Pairs(e) && AllAdmit(rules, p, e, k)
    ensures k > 0 ==> Possible(rules, p)
    ensures !AllMatch(rules, p, e, k) ==> Differs(rules, p)
    decreases p, 2, k
  {
    hide Matches, Admits, Possible, Differs;
    if k > 0 {
      AdmittedShows(rules, p, e.car);
      AllShow(rules, p, e.cdr, k - 1);
    }
  }

  /** A repeated pattern on one or two elements and a tail. */
  lemma {:induction false} RepeatedForm(rules: Rules, p: Datum, x: Datum, end: Datum)
    requires Repeats(rules, p) && rules.ellipsis !in rules.literals && Pairs(end) == Pairs(p.cdr.cdr)
    ensures Admits(rules, p, end) <==> Admits(rules, p.cdr.cdr, end)
    ensures Matches(rules, p, end) <==> Matches(rules, p.cdr.cdr, end)
    ensures var one := Pair(x, end);
            (Admits(rules, p, one) <==> Admits(rules, p.car, x) && Admits(rules, p.cdr.cdr, end)) &&
            (Matches(rules, p, one) <==> Matches(rules, p.car, x) && Matches(rules, p.cdr.cdr, end))
    ensures var two := Pair(x, Pair(x, end));
            (Admits(rules, p, two) <==> Admits(rules, p.car, x) && Admits(rules, p.cdr.cdr, end)) &&
            (Matches(rules, p, two) <==> Matches(rules, p.car, x) && Matches(rules, p.cdr.cdr, end))
  {
    hide Size, SizeAll, Prepend;
    var one := Pair(x, end);
    var two := Pair(x, one);
    var rest := p.cdr.cdr;
    RepeatedIs(rules, p, end);
    RepeatedIs(rules, p, one);
    RepeatedIs(rules, p, two);
    assert DropPairs(one, 1) == end && DropPairs(two, 2) == DropPairs(one, 1);
    assert AllAdmit(rules, p.car, two, 2) == (Admits(rules, p.car, x) && AllAdmit(rules, p.car, one, 1));
    assert AllMatch(rules, p.car, two, 2) == (Matches(rules, p.car, x) && AllMatch(rules, p.car, one, 1));
  }

  lemma {:induction false} RepeatedIs(rules: Rules, p: Datum, e: Datum)
    requires Repeats(rules, p) && rules.ellipsis !in rules.literals && Pairs(e) >= Pairs(p.cdr.cdr)
    ensures var k: nat := Pairs(e) - Pairs(p.cdr.cdr);
            (Admits(rules, p, e) <==> AllAdmit(rules, p.car, e, k) && Admits(rules, p.cdr.cdr, DropPairs(e, k))) &&
            (Matches(rules, p, e) <==> AllMatch(rules, p.car, e, k) && Matches(rules, p.cdr.cdr, DropPairs(e, k)))
  {
  }

  /** A form that the pattern admits; if tail, with as many pairs; and if differs, one that does not match. */
  lemma {:induction false} Witness(rules: Rules, p: Datum, tail: bool, differs: bool) returns (e: Datum)
    requires Valid(rules, p) && rules.ellipsis !in rules.literals
    requires if differs then (if tail then DiffersTail(rules, p) else Differs(rules, p))
             else if tail then PossibleTail(rules, p) else Possible(rules, p)
    ensures Admits(rules, p, e) && (tail ==> Pairs(e) == Pairs(p)) && (differs ==> !Matches(rules, p, e))
    decreases p, 1
  {
    match p
    case Pair(_, _) =>
      if Repeats(rules, p) {
        e := RepeatedWitness(rules, p, tail, differs);
      } else {
        e := PairWitness(rules, p, tail, differs);
      }
    case Symbol(s) =>
      if differs {
        if tail { e :| !e.Pair? && !rules.agrees(s, e); } else { e :| !rules.agrees(s, e); }
      } else if IsLiteral(rules, s) {
        if tail { e :| !e.Pair? && rules.agrees(s, e); } else { e :| rules.agrees(s, e); }
      } else {
        e := Empty;
      }
    case _ => e := p;
  }

  lemma {:induction false} RepeatedWitness(rules: Rules, p: Datum, tail: bool, differs: bool) returns (e: Datum)
    requires Valid(rules, p) && rules.ellipsis !in rules.literals && Repeats(rules, p)
    requires if differs then (if tail then DiffersTail(rules, p) else Differs(rules, p))
             else if tail then PossibleTail(rules, p) else Possible(rules, p)
    ensures Admits(rules, p, e) && (tail ==> Pairs(e) == Pairs(p)) && (differs ==> !Matches(rules, p, e))
    decreases p, 0
  {
    hide Admits, Matches;
    var x, rest := p.car, p.cdr.cdr;
    var inItem := differs && Differs(rules, x) && PossibleTail(rules, rest);
    var end := Witness(rules, rest, true, differs && !inItem);
    RepeatedForm(rules, p, Empty, end);
    if inItem || tail {
      var item := Witness(rules, x, false, inItem);
      RepeatedForm(rules, p, item, end);
      e := if tail then Pair(item, Pair(item, end)) else Pair(item, end);
    } else {
      e := end;
    }
  }

  lemma {:induction false} PairWitness(rules: Rules, p: Datum, tail: bool, differs: bool) returns (e: Datum)
    requires Valid(rules, p) && rules.ellipsis !in rules.literals && p.Pair? && !Repeats(rules, p)
    requires if differs then (if tail then DiffersTail(rules, p) else Differs(rules, p))
             else if tail then PossibleTail(rules, p) else Possible(rules, p)
    ensures Admits(rules, p, e) && (tail ==> Pairs(e) == Pairs(p)) && (differs ==> !Matches(rules, p, e))
    decreases p, 0
  {
    var inCar := differs && Differs(rules, p.car) &&
      if tail then PossibleTail(rules, p.cdr) else Possible(rules, p.cdr);
    var car := Witness(rules, p.car, false, inCar);
    var cdr := Witness(rules, p.cdr, tail, differs && !inCar);
    e := Pair(car, cdr);
  }

  /** For all forms, what a pattern admits is what matches by the standard, exactly when no admitted form has
      a part that disagrees with an underscore among the literals. */
  lemma {:induction false} UnderscoreExactly(rules: Rules, p: Datum)
    requires Valid(rules, p) && rules.ellipsis !in rules.literals
    ensures (forall e :: Admits(rules, p, e) <==> Matches(rules, p, e)) <==> !Differs(rules, p)
  {
    if Differs(rules, p) {
      var e := Witness(rules, p, false, true);
    } else {
      forall e ensures Admits(rules, p, e) <==> Matches(rules, p, e) {
        if Admits(rules, p, e) { AdmittedShows(rules, p, e); }
        if Matches(rules, p, e) { MatchedIsAdmitted(rules, p, e); }
      }
    }
  }

  /** Only identifiers agree with a literal identifier, and some do. */
  ghost predicate IdentifiersAgree(rules: Rules) {
    (forall s, d :: rules.agrees(s, d) ==> d.Symbol?) && forall s <- rules.literals :: Agreeable(rules, s)
  }

  /** An underscore is a node of the pattern. */
  predicate HasUnderscore(rules: Rules, p: Datum) {
    match p
    case Pair(x, y) =>
      HasUnderscore(rules, x) || if Repeats(rules, p) then HasUnderscore(rules, y.cdr) else HasUnderscore(rules, y)
    case Symbol(s) => s == UNDERSCORE
    case _ => false
  }

  lemma {:induction false} DiffersByUnderscore(rules: Rules, p: Datum)
    requires Valid(rules, p) && IdentifiersAgree(rules)
    ensures Possible(rules, p) && PossibleTail(rules, p)
    ensures Differs(rules, p) <==> UNDERSCORE in rules.literals && HasUnderscore(rules, p)
    ensures DiffersTail(rules, p) <==> UNDERSCORE in rules.literals && HasUnderscore(rules, p)
    decreases p
  {
    match p
    case Pair(x, y) =>
      DiffersByUnderscore(rules, x);
      if Repeats(rules, p) { DiffersByUnderscore(rules, y.cdr); } else { DiffersByUnderscore(rules, y); }
    case Symbol(s) =>
      assert !rules.agrees(s, Empty);
      if s in rules.literals {
        var d :| rules.agrees(s, d);
        assert d.Symbol?;
      }
    case _ =>
  }

  /** So a pattern is read by the standard exactly when the underscore is no literal, or no node of it. */
  lemma {:induction false} UnderscorePlainly(rules: Rules, p: Datum)
    requires Valid(rules, p) && rules.ellipsis !in rules.literals && IdentifiersAgree(rules)
    ensures (forall e :: Admits(rules, p, e) <==> Matches(rules, p, e)) <==>
      UNDERSCORE !in rules.literals || !HasUnderscore(rules, p)
  {
    UnderscoreExactly(rules, p);
    DiffersByUnderscore(rules, p);
  }

  /** With the underscore among the literals, the pattern _ admits a form that it does not match. */
  lemma {:induction false} UnderscoreAdmitted(rules: Rules, i: int)
    requires UNDERSCORE in rules.literals && !rules.agrees(UNDERSCORE, Int(i))
    ensures Admits(rules, Symbol(UNDERSCORE), Int(i)) && !Matches(rules, Symbol(UNDERSCORE), Int(i))
  {
  }

  /** Running the operations of a valid pattern succeeds exactly for the forms that match by the standard,
      if and only if the pattern is read as in the standard. */
  lemma {:induction false} CompiledIsStandard(rules: Rules, p: Datum, id: int, n: int)
    requires Valid(rules, p) && rules.ellipsis !in rules.literals && id < n
    ensures RunsByStandard(rules, p, id, n) <==> !Differs(rules, p)
  {
    hide Matches, Admits, Differs, Valid, Run, Compile;
    forall e ensures Run(rules, Compile(rules, p, id, n).0, map[id := Form(e)]).Some? <==> Admits(rules, p, e) {
      CompiledMatches(rules, p, e, id, n, map[id := Form(e)]);
    }
    UnderscoreExactly(rules, p);
    if RunsByStandard(rules, p, id, n) {
      forall e ensures Admits(rules, p, e) <==> Matches(rules, p, e) {
        var env: Env := map[id := Form(e)];
        assert id in env && env[id] == Form(e);
      }
    }
    if !Differs(rules, p) {
      forall e, env: Env | id in env && env[id] == Form(e)
        ensures Run(rules, Compile(rules, p, id, n).0, env).Some? <==> Matches(rules, p, e)
      {
        CompiledMatches(rules, p, e, id, n, env);
      }
    }
  }

  ghost predicate RunsByStandard(rules: Rules, p: Datum, id: int, n: int) {
    forall e, env: Env :: id in env && env[id] == Form(e) ==>
      (Run(rules, Compile(rules, p, id, n).0, env).Some? <==> Matches(rules, p, e))
  }

  // ---------------------------------------------------------------- patterns of the standard

  /** The ellipsis is not an element, or the end, of the list. */
  predicate NoEllipsis(rules: Rules, p: Datum) {
    if p.Pair? then p.car != Symbol(rules.ellipsis) && NoEllipsis(rules, p.cdr) else p != Symbol(rules.ellipsis)
  }

  /** A pattern by the grammar, which has one ellipsis at most in a list. */
  ghost predicate StandardPattern(rules: Rules, p: Datum)
    decreases Size(p)
  {
    match p
    case Pair(x, y) =>
      if Repeats(rules, p) && rules.ellipsis !in rules.literals then
        assert Size(y) == 1 + Size(y.car) + Size(y.cdr);
        NoEllipsis(rules, y.cdr) && StandardPattern(rules, x) && StandardPattern(rules, y.cdr)
      else StandardPattern(rules, x) && StandardPattern(rules, y)
    case Symbol(s) => s != rules.ellipsis || s in rules.literals
    case Vector(ps) => StandardPattern(rules, ListOf(ps))
    case _ => true
  }

  predicate NoVectors(p: Datum) {
    match p
    case Pair(x, y) => NoVectors(x) && NoVectors(y)
    case Vector(_) => false
    case _ => true
  }

  lemma {:induction false} StandardPatternValid(rules: Rules, p: Datum)
    requires rules.ellipsis !in rules.literals && StandardPattern(rules, p)
    ensures Valid(rules, p) <==> NoVectors(p)
    decreases p
  {
    hide Size, SizeAll, Prepend;
    match p
    case Pair(x, y) =>
      if Repeats(rules, p) {
        assert NoVectors(y) <==> NoVectors(y.cdr);
        StandardPatternValid(rules, x);
        StandardPatternValid(rules, y.cdr);
      } else {
        StandardPatternValid(rules, x);
        StandardPatternValid(rules, y);
      }
    case _ =>
  }

  // ---------------------------------------------------------------- templates of the standard

  /** Each variable is under at least as many ellipses as in the pattern, and each repeated part has a
      variable to repeat. */
  ghost predicate StandardPlaced(sc: Scope, t: Datum, depth: nat)
    decreases Size(t)
  {
    match t
    case Symbol(s) => if s in sc.vars then sc.vars[s].depth <= depth else s != sc.ellipsis
    case Pair(x, y) =>
      if Escapes(sc.ellipsis, t) then
        assert Size(y) == 1 + Size(y.car) + Size(y.cdr);
        EscapedPlaced(sc, y.car, depth)
      else if Expands(sc.ellipsis, t) then
        assert Size(y) == 1 + Size(y.car) + Size(y.cdr);
        StandardPlaced(sc, y.cdr, depth) && StandardPlaced(sc, x, depth + 1) &&
        exists v <- Order(sc.ellipsis, sc.vars.Keys, x) :: v in sc.vars && sc.vars[v].depth > depth
      else StandardPlaced(sc, x, depth) && StandardPlaced(sc, y, depth)
    case Vector(xs) => !Escapes(sc.ellipsis, ListOf(xs)) && StandardPlaced(sc, ListOf(xs), depth)
    case _ => true
  }

  ghost predicate EscapedPlaced(sc: Scope, t: Datum, depth: nat)
    decreases Size(t)
  {
    match t
    case Symbol(s) => s in sc.vars ==> sc.vars[s].depth <= depth
    case Pair(x, y) => EscapedPlaced(sc, x, depth) && EscapedPlaced(sc, y, depth)
    case Vector(xs) => EscapedPlaced(sc, ListOf(xs), depth)
    case _ => true
  }

  /** No part is (<ellipsis> <template>). */
  ghost predicate NoEscapes(sc: Scope, t: Datum)
    decreases Size(t)
  {
    match t
    case Pair(x, y) =>
      !Escapes(sc.ellipsis, t) &&
      if Expands(sc.ellipsis, t) then
        assert Size(y) == 1 + Size(y.car) + Size(y.cdr);
        NoEscapes(sc, y.cdr) && NoEscapes(sc, x)
      else NoEscapes(sc, x) && NoEscapes(sc, y)
    case Vector(xs) => NoEscapes(sc, ListOf(xs))
    case _ => true
  }

  /** No variable is under more ellipses than in the pattern. */
  ghost predicate NoneDeeper(sc: Scope, t: Datum, depth: nat)
    decreases Size(t)
  {
    match t
    case Symbol(s) => s in sc.vars ==> depth <= sc.vars[s].depth
    case Pair(x, y) =>
      if Expands(sc.ellipsis, t) then
        assert Size(y) == 1 + Size(y.car) + Size(y.cdr);
        NoneDeeper(sc, y.cdr, depth) && NoneDeeper(sc, x, depth + 1)
      else NoneDeeper(sc, x, depth) && NoneDeeper(sc, y, depth)
    case Vector(xs) => NoneDeeper(sc, ListOf(xs), depth)
    case _ => true
  }

  /** The compiler's rule for variables is the standard's without escapes and without repeating a variable
      more than the pattern does. */
  lemma {:induction false} PlacedExactly(sc: Scope, t: Datum, depth: nat)
    requires sc.ellipsis !in sc.vars
    ensures WellPlaced(sc, t, depth) <==>
      StandardPlaced(sc, t, depth) && NoEscapes(sc, t) && NoneDeeper(sc, t, depth)
    decreases Size(t), 1
  {
    match t
    case Pair(x, y) =>
      if WellPlaced(sc, t, depth) { NoEscape(sc, t, depth); }
      if Expands(sc.ellipsis, t) {
        ExpansionPlaced(sc, t, depth);
      } else {
        PlacedExactly(sc, x, depth);
        PlacedExactly(sc, y, depth);
      }
    case Vector(xs) =>
      PlacedExactly(sc, ListOf(xs), depth);
      if WellPlaced(sc, ListOf(xs), depth) { NoEscape(sc, ListOf(xs), depth); }
    case _ =>
  }

  lemma {:induction false} ExpansionPlaced(sc: Scope, t: Datum, depth: nat)
    requires sc.ellipsis !in sc.vars && Expands(sc.ellipsis, t)
    ensures WellPlaced(sc, t, depth) <==>
      StandardPlaced(sc, t, depth) && NoEscapes(sc, t) && NoneDeeper(sc, t, depth)
    decreases Size(t), 0
  {
    var x, rest := t.car, t.cdr.cdr;
    assert Size(t.cdr) == 1 + Size(t.cdr.car) + Size(rest);
    PlacedExactly(sc, rest, depth);
    PlacedExactly(sc, x, depth + 1);
    var o := Order(sc.ellipsis, sc.vars.Keys, x);
    if WellPlaced(sc, t, depth) {
      NoEscape(sc, t, depth);
      OrderDeep(sc, x, depth + 1);
      assert o[0] in o;
    }
  }

  // ---------------------------------------------------------------- rules of the standard

  /** A rule that is valid by the standard. */
  ghost predicate StandardRule(rules: Rules, p: Datum, t: Datum, id: int, n: int) {
    StandardPattern(rules, Rest(p)) && NoRepeats(Names(rules, Rest(p))) &&
    StandardPlaced(RuleScope(rules, p, id, n), t, 0)
  }

  /** A rule that is valid by the standard is compiled exactly when the ellipsis is no literal, the pattern
      has no vector, and the template has no escape, no variable under more ellipses than in the pattern, and
      no late use of one in a repeated part. */
  lemma {:induction false} StandardRuleCompiles(rules: Rules, p: Datum, t: Datum, id: int, n: int)
    requires StandardRule(rules, p, t, id, n)
    ensures var sc := RuleScope(rules, p, id, n);
            Compiles(rules, p, t, id, n) <==>
              rules.ellipsis !in rules.literals && NoVectors(Rest(p)) &&
              NoEscapes(sc, t) && NoneDeeper(sc, t, 0) && !ReusesLater(sc, t)
  {
    hide StandardPattern, StandardPlaced, NoEscapes, NoneDeeper, ReusesLater, WellPlaced, Valid, Names, NoVectors;
    AllVariables(rules, Rest(p));
    if rules.ellipsis !in rules.literals { StandardPatternValid(rules, Rest(p)); }
    PlacedExactly(RuleScope(rules, p, id, n), t, 0);
  }

  /** Whether the form matches by the standard, which does not match the keyword, an identifier at the head. */
  ghost predicate FormMatches(rules: Rules, p: Datum, e: Datum) {
    match p
    case Pair(Symbol(_), rest) => e.Pair? && Matches(rules, rest, e.cdr)
    case _ => Matches(rules, p, e)
  }

  /** A compiled rule that is read as in the standard admits the forms that match. */
  lemma {:induction false} FormsByStandard(rules: Rules, p: Datum, t: Datum, id: int, n: int, e: Datum)
    requires Compiles(rules, p, t, id, n) && !Differs(rules, Rest(p))
    ensures FormAdmits(rules, p, e) <==> FormMatches(rules, p, e)
  {
    hide Matches, Admits, Differs, Valid;
    UnderscoreExactly(rules, Rest(p));
    var part := if HasKeyword(p) && e.Pair? then e.cdr else e;
    assert Admits(rules, Rest(p), part) <==> Matches(rules, Rest(p), part);
  }
}
