/** A use of a macro: its rule is compiled and run on a form. */
module SyntaxExpansion {
  import opened Options
  import opened Utf8
  import opened Printing
  import opened SyntaxPatterns
  import opened SyntaxTemplates
  import opened SyntaxRules
  import opened SyntaxCompiler
  import opened SyntaxStandard
  import opened SyntaxEvaluator

  datatype Expansion =
    | Rejected
    | NoMatch
    | Rewritten(d: Datum)
    | UnequalPacks

  /** Rewrites e by the rule of p and t. */
  method Expand(rules: Rules, p: Datum, t: Datum, e: Datum) returns (r: Expansion)
    ensures r.Rejected? <==> !Compiles(rules, p, t, 0, 1)
    ensures !r.Rejected? ==> (r.NoMatch? <==> !FormAdmits(rules, p, e))
    ensures !r.Rejected? && !Differs(rules, Rest(p)) ==> (r.NoMatch? <==> !FormMatches(rules, p, e))
    ensures !r.Rejected? && !r.NoMatch? ==>
      Instantiate(rules.ellipsis, t, FormBound(rules, p, e)) == if r.Rewritten? then Some(r.d) else None
  {
    hide Names, Slots, Compile, Depths, Bindings, Generate, Evaluate, Instantiate, SyntaxPatterns.Run, Admits, Valid,
         WellPlaced, ReusesLater, Matches, Differs;
    var ops, code := CompileRule(rules, p, t, 0, 1);
    if code.None? { return Rejected; }
    if !Differs(rules, Rest(p)) { FormsByStandard(rules, p, t, 0, 1, e); }
    var env: Env := map[0 := Form(e)];
    assert Rewrites(rules, p, t, ops, code.value, e, env);
    var evaluator := new Evaluator(rules, env);
    RuleNumbered(rules, p, 0, 1);
    var ok := evaluator.Run(ops);
    if !ok { return NoMatch; }
    var d := evaluator.VisitCode(code.value, []);
    r := if d.Some? then Rewritten(d.value) else UnequalPacks;
  }

  lemma {:induction false} RuleNumbered(rules: Rules, p: Datum, id: int, n: int)
    ensures NumberedAll(RuleOps(rules, p, id, n))
  {
    hide Compile;
    if HasKeyword(p) {
      CompiledNumbered(rules, p.cdr, n + 1, n + 2);
      NumberedConcat([MatchPair(id, n)], Compile(rules, p.cdr, n + 1, n + 2).0);
      NumberedOne(MatchPair(id, n));
    } else {
      CompiledNumbered(rules, p, id, n);
    }
  }
}
