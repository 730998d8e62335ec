/** The Quasiquoter itself: it visits a template, emits operations, and returns a mixture of literal
    data and references to results (schir/lib/Quasiquote.cpp). */
module Quasiquoter {
  import opened Options
  import opened Utf8
  import opened Printing
  import opened DatumLists
  import opened Quasiquotes

  /** An operation names earlier results by their positions. */
  datatype Op =
    | LiteralOp(d: Datum)
    | EvaluateOp(expression: Datum)
    | ConsOp(car: nat, cdr: nat)
    | SpliceOp(l: nat, r: nat)
    | ToVectorOp(list: nat)

  type Values = seq<Datum>

  /** The result of a visit. */
  datatype Hybrid = Ast(d: Datum) | Result(position: nat)

  // ---------------------------------------------------------------- running

  function At(vs: Values, position: nat): Option<Datum> {
    if position < |vs| then Some(vs[position]) else None
  }

  function Step(op: Op, vs: Values, ev: Evaluator): Option<Datum> {
    match op
    case LiteralOp(d) => Some(d)
    case EvaluateOp(e) => Some(ev(e))
    case ConsOp(x, y) => PairOf(At(vs, x), At(vs, y))
    case SpliceOp(l, r) =>
      if At(vs, l).Some? && At(vs, r).Some? then Splice(vs[l], vs[r]) else None
    case ToVectorOp(l) => if At(vs, l).Some? then ToVector(vs[l]) else None
  }

  /** The results of all operations, None when one fails. */
  function Execute(ops: seq<Op>, ev: Evaluator): (r: Option<Values>)
    ensures r.Some? ==> |r.value| == |ops|
  {
    if ops == [] then Some([])
    else
      match Execute(ops[..|ops| - 1], ev)
      case Some(vs) => (
        match Step(ops[|ops| - 1], vs, ev)
        case Some(v) => Some(vs + [v])
        case None => None)
      case None => None
  }

  function ValueOf(r: Hybrid, vs: Values): Option<Datum> {
    match r case Ast(d) => Some(d) case Result(n) => At(vs, n)
  }

  predicate Placed(r: Hybrid, ops: seq<Op>) { r.Result? ==> r.position < |ops| }

  /** The value of r once ops have run. */
  function Denoted(r: Hybrid, ops: seq<Op>, ev: Evaluator): Option<Datum> {
    match Execute(ops, ev) case Some(vs) => ValueOf(r, vs) case None => None
  }

  /** The interpreter's visits to these operations. */
  method Interpret(ops: seq<Op>, ev: Evaluator) returns (result: Option<Values>)
    ensures result == Execute(ops, ev)
  {
    var vs: Values := [];
    for i := 0 to |ops|
      invariant Execute(ops[..i], ev) == Some(vs)
    {
      var v: Option<Datum>;
      var done := ops[..i + 1];
      assert done[..|done| - 1] == ops[..i] && done[|done| - 1] == ops[i];
      match ops[i] {
        case LiteralOp(d) => v := Some(d);
        case EvaluateOp(e) => v := Some(ev(e));
        case ConsOp(x, y) => v := PairOf(At(vs, x), At(vs, y));
        case SpliceOp(l, r) =>
          v := None;
          if l < |vs| && r < |vs| { v := SpliceLists(vs[l], vs[r]); }
        case ToVectorOp(l) =>
          v := None;
          if l < |vs| { v := CollectVector(vs[l]); }
      }
      if v.None? {
        FailureStays(ops[..i + 1], ops[i + 1..], ev);
        assert ops[..i + 1] + ops[i + 1..] == ops;
        return None;
      }
      vs := vs + [v.value];
    }
    assert ops[..|ops|] == ops;
    return Some(vs);
  }

  lemma {:induction false} FailureStays(ops: seq<Op>, more: seq<Op>, ev: Evaluator)
    requires Execute(ops, ev).None?
    ensures Execute(ops + more, ev).None?
    decreases |more|
  {
    if more == [] {
      assert ops + more == ops;
    } else {
      FailureStays(ops, more[..|more| - 1], ev);
      assert (ops + more)[..|ops + more| - 1] == ops + more[..|more| - 1];
    }
  }

  // ---------------------------------------------------------------- emitting

  /** Code was added whose result r has the given value, or which fails if there is none. */
  ghost predicate Emitted(before: seq<Op>, after: seq<Op>, r: Hybrid, value: Option<Datum>, ev: Evaluator) {
    before <= after && Placed(r, after) &&
    match Execute(before, ev)
    case None => Execute(after, ev).None?
    case Some(vs) =>
      match value
      case None => Execute(after, ev).None?
      case Some(v) =>
        Execute(after, ev).Some? && vs <= Execute(after, ev).value && Denoted(r, after, ev) == Some(v)
  }

  lemma {:induction false} EmittedOne(before: seq<Op>, op: Op, ev: Evaluator)
    ensures Emitted(before, before + [op], Result(|before|),
                    if Execute(before, ev).Some? then Step(op, Execute(before, ev).value, ev) else None, ev)
  {
    assert (before + [op])[..|before|] == before;
  }

  lemma {:induction false} SeenNeeded(t: Datum, d: Depth)
    ensures Seen(t, d) ==> Needs(t, d)
    decreases Size(t)
  {
    if t.Pair? {
      match Classify(t)
      case Nested(x) => SeenNeeded(x, d + 1);
      case Unquoted(x) => if d > 1 { SeenNeeded(x, d - 1); }
      case Spliced(x, next) => if d > 1 { SeenNeeded(x, d - 1); }
      case Plain(car, cdr) => SeenNeeded(car, d); SeenNeeded(cdr, d);
      case Malformed =>
    } else if t.Vector? {
      SeenNeeded(ListOf(t.elements), d);
    }
  }

  class Quasiquoter {
    var ops: seq<Op>
    var failed: bool

    constructor ()
      ensures ops == [] && !failed
    {
      ops := [];
      failed := false;
    }

    method Emit(op: Op, ghost ev: Evaluator) returns (r: Hybrid)
      modifies this`ops
      ensures r == Result(|old(ops)|) && ops == old(ops) + [op]
      ensures Emitted(old(ops), ops, r,
                      if Execute(old(ops), ev).Some? then Step(op, Execute(old(ops), ev).value, ev) else None, ev)
    {
      EmittedOne(ops, op, ev);
      r := Result(|ops|);
      ops := ops + [op];
    }

    /** The position of a result, or of a new literal. */
    method CreateValue(x: Hybrid, ghost ev: Evaluator) returns (n: nat)
      requires Placed(x, ops)
      modifies this`ops
      ensures x.Result? ==> n == x.position && ops == old(ops)
      ensures x.Ast? ==> n == |old(ops)| && ops == old(ops) + [LiteralOp(x.d)]
      ensures Emitted(old(ops), ops, Result(n), Denoted(x, old(ops), ev), ev)
    {
      match x
      case Result(p) => n := p;
      case Ast(d) =>
        n := |ops|;
        var r := Emit(LiteralOp(d), ev);
    }

    method CreateCons(x: Hybrid, y: Hybrid, ghost ev: Evaluator) returns (r: Hybrid)
      requires Placed(x, ops) && Placed(y, ops)
      modifies this`ops
      ensures Emitted(old(ops), ops, r, PairOf(Denoted(x, old(ops), ev), Denoted(y, old(ops), ev)), ev)
    {
      hide Execute;
      var car := CreateValue(x, ev);
      var cdr := CreateValue(y, ev);
      r := Emit(ConsOp(car, cdr), ev);
    }

    /** A list of two elements. */
    method CreateList(x: Hybrid, y: Hybrid, ghost ev: Evaluator) returns (r: Hybrid)
      requires Placed(x, ops) && Placed(y, ops)
      modifies this`ops
      ensures Emitted(old(ops), ops, r,
                      PairOf(Denoted(x, old(ops), ev), PairOf(Denoted(y, old(ops), ev), Some(Empty))), ev)
    {
      hide Execute;
      var first := CreateValue(x, ev);
      var second := CreateValue(y, ev);
      var end := CreateValue(Ast(Empty), ev);
      var rest := Emit(ConsOp(second, end), ev);
      r := Emit(ConsOp(first, rest.position), ev);
    }

    method CreateSplice(x: Hybrid, y: Hybrid, ghost ev: Evaluator) returns (r: Hybrid)
      requires Placed(x, ops) && Placed(y, ops)
      modifies this`ops
      ensures Emitted(old(ops), ops, r,
                      if Denoted(x, old(ops), ev).Some? && Denoted(y, old(ops), ev).Some?
                      then Splice(Denoted(x, old(ops), ev).value, Denoted(y, old(ops), ev).value) else None, ev)
    {
      hide Execute;
      var l := CreateValue(x, ev);
      var tail := CreateValue(y, ev);
      r := Emit(SpliceOp(l, tail), ev);
    }

    method CreateNestedSplice(x: Hybrid, y: Hybrid, ghost ev: Evaluator) returns (r: Hybrid)
      requires Placed(x, ops) && Placed(y, ops)
      modifies this`ops
      ensures Emitted(old(ops), ops, r,
                      PairOf(Quoted(SPLICING, Denoted(x, old(ops), ev)), Denoted(y, old(ops), ev)), ev)
    {
      hide Execute;
      var list := CreateList(Ast(SPLICING), x, ev);
      r := CreateCons(list, y, ev);
    }

    /** Visits a template: the code added yields its Outcome, and none is added for a plain literal. */
    method Visit(t: Datum, d: Depth, ghost ev: Evaluator) returns (r: Hybrid, rebuilt: bool)
      modifies this
      ensures failed == (old(failed) || !Accepts(t, d)) && Placed(r, ops) && old(ops) <= ops
      ensures !failed ==> Emitted(old(ops), ops, r, Outcome(t, d, ev), ev) && rebuilt == Seen(t, d)
      ensures !failed && !Needs(t, d) ==> r == Ast(t) && ops == old(ops)
      decreases Size(t), 2
    {
      r, rebuilt := Ast(t), false;
      match t {
        case Pair(_, _) => r, rebuilt := VisitPair(t, d, ev);
        case Vector(_) => r, rebuilt := VisitVector(t, d, ev);
        case _ =>
      }
    }

    method VisitPair(t: Datum, d: Depth, ghost ev: Evaluator) returns (r: Hybrid, rebuilt: bool)
      requires t.Pair?
      modifies this
      ensures failed == (old(failed) || !Accepts(t, d)) && Placed(r, ops) && old(ops) <= ops
      ensures !failed ==> Emitted(old(ops), ops, r, Outcome(t, d, ev), ev) && rebuilt == Seen(t, d)
      ensures !failed && !Needs(t, d) ==> r == Ast(t) && ops == old(ops)
      decreases Size(t), 1
    {
      if failed { return Ast(Empty), false; }
      match Classify(t) {
        case Nested(x) => r, rebuilt := HandleQuasiquote(t, x, d, ev);
        case Unquoted(x) => r, rebuilt := HandleUnquote(t, x, d, ev);
        case Spliced(x, next) => r, rebuilt := HandleUnquoteSplicing(t, x, next, d, ev);
        case Plain(car, cdr) => r, rebuilt := HandlePair(t, d, ev);
        case Malformed =>
          failed := true;
          r, rebuilt := Ast(Empty), false;
      }
    }

    method HandleQuasiquote(t: Datum, x: Datum, d: Depth, ghost ev: Evaluator) returns (r: Hybrid, rebuilt: bool)
      requires t.Pair? && Classify(t) == Nested(x) && !failed
      modifies this
      ensures failed == (old(failed) || !Accepts(t, d)) && Placed(r, ops) && old(ops) <= ops
      ensures !failed ==> Emitted(old(ops), ops, r, Outcome(t, d, ev), ev) && rebuilt == Seen(t, d)
      ensures !failed && !Needs(t, d) ==> r == Ast(t) && ops == old(ops)
      decreases Size(t), 0
    {
      hide Classify, ListOf, Execute, Size, SizeAll, Prepend, Cars, Terminator, Meaning, MeaningAll, Splice,
           ToVector, Lost;
      SeenNeeded(t, d);
      r, rebuilt := Visit(x, d + 1, ev);
      if !rebuilt { return Ast(t), false; }
      r := CreateList(Ast(QUASIQUOTE), r, ev);
    }

    /** The template of an unquotation: at depth 0 it is an expression. */
    method HandleTemplate(t: Datum, d: nat, ghost ev: Evaluator) returns (r: Hybrid, rebuilt: bool)
      requires !failed
      modifies this
      ensures failed == (d > 0 && !Accepts(t, d)) && Placed(r, ops) && old(ops) <= ops
      ensures !failed ==>
        Emitted(old(ops), ops, r, if d == 0 then Some(ev(t)) else Outcome(t, d, ev), ev) &&
        rebuilt == (d == 0 || Seen(t, d))
      ensures !failed && d > 0 && !Needs(t, d) ==> r == Ast(t) && ops == old(ops)
      decreases Size(t), 3
    {
      if d < 1 {
        r := Emit(EvaluateOp(t), ev);
        rebuilt := true;
      } else {
        r, rebuilt := Visit(t, d, ev);
      }
    }

    method HandleUnquote(t: Datum, x: Datum, d: Depth, ghost ev: Evaluator) returns (r: Hybrid, rebuilt: bool)
      requires t.Pair? && Classify(t) == Unquoted(x) && !failed
      modifies this
      ensures failed == (old(failed) || !Accepts(t, d)) && Placed(r, ops) && old(ops) <= ops
      ensures !failed ==> Emitted(old(ops), ops, r, Outcome(t, d, ev), ev) && rebuilt == Seen(t, d)
      ensures !failed && !Needs(t, d) ==> r == Ast(t) && ops == old(ops)
      decreases Size(t), 0
    {
      hide Classify, ListOf, Execute, Size, SizeAll, Prepend, Cars, Terminator, Meaning, MeaningAll, Splice,
           ToVector, Lost;
      SeenNeeded(t, d);
      r, rebuilt := HandleTemplate(x, d - 1, ev);
      if !rebuilt { return Ast(t), false; }
      if d > 1 { r := CreateList(Ast(UNQUOTE), r, ev); }
    }

    method HandleUnquoteSplicing(t: Datum, x: Datum, next: Datum, d: Depth, ghost ev: Evaluator)
      returns (r: Hybrid, rebuilt: bool)
      requires t.Pair? && Classify(t) == Spliced(x, next) && !failed
      modifies this
      ensures failed == (old(failed) || !Accepts(t, d)) && Placed(r, ops) && old(ops) <= ops
      ensures !failed ==> Emitted(old(ops), ops, r, Outcome(t, d, ev), ev) && rebuilt == Seen(t, d)
      ensures !failed && !Needs(t, d) ==> r == Ast(t) && ops == old(ops)
      decreases Size(t), 0
    {
      hide Classify, ListOf, Execute, Size, SizeAll, Prepend, Cars, Terminator, Meaning, MeaningAll, Splice,
           ToVector, Lost;
      SeenNeeded(t, d);
      var result, tail, nextRebuilt;
      result, rebuilt := HandleTemplate(x, d - 1, ev);
      tail, nextRebuilt := Visit(next, d, ev);
      if !rebuilt && !nextRebuilt { return Ast(t), rebuilt; }
      SeenNeeded(next, d);
      if d > 1 {
        r := CreateNestedSplice(result, tail, ev);
      } else {
        r := CreateSplice(result, tail, ev);
      }
    }

    method HandlePair(t: Datum, d: Depth, ghost ev: Evaluator) returns (r: Hybrid, rebuilt: bool)
      requires t.Pair? && Classify(t) == Plain(t.car, t.cdr) && !failed
      modifies this
      ensures failed == (old(failed) || !Accepts(t, d)) && Placed(r, ops) && old(ops) <= ops
      ensures !failed ==> Emitted(old(ops), ops, r, Outcome(t, d, ev), ev) && rebuilt == Seen(t, d)
      ensures !failed && !Needs(t, d) ==> r == Ast(t) && ops == old(ops)
      decreases Size(t), 0
    {
      hide Classify, ListOf, Execute, Size, SizeAll, Prepend, Cars, Terminator, Meaning, MeaningAll, Splice,
           ToVector, Lost;
      SeenNeeded(t, d);
      var cdr, cdrRebuilt := Visit(t.cdr, d, ev);
      var car, carRebuilt := Visit(t.car, d, ev);
      rebuilt := carRebuilt || cdrRebuilt;
      if !rebuilt { return Ast(t), false; }
      r := CreateCons(car, cdr, ev);
    }

    /** A vector is visited as a list, which is converted back when it was rebuilt. */
    method VisitVector(t: Datum, d: Depth, ghost ev: Evaluator) returns (r: Hybrid, rebuilt: bool)
      requires t.Vector?
      modifies this
      ensures failed == (old(failed) || !Accepts(t, d)) && Placed(r, ops) && old(ops) <= ops
      ensures !failed ==> Emitted(old(ops), ops, r, Outcome(t, d, ev), ev) && rebuilt == Seen(t, d)
      ensures !failed && !Needs(t, d) ==> r == Ast(t) && ops == old(ops)
      decreases Size(t), 1
    {
      hide Execute, Prepend, Cars, Terminator, Meaning, MeaningAll, Splice,
           ToVector, Lost;
      SeenNeeded(t, d);
      if failed { return Ast(Empty), false; }
      if t.elements == [] { return Ast(t), false; }
      r, rebuilt := Visit(ListOf(t.elements), d, ev);
      if !rebuilt { return Ast(t), false; }
      var list := CreateValue(r, ev);
      r := Emit(ToVectorOp(list), ev);
    }

    /** The code for a whole quasiquotation. */
    method Run(t: Datum, ghost ev: Evaluator) returns (n: nat)
      requires ops == [] && !failed
      modifies this
      ensures failed == !Accepts(t, 1)
      ensures !failed ==> Denoted(Result(n), ops, ev) == Outcome(t, 1, ev)
      ensures !failed && !Needs(t, 1) ==> ops == [LiteralOp(t)] && n == 0
      ensures !failed && PlainVectors(t, 1) && !Lost(t, 1) && Meaning(t, 1, ev).Some? && TailsProper(t, 1, ev) ==>
        Denoted(Result(n), ops, ev) == Meaning(t, 1, ev)
    {
      hide Outcome, Meaning, Lost, TailsProper, PlainVectors, Needs;
      var r, rebuilt := Visit(t, 1, ev);
      n := CreateValue(r, ev);
      if !failed && PlainVectors(t, 1) && !Lost(t, 1) && Meaning(t, 1, ev).Some? {
        OutcomeIsMeaning(t, 1, ev);
      }
    }
  }
}
