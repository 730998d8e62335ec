/** Nested quasiquotation: the code that the Quasiquoter emits (schir/lib/Quasiquote.cpp), run by
    ConsOp, SpliceOp and ToVectorOp (schir/lib/OpEval.cpp), against section 4.2.8 of R7RS. */
module Quasiquotes {
  import opened Options
  import opened Utf8
  import opened Ascii
  import opened Printing
  import opened DatumLists

  type Depth = d: nat | d > 0 witness 1

  /** What an expression evaluates to. */
  type Evaluator = Datum -> Datum

  const QUASIQUOTE: Datum := Symbol(Text("quasiquote"))
  const UNQUOTE: Datum := Symbol(Text("unquote"))
  const SPLICING: Datum := Symbol(Text("unquote-splicing"))

  // ---------------------------------------------------------------- operations at run time

  /** The standard's append of a list and a tail. */
  function Append(l: Datum, r: Datum): Option<Datum> {
    if ProperList(l) then Some(Prepend(Cars(l), r)) else None
  }

  /** SpliceOp, which copies the pairs of both operands. */
  function Splice(l: Datum, r: Datum): Option<Datum> {
    if l.Pair? || l.Empty? then Some(ListOf(Cars(l) + Cars(r))) else None
  }

  /** For a list on the left, splicing is appending exactly when the right is a list too. */
  lemma {:induction false} SpliceIsAppend(l: Datum, r: Datum)
    requires ProperList(l)
    ensures Splice(l, r) == Append(l, r) <==> ProperList(r)
  {
    PrependConcat(Cars(l), Cars(r), Empty);
    PrependCars(r);
    if Splice(l, r) == Append(l, r) {
      PrependInjective(Cars(l), ListOf(Cars(r)), r);
      CarsOfPrepend(Cars(r), Empty);
    }
  }

  /** Splicing loses no difference between lists. */
  lemma {:induction false} SpliceDiffers(l: Datum, o: Datum, m: Datum)
    requires ProperList(l) && (ProperList(m) ==> ProperList(o))
    ensures Splice(l, o) == Append(l, m) ==> o == m && ProperList(m)
  {
    if Splice(l, o) == Append(l, m) {
      PrependConcat(Cars(l), Cars(o), Empty);
      PrependInjective(Cars(l), ListOf(Cars(o)), m);
      CarsOfPrepend(Cars(o), Empty);
      PrependCars(o);
    }
  }

  lemma {:induction false} VectorDiffers(o: Datum, ys: seq<Datum>)
    ensures ToVector(o) == Some(Vector(ys)) <==> o == ListOf(ys)
  {
    PrependCars(o);
    CarsOfPrepend(ys, Empty);
    assert ys + Cars(Empty) == ys;
  }

  /** The loops of SpliceOp: each copied pair is linked after the last one. */
  method SpliceLists(l: Datum, r: Datum) returns (result: Option<Datum>)
    ensures result == Splice(l, r)
  {
    hide Size, SizeAll, Prepend, Terminator, Cars;
    if !l.Pair? && !l.Empty? { return None; }
    var copied: seq<Datum> := [];
    var next := l;
    while next.Pair?
      invariant copied + Cars(next) == Cars(l)
      decreases next
    {
      CarsAfter(copied, next);
      copied := copied + [next.car];
      next := next.cdr;
    }
    CarsEnd(next);
    assert copied + Cars(next) == copied;
    next := r;
    while next.Pair?
      invariant copied + Cars(next) == Cars(l) + Cars(r)
      decreases next
    {
      CarsAfter(copied, next);
      copied := copied + [next.car];
      next := next.cdr;
    }
    CarsEnd(next);
    assert copied + Cars(next) == copied;
    result := Some(ListOf(copied));
  }

  // ---------------------------------------------------------------- templates

  /** What VisitPair finds in a pair. */
  datatype Syntax =
    | Nested(template: Datum)
    | Unquoted(argument: Datum)
    | Spliced(argument: Datum, next: Datum)
    | Plain(car: Datum, cdr: Datum)
    | Malformed

  /** The one argument of a keyword. */
  function SingleArgument(p: Datum): (r: Option<Datum>)
    requires p.Pair?
    ensures r.Some? ==> p == Pairing(p.car, r.value) && Size(r.value) < Size(p)
  {
    assert p.cdr.Pair? ==> Size(p.cdr) == 1 + Size(p.cdr.car) + Size(p.cdr.cdr);
    if p.cdr.Pair? && p.cdr.cdr.Empty? then Some(p.cdr.car) else None
  }

  predicate IsSplicing(d: Datum) { d.Pair? && d.car == SPLICING }

  function Classify(p: Datum): (s: Syntax)
    requires p.Pair?
    ensures s.Nested? ==> Size(s.template) < Size(p) && p == Pairing(QUASIQUOTE, s.template)
    ensures s.Unquoted? ==> Size(s.argument) < Size(p) && p == Pairing(UNQUOTE, s.argument)
    ensures s.Spliced? ==> Size(s.argument) < Size(p) && Size(s.next) < Size(p) &&
                           p == Pair(Pairing(SPLICING, s.argument), s.next)
    ensures s.Plain? ==> Size(s.car) < Size(p) && Size(s.cdr) < Size(p) && p == Pair(s.car, s.cdr)
  {
    if p.car == QUASIQUOTE then
      match SingleArgument(p) case Some(x) => Nested(x) case None => Malformed
    else if p.car == UNQUOTE then
      match SingleArgument(p) case Some(x) => Unquoted(x) case None => Malformed
    else if IsSplicing(p.car) then
      match SingleArgument(p.car) case Some(x) => Spliced(x, p.cdr) case None => Malformed
    else Plain(p.car, p.cdr)
  }

  /** Every keyword has one argument. */
  predicate Accepts(t: Datum, d: Depth)
    decreases Size(t)
  {
    if t.Pair? then
      match Classify(t)
      case Nested(x) => Accepts(x, d + 1)
      case Unquoted(x) => d == 1 || Accepts(x, d - 1)
      case Spliced(x, next) => (d == 1 || Accepts(x, d - 1)) && Accepts(next, d)
      case Plain(car, cdr) => Accepts(cdr, d) && Accepts(car, d)
      case Malformed => false
    else t.Vector? ==> Accepts(ListOf(t.elements), d)
  }

  /** Neither quasiquote nor unquote is an element of a vector, where the standard leaves them undefined. */
  predicate PlainVectors(t: Datum, d: Depth)
    decreases Size(t)
  {
    if t.Pair? then
      match Classify(t)
      case Nested(x) => PlainVectors(x, d + 1)
      case Unquoted(x) => d == 1 || PlainVectors(x, d - 1)
      case Spliced(x, next) => (d == 1 || PlainVectors(x, d - 1)) && PlainVectors(next, d)
      case Plain(car, cdr) => PlainVectors(cdr, d) && PlainVectors(car, d)
      case Malformed => true
    else t.Vector? ==>
      QUASIQUOTE !in t.elements && UNQUOTE !in t.elements && PlainVectors(ListOf(t.elements), d)
  }

  /** Whether the template holds an unquotation of level 0. */
  predicate Needs(t: Datum, d: Depth)
    decreases Size(t)
  {
    if t.Pair? then
      match Classify(t)
      case Nested(x) => Needs(x, d + 1)
      case Unquoted(x) => d == 1 || Needs(x, d - 1)
      case Spliced(x, next) => d == 1 || Needs(x, d - 1) || Needs(next, d)
      case Plain(car, cdr) => Needs(cdr, d) || Needs(car, d)
      case Malformed => false
    else t.Vector? && Needs(ListOf(t.elements), d)
  }

  /** The flag Rebuilt after a visit: the tail of a nested splice does not set it. */
  predicate Seen(t: Datum, d: Depth)
    decreases Size(t)
  {
    if t.Pair? then
      match Classify(t)
      case Nested(x) => Seen(x, d + 1)
      case Unquoted(x) => d == 1 || Seen(x, d - 1)
      case Spliced(x, next) => d == 1 || Seen(x, d - 1)
      case Plain(car, cdr) => Seen(cdr, d) || Seen(car, d)
      case Malformed => false
    else t.Vector? && Seen(ListOf(t.elements), d)
  }

  /** A part with an unquotation of level 0 is taken for a literal. */
  predicate Lost(t: Datum, d: Depth)
    decreases Size(t)
  {
    if t.Pair? then
      match Classify(t)
      case Nested(x) => if Seen(x, d + 1) then Lost(x, d + 1) else Needs(x, d + 1)
      case Unquoted(x) => d > 1 && if Seen(x, d - 1) then Lost(x, d - 1) else Needs(x, d - 1)
      case Spliced(x, next) =>
        if d == 1 then Lost(next, d)
        else if Seen(x, d - 1) || Seen(next, d) then Lost(x, d - 1) || Lost(next, d)
        else Needs(x, d - 1) || Needs(next, d)
      case Plain(car, cdr) =>
        if Seen(cdr, d) || Seen(car, d) then Lost(cdr, d) || Lost(car, d)
        else Needs(cdr, d) || Needs(car, d)
      case Malformed => false
    else
      t.Vector? &&
      if Seen(ListOf(t.elements), d) then Lost(ListOf(t.elements), d) else Needs(ListOf(t.elements), d)
  }

  // ---------------------------------------------------------------- the standard

  /** The value of a quasiquotation at depth d. None is an error. */
  ghost function Meaning(t: Datum, d: Depth, ev: Evaluator): Option<Datum>
    decreases Size(t)
  {
    match t
    case Pair(_, _) => (
      match Classify(t)
      case Nested(x) => Quoted(QUASIQUOTE, Meaning(x, d + 1, ev))
      case Unquoted(x) => if d == 1 then Some(ev(x)) else Quoted(UNQUOTE, Meaning(x, d - 1, ev))
      case Spliced(x, next) =>
        if d == 1 then Appended(ev(x), Meaning(next, d, ev))
        else PairOf(Quoted(SPLICING, Meaning(x, d - 1, ev)), Meaning(next, d, ev))
      case Plain(car, cdr) => PairOf(Meaning(car, d, ev), Meaning(cdr, d, ev))
      case Malformed => None)
    case Vector(xs) => (
      match MeaningAll(xs, d, ev)
      case Some(ys) => Some(Vector(ys))
      case None => None)
    case _ => Some(t)
  }

  /** The elements of a vector. */
  ghost function MeaningAll(xs: seq<Datum>, d: Depth, ev: Evaluator): Option<seq<Datum>>
    decreases SizeAll(xs)
  {
    if xs == [] then Some([])
    else
      var rest := MeaningAll(xs[1..], d, ev);
      if IsSplicing(xs[0]) then
        match SingleArgument(xs[0])
        case Some(x) =>
          if d == 1 then (if ProperList(ev(x)) then Concat(Some(Cars(ev(x))), rest) else None)
          else Concat(Single(Quoted(SPLICING, Meaning(x, d - 1, ev))), rest)
        case None => None
      else Concat(Single(Meaning(xs[0], d, ev)), rest)
  }

  function PairOf(x: Option<Datum>, y: Option<Datum>): Option<Datum> {
    if x.Some? && y.Some? then Some(Pair(x.value, y.value)) else None
  }

  function Quoted(keyword: Datum, x: Option<Datum>): Option<Datum> {
    if x.Some? then Some(Pairing(keyword, x.value)) else None
  }

  function Appended(l: Datum, r: Option<Datum>): Option<Datum> {
    if r.Some? then Append(l, r.value) else None
  }

  function Single(x: Option<Datum>): Option<seq<Datum>> {
    if x.Some? then Some([x.value]) else None
  }

  function Concat(x: Option<seq<Datum>>, y: Option<seq<Datum>>): Option<seq<Datum>> {
    if x.Some? && y.Some? then Some(x.value + y.value) else None
  }

  /** The tail of every splice of level 0 is a list. */
  ghost predicate TailsProper(t: Datum, d: Depth, ev: Evaluator)
    decreases Size(t)
  {
    if t.Pair? then
      match Classify(t)
      case Nested(x) => TailsProper(x, d + 1, ev)
      case Unquoted(x) => d == 1 || TailsProper(x, d - 1, ev)
      case Spliced(x, next) =>
        TailsProper(next, d, ev) &&
        if d == 1 then (match Meaning(next, d, ev) case Some(m) => ProperList(m) case None => true)
        else TailsProper(x, d - 1, ev)
      case Plain(car, cdr) => TailsProper(cdr, d, ev) && TailsProper(car, d, ev)
      case Malformed => true
    else t.Vector? ==> TailsProper(ListOf(t.elements), d, ev)
  }

  // ---------------------------------------------------------------- what the emitted code yields

  /** The value the code of a visit yields, None when one of its operations fails. */
  ghost function Outcome(t: Datum, d: Depth, ev: Evaluator): Option<Datum>
    decreases Size(t)
  {
    match t
    case Pair(_, _) => (
      match Classify(t)
      case Nested(x) => Kept(t, Seen(x, d + 1), Quoted(QUASIQUOTE, Outcome(x, d + 1, ev)))
      case Unquoted(x) =>
        if d == 1 then Some(ev(x))
        else Kept(t, Seen(x, d - 1), Quoted(UNQUOTE, Outcome(x, d - 1, ev)))
      case Spliced(x, next) =>
        if d == 1 then
          match Outcome(next, d, ev) case Some(o) => Splice(ev(x), o) case None => None
        else
          Kept(t, Seen(x, d - 1) || Seen(next, d),
               PairOf(Quoted(SPLICING, Outcome(x, d - 1, ev)), Outcome(next, d, ev)))
      case Plain(car, cdr) =>
        Kept(t, Seen(cdr, d) || Seen(car, d), PairOf(Outcome(car, d, ev), Outcome(cdr, d, ev)))
      case Malformed => None)
    case Vector(xs) =>
      if xs == [] then Some(t)
      else (
        match Outcome(ListOf(xs), d, ev)
        case Some(o) => if Seen(ListOf(xs), d) then ToVector(o) else Some(t)
        case None => None)
    case _ => Some(t)
  }

  /** The literal t in place of what was not rebuilt. */
  function Kept(t: Datum, rebuilt: bool, outcome: Option<Datum>): Option<Datum> {
    if outcome.Some? && !rebuilt then Some(t) else outcome
  }

  // ---------------------------------------------------------------- theorems

  /** A vector means what its list means. */
  lemma {:induction false} VectorAsList(xs: seq<Datum>, d: Depth, ev: Evaluator)
    requires QUASIQUOTE !in xs && UNQUOTE !in xs
    ensures Meaning(ListOf(xs), d, ev) ==
      match MeaningAll(xs, d, ev) case Some(ys) => Some(ListOf(ys)) case None => None
    decreases |xs|
  {
    if xs != [] {
      VectorAsList(xs[1..], d, ev);
      assert xs[0] in xs;
      if IsSplicing(xs[0]) && SingleArgument(xs[0]).Some? && d == 1 {
        var l := ev(SingleArgument(xs[0]).value);
        var rest := MeaningAll(xs[1..], d, ev);
        if rest.Some? { PrependConcat(Cars(l), rest.value, Empty); }
      }
    }
  }

  /** Without an unquotation of level 0, the template is its own value and no code is needed. */
  lemma {:induction false} Unneeded(t: Datum, d: Depth, ev: Evaluator)
    requires Accepts(t, d) && PlainVectors(t, d) && !Needs(t, d)
    ensures Meaning(t, d, ev) == Some(t) && Outcome(t, d, ev) == Some(t)
    ensures TailsProper(t, d, ev) && !Seen(t, d) && !Lost(t, d)
    decreases Size(t)
  {
    if t.Pair? {
      match Classify(t)
      case Nested(x) => Unneeded(x, d + 1, ev);
      case Unquoted(x) => Unneeded(x, d - 1, ev);
      case Spliced(x, next) => Unneeded(x, d - 1, ev); Unneeded(next, d, ev);
      case Plain(car, cdr) => Unneeded(car, d, ev); Unneeded(cdr, d, ev);
      case Malformed =>
    } else if t.Vector? {
      var xs := t.elements;
      Unneeded(ListOf(xs), d, ev);
      VectorAsList(xs, d, ev);
      ListsSame(MeaningAll(xs, d, ev).value, xs);
    }
  }

  /** At a nested depth the end of a list is never replaced. */
  lemma {:induction false} NestedEnd(t: Datum, d: Depth, ev: Evaluator)
    requires d > 1
    ensures Meaning(t, d, ev).Some? ==> ProperList(Meaning(t, d, ev).value) == ProperList(t)
    ensures Outcome(t, d, ev).Some? ==> ProperList(Outcome(t, d, ev).value) == ProperList(t)
    decreases Size(t)
  {
    if t.Pair? {
      match Classify(t)
      case Nested(x) =>
      case Unquoted(x) =>
      case Spliced(x, next) => NestedEnd(next, d, ev);
      case Plain(car, cdr) => NestedEnd(cdr, d, ev);
      case Malformed =>
    }
  }

  /** Where the meaning is a list, so is the outcome. */
  lemma {:induction false} ListKept(t: Datum, d: Depth, ev: Evaluator)
    requires Meaning(t, d, ev).Some? && Outcome(t, d, ev).Some?
    ensures ProperList(Meaning(t, d, ev).value) ==> ProperList(Outcome(t, d, ev).value)
    ensures !Seen(t, d) ==> ProperList(Outcome(t, d, ev).value) == ProperList(t)
    decreases Size(t)
  {
    if d > 1 {
      NestedEnd(t, d, ev);
    } else if t.Pair? {
      match Classify(t)
      case Nested(x) =>
      case Unquoted(x) =>
      case Spliced(x, next) =>
        var o := Outcome(next, d, ev).value;
        CarsOfPrepend(Cars(ev(x)) + Cars(o), Empty);
      case Plain(car, cdr) => ListKept(cdr, d, ev);
      case Malformed =>
    }
  }

  /** When nothing is lost, the code yields the value the standard gives exactly when no splice meets
      an improper tail. */
  lemma {:induction false} OutcomeIsMeaning(t: Datum, d: Depth, ev: Evaluator)
    requires PlainVectors(t, d) && Meaning(t, d, ev).Some? && !Lost(t, d)
    ensures Outcome(t, d, ev) == Meaning(t, d, ev) <==> TailsProper(t, d, ev)
    decreases Size(t)
  {
    hide Classify, Size, SizeAll, Prepend, ListOf, Cars, Terminator, MeaningAll, Splice, ToVector;
    AcceptedByMeaning(t, d, ev);
    if !Needs(t, d) {
      Unneeded(t, d, ev);
    } else if t.Pair? {
      match Classify(t)
      case Nested(x) => OutcomeIsMeaning(x, d + 1, ev);
      case Unquoted(x) => if d > 1 { OutcomeIsMeaning(x, d - 1, ev); }
      case Spliced(x, next) =>
        OutcomeIsMeaning(next, d, ev);
        if d > 1 {
          OutcomeIsMeaning(x, d - 1, ev);
        } else if Outcome(next, d, ev).Some? {
          ListKept(next, d, ev);
          SpliceDiffers(ev(x), Outcome(next, d, ev).value, Meaning(next, d, ev).value);
          SpliceIsAppend(ev(x), Meaning(next, d, ev).value);
        }
      case Plain(car, cdr) => OutcomeIsMeaning(car, d, ev); OutcomeIsMeaning(cdr, d, ev);
      case Malformed =>
    } else if t.Vector? {
      VectorOutcome(t, d, ev);
    }
  }

  lemma {:induction false} VectorOutcome(t: Datum, d: Depth, ev: Evaluator)
    requires PlainVectors(t, d) && Meaning(t, d, ev).Some? && !Lost(t, d) && Needs(t, d) && t.Vector?
    ensures Outcome(t, d, ev) == Meaning(t, d, ev) <==> TailsProper(t, d, ev)
    decreases Size(t), 0
  {
    var list := ListOf(t.elements);
    VectorAsList(t.elements, d, ev);
    OutcomeIsMeaning(list, d, ev);
    if Outcome(list, d, ev).Some? {
      VectorDiffers(Outcome(list, d, ev).value, MeaningAll(t.elements, d, ev).value);
    }
  }

  lemma {:induction false} AcceptedByMeaning(t: Datum, d: Depth, ev: Evaluator)
    requires PlainVectors(t, d) && Meaning(t, d, ev).Some?
    ensures Accepts(t, d)
    decreases Size(t)
  {
    if t.Pair? {
      match Classify(t)
      case Nested(x) => AcceptedByMeaning(x, d + 1, ev);
      case Unquoted(x) => if d > 1 { AcceptedByMeaning(x, d - 1, ev); }
      case Spliced(x, next) =>
        AcceptedByMeaning(next, d, ev);
        if d > 1 { AcceptedByMeaning(x, d - 1, ev); }
      case Plain(car, cdr) => AcceptedByMeaning(car, d, ev); AcceptedByMeaning(cdr, d, ev);
      case Malformed =>
    } else if t.Vector? {
      VectorAsList(t.elements, d, ev);
      AcceptedByMeaning(ListOf(t.elements), d, ev);
    }
  }

  /** What the standard puts in place of an unquotation is part of the value. */
  lemma {:induction false} ConstantMeaning(t: Datum, d: Depth, ev: Evaluator, c: Datum)
    requires Accepts(t, d) && PlainVectors(t, d) && ProperList(c) && forall x :: ev(x) == c
    ensures Meaning(t, d, ev).Some? && (Needs(t, d) ==> Size(Meaning(t, d, ev).value) >= Size(c))
    decreases Size(t)
  {
    hide Classify, SizeAll, Prepend, Cars, Terminator, Pairing, MeaningAll, TailsProper, Outcome;
    if t.Pair? {
      match Classify(t)
      case Nested(x) => ConstantMeaning(x, d + 1, ev, c);
      case Unquoted(x) => if d > 1 { ConstantMeaning(x, d - 1, ev, c); }
      case Spliced(x, next) =>
        ConstantMeaning(next, d, ev, c);
        if d > 1 { ConstantMeaning(x, d - 1, ev, c); } else { PrependCars(c); }
      case Plain(car, cdr) => ConstantMeaning(car, d, ev, c); ConstantMeaning(cdr, d, ev, c);
      case Malformed =>
    } else if t.Vector? {
      VectorAsList(t.elements, d, ev);
      ConstantMeaning(ListOf(t.elements), d, ev, c);
    }
  }

  /** When something is lost, the code yields a wrong value for any long list. */
  lemma {:induction false} LostDiffers(t: Datum, d: Depth, ev: Evaluator, c: Datum)
    requires Accepts(t, d) && PlainVectors(t, d) && Lost(t, d)
    requires ProperList(c) && Size(c) > Size(t) && forall x :: ev(x) == c
    ensures Outcome(t, d, ev) != Meaning(t, d, ev)
    decreases Size(t)
  {
    hide Classify, Size, SizeAll, Prepend, ListOf, Cars, Terminator, MeaningAll, Splice, ToVector;
    ConstantMeaning(t, d, ev, c);
    if t.Pair? {
      match Classify(t)
      case Nested(x) => if Seen(x, d + 1) { LostDiffers(x, d + 1, ev, c); }
      case Unquoted(x) => if Seen(x, d - 1) { LostDiffers(x, d - 1, ev, c); }
      case Spliced(x, next) =>
        if d == 1 {
          LostDiffers(next, d, ev, c);
          LostSplice(next, d, ev, c);
        } else if Seen(x, d - 1) || Seen(next, d) {
          if Lost(next, d) { LostDiffers(next, d, ev, c); } else { LostDiffers(x, d - 1, ev, c); }
        }
      case Plain(car, cdr) =>
        if Seen(cdr, d) || Seen(car, d) {
          if Lost(cdr, d) { LostDiffers(cdr, d, ev, c); } else { LostDiffers(car, d, ev, c); }
        }
      case Malformed =>
    } else if t.Vector? {
      LostVector(t, d, ev, c);
    }
  }

  lemma {:induction false} LostVector(t: Datum, d: Depth, ev: Evaluator, c: Datum)
    requires Accepts(t, d) && PlainVectors(t, d) && Lost(t, d) && t.Vector?
    requires ProperList(c) && Size(c) > Size(t) && forall x :: ev(x) == c
    ensures Outcome(t, d, ev) != Meaning(t, d, ev)
    decreases Size(t), 0
  {
    ConstantMeaning(t, d, ev, c);
    VectorAsList(t.elements, d, ev);
    if Seen(ListOf(t.elements), d) {
      var o := Outcome(ListOf(t.elements), d, ev);
      LostDiffers(ListOf(t.elements), d, ev, c);
      if o.Some? { VectorDiffers(o.value, MeaningAll(t.elements, d, ev).value); }
    }
  }

  lemma {:induction false} LostSplice(next: Datum, d: Depth, ev: Evaluator, c: Datum)
    requires Meaning(next, d, ev).Some? && Outcome(next, d, ev) != Meaning(next, d, ev) && ProperList(c)
    ensures Outcome(next, d, ev).Some? ==>
      Splice(c, Outcome(next, d, ev).value) != Append(c, Meaning(next, d, ev).value)
  {
    if Outcome(next, d, ev).Some? {
      ListKept(next, d, ev);
      SpliceDiffers(c, Outcome(next, d, ev).value, Meaning(next, d, ev).value);
    }
  }

  // ---------------------------------------------------------------- tails of splices

  /** The expressions that are spliced at level 0. */
  function SplicedArguments(t: Datum, d: Depth): set<Datum>
    decreases Size(t)
  {
    if t.Pair? then
      match Classify(t)
      case Nested(x) => SplicedArguments(x, d + 1)
      case Unquoted(x) => if d == 1 then {} else SplicedArguments(x, d - 1)
      case Spliced(x, next) => (if d == 1 then {x} else SplicedArguments(x, d - 1)) + SplicedArguments(next, d)
      case Plain(car, cdr) => SplicedArguments(cdr, d) + SplicedArguments(car, d)
      case Malformed => {}
    else if t.Vector? then SplicedArguments(ListOf(t.elements), d)
    else {}
  }

  /** The template ends with the empty list, or with the value of an expression that has to be a list. */
  predicate EndsAsList(t: Datum, d: Depth, lists: set<Datum>)
    decreases Size(t)
  {
    if t.Pair? then
      match Classify(t)
      case Nested(x) => true
      case Unquoted(x) => d > 1 || x in lists
      case Spliced(x, next) => EndsAsList(next, d, lists)
      case Plain(car, cdr) => EndsAsList(cdr, d, lists)
      case Malformed => true
    else t.Empty?
  }

  /** The tail of every splice of level 0 ends so. */
  predicate TailsEnd(t: Datum, d: Depth, lists: set<Datum>)
    decreases Size(t)
  {
    if t.Pair? then
      match Classify(t)
      case Nested(x) => TailsEnd(x, d + 1, lists)
      case Unquoted(x) => d == 1 || TailsEnd(x, d - 1, lists)
      case Spliced(x, next) =>
        TailsEnd(next, d, lists) && if d == 1 then EndsAsList(next, d, lists) else TailsEnd(x, d - 1, lists)
      case Plain(car, cdr) => TailsEnd(cdr, d, lists) && TailsEnd(car, d, lists)
      case Malformed => true
    else t.Vector? ==> TailsEnd(ListOf(t.elements), d, lists)
  }

  ghost predicate AllLists(lists: set<Datum>, ev: Evaluator) { forall x <- lists :: ProperList(ev(x)) }

  /** Other expressions have values that are no lists. */
  ghost predicate OnlyLists(lists: set<Datum>, ev: Evaluator) { forall x :: x !in lists ==> !ProperList(ev(x)) }

  /** The meaning is defined exactly when the spliced values are lists. */
  lemma {:induction false} DefinedByLists(t: Datum, d: Depth, ev: Evaluator)
    requires Accepts(t, d) && PlainVectors(t, d)
    ensures Meaning(t, d, ev).Some? <==> AllLists(SplicedArguments(t, d), ev)
    decreases Size(t)
  {
    hide Prepend, Cars, Terminator, SizeAll, MeaningAll;
    if t.Pair? {
      match Classify(t)
      case Nested(x) => DefinedByLists(x, d + 1, ev);
      case Unquoted(x) => if d > 1 { DefinedByLists(x, d - 1, ev); }
      case Spliced(x, next) =>
        DefinedByLists(next, d, ev);
        if d > 1 { DefinedByLists(x, d - 1, ev); }
      case Plain(car, cdr) =>
        DefinedByLists(car, d, ev);
        DefinedByLists(cdr, d, ev);
      case Malformed =>
    } else if t.Vector? {
      VectorAsList(t.elements, d, ev);
      DefinedByLists(ListOf(t.elements), d, ev);
    }
  }

  lemma {:induction false} EndsProperly(t: Datum, d: Depth, lists: set<Datum>, ev: Evaluator)
    requires Meaning(t, d, ev).Some? && AllLists(lists, ev)
    ensures EndsAsList(t, d, lists) ==> ProperList(Meaning(t, d, ev).value)
    ensures OnlyLists(lists, ev) ==> (EndsAsList(t, d, lists) <==> ProperList(Meaning(t, d, ev).value))
    decreases Size(t)
  {
    hide Size, SizeAll, MeaningAll;
    if t.Pair? {
      match Classify(t)
      case Nested(x) =>
      case Unquoted(x) =>
      case Spliced(x, next) =>
        EndsProperly(next, d, lists, ev);
        if d == 1 { CarsOfPrepend(Cars(ev(x)), Meaning(next, d, ev).value); }
      case Plain(car, cdr) => EndsProperly(cdr, d, lists, ev);
      case Malformed =>
    }
  }

  lemma {:induction false} TailsByEnds(t: Datum, d: Depth, lists: set<Datum>, ev: Evaluator)
    requires Accepts(t, d) && PlainVectors(t, d) && Meaning(t, d, ev).Some? && AllLists(lists, ev)
    ensures TailsEnd(t, d, lists) ==> TailsProper(t, d, ev)
    ensures OnlyLists(lists, ev) ==> (TailsEnd(t, d, lists) <==> TailsProper(t, d, ev))
    decreases Size(t)
  {
    hide Prepend, Cars, Terminator, SizeAll, MeaningAll, EndsAsList, AllLists, OnlyLists;
    if t.Pair? {
      match Classify(t)
      case Nested(x) => TailsByEnds(x, d + 1, lists, ev);
      case Unquoted(x) => if d > 1 { TailsByEnds(x, d - 1, lists, ev); }
      case Spliced(x, next) =>
        TailsByEnds(next, d, lists, ev);
        EndsProperly(next, d, lists, ev);
        if d > 1 { TailsByEnds(x, d - 1, lists, ev); }
      case Plain(car, cdr) =>
        TailsByEnds(car, d, lists, ev);
        TailsByEnds(cdr, d, lists, ev);
      case Malformed =>
    } else if t.Vector? {
      VectorAsList(t.elements, d, ev);
      TailsByEnds(ListOf(t.elements), d, lists, ev);
    }
  }

  ghost predicate AllTailsProper(t: Datum) {
    forall ev: Evaluator :: Meaning(t, 1, ev).Some? ==> TailsProper(t, 1, ev)
  }

  /** Splices have lists as tails for all values exactly when the tails end as lists in the template. */
  lemma {:induction false} TailsExactly(t: Datum)
    requires Accepts(t, 1) && PlainVectors(t, 1)
    ensures AllTailsProper(t) <==> TailsEnd(t, 1, SplicedArguments(t, 1))
  {
    var lists := SplicedArguments(t, 1);
    if TailsEnd(t, 1, lists) {
      forall ev: Evaluator | Meaning(t, 1, ev).Some?
        ensures TailsProper(t, 1, ev)
      {
        DefinedByLists(t, 1, ev);
        TailsByEnds(t, 1, lists, ev);
      }
    }
    if AllTailsProper(t) {
      var ev: Evaluator := (x: Datum) => if x in lists then Empty else Bool(true);
      DefinedByLists(t, 1, ev);
      TailsByEnds(t, 1, lists, ev);
    }
  }

  // ---------------------------------------------------------------- exactly when the code is right

  /** Whether the emitted code is right for every value of the unquoted expressions. */
  ghost predicate Converts(t: Datum) {
    forall ev: Evaluator :: Meaning(t, 1, ev).Some? ==> Outcome(t, 1, ev) == Meaning(t, 1, ev)
  }

  /** The code is right for all values exactly when nothing is lost and no splice can have an improper tail,
      as the template shows. */
  lemma {:induction false} ConvertsExactly(t: Datum)
    requires Accepts(t, 1) && PlainVectors(t, 1)
    ensures Converts(t) <==> !Lost(t, 1) && TailsEnd(t, 1, SplicedArguments(t, 1))
  {
    TailsExactly(t);
    if Lost(t, 1) {
      var c := LongList(Size(t));
      var ev: Evaluator := (x: Datum) => c;
      ConstantMeaning(t, 1, ev, c);
      LostDiffers(t, 1, ev, c);
    } else {
      KeptConverts(t);
    }
  }

  lemma {:induction false} KeptConverts(t: Datum)
    requires PlainVectors(t, 1) && !Lost(t, 1)
    ensures Converts(t) <==> AllTailsProper(t)
  {
    hide Outcome, Meaning, TailsProper;
    forall ev: Evaluator | Meaning(t, 1, ev).Some?
      ensures Outcome(t, 1, ev) == Meaning(t, 1, ev) <==> TailsProper(t, 1, ev)
    {
      OutcomeIsMeaning(t, 1, ev);
    }
    if Converts(t) {
      forall ev: Evaluator | Meaning(t, 1, ev).Some?
        ensures TailsProper(t, 1, ev)
      {
        assert Outcome(t, 1, ev) == Meaning(t, 1, ev);
      }
      assert AllTailsProper(t);
    }
    if AllTailsProper(t) {
      forall ev: Evaluator | Meaning(t, 1, ev).Some?
        ensures Outcome(t, 1, ev) == Meaning(t, 1, ev)
      {
        assert TailsProper(t, 1, ev);
      }
      assert Converts(t);
    }
  }

  ghost function LongList(n: nat): (c: Datum)
    ensures ProperList(c) && Size(c) > n
  {
    if n == 0 then Empty else Pair(Empty, LongList(n - 1))
  }

  /** A nested splice whose tail alone holds an unquotation of level 0: the template comes back as it was. */
  lemma {:induction false} LostTail(b: Datum, c: Datum, ev: Evaluator)
    requires !IsSplicing(b) && !b.Pair? && !b.Vector?
    ensures var unquoted := Pairing(UNQUOTE, Pairing(UNQUOTE, c));
            var t := Pairing(QUASIQUOTE, Pair(Pairing(SPLICING, b), Pair(unquoted, Empty)));
            var value := Pairing(UNQUOTE, ev(c));
            Outcome(t, 1, ev) == Some(t) &&
            Meaning(t, 1, ev) == Some(Pairing(QUASIQUOTE, Pair(Pairing(SPLICING, b), Pair(value, Empty))))
  {
    hide Size, SizeAll, Prepend, Terminator, MeaningAll;
    var unquoted := Pairing(UNQUOTE, Pairing(UNQUOTE, c));
    var next := Pair(unquoted, Empty);
    var list := Pair(Pairing(SPLICING, b), next);
    var t := Pairing(QUASIQUOTE, list);
    assert Classify(Pairing(UNQUOTE, c)) == Unquoted(c);
    assert Classify(unquoted) == Unquoted(Pairing(UNQUOTE, c));
    assert Classify(next) == Plain(unquoted, Empty);
    assert Classify(list) == Spliced(b, next);
    assert Classify(t) == Nested(list);
    assert Meaning(unquoted, 2, ev) == Some(Pairing(UNQUOTE, ev(c))) == Outcome(unquoted, 2, ev);
    assert Meaning(next, 2, ev) == Some(Pair(Pairing(UNQUOTE, ev(c)), Empty)) == Outcome(next, 2, ev);
    assert Seen(unquoted, 2) && Seen(next, 2) && !Seen(b, 1);
    assert Meaning(b, 1, ev) == Some(b) == Outcome(b, 1, ev);
    assert Quoted(SPLICING, Some(b)) == Some(Pairing(SPLICING, b));
    var rebuilt := Pair(Pairing(SPLICING, b), Pair(Pairing(UNQUOTE, ev(c)), Empty));
    assert Meaning(list, 2, ev) == Some(rebuilt) == Outcome(list, 2, ev);
    assert !Seen(list, 2);
  }
}
