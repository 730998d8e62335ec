/** Writing data (the Writer of schir/lib/Context.cpp). */
module Printing {
  import opened Utf8
  import opened Ascii
  import opened Lexing
  import opened Literals
  import opened Integers

  datatype Datum =
    | Empty
    | Bool(b: bool)
    | Int(i: int)
    | String(s: Bytes)
    | Symbol(s: Bytes)
    | Pair(car: Datum, cdr: Datum)
    | Vector(elements: seq<Datum>)

  const DOT: Bytes := [32, '.' as int, 32]

  const SPACE: Bytes := [32]

  const CLOSE: Bytes := [')' as int]

  const OPEN_VECTOR: Bytes := ['#' as int, '(' as int]

  function WriteSymbol(printable: Printable, s: Bytes): Bytes {
    if IsIdentifier(s) then s else Literal(printable, s, '|' as int)
  }

  function Write(printable: Printable, d: Datum): Bytes
    decreases d, 0
  {
    match d
    case Empty => Letter('(') + CLOSE
    case Bool(b) => Letter('#') + Letter(if b then 't' else 'f')
    case Int(i) => WriteInt(i)
    case String(s) => Literal(printable, s, '"' as int)
    case Symbol(s) => WriteSymbol(printable, s)
    case Pair(car, cdr) => Letter('(') + Write(printable, car) + WriteCdr(printable, cdr)
    case Vector(xs) => OPEN_VECTOR + WriteElements(printable, xs) + CLOSE
  }

  /** The rest of a list. */
  function WriteCdr(printable: Printable, d: Datum): Bytes
    decreases d, 1
  {
    match d
    case Pair(car, cdr) => SPACE + Write(printable, car) + WriteCdr(printable, cdr)
    case Empty => CLOSE
    case _ => DOT + Write(printable, d) + CLOSE
  }

  function WriteElements(printable: Printable, xs: seq<Datum>): Bytes
    decreases xs, 0
  {
    if xs == [] then []
    else if |xs| == 1 then Write(printable, xs[0])
    else Write(printable, xs[0]) + SPACE + WriteElements(printable, xs[1..])
  }

  lemma {:induction false} WriteAtom(printable: Printable, d: Datum)
    ensures d == Empty ==> Write(printable, d) == Letter('(') + CLOSE
    ensures d.Bool? ==> Write(printable, d) == Letter('#') + Letter(if d.b then 't' else 'f')
    ensures d.Int? ==> Write(printable, d) == WriteInt(d.i)
    ensures d.String? ==> Write(printable, d) == Literal(printable, d.s, '"' as int)
    ensures d.Symbol? ==> Write(printable, d) == WriteSymbol(printable, d.s)
  {
    hide WriteCdr, WriteElements, WriteSymbol, WriteInt, Literal;
  }

  lemma {:induction false} WriteCompound(printable: Printable, d: Datum)
    ensures d.Pair? ==> Write(printable, d) == Letter('(') + Write(printable, d.car) + WriteCdr(printable, d.cdr)
    ensures d.Vector? ==> Write(printable, d) == OPEN_VECTOR + WriteElements(printable, d.elements) + CLOSE
  {
    hide WriteCdr, WriteElements, WriteSymbol, WriteInt, Literal;
  }

  lemma {:induction false} CdrIs(printable: Printable, d: Datum)
    ensures WriteCdr(printable, d)
         == if d.Pair? then SPACE + Write(printable, d.car) + WriteCdr(printable, d.cdr)
            else if d.Empty? then CLOSE
            else DOT + Write(printable, d) + CLOSE
  {
    hide Write, WriteElements;
  }

  lemma {:induction false} ElementsCons(printable: Printable, x: Datum, xs: seq<Datum>)
    ensures WriteElements(printable, [x]) == Write(printable, x)
    ensures xs != [] ==>
      WriteElements(printable, [x] + xs) == Write(printable, x) + SPACE + WriteElements(printable, xs)
  {
    hide Write, WriteCdr;
    assert ([x] + xs)[1..] == xs;
  }

  lemma {:induction false} ElementsSnoc(printable: Printable, xs: seq<Datum>, x: Datum)
    requires xs != []
    ensures WriteElements(printable, xs + [x]) == WriteElements(printable, xs) + SPACE + Write(printable, x)
  {
    hide Write, WriteElements;
    if |xs| == 1 {
      assert xs + [x] == [xs[0]] + [x] && xs == [xs[0]];
      ElementsCons(printable, xs[0], [x]);
      ElementsCons(printable, x, []);
    } else {
      assert xs + [x] == [xs[0]] + (xs[1..] + [x]) && xs == [xs[0]] + xs[1..];
      ElementsSnoc(printable, xs[1..], x);
      ElementsCons(printable, xs[0], xs[1..] + [x]);
      ElementsCons(printable, xs[0], xs[1..]);
    }
  }

  lemma {:induction false} NoElements(printable: Printable)
    ensures WriteElements(printable, []) == []
  {}

  /** The texts of some data with a space between them. */
  function Spaced(printable: Printable, xs: seq<Datum>): Bytes
    decreases xs, 1
  {
    if xs == [] then []
    else if |xs| == 1 then Write(printable, xs[0])
    else Spaced(printable, xs[..|xs| - 1]) + SPACE + Write(printable, xs[|xs| - 1])
  }

  /** The pairs of some data, which end in another datum. */
  function PairsOf(xs: seq<Datum>, end: Datum): Datum {
    if xs == [] then end else Pair(xs[0], PairsOf(xs[1..], end))
  }

  lemma {:induction false} SpacedCons(printable: Printable, x: Datum, xs: seq<Datum>)
    requires xs != []
    ensures Spaced(printable, [x] + xs) == Write(printable, x) + SPACE + Spaced(printable, xs)
  {
    hide Write;
    var all := [x] + xs;
    assert all[|all| - 1] == xs[|xs| - 1];
    if |xs| == 1 {
      assert all[..1] == [x];
    } else {
      assert all[..|all| - 1] == [x] + xs[..|xs| - 1];
      SpacedCons(printable, x, xs[..|xs| - 1]);
    }
  }

  lemma {:induction false} CdrIsWritten(printable: Printable, xs: seq<Datum>, end: Datum)
    requires !end.Pair?
    ensures WriteCdr(printable, PairsOf(xs, end)) ==
      (if xs == [] then [] else SPACE + Spaced(printable, xs)) +
      (if end.Empty? then CLOSE else DOT + Write(printable, end) + CLOSE)
  {
    hide Write, WriteCdr, Spaced;
    var close := if end.Empty? then CLOSE else DOT + Write(printable, end) + CLOSE;
    CdrIs(printable, PairsOf(xs, end));
    if xs == [] {
      assert [] + close == close;
    } else {
      CdrIsWritten(printable, xs[1..], end);
      assert xs == [xs[0]] + xs[1..];
      SpacedOne(printable, xs[0]);
      if |xs| == 1 {
        assert xs == [xs[0]];
        assert [] + close == close;
      } else {
        SpacedCons(printable, xs[0], xs[1..]);
        var w, t := Write(printable, xs[0]), Spaced(printable, xs[1..]);
        assert SPACE + w + (SPACE + t + close) == SPACE + (w + SPACE + t) + close;
      }
    }
  }

  lemma {:induction false} SpacedOne(printable: Printable, x: Datum)
    ensures Spaced(printable, [x]) == Write(printable, x)
  {}

  /** A list is written as its elements with spaces between them, and its end after a dot unless it is empty. */
  lemma {:induction false} ListIsWritten(printable: Printable, xs: seq<Datum>, end: Datum)
    requires xs != [] && !end.Pair?
    ensures Write(printable, PairsOf(xs, end)) ==
      Letter('(') + Spaced(printable, xs) + (if end.Empty? then [] else DOT + Write(printable, end)) + CLOSE
  {
    hide Write, WriteCdr, Spaced;
    WriteCompound(printable, PairsOf(xs, end));
    CdrIsWritten(printable, xs[1..], end);
    assert xs == [xs[0]] + xs[1..];
    SpacedOne(printable, xs[0]);
    var w, end := Write(printable, xs[0]), if end.Empty? then [] else DOT + Write(printable, end);
    if |xs| == 1 {
      assert xs == [xs[0]];
      assert Letter('(') + w + ([] + (end + CLOSE)) == Letter('(') + w + end + CLOSE;
      assert [] + CLOSE == CLOSE;
    } else {
      SpacedCons(printable, xs[0], xs[1..]);
      var t := Spaced(printable, xs[1..]);
      assert Letter('(') + w + (SPACE + t + (end + CLOSE)) == Letter('(') + (w + SPACE + t) + end + CLOSE;
      assert [] + CLOSE == CLOSE;
    }
  }

  /** A vector is written as its elements with spaces between them. */
  lemma {:induction false} VectorIsWritten(printable: Printable, xs: seq<Datum>)
    ensures Write(printable, Vector(xs)) == OPEN_VECTOR + Spaced(printable, xs) + CLOSE
  {
    hide Write;
    WriteCompound(printable, Vector(xs));
    ElementsAreSpaced(printable, xs);
  }

  lemma {:induction false} ElementsAreSpaced(printable: Printable, xs: seq<Datum>)
    ensures WriteElements(printable, xs) == Spaced(printable, xs)
    decreases |xs|
  {
    hide Write;
    if |xs| > 1 {
      var front, last := xs[..|xs| - 1], xs[|xs| - 1];
      assert xs == front + [last];
      ElementsSnoc(printable, front, last);
      ElementsAreSpaced(printable, front);
    }
  }

  /** A symbol is written without vertical lines exactly when it is an identifier of the standard, no number,
      and has no @ after its first character. */
  lemma {:induction false} SymbolIsWritten(printable: Printable, s: Bytes)
    ensures Write(printable, Symbol(s)) == s <==>
      IsStandardIdentifier(s) && !IsNumberLike(s) && '@' as int !in s[1..]
  {
    hide Escaped, IsStandardIdentifier, IsNumberLike, IsIdentifier;
    WriteAtom(printable, Symbol(s));
    IdentifierExactly(s);
    EscapedExactly(printable, s, '|' as int);
  }

  class Writer {
    const printable: Printable
    var out: Bytes

    constructor (printable: Printable)
      ensures out == [] && this.printable == printable
    {
      this.printable := printable;
      out := [];
    }

    method Visit(d: Datum)
      modifies this
      ensures out == old(out) + Write(printable, d)
      decreases d, 1
    {
      hide Write, WriteCdr, WriteElements, WriteInt, Literal, IsIdentifier;
      WriteAtom(printable, d);
      WriteCompound(printable, d);
      match d
      case Empty => out := out + (Letter('(') + CLOSE);
      case Bool(b) => out := out + (Letter('#') + Letter(if b then 't' else 'f'));
      case Int(i) => out := out + WriteInt(i);
      case String(s) =>
        var text := WriteLiteral(printable, s, '"' as int);
        out := out + text;
      case Symbol(s) =>
        if IsIdentifier(s) {
          out := out + s;
        } else {
          var text := WriteLiteral(printable, s, '|' as int);
          out := out + text;
        }
      case Pair(car, cdr) =>
        out := out + Letter('(');
        Visit(car);
        VisitCdr(cdr);
      case Vector(xs) => VisitVector(d);
    }

    /** Print the rest of a list. */
    method VisitCdr(d: Datum)
      modifies this
      ensures out == old(out) + WriteCdr(printable, d)
      decreases d, 2
    {
      hide Write, WriteCdr;
      var cdr := d;
      while cdr.Pair?
        invariant out + WriteCdr(printable, cdr) == old(out) + WriteCdr(printable, d)
        invariant cdr == d || cdr < d
        decreases cdr
      {
        CdrIs(printable, cdr);
        out := out + SPACE;
        Visit(cdr.car);
        cdr := cdr.cdr;
      }
      CdrIs(printable, cdr);
      if !cdr.Empty? {
        out := out + DOT;
        Visit(cdr);
      }
      out := out + CLOSE;
    }

    method VisitVector(d: Datum)
      requires d.Vector?
      modifies this
      ensures out == old(out) + (OPEN_VECTOR + WriteElements(printable, d.elements) + CLOSE)
      decreases d, 0
    {
      hide Write, WriteElements;
      var xs := d.elements;
      NoElements(printable);
      out := out + OPEN_VECTOR;
      if |xs| > 0 {
        Visit(xs[0]);
        assert xs[..1] == [xs[0]];
        ElementsCons(printable, xs[0], []);
        for i := 1 to |xs|
          invariant out == old(out) + OPEN_VECTOR + WriteElements(printable, xs[..i])
        {
          assert xs[..i + 1] == xs[..i] + [xs[i]];
          ElementsSnoc(printable, xs[..i], xs[i]);
          out := out + SPACE;
          Visit(xs[i]);
        }
        assert xs[..|xs|] == xs;
      }
      out := out + CLOSE;
    }
  }
}
