/** Reading data (schir/lib/Parser.cpp). */
module Parsing {
  import opened Options
  import opened Utf8
  import opened Ascii
  import opened Lexing
  import opened Literals
  import opened Integers
  import opened Printing

  /** The current token and the text after it. */
  datatype State = State(tok: Token, rest: Bytes)

  /** Consume the current token. */
  function Advance(s: Bytes): State {
    var (tok, rest) := Next(s);
    State(tok, rest)
  }

  /** What is left to consume. */
  function Size(st: State): nat { |st.rest| + if st.tok.kind == Eof then 0 else 1 }

  lemma {:induction false} AdvanceShrinks(st: State)
    requires st.tok.kind != Eof
    ensures Size(Advance(st.rest)) < Size(st)
  {}

  /** The name that a prefix stands for. */
  function AbbreviationOf(kind: Kind): Option<Bytes> {
    match kind
    case QuoteMark => Some(Text("quote"))
    case Quasiquote => Some(Text("quasiquote"))
    case Unquote => Some(Text("unquote"))
    case UnquoteSplicing => Some(Text("unquote-splicing"))
    case _ => None
  }

  /** A datum that is one token.  A number that is not a 32-bit integer is left to floating point. */
  function ParseAtom(tok: Token): Option<Datum> {
    match tok.kind
    case TrueLit => Some(Bool(true))
    case FalseLit => Some(Bool(false))
    case Identifier => Some(Symbol(tok.text))
    case RelaxedIdentifier => Some(Symbol(tok.text))
    case Numeric =>
      if tok.text == [] || ReadInt(tok.text).None? then None else Some(Int(ReadInt(tok.text).value))
    case StringLiteral =>
      if |tok.text| < 2 then None else
        var s := Unquoted(tok.text[1..|tok.text| - 1]);
        if s.None? then None else Some(String(s.value))
    case SymbolLiteral =>
      if |tok.text| < 2 then None else
        var s := Unquoted(tok.text[1..|tok.text| - 1]);
        if s.None? then None else Some(Symbol(s.value))
    case _ => None
  }

  function ParseDatum(st: State): (r: Option<(Datum, State)>)
    ensures r.Some? ==> Size(r.value.1) < Size(st)
    decreases Size(st), 0
  {
    if st.tok.kind == Eof then None
    else
      AdvanceShrinks(st);
      var next := Advance(st.rest);
      if st.tok.kind == LParen then ParseList(next)
      else if st.tok.kind == VectorLParen then ParseVector(next, [])
      else if AbbreviationOf(st.tok.kind).Some? then
        var r := ParseDatum(next);
        if r.None? then None
        else Some((Pair(Symbol(AbbreviationOf(st.tok.kind).value), Pair(r.value.0, Empty)), r.value.1))
      else
        var atom := ParseAtom(st.tok);
        if atom.None? then None else Some((atom.value, next))
  }

  /** The elements of a list up to its closing parenthesis. */
  function ParseList(st: State): (r: Option<(Datum, State)>)
    ensures r.Some? ==> Size(r.value.1) < Size(st)
    decreases Size(st), 1
  {
    if st.tok.kind == RParen then
      AdvanceShrinks(st);
      Some((Empty, Advance(st.rest)))
    else
      var car := ParseDatum(st);
      if car.None? then None
      else
        var cdr := ParseCdr(car.value.1);
        if cdr.None? then None else Some((Pair(car.value.0, cdr.value.0), cdr.value.1))
  }

  function ParseCdr(st: State): (r: Option<(Datum, State)>)
    ensures r.Some? ==> Size(r.value.1) < Size(st)
    decreases Size(st), 2
  {
    if st.tok.kind == Period then ParseDottedCdr(st) else ParseList(st)
  }

  /** One datum after a dot, then the closing parenthesis. */
  function ParseDottedCdr(st: State): (r: Option<(Datum, State)>)
    requires st.tok.kind == Period
    ensures r.Some? ==> Size(r.value.1) < Size(st)
    decreases Size(st), 1
  {
    AdvanceShrinks(st);
    var r := ParseDatum(Advance(st.rest));
    if r.None? || r.value.1.tok.kind != RParen then None
    else
      AdvanceShrinks(r.value.1);
      Some((r.value.0, Advance(r.value.1.rest)))
  }

  /** The elements of a vector after those already read. */
  function ParseVector(st: State, xs: seq<Datum>): (r: Option<(Datum, State)>)
    ensures r.Some? ==> Size(r.value.1) < Size(st)
    decreases Size(st), 1
  {
    if st.tok.kind == RParen then
      AdvanceShrinks(st);
      Some((Vector(xs), Advance(st.rest)))
    else
      var r := ParseDatum(st);
      if r.None? then None else ParseVector(r.value.1, xs + [r.value.0])
  }

  lemma {:induction false} ListIs(st: State)
    ensures ParseList(st) ==
            if st.tok.kind == RParen then Some((Empty, Advance(st.rest)))
            else
              var car := ParseDatum(st);
              if car.None? then None
              else
                var cdr := ParseCdr(car.value.1);
                if cdr.None? then None else Some((Pair(car.value.0, cdr.value.0), cdr.value.1))
  {
    hide ParseDatum, ParseVector, ParseCdr, ParseDottedCdr, Advance;
  }

  lemma {:induction false} CdrIsEither(st: State)
    ensures ParseCdr(st) == if st.tok.kind == Period then ParseDottedCdr(st) else ParseList(st)
  {
    hide ParseDatum, ParseVector, ParseList, ParseDottedCdr, Advance;
  }

  /** Context::ParseLiteral */
  function ParseText(s: Bytes): Option<Datum> {
    var r := ParseDatum(Advance(s));
    if r.None? then None else Some(r.value.0)
  }

  // ---------------------------------------------------------------- the parser

  class Parser {
    var tok: Token
    var lexer: Lexer

    ghost function Current(): State
      reads this, lexer
    {
      State(tok, lexer.rest)
    }

    constructor (s: Bytes)
      ensures fresh(lexer) && Current() == Advance(s)
    {
      tok := Token(Eof, []);
      lexer := new Lexer(s);
      new;
      tok := lexer.Lex();
    }

    method ConsumeToken()
      modifies this, lexer
      ensures lexer == old(lexer) && Current() == Advance(old(lexer.rest))
    {
      tok := lexer.Lex();
    }

    method ParseExpr() returns (r: Option<Datum>)
      modifies this, lexer
      ensures lexer == old(lexer)
      ensures Gives(ParseDatum(old(Current())), r, Current())
      decreases Size(Current()), 0
    {
      var kind, token := tok.kind, tok;
      if kind == Eof {
        return None;
      }
      AdvanceShrinks(Current());
      if kind == LParen {
        ConsumeToken();
        r := ParseElements();
      } else if kind == VectorLParen {
        ConsumeToken();
        r := ParseVectorElements([]);
      } else if AbbreviationOf(kind).Some? {
        ConsumeToken();
        r := ParseExpr();
        if r.Some? {
          r := Some(Pair(Symbol(AbbreviationOf(kind).value), Pair(r.value, Empty)));
        }
      } else {
        r := ParseAtom(token);
        if r.Some? {
          ConsumeToken();
        }
      }
    }

    method ParseElements() returns (r: Option<Datum>)
      modifies this, lexer
      ensures lexer == old(lexer)
      ensures Gives(ParseList(old(Current())), r, Current())
      decreases Size(Current()), 1
    {
      hide ParseDatum, ParseVector, ParseList, ParseCdr, ParseDottedCdr, Advance;
      ListIs(Current());
      if tok.kind == RParen {
        ConsumeToken();
        return Some(Empty);
      }
      var car := ParseExpr();
      if car.None? {
        return None;
      }
      var cdr;
      CdrIsEither(Current());
      if tok.kind == Period {
        cdr := ParseDotted();
      } else {
        cdr := ParseElements();
      }
      if cdr.None? {
        return None;
      }
      return Some(Pair(car.value, cdr.value));
    }

    method ParseDotted() returns (r: Option<Datum>)
      requires tok.kind == Period
      modifies this, lexer
      ensures lexer == old(lexer)
      ensures Gives(ParseDottedCdr(old(Current())), r, Current())
      decreases Size(Current()), 1
    {
      AdvanceShrinks(Current());
      ConsumeToken();
      r := ParseExpr();
      if r.None? || tok.kind != RParen {
        return None;
      }
      ConsumeToken();
    }

    method ParseVectorElements(xs: seq<Datum>) returns (r: Option<Datum>)
      modifies this, lexer
      ensures lexer == old(lexer)
      ensures Gives(ParseVector(old(Current()), xs), r, Current())
      decreases Size(Current()), 1
    {
      if tok.kind == RParen {
        ConsumeToken();
        return Some(Vector(xs));
      }
      var x := ParseExpr();
      if x.None? {
        return None;
      }
      r := ParseVectorElements(xs + [x.value]);
    }
  }

  /** A parse gives a datum and the state after it, or nothing. */
  ghost predicate Gives(spec: Option<(Datum, State)>, r: Option<Datum>, st: State) {
    match spec
    case None => r.None?
    case Some(v) => r == Some(v.0) && st == v.1
  }
}
