/** A datum that is written is read back (the contract of SchirValueAttr in schir/lib/Dialect.cpp). */
module RoundTrip {
  import opened Options
  import opened Utf8
  import opened Ascii
  import opened Lexing
  import opened Literals
  import opened Integers
  import opened Printing
  import opened Parsing

  /** Integers have 32 bits. */
  predicate IsDatum(d: Datum) {
    match d
    case Int(i) => IsInt32(i)
    case Pair(car, cdr) => IsDatum(car) && IsDatum(cdr)
    case Vector(xs) => AreData(xs)
    case _ => true
  }

  predicate AreData(xs: seq<Datum>) {
    xs == [] || (IsDatum(xs[0]) && AreData(xs[1..]))
  }

  /** What a datum is read back as. */
  function Reread(printable: Printable, d: Datum): Datum {
    match d
    case String(s) => String(ReadBack(printable, s))
    case Symbol(s) => if IsIdentifier(s) then d else Symbol(ReadBack(printable, s))
    case Pair(car, cdr) => Pair(Reread(printable, car), Reread(printable, cdr))
    case Vector(xs) => Vector(RereadAll(printable, xs))
    case _ => d
  }

  function RereadAll(printable: Printable, xs: seq<Datum>): seq<Datum> {
    if xs == [] then [] else [Reread(printable, xs[0])] + RereadAll(printable, xs[1..])
  }

  /** Strings, and symbols that are not identifiers, are clean. */
  predicate CleanDatum(printable: Printable, d: Datum) {
    match d
    case String(s) => Clean(printable, s)
    case Symbol(s) => IsIdentifier(s) || Clean(printable, s)
    case Pair(car, cdr) => CleanDatum(printable, car) && CleanDatum(printable, cdr)
    case Vector(xs) => AllClean(printable, xs)
    case _ => true
  }

  predicate AllClean(printable: Printable, xs: seq<Datum>) {
    xs == [] || (CleanDatum(printable, xs[0]) && AllClean(printable, xs[1..]))
  }

  // ---------------------------------------------------------------- tokens

  lemma {:induction false} AdvanceSpace(s: Bytes)
    ensures Advance(SPACE + s) == Advance(s)
  {
    assert (SPACE + s)[1..] == s;
  }

  /** A token of one character. */
  lemma {:induction false} AdvanceMark(c: char, kind: Kind, s: Bytes)
    requires (c == '(' && kind == LParen) || (c == ')' && kind == RParen)
    ensures Advance(Letter(c) + s) == State(Token(kind, Letter(c)), s)
  {
    var t := Letter(c) + s;
    SkipNothing(t);
    assert t[..1] == Letter(c) && t[1..] == s;
  }

  lemma {:induction false} AdvanceVector(s: Bytes)
    ensures Advance(OPEN_VECTOR + s) == State(Token(VectorLParen, OPEN_VECTOR), s)
  {
    var t := OPEN_VECTOR + s;
    SkipNothing(t);
    assert t[..2] == OPEN_VECTOR && t[2..] == s;
  }

  lemma {:induction false} AdvanceDot(s: Bytes)
    ensures Advance(DOT + s) == State(Token(Period, ['.' as int]), SPACE + s)
  {
    var t := ['.' as int] + (SPACE + s);
    assert DOT + s == SPACE + t;
    AdvanceSpace(t);
    SkipNothing(t);
    assert t[..1] == ['.' as int] && t[1..] == SPACE + s;
  }

  lemma {:induction false} AdvanceBool(b: bool, rest: Bytes)
    requires EndsToken(rest)
    ensures var text := Letter('#') + Letter(if b then 't' else 'f');
      Advance(text + rest) == State(Token(if b then TrueLit else FalseLit, text), rest)
  {
    var text := Letter('#') + Letter(if b then 't' else 'f');
    var t := text + rest;
    SkipNothing(t);
    assert t[..2] == text && t[2..] == rest;
    assert rest != [] ==> t[2] == rest[0];
  }

  // ---------------------------------------------------------------- reading

  predicate BeginsDatum(kind: Kind) { kind != RParen && kind != Period && kind != Eof }

  /** The written text is read as the datum, up to the rest. */
  ghost predicate Reads(printable: Printable, d: Datum, rest: Bytes) {
    var st := Advance(Write(printable, d) + rest);
    BeginsDatum(st.tok.kind) && ParseDatum(st) == Some((Reread(printable, d), Advance(rest)))
  }

  lemma {:induction false} AtomReads(printable: Printable, d: Datum, rest: Bytes, tok: Token)
    requires Advance(Write(printable, d) + rest) == State(tok, rest)
    requires BeginsDatum(tok.kind) && AbbreviationOf(tok.kind).None? && tok.kind != LParen && tok.kind != VectorLParen
    requires ParseAtom(tok) == Some(Reread(printable, d))
    ensures Reads(printable, d, rest)
  {
    hide Advance, Write, ParseList, ParseVector, ParseAtom, Reread;
  }

  lemma {:induction false} SimpleReads(printable: Printable, d: Datum, rest: Bytes)
    requires EndsToken(rest) && !printable(0) && IsDatum(d) && !d.Pair? && !d.Vector? && !d.Empty?
    ensures Reads(printable, d, rest)
  {
    match d
    case Bool(b) => BoolReads(printable, b, rest);
    case Int(i) => IntReads(printable, i, rest);
    case String(s) => StringReads(printable, s, rest);
    case Symbol(s) => SymbolReads(printable, s, rest);
  }

  lemma {:induction false} BoolReads(printable: Printable, b: bool, rest: Bytes)
    requires EndsToken(rest)
    ensures Reads(printable, Bool(b), rest)
  {
    hide Write, Advance, Reads;
    WriteAtom(printable, Bool(b));
    AdvanceBool(b, rest);
    AtomReads(printable, Bool(b), rest,
              Token(if b then TrueLit else FalseLit, Letter('#') + Letter(if b then 't' else 'f')));
  }

  lemma {:induction false} IntReads(printable: Printable, i: int, rest: Bytes)
    requires EndsToken(rest) && IsInt32(i)
    ensures Reads(printable, Int(i), rest)
  {
    hide Write, Reads, WriteInt, ReadInt, Next;
    WriteAtom(printable, Int(i));
    IntegerToken(i, rest);
    IntegerRoundTrip(i);
    AtomReads(printable, Int(i), rest, Token(Numeric, WriteInt(i)));
  }

  lemma {:induction false} StringReads(printable: Printable, s: Bytes, rest: Bytes)
    requires !printable(0)
    ensures Reads(printable, String(s), rest)
  {
    hide Write, Reads, Literal, Unquoted, ReadBack, Next;
    var text := Literal(printable, s, '"' as int);
    WriteAtom(printable, String(s));
    LiteralToken(printable, s, '"' as int, rest);
    LiteralIsLong(printable, s, '"' as int);
    AtomReads(printable, String(s), rest, Token(StringLiteral, text));
  }

  lemma {:induction false} SymbolReads(printable: Printable, s: Bytes, rest: Bytes)
    requires EndsToken(rest) && !printable(0)
    ensures Reads(printable, Symbol(s), rest)
  {
    hide Write, Reads, Literal, Unquoted, ReadBack, Next, IsIdentifier;
    WriteAtom(printable, Symbol(s));
    if IsIdentifier(s) {
      IdentifierInContext(s, rest);
      AtomReads(printable, Symbol(s), rest, Token(Identifier, s));
    } else {
      LiteralToken(printable, s, '|' as int, rest);
      LiteralIsLong(printable, s, '|' as int);
      AtomReads(printable, Symbol(s), rest, Token(SymbolLiteral, Literal(printable, s, '|' as int)));
    }
  }

  lemma {:induction false} LiteralIsLong(printable: Printable, s: Bytes, mark: Byte)
    ensures |Literal(printable, s, mark)| >= 2
  {}

  /** The written rest of a list begins with a delimiter. */
  lemma {:induction false} CdrEndsToken(printable: Printable, d: Datum, rest: Bytes)
    ensures EndsToken(WriteCdr(printable, d) + rest)
  {
    hide Write, WriteCdr;
    CdrIs(printable, d);
  }

  lemma {:induction false} EmptyReads(printable: Printable, rest: Bytes)
    ensures Reads(printable, Empty, rest)
  {
    hide Advance, Write, ParseList, ParseVector;
    WriteAtom(printable, Empty);
    assert Write(printable, Empty) + rest == Letter('(') + (Letter(')') + rest);
    AdvanceMark('(', LParen, Letter(')') + rest);
    AdvanceMark(')', RParen, rest);
    ListIs(Advance(Letter(')') + rest));
  }

  /** ( car . cdr: the parenthesis, the first datum and the rest of the list. */
  lemma {:induction false} PairReads(printable: Printable, d: Datum, rest: Bytes, back: Bytes)
    requires d.Pair? && back == WriteCdr(printable, d.cdr) + rest
    requires Reads(printable, d.car, back)
    requires ParseCdr(Advance(back)) == Some((Reread(printable, d.cdr), Advance(rest)))
    ensures Reads(printable, d, rest)
  {
    hide Advance, Write, WriteCdr, ParseCdr, ParseVector;
    var front := Write(printable, d.car) + back;
    WriteCompound(printable, d);
    assert Write(printable, d) + rest == Letter('(') + front;
    AdvanceMark('(', LParen, front);
    ListIs(Advance(front));
  }

  lemma {:induction false} VectorReads(printable: Printable, d: Datum, rest: Bytes)
    requires d.Vector?
    requires ParseVector(Advance(WriteElements(printable, d.elements) + (CLOSE + rest)), [])
          == Some((Vector(RereadAll(printable, d.elements)), Advance(rest)))
    ensures Reads(printable, d, rest)
  {
    hide Advance, Write, WriteElements, ParseVector, ParseList;
    var front := WriteElements(printable, d.elements) + (CLOSE + rest);
    WriteCompound(printable, d);
    assert Write(printable, d) + rest == OPEN_VECTOR + front;
    AdvanceVector(front);
  }

  /** A written datum is read back, whatever delimiter follows. */
  lemma {:induction false} WrittenReads(printable: Printable, d: Datum, rest: Bytes)
    requires EndsToken(rest) && !printable(0) && IsDatum(d)
    ensures Reads(printable, d, rest)
    decreases d, 1
  {
    hide Reads, Advance, Write, WriteCdr, WriteElements, ParseCdr, ParseVector, RereadAll;
    match d
    case Empty => EmptyReads(printable, rest);
    case Pair(car, cdr) =>
      var back := WriteCdr(printable, cdr) + rest;
      CdrEndsToken(printable, cdr, rest);
      WrittenReads(printable, car, back);
      CdrReads(printable, cdr, rest);
      PairReads(printable, d, rest, back);
    case Vector(xs) =>
      ElementsRead(printable, xs, [], rest);
      assert [] + RereadAll(printable, xs) == RereadAll(printable, xs);
      VectorReads(printable, d, rest);
    case _ => SimpleReads(printable, d, rest);
  }

  lemma {:induction false} CdrReads(printable: Printable, d: Datum, rest: Bytes)
    requires EndsToken(rest) && !printable(0) && IsDatum(d)
    ensures ParseCdr(Advance(WriteCdr(printable, d) + rest)) == Some((Reread(printable, d), Advance(rest)))
    decreases d, 2
  {
    hide Advance, Write, WriteCdr, ParseDatum, ParseList, ParseCdr, ParseVector;
    CdrIs(printable, d);
    if d.Pair? {
      var back := WriteCdr(printable, d.cdr) + rest;
      var front := Write(printable, d.car) + back;
      assert WriteCdr(printable, d) + rest == SPACE + front;
      AdvanceSpace(front);
      CdrEndsToken(printable, d.cdr, rest);
      WrittenReads(printable, d.car, back);
      CdrReads(printable, d.cdr, rest);
      CdrIsEither(Advance(front));
      ListIs(Advance(front));
    } else if d.Empty? {
      AdvanceMark(')', RParen, rest);
      CdrIsEither(Advance(CLOSE + rest));
      ListIs(Advance(CLOSE + rest));
    } else {
      var front := Write(printable, d) + (CLOSE + rest);
      assert WriteCdr(printable, d) + rest == DOT + front;
      AdvanceDot(front);
      AdvanceSpace(front);
      WrittenReads(printable, d, CLOSE + rest);
      AdvanceMark(')', RParen, rest);
      CdrIsEither(Advance(DOT + front));
      DottedReads(Advance(DOT + front), front, Reread(printable, d), rest);
    }
  }

  lemma {:induction false} DottedReads(st: State, front: Bytes, d: Datum, rest: Bytes)
    requires st.tok.kind == Period && Advance(st.rest) == Advance(front)
    requires ParseDatum(Advance(front)) == Some((d, Advance(CLOSE + rest)))
    ensures ParseDottedCdr(st) == Some((d, Advance(rest)))
  {
    hide Advance, ParseDatum;
    AdvanceMark(')', RParen, rest);
  }

  lemma {:induction false} ElementsRead(printable: Printable, xs: seq<Datum>, done: seq<Datum>, rest: Bytes)
    requires EndsToken(rest) && !printable(0) && AreData(xs)
    ensures ParseVector(Advance(WriteElements(printable, xs) + (CLOSE + rest)), done)
         == Some((Vector(done + RereadAll(printable, xs)), Advance(rest)))
    decreases xs
  {
    hide Advance, Write, WriteCdr, WriteElements, ParseDatum, ParseVector;
    var end := CLOSE + rest;
    AdvanceMark(')', RParen, rest);
    if xs == [] {
      NoElements(printable);
      assert [] + end == end && done + [] == done;
      VectorEnds(Advance(end), done);
    } else {
      var x, r := xs[0], xs[1..];
      var y := Reread(printable, x);
      assert xs == [x] + r;
      ElementsRead(printable, r, done + [y], rest);
      assert done + [y] + RereadAll(printable, r) == done + RereadAll(printable, xs);
      var after := WriteElements(printable, r) + end;
      var back := if r == [] then end else SPACE + after;
      ElementsFront(printable, x, r, end);
      AdvanceSpace(after);
      WrittenReads(printable, x, back);
      VectorStep(Advance(Write(printable, x) + back), done, y, Advance(after));
    }
  }

  lemma {:induction false} ElementsFront(printable: Printable, x: Datum, r: seq<Datum>, end: Bytes)
    ensures WriteElements(printable, [x] + r) + end
         == Write(printable, x) + if r == [] then end else SPACE + (WriteElements(printable, r) + end)
    ensures r == [] ==> WriteElements(printable, r) + end == end
  {
    hide Write, WriteElements;
    ElementsCons(printable, x, r);
    NoElements(printable);
    if r == [] {
      assert [x] + r == [x] && [] + end == end;
    } else {
      var w, e := Write(printable, x), WriteElements(printable, r);
      assert w + SPACE + e + end == w + (SPACE + (e + end));
    }
  }

  lemma {:induction false} VectorEnds(st: State, done: seq<Datum>)
    requires st.tok.kind == RParen
    ensures ParseVector(st, done) == Some((Vector(done), Advance(st.rest)))
  {
    hide Advance, ParseDatum;
  }

  lemma {:induction false} VectorStep(st: State, done: seq<Datum>, y: Datum, next: State)
    requires st.tok.kind != RParen && ParseDatum(st) == Some((y, next))
    ensures ParseVector(st, done) == ParseVector(next, done + [y])
  {
    hide Advance, ParseDatum;
  }

  // ---------------------------------------------------------------- the contract

  lemma {:induction false} RereadIsSame(printable: Printable, d: Datum)
    ensures Reread(printable, d) == d <==> CleanDatum(printable, d)
    decreases d
  {
    match d
    case String(s) => ReadBackIsSame(printable, s);
    case Symbol(s) => ReadBackIsSame(printable, s);
    case Pair(car, cdr) =>
      RereadIsSame(printable, car);
      RereadIsSame(printable, cdr);
    case Vector(xs) => RereadAllIsSame(printable, xs);
    case _ =>
  }

  lemma {:induction false} RereadAllIsSame(printable: Printable, xs: seq<Datum>)
    ensures RereadAll(printable, xs) == xs <==> AllClean(printable, xs)
    decreases xs
  {
    if xs != [] {
      var y, r := Reread(printable, xs[0]), RereadAll(printable, xs[1..]);
      RereadIsSame(printable, xs[0]);
      RereadAllIsSame(printable, xs[1..]);
      assert xs == [xs[0]] + xs[1..];
      if [y] + r == xs {
        assert ([y] + r)[0] == xs[0] && ([y] + r)[1..] == r && xs[1..] == r;
      }
    }
  }

  /** Writing a datum and reading the text gives back the datum exactly when every
      byte beyond ASCII in it belongs to a printable code point. */
  lemma {:induction false} WriteThenRead(printable: Printable, d: Datum)
    requires !printable(0) && IsDatum(d)
    ensures ParseText(Write(printable, d)) == Some(Reread(printable, d))
    ensures ParseText(Write(printable, d)) == Some(d) <==> CleanDatum(printable, d)
  {
    hide Write, Advance, ParseDatum;
    WrittenReads(printable, d, []);
    assert Write(printable, d) + [] == Write(printable, d);
    RereadIsSame(printable, d);
  }
}
