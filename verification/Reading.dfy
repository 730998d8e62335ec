/**
 Reading data in any of their external representations (section 7.1.2 of R7RS): with white space of any kind,
 abbreviations, and dots where the writer has none.
 */
module Reading {
  import opened Options
  import opened Utf8
  import opened Ascii
  import opened Lexing
  import opened Integers
  import opened Printing
  import opened Parsing
  import opened RoundTrip
  import Quasiquotes

  // ---------------------------------------------------------------- white space and delimiters

  /** whitespace of section 7.1.1 of R7RS */
  predicate IsGap(w: Bytes) { forall b :: b in w ==> b == 9 || b == 10 || b == 13 || b == 32 }

  lemma {:induction false} AdvanceGap(w: Bytes, s: Bytes)
    requires IsGap(w)
    ensures Advance(w + s) == Advance(s) && (w != [] || EndsToken(s) ==> EndsToken(w + s))
  {
    if w == [] {
      assert w + s == s;
    } else {
      hide LexFront;
      var v := w[1..];
      assert w == [w[0]] + v && (w + s)[1..] == v + s;
      assert w[0] in w && forall b :: b in v ==> b in w;
      AdvanceGap(v, s);
    }
  }

  /** delimiter of section 7.1.1 of R7RS: a character is one for the lexer when it is one by the standard, or
      a bracket, a brace, a vertical tab, a form feed or the end. */
  lemma {:induction false} DelimiterExactly(b: Byte)
    ensures IsDelimiter(b) <==>
      b in {9, 10, 13, 32, '|' as int, '(' as int, ')' as int, '"' as int, ';' as int} ||
      b in {0, 11, 12, '[' as int, ']' as int, '{' as int, '}' as int}
  {}

  // ---------------------------------------------------------------- forms

  /** The abbreviations. */
  datatype Prefix = Quote | Backquote | Comma | CommaAt

  /** A datum as it may be written: an atom with any text that reads as it, a prefix and what it is on, or
      elements with gaps after them, in a list with a tail after a dot or without. */
  datatype Form =
    | Atom(text: Bytes, d: Datum)
    | Prefixed(prefix: Prefix, gap: Bytes, form: Form)
    | List(gap: Bytes, items: seq<Item>, tail: Option<Tail>)
    | VectorForm(gap: Bytes, items: seq<Item>)

  datatype Item = Item(form: Form, gap: Bytes)

  datatype Tail = Tail(before: Bytes, form: Form, after: Bytes)

  function PrefixText(p: Prefix): Bytes {
    match p
    case Quote => Text("'")
    case Backquote => Text("`")
    case Comma => Text(",")
    case CommaAt => Text(",@")
  }

  /** The names of the abbreviations in section 2.1 of R7RS. */
  function PrefixName(p: Prefix): Bytes {
    match p
    case Quote => Text("quote")
    case Backquote => Text("quasiquote")
    case Comma => Text("unquote")
    case CommaAt => Text("unquote-splicing")
  }

  function FormText(f: Form): Bytes
    decreases f, 0
  {
    match f
    case Atom(text, _) => text
    case Prefixed(p, gap, form) => PrefixText(p) + gap + FormText(form)
    case List(gap, items, tail) => Text("(") + (gap + ItemsText(items, TailText(tail, Text(")"))))
    case VectorForm(gap, items) => Text("#(") + (gap + ItemsText(items, Text(")")))
  }

  /** The text of elements and what follows them. */
  function ItemsText(items: seq<Item>, rest: Bytes): Bytes
    decreases items, 0
  {
    if items == [] then rest else FormText(items[0].form) + (items[0].gap + ItemsText(items[1..], rest))
  }

  function TailText(tail: Option<Tail>, rest: Bytes): Bytes
    decreases tail, 0
  {
    match tail
    case None => rest
    case Some(t) => Text(".") + (t.before + (FormText(t.form) + (t.after + rest)))
  }

  /** The datum that a form stands for. */
  function Denoted(f: Form): Datum
    decreases f, 0
  {
    match f
    case Atom(_, d) => d
    case Prefixed(p, _, form) => Pair(Symbol(PrefixName(p)), Pair(Denoted(form), Empty))
    case List(_, items, tail) => ListDenoted(items, if tail.Some? then Denoted(tail.value.form) else Empty)
    case VectorForm(_, items) => Vector(AllDenoted(items))
  }

  function ListDenoted(items: seq<Item>, end: Datum): Datum
    decreases items, 0
  {
    if items == [] then end else Pair(Denoted(items[0].form), ListDenoted(items[1..], end))
  }

  function AllDenoted(items: seq<Item>): seq<Datum>
    decreases items, 0
  {
    if items == [] then [] else [Denoted(items[0].form)] + AllDenoted(items[1..])
  }

  /** A text that is one token before a delimiter and reads as the datum. */
  ghost predicate IsAtom(text: Bytes, d: Datum) {
    text != [] && forall rest :: EndsToken(rest) ==> AtomAt(text, d, rest)
  }

  ghost predicate AtomAt(text: Bytes, d: Datum, rest: Bytes) {
    var st := Advance(text + rest);
    && st == State(st.tok, rest) && ParseAtom(st.tok) == Some(d) && BeginsDatum(st.tok.kind)
    && AbbreviationOf(st.tok.kind).None? && st.tok.kind != LParen && st.tok.kind != VectorLParen
  }

  /** Whether a delimiter has to follow. */
  predicate NeedsEnd(f: Form) {
    match f
    case Atom(_, _) => true
    case Prefixed(_, _, form) => NeedsEnd(form)
    case _ => false
  }

  /** Gaps are white space, and tokens are kept apart. */
  ghost predicate IsForm(f: Form)
    decreases f, 0
  {
    match f
    case Atom(text, d) => IsAtom(text, d)
    case Prefixed(p, gap, form) =>
      IsGap(gap) && IsForm(form) && (p == Comma ==> !StartsWith(gap + FormText(form), '@'))
    case List(gap, items, tail) =>
      IsGap(gap) && AreItems(items, TailText(tail, Text(")"))) && (tail.Some? ==> items != [] && IsTail(tail.value))
    case VectorForm(gap, items) => IsGap(gap) && AreItems(items, Text(")"))
  }

  ghost predicate AreItems(items: seq<Item>, rest: Bytes)
    decreases items, 0
  {
    items == [] ||
    (IsForm(items[0].form) && IsGap(items[0].gap) && AreItems(items[1..], rest) &&
     (NeedsEnd(items[0].form) ==> EndsToken(items[0].gap + ItemsText(items[1..], rest))))
  }

  ghost predicate IsTail(t: Tail)
    decreases t, 0
  {
    && IsGap(t.before) && IsForm(t.form) && IsGap(t.after)
    && EndsToken(t.before + (FormText(t.form) + (t.after + Text(")"))))
  }

  // ---------------------------------------------------------------- reading forms

  /** The text is read as the datum, up to the rest. */
  ghost predicate ReadsAs(text: Bytes, d: Datum, rest: Bytes) {
    var st := Advance(text + rest);
    BeginsDatum(st.tok.kind) && ParseDatum(st) == Some((d, Advance(rest)))
  }

  lemma {:induction false} AtomIsRead(text: Bytes, d: Datum, rest: Bytes)
    requires AtomAt(text, d, rest)
    ensures ReadsAs(text, d, rest)
  {
    hide Advance, ParseAtom, ParseList, ParseVector;
  }

  lemma {:induction false} PrefixIsRead(p: Prefix, s: Bytes)
    requires p == Comma ==> !StartsWith(s, '@')
    ensures var st := Advance(PrefixText(p) + s);
      st.rest == s && BeginsDatum(st.tok.kind) && AbbreviationOf(st.tok.kind) == Some(PrefixName(p))
  {
    hide LexLiteral, LexIdentifier, LexNumber, LexNumberOrIdentifier, LexSharp;
    var t := PrefixText(p) + s;
    SkipNothing(t);
    assert |PrefixText(p)| == 1 ==> t[..1] == PrefixText(p) && t[1..] == s;
    assert |PrefixText(p)| == 2 ==> t[..2] == PrefixText(p) && t[2..] == s;
    assert s != [] ==> t[|PrefixText(p)|] == s[0];
  }

  lemma {:induction false} PrefixNonempty(p: Prefix)
    ensures PrefixText(p) != []
  {}

  /** A prefix and what it is on. */
  lemma {:induction false} PrefixedReads(p: Prefix, gap: Bytes, text: Bytes, d: Datum, rest: Bytes)
    requires IsGap(gap) && ReadsAs(text, d, rest) && (p == Comma ==> !StartsWith(gap + text, '@')) && text != []
    ensures ReadsAs(PrefixText(p) + gap + text, Pair(Symbol(PrefixName(p)), Pair(d, Empty)), rest)
  {
    hide Advance, ParseAtom, ParseList, ParseVector, AbbreviationOf;
    var s := gap + (text + rest);
    assert PrefixText(p) + gap + text + rest == PrefixText(p) + s;
    assert (gap + text)[0] == s[0];
    PrefixIsRead(p, s);
    AdvanceGap(gap, text + rest);
    AbbreviationIsRead(Advance(PrefixText(p) + s));
  }

  lemma {:induction false} AbbreviationIsRead(st: State)
    requires AbbreviationOf(st.tok.kind).Some?
    ensures st.tok.kind != Eof
    ensures var r := ParseDatum(Advance(st.rest));
      ParseDatum(st) == if r.None? then None
                        else Some((Pair(Symbol(AbbreviationOf(st.tok.kind).value), Pair(r.value.0, Empty)), r.value.1))
  {
    hide Advance, ParseAtom, ParseList, ParseVector;
    AdvanceShrinks(st);
  }

  /** Every representation of a datum is read as it. */
  lemma {:induction false} FormReads(f: Form, rest: Bytes)
    requires IsForm(f) && (NeedsEnd(f) ==> EndsToken(rest))
    ensures FormText(f) != [] && ReadsAs(FormText(f), Denoted(f), rest)
    decreases f, 1, 0
  {
    hide Advance, ParseDatum, ParseList, ParseVector, ParseCdr, ReadsAs, AtomAt, PrefixText;
    match f
    case Atom(text, d) => AtomIsRead(text, d, rest);
    case Prefixed(p, gap, form) =>
      FormReads(form, rest);
      PrefixedReads(p, gap, FormText(form), Denoted(form), rest);
      PrefixNonempty(p);
    case List(_, _, _) => ListReads(f, rest);
    case VectorForm(_, _) => VectorReads(f, rest);
  }

  // ---------------------------------------------------------------- elements

  lemma {:induction false} ItemsTextOn(items: seq<Item>, x: Bytes, rest: Bytes)
    ensures ItemsText(items, x) + rest == ItemsText(items, x + rest)
  {
    hide FormText;
    if items != [] {
      ItemsTextOn(items[1..], x, rest);
      var t, g, m := FormText(items[0].form), items[0].gap, ItemsText(items[1..], x);
      assert t + (g + m) + rest == t + (g + (m + rest));
    }
  }

  lemma {:induction false} TailTextOn(tail: Option<Tail>, x: Bytes, rest: Bytes)
    ensures TailText(tail, x) + rest == TailText(tail, x + rest)
  {
    hide FormText;
    if tail.Some? {
      var t := tail.value;
      var m := FormText(t.form);
      assert Text(".") + (t.before + (m + (t.after + x))) + rest ==
        Text(".") + (t.before + (m + (t.after + (x + rest))));
    }
  }

  /** A gap or what begins with a delimiter ends a token, whatever follows. */
  lemma {:induction false} EndsOn(s: Bytes, rest: Bytes)
    requires EndsToken(s) && s != []
    ensures EndsToken(s + rest)
  {}

  lemma {:induction false} TextNonempty(items: seq<Item>, tail: Option<Tail>)
    ensures TailText(tail, Text(")")) != [] && (forall x :: x != [] ==> ItemsText(items, x) != [])
  {
    if items != [] {
      TextNonempty(items[1..], tail);
    }
  }

  lemma {:induction false} CloseIsRead(rest: Bytes)
    ensures Advance(Text(")") + rest) == State(Token(RParen, Letter(')')), rest)
  {
    assert Text(")") == Letter(')');
    AdvanceMark(')', RParen, rest);
  }

  lemma {:induction false} DotIsRead(s: Bytes)
    requires s != [] && EndsToken(s)
    ensures Advance(Text(".") + s).tok.kind == Period && Advance(Text(".") + s).rest == s
  {
    hide LexNumberOrIdentifier, LexLiteral, LexIdentifier;
    var t := Text(".") + s;
    SkipNothing(t);
    assert t[1] == s[0] && t[..1] == Text(".") && t[1..] == s;
  }

  lemma {:induction false} GapEnds(w: Bytes, rest: Bytes)
    requires IsGap(w)
    ensures EndsToken(w + (Text(")") + rest))
  {
    if w != [] { assert w[0] in w; }
  }

  /** What is left of a list from its k-th element on. */
  function Left(f: Form, k: nat, rest: Bytes): Bytes
    requires f.List? && k <= |f.items|
  {
    ItemsText(f.items[k..], TailText(f.tail, Text(")") + rest))
  }

  function LeftDenoted(f: Form, k: nat): Datum
    requires f.List? && k <= |f.items|
  {
    ListDenoted(f.items[k..], if f.tail.Some? then Denoted(f.tail.value.form) else Empty)
  }

  lemma {:induction false} LeftNext(f: Form, k: nat, rest: Bytes)
    requires f.List? && k < |f.items| && AreItems(f.items[k..], TailText(f.tail, Text(")")))
    ensures var x := f.items[k];
      && Left(f, k, rest) == FormText(x.form) + (x.gap + Left(f, k + 1, rest))
      && LeftDenoted(f, k) == Pair(Denoted(x.form), LeftDenoted(f, k + 1))
      && AreItems(f.items[k + 1..], TailText(f.tail, Text(")"))) && IsForm(x.form) && IsGap(x.gap)
      && (NeedsEnd(x.form) ==> EndsToken(x.gap + Left(f, k + 1, rest)))
  {
    hide FormText, TailText, IsForm, Denoted;
    var items, x := f.items[k..], f.items[k];
    assert items[0] == x && items[1..] == f.items[k + 1..];
    var inner := ItemsText(items[1..], TailText(f.tail, Text(")")));
    TailTextOn(f.tail, Text(")"), rest);
    ItemsTextOn(items[1..], TailText(f.tail, Text(")")), rest);
    TextNonempty(items[1..], f.tail);
    if NeedsEnd(x.form) { EndsOn(x.gap + inner, rest); }
    assert x.gap + inner + rest == x.gap + (inner + rest);
  }

  /** The rest of a list after some elements. */
  lemma {:induction false} CdrReads(f: Form, k: nat, rest: Bytes)
    requires f.List? && k <= |f.items| && AreItems(f.items[k..], TailText(f.tail, Text(")")))
    requires f.tail.Some? ==> IsTail(f.tail.value)
    ensures ParseCdr(Advance(Left(f, k, rest))) == Some((LeftDenoted(f, k), Advance(rest)))
    ensures k < |f.items| ==> BeginsDatum(Advance(Left(f, k, rest)).tok.kind)
    decreases f, 0, |f.items| - k + 1
  {
    hide Advance, ParseDatum, ParseList, ParseVector, ParseCdr, Left, LeftDenoted, FormText, IsForm, Denoted, AreItems;
    if k < |f.items| {
      var x := f.items[k];
      LeftNext(f, k, rest);
      var more := x.gap + Left(f, k + 1, rest);
      FormReads(x.form, more);
      AdvanceGap(x.gap, Left(f, k + 1, rest));
      CdrReads(f, k + 1, rest);
      CdrIsRead(FormText(x.form), Denoted(x.form), more, LeftDenoted(f, k + 1), rest);
    } else {
      EndReads(f, rest);
    }
  }

  lemma {:induction false} CdrIsRead(text: Bytes, d: Datum, more: Bytes, cdr: Datum, rest: Bytes)
    requires ReadsAs(text, d, more) && ParseCdr(Advance(more)) == Some((cdr, Advance(rest)))
    ensures ParseCdr(Advance(text + more)) == Some((Pair(d, cdr), Advance(rest)))
    ensures ParseList(Advance(text + more)) == Some((Pair(d, cdr), Advance(rest)))
    ensures BeginsDatum(Advance(text + more).tok.kind)
  {
    hide Advance, ParseDatum, ParseList, ParseCdr, ParseVector, ParseDottedCdr;
    ListIs(Advance(text + more));
    CdrIsEither(Advance(text + more));
  }

  /** The end of a list, with a tail or without. */
  lemma {:induction false} EndReads(f: Form, rest: Bytes)
    requires f.List? && (f.tail.Some? ==> IsTail(f.tail.value))
    ensures ParseCdr(Advance(Left(f, |f.items|, rest))) == Some((LeftDenoted(f, |f.items|), Advance(rest)))
    decreases f, 0, 0
  {
    hide Advance, ParseDatum, ParseList, ParseVector, ParseCdr, FormText, IsForm, Denoted, ParseDottedCdr;
    var st := Advance(Left(f, |f.items|, rest));
    var none := f.items[|f.items|..];
    assert none == [];
    CloseIsRead(rest);
    ListIs(st);
    CdrIsEither(st);
    match f.tail
    case None =>
    case Some(t) =>
      var end := t.after + (Text(")") + rest);
      var s := t.before + (FormText(t.form) + end);
      assert Left(f, |f.items|, rest) == Text(".") + s;
      TailEnds(t, rest);
      DotIsRead(s);
      AdvanceGap(t.before, FormText(t.form) + end);
      GapEnds(t.after, rest);
      FormReads(t.form, end);
      AdvanceGap(t.after, Text(")") + rest);
      DottedIsRead(st, FormText(t.form), Denoted(t.form), end, rest);
  }

  lemma {:induction false} TailEnds(t: Tail, rest: Bytes)
    requires IsTail(t)
    ensures var s := t.before + (FormText(t.form) + (t.after + (Text(")") + rest)));
      s != [] && EndsToken(s) && IsGap(t.before) && IsForm(t.form) && IsGap(t.after)
  {
    hide FormText, IsForm;
    var s := t.before + (FormText(t.form) + (t.after + Text(")")));
    EndsOn(s, rest);
    assert s + rest == t.before + (FormText(t.form) + (t.after + (Text(")") + rest)));
  }

  lemma {:induction false} DottedIsRead(st: State, text: Bytes, d: Datum, end: Bytes, rest: Bytes)
    requires st.tok.kind == Period && Advance(st.rest) == Advance(text + end) && ReadsAs(text, d, end)
    requires Advance(end) == State(Token(RParen, Letter(')')), rest)
    ensures ParseDottedCdr(st) == Some((d, Advance(rest)))
  {
    hide Advance, ParseDatum, ParseList, ParseCdr, ParseVector;
  }

  lemma {:induction false} OpenIsRead(st: State, kind: Kind)
    requires st.tok.kind == kind
    ensures kind == LParen ==> ParseDatum(st) == ParseList(Advance(st.rest))
    ensures kind == VectorLParen ==> ParseDatum(st) == ParseVector(Advance(st.rest), [])
  {
    hide Advance, ParseList, ParseVector, ParseAtom;
    if kind == LParen || kind == VectorLParen { AdvanceShrinks(st); }
  }

  lemma {:induction false} ListReads(f: Form, rest: Bytes)
    requires f.List? && IsForm(f)
    ensures FormText(f) != [] && ReadsAs(FormText(f), Denoted(f), rest)
    decreases f, 0, |f.items| + 2
  {
    hide Advance, ParseDatum, ParseList, ParseVector, ParseCdr, Left, LeftDenoted, ItemsText, TailText;
    var body := Left(f, 0, rest);
    ListShape(f, rest);
    AdvanceMark('(', LParen, f.gap + body);
    AdvanceGap(f.gap, body);
    OpenIsRead(Advance(FormText(f) + rest), LParen);
    CdrReads(f, 0, rest);
    ListIs(Advance(body));
    CdrIsEither(Advance(body));
    if f.items == [] {
      EmptyBody(f, rest);
    }
  }

  lemma {:induction false} ListShape(f: Form, rest: Bytes)
    requires f.List? && IsForm(f)
    ensures FormText(f) + rest == Letter('(') + (f.gap + Left(f, 0, rest)) && FormText(f) != []
    ensures Denoted(f) == LeftDenoted(f, 0) && IsGap(f.gap)
    ensures AreItems(f.items[0..], TailText(f.tail, Text(")"))) && (f.tail.Some? ==> IsTail(f.tail.value))
    ensures f.tail.Some? ==> f.items != []
  {
    hide ItemsText, TailText, AreItems, IsTail, ListDenoted;
    var x := TailText(f.tail, Text(")"));
    assert f.items[0..] == f.items;
    TailTextOn(f.tail, Text(")"), rest);
    ItemsTextOn(f.items, x, rest);
    assert Text("(") == Letter('(');
    assert Text("(") + (f.gap + ItemsText(f.items, x)) + rest == Text("(") + (f.gap + (ItemsText(f.items, x) + rest));
  }

  lemma {:induction false} EmptyBody(f: Form, rest: Bytes)
    requires f.List? && f.items == [] && f.tail.None?
    ensures Advance(Left(f, 0, rest)).tok.kind == RParen
  {
    hide Advance;
    CloseIsRead(rest);
  }

  // ---------------------------------------------------------------- vectors

  /** The elements of a vector from the k-th on, after those already read. */
  lemma {:induction false} ElementsRead(f: Form, k: nat, xs: seq<Datum>, rest: Bytes)
    requires f.VectorForm? && k <= |f.items| && AreItems(f.items[k..], Text(")"))
    ensures ParseVector(Advance(ItemsText(f.items[k..], Text(")") + rest)), xs) ==
      Some((Vector(xs + AllDenoted(f.items[k..])), Advance(rest)))
    decreases f, 0, |f.items| - k
  {
    hide Advance, ParseDatum, ParseList, ParseVector, ParseCdr, FormText, IsForm, Denoted;
    var items, end := f.items[k..], Text(")") + rest;
    CloseIsRead(rest);
    if items == [] {
      VectorIs(Advance(end), xs);
      assert xs + [] == xs;
    } else {
      var x := items[0];
      assert items[1..] == f.items[k + 1..];
      var more := x.gap + ItemsText(items[1..], end);
      ItemsTextOn(items[1..], Text(")"), rest);
      TextNonempty(items[1..], None);
      var inner := ItemsText(items[1..], Text(")"));
      if NeedsEnd(x.form) { EndsOn(x.gap + inner, rest); }
      assert x.gap + inner + rest == more;
      FormReads(x.form, more);
      AdvanceGap(x.gap, ItemsText(items[1..], end));
      var d := Denoted(x.form);
      ElementsRead(f, k + 1, xs + [d], rest);
      VectorIs(Advance(FormText(x.form) + more), xs);
      assert xs + [d] + AllDenoted(items[1..]) == xs + ([d] + AllDenoted(items[1..]));
    }
  }

  lemma {:induction false} VectorIs(st: State, xs: seq<Datum>)
    ensures ParseVector(st, xs) ==
      if st.tok.kind == RParen then Some((Vector(xs), Advance(st.rest)))
      else
        var r := ParseDatum(st);
        if r.None? then None else ParseVector(r.value.1, xs + [r.value.0])
  {
    hide ParseDatum, ParseList, ParseCdr, ParseDottedCdr, Advance;
  }

  lemma {:induction false} VectorReads(f: Form, rest: Bytes)
    requires f.VectorForm? && IsForm(f)
    ensures FormText(f) != [] && ReadsAs(FormText(f), Denoted(f), rest)
    decreases f, 0, |f.items| + 2
  {
    hide Advance, ParseDatum, ParseList, ParseVector, ParseCdr, ItemsText, AreItems, AllDenoted;
    var body := ItemsText(f.items, Text(")") + rest);
    assert f.items[0..] == f.items;
    ItemsTextOn(f.items, Text(")"), rest);
    assert Text("#(") == OPEN_VECTOR;
    assert FormText(f) + rest == OPEN_VECTOR + (f.gap + body) by {
      var inner := ItemsText(f.items, Text(")"));
      assert Text("#(") + (f.gap + inner) + rest == Text("#(") + (f.gap + (inner + rest));
    }
    AdvanceVector(f.gap + body);
    AdvanceGap(f.gap, body);
    OpenIsRead(Advance(FormText(f) + rest), VectorLParen);
    ElementsRead(f, 0, [], rest);
    assert [] + AllDenoted(f.items) == AllDenoted(f.items);
  }

  // ---------------------------------------------------------------- atoms

  /** An identifier of the standard is read as the symbol that it names. */
  lemma {:induction false} IdentifierReads(s: Bytes)
    requires IsStandardIdentifier(s) && !IsNumberLike(s)
    ensures IsAtom(s, Symbol(s))
  {
    hide IsStandardIdentifier, IsNumberLike, Next;
    StandardLexes(s);
    StandardStart(s);
    forall rest | EndsToken(rest)
      ensures AtomAt(s, Symbol(s), rest)
    {
      WordInContext(s, if '@' as int in s[1..] then RelaxedIdentifier else Identifier, rest);
    }
  }

  lemma {:induction false} IntegerReads(i: int)
    requires IsInt32(i)
    ensures IsAtom(WriteInt(i), Int(i))
  {
    hide WriteInt, ReadInt, Next;
    forall rest | EndsToken(rest)
      ensures AtomAt(WriteInt(i), Int(i), rest)
    {
      IntegerToken(i, rest);
      IntegerRoundTrip(i);
    }
  }

  lemma {:induction false} BooleanReads(b: bool)
    ensures IsAtom(Text(if b then "#t" else "#f"), Bool(b))
  {
    hide Next;
    var text := Letter('#') + Letter(if b then 't' else 'f');
    assert Text(if b then "#t" else "#f") == text;
    forall rest | EndsToken(rest)
      ensures AtomAt(text, Bool(b), rest)
    {
      AdvanceBool(b, rest);
    }
  }

  /** The keywords that are read are the ones that quasiquotation looks for. */
  lemma {:induction false} PrefixesAreKeywords()
    ensures Symbol(PrefixName(Backquote)) == Quasiquotes.QUASIQUOTE
    ensures Symbol(PrefixName(Comma)) == Quasiquotes.UNQUOTE
    ensures Symbol(PrefixName(CommaAt)) == Quasiquotes.SPLICING
  {}

  // ---------------------------------------------------------------- what is read is a form

  predicate IsSpace(w: Bytes) { forall b :: b in w ==> IsWhitespace(b) }

  /** The forms that the reader takes, with any token for an atom and the white space of the lexer. */
  ghost predicate IsSpelled(f: Form)
    decreases f, 0
  {
    match f
    case Atom(text, d) => exists kind :: IsAtomToken(kind, text, d)
    case Prefixed(_, gap, form) => IsSpace(gap) && IsSpelled(form)
    case List(gap, items, tail) =>
      IsSpace(gap) && AreSpelled(items) &&
      (tail.Some? ==>
         items != [] && IsSpace(tail.value.before) && IsSpelled(tail.value.form) && IsSpace(tail.value.after))
    case VectorForm(gap, items) => IsSpace(gap) && AreSpelled(items)
  }

  ghost predicate AreSpelled(items: seq<Item>)
    decreases items, 0
  {
    items == [] || (IsSpelled(items[0].form) && IsSpace(items[0].gap) && AreSpelled(items[1..]))
  }

  /** A token that reads as the datum and is no mark of a list, a vector or an abbreviation. */
  ghost predicate IsAtomToken(kind: Kind, text: Bytes, d: Datum) {
    ParseAtom(Token(kind, text)) == Some(d)
  }

  lemma {:induction false} SkippedText(s: Bytes) returns (w: Bytes)
    ensures IsSpace(w) && s == w + SkipWhitespace(s)
  {
    if s != [] && IsWhitespace(s[0]) {
      var v := SkippedText(s[1..]);
      w := [s[0]] + v;
      assert s == [s[0]] + s[1..];
    } else {
      w := [];
    }
  }

  /** White space, the token, and what is left. */
  lemma {:induction false} AdvanceText(s: Bytes) returns (w: Bytes)
    ensures var st := Advance(s); IsSpace(w) && s == w + (st.tok.text + st.rest)
  {
    hide LexFront;
    w := SkippedText(s);
    var t := SkipWhitespace(s);
    var n := LexFront(t).1;
    assert t == t[..n] + t[n..];
  }

  /** The text of a mark. */
  lemma {:induction false} MarkText(s: Bytes)
    ensures var tok := Advance(s).tok;
      && (tok.kind == LParen ==> tok.text == Text("(")) && (tok.kind == RParen ==> tok.text == Text(")"))
      && (tok.kind == VectorLParen ==> tok.text == Text("#(")) && (tok.kind == Period ==> tok.text == Text("."))
      && (tok.kind == QuoteMark ==> tok.text == Text("'")) && (tok.kind == Quasiquote ==> tok.text == Text("`"))
      && (tok.kind == Unquote ==> tok.text == Text(",")) && (tok.kind == UnquoteSplicing ==> tok.text == Text(",@"))
  {
    hide LiteralLength, UntilDelimiter, AllExtended, IsPeculiarPrefix, IsInitial;
    var t := SkipWhitespace(s);
    var (kind, n) := LexFront(t);
    assert n == 1 ==> t[..n] == [t[0]];
    assert n == 2 ==> t[..n] == [t[0], t[1]];
  }

  function PrefixOf(kind: Kind): Prefix {
    match kind
    case QuoteMark => Quote
    case Quasiquote => Backquote
    case Unquote => Comma
    case _ => CommaAt
  }

  lemma {:induction false} PrefixOfIs(s: Bytes)
    requires AbbreviationOf(Advance(s).tok.kind).Some?
    ensures var tok := Advance(s).tok;
      tok.text == PrefixText(PrefixOf(tok.kind)) && AbbreviationOf(tok.kind) == Some(PrefixName(PrefixOf(tok.kind)))
  {
    hide Advance;
    MarkText(s);
  }

  lemma {:induction false} DatumIs(st: State)
    ensures ParseDatum(st) ==
      if st.tok.kind == Eof then None
      else if st.tok.kind == LParen then ParseList(Advance(st.rest))
      else if st.tok.kind == VectorLParen then ParseVector(Advance(st.rest), [])
      else if AbbreviationOf(st.tok.kind).Some? then
        var r := ParseDatum(Advance(st.rest));
        if r.None? then None
        else Some((Pair(Symbol(AbbreviationOf(st.tok.kind).value), Pair(r.value.0, Empty)), r.value.1))
      else
        var atom := ParseAtom(st.tok);
        if atom.None? then None else Some((atom.value, Advance(st.rest)))
  {
    hide Advance, ParseList, ParseVector, ParseAtom, AbbreviationOf;
    if st.tok.kind != Eof { AdvanceShrinks(st); }
  }

  /** Whatever is read is white space and a form that stands for the datum. */
  lemma {:induction false} ReadIsForm(s: Bytes) returns (w: Bytes, f: Form, rest: Bytes)
    requires ParseDatum(Advance(s)).Some?
    ensures IsSpace(w) && IsSpelled(f) && s == w + (FormText(f) + rest) && |rest| < |s|
    ensures ParseDatum(Advance(s)).value == (Denoted(f), Advance(rest))
    decreases |s|, 0
  {
    hide Advance, ParseDatum, ParseList, ParseVector, ParseAtom, AbbreviationOf, PrefixText, PrefixName;
    var st := Advance(s);
    DatumIs(st);
    w := AdvanceText(s);
    MarkText(s);
    AdvanceEnds(s);
    if st.tok.kind == LParen {
      var gap, items, tail;
      gap, items, tail, rest := ListIsForm(st.rest);
      f := List(gap, items, tail);
      var inner := ItemsText(items, TailText(tail, Text(")")));
      assert Text("(") + (gap + (inner + rest)) == Text("(") + (gap + inner) + rest;
    } else if st.tok.kind == VectorLParen {
      var gap, items;
      gap, items, rest := VectorIsForm(st.rest, []);
      f := VectorForm(gap, items);
      assert [] + AllDenoted(items) == AllDenoted(items);
      var inner := ItemsText(items, Text(")"));
      assert Text("#(") + (gap + (inner + rest)) == Text("#(") + (gap + inner) + rest;
    } else if AbbreviationOf(st.tok.kind).Some? {
      PrefixOfIs(s);
      var gap, form;
      gap, form, rest := ReadIsForm(st.rest);
      f := Prefixed(PrefixOf(st.tok.kind), gap, form);
      var p := PrefixText(PrefixOf(st.tok.kind));
      assert p + (gap + (FormText(form) + rest)) == p + gap + FormText(form) + rest;
    } else {
      f, rest := Atom(st.tok.text, ParseAtom(st.tok).value), st.rest;
      assert IsAtomToken(st.tok.kind, st.tok.text, f.d);
    }
  }

  lemma {:induction false} AdvanceEnds(s: Bytes)
    ensures Advance(s).tok.kind != Eof ==> |Advance(s).rest| < |s|
    ensures ParseDatum(Advance(s)).Some? ==> Advance(s).tok.kind != Eof
  {
    hide LexFront;
    DatumIs(Advance(s));
  }

  lemma {:induction false} ListIsForm(s: Bytes)
    returns (gap: Bytes, items: seq<Item>, tail: Option<Tail>, rest: Bytes)
    requires ParseList(Advance(s)).Some?
    ensures IsSpelled(List(gap, items, tail)) && |rest| < |s|
    ensures s == gap + (ItemsText(items, TailText(tail, Text(")"))) + rest)
    ensures ParseList(Advance(s)).value ==
      (ListDenoted(items, if tail.Some? then Denoted(tail.value.form) else Empty), Advance(rest))
    decreases |s|, 1
  {
    hide Advance, ParseDatum, ParseList, ParseVector, ParseCdr, IsSpelled, FormText, Denoted, TailText;
    var st := Advance(s);
    ListIs(st);
    if st.tok.kind == RParen {
      gap, items, tail, rest := CloseIsForm(s);
    } else {
      var form, more, after, next;
      gap, form, more := ReadIsForm(s);
      after, next, tail, rest := CdrIsForm(more);
      items := [Item(form, after)] + next;
      OneMoreItem(gap, form, after, next, tail, rest);
    }
  }

  lemma {:induction false} OneMoreItem(gap: Bytes, form: Form, after: Bytes, next: seq<Item>, tail: Option<Tail>,
                                       rest: Bytes)
    requires IsSpace(gap) && IsSpelled(form) && IsSpelled(List(after, next, if next == [] then None else tail))
    requires IsSpace(after) && IsTailSpelled(tail)
    ensures var items := [Item(form, after)] + next;
      && IsSpelled(List(gap, items, tail))
      && (forall x :: ItemsText(items, x) == FormText(form) + (after + ItemsText(next, x)))
      && (forall x :: ItemsText(items, x) + rest == FormText(form) + (after + (ItemsText(next, x) + rest)))
      && (forall end :: ListDenoted(items, end) == Pair(Denoted(form), ListDenoted(next, end)))
  {
    hide FormText, Denoted;
    var items := [Item(form, after)] + next;
    assert items[1..] == next;
    forall x
      ensures ItemsText(items, x) + rest == FormText(form) + (after + (ItemsText(next, x) + rest))
    {
      var t, m := FormText(form), ItemsText(next, x);
      assert t + (after + m) + rest == t + (after + (m + rest));
    }
  }

  ghost predicate IsTailSpelled(tail: Option<Tail>) {
    tail.Some? ==> IsSpace(tail.value.before) && IsSpelled(tail.value.form) && IsSpace(tail.value.after)
  }

  /** The end of a list. */
  lemma {:induction false} CloseIsForm(s: Bytes)
    returns (gap: Bytes, items: seq<Item>, tail: Option<Tail>, rest: Bytes)
    requires Advance(s).tok.kind == RParen
    ensures items == [] && tail == None && IsSpelled(List(gap, items, tail)) && IsSpace(gap) && |rest| < |s|
    ensures s == gap + (ItemsText(items, TailText(tail, Text(")"))) + rest) && Advance(s).rest == rest
  {
    hide Advance;
    MarkText(s);
    gap := AdvanceText(s);
    items, tail, rest := [], None, Advance(s).rest;
  }

  lemma {:induction false} CdrIsForm(s: Bytes)
    returns (gap: Bytes, items: seq<Item>, tail: Option<Tail>, rest: Bytes)
    requires ParseCdr(Advance(s)).Some?
    ensures IsSpace(gap) && IsTailSpelled(tail) && |rest| < |s|
    ensures IsSpelled(List(gap, items, if items == [] then None else tail))
    ensures s == gap + (ItemsText(items, TailText(tail, Text(")"))) + rest)
    ensures ParseCdr(Advance(s)).value ==
      (ListDenoted(items, if tail.Some? then Denoted(tail.value.form) else Empty), Advance(rest))
    decreases |s|, 2
  {
    hide Advance, ParseDatum, ParseList, ParseVector, ParseCdr, FormText, Denoted, ParseDottedCdr;
    var st := Advance(s);
    CdrIsEither(st);
    if st.tok.kind == Period {
      var t;
      gap, t, rest := DottedIsForm(s);
      items, tail := [], Some(t);
    } else {
      gap, items, tail, rest := ListIsForm(s);
    }
  }

  lemma {:induction false} DottedIs(st: State)
    requires st.tok.kind == Period
    ensures var r := ParseDatum(Advance(st.rest));
      ParseDottedCdr(st) == if r.None? || r.value.1.tok.kind != RParen then None
                            else Some((r.value.0, Advance(r.value.1.rest)))
  {
    hide Advance, ParseDatum;
    AdvanceShrinks(st);
    var r := ParseDatum(Advance(st.rest));
    if r.Some? && r.value.1.tok.kind == RParen { AdvanceShrinks(r.value.1); }
  }

  lemma {:induction false} DottedIsForm(s: Bytes) returns (gap: Bytes, t: Tail, rest: Bytes)
    requires Advance(s).tok.kind == Period && ParseDottedCdr(Advance(s)).Some?
    ensures IsSpace(gap) && IsTailSpelled(Some(t)) && |rest| < |s|
    ensures s == gap + (TailText(Some(t), Text(")")) + rest)
    ensures ParseDottedCdr(Advance(s)).value == (Denoted(t.form), Advance(rest))
    decreases |s|, 0
  {
    hide Advance, ParseDatum, ParseDottedCdr, IsSpelled, FormText, Denoted, ItemsText;
    var st := Advance(s);
    DottedIs(st);
    MarkText(s);
    AdvanceEnds(s);
    gap := AdvanceText(s);
    var before, form, more := ReadIsForm(st.rest);
    MarkText(more);
    AdvanceEnds(more);
    var after := AdvanceText(more);
    rest := Advance(more).rest;
    t := Tail(before, form, after);
    assert Text(".") + (before + (FormText(form) + (after + (Text(")") + rest)))) ==
      Text(".") + (before + (FormText(form) + (after + Text(")")))) + rest;
  }

  lemma {:induction false} VectorIsForm(s: Bytes, xs: seq<Datum>) returns (gap: Bytes, items: seq<Item>, rest: Bytes)
    requires ParseVector(Advance(s), xs).Some?
    ensures IsSpelled(VectorForm(gap, items)) && |rest| < |s|
    ensures s == gap + (ItemsText(items, Text(")")) + rest)
    ensures ParseVector(Advance(s), xs).value == (Vector(xs + AllDenoted(items)), Advance(rest))
    decreases |s|, 1
  {
    hide Advance, ParseDatum, ParseVector, FormText, Denoted;
    var st := Advance(s);
    VectorIs(st, xs);
    if st.tok.kind == RParen {
      MarkText(s);
      AdvanceEnds(s);
      gap := AdvanceText(s);
      items, rest := [], st.rest;
      assert xs + [] == xs;
    } else {
      var form, more, after, next;
      gap, form, more := ReadIsForm(s);
      after, next, rest := VectorIsForm(more, xs + [Denoted(form)]);
      items := [Item(form, after)] + next;
      assert items[1..] == next;
      assert xs + [Denoted(form)] + AllDenoted(next) == xs + ([Denoted(form)] + AllDenoted(next));
      var x := Text(")");
      var t, m := FormText(form), ItemsText(next, x);
      assert t + (after + m) + rest == t + (after + (m + rest));
    }
  }
}
