/**
 The text of strings and of identifiers between vertical lines by section 7.1.1 of R7RS, against what
 Parser::ParseLiteralImpl makes of it (schir/lib/Parser.cpp).
 */
module StringSyntax {
  import opened Options
  import opened Utf8
  import opened Ascii
  import opened Lexing
  import opened Literals
  import opened Printing
  import opened Parsing
  import opened RoundTrip
  import opened Reading

  /** An element of a string or of a symbol: a character, a line ending, an escape of one letter, an escaped
      mark, a code point in hexadecimal, or a line continuation. */
  datatype Element =
    | Char(b: Byte)
    | LineEnd(ending: Bytes)
    | Mnemonic(letter: Byte)
    | Escape(b: Byte)
    | Hex(digits: Bytes)
    | Continuation(before: Bytes, ending: Bytes, after: Bytes)

  /** line ending */
  predicate IsLineEnd(s: Bytes) { s == [10] || s == [13, 10] || s == [13] }

  /** intraline whitespace */
  predicate IsIntraline(s: Bytes) { forall b :: b in s ==> b == 9 || b == 32 }

  /** The characters of the mnemonic escapes. */
  function MnemonicValue(letter: Byte): Option<Byte> {
    if letter == 'a' as int then Some(7)
    else if letter == 'b' as int then Some(8)
    else if letter == 't' as int then Some(9)
    else if letter == 'n' as int then Some(10)
    else if letter == 'r' as int then Some(13)
    else None
  }

  predicate IsElement(e: Element, mark: Byte) {
    match e
    case Char(b) => b != mark && b != BACKSLASH && b != 10 && b != 13 && b != 0
    case LineEnd(s) => IsLineEnd(s)
    case Mnemonic(letter) => MnemonicValue(letter).Some?
    case Escape(b) => b == '"' as int || b == '|' as int || b == BACKSLASH
    case Hex(digits) => digits != [] && HexValue(digits).Some? && IsScalar(HexValue(digits).value)
    case Continuation(before, ending, after) => IsIntraline(before) && IsLineEnd(ending) && IsIntraline(after)
  }

  function ElementText(e: Element): Bytes {
    match e
    case Char(b) => [b]
    case LineEnd(s) => s
    case Mnemonic(letter) => [BACKSLASH, letter]
    case Escape(b) => [BACKSLASH, b]
    case Hex(digits) => [BACKSLASH, 'x' as int] + digits + [';' as int]
    case Continuation(before, ending, after) => [BACKSLASH] + (before + ending + after)
  }

  /** What an element stands for by sections 6.7 and 7.1.1. */
  function ElementValue(e: Element): Bytes {
    match e
    case Char(b) => [b]
    case LineEnd(_) => [10]
    case Mnemonic(letter) => if MnemonicValue(letter).Some? then [MnemonicValue(letter).value] else []
    case Escape(b) => [b]
    case Hex(digits) => if HexValue(digits).Some? then Encode(HexValue(digits).value) else []
    case Continuation(_, _, _) => []
  }

  function TextOf(es: seq<Element>): Bytes {
    if es == [] then [] else ElementText(es[0]) + TextOf(es[1..])
  }

  function ValueOf(es: seq<Element>): Bytes {
    if es == [] then [] else ElementValue(es[0]) + ValueOf(es[1..])
  }

  predicate StartsIn(s: Bytes, bytes: set<Byte>) { s != [] && s[0] in bytes }

  /** Elements, each as long as it can be: a return before a newline is one line ending, and the white space
      after a continuation belongs to it. */
  predicate AreElements(es: seq<Element>, mark: Byte) {
    es == [] ||
    (IsElement(es[0], mark) && AreElements(es[1..], mark) &&
     (es[0] == LineEnd([13]) ==> !StartsIn(TextOf(es[1..]), {10})) &&
     (es[0].Continuation? ==>
        !StartsIn(TextOf(es[1..]), {9, 32}) &&
        (es[0].ending == [13] && es[0].after == [] ==> !StartsIn(TextOf(es[1..]), {10}))))
  }

  // ---------------------------------------------------------------- what is read

  predicate IsWhite(e: Element) { e.LineEnd? || (e.Char? && IsWhitespace(e.b)) }

  /** A continuation takes all the white space after it. */
  function DropWhite(es: seq<Element>): (r: seq<Element>)
    ensures |r| <= |es|
  {
    if es != [] && IsWhite(es[0]) then DropWhite(es[1..]) else es
  }

  /** What the elements are read as: a single return stays what it is. */
  function ReadValue(es: seq<Element>): Bytes
    decreases |es|
  {
    if es == [] then []
    else
      match es[0]
      case LineEnd(s) => (if s == [13] then [13] else [10]) + ReadValue(es[1..])
      case Continuation(_, _, _) => ReadValue(DropWhite(es[1..]))
      case _ => ElementValue(es[0]) + ReadValue(es[1..])
  }

  lemma {:induction false} WhiteText(e: Element, mark: Byte)
    requires IsElement(e, mark) && IsWhite(e)
    ensures ElementText(e) != [] && forall b :: b in ElementText(e) ==> IsWhitespace(b)
  {}

  lemma {:induction false} NotWhiteText(e: Element, mark: Byte)
    requires IsElement(e, mark) && !IsWhite(e)
    ensures ElementText(e) != [] && !IsWhitespace(ElementText(e)[0])
  {}

  lemma {:induction false} WhitespaceThen(w: Bytes, s: Bytes)
    requires forall b :: b in w ==> IsWhitespace(b)
    ensures WhitespaceLength(w + s) == |w| + WhitespaceLength(s)
  {
    if w == [] {
      assert w + s == s;
    } else {
      assert w[0] in w && w == [w[0]] + w[1..] && (w + s)[1..] == w[1..] + s;
      WhitespaceThen(w[1..], s);
    }
  }

  /** The white space at the front of some elements. */
  lemma {:induction false} WhitespaceDropped(es: seq<Element>, mark: Byte)
    requires AreElements(es, mark)
    ensures AreElements(DropWhite(es), mark)
    ensures TextOf(es)[WhitespaceLength(TextOf(es))..] == TextOf(DropWhite(es))
    decreases |es|
  {
    hide IsElement, ElementText, IsWhite, IsWhitespace;
    if es != [] {
      var t, more := ElementText(es[0]), TextOf(es[1..]);
      if IsWhite(es[0]) {
        WhiteText(es[0], mark);
        WhitespaceThen(t, more);
        WhitespaceDropped(es[1..], mark);
        assert (t + more)[|t| + WhitespaceLength(more)..] == more[WhitespaceLength(more)..];
      } else {
        NotWhiteText(es[0], mark);
        assert (t + more)[0] == t[0];
      }
    }
  }

  // ---------------------------------------------------------------- pieces

  lemma {:induction false} FindMark(digits: Bytes, rest: Bytes)
    requires HexValue(digits).Some?
    ensures Find(digits + [';' as int] + rest, ';' as int) == Some(|digits|)
    decreases |digits|
  {
    HexHasNone(digits);
    FindAfter(digits, [';' as int] + rest, ';' as int);
    assert digits + [';' as int] + rest == digits + ([';' as int] + rest);
  }

  lemma {:induction false} FindAfter(s: Bytes, t: Bytes, b: Byte)
    requires b !in s && t != [] && t[0] == b
    ensures Find(s + t, b) == Some(|s|)
  {
    if s == [] {
      assert s + t == t;
    } else {
      assert s == [s[0]] + s[1..] && (s + t)[1..] == s[1..] + t;
      FindAfter(s[1..], t, b);
    }
  }

  /** Digits are no semicolons, marks or backslashes. */
  lemma {:induction false} HexHasNone(digits: Bytes)
    requires HexValue(digits).Some?
    ensures forall b :: b in digits ==> DigitOf(b).Some?
    ensures ';' as int !in digits && '"' as int !in digits && '|' as int !in digits
    ensures BACKSLASH !in digits && 0 !in digits
  {
    if digits != [] {
      HexHasNone(digits[..|digits| - 1]);
      assert digits == digits[..|digits| - 1] + [digits[|digits| - 1]];
    }
  }

  /** The front of s is read as a value and takes n bytes. */
  predicate ReadsFront(s: Bytes, value: Bytes, n: nat)
    requires s != []
  {
    ReadPiece(s) == Some((value, n))
  }

  /** How an element that is no continuation is read. */
  lemma {:induction false} ElementReads(e: Element, mark: Byte, rest: Bytes)
    requires IsElement(e, mark) && !e.Continuation? && (e == LineEnd([13]) ==> !StartsIn(rest, {10}))
    ensures var t := ElementText(e);
      t != [] && ReadsFront(t + rest, if e == LineEnd([13]) then [13] else ElementValue(e), |t|)
  {
    hide HexValue, Encode;
    var t := ElementText(e);
    var s := t + rest;
    match e
    case Hex(digits) =>
      var body := digits + [';' as int] + rest;
      assert s[0] == BACKSLASH && s[1] == 'x' as int && s[2..] == body;
      FindMark(digits, rest);
      assert s[2..2 + |digits|] == digits;
    case LineEnd(x) =>
      assert forall i :: 0 <= i < |x| ==> s[i] == x[i];
      assert rest != [] ==> s[|x|] == rest[0];
    case Char(b) => assert s[0] == b;
    case Mnemonic(letter) => assert s[0] == BACKSLASH && s[1] == letter;
    case Escape(b) => assert s[0] == BACKSLASH && s[1] == b;
    case Continuation(_, _, _) =>
  }

  /** How a continuation is read. */
  lemma {:induction false} ContinuationReads(e: Element, mark: Byte, rest: Bytes)
    requires IsElement(e, mark) && e.Continuation?
    ensures var t := ElementText(e);
      t != [] && ReadsFront(t + rest, [], |t| + WhitespaceLength(rest))
  {
    hide IsWhitespace, WhitespaceLength, HexValue, Encode;
    var w := e.before + e.ending + e.after;
    var s := ElementText(e) + rest;
    ContinuationPlain(e);
    assert s[0] == BACKSLASH && s[1..] == w + rest;
    assert w[0] in w && s[1] == w[0];
    NotLetter(w[0]);
    WhitespaceThen(w, rest);
  }

  lemma {:induction false} NotLetter(b: Byte)
    requires IsWhitespace(b)
    ensures b != 'x' as int
  {}

  lemma {:induction false} UnquotedStep(s: Bytes, value: Bytes, n: nat)
    requires s != [] && ReadsFront(s, value, n) && 0 < n <= |s|
    ensures var more := Unquoted(s[n..]);
      Unquoted(s) == if more.None? then None else Some(value + more.value)
  {
    hide ReadPiece;
  }

  lemma {:induction false} NothingQuoted()
    ensures Unquoted([]) == Some([])
  {}

  /** What the text of elements is read as. */
  lemma {:induction false} ElementsRead(es: seq<Element>, mark: Byte)
    requires AreElements(es, mark)
    ensures Unquoted(TextOf(es)) == Some(ReadValue(es))
    decreases |es|
  {
    hide Unquoted, ReadPiece, IsElement, ElementText, ElementValue, StartsIn;
    NothingQuoted();
    if es != [] {
      var e, more := es[0], TextOf(es[1..]);
      var t := ElementText(e);
      if e.Continuation? {
        ContinuationReads(e, mark, more);
        WhitespaceDropped(es[1..], mark);
        ElementsRead(DropWhite(es[1..]), mark);
        var n := |t| + WhitespaceLength(more);
        UnquotedStep(t + more, [], n);
        assert (t + more)[n..] == more[WhitespaceLength(more)..];
        assert [] + ReadValue(DropWhite(es[1..])) == ReadValue(DropWhite(es[1..]));
      } else {
        ElementReads(e, mark, more);
        ElementsRead(es[1..], mark);
        UnquotedStep(t + more, if e == LineEnd([13]) then [13] else ElementValue(e), |t|);
        assert (t + more)[|t|..] == more;
        LineEndValue(e);
      }
    }
  }

  lemma {:induction false} LineEndValue(e: Element)
    ensures e.LineEnd? ==> ElementValue(e) == [10]
  {}

  // ---------------------------------------------------------------- the standard

  /** No single return, and no white space of its own after a continuation. */
  predicate IsFaithful(es: seq<Element>) {
    es == [] ||
    (es[0] != LineEnd([13]) && IsFaithful(es[1..]) &&
     (es[0].Continuation? && |es| > 1 ==> !IsWhite(es[1])))
  }

  lemma {:induction false} DroppedValue(es: seq<Element>)
    ensures |ValueOf(DropWhite(es))| <= |ValueOf(es)|
    ensures es != [] && IsWhite(es[0]) ==> |ValueOf(DropWhite(es))| < |ValueOf(es)|
  {
    if es != [] && IsWhite(es[0]) { DroppedValue(es[1..]); }
  }

  lemma {:induction false} SameParts(a: Bytes, b: Bytes, c: Bytes, d: Bytes)
    requires |a| == |c|
    ensures a + b == c + d <==> a == c && b == d
  {
    if a + b == c + d {
      assert (a + b)[..|a|] == a && (c + d)[..|a|] == c;
      assert (a + b)[|a|..] == b && (c + d)[|a|..] == d;
    }
  }

  lemma {:induction false} ReadIsShorter(es: seq<Element>)
    ensures |ReadValue(es)| <= |ValueOf(es)|
    ensures ReadValue(es) == ValueOf(es) <==> IsFaithful(es)
    decreases |es|
  {
    hide ElementValue, IsWhite;
    if es != [] {
      var e, rest := es[0], es[1..];
      LineEndValue(e);
      if e.Continuation? {
        NoValue(e);
        ReadIsShorter(DropWhite(rest));
        DroppedValue(rest);
        if rest == [] || !IsWhite(rest[0]) { assert DropWhite(rest) == rest; }
        assert [] + ValueOf(rest) == ValueOf(rest);
      } else {
        ReadIsShorter(rest);
        var v := if e == LineEnd([13]) then [13] else ElementValue(e);
        SameParts(v, ReadValue(rest), ElementValue(e), ValueOf(rest));
      }
    }
  }

  lemma {:induction false} NoValue(e: Element)
    ensures e.Continuation? ==> ElementValue(e) == []
  {}

  /** The text of elements is read as what it stands for exactly when it has no single return and no
      continuation before more white space. */
  lemma {:induction false} ElementsExactly(es: seq<Element>, mark: Byte)
    requires AreElements(es, mark)
    ensures Unquoted(TextOf(es)) == Some(ValueOf(es)) <==> IsFaithful(es)
  {
    hide Unquoted, TextOf, ValueOf, ReadValue, AreElements;
    ElementsRead(es, mark);
    ReadIsShorter(es);
  }

  /** A line ending that is a single return is read as it is. */
  lemma {:induction false} ReturnStays()
    ensures Unquoted([13]) == Some([13]) && ValueOf([LineEnd([13])]) == [10]
  {
    var es := [LineEnd([13])];
    var none := es[1..];
    assert none == [];
    assert ReadValue(es) == [13] + ReadValue(none) == [13];
    assert TextOf(es) == [13] + TextOf(none) == [13];
    assert ValueOf(es) == [10] + ValueOf(none) == [10];
    ElementsRead(es, '"' as int);
  }

  /** A continuation takes a second line ending too. */
  lemma {:induction false} ContinuationTakesMore()
    ensures Unquoted([BACKSLASH, 10, 10]) == Some([])
    ensures var es := [Continuation([], [10], []), LineEnd([10])];
      AreElements(es, '"' as int) && TextOf(es) == [BACKSLASH, 10, 10] && ValueOf(es) == [10]
  {
    var es := [Continuation([], [10], []), LineEnd([10])];
    var rest, none: seq<Element> := es[1..], es[2..];
    assert rest == [LineEnd([10])] && rest[1..] == none == [];
    assert TextOf(rest) == [10] + TextOf(none) == [10] && ValueOf(rest) == [10] + ValueOf(none) == [10];
    assert TextOf(es) == [BACKSLASH, 10] + TextOf(rest) == [BACKSLASH, 10, 10];
    assert ValueOf(es) == [] + ValueOf(rest) == [10];
    assert DropWhite(rest) == DropWhite(none) == none;
    assert AreElements(none, '"' as int) && IsElement(rest[0], '"' as int) && AreElements(rest, '"' as int);
    assert IsElement(es[0], '"' as int);
    ElementsRead(es, '"' as int);
  }

  // ---------------------------------------------------------------- tokens

  /** An element does not end the literal. */
  lemma {:induction false} ElementLength(e: Element, mark: Byte, rest: Bytes)
    requires IsElement(e, mark) && IsMark(mark) && LiteralLength(rest, mark).Some?
    ensures LiteralLength(ElementText(e) + rest, mark) == Some(|ElementText(e)| + LiteralLength(rest, mark).value)
  {
    hide LiteralLength, HexValue;
    match e
    case Hex(digits) => HexLength(digits, mark, rest);
    case Continuation(_, _, _) => ContinuationLength(e, mark, rest);
    case Mnemonic(letter) => EscapeLength(letter, rest, mark);
    case Escape(b) => EscapeLength(b, rest, mark);
    case _ => PlainLength(ElementText(e), rest, mark);
  }

  lemma {:induction false} HexLength(digits: Bytes, mark: Byte, rest: Bytes)
    requires HexValue(digits).Some? && IsMark(mark) && LiteralLength(rest, mark).Some?
    ensures var t := ElementText(Hex(digits));
      LiteralLength(t + rest, mark) == Some(|t| + LiteralLength(rest, mark).value)
  {
    hide LiteralLength, HexValue;
    HexHasNone(digits);
    var w := digits + [';' as int];
    assert forall b :: b in w ==> b in digits || b == ';' as int;
    PlainLength(w, rest, mark);
    EscapeLength('x' as int, w + rest, mark);
    assert ElementText(Hex(digits)) + rest == [BACKSLASH, 'x' as int] + (w + rest);
  }

  lemma {:induction false} ContinuationLength(e: Element, mark: Byte, rest: Bytes)
    requires IsElement(e, mark) && e.Continuation? && IsMark(mark) && LiteralLength(rest, mark).Some?
    ensures LiteralLength(ElementText(e) + rest, mark) == Some(|ElementText(e)| + LiteralLength(rest, mark).value)
  {
    hide LiteralLength, HexValue;
    ContinuationPlain(e);
    var w := e.before + e.ending + e.after;
    var c, more := w[0], w[1..];
    assert w == [c] + more && forall b :: b in more ==> b in w;
    PlainLength(more, rest, mark);
    EscapeLength(c, more + rest, mark);
    assert ElementText(e) + rest == [BACKSLASH, c] + (more + rest);
  }

  lemma {:induction false} ContinuationPlain(e: Element)
    requires e.Continuation? && IsIntraline(e.before) && IsLineEnd(e.ending) && IsIntraline(e.after)
    ensures var w := e.before + e.ending + e.after; w != [] && forall b :: b in w ==> IsWhitespace(b)
  {
    var w := e.before + e.ending + e.after;
    forall b | b in w
      ensures IsWhitespace(b)
    {
      assert b in e.before || b in e.ending || b in e.after;
    }
  }

  lemma {:induction false} EscapeLength(b: Byte, rest: Bytes, mark: Byte)
    requires IsMark(mark) && LiteralLength(rest, mark).Some?
    ensures LiteralLength([BACKSLASH, b] + rest, mark) == Some(2 + LiteralLength(rest, mark).value)
  {
    assert ([BACKSLASH, b] + rest)[2..] == rest;
  }

  lemma {:induction false} PlainLength(s: Bytes, rest: Bytes, mark: Byte)
    requires IsMark(mark) && LiteralLength(rest, mark).Some?
    requires forall b :: b in s ==> b != mark && b != BACKSLASH && b != 0
    ensures LiteralLength(s + rest, mark) == Some(|s| + LiteralLength(rest, mark).value)
  {
    if s == [] {
      assert s + rest == rest;
    } else {
      var more := s[1..];
      assert s[0] in s && s == [s[0]] + more && (s + rest)[1..] == more + rest;
      assert forall b :: b in more ==> b in s;
      PlainLength(more, rest, mark);
    }
  }

  lemma {:induction false} TextLength(es: seq<Element>, mark: Byte, rest: Bytes)
    requires AreElements(es, mark) && IsMark(mark) && LiteralLength(rest, mark).Some?
    ensures LiteralLength(TextOf(es) + rest, mark) == Some(|TextOf(es)| + LiteralLength(rest, mark).value)
    decreases |es|
  {
    hide LiteralLength, IsElement, ElementText;
    if es == [] {
      assert TextOf(es) + rest == rest;
    } else {
      var more := TextOf(es[1..]);
      TextLength(es[1..], mark, rest);
      ElementLength(es[0], mark, more + rest);
      assert ElementText(es[0]) + more + rest == ElementText(es[0]) + (more + rest);
    }
  }

  /** A string, or a symbol between vertical lines, is one token and is read as the value of its elements
      when these are faithful. */
  lemma {:induction false} LiteralReads(es: seq<Element>, mark: Byte)
    requires AreElements(es, mark) && IsFaithful(es) && IsMark(mark)
    ensures IsAtom([mark] + TextOf(es) + [mark],
                   if mark == '"' as int then String(ValueOf(es)) else Symbol(ValueOf(es)))
  {
    hide LiteralLength, Unquoted, TextOf, ValueOf, SkipWhitespace, AreElements, IsFaithful;
    var text := [mark] + TextOf(es) + [mark];
    ElementsExactly(es, mark);
    forall rest | EndsToken(rest)
      ensures AtomAt(text, if mark == '"' as int then String(ValueOf(es)) else Symbol(ValueOf(es)), rest)
    {
      var s, end := text + rest, [mark] + rest;
      MarkLength(mark, rest);
      TextLength(es, mark, end);
      assert s[0] == mark && s[1..] == TextOf(es) + end;
      SkipNothing(s);
      assert s[..|text|] == text && s[|text|..] == rest;
      assert text[1..|text| - 1] == TextOf(es);
    }
  }

  lemma {:induction false} MarkLength(mark: Byte, rest: Bytes)
    ensures LiteralLength([mark] + rest, mark) == Some(1)
  {}
}
