/**
 Tokens of program text (schir/lib/Lexer.cpp).

 The end of the text reads as the character 0.  Comments, characters, byte vectors
 and directives are one kind of token that the parser does not take further.
 */
module Lexing {
  import opened Options
  import opened Utf8
  import opened Ascii

  datatype Kind =
    | Eof | Identifier | RelaxedIdentifier | Numeric | TrueLit | FalseLit
    | LParen | RParen | LBrace | RBrace | LSquare | RSquare | VectorLParen | Period
    | StringLiteral | SymbolLiteral | LiteralEof
    | QuoteMark | Quasiquote | Unquote | UnquoteSplicing
    | Unknown

  datatype Token = Token(kind: Kind, text: Bytes)

  /** The character at a position: 0 past the end. */
  function Peek(s: Bytes, i: nat): Byte { if i < |s| then s[i] else 0 }

  predicate OneOf(b: Byte, chars: seq<char>) {
    exists i :: 0 <= i < |chars| && chars[i] as int == b
  }

  // ---------------------------------------------------------------- character classes

  predicate IsWhitespace(b: Byte) { 9 <= b <= 13 || b == 32 }

  predicate IsDelimiter(b: Byte) {
    b == 0 || b == '"' as int || b == ';' as int || b == '(' as int || b == ')' as int || b == '[' as int
    || b == ']' as int || b == '{' as int || b == '}' as int || b == '|' as int || IsWhitespace(b)
  }

  predicate IsLetter(b: Byte) { IsLower(b) || IsUpper(b) }

  /** initial of section 7.1.1 of R7RS */
  predicate IsInitial(b: Byte) {
    IsLetter(b) || b == '*' as int || b == '/' as int || b == '<' as int || b == '=' as int || b == '>' as int
    || b == '!' as int || b == '?' as int || b == ':' as int || b == '$' as int || b == '%' as int
    || b == '_' as int || b == '&' as int || b == '~' as int || b == '^' as int
  }

  predicate IsExplicitSign(b: Byte) { b == '+' as int || b == '-' as int }

  /** subsequent of section 7.1.1 of R7RS */
  predicate IsSubsequent(b: Byte) {
    IsInitial(b) || IsDigit(b) || IsExplicitSign(b) || b == '.' as int || b == '@' as int
  }

  predicate IsSignSubsequent(b: Byte) { IsInitial(b) || IsExplicitSign(b) || b == '@' as int }

  predicate IsDotSubsequent(b: Byte) { IsSignSubsequent(b) || b == '.' as int }

  predicate IsExtendedAlphabet(b: Byte) {
    IsInitial(b) || IsDigit(b) || IsExplicitSign(b) || b == '.' as int
  }

  lemma {:induction false} DelimiterIsNone(b: Byte)
    requires IsDelimiter(b)
    ensures !IsSubsequent(b) && !IsDotSubsequent(b) && !IsExtendedAlphabet(b) && b != 'i' as int && b != 'n' as int
  {}

  // ---------------------------------------------------------------- identifiers

  const NAN: Bytes := ['n' as int, 'a' as int, 'n' as int, '.' as int, '0' as int]

  const INF: Bytes := ['i' as int, 'n' as int, 'f' as int, '.' as int, '0' as int]

  /** isPeculiarIdentifierPrefix: a sign or a dot followed by t begins an identifier. */
  predicate IsPeculiarPrefix(c: Byte, t: Bytes) {
    var c0 := Peek(t, 0);
    var c1 := if c0 == 0 then 0 else Peek(t, 1);
    var c2 := if c1 == 0 then 0 else Peek(t, 2);
    && !(IsExplicitSign(c) && ((c0 == 'i' as int && IsDelimiter(c1)) || NAN <= t || INF <= t))
    && ((IsExplicitSign(c) && IsDelimiter(c0))
        || (IsExplicitSign(c) && IsSignSubsequent(c0) && (IsSubsequent(c1) || IsDelimiter(c1)))
        || (IsExplicitSign(c) && c0 == '.' as int && IsDotSubsequent(c1) && (IsSubsequent(c2) || IsDelimiter(c2)))
        || (c == '.' as int && IsDotSubsequent(c0) && (IsSubsequent(c1) || IsDelimiter(c1))))
  }

  /** SkipUntilDelimiter: how many characters come before a delimiter. */
  function UntilDelimiter(s: Bytes): (n: nat)
    ensures n <= |s| && forall i :: 0 <= i < n ==> !IsDelimiter(s[i])
    ensures n < |s| ==> IsDelimiter(s[n])
  {
    if s == [] || IsDelimiter(s[0]) then 0 else 1 + UntilDelimiter(s[1..])
  }

  predicate AllExtended(s: Bytes) {
    s == [] || (IsExtendedAlphabet(s[0]) && AllExtended(s[1..]))
  }

  // ---------------------------------------------------------------- tokens

  /** The length of a literal after its opening mark, with the closing one. */
  function LiteralLength(s: Bytes, mark: Byte): (r: Option<nat>)
    ensures r.Some? ==> 0 < r.value <= |s|
    decreases |s|
  {
    if s == [] then None
    else if s[0] == mark then Some(1)
    else if s[0] == '\\' as int then
      (if |s| < 2 then None else
         var r := LiteralLength(s[2..], mark);
         if r.None? then None else Some(r.value + 2))
    else if s[0] == 0 then None
    else
      var r := LiteralLength(s[1..], mark);
      if r.None? then None else Some(r.value + 1)
  }

  function LexLiteral(s: Bytes, kind: Kind): (r: (Kind, nat))
    requires s != []
    ensures 0 < r.1 <= |s|
  {
    var n := LiteralLength(s[1..], s[0]);
    if n.None? then (LiteralEof, |s|) else (kind, 1 + n.value)
  }

  function LexIdentifier(s: Bytes): (r: (Kind, nat))
    requires s != []
    ensures 0 < r.1 <= |s|
  {
    var n := UntilDelimiter(s[1..]);
    var isStrict := (IsInitial(s[0]) || IsPeculiarPrefix(s[0], s[1..])) && AllExtended(s[1..][..n]);
    (if isStrict then Identifier else RelaxedIdentifier, 1 + n)
  }

  function LexNumber(s: Bytes): (r: (Kind, nat))
    requires s != []
    ensures 0 < r.1 <= |s|
  {
    (Numeric, 1 + UntilDelimiter(s[1..]))
  }

  function LexNumberOrIdentifier(s: Bytes): (r: (Kind, nat))
    requires s != []
    ensures 0 < r.1 <= |s|
  {
    if IsPeculiarPrefix(s[0], s[1..]) then LexIdentifier(s) else LexNumber(s)
  }

  /** #t, #f and #( */
  function LexSharp(s: Bytes): (r: (Kind, nat))
    requires s != []
    ensures 0 < r.1 <= |s|
  {
    var c := Peek(s, 1);
    if c == '(' as int then (VectorLParen, 2)
    else if (c == 't' as int || c == 'f' as int) && IsDelimiter(Peek(s, 2)) then
      (if c == 't' as int then TrueLit else FalseLit, 2)
    else (Unknown, 1 + UntilDelimiter(s[1..]))
  }

  /** The kind and the length of the token at the front, which is not whitespace. */
  function LexFront(s: Bytes): (r: (Kind, nat))
    ensures r.1 <= |s| && (r.0 != Eof ==> r.1 > 0)
  {
    if s == [] || s[0] == 0 then (Eof, 0)
    else
      var c := s[0];
      if IsExplicitSign(c) then LexNumberOrIdentifier(s)
      else if c == '.' as int then (if IsDelimiter(Peek(s, 1)) then (Period, 1) else LexNumberOrIdentifier(s))
      else if IsDigit(c) then LexNumber(s)
      else if c == '#' as int then LexSharp(s)
      else if c == '"' as int then LexLiteral(s, StringLiteral)
      else if c == '|' as int then LexLiteral(s, SymbolLiteral)
      else if c == '(' as int then (LParen, 1)
      else if c == ')' as int then (RParen, 1)
      else if c == '{' as int then (LBrace, 1)
      else if c == '}' as int then (RBrace, 1)
      else if c == '[' as int then (LSquare, 1)
      else if c == ']' as int then (RSquare, 1)
      else if c == '\'' as int then (QuoteMark, 1)
      else if c == '`' as int then (Quasiquote, 1)
      else if c == ',' as int then (if Peek(s, 1) == '@' as int then (UnquoteSplicing, 2) else (Unquote, 1))
      else if c == ';' as int then (Unknown, |s|)
      else LexIdentifier(s)
  }

  function SkipWhitespace(s: Bytes): (r: Bytes)
    ensures |r| <= |s|
  {
    if s != [] && IsWhitespace(s[0]) then SkipWhitespace(s[1..]) else s
  }

  /** The next token and what follows it. */
  function Next(s: Bytes): (r: (Token, Bytes))
    ensures |r.1| <= |s| && (r.0.kind != Eof ==> |r.1| < |s|)
  {
    var t := SkipWhitespace(s);
    var (kind, n) := LexFront(t);
    (Token(kind, t[..n]), t[n..])
  }

  /** The lexer at a position of the text. */
  class Lexer {
    var rest: Bytes

    constructor (s: Bytes)
      ensures rest == s
    {
      rest := s;
    }

    method ProcessWhitespace()
      modifies this
      ensures rest == SkipWhitespace(old(rest))
    {
      while rest != [] && IsWhitespace(rest[0])
        invariant SkipWhitespace(rest) == SkipWhitespace(old(rest))
        decreases |rest|
      {
        rest := rest[1..];
      }
    }

    method Lex() returns (tok: Token)
      modifies this
      ensures (tok, rest) == Next(old(rest))
    {
      ProcessWhitespace();
      var (kind, n) := LexFront(rest);
      tok := Token(kind, rest[..n]);
      rest := rest[n..];
    }
  }

  // ---------------------------------------------------------------- tokens in context

  /** Nothing follows, or a delimiter does. */
  predicate EndsToken(rest: Bytes) { rest == [] || IsDelimiter(rest[0]) }

  lemma {:induction false} UntilInContext(t: Bytes, rest: Bytes)
    requires UntilDelimiter(t) == |t| && EndsToken(rest)
    ensures UntilDelimiter(t + rest) == |t|
  {
    if t == [] {
      assert t + rest == rest;
    } else {
      assert (t + rest)[1..] == t[1..] + rest;
      UntilInContext(t[1..], rest);
    }
  }

  /** Whether a prefix is peculiar depends on what comes before the next delimiter. */
  lemma {:induction false} PeculiarInContext(c: Byte, t: Bytes, rest: Bytes)
    requires UntilDelimiter(t) == |t| && EndsToken(rest)
    ensures IsPeculiarPrefix(c, t + rest) == IsPeculiarPrefix(c, t)
  {
    var u := t + rest;
    if rest != [] {
      DelimiterIsNone(rest[0]);
    }
    DelimiterIsNone(0);
    assert forall i :: 0 <= i < |t| ==> u[i] == t[i] && t[i] != 0;
    assert rest != [] ==> u[|t|] == rest[0];
    InfNanInContext(NAN, t, rest);
    InfNanInContext(INF, t, rest);
  }

  lemma {:induction false} InfNanInContext(name: Bytes, t: Bytes, rest: Bytes)
    requires name == NAN || name == INF
    requires UntilDelimiter(t) == |t| && EndsToken(rest)
    ensures name <= t + rest <==> name <= t
  {
    var u := t + rest;
    assert forall i :: 0 <= i < |name| ==> !IsDelimiter(name[i]);
    if |t| < |name| && |t| < |u| {
      assert u[|t|] == rest[0] != name[|t|];
    }
  }

  /** A text that is an identifier by itself is the same identifier before a delimiter. */
  lemma {:induction false} IdentifierInContext(s: Bytes, rest: Bytes)
    requires IsIdentifier(s) && EndsToken(rest)
    ensures Next(s + rest) == (Token(Identifier, s), rest)
  {
    hide LexFront, SkipWhitespace;
    NoWhitespaceBefore(s);
    assert s[..|s|] == s && s[|s|..] == [];
    WordInContext(s, Identifier, rest);
  }

  lemma {:induction false} WordInContext(s: Bytes, kind: Kind, rest: Bytes)
    requires kind in {Identifier, RelaxedIdentifier} && Next(s) == (Token(kind, s), []) && EndsToken(rest)
    ensures Next(s + rest) == (Token(kind, s), rest)
  {
    hide IsPeculiarPrefix, LiteralLength, UntilDelimiter, SkipWhitespace, LexFront, LexIdentifier;
    NoWhitespaceBefore(s);
    var u := s + rest;
    WordFront(s);
    var t := s[1..];
    assert u[1..] == t + rest;
    PeculiarInContext(s[0], t, rest);
    WordLonger(s, rest);
    SkipNothing(u);
    assert u[..|s|] == s && u[|s|..] == rest;
    SameFront(s, u);
  }

  /** A word, which LexIdentifier takes. */
  lemma {:induction false} WordFront(s: Bytes)
    requires LexFront(s).0 in {Identifier, RelaxedIdentifier} && LexFront(s).1 == |s|
    ensures s != [] && LexFront(s) == LexIdentifier(s) && UntilDelimiter(s[1..]) == |s| - 1
  {
    hide IsPeculiarPrefix, AllExtended;
  }

  lemma {:induction false} WordLonger(s: Bytes, rest: Bytes)
    requires s != [] && UntilDelimiter(s[1..]) == |s| - 1 && EndsToken(rest)
    ensures LexIdentifier(s + rest) == LexIdentifier(s)
    ensures s[0] == '.' as int && !IsDelimiter(Peek(s, 1)) ==> !IsDelimiter(Peek(s + rest, 1))
  {
    hide IsPeculiarPrefix, AllExtended, UntilDelimiter;
    var t, u := s[1..], s + rest;
    assert u[1..] == t + rest && u[0] == s[0];
    UntilInContext(t, rest);
    PeculiarInContext(s[0], t, rest);
    assert (t + rest)[..|t|] == t && t[..|t|] == t;
    assert Peek(s, 1) != 0 ==> Peek(u, 1) == Peek(s, 1);
  }

  lemma {:induction false} SameFront(s: Bytes, u: Bytes)
    requires s != [] && u != [] && u[0] == s[0] && LexFront(s).0 in {Identifier, RelaxedIdentifier}
    requires LexFront(s) == LexIdentifier(s) == LexIdentifier(u)
    requires IsPeculiarPrefix(u[0], u[1..]) == IsPeculiarPrefix(s[0], s[1..])
    requires s[0] == '.' as int && !IsDelimiter(Peek(s, 1)) ==> !IsDelimiter(Peek(u, 1))
    ensures LexFront(u) == LexFront(s)
  {
    hide IsPeculiarPrefix, LexIdentifier, IsDelimiter, LiteralLength;
  }

  /** Writer::isIdentifier lexes the text. */
  predicate IsIdentifier(s: Bytes) { Next(s).0.kind == Identifier && |Next(s).0.text| == |s| }

  lemma {:induction false} NoWhitespaceBefore(s: Bytes)
    requires |Next(s).0.text| == |s|
    ensures SkipWhitespace(s) == s && (s != [] ==> !IsWhitespace(s[0]))
  {
    SkipShortens(s);
  }

  lemma {:induction false} SkipShortens(s: Bytes)
    ensures |SkipWhitespace(s)| == |s| ==> SkipWhitespace(s) == s && (s != [] ==> !IsWhitespace(s[0]))
  {}

  lemma {:induction false} SkipNothing(s: Bytes)
    requires s != [] && !IsWhitespace(s[0])
    ensures SkipWhitespace(s) == s
  {}

  // ---------------------------------------------------------------- the standard

  predicate AllSubsequent(s: Bytes) {
    s == [] || (IsSubsequent(s[0]) && AllSubsequent(s[1..]))
  }

  /** identifier of section 7.1.1 of R7RS, without vertical lines */
  predicate IsStandardIdentifier(s: Bytes) {
    && s != []
    && ((IsInitial(s[0]) && AllSubsequent(s[1..]))
        || (IsExplicitSign(s[0]) && |s| == 1)
        || (IsExplicitSign(s[0]) && |s| > 1 && IsSignSubsequent(s[1]) && AllSubsequent(s[2..]))
        || (IsExplicitSign(s[0]) && |s| > 2 && s[1] == '.' as int && IsDotSubsequent(s[2]) && AllSubsequent(s[3..]))
        || (s[0] == '.' as int && |s| > 1 && IsDotSubsequent(s[1]) && AllSubsequent(s[2..])))
  }

  lemma {:induction false} ExtendedIsSubsequent(s: Bytes, i: nat)
    requires AllExtended(s) && i <= |s|
    ensures AllSubsequent(s[i..])
    decreases |s|
  {
    if i > 0 {
      ExtendedIsSubsequent(s[1..], i - 1);
      assert s[1..][i - 1..] == s[i..];
    } else if s != [] {
      ExtendedIsSubsequent(s[1..], 0);
      assert s[0..] == s && s[1..][0..] == s[1..];
    }
  }

  lemma {:induction false} IdentifierParts(s: Bytes)
    requires IsIdentifier(s)
    ensures s != [] && AllExtended(s[1..]) && UntilDelimiter(s[1..]) == |s| - 1
    ensures IsInitial(s[0]) || IsPeculiarPrefix(s[0], s[1..])
  {
    hide IsPeculiarPrefix, LiteralLength, AllExtended, UntilDelimiter, SkipWhitespace;
    NoWhitespaceBefore(s);
    assert s[1..][..|s| - 1] == s[1..];
  }

  /** What the lexer takes for an identifier is one by the standard. */
  lemma {:induction false} IdentifierIsStandard(s: Bytes)
    requires IsIdentifier(s)
    ensures IsStandardIdentifier(s)
  {
    IdentifierParts(s);
    var t := s[1..];
    ExtendedIsSubsequent(t, 0);
    assert t[0..] == t;
    if |t| > 0 {
      ExtendedIsSubsequent(t, 1);
      assert t[1..] == s[2..];
    }
    if |t| > 1 {
      ExtendedIsSubsequent(t, 2);
      assert t[2..] == s[3..];
    }
    if !IsInitial(s[0]) {
      PeculiarIsStandard(s);
    }
  }

  lemma {:induction false} PeculiarIsStandard(s: Bytes)
    requires s != [] && IsPeculiarPrefix(s[0], s[1..]) && UntilDelimiter(s[1..]) == |s| - 1
    requires AllSubsequent(s[1..]) && (|s| > 1 ==> AllSubsequent(s[2..])) && (|s| > 2 ==> AllSubsequent(s[3..]))
    ensures IsStandardIdentifier(s)
  {
    hide AllSubsequent;
    DelimiterIsNone(0);
    var t := s[1..];
    assert |t| > 0 ==> t[0] == s[1] && !IsDelimiter(t[0]);
    assert |t| > 1 ==> t[1] == s[2] && !IsDelimiter(t[1]);
  }

  /** What section 7.1.1 of R7RS excepts, with whatever follows the names of the exceptions. */
  predicate IsNumberLike(s: Bytes) {
    s != [] && IsExplicitSign(s[0]) && (s[1..] == ['i' as int] || NAN <= s[1..] || INF <= s[1..])
  }

  lemma {:induction false} SubsequentIsExtended(s: Bytes)
    requires AllSubsequent(s)
    ensures UntilDelimiter(s) == |s|
    ensures AllExtended(s) <==> '@' as int !in s
  {
    if s != [] {
      if IsDelimiter(s[0]) { DelimiterIsNone(s[0]); }
      SubsequentIsExtended(s[1..]);
      assert s == [s[0]] + s[1..];
    }
  }

  /** The rest of an identifier. */
  lemma {:induction false} StandardRest(s: Bytes)
    requires IsStandardIdentifier(s)
    ensures AllSubsequent(s[1..])
  {
    if !IsInitial(s[0]) && |s| > 1 {
      var t := s[1..];
      assert t[1..] == s[2..];
      if |t| > 1 {
        var u := t[1..];
        assert u[1..] == s[3..];
      }
    }
  }

  lemma {:induction false} StandardIsPeculiar(s: Bytes)
    requires IsStandardIdentifier(s) && !IsNumberLike(s) && !IsInitial(s[0])
    ensures IsPeculiarPrefix(s[0], s[1..])
  {
    hide AllSubsequent;
    StandardRest(s);
    var t := s[1..];
    if |t| > 0 { SubsequentAt(t, 0); }
    if |t| > 1 { SubsequentAt(t, 1); }
    if |t| > 2 { SubsequentAt(t, 2); }
    assert t == [] || t == [t[0]] || |t| > 1;
  }

  lemma {:induction false} SubsequentAt(s: Bytes, i: nat)
    requires AllSubsequent(s) && i < |s|
    ensures IsSubsequent(s[i]) && s[i] != 0
  {
    if i > 0 { SubsequentAt(s[1..], i - 1); }
  }

  /** An identifier of the standard is lexed as one, strict without the character @ after the first. */
  lemma {:induction false} StandardLexes(s: Bytes)
    requires IsStandardIdentifier(s) && !IsNumberLike(s)
    ensures Next(s) == (Token(if '@' as int in s[1..] then RelaxedIdentifier else Identifier, s), [])
  {
    hide IsPeculiarPrefix, LiteralLength, AllExtended, AllSubsequent, UntilDelimiter, SkipWhitespace;
    hide IsStandardIdentifier, IsNumberLike;
    StandardStart(s);
    StandardRest(s);
    var t := s[1..];
    SubsequentIsExtended(t);
    if !IsInitial(s[0]) { StandardIsPeculiar(s); }
    SkipNothing(s);
    assert t[..|t|] == t && s[..|s|] == s && s[|s|..] == [];
  }

  lemma {:induction false} StandardStart(s: Bytes)
    requires IsStandardIdentifier(s)
    ensures s != []
    ensures IsInitial(s[0]) || IsExplicitSign(s[0]) || s[0] == '.' as int
    ensures s[0] == '.' as int ==> |s| > 1 && !IsDelimiter(s[1])
  {
    if s[0] == '.' as int && IsDelimiter(s[1]) { DelimiterIsNone(s[1]); }
  }

  /** What is lexed as an identifier is exactly what is one by the standard, is no number, and has no @ after
      the first character. */
  lemma {:induction false} IdentifierExactly(s: Bytes)
    ensures IsIdentifier(s) <==> IsStandardIdentifier(s) && !IsNumberLike(s) && '@' as int !in s[1..]
  {
    hide Next;
    if IsStandardIdentifier(s) && !IsNumberLike(s) {
      StandardLexes(s);
    } else if IsIdentifier(s) {
      IdentifierIsStandard(s);
      IdentifierIsNoNumber(s);
    }
    if IsIdentifier(s) {
      IdentifierIsStandard(s);
    }
  }

  lemma {:induction false} IdentifierIsNoNumber(s: Bytes)
    requires IsIdentifier(s)
    ensures !IsNumberLike(s)
  {
    IdentifierParts(s);
    DelimiterIsNone(0);
    assert IsExplicitSign(s[0]) ==> !IsInitial(s[0]);
  }
}
