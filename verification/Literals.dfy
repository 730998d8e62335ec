/**
 Strings and escaped symbols as text (WriteLiteral in schir/lib/Context.cpp,
 ParseLiteralImpl in schir/lib/Parser.cpp).
 */
module Literals {
  import opened Options
  import opened Utf8
  import opened Ascii
  import opened Lexing

  /** Which code points are written as they are; 0, which also stands for a byte
      that does not begin a code point, is not. */
  type Printable = nat -> bool

  const BACKSLASH: Byte := '\\' as int

  /** Characters that have an escape of one letter. */
  function ShortEscape(b: Byte): Option<Byte> {
    if b == 7 then Some('a' as int)
    else if b == 8 then Some('b' as int)
    else if b == 9 then Some('t' as int)
    else if b == 10 then Some('n' as int)
    else if b == 13 then Some('r' as int)
    else None
  }

  /** How one character or code point is written, and how much of the text it takes. */
  function Piece(printable: Printable, s: Bytes, mark: Byte): (r: (Bytes, nat))
    requires s != []
    ensures 0 < r.1 <= |s|
  {
    if ShortEscape(s[0]).Some? then ([BACKSLASH, ShortEscape(s[0]).value], 1)
    else if s[0] == mark || s[0] == BACKSLASH then ([BACKSLASH, s[0]], 1)
    else if s[0] == '"' as int || s[0] == '|' as int then ([s[0]], 1)
    else
      var (c, n) := DecodeFront(s);
      if printable(c) && n > 0 then (s[..n], n)
      else (Letter('\\') + Letter('x') + HexDigits(c) + Letter(';'), 1)
  }

  /** The text between the marks. */
  function Escaped(printable: Printable, s: Bytes, mark: Byte): Bytes
    decreases |s|
  {
    if s == [] then [] else
      var (p, n) := Piece(printable, s, mark);
      p + Escaped(printable, s[n..], mark)
  }

  function Literal(printable: Printable, s: Bytes, mark: Byte): Bytes {
    [mark] + Escaped(printable, s, mark) + [mark]
  }

  /** Writer::WriteLiteral */
  method WriteLiteral(printable: Printable, text: Bytes, mark: Byte) returns (out: Bytes)
    ensures out == Literal(printable, text, mark)
  {
    out := [mark];
    var s := text;
    while |s| > 0
      invariant out + Escaped(printable, s, mark) == [mark] + Escaped(printable, text, mark)
      decreases |s|
    {
      var (p, n) := Piece(printable, s, mark);
      Regroup(out, p, Escaped(printable, s[n..], mark));
      out := out + p;
      s := s[n..];
    }
    assert out + [] == out;
    out := out + [mark];
  }

  lemma {:induction false} Regroup(a: Bytes, b: Bytes, c: Bytes)
    ensures a + (b + c) == a + b + c
  {}

  // ---------------------------------------------------------------- reading

  /** The position of a character. */
  function Find(s: Bytes, b: Byte): (r: Option<nat>)
    ensures r.Some? ==> r.value < |s|
  {
    if s == [] then None
    else if s[0] == b then Some(0)
    else
      var r := Find(s[1..], b);
      if r.None? then None else Some(r.value + 1)
  }

  /** The text that one piece of a literal stands for, and the length of the piece. */
  function ReadPiece(s: Bytes): (r: Option<(Bytes, nat)>)
    requires s != []
    ensures r.Some? ==> 0 < r.value.1 <= |s|
  {
    if s[0] == BACKSLASH then
      if |s| < 2 then None
      else if s[1] == 'x' as int then
        var end := Find(s[2..], ';' as int);
        if end.None? then None
        else
          var hex := HexValue(s[2..2 + end.value]);
          if hex.None? then None else Some((Encode(hex.value % UINT32), 3 + end.value))
      else if IsWhitespace(s[1]) then Some(([], 1 + WhitespaceLength(s[1..])))
      else Some(([Unescaped(s[1])], 2))
    else if |s| >= 2 && s[0] == 13 && s[1] == 10 then Some(([10], 2))
    else Some(([s[0]], 1))
  }

  function WhitespaceLength(s: Bytes): (n: nat)
    ensures n <= |s|
  {
    if s != [] && IsWhitespace(s[0]) then 1 + WhitespaceLength(s[1..]) else 0
  }

  function Unescaped(b: Byte): Byte {
    if b == 'a' as int then 7
    else if b == 'b' as int then 8
    else if b == 't' as int then 9
    else if b == 'n' as int then 10
    else if b == 'r' as int then 13
    else b
  }

  /** The text between the marks, read back. */
  function Unquoted(s: Bytes): Option<Bytes>
    decreases |s|
  {
    if s == [] then Some([]) else
      var piece := ReadPiece(s);
      if piece.None? then None else
        var more := Unquoted(s[piece.value.1..]);
        if more.None? then None else Some(piece.value.0 + more.value)
  }

  /** Parser::ParseLiteralImpl fills its buffer piece by piece. */
  method ParseLiteral(text: Bytes) returns (result: Option<Bytes>)
    ensures result == Unquoted(text)
  {
    var s, buffer: Bytes := text, [];
    ghost var whole := Unquoted(text);
    assert whole.Some? ==> [] + whole.value == whole.value;
    while |s| > 0
      invariant Unquoted(s).None? <==> whole.None?
      invariant whole.Some? ==> whole.value == buffer + Unquoted(s).value
      decreases |s|
    {
      var piece := ReadPiece(s);
      if piece.None? {
        return None;
      }
      ghost var more := Unquoted(s[piece.value.1..]);
      if more.Some? {
        Regroup(buffer, piece.value.0, more.value);
      }
      buffer := buffer + piece.value.0;
      s := s[piece.value.1..];
    }
    assert buffer + [] == buffer;
    return Some(buffer);
  }

  /** Every code point is printable, and none is the mark or a backslash or has an escape of its own. */
  predicate IsPlainText(printable: Printable, s: Bytes, mark: Byte)
    decreases |s|
  {
    s == [] ||
    (s[0] != mark && s[0] != BACKSLASH && !(7 <= s[0] <= 10) && s[0] != 13 &&
     if s[0] == '"' as int || s[0] == '|' as int then IsPlainText(printable, s[1..], mark)
     else var (c, n) := DecodeFront(s); n > 0 && printable(c) && IsPlainText(printable, s[n..], mark))
  }

  /** Only what has to be is escaped: a text is written as it is between the marks exactly when it is plain. */
  lemma {:induction false} EscapedExactly(printable: Printable, s: Bytes, mark: Byte)
    ensures |Escaped(printable, s, mark)| >= |s|
    ensures Escaped(printable, s, mark) == s <==> IsPlainText(printable, s, mark)
    decreases |s|
  {
    hide HexDigits, Encode;
    if s != [] {
      var (p, n) := Piece(printable, s, mark);
      EscapedExactly(printable, s[n..], mark);
      PieceExactly(printable, s, mark);
      var more := Escaped(printable, s[n..], mark);
      assert s == s[..n] + s[n..];
      if p == s[..n] {
        assert (p + more)[|p|..] == more && s[n..] == s[|p|..];
      } else {
        assert |p + more| > |s|;
      }
    }
  }

  /** A piece is as it is, or longer. */
  lemma {:induction false} PieceExactly(printable: Printable, s: Bytes, mark: Byte)
    requires s != []
    ensures var (p, n) := Piece(printable, s, mark);
      && (p == s[..n] || |p| > n)
      && (p == s[..n] <==>
            s[0] != mark && s[0] != BACKSLASH && !(7 <= s[0] <= 10) && s[0] != 13 &&
            (s[0] == '"' as int || s[0] == '|' as int ||
             (DecodeFront(s).1 > 0 && printable(DecodeFront(s).0))))
      && (p == s[..n] ==> n == if s[0] == '"' as int || s[0] == '|' as int then 1 else DecodeFront(s).1)
  {
    hide HexDigits, DecodeFront;
    assert s[..1] == [s[0]];
  }

  // ---------------------------------------------------------------- what is read back

  /** What a literal is read back as: a code point that is not written as it is
      is escaped whole but only its first byte is passed over. */
  function ReadBack(printable: Printable, s: Bytes): Bytes
    decreases |s|
  {
    if s == [] then [] else
      var (c, n) := DecodeFront(s);
      if s[0] < 0x80 then [s[0]] + ReadBack(printable, s[1..])
      else if printable(c) && n > 0 then s[..n] + ReadBack(printable, s[n..])
      else Encode(c) + ReadBack(printable, s[1..])
  }

  /** Every byte beyond ASCII belongs to a printable code point. */
  predicate Clean(printable: Printable, s: Bytes)
    decreases |s|
  {
    if s == [] then true
    else if s[0] < 0x80 then Clean(printable, s[1..])
    else
      var (c, n) := DecodeFront(s);
      printable(c) && n > 0 && Clean(printable, s[n..])
  }

  lemma {:induction false} ReadBackGrows(printable: Printable, s: Bytes)
    ensures |ReadBack(printable, s)| >= |s|
    decreases |s|
  {
    if s != [] {
      var (c, n) := DecodeFront(s);
      if s[0] < 0x80 {
        ReadBackGrows(printable, s[1..]);
      } else if printable(c) && n > 0 {
        ReadBackGrows(printable, s[n..]);
      } else {
        ReadBackGrows(printable, s[1..]);
        assert |Encode(c)| >= 1;
      }
    }
  }

  /** A literal is read back as itself exactly when it is clean. */
  lemma {:induction false} ReadBackIsSame(printable: Printable, s: Bytes)
    ensures ReadBack(printable, s) == s <==> Clean(printable, s)
    decreases |s|
  {
    if s != [] {
      var (c, n) := DecodeFront(s);
      if s[0] < 0x80 {
        ReadBackIsSame(printable, s[1..]);
        assert s == [s[0]] + s[1..];
        SameAfter([s[0]], ReadBack(printable, s[1..]), s[1..]);
      } else if printable(c) && n > 0 {
        ReadBackIsSame(printable, s[n..]);
        assert s == s[..n] + s[n..];
        SameAfter(s[..n], ReadBack(printable, s[n..]), s[n..]);
      } else {
        ReadBackGrows(printable, s[1..]);
        if n == 0 {
          assert ReadBack(printable, s)[0] == 0;
        } else {
          EncodeDecode(s);
          assert |ReadBack(printable, s)| > |s|;
        }
      }
    }
  }

  lemma {:induction false} SameAfter(p: Bytes, a: Bytes, b: Bytes)
    ensures p + a == p + b <==> a == b
  {
    if p + a == p + b {
      assert (p + a)[|p|..] == a && (p + b)[|p|..] == b;
    }
  }

  // ---------------------------------------------------------------- writing, then reading

  predicate IsMark(mark: Byte) { mark == '"' as int || mark == '|' as int }

  /** Bytes that are read as they are and do not end a literal. */
  predicate IsPlain(b: Byte, mark: Byte) { b != mark && b != BACKSLASH && b != 0 && b != 13 }

  predicate AllPlain(s: Bytes, mark: Byte) {
    s == [] || (IsPlain(s[0], mark) && AllPlain(s[1..], mark))
  }

  lemma {:induction false} PlainStep(p: Bytes, mark: Byte)
    requires AllPlain(p, mark) && p != []
    ensures IsPlain(p[0], mark) && AllPlain(p[1..], mark)
  {}

  lemma {:induction false} PlainPiece(s: Bytes, mark: Byte)
    requires s != [] && IsPlain(s[0], mark)
    ensures ReadPiece(s) == Some(([s[0]], 1))
  {}

  lemma {:induction false} PlainCons(b: Byte, t: Bytes, mark: Byte)
    requires IsPlain(b, mark)
    ensures Unquoted([b] + t) == if Unquoted(t).None? then None else Some([b] + Unquoted(t).value)
  {
    hide Unquoted, ReadPiece;
    PlainPiece([b] + t, mark);
    UnquotedStep([b] + t, [b], 1);
    assert ([b] + t)[1..] == t;
  }

  lemma {:induction false} PlainReads(p: Bytes, rest: Bytes, mark: Byte)
    requires AllPlain(p, mark)
    ensures Unquoted(p + rest) == if Unquoted(rest).None? then None else Some(p + Unquoted(rest).value)
  {
    hide Unquoted, AllPlain, IsPlain;
    if p == [] {
      assert p + rest == rest;
      assert Unquoted(rest).Some? ==> p + Unquoted(rest).value == Unquoted(rest).value;
    } else {
      var q := p[1..];
      PlainStep(p, mark);
      PlainReads(q, rest, mark);
      PlainCons(p[0], q + rest, mark);
      assert p == [p[0]] + q;
      Regroup([p[0]], q, rest);
      if Unquoted(rest).Some? {
        Regroup([p[0]], q, Unquoted(rest).value);
      }
    }
  }

  lemma {:induction false} PlainLength(p: Bytes, rest: Bytes, mark: Byte)
    requires AllPlain(p, mark) && LiteralLength(rest, mark).Some?
    ensures LiteralLength(p + rest, mark) == Some(|p| + LiteralLength(rest, mark).value)
  {
    if p == [] {
      assert p + rest == rest;
    } else {
      assert (p + rest)[1..] == p[1..] + rest;
      PlainLength(p[1..], rest, mark);
    }
  }

  lemma {:induction false} HighIsPlain(p: Bytes, mark: Byte)
    requires IsMark(mark) && forall i :: 0 <= i < |p| ==> p[i] >= 0x80
    ensures AllPlain(p, mark)
  {
    if p != [] {
      HighIsPlain(p[1..], mark);
    }
  }

  lemma {:induction false} HexIsPlain(c: nat, mark: Byte)
    requires IsMark(mark)
    ensures AllPlain(HexDigits(c), mark) && forall i :: 0 <= i < |HexDigits(c)| ==> HexDigits(c)[i] != ';' as int
  {
    if c >= 16 {
      HexIsPlain(c / 16, mark);
      PlainConcat(HexDigits(c / 16), [HexDigit(c % 16)], mark);
    }
  }

  lemma {:induction false} PlainConcat(p: Bytes, q: Bytes, mark: Byte)
    requires AllPlain(p, mark) && AllPlain(q, mark)
    ensures AllPlain(p + q, mark)
  {
    if p == [] {
      assert p + q == q;
    } else {
      assert (p + q)[1..] == p[1..] + q;
      PlainConcat(p[1..], q, mark);
    }
  }

  /** The bytes of a code point beyond ASCII are beyond ASCII. */
  lemma {:induction false} HighBytes(s: Bytes)
    requires DecodeFront(s).1 > 0 && s[0] >= 0x80
    ensures forall i :: 0 <= i < DecodeFront(s).1 ==> s[i] >= 0x80
  {}

  lemma {:induction false} FindEnd(h: Bytes, b: Byte, rest: Bytes)
    requires forall i :: 0 <= i < |h| ==> h[i] != b
    ensures Find(h + [b] + rest, b) == Some(|h|)
  {
    if h == [] {
      assert h + [b] + rest == [b] + rest;
    } else {
      assert (h + [b] + rest)[1..] == h[1..] + [b] + rest;
      FindEnd(h[1..], b, rest);
    }
  }

  /** What the first piece of a text stands for when it is read. */
  function PieceReadBack(printable: Printable, s: Bytes): Bytes
    requires s != []
  {
    var (c, n) := DecodeFront(s);
    if s[0] < 0x80 then [s[0]]
    else if printable(c) && n > 0 then s[..n]
    else Encode(c)
  }

  lemma {:induction false} EscapeReads(b: Byte, rest: Bytes)
    requires b != 'x' as int && !IsWhitespace(b)
    ensures Unquoted([BACKSLASH, b] + rest)
         == if Unquoted(rest).None? then None else Some([Unescaped(b)] + Unquoted(rest).value)
  {
    assert ([BACKSLASH, b] + rest)[2..] == rest;
  }

  lemma {:induction false} HexReads(c: nat, rest: Bytes)
    requires c < UINT32
    ensures Unquoted(Letter('\\') + Letter('x') + HexDigits(c) + Letter(';') + rest)
         == if Unquoted(rest).None? then None else Some(Encode(c) + Unquoted(rest).value)
  {
    hide Unquoted, ReadPiece, HexDigits;
    var p := Letter('\\') + Letter('x') + HexDigits(c) + Letter(';');
    HexPiece(c, rest);
    UnquotedStep(p + rest, Encode(c), |p|);
    assert (p + rest)[|p|..] == rest;
  }

  lemma {:induction false} UnquotedStep(s: Bytes, p: Bytes, n: nat)
    requires s != [] && ReadPiece(s) == Some((p, n))
    ensures Unquoted(s) == if Unquoted(s[n..]).None? then None else Some(p + Unquoted(s[n..]).value)
  {}

  lemma {:induction false} HexPiece(c: nat, rest: Bytes)
    requires c < UINT32
    ensures ReadPiece(Letter('\\') + Letter('x') + HexDigits(c) + Letter(';') + rest) ==
      Some((Encode(c), 3 + |HexDigits(c)|))
  {
    hide HexDigits, Find, HexValue, Encode;
    var h := HexDigits(c);
    var s := Letter('\\') + Letter('x') + h + Letter(';') + rest;
    HexIsPlain(c, '"' as int);
    FindEnd(h, ';' as int, rest);
    HexRoundTrip(c);
    assert s[2..] == h + [';' as int] + rest;
    assert s[2..2 + |h|] == h;
  }

  /** A written piece is read as what it stands for. */
  lemma {:induction false} PieceReads(printable: Printable, s: Bytes, mark: Byte, rest: Bytes)
    requires s != [] && IsMark(mark) && !printable(0)
    ensures Unquoted(Piece(printable, s, mark).0 + rest)
         == if Unquoted(rest).None? then None else Some(PieceReadBack(printable, s) + Unquoted(rest).value)
  {
    hide Unquoted, Encode, HexDigits;
    var (c, n) := DecodeFront(s);
    if ShortEscape(s[0]).Some? {
      EscapeReads(ShortEscape(s[0]).value, rest);
    } else if s[0] == mark || s[0] == BACKSLASH {
      EscapeReads(s[0], rest);
    } else if s[0] == '"' as int || s[0] == '|' as int {
      OnePlain(s[0], mark);
      PlainReads([s[0]], rest, mark);
    } else if printable(c) && n > 0 {
      RawIsPlain(s, mark);
      PlainReads(s[..n], rest, mark);
      assert s[0] < 0x80 ==> s[..n] == [s[0]];
    } else {
      HexReads(c, rest);
      AsciiEncoded(s);
    }
  }

  lemma {:induction false} OnePlain(b: Byte, mark: Byte)
    requires IsPlain(b, mark)
    ensures AllPlain([b], mark)
  {
    assert [b][1..] == [];
  }

  lemma {:induction false} AsciiEncoded(s: Bytes)
    requires s != []
    ensures DecodeFront(s).0 < UINT32 && (s[0] < 0x80 ==> Encode(DecodeFront(s).0) == [s[0]])
  {
    if DecodeFront(s).1 > 0 {
      EncodeDecode(s);
    }
  }

  lemma {:induction false} RawIsPlain(s: Bytes, mark: Byte)
    requires s != [] && IsMark(mark) && DecodeFront(s).1 > 0 && ShortEscape(s[0]).None? && s[0] != mark &&
             s[0] != BACKSLASH
    requires s[0] != 0
    ensures AllPlain(s[..DecodeFront(s).1], mark)
  {
    var n := DecodeFront(s).1;
    if s[0] < 0x80 {
      OnePlain(s[0], mark);
      assert s[..n] == [s[0]];
    } else {
      HighBytes(s);
      HighIsPlain(s[..n], mark);
    }
  }

  lemma {:induction false} ReadBackSplit(printable: Printable, s: Bytes, mark: Byte)
    requires s != [] && IsMark(mark)
    ensures ReadBack(printable, s) ==
      PieceReadBack(printable, s) + ReadBack(printable, s[Piece(printable, s, mark).1..])
  {
    PieceSize(printable, s, mark);
  }

  lemma {:induction false} PieceSize(printable: Printable, s: Bytes, mark: Byte)
    requires s != [] && IsMark(mark)
    ensures Piece(printable, s, mark).1
         == if s[0] >= 0x80 && printable(DecodeFront(s).0) && DecodeFront(s).1 > 0 then DecodeFront(s).1 else 1
  {}

  lemma {:induction false} EscapedSplit(printable: Printable, s: Bytes, mark: Byte, rest: Bytes)
    requires s != []
    ensures var (p, n) := Piece(printable, s, mark);
      Escaped(printable, s, mark) + rest == p + (Escaped(printable, s[n..], mark) + rest)
  {}

  /** The text between the marks is read as ReadBack says. */
  lemma {:induction false} EscapedReads(printable: Printable, s: Bytes, mark: Byte)
    requires IsMark(mark) && !printable(0)
    ensures Unquoted(Escaped(printable, s, mark)) == Some(ReadBack(printable, s))
    decreases |s|
  {
    if s != [] {
      hide Unquoted, Piece, PieceReadBack, ReadBack;
      var (p, n) := Piece(printable, s, mark);
      EscapedReads(printable, s[n..], mark);
      PieceReads(printable, s, mark, Escaped(printable, s[n..], mark));
      ReadBackSplit(printable, s, mark);
    }
  }

  /** A written piece does not end the literal. */
  lemma {:induction false} PieceLength(printable: Printable, s: Bytes, mark: Byte, rest: Bytes)
    requires s != [] && IsMark(mark) && !printable(0) && LiteralLength(rest, mark).Some?
    ensures LiteralLength(Piece(printable, s, mark).0 + rest, mark)
         == Some(|Piece(printable, s, mark).0| + LiteralLength(rest, mark).value)
  {
    hide LiteralLength, HexDigits;
    var (c, n) := DecodeFront(s);
    if ShortEscape(s[0]).Some? {
      EscapeLength(ShortEscape(s[0]).value, [], rest, mark);
    } else if s[0] == mark || s[0] == BACKSLASH {
      EscapeLength(s[0], [], rest, mark);
    } else if s[0] == '"' as int || s[0] == '|' as int {
      OnePlain(s[0], mark);
      PlainLength([s[0]], rest, mark);
    } else if printable(c) && n > 0 {
      RawIsPlain(s, mark);
      PlainLength(s[..n], rest, mark);
    } else {
      var tail := HexDigits(c) + Letter(';');
      HexIsPlain(c, mark);
      OnePlain(';' as int, mark);
      PlainConcat(HexDigits(c), Letter(';'), mark);
      EscapeLength('x' as int, tail, rest, mark);
      assert Letter('\\') + Letter('x') + HexDigits(c) + Letter(';') == [BACKSLASH, 'x' as int] + tail;
    }
  }

  lemma {:induction false} EscapeLength(b: Byte, tail: Bytes, rest: Bytes, mark: Byte)
    requires IsMark(mark) && AllPlain(tail, mark) && LiteralLength(rest, mark).Some?
    ensures LiteralLength([BACKSLASH, b] + tail + rest, mark) == Some(2 + |tail| + LiteralLength(rest, mark).value)
    ensures tail == [] ==> [BACKSLASH, b] + tail == [BACKSLASH, b]
  {
    PlainLength(tail, rest, mark);
    assert ([BACKSLASH, b] + tail + rest)[2..] == tail + rest;
  }

  /** The lexer finds the end of a written literal. */
  lemma {:induction false} EscapedLength(printable: Printable, s: Bytes, mark: Byte, rest: Bytes)
    requires IsMark(mark) && !printable(0)
    ensures LiteralLength(Escaped(printable, s, mark) + ([mark] + rest), mark) ==
      Some(|Escaped(printable, s, mark)| + 1)
    decreases |s|
  {
    var t := [mark] + rest;
    if s == [] {
      assert [] + t == t;
    } else {
      hide LiteralLength, Piece;
      var (p, n) := Piece(printable, s, mark);
      EscapedLength(printable, s[n..], mark, rest);
      PieceLength(printable, s, mark, Escaped(printable, s[n..], mark) + t);
      EscapedSplit(printable, s, mark, t);
    }
  }

  /** A written literal is one token, whatever follows, and is read back. */
  lemma {:induction false} LiteralToken(printable: Printable, s: Bytes, mark: Byte, rest: Bytes)
    requires IsMark(mark) && !printable(0)
    ensures var text := Literal(printable, s, mark);
      && Next(text + rest) == (Token(if mark == '"' as int then StringLiteral else SymbolLiteral, text), rest)
      && Unquoted(text[1..|text| - 1]) == Some(ReadBack(printable, s))
  {
    hide LiteralLength, Escaped, Unquoted, SkipWhitespace;
    var text, body := Literal(printable, s, mark), Escaped(printable, s, mark);
    var all := text + rest;
    EscapedReads(printable, s, mark);
    EscapedLength(printable, s, mark, rest);
    assert text[1..|text| - 1] == body;
    assert all[1..] == body + ([mark] + rest) && all[0] == mark;
    SkipNothing(all);
    assert all[..|text|] == text && all[|text|..] == rest;
  }
}