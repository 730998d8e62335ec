/**
 Names of libraries and variables as symbols of the object file
 (schir/lib/Mangle.cpp, whose grammar is in schir/include/schir/Mangle.h).
 */
module Mangling {
  import opened Options
  import opened Utf8
  import opened Ascii

  // ---------------------------------------------------------------- characters

  predicate IsHexDigit(b: Byte) { DigitOf(b).Some? }

  /** Not a letter, a digit or an underscore. */
  predicate IsSpecialChar(b: Byte) { !IsDigit(b) && !IsLower(b) && !IsUpper(b) && b != '_' as int }

  /** The characters with a code of their own, with their codes. */
  const SPECIAL: seq<(char, char, char)> := [
    ('!', 'n', 't'), ('$', 'd', 'l'), ('%', 'r', 'm'), ('&', 'a', 'd'), ('*', 'm', 'l'), ('+', 'p', 'l'),
    ('-', 'm', 'i'), ('.', 'd', 't'), ('/', 'd', 'v'), (':', 'c', 'l'), ('<', 'l', 't'), ('=', 'e', 'q'),
    ('>', 'g', 't'), ('?', 'q', 'u'), ('@', 'a', 't'), ('^', 'e', 'o'), ('~', 'c', 'o')]

  /** The codes that the parser knows, with their characters. */
  const CODES: seq<(char, char, char)> := [
    ('n', 't', '!'), ('d', 'l', '$'), ('r', 'm', '%'), ('a', 'd', '&'), ('m', 'l', '*'), ('p', 'l', '+'),
    ('m', 'i', '-'), ('d', 't', '.'), ('d', 'v', '/'), ('c', 'l', ':'), ('l', 't', '<'), ('e', 'q', '='),
    ('g', 't', '>'), ('q', 'u', '?'), ('a', 't', '@'), ('e', 'o', '^'), ('c', 'o', '~')]

  /** The parser knows the codes that are written. */
  lemma {:induction false} CodesAgree(i: nat)
    requires i < |SPECIAL|
    ensures |CODES| == |SPECIAL| && CODES[i] == (SPECIAL[i].1, SPECIAL[i].2, SPECIAL[i].0)
  {}

  /** The row of the table for a character, from row i. */
  function FindSpecial(b: Byte, i: nat): (r: Option<nat>)
    requires i <= |SPECIAL|
    ensures r.Some? ==> r.value < |SPECIAL| && SPECIAL[r.value].0 as int == b
    decreases |SPECIAL| - i
  {
    if i == |SPECIAL| then None
    else if SPECIAL[i].0 as int == b then Some(i)
    else FindSpecial(b, i + 1)
  }

  /** The row of the table for a code, from row i. */
  function FindCode(b: Byte, c: Byte, i: nat): (r: Option<nat>)
    requires i <= |CODES|
    ensures r.Some? ==> r.value < |CODES| && CODES[r.value].0 as int == b && CODES[r.value].1 as int == c
    ensures r.None? ==> forall k :: i <= k < |CODES| ==> CODES[k].0 as int != b || CODES[k].1 as int != c
    decreases |CODES| - i
  {
    if i == |CODES| then None
    else if CODES[i].0 as int == b && CODES[i].1 as int == c then Some(i)
    else FindCode(b, c, i + 1)
  }

  /** Codes are two lower-case letters, and no two are the same. */
  lemma {:induction false} CodesAreDistinct(i: nat, j: nat)
    requires i < |SPECIAL| && j < |SPECIAL|
    ensures 'a' <= SPECIAL[i].1 <= 'z' && 'a' <= SPECIAL[i].2 <= 'z'
    ensures SPECIAL[i].1 == SPECIAL[j].1 && SPECIAL[i].2 == SPECIAL[j].2 ==> i == j
  {}

  // ---------------------------------------------------------------- numbers

  /** The number at the front of a text, added to the digits already read. */
  function ReadNumber(s: Bytes, n: nat): (r: (nat, Bytes))
    ensures |r.1| <= |s|
  {
    if s != [] && IsDigit(s[0]) then ReadNumber(s[1..], n * 10 + (s[0] - 48)) else (n, s)
  }

  lemma {:induction false} ReadDecimal(n: nat, rest: Bytes)
    ensures ReadNumber(Decimal(n) + rest, 0) == ReadNumber(rest, n)
  {
    if n < 10 {
      assert ([48 + n] + rest)[1..] == rest;
    } else {
      var d: Byte := 48 + n % 10;
      ReadDecimal(n / 10, [d] + rest);
      assert Decimal(n) + rest == Decimal(n / 10) + ([d] + rest);
      assert ([d] + rest)[1..] == rest;
    }
  }

  function LowerDigit(d: nat): Byte
    requires d < 16
  {
    if d < 10 then 48 + d else 87 + d
  }

  /** utohexstr in lower case. */
  function LowerHex(c: nat): (r: Bytes)
    ensures r != [] && forall i :: 0 <= i < |r| ==> IsHexDigit(r[i])
  {
    if c < 16 then [LowerDigit(c)] else LowerHex(c / 16) + [LowerDigit(c % 16)]
  }

  lemma {:induction false} LowerHexValue(c: nat)
    ensures HexValue(LowerHex(c)) == Some(c)
  {
    if c >= 16 {
      LowerHexValue(c / 16);
      var r := LowerHex(c / 16) + [LowerDigit(c % 16)];
      assert r[..|r| - 1] == LowerHex(c / 16);
    } else {
      assert [LowerDigit(c)][..0] == [];
      NoDigits();
    }
  }

  function TakeHex(s: Bytes): (n: nat)
    ensures n <= |s|
  {
    if s != [] && IsHexDigit(s[0]) then 1 + TakeHex(s[1..]) else 0
  }

  lemma {:induction false} TakeAllHex(h: Bytes, rest: Bytes)
    requires (forall i :: 0 <= i < |h| ==> IsHexDigit(h[i])) && (rest != [] ==> !IsHexDigit(rest[0]))
    ensures TakeHex(h + rest) == |h|
  {
    if h == [] {
      assert h + rest == rest;
    } else {
      assert (h + rest)[1..] == h[1..] + rest;
      TakeAllHex(h[1..], rest);
    }
  }

  // ---------------------------------------------------------------- mangling

  /** The length of the identifier characters at the front. */
  function IdLength(s: Bytes): (n: nat)
    ensures n <= |s| && forall i :: 0 <= i < n ==> !IsSpecialChar(s[i])
    ensures n < |s| ==> IsSpecialChar(s[n])
  {
    if s == [] || IsSpecialChar(s[0]) then 0 else 1 + IdLength(s[1..])
  }

  type Continuation = Bytes -> Option<Bytes>

  /** Mangler::mangleNameSegment with mangleSpecialChar and mangleCharHexCode:
      nothing is returned on an error. */
  function MangleNameSegment(cont: Continuation, prefix: Bytes, s: Bytes): Option<Bytes>
    decreases |s|
  {
    if s == [] then cont(prefix)
    else
      var n := IdLength(s);
      if n > 0 then MangleNameSegment(cont, prefix + Decimal(n) + Letter('S') + s[..n], s[n..])
      else
        var row := FindSpecial(s[0], 0);
        if row.Some? then
          var (_, a, b) := SPECIAL[row.value];
          CodesAreDistinct(row.value, row.value);
          MangleNameSegment(cont, prefix + Letter(a) + Letter(b), s[1..])
        else
          var (codePoint, length) := DecodeFront(s);
          if length == 0 then None
          else MangleNameSegment(cont, prefix + Letter('0') + Letter('x') + LowerHex(codePoint) + Letter('z'),
                                 s[length..])
  }

  /** Mangler::mangleName: an empty name ends the mangling. */
  function MangleName(cont: Continuation, prefix: Bytes, s: Bytes): Option<Bytes> {
    if s == [] then Some(prefix + Letter('N')) else MangleNameSegment(cont, prefix, s)
  }

  datatype Name = Symbol(s: Bytes) | String(s: Bytes) | Int(i: int) | Unnamed

  /** The text of a name, or nothing if it is not a symbol, a string or an unsigned integer. */
  function NameText(n: Name): Option<Bytes> {
    match n
    case Symbol(s) => Some(s)
    case String(s) => Some(s)
    case Int(i) => if i >= 0 then Some(Decimal(i)) else None
    case Unnamed => None
  }

  datatype Spec = Empty | Pair(car: Name, cdr: Spec) | NotList

  /** Mangler::mangleModule */
  function MangleModule(prefix: Bytes, spec: Spec): Option<Bytes>
    decreases spec
  {
    match spec
    case Empty => Some(prefix)
    case NotList => None
    case Pair(car, cdr) =>
      var text := NameText(car);
      if text.None? then None
      else MangleName((result: Bytes) => MangleModule(result, cdr), prefix + Letter('L'), text.value)
  }

  /** Mangler::mangleEntity, with 'V' for variables. */
  function MangleEntity(entity: char, modulePrefix: Bytes, name: Bytes): Option<Bytes>
    requires entity < 256 as char
  {
    MangleName((result: Bytes) => Some(result), modulePrefix + Letter(entity), name)
  }

  // ---------------------------------------------------------------- the mangled text

  /** The code of a nonempty text. */
  function Code(s: Bytes): Bytes
    decreases |s|
  {
    if s == [] then [] else Segment(s) + Code(s[SegmentLength(s)..])
  }

  /** How much of a text its first segment stands for. */
  function SegmentLength(s: Bytes): (n: nat)
    requires s != []
    ensures 0 < n <= |s|
  {
    if IdLength(s) > 0 then IdLength(s)
    else if FindSpecial(s[0], 0).Some? || DecodeFront(s).1 == 0 then 1
    else DecodeFront(s).1
  }

  function Segment(s: Bytes): Bytes
    requires s != []
  {
    var n, row := IdLength(s), FindSpecial(s[0], 0);
    if n > 0 then Decimal(n) + Letter('S') + s[..n]
    else if row.Some? then
      CodesAreDistinct(row.value, row.value);
      Letter(SPECIAL[row.value].1) + Letter(SPECIAL[row.value].2)
    else Letter('0') + Letter('x') + LowerHex(DecodeFront(s).0) + Letter('z')
  }

  lemma {:induction false} WellFormedTail(s: Bytes)
    requires WellFormed(s) && s != []
    ensures WellFormed(s[SegmentLength(s)..])
    ensures IdLength(s) == 0 && FindSpecial(s[0], 0).None? ==> DecodeFront(s).1 > 0
    ensures IdLength(s) == 0 && FindSpecial(s[0], 0).Some? ==> DecodeFront(s).1 == 1
  {
    if IdLength(s) > 0 {
      AsciiTail(s, IdLength(s));
    } else if FindSpecial(s[0], 0).Some? {
      assert DecodeFront(s) == (s[0], 1);
    }
  }

  lemma {:induction false} AsciiTail(s: Bytes, n: nat)
    requires WellFormed(s) && n <= |s| && forall i :: 0 <= i < n ==> s[i] < 0x80
    ensures WellFormed(s[n..])
  {
    if n > 0 {
      assert DecodeFront(s).1 == 1;
      AsciiTail(s[1..], n - 1);
      assert s[1..][n - 1..] == s[n..];
    } else {
      assert s[0..] == s;
    }
  }

  /** The continuation gets the prefix with the code of the text. */
  lemma {:induction false} MangleIsCode(cont: Continuation, prefix: Bytes, s: Bytes)
    requires WellFormed(s)
    ensures MangleNameSegment(cont, prefix, s) == cont(prefix + Code(s))
    decreases |s|
  {
    if s == [] {
      assert prefix + [] == prefix;
    } else {
      var p, t := prefix + Segment(s), s[SegmentLength(s)..];
      WellFormedTail(s);
      MangleIsCode(cont, p, t);
      assert p + Code(t) == prefix + Code(s);
      SegmentStep(cont, prefix, s);
    }
  }

  lemma {:induction false} SegmentStep(cont: Continuation, prefix: Bytes, s: Bytes)
    requires WellFormed(s) && s != []
    ensures MangleNameSegment(cont, prefix, s) == MangleNameSegment(cont, prefix + Segment(s), s[SegmentLength(s)..])
  {
    WellFormedTail(s);
    var n, row := IdLength(s), FindSpecial(s[0], 0);
    if n > 0 {
      assert prefix + Decimal(n) + Letter('S') + s[..n] == prefix + Segment(s);
    } else if row.Some? {
      CodesAreDistinct(row.value, row.value);
      assert prefix + Letter(SPECIAL[row.value].1) + Letter(SPECIAL[row.value].2) == prefix + Segment(s);
    } else {
      var h := LowerHex(DecodeFront(s).0);
      assert prefix + Letter('0') + Letter('x') + h + Letter('z') == prefix + Segment(s);
    }
  }

  // ---------------------------------------------------------------- parsing

  /** parseCharHexCode: the code point of 0x...z and what follows it. */
  function ParseCharHexCode(s: Bytes): (r: Option<(nat, Bytes)>)
    ensures r.Some? ==> |r.value.1| < |s|
  {
    if |s| < 2 || s[0] != '0' as int || s[1] != 'x' as int then None
    else
      var n := TakeHex(s[2..]);
      var hex, rest := s[2..2 + n], s[2 + n..];
      if n == 0 || !StartsWith(rest, 'z') || HexValue(hex).None? || HexValue(hex).value >= UINT32 then None
      else Some((HexValue(hex).value, rest[1..]))
  }

  /** parseSpecialChar is 0 for a code that is not in the table. */
  function ParseSpecialChar(s: Bytes): Byte
    requires |s| >= 2
  {
    var row := FindCode(s[0], s[1], 0);
    if row.None? then 0 else CODES[row.value].2 as int
  }

  /** parseNameSegment: the text of a segment and what follows it. */
  function ParseNameSegment(s: Bytes): (r: Option<(Bytes, Bytes)>)
    ensures r.Some? ==> |r.value.1| <= |s|
  {
    if |s| < 2 then None
    else if s[0] == '0' as int then
      var hex := ParseCharHexCode(s);
      if hex.None? || !IsScalar(hex.value.0) then None else Some((Encode(hex.value.0), hex.value.1))
    else if IsLower(s[0]) then Some(([ParseSpecialChar(s)], s[2..]))
    else if IsDigit(s[0]) then
      var (length, rest) := ReadNumber(s, 0);
      if !StartsWith(rest, 'S') || |rest| - 1 < length then None
      else Some((rest[1..1 + length], rest[1 + length..]))
    else Some(([], s))
  }

  predicate AllDigits(d: Bytes) { forall i :: 0 <= i < |d| ==> IsDigit(d[i]) }

  /** The number that decimal digits write. */
  function DecimalValue(d: Bytes): nat
    requires AllDigits(d)
  {
    if d == [] then 0 else DecimalValue(d[..|d| - 1]) * 10 + (d[|d| - 1] - 48)
  }

  lemma {:induction false} ReadDigits(d: Bytes, rest: Bytes, k: nat)
    requires AllDigits(d) && k <= |d| && (rest != [] ==> !IsDigit(rest[0]))
    ensures ReadNumber(d[k..] + rest, DecimalValue(d[..k])) == (DecimalValue(d), rest)
    decreases |d| - k
  {
    if k == |d| {
      assert d[k..] + rest == rest && d[..k] == d;
    } else {
      ReadDigits(d, rest, k + 1);
      assert d[..k + 1][..k] == d[..k];
      assert (d[k..] + rest)[1..] == d[k + 1..] + rest && (d[k..] + rest)[0] == d[k];
    }
  }

  /** The digits at the front of a text. */
  lemma {:induction false} FrontDigits(s: Bytes) returns (k: nat)
    ensures k <= |s| && AllDigits(s[..k]) && (k < |s| ==> !IsDigit(s[k])) && (s != [] && IsDigit(s[0]) ==> k > 0)
    ensures ReadNumber(s, 0) == (DecimalValue(s[..k]), s[k..])
  {
    k := 0;
    while k < |s| && IsDigit(s[k])
      invariant 0 <= k <= |s| && AllDigits(s[..k]) && (s != [] && IsDigit(s[0]) && k == 0 ==> IsDigit(s[k]))
    {
      k := k + 1;
    }
    var d := s[..k];
    ReadDigits(d, s[k..], 0);
    assert d[0..] + s[k..] == s && DecimalValue(d[..0]) == 0;
  }

  /** The text begins with a segment, as the grammar of mangled names has it: a length and as many characters, a
      code of two letters, or a code point in hexadecimal. What begins with none of these is left. */
  ghost predicate IsSegment(s: Bytes, text: Bytes, rest: Bytes) {
    || (exists d :: IsCounted(s, d, text, rest))
    || (|s| >= 2 && IsLower(s[0]) && text == [CharacterOf(s[0], s[1])] && rest == s[2..])
    || (exists h :: IsHexSegment(s, h, text, rest))
    || (BeginsNoSegment(s) && text == [] && rest == s)
  }

  ghost predicate IsCounted(s: Bytes, d: Bytes, text: Bytes, rest: Bytes) {
    d != [] && AllDigits(d) && d[0] != '0' as int && DecimalValue(d) == |text| && s == d + (Letter('S') + (text + rest))
  }

  ghost predicate IsHexSegment(s: Bytes, h: Bytes, text: Bytes, rest: Bytes) {
    && h != [] && (forall i :: 0 <= i < |h| ==> IsHexDigit(h[i])) && HexValue(h).Some? && IsScalar(HexValue(h).value)
    && s == Text("0x") + (h + (Letter('z') + rest)) && text == Encode(HexValue(h).value)
  }

  /** The character of a code, or 0. */
  ghost function CharacterOf(a: Byte, b: Byte): Byte {
    if i :| 0 <= i < |SPECIAL| && SPECIAL[i].1 as int == a && SPECIAL[i].2 as int == b then SPECIAL[i].0 as int else 0
  }

  lemma {:induction false} SegmentExactly(s: Bytes, text: Bytes, rest: Bytes)
    ensures ParseNameSegment(s) == Some((text, rest)) <==> IsSegment(s, text, rest)
  {
    hide HexValue, Encode, ReadNumber, TakeHex, FindCode, DecimalValue, ParseCharHexCode;
    if |s| < 2 {
      ShortSegment(s, text, rest);
    } else if s[0] == '0' as int {
      HexExactly(s, text, rest);
    } else if IsLower(s[0]) {
      CharacterExactly(s);
      if IsSegment(s, text, rest) { NotOther(s, text, rest); }
    } else if IsDigit(s[0]) {
      CountedExactly(s, text, rest);
    } else {
      if IsSegment(s, text, rest) { NotOther(s, text, rest); }
    }
  }

  lemma {:induction false} ShortSegment(s: Bytes, text: Bytes, rest: Bytes)
    requires |s| < 2
    ensures !IsSegment(s, text, rest)
  {
    hide HexValue, Encode, DecimalValue;
  }

  /** Counted segments begin with a digit other than 0, and hexadecimal ones with 0. */
  lemma {:induction false} NotOther(s: Bytes, text: Bytes, rest: Bytes)
    requires s != []
    ensures forall d :: IsCounted(s, d, text, rest) ==> IsDigit(s[0]) && s[0] != '0' as int
    ensures forall h :: IsHexSegment(s, h, text, rest) ==> s[0] == '0' as int
  {
    hide HexValue, Encode, DecimalValue;
    forall d | IsCounted(s, d, text, rest)
      ensures IsDigit(s[0]) && s[0] != '0' as int
    {
      assert s[0] == d[0];
    }
  }

  lemma {:induction false} CharacterExactly(s: Bytes)
    requires |s| >= 2
    ensures ParseSpecialChar(s) == CharacterOf(s[0], s[1])
  {
    hide FindCode;
    var row := FindCode(s[0], s[1], 0);
    if row.Some? {
      CodesAgree(row.value);
      forall i | 0 <= i < |SPECIAL| && SPECIAL[i].1 as int == s[0] && SPECIAL[i].2 as int == s[1]
        ensures i == row.value
      {
        CodesAreDistinct(i, row.value);
      }
    } else {
      forall i | 0 <= i < |SPECIAL|
        ensures !(SPECIAL[i].1 as int == s[0] && SPECIAL[i].2 as int == s[1])
      {
        CodesAgree(i);
      }
    }
  }

  lemma {:induction false} CountedExactly(s: Bytes, text: Bytes, rest: Bytes)
    requires |s| >= 2 && IsDigit(s[0]) && s[0] != '0' as int
    ensures ParseNameSegment(s) == Some((text, rest)) <==> IsSegment(s, text, rest)
  {
    hide HexValue, Encode, ReadNumber, DecimalValue;
    NotOther(s, text, rest);
    var k := FrontDigits(s);
    var d, more := s[..k], s[k..];
    assert s == d + more;
    if ParseNameSegment(s) == Some((text, rest)) {
      assert more == Letter('S') + (text + rest);
      assert IsCounted(s, d, text, rest);
    }
    forall e | IsCounted(s, e, text, rest)
      ensures ParseNameSegment(s) == Some((text, rest))
    {
      var x := Letter('S') + (text + rest);
      assert e[0..] == e && e[..0] == [];
      ReadDigits(e, x, 0);
      NoDigitsValue();
      assert x[1..1 + |text|] == text && x[1 + |text|..] == rest;
    }
  }

  lemma {:induction false} NoDigitsValue()
    ensures DecimalValue([]) == 0
  {}

  lemma {:induction false} HexExactly(s: Bytes, text: Bytes, rest: Bytes)
    requires |s| >= 2 && s[0] == '0' as int
    ensures ParseNameSegment(s) == Some((text, rest)) <==> IsSegment(s, text, rest)
  {
    hide HexValue, Encode, DecimalValue;
    NotOther(s, text, rest);
    if ParseNameSegment(s) == Some((text, rest)) {
      var n := TakeHex(s[2..]);
      var h := s[2..2 + n];
      TakenIsHex(s[2..]);
      assert s == Text("0x") + (h + (Letter('z') + rest));
      assert IsHexSegment(s, h, text, rest);
    }
    forall h | IsHexSegment(s, h, text, rest)
      ensures ParseNameSegment(s) == Some((text, rest))
    {
      var z := Letter('z') + rest;
      assert s[2..] == h + z;
      TakeAllHex(h, z);
      assert s[2..2 + |h|] == h && s[2 + |h|..] == z && z[1..] == rest;
    }
  }

  lemma {:induction false} TakenIsHex(s: Bytes)
    ensures forall i :: 0 <= i < TakeHex(s) ==> IsHexDigit(s[i])
  {
    if s != [] && IsHexDigit(s[0]) {
      TakenIsHex(s[1..]);
      forall i | 0 <= i < TakeHex(s) ensures IsHexDigit(s[i]) {
        if i > 0 { assert s[i] == s[1..][i - 1]; }
      }
    }
  }

  /** The segments up to the end or the next component.  A segment that takes
      nothing from the text ends the parse. */
  function ParseSegments(s: Bytes): (r: Option<(Bytes, Bytes)>)
    ensures r.Some? ==> |r.value.1| <= |s|
    decreases |s|
  {
    if s == [] || s[0] == 'L' as int then Some(([], s))
    else
      var segment := ParseNameSegment(s);
      if segment.None? || |segment.value.1| == |s| then None
      else
        var more := ParseSegments(segment.value.1);
        if more.None? then None else Some((segment.value.0 + more.value.0, more.value.1))
  }

  /** A text that is no segment and is taken for an empty one: it begins with none of the characters that
      segments begin with. */
  predicate BeginsNoSegment(s: Bytes) { |s| >= 2 && !IsDigit(s[0]) && !IsLower(s[0]) }

  /** The loop over segments comes to a text that begins none, where the original goes on for ever. */
  predicate Stalls(s: Bytes)
    decreases |s|
  {
    s != [] && s[0] != 'L' as int &&
    (BeginsNoSegment(s) ||
     match ParseNameSegment(s)
     case Some(segment) => |segment.1| < |s| && Stalls(segment.1)
     case None => false)
  }

  /** A segment takes nothing from the text exactly when the text begins none. */
  lemma {:induction false} TakesNothing(s: Bytes)
    ensures ParseNameSegment(s).Some? && |ParseNameSegment(s).value.1| == |s| <==> BeginsNoSegment(s)
  {
    if |s| >= 2 && IsDigit(s[0]) && s[0] != '0' as int { ReadsDigits(s, 0); }
  }

  lemma {:induction false} ReadsDigits(s: Bytes, n: nat)
    requires s != [] && IsDigit(s[0])
    ensures |ReadNumber(s, n).1| < |s|
  {
  }

  /** What is parsed did not stall, so the original comes to the same end. */
  lemma {:induction false} ParsedDoesNotStall(s: Bytes)
    ensures ParseSegments(s).Some? ==> !Stalls(s)
    decreases |s|
  {
    if s != [] && s[0] != 'L' as int && ParseNameSegment(s).Some? {
      TakesNothing(s);
      var rest := ParseNameSegment(s).value.1;
      if |rest| < |s| { ParsedDoesNotStall(rest); }
    }
  }

  /** parseModuleNameNode: a component and what follows it. */
  function ParseModuleNameNode(s: Bytes): (r: Option<(Bytes, Bytes)>)
    ensures r.Some? ==> |r.value.1| < |s|
  {
    if !StartsWith(s, 'L') then None else ParseSegments(s[1..])
  }

  /** A module name, node by node. */
  function ParseNodes(s: Bytes): Option<seq<Bytes>>
    decreases |s|
  {
    if s == [] then Some([]) else
      var node := ParseModuleNameNode(s);
      if node.None? then None else
        var more := ParseNodes(node.value.1);
        if more.None? then None else Some([node.value.0] + more.value)
  }

  /** Mangler::parseNameSegment, which reads a length digit by digit. */
  method ReadNameSegment(s: Bytes) returns (r: Option<(Bytes, Bytes)>)
    ensures r == ParseNameSegment(s)
  {
    if |s| < 2 {
      return None;
    }
    if s[0] == '0' as int {
      var hex := ParseCharHexCode(s);
      return if hex.None? || !IsScalar(hex.value.0) then None else Some((Encode(hex.value.0), hex.value.1));
    }
    if IsLower(s[0]) {
      return Some(([ParseSpecialChar(s)], s[2..]));
    }
    if !IsDigit(s[0]) {
      return Some(([], s));
    }
    var input: Bytes, length: nat := s, 0;
    while |input| > 0 && IsDigit(input[0])
      invariant ReadNumber(input, length) == ReadNumber(s, 0)
      decreases |input|
    {
      length := length * 10 + (input[0] - 48);
      input := input[1..];
    }
    if !StartsWith(input, 'S') || |input| - 1 < length {
      return None;
    }
    return Some((input[1..1 + length], input[1 + length..]));
  }

  lemma {:induction false} AppendParsed(output: Bytes, front: Bytes, rest: Bytes)
    ensures match ParseSegments(rest)
            case None => true
            case Some(v) => output + (front + v.0) == output + front + v.0
  {}

  /** Mangler::parseModuleNameNode appends the text of each segment. The original has no end exactly when
      endless is the case. */
  method ReadModuleNameNode(s: Bytes) returns (r: Option<(Bytes, Bytes)>, endless: bool)
    ensures r == ParseModuleNameNode(s)
    ensures endless <==> StartsWith(s, 'L') && Stalls(s[1..])
    ensures endless ==> r.None?
  {
    if !StartsWith(s, 'L') {
      return None, false;
    }
    var input, output: Bytes := s[1..], [];
    ghost var whole := ParseSegments(input);
    assert whole.Some? ==> [] + whole.value.0 == whole.value.0;
    while input != [] && input[0] != 'L' as int
      invariant ParseSegments(input).None? <==> whole.None?
      invariant whole.Some? ==> whole.value == (output + ParseSegments(input).value.0, ParseSegments(input).value.1)
      invariant Stalls(input) <==> Stalls(s[1..])
      decreases |input|
    {
      TakesNothing(input);
      var segment := ReadNameSegment(input);
      if segment.None? {
        return None, false;
      }
      if |segment.value.1| == |input| {
        return None, true;
      }
      AppendParsed(output, segment.value.0, segment.value.1);
      output, input := output + segment.value.0, segment.value.1;
    }
    assert output + [] == output;
    return Some((output, input)), false;
  }

  /** A segment gives back what it stands for, whatever follows it. */
  lemma {:induction false} SegmentParses(s: Bytes, t: Bytes)
    requires WellFormed(s) && s != []
    ensures ParseNameSegment(Segment(s) + t) == Some((s[..SegmentLength(s)], t))
  {
    WellFormedTail(s);
    if IdLength(s) > 0 {
      IdSegmentParses(s[..IdLength(s)], t);
    } else if FindSpecial(s[0], 0).Some? {
      var row := FindSpecial(s[0], 0).value;
      SpecialParses(row, t);
      assert s[..1] == [s[0]];
    } else {
      HexParses(DecodeFront(s).0, t);
      EncodeDecode(s);
    }
  }

  lemma {:induction false} IdSegmentParses(id: Bytes, t: Bytes)
    requires id != []
    ensures ParseNameSegment(Decimal(|id|) + Letter('S') + id + t) == Some((id, t))
  {
    var s := Decimal(|id|) + Letter('S') + id + t;
    var rest := Letter('S') + id + t;
    assert s == Decimal(|id|) + rest;
    ReadDecimal(|id|, rest);
    assert rest[0] == 'S' as int;
    assert ReadNumber(s, 0) == (|id|, rest);
    assert rest[1..1 + |id|] == id && rest[1 + |id|..] == t;
  }

  lemma {:induction false} CodeFound(row: nat)
    requires row < |SPECIAL|
    ensures SPECIAL[row].1 < 256 as char && SPECIAL[row].2 < 256 as char
    ensures FindCode(SPECIAL[row].1 as int, SPECIAL[row].2 as int, 0) == Some(row)
  {
    hide FindCode;
    CodesAreDistinct(row, row);
    CodesAgree(row);
    var found := FindCode(SPECIAL[row].1 as int, SPECIAL[row].2 as int, 0);
    if found.Some? {
      CodesAgree(found.value);
      CodesAreDistinct(row, found.value);
    }
  }

  lemma {:induction false} SpecialParses(row: nat, t: Bytes)
    requires row < |SPECIAL|
    ensures SPECIAL[row].0 < 128 as char && 'a' <= SPECIAL[row].1 <= 'z' && 'a' <= SPECIAL[row].2 <= 'z'
    ensures ParseNameSegment(Letter(SPECIAL[row].1) + Letter(SPECIAL[row].2) + t) == Some(([SPECIAL[row].0 as int], t))
  {
    hide FindCode;
    CodesAreDistinct(row, row);
    var s := Letter(SPECIAL[row].1) + Letter(SPECIAL[row].2) + t;
    assert s[0] == SPECIAL[row].1 as int && s[1] == SPECIAL[row].2 as int && s[2..] == t;
    CodeFound(row);
    CodesAgree(row);
  }

  lemma {:induction false} HexParses(c: nat, t: Bytes)
    requires IsScalar(c)
    ensures ParseNameSegment(Letter('0') + Letter('x') + LowerHex(c) + Letter('z') + t) == Some((Encode(c), t))
  {
    var h := LowerHex(c);
    var s := Letter('0') + Letter('x') + h + Letter('z') + t;
    var z := Letter('z') + t;
    HexText(h, t);
    TakeAllHex(h, z);
    LowerHexValue(c);
  }

  /** The parts of a code point in hexadecimal. */
  lemma {:induction false} HexText(h: Bytes, t: Bytes)
    ensures var s, z := Letter('0') + Letter('x') + h + Letter('z') + t, Letter('z') + t;
      s[2..] == h + z && z[0] == 'z' as int && s[2..2 + |h|] == h && s[2 + |h|..] == z && z[1..] == t
  {}

  /** What the code of a text starts with. */
  lemma {:induction false} CodeStart(s: Bytes)
    requires WellFormed(s) && s != []
    ensures Segment(s) != [] && (IsDigit(Segment(s)[0]) || IsLower(Segment(s)[0]))
  {
    WellFormedTail(s);
    if IdLength(s) == 0 && FindSpecial(s[0], 0).Some? {
      CodesAreDistinct(FindSpecial(s[0], 0).value, 0);
    }
  }

  lemma {:induction false} CodeSplit(s: Bytes)
    requires s != []
    ensures Code(s) == Segment(s) + Code(s[SegmentLength(s)..])
  {}

  lemma {:induction false} SegmentsStep(x: Bytes, front: Bytes, rest: Bytes, back: Bytes, t: Bytes)
    requires x != [] && x[0] != 'L' as int && ParseNameSegment(x) == Some((front, rest)) && |rest| < |x|
    requires ParseSegments(rest) == Some((back, t))
    ensures ParseSegments(x) == Some((front + back, t))
  {}

  lemma {:induction false} NoCode(t: Bytes)
    requires t == [] || t[0] == 'L' as int
    ensures Code([]) + t == t && ParseSegments(t) == Some(([], t))
  {}

  lemma {:induction false} CodeParses(s: Bytes, t: Bytes)
    requires WellFormed(s) && (t == [] || t[0] == 'L' as int)
    ensures ParseSegments(Code(s) + t) == Some((s, t))
    decreases |s|
  {
    hide Code, Segment, SegmentLength, ParseSegments, ParseNameSegment, WellFormed;
    if s == [] {
      NoCode(t);
    } else {
      var n := SegmentLength(s);
      CodeSplit(s);
      CodeStart(s);
      SegmentParses(s, Code(s[n..]) + t);
      WellFormedTail(s);
      CodeParses(s[n..], t);
      FrontParses(Segment(s), Code(s[n..]), t, s[..n], s[n..]);
      assert s[..n] + s[n..] == s;
    }
  }

  lemma {:induction false} FrontParses(front: Bytes, back: Bytes, t: Bytes, x: Bytes, y: Bytes)
    requires front != [] && (IsDigit(front[0]) || IsLower(front[0]))
    requires ParseNameSegment(front + (back + t)) == Some((x, back + t)) && ParseSegments(back + t) == Some((y, t))
    ensures ParseSegments(front + back + t) == Some((x + y, t))
  {
    hide ParseNameSegment, ParseSegments;
    assert front + back + t == front + (back + t);
    SegmentsStep(front + (back + t), x, back + t, y, t);
  }

  // ---------------------------------------------------------------- module names

  predicate AllWellFormed(names: seq<Bytes>) {
    names == [] || (WellFormed(names[0]) && AllWellFormed(names[1..]))
  }

  predicate NoneEmpty(names: seq<Bytes>) {
    names == [] || (names[0] != [] && NoneEmpty(names[1..]))
  }

  /** The code of a module name, which an empty component ends. */
  function ModuleCode(names: seq<Bytes>): Bytes {
    if names == [] then []
    else if names[0] == [] then Letter('L') + Letter('N')
    else Letter('L') + Code(names[0]) + ModuleCode(names[1..])
  }

  /** The components of a library name, or nothing if it is malformed. */
  function Texts(spec: Spec): Option<seq<Bytes>> {
    match spec
    case Empty => Some([])
    case NotList => None
    case Pair(car, cdr) =>
      if NameText(car).None? || Texts(cdr).None? then None
      else Some([NameText(car).value] + Texts(cdr).value)
  }

  /** A list of symbols, strings and unsigned integers. */
  predicate IsLibraryName(spec: Spec) {
    match spec
    case Empty => true
    case NotList => false
    case Pair(Symbol(_), cdr) => IsLibraryName(cdr)
    case Pair(String(_), cdr) => IsLibraryName(cdr)
    case Pair(Int(i), cdr) => 0 <= i && IsLibraryName(cdr)
    case Pair(Unnamed, _) => false
  }

  /** The texts of names are well formed and not empty. */
  predicate HasPlainTexts(spec: Spec) {
    spec.Pair? ==>
      HasPlainTexts(spec.cdr) &&
      match spec.car
      case Symbol(s) => WellFormed(s) && s != []
      case String(s) => WellFormed(s) && s != []
      case _ => true
  }

  /** Without empty components a name is mangled exactly when it is a proper list of symbols, strings and
      unsigned integers. */
  lemma {:induction false} MangledExactly(prefix: Bytes, spec: Spec)
    requires HasPlainTexts(spec)
    ensures MangleModule(prefix, spec).Some? <==> IsLibraryName(spec)
    ensures Texts(spec).Some? <==> IsLibraryName(spec)
    decreases spec
  {
    hide Code, MangleNameSegment, WellFormed;
    match spec
    case Pair(car, cdr) =>
      MangledExactly([], cdr);
      if NameText(car).Some? {
        var s := NameText(car).value;
        if car.Int? { DecimalWellFormed(car.i); }
        var cont := (result: Bytes) => MangleModule(result, cdr);
        MangleIsCode(cont, prefix + Letter('L'), s);
        MangledExactly(prefix + Letter('L') + Code(s), cdr);
      }
    case _ =>
  }

  lemma {:induction false} DecimalWellFormed(n: nat)
    ensures WellFormed(Decimal(n))
  {
    AsciiIsWellFormed(Decimal(n));
  }

  lemma {:induction false} AsciiIsWellFormed(s: Bytes)
    requires forall i :: 0 <= i < |s| ==> s[i] < 0x80
    ensures WellFormed(s)
  {
    if s != [] {
      AsciiIsWellFormed(s[1..]);
      assert DecodeFront(s).1 == 1;
    }
  }

  lemma {:induction false} MangleModuleIsCode(prefix: Bytes, spec: Spec)
    requires Texts(spec).Some? && AllWellFormed(Texts(spec).value)
    ensures MangleModule(prefix, spec) == Some(prefix + ModuleCode(Texts(spec).value))
    decreases spec
  {
    hide Code, MangleNameSegment, NameText, WellFormed;
    match spec
    case Empty =>
      assert prefix + [] == prefix;
    case Pair(car, cdr) =>
      var s, more := NameText(car).value, Texts(cdr).value;
      assert ([s] + more)[1..] == more;
      if s == [] {
        assert prefix + Letter('L') + Letter('N') == prefix + (Letter('L') + Letter('N'));
      } else {
        var cont := (result: Bytes) => MangleModule(result, cdr);
        var p := prefix + Letter('L');
        MangleIsCode(cont, p, s);
        MangleModuleIsCode(p + Code(s), cdr);
        assert p + Code(s) + ModuleCode(more) == prefix + ModuleCode([s] + more);
      }
  }

  lemma {:induction false} ModuleCodeStart(names: seq<Bytes>)
    ensures ModuleCode(names) == [] || ModuleCode(names)[0] == 'L' as int
  {}

  lemma {:induction false} NodeParses(s: Bytes, more: Bytes)
    requires WellFormed(s) && s != [] && (more == [] || more[0] == 'L' as int)
    ensures ParseModuleNameNode(Letter('L') + Code(s) + more) == Some((s, more))
  {
    hide Code, ParseSegments, WellFormed;
    var t := Letter('L') + Code(s) + more;
    assert t[1..] == Code(s) + more;
    CodeParses(s, more);
  }

  lemma {:induction false} EmptyNodeFails()
    ensures ParseModuleNameNode(Letter('L') + Letter('N')).None?
  {
    assert (Letter('L') + Letter('N'))[1..] == Letter('N');
    assert ParseNameSegment(Letter('N')).None?;
  }

  /** Parsing a mangled module name gives back its components, if and only if none is empty. */
  lemma {:induction false} NodesParse(names: seq<Bytes>)
    requires AllWellFormed(names)
    ensures ParseNodes(ModuleCode(names)) == Some(names) <==> NoneEmpty(names)
  {
    hide ParseModuleNameNode, Code, WellFormed;
    if names != [] {
      var s, more := names[0], names[1..];
      if s == [] {
        EmptyNodeFails();
      } else {
        ModuleCodeStart(more);
        NodeParses(s, ModuleCode(more));
        NodesParse(more);
        assert [s] + more == names;
      }
    }
  }

  /** Different module names have different codes. */
  lemma {:induction false} ModuleCodeInjective(a: seq<Bytes>, b: seq<Bytes>)
    requires AllWellFormed(a) && NoneEmpty(a) && AllWellFormed(b) && NoneEmpty(b)
    requires ModuleCode(a) == ModuleCode(b)
    ensures a == b
  {
    NodesParse(a);
    NodesParse(b);
  }

  /** An empty component hides all the components after it. */
  lemma {:induction false} EmptyComponentEnds(before: seq<Bytes>, a: seq<Bytes>, b: seq<Bytes>)
    ensures ModuleCode(before + [[]] + a) == ModuleCode(before + [[]] + b)
  {
    if before == [] {
      assert (before + [[]] + a)[0] == [] && (before + [[]] + b)[0] == [];
    } else {
      assert (before + [[]] + a)[1..] == before[1..] + [[]] + a && (before + [[]] + b)[1..] == before[1..] + [[]] + b;
      EmptyComponentEnds(before[1..], a, b);
    }
  }

  // ---------------------------------------------------------------- variables

  const MODULE_FILE: Bytes := Text("__module_file")

  /** consumeNameSegment: what follows a segment. */
  function ConsumeNameSegment(s: Bytes): (r: Option<Bytes>)
    ensures r.Some? ==> |r.value| <= |s|
  {
    if |s| < 2 then None
    else if s[0] == '0' as int then
      var hex := ParseCharHexCode(s);
      if hex.None? then None else Some(hex.value.1)
    else if IsLower(s[0]) then Some(s[2..])
    else if IsDigit(s[0]) then
      var (length, rest) := ReadNumber(s, 0);
      if !StartsWith(rest, 'S') || |rest| - 1 < length then None else Some(rest[1 + length..])
    else Some(s)
  }

  /** What follows the module in the name of an entity, or nothing for an invalid name. */
  function AfterModule(s: Bytes): (r: Option<Bytes>)
    ensures r.Some? ==> |r.value| <= |s|
    decreases |s|
  {
    if s == [] || s[0] == 'V' as int || s[0] == 'F' as int || s[0] == 'A' as int then Some(s)
    else if s[0] == 'L' as int then AfterModule(s[1..])
    else if s[0] == '_' as int then (if MODULE_FILE <= s then AfterModule(s[|MODULE_FILE|..]) else None)
    else
      var rest := ConsumeNameSegment(s);
      if rest.None? || |rest.value| == |s| then None else AfterModule(rest.value)
  }

  function ModulePrefixOf(name: Bytes, manglePrefix: Bytes): Bytes
    requires |manglePrefix| <= |name|
  {
    var rest := AfterModule(name[|manglePrefix|..]);
    if rest.None? then [] else name[..|name| - |rest.value|]
  }

  /** Mangler::parseModulePrefix checks for progress on each turn. */
  method ParseModulePrefix(name: Bytes, manglePrefix: Bytes) returns (r: Bytes)
    requires |manglePrefix| <= |name|
    ensures r == ModulePrefixOf(name, manglePrefix)
  {
    var ending := name[|manglePrefix|..];
    var prevEndingSize := 0;
    while |ending| > 0
      invariant |ending| <= |name|
      invariant if |ending| > 0 && |ending| == prevEndingSize then AfterModule(name[|manglePrefix|..]) == None
                else AfterModule(name[|manglePrefix|..]) == AfterModule(ending)
      decreases |ending|, if |ending| == prevEndingSize then 0 else 1
    {
      if |ending| == prevEndingSize {
        return [];
      }
      prevEndingSize := |ending|;
      if ending[0] == 'V' as int || ending[0] == 'F' as int || ending[0] == 'A' as int {
        break;
      } else if ending[0] == 'L' as int {
        ending := ending[1..];
      } else if ending[0] == '_' as int {
        if MODULE_FILE <= ending {
          ending := ending[|MODULE_FILE|..];
        }
      } else {
        var rest := ConsumeNameSegment(ending);
        if rest.None? {
          return [];
        }
        ending := rest.value;
      }
    }
    return name[..|name| - |ending|];
  }

  lemma {:induction false} ConsumeParsed(s: Bytes, x: Bytes, t: Bytes)
    requires ParseNameSegment(s) == Some((x, t))
    ensures ConsumeNameSegment(s) == Some(t)
  {}

  lemma {:induction false} AfterSegment(x: Bytes, rest: Bytes)
    requires x != [] && (IsDigit(x[0]) || IsLower(x[0])) && ConsumeNameSegment(x) == Some(rest) && |rest| < |x|
    ensures AfterModule(x) == AfterModule(rest)
  {}

  lemma {:induction false} AfterCode(s: Bytes, t: Bytes)
    requires WellFormed(s)
    ensures AfterModule(Code(s) + t) == AfterModule(t)
    decreases |s|
  {
    if s == [] {
      assert Code(s) + t == t;
    } else {
      var n := SegmentLength(s);
      var front, back := Segment(s), Code(s[n..]);
      CodeStart(s);
      SegmentParses(s, back + t);
      WellFormedTail(s);
      AfterCode(s[n..], t);
      AfterFront(front, back, t, s[..n]);
    }
  }

  lemma {:induction false} AfterFront(front: Bytes, back: Bytes, t: Bytes, x: Bytes)
    requires front != [] && (IsDigit(front[0]) || IsLower(front[0]))
    requires ParseNameSegment(front + (back + t)) == Some((x, back + t))
    ensures AfterModule(front + back + t) == AfterModule(back + t)
  {
    hide ParseNameSegment, ConsumeNameSegment, AfterModule;
    assert front + back + t == front + (back + t);
    ConsumeParsed(front + (back + t), x, back + t);
    AfterSegment(front + (back + t), back + t);
  }

  /** The module of the name of an entity ends where the entity begins. */
  lemma {:induction false} AfterModuleCode(names: seq<Bytes>, t: Bytes)
    requires AllWellFormed(names) && NoneEmpty(names)
    ensures AfterModule(ModuleCode(names) + t) == AfterModule(t)
  {
    hide Code, WellFormed, AfterModule, ModuleCode;
    ModuleCodeSplit(names);
    if names == [] {
      assert [] + t == t;
    } else {
      var s, more := names[0], ModuleCode(names[1..]);
      AfterModuleCode(names[1..], t);
      AfterComponent(s, more + t);
      assert Letter('L') + Code(s) + more + t == Letter('L') + (Code(s) + (more + t));
    }
  }

  /** What a variable, a function or an anonymous function begins with. */
  predicate IsEntity(t: Bytes) { StartsWith(t, 'V') || StartsWith(t, 'F') || StartsWith(t, 'A') }

  lemma {:induction false} AfterEntity(t: Bytes)
    requires IsEntity(t)
    ensures AfterModule(t) == Some(t)
  {}

  /** The module prefix of any entity is its module, and the name of the file of a module is all prefix. */
  lemma {:induction false} ModulePrefixExactly(manglePrefix: Bytes, names: seq<Bytes>, t: Bytes)
    requires AllWellFormed(names) && NoneEmpty(names)
    ensures IsEntity(t) ==>
      ModulePrefixOf(manglePrefix + ModuleCode(names) + t, manglePrefix) == manglePrefix + ModuleCode(names)
    ensures t == Text("__module_file") ==>
      ModulePrefixOf(manglePrefix + ModuleCode(names) + t, manglePrefix) == manglePrefix + ModuleCode(names) + t
  {
    hide Code, ModuleCode, AfterModule, WellFormed;
    var v := manglePrefix + ModuleCode(names) + t;
    assert v[|manglePrefix|..] == ModuleCode(names) + t;
    AfterModuleCode(names, t);
    if IsEntity(t) {
      AfterEntity(t);
      assert v[..|v| - |t|] == manglePrefix + ModuleCode(names);
    }
    if t == Text("__module_file") {
      AfterFile(t);
      assert v[..|v|] == v;
    }
  }

  lemma {:induction false} AfterFile(t: Bytes)
    requires t == Text("__module_file")
    ensures AfterModule(t) == Some([])
  {
    assert t == MODULE_FILE && t[|MODULE_FILE|..] == [];
  }

  lemma {:induction false} ModuleCodeSplit(names: seq<Bytes>)
    ensures names == [] ==> ModuleCode(names) == []
    ensures names != [] && names[0] != [] ==> ModuleCode(names) == Letter('L') + Code(names[0]) + ModuleCode(names[1..])
  {}

  lemma {:induction false} AfterComponent(s: Bytes, t: Bytes)
    requires WellFormed(s)
    ensures AfterModule(Letter('L') + (Code(s) + t)) == AfterModule(t)
  {
    hide Code, WellFormed;
    var x := Letter('L') + (Code(s) + t);
    AfterCode(s, t);
    assert x[1..] == Code(s) + t;
  }

  /** The name of a variable of a module. */
  function VariableCode(manglePrefix: Bytes, names: seq<Bytes>, name: Bytes): Bytes {
    manglePrefix + ModuleCode(names) + Letter('V') + if name == [] then Letter('N') else Code(name)
  }

  lemma {:induction false} MangleVariableIsCode(manglePrefix: Bytes, names: seq<Bytes>, name: Bytes)
    requires WellFormed(name)
    ensures MangleEntity('V', manglePrefix + ModuleCode(names), name) == Some(VariableCode(manglePrefix, names, name))
  {
    MangleIsCode((result: Bytes) => Some(result), manglePrefix + ModuleCode(names) + Letter('V'), name);
  }

  lemma {:induction false} VariableParts(manglePrefix: Bytes, names: seq<Bytes>, name: Bytes)
    requires AllWellFormed(names) && NoneEmpty(names)
    ensures var v := VariableCode(manglePrefix, names, name);
      var t := Letter('V') + if name == [] then Letter('N') else Code(name);
      && v == manglePrefix + ModuleCode(names) + t
      && AfterModule(v[|manglePrefix|..]) == Some(t)
  {
    hide Code, ModuleCode, AfterModule, WellFormed;
    var t := Letter('V') + if name == [] then Letter('N') else Code(name);
    var v := VariableCode(manglePrefix, names, name);
    assert v == manglePrefix + ModuleCode(names) + t;
    assert v[|manglePrefix|..] == ModuleCode(names) + t;
    AfterModuleCode(names, t);
    AfterEntity(t);
  }

  /** The module prefix of a variable is the name of its module. */
  lemma {:induction false} ModulePrefixOfVariable(manglePrefix: Bytes, names: seq<Bytes>, name: Bytes)
    requires AllWellFormed(names) && NoneEmpty(names)
    ensures ModulePrefixOf(VariableCode(manglePrefix, names, name), manglePrefix) == manglePrefix + ModuleCode(names)
  {
    hide Code, ModuleCode, AfterModule;
    VariableParts(manglePrefix, names, name);
    var t := Letter('V') + if name == [] then Letter('N') else Code(name);
    var v := VariableCode(manglePrefix, names, name);
    assert v[..|v| - |t|] == manglePrefix + ModuleCode(names);
  }

  lemma {:induction false} CodeInjective(a: Bytes, b: Bytes)
    requires WellFormed(a) && WellFormed(b) && Code(a) == Code(b)
    ensures a == b
  {
    CodeParses(a, []);
    CodeParses(b, []);
    assert Code(a) + [] == Code(a) && Code(b) + [] == Code(b);
  }

  lemma {:induction false} NotEmptyName(a: Bytes)
    requires WellFormed(a) && a != []
    ensures Code(a) != Letter('N') && Code(a) != []
  {
    CodeStart(a);
    CodeSplit(a);
  }

  /** Variables with the same name are the same variable of the same module. */
  lemma {:induction false} VariableCodeInjective(manglePrefix: Bytes, a: seq<Bytes>, x: Bytes, b: seq<Bytes>, y: Bytes)
    requires AllWellFormed(a) && NoneEmpty(a) && AllWellFormed(b) && NoneEmpty(b) && WellFormed(x) && WellFormed(y)
    requires VariableCode(manglePrefix, a, x) == VariableCode(manglePrefix, b, y)
    ensures a == b && x == y
  {
    hide ModuleCode, Code, AfterModule, WellFormed;
    var s := if x == [] then Letter('N') else Code(x);
    var t := if y == [] then Letter('N') else Code(y);
    VariableParts(manglePrefix, a, x);
    VariableParts(manglePrefix, b, y);
    assert (Letter('V') + s)[1..] == s && (Letter('V') + t)[1..] == t;
    SameFront(manglePrefix, ModuleCode(a), ModuleCode(b), Letter('V') + s);
    ModuleCodeInjective(a, b);
    if x == [] && y != [] {
      NotEmptyName(y);
    } else if y == [] && x != [] {
      NotEmptyName(x);
    } else if x != [] {
      CodeInjective(x, y);
    }
  }

  lemma {:induction false} SameFront(p: Bytes, a: Bytes, b: Bytes, t: Bytes)
    requires p + a + t == p + b + t
    ensures a == b
  {
    assert |a| == |b|;
    forall i | 0 <= i < |a| ensures a[i] == b[i] {
      assert (p + a + t)[|p| + i] == a[i] && (p + b + t)[|p| + i] == b[i];
    }
  }

  /** Mangler::isExternalVariable */
  predicate IsExternalVariable(manglePrefix: Bytes, modulePrefix: Bytes, name: Bytes)
    requires |manglePrefix| <= |modulePrefix|
  {
    !(modulePrefix <= name) || ModulePrefixOf(name, manglePrefix) != modulePrefix
  }

  /** A variable is external exactly when its module is another one. */
  lemma {:induction false} ExternalIsOtherModule(manglePrefix: Bytes, a: seq<Bytes>, b: seq<Bytes>, x: Bytes)
    requires AllWellFormed(a) && NoneEmpty(a) && AllWellFormed(b) && NoneEmpty(b)
    ensures IsExternalVariable(manglePrefix, manglePrefix + ModuleCode(b), VariableCode(manglePrefix, a, x)) <==> a != b
  {
    hide ModuleCode, Code, ModulePrefixOf;
    var v := VariableCode(manglePrefix, a, x);
    ModulePrefixOfVariable(manglePrefix, a, x);
    if a == b {
      assert manglePrefix + ModuleCode(b) <= v;
    } else if manglePrefix + ModuleCode(a) == manglePrefix + ModuleCode(b) {
      SameFront(manglePrefix, ModuleCode(a), ModuleCode(b), []);
      ModuleCodeInjective(a, b);
    }
  }
}