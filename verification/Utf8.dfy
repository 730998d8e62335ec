/**
 UTF-8 and hexadecimal codecs and the strings built on them (Utf8View::decode_front,
 encode_utf8, encode_hex, from_hex, string_length, string_ref and string_copy in
 schir/lib/Builtins.cpp).

 Text is a list of bytes.  A test of the leading bits of a byte is a range, and
 the other bits are what remains of a division.
 */
module Utf8 {
  import opened Options

  type Byte = b: int | 0 <= b < 256

  type Bytes = seq<Byte>

  /** A code point that is not a surrogate. */
  predicate IsScalar(c: nat) { c < 0xD800 || 0xDFFF < c <= 0x10FFFF }

  predicate IsTail(b: Byte) { 0x80 <= b < 0xC0 }

  // ---------------------------------------------------------------- codec

  /** The code point at the front and its length, which is 0 on an error. */
  function DecodeFront(s: Bytes): (r: (nat, nat))
    ensures r.1 <= |s| && r.1 <= 4
  {
    if |s| > 0 && s[0] < 0x80 then (s[0], 1)
    else if |s| > 1 && 0xC0 <= s[0] < 0xE0 && IsTail(s[1]) && Two(s) >= 0x80 then (Two(s), 2)
    else if |s| > 2 && 0xE0 <= s[0] < 0xF0 && IsTail(s[1]) && IsTail(s[2])
      && Three(s) >= 0x800 && (Three(s) < 0xD800 || Three(s) > 0xDFFF) then (Three(s), 3)
    else if |s| > 3 && 0xF0 <= s[0] < 0xF8 && IsTail(s[1]) && IsTail(s[2]) && IsTail(s[3])
      && 0x10000 <= Four(s) <= 0x10FFFF then (Four(s), 4)
    else (0, 0)
  }

  function Two(s: Bytes): nat
    requires |s| > 1
  {
    Join2(s[0], s[1])
  }

  function Three(s: Bytes): nat
    requires |s| > 2
  {
    Join3(s[0], s[1], s[2])
  }

  function Four(s: Bytes): nat
    requires |s| > 3
  {
    Join4(s[0], s[1], s[2], s[3])
  }

  /** The bits of a code point from the bytes that hold them. */
  function Join2(a: nat, b: nat): nat { (a % 32) * 64 + b % 64 }

  function Join3(a: nat, b: nat, c: nat): nat { (a % 16) * 4096 + (b % 64) * 64 + c % 64 }

  function Join4(a: nat, b: nat, c: nat, d: nat): nat { (a % 8) * 262144 + (b % 64) * 4096 + (c % 64) * 64 + d % 64 }

  /** encode_utf8 pushes the bytes of a code point, or nothing if it is too large. */
  function Encode(c: nat): Bytes {
    if c <= 0x7F then [c]
    else if c <= 0x7FF then [0xC0 + c / 64, 0x80 + c % 64]
    else if c <= 0xFFFF then [0xE0 + c / 4096, 0x80 + c / 64 % 64, 0x80 + c % 64]
    else if c <= 0x10FFFF then [0xF0 + c / 262144, 0x80 + c / 4096 % 64, 0x80 + c / 64 % 64, 0x80 + c % 64]
    else []
  }

  /** UTF8-char of section 4 of RFC 3629. */
  predicate IsUtf8Char(s: Bytes) {
    match |s|
    case 1 => s[0] <= 0x7F
    case 2 => 0xC2 <= s[0] <= 0xDF && IsTail(s[1])
    case 3 =>
      && IsTail(s[1]) && IsTail(s[2])
      && ((s[0] == 0xE0 && 0xA0 <= s[1]) || 0xE1 <= s[0] <= 0xEC
          || (s[0] == 0xED && s[1] <= 0x9F) || 0xEE <= s[0] <= 0xEF)
    case 4 =>
      && IsTail(s[1]) && IsTail(s[2]) && IsTail(s[3])
      && ((s[0] == 0xF0 && 0x90 <= s[1]) || 0xF1 <= s[0] <= 0xF3 || (s[0] == 0xF4 && s[1] <= 0x8F))
    case _ => false
  }

  lemma {:induction false} Lead(a: nat, k: nat, m: nat)
    requires m > 0 && k % m == 0 && k <= a < k + m
    ensures a % m == a - k
  {
    assert a == m * (k / m) + (a - k);
    LeadUnique(a, m, k / m, a - k);
  }

  lemma {:induction false} LeadUnique(a: nat, m: nat, q: nat, r: nat)
    requires m > 0 && a == m * q + r && r < m
    ensures a % m == r && a / m == q
  {
    var q', r' := a / m, a % m;
    assert a == m * q' + r';
    if q' < q {
      LeadLess(m, q' + 1, q);
    } else if q < q' {
      LeadLess(m, q + 1, q');
    }
  }

  lemma {:induction false} LeadLess(m: nat, a: nat, b: nat)
    requires a <= b
    ensures m * a <= m * b
  {}

  /** The leading byte and the tails hold the digits of the code point. */
  lemma {:induction false} Join2Is(a: nat, b: nat)
    requires 0xC0 <= a < 0xE0 && 0x80 <= b < 0xC0
    ensures Join2(a, b) == (a - 0xC0) * 64 + (b - 0x80)
    ensures Join2(a, b) / 64 == a - 0xC0 && Join2(a, b) % 64 == b - 0x80
  {
    Lead(a, 0xC0, 32);
    Lead(b, 0x80, 64);
    LeadUnique(Join2(a, b), 64, a - 0xC0, b - 0x80);
  }

  lemma {:induction false} Join3Is(a: nat, b: nat, c: nat)
    requires 0xE0 <= a < 0xF0 && 0x80 <= b < 0xC0 && 0x80 <= c < 0xC0
    ensures Join3(a, b, c) == (a - 0xE0) * 4096 + (b - 0x80) * 64 + (c - 0x80)
    ensures Join3(a, b, c) / 4096 == a - 0xE0 && Join3(a, b, c) / 64 % 64 == b - 0x80 && Join3(a, b, c) % 64 == c - 0x80
  {
    Lead(a, 0xE0, 16);
    Lead(b, 0x80, 64);
    Lead(c, 0x80, 64);
    var x, h := Join3(a, b, c), (a - 0xE0) * 64 + (b - 0x80);
    LeadUnique(x, 4096, a - 0xE0, (b - 0x80) * 64 + (c - 0x80));
    LeadUnique(x, 64, h, c - 0x80);
    LeadUnique(h, 64, a - 0xE0, b - 0x80);
  }

  lemma {:induction false} Join4Is(a: nat, b: nat, c: nat, d: nat)
    requires 0xF0 <= a < 0xF8 && 0x80 <= b < 0xC0 && 0x80 <= c < 0xC0 && 0x80 <= d < 0xC0
    ensures Join4(a, b, c, d) == (a - 0xF0) * 262144 + (b - 0x80) * 4096 + (c - 0x80) * 64 + (d - 0x80)
    ensures Join4(a, b, c, d) / 262144 == a - 0xF0 && Join4(a, b, c, d) / 4096 % 64 == b - 0x80
    ensures Join4(a, b, c, d) / 64 % 64 == c - 0x80 && Join4(a, b, c, d) % 64 == d - 0x80
  {
    Lead(a, 0xF0, 8);
    Lead(b, 0x80, 64);
    Lead(c, 0x80, 64);
    Lead(d, 0x80, 64);
    var x, h := Join4(a, b, c, d), (a - 0xF0) * 64 + (b - 0x80);
    var g := h * 64 + (c - 0x80);
    LeadUnique(x, 262144, a - 0xF0, (b - 0x80) * 4096 + (c - 0x80) * 64 + (d - 0x80));
    LeadUnique(x, 4096, h, (c - 0x80) * 64 + (d - 0x80));
    LeadUnique(h, 64, a - 0xF0, b - 0x80);
    LeadUnique(x, 64, g, d - 0x80);
    LeadUnique(g, 64, h, c - 0x80);
  }

  /** The digits of a number in base 64. */
  lemma {:induction false} Digits(c: nat)
    ensures c == (c / 64) * 64 + c % 64
    ensures c == (c / 4096) * 4096 + (c / 64 % 64) * 64 + c % 64
    ensures c == (c / 262144) * 262144 + (c / 4096 % 64) * 4096 + (c / 64 % 64) * 64 + c % 64
  {
    var h := c / 64;
    var g := h / 64;
    LeadUnique(c, 4096, g, (h % 64) * 64 + c % 64);
    LeadUnique(c, 262144, g / 64, (g % 64) * 4096 + (h % 64) * 64 + c % 64);
  }

  /** Decoding gives back an encoded code point, whatever follows it. */
  lemma {:induction false} DecodeEncode(c: nat, rest: Bytes)
    requires IsScalar(c)
    ensures DecodeFront(Encode(c) + rest) == (c, |Encode(c)|)
  {
    var s := Encode(c) + rest;
    Digits(c);
    if c <= 0x7F {
    } else if c <= 0x7FF {
      DecodeTwo(s, c);
    } else if c <= 0xFFFF {
      DecodeThree(s, c);
    } else {
      DecodeFour(s, c);
    }
  }

  lemma {:induction false} DecodeTwo(s: Bytes, c: nat)
    requires |s| >= 2 && 0x7F < c <= 0x7FF && c == (c / 64) * 64 + c % 64
    requires s[0] == 0xC0 + c / 64 && s[1] == 0x80 + c % 64
    ensures DecodeFront(s) == (c, 2)
  {
    hide Join2, Join3, Join4;
    Join2Is(s[0], s[1]);
  }

  lemma {:induction false} DecodeThree(s: Bytes, c: nat)
    requires |s| >= 3 && 0x7FF < c <= 0xFFFF && IsScalar(c)
    requires c == (c / 4096) * 4096 + (c / 64 % 64) * 64 + c % 64
    requires s[0] == 0xE0 + c / 4096 && s[1] == 0x80 + c / 64 % 64 && s[2] == 0x80 + c % 64
    ensures DecodeFront(s) == (c, 3)
  {
    hide Join2, Join3, Join4;
    Join3Is(s[0], s[1], s[2]);
  }

  lemma {:induction false} DecodeFour(s: Bytes, c: nat)
    requires |s| >= 4 && 0xFFFF < c <= 0x10FFFF
    requires c == (c / 262144) * 262144 + (c / 4096 % 64) * 4096 + (c / 64 % 64) * 64 + c % 64
    requires s[0] == 0xF0 + c / 262144 && s[1] == 0x80 + c / 4096 % 64
    requires s[2] == 0x80 + c / 64 % 64 && s[3] == 0x80 + c % 64
    ensures DecodeFront(s) == (c, 4)
  {
    hide Join2, Join3, Join4;
    Join4Is(s[0], s[1], s[2], s[3]);
  }

  /** Encoding gives back the bytes that were decoded. */
  lemma {:induction false} EncodeDecode(s: Bytes)
    requires DecodeFront(s).1 > 0
    ensures var (c, n) := DecodeFront(s);
      IsScalar(c) && Encode(c) == s[..n]
  {
    hide Join2, Join3, Join4;
    var n := DecodeFront(s).1;
    if n == 2 {
      Join2Is(s[0], s[1]);
    } else if n == 3 {
      Join3Is(s[0], s[1], s[2]);
    } else if n == 4 {
      Join4Is(s[0], s[1], s[2], s[3]);
    }
  }

  /** decode_front accepts the byte sequences of the standard and no others. */
  lemma {:induction false} DecodeIsStandard(s: Bytes, n: nat)
    requires 0 < n <= |s|
    ensures DecodeFront(s).1 == n <==> IsUtf8Char(s[..n])
  {
    hide Join2, Join3, Join4;
    var p := s[..n];
    assert forall i :: 0 <= i < n ==> p[i] == s[i];
    if n == 2 && IsTail(s[1]) && 0xC0 <= s[0] < 0xE0 {
      Join2Is(s[0], s[1]);
    } else if n == 3 && IsTail(s[1]) && IsTail(s[2]) && 0xE0 <= s[0] < 0xF0 {
      Join3Is(s[0], s[1], s[2]);
    } else if n == 4 && IsTail(s[1]) && IsTail(s[2]) && IsTail(s[3]) && 0xF0 <= s[0] < 0xF8 {
      Join4Is(s[0], s[1], s[2], s[3]);
    }
  }

  // ---------------------------------------------------------------- texts

  /** UTF8-octets of section 4 of RFC 3629. */
  predicate WellFormed(s: Bytes)
    decreases |s|
  {
    s == [] || (DecodeFront(s).1 > 0 && WellFormed(s[DecodeFront(s).1..]))
  }

  /** The code points up to the first error. */
  function Chars(s: Bytes): seq<nat>
    decreases |s|
  {
    var (c, n) := DecodeFront(s);
    if n == 0 then [] else [c] + Chars(s[n..])
  }

  function EncodeAll(cs: seq<nat>): Bytes {
    if cs == [] then [] else Encode(cs[0]) + EncodeAll(cs[1..])
  }

  predicate AreScalars(cs: seq<nat>) {
    cs == [] || (IsScalar(cs[0]) && AreScalars(cs[1..]))
  }

  lemma {:induction false} EncodeChars(s: Bytes)
    requires WellFormed(s)
    ensures EncodeAll(Chars(s)) == s && AreScalars(Chars(s))
    decreases |s|
  {
    hide DecodeFront, Encode;
    if s != [] {
      var (c, n) := DecodeFront(s);
      EncodeDecode(s);
      EncodeChars(s[n..]);
      assert ([c] + Chars(s[n..]))[1..] == Chars(s[n..]);
      assert s == s[..n] + s[n..];
    }
  }

  lemma {:induction false} CharsEncode(cs: seq<nat>)
    requires AreScalars(cs)
    ensures WellFormed(EncodeAll(cs)) && Chars(EncodeAll(cs)) == cs
  {
    if cs != [] {
      var e, r := Encode(cs[0]), EncodeAll(cs[1..]);
      DecodeEncode(cs[0], r);
      CharsEncode(cs[1..]);
      assert (e + r)[|e|..] == r;
    }
  }

  /** What follows the first k code points. */
  function Drop(s: Bytes, k: nat): (r: Bytes)
    ensures |r| <= |s|
    decreases k
  {
    if k == 0 then s else Drop(s[DecodeFront(s).1..], k - 1)
  }

  lemma {:induction false} DropStep(s: Bytes, k: nat)
    ensures Drop(s, k + 1) == Drop(s, k)[DecodeFront(Drop(s, k)).1..]
    decreases k
  {
    if k > 0 {
      DropStep(s[DecodeFront(s).1..], k - 1);
    }
  }

  lemma {:induction false} DropIsSuffix(s: Bytes, k: nat)
    ensures Drop(s, k) == s[|s| - |Drop(s, k)|..]
    decreases k
  {
    if k > 0 {
      DropIsSuffix(s[DecodeFront(s).1..], k - 1);
    }
  }

  lemma {:induction false} DropChars(s: Bytes, k: nat)
    requires k <= |Chars(s)|
    ensures Chars(Drop(s, k)) == Chars(s)[k..]
    ensures WellFormed(s) ==> WellFormed(Drop(s, k))
    decreases k
  {
    if k > 0 {
      DropChars(s[DecodeFront(s).1..], k - 1);
    }
  }

  /** A view of the rest of a text. */
  class Utf8View {
    var range: Bytes

    constructor (s: Bytes)
      ensures range == s
    {
      range := s;
    }

    /** The code point at the front, which is removed, or nothing on an error. */
    method DropFront() returns (r: Option<nat>)
      modifies this
      ensures range == Drop(old(range), 1)
      ensures r == if Chars(old(range)) == [] then None else Some(Chars(old(range))[0])
    {
      var (codepoint, length) := DecodeFront(range);
      assert Drop(range, 1) == Drop(range[length..], 0);
      if length == 0 {
        assert range[length..] == range;
        return None;
      }
      range := range[length..];
      return Some(codepoint);
    }
  }

  method StringLength(s: Bytes) returns (size: nat)
    ensures size == |Chars(s)|
  {
    var view := new Utf8View(s);
    size := 0;
    var c := view.DropFront();
    DropStep(s, 0);
    while c.Some?
      invariant fresh(view) && size <= |Chars(s)| && view.range == Drop(s, size + 1)
      invariant c.Some? <==> size < |Chars(s)|
      decreases |Chars(s)| - size
    {
      size := size + 1;
      DropChars(s, size);
      DropStep(s, size);
      c := view.DropFront();
      assert Drop(view.range, 0) == view.range;
    }
  }

  method StringRef(s: Bytes, k: nat) returns (r: Option<nat>)
    ensures r == if k < |Chars(s)| then Some(Chars(s)[k]) else None
  {
    var view := new Utf8View(s);
    r := None;
    for i := 0 to k + 1
      invariant fresh(view) && view.range == Drop(s, i) && i <= |Chars(s)|
      invariant i > 0 ==> r == Some(Chars(s)[i - 1])
    {
      DropChars(s, i);
      DropStep(s, i);
      r := view.DropFront();
      if r.None? {
        return;
      }
    }
  }

  /** The code points from start to end, or to the end of the text. */
  method StringCopy(s: Bytes, start: nat, end: Option<nat>) returns (r: Bytes)
    ensures r == Copied(s, start, end)
  {
    var view := new Utf8View(s);
    for i := 0 to start
      invariant fresh(view) && view.range == Drop(s, i)
    {
      DropStep(s, i);
      var _ := view.DropFront();
    }
    r := view.range;
    if end.Some? {
      var back := new Utf8View(view.range);
      var i := start;
      while i < end.value
        invariant fresh(back) && start <= i && (i <= end.value || i == start) && back.range == Drop(s, i)
      {
        DropStep(s, i);
        var _ := back.DropFront();
        i := i + 1;
      }
      DropShrinks(s, start, i);
      r := r[..|r| - |back.range|];
    }
  }

  lemma {:induction false} DropShrinks(s: Bytes, j: nat, k: nat)
    requires j <= k
    ensures |Drop(s, k)| <= |Drop(s, j)|
    ensures Drop(s, k) == Drop(Drop(s, j), k - j)
  {
    if j < k {
      DropShrinks(s, j, k - 1);
      DropStep(s, k - 1);
      DropStep(Drop(s, j), k - 1 - j);
    }
  }

  function Copied(s: Bytes, start: nat, end: Option<nat>): Bytes {
    var from := Drop(s, start);
    if end.None? then from
    else if end.value <= start then []
    else
      DropShrinks(s, start, end.value);
      from[..|from| - |Drop(s, end.value)|]
  }

  /** A text is its first k code points and the rest. */
  lemma {:induction false} CopySplit(s: Bytes, k: nat)
    ensures Copied(s, 0, Some(k)) + Copied(s, k, None) == s
  {
    DropIsSuffix(s, k);
    if k == 0 {
      assert [] + s == s;
    }
  }

  lemma {:induction false} CharsCons(s: Bytes, q: Bytes)
    requires DecodeFront(s).1 > 0 && WellFormed(q)
    ensures var (c, n) := DecodeFront(s);
      WellFormed(s[..n] + q) && Chars(s[..n] + q) == [c] + Chars(q)
  {
    var (c, n) := DecodeFront(s);
    EncodeDecode(s);
    DecodeEncode(c, q);
    assert (s[..n] + q)[n..] == q;
  }

  lemma {:induction false} CharsPrefix(s: Bytes, k: nat)
    requires k <= |Chars(s)|
    ensures WellFormed(s[..|s| - |Drop(s, k)|]) && Chars(s[..|s| - |Drop(s, k)|]) == Chars(s)[..k]
    decreases k
  {
    hide DecodeFront;
    if k > 0 {
      var n := DecodeFront(s).1;
      var rest := s[n..];
      var q := rest[..|rest| - |Drop(s, k)|];
      CharsPrefix(rest, k - 1);
      CharsCons(s, q);
      assert s[..|s| - |Drop(s, k)|] == s[..n] + q;
    } else {
      NoChars();
    }
  }

  lemma {:induction false} NoChars()
    ensures Chars([]) == [] && WellFormed([])
  {}

  /** Copying from start to end takes those code points. */
  lemma {:induction false} CopyChars(s: Bytes, i: nat, j: nat)
    requires i <= j <= |Chars(s)|
    ensures Chars(Copied(s, i, Some(j))) == Chars(s)[i..j] && WellFormed(Copied(s, i, Some(j)))
    ensures Chars(Copied(s, i, None)) == Chars(s)[i..]
  {
    hide Chars, WellFormed, Drop, DecodeFront;
    DropChars(s, i);
    DropShrinks(s, i, j);
    if i < j {
      CharsPrefix(Drop(s, i), j - i);
      assert Chars(s)[i..][..j - i] == Chars(s)[i..j];
    } else {
      NoChars();
    }
  }

  /** The lengths of the two parts of a text add up. */
  lemma {:induction false} CopyLengths(s: Bytes, k: nat)
    requires k <= |Chars(s)|
    ensures |Chars(Copied(s, 0, Some(k)))| == k
    ensures |Chars(Copied(s, 0, Some(k)))| + |Chars(Copied(s, k, None))| == |Chars(s)|
  {
    CopyChars(s, 0, k);
    DropChars(s, k);
  }

  // ---------------------------------------------------------------- hexadecimal

  function HexDigit(d: nat): Byte
    requires d < 16
  {
    if d < 10 then 48 + d else 55 + d
  }

  /** A digit in either case. */
  function DigitOf(b: Byte): (r: Option<nat>)
    ensures r.Some? ==> r.value < 16
  {
    if 48 <= b <= 57 then Some(b - 48)
    else if 65 <= b <= 70 then Some(b - 55)
    else if 97 <= b <= 102 then Some(b - 87)
    else None
  }

  /** The digits of a number without leading zeros. */
  function HexDigits(c: nat): (r: Bytes)
    ensures |r| > 0
  {
    if c < 16 then [HexDigit(c)] else HexDigits(c / 16) + [HexDigit(c % 16)]
  }

  /** The number written by digits, or nothing if one of them is not a digit. */
  function HexValue(s: Bytes): Option<nat> {
    if s == [] then Some(0) else
      var high, low := HexValue(s[..|s| - 1]), DigitOf(s[|s| - 1]);
      if high.None? || low.None? then None else Some(16 * high.value + low.value)
  }

  lemma {:induction false} HexRoundTrip(c: nat)
    ensures HexValue(HexDigits(c)) == Some(c)
  {
    if c >= 16 {
      HexRoundTrip(c / 16);
      var r := HexDigits(c / 16) + [HexDigit(c % 16)];
      assert r[..|r| - 1] == HexDigits(c / 16);
    } else {
      assert [HexDigit(c)][..0] == [];
    }
  }

  function Pow16(n: nat): (p: nat)
    ensures p > 0
  {
    if n == 0 then 1 else 16 * Pow16(n - 1)
  }

  lemma {:induction false} HexCons(b: Byte, s: Bytes)
    ensures HexValue([b] + s)
         == if DigitOf(b).None? || HexValue(s).None? then None
            else Some(DigitOf(b).value * Pow16(|s|) + HexValue(s).value)
  {
    var t := [b] + s;
    if s == [] {
      assert t[..0] == [];
      assert HexValue(t[..0]) == Some(0);
    } else {
      var r := s[..|s| - 1];
      assert t[..|t| - 1] == [b] + r;
      HexCons(b, r);
      if DigitOf(b).Some? && HexValue(r).Some? {
        Shift16(DigitOf(b).value, Pow16(|r|), HexValue(r).value);
      }
    }
  }

  lemma {:induction false} Shift16(d: nat, p: nat, h: nat)
    ensures 16 * (d * p + h) == d * (16 * p) + 16 * h
  {}

  const UINT32 := 0x1_0000_0000

  lemma {:induction false} AddModulo(a: nat, b: nat)
    ensures (a % UINT32 + b) % UINT32 == (a + b) % UINT32
  {
    var q := a / UINT32;
    assert a == UINT32 * q + a % UINT32;
    var r := a % UINT32 + b;
    LeadUnique(a + b, UINT32, q + r / UINT32, r % UINT32);
  }

  /** from_hex adds the digits from the last to the first in 32 bits. */
  method FromHex(chars: Bytes) returns (output: nat, isError: bool)
    requires |chars| <= 16
    ensures isError <==> HexValue(chars).None?
    ensures output == if isError then 0 else HexValue(chars).value % UINT32
  {
    hide HexValue, Pow16, DigitOf;
    output := 0;
    var n := |chars|;
    assert chars[n..] == [];
    NoDigits();
    for i := 0 to n
      invariant HexValue(chars[n - i..]).Some? && output == HexValue(chars[n - i..]).value % UINT32
    {
      var digit := DigitOf(chars[n - i - 1]);
      assert chars[n - i - 1..] == [chars[n - i - 1]] + chars[n - i..];
      HexCons(chars[n - i - 1], chars[n - i..]);
      if digit.None? {
        NotHex(chars, n - i - 1);
        return 0, true;
      }
      AddModulo(HexValue(chars[n - i..]).value, digit.value * Pow16(i));
      output := (output + digit.value * Pow16(i)) % UINT32;
    }
    assert chars[n - n..] == chars;
    isError := false;
  }

  lemma {:induction false} NoDigits()
    ensures HexValue([]) == Some(0)
  {}

  lemma {:induction false} NotHex(s: Bytes, i: nat)
    requires i < |s| && HexValue(s[i..]).None?
    ensures HexValue(s).None?
    decreases i
  {
    if i > 0 {
      assert s[i - 1..] == [s[i - 1]] + s[i..];
      HexCons(s[i - 1], s[i..]);
      NotHex(s, i - 1);
    } else {
      assert s[0..] == s;
    }
  }

  /** c shifted right by n digits. */
  function Above(c: nat, n: nat): nat {
    if n == 0 then c else Above(c, n - 1) / 16
  }

  function Eight(c: nat, n: nat): Bytes
    requires n <= 8
    decreases n
  {
    if n == 0 then [] else [HexDigit(Above(c, n - 1) % 16)] + Eight(c, n - 1)
  }

  /** The digits of code that are there after i rounds, starting with none. */
  function FirstDigits(code: nat, i: nat): Bytes
    requires i <= 8
  {
    if i == 8 then HexDigits(code) else if Above(code, 8 - i) == 0 then [] else HexDigits(Above(code, 8 - i))
  }

  lemma {:induction false} FirstDigitsNext(code: nat, i: nat)
    requires i < 8
    ensures var digit, r := Above(code, 7 - i) % 16, FirstDigits(code, i);
      FirstDigits(code, i + 1) == if digit > 0 || r != [] || i == 7 then r + [HexDigit(digit)] else r
  {
    var c := Above(code, 7 - i);
    assert Above(code, 8 - i) == c / 16;
    assert i == 7 ==> c == code;
    if c < 16 {
      assert [] + [HexDigit(c)] == [HexDigit(c)];
    }
  }

  lemma {:induction false} EightNext(code: nat, i: nat, r: Bytes)
    requires i < 8
    ensures r + Eight(code, 8 - i) == r + [HexDigit(Above(code, 7 - i) % 16)] + Eight(code, 7 - i)
  {
    assert Eight(code, 8 - i) == [HexDigit(Above(code, 7 - i) % 16)] + Eight(code, 7 - i);
  }

  /** encode_hex leaves out leading zeros when nothing is there yet. */
  method EncodeHex(code: nat, result: Bytes) returns (r: Bytes)
    requires code < UINT32
    ensures r == if result == [] then HexDigits(code) else result + Eight(code, 8)
  {
    hide FirstDigits, Above, HexDigits, Eight;
    r := result;
    TopDigits(code);
    for i := 0 to 8
      invariant if result == [] then r == FirstDigits(code, i)
                else r != [] && r + Eight(code, 8 - i) == result + Eight(code, 8)
    {
      var digit := Above(code, 7 - i) % 16;
      FirstDigitsNext(code, i);
      EightNext(code, i, r);
      if digit > 0 || r != [] || i == 7 {
        r := r + [HexDigit(digit)];
      }
    }
    LastDigits(code, r);
  }

  lemma {:induction false} LastDigits(code: nat, r: Bytes)
    ensures FirstDigits(code, 8) == HexDigits(code) && r + Eight(code, 0) == r
  {}

  lemma {:induction false} TopDigits(code: nat)
    requires code < UINT32
    ensures Above(code, 8) == 0 && FirstDigits(code, 0) == []
  {
    assert Above(code, 2) == Above(code, 1) / 16 && Above(code, 4) == Above(code, 3) / 16;
    assert Above(code, 6) == Above(code, 5) / 16 && Above(code, 8) == Above(code, 7) / 16;
    assert Above(code, 4) < 0x10000;
  }
}