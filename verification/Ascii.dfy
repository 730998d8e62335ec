/** Letters and digits as bytes. */
module Ascii {
  import opened Utf8

  predicate StartsWith(s: Bytes, c: char)
    requires c < 256 as char
  {
    s != [] && s[0] == c as int
  }

  function Letter(c: char): Bytes
    requires c < 256 as char
  {
    [c as int]
  }

  /** The bytes of a text. */
  function Text(text: string): (s: Bytes)
    requires forall i :: 0 <= i < |text| ==> text[i] < 256 as char
    ensures |s| == |text|
  {
    seq(|text|, i requires 0 <= i < |text| => text[i] as int)
  }

  predicate IsDigit(b: Byte) { 48 <= b <= 57 }

  predicate IsLower(b: Byte) { 97 <= b <= 122 }

  predicate IsUpper(b: Byte) { 65 <= b <= 90 }

  function Decimal(n: nat): (r: Bytes)
    ensures r != [] && (n > 0 ==> 49 <= r[0] <= 57) && forall i :: 0 <= i < |r| ==> IsDigit(r[i])
  {
    if n < 10 then [48 + n] else Decimal(n / 10) + [48 + n % 10]
  }
}
