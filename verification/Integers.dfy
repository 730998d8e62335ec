/** Integers as text (tryParseInteger in schir/lib/Parser.cpp, VisitInt in schir/lib/Context.cpp). */
module Integers {
  import opened Options
  import opened Utf8
  import opened Ascii
  import opened Lexing

  /** The number that digits write, or nothing if one of them is not a digit of the radix. */
  function Magnitude(s: Bytes, radix: nat): Option<nat> {
    if s == [] then Some(0) else
      var high, low := Magnitude(s[..|s| - 1], radix), DigitOf(s[|s| - 1]);
      if high.None? || low.None? || low.value >= radix then None else Some(high.value * radix + low.value)
  }

  predicate HasSign(s: Bytes) { s != [] && IsExplicitSign(s[0]) }

  function Unsigned(s: Bytes): Bytes { if HasSign(s) then s[1..] else s }

  /** The 32-bit pattern of an integer, if its magnitude fits. */
  function Pattern(s: Bytes, radix: nat): Option<nat> {
    var m := Magnitude(Unsigned(s), radix);
    if m.None? || m.value >= UINT32 then None
    else if s != [] && s[0] == '-' as int then Some((UINT32 - m.value) % UINT32)
    else Some(m.value)
  }

  lemma {:induction false} MagnitudePrefix(s: Bytes, i: nat, radix: nat)
    requires i <= |s| && Magnitude(s[..i], radix).None?
    ensures Magnitude(s, radix).None?
    decreases |s| - i
  {
    if i < |s| {
      assert s[..i + 1][..i] == s[..i];
      MagnitudePrefix(s, i + 1, radix);
    } else {
      assert s[..i] == s;
    }
  }

  lemma {:induction false} Quotients(a: nat, b: nat, q: nat, r: nat)
    requires b > 0 && a == b * q + r && r < b
    ensures a / b == q && a % b == r
  {
    LeadUnique(a, b, q, r);
  }

  /** Dividing a wrapped product gives back the factor exactly when nothing wrapped. */
  lemma {:induction false} ProductOverflow(before: nat, radix: nat)
    requires before < UINT32 && 2 <= radix <= 16
    ensures (before * radix % UINT32) / radix != before <==> before * radix >= UINT32
  {
    var p := before * radix;
    var w := p % UINT32;
    if p < UINT32 {
      Quotients(p, UINT32, 0, p);
      Quotients(w, radix, before, 0);
    } else {
      assert w <= p - UINT32;
      WrappedIsLess(w, radix, before, p);
    }
  }

  lemma {:induction false} WrappedIsLess(w: nat, radix: nat, before: nat, p: nat)
    requires 2 <= radix <= 16 && p == before * radix && w <= p - UINT32
    ensures w / radix < before
  {
    var q: nat, r: nat := w / radix, w % radix;
    assert w == radix * q + r;
    if q >= before {
      LeadLess(radix, before, q);
    }
  }

  lemma {:induction false} SumOverflow(v: nat, d: nat)
    requires v < UINT32 && d < 16
    ensures (v + d) % UINT32 < d <==> v + d >= UINT32
    ensures v + d < UINT32 ==> (v + d) % UINT32 == v + d
  {
    if v + d < UINT32 {
      Quotients(v + d, UINT32, 0, v + d);
    } else {
      Quotients(v + d, UINT32, 1, v + d - UINT32);
    }
  }

  lemma {:induction false} StaysLarge(m: nat, radix: nat, d: nat)
    requires m >= UINT32 && radix >= 2
    ensures m * radix + d >= UINT32
  {
    assert m * radix >= m * 2;
  }

  /** The checks after each digit find an overflow exactly when there is one. */
  method TryParseInteger(s: Bytes, radix: nat) returns (r: Option<nat>)
    requires s != [] && 2 <= radix <= 16
    ensures r == Pattern(s, radix)
  {
    var span, negate := s, false;
    if span[0] == '+' as int || span[0] == '-' as int {
      negate := span[0] == '-' as int;
      span := span[1..];
    }
    var val, overflowOccurred: bool := 0, false;
    ghost var m: nat := 0;
    for i := 0 to |span|
      invariant Magnitude(span[..i], radix) == Some(m) && 0 <= val < UINT32
      invariant overflowOccurred <==> m >= UINT32
      invariant !overflowOccurred ==> val == m
    {
      var digit := DigitOf(span[i]);
      assert span[..i + 1][..i] == span[..i];
      if digit.None? || digit.value >= radix {
        MagnitudePrefix(span, i + 1, radix);
        return None;
      }
      var oldVal := val;
      ProductOverflow(oldVal, radix);
      val := val * radix % UINT32;
      overflowOccurred := overflowOccurred || val / radix != oldVal;
      SumOverflow(val, digit.value);
      if m >= UINT32 {
        StaysLarge(m, radix, digit.value);
      } else {
        SmallProduct(m, radix);
      }
      val := (val + digit.value) % UINT32;
      overflowOccurred := overflowOccurred || val < digit.value;
      m := m * radix + digit.value;
    }
    assert span[..|span|] == span;
    if overflowOccurred {
      return None;
    }
    return Some(if negate then (UINT32 - val) % UINT32 else val);
  }

  lemma {:induction false} SmallProduct(m: nat, radix: nat)
    ensures m * radix < UINT32 ==> m * radix % UINT32 == m * radix
  {
    if m * radix < UINT32 {
      Quotients(m * radix, UINT32, 0, m * radix);
    }
  }

  // ---------------------------------------------------------------- 32-bit integers

  predicate IsInt32(i: int) { -0x8000_0000 <= i < 0x8000_0000 }

  /** The signed integer of a 32-bit pattern. */
  function ToInt32(n: nat): (i: int)
    requires n < UINT32
    ensures IsInt32(i)
  {
    if n < 0x8000_0000 then n else n - UINT32
  }

  function WriteInt(i: int): (r: Bytes)
    ensures r != []
  {
    if i < 0 then Letter('-') + Decimal(-i) else Decimal(i)
  }

  /** An exact integer, or nothing for what is left to floating point. */
  function ReadInt(s: Bytes): Option<int>
    requires s != []
  {
    var p := Pattern(s, 10);
    if p.None? then None else Some(ToInt32(p.value))
  }

  lemma {:induction false} MagnitudeOfDecimal(n: nat)
    ensures Magnitude(Decimal(n), 10) == Some(n)
  {
    if n < 10 {
      assert [48 + n][..0] == [];
      assert Magnitude([], 10) == Some(0);
    } else {
      MagnitudeOfDecimal(n / 10);
      var r := Decimal(n);
      assert r[..|r| - 1] == Decimal(n / 10);
    }
  }

  /** Digits after a sign or without one stand for their number modulo 2^32, and a number of 33 bits or more or
      what is no digit stands for nothing. */
  lemma {:induction false} PatternExactly(d: Bytes, radix: nat)
    requires d != [] && !IsExplicitSign(d[0])
    ensures Pattern(Letter('+') + d, radix) == Pattern(d, radix)
    ensures Pattern(d, radix).Some? <==> Magnitude(d, radix).Some? && Magnitude(d, radix).value < UINT32
    ensures Pattern(d, radix).Some? ==>
      var negated := Pattern(Letter('-') + d, radix);
      && Pattern(d, radix) == Magnitude(d, radix) && negated.Some? && negated.value < UINT32
      && (negated.value + Magnitude(d, radix).value) % UINT32 == 0
    ensures Pattern(d, radix).None? ==> Pattern(Letter('-') + d, radix).None?
  {
    hide Magnitude;
    assert (Letter('+') + d)[1..] == d && (Letter('-') + d)[1..] == d;
  }

  /** The signed integer of 32 bits that is i but for a multiple of 2^32. */
  function Wrapped(i: int): int { (i + 0x8000_0000) % UINT32 - 0x8000_0000 }

  /** Any integer in decimal: one of 33 bits or more is left to floating point, and others wrap around. */
  lemma {:induction false} ReadIntExactly(i: int)
    ensures ReadInt(WriteInt(i)) == if -UINT32 < i < UINT32 then Some(Wrapped(i)) else None
  {
    hide Decimal, Magnitude;
    if i < 0 {
      assert (Letter('-') + Decimal(-i))[1..] == Decimal(-i);
      MagnitudeOfDecimal(-i);
    } else {
      MagnitudeOfDecimal(i);
    }
  }

  /** So an integer is read back exactly when it has 32 bits. */
  lemma {:induction false} IntegerRoundTrip(i: int)
    ensures ReadInt(WriteInt(i)) == Some(i) <==> IsInt32(i)
  {
    hide WriteInt, ReadInt;
    ReadIntExactly(i);
  }

  lemma {:induction false} UntilNumber(d: Bytes, rest: Bytes)
    requires (forall i :: 0 <= i < |d| ==> IsDigit(d[i])) && EndsToken(rest)
    ensures UntilDelimiter(d + rest) == |d|
  {
    if d == [] {
      assert d + rest == rest;
    } else {
      assert (d + rest)[1..] == d[1..] + rest;
      UntilNumber(d[1..], rest);
    }
  }

  /** A written integer is one token. */
  lemma {:induction false} IntegerToken(i: int, rest: Bytes)
    requires EndsToken(rest)
    ensures Next(WriteInt(i) + rest) == (Token(Numeric, WriteInt(i)), rest)
  {
    hide SkipWhitespace, Decimal, UntilDelimiter, LiteralLength;
    var s := WriteInt(i);
    var u := s + rest;
    assert u[1..] == s[1..] + rest && u[0] == s[0];
    UntilNumber(s[1..], rest);
    SkipNothing(u);
    assert u[..|s|] == s && u[|s|..] == rest;
    if i < 0 {
      assert IsDigit(u[1]);
      NotPeculiar(s[0], u[1..]);
    }
  }

  lemma {:induction false} NotPeculiar(c: Byte, t: Bytes)
    requires IsExplicitSign(c) && t != [] && IsDigit(t[0])
    ensures !IsPeculiarPrefix(c, t)
  {}
}
