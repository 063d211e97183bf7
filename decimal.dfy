/**
 * Decimal text and integers as Python converts between them: `str(n)` and
 * `int(s)` in base 10 (ASCII digits).
 */
module Decimal {
  import opened Wrappers
  import opened Strings

  predicate IsDigit(c: char) {
    '0' <= c <= '9'
  }

  predicate AllDigits(s: string) {
    forall i :: 0 <= i < |s| ==> IsDigit(s[i])
  }

  function DigitValue(c: char): nat
    requires IsDigit(c)
  {
    c as int - '0' as int
  }

  function DigitChar(d: nat): (c: char)
    requires d < 10
    ensures IsDigit(c) && DigitValue(c) == d
  {
    ('0' as int + d) as char
  }

  /** The number a string of digits denotes (leading zeros allowed). */
  function DigitsValue(s: string): nat
    requires AllDigits(s)
  {
    if s == [] then 0 else DigitsValue(s[..|s| - 1]) * 10 + DigitValue(s[|s| - 1])
  }

  /** Python's `str(n)` for `n >= 0`: shortest decimal digits. */
  function NatToString(n: nat): (r: string)
    ensures |r| >= 1 && AllDigits(r)
    ensures DigitsValue(r) == n
    ensures r[0] == '0' ==> n == 0
  {
    if n < 10 then [DigitChar(n)]
    else
      var r := NatToString(n / 10) + [DigitChar(n % 10)];
      assert r[..|r| - 1] == NatToString(n / 10);
      r
  }

  /** Python's `str(n)`. */
  function IntToString(n: int): (r: string)
    ensures |r| >= 1 && Trimmed(r)
  {
    if n < 0 then "-" + NatToString(-n) else NatToString(n)
  }

  /** What may follow the first digit of a numeral: digits, each maybe after one underscore. */
  predicate NumeralRest(s: string)
    decreases |s|
  {
    || s == []
    || (IsDigit(s[0]) && NumeralRest(s[1..]))
    || (|s| >= 2 && s[0] == '_' && IsDigit(s[1]) && NumeralRest(s[2..]))
  }

  /** Digits with single underscores between them: Python's decimal literal. */
  predicate IsNumeral(s: string) {
    |s| > 0 && IsDigit(s[0]) && NumeralRest(s[1..])
  }

  function DropUnderscores(s: string): string {
    if s == [] then []
    else if s[0] == '_' then DropUnderscores(s[1..])
    else [s[0]] + DropUnderscores(s[1..])
  }

  lemma {:induction false} NumeralRestDigits(s: string)
    requires NumeralRest(s)
    ensures AllDigits(DropUnderscores(s))
    decreases |s|
  {
    if s != [] {
      if IsDigit(s[0]) && NumeralRest(s[1..]) {
        NumeralRestDigits(s[1..]);
      } else {
        NumeralRestDigits(s[2..]);
        assert s[1..][1..] == s[2..];
      }
    }
  }

  function NumeralValue(s: string): nat
    requires IsNumeral(s)
  {
    NumeralRestDigits(s[1..]);
    DigitsValue(DropUnderscores(s))
  }

  /**
   * Python's `int(s)`: surrounding whitespace, an optional sign, then a
   * numeral; anything else is a `ValueError`, here `None`.
   */
  function ParseInt(s: string): Option<int> {
    ParseSigned(Strip(s))
  }

  /** `int()` of text without surrounding whitespace. */
  function ParseSigned(t: string): Option<int> {
    if |t| > 0 && (t[0] == '+' || t[0] == '-') then
      if IsNumeral(t[1..]) then
        var v: int := NumeralValue(t[1..]);
        Some(if t[0] == '-' then -v else v)
      else None
    else if IsNumeral(t) then Some(NumeralValue(t))
    else None
  }

  lemma {:induction false} DropUnderscoresOfDigits(s: string)
    requires AllDigits(s)
    ensures DropUnderscores(s) == s
    ensures NumeralRest(s)
  {
    if s != [] {
      DropUnderscoresOfDigits(s[1..]);
      assert [s[0]] + s[1..] == s;
    }
  }

  lemma StripTrimmed(t: string)
    requires Trimmed(t)
    ensures Strip(t) == t
  {
    StripPadded([], t, []);
    assert [] + t + [] == t;
  }

  lemma ParseSignedDigits(s: string)
    requires |s| > 0 && AllDigits(s)
    ensures ParseSigned(s) == Some(DigitsValue(s))
  {
    DigitsAreNumeral(s);
  }

  /** A run of digits parses to the number it denotes. */
  lemma ParseIntOfDigits(s: string)
    requires |s| > 0 && AllDigits(s)
    ensures ParseInt(s) == Some(DigitsValue(s))
  {
    assert Trimmed(s) by {
      assert IsDigit(s[0]) && IsDigit(s[|s| - 1]);
    }
    StripTrimmed(s);
    ParseSignedDigits(s);
  }

  /** `int(x)` depends only on `x.strip()`. */
  lemma ParseIntStrips(x: string)
    ensures ParseInt(x) == ParseInt(Strip(x))
  {
    StripIdempotent(x);
  }

  lemma DigitsAreNumeral(d: string)
    requires |d| > 0 && AllDigits(d)
    ensures IsNumeral(d) && NumeralValue(d) == DigitsValue(d)
  {
    DropUnderscoresOfDigits(d);
    DropUnderscoresOfDigits(d[1..]);
  }

  lemma ParseSignedNegative(d: string)
    requires |d| > 0 && AllDigits(d)
    ensures ParseSigned("-" + d) == Some(-(DigitsValue(d) as int))
  {
    var t := "-" + d;
    assert t[1..] == d;
    DigitsAreNumeral(d);
  }

  lemma ParseIntOfNegative(m: nat)
    ensures ParseInt("-" + NatToString(m)) == Some(-(m as int))
  {
    var d := NatToString(m);
    var t := "-" + d;
    assert Trimmed(t) by {
      assert t[0] == '-' && t[|t| - 1] == d[|d| - 1];
      assert IsDigit(d[|d| - 1]);
    }
    StripTrimmed(t);
    ParseSignedNegative(d);
  }

  /** `int(str(n)) == n` for every integer. */
  lemma ParseIntToString(n: int)
    ensures ParseInt(IntToString(n)) == Some(n)
  {
    if n < 0 {
      var m: nat := -n;
      assert IntToString(n) == "-" + NatToString(m);
      ParseIntOfNegative(m);
    } else {
      var t := NatToString(n);
      assert IntToString(n) == t;
      ParseIntOfDigits(t);
    }
  }

  /** `int(s)` ignores whitespace around the digits. */
  lemma ParseIntPadded(a: string, n: int, b: string)
    requires AllSpace(a) && AllSpace(b)
    ensures ParseInt(a + IntToString(n) + b) == Some(n)
  {
    StripPadded(a, IntToString(n), b);
    StripIdempotent(a + IntToString(n) + b);
    ParseIntToString(n);
  }
}
