/**
  Decimal integers as text: the digits that `printf("%d")` writes and the
  `%d` conversion of the `scanf` family as section 7.21.6.2 of ISO C11
  defines it (white space skipped, an optional sign, the longest run of
  decimal digits).
 */
module Decimal {

  /** `isspace` in the "C" locale: space, \t, \n, \v, \f, \r. */
  predicate IsSpace(ch: char) {
    ch == ' ' || '\t' <= ch <= '\r'
  }

  predicate IsDigit(ch: char) {
    '0' <= ch <= '9'
  }

  predicate AllDigits(s: string) {
    forall k :: 0 <= k < |s| ==> IsDigit(s[k])
  }

  predicate AllSpace(s: string) {
    forall k :: 0 <= k < |s| ==> IsSpace(s[k])
  }

  function DigitValue(ch: char): (d: nat)
    requires IsDigit(ch)
    ensures d < 10
  {
    ch as int - '0' as int
  }

  function DigitChar(d: nat): (ch: char)
    requires d < 10
    ensures IsDigit(ch) && DigitValue(ch) == d
  {
    ('0' as int + d) as char
  }

  /** The number a run of decimal digits denotes, most significant first. */
  function DigitsValue(s: string): nat
    requires AllDigits(s)
    decreases |s|
  {
    if s == [] then 0 else 10 * DigitsValue(s[..|s| - 1]) + DigitValue(s[|s| - 1])
  }

  /** The digits `printf("%d")` writes for a non-negative number. */
  function FormatNat(n: nat): (s: string)
    ensures 1 <= |s| && AllDigits(s)
  {
    if n < 10 then [DigitChar(n)] else FormatNat(n / 10) + [DigitChar(n % 10)]
  }

  /** The text `printf("%d")` writes for any int. */
  function FormatInt(n: int): (s: string)
    ensures 1 <= |s|
    ensures s[0] == '-' <==> n < 0
    ensures n >= 0 ==> AllDigits(s)
  {
    if n < 0 then "-" + FormatNat(-n) else FormatNat(n)
  }

  /** Length of the run of digits `s` starts with. */
  function DigitRun(s: string): (n: nat)
    ensures n <= |s| && AllDigits(s[..n])
    ensures n < |s| ==> !IsDigit(s[n])
  {
    if s != [] && IsDigit(s[0]) then 1 + DigitRun(s[1..]) else 0
  }

  /**
    What one `%d` directive does to its input: it converts a number and
    leaves the rest unread, or fails on a character that cannot start a
    number (a matching failure), or finds the end of the input before any
    character of a number (an input failure).
   */
  datatype Conversion =
    | Converted(value: int, rest: string)
    | MatchingFailure
    | InputFailure

  /** One `%d` directive: white space is skipped, then a number is converted. */
  function ConvertInt(s: string): (r: Conversion)
    ensures r.Converted? ==> |r.rest| < |s|
  {
    if s == [] then InputFailure
    else if IsSpace(s[0]) then ConvertInt(s[1..])
    else ConvertNumber(s)
  }

  /** The conversion proper, from the first character that is not white space. */
  function ConvertNumber(t: string): (r: Conversion)
    requires t != []
    ensures !r.InputFailure?
    ensures r.Converted? ==> |r.rest| < |t|
  {
    var u := if t[0] == '-' || t[0] == '+' then t[1..] else t;
    var n := DigitRun(u);
    if n == 0 then
      MatchingFailure
    else
      var magnitude: int := DigitsValue(u[..n]);
      Converted(if t[0] == '-' then -magnitude else magnitude, u[n..])
  }

  /** What a conversion leaves unread is a proper suffix of its input that does not start with a digit. */
  predicate UnreadSuffix(s: string, rest: string) {
    |rest| < |s| && rest == s[|s| - |rest|..] && (rest == [] || !IsDigit(rest[0]))
  }

  lemma ConvertNumberShape(t: string)
    requires t != []
    ensures !ConvertNumber(t).InputFailure?
    ensures ConvertNumber(t).Converted? ==> UnreadSuffix(t, ConvertNumber(t).rest)
  {
    var u := if t[0] == '-' || t[0] == '+' then t[1..] else t;
    assert u == t[|t| - |u|..];
    var n := DigitRun(u);
    assert u[n..] == t[|t| - |u| + n..];
  }

  /**
    `%d` fails on input only when nothing but white space is left; a
    conversion consumes at least one character and stops before a digit.
   */
  lemma {:induction false} ConvertIntShape(s: string)
    ensures ConvertInt(s).InputFailure? <==> AllSpace(s)
    ensures ConvertInt(s).Converted? ==> UnreadSuffix(s, ConvertInt(s).rest)
  {
    if s != [] {
      if IsSpace(s[0]) {
        ConvertIntShape(s[1..]);
        assert AllSpace(s[1..]) ==> AllSpace(s) by {
          if AllSpace(s[1..]) {
            forall k | 0 <= k < |s| ensures IsSpace(s[k]) {
              if k > 0 { assert s[k] == s[1..][k - 1]; }
            }
          }
        }
        if ConvertInt(s).Converted? {
          var rest := ConvertInt(s).rest;
          assert s[1..][|s[1..]| - |rest|..] == s[|s| - |rest|..];
        }
      } else {
        ConvertNumberShape(s);
        assert !IsSpace(s[0]);
      }
    }
  }

  lemma {:induction false} FormatNatValue(n: nat)
    ensures DigitsValue(FormatNat(n)) == n
  {
    var s := FormatNat(n);
    if n >= 10 {
      FormatNatValue(n / 10);
      assert s[..|s| - 1] == FormatNat(n / 10);
    }
  }

  /** White space before a number is skipped. */
  lemma {:induction false} ConvertAfterSpace(ws: string, t: string)
    requires AllSpace(ws)
    requires t != [] && !IsSpace(t[0])
    ensures ConvertInt(ws + t) == ConvertNumber(t)
  {
    if ws != [] {
      assert (ws + t)[1..] == ws[1..] + t;
      assert IsSpace(ws[0]);
      ConvertAfterSpace(ws[1..], t);
    } else {
      assert ws + t == t;
    }
  }

  lemma {:induction false} DigitRunPrefix(d: string, rest: string)
    requires AllDigits(d)
    requires rest == [] || !IsDigit(rest[0])
    ensures DigitRun(d + rest) == |d|
  {
    if d != [] {
      assert (d + rest)[1..] == d[1..] + rest;
      DigitRunPrefix(d[1..], rest);
    } else {
      assert d + rest == rest;
    }
  }

  /** An unsigned run of digits converts to its value. */
  lemma {:induction false} ConvertDigits(d: string, rest: string)
    requires d != [] && AllDigits(d)
    requires rest == [] || !IsDigit(rest[0])
    ensures ConvertNumber(d + rest) == Converted(DigitsValue(d), rest)
  {
    var u := d + rest;
    DigitRunPrefix(d, rest);
    assert u[..|d|] == d;
    assert u[|d|..] == rest;
  }

  /** A run of digits after a minus sign converts to its negated value. */
  lemma {:induction false} ConvertNegativeDigits(t: string, d: string, rest: string)
    requires d != [] && AllDigits(d)
    requires rest == [] || !IsDigit(rest[0])
    requires t == "-" + d + rest
    ensures ConvertNumber(t) == Converted(-(DigitsValue(d) as int), rest)
  {
    var u := d + rest;
    assert t[1..] == u;
    DigitRunPrefix(d, rest);
    assert u[..|d|] == d;
    assert u[|d|..] == rest;
  }

  /**
    Reading back what `printf("%d")` wrote, after any white space and before
    any text that does not continue the number, gives the number back.
   */
  lemma {:induction false} ConvertFormat(ws: string, n: int, rest: string)
    requires AllSpace(ws)
    requires rest == [] || !IsDigit(rest[0])
    ensures ConvertInt(ws + FormatInt(n) + rest) == Converted(n, rest)
  {
    var t := FormatInt(n) + rest;
    assert ConvertInt(ws + FormatInt(n) + rest) == ConvertNumber(t) by {
      assert ws + FormatInt(n) + rest == ws + t;
      assert !IsSpace(t[0]);
      ConvertAfterSpace(ws, t);
    }
    FormatNumber(t, n, rest);
  }

  /** The same, with nothing before the number. */
  lemma {:induction false} ConvertFormatted(n: int, rest: string)
    requires rest == [] || !IsDigit(rest[0])
    ensures ConvertInt(FormatInt(n) + rest) == Converted(n, rest)
  {
    ConvertFormat([], n, rest);
    assert [] + FormatInt(n) + rest == FormatInt(n) + rest;
  }

  lemma {:induction false} FormatNumber(t: string, n: int, rest: string)
    requires rest == [] || !IsDigit(rest[0])
    requires t == FormatInt(n) + rest
    ensures ConvertNumber(t) == Converted(n, rest)
  {
    if n < 0 {
      FormatNegative(t, n, rest);
    } else {
      FormatNonNegative(t, n, rest);
    }
  }

  lemma {:induction false} FormatNegative(t: string, n: int, rest: string)
    requires n < 0
    requires rest == [] || !IsDigit(rest[0])
    requires t == FormatInt(n) + rest
    ensures ConvertNumber(t) == Converted(n, rest)
  {
    var d := FormatNat(-n);
    assert FormatInt(n) == "-" + d;
    FormatNatValue(-n);
    ConvertNegativeDigits(t, d, rest);
  }

  lemma {:induction false} FormatNonNegative(t: string, n: int, rest: string)
    requires n >= 0
    requires rest == [] || !IsDigit(rest[0])
    requires t == FormatInt(n) + rest
    ensures ConvertNumber(t) == Converted(n, rest)
  {
    var d := FormatNat(n);
    assert t == d + rest;
    assert DigitsValue(d) == n by {
      FormatNatValue(n);
    }
    ConvertDigits(d, rest);
  }

  /** Different numbers are written as different text. */
  lemma {:induction false} FormatIntInjective(m: int, n: int)
    requires FormatInt(m) == FormatInt(n)
    ensures m == n
  {
    ReadBack(m);
    ReadBack(n);
  }

  /** `ConvertFormatted` with nothing after the number. */
  lemma {:induction false} ReadBack(n: int)
    ensures ConvertInt(FormatInt(n)) == Converted(n, [])
  {
    ConvertFormatted(n, []);
    assert FormatInt(n) + [] == FormatInt(n);
  }
}
