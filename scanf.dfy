/**
  The two integer argument shapes the option parser hands to `sscanf`:
  `"%d"` (for -d and -i) and `"%dx%d"` (for -g and -r). Each call yields
  sscanf's return value (the number of values stored, or EOF when the
  input ended before the first conversion) and the values it stored.
 */
module Scanf {
  import opened Decimal

  const EOF: int := -1

  datatype Scan = Scan(ret: int, values: seq<int>)

  /** A return value a call with `conversions` directives can give, and one stored value per counted conversion. */
  predicate Consistent(r: Scan, conversions: nat) {
    EOF <= r.ret <= conversions && |r.values| == (if r.ret < 0 then 0 else r.ret)
  }

  /** `sscanf(arg, "%d", &x)` */
  function ScanInt(arg: string): (r: Scan)
    ensures Consistent(r, 1)
  {
    match ConvertInt(arg)
    case Converted(v, _) => Scan(1, [v])
    case MatchingFailure => Scan(0, [])
    case InputFailure => Scan(EOF, [])
  }

  /**
    `sscanf(arg, "%dx%d", &a, &b)`: the literal `x` must follow the first
    number at once (an ordinary character in the format does not skip
    white space); the second `%d` skips white space again.
   */
  function ScanIntPair(arg: string): (r: Scan)
    ensures Consistent(r, 2)
  {
    match ConvertInt(arg)
    case InputFailure => Scan(EOF, [])
    case MatchingFailure => Scan(0, [])
    case Converted(a, rest) =>
      if rest == [] || rest[0] != 'x' then
        Scan(1, [a])
      else
        match ConvertInt(rest[1..])
        case Converted(b, _) => Scan(2, [a, b])
        case _ => Scan(1, [a])
  }

  /**
    sscanf returns EOF exactly when the argument is empty or all white
    space; `"%dx%d"` stores its first value exactly when `"%d"` does, and
    the same value.
   */
  lemma ScanEndOfInput(arg: string)
    ensures ScanInt(arg).ret == EOF <==> AllSpace(arg)
    ensures ScanIntPair(arg).ret == EOF <==> AllSpace(arg)
    ensures ScanIntPair(arg).ret >= 1 <==> ScanInt(arg).ret == 1
    ensures ScanIntPair(arg).ret >= 1 ==> ScanIntPair(arg).values[0] == ScanInt(arg).values[0]
  {
    ConvertIntShape(arg);
  }

  /** A number as `printf("%d")` writes it, with any white space before it and any non-digit text after it, scans back to itself. */
  lemma {:induction false} ScanIntFormat(ws: string, n: int, rest: string)
    requires AllSpace(ws)
    requires rest == [] || !IsDigit(rest[0])
    ensures ScanInt(ws + FormatInt(n) + rest) == Scan(1, [n])
  {
    ConvertFormat(ws, n, rest);
  }

  /** `<a>x<b>` scans back to both numbers; white space may precede either number. */
  lemma {:induction false} ScanIntPairFormat(ws: string, a: int, ws2: string, b: int, rest: string)
    requires AllSpace(ws) && AllSpace(ws2)
    requires rest == [] || !IsDigit(rest[0])
    ensures ScanIntPair(ws + FormatInt(a) + (['x'] + (ws2 + FormatInt(b) + rest))) == Scan(2, [a, b])
  {
    var second := ws2 + FormatInt(b) + rest;
    var tail := ['x'] + second;
    var s := ws + FormatInt(a) + tail;
    assert ConvertInt(s) == Converted(a, tail) by {
      ConvertFormat(ws, a, tail);
    }
    assert ConvertInt(tail[1..]) == Converted(b, rest) by {
      assert tail[1..] == second;
      ConvertFormat(ws2, b, rest);
    }
    SecondConverted(s, a, tail, b, rest);
  }

  lemma SecondConverted(s: string, a: int, tail: string, b: int, rest: string)
    requires ConvertInt(s) == Converted(a, tail)
    requires tail != [] && tail[0] == 'x'
    requires ConvertInt(tail[1..]) == Converted(b, rest)
    ensures ScanIntPair(s) == Scan(2, [a, b])
  {
  }

  /** A number not followed at once by `x` stores one value only: `"%dx%d"` then returns 1. */
  lemma {:induction false} ScanIntPairWithoutSeparator(a: int, rest: string)
    requires rest == [] || (rest[0] != 'x' && !IsDigit(rest[0]))
    ensures ScanIntPair(FormatInt(a) + rest) == Scan(1, [a])
  {
    ConvertFormatted(a, rest);
    StopsAfterFirst(FormatInt(a) + rest, a, rest);
  }

  lemma {:induction false} StopsAfterFirst(s: string, a: int, rest: string)
    requires ConvertInt(s) == Converted(a, rest)
    requires rest == [] || rest[0] != 'x'
    ensures ScanIntPair(s) == Scan(1, [a])
  {
  }
}
