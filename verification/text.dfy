/** String helpers the sample relies on from the Java library: lower-casing,
    `Collectors.joining`, decimal rendering of integers, and the subset of
    `String.format` (`%s`, `%d`, `%%`) that its three format strings use. */
module Text {
  import opened Wrappers

  /** `Character.toLowerCase` restricted to ASCII: A-Z become a-z, everything else is kept. */
  function LowerChar(c: char): char
  {
    if 'A' <= c <= 'Z' then (c as int + 32) as char else c
  }

  /** `String.toLowerCase`, character by character (ASCII only, see LowerChar). */
  function Lower(s: string): (r: string)
    ensures |r| == |s|
    ensures forall i :: 0 <= i < |s| ==> r[i] == LowerChar(s[i])
  {
    seq(|s|, i requires 0 <= i < |s| => LowerChar(s[i]))
  }

  /** `Collectors.joining(sep)`: the elements with `sep` between neighbours; no elements give "". */
  function Join(sep: string, xs: seq<string>): string
    decreases |xs|
  {
    if |xs| == 0 then ""
    else if |xs| == 1 then xs[0]
    else xs[0] + sep + Join(sep, xs[1..])
  }

  /** Occurrences of `c` in `s`. This is `Wrappers.Count` with the selector
      `ch => ch == c`, written out so that the lemmas about separators name
      the counted character without a lambda. */
  function Occurrences(s: string, c: char): nat
    decreases |s|
  {
    if |s| == 0 then 0 else (if s[0] == c then 1 else 0) + Occurrences(s[1..], c)
  }

  /** Occurrences of `c` summed over several strings. */
  function OccurrencesAll(xs: seq<string>, c: char): nat
    decreases |xs|
  {
    if |xs| == 0 then 0 else Occurrences(xs[0], c) + OccurrencesAll(xs[1..], c)
  }

  lemma {:induction false} OccurrencesConcat(a: string, b: string, c: char)
    ensures Occurrences(a + b, c) == Occurrences(a, c) + Occurrences(b, c)
    decreases |a|
  {
    if |a| == 0 {
      assert a + b == b;
    } else {
      assert (a + b)[0] == a[0];
      assert (a + b)[1..] == a[1..] + b;
      OccurrencesConcat(a[1..], b, c);
    }
  }

  /** Joining does no escaping: a single-character separator `c` adds exactly
      |xs| - 1 occurrences of `c` to those already inside the elements, so an
      element that contains `c` cannot be told apart from two elements. */
  lemma {:induction false} JoinOccurrences(c: char, xs: seq<string>)
    requires |xs| > 0
    ensures Occurrences(Join([c], xs), c) == |xs| - 1 + OccurrencesAll(xs, c)
    decreases |xs|
  {
    if |xs| > 1 {
      JoinOccurrences(c, xs[1..]);
      OccurrencesConcat(xs[0] + [c], Join([c], xs[1..]), c);
      OccurrencesConcat(xs[0], [c], c);
      assert Occurrences([c], c) == 1;
    }
  }


  // ---------------------------------------------------------------------
  // Decimal integers, as `%d` renders them (ASCII digits, leading '-').

  predicate IsDigit(c: char)
  {
    '0' <= c <= '9'
  }

  function DigitChar(d: nat): (c: char)
    requires d < 10
    ensures IsDigit(c)
  {
    (('0' as int) + d) as char
  }

  /** The digits of `n` without leading zeros ("0" for zero). */
  function NatToDecimal(n: nat): (r: string)
    ensures 0 < |r|
    ensures forall i :: 0 <= i < |r| ==> IsDigit(r[i])
    ensures r[0] == '0' ==> n == 0
    decreases n
  {
    if n < 10 then [DigitChar(n)] else NatToDecimal(n / 10) + [DigitChar(n % 10)]
  }

  /** `%d` of an integer: a minus sign for negatives, then the digits of its magnitude. */
  function IntToDecimal(i: int): (r: string)
    ensures 0 < |r|
    ensures (r[0] == '-') <==> i < 0
  {
    if i < 0 then "-" + NatToDecimal(-i) else NatToDecimal(i)
  }

  /** The value of a string of decimal digits. */
  function DigitsValue(s: string): nat
    requires forall i :: 0 <= i < |s| ==> IsDigit(s[i])
    decreases |s|
  {
    if |s| == 0 then 0 else 10 * DigitsValue(s[..|s| - 1]) + DigitValue(s[|s| - 1])
  }

  function DigitValue(c: char): (d: nat)
    requires IsDigit(c)
    ensures d < 10
  {
    c as int - '0' as int
  }

  /** Reads back a rendered decimal integer, or None if `s` is not one. */
  function ParseDecimal(s: string): Option<int>
  {
    if 0 < |s| && s[0] == '-' then
      if 1 < |s| && forall i :: 1 <= i < |s| ==> IsDigit(s[i]) then Some(0 - DigitsValue(s[1..]) as int) else None
    else if 0 < |s| && forall i :: 0 <= i < |s| ==> IsDigit(s[i]) then Some(DigitsValue(s))
    else None
  }

  lemma {:induction false} NatToDecimalValue(n: nat)
    ensures DigitsValue(NatToDecimal(n)) == n
    decreases n
  {
    if n >= 10 {
      var s := NatToDecimal(n);
      NatToDecimalValue(n / 10);
      assert s[..|s| - 1] == NatToDecimal(n / 10);
    }
  }

  /** Rendering an integer in decimal loses nothing: it reads back as the same integer. */
  lemma IntToDecimalRoundTrip(i: int)
    ensures ParseDecimal(IntToDecimal(i)) == Some(i)
  {
    if i < 0 {
      NegativeRoundTrip(-i);
    } else {
      NonNegativeRoundTrip(i);
    }
  }

  lemma NonNegativeRoundTrip(n: nat)
    ensures ParseDecimal(NatToDecimal(n)) == Some(n as int)
  {
    var s := NatToDecimal(n);
    NatToDecimalValue(n);
    assert s[0] != '-';
  }

  lemma NegativeRoundTrip(n: nat)
    requires n > 0
    ensures ParseDecimal("-" + NatToDecimal(n)) == Some(0 - n as int)
  {
    var d := NatToDecimal(n);
    var s := "-" + d;
    assert s[1..] == d;
    assert forall i :: 1 <= i < |s| ==> s[i] == d[i - 1];
    NatToDecimalValue(n);
    assert ParseDecimal(s) == Some(0 - DigitsValue(d) as int);
  }

  // ---------------------------------------------------------------------
  // String.format, restricted to conversions without flags, width or index.

  datatype Arg = Str(s: string) | Int(i: int)

  datatype FormatError =
    | UnknownConversion      // UnknownFormatConversionException
    | MissingArgument        // MissingFormatArgumentException
    | IllegalConversion      // IllegalFormatConversionException

  predicate IsConversion(c: char)
  {
    c == 's' || c == 'd' || c == '%'
  }

  /** The format string parses: every '%' is followed by a supported conversion. */
  predicate WellFormedTemplate(fmt: string)
    decreases |fmt|
  {
    if |fmt| == 0 then true
    else if fmt[0] != '%' then WellFormedTemplate(fmt[1..])
    else 1 < |fmt| && IsConversion(fmt[1]) && WellFormedTemplate(fmt[2..])
  }

  function Prepend(p: string, r: Result<string, FormatError>): Result<string, FormatError>
  {
    if r.Ok? then Ok(p + r.value) else r
  }

  function RenderArg(a: Arg): string
  {
    match a
    case Str(s) => s
    case Int(i) => IntToDecimal(i)
  }

  /** Formats the rest of a well-formed template, with argument `k` next in line. */
  function FormatFrom(fmt: string, args: seq<Arg>, k: nat): Result<string, FormatError>
    requires WellFormedTemplate(fmt)
    decreases |fmt|
  {
    if |fmt| == 0 then Ok("")
    else if fmt[0] != '%' then Prepend([fmt[0]], FormatFrom(fmt[1..], args, k))
    else if fmt[1] == '%' then Prepend("%", FormatFrom(fmt[2..], args, k))
    else if k >= |args| then Err(MissingArgument)
    else if fmt[1] == 'd' && args[k].Str? then Err(IllegalConversion)
    else Prepend(RenderArg(args[k]), FormatFrom(fmt[2..], args, k + 1))
  }

  /** `String.format(fmt, args)`: the template is parsed before any argument is
      looked at; arguments beyond the last conversion are ignored. */
  function Format(fmt: string, args: seq<Arg>): Result<string, FormatError>
  {
    if WellFormedTemplate(fmt) then FormatFrom(fmt, args, 0) else Err(UnknownConversion)
  }

  /** Literal text free of '%' is copied to the output unchanged. */
  lemma {:induction false} FormatLiteral(lit: string, rest: string, args: seq<Arg>, k: nat)
    requires forall i :: 0 <= i < |lit| ==> lit[i] != '%'
    requires WellFormedTemplate(rest)
    ensures WellFormedTemplate(lit + rest)
    ensures FormatFrom(lit + rest, args, k) == Prepend(lit, FormatFrom(rest, args, k))
    decreases |lit|
  {
    if |lit| == 0 {
      assert lit + rest == rest;
      var r := FormatFrom(rest, args, k);
      if r.Ok? {
        assert lit + r.value == r.value;
      }
    } else {
      var t := lit + rest;
      assert t[0] == lit[0] && t[0] != '%';
      assert t[1..] == lit[1..] + rest;
      FormatLiteral(lit[1..], rest, args, k);
      assert FormatFrom(t, args, k) == Prepend([lit[0]], FormatFrom(lit[1..] + rest, args, k));
      var r := FormatFrom(rest, args, k);
      if r.Ok? {
        assert [lit[0]] + (lit[1..] + r.value) == lit + r.value;
      }
    }
  }

  /** A `%s` or `%d` with its argument present consumes that argument. */
  lemma FormatConversion(conv: char, rest: string, args: seq<Arg>, k: nat)
    requires conv == 's' || conv == 'd'
    requires WellFormedTemplate(rest)
    requires k < |args|
    requires conv == 'd' ==> args[k].Int?
    ensures WellFormedTemplate(['%', conv] + rest)
    ensures FormatFrom(['%', conv] + rest, args, k) == Prepend(RenderArg(args[k]), FormatFrom(rest, args, k + 1))
  {
    var f := ['%', conv] + rest;
    assert f[0] == '%' && f[1] == conv && f[2..] == rest;
  }

  /** `%%` renders a single percent sign and consumes no argument. */
  lemma FormatPercent(rest: string, args: seq<Arg>, k: nat)
    requires WellFormedTemplate(rest)
    ensures WellFormedTemplate("%%" + rest)
    ensures FormatFrom("%%" + rest, args, k) == Prepend("%", FormatFrom(rest, args, k))
  {
    var f := "%%" + rest;
    assert f[0] == '%' && f[1] == '%' && f[2..] == rest;
  }
}
