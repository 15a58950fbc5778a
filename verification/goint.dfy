/** Go's 64-bit `int` and the decimal conversions the service uses:
    `fmt.Sprintf("%d")`, `strconv.Atoi`, `fmt.Sscanf("%d")` and
    `strconv.ParseBool`. */
module GoInt {
  import opened Outcomes

  const MinInt64: int := -0x8000_0000_0000_0000
  const MaxInt64: int := 0x7FFF_FFFF_FFFF_FFFF
  const TwoTo64: int := 0x1_0000_0000_0000_0000

  predicate IsInt64(x: int) {
    MinInt64 <= x <= MaxInt64
  }

  /** Two's-complement wrap-around of a mathematical integer into Go's `int`. */
  function Wrap64(x: int): (r: int)
    ensures IsInt64(r)
    ensures (x - r) % TwoTo64 == 0
    ensures IsInt64(x) ==> r == x
  {
    var m := x % TwoTo64;
    if m > MaxInt64 then m - TwoTo64 else m
  }

  // ---------------------------------------------------------------------------
  // Decimal digits

  predicate IsDigit(c: char) {
    '0' <= c <= '9'
  }

  function DigitValue(c: char): nat
    requires IsDigit(c)
  {
    c as int - '0' as int
  }

  function DigitChar(d: nat): (c: char)
    requires d < 10
    ensures IsDigit(c) && DigitValue(c) == d
  {
    ('0' as int + d) as char
  }

  predicate AllDigits(s: string) {
    forall i :: 0 <= i < |s| ==> IsDigit(s[i])
  }

  /** The value of a string of decimal digits. */
  function DigitsValue(s: string): nat
    requires AllDigits(s)
    decreases |s|
  {
    if |s| == 0 then 0 else DigitsValue(s[..|s| - 1]) * 10 + DigitValue(s[|s| - 1])
  }

  /** The shortest decimal spelling of `n`. */
  function NatToDecimal(n: nat): (s: string)
    ensures |s| >= 1 && AllDigits(s)
    decreases n
  {
    if n < 10 then [DigitChar(n)] else NatToDecimal(n / 10) + [DigitChar(n % 10)]
  }

  /** `fmt.Sprintf("%d", n)`. */
  function IntToDecimal(n: int): (s: string)
    ensures |s| >= 1
  {
    if n < 0 then "-" + NatToDecimal(-n) else NatToDecimal(n)
  }

  lemma {:induction false} DigitsRoundTrip(n: nat)
    ensures DigitsValue(NatToDecimal(n)) == n
    decreases n
  {
    if n >= 10 {
      DigitsRoundTrip(n / 10);
      var s := NatToDecimal(n);
      assert s[..|s| - 1] == NatToDecimal(n / 10);
    }
  }

  /** The decimal spelling of a number never starts with a sign and has no space. */
  lemma NatToDecimalPlain(n: nat)
    ensures '-' !in NatToDecimal(n) && '+' !in NatToDecimal(n) && ' ' !in NatToDecimal(n)
  {
    var s := NatToDecimal(n);
    assert forall i :: 0 <= i < |s| ==> IsDigit(s[i]);
  }

  // ---------------------------------------------------------------------------
  // Parsing

  /** `strconv.Atoi`: an optional sign then at least one decimal digit, nothing
      else, and a value that fits Go's `int`. */
  function Atoi(s: string): (r: Option<int>)
    ensures r.Some? ==> IsInt64(r.value)
    ensures r.Some? ==> |s| > 0
  {
    var signed := |s| > 0 && (s[0] == '-' || s[0] == '+');
    var body := if signed then s[1..] else s;
    if |body| == 0 || !AllDigits(body) then None
    else
      var v: int := if signed && s[0] == '-' then 0 - DigitsValue(body) as int else DigitsValue(body);
      if IsInt64(v) then Some(v) else None
  }

  /** `Atoi` reads back what `%d` wrote, for every Go `int`. */
  lemma AtoiRoundTrip(n: int)
    requires IsInt64(n)
    ensures Atoi(IntToDecimal(n)) == Some(n)
  {
    var s := IntToDecimal(n);
    if n < 0 {
      assert s == "-" + NatToDecimal(-n);
      assert s[0] == '-' && s[1..] == NatToDecimal(-n);
      DigitsRoundTrip(-n);
    } else {
      assert s == NatToDecimal(n);
      assert IsDigit(s[0]);
      DigitsRoundTrip(n);
    }
  }

  /** The white space `fmt`'s scanner skips before a number: tab through
      carriage return, and U+0020, U+0085, U+00A0, U+1680, U+2000 to U+200A,
      U+2028, U+2029, U+202F, U+205F and U+3000. */
  predicate IsScanSpace(c: char) {
    var n := c as int;
    (0x09 <= n <= 0x0D) || n == 0x20 || n == 0x85 || n == 0xA0 || n == 0x1680
    || (0x2000 <= n <= 0x200A) || n == 0x2028 || n == 0x2029 || n == 0x202F
    || n == 0x205F || n == 0x3000
  }

  /** The scanner's space skipping for `Sscanf`: white space before the
      number is dropped, but a newline is an error (None). */
  function SkipSpace(s: string): (r: Option<string>)
    ensures r.Some? ==> |r.value| <= |s| && r.value == s[|s| - |r.value|..]
    ensures r.Some? ==> forall i :: 0 <= i < |s| - |r.value| ==> IsScanSpace(s[i]) && s[i] != '\n'
    ensures r.Some? ==> |r.value| == 0 || !IsScanSpace(r.value[0])
    ensures r.None? ==> '\n' in s
    decreases |s|
  {
    if |s| == 0 then Some(s)
    else if s[0] == '\n' then None
    else if IsScanSpace(s[0]) then SkipSpace(s[1..])
    else Some(s)
  }

  /** The characters `%d` gathers into its token: the digits and `_`. */
  predicate IsTokenChar(c: char) {
    IsDigit(c) || c == '_'
  }

  /** The longest prefix of token characters. */
  function LeadingToken(s: string): (r: string)
    ensures r <= s
    ensures forall i :: 0 <= i < |r| ==> IsTokenChar(r[i])
    ensures |r| == |s| || !IsTokenChar(s[|r|])
    decreases |s|
  {
    if |s| > 0 && IsTokenChar(s[0]) then [s[0]] + LeadingToken(s[1..]) else ""
  }

  /** `fmt.Sscanf(s, "%d", &n)`: leading white space is skipped (a newline
      there is an error), then the number is read by `ScanNumber`. Anything
      after the number is ignored. */
  function ScanDecimal(s: string): (r: Option<int>)
    ensures r.Some? ==> IsInt64(r.value)
  {
    match SkipSpace(s)
    case None => None
    case Some(t) => ScanNumber(t)
  }

  /** The number `%d` reads once the space is skipped: an optional sign and
      the longest run of digits and `_`, which `strconv.ParseInt` in base 10
      must accept: no `_`, at least one digit, a value that fits Go's `int`. */
  function ScanNumber(t: string): (r: Option<int>)
    ensures r.Some? ==> IsInt64(r.value)
  {
    var signed := |t| > 0 && (t[0] == '-' || t[0] == '+');
    var body := if signed then t[1..] else t;
    var token := LeadingToken(body);
    if |token| == 0 || !AllDigits(token) then None
    else
      var v: int := if signed && t[0] == '-' then 0 - DigitsValue(token) as int else DigitsValue(token);
      if IsInt64(v) then Some(v) else None
  }

  lemma {:induction false} LeadingTokenAll(s: string)
    requires AllDigits(s)
    ensures LeadingToken(s) == s
    decreases |s|
  {
    if |s| > 0 {
      LeadingTokenAll(s[1..]);
      assert s == [s[0]] + s[1..];
    }
  }

  /** Whatever `Atoi` accepts, `%d` scanning accepts with the same value. */
  lemma ScanExtendsAtoi(s: string)
    requires Atoi(s).Some?
    ensures ScanDecimal(s) == Atoi(s)
  {
    var signed := |s| > 0 && (s[0] == '-' || s[0] == '+');
    var body := if signed then s[1..] else s;
    assert !IsScanSpace(s[0]) by {
      if !signed {
        assert IsDigit(body[0]);
      }
    }
    LeadingTokenAll(body);
  }

  /** White space other than a newline in front of the number changes
      nothing. */
  lemma {:induction false} ScanSkipsLeadingSpace(pre: string, s: string)
    requires forall i :: 0 <= i < |pre| ==> IsScanSpace(pre[i]) && pre[i] != '\n'
    ensures ScanDecimal(pre + s) == ScanDecimal(s)
  {
    SkipSpaceOfSpace(pre, s);
  }

  lemma {:induction false} SkipSpaceOfSpace(pre: string, s: string)
    requires forall i :: 0 <= i < |pre| ==> IsScanSpace(pre[i]) && pre[i] != '\n'
    ensures SkipSpace(pre + s) == SkipSpace(s)
    decreases |pre|
  {
    if |pre| > 0 {
      assert (pre + s)[0] == pre[0];
      assert (pre + s)[1..] == pre[1..] + s;
      SkipSpaceOfSpace(pre[1..], s);
    } else {
      assert pre + s == s;
    }
  }

  /** A tab before the year is skipped, where `Atoi` rejects it ... */
  lemma ScanSkipsTab(year: string)
    requires Atoi(year).Some?
    ensures ScanDecimal("\t" + year) == Atoi(year)
    ensures Atoi("\t" + year).None?
  {
    ScanExtendsAtoi(year);
    ScanSkipsLeadingSpace("\t", year);
    var s := "\t" + year;
    assert s[0] == '\t';
    AtoiNeedsLeadingDigit(s);
  }

  /** `Atoi` rejects a string that starts with neither a sign nor a digit. */
  lemma AtoiNeedsLeadingDigit(s: string)
    requires |s| > 0 && s[0] != '-' && s[0] != '+' && !IsDigit(s[0])
    ensures Atoi(s).None?
  {
  }

  /** ... a newline there is an error ... */
  lemma ScanRejectsNewline()
    ensures ScanDecimal("\n2024") == None
  {
    assert SkipSpace("\n2024") == None;
  }

  /** ... and so is a `_` among the digits. */
  lemma ScanRejectsUnderscore()
    ensures ScanDecimal("2_024") == None
  {
    var s := "2_024";
    assert IsDigit(s[0]);
    assert SkipSpace(s) == Some(s);
    assert LeadingToken(s) == [s[0]] + LeadingToken(s[1..]);
    assert LeadingToken(s)[1] == '_';
  }

  /** Digits followed by text that cannot continue the token scan as the
      digits' value. */
  lemma ScanDigitsThen(d: string, rest: string)
    requires |d| > 0 && AllDigits(d) && IsInt64(DigitsValue(d))
    requires |rest| == 0 || !IsTokenChar(rest[0])
    ensures ScanDecimal(d + rest) == Some(DigitsValue(d))
  {
    var s := d + rest;
    assert s[0] == d[0];
    DigitStartsNumber(s);
    LeadingTokenStops(d, rest);
    assert ScanNumber(s) == Some(DigitsValue(d));
  }

  /** Text that starts with a digit is read as it stands: no space to skip
      and no sign. */
  lemma DigitStartsNumber(s: string)
    requires |s| > 0 && IsDigit(s[0])
    ensures ScanDecimal(s) == ScanNumber(s)
  {
    assert !IsScanSpace(s[0]) && s[0] != '\n';
    assert SkipSpace(s) == Some(s);
  }

  lemma {:induction false} LeadingTokenStops(d: string, rest: string)
    requires AllDigits(d)
    requires |rest| == 0 || !IsTokenChar(rest[0])
    ensures LeadingToken(d + rest) == d
    decreases |d|
  {
    if |d| > 0 {
      assert (d + rest)[0] == d[0];
      assert (d + rest)[1..] == d[1..] + rest;
      LeadingTokenStops(d[1..], rest);
      assert d == [d[0]] + d[1..];
    } else {
      assert d + rest == rest;
    }
  }

  /** Unlike `Atoi`, `%d` scanning accepts trailing text after the digits. */
  lemma ScanAcceptsTrailingText()
    ensures ScanDecimal("2024x") == Some(2024) && Atoi("2024x") == None
  {
    var d := "2024";
    assert AllDigits(d);
    assert d[..3] == "202" && "202"[..2] == "20" && "20"[..1] == "2";
    assert DigitsValue(d) == 2024;
    ScanDigitsThen(d, "x");
    assert d + "x" == "2024x";
    assert !IsDigit("2024x"[4]);
  }

  /** `strconv.ParseBool`. */
  function ParseBool(s: string): (r: Option<bool>)
    ensures r == Some(true) <==> s in {"1", "t", "T", "TRUE", "true", "True"}
    ensures r == Some(false) <==> s in {"0", "f", "F", "FALSE", "false", "False"}
  {
    if s in {"1", "t", "T", "TRUE", "true", "True"} then Some(true)
    else if s in {"0", "f", "F", "FALSE", "false", "False"} then Some(false)
    else None
  }
}
