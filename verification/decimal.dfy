/**
  Decimal text of 64-bit signed integers: the `%d` verb the client uses to
  render the nonce, and a parser in the style of `strconv.ParseInt(s, 10, 64)`
  that a receiver would use to read it back.
*/
module Decimal {
  import opened Wrappers

  const MinInt64: int := -0x8000_0000_0000_0000
  const MaxInt64: int := 0x7FFF_FFFF_FFFF_FFFF

  /** The range of Go's `int64`, the type of `time.Now().UnixNano()`. */
  type Int64 = n: int | MinInt64 <= n <= MaxInt64

  predicate IsDigit(c: char) {
    '0' <= c <= '9'
  }

  predicate AllDigits(s: string) {
    forall i :: 0 <= i < |s| ==> IsDigit(s[i])
  }

  /** A non-empty run of digits with no superfluous leading zero. */
  predicate Canonical(d: string) {
    |d| >= 1 && AllDigits(d) && (d[0] == '0' ==> |d| == 1)
  }

  /** The text `%d` produces: an optional minus sign, then canonical digits, and never "-0". */
  predicate CanonicalSigned(s: string) {
    || Canonical(s)
    || (|s| >= 2 && s[0] == '-' && Canonical(s[1..]) && s[1] != '0')
  }

  function DigitChar(d: nat): (c: char)
    requires d < 10
    ensures IsDigit(c)
  {
    ('0' as int + d) as char
  }

  function DigitValue(c: char): (d: nat)
    requires IsDigit(c)
    ensures d < 10
    ensures DigitChar(d) == c
  {
    c as int - '0' as int
  }

  /** Digits of `n`, most significant first. */
  function Digits(n: nat): (s: string)
    ensures Canonical(s)
    ensures n < 10 <==> |s| == 1
    decreases n
  {
    if n < 10 then [DigitChar(n)] else Digits(n / 10) + [DigitChar(n % 10)]
  }

  /** The number a run of digits denotes. */
  function Value(s: string): nat
    requires AllDigits(s)
    decreases |s|
  {
    if s == [] then 0 else 10 * Value(s[..|s| - 1]) + DigitValue(s[|s| - 1])
  }

  /** `fmt.Sprintf("%d", n)`. */
  function Format(n: int): (s: string)
    ensures CanonicalSigned(s)
    ensures s[0] == '-' <==> n < 0
  {
    if n < 0 then "-" + Digits(-n) else Digits(n)
  }

  /**
    `strconv.ParseInt(s, 10, 64)`: an optional sign, one or more decimal
    digits and nothing else, and the value must fit in an `int64`.
  */
  function Parse(s: string): (r: Option<Int64>)
    ensures r.Some? ==> |s| >= 1
    ensures r.Some? && r.value < 0 ==> s[0] == '-'
  {
    if |s| == 0 then None
    else
      var signed := s[0] == '-' || s[0] == '+';
      var digits := if signed then s[1..] else s;
      if |digits| == 0 || !AllDigits(digits) then None
      else
        var v: int := if s[0] == '-' then -(Value(digits) as int) else Value(digits);
        if MinInt64 <= v <= MaxInt64 then Some(v) else None
  }

  lemma {:induction false} ValueOfDigits(n: nat)
    ensures Value(Digits(n)) == n
    decreases n
  {
    if n >= 10 {
      var s := Digits(n);
      ValueOfDigits(n / 10);
      assert s[..|s| - 1] == Digits(n / 10);
    }
  }

  lemma {:induction false} ValueOfLeadingNonZero(d: string)
    requires |d| >= 1 && AllDigits(d) && d[0] != '0'
    ensures Value(d) >= 1
    decreases |d|
  {
    if |d| > 1 {
      ValueOfLeadingNonZero(d[..|d| - 1]);
    }
  }

  lemma {:induction false} DigitsOfValue(d: string)
    requires Canonical(d)
    ensures Digits(Value(d)) == d
    decreases |d|
  {
    if |d| > 1 {
      var init := d[..|d| - 1];
      ValueOfLeadingNonZero(init);
      DigitsOfValue(init);
      assert d == init + [d[|d| - 1]];
    }
  }

  /** Reading back what `%d` printed yields the same number. */
  lemma ParseFormat(n: Int64)
    ensures Parse(Format(n)) == Some(n)
  {
    var s := Format(n);
    if n < 0 {
      var d := Digits(-(n as int));
      assert s == "-" + d;
      assert s[1..] == d;
      ValueOfDigits(-(n as int));
      assert Value(s[1..]) == -(n as int);
    } else {
      var d := Digits(n);
      assert s == d;
      assert s[0] != '-' && s[0] != '+' by { assert IsDigit(s[0]); }
      ValueOfDigits(n);
    }
  }

  /** Every canonical rendering of an `int64` is the `%d` text of the number it parses to. */
  lemma FormatParse(s: string)
    requires CanonicalSigned(s) && Parse(s).Some?
    ensures Format(Parse(s).value) == s
  {
    if s[0] == '-' {
      DigitsOfValue(s[1..]);
      ValueOfLeadingNonZero(s[1..]);
      assert s == "-" + s[1..];
    } else {
      DigitsOfValue(s);
    }
  }

  /** Distinct nonces are rendered as distinct texts. */
  lemma FormatInjective(m: Int64, n: Int64)
    requires Format(m) == Format(n)
    ensures m == n
  {
    ParseFormat(m);
    ParseFormat(n);
  }

  /** Length of the longest prefix of `s` made of digits. */
  function DigitRun(s: string): (k: nat)
    ensures k <= |s|
    ensures AllDigits(s[..k])
    ensures k < |s| ==> !IsDigit(s[k])
    decreases |s|
  {
    if s == [] || !IsDigit(s[0]) then 0 else 1 + DigitRun(s[1..])
  }

  /** A digit run followed by a non-digit (or by nothing) is recognised exactly. */
  lemma {:induction false} DigitRunOfDigitsThen(d: string, rest: string)
    requires AllDigits(d)
    requires rest == [] || !IsDigit(rest[0])
    ensures DigitRun(d + rest) == |d|
    decreases |d|
  {
    if d != [] {
      assert (d + rest)[1..] == d[1..] + rest;
      DigitRunOfDigitsThen(d[1..], rest);
    } else {
      assert d + rest == rest;
    }
  }
}
