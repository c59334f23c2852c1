/** Decimal digit strings: their value, their canonical rendering, and the
    part of JavaScript's `parseInt` that reads a leading run of digits. */
module Decimal {

  predicate IsDigit(ch: char)
  {
    '0' <= ch <= '9'
  }

  predicate AllDigits(s: string)
  {
    forall i :: 0 <= i < |s| ==> IsDigit(s[i])
  }

  /** A digit string contains no character other than digits. */
  lemma DigitsExclude(s: string, c: char)
    requires AllDigits(s) && !IsDigit(c)
    ensures c !in s
  {
    forall i | 0 <= i < |s| ensures s[i] != c {
      assert IsDigit(s[i]);
    }
  }

  function DigitValue(ch: char): (d: nat)
    requires IsDigit(ch)
    ensures d < 10
  {
    ch as int - '0' as int
  }

  function DigitChar(d: nat): (ch: char)
    requires d < 10
    ensures IsDigit(ch) && DigitValue(ch) == d
  {
    ('0' as int + d) as char
  }

  /** The value of a digit string read in base 10, most significant digit first. */
  function DigitsToNat(s: string): nat
    requires AllDigits(s)
  {
    if |s| == 0 then 0
    else 10 * DigitsToNat(s[..|s| - 1]) + DigitValue(s[|s| - 1])
  }

  /** A non-empty digit string without superfluous leading zeros. */
  predicate Canonical(s: string)
  {
    && |s| > 0
    && AllDigits(s)
    && (s[0] == '0' ==> |s| == 1)
  }

  /** The canonical decimal digits of `n` (exact, for every size of `n`). */
  function NatToDigits(n: nat): (s: string)
    ensures Canonical(s)
    decreases n
  {
    if n < 10 then [DigitChar(n)]
    else NatToDigits(n / 10) + [DigitChar(n % 10)]
  }

  /** Reading back a rendered number gives the number. */
  lemma {:induction false} NatToDigitsRoundTrip(n: nat)
    ensures DigitsToNat(NatToDigits(n)) == n
    decreases n
  {
    if n >= 10 {
      var s := NatToDigits(n);
      assert s[..|s| - 1] == NatToDigits(n / 10);
      NatToDigitsRoundTrip(n / 10);
    }
  }

  /** A digit string that does not start with `0` denotes a positive number. */
  lemma {:induction false} LeadingNonZeroPositive(s: string)
    requires |s| > 0 && AllDigits(s) && s[0] != '0'
    ensures DigitsToNat(s) > 0
    decreases |s|
  {
    if |s| > 1 {
      LeadingNonZeroPositive(s[..|s| - 1]);
    }
  }

  /** Rendering the value of a canonical digit string gives the string back. */
  lemma {:induction false} DigitsToNatRoundTrip(s: string)
    requires Canonical(s)
    ensures NatToDigits(DigitsToNat(s)) == s
    decreases |s|
  {
    if |s| > 1 {
      var init := s[..|s| - 1];
      LeadingNonZeroPositive(init);
      DigitsToNatRoundTrip(init);
      var n := DigitsToNat(s);
      assert n / 10 == DigitsToNat(init) && n % 10 == DigitValue(s[|s| - 1]);
      assert s == init + [s[|s| - 1]];
    }
  }

  /** The longest prefix of `s` made of digits. */
  function LeadingDigits(s: string): (r: string)
    ensures r <= s && AllDigits(r)
    ensures |r| < |s| ==> !IsDigit(s[|r|])
  {
    if |s| == 0 || !IsDigit(s[0]) then []
    else [s[0]] + LeadingDigits(s[1..])
  }

  /** The result of `parseInt` on a digit run, kept as an exact natural
      number rather than a double. */
  datatype Number = NaN | Num(value: nat)

  /** `parseInt(s)` in base 10: the value of the leading digit run, NaN when
      `s` does not start with a digit. */
  function ParseInt(s: string): (r: Number)
    ensures r.NaN? <==> |s| == 0 || !IsDigit(s[0])
    ensures AllDigits(s) && |s| > 0 ==> r == Num(DigitsToNat(s))
  {
    var d := LeadingDigits(s);
    if |d| == 0 then NaN
    else
      assert AllDigits(s) ==> d == s;
      Num(DigitsToNat(d))
  }

  /** `parseInt` stops at the first non-digit and ignores everything after it. */
  lemma ParseIntStopsAtNonDigit(d: string, rest: string)
    requires |d| > 0 && AllDigits(d)
    requires |rest| == 0 || !IsDigit(rest[0])
    ensures ParseInt(d + rest) == Num(DigitsToNat(d))
  {
    LeadingDigitsOfSplit(d, rest);
  }

  lemma {:induction false} LeadingDigitsOfSplit(d: string, rest: string)
    requires AllDigits(d)
    requires |rest| == 0 || !IsDigit(rest[0])
    ensures LeadingDigits(d + rest) == d
    decreases |d|
  {
    if |d| > 0 {
      assert (d + rest)[1..] == d[1..] + rest;
      LeadingDigitsOfSplit(d[1..], rest);
      assert d == [d[0]] + d[1..];
    } else {
      assert d + rest == rest;
    }
  }

  /** The model's parse inverts the model's rendering for every natural number. */
  lemma ParseIntRoundTrip(n: nat)
    ensures ParseInt(NatToDigits(n)) == Num(n)
  {
    NatToDigitsRoundTrip(n);
  }
}
