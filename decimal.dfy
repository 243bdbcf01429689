/** Decimal text of integers, as Rust's `{:?}` formatting writes an integer:
    an optional minus sign followed by the digits, with no leading zeros. */
module Decimal {

  function DigitChar(d: nat): (c: char)
    requires d < 10
    ensures '0' <= c <= '9'
    ensures c == '0' <==> d == 0
    ensures DigitValue(c) == d
  {
    "0123456789"[d]
  }

  function DigitValue(c: char): nat
  {
    if '0' <= c <= '9' then (c as int - '0' as int) else 0
  }

  predicate IsDigits(s: string)
  {
    |s| > 0 && forall i :: 0 <= i < |s| ==> '0' <= s[i] <= '9'
  }

  /** Digits with no leading zero, except the single digit `0` itself. */
  predicate IsCanonicalDigits(s: string)
  {
    IsDigits(s) && (|s| > 1 ==> s[0] != '0')
  }

  /** The form Rust writes an integer in: canonical digits, preceded by `-` only when the
      digits are not `0`. */
  predicate IsIntText(s: string)
  {
    IsCanonicalDigits(s) || (|s| > 1 && s[0] == '-' && IsCanonicalDigits(s[1..]) && s[1..] != "0")
  }

  /** The digits of a natural number, most significant first. */
  function NatText(n: nat): (s: string)
    ensures IsCanonicalDigits(s)
    ensures s == "0" <==> n == 0
    ensures n < 10 ==> |s| == 1
    ensures n >= 10 ==> s[0] != '0'
  {
    if n < 10 then [DigitChar(n)] else NatText(n / 10) + [DigitChar(n % 10)]
  }

  /** Decimal text of any integer: a minus sign only for negative values. */
  function IntText(i: int): (s: string)
    ensures IsIntText(s)
    ensures i < 0 <==> s[0] == '-'
  {
    if i < 0 then "-" + NatText(-i) else NatText(i)
  }

  /** The value of a digit string, read most significant first. */
  function DigitsValue(s: string): nat
  {
    if s == [] then 0 else DigitsValue(s[..|s| - 1]) * 10 + DigitValue(s[|s| - 1])
  }

  /** Reading decimal text back: the inverse of IntText. */
  function ParseInt(s: string): int
  {
    if |s| > 0 && s[0] == '-' then 0 - DigitsValue(s[1..]) as int else DigitsValue(s) as int
  }

  lemma {:induction false} NatTextRoundTrip(n: nat)
    ensures DigitsValue(NatText(n)) == n
  {
    if n >= 10 {
      var s, t := NatText(n), NatText(n / 10);
      var c := DigitChar(n % 10);
      assert s == t + [c];
      assert s[..|s| - 1] == t && s[|s| - 1] == c;
      NatTextRoundTrip(n / 10);
      assert DigitsValue(s) == DigitsValue(t) * 10 + DigitValue(c);
    }
  }

  /** IntText loses nothing: the integer is recovered from its text. */
  lemma IntTextRoundTrip(i: int)
    ensures ParseInt(IntText(i)) == i
  {
    if i < 0 {
      assert IntText(i) == "-" + NatText(-i);
      NegatedTextRoundTrip(-i);
    } else {
      assert IntText(i) == NatText(i);
      PlainTextRoundTrip(i);
    }
  }

  lemma NegatedTextRoundTrip(n: nat)
    ensures ParseInt("-" + NatText(n)) == -(n as int)
  {
    NatTextRoundTrip(n);
    ParseSigned(NatText(n));
  }

  lemma PlainTextRoundTrip(n: nat)
    ensures ParseInt(NatText(n)) == n
  {
    NatTextRoundTrip(n);
    ParseUnsigned(NatText(n));
  }

  /** A minus sign followed by digits reads as the negated digit value. */
  lemma ParseSigned(t: string)
    ensures ParseInt("-" + t) == 0 - DigitsValue(t) as int
  {
    assert ("-" + t)[1..] == t;
  }

  /** Text that does not start with a minus sign reads as plain digits. */
  lemma ParseUnsigned(t: string)
    requires IsDigits(t) && |t| > 0
    ensures ParseInt(t) == DigitsValue(t) as int
  {
    assert '0' <= t[0] <= '9';
  }

  /** The text of ten: the first value written with two digits. */
  lemma TenText()
    ensures NatText(10) == "10" && IntText(10) == "10"
  {
    assert NatText(1) == "1";
  }

  /** Distinct integers have distinct texts. */
  lemma IntTextInjective(i: int, j: int)
    requires IntText(i) == IntText(j)
    ensures i == j
  {
    IntTextRoundTrip(i);
    IntTextRoundTrip(j);
  }
}
