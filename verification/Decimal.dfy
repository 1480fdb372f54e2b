/** Positive decimal numerals without leading zeros, as artifact names spell them. */
module Decimal {

  predicate IsDigit(c: char) {
    '0' <= c <= '9'
  }

  predicate IsPositive(s: string) {
    s != "" && s[0] != '0' && forall k :: 0 <= k < |s| ==> IsDigit(s[k])
  }

  function Digit(d: nat): char
    requires d < 10
  {
    '0' + d as char
  }

  function ToDecimal(n: nat): (s: string)
    requires n >= 1
    ensures s != ""
  {
    if n < 10 then [Digit(n)] else ToDecimal(n / 10) + [Digit(n % 10)]
  }

  function FromDecimal(s: string): nat
    requires forall k :: 0 <= k < |s| ==> IsDigit(s[k])
  {
    if s == "" then 0 else FromDecimal(s[..|s| - 1]) * 10 + DigitValue(s[|s| - 1])
  }

  function DigitValue(c: char): nat
    requires IsDigit(c)
  {
    c as int - '0' as int
  }

  lemma {:induction false} DecimalRoundTrip(n: nat)
    requires n >= 1
    ensures IsPositive(ToDecimal(n)) && FromDecimal(ToDecimal(n)) == n
  {
    if n >= 10 {
      DecimalRoundTrip(n / 10);
      assert ToDecimal(n)[..|ToDecimal(n)| - 1] == ToDecimal(n / 10);
    }
  }

  lemma NextDigit(front: nat, c: char)
    requires IsDigit(c)
    ensures (front * 10 + DigitValue(c)) / 10 == front && Digit((front * 10 + DigitValue(c)) % 10) == c
  {
  }

  /** Every such numeral is the one of its number. */
  lemma {:induction false} NumeralRoundTrip(s: string)
    requires IsPositive(s)
    ensures FromDecimal(s) >= 1 && ToDecimal(FromDecimal(s)) == s
  {
    var front, last := s[..|s| - 1], s[|s| - 1];
    assert s == front + [last];
    if front == "" {
      assert FromDecimal(front) == 0 && s == [Digit(DigitValue(last))];
    } else {
      NumeralRoundTrip(front);
      NextDigit(FromDecimal(front), last);
    }
  }
}
