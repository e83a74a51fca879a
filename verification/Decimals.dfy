/** Decimal numerals, as %d and strconv print them. */
module Decimals {
  function Digit(d: nat): (c: char)
    requires d < 10
  {
    '0' + d as char
  }

  predicate IsDigit(c: char) {
    '0' <= c <= '9'
  }

  predicate AllDigits(s: string) {
    forall i :: 0 <= i < |s| ==> IsDigit(s[i])
  }

  /** %d of a natural number. */
  function Decimal(n: nat): (s: string)
    ensures |s| > 0 && AllDigits(s)
  {
    if n < 10 then [Digit(n)] else Decimal(n / 10) + [Digit(n % 10)]
  }

  function DigitsValue(s: string): (v: nat)
    requires AllDigits(s)
  {
    if s == "" then 0 else DigitsValue(s[..|s| - 1]) * 10 + (s[|s| - 1] as int - '0' as int)
  }

  lemma DigitsSnoc(s: string, d: nat)
    requires AllDigits(s) && d < 10
    ensures AllDigits(s + [Digit(d)]) && DigitsValue(s + [Digit(d)]) == DigitsValue(s) * 10 + d
  {
    assert (s + [Digit(d)])[..|s|] == s;
  }

  lemma {:induction false} DecimalValue(n: nat)
    ensures DigitsValue(Decimal(n)) == n
  {
    if n < 10 {
      DigitsSnoc("", n);
      assert "" + [Digit(n)] == Decimal(n);
    } else {
      DecimalValue(n / 10);
      DigitsSnoc(Decimal(n / 10), n % 10);
    }
  }
}
