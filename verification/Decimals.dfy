/** Decimal numerals, `String(n)` and `Number(s)` on strings of digits. */
module Decimals {
  predicate IsDigit(c: char) {
    '0' <= c <= '9'
  }

  predicate AllDigits(s: string) {
    forall i | 0 <= i < |s| :: IsDigit(s[i])
  }

  function Digit(k: nat): (c: char)
    requires k < 10
    ensures IsDigit(c)
  {
    '0' + k as char
  }

  function DigitValue(c: char): (k: nat)
    requires IsDigit(c)
    ensures k < 10 && Digit(k) == c
  {
    (c - '0') as nat
  }

  /** The shortest numeral for `n`. */
  function Digits(n: nat): (s: string)
    ensures AllDigits(s) && |s| >= 1 && (n > 0 ==> s[0] != '0') && (n < 10 ==> |s| == 1)
  {
    if n < 10 then [Digit(n)] else Digits(n / 10) + [Digit(n % 10)]
  }

  /** The number a string of digits stands for; the empty string counts as 0, as in ECMAScript. */
  function Value(s: string): nat
    requires AllDigits(s)
  {
    if s == "" then 0 else Value(s[..|s|-1]) * 10 + DigitValue(s[|s|-1])
  }

  lemma ValueSnoc(s: string, k: nat)
    requires AllDigits(s) && k < 10
    ensures Value(s + [Digit(k)]) == Value(s) * 10 + k
  {
    assert (s + [Digit(k)])[..|s|] == s;
  }

  lemma {:induction false} ValueOfDigits(n: nat)
    ensures Value(Digits(n)) == n
  {
    if n < 10 {
      ValueSnoc("", n);
      assert "" + [Digit(n)] == [Digit(n)];
    } else {
      ValueOfDigits(n / 10);
      ValueSnoc(Digits(n / 10), n % 10);
    }
  }

  lemma {:induction false} ValueIsPositive(s: string)
    requires AllDigits(s) && s != "" && s[0] != '0'
    ensures Value(s) > 0
  {
    if |s| > 1 {
      ValueIsPositive(s[..|s|-1]);
    }
  }

  /** Without leading zeros, a numeral is the one `String` gives. */
  lemma {:induction false} DigitsOfValue(s: string)
    requires AllDigits(s) && s != "" && (s[0] != '0' || |s| == 1)
    ensures Digits(Value(s)) == s
  {
    if |s| > 1 {
      var front := s[..|s|-1];
      ValueIsPositive(front);
      DigitsOfValue(front);
      assert s == front + [s[|s|-1]];
    }
  }
}
