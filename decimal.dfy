/**
 * Decimal text of whole numbers, as JavaScript renders a non-negative
 * integral number in a template string, and the inverse reading of such text.
 */
module Decimal {
  predicate IsDigit(c: char)
  {
    '0' <= c <= '9'
  }

  predicate AllDigits(s: string)
  {
    forall i :: 0 <= i < |s| ==> IsDigit(s[i])
  }

  function DigitChar(d: nat): (c: char)
    requires d < 10
    ensures IsDigit(c) && c as int - '0' as int == d
  {
    ('0' as int + d) as char
  }

  function DigitValue(c: char): (d: nat)
    requires IsDigit(c)
    ensures d < 10 && DigitChar(d) == c
  {
    c as int - '0' as int
  }

  /** Decimal digits of `n`, most significant first, without leading zeros. */
  function NatToString(n: nat): string
    decreases n
  {
    if n < 10 then [DigitChar(n)] else NatToString(n / 10) + [DigitChar(n % 10)]
  }

  /** The text is a non-empty run of digits with no leading zero, a single digit exactly below ten. */
  lemma {:induction false} NatToStringDigits(n: nat)
    ensures var s := NatToString(n);
            && |s| >= 1 && AllDigits(s)
            && (s[0] == '0' ==> n == 0)
            && (|s| == 1 <==> n < 10)
    decreases n
  {
    if n >= 10 {
      NatToStringDigits(n / 10);
    }
  }

  /** The number a non-empty run of decimal digits denotes. */
  function ParseNat(s: string): (n: nat)
    requires |s| >= 1 && AllDigits(s)
    decreases |s|
  {
    if |s| == 1 then DigitValue(s[0])
    else 10 * ParseNat(s[..|s| - 1]) + DigitValue(s[|s| - 1])
  }

  /** Reading the digits back gives the number. */
  lemma {:induction false} ParseNatToString(n: nat)
    ensures var s := NatToString(n); |s| >= 1 && AllDigits(s) && ParseNat(s) == n
    decreases n
  {
    NatToStringDigits(n);
    if n >= 10 {
      var s := NatToString(n);
      NatToStringDigits(n / 10);
      assert s[..|s| - 1] == NatToString(n / 10);
      ParseNatToString(n / 10);
    }
  }
}
