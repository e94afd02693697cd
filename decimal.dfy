/** `std::to_string` of an integer: an optional minus sign followed by the
    decimal digits of the magnitude, without leading zeros. */
module Decimal {

  predicate IsDigit(c: char)
  {
    '0' as int <= c as int <= '9' as int
  }

  function DigitChar(d: nat): (c: char)
    requires d < 10
    ensures IsDigit(c) && (c as int) - ('0' as int) == d
  {
    ('0' as int + d) as char
  }

  /** The decimal digits of `n`, most significant first. */
  function NatText(n: nat): (s: string)
    ensures |s| >= 1
    ensures forall i | 0 <= i < |s| :: IsDigit(s[i])
    ensures |s| > 1 ==> s[0] != '0'
    ensures n > 0 ==> s[0] != '0'
    decreases n
  {
    if n < 10 then [DigitChar(n)] else NatText(n / 10) + [DigitChar(n % 10)]
  }

  /** `std::to_string(i)` for a signed integer. */
  function IntegerText(i: int): (s: string)
    ensures |s| >= 1
    ensures s[0] == '-' <==> i < 0
    ensures i >= 0 ==> (|s| > 1 ==> s[0] != '0')
    ensures i < 0 ==> |s| >= 2 && s[1] != '0'
  {
    if i < 0 then "-" + NatText(-i) else NatText(i)
  }

  /** The number a string of decimal digits denotes. */
  function DigitsValue(s: string): nat
    requires forall i | 0 <= i < |s| :: IsDigit(s[i])
  {
    if s == [] then 0
    else
      var c := s[|s| - 1];
      assert IsDigit(c);
      DigitsValue(s[..|s| - 1]) * 10 + ((c as int) - ('0' as int))
  }

  /** Reads back what IntegerText writes: an optional minus sign, then digits. */
  function ParseInteger(s: string): int
    requires |s| >= 1
    requires forall i | 1 <= i < |s| :: IsDigit(s[i])
    requires s[0] == '-' || IsDigit(s[0])
  {
    if s[0] == '-' then 0 - DigitsValue(s[1..]) as int else DigitsValue(s)
  }

  lemma {:induction false} NatTextRoundTrip(n: nat)
    ensures DigitsValue(NatText(n)) == n
    decreases n
  {
    if n >= 10 {
      NatTextRoundTrip(n / 10);
      var s := NatText(n);
      assert s[..|s| - 1] == NatText(n / 10);
    }
  }

  /** The decimal text of an integer determines the integer. */
  lemma IntegerTextRoundTrip(i: int)
    ensures var s := IntegerText(i);
      (forall k | 1 <= k < |s| :: IsDigit(s[k])) && (s[0] == '-' || IsDigit(s[0])) &&
      ParseInteger(s) == i
  {
    if i < 0 {
      NatTextRoundTrip(-i);
      assert IntegerText(i)[1..] == NatText(-i);
    } else {
      NatTextRoundTrip(i);
    }
  }
}
