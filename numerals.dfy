/** Decimal rendering of integers (`String(n)`, `n.toString()`) and the parse
    of route parameters by unary `+`. */
module Numerals {
  import opened Js

  predicate IsDigit(ch: char)
  {
    '0' <= ch <= '9'
  }

  predicate AllDigits(s: string)
  {
    forall k :: 0 <= k < |s| ==> IsDigit(s[k])
  }

  /** The character of a decimal digit. */
  function DigitChar(d: nat): (ch: char)
    requires d < 10
    ensures IsDigit(ch) && ch as int - '0' as int == d
  {
    ('0' as int + d) as char
  }

  /** `String(n)` for an integer n >= 0: its decimal digits, no leading zero. */
  function NatToString(n: nat): (s: string)
    ensures |s| >= 1 && AllDigits(s)
    ensures s[0] == '0' <==> n == 0
  {
    if n < 10 then [DigitChar(n)]
    else
      var front := NatToString(n / 10);
      assert (front + [DigitChar(n % 10)])[0] == front[0];
      front + [DigitChar(n % 10)]
  }

  /** `String(i)` for any integer: a minus sign before the digits of a negative one. */
  function IntToString(i: int): string
  {
    if i < 0 then "-" + NatToString(-i) else NatToString(i)
  }

  /** The value of a string of decimal digits; the empty string is 0. */
  function DigitsValue(s: string): nat
    requires AllDigits(s)
  {
    if s == [] then 0
    else DigitsValue(s[..|s| - 1]) * 10 + (s[|s| - 1] as int - '0' as int)
  }

  /** Reading back the digits of `n` gives `n`. */
  lemma {:induction false} NatToStringRoundTrip(n: nat)
    ensures DigitsValue(NatToString(n)) == n
  {
    if n >= 10 {
      var s := NatToString(n);
      assert s[..|s| - 1] == NatToString(n / 10);
      NatToStringRoundTrip(n / 10);
    }
  }

  /** A rendering starts with a minus sign exactly when the integer is negative. */
  lemma SignFirst(i: int)
    ensures |IntToString(i)| >= 1 && (IntToString(i)[0] == '-' <==> i < 0)
  {
    if i >= 0 {
      assert IsDigit(IntToString(i)[0]);
    }
  }

  /** Different integers render as different strings. */
  lemma IntToStringInjective(a: int, b: int)
    ensures IntToString(a) == IntToString(b) <==> a == b
  {
    var x, y := IntToString(a), IntToString(b);
    if x == y {
      SignFirst(a);
      SignFirst(b);
      if a < 0 {
        NegativeDigits(a);
        NegativeDigits(b);
        NatToStringRoundTrip(-a);
        NatToStringRoundTrip(-b);
      } else {
        assert x == NatToString(a) && y == NatToString(b);
        NatToStringRoundTrip(a);
        NatToStringRoundTrip(b);
      }
    }
  }

  lemma NegativeDigits(i: int)
    requires i < 0
    ensures IntToString(i)[1..] == NatToString(-i)
  {
  }

  /** Unary `+` on a route parameter: `undefined` is NaN, a string of decimal
      digits (the empty string included) is its value, anything else is NaN. */
  function ToNumber(param: Option<string>): Num
  {
    match param
    case None => NaN
    case Some(s) => if AllDigits(s) then Finite(DigitsValue(s)) else NaN
  }

  /** `+String(n)` is `n` for every integer n >= 0. */
  lemma ToNumberOfString(n: nat)
    ensures ToNumber(Some(NatToString(n))) == Finite(n)
  {
    NatToStringRoundTrip(n);
  }
}
