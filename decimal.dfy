/**
  Decimal rendering of unsigned integers, as Rust's `{}` formats a `u32`: the digits
  of the number, most significant first, with no sign and no leading zero.
*/
module Decimal {

  predicate IsDigit(c: char) {
    '0' <= c <= '9'
  }

  function DigitChar(d: nat): (c: char)
    requires d < 10
    ensures IsDigit(c)
  {
    "0123456789"[d]
  }

  function DigitValue(c: char): (d: nat)
    requires IsDigit(c)
    ensures d < 10
  {
    (c as int - '0' as int) as nat
  }

  lemma DigitRoundTrip(d: nat)
    requires d < 10
    ensures DigitValue(DigitChar(d)) == d
  {
  }

  /** `format!("{}", n)`. */
  function NatToString(n: nat): string
    decreases n
  {
    if n < 10 then [DigitChar(n)] else NatToString(n / 10) + [DigitChar(n % 10)]
  }

  /** The number a digit string denotes. */
  function ParseDigits(s: string): nat
    requires forall k :: 0 <= k < |s| ==> IsDigit(s[k])
  {
    if s == [] then 0 else ParseDigits(s[..|s| - 1]) * 10 + DigitValue(s[|s| - 1])
  }

  /** The rendering is a non-empty digit string with no leading zero, and it denotes `n`. */
  lemma {:induction false} NatToStringSpec(n: nat)
    ensures var s := NatToString(n);
      && |s| >= 1
      && (forall k :: 0 <= k < |s| ==> IsDigit(s[k]))
      && (s[0] == '0' ==> n == 0)
      && ParseDigits(s) == n
    decreases n
  {
    var s := NatToString(n);
    if n < 10 {
      DigitRoundTrip(n);
    } else {
      var t := NatToString(n / 10);
      NatToStringSpec(n / 10);
      DigitRoundTrip(n % 10);
      assert s == t + [DigitChar(n % 10)];
      assert s[..|s| - 1] == t;
      assert s[0] == t[0];
    }
  }

  /** Different numbers render differently. */
  lemma NatToStringInjective(a: nat, b: nat)
    ensures NatToString(a) == NatToString(b) ==> a == b
  {
    NatToStringSpec(a);
    NatToStringSpec(b);
  }
}
