/** Decimal digit strings: the value `parseInt(s, 10)` gives a string of digits,
    and the string `String(n)` / template literals give a number. */
module Decimal {

  predicate IsDigit(c: char) {
    '0' <= c <= '9'
  }

  predicate AllDigits(s: string) {
    forall i :: 0 <= i < |s| ==> IsDigit(s[i])
  }

  function DigitValue(c: char): (v: nat)
    requires IsDigit(c)
    ensures v < 10
  {
    (c as int - '0' as int) as nat
  }

  function DigitChar(d: nat): (c: char)
    requires d < 10
    ensures IsDigit(c) && DigitValue(c) == d
  {
    ('0' as int + d) as char
  }

  /** The value of a string of decimal digits, most significant first. */
  function DigitsValue(s: string): nat
    requires AllDigits(s)
  {
    if s == [] then 0 else DigitsValue(s[..|s| - 1]) * 10 + DigitValue(s[|s| - 1])
  }

  function Pow10(n: nat): (p: nat)
    ensures p >= 1
  {
    if n == 0 then 1 else 10 * Pow10(n - 1)
  }

  /** Number-to-string conversion of a non-negative integer (no padding, no sign);
      reading the digits back gives the number. */
  function NatToString(n: nat): (s: string)
    ensures |s| >= 1 && AllDigits(s)
    ensures DigitsValue(s) == n
    ensures s[0] == '0' ==> n == 0
  {
    if n < 10 then [DigitChar(n)]
    else
      var prefix := NatToString(n / 10);
      var s := prefix + [DigitChar(n % 10)];
      assert s[..|s| - 1] == prefix;
      s
  }

  /** Number-to-string conversion of an integer: a leading '-' for negatives. */
  function IntToString(n: int): (s: string)
    ensures |s| >= 1
    ensures n >= 0 <==> s[0] != '-'
    ensures var k := if n < 0 then 1 else 0;
              k < |s| && AllDigits(s[k..]) && DigitsValue(s[k..]) == (if n < 0 then -n else n)
              && (s[k] == '0' ==> n == 0)
  {
    if n >= 0 then NatToString(n) else "-" + NatToString(-n)
  }

  /** Different integers give different strings, so a year's string key names that year only. */
  lemma IntToStringInjective(m: int, n: int)
    requires IntToString(m) == IntToString(n)
    ensures m == n
  {
    if m >= 0 && n >= 0 {
      assert DigitsValue(NatToString(m)) == m;
    } else if m < 0 && n < 0 {
      var sm, sn := NatToString(-m), NatToString(-n);
      assert ("-" + sm)[1..] == sm;
      assert ("-" + sn)[1..] == sn;
      assert sm == sn;
    }
  }

  /** The value of a digit string read from the front: the first digit is worth
      `10^(|s| - 1)`. */
  lemma {:induction false} DigitsValueFront(s: string)
    requires s != [] && AllDigits(s)
    ensures DigitsValue(s) == DigitValue(s[0]) * Pow10(|s| - 1) + DigitsValue(s[1..])
  {
    if |s| > 1 {
      var init := s[..|s| - 1];
      DigitsValueFront(init);
      assert init[1..] == s[1..][..|s| - 2];
      assert init[0] == s[0];
      var d, p := DigitValue(s[0]), Pow10(|s| - 2);
      assert d * (10 * p) == (d * p) * 10;
    } else {
      assert s[1..] == [];
      assert s[..0] == [];
    }
  }
}
