/** JavaScript numbers as the yearly aggregation uses them: `parseFloat`, which can
    give NaN, addition (NaN absorbs), and `x || 0`, which maps the falsy numbers
    (0 and NaN) and `undefined` to 0. Finite numbers are exact reals. */
module JsNumber {
  import opened Wrappers
  import opened Decimal
  import opened Text

  datatype JsNum = NaN | Num(value: real)

  function Add(a: JsNum, b: JsNum): (r: JsNum)
    ensures r.Num? <==> a.Num? && b.Num?
    ensures r.Num? ==> r.value == a.value + b.value
  {
    if a.Num? && b.Num? then Num(a.value + b.value) else NaN
  }

  /** `(record[key] || 0)`: undefined, 0 and NaN are falsy and give 0. */
  function OrZero(x: Option<JsNum>): (r: JsNum)
    ensures r.Num?
    ensures x.Some? && x.value.Num? ==> r == x.value
  {
    match x
    case Some(Num(v)) => Num(v)
    case _ => Num(0.0)
  }

  function Negate(x: JsNum): (r: JsNum)
    ensures r.Num? <==> x.Num?
    ensures r.Num? ==> r.value == -x.value
  {
    if x.Num? then Num(-x.value) else NaN
  }

  /** `parseFloat(s)`: leading white space is skipped, then the longest prefix of the
      form [+-] digits [. digits] is read (at least one digit, before or after the
      point); NaN when there is none. */
  function ParseFloat(s: string): JsNum
    decreases |s|
  {
    if s != [] && IsSpace(s[0]) then ParseFloat(s[1..]) else ParseSigned(s)
  }

  /** `parseFloat` reads what follows the leading white space as a signed number. */
  lemma {:induction false} ParseFloatSkipsWhiteSpace(s: string)
    ensures ParseFloat(s) == ParseSigned(TrimStart(s))
    decreases |s|
  {
    if s != [] && IsSpace(s[0]) {
      ParseFloatSkipsWhiteSpace(s[1..]);
    }
  }

  /** White space alone is not a number. */
  lemma {:induction false} ParseFloatOfSpace(s: string)
    requires AllSpace(s)
    ensures ParseFloat(s) == NaN
    decreases |s|
  {
    if s != [] {
      assert AllSpace(s[1..]);
      ParseFloatOfSpace(s[1..]);
    }
  }

  /** A string that starts with a digit always reads as a number, never negative, whatever
      follows the digit. */
  lemma ParseFloatOfLeadingDigit(s: string)
    requires s != [] && IsDigit(s[0])
    ensures ParseFloat(s).Num? && ParseFloat(s).value >= 0.0
  {
  }

  /** The optional sign, then the unsigned number. */
  function ParseSigned(s: string): JsNum {
    if s != [] && s[0] == '-' then Negate(ScanInteger(s[1..], 0, false))
    else if s != [] && s[0] == '+' then ScanInteger(s[1..], 0, false)
    else ScanInteger(s, 0, false)
  }

  /** Reads the digits before the point into `acc`; `seen` records that a digit was read. */
  function ScanInteger(s: string, acc: nat, seen: bool): (r: JsNum)
    ensures r.Num? ==> r.value >= 0.0
    ensures seen || (s != [] && IsDigit(s[0])) ==> r.Num?
    decreases |s|
  {
    if s != [] && IsDigit(s[0]) then ScanInteger(s[1..], acc * 10 + DigitValue(s[0]), true)
    else if s != [] && s[0] == '.' then ScanFraction(s[1..], acc as real, 0.1, seen)
    else if seen then Num(acc as real)
    else NaN
  }

  /** Reads the digits after the point, the next one being worth `scale`. */
  function ScanFraction(s: string, acc: real, scale: real, seen: bool): (r: JsNum)
    requires acc >= 0.0 && scale > 0.0
    ensures r.Num? ==> r.value >= acc
    ensures seen || (s != [] && IsDigit(s[0])) ==> r.Num?
    decreases |s|
  {
    if s != [] && IsDigit(s[0]) then ScanFraction(s[1..], acc + DigitValue(s[0]) as real * scale, scale / 10.0, true)
    else if seen then Num(acc)
    else NaN
  }

  /** A string of digits read after `acc` gives `acc` shifted by the digits plus their value. */
  lemma {:induction false} ScanIntegerOfDigits(s: string, acc: nat, seen: bool)
    requires AllDigits(s) && (seen || s != [])
    ensures ScanInteger(s, acc, seen) == Num((acc * Pow10(|s|) + DigitsValue(s)) as real)
    decreases |s|
  {
    if s != [] {
      var d, rest := DigitValue(s[0]), s[1..];
      var p := Pow10(|rest|);
      assert ScanInteger(s, acc, seen) == ScanInteger(rest, acc * 10 + d, true);
      ScanIntegerOfDigits(rest, acc * 10 + d, true);
      DigitsValueFront(s);
      assert Pow10(|s|) == 10 * p;
      Shift(acc, d, p, DigitsValue(rest));
    }
  }

  lemma Shift(acc: nat, d: nat, p: nat, r: nat)
    ensures (acc * 10 + d) * p + r == acc * (10 * p) + (d * p + r)
  {
  }

  /** A non-empty string of digits parses to its decimal value. */
  lemma ParseFloatOfDigits(s: string)
    requires s != [] && AllDigits(s)
    ensures ParseFloat(s) == Num(DigitsValue(s) as real)
  {
    assert !IsSpace(s[0]);
    ScanIntegerOfDigits(s, 0, false);
  }

  /** Reading back the string of a whole number gives the number. */
  lemma ParseFloatRoundTrip(n: nat)
    ensures ParseFloat(NatToString(n)) == Num(n as real)
  {
    ParseFloatOfDigits(NatToString(n));
  }

  /** A string read as a negative number starts with '-', unless it has leading white space. */
  lemma NegativeParseStartsWithMinus(s: string)
    requires s != [] && !IsSpace(s[0])
    requires ParseFloat(s).Num? && ParseFloat(s).value < 0.0
    ensures s[0] == '-'
  {
  }
}
