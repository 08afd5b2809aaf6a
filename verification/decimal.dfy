/**
 * Numbers as the services see them: integers written in decimal, and JavaScript's
 * `String(n)`, `parseInt` and `parseFloat` restricted to integers.
 */
module Decimal {

  /** A JavaScript number as far as this model needs it: an integer, or NaN. */
  datatype Num = Finite(v: int) | NaN {

    /** `this - k`; NaN stays NaN. */
    function Minus(k: int): Num {
      match this
      case Finite(x) => Finite(x - k)
      case NaN => NaN
    }

    /** `this * other`; NaN on either side gives NaN. */
    function Times(other: Num): Num {
      if Finite? && other.Finite? then Finite(v * other.v) else NaN
    }
  }

  predicate IsDigit(c: char) {
    '0' <= c <= '9'
  }

  predicate AllDigits(s: string) {
    forall i :: 0 <= i < |s| ==> IsDigit(s[i])
  }

  function DigitChar(d: nat): (c: char)
    requires d < 10
    ensures IsDigit(c)
  {
    ('0' as int + d) as char
  }

  function DigitValue(c: char): (d: nat)
    requires IsDigit(c)
    ensures d < 10
  {
    c as int - '0' as int
  }

  /** The decimal digits of `n`, most significant first, with no leading zero. */
  function NatDigits(n: nat): (s: string)
    ensures 0 < |s| && AllDigits(s)
  {
    if n < 10 then [DigitChar(n)] else NatDigits(n / 10) + [DigitChar(n % 10)]
  }

  /** `String(n)` for an integer `n`: a minus sign for negatives, then the digits. */
  function ToDecimal(n: int): (s: string)
    ensures 0 < |s|
    ensures n >= 0 <==> IsDigit(s[0])
  {
    if n < 0 then "-" + NatDigits(-n) else NatDigits(n)
  }

  /** The value of a string of decimal digits (0 for the empty string). */
  function DigitsValue(s: string): nat
    requires AllDigits(s)
  {
    if s == [] then 0 else DigitsValue(s[..|s| - 1]) * 10 + DigitValue(s[|s| - 1])
  }

  /** Length of the longest prefix of `s` that is made of decimal digits. */
  function DigitRun(s: string): (k: nat)
    ensures k <= |s|
    ensures AllDigits(s[..k])
    ensures k == |s| || !IsDigit(s[k])
  {
    if s == [] || !IsDigit(s[0]) then 0
    else
      var k' := DigitRun(s[1..]);
      assert s[..1 + k'] == [s[0]] + s[1..][..k'];
      1 + k'
  }

  /** The text after an optional leading sign. */
  function Unsigned(s: string): string {
    if 0 < |s| && (s[0] == '-' || s[0] == '+') then s[1..] else s
  }

  /**
   * `parseInt(s)` / `parseFloat(s)` on integers: an optional sign, then the longest run
   * of digits; NaN when no digit follows the sign.
   */
  function ParseNumber(s: string): (r: Num)
    ensures r.NaN? <==> DigitRun(Unsigned(s)) == 0
    ensures r.Finite? && 0 < |s| && s[0] == '-' ==> r.v <= 0
    ensures r.Finite? && !(0 < |s| && s[0] == '-') ==> r.v >= 0
  {
    var body := Unsigned(s);
    var k := DigitRun(body);
    if k == 0 then NaN
    else if 0 < |s| && s[0] == '-' then Finite(-(DigitsValue(body[..k]) as int))
    else Finite(DigitsValue(body[..k]))
  }

  lemma {:induction false} NatDigitsValue(n: nat)
    ensures DigitsValue(NatDigits(n)) == n
  {
    if n >= 10 {
      var s := NatDigits(n / 10) + [DigitChar(n % 10)];
      assert s[..|s| - 1] == NatDigits(n / 10);
      NatDigitsValue(n / 10);
    }
  }

  /** Reading back what `String(n)` wrote gives `n`: the decimal round trip. */
  lemma ParseToDecimal(n: int)
    ensures ParseNumber(ToDecimal(n)) == Finite(n)
  {
    var d := NatDigits(if n < 0 then -n else n);
    NatDigitsValue(if n < 0 then -n else n);
    assert DigitRun(d) == |d|;
    assert d[..|d|] == d;
    if n < 0 {
      assert ("-" + d)[1..] == d;
    }
  }

  /** Distinct integers have distinct decimal texts. */
  lemma ToDecimalInjective(a: int, b: int)
    ensures ToDecimal(a) == ToDecimal(b) ==> a == b
  {
    ParseToDecimal(a);
    ParseToDecimal(b);
  }
}

/** JavaScript values as they reach the request-building code of the browser client. */
module JsValue {
  import opened Decimal

  datatype JsVal = Undefined | Null | Str(s: string) | Number(n: int)

  /** JavaScript truthiness: `undefined`, `null`, `""` and `0` are falsy. */
  predicate Truthy(v: JsVal) {
    match v
    case Undefined => false
    case Null => false
    case Str(s) => s != ""
    case Number(n) => n != 0
  }

  /** `String(v)`, the text that `URLSearchParams.append` stores for `v`. */
  function Text(v: JsVal): (t: string)
    ensures Truthy(v) ==> t != ""
    ensures v.Number? ==> ParseNumber(t) == Finite(v.n)
  {
    match v
    case Undefined => "undefined"
    case Null => "null"
    case Str(s) => s
    case Number(n) => ParseToDecimal(n); ToDecimal(n)
  }
}
