/** JavaScript values the controller handles: optional values (null/undefined),
    numbers read back from the page (NaN or some opaque value), truthiness,
    and the decimal text `${value}` of an integer. */
module JsValues {

  /** `null` / `undefined` versus a present value. */
  datatype Option<+T> = None | Some(value: T)

  function ToSet<T>(o: Option<T>): (s: set<T>)
    ensures o.None? <==> s == {}
    ensures o.Some? ==> s == {o.value}
  {
    if o.Some? then {o.value} else {}
  }

  /** A number as `parseFloat` yields it. Coordinates are opaque: the model never
      computes with them, it only asks whether they are NaN. */
  datatype Num = NaN | Finite(value: real)

  /** JavaScript truthiness of an optional string: `undefined`, `null` and `""` are falsy. */
  predicate Truthy(s: Option<string>): (b: bool)
    ensures b <==> s != None && s != Some("")
  {
    s.Some? && s.value != ""
  }

  /** JavaScript truthiness of an optional integer: `null` and `0` are falsy. */
  predicate TruthyInt(n: Option<int>): (b: bool)
    ensures b <==> n != None && n != Some(0)
  {
    n.Some? && n.value != 0
  }

  /** `a || b` on optional strings: the first operand when it is truthy, else the second. */
  function Or(a: Option<string>, b: Option<string>): (r: Option<string>)
    ensures Truthy(r) <==> Truthy(a) || Truthy(b)
    ensures Truthy(a) ==> r == a
    ensures !Truthy(a) ==> r == b
  {
    if Truthy(a) then a else b
  }

  predicate IsDigit(c: char)
  {
    '0' <= c <= '9'
  }

  predicate AllDigits(s: string)
  {
    forall i :: 0 <= i < |s| ==> IsDigit(s[i])
  }

  function DigitChar(d: nat): (c: char)
    requires d < 10
    ensures IsDigit(c) && c as int - '0' as int == d
  {
    ('0' as int + d) as char
  }

  function DigitValue(c: char): (d: nat)
    requires IsDigit(c)
    ensures d < 10 && DigitChar(d) == c
  {
    c as int - '0' as int
  }

  /** Decimal text of a natural number, most significant digit first, no leading zeros. */
  function NatToString(n: nat): (s: string)
    ensures |s| > 0 && AllDigits(s)
    ensures |s| > 1 ==> s[0] != '0'
    decreases n
  {
    if n < 10 then [DigitChar(n)] else NatToString(n / 10) + [DigitChar(n % 10)]
  }

  /** What `${i}` gives for an integer value: a minus sign for a negative value, then the
      decimal digits of its magnitude. */
  function IntToString(i: int): (s: string)
    ensures |s| > 0
    ensures s[0] == '-' <==> i < 0
  {
    if i < 0 then "-" + NatToString(-i) else NatToString(i)
  }

  /** The value of a string of decimal digits, read left to right. */
  function DigitsValue(s: string): nat
    requires AllDigits(s)
    decreases |s|
  {
    if s == [] then 0 else DigitsValue(s[..|s| - 1]) * 10 + DigitValue(s[|s| - 1])
  }

  /** The decimal text names its number: its digits read back give `n`. */
  lemma {:induction false} DigitsValueOfNatToString(n: nat)
    ensures DigitsValue(NatToString(n)) == n
    decreases n
  {
    var s := NatToString(n);
    if n >= 10 {
      DigitsValueOfNatToString(n / 10);
      assert s[..|s| - 1] == NatToString(n / 10);
      assert DigitValue(s[|s| - 1]) == n % 10;
    } else {
      assert s[..|s| - 1] == "";
    }
  }

  /** Different integers have different decimal texts, so the selector's `data-value`
      (and its generic "<value> mi radius" text) identifies the chosen radius. */
  lemma IntToStringInjective(i: int, j: int)
    ensures IntToString(i) == IntToString(j) ==> i == j
  {
    if IntToString(i) == IntToString(j) {
      if i < 0 {
        assert j < 0;
        assert IntToString(i)[1..] == NatToString(-i);
        assert IntToString(j)[1..] == NatToString(-j);
        DigitsValueOfNatToString(-i);
        DigitsValueOfNatToString(-j);
      } else {
        assert j >= 0;
        DigitsValueOfNatToString(i);
        DigitsValueOfNatToString(j);
      }
    }
  }
}
