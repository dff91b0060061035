/**
 * The loosely typed values the widget's JavaScript passes around, and the
 * three JavaScript conversions the core relies on: truthiness, `Number(...)`
 * and string interpolation (`${...}`).
 *
 * Numbers are restricted to integers: a string converts to a number only
 * when it is made of ASCII digits (the quantities and line numbers of the
 * data source); every other non-empty string converts to NaN.
 */
module Values {

  datatype Option<T> = None | Some(value: T)

  /** A JavaScript value as far as the core distinguishes them. */
  datatype Value =
    | Undefined
    | Null
    | Bool(b: bool)
    | Num(n: int)
    | Str(s: string)

  /** The value states of an input control that the core sets (`sap.ui.core.ValueState`). */
  datatype ValueState = StateNone | StateError

  /** JavaScript truthiness: `if (v)`, `!v`, `v ? a : b`. */
  predicate Truthy(v: Value)
  {
    match v
    case Undefined => false
    case Null => false
    case Bool(b) => b
    case Num(n) => n != 0
    case Str(s) => s != ""
  }

  /** The result of `Number(v)`, restricted to integers. */
  datatype Number = NaN | Finite(n: int)

  predicate NumberTruthy(x: Number)
  {
    x.Finite? && x.n != 0
  }

  /** `a + b` on two numbers: NaN is contagious. */
  function Add(a: Number, b: Number): (r: Number)
    ensures r.Finite? <==> a.Finite? && b.Finite?
    ensures r.Finite? ==> r.n == a.n + b.n
  {
    if a.Finite? && b.Finite? then Finite(a.n + b.n) else NaN
  }

  /** `a > b` on two numbers: every comparison with NaN is false. */
  predicate Greater(a: Number, b: Number)
  {
    a.Finite? && b.Finite? && a.n > b.n
  }

  predicate IsDigit(c: char)
  {
    '0' <= c <= '9'
  }

  predicate AllDigits(s: string)
  {
    forall i :: 0 <= i < |s| ==> IsDigit(s[i])
  }

  /** The value of a string of decimal digits (the empty string is 0, as `Number("")` is). */
  function DigitsValue(s: string): (n: nat)
    requires AllDigits(s)
    ensures |s| <= 1 ==> n < 10
  {
    if s == [] then 0
    else DigitsValue(s[..|s| - 1]) * 10 + (s[|s| - 1] as int - '0' as int)
  }

  /** `Number(v)` for the values the core converts. */
  function ToNumber(v: Value): (r: Number)
    ensures v.Str? && AllDigits(v.s) ==> r == Finite(DigitsValue(v.s))
    ensures v.Str? && !AllDigits(v.s) ==> r == NaN
  {
    match v
    case Undefined => NaN
    case Null => Finite(0)
    case Bool(b) => Finite(if b then 1 else 0)
    case Num(n) => Finite(n)
    case Str(s) => if AllDigits(s) then Finite(DigitsValue(s)) else NaN
  }

  function DigitChar(d: nat): (c: char)
    requires d < 10
    ensures IsDigit(c) && c as int - '0' as int == d
  {
    (d + '0' as int) as char
  }

  /** The shortest decimal text of a natural number, as JavaScript prints it. */
  function NatText(n: nat): (s: string)
    ensures AllDigits(s) && |s| >= 1
    ensures s[0] == '0' ==> n == 0
  {
    if n < 10 then [DigitChar(n)] else NatText(n / 10) + [DigitChar(n % 10)]
  }

  /** `String(x)` for a number. */
  function NumberText(x: Number): string
  {
    match x
    case NaN => "NaN"
    case Finite(n) => if n < 0 then "-" + NatText(-n) else NatText(n)
  }

  /** String interpolation `${v}`. */
  function ToText(v: Value): string
  {
    match v
    case Undefined => "undefined"
    case Null => "null"
    case Bool(b) => if b then "true" else "false"
    case Num(n) => NumberText(Finite(n))
    case Str(s) => s
  }

  /**
   * `Number.MAX_SAFE_INTEGER`: up to here a double holds every integer
   * exactly, so reading, adding and printing agree with this model.
   */
  const MaxSafeInteger: nat := 9007199254740991

  /** A string of zeros reads as 0. */
  predicate AllZeros(z: string)
  {
    forall i :: 0 <= i < |z| ==> z[i] == '0'
  }

  /** Leading zeros do not change the value of a digit string. */
  lemma {:induction false} LeadingZerosIgnored(z: string, s: string)
    requires AllZeros(z) && AllDigits(s)
    ensures AllDigits(z + s) && DigitsValue(z + s) == DigitsValue(s)
  {
    assert AllDigits(z + s) by {
      forall i | 0 <= i < |z + s| ensures IsDigit((z + s)[i]) {
        if i < |z| {
          assert (z + s)[i] == z[i];
        } else {
          assert (z + s)[i] == s[i - |z|];
        }
      }
    }
    if s == [] {
      assert z + s == z;
      ZerosValue(z);
    } else {
      assert (z + s)[..|z + s| - 1] == z + s[..|s| - 1];
      LeadingZerosIgnored(z, s[..|s| - 1]);
    }
  }

  lemma {:induction false} ZerosValue(z: string)
    requires AllZeros(z)
    ensures AllDigits(z) && DigitsValue(z) == 0
  {
    if z != [] {
      ZerosValue(z[..|z| - 1]);
    }
  }

  /** Printing a number and reading it back gives the number. */
  lemma {:induction false} DigitsValueOfNatText(n: nat)
    ensures DigitsValue(NatText(n)) == n
  {
    if n >= 10 {
      var s := NatText(n);
      assert s[..|s| - 1] == NatText(n / 10);
      DigitsValueOfNatText(n / 10);
    }
  }

  /**
   * Reading a digit string without leading zeros and printing the value
   * gives the string back; so `${Number(s)}` only strips leading zeros.
   */
  lemma {:induction false} NatTextOfDigitsValue(s: string)
    requires AllDigits(s) && s != ""
    requires s[0] != '0' || |s| == 1
    ensures NatText(DigitsValue(s)) == s
  {
    if |s| > 1 {
      var init := s[..|s| - 1];
      assert init[0] == s[0];
      NatTextOfDigitsValue(init);
      PositiveWhenLeadingNonZero(init);
      var n := DigitsValue(s);
      var d := s[|s| - 1] as int - '0' as int;
      assert n == DigitsValue(init) * 10 + d;
      assert n / 10 == DigitsValue(init) && n % 10 == d;
      assert DigitChar(d) == s[|s| - 1];
    }
  }

  lemma {:induction false} PositiveWhenLeadingNonZero(s: string)
    requires AllDigits(s) && s != "" && s[0] != '0'
    ensures DigitsValue(s) > 0
  {
    if |s| > 1 {
      var init := s[..|s| - 1];
      assert init[0] == s[0];
      PositiveWhenLeadingNonZero(init);
    }
  }
}
