/**
 * Decimal digits and Python's `str()` of an integer, shared by the token
 * accessors, the interpreter's `show` and string concatenation, and the
 * two expression translators.
 */
module Text {

  predicate IsDigit(c: char)
  {
    '0' <= c <= '9'
  }

  predicate IsDigits(s: string)
  {
    forall i :: 0 <= i < |s| ==> IsDigit(s[i])
  }

  function DigitValue(c: char): (d: nat)
    requires IsDigit(c)
    ensures d < 10
  {
    (c as int) - ('0' as int)
  }

  function DigitChar(d: nat): (c: char)
    requires d < 10
    ensures IsDigit(c) && DigitValue(c) == d
  {
    (('0' as int) + d) as char
  }

  /** The value of a string of decimal digits, most significant first (Python's `int(s)` on such a string). */
  function DigitsValue(s: string): nat
    requires IsDigits(s)
  {
    if s == [] then 0 else DigitsValue(s[..|s| - 1]) * 10 + DigitValue(s[|s| - 1])
  }

  /** Python's `str(n)` for a non-negative integer: no leading zeros, "0" for zero. */
  function NatToString(n: nat): (s: string)
    ensures |s| > 0 && IsDigits(s)
    ensures |s| > 1 ==> s[0] != '0'
  {
    if n < 10 then [DigitChar(n)] else NatToString(n / 10) + [DigitChar(n % 10)]
  }

  /** Python's `str(n)` for any integer. */
  function IntToString(n: int): (s: string)
    ensures |s| > 0
    ensures n >= 0 <==> s[0] != '-'
  {
    if n >= 0 then NatToString(n) else "-" + NatToString(-n)
  }

  /** Reading back the decimal text of a number gives that number. */
  lemma {:induction false} DigitsValueOfNatToString(n: nat)
    ensures DigitsValue(NatToString(n)) == n
  {
    if n >= 10 {
      var s := NatToString(n);
      DigitsValueOfNatToString(n / 10);
      assert s[..|s| - 1] == NatToString(n / 10);
    }
  }

  /** The text after an optional leading '+' or '-'. */
  function Unsigned(s: string): (u: string)
    ensures |u| <= |s|
  {
    if |s| > 0 && (s[0] == '+' || s[0] == '-') then s[1..] else s
  }

  /** The text Python's `int()` reads here: an optional sign and at least one decimal digit. */
  predicate IsIntegerText(s: string)
  {
    var u := Unsigned(s);
    |u| > 0 && IsDigits(u)
  }

  /** `int(s)` for such a text: its digits' value, negated after a '-'. */
  function IntegerTextValue(s: string): int
    requires IsIntegerText(s)
  {
    var v: int := DigitsValue(Unsigned(s));
    if s[0] == '-' then -v else v
  }

  /**
   * The text Python's `float()` reads here: an optional sign, then digits
   * with one '.' among them and at least one digit beside it.
   */
  predicate IsFloatText(s: string)
  {
    var u := Unsigned(s);
    |u| >= 2 && exists k | 0 <= k < |u| :: u[k] == '.' && IsDigits(u[..k]) && IsDigits(u[k + 1..])
  }

  /** `int(str(n))` is `n` for every integer. */
  lemma IntegerTextOfIntToString(n: int)
    ensures IsIntegerText(IntToString(n)) && IntegerTextValue(IntToString(n)) == n
  {
    var s := IntToString(n);
    if n >= 0 {
      DigitsValueOfNatToString(n);
    } else {
      assert Unsigned(s) == NatToString(-n);
      DigitsValueOfNatToString(-n);
    }
  }

  /** An integer text has no '.', so `float()` is never asked to read it. */
  lemma IntegerTextIsNoFloatText(s: string)
    requires IsIntegerText(s)
    ensures '.' !in Unsigned(s) && !IsFloatText(s)
  {
    var u := Unsigned(s);
    assert forall i | 0 <= i < |u| :: u[i] != '.';
  }

  /** Distinct numbers have distinct decimal texts. */
  lemma NatToStringInjective(m: nat, n: nat)
    requires NatToString(m) == NatToString(n)
    ensures m == n
  {
    DigitsValueOfNatToString(m);
    DigitsValueOfNatToString(n);
  }
}
