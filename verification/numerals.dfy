/** Decimal numerals: the text of `int.ToString()` and the digit strings `int.Parse` accepts. */
module Numerals {
  import opened Wrappers
  import opened Ast

  /** The largest value of a .NET `int`. */
  const MaxInt32: int := 0x7FFF_FFFF

  predicate IsDigit(c: char) {
    '0' <= c <= '9'
  }

  /** A non-empty run of decimal digits. */
  predicate IsDigits(s: string) {
    |s| > 0 && forall k :: 0 <= k < |s| ==> IsDigit(s[k])
  }

  function DigitChar(d: nat): (c: char)
    requires d < 10
    ensures IsDigit(c) && c as int - '0' as int == d
  {
    ['0', '1', '2', '3', '4', '5', '6', '7', '8', '9'][d]
  }

  /** The value of a string of digits, most significant first. */
  function DigitsValue(s: string): nat
    requires forall k :: 0 <= k < |s| ==> IsDigit(s[k])
  {
    if s == [] then 0
    else
      assert IsDigit(s[|s| - 1]);
      DigitsValue(s[..|s| - 1]) * 10 + (s[|s| - 1] as int - '0' as int)
  }

  /** The shortest decimal spelling of a natural number. */
  function NatToString(n: nat): (s: string)
    ensures IsDigits(s)
    ensures |s| > 1 ==> s[0] != '0'
  {
    if n < 10 then [DigitChar(n)] else NatToString(n / 10) + [DigitChar(n % 10)]
  }

  /** The text of an `int` interpolated into a string: a minus sign, then the magnitude. */
  function IntToString(i: int): (s: string)
    ensures |s| > 0
    ensures i < 0 <==> s[0] == '-'
  {
    if i < 0 then "-" + NatToString(-i) else NatToString(i)
  }

  /**
   * After the sign, an integer's text is the decimal spelling of its magnitude, with no
   * leading zero.
   */
  lemma IntToStringSpellsMagnitude(i: int)
    ensures var s := IntToString(i);
      var d := if i < 0 then s[1..] else s;
      IsDigits(d) && DigitsValue(d) == (if i < 0 then -i else i) && (|d| > 1 ==> d[0] != '0')
  {
    if i < 0 {
      DigitsValueOfNatToString(-i);
      assert ("-" + NatToString(-i))[1..] == NatToString(-i);
    } else {
      DigitsValueOfNatToString(i);
    }
  }


  /**
   * `int.Parse` on a lexeme: `None` when the text is not a digit string or its value
   * does not fit in an `int` (the source's format and overflow exceptions).
   */
  function ParseInt32(s: string): (r: Option<Int32>)
    ensures r.Some? <==> IsDigits(s) && DigitsValue(s) <= MaxInt32
    ensures r.Some? ==> r.value == DigitsValue(s)
  {
    if IsDigits(s) && DigitsValue(s) <= MaxInt32 then Some(DigitsValue(s)) else None
  }

  /** Reading one more digit of a digit string multiplies the value so far by ten and adds it. */
  lemma DigitsValueStep(s: string, k: nat)
    requires IsDigits(s) && k < |s|
    ensures DigitsValue(s[..k + 1]) == 10 * DigitsValue(s[..k]) + (s[k] as int - '0' as int)
  {
    assert s[..k + 1][..k] == s[..k];
  }

  /** Reading back the decimal spelling of `n` gives `n`. */
  lemma {:induction false} DigitsValueOfNatToString(n: nat)
    ensures DigitsValue(NatToString(n)) == n
  {
    var s := NatToString(n);
    if n >= 10 {
      DigitsValueOfNatToString(n / 10);
      assert s[..|s| - 1] == NatToString(n / 10);
    }
  }

  /** Distinct numbers have distinct spellings. */
  lemma NatToStringInjective(a: nat, b: nat)
    requires NatToString(a) == NatToString(b)
    ensures a == b
  {
    DigitsValueOfNatToString(a);
    DigitsValueOfNatToString(b);
  }

  /** `int.Parse` recovers every non-negative `int` from its printed form. */
  lemma ParseInt32OfNatToString(n: nat)
    requires n <= MaxInt32
    ensures ParseInt32(NatToString(n)) == Some(n)
  {
    DigitsValueOfNatToString(n);
  }
}
