/**
 * Decimal text for card passcodes: the parts of JavaScript's `Number(string)`
 * and `String(number)` that the deck codec relies on.
 */
module Decimal {

  predicate IsDigit(c: char) { '0' <= c <= '9' }

  function DigitValue(c: char): (d: nat)
    requires IsDigit(c)
    ensures d < 10
  {
    c as int - '0' as int
  }

  function DigitChar(d: nat): (c: char)
    requires d < 10
    ensures IsDigit(c) && DigitValue(c) == d
  {
    ('0' as int + d) as char
  }

  predicate AllDigits(s: string) {
    forall i :: 0 <= i < |s| ==> IsDigit(s[i])
  }

  /** The value of a string of decimal digits, most significant first. */
  function DigitsValue(s: string): nat
    requires AllDigits(s)
  {
    if s == [] then 0 else DigitsValue(s[..|s| - 1]) * 10 + DigitValue(s[|s| - 1])
  }

  /** Writing one more digit after a digit string multiplies its value by ten and adds the digit. */
  lemma DigitsAppend(p: string, c: char)
    requires AllDigits(p) && IsDigit(c)
    ensures AllDigits(p + [c]) && DigitsValue(p + [c]) == DigitsValue(p) * 10 + DigitValue(c)
  {
    var s := p + [c];
    assert s[..|s| - 1] == p;
  }

  /** A passcode written the way `String(n)` writes a non-negative integer: no leading zeros. */
  predicate Canonical(s: string) {
    AllDigits(s) && |s| >= 1 && (s[0] == '0' ==> |s| == 1)
  }

  /** JavaScript's `String(n)` for a non-negative integer. */
  function NatToString(n: nat): (s: string)
    ensures Canonical(s)
    ensures DigitsValue(s) == n
  {
    if n < 10 then [DigitChar(n)]
    else
      var p := NatToString(n / 10);
      var s := p + [DigitChar(n % 10)];
      assert s[..|s| - 1] == p;
      s
  }

  /** A canonical string with a leading digit other than zero has a positive value. */
  lemma {:induction false} LeadingDigitPositive(s: string)
    requires AllDigits(s) && |s| >= 1 && s[0] != '0'
    ensures DigitsValue(s) >= 1
  {
    if |s| > 1 {
      var p := s[..|s| - 1];
      assert p[0] == s[0];
      LeadingDigitPositive(p);
    }
  }

  /** `String(Number(s)) == s` exactly when `s` is canonical: this is what lets a card block resolve back to the passcode it came from. */
  lemma {:induction false} StringOfValue(s: string)
    requires AllDigits(s)
    ensures NatToString(DigitsValue(s)) == s <==> Canonical(s)
  {
    if Canonical(s) && |s| > 1 {
      var p := s[..|s| - 1];
      assert p[0] == s[0];
      assert Canonical(p);
      LeadingDigitPositive(p);
      StringOfValue(p);
      var v := DigitsValue(s);
      assert v / 10 == DigitsValue(p) && v % 10 == DigitValue(s[|s| - 1]);
      assert s == p + [s[|s| - 1]];
    }
  }

  /** The result of JavaScript's `Number(s)` as far as it is modelled: a finite integer or NaN. */
  datatype JsNumber = Finite(value: int) | NaN

  /**
   * `Number(s)`: the empty string is 0, a string of ASCII digits is its value,
   * and every other string is NaN.
   */
  function ToNumber(s: string): (n: JsNumber)
    ensures n.Finite? <==> AllDigits(s)
    ensures n.Finite? ==> n.value >= 0
    ensures s == [] ==> n == Finite(0)
  {
    if AllDigits(s) then Finite(DigitsValue(s)) else NaN
  }

  /** ECMAScript's white space and line terminators, which `Number(s)` strips from both ends before reading. */
  predicate JsWhiteSpace(c: char) {
    c == '\t' || c == '\n' || c == '\U{000B}' || c == '\U{000C}' || c == '\r' || c == ' '
    || c == '\U{00A0}' || c == '\U{1680}' || '\U{2000}' <= c <= '\U{200A}' || c == '\U{2028}'
    || c == '\U{2029}' || c == '\U{202F}' || c == '\U{205F}' || c == '\U{3000}' || c == '\U{FEFF}'
  }

  /**
   * A string that no numeric literal can start: not empty, and its first
   * character is neither white space, a digit, a sign, a decimal point nor the
   * `I` of `Infinity`. JavaScript's `Number(s)` is NaN on every such string.
   */
  predicate NonNumeric(s: string) {
    |s| >= 1 && !JsWhiteSpace(s[0]) && !IsDigit(s[0])
    && s[0] != '+' && s[0] != '-' && s[0] != '.' && s[0] != 'I'
  }

  /** On the strings where JavaScript's `Number(s)` is NaN for want of any numeric prefix, the model's is too. */
  lemma NonNumericIsNaN(s: string)
    requires NonNumeric(s)
    ensures ToNumber(s) == NaN
  {
    assert !IsDigit(s[0]);
  }

  /** `Number(String(n)) == n` for every non-negative integer. */
  lemma NumberOfString(n: nat)
    ensures ToNumber(NatToString(n)) == Finite(n)
  {
  }

  /** `Number(c)` for a one-character string: the digit's value, or NaN for anything but a digit. */
  lemma NumberOfChar(c: char)
    ensures ToNumber([c]) == if IsDigit(c) then Finite(DigitValue(c)) else NaN
  {
    var s := [c];
    assert s[..|s| - 1] == [];
    if IsDigit(c) {
      assert AllDigits(s);
      assert DigitsValue(s) == DigitsValue([]) * 10 + DigitValue(c);
    } else {
      assert !IsDigit(s[0]);
    }
  }
}
