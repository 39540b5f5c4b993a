/**
 * Decimal digit characters and strings, as the numbers dictionary reads
 * them out of the text it has built ('0' <= c && c <= '9').
 */
module DigitStrings {

  predicate IsDigit(c: char) {
    '0' <= c <= '9'
  }

  function DigitValue(c: char): (d: nat)
    requires IsDigit(c)
    ensures d < 10
  {
    c as int - '0' as int
  }

  function DigitChar(d: nat): (c: char)
    requires d < 10
    ensures IsDigit(c) && DigitValue(c) == d
  {
    ('0' as int + d) as char
  }

  /** The digit characters of s, in order, everything else dropped. */
  function DigitChars(s: string): (d: string)
    ensures forall i :: 0 <= i < |d| ==> IsDigit(d[i])
  {
    if s == [] then []
    else DigitChars(s[..|s| - 1]) + (if IsDigit(s[|s| - 1]) then [s[|s| - 1]] else [])
  }

  /** The number a string of digits stands for, most significant digit first. */
  function DecimalValue(d: string): nat
    requires forall i :: 0 <= i < |d| ==> IsDigit(d[i])
  {
    if d == [] then 0 else 10 * DecimalValue(d[..|d| - 1]) + DigitValue(d[|d| - 1])
  }

  /** The decimal numeral of n, without leading zeros. */
  function DecimalString(n: nat): (s: string)
    ensures s != [] && forall i :: 0 <= i < |s| ==> IsDigit(s[i])
  {
    if n < 10 then [DigitChar(n)] else DecimalString(n / 10) + [DigitChar(n % 10)]
  }

  /** Reading the numeral of n back gives n. */
  lemma {:induction false} DecimalStringValue(n: nat)
    ensures DecimalValue(DecimalString(n)) == n
    ensures |DecimalString(n)| == 1 || DecimalString(n)[0] != '0'
  {
    var s := DecimalString(n);
    if n >= 10 {
      DecimalStringValue(n / 10);
      assert s[..|s| - 1] == DecimalString(n / 10);
    }
  }

  /** Dropping the non-digits twice is dropping them once. */
  lemma {:induction false} DigitCharsIdempotent(s: string)
    ensures DigitChars(DigitChars(s)) == DigitChars(s)
  {
    if s != [] {
      var init := s[..|s| - 1];
      DigitCharsIdempotent(init);
      var d := DigitChars(init);
      if IsDigit(s[|s| - 1]) {
        var e := d + [s[|s| - 1]];
        assert e[..|e| - 1] == d && IsDigit(e[|e| - 1]);
        assert DigitChars(s) == e;
        assert DigitChars(e) == DigitChars(d) + [e[|e| - 1]];
      } else {
        assert d + [] == d;
        assert DigitChars(s) == d;
      }
    }
  }

  /** A string of digits is its own digit characters. */
  lemma {:induction false} DigitCharsOfDigits(s: string)
    requires forall i :: 0 <= i < |s| ==> IsDigit(s[i])
    ensures DigitChars(s) == s
  {
    if s != [] {
      DigitCharsOfDigits(s[..|s| - 1]);
    }
  }
}
