/**
 * Decimal text of natural numbers: what JavaScript's `String(n)` (or
 * `n.toString()`, or `n + 'st'`) prints for a non-negative integer, and what
 * `parseInt` reads back from a string made only of decimal digits.
 */
module Decimal {

  predicate IsDigit(c: char) {
    '0' <= c <= '9'
  }

  predicate IsDigits(s: string) {
    forall i :: 0 <= i < |s| ==> IsDigit(s[i])
  }

  /** The form `toString` produces: non-empty digits, no leading zero except in "0" itself. */
  predicate IsCanonical(s: string) {
    |s| > 0 && IsDigits(s) && (s[0] == '0' ==> |s| == 1)
  }

  function DigitValue(c: char): (d: nat)
    requires IsDigit(c)
    ensures d < 10
  {
    c as int - '0' as int
  }

  function DigitChar(d: nat): (c: char)
    requires d < 10
    ensures IsDigit(c) && DigitValue(c) == d
    ensures c == '0' <==> d == 0
  {
    ('0' as int + d) as char
  }

  /** The decimal text of `n`; its last character is the units digit of `n`. */
  function Text(n: nat): (s: string)
    ensures IsCanonical(s)
    ensures s[0] == '0' <==> n == 0
    ensures s[|s| - 1] == DigitChar(n % 10)
    ensures n < 10 <==> |s| == 1
  {
    if n < 10 then [DigitChar(n)] else Text(n / 10) + [DigitChar(n % 10)]
  }

  /** The number a digit string denotes (leading zeros are allowed, as `parseInt` allows them). */
  function Value(s: string): (n: nat)
    requires IsDigits(s)
    ensures |s| > 0 ==> n % 10 == DigitValue(s[|s| - 1])
    ensures |s| > 0 && s[0] != '0' ==> n >= 1
  {
    if s == [] then 0 else Value(s[..|s| - 1]) * 10 + DigitValue(s[|s| - 1])
  }

  /** Reading back the decimal text of `n` gives `n`. */
  lemma {:induction false} ValueOfText(n: nat)
    ensures Value(Text(n)) == n
  {
    if n >= 10 {
      var s := Text(n);
      assert s[..|s| - 1] == Text(n / 10);
      ValueOfText(n / 10);
    }
  }

  /** Leading zeros do not change the number a digit string denotes ("007" reads as 7). */
  lemma {:induction false} ValueIgnoresLeadingZero(s: string)
    requires IsDigits(s)
    ensures IsDigits("0" + s) && Value("0" + s) == Value(s)
  {
    if s != [] {
      var z := "0" + s;
      assert z[..|z| - 1] == "0" + s[..|s| - 1];
      assert z[|z| - 1] == s[|s| - 1];
      ValueIgnoresLeadingZero(s[..|s| - 1]);
    } else {
      assert ("0" + s)[..0] == [];
    }
  }

  /** Every canonical digit string is the decimal text of the number it denotes. */
  lemma {:induction false} TextOfValue(s: string)
    requires IsCanonical(s)
    ensures Text(Value(s)) == s
  {
    var last := s[|s| - 1];
    if |s| == 1 {
      assert DigitChar(DigitValue(last)) == last;
      assert Text(Value(s)) == [last];
    } else {
      var p := s[..|s| - 1];
      assert p[0] == s[0];
      TextOfValue(p);
      var v := Value(s);
      assert v == Value(p) * 10 + DigitValue(last);
      assert v / 10 == Value(p) && v % 10 == DigitValue(last);
      assert DigitChar(DigitValue(last)) == last;
      assert s == p + [last];
    }
  }

  /** `Text` undoes `Value` only on canonical strings: "007" reads as 7, which prints as "7". */
  lemma LeadingZerosNotRestored()
    ensures IsDigits("007") && Value("007") == 7 && Text(Value("007")) == "7"
  {
    ValueIgnoresLeadingZero("7");
    ValueIgnoresLeadingZero("07");
  }
}
