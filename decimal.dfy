/** Plain decimal conversion between natural numbers and ASCII digit strings:
    the behaviour of Python's `int()` on a digit string and of `str()` on a
    non-negative integer. */
module Decimal {

  predicate IsDigit(c: char) {
    '0' <= c <= '9'
  }

  predicate AllDigits(s: string) {
    forall i :: 0 <= i < |s| ==> IsDigit(s[i])
  }

  /** A decimal rendering without superfluous leading zeros, as `str()` prints it. */
  predicate IsCanonical(s: string) {
    |s| > 0 && AllDigits(s) && (s[0] == '0' ==> |s| == 1)
  }

  function DigitValue(c: char): (d: nat)
    requires IsDigit(c)
    ensures d < 10
  {
    c as int - '0' as int
  }

  function DigitChar(d: nat): (c: char)
    requires d < 10
    ensures IsDigit(c) && DigitValue(c) == d
  {
    ('0' as int + d) as char
  }

  /** `int(s)` for a string of ASCII digits, most significant digit first;
      leading zeros are allowed and contribute nothing. */
  function Value(s: string): nat
    requires AllDigits(s)
  {
    if s == [] then 0 else 10 * Value(s[..|s| - 1]) + DigitValue(s[|s| - 1])
  }

  /** `str(n)` for a non-negative integer. */
  function Str(n: nat): (r: string)
    ensures IsCanonical(r)
    ensures n == 0 <==> r == "0"
  {
    if n < 10 then [DigitChar(n)] else Str(n / 10) + [DigitChar(n % 10)]
  }

  /** `int(str(n)) == n`. */
  lemma {:induction false} ValueOfStr(n: nat)
    ensures Value(Str(n)) == n
  {
    if n >= 10 {
      var s := Str(n);
      assert s[..|s| - 1] == Str(n / 10);
      ValueOfStr(n / 10);
    }
  }

  /** `str(int(s)) == s` for every canonical digit string. */
  lemma {:induction false} StrOfValue(s: string)
    requires IsCanonical(s)
    ensures Str(Value(s)) == s
  {
    if |s| > 1 {
      var front := s[..|s| - 1];
      assert IsCanonical(front);
      StrOfValue(front);
      ValueAtLeastOne(front);
      assert Value(s) / 10 == Value(front);
      assert Value(s) % 10 == DigitValue(s[|s| - 1]);
      assert s == front + [s[|s| - 1]];
    }
  }

  /** A canonical string other than `"0"` denotes a positive number. */
  lemma {:induction false} ValueAtLeastOne(s: string)
    requires IsCanonical(s) && s[0] != '0'
    ensures Value(s) >= 1
  {
    if |s| > 1 {
      assert IsCanonical(s[..|s| - 1]) && s[..|s| - 1][0] == s[0];
      ValueAtLeastOne(s[..|s| - 1]);
    } else {
      assert s == [s[0]];
    }
  }

  /** `str` is injective: different numbers are rendered differently. */
  lemma StrInjective(m: nat, n: nat)
    ensures Str(m) == Str(n) <==> m == n
  {
    ValueOfStr(m);
    ValueOfStr(n);
  }

  /** Leading zeros do not change the value of a digit string (`int("007") == 7`). */
  lemma {:induction false} LeadingZerosIgnored(s: string)
    requires AllDigits(s) && |s| > 0 && s[0] == '0'
    ensures Value(s) == Value(s[1..])
  {
    if |s| > 1 {
      var front := s[..|s| - 1];
      LeadingZerosIgnored(front);
      assert front[1..] == s[1..][..|s[1..]| - 1];
    } else {
      assert s[..0] == [];
    }
  }
}
