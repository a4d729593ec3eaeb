/** Integers as a C++ output stream prints them in decimal, and what reading such text gives. */
module Decimal {
  import opened CText

  function DigitChar(d: nat): (c: char)
    requires d < 10
    ensures DigitOf(c) == d && '0' <= c <= '9'
  {
    '0' + d as char
  }

  function PrintNat(n: nat): (s: string)
    ensures s != "" && AllDigits(s, 10)
    ensures n > 0 ==> s[0] != '0'
    ensures n == 0 ==> s == "0"
  {
    if n < 10 then [DigitChar(n)] else PrintNat(n / 10) + [DigitChar(n % 10)]
  }

  function Print(n: int): (s: string)
    ensures s != "" && (IsDigit(s[0], 10) || s[0] == '-')
  {
    if n < 0 then "-" + PrintNat(-n) else PrintNat(n)
  }

  /** Evaluating the digits undoes printing. */
  lemma {:induction false} ValueOfPrint(n: nat)
    ensures Value(PrintNat(n), 10) == n
  {
    if n < 10 {
      assert [DigitChar(n)][..0] == "";
    } else {
      ValueOfPrint(n / 10);
      var s := PrintNat(n / 10) + [DigitChar(n % 10)];
      assert s[..|s| - 1] == PrintNat(n / 10);
    }
  }

  /** Digits without a leading zero are what printing their value gives. */
  lemma {:induction false} PrintOfValue(s: string)
    requires s != "" && AllDigits(s, 10) && (s == "0" || s[0] != '0')
    ensures PrintNat(Value(s, 10)) == s
  {
    var n := |s| - 1;
    assert s == s[..n] + [s[n]];
    if n == 0 {
      assert s[..0] == "" && Value(s, 10) == DigitOf(s[0]);
      CharOfDigit(s[0]);
    } else {
      PrintOfValue(s[..n]);
      var v := Value(s[..n], 10);
      PositiveWithoutZero(s[..n]);
      CharOfDigit(s[n]);
      assert (v * 10 + DigitOf(s[n])) / 10 == v && (v * 10 + DigitOf(s[n])) % 10 == DigitOf(s[n]);
    }
  }

  lemma CharOfDigit(c: char)
    requires IsDigit(c, 10)
    ensures DigitChar(DigitOf(c)) == c
  {}

  lemma {:induction false} PositiveWithoutZero(s: string)
    requires s != "" && AllDigits(s, 10) && s[0] != '0'
    ensures Value(s, 10) > 0
  {
    if |s| == 1 {
      assert s[..0] == "";
    } else {
      PositiveWithoutZero(s[..|s| - 1]);
    }
  }

  lemma DigitRunOfPrint(n: nat, rest: string)
    requires rest == "" || !IsDigit(rest[0], 10)
    ensures DigitRun(PrintNat(n) + rest, 10) == |PrintNat(n)|
  {
    DigitRunIs(PrintNat(n) + rest, |PrintNat(n)|, 10);
  }
}
