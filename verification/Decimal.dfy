/** Decimal printing and parsing of integers, as `str()`, `CAST(... AS INTEGER)` and `:04d` do them. */
module Decimal {

  const DIGITS := "0123456789"

  predicate IsDigits(s: string)
  {
    forall i | 0 <= i < |s| :: s[i] in DIGITS
  }

  function DigitValue(c: char): (d: nat)
    requires c in DIGITS
    ensures d < 10 && DIGITS[d] == c
  {
    var d: nat :| d < 10 && DIGITS[d] == c;
    d
  }

  function Print(n: nat): (s: string)
    ensures s != "" && IsDigits(s)
  {
    if n < 10 then [DIGITS[n]] else Print(n / 10) + [DIGITS[n % 10]]
  }

  function PrintInt(n: int): string
  {
    if n < 0 then "-" + Print(-n) else Print(n)
  }

  function Parse(s: string): nat
    requires IsDigits(s)
  {
    if s == "" then 0 else 10 * Parse(s[..|s| - 1]) + DigitValue(s[|s| - 1])
  }

  lemma DigitsDistinct(i: nat, j: nat)
    requires i < 10 && j < 10 && DIGITS[i] == DIGITS[j]
    ensures i == j
  {
  }

  lemma {:induction false} ParsePrint(n: nat)
    ensures Parse(Print(n)) == n
  {
    var s := Print(n);
    DigitsDistinct(n % 10, DigitValue(DIGITS[n % 10]));
    if n < 10 {
      assert s[..0] == "";
    } else {
      assert s[..|s| - 1] == Print(n / 10);
      ParsePrint(n / 10);
    }
  }

  lemma {:induction false} ParseLeadingZeros(k: nat, s: string)
    requires IsDigits(s)
    ensures IsDigits(seq(k, i => '0') + s)
    ensures Parse(seq(k, i => '0') + s) == Parse(s)
    decreases k + |s|
  {
    var t := seq(k, i => '0') + s;
    if s == "" {
      if k > 0 {
        assert t[..k - 1] == seq(k - 1, i => '0') + "";
        ParseLeadingZeros(k - 1, "");
        DigitsDistinct(0, DigitValue('0'));
      }
    } else {
      assert t[..|t| - 1] == seq(k, i => '0') + s[..|s| - 1];
      ParseLeadingZeros(k, s[..|s| - 1]);
    }
  }

  /** `f"{n:04d}"`: at least four digits. */
  function PadFour(n: nat): (s: string)
    ensures |s| >= 4 && IsDigits(s)
  {
    var d := Print(n);
    if |d| < 4 then seq(4 - |d|, i => '0') + d else d
  }

  lemma ParsePadFour(n: nat)
    ensures Parse(PadFour(n)) == n
  {
    ParsePrint(n);
    var d := Print(n);
    if |d| < 4 {
      ParseLeadingZeros(4 - |d|, d);
      assert PadFour(n) == seq(4 - |d|, i => '0') + d;
    }
  }

  lemma PadFourLength(n: nat)
    requires n < 10000
    ensures |PadFour(n)| == 4
  {
    var n1, n2, n3 := n / 10, n / 10 / 10, n / 10 / 10 / 10;
    assert n3 < 10;
    assert |Print(n3)| == 1;
    assert |Print(n2)| <= 2;
    assert |Print(n1)| <= 3;
  }

  /** A digit is worth its distance from '0'. */
  lemma DigitsInOrder(c: char)
    requires c in DIGITS
    ensures DigitValue(c) == (c - '0') as int
  {
    DigitsDistinct(DigitValue(c), (c - '0') as int);
  }

  /** With ParsePrint, this fixes the numeral: the digits of n, without a leading zero. */
  lemma {:induction false} PrintNoLeadingZero(n: nat)
    ensures n > 0 ==> Print(n)[0] != '0'
  {
    if n >= 10 {
      PrintNoLeadingZero(n / 10);
    } else if n > 0 {
      assert DIGITS[n] != DIGITS[0];
    }
  }
}
