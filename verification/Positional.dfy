/** Numerals in a base up to 16, with lower-case digits, and how long they are. */
module Positional {
  function Pow(b: nat, e: nat): nat { if e == 0 then 1 else b * Pow(b, e - 1) }

  const DIGITS := "0123456789abcdef"

  function DigitOf(c: char): HexDigit
  {
    if '0' <= c <= '9' then Digit(c as int - '0' as int)
    else if 'a' <= c <= 'f' then Digit(c as int - 'a' as int + 10)
    else NoDigit
  }

  datatype HexDigit = NoDigit | Digit(n: nat)

  predicate IsNumeral(s: string, b: nat) {
    forall i | 0 <= i < |s| :: DigitOf(s[i]).Digit? && DigitOf(s[i]).n < b
  }

  function NumValue(s: string, b: nat): nat
    requires IsNumeral(s, b)
  {
    if |s| == 0 then 0 else b * NumValue(s[..|s| - 1], b) + DigitOf(s[|s| - 1]).n
  }

  lemma DigitsAreDigits(n: nat)
    requires n < 16
    ensures DigitOf(DIGITS[n]) == Digit(n)
  {
    assert DIGITS == ['0', '1', '2', '3', '4', '5', '6', '7', '8', '9', 'a', 'b', 'c', 'd', 'e', 'f'];
  }

  /** `toString(b)` of a natural number. */
  function Numeral(n: nat, b: nat): (s: string)
    requires 2 <= b <= 16
    ensures s != [] && IsNumeral(s, b) && NumValue(s, b) == n
    decreases n
  {
    DigitsAreDigits(n % b);
    if n < b then [DIGITS[n]]
    else
      Smaller(n, b);
      Numeral(n / b, b) + [DIGITS[n % b]]
  }

  lemma Smaller(n: nat, b: nat)
    requires 2 <= b <= n
    ensures n / b < n && n == b * (n / b) + n % b && 0 <= n % b < b && n / b > 0
  {}

  lemma PowPositive(b: nat, e: nat)
    requires b > 0
    ensures Pow(b, e) > 0
  {
    if e > 0 {
      PowPositive(b, e - 1);
      assert b * Pow(b, e - 1) > 0;
    }
  }

  lemma {:induction false} PowAdd(b: nat, m: nat, n: nat)
    ensures Pow(b, m + n) == Pow(b, m) * Pow(b, n)
    decreases m
  {
    if m == 0 {
      assert Pow(b, 0) == 1;
    } else {
      PowStep(b, m);
      PowStep(b, m + n);
      hide Pow;
      PowAdd(b, m - 1, n);
      TimesAssociative(b, Pow(b, m - 1), Pow(b, n));
    }
  }

  lemma PowStep(b: nat, e: nat)
    requires e > 0
    ensures Pow(b, e) == b * Pow(b, e - 1)
  {}

  lemma TimesAssociative(a: nat, b: nat, c: nat)
    ensures a * (b * c) == (a * b) * c
  {}

  lemma NotLess(b: nat, p: nat)
    requires p > 0
    ensures b * p >= b
  {}

  /** Dividing by the base lowers the exponent of a bound by one. */
  lemma DivideBound(n: nat, b: nat, p: nat)
    requires b >= 2
    ensures n < b * p <==> n / b < p
  {
    assert n == b * (n / b) + n % b && 0 <= n % b < b;
    if n / b < p {
      assert b * (n / b + 1) <= b * p;
      assert b * (n / b) + b <= b * p;
    } else {
      assert b * (n / b) >= b * p;
    }
  }

  /** A numeral has at most `e` digits exactly when its number is below the `e`-th power of the base. */
  lemma {:induction false} NumeralLength(n: nat, b: nat, e: nat)
    requires 2 <= b <= 16 && e > 0
    ensures |Numeral(n, b)| <= e <==> n < Pow(b, e)
    decreases n
  {
    hide Pow, Numeral, IsNumeral, NumValue;
    PowStep(b, e);
    NumeralStep(n, b);
    if n < b {
      PowPositive(b, e - 1);
      NotLess(b, Pow(b, e - 1));
    } else {
      Smaller(n, b);
      DivideBound(n, b, Pow(b, e - 1));
      if e > 1 {
        NumeralLength(n / b, b, e - 1);
      } else {
        PowZero(b);
      }
    }
  }

  lemma PowZero(b: nat)
    ensures Pow(b, 0) == 1
  {}

  lemma NumeralStep(n: nat, b: nat)
    requires 2 <= b <= 16
    ensures |Numeral(n, b)| == if n < b then 1 else 1 + |Numeral(n / b, b)|
  {
    hide IsNumeral, NumValue;
  }

  function PadStart(s: string, width: nat, c: char): (r: string)
    ensures |r| == if |s| < width then width else |s|
    ensures |s| >= width ==> r == s
    decreases if width < |s| then 0 else width - |s|
  {
    if |s| < width then PadStart([c] + s, width, c) else s
  }

  lemma {:induction false} LeadingZero(s: string, b: nat)
    requires IsNumeral(s, b) && b > 0
    ensures IsNumeral(['0'] + s, b) && NumValue(['0'] + s, b) == NumValue(s, b)
    decreases |s|
  {
    var t := ['0'] + s;
    assert forall i | 0 < i < |t| :: t[i] == s[i - 1];
    if s == "" {
      assert t[..0] == "";
    } else {
      LeadingZero(s[..|s| - 1], b);
      assert t[..|t| - 1] == ['0'] + s[..|s| - 1];
    }
  }

  lemma {:induction false} PaddedValue(s: string, width: nat, b: nat)
    requires IsNumeral(s, b) && b > 0
    ensures IsNumeral(PadStart(s, width, '0'), b) && NumValue(PadStart(s, width, '0'), b) == NumValue(s, b)
    decreases if width < |s| then 0 else width - |s|
  {
    if |s| < width {
      LeadingZero(s, b);
      PaddedValue(['0'] + s, width, b);
    }
  }
}
