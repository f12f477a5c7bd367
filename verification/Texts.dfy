/** Strings as the JavaScript source sees them: separators, white space, decimal numerals. */
module Texts {
  function Join(parts: seq<string>, sep: string): string {
    if |parts| == 0 then ""
    else if |parts| == 1 then parts[0]
    else parts[0] + sep + Join(parts[1..], sep)
  }

  lemma JoinAtHead(parts: seq<string>, sep: string, end: string)
    requires |parts| > 1
    ensures Join(parts, sep) + end == parts[0] + (sep + (Join(parts[1..], sep) + end))
  {}

  predicate StartsWith(s: string, prefix: string) {
    |prefix| <= |s| && s[..|prefix|] == prefix
  }

  /** White space for `\s` and `trim`. */
  predicate IsSpace(c: char) {
    || c in " \t\n\r\U{0B}\U{0C}\U{A0}\U{1680}\U{2028}\U{2029}\U{202F}\U{205F}\U{3000}\U{FEFF}"
    || '\U{2000}' <= c <= '\U{200A}'
  }

  /** The same by code points: controls from tab to carriage return, blanks and line ends. */
  lemma SpaceIs(c: char)
    ensures IsSpace(c) <==>
      var n := c as int;
      || 9 <= n <= 13 || n == 32 || n == 160 || n == 5760 || 8192 <= n <= 8202 || n == 8232 || n == 8233 || n == 8239
      || n == 8287 || n == 12288 || n == 65279
  {}

  predicate IsDigit(c: char) { '0' <= c <= '9' }

  predicate AllDigits(s: string) { forall i | 0 <= i < |s| :: IsDigit(s[i]) }

  /** Length of the longest prefix of digits. */
  function DigitPrefix(s: string): (n: nat)
    ensures n <= |s| && AllDigits(s[..n]) && (n < |s| ==> !IsDigit(s[n]))
  {
    if |s| == 0 || !IsDigit(s[0]) then 0
    else
      var n := DigitPrefix(s[1..]);
      assert s[..n + 1] == [s[0]] + s[1..][..n];
      n + 1
  }

  lemma {:induction false} DigitPrefixIs(digits: string, rest: string)
    requires AllDigits(digits) && (rest == "" || !IsDigit(rest[0]))
    ensures DigitPrefix(digits + rest) == |digits| && (digits + rest)[..|digits|] == digits
    decreases |digits|
  {
    if digits == "" {
      assert digits + rest == rest;
    } else {
      assert (digits + rest)[1..] == digits[1..] + rest;
      DigitPrefixIs(digits[1..], rest);
    }
  }

  function DigitValue(c: char): nat
    requires IsDigit(c)
  {
    c as int - '0' as int
  }

  function DigitChar(n: nat): (c: char)
    requires n < 10
    ensures IsDigit(c) && DigitValue(c) == n
  {
    (n + '0' as int) as char
  }

  /** The number a decimal numeral denotes, read from the left. */
  function Value(s: string): nat
    requires AllDigits(s)
  {
    if |s| == 0 then 0 else 10 * Value(s[..|s| - 1]) + DigitValue(s[|s| - 1])
  }

  /** The numeral `String(n)` prints. */
  function Decimal(n: nat): (s: string)
    ensures AllDigits(s) && s != [] && Value(s) == n && Canonical(s)
  {
    if n < 10 then [DigitChar(n)] else Decimal(n / 10) + [DigitChar(n % 10)]
  }

  /** A numeral without superfluous leading zeros. */
  predicate Canonical(s: string) { |s| > 1 ==> s[0] != '0' }

  lemma {:induction false} ValuePositive(s: string)
    requires AllDigits(s) && s != [] && s[0] != '0'
    ensures Value(s) > 0
  {
    if |s| > 1 { ValuePositive(s[..|s| - 1]); }
  }

  /** Printing a numeral's value gives the numeral back exactly when it has no superfluous zeros, and
      something shorter otherwise. */
  lemma {:induction false} Reprinted(s: string)
    requires AllDigits(s) && s != []
    ensures |Decimal(Value(s))| <= |s|
    ensures Canonical(s) ==> Decimal(Value(s)) == s
    ensures !Canonical(s) ==> |Decimal(Value(s))| < |s|
  {
    hide Decimal;
    var front, last := s[..|s| - 1], s[|s| - 1];
    DecimalStep(Value(front), last);
    if |s| > 1 {
      Reprinted(front);
      if s[0] != '0' {
        ValuePositive(front);
        assert Canonical(front);
      }
      assert s == front + [last];
    }
  }

  /** One more digit is printed behind a number, and alone behind nothing. */
  lemma DecimalStep(n: nat, c: char)
    requires IsDigit(c)
    ensures Decimal(10 * n + DigitValue(c)) == if n == 0 then [c] else Decimal(n) + [c]
  {
    hide Value, AllDigits, Canonical;
    var m := 10 * n + DigitValue(c);
    assert m / 10 == n && m % 10 == DigitValue(c);
    assert DigitChar(DigitValue(c)) == c;
  }
}
