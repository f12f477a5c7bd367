/** Decimal scaling between planck and larger units, done on strings. */
module Units {
  import opened Wrappers
  import opened Texts
  import opened Positional

  datatype UnitError = InvalidUnit | InvalidNumber

  /** The denomination of a unit: none for an unknown unit, 0 for `noquanta`, otherwise a power of ten. */
  datatype Denomination = Unknown | Zero | TenTo(zeros: nat)

  function Zeros(n: nat): (s: string)
    ensures |s| == n && forall i | 0 <= i < n :: s[i] == '0'
  {
    if n == 0 then "" else Zeros(n - 1) + "0"
  }

  /** The length of a text without its trailing zeros. */
  function Trimmed(s: string): (n: nat)
    ensures n <= |s| && s[n..] == Zeros(|s| - n) && (n > 0 ==> s[n - 1] != '0')
  {
    if |s| == 0 || s[|s| - 1] != '0' then |s|
    else
      var n := Trimmed(s[..|s| - 1]);
      assert s[n..] == s[..|s| - 1][n..] + "0";
      n
  }

  /** The digits before and behind the point: the numeral, padded to the width of the unit, is cut there,
      and trailing zeros go. */
  function Parts(n: nat, zeros: nat): (string, string) {
    var padded := PadStart(Decimal(n), zeros, '0');
    var raw := padded[|padded| - zeros..];
    (padded[..|padded| - zeros], raw[..Trimmed(raw)])
  }

  /** The text of `n` planck in a unit of 10 to the power `zeros`. */
  function FromText(n: nat, zeros: nat): string {
    if zeros == 0 then Decimal(n)
    else
      var (integer, fraction) := Parts(n, zeros);
      if integer == "" then "0." + fraction
      else if fraction == "" then integer
      else integer + "." + fraction
  }

  method TrimZeros(raw: string) returns (fractionEnd: nat)
    ensures fractionEnd == Trimmed(raw)
  {
    hide Zeros;
    fractionEnd := |raw|;
    assert raw[..|raw|] == raw;
    while fractionEnd > 0 && raw[fractionEnd - 1] == '0'
      invariant fractionEnd <= |raw| && Trimmed(raw[..fractionEnd]) == Trimmed(raw)
    {
      assert raw[..fractionEnd][..fractionEnd - 1] == raw[..fractionEnd - 1];
      fractionEnd := fractionEnd - 1;
    }
  }

  method FromPlanck(n: nat, denomination: Denomination) returns (r: Result<string, UnitError>)
    ensures r == if denomination.TenTo? then Ok(FromText(n, denomination.zeros)) else Err(InvalidUnit)
  {
    hide Decimal, PadStart, Trimmed, Zeros, Value, AllDigits, Canonical;
    if !denomination.TenTo? { return Err(InvalidUnit); }
    var zeros := denomination.zeros;
    if zeros == 0 { return Ok(Decimal(n)); }
    var padded := PadStart(Decimal(n), zeros, '0');
    var integer, raw := padded[..|padded| - zeros], padded[|padded| - zeros..];
    var fractionEnd := TrimZeros(raw);
    var fraction := raw[..fractionEnd];
    if integer == "" { return Ok("0." + fraction); }
    if fraction == "" { return Ok(integer); }
    return Ok(integer + "." + fraction);
  }

  predicate IsDecimalText(s: string) {
    s != "" && (forall i | 0 <= i < |s| :: IsDigit(s[i]) || s[i] == '.')
      && forall i, j | 0 <= i < j < |s| :: !(s[i] == '.' && s[j] == '.')
  }

  function Dot(s: string): (k: nat)
    ensures k <= |s| && (k < |s| ==> s[k] == '.') && forall i | 0 <= i < k :: s[i] != '.'
  {
    if |s| == 0 || s[0] == '.' then 0 else 1 + Dot(s[1..])
  }

  function IntegerPart(s: string): string { s[..Dot(s)] }

  function FractionPart(s: string): string { if Dot(s) < |s| then s[Dot(s) + 1..] else "" }

  lemma PartsAreDigits(s: string)
    requires IsDecimalText(s)
    ensures AllDigits(IntegerPart(s)) && AllDigits(FractionPart(s)) && AllDigits(IntegerPart(s) + FractionPart(s))
  {
    var k := Dot(s);
    forall i | 0 <= i < |FractionPart(s)| ensures IsDigit(FractionPart(s)[i]) {
      assert FractionPart(s)[i] == s[k + 1 + i];
    }
  }

  function Min(a: nat, b: nat): nat { if a < b then a else b }

  /** The digits of the number without its point, as one number. */
  function Digits(s: string): nat
    requires IsDecimalText(s)
  {
    PartsAreDigits(s);
    Value(IntegerPart(s) + FractionPart(s))
  }

  function ToText(s: string, zeros: nat): string
    requires IsDecimalText(s)
  {
    var updated := Decimal(Digits(s) * Pow(10, zeros));
    var decimals := Min(|FractionPart(s)|, zeros);
    if decimals == 0 then updated
    else
      var padded := PadStart(updated, decimals, '0');
      padded[..|padded| - decimals]
  }

  /** `toPlanck` on decimal text. */
  function ToPlanck(s: string, denomination: Denomination): Result<string, UnitError> {
    if !IsDecimalText(s) then Err(InvalidNumber)
    else if !denomination.TenTo? then Err(InvalidUnit)
    else Ok(ToText(s, denomination.zeros))
  }

  // ---------- Numerals and powers of ten ----------

  lemma {:induction false} ValueConcat(a: string, b: string)
    requires AllDigits(a) && AllDigits(b)
    ensures AllDigits(a + b) && Value(a + b) == Value(a) * Pow(10, |b|) + Value(b)
    decreases |b|
  {
    if b == "" {
      assert a + b == a;
    } else {
      var front, last := b[..|b| - 1], b[|b| - 1];
      assert (a + b)[..|a + b| - 1] == a + front;
      ValueConcat(a, front);
      ScaleUp(Value(a), Pow(10, |front|));
    }
  }

  lemma ScaleUp(x: nat, p: nat)
    ensures 10 * (x * p) == x * (10 * p)
  {}

  lemma ZerosSnoc(n: nat)
    requires n > 0
    ensures Zeros(n) == Zeros(n - 1) + "0" && Zeros(n)[..n - 1] == Zeros(n - 1) && Zeros(n)[n - 1] == '0'
  {}

  lemma ZerosAreDigits(n: nat)
    ensures AllDigits(Zeros(n))
  {
    hide Zeros;
  }

  lemma {:induction false} ValueOfZeros(n: nat)
    ensures AllDigits(Zeros(n)) && Value(Zeros(n)) == 0
  {
    hide Zeros, AllDigits;
    ZerosAreDigits(n);
    if n > 0 {
      ZerosAreDigits(n - 1);
      ValueOfZeros(n - 1);
      ZerosSnoc(n);
    }
  }

  /** A positive number times a power of ten prints as the number and that many zeros. */
  lemma {:induction false} DecimalScaled(n: nat, k: nat)
    requires n > 0
    ensures n * Pow(10, k) > 0 && Decimal(n * Pow(10, k)) == Decimal(n) + Zeros(k)
    decreases k
  {
    hide Decimal;
    if k == 0 {
      NoZeros(n);
      assert Decimal(n) + "" == Decimal(n);
    } else {
      DecimalScaled(n, k - 1);
      ScaleUp(n, Pow(10, k - 1));
      DecimalTimesTen(n * Pow(10, k - 1));
      assert (Decimal(n) + Zeros(k - 1)) + "0" == Decimal(n) + Zeros(k);
    }
  }

  lemma DecimalTimesTen(m: nat)
    requires m > 0
    ensures Decimal(10 * m) == Decimal(m) + "0"
  {
    assert (10 * m) / 10 == m && (10 * m) % 10 == 0;
    assert DigitChar(0) == '0';
  }

  lemma {:induction false} PaddedDecimal(s: string, width: nat)
    requires AllDigits(s)
    ensures AllDigits(PadStart(s, width, '0')) && Value(PadStart(s, width, '0')) == Value(s)
    decreases if width < |s| then 0 else width - |s|
  {
    if |s| < width {
      ValueConcat("0", s);
      assert Value("0") == 0 by { assert "0"[..0] == ""; }
      PaddedDecimal(['0'] + s, width);
      assert "0" + s == ['0'] + s;
    }
  }

  // ---------- What scaling does ----------

  /** What `toPlanck` returns: the scaled number if the fraction fits the unit, the bare digits if it does
      not; and nothing at all for a zero with decimals. */
  lemma ToTextIs(s: string, zeros: nat)
    requires IsDecimalText(s)
    ensures var f := |FractionPart(s)|;
      ToText(s, zeros) ==
        if Digits(s) == 0 then (if f == 0 || zeros == 0 then "0" else "")
        else if f <= zeros then Decimal(Digits(s) * Pow(10, zeros - f))
        else Decimal(Digits(s))
  {
    hide Decimal, Pow, PadStart, IsDecimalText, FractionPart, Digits;
    var v, f := Digits(s), |FractionPart(s)|;
    if v == 0 {
      ZeroIsOneDigit();
      assert v * Pow(10, zeros) == 0;
      if Min(f, zeros) > 0 { PadOne(Min(f, zeros)); }
    } else {
      ScaledText(v, zeros, Min(f, zeros));
      if f > zeros { NoZeros(v); }
    }
  }

  /** Dropping the last digits of a scaled number undoes that much of the scaling. */
  lemma ScaledText(v: nat, zeros: nat, decimals: nat)
    requires v > 0 && decimals <= zeros
    ensures var text := Decimal(v * Pow(10, zeros));
      |text| > decimals && text[..|text| - decimals] == Decimal(v * Pow(10, zeros - decimals))
      && PadStart(text, decimals, '0') == text
  {
    hide Decimal, Pow;
    PowAdd(10, zeros - decimals, decimals);
    Reassociate(v, Pow(10, zeros - decimals), Pow(10, decimals));
    DecimalScaled(v, zeros - decimals);
    DecimalScaled(v * Pow(10, zeros - decimals), decimals);
    var text := Decimal(v * Pow(10, zeros - decimals));
    assert (text + Zeros(decimals))[..|text|] == text;
  }

  lemma Reassociate(a: nat, b: nat, c: nat)
    ensures a * (b * c) == (a * b) * c
  {}

  lemma PadOne(width: nat)
    requires width > 0
    ensures PadStart("0", width, '0')[..|PadStart("0", width, '0')| - width] == ""
  {}

  /** The number a text of digits denotes; `BigInt('')` is 0. */
  lemma ToTextDigits(s: string, zeros: nat)
    requires IsDecimalText(s)
    ensures AllDigits(ToText(s, zeros))
  {
    ToTextIs(s, zeros);
  }

  /** `toPlanck` scales exactly when the fraction is no longer than the unit's exponent, or all digits are zero. */
  lemma ToPlanckExactly(s: string, zeros: nat)
    requires IsDecimalText(s)
    ensures AllDigits(ToText(s, zeros))
    ensures Value(ToText(s, zeros)) * Pow(10, |FractionPart(s)|) == Digits(s) * Pow(10, zeros)
      <==> |FractionPart(s)| <= zeros || Digits(s) == 0
  {
    hide Decimal, Value, IsDecimalText, Pow, FractionPart, ToText, AllDigits;
    ToTextDigits(s, zeros);
    ToTextIs(s, zeros);
    NoDigitsNoValue();
    ScaledExactly(Digits(s), |FractionPart(s)|, zeros);
  }

  lemma NoDigitsNoValue()
    ensures AllDigits("") && Value("") == 0 && AllDigits("0") && Value("0") == 0
  {
    assert "0"[..0] == "";
  }

  /** The arithmetic: scaling by the missing decimals, or not at all. */
  lemma ScaledExactly(v: nat, f: nat, zeros: nat)
    ensures v == 0 ==> 0 * Pow(10, f) == v * Pow(10, zeros)
    ensures f <= zeros ==> (v * Pow(10, zeros - f)) * Pow(10, f) == v * Pow(10, zeros)
    ensures f > zeros && v > 0 ==> v * Pow(10, f) != v * Pow(10, zeros)
  {
    hide Pow;
    if f <= zeros {
      PowAdd(10, zeros - f, f);
      Reassociate(v, Pow(10, zeros - f), Pow(10, f));
    } else if v > 0 {
      PowStrict(zeros, f);
      Bigger(v, Pow(10, zeros), Pow(10, f));
    }
  }

  lemma {:induction false} PowStrict(m: nat, n: nat)
    requires m < n
    ensures Pow(10, m) < Pow(10, n)
    decreases n
  {
    PowPositive(10, n - 1);
    if m < n - 1 { PowStrict(m, n - 1); }
  }

  lemma Bigger(v: nat, a: nat, b: nat)
    requires v > 0 && a < b
    ensures v * a < v * b
  {}

  /** The padded numeral is its integer digits, its fraction digits and the zeros that are dropped. */
  lemma PartsValue(n: nat, zeros: nat)
    ensures var (integer, fraction) := Parts(n, zeros);
      && AllDigits(integer) && AllDigits(fraction) && AllDigits(integer + fraction) && |fraction| <= zeros
      && Value(integer + fraction) * Pow(10, zeros - |fraction|) == n
  {
    hide Decimal, Value, AllDigits, PadStart, Pow, Trimmed;
    PaddedDecimal(Decimal(n), zeros);
    CutValue(PadStart(Decimal(n), zeros, '0'), zeros);
  }

  lemma CutValue(padded: string, zeros: nat)
    requires AllDigits(padded) && zeros <= |padded|
    ensures var integer, raw := padded[..|padded| - zeros], padded[|padded| - zeros..];
      var fraction := raw[..Trimmed(raw)];
      && AllDigits(integer) && AllDigits(fraction) && AllDigits(integer + fraction)
      && Value(padded) == Value(integer + fraction) * Pow(10, zeros - |fraction|)
  {
    hide Value, AllDigits, Pow, Trimmed, Zeros;
    var integer, raw := padded[..|padded| - zeros], padded[|padded| - zeros..];
    TrimmedSplit(raw);
    JoinedAgain(padded, integer, raw[..Trimmed(raw)], Zeros(|raw| - Trimmed(raw)));
    SplitValue(integer, raw[..Trimmed(raw)], zeros);
  }

  lemma TrimmedSplit(raw: string)
    ensures raw == raw[..Trimmed(raw)] + Zeros(|raw| - Trimmed(raw))
  {
    hide Zeros, Trimmed;
    CutAgain(raw, Trimmed(raw));
  }

  lemma CutAgain(s: string, k: nat)
    requires k <= |s|
    ensures s == s[..k] + s[k..]
  {}

  lemma JoinedAgain(padded: string, integer: string, fraction: string, z: string)
    requires |integer| <= |padded| && integer == padded[..|integer|] && padded[|integer|..] == fraction + z
    ensures padded == integer + (fraction + z)
  {}

  lemma ZeroParts(zeros: nat)
    requires zeros > 0
    ensures Parts(0, zeros).1 == ""
  {
    ZeroIsOneDigit();
    hide Decimal, PadStart, Trimmed;
    ZeroHasNoFraction(zeros);
    var padded := PadStart("0", zeros, '0');
    assert padded[|padded| - zeros..] == padded;
  }

  lemma ZeroIsOneDigit()
    ensures Decimal(0) == "0"
  {}

  /** The text that `fromPlanck` prints, taken apart again. */
  lemma FromTextParts(n: nat, zeros: nat)
    ensures var s := FromText(n, zeros);
      && IsDecimalText(s) && |FractionPart(s)| <= zeros
      && Digits(s) * Pow(10, zeros - |FractionPart(s)|) == n
      && (n == 0 ==> FractionPart(s) == "")
  {
    hide Decimal, Value, AllDigits, Pow, FromText, Parts, IsDecimalText, IntegerPart, FractionPart;
    if zeros == 0 {
      PlainText(n);
      NoZeros(n);
    } else {
      var (integer, fraction) := Parts(n, zeros);
      PartsValue(n, zeros);
      TextOfParts(n, zeros);
      if n == 0 { ZeroParts(zeros); }
      if integer == "" {
        NoDigitsNoValue();
        DotAt("0", fraction, true);
        LeadZero(fraction);
        assert integer + fraction == fraction;
      } else if fraction == "" {
        DotAt(integer, "", false);
      } else {
        DotAt(integer, fraction, true);
      }
    }
  }

  lemma TextOfParts(n: nat, zeros: nat)
    requires zeros > 0
    ensures var (integer, fraction) := Parts(n, zeros);
      FromText(n, zeros) ==
        if integer == "" then "0" + "." + fraction else if fraction == "" then integer else integer + "." + fraction
  {
    hide Parts, Decimal;
    assert "0." == "0" + ".";
  }

  lemma PlainText(n: nat)
    ensures var s := FromText(n, 0);
      IsDecimalText(s) && FractionPart(s) == "" && Digits(s) == n
  {
    DotAt(Decimal(n), "", false);
    assert Decimal(n) + "" == Decimal(n);
  }

  lemma NoZeros(n: nat)
    ensures Pow(10, 0) == 1 && n * Pow(10, 0) == n
  {}

  lemma LeadZero(s: string)
    requires AllDigits(s)
    ensures AllDigits("0" + s) && Value("0" + s) == Value(s)
  {
    ValueConcat("0", s);
    assert Value("0") == 0 by { assert "0"[..0] == ""; }
  }

  lemma SplitValue(integer: string, fraction: string, zeros: nat)
    requires |fraction| <= zeros
    requires AllDigits(integer + (fraction + Zeros(zeros - |fraction|)))
    ensures AllDigits(integer) && AllDigits(fraction) && AllDigits(integer + fraction)
    ensures Value(integer + (fraction + Zeros(zeros - |fraction|)))
      == Value(integer + fraction) * Pow(10, zeros - |fraction|)
  {
    hide Value, Zeros, Pow;
    var z := Zeros(zeros - |fraction|);
    DigitsInside(integer, fraction, z);
    ValueOfZeros(zeros - |fraction|);
    ValueConcat(integer + fraction, z);
  }

  lemma DigitsInside(integer: string, fraction: string, z: string)
    requires AllDigits(integer + (fraction + z))
    ensures AllDigits(integer) && AllDigits(fraction) && AllDigits(integer + fraction)
    ensures integer + (fraction + z) == (integer + fraction) + z
  {
    var all := integer + (fraction + z);
    assert forall i | 0 <= i < |integer| :: integer[i] == all[i];
    assert forall i | 0 <= i < |fraction| :: fraction[i] == all[|integer| + i];
  }

  /** Where the point of printed text is. */
  lemma DotAt(integer: string, fraction: string, point: bool)
    requires AllDigits(integer) && AllDigits(fraction) && integer != "" && (!point ==> fraction == "")
    ensures var s := if point then integer + "." + fraction else integer;
      IsDecimalText(s) && IntegerPart(s) == integer && FractionPart(s) == fraction
  {
    var s := if point then integer + "." + fraction else integer;
    assert forall i | 0 <= i < |integer| :: s[i] == integer[i] && IsDigit(integer[i]);
    if point {
      assert s[|integer|] == '.';
      assert forall i | 0 <= i < |fraction| :: s[|integer| + 1 + i] == fraction[i];
      assert s[|integer| + 1..] == fraction;
    }
    assert s[..|integer|] == integer;
  }

  lemma {:induction false} ZeroHasNoFraction(zeros: nat)
    requires zeros > 0
    ensures PadStart("0", zeros, '0') == Zeros(zeros) && Trimmed(Zeros(zeros)) == 0
  {
    PadsZeros("0", zeros);
    TrimsZeros(zeros);
  }

  lemma {:induction false} PadsZeros(s: string, zeros: nat)
    requires |s| <= zeros && forall i | 0 <= i < |s| :: s[i] == '0'
    ensures PadStart(s, zeros, '0') == Zeros(zeros)
    decreases zeros - |s|
  {
    if |s| < zeros { PadsZeros(['0'] + s, zeros); }
  }

  lemma {:induction false} TrimsZeros(n: nat)
    ensures Trimmed(Zeros(n)) == 0
  {
    if n > 0 {
      TrimsZeros(n - 1);
      assert Zeros(n)[..n - 1] == Zeros(n - 1);
    }
  }

  /** Printing planck in a unit and reading it back gives the same number, for every natural number and every
      unit that is a power of ten. */
  lemma PlanckRoundTrip(n: nat, zeros: nat)
    ensures ToPlanck(FromText(n, zeros), TenTo(zeros)) == Ok(Decimal(n))
  {
    hide Decimal, Pow, PadStart, IsDecimalText, FromText, ToText, Digits, FractionPart;
    var s := FromText(n, zeros);
    FromTextParts(n, zeros);
    ToTextIs(s, zeros);
    ZeroIsOneDigit();
    if n == 0 {
      PowPositive(10, zeros);
      NoProduct(Digits(s), Pow(10, zeros));
    } else {
      SomeProduct(Digits(s), Pow(10, zeros - |FractionPart(s)|));
    }
  }

  lemma NoProduct(a: nat, b: nat)
    requires a * b == 0 && b > 0
    ensures a == 0
  {}

  lemma SomeProduct(a: nat, b: nat)
    requires a * b > 0
    ensures a > 0
  {}

  /** What is no decimal number is refused first: nothing, another character than a digit or a point, or a
      second point. Then the unit is looked at. */
  lemma ToPlanckRefuses(s: string, denomination: Denomination)
    ensures s == "" || (exists i | 0 <= i < |s| :: s[i] !in "0123456789.")
      || (exists i, j | 0 <= i < j < |s| :: s[i] == '.' && s[j] == '.')
      ==> ToPlanck(s, denomination) == Err(InvalidNumber)
    ensures IsDecimalText(s) && !denomination.TenTo? ==> ToPlanck(s, denomination) == Err(InvalidUnit)
  {}

  /** A zero with decimals comes back as empty text. */
  lemma ZeroWithDecimals()
    ensures ToPlanck("0.0", TenTo(3)) == Ok("")
  {
    assert "0" + "." + "0" == "0.0";
    DotAt("0", "0", true);
    ToTextIs("0.0", 3);
    LeadZero("0");
    assert Value("0") == 0 by { assert "0"[..0] == ""; }
  }

  lemma OneDigit(s: string)
    requires |s| == 1 && AllDigits(s)
    ensures Value(s) == DigitValue(s[0])
  {
    assert s[..0] == "";
  }

  lemma PowOne()
    ensures Pow(10, 1) == 10
  {}

  lemma TwoDigits(a: string, b: string)
    requires |a| == 1 && |b| == 1 && AllDigits(a) && AllDigits(b)
    ensures AllDigits(a + b) && Value(a + b) == 10 * DigitValue(a[0]) + DigitValue(b[0])
  {
    hide Pow;
    ValueConcat(a, b);
    OneDigit(a);
    OneDigit(b);
    PowOne();
  }

  lemma OnePointFive()
    ensures IsDecimalText("1.5") && FractionPart("1.5") == "5" && Digits("1.5") == 15
  {
    hide Value, IsDecimalText, IntegerPart, FractionPart;
    assert "1" + "." + "5" == "1.5";
    DotAt("1", "5", true);
    TwoDigits("1", "5");
  }

  /** A fraction longer than the unit's exponent is not scaled. */
  lemma LongFraction()
    ensures ToPlanck("1.5", TenTo(0)) == Ok(Decimal(15))
  {
    hide Decimal, Pow, Digits, ToText, IsDecimalText, FractionPart;
    OnePointFive();
    ToTextIs("1.5", 0);
  }

  /** What the printed text looks like: an integer part without superfluous zeros, and behind a point a fraction
      that does not end in a zero. Only nothing at all is printed with a point and no fraction. */
  lemma PrintedShape(n: nat, zeros: nat)
    ensures var s := FromText(n, zeros);
      && s != "" && s[0] != '.' && (|IntegerPart(s)| > 1 ==> s[0] != '0')
      && (FractionPart(s) != "" ==> s[|s| - 1] != '0')
      && (s[|s| - 1] == '.' <==> n == 0 && zeros > 0)
  {
    hide Decimal, Value, AllDigits, Pow, FromText, Parts, IsDecimalText, IntegerPart, FractionPart;
    if zeros == 0 {
      PlainShape(n);
    } else {
      var (integer, fraction) := Parts(n, zeros);
      PartsValue(n, zeros);
      TextOfParts(n, zeros);
      PartsShape(n, zeros);
      if integer == "" {
        NoDigitsNoValue();
        DotAt("0", fraction, true);
        LastOf("0" + ".", fraction);
        assert ("0" + ".")[0] == '0';
        if fraction != "" { LastIsDigit(fraction); }
      } else if fraction == "" {
        DotAt(integer, "", false);
        LastIsDigit(integer);
      } else {
        DotAt(integer, fraction, true);
        LastOf(integer + ".", fraction);
        LastIsDigit(integer);
        LastIsDigit(fraction);
        assert (integer + ".")[0] == integer[0];
      }
    }
  }

  lemma LastIsDigit(s: string)
    requires AllDigits(s) && s != ""
    ensures s[|s| - 1] != '.' && s[0] != '.'
  {
    assert IsDigit(s[|s| - 1]) && IsDigit(s[0]);
  }

  lemma LastOf(head: string, s: string)
    requires head != ""
    ensures (head + s)[0] == head[0]
    ensures (head + s)[|head + s| - 1] == if s == "" then head[|head| - 1] else s[|s| - 1]
  {}

  lemma PlainShape(n: nat)
    ensures var s := FromText(n, 0);
      && s != "" && s[0] != '.' && (|IntegerPart(s)| > 1 ==> s[0] != '0')
      && FractionPart(s) == "" && s[|s| - 1] != '.'
  {
    hide Decimal;
    DotAt(Decimal(n), "", false);
    LastIsDigit(Decimal(n));
  }

  lemma PartsShape(n: nat, zeros: nat)
    requires zeros > 0
    ensures var (integer, fraction) := Parts(n, zeros);
      && (integer != "" ==> integer[0] != '0')
      && (fraction != "" ==> fraction[|fraction| - 1] != '0')
      && (integer == "" && fraction == "" <==> n == 0)
  {
    hide Decimal, PadStart, Trimmed, Zeros, Pow, Value, AllDigits;
    var decimal := Decimal(n);
    PaddedHead(decimal, zeros);
    if n == 0 {
      ZeroIsOneDigit();
      ZeroParts(zeros);
    } else {
      SomeDigits(n, zeros);
    }
  }

  lemma PaddedHead(decimal: string, zeros: nat)
    requires Canonical(decimal) && zeros > 0
    ensures var padded := PadStart(decimal, zeros, '0');
      && (|decimal| <= zeros ==> padded[..|padded| - zeros] == "")
      && (|decimal| > zeros ==> padded[..|padded| - zeros] != "" && padded[0] != '0')
  {
    hide PadStart;
  }

  lemma SomeDigits(n: nat, zeros: nat)
    requires n > 0
    ensures Parts(n, zeros).0 + Parts(n, zeros).1 != ""
  {
    hide Parts, Pow;
    PartsValue(n, zeros);
  }
}
