/** ABI parameter types and their two printers. */
module ParamTypes {
  import opened Wrappers
  import opened Texts

  datatype ParamType = ParamType(name: Option<string>, typ: string, indexed: Option<bool>, components: Components)

  datatype Components = NoComponents | Components(list: seq<ParamType>)

  datatype Style = Sighash | Minimal | Full

  // ---------- Types ----------

  predicate OneToNine(c: char) { '1' <= c <= '9' }

  /** `uint` and `int` without a width stand for the widest type. */
  function VerifyType(t: string): string {
    if StartsWith(t, "uint") && (|t| == 4 || !OneToNine(t[4])) then "uint512" + t[4..]
    else if StartsWith(t, "int") && (|t| == 3 || !OneToNine(t[3])) then "int512" + t[3..]
    else t
  }

  predicate LineBreak(c: char) { c in "\n\r\U{2028}\U{2029}" }

  /** Length of the longest suffix of digits. */
  function DigitSuffix(t: string): (n: nat)
    ensures n <= |t| && AllDigits(t[|t| - n..]) && (n < |t| ==> !IsDigit(t[|t| - n - 1]))
  {
    if |t| == 0 || !IsDigit(t[|t| - 1]) then 0
    else
      var n := DigitSuffix(t[..|t| - 1]);
      OneMoreDigit(t, n);
      n + 1
  }

  lemma OneMoreDigit(t: string, n: nat)
    requires n < |t| && IsDigit(t[|t| - 1]) && AllDigits(t[..|t| - 1][|t| - 1 - n..])
    ensures AllDigits(t[|t| - n - 1..])
  {
    hide IsDigit;
    var a, b := t[|t| - n - 1..], t[..|t| - 1][|t| - 1 - n..];
    assert forall i | 0 <= i < n :: a[i] == b[i];
    assert a[n] == t[|t| - 1];
  }

  /** The last pair of brackets, if the text ends with one: what precedes it and the digits inside. */
  function ArrayMatch(t: string): (m: Option<(string, string)>)
    ensures m.Some? ==> t == m.value.0 + "[" + m.value.1 + "]" && AllDigits(m.value.1)
  {
    if |t| == 0 || t[|t| - 1] != ']' then None
    else
      var front := t[..|t| - 1];
      var n := DigitSuffix(front);
      if n == |front| || front[|front| - n - 1] != '[' || exists c <- front[..|front| - n - 1] :: LineBreak(c) then None
      else Some((front[..|front| - n - 1], front[|front| - n..]))
  }

  lemma DigitSuffixIs(head: string, digits: string)
    requires AllDigits(digits) && (head == [] || !IsDigit(head[|head| - 1]))
    ensures DigitSuffix(head + digits) == |digits|
  {
    hide DigitSuffix, IsDigit;
    var t := head + digits;
    var n := DigitSuffix(t);
    assert forall i | |head| <= i < |t| :: t[i] == digits[i - |head|];
    assert forall i | |t| - n <= i < |t| :: t[i] == t[|t| - n..][i - (|t| - n)];
    assert head != [] ==> t[|head| - 1] == head[|head| - 1];
  }

  lemma ArrayMatchIs(head: string, digits: string)
    requires AllDigits(digits) && forall c <- head :: !LineBreak(c)
    ensures ArrayMatch(head + "[" + digits + "]") == Some((head, digits))
  {
    var t := head + "[" + digits + "]";
    var front := t[..|t| - 1];
    assert front == (head + "[") + digits;
    DigitSuffixIs(head + "[", digits);
    assert front[..|front| - |digits| - 1] == head;
  }

  /** What is left of a type when all its array suffixes are peeled off, and the suffixes, innermost first. */
  function Base(t: string): (b: string)
    ensures |b| <= |t|
    decreases |t|
  {
    var m := ArrayMatch(t);
    if m.None? then t else Base(m.value.0)
  }

  function Dims(t: string): (d: seq<string>)
    ensures forall i | 0 <= i < |d| :: AllDigits(d[i])
    decreases |t|
  {
    var m := ArrayMatch(t);
    if m.None? then [] else Dims(m.value.0) + [m.value.1]
  }

  function Brackets(dims: seq<string>): string {
    if |dims| == 0 then "" else "[" + dims[0] + "]" + Brackets(dims[1..])
  }

  lemma {:induction false} BracketsSnoc(dims: seq<string>, d: string)
    ensures Brackets(dims + [d]) == Brackets(dims) + "[" + d + "]"
  {
    if dims == [] {
      assert [d][1..] == [];
    } else {
      assert (dims + [d])[1..] == dims[1..] + [d];
      BracketsSnoc(dims[1..], d);
    }
  }

  lemma {:induction false} TypeIsBaseAndBrackets(t: string)
    ensures t == Base(t) + Brackets(Dims(t))
    decreases |t|
  {
    hide ArrayMatch, Brackets;
    var m := ArrayMatch(t);
    if m.None? {
      NoBrackets();
      assert t + "" == t;
    } else {
      TypeIsBaseAndBrackets(m.value.0);
      BracketsSnoc(Dims(m.value.0), m.value.1);
    }
  }

  // ---------- The first printer ----------

  predicate IsArray(p: ParamType) { ArrayMatch(p.typ).Some? }

  /** -1 for a dynamic length. */
  function ArrayLength(p: ParamType): int
    requires IsArray(p)
  {
    var digits := ArrayMatch(p.typ).value.1;
    if digits == "" then -1 else Value(digits)
  }

  function ArrayChildren(p: ParamType): ParamType
    requires IsArray(p)
  {
    ParamType(None, VerifyType(ArrayMatch(p.typ).value.0), None, p.components)
  }

  function LengthText(length: int): string { if length < 0 then "" else Decimal(length) }

  function IndexedText(p: ParamType): string { if p.indexed == Some(true) then " indexed" else "" }

  function Tail(p: ParamType, style: Style): string {
    if style == Sighash then ""
    else IndexedText(p) + (if style == Full && p.name.Some? && p.name.value != "" then " " + p.name.value else "")
  }

  /** `arrayChildren` re-verifies its type, which can lengthen it once; a type that is stable peels. */
  predicate Stable(t: string) { VerifyType(t) == t }

  lemma StablePeels(t: string)
    requires Stable(t) && ArrayMatch(t).Some?
    ensures Stable(ArrayMatch(t).value.0)
  {
    var head := ArrayMatch(t).value.0;
    assert t[..|head|] == head;
    assert |head| < |t| && t[|head|] == '[';
    if StartsWith(head, "uint") {
      assert t[..4] == head[..4] && (|head| > 4 ==> t[4] == head[4]);
      assert "uint512"[4] == '5';
    } else if StartsWith(head, "int") {
      assert t[..3] == head[..3] && (|head| > 3 ==> t[3] == head[3]);
      assert "int512"[3] == '5';
    }
  }

  /** `format`, for the three text styles. */
  function Format(p: ParamType, style: Style): string
    requires WellTyped(p)
    decreases p.components, |p.typ|
  {
    var m := ArrayMatch(p.typ);
    var body :=
      if m.Some? then
        StablePeels(p.typ);
        Format(ArrayChildren(p), style) + "[" + LengthText(ArrayLength(p)) + "]"
      else if p.components.Components? then
        (if style != Sighash then p.typ else "")
        + "(" + Join(Formats(p.components.list, style), Separator(style)) + ")"
      else p.typ;
    body + Tail(p, style)
  }

  function Separator(style: Style): string { if style == Full then ", " else "," }

  function Formats(list: seq<ParamType>, style: Style): (texts: seq<string>)
    requires forall i | 0 <= i < |list| :: WellTyped(list[i])
    ensures |texts| == |list| && forall i | 0 <= i < |list| :: texts[i] == Format(list[i], style)
    decreases list
  {
    if |list| == 0 then [] else [Format(list[0], style)] + Formats(list[1..], style)
  }

  /** Every parameter type the source can construct has been through `verifyType`, at every depth. */
  predicate WellTyped(p: ParamType)
    decreases p
  {
    Stable(p.typ)
      && (p.components.Components? ==> forall i | 0 <= i < |p.components.list| :: WellTyped(p.components.list[i]))
  }

  function Reprint(digits: string): string
    requires AllDigits(digits)
  {
    if digits == "" then "" else Decimal(Value(digits))
  }

  function ReprintAll(dims: seq<string>): (r: seq<string>)
    requires forall i | 0 <= i < |dims| :: AllDigits(dims[i])
    ensures |r| == |dims| && forall i | 0 <= i < |dims| :: r[i] == Reprint(dims[i])
  {
    hide Reprint, AllDigits;
    if |dims| == 0 then [] else [Reprint(dims[0])] + ReprintAll(dims[1..])
  }

  /** A type without its array suffixes, printed with its components. */
  function Stem(p: ParamType, style: Style): string
    requires WellTyped(p)
  {
    if p.components.Components? then
      (if style != Sighash then Base(p.typ) else "")
      + "(" + Join(Formats(p.components.list, style), Separator(style)) + ")"
    else Base(p.typ)
  }

  lemma FormatStem(p: ParamType, style: Style)
    requires WellTyped(p) && !IsArray(p)
    ensures Format(p, style) == Stem(p, style) + Tail(p, style)
  {}

  lemma LengthPrints(p: ParamType)
    requires IsArray(p)
    ensures LengthText(ArrayLength(p)) == Reprint(ArrayMatch(p.typ).value.1)
  {}

  lemma ChildOf(p: ParamType, style: Style)
    requires WellTyped(p) && IsArray(p)
    ensures var child := ArrayChildren(p);
      && WellTyped(child) && child.typ == ArrayMatch(p.typ).value.0 && |child.typ| < |p.typ|
      && Base(child.typ) == Base(p.typ) && child.components == p.components && Tail(child, style) == ""
  {
    StablePeels(p.typ);
  }

  lemma FormatPeels(p: ParamType, style: Style)
    requires WellTyped(p) && IsArray(p) && WellTyped(ArrayChildren(p))
    ensures Format(p, style) == Format(ArrayChildren(p), style) + ("[" + LengthText(ArrayLength(p)) + "]")
      + Tail(p, style)
  {
    hide ArrayMatch, VerifyType, Formats, LengthText, Join, Tail, ArrayLength, ArrayChildren, WellTyped;
  }

  lemma SameStem(p: ParamType, q: ParamType, style: Style)
    requires WellTyped(p) && WellTyped(q) && Base(p.typ) == Base(q.typ) && p.components == q.components
    ensures Stem(p, style) == Stem(q, style)
  {
    hide Formats, Join, VerifyType, Base;
  }

  lemma DimsPeel(t: string)
    requires ArrayMatch(t).Some?
    ensures var (head, digits) := ArrayMatch(t).value;
      Brackets(ReprintAll(Dims(t))) == Brackets(ReprintAll(Dims(head))) + ("[" + Reprint(digits) + "]")
  {
    hide ArrayMatch, Reprint, Brackets;
    var (head, digits) := ArrayMatch(t).value;
    assert ReprintAll(Dims(t)) == ReprintAll(Dims(head)) + [Reprint(digits)];
    BracketsSnoc(ReprintAll(Dims(head)), Reprint(digits));
  }

  lemma NoBrackets()
    ensures Brackets([]) == ""
  {}

  /** Peeling the last bracket recursively prints the stem, every length from the innermost out, and the tail. */
  lemma {:induction false} FormatShape(p: ParamType, style: Style)
    requires WellTyped(p)
    ensures Format(p, style) == Stem(p, style) + Brackets(ReprintAll(Dims(p.typ))) + Tail(p, style)
    decreases |p.typ|
  {
    hide Format, Stem, Tail, Brackets, ArrayMatch, VerifyType, Reprint, WellTyped;
    if IsArray(p) {
      ChildOf(p, style);
      FormatPeels(p, style);
      LengthPrints(p);
      DimsPeel(p.typ);
      SameStem(p, ArrayChildren(p), style);
      FormatShape(ArrayChildren(p), style);
    } else {
      FormatStem(p, style);
      NoBrackets();
    }
  }

  // ---------- The second printer ----------

  datatype AbiError = ComponentsWithoutTuple(typ: string)

  function FirstBracket(t: string): (k: nat)
    ensures k <= |t| && (k < |t| ==> t[k] == '[') && forall i | 0 <= i < k :: t[i] != '['
  {
    if |t| == 0 || t[0] == '[' then 0 else 1 + FirstBracket(t[1..])
  }

  /** One parameter as `flattenTypes(false, …)` prints it. */
  function Flatten(p: ParamType): Result<string, AbiError>
    decreases p
  {
    if p.components.NoComponents? then Ok(p.typ)
    else if !StartsWith(p.typ, "tuple") then Err(ComponentsWithoutTuple(p.typ))
    else
      var parts := FlattenAll(p.components.list);
      if parts.Err? then Err(parts.error)
      else Ok("(" + Join(parts.value, ",") + ")" + p.typ[FirstBracket(p.typ)..])
  }

  function FlattenAll(list: seq<ParamType>): (r: Result<seq<string>, AbiError>)
    ensures r.Ok? ==> |r.value| == |list| && forall i | 0 <= i < |list| :: Flatten(list[i]) == Ok(r.value[i])
    decreases list
  {
    if |list| == 0 then Ok([])
    else
      var first := Flatten(list[0]);
      if first.Err? then Err(first.error) else
      var rest := FlattenAll(list[1..]);
      if rest.Err? then Err(rest.error) else Ok([first.value] + rest.value)
  }

  /** Texts already pushed, followed by those still to come. */
  function Pushed(types: seq<string>, rest: Result<seq<string>, AbiError>): Result<seq<string>, AbiError> {
    if rest.Err? then rest else Ok(types + rest.value)
  }

  lemma PushNext(types: seq<string>, puts: seq<ParamType>, i: nat)
    requires i < |puts|
    ensures Pushed(types, FlattenAll(puts[i..])) ==
      if Flatten(puts[i]).Err? then Err(Flatten(puts[i]).error)
      else Pushed(types + [Flatten(puts[i]).value], FlattenAll(puts[i + 1..]))
  {
    hide Flatten;
    assert puts[i..][0] == puts[i] && puts[i..][1..] == puts[i + 1..];
    var text, rest := Flatten(puts[i]), FlattenAll(puts[i + 1..]);
    if text.Ok? && rest.Ok? { assert types + ([text.value] + rest.value) == (types + [text.value]) + rest.value; }
  }

  lemma PushEnds(types: seq<string>, puts: seq<ParamType>, i: nat)
    requires i <= |puts|
    ensures i == |puts| ==> Pushed(types, FlattenAll(puts[i..])) == Ok(types)
    ensures i == 0 ==> Pushed([], FlattenAll(puts[i..])) == FlattenAll(puts)
  {
    assert puts[0..] == puts && types + [] == types;
    if FlattenAll(puts).Ok? { assert [] + FlattenAll(puts).value == FlattenAll(puts).value; }
  }

  /** The loop of `flattenTypes`: each parameter's text is pushed, or the first bad one throws. */
  method FlattenTypes(puts: seq<ParamType>) returns (r: Result<seq<string>, AbiError>)
    ensures r == FlattenAll(puts)
  {
    hide Flatten, FlattenAll, Pushed;
    var types: seq<string> := [];
    var i := 0;
    PushEnds(types, puts, i);
    while i < |puts|
      invariant i <= |puts|
      invariant Pushed(types, FlattenAll(puts[i..])) == FlattenAll(puts)
    {
      PushNext(types, puts, i);
      var text := Flatten(puts[i]);
      if text.Err? { return Err(text.error); }
      types := types + [text.value];
      i := i + 1;
    }
    PushEnds(types, puts, i);
    return Ok(types);
  }
}
