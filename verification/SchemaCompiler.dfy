/** ABI types compiled to a validation schema, the schema's meaning, and the proof that the two agree. */
module SchemaCompiler {
  import opened Wrappers
  import opened Texts
  import opened ParamTypes

  // ---------- Type text ----------

  const BASE_TYPES := ["bool", "int", "uint", "bytes", "string", "address", "tuple"]

  const EXTRA_TYPES := ["hex", "number", "blockNumber", "blockNumberOrTag", "filter", "bloom", "qrlTypedData"]

  /** A `number` that may be missing, or `NaN`. */
  datatype Size = NoSize | NotANumber | Number(n: int)

  /** `replace(/ /, '')`: only the first space goes. */
  function DropFirstSpace(s: string): string {
    if |s| == 0 then "" else if s[0] == ' ' then s[1..] else [s[0]] + DropFirstSpace(s[1..])
  }

  function SkipSpace(s: string): string {
    if |s| > 0 && IsSpace(s[0]) then SkipSpace(s[1..]) else s
  }

  /** `parseInt(s, 10)`: leading white space, a sign, and as many digits as there are. */
  function ParseInt(s: string): (size: Size)
    ensures !size.NoSize?
  {
    var t := SkipSpace(s);
    var signed := |t| > 0 && (t[0] == '-' || t[0] == '+');
    var u := if signed then t[1..] else t;
    var n := DigitPrefix(u);
    if n == 0 then NotANumber
    else Number(if signed && t[0] == '-' then 0 - Value(u[..n]) else Value(u[..n]))
  }

  /** All matches of `\[(\d*)\]`, from left to right; an empty size counts as -1. */
  function ArraySizes(s: string): seq<int>
    decreases |s|
  {
    if |s| == 0 then []
    else if s[0] == '[' then
      var n := DigitPrefix(s[1..]);
      if n + 1 < |s| && s[n + 1] == ']' then
        [if n == 0 then -1 else Value(s[1..][..n])] + ArraySizes(s[n + 2..])
      else ArraySizes(s[1..])
    else ArraySizes(s[1..])
  }

  datatype Parsed = Parsed(base: Option<string>, size: Size, sizes: seq<int>, isArray: bool)

  function ParseBaseType(typ: string): (p: Parsed)
    ensures p.isArray ==> p.base.Some? && p.base.value in BASE_TYPES
  {
    var plain := DropFirstSpace(typ);
    var stripped := if '[' in typ then plain[..FirstBracket(plain)] else plain;
    var sizes := if '[' in typ then ArraySizes(typ) else [];
    ParseWord(stripped, sizes)
  }

  /** A type word without its array suffix: a base type, or a base type with a size behind it. */
  function ParseWord(word: string, sizes: seq<int>): (p: Parsed)
    ensures p.isArray ==> p.base.Some? && p.base.value in BASE_TYPES
  {
    if word in BASE_TYPES then Parsed(Some(word), NoSize, sizes, sizes != [])
    else if StartsWith(word, "int") then Parsed(Some("int"), ParseInt(word[3..]), sizes, sizes != [])
    else if StartsWith(word, "uint") then Parsed(Some("uint"), ParseInt(word[4..]), sizes, sizes != [])
    else if StartsWith(word, "bytes") then Parsed(Some("bytes"), ParseInt(word[5..]), sizes, sizes != [])
    else Parsed(None, NoSize, sizes, false)
  }

  datatype SchemaError = UnsupportedSize | UnknownType | TupleWithoutComponents

  predicate SupportedSize(base: Option<string>, size: Size) {
    size.Number? ==>
      && ((base == Some("int") || base == Some("uint")) ==> 0 < size.n <= 512 && size.n % 8 == 0)
      && (base == Some("bytes") ==> 0 < size.n <= 64)
  }

  function SizeText(size: Size): string {
    match size
    case NoSize => ""
    case NotANumber => "NaN"
    case Number(n) => if n < 0 then "-" + Decimal(-n) else Decimal(n)
  }

  /** `convertEthType`: the name of the format that checks a leaf. */
  function ConvertEthType(typ: string): Result<string, SchemaError> {
    var p := ParseBaseType(typ);
    if !SupportedSize(p.base, p.size) then Err(UnsupportedSize)
    else if p.base == Some("tuple") then Err(TupleWithoutComponents)
    else if p.base.Some? then Ok(p.base.value + SizeText(p.size))
    else if typ in EXTRA_TYPES then Ok(typ)
    else Err(UnknownType)
  }

  // ---------- Types and schemas ----------

  /** One entry of a type list: an ABI parameter without or with components, a short string, or an array. */
  datatype Abi =
    | Plain(typ: string) | Struct(typ: string, components: seq<Abi>)
    | Short(typ: string) | Group(list: seq<Abi>)

  datatype Schema = TupleOf(items: seq<Schema>) | ArrayOf(item: Schema, size: int) | Format(name: string)

  function Depth(abi: Abi): nat
    decreases abi
  {
    match abi
    case Plain(_) => 0
    case Struct(_, components) => 1 + DepthAll(components)
    case Short(_) => 1
    case Group(list) => 1 + DepthAll(list)
  }

  function DepthAll(list: seq<Abi>): (d: nat)
    ensures forall i | 0 <= i < |list| :: Depth(list[i]) <= d
    decreases list
  {
    if |list| == 0 then 0
    else
      var first, rest := Depth(list[0]), DepthAll(list[1..]);
      if first > rest then first else rest
  }

  /** The type text of an entry and its components; None when there are none to look at. */
  function TypeOf(abi: Abi): (r: (string, Option<seq<Abi>>))
    ensures r.1.Some? ==> DepthAll(r.1.value) < Depth(abi)
  {
    match abi
    case Plain(typ) => (typ, None)
    case Struct(typ, components) => (typ, Some(components))
    case Short(typ) => (typ, Some([]))
    case Group(list) =>
      if |list| > 1 && list[0].Short? && StartsWith(list[0].typ, "tuple") && list[1].Group? then
        (list[0].typ, Some(list[1].list))
      else ("tuple", Some(list))
  }

  /** One array type around the element for every declared size, the first size innermost. */
  function Wrap(element: Schema, sizes: seq<int>): Schema
    decreases |sizes|
  {
    if |sizes| == 0 then element else ArrayOf(Wrap(element, sizes[..|sizes| - 1]), sizes[|sizes| - 1])
  }

  function Compile(abi: Abi): Result<Schema, SchemaError>
    decreases Depth(abi), 0, 0
  {
    var (typ, components) := TypeOf(abi);
    var p := ParseBaseType(typ);
    var element :=
      if p.base == Some("tuple") then
        (if components.None? then Err(TupleWithoutComponents)
         else
           var items := CompileAll(components.value);
           if items.Err? then Err(items.error) else Ok(TupleOf(items.value)))
      else
        var format := ConvertEthType(if p.isArray then p.base.value else typ);
        if format.Err? then Err(format.error) else Ok(Format(format.value));
    if element.Err? || !p.isArray then element else Ok(Wrap(element.value, p.sizes))
  }

  function CompileAll(abis: seq<Abi>): (r: Result<seq<Schema>, SchemaError>)
    ensures r.Ok? ==> |r.value| == |abis| && forall i | 0 <= i < |abis| :: Compile(abis[i]) == Ok(r.value[i])
    decreases DepthAll(abis), 1, |abis|
  {
    if |abis| == 0 then Ok([])
    else
      var first := Compile(abis[0]);
      if first.Err? then Err(first.error) else
      var rest := CompileAll(abis[1..]);
      if rest.Err? then Err(rest.error) else Ok([first.value] + rest.value)
  }

  /** `abiSchemaToJsonSchema`: the loop over the entries, with the loop that wraps array sizes inside it. */
  method AbiSchemaToJsonSchema(abis: seq<Abi>) returns (r: Result<Schema, SchemaError>)
    ensures r == match CompileAll(abis) case Ok(items) => Ok(TupleOf(items)) case Err(e) => Err(e)
    decreases DepthAll(abis)
  {
    hide ParseBaseType, ConvertEthType, Wrap, After, CompileAll, Depth, DepthAll, TypeOf;
    var items: seq<Schema> := [];
    var i := 0;
    CompileFrom(abis, 0, items);
    while i < |abis|
      invariant i <= |abis|
      invariant CompileAll(abis) == After(items, CompileAll(abis[i..]))
    {
      CompileFrom(abis, i, items);
      var (typ, components) := TypeOf(abis[i]);
      var p := ParseBaseType(typ);
      var element: Schema;
      if p.base == Some("tuple") {
        if components.None? { return Err(TupleWithoutComponents); }
        var tuple := AbiSchemaToJsonSchema(components.value);
        if tuple.Err? { return tuple; }
        element := tuple.value;
      } else {
        var format := ConvertEthType(if p.isArray then p.base.value else typ);
        if format.Err? { return Err(format.error); }
        element := Format(format.value);
      }
      if p.isArray {
        element := WrapSizes(element, p.sizes);
      }
      items := items + [element];
      i := i + 1;
    }
    CompileEnd(abis, i, items);
    return Ok(TupleOf(items));
  }

  method WrapSizes(element: Schema, sizes: seq<int>) returns (schema: Schema)
    ensures schema == Wrap(element, sizes)
  {
    schema := element;
    for i := 0 to |sizes|
      invariant schema == Wrap(element, sizes[..i])
    {
      assert sizes[..i + 1][..i] == sizes[..i];
      schema := ArrayOf(schema, sizes[i]);
    }
    assert sizes[..|sizes|] == sizes;
  }

  function After(items: seq<Schema>, rest: Result<seq<Schema>, SchemaError>): Result<seq<Schema>, SchemaError> {
    if rest.Err? then rest else Ok(items + rest.value)
  }

  lemma CompileFrom(abis: seq<Abi>, i: nat, items: seq<Schema>)
    requires i <= |abis|
    ensures i == 0 ==> CompileAll(abis) == After([], CompileAll(abis[i..]))
    ensures i < |abis| && Compile(abis[i]).Err? ==> After(items, CompileAll(abis[i..])) == Err(Compile(abis[i]).error)
    ensures i < |abis| && Compile(abis[i]).Ok? ==>
      After(items, CompileAll(abis[i..])) == After(items + [Compile(abis[i]).value], CompileAll(abis[i + 1..]))
    ensures i < |abis| ==> Depth(abis[i]) <= DepthAll(abis)
  {
    hide Compile;
    assert abis[0..] == abis;
    if i == 0 && CompileAll(abis).Ok? { assert [] + CompileAll(abis).value == CompileAll(abis).value; }
    if i < |abis| {
      assert abis[i..][0] == abis[i] && abis[i..][1..] == abis[i + 1..];
      var rest := CompileAll(abis[i + 1..]);
      if Compile(abis[i]).Ok? && rest.Ok? {
        assert items + ([Compile(abis[i]).value] + rest.value) == (items + [Compile(abis[i]).value]) + rest.value;
      }
    }
  }

  lemma CompileEnd(abis: seq<Abi>, i: nat, items: seq<Schema>)
    requires i == |abis|
    ensures After(items, CompileAll(abis[i..])) == Ok(items)
  {
    assert items + [] == items;
  }

  // ---------- What a schema accepts ----------

  /** A value to validate: a list, or anything else. */
  datatype Json<A> = Atom(a: A) | List(items: seq<Json<A>>)

  /** The meaning `convertToZod` gives a schema; `ok` is the table of format checks. Without items a tuple
      schema is an array of length zero. */
  predicate Accepts<A>(schema: Schema, v: Json<A>, ok: (string, Json<A>) -> bool)
    decreases schema
  {
    match schema
    case TupleOf(items) => v.List? && |v.items| == |items|
      && forall i | 0 <= i < |items| :: Accepts(items[i], v.items[i], ok)
    case ArrayOf(item, size) => v.List? && (size >= 0 ==> |v.items| == size)
      && forall i | 0 <= i < |v.items| :: Accepts(item, v.items[i], ok)
    case Format(name) => ok(name, v)
  }

  // ---------- What a type means ----------

  /** The elements of a value of array shape, the rightmost declared size outermost; None if the value does
      not have that shape. */
  function Elements<A>(sizes: seq<int>, v: Json<A>): Option<seq<Json<A>>>
    decreases |sizes|, 0
  {
    if |sizes| == 0 then Some([v])
    else
      var size := sizes[|sizes| - 1];
      if v.Atom? || (size >= 0 && |v.items| != size) then None
      else ElementsOf(sizes[..|sizes| - 1], v.items)
  }

  function ElementsOf<A>(sizes: seq<int>, vs: seq<Json<A>>): Option<seq<Json<A>>>
    decreases |sizes|, 1 + |vs|
  {
    if |vs| == 0 then Some([])
    else
      var first, rest := Elements(sizes, vs[0]), ElementsOf(sizes, vs[1..]);
      if first.None? || rest.None? then None else Some(first.value + rest.value)
  }

  function Sizes(p: Parsed): seq<int> { if p.isArray then p.sizes else [] }

  /** A value has the shape of a type: tuples position by position, arrays by their declared sizes, leaves by
      their format, which is the sized one outside arrays and the unsized one inside. */
  predicate Matches<A>(abi: Abi, v: Json<A>, ok: (string, Json<A>) -> bool)
    decreases Depth(abi), 0
  {
    var (typ, components) := TypeOf(abi);
    var p := ParseBaseType(typ);
    var elements := Elements(Sizes(p), v);
    && elements.Some?
    && forall i | 0 <= i < |elements.value| ::
         if p.base == Some("tuple") then components.Some? && MatchesAll(components.value, elements.value[i], ok)
         else if p.isArray then ok(p.base.value, elements.value[i])
         else ok(if p.base.Some? then p.base.value + SizeText(p.size) else typ, elements.value[i])
  }

  predicate MatchesAll<A>(abis: seq<Abi>, v: Json<A>, ok: (string, Json<A>) -> bool)
    decreases DepthAll(abis), 1
  {
    v.List? && |v.items| == |abis| && forall i | 0 <= i < |abis| :: Matches(abis[i], v.items[i], ok)
  }

  lemma {:induction false} WrapAccepts<A>(element: Schema, sizes: seq<int>, v: Json<A>, ok: (string, Json<A>) -> bool)
    ensures Accepts(Wrap(element, sizes), v, ok) <==>
      Elements(sizes, v).Some?
        && forall i | 0 <= i < |Elements(sizes, v).value| :: Accepts(element, Elements(sizes, v).value[i], ok)
    decreases |sizes|, 0
  {
    if sizes != [] && v.List? {
      var inner, size := sizes[..|sizes| - 1], sizes[|sizes| - 1];
      WrapAcceptsAll(element, inner, v.items, ok);
      assert Wrap(element, sizes) == ArrayOf(Wrap(element, inner), size);
      assert Elements(sizes, v) == if size >= 0 && |v.items| != size then None else ElementsOf(inner, v.items);
    } else if sizes == [] {
      assert Wrap(element, sizes) == element && Elements(sizes, v) == Some([v]);
      assert [v][0] == v;
    } else {
      assert Wrap(element, sizes).ArrayOf? && Elements(sizes, v).None?;
    }
  }

  lemma {:induction false} WrapAcceptsAll<A>(element: Schema, sizes: seq<int>, vs: seq<Json<A>>,
      ok: (string, Json<A>) -> bool)
    ensures (forall i | 0 <= i < |vs| :: Accepts(Wrap(element, sizes), vs[i], ok)) <==>
      ElementsOf(sizes, vs).Some?
        && forall i | 0 <= i < |ElementsOf(sizes, vs).value| :: Accepts(element, ElementsOf(sizes, vs).value[i], ok)
    decreases |sizes|, 1 + |vs|
  {
    if vs != [] {
      WrapAccepts(element, sizes, vs[0], ok);
      WrapAcceptsAll(element, sizes, vs[1..], ok);
      var first, rest := Elements(sizes, vs[0]), ElementsOf(sizes, vs[1..]);
      assert (forall i | 0 <= i < |vs| :: Accepts(Wrap(element, sizes), vs[i], ok)) <==>
        Accepts(Wrap(element, sizes), vs[0], ok)
          && forall i | 0 <= i < |vs[1..]| :: Accepts(Wrap(element, sizes), vs[1..][i], ok) by {
        assert forall i | 0 < i < |vs| :: vs[i] == vs[1..][i - 1];
      }
      if first.Some? && rest.Some? {
        var all := first.value + rest.value;
        assert forall i | 0 <= i < |rest.value| :: rest.value[i] == all[|first.value| + i];
        assert forall i | 0 <= i < |first.value| :: first.value[i] == all[i];
      }
    }
  }

  /** Compiling preserves meaning: the schema of an entry accepts exactly the values of the entry's shape. */
  lemma {:induction false} CompilePreservesMeaning<A>(abi: Abi, v: Json<A>, ok: (string, Json<A>) -> bool)
    requires Compile(abi).Ok?
    ensures Accepts(Compile(abi).value, v, ok) <==> Matches(abi, v, ok)
    decreases Depth(abi), 0
  {
    hide ParseBaseType, ConvertEthType, Wrap, Elements, TypeOf;
    var (typ, components) := TypeOf(abi);
    var p := ParseBaseType(typ);
    var sizes := Sizes(p);
    NoSizes<A>(v);
    if p.base == Some("tuple") {
      var items := CompileAll(components.value).value;
      if p.isArray { WrapAccepts(TupleOf(items), sizes, v, ok); } else { assert [v][0] == v; }
      if Elements(sizes, v).Some? {
        var vs := Elements(sizes, v).value;
        forall i | 0 <= i < |vs|
          ensures Accepts(TupleOf(items), vs[i], ok) <==> MatchesAll(components.value, vs[i], ok) {
          ListPreservesMeaning(components.value, vs[i], ok);
        }
      }
    } else {
      LeafFormat(typ);
      var name := ConvertEthType(if p.isArray then p.base.value else typ).value;
      if p.isArray {
        WrapAccepts(Format(name), sizes, v, ok);
        assert Compile(abi).value == Wrap(Format(name), sizes);
        assert name == p.base.value;
      } else {
        assert Compile(abi).value == Format(name);
        assert Elements(sizes, v) == Some([v]) && [v][0] == v;
      }
    }
  }

  lemma NoSizes<A>(v: Json<A>)
    ensures Elements([], v) == Some([v])
  {}

  /** The format of a leaf: sized outside arrays, unsized inside. */
  lemma LeafFormat(typ: string)
    requires ParseBaseType(typ).base != Some("tuple")
    ensures var p := ParseBaseType(typ);
      && (p.isArray ==> p.base.Some? && ConvertEthType(p.base.value) == Ok(p.base.value))
      && (ConvertEthType(typ).Ok?
        ==> ConvertEthType(typ).value == if p.base.Some? then p.base.value + SizeText(p.size) else typ)
  {
    var p := ParseBaseType(typ);
    if p.isArray { BareType(p.base.value); }
  }

  lemma {:induction false} ListPreservesMeaning<A>(abis: seq<Abi>, v: Json<A>, ok: (string, Json<A>) -> bool)
    requires CompileAll(abis).Ok?
    ensures Accepts(TupleOf(CompileAll(abis).value), v, ok) <==> MatchesAll(abis, v, ok)
    decreases DepthAll(abis), 1
  {
    if v.List? && |v.items| == |abis| {
      forall i | 0 <= i < |abis|
        ensures Accepts(CompileAll(abis).value[i], v.items[i], ok) <==> Matches(abis[i], v.items[i], ok) {
        CompilePreservesMeaning(abis[i], v.items[i], ok);
      }
    }
  }

  lemma {:induction false} NothingDropped(s: string)
    requires ' ' !in s
    ensures DropFirstSpace(s) == s
    decreases |s|
  {
    if s != "" {
      assert forall c <- s[1..] :: c in s;
      NothingDropped(s[1..]);
    }
  }

  /** A base type on its own is its own format. */
  lemma BareType(base: string)
    requires base in BASE_TYPES && base != "tuple"
    ensures ConvertEthType(base) == Ok(base)
  {
    WordsOnly(base);
    NothingDropped(base);
    assert base + "" == base;
  }

  lemma WordsOnly(base: string)
    requires base in BASE_TYPES
    ensures ' ' !in base && '[' !in base
  {
    assert base == "bool" || base == "int" || base == "uint" || base == "bytes" || base == "string" || base == "address"
      || base == "tuple";
  }

  // ---------- Reading type text ----------

  function DimValue(digits: string): int
    requires AllDigits(digits)
  {
    if digits == "" then -1 else Value(digits)
  }

  function DimValues(dims: seq<string>): seq<int>
    requires forall i | 0 <= i < |dims| :: AllDigits(dims[i])
  {
    if |dims| == 0 then [] else [DimValue(dims[0])] + DimValues(dims[1..])
  }

  /** The sizes found in `[a][b]…` are the declared ones, in the declared order. */
  lemma {:induction false} SizesOfBrackets(dims: seq<string>)
    requires forall i | 0 <= i < |dims| :: AllDigits(dims[i])
    ensures ArraySizes(Brackets(dims)) == DimValues(dims)
    decreases |dims|
  {
    if dims != [] {
      var s, rest := Brackets(dims), Brackets(dims[1..]);
      assert s[1..] == dims[0] + ("]" + rest);
      DigitPrefixIs(dims[0], "]" + rest);
      assert s[|dims[0]| + 1] == s[1..][|dims[0]|] == ']';
      assert s[|dims[0]| + 2..] == rest;
      SizesOfBrackets(dims[1..]);
    }
  }

  lemma {:induction false} SizesBehindWord(word: string, s: string)
    requires '[' !in word
    ensures ArraySizes(word + s) == ArraySizes(s)
    decreases |word|
  {
    if word == "" {
      assert word + s == s;
    } else {
      assert (word + s)[1..] == word[1..] + s && word[0] in word;
      assert forall c <- word[1..] :: c in word;
      SizesBehindWord(word[1..], s);
    }
  }

  lemma {:induction false} BracketsAreClear(dims: seq<string>)
    requires forall i | 0 <= i < |dims| :: AllDigits(dims[i])
    ensures ' ' !in Brackets(dims) && (dims != [] ==> Brackets(dims) != "" && Brackets(dims)[0] == '[')
  {
    if dims != [] {
      BracketsAreClear(dims[1..]);
      assert forall c <- dims[0] :: IsDigit(c);
    }
  }

  /** A word without spaces and brackets, and its array suffixes: the parser separates them again. */
  lemma WordAndBrackets(word: string, dims: seq<string>)
    requires ' ' !in word && '[' !in word && forall i | 0 <= i < |dims| :: AllDigits(dims[i])
    ensures var typ := word + Brackets(dims);
      var plain := DropFirstSpace(typ);
      && (if '[' in typ then plain[..FirstBracket(plain)] else plain) == word
      && (if '[' in typ then ArraySizes(typ) else []) == DimValues(dims)
  {
    hide Brackets, DropFirstSpace, ArraySizes, AllDigits, FirstBracket, DimValues;
    var typ := word + Brackets(dims);
    BracketsAreClear(dims);
    NothingDropped(typ);
    SizesBehindWord(word, Brackets(dims));
    SizesOfBrackets(dims);
    if dims == [] {
      NoBrackets();
      NoValues();
      assert typ == word;
    } else {
      FirstBracketBehind(word, Brackets(dims));
    }
  }

  lemma NoValues()
    ensures DimValues([]) == []
  {}

  lemma FirstBracketBehind(word: string, s: string)
    requires '[' !in word && s != "" && s[0] == '['
    ensures '[' in word + s && FirstBracket(word + s) == |word| && (word + s)[..|word|] == word
  {
    var t := word + s;
    assert t[|word|] == '[' && forall i | 0 <= i < |word| :: t[i] == word[i] && word[i] in word;
  }

  lemma ParseDecimal(n: nat)
    ensures ParseInt(Decimal(n)) == Number(n)
  {
    var s := Decimal(n);
    assert IsDigit(s[0]);
    DigitPrefixIs(s, "");
    assert s + "" == s;
  }

  /** A word and the array sizes behind it, as in `address[3]` or `uint8[2][]`, are read as they are declared. */
  lemma TypeIsRead(word: string, dims: seq<string>)
    requires ' ' !in word && '[' !in word && forall i | 0 <= i < |dims| :: AllDigits(dims[i])
    ensures ParseBaseType(word + Brackets(dims)) == ParseWord(word, DimValues(dims)) && |DimValues(dims)| == |dims|
  {
    hide ParseWord, Brackets, DropFirstSpace, ArraySizes;
    WordAndBrackets(word, dims);
    DimsLength(dims);
  }

  /** Bare base types, tuples included. */
  lemma BaseTypeIsRead(base: string, dims: seq<string>)
    requires base in BASE_TYPES && forall i | 0 <= i < |dims| :: AllDigits(dims[i])
    ensures ParseBaseType(base + Brackets(dims)) == Parsed(Some(base), NoSize, DimValues(dims), dims != [])
  {
    hide ParseBaseType, Brackets, DimValues;
    WordsOnly(base);
    TypeIsRead(base, dims);
  }

  /** Base types with a width. */
  lemma SizedTypeIsRead(base: string, n: nat, dims: seq<string>)
    requires IsSigned(base) && forall i | 0 <= i < |dims| :: AllDigits(dims[i])
    ensures ParseBaseType((base + Decimal(n)) + Brackets(dims))
      == Parsed(Some(base), Number(n), DimValues(dims), dims != [])
  {
    hide ParseBaseType, ParseWord, Decimal, Brackets, DimValues;
    SizedWord(base, n);
    TypeIsRead(base + Decimal(n), dims);
    WidthIsParsed(base, Decimal(n), DimValues(dims));
    ParseDecimal(n);
  }

  lemma {:induction false} DimsLength(dims: seq<string>)
    requires forall i | 0 <= i < |dims| :: AllDigits(dims[i])
    ensures |DimValues(dims)| == |dims|
  {
    if dims != [] { DimsLength(dims[1..]); }
  }

  lemma SizedWord(base: string, n: nat)
    requires IsSigned(base)
    ensures ' ' !in base + Decimal(n) && '[' !in base + Decimal(n)
  {
    assert forall c <- base + Decimal(n) :: c in base || IsDigit(c);
  }

  // ---------- Which words name a format ----------

  const BASIC_FORMATS := [
    "address", "bloom", "blockNumber", "blockTag", "blockNumberOrTag", "bool", "bytes", "qrlTypedData", "filter", "hex",
    "uint", "int", "number", "string"]

  /** A width the formats of `base` exist for. */
  predicate Width(base: string, n: int) {
    if base == "bytes" then 0 < n <= 64 else (base == "int" || base == "uint") && 0 < n <= 512 && n % 8 == 0
  }

  /** The keys of the format table. */
  ghost predicate IsFormat(name: string) {
    name in BASIC_FORMATS || name == "bytes256"
      || exists base: string, n: nat | Width(base, n) :: name == base + Decimal(n)
  }

  predicate IsSigned(base: string) { base == "int" || base == "uint" || base == "bytes" }

  /** `parseInt` reads white space, a sign and digits, and ignores whatever comes behind them. */
  lemma ParseIntReads(space: string, sign: string, digits: string, tail: string)
    requires (forall c <- space :: IsSpace(c)) && sign in ["", "+", "-"] && AllDigits(digits)
    requires (tail == "" || !IsDigit(tail[0]))
      && (digits == "" && sign == "" && tail != "" ==> !IsSpace(tail[0]) && tail[0] !in "+-")
    ensures ParseInt(space + (sign + (digits + tail)))
         == if digits == "" then NotANumber else Number(if sign == "-" then 0 - Value(digits) else Value(digits))
  {
    hide SkipSpace, DigitPrefix, Value, IsSpace;
    var u := digits + tail;
    NoSpaceFirst(sign, digits, tail);
    SkipsSpaces(space, sign + u);
    DigitPrefixIs(digits, tail);
    if sign == "" {
      assert sign + u == u;
      NoSignFirst(digits, tail);
    } else {
      assert (sign + u)[0] == sign[0] && (sign + u)[1..] == u;
    }
  }

  lemma NoSpaceFirst(sign: string, digits: string, tail: string)
    requires sign in ["", "+", "-"] && AllDigits(digits)
    requires digits == "" && sign == "" && tail != "" ==> !IsSpace(tail[0])
    ensures sign + (digits + tail) != "" ==> !IsSpace((sign + (digits + tail))[0])
  {
    if sign == "" && digits != "" { assert (digits + tail)[0] == digits[0] && IsDigit(digits[0]); }
  }

  lemma NoSignFirst(digits: string, tail: string)
    requires AllDigits(digits) && (digits == "" && tail != "" ==> tail[0] !in "+-")
    ensures digits + tail != "" ==> (digits + tail)[0] != '+' && (digits + tail)[0] != '-'
  {
    if digits != "" { assert (digits + tail)[0] == digits[0] && IsDigit(digits[0]); }
  }

  lemma {:induction false} SkipsSpaces(space: string, s: string)
    requires (forall c <- space :: IsSpace(c)) && (s == "" || !IsSpace(s[0]))
    ensures SkipSpace(space + s) == s
    decreases |space|
  {
    if space == "" {
      assert space + s == s;
    } else {
      assert space[0] in space && (space + s)[1..] == space[1..] + s;
      assert forall c <- space[1..] :: c in space;
      SkipsSpaces(space[1..], s);
    }
  }

  /** A base with something behind it is read as that base, with the number behind it as the width. */
  lemma WidthIsParsed(base: string, rest: string, sizes: seq<int>)
    requires IsSigned(base) && rest != ""
    ensures ParseWord(base + rest, sizes) == Parsed(Some(base), ParseInt(rest), sizes, sizes != [])
  {
    hide ParseInt;
    var word := base + rest;
    assert word[..|base|] == base && word[|base|..] == rest;
    assert word[0] == base[0];
    NoBaseBehind(base, rest);
  }

  lemma NoBaseBehind(base: string, rest: string)
    requires IsSigned(base) && rest != ""
    ensures base + rest !in BASE_TYPES
  {
    var word := base + rest;
    assert word[..|base|] == base && word[0] == base[0] && word[1] == base[1] && |word| > |base|;
    assert |"bool"| == 4 && |"int"| == 3 && |"uint"| == 4 && |"bytes"| == 5 && |"string"| == 6 && |"address"| == 7
      && |"tuple"| == 5;
    assert "bool"[0] == 'b' && "bool"[1] == 'o' && "int"[0] == 'i' && "uint"[0] == 'u' && "bytes"[0] == 'b'
      && "bytes"[1] == 'y';
    assert "string"[0] == 's' && "address"[0] == 'a' && "tuple"[0] == 't';
  }

  lemma WordParsed(w: string)
    requires '[' !in w
    ensures ParseBaseType(w) == ParseWord(DropFirstSpace(w), [])
  {}

  /** A base with something behind it: it is rejected exactly when `parseInt` finds an unsupported width. The
      name is that of a format exactly when `parseInt` finds a width, and it is the word as written, naming a
      format, exactly when the text behind the base is the decimal of a supported width. */
  lemma SizedWordExactly(w: string, base: string, rest: string)
    requires '[' !in w && DropFirstSpace(w) == base + rest && IsSigned(base) && rest != ""
    ensures var r, size := ConvertEthType(w), ParseInt(rest);
      && (r.Err? <==> size.Number? && !Width(base, size.n))
      && (r.Err? ==> r.error == UnsupportedSize)
      && (r.Ok? ==> (IsFormat(r.value) <==> size.Number?))
      && (r.Ok? && size.Number? ==> r.value == base + Decimal(size.n))
      && (r.Ok? && r.value == base + rest && IsFormat(r.value)
        <==> exists n: nat | Width(base, n) :: rest == Decimal(n))
  {
    hide ParseInt, ParseWord, ParseBaseType, IsFormat, Decimal;
    WordParsed(w);
    WidthIsParsed(base, rest, []);
    NotANumberIsNoFormat(base);
    forall n: nat | Width(base, n) && rest == Decimal(n) ensures ParseInt(rest) == Number(n) { ParseDecimal(n); }
    if ParseInt(rest).NotANumber? {
      assert ConvertEthType(w) == Ok(base + "NaN");
    } else if ParseInt(rest).Number? && Width(base, ParseInt(rest).n) {
      var n: nat := ParseInt(rest).n;
      NamesWidth(base, n);
      assert base + Decimal(n) == base + rest ==> (base + Decimal(n))[|base|..] == (base + rest)[|base|..];
    }
  }

  lemma NamesWidth(base: string, n: nat)
    requires Width(base, n)
    ensures IsFormat(base + Decimal(n)) && SizeText(Number(n)) == Decimal(n)
  {}

  /** The words that are written as formats are: exactly those with a supported width. */
  lemma SizedFormatsExactly(base: string, n: nat)
    requires IsSigned(base)
    ensures ConvertEthType(base + Decimal(n)) == if Width(base, n) then Ok(base + Decimal(n)) else Err(UnsupportedSize)
  {
    hide ConvertEthType, Decimal, IsFormat;
    SizedWord(base, n);
    NothingDropped(base + Decimal(n));
    ParseDecimal(n);
    SizedWordExactly(base + Decimal(n), base, Decimal(n));
  }

  /** No format has a name that ends with `NaN`. */
  lemma NotANumberIsNoFormat(base: string)
    ensures !IsFormat(base + "NaN")
  {
    var name := base + "NaN";
    var last := name[|name| - 1];
    assert last == 'N';
    forall b: string, n: nat ensures name != b + Decimal(n) {
      var other := b + Decimal(n);
      assert IsDigit(other[|other| - 1]);
    }
    forall f | f in BASIC_FORMATS ensures f != name { BasicEnds(f); }
    assert "bytes256"[7] == '6';
  }

  lemma BasicEnds(f: string)
    requires f in BASIC_FORMATS
    ensures f != "" && f[|f| - 1] != 'N'
  {
    assert "address"[6] == 's' && "bloom"[4] == 'm' && "blockNumber"[10] == 'r' && "blockTag"[7] == 'g'
      && "blockNumberOrTag"[15] == 'g';
    assert "bool"[3] == 'l' && "bytes"[4] == 's' && "qrlTypedData"[11] == 'a' && "filter"[5] == 'r' && "hex"[2] == 'x';
    assert "uint"[3] == 't' && "int"[2] == 't' && "number"[5] == 'r' && "string"[5] == 'g';
  }

  /** Every other word is accepted exactly when it is a base type or one of the extra names, and then it
      names a format. Only base types may contain a space. */
  lemma OtherWordExactly(w: string)
    requires '[' !in w
      && forall base | IsSigned(base) :: StartsWith(DropFirstSpace(w), base) ==> DropFirstSpace(w) == base
    ensures var p, r := DropFirstSpace(w), ConvertEthType(w);
      && (r.Ok? <==> (p in BASE_TYPES && p != "tuple") || w in EXTRA_TYPES)
      && (r.Err? ==> r.error == if p == "tuple" then TupleWithoutComponents else UnknownType)
      && (r.Ok? ==> r.value == p && IsFormat(p))
  {
    hide ParseInt, Decimal, DropFirstSpace;
    var p := DropFirstSpace(w);
    WordParsed(w);
    if w in EXTRA_TYPES {
      ExtraWords(w);
      NothingDropped(w);
    }
    if p in BASE_TYPES {
      BaseWords(p);
      assert p + "" == p;
    } else {
      assert !StartsWith(p, "int") && !StartsWith(p, "uint") && !StartsWith(p, "bytes") by {
        assert IsSigned("int") && IsSigned("uint") && IsSigned("bytes");
      }
    }
  }

  lemma ExtraWords(w: string)
    requires w in EXTRA_TYPES
    ensures ' ' !in w && w in BASIC_FORMATS
  {
    assert w == "hex" || w == "number" || w == "blockNumber" || w == "blockNumberOrTag" || w == "filter" || w == "bloom"
      || w == "qrlTypedData";
  }

  lemma BaseWords(p: string)
    requires p in BASE_TYPES
    ensures p != "tuple" ==> p in BASIC_FORMATS
  {
    assert p == "bool" || p == "int" || p == "uint" || p == "bytes" || p == "string" || p == "address" || p == "tuple";
  }

  /** Every word is of one of the two kinds. */
  lemma WordKinds(w: string) returns (base: string, rest: string)
    ensures rest != "" ==> IsSigned(base) && DropFirstSpace(w) == base + rest
    ensures rest == "" ==> forall b | IsSigned(b) :: StartsWith(DropFirstSpace(w), b) ==> DropFirstSpace(w) == b
  {
    var p := DropFirstSpace(w);
    base := if StartsWith(p, "int") then "int" else if StartsWith(p, "uint") then "uint"
      else if StartsWith(p, "bytes") then "bytes" else p;
    rest := p[|base|..];
    assert p == base + rest;
    assert "int"[0] == 'i' && "uint"[0] == 'u' && "bytes"[0] == 'b';
    assert forall b | IsSigned(b) && StartsWith(p, b) :: p[0] == b[0];
  }

  lemma BasicKinds(name: string)
    requires name in BASIC_FORMATS
    ensures name == "blockTag" || name in EXTRA_TYPES || (name in BASE_TYPES && name != "tuple")
  {
    assert EXTRA_TYPES[0] == "hex" && EXTRA_TYPES[1] == "number" && EXTRA_TYPES[2] == "blockNumber"
      && EXTRA_TYPES[3] == "blockNumberOrTag";
    assert EXTRA_TYPES[4] == "filter" && EXTRA_TYPES[5] == "bloom" && EXTRA_TYPES[6] == "qrlTypedData";
    assert BASE_TYPES[0] == "bool" && BASE_TYPES[1] == "int" && BASE_TYPES[2] == "uint" && BASE_TYPES[3] == "bytes";
    assert BASE_TYPES[4] == "string" && BASE_TYPES[5] == "address";
  }

  lemma ExtraIsNamed(w: string)
    requires w in EXTRA_TYPES
    ensures '[' !in w && ConvertEthType(w) == Ok(w)
  {
    hide ConvertEthType, IsFormat, DropFirstSpace;
    ExtraWords(w);
    NothingDropped(w);
    forall base | IsSigned(base) ensures !StartsWith(w, base) { ExtraHasNoWidth(w, base); }
    OtherWordExactly(w);
  }

  lemma ExtraHasNoWidth(w: string, base: string)
    requires w in EXTRA_TYPES && IsSigned(base)
    ensures '[' !in w && !StartsWith(w, base)
  {
    assert w == "hex" || w == "number" || w == "blockNumber" || w == "blockNumberOrTag" || w == "filter" || w == "bloom"
      || w == "qrlTypedData";
    assert |w| >= |base| ==> w[..|base|][0] == w[0] && w[..|base|][1] == w[1];
  }

  lemma WidthsAreOthers(base: string, n: nat)
    requires Width(base, n)
    ensures base + Decimal(n) != "blockTag" && base + Decimal(n) != "bytes256"
  {
    var name := base + Decimal(n);
    assert name[0] == base[0] && name[1] == base[1] && name[|base|..] == Decimal(n);
    assert "blockTag"[1] == 'l' && "bytes256"[0] == 'b' && "bytes256"[5..] == "256";
    assert Value("256") == 256 by { assert "256"[..2] == "25" && "25"[..1] == "2" && "2"[..0] == ""; }
  }

  lemma OthersAreNamed(w: string, name: string)
    requires '[' !in w && ConvertEthType(w) == Ok(name) && IsFormat(name)
    ensures name != "blockTag" && name != "bytes256"
  {
    hide ConvertEthType, IsFormat, DropFirstSpace, Decimal, ParseInt;
    var base, rest := WordKinds(w);
    if rest != "" {
      SizedWordExactly(w, base, rest);
      WidthsAreOthers(base, ParseInt(rest).n);
    } else {
      OtherWordExactly(w);
      if w in EXTRA_TYPES {
        ExtraWords(w);
        NothingDropped(w);
      }
      NotInTables();
    }
  }

  lemma NotInTables()
    ensures forall w | w == "blockTag" || w == "bytes256" :: w !in BASE_TYPES && w !in EXTRA_TYPES
  {
    assert |"blockTag"| == 8 && |"bytes256"| == 8;
    assert forall w | w in BASE_TYPES || w in EXTRA_TYPES :: |w| != 8;
  }

  /** Every format is what its own name is converted to, except two that no word leads to. */
  lemma FormatsAreNamed(name: string)
    requires IsFormat(name)
    ensures (exists w | '[' !in w :: ConvertEthType(w) == Ok(name)) <==> name != "blockTag" && name != "bytes256"
    ensures name != "blockTag" && name != "bytes256" ==> '[' !in name && ConvertEthType(name) == Ok(name)
  {
    hide ConvertEthType, Decimal;
    forall w | '[' !in w && ConvertEthType(w) == Ok(name)
      ensures name != "blockTag" && name != "bytes256" { OthersAreNamed(w, name); }
    if name in BASIC_FORMATS {
      BasicKinds(name);
      if name in EXTRA_TYPES {
        ExtraIsNamed(name);
      } else if name in BASE_TYPES && name != "tuple" {
        WordsOnly(name);
        BareType(name);
      }
    } else if name != "bytes256" {
      var base: string, n: nat :| Width(base, n) && name == base + Decimal(n);
      SizedWord(base, n);
      SizedFormatsExactly(base, n);
    }
  }

  /** The two formats that no word leads to. */
  lemma UnreachedFormats(w: string)
    requires '[' !in w
    ensures IsFormat("blockTag") && IsFormat("bytes256")
    ensures ConvertEthType(w) != Ok("blockTag") && ConvertEthType(w) != Ok("bytes256")
  {
    hide ConvertEthType;
    assert "blockTag" in BASIC_FORMATS;
    FormatsAreNamed("blockTag");
    FormatsAreNamed("bytes256");
  }

  lemma NoSpaceIn(base: string, sign: string, digits: string, tail: string)
    requires IsSigned(base) && sign in ["", "+", "-"] && AllDigits(digits) && ' ' !in tail && '[' !in tail
    ensures var w := base + (sign + (digits + tail)); ' ' !in w && '[' !in w
  {
    assert forall c <- digits :: IsDigit(c);
    assert ' ' !in digits + tail && '[' !in digits + tail;
    assert ' ' !in sign && '[' !in sign;
  }

  /** What is read of a width that may be signed, padded with zeros or followed by anything. */
  lemma CarelessWidth(base: string, sign: string, digits: string, tail: string)
    requires IsSigned(base) && sign in ["", "+", "-"] && AllDigits(digits) && ' ' !in tail && '[' !in tail
    requires (tail == "" || !IsDigit(tail[0]))
      && (digits == "" && sign == "" ==> tail != "" && !IsSpace(tail[0]) && tail[0] !in "+-")
    ensures var n := if sign == "-" then 0 - Value(digits) else Value(digits);
      ConvertEthType(base + (sign + (digits + tail)))
        == if digits == "" then Ok(base + "NaN") else if Width(base, n) then Ok(base + Decimal(n))
          else Err(UnsupportedSize)
  {
    hide ParseInt, ParseWord, ParseBaseType, DropFirstSpace, Decimal, Value, IsSpace, IsDigit;
    var rest := sign + (digits + tail);
    var w := base + rest;
    NoSpaceIn(base, sign, digits, tail);
    NothingDropped(w);
    assert "" + rest == rest;
    ParseIntReads("", sign, digits, tail);
    WordParsed(w);
    WidthIsParsed(base, rest, []);
  }

  /** Widths that are not written as formats are: read in part, or not at all and accepted without a format. */
  lemma CarelessWidths()
    ensures ConvertEthType("int8x") == ConvertEthType("int08") == ConvertEthType("int+8") == Ok("int8")
    ensures ConvertEthType("intx") == Ok("intNaN") && !IsFormat("intNaN")
  {
    hide ConvertEthType, IsFormat;
    CarelessWidth("int", "", "8", "x");
    CarelessWidth("int", "", "08", "");
    CarelessWidth("int", "+", "8", "");
    CarelessWidth("int", "", "", "x");
    assert Value("8") == 8 by { assert "8"[..0] == ""; }
    assert Value("08") == 8 by { assert "08"[..1] == "0" && "0"[..0] == ""; }
    assert Decimal(8) == "8";
    NotANumberIsNoFormat("int");
    assert "int" + ("" + ("8" + "x")) == "int8x" && "int" + ("" + ("08" + "")) == "int08"
      && "int" + ("+" + ("8" + "")) == "int+8";
    assert "int" + ("" + ("" + "x")) == "intx" && "int" + "NaN" == "intNaN" && "int" + "8" == "int8";
  }

  lemma {:induction false} FirstSpaceGoes(a: string, b: string)
    requires ' ' !in a
    ensures DropFirstSpace(a + (" " + b)) == a + b
    decreases |a|
  {
    if a == "" {
      assert a + (" " + b) == " " + b && a + b == b;
    } else {
      assert (a + (" " + b))[1..] == a[1..] + (" " + b) && forall c <- a[1..] :: c in a;
      FirstSpaceGoes(a[1..], b);
    }
  }

  /** Only the first space is taken out: with a second one left in it, a word is not known any more. */
  lemma TwoSpaces()
    ensures ConvertEthType("u int8") == Ok("uint8") && ConvertEthType("u i nt8") == Err(UnknownType)
  {
    hide ConvertEthType, IsFormat, DropFirstSpace, ParseInt, Decimal;
    FirstSpaceGoes("u", "int8");
    FirstSpaceGoes("u", "i nt8");
    assert "u" + (" " + "int8") == "u int8" && "u" + "int8" == "uint8" == "uint" + "8";
    assert "u" + (" " + "i nt8") == "u i nt8" && "u" + "i nt8" == "ui nt8";
    EightIsAWidth();
    SizedWordExactly("u int8", "uint", "8");
    var p := "ui nt8";
    assert p[0] == 'u' && p[1] == 'i' && p[2] == ' ' && |p| == 6;
    NotASpace(p);
    OtherWordExactly("u i nt8");
  }

  lemma EightIsAWidth()
    ensures ParseInt("8") == Number(8) && Decimal(8) == "8"
  {
    ParseDecimal(8);
  }

  lemma NotASpace(p: string)
    requires p == "ui nt8"
    ensures (forall base | IsSigned(base) :: !StartsWith(p, base)) && p !in BASE_TYPES && "u i nt8" !in EXTRA_TYPES
  {
    assert p[..4] != "uint" by { assert "uint"[2] == 'n'; }
    assert p[..3] != "int" && p[..5] != "bytes" by { assert "int"[0] == 'i' && "bytes"[0] == 'b'; }
    assert forall w <- BASE_TYPES ::
      w == "bool" || w == "int" || w == "uint" || w == "bytes" || w == "string" || w == "address" || w == "tuple";
    assert "string"[0] == 's';
    forall w | w in EXTRA_TYPES ensures w != "u i nt8" { ExtraWords(w); }
  }
}
