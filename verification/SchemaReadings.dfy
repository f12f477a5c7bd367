/** What each way to write an entry accepts, from the text and the components alone. */
module SchemaReadings {
  import opened Wrappers
  import opened Texts
  import ParamTypes
  import opened SchemaCompiler

  /** Array suffixes: a pair of brackets each, with digits or nothing in between. */
  predicate Suffixes(dims: seq<string>) { forall i | 0 <= i < |dims| :: AllDigits(dims[i]) }

  /** A value of array shape: the last suffix is the outermost array, an empty one bounds nothing, and `item`
      accepts every element of the innermost arrays. */
  predicate Nested<A>(dims: seq<string>, item: Schema, v: Json<A>, ok: (string, Json<A>) -> bool)
    requires Suffixes(dims)
    decreases |dims|
  {
    if dims == [] then Accepts(item, v, ok)
    else
      var front, last := dims[..|dims| - 1], dims[|dims| - 1];
      && v.List? && (last != "" ==> |v.items| == Value(last))
      && forall i | 0 <= i < |v.items| :: Nested(front, item, v.items[i], ok)
  }

  lemma {:induction false} DimValuesSnoc(dims: seq<string>, last: string)
    requires Suffixes(dims) && AllDigits(last)
    ensures Suffixes(dims + [last]) && DimValues(dims + [last]) == DimValues(dims) + [DimValue(last)]
  {
    hide Value, AllDigits;
    if dims == [] {
      assert [] + [last] == [last] && [last][1..] == [];
    } else {
      assert (dims + [last])[1..] == dims[1..] + [last];
      DimValuesSnoc(dims[1..], last);
    }
  }

  lemma {:induction false} WrappedIsNested<A>(dims: seq<string>, item: Schema, v: Json<A>,
      ok: (string, Json<A>) -> bool)
    requires Suffixes(dims)
    ensures Accepts(Wrap(item, DimValues(dims)), v, ok) <==> Nested(dims, item, v, ok)
    decreases |dims|
  {
    hide Value, AllDigits, DimValues;
    if dims == [] {
      NoValues();
    } else {
      var front, last := dims[..|dims| - 1], dims[|dims| - 1];
      assert front + [last] == dims;
      DimValuesSnoc(front, last);
      assert DimValues(dims)[..|DimValues(dims)| - 1] == DimValues(front);
      assert Wrap(item, DimValues(dims)) == ArrayOf(Wrap(item, DimValues(front)), DimValue(last));
      if v.List? {
        forall i | 0 <= i < |v.items|
          ensures Accepts(Wrap(item, DimValues(front)), v.items[i], ok) <==> Nested(front, item, v.items[i], ok) {
          WrappedIsNested(front, item, v.items[i], ok);
        }
      }
    }
  }

  // ---------- Tuples ----------

  lemma TupleText(dims: seq<string>)
    requires Suffixes(dims)
    ensures ParseBaseType("tuple" + ParamTypes.Brackets(dims))
      == Parsed(Some("tuple"), NoSize, DimValues(dims), dims != [])
  {
    hide ParseBaseType, DimValues, ParamTypes.Brackets;
    BaseTypeIsRead("tuple", dims);
  }

  lemma {:induction false} AllCompiled(components: seq<Abi>, items: seq<Schema>)
    requires |items| == |components| && forall i | 0 <= i < |items| :: Compile(components[i]) == Ok(items[i])
    ensures CompileAll(components) == Ok(items)
    decreases |components|
  {
    hide Compile;
    if components != [] {
      AllCompiled(components[1..], items[1..]);
      assert items == [items[0]] + items[1..];
    }
  }

  lemma {:induction false} OneFails(components: seq<Abi>, k: nat)
    requires k < |components| && Compile(components[k]).Err? && forall i | 0 <= i < k :: Compile(components[i]).Ok?
    ensures CompileAll(components) == Err(Compile(components[k]).error)
    decreases |components|
  {
    hide Compile;
    if k > 0 {
      assert components[1..][k - 1] == components[k];
      OneFails(components[1..], k - 1);
    }
  }

  /** `entry` is compiled as a tuple type with the given suffixes and components. */
  ghost predicate IsTuple(entry: Abi, dims: seq<string>, components: seq<Abi>)
    requires Suffixes(dims)
  {
    Compile(entry) ==
      match CompileAll(components)
      case Err(e) => Err(e)
      case Ok(items) => Ok(Wrap(TupleOf(items), DimValues(dims)))
  }

  lemma TupleCompiled(entry: Abi, dims: seq<string>, components: seq<Abi>)
    requires Suffixes(dims) && TypeOf(entry) == ("tuple" + ParamTypes.Brackets(dims), Some(components))
    ensures IsTuple(entry, dims, components)
  {
    hide ParseBaseType, CompileAll, ParamTypes.Brackets, AllDigits, TypeOf;
    TupleText(dims);
    if dims == [] { NoValues(); }
  }

  lemma TupleEntry(entry: Abi, dims: seq<string>, components: seq<Abi>)
    requires Suffixes(dims)
    requires var text := "tuple" + ParamTypes.Brackets(dims);
      || entry == Struct(text, components)
      || (entry == Short(text) && components == [])
      || (entry.Group? && |entry.list| > 1 && entry.list[0] == Short(text) && entry.list[1] == Group(components))
    ensures IsTuple(entry, dims, components)
  {
    hide IsTuple, ParamTypes.Brackets, AllDigits;
    var text := "tuple" + ParamTypes.Brackets(dims);
    assert StartsWith(text, "tuple") by { assert text[..5] == "tuple"; }
    TupleCompiled(entry, dims, components);
  }

  /** A tuple type with components, however it is written: the values of its array shape whose innermost elements
      are lists that match the components one by one. */
  lemma TupleAccepts<A>(entry: Abi, dims: seq<string>, components: seq<Abi>, items: seq<Schema>, v: Json<A>,
      ok: (string, Json<A>) -> bool)
    requires Suffixes(dims)
    requires var text := "tuple" + ParamTypes.Brackets(dims);
      || entry == Struct(text, components)
      || (entry == Short(text) && components == [])
      || (entry.Group? && |entry.list| > 1 && entry.list[0] == Short(text) && entry.list[1] == Group(components))
    requires |items| == |components| && forall i | 0 <= i < |items| :: Compile(components[i]) == Ok(items[i])
    ensures Compile(entry).Ok? && (Accepts(Compile(entry).value, v, ok) <==> Nested(dims, TupleOf(items), v, ok))
  {
    hide CompileAll, Compile, Accepts, Nested, Wrap, AllDigits, ParamTypes.Brackets;
    TupleEntry(entry, dims, components);
    AllCompiled(components, items);
    WrappedIsNested(dims, TupleOf(items), v, ok);
  }

  /** A list that does not start with a tuple word and a list is a tuple of its own entries. */
  lemma ListAccepts<A>(list: seq<Abi>, items: seq<Schema>, v: Json<A>, ok: (string, Json<A>) -> bool)
    requires |list| > 1 && list[1].Group? ==> list[0].Short? ==> !StartsWith(list[0].typ, "tuple")
    requires |items| == |list| && forall i | 0 <= i < |items| :: Compile(list[i]) == Ok(items[i])
    ensures Compile(Group(list)).Ok?
    ensures Accepts(Compile(Group(list)).value, v, ok) <==>
      v.List? && |v.items| == |list| && forall i | 0 <= i < |list| :: Accepts(items[i], v.items[i], ok)
  {
    hide CompileAll, Compile, ParseBaseType;
    ParamTypes.NoBrackets();
    assert "tuple" + "" == "tuple";
    TupleCompiled(Group(list), [], list);
    AllCompiled(list, items);
    NoValues();
  }

  /** A tuple whose components do not all compile fails with the error of the first that does not. */
  lemma TupleFails(entry: Abi, dims: seq<string>, components: seq<Abi>, k: nat)
    requires Suffixes(dims)
    requires var text := "tuple" + ParamTypes.Brackets(dims);
      || entry == Struct(text, components)
      || (entry == Short(text) && components == [])
      || (entry.Group? && |entry.list| > 1 && entry.list[0] == Short(text) && entry.list[1] == Group(components))
    requires k < |components| && Compile(components[k]).Err? && forall i | 0 <= i < k :: Compile(components[i]).Ok?
    ensures Compile(entry) == Err(Compile(components[k]).error)
  {
    hide Compile, CompileAll, Wrap, AllDigits, ParamTypes.Brackets;
    TupleEntry(entry, dims, components);
    OneFails(components, k);
  }

  // ---------- Leaves ----------

  /** A parameter or a short string with this text; components of what is no tuple are not looked at. */
  predicate HasText(entry: Abi, text: string) { !entry.Group? && entry.typ == text }

  lemma LeafCompiled(entry: Abi, text: string)
    requires HasText(entry, text) && ParseBaseType(text).base != Some("tuple")
    ensures var p := ParseBaseType(text);
      var format := ConvertEthType(if p.isArray then p.base.value else text);
      Compile(entry) ==
        if format.Err? then Err(format.error)
        else Ok(if p.isArray then Wrap(Format(format.value), p.sizes) else Format(format.value))
  {
    hide ParseBaseType, ConvertEthType, Wrap;
  }

  /** A base type: the values of its array shape whose innermost elements have its format. */
  lemma LeafAccepts<A>(entry: Abi, base: string, dims: seq<string>, v: Json<A>, ok: (string, Json<A>) -> bool)
    requires base in ["bool", "int", "uint", "bytes", "string", "address"] && Suffixes(dims)
    requires HasText(entry, base + ParamTypes.Brackets(dims))
    ensures dims == [] ==> Compile(entry) == Ok(Format(base))
    ensures Compile(entry).Ok? && (Accepts(Compile(entry).value, v, ok) <==> Nested(dims, Format(base), v, ok))
  {
    hide Accepts, Nested, Wrap, AllDigits, ParamTypes.Brackets, ParseBaseType, ConvertEthType, DimValues, HasText;
    LeafBase(base);
    BaseTypeIsRead(base, dims);
    BareType(base);
    WrappedIsNested(dims, Format(base), v, ok);
    LeafCompiled(entry, base + ParamTypes.Brackets(dims));
    hide Compile;
    if dims == [] { NoSuffix(base, Format(base)); }
  }

  lemma LeafBase(base: string)
    requires base in ["bool", "int", "uint", "bytes", "string", "address"]
    ensures base in BASE_TYPES && base != "tuple"
  {}

  lemma NoSuffix(word: string, item: Schema)
    ensures word + ParamTypes.Brackets([]) == word && Wrap(item, DimValues([])) == item
  {}

  /** A base type with a width: on its own it is checked with that width, inside arrays without any. */
  lemma SizedLeafAccepts<A>(entry: Abi, base: string, n: nat, dims: seq<string>, v: Json<A>,
      ok: (string, Json<A>) -> bool)
    requires base in ["int", "uint", "bytes"] && Suffixes(dims)
    requires HasText(entry, base + Decimal(n) + ParamTypes.Brackets(dims))
    ensures dims == [] ==>
      Compile(entry) ==
        if (if base == "bytes" then 0 < n <= 64 else 0 < n <= 512 && n % 8 == 0) then Ok(Format(base + Decimal(n)))
        else Err(UnsupportedSize)
    ensures dims != [] ==>
      Compile(entry).Ok? && (Accepts(Compile(entry).value, v, ok) <==> Nested(dims, Format(base), v, ok))
  {
    hide Accepts, Nested, Wrap, AllDigits, ParamTypes.Brackets, ParseBaseType, ConvertEthType, DimValues, HasText,
      Decimal;
    SizedTypeIsRead(base, n, dims);
    LeafBase(base);
    LeafCompiled(entry, base + Decimal(n) + ParamTypes.Brackets(dims));
    hide Compile;
    if dims == [] {
      NoSuffix(base + Decimal(n), Format(base));
      SizedFormatsExactly(base, n);
    } else {
      BareType(base);
      WrappedIsNested(dims, Format(base), v, ok);
    }
  }

  /** A tuple type needs components or a list, even an empty one. */
  lemma TupleNeedsComponents(dims: seq<string>)
    requires Suffixes(dims)
    ensures Compile(Plain("tuple" + ParamTypes.Brackets(dims))) == Err(TupleWithoutComponents)
  {
    hide ParseBaseType, ParamTypes.Brackets, AllDigits;
    TupleText(dims);
  }

  /** Other words are names of formats, which make no arrays. */
  lemma NameAccepts(entry: Abi, word: string, dims: seq<string>)
    requires Suffixes(dims) && HasText(entry, word + ParamTypes.Brackets(dims)) && ' ' !in word && '[' !in word
    requires word !in ["bool", "string", "address", "tuple"]
    requires forall base | base in ["int", "uint", "bytes"] :: !StartsWith(word, base)
    ensures Compile(entry) ==
      if dims == []
        && word in ["hex", "number", "blockNumber", "blockNumberOrTag", "filter", "bloom", "qrlTypedData"]
      then Ok(Format(word))
      else Err(UnknownType)
  {
    var text := word + ParamTypes.Brackets(dims);
    hide ParamTypes.Brackets, AllDigits, ParseBaseType, DimValues, StartsWith, Compile, ConvertEthType;
    TypeIsRead(word, dims);
    NameParsed(word, DimValues(dims));
    NameConverted(text);
    LeafCompiled(entry, text);
    hide HasText;
    if dims == [] {
      NoSuffix(word, Format(word));
    } else {
      ExtraHasNoBrackets(word, dims);
    }
  }

  lemma NameParsed(word: string, sizes: seq<int>)
    requires word !in ["bool", "string", "address", "tuple"]
    requires forall base | base in ["int", "uint", "bytes"] :: !StartsWith(word, base)
    ensures ParseWord(word, sizes) == Parsed(None, NoSize, sizes, false)
  {
    assert StartsWith("int", "int") && StartsWith("uint", "uint") && StartsWith("bytes", "bytes");
    assert !StartsWith(word, "int") && !StartsWith(word, "uint") && !StartsWith(word, "bytes") by {
      assert "int" in ["int", "uint", "bytes"] && "uint" in ["int", "uint", "bytes"]
        && "bytes" in ["int", "uint", "bytes"];
    }
  }

  lemma NameConverted(text: string)
    requires ParseBaseType(text).base == None && ParseBaseType(text).size == NoSize
    ensures ConvertEthType(text) == if text in EXTRA_TYPES then Ok(text) else Err(UnknownType)
  {
    hide ParseBaseType;
  }

  lemma ExtraHasNoBrackets(word: string, dims: seq<string>)
    requires Suffixes(dims) && dims != []
    ensures word + ParamTypes.Brackets(dims) !in EXTRA_TYPES
  {
    hide ParamTypes.Brackets, AllDigits;
    BracketsAreClear(dims);
    var text := word + ParamTypes.Brackets(dims);
    assert text[|word|] == '[';
    if text in EXTRA_TYPES { ExtraHasNoWidth(text, "int"); }
  }

  /** A list that starts with a word and a list is an entry of its own when the word starts as tuple words do. */
  lemma GroupIsStruct(list: seq<Abi>)
    requires |list| > 1 && list[0].Short? && StartsWith(list[0].typ, "tuple")
    requires list[1].Group?
    ensures Compile(Group(list)) == Compile(Struct(list[0].typ, list[1].list))
  {
    SameReading(Group(list), Struct(list[0].typ, list[1].list));
  }

  lemma SameReading(a: Abi, b: Abi)
    requires TypeOf(a) == TypeOf(b)
    ensures Compile(a) == Compile(b)
  {
    hide TypeOf, ParseBaseType, ConvertEthType, Wrap, CompileAll;
  }

  /** What the two ways to write an array of structs of one `bool` have in common. */
  predicate ListsOfOneBool<A>(v: Json<A>, ok: (string, Json<A>) -> bool) {
    v.List? && forall i | 0 <= i < |v.items| ::
      v.items[i].List? && |v.items[i].items| == 1 && ok("bool", v.items[i].items[0])
  }

  lemma ArrayOfStructs<A>(v: Json<A>, ok: (string, Json<A>) -> bool)
    ensures var p := Compile(Struct("tuple[]", [Plain("bool")]));
      p.Ok? && (Accepts(p.value, v, ok) <==> ListsOfOneBool(v, ok))
    ensures var s := Compile(Group([Short("tuple[]"), Group([Short("bool")])]));
      s.Ok? && (Accepts(s.value, v, ok) <==> ListsOfOneBool(v, ok))
  {
    hide Compile, Accepts, Nested, ListsOfOneBool;
    var dims, item := [""], TupleOf([Format("bool")]);
    OneSuffix("tuple");
    ParamTypes.NoBrackets();
    assert "bool" + "" == "bool";
    LeafAccepts(Plain("bool"), "bool", [], v, ok);
    LeafAccepts(Short("bool"), "bool", [], v, ok);
    TupleAccepts(Struct("tuple[]", [Plain("bool")]), dims, [Plain("bool")], item.items, v, ok);
    TupleAccepts(Group([Short("tuple[]"), Group([Short("bool")])]), dims, [Short("bool")], item.items, v, ok);
    OneBoolNested(v, ok);
  }

  lemma OneSuffix(word: string)
    ensures word + ParamTypes.Brackets([""]) == word + "[]"
  {
    assert [""][1..] == [];
    assert "[" + "" + "]" + "" == "[]";
  }

  lemma OneBoolNested<A>(v: Json<A>, ok: (string, Json<A>) -> bool)
    ensures Nested([""], TupleOf([Format("bool")]), v, ok) <==> ListsOfOneBool(v, ok)
  {
    assert [""][..0] == [];
    var item := TupleOf([Format("bool")]);
    forall e: Json<A> ensures Accepts(item, e, ok) <==> e.List? && |e.items| == 1 && ok("bool", e.items[0]) {}
  }
}
