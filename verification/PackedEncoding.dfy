/** Packed encoding of integers: fixed width, two's complement, and decodable again. */
module PackedEncoding {
  import opened Wrappers
  import opened Texts
  import opened Positional

  /** `int` and `uint` without a width stand for the widest type. */
  function ElementaryName(name: string): string {
    if StartsWith(name, "int[") then "int512" + name[3..]
    else if name == "int" then "int512"
    else if StartsWith(name, "uint[") then "uint512" + name[4..]
    else if name == "uint" then "uint512"
    else name
  }

  /** The width behind the type word; 0 when there is none. */
  function ParseTypeN(value: string, typeLength: nat): nat
    requires typeLength <= |value|
  {
    var rest := value[typeLength..];
    Value(rest[..DigitPrefix(rest)])
  }

  /** The length of `toString(2)`, where a minus sign counts as one. */
  function BitLength(num: int): nat {
    if num < 0 then 1 + |Numeral(-num, 2)| else |Numeral(num, 2)|
  }

  datatype PackError = InvalidSize | InvalidLargeValue | InvalidUnsignedInteger | NibbleWidth | NotAnInteger

  predicate ValidSize(size: nat) { size % 8 == 0 && 8 <= size <= 512 }

  /** `toTwosComplement`, without the `0x` that packing strips again. */
  function ToTwosComplement(val: int, nibbleWidth: nat): Result<string, PackError> {
    if val >= 0 then Ok(PadStart(Numeral(val, 16), nibbleWidth, '0'))
    else
      var largestBit := Pow(2, nibbleWidth * 4);
      if -val >= largestBit then Err(NibbleWidth)
      else Ok(PadStart(Numeral(val + largestBit, 16), nibbleWidth, '0'))
  }

  /** `hyperionPack` for an integer under an integer type. */
  function Pack(typ: string, num: int): Result<string, PackError> {
    var name := ElementaryName(typ);
    if StartsWith(typ, "uint") then
      var size := ParseTypeN(name, 4);
      if !ValidSize(size) then Err(InvalidSize)
      else if BitLength(num) > size then Err(InvalidLargeValue)
      else if num < 0 then Err(InvalidUnsignedInteger)
      else Ok(PadStart(Numeral(num, 16), size / 4, '0'))
    else if StartsWith(typ, "int") then
      var size := ParseTypeN(name, 3);
      if !ValidSize(size) then Err(InvalidSize)
      else
        var signedLimit := Pow(2, size - 1);
        if num < 0 - signedLimit || num >= signedLimit then Err(InvalidLargeValue)
        else if num < 0 then ToTwosComplement(num, size / 4)
        else Ok(PadStart(Numeral(num, 16), size / 4, '0'))
    else Err(NotAnInteger)
  }

  function TypeName(signed: bool, size: nat): string { (if signed then "int" else "uint") + Decimal(size) }

  /** The width of a type name is the number behind its word, with or without an array suffix. */
  lemma WidthIsRead(signed: bool, size: nat, suffix: string)
    requires suffix == "" || suffix[0] == '['
    ensures var typ := TypeName(signed, size) + suffix;
      && ElementaryName(typ) == typ
      && (signed ==> !StartsWith(typ, "uint") && StartsWith(typ, "int") && ParseTypeN(typ, 3) == size)
      && (!signed ==> StartsWith(typ, "uint") && !StartsWith(typ, "int") && ParseTypeN(typ, 4) == size)
  {
    hide Decimal, Value;
    var word, digits := if signed then "int" else "uint", Decimal(size);
    var typ := TypeName(signed, size) + suffix;
    assert typ == word + (digits + suffix);
    WordIsRead(signed, word, digits + suffix);
    DigitPrefixIs(digits, suffix);
    assert typ[|word|..] == digits + suffix;
  }

  /** A word with a digit behind it is left as it is, and is told from the other word. */
  lemma WordIsRead(signed: bool, word: string, rest: string)
    requires word == (if signed then "int" else "uint") && rest != "" && IsDigit(rest[0])
    ensures ElementaryName(word + rest) == word + rest && StartsWith(word + rest, word)
    ensures !StartsWith(word + rest, if signed then "uint" else "int")
  {
    var typ := word + rest;
    assert typ[|word|] == rest[0] && typ[..|word|] == word && typ[0] == word[0];
  }

  lemma {:induction false} HexIsFourBits(k: nat)
    ensures Pow(16, k) == Pow(2, 4 * k)
  {
    if k > 0 {
      HexIsFourBits(k - 1);
      assert Pow(2, 4) == 16;
      PowAdd(2, 4, 4 * (k - 1));
    }
  }

  /** Padded to `k` digits, a number below 16 to the power `k` takes exactly `k` digits. */
  lemma FixedWidth(n: nat, k: nat)
    requires k > 0 && n < Pow(2, 4 * k)
    ensures var s := PadStart(Numeral(n, 16), k, '0');
      |s| == k && IsNumeral(s, 16) && NumValue(s, 16) == n
  {
    HexIsFourBits(k);
    NumeralLength(n, 16, k);
    PaddedValue(Numeral(n, 16), k, 16);
  }

  lemma HalfRange(size: nat)
    requires size > 0
    ensures Pow(2, size) == 2 * Pow(2, size - 1) && Pow(2, size - 1) > 0
  {
    PowPositive(2, size - 1);
  }

  /** The numbers a type holds. */
  predicate InRange(signed: bool, size: nat, num: int)
    requires size > 0
  {
    if signed then 0 - Pow(2, size - 1) <= num < Pow(2, size - 1) else 0 <= num < Pow(2, size)
  }

  /** What a fixed-width word stands for. */
  function Residue(num: int, size: nat): (r: nat)
    requires 0 - Pow(2, size) <= num < Pow(2, size)
  {
    if num < 0 then num + Pow(2, size) else num
  }

  lemma ResidueIsModulo(num: int, size: nat)
    requires 0 - Pow(2, size) <= num < Pow(2, size)
    ensures Pow(2, size) > 0 && Residue(num, size) == num % Pow(2, size)
  {
    hide Pow;
    PowPositive(2, size);
    Modulo(num, Pow(2, size));
  }

  lemma Modulo(num: int, m: nat)
    requires m > 0 && 0 - m <= num < m
    ensures num % m == if num < 0 then num + m else num
  {
    if num < 0 {
      assert num == m * (-1) + (num + m);
      assert num + m < m && num + m >= 0;
    }
  }

  lemma PackUnsigned(size: nat, num: int)
    requires ValidSize(size)
    ensures Pack(TypeName(false, size), num).Ok? <==> 0 <= num < Pow(2, size)
    ensures 0 <= num < Pow(2, size)
      ==> Pack(TypeName(false, size), num) == Ok(PadStart(Numeral(num, 16), size / 4, '0'))
  {
    hide Decimal, Numeral, PadStart, NumValue, IsNumeral, ElementaryName, ParseTypeN, TypeName, Pow, StartsWith,
      BitLength;
    WidthIsRead(false, size, "");
    assert TypeName(false, size) + "" == TypeName(false, size);
    if num >= 0 { BitsOfUnsigned(num, size); }
  }

  lemma PackSigned(size: nat, num: int)
    requires ValidSize(size)
    ensures Pack(TypeName(true, size), num).Ok? <==> InRange(true, size, num)
    ensures InRange(true, size, num) ==>
      0 - Pow(2, size) <= num < Pow(2, size)
        && Pack(TypeName(true, size), num) == Ok(PadStart(Numeral(Residue(num, size), 16), size / 4, '0'))
  {
    hide Decimal, Numeral, PadStart, NumValue, IsNumeral, ElementaryName, ParseTypeN, TypeName, Pow, StartsWith,
      BitLength;
    WidthIsRead(true, size, "");
    assert TypeName(true, size) + "" == TypeName(true, size);
    HalfRange(size);
    assert size / 4 * 4 == size;
  }

  /** `intN` and `uintN` accept exactly their range, for a multiple of 8 up to 512 and no other width; the result
      has `N / 4` lower-case digits and denotes the number modulo 2 to the power N. */
  lemma PackExactly(signed: bool, size: nat, num: int)
    ensures Pack(TypeName(signed, size), num).Ok? <==> size % 8 == 0 && 8 <= size <= 512 && InRange(signed, size, num)
    ensures size % 8 == 0 && 8 <= size <= 512 && InRange(signed, size, num) ==>
      var s := Pack(TypeName(signed, size), num).value;
      |s| == size / 4 && IsNumeral(s, 16) && Pow(2, size) > 0 && NumValue(s, 16) == num % Pow(2, size)
  {
    hide Decimal, Numeral, PadStart, NumValue, IsNumeral, TypeName, Pow, Pack;
    if !ValidSize(size) {
      OtherSizesAreRefused(signed, size, num);
      return;
    }
    if signed { PackSigned(size, num); } else { PackUnsigned(size, num); }
    HalfRange(size);
    assert 4 * (size / 4) == size;
    if InRange(signed, size, num) {
      ResidueIsModulo(num, size);
      FixedWidth(Residue(num, size), size / 4);
    }
  }

  lemma BitsOfUnsigned(num: int, size: nat)
    requires size > 0 && num >= 0
    ensures BitLength(num) <= size <==> num < Pow(2, size)
  {
    NumeralLength(num, 2, size);
  }

  /** Any other width is refused, whatever the number. */
  lemma OtherSizesAreRefused(signed: bool, size: nat, num: int)
    requires !ValidSize(size)
    ensures Pack(TypeName(signed, size), num) == Err(InvalidSize)
  {
    hide Decimal;
    WidthIsRead(signed, size, "");
    assert TypeName(signed, size) + "" == TypeName(signed, size);
  }

  lemma BitsOfNegative(num: int, size: nat)
    requires size > 1 && num < 0
    ensures BitLength(num) <= size <==> -num < Pow(2, size - 1)
  {
    hide Numeral, Pow;
    NumeralLength(-num, 2, size - 1);
  }

  /** The error of a number that does not fit. Under an unsigned type the minus sign of a negative number counts
      as a bit, so that it is reported as too large, not as negative, when its digits fill the width. */
  lemma PackFails(signed: bool, size: nat, num: int)
    requires size % 8 == 0 && 8 <= size <= 512 && !InRange(signed, size, num)
    ensures Pack(TypeName(signed, size), num)
      == Err(if !signed && 0 < -num < Pow(2, size - 1) then InvalidUnsignedInteger else InvalidLargeValue)
  {
    hide Decimal, Numeral, PadStart, NumValue, IsNumeral, ElementaryName, ParseTypeN, TypeName, Pow, StartsWith,
      BitLength;
    WidthIsRead(signed, size, "");
    assert TypeName(signed, size) + "" == TypeName(signed, size);
    if num >= 0 { BitsOfUnsigned(num, size); } else { BitsOfNegative(num, size); }
  }

  /** Two's complement of a width given in hex digits: the number modulo 16 to the power of the width for a number
      of either sign that fits, the digits alone for a larger one, and an error for a smaller one. */
  lemma TwosComplementIs(val: int, width: nat)
    requires width > 0
    ensures var limit, r := Pow(16, width), ToTwosComplement(val, width);
      && (val >= limit ==> r == Ok(Numeral(val, 16)))
      && (val <= 0 - limit ==> r == Err(NibbleWidth))
      && (0 - limit < val < limit ==>
            r.Ok? && |r.value| == width && IsNumeral(r.value, 16) && NumValue(r.value, 16) == val % limit)
  {
    hide Numeral, PadStart, NumValue, IsNumeral, Pow;
    HexIsFourBits(width);
    var limit := Pow(16, width);
    PowPositive(16, width);
    if val >= limit {
      NumeralLength(val, 16, width);
      LongerStays(Numeral(val, 16), width);
    } else if 0 - limit < val {
      Modulo(val, limit);
      FixedWidth(if val < 0 then val + limit else val, width);
    }
  }

  lemma LongerStays(s: string, width: nat)
    requires |s| > width
    ensures PadStart(s, width, '0') == s
  {}

  lemma SamePack(a: string, b: string, num: int)
    requires StartsWith(a, "uint") == StartsWith(b, "uint") && StartsWith(a, "int") == StartsWith(b, "int")
    requires StartsWith(a, "uint") ==> ParseTypeN(ElementaryName(a), 4) == ParseTypeN(ElementaryName(b), 4)
    requires StartsWith(a, "int") ==> ParseTypeN(ElementaryName(a), 3) == ParseTypeN(ElementaryName(b), 3)
    ensures Pack(a, num) == Pack(b, num)
  {
    hide ElementaryName, StartsWith, ParseTypeN, BitLength, ToTwosComplement, Numeral, Pow;
  }

  /** A type word without a width, alone or with an array suffix, stands for the widest type. */
  lemma Widest(signed: bool, suffix: string)
    requires suffix == "" || suffix[0] == '['
    ensures var word := if signed then "int" else "uint";
      && ElementaryName(word + suffix) == TypeName(signed, 512) + suffix
      && StartsWith(word + suffix, word) && !StartsWith(word + suffix, if signed then "uint" else "int")
  {
    hide Decimal;
    var word := if signed then "int" else "uint";
    var typ := word + suffix;
    WidestWidth();
    assert typ[..|word|] == word && typ[|word|..] == suffix && typ[0] == word[0];
    if suffix == "" {
      assert typ == word && TypeName(signed, 512) + "" == TypeName(signed, 512);
    } else {
      assert typ[|word|] == '[' && typ[..|word| + 1] == word + "[";
    }
    assert signed ==> "int512" == "int" + "512";
    assert !signed ==> "uint512" == "uint" + "512";
  }

  lemma WidestWidth()
    ensures Decimal(512) == "512"
  {
    assert Decimal(5) == "5" && Decimal(51) == "51";
  }

  lemma BareWidth(signed: bool, suffix: string)
    requires suffix == "" || suffix[0] == '['
    ensures var word, typ := if signed then "int" else "uint", TypeName(signed, 512);
      && ElementaryName(word + suffix) == typ + suffix && ElementaryName(typ) == typ
      && StartsWith(word + suffix, "uint") == StartsWith(typ, "uint") == !signed
      && StartsWith(word + suffix, "int") == StartsWith(typ, "int") == signed
      && (if signed then ParseTypeN(typ + suffix, 3) == ParseTypeN(typ, 3)
          else ParseTypeN(typ + suffix, 4) == ParseTypeN(typ, 4))
  {
    hide ElementaryName, ParseTypeN, TypeName;
    Widest(signed, suffix);
    WidthIsRead(signed, 512, suffix);
    WidthIsRead(signed, 512, "");
    assert TypeName(signed, 512) + "" == TypeName(signed, 512);
  }

  /** Without a width the widest type is meant, in arrays, too. */
  lemma BareTypesAreWidest(signed: bool, suffix: string, num: int)
    requires suffix == "" || suffix[0] == '['
    ensures Pack((if signed then "int" else "uint") + suffix, num) == Pack(TypeName(signed, 512), num)
  {
    hide Pack, ElementaryName, StartsWith, ParseTypeN, TypeName;
    BareWidth(signed, suffix);
    SamePack((if signed then "int" else "uint") + suffix, TypeName(signed, 512), num);
  }

  // ---------- Lists ----------

  datatype Field = Field(signed: bool, size: nat, num: int)

  function EncodeFields(fields: seq<Field>): Result<string, PackError> {
    if |fields| == 0 then Ok("")
    else
      var first := Pack(TypeName(fields[0].signed, fields[0].size), fields[0].num);
      if first.Err? then first else
      var rest := EncodeFields(fields[1..]);
      if rest.Err? then rest else Ok(first.value + rest.value)
  }

  /** An argument is an integer, or an array of integers under an array type such as `uint8[]`. */
  datatype Argument = Scalar(field: Field) | Array(signed: bool, size: nat, suffix: string, nums: seq<int>)

  function PackEach(typ: string, nums: seq<int>): Result<string, PackError> {
    if |nums| == 0 then Ok("")
    else
      var first := Pack(typ, nums[0]);
      if first.Err? then first else
      var rest := PackEach(typ, nums[1..]);
      if rest.Err? then rest else Ok(first.value + rest.value)
  }

  /** `processHyperionEncodePackedArgs`: every element of an array is packed under the array's own type. */
  function PackArgument(a: Argument): Result<string, PackError> {
    match a
    case Scalar(f) => Pack(TypeName(f.signed, f.size), f.num)
    case Array(signed, size, suffix, nums) => PackEach(TypeName(signed, size) + suffix, nums)
  }

  function PackArguments(arguments: seq<Argument>): Result<string, PackError> {
    if |arguments| == 0 then Ok("")
    else
      var first := PackArgument(arguments[0]);
      if first.Err? then first else
      var rest := PackArguments(arguments[1..]);
      if rest.Err? then rest else Ok(first.value + rest.value)
  }

  /** `encodePacked` on integers and arrays of integers. */
  function EncodePacked(arguments: seq<Argument>): Result<string, PackError> {
    var body := PackArguments(arguments);
    if body.Err? then body else Ok("0x" + body.value)
  }

  function FieldsOf(signed: bool, size: nat, nums: seq<int>): seq<Field> {
    if |nums| == 0 then [] else [Field(signed, size, nums[0])] + FieldsOf(signed, size, nums[1..])
  }

  /** The integers of all arguments, in order. */
  function Flat(arguments: seq<Argument>): seq<Field> {
    if |arguments| == 0 then []
    else (match arguments[0]
          case Scalar(f) => [f]
          case Array(signed, size, _, nums) => FieldsOf(signed, size, nums)) + Flat(arguments[1..])
  }

  predicate ArrayTypes(arguments: seq<Argument>) {
    forall a <- arguments :: a.Array? ==> a.suffix != "" && a.suffix[0] == '['
  }

  function Word(text: string, signed: bool, size: nat): Option<int>
    requires size > 0
  {
    if !IsNumeral(text, 16) then None
    else
      var n := NumValue(text, 16);
      Some(if signed && n >= Pow(2, size - 1) then n - Pow(2, size) else n)
  }

  /** Reading the words back, given the types. */
  function Decode(types: seq<(bool, nat)>, body: string): Option<seq<int>>
    requires forall t <- types :: t.1 > 0
  {
    if |types| == 0 then (if body == "" then Some([]) else None)
    else
      var (signed, size) := types[0];
      if |body| < size / 4 then None else
      var first := Word(body[..size / 4], signed, size);
      var rest := Decode(types[1..], body[size / 4..]);
      if first.None? || rest.None? then None else Some([first.value] + rest.value)
  }

  function TypesOf(fields: seq<Field>): (t: seq<(bool, nat)>)
    ensures |t| == |fields| && forall i | 0 <= i < |fields| :: t[i] == (fields[i].signed, fields[i].size)
  {
    if |fields| == 0 then [] else [(fields[0].signed, fields[0].size)] + TypesOf(fields[1..])
  }

  function NumsOf(fields: seq<Field>): seq<int> {
    if |fields| == 0 then [] else [fields[0].num] + NumsOf(fields[1..])
  }

  lemma WordDecodes(signed: bool, size: nat, num: int)
    requires ValidSize(size) && Pack(TypeName(signed, size), num).Ok?
    ensures var s := Pack(TypeName(signed, size), num).value;
      |s| == size / 4 && Word(s, signed, size) == Some(num)
  {
    hide Decimal, Numeral, PadStart, NumValue, IsNumeral, ElementaryName, ParseTypeN, Pack, TypeName;
    PackExactly(signed, size, num);
    HalfRange(size);
    ResidueIsModulo(num, size);
  }

  /** For any list of fixed-width integers that encodes, the concatenation decodes to the same numbers. */
  lemma {:induction false} PackedDecodes(fields: seq<Field>)
    requires (forall f <- fields :: ValidSize(f.size)) && EncodeFields(fields).Ok?
    ensures (forall t <- TypesOf(fields) :: t.1 > 0)
      && Decode(TypesOf(fields), EncodeFields(fields).value) == Some(NumsOf(fields))
    decreases |fields|
  {
    hide Pack, Word, TypeName;
    assert forall i | 0 <= i < |fields| :: fields[i] in fields;
    if fields != [] {
      var f := fields[0];
      WordDecodes(f.signed, f.size, f.num);
      PackedDecodes(fields[1..]);
      var first, rest := Pack(TypeName(f.signed, f.size), f.num).value, EncodeFields(fields[1..]).value;
      assert (first + rest)[..f.size / 4] == first && (first + rest)[f.size / 4..] == rest;
    }
  }

  lemma {:induction false} EncodeConcat(a: seq<Field>, b: seq<Field>)
    ensures EncodeFields(a + b) == if EncodeFields(a).Err? then EncodeFields(a)
      else if EncodeFields(b).Err? then EncodeFields(b)
                                   else Ok(EncodeFields(a).value + EncodeFields(b).value)
    decreases |a|
  {
    hide Pack, TypeName;
    if a == [] {
      assert a + b == b;
      if EncodeFields(b).Ok? { assert "" + EncodeFields(b).value == EncodeFields(b).value; }
    } else {
      assert (a + b)[0] == a[0] && (a + b)[1..] == a[1..] + b;
      EncodeConcat(a[1..], b);
      var first, rest, all := Pack(TypeName(a[0].signed, a[0].size), a[0].num), EncodeFields(a[1..]), EncodeFields(b);
      if first.Ok? && rest.Ok? && all.Ok? {
        assert first.value + (rest.value + all.value) == (first.value + rest.value) + all.value;
      }
    }
  }

  /** The elements of an array are packed like single integers of the element type. */
  lemma {:induction false} ArrayIsFlat(signed: bool, size: nat, suffix: string, nums: seq<int>)
    requires suffix != "" && suffix[0] == '['
    ensures PackEach(TypeName(signed, size) + suffix, nums) == EncodeFields(FieldsOf(signed, size, nums))
    decreases |nums|
  {
    hide Pack, ElementaryName, ParseTypeN, TypeName, StartsWith;
    if nums != [] {
      WidthIsRead(signed, size, suffix);
      WidthIsRead(signed, size, "");
      assert TypeName(signed, size) + "" == TypeName(signed, size);
      SamePack(TypeName(signed, size) + suffix, TypeName(signed, size), nums[0]);
      ArrayIsFlat(signed, size, suffix, nums[1..]);
    }
  }

  /** Arguments are packed as the integers they contain, one after the other. */
  lemma {:induction false} ArgumentsAreFlat(arguments: seq<Argument>)
    requires ArrayTypes(arguments)
    ensures PackArguments(arguments) == EncodeFields(Flat(arguments))
    decreases |arguments|
  {
    hide Pack, TypeName;
    if arguments != [] {
      var a, rest := arguments[0], arguments[1..];
      assert forall x <- rest :: x in arguments;
      ArgumentsAreFlat(rest);
      var first := if a.Scalar? then [a.field] else FieldsOf(a.signed, a.size, a.nums);
      if a.Array? {
        ArrayIsFlat(a.signed, a.size, a.suffix, a.nums);
      } else {
        OneField(a.field);
      }
      assert PackArgument(a) == EncodeFields(first) && Flat(arguments) == first + Flat(rest);
      EncodeConcat(first, Flat(rest));
    }
  }

  lemma OneField(f: Field)
    ensures EncodeFields([f]) == Pack(TypeName(f.signed, f.size), f.num)
  {
    hide Pack, TypeName;
    assert [f][1..] == [];
    var r := Pack(TypeName(f.signed, f.size), f.num);
    if r.Ok? { assert r.value + "" == r.value; }
  }

  /** What has been packed decodes to the integers of the arguments, given their types. */
  lemma ArgumentsDecode(arguments: seq<Argument>)
    requires ArrayTypes(arguments) && (forall f <- Flat(arguments) :: ValidSize(f.size)) && EncodePacked(arguments).Ok?
    ensures (forall t <- TypesOf(Flat(arguments)) :: t.1 > 0)
    ensures Decode(TypesOf(Flat(arguments)), EncodePacked(arguments).value[2..]) == Some(NumsOf(Flat(arguments)))
  {
    hide Decode, Flat, EncodeFields, PackArguments;
    ArgumentsAreFlat(arguments);
    PackedDecodes(Flat(arguments));
    assert EncodePacked(arguments).value[2..] == EncodeFields(Flat(arguments)).value;
  }

  /** How packed text starts and how long it is. */
  lemma {:induction false} PackedLength(fields: seq<Field>)
    requires (forall f <- fields :: ValidSize(f.size)) && EncodeFields(fields).Ok?
    ensures |EncodeFields(fields).value| == Nibbles(fields)
    decreases |fields|
  {
    hide Pack, Word, TypeName;
    assert forall i | 0 <= i < |fields| :: fields[i] in fields;
    if fields != [] {
      WordDecodes(fields[0].signed, fields[0].size, fields[0].num);
      PackedLength(fields[1..]);
    }
  }

  function Nibbles(fields: seq<Field>): nat { if |fields| == 0 then 0 else fields[0].size / 4 + Nibbles(fields[1..]) }

  lemma PackedText(arguments: seq<Argument>)
    requires ArrayTypes(arguments) && (forall f <- Flat(arguments) :: ValidSize(f.size)) && EncodePacked(arguments).Ok?
    ensures var text := EncodePacked(arguments).value;
      text[..2] == "0x" && |text| == 2 + Nibbles(Flat(arguments))
  {
    hide Decode, Flat, EncodeFields, PackArguments;
    ArgumentsAreFlat(arguments);
    PackedLength(Flat(arguments));
  }

  /** So argument lists with the same element types and the same packed text hold the same numbers. */
  lemma PackingIsInjective(a: seq<Argument>, b: seq<Argument>)
    requires ArrayTypes(a) && ArrayTypes(b) && TypesOf(Flat(a)) == TypesOf(Flat(b))
    requires (forall f <- Flat(a) :: ValidSize(f.size)) && (forall f <- Flat(b) :: ValidSize(f.size))
    requires EncodePacked(a).Ok? && EncodePacked(a) == EncodePacked(b)
    ensures NumsOf(Flat(a)) == NumsOf(Flat(b))
  {
    hide Decode, Flat, EncodeFields, PackArguments, EncodePacked;
    ArgumentsDecode(a);
    ArgumentsDecode(b);
  }

  /** Where one array ends and the next begins cannot be told from the packed text. */
  lemma ArrayEndsAreLost(signed: bool, size: nat, suffix: string, x: seq<int>, y: seq<int>, z: seq<int>)
    requires suffix != "" && suffix[0] == '['
    ensures EncodePacked([Array(signed, size, suffix, x + y), Array(signed, size, suffix, z)])
         == EncodePacked([Array(signed, size, suffix, x), Array(signed, size, suffix, y + z)])
  {
    hide EncodeFields, PackArguments, FieldsOf;
    TwoArrays(signed, size, suffix, x + y, z);
    TwoArrays(signed, size, suffix, x, y + z);
    FieldsConcat(signed, size, x, y);
    FieldsConcat(signed, size, y, z);
    assert (FieldsOf(signed, size, x) + FieldsOf(signed, size, y)) + FieldsOf(signed, size, z)
        == FieldsOf(signed, size, x) + (FieldsOf(signed, size, y) + FieldsOf(signed, size, z));
  }

  lemma TwoArrays(signed: bool, size: nat, suffix: string, x: seq<int>, y: seq<int>)
    requires suffix != "" && suffix[0] == '['
    ensures PackArguments([Array(signed, size, suffix, x), Array(signed, size, suffix, y)])
         == EncodeFields(FieldsOf(signed, size, x) + FieldsOf(signed, size, y))
  {
    hide EncodeFields, PackArguments, FieldsOf;
    var a := [Array(signed, size, suffix, x), Array(signed, size, suffix, y)];
    ArgumentsAreFlat(a);
    assert a[1..] == [a[1]] && [a[1]][1..] == [];
    assert Flat([a[1]]) == FieldsOf(signed, size, y) + [] == FieldsOf(signed, size, y);
    assert Flat(a) == FieldsOf(signed, size, x) + Flat(a[1..]);
  }

  lemma {:induction false} FieldsConcat(signed: bool, size: nat, x: seq<int>, y: seq<int>)
    ensures FieldsOf(signed, size, x + y) == FieldsOf(signed, size, x) + FieldsOf(signed, size, y)
    decreases |x|
  {
    if x == [] {
      assert x + y == y;
    } else {
      assert (x + y)[0] == x[0] && (x + y)[1..] == x[1..] + y;
      FieldsConcat(signed, size, x[1..], y);
    }
  }
}
