/** What a parameter written by hand is read as, in literal text: bare integer types, the one or two words behind
    a type, parentheses and brackets out of place; and the printed texts spelled out. */
module ParamWords {
  import opened Wrappers
  import opened Texts
  import opened ParamTypes
  import opened ParamParser
  import opened ParamReading
  import opened ParamRoundTrip
  import opened CanonicalSignatures

  // ---------- Types ----------

  /** What may follow `uint` or `int` when no width does. */
  predicate NoWidth(rest: string) { rest == "" || rest[0] !in "123456789" }

  /** A type as written, and as the parser reports it. */
  ghost predicate Widens(written: string, typ: string) {
    || (exists rest :: NoWidth(rest) && written == "uint" + rest && typ == "uint512" + rest)
    || (exists rest :: NoWidth(rest) && written == "int" + rest && typ == "int512" + rest)
    || (typ == written && forall rest | NoWidth(rest) :: written != "uint" + rest && written != "int" + rest)
  }

  /** Types are verified exactly as `Widens` says. */
  lemma VerifiedType(written: string, typ: string)
    ensures VerifyType(written) == typ <==> Widens(written, typ)
  {
    if |written| >= 4 { Cut(written, 4); }
    if |written| >= 3 { Cut(written, 3); }
    forall rest ensures ("uint" + rest)[4..] == rest && ("int" + rest)[3..] == rest {}
    forall rest ensures ("uint" + rest)[..4] == "uint" && ("int" + rest)[..3] == "int" {}
    forall rest ensures ("uint" + rest)[0] == 'u' && ("int" + rest)[0] == 'i' {}
    if StartsWith(written, "uint") {
      assert written[..4] == "uint" && written[0] == "uint"[0];
      assert NoWidth(written[4..]) <==> |written| == 4 || !OneToNine(written[4]);
    } else if StartsWith(written, "int") {
      assert NoWidth(written[3..]) <==> |written| == 3 || !OneToNine(written[3]);
    }
  }

  lemma Cut(s: string, k: nat)
    requires k <= |s|
    ensures s == s[..k] + s[k..]
  {}

  /** The four literal cases. */
  lemma BareIntegers(rest: string)
    requires NoWidth(rest)
    ensures Widens("uint" + rest, "uint512" + rest) && Widens("int" + rest, "int512" + rest)
  {}

  lemma VerifiedStays(written: string, typ: string)
    requires Widens(written, typ)
    ensures Stable(typ)
  {
    VerifiedType(written, typ);
    LongerWhenVerified(written);
    LongerWhenVerified(typ);
    assert |"uint512"| == 7 && |"int512"| == 6;
  }

  // ---------- A type on its own ----------

  /** The cursor behind a type word and its array suffixes. */
  lemma TypeFed(word: string, dims: seq<string>, indexed: Option<bool>, parents: seq<Open>, allowIndexed: bool)
      returns (r: Open)
    requires Plain(word) && forall i | 0 <= i < |dims| :: AllDigits(dims[i])
    ensures Feed(Cursor(NewNode(indexed), parents), word + Brackets(dims), allowIndexed) == Some(Cursor(r, parents))
    ensures r.node == Node(word + Brackets(dims), "", indexed, NoChildren)
    ensures TypeRead(r) && r.flags.allowType && !r.flags.readArray
  {
    hide Feed, Brackets, Plain;
    var o := NewNode(indexed);
    FeedType(o, word, parents, allowIndexed);
    assert "" + word == word;
    var a := Open(o.node.(typ := word), o.flags.(allowParams := true, allowArray := true));
    NotEmpty(word);
    r := FeedBrackets(a, dims, parents, allowIndexed);
    FeedThen(Cursor(o, parents), word, Cursor(a, parents), Brackets(dims), allowIndexed);
  }

  lemma NotEmpty(s: string)
    requires Plain(s)
    ensures s != ""
  {}

  /** A type without a following word is read as itself, with its bare integers widened. */
  lemma TypeIsWidened(word: string, dims: seq<string>, typ: string, allowIndexed: bool)
    requires Plain(word) && forall i | 0 <= i < |dims| :: AllDigits(dims[i])
    requires Widens(word + Brackets(dims), typ)
    ensures FromString(word + Brackets(dims), allowIndexed) == Some(ParamType(None, typ, None, NoComponents))
  {
    hide Feed, Brackets, Plain, Widens, FinishRoot, FromNode, TypeRead;
    var r := TypeFed(word, dims, None, [], allowIndexed);
    UnnamedEnd(word + Brackets(dims), typ, allowIndexed);
  }

  lemma UnnamedEnd(written: string, typ: string, allowIndexed: bool)
    requires Widens(written, typ)
    ensures var f := FinishRoot(Node(written, "", None, NoChildren), allowIndexed);
      f.Some? && FromNode(f.value) == ParamType(None, typ, None, NoComponents)
  {
    hide Widens, VerifyType;
    VerifiedType(written, typ);
    VerifiedStays(written, typ);
    NoModifier(written);
    hide CheckModifier;
  }

  lemma NoModifier(typ: string)
    ensures CheckModifier(typ, "") == KeptName
  {}

  lemma Assoc(a: string, b: string, c: string)
    ensures (a + b) + c == a + (b + c)
  {}

  lemma PlainAppend(a: string, b: string)
    requires Plain(a) && (b == "" || Plain(b))
    ensures Plain(a + b)
  {}

  lemma PlainIntegers()
    ensures Plain("uint") && Plain("int") && Plain("uint512") && Plain("int512")
  {
    WordIsPlain("uint");
    WordIsPlain("int");
    PlainWidth();
    assert "uint512" == "uint" + "512" && "int512" == "int" + "512";
    hide PlainChar;
    PlainAppend("uint", "512");
    PlainAppend("int", "512");
  }

  lemma PlainWidth()
    ensures Plain("512")
  {}

  /** A parameter of one type and nothing else prints that type with its lengths reprinted. */
  lemma PlainTypePrints(word: string, dims: seq<string>, style: Style)
    requires Plain(word) && Stable(word + Brackets(dims)) && forall i | 0 <= i < |dims| :: AllDigits(dims[i])
    ensures Format(ParamType(None, word + Brackets(dims), None, NoComponents), style)
         == word + Brackets(ReprintAll(dims))
  {
    hide Format, Brackets, Plain, Stable, Dims, Base, ReprintAll;
    var p := ParamType(None, word + Brackets(dims), None, NoComponents);
    BaseOfBrackets(word, dims);
    FormatShape(p, style);
    assert Tail(p, style) == "";
  }

  /** `uint` and `int` are read as the widest type, whatever follows but a width: the array suffixes stay, and
      the signature prints the widened type. */
  lemma BareIntegersAreWidened(rest: string, dims: seq<string>, allowIndexed: bool, style: Style)
    requires NoWidth(rest) && (rest == "" || Plain(rest)) && forall i | 0 <= i < |dims| :: AllDigits(dims[i])
    ensures var p := ParamType(None, "uint512" + rest + Brackets(dims), None, NoComponents);
      && FromString("uint" + rest + Brackets(dims), allowIndexed) == Some(p)
      && WellTyped(p) && Format(p, style) == "uint512" + rest + Brackets(ReprintAll(dims))
    ensures var p := ParamType(None, "int512" + rest + Brackets(dims), None, NoComponents);
      && FromString("int" + rest + Brackets(dims), allowIndexed) == Some(p)
      && WellTyped(p) && Format(p, style) == "int512" + rest + Brackets(ReprintAll(dims))
  {
    PlainIntegers();
    NoWidthBehind(rest, dims);
    BareIntegers(rest + Brackets(dims));
    hide Plain, Widens, Brackets, Format, FromString, NoWidth, WellTyped;
    Assoc("uint", rest, Brackets(dims));
    Assoc("uint512", rest, Brackets(dims));
    Assoc("int", rest, Brackets(dims));
    Assoc("int512", rest, Brackets(dims));
    WideIsRead("uint", "uint512", rest, dims, allowIndexed, style);
    WideIsRead("int", "int512", rest, dims, allowIndexed, style);
  }

  lemma WideIsRead(bare: string, wide: string, rest: string, dims: seq<string>, allowIndexed: bool, style: Style)
    requires Plain(bare) && Plain(wide) && (rest == "" || Plain(rest))
    requires forall i | 0 <= i < |dims| :: AllDigits(dims[i])
    requires Widens(bare + rest + Brackets(dims), wide + rest + Brackets(dims))
    ensures var p := ParamType(None, wide + rest + Brackets(dims), None, NoComponents);
      && FromString(bare + rest + Brackets(dims), allowIndexed) == Some(p)
      && WellTyped(p) && Format(p, style) == wide + rest + Brackets(ReprintAll(dims))
  {
    hide Plain, Widens, Brackets, Format, FromString, Stable;
    PlainAppend(bare, rest);
    PlainAppend(wide, rest);
    TypeIsWidened(bare + rest, dims, wide + rest + Brackets(dims), allowIndexed);
    VerifiedStays(bare + rest + Brackets(dims), wide + rest + Brackets(dims));
    PlainTypePrints(wide + rest, dims, style);
  }

  lemma NoWidthBehind(rest: string, dims: seq<string>)
    requires NoWidth(rest)
    ensures NoWidth(rest + Brackets(dims))
  {}

  // ---------- One word behind the type ----------

  predicate ModifierWord(word: string) { word in ["calldata", "memory", "storage", "payable"] || InheritedKey(word) }

  /** The types behind which a modifier is allowed, and dropped. */
  predicate Modifies(word: string, typ: string) {
    if word == "payable" then typ == "address"
    else if word == "storage" then typ in ["bytes", "string"]
    else ModifierWord(word) && (typ in ["bytes", "string", "tuple"] || '[' in typ)
  }

  lemma ModifierIs(typ: string, word: string)
    ensures CheckModifier(typ, word) ==
      if Modifies(word, typ) then Dropped else if ModifierWord(word) then Invalid else KeptName
  {}

  /** The cursor behind a type and a word. */
  lemma WordFed(word: string, dims: seq<string>, typ: string, name: string, indexed: Option<bool>,
      parents: seq<Open>, allowIndexed: bool) returns (r: Open)
    requires Plain(word) && Plain(name) && forall i | 0 <= i < |dims| :: AllDigits(dims[i])
    requires Widens(word + Brackets(dims), typ)
    ensures Feed(Cursor(NewNode(indexed), parents), word + Brackets(dims) + (" " + name), allowIndexed)
         == Some(Cursor(r, parents))
    ensures r.node == Node(typ, name, indexed, NoChildren)
    ensures !r.flags.allowType && r.flags.allowName && !r.flags.readArray && !r.flags.allowArray
  {
    hide Feed, Brackets, Plain, Widens, VerifyType;
    var a := TypeFed(word, dims, indexed, parents, allowIndexed);
    VerifiedType(word + Brackets(dims), typ);
    var b := EndType(a);
    SpaceEndsType(a, parents, allowIndexed);
    FeedName(b, name, parents, allowIndexed);
    assert "" + name == name;
    FeedThen(Cursor(a, parents), " ", Cursor(b, parents), name, allowIndexed);
    FeedThen(Cursor(NewNode(indexed), parents), word + Brackets(dims), Cursor(a, parents), " " + name, allowIndexed);
    r := Open(b.node.(name := name), b.flags.(allowArray := false));
  }

  lemma SpaceEndsType(o: Open, parents: seq<Open>, allowIndexed: bool)
    requires TypeRead(o) && o.flags.allowType
    ensures Feed(Cursor(o, parents), " ", allowIndexed) == Some(Cursor(EndType(o), parents))
  {}

  lemma NotModifier(typ: string)
    ensures !ModifierWord("indexed") && !Modifies("indexed", typ)
  {}

  /** What a parameter of one type and one word is read as. */
  function WordMeans(typ: string, word: string, allowIndexed: bool): Option<ParamType> {
    if word == "indexed" then
      if allowIndexed then Some(ParamType(None, typ, Some(true), NoComponents)) else None
    else if Modifies(word, typ) then Some(ParamType(None, typ, None, NoComponents))
    else if ModifierWord(word) then None
    else Some(ParamType(Some(word), typ, None, NoComponents))
  }

  /** The word behind a type is its name, unless it marks the parameter, modifies its type or is refused. */
  lemma WordIsRead(word: string, dims: seq<string>, typ: string, name: string, allowIndexed: bool)
    requires Plain(word) && Plain(name) && forall i | 0 <= i < |dims| :: AllDigits(dims[i])
    requires Widens(word + Brackets(dims), typ)
    ensures FromString(word + Brackets(dims) + (" " + name), allowIndexed) == WordMeans(typ, name, allowIndexed)
  {
    hide Feed, Brackets, Widens, FinishRoot, FromNode, WordMeans;
    NotEmpty(name);
    hide Plain;
    var r := WordFed(word, dims, typ, name, None, [], allowIndexed);
    VerifiedStays(word + Brackets(dims), typ);
    WordEnds(typ, name, allowIndexed);
  }

  lemma WordEnds(typ: string, name: string, allowIndexed: bool)
    requires Stable(typ) && name != ""
    ensures var f := FinishRoot(Node(typ, name, None, NoChildren), allowIndexed);
      (if f.None? then None else Some(FromNode(f.value))) == WordMeans(typ, name, allowIndexed)
  {
    ModifierIs(typ, name);
    hide CheckModifier, Modifies, ModifierWord, VerifyType;
  }

  // ---------- Two words behind the type ----------

  function Marked(p: Option<ParamType>): Option<ParamType> {
    if p.None? then None else Some(p.value.(indexed := Some(true)))
  }

  /** Behind a first word a second one is read only if the first marks the parameter, once, or modifies its type. */
  lemma TwoWordsAreRead(word: string, dims: seq<string>, typ: string, first: string, name: string, allowIndexed: bool)
    requires Plain(word) && Plain(first) && Plain(name) && forall i | 0 <= i < |dims| :: AllDigits(dims[i])
    requires Widens(word + Brackets(dims), typ)
    ensures FromString(word + Brackets(dims) + (" " + first) + (" " + name), allowIndexed) ==
      if first == "indexed" then
        if !allowIndexed || name == "indexed" then None else Marked(WordMeans(typ, name, allowIndexed))
      else if Modifies(first, typ) then WordMeans(typ, name, allowIndexed)
      else None
  {
    hide Feed, Brackets, Widens, FinishRoot, FromNode, WordMeans, Modifies, VerifyType;
    NotEmpty(first);
    NotEmpty(name);
    var text := word + Brackets(dims) + (" " + first);
    var start := Cursor(NewNode(None), []);
    var a := WordFed(word, dims, typ, first, None, [], allowIndexed);
    VerifiedStays(word + Brackets(dims), typ);
    FeedConcat(start, text, " " + name, allowIndexed);
    SecondWord(a, typ, first, name, allowIndexed);
    NotModifier(typ);
    MarkedEnd(typ, name, allowIndexed);
    WordEnds(typ, name, allowIndexed);
  }

  /** Which flags and which node the second word meets. */
  lemma SecondWord(a: Open, typ: string, first: string, name: string, allowIndexed: bool)
    requires a.node == Node(typ, first, None, NoChildren) && first != "" && Plain(name)
    requires !a.flags.allowType && a.flags.allowName && !a.flags.readArray
    ensures var end := Feed(Cursor(a, []), " " + name, allowIndexed);
      if first == "indexed" && allowIndexed then
        end.Some? && end.value.parents == [] && end.value.at.node == Node(typ, name, Some(true), NoChildren)
      else if Modifies(first, typ) then
        end.Some? && end.value.parents == [] && end.value.at.node == Node(typ, name, None, NoChildren)
      else end == None
  {
    ModifierIs(typ, first);
    NotModifier(typ);
    var b := Space(a, allowIndexed);
    OneSpace(a, allowIndexed);
    hide Modifies, ModifierWord, CheckModifier;
    if b.None? {
      FeedThrows(Cursor(a, []), " ", name, allowIndexed);
    } else {
      FeedThen(Cursor(a, []), " ", Cursor(b.value, []), name, allowIndexed);
      if b.value.flags.allowName {
        FeedName(b.value, name, [], allowIndexed);
        assert "" + name == name;
      } else {
        NoNameAllowed(b.value, name, allowIndexed);
      }
    }
  }

  lemma OneSpace(a: Open, allowIndexed: bool)
    ensures Feed(Cursor(a, []), " ", allowIndexed)
         == var b := Space(a, allowIndexed); if b.None? then None else Some(Cursor(b.value, []))
  {}

  lemma NoNameAllowed(o: Open, name: string, allowIndexed: bool)
    requires Plain(name) && !o.flags.allowType && !o.flags.allowName && !o.flags.readArray
    ensures Feed(Cursor(o, []), name, allowIndexed) == None
  {
    assert PlainChar(name[0]);
  }

  /** The last word behind `indexed`. */
  lemma MarkedEnd(typ: string, name: string, allowIndexed: bool)
    requires Stable(typ) && name != ""
    ensures var f := FinishRoot(Node(typ, name, Some(true), NoChildren), allowIndexed);
      (if f.None? then None else Some(FromNode(f.value))) ==
        if name == "indexed" then None else Marked(WordMeans(typ, name, allowIndexed))
  {
    ModifierIs(typ, name);
    hide CheckModifier, Modifies, ModifierWord, VerifyType;
  }

  // ---------- A component ----------

  /** As the only component of a tuple, a parameter of one type and one word means the same; its flag is off, not
      absent, where flags are allowed. */
  lemma ComponentIsRead(word: string, dims: seq<string>, typ: string, name: string, allowIndexed: bool)
    requires Plain(word) && Plain(name) && forall i | 0 <= i < |dims| :: AllDigits(dims[i])
    requires Widens(word + Brackets(dims), typ)
    ensures FromString("(" + (word + Brackets(dims) + (" " + name)) + ")", allowIndexed) ==
      var p := WordMeans(typ, name, allowIndexed);
      if p.None? then None else
      var flag := if name == "indexed" then Some(true) else if allowIndexed then Some(false) else None;
      Some(ParamType(None, "tuple", None, Components([p.value.(indexed := flag)])))
  {
    hide Feed, Brackets, Widens, Finish, WordMeans, VerifyType;
    NotEmpty(name);
    hide Plain;
    var text := word + Brackets(dims) + (" " + name);
    var start, parent := Cursor(NewNode(None), []), Parent(allowIndexed);
    OneParen(allowIndexed);
    var a := WordFed(word, dims, typ, name, ChildIndexed(allowIndexed), [parent], allowIndexed);
    VerifiedStays(word + Brackets(dims), typ);
    var inside := Cursor(NewNode(ChildIndexed(allowIndexed)), [parent]);
    FeedThen(start, "(", inside, text, allowIndexed);
    FeedThen(start, "(" + text, Cursor(a, [parent]), ")", allowIndexed);
    ComponentEnds(a, typ, name, allowIndexed);
  }

  function Parent(allowIndexed: bool): Open {
    Open(Node("tuple", "", None, Children([])), NewNode(None).flags.(allowType := false))
  }

  lemma OneParen(allowIndexed: bool)
    ensures Feed(Cursor(NewNode(None), []), "(", allowIndexed)
         == Some(Cursor(NewNode(ChildIndexed(allowIndexed)), [Parent(allowIndexed)]))
  {
    LongerWhenVerified("tuple");
    hide VerifyType;
    var start, next := Cursor(NewNode(None), []), Cursor(NewNode(ChildIndexed(allowIndexed)), [Parent(allowIndexed)]);
    assert [] + [Parent(allowIndexed)] == [Parent(allowIndexed)];
    assert OpenParen(start, allowIndexed) == Some(next);
    assert Step(start, '(', allowIndexed) == Some(next);
  }

  lemma ComponentEnds(a: Open, typ: string, name: string, allowIndexed: bool)
    requires Stable(typ) && name != "" && a.node == Node(typ, name, ChildIndexed(allowIndexed), NoChildren)
    ensures var end := Feed(Cursor(a, [Parent(allowIndexed)]), ")", allowIndexed);
      var p := WordMeans(typ, name, allowIndexed);
      if p.None? then end == None else
        && end.Some? && end.value.parents == []
        && var flag := if name == "indexed" then Some(true) else if allowIndexed then Some(false) else None;
        var f := FinishRoot(end.value.at.node, allowIndexed);
        && f.Some?
        && FromNode(f.value) == ParamType(None, "tuple", None, Components([p.value.(indexed := flag)]))
  {
    hide WordMeans, Finish, FinishRoot;
    ComponentFinish(typ, name, allowIndexed);
    CloseOne(a, allowIndexed);
    var c := Finish(a.node, allowIndexed);
    if c.Some? { TupleEnds(c.value, allowIndexed); }
  }

  lemma ComponentFinish(typ: string, name: string, allowIndexed: bool)
    requires Stable(typ) && name != ""
    ensures var c := Finish(Node(typ, name, ChildIndexed(allowIndexed), NoChildren), allowIndexed);
      var p := WordMeans(typ, name, allowIndexed);
      var flag := if name == "indexed" then Some(true) else if allowIndexed then Some(false) else None;
      if p.None? then c == None else c.Some? && FromNode(c.value) == p.value.(indexed := flag)
  {
    ModifierIs(typ, name);
    ModifierIs(typ, "");
    NotModifier(typ);
    NoModifier(typ);
    hide CheckModifier, Modifies, ModifierWord, VerifyType;
  }

  lemma CloseOne(a: Open, allowIndexed: bool)
    ensures var c := Finish(a.node, allowIndexed);
      var end := Feed(Cursor(a, [Parent(allowIndexed)]), ")", allowIndexed);
      if c.None? then end == None else
        && end.Some? && end.value.parents == []
        && end.value.at.node == Parent(allowIndexed).node.(components := Children([c.value]))
  {
    hide Finish;
    var c, parent := Finish(a.node, allowIndexed), Parent(allowIndexed);
    assert Step(Cursor(a, [parent]), ')', allowIndexed) == CloseParen(Cursor(a, [parent]), allowIndexed);
    if c.Some? { assert [] + [c.value] == [c.value]; }
  }

  lemma TupleEnds(c: Node, allowIndexed: bool)
    ensures var f := FinishRoot(Parent(allowIndexed).node.(components := Children([c])), allowIndexed);
      f.Some? && FromNode(f.value) == ParamType(None, "tuple", None, Components([FromNode(c)]))
  {
    NoModifier("tuple");
    LongerWhenVerified("tuple");
    hide CheckModifier, VerifyType;
    assert FromNodes([c]) == [FromNode(c)];
  }

  // ---------- Printed text ----------

  lemma StemText(p: ParamType, style: Style)
    requires WellTyped(p)
    ensures Stem(p, style) ==
      match p.components
      case NoComponents => Base(p.typ)
      case Components(list) =>
        (if style == Sighash then "" else Base(p.typ))
        + "(" + Join(Formats(list, style), if style == Full then ", " else ",") + ")"
  {}

  lemma TailText(p: ParamType, style: Style)
    ensures Tail(p, style) ==
      var flag := if p.indexed == Some(true) then " indexed" else "";
      match style
      case Sighash => ""
      case Minimal => flag
      case Full => flag + (if p.name.Some? && p.name.value != "" then " " + p.name.value else "")
  {
    if p.indexed == Some(true) { assert " indexed" + "" == " indexed"; }
  }

  /** The three texts of a parameter, spelled out. */
  lemma PrintedText(p: ParamType, word: string, dims: seq<string>, style: Style)
    requires WellTyped(p) && p.typ == word + Brackets(dims)
    requires Plain(word) && forall i | 0 <= i < |dims| :: AllDigits(dims[i])
    ensures Format(p, style) ==
      var body :=
        match p.components
        case NoComponents => word
        case Components(list) =>
          (if style == Sighash then "" else word)
          + "(" + Join(Formats(list, style), if style == Full then ", " else ",") + ")";
      var flag := if p.indexed == Some(true) then " indexed" else "";
      var tail :=
        match style
        case Sighash => ""
        case Minimal => flag
        case Full => flag + (if p.name.Some? && p.name.value != "" then " " + p.name.value else "");
      body + Brackets(ReprintAll(dims)) + tail
  {
    hide Format, Brackets, Plain, Stable, Dims, Base, ReprintAll, Formats, Join, WellTyped, VerifyType, Stem, Tail;
    BaseOfBrackets(word, dims);
    FormatShape(p, style);
    StemText(p, style);
    TailText(p, style);
  }

  /** The words that every object of JavaScript inherits act as data locations do. */
  lemma InheritedWords(word: string, typ: string)
    requires word in [
      "__defineGetter__", "__defineSetter__", "__lookupGetter__", "__lookupSetter__", "__proto__", "constructor",
      "hasOwnProperty", "isPrototypeOf", "propertyIsEnumerable", "toLocaleString", "toString", "valueOf"]
    ensures Modifies(word, typ) <==> Modifies("memory", typ)
    ensures ModifierWord(word)
  {}

  // ---------- Parentheses and brackets ----------

  /** Equal but for whether the outermost open node may take a name by now. */
  predicate AlikeOpen(p: Open, q: Open) { p.node == q.node && p.flags.(allowName := q.flags.allowName) == q.flags }

  predicate Alike(s: Cursor, t: Cursor) {
    || s == t
    || (s.at == t.at && |s.parents| == |t.parents| > 0 && s.parents[1..] == t.parents[1..]
        && AlikeOpen(s.parents[0], t.parents[0]))
  }

  predicate AlikeAfter(s: Option<Cursor>, t: Option<Cursor>) {
    if s.None? then t.None? else t.Some? && Alike(s.value, t.value)
  }

  lemma AlikePop(p: seq<Open>, q: seq<Open>)
    requires |p| == |q| > 1 && p[1..] == q[1..]
    ensures p[|p| - 1] == q[|q| - 1] && p[..|p| - 1][1..] == q[..|q| - 1][1..]
    ensures p[..|p| - 1][0] == p[0] && q[..|q| - 1][0] == q[0]
  {
    assert p[|p| - 1] == p[1..][|p| - 2] && q[|q| - 1] == q[1..][|q| - 2];
    assert p[..|p| - 1][1..] == p[1..][..|p| - 2] && q[..|q| - 1][1..] == q[1..][..|q| - 2];
  }

  lemma AlikeClose(s: Cursor, t: Cursor, allowIndexed: bool)
    requires Alike(s, t) && s != t
    ensures AlikeAfter(CloseParen(s, allowIndexed), CloseParen(t, allowIndexed))
  {
    hide Finish;
    var p, q := s.parents, t.parents;
    if |p| > 1 { AlikePop(p, q); } else { assert p[..0] == q[..0]; }
  }

  lemma AlikeComma(s: Cursor, t: Cursor, allowIndexed: bool)
    requires Alike(s, t) && s != t
    ensures AlikeAfter(Comma(s, allowIndexed), Comma(t, allowIndexed))
  {
    hide Finish, NewNode;
    var p, q := s.parents, t.parents;
    var child := Finish(s.at.node, allowIndexed);
    if child.Some? {
      if |p| > 1 {
        AlikePop(p, q);
        var last := [Adopt(p[|p| - 1], child.value)];
        assert (p[..|p| - 1] + last)[1..] == p[..|p| - 1][1..] + last;
        assert (q[..|q| - 1] + last)[1..] == q[..|q| - 1][1..] + last;
      } else {
        assert p[..0] + [Adopt(p[0], child.value)] == [Adopt(p[0], child.value)];
        assert q[..0] + [Adopt(q[0], child.value)] == [Adopt(q[0], child.value)];
      }
    }
  }

  lemma AlikeOpens(s: Cursor, t: Cursor, allowIndexed: bool)
    requires Alike(s, t) && s != t
    ensures AlikeAfter(OpenParen(s, allowIndexed), OpenParen(t, allowIndexed))
  {
    hide VerifyType, NewNode, AlikeOpen;
    var r := OpenParen(s, allowIndexed);
    if r.Some? {
      var parent := r.value.parents[|s.parents|];
      assert (s.parents + [parent])[1..] == s.parents[1..] + [parent];
      assert (t.parents + [parent])[1..] == t.parents[1..] + [parent];
    }
  }

  lemma AlikeStep(s: Cursor, t: Cursor, c: char, allowIndexed: bool)
    requires Alike(s, t)
    ensures AlikeAfter(Step(s, c, allowIndexed), Step(t, c, allowIndexed))
  {
    hide CloseParen, OpenParen, Comma, Quiet, AlikeOpen;
    if s != t {
      if c == '(' {
        AlikeOpens(s, t, allowIndexed);
      } else if c == ')' {
        AlikeClose(s, t, allowIndexed);
      } else if c == ',' {
        AlikeComma(s, t, allowIndexed);
      }
    } else {
      var r := Step(s, c, allowIndexed);
      hide Step;
      if r.Some? { AlikeSelf(r.value, r.value); }
    }
  }

  lemma {:induction false} AlikeFeed(s: Cursor, t: Cursor, text: string, allowIndexed: bool)
    requires Alike(s, t)
    ensures AlikeAfter(Feed(s, text, allowIndexed), Feed(t, text, allowIndexed))
    decreases |text|
  {
    hide Step, Alike;
    if text != "" {
      AlikeStep(s, t, text[0], allowIndexed);
      var a, b := Step(s, text[0], allowIndexed), Step(t, text[0], allowIndexed);
      if a.Some? { AlikeFeed(a.value, b.value, text[1..], allowIndexed); }
    } else {
      AlikeSelf(s, t);
    }
  }

  lemma AlikeSelf(s: Cursor, t: Cursor)
    requires Alike(s, t)
    ensures AlikeAfter(Some(s), Some(t))
  {}

  /** Between a type word and its components there may be a space, whatever comes behind. */
  lemma SpaceBeforeParen(word: string, rest: string, allowIndexed: bool)
    requires Plain(word)
    ensures FromString(word + (" (" + rest), allowIndexed) == FromString(word + ("(" + rest), allowIndexed)
  {
    hide Feed, Plain, VerifyType, Step;
    var o, start := NewNode(None), Cursor(NewNode(None), []);
    FeedType(o, word, [], allowIndexed);
    NotEmpty(word);
    assert "" + word == word;
    var a := Cursor(Open(o.node.(typ := word), o.flags.(allowParams := true, allowArray := true)), []);
    FeedThen(start, word, a, " (" + rest, allowIndexed);
    FeedThen(start, word, a, "(" + rest, allowIndexed);
    ParenAfterWord(a.at, allowIndexed);
    var s, t := Feed(a, " (", allowIndexed).value, Feed(a, "(", allowIndexed).value;
    FeedThen(a, " (", s, rest, allowIndexed);
    FeedThen(a, "(", t, rest, allowIndexed);
    AlikeFeed(s, t, rest, allowIndexed);
  }

  lemma ParenAfterWord(o: Open, allowIndexed: bool)
    requires o.flags.allowType && o.flags.allowParams && o.node.typ != "" && o.node.name == ""
    ensures var s, t := Feed(Cursor(o, []), " (", allowIndexed), Feed(Cursor(o, []), "(", allowIndexed);
      s.Some? && t.Some? && Alike(s.value, t.value)
  {
    VerifiedType(o.node.typ, VerifyType(o.node.typ));
    VerifiedStays(o.node.typ, VerifyType(o.node.typ));
    hide VerifyType;
    var b, i := EndType(o), NewNode(ChildIndexed(allowIndexed));
    var p := Open(b.node.(components := Children([])), b.flags);
    var q := Open(p.node, o.flags.(allowType := false));
    SpaceEndsWord(o, allowIndexed);
    assert [] + [p] == [p] && [] + [q] == [q];
    OneStep(Cursor(b, []), '(', Cursor(i, [p]), allowIndexed);
    OneStep(Cursor(o, []), '(', Cursor(i, [q]), allowIndexed);
    FeedThen(Cursor(o, []), " ", Cursor(b, []), "(", allowIndexed);
  }

  lemma OneStep(s: Cursor, c: char, t: Cursor, allowIndexed: bool)
    requires Step(s, c, allowIndexed) == Some(t)
    ensures Feed(s, [c], allowIndexed) == Some(t)
  {}

  lemma SpaceEndsWord(o: Open, allowIndexed: bool)
    requires o.flags.allowType && o.node.typ != "" && o.node.name == ""
    ensures Feed(Cursor(o, []), " ", allowIndexed) == Some(Cursor(EndType(o), []))
  {
    OneStep(Cursor(o, []), ' ', Cursor(EndType(o), []), allowIndexed);
  }

  /** No open node still takes its type. */
  predicate Settled(s: Cursor) { forall p <- s.parents :: !p.flags.allowType }

  lemma {:induction false} StaysSettled(s: Cursor, text: string, allowIndexed: bool)
    requires Settled(s)
    ensures var t := Feed(s, text, allowIndexed); t.Some? ==> Settled(t.value)
    decreases |text|
  {
    hide Quiet, Finish, NewNode, VerifyType;
    if text != "" {
      var next := Step(s, text[0], allowIndexed);
      if next.Some? { StaysSettled(next.value, text[1..], allowIndexed); }
    }
  }

  /** Two opening brackets in a row, two closing ones, components behind components, and a bracket without a type
      in front of it are refused wherever they stand. */
  lemma Misplaced(before: string, behind: string, allowIndexed: bool)
    ensures forall pair | pair in ["[[", "]]", ")(", "([", ",["] ::
      FromString(before + (pair + behind), allowIndexed) == None
  {
    hide Step, Settled;
    var start := Cursor(NewNode(None), []);
    NoneOpen(start);
    StaysSettled(start, before, allowIndexed);
    forall pair | pair in ["[[", "]]", ")(", "([", ",["]
      ensures FromString(before + (pair + behind), allowIndexed) == None {
      var mid := Feed(start, before, allowIndexed);
      if mid.Some? {
        PairThrows(mid.value, pair, allowIndexed);
        FeedThrows(mid.value, pair, behind, allowIndexed);
        FeedThen(start, before, mid.value, pair + behind, allowIndexed);
      } else {
        FeedThrows(start, before, pair + behind, allowIndexed);
      }
    }
  }

  lemma BracketFirst(rest: string, allowIndexed: bool)
    ensures FromString("[" + rest, allowIndexed) == None && FromString("]" + rest, allowIndexed) == None
  {
    hide Feed;
    var start := Cursor(NewNode(None), []);
    OneThrow(start, '[', allowIndexed);
    OneThrow(start, ']', allowIndexed);
    FeedThrows(start, "[", rest, allowIndexed);
    FeedThrows(start, "]", rest, allowIndexed);
  }

  lemma NoneOpen(s: Cursor)
    requires s.parents == []
    ensures Settled(s)
  {}

  lemma PairThrows(s: Cursor, pair: string, allowIndexed: bool)
    requires Settled(s) && pair in ["[[", "]]", ")(", "([", ",["]
    ensures Feed(s, pair, allowIndexed) == None
  {
    hide Finish, VerifyType;
    var next := Step(s, pair[0], allowIndexed);
    if next.Some? { assert Step(next.value, pair[1], allowIndexed) == None; }
    assert pair[1..] == [pair[1]];
  }

  /** Behind a name there are no array suffixes. */
  lemma BracketBehindName(word: string, dims: seq<string>, typ: string, name: string, bracket: char, rest: string,
      allowIndexed: bool)
    requires Plain(word) && Plain(name) && forall i | 0 <= i < |dims| :: AllDigits(dims[i])
    requires Widens(word + Brackets(dims), typ) && (bracket == '[' || bracket == ']')
    ensures FromString(word + Brackets(dims) + (" " + name) + ([bracket] + rest), allowIndexed) == None
  {
    hide Feed, Brackets, Widens, Plain, Step, FinishRoot;
    var start, text := Cursor(NewNode(None), []), word + Brackets(dims) + (" " + name);
    var r := WordFed(word, dims, typ, name, None, [], allowIndexed);
    FeedThen(start, text, Cursor(r, []), [bracket] + rest, allowIndexed);
    NoBracketHere(Cursor(r, []), bracket, allowIndexed);
    OneThrow(Cursor(r, []), bracket, allowIndexed);
    FeedThrows(Cursor(r, []), [bracket], rest, allowIndexed);
  }

  lemma NoBracketHere(s: Cursor, bracket: char, allowIndexed: bool)
    requires (bracket == '[' || bracket == ']') && !s.at.flags.allowArray && !s.at.flags.readArray
    ensures Step(s, bracket, allowIndexed) == None
  {}

  lemma OneThrow(s: Cursor, c: char, allowIndexed: bool)
    requires Step(s, c, allowIndexed) == None
    ensures Feed(s, [c], allowIndexed) == None
  {}

  /** The length of an array is the number in its last brackets, or -1, and its children have what stands in
      front of them as their type. */
  lemma LastSuffix(p: ParamType, head: string, digits: string)
    requires p.typ == head + "[" + digits + "]" && AllDigits(digits) && Stable(head)
    requires forall c <- head :: c !in "\n\r\U{2028}\U{2029}"
    ensures IsArray(p) && ArrayLength(p) == (if digits == "" then -1 else Value(digits))
    ensures ArrayChildren(p) == ParamType(None, head, None, p.components)
  {
    forall c | c in head ensures !LineBreak(c) {}
    ArrayMatchIs(head, digits);
    hide ArrayMatch;
  }

  // ---------- Every type is verified ----------

  /** The node's type and all types below it have been through `verifyType`. */
  predicate Verified(n: Node)
    decreases n
  {
    Stable(n.typ)
      && (n.components.Children? ==> forall i | 0 <= i < |n.components.list| :: Verified(n.components.list[i]))
  }

  predicate ChildrenVerified(n: Node) {
    n.components.Children? ==> forall i | 0 <= i < |n.components.list| :: Verified(n.components.list[i])
  }

  predicate TreeVerified(s: Cursor) { ChildrenVerified(s.at.node) && forall p <- s.parents :: ChildrenVerified(p.node) }

  lemma VerifyingStays(typ: string)
    ensures Stable(VerifyType(typ))
  {
    VerifiedType(typ, VerifyType(typ));
    VerifiedStays(typ, VerifyType(typ));
  }

  lemma FinishVerifies(n: Node, allowIndexed: bool)
    requires ChildrenVerified(n)
    ensures Finish(n, allowIndexed).Some? ==> Verified(Finish(n, allowIndexed).value)
    ensures FinishRoot(n, allowIndexed).Some? ==> Verified(FinishRoot(n, allowIndexed).value)
  {
    VerifyingStays(n.typ);
    hide VerifyType, CheckModifier;
  }

  lemma AdoptVerifies(p: Open, child: Node)
    requires ChildrenVerified(p.node) && Verified(child)
    ensures ChildrenVerified(Adopt(p, child).node)
  {
    hide Verified;
  }

  lemma StepVerifies(s: Cursor, c: char, allowIndexed: bool)
    requires TreeVerified(s)
    ensures var t := Step(s, c, allowIndexed); t.Some? ==> TreeVerified(t.value)
  {
    FinishVerifies(s.at.node, allowIndexed);
    hide Finish, VerifyType, CheckModifier, Verified;
    if c == ')' || c == ',' {
      var child := Finish(s.at.node, allowIndexed);
      if child.Some? && |s.parents| > 0 { AdoptVerifies(s.parents[|s.parents| - 1], child.value); }
      hide Adopt;
    } else if c == '(' {
    } else {
      QuietKeeps(s.at, c, allowIndexed);
    }
  }

  lemma QuietKeeps(o: Open, c: char, allowIndexed: bool)
    ensures var a := Quiet(o, c, allowIndexed); a.Some? ==> a.value.node.components == o.node.components
  {
    hide VerifyType, CheckModifier, IsSpace;
  }

  lemma {:induction false} FeedVerifies(s: Cursor, text: string, allowIndexed: bool)
    requires TreeVerified(s)
    ensures var t := Feed(s, text, allowIndexed); t.Some? ==> TreeVerified(t.value)
    decreases |text|
  {
    hide Step, TreeVerified;
    if text != "" {
      StepVerifies(s, text[0], allowIndexed);
      var next := Step(s, text[0], allowIndexed);
      if next.Some? { FeedVerifies(next.value, text[1..], allowIndexed); }
    }
  }

  lemma {:induction false} FromNodeKeeps(n: Node)
    requires Verified(n)
    ensures WellTyped(FromNode(n))
    decreases n
  {
    if n.components.Children? {
      forall i | 0 <= i < |n.components.list| ensures WellTyped(FromNode(n.components.list[i])) {
        FromNodeKeeps(n.components.list[i]);
      }
    }
  }

  /** Whatever the text, no bare integer type is left in what is read, at any depth. */
  lemma ReadIsVerified(text: string, allowIndexed: bool)
    ensures Parse(text, allowIndexed).Some? ==> Verified(Parse(text, allowIndexed).value)
    ensures FromString(text, allowIndexed).Some? ==> WellTyped(FromString(text, allowIndexed).value)
  {
    hide Feed, Finish, FinishRoot, FromNode, Verified, WellTyped;
    var start := Cursor(NewNode(None), []);
    FeedVerifies(start, text, allowIndexed);
    var end := Feed(start, text, allowIndexed);
    if end.Some? { FinishVerifies(end.value.at.node, allowIndexed); }
    if Parse(text, allowIndexed).Some? { FromNodeKeeps(Parse(text, allowIndexed).value); }
  }
}
