/** What the parser makes of printed text: reading a printed parameter, character by character, gives a
    node that can be computed from the parameter alone. */
module ParamReading {
  import opened Wrappers
  import opened Texts
  import opened ParamTypes
  import opened ParamParser

  /** A character with no meaning of its own in type text. */
  predicate PlainChar(c: char) { !IsSpace(c) && c !in "()[]," }

  /** A token: a type word or a name. */
  predicate Plain(s: string) { s != [] && forall i | 0 <= i < |s| :: PlainChar(s[i]) }

  /** A parameter whose tokens are words; nothing is said yet about which words. */
  predicate Legible(p: ParamType)
    decreases p
  {
    && Stable(p.typ) && Plain(Base(p.typ))
    && (p.name.Some? ==> Plain(p.name.value))
    && (p.components.Components? ==> forall i | 0 <= i < |p.components.list| :: Legible(p.components.list[i]))
  }

  predicate AllLegible(list: seq<ParamType>) {
    forall i | 0 <= i < |list| :: Legible(list[i])
  }

  // ---------- The node a printed parameter is read as ----------

  function StemType(p: ParamType, style: Style): string {
    if p.components.Components? && style == Sighash then "tuple" else Base(p.typ)
  }

  function ReadType(p: ParamType, style: Style): string {
    StemType(p, style) + Brackets(ReprintAll(Dims(p.typ)))
  }

  predicate Named(p: ParamType, style: Style) { style == Full && p.name.Some? && p.name.value != "" }

  predicate MarkedIndexed(p: ParamType, style: Style) { style != Sighash && p.indexed == Some(true) }

  /** Name and flag as they stand when the text ends; the last word has not been looked at yet. */
  function ReadTail(n: Node, p: ParamType, style: Style, allowIndexed: bool): Option<Node> {
    if MarkedIndexed(p, style) && Named(p, style) then
      if allowIndexed then Some(n.(indexed := Some(true), name := p.name.value)) else None
    else Some(n.(name := if MarkedIndexed(p, style) then "indexed" else if Named(p, style) then p.name.value else ""))
  }

  function ReadNode(p: ParamType, style: Style, allowIndexed: bool, indexed: Option<bool>): Option<Node>
    decreases p
  {
    if p.components.NoComponents? then
      ReadTail(Node(ReadType(p, style), "", indexed, NoChildren), p, style, allowIndexed)
    else
      var list := ReadList(p.components.list, style, allowIndexed);
      if list.None? then None
      else ReadTail(Node(ReadType(p, style), "", indexed, Children(list.value)), p, style, allowIndexed)
  }

  /** Between `()` the parser still reads one component, of empty type. */
  function ReadList(list: seq<ParamType>, style: Style, allowIndexed: bool): Option<seq<Node>>
    decreases list
  {
    if |list| == 0 then Some([Node("", "", ChildIndexed(allowIndexed), NoChildren)])
    else
      var n := ReadNode(list[0], style, allowIndexed, ChildIndexed(allowIndexed));
      if n.None? then None else
      var first := Finish(n.value, allowIndexed);
      if first.None? then None else
      if |list| == 1 then Some([first.value]) else
      var rest := ReadList(list[1..], style, allowIndexed);
      if rest.None? then None else Some([first.value] + rest.value)
  }

  // ---------- Feeding tokens ----------

  lemma {:induction false} FeedType(o: Open, text: string, parents: seq<Open>, allowIndexed: bool)
    requires o.flags.allowType && Plain(text)
    ensures Feed(Cursor(o, parents), text, allowIndexed)
         == Some(Cursor(Open(o.node.(typ := o.node.typ + text), o.flags.(allowParams := true, allowArray := true)),
           parents))
    decreases |text|
  {
    var next := Open(o.node.(typ := o.node.typ + [text[0]]), o.flags.(allowParams := true, allowArray := true));
    assert Step(Cursor(o, parents), text[0], allowIndexed)
      == Some(Cursor(next, parents)) by { assert PlainChar(text[0]); }
    if |text| == 1 {
      assert o.node.typ + [text[0]] == o.node.typ + text;
    } else {
      assert Plain(text[1..]) by { assert forall i | 0 <= i < |text[1..]| :: text[1..][i] == text[i + 1]; }
      FeedType(next, text[1..], parents, allowIndexed);
      assert next.node.typ + text[1..] == o.node.typ + text;
    }
  }

  lemma {:induction false} FeedName(o: Open, text: string, parents: seq<Open>, allowIndexed: bool)
    requires !o.flags.allowType && o.flags.allowName && Plain(text)
    ensures Feed(Cursor(o, parents), text, allowIndexed)
         == Some(Cursor(Open(o.node.(name := o.node.name + text), o.flags.(allowArray := false)), parents))
    decreases |text|
  {
    var next := Open(o.node.(name := o.node.name + [text[0]]), o.flags.(allowArray := false));
    assert Step(Cursor(o, parents), text[0], allowIndexed)
      == Some(Cursor(next, parents)) by { assert PlainChar(text[0]); }
    if |text| == 1 {
      assert o.node.name + [text[0]] == o.node.name + text;
    } else {
      assert Plain(text[1..]) by { assert forall i | 0 <= i < |text[1..]| :: text[1..][i] == text[i + 1]; }
      FeedName(next, text[1..], parents, allowIndexed);
      assert next.node.name + text[1..] == o.node.name + text;
    }
  }

  /** Inside brackets: with `allowType` still set the digits count as type text, otherwise `readArray` takes them. */
  predicate InBrackets(f: Flags) { f.readArray && (f.allowType || !f.allowName) }

  lemma {:induction false} FeedDigits(o: Open, text: string, parents: seq<Open>, allowIndexed: bool) returns (r: Open)
    requires InBrackets(o.flags) && AllDigits(text)
    ensures Feed(Cursor(o, parents), text, allowIndexed) == Some(Cursor(r, parents))
    ensures r.node == o.node.(typ := o.node.typ + text)
    ensures InBrackets(r.flags) && r.flags.allowType == o.flags.allowType
    decreases |text|
  {
    if text == [] {
      assert o.node.typ + text == o.node.typ;
      r := o;
    } else {
      assert !IsSpace(text[0]) by { assert IsDigit(text[0]); }
      var next := Other(o, text[0]).value;
      assert Step(Cursor(o, parents), text[0], allowIndexed) == Some(Cursor(next, parents));
      r := FeedDigits(next, text[1..], parents, allowIndexed);
      assert next.node.typ + text[1..] == o.node.typ + text;
    }
  }

  /** After a type word, a `)` or a `]`: more brackets may follow, and a space starts the names. */
  predicate TypeRead(o: Open) {
    && o.flags.allowArray && (o.flags.allowType || o.flags.allowName)
    && o.node.name == "" && o.node.typ != ""
  }

  lemma FeedOpenBracket(o: Open, parents: seq<Open>, allowIndexed: bool)
    requires TypeRead(o)
    ensures var a := OpenBracket(o);
      a.Some? && InBrackets(a.value.flags) && a.value.flags.allowType == o.flags.allowType
      && a.value.node == o.node.(typ := o.node.typ + "[")
      && Feed(Cursor(o, parents), "[", allowIndexed) == Some(Cursor(a.value, parents))
  {
  }

  lemma FeedCloseBracket(o: Open, parents: seq<Open>, allowIndexed: bool)
    requires InBrackets(o.flags) && o.node.name == ""
    ensures var a := CloseBracket(o);
      a.Some? && TypeRead(a.value) && a.value.flags.allowType == o.flags.allowType && !a.value.flags.readArray
      && a.value.node == o.node.(typ := o.node.typ + "]")
      && Feed(Cursor(o, parents), "]", allowIndexed) == Some(Cursor(a.value, parents))
  {
  }

  lemma FeedDimension(o: Open, digits: string, parents: seq<Open>, allowIndexed: bool) returns (r: Open)
    requires TypeRead(o) && AllDigits(digits)
    ensures Feed(Cursor(o, parents), "[" + digits + "]", allowIndexed) == Some(Cursor(r, parents))
    ensures r.node == o.node.(typ := o.node.typ + ("[" + digits + "]"))
    ensures TypeRead(r) && r.flags.allowType == o.flags.allowType && !r.flags.readArray
  {
    hide Feed, TypeRead, InBrackets, OpenBracket, CloseBracket;
    FeedOpenBracket(o, parents, allowIndexed);
    var a := OpenBracket(o).value;
    var b := FeedDigits(a, digits, parents, allowIndexed);
    UnnamedInBrackets(o);
    FeedCloseBracket(b, parents, allowIndexed);
    r := CloseBracket(b).value;
    FeedThen(Cursor(o, parents), "[", Cursor(a, parents), digits, allowIndexed);
    FeedThen(Cursor(o, parents), "[" + digits, Cursor(b, parents), "]", allowIndexed);
    Grouped(o.node.typ, digits);
  }

  lemma UnnamedInBrackets(o: Open)
    requires TypeRead(o)
    ensures o.node.name == ""
  {}

  lemma Grouped(t: string, digits: string)
    ensures ((t + "[") + digits) + "]" == t + ("[" + digits + "]")
  {}

  lemma {:induction false} FeedBrackets(o: Open, dims: seq<string>, parents: seq<Open>, allowIndexed: bool)
      returns (r: Open)
    requires TypeRead(o) && forall i | 0 <= i < |dims| :: AllDigits(dims[i])
    ensures Feed(Cursor(o, parents), Brackets(dims), allowIndexed) == Some(Cursor(r, parents))
    ensures r.node == o.node.(typ := o.node.typ + Brackets(dims))
    ensures TypeRead(r) && r.flags.allowType == o.flags.allowType && (r == o || !r.flags.readArray)
    decreases |dims|
  {
    hide Feed, TypeRead, Brackets;
    if dims == [] {
      NoBrackets();
      FeedNothing(Cursor(o, parents), allowIndexed);
      assert o.node.typ + "" == o.node.typ;
      r := o;
    } else {
      var a := FeedDimension(o, dims[0], parents, allowIndexed);
      r := FeedBrackets(a, dims[1..], parents, allowIndexed);
      FeedThen(Cursor(o, parents), "[" + dims[0] + "]", Cursor(a, parents), Brackets(dims[1..]), allowIndexed);
      BracketsGrow(o.node.typ, dims);
    }
  }

  lemma FeedNothing(s: Cursor, allowIndexed: bool)
    ensures Feed(s, "", allowIndexed) == Some(s)
  {}

  lemma BracketsGrow(t: string, dims: seq<string>)
    requires dims != []
    ensures ("[" + dims[0] + "]") + Brackets(dims[1..]) == Brackets(dims)
    ensures (t + ("[" + dims[0] + "]")) + Brackets(dims[1..]) == t + Brackets(dims)
  {}

  /** A space and a word after the type, or after `indexed`. */
  lemma FeedWord(o: Open, word: string, parents: seq<Open>, allowIndexed: bool) returns (r: Open)
    requires o.flags.allowType || o.flags.allowName
    requires o.node.name == "" && o.node.typ != "" && Stable(o.node.typ) && Plain(word)
    ensures Feed(Cursor(o, parents), " " + word, allowIndexed) == Some(Cursor(r, parents))
    ensures r.node == o.node.(name := word) && !r.flags.allowType && r.flags.allowName
  {
    var a := EndType(o);
    assert Step(Cursor(o, parents), ' ', allowIndexed) == Some(Cursor(a, parents));
    hide Feed, Plain, EndType;
    FeedName(a, word, parents, allowIndexed);
    FeedThen(Cursor(o, parents), " ", Cursor(a, parents), word, allowIndexed);
    assert "" + word == word;
    r := Open(a.node.(name := word), a.flags.(allowArray := false));
  }

  /** The space after `indexed` turns the word into the flag. */
  lemma FeedFlag(o: Open, parents: seq<Open>, allowIndexed: bool)
    requires !o.flags.allowType && o.flags.allowName && o.node.name == "indexed" && o.node.indexed != Some(true)
    ensures Feed(Cursor(o, parents), " ", allowIndexed)
         == if allowIndexed then Some(Cursor(o.(node := o.node.(indexed := Some(true), name := "")), parents)) else None
  {
  }

  /** ` indexed name`: the second space consumes the first word. */
  lemma FeedIndexedName(o: Open, word: string, parents: seq<Open>, allowIndexed: bool) returns (r: Open)
    requires o.flags.allowType || o.flags.allowName
    requires o.node.name == "" && o.node.typ != "" && Stable(o.node.typ) && Plain(word) && o.node.indexed != Some(true)
    ensures Feed(Cursor(o, parents), " indexed" + (" " + word), allowIndexed)
      == if allowIndexed then Some(Cursor(r, parents)) else None
    ensures r.node == o.node.(indexed := Some(true), name := word)
  {
    PlainIndexed();
    hide Feed, Plain;
    var a := FeedWord(o, "indexed", parents, allowIndexed);
    FeedThen(Cursor(o, parents), " indexed", Cursor(a, parents), " " + word, allowIndexed);
    var b := a.(node := a.node.(indexed := Some(true), name := ""));
    FeedFlag(a, parents, allowIndexed);
    if allowIndexed {
      FeedThen(Cursor(a, parents), " ", Cursor(b, parents), word, allowIndexed);
      FeedName(b, word, parents, allowIndexed);
      assert "" + word == word;
      r := Open(b.node.(name := word), b.flags.(allowArray := false));
    } else {
      FeedThrows(Cursor(a, parents), " ", word, allowIndexed);
      r := b.(node := b.node.(name := word));
    }
  }

  lemma PlainIndexed()
    ensures " indexed" == " " + "indexed" && Plain("indexed")
  {}

  // ---------- Feeding a whole parameter ----------

  /** Brackets after a stable type leave it stable. */
  lemma StableWithBrackets(b: string, dims: seq<string>)
    requires Stable(b)
    ensures Stable(b + Brackets(dims))
  {
    var x := Brackets(dims);
    var t := b + x;
    assert x != "" ==> x[0] == '[';
    LongerWhenVerified(b);
    LongerWhenVerified(t);
    assert forall i | 0 <= i < |b| :: t[i] == b[i];
  }

  /** A type is stable exactly when it is not a bare `uint` or `int`. */
  lemma LongerWhenVerified(t: string)
    ensures Stable(t) <==>
      && !(|t| >= 4 && t[0] == 'u' && t[1] == 'i' && t[2] == 'n' && t[3] == 't' && (|t| == 4 || !OneToNine(t[4])))
      && !(|t| >= 3 && t[0] == 'i' && t[1] == 'n' && t[2] == 't' && (|t| == 3 || !OneToNine(t[3])))
  {
    assert StartsWith(t, "uint") <==> |t| >= 4 && t[0] == 'u' && t[1] == 'i' && t[2] == 'n' && t[3] == 't';
    assert StartsWith(t, "int") <==> |t| >= 3 && t[0] == 'i' && t[1] == 'n' && t[2] == 't';
    assert |"uint512"| == 7 && |"int512"| == 6;
  }

  lemma StableBase(t: string)
    requires Stable(t)
    ensures Stable(Base(t))
    decreases |t|
  {
    if ArrayMatch(t).Some? {
      StablePeels(t);
      StableBase(ArrayMatch(t).value.0);
    }
  }

  lemma StableReadType(p: ParamType, style: Style)
    requires Stable(p.typ)
    ensures Stable(StemType(p, style)) && Stable(ReadType(p, style))
  {
    StableBase(p.typ);
    LongerWhenVerified("tuple");
    StableWithBrackets(StemType(p, style), ReprintAll(Dims(p.typ)));
  }

  /** A node that has its type and its components, and nothing else yet. */
  predicate Unnamed(o: Open) {
    (o.flags.allowType || o.flags.allowName) && o.node.name == "" && o.node.typ != "" && o.node.indexed != Some(true)
  }

  lemma FeedTail(o: Open, p: ParamType, style: Style, parents: seq<Open>, allowIndexed: bool) returns (r: Open)
    requires Unnamed(o) && Stable(o.node.typ) && (p.name.Some? ==> Plain(p.name.value))
    ensures var t := ReadTail(o.node, p, style, allowIndexed);
      && Feed(Cursor(o, parents), Tail(p, style), allowIndexed) == (if t.Some? then Some(Cursor(r, parents)) else None)
      && (t.Some? ==> r.node == t.value)
  {
    hide Plain, Stable;
    PlainIndexed();
    if MarkedIndexed(p, style) && Named(p, style) {
      r := FeedIndexedName(o, p.name.value, parents, allowIndexed);
    } else if MarkedIndexed(p, style) {
      r := FeedWord(o, "indexed", parents, allowIndexed);
      assert Tail(p, style) == " indexed";
    } else if Named(p, style) {
      r := FeedWord(o, p.name.value, parents, allowIndexed);
      assert Tail(p, style) == " " + p.name.value;
    } else {
      r := o;
      assert o.node.(name := "") == o.node;
    }
  }

  /** The text of a stem up to its opening parenthesis. */
  lemma FeedOpening(p: ParamType, style: Style, indexed: Option<bool>, parents: seq<Open>, allowIndexed: bool)
      returns (parent: Open)
    requires Stable(Base(p.typ)) && Plain(Base(p.typ)) && p.components.Components?
    ensures Feed(Cursor(NewNode(indexed), parents), (if style != Sighash then Base(p.typ) else "") + "(", allowIndexed)
         == Some(Cursor(NewNode(ChildIndexed(allowIndexed)), parents + [parent]))
    ensures parent.node == Node(StemType(p, style), "", indexed, Children([])) && !parent.flags.allowType
  {
    var o := NewNode(indexed);
    if style == Sighash {
      assert "" + "(" == "(";
      assert Stable("tuple") by { LongerWhenVerified("tuple"); }
    } else {
      FeedType(o, Base(p.typ), parents, allowIndexed);
      o := Open(o.node.(typ := o.node.typ + Base(p.typ)), o.flags.(allowParams := true, allowArray := true));
      assert "" + Base(p.typ) == Base(p.typ);
      FeedThen(Cursor(NewNode(indexed), parents), Base(p.typ), Cursor(o, parents), "(", allowIndexed);
    }
    parent := Open(o.node.(typ := StemType(p, style), components := Children([])), o.flags.(allowType := false));
  }

  function Closed(f: Flags): Flags { f.(allowParams := false, allowName := true, allowArray := true) }

  /** `)` and `,` hand the finished component to the parent. */
  lemma FeedEnd(child: Open, parents: seq<Open>, parent: Open, allowIndexed: bool)
    requires parent.node.components.Children?
    ensures var n := Finish(child.node, allowIndexed);
      var s := Cursor(child, parents + [parent]);
      && (n.None? ==> Feed(s, ")", allowIndexed) == None && Feed(s, ",", allowIndexed) == None)
      && (n.Some? ==>
            var list := parent.node.components.list + [n.value];
            var adopted := parent.node.(components := Children(list));
            && Feed(s, ")", allowIndexed) == Some(Cursor(Open(adopted, Closed(parent.flags)), parents))
            && Feed(s, ",", allowIndexed)
                 == Some(Cursor(NewNode(ChildIndexed(allowIndexed)), parents + [Open(adopted, parent.flags)])))
  {
    var s := Cursor(child, parents + [parent]);
    assert (parents + [parent])[..|parents|] == parents;
  }

  /** Before a type a space means nothing. */
  lemma FeedBlank(indexed: Option<bool>, parents: seq<Open>, allowIndexed: bool)
    ensures Feed(Cursor(NewNode(indexed), parents), " ", allowIndexed) == Some(Cursor(NewNode(indexed), parents))
  {
  }

  lemma FeedSeparator(child: Open, parents: seq<Open>, parent: Open, style: Style, allowIndexed: bool)
    requires parent.node.components.Children?
    ensures var n := Finish(child.node, allowIndexed);
      var s := Cursor(child, parents + [parent]);
      && (n.None? ==> Feed(s, Separator(style), allowIndexed) == None)
      && (n.Some? ==>
            var adopted := parent.node.(components := Children(parent.node.components.list + [n.value]));
            Feed(s, Separator(style), allowIndexed)
              == Some(Cursor(NewNode(ChildIndexed(allowIndexed)), parents + [Open(adopted, parent.flags)])))
  {
    var s := Cursor(child, parents + [parent]);
    FeedEnd(child, parents, parent, allowIndexed);
    if style == Full {
      assert ", " == "," + " ";
      var n := Finish(child.node, allowIndexed);
      if n.None? {
        FeedThrows(s, ",", " ", allowIndexed);
      } else {
        var ps := parents
          + [Open(parent.node.(components := Children(parent.node.components.list + [n.value])), parent.flags)];
        FeedThen(s, ",", Cursor(NewNode(ChildIndexed(allowIndexed)), ps), " ", allowIndexed);
        FeedBlank(ChildIndexed(allowIndexed), ps, allowIndexed);
      }
    }
  }

  /** What feeding the components and the closing parenthesis amounts to. */
  predicate ListFed(s: Cursor, text: string, parent: Open, nodes: Option<seq<Node>>, parents: seq<Open>,
      allowIndexed: bool)
    requires parent.node.components.Children?
  {
    Feed(s, text, allowIndexed) ==
      if nodes.None? then None
      else Some(Cursor(Open(parent.node.(components := Children(parent.node.components.list + nodes.value)),
           Closed(parent.flags)), parents))
  }

  predicate NodeFed(s: Cursor, text: string, node: Option<Node>, r: Open, parents: seq<Open>, allowIndexed: bool) {
    && Feed(s, text, allowIndexed) == (if node.Some? then Some(Cursor(r, parents)) else None)
    && (node.Some? ==> r.node == node.value)
  }

  /** A printed list of components, with its closing parenthesis. */
  lemma {:induction false} FeedList(list: seq<ParamType>, style: Style, parent: Open, parents: seq<Open>,
      allowIndexed: bool)
    requires AllLegible(list) && parent.node.components.Children?
    requires forall i | 0 <= i < |list| :: WellTyped(list[i])
    ensures ListFed(Cursor(NewNode(ChildIndexed(allowIndexed)), parents + [parent]),
                    Join(Formats(list, style), Separator(style)) + ")", parent,
                    ReadList(list, style, allowIndexed), parents, allowIndexed)
    decreases list, 2
  {
    hide Format, Separator, Stable, Feed, ReadNode, ListFed, NodeFed;
    var s := Cursor(NewNode(ChildIndexed(allowIndexed)), parents + [parent]);
    if list == [] {
      FeedNone(style, parent, parents, allowIndexed);
    } else {
      var texts := Formats(list, style);
      var first := FeedPrinted(list[0], style, ChildIndexed(allowIndexed), parents + [parent], allowIndexed);
      if |list| == 1 {
        assert Join(texts, Separator(style)) == texts[0];
        FeedLast(list, style, s, first, parent, parents, allowIndexed);
      } else {
        var rest := list[1..];
        assert texts[1..] == Formats(rest, style);
        var n := ReadNode(list[0], style, allowIndexed, ChildIndexed(allowIndexed));
        if n.Some? && Finish(n.value, allowIndexed).Some? {
          var next := Extend(parent, Finish(n.value, allowIndexed).value);
          FeedList(rest, style, next, parents, allowIndexed);
        }
        FeedNext(list, style, s, first, parent, parents, allowIndexed);
      }
    }
  }

  lemma FeedNone(style: Style, parent: Open, parents: seq<Open>, allowIndexed: bool)
    requires parent.node.components.Children?
    ensures ListFed(Cursor(NewNode(ChildIndexed(allowIndexed)), parents + [parent]),
      Join(Formats([], style), Separator(style)) + ")", parent,
      ReadList([], style, allowIndexed), parents, allowIndexed)
  {
    hide Feed, Step;
    FeedEnd(NewNode(ChildIndexed(allowIndexed)), parents, parent, allowIndexed);
    assert "" + ")" == ")";
  }

  lemma FeedLast(list: seq<ParamType>, style: Style, s: Cursor, first: Open, parent: Open, parents: seq<Open>,
      allowIndexed: bool)
    requires |list| == 1 && WellTyped(list[0]) && parent.node.components.Children?
    requires NodeFed(s, Format(list[0], style), ReadNode(list[0], style, allowIndexed, ChildIndexed(allowIndexed)),
      first, parents + [parent], allowIndexed)
    ensures ListFed(s, Format(list[0], style) + ")", parent, ReadList(list, style, allowIndexed), parents, allowIndexed)
  {
    hide Format, Finish, ReadNode;
    var n := ReadNode(list[0], style, allowIndexed, ChildIndexed(allowIndexed));
    if n.None? {
      FeedThrows(s, Format(list[0], style), ")", allowIndexed);
    } else {
      FeedThen(s, Format(list[0], style), Cursor(first, parents + [parent]), ")", allowIndexed);
      FeedEnd(first, parents, parent, allowIndexed);
    }
  }

  lemma FeedNext(list: seq<ParamType>, style: Style, s: Cursor, first: Open, parent: Open, parents: seq<Open>,
      allowIndexed: bool)
    requires |list| > 1 && (forall i | 0 <= i < |list| :: WellTyped(list[i])) && parent.node.components.Children?
    requires NodeFed(s, Format(list[0], style), ReadNode(list[0], style, allowIndexed, ChildIndexed(allowIndexed)),
      first, parents + [parent], allowIndexed)
    requires var n := ReadNode(list[0], style, allowIndexed, ChildIndexed(allowIndexed));
      n.Some? && Finish(n.value, allowIndexed).Some? ==>
        var next := Extend(parent, Finish(n.value, allowIndexed).value);
        ListFed(Cursor(NewNode(ChildIndexed(allowIndexed)), parents + [next]),
                Join(Formats(list[1..], style), Separator(style)) + ")", next,
                ReadList(list[1..], style, allowIndexed), parents, allowIndexed)
    ensures ListFed(s, Join(Formats(list, style), Separator(style)) + ")", parent, ReadList(list, style, allowIndexed),
      parents, allowIndexed)
  {
    hide Format, Formats, Finish, ReadNode, Feed, Join, Separator, WellTyped, NodeFed, ListFed;
    JoinUnfolds(list, style);
    FeedNextText(s, Format(list[0], style), Join(Formats(list[1..], style), Separator(style)) + ")", first, parent,
      parents, ReadNode(list[0], style, allowIndexed, ChildIndexed(allowIndexed)),
      ReadList(list[1..], style, allowIndexed), style, allowIndexed);
  }

  /** The nodes of a list of two or more: its first node finished, then the others. */
  function Prepend(n: Option<Node>, rest: Option<seq<Node>>, allowIndexed: bool): Option<seq<Node>> {
    if n.None? then None else
    var first := Finish(n.value, allowIndexed);
    if first.None? || rest.None? then None else Some([first.value] + rest.value)
  }

  function Extend(parent: Open, node: Node): Open
    requires parent.node.components.Children?
  {
    Open(parent.node.(components := Children(parent.node.components.list + [node])), parent.flags)
  }

  lemma FeedNextText(s: Cursor, head: string, tail: string, first: Open, parent: Open, parents: seq<Open>,
                     n: Option<Node>, rest: Option<seq<Node>>, style: Style, allowIndexed: bool)
    requires parent.node.components.Children? && NodeFed(s, head, n, first, parents + [parent], allowIndexed)
    requires n.Some? && Finish(n.value, allowIndexed).Some? ==>
      ListFed(Cursor(NewNode(ChildIndexed(allowIndexed)),
        parents + [Extend(parent, Finish(n.value, allowIndexed).value)]),
              tail, Extend(parent, Finish(n.value, allowIndexed).value), rest, parents, allowIndexed)
    ensures ListFed(s, head + (Separator(style) + tail), parent, Prepend(n, rest, allowIndexed), parents, allowIndexed)
  {
    hide Finish, Feed, Separator, ListFed;
    var sep := Separator(style);
    if n.None? {
      FeedThrows(s, head, sep + tail, allowIndexed);
      NothingFed(s, head + (sep + tail), parent, parents, allowIndexed);
    } else {
      var at := Cursor(first, parents + [parent]);
      FeedThen(s, head, at, sep + tail, allowIndexed);
      FeedSeparator(first, parents, parent, style, allowIndexed);
      var done := Finish(n.value, allowIndexed);
      if done.None? {
        FeedThrows(at, sep, tail, allowIndexed);
        NothingFed(s, head + (sep + tail), parent, parents, allowIndexed);
      } else {
        var next := Cursor(NewNode(ChildIndexed(allowIndexed)), parents + [Extend(parent, done.value)]);
        FeedThen(at, sep, next, tail, allowIndexed);
        RestFed(s, head + (sep + tail), next, tail, parent, done.value, rest, parents, allowIndexed);
      }
    }
  }

  lemma NothingFed(s: Cursor, text: string, parent: Open, parents: seq<Open>, allowIndexed: bool)
    requires parent.node.components.Children? && Feed(s, text, allowIndexed) == None
    ensures ListFed(s, text, parent, None, parents, allowIndexed)
  {
    hide Feed;
  }

  lemma RestFed(s: Cursor, text: string, next: Cursor, tail: string, parent: Open, done: Node, rest: Option<seq<Node>>,
                parents: seq<Open>, allowIndexed: bool)
    requires parent.node.components.Children? && Feed(s, text, allowIndexed) == Feed(next, tail, allowIndexed)
    requires ListFed(next, tail, Extend(parent, done), rest, parents, allowIndexed)
    ensures ListFed(s, text, parent, if rest.None? then None else Some([done] + rest.value), parents, allowIndexed)
  {
    hide Feed;
    if rest.Some? {
      assert (parent.node.components.list + [done]) + rest.value == parent.node.components.list + ([done] + rest.value);
    }
  }

  lemma JoinUnfolds(list: seq<ParamType>, style: Style)
    requires |list| > 1 && forall i | 0 <= i < |list| :: WellTyped(list[i])
    ensures Join(Formats(list, style), Separator(style)) + ")"
         == Format(list[0], style) + (Separator(style) + (Join(Formats(list[1..], style), Separator(style)) + ")"))
  {
    hide Format, Separator, WellTyped, Join;
    JoinAtHead(Formats(list, style), Separator(style), ")");
    assert Formats(list, style)[1..] == Formats(list[1..], style);
  }

  /** A printed stem: the type word, or the components. */
  lemma FeedStem(p: ParamType, style: Style, indexed: Option<bool>, parents: seq<Open>, allowIndexed: bool)
      returns (r: Open)
    requires Legible(p) && WellTyped(p) && indexed != Some(true)
    ensures var list := if p.components.Components? then ReadList(p.components.list, style, allowIndexed) else Some([]);
      && Feed(Cursor(NewNode(indexed), parents), Stem(p, style), allowIndexed)
        == (if list.Some? then Some(Cursor(r, parents)) else None)
      && (list.Some? ==> TypeRead(r))
      && (list.Some? ==>
            r.node == Node(StemType(p, style), "", indexed,
              if p.components.Components? then Children(list.value) else NoChildren))
    decreases p, 0
  {
    StableBase(p.typ);
    if p.components.NoComponents? {
      FeedType(NewNode(indexed), Base(p.typ), parents, allowIndexed);
      assert "" + Base(p.typ) == Base(p.typ);
      r := Feed(Cursor(NewNode(indexed), parents), Stem(p, style), allowIndexed).value.at;
    } else {
      var parent := FeedOpening(p, style, indexed, parents, allowIndexed);
      var list := p.components.list;
      FeedList(list, style, parent, parents, allowIndexed);
      r := FeedOpened(p, style, indexed, parent, parents, allowIndexed);
    }
  }

  lemma FeedOpened(p: ParamType, style: Style, indexed: Option<bool>, parent: Open, parents: seq<Open>,
      allowIndexed: bool) returns (r: Open)
    requires WellTyped(p) && p.components.Components? && Plain(Base(p.typ))
    requires parent.node == Node(StemType(p, style), "", indexed, Children([])) && !parent.flags.allowType
    requires Feed(Cursor(NewNode(indexed), parents), (if style != Sighash then Base(p.typ) else "") + "(", allowIndexed)
          == Some(Cursor(NewNode(ChildIndexed(allowIndexed)), parents + [parent]))
    requires ListFed(Cursor(NewNode(ChildIndexed(allowIndexed)), parents + [parent]),
                     Join(Formats(p.components.list, style), Separator(style)) + ")", parent,
                     ReadList(p.components.list, style, allowIndexed), parents, allowIndexed)
    ensures var list := ReadList(p.components.list, style, allowIndexed);
      && Feed(Cursor(NewNode(indexed), parents), Stem(p, style), allowIndexed)
        == (if list.Some? then Some(Cursor(r, parents)) else None)
      && (list.Some? ==> TypeRead(r) && r.node == Node(StemType(p, style), "", indexed, Children(list.value)))
  {
    hide Feed, Formats, Join;
    var opening := (if style != Sighash then Base(p.typ) else "") + "(";
    var inner := Join(Formats(p.components.list, style), Separator(style)) + ")";
    assert Stem(p, style) == opening + inner;
    FeedThen(Cursor(NewNode(indexed), parents), opening,
      Cursor(NewNode(ChildIndexed(allowIndexed)), parents + [parent]), inner, allowIndexed);
    var list := ReadList(p.components.list, style, allowIndexed);
    r := parent;
    if list.Some? {
      assert [] + list.value == list.value;
      r := Open(parent.node.(components := Children(list.value)), Closed(parent.flags));
    }
  }

  /** Reading printed text gives the node computed from the parameter, or throws exactly when it says so. */
  lemma {:induction false} FeedPrinted(p: ParamType, style: Style, indexed: Option<bool>, parents: seq<Open>,
      allowIndexed: bool) returns (r: Open)
    requires Legible(p) && WellTyped(p) && indexed != Some(true)
    ensures NodeFed(Cursor(NewNode(indexed), parents), Format(p, style), ReadNode(p, style, allowIndexed, indexed), r,
      parents, allowIndexed)
    decreases p, 1
  {
    hide Format, Stem, Brackets, Tail, Feed, Plain, ReadList, Stable, ReadTail, TypeRead;
    var s := Cursor(NewNode(indexed), parents);
    var dims := ReprintAll(Dims(p.typ));
    FormatShape(p, style);
    r := FeedStem(p, style, indexed, parents, allowIndexed);
    if p.components.Components? && ReadList(p.components.list, style, allowIndexed).None? {
      FeedThrows(s, Stem(p, style), Brackets(dims), allowIndexed);
      FeedThrows(s, Stem(p, style) + Brackets(dims), Tail(p, style), allowIndexed);
    } else {
      FeedThen(s, Stem(p, style), Cursor(r, parents), Brackets(dims), allowIndexed);
      var b := FeedBrackets(r, dims, parents, allowIndexed);
      FeedThen(s, Stem(p, style) + Brackets(dims), Cursor(b, parents), Tail(p, style), allowIndexed);
      StableReadType(p, style);
      TypeReadIsUnnamed(b);
      r := FeedTail(b, p, style, parents, allowIndexed);
    }
  }

  lemma TypeReadIsUnnamed(o: Open)
    requires TypeRead(o) && o.node.indexed != Some(true)
    ensures Unnamed(o)
  {}

  /** What the parser makes of a printed parameter. */
  lemma ParsePrinted(p: ParamType, style: Style, allowIndexed: bool)
    requires Legible(p) && WellTyped(p)
    ensures Parse(Format(p, style), allowIndexed) ==
      var n := ReadNode(p, style, allowIndexed, None); if n.None? then None else FinishRoot(n.value, allowIndexed)
  {
    hide Format, ReadNode, FinishRoot, Feed;
    var r := FeedPrinted(p, style, None, [], allowIndexed);
  }
}
