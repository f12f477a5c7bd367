/** The character parser for parameter types. The source walks a tree through parent pointers; here the
    current node comes with the stack of its open ancestors, root first. */
module ParamParser {
  import opened Wrappers
  import opened Texts
  import opened ParamTypes

  datatype Node = Node(typ: string, name: string, indexed: Option<bool>, components: Children)

  /** The finished child nodes; the one being read is not among them. */
  datatype Children = NoChildren | Children(list: seq<Node>)

  datatype Flags = Flags(allowArray: bool, allowName: bool, allowParams: bool, allowType: bool, readArray: bool)

  /** A node whose text has not ended. */
  datatype Open = Open(node: Node, flags: Flags)

  datatype Cursor = Cursor(at: Open, parents: seq<Open>)

  // ---------- Modifiers ----------

  /** Keys that every plain object inherits, so that looking them up gives something truthy. */
  predicate InheritedKey(name: string) {
    name in ["constructor", "toString", "valueOf", "hasOwnProperty", "isPrototypeOf", "propertyIsEnumerable",
             "toLocaleString", "__proto__",
             "__defineGetter__", "__defineSetter__", "__lookupGetter__", "__lookupSetter__"]
  }

  predicate BytesModifier(name: string) { name in ["calldata", "memory", "storage"] || InheritedKey(name) }

  predicate NestModifier(name: string) { name in ["calldata", "memory"] || InheritedKey(name) }

  datatype Check = Dropped | KeptName | Invalid

  function CheckModifier(typ: string, name: string): Check {
    if (typ == "bytes" || typ == "string") && BytesModifier(name) then Dropped
    else if typ == "address" && name == "payable" then Dropped
    else if typ !in ["bytes", "string", "address"] && ('[' in typ || typ == "tuple") && NestModifier(name) then Dropped
    else if BytesModifier(name) || name == "payable" then Invalid
    else KeptName
  }

  // ---------- One character ----------

  function NewNode(indexed: Option<bool>): Open {
    Open(Node("", "", indexed, NoChildren), Flags(false, false, false, true, false))
  }

  function ChildIndexed(allowIndexed: bool): Option<bool> { if allowIndexed then Some(false) else None }

  /** A name is complete. */
  function SettleName(node: Node): Option<Node> {
    match CheckModifier(node.typ, node.name)
    case Dropped => Some(node.(name := ""))
    case KeptName => Some(node)
    case Invalid => None
  }

  /** A component ends at `)` or `,`. */
  function Finish(node: Node, allowIndexed: bool): Option<Node> {
    var marked := if node.name == "indexed" then node.(indexed := Some(true), name := "") else node;
    if node.name == "indexed" && !allowIndexed then None else
    var settled := SettleName(marked);
    if settled.None? then None else Some(settled.value.(typ := VerifyType(settled.value.typ)))
  }

  /** The outermost node ends with the text. */
  function FinishRoot(node: Node, allowIndexed: bool): Option<Node> {
    if node.name == "indexed" then
      if !allowIndexed || node.indexed == Some(true) then None
      else Some(node.(indexed := Some(true), name := "", typ := VerifyType(node.typ)))
    else
      var settled := SettleName(node);
      if settled.None? then None else Some(settled.value.(typ := VerifyType(settled.value.typ)))
  }

  function EndType(o: Open): Open {
    if o.flags.allowType && o.node.typ != "" then
      Open(o.node.(typ := VerifyType(o.node.typ)), o.flags.(allowType := false, allowName := true, allowParams := true))
    else o
  }

  function Space(o: Open, allowIndexed: bool): Option<Open> {
    var a := EndType(o);
    if !a.flags.allowName || a.node.name == "" then Some(a)
    else if a.node.name == "indexed" then
      if !allowIndexed || a.node.indexed == Some(true) then None
      else Some(a.(node := a.node.(indexed := Some(true), name := "")))
    else
      match CheckModifier(a.node.typ, a.node.name)
      case Dropped => Some(a.(node := a.node.(name := "")))
      case KeptName => Some(a.(flags := a.flags.(allowName := false)))
      case Invalid => None
  }

  function Other(o: Open, c: char): Option<Open> {
    if o.flags.allowType then
      Some(Open(o.node.(typ := o.node.typ + [c]), o.flags.(allowParams := true, allowArray := true)))
    else if o.flags.allowName then
      Some(Open(o.node.(name := o.node.name + [c]), o.flags.(allowArray := false)))
    else if o.flags.readArray then
      Some(o.(node := o.node.(typ := o.node.typ + [c])))
    else None
  }

  function OpenBracket(o: Open): Option<Open> {
    if !o.flags.allowArray then None
    else Some(Open(o.node.(typ := o.node.typ + "["),
         o.flags.(allowArray := false, allowName := false, readArray := true)))
  }

  function CloseBracket(o: Open): Option<Open> {
    if !o.flags.readArray then None
    else Some(Open(o.node.(typ := o.node.typ + "]"),
         o.flags.(readArray := false, allowArray := true, allowName := true)))
  }

  /** `(` starts the components of the current node. */
  function OpenParen(s: Cursor, allowIndexed: bool): Option<Cursor> {
    var o := s.at;
    var bare := o.flags.allowType && o.node.typ == "";
    if !bare && !o.flags.allowParams then None
    else
      var parent := Open(o.node.(typ := VerifyType(if bare then "tuple" else o.node.typ), components := Children([])),
                         o.flags.(allowType := false));
      Some(Cursor(NewNode(ChildIndexed(allowIndexed)), s.parents + [parent]))
  }

  function Adopt(parent: Open, child: Node): Open {
    var list := if parent.node.components.Children? then parent.node.components.list else [];
    parent.(node := parent.node.(components := Children(list + [child])))
  }

  function CloseParen(s: Cursor, allowIndexed: bool): Option<Cursor> {
    var child := Finish(s.at.node, allowIndexed);
    if child.None? || |s.parents| == 0 then None
    else
      var parent := Adopt(s.parents[|s.parents| - 1], child.value);
      Some(Cursor(parent.(flags := parent.flags.(allowParams := false, allowName := true, allowArray := true)),
                  s.parents[..|s.parents| - 1]))
  }

  /** `,` ends one component and starts the next. */
  function Comma(s: Cursor, allowIndexed: bool): Option<Cursor> {
    var child := Finish(s.at.node, allowIndexed);
    if child.None? || |s.parents| == 0 then None
    else Some(Cursor(NewNode(ChildIndexed(allowIndexed)),
                     s.parents[..|s.parents| - 1] + [Adopt(s.parents[|s.parents| - 1], child.value)]))
  }

  /** A character that keeps the nesting. */
  function Quiet(o: Open, c: char, allowIndexed: bool): Option<Open> {
    if IsSpace(c) then Space(o, allowIndexed)
    else if c == '[' then OpenBracket(o)
    else if c == ']' then CloseBracket(o)
    else Other(o, c)
  }

  function Step(s: Cursor, c: char, allowIndexed: bool): Option<Cursor> {
    if c == '(' then OpenParen(s, allowIndexed)
    else if c == ')' then CloseParen(s, allowIndexed)
    else if c == ',' then Comma(s, allowIndexed)
    else
      var o := Quiet(s.at, c, allowIndexed);
      if o.None? then None else Some(Cursor(o.value, s.parents))
  }

  // ---------- The whole text ----------

  function Feed(s: Cursor, text: string, allowIndexed: bool): Option<Cursor>
    decreases |text|
  {
    if |text| == 0 then Some(s)
    else
      var next := Step(s, text[0], allowIndexed);
      if next.None? then None else Feed(next.value, text[1..], allowIndexed)
  }

  function Parse(text: string, allowIndexed: bool): Option<Node> {
    var end := Feed(Cursor(NewNode(None), []), text, allowIndexed);
    if end.None? || |end.value.parents| > 0 then None else FinishRoot(end.value.at.node, allowIndexed)
  }

  /** `parseParamType`; None stands for a throw. */
  method ParseParamType(param: string, allowIndexed: bool) returns (r: Option<Node>)
    ensures r == Parse(param, allowIndexed)
  {
    var cursor := Cursor(NewNode(None), []);
    var i := 0;
    while i < |param|
      invariant i <= |param|
      invariant Feed(cursor, param[i..], allowIndexed) == Feed(Cursor(NewNode(None), []), param, allowIndexed)
    {
      assert param[i..][0] == param[i] && param[i..][1..] == param[i + 1..];
      var next := Step(cursor, param[i], allowIndexed);
      if next.None? { return None; }
      cursor := next.value;
      i := i + 1;
    }
    if |cursor.parents| > 0 { return None; }
    return FinishRoot(cursor.at.node, allowIndexed);
  }

  /** `fromObject` on a finished tree. */
  function FromNode(n: Node): ParamType
    decreases n
  {
    ParamType(if n.name == "" then None else Some(n.name), VerifyType(n.typ), n.indexed,
              if n.components.NoChildren? then NoComponents else Components(FromNodes(n.components.list)))
  }

  function FromNodes(list: seq<Node>): (r: seq<ParamType>)
    ensures |r| == |list| && forall i | 0 <= i < |list| :: r[i] == FromNode(list[i])
    decreases list
  {
    if |list| == 0 then [] else [FromNode(list[0])] + FromNodes(list[1..])
  }

  function FromString(text: string, allowIndexed: bool): Option<ParamType> {
    var n := Parse(text, allowIndexed);
    if n.None? then None else Some(FromNode(n.value))
  }

  lemma {:induction false} FeedConcat(s: Cursor, a: string, b: string, allowIndexed: bool)
    ensures Feed(s, a + b, allowIndexed) ==
      var mid := Feed(s, a, allowIndexed); if mid.None? then None else Feed(mid.value, b, allowIndexed)
    decreases |a|
  {
    if a == [] {
      assert a + b == b;
    } else {
      assert (a + b)[0] == a[0] && (a + b)[1..] == a[1..] + b;
      var next := Step(s, a[0], allowIndexed);
      if next.Some? { FeedConcat(next.value, a[1..], b, allowIndexed); }
    }
  }

  lemma FeedThen(s: Cursor, a: string, mid: Cursor, b: string, allowIndexed: bool)
    requires Feed(s, a, allowIndexed) == Some(mid)
    ensures Feed(s, a + b, allowIndexed) == Feed(mid, b, allowIndexed)
  {
    FeedConcat(s, a, b, allowIndexed);
  }

  lemma FeedThrows(s: Cursor, a: string, b: string, allowIndexed: bool)
    requires Feed(s, a, allowIndexed) == None
    ensures Feed(s, a + b, allowIndexed) == None
  {
    FeedConcat(s, a, b, allowIndexed);
  }
}
