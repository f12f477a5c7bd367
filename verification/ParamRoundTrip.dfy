/** Parsing against printing: what comes back, exactly when it is what was printed, and how the second
    printer compares with the first. */
module ParamRoundTrip {
  import opened Wrappers
  import opened Texts
  import opened ParamTypes
  import opened ParamParser
  import opened ParamReading

  // ---------- Array lengths ----------

  predicate CanonicalDims(dims: seq<string>) {
    forall i | 0 <= i < |dims| :: Canonical(dims[i])
  }

  /** Lengths reprint as themselves exactly when none has superfluous zeros, and get shorter otherwise. */
  lemma {:induction false} ReprintedBrackets(dims: seq<string>)
    requires forall i | 0 <= i < |dims| :: AllDigits(dims[i])
    ensures |Brackets(ReprintAll(dims))| <= |Brackets(dims)|
    ensures CanonicalDims(dims) ==> Brackets(ReprintAll(dims)) == Brackets(dims)
    ensures !CanonicalDims(dims) ==> |Brackets(ReprintAll(dims))| < |Brackets(dims)|
  {
    if dims != [] {
      ReprintedBrackets(dims[1..]);
      assert ReprintAll(dims)[1..] == ReprintAll(dims[1..]);
      if dims[0] != "" { Reprinted(dims[0]); }
      assert CanonicalDims(dims) <==> Canonical(dims[0]) && CanonicalDims(dims[1..]) by {
        assert forall i | 0 < i < |dims| :: dims[i] == dims[1..][i - 1];
      }
    }
  }

  // ---------- What comes back ----------

  /** The parser never leaves `indexed` open for a component, and leaves it open for an unmarked root. */
  function Reread(p: ParamType, nested: bool): ParamType
    decreases p
  {
    ParamType(p.name, p.typ,
              if p.indexed == Some(true) then Some(true) else if nested then Some(false) else None,
              if p.components.NoComponents? then NoComponents else Components(RereadAll(p.components.list)))
  }

  function RereadAll(list: seq<ParamType>): (r: seq<ParamType>)
    ensures |r| == |list| && forall i | 0 <= i < |list| :: r[i] == Reread(list[i], true)
    decreases list
  {
    if |list| == 0 then [] else [Reread(list[0], true)] + RereadAll(list[1..])
  }

  /** Words the parser takes for something else than a name. */
  predicate Reserved(name: string) { name == "indexed" || name == "payable" || BytesModifier(name) }

  /** No name is reserved, no length has superfluous zeros and no tuple is empty, at any depth. */
  predicate Faithful(p: ParamType)
    decreases p
  {
    && (p.name.Some? ==> !Reserved(p.name.value))
    && CanonicalDims(Dims(p.typ))
    && (p.components.Components? ==> p.components.list != [] && AllFaithful(p.components.list))
  }

  predicate AllFaithful(list: seq<ParamType>)
    decreases list
  {
    |list| > 0 ==> Faithful(list[0]) && AllFaithful(list[1..])
  }

  lemma TypeComesBack(p: ParamType, style: Style)
    requires Stable(p.typ) && (style != Sighash || p.components.NoComponents?)
    ensures VerifyType(ReadType(p, style)) == ReadType(p, style)
    ensures ReadType(p, style) == p.typ <==> CanonicalDims(Dims(p.typ))
  {
    StableReadType(p, style);
    TypeIsBaseAndBrackets(p.typ);
    ReprintedBrackets(Dims(p.typ));
  }

  lemma NameComesBack(typ: string, name: string)
    ensures CheckModifier(typ, name) == KeptName <==> !BytesModifier(name) && name != "payable"
    ensures CheckModifier(typ, "") == KeptName
  {}

  function Start(nested: bool): Option<bool> { if nested then Some(false) else None }

  function End(n: Node, nested: bool): Option<Node> { if nested then Finish(n, true) else FinishRoot(n, true) }

  function NameText(p: ParamType): string { if p.name.Some? then p.name.value else "" }

  /** The last word decides whether the name survives. */
  lemma EndExactly(n: Node, p: ParamType, nested: bool)
    requires Stable(n.typ) && (p.name.Some? ==> p.name.value != "")
    requires var indexed := p.indexed == Some(true);
      n == Node(n.typ, if p.name.Some? then p.name.value else if indexed then "indexed" else "",
                if p.name.Some? && indexed then Some(true) else Start(nested), n.components)
    ensures var f := End(n, nested);
      && (f.Some? ==> f.value.typ == n.typ && f.value.components == n.components)
      && ((p.name.Some? ==> !Reserved(p.name.value)) ==>
            f == Some(n.(name := NameText(p),
                         indexed := if p.indexed == Some(true) then Some(true) else Start(nested))))
      && (f.Some? && p.name.Some? && Reserved(p.name.value) ==> f.value.name == "")
  {
    NameComesBack(n.typ, n.name);
    NameComesBack(n.typ, "");
  }

  /** Reading back one printed parameter, as a component or on its own. */
  function Back(p: ParamType, nested: bool): Option<ParamType> {
    var n := ReadNode(p, Full, true, Start(nested));
    if n.None? then None else
    var f := End(n.value, nested);
    if f.None? then None else Some(FromNode(f.value))
  }

  function BackList(list: seq<ParamType>): Option<seq<ParamType>> {
    var nodes := ReadList(list, Full, true);
    if nodes.None? then None else Some(FromNodes(nodes.value))
  }

  lemma {:induction false} BackExactly(p: ParamType, nested: bool)
    requires Legible(p)
    ensures Back(p, nested) == Some(Reread(p, nested)) <==> Faithful(p)
    decreases p, 1
  {
    if p.components.Components? {
      BackListExactly(p.components.list);
    }
    BackFromList(p, nested);
  }

  /** Reading back one parameter whose components were read as `children`. */
  lemma EndOfTail(p: ParamType, nested: bool, children: Children)
    requires Legible(p)
    ensures var n := ReadTail(Node(ReadType(p, Full), "", Start(nested), children), p, Full, true);
      && n.Some?
      && var f := End(n.value, nested);
      && (f.Some? ==> f.value.components == children && f.value.typ == ReadType(p, Full))
      && ((p.name.Some? ==> !Reserved(p.name.value)) ==>
            f == Some(Node(ReadType(p, Full), NameText(p), Reread(p, nested).indexed, children)))
      && (f.Some? && p.name.Some? && Reserved(p.name.value) ==> f.value.name == "")
  {
    hide Brackets, Plain, End, StemType, Reserved;
    StableReadType(p, Full);
    LegibleName(p);
    var n := ReadTail(Node(ReadType(p, Full), "", Start(nested), children), p, Full, true);
    hide ReadType, Legible, Stable;
    EndExactly(n.value, p, nested);
  }

  lemma BackFromList(p: ParamType, nested: bool)
    requires Legible(p)
    requires p.components.Components? ==>
      var list := p.components.list;
      (BackList(list) == Some(RereadAll(list)) <==> list != [] && AllFaithful(list))
    ensures Back(p, nested) == Some(Reread(p, nested)) <==> Faithful(p)
  {
    hide Legible, Stable, VerifyType, Reserved, CanonicalDims, ReadType, ReadTail, End, Dims, ReadList, AllFaithful,
      FromNodes, RereadAll, Plain;
    LegibleName(p);
    TypeComesBack(p, Full);
    if p.components.NoComponents? {
      EndOfTail(p, nested, NoChildren);
    } else {
      var nodes := ReadList(p.components.list, Full, true);
      if nodes.Some? {
        EndOfTail(p, nested, Children(nodes.value));
      }
    }
  }

  lemma LegibleName(p: ParamType)
    requires Legible(p)
    ensures Stable(p.typ) && (p.name.Some? ==> p.name.value != "")
  {}

  lemma {:induction false} BackListExactly(list: seq<ParamType>)
    requires AllLegible(list)
    ensures BackList(list) == Some(RereadAll(list)) <==> list != [] && AllFaithful(list)
    decreases list, 2
  {
    hide Back, BackList, Legible, Reread, Faithful;
    if list == [] {
      NothingIsReadAsOne();
    } else {
      BackExactly(list[0], true);
      if |list| > 1 {
        assert AllLegible(list[1..]);
        BackListExactly(list[1..]);
      }
      BackListUnfolds(list);
      var first, rest := Back(list[0], true), if |list| == 1 then Some([]) else BackList(list[1..]);
      if first.Some? && rest.Some? {
        SameCons(first.value, rest.value, Reread(list[0], true), RereadAll(list[1..]));
      }
    }
  }

  lemma SameCons<T>(a: T, x: seq<T>, b: T, y: seq<T>)
    ensures [a] + x == [b] + y <==> a == b && x == y
  {
    if [a] + x == [b] + y {
      assert ([a] + x)[0] == ([b] + y)[0];
      assert ([a] + x)[1..] == ([b] + y)[1..];
    }
  }

  lemma NothingIsReadAsOne()
    ensures BackList([]).Some? && |BackList([]).value| == 1
  {}

  lemma BackListUnfolds(list: seq<ParamType>)
    requires list != []
    ensures var first, rest := Back(list[0], true), BackList(list[1..]);
      BackList(list) ==
        if first.None? || (|list| > 1 && rest.None?) then None
        else Some([first.value] + (if |list| == 1 then [] else rest.value))
  {
    hide Finish, ReadNode, FromNode;
    if |list| == 1 {
      assert list[1..] == [];
    }
  }

  /** Reading a fully printed parameter rebuilds it exactly when no name is reserved, no array length has
      superfluous zeros and no tuple is empty, at any depth. */
  lemma PrintThenParseExactly(p: ParamType)
    requires Legible(p) && WellTyped(p)
    ensures FromString(Format(p, Full), true) == Some(Reread(p, false)) <==> Faithful(p)
  {
    hide Format, ReadNode, FinishRoot, Faithful, Legible;
    ParsePrinted(p, Full, true);
    BackExactly(p, false);
  }

  predicate Word(s: string) { s != "" && forall i | 0 <= i < |s| :: 'a' <= s[i] <= 'z' }

  lemma WordIsPlain(s: string)
    requires Word(s)
    ensures Plain(s)
  {
    forall i | 0 <= i < |s| ensures PlainChar(s[i]) {
      var c := s[i];
      assert 'a' <= c <= 'z';
    }
  }

  lemma WordIsType(s: string)
    requires Word(s) && s[0] != 'u' && s[0] != 'i'
    ensures Base(s) == s && Dims(s) == [] && Stable(s) && Plain(s)
  {
    WordIsPlain(s);
    LongerWhenVerified(s);
    assert s[|s| - 1] != ']';
    assert ArrayMatch(s) == None;
  }

  /** `bytes memory` with `memory` as its name does not come back. */
  lemma ModifierNameIsLost()
    ensures var p := ParamType(Some("memory"), "bytes", None, NoComponents);
      WellTyped(p) && FromString(Format(p, Full), true) != Some(Reread(p, false))
  {
    WordIsType("bytes");
    WordIsPlain("memory");
    hide Base, Dims, Plain, VerifyType, Format, FromString, InheritedKey;
    PrintThenParseExactly(ParamType(Some("memory"), "bytes", None, NoComponents));
  }

  /** An empty tuple does not come back. */
  lemma EmptyTupleIsLost()
    ensures var p := ParamType(None, "tuple", None, Components([]));
      WellTyped(p) && FromString(Format(p, Full), true) != Some(Reread(p, false))
  {
    WordIsType("tuple");
    hide Base, Dims, Plain, VerifyType, Format, FromString;
    PrintThenParseExactly(ParamType(None, "tuple", None, Components([])));
  }
}
