/** Canonical signature text: the two printers compared, and the text as a fixed point of reading and printing. */
module CanonicalSignatures {
  import opened Wrappers
  import opened Texts
  import opened ParamTypes
  import opened ParamParser
  import opened ParamReading
  import opened ParamRoundTrip

  // ---------- Two printers ----------

  predicate TupleTyped(p: ParamType)
    decreases p
  {
    p.components.Components? ==> StartsWith(p.typ, "tuple") && AllTupleTyped(p.components.list)
  }

  predicate AllTupleTyped(list: seq<ParamType>)
    decreases list
  {
    |list| > 0 ==> TupleTyped(list[0]) && AllTupleTyped(list[1..])
  }

  predicate CanonicalLengths(p: ParamType)
    decreases p
  {
    CanonicalDims(Dims(p.typ)) && (p.components.Components? ==> AllCanonicalLengths(p.components.list))
  }

  predicate AllCanonicalLengths(list: seq<ParamType>)
    decreases list
  {
    |list| > 0 ==> CanonicalLengths(list[0]) && AllCanonicalLengths(list[1..])
  }

  /** `long` is `short`, or strictly longer, as `same` says. */
  predicate Compared(long: string, short: string, same: bool) {
    if same then long == short else |long| > |short|
  }

  lemma FirstBracketIs(b: string, dims: seq<string>)
    requires Plain(b)
    ensures (b + Brackets(dims))[FirstBracket(b + Brackets(dims))..] == Brackets(dims)
  {
    var t := b + Brackets(dims);
    assert forall i | 0 <= i < |b| :: t[i] == b[i] && PlainChar(b[i]);
    assert dims != [] ==> t[|b|] == '[';
  }

  lemma ComparedConcat(a: string, b: string, c: string, d: string, same: bool, alike: bool)
    requires Compared(a, b, same) && Compared(c, d, alike)
    ensures Compared(a + c, b + d, same && alike)
  {}

  lemma FlattenLeaf(p: ParamType)
    requires Legible(p) && WellTyped(p) && p.components.NoComponents?
    ensures Compared(p.typ, Format(p, Sighash), CanonicalLengths(p))
  {
    FormatShape(p, Sighash);
    TypeIsBaseAndBrackets(p.typ);
    ReprintedBrackets(Dims(p.typ));
    hide Base, Dims, Brackets, ReprintAll, Format, Legible;
    ComparedConcat(Base(p.typ), Base(p.typ), Brackets(Dims(p.typ)), Brackets(ReprintAll(Dims(p.typ))), true,
      CanonicalDims(Dims(p.typ)));
    assert Format(p, Sighash) == Base(p.typ) + Brackets(ReprintAll(Dims(p.typ)));
  }

  function Parens(inner: string): string { "(" + inner + ")" }

  lemma SignatureOfTuple(p: ParamType)
    requires WellTyped(p) && p.components.Components?
    ensures Format(p, Sighash)
         == Parens(Join(Formats(p.components.list, Sighash), Separator(Sighash))) + Brackets(ReprintAll(Dims(p.typ)))
  {
    FormatShape(p, Sighash);
    hide Dims, Brackets, ReprintAll, Format, Formats, Join, WellTyped;
    assert "" + "(" == "(";
  }

  lemma FlattenNode(p: ParamType, parts: seq<string>)
    requires Legible(p) && WellTyped(p) && p.components.Components?
    requires Compared(Join(parts, ","), Join(Formats(p.components.list, Sighash), ","),
      AllCanonicalLengths(p.components.list))
    ensures Compared(Parens(Join(parts, ",")) + p.typ[FirstBracket(p.typ)..], Format(p, Sighash), CanonicalLengths(p))
  {
    SignatureOfTuple(p);
    TypeIsBaseAndBrackets(p.typ);
    FirstBracketIs(Base(p.typ), Dims(p.typ));
    ReprintedBrackets(Dims(p.typ));
    hide Base, Dims, Brackets, ReprintAll, Format, Formats, Legible, Plain, Join, AllCanonicalLengths, FirstBracket,
      WellTyped;
    var long, short := Join(parts, ","), Join(Formats(p.components.list, Sighash), ",");
    assert Compared(Parens(long), Parens(short), AllCanonicalLengths(p.components.list));
    hide Compared, Parens;
    ComparedConcat(Parens(long), Parens(short), Brackets(Dims(p.typ)), Brackets(ReprintAll(Dims(p.typ))),
                   AllCanonicalLengths(p.components.list), CanonicalDims(Dims(p.typ)));
  }

  /** Both printers print the same text exactly when all array lengths are canonical; otherwise the first
      one, which does not reprint lengths, is longer. It throws exactly for components without a tuple. */
  lemma {:induction false} PrintersAgreeExactly(p: ParamType)
    requires Legible(p) && WellTyped(p)
    ensures Flatten(p).Ok? <==> TupleTyped(p)
    ensures Flatten(p).Ok? ==> Compared(Flatten(p).value, Format(p, Sighash), CanonicalLengths(p))
    decreases p, 1
  {
    hide Format, Legible, CanonicalLengths;
    if p.components.NoComponents? {
      FlattenLeaf(p);
    } else {
      LegibleList(p);
      ListsAgree(p.components.list);
      if FlattenAll(p.components.list).Ok? {
        FlattenNode(p, FlattenAll(p.components.list).value);
      }
    }
  }

  lemma LegibleList(p: ParamType)
    requires Legible(p) && p.components.Components?
    ensures AllLegible(p.components.list)
  {}

  lemma {:induction false} ListsAgree(list: seq<ParamType>)
    requires AllLegible(list) && forall i | 0 <= i < |list| :: WellTyped(list[i])
    ensures FlattenAll(list).Ok? <==> AllTupleTyped(list)
    ensures FlattenAll(list).Ok? ==>
      Compared(Join(FlattenAll(list).value, ","), Join(Formats(list, Sighash), ","), AllCanonicalLengths(list))
    decreases list, 2
  {
    hide Flatten, Format, Legible, CanonicalLengths, TupleTyped, WellTyped;
    if list != [] {
      PrintersAgreeExactly(list[0]);
      ListsAgree(list[1..]);
      if FlattenAll(list).Ok? {
        JoinsCompare(list);
      }
    }
  }

  lemma JoinsCompare(list: seq<ParamType>)
    requires list != [] && FlattenAll(list).Ok? && forall i | 0 <= i < |list| :: WellTyped(list[i])
    requires Compared(Flatten(list[0]).value, Format(list[0], Sighash), CanonicalLengths(list[0]))
    requires FlattenAll(list[1..]).Ok?
    requires Compared(Join(FlattenAll(list[1..]).value, ","), Join(Formats(list[1..], Sighash), ","),
      AllCanonicalLengths(list[1..]))
    ensures Compared(Join(FlattenAll(list).value, ","), Join(Formats(list, Sighash), ","), AllCanonicalLengths(list))
  {
    hide Flatten, Format, Legible, CanonicalLengths, TupleTyped, WellTyped;
    var long, short := FlattenAll(list).value, Formats(list, Sighash);
    assert long[1..] == FlattenAll(list[1..]).value && short[1..] == Formats(list[1..], Sighash);
    if |list| > 1 {
      assert Join(long, ",") == long[0] + "," + Join(long[1..], ",");
      assert Join(short, ",") == short[0] + "," + Join(short[1..], ",");
    }
  }

  /** For types with a width and canonical lengths, `flattenTypes` and `format('sighash')` are the same text. */
  lemma PrintersAgree(p: ParamType)
    requires Legible(p) && WellTyped(p)
    ensures Flatten(p) == Ok(Format(p, Sighash)) <==> TupleTyped(p) && CanonicalLengths(p)
  {
    PrintersAgreeExactly(p);
  }

  // ---------- Reading signature text ----------

  /** Base and suffixes of a word followed by brackets. */
  lemma {:induction false} BaseOfBrackets(b: string, dims: seq<string>)
    requires b == "" || Plain(b)
    requires forall i | 0 <= i < |dims| :: AllDigits(dims[i])
    ensures Base(b + Brackets(dims)) == b && Dims(b + Brackets(dims)) == dims
    decreases |dims|
  {
    hide ArrayMatch, Brackets, Plain;
    if dims == [] {
      NoBrackets();
      assert b + "" == b;
      NoSuffix(b);
    } else {
      var front, last := dims[..|dims| - 1], dims[|dims| - 1];
      assert dims == front + [last];
      BracketsSnoc(front, last);
      NoLineBreaks(b, front);
      ArrayMatchIs(b + Brackets(front), last);
      assert b + Brackets(dims) == (b + Brackets(front)) + "[" + last + "]";
      BaseOfBrackets(b, front);
    }
  }

  lemma NoSuffix(b: string)
    requires b == "" || Plain(b)
    ensures ArrayMatch(b) == None
  {
    assert b != "" ==> PlainChar(b[|b| - 1]);
  }

  lemma {:induction false} NoLineBreaks(b: string, dims: seq<string>)
    requires b == "" || Plain(b)
    requires forall i | 0 <= i < |dims| :: AllDigits(dims[i])
    ensures forall c <- b + Brackets(dims) :: !LineBreak(c)
  {
    forall c | c in b ensures !LineBreak(c) { assert b != "" && PlainChar(c); }
    BracketsAreClean(dims);
  }

  lemma {:induction false} BracketsAreClean(dims: seq<string>)
    requires forall i | 0 <= i < |dims| :: AllDigits(dims[i])
    ensures forall c <- Brackets(dims) :: IsDigit(c) || c == '[' || c == ']'
  {
    if dims != [] {
      BracketsAreClean(dims[1..]);
      assert forall c <- dims[0] :: IsDigit(c);
    }
  }

  lemma {:induction false} ReprintTwice(dims: seq<string>)
    requires forall i | 0 <= i < |dims| :: AllDigits(dims[i])
    ensures ReprintAll(ReprintAll(dims)) == ReprintAll(dims)
  {}

  /** The parameter that printed signature text is read as. */
  function Signed(p: ParamType, nested: Option<bool>, allowIndexed: bool): ParamType
    decreases p
  {
    ParamType(None, ReadType(p, Sighash), nested,
              if p.components.NoComponents? then NoComponents
                else Components(SignedAll(p.components.list, allowIndexed)))
  }

  /** An empty list of components is read as one component of empty type. */
  function SignedAll(list: seq<ParamType>, allowIndexed: bool): seq<ParamType>
    decreases list
  {
    if |list| == 0 then [ParamType(None, "", ChildIndexed(allowIndexed), NoComponents)]
    else [Signed(list[0], ChildIndexed(allowIndexed), allowIndexed)]
         + (if |list| == 1 then [] else SignedAll(list[1..], allowIndexed))
  }

  lemma UnnamedFinishes(n: Node, allowIndexed: bool)
    requires n.name == "" && Stable(n.typ)
    ensures Finish(n, allowIndexed) == Some(n) && FinishRoot(n, allowIndexed) == Some(n)
  {
    NameComesBack(n.typ, "");
  }

  lemma {:induction false} SignatureRead(p: ParamType, indexed: Option<bool>, allowIndexed: bool)
    requires Legible(p)
    ensures var n := ReadNode(p, Sighash, allowIndexed, indexed);
      && n.Some? && Finish(n.value, allowIndexed) == n && FinishRoot(n.value, allowIndexed) == n
      && FromNode(n.value) == Signed(p, indexed, allowIndexed)
    decreases p, 1
  {
    hide Finish, FinishRoot, Base, Dims, Plain, Brackets;
    StableReadType(p, Sighash);
    if p.components.Components? {
      SignatureListRead(p.components.list, allowIndexed);
    }
    UnnamedFinishes(ReadNode(p, Sighash, allowIndexed, indexed).value, allowIndexed);
  }

  lemma {:induction false} SignatureListRead(list: seq<ParamType>, allowIndexed: bool)
    requires AllLegible(list)
    ensures var nodes := ReadList(list, Sighash, allowIndexed);
      nodes.Some? && FromNodes(nodes.value) == SignedAll(list, allowIndexed)
    decreases list, 2
  {
    hide Finish, FinishRoot, ReadNode, Signed;
    if list != [] {
      SignatureRead(list[0], ChildIndexed(allowIndexed), allowIndexed);
      if |list| > 1 {
        assert AllLegible(list[1..]);
        SignatureListRead(list[1..], allowIndexed);
      }
    } else {
      assert FromNodes([Node("", "", ChildIndexed(allowIndexed), NoChildren)]) == SignedAll(list, allowIndexed);
    }
  }

  lemma SignedShape(p: ParamType, indexed: Option<bool>, allowIndexed: bool)
    requires Legible(p)
    ensures var q := Signed(p, indexed, allowIndexed);
      && Stable(q.typ) && Base(q.typ) == StemType(p, Sighash)
      && Dims(q.typ) == ReprintAll(Dims(p.typ)) && ReprintAll(Dims(q.typ)) == ReprintAll(Dims(p.typ))
  {
    hide Legible, Base, Dims, Brackets, Plain, VerifyType, ReprintAll, StemType;
    LegibleStem(p);
    StableReadType(p, Sighash);
    BaseOfBrackets(StemType(p, Sighash), ReprintAll(Dims(p.typ)));
    ReprintTwice(Dims(p.typ));
  }

  lemma LegibleStem(p: ParamType)
    requires Legible(p)
    ensures Stable(p.typ) && Plain(StemType(p, Sighash))
  {
    hide VerifyType, Base;
    WordIsPlain("tuple");
  }

  lemma {:induction false} SignedPrints(p: ParamType, indexed: Option<bool>, allowIndexed: bool)
    requires Legible(p) && WellTyped(p)
    ensures var q := Signed(p, indexed, allowIndexed);
      WellTyped(q) && Format(q, Sighash) == Format(p, Sighash)
    decreases p, 1
  {
    var q := Signed(p, indexed, allowIndexed);
    SignedShape(p, indexed, allowIndexed);
    if p.components.Components? {
      LegibleList(p);
      SignedListPrints(p.components.list, allowIndexed);
      assert WellTyped(q);
      SignatureOfTuple(p);
      SignatureOfTuple(q);
    } else {
      assert WellTyped(q);
      FormatShape(p, Sighash);
      FormatShape(q, Sighash);
    }
  }

  lemma {:induction false} SignedListPrints(list: seq<ParamType>, allowIndexed: bool)
    requires AllLegible(list) && forall i | 0 <= i < |list| :: WellTyped(list[i])
    ensures var q := SignedAll(list, allowIndexed);
      && (forall i | 0 <= i < |q| :: WellTyped(q[i]))
      && Join(Formats(q, Sighash), ",") == Join(Formats(list, Sighash), ",")
    decreases list, 2
  {
    hide Format, Signed;
    var q := SignedAll(list, allowIndexed);
    if list == [] {
      EmptyPrints(allowIndexed);
    } else {
      SignedPrints(list[0], ChildIndexed(allowIndexed), allowIndexed);
      if |list| > 1 {
        assert AllLegible(list[1..]);
        SignedListPrints(list[1..], allowIndexed);
        assert q[1..] == SignedAll(list[1..], allowIndexed);
        assert Formats(q, Sighash)[1..] == Formats(q[1..], Sighash);
        assert Formats(list, Sighash)[1..] == Formats(list[1..], Sighash);
      } else {
        assert Formats(q, Sighash) == Formats(list, Sighash);
      }
    }
  }

  lemma EmptyPrints(allowIndexed: bool)
    ensures var p := ParamType(None, "", ChildIndexed(allowIndexed), NoComponents);
      WellTyped(p) && Format(p, Sighash) == "" && Formats([p], Sighash) == [""]
  {
    var p := ParamType(None, "", ChildIndexed(allowIndexed), NoComponents);
    assert Format(p, Sighash) == "";
  }

  /** Signature text is a fixed point of reading and printing, for every parameter, empty tuples and
      superfluous zeros included. */
  lemma SignatureIsFixedPoint(p: ParamType, allowIndexed: bool)
    requires Legible(p) && WellTyped(p)
    ensures var q := FromString(Format(p, Sighash), allowIndexed);
      q.Some? && WellTyped(q.value) && Format(q.value, Sighash) == Format(p, Sighash)
  {
    hide Format, ReadNode, FinishRoot, Finish, Legible, Parse, WellTyped, Signed;
    ParsePrinted(p, Sighash, allowIndexed);
    SignatureRead(p, None, allowIndexed);
    SignedPrints(p, None, allowIndexed);
  }
}
