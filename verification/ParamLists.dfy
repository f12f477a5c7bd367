/** Parameter lists: a splitter that cuts at commas outside parentheses, and the list round trip. */
module ParamLists {
  import opened Wrappers
  import opened Texts
  import opened ParamTypes
  import opened ParamParser
  import opened ParamReading
  import opened ParamRoundTrip

  function TrimStart(s: string): string {
    if |s| > 0 && IsSpace(s[0]) then TrimStart(s[1..]) else s
  }

  function TrimEnd(s: string): string {
    if |s| > 0 && IsSpace(s[|s| - 1]) then TrimEnd(s[..|s| - 1]) else s
  }

  function Trim(s: string): string { TrimEnd(TrimStart(s)) }

  lemma {:induction false} TrimsStart(space: string, s: string)
    requires (forall c <- space :: IsSpace(c)) && (s == "" || !IsSpace(s[0]))
    ensures TrimStart(space + s) == s
    decreases |space|
  {
    if space == "" {
      assert space + s == s;
    } else {
      assert space[0] in space && (space + s)[1..] == space[1..] + s;
      assert forall c <- space[1..] :: c in space;
      TrimsStart(space[1..], s);
    }
  }

  lemma {:induction false} TrimsEnd(s: string, space: string)
    requires (forall c <- space :: IsSpace(c)) && (s == "" || !IsSpace(s[|s| - 1]))
    ensures TrimEnd(s + space) == s
    decreases |space|
  {
    if space == "" {
      assert s + space == s;
    } else {
      var front, last := space[..|space| - 1], space[|space| - 1];
      assert last in space && (s + space)[..|s + space| - 1] == s + front;
      assert forall c <- front :: c in space;
      TrimsEnd(s, front);
    }
  }

  /** Trimming takes the white space off both ends and nothing else. */
  lemma TrimIs(before: string, s: string, behind: string)
    requires (forall c <- before + behind :: IsSpace(c)) && (s == "" || (!IsSpace(s[0]) && !IsSpace(s[|s| - 1])))
    ensures Trim(before + (s + behind)) == s
  {
    hide IsSpace;
    assert forall c <- before :: c in before + behind;
    assert forall c <- behind :: c in before + behind;
    if s == "" {
      TrimsStart(before + behind, "");
      assert before + (s + behind) == (before + behind) + "";
    } else {
      TrimsStart(before, s + behind);
      TrimsEnd(s, behind);
    }
  }

  // ---------- The splitter ----------

  function DepthAfter(c: char, depth: nat): nat
    requires c == ')' ==> depth > 0
  {
    if c == '(' then depth + 1 else if c == ')' then depth - 1 else depth
  }

  /** All pieces, the last one included even when it is empty; None for an unbalanced `)`. */
  function Pieces(text: string, accum: string, depth: nat): Option<seq<string>>
    decreases |text|
  {
    if |text| == 0 then Some([accum])
    else if text[0] == ',' && depth == 0 then
      var rest := Pieces(text[1..], "", 0);
      if rest.None? then None else Some([accum] + rest.value)
    else if text[0] == ')' && depth == 0 then None
    else Pieces(text[1..], accum + [text[0]], DepthAfter(text[0], depth))
  }

  lemma {:induction false} PiecesNonEmpty(text: string, accum: string, depth: nat)
    ensures Pieces(text, accum, depth).Some? ==> Pieces(text, accum, depth).value != []
    decreases |text|
  {
    if |text| > 0 && !(text[0] == ',' && depth == 0) && !(text[0] == ')' && depth == 0) {
      PiecesNonEmpty(text[1..], accum + [text[0]], DepthAfter(text[0], depth));
    }
  }

  /** An empty last piece is not reported. */
  function DropEmptyLast(ps: seq<string>): seq<string> {
    if |ps| > 0 && ps[|ps| - 1] == "" then ps[..|ps| - 1] else ps
  }

  function Split(value: string): Option<seq<string>> {
    var ps := Pieces(Trim(value), "", 0);
    if ps.None? then None else Some(DropEmptyLast(ps.value))
  }

  lemma DropLast(result: seq<string>, accum: string)
    ensures DropEmptyLast(result + [accum]) == if accum == "" then result else result + [accum]
  {
    assert (result + [accum])[..|result|] == result;
  }

  lemma PiecesStep(text: string, accum: string, depth: nat)
    requires text != ""
    ensures Pieces(text, accum, depth) ==
      if text[0] == ',' && depth == 0 then
        (if Pieces(text[1..], "", 0).None? then None else Some([accum] + Pieces(text[1..], "", 0).value))
      else if text[0] == ')' && depth == 0 then None
      else Pieces(text[1..], accum + [text[0]], DepthAfter(text[0], depth))
  {}

  /** Pieces already cut off, followed by those still to come. */
  function After(result: seq<string>, rest: Option<seq<string>>): Option<seq<string>> {
    if rest.None? then None else Some(result + rest.value)
  }

  lemma AfterOne(result: seq<string>, piece: string, rest: Option<seq<string>>)
    ensures After(result, if rest.None? then None else Some([piece] + rest.value)) == After(result + [piece], rest)
    ensures After([], rest) == rest
  {
    if rest.Some? {
      assert result + ([piece] + rest.value) == (result + [piece]) + rest.value;
      assert [] + rest.value == rest.value;
    }
  }

  method SplitNesting(value: string) returns (r: Option<seq<string>>)
    ensures r == Split(value)
  {
    hide Pieces, DropEmptyLast, After, Trim;
    var text := Trim(value);
    var result: seq<string>, accum, depth: nat := [], "", 0;
    var offset := 0;
    assert text[0..] == text;
    AfterOne([], "", Pieces(text, "", 0));
    while offset < |text|
      invariant offset <= |text|
      invariant Pieces(text, "", 0) == After(result, Pieces(text[offset..], accum, depth))
    {
      assert text[offset..][0] == text[offset] && text[offset..][1..] == text[offset + 1..];
      PiecesStep(text[offset..], accum, depth);
      var c := text[offset];
      if c == ',' && depth == 0 {
        AfterOne(result, accum, Pieces(text[offset + 1..], "", 0));
        result, accum := result + [accum], "";
      } else {
        if c == ')' && depth == 0 {
          NoPieces(result);
          return None;
        }
        accum, depth := accum + [c], DepthAfter(c, depth);
      }
      offset := offset + 1;
    }
    LastPiece(text[offset..], result, accum, depth);
    DropLast(result, accum);
    if accum != "" { result := result + [accum]; }
    return Some(result);
  }

  lemma NoPieces(result: seq<string>)
    ensures After(result, None) == None
  {}

  lemma LastPiece(text: string, result: seq<string>, accum: string, depth: nat)
    requires text == ""
    ensures After(result, Pieces(text, accum, depth)) == Some(result + [accum])
  {}

  // ---------- What the splitter does ----------

  /** The depth after a text without cut points, starting at `depth`; None if it has one or closes too much. */
  function Walk(text: string, depth: nat): Option<nat>
    decreases |text|
  {
    if |text| == 0 then Some(depth)
    else if depth == 0 && (text[0] == ',' || text[0] == ')') then None
    else Walk(text[1..], DepthAfter(text[0], depth))
  }

  lemma {:induction false} WalkConcat(a: string, b: string, depth: nat)
    ensures Walk(a + b, depth) == if Walk(a, depth).None? then None else Walk(b, Walk(a, depth).value)
    decreases |a|
  {
    if a == [] {
      assert a + b == b;
    } else {
      assert (a + b)[0] == a[0] && (a + b)[1..] == a[1..] + b;
      if !(depth == 0 && (a[0] == ',' || a[0] == ')')) { WalkConcat(a[1..], b, DepthAfter(a[0], depth)); }
    }
  }

  /** The parser keeps one open ancestor for every parenthesis that is open. */
  lemma {:induction false} FeedNests(s: Cursor, text: string, allowIndexed: bool)
    ensures var end := Feed(s, text, allowIndexed);
      end.Some? ==> Walk(text, |s.parents|) == Some(|end.value.parents|)
    decreases |text|
  {
    hide Quiet, Finish, NewNode, Adopt, VerifyType;
    if text != "" {
      var next := Step(s, text[0], allowIndexed);
      if next.Some? { FeedNests(next.value, text[1..], allowIndexed); }
    }
  }

  /** Whatever is read as one parameter is balanced and has no comma outside parentheses. */
  lemma ParsedIsBalanced(text: string, allowIndexed: bool)
    requires FromString(text, allowIndexed).Some?
    ensures Walk(text, 0) == Some(0)
  {
    hide Feed, Walk, FinishRoot;
    FeedNests(Cursor(NewNode(None), []), text, allowIndexed);
  }

  /** Balanced pieces without a comma at depth zero, the last one possibly still open. */
  predicate Uncut(ps: seq<string>, depth: nat)
  {
    && |ps| > 0
    && Walk(ps[0], depth).Some? && (|ps| > 1 ==> Walk(ps[0], depth) == Some(0))
    && (forall i | 1 <= i < |ps| - 1 :: Walk(ps[i], 0) == Some(0))
    && (|ps| > 1 ==> Walk(ps[|ps| - 1], 0).Some?)
  }

  lemma UncutTail(ps: seq<string>, depth: nat)
    requires |ps| > 1
    ensures Uncut(ps, depth) <==> Walk(ps[0], depth) == Some(0) && Uncut(ps[1..], 0)
  {
    var q := ps[1..];
    assert forall i | 0 <= i < |q| :: q[i] == ps[i + 1];
    if Walk(ps[0], depth) == Some(0) && Uncut(q, 0) {
      forall i | 1 <= i < |ps| - 1 ensures Walk(ps[i], 0) == Some(0) {
        assert ps[i] == q[i - 1];
      }
    }
  }

  lemma {:induction false} UncutIsSplit(first: string, rest: seq<string>, accum: string, depth: nat)
    requires Uncut([first] + rest, depth)
    ensures Pieces(Join([first] + rest, ","), accum, depth) == Some([accum + first] + rest)
    decreases |rest|, |first|
  {
    var ps := [first] + rest;
    assert ps[1..] == rest;
    if first != "" {
      var c, shorter := first[0], first[1..];
      assert first == [c] + shorter;
      assert ([shorter] + rest)[1..] == rest;
      assert Join(ps, ",") == [c] + Join([shorter] + rest, ",");
      UncutShorter(first, rest, depth);
      UncutIsSplit(shorter, rest, accum + [c], DepthAfter(c, depth));
      assert (accum + [c]) + shorter == accum + first;
    } else if rest == [] {
      assert accum + first == accum && [accum] + rest == [accum];
    } else {
      UncutTail(ps, depth);
      assert rest == [rest[0]] + rest[1..];
      UncutIsSplit(rest[0], rest[1..], "", 0);
      assert "" + rest[0] == rest[0];
      assert Join(ps, ",") == "," + Join(rest, ",");
      assert accum + first == accum;
    }
  }

  lemma UncutShorter(first: string, rest: seq<string>, depth: nat)
    requires Uncut([first] + rest, depth) && first != ""
    ensures first[0] == ')' ==> depth > 0
    ensures !(depth == 0 && first[0] == ',')
    ensures Uncut([first[1..]] + rest, DepthAfter(first[0], depth))
  {
    var p, q := [first] + rest, [first[1..]] + rest;
    assert p[0] == first && q[0] == first[1..];
    assert forall i | 1 <= i < |p| :: p[i] == q[i];
  }

  lemma {:induction false} SplitIsUncut(text: string, accum: string, depth: nat)
    requires Pieces(text, accum, depth).Some?
    ensures var ps := Pieces(text, accum, depth).value;
      && ps != [] && accum <= ps[0]
      && Uncut([ps[0][|accum|..]] + ps[1..], depth)
      && Join([ps[0][|accum|..]] + ps[1..], ",") == text
    decreases |text|
  {
    hide Uncut, Join;
    var ps := Pieces(text, accum, depth).value;
    if text == "" {
      assert accum[|accum|..] == "";
      OnePiece(depth);
      assert [""] + [] == [""];
    } else if text[0] == ',' && depth == 0 {
      var rest := Pieces(text[1..], "", 0).value;
      SplitIsUncut(text[1..], "", 0);
      assert [rest[0][0..]] + rest[1..] == rest;
      assert ps[1..] == rest && accum[|accum|..] == "";
      EmptyFirst(rest);
      assert text == "," + text[1..];
    } else {
      var c := text[0];
      SplitIsUncut(text[1..], accum + [c], DepthAfter(c, depth));
      var shorter := ps[0][|accum| + 1..];
      assert ps[0][|accum|..] == [c] + shorter;
      UncutLonger(c, shorter, ps[1..], depth);
      JoinShift([c], shorter, ps[1..]);
      assert text == [c] + text[1..];
    }
  }

  lemma OnePiece(depth: nat)
    ensures Uncut([""], depth) && Join([""], ",") == ""
  {}

  lemma EmptyFirst(rest: seq<string>)
    requires rest != [] && Uncut(rest, 0)
    ensures Uncut([""] + rest, 0) && Join([""] + rest, ",") == "," + Join(rest, ",")
  {
    assert ([""] + rest)[1..] == rest;
    UncutTail([""] + rest, 0);
  }

  lemma UncutLonger(c: char, first: string, rest: seq<string>, depth: nat)
    requires !(depth == 0 && (c == ',' || c == ')'))
    requires Uncut([first] + rest, DepthAfter(c, depth))
    ensures Uncut([[c] + first] + rest, depth)
  {
    var p, q := [[c] + first] + rest, [first] + rest;
    assert p[0] == [c] + first && q[0] == first && ([c] + first)[1..] == first;
    assert forall i | 1 <= i < |p| :: p[i] == q[i];
  }

  /** The splitter inverts joining: `ps` is the result exactly when it joins to the text and no piece
      before the last has a comma at depth zero, closes too much or stays open. */
  lemma SplitExactly(text: string, ps: seq<string>)
    ensures Pieces(text, "", 0) == Some(ps) <==> Uncut(ps, 0) && Join(ps, ",") == text
  {
    if Pieces(text, "", 0) == Some(ps) {
      SplitIsUncut(text, "", 0);
      assert [ps[0][0..]] + ps[1..] == ps;
    }
    if Uncut(ps, 0) && Join(ps, ",") == text {
      assert ps == [ps[0]] + ps[1..];
      UncutIsSplit(ps[0], ps[1..], "", 0);
      assert "" + ps[0] == ps[0];
    }
  }

  // ---------- Lists of parameters ----------

  function ParseAll(pieces: seq<string>, allowIndexed: bool): Option<seq<ParamType>>
    decreases |pieces|
  {
    if |pieces| == 0 then Some([])
    else
      var first := FromString(pieces[0], allowIndexed);
      if first.None? then None else
      var rest := ParseAll(pieces[1..], allowIndexed);
      if rest.None? then None else Some([first.value] + rest.value)
  }

  /** `parseParams` */
  function ParseParams(value: string, allowIndexed: bool): Option<seq<ParamType>> {
    var pieces := Split(value);
    if pieces.None? then None else ParseAll(pieces.value, allowIndexed)
  }

  /** Text without any character of its own for the splitter. */
  predicate Flat(s: string) { forall i | 0 <= i < |s| :: s[i] != ',' && s[i] != '(' && s[i] != ')' }

  lemma {:induction false} WalkFlat(s: string, depth: nat)
    requires Flat(s)
    ensures Walk(s, depth) == Some(depth)
    decreases |s|
  {
    if s != "" {
      assert Flat(s[1..]) by { assert forall i | 0 <= i < |s[1..]| :: s[1..][i] == s[i + 1]; }
      WalkFlat(s[1..], depth);
    }
  }

  lemma {:induction false} FlatBrackets(dims: seq<string>)
    requires forall i | 0 <= i < |dims| :: AllDigits(dims[i])
    ensures Flat(Brackets(dims))
    ensures dims != [] ==> Brackets(dims) != "" && Brackets(dims)[|Brackets(dims)| - 1] == ']'
  {
    if dims != [] {
      FlatBrackets(dims[1..]);
      assert forall i | 0 <= i < |dims[0]| :: IsDigit(dims[0][i]);
    }
  }

  lemma FlatPlain(s: string)
    requires Plain(s)
    ensures Flat(s)
  {
    forall i | 0 <= i < |s| ensures s[i] != ',' && s[i] != '(' && s[i] != ')' { assert PlainChar(s[i]); }
  }

  lemma FlatTail(p: ParamType)
    requires p.name.Some? ==> Plain(p.name.value)
    ensures Flat(Tail(p, Full))
  {
    if p.name.Some? { FlatPlain(p.name.value); }
    assert Flat(IndexedText(p));
  }

  /** A printed parameter is balanced and has no comma at depth zero, at whatever depth it is put. */
  lemma {:induction false} WalkPrinted(p: ParamType, depth: nat)
    requires Legible(p) && WellTyped(p)
    ensures Walk(Format(p, Full), depth) == Some(depth)
    decreases p, 1
  {
    var dims := ReprintAll(Dims(p.typ));
    FormatShape(p, Full);
    FlatBrackets(dims);
    FlatTail(p);
    FlatPlain(Base(p.typ));
    if p.components.NoComponents? {
      WalkFlat(Base(p.typ), depth);
    } else {
      LegibleParts(p);
      WalkList(p.components.list, depth + 1);
      WalkParens(Base(p.typ), Join(Formats(p.components.list, Full), ", "), depth);
    }
    hide Format, Stem, Flat, Plain, Tail, Brackets, Base, Dims, Legible;
    assert Walk(Stem(p, Full), depth) == Some(depth);
    WalkConcat(Stem(p, Full), Brackets(dims), depth);
    WalkFlat(Brackets(dims), depth);
    WalkConcat(Stem(p, Full) + Brackets(dims), Tail(p, Full), depth);
    WalkFlat(Tail(p, Full), depth);
  }

  lemma LegibleParts(p: ParamType)
    requires Legible(p) && p.components.Components?
    ensures AllLegible(p.components.list)
  {}

  lemma WalkParens(word: string, inner: string, depth: nat)
    requires Flat(word) && Walk(inner, depth + 1) == Some(depth + 1)
    ensures Walk(word + "(" + inner + ")", depth) == Some(depth)
  {
    WalkFlat(word, depth);
    WalkConcat(word, "(", depth);
    assert Walk("(", depth) == Walk("", depth + 1);
    WalkConcat(word + "(", inner, depth);
    WalkConcat(word + "(" + inner, ")", depth);
    assert Walk(")", depth + 1) == Walk("", depth);
  }

  lemma {:induction false} WalkList(list: seq<ParamType>, depth: nat)
    requires AllLegible(list) && depth > 0 && forall i | 0 <= i < |list| :: WellTyped(list[i])
    ensures Walk(Join(Formats(list, Full), ", "), depth) == Some(depth)
    decreases list, 2
  {
    hide Format, Legible, WellTyped;
    if list != [] {
      WalkPrinted(list[0], depth);
      if |list| > 1 {
        assert AllLegible(list[1..]);
        WalkList(list[1..], depth);
        WalkJoin(Formats(list, Full), depth);
        assert Formats(list, Full)[1..] == Formats(list[1..], Full);
      }
    }
  }

  lemma WalkJoin(texts: seq<string>, depth: nat)
    requires |texts| > 1 && depth > 0
    requires Walk(texts[0], depth) == Some(depth) && Walk(Join(texts[1..], ", "), depth) == Some(depth)
    ensures Walk(Join(texts, ", "), depth) == Some(depth)
  {
    WalkConcat(texts[0], ", ", depth);
    assert ", " == [','] + [' '];
    assert Walk(", ", depth) == Walk(", "[1..], depth) == Walk(", "[1..][1..], depth);
    WalkConcat(texts[0] + ", ", Join(texts[1..], ", "), depth);
  }

  /** Every text with a leading space. */
  function Lead(texts: seq<string>): (r: seq<string>)
    ensures |r| == |texts| && forall i | 0 <= i < |texts| :: r[i] == " " + texts[i]
  {
    if |texts| == 0 then [] else [" " + texts[0]] + Lead(texts[1..])
  }

  /** Joining with a comma and a space is joining with commas, each text but the first with a leading space. */
  lemma {:induction false} JoinLead(first: string, rest: seq<string>)
    ensures Join([first] + rest, ", ") == Join([first] + Lead(rest), ",")
    decreases |rest|
  {
    assert ([first] + rest)[1..] == rest && ([first] + Lead(rest))[1..] == Lead(rest);
    if rest != [] {
      assert rest == [rest[0]] + rest[1..] && Lead(rest) == [" " + rest[0]] + Lead(rest[1..]);
      JoinLead(rest[0], rest[1..]);
      JoinShift(" ", rest[0], Lead(rest[1..]));
      assert first + ", " + Join(rest, ", ") == first + "," + (" " + Join(rest, ", "));
    }
  }

  lemma JoinShift(a: string, b: string, rest: seq<string>)
    ensures Join([a + b] + rest, ",") == a + Join([b] + rest, ",")
  {
    assert ([a + b] + rest)[1..] == rest && ([b] + rest)[1..] == rest;
  }

  lemma SpaceMeansNothing(text: string, allowIndexed: bool)
    ensures FromString(" " + text, allowIndexed) == FromString(text, allowIndexed)
  {
    FeedBlank(None, [], allowIndexed);
    FeedThen(Cursor(NewNode(None), []), " ", Cursor(NewNode(None), []), text, allowIndexed);
  }

  lemma {:induction false} ParseLead(texts: seq<string>, allowIndexed: bool)
    ensures ParseAll(Lead(texts), allowIndexed) == ParseAll(texts, allowIndexed)
    decreases |texts|
  {
    hide FromString;
    if texts != [] {
      assert Lead(texts)[1..] == Lead(texts[1..]);
      SpaceMeansNothing(texts[0], allowIndexed);
      ParseLead(texts[1..], allowIndexed);
    }
  }

  predicate SolidEnds(s: string) { s != "" && !IsSpace(s[0]) && !IsSpace(s[|s| - 1]) }

  /** Text that does not end with white space. */
  predicate SolidEnd(s: string) { s != "" ==> !IsSpace(s[|s| - 1]) }

  lemma SolidStem(p: ParamType)
    requires Legible(p) && WellTyped(p)
    ensures SolidEnds(Stem(p, Full))
  {
    hide Formats, Join, Legible, IsSpace;
    var base := Base(p.typ);
    assert Plain(base) by { PlainBase(p); }
    assert PlainChar(base[0]) && PlainChar(base[|base| - 1]);
    NoSpace();
  }

  lemma PlainBase(p: ParamType)
    requires Legible(p)
    ensures Plain(Base(p.typ)) && (p.name.Some? ==> Plain(p.name.value))
  {}

  lemma SolidConcat(s: string, t: string)
    requires SolidEnds(s) && SolidEnd(t)
    ensures SolidEnds(s + t)
  {
    hide IsSpace;
    assert (s + t)[0] == s[0];
  }

  lemma SolidBrackets(dims: seq<string>)
    requires forall i | 0 <= i < |dims| :: AllDigits(dims[i])
    ensures SolidEnd(Brackets(dims))
  {
    FlatBrackets(dims);
    NoSpace();
  }

  lemma SolidPrinted(p: ParamType)
    requires Legible(p) && WellTyped(p)
    ensures SolidEnds(Format(p, Full))
  {
    FormatShape(p, Full);
    SolidStem(p);
    SolidBrackets(ReprintAll(Dims(p.typ)));
    PlainBase(p);
    SolidTail(p);
    hide Format, Stem, Tail, Brackets, Dims, Legible, WellTyped, SolidEnds, SolidEnd;
    SolidConcat(Stem(p, Full), Brackets(ReprintAll(Dims(p.typ))));
    SolidConcat(Stem(p, Full) + Brackets(ReprintAll(Dims(p.typ))), Tail(p, Full));
  }

  lemma NoSpace()
    ensures !IsSpace(']') && !IsSpace(')')
  {}

  lemma SolidTail(p: ParamType)
    requires p.name.Some? ==> Plain(p.name.value)
    ensures SolidEnd(Tail(p, Full))
  {
    if p.name.Some? {
      var name := p.name.value;
      assert PlainChar(name[|name| - 1]);
    }
  }

  lemma {:induction false} SolidJoin(texts: seq<string>)
    requires texts != [] && forall i | 0 <= i < |texts| :: SolidEnds(texts[i])
    ensures SolidEnds(Join(texts, ", "))
  {
    if |texts| > 1 {
      SolidJoin(texts[1..]);
    }
  }

  lemma SolidIsTrimmed(s: string)
    requires SolidEnds(s)
    ensures Trim(s) == s
  {}

  /** Splitting the joined list gives the printed parameters back. */
  lemma SplitPrinted(list: seq<ParamType>)
    requires list != [] && AllLegible(list) && forall i | 0 <= i < |list| :: WellTyped(list[i])
    ensures var texts := Formats(list, Full);
      Split(Join(texts, ", ")) == Some([texts[0]] + Lead(texts[1..]))
  {
    hide Format, Legible, WellTyped, Pieces, Trim, SolidEnds, Uncut;
    var texts := Formats(list, Full);
    var ps := [texts[0]] + Lead(texts[1..]);
    assert texts == [texts[0]] + texts[1..];
    JoinLead(texts[0], texts[1..]);
    forall i | 0 <= i < |list| ensures SolidEnds(texts[i]) && Walk(texts[i], 0) == Some(0) {
      SolidPrinted(list[i]);
      WalkPrinted(list[i], 0);
    }
    SolidJoin(texts);
    SolidIsTrimmed(Join(texts, ", "));
    UncutLead(texts);
    SplitExactly(Join(ps, ","), ps);
  }

  lemma UncutLead(texts: seq<string>)
    requires texts != [] && forall i | 0 <= i < |texts| :: Walk(texts[i], 0) == Some(0)
    ensures Uncut([texts[0]] + Lead(texts[1..]), 0)
  {
    var ps := [texts[0]] + Lead(texts[1..]);
    forall i | 1 <= i < |ps| ensures Walk(ps[i], 0) == Some(0) {
      assert ps[i] == " " + texts[i];
      WalkConcat(" ", texts[i], 0);
      assert Walk(" ", 0) == Walk("", 0);
    }
  }

  function RereadRoots(list: seq<ParamType>): (r: seq<ParamType>)
    ensures |r| == |list| && forall i | 0 <= i < |list| :: r[i] == Reread(list[i], false)
  {
    if |list| == 0 then [] else [Reread(list[0], false)] + RereadRoots(list[1..])
  }

  lemma {:induction false} ParseAllExactly(list: seq<ParamType>)
    requires AllLegible(list) && forall i | 0 <= i < |list| :: WellTyped(list[i])
    ensures ParseAll(Formats(list, Full), true) == Some(RereadRoots(list)) <==> AllFaithful(list)
    decreases |list|
  {
    hide Format, Legible, WellTyped, FromString, Faithful, Reread;
    if list != [] {
      assert Formats(list, Full)[1..] == Formats(list[1..], Full);
      PrintThenParseExactly(list[0]);
      ParseAllExactly(list[1..]);
      var first, rest := FromString(Format(list[0], Full), true), ParseAll(Formats(list[1..], Full), true);
      if first.Some? && rest.Some? {
        SameCons(first.value, rest.value, Reread(list[0], false), RereadRoots(list[1..]));
      }
    }
  }

  /** A parameter list survives printing and parsing exactly when each of its parameters does; the empty
      list is included. */
  lemma ParameterListsRoundTripExactly(list: seq<ParamType>)
    requires AllLegible(list) && forall i | 0 <= i < |list| :: WellTyped(list[i])
    ensures ParseParams(Join(Formats(list, Full), ", "), true) == Some(RereadRoots(list)) <==> AllFaithful(list)
  {
    hide Format, Legible, WellTyped, FromString, AllFaithful, AllLegible;
    ParseAllExactly(list);
    if list == [] {
      NothingParsed();
    } else {
      ListParsed(list);
    }
  }

  lemma NothingParsed()
    ensures ParseParams("", true) == Some([]) && ParseAll([], true) == Some([])
    ensures Join(Formats([], Full), ", ") == ""
  {
    assert Trim("") == "";
    assert Pieces("", "", 0) == Some([""]);
    assert Split("") == Some([]);
  }

  lemma ListParsed(list: seq<ParamType>)
    requires AllLegible(list) && list != [] && forall i | 0 <= i < |list| :: WellTyped(list[i])
    ensures ParseParams(Join(Formats(list, Full), ", "), true) == ParseAll(Formats(list, Full), true)
  {
    hide Format, Formats, Legible, WellTyped, FromString, AllLegible, Join, Trim, Pieces, Lead;
    var texts := Formats(list, Full);
    SplitPrinted(list);
    ParseLead(texts[1..], true);
    assert ([texts[0]] + Lead(texts[1..]))[1..] == Lead(texts[1..]);
  }
}
