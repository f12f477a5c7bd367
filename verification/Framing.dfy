/** Cutting a frame into candidate messages: four global replacements that insert a marker, then a split at
    the marker. For frames free of the marker all of that is one pass that cuts between `}` or `}]` and `{`
    or `[{`, and drops a line break in between. */
module Framing {
  import opened Texts

  /** One of the four replaced shapes: whether a batch ends and whether a batch starts. */
  datatype Shape = Shape(closes: bool, opens: bool)

  predicate LineBreak(c: char) { c == '\n' || c == '\r' }

  function BreakLength(s: string): nat { if |s| > 0 && LineBreak(s[0]) then 1 else 0 }

  function CloseText(closes: bool): string { if closes then "}]" else "}" }

  function OpenText(opens: bool): string { if opens then "[{" else "{" }

  predicate ClosesAt(s: string, closes: bool) {
    |s| > 0 && s[0] == '}' && (closes ==> |s| > 1 && s[1] == ']')
  }

  predicate OpensAt(s: string, opens: bool) {
    if opens then |s| > 1 && s[0] == '[' && s[1] == '{' else |s| > 0 && s[0] == '{'
  }

  function CloseLength(shape: Shape): nat { if shape.closes then 2 else 1 }

  function OpenLength(shape: Shape): nat { if shape.opens then 2 else 1 }

  /** Whether the shape stands at the start of the text, and how many line breaks are inside it. */
  predicate Matches(s: string, shape: Shape) {
    && ClosesAt(s, shape.closes)
    && OpensAt(s[CloseLength(shape)..][BreakLength(s[CloseLength(shape)..])..], shape.opens)
  }

  function Gap(s: string, shape: Shape): nat
    requires Matches(s, shape)
  {
    BreakLength(s[CloseLength(shape)..])
  }

  const MARK := "|--|"

  /** `replace(/…/g, …)` for one shape. */
  function ReplaceAll(s: string, shape: Shape): string
    decreases |s|
  {
    if |s| == 0 then ""
    else if Matches(s, shape) then
      CloseText(shape.closes) + MARK + OpenText(shape.opens)
        + ReplaceAll(s[CloseLength(shape) + Gap(s, shape) + OpenLength(shape)..], shape)
    else [s[0]] + ReplaceAll(s[1..], shape)
  }

  /** `split('|--|')` */
  function SplitMark(s: string): (parts: seq<string>)
    ensures parts != []
    decreases |s|
  {
    if |s| == 0 then [""]
    else if StartsWith(s, MARK) then [""] + SplitMark(s[4..])
    else
      var rest := SplitMark(s[1..]);
      [[s[0]] + rest[0]] + rest[1..]
  }

  const OBJECTS := Shape(false, false)
  const BATCHES := Shape(true, true)
  const OBJECT_THEN_BATCH := Shape(false, true)
  const BATCH_THEN_OBJECT := Shape(true, false)

  function Dechunk(data: string): seq<string> {
    SplitMark(ReplaceAll(ReplaceAll(ReplaceAll(ReplaceAll(data, OBJECTS), BATCHES), OBJECT_THEN_BATCH),
      BATCH_THEN_OBJECT))
  }

  // ---------- The same in one pass ----------

  predicate MatchesAny(s: string, shapes: seq<Shape>) { exists i | 0 <= i < |shapes| :: Matches(s, shapes[i]) }

  lemma ShapeIsUnique(s: string, a: Shape, b: Shape)
    requires Matches(s, a) && Matches(s, b)
    ensures a == b
  {}

  function TheShape(s: string, shapes: seq<Shape>): (shape: Shape)
    requires MatchesAny(s, shapes)
    ensures Matches(s, shape) && shape in shapes
  {
    if Matches(s, shapes[0]) then shapes[0]
    else
      assert MatchesAny(s, shapes[1..]) by {
        var i :| 0 <= i < |shapes| && Matches(s, shapes[i]);
        assert shapes[1..][i - 1] == shapes[i];
      }
      TheShape(s, shapes[1..])
  }

  function Prepend(c: char, parts: seq<string>): (r: seq<string>)
    requires parts != []
    ensures r != []
  {
    [[c] + parts[0]] + parts[1..]
  }

  /** The pieces between the places where one of the shapes matches. */
  function Cut(s: string, shapes: seq<Shape>): (parts: seq<string>)
    ensures parts != []
    decreases |s|
  {
    if |s| == 0 then [""]
    else if MatchesAny(s, shapes) then
      var shape := TheShape(s, shapes);
      [s[..CloseLength(shape)]] + Cut(s[CloseLength(shape) + Gap(s, shape)..], shapes)
    else Prepend(s[0], Cut(s[1..], shapes))
  }

  function CutEach(parts: seq<string>, shapes: seq<Shape>): seq<string> {
    if |parts| == 0 then [] else Cut(parts[0], shapes) + CutEach(parts[1..], shapes)
  }

  lemma CutAtMatch(s: string, shapes: seq<Shape>, shape: Shape)
    requires Matches(s, shape) && shape in shapes
    ensures Cut(s, shapes) == [s[..CloseLength(shape)]] + Cut(s[CloseLength(shape) + Gap(s, shape)..], shapes)
  {
    var i :| 0 <= i < |shapes| && shapes[i] == shape;
    assert Matches(s, shapes[i]);
    ShapeIsUnique(s, shape, TheShape(s, shapes));
  }

  lemma CutElsewhere(s: string, shapes: seq<Shape>)
    requires s != "" && s[0] != '}'
    ensures Cut(s, shapes) == Prepend(s[0], Cut(s[1..], shapes))
  {
    assert !MatchesAny(s, shapes);
  }

  /** The first piece is a prefix of the text. */
  lemma {:induction false} HeadIsPrefix(s: string, shapes: seq<Shape>)
    ensures Cut(s, shapes)[0] <= s
    decreases |s|
  {
    if s != "" && !MatchesAny(s, shapes) {
      HeadIsPrefix(s[1..], shapes);
      assert s == [s[0]] + s[1..];
    }
  }

  lemma MatchExtends(s: string, t: string, shape: Shape)
    requires Matches(s, shape) && s <= t
    ensures Matches(t, shape) && Gap(t, shape) == Gap(s, shape)
  {
    var k := CloseLength(shape);
    assert forall i | 0 <= i < |s| :: s[i] == t[i];
    var a, b := s[k..], t[k..];
    assert BreakLength(a) == BreakLength(b);
    var d := BreakLength(a);
    assert forall i | 0 <= i < |a[d..]| :: a[d..][i] == b[d..][i];
  }

  /** Text between brackets that starts with an opening keeps it in its first piece. */
  lemma HeadKeepsOpening(s: string, shapes: seq<Shape>, opens: bool)
    requires OpensAt(s, opens)
    ensures OpensAt(Cut(s, shapes)[0], opens)
  {
    CutElsewhere(s, shapes);
    if opens { CutElsewhere(s[1..], shapes); }
  }

  function PrependText(x: string, parts: seq<string>): (r: seq<string>)
    requires parts != []
    ensures r != []
  {
    [x + parts[0]] + parts[1..]
  }

  /** Where none of `shapes` matches, the characters up to the opening stay together. */
  lemma CutSkips(s: string, shapes: seq<Shape>, shape: Shape)
    requires Matches(s, shape) && !MatchesAny(s, shapes)
    ensures var n := CloseLength(shape) + Gap(s, shape);
      Cut(s, shapes) == PrependText(s[..n], Cut(s[n..], shapes))
  {
    var k, d := CloseLength(shape), Gap(s, shape);
    CutSkipsOne(s, shapes, 1);
    if k == 2 { CutSkipsOne(s, shapes, 2); }
    if d == 1 { CutSkipsOne(s, shapes, k + 1); }
  }

  /** One more character that starts no shape joins the first piece. */
  lemma CutSkipsOne(s: string, shapes: seq<Shape>, n: nat)
    requires 0 < n <= |s|
    requires n == 1 ==> !MatchesAny(s, shapes)
    requires n > 1 ==> s[n - 1] != '}' && Cut(s, shapes) == PrependText(s[..n - 1], Cut(s[n - 1..], shapes))
    ensures Cut(s, shapes) == PrependText(s[..n], Cut(s[n..], shapes))
  {
    hide Cut, Matches, MatchesAny, PrependText, Prepend;
    if n == 1 {
      CutStep(s, shapes);
      PrependOne(s[0], Cut(s[1..], shapes));
      assert s[..1] == [s[0]];
    } else {
      CutElsewhere(s[n - 1..], shapes);
      assert s[n - 1..][1..] == s[n..] && s[n - 1..][0] == s[n - 1];
      PrependTwice(s[..n - 1], s[n - 1], Cut(s[n..], shapes));
      assert s[..n - 1] + [s[n - 1]] == s[..n];
    }
  }

  lemma PrependOne(c: char, parts: seq<string>)
    requires parts != []
    ensures Prepend(c, parts) == PrependText([c], parts)
  {}

  lemma PrependTwice(x: string, c: char, parts: seq<string>)
    requires parts != []
    ensures PrependText(x, Prepend(c, parts)) == PrependText(x + [c], parts)
  {
    assert x + ([c] + parts[0]) == (x + [c]) + parts[0];
    assert Prepend(c, parts)[1..] == parts[1..];
  }

  lemma AnyOfMore(s: string, shapes: seq<Shape>, shape: Shape)
    ensures MatchesAny(s, shapes + [shape]) <==> MatchesAny(s, shapes) || Matches(s, shape)
  {
    var more := shapes + [shape];
    assert more[|shapes|] == shape;
    if MatchesAny(s, shapes) {
      var i :| 0 <= i < |shapes| && Matches(s, shapes[i]);
      assert Matches(s, more[i]);
    }
  }

  lemma CloseIsUncut(s: string, shape: Shape, q: Shape)
    requires Matches(s, shape)
    ensures Cut(s[..CloseLength(shape)], [q]) == [s[..CloseLength(shape)]]
  {
    var c := s[..CloseLength(shape)];
    assert !MatchesAny(c, [q]);
    if shape.closes {
      CutElsewhere(c[1..], [q]);
      assert c[1..][1..] == "";
      assert c == [c[0]] + ([c[1]] + "");
    } else {
      assert c[1..] == "";
      assert c == [c[0]] + "";
    }
  }

  /** Cutting every piece once more, by one more shape, is cutting by all of them at once. */
  lemma {:induction false} CutOnceMore(s: string, shapes: seq<Shape>, q: Shape)
    requires q !in shapes
    ensures CutEach(Cut(s, shapes), [q]) == Cut(s, shapes + [q])
    decreases |s|
  {
    hide Matches, Cut;
    AnyOfMore(s, shapes, q);
    if s == "" {
      NothingToCut(shapes, q);
    } else if MatchesAny(s, shapes) {
      CutOld(s, shapes, q);
    } else if Matches(s, q) {
      CutNew(s, shapes, q);
    } else {
      CutNeither(s, shapes, q);
    }
  }

  lemma NothingToCut(shapes: seq<Shape>, q: Shape)
    ensures CutEach(Cut("", shapes), [q]) == Cut("", shapes + [q])
  {}

  lemma CutOld(s: string, shapes: seq<Shape>, q: Shape)
    requires q !in shapes && s != "" && MatchesAny(s, shapes)
    ensures CutEach(Cut(s, shapes), [q]) == Cut(s, shapes + [q])
    decreases |s|, 0
  {
    hide Matches, Cut;
    var shape := TheShape(s, shapes);
    CloseIsUncut(s, shape, q);
    CutAtMatch(s, shapes, shape);
    CutAtMatch(s, shapes + [q], shape);
    Shorter(s, shape);
    var rest := s[CloseLength(shape) + Gap(s, shape)..];
    CutOnceMore(rest, shapes, q);
  }

  lemma Shorter(s: string, shape: Shape)
    requires Matches(s, shape)
    ensures 0 < CloseLength(shape) + Gap(s, shape) < |s|
    ensures OpensAt(s[CloseLength(shape) + Gap(s, shape)..], shape.opens)
    ensures s[CloseLength(shape)..][Gap(s, shape)..] == s[CloseLength(shape) + Gap(s, shape)..]
  {}

  lemma CutNew(s: string, shapes: seq<Shape>, q: Shape)
    requires q !in shapes && s != "" && !MatchesAny(s, shapes) && Matches(s, q)
    ensures CutEach(Cut(s, shapes), [q]) == Cut(s, shapes + [q])
    decreases |s|, 0
  {
    hide Matches, Cut;
    var n := CloseLength(q) + Gap(s, q);
    Shorter(s, q);
    CutSkips(s, shapes, q);
    var rest := Cut(s[n..], shapes);
    var head := s[..n] + rest[0];
    HeadKeepsOpening(s[n..], shapes, q.opens);
    StillMatches(s, head, q);
    assert head[n..] == rest[0] && head[..CloseLength(q)] == s[..CloseLength(q)];
    CutAtMatch(head, [q], q);
    CutAtMatch(s, shapes + [q], q);
    CutOnceMore(s[n..], shapes, q);
    assert Cut(s, shapes)[1..] == rest[1..];
  }

  lemma StillMatches(s: string, t: string, q: Shape)
    requires Matches(s, q)
    requires var n := CloseLength(q) + Gap(s, q); n <= |t| && t[..n] == s[..n] && OpensAt(t[n..], q.opens)
    ensures Matches(t, q) && Gap(t, q) == Gap(s, q)
  {
    var k, d := CloseLength(q), Gap(s, q);
    assert forall i | 0 <= i < k + d :: t[i] == t[..k + d][i] == s[i];
    assert t[k..][d..] == t[k + d..];
  }

  lemma CutNeither(s: string, shapes: seq<Shape>, q: Shape)
    requires q !in shapes && s != "" && !MatchesAny(s, shapes) && !Matches(s, q)
    ensures CutEach(Cut(s, shapes), [q]) == Cut(s, shapes + [q])
    decreases |s|, 0
  {
    AnyOfMore(s, shapes, q);
    HeadDoesNotMatch(s, shapes, q);
    CutStep(s, shapes);
    CutStep(s, shapes + [q]);
    var rest := Cut(s[1..], shapes);
    var head := [s[0]] + rest[0];
    assert head[1..] == rest[0];
    CutStep(head, [q]);
    hide Cut, Matches, MatchesAny, CutEach;
    CutOnceMore(s[1..], shapes, q);
    assert Cut(s, shapes)[1..] == rest[1..];
    PrependFirst(s[0], Cut(rest[0], [q]), CutEach(rest[1..], [q]));
  }

  lemma PrependFirst(c: char, a: seq<string>, b: seq<string>)
    requires a != []
    ensures Prepend(c, a) + b == Prepend(c, a + b)
  {
    assert (a + b)[1..] == a[1..] + b;
  }

  lemma CutStep(s: string, shapes: seq<Shape>)
    requires s != "" && !MatchesAny(s, shapes)
    ensures Cut(s, shapes) == Prepend(s[0], Cut(s[1..], shapes))
  {}

  /** A prefix of the text matches no more than the text does. */
  lemma HeadDoesNotMatch(s: string, shapes: seq<Shape>, q: Shape)
    requires s != "" && !Matches(s, q)
    ensures !MatchesAny([s[0]] + Cut(s[1..], shapes)[0], [q])
  {
    hide Cut, Matches;
    var head := [s[0]] + Cut(s[1..], shapes)[0];
    HeadIsPrefix(s[1..], shapes);
    assert s == [s[0]] + s[1..];
    if Matches(head, q) { MatchExtends(head, s, q); }
  }

  // ---------- Replacing and splitting is cutting ----------

  /** An opening contains no place to cut. */
  lemma OpeningStays(s: string, q: Shape, opens: bool)
    requires OpensAt(s, opens)
    ensures var k := if opens then 2 else 1; ReplaceAll(s, q) == s[..k] + ReplaceAll(s[k..], q)
  {
    assert s[..1] == [s[0]];
    if opens {
      assert s[1..][1..] == s[2..] && s[..2] == [s[0]] + [s[1]];
      assert ReplaceAll(s[1..], q) == [s[1]] + ReplaceAll(s[2..], q);
    }
  }

  lemma {:induction false} ReplaceJoinsCut(s: string, q: Shape)
    ensures ReplaceAll(s, q) == Join(Cut(s, [q]), MARK)
    decreases |s|
  {
    if s == "" {
    } else if Matches(s, q) {
      ReplaceAtMatch(s, q);
      Shorter(s, q);
      CutAtMatch(s, [q], q);
      hide Matches, Cut, ReplaceAll;
      var rest := s[CloseLength(q) + Gap(s, q)..];
      ReplaceJoinsCut(rest, q);
      var parts := Cut(rest, [q]);
      assert ([s[..CloseLength(q)]] + parts)[1..] == parts;
    } else {
      assert !MatchesAny(s, [q]);
      CutStep(s, [q]);
      hide Matches, Cut;
      ReplaceJoinsCut(s[1..], q);
      JoinPrepend(s[0], Cut(s[1..], [q]));
    }
  }

  lemma JoinPrepend(c: char, parts: seq<string>)
    requires parts != []
    ensures Join(Prepend(c, parts), MARK) == [c] + Join(parts, MARK)
  {
    assert Prepend(c, parts)[1..] == parts[1..];
  }

  lemma ReplaceAtMatch(s: string, q: Shape)
    requires Matches(s, q)
    ensures ReplaceAll(s, q) == s[..CloseLength(q)] + MARK + ReplaceAll(s[CloseLength(q) + Gap(s, q)..], q)
  {
    var n := CloseLength(q) + Gap(s, q);
    Shorter(s, q);
    OpeningStays(s[n..], q, q.opens);
    assert s[n..][OpenLength(q)..] == s[n + OpenLength(q)..];
    assert s[n..][..OpenLength(q)] == OpenText(q.opens);
    assert s[..CloseLength(q)] == CloseText(q.closes);
    var tail := ReplaceAll(s[n + OpenLength(q)..], q);
    assert CloseText(q.closes) + MARK + OpenText(q.opens) + tail == CloseText(q.closes) + MARK
      + (OpenText(q.opens) + tail);
  }

  /** No shape reaches into or across a marker. */
  lemma MatchStopsAtMark(a: string, b: string, q: Shape)
    requires a != ""
    ensures Matches(a + (MARK + b), q) <==> Matches(a, q)
    ensures Matches(a, q) ==> Gap(a + (MARK + b), q) == Gap(a, q)
  {
    var t := a + (MARK + b);
    if Matches(a, q) {
      MatchExtends(a, t, q);
    } else if Matches(t, q) {
      MatchedText(t, q);
      assert t[|a|] == '|';
      StillMatches(t, a, q);
    }
  }

  lemma MatchedText(s: string, q: Shape)
    requires Matches(s, q)
    ensures var n := CloseLength(q) + Gap(s, q);
      n + OpenLength(q) <= |s| && forall i | 0 <= i < n + OpenLength(q) :: s[i] != '|'
  {
    var k, d := CloseLength(q), Gap(s, q);
    assert s[k..][d..] == s[k + d..];
  }

  lemma {:induction false} ReplaceAcrossMark(a: string, b: string, q: Shape)
    ensures ReplaceAll(a + (MARK + b), q) == ReplaceAll(a, q) + (MARK + ReplaceAll(b, q))
    decreases |a|
  {
    hide Matches, ReplaceAll;
    var t := a + (MARK + b);
    if a == "" {
      MarkStays(b, q);
      NothingReplaced(q);
      assert t == MARK + b;
      assert "" + (MARK + ReplaceAll(b, q)) == MARK + ReplaceAll(b, q);
    } else {
      MatchStopsAtMark(a, b, q);
      if Matches(a, q) {
        Shorter(a, q);
        ReplaceAtMatch(a, q);
        ReplaceAtMatch(t, q);
        var n := CloseLength(q) + Gap(a, q);
        assert t[n..] == a[n..] + (MARK + b);
        ReplaceAcrossMark(a[n..], b, q);
        assert t[..CloseLength(q)] == a[..CloseLength(q)];
      } else {
        assert t[0] == a[0] && t[1..] == a[1..] + (MARK + b);
        ReplaceUnmatched(a, q);
        ReplaceUnmatched(t, q);
        ReplaceAcrossMark(a[1..], b, q);
      }
    }
  }

  lemma NothingReplaced(q: Shape)
    ensures ReplaceAll("", q) == ""
  {}

  lemma ReplaceUnmatched(s: string, q: Shape)
    requires s != "" && !Matches(s, q)
    ensures ReplaceAll(s, q) == [s[0]] + ReplaceAll(s[1..], q)
  {}

  lemma ReplaceStep(s: string, q: Shape)
    requires s != "" && s[0] != '}'
    ensures ReplaceAll(s, q) == [s[0]] + ReplaceAll(s[1..], q)
  {}

  lemma MarkStays(b: string, q: Shape)
    ensures ReplaceAll(MARK + b, q) == MARK + ReplaceAll(b, q)
  {
    var t := MARK + b;
    assert t[1..] == "--|" + b && t[1..][1..] == "-|" + b && t[1..][1..][1..] == "|" + b && t[1..][1..][1..][1..] == b;
    ReplaceStep(t, q);
    ReplaceStep(t[1..], q);
    ReplaceStep(t[1..][1..], q);
    ReplaceStep(t[1..][1..][1..], q);
    var tail := ReplaceAll(b, q);
    assert MARK + tail == ['|'] + (['-'] + (['-'] + (['|'] + tail)));
  }

  lemma {:induction false} ReplaceEach(parts: seq<string>, q: Shape)
    requires parts != []
    ensures CutEach(parts, [q]) != []
    ensures ReplaceAll(Join(parts, MARK), q) == Join(CutEach(parts, [q]), MARK)
    decreases |parts|
  {
    hide ReplaceAll, Cut;
    ReplaceJoinsCut(parts[0], q);
    if |parts| == 1 {
      assert CutEach(parts, [q]) == Cut(parts[0], [q]);
    } else {
      ReplaceEach(parts[1..], q);
      ReplaceAcrossMark(parts[0], Join(parts[1..], MARK), q);
      JoinAtHead(parts, MARK, "");
      assert Join(parts, MARK) == parts[0] + (MARK + Join(parts[1..], MARK));
      JoinTwo(Cut(parts[0], [q]), CutEach(parts[1..], [q]));
    }
  }

  lemma {:induction false} JoinTwo(a: seq<string>, b: seq<string>)
    requires a != [] && b != []
    ensures Join(a + b, MARK) == Join(a, MARK) + (MARK + Join(b, MARK))
    decreases |a|
  {
    assert (a + b)[0] == a[0] && (a + b)[1..] == a[1..] + b;
    if |a| == 1 {
      assert a[1..] + b == b;
    } else {
      JoinTwo(a[1..], b);
    }
  }

  const ALL := [OBJECTS, BATCHES, OBJECT_THEN_BATCH, BATCH_THEN_OBJECT]

  lemma CutByNone(s: string)
    ensures Cut(s, []) == [s]
    decreases |s|
  {
    if s != "" {
      CutByNone(s[1..]);
      assert s == [s[0]] + s[1..];
    }
  }

  lemma OneMoreReplacement(s: string, text: string, shapes: seq<Shape>, q: Shape)
    requires q !in shapes && text == Join(Cut(s, shapes), MARK)
    ensures ReplaceAll(text, q) == Join(Cut(s, shapes + [q]), MARK)
  {
    hide ReplaceAll, Cut, Join;
    ReplaceEach(Cut(s, shapes), q);
    CutOnceMore(s, shapes, q);
  }

  /** Four replacements one after the other cut where any of the four shapes stands. */
  lemma FourReplacements(s: string)
    ensures ReplaceAll(ReplaceAll(ReplaceAll(ReplaceAll(s, OBJECTS), BATCHES), OBJECT_THEN_BATCH), BATCH_THEN_OBJECT)
         == Join(Cut(s, ALL), MARK)
  {
    CutByNone(s);
    hide ReplaceAll, Cut;
    var a := ReplaceAll(s, OBJECTS);
    var b := ReplaceAll(a, BATCHES);
    var c := ReplaceAll(b, OBJECT_THEN_BATCH);
    OneMoreReplacement(s, s, [], OBJECTS);
    assert [] + [OBJECTS] == [OBJECTS];
    OneMoreReplacement(s, a, [OBJECTS], BATCHES);
    assert [OBJECTS] + [BATCHES] == [OBJECTS, BATCHES];
    OneMoreReplacement(s, b, [OBJECTS, BATCHES], OBJECT_THEN_BATCH);
    assert [OBJECTS, BATCHES] + [OBJECT_THEN_BATCH] == [OBJECTS, BATCHES, OBJECT_THEN_BATCH];
    OneMoreReplacement(s, c, [OBJECTS, BATCHES, OBJECT_THEN_BATCH], BATCH_THEN_OBJECT);
    assert [OBJECTS, BATCHES, OBJECT_THEN_BATCH] + [BATCH_THEN_OBJECT] == ALL;
  }

  /** The text nowhere contains the marker. */
  predicate Unmarked(s: string) {
    forall i | 0 <= i <= |s| :: !StartsWith(s[i..], MARK)
  }

  predicate EndsInBracket(s: string) { s != "" && s[|s| - 1] in "}]" }

  lemma UnmarkedTail(s: string, n: nat)
    requires Unmarked(s) && n <= |s|
    ensures Unmarked(s[n..])
  {
    forall i | 0 <= i <= |s[n..]| ensures !StartsWith(s[n..][i..], MARK) {
      assert s[n..][i..] == s[n + i..];
    }
  }

  lemma PrefixStarts(p: string, s: string)
    requires p <= s && !StartsWith(s, MARK)
    ensures !StartsWith(p, MARK)
  {}

  lemma UnmarkedPrefix(s: string, p: string)
    requires Unmarked(s) && p <= s
    ensures Unmarked(p)
  {
    forall i | 0 <= i <= |p| ensures !StartsWith(p[i..], MARK) {
      assert !StartsWith(s[i..], MARK);
      PrefixStarts(p[i..], s[i..]);
    }
  }

  predicate AllUnmarked(ps: seq<string>) { forall i | 0 <= i < |ps| :: Unmarked(ps[i]) }

  predicate InnerEndInBrackets(ps: seq<string>) { forall i | 0 <= i < |ps| - 1 :: EndsInBracket(ps[i]) }

  lemma ConsPieces(p: string, ps: seq<string>)
    requires ps != [] && Unmarked(p) && AllUnmarked(ps) && InnerEndInBrackets(ps) && EndsInBracket(p)
    ensures AllUnmarked([p] + ps) && InnerEndInBrackets([p] + ps)
  {
    hide Unmarked;
  }

  lemma PrependPieces(c: char, ps: seq<string>)
    requires ps != [] && AllUnmarked(ps) && InnerEndInBrackets(ps) && Unmarked([c] + ps[0])
    ensures AllUnmarked(Prepend(c, ps)) && InnerEndInBrackets(Prepend(c, ps))
  {
    hide Unmarked;
    assert |ps| > 1 ==> EndsInBracket(ps[0]);
  }

  lemma {:induction false} PiecesAreUnmarked(s: string, shapes: seq<Shape>)
    requires Unmarked(s)
    ensures AllUnmarked(Cut(s, shapes)) && InnerEndInBrackets(Cut(s, shapes))
    decreases |s|
  {
    hide Unmarked, Matches, AllUnmarked, InnerEndInBrackets;
    HeadIsPrefix(s, shapes);
    UnmarkedPrefix(s, Cut(s, shapes)[0]);
    if s == "" {
      NoPieces(s);
    } else if MatchesAny(s, shapes) {
      var shape := TheShape(s, shapes);
      var n := CloseLength(shape) + Gap(s, shape);
      Shorter(s, shape);
      UnmarkedTail(s, n);
      PiecesAreUnmarked(s[n..], shapes);
      CloseEnds(s, shape);
      ConsPieces(s[..CloseLength(shape)], Cut(s[n..], shapes));
    } else {
      UnmarkedTail(s, 1);
      PiecesAreUnmarked(s[1..], shapes);
      PrependPieces(s[0], Cut(s[1..], shapes));
    }
  }

  lemma NoPieces(s: string)
    requires Unmarked(s)
    ensures AllUnmarked([s]) && InnerEndInBrackets([s])
  {}

  lemma CloseEnds(s: string, shape: Shape)
    requires Matches(s, shape)
    ensures EndsInBracket(s[..CloseLength(shape)])
  {}

  lemma {:induction false} SplitUnmarked(s: string)
    requires Unmarked(s)
    ensures SplitMark(s) == [s]
    decreases |s|
  {
    if s != "" {
      assert s[0..] == s;
      UnmarkedTail(s, 1);
      SplitUnmarked(s[1..]);
      assert s == [s[0]] + s[1..];
    }
  }

  /** Followed by the marker, `p` contains no earlier one, not even one that overlaps it. */
  predicate Lone(p: string) { forall i | 0 <= i < |p| :: !StartsWith(p[i..] + MARK, MARK) }

  lemma NoMarkYet(p: string, rest: string)
    requires p != "" && Lone(p)
    ensures !StartsWith(p + (MARK + rest), MARK)
  {
    assert p[0..] == p;
    assert (p + (MARK + rest))[..4] == (p + MARK)[..4];
  }

  lemma LoneTail(p: string, n: nat)
    requires Lone(p) && n <= |p|
    ensures Lone(p[n..])
  {
    forall i | 0 <= i < |p[n..]| ensures !StartsWith(p[n..][i..] + MARK, MARK) {
      assert p[n..][i..] == p[n + i..];
    }
  }

  lemma LoneIsUnmarked(p: string)
    requires Lone(p)
    ensures Unmarked(p)
  {
    forall i | 0 <= i <= |p| ensures !StartsWith(p[i..], MARK) {
      if i < |p| { PrefixStarts(p[i..], p[i..] + MARK); }
    }
  }

  lemma {:induction false} SplitAtMark(p: string, rest: string)
    requires Lone(p)
    ensures SplitMark(p + (MARK + rest)) == [p] + SplitMark(rest)
    decreases |p|
  {
    hide Lone;
    var t := p + (MARK + rest);
    if p == "" {
      assert t == MARK + rest && t[4..] == rest && t[..4] == MARK;
    } else {
      NoMarkYet(p, rest);
      LoneTail(p, 1);
      assert t[0] == p[0] && t[1..] == p[1..] + (MARK + rest);
      SplitAtMark(p[1..], rest);
      assert p == [p[0]] + p[1..];
    }
  }

  lemma BracketIsLone(p: string)
    requires Unmarked(p) && EndsInBracket(p)
    ensures Lone(p)
  {
    forall i | 0 <= i < |p| ensures !StartsWith(p[i..] + MARK, MARK) {
      var t := p[i..] + MARK;
      assert !StartsWith(p[i..], MARK);
      if |p| - i >= 4 {
        assert t[..4] == p[i..][..4];
      } else {
        assert t[..4][|p| - i - 1] == p[|p| - 1];
        assert MARK[|p| - i - 1] in "|-";
      }
    }
  }

  lemma {:induction false} SplitJoined(ps: seq<string>)
    requires ps != []
    requires AllUnmarked(ps) && InnerEndInBrackets(ps)
    ensures SplitMark(Join(ps, MARK)) == ps
    decreases |ps|
  {
    hide Unmarked, EndsInBracket, SplitMark;
    if |ps| == 1 {
      SplitUnmarked(ps[0]);
    } else {
      SplitJoined(ps[1..]);
      BracketIsLone(ps[0]);
      SplitAtMark(ps[0], Join(ps[1..], MARK));
      JoinAtHead(ps, MARK, "");
      assert Join(ps, MARK) == ps[0] + (MARK + Join(ps[1..], MARK));
    }
  }

  lemma CutEmpty(shapes: seq<Shape>)
    ensures Cut("", shapes) == [""]
  {}

  /** The last piece ends where the text ends. */
  lemma {:induction false} LastPieceIsTail(s: string, shapes: seq<Shape>) returns (n: nat)
    ensures n <= |s| && Cut(s, shapes)[|Cut(s, shapes)| - 1] == s[n..]
    ensures |Cut(s, shapes)| == 1 ==> n == 0
    decreases |s|
  {
    hide Matches, MatchesAny, Cut;
    n := 0;
    if s == "" {
      CutEmpty(shapes);
    } else if MatchesAny(s, shapes) {
      var shape := TheShape(s, shapes);
      var k := CloseLength(shape) + Gap(s, shape);
      Shorter(s, shape);
      CutAtMatch(s, shapes, shape);
      n := LastPieceIsTail(s[k..], shapes);
      assert s[k..][n..] == s[k + n..];
      n := k + n;
    } else {
      n := LastPieceIsTail(s[1..], shapes);
      CutStep(s, shapes);
      if |Cut(s[1..], shapes)| == 1 {
        assert s[1..][0..] == s[1..] && s == [s[0]] + s[1..] && s[0..] == s;
      } else {
        assert s[1..][n..] == s[n + 1..];
        n := n + 1;
      }
    }
  }

  /** On text without the marker, replacing four times and splitting is cutting once. */
  lemma DechunkIsCut(s: string)
    requires Unmarked(s)
    ensures Dechunk(s) == Cut(s, ALL)
  {
    hide ReplaceAll, Cut, SplitMark, Unmarked;
    FourReplacements(s);
    PiecesAreUnmarked(s, ALL);
    SplitJoined(Cut(s, ALL));
  }

  // ---------- Text that contains the marker ----------

  lemma {:induction false} SplitJoinedAtMark(ps: seq<string>, rest: string)
    requires ps != [] && forall i | 0 <= i < |ps| :: Lone(ps[i])
    ensures SplitMark(Join(ps, MARK) + (MARK + rest)) == ps + SplitMark(rest)
    decreases |ps|
  {
    hide Lone, SplitMark;
    if |ps| == 1 {
      SplitAtMark(ps[0], rest);
      assert Join(ps, MARK) == ps[0] && ps == [ps[0]];
    } else {
      SplitJoinedAtMark(ps[1..], rest);
      SplitAtMark(ps[0], Join(ps[1..], MARK) + (MARK + rest));
      JoinAtHead(ps, MARK, MARK + rest);
      assert ps == [ps[0]] + ps[1..];
    }
  }

  lemma PiecesAreLone(s: string)
    requires Lone(s)
    ensures forall i | 0 <= i < |Cut(s, ALL)| :: Lone(Cut(s, ALL)[i])
  {
    hide Lone, Unmarked, EndsInBracket, Cut;
    var ps := Cut(s, ALL);
    LoneIsUnmarked(s);
    PiecesAreUnmarked(s, ALL);
    var n := LastPieceIsTail(s, ALL);
    LoneTail(s, n);
    forall i | 0 <= i < |ps| ensures Lone(ps[i]) {
      if i < |ps| - 1 { BracketIsLone(ps[i]); }
    }
  }

  /** A marker in the data itself is a place to split, too, and nothing is matched across it. */
  lemma DechunkAtMark(a: string, b: string)
    requires Lone(a)
    ensures Dechunk(a + (MARK + b)) == Cut(a, ALL) + Dechunk(b)
  {
    hide ReplaceAll, Cut, SplitMark, Lone, Join;
    var a1, b1 := ReplaceAll(a, OBJECTS), ReplaceAll(b, OBJECTS);
    var a2, b2 := ReplaceAll(a1, BATCHES), ReplaceAll(b1, BATCHES);
    var a3, b3 := ReplaceAll(a2, OBJECT_THEN_BATCH), ReplaceAll(b2, OBJECT_THEN_BATCH);
    ReplaceAcrossMark(a, b, OBJECTS);
    ReplaceAcrossMark(a1, b1, BATCHES);
    ReplaceAcrossMark(a2, b2, OBJECT_THEN_BATCH);
    ReplaceAcrossMark(a3, b3, BATCH_THEN_OBJECT);
    FourReplacements(a);
    PiecesAreLone(a);
    SplitJoinedAtMark(Cut(a, ALL), ReplaceAll(b3, BATCH_THEN_OBJECT));
  }

  /** Where the marker first stands; the length of the text if it does not. */
  function MarkAt(s: string): (n: nat)
    ensures n == |s| || n + 4 <= |s|
  {
    if |s| == 0 || StartsWith(s, MARK) then 0 else 1 + MarkAt(s[1..])
  }

  lemma UnmarkedCons(s: string)
    requires s != "" && !StartsWith(s, MARK) && Unmarked(s[1..])
    ensures Unmarked(s)
  {
    forall i | 0 <= i <= |s| ensures !StartsWith(s[i..], MARK) {
      if i > 0 { assert s[i..] == s[1..][i - 1..]; } else { assert s[0..] == s; }
    }
  }

  lemma LoneCons(s: string, n: nat)
    requires 0 < n <= |s| && !StartsWith(s, MARK) && s[..n] + MARK <= s && Lone(s[1..][..n - 1])
    ensures Lone(s[..n])
  {
    var p, q := s[..n], s[1..][..n - 1];
    forall i | 0 <= i < |p| ensures !StartsWith(p[i..] + MARK, MARK) {
      if i > 0 { assert p[i..] == q[i - 1..]; } else { PrefixStarts(p + MARK, s); assert p[0..] == p; }
    }
  }

  lemma MarkBehind(s: string, n: nat)
    requires 0 < n && n + 4 <= |s| && s[1..] == s[1..][..n - 1] + (MARK + s[1..][n + 3..])
    ensures s == s[..n] + (MARK + s[n + 4..])
  {
    assert s == [s[0]] + s[1..] && s[..n] == [s[0]] + s[1..][..n - 1] && s[1..][n + 3..] == s[n + 4..];
  }

  lemma {:induction false} FirstMark(s: string)
    ensures var n := MarkAt(s);
      && (n == |s| ==> Unmarked(s))
      && (n < |s| ==> n + 4 <= |s| && s == s[..n] + (MARK + s[n + 4..]) && Lone(s[..n]))
    decreases |s|
  {
    hide Unmarked, Lone;
    if s == "" {
      NothingIsUnmarked();
    } else if StartsWith(s, MARK) {
      assert s == s[..4] + s[4..] && s[..0] == "";
      NothingIsLone();
    } else {
      FirstMark(s[1..]);
      var n := MarkAt(s);
      if n == |s| {
        UnmarkedCons(s);
      } else {
        MarkBehind(s, n);
        assert s[..n] + MARK <= s;
        LoneCons(s, n);
      }
    }
  }

  lemma NothingIsUnmarked()
    ensures Unmarked("")
  {}

  lemma NothingIsLone()
    ensures Lone("")
  {}

  /** For any data: split at the markers it contains, then cut every segment between brackets. */
  lemma {:induction false} DechunkIsCutEach(s: string)
    ensures Dechunk(s) == CutEach(SplitMark(s), ALL)
    decreases |s|
  {
    hide Dechunk, Cut, Lone, SplitMark, Unmarked;
    var n := MarkAt(s);
    FirstMark(s);
    if n == |s| {
      DechunkIsCut(s);
      SplitUnmarked(s);
      assert [s][1..] == [] && CutEach([s], ALL) == Cut(s, ALL) + CutEach([], ALL);
    } else {
      var a, b := s[..n], s[n + 4..];
      DechunkAtMark(a, b);
      SplitAtMark(a, b);
      DechunkIsCutEach(b);
      assert ([a] + SplitMark(b))[1..] == SplitMark(b);
    }
  }
}
