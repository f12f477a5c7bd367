/** Streams whose data contains the marker that frames are split at: what still comes out. */
module ChunkMarkers {
  import opened Texts
  import opened Framing
  import opened ChunkStreams
  import opened ChunkDelivery
  import opened ChunkRuns

  // ---------- A marked frame is several frames ----------

  /** The frames, each split at the markers it contains. */
  function Segments(frames: seq<string>): seq<string> {
    if |frames| == 0 then [] else SplitMark(frames[0]) + Segments(frames[1..])
  }

  lemma {:induction false} SegmentsUnmarked(s: string)
    ensures Unmarkeds(SplitMark(s))
    decreases |s|
  {
    hide Unmarked, Lone, SplitMark;
    FirstMark(s);
    var n := MarkAt(s);
    if n == |s| {
      SplitUnmarked(s);
    } else {
      SplitAtMark(s[..n], s[n + 4..]);
      LoneIsUnmarked(s[..n]);
      SegmentsUnmarked(s[n + 4..]);
    }
  }

  lemma {:induction false} AllSegmentsUnmarked(frames: seq<string>)
    ensures Unmarkeds(Segments(frames))
  {
    hide Unmarked;
    if frames != [] {
      SegmentsUnmarked(frames[0]);
      AllSegmentsUnmarked(frames[1..]);
    }
  }

  lemma {:induction false} TakeFramesConcat<J>(parse: string -> Parsed<J>, s: State<J>, a: seq<string>, b: seq<string>)
    ensures TakeFrames(parse, s, a + b) == TakeFrames(parse, TakeFrames(parse, s, a), b)
    decreases |a|
  {
    hide TakeAll, Dechunk;
    if a == [] {
      assert a + b == b;
    } else {
      assert (a + b)[0] == a[0] && (a + b)[1..] == a[1..] + b;
      TakeFramesConcat(parse, TakeAll(parse, s, Dechunk(a[0])), a[1..], b);
    }
  }

  lemma {:induction false} TakeUnmarkeds<J>(parse: string -> Parsed<J>, s: State<J>, parts: seq<string>)
    requires Unmarkeds(parts)
    ensures TakeFrames(parse, s, parts) == TakeAll(parse, s, CutEach(parts, ALL))
    decreases |parts|
  {
    hide TakeAll, Dechunk, Cut, Unmarkeds;
    if parts == [] {
      TakeNothing(parse, s);
    } else {
      UnmarkedsHead(parts);
      DechunkIsCut(parts[0]);
      TakeAllConcat(parse, s, Cut(parts[0], ALL), CutEach(parts[1..], ALL));
      TakeUnmarkeds(parse, TakeAll(parse, s, Cut(parts[0], ALL)), parts[1..]);
    }
  }

  /** For any data whatever: a frame that contains markers is received as its segments would be, each in a
      frame of its own. */
  lemma {:induction false} MarkedIsSegmented<J>(parse: string -> Parsed<J>, s: State<J>, frames: seq<string>)
    ensures TakeFrames(parse, s, frames) == TakeFrames(parse, s, Segments(frames))
    decreases |frames|
  {
    hide TakeAll, Dechunk, Cut, SplitMark;
    if frames != [] {
      var f := frames[0];
      DechunkIsCutEach(f);
      SegmentsUnmarked(f);
      TakeUnmarkeds(parse, s, SplitMark(f));
      TakeFramesConcat(parse, s, SplitMark(f), Segments(frames[1..]));
      MarkedIsSegmented(parse, TakeAll(parse, s, Dechunk(f)), frames[1..]);
    }
  }

  // ---------- Markers inside messages ----------

  predicate InString(s: Scan) { s.Inside? && s.quoted && !s.escaped }

  predicate Between(s: Scan) { s.Inside? ==> !s.quoted && !s.escaped }

  /** JSON has a `|` only inside strings and never behind a backslash, and no unescaped line break inside a
      string: sections 2 and 7 of RFC 8259. */
  ghost predicate Strict(text: string) {
    && (forall k | 0 <= k < |text| && text[k] == '|' :: InString(ScanAll(Blank, text[..k])))
    && (forall k | 0 <= k < |text| && LineBreak(text[k]) :: Between(ScanAll(Blank, text[..k])))
  }

  ghost predicate AllStrict(items: seq<Item>) { forall i | 0 <= i < |items| :: Strict(items[i].text) }

  /** A fact of every JSON parser: what a string contains does not decide whether an object parses. */
  ghost predicate AnyString<J(!new)>(parse: string -> Parsed<J>) {
    forall a, b | InString(ScanAll(Blank, a)) && parse(a + (MARK + b)).Got? :: parse(a + b).Got?
  }

  lemma MarkKeepsState(s: Scan)
    requires InString(s)
    ensures ScanAll(s, MARK) == s
  {
    assert MARK[1..] == "--|" && "--|"[1..] == "-|" && "-|"[1..] == "|" && "|"[1..] == "";
    assert ScanAll(s, "|") == s;
    assert ScanAll(s, "-|") == s;
    assert ScanAll(s, "--|") == s;
  }

  /** Reading on behind a marker is reading on without it. */
  lemma StateWithout(a: string, b: string)
    requires InString(ScanAll(Blank, a))
    ensures ScanAll(Blank, a + (MARK + b)) == ScanAll(Blank, a + b)
  {
    hide ScanAll;
    ScanConcat(Blank, a, MARK + b);
    ScanConcat(Blank, a, b);
    ScanConcat(ScanAll(Blank, a), MARK, b);
    MarkKeepsState(ScanAll(Blank, a));
  }

  /** The lexical parser of the model has that fact, too. */
  lemma LexicalParserHasAnyString()
    ensures AnyString(LexicalParse)
  {
    hide ScanAll;
    forall a: string, b: string | InString(ScanAll(Blank, a))
      ensures ScanAll(Blank, a + (MARK + b)) == ScanAll(Blank, a + b) {
      StateWithout(a, b);
    }
  }

  // ---------- One marker less in one message ----------

  lemma NoStringYet(a: string)
    requires |a| <= 1
    ensures !InString(ScanAll(Blank, a))
  {
    assert a != "" ==> a[1..] == "";
  }

  lemma StringAtMarker(t: string, a: string, b: string)
    requires Strict(t) && t == a + (MARK + b)
    ensures InString(ScanAll(Blank, a)) && |a| >= 2
  {
    hide ScanAll;
    assert t[|a|] == '|' && t[..|a|] == a;
    if |a| <= 1 { NoStringYet(a); }
  }

  /** One character cannot both end a string and close what is around it. */
  lemma NotClosedByOne(a: string, b: string)
    requires InString(ScanAll(Blank, a)) && |b| <= 1
    ensures !ScanAll(Blank, a + (MARK + b)).Complete?
  {
    StateWithout(a, b);
    ScanConcat(Blank, a, b);
    assert b != "" ==> b[1..] == "";
  }

  lemma IsComplete(m: Item)
    requires WellFormed(m)
    ensures ScanAll(Blank, m.text).Complete?
  {
    hide ScanAll, Tight;
  }

  /** Where the marker can stand in a message. */
  lemma AroundMarker(m: Item, a: string, b: string)
    requires WellFormed(m) && Strict(m.text) && m.text == a + (MARK + b)
    ensures InString(ScanAll(Blank, a)) && |a| >= 2 && |b| >= 2
  {
    hide ScanAll, WellFormed, Strict, InString;
    StringAtMarker(m.text, a, b);
    IsComplete(m);
    if |b| <= 1 { NotClosedByOne(a, b); }
  }

  lemma PrefixState(a: string, b: string, k: nat)
    requires InString(ScanAll(Blank, a)) && k <= |a + b|
    ensures ScanAll(Blank, (a + b)[..k]) == ScanAll(Blank, (a + (MARK + b))[..if k < |a| then k else k + 4])
  {
    hide ScanAll;
    if k < |a| {
      assert (a + b)[..k] == (a + (MARK + b))[..k];
    } else {
      assert (a + b)[..k] == a + b[..k - |a|];
      assert (a + (MARK + b))[..k + 4] == a + (MARK + b[..k - |a|]);
      StateWithout(a, b[..k - |a|]);
    }
  }

  lemma StrictWithout(a: string, b: string)
    requires InString(ScanAll(Blank, a)) && Strict(a + (MARK + b))
    ensures Strict(a + b)
  {
    hide ScanAll;
    forall k | 0 <= k < |a + b|
      ensures ScanAll(Blank, (a + b)[..k]) == ScanAll(Blank, (a + (MARK + b))[..if k < |a| then k else k + 4]) {
      PrefixState(a, b, k);
    }
    assert forall k | 0 <= k < |a + b| :: (a + b)[k] == (a + (MARK + b))[if k < |a| then k else k + 4];
  }

  lemma InsideWithout(a: string, b: string)
    requires InString(ScanAll(Blank, a))
    requires var t := a + (MARK + b);
      (forall k | 0 < k < |t| :: ScanAll(Blank, t[..k]).Inside?) && ScanAll(Blank, t).Complete?
    ensures var u := a + b; (forall k | 0 < k < |u| :: ScanAll(Blank, u[..k]).Inside?) && ScanAll(Blank, u).Complete?
  {
    hide ScanAll;
    StateWithout(a, b);
    forall k | 0 < k < |a + b| ensures ScanAll(Blank, (a + b)[..k]).Inside? { PrefixState(a, b, k); }
  }

  lemma ScanSnoc(u: string, p: nat)
    requires p < |u|
    ensures ScanAll(Blank, u[..p + 1]) == Next(ScanAll(Blank, u[..p]), u[p])
  {
    assert u[..p + 1] == u[..p] + [u[p]] && [u[p]][1..] == "";
    ScanConcat(Blank, u[..p], [u[p]]);
  }

  /** Brackets with a line break in between never reach into a string. */
  lemma NoStringBetween(u: string, i: nat, shape: Shape, p: nat)
    requires Strict(u) && forall k | 0 < k < |u| :: ScanAll(Blank, u[..k]).Inside?
    requires i < |u| && Matches(u[i..], shape) && Gap(u[i..], shape) == 1
    requires i < p < i + CloseLength(shape) + 1 + OpenLength(shape)
    ensures p < |u| && !InString(ScanAll(Blank, u[..p]))
  {
    hide ScanAll, Strict;
    var q := i + CloseLength(shape);
    Bracketed(u, i, shape);
    BreakIsBetween(u, q);
    if p < q {
      ScanSnoc(u, p);
    } else if p > q {
      ScanSnoc(u, q);
      if p == q + 2 { ScanSnoc(u, q + 1); }
    }
  }

  lemma BreakIsBetween(u: string, q: nat)
    requires Strict(u) && q < |u| && LineBreak(u[q])
    ensures Between(ScanAll(Blank, u[..q]))
  {}

  lemma Bracketed(u: string, i: nat, shape: Shape)
    requires i < |u| && Matches(u[i..], shape) && Gap(u[i..], shape) == 1
    ensures var q := i + CloseLength(shape);
      && q + 1 + OpenLength(shape) <= |u| && LineBreak(u[q])
      && (shape.closes ==> u[q - 1] == ']') && (shape.opens ==> u[q + 1] == '[')
  {
    var k := CloseLength(shape);
    var s := u[i..];
    assert s[k..][0] == u[i + k] && s[k..][1..] == u[i + k + 1..];
    assert shape.closes ==> s[1] == u[i + 1];
  }

  lemma TightWithout(a: string, b: string)
    requires InString(ScanAll(Blank, a)) && Strict(a + b) && Tight(a + (MARK + b))
    requires forall k | 0 < k < |a + b| :: ScanAll(Blank, (a + b)[..k]).Inside?
    ensures Tight(a + b)
  {
    hide ScanAll, Strict, Matches;
    var t, u := a + (MARK + b), a + b;
    forall i, shape | 0 <= i < |u| && Matches(u[i..], shape) ensures Gap(u[i..], shape) == 0 {
      var n := CloseLength(shape) + 1 + OpenLength(shape);
      assert u[..|a|] == a && (|a| <= i ==> u[i..] == t[i + 4..]);
      if Gap(u[i..], shape) == 1 && |a| > i {
        if |a| < i + n {
          NoStringBetween(u, i, shape, |a|);
        } else {
          MatchMoves(u, t, i, shape);
        }
      }
    }
  }

  lemma MatchMoves(u: string, t: string, i: nat, shape: Shape)
    requires i < |u| && Matches(u[i..], shape)
    requires var n := i + CloseLength(shape) + Gap(u[i..], shape) + OpenLength(shape);
      n <= |u| ==> n <= |t| && t[..n] == u[..n]
    ensures i < |t| && Matches(t[i..], shape) && Gap(t[i..], shape) == Gap(u[i..], shape)
  {
    hide Matches, OpensAt, CloseLength;
    var k := CloseLength(shape) + Gap(u[i..], shape);
    MatchedText(u[i..], shape);
    Shorter(u[i..], shape);
    SameWindow(u, t, i, k, OpenLength(shape));
    OpensMoved(u[i..][k..], t[i..][k..], shape.opens, OpenLength(shape));
    StillMatches(u[i..], t[i..], shape);
  }

  lemma SameWindow(u: string, t: string, i: nat, k: nat, o: nat)
    requires i + k + o <= |u| && i + k + o <= |t| && t[..i + k + o] == u[..i + k + o]
    ensures t[i..][..k] == u[i..][..k]
    ensures forall j | 0 <= j < o :: u[i..][k..][j] == t[i..][k..][j]
  {
    assert forall j | 0 <= j < i + k + o :: u[j] == u[..i + k + o][j] == t[..i + k + o][j] == t[j];
  }

  /** Without one marker a message is still a message. */
  lemma MessageWithout(m: Item, a: string, b: string)
    requires WellFormed(m) && Strict(m.text) && m.text == a + (MARK + b)
    ensures InString(ScanAll(Blank, a)) && WellFormed(Item(m.sep, a + b)) && Strict(a + b)
      && IsBatch(Item(m.sep, a + b)) == IsBatch(m)
  {
    hide ScanAll, Strict, Tight, InString;
    AroundMarker(m, a, b);
    StrictWithout(a, b);
    InsideWithout(a, b);
    TightWithout(a, b);
    var t, u := m.text, a + b;
    assert u[0] == t[0] && u[|u| - 1] == t[|t| - 1];
  }

  // ---------- The messages without the markers their frames contain ----------

  /** The text without the four characters at `i`. */
  function CutOut(t: string, i: int): string {
    if 0 <= i <= |t| - 4 then t[..i] + t[i + 4..] else t
  }

  /** The messages without the four characters at position `p` of the stream. */
  function Without(items: seq<Item>, p: nat): (r: seq<Item>)
    ensures |r| == |items|
  {
    if |items| == 0 then []
    else if p < |Whole(items[0])| then
      [Item(items[0].sep, CutOut(items[0].text, p - |items[0].sep|))] + items[1..]
    else [items[0]] + Without(items[1..], p - |Whole(items[0])|)
  }

  /** The messages without the markers that stand inside a frame; `read` characters of the stream come before. */
  function Squeezed(items: seq<Item>, read: nat, frames: seq<string>): (r: seq<Item>)
    ensures |r| == |items|
    decreases |frames|, if |frames| > 0 then |frames[0]| else 0
  {
    if |frames| == 0 then items
    else
      var n := MarkAt(frames[0]);
      if n == |frames[0]| then Squeezed(items, read + n, frames[1..])
      else Squeezed(Without(items, read + n), read + n, [frames[0][n + 4..]] + frames[1..])
  }

  predicate MarkerAt(t: string, i: int) { 0 <= i <= |t| - 4 && StartsWith(t[i..], MARK) }

  /** `u` is `t` with some markers left out. */
  ghost predicate LeavesOut(t: string, u: string)
    decreases |t|
  {
    t == u || exists i | MarkerAt(t, i) :: LeavesOut(CutOut(t, i), u)
  }

  ghost predicate OneLess(t: string, u: string) {
    t == u || exists i | MarkerAt(t, i) :: CutOut(t, i) == u
  }

  lemma OneLessThenMore(t: string, u: string, v: string)
    requires OneLess(t, u) && LeavesOut(u, v)
    ensures LeavesOut(t, v)
  {}

  /** A marker never reaches over the edges of a message. */
  lemma MarkerInside(m: Item, rest: string, x: string, y: string)
    requires WellFormed(m) && Whole(m) + rest == x + (MARK + y) && |x| < |Whole(m)|
    ensures |m.sep| <= |x| && |x| + 4 <= |Whole(m)|
  {
    hide ScanAll, Tight;
    var s, w := x + (MARK + y), Whole(m);
    assert forall j | |x| <= j < |x| + 4 :: s[j] == MARK[j - |x|] && s[j] in "|-";
    assert forall j | 0 <= j < |w| :: (w + rest)[j] == w[j];
    assert w[|w| - 1] == m.text[|m.text| - 1] && forall j | 0 <= j < |m.sep| :: w[j] == m.sep[j];
  }

  lemma Middle(sep: string, text: string, rest: string, x: string, k: string, y: string)
    requires (sep + text) + rest == x + (k + y) && |sep| <= |x| && |x| + |k| <= |sep| + |text|
    ensures var i := |x| - |sep|;
      text[i..][..|k|] == k && text == text[..i] + (k + text[i + |k|..]) && x == sep + text[..i]
        && y == text[i + |k|..] + rest
  {
    var s, i := (x + k) + y, |x| - |sep|;
    assert s == (sep + text) + rest;
    assert s[..|sep|] == sep && s[|sep|..|sep + text|] == text && s[|sep + text|..] == rest;
    assert s[..|x|] == x && s[|x|..|x + k|] == k && s[|x + k|..] == y;
    assert text[..i] == s[|sep|..|x|] && text[i..][..|k|] == s[|x|..|x + k|];
    assert text[i + |k|..] == s[|x + k|..|sep + text|];
  }

  /** The stream without a marker that stands in its first message. */
  lemma HeadWithout(items: seq<Item>, x: string, y: string) returns (a: string, b: string)
    requires items != [] && WellFormed(items[0]) && |x| < |Whole(items[0])| && Text(items) == x + (MARK + y)
    ensures items[0].text == a + (MARK + b) && MarkerAt(items[0].text, |a|) && CutOut(items[0].text, |a|) == a + b
    ensures Without(items, |x|) == [Item(items[0].sep, a + b)] + items[1..]
    ensures Text([Item(items[0].sep, a + b)] + items[1..]) == x + y
  {
    hide WellFormed, Text, StartsWith;
    var m, rest := items[0], Text(items[1..]);
    TextHead(items);
    MarkerInside(m, rest, x, y);
    Middle(m.sep, m.text, rest, x, MARK, y);
    var i := |x| - |m.sep|;
    a, b := m.text[..i], m.text[i + 4..];
    StartsHere(m.text, i);
    TextHead([Item(m.sep, a + b)] + items[1..]);
    Regroup(m.sep, a, b, rest);
  }

  lemma StartsHere(t: string, i: nat)
    requires i + 4 <= |t| && t[i..][..4] == MARK
    ensures MarkerAt(t, i)
  {}

  lemma Regroup(sep: string, a: string, b: string, rest: string)
    ensures (sep + a) + (b + rest) == (sep + (a + b)) + rest
  {}

  lemma FirstWithout<J(!new)>(parse: string -> Parsed<J>, items: seq<Item>, x: string, y: string)
    requires Good(parse, items) && AllStrict(items) && AnyString(parse)
    requires items != [] && |x| < |Whole(items[0])| && Text(items) == x + (MARK + y)
    ensures var w := Without(items, |x|);
      Good(parse, w) && AllStrict(w) && Text(w) == x + y && Lessened(items, w)
  {
    hide WellFormed, Strict, Whole, Text, InString, ScanAll, Good, AllStrict, AnyString, IsBatch, Lessened, OneLess,
      MarkerAt, Without, CutOut;
    var m := items[0];
    HeadFacts(parse, items);
    var a, b := HeadWithout(items, x, y);
    MessageWithout(m, a, b);
    OneLessAt(m.text, |a|);
    StillParses(parse, a, b);
    NewHead(parse, items, Item(m.sep, a + b));
  }

  lemma OneLessAt(t: string, i: int)
    requires MarkerAt(t, i)
    ensures OneLess(t, CutOut(t, i))
  {}

  lemma StillParses<J(!new)>(parse: string -> Parsed<J>, a: string, b: string)
    requires AnyString(parse) && InString(ScanAll(Blank, a)) && parse(a + (MARK + b)).Got?
    ensures parse(a + b).Got?
  {}

  lemma HeadFacts<J(!new)>(parse: string -> Parsed<J>, items: seq<Item>)
    requires Good(parse, items) && AllStrict(items) && items != []
    ensures var m := items[0]; WellFormed(m) && Strict(m.text) && parse(m.text).Got? && |m.text| + 2 <= MAX_CHUNK
  {}

  lemma NewHead<J(!new)>(parse: string -> Parsed<J>, items: seq<Item>, n: Item)
    requires Good(parse, items) && AllStrict(items) && items != []
    requires WellFormed(n) && Strict(n.text) && parse(n.text).Got? && |n.text| + 2 <= MAX_CHUNK
    requires n.sep == items[0].sep && OneLess(items[0].text, n.text) && IsBatch(n) == IsBatch(items[0])
    ensures var w := [n] + items[1..]; Good(parse, w) && AllStrict(w) && Lessened(items, w)
  {
    hide WellFormed, Strict;
  }

  ghost predicate Lessened(items: seq<Item>, w: seq<Item>) {
    |w| == |items| && forall i | 0 <= i < |items| ::
      w[i].sep == items[i].sep && OneLess(items[i].text, w[i].text) && IsBatch(w[i]) == IsBatch(items[i])
  }

  lemma {:induction false} WithoutIsGood<J(!new)>(parse: string -> Parsed<J>, items: seq<Item>, x: string, y: string)
    requires Good(parse, items) && AllStrict(items) && AnyString(parse) && Text(items) == x + (MARK + y)
    ensures var w := Without(items, |x|);
      Good(parse, w) && AllStrict(w) && Text(w) == x + y && Lessened(items, w)
    decreases |items|
  {
    hide WellFormed, Strict, Whole, Text, AnyString, OneLess;
    if items == [] {
      NoText();
    } else if |x| < |Whole(items[0])| {
      FirstWithout(parse, items, x, y);
    } else {
      var n := |Whole(items[0])|;
      TextHead(items);
      var x' := x[n..];
      assert x == Whole(items[0]) + x' && Text(items[1..]) == x' + (MARK + y) by {
        var s := x + (MARK + y);
        assert s[..n] == Whole(items[0]) == x[..n] && s[n..] == x[n..] + (MARK + y);
      }
      WithoutIsGood(parse, items[1..], x', y);
      var w := Without(items, |x|);
      assert w == [items[0]] + Without(items[1..], |x'|);
      TextHead(w);
      SameIsLess(items[0].text);
    }
  }

  lemma SameIsLess(t: string)
    ensures OneLess(t, t)
  {}

  ghost predicate Shortened(items: seq<Item>, w: seq<Item>) {
    |w| == |items| && forall i | 0 <= i < |items| ::
      w[i].sep == items[i].sep && LeavesOut(items[i].text, w[i].text) && IsBatch(w[i]) == IsBatch(items[i])
  }

  lemma LessThenShorter(items: seq<Item>, v: seq<Item>, w: seq<Item>)
    requires Lessened(items, v) && Shortened(v, w)
    ensures Shortened(items, w)
  {
    hide OneLess, LeavesOut, IsBatch;
    forall i | 0 <= i < |items| ensures LeavesOut(items[i].text, w[i].text) {
      OneLessThenMore(items[i].text, v[i].text, w[i].text);
    }
  }

  lemma SameIsShortened(items: seq<Item>)
    ensures Shortened(items, items)
  {}

  /** The first marker of the first frame ends its first segment. */
  lemma SegmentsAtMark(frames: seq<string>, a: string, b: string)
    requires frames != [] && frames[0] == a + (MARK + b) && Lone(a)
    ensures Segments(frames) == [a] + Segments([b] + frames[1..])
  {
    hide SplitMark, Lone;
    SplitAtMark(a, b);
    assert ([b] + frames[1..])[1..] == frames[1..];
  }

  lemma ConcatCons(f: string, frames: seq<string>)
    ensures Concat([f] + frames) == f + Concat(frames)
  {
    assert ([f] + frames)[1..] == frames;
  }

  lemma ConcatAfter(t: string, f: string, frames: seq<string>)
    ensures t + Concat([f] + frames) == (t + f) + Concat(frames)
  {
    ConcatCons(f, frames);
  }

  /** Leaving the markers out of the frames is leaving them out of the messages. */
  lemma {:induction false} SqueezedIsGood<J(!new)>(parse: string -> Parsed<J>, items: seq<Item>, t: string,
      frames: seq<string>)
    requires Good(parse, items) && AllStrict(items) && AnyString(parse) && Text(items) == t + Concat(frames)
    ensures var w := Squeezed(items, |t|, frames);
      Good(parse, w) && AllStrict(w) && Text(w) == t + Concat(Segments(frames)) && Shortened(items, w)
    decreases |frames|, if |frames| > 0 then |frames[0]| else 0
  {
    hide Good, AllStrict, AnyString, Text, SplitMark, Lone, Unmarked, Without, Shortened, Lessened, MarkAt, Concat;
    if frames == [] {
      SameIsShortened(items);
    } else {
      var f, rest := frames[0], frames[1..];
      assert frames == [f] + rest;
      FirstMark(f);
      if MarkAt(f) == |f| {
        SplitUnmarked(f);
        ConcatAfter(t, f, rest);
        SqueezedIsGood(parse, items, t + f, rest);
        ConcatAfter(t, f, Segments(rest));
      } else {
        var a, b := f[..MarkAt(f)], f[MarkAt(f) + 4..];
        var v := OneMarkerLess(parse, items, t, a, b, frames);
        assert |t + a| == |t| + MarkAt(f) && ([b] + rest)[0] == b && |[b] + rest| == |frames|;
        SqueezedIsGood(parse, v, t + a, [b] + rest);
        LessThenShorter(items, v, Squeezed(v, |t + a|, [b] + rest));
        SegmentsAtMark(frames, a, b);
        ConcatAfter(t, a, Segments([b] + rest));
      }
    }
  }

  lemma OneMarkerLess<J(!new)>(parse: string -> Parsed<J>, items: seq<Item>, t: string, a: string, b: string,
      frames: seq<string>)
    returns (v: seq<Item>)
    requires Good(parse, items) && AllStrict(items) && AnyString(parse) && Text(items) == t + Concat(frames)
    requires frames != [] && frames[0] == a + (MARK + b)
    ensures v == Without(items, |t| + |a|) && Lessened(items, v)
    ensures Good(parse, v) && AllStrict(v) && Text(v) == (t + a) + Concat([b] + frames[1..])
  {
    hide Good, AllStrict, AnyString, Text, Without, Lessened;
    var rest := frames[1..];
    ConcatCons(b, rest);
    assert t + ((a + (MARK + b)) + Concat(rest)) == (t + a) + (MARK + (b + Concat(rest)));
    WithoutIsGood(parse, items, t + a, b + Concat(rest));
    assert |t + a| == |t| + |a|;
    v := Without(items, |t + a|);
  }

  // ---------- What comes out ----------

  lemma {:induction false} SegmentsShorter(s: string, rest: seq<string>)
    ensures |Concat(SplitMark(s) + rest)| <= |s| + |Concat(rest)|
    ensures !Unmarked(s) ==> |Concat(SplitMark(s) + rest)| < |s| + |Concat(rest)|
    decreases |s|
  {
    hide SplitMark, Unmarked, Lone;
    FirstMark(s);
    var n := MarkAt(s);
    if n == |s| {
      SplitUnmarked(s);
      ConcatCons(s, rest);
    } else {
      var a, b := s[..n], s[n + 4..];
      SplitAtMark(a, b);
      SegmentsShorter(b, rest);
      assert ([a] + SplitMark(b)) + rest == [a] + (SplitMark(b) + rest);
      ConcatCons(a, SplitMark(b) + rest);
    }
  }

  lemma {:induction false} AllSegmentsShorter(frames: seq<string>)
    ensures |Concat(Segments(frames))| <= |Concat(frames)|
    ensures !Unmarkeds(frames) ==> |Concat(Segments(frames))| < |Concat(frames)|
    decreases |frames|
  {
    hide SplitMark, Unmarked;
    if frames != [] {
      SegmentsShorter(frames[0], Segments(frames[1..]));
      AllSegmentsShorter(frames[1..]);
      if Unmarked(frames[0]) && Unmarkeds(frames[1..]) {
        assert forall i | 1 <= i < |frames| :: frames[i] == frames[1..][i - 1];
      }
    }
  }

  /** Without markers inside frames nothing is left out. */
  lemma {:induction false} NothingSqueezed(items: seq<Item>, read: nat, frames: seq<string>)
    requires Unmarkeds(frames)
    ensures Segments(frames) == frames && Squeezed(items, read, frames) == items
    decreases |frames|
  {
    hide Unmarkeds, Unmarked, SplitMark, Lone;
    if frames != [] {
      UnmarkedsHead(frames);
      SplitUnmarked(frames[0]);
      NoMark(frames[0]);
      NothingSqueezed(items, read + |frames[0]|, frames[1..]);
    }
  }

  lemma {:induction false} NoMark(s: string)
    requires Unmarked(s)
    ensures MarkAt(s) == |s|
    decreases |s|
  {
    if s != "" {
      assert s[0..] == s;
      UnmarkedTail(s, 1);
      NoMark(s[1..]);
    }
  }

  lemma {:induction false} SameValues<J(!new)>(parse: string -> Parsed<J>, a: seq<Item>, b: seq<Item>)
    requires |a| == |b| && forall i | 0 <= i < |a| :: parse(a[i].text).Got?
    requires forall i | 0 <= i < |b| :: parse(b[i].text).Got?
    ensures Values(parse, a) == Values(parse, b) <==> forall i | 0 <= i < |a| :: parse(a[i].text) == parse(b[i].text)
    decreases |a|
  {
    if a != [] {
      SameValues(parse, a[1..], b[1..]);
      var x, y := Values(parse, a), Values(parse, b);
      assert x[0] == parse(a[0].text).value && y[0] == parse(b[0].text).value && x[1..] == Values(parse, a[1..])
        && y[1..] == Values(parse, b[1..]);
      if x == y {
        forall i | 0 <= i < |a| ensures parse(a[i].text) == parse(b[i].text) {
          if i > 0 { assert a[i] == a[1..][i - 1] && b[i] == b[1..][i - 1]; }
        }
      }
    }
  }

  /** Any stream of messages, cut into any frames: what comes out are the messages without the markers that
      stand inside one frame, all of them exactly when none of the segments hides a boundary, otherwise those
      before the first hidden one. It is what was sent exactly when, besides, no value depends on a marker. */
  lemma MarkedExactly<J(!new)>(parse: string -> Parsed<J>, items: seq<Item>, frames: seq<string>)
    requires JsonLike(parse) && AnyString(parse) && Good(parse, items) && AllStrict(items)
      && Concat(frames) == Text(items)
    requires Clean(0, Segments(frames), Squeezed(items, 0, frames)) || |Text(items)| <= MAX_CHUNK
    ensures forall i | 0 <= i < |items| :: parse(items[i].text).Got?
    ensures var kept := Squeezed(items, 0, frames);
      var out := TakeFrames(parse, Fresh(), frames).out;
      && (forall i | 0 <= i < |kept| :: parse(kept[i].text).Got?)
      && Shortened(items, kept) && Text(kept) == Concat(Segments(frames))
      && out == Arriving(parse, kept, Segments(frames))
      && (out == Values(parse, items) <==>
            Clean(0, Segments(frames), kept)
              && forall i | 0 <= i < |items| :: parse(kept[i].text) == parse(items[i].text))
  {
    hide JsonLike, AnyString, Good, AllStrict, Text, Segments, TakeFrames, Clean, Unmarkeds, Shortened, Squeezed;
    var kept := Squeezed(items, 0, frames);
    assert "" + Concat(frames) == Concat(frames) && "" + Concat(Segments(frames)) == Concat(Segments(frames));
    SqueezedIsGood(parse, items, "", frames);
    MarkedIsSegmented(parse, Fresh(), frames);
    AllSegmentsUnmarked(frames);
    AllSegmentsShorter(frames);
    DeliveredExactly(parse, kept, Segments(frames));
    GotAll(parse, items);
    SameValues(parse, kept, items);
    if !Clean(0, Segments(frames), kept) {
      ValuesLength(parse, items);
      ValuesLength(parse, kept[..ReachedBy(0, Segments(frames), kept)]);
    }
  }

  /** For a parser that tells the messages from what is left of them, a stream arrives as it was sent exactly
      when no frame contains the marker and none hides a boundary. */
  lemma AsSentExactly<J(!new)>(parse: string -> Parsed<J>, items: seq<Item>, frames: seq<string>)
    requires JsonLike(parse) && AnyString(parse) && Good(parse, items) && AllStrict(items)
      && Concat(frames) == Text(items)
    requires Clean(0, Segments(frames), Squeezed(items, 0, frames)) || |Text(items)| <= MAX_CHUNK
    requires var kept := Squeezed(items, 0, frames);
      forall i | 0 <= i < |items| && kept[i] != items[i] :: parse(kept[i].text) != parse(items[i].text)
    ensures forall i | 0 <= i < |items| :: parse(items[i].text).Got?
    ensures TakeFrames(parse, Fresh(), frames).out == Values(parse, items)
      <==> Unmarkeds(frames) && Clean(0, frames, items)
  {
    hide JsonLike, AnyString, Good, AllStrict, Text, Segments, TakeFrames, Clean, Unmarkeds, Shortened, Squeezed;
    MarkedExactly(parse, items, frames);
    if Unmarkeds(frames) {
      NothingSqueezed(items, 0, frames);
    } else {
      AllSegmentsShorter(frames);
      assert Squeezed(items, 0, frames) != items;
    }
  }

  // ---------- A message whose string is the marker ----------

  lemma {:induction false} Uncuttable(s: string)
    requires forall i | 0 <= i < |s| && s[i] == '}' :: i == |s| - 1
    ensures Cut(s, ALL) == [s]
    decreases |s|
  {
    if s != "" {
      assert !MatchesAny(s, ALL) by {
        if s[0] == '}' { assert |s| == 1; }
      }
      assert forall i | 0 <= i < |s[1..]| :: s[1..][i] == s[i + 1];
      Uncuttable(s[1..]);
      CutStep(s, ALL);
      assert s == [s[0]] + s[1..];
    }
  }

  lemma TakeTwo<J>(parse: string -> Parsed<J>, s: State<J>, a: string, b: string)
    ensures TakeAll(parse, s, [a, b]) == Take(parse, Take(parse, s, a), b)
  {
    hide Take;
    assert [a, b][1..] == [b] && [b][1..] == [];
    assert TakeAll(parse, s, [a, b]) == TakeAll(parse, Take(parse, s, a), [b]);
  }

  lemma OneFrame<J>(parse: string -> Parsed<J>, s: State<J>, f: string)
    ensures TakeFrames(parse, s, [f]) == TakeAll(parse, s, Dechunk(f))
  {
    hide Dechunk, TakeAll;
    assert [f][1..] == [];
  }

  lemma NoBarsAreLone(s: string)
    requires '|' !in s
    ensures Lone(s) && Unmarked(s)
  {
    forall i | 0 <= i < |s| ensures !StartsWith(s[i..] + MARK, MARK) {
      assert (s[i..] + MARK)[..4][0] == s[i] && MARK[0] == '|';
    }
    LoneIsUnmarked(s);
  }

  /** The object `{"x":"|--|"}` in one frame arrives as the object `{"x":""}`. */
  lemma MarkerExample<J(!new)>(parse: string -> Parsed<J>)
    requires JsonLike(parse) && parse(['{', '"', 'x', '"', ':', '"'] + ['"', '}']).Got?
    ensures TakeFrames(parse, Fresh(), [['{', '"', 'x', '"', ':', '"'] + (MARK + ['"', '}'])]).out
         == [parse(['{', '"', 'x', '"', ':', '"'] + ['"', '}']).value]
  {
    hide ScanAll, JsonLike, Unmarked, Lone, Dechunk, Cut, TakeAll, MatchesAny;
    var a, b := ['{', '"', 'x', '"', ':', '"'], ['"', '}'];
    NoBarsAreLone(a);
    NoBarsAreLone(b);
    Uncuttable(a);
    Uncuttable(b);
    DechunkAtMark(a, b);
    DechunkIsCut(b);
    OpensString(a);
    OpenFails(parse, a);
    TakeTwo(parse, Fresh(), a, b);
    OneFrame(parse, Fresh(), a + (MARK + b));
    assert [a] + [b] == [a, b] && "" + a == a;
    assert [] + [parse(a + b).value] == [parse(a + b).value];
  }

  lemma OpenFails<J(!new)>(parse: string -> Parsed<J>, a: string)
    requires JsonLike(parse) && ScanAll(Blank, a).Inside?
    ensures parse(a).Fails?
  {}

  lemma ScanMore(a: string, c: char)
    ensures ScanAll(Blank, a + [c]) == Next(ScanAll(Blank, a), c)
  {
    ScanConcat(Blank, a, [c]);
    assert [c][1..] == "";
  }

  lemma ScanNothing()
    ensures ScanAll(Blank, "") == Blank
  {}

  lemma OpensString(a: string)
    requires a == ['{', '"', 'x', '"', ':', '"']
    ensures ScanAll(Blank, a) == Inside(1, true, false)
  {
    hide ScanAll;
    ScanNothing();
    assert a[..0] == "" && a[..6] == a;
    forall k | 0 <= k < 6 ensures ScanAll(Blank, a[..k + 1]) == Next(ScanAll(Blank, a[..k]), a[k]) {
      ScanMore(a[..k], a[k]);
      assert a[..k + 1] == a[..k] + [a[k]];
    }
    assert ScanAll(Blank, a[..0 + 1]) == Inside(1, false, false);
    assert ScanAll(Blank, a[..1 + 1]) == Inside(1, true, false);
    assert ScanAll(Blank, a[..2 + 1]) == Inside(1, true, false);
    assert ScanAll(Blank, a[..3 + 1]) == Inside(1, false, false);
    assert ScanAll(Blank, a[..4 + 1]) == Inside(1, false, false);
    assert ScanAll(Blank, a[..5 + 1]) == Inside(1, true, false);
  }
}
