/** However a stream is cut into frames, its messages come out once each and in order; for arrays exactly
    when no frame hides a boundary. */
module ChunkDelivery {
  import opened Wrappers
  import opened Framing
  import opened ChunkStreams

  // ---------- The first place where a frame is cut ----------

  function FirstCut(f: string): (r: Option<(nat, nat)>)
    ensures r.Some? ==> 0 < r.value.0 && r.value.0 + r.value.1 < |f|
    decreases |f|
  {
    if |f| == 0 then None
    else if MatchesAny(f, ALL) then
      var shape := TheShape(f, ALL);
      Shorter(f, shape);
      Some((CloseLength(shape), Gap(f, shape)))
    else
      var r := FirstCut(f[1..]);
      if r.None? then None else Some((r.value.0 + 1, r.value.1))
  }

  lemma {:induction false} CutFirst(f: string)
    ensures Cut(f, ALL) == match FirstCut(f)
                           case None => [f]
                           case Some((i, d)) => [f[..i]] + Cut(f[i + d..], ALL)
    decreases |f|
  {
    hide Matches, Cut;
    if f == "" {
      CutEmpty(ALL);
    } else if MatchesAny(f, ALL) {
      CutAtMatch(f, ALL, TheShape(f, ALL));
    } else {
      CutFirst(f[1..]);
      CutStep(f, ALL);
      if FirstCut(f[1..]).Some? {
        PieceGrows(f, FirstCut(f[1..]).value.0, FirstCut(f[1..]).value.1);
      } else {
        assert [f[0]] + f[1..] == f;
      }
    }
  }

  lemma PieceGrows(f: string, i: nat, d: nat)
    requires f != "" && i + d < |f[1..]|
    ensures f[1..][i + d..] == f[i + 1 + d..] && [f[0]] + f[1..][..i] == f[..i + 1]
  {}

  lemma AllShapes(shape: Shape)
    ensures shape in ALL
  {
    assert ALL[0] == Shape(false, false) && ALL[1] == Shape(true, true) && ALL[2] == Shape(false, true)
      && ALL[3] == Shape(true, false);
  }

  lemma MatchIsAny(f: string, shape: Shape)
    requires Matches(f, shape)
    ensures MatchesAny(f, ALL)
  {
    AllShapes(shape);
    var i :| 0 <= i < |ALL| && ALL[i] == shape;
    assert Matches(f, ALL[i]);
  }

  /** Nothing matches before the first cut. */
  lemma {:induction false} FirstCutIsFirst(f: string, j: nat, shape: Shape)
    requires j < |f| && Matches(f[j..], shape)
    ensures FirstCut(f).Some? && FirstCut(f).value.0 <= j + 2
    ensures FirstCut(f).value.0 <= j + CloseLength(shape)
    ensures FirstCut(f).value.0 == j + CloseLength(shape) ==> FirstCut(f).value.1 == Gap(f[j..], shape)
    decreases |f|
  {
    hide Matches;
    if MatchesAny(f, ALL) {
      var first := TheShape(f, ALL);
      if j == 0 {
        assert f[0..] == f;
        ShapeIsUnique(f, first, shape);
      } else {
        NotInsideClose(f, first, j, shape);
      }
    } else {
      assert f[0..] == f;
      if j == 0 { MatchIsAny(f, shape); }
      assert f[1..][j - 1..] == f[j..];
      FirstCutIsFirst(f[1..], j - 1, shape);
    }
  }

  /** A later match starts behind the closing of an earlier one. */
  lemma NotInsideClose(f: string, first: Shape, j: nat, shape: Shape)
    requires Matches(f, first) && 0 < j < |f| && Matches(f[j..], shape)
    ensures CloseLength(first) < j + CloseLength(shape)
  {
    assert f[j..][0] == f[j];
  }

  /** Where the first cut comes from. */
  lemma {:induction false} FirstCutMatches(f: string) returns (j: nat, shape: Shape)
    requires FirstCut(f).Some?
    ensures j < |f| && Matches(f[j..], shape)
    ensures FirstCut(f).value == (j + CloseLength(shape), Gap(f[j..], shape))
    decreases |f|
  {
    hide Matches;
    assert f[0..] == f;
    if MatchesAny(f, ALL) {
      j, shape := 0, TheShape(f, ALL);
    } else {
      j, shape := FirstCutMatches(f[1..]);
      assert f[1..][j..] == f[j + 1..];
      j := j + 1;
    }
  }

  // ---------- Cuts inside a message and at its end ----------

  /** As far as it belongs to the current message, the frame continues it. */
  predicate NearEnd(m: Item, c: string, f: string)
    requires |c| < |Whole(m)|
  {
    c + f[..if |f| < |Whole(m)| - |c| then |f| else |Whole(m)| - |c|] <= Whole(m)
  }

  /** `x` is the beginning of a message. */
  predicate IsPart(x: string, m: Item) { x <= Whole(m) }

  lemma TextOf(m: Item, c: string, f: string, j: nat)
    requires WellFormed(m) && |c| < |Whole(m)| && j < |f| && |c| + j < |Whole(m)|
    requires NearEnd(m, c, f)
    requires f[j] == '}'
    ensures |c| + j >= |m.sep|
    ensures var s, t := f[j..], m.text[|c| + j - |m.sep|..];
      forall i | 0 <= i < |s| && i < |t| :: s[i] == t[i]
  {
    var g := f[..if |f| < |Whole(m)| - |c| then |f| else |Whole(m)| - |c|];
    assert forall i | 0 <= i < |g| :: (c + g)[|c| + i] == f[i] == Whole(m)[|c| + i];
    var s, t := f[j..], m.text[|c| + j - |m.sep|..];
    forall i | 0 <= i < |s| && i < |t| ensures s[i] == t[i] {
      assert s[i] == f[j + i] && g[j + i] == f[j + i];
      assert Whole(m)[|c| + (j + i)] == t[i];
    }
  }

  lemma TightAt(m: Item, q: nat, shape: Shape)
    requires WellFormed(m) && q < |m.text| && Matches(m.text[q..], shape)
    ensures Gap(m.text[q..], shape) == 0
  {
    hide ScanAll, Matches, Gap;
  }

  /** A frame cut inside a message drops nothing. */
  lemma CutInside(m: Item, c: string, f: string, j: nat, shape: Shape)
    requires WellFormed(m) && |c| < |Whole(m)| && j < |f| && Matches(f[j..], shape)
    requires |c| + j + CloseLength(shape) < |Whole(m)|
    requires NearEnd(m, c, f)
    ensures Gap(f[j..], shape) == 0
  {
    hide WellFormed;
    Edges(m);
    assert f[j] == f[j..][0] == '}';
    TextOf(m, c, f, j);
    var q := |c| + j - |m.sep|;
    var s, t := f[j..], m.text[q..];
    InnerMatch(s, t, shape, m.text[|m.text| - 1]);
    TightAt(m, q, shape);
  }

  /** Behind the closing of a match there are no closing brackets. */
  lemma NoClosingBehind(s: string, shape: Shape)
    requires Matches(s, shape)
    ensures var k, n := CloseLength(shape), CloseLength(shape) + Gap(s, shape) + OpenLength(shape);
      n <= |s| && forall i | k <= i < n :: s[i] !in "}]"
  {
    var k, d := CloseLength(shape), Gap(s, shape);
    Shorter(s, shape);
    var u := s[k + d..];
    assert d == 1 ==> s[k..][0] == s[k];
    assert u[0] == s[k + d] && (shape.opens ==> u[1] == s[k + d + 1]);
  }

  lemma OpensMoved(a: string, b: string, opens: bool, n: nat)
    requires OpensAt(a, opens) && n == (if opens then 2 else 1) && |b| >= n
    requires forall i | 0 <= i < n && i < |a| :: a[i] == b[i]
    ensures OpensAt(b, opens)
  {}

  /** A match that starts in a text ending with a closing bracket lies inside it. */
  lemma InnerMatch(s: string, t: string, shape: Shape, last: char)
    requires Matches(s, shape) && CloseLength(shape) < |t| && t[|t| - 1] == last && last in "}]"
    requires forall i | 0 <= i < |s| && i < |t| :: s[i] == t[i]
    ensures Matches(t, shape) && Gap(t, shape) == Gap(s, shape)
  {
    hide Matches, OpensAt;
    var n := CloseLength(shape) + Gap(s, shape);
    NoClosingBehind(s, shape);
    assert |t| > n + OpenLength(shape);
    Shorter(s, shape);
    assert t[..n] == s[..n];
    assert forall i | 0 <= i < |s[n..]| && i < |t[n..]| :: s[n..][i] == s[n + i] == t[n + i] == t[n..][i];
    OpensMoved(s[n..], t[n..], shape.opens, OpenLength(shape));
    StillMatches(s, t, shape);
  }

  /** The shape between two messages. */
  function Boundary(a: Item, b: Item): Shape { Shape(IsBatch(a), IsBatch(b)) }

  /** A boundary of which a frame holds enough is a place to cut, and exactly the separator is dropped. */
  lemma BoundaryMatches(a: Item, b: Item, f: string, e: nat, rest: string)
    requires WellFormed(a) && WellFormed(b) && ClosesCompact(a) && OpensCompact(b)
    requires CloseLength(Boundary(a, b)) <= e <= |f|
    requires f[e - CloseLength(Boundary(a, b))..e] == a.text[|a.text| - CloseLength(Boundary(a, b))..]
    requires f[e..] == b.sep + rest && |rest| >= OpenLength(Boundary(a, b)) && rest <= b.text
    ensures Matches(f[e - CloseLength(Boundary(a, b))..], Boundary(a, b))
    ensures Gap(f[e - CloseLength(Boundary(a, b))..], Boundary(a, b)) == |b.sep|
  {
    hide WellFormed, Matches, OpensAt, ClosesCompact, OpensCompact;
    var k := CloseLength(Boundary(a, b));
    Edges(b);
    TextCloses(a);
    TextOpens(b, rest);
    TwoParts(f, e - k, e);
    MatchFrom(f[e - k..], Boundary(a, b), b.sep, rest);
  }

  lemma TwoParts(f: string, a: nat, e: nat)
    requires a <= e <= |f|
    ensures f[a..] == f[a..e] + f[e..]
  {}

  lemma TextCloses(m: Item)
    requires WellFormed(m) && ClosesCompact(m)
    ensures var k := if IsBatch(m) then 2 else 1; m.text[|m.text| - k..] == CloseText(IsBatch(m))
  {
    hide WellFormed;
    Edges(m);
  }

  lemma TextOpens(m: Item, rest: string)
    requires WellFormed(m) && OpensCompact(m) && rest <= m.text && |rest| >= (if IsBatch(m) then 2 else 1)
    ensures OpensAt(rest, IsBatch(m))
  {
    hide WellFormed;
    Edges(m);
    assert forall i | 0 <= i < |rest| :: rest[i] == m.text[i];
  }

  lemma MatchFrom(s: string, shape: Shape, sep: string, rest: string)
    requires s == CloseText(shape.closes) + (sep + rest) && OpensAt(rest, shape.opens)
    requires sep == "" || (|sep| == 1 && LineBreak(sep[0]))
    ensures Matches(s, shape) && Gap(s, shape) == |sep|
  {
    var k := CloseLength(shape);
    assert s[k..] == sep + rest;
    assert (sep + rest)[|sep|..] == rest;
  }

  // ---------- Hidden boundaries ----------

  /** A frame reaches from position `x` to `y`, counted from the start of the current message. It hides a
      boundary if it holds the last character of one message and the first of the next, but not the brackets
      between which it would be cut: it starts between `}` and `]`, or ends between `[` and `{`, or these do
      not stand next to each other at all. */
  predicate Hides(x: nat, y: nat, items: seq<Item>)
    decreases |items|
  {
    |items| >= 2 && (HidesFirst(x, y, items) || (y >= |Whole(items[0])| && Hides(0, y - |Whole(items[0])|, items[1..])))
  }

  /** The boundary behind the current message is hidden. */
  predicate HidesFirst(x: nat, y: nat, items: seq<Item>)
    requires |items| >= 2
  {
    var n, s := |Whole(items[0])|, |items[1].sep|;
    && y > n + s
    && (|| !ClosesCompact(items[0]) || (IsBatch(items[0]) && x + 1 == n)
        || !OpensCompact(items[1]) || (IsBatch(items[1]) && y == n + s + 1))
  }

  /** How many messages end before the first boundary the frame hides. */
  function Reached(x: nat, y: nat, items: seq<Item>): (n: nat)
    requires Hides(x, y, items)
    ensures n + 1 < |items|
    decreases |items|
  {
    if HidesFirst(x, y, items) then 0 else 1 + Reached(0, y - |Whole(items[0])|, items[1..])
  }

  lemma HidesElsewhere(x: nat, x': nat, y: nat, items: seq<Item>)
    requires items != [] ==> x + 1 != |Whole(items[0])| && x' + 1 != |Whole(items[0])|
    ensures Hides(x, y, items) == Hides(x', y, items)
    ensures Hides(x, y, items) ==> Reached(x, y, items) == Reached(x', y, items)
  {}

  // ---------- One piece ----------

  /** A frame that continues the stream after `c` has been read of the current message. */
  predicate Continues(items: seq<Item>, c: string, f: string) {
    && (if items == [] then c == "" else |c| < |Whole(items[0])|)
    && c + f <= Text(items)
  }

  lemma CarriesMore(last: string, c: string, p: string)
    requires Carries(last, c)
    ensures Carries(last + p, c + p) && |last| <= |c|
  {
    if last != c {
      assert (c + p)[1..] == c[1..] + p;
    }
  }

  lemma TakePart<J(!new)>(parse: string -> Parsed<J>, m: Item, c: string, s: State<J>, p: string)
    requires JsonLike(parse) && Good(parse, [m]) && Carries(s.last, c)
    requires IsPart(c + p, m) && |c + p| < |Whole(m)|
    ensures Take(parse, s, p) == s.(last := s.last + p, timer := true) && Carries(s.last + p, c + p)
  {
    assert WellFormed([m][0]);
    CarriesMore(s.last, c, p);
    PartFails(parse, m, c + p, s.last + p);
  }

  lemma TakeWhole<J(!new)>(parse: string -> Parsed<J>, m: Item, c: string, s: State<J>, p: string, after: string)
    requires JsonLike(parse) && Good(parse, [m]) && Carries(s.last, c)
    requires after == "" || (|after| == 1 && LineBreak(after[0]))
    requires c + p == Whole(m) + after
    ensures parse(m.text).Got?
    ensures Take(parse, s, p) == s.(last := "", timer := false, out := s.out + [parse(m.text).value])
  {
    assert WellFormed([m][0]) && parse([m][0].text).Got?;
    CarriesMore(s.last, c, p);
    WholeParses(parse, m, after, s.last + p);
  }

  lemma GoodHead<J(!new)>(parse: string -> Parsed<J>, items: seq<Item>)
    requires Good(parse, items) && items != []
    ensures Good(parse, [items[0]]) && Good(parse, items[1..]) && WellFormed(items[0])
    ensures |items| > 1 ==> WellFormed(items[1])
  {
    assert WellFormed(items[0]);
    assert forall i | 0 <= i < |items[1..]| :: items[1..][i] == items[i + 1];
  }

  /** What the frame looks like around the end of the current message. */
  lemma AroundTheEnd(items: seq<Item>, c: string, f: string)
    requires items != [] && Continues(items, c, f)
    ensures |c| < |Whole(items[0])|
    ensures var n := |Whole(items[0])|;
      && NearEnd(items[0], c, f)
      && (|c| + |f| >= n ==> c + f[..n - |c|] == Whole(items[0]) && f[n - |c|..] <= Text(items[1..]))
  {
    var n, t := |Whole(items[0])|, Text(items);
    assert t[..n] == Whole(items[0]) && t[n..] == Text(items[1..]);
    assert forall i | 0 <= i < |c + f| :: (c + f)[i] == t[i];
    if |c| + |f| >= n {
      assert (c + f)[..n] == c + f[..n - |c|];
      assert (c + f)[n..] == f[n - |c|..];
    } else {
      assert f[..|f|] == f;
    }
  }

  /** Inside the current message cuts drop nothing; where it ends, an unhidden boundary is cut, and nothing later is. */
  lemma CutsOf(items: seq<Item>, c: string, f: string)
    requires items != [] && Continues(items, c, f) && WellFormed(items[0]) && (|items| > 1 ==> WellFormed(items[1]))
    requires |items| > 1 ==> !HidesFirst(|c|, |c| + |f|, items)
    ensures var e, r := |Whole(items[0])| - |c|, FirstCut(f);
      && (r.Some? && r.value.0 < e ==> r.value.1 == 0 && r.value.0 + 1 < e)
      && (r.Some? && r.value.0 >= e ==> |items| > 1 && |f| > e + |items[1].sep| && r.value == (e, |items[1].sep|))
      && (r.None? ==> |f| < e || f[e..] == "" || (|items| > 1 && f[e..] == items[1].sep))
  {
    hide Matches, WellFormed, FirstCut, HidesFirst, Text;
    var e, r := |Whole(items[0])| - |c|, FirstCut(f);
    AroundTheEnd(items, c, f);
    if r.Some? {
      var j, shape := FirstCutMatches(f);
      if r.value.0 < e {
        CutInsideFrame(items[0], c, f);
      } else if |items| > 1 && |f| > e + |items[1].sep| {
        BoundaryIsCut(items, c, f);
      } else {
        NoLateCut(items, c, f, j, shape);
      }
    } else if |f| >= e && |items| > 1 && |f| > e + |items[1].sep| {
      BoundaryIsCut(items, c, f);
    } else if |f| >= e {
      SepIsShort(items);
      ShortRest(items, f[e..]);
    }
  }

  lemma SepIsShort(items: seq<Item>)
    requires |items| > 1 ==> WellFormed(items[1])
    ensures |items| > 1 ==> |items[1].sep| <= 1
  {}

  lemma CutInsideFrame(m: Item, c: string, f: string)
    requires WellFormed(m) && |c| < |Whole(m)| && FirstCut(f).Some? && |c| + FirstCut(f).value.0 < |Whole(m)|
    requires NearEnd(m, c, f)
    ensures FirstCut(f).value.1 == 0 && |c| + FirstCut(f).value.0 + 1 < |Whole(m)|
  {
    hide WellFormed, Matches;
    var j, shape := FirstCutMatches(f);
    CutInside(m, c, f, j, shape);
    OpeningBehind(f, j, shape);
    if |f| >= |Whole(m)| - |c| { LastOfMessage(m, c, f); }
  }

  lemma OpeningBehind(f: string, j: nat, shape: Shape)
    requires j < |f| && Matches(f[j..], shape) && Gap(f[j..], shape) == 0
    ensures j + CloseLength(shape) < |f| && f[j + CloseLength(shape)] in "{["
  {
    Shorter(f[j..], shape);
    assert f[j..][CloseLength(shape)..][0] == f[j + CloseLength(shape)];
  }

  lemma LastOfMessage(m: Item, c: string, f: string)
    requires WellFormed(m) && |c| < |Whole(m)| && |f| >= |Whole(m)| - |c|
    requires c + f[..|Whole(m)| - |c|] <= Whole(m)
    ensures f[|Whole(m)| - |c| - 1] in "}]"
  {
    var e := |Whole(m)| - |c|;
    assert f[e - 1] == (c + f[..e])[|Whole(m)| - 1] == Whole(m)[|Whole(m)| - 1];
    assert Whole(m)[|Whole(m)| - 1] == m.text[|m.text| - 1];
  }

  lemma ShortRest(items: seq<Item>, rest: string)
    requires items != [] && rest <= Text(items[1..])
    requires |items| > 1 ==> |rest| <= |items[1].sep| && |items[1].sep| <= 1
    ensures rest == "" || (|items| > 1 && rest == items[1].sep)
  {
    if |items| > 1 {
      assert Text(items[1..])[..|items[1].sep|] == items[1].sep;
    }
  }

  lemma BoundaryIsCut(items: seq<Item>, c: string, f: string)
    requires |items| > 1 && Continues(items, c, f) && WellFormed(items[0]) && WellFormed(items[1])
    requires !HidesFirst(|c|, |c| + |f|, items)
    requires |f| > |Whole(items[0])| - |c| + |items[1].sep|
    ensures var e := |Whole(items[0])| - |c|;
      FirstCut(f).Some? && FirstCut(f).value.0 <= e
        && (FirstCut(f).value.0 == e ==> FirstCut(f).value.1 == |items[1].sep|)
  {
    hide Matches, FirstCut, WellFormed;
    var a, b, e := items[0], items[1], |Whole(items[0])| - |c|;
    var k := CloseLength(Boundary(a, b));
    Edges(a);
    AroundTheEnd(items, c, f);
    assert k <= e && |f| >= e + |b.sep| + OpenLength(Boundary(a, b));
    EndOfMessage(a, c, f[..e], k);
    assert f[..e][e - k..] == f[e - k..e];
    assert Text(items[1..]) == Whole(b) + Text(items[1..][1..]);
    SplitRest(a, b, f, e, Text(items[1..][1..]), k, OpenLength(Boundary(a, b)));
  }

  lemma EndOfMessage(m: Item, c: string, g: string, k: nat)
    requires c + g == Whole(m) && k <= |g| && k <= |m.text|
    ensures g[|g| - k..] == m.text[|m.text| - k..]
  {
    assert g[|g| - k..] == (c + g)[|c| + |g| - k..];
  }

  lemma SplitRest(a: Item, b: Item, f: string, e: nat, later: string, k: nat, o: nat)
    requires WellFormed(a) && WellFormed(b) && ClosesCompact(a) && OpensCompact(b) && k == CloseLength(Boundary(a, b))
      && o == OpenLength(Boundary(a, b))
    requires k <= e <= |f| && k <= |a.text| && f[e - k..e] == a.text[|a.text| - k..]
    requires f[e..] <= Whole(b) + later && |f| >= e + |b.sep| + o
    ensures FirstCut(f).Some? && FirstCut(f).value.0 <= e
      && (FirstCut(f).value.0 == e ==> FirstCut(f).value.1 == |b.sep|)
  {
    hide Matches, WellFormed, FirstCut, ClosesCompact, OpensCompact, Whole, CloseLength, OpenLength, Boundary, Gap;
    SomeClosing(a, b);
    BoundaryStands(a, b, f, e, later, k, o);
    FirstCutIsFirst(f, e - k, Boundary(a, b));
  }

  lemma SomeClosing(a: Item, b: Item)
    ensures CloseLength(Boundary(a, b)) > 0
  {}

  lemma BoundaryStands(a: Item, b: Item, f: string, e: nat, later: string, k: nat, o: nat)
    requires WellFormed(a) && WellFormed(b) && ClosesCompact(a) && OpensCompact(b) && k == CloseLength(Boundary(a, b))
      && o == OpenLength(Boundary(a, b))
    requires k <= e <= |f| && k <= |a.text| && f[e - k..e] == a.text[|a.text| - k..]
    requires f[e..] <= Whole(b) + later && |f| >= e + |b.sep| + o
    ensures Matches(f[e - k..], Boundary(a, b)) && Gap(f[e - k..], Boundary(a, b)) == |b.sep|
  {
    hide Matches, WellFormed, ClosesCompact, OpensCompact, CloseLength, Boundary, Gap;
    Edges(b);
    assert |b.text| >= o;
    var g := f[..e + |b.sep| + o];
    Window(f, e - k, e, |b.sep| + o);
    PrefixOf(f[e..], b.sep, b.text, later, o);
    BoundaryMatches(a, b, g, e, b.text[..o]);
    MatchExtends(g[e - k..], f[e - k..], Boundary(a, b));
  }

  lemma PrefixOf(f: string, sep: string, text: string, later: string, o: nat)
    requires f <= (sep + text) + later && |f| >= |sep| + o && o <= |text|
    ensures f[..|sep| + o] == sep + text[..o]
  {}

  lemma Window(f: string, a: nat, e: nat, n: nat)
    requires a <= e && e + n <= |f|
    ensures var g := f[..e + n];
      g[e..] == f[e..][..n] && g[a..e] == f[a..e] && g[a..] <= f[a..]
  {}

  /** A frame that ends with the message or its separator is not cut there. */
  lemma NoLateCut(items: seq<Item>, c: string, f: string, j: nat, shape: Shape)
    requires items != [] && Continues(items, c, f) && WellFormed(items[0]) && (|items| > 1 ==> WellFormed(items[1]))
    requires |items| > 1 ==> |f| <= |Whole(items[0])| - |c| + |items[1].sep|
    requires j < |f| && Matches(f[j..], shape)
    ensures j + CloseLength(shape) < |Whole(items[0])| - |c|
  {
    var e := |Whole(items[0])| - |c|;
    AroundTheEnd(items, c, f);
    Shorter(f[j..], shape);
    var s := f[j..];
    assert s[CloseLength(shape) - 1] in "}]";
    assert s[CloseLength(shape) - 1] == f[j + CloseLength(shape) - 1];
    assert |f| > e ==> |items| > 1 && |f| == e + 1 && LineBreak(f[e]) by {
      if |f| > e {
        ShortRest(items, f[e..]);
        assert f[e..][0] == f[e];
      }
    }
    assert forall i | 0 <= i < |s| :: s[i] == f[j + i];
  }

  // ---------- Frames that hide nothing ----------

  /** `r` has delivered the messages that `t` completes and carries the rest. */
  ghost predicate Delivered<J>(parse: string -> Parsed<J>, items: seq<Item>, s: State<J>, r: State<J>, t: string)
    requires forall i | 0 <= i < |items| :: parse(items[i].text).Got?
  {
    var (k, left) := Progress(|t|, items);
    r.out == s.out + Values(parse, items[..k]) && Carries(r.last, t[|t| - left..])
  }

  lemma GotAll<J(!new)>(parse: string -> Parsed<J>, items: seq<Item>)
    requires Good(parse, items)
    ensures forall i | 0 <= i < |items| :: parse(items[i].text).Got?
  {}

  lemma DeliverNone<J(!new)>(parse: string -> Parsed<J>, s: State<J>)
    requires JsonLike(parse) && Carries(s.last, "")
    ensures Delivered(parse, [], s, TakeAll(parse, s, Cut("", ALL)), "")
  {
    assert ScanAll(Blank, "") == Blank;
    assert Take(parse, s, "").last == "";
    assert TakeAll(parse, s, [""]) == TakeAll(parse, Take(parse, s, ""), [""][1..]);
    assert s.out + [] == s.out;
  }

  lemma DeliveredNone<J>(parse: string -> Parsed<J>, items: seq<Item>, s: State<J>, r: State<J>, t: string)
    requires forall i | 0 <= i < |items| :: parse(items[i].text).Got?
    requires (items == [] || |t| < |Whole(items[0])|) && r.out == s.out && Carries(r.last, t)
    ensures Delivered(parse, items, s, r, t)
  {
    hide Carries;
    assert t[0..] == t && s.out + [] == s.out;
  }

  /** The frame ends inside the current message. */
  lemma DeliverPart<J(!new)>(parse: string -> Parsed<J>, items: seq<Item>, c: string, s: State<J>, f: string)
    requires JsonLike(parse) && Good(parse, items) && items != [] && Continues(items, c, f) && Carries(s.last, c)
    requires |c| + |f| < |Whole(items[0])|
    ensures Delivered(parse, items, s, Take(parse, s, f), c + f)
  {
    hide JsonLike, WellFormed, Good, Text, Take, Carries, Delivered, Continues;
    GoodHead(parse, items);
    GotAll(parse, items);
    AroundTheEnd(items, c, f);
    assert f[..|f|] == f;
    TakePart(parse, items[0], c, s, f);
    DeliveredNone(parse, items, s, Take(parse, s, f), c + f);
  }

  /** The frame ends with the current message, or with the separator behind it. */
  lemma DeliverWhole<J(!new)>(parse: string -> Parsed<J>, items: seq<Item>, c: string, s: State<J>, f: string)
    requires JsonLike(parse) && Good(parse, items) && items != [] && Continues(items, c, f) && Carries(s.last, c)
    requires var e := |Whole(items[0])| - |c|;
      |f| >= e && (f[e..] == "" || (|items| > 1 && f[e..] == items[1].sep))
    ensures Delivered(parse, items, s, Take(parse, s, f), c + f)
  {
    hide JsonLike, WellFormed, Text, Take, Carries, Delivered;
    var e := |Whole(items[0])| - |c|;
    var after := f[e..];
    GoodHead(parse, items);
    GotAll(parse, items);
    AroundTheEnd(items, c, f);
    assert c + f == Whole(items[0]) + after by { assert f == f[..e] + f[e..]; assert c + f == (c + f[..e]) + f[e..]; }
    SepShape(items);
    TakeWhole(parse, items[0], c, s, f, after);
    DeliveredOne(parse, items, s, Take(parse, s, f), c + f, after);
  }

  lemma SepShape(items: seq<Item>)
    requires |items| > 1 ==> WellFormed(items[1])
    ensures |items| > 1 ==> Separator(items[1].sep) && |items[1].sep| < |Whole(items[1])|
  {}

  lemma DeliveredOne<J(!new)>(parse: string -> Parsed<J>, items: seq<Item>, s: State<J>, r: State<J>, t: string,
      after: string)
    requires Good(parse, items) && items != [] && parse(items[0].text).Got? && t == Whole(items[0]) + after
    requires after == "" || (|after| == 1 && LineBreak(after[0]))
    requires after == "" || (|items| > 1 && |after| < |Whole(items[1])|)
    requires |items| > 1 ==> 0 < |Whole(items[1])|
    requires r.last == "" && r.out == s.out + [parse(items[0].text).value]
    ensures Delivered(parse, items, s, r, t)
  {
    assert Progress(|t|, items) == (1, |after|);
    assert t[|t| - |after|..] == after;
    assert items[..1] == [items[0]];
    assert Values(parse, [items[0]]) == [parse(items[0].text).value] + Values(parse, [items[0]][1..]);
  }

  /** One more piece in front does not change what is delivered. */
  lemma DeliveredThrough<J(!new)>(parse: string -> Parsed<J>, items: seq<Item>, s: State<J>, s': State<J>, r: State<J>,
      t: string)
    requires Good(parse, items) && s'.out == s.out && Delivered(parse, items, s', r, t)
    ensures Delivered(parse, items, s, r, t)
  {}

  lemma DeliveredAfter<J(!new)>(parse: string -> Parsed<J>, items: seq<Item>, s: State<J>, s': State<J>, r: State<J>,
      t: string, t': string)
    requires Good(parse, items) && items != [] && Good(parse, items[1..]) && parse(items[0].text).Got?
    requires s'.out == s.out + [parse(items[0].text).value] && Delivered(parse, items[1..], s', r, t')
    requires t == Whole(items[0]) + t'
    ensures Delivered(parse, items, s, r, t)
  {
    var (k, left) := Progress(|t'|, items[1..]);
    assert Progress(|t|, items) == (k + 1, left);
    assert t[|t| - left..] == t'[|t'| - left..];
    assert items[..k + 1][0] == items[0] && items[..k + 1][1..] == items[1..][..k];
  }

  lemma ContinuesInside(items: seq<Item>, c: string, f: string, i: nat)
    requires items != [] && Continues(items, c, f) && i <= |f| && |c| + i < |Whole(items[0])|
    ensures Continues(items, c + f[..i], f[i..]) && (c + f[..i]) + f[i..] == c + f
  {
    assert f[..i] + f[i..] == f;
  }

  lemma ContinuesBehind(items: seq<Item>, c: string, f: string)
    requires |items| > 1 && Continues(items, c, f) && WellFormed(items[1])
    requires |f| > |Whole(items[0])| - |c| + |items[1].sep|
    ensures var e := |Whole(items[0])| - |c|;
      var f' := f[e + |items[1].sep|..];
      Continues(items[1..], items[1].sep, f') && c + f == Whole(items[0]) + (items[1].sep + f')
  {
    hide WellFormed, NearEnd;
    var e, rest := |Whole(items[0])| - |c|, Text(items[1..]);
    Edges(items[1]);
    AroundTheEnd(items, c, f);
    assert rest == items[1].sep + (items[1].text + Text(items[1..][1..]));
    SplitBehind(c, f, e, Whole(items[0]), items[1].sep, rest);
  }

  lemma SplitBehind(c: string, f: string, e: nat, first: string, sep: string, rest: string)
    requires e <= |f| && c + f[..e] == first && f[e..] <= rest && sep <= rest && |f| > e + |sep|
    ensures sep + f[e + |sep|..] <= rest && c + f == first + (sep + f[e + |sep|..])
  {
    assert f[e..][..|sep|] == rest[..|sep|] == sep;
    assert f[e..] == sep + f[e + |sep|..];
    assert f == f[..e] + f[e..];
    assert c + f == (c + f[..e]) + f[e..];
  }

  lemma {:induction false} FrameDelivers<J(!new)>(parse: string -> Parsed<J>, items: seq<Item>, c: string, s: State<J>,
      f: string)
    requires JsonLike(parse) && Good(parse, items) && Continues(items, c, f) && Carries(s.last, c)
    requires !Hides(|c|, |c| + |f|, items)
    ensures Delivered(parse, items, s, TakeAll(parse, s, Cut(f, ALL)), c + f)
    decreases |f|
  {
    hide JsonLike, WellFormed, Cut, Take, Carries, Delivered, Text, Whole, FirstCut, Continues;
    if items == [] {
      EmptyContinues(c, f);
      DeliverNone(parse, s);
    } else {
      GoodHead(parse, items);
      StillInside(items, c, f);
      CutsOf(items, c, f);
      CutFirst(f);
      var e := |Whole(items[0])| - |c|;
      if FirstCut(f).None? {
        TakeOnly(parse, s, f);
        if |f| < e { DeliverPart(parse, items, c, s, f); } else { DeliverWhole(parse, items, c, s, f); }
      } else {
        var (i, d) := FirstCut(f).value;
        var p := f[..i];
        if i < e {
          ContinuesInside(items, c, f, i);
          AroundTheEnd(items, c, f);
          PartOf(items[0], c, f, i);
          TakePart(parse, items[0], c, s, p);
          HidesElsewhere(|c|, |c| + i, |c| + |f|, items);
          FrameDelivers(parse, items, c + p, Take(parse, s, p), f[i..]);
          DeliveredThrough(parse, items, s, Take(parse, s, p), TakeAll(parse, s, Cut(f, ALL)), c + f);
        } else {
          ContinuesBehind(items, c, f);
          PieceIsWhole(items, c, f);
          TakeWhole(parse, items[0], c, s, p, "");
          var sep := items[1].sep;
          SepCarries(items[1]);
          HidesBehind(items, c, f);
          FrameDelivers(parse, items[1..], sep, Take(parse, s, p), f[e + d..]);
          DeliveredAfter(parse, items, s, Take(parse, s, p), TakeAll(parse, s, Cut(f, ALL)), c + f, sep + f[e + d..]);
        }
      }
    }
  }

  lemma EmptyContinues(c: string, f: string)
    requires Continues([], c, f)
    ensures c == "" && f == ""
  {}

  lemma StillInside(items: seq<Item>, c: string, f: string)
    requires items != [] && Continues(items, c, f)
    ensures |c| < |Whole(items[0])|
  {}

  lemma PartOf(m: Item, c: string, f: string, i: nat)
    requires |c| < |Whole(m)| && i <= |f| && |c| + i < |Whole(m)|
    requires NearEnd(m, c, f)
    ensures IsPart(c + f[..i], m)
  {
    var g := f[..if |f| < |Whole(m)| - |c| then |f| else |Whole(m)| - |c|];
    assert f[..i] == g[..i];
  }

  lemma TakeOnly<J>(parse: string -> Parsed<J>, s: State<J>, f: string)
    ensures TakeAll(parse, s, [f]) == Take(parse, s, f)
  {
    assert [f][1..] == [];
  }

  lemma SepCarries(m: Item)
    requires WellFormed(m)
    ensures Carries("", m.sep) && |m.sep| + 1 != |Whole(m)| && 1 != |Whole(m)|
  {}

  /** The piece up to the end of the current message completes it. */
  lemma PieceIsWhole(items: seq<Item>, c: string, f: string)
    requires items != [] && Continues(items, c, f) && |c| + |f| >= |Whole(items[0])|
    ensures |c| < |Whole(items[0])| && c + f[..|Whole(items[0])| - |c|] == Whole(items[0]) + ""
  {
    AroundTheEnd(items, c, f);
  }

  lemma HidesBehind(items: seq<Item>, c: string, f: string)
    requires |items| > 1 && |c| < |Whole(items[0])| && |c| + |f| >= |Whole(items[0])| && WellFormed(items[1])
    ensures Hides(|items[1].sep|, |c| + |f| - |Whole(items[0])|, items[1..]) ==> Hides(|c|, |c| + |f|, items)
    ensures Hides(|c|, |c| + |f|, items) && !HidesFirst(|c|, |c| + |f|, items) ==>
      && Hides(|items[1].sep|, |c| + |f| - |Whole(items[0])|, items[1..])
      && Reached(|c|, |c| + |f|, items) == 1 + Reached(|items[1].sep|, |c| + |f| - |Whole(items[0])|, items[1..])
  {
    SepCarries(items[1]);
    HidesElsewhere(0, |items[1].sep|, |c| + |f| - |Whole(items[0])|, items[1..]);
  }
}
