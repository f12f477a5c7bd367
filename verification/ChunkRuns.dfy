/** Whole runs of frames: what comes out however a stream is cut. Delivery is complete exactly when no frame
    hides a boundary; otherwise the receiver is stuck until it passes the bound on the carried text. */
module ChunkRuns {
  import opened Framing
  import opened ChunkStreams
  import opened ChunkDelivery

  // ---------- A hidden boundary ----------

  predicate Stuck(last: string) { ScanAll(Blank, last) == Junk }

  lemma StuckMore(last: string, piece: string)
    requires Stuck(last)
    ensures Stuck(last + piece)
  {
    ScanConcat(Blank, last, piece);
    JunkStays(piece);
  }

  function Fresh<J>(): State<J> { State("", false, 0, []) }

  /** How many pieces a receiver that has read too far swallows when it carries `n` characters: all up to and
      including the one that passes the bound. */
  function Swallowed(n: nat, pieces: seq<string>): (k: nat)
    ensures k <= |pieces|
    decreases |pieces|
  {
    if |pieces| == 0 then 0
    else if n + |pieces[0]| > MAX_CHUNK then 1
    else 1 + Swallowed(n + |pieces[0]|, pieces[1..])
  }

  lemma TakeOut<J>(parse: string -> Parsed<J>, s: State<J>, t: State<J>, piece: string) returns (more: seq<J>)
    requires s.last == t.last
    ensures Take(parse, s, piece).last == Take(parse, t, piece).last
    ensures Take(parse, s, piece).out == s.out + more && Take(parse, t, piece).out == t.out + more
  {
    var chunk := s.last + piece;
    more := if |chunk| <= MAX_CHUNK && parse(chunk).Got? then [parse(chunk).value] else [];
    assert s.out + [] == s.out && t.out + [] == t.out;
  }

  /** What is delivered from now on does not depend on what has been delivered. */
  lemma {:induction false} OutAppends<J>(parse: string -> Parsed<J>, s: State<J>, t: State<J>, pieces: seq<string>)
    returns (more: seq<J>)
    requires s.last == t.last
    ensures TakeAll(parse, s, pieces).out == s.out + more && TakeAll(parse, t, pieces).out == t.out + more
    decreases |pieces|
  {
    hide Take;
    if pieces == [] {
      more := [];
    } else {
      var first := TakeOut(parse, s, t, pieces[0]);
      var s', t' := Take(parse, s, pieces[0]), Take(parse, t, pieces[0]);
      var rest := OutAppends(parse, s', t', pieces[1..]);
      more := first + rest;
      assert s.out + (first + rest) == (s.out + first) + rest && t.out + (first + rest) == (t.out + first) + rest;
    }
  }

  lemma StuckTake<J(!new)>(parse: string -> Parsed<J>, s: State<J>, piece: string)
    requires JsonLike(parse) && Stuck(s.last + piece)
    ensures var r := Take(parse, s, piece);
      r.out == s.out && r.last == if |s.last| + |piece| > MAX_CHUNK then "" else s.last + piece
  {}

  /** Once the carried text is junk, everything is swallowed until the bound is passed; with the next piece
      the receiver starts afresh. */
  lemma {:induction false} StuckSwallows<J(!new)>(parse: string -> Parsed<J>, s: State<J>, pieces: seq<string>)
    requires JsonLike(parse) && pieces != [] && Stuck(s.last + pieces[0])
    ensures TakeAll(parse, s, pieces).out
         == s.out + TakeAll(parse, Fresh(), pieces[Swallowed(|s.last|, pieces)..]).out
    decreases |pieces|
  {
    hide JsonLike, Take, Stuck;
    var p, later := pieces[0], pieces[1..];
    var r := Take(parse, s, p);
    StuckTake(parse, s, p);
    if |s.last| + |p| > MAX_CHUNK {
      var more := OutAppends(parse, r, Fresh(), later);
      assert [] + more == more;
    } else if later == [] {
      assert pieces[1..] == [] && s.out + [] == s.out;
    } else {
      StuckMore(r.last, later[0]);
      StuckSwallows(parse, r, later);
      var k := Swallowed(|r.last|, later);
      assert pieces[1 + k..] == later[k..];
    }
  }

  function Length(pieces: seq<string>): nat {
    if |pieces| == 0 then 0 else |pieces[0]| + Length(pieces[1..])
  }

  lemma {:induction false} SwallowsAll(n: nat, pieces: seq<string>)
    requires n + Length(pieces) <= MAX_CHUNK
    ensures Swallowed(n, pieces) == |pieces|
    decreases |pieces|
  {
    if pieces != [] { SwallowsAll(n + |pieces[0]|, pieces[1..]); }
  }

  lemma {:induction false} LengthConcat(a: seq<string>, b: seq<string>)
    ensures Length(a + b) == Length(a) + Length(b)
    decreases |a|
  {
    if a == [] {
      assert a + b == b;
    } else {
      assert (a + b)[0] == a[0] && (a + b)[1..] == a[1..] + b;
      LengthConcat(a[1..], b);
    }
  }

  /** No more is carried than has been read. */
  lemma {:induction false} LastIsRead<J>(parse: string -> Parsed<J>, s: State<J>, pieces: seq<string>)
    ensures |TakeAll(parse, s, pieces).last| <= |s.last| + Length(pieces)
    decreases |pieces|
  {
    if pieces != [] { LastIsRead(parse, Take(parse, s, pieces[0]), pieces[1..]); }
  }

  lemma {:induction false} CutLength(f: string)
    ensures Length(Cut(f, ALL)) <= |f|
    decreases |f|
  {
    hide Cut, FirstCut;
    CutFirst(f);
    if FirstCut(f).Some? {
      var (i, d) := FirstCut(f).value;
      CutLength(f[i + d..]);
      assert ([f[..i]] + Cut(f[i + d..], ALL))[1..] == Cut(f[i + d..], ALL);
    } else {
      assert [f][1..] == [];
    }
  }

  /** A hidden boundary is not cut. */
  lemma HiddenIsUncut(items: seq<Item>, c: string, f: string)
    requires |items| > 1 && Continues(items, c, f) && WellFormed(items[0]) && WellFormed(items[1])
    requires HidesFirst(|c|, |c| + |f|, items)
    ensures FirstCut(f).Some? ==> FirstCut(f).value.0 != |Whole(items[0])| - |c|
  {
    hide Matches, WellFormed, FirstCut, NearEnd, ClosesCompact, OpensCompact, Continues, Text, Whole;
    if FirstCut(f).Some? && FirstCut(f).value.0 == |Whole(items[0])| - |c| {
      var j, shape := FirstCutMatches(f);
      AroundTheEnd(items, c, f);
      TextHead(items[1..]);
      CutCloses(items[0], c, f, j, shape);
      CutOpens(items[1], f, j, shape, Text(items[1..]));
      assert false;
    }
  }

  lemma TextHead(items: seq<Item>)
    requires items != []
    ensures Text(items) == Whole(items[0]) + Text(items[1..]) && Whole(items[0]) == items[0].sep + items[0].text
  {}

  /** Where a message is cut off at its end, it ends compactly and the frame holds its closing brackets. */
  lemma CutCloses(m: Item, c: string, f: string, j: nat, shape: Shape)
    requires WellFormed(m) && |c| < |Whole(m)| && j < |f| && Matches(f[j..], shape)
    requires var e := |Whole(m)| - |c|; e <= |f| && j + CloseLength(shape) == e && c + f[..e] == Whole(m)
    ensures ClosesCompact(m) && !(IsBatch(m) && |c| + 1 == |Whole(m)|)
  {
    hide WellFormed, OpensAt;
    var e, w := |Whole(m)| - |c|, Whole(m);
    Edges(m);
    assert forall i | 0 <= i < e :: w[|c| + i] == (c + f[..e])[|c| + i] == f[i];
    assert f[j..][0] == f[j] && (shape.closes ==> f[j..][1] == f[j + 1]);
    assert forall i | 0 <= i < |m.text| :: w[|m.sep| + i] == m.text[i];
  }

  /** Where the next message is cut off, it starts compactly and the frame holds its opening brackets. */
  lemma CutOpens(m: Item, f: string, j: nat, shape: Shape, rest: string)
    requires WellFormed(m) && j < |f| && Matches(f[j..], shape)
    requires var e := j + CloseLength(shape); e <= |f| && f[e..] <= rest && Whole(m) <= rest && |f| > e + |m.sep|
    ensures OpensCompact(m) && !(IsBatch(m) && |f| == j + CloseLength(shape) + |m.sep| + 1)
  {
    hide WellFormed, Matches, Gap, Whole;
    var e, d := j + CloseLength(shape), Gap(f[j..], shape);
    Edges(m);
    Shorter(f[j..], shape);
    OpeningAt(f, j, shape, e, d);
    SameStart(m, f[e..], rest);
    GapAt(f[j..], shape, f[e..]);
    assert f[j..][CloseLength(shape)..] == f[e..];
    assert forall i | 0 <= i < |f| - e :: f[e + i] == f[e..][i];
  }

  /** The frame and the message agree as far as both go. */
  lemma SameStart(m: Item, u: string, rest: string)
    requires Whole(m) <= rest && u <= rest
    ensures forall i | 0 <= i < |u| && i < |m.sep| :: u[i] == m.sep[i]
    ensures forall i | 0 <= i < |m.text| && |m.sep| + i < |u| :: u[|m.sep| + i] == m.text[i]
  {
    var w := Whole(m);
    assert forall i | 0 <= i < |m.text| :: w[|m.sep| + i] == m.text[i];
    assert forall i | 0 <= i < |u| :: u[i] == rest[i];
    assert forall i | 0 <= i < |w| :: w[i] == rest[i];
  }

  lemma GapAt(s: string, shape: Shape, u: string)
    requires Matches(s, shape) && u == s[CloseLength(shape)..]
    ensures Gap(s, shape) == if u != "" && LineBreak(u[0]) then 1 else 0
  {
    hide ClosesAt, OpensAt;
  }

  lemma OpeningAt(f: string, j: nat, shape: Shape, e: nat, d: nat)
    requires j < |f| && Matches(f[j..], shape) && e == j + CloseLength(shape) && d == Gap(f[j..], shape)
    ensures e + d < |f| && f[e + d] == (if shape.opens then '[' else '{')
    ensures shape.opens ==> e + d + 1 < |f| && f[e + d + 1] == '{'
  {
    hide ClosesAt;
    Shorter(f[j..], shape);
    assert f[j..][CloseLength(shape) + d..] == f[e + d..];
  }

  /** What lies beyond the end of the current message makes the chunk useless. */
  lemma OverrunIsStuck(items: seq<Item>, c: string, last: string, f: string, i: nat)
    requires |items| > 1 && Continues(items, c, f) && WellFormed(items[0]) && WellFormed(items[1])
    requires Carries(last, c) && |c| < |Whole(items[0])|
    requires |Whole(items[0])| - |c| + |items[1].sep| < i <= |f|
    ensures Stuck(last + f[..i])
  {
    hide Carries, Continues, WellFormed, ScanAll;
    var tail := BeyondTheEnd(items, c, f, i);
    Overrun(items[0], items[1], tail);
    CarriesMore(last, c, f[..i]);
    ScanCarried(last + f[..i], c + f[..i]);
  }

  /** The part of a frame that belongs to the next message. */
  lemma BeyondTheEnd(items: seq<Item>, c: string, f: string, i: nat) returns (tail: string)
    requires |items| > 1 && Continues(items, c, f) && WellFormed(items[1])
    requires |c| < |Whole(items[0])| && |Whole(items[0])| - |c| + |items[1].sep| < i <= |f|
    ensures tail != "" && tail[0] == items[1].text[0] && c + f[..i] == Whole(items[0]) + items[1].sep + tail
  {
    hide Continues, WellFormed;
    var e, sep := |Whole(items[0])| - |c|, items[1].sep;
    AroundTheEnd(items, c, f);
    tail := f[e + |sep|..i];
    SepThenText(items);
    assert f[e..][..|sep|] == sep && f[e..][|sep|] == items[1].text[0];
    assert f[..i] == f[..e] + sep + tail by { assert f[e..][..|sep|] == f[e..e + |sep|]; }
    assert c + f[..i] == (c + f[..e]) + sep + tail;
  }

  lemma SepThenText(items: seq<Item>)
    requires |items| > 1 && WellFormed(items[1])
    ensures var rest, sep := Text(items[1..]), items[1].sep;
      |rest| > |sep| && rest[..|sep|] == sep && items[1].text != "" && rest[|sep|] == items[1].text[0]
  {}

  /** Cuts behind a hidden boundary lie behind the next message's first character. */
  lemma LateCut(items: seq<Item>, c: string, f: string)
    requires |items| > 1 && Continues(items, c, f) && WellFormed(items[0]) && WellFormed(items[1])
    requires |f| > |Whole(items[0])| - |c| + |items[1].sep|
    requires FirstCut(f).Some? && FirstCut(f).value.0 > |Whole(items[0])| - |c|
    ensures FirstCut(f).value.0 > |Whole(items[0])| - |c| + |items[1].sep|
  {
    hide Matches, WellFormed, Text, Continues, FirstCut;
    var j, shape := FirstCutMatches(f);
    ClosingIsBracket(f, j, shape);
    SepHere(items, c, f);
  }

  lemma ClosingIsBracket(f: string, j: nat, shape: Shape)
    requires j < |f| && Matches(f[j..], shape)
    ensures 0 < CloseLength(shape) && j + CloseLength(shape) <= |f| && f[j + CloseLength(shape) - 1] in "}]"
  {
    assert f[j + CloseLength(shape) - 1] == f[j..][CloseLength(shape) - 1];
  }

  lemma SepHere(items: seq<Item>, c: string, f: string)
    requires |items| > 1 && Continues(items, c, f) && WellFormed(items[1])
    requires |f| > |Whole(items[0])| - |c| + |items[1].sep|
    ensures |items[1].sep| <= 1 && (items[1].sep != "" ==> LineBreak(f[|Whole(items[0])| - |c|]))
  {
    var e := |Whole(items[0])| - |c|;
    AroundTheEnd(items, c, f);
    assert f[e] == f[e..][0] == Text(items[1..])[0];
    assert items[1].sep != "" ==> Text(items[1..])[0] == items[1].sep[0];
  }

  /** Which of the two ways a boundary is hidden: right here, or behind the current message. */
  lemma HidesCases(items: seq<Item>, x: nat, y: nat)
    requires Hides(x, y, items) && forall i | 0 <= i < |items| :: WellFormed(items[i])
    ensures |items| > 1 && y > |Whole(items[0])| + |items[1].sep|
    ensures !HidesFirst(x, y, items) ==> y >= |Whole(items[0])| && Hides(0, y - |Whole(items[0])|, items[1..])
  {
    if !HidesFirst(x, y, items) {
      assert items[1..][0] == items[1];
      HidesBeyond(items[1..], 0, y - |Whole(items[0])|);
    }
  }

  lemma HidesBeyond(items: seq<Item>, x: nat, y: nat)
    requires Hides(x, y, items)
    ensures y >= |Whole(items[0])|
  {}

  lemma GoodIsWellFormed<J(!new)>(parse: string -> Parsed<J>, items: seq<Item>)
    requires Good(parse, items)
    ensures forall i | 0 <= i < |items| :: WellFormed(items[i])
  {}

  /** After `j` of the pieces the first `k` messages are out, and with the next piece the receiver is stuck. */
  ghost predicate StuckAt<J>(parse: string -> Parsed<J>, items: seq<Item>, s: State<J>, pieces: seq<string>, k: nat,
      j: nat)
    requires k <= |items| && forall i | 0 <= i < |items| :: parse(items[i].text).Got?
  {
    && j < |pieces|
    && TakeAll(parse, s, pieces[..j]).out == s.out + Values(parse, items[..k])
    && Stuck(TakeAll(parse, s, pieces[..j]).last + pieces[j])
  }

  lemma StuckNow<J>(parse: string -> Parsed<J>, items: seq<Item>, s: State<J>, pieces: seq<string>)
    requires (forall i | 0 <= i < |items| :: parse(items[i].text).Got?) && pieces != [] && Stuck(s.last + pieces[0])
    ensures StuckAt(parse, items, s, pieces, 0, 0)
  {
    hide Stuck;
    assert s.out + Values(parse, items[..0]) == s.out;
  }

  lemma StuckLater<J>(parse: string -> Parsed<J>, items: seq<Item>, s: State<J>, p: string, later: seq<string>, k: nat,
      j: nat)
    requires k <= |items| && forall i | 0 <= i < |items| :: parse(items[i].text).Got?
    requires Take(parse, s, p).out == s.out && StuckAt(parse, items, Take(parse, s, p), later, k, j)
    ensures StuckAt(parse, items, s, [p] + later, k, j + 1)
  {
    hide Stuck, Take;
    assert ([p] + later)[..j + 1] == [p] + later[..j] && ([p] + later[..j])[1..] == later[..j];
  }

  lemma StuckBehind<J>(parse: string -> Parsed<J>, items: seq<Item>, s: State<J>, p: string, later: seq<string>, k: nat,
      j: nat)
    requires k < |items| && forall i | 0 <= i < |items| :: parse(items[i].text).Got?
    requires forall i | 0 <= i < |items[1..]| :: parse(items[1..][i].text).Got?
    requires Take(parse, s, p).out == s.out + [parse(items[0].text).value]
    requires StuckAt(parse, items[1..], Take(parse, s, p), later, k, j)
    ensures StuckAt(parse, items, s, [p] + later, k + 1, j + 1)
  {
    hide Stuck, Take;
    assert ([p] + later)[..j + 1] == [p] + later[..j] && ([p] + later[..j])[1..] == later[..j];
    assert items[..k + 1][0] == items[0] && items[..k + 1][1..] == items[1..][..k];
    assert s.out + Values(parse, items[..k + 1]) == (s.out + [parse(items[0].text).value])
      + Values(parse, items[1..][..k]);
  }

  lemma LosingFacts<J(!new)>(parse: string -> Parsed<J>, items: seq<Item>, c: string, s: State<J>, f: string)
    requires Good(parse, items) && Continues(items, c, f) && Hides(|c|, |c| + |f|, items)
    ensures |items| > 1 && WellFormed(items[0]) && WellFormed(items[1]) && Good(parse, [items[0]])
      && Good(parse, items[1..])
    ensures |c| < |Whole(items[0])| && |f| > |Whole(items[0])| - |c| + |items[1].sep|
    ensures !HidesFirst(|c|, |c| + |f|, items) ==> Hides(0, |c| + |f| - |Whole(items[0])|, items[1..])
  {
    hide WellFormed, Good, Continues, Hides, HidesFirst, Whole;
    GoodIsWellFormed(parse, items);
    HidesCases(items, |c|, |c| + |f|);
    GoodHead(parse, items);
    StillInside(items, c, f);
  }

  /** A frame that hides a boundary delivers the messages before it, and gets stuck. */
  lemma {:induction false} FrameLoses<J(!new)>(parse: string -> Parsed<J>, items: seq<Item>, c: string, s: State<J>,
      f: string)
    returns (j: nat)
    requires JsonLike(parse) && Good(parse, items) && Continues(items, c, f) && Carries(s.last, c)
    requires Hides(|c|, |c| + |f|, items)
    ensures forall i | 0 <= i < |items| :: parse(items[i].text).Got?
    ensures StuckAt(parse, items, s, Cut(f, ALL), Reached(|c|, |c| + |f|, items), j)
    decreases |f|
  {
    hide JsonLike, WellFormed, Good, Cut, Take, Carries, StuckAt, Stuck, Text, Whole, FirstCut, Continues, HidesFirst,
      Hides;
    LosingFacts(parse, items, c, s, f);
    GotAll(parse, items);
    CutFirst(f);
    if FirstCut(f).None? {
      if !HidesFirst(|c|, |c| + |f|, items) { BoundaryIsCut(items, c, f); }
      assert f[..|f|] == f;
      OverrunIsStuck(items, c, s.last, f, |f|);
      StuckNow(parse, items, s, [f]);
      j := 0;
    } else {
      var (i, d) := FirstCut(f).value;
      var p, later := f[..i], Cut(f[i + d..], ALL);
      if i < |Whole(items[0])| - |c| {
        AroundTheEnd(items, c, f);
        CutInsideFrame(items[0], c, f);
        ContinuesInside(items, c, f, i);
        PartOf(items[0], c, f, i);
        TakePart(parse, items[0], c, s, p);
        HidesElsewhere(|c|, |c| + i, |c| + |f|, items);
        j := FrameLoses(parse, items, c + p, Take(parse, s, p), f[i..]);
        StuckLater(parse, items, s, p, later, Reached(|c|, |c| + |f|, items), j);
        j := j + 1;
      } else if HidesFirst(|c|, |c| + |f|, items) {
        HiddenIsUncut(items, c, f);
        LateCut(items, c, f);
        OverrunIsStuck(items, c, s.last, f, i);
        StuckNow(parse, items, s, [p] + later);
        j := 0;
      } else {
        CutsOf(items, c, f);
        ContinuesBehind(items, c, f);
        PieceIsWhole(items, c, f);
        TakeWhole(parse, items[0], c, s, p, "");
        SepCarries(items[1]);
        HidesBehind(items, c, f);
        ShorterBehind(items, c, f);
        var sep := items[1].sep;
        j := FrameLoses(parse, items[1..], sep, Take(parse, s, p), f[i + d..]);
        StuckBehind(parse, items, s, p, later, Reached(|sep|, |sep| + |f[i + d..]|, items[1..]), j);
        j := j + 1;
      }
    }
  }

  lemma ShorterBehind(items: seq<Item>, c: string, f: string)
    requires |items| > 1 && |c| < |Whole(items[0])| && |f| > |Whole(items[0])| - |c| + |items[1].sep|
    ensures |items[1].sep| + |f[|Whole(items[0])| - |c| + |items[1].sep|..]| == |c| + |f| - |Whole(items[0])|
  {}

  // ---------- Sequences of frames ----------

  function Concat(frames: seq<string>): string {
    if |frames| == 0 then "" else frames[0] + Concat(frames[1..])
  }

  /** No frame hides a boundary; `x` characters of the current message have been read before. */
  predicate Clean(x: nat, frames: seq<string>, items: seq<Item>)
    decreases |frames|
  {
    |frames| > 0 ==>
      && !Hides(x, x + |frames[0]|, items)
      && Clean(Progress(x + |frames[0]|, items).1, frames[1..], items[Progress(x + |frames[0]|, items).0..])
  }

  lemma NoText()
    ensures Text([]) == ""
  {}

  /** What is left of the stream after `t`. */
  lemma {:induction false} ProgressText(items: seq<Item>, t: string, u: string)
    requires t + u <= Text(items)
    ensures var (k, left) := Progress(|t|, items);
      && left <= |t| && t[|t| - left..] + u <= Text(items[k..])
      && (k == |items| ==> left == 0) && (k < |items| ==> left < |Whole(items[k])|)
      && |Text(items[k..])| <= |Text(items)|
    decreases |items|
  {
    hide Text, Whole;
    if items == [] {
      NoText();
    } else if |t| < |Whole(items[0])| {
      assert t[0..] == t && items[0..] == items;
    } else {
      var n := |Whole(items[0])|;
      TextWithout(items, t, u);
      ProgressText(items[1..], t[n..], u);
      var (k, left) := Progress(|t| - n, items[1..]);
      assert t[n..][|t| - n - left..] == t[|t| - left..];
      assert items[1..][k..] == items[k + 1..];
      assert k < |items[1..]| ==> items[1..][k] == items[k + 1];
    }
  }

  lemma TextWithout(items: seq<Item>, t: string, u: string)
    requires items != [] && t + u <= Text(items) && |t| >= |Whole(items[0])|
    ensures t[|Whole(items[0])|..] + u <= Text(items[1..]) && |Text(items[1..])| <= |Text(items)|
  {
    var n := |Whole(items[0])|;
    assert Text(items)[n..] == Text(items[1..]);
    assert t[n..] + u == (t + u)[n..];
  }

  lemma {:induction false} ProgressTwice(items: seq<Item>, m: nat, n: nat)
    requires m <= n && Progress(m, items).0 <= |items|
    ensures var (k, left) := Progress(m, items);
      var (l, rest) := Progress(left + (n - m), items[k..]);
      Progress(n, items) == (k + l, rest)
    decreases |items|
  {
    if items == [] || m < |Whole(items[0])| {
      assert items[0..] == items;
    } else {
      ProgressTwice(items[1..], m - |Whole(items[0])|, n - |Whole(items[0])|);
      var k := Progress(m - |Whole(items[0])|, items[1..]).0;
      assert items[1..][k..] == items[k + 1..];
    }
  }

  lemma {:induction false} ValuesConcat<J(!new)>(parse: string -> Parsed<J>, items: seq<Item>, k: nat, n: nat)
    requires forall i | 0 <= i < |items| :: parse(items[i].text).Got?
    requires k <= n <= |items|
    ensures Values(parse, items[..n]) == Values(parse, items[..k]) + Values(parse, items[k..n])
    decreases k
  {
    if k == 0 {
      assert items[0..n] == items[..n];
    } else {
      assert items[..n][1..] == items[1..][..n - 1] && items[..k][1..] == items[1..][..k - 1]
        && items[1..][k - 1..n - 1] == items[k..n];
      ValuesConcat(parse, items[1..], k - 1, n - 1);
    }
  }

  lemma DeliveredTwice<J(!new)>(parse: string -> Parsed<J>, items: seq<Item>, s: State<J>, mid: State<J>, r: State<J>,
      t: string, u: string)
    requires Good(parse, items) && Delivered(parse, items, s, mid, t) && t + u <= Text(items)
    requires var (k, left) := Progress(|t|, items);
      (forall i | 0 <= i < |items[k..]| :: parse(items[k..][i].text).Got?)
        && Delivered(parse, items[k..], mid, r, t[|t| - left..] + u)
    ensures Delivered(parse, items, s, r, t + u)
  {
    hide Good, Text, Carries, Values, Progress, WellFormed;
    GotAll(parse, items);
    var (k, left) := Progress(|t|, items);
    var (l, rest) := Progress(left + |u|, items[k..]);
    ProgressTwice(items, |t|, |t| + |u|);
    ValuesConcat(parse, items, k, k + l);
    assert items[k..][..l] == items[k..k + l];
    SameSuffix(t, u, left, rest);
    assert s.out + Values(parse, items[..k]) + Values(parse, items[k..k + l]) == s.out + Values(parse, items[..k + l]);
  }

  lemma SameSuffix(t: string, u: string, left: nat, rest: nat)
    requires left <= |t| && rest <= left + |u|
    ensures var x := t[|t| - left..] + u; |x| == left + |u| && x[|x| - rest..] == (t + u)[|t + u| - rest..]
  {}

  lemma GoodTail<J(!new)>(parse: string -> Parsed<J>, items: seq<Item>, k: nat)
    requires Good(parse, items) && k <= |items|
    ensures Good(parse, items[k..]) && forall i | 0 <= i < |items[k..]| :: parse(items[k..][i].text).Got?
  {
    assert forall i | 0 <= i < |items[k..]| :: items[k..][i] == items[k + i];
  }

  ghost predicate Unmarkeds(frames: seq<string>) { forall i | 0 <= i < |frames| :: Unmarked(frames[i]) }

  lemma UnmarkedsHead(frames: seq<string>)
    requires Unmarkeds(frames) && frames != []
    ensures Unmarked(frames[0]) && Unmarkeds(frames[1..])
  {
    assert forall i | 0 <= i < |frames[1..]| :: frames[1..][i] == frames[i + 1];
  }

  /** What is still to come: `frames` continue the messages, of whose first one `c` has been read and `last` is
      carried. */
  ghost predicate Due<J(!new)>(parse: string -> Parsed<J>, items: seq<Item>, c: string, last: string,
      frames: seq<string>) {
    && JsonLike(parse) && Good(parse, items) && Unmarkeds(frames)
    && (if items == [] then c == "" else |c| < |Whole(items[0])|)
    && c + Concat(frames) <= Text(items) && Carries(last, c)
  }

  lemma DueFrame<J(!new)>(parse: string -> Parsed<J>, items: seq<Item>, c: string, last: string, frames: seq<string>)
    requires Due(parse, items, c, last, frames) && frames != []
    ensures var f := frames[0];
      && JsonLike(parse) && Good(parse, items) && Continues(items, c, f) && Carries(last, c)
      && Unmarked(f) && Unmarkeds(frames[1..]) && (c + f) + Concat(frames[1..]) <= Text(items)
    ensures forall i | 0 <= i < |items| :: parse(items[i].text).Got?
  {
    hide JsonLike, Good, Unmarked, Unmarkeds, Carries, Text, Whole;
    UnmarkedsHead(frames);
    GotAll(parse, items);
    Regrouped(c, frames[0], Concat(frames[1..]), Text(items));
  }

  lemma Regrouped(c: string, f: string, u: string, t: string)
    requires c + (f + u) <= t
    ensures (c + f) + u <= t && c + f <= t
  {
    assert c + (f + u) == (c + f) + u;
  }

  /** As long as no frame hides a boundary, the messages completed so far are out, in order and once each, and
      what is carried is the beginning of one message, or a separator. */
  lemma {:induction false} FramesDeliver<J(!new)>(parse: string -> Parsed<J>, items: seq<Item>, c: string, s: State<J>,
      frames: seq<string>)
    requires Due(parse, items, c, s.last, frames) && Clean(|c|, frames, items)
    ensures forall i | 0 <= i < |items| :: parse(items[i].text).Got?
    ensures Delivered(parse, items, s, TakeFrames(parse, s, frames), c + Concat(frames))
    decreases |frames|
  {
    hide Due, Good, Text, Whole, Dechunk, TakeAll, Delivered, Hides, Progress;
    if frames == [] {
      NothingDelivered(parse, items, c, s);
    } else {
      var f, u := frames[0], Concat(frames[1..]);
      assert |c + f| == |c| + |f|;
      FirstFrame(parse, items, c, s, frames);
      var (k, left) := Progress(|c + f|, items);
      var mid := TakeAll(parse, s, Dechunk(f));
      FramesDeliver(parse, items[k..], (c + f)[|c + f| - left..], mid, frames[1..]);
      DeliveredTwice(parse, items, s, mid, TakeFrames(parse, mid, frames[1..]), c + f, u);
      assert (c + f) + u == c + (f + u);
    }
  }

  /** What one frame delivers, and where that leaves the rest of the stream. */
  lemma FirstFrame<J(!new)>(parse: string -> Parsed<J>, items: seq<Item>, c: string, s: State<J>, frames: seq<string>)
    requires Due(parse, items, c, s.last, frames) && frames != [] && !Hides(|c|, |c| + |frames[0]|, items)
    ensures Good(parse, items) && (c + frames[0]) + Concat(frames[1..]) <= Text(items)
    ensures forall i | 0 <= i < |items| :: parse(items[i].text).Got?
    ensures var t, mid := c + frames[0], TakeAll(parse, s, Dechunk(frames[0]));
      var (k, left) := Progress(|t|, items);
      && Delivered(parse, items, s, mid, t)
      && Due(parse, items[k..], t[|t| - left..], mid.last, frames[1..]) && |Text(items[k..])| <= |Text(items)|
  {
    hide JsonLike, Good, Unmarked, Unmarkeds, Text, Whole, Dechunk, TakeAll, Delivered, Hides, Carries, Cut, Progress,
      Continues, Due;
    var f, u := frames[0], Concat(frames[1..]);
    DueFrame(parse, items, c, s.last, frames);
    DechunkIsCut(f);
    assert |c + f| == |c| + |f|;
    FrameDelivers(parse, items, c, s, f);
    var mid := TakeAll(parse, s, Dechunk(f));
    CarriesNow(parse, items, s, mid, c + f);
    StillDue(parse, items, c + f, mid.last, frames[1..]);
  }

  lemma StillDue<J(!new)>(parse: string -> Parsed<J>, items: seq<Item>, t: string, last: string, frames: seq<string>)
    requires JsonLike(parse) && Good(parse, items) && Unmarkeds(frames) && t + Concat(frames) <= Text(items)
    requires Carries(last, t[|t| - Progress(|t|, items).1..])
    ensures var (k, left) := Progress(|t|, items);
      Due(parse, items[k..], t[|t| - left..], last, frames) && |Text(items[k..])| <= |Text(items)|
  {
    hide JsonLike, Good, Unmarkeds, Text, Whole, Carries, Progress, Due, Concat;
    var (k, left) := Progress(|t|, items);
    ProgressText(items, t, Concat(frames));
    GoodTail(parse, items, k);
    assert items[k..] != [] ==> items[k..][0] == items[k];
    NowDue(parse, items[k..], t[|t| - left..], last, frames);
  }

  lemma NowDue<J(!new)>(parse: string -> Parsed<J>, items: seq<Item>, c: string, last: string, frames: seq<string>)
    requires JsonLike(parse) && Good(parse, items) && Unmarkeds(frames)
    requires (if items == [] then c == "" else |c| < |Whole(items[0])|)
    requires c + Concat(frames) <= Text(items) && Carries(last, c)
    ensures Due(parse, items, c, last, frames)
  {
    hide JsonLike, Good, Unmarkeds, Text, Whole, Carries, Concat;
  }

  lemma CarriesNow<J(!new)>(parse: string -> Parsed<J>, items: seq<Item>, s: State<J>, r: State<J>, t: string)
    requires Good(parse, items) && Delivered(parse, items, s, r, t)
    ensures forall i | 0 <= i < |items| :: parse(items[i].text).Got?
    ensures r.out == s.out + Values(parse, items[..Progress(|t|, items).0])
      && Carries(r.last, t[|t| - Progress(|t|, items).1..])
  {}

  lemma NothingDelivered<J(!new)>(parse: string -> Parsed<J>, items: seq<Item>, c: string, s: State<J>)
    requires Due(parse, items, c, s.last, [])
    ensures forall i | 0 <= i < |items| :: parse(items[i].text).Got?
    ensures Delivered(parse, items, s, s, c + "")
  {
    hide JsonLike, Unmarkeds, Text, Carries, Whole;
    assert c + "" == c && c[0..] == c;
    assert Progress(|c|, items) == (0, |c|);
    assert s.out + [] == s.out;
  }

  // ---------- Losing ----------

  /** All pieces of all frames. */
  function Pieces(frames: seq<string>): seq<string> {
    if |frames| == 0 then [] else Dechunk(frames[0]) + Pieces(frames[1..])
  }

  lemma {:induction false} TakeAllConcat<J>(parse: string -> Parsed<J>, s: State<J>, a: seq<string>, b: seq<string>)
    ensures TakeAll(parse, s, a + b) == TakeAll(parse, TakeAll(parse, s, a), b)
    decreases |a|
  {
    hide Take;
    if a == [] {
      assert a + b == b;
    } else {
      assert (a + b)[0] == a[0] && (a + b)[1..] == a[1..] + b;
      TakeAllConcat(parse, Take(parse, s, a[0]), a[1..], b);
    }
  }

  lemma {:induction false} TakePieces<J>(parse: string -> Parsed<J>, s: State<J>, frames: seq<string>)
    ensures TakeFrames(parse, s, frames) == TakeAll(parse, s, Pieces(frames))
    decreases |frames|
  {
    hide Dechunk;
    if frames != [] {
      TakePieces(parse, TakeAll(parse, s, Dechunk(frames[0])), frames[1..]);
      TakeAllConcat(parse, s, Dechunk(frames[0]), Pieces(frames[1..]));
    }
  }

  lemma {:induction false} PiecesLength(frames: seq<string>)
    requires Unmarkeds(frames)
    ensures Length(Pieces(frames)) <= |Concat(frames)|
    decreases |frames|
  {
    hide Dechunk, Cut, Unmarkeds;
    if frames != [] {
      UnmarkedsHead(frames);
      DechunkIsCut(frames[0]);
      CutLength(frames[0]);
      LengthConcat(Dechunk(frames[0]), Pieces(frames[1..]));
      PiecesLength(frames[1..]);
    }
  }

  /** How many messages end before the first boundary that a frame hides. */
  function ReachedBy(x: nat, frames: seq<string>, items: seq<Item>): (n: nat)
    requires !Clean(x, frames, items)
    ensures n + 1 < |items|
    decreases |frames|
  {
    if Hides(x, x + |frames[0]|, items) then Reached(x, x + |frames[0]|, items)
    else
      var (k, left) := Progress(x + |frames[0]|, items);
      k + ReachedBy(left, frames[1..], items[k..])
  }

  /** Where a receiver gets stuck: with the messages before the first hidden boundary out. */
  lemma {:induction false} FramesLose<J(!new)>(parse: string -> Parsed<J>, items: seq<Item>, c: string, s: State<J>,
      frames: seq<string>)
    returns (j: nat)
    requires Due(parse, items, c, s.last, frames) && !Clean(|c|, frames, items)
    ensures forall i | 0 <= i < |items| :: parse(items[i].text).Got?
    ensures StuckAt(parse, items, s, Pieces(frames), ReachedBy(|c|, frames, items), j)
    decreases |frames|
  {
    hide Due, JsonLike, Good, Unmarked, Unmarkeds, Text, Whole, Dechunk, TakeAll, Delivered, Hides, Carries, Cut,
      Progress, Continues, StuckAt;
    var f := frames[0];
    assert |c + f| == |c| + |f|;
    if Hides(|c|, |c| + |f|, items) {
      DueFrame(parse, items, c, s.last, frames);
      DechunkIsCut(f);
      j := FrameLoses(parse, items, c, s, f);
      StuckInFront(parse, items, s, Dechunk(f), Pieces(frames[1..]), ReachedBy(|c|, frames, items), j);
    } else {
      FirstFrame(parse, items, c, s, frames);
      var (k, left) := Progress(|c + f|, items);
      var mid := TakeAll(parse, s, Dechunk(f));
      CarriesNow(parse, items, s, mid, c + f);
      j := FramesLose(parse, items[k..], (c + f)[|c + f| - left..], mid, frames[1..]);
      StuckInRest(parse, items, s, Dechunk(f), Pieces(frames[1..]), k, ReachedBy(left, frames[1..], items[k..]), j);
      j := |Dechunk(f)| + j;
    }
  }

  lemma StuckInFront<J>(parse: string -> Parsed<J>, items: seq<Item>, s: State<J>, a: seq<string>, b: seq<string>,
      k: nat, j: nat)
    requires k <= |items| && forall i | 0 <= i < |items| :: parse(items[i].text).Got?
    requires StuckAt(parse, items, s, a, k, j)
    ensures StuckAt(parse, items, s, a + b, k, j)
  {
    hide Stuck, TakeAll, Values;
    assert (a + b)[..j] == a[..j];
  }

  lemma StuckInRest<J(!new)>(parse: string -> Parsed<J>, items: seq<Item>, s: State<J>, a: seq<string>, b: seq<string>,
      k: nat, n: nat, j: nat)
    requires k <= |items| && n <= |items[k..]| && forall i | 0 <= i < |items| :: parse(items[i].text).Got?
    requires forall i | 0 <= i < |items[k..]| :: parse(items[k..][i].text).Got?
    requires TakeAll(parse, s, a).out == s.out + Values(parse, items[..k])
    requires StuckAt(parse, items[k..], TakeAll(parse, s, a), b, n, j)
    ensures StuckAt(parse, items, s, a + b, k + n, |a| + j)
  {
    hide Stuck, TakeAll, Values;
    assert (a + b)[..|a| + j] == a + b[..j] && (a + b)[|a| + j] == b[j];
    TakeAllConcat(parse, s, a, b[..j]);
    AddValues(parse, items, s.out, k, n);
  }

  lemma AddValues<J(!new)>(parse: string -> Parsed<J>, items: seq<Item>, out: seq<J>, k: nat, n: nat)
    requires forall i | 0 <= i < |items| :: parse(items[i].text).Got?
    requires k <= |items| && n <= |items[k..]| && forall i | 0 <= i < |items[k..]| :: parse(items[k..][i].text).Got?
    ensures out + Values(parse, items[..k]) + Values(parse, items[k..][..n]) == out + Values(parse, items[..k + n])
  {
    ValuesConcat(parse, items, k, k + n);
    assert items[k..][..n] == items[k..k + n];
  }

  lemma {:induction false} ValuesLength<J(!new)>(parse: string -> Parsed<J>, items: seq<Item>)
    requires forall i | 0 <= i < |items| :: parse(items[i].text).Got?
    ensures |Values(parse, items)| == |items|
    decreases |items|
  {
    if items != [] { ValuesLength(parse, items[1..]); }
  }

  // ---------- The theorems ----------

  lemma {:induction false} ProgressAll(items: seq<Item>)
    requires forall i | 0 <= i < |items| :: WellFormed(items[i])
    ensures Progress(|Text(items)|, items) == (|items|, 0)
    decreases |items|
  {
    if items != [] { ProgressAll(items[1..]); }
  }

  /** A stream of any length whose frames hide no boundary comes out whole, once each and in order. */
  lemma CleanIsDelivered<J(!new)>(parse: string -> Parsed<J>, items: seq<Item>, frames: seq<string>)
    requires JsonLike(parse) && Good(parse, items)
    requires Concat(frames) == Text(items) && Unmarkeds(frames) && Clean(0, frames, items)
    ensures forall i | 0 <= i < |items| :: parse(items[i].text).Got?
    ensures TakeFrames(parse, Fresh(), frames).out == Values(parse, items)
  {
    hide JsonLike, Unmarkeds, Carries, WellFormed, Whole, TakeFrames, Clean, Due;
    StartOfStream(parse, items, frames);
    FramesDeliver(parse, items, "", Fresh(), frames);
    AllDelivered(parse, items, TakeFrames(parse, Fresh(), frames));
  }

  /** The values of the messages that end before the first hidden boundary. */
  function Arriving<J>(parse: string -> Parsed<J>, items: seq<Item>, frames: seq<string>): seq<J>
    requires forall i | 0 <= i < |items| :: parse(items[i].text).Got?
  {
    Values(parse, if Clean(0, frames, items) then items else items[..ReachedBy(0, frames, items)])
  }

  /** Where a receiver of the frames gets stuck. */
  ghost predicate GetsStuck<J>(parse: string -> Parsed<J>, items: seq<Item>, frames: seq<string>, j: nat)
    requires forall i | 0 <= i < |items| :: parse(items[i].text).Got?
  {
    !Clean(0, frames, items) && StuckAt(parse, items, Fresh(), Pieces(frames), ReachedBy(0, frames, items), j)
  }

  /** The pieces behind those that are swallowed. */
  function Rest<J>(parse: string -> Parsed<J>, frames: seq<string>, j: nat): seq<string> {
    var ps := Pieces(frames);
    if j > |ps| then [] else ps[j + Swallowed(|TakeAll(parse, Fresh(), ps[..j]).last|, ps[j..])..]
  }

  /** A stream of any length with a hidden boundary: the messages before it come out; from the piece that
      reaches over it on, everything is swallowed up to and including the piece that passes the bound on the
      carried text; and the rest is received as by a new receiver. */
  lemma LostExactly<J(!new)>(parse: string -> Parsed<J>, items: seq<Item>, frames: seq<string>) returns (j: nat)
    requires JsonLike(parse) && Good(parse, items)
    requires Concat(frames) <= Text(items) && Unmarkeds(frames) && !Clean(0, frames, items)
    ensures forall i | 0 <= i < |items| :: parse(items[i].text).Got?
    ensures GetsStuck(parse, items, frames, j)
    ensures TakeFrames(parse, Fresh(), frames).out
         == Arriving(parse, items, frames) + TakeAll(parse, Fresh(), Rest(parse, frames, j)).out
  {
    hide JsonLike, Good, Text, Unmarkeds, Clean, Due, Pieces, Values, Take, Stuck, TakeFrames, TakeAll, Swallowed;
    StartOfStream(parse, items, frames);
    j := FramesLose(parse, items, "", Fresh(), frames);
    var ps := Pieces(frames);
    var s, later := TakeAll(parse, Fresh(), ps[..j]), ps[j..];
    TakePieces(parse, Fresh(), frames);
    assert ps == ps[..j] + later && later[0] == ps[j];
    TakeAllConcat(parse, Fresh(), ps[..j], later);
    StuckSwallows(parse, s, later);
    assert later[Swallowed(|s.last|, later)..] == Rest(parse, frames, j);
    assert s.out == [] + Arriving(parse, items, frames) == Arriving(parse, items, frames);
  }

  /** So a receiver recovers where the bound is passed at the end of a message. */
  lemma RecoversAtBoundary<J(!new)>(parse: string -> Parsed<J>, items: seq<Item>, frames: seq<string>, k: nat,
      back: seq<string>)
    returns (j: nat)
    requires JsonLike(parse) && Good(parse, items)
    requires Concat(frames) <= Text(items) && Unmarkeds(frames) && !Clean(0, frames, items)
    requires k <= |items| && Concat(back) == Text(items[k..]) && Unmarkeds(back) && Clean(0, back, items[k..])
    ensures forall i | 0 <= i < |items| :: parse(items[i].text).Got?
    ensures forall i | 0 <= i < |items[k..]| :: parse(items[k..][i].text).Got?
    ensures GetsStuck(parse, items, frames, j)
    ensures Rest(parse, frames, j) == Pieces(back) ==>
      TakeFrames(parse, Fresh(), frames).out == Arriving(parse, items, frames) + Values(parse, items[k..])
  {
    hide JsonLike, Good, Text, Unmarkeds, Clean, Pieces, Values, Rest, Arriving, GetsStuck, TakeFrames, TakeAll;
    GoodTail(parse, items, k);
    j := LostExactly(parse, items, frames);
    CleanIsDelivered(parse, items[k..], back);
    TakePieces(parse, Fresh(), back);
  }

  /** Within the bound nothing ever comes out behind a hidden boundary. */
  lemma LostForGood<J(!new)>(parse: string -> Parsed<J>, items: seq<Item>, frames: seq<string>)
    requires JsonLike(parse) && Good(parse, items) && |Text(items)| <= MAX_CHUNK
    requires Concat(frames) <= Text(items) && Unmarkeds(frames) && !Clean(0, frames, items)
    ensures forall i | 0 <= i < |items| :: parse(items[i].text).Got?
    ensures TakeFrames(parse, Fresh(), frames).out == Arriving(parse, items, frames)
  {
    hide JsonLike, Good, Text, Unmarkeds, Clean, Pieces, Arriving, TakeFrames, TakeAll, Rest, GetsStuck;
    var j := LostExactly(parse, items, frames);
    NothingIsLeft(parse, frames, j);
    assert Arriving(parse, items, frames) + [] == Arriving(parse, items, frames);
    TakeNothing(parse, Fresh<J>());
  }

  lemma NothingIsLeft<J>(parse: string -> Parsed<J>, frames: seq<string>, j: nat)
    requires Unmarkeds(frames) && |Concat(frames)| <= MAX_CHUNK
    ensures Rest(parse, frames, j) == []
  {
    hide Unmarkeds, Concat, Pieces, TakeAll, Length, Swallowed;
    var ps := Pieces(frames);
    if j <= |ps| {
      LastIsRead(parse, Fresh<J>(), ps[..j]);
      PiecesLength(frames);
      LengthConcat(ps[..j], ps[j..]);
      assert ps == ps[..j] + ps[j..];
      SwallowsAll(|TakeAll(parse, Fresh<J>(), ps[..j]).last|, ps[j..]);
    }
  }

  lemma TakeNothing<J>(parse: string -> Parsed<J>, s: State<J>)
    ensures TakeAll(parse, s, []) == s
  {}

  /** For any stream of messages and any way to cut it into frames that do not contain the marker: all messages
      come out exactly when no frame hides a boundary, and otherwise exactly those that end before the first
      hidden one. Only a receiver that is stuck can run into the bound on the carried text. */
  lemma DeliveredExactly<J(!new)>(parse: string -> Parsed<J>, items: seq<Item>, frames: seq<string>)
    requires JsonLike(parse) && Good(parse, items)
    requires Concat(frames) == Text(items) && Unmarkeds(frames)
      && (Clean(0, frames, items) || |Text(items)| <= MAX_CHUNK)
    ensures forall i | 0 <= i < |items| :: parse(items[i].text).Got?
    ensures TakeFrames(parse, Fresh(), frames).out == Arriving(parse, items, frames)
    ensures TakeFrames(parse, Fresh(), frames).out == Values(parse, items) <==> Clean(0, frames, items)
  {
    hide JsonLike, Good, Text, Unmarkeds, TakeFrames, Clean, Values;
    if Clean(0, frames, items) {
      CleanIsDelivered(parse, items, frames);
    } else {
      LostForGood(parse, items, frames);
      var n := ReachedBy(0, frames, items);
      ValuesLength(parse, items);
      ValuesLength(parse, items[..n]);
    }
  }

  lemma StartOfStream<J(!new)>(parse: string -> Parsed<J>, items: seq<Item>, frames: seq<string>)
    requires JsonLike(parse) && Good(parse, items) && Concat(frames) <= Text(items) && Unmarkeds(frames)
    ensures Due(parse, items, "", "", frames) && "" + Concat(frames) == Concat(frames)
    ensures forall i | 0 <= i < |items| :: parse(items[i].text).Got?
  {
    hide JsonLike, Text, Unmarkeds;
    if items != [] { GoodHead(parse, items); }
  }

  lemma AllDelivered<J(!new)>(parse: string -> Parsed<J>, items: seq<Item>, r: State<J>)
    requires Good(parse, items) && Delivered(parse, items, Fresh(), r, Text(items))
    ensures r.out == Values(parse, items)
  {
    GoodIsWellFormed(parse, items);
    ProgressAll(items);
    assert items[..|items|] == items;
    assert [] + Values(parse, items) == Values(parse, items);
  }

  lemma {:induction false} ObjectsHideNothing(x: nat, y: nat, items: seq<Item>)
    requires forall i | 0 <= i < |items| :: !IsBatch(items[i])
    ensures !Hides(x, y, items)
    decreases |items|
  {
    if |items| > 1 && y >= |Whole(items[0])| {
      ObjectsHideNothing(0, y - |Whole(items[0])|, items[1..]);
    }
  }

  lemma {:induction false} ObjectsAreClean(x: nat, frames: seq<string>, items: seq<Item>)
    requires forall i | 0 <= i < |items| :: !IsBatch(items[i])
    ensures Clean(x, frames, items)
    decreases |frames|
  {
    if frames != [] {
      ObjectsHideNothing(x, x + |frames[0]|, items);
      var (k, left) := Progress(x + |frames[0]|, items);
      ObjectsAreClean(left, frames[1..], items[k..]);
    }
  }

  /** Streams of objects: at any time, however the stream has been cut so far, exactly the completed messages
      are out, in order, and what is carried is the beginning of one message, or a separator. */
  lemma ObjectsAreDelivered<J(!new)>(parse: string -> Parsed<J>, items: seq<Item>, frames: seq<string>)
    requires JsonLike(parse) && Good(parse, items) && forall i | 0 <= i < |items| :: !IsBatch(items[i])
    requires Concat(frames) <= Text(items) && Unmarkeds(frames)
    ensures forall i | 0 <= i < |items| :: parse(items[i].text).Got?
    ensures Delivered(parse, items, Fresh(), TakeFrames(parse, Fresh(), frames), Concat(frames))
  {
    hide JsonLike, Good, Text, Unmarkeds, Whole, TakeFrames, Clean, Delivered, IsBatch, Due;
    StartOfStream(parse, items, frames);
    ObjectsAreClean(0, frames, items);
    FramesDeliver(parse, items, "", Fresh(), frames);
  }
}
