/** Where a frame is cut, in literal text, and what one piece does to the receiver. */
module FrameCuts {
  import opened Texts
  import opened Framing
  import opened ChunkStreams

  /** The twelve texts a frame is cut in, behind their first part. */
  predicate CutsAt(s: string, close: string, gap: string, open: string) {
    && close in ["}", "}]"] && gap in ["", "\n", "\r"] && open in ["{", "[{"]
    && StartsWith(s, close + gap + open)
  }

  lemma MatchIs(s: string, close: string, gap: string, open: string)
    requires CutsAt(s, close, gap, open)
    ensures var shape := Shape(close == "}]", open == "[{");
      Matches(s, shape) && CloseLength(shape) == |close| && Gap(s, shape) == |gap|
  {
    var text := close + gap + open;
    assert forall i | 0 <= i < |text| :: s[i] == text[i];
    var shape := Shape(close == "}]", open == "[{");
    var t := s[|close|..];
    assert |t| > 0 && t[0] == (gap + open)[0];
    assert forall i | 0 <= i < |open| :: t[|gap|..][i] == open[i];
  }

  lemma GapText(t: string)
    ensures t[..BreakLength(t)] in ["", "\n", "\r"]
  {
    if BreakLength(t) == 1 { assert t[..1] == [t[0]]; }
  }

  lemma MatchCuts(s: string, shape: Shape) returns (gap: string)
    requires Matches(s, shape)
    ensures CutsAt(s, if shape.closes then "}]" else "}", gap, if shape.opens then "[{" else "{")
  {
    var close, open := if shape.closes then "}]" else "}", if shape.opens then "[{" else "{";
    gap := s[CloseLength(shape)..][..Gap(s, shape)];
    GapText(s[CloseLength(shape)..]);
    var text := close + gap + open;
    assert |text| <= |s| && forall i | 0 <= i < |text| :: s[i] == text[i];
    assert s[..|text|] == text;
  }

  /** None of the twelve texts starts before the given place. */
  ghost predicate UncutBefore(s: string, n: nat) {
    n <= |s| && forall i, close, gap, open | 0 <= i < n :: !CutsAt(s[i..], close, gap, open)
  }

  lemma NoMatchBefore(s: string)
    requires s != "" && UncutBefore(s, 1)
    ensures !MatchesAny(s, ALL)
  {
    hide Matches, CutsAt;
    assert s[0..] == s;
    if MatchesAny(s, ALL) {
      var gap := MatchCuts(s, TheShape(s, ALL));
      assert false;
    }
  }

  lemma UncutTail(s: string, n: nat)
    requires n > 0 && UncutBefore(s, n)
    ensures UncutBefore(s[1..], n - 1) && UncutBefore(s, 1)
  {
    hide CutsAt;
    assert forall i | 0 <= i < n - 1 :: s[1..][i..] == s[i + 1..];
  }

  lemma {:induction false} CutBehind(before: string, close: string, gap: string, open: string, rest: string)
    requires CutsAt(close + gap + open + rest, close, gap, open)
    requires UncutBefore(before + (close + gap + open + rest), |before|)
    ensures Cut(before + (close + gap + open + rest), ALL) == [before + close] + Cut(open + rest, ALL)
    decreases |before|
  {
    hide Cut, CutsAt, Matches;
    var s := close + gap + open + rest;
    if before == "" {
      assert before + s == s && before + close == close;
      MatchIs(s, close, gap, open);
      var shape := Shape(close == "}]", open == "[{");
      KnownShape(shape);
      CutAtMatch(s, ALL, shape);
      CutParts(close, gap, open, rest);
    } else {
      var t, tail := before + s, before[1..];
      UncutTail(t, |before|);
      NoMatchBefore(t);
      CutStep(t, ALL);
      assert t[0] == before[0] && t[1..] == tail + s;
      CutBehind(tail, close, gap, open, rest);
      assert [before[0]] + (tail + close) == before + close;
    }
  }

  lemma KnownShape(shape: Shape)
    ensures shape in ALL
  {
    assert ALL[0] == Shape(false, false) && ALL[1] == Shape(true, true) && ALL[2] == Shape(false, true)
      && ALL[3] == Shape(true, false);
  }

  lemma CutParts(close: string, gap: string, open: string, rest: string)
    ensures var s := close + gap + open + rest; s[..|close|] == close && s[|close| + |gap|..] == open + rest
  {}

  lemma {:induction false} CutNowhere(s: string)
    requires UncutBefore(s, |s|)
    ensures Cut(s, ALL) == [s]
    decreases |s|
  {
    hide CutsAt, Matches, Cut;
    if s == "" {
      CutEmpty(ALL);
    } else {
      UncutTail(s, |s|);
      NoMatchBefore(s);
      CutStep(s, ALL);
      CutNowhere(s[1..]);
      assert [s[0]] + s[1..] == s;
    }
  }

  /** A frame without the marker is cut behind the first `}` or `}]` that a `{` or `[{` follows, with at most one
      line break in between; the line break goes, and the rest is cut in the same way. */
  lemma FirstCut(before: string, close: string, gap: string, open: string, rest: string)
    requires close in ["}", "}]"] && gap in ["", "\n", "\r"] && open in ["{", "[{"]
    requires UncutBefore(before + (close + gap + open + rest), |before|)
    requires Unmarked(before + (close + gap + open + rest))
    ensures Dechunk(before + (close + gap + open + rest)) == [before + close] + Dechunk(open + rest)
  {
    hide Dechunk, Unmarked, Cut, UncutBefore;
    var s := close + gap + open + rest;
    assert s[..|close + gap + open|] == close + gap + open;
    CutBehind(before, close, gap, open, rest);
    DechunkIsCut(before + s);
    UnmarkedTail(before + s, |before| + |close| + |gap|);
    CutParts(close, gap, open, rest);
    assert (before + s)[|before| + |close| + |gap|..] == s[|close| + |gap|..];
    DechunkIsCut(open + rest);
  }

  /** Without any of the twelve texts and without the marker a frame is one piece. */
  lemma NoCut(s: string)
    requires UncutBefore(s, |s|) && Unmarked(s)
    ensures Dechunk(s) == [s]
  {
    hide Dechunk, Unmarked, Cut, UncutBefore;
    CutNowhere(s);
    DechunkIsCut(s);
  }

  /** At the first marker a frame is split, whatever stands around it. */
  lemma FirstMarker(before: string, rest: string)
    requires forall i | 0 <= i <= |before| :: !StartsWith((before + "|--")[i..], "|--|")
    ensures Dechunk(before + ("|--|" + rest)) == Dechunk(before) + Dechunk(rest)
  {
    hide Dechunk, Cut;
    LoneText(before);
    LoneIsUnmarked(before);
    DechunkIsCut(before);
    DechunkAtMark(before, rest);
  }

  lemma LoneText(p: string)
    requires forall i | 0 <= i <= |p| :: !StartsWith((p + "|--")[i..], "|--|")
    ensures Lone(p)
  {
    forall i | 0 <= i < |p| ensures !StartsWith(p[i..] + MARK, MARK) {
      var long, short := p[i..] + "|--|", (p + "|--")[i..];
      assert short == p[i..] + "|--";
      assert long[..4] == short[..4];
    }
  }

  /** One piece: too long with what is carried, unfinished, falsy or a message. */
  lemma PieceDoes<J>(parse: string -> Parsed<J>, s: State<J>, piece: string)
    ensures var n := Take(parse, s, piece);
      if |s.last| + |piece| > 10485760 then n == State("", s.timer, s.cleared + 1, s.out)
      else
        match parse(s.last + piece)
        case Fails => n == State(s.last + piece, true, s.cleared, s.out)
        case Falsy => n == State("", false, s.cleared, s.out)
        case Got(v) => n == State("", false, s.cleared, s.out + [v])
  {}

  /** The inside of a JSON string: other characters than quotes and backslashes, and backslashes with one each. */
  predicate StringBody(s: string)
    decreases |s|
  {
    || s == ""
    || (s[0] != '"' && s[0] != '\\' && StringBody(s[1..]))
    || (s[0] == '\\' && |s| > 1 && StringBody(s[2..]))
  }

  lemma {:induction false} ScanBody(depth: nat, s: string)
    requires StringBody(s)
    ensures ScanAll(Inside(depth, true, false), s) == Inside(depth, true, false)
    decreases |s|
  {
    var quoted := Inside(depth, true, false);
    if s == "" {
    } else if s[0] == '\\' {
      assert s[1..][1..] == s[2..];
      assert ScanAll(quoted, s) == ScanAll(Inside(depth, true, true), s[1..]) == ScanAll(quoted, s[2..]);
      ScanBody(depth, s[2..]);
    } else {
      assert ScanAll(quoted, s) == ScanAll(quoted, s[1..]);
      ScanBody(depth, s[1..]);
    }
  }

  /** A string closes nothing and opens nothing, whatever brackets and escaped quotes it contains. */
  lemma StringsAreSkipped(depth: nat, s: string)
    requires StringBody(s)
    ensures ScanAll(Inside(depth, false, false), "\"" + s + "\"") == Inside(depth, false, false)
  {
    var text := "\"" + s + "\"";
    assert text[0] == '"' && text[1..] == s + "\"";
    ScanBody(depth, s);
    ScanConcat(Inside(depth, true, false), s, "\"");
    assert "\""[1..] == "";
  }
}
