/** Streams that lose messages: boundaries cut between the brackets of an array, and arrays that are not compact. */
module ChunkExamples {
  import opened Texts
  import opened Framing
  import opened ChunkStreams
  import opened ChunkDelivery
  import opened ChunkRuns

  lemma PairText(a: Item, b: Item)
    ensures Text([a, b]) == Whole(a) + Whole(b)
  {
    assert [a, b][1..] == [b] && [b][1..] == [];
    assert Text([b]) == Whole(b) + Text([]);
  }

  /** A batch followed by an object, cut between the last two brackets of the batch: neither ever comes out. */
  lemma CutInsideBatchEnd<J(!new)>(parse: string -> Parsed<J>, batch: Item, next: Item)
    requires JsonLike(parse) && Good(parse, [batch, next]) && IsBatch(batch) && !IsBatch(next)
    requires Unmarked(Whole(batch)[..|Whole(batch)| - 1]) && Unmarked(Whole(batch)[|Whole(batch)| - 1..] + Whole(next))
    requires |Whole(batch)| + |Whole(next)| <= MAX_CHUNK
    ensures var n := |Whole(batch)|;
      TakeFrames(parse, Fresh(), [Whole(batch)[..n - 1], Whole(batch)[n - 1..] + Whole(next)]).out == []
  {
    hide JsonLike, TakeFrames, Unmarked, WellFormed;
    var n, items := |Whole(batch)|, [batch, next];
    GoodHead(parse, items);
    var f, g := Whole(batch)[..n - 1], Whole(batch)[n - 1..] + Whole(next);
    PairText(batch, next);
    assert Concat([f, g]) == f + g by { assert [f, g][1..] == [g] && [g][1..] == []; assert Concat([g]) == g + ""; }
    assert f + g == Text(items);
    HiddenAtOnce(batch, next, f, g);
    DeliveredExactly(parse, items, [f, g]);
  }

  lemma HiddenAtOnce(batch: Item, next: Item, f: string, g: string)
    requires IsBatch(batch) && |f| + 1 == |Whole(batch)| && |g| == 1 + |Whole(next)| && next.text != ""
    ensures !Clean(0, [f, g], [batch, next]) && ReachedBy(0, [f, g], [batch, next]) == 0
  {
    var items := [batch, next];
    assert Progress(|f|, items) == (0, |f|) && items[0..] == items;
    assert HidesFirst(|f|, |f| + |g|, items);
    assert Hides(|f|, |f| + |g|, items);
    assert [f, g][1..] == [g];
    assert !Clean(|f|, [g], items);
    assert !Hides(0, |f|, items);
  }

  const BATCH := Item("", "[{}]")
  const OBJECT := Item("", "{}")

  lemma ExamplesAreWellFormed()
    ensures WellFormed(BATCH) && WellFormed(OBJECT)
  {
    hide ScanAll;
    ScanExamples();
    forall t, i, shape | t in {"[{}]", "{}"} && 0 <= i < |t| && Matches(t[i..], shape) ensures false {
      assert t[i..][0] == t[i] == '}';
      Shorter(t[i..], shape);
    }
  }

  lemma ScanExamples()
    ensures ScanAll(Blank, "[{}]") == Complete && ScanAll(Blank, "{}") == Complete
    ensures forall k | 0 < k < 4 :: ScanAll(Blank, "[{}]"[..k]).Inside?
    ensures forall k | 0 < k < 2 :: ScanAll(Blank, "{}"[..k]).Inside?
  {
    var open := Inside(1, false, false);
    assert "{}"[1..] == "}" && "}"[1..] == "" && "{"[1..] == "" && "{}"[..1] == "{";
    assert ScanAll(Blank, "{") == ScanAll(open, "")
      && ScanAll(Blank, "{}") == ScanAll(open, "}") == ScanAll(Complete, "");
    assert "[{}]"[..1] == "[" && "[{}]"[..2] == "[{" && "[{}]"[..3] == "[{}";
    assert "["[1..] == "" && "[{"[1..] == "{" && "[{}"[1..] == "{}" && "[{}]"[1..] == "{}]" && "{}]"[1..] == "}]"
      && "}]"[1..] == "]" && "]"[1..] == "";
    assert ScanAll(Blank, "[") == ScanAll(open, "");
    assert ScanAll(Blank, "[{") == ScanAll(open, "{") == ScanAll(Inside(2, false, false), "");
    assert ScanAll(Blank, "[{}") == ScanAll(open, "{}") == ScanAll(Inside(2, false, false), "}") == ScanAll(open, "");
    assert ScanAll(Blank, "[{}]") == ScanAll(open, "{}]") == ScanAll(Inside(2, false, false), "}]")
      == ScanAll(open, "]") == ScanAll(Complete, "");
  }

  lemma ExampleText()
    ensures Whole(BATCH) == "[{}]" && Whole(OBJECT) == "{}" && Text([BATCH, OBJECT]) == "[{}]{}"
    ensures "[{}]"[..3] == "[{}" && "[{}]"[3..] + "{}" == "]{}"
  {
    PairText(BATCH, OBJECT);
  }

  lemma ExampleIsGood<J(!new)>(parse: string -> Parsed<J>)
    requires parse("[{}]").Got? && parse("{}").Got?
    ensures Good(parse, [BATCH, OBJECT])
  {
    hide WellFormed;
    ExamplesAreWellFormed();
  }

  lemma OneFrameOf(f: string)
    ensures Concat([f]) == f && (Unmarked(f) ==> Unmarkeds([f]))
  {
    hide Unmarked;
    assert [f][1..] == [] && f + "" == f;
  }

  /** `[{}]` and `{}`: sent in one frame both arrive, cut before the `]` neither does. */
  lemma BatchExample<J(!new)>(parse: string -> Parsed<J>)
    requires JsonLike(parse) && parse("[{}]").Got? && parse("{}").Got?
    ensures TakeFrames(parse, Fresh(), ["[{}]{}"]).out == [parse("[{}]").value, parse("{}").value]
    ensures TakeFrames(parse, Fresh(), ["[{}", "]{}"]).out == []
  {
    hide JsonLike, TakeFrames, Good, Unmarked, Unmarkeds, Concat, Text, Clean;
    var items := [BATCH, OBJECT];
    ExampleText();
    ExampleIsGood(parse);
    NoBars("[{}]{}");
    NoBars("[{}");
    NoBars("]{}");
    CutInsideBatchEnd(parse, BATCH, OBJECT);
    OneFrameOf("[{}]{}");
    AllInOneFrame(items);
    CleanIsDelivered(parse, items, ["[{}]{}"]);
    assert items[1..] == [OBJECT] && [OBJECT][1..] == [];
    assert Values(parse, [OBJECT]) == [parse("{}").value] + [];
  }

  lemma AllInOneFrame(items: seq<Item>)
    requires items == [BATCH, OBJECT]
    ensures Clean(0, ["[{}]{}"], items)
  {
    assert items[1..] == [OBJECT];
    assert !Hides(0, 6, items);
  }

  const EMPTY := Item("", "[]")

  /** An array that is not compact, such as the empty one, is lost with whatever follows it in the same frame. */
  lemma NotCompactIsLost<J(!new)>(parse: string -> Parsed<J>, batch: Item, next: Item)
    requires JsonLike(parse) && Good(parse, [batch, next]) && |Whole(batch)| + |Whole(next)| <= MAX_CHUNK
    requires !ClosesCompact(batch) || !OpensCompact(next)
    requires Unmarked(Whole(batch) + Whole(next))
    ensures TakeFrames(parse, Fresh(), [Whole(batch) + Whole(next)]).out == []
  {
    hide JsonLike, TakeFrames, Unmarked, Unmarkeds, WellFormed, ClosesCompact, OpensCompact, Whole, Concat;
    var items, f := [batch, next], Whole(batch) + Whole(next);
    GoodHead(parse, items);
    Edges(next);
    WholeLength(next);
    PairText(batch, next);
    OneFrameOf(f);
    assert HidesFirst(0, |f|, items);
    assert !Clean(0, [f], items) && ReachedBy(0, [f], items) == 0;
    DeliveredExactly(parse, items, [f]);
  }

  lemma WholeLength(m: Item)
    ensures |Whole(m)| == |m.sep| + |m.text|
  {}

  /** `[]` and `{}` in one frame. */
  lemma EmptyBatchExample<J(!new)>(parse: string -> Parsed<J>)
    requires JsonLike(parse) && parse("[]").Got? && parse("{}").Got?
    ensures TakeFrames(parse, Fresh(), ["[]{}"]).out == []
  {
    hide JsonLike, TakeFrames, WellFormed;
    EmptyIsWellFormed();
    ExamplesAreWellFormed();
    NoBars("[]{}");
    assert Whole(EMPTY) + Whole(OBJECT) == "[]{}";
    NotCompactIsLost(parse, EMPTY, OBJECT);
  }

  lemma EmptyIsWellFormed()
    ensures WellFormed(EMPTY)
  {
    var t := "[]";
    assert t[1..] == "]" && "]"[1..] == "" && t[..1] == "[" && "["[1..] == "";
    assert ScanAll(Blank, "[") == ScanAll(Inside(1, false, false), "");
    assert ScanAll(Blank, t) == ScanAll(Inside(1, false, false), "]") == ScanAll(Complete, "");
    forall i, shape | 0 <= i < |t| ensures !Matches(t[i..], shape) {
      assert t[i..][0] == t[i];
    }
  }

  lemma NoBars(s: string)
    requires '|' !in s
    ensures Unmarked(s)
  {
    forall i | 0 <= i <= |s| ensures !StartsWith(s[i..], MARK) {
      assert |s[i..]| >= 4 ==> s[i..][..4][0] == s[i] && MARK[0] == '|';
    }
  }
}
