/** Incremental framing of a stream of JSON-RPC messages: what the receiver delivers however the stream is cut. */
module ChunkStreams {
  import opened Framing

  // ---------- What is assumed of JSON.parse ----------

  /** The outcome of `JSON.parse`: a throw, a value that counts as false, or any other value. */
  datatype Parsed<J> = Fails | Falsy | Got(value: J)

  /** A lexical reading of JSON text that only looks at strings and brackets. */
  datatype Scan = Blank | Inside(depth: nat, quoted: bool, escaped: bool) | Complete | Junk | Scalar

  predicate JsonSpace(c: char) { c in " \t\n\r" }

  function Next(s: Scan, c: char): Scan {
    match s
    case Blank => if JsonSpace(c) then Blank else if c in "{[" then Inside(1, false, false) else Scalar
    case Inside(depth, quoted, escaped) =>
      if escaped then Inside(depth, true, false)
      else if quoted then (if c == '\\' then Inside(depth, true, true) else Inside(depth, c != '"', false))
      else if c == '"' then Inside(depth, true, false)
      else if c in "{[" then Inside(depth + 1, false, false)
      else if c in "}]" then (if depth <= 1 then Complete else Inside(depth - 1, false, false))
      else s
    case Complete => if JsonSpace(c) then Complete else Junk
    case Junk => Junk
    case Scalar => Scalar
  }

  function ScanAll(s: Scan, t: string): Scan
    decreases |t|
  {
    if |t| == 0 then s else ScanAll(Next(s, t[0]), t[1..])
  }

  lemma {:induction false} ScanConcat(s: Scan, a: string, b: string)
    ensures ScanAll(s, a + b) == ScanAll(ScanAll(s, a), b)
    decreases |a|
  {
    if a == [] {
      assert a + b == b;
    } else {
      assert (a + b)[0] == a[0] && (a + b)[1..] == a[1..] + b;
      ScanConcat(Next(s, a[0]), a[1..], b);
    }
  }

  lemma {:induction false} JunkStays(t: string)
    ensures ScanAll(Junk, t) == Junk
    decreases |t|
  {
    if t != "" { JunkStays(t[1..]); }
  }

  /** Facts of every JSON parser: it accepts no blank, unfinished or continued text, only scalars can be
      falsy, and a line break before or after a text changes nothing. */
  ghost predicate JsonLike<J(!new)>(parse: string -> Parsed<J>) {
    && (forall t :: parse(t).Fails? || ScanAll(Blank, t).Complete? || ScanAll(Blank, t).Scalar?)
    && (forall t :: parse(t).Falsy? ==> ScanAll(Blank, t).Scalar?)
    && (forall t | t != "" && LineBreak(t[0]) :: parse(t) == parse(t[1..]))
    && (forall t | t != "" && LineBreak(t[|t| - 1]) :: parse(t) == parse(t[..|t| - 1]))
  }

  // ---------- The receiver ----------

  const MAX_CHUNK := 10 * 1024 * 1024

  /** `last` is the carried prefix, empty when there is none; `cleared` counts how often the queues were cleared. */
  datatype State<J> = State(last: string, timer: bool, cleared: nat, out: seq<J>)

  function Take<J>(parse: string -> Parsed<J>, s: State<J>, piece: string): State<J> {
    var chunk := s.last + piece;
    if |chunk| > MAX_CHUNK then s.(last := "", cleared := s.cleared + 1)
    else
      match parse(chunk)
      case Fails => s.(last := chunk, timer := true)
      case Falsy => s.(last := "", timer := false)
      case Got(v) => s.(last := "", timer := false, out := s.out + [v])
  }

  function TakeAll<J>(parse: string -> Parsed<J>, s: State<J>, pieces: seq<string>): State<J>
    decreases |pieces|
  {
    if |pieces| == 0 then s else TakeAll(parse, Take(parse, s, pieces[0]), pieces[1..])
  }

  function TakeFrames<J>(parse: string -> Parsed<J>, s: State<J>, frames: seq<string>): State<J>
    decreases |frames|
  {
    if |frames| == 0 then s else TakeFrames(parse, TakeAll(parse, s, Dechunk(frames[0])), frames[1..])
  }

  // ---------- Streams ----------

  /** One message with the separator in front of it. */
  datatype Item = Item(sep: string, text: string)

  predicate IsBatch(m: Item) { m.text != "" && m.text[0] == '[' }

  /** Nothing stands between the outer bracket of an array and the brace behind or before it, so that a frame
      can be cut there. Objects are always compact; an empty array never is. */
  predicate OpensCompact(m: Item) { IsBatch(m) ==> |m.text| > 1 && m.text[1] == '{' }
  predicate ClosesCompact(m: Item) { IsBatch(m) ==> |m.text| > 1 && m.text[|m.text| - 2] == '}' }

  /** No line break stands between two of the brackets where frames are cut: inside a string it would have
      to be escaped, elsewhere a comma separates the brackets. */
  ghost predicate Tight(text: string) {
    forall i, shape | 0 <= i < |text| && Matches(text[i..], shape) :: Gap(text[i..], shape) == 0
  }

  /** A JSON object or a JSON array, after nothing or one line break. */
  ghost predicate WellFormed(m: Item) {
    && Separator(m.sep)
    && |m.text| >= 2
    && m.text[0] in "{["
    && m.text[|m.text| - 1] == (if IsBatch(m) then ']' else '}')
    && (forall k | 0 < k < |m.text| :: ScanAll(Blank, m.text[..k]).Inside?)
    && ScanAll(Blank, m.text).Complete?
    && Tight(m.text)
  }

  predicate Separator(s: string) { s == "" || (|s| == 1 && LineBreak(s[0])) }

  /** The outer characters of a message. */
  lemma Edges(m: Item)
    requires WellFormed(m)
    ensures Separator(m.sep) && |m.text| >= 2 && m.text[0] == if IsBatch(m) then '[' else '{'
    ensures m.text[|m.text| - 1] == if IsBatch(m) then ']' else '}'
  {
    hide ScanAll, Tight;
  }

  function Whole(m: Item): string { m.sep + m.text }

  function Text(items: seq<Item>): string {
    if |items| == 0 then "" else Whole(items[0]) + Text(items[1..])
  }

  /** Every message parses and leaves room for its separators within the bound. */
  ghost predicate Good<J(!new)>(parse: string -> Parsed<J>, items: seq<Item>) {
    forall i | 0 <= i < |items| :: WellFormed(items[i]) && parse(items[i].text).Got? && |items[i].text| + 2 <= MAX_CHUNK
  }

  function Values<J>(parse: string -> Parsed<J>, items: seq<Item>): seq<J>
    requires forall i | 0 <= i < |items| :: parse(items[i].text).Got?
  {
    if |items| == 0 then [] else [parse(items[0].text).value] + Values(parse, items[1..])
  }

  /** How many messages `n` characters complete, and how many characters are left over. */
  function Progress(n: nat, items: seq<Item>): (r: (nat, nat))
    ensures r.0 <= |items| && r.1 <= n
    decreases |items|
  {
    if |items| == 0 || n < |Whole(items[0])| then (0, n)
    else
      var (k, left) := Progress(n - |Whole(items[0])|, items[1..]);
      (k + 1, left)
  }

  /** The carried prefix is what has been read of the current message; a line break in front may be gone. */
  predicate Carries(last: string, c: string) {
    last == c || (c != "" && LineBreak(c[0]) && last == c[1..])
  }

  // ---------- Scanning and parsing parts of messages ----------

  lemma ScanSkipsBreak(t: string)
    requires t != "" && LineBreak(t[0])
    ensures ScanAll(Blank, t) == ScanAll(Blank, t[1..])
  {}

  lemma ScanCarried(last: string, c: string)
    requires Carries(last, c)
    ensures ScanAll(Blank, last) == ScanAll(Blank, c)
  {
    if last != c { ScanSkipsBreak(c); }
  }

  /** A proper part of a message is never complete. */
  lemma PartIsOpen(m: Item, c: string)
    requires WellFormed(m) && c <= Whole(m) && |c| < |Whole(m)|
    ensures ScanAll(Blank, c).Blank? || ScanAll(Blank, c).Inside?
  {
    if |c| <= |m.sep| {
      assert c == Whole(m)[..|c|] == m.sep[..|c|];
      assert c == "" || c == m.sep;
    } else {
      var k := |c| - |m.sep|;
      assert c == m.sep + m.text[..k];
      ScanConcat(Blank, m.sep, m.text[..k]);
    }
  }

  lemma PartFails<J(!new)>(parse: string -> Parsed<J>, m: Item, c: string, last: string)
    requires JsonLike(parse) && WellFormed(m) && c <= Whole(m) && |c| < |Whole(m)| && Carries(last, c)
    ensures parse(last).Fails?
  {
    PartIsOpen(m, c);
    ScanCarried(last, c);
  }

  lemma ScanWhole(m: Item)
    requires WellFormed(m)
    ensures ScanAll(Blank, Whole(m)) == Complete
  {
    ScanConcat(Blank, m.sep, m.text);
  }

  /** A complete message parses, with a line break before it, after it, or both. */
  lemma WholeParses<J(!new)>(parse: string -> Parsed<J>, m: Item, after: string, last: string)
    requires JsonLike(parse) && WellFormed(m) && parse(m.text).Got?
    requires after == "" || (|after| == 1 && LineBreak(after[0]))
    requires Carries(last, Whole(m) + after)
    ensures parse(last) == parse(m.text)
  {
    hide WellFormed, ScanAll;
    var t := Whole(m) + after;
    Edges(m);
    if after != "" {
      assert t[|t| - 1] == after[0] && t[..|t| - 1] == Whole(m);
      assert last[|last| - 1] == after[0];
    }
    var u := if after == "" then last else last[..|last| - 1];
    assert parse(last) == parse(u);
    assert u == Whole(m) || (m.sep != "" && u == m.text) by {
      if last != t {
        assert t[0] == Whole(m)[0];
        assert m.sep == "" ==> Whole(m) == m.text;
        assert Whole(m)[1..] == m.text;
      }
    }
    assert m.sep == "" ==> Whole(m) == m.text;
    assert m.sep != "" ==> Whole(m)[0] == m.sep[0] && Whole(m)[1..] == m.text;
  }

  /** Text that goes on after a complete message is lost for good. */
  lemma Overrun(m: Item, after: Item, tail: string)
    requires WellFormed(m) && WellFormed(after) && tail != "" && tail[0] == after.text[0]
    ensures ScanAll(Blank, Whole(m) + after.sep + tail) == Junk
  {
    hide WellFormed;
    Edges(after);
    ScanWhole(m);
    ScanConcat(Blank, Whole(m), after.sep);
    ScanConcat(Blank, Whole(m) + after.sep, tail);
    JunkStays(tail[1..]);
  }

  lemma TrailingBreak(t: string)
    requires t != "" && LineBreak(t[|t| - 1])
    ensures ScanAll(Blank, t).Complete? <==> ScanAll(Blank, t[..|t| - 1]).Complete?
  {
    hide ScanAll;
    var front, last := t[..|t| - 1], t[|t| - 1];
    assert t == front + [last];
    ScanConcat(Blank, front, [last]);
    BreakCompletesNothing(ScanAll(Blank, front), last);
  }

  lemma BreakCompletesNothing(s: Scan, c: char)
    requires LineBreak(c)
    ensures ScanAll(s, [c]).Complete? <==> s.Complete?
  {
    assert [c][1..] == "";
    assert JsonSpace(c) && c !in "{[" && c !in "}]";
  }

  function LexicalParse(t: string): Parsed<()> {
    if ScanAll(Blank, t).Complete? then Got(()) else Fails
  }

  /** The assumption can be met: a parser that accepts exactly the lexically complete texts. */
  lemma LexicalParserIsJsonLike()
    ensures JsonLike(LexicalParse)
  {
    hide ScanAll;
    forall t: string | t != "" && LineBreak(t[0]) ensures LexicalParse(t) == LexicalParse(t[1..]) { ScanSkipsBreak(t); }
    forall t: string | t != "" && LineBreak(t[|t| - 1])
      ensures LexicalParse(t) == LexicalParse(t[..|t| - 1]) { TrailingBreak(t); }
  }
}
