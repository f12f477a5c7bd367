/** Reading the text of a type back, and what words and their order are, character by character. */
module EncodedTypes {
  import opened Wrappers
  import opened Texts
  import opened TypedData

  // ---------- Words ----------

  /** The struct a member type names: its longest start of letters, digits and underscores. */
  lemma {:induction false} WordIs(word: string, rest: string)
    requires forall c <- word :: 'a' <= c <= 'z' || 'A' <= c <= 'Z' || '0' <= c <= '9' || c == '_'
    requires rest != "" ==>
      !('a' <= rest[0] <= 'z' || 'A' <= rest[0] <= 'Z' || '0' <= rest[0] <= '9' || rest[0] == '_')
    ensures WordLength(word + rest) == |word|
    ensures Word(word + rest) == if word == "" then None else Some(word)
    decreases |word|
  {
    if word == "" {
      assert word + rest == rest;
    } else {
      assert word[0] in word && (word + rest)[1..] == word[1..] + rest;
      assert forall c <- word[1..] :: c in word;
      WordIs(word[1..], rest);
      assert (word + rest)[..|word|] == word;
    }
  }

  /** A type that starts with another character throws, in the search and in its callers. */
  lemma NoWordThrows(types: Types, typ: string, dependencies: seq<string>, fuel: nat)
    requires typ != "" ==>
      !('a' <= typ[0] <= 'z' || 'A' <= typ[0] <= 'Z' || '0' <= typ[0] <= '9' || typ[0] == '_')
    ensures GetDependencies(types, typ, dependencies, fuel) == Throws && EncodeType(types, typ, fuel) == None
  {
    WordIs("", typ);
    assert "" + typ == typ;
  }

  /** One name stands before another when it is a proper start of it, or smaller at the first difference. */
  lemma {:induction false} BeforeIs(common: string, a: string, b: string)
    requires a == "" || b == "" || a[0] != b[0]
    ensures Before(common + a, common + b) <==> b != "" && (a == "" || a[0] < b[0])
    decreases |common|
  {
    if common == "" {
      assert common + a == a && common + b == b;
    } else {
      assert (common + a)[1..] == common[1..] + a && (common + b)[1..] == common[1..] + b;
      BeforeIs(common[1..], a, b);
    }
  }

  // ---------- A reader ----------

  /** How far the first `c` is, or the length. */
  function Until(s: string, c: char): (k: nat)
    ensures k <= |s| && c !in s[..k] && (k < |s| ==> s[k] == c)
  {
    if |s| == 0 || s[0] == c then 0
    else
      var k := Until(s[1..], c);
      assert s[..k + 1] == [s[0]] + s[1..][..k];
      k + 1
  }

  /** The pieces between commas. */
  function Pieces(s: string): seq<string>
    decreases |s|
  {
    var k := Until(s, ',');
    if k == |s| then [s] else [s[..k]] + Pieces(s[k + 1..])
  }

  /** The type before the first space, the name behind it. */
  function ReadMember(s: string): Option<Member> {
    var k := Until(s, ' ');
    if k == |s| then None else Some(Member(s[..k], s[k + 1..]))
  }

  function ReadMembers(pieces: seq<string>): Option<seq<Member>> {
    if |pieces| == 0 then Some([])
    else
      var first, rest := ReadMember(pieces[0]), ReadMembers(pieces[1..]);
      if first.None? || rest.None? then None else Some([first.value] + rest.value)
  }

  /** A name, its members between parentheses, and what is left. */
  function ReadStruct(s: string): (r: Option<(string, seq<Member>, string)>)
    ensures r.Some? ==> |r.value.2| < |s|
  {
    var open := Until(s, '(');
    if open == |s| then None else
    var inner := s[open + 1..];
    var close := Until(inner, ')');
    if close == |inner| then None else
    var body := inner[..close];
    var members := if body == "" then Some([]) else ReadMembers(Pieces(body));
    if members.None? then None else Some((s[..open], members.value, inner[close + 1..]))
  }

  function ReadStructs(s: string): Option<seq<(string, seq<Member>)>>
    decreases |s|
  {
    if |s| == 0 then Some([])
    else
      var first := ReadStruct(s);
      if first.None? then None else
      var rest := ReadStructs(first.value.2);
      if rest.None? then None else Some([(first.value.0, first.value.1)] + rest.value)
  }

  // ---------- Reading what was written ----------

  /** Free of the characters the text is punctuated with. */
  predicate Clean(s: string) { forall c <- s :: c != '(' && c != ')' && c != ',' && c != ' ' }

  predicate CleanMembers(members: seq<Member>) {
    forall i | 0 <= i < |members| :: Clean(members[i].typ) && Clean(members[i].name)
  }

  lemma UntilIs(s: string, c: char, rest: string)
    requires c !in s
    ensures Until(s + ([c] + rest), c) == |s|
    ensures (s + ([c] + rest))[..|s|] == s && (s + ([c] + rest))[|s| + 1..] == rest
    ensures Until(s, c) == |s|
  {
    hide Until;
    CutAt(s, c, rest);
    var t := s + ([c] + rest);
    var k := Until(t, c);
    assert forall i | 0 <= i < k :: t[i] == t[..k][i];
  }

  lemma CutAt(s: string, c: char, rest: string)
    ensures var t := s + ([c] + rest);
      t[|s|] == c && t[..|s|] == s && t[|s| + 1..] == rest && forall i | 0 <= i < |s| :: t[i] == s[i] && s[i] in s
  {}

  lemma MemberReads(m: Member)
    requires Clean(m.typ)
    ensures ReadMember(m.typ + " " + m.name) == Some(m)
  {
    UntilIs(m.typ, ' ', m.name);
    assert m.typ + " " + m.name == m.typ + ([' '] + m.name);
  }

  lemma OneMoreRead(first: string, m: Member, pieces: seq<string>, rest: seq<Member>)
    requires ReadMember(first) == Some(m) && ReadMembers(pieces) == Some(rest)
    ensures ReadMembers([first] + pieces) == Some([m] + rest)
  {
    hide ReadMember;
    assert ([first] + pieces)[1..] == pieces;
  }

  /** The members of one struct are written separated by commas. */
  lemma {:induction false} MembersRead(members: seq<Member>)
    requires CleanMembers(members) && members != []
    ensures var text := Join(MemberTexts(members), ",");
      text != "" && ')' !in text && ReadMembers(Pieces(text)) == Some(members)
    decreases |members|
  {
    hide ReadMember, ReadMembers, Until, Pieces, Join, CleanMembers;
    var m := members[0];
    var rest := Join(MemberTexts(members[1..]), ",");
    CleanFirst(members);
    MemberReads(m);
    NoPunctuation(m);
    MoreTexts(members);
    hide MemberTexts;
    if |members| == 1 {
      OnePiece(m.typ + " " + m.name);
      NoMembers();
      OneMoreRead(m.typ + " " + m.name, m, [], []);
      assert members == [m] + [];
    } else {
      MembersRead(members[1..]);
      OneMorePiece(m.typ + " " + m.name, rest);
      OneMoreRead(m.typ + " " + m.name, m, Pieces(rest), members[1..]);
      assert [m] + members[1..] == members;
    }
  }

  lemma CleanFirst(members: seq<Member>)
    requires CleanMembers(members) && members != []
    ensures Clean(members[0].typ) && Clean(members[0].name) && CleanMembers(members[1..])
  {
    hide Clean;
  }

  lemma MoreTexts(members: seq<Member>)
    requires members != []
    ensures var first, rest := members[0].typ + " " + members[0].name, Join(MemberTexts(members[1..]), ",");
      Join(MemberTexts(members), ",") == if |members| == 1 then first else first + ([','] + rest)
  {
    JoinFirst(members[0].typ + " " + members[0].name, MemberTexts(members[1..]));
    hide Join;
  }

  lemma JoinFirst(first: string, texts: seq<string>)
    ensures Join([first] + texts, ",") == if texts == [] then first else first + ([','] + Join(texts, ","))
  {
    assert ([first] + texts)[1..] == texts;
    assert texts != [] ==> (first + ",") + Join(texts, ",") == first + ([','] + Join(texts, ","));
  }

  lemma OnePiece(s: string)
    requires ',' !in s
    ensures Pieces(s) == [s] + []
  {
    UntilIs(s, ',', "");
  }

  lemma OneMorePiece(s: string, rest: string)
    requires ',' !in s
    ensures Pieces(s + ([','] + rest)) == [s] + Pieces(rest)
  {
    UntilIs(s, ',', rest);
  }

  lemma NoMembers()
    ensures ReadMembers([]) == Some([]) && MemberTexts([]) == []
  {}

  lemma NoPunctuation(m: Member)
    requires Clean(m.typ) && Clean(m.name)
    ensures var text := m.typ + " " + m.name; ',' !in text && ')' !in text && text != ""
  {}

  /** Each struct with its own members, in the order of the names. */
  function Listed(types: Types, names: seq<string>): (r: seq<(string, seq<Member>)>)
    requires forall a <- names :: a in types
    ensures |r| == |names| && forall i | 0 <= i < |names| :: r[i] == (names[i], types[names[i]])
  {
    seq(|names|, i requires 0 <= i < |names| => (names[i], types[names[i]]))
  }

  lemma {:induction false} StructsRead(types: Types, names: seq<string>)
    requires forall a <- names :: a in types && Clean(a) && CleanMembers(types[a])
    ensures ReadStructs(StructTexts(types, names)) == Some(Listed(types, names))
    decreases |names|
  {
    hide ReadStruct, StructText, Clean, CleanMembers;
    if names != [] {
      StructsRead(types, names[1..]);
      StructReads(types, names[0], StructTexts(types, names[1..]));
      assert [(names[0], types[names[0]])] + Listed(types, names[1..]) == Listed(types, names);
    }
  }

  lemma StructReads(types: Types, a: string, rest: string)
    requires a in types && Clean(a) && CleanMembers(types[a])
    ensures StructText(types, a) + rest != ""
    ensures ReadStruct(StructText(types, a) + rest) == Some((a, types[a], rest))
  {
    hide ReadStruct, ReadMembers, Pieces, Join, Until, CleanMembers;
    var body := Join(MemberTexts(types[a]), ",");
    if types[a] == [] { NothingJoined(); } else { MembersRead(types[a]); }
    hide MemberTexts;
    assert StructText(types, a) + rest == a + (['('] + (body + ([')'] + rest)));
    hide StructText;
    OneStruct(a, body, rest, types[a]);
  }

  lemma OneStruct(a: string, body: string, rest: string, members: seq<Member>)
    requires Clean(a) && ')' !in body
    requires (if body == "" then Some([]) else ReadMembers(Pieces(body))) == Some(members)
    ensures ReadStruct(a + (['('] + (body + ([')'] + rest)))) == Some((a, members, rest))
  {
    hide ReadMembers, Pieces, Until;
    UntilIs(a, '(', body + ([')'] + rest));
    UntilIs(body, ')', rest);
  }

  lemma NothingJoined()
    ensures Join(MemberTexts([]), ",") == ""
  {}

  /** The text of a type says what it was made of: the primary struct, then the others in ascending order,
      each with its own members, types before names, in their own order. */
  lemma EncodedTypeReadsBack(types: Types, typ: string, others: seq<string>, fuel: nat)
    requires WellNamed(types) && Word(typ).Some? && Word(typ).value in types && NoCycle(types, Word(typ).value)
    requires fuel >= |types| && Ascending(others)
    requires forall y :: y in others <==> y != Word(typ).value && Reaches(types, Word(typ).value, y)
    requires forall a <- [Word(typ).value] + others :: a in types ==> Clean(a) && CleanMembers(types[a])
    ensures forall a <- others :: a in types
    ensures var text := EncodeType(types, typ, fuel);
      text.Some? && ReadStructs(text.value) == Some(Listed(types, [Word(typ).value] + others))
  {
    hide EncodeType, ReadStructs, ReadStruct, StructText, NoCycle, Reaches, Word;
    EncodeTypeIsCanonical(types, typ, others, fuel);
    var a := Word(typ).value;
    StructsRead(types, [a] + others);
    assert ([a] + others)[1..] == others;
  }

  // ---------- An example ----------

  lemma NextMember(types: Types, m: Member, rest: seq<Member>, previous: seq<string>, fuel: nat, list: seq<string>)
    requires GetDependencies(types, m.typ, previous, fuel) == Done(list)
    ensures Collect(types, [m] + rest, previous, fuel) == Collect(types, rest, previous + Fresh(list, previous), fuel)
  {
    hide GetDependencies;
    assert ([m] + rest)[1..] == rest;
  }

  /** A type that is no struct, or one already met, adds nothing. */
  lemma SkippedMember(types: Types, m: Member, rest: seq<Member>, previous: seq<string>, fuel: nat)
    requires Word(m.typ) == Some(m.typ) && (m.typ !in types || m.typ in previous)
    ensures Collect(types, [m] + rest, previous, fuel) == Collect(types, rest, previous, fuel)
  {
    hide Word;
    NextMember(types, m, rest, previous, fuel, previous);
    NothingFresh(previous, previous);
    assert previous + [] == previous;
  }

  lemma {:induction false} NothingFresh(list: seq<string>, known: seq<string>)
    requires forall x <- list :: x in known
    ensures Fresh(list, known) == []
  {
    if list != [] { NothingFresh(list[1..], known); }
  }

  lemma StructMet(types: Types, word: string, fuel: nat, list: seq<string>)
    requires Word(word) == Some(word) && word in types && fuel > 0
    requires Collect(types, types[word], [], fuel - 1) == Done(list)
    ensures GetDependencies(types, word, [], fuel) == Done([word] + list)
  {
    hide Collect, Word;
  }

  lemma NoMore(types: Types, previous: seq<string>, fuel: nat)
    ensures Collect(types, [], previous, fuel) == Done(previous)
  {}

  /** Two structs: `b` with two plain members, `a` with two members of type `b` and a plain one. */
  predicate TwoStructs(types: Types, a: string, b: string, c: string, d: string) {
    && a != b && c != a && c != b && d != a && d != b && types.Keys == {a, b}
    && |types[a]| == 3 && types[a][0].typ == b && types[a][1].typ == b && types[a][2].typ == c
    && |types[b]| == 2 && types[b][0].typ == c && types[b][1].typ == d
    && Word(a) == Some(a) && Word(b) == Some(b) && Word(c) == Some(c) && Word(d) == Some(d)
  }

  lemma SecondMet(types: Types, a: string, b: string, c: string, d: string)
    requires TwoStructs(types, a, b, c, d)
    ensures GetDependencies(types, b, [], 1) == Done([b])
  {
    hide Word, GetDependencies, Collect;
    var first, last := types[b][0], types[b][1];
    NoMore(types, [], 0);
    SkippedMember(types, last, [], [], 0);
    SkippedMember(types, first, [last], [], 0);
    assert [first] + [last] == types[b] && [last] + [] == [last];
    StructMet(types, b, 1, []);
    assert [b] + [] == [b];
  }

  lemma BothMet(types: Types, a: string, b: string, c: string, d: string)
    requires TwoStructs(types, a, b, c, d)
    ensures GetDependencies(types, a, [], 2) == Done([a, b])
  {
    SecondMet(types, a, b, c, d);
    OneFresh(b);
    hide Word, GetDependencies, Collect, Fresh;
    var first, second, last := types[a][0], types[a][1], types[a][2];
    NoMore(types, [b], 1);
    SkippedMember(types, last, [], [b], 1);
    SkippedMember(types, second, [last], [b], 1);
    NextMember(types, first, [second, last], [], 1, [b]);
    assert [last] + [] == [last] && [second] + [last] == [second, last];
    assert [first] + [second, last] == types[a];
    StructMet(types, a, 2, [b]);
    assert [a] + [b] == [a, b];
  }

  lemma OneFresh(b: string)
    ensures [] + Fresh([b], []) == [b]
  {
    assert [b][1..] == [];
  }

  lemma JoinTwo(x: string, y: string)
    ensures Join([x, y], ",") == x + "," + y
  {
    assert [x, y][1..] == [y];
  }

  lemma JoinThree(x: string, y: string, z: string)
    ensures Join([x, y, z], ",") == x + "," + Join([y, z], ",")
  {
    assert [x, y, z][1..] == [y, z];
  }

  lemma PairText(types: Types, b: string, m: Member, n: Member)
    requires b in types && types[b] == [m, n]
    ensures StructText(types, b) == b + "(" + ((m.typ + " " + m.name) + "," + (n.typ + " " + n.name)) + ")"
  {
    assert [m, n][1..] == [n] && [n][1..] == [];
    JoinTwo(m.typ + " " + m.name, n.typ + " " + n.name);
    hide Join;
    assert MemberTexts([n]) == [n.typ + " " + n.name];
    assert MemberTexts([m, n]) == [m.typ + " " + m.name, n.typ + " " + n.name];
  }

  lemma TripleText(types: Types, a: string, l: Member, m: Member, n: Member)
    requires a in types && types[a] == [l, m, n]
    ensures StructText(types, a)
      == a + "(" + ((l.typ + " " + l.name) + "," + ((m.typ + " " + m.name) + "," + (n.typ + " " + n.name))) + ")"
  {
    assert [l, m, n][1..] == [m, n] && [m, n][1..] == [n] && [n][1..] == [];
    JoinTwo(m.typ + " " + m.name, n.typ + " " + n.name);
    JoinThree(l.typ + " " + l.name, m.typ + " " + m.name, n.typ + " " + n.name);
    hide Join;
    assert MemberTexts([n]) == [n.typ + " " + n.name];
    assert MemberTexts([m, n]) == [m.typ + " " + m.name, n.typ + " " + n.name];
    assert MemberTexts([l, m, n]) == [l.typ + " " + l.name, m.typ + " " + m.name, n.typ + " " + n.name];
  }

  lemma PairEncoded(types: Types, a: string, b: string, fuel: nat)
    requires a in types && b in types && GetDependencies(types, a, [], fuel) == Done([a, b])
    ensures EncodeType(types, a, fuel) == Some(StructText(types, a) + StructText(types, b))
  {
    hide GetDependencies, StructText;
    assert [a, b][1..] == [b] && [b][1..] == [] && Sort([b]) == [b] && [a] + [b] == [a, b];
    assert StructTexts(types, [b]) == StructText(types, b);
  }

  /** A mail with two persons, as in the example of EIP-712. */
  function MailTypes(): Types {
    map["Person" := [Member("string", "name"), Member("address", "wallet")],
        "Mail" := [Member("Person", "from"), Member("Person", "to"), Member("string", "contents")]]
  }

  lemma WordAlone(word: string)
    requires word in ["Person", "Mail", "string", "address"]
    ensures Word(word) == Some(word)
  {
    assert word + "" == word;
    WordIs(word, "");
  }

  lemma MailWords()
    ensures var a, b, c, d := "Mail", "Person", "string", "address";
      && a != b && c != a && c != b && d != a && d != b
      && Word(a) == Some(a) && Word(b) == Some(b) && Word(c) == Some(c) && Word(d) == Some(d)
  {
    WordAlone("Person");
    WordAlone("Mail");
    WordAlone("string");
    WordAlone("address");
    hide Word;
    assert |"Person"| == 6 && |"Mail"| == 4 && |"address"| == 7 && "string"[0] == 's' && "Person"[0] == 'P';
  }

  lemma MailMembers(types: Types, a: string, b: string, c: string, d: string, m: seq<Member>, p: seq<Member>)
    requires a != b && c != a && c != b && d != a && d != b && types == map[b := p, a := m]
    requires |m| == 3 && m[0].typ == b && m[1].typ == b && m[2].typ == c && |p| == 2 && p[0].typ == c && p[1].typ == d
    requires Word(a) == Some(a) && Word(b) == Some(b) && Word(c) == Some(c) && Word(d) == Some(d)
    ensures TwoStructs(types, a, b, c, d) && types[a] == m && types[b] == p
  {
    hide Word;
  }

  /** The text of the two structs. */
  lemma MailText()
    ensures EncodeType(MailTypes(), "Mail", 2)
      == Some("Mail(Person from,Person to,string contents)Person(string name,address wallet)")
  {
    var types := MailTypes();
    var l, m, n := Member("Person", "from"), Member("Person", "to"), Member("string", "contents");
    var o, q := Member("string", "name"), Member("address", "wallet");
    MailWords();
    hide Word, GetDependencies, StructText, EncodeType, TwoStructs;
    MailMembers(types, "Mail", "Person", "string", "address", [l, m, n], [o, q]);
    hide MailTypes;
    BothMet(types, "Mail", "Person", "string", "address");
    TripleText(types, "Mail", l, m, n);
    PairText(types, "Person", o, q);
    PairEncoded(types, "Mail", "Person", 2);
    MailSpelled();
    PersonSpelled();
    MailJoined();
  }

  lemma MailJoined()
    ensures "Mail(Person from,Person to,string contents)" + "Person(string name,address wallet)"
      == "Mail(Person from,Person to,string contents)Person(string name,address wallet)"
  {}

  lemma MailSpelled()
    ensures "Mail" + "("
      + (("Person" + " " + "from") + "," + (("Person" + " " + "to") + "," + ("string" + " " + "contents"))) + ")"
      == "Mail(Person from,Person to,string contents)"
  {}

  lemma PersonSpelled()
    ensures "Person" + "(" + (("string" + " " + "name") + "," + ("address" + " " + "wallet")) + ")"
      == "Person(string name,address wallet)"
  {}
}
