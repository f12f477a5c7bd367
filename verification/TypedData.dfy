/** The dependencies of a struct type in typed data, and the canonical text of a type (EIP-712, section
    "Definition of encodeType"). */
module TypedData {
  import opened Wrappers
  import opened Texts

  datatype Member = Member(typ: string, name: string)

  type Types = map<string, seq<Member>>

  predicate WordChar(c: char) { 'a' <= c <= 'z' || 'A' <= c <= 'Z' || IsDigit(c) || c == '_' }

  function WordLength(s: string): (n: nat)
    ensures n <= |s|
  {
    if |s| == 0 || !WordChar(s[0]) then 0 else 1 + WordLength(s[1..])
  }

  /** The word a type starts with, without its array suffix; None if it does not start with one. */
  function Word(typ: string): Option<string> {
    if WordLength(typ) == 0 then None else Some(typ[..WordLength(typ)])
  }

  /** Out of fuel, a throw, or the list. Fuel counts the structs on the call stack. */
  datatype Outcome = Exhausted | Throws | Done(list: seq<string>)

  function Fresh(list: seq<string>, known: seq<string>): (r: seq<string>)
    ensures forall x :: x in r <==> x in list && x !in known
  {
    if |list| == 0 then [] else (if list[0] in known then [] else [list[0]]) + Fresh(list[1..], known)
  }

  function GetDependencies(types: Types, typ: string, dependencies: seq<string>, fuel: nat): Outcome
    decreases fuel, 0
  {
    match Word(typ)
    case None => Throws
    case Some(actual) =>
      if actual in dependencies || actual !in types then Done(dependencies)
      else if fuel == 0 then Exhausted
      else
        match Collect(types, types[actual], [], fuel - 1)
        case Done(list) => Done([actual] + list)
        case other => other
  }

  /** The `reduce` over the members of one struct. */
  function Collect(types: Types, members: seq<Member>, previous: seq<string>, fuel: nat): Outcome
    decreases fuel, 1 + |members|
  {
    if |members| == 0 then Done(previous)
    else
      match GetDependencies(types, members[0].typ, previous, fuel)
      case Done(list) => Collect(types, members[1..], previous + Fresh(list, previous), fuel)
      case other => other
  }

  // ---------- The graph of struct types ----------

  /** Struct `a` has a member of struct type `b`, or of an array of it. */
  predicate Edge(types: Types, a: string, b: string) {
    a in types && b in types && exists i | 0 <= i < |types[a]| :: Word(types[a][i].typ) == Some(b)
  }

  predicate Path(types: Types, p: seq<string>) {
    && p != [] && p[0] in types
    && forall i | 0 < i < |p| :: Edge(types, p[i - 1], p[i])
  }

  ghost predicate Reaches(types: Types, a: string, b: string) {
    exists p :: Path(types, p) && p[0] == a && p[|p| - 1] == b
  }

  /** No path from `a` visits a struct twice. */
  ghost predicate NoCycle(types: Types, a: string) {
    forall p | Path(types, p) && p[0] == a :: Distinct(p)
  }

  /** Every member type starts with a word. */
  predicate WellNamed(types: Types) {
    forall a | a in types :: forall i | 0 <= i < |types[a]| :: Word(types[a][i].typ).Some?
  }

  lemma PathTail(types: Types, p: seq<string>)
    requires Path(types, p) && |p| > 1
    ensures Path(types, p[1..]) && Edge(types, p[0], p[1])
  {
    assert Edge(types, p[0], p[1]);
    forall i | 0 < i < |p[1..]| ensures Edge(types, p[1..][i - 1], p[1..][i]) { assert Edge(types, p[i], p[i + 1]); }
  }

  lemma PathCons(types: Types, a: string, p: seq<string>)
    requires Path(types, p) && Edge(types, a, p[0])
    ensures Path(types, [a] + p)
  {
    var q := [a] + p;
    forall i | 0 < i < |q| ensures Edge(types, q[i - 1], q[i]) {
      if i > 1 { assert Edge(types, p[i - 2], p[i - 1]); }
    }
  }

  lemma {:induction false} PathConcat(types: Types, p: seq<string>, q: seq<string>)
    requires Path(types, p) && Path(types, q) && p[|p| - 1] == q[0]
    ensures Path(types, p + q[1..]) && (p + q[1..])[|p + q[1..]| - 1] == q[|q| - 1]
  {
    var r := p + q[1..];
    forall i | 0 < i < |r| ensures Edge(types, r[i - 1], r[i]) {
      if i < |p| {
        assert Edge(types, p[i - 1], p[i]);
      } else {
        assert Edge(types, q[i - |p|], q[i - |p| + 1]);
      }
    }
  }

  lemma ReachesSelf(types: Types, a: string)
    requires a in types
    ensures Reaches(types, a, a)
  {
    assert Path(types, [a]);
  }

  lemma ReachesTrans(types: Types, a: string, b: string, c: string)
    requires Reaches(types, a, b) && Reaches(types, b, c)
    ensures Reaches(types, a, c)
  {
    var p :| Path(types, p) && p[0] == a && p[|p| - 1] == b;
    var q :| Path(types, q) && q[0] == b && q[|q| - 1] == c;
    PathConcat(types, p, q);
  }

  lemma ReachesEdge(types: Types, a: string, b: string)
    requires Edge(types, a, b)
    ensures Reaches(types, a, b)
  {
    assert Path(types, [a, b]);
  }

  /** What `a` reaches is itself and what its struct members reach. */
  lemma ReachesSplit(types: Types, a: string, c: string)
    requires Reaches(types, a, c)
    ensures c == a || exists b :: Edge(types, a, b) && Reaches(types, b, c)
  {
    var p :| Path(types, p) && p[0] == a && p[|p| - 1] == c;
    if |p| > 1 {
      PathTail(types, p);
      assert Reaches(types, p[1], c) by { assert p[1..][0] == p[1] && p[1..][|p[1..]| - 1] == c; }
    }
  }

  lemma ReachesInTypes(types: Types, a: string, b: string)
    requires Reaches(types, a, b)
    ensures a in types && b in types
  {
    var p :| Path(types, p) && p[0] == a && p[|p| - 1] == b;
    assert |p| > 1 ==> Edge(types, p[|p| - 2], p[|p| - 1]);
  }

  // ---------- Termination ----------

  /** The call for struct `a` comes back. */
  predicate Returns(types: Types, a: string, fuel: nat)
    requires a in types
  {
    fuel > 0 && Collect(types, types[a], [], fuel - 1).Done?
  }

  lemma {:induction false} MoreFuel(types: Types, typ: string, dependencies: seq<string>, members: seq<Member>,
      previous: seq<string>, fuel: nat, more: nat)
    requires fuel <= more
    ensures !GetDependencies(types, typ, dependencies, fuel).Exhausted? ==>
      GetDependencies(types, typ, dependencies, more) == GetDependencies(types, typ, dependencies, fuel)
    ensures !Collect(types, members, previous, fuel).Exhausted? ==>
      Collect(types, members, previous, more) == Collect(types, members, previous, fuel)
    decreases fuel, |members|
  {
    if Word(typ).Some? && Word(typ).value !in dependencies && Word(typ).value in types && fuel > 0 {
      MoreFuel(types, typ, dependencies, types[Word(typ).value], [], fuel - 1, more - 1);
    }
    if members != [] {
      MoreFuelMember(types, members[0].typ, previous, fuel, more);
      if GetDependencies(types, members[0].typ, previous, fuel).Done? {
        var list := GetDependencies(types, members[0].typ, previous, fuel).list;
        MoreFuel(types, typ, dependencies, members[1..], previous + Fresh(list, previous), fuel, more);
      }
    }
  }

  lemma MoreFuelMember(types: Types, typ: string, dependencies: seq<string>, fuel: nat, more: nat)
    requires fuel <= more
    ensures !GetDependencies(types, typ, dependencies, fuel).Exhausted? ==>
      GetDependencies(types, typ, dependencies, more) == GetDependencies(types, typ, dependencies, fuel)
    decreases fuel, 0
  {
    if Word(typ).Some? && Word(typ).value !in dependencies && Word(typ).value in types && fuel > 0 {
      MoreFuel(types, typ, dependencies, types[Word(typ).value], [], fuel - 1, more - 1);
    }
  }

  /** Everything collected has come back, and every struct member has been collected. */
  lemma {:induction false} CollectedReturns(types: Types, members: seq<Member>, previous: seq<string>, fuel: nat)
    requires Collect(types, members, previous, fuel).Done?
    requires forall x <- previous :: x in types && Returns(types, x, fuel)
    ensures var list := Collect(types, members, previous, fuel).list;
      && (forall x <- previous :: x in list)
      && (forall x <- list :: x in types && Returns(types, x, fuel))
      && (forall i | 0 <= i < |members| ::
        Word(members[i].typ).Some? && (Word(members[i].typ).value in types ==> Word(members[i].typ).value in list))
    decreases fuel, |members|
  {
    if members != [] {
      var first := GetDependencies(types, members[0].typ, previous, fuel);
      var actual := Word(members[0].typ).value;
      if actual !in previous && actual in types {
        CollectedReturns(types, types[actual], [], fuel - 1);
        var sub := Collect(types, types[actual], [], fuel - 1).list;
        forall x | x in sub ensures Returns(types, x, fuel) {
          MoreFuel(types, "", [], types[x], [], fuel - 2, fuel - 1);
        }
      }
      var next := previous + Fresh(first.list, previous);
      CollectedReturns(types, members[1..], next, fuel);
      assert forall i | 0 < i < |members| :: members[i] == members[1..][i - 1];
    }
  }

  /** If a struct comes back, so does each of its struct members, with less fuel. */
  lemma ReturnsNext(types: Types, a: string, b: string, fuel: nat)
    requires Edge(types, a, b) && Returns(types, a, fuel)
    ensures Returns(types, b, fuel - 1)
  {
    CollectedReturns(types, types[a], [], fuel - 1);
  }

  /** A struct that comes back has no path longer than the fuel. */
  lemma {:induction false} ReturnsBoundsPaths(types: Types, p: seq<string>, fuel: nat)
    requires Path(types, p) && Returns(types, p[0], fuel)
    ensures |p| <= fuel
    decreases |p|
  {
    if |p| > 1 {
      PathTail(types, p);
      ReturnsNext(types, p[0], p[1], fuel);
      ReturnsBoundsPaths(types, p[1..], fuel - 1);
    }
  }

  ghost predicate PathsWithin(types: Types, a: string, n: nat) {
    forall p | Path(types, p) && p[0] == a :: |p| <= n
  }

  lemma PathsWithinNext(types: Types, a: string, b: string, n: nat)
    requires Edge(types, a, b) && PathsWithin(types, a, n)
    ensures n > 0 && PathsWithin(types, b, n - 1)
  {
    assert Path(types, [a]);
    forall p | Path(types, p) && p[0] == b ensures |p| <= n - 1 {
      PathCons(types, a, p);
      assert ([a] + p)[0] == a;
    }
  }

  lemma EdgeAt(types: Types, a: string, k: nat)
    requires WellNamed(types) && a in types && k < |types[a]|
    ensures Word(types[a][k].typ).Some?
    ensures Word(types[a][k].typ).value in types ==> Edge(types, a, Word(types[a][k].typ).value)
  {}

  lemma {:induction false} BoundedCollects(types: Types, a: string, k: nat, previous: seq<string>, fuel: nat)
    requires WellNamed(types) && a in types && k <= |types[a]| && PathsWithin(types, a, fuel + 1)
    ensures Collect(types, types[a][k..], previous, fuel).Done?
    decreases fuel, |types[a]| - k
  {
    hide WellNamed, PathsWithin, Edge, Word;
    if k < |types[a]| {
      var members := types[a][k..];
      assert members[0] == types[a][k] && members[1..] == types[a][k + 1..];
      EdgeAt(types, a, k);
      var b := Word(types[a][k].typ).value;
      if b !in previous && b in types {
        PathsWithinNext(types, a, b, fuel + 1);
        PathsNonZero(types, b, fuel);
        BoundedCollects(types, b, 0, [], fuel - 1);
        assert types[b][0..] == types[b];
      }
      var list := GetDependencies(types, members[0].typ, previous, fuel).list;
      BoundedCollects(types, a, k + 1, previous + Fresh(list, previous), fuel);
    }
  }

  lemma PathsNonZero(types: Types, a: string, n: nat)
    requires a in types && PathsWithin(types, a, n)
    ensures n > 0
  {
    assert Path(types, [a]);
  }

  lemma {:induction false} DistinctFits<T>(s: seq<T>, all: set<T>)
    requires Distinct(s) && forall x <- s :: x in all
    ensures |s| <= |all|
    decreases |s|
  {
    if s != [] {
      var front, last := s[..|s| - 1], s[|s| - 1];
      assert last !in front;
      assert forall x <- front :: x in s;
      DistinctFits(front, all - {last});
    }
  }

  lemma PathInTypes(types: Types, p: seq<string>)
    requires Path(types, p)
    ensures forall x <- p :: x in types
  {
    forall i | 0 <= i < |p| ensures p[i] in types {
      if i > 0 { assert Edge(types, p[i - 1], p[i]); }
    }
  }

  lemma NoCycleBoundsPaths(types: Types, a: string)
    requires NoCycle(types, a)
    ensures PathsWithin(types, a, |types|)
  {
    forall p | Path(types, p) && p[0] == a ensures |p| <= |types| {
      PathInTypes(types, p);
      DistinctFits(p, types.Keys);
    }
  }

  lemma PathPrefix(types: Types, p: seq<string>, n: nat)
    requires Path(types, p) && 0 < n <= |p|
    ensures Path(types, p[..n])
  {
    forall i | 0 < i < n ensures Edge(types, p[..n][i - 1], p[..n][i]) { assert Edge(types, p[i - 1], p[i]); }
  }

  lemma PathSuffix(types: Types, p: seq<string>, n: nat)
    requires Path(types, p) && n < |p|
    ensures Path(types, p[n..])
  {
    PathInTypes(types, p);
    forall i | 0 < i < |p[n..]|
      ensures Edge(types, p[n..][i - 1], p[n..][i]) { assert Edge(types, p[n + i - 1], p[n + i]); }
  }

  /** Going round a cycle again and again makes a path as long as one likes. */
  lemma {:induction false} CycleLengthens(types: Types, p: seq<string>, i: nat, j: nat, n: nat) returns (q: seq<string>)
    requires Path(types, p) && i < j < |p| && p[i] == p[j]
    ensures Path(types, q) && q[0] == p[0] && q[|q| - 1] == p[j] && |q| > n
    decreases n
  {
    PathPrefix(types, p, j + 1);
    if n == 0 {
      q := p[..j + 1];
    } else {
      q := CycleLengthens(types, p, i, j, n - 1);
      PathSuffix(types, p, i);
      PathPrefix(types, p[i..], j - i + 1);
      var round := p[i..][..j - i + 1];
      PathConcat(types, q, round);
      q := q + round[1..];
    }
  }

  lemma CycleIsUnbounded(types: Types, a: string, n: nat)
    requires !NoCycle(types, a)
    ensures !PathsWithin(types, a, n)
  {
    var p :| Path(types, p) && p[0] == a && !Distinct(p);
    var i, j :| 0 <= i < j < |p| && p[i] == p[j];
    var q := CycleLengthens(types, p, i, j, n);
  }

  lemma NoCycleReturns(types: Types, a: string)
    requires WellNamed(types) && a in types && NoCycle(types, a)
    ensures Returns(types, a, |types|)
  {
    NoCycleBoundsPaths(types, a);
    assert |types| > 0 by { assert a in types.Keys; }
    BoundedCollects(types, a, 0, [], |types| - 1);
    assert types[a][0..] == types[a];
  }

  lemma ReturnsHasNoCycle(types: Types, a: string, fuel: nat)
    requires a in types && Returns(types, a, fuel)
    ensures NoCycle(types, a)
  {
    forall p | Path(types, p) && p[0] == a ensures |p| <= fuel { ReturnsBoundsPaths(types, p, fuel); }
    if !NoCycle(types, a) { CycleIsUnbounded(types, a, fuel); }
  }

  /** The search for a struct's dependencies comes back, with some fuel, exactly when no cycle can be reached
      from the struct; the number of struct types is then enough. */
  lemma TerminatesExactly(types: Types, a: string)
    requires WellNamed(types) && a in types
    ensures (exists fuel: nat :: Returns(types, a, fuel)) <==> NoCycle(types, a)
    ensures NoCycle(types, a) ==> Returns(types, a, |types|)
  {
    hide Returns, NoCycle, WellNamed;
    if NoCycle(types, a) { NoCycleReturns(types, a); }
    forall fuel: nat | Returns(types, a, fuel) ensures NoCycle(types, a) { ReturnsHasNoCycle(types, a, fuel); }
  }

  /** A struct `A` with a member of type `A`: whatever the fuel, the search has not come back. */
  lemma {:induction false} SelfReference(fuel: nat)
    ensures GetDependencies(map["A" := [Member("A", "next")]], "A", [], fuel) == Exhausted
  {
    var types := map["A" := [Member("A", "next")]];
    assert "A"[1..] == "" && WordLength("A") == 1 && "A"[..1] == "A";
    assert Word("A") == Some("A");
    if fuel > 0 {
      SelfReference(fuel - 1);
      assert Collect(types, [Member("A", "next")], [], fuel - 1) == Exhausted;
    }
  }

  // ---------- What is found ----------

  /** With an element it also holds what the element reaches. */
  ghost predicate ClosedUnder(types: Types, s: seq<string>) {
    forall x, y | x in s && Reaches(types, x, y) :: y in s
  }

  /** A member that starts at a struct type, from which `y` can be reached. */
  ghost predicate MemberReaches(types: Types, m: Member, y: string) {
    Word(m.typ).Some? && Word(m.typ).value in types && Reaches(types, Word(m.typ).value, y)
  }

  /** One call returns its dependencies untouched, or the struct and what it reaches. */
  lemma {:induction false} CollectsReachable(types: Types, members: seq<Member>, previous: seq<string>, fuel: nat)
    requires Collect(types, members, previous, fuel).Done? && ClosedUnder(types, previous) && Distinct(previous)
    ensures var list := Collect(types, members, previous, fuel).list;
      && ClosedUnder(types, list) && Distinct(list)
      && (forall y :: y in list <==> y in previous || exists i | 0 <= i < |members| ::
        MemberReaches(types, members[i], y))
    decreases fuel, 2 + |members|
  {
    hide GetDependencies, MemberReaches, ClosedUnder;
    if members != [] {
      var first := GetDependencies(types, members[0].typ, previous, fuel).list;
      var next := previous + Fresh(first, previous);
      CallReachable(types, members[0], previous, fuel);
      CollectsReachable(types, members[1..], next, fuel);
      var list := Collect(types, members, previous, fuel).list;
      forall y ensures y in list <==> y in previous || exists i | 0 <= i < |members| ::
        MemberReaches(types, members[i], y) {
        if i :| 0 <= i < |members| && MemberReaches(types, members[i], y) {
          assert i > 0 ==> MemberReaches(types, members[1..][i - 1], y);
        }
        if i :| 0 <= i < |members[1..]| && MemberReaches(types, members[1..][i], y) {
          assert MemberReaches(types, members[i + 1], y);
        }
      }
    }
  }

  lemma {:induction false} CallReachable(types: Types, m: Member, previous: seq<string>, fuel: nat)
    requires GetDependencies(types, m.typ, previous, fuel).Done? && ClosedUnder(types, previous) && Distinct(previous)
    ensures var next := previous + Fresh(GetDependencies(types, m.typ, previous, fuel).list, previous);
      && ClosedUnder(types, next) && Distinct(next)
      && (forall y :: y in next <==> y in previous || MemberReaches(types, m, y))
    decreases fuel, 1
  {
    var a := Word(m.typ).value;
    var list := GetDependencies(types, m.typ, previous, fuel).list;
    if a in previous || a !in types {
      NothingFresh(previous);
      if a in types { assert forall y | Reaches(types, a, y) :: y in previous; }
      assert previous + [] == previous;
    } else {
      StructReachable(types, a, fuel);
      FreshDistinct(list, previous);
      forall x, y | x in list && Reaches(types, x, y) ensures y in list { ReachesTrans(types, a, x, y); }
    }
  }

  lemma NothingFresh(previous: seq<string>)
    ensures Fresh(previous, previous) == []
  {
    assert forall x :: x !in Fresh(previous, previous);
    if Fresh(previous, previous) != [] { assert Fresh(previous, previous)[0] in Fresh(previous, previous); }
  }

  lemma {:induction false} FreshDistinct(list: seq<string>, known: seq<string>)
    requires Distinct(list) && Distinct(known)
    ensures Distinct(Fresh(list, known)) && Distinct(known + Fresh(list, known))
    decreases |list|
  {
    if list != [] {
      FreshDistinct(list[1..], known);
      var rest := Fresh(list[1..], known);
      assert list[0] !in rest by { assert forall i | 0 < i < |list| :: list[i] != list[0]; }
    }
    var f := Fresh(list, known);
    forall i, j | 0 <= i < j < |known + f| ensures (known + f)[i] != (known + f)[j] {
      if i < |known| <= j { assert f[j - |known|] in f; }
    }
  }

  /** The struct first, then exactly the struct types it reaches, none twice. */
  lemma {:induction false} StructReachable(types: Types, a: string, fuel: nat)
    requires a in types && Returns(types, a, fuel)
    ensures var list := [a] + Collect(types, types[a], [], fuel - 1).list;
      Distinct(list) && forall y :: y in list <==> Reaches(types, a, y)
    decreases fuel, 0
  {
    var sub := Collect(types, types[a], [], fuel - 1).list;
    CollectsReachable(types, types[a], [], fuel - 1);
    forall y ensures y in [a] + sub <==> Reaches(types, a, y) {
      if i :| 0 <= i < |types[a]| && MemberReaches(types, types[a][i], y) {
        ReachesInTypes(types, Word(types[a][i].typ).value, y);
        assert Edge(types, a, Word(types[a][i].typ).value);
        ReachesEdge(types, a, Word(types[a][i].typ).value);
        ReachesTrans(types, a, Word(types[a][i].typ).value, y);
      }
      ReachesSelf(types, a);
      if Reaches(types, a, y) {
        ReachesSplit(types, a, y);
        if b :| Edge(types, a, b) && Reaches(types, b, y) {
          var i :| 0 <= i < |types[a]| && Word(types[a][i].typ) == Some(b);
          assert MemberReaches(types, types[a][i], y);
        }
      }
    }
    assert a !in sub by { NotBelowItself(types, a, fuel, sub); }
  }

  lemma NotBelowItself(types: Types, a: string, fuel: nat, sub: seq<string>)
    requires a in types && Returns(types, a, fuel) && sub == Collect(types, types[a], [], fuel - 1).list
    ensures a !in sub
  {
    ReturnsSooner(types, a, fuel);
  }

  /** A struct that comes back does not come back below itself: take the least fuel. */
  lemma {:induction false} ReturnsSooner(types: Types, a: string, fuel: nat)
    requires a in types && Returns(types, a, fuel)
    ensures a !in Collect(types, types[a], [], fuel - 1).list
    decreases fuel
  {
    hide Collect, GetDependencies;
    CollectedReturns(types, types[a], [], fuel - 1);
    if a in Collect(types, types[a], [], fuel - 1).list {
      ReturnsSooner(types, a, fuel - 1);
      MoreFuel(types, "", [], types[a], [], fuel - 2, fuel - 1);
    }
  }

  /** `getDependencies` on a type of typed data without cycles below it: the struct it names comes first,
      and the list is exactly the struct types reachable from it, none twice. */
  lemma DependenciesAreReachable(types: Types, typ: string, fuel: nat)
    requires WellNamed(types) && Word(typ).Some? && Word(typ).value in types && NoCycle(types, Word(typ).value)
    requires fuel >= |types|
    ensures var a := Word(typ).value;
      var r := GetDependencies(types, typ, [], fuel);
      && r.Done? && r.list != [] && r.list[0] == a && Distinct(r.list)
      && forall y :: y in r.list <==> Reaches(types, a, y)
  {
    hide Reaches, NoCycle, WellNamed, Word, Collect;
    var a := Word(typ).value;
    NoCycleReturns(types, a);
    MoreFuel(types, "", [], types[a], [], |types| - 1, fuel - 1);
    StructReachable(types, a, fuel);
  }

  // ---------- The text of a type ----------

  /** The default order of `sort()`: by code unit, a prefix first. */
  predicate Before(a: string, b: string) {
    b != "" && (a == "" || a[0] < b[0] || (a[0] == b[0] && Before(a[1..], b[1..])))
  }

  predicate Ascending(s: seq<string>) { forall i, j | 0 <= i < j < |s| :: Before(s[i], s[j]) }

  lemma {:induction false} BeforeTotal(a: string, b: string)
    ensures !Before(a, a)
    ensures a != b ==> Before(a, b) || Before(b, a)
    ensures !(Before(a, b) && Before(b, a))
    decreases |a|
  {
    if a != "" { BeforeTotal(a[1..], a[1..]); }
    if a != "" && b != "" {
      BeforeTotal(a[1..], b[1..]);
      if a[0] == b[0] && a[1..] == b[1..] {
        assert a == [a[0]] + a[1..] && b == [b[0]] + b[1..];
      }
    }
  }

  lemma {:induction false} BeforeTrans(a: string, b: string, c: string)
    requires Before(a, b) && Before(b, c)
    ensures Before(a, c)
    decreases |a|
  {
    if a != "" && a[0] == b[0] && b[0] == c[0] { BeforeTrans(a[1..], b[1..], c[1..]); }
  }

  function Insert(x: string, s: seq<string>): (r: seq<string>)
    ensures forall y :: y in r <==> y == x || y in s
  {
    if |s| == 0 || Before(x, s[0]) then [x] + s else [s[0]] + Insert(x, s[1..])
  }

  function Sort(s: seq<string>): (r: seq<string>)
    ensures forall y :: y in r <==> y in s
  {
    if |s| == 0 then [] else Insert(s[0], Sort(s[1..]))
  }

  lemma AscendingCons(x: string, s: seq<string>)
    requires Ascending(s) && forall y <- s :: Before(x, y)
    ensures Ascending([x] + s)
  {
    var r := [x] + s;
    forall i, j | 0 <= i < j < |r| ensures Before(r[i], r[j]) {
      assert r[j] == s[j - 1] && s[j - 1] in s;
    }
  }

  lemma {:induction false} InsertAscends(x: string, s: seq<string>)
    requires Ascending(s) && x !in s
    ensures Ascending(Insert(x, s))
    decreases |s|
  {
    if s == [] {
    } else if Before(x, s[0]) {
      forall y | y in s ensures Before(x, y) {
        var i :| 0 <= i < |s| && s[i] == y;
        if i > 0 { BeforeTrans(x, s[0], s[i]); }
      }
      AscendingCons(x, s);
    } else {
      BeforeTotal(x, s[0]);
      assert forall i | 0 <= i < |s[1..]| :: s[1..][i] == s[i + 1];
      InsertAscends(x, s[1..]);
      forall y | y in Insert(x, s[1..]) ensures Before(s[0], y) {
        if y != x {
          var i :| 0 <= i < |s[1..]| && s[1..][i] == y;
          assert s[i + 1] == y;
        }
      }
      AscendingCons(s[0], Insert(x, s[1..]));
    }
  }

  lemma {:induction false} SortAscends(s: seq<string>)
    requires Distinct(s)
    ensures Ascending(Sort(s))
    decreases |s|
  {
    if s != [] {
      SortAscends(s[1..]);
      assert s[0] !in s[1..];
      InsertAscends(s[0], Sort(s[1..]));
    }
  }

  lemma FirstIsLeast(s: seq<string>, y: string)
    requires Ascending(s) && y in s
    ensures y == s[0] || Before(s[0], y)
  {
    var i :| 0 <= i < |s| && s[i] == y;
  }

  /** A set of names has one ascending list. */
  lemma {:induction false} AscendingIsUnique(s: seq<string>, t: seq<string>)
    requires Ascending(s) && Ascending(t) && forall y :: y in s <==> y in t
    ensures s == t
    decreases |s|
  {
    if s == [] {
      assert forall i | 0 <= i < |t| :: t[i] in t;
    } else {
      assert s[0] in s;
      FirstIsLeast(t, s[0]);
      assert t[0] in t;
      FirstIsLeast(s, t[0]);
      BeforeTotal(s[0], t[0]);
      forall y ensures y in s[1..] <==> y in t[1..] {
        BeforeTotal(s[0], s[0]);
        assert y in s[1..] ==> y in s;
        assert y in t[1..] ==> y in t;
      }
      AscendingIsUnique(s[1..], t[1..]);
    }
  }

  function MemberTexts(members: seq<Member>): (texts: seq<string>)
    ensures |texts| == |members|
  {
    if |members| == 0 then [] else [members[0].typ + " " + members[0].name] + MemberTexts(members[1..])
  }

  /** `Name(type name,type name)` */
  function StructText(types: Types, a: string): string
    requires a in types
  {
    a + "(" + Join(MemberTexts(types[a]), ",") + ")"
  }

  function StructTexts(types: Types, names: seq<string>): string
    requires forall a <- names :: a in types
  {
    if |names| == 0 then "" else StructText(types, names[0]) + StructTexts(types, names[1..])
  }

  /** None for a throw: no type word, an unknown primary type, or no fuel left. */
  function EncodeType(types: Types, typ: string, fuel: nat): Option<string> {
    match GetDependencies(types, typ, [], fuel)
    case Done(list) =>
      if |list| == 0 then None
      else
        var sorted := [list[0]] + Sort(list[1..]);
        if exists a <- sorted :: a !in types then None else Some(StructTexts(types, sorted))
    case _ => None
  }

  /** The primary type, then the types it depends on in ascending order: the text is the one EIP-712 asks for,
      whatever ascending list `others` of the reachable struct types one starts from. */
  lemma EncodeTypeIsCanonical(types: Types, typ: string, others: seq<string>, fuel: nat)
    requires WellNamed(types) && Word(typ).Some? && Word(typ).value in types && NoCycle(types, Word(typ).value)
    requires fuel >= |types| && Ascending(others)
    requires forall y :: y in others <==> y != Word(typ).value && Reaches(types, Word(typ).value, y)
    ensures forall a <- others :: a in types
    ensures EncodeType(types, typ, fuel) == Some(StructText(types, Word(typ).value) + StructTexts(types, others))
  {
    var a := Word(typ).value;
    DependenciesAreReachable(types, typ, fuel);
    var list := GetDependencies(types, typ, [], fuel).list;
    forall y | y in list ensures y in types { ReachesInTypes(types, a, y); }
    assert Distinct(list[1..]) by { assert forall i | 0 <= i < |list[1..]| :: list[1..][i] == list[i + 1]; }
    SortAscends(list[1..]);
    forall y ensures y in Sort(list[1..]) <==> y in others {
      assert y in list <==> y == list[0] || y in list[1..];
      assert list[0] !in list[1..];
    }
    AscendingIsUnique(Sort(list[1..]), others);
    assert ([a] + others)[1..] == others;
  }
}
