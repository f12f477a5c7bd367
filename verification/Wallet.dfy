/** A wallet: an array of accounts with an index from lower-cased addresses to positions beside it. */
module Wallet {
  import opened Wrappers

  datatype Account = Account(address: string, key: int)

  function LowerChar(c: char): char {
    if 'A' <= c <= 'Z' then (c as int - 'A' as int + 'a' as int) as char else c
  }

  function Lower(s: string): (r: string)
    ensures |r| == |s| && forall i | 0 <= i < |s| :: r[i] == LowerChar(s[i])
  {
    if |s| == 0 then "" else [LowerChar(s[0])] + Lower(s[1..])
  }

  /** The same character, or the two cases of one letter from A to Z. */
  predicate SameLetter(c: char, d: char) {
    || c == d
    || ('A' <= c <= 'Z' && d as int == c as int + 32)
    || ('A' <= d <= 'Z' && c as int == d as int + 32)
  }

  lemma SameWhenLowered(c: char, d: char)
    ensures LowerChar(c) == LowerChar(d) <==> SameLetter(c, d)
  {}

  predicate SameLetters(a: string, b: string) { |a| == |b| && forall i | 0 <= i < |a| :: SameLetter(a[i], b[i]) }

  lemma SameLettersWhenLowered(a: string, b: string)
    requires Lower(a) == Lower(b)
    ensures SameLetters(a, b)
  {
    hide Lower, LowerChar, SameLetter;
    assert |a| == |Lower(a)|;
    forall i | 0 <= i < |a| ensures SameLetter(a[i], b[i]) {
      assert Lower(a)[i] == Lower(b)[i];
      SameWhenLowered(a[i], b[i]);
    }
  }

  lemma LoweredWhenSameLetters(a: string, b: string)
    requires SameLetters(a, b)
    ensures Lower(a) == Lower(b)
  {
    hide Lower, LowerChar, SameLetter;
    forall i | 0 <= i < |a| ensures Lower(a)[i] == Lower(b)[i] { SameWhenLowered(a[i], b[i]); }
  }

  /** Two addresses are the same exactly when they differ in the case of letters only. */
  lemma SameAddress(a: string, b: string)
    ensures Lower(a) == Lower(b) <==> SameLetters(a, b)
  {
    hide Lower, SameLetters;
    if Lower(a) == Lower(b) { SameLettersWhenLowered(a, b); }
    if SameLetters(a, b) { LoweredWhenSameLetters(a, b); }
  }

  /** The keys of the index are the addresses with small letters. */
  lemma LowerIs(s: string)
    ensures |Lower(s)| == |s|
    ensures forall i | 0 <= i < |s| ::
      Lower(s)[i] as int == s[i] as int + if 'A' <= s[i] <= 'Z' then 32 else 0
  {}

  /** Linear search for an address, whatever its case; the length if there is none. */
  function Search(accounts: seq<Account>, address: string): (k: nat)
    ensures k <= |accounts|
    ensures k < |accounts| ==> Lower(accounts[k].address) == Lower(address)
    ensures forall i | 0 <= i < k :: Lower(accounts[i].address) != Lower(address)
  {
    if |accounts| == 0 || Lower(accounts[0].address) == Lower(address) then 0 else 1 + Search(accounts[1..], address)
  }

  /** An account replaces the one with its address, or goes to the end. */
  function Added(accounts: seq<Account>, a: Account): seq<Account> {
    var k := Search(accounts, a.address);
    if k < |accounts| then accounts[k := a] else accounts + [a]
  }

  function AddedAll(accounts: seq<Account>, provided: seq<Account>): seq<Account>
    decreases |provided|
  {
    if |provided| == 0 then accounts else AddedAll(Added(accounts, provided[0]), provided[1..])
  }

  function Without(accounts: seq<Account>, k: nat): seq<Account>
    requires k < |accounts|
  {
    accounts[..k] + accounts[k + 1..]
  }

  predicate NoDuplicates(accounts: seq<Account>) {
    forall i, j | 0 <= i < j < |accounts| :: Lower(accounts[i].address) != Lower(accounts[j].address)
  }

  /** The index is exactly lower-cased address to position. */
  predicate Indexes(index: map<string, nat>, accounts: seq<Account>) {
    && (forall i | 0 <= i < |accounts| :: Lower(accounts[i].address) in index && index[Lower(accounts[i].address)] == i)
    && (forall a | a in index :: index[a] < |accounts| && Lower(accounts[index[a]].address) == a)
  }

  lemma IndexedAreDistinct(index: map<string, nat>, accounts: seq<Account>)
    requires Indexes(index, accounts)
    ensures NoDuplicates(accounts)
  {}

  /** Looking an address up in the index is a linear search. */
  lemma LookupIsSearch(index: map<string, nat>, accounts: seq<Account>, address: string)
    requires Indexes(index, accounts)
    ensures Lower(address) in index <==> Search(accounts, address) < |accounts|
    ensures Lower(address) in index ==> index[Lower(address)] == Search(accounts, address)
  {
    var k := Search(accounts, address);
    if k < |accounts| { assert Lower(accounts[k].address) in index; }
  }

  class Wallet {
    var accounts: seq<Account>
    var addressMap: map<string, nat>

    ghost predicate Valid()
      reads this
    {
      Indexes(addressMap, accounts)
    }

    constructor ()
      ensures Valid() && accounts == []
    {
      accounts, addressMap := [], map[];
    }

    method Get(address: string) returns (a: Option<Account>)
      requires Valid()
      ensures a == if Search(accounts, address) < |accounts| then Some(accounts[Search(accounts, address)]) else None
    {
      LookupIsSearch(addressMap, accounts, address);
      var key := Lower(address);
      if key !in addressMap { return None; }
      return Some(accounts[addressMap[key]]);
    }

    /** The account at a position is the one that its own address, in any case, leads to. */
    method GetAt(position: int) returns (a: Option<Account>)
      requires Valid()
      ensures a.Some? <==> 0 <= position < |accounts|
      ensures a.Some? ==> a.value == accounts[position] && Search(accounts, a.value.address) == position
      ensures a.Some? ==> Lower(a.value.address) in addressMap && addressMap[Lower(a.value.address)] == position
    {
      if position < 0 || position >= |accounts| { return None; }
      IndexedAreDistinct(addressMap, accounts);
      return Some(accounts[position]);
    }

    method Add(a: Account)
      requires Valid()
      modifies this
      ensures Valid() && accounts == Added(old(accounts), a)
    {
      hide Lower, Search;
      LookupIsSearch(addressMap, accounts, a.address);
      var index := |accounts|;
      var existing := Get(a.address);
      if existing.Some? {
        index := addressMap[Lower(a.address)];
      }
      addressMap := addressMap[Lower(a.address) := index];
      accounts := if index < |accounts| then accounts[index := a] else accounts + [a];
    }

    /** Adds as many accounts as the provider creates. */
    method Create(provided: seq<Account>)
      requires Valid()
      modifies this
      ensures Valid() && accounts == AddedAll(old(accounts), provided)
    {
      var i := 0;
      while i < |provided|
        invariant i <= |provided| && Valid()
        invariant AddedAll(accounts, provided[i..]) == AddedAll(old(accounts), provided)
      {
        assert provided[i..][0] == provided[i] && provided[i..][1..] == provided[i + 1..];
        Add(provided[i]);
        i := i + 1;
      }
    }

    /** Reads the index off the array again. */
    method RebuildAddressMap()
      requires NoDuplicates(accounts)
      modifies this`addressMap
      ensures Valid()
    {
      addressMap := map[];
      var i := 0;
      while i < |accounts|
        invariant i <= |accounts| && Indexes(addressMap, accounts[..i])
      {
        assert Lower(accounts[i].address) !in addressMap;
        assert accounts[..i + 1] == accounts[..i] + [accounts[i]];
        addressMap := addressMap[Lower(accounts[i].address) := i];
        i := i + 1;
      }
      assert accounts[..|accounts|] == accounts;
    }

    method Splice(k: nat)
      requires Valid() && k < |accounts|
      modifies this
      ensures Valid() && accounts == Without(old(accounts), k)
    {
      IndexedAreDistinct(addressMap, accounts);
      WithoutIsDistinct(accounts, k);
      accounts := accounts[..k] + accounts[k + 1..];
      RebuildAddressMap();
    }

    method Remove(address: string) returns (removed: bool)
      requires Valid()
      modifies this
      ensures Valid() && removed == (Search(old(accounts), address) < |old(accounts)|)
      ensures accounts == if removed then Without(old(accounts), Search(old(accounts), address)) else old(accounts)
    {
      LookupIsSearch(addressMap, accounts, address);
      var key := Lower(address);
      if key !in addressMap { return false; }
      Splice(addressMap[key]);
      return true;
    }

    method RemoveAt(position: int) returns (removed: bool)
      requires Valid()
      modifies this
      ensures Valid() && removed == (0 <= position < |old(accounts)|)
      ensures accounts == if removed then Without(old(accounts), position) else old(accounts)
    {
      if position < 0 || position >= |accounts| { return false; }
      Splice(position);
      return true;
    }

    method Clear()
      modifies this
      ensures Valid() && accounts == []
    {
      addressMap := map[];
      accounts := [];
    }
  }

  lemma WithoutIsDistinct(accounts: seq<Account>, k: nat)
    requires NoDuplicates(accounts) && k < |accounts|
    ensures NoDuplicates(Without(accounts, k))
  {
    var w := Without(accounts, k);
    forall i, j | 0 <= i < j < |w| ensures Lower(w[i].address) != Lower(w[j].address) {
    }
  }

  // ---------- Runs ----------

  datatype Operation =
    | AddOp(a: Account) | CreateOp(provided: seq<Account>)
    | RemoveOp(address: string) | RemoveAtOp(position: int) | ClearOp

  function Apply(accounts: seq<Account>, op: Operation): seq<Account> {
    match op
    case AddOp(a) => Added(accounts, a)
    case CreateOp(provided) => AddedAll(accounts, provided)
    case RemoveOp(address) =>
      var k := Search(accounts, address);
      if k < |accounts| then Without(accounts, k) else accounts
    case RemoveAtOp(position) => if 0 <= position < |accounts| then Without(accounts, position) else accounts
    case ClearOp => []
  }

  function Run(accounts: seq<Account>, ops: seq<Operation>): seq<Account>
    decreases |ops|
  {
    if |ops| == 0 then accounts else Run(Apply(accounts, ops[0]), ops[1..])
  }

  lemma AddedIsDistinct(accounts: seq<Account>, a: Account)
    requires NoDuplicates(accounts)
    ensures NoDuplicates(Added(accounts, a))
  {
    var k := Search(accounts, a.address);
    var r := Added(accounts, a);
    forall i, j | 0 <= i < j < |r| ensures Lower(r[i].address) != Lower(r[j].address) {
      assert i < |accounts| ==> Lower(accounts[i].address) == Lower(r[i].address);
      assert j < |accounts| ==> Lower(accounts[j].address) == Lower(r[j].address);
    }
  }

  lemma {:induction false} AddedAllIsDistinct(accounts: seq<Account>, provided: seq<Account>)
    requires NoDuplicates(accounts)
    ensures NoDuplicates(AddedAll(accounts, provided))
    decreases |provided|
  {
    if provided != [] {
      AddedIsDistinct(accounts, provided[0]);
      AddedAllIsDistinct(Added(accounts, provided[0]), provided[1..]);
    }
  }

  /** Over every sequence of operations no two accounts have the same address, up to case. */
  lemma {:induction false} RunIsDistinct(accounts: seq<Account>, ops: seq<Operation>)
    requires NoDuplicates(accounts)
    ensures NoDuplicates(Run(accounts, ops))
    decreases |ops|
  {
    if ops != [] {
      match ops[0] {
        case AddOp(a) => AddedIsDistinct(accounts, a);
        case CreateOp(provided) => AddedAllIsDistinct(accounts, provided);
        case RemoveOp(address) =>
          var k := Search(accounts, address);
          if k < |accounts| { WithoutIsDistinct(accounts, k); }
        case RemoveAtOp(position) =>
          if 0 <= position < |accounts| { WithoutIsDistinct(accounts, position); }
        case ClearOp =>
      }
      RunIsDistinct(Apply(accounts, ops[0]), ops[1..]);
    }
  }

  /** After adding an account it is found under its address in any case, at the place of the account it
      replaces or at the end; every other account stays where it was. */
  lemma AddThenGet(accounts: seq<Account>, a: Account, address: string)
    requires NoDuplicates(accounts) && Lower(address) == Lower(a.address)
    ensures var r := Added(accounts, a);
      && Search(r, address) == Search(accounts, address) && r[Search(r, address)] == a
      && forall i | 0 <= i < |accounts| && i != Search(accounts, address) :: r[i] == accounts[i]
  {
    hide Search;
    SearchByCase(accounts, a.address, address);
    var r, k := Added(accounts, a), Search(accounts, address);
    assert k < |r| && r[k] == a;
    assert forall i | 0 <= i < k :: r[i] == accounts[i];
    FirstFound(r, address, k);
  }

  lemma FirstFound(accounts: seq<Account>, address: string, k: nat)
    requires k < |accounts| && Lower(accounts[k].address) == Lower(address)
    requires forall i | 0 <= i < k :: Lower(accounts[i].address) != Lower(address)
    ensures Search(accounts, address) == k
  {}

  lemma SearchByCase(accounts: seq<Account>, a: string, b: string)
    requires Lower(a) == Lower(b)
    ensures Search(accounts, a) == Search(accounts, b)
  {}

  /** A removed address is gone, and every other address still finds its own account. */
  lemma RemoveThenGet(accounts: seq<Account>, k: nat, address: string)
    requires NoDuplicates(accounts) && k < |accounts|
    ensures var r, was := Without(accounts, k), Search(accounts, address);
      && (was == k ==> Search(r, address) == |r|)
      && (was < |accounts| && was != k ==> Search(r, address) < |r| && r[Search(r, address)] == accounts[was])
      && (was == |accounts| ==> Search(r, address) == |r|)
  {
    hide Search, Lower;
    var r, was, now := Without(accounts, k), Search(accounts, address), Search(Without(accounts, k), address);
    if was < |accounts| && was != k {
      var there := if was < k then was else was - 1;
      WithoutIsDistinct(accounts, k);
      assert Lower(r[there].address) == Lower(address);
    }
  }
}
