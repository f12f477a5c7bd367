/** The provider's two id maps hold requests: every queue of requests, flattened to one entry per id. */
module QueueMaps {
  import opened Wrappers
  import opened InsertionMap
  import opened RequestModel
  import opened RequestRuns

  function Block(ids: seq<Id>, handle: nat): (b: seq<(Id, nat)>)
    ensures |b| == |ids| && forall i | 0 <= i < |ids| :: b[i] == (ids[i], handle)
  {
    if |ids| == 0 then [] else [(ids[0], handle)] + Block(ids[1..], handle)
  }

  function Flatten(q: seq<Request>): seq<(Id, nat)> {
    if |q| == 0 then [] else Block(q[0].ids, q[0].handle) + Flatten(q[1..])
  }

  lemma {:induction false} FlattenConcat(a: seq<Request>, b: seq<Request>)
    ensures Flatten(a + b) == Flatten(a) + Flatten(b)
    decreases |a|
  {
    if a == [] {
      assert a + b == b;
    } else {
      assert (a + b)[0] == a[0] && (a + b)[1..] == a[1..] + b;
      FlattenConcat(a[1..], b);
    }
  }

  lemma {:induction false} FlattenSize(q: seq<Request>)
    ensures |Flatten(q)| == SlotCount(q)
  {
    if q != [] { FlattenSize(q[1..]); }
  }

  lemma {:induction false} FindInBlock(ids: seq<Id>, handle: nat, rest: seq<(Id, nat)>, id: Id)
    ensures Find(Block(ids, handle) + rest, id) == if id in ids then Some(handle) else Find(rest, id)
    decreases |ids|
  {
    if ids == [] {
      assert Block(ids, handle) + rest == rest;
    } else {
      var b := Block(ids, handle) + rest;
      assert b[0] == (ids[0], handle) && b[1..] == Block(ids[1..], handle) + rest;
      FindInBlock(ids[1..], handle, rest, id);
    }
  }

  /** Looking an id up in the map finds the request that owns it. */
  lemma {:induction false} FindFindsOwner(q: seq<Request>, id: Id)
    ensures Find(Flatten(q), id) == if Owned(q, id) then Some(q[OwnerIndex(q, id)].handle) else None
  {
    if q != [] {
      FindInBlock(q[0].ids, q[0].handle, Flatten(q[1..]), id);
      FindFindsOwner(q[1..], id);
    }
  }

  lemma {:induction false} KeysAreOwned(q: seq<Request>, id: Id)
    ensures id in Keys(Flatten(q)) <==> Owned(q, id)
  {
    if q != [] {
      var b := Block(q[0].ids, q[0].handle);
      KeysConcat(b, Flatten(q[1..]));
      assert Keys(b) == q[0].ids;
      KeysAreOwned(q[1..], id);
    }
  }

  lemma {:induction false} DeleteBlock(ids: seq<Id>, handle: nat)
    requires Distinct(ids)
    ensures DeleteAll(Block(ids, handle), ids) == []
    decreases |ids|
  {
    if ids != [] {
      var rest := Block(ids[1..], handle);
      assert Keys(rest) == ids[1..];
      assert Block(ids, handle)[1..] == rest;
      DeleteMissing(rest, ids[0]);
      assert Delete(Block(ids, handle), ids[0]) == rest;
      DeleteBlock(ids[1..], handle);
    }
  }

  /** No request of the queue owns any of the ids. */
  predicate Free(q: seq<Request>, ids: seq<Id>) {
    forall id <- ids :: !Owned(q, id)
  }

  lemma FreeKeys(q: seq<Request>, ids: seq<Id>)
    requires Free(q, ids)
    ensures forall id <- ids :: id !in Keys(Flatten(q))
  {
    forall id | id in ids ensures id !in Keys(Flatten(q)) { KeysAreOwned(q, id); }
  }

  /** Request `k` shares no id with the requests before and after it. */
  predicate Lone(q: seq<Request>, k: nat)
    requires k < |q|
  {
    Distinct(q[k].ids) && Free(q[..k], q[k].ids) && Free(q[k + 1..], q[k].ids)
  }

  lemma SoundIsLone(q: seq<Request>, k: nat)
    requires Sound(q) && k < |q|
    ensures Lone(q, k)
  {
    assert WellFormed(q[k]);
    forall id | id in q[k].ids ensures !Owned(q[..k], id) && !Owned(q[k + 1..], id) {
      var i, j := OwnerIndex(q[..k], id), OwnerIndex(q[k + 1..], id);
      assert i < k ==> Apart(q[i], q[k]);
      assert k + 1 + j < |q| ==> Apart(q[k], q[k + 1 + j]);
    }
  }

  lemma DeleteForeign(q: seq<Request>, ids: seq<Id>)
    requires Free(q, ids)
    ensures DeleteAll(Flatten(q), ids) == Flatten(q)
  {
    FreeKeys(q, ids);
    DeleteAllMissing(Flatten(q), ids);
  }

  lemma FlattenThree(a: seq<Request>, r: Request, b: seq<Request>)
    ensures Flatten(a + ([r] + b)) == Flatten(a) + (Block(r.ids, r.handle) + Flatten(b))
  {
    assert ([r] + b)[1..] == b;
    FlattenConcat(a, [r] + b);
  }

  lemma DeleteThree(a: seq<(Id, nat)>, r: Request, b: seq<(Id, nat)>)
    requires Distinct(r.ids)
    ensures DeleteAll(a + (Block(r.ids, r.handle) + b), r.ids) == DeleteAll(a, r.ids) + DeleteAll(b, r.ids)
  {
    var block := Block(r.ids, r.handle);
    DeleteAllConcat(a, block + b, r.ids);
    DeleteAllConcat(block, b, r.ids);
    DeleteBlock(r.ids, r.handle);
    assert [] + DeleteAll(b, r.ids) == DeleteAll(b, r.ids);
  }

  /** Deleting all ids of one request removes exactly that request. */
  lemma DeleteRequest(q: seq<Request>, k: nat)
    requires k < |q| && Lone(q, k)
    ensures DeleteAll(Flatten(q), q[k].ids) == Flatten(RemoveAt(q, k))
  {
    var a, r, b := q[..k], q[k], q[k + 1..];
    assert q == a + ([r] + b);
    FlattenThree(a, r, b);
    DeleteThree(Flatten(a), r, Flatten(b));
    DeleteForeign(a, r.ids);
    DeleteForeign(b, r.ids);
    FlattenConcat(a, b);
  }

  lemma {:induction false} SetBlock(m: seq<(Id, nat)>, ids: seq<Id>, handle: nat)
    requires Distinct(ids) && forall id <- ids :: id !in Keys(m)
    ensures SetAll(m, ids, handle) == m + Block(ids, handle)
    decreases |ids|
  {
    if ids == [] {
      assert m + Block(ids, handle) == m;
    } else {
      var longer := m + [(ids[0], handle)];
      assert ids[0] in ids;
      SetNew(m, ids[0], handle);
      KeysOfLonger(m, ids, handle);
      SetBlock(longer, ids[1..], handle);
      BlockShift(m, ids, handle);
    }
  }

  lemma KeysOfLonger(m: seq<(Id, nat)>, ids: seq<Id>, handle: nat)
    requires ids != [] && Distinct(ids) && forall id <- ids :: id !in Keys(m)
    ensures Distinct(ids[1..]) && forall id <- ids[1..] :: id !in Keys(m + [(ids[0], handle)])
  {
    assert Keys(m + [(ids[0], handle)]) == Keys(m) + [ids[0]];
  }

  lemma BlockShift(m: seq<(Id, nat)>, ids: seq<Id>, handle: nat)
    requires ids != []
    ensures m + Block(ids, handle) == (m + [(ids[0], handle)]) + Block(ids[1..], handle)
  {}

  /** Setting all ids of a new request appends exactly that request. */
  lemma SetRequest(q: seq<Request>, r: Request)
    requires WellFormed(r) && Free(q, r.ids)
    ensures SetAll(Flatten(q), r.ids, r.handle) == Flatten(q + [r])
  {
    FreeKeys(q, r.ids);
    SetBlock(Flatten(q), r.ids, r.handle);
    FlattenConcat(q, [r]);
    assert [r][1..] == [];
  }
}
