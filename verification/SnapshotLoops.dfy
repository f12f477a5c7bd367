/** The provider walks over snapshots of ids and entries while settling and promoting change the maps
    underneath. These folds are those walks, and they amount to the one-shot steps of the machine. */
module SnapshotLoops {
  import opened InsertionMap
  import opened RequestModel
  import opened RequestRuns
  import opened RequestTraces
  import opened QueueMaps

  function SettleEach(m: Model, ids: seq<Id>, outcome: Outcome): Model
    decreases |ids|
  {
    if |ids| == 0 then m else SettleEach(Settle(m, ids[0], outcome), ids[1..], outcome)
  }

  lemma {:induction false} SettleEachConcat(m: Model, a: seq<Id>, b: seq<Id>, outcome: Outcome)
    ensures SettleEach(m, a + b, outcome) == SettleEach(SettleEach(m, a, outcome), b, outcome)
    decreases |a|
  {
    if a == [] {
      assert a + b == b;
    } else {
      assert (a + b)[0] == a[0] && (a + b)[1..] == a[1..] + b;
      SettleEachConcat(Settle(m, a[0], outcome), a[1..], b, outcome);
    }
  }

  lemma {:induction false} SettleEachGone(m: Model, ids: seq<Id>, outcome: Outcome)
    requires Free(m.sent, ids) && Free(m.pending, ids)
    ensures SettleEach(m, ids, outcome) == m
    decreases |ids|
  {
    if ids != [] {
      assert ids[0] in ids;
      SettleEachGone(m, ids[1..], outcome);
    }
  }

  /** The ids of the first request are free once it is gone. */
  lemma FirstIsAlone(q: seq<Request>, rest: seq<Request>)
    requires Sound(q + rest) && q != []
    ensures Free(q[1..], q[0].ids) && Free(rest, q[0].ids)
    ensures q[0].ids != [] && OwnerIndex(q, q[0].ids[0]) == 0 && RemoveAt(q, 0) == q[1..]
    ensures Sound(q[1..] + rest)
  {
    var all := q + rest;
    assert WellFormed(all[0]);
    forall id | id in q[0].ids ensures !Owned(q[1..], id) && !Owned(rest, id) {
      var i, j := OwnerIndex(q[1..], id), OwnerIndex(rest, id);
      assert i < |q[1..]| ==> Apart(all[0], all[i + 1]);
      assert j < |rest| ==> Apart(all[0], all[|q| + j]);
    }
    SoundRemove(q, rest, 0);
  }

  lemma KeysOfFlatten(q: seq<Request>)
    requires q != []
    ensures Keys(Flatten(q)) == q[0].ids + Keys(Flatten(q[1..]))
  {
    var b := Block(q[0].ids, q[0].handle);
    KeysConcat(b, Flatten(q[1..]));
    assert Keys(b) == q[0].ids;
  }

  lemma SettleFirstSent(m: Model, outcome: Outcome)
    requires Sound(m.sent + m.pending) && m.sent != []
    ensures SettleEach(m, m.sent[0].ids, outcome)
      == m.(sent := m.sent[1..], trace := m.trace + [Settled(m.sent[0], outcome)])
  {
    FirstIsAlone(m.sent, m.pending);
    SettleEachGone(m.(sent := m.sent[1..], trace := m.trace + [Settled(m.sent[0], outcome)]), m.sent[0].ids[1..],
      outcome);
  }

  lemma SettleFirstPending(m: Model, outcome: Outcome)
    requires Sound(m.pending + m.sent) && m.pending != []
    ensures SettleEach(m, m.pending[0].ids, outcome)
      == m.(pending := m.pending[1..], trace := m.trace + [Settled(m.pending[0], outcome)])
  {
    FirstIsAlone(m.pending, m.sent);
    assert m.pending[0].ids[0] in m.pending[0].ids;
    SettleEachGone(m.(pending := m.pending[1..], trace := m.trace + [Settled(m.pending[0], outcome)]),
      m.pending[0].ids[1..], outcome);
  }

  lemma SettlementsUnfold(trace: seq<Effect>, q: seq<Request>, outcome: Outcome)
    requires q != []
    ensures trace + Settlements(q, outcome) == (trace + [Settled(q[0], outcome)]) + Settlements(q[1..], outcome)
  {}

  /** Settling every id of a snapshot of the sent map rejects each sent request exactly once, although
      the first id of a batch takes the others with it. */
  lemma {:induction false} SettleAllSent(m: Model, outcome: Outcome)
    requires Sound(m.sent + m.pending)
    ensures SettleEach(m, Keys(Flatten(m.sent)), outcome)
         == m.(sent := [], trace := m.trace + Settlements(m.sent, outcome))
    decreases |m.sent|
  {
    if m.sent == [] {
      assert m.trace + [] == m.trace;
    } else {
      var next := m.(sent := m.sent[1..], trace := m.trace + [Settled(m.sent[0], outcome)]);
      assert Sound(next.sent + next.pending) by { FirstIsAlone(m.sent, m.pending); }
      assert SettleEach(m, Keys(Flatten(m.sent)), outcome) == SettleEach(next, Keys(Flatten(next.sent)), outcome) by {
        KeysOfFlatten(m.sent);
        SettleEachConcat(m, m.sent[0].ids, Keys(Flatten(m.sent[1..])), outcome);
        SettleFirstSent(m, outcome);
      }
      SettleAllSent(next, outcome);
      SettlementsUnfold(m.trace, m.sent, outcome);
    }
  }

  lemma {:induction false} SettleAllPending(m: Model, outcome: Outcome)
    requires Sound(m.pending + m.sent)
    ensures SettleEach(m, Keys(Flatten(m.pending)), outcome)
         == m.(pending := [], trace := m.trace + Settlements(m.pending, outcome))
    decreases |m.pending|
  {
    if m.pending == [] {
      assert m.trace + [] == m.trace;
    } else {
      var next := m.(pending := m.pending[1..], trace := m.trace + [Settled(m.pending[0], outcome)]);
      assert Sound(next.pending + next.sent) by { FirstIsAlone(m.pending, m.sent); }
      assert SettleEach(m, Keys(Flatten(m.pending)), outcome)
        == SettleEach(next, Keys(Flatten(next.pending)), outcome) by {
        KeysOfFlatten(m.pending);
        SettleEachConcat(m, m.pending[0].ids, Keys(Flatten(m.pending[1..])), outcome);
        SettleFirstPending(m, outcome);
      }
      SettleAllPending(next, outcome);
      SettlementsUnfold(m.trace, m.pending, outcome);
    }
  }

  lemma {:induction false} SettlementsConcat(a: seq<Request>, b: seq<Request>, outcome: Outcome)
    ensures Settlements(a + b, outcome) == Settlements(a, outcome) + Settlements(b, outcome)
    decreases |a|
  {
    if a == [] {
      assert a + b == b;
    } else {
      assert (a + b)[0] == a[0] && (a + b)[1..] == a[1..] + b;
      SettlementsConcat(a[1..], b, outcome);
    }
  }

  lemma SettleAloneSent(m: Model, outcome: Outcome)
    requires Sound(m.sent) && m.pending == []
    ensures SettleEach(m, Keys(Flatten(m.sent)), outcome)
         == m.(sent := [], trace := m.trace + Settlements(m.sent, outcome))
  {
    assert m.sent + m.pending == m.sent;
    SettleAllSent(m, outcome);
  }

  /** `_rejectAllRequests` over its snapshot of both maps is the one-shot rejection. */
  lemma SettleAllIsRejectAll(m: Model, why: Failure)
    requires Sound(m.pending + m.sent)
    ensures SettleEach(m, Keys(Flatten(m.pending)) + Keys(Flatten(m.sent)), Rejected(why)) == RejectAll(m, why)
  {
    SettleEachConcat(m, Keys(Flatten(m.pending)), Keys(Flatten(m.sent)), Rejected(why));
    SettleAllPending(m, Rejected(why));
    var half := SettleEach(m, Keys(Flatten(m.pending)), Rejected(why));
    assert Sound(half.sent) by { SoundParts(m.pending, m.sent); }
    SettleAloneSent(half, Rejected(why));
    RejectAllInTwo(m, why);
  }

  lemma RejectAllInTwo(m: Model, why: Failure)
    ensures m.(pending := [], sent := [],
               trace := m.trace + Settlements(m.pending, Rejected(why)) + Settlements(m.sent, Rejected(why)))
                 == RejectAll(m, why)
  {
    SettlementsConcat(m.pending, m.sent, Rejected(why));
  }

  lemma SettleSentIsRejectSent(m: Model, why: Failure)
    requires Sound(m.pending + m.sent)
    ensures SettleEach(m, Keys(Flatten(m.sent)), Rejected(why)) == RejectSent(m, why)
  {
    SoundSwap(m.pending, m.sent);
    SettleAllSent(m, Rejected(why));
  }

  // ---------- Promoting ----------

  /** One iteration of `_sendPendingRequests` for an item that is parked. */
  function PromoteOne(m: Model, handle: nat, throws: bool): Model {
    var k := RequestIndex(m.pending, handle);
    if k == |m.pending| then m else
    var r := m.pending[k];
    m.(pending := RemoveAt(m.pending, k),
       sent := if throws then m.sent else m.sent + [r],
       trace := m.trace + ([Promoted(r)] + WriteEffects(r, throws)))
  }

  function DrainEach(m: Model, entries: seq<(Id, nat)>, seen: set<nat>, throws: set<nat>): Model
    decreases |entries|
  {
    if |entries| == 0 then m
    else if entries[0].1 in seen then DrainEach(m, entries[1..], seen, throws)
    else DrainEach(PromoteOne(m, entries[0].1, entries[0].1 in throws), entries[1..], seen + {entries[0].1}, throws)
  }

  lemma {:induction false} DrainEachSkips(m: Model, block: seq<(Id, nat)>, rest: seq<(Id, nat)>, seen: set<nat>,
      throws: set<nat>)
    requires forall e <- block :: e.1 in seen
    ensures DrainEach(m, block + rest, seen, throws) == DrainEach(m, rest, seen, throws)
    decreases |block|
  {
    if block == [] {
      assert block + rest == rest;
    } else {
      assert block[0] in block && (block + rest)[0] == block[0] && (block + rest)[1..] == block[1..] + rest;
      DrainEachSkips(m, block[1..], rest, seen, throws);
    }
  }

  /** The walk over a snapshot of the pending map promotes and writes every parked request once, in order. */
  lemma {:induction false} DrainEachIsDrain(m: Model, seen: set<nat>, throws: set<nat>)
    requires Sound(m.pending)
    requires forall r <- m.pending :: r.handle !in seen
    ensures DrainEach(m, Flatten(m.pending), seen, throws) == Drain(m, throws)
    decreases |m.pending|
  {
    if m.pending == [] {
      assert m.sent + [] == m.sent && m.trace + [] == m.trace;
    } else {
      var r := m.pending[0];
      assert WellFormed(r) && r in m.pending;
      var b, rest := Block(r.ids, r.handle), Flatten(m.pending[1..]);
      var next := PromoteOne(m, r.handle, r.handle in throws);
      assert RemoveAt(m.pending, 0) == m.pending[1..] == next.pending;
      assert (b + rest)[0] == b[0] && (b + rest)[1..] == b[1..] + rest;
      HeadApart(m.pending);
      DrainEachSkips(next, b[1..], rest, seen + {r.handle}, throws);
      DrainEachIsDrain(next, seen + {r.handle}, throws);
      DrainUnfolds(m, next, throws);
    }
  }

  lemma DrainUnfolds(m: Model, next: Model, throws: set<nat>)
    requires m.pending != []
    requires next == PromoteOne(m, m.pending[0].handle, m.pending[0].handle in throws) && next.pending == m.pending[1..]
    ensures Drain(next, throws) == Drain(m, throws)
  {
    var r := m.pending[0];
    assert m.sent + Kept(m.pending, throws) == next.sent + Kept(next.pending, throws);
    assert m.trace + DrainEffects(m.pending, throws) == next.trace + DrainEffects(next.pending, throws);
  }
}
