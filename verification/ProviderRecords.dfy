/** Lifecycle records and abort compositions: which ones exist, and what settling or promoting one
    request does to the two maps and to the records. */
module ProviderRecords {
  import opened Wrappers
  import opened InsertionMap
  import opened RequestModel
  import opened RequestRuns
  import opened QueueMaps
  import opened SnapshotLoops
  import AbortHelpers

  /** Everything torn down when a request settles. One record serves all ids of a batch.
      `onAbort` says whether the provider's listener is recorded as attached. */
  datatype Lifecycle = Lifecycle(ids: seq<Id>, onAbort: bool, settled: bool)

  function Handles(q: seq<Request>): set<nat> {
    if |q| == 0 then {} else {q[0].handle} + Handles(q[1..])
  }

  lemma {:induction false} HandlesConcat(a: seq<Request>, b: seq<Request>)
    ensures Handles(a + b) == Handles(a) + Handles(b)
    decreases |a|
  {
    if a == [] {
      assert a + b == b;
    } else {
      assert (a + b)[0] == a[0] && (a + b)[1..] == a[1..] + b;
      HandlesConcat(a[1..], b);
    }
  }

  lemma {:induction false} HandlesAt(q: seq<Request>, h: nat)
    ensures h in Handles(q) <==> exists i | 0 <= i < |q| :: q[i].handle == h
  {
    if q != [] {
      HandlesAt(q[1..], h);
      if h in Handles(q[1..]) {
        var i :| 0 <= i < |q[1..]| && q[1..][i].handle == h;
        assert q[i + 1].handle == h;
      }
      if i :| 0 <= i < |q| && q[i].handle == h {
        assert i > 0 ==> q[1..][i - 1].handle == h;
      }
    }
  }

  lemma HandlesRemove(q: seq<Request>, k: nat)
    requires Sound(q) && k < |q|
    ensures Handles(RemoveAt(q, k)) == Handles(q) - {q[k].handle}
    ensures q[k].handle in Handles(q)
  {
    var a, b := q[..k], q[k + 1..];
    HandlesConcat(a, b);
    HandlesConcat(a, [q[k]] + b);
    assert q == a + ([q[k]] + b) && ([q[k]] + b)[1..] == b;
    HandlesAt(a, q[k].handle);
    HandlesAt(b, q[k].handle);
    assert q[k].handle !in Handles(a) by {
      forall i | 0 <= i < |a| ensures a[i].handle != q[k].handle { assert Apart(q[i], q[k]); }
    }
    assert q[k].handle !in Handles(b) by {
      forall i | 0 <= i < |b| ensures b[i].handle != q[k].handle { assert Apart(q[k], q[k + 1 + i]); }
    }
  }

  /** The lifecycle record of a request says what the request is. */
  predicate RecordOf(r: Request, payloads: map<nat, Payload>, lifecycles: map<nat, Lifecycle>) {
    && r.handle in payloads && payloads[r.handle] == r.payload
    && r.handle in lifecycles && lifecycles[r.handle].ids == r.ids
    && lifecycles[r.handle].onAbort && !lifecycles[r.handle].settled
  }

  predicate RecordsOf(q: seq<Request>, payloads: map<nat, Payload>, lifecycles: map<nat, Lifecycle>) {
    forall i | 0 <= i < |q| :: RecordOf(q[i], payloads, lifecycles)
  }

  /** Request items and lifecycle records belong exactly to the requests in flight. */
  predicate Tracked(m: Model, payloads: map<nat, Payload>, lifecycles: map<nat, Lifecycle>) {
    && lifecycles.Keys == Handles(m.pending) + Handles(m.sent)
    && RecordsOf(m.pending, payloads, lifecycles)
    && RecordsOf(m.sent, payloads, lifecycles)
  }

  lemma DisjointHandles(a: seq<Request>, b: seq<Request>)
    requires Sound(a + b)
    ensures Handles(a) !! Handles(b)
  {
    forall h | h in Handles(a) ensures h !in Handles(b) {
      HandlesAt(a, h);
      HandlesAt(b, h);
      var i :| 0 <= i < |a| && a[i].handle == h;
      forall j | 0 <= j < |b| ensures b[j].handle != h { assert Apart((a + b)[i], (a + b)[|a| + j]); }
    }
  }

  lemma RecordsWithout(q: seq<Request>, payloads: map<nat, Payload>, lifecycles: map<nat, Lifecycle>, h: nat)
    requires RecordsOf(q, payloads, lifecycles) && h !in Handles(q)
    ensures RecordsOf(q, payloads, lifecycles - {h})
  {
    HandlesAt(q, h);
  }

  lemma RecordsRemove(q: seq<Request>, k: nat, payloads: map<nat, Payload>, lifecycles: map<nat, Lifecycle>)
    requires Sound(q) && k < |q| && RecordsOf(q, payloads, lifecycles)
    ensures RecordsOf(RemoveAt(q, k), payloads, lifecycles - {q[k].handle})
  {
    HandlesRemove(q, k);
    var p := RemoveAt(q, k);
    forall i | 0 <= i < |p| ensures RecordOf(p[i], payloads, lifecycles) {
      assert p[i] == q[if i < k then i else i + 1];
    }
    RecordsWithout(p, payloads, lifecycles, q[k].handle);
  }

  /** What leaves with one request: its entries in both maps and its record, nothing else. */
  lemma OneLeaves(m: Model, inSent: bool, k: nat, payloads: map<nat, Payload>, lifecycles: map<nat, Lifecycle>)
    requires Sound(m.pending + m.sent) && k < |if inSent then m.sent else m.pending|
    requires Tracked(m, payloads, lifecycles)
    ensures var r := if inSent then m.sent[k] else m.pending[k];
      var n := if inSent then m.(sent := RemoveAt(m.sent, k)) else m.(pending := RemoveAt(m.pending, k));
      && RecordOf(r, payloads, lifecycles)
      && DeleteAll(Flatten(m.sent), r.ids) == Flatten(n.sent)
      && DeleteAll(Flatten(m.pending), r.ids) == Flatten(n.pending)
      && Tracked(n, payloads, lifecycles - {r.handle})
  {
    hide Sound, DeleteAll, Flatten;
    SoundParts(m.pending, m.sent);
    DisjointHandles(m.pending, m.sent);
    SlotsOfOne(m, inSent, k);
    if inSent {
      HandlesRemove(m.sent, k);
      RecordsRemove(m.sent, k, payloads, lifecycles);
      RecordsWithout(m.pending, payloads, lifecycles, m.sent[k].handle);
    } else {
      HandlesRemove(m.pending, k);
      RecordsRemove(m.pending, k, payloads, lifecycles);
      RecordsWithout(m.sent, payloads, lifecycles, m.pending[k].handle);
    }
  }

  /** Deleting the ids of one request from both flattened queues removes that request from its queue. */
  lemma SlotsOfOne(m: Model, inSent: bool, k: nat)
    requires Sound(m.pending + m.sent) && k < |if inSent then m.sent else m.pending|
    ensures var r := if inSent then m.sent[k] else m.pending[k];
      && DeleteAll(Flatten(m.sent), r.ids) == Flatten(if inSent then RemoveAt(m.sent, k) else m.sent)
      && DeleteAll(Flatten(m.pending), r.ids) == Flatten(if inSent then m.pending else RemoveAt(m.pending, k))
  {
    SoundParts(m.pending, m.sent);
    FreeAcross(m.pending, m.sent, k, inSent);
    if inSent {
      SoundIsLone(m.sent, k);
      DeleteRequest(m.sent, k);
      DeleteForeign(m.pending, m.sent[k].ids);
    } else {
      SoundIsLone(m.pending, k);
      DeleteRequest(m.pending, k);
      DeleteForeign(m.sent, m.pending[k].ids);
    }
  }

  lemma FreeAcross(a: seq<Request>, b: seq<Request>, k: nat, second: bool)
    requires Sound(a + b) && k < |if second then b else a|
    ensures second ==> Free(a, b[k].ids)
    ensures !second ==> Free(b, a[k].ids)
  {
    var q := a + b;
    if second {
      forall id | id in b[k].ids ensures !Owned(a, id) {
        var i := OwnerIndex(a, id);
        assert i < |a| ==> Apart(q[i], q[|a| + k]);
      }
    } else {
      forall id | id in a[k].ids ensures !Owned(b, id) {
        var i := OwnerIndex(b, id);
        assert i < |b| ==> Apart(q[k], q[|a| + i]);
      }
    }
  }

  /** `n` is `m` after one request has been taken out and settled. */
  predicate Left(m: Model, n: Model, r: Request, outcome: Outcome) {
    && n == m.(pending := n.pending, sent := n.sent, trace := m.trace + [Settled(r, outcome)])
    && DeleteAll(Flatten(m.sent), r.ids) == Flatten(n.sent)
    && DeleteAll(Flatten(m.pending), r.ids) == Flatten(n.pending)
    && InFlight(n) <= n.peak
  }

  /** What settling by an id amounts to, read off the two maps and the records: the item found by the
      two lookups, the request it stands for, and what is left when its slots and its record are gone. */
  lemma SettlementPlan(m: Model, payloads: map<nat, Payload>, lifecycles: map<nat, Lifecycle>, id: Id, outcome: Outcome)
    returns (item: nat, r: Request)
    requires Stocked(m) && Tracked(m, payloads, lifecycles)
    requires Owned(m.sent, id) || Owned(m.pending, id)
    ensures Find(Flatten(m.sent), id) == if Owned(m.sent, id) then Some(item) else None
    ensures !Owned(m.sent, id) ==> Find(Flatten(m.pending), id) == Some(item)
    ensures item in payloads && item in lifecycles && r == Request(item, payloads[item], lifecycles[item].ids)
    ensures lifecycles[item].onAbort && !lifecycles[item].settled
    ensures var n := Settle(m, id, outcome);
      Left(m, n, r, outcome) && Stocked(n) && Tracked(n, payloads, lifecycles - {item})
  {
    FindFindsOwner(m.sent, id);
    FindFindsOwner(m.pending, id);
    var inSent := Owned(m.sent, id);
    var k := OwnerIndex(if inSent then m.sent else m.pending, id);
    r := if inSent then m.sent[k] else m.pending[k];
    item := r.handle;
    OneLeaves(m, inSent, k, payloads, lifecycles);
    SettleKeepsStock(m, id, outcome);
  }

  lemma SettleNothing(m: Model, id: Id, outcome: Outcome)
    requires !Owned(m.sent, id) && !Owned(m.pending, id)
    ensures Settle(m, id, outcome) == m
  {}

  /** Every composition that does not belong to a request in flight is released: no timer, no caller
      listener, no abort listener. The others can be disposed of at any time. */
  predicate Covers(lifecycles: map<nat, Lifecycle>, compositions: map<nat, AbortHelpers.Composition>) {
    && lifecycles.Keys <= compositions.Keys
    && (forall h <- lifecycles :: compositions[h].Disposable())
    && (forall h <- compositions :: h in lifecycles || compositions[h].Released())
  }

  /** Every record ever made is either still in the lifecycle map, or it has left it settled and without
      its abort listener. */
  predicate Spent(lifecycles: map<nat, Lifecycle>, released: map<nat, Lifecycle>, next: nat) {
    && (forall h: nat | h < next :: h in lifecycles || h in released)
    && (forall h <- lifecycles :: h < next)
    && (forall h <- released :: h < next && h !in lifecycles && released[h].settled && !released[h].onAbort)
  }

  /** A record is in the map exactly while its request is in flight, and exactly then it is not marked settled. */
  lemma SettledIffReleased(m: Model, payloads: map<nat, Payload>, lifecycles: map<nat, Lifecycle>,
      released: map<nat, Lifecycle>, h: nat)
    requires Tracked(m, payloads, lifecycles) && Spent(lifecycles, released, m.next) && h < m.next
    ensures h in lifecycles <==> h in Handles(m.pending) || h in Handles(m.sent)
    ensures h in lifecycles ==> !lifecycles[h].settled && lifecycles[h].onAbort
    ensures h !in lifecycles ==> h in released && released[h].settled && !released[h].onAbort
  {
    HandlesAt(m.pending, h);
    HandlesAt(m.sent, h);
    assert forall i | 0 <= i < |m.pending| :: RecordOf(m.pending[i], payloads, lifecycles);
    assert forall i | 0 <= i < |m.sent| :: RecordOf(m.sent[i], payloads, lifecycles);
  }

  lemma SpentOne(lifecycles: map<nat, Lifecycle>, released: map<nat, Lifecycle>, next: nat, item: nat, l: Lifecycle)
    requires Spent(lifecycles, released, next) && item in lifecycles && l.settled && !l.onAbort
    ensures Spent(lifecycles - {item}, released[item := l], next)
  {}

  lemma SpentNew(lifecycles: map<nat, Lifecycle>, released: map<nat, Lifecycle>, next: nat, l: Lifecycle)
    requires Spent(lifecycles, released, next)
    ensures Spent(lifecycles[next := l], released, next + 1)
  {}

  /** Request `k` moves to the end of the sent queue, with nothing written yet. */
  function Promote(m: Model, k: nat): Model
    requires k < |m.pending|
  {
    m.(pending := RemoveAt(m.pending, k), sent := m.sent + [m.pending[k]], trace := m.trace + [Promoted(m.pending[k])])
  }

  /** A request that waits for the connection: its record, and the maps after all its ids are promoted. */
  lemma PromotionPlan(m: Model, payloads: map<nat, Payload>, lifecycles: map<nat, Lifecycle>, h: nat)
      returns (r: Request, n: Model)
    requires Stocked(m) && Tracked(m, payloads, lifecycles) && h in Handles(m.pending)
    ensures h in payloads && h in lifecycles && r == Request(h, payloads[h], lifecycles[h].ids) && WellFormed(r)
    ensures n == m.(pending := n.pending, sent := m.sent + [r], trace := m.trace + [Promoted(r)])
    ensures Handles(n.pending) == Handles(m.pending) - {h}
    ensures Stocked(n) && Tracked(n, payloads, lifecycles)
    ensures Distinct(r.ids) && forall i | 0 <= i < |r.ids| :: r.ids[i] in Keys(Flatten(m.pending))
    ensures DeleteAll(Flatten(m.pending), r.ids) == Flatten(n.pending)
    ensures SetAll(Flatten(m.sent), r.ids, h) == Flatten(n.sent)
    ensures PromoteOne(m, h, true).pending == n.pending
    ensures PromoteOne(m, h, false) == n.(trace := n.trace + [Wrote(r)])
    ensures forall id <- r.ids :: PromoteOne(m, h, true)
              == Settle(n.(trace := n.trace + [WriteFailed(r)]), id, Rejected(SendFailed))
  {
    hide Stocked, Tracked, Flatten, DeleteAll, SetAll, WellFormed;
    HandlesAt(m.pending, h);
    var k := RequestIndex(m.pending, h);
    r := m.pending[k];
    n := Promote(m, k);
    PromotionMaps(m, k);
    PromotionKeepsStock(m, k);
    PromotionRecords(m, k, payloads, lifecycles);
    PromotedOwner(m, k);
    assert m.trace + ([Promoted(r)] + WriteEffects(r, false)) == n.trace + [Wrote(r)];
    assert m.trace + ([Promoted(r)] + WriteEffects(r, true)) == n.trace + [WriteFailed(r)]
      + [Settled(r, Rejected(SendFailed))];
  }

  lemma PromotionMaps(m: Model, k: nat)
    requires Stocked(m) && k < |m.pending|
    ensures var r := m.pending[k];
      && WellFormed(r) && Distinct(r.ids)
      && (forall i | 0 <= i < |r.ids| :: r.ids[i] in Keys(Flatten(m.pending)))
      && DeleteAll(Flatten(m.pending), r.ids) == Flatten(RemoveAt(m.pending, k))
      && SetAll(Flatten(m.sent), r.ids, r.handle) == Flatten(m.sent + [r])
  {
    var r := m.pending[k];
    SoundParts(m.pending, m.sent);
    SoundIsLone(m.pending, k);
    DeleteRequest(m.pending, k);
    FreeAcross(m.pending, m.sent, k, false);
    SetRequest(m.sent, r);
    forall i | 0 <= i < |r.ids| ensures r.ids[i] in Keys(Flatten(m.pending)) {
      KeysAreOwned(m.pending, r.ids[i]);
      OwnedIff(m.pending, r.ids[i]);
    }
  }

  lemma PromotionKeepsStock(m: Model, k: nat)
    requires Stocked(m) && k < |m.pending|
    ensures Stocked(Promote(m, k))
  {
    var r, p := m.pending[k], RemoveAt(m.pending, k);
    assert Sound(p + (m.sent + [r])) by { PromotionKeepsSound(m.pending, m.sent, k); }
    SlotCountRemove(m.pending, k);
    SlotCountConcat(m.sent, [r]);
    assert [r][1..] == [];
    forall s | s in p + (m.sent + [r]) ensures s in m.pending + m.sent {}
  }

  lemma PromotionKeepsSound(a: seq<Request>, b: seq<Request>, k: nat)
    requires Sound(a + b) && k < |a|
    ensures Sound(RemoveAt(a, k) + (b + [a[k]]))
  {
    var q, p := a + b, RemoveAt(a, k) + b;
    SoundRemove(a, b, k);
    assert WellFormed(q[k]);
    forall s | s in p ensures Apart(s, a[k]) {
      var i :| 0 <= i < |p| && p[i] == s;
      var j := if i < k then i else i + 1;
      assert q[j] == s && q[k] == a[k];
      if j < k { assert Apart(q[j], q[k]); } else { assert Apart(q[k], q[j]); }
    }
    SoundInsert(RemoveAt(a, k), b, a[k]);
  }

  lemma PromotionRecords(m: Model, k: nat, payloads: map<nat, Payload>, lifecycles: map<nat, Lifecycle>)
    requires Stocked(m) && Tracked(m, payloads, lifecycles) && k < |m.pending|
    ensures Handles(RemoveAt(m.pending, k)) == Handles(m.pending) - {m.pending[k].handle}
    ensures Tracked(Promote(m, k), payloads, lifecycles)
    ensures RecordOf(m.pending[k], payloads, lifecycles)
  {
    var r, p := m.pending[k], RemoveAt(m.pending, k);
    SoundParts(m.pending, m.sent);
    HandlesRemove(m.pending, k);
    HandlesConcat(m.sent, [r]);
    assert [r][1..] == [];
    forall i | 0 <= i < |p| ensures RecordOf(p[i], payloads, lifecycles) {
      assert p[i] == m.pending[if i < k then i else i + 1];
    }
    forall i | 0 <= i < |m.sent + [r]| ensures RecordOf((m.sent + [r])[i], payloads, lifecycles) {
      assert RecordOf(r, payloads, lifecycles);
    }
  }

  /** After its promotion a request is found in the sent queue, last, by any of its ids. */
  lemma PromotedOwner(m: Model, k: nat)
    requires Stocked(m) && k < |m.pending|
    ensures forall id <- m.pending[k].ids :: OwnerIndex(m.sent + [m.pending[k]], id) == |m.sent|
    ensures RemoveAt(m.sent + [m.pending[k]], |m.sent|) == m.sent
  {
    var r := m.pending[k];
    var q := m.pending + m.sent;
    forall id | id in r.ids ensures OwnerIndex(m.sent + [r], id) == |m.sent| {
      forall i | 0 <= i < |m.sent| ensures id !in m.sent[i].ids {
        assert Apart(q[k], q[|m.pending| + i]);
      }
      OwnedIff(m.sent + [r], id);
      assert (m.sent + [r])[|m.sent|] == r;
      assert r in m.sent + [r];
    }
  }

  function Note(m: Model, e: Effect): Model { m.(trace := m.trace + [e]) }

  /** Only the queues and their bounds decide about stock and records. */
  lemma SameQueues(m: Model, n: Model, payloads: map<nat, Payload>, lifecycles: map<nat, Lifecycle>)
    requires Stocked(m) && Tracked(m, payloads, lifecycles)
    requires n.pending == m.pending && n.sent == m.sent && n.cfg == m.cfg && n.next == m.next && n.peak == m.peak
    ensures Stocked(n) && Tracked(n, payloads, lifecycles)
  {
    hide Sound, RecordsOf, Handles, SlotCount;
  }

  /** The state right after admission: counted, recorded and queued, with nothing written yet. */
  function Enter(m: Model, r: Request, parked: bool): Model {
    m.(next := m.next + 1, peak := Max(m.peak, InFlight(m) + |r.ids|), trace := m.trace + [Admitted(r, parked)],
       pending := if parked then m.pending + [r] else m.pending, sent := if parked then m.sent else m.sent + [r])
  }

  predicate Fresh(m: Model, r: Request) {
    && WellFormed(r) && r.handle == m.next
    && (forall id <- r.ids :: !Owned(m.sent, id) && !Owned(m.pending, id))
    && InFlight(m) + |r.ids| <= m.cfg.maxInFlight
  }

  lemma FreshIsApart(m: Model, r: Request)
    requires Stocked(m) && Fresh(m, r)
    ensures forall s <- m.pending + m.sent :: Apart(s, r)
  {
    forall s | s in m.pending + m.sent ensures Apart(s, r) {
      forall id | id in s.ids ensures id !in r.ids {
        OwnedIff(m.pending, id);
        OwnedIff(m.sent, id);
      }
    }
  }

  lemma EntryKeepsStock(m: Model, r: Request, parked: bool)
    requires Stocked(m) && Fresh(m, r)
    ensures Stocked(Enter(m, r, parked)) && InFlight(Enter(m, r, parked)) == InFlight(m) + |r.ids|
  {
    FreshIsApart(m, r);
    SoundInsert(m.pending, m.sent, r);
    SlotCountConcat(m.pending, [r]);
    SlotCountConcat(m.sent, [r]);
    assert [r][1..] == [];
  }

  lemma EntryMaps(m: Model, r: Request, parked: bool)
    requires Fresh(m, r)
    ensures parked ==> SetAll(Flatten(m.pending), r.ids, r.handle) == Flatten(Enter(m, r, parked).pending)
    ensures !parked ==> SetAll(Flatten(m.sent), r.ids, r.handle) == Flatten(Enter(m, r, parked).sent)
  {
    SetRequest(if parked then m.pending else m.sent, r);
  }

  lemma RecordsWith(q: seq<Request>, payloads: map<nat, Payload>, lifecycles: map<nat, Lifecycle>, h: nat,
      payload: Payload, l: Lifecycle)
    requires RecordsOf(q, payloads, lifecycles) && forall r <- q :: r.handle < h
    ensures RecordsOf(q, payloads[h := payload], lifecycles[h := l])
  {
    forall i | 0 <= i < |q| ensures RecordOf(q[i], payloads[h := payload], lifecycles[h := l]) {
      assert q[i] in q && RecordOf(q[i], payloads, lifecycles);
    }
  }

  lemma EntryRecords(m: Model, r: Request, parked: bool, payloads: map<nat, Payload>, lifecycles: map<nat, Lifecycle>)
    requires Stocked(m) && Tracked(m, payloads, lifecycles) && r.handle == m.next
    ensures Tracked(Enter(m, r, parked), payloads[r.handle := r.payload],
      lifecycles[r.handle := Lifecycle(r.ids, true, false)])
  {
    hide Sound, SlotCount, RecordsOf;
    var l := Lifecycle(r.ids, true, false);
    forall s | s in m.pending || s in m.sent ensures s.handle < m.next { assert s in m.pending + m.sent; }
    RecordsWith(m.pending, payloads, lifecycles, r.handle, r.payload, l);
    RecordsWith(m.sent, payloads, lifecycles, r.handle, r.payload, l);
    HandlesConcat(m.pending, [r]);
    HandlesConcat(m.sent, [r]);
    assert [r][1..] == [];
    RecordsSnoc(if parked then m.pending else m.sent, r, payloads[r.handle := r.payload], lifecycles[r.handle := l]);
  }

  lemma RecordsSnoc(q: seq<Request>, r: Request, payloads: map<nat, Payload>, lifecycles: map<nat, Lifecycle>)
    requires RecordsOf(q, payloads, lifecycles) && RecordOf(r, payloads, lifecycles)
    ensures RecordsOf(q + [r], payloads, lifecycles)
  {}

  /** Writing, or failing to write, turns the entered state into the admitted one. */
  lemma EntryThenWrite(m: Model, r: Request)
    requires Stocked(m) && Fresh(m, r)
    ensures Admit(m, r, true, false) == Enter(m, r, true) == Admit(m, r, true, true)
    ensures Admit(m, r, false, false) == Note(Enter(m, r, false), Wrote(r))
    ensures r.ids != []
    ensures Admit(m, r, false, true) == Settle(Note(Enter(m, r, false), WriteFailed(r)), r.ids[0], Rejected(SendFailed))
  {
    hide Sound, SlotCount, Stocked;
    var n := Enter(m, r, false);
    assert m.trace + ([Admitted(r, false)] + WriteEffects(r, false)) == n.trace + [Wrote(r)];
    assert m.trace + ([Admitted(r, false)] + WriteEffects(r, true)) == n.trace + [WriteFailed(r)]
      + [Settled(r, Rejected(SendFailed))];
    LastOwner(m.sent, r, r.ids[0]);
  }

  lemma LastOwner(q: seq<Request>, r: Request, id: Id)
    requires id in r.ids && !Owned(q, id)
    ensures OwnerIndex(q + [r], id) == |q| && RemoveAt(q + [r], |q|) == q
  {
    forall i | 0 <= i < |q| ensures id !in q[i].ids { assert q[i] in q; OwnedIff(q, id); }
    OwnedIff(q + [r], id);
    assert (q + [r])[|q|] == r;
    assert r in q + [r];
  }

  lemma LostByReconnect(m: Model)
    requires Stocked(m)
    ensures SettleEach(m, Keys(Flatten(m.sent)), Rejected(LostOnReconnect)) == RejectSent(m, LostOnReconnect)
    ensures Flatten(m.sent) == [] ==> RejectSent(m, LostOnReconnect) == m
  {
    SettleSentIsRejectSent(m, LostOnReconnect);
  }

  /** An entry of the snapshot whose item still waits: the item is parked and owns the entry's id. */
  predicate Waiting(e: (Id, nat), pending: seq<Request>, lifecycles: map<nat, Lifecycle>) {
    e.1 in Handles(pending) && e.1 in lifecycles && e.0 in lifecycles[e.1].ids
  }

  lemma {:induction false} EntriesWait(q: seq<Request>, payloads: map<nat, Payload>, lifecycles: map<nat, Lifecycle>)
    requires RecordsOf(q, payloads, lifecycles)
    ensures forall j | 0 <= j < |Flatten(q)| :: Waiting(Flatten(q)[j], q, lifecycles)
  {
    if q != [] {
      assert RecordOf(q[0], payloads, lifecycles);
      forall i | 0 <= i < |q[1..]| ensures RecordOf(q[1..][i], payloads, lifecycles) { assert q[1..][i] == q[i + 1]; }
      EntriesWait(q[1..], payloads, lifecycles);
      var b, f := Block(q[0].ids, q[0].handle), Flatten(q[1..]);
      forall j | 0 <= j < |b + f| ensures Waiting((b + f)[j], q, lifecycles) {
        if j < |b| {
          assert (b + f)[j] == (q[0].ids[j], q[0].handle);
        } else {
          assert Waiting(f[j - |b|], q[1..], lifecycles);
        }
      }
    }
  }

  /** The snapshot of the pending map: every entry waits, and walking over it is a drain. */
  lemma DrainPlan(m: Model, payloads: map<nat, Payload>, lifecycles: map<nat, Lifecycle>, throws: set<nat>)
    requires Stocked(m) && Tracked(m, payloads, lifecycles)
    ensures DrainEach(m, Flatten(m.pending), {}, throws) == Drain(m, throws)
    ensures forall j | 0 <= j < |Flatten(m.pending)| :: Waiting(Flatten(m.pending)[j], m.pending, lifecycles)
  {
    SoundParts(m.pending, m.sent);
    DrainEachIsDrain(m, {}, throws);
    EntriesWait(m.pending, payloads, lifecycles);
  }

  /** A request in flight is the one its primary id settles. */
  lemma CancelPlan(m: Model, payloads: map<nat, Payload>, lifecycles: map<nat, Lifecycle>, h: nat, why: Failure)
    requires Stocked(m) && Tracked(m, payloads, lifecycles) && h in lifecycles
    ensures lifecycles[h].ids != []
    ensures Settle(m, lifecycles[h].ids[0], Rejected(why)) == Cancel(m, h, why)
    ensures var n := Cancel(m, h, why); h !in Handles(n.pending) && h !in Handles(n.sent)
  {
    SoundParts(m.pending, m.sent);
    DisjointHandles(m.pending, m.sent);
    HandlesAt(m.sent, h);
    HandlesAt(m.pending, h);
    var inSent := RequestIndex(m.sent, h) < |m.sent|;
    var q := if inSent then m.sent else m.pending;
    var k := RequestIndex(q, h);
    assert RecordOf(q[k], payloads, lifecycles) && WellFormed(q[k]);
    SoundIsLone(q, k);
    HandlesRemove(q, k);
    LoneOwner(q, k, q[k].ids[0]);
    FreeAcross(m.pending, m.sent, k, inSent);
  }

  lemma LoneOwner(q: seq<Request>, k: nat, id: Id)
    requires k < |q| && Lone(q, k) && id in q[k].ids
    ensures OwnerIndex(q, id) == k
  {
    forall i | 0 <= i < k ensures id !in q[i].ids {
      assert q[..k][i] == q[i] && q[i] in q[..k];
      OwnedIff(q[..k], id);
    }
    assert q[k] in q;
    OwnedIff(q, id);
  }

  lemma CancelNothing(m: Model, payloads: map<nat, Payload>, lifecycles: map<nat, Lifecycle>, h: nat, why: Failure)
    requires Tracked(m, payloads, lifecycles) && h !in lifecycles
    ensures Cancel(m, h, why) == m
  {
    HandlesAt(m.sent, h);
    HandlesAt(m.pending, h);
  }

  /** Whether a call is refused, once the position of the first id already in use is known. */
  lemma RefusalByPosition(m: Model, call: Call, k: nat)
    requires ExtractIds(call.payload).Ok? && k <= |ExtractIds(call.payload).value|
    requires var ids := ExtractIds(call.payload).value;
      && (forall i | 0 <= i < k :: !Owned(m.sent, ids[i]) && !Owned(m.pending, ids[i]))
      && (k < |ids| ==> Owned(m.sent, ids[k]) || Owned(m.pending, ids[k]))
    ensures var ids := ExtractIds(call.payload).value;
      Refusal(m, call) ==
        if k < |ids| then Some(AlreadySent(ids[k]))
        else if InFlight(m) + |ids| > m.cfg.maxInFlight then Some(QueueFull)
        else if call.signal.Aborted? then Some(AbortedBefore(call.signal.reason))
        else if call.timeout.Some? && !ValidTimeout(call.timeout.value) then Some(InvalidTimeout)
        else None
  {
    var ids := ExtractIds(call.payload).value;
    if k < |ids| {
      assert ids[k] in ids;
    }
  }

  lemma NotRefusedIsFresh(m: Model, call: Call)
    requires Refusal(m, call) == None
    ensures ExtractIds(call.payload).Ok? && Fresh(m, Request(m.next, call.payload, ExtractIds(call.payload).value))
  {}

  lemma AcceptedIsIdle(m: Model, call: Call)
    requires Refusal(m, call) == None
    ensures !call.signal.Aborted?
  {}

  /** What the caller of an aborted request is told. */
  function Why(reason: AbortHelpers.Reason): Failure {
    match reason
    case Deadline(_) => TimedOut
    case Caller(r) => CallerAborted(r)
  }

  lemma EntryPlan(m: Model, r: Request, parked: bool, payloads: map<nat, Payload>, lifecycles: map<nat, Lifecycle>)
      returns (n: Model)
    requires Stocked(m) && Fresh(m, r) && Tracked(m, payloads, lifecycles)
    ensures n == Enter(m, r, parked) && r.handle == m.next
    ensures Stocked(n)
      && Tracked(n, payloads[r.handle := r.payload], lifecycles[r.handle := Lifecycle(r.ids, true, false)])
    ensures Flatten(n.pending) == if parked then SetAll(Flatten(m.pending), r.ids, r.handle) else Flatten(m.pending)
    ensures Flatten(n.sent) == if parked then Flatten(m.sent) else SetAll(Flatten(m.sent), r.ids, r.handle)
    ensures n.peak == Max(m.peak, |Flatten(n.pending)| + |Flatten(n.sent)|)
  {
    hide Stocked, Tracked, Flatten, SlotCount, WellFormed, Owned, SetAll;
    n := Enter(m, r, parked);
    EntryKeepsStock(m, r, parked);
    EntryMaps(m, r, parked);
    EntryRecords(m, r, parked, payloads, lifecycles);
    FlattenSize(n.pending);
    FlattenSize(n.sent);
  }

  lemma CoversNew(lifecycles: map<nat, Lifecycle>, compositions: map<nat, AbortHelpers.Composition>, h: nat,
      l: Lifecycle, c: AbortHelpers.Composition)
    requires Covers(lifecycles, compositions) && c.Disposable()
    ensures Covers(lifecycles[h := l], compositions[h := c])
  {}

  /** Only the composition of a request in flight can still hold a timer or listen on the caller's signal. */
  lemma CoversIdle(lifecycles: map<nat, Lifecycle>, compositions: map<nat, AbortHelpers.Composition>, h: nat)
    requires Covers(lifecycles, compositions)
    ensures h in lifecycles ==> h in compositions
    ensures h in compositions && h !in lifecycles ==>
      !compositions[h].timer && !compositions[h].listener
        && compositions[h := AbortHelpers.Teardown(compositions[h])] == compositions
  {}

  lemma CoversOther(lifecycles: map<nat, Lifecycle>, compositions: map<nat, AbortHelpers.Composition>, h: nat,
      c: AbortHelpers.Composition)
    requires Covers(lifecycles, compositions) && h in lifecycles && c.Disposable()
    ensures Covers(lifecycles, compositions[h := c])
  {}
}
