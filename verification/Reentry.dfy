/** What holds when a callback of the provider calls back into it. Diagnostics and message listeners run in
    the middle of a request, a reply or a connect; whatever they call comes between two of the steps below,
    none of which is interrupted. So every nesting, however deep, is one sequence of these steps. */
module Reentry {
  import opened Wrappers
  import opened RequestModel

  /** The two id maps by item, the ids in the record of every item that has one, and the items settled so far. */
  datatype Slots = Slots(pending: map<Id, nat>, sent: map<Id, nat>, records: map<nat, seq<Id>>, next: nat,
      settled: seq<nat>)

  const NOTHING := Slots(map[], map[], map[], 0, [])

  datatype Step =
    | Settling(id: Id)                         // `_settleRequest` up to its diagnostics
    | Enrolling(ids: seq<Id>, parked: bool)    // `request` up to its diagnostics
    | Promoting(id: Id, item: nat)             // one snapshot entry of `_sendPendingRequests` up to its write

  function IdsOf(s: Slots, id: Id, item: nat): seq<Id> { if item in s.records then s.records[item] else [id] }

  function SettleSlots(s: Slots, id: Id): Slots {
    if id !in s.sent && id !in s.pending then s
    else
      var item := if id in s.sent then s.sent[id] else s.pending[id];
      var ids := set i <- IdsOf(s, id, item);
      s.(pending := s.pending - ids, sent := s.sent - ids, records := s.records - {item}, settled := s.settled + [item])
  }

  predicate Free(s: Slots, ids: seq<Id>) {
    ids != [] && Distinct(ids) && forall id <- ids :: id !in s.pending && id !in s.sent
  }

  /** All ids of an item enter one map. */
  function Queued(slots: map<Id, nat>, ids: seq<Id>, item: nat): (r: map<Id, nat>)
    ensures forall id :: id in r <==> id in slots || id in ids
    ensures forall id <- r :: r[id] == if id in ids then item else slots[id]
  {
    slots + map id | id in ids :: item
  }

  function EnrollSlots(s: Slots, ids: seq<Id>, parked: bool): Slots {
    if !Free(s, ids) then s
    else
      s.(pending := if parked then Queued(s.pending, ids, s.next) else s.pending,
         sent := if parked then s.sent else Queued(s.sent, ids, s.next),
         records := s.records[s.next := ids], next := s.next + 1)
  }

  function PromoteSlots(s: Slots, id: Id, item: nat): Slots {
    var moved := set i <- IdsOf(s, id, item) | i in s.pending;
    s.(pending := s.pending - moved, sent := s.sent + map i | i in moved :: item)
  }

  function Apply(s: Slots, step: Step): Slots {
    match step
    case Settling(id) => SettleSlots(s, id)
    case Enrolling(ids, parked) => EnrollSlots(s, ids, parked)
    case Promoting(id, item) => PromoteSlots(s, id, item)
  }

  function Run(s: Slots, steps: seq<Step>): Slots
    decreases |steps|
  {
    if |steps| == 0 then s else Run(Apply(s, steps[0]), steps[1..])
  }

  // ---------- What is kept ----------

  predicate AllIn(ids: seq<Id>, slots: map<Id, nat>, item: nat) {
    forall id <- ids :: id in slots && slots[id] == item
  }

  /** Every id leads to a record that lists it, and all ids of a record are in one of the two maps. */
  predicate Linked(s: Slots) {
    && (forall id <- s.pending :: id !in s.sent && s.pending[id] in s.records && id in s.records[s.pending[id]])
    && (forall id <- s.sent :: s.sent[id] in s.records && id in s.records[s.sent[id]])
    && (forall item <- s.records ::
          item < s.next && s.records[item] != []
          && (AllIn(s.records[item], s.pending, item) || AllIn(s.records[item], s.sent, item)))
  }

  /** An item has been settled once if it has been made and its record is gone, and not at all otherwise. */
  ghost predicate Once(s: Slots) {
    forall item: nat :: multiset(s.settled)[item] == if item < s.next && item !in s.records then 1 else 0
  }

  /** A snapshot entry whose item is gone while its id waits for somebody else. */
  predicate Stale(s: Slots, step: Step) {
    step.Promoting? && step.item !in s.records && step.id in s.pending
  }

  lemma SettleKeepsOnce(s: Slots, item: nat)
    requires Once(s) && item in s.records && item < s.next
    ensures Once(s.(records := s.records - {item}, settled := s.settled + [item]))
  {
    assert multiset(s.settled + [item]) == multiset(s.settled) + multiset{item};
  }

  lemma SettleLinks(s: Slots, id: Id)
    requires Linked(s)
    ensures Linked(SettleSlots(s, id))
  {
    var n := SettleSlots(s, id);
    forall other | other in n.records
      ensures AllIn(n.records[other], n.pending, other) || AllIn(n.records[other], n.sent, other) {
      assert other in s.records;
    }
  }

  lemma SettleKeeps(s: Slots, id: Id)
    requires Linked(s) && Once(s)
    ensures Linked(SettleSlots(s, id)) && Once(SettleSlots(s, id))
  {
    SettleLinks(s, id);
    if id in s.sent || id in s.pending {
      var item := if id in s.sent then s.sent[id] else s.pending[id];
      SettleKeepsOnce(s, item);
    }
  }

  lemma EnrollKeepsOnce(s: Slots, ids: seq<Id>, parked: bool)
    requires Once(s)
    ensures Once(EnrollSlots(s, ids, parked))
  {
    hide Free;
  }

  lemma EnrollParked(s: Slots, ids: seq<Id>)
    requires Linked(s) && Free(s, ids)
    ensures Linked(EnrollSlots(s, ids, true))
  {
    hide Queued;
    var n := EnrollSlots(s, ids, true);
    assert AllIn(ids, n.pending, s.next);
    forall item | item in s.records
      ensures AllIn(n.records[item], n.pending, item) || AllIn(n.records[item], n.sent, item) {
      assert AllIn(s.records[item], s.sent, item) ==> AllIn(n.records[item], n.sent, item);
    }
  }

  lemma EnrollSent(s: Slots, ids: seq<Id>)
    requires Linked(s) && Free(s, ids)
    ensures Linked(EnrollSlots(s, ids, false))
  {
    hide Queued;
    var n := EnrollSlots(s, ids, false);
    assert AllIn(ids, n.sent, s.next);
    forall item | item in s.records
      ensures AllIn(n.records[item], n.pending, item) || AllIn(n.records[item], n.sent, item) {
      assert AllIn(s.records[item], s.pending, item) ==> AllIn(n.records[item], n.pending, item);
    }
  }

  lemma EnrollKeeps(s: Slots, ids: seq<Id>, parked: bool)
    requires Linked(s) && Once(s)
    ensures Linked(EnrollSlots(s, ids, parked)) && Once(EnrollSlots(s, ids, parked))
  {
    EnrollKeepsOnce(s, ids, parked);
    hide Linked, Once;
    if Free(s, ids) {
      if parked { EnrollParked(s, ids); } else { EnrollSent(s, ids); }
    }
  }

  lemma PromoteKeeps(s: Slots, id: Id, item: nat)
    requires Linked(s) && Once(s) && (item in s.records || id !in s.pending)
    ensures Linked(PromoteSlots(s, id, item)) && Once(PromoteSlots(s, id, item))
  {
    hide PromoteSlots;
    var ids := IdsOf(s, id, item);
    SameHistory(s, id, item);
    if item in s.records && AllIn(ids, s.pending, item) {
      PromoteParked(s, id, item);
    } else {
      PromoteNothing(s, id, item);
    }
  }

  lemma PromoteNothing(s: Slots, id: Id, item: nat)
    requires forall i <- IdsOf(s, id, item) :: i !in s.pending
    ensures PromoteSlots(s, id, item) == s
  {
    assert (set i <- IdsOf(s, id, item) | i in s.pending) == {};
  }

  lemma SameHistory(s: Slots, id: Id, item: nat)
    ensures var n := PromoteSlots(s, id, item); n.records == s.records && n.next == s.next && n.settled == s.settled
  {}

  lemma PromoteParked(s: Slots, id: Id, item: nat)
    requires Linked(s) && item in s.records && AllIn(s.records[item], s.pending, item)
    ensures Linked(PromoteSlots(s, id, item))
  {
    var n, ids := PromoteSlots(s, id, item), s.records[item];
    assert forall i :: i in n.pending <==> i in s.pending && i !in ids;
    assert forall i :: i in n.sent <==> i in s.sent || i in ids;
    forall other | other in s.records
      ensures AllIn(n.records[other], n.pending, other) || AllIn(n.records[other], n.sent, other) {
      assert other != item && AllIn(s.records[other], s.pending, other) ==> forall i <- s.records[other] :: i !in ids;
    }
  }

  /** From a state in order, a step leads to a state in order exactly when it is not a stale promotion. */
  lemma KeptExactly(s: Slots, step: Step)
    requires Linked(s) && Once(s)
    ensures Linked(Apply(s, step)) <==> !Stale(s, step)
    ensures !Stale(s, step) ==> Once(Apply(s, step))
  {
    match step
    case Settling(id) => SettleKeeps(s, id);
    case Enrolling(ids, parked) => EnrollKeeps(s, ids, parked);
    case Promoting(id, item) =>
      if Stale(s, step) {
        assert Apply(s, step).sent[id] == item;
      } else {
        PromoteKeeps(s, id, item);
      }
  }

  predicate NeverStale(s: Slots, steps: seq<Step>)
    decreases |steps|
  {
    |steps| > 0 ==> !Stale(s, steps[0]) && NeverStale(Apply(s, steps[0]), steps[1..])
  }

  lemma {:induction false} RunKeeps(s: Slots, steps: seq<Step>)
    requires Linked(s) && Once(s) && NeverStale(s, steps)
    ensures Linked(Run(s, steps)) && Once(Run(s, steps))
    decreases |steps|
  {
    if steps != [] {
      KeptExactly(s, steps[0]);
      RunKeeps(Apply(s, steps[0]), steps[1..]);
    }
  }

  /** The ids lead to their own requests all along. */
  predicate AlwaysLinked(s: Slots, steps: seq<Step>)
    decreases |steps|
  {
    Linked(s) && (|steps| > 0 ==> AlwaysLinked(Apply(s, steps[0]), steps[1..]))
  }

  /** That is so exactly when no promotion is stale. */
  lemma {:induction false} LinkedExactly(s: Slots, steps: seq<Step>)
    requires Linked(s) && Once(s)
    ensures AlwaysLinked(s, steps) <==> NeverStale(s, steps)
    decreases |steps|
  {
    hide Linked, Once, Apply, Stale;
    if steps != [] {
      KeptExactly(s, steps[0]);
      if !Stale(s, steps[0]) { LinkedExactly(Apply(s, steps[0]), steps[1..]); }
    }
  }

  lemma NothingIsLinked()
    ensures Linked(NOTHING) && Once(NOTHING)
  {}

  /** However callbacks nest: the ids lead to their own requests all along exactly when no promotion is stale,
      and then every request has been settled once if its record is gone, and not at all while it has one. */
  lemma NestedRunsSettleOnce(steps: seq<Step>)
    ensures AlwaysLinked(NOTHING, steps) <==> NeverStale(NOTHING, steps)
    ensures NeverStale(NOTHING, steps) ==> Linked(Run(NOTHING, steps)) && Once(Run(NOTHING, steps))
  {
    NothingIsLinked();
    LinkedExactly(NOTHING, steps);
    if NeverStale(NOTHING, steps) { RunKeeps(NOTHING, steps); }
  }

  // ---------- When a promotion becomes stale ----------

  /** The snapshot of the parked requests has an entry: the id leads to the item. */
  predicate Listed(s: Slots, id: Id, item: nat) {
    item < s.next && (item in s.records ==> id in s.records[item])
  }

  lemma {:induction false} StaysListed(s: Slots, steps: seq<Step>, id: Id, item: nat)
    requires Listed(s, id, item)
    ensures Listed(Run(s, steps), id, item)
    decreases |steps|
  {
    if steps != [] { StaysListed(Apply(s, steps[0]), steps[1..], id, item); }
  }

  /** While another item owns an id, no record of the first one lists it. */
  lemma OneOwner(s: Slots, id: Id, item: nat)
    requires Linked(s) && Listed(s, id, item)
    ensures Stale(s, Promoting(id, item)) <==> id in s.pending && s.pending[id] != item
  {
    if item in s.records && id in s.pending {
      assert id in s.records[item];
    }
  }

  /** An entry taken into the snapshot is stale at its turn exactly when another request waits under its id by
      then. Whatever has happened in between, callbacks included. */
  lemma StaleExactly(s: Slots, steps: seq<Step>, id: Id, item: nat)
    requires Linked(s) && Once(s) && NeverStale(s, steps) && id in s.pending && s.pending[id] == item
    ensures var n := Run(s, steps);
      Stale(n, Promoting(id, item)) <==> id in n.pending && n.pending[id] != item
  {
    hide Run, NeverStale;
    RunKeeps(s, steps);
    StaysListed(s, steps, id, item);
    OneOwner(Run(s, steps), id, item);
  }

  predicate Parks(step: Step, id: Id) { step.Enrolling? && step.parked && id in step.ids }

  /** The id still belongs to the item, or to nobody who waits. */
  predicate Ours(s: Slots, id: Id, item: nat) { id in s.pending ==> s.pending[id] == item }

  lemma StepStaysOurs(s: Slots, step: Step, id: Id, item: nat)
    requires Ours(s, id, item) && !Parks(step, id)
    ensures Ours(Apply(s, step), id, item)
  {}

  lemma {:induction false} StaysOurs(s: Slots, steps: seq<Step>, id: Id, item: nat)
    requires Ours(s, id, item) && forall step <- steps :: !Parks(step, id)
    ensures Ours(Run(s, steps), id, item)
    decreases |steps|
  {
    hide Apply;
    if steps != [] {
      assert steps[0] in steps && forall step <- steps[1..] :: step in steps;
      StepStaysOurs(s, steps[0], id, item);
      StaysOurs(Apply(s, steps[0]), steps[1..], id, item);
    }
  }

  /** So it takes a callback that parks a new request under the same id. */
  lemma StaleOnlyByReuse(s: Slots, steps: seq<Step>, id: Id, item: nat)
    requires Linked(s) && Once(s) && NeverStale(s, steps) && id in s.pending && s.pending[id] == item
    requires forall step <- steps :: !Parks(step, id)
    ensures !Stale(Run(s, steps), Promoting(id, item))
  {
    hide Run, NeverStale, Stale;
    StaysOurs(s, steps, id, item);
    StaleExactly(s, steps, id, item);
  }

  // ---------- Such a callback ----------

  const A := Num(1)
  const B := Num(2)

  /** Two requests are parked, the connection opens, and the write of the first one fails. Its settlement
      reports to `onDiagnostics`, where the caller disconnects and issues a new request under the second id,
      which is parked while the provider dials again. Then comes the second entry of the snapshot. */
  const REUSE: seq<Step> := [
    Enrolling([A], true), Enrolling([B], true),
    Promoting(A, 0), Settling(A),
    Settling(B), Enrolling([B], true),
    Promoting(B, 1), Settling(B)]

  lemma EnrollOne(s: Slots, id: Id)
    requires id !in s.pending && id !in s.sent
    ensures EnrollSlots(s, [id], true)
         == Slots(s.pending[id := s.next], s.sent, s.records[s.next := [id]], s.next + 1, s.settled)
  {
    assert id in [id] && Free(s, [id]);
    assert Queued(s.pending, [id], s.next) == s.pending[id := s.next];
  }

  lemma PromoteOne(s: Slots, id: Id, item: nat)
    requires id in s.pending && IdsOf(s, id, item) == [id]
    ensures PromoteSlots(s, id, item) == s.(pending := s.pending - {id}, sent := s.sent[id := item])
  {
    assert (set i <- [id] | i in s.pending) == {id};
    assert s.sent + map[id := item] == s.sent[id := item];
  }

  lemma SettleOne(s: Slots, id: Id, item: nat)
    requires (id in s.sent && s.sent[id] == item) || (id !in s.sent && id in s.pending && s.pending[id] == item)
    requires IdsOf(s, id, item) == [id]
    ensures SettleSlots(s, id)
         == Slots(s.pending - {id}, s.sent - {id}, s.records - {item}, s.next, s.settled + [item])
  {
    assert (set i <- [id]) == {id};
  }

  /** The states before the callback, and those after it. */
  lemma FirstStates()
    ensures var s2 := Slots(map[A := 0, B := 1], map[], map[0 := [A], 1 := [B]], 2, []);
      && Apply(Apply(NOTHING, REUSE[0]), REUSE[1]) == s2
      && Apply(Apply(s2, REUSE[2]), REUSE[3]) == Slots(map[B := 1], map[], map[1 := [B]], 2, [0])
  {
    hide SettleSlots, EnrollSlots, PromoteSlots;
    var s1 := Slots(map[A := 0], map[], map[0 := [A]], 1, []);
    var s2 := Slots(map[A := 0, B := 1], map[], map[0 := [A], 1 := [B]], 2, []);
    var s3 := s2.(pending := map[B := 1], sent := map[A := 0]);
    EnrollOne(NOTHING, A);
    EnrollOne(s1, B);
    PromoteOne(s2, A, 0);
    SettleOne(s3, A, 0);
    assert s2.pending - {A} == map[B := 1] && s3.sent - {A} == map[] && s3.pending - {A} == map[B := 1];
    assert s2.records - {0} == map[1 := [B]] && [] + [0] == [0];
  }

  lemma LastStates()
    ensures var s4 := Slots(map[B := 1], map[], map[1 := [B]], 2, [0]);
      var s6 := Slots(map[B := 2], map[], map[2 := [B]], 3, [0, 1]);
      && Apply(Apply(s4, REUSE[4]), REUSE[5]) == s6
      && Apply(Apply(s6, REUSE[6]), REUSE[7]) == Slots(map[], map[], map[2 := [B]], 3, [0, 1, 1])
  {
    hide SettleSlots, EnrollSlots, PromoteSlots;
    var s4 := Slots(map[B := 1], map[], map[1 := [B]], 2, [0]);
    var s5 := Slots(map[], map[], map[], 2, [0, 1]);
    var s6 := Slots(map[B := 2], map[], map[2 := [B]], 3, [0, 1]);
    var s7 := s6.(pending := map[], sent := map[B := 1]);
    SettleOne(s4, B, 1);
    EnrollOne(s5, B);
    PromoteOne(s6, B, 1);
    SettleOne(s7, B, 1);
    assert s4.pending - {B} == map[] && s4.records - {1} == map[] && s4.sent - {B} == map[];
    assert s6.pending - {B} == map[] && s7.sent - {B} == map[] && s7.pending - {B} == map[];
    assert s7.records - {1} == map[2 := [B]] && [0] + [1] == [0, 1] && [0, 1] + [1] == [0, 1, 1];
  }

  lemma {:induction false} RunSnoc(s: Slots, steps: seq<Step>)
    requires steps != []
    ensures var n := |steps| - 1;
      && Run(s, steps) == Apply(Run(s, steps[..n]), steps[n])
      && (NeverStale(s, steps) <==> NeverStale(s, steps[..n]) && !Stale(Run(s, steps[..n]), steps[n]))
    decreases |steps|
  {
    hide Apply, Stale;
    if |steps| > 1 {
      RunSnoc(Apply(s, steps[0]), steps[1..]);
      assert steps[1..][..|steps| - 2] == steps[..|steps| - 1][1..];
    }
  }

  lemma RunTwo(s: Slots, steps: seq<Step>, n: nat)
    requires n + 2 <= |steps|
    ensures Run(s, steps[..n + 2]) == Apply(Apply(Run(s, steps[..n]), steps[n]), steps[n + 1])
  {
    hide Run, Apply;
    RunSnoc(s, steps[..n + 2]);
    RunSnoc(s, steps[..n + 1]);
    assert steps[..n + 2][..n + 1] == steps[..n + 1] && steps[..n + 1][..n] == steps[..n];
  }

  /** Promoting the old entry hands the id to the item that is gone. The reply then settles that item a second
      time, and nothing ever reaches the new request, item 2. */
  lemma StaleExample()
    ensures Stale(Run(NOTHING, REUSE[..6]), REUSE[6])
    ensures var s := Run(NOTHING, REUSE);
      s.settled == [0, 1, 1] && s.records == map[2 := [B]] && s.pending == map[] && s.sent == map[]
  {
    hide Apply;
    FirstStates();
    LastStates();
    assert Run(NOTHING, REUSE[..0]) == NOTHING;
    RunTwo(NOTHING, REUSE, 0);
    RunTwo(NOTHING, REUSE, 2);
    RunTwo(NOTHING, REUSE, 4);
    RunTwo(NOTHING, REUSE, 6);
    assert REUSE[..8] == REUSE;
  }
}
