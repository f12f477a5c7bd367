/** The socket provider itself: two id maps, one lifecycle record per request item, one cleanup primitive.
    Every method is one run-to-completion step and is proved to do exactly what the request machine does. */
module SocketProvider {
  import opened Wrappers
  import opened InsertionMap
  import opened RequestModel
  import opened RequestRuns
  import opened QueueMaps
  import opened SnapshotLoops
  import AbortHelpers
  import opened ProviderRecords

  datatype Diagnostics = Diagnostics(inFlight: nat, pendingRequests: nat, sentRequests: nat, peakInFlight: nat,
      maxInFlightRequests: nat)

  class SocketProvider {
    const cfg: Config
    var pendingRequestsQueue: seq<(Id, nat)>
    var sentRequestsQueue: seq<(Id, nat)>
    var payloads: map<nat, Payload>         // the request items, by identity
    var requestLifecycles: map<nat, Lifecycle>
    var released: map<nat, Lifecycle>       // the records that are no longer in that map, as they were left
    var nextItem: nat
    var peakInFlight: nat
    var connectionStatus: Status
    var connectionTimer: bool
    var reconnectAttempts: nat
    var isReconnecting: bool
    var reconnectTimers: nat
    var compositions: map<nat, AbortHelpers.Composition>   // the abort composition created for each item
    var log: seq<Effect>                    // promise settlements and socket writes, in order
    ghost var view: Model

    /** The state of the connection is that of `m`. */
    ghost predicate ConnectionIs(m: Model)
      reads this
    {
      && m.cfg == cfg && connectionStatus == m.status && connectionTimer == m.handshake
      && reconnectAttempts == m.attempts && isReconnecting == m.reconnecting && reconnectTimers == m.timers
    }

    /** The plain fields are the view, and the maps are its queues flattened. */
    ghost predicate Mirrors()
      reads this
    {
      && ConnectionIs(view)
      && pendingRequestsQueue == Flatten(view.pending)
      && sentRequestsQueue == Flatten(view.sent)
      && nextItem == view.next && peakInFlight == view.peak && log == view.trace
    }

    ghost predicate Core()
      reads this
    {
      && Mirrors() && Stocked(view) && Tracked(view, payloads, requestLifecycles)
      && Covers(requestLifecycles, compositions) && Spent(requestLifecycles, released, nextItem)
    }

    /** Unless one of them is just firing, every request in flight has a live deadline. */
    ghost predicate Running()
      reads this
    {
      Core() && forall h <- requestLifecycles :: compositions[h].Live()
    }

    ghost predicate Valid()
      reads this
    {
      Running() && Scheduled(view)
    }

    constructor (cfg: Config)
      ensures Valid() && view == Start(cfg)
    {
      this.cfg := cfg;
      pendingRequestsQueue, sentRequestsQueue, payloads, requestLifecycles, released := [], [], map[], map[], map[];
      nextItem, peakInFlight, connectionStatus, connectionTimer := 0, 0, Connecting, true;
      reconnectAttempts, isReconnecting, reconnectTimers, log := 0, false, 0, [];
      view, compositions := Start(cfg), map[];
      new;
      InitialSound(cfg);
    }

    method GetDiagnostics() returns (d: Diagnostics)
      requires Valid()
      ensures d.pendingRequests == SlotCount(view.pending) && d.sentRequests == SlotCount(view.sent)
      ensures d.inFlight == InFlight(view) <= d.maxInFlightRequests == cfg.maxInFlight
      ensures d.inFlight <= d.peakInFlight == view.peak
    {
      FlattenSize(view.pending);
      FlattenSize(view.sent);
      d := Diagnostics(|pendingRequestsQueue| + |sentRequestsQueue|, |pendingRequestsQueue|, |sentRequestsQueue|,
                       peakInFlight, cfg.maxInFlight);
    }

    method NotifyDiagnostics()
      modifies this`peakInFlight
      ensures peakInFlight == Max(old(peakInFlight), |pendingRequestsQueue| + |sentRequestsQueue|)
    {
      var inFlight := |pendingRequestsQueue| + |sentRequestsQueue|;
      if inFlight > peakInFlight {
        peakInFlight := inFlight;
      }
    }

    /** Deletes every id a request holds from both maps. */
    method ReleaseSlots(ids: seq<Id>)
      modifies this`pendingRequestsQueue, this`sentRequestsQueue
      ensures pendingRequestsQueue == DeleteAll(old(pendingRequestsQueue), ids)
      ensures sentRequestsQueue == DeleteAll(old(sentRequestsQueue), ids)
    {
      var i := 0;
      while i < |ids|
        invariant i <= |ids|
        invariant pendingRequestsQueue == DeleteAll(old(pendingRequestsQueue), ids[..i])
        invariant sentRequestsQueue == DeleteAll(old(sentRequestsQueue), ids[..i])
      {
        assert ids[..i + 1] == ids[..i] + [ids[i]];
        DeleteAllSnoc(old(pendingRequestsQueue), ids[..i], ids[i]);
        DeleteAllSnoc(old(sentRequestsQueue), ids[..i], ids[i]);
        pendingRequestsQueue := Delete(pendingRequestsQueue, ids[i]);
        sentRequestsQueue := Delete(sentRequestsQueue, ids[i]);
        i := i + 1;
      }
      assert ids[..|ids|] == ids;
    }

    /** Releases the slots of one item, drops its deadline and its listeners, forgets its record and marks it
        settled; `already` says that it had been marked before. */
    method TearDown(item: nat) returns (already: bool)
      requires item in requestLifecycles && Covers(requestLifecycles, compositions)
      requires requestLifecycles[item].onAbort
      modifies this`pendingRequestsQueue, this`sentRequestsQueue, this`requestLifecycles, this`released,
        this`compositions
      ensures already == old(requestLifecycles[item].settled)
      ensures requestLifecycles == old(requestLifecycles) - {item} && Covers(requestLifecycles, compositions)
      ensures released == old(released)[item := old(requestLifecycles[item]).(onAbort := false, settled := true)]
      ensures compositions.Keys == old(compositions.Keys)
      ensures forall h <- compositions :: h != item ==> compositions[h] == old(compositions)[h]
      ensures pendingRequestsQueue == DeleteAll(old(pendingRequestsQueue), old(requestLifecycles[item].ids))
      ensures sentRequestsQueue == DeleteAll(old(sentRequestsQueue), old(requestLifecycles[item].ids))
    {
      var lifecycle := requestLifecycles[item];
      ReleaseSlots(lifecycle.ids);
      var abort := compositions[item];
      AbortHelpers.DisposalReleases(abort);
      if lifecycle.onAbort {
        abort, lifecycle := abort.(attached := false), lifecycle.(onAbort := false);
      }
      compositions := compositions[item := AbortHelpers.Teardown(abort)];
      requestLifecycles := requestLifecycles - {item};
      already := lifecycle.settled;
      released := released[item := lifecycle.(settled := true)];
    }

    /** Tears one request down and, unless its record says that this has been done, settles its promise. */
    method Finish(item: nat, outcome: Outcome, ghost after: Model) returns (settled: bool)
      requires Mirrors() && Covers(requestLifecycles, compositions) && Spent(requestLifecycles, released, nextItem)
      requires item in payloads && item in requestLifecycles && requestLifecycles[item].onAbort
      requires Left(view, after, Request(item, payloads[item], requestLifecycles[item].ids), outcome)
      modifies this
      ensures settled <==> !old(requestLifecycles[item].settled)
      ensures !settled ==> log == old(log) && view == old(view)
      ensures settled ==> Mirrors() && view == after
      ensures Covers(requestLifecycles, compositions) && Spent(requestLifecycles, released, nextItem)
      ensures payloads == old(payloads) && requestLifecycles == old(requestLifecycles) - {item}
      ensures compositions.Keys == old(compositions.Keys)
      ensures forall h <- compositions ::
        h != item ==> h in old(compositions) && compositions[h] == old(compositions)[h]
    {
      hide DeleteAll, Covers, Spent, Flatten, SlotCount;
      var r := Request(item, payloads[item], requestLifecycles[item].ids);
      SpentOne(requestLifecycles, released, nextItem, item,
        requestLifecycles[item].(onAbort := false, settled := true));
      var already := TearDown(item);
      if already {
        NotifyDiagnostics();
        return false;
      }
      Conclude(r, outcome, after);
      settled := true;
    }

    /** The promise is settled once the slots are free; the load can only have gone down. */
    method Conclude(r: Request, outcome: Outcome, ghost after: Model)
      requires ConnectionIs(after) && nextItem == after.next && peakInFlight == after.peak
        && InFlight(after) <= after.peak
      requires pendingRequestsQueue == Flatten(after.pending) && sentRequestsQueue == Flatten(after.sent)
      requires after.trace == log + [Settled(r, outcome)]
      modifies this`log, this`view, this`peakInFlight
      ensures Mirrors() && view == after
    {
      hide Flatten, SlotCount;
      FlattenSize(after.pending);
      FlattenSize(after.sent);
      log, view := log + [Settled(r, outcome)], after;
      NotifyDiagnostics();
    }

    /** The single cleanup primitive. The composition of its request may already have fired. Whatever an id
        leads to has not been settled before, so that the last check never finds anything. */
    method SettleRequest(requestId: Id, outcome: Outcome) returns (settled: bool)
      requires Core()
      modifies this
      ensures Core() && view == Settle(old(view), requestId, outcome)
      ensures settled <==> old(Owned(view.sent, requestId) || Owned(view.pending, requestId))
      ensures Scheduled(view) == old(Scheduled(view)) && compositions.Keys == old(compositions.Keys)
      ensures payloads == old(payloads) && requestLifecycles.Keys <= old(requestLifecycles.Keys)
      ensures forall h <- requestLifecycles :: requestLifecycles[h] == old(requestLifecycles)[h]
      ensures forall h <- requestLifecycles :: compositions[h] == old(compositions)[h]
      ensures old(Running()) ==> Running()
    {
      hide Stocked, Tracked, Settle, DeleteAll, Spent;
      FindFindsOwner(view.sent, requestId);
      FindFindsOwner(view.pending, requestId);
      var found := Find(sentRequestsQueue, requestId);
      if found == None {
        found := Find(pendingRequestsQueue, requestId);
      }
      if found == None {
        SettleNothing(view, requestId, outcome);
        return false;
      }
      ghost var plan, request := SettlementPlan(view, payloads, requestLifecycles, requestId, outcome);
      settled := Finish(found.value, outcome, Settle(view, requestId, outcome));
    }

    /** Settles every id of a snapshot; settling a batch by one id leaves nothing for the others. */
    method SettleSnapshot(ids: seq<Id>, outcome: Outcome)
      requires Running()
      modifies this
      ensures Running() && view == SettleEach(old(view), ids, outcome)
      ensures Scheduled(view) == old(Scheduled(view))
    {
      hide Stocked, Tracked, Covers, Spent;
      var i := 0;
      while i < |ids|
        invariant i <= |ids| && Running() && Scheduled(view) == old(Scheduled(view))
        invariant SettleEach(view, ids[i..], outcome) == SettleEach(old(view), ids, outcome)
      {
        assert ids[i..][1..] == ids[i + 1..];
        var settled := SettleRequest(ids[i], outcome);
        i := i + 1;
      }
    }

    method RejectAllRequests(why: Failure)
      requires Valid()
      modifies this
      ensures Valid() && view == RejectAll(old(view), why)
    {
      hide Inv, Tracked, Covers, Spent, SettleEach, RejectAll;
      SettleAllIsRejectAll(view, why);
      SettleSnapshot(Keys(pendingRequestsQueue) + Keys(sentRequestsQueue), Rejected(why));
    }

    method ClearConnectionTimer()
      requires Running()
      modifies this`connectionTimer, this`view
      ensures Running() && view == old(view).(handshake := false)
    {
      hide Stocked, Tracked, Covers, Spent;
      SameQueues(view, view.(handshake := false), payloads, requestLifecycles);
      connectionTimer, view := false, view.(handshake := false);
    }

    method SetStatus(status: Status)
      requires Running()
      modifies this`connectionStatus, this`view
      ensures Running() && view == old(view).(status := status)
    {
      hide Stocked, Tracked, Covers, Spent;
      SameQueues(view, view.(status := status), payloads, requestLifecycles);
      connectionStatus, view := status, view.(status := status);
    }

    /** Dials. A failure while reconnecting is left to the next reconnect; otherwise `connect` throws. */
    method Connect(dial: Dial) returns (threw: bool)
      requires Running()
      modifies this
      ensures Running() && (view, threw) == RequestModel.Connect(old(view), dial)
    {
      hide Stocked, Tracked, Covers, Spent;
      threw := false;
      if dial != OpenThrows {
        SetStatus(Connecting);
        ArmConnectionTimer();
      }
      if dial != Opens {
        ClearConnectionTimer();
        if !isReconnecting {
          SetStatus(Disconnected);
          threw := true;
        }
      }
    }

    method ArmConnectionTimer()
      requires Running()
      modifies this`connectionTimer, this`view
      ensures Running() && view == old(view).(handshake := true)
    {
      hide Stocked, Tracked, Covers, Spent;
      ClearConnectionTimer();
      SameQueues(view, view.(handshake := true), payloads, requestLifecycles);
      connectionTimer, view := true, view.(handshake := true);
    }

    /** The handshake deadline passes; `status` is what `getStatus` says then. */
    method HandshakeExpires(status: Status)
      requires Valid()
      modifies this
      ensures Valid() && view == HandshakeTimeout(old(view), status)
    {
      hide Stocked, Tracked, Covers, Spent;
      if !connectionTimer { return; }
      ClearConnectionTimer();
      if status == Connected { return; }
      SetStatus(Disconnected);
      RejectAllRequests(HandshakeTimedOut);
    }

    method ClearQueues()
      requires Valid()
      modifies this
      ensures Valid() && view == RequestModel.ClearQueues(old(view))
    {
      hide Stocked, Tracked, Covers, Spent;
      ClearConnectionTimer();
      RejectAllRequests(ConnectionNotOpen);
    }

    method Disconnect()
      requires Valid()
      modifies this
      ensures Valid() && view == RequestModel.Disconnect(old(view))
    {
      hide Stocked, Tracked, Covers, Spent;
      ClearConnectionTimer();
      RejectAllRequests(ConnectionNotOpen);
      SetStatus(Disconnected);
    }

    method SetAttempts(attempts: nat)
      requires Valid() && (attempts == 0 || attempts <= cfg.maxAttempts)
      modifies this`reconnectAttempts, this`view
      ensures Valid() && view == old(view).(attempts := attempts)
    {
      hide Stocked, Tracked, Covers, Spent;
      SameQueues(view, view.(attempts := attempts), payloads, requestLifecycles);
      reconnectAttempts, view := attempts, view.(attempts := attempts);
    }

    method Reset()
      requires Valid()
      modifies this
      ensures Valid() && view == RequestModel.Reset(old(view))
    {
      hide Stocked, Tracked, Covers, Spent;
      ClearConnectionTimer();
      RejectAllRequests(ProviderReset);
      SetAttempts(0);
    }

    method BeginReconnect()
      requires Running()
      modifies this`isReconnecting, this`view
      ensures Running() && view == old(view).(reconnecting := true)
    {
      hide Stocked, Tracked, Covers, Spent;
      SameQueues(view, view.(reconnecting := true), payloads, requestLifecycles);
      isReconnecting, view := true, view.(reconnecting := true);
    }

    method EndReconnect()
      requires Running()
      modifies this`isReconnecting, this`view
      ensures Running() && view == old(view).(reconnecting := false)
    {
      hide Stocked, Tracked, Covers, Spent;
      SameQueues(view, view.(reconnecting := false), payloads, requestLifecycles);
      isReconnecting, view := false, view.(reconnecting := false);
    }

    method Record(e: Effect)
      requires Running()
      modifies this`log, this`view
      ensures Running() && view == Note(old(view), e)
    {
      hide Stocked, Tracked, Covers, Spent;
      SameQueues(view, Note(view, e), payloads, requestLifecycles);
      log, view := log + [e], Note(view, e);
    }

    method ArmReconnectTimer(jitter: real)
      requires Running()
      modifies this`reconnectAttempts, this`reconnectTimers, this`log, this`view
      ensures Running()
      ensures view == Note(old(view), ReconnectArmed(Wait(cfg.delay, old(view).attempts + 1, jitter)))
                      .(attempts := old(view).attempts + 1, timers := old(view).timers + 1)
    {
      hide Stocked, Tracked, Covers, Spent;
      ghost var armed := view.(attempts := view.attempts + 1, timers := view.timers + 1);
      SameQueues(view, armed, payloads, requestLifecycles);
      reconnectAttempts, reconnectTimers, view := reconnectAttempts + 1, reconnectTimers + 1, armed;
      Record(ReconnectArmed(Wait(cfg.delay, reconnectAttempts, jitter)));
    }

    method Reconnect(jitter: real)
      requires Valid()
      modifies this
      ensures Valid() && view == RequestModel.Reconnect(old(view), jitter)
    {
      hide Stocked, Tracked, Covers, Spent, SettleEach, Wait;
      if isReconnecting { return; }
      BeginReconnect();
      LostByReconnect(view);
      if |sentRequestsQueue| > 0 {
        SettleSnapshot(Keys(sentRequestsQueue), Rejected(LostOnReconnect));
      }
      if reconnectAttempts < cfg.maxAttempts {
        ArmReconnectTimer(jitter);
      } else {
        EndReconnect();
        ClearQueues();
        Record(GaveUp);
      }
    }

    /** The reconnect timer: drop the listeners, dial, allow the next reconnect. */
    method ReconnectTimerFires(dial: Dial)
      requires Valid()
      modifies this
      ensures Valid() && view == ReconnectTimer(old(view), dial)
    {
      hide Stocked, Tracked, Covers, Spent;
      if reconnectTimers == 0 { return; }
      SpendReconnectTimer();
      var threw := Connect(dial);
      EndReconnect();
    }

    method SpendReconnectTimer()
      requires Running() && reconnectTimers > 0
      modifies this`reconnectTimers, this`view
      ensures Running() && view == old(view).(timers := old(view).timers - 1)
    {
      hide Stocked, Tracked, Covers, Spent;
      SameQueues(view, view.(timers := view.timers - 1), payloads, requestLifecycles);
      reconnectTimers, view := reconnectTimers - 1, view.(timers := view.timers - 1);
    }

    /** Adds one entry per id to one of the two maps. */
    method QueueIds(ids: seq<Id>, item: nat, parked: bool)
      modifies this`pendingRequestsQueue, this`sentRequestsQueue
      ensures pendingRequestsQueue == if parked then SetAll(old(pendingRequestsQueue), ids, item)
        else old(pendingRequestsQueue)
      ensures sentRequestsQueue == if parked then old(sentRequestsQueue) else SetAll(old(sentRequestsQueue), ids, item)
    {
      var i := 0;
      while i < |ids|
        invariant i <= |ids|
        invariant pendingRequestsQueue == if parked then SetAll(old(pendingRequestsQueue), ids[..i], item)
          else old(pendingRequestsQueue)
        invariant sentRequestsQueue == if parked then old(sentRequestsQueue)
          else SetAll(old(sentRequestsQueue), ids[..i], item)
      {
        assert ids[..i + 1] == ids[..i] + [ids[i]];
        if parked {
          SetAllSnoc(old(pendingRequestsQueue), ids[..i], ids[i], item);
          pendingRequestsQueue := Set(pendingRequestsQueue, ids[i], item);
        } else {
          SetAllSnoc(old(sentRequestsQueue), ids[..i], ids[i], item);
          sentRequestsQueue := Set(sentRequestsQueue, ids[i], item);
        }
        i := i + 1;
      }
      assert ids[..|ids|] == ids;
    }

    /** Moves every id one item owns from the pending to the sent map. */
    method PromoteIds(ids: seq<Id>, item: nat)
      requires Distinct(ids) && forall i | 0 <= i < |ids| :: ids[i] in Keys(pendingRequestsQueue)
      modifies this`pendingRequestsQueue, this`sentRequestsQueue
      ensures pendingRequestsQueue == DeleteAll(old(pendingRequestsQueue), ids)
      ensures sentRequestsQueue == SetAll(old(sentRequestsQueue), ids, item)
    {
      hide Delete, Set, Find, Keys;
      var i := 0;
      while i < |ids|
        invariant i <= |ids|
        invariant pendingRequestsQueue == DeleteAll(old(pendingRequestsQueue), ids[..i])
        invariant sentRequestsQueue == SetAll(old(sentRequestsQueue), ids[..i], item)
        invariant forall j | i <= j < |ids| :: ids[j] in Keys(pendingRequestsQueue)
      {
        assert ids[..i + 1] == ids[..i] + [ids[i]];
        DeleteAllSnoc(old(pendingRequestsQueue), ids[..i], ids[i]);
        SetAllSnoc(old(sentRequestsQueue), ids[..i], ids[i], item);
        DeleteKeepsOthers(pendingRequestsQueue, ids[i]);
        FindIsIn(pendingRequestsQueue, ids[i]);
        var present := Find(pendingRequestsQueue, ids[i]).Some?;
        pendingRequestsQueue := Delete(pendingRequestsQueue, ids[i]);
        if present {
          sentRequestsQueue := Set(sentRequestsQueue, ids[i], item);
        }
        i := i + 1;
      }
      assert ids[..|ids|] == ids;
    }

    /** Writes one payload; a throw settles its request at once. */
    method SendToSocket(item: nat, requestId: Id, throws: bool)
      requires Running() && item in payloads && item in requestLifecycles
      modifies this
      ensures Running() && Scheduled(view) == old(Scheduled(view))
      ensures payloads == old(payloads)
      ensures requestLifecycles.Keys <= old(requestLifecycles.Keys)
      ensures forall h <- requestLifecycles :: requestLifecycles[h] == old(requestLifecycles)[h]
      ensures var r := Request(item, old(payloads)[item], old(requestLifecycles)[item].ids);
        view == if throws then Settle(Note(old(view), WriteFailed(r)), requestId, Rejected(SendFailed))
          else Note(old(view), Wrote(r))
      ensures forall h <- requestLifecycles :: h in old(compositions) && compositions[h] == old(compositions)[h]
    {
      hide Stocked, Tracked, Settle, Spent, AbortHelpers.Teardown;
      var r := Request(item, payloads[item], requestLifecycles[item].ids);
      if throws {
        Record(WriteFailed(r));
        var settled := SettleRequest(requestId, Rejected(SendFailed));
      } else {
        Record(Wrote(r));
      }
    }

    /** All ids of one parked request change map. */
    method PromoteSlots(item: nat, ghost r: Request, ghost promoted: Model)
      requires Running() && item in payloads && item in requestLifecycles
        && r == Request(item, payloads[item], requestLifecycles[item].ids)
      requires Distinct(r.ids) && forall i | 0 <= i < |r.ids| :: r.ids[i] in Keys(Flatten(view.pending))
      requires promoted
        == view.(pending := promoted.pending, sent := promoted.sent, trace := view.trace + [Promoted(r)])
      requires DeleteAll(Flatten(view.pending), r.ids) == Flatten(promoted.pending)
      requires SetAll(Flatten(view.sent), r.ids, item) == Flatten(promoted.sent)
      requires Stocked(promoted) && Tracked(promoted, payloads, requestLifecycles)
      modifies this`pendingRequestsQueue, this`sentRequestsQueue, this`log, this`view
      ensures Running() && view == promoted
    {
      hide Stocked, Tracked, Covers, Spent, WellFormed, Flatten, DeleteAll, SetAll;
      PromoteIds(requestLifecycles[item].ids, item);
      log, view := log + [Promoted(Request(item, payloads[item], requestLifecycles[item].ids))], promoted;
    }

    /** One parked request: all its ids change map before its payload is written. */
    method PromoteItem(id: Id, item: nat, throws: bool)
      requires Valid() && Waiting((id, item), view.pending, requestLifecycles)
      modifies this
      ensures Valid() && view == PromoteOne(old(view), item, throws)
      ensures Handles(view.pending) == Handles(old(view).pending) - {item}
      ensures forall h <- requestLifecycles ::
        h in old(requestLifecycles) && requestLifecycles[h] == old(requestLifecycles)[h]
      ensures Handles(view.pending) <= requestLifecycles.Keys
    {
      hide Stocked, Covers, Spent, WellFormed, RecordsOf, PromoteOne, Settle, Flatten, DeleteAll, SetAll, Handles;
      ghost var r, promoted := PromotionPlan(view, payloads, requestLifecycles, item);
      PromoteSlots(item, r, promoted);
      SendToSocket(item, id, throws);
    }

    method SendPendingRequests(throws: set<nat>)
      requires Valid()
      modifies this
      ensures Valid() && view == Drain(old(view), throws)
    {
      hide Stocked, Tracked, Covers, Spent, PromoteOne, Drain, Flatten, Handles;
      var entries := pendingRequestsQueue;
      var sent: set<nat> := {};
      DrainPlan(view, payloads, requestLifecycles, throws);
      var i := 0;
      while i < |entries|
        invariant i <= |entries| && Valid()
        invariant DrainEach(view, entries[i..], sent, throws) == Drain(old(view), throws)
        invariant forall j | i <= j < |entries| ::
          entries[j].1 in sent || Waiting(entries[j], view.pending, requestLifecycles)
      {
        var (id, item) := entries[i];
        assert entries[i..][0] == entries[i] && entries[i..][1..] == entries[i + 1..];
        if item !in sent {
          sent := sent + {item};
          PromoteItem(id, item, item in throws);
        }
        i := i + 1;
      }
    }

    /** Position of the first id that is already in use, or the number of ids. */
    method FirstKnown(ids: seq<Id>) returns (k: nat)
      requires Running()
      ensures k <= |ids|
      ensures forall i | 0 <= i < k :: !Owned(view.sent, ids[i]) && !Owned(view.pending, ids[i])
      ensures k < |ids| ==> Owned(view.sent, ids[k]) || Owned(view.pending, ids[k])
    {
      hide Stocked, Tracked, Covers, Spent;
      k := 0;
      while k < |ids|
        invariant k <= |ids|
        invariant forall i | 0 <= i < k :: !Owned(view.sent, ids[i]) && !Owned(view.pending, ids[i])
      {
        FindFindsOwner(view.sent, ids[k]);
        FindFindsOwner(view.pending, ids[k]);
        if Find(sentRequestsQueue, ids[k]).Some? || Find(pendingRequestsQueue, ids[k]).Some? {
          return;
        }
        k := k + 1;
      }
    }

    /** A new item with its composition, its record and the listener on the composed signal. */
    method NewItem(payload: Payload, ids: seq<Id>, abort: AbortHelpers.Composition) returns (item: nat)
      modifies this`nextItem, this`payloads, this`requestLifecycles, this`compositions
      ensures item == old(nextItem) && nextItem == old(nextItem) + 1
      ensures payloads == old(payloads)[item := payload]
      ensures requestLifecycles == old(requestLifecycles)[item := Lifecycle(ids, true, false)]
      ensures compositions == old(compositions)[item := abort.(attached := true)]
    {
      item := nextItem;
      nextItem := nextItem + 1;
      payloads := payloads[item := payload];
      requestLifecycles := requestLifecycles[item := Lifecycle(ids, false, false)];
      requestLifecycles := requestLifecycles[item := requestLifecycles[item].(onAbort := true)];
      compositions := compositions[item := abort.(attached := true)];
    }

    /** The bookkeeping of an accepted request, before anything is written. */
    method Enroll(payload: Payload, ids: seq<Id>, abort: AbortHelpers.Composition, parked: bool) returns (item: nat)
      requires Valid() && Fresh(view, Request(nextItem, payload, ids))
      requires abort.(attached := true).Live()
      modifies this
      ensures Valid() && item == old(nextItem)
      ensures view == Enter(old(view), Request(item, payload, ids), parked)
      ensures item in payloads && item in requestLifecycles
      ensures Request(item, payloads[item], requestLifecycles[item].ids) == Request(item, payload, ids)
      ensures item in compositions && compositions[item] == abort.(attached := true)
    {
      hide Stocked, Tracked, Fresh, Flatten, SetAll, SlotCount, Covers, Spent;
      ghost var entered := EntryPlan(view, Request(nextItem, payload, ids), parked, payloads, requestLifecycles);
      CoversNew(requestLifecycles, compositions, nextItem, Lifecycle(ids, true, false), abort.(attached := true));
      SpentNew(requestLifecycles, released, nextItem, Lifecycle(ids, true, false));
      item := NewItem(payload, ids, abort);
      QueueIds(ids, item, parked);
      Announce(Request(item, payload, ids), parked, entered);
    }

    /** The high-water mark moves once all ids of the new request are queued. */
    method Announce(r: Request, parked: bool, ghost entered: Model)
      requires pendingRequestsQueue == Flatten(entered.pending) && sentRequestsQueue == Flatten(entered.sent)
      requires entered.peak == Max(peakInFlight, |pendingRequestsQueue| + |sentRequestsQueue|)
      requires entered.trace == log + [Admitted(r, parked)] && ConnectionIs(entered) && nextItem == entered.next
      modifies this`peakInFlight, this`log, this`view
      ensures Mirrors() && view == entered
    {
      hide Flatten;
      NotifyDiagnostics();
      log, view := log + [Admitted(r, parked)], entered;
    }

    /** `request`: either it throws before recording anything, or the promise of the item is returned. */
    method RequestCall(call: Call) returns (error: Option<RequestError>)
      requires Valid()
      modifies this
      ensures Valid() && (view, error) == Submit(old(view), call)
      ensures error == None && old(nextItem) in requestLifecycles ==>
        compositions[old(nextItem)].limit == Some(Limit(cfg, call))
    {
      hide Stocked, Tracked, Covers, Spent, Refusal, Admit;
      if !call.socketDefined { return Some(ConnectionUndefined); }
      if call.before == Disconnected {
        var threw := Connect(call.dial);
        if threw { return Some(ConnectFailed); }
      }
      error := Refused(call);
      if error.Some? { return; }
      AcceptCall(call);
    }

    method Refused(call: Call) returns (error: Option<RequestError>)
      requires Valid()
      ensures error == Refusal(view, call)
    {
      var extracted := ExtractIds(call.payload);
      if extracted.Err? { return Some(extracted.error); }
      var ids := extracted.value;
      var k := FirstKnown(ids);
      RefusalByPosition(view, call, k);
      FlattenSize(view.pending);
      FlattenSize(view.sent);
      hide Stocked, Tracked, Covers, Spent, Refusal;
      if k < |ids| { return Some(AlreadySent(ids[k])); }
      if |pendingRequestsQueue| + |sentRequestsQueue| + |ids| > cfg.maxInFlight { return Some(QueueFull); }
      if call.signal.Aborted? { return Some(AbortedBefore(call.signal.reason)); }
      if call.timeout.Some? && !ValidTimeout(call.timeout.value) { return Some(InvalidTimeout); }
      return None;
    }

    method AcceptCall(call: Call)
      requires Valid() && Refusal(view, call) == None
      modifies this
      ensures Valid()
      ensures ExtractIds(call.payload).Ok?
      ensures view == Admit(old(view), Request(old(view).next, call.payload, ExtractIds(call.payload).value),
        call.after == Connecting, call.throws)
      ensures old(nextItem) in requestLifecycles ==> compositions[old(nextItem)].limit == Some(Limit(cfg, call))
    {
      hide Stocked, Tracked, Covers, Spent, Refusal, Fresh, Enter, Settle, Admit;
      NotRefusedIsFresh(view, call);
      AcceptedIsIdle(view, call);
      var ids := ExtractIds(call.payload).value;
      EntryThenWrite(view, Request(nextItem, call.payload, ids));
      var abort := AbortHelpers.Compose(Some(Limit(cfg, call)), call.signal);
      AbortHelpers.ComposedIsLive(Limit(cfg, call), call.signal);
      var item := Enroll(call.payload, ids, abort, call.after == Connecting);
      if call.after != Connecting {
        SendToSocket(item, ids[0], call.throws);
      }
    }

    /** The composed signal of one item aborts: its request is rejected by its primary id. */
    method OnAbort(item: nat)
      requires Core() && Scheduled(view) && item in requestLifecycles
      requires compositions[item].reason.Some?
        && (compositions[item].reason.value.Deadline? <==> compositions[item].timedOut)
      requires forall h <- requestLifecycles :: h != item ==> compositions[h].Live()
      modifies this
      ensures Valid() && item !in requestLifecycles && compositions.Keys >= old(compositions.Keys)
      ensures view == RequestModel.Cancel(old(view), item, Why(old(compositions)[item].reason.value))
    {
      hide Stocked, Settle, RequestModel.Cancel, RecordsOf, Covers, Spent, Handles;
      CoversIdle(requestLifecycles, compositions, item);
      var abort := compositions[item];
      var why := if abort.timedOut then TimedOut else CallerAborted(abort.reason.value.reason);
      CancelPlan(view, payloads, requestLifecycles, item, why);
      var settled := SettleRequest(requestLifecycles[item].ids[0], Rejected(why));
    }

    /** The deadline timer of one item fires, unless it has been cleared. */
    method DeadlineFires(item: nat)
      requires Valid()
      modifies this
      ensures Valid() && view == RequestModel.Cancel(old(view), item, TimedOut)
    {
      hide Stocked, Tracked, Covers, Spent, RequestModel.Cancel;
      CoversIdle(requestLifecycles, compositions, item);
      if item !in compositions || !compositions[item].timer {
        CancelNothing(view, payloads, requestLifecycles, item, TimedOut);
        return;
      }
      AbortHelpers.FiredIsDisposable(compositions[item], 0);
      CoversOther(requestLifecycles, compositions, item, AbortHelpers.Expire(compositions[item]));
      compositions := compositions[item := AbortHelpers.Expire(compositions[item])];
      OnAbort(item);
      CoversIdle(requestLifecycles, compositions, item);
      compositions := compositions[item := AbortHelpers.Teardown(compositions[item])];
    }

    /** The caller's own signal aborts; nothing happens when the composition no longer listens on it. */
    method CallerAborts(item: nat, reason: int)
      requires Valid()
      modifies this
      ensures Valid()
      ensures view == if old(item in compositions && compositions[item].listener)
        then RequestModel.Cancel(old(view), item, CallerAborted(reason)) else old(view)
    {
      hide Stocked, Tracked, Covers, Spent, RequestModel.Cancel;
      CoversIdle(requestLifecycles, compositions, item);
      if item !in compositions || !compositions[item].listener { return; }
      AbortHelpers.FiredIsDisposable(compositions[item], reason);
      CoversOther(requestLifecycles, compositions, item, AbortHelpers.Cancel(compositions[item], reason));
      compositions := compositions[item := AbortHelpers.Cancel(compositions[item], reason)];
      OnAbort(item);
      CoversIdle(requestLifecycles, compositions, item);
      compositions := compositions[item := AbortHelpers.Teardown(compositions[item])];
    }

    /** The base class asks for chain id and accounts, then the parked requests are written. */
    method OnConnect(chainId: Call, accounts: Call, throws: set<nat>)
      requires Valid()
      modifies this
      ensures Valid() && view == Open(old(view), chainId, accounts, throws)
    {
      hide Stocked, Tracked, Covers, Spent, Submit, Drain;
      ClearConnectionTimer();
      SetStatus(Connected);
      SetAttempts(0);
      var first := RequestCall(chainId);
      var second := RequestCall(accounts);
      SendPendingRequests(throws);
    }

    method OnResponse(response: Response)
      requires Valid()
      modifies this
      ensures Valid() && view == Deliver(old(view), response)
    {
      hide Stocked, Tracked, Covers, Spent, Settle, Flatten;
      if IsSubscriptionNotice(response) { return; }
      var requestId := ReplyId(response);
      FindFindsOwner(view.sent, requestId);
      if Find(sentRequestsQueue, requestId) == None { return; }
      var settled :=
        SettleRequest(requestId, if Acceptable(response) then Resolved(response) else Rejected(InvalidReply(response)));
    }

    method OnMessage(overflow: bool, responses: seq<Response>, jitter: real)
      requires Valid()
      modifies this
      ensures Valid() && view == Message(old(view), overflow, responses, jitter)
    {
      hide Stocked, Tracked, Covers, Spent, Deliver, RequestModel.Reconnect, RequestModel.ClearQueues;
      if overflow {
        ClearQueues();
      }
      if |responses| == 0 {
        if cfg.autoReconnect {
          Reconnect(jitter);
        }
        return;
      }
      ghost var parsed := view;
      var i := 0;
      while i < |responses|
        invariant i <= |responses| && Valid()
        invariant DeliverAll(view, responses[i..]) == DeliverAll(parsed, responses)
      {
        assert responses[i..][1..] == responses[i + 1..];
        OnResponse(responses[i]);
        i := i + 1;
      }
    }
  }
}
