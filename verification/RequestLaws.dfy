/** Laws of single steps and of reconnection: who wins a race, what a connect writes, when it gives up. */
module RequestLaws {
  import opened Wrappers
  import opened RequestModel
  import opened RequestRuns
  import opened RequestTraces
  import Positional

  // ---------- Races ----------

  lemma OwnerIsUnique(q: seq<Request>, k: nat, id: Id)
    requires Sound(q) && k < |q| && id in q[k].ids
    ensures OwnerIndex(q, id) == k && !Owned(RemoveAt(q, k), id)
  {
    forall i | 0 <= i < |q| && i != k ensures id !in q[i].ids {
      if i < k { assert Apart(q[i], q[k]); } else { assert Apart(q[k], q[i]); }
    }
    var p := RemoveAt(q, k);
    forall i | 0 <= i < |p| ensures id !in p[i].ids {
      assert p[i] == q[if i < k then i else i + 1];
    }
  }

  lemma HandleIsUnique(q: seq<Request>, k: nat)
    requires Sound(q) && k < |q|
    ensures RequestIndex(q, q[k].handle) == k
    ensures !Holds(RemoveAt(q, k), q[k].handle)
  {
    OnlyAt(q, k);
    var i := RequestIndex(q, q[k].handle);
    assert i <= k;
    assert forall j | 0 <= j < k :: q[j] in RemoveAt(q, k) by {
      forall j | 0 <= j < k ensures q[j] in RemoveAt(q, k) { assert RemoveAt(q, k)[j] == q[j]; }
    }
  }

  lemma NotHeld(q: seq<Request>, h: nat)
    requires !Holds(q, h)
    ensures RequestIndex(q, h) == |q|
  {
    assert forall i | 0 <= i < |q| :: q[i] in q;
  }

  /** A reply and the request's own abort race: whichever comes first decides, the other finds nothing.
      So a late reply cannot settle twice and a late deadline cannot touch an answered request. */
  lemma FirstTerminalEventWins(m: Model, k: nat, response: Response, why: Failure)
    requires Inv(m) && k < |m.sent|
    requires ReplyId(response) in m.sent[k].ids
    ensures var h := m.sent[k].handle;
      && Deliver(Cancel(m, h, why), response) == Cancel(m, h, why)
      && (!IsSubscriptionNotice(response) ==> Cancel(Deliver(m, response), h, why) == Deliver(m, response))
      && Cancel(m, h, why).sent == RemoveAt(m.sent, k)
  {
    SoundParts(m.pending, m.sent);
    OwnerIsUnique(m.sent, k, ReplyId(response));
    HandleIsUnique(m.sent, k);
    NotHeld(RemoveAt(m.sent, k), m.sent[k].handle);
    forall r | r in m.pending ensures r.handle != m.sent[k].handle { ApartAcross(m.pending, m.sent, r, m.sent[k]); }
    NotHeld(m.pending, m.sent[k].handle);
  }

  /** A partial reply to a batch releases the whole batch; replies to its other ids are then ignored. */
  lemma BatchSettlesOnce(m: Model, k: nat, first: Response, second: Response)
    requires Inv(m) && k < |m.sent|
    requires ReplyId(first) in m.sent[k].ids && ReplyId(second) in m.sent[k].ids
    requires !IsSubscriptionNotice(first)
    ensures var d := Deliver(m, first);
      && d.sent == RemoveAt(m.sent, k)
      && InFlight(d) == InFlight(m) - |m.sent[k].ids|
      && Deliver(d, second) == d
  {
    SoundParts(m.pending, m.sent);
    OwnerIsUnique(m.sent, k, ReplyId(first));
    OwnerIsUnique(m.sent, k, ReplyId(second));
    SlotCountRemove(m.sent, k);
  }

  /** A reply never touches a parked request, whatever id it names. */
  lemma {:induction false} RepliesLeaveParkedAlone(m: Model, responses: seq<Response>)
    ensures DeliverAll(m, responses).pending == m.pending
    decreases |responses|
  {
    if responses != [] { RepliesLeaveParkedAlone(Deliver(m, responses[0]), responses[1..]); }
  }

  // ---------- Admission ----------

  /** Admission is all or nothing: a refused call leaves both queues, the trace and the mark as they were. */
  lemma RefusedLeavesNoTrace(m: Model, call: Call)
    requires Submit(m, call).1.Some?
    ensures var s := Submit(m, call).0;
      s == m.(status := s.status, handshake := s.handshake)
  {}

  /** A call is admitted exactly when there is a socket, dialling works if it has to dial first, the payload
      has ids of its own, none of them is taken, all of them fit under the cap, and neither an aborted signal
      nor a bad timeout stands against it. */
  lemma AdmittedIff(m: Model, call: Call)
    ensures Submit(m, call).1 == None <==>
      && call.socketDefined
      && (call.before == Disconnected ==> call.dial == Opens || m.reconnecting)
      && ExtractIds(call.payload).Ok?
      && (forall id <- ExtractIds(call.payload).value, r <- m.pending + m.sent :: id !in r.ids)
      && InFlight(m) + |ExtractIds(call.payload).value| <= m.cfg.maxInFlight
      && !call.signal.Aborted? && (call.timeout.Some? ==> ValidTimeout(call.timeout.value))
  {
    hide ExtractIds, SlotCount;
    var dialled := if call.before == Disconnected then Connect(m, call.dial).0 else m;
    if call.socketDefined && ExtractIds(call.payload).Ok? {
      RefusedIff(dialled, call);
    }
  }

  lemma RefusedIff(m: Model, call: Call)
    requires ExtractIds(call.payload).Ok?
    ensures Refusal(m, call) == None <==>
      && (forall id <- ExtractIds(call.payload).value, r <- m.pending + m.sent :: id !in r.ids)
      && InFlight(m) + |ExtractIds(call.payload).value| <= m.cfg.maxInFlight
      && !call.signal.Aborted? && (call.timeout.Some? ==> ValidTimeout(call.timeout.value))
  {
    hide ExtractIds, SlotCount;
    var ids := ExtractIds(call.payload).value;
    if Refusal(m, call) == None {
      NotRefused(m, call);
    }
    if exists id <- ids :: Owned(m.sent, id) || Owned(m.pending, id) {
      var id :| id in ids && (Owned(m.sent, id) || Owned(m.pending, id));
      OwnedIff(m.sent, id);
      OwnedIff(m.pending, id);
      var r :| (r in m.sent || r in m.pending) && id in r.ids;
      assert r in m.pending + m.sent;
    }
  }

  /** Admission is atomic: a call changes neither queue, the history nor the mark, or all its ids are taken
      at once, in one queue, unless its payload cannot be written and it is settled on the spot. */
  lemma AdmissionIsAtomic(m: Model, call: Call)
    requires Inv(m)
    ensures var (s, error) := Submit(m, call);
      var parked := call.after == Connecting;
      if error.Some? then s == m.(status := s.status, handshake := s.handshake)
      else
        && ExtractIds(call.payload).Ok? && s.next == m.next + 1
        && var r := Request(m.next, call.payload, ExtractIds(call.payload).value);
        if call.throws && !parked then
          s.pending == m.pending && s.sent == m.sent
          && s.trace == m.trace + [Admitted(r, false), WriteFailed(r), Settled(r, Rejected(SendFailed))]
        else
          && s.pending == (if parked then m.pending + [r] else m.pending)
            && s.sent == (if parked then m.sent else m.sent + [r])
          && InFlight(s) == InFlight(m) + |r.ids| <= m.cfg.maxInFlight
  {
    hide ExtractIds, Refusal, Sound;
    var s := Submit(m, call).0;
    if Submit(m, call).1.Some? {
      RefusedLeavesNoTrace(m, call);
    } else {
      SubmitPreserves(m, call);
      var dialled, r := SubmitShape(m, call);
      assert [r][1..] == [];
      SlotCountConcat(m.pending, [r]);
      SlotCountConcat(m.sent, [r]);
      assert WellFormed(r) && m.trace + ([Admitted(r, false)] + WriteEffects(r, true))
        == m.trace + [Admitted(r, false), WriteFailed(r), Settled(r, Rejected(SendFailed))];
    }
  }

  // ---------- Teardown ----------

  lemma {:induction false} SettlementsOnceEach(q: seq<Request>, outcome: Outcome, r: Request)
    requires Sound(q)
    ensures |Settlements(q, outcome)| == |q|
    ensures forall e <- Settlements(q, outcome) :: e.Settled? && e.outcome == outcome && e.request in q
    ensures multiset(Settlements(q, outcome))[Settled(r, outcome)] == if r in q then 1 else 0
    decreases |q|
  {
    if q != [] {
      HeadApart(q);
      SettlementsOnceEach(q[1..], outcome, r);
      assert Settlements(q, outcome) == [Settled(q[0], outcome)] + Settlements(q[1..], outcome);
    }
  }

  /** Rejecting everything leaves nothing outstanding; each request that was is rejected once, with the given
      reason, and nothing else happens. */
  lemma TeardownRejectsEachOnce(m: Model, why: Failure, r: Request)
    requires Inv(m)
    ensures var n := RejectAll(m, why);
      && n.pending == [] && n.sent == [] && InFlight(n) == 0 && m.trace <= n.trace
      && |n.trace| == |m.trace| + |m.pending| + |m.sent|
      && multiset(n.trace[|m.trace|..])[Settled(r, Rejected(why))] == if r in m.pending || r in m.sent then 1 else 0
  {
    var all := m.pending + m.sent;
    SettlementsOnceEach(all, Rejected(why), r);
    assert (m.trace + Settlements(all, Rejected(why)))[|m.trace|..] == Settlements(all, Rejected(why));
  }

  /** While attempts are left a reconnect rejects exactly the sent requests, each once, and no parked one. */
  lemma ReconnectSparesParked(m: Model, jitter: real, r: Request)
    requires Inv(m) && !m.reconnecting && m.attempts < m.cfg.maxAttempts
    ensures var n := Reconnect(m, jitter);
      && n.pending == m.pending && n.sent == [] && m.trace <= n.trace
      && |n.trace| == |m.trace| + |m.sent| + 1 && n.trace[|n.trace| - 1].ReconnectArmed?
      && multiset(n.trace[|m.trace|..|n.trace| - 1])[Settled(r, Rejected(LostOnReconnect))]
        == if r in m.sent then 1 else 0
  {
    hide Wait;
    SoundParts(m.pending, m.sent);
    SettlementsOnceEach(m.sent, Rejected(LostOnReconnect), r);
    var n := Reconnect(m, jitter);
    assert n.trace[|m.trace|..|n.trace| - 1] == Settlements(m.sent, Rejected(LostOnReconnect));
  }

  // ---------- What a connect writes ----------

  /** The requests a trace tried to write, in order. */
  function WriteAttempts(trace: seq<Effect>): seq<Request> {
    if |trace| == 0 then []
    else (if trace[0].Wrote? || trace[0].WriteFailed? then [trace[0].request] else []) + WriteAttempts(trace[1..])
  }

  lemma {:induction false} WriteAttemptsConcat(a: seq<Effect>, b: seq<Effect>)
    ensures WriteAttempts(a + b) == WriteAttempts(a) + WriteAttempts(b)
    decreases |a|
  {
    if a == [] {
      assert a + b == b;
    } else {
      assert (a + b)[0] == a[0] && (a + b)[1..] == a[1..] + b;
      WriteAttemptsConcat(a[1..], b);
    }
  }

  /** Every parked payload is written exactly once, a batch as one payload, in queue order. */
  lemma {:induction false} DrainWritesTheQueue(q: seq<Request>, throws: set<nat>)
    ensures WriteAttempts(DrainEffects(q, throws)) == q
  {
    if q != [] {
      var w := WriteEffects(q[0], q[0].handle in throws);
      DrainWritesTheQueue(q[1..], throws);
      WriteAttemptsConcat([Promoted(q[0])] + w, DrainEffects(q[1..], throws));
      WriteAttemptsConcat([Promoted(q[0])], w);
      if q[0].handle in throws {
        WriteAttemptsConcat([WriteFailed(q[0])], [Settled(q[0], Rejected(SendFailed))]);
      }
    }
  }

  predicate Ascending(q: seq<Request>, below: nat) {
    && (forall i, j | 0 <= i < j < |q| :: q[i].handle < q[j].handle)
    && (forall i | 0 <= i < |q| :: q[i].handle < below)
  }

  predicate InArrivalOrder(m: Model) { Ascending(m.pending, m.next) }

  lemma AscendingRemove(q: seq<Request>, k: nat, below: nat)
    requires Ascending(q, below) && k < |q|
    ensures Ascending(RemoveAt(q, k), below)
  {
    var p := RemoveAt(q, k);
    forall i | 0 <= i < |p| ensures p[i] == q[if i < k then i else i + 1] {}
    forall i, j | 0 <= i < j < |p| ensures p[i].handle < p[j].handle {
      assert q[if i < k then i else i + 1].handle < q[if j < k then j else j + 1].handle;
    }
  }

  lemma AscendingAppend(q: seq<Request>, r: Request)
    requires Ascending(q, r.handle)
    ensures Ascending(q + [r], r.handle + 1)
  {
    var p := q + [r];
    forall i, j | 0 <= i < j < |p| ensures p[i].handle < p[j].handle {
      assert j < |q| ==> q[i].handle < q[j].handle;
    }
  }

  lemma SubmitKeepsOrder(m: Model, call: Call)
    requires InArrivalOrder(m)
    ensures InArrivalOrder(Submit(m, call).0)
  {
    var dialled, r := SubmitShape(m, call);
    if Submit(m, call).1 == None {
      AscendingAppend(m.pending, r);
    }
  }

  lemma ReconnectKeepsOrder(m: Model, jitter: real)
    requires InArrivalOrder(m)
    ensures InArrivalOrder(Reconnect(m, jitter))
  {}

  lemma CancelKeepsOrder(m: Model, handle: nat, why: Failure)
    requires InArrivalOrder(m)
    ensures InArrivalOrder(Cancel(m, handle, why))
  {
    var k := RequestIndex(m.pending, handle);
    if k < |m.pending| { AscendingRemove(m.pending, k, m.next); }
  }

  lemma MessageKeepsOrder(m: Model, overflow: bool, responses: seq<Response>, jitter: real)
    requires InArrivalOrder(m)
    ensures InArrivalOrder(Message(m, overflow, responses, jitter))
  {
    hide DeliverAll, Reconnect, Settlements;
    var parsed := if overflow then ClearQueues(m) else m;
    RepliesLeaveParkedAlone(parsed, responses);
    DeliverAllNext(parsed, responses);
    ReconnectKeepsOrder(parsed, jitter);
  }

  lemma StepKeepsOrder(m: Model, step: Step)
    requires InArrivalOrder(m)
    ensures InArrivalOrder(Apply(m, step))
  {
    hide Submit, DeliverAll;
    match step {
      case Requested(call) => SubmitKeepsOrder(m, call);
      case Incoming(overflow, responses, jitter) => MessageKeepsOrder(m, overflow, responses, jitter);
      case DeadlineFires(h) => CancelKeepsOrder(m, h, TimedOut);
      case CallerAborts(h, reason) => CancelKeepsOrder(m, h, CallerAborted(reason));
      case ConnectionLost(jitter) => ReconnectKeepsOrder(m, jitter);
      case Opened(chainId, accounts, throws) =>
      case HandshakeExpires(_) =>
      case ReconnectTimerFires(_) =>
      case ConnectCalled(_) =>
      case ResetCalled =>
      case DisconnectCalled =>
      case QueuesCleared =>
    }
  }

  lemma {:induction false} DeliverAllNext(m: Model, responses: seq<Response>)
    ensures DeliverAll(m, responses).next == m.next
    decreases |responses|
  {
    if responses != [] { DeliverAllNext(Deliver(m, responses[0]), responses[1..]); }
  }

  lemma {:induction false} RunKeepsOrder(m: Model, steps: seq<Step>)
    requires InArrivalOrder(m)
    ensures InArrivalOrder(Run(m, steps))
    decreases |steps|
  {
    if steps != [] {
      StepKeepsOrder(m, steps[0]);
      RunKeepsOrder(Apply(m, steps[0]), steps[1..]);
    }
  }

  // ---------- Reconnection ----------

  /** Every wait lies between 0 and 72 seconds, and for a non-negative delay within a fifth of the capped delay. */
  lemma WaitIsBounded(delay: real, attempt: nat, jitter: real)
    requires attempt >= 1 && -0.2 <= jitter < 0.2
    ensures 0 <= Wait(delay, attempt, jitter) < 72000
    ensures delay >= 0.0 ==>
      var capped := Capped(delay, attempt);
      0.8 * capped - 1.0 < Wait(delay, attempt, jitter) as real <= 1.2 * capped
  {
    JitteredIsBounded(Capped(delay, attempt), jitter);
    CappedSign(delay, attempt);
  }

  lemma CappedSign(delay: real, attempt: nat)
    requires attempt >= 1
    ensures Capped(delay, attempt) <= 60000.0
    ensures delay >= 0.0 ==> Capped(delay, attempt) >= 0.0
  {
    Positional.PowPositive(2, attempt - 1);
  }

  lemma JitteredIsBounded(capped: real, jitter: real)
    requires capped <= 60000.0 && -0.2 <= jitter < 0.2
    ensures var w := Jittered(capped, jitter);
      && 0 <= w < 72000
      && (capped >= 0.0 ==> 0.8 * capped - 1.0 < w as real <= 1.2 * capped)
  {
    var x := Scaled(capped, jitter);
    FloorBounds(capped, x);
  }

  lemma Scaled(capped: real, jitter: real) returns (x: real)
    requires -0.2 <= jitter < 0.2
    ensures x == capped + capped * jitter
    ensures capped >= 0.0 ==> 0.8 * capped <= x <= 1.2 * capped
    ensures capped > 0.0 ==> x < 1.2 * capped
    ensures capped < 0.0 ==> x < 0.0
  {
    var p := capped * jitter;
    x := capped + p;
    if capped > 0.0 {
      TimesBounds(capped, jitter, p);
    } else if capped < 0.0 {
      TimesMinus(capped, jitter, p);
    } else {
      TimesZero(capped, jitter, p);
    }
  }

  lemma TimesBounds(a: real, j: real, p: real)
    requires a > 0.0 && -0.2 <= j < 0.2 && p == a * j
    ensures -0.2 * a <= p < 0.2 * a
  {
    TimesPositive(a, 0.2 - j);
    assert a * (0.2 - j) == 0.2 * a - p;
    TimesNotNegative(a, j + 0.2);
    assert a * (j + 0.2) == p + 0.2 * a;
  }

  lemma TimesMinus(a: real, j: real, p: real)
    requires a < 0.0 && -0.2 <= j < 0.2 && p == a * j
    ensures p <= -0.2 * a
  {
    TimesNotNegative(-a, j + 0.2);
    assert (-a) * (j + 0.2) == -p - 0.2 * a;
  }

  lemma TimesPositive(a: real, b: real)
    requires a > 0.0 && b > 0.0
    ensures a * b > 0.0
  {}

  lemma TimesNotNegative(a: real, b: real)
    requires a > 0.0 && b >= 0.0
    ensures a * b >= 0.0
  {
    if b > 0.0 { TimesPositive(a, b); } else { TimesZero(b, a, b * a); }
  }

  lemma TimesZero(a: real, j: real, p: real)
    requires a == 0.0 && p == a * j
    ensures p == 0.0
  {}

  lemma FloorBounds(capped: real, x: real)
    requires capped <= 60000.0
    requires capped >= 0.0 ==> 0.8 * capped <= x <= 1.2 * capped
    requires capped > 0.0 ==> x < 1.2 * capped
    requires capped < 0.0 ==> x < 0.0
    ensures x.Floor < 72000
    ensures capped >= 0.0 ==> 0 <= x.Floor && 0.8 * capped - 1.0 < x.Floor as real <= 1.2 * capped
  {}

  /** A step that really starts a reconnect, rather than finding one under way. */
  predicate Tries(m: Model, step: Step) {
    && !m.reconnecting
    && (step.ConnectionLost? || (step.Incoming? && step.responses == [] && m.cfg.autoReconnect))
  }

  function CountTries(m: Model, steps: seq<Step>): nat
    decreases |steps|
  {
    if |steps| == 0 then 0
    else (if Tries(m, steps[0]) then 1 else 0) + CountTries(Apply(m, steps[0]), steps[1..])
  }

  /** Only a successful open and a reset give the provider new attempts. */
  lemma AttemptsMove(m: Model, step: Step)
    requires !step.Opened? && !step.ResetCalled?
    ensures Apply(m, step).cfg == m.cfg
    ensures Apply(m, step).attempts == m.attempts + (if Tries(m, step) && m.attempts < m.cfg.maxAttempts then 1 else 0)
  {
    hide Reconnect, Message;
    match step {
      case Requested(call) => var dialled, r := SubmitShape(m, call);
      case Incoming(overflow, responses, jitter) => MessageAttempts(m, overflow, responses, jitter);
      case ConnectionLost(jitter) => ReconnectAttempts(m, jitter);
      case DeadlineFires(_) =>
      case CallerAborts(_, _) =>
      case HandshakeExpires(_) =>
      case ReconnectTimerFires(_) =>
      case ConnectCalled(_) =>
      case DisconnectCalled =>
      case QueuesCleared =>
    }
  }

  lemma ReconnectAttempts(m: Model, jitter: real)
    ensures var n := Reconnect(m, jitter);
      n.cfg == m.cfg && n.attempts == m.attempts + (if !m.reconnecting && m.attempts < m.cfg.maxAttempts then 1 else 0)
  {}

  lemma MessageAttempts(m: Model, overflow: bool, responses: seq<Response>, jitter: real)
    ensures var n := Message(m, overflow, responses, jitter);
      && n.cfg == m.cfg
      && n.attempts == m.attempts
           + (if responses == [] && m.cfg.autoReconnect && !m.reconnecting && m.attempts < m.cfg.maxAttempts
              then 1 else 0)
  {
    var parsed := if overflow then ClearQueues(m) else m;
    DeliverAllAttempts(parsed, responses);
    ReconnectAttempts(parsed, jitter);
  }

  lemma {:induction false} DeliverAllAttempts(m: Model, responses: seq<Response>)
    ensures DeliverAll(m, responses).attempts == m.attempts && DeliverAll(m, responses).cfg == m.cfg
    decreases |responses|
  {
    if responses != [] { DeliverAllAttempts(Deliver(m, responses[0]), responses[1..]); }
  }

  predicate GivenUp(m: Model) {
    m.pending == [] && m.sent == [] && m.trace != [] && m.trace[|m.trace| - 1] == GaveUp
  }

  lemma LastTryGivesUp(m: Model, step: Step)
    requires Tries(m, step) && m.attempts >= m.cfg.maxAttempts
    ensures GivenUp(Apply(m, step))
  {}

  /** Without an open or a reset in between, more reconnects than attempts are left must reach the
      give-up branch, which empties both queues. */
  lemma {:induction false} FailuresReachGiveUp(m: Model, steps: seq<Step>)
    requires forall s <- steps :: !s.Opened? && !s.ResetCalled?
    requires CountTries(m, steps) > 0 && CountTries(m, steps) > m.cfg.maxAttempts - m.attempts
    ensures exists k | 0 < k <= |steps| :: GivenUp(Run(m, steps[..k]))
    decreases |steps|
  {
    var next := Apply(m, steps[0]);
    assert steps[0] in steps;
    AttemptsMove(m, steps[0]);
    if Tries(m, steps[0]) && m.attempts >= m.cfg.maxAttempts {
      LastTryGivesUp(m, steps[0]);
      assert steps[..1] == [steps[0]] && steps[..1][1..] == [];
      assert Run(m, steps[..1]) == next;
    } else {
      FailuresReachGiveUp(next, steps[1..]);
      var k :| 0 < k <= |steps[1..]| && GivenUp(Run(next, steps[1..][..k]));
      assert steps[..k + 1][0] == steps[0] && steps[..k + 1][1..] == steps[1..][..k];
      assert Run(m, steps[..k + 1]) == Run(next, steps[1..][..k]);
    }
  }

  predicate JitterInRange(step: Step) {
    && (step.ConnectionLost? ==> -0.2 <= step.jitter < 0.2)
    && (step.Incoming? ==> -0.2 <= step.jitter < 0.2)
  }

  predicate WaitsBounded(trace: seq<Effect>) {
    forall e <- trace :: e.ReconnectArmed? ==> 0 <= e.wait < 72000
  }

  /** Over every run: at most one reconnect timer is outstanding, exactly while `isReconnecting`, the
      attempt counter stays within its limit, and every wait ever armed is within the bound. */
  lemma ReconnectionIsBounded(cfg: Config, steps: seq<Step>)
    requires forall s <- steps :: JitterInRange(s)
    ensures var m := Run(Start(cfg), steps);
      && m.timers <= 1 && (m.timers == 1 <==> m.reconnecting)
      && (m.attempts == 0 || m.attempts <= m.cfg.maxAttempts)
      && WaitsBounded(m.trace)
  {
    InitialSound(cfg);
    RunKeepsInvariant(Start(cfg), steps);
    RunKeepsWaits(Start(cfg), steps);
  }

  lemma {:induction false} RunKeepsWaits(m: Model, steps: seq<Step>)
    requires forall s <- steps :: JitterInRange(s)
    requires WaitsBounded(m.trace)
    ensures WaitsBounded(Run(m, steps).trace)
    decreases |steps|
  {
    if steps != [] {
      assert steps[0] in steps;
      StepKeepsWaits(m, steps[0]);
      RunKeepsWaits(Apply(m, steps[0]), steps[1..]);
    }
  }

  predicate NoWaits(trace: seq<Effect>) { forall e <- trace :: !e.ReconnectArmed? }

  lemma {:induction false} SettlementsHaveNoWaits(q: seq<Request>, outcome: Outcome)
    ensures NoWaits(Settlements(q, outcome))
  {
    if q != [] { SettlementsHaveNoWaits(q[1..], outcome); }
  }

  lemma {:induction false} DrainHasNoWaits(q: seq<Request>, throws: set<nat>)
    ensures NoWaits(DrainEffects(q, throws))
  {
    if q != [] { DrainHasNoWaits(q[1..], throws); }
  }

  lemma {:induction false} DeliverAllHasNoWaits(m: Model, responses: seq<Response>)
    requires WaitsBounded(m.trace)
    ensures WaitsBounded(DeliverAll(m, responses).trace)
    decreases |responses|
  {
    if responses != [] { DeliverAllHasNoWaits(Deliver(m, responses[0]), responses[1..]); }
  }

  lemma ReconnectKeepsWaits(m: Model, jitter: real)
    requires WaitsBounded(m.trace) && -0.2 <= jitter < 0.2
    ensures WaitsBounded(Reconnect(m, jitter).trace)
  {
    hide Wait, Settlements;
    var lost := RejectSent(m, LostOnReconnect);
    SettlementsHaveNoWaits(m.sent, Rejected(LostOnReconnect));
    RejectKeepsWaits(lost.(handshake := false), ConnectionNotOpen);
    WaitIsBounded(m.cfg.delay, m.attempts + 1, jitter);
  }

  lemma OpenKeepsWaits(m: Model, chainId: Call, accounts: Call, throws: set<nat>)
    requires WaitsBounded(m.trace)
    ensures WaitsBounded(Open(m, chainId, accounts, throws).trace)
  {
    var up := m.(handshake := false, status := Connected, attempts := 0);
    SubmitKeepsWaits(up, chainId);
    SubmitKeepsWaits(Submit(up, chainId).0, accounts);
    DrainHasNoWaits(Submit(Submit(up, chainId).0, accounts).0.pending, throws);
  }

  lemma SubmitKeepsWaits(m: Model, call: Call)
    requires WaitsBounded(m.trace)
    ensures WaitsBounded(Submit(m, call).0.trace)
  {
    var dialled, r := SubmitShape(m, call);
  }

  lemma RejectKeepsWaits(m: Model, why: Failure)
    requires WaitsBounded(m.trace)
    ensures WaitsBounded(RejectAll(m, why).trace)
  {
    SettlementsHaveNoWaits(m.pending + m.sent, Rejected(why));
  }

  lemma StepKeepsWaits(m: Model, step: Step)
    requires WaitsBounded(m.trace) && JitterInRange(step)
    ensures WaitsBounded(Apply(m, step).trace)
  {
    hide Submit, DeliverAll, Reconnect, Open;
    match step {
      case Requested(call) => SubmitKeepsWaits(m, call);
      case Opened(chainId, accounts, throws) => OpenKeepsWaits(m, chainId, accounts, throws);
      case Incoming(overflow, responses, jitter) =>
        RejectKeepsWaits(m, ConnectionNotOpen);
        var parsed := if overflow then ClearQueues(m) else m;
        assert parsed.trace == m.trace || parsed.trace == RejectAll(m, ConnectionNotOpen).trace;
        DeliverAllHasNoWaits(parsed, responses);
        ReconnectKeepsWaits(parsed, jitter);
      case DeadlineFires(h) =>
      case CallerAborts(h, reason) =>
      case HandshakeExpires(_) => RejectKeepsWaits(m, HandshakeTimedOut);
      case ConnectionLost(jitter) => ReconnectKeepsWaits(m, jitter);
      case ReconnectTimerFires(_) =>
      case ConnectCalled(_) =>
      case ResetCalled => RejectKeepsWaits(m, ProviderReset);
      case DisconnectCalled => RejectKeepsWaits(m, ConnectionNotOpen);
      case QueuesCleared => RejectKeepsWaits(m, ConnectionNotOpen);
    }
  }
}
