/** What a run does to the outside: every request goes through its life in one direction, is written at
    most once and settled exactly once. */
module RequestTraces {
  import opened Wrappers
  import opened RequestModel
  import opened RequestRuns

  // ---------- The life of one request ----------

  /** Where a request is, as far as the outside can tell from the effects so far. */
  datatype Phase =
    | Unknown
    | Parked(request: Request)
    | Ready(request: Request)    // all its ids are in the sent map, nothing written yet
    | Written(request: Request)
    | Failed(request: Request)   // the write threw
    | Done(request: Request)
    | Bad

  /** The only legal life: admitted, promoted if it was parked, written once or failed once, settled once, and
      resolved only after it has been written. */
  function Advance(p: Phase, h: nat, e: Effect): Phase {
    match e
    case Admitted(r, parked) =>
      if r.handle != h then p else if p != Unknown then Bad else if parked then Parked(r) else Ready(r)
    case Promoted(r) =>
      if r.handle != h then p else if p == Parked(r) then Ready(r) else Bad
    case Wrote(r) =>
      if r.handle != h then p else if p == Ready(r) then Written(r) else Bad
    case WriteFailed(r) =>
      if r.handle != h then p else if p == Ready(r) then Failed(r) else Bad
    case Settled(r, outcome) =>
      if r.handle != h then p
      else if p == Written(r) || (p == Parked(r) && outcome.Rejected?)
           || (p == Failed(r) && outcome == Rejected(SendFailed)) then Done(r)
      else Bad
    case ReconnectArmed(_) => p
    case GaveUp => p
  }

  function Life(p: Phase, h: nat, trace: seq<Effect>): Phase
    decreases |trace|
  {
    if |trace| == 0 then p else Life(Advance(p, h, trace[0]), h, trace[1..])
  }

  lemma {:induction false} LifeConcat(p: Phase, h: nat, a: seq<Effect>, b: seq<Effect>)
    ensures Life(p, h, a + b) == Life(Life(p, h, a), h, b)
    decreases |a|
  {
    if a == [] {
      assert a + b == b;
    } else {
      assert (a + b)[0] == a[0] && (a + b)[1..] == a[1..] + b;
      LifeConcat(Advance(p, h, a[0]), h, a[1..], b);
    }
  }

  predicate Holds(q: seq<Request>, h: nat) { exists r <- q :: r.handle == h }

  /** The trace and the queues agree about request `h`. */
  predicate Follows(m: Model, h: nat) {
    var p := Life(Unknown, h, m.trace);
    && (forall r <- m.pending :: r.handle == h ==> p == Parked(r))
    && (forall r <- m.sent :: r.handle == h ==> p == Written(r))
    && (h >= m.next ==> p == Unknown)
    && (h < m.next && !Holds(m.pending, h) && !Holds(m.sent, h) ==> p.Done?)
  }

  lemma {:induction false} LifeOfSettlements(p: Phase, h: nat, q: seq<Request>, outcome: Outcome)
    requires Sound(q) && outcome.Rejected?
    ensures !Holds(q, h) ==> Life(p, h, Settlements(q, outcome)) == p
    ensures forall r <- q ::
      r.handle == h && (p == Parked(r) || p == Written(r)) ==> Life(p, h, Settlements(q, outcome)) == Done(r)
    decreases |q|
  {
    if q != [] {
      var t := Settlements(q, outcome);
      assert t[1..] == Settlements(q[1..], outcome);
      LifeOfSettlements(Advance(p, h, t[0]), h, q[1..], outcome);
      HeadApart(q);
    }
  }

  lemma HeadApart(q: seq<Request>)
    requires Sound(q) && q != []
    ensures Sound(q[1..])
    ensures forall s <- q[1..] :: s in q && s.handle != q[0].handle
    ensures forall s <- q :: s == q[0] || s in q[1..]
  {
    forall i | 0 < i < |q| ensures q[i].handle != q[0].handle { assert Apart(q[0], q[i]); }
  }

  lemma {:induction false} LifeOfDrain(p: Phase, h: nat, q: seq<Request>, throws: set<nat>)
    requires Sound(q)
    ensures !Holds(q, h) ==> Life(p, h, DrainEffects(q, throws)) == p
    ensures forall r <- q :: r.handle == h && p == Parked(r) ==>
      Life(p, h, DrainEffects(q, throws)) == if h in throws then Done(r) else Written(r)
    decreases |q|
  {
    if q != [] {
      var r := q[0];
      var first := [Promoted(r)] + WriteEffects(r, r.handle in throws);
      assert DrainEffects(q, throws) == first + DrainEffects(q[1..], throws);
      LifeConcat(p, h, first, DrainEffects(q[1..], throws));
      LifeConcat(p, h, [Promoted(r)], WriteEffects(r, r.handle in throws));
      LifeOfWrite(Advance(p, h, Promoted(r)), h, r, r.handle in throws);
      LifeOfDrain(Life(p, h, first), h, q[1..], throws);
      HeadApart(q);
    }
  }

  lemma LifeOfWrite(p: Phase, h: nat, r: Request, throws: bool)
    ensures r.handle != h ==> Life(p, h, WriteEffects(r, throws)) == p
    ensures r.handle == h && p == Ready(r)
      ==> Life(p, h, WriteEffects(r, throws)) == if throws then Done(r) else Written(r)
  {
    if throws { LifeConcat(p, h, [WriteFailed(r)], [Settled(r, Rejected(SendFailed))]); }
  }

  // ---------- Each step keeps trace and queues in agreement ----------

  lemma RejectFollows(m: Model, why: Failure, h: nat)
    requires Inv(m) && Follows(m, h)
    ensures Follows(RejectAll(m, why), h) && Follows(RejectSent(m, why), h)
  {
    var all := m.pending + m.sent;
    LifeConcat(Unknown, h, m.trace, Settlements(all, Rejected(why)));
    LifeConcat(Unknown, h, m.trace, Settlements(m.sent, Rejected(why)));
    var p := Life(Unknown, h, m.trace);
    LifeOfSettlements(p, h, all, Rejected(why));
    SoundParts(m.pending, m.sent);
    LifeOfSettlements(p, h, m.sent, Rejected(why));
    forall r | r in m.pending || r in m.sent ensures r in all && r.handle < m.next {}
    forall r, s | r in m.pending && s in m.sent ensures r.handle != s.handle { ApartAcross(m.pending, m.sent, r, s); }
  }

  lemma ApartAcross(a: seq<Request>, b: seq<Request>, r: Request, s: Request)
    requires Sound(a + b) && r in a && s in b
    ensures Apart(r, s)
  {
    var i, j :| 0 <= i < |a| && a[i] == r && 0 <= j < |b| && b[j] == s;
    assert (a + b)[i] == r && (a + b)[|a| + j] == s;
  }

  /** The request at position `k` is the only one with its handle. */
  lemma OnlyAt(q: seq<Request>, k: nat)
    requires Sound(q) && k < |q|
    ensures forall r <- RemoveAt(q, k) :: r in q && r.handle != q[k].handle
    ensures forall r <- q :: r != q[k] ==> r in RemoveAt(q, k)
  {
    forall r | r in RemoveAt(q, k) ensures r in q && r.handle != q[k].handle {
      var i :| 0 <= i < |RemoveAt(q, k)| && RemoveAt(q, k)[i] == r;
      if i < k { assert Apart(q[i], q[k]); } else { assert Apart(q[k], q[i + 1]); }
    }
    forall r | r in q && r != q[k] ensures r in RemoveAt(q, k) {
      var i :| 0 <= i < |q| && q[i] == r;
      assert RemoveAt(q, k)[if i < k then i else i - 1] == r;
    }
  }

  lemma RemoveSentFollows(m: Model, k: nat, outcome: Outcome, h: nat)
    requires Inv(m) && Follows(m, h) && k < |m.sent|
    ensures Follows(m.(sent := RemoveAt(m.sent, k), trace := m.trace + [Settled(m.sent[k], outcome)]), h)
  {
    var r := m.sent[k];
    LifeConcat(Unknown, h, m.trace, [Settled(r, outcome)]);
    assert r in m.pending + m.sent;
    SoundParts(m.pending, m.sent);
    OnlyAt(m.sent, k);
    forall s | s in m.pending ensures s.handle != r.handle { ApartAcross(m.pending, m.sent, s, r); }
  }

  lemma RemovePendingFollows(m: Model, k: nat, outcome: Outcome, h: nat)
    requires Inv(m) && Follows(m, h) && k < |m.pending| && outcome.Rejected?
    ensures Follows(m.(pending := RemoveAt(m.pending, k), trace := m.trace + [Settled(m.pending[k], outcome)]), h)
  {
    var r := m.pending[k];
    LifeConcat(Unknown, h, m.trace, [Settled(r, outcome)]);
    assert r in m.pending + m.sent;
    SoundParts(m.pending, m.sent);
    OnlyAt(m.pending, k);
    forall s | s in m.sent ensures s.handle != r.handle { ApartAcross(m.pending, m.sent, r, s); }
  }

  lemma SettleFollows(m: Model, id: Id, outcome: Outcome, h: nat)
    requires Inv(m) && Follows(m, h) && (outcome.Rejected? || Owned(m.sent, id))
    ensures Follows(Settle(m, id, outcome), h)
  {
    if Owned(m.sent, id) {
      RemoveSentFollows(m, OwnerIndex(m.sent, id), outcome, h);
    } else if Owned(m.pending, id) {
      RemovePendingFollows(m, OwnerIndex(m.pending, id), outcome, h);
    }
  }

  lemma CancelFollows(m: Model, handle: nat, why: Failure, h: nat)
    requires Inv(m) && Follows(m, h)
    ensures Follows(Cancel(m, handle, why), h)
  {
    if RequestIndex(m.sent, handle) < |m.sent| {
      RemoveSentFollows(m, RequestIndex(m.sent, handle), Rejected(why), h);
    } else if RequestIndex(m.pending, handle) < |m.pending| {
      RemovePendingFollows(m, RequestIndex(m.pending, handle), Rejected(why), h);
    }
  }

  lemma {:induction false} KeptExactly(q: seq<Request>, throws: set<nat>)
    ensures forall r :: r in Kept(q, throws) <==> r in q && r.handle !in throws
  {
    if q != [] { KeptExactly(q[1..], throws); }
  }

  lemma DrainFollows(m: Model, throws: set<nat>, h: nat)
    requires Inv(m) && Follows(m, h)
    ensures Follows(Drain(m, throws), h)
  {
    hide Sound, SlotCount, DrainEffects, Life;
    LifeConcat(Unknown, h, m.trace, DrainEffects(m.pending, throws));
    SoundParts(m.pending, m.sent);
    LifeOfDrain(Life(Unknown, h, m.trace), h, m.pending, throws);
    KeptExactly(m.pending, throws);
    forall r | r in m.pending || r in m.sent ensures r in m.pending + m.sent {}
    forall r, s | r in m.pending && s in m.sent ensures r.handle != s.handle { ApartAcross(m.pending, m.sent, r, s); }
    forall r, s | r in m.pending && s in m.pending && r.handle == s.handle
      ensures r == s { SameHandle(m.pending, r, s); }
    var d := Drain(m, throws);
    assert forall s <- m.sent :: s in d.sent;
    assert forall r <- m.pending :: r.handle !in throws ==> r in Kept(m.pending, throws) && r in d.sent;
  }

  lemma SameHandle(q: seq<Request>, r: Request, s: Request)
    requires Sound(q) && r in q && s in q && r.handle == s.handle
    ensures r == s
  {
    forall i, j | 0 <= i < j < |q| ensures q[i].handle != q[j].handle { assert Apart(q[i], q[j]); }
  }

  lemma AdmitFollows(m: Model, r: Request, parked: bool, throws: bool, h: nat)
    requires Inv(m) && Follows(m, h) && r.handle == m.next
    ensures Follows(Admit(m, r, parked, throws), h)
  {
    hide Sound, SlotCount;
    var a := Admit(m, r, parked, throws);
    forall s | s in m.pending || s in m.sent ensures s.handle < m.next { assert s in m.pending + m.sent; }
    var written := if parked then [] else WriteEffects(r, throws);
    LifeConcat(Unknown, h, m.trace, [Admitted(r, parked)] + written);
    LifeConcat(Life(Unknown, h, m.trace), h, [Admitted(r, parked)], written);
    LifeOfWrite(Ready(r), h, r, throws);
    LifeOfWrite(Life(Unknown, h, m.trace), h, r, throws);
    assert forall s :: s in a.pending <==> s in m.pending || (parked && s == r);
    assert forall s :: s in a.sent <==> s in m.sent || (!parked && !throws && s == r);
    if Holds(m.pending, h) { var s :| s in m.pending && s.handle == h; assert s in a.pending; }
    if Holds(m.sent, h) { var s :| s in m.sent && s.handle == h; assert s in a.sent; }
  }

  /** Only the queues, the trace and the cap decide. */
  lemma SameFollows(m: Model, n: Model, h: nat)
    requires n.pending == m.pending && n.sent == m.sent && n.next == m.next && n.trace == m.trace
    requires Follows(m, h)
    ensures Follows(n, h)
    ensures Inv(m) && n == m.(status := n.status, handshake := n.handshake) ==> Inv(n)
  {
    hide Life, Holds, Sound, SlotCount;
  }

  lemma SubmitFollows(m: Model, call: Call, h: nat)
    requires Inv(m) && Follows(m, h)
    ensures Follows(Submit(m, call).0, h)
  {
    hide Inv, Follows, Admit, Submit, Refusal;
    var dialled, r := SubmitShape(m, call);
    SameFollows(m, dialled, h);
    if Submit(m, call).1 == None {
      AdmitFollows(dialled, r, call.after == Connecting, call.throws, h);
    }
  }

  lemma {:induction false} DeliverAllFollows(m: Model, responses: seq<Response>, h: nat)
    requires Inv(m) && Follows(m, h)
    ensures Follows(DeliverAll(m, responses), h)
    decreases |responses|
  {
    if responses != [] {
      if Owned(m.sent, ReplyId(responses[0])) {
        var outcome := if Acceptable(responses[0]) then Resolved(responses[0])
          else Rejected(InvalidReply(responses[0]));
        SettlePreserves(m, ReplyId(responses[0]), outcome);
        SettleFollows(m, ReplyId(responses[0]), outcome, h);
      }
      DeliverAllFollows(Deliver(m, responses[0]), responses[1..], h);
    }
  }

  lemma ClearFollows(m: Model, h: nat)
    requires Inv(m) && Follows(m, h)
    ensures Follows(ClearQueues(m), h) && Follows(Disconnect(m), h) && Follows(Reset(m), h)
  {
    var quiet := m.(handshake := false);
    assert Inv(quiet) && Follows(quiet, h);
    RejectFollows(quiet, ConnectionNotOpen, h);
    RejectFollows(quiet, ProviderReset, h);
  }

  lemma NoteFollows(m: Model, e: Effect, h: nat)
    requires Follows(m, h) && (e.ReconnectArmed? || e.GaveUp?)
    ensures Follows(m.(trace := m.trace + [e]), h)
  {
    LifeConcat(Unknown, h, m.trace, [e]);
  }

  lemma ReconnectFollows(m: Model, jitter: real, h: nat)
    requires Inv(m) && Follows(m, h)
    ensures Follows(Reconnect(m, jitter), h)
  {
    RejectPreserves(m, LostOnReconnect);
    RejectFollows(m, LostOnReconnect, h);
    var lost := RejectSent(m, LostOnReconnect);
    if m.reconnecting {
    } else if m.attempts < m.cfg.maxAttempts {
      NoteFollows(lost, ReconnectArmed(Wait(m.cfg.delay, m.attempts + 1, jitter)), h);
    } else {
      ClearFollows(lost, h);
      NoteFollows(ClearQueues(lost), GaveUp, h);
    }
  }

  lemma OpenFollows(m: Model, chainId: Call, accounts: Call, throws: set<nat>, h: nat)
    requires Inv(m) && Follows(m, h)
    ensures Follows(Open(m, chainId, accounts, throws), h)
  {
    var up := m.(handshake := false, status := Connected, attempts := 0);
    assert Inv(up);
    SubmitPreserves(up, chainId);
    SubmitFollows(up, chainId, h);
    var one := Submit(up, chainId).0;
    SubmitPreserves(one, accounts);
    SubmitFollows(one, accounts, h);
    DrainFollows(Submit(one, accounts).0, throws, h);
  }

  lemma MessageFollows(m: Model, overflow: bool, responses: seq<Response>, jitter: real, h: nat)
    requires Inv(m) && Follows(m, h)
    ensures Follows(Message(m, overflow, responses, jitter), h)
  {
    ClearFollows(m, h);
    ClearPreserves(m);
    var parsed := if overflow then ClearQueues(m) else m;
    DeliverAllFollows(parsed, responses, h);
    ReconnectFollows(parsed, jitter, h);
  }

  lemma HandshakeFollows(m: Model, status: Status, h: nat)
    requires Inv(m) && Follows(m, h)
    ensures Follows(HandshakeTimeout(m, status), h)
  {
    var late := m.(handshake := false, status := Disconnected);
    assert Inv(late) && Follows(late, h);
    RejectFollows(late, HandshakeTimedOut, h);
  }

  lemma DialFollows(m: Model, dial: Dial, h: nat)
    requires Follows(m, h)
    ensures Follows(Connect(m, dial).0, h) && Follows(ReconnectTimer(m, dial), h)
  {
    hide Follows;
    SameFollows(m, Connect(m, dial).0, h);
    SameFollows(m, ReconnectTimer(m, dial), h);
  }

  lemma StepFollows(m: Model, step: Step, h: nat)
    requires Inv(m) && Follows(m, h)
    ensures Follows(Apply(m, step), h)
  {
    hide Inv, Follows;
    match step {
      case Requested(call) => SubmitFollows(m, call, h);
      case Opened(chainId, accounts, throws) => OpenFollows(m, chainId, accounts, throws, h);
      case Incoming(overflow, responses, jitter) => MessageFollows(m, overflow, responses, jitter, h);
      case DeadlineFires(handle) => CancelFollows(m, handle, TimedOut, h);
      case CallerAborts(handle, reason) => CancelFollows(m, handle, CallerAborted(reason), h);
      case HandshakeExpires(status) => HandshakeFollows(m, status, h);
      case ConnectionLost(jitter) => ReconnectFollows(m, jitter, h);
      case ReconnectTimerFires(dial) => DialFollows(m, dial, h);
      case ConnectCalled(dial) => DialFollows(m, dial, h);
      case ResetCalled => ClearFollows(m, h);
      case DisconnectCalled => ClearFollows(m, h);
      case QueuesCleared => ClearFollows(m, h);
    }
  }

  lemma {:induction false} RunFollows(m: Model, steps: seq<Step>, h: nat)
    requires Inv(m) && Follows(m, h)
    ensures Follows(Run(m, steps), h)
    decreases |steps|
  {
    if steps != [] {
      StepPreserves(m, steps[0]);
      StepFollows(m, steps[0], h);
      RunFollows(Apply(m, steps[0]), steps[1..], h);
    }
  }

  // ---------- Exactly once ----------

  function Count(trace: seq<Effect>, which: Effect -> bool): nat {
    if |trace| == 0 then 0 else (if which(trace[0]) then 1 else 0) + Count(trace[1..], which)
  }

  function SettledOf(h: nat): Effect -> bool { (e: Effect) => e.Settled? && e.request.handle == h }
  function AdmittedOf(h: nat): Effect -> bool { (e: Effect) => e.Admitted? && e.request.handle == h }
  function WroteOf(h: nat): Effect -> bool { (e: Effect) => e.Wrote? && e.request.handle == h }

  /** A legal life counts: what is still to come from a phase is what the rest of the trace contains. */
  lemma {:induction false} LifeCounts(p: Phase, h: nat, trace: seq<Effect>)
    requires Life(p, h, trace) != Bad
    ensures p != Bad
    ensures var last := Life(p, h, trace);
      && Count(trace, SettledOf(h)) == (if last.Done? then 1 else 0) - (if p.Done? then 1 else 0)
      && Count(trace, AdmittedOf(h)) == (if last != Unknown then 1 else 0) - (if p != Unknown then 1 else 0)
      && Count(trace, WroteOf(h)) <= 1
      && (Count(trace, WroteOf(h)) == 1 ==> last.Written? || last.Done?)
      && (last.Written? && !p.Written? ==> Count(trace, WroteOf(h)) == 1)
      && (p.Written? || p.Done? || p.Failed? ==> Count(trace, WroteOf(h)) == 0 && (last == p || last.Done?))
    decreases |trace|
  {
    if trace != [] {
      LifeCounts(Advance(p, h, trace[0]), h, trace[1..]);
    }
  }

  predicate InFlightNow(m: Model, h: nat) { Holds(m.pending, h) || Holds(m.sent, h) }

  /** Request `h` was settled exactly once if it left the queues and not at all while it is in flight;
      it was written at most once, exactly once while it waits for its reply, never while it is parked. */
  predicate ExactlyOnce(m: Model, h: nat) {
    && Count(m.trace, AdmittedOf(h)) == (if h < m.next then 1 else 0)
    && Count(m.trace, SettledOf(h)) == (if h < m.next && !InFlightNow(m, h) then 1 else 0)
    && Count(m.trace, WroteOf(h)) <= 1
    && (Holds(m.sent, h) ==> Count(m.trace, WroteOf(h)) == 1)
    && (Holds(m.pending, h) ==> Count(m.trace, WroteOf(h)) == 0)
  }

  lemma FollowingCounts(m: Model, h: nat)
    requires Inv(m) && Follows(m, h)
    ensures ExactlyOnce(m, h)
  {
    LifeCounts(Unknown, h, m.trace);
    if InFlightNow(m, h) {
      var r :| (r in m.pending || r in m.sent) && r.handle == h;
      assert r in m.pending + m.sent;
    }
  }

  /** Over every run from the start, whatever the interleaving of calls, replies, deadlines, aborts and
      teardowns: every admitted request is settled exactly once, and exactly when it leaves the queues. */
  lemma SettledExactlyOnce(cfg: Config, steps: seq<Step>, h: nat)
    ensures ExactlyOnce(Run(Start(cfg), steps), h)
  {
    InitialSound(cfg);
    assert Follows(Start(cfg), h);
    RunKeepsInvariant(Start(cfg), steps);
    RunFollows(Start(cfg), steps, h);
    FollowingCounts(Run(Start(cfg), steps), h);
  }
}
