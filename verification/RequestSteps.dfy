/** What the steps of the request machine do, told by the members of replies, queues and traces alone. */
module RequestSteps {
  import opened Wrappers
  import opened RequestModel
  import opened RequestRuns
  import opened RequestTraces
  import opened RequestLaws
  import opened RequestReplies
  import Positional

  // ---------- Teardown ----------

  /** Nothing is outstanding any more; what has been added to the trace is one rejection, with the given reason,
      for every request that was, and nothing else. */
  ghost predicate RejectsEachOnce(m: Model, n: Model, why: Failure) {
    && n.pending == [] && n.sent == [] && m.trace <= n.trace
    && |n.trace| == |m.trace| + |m.pending| + |m.sent|
    && (forall i | |m.trace| <= i < |n.trace| ::
          && n.trace[i].Settled? && n.trace[i].outcome == Rejected(why)
          && (n.trace[i].request in m.pending || n.trace[i].request in m.sent))
    && (forall r | r in m.pending || r in m.sent ::
          multiset(n.trace[|m.trace|..])[Settled(r, Rejected(why))] == 1)
  }

  lemma RejectAllRejects(m: Model, why: Failure)
    requires Inv(m)
    ensures RejectsEachOnce(m, RejectAll(m, why), why)
  {
    hide Inv, Settlements;
    var n, all := RejectAll(m, why), m.pending + m.sent;
    var added := Settlements(all, Rejected(why));
    assert n.trace[|m.trace|..] == added;
    AllAreRejections(all, why, m);
    assert forall i | |m.trace| <= i < |n.trace| :: n.trace[i] == added[i - |m.trace|];
    forall r | r in m.pending || r in m.sent
      ensures multiset(n.trace[|m.trace|..])[Settled(r, Rejected(why))] == 1 {
      TeardownRejectsEachOnce(m, why, r);
    }
  }

  lemma AllAreRejections(q: seq<Request>, why: Failure, m: Model)
    requires Inv(m) && q == m.pending + m.sent
    ensures var added := Settlements(q, Rejected(why));
      |added| == |q| && forall i | 0 <= i < |q| ::
        added[i].Settled? && added[i].outcome == Rejected(why)
          && (added[i].request in m.pending || added[i].request in m.sent)
  {
    hide Inv;
    RejectionsAre(q, why);
    assert forall i | 0 <= i < |q| :: q[i] in q;
  }

  /** A disconnect rejects everything as not open and ends disconnected, without a handshake under way. */
  lemma DisconnectDoes(m: Model)
    requires Inv(m)
    ensures var n := Apply(m, DisconnectCalled);
      && RejectsEachOnce(m, n, ConnectionNotOpen)
      && n == m.(pending := [], sent := [], trace := n.trace, status := Disconnected, handshake := false)
  {
    hide Sound, SlotCount, Settlements;
    RejectAllRejects(m.(handshake := false), ConnectionNotOpen);
  }

  /** A reset rejects everything as cancelled and gives all attempts back; the status stays. */
  lemma ResetDoes(m: Model)
    requires Inv(m)
    ensures var n := Apply(m, ResetCalled);
      && RejectsEachOnce(m, n, ProviderReset)
      && n == m.(pending := [], sent := [], trace := n.trace, handshake := false, attempts := 0)
  {
    hide Sound, SlotCount, Settlements;
    RejectAllRejects(m.(handshake := false), ProviderReset);
  }

  lemma ClearDoes(m: Model)
    requires Inv(m)
    ensures var n := Apply(m, QueuesCleared);
      && RejectsEachOnce(m, n, ConnectionNotOpen)
      && n == m.(pending := [], sent := [], trace := n.trace, handshake := false)
  {
    hide Sound, SlotCount, Settlements;
    RejectAllRejects(m.(handshake := false), ConnectionNotOpen);
  }

  /** The handshake deadline rejects everything unless it has been cleared or the connection is up. */
  lemma HandshakeDoes(m: Model, status: Status)
    requires Inv(m)
    ensures var n := Apply(m, HandshakeExpires(status));
      if m.handshake && status != Connected then
        && RejectsEachOnce(m, n, HandshakeTimedOut)
        && n == m.(pending := [], sent := [], trace := n.trace, status := Disconnected, handshake := false)
      else n == m.(handshake := false)
  {
    hide Sound, SlotCount, Settlements;
    if m.handshake && status != Connected {
      RejectAllRejects(m.(handshake := false, status := Disconnected), HandshakeTimedOut);
    }
  }

  // ---------- Deadline and caller abort ----------

  /** The request at place `k` of one queue goes, and is settled with `outcome`. */
  predicate Goes(m: Model, n: Model, inSent: bool, k: nat, outcome: Outcome)
    requires k < |if inSent then m.sent else m.pending|
  {
    if inSent then
      n == m.(sent := m.sent[..k] + m.sent[k + 1..], trace := m.trace + [Settled(m.sent[k], outcome)])
    else
      n == m.(pending := m.pending[..k] + m.pending[k + 1..], trace := m.trace + [Settled(m.pending[k], outcome)])
  }

  /** A deadline rejects its own request as timed out, a caller's abort with the caller's reason, wherever the
      request is; what is no longer in flight is not touched. */
  lemma AbortDoes(m: Model, inSent: bool, k: nat, reason: int)
    requires Inv(m) && k < |if inSent then m.sent else m.pending|
    ensures var r := if inSent then m.sent[k] else m.pending[k];
      && Goes(m, Apply(m, DeadlineFires(r.handle)), inSent, k, Rejected(TimedOut))
      && Goes(m, Apply(m, CallerAborts(r.handle, reason)), inSent, k, Rejected(CallerAborted(reason)))
  {
    hide Sound, SlotCount;
    SoundParts(m.pending, m.sent);
    if inSent {
      HandleIsUnique(m.sent, k);
    } else {
      HandleIsUnique(m.pending, k);
      forall r | r in m.sent ensures r.handle != m.pending[k].handle {
        ApartAcross(m.pending, m.sent, m.pending[k], r);
      }
      NotHeld(m.sent, m.pending[k].handle);
    }
  }

  lemma AbortAfterwards(m: Model, h: nat, reason: int)
    requires forall r | r in m.pending || r in m.sent :: r.handle != h
    ensures Apply(m, DeadlineFires(h)) == m && Apply(m, CallerAborts(h, reason)) == m
  {
    NotHeld(m.sent, h);
    NotHeld(m.pending, h);
  }

  // ---------- Replies ----------

  lemma SentIdsAreGiven(m: Model, k: nat, id: Id)
    requires Inv(m) && k < |m.sent| && id in m.sent[k].ids
    ensures id != Undefined && OwnerIndex(m.sent, id) == k && k < |m.sent|
  {
    SoundParts(m.pending, m.sent);
    OwnerIsUnique(m.sent, k, id);
    assert WellFormed(m.sent[k]);
  }

  /** A reply with an id of a request that has been sent resolves it with that reply if it is proper, and
      rejects it as malformed if it is not; unless it is a subscription's notification. */
  lemma ReplyDoes(m: Model, k: nat, reply: Reply)
    requires Inv(m) && k < |m.sent| && reply.id in m.sent[k].ids && !Subscription(reply)
    ensures Goes(m, Deliver(m, One(reply)), true, k,
      if Proper(reply) then Resolved(One(reply)) else Rejected(InvalidReply(One(reply))))
  {
    hide Inv;
    SentIdsAreGiven(m, k, reply.id);
    assert |"_subscription"| == 13;
  }

  /** A non-empty array of proper replies that all have an id resolves the owner of its first id. */
  lemma BatchReplyDoes(m: Model, k: nat, replies: seq<Reply>)
    requires Inv(m) && k < |m.sent| && replies != [] && replies[0].id in m.sent[k].ids
    requires forall reply <- replies :: Proper(reply) && reply.id != Undefined
    ensures Goes(m, Deliver(m, Many(replies)), true, k, Resolved(Many(replies)))
  {
    hide Inv;
    SentIdsAreGiven(m, k, replies[0].id);
  }

  /** Any other array, a notification, and a reply whose id nobody waits for change nothing. */
  lemma OthersAreDropped(m: Model, response: Response)
    requires Inv(m)
    requires match response
      case One(reply) => Subscription(reply) || forall r <- m.sent :: reply.id !in r.ids
      case Many(replies) =>
        || replies == [] || (exists reply <- replies :: !Proper(reply) || reply.id == Undefined)
        || forall r <- m.sent :: replies[0].id !in r.ids
    ensures Deliver(m, response) == m
  {
    assert |"_subscription"| == 13;
    OwnedIff(m.sent, ReplyId(response));
    forall r | r in m.sent ensures Undefined !in r.ids {
      assert r in m.pending + m.sent;
      var i :| 0 <= i < |m.pending + m.sent| && (m.pending + m.sent)[i] == r;
      assert WellFormed((m.pending + m.sent)[i]);
    }
  }

  lemma DeliverDoes(m: Model, response: Response) returns (k: nat)
    requires Inv(m)
    ensures k < |m.sent| ==> Names(response, m.sent[k]) && Goes(m, Deliver(m, response), true, k, Verdict(response))
    ensures k >= |m.sent| ==> Deliver(m, response) == m && forall r <- m.sent :: !Names(response, r)
  {
    hide Inv, Deliver, Proper, Subscription;
    if r :| r in m.sent && Names(response, r) {
      k :| 0 <= k < |m.sent| && m.sent[k] == r;
      match response
      case One(reply) => ReplyDoes(m, k, reply);
      case Many(replies) => BatchReplyDoes(m, k, replies);
    } else {
      k := |m.sent|;
      OthersAreDropped(m, response);
    }
  }

  /** The place of the first response that names the request, or their number. */
  function FirstNaming(responses: seq<Response>, r: Request): (i: nat)
    ensures i <= |responses| && (i < |responses| ==> Names(responses[i], r))
    ensures forall j | 0 <= j < i :: !Names(responses[j], r)
  {
    if |responses| == 0 || Names(responses[0], r) then 0 else 1 + FirstNaming(responses[1..], r)
  }

  /** One message: of the requests that wait for a reply exactly those that some response names are gone, each
      settled as the first such response says; parked requests stay as they are. */
  lemma {:induction false} MessageDoes(m: Model, responses: seq<Response>, r: Request)
    requires Inv(m) && r in m.sent
    ensures var n, i := DeliverAll(m, responses), FirstNaming(responses, r);
      && n.pending == m.pending && m.trace <= n.trace
      && (r in n.sent <==> i == |responses|)
      && (i < |responses| ==> Settled(r, Verdict(responses[i])) in n.trace[|m.trace|..])
    decreases |responses|
  {
    hide Inv, Names, Deliver, Verdict;
    if responses != [] {
      var d := Deliver(m, responses[0]);
      var k := DeliverDoes(m, responses[0]);
      DeliverPreserves(m, responses[0]);
      if k < |m.sent| && m.sent[k] == r {
        OnlyOnce(m, k);
        GoneStaysGone(d, responses[1..], r);
        assert d.trace[|m.trace|] == Settled(r, Verdict(responses[0]));
        var n := DeliverAll(d, responses[1..]);
        assert n.trace[|m.trace|] == d.trace[|m.trace|];
        assert n.trace[|m.trace|..][0] == Settled(r, Verdict(responses[0]));
      } else {
        if k < |m.sent| { OthersStay(m, k, r, responses[0]); }
        MessageDoes(d, responses[1..], r);
        var n := DeliverAll(d, responses[1..]);
        assert n.trace[|m.trace|..] == n.trace[|m.trace|..|d.trace|] + n.trace[|d.trace|..];
      }
    }
  }

  lemma DeliverPreserves(m: Model, response: Response)
    requires Inv(m)
    ensures Inv(Deliver(m, response))
  {
    hide Inv;
    SettlePreserves(m, ReplyId(response),
      if Acceptable(response) then Resolved(response) else Rejected(InvalidReply(response)));
  }

  lemma OnlyOnce(m: Model, k: nat)
    requires Inv(m) && k < |m.sent|
    ensures m.sent[k] !in m.sent[..k] + m.sent[k + 1..]
  {
    SoundParts(m.pending, m.sent);
    OnlyAt(m.sent, k);
  }

  lemma OthersStay(m: Model, k: nat, r: Request, response: Response)
    requires Inv(m) && k < |m.sent| && r in m.sent && r != m.sent[k] && Names(response, m.sent[k])
    ensures r in m.sent[..k] + m.sent[k + 1..] && !Names(response, r)
  {
    hide Proper, Subscription;
    SoundParts(m.pending, m.sent);
    OnlyAt(m.sent, k);
    var i :| 0 <= i < |m.sent| && m.sent[i] == r;
    assert if i < k then Apart(m.sent[i], m.sent[k]) else Apart(m.sent[k], m.sent[i]);
  }

  lemma {:induction false} GoneStaysGone(m: Model, responses: seq<Response>, r: Request)
    requires Inv(m) && r !in m.sent
    ensures var n := DeliverAll(m, responses); r !in n.sent && n.pending == m.pending && m.trace <= n.trace
    decreases |responses|
  {
    hide Inv, Names, Deliver, Verdict;
    if responses != [] {
      var k := DeliverDoes(m, responses[0]);
      DeliverPreserves(m, responses[0]);
      GoneStaysGone(Deliver(m, responses[0]), responses[1..], r);
    }
  }

  /** A message without responses counts as a lost connection; when the parser has given up on a message, the
      queues are cleared first. */
  lemma EmptyMessageDoes(m: Model, responses: seq<Response>, jitter: real)
    ensures Apply(m, Incoming(true, responses, jitter))
      == Apply(Apply(m, QueuesCleared), Incoming(false, responses, jitter))
    ensures Apply(m, Incoming(false, [], jitter)) == if m.cfg.autoReconnect then Apply(m, ConnectionLost(jitter)) else m
    ensures responses != [] ==> Apply(m, Incoming(false, responses, jitter)) == DeliverAll(m, responses)
  {
    OverflowClears(m, responses, jitter);
    hide DeliverAll, Reconnect, ClearQueues, Message, Submit, Open, Cancel, HandshakeTimeout, RequestModel.Connect;
    NoResponses(m, responses, jitter);
  }

  lemma OverflowClears(m: Model, responses: seq<Response>, jitter: real)
    ensures Message(m, true, responses, jitter) == Message(ClearQueues(m), false, responses, jitter)
  {
    SameConfig(m);
    hide DeliverAll, Reconnect, ClearQueues;
  }

  lemma SameConfig(m: Model)
    ensures ClearQueues(m).cfg == m.cfg
  {}

  lemma NoResponses(m: Model, responses: seq<Response>, jitter: real)
    ensures Message(m, false, [], jitter) == if m.cfg.autoReconnect then Reconnect(m, jitter) else m
    ensures responses != [] ==> Message(m, false, responses, jitter) == DeliverAll(m, responses)
  {
    hide DeliverAll, Reconnect;
  }

  // ---------- Dialling and reconnecting ----------

  /** Opening a socket starts a handshake; a failure ends it, and is thrown unless a reconnect is under way. */
  lemma DialDoes(m: Model, dial: Dial)
    ensures Apply(m, ConnectCalled(dial)) ==
      if dial == Opens then m.(status := Connecting, handshake := true)
      else if !m.reconnecting then m.(status := Disconnected, handshake := false)
      else m.(status := if dial == OpenThrows then m.status else Connecting, handshake := false)
    ensures Connect(m, dial).1 <==> dial != Opens && !m.reconnecting
    ensures m.timers > 0 ==>
      Apply(m, ReconnectTimerFires(dial))
        == Apply(m, ConnectCalled(dial)).(timers := m.timers - 1, reconnecting := false)
    ensures m.timers == 0 ==> Apply(m, ReconnectTimerFires(dial)) == m
  {}

  /** The back-off starts with the delay, doubles from attempt to attempt, and stays below a minute. */
  lemma BackoffDoubles(delay: real, attempt: nat)
    requires attempt >= 1
    ensures Capped(delay, 1) == if delay < 60000.0 then delay else 60000.0
    ensures var twice := 2.0 * Capped(delay, attempt);
      Capped(delay, attempt + 1) == if twice < 60000.0 then twice else 60000.0
  {
    hide Positional.Pow;
    FirstPower();
    var p := Positional.Pow(2, attempt - 1);
    Positional.PowStep(2, attempt);
    Positional.PowPositive(2, attempt - 1);
    TwicePower(delay, p, Positional.Pow(2, attempt));
    if delay >= 60000.0 { AtLeastOnce(delay, p); }
  }

  lemma FirstPower()
    ensures Positional.Pow(2, 0) == 1
  {}

  lemma TwicePower(delay: real, p: nat, q: nat)
    requires q == 2 * p
    ensures delay * q as real == 2.0 * (delay * p as real)
  {
    assert q as real == 2.0 * p as real;
  }

  lemma AtLeastOnce(delay: real, p: nat)
    requires delay >= 60000.0 && p > 0
    ensures delay * p as real >= 60000.0
  {
    assert p as real >= 1.0;
    assert delay * (p as real - 1.0) >= 0.0;
  }

  /** The wait is the capped back-off plus its jitter, rounded down to whole milliseconds and never negative. */
  lemma WaitIsRoundedDown(delay: real, attempt: nat, jitter: real)
    requires attempt >= 1
    ensures var capped, w := Capped(delay, attempt), Wait(delay, attempt, jitter);
      if capped + capped * jitter < 0.0 then w == 0
      else w as real <= capped + capped * jitter < w as real + 1.0
  {
    hide Capped;
  }

  /** A reconnect: nothing if one is under way; with attempts left the sent requests are rejected and the next
      wait is armed; without, everything is rejected and the provider gives up. */
  lemma ReconnectDoes(m: Model, jitter: real)
    requires Inv(m)
    ensures var n := Apply(m, ConnectionLost(jitter));
      if m.reconnecting then n == m
      else if m.attempts < m.cfg.maxAttempts then
        && n == m.(sent := [], reconnecting := true, attempts := m.attempts + 1, timers := m.timers + 1,
          trace := n.trace)
        && n.trace == m.trace + Rejections(m.sent, LostOnReconnect)
                      + [ReconnectArmed(Wait(m.cfg.delay, m.attempts + 1, jitter))]
      else
        && n == m.(pending := [], sent := [], handshake := false, trace := n.trace)
        && n.trace == m.trace + Rejections(m.sent, LostOnReconnect) + Rejections(m.pending, ConnectionNotOpen)
          + [GaveUp]
  {
    hide Wait, Sound, SlotCount;
    RejectionsAre(m.sent, LostOnReconnect);
    RejectionsAre(m.pending, ConnectionNotOpen);
    assert m.pending + [] == m.pending;
  }

  /** One rejection for every request, in queue order. */
  function Rejections(q: seq<Request>, why: Failure): seq<Effect> {
    seq(|q|, i requires 0 <= i < |q| => Settled(q[i], Rejected(why)))
  }

  lemma {:induction false} RejectionsAre(q: seq<Request>, why: Failure)
    ensures Settlements(q, Rejected(why)) == Rejections(q, why)
    decreases |q|
  {
    if q != [] {
      RejectionsAre(q[1..], why);
      assert Rejections(q, why) == [Settled(q[0], Rejected(why))] + Rejections(q[1..], why);
    }
  }

  /** An open leaves the provider connected, with all its attempts back and no handshake under way. */
  lemma OpenedState(m: Model, chainId: Call, accounts: Call, throws: set<nat>)
    requires chainId.before != Disconnected && accounts.before != Disconnected
    ensures var n := Apply(m, Opened(chainId, accounts, throws));
      && n.status == Connected && n.attempts == 0 && !n.handshake
      && n.reconnecting == m.reconnecting && n.timers == m.timers && n.cfg == m.cfg
  {
    hide Submit, DrainEffects, Kept;
    var up := m.(handshake := false, status := Connected, attempts := 0);
    SameConnection(up, chainId);
    SameConnection(Submit(up, chainId).0, accounts);
  }

  lemma SameConnection(m: Model, call: Call)
    requires call.before != Disconnected
    ensures var n := Submit(m, call).0;
      && n.status == m.status && n.attempts == m.attempts && n.handshake == m.handshake
      && n.reconnecting == m.reconnecting && n.timers == m.timers && n.cfg == m.cfg
  {
    hide Refusal, ExtractIds, SlotCount, WriteEffects;
    if call.socketDefined && Refusal(m, call) == None { NotRefused(m, call); }
  }

  /** The deadline of a call is its own timeout if it has one, and the provider's otherwise. */
  lemma LimitIsOwn(cfg: Config, call: Call, ms: real)
    ensures call.timeout == Some(Finite(ms)) ==> Limit(cfg, call) == ms
    ensures call.timeout == None ==> Limit(cfg, call) == cfg.requestTimeout
  {}

  // ---------- A call ----------

  ghost predicate InUse(m: Model, id: Id) { exists r :: (r in m.pending || r in m.sent) && id in r.ids }

  /** The ids a payload is to have. */
  function Wanted(payload: Payload): seq<Id> {
    match payload
    case Single(id) => [id]
    case Batch(ids) => ids
  }

  predicate Falsy(id: Id) { id == Undefined || id == Num(0) || id == Text("") }

  lemma ExtractedIds(payload: Payload)
    ensures var ids := Wanted(payload);
      ExtractIds(payload) ==
        if ids == [] || (exists id <- ids :: Falsy(id)) then Err(IdNotDefined)
        else if !Distinct(ids) then Err(DuplicateIds)
        else Ok(ids)
  {
    forall id ensures Falsy(id) <==> !Truthy(id) {}
    if payload.Batch? { DistinctByCount(payload.entries); }
  }

  lemma UsedIds(m: Model, ids: seq<Id>, k: nat)
    requires k <= |ids| && (k < |ids| ==> InUse(m, ids[k])) && forall i | 0 <= i < k :: !InUse(m, ids[i])
    ensures (exists id <- ids :: Owned(m.sent, id) || Owned(m.pending, id)) <==> k < |ids|
    ensures k < |ids| ==> FirstTaken(m, ids) == k
  {
    forall id | id in ids ensures Owned(m.sent, id) || Owned(m.pending, id) <==> InUse(m, id) {
      OwnedIff(m.sent, id);
      OwnedIff(m.pending, id);
    }
    hide Owned, InUse;
    if k < |ids| { assert ids[k] in ids; }
    assert forall i | 0 <= i < |ids| :: ids[i] in ids;
  }

  /** The checks behind the dial, each in terms of its own input, with the error it gives. The first one that
      applies decides; `k` is the place of the first id in use. */
  lemma RefusalIs(m: Model, call: Call, k: nat)
    requires var ids := Wanted(call.payload);
      k <= |ids| && (k < |ids| ==> InUse(m, ids[k])) && forall i | 0 <= i < k :: !InUse(m, ids[i])
    ensures var ids := Wanted(call.payload);
      Refusal(m, call) ==
        if ids == [] || (exists id <- ids :: Falsy(id)) then Some(IdNotDefined)
        else if !Distinct(ids) then Some(DuplicateIds)
        else if k < |ids| then Some(AlreadySent(ids[k]))
        else if InFlight(m) + |ids| > m.cfg.maxInFlight then Some(QueueFull)
        else if call.signal.Aborted? then Some(AbortedBefore(call.signal.reason))
        else match call.timeout
          case Some(NotFinite) => Some(InvalidTimeout)
          case Some(Finite(ms)) => if ms <= 0.0 then Some(InvalidTimeout) else None
          case None => None
  {
    ExtractedIds(call.payload);
    UsedIds(m, Wanted(call.payload), k);
    hide Owned, InUse, FirstTaken, InFlight, Distinct, Falsy, ExtractIds;
  }

  /** A whole call. Without a socket nothing happens; one that has to dial first and cannot is refused, unless a
      reconnect is under way; one that is refused behind the dial changes nothing else; an admitted one is parked
      while the connection is being made, and otherwise written, and settled on the spot if that throws. */
  lemma CallDoes(m: Model, call: Call)
    ensures var (n, error) := Submit(m, call);
      var d := if call.before == Disconnected then Apply(m, ConnectCalled(call.dial)) else m;
      if !call.socketDefined then n == m && error == Some(ConnectionUndefined)
      else if call.before == Disconnected && call.dial != Opens && !m.reconnecting then
        n == d && error == Some(ConnectFailed)
      else if Refusal(d, call).Some? then n == d && error == Refusal(d, call)
      else
        var r := Request(m.next, call.payload, Wanted(call.payload));
        var load := InFlight(m) + |r.ids|;
        var e := d.(next := m.next + 1, peak := if load > m.peak then load else m.peak);
        && error == None
        && n ==
          if call.after == Connecting then
            e.(pending := m.pending + [r], trace := m.trace + [Admitted(r, true)])
          else if call.throws then
            e.(trace := m.trace + [Admitted(r, false), WriteFailed(r), Settled(r, Rejected(SendFailed))])
          else e.(sent := m.sent + [r], trace := m.trace + [Admitted(r, false), Wrote(r)])
  {
    SubmitCases(m, call);
    var d := if call.before == Disconnected then Apply(m, ConnectCalled(call.dial)) else m;
    DialKeeps(m, call.dial);
    AdmitDoes(d, Request(m.next, call.payload, Wanted(call.payload)), call.after == Connecting, call.throws);
    hide Submit, Apply, Connect, Admit, Refusal, Wanted, InFlight;
  }

  lemma DialKeeps(m: Model, dial: Dial)
    ensures var d := Apply(m, ConnectCalled(dial));
      && d == m.(status := d.status, handshake := d.handshake) && d == Connect(m, dial).0
      && InFlight(d) == InFlight(m)
  {
    hide SlotCount;
  }

  lemma SubmitCases(m: Model, call: Call)
    ensures var d := if call.before == Disconnected then Apply(m, ConnectCalled(call.dial)) else m;
      Submit(m, call) ==
        if !call.socketDefined then (m, Some(ConnectionUndefined))
        else if call.before == Disconnected && call.dial != Opens && !m.reconnecting then (d, Some(ConnectFailed))
        else if Refusal(d, call).Some? then (d, Refusal(d, call))
        else (Admit(d, Request(m.next, call.payload, Wanted(call.payload)), call.after == Connecting, call.throws),
             None)
  {
    ExtractedIds(call.payload);
    DialKeeps(m, call.dial);
    var d := if call.before == Disconnected then Apply(m, ConnectCalled(call.dial)) else m;
    if Refusal(d, call) == None { NotRefusedHasIds(d, call); }
    hide ExtractIds, Admit, Refusal, Wanted, InFlight;
  }

  lemma NotRefusedHasIds(m: Model, call: Call)
    requires Refusal(m, call) == None
    ensures ExtractIds(call.payload).Ok?
  {}

  lemma AdmitDoes(m: Model, r: Request, parked: bool, throws: bool)
    ensures var load := InFlight(m) + |r.ids|;
      var e := m.(next := m.next + 1, peak := if load > m.peak then load else m.peak);
      Admit(m, r, parked, throws) ==
        if parked then e.(pending := m.pending + [r], trace := m.trace + [Admitted(r, true)])
        else if throws then
          e.(trace := m.trace + [Admitted(r, false), WriteFailed(r), Settled(r, Rejected(SendFailed))])
        else e.(sent := m.sent + [r], trace := m.trace + [Admitted(r, false), Wrote(r)])
  {
    hide InFlight;
  }

  /** A new provider is one without requests, attempts or timers that has just started to dial. */
  lemma StartsDialling(cfg: Config, blank: Model)
    requires blank.cfg == cfg && blank.pending == [] && blank.sent == [] && blank.trace == []
    requires blank.next == 0 && blank.peak == 0 && blank.attempts == 0 && blank.timers == 0 && !blank.reconnecting
    ensures Start(cfg) == Apply(blank, ConnectCalled(Opens))
    ensures Start(cfg).status == Connecting && Start(cfg).handshake
  {}
}
