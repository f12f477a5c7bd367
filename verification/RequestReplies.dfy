/** Which reply settles which request: over every run, only one that names an id of the request, and only after
    the request has been written. */
module RequestReplies {
  import opened RequestModel
  import opened RequestRuns
  import opened RequestTraces

  /** The text `method` of a notification ends with `_subscription`. */
  predicate Subscription(reply: Reply) {
    && reply.version2 && reply.params == Present && reply.methodName.Some?
    && |reply.methodName.value| >= 13
    && reply.methodName.value[|reply.methodName.value| - 13..] == "_subscription"
  }

  /** A version-2 object with a result and no error, or with an error and no result, where `null` counts as
      a result, as an error, and as none of the other kind. */
  predicate Proper(reply: Reply) {
    && reply.version2
    && (|| ((reply.result == Null || reply.result == Present) && (reply.error == Missing || reply.error == Null))
        || ((reply.error == Null || reply.error == Present) && (reply.result == Missing || reply.result == Null)))
  }

  /** A response names a sent request by an id of it, an array by its first one. */
  predicate Names(response: Response, r: Request) {
    match response
    case One(reply) => !Subscription(reply) && reply.id in r.ids
    case Many(replies) =>
      replies != [] && (forall reply <- replies :: Proper(reply) && reply.id != Undefined) && replies[0].id in r.ids
  }

  /** What becomes of the request that a response names. */
  function Verdict(response: Response): Outcome {
    if response.Many? || Proper(response.reply) then Resolved(response) else Rejected(InvalidReply(response))
  }

  /** A response that settles a request names it, and settles it as it should. */
  predicate Answers(e: Effect) {
    e.Settled? ==>
      match e.outcome
      case Resolved(response) => Names(response, e.request) && Verdict(response) == e.outcome
      case Rejected(why) => why.InvalidReply? ==> Names(why.reply, e.request) && Verdict(why.reply) == e.outcome
  }

  predicate Answered(trace: seq<Effect>) { forall i | 0 <= i < |trace| :: Answers(trace[i]) }

  lemma AnsweredConcat(a: seq<Effect>, b: seq<Effect>)
    requires Answered(a) && Answered(b)
    ensures Answered(a + b)
  {}

  lemma {:induction false} SettlementsAnswer(q: seq<Request>, why: Failure)
    requires !why.InvalidReply?
    ensures Answered(Settlements(q, Rejected(why)))
    decreases |q|
  {
    if q != [] {
      SettlementsAnswer(q[1..], why);
      AnsweredConcat([Settled(q[0], Rejected(why))], Settlements(q[1..], Rejected(why)));
    }
  }

  lemma RejectAnswers(m: Model, why: Failure)
    requires Answered(m.trace) && !why.InvalidReply?
    ensures Answered(RejectAll(m, why).trace) && Answered(RejectSent(m, why).trace)
  {
    SettlementsAnswer(m.pending + m.sent, why);
    SettlementsAnswer(m.sent, why);
    AnsweredConcat(m.trace, Settlements(m.pending + m.sent, Rejected(why)));
    AnsweredConcat(m.trace, Settlements(m.sent, Rejected(why)));
  }

  lemma {:induction false} DrainAnswers(q: seq<Request>, throws: set<nat>)
    ensures Answered(DrainEffects(q, throws))
    decreases |q|
  {
    if q != [] {
      DrainAnswers(q[1..], throws);
      AnsweredConcat([Promoted(q[0])] + WriteEffects(q[0], q[0].handle in throws), DrainEffects(q[1..], throws));
    }
  }

  lemma SubmitAnswers(m: Model, call: Call)
    requires Answered(m.trace)
    ensures Answered(Submit(m, call).0.trace)
  {
    hide Refusal;
    var dialled, r := SubmitShape(m, call);
    var parked := call.after == Connecting;
    AnsweredConcat(m.trace, [Admitted(r, parked)] + (if parked then [] else WriteEffects(r, call.throws)));
  }

  lemma OpenAnswers(m: Model, chainId: Call, accounts: Call, throws: set<nat>)
    requires Answered(m.trace)
    ensures Answered(Open(m, chainId, accounts, throws).trace)
  {
    hide Submit, Answered;
    var up := m.(handshake := false, status := Connected, attempts := 0);
    SubmitAnswers(up, chainId);
    SubmitAnswers(Submit(up, chainId).0, accounts);
    var two := Submit(Submit(up, chainId).0, accounts).0;
    DrainAnswers(two.pending, throws);
    AnsweredConcat(two.trace, DrainEffects(two.pending, throws));
  }

  lemma GivenIds(m: Model, k: nat)
    requires Inv(m) && k < |m.sent|
    ensures Undefined !in m.sent[k].ids
  {
    SoundParts(m.pending, m.sent);
    assert WellFormed(m.sent[k]);
  }

  /** What a response says to the owner of the id it is looked up by. */
  lemma OwnerIsNamed(response: Response, r: Request)
    requires !IsSubscriptionNotice(response) && ReplyId(response) in r.ids && Undefined !in r.ids
    ensures Names(response, r)
    ensures Verdict(response) == if Acceptable(response) then Resolved(response) else Rejected(InvalidReply(response))
  {
    assert |"_subscription"| == 13;
  }

  /** One reply settles the request that owns the id it names. */
  lemma DeliverAnswers(m: Model, response: Response)
    requires Answered(m.trace) && Inv(m)
    ensures Answered(Deliver(m, response).trace) && Inv(Deliver(m, response))
  {
    hide Acceptable, ReplyId, Inv, Names, Verdict, IsSubscriptionNotice;
    var id := ReplyId(response);
    SettlePreserves(m, id, if Acceptable(response) then Resolved(response) else Rejected(InvalidReply(response)));
    if Owned(m.sent, id) && !IsSubscriptionNotice(response) {
      GivenIds(m, OwnerIndex(m.sent, id));
      OwnerIsNamed(response, m.sent[OwnerIndex(m.sent, id)]);
    }
  }

  lemma {:induction false} DeliverAllAnswers(m: Model, responses: seq<Response>)
    requires Answered(m.trace) && Inv(m)
    ensures Answered(DeliverAll(m, responses).trace)
    decreases |responses|
  {
    hide Answered, Deliver, Inv;
    if responses != [] {
      DeliverAnswers(m, responses[0]);
      DeliverAllAnswers(Deliver(m, responses[0]), responses[1..]);
    }
  }

  lemma CancelAnswers(m: Model, handle: nat, why: Failure)
    requires Answered(m.trace) && !why.InvalidReply?
    ensures Answered(Cancel(m, handle, why).trace)
  {}

  lemma ReconnectAnswers(m: Model, jitter: real)
    requires Answered(m.trace)
    ensures Answered(Reconnect(m, jitter).trace)
  {
    hide Wait;
    RejectAnswers(m, LostOnReconnect);
    RejectAnswers(RejectSent(m, LostOnReconnect).(handshake := false), ConnectionNotOpen);
  }

  lemma MessageAnswers(m: Model, overflow: bool, responses: seq<Response>, jitter: real)
    requires Answered(m.trace) && Inv(m)
    ensures Answered(Message(m, overflow, responses, jitter).trace)
  {
    ClearPreserves(m);
    hide Answered, DeliverAll, Reconnect, RejectAll, Inv;
    RejectAnswers(m.(handshake := false), ConnectionNotOpen);
    var parsed := if overflow then ClearQueues(m) else m;
    DeliverAllAnswers(parsed, responses);
    ReconnectAnswers(parsed, jitter);
  }

  lemma StepAnswers(m: Model, step: Step)
    requires Answered(m.trace) && Inv(m)
    ensures Answered(Apply(m, step).trace)
  {
    hide Answered, Submit, Open, Message, Reconnect, RequestModel.Cancel, RejectAll, Inv;
    match step {
      case Requested(call) => SubmitAnswers(m, call);
      case Opened(chainId, accounts, throws) => OpenAnswers(m, chainId, accounts, throws);
      case Incoming(overflow, responses, jitter) => MessageAnswers(m, overflow, responses, jitter);
      case DeadlineFires(handle) => CancelAnswers(m, handle, TimedOut);
      case CallerAborts(handle, reason) => CancelAnswers(m, handle, CallerAborted(reason));
      case HandshakeExpires(_) => RejectAnswers(m.(handshake := false, status := Disconnected), HandshakeTimedOut);
      case ConnectionLost(jitter) => ReconnectAnswers(m, jitter);
      case ReconnectTimerFires(_) =>
      case ConnectCalled(_) =>
      case ResetCalled => RejectAnswers(m.(handshake := false), ProviderReset);
      case DisconnectCalled => RejectAnswers(m.(handshake := false), ConnectionNotOpen);
      case QueuesCleared => RejectAnswers(m.(handshake := false), ConnectionNotOpen);
    }
  }

  lemma {:induction false} RunAnswers(m: Model, steps: seq<Step>)
    requires Answered(m.trace) && Inv(m)
    ensures Answered(Run(m, steps).trace)
    decreases |steps|
  {
    hide Answered, Apply, Inv;
    if steps != [] {
      StepAnswers(m, steps[0]);
      StepPreserves(m, steps[0]);
      RunAnswers(Apply(m, steps[0]), steps[1..]);
    }
  }

  lemma {:induction false} BadStays(h: nat, trace: seq<Effect>)
    ensures Life(Bad, h, trace) == Bad
    decreases |trace|
  {
    if trace != [] { BadStays(h, trace[1..]); }
  }

  /** A request that is known to be written has been written. */
  lemma {:induction false} WrittenWasWrote(p: Phase, h: nat, trace: seq<Effect>, r: Request)
    requires Life(p, h, trace) == Written(r) && p != Written(r)
    ensures exists i | 0 <= i < |trace| :: trace[i] == Wrote(r)
    decreases |trace|
  {
    if trace != [] {
      var q := Advance(p, h, trace[0]);
      if q == Written(r) {
        assert trace[0] == Wrote(r);
      } else {
        WrittenWasWrote(q, h, trace[1..], r);
        var i :| 0 <= i < |trace[1..]| && trace[1..][i] == Wrote(r);
        assert trace[i + 1] == Wrote(r);
      }
    }
  }

  /** Over every run: whatever resolves a request or rejects it as malformed names it and says so, and a request
      that is resolved has been written before. */
  lemma ResolvedByItsOwnReply(cfg: Config, steps: seq<Step>, k: nat)
    requires k < |Run(Start(cfg), steps).trace|
    ensures var trace := Run(Start(cfg), steps).trace;
      && Answers(trace[k])
      && (trace[k].Settled? && trace[k].outcome.Resolved?
        ==> exists i | 0 <= i < k :: trace[i] == Wrote(trace[k].request))
  {
    hide Answers, Life, Inv;
    var m := Run(Start(cfg), steps);
    var t := m.trace;
    InitialSound(cfg);
    RunAnswers(Start(cfg), steps);
    if t[k].Settled? && t[k].outcome.Resolved? {
      var r := t[k].request;
      LifeIsLegal(cfg, steps, r.handle);
      assert t == t[..k] + t[k..] && t[k..][0] == t[k];
      LifeConcat(Unknown, r.handle, t[..k], t[k..]);
      var p := Life(Unknown, r.handle, t[..k]);
      LifeStep(p, r.handle, t[k..]);
      WrittenWasWrote(Unknown, r.handle, t[..k], r);
      var i :| 0 <= i < k && t[..k][i] == Wrote(r);
      assert t[i] == Wrote(r);
    }
  }

  lemma LifeStep(p: Phase, h: nat, trace: seq<Effect>)
    requires trace != [] && trace[0].Settled? && trace[0].outcome.Resolved? && trace[0].request.handle == h
    requires Life(p, h, trace) != Bad
    ensures p == Written(trace[0].request)
  {
    BadStays(h, trace[1..]);
  }

  lemma LifeIsLegal(cfg: Config, steps: seq<Step>, h: nat)
    ensures Life(Unknown, h, Run(Start(cfg), steps).trace) != Bad
  {
    hide Life;
    InitialSound(cfg);
    assert Life(Unknown, h, []) == Unknown by { NoLife(h); }
    RunKeepsInvariant(Start(cfg), steps);
    RunFollows(Start(cfg), steps, h);
  }

  lemma NoLife(h: nat)
    ensures Life(Unknown, h, []) == Unknown
  {}
}
