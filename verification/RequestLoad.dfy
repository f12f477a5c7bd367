/** How many ids are in flight over the history of a run, measured on the effects alone. */
module RequestLoad {
  import opened Wrappers
  import opened RequestModel
  import opened RequestRuns

  /** The number of ids in flight after a trace, and the largest it ever was. */
  datatype Gauge = Gauge(load: int, peak: int)

  function Read(g: Gauge, e: Effect): Gauge {
    var load := match e
                case Admitted(r, _) => g.load + |r.ids|
                case Settled(r, _) => g.load - |r.ids|
                case _ => g.load;
    Gauge(load, if load > g.peak then load else g.peak)
  }

  function ReadAll(g: Gauge, trace: seq<Effect>): Gauge
    decreases |trace|
  {
    if |trace| == 0 then g else ReadAll(Read(g, trace[0]), trace[1..])
  }

  lemma {:induction false} ReadConcat(g: Gauge, a: seq<Effect>, b: seq<Effect>)
    ensures ReadAll(g, a + b) == ReadAll(ReadAll(g, a), b)
    decreases |a|
  {
    if a == [] {
      assert a + b == b;
    } else {
      assert (a + b)[0] == a[0] && (a + b)[1..] == a[1..] + b;
      ReadConcat(Read(g, a[0]), a[1..], b);
    }
  }

  predicate Metered(m: Model) {
    ReadAll(Gauge(0, 0), m.trace) == Gauge(InFlight(m), m.peak) && InFlight(m) <= m.peak
  }

  lemma {:induction false} ReadSettlements(g: Gauge, q: seq<Request>, outcome: Outcome)
    requires g.load <= g.peak
    ensures ReadAll(g, Settlements(q, outcome)) == Gauge(g.load - SlotCount(q), g.peak)
    decreases |q|
  {
    if q != [] {
      assert Settlements(q, outcome)[1..] == Settlements(q[1..], outcome);
      ReadSettlements(Read(g, Settlements(q, outcome)[0]), q[1..], outcome);
    }
  }

  lemma {:induction false} ReadDrain(g: Gauge, q: seq<Request>, throws: set<nat>)
    requires g.load <= g.peak
    ensures ReadAll(g, DrainEffects(q, throws)) == Gauge(g.load - SlotCount(q) + SlotCount(Kept(q, throws)), g.peak)
    decreases |q|
  {
    if q != [] {
      var r := q[0];
      var first := [Promoted(r)] + WriteEffects(r, r.handle in throws);
      assert DrainEffects(q, throws) == first + DrainEffects(q[1..], throws);
      ReadConcat(g, first, DrainEffects(q[1..], throws));
      ReadConcat(g, [Promoted(r)], WriteEffects(r, r.handle in throws));
      ReadWrite(g, r, r.handle in throws);
      if r.handle !in throws {
        assert Kept(q, throws)[1..] == Kept(q[1..], throws);
      }
      ReadDrain(ReadAll(g, first), q[1..], throws);
    }
  }

  lemma ReadWrite(g: Gauge, r: Request, throws: bool)
    requires g.load <= g.peak
    ensures ReadAll(g, WriteEffects(r, throws)) == Gauge(if throws then g.load - |r.ids| else g.load, g.peak)
  {
    if throws { ReadConcat(g, [WriteFailed(r)], [Settled(r, Rejected(SendFailed))]); }
  }

  lemma RejectMetered(m: Model, why: Failure)
    requires Metered(m)
    ensures Metered(RejectAll(m, why)) && Metered(RejectSent(m, why))
  {
    var g := ReadAll(Gauge(0, 0), m.trace);
    ReadConcat(Gauge(0, 0), m.trace, Settlements(m.pending + m.sent, Rejected(why)));
    ReadConcat(Gauge(0, 0), m.trace, Settlements(m.sent, Rejected(why)));
    ReadSettlements(g, m.pending + m.sent, Rejected(why));
    ReadSettlements(g, m.sent, Rejected(why));
    SlotCountConcat(m.pending, m.sent);
  }

  lemma RemoveMetered(m: Model, k: nat, outcome: Outcome)
    requires Metered(m)
    ensures k < |m.sent| ==> Metered(m.(sent := RemoveAt(m.sent, k), trace := m.trace + [Settled(m.sent[k], outcome)]))
    ensures k < |m.pending|
      ==> Metered(m.(pending := RemoveAt(m.pending, k), trace := m.trace + [Settled(m.pending[k], outcome)]))
  {
    if k < |m.sent| {
      SlotCountRemove(m.sent, k);
      ReadConcat(Gauge(0, 0), m.trace, [Settled(m.sent[k], outcome)]);
    }
    if k < |m.pending| {
      SlotCountRemove(m.pending, k);
      ReadConcat(Gauge(0, 0), m.trace, [Settled(m.pending[k], outcome)]);
    }
  }

  lemma SettleMetered(m: Model, id: Id, outcome: Outcome)
    requires Metered(m)
    ensures Metered(Settle(m, id, outcome))
  {
    RemoveMetered(m, OwnerIndex(m.sent, id), outcome);
    RemoveMetered(m, OwnerIndex(m.pending, id), outcome);
  }

  lemma CancelMetered(m: Model, handle: nat, why: Failure)
    requires Metered(m)
    ensures Metered(Cancel(m, handle, why))
  {
    RemoveMetered(m, RequestIndex(m.sent, handle), Rejected(why));
    RemoveMetered(m, RequestIndex(m.pending, handle), Rejected(why));
  }

  lemma DrainMetered(m: Model, throws: set<nat>)
    requires Metered(m)
    ensures Metered(Drain(m, throws))
  {
    ReadConcat(Gauge(0, 0), m.trace, DrainEffects(m.pending, throws));
    ReadDrain(ReadAll(Gauge(0, 0), m.trace), m.pending, throws);
    SlotCountConcat(m.sent, Kept(m.pending, throws));
    KeptIsPart(m.pending, throws);
  }

  lemma AdmitMetered(m: Model, r: Request, parked: bool, throws: bool)
    requires Metered(m)
    ensures Metered(Admit(m, r, parked, throws))
  {
    var written := if parked then [] else WriteEffects(r, throws);
    var g := ReadAll(Gauge(0, 0), m.trace);
    ReadConcat(Gauge(0, 0), m.trace, [Admitted(r, parked)] + written);
    ReadConcat(g, [Admitted(r, parked)], written);
    ReadWrite(Read(g, Admitted(r, parked)), r, throws);
    SlotCountConcat(m.pending, [r]);
    SlotCountConcat(m.sent, [r]);
    assert [r][1..] == [];
  }

  lemma SubmitMetered(m: Model, call: Call)
    requires Metered(m)
    ensures Metered(Submit(m, call).0)
  {
    var dialled, r := SubmitShape(m, call);
    if Submit(m, call).1 == None {
      AdmitMetered(dialled, r, call.after == Connecting, call.throws);
    }
  }

  lemma {:induction false} DeliverAllMetered(m: Model, responses: seq<Response>)
    requires Metered(m)
    ensures Metered(DeliverAll(m, responses))
    decreases |responses|
  {
    if responses != [] {
      forall outcome ensures Metered(Settle(m, ReplyId(responses[0]), outcome)) {
        SettleMetered(m, ReplyId(responses[0]), outcome);
      }
      DeliverAllMetered(Deliver(m, responses[0]), responses[1..]);
    }
  }

  lemma ClearMetered(m: Model)
    requires Metered(m)
    ensures Metered(ClearQueues(m)) && Metered(Disconnect(m)) && Metered(Reset(m))
  {
    var quiet := m.(handshake := false);
    assert Metered(quiet);
    RejectMetered(quiet, ConnectionNotOpen);
    RejectMetered(quiet, ProviderReset);
  }

  lemma NoteMetered(m: Model, e: Effect)
    requires Metered(m) && (e.ReconnectArmed? || e.GaveUp?)
    ensures Metered(m.(trace := m.trace + [e]))
  {
    ReadConcat(Gauge(0, 0), m.trace, [e]);
  }

  lemma ReconnectMetered(m: Model, jitter: real)
    requires Metered(m)
    ensures Metered(Reconnect(m, jitter))
  {
    hide ReadAll, Settlements, SlotCount, Wait;
    RejectMetered(m, LostOnReconnect);
    var lost := RejectSent(m, LostOnReconnect);
    if m.reconnecting {
    } else if m.attempts < m.cfg.maxAttempts {
      NoteMetered(lost, ReconnectArmed(Wait(m.cfg.delay, m.attempts + 1, jitter)));
    } else {
      ClearMetered(lost);
      NoteMetered(ClearQueues(lost), GaveUp);
    }
  }

  lemma HandshakeMetered(m: Model, status: Status)
    requires Metered(m)
    ensures Metered(HandshakeTimeout(m, status))
  {
    hide ReadAll, Settlements, SlotCount;
    var late := m.(handshake := false, status := Disconnected);
    assert Metered(late);
    RejectMetered(late, HandshakeTimedOut);
  }

  lemma OpenMetered(m: Model, chainId: Call, accounts: Call, throws: set<nat>)
    requires Metered(m)
    ensures Metered(Open(m, chainId, accounts, throws))
  {
    var up := m.(handshake := false, status := Connected, attempts := 0);
    assert Metered(up);
    SubmitMetered(up, chainId);
    SubmitMetered(Submit(up, chainId).0, accounts);
    DrainMetered(Submit(Submit(up, chainId).0, accounts).0, throws);
  }

  lemma MessageMetered(m: Model, overflow: bool, responses: seq<Response>, jitter: real)
    requires Metered(m)
    ensures Metered(Message(m, overflow, responses, jitter))
  {
    ClearMetered(m);
    var parsed := if overflow then ClearQueues(m) else m;
    DeliverAllMetered(parsed, responses);
    ReconnectMetered(parsed, jitter);
  }

  lemma DialMetered(m: Model, dial: Dial)
    requires Metered(m)
    ensures Metered(Connect(m, dial).0) && Metered(ReconnectTimer(m, dial))
  {
    hide Metered;
    SameMetered(m, Connect(m, dial).0);
    SameMetered(m, ReconnectTimer(m, dial));
  }

  /** Only the queues, the trace and the mark decide. */
  lemma SameMetered(m: Model, n: Model)
    requires n.pending == m.pending && n.sent == m.sent && n.peak == m.peak && n.trace == m.trace && Metered(m)
    ensures Metered(n)
  {
    hide ReadAll, SlotCount;
  }

  lemma StepMetered(m: Model, step: Step)
    requires Metered(m)
    ensures Metered(Apply(m, step))
  {
    hide Metered;
    match step {
      case Requested(call) => SubmitMetered(m, call);
      case Opened(chainId, accounts, throws) => OpenMetered(m, chainId, accounts, throws);
      case Incoming(overflow, responses, jitter) => MessageMetered(m, overflow, responses, jitter);
      case DeadlineFires(handle) => CancelMetered(m, handle, TimedOut);
      case CallerAborts(handle, reason) => CancelMetered(m, handle, CallerAborted(reason));
      case HandshakeExpires(status) => HandshakeMetered(m, status);
      case ConnectionLost(jitter) => ReconnectMetered(m, jitter);
      case ReconnectTimerFires(dial) => DialMetered(m, dial);
      case ConnectCalled(dial) => DialMetered(m, dial);
      case ResetCalled => ClearMetered(m);
      case DisconnectCalled => ClearMetered(m);
      case QueuesCleared => ClearMetered(m);
    }
  }

  /** Over every run: what the effects add up to is what the queues hold, and `peakInFlight` is the
      largest load at any point of the history, even inside a step. */
  lemma PeakIsTrueMaximum(cfg: Config, steps: seq<Step>)
    ensures Metered(Run(Start(cfg), steps))
  {
    assert Metered(Start(cfg));
    RunMetered(Start(cfg), steps);
  }

  lemma {:induction false} RunMetered(m: Model, steps: seq<Step>)
    requires Metered(m)
    ensures Metered(Run(m, steps))
    decreases |steps|
  {
    if steps != [] {
      StepMetered(m, steps[0]);
      RunMetered(Apply(m, steps[0]), steps[1..]);
    }
  }

  /** The gauge's peak is a maximum over prefixes: an upper bound that is reached. */
  lemma {:induction false} PeakOverPrefixes(trace: seq<Effect>)
    ensures forall k | 0 <= k <= |trace| :: ReadAll(Gauge(0, 0), trace[..k]).load <= ReadAll(Gauge(0, 0), trace).peak
    ensures exists k | 0 <= k <= |trace| :: ReadAll(Gauge(0, 0), trace[..k]).load == ReadAll(Gauge(0, 0), trace).peak
  {
    if trace == [] {
      assert trace[..0] == [];
      assert ReadAll(Gauge(0, 0), trace[..0]).load == 0;
    } else {
      var front, last := trace[..|trace| - 1], trace[|trace| - 1];
      PeakOverPrefixes(front);
      assert trace == front + [last];
      ReadConcat(Gauge(0, 0), front, [last]);
      var g, f := ReadAll(Gauge(0, 0), trace), ReadAll(Gauge(0, 0), front);
      assert g == Read(f, last);
      forall k | 0 <= k <= |trace| ensures ReadAll(Gauge(0, 0), trace[..k]).load <= g.peak {
        if k < |trace| { assert trace[..k] == front[..k]; } else { assert trace[..k] == trace; }
      }
      if g.peak == f.peak {
        var k :| 0 <= k <= |front| && ReadAll(Gauge(0, 0), front[..k]).load == f.peak;
        assert trace[..k] == front[..k];
      } else {
        assert trace[..|trace|] == trace;
      }
    }
  }
}
