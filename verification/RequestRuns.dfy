/** What every run of the request machine keeps, and what follows for its whole trace. */
module RequestRuns {
  import opened Wrappers
  import opened RequestModel

  // ---------- The structural invariant ----------

  predicate WellFormed(r: Request) {
    ExtractIds(r.payload) == Ok(r.ids)
  }

  predicate Apart(r: Request, s: Request) {
    r.handle != s.handle && forall id <- r.ids :: id !in s.ids
  }

  /** Every request occupies exactly the ids of its payload, and no two share an id or an identity. */
  predicate Sound(q: seq<Request>) {
    && (forall i | 0 <= i < |q| :: WellFormed(q[i]))
    && (forall i, j {:trigger Apart(q[i], q[j])} | 0 <= i < j < |q| :: Apart(q[i], q[j]))
  }

  /** What the queues keep: distinct requests, old identities, and the cap. */
  predicate Stocked(m: Model) {
    && Sound(m.pending + m.sent)
    && (forall r <- m.pending + m.sent :: r.handle < m.next)
    && InFlight(m) <= m.cfg.maxInFlight
    && InFlight(m) <= m.peak
  }

  /** At most one reconnect timer, exactly while reconnecting, and no more attempts than allowed. */
  predicate Scheduled(m: Model) {
    && m.timers == (if m.reconnecting then 1 else 0)
    && (m.attempts == 0 || m.attempts <= m.cfg.maxAttempts)
  }

  predicate Inv(m: Model) { Stocked(m) && Scheduled(m) }

  lemma InitialSound(cfg: Config)
    ensures Inv(Start(cfg)) && Start(cfg).cfg == cfg
  {}

  lemma {:induction false} SlotCountConcat(a: seq<Request>, b: seq<Request>)
    ensures SlotCount(a + b) == SlotCount(a) + SlotCount(b)
    decreases |a|
  {
    if a == [] {
      assert a + b == b;
    } else {
      assert (a + b)[0] == a[0] && (a + b)[1..] == a[1..] + b;
      SlotCountConcat(a[1..], b);
    }
  }

  lemma SlotCountRemove(q: seq<Request>, k: nat)
    requires k < |q|
    ensures SlotCount(RemoveAt(q, k)) == SlotCount(q) - |q[k].ids|
  {
    assert q == q[..k] + ([q[k]] + q[k + 1..]);
    SlotCountConcat(q[..k], [q[k]] + q[k + 1..]);
    SlotCountConcat(q[..k], q[k + 1..]);
    assert ([q[k]] + q[k + 1..])[1..] == q[k + 1..];
  }

  /** Any selection of a sound queue that keeps the order of positions is sound. */
  lemma SoundRemove(a: seq<Request>, b: seq<Request>, k: nat)
    requires Sound(a + b) && k < |a + b|
    ensures k < |a| ==> Sound(RemoveAt(a, k) + b)
    ensures k >= |a| ==> Sound(a + RemoveAt(b, k - |a|))
  {
    var q := a + b;
    if k < |a| {
      assert RemoveAt(a, k) + b == RemoveAt(q, k);
    } else {
      assert a + RemoveAt(b, k - |a|) == RemoveAt(q, k);
    }
    var p := RemoveAt(q, k);
    forall i | 0 <= i < |p| ensures p[i] == q[if i < k then i else i + 1] {}
    forall r | r in p ensures WellFormed(r) { assert r in q; }
  }

  /** Moving parked requests behind the sent ones, in order, keeps soundness. */
  lemma SoundSwap(a: seq<Request>, b: seq<Request>)
    requires Sound(a + b)
    ensures Sound(b + a)
  {
    var q, p := a + b, b + a;
    forall r | r in p ensures WellFormed(r) { assert r in q; }
    forall i, j | 0 <= i < j < |p| ensures Apart(p[i], p[j]) {
      var i', j' := if i < |b| then |a| + i else i - |b|, if j < |b| then |a| + j else j - |b|;
      assert p[i] == q[i'] && p[j] == q[j'];
      if i' < j' { assert Apart(q[i'], q[j']); } else { assert Apart(q[j'], q[i']); }
    }
  }

  lemma {:induction false} KeptIsPart(q: seq<Request>, throws: set<nat>)
    ensures forall r <- Kept(q, throws) :: r in q
    ensures SlotCount(Kept(q, throws)) <= SlotCount(q)
  {
    if q != [] {
      KeptIsPart(q[1..], throws);
      if q[0].handle !in throws {
        assert Kept(q, throws)[1..] == Kept(q[1..], throws);
      }
    }
  }

  lemma {:induction false} SoundKept(sent: seq<Request>, q: seq<Request>, throws: set<nat>)
    requires Sound(sent + q)
    ensures Sound(sent + Kept(q, throws))
    decreases |q|
  {
    if q == [] {
      assert Kept(q, throws) == q;
    } else {
      var front := if q[0].handle in throws then sent else sent + [q[0]];
      SoundShift(sent, q, q[0].handle !in throws);
      SoundKept(front, q[1..], throws);
      assert sent + Kept(q, throws) == front + Kept(q[1..], throws);
    }
  }

  lemma SoundShift(sent: seq<Request>, q: seq<Request>, keep: bool)
    requires Sound(sent + q) && q != []
    ensures Sound((if keep then sent + [q[0]] else sent) + q[1..])
  {
    if keep {
      assert (sent + [q[0]]) + q[1..] == sent + q;
    } else {
      SoundRemove(sent, q, |sent|);
      assert RemoveAt(q, 0) == q[1..];
    }
  }

  lemma SoundInsert(a: seq<Request>, b: seq<Request>, r: Request)
    requires Sound(a + b) && WellFormed(r)
    requires forall s <- a + b :: Apart(s, r)
    ensures Sound(a + (b + [r])) && Sound((a + [r]) + b)
  {
    assert a + (b + [r]) == (a + b) + [r];
    var q := (a + [r]) + b;
    forall i | 0 <= i < |q| ensures WellFormed(q[i]) {
      assert q[i] == if i < |a| then (a + b)[i] else if i == |a| then r else (a + b)[i - 1];
    }
    forall i, j | 0 <= i < j < |q| ensures Apart(q[i], q[j]) {
      if j == |a| {
        assert q[i] == (a + b)[i];
      } else if i == |a| {
        assert q[j] == (a + b)[j - 1];
        assert Apart(q[j], r);
      } else {
        assert q[i] == (a + b)[if i < |a| then i else i - 1];
        assert q[j] == (a + b)[if j < |a| then j else j - 1];
      }
    }
  }

  lemma SettleKeepsStock(m: Model, id: Id, outcome: Outcome)
    requires Stocked(m)
    ensures Stocked(Settle(m, id, outcome))
  {
    if Owned(m.sent, id) {
      RemoveSentKeepsStock(m, OwnerIndex(m.sent, id));
    } else if Owned(m.pending, id) {
      RemovePendingKeepsStock(m, OwnerIndex(m.pending, id));
    }
  }

  lemma SettlePreserves(m: Model, id: Id, outcome: Outcome)
    requires Inv(m)
    ensures Inv(Settle(m, id, outcome))
  {
    SettleKeepsStock(m, id, outcome);
  }

  lemma RemoveSentKeepsStock(m: Model, k: nat)
    requires Stocked(m) && k < |m.sent|
    ensures Stocked(m.(sent := RemoveAt(m.sent, k)))
  {
    SoundRemove(m.pending, m.sent, |m.pending| + k);
    SlotCountRemove(m.sent, k);
  }

  lemma RemovePendingKeepsStock(m: Model, k: nat)
    requires Stocked(m) && k < |m.pending|
    ensures Stocked(m.(pending := RemoveAt(m.pending, k)))
  {
    SoundRemove(m.pending, m.sent, k);
    SlotCountRemove(m.pending, k);
  }

  lemma CancelPreserves(m: Model, handle: nat, why: Failure)
    requires Inv(m)
    ensures Inv(Cancel(m, handle, why))
  {
    if RequestIndex(m.sent, handle) < |m.sent| {
      RemoveSentKeepsStock(m, RequestIndex(m.sent, handle));
    } else if RequestIndex(m.pending, handle) < |m.pending| {
      RemovePendingKeepsStock(m, RequestIndex(m.pending, handle));
    }
  }

  lemma SoundParts(a: seq<Request>, b: seq<Request>)
    requires Sound(a + b)
    ensures Sound(a) && Sound(b)
  {
    forall i, j | 0 <= i < j < |a| ensures Apart(a[i], a[j]) { assert a[i] == (a + b)[i] && a[j] == (a + b)[j]; }
    forall i, j | 0 <= i < j < |b| ensures Apart(b[i], b[j]) {
      assert b[i] == (a + b)[|a| + i] && b[j] == (a + b)[|a| + j];
    }
    forall r | r in a || r in b ensures WellFormed(r) { assert r in a + b; }
  }

  lemma RejectPreserves(m: Model, why: Failure)
    requires Inv(m)
    ensures Inv(RejectAll(m, why)) && Inv(RejectSent(m, why))
  {
    SoundParts(m.pending, m.sent);
    assert m.pending + [] == m.pending;
  }

  lemma DrainPreserves(m: Model, throws: set<nat>)
    requires Inv(m)
    ensures Inv(Drain(m, throws))
  {
    SoundSwap(m.pending, m.sent);
    SoundKept(m.sent, m.pending, throws);
    KeptIsPart(m.pending, throws);
    SlotCountConcat(m.sent, Kept(m.pending, throws));
    var d := Drain(m, throws);
    assert d.pending + d.sent == m.sent + Kept(m.pending, throws);
    forall r | r in d.pending + d.sent ensures r.handle < d.next {
      assert r in m.pending + m.sent;
    }
  }

  lemma OwnedIff(q: seq<Request>, id: Id)
    ensures Owned(q, id) <==> exists r <- q :: id in r.ids
  {
    var k := OwnerIndex(q, id);
    if k < |q| { assert q[k] in q; }
  }

  /** A call that is not refused brings ids nobody holds, within the cap. */
  lemma NotRefused(m: Model, call: Call)
    requires Refusal(m, call) == None
    ensures ExtractIds(call.payload).Ok?
    ensures var ids := ExtractIds(call.payload).value;
            && (forall id <- ids, r <- m.pending + m.sent :: id !in r.ids)
            && InFlight(m) + |ids| <= m.cfg.maxInFlight
  {
    var ids := ExtractIds(call.payload).value;
    forall id, r | id in ids && r in m.pending + m.sent ensures id !in r.ids {
      OwnedIff(m.sent, id);
      OwnedIff(m.pending, id);
    }
  }

  lemma AdmitPreserves(m: Model, r: Request, parked: bool, throws: bool)
    requires Inv(m) && WellFormed(r) && r.handle == m.next
    requires forall id <- r.ids, s <- m.pending + m.sent :: id !in s.ids
    requires InFlight(m) + |r.ids| <= m.cfg.maxInFlight
    ensures Inv(Admit(m, r, parked, throws))
  {
    SoundInsert(m.pending, m.sent, r);
    SlotCountConcat(m.pending, [r]);
    SlotCountConcat(m.sent, [r]);
    assert [r][1..] == [];
  }

  lemma ConnectPreserves(m: Model, dial: Dial)
    requires Inv(m)
    ensures Inv(Connect(m, dial).0)
    ensures var c := Connect(m, dial).0; c == m.(status := c.status, handshake := c.handshake)
  {}

  /** A call either changes nothing but what dialling changes, or admits one new request. */
  lemma SubmitShape(m: Model, call: Call) returns (dialled: Model, r: Request)
    ensures dialled == m.(status := dialled.status, handshake := dialled.handshake)
    ensures Submit(m, call).1.Some? ==> Submit(m, call).0 == dialled
    ensures Submit(m, call).1 == None ==>
      && Submit(m, call).0 == Admit(dialled, r, call.after == Connecting, call.throws)
      && Refusal(dialled, call) == None
      && r.handle == m.next && r.payload == call.payload && WellFormed(r)
  {
    dialled := if call.socketDefined && call.before == Disconnected then Connect(m, call.dial).0 else m;
    r := Request(m.next, call.payload, []);
    if Submit(m, call).1 == None {
      NotRefused(dialled, call);
      r := r.(ids := ExtractIds(call.payload).value);
    }
  }

  lemma SubmitPreserves(m: Model, call: Call)
    requires Inv(m)
    ensures Inv(Submit(m, call).0)
  {
    var dialled, r := SubmitShape(m, call);
    if Submit(m, call).1 == None {
      NotRefused(dialled, call);
      AdmitPreserves(dialled, r, call.after == Connecting, call.throws);
    }
  }

  lemma {:induction false} DeliverAllPreserves(m: Model, responses: seq<Response>)
    requires Inv(m)
    ensures Inv(DeliverAll(m, responses))
    decreases |responses|
  {
    if responses != [] {
      forall outcome ensures Inv(Settle(m, ReplyId(responses[0]), outcome)) {
        SettlePreserves(m, ReplyId(responses[0]), outcome);
      }
      DeliverAllPreserves(Deliver(m, responses[0]), responses[1..]);
    }
  }

  lemma ReconnectPreserves(m: Model, jitter: real)
    requires Inv(m)
    ensures Inv(Reconnect(m, jitter))
  {
    RejectPreserves(m, LostOnReconnect);
    RejectPreserves(RejectSent(m, LostOnReconnect).(handshake := false), ConnectionNotOpen);
  }

  lemma OpenPreserves(m: Model, chainId: Call, accounts: Call, throws: set<nat>)
    requires Inv(m)
    ensures Inv(Open(m, chainId, accounts, throws))
  {
    var up := m.(handshake := false, status := Connected, attempts := 0);
    assert Inv(up);
    SubmitPreserves(up, chainId);
    SubmitPreserves(Submit(up, chainId).0, accounts);
    DrainPreserves(Submit(Submit(up, chainId).0, accounts).0, throws);
  }

  lemma ClearPreserves(m: Model)
    requires Inv(m)
    ensures Inv(ClearQueues(m)) && Inv(Disconnect(m)) && Inv(Reset(m))
  {
    var quiet := m.(handshake := false);
    assert Inv(quiet);
    RejectPreserves(quiet, ConnectionNotOpen);
    RejectPreserves(quiet, ProviderReset);
  }

  lemma MessagePreserves(m: Model, overflow: bool, responses: seq<Response>, jitter: real)
    requires Inv(m)
    ensures Inv(Message(m, overflow, responses, jitter))
  {
    ClearPreserves(m);
    var parsed := if overflow then ClearQueues(m) else m;
    DeliverAllPreserves(parsed, responses);
    ReconnectPreserves(parsed, jitter);
  }

  lemma HandshakePreserves(m: Model, status: Status)
    requires Inv(m)
    ensures Inv(HandshakeTimeout(m, status))
  {
    var late := m.(handshake := false, status := Disconnected);
    assert Inv(late);
    RejectPreserves(late, HandshakeTimedOut);
  }

  lemma TimerPreserves(m: Model, dial: Dial)
    requires Inv(m)
    ensures Inv(ReconnectTimer(m, dial))
  {
    if m.timers > 0 {
      ConnectPreserves(m, dial);
    }
  }

  lemma StepPreserves(m: Model, step: Step)
    requires Inv(m)
    ensures Inv(Apply(m, step))
  {
    hide Inv;
    match step {
      case Requested(call) => SubmitPreserves(m, call);
      case Opened(chainId, accounts, throws) => OpenPreserves(m, chainId, accounts, throws);
      case Incoming(overflow, responses, jitter) => MessagePreserves(m, overflow, responses, jitter);
      case DeadlineFires(h) => CancelPreserves(m, h, TimedOut);
      case CallerAborts(h, reason) => CancelPreserves(m, h, CallerAborted(reason));
      case HandshakeExpires(status) => HandshakePreserves(m, status);
      case ConnectionLost(jitter) => ReconnectPreserves(m, jitter);
      case ReconnectTimerFires(dial) => TimerPreserves(m, dial);
      case ConnectCalled(dial) => ConnectPreserves(m, dial);
      case ResetCalled => ClearPreserves(m);
      case DisconnectCalled => ClearPreserves(m);
      case QueuesCleared => ClearPreserves(m);
    }
  }

  /** Every state of every run is sound: in particular the cap holds and pending and sent ids are disjoint. */
  lemma {:induction false} RunKeepsInvariant(m: Model, steps: seq<Step>)
    requires Inv(m)
    ensures Inv(Run(m, steps))
    decreases |steps|
  {
    if steps != [] {
      StepPreserves(m, steps[0]);
      RunKeepsInvariant(Apply(m, steps[0]), steps[1..]);
    }
  }
}
