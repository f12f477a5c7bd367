/** What one connect does to every request: to those that wait for it, to those already sent, and to the two
    that the base class issues on its own. */
module RequestConnects {
  import opened Wrappers
  import opened RequestModel
  import opened RequestRuns
  import opened RequestTraces
  import opened RequestLaws

  function HandleOf(e: Effect): Option<nat> {
    if e.ReconnectArmed? || e.GaveUp? then None else Some(e.request.handle)
  }

  /** What a trace says about one request, in order. */
  function Concerning(trace: seq<Effect>, h: nat): seq<Effect> {
    if |trace| == 0 then [] else (if HandleOf(trace[0]) == Some(h) then [trace[0]] else []) + Concerning(trace[1..], h)
  }

  lemma {:induction false} ConcerningConcat(a: seq<Effect>, b: seq<Effect>, h: nat)
    ensures Concerning(a + b, h) == Concerning(a, h) + Concerning(b, h)
    decreases |a|
  {
    if a == [] {
      assert a + b == b;
    } else {
      assert (a + b)[0] == a[0] && (a + b)[1..] == a[1..] + b;
      ConcerningConcat(a[1..], b, h);
    }
  }

  // ---------- One call ----------

  /** The request a call turns into, if it is admitted. */
  function Accepted(m: Model, call: Call): seq<Request> {
    if Submit(m, call).1 == None && ExtractIds(call.payload).Ok? then
      [Request(m.next, call.payload, ExtractIds(call.payload).value)]
    else []
  }

  /** The part of it that is written at once, and the part that waits for the connection. */
  function Direct(m: Model, call: Call): seq<Request> { if call.after == Connecting then [] else Accepted(m, call) }
  function Parked(m: Model, call: Call): seq<Request> { if call.after == Connecting then Accepted(m, call) else [] }

  function CallEffects(m: Model, call: Call): seq<Effect> {
    if Accepted(m, call) == [] then []
    else
      var r := Accepted(m, call)[0];
      [Admitted(r, call.after == Connecting)] + (if call.after == Connecting then [] else WriteEffects(r, call.throws))
  }

  lemma CallAdds(m: Model, call: Call)
    ensures var s := Submit(m, call).0;
      && s.pending == m.pending + Parked(m, call) && s.trace == m.trace + CallEffects(m, call)
      && m.next <= s.next && (forall r <- m.sent :: r in s.sent)
      && (forall r <- s.sent :: r in m.sent || r.handle >= m.next)
  {
    hide WellFormed, Refusal;
    var dialled, r := SubmitShape(m, call);
    if Submit(m, call).1 == None {
      assert WellFormed(r);
      SameRequest(m, call, r);
      assert Accepted(m, call) == [r];
    }
  }

  lemma SameRequest(m: Model, call: Call, r: Request)
    requires WellFormed(r) && r.payload == call.payload && r.handle == m.next
    ensures ExtractIds(call.payload).Ok? && r == Request(m.next, call.payload, ExtractIds(call.payload).value)
  {}

  lemma CallWrites(m: Model, call: Call, h: nat)
    ensures WriteAttempts(CallEffects(m, call)) == Direct(m, call)
    ensures h != m.next ==> Concerning(CallEffects(m, call), h) == []
  {
    hide Submit;
    if Accepted(m, call) != [] {
      var r := Accepted(m, call)[0];
      var first, w := [Admitted(r, call.after == Connecting)], WriteEffects(r, call.throws);
      WriteAttemptsConcat(first, w);
      ConcerningConcat(first, w, h);
      assert first[1..] == [] && w == [w[0]] + w[1..];
      WriteAttemptsConcat([w[0]], w[1..]);
      ConcerningConcat([w[0]], w[1..], h);
      assert call.after == Connecting ==> CallEffects(m, call) == first;
    }
  }

  // ---------- The drain ----------

  function Fate(r: Request, throws: bool): seq<Effect> { [Promoted(r)] + WriteEffects(r, throws) }

  lemma OwnFate(r: Request, throws: bool, h: nat)
    ensures Concerning(Fate(r, throws), h) == if r.handle == h then Fate(r, throws) else []
  {
    var w := WriteEffects(r, throws);
    ConcerningConcat([Promoted(r)], w, h);
    ConcerningConcat([w[0]], w[1..], h);
    assert w == [w[0]] + w[1..];
  }

  lemma NothingConcerns(h: nat)
    ensures Concerning([], h) == []
  {}

  lemma FateComesFirst(q: seq<Request>, throws: set<nat>)
    requires q != []
    ensures DrainEffects(q, throws) == Fate(q[0], q[0].handle in throws) + DrainEffects(q[1..], throws)
  {}

  /** A drain does to every request what becomes of it, and nothing to any other. */
  lemma {:induction false} DrainConcerns(q: seq<Request>, throws: set<nat>, h: nat)
    requires Sound(q)
    ensures !Holds(q, h) ==> Concerning(DrainEffects(q, throws), h) == []
    ensures forall r <- q :: r.handle == h ==> Concerning(DrainEffects(q, throws), h) == Fate(r, h in throws)
  {
    hide Concerning, Fate, Sound;
    if q == [] {
      NothingConcerns(h);
    } else {
      var r := q[0];
      HeadApart(q);
      DrainConcerns(q[1..], throws, h);
      OwnFate(r, r.handle in throws, h);
      FateComesFirst(q, throws);
      ConcerningConcat(Fate(r, r.handle in throws), DrainEffects(q[1..], throws), h);
      assert Holds(q[1..], h) ==> r.handle != h;
    }
  }

  // ---------- A connect ----------

  ghost predicate ConnectOutcome(m: Model, d: Model, before: seq<Request>, after: seq<Request>, throws: set<nat>) {
    && d.pending == [] && m.trace <= d.trace
    && WriteAttempts(d.trace[|m.trace|..]) == before + m.pending + after
    && (forall r <- before + after :: r.handle >= m.next)
    && (forall r <- m.pending ::
          && Concerning(d.trace[|m.trace|..], r.handle) == Fate(r, r.handle in throws)
          && (r in d.sent <==> r.handle !in throws))
    && (forall r <- m.sent :: Concerning(d.trace[|m.trace|..], r.handle) == [] && r in d.sent)
  }

  /** After any run, one connect promotes and then writes every parked request exactly once, in the order of
      admission and between the requests of the base class; one that cannot be written is settled with the
      send error and with nothing else. Requests already sent are left alone, and nothing stays parked. */
  lemma ConnectWritesParkedInOrder(cfg: Config, steps: seq<Step>, chainId: Call, accounts: Call, throws: set<nat>)
    ensures var m := Run(Start(cfg), steps);
      var one := Submit(Up(m), chainId).0;
      && ConnectOutcome(m, Apply(m, Opened(chainId, accounts, throws)), Direct(Up(m), chainId) + Direct(one, accounts),
                        Parked(Up(m), chainId) + Parked(one, accounts), throws)
      && forall i, j | 0 <= i < j < |m.pending| :: m.pending[i].handle < m.pending[j].handle
  {
    InitialSound(cfg);
    RunKeepsInvariant(Start(cfg), steps);
    RunKeepsOrder(Start(cfg), steps);
    OpenDoes(Run(Start(cfg), steps), chainId, accounts, throws);
  }

  lemma OpenEffects(a: Model, chainId: Call, b: Model, accounts: Call, q: seq<Request>, throws: set<nat>, h: nat)
    ensures var t := (CallEffects(a, chainId) + CallEffects(b, accounts)) + DrainEffects(q, throws);
      && WriteAttempts(t) == (Direct(a, chainId) + Direct(b, accounts)) + q
      && (h != a.next && h != b.next ==> Concerning(t, h) == Concerning(DrainEffects(q, throws), h))
  {
    hide CallEffects, DrainEffects, Direct, WriteAttempts, Concerning;
    var one, two := CallEffects(a, chainId), CallEffects(b, accounts);
    CallWrites(a, chainId, h);
    CallWrites(b, accounts, h);
    WriteAttemptsConcat(one, two);
    WriteAttemptsConcat(one + two, DrainEffects(q, throws));
    DrainWritesTheQueue(q, throws);
    ConcerningConcat(one, two, h);
    ConcerningConcat(one + two, DrainEffects(q, throws), h);
  }

  function Up(m: Model): Model { m.(handshake := false, status := Connected, attempts := 0) }

  /** The two calls of the base class on an open connection, and the state in which the parked requests go out. */
  lemma OpenShape(m: Model, chainId: Call, accounts: Call, throws: set<nat>) returns (one: Model, two: Model)
    requires Inv(m)
    ensures one == Submit(Up(m), chainId).0 && Open(m, chainId, accounts, throws) == Drain(two, throws)
    ensures Inv(two) && m.next <= one.next && (forall r <- m.sent :: r in two.sent)
    ensures two.pending == m.pending + (Parked(Up(m), chainId) + Parked(one, accounts))
    ensures two.trace == m.trace + (CallEffects(Up(m), chainId) + CallEffects(one, accounts))
  {
    hide Submit, Sound, SlotCount, Drain, CallEffects, Parked;
    one := Submit(Up(m), chainId).0;
    two := Submit(one, accounts).0;
    SubmitPreserves(Up(m), chainId);
    SubmitPreserves(one, accounts);
    CallAdds(Up(m), chainId);
    CallAdds(one, accounts);
  }

  lemma OpenDoes(m: Model, chainId: Call, accounts: Call, throws: set<nat>)
    requires Inv(m)
    ensures var one := Submit(Up(m), chainId).0;
      ConnectOutcome(m, Open(m, chainId, accounts, throws), Direct(Up(m), chainId) + Direct(one, accounts),
                     Parked(Up(m), chainId) + Parked(one, accounts), throws)
  {
    hide Submit, Sound, SlotCount, Open, DrainEffects, CallEffects, Fate, Up, WriteAttempts, Concerning;
    var one, two := OpenShape(m, chainId, accounts, throws);
    var t := (CallEffects(Up(m), chainId) + CallEffects(one, accounts)) + DrainEffects(two.pending, throws);
    var d := Drain(two, throws);
    NewHandles(m, one, chainId, accounts);
    assert d.trace == m.trace + t && (m.trace + t)[|m.trace|..] == t;
    OpenEffects(Up(m), chainId, one, accounts, two.pending, throws, 0);
    forall r | r in m.pending
      ensures Concerning(t, r.handle) == Fate(r, r.handle in throws) && (r in d.sent <==> r.handle !in throws) {
      OldHandle(m, r, Up(m), one);
      OpenEffects(Up(m), chainId, one, accounts, two.pending, throws, r.handle);
      PendingIsDrained(two, throws, r);
    }
    forall r | r in m.sent ensures Concerning(t, r.handle) == [] && r in d.sent {
      OldHandle(m, r, Up(m), one);
      OpenEffects(Up(m), chainId, one, accounts, two.pending, throws, r.handle);
      SentIsSpared(two, throws, r);
    }
  }

  lemma NewHandles(m: Model, one: Model, chainId: Call, accounts: Call)
    requires m.next <= one.next
    ensures forall r <- (Direct(Up(m), chainId) + Direct(one, accounts))
                      + (Parked(Up(m), chainId) + Parked(one, accounts)) ::
      r.handle >= m.next
  {
    hide Submit;
  }

  lemma OldHandle(m: Model, r: Request, up: Model, one: Model)
    requires Inv(m) && (r in m.pending || r in m.sent) && up == Up(m) && m.next <= one.next
    ensures r.handle != up.next && r.handle != one.next
  {
    assert r in m.pending + m.sent;
  }

  lemma PendingIsDrained(m: Model, throws: set<nat>, r: Request)
    requires Inv(m) && r in m.pending
    ensures Concerning(DrainEffects(m.pending, throws), r.handle) == Fate(r, r.handle in throws)
    ensures r in Drain(m, throws).sent <==> r.handle !in throws
  {
    hide Sound, Fate, DrainEffects;
    SoundParts(m.pending, m.sent);
    DrainConcerns(m.pending, throws, r.handle);
    KeptExactly(m.pending, throws);
    if r in m.sent { ApartAcross(m.pending, m.sent, r, r); }
  }

  lemma SentIsSpared(m: Model, throws: set<nat>, r: Request)
    requires Inv(m) && r in m.sent
    ensures Concerning(DrainEffects(m.pending, throws), r.handle) == [] && r in Drain(m, throws).sent
  {
    hide Sound, Fate, DrainEffects;
    SoundParts(m.pending, m.sent);
    forall s | s in m.pending ensures s.handle != r.handle { ApartAcross(m.pending, m.sent, s, r); }
    DrainConcerns(m.pending, throws, r.handle);
  }
}
