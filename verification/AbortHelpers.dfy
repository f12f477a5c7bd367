/** `composeAbortSignal`: one signal that aborts on a deadline or on the caller's own signal,
    whichever comes first, and that releases the timer and the caller listener by itself. */
module AbortHelpers {
  import opened Wrappers

  /** Why a composed signal aborted. `Caller` carries the reason of the caller's own signal. */
  datatype Reason = Deadline(limit: real) | Caller(reason: int)

  /** What the caller passed as `signal`: nothing, or a signal that has or has not aborted yet. */
  datatype CallerSignal = NoSignal | Idle | Aborted(reason: int)

  /** The closures pushed on the `cleanups` stack. */
  datatype Cleanup = ClearTimer | DetachListener

  /** The closure state of one composition, together with what it holds outside itself.
      limit     the deadline in milliseconds, if there is one
      timer     the deadline timer is armed
      listener  the composition listens on the caller's signal
      attached  the provider listens on the composed signal
      aborts    how often `controller.abort` was called */
  datatype Composition = Composition(
    limit: Option<real>, timer: bool, listener: bool, attached: bool,
    reason: Option<Reason>, timedOut: bool, disposed: bool,
    cleanups: seq<Cleanup>, aborts: nat)
  {
    /** Neither aborted nor disposed: everything it was given is still armed. */
    predicate Armed(hasSignal: bool) {
      && timer == limit.Some? && listener == hasSignal
      && reason == None && !timedOut && !disposed && aborts == 0
      && cleanups == (if limit.Some? then [ClearTimer] else []) + (if hasSignal then [DetachListener] else [])
    }

    /** Nothing is left behind: no timer, no caller listener, no listener on the composed signal. */
    predicate Released() {
      !timer && !listener && !attached && disposed && cleanups == []
    }

    /** Neither aborted nor disposed, with a running deadline and the provider listening. */
    predicate Live() {
      limit.Some? && Armed(listener) && attached
    }

    /** Whatever is still held outside is on the cleanup stack. */
    predicate Disposable() {
      !disposed && (timer ==> ClearTimer in cleanups) && (listener ==> DetachListener in cleanups)
    }
  }

  /** `controller.abort`: only the first call sets the reason; listeners added with `once` are spent. */
  function Abort(c: Composition, reason: Reason): Composition {
    c.(reason := if c.reason == None then Some(reason) else c.reason, attached := false, aborts := c.aborts + 1)
  }

  function Teardown(c: Composition): Composition {
    if c.disposed then c
    else c.(disposed := true, cleanups := [],
            timer := c.timer && ClearTimer !in c.cleanups,
            listener := c.listener && DetachListener !in c.cleanups)
  }

  /** The timer callback up to and including the dispatch of `abort`, before its `dispose()`. */
  function Expire(c: Composition): Composition {
    Abort(c.(timer := false, timedOut := true), Deadline(if c.limit.Some? then c.limit.value else 0.0))
  }

  /** The caller listener up to and including the dispatch of `abort`, before its `dispose()`. */
  function Cancel(c: Composition, reason: int): Composition {
    Abort(c.(listener := false), Caller(reason))
  }

  function Compose(limit: Option<real>, signal: CallerSignal): Composition {
    var c := Composition(limit, limit.Some?, signal.Idle?, false, None, false, false,
                         (if limit.Some? then [ClearTimer] else []) + (if signal.Idle? then [DetachListener] else []),
                           0);
    if signal.Aborted? then Teardown(Abort(c, Caller(signal.reason))) else c
  }

  /** How a settled request leaves its composition, whether or not it had fired before. */
  lemma DisposalReleases(c: Composition)
    requires c.Disposable()
    ensures Teardown(c.(attached := false)).Released()
  {}

  /** A live composition stays disposable while its timer or its caller aborts it. */
  lemma FiredIsDisposable(c: Composition, reason: int)
    requires c.Live()
    ensures c.Disposable() && Expire(c).Disposable() && Cancel(c, reason).Disposable()
    ensures Expire(c).timedOut && !Cancel(c, reason).timedOut
  {}

  /** A composition over a signal that has not aborted is live as soon as somebody listens. */
  lemma ComposedIsLive(limit: real, signal: CallerSignal)
    requires !signal.Aborted?
    ensures Compose(Some(limit), signal).(attached := true).Live()
  {}

  /** What can happen to a composition from outside. An event whose source is gone does nothing. */
  datatype Event = TimerFires | CallerAborts(reason: int) | Disposed | Attach | Detach

  function Apply(c: Composition, e: Event): Composition {
    match e
    case TimerFires => if c.timer then Teardown(Expire(c)) else c
    case CallerAborts(r) => if c.listener then Teardown(Cancel(c, r)) else c
    case Disposed => Teardown(c)
    case Attach => c.(attached := c.reason == None)
    case Detach => c.(attached := false)
  }

  function Run(c: Composition, events: seq<Event>): Composition
    decreases |events|
  {
    if |events| == 0 then c else Run(Apply(c, events[0]), events[1..])
  }

  /** A signal that has already aborted leaves nothing armed; any other leaves everything armed, and nobody
      listens yet. */
  lemma ComposeIs(limit: Option<real>, signal: CallerSignal)
    ensures var c := Compose(limit, signal);
      match signal
      case Aborted(r) => c == Composition(limit, false, false, false, Some(Caller(r)), false, true, [], 1)
      case _ => c.Armed(signal == Idle) && c.limit == limit && !c.attached
  {}

  /** What the two callbacks have done when the listeners of the composed signal run. */
  lemma CallbackDoes(c: Composition, reason: int)
    requires c.Armed(c.listener)
    ensures c.limit.Some? ==>
      Expire(c) == c.(timer := false, timedOut := true, reason := Some(Deadline(c.limit.value)), attached := false,
                      aborts := 1)
    ensures Cancel(c, reason) == c.(listener := false, reason := Some(Caller(reason)), attached := false, aborts := 1)
  {}

  /** What each event does to a composition that has neither aborted nor been disposed of, and to any other. */
  lemma EventDoes(c: Composition, reason: int)
    ensures c.Armed(c.listener) && c.timer ==>
      Apply(c, TimerFires)
        == Composition(c.limit, false, false, false, Some(Deadline(c.limit.value)), true, true, [], 1)
    ensures c.Armed(c.listener) && c.listener ==>
      Apply(c, CallerAborts(reason))
        == Composition(c.limit, false, false, false, Some(Caller(reason)), false, true, [], 1)
    ensures c.Armed(c.listener) ==>
      Apply(c, Disposed) == c.(timer := false, listener := false, disposed := true, cleanups := [])
    ensures !c.timer ==> Apply(c, TimerFires) == c
    ensures !c.listener ==> Apply(c, CallerAborts(reason)) == c
    ensures c.disposed ==> Apply(c, Disposed) == c
    ensures Apply(c, Attach) == c.(attached := c.reason == None) && Apply(c, Detach) == c.(attached := false)
  {}

  /** The states a composition can be in, for the options it was created with. */
  predicate Consistent(c: Composition, hasSignal: bool) {
    && (!c.disposed ==> c.Armed(hasSignal))
    && (c.disposed ==> !c.timer && !c.listener && c.cleanups == [])
    && (c.reason == None <==> c.aborts == 0)
    && c.aborts <= 1
    && (c.reason != None ==> c.disposed && !c.attached)
    && (c.timedOut <==> c.reason.Some? && c.reason.value.Deadline?)
    && (c.timedOut ==> c.limit.Some? && c.reason == Some(Deadline(c.limit.value)))
  }

  lemma {:induction false} RunIsConsistent(c: Composition, events: seq<Event>, hasSignal: bool)
    requires Consistent(c, hasSignal)
    ensures Consistent(Run(c, events), hasSignal)
    decreases |events|
  {
    if events != [] {
      RunIsConsistent(Apply(c, events[0]), events[1..], hasSignal);
    }
  }

  lemma {:induction false} RunKeepsLimit(c: Composition, events: seq<Event>)
    ensures Run(c, events).limit == c.limit
    decreases |events|
  {
    if events != [] { RunKeepsLimit(Apply(c, events[0]), events[1..]); }
  }

  /** Over every sequence of events: at most one abort; `timedOut` exactly when the reason is the
      deadline's; and as soon as it aborted or was disposed neither timer nor caller listener is left,
      while until then both are still armed. */
  lemma {:induction false} CompositionSafety(limit: Option<real>, signal: CallerSignal, events: seq<Event>)
    ensures var c := Run(Compose(limit, signal), events);
            && c.aborts <= 1
            && (c.timedOut <==> c.reason.Some? && c.reason.value.Deadline?)
            && (c.timedOut ==> limit.Some? && c.reason == Some(Deadline(limit.value)))
            && (c.reason != None || c.disposed ==> !c.timer && !c.listener && c.cleanups == [])
            && (c.reason == None && !c.disposed ==> c.timer == limit.Some? && c.listener == signal.Idle?)
            && (signal.Aborted? ==> c.reason == Some(Caller(signal.reason)))
  {
    var c := Compose(limit, signal);
    RunIsConsistent(c, events, signal.Idle?);
    RunKeepsLimit(c, events);
    if signal.Aborted? {
      ReasonIsFinal(c, events);
    }
  }

  /** The first reason stays: no later event changes why the signal aborted. */
  lemma {:induction false} ReasonIsFinal(c: Composition, events: seq<Event>)
    requires c.reason != None
    ensures Run(c, events).reason == c.reason
    decreases |events|
  {
    if events != [] {
      ReasonIsFinal(Apply(c, events[0]), events[1..]);
    }
  }

  /** Whichever of deadline and caller abort comes first decides; dispose before both prevents either. */
  lemma {:induction false} FirstEventDecides(limit: Option<real>, events: seq<Event>, later: seq<Event>, reason: int)
    requires forall e <- events :: e.Attach? || e.Detach?
    ensures limit.Some?
      ==> Run(Compose(limit, Idle), events + [TimerFires] + later).reason == Some(Deadline(limit.value))
    ensures Run(Compose(limit, Idle), events + [CallerAborts(reason)] + later).reason == Some(Caller(reason))
    ensures Run(Compose(limit, Idle), events + [Disposed] + later).reason == None
  {
    var c := Compose(limit, Idle);
    QuietEventsKeep(c, events);
    forall e: Event ensures Run(c, events + [e] + later) == Run(Apply(Run(c, events), e), later) {
      RunConcat(c, events + [e], later);
      RunConcat(c, events, [e]);
    }
    var d := Run(c, events);
    if limit.Some? { ReasonIsFinal(Apply(d, TimerFires), later); }
    ReasonIsFinal(Apply(d, CallerAborts(reason)), later);
    DisposedStaysQuiet(Teardown(d), later);
  }

  lemma {:induction false} QuietEventsKeep(c: Composition, events: seq<Event>)
    requires forall e <- events :: e.Attach? || e.Detach?
    requires c.Armed(true)
    ensures Run(c, events).Armed(true) && Run(c, events).limit == c.limit
    decreases |events|
  {
    if events != [] {
      assert events[0] in events;
      QuietEventsKeep(Apply(c, events[0]), events[1..]);
    }
  }

  lemma {:induction false} DisposedStaysQuiet(c: Composition, events: seq<Event>)
    requires c.disposed && !c.timer && !c.listener && c.reason == None
    ensures Run(c, events).reason == None
    decreases |events|
  {
    if events != [] {
      DisposedStaysQuiet(Apply(c, events[0]), events[1..]);
    }
  }

  lemma {:induction false} RunConcat(c: Composition, a: seq<Event>, b: seq<Event>)
    ensures Run(c, a + b) == Run(Run(c, a), b)
    decreases |a|
  {
    if a == [] {
      assert a + b == b;
    } else {
      assert (a + b)[0] == a[0] && (a + b)[1..] == a[1..] + b;
      RunConcat(Apply(c, a[0]), a[1..], b);
    }
  }

  /** The object `composeAbortSignal` returns, with the closures that stay behind it. The timer and
      the listeners themselves belong to the platform; the fields say whether each is still there. */
  class AbortComposition {
    const limit: Option<real>
    var timer: bool
    var listener: bool
    var attached: bool
    var reason: Option<Reason>
    var timedOut: bool
    var disposed: bool
    var cleanups: seq<Cleanup>
    ghost var aborts: nat

    ghost function View(): Composition
      reads this
    {
      Composition(limit, timer, listener, attached, reason, timedOut, disposed, cleanups, aborts)
    }

    constructor (limit: Option<real>, signal: CallerSignal)
      ensures View() == Compose(limit, signal)
    {
      this.limit := limit;
      timer, listener, attached := limit.Some?, false, false;
      reason, timedOut, disposed, aborts := None, false, false, 0;
      cleanups := if limit.Some? then [ClearTimer] else [];
      new;
      match signal {
        case NoSignal =>
        case Aborted(r) =>
          ControllerAbort(Caller(r));
          Dispose();
        case Idle =>
          listener := true;
          cleanups := cleanups + [DetachListener];
      }
    }

    method ControllerAbort(why: Reason)
      modifies this
      ensures View() == Abort(old(View()), why)
    {
      if reason == None {
        reason := Some(why);
      }
      attached := false;
      aborts := aborts + 1;
    }

    /** Pops and runs every cleanup; a second call does nothing. */
    method Dispose()
      modifies this
      ensures View() == Teardown(old(View()))
    {
      if disposed { return; }
      disposed := true;
      while |cleanups| > 0
        invariant cleanups <= old(cleanups)
        invariant unchanged(`reason) && unchanged(`timedOut) && unchanged(`attached) && unchanged(`aborts) && disposed
        invariant timer == (old(timer) && ClearTimer !in old(cleanups)[|cleanups|..])
        invariant listener == (old(listener) && DetachListener !in old(cleanups)[|cleanups|..])
        decreases |cleanups|
      {
        var cleanup := cleanups[|cleanups| - 1];
        assert old(cleanups)[|cleanups| - 1..] == [cleanup] + old(cleanups)[|cleanups|..];
        cleanups := cleanups[..|cleanups| - 1];
        match cleanup {
          case ClearTimer => timer := false;
          case DetachListener => listener := false;
        }
      }
    }

    /** First half of the timer callback: the provider's abort listener runs before `Dispose`. */
    method BeginTimeout()
      modifies this
      ensures View() == Expire(old(View()))
    {
      timer, timedOut := false, true;
      ControllerAbort(Deadline(if limit.Some? then limit.value else 0.0));
    }

    /** First half of the caller listener. */
    method BeginCancel(why: int)
      modifies this
      ensures View() == Cancel(old(View()), why)
    {
      listener := false;
      ControllerAbort(Caller(why));
    }
  }
}
