/** The socket provider's request bookkeeping, as a state machine over whole requests.

    A request is in flight in one of two queues: `pending` (accepted, waiting for the connection) or
    `sent` (written, waiting for a reply). The provider itself keeps two maps from ids to request
    items; `SocketProvider` shows that those maps are always the two queues below, flattened. */
module RequestModel {
  import opened Wrappers
  import AbortHelpers
  import Positional

  // ---------- JSON-RPC ids, payloads and replies ----------

  datatype Id = Undefined | Num(n: int) | Text(s: string)

  /** JavaScript truthiness of an id: `0` and `''` count as missing. */
  predicate Truthy(id: Id) {
    match id
    case Undefined => false
    case Num(n) => n != 0
    case Text(s) => s != ""
  }

  datatype Payload = Single(id: Id) | Batch(entries: seq<Id>)

  function Elements<T>(s: seq<T>): set<T> { set x | x in s }

  /** The ids a payload occupies. An empty array is not a batch, and as an object it has no id. */
  function ExtractIds(payload: Payload): (r: Result<seq<Id>, RequestError>)
    ensures r.Ok? ==> r.value != [] && Distinct(r.value) && forall id <- r.value :: Truthy(id)
    ensures r.Ok? <==> (match payload
                        case Single(id) => Truthy(id)
                        case Batch(ids) => ids != [] && Distinct(ids) && forall id <- ids :: Truthy(id))
  {
    match payload
    case Single(id) => if Truthy(id) then Ok([id]) else Err(IdNotDefined)
    case Batch(ids) =>
      DistinctByCount(ids);
      if |ids| == 0 || (exists id <- ids :: !Truthy(id)) then Err(IdNotDefined)
      else if |Elements(ids)| != |ids| then Err(DuplicateIds)
      else Ok(ids)
  }

  /** `new Set(ids).size === ids.length` says that no id repeats. */
  lemma {:induction false} DistinctByCount<T>(s: seq<T>)
    ensures |Elements(s)| <= |s|
    ensures |Elements(s)| == |s| <==> Distinct(s)
  {
    if s != [] {
      var front, last := s[..|s| - 1], s[|s| - 1];
      DistinctByCount(front);
      assert s == front + [last];
      assert Elements(s) == Elements(front) + {last};
      if last in front {
        var i :| 0 <= i < |front| && front[i] == last;
        assert s[i] == s[|s| - 1];
        assert Elements(s) == Elements(front);
      }
    }
  }

  /** A member of a reply object: absent, `null` or something else. */
  datatype Field = Missing | Null | Present

  datatype Reply = Reply(version2: bool, id: Id, result: Field, error: Field, params: Field, methodName: Option<string>)

  datatype Response = One(reply: Reply) | Many(replies: seq<Reply>)

  predicate Nullish(f: Field) { f != Present }

  predicate IsResult(r: Reply) {
    r.version2 && r.result != Missing && Nullish(r.error) && r.id != Undefined
  }

  predicate IsError(r: Reply) {
    r.version2 && Nullish(r.result) && r.error != Missing && r.id != Undefined
  }

  predicate IsBatch(r: Response) {
    r.Many? && r.replies != [] && forall reply <- r.replies :: IsResult(reply) || IsError(reply)
  }

  predicate EndsWith(s: string, suffix: string) {
    |suffix| <= |s| && s[|s| - |suffix|..] == suffix
  }

  /** Subscription notifications carry no request id and never touch the queues. */
  predicate IsSubscriptionNotice(r: Response) {
    && r.One? && r.reply.version2 && r.reply.params == Present
    && r.reply.methodName.Some? && EndsWith(r.reply.methodName.value, "_subscription")
  }

  function ReplyId(r: Response): Id {
    match r
    case One(reply) => reply.id
    case Many(replies) => if IsBatch(r) then replies[0].id else Undefined
  }

  predicate Acceptable(r: Response) {
    IsBatch(r) || (r.One? && (IsResult(r.reply) || IsError(r.reply)))
  }

  // ---------- Requests, outcomes, effects ----------

  /** `handle` is the identity of the request item; all ids of a batch share it. */
  datatype Request = Request(handle: nat, payload: Payload, ids: seq<Id>)

  datatype Failure =
    | TimedOut | CallerAborted(reason: int) | SendFailed | HandshakeTimedOut
    | ConnectionNotOpen | ProviderReset | LostOnReconnect | InvalidReply(reply: Response)

  datatype Outcome = Resolved(response: Response) | Rejected(why: Failure)

  /** Why `request` throws before it has recorded anything. */
  datatype RequestError =
    | ConnectionUndefined | ConnectFailed | IdNotDefined | DuplicateIds
    | AlreadySent(id: Id) | QueueFull | AbortedBefore(reason: int) | InvalidTimeout

  /** What the provider does to the outside, in order. */
  datatype Effect =
    | Admitted(request: Request, parked: bool)
    | Promoted(request: Request)
    | Wrote(request: Request)
    | WriteFailed(request: Request)
    | Settled(request: Request, outcome: Outcome)
    | ReconnectArmed(wait: int)
    | GaveUp

  datatype Status = Connecting | Connected | Disconnected

  /** A `number` given as a timeout: `NaN` and the infinities are not finite. */
  datatype Millis = NotFinite | Finite(ms: real)

  predicate ValidTimeout(t: Millis) { t.Finite? && t.ms > 0.0 }

  datatype Config = Config(maxInFlight: nat, requestTimeout: real, maxAttempts: int, delay: real, autoReconnect: bool)

  datatype Model = Model(
    cfg: Config, pending: seq<Request>, sent: seq<Request>, next: nat, peak: nat,
    status: Status, handshake: bool, attempts: nat, reconnecting: bool, timers: nat,
    trace: seq<Effect>)

  /** A provider whose first connection attempt is under way. */
  function Start(cfg: Config): Model {
    Model(cfg, [], [], 0, 0, Connecting, true, 0, false, 0, [])
  }

  function SlotCount(q: seq<Request>): nat {
    if |q| == 0 then 0 else |q[0].ids| + SlotCount(q[1..])
  }

  function InFlight(m: Model): nat { SlotCount(m.pending) + SlotCount(m.sent) }

  /** Position of the request that owns an id, or the length of the queue. */
  function OwnerIndex(q: seq<Request>, id: Id): (k: nat)
    ensures k <= |q|
    ensures k < |q| ==> id in q[k].ids
    ensures forall i | 0 <= i < k :: id !in q[i].ids
  {
    if |q| == 0 || id in q[0].ids then 0 else 1 + OwnerIndex(q[1..], id)
  }

  function RemoveAt<T>(q: seq<T>, k: nat): seq<T>
    requires k < |q|
  {
    q[..k] + q[k + 1..]
  }

  predicate Owned(q: seq<Request>, id: Id) { OwnerIndex(q, id) < |q| }

  function Settlements(q: seq<Request>, outcome: Outcome): (t: seq<Effect>) {
    if |q| == 0 then [] else [Settled(q[0], outcome)] + Settlements(q[1..], outcome)
  }

  // ---------- The steps ----------

  /** `_settleRequest`: the request owning `id` leaves with all its ids and is settled. */
  function Settle(m: Model, id: Id, outcome: Outcome): Model {
    if Owned(m.sent, id) then
      var k := OwnerIndex(m.sent, id);
      m.(sent := RemoveAt(m.sent, k), trace := m.trace + [Settled(m.sent[k], outcome)])
    else if Owned(m.pending, id) then
      var k := OwnerIndex(m.pending, id);
      m.(pending := RemoveAt(m.pending, k), trace := m.trace + [Settled(m.pending[k], outcome)])
    else m
  }

  function RejectSent(m: Model, why: Failure): Model {
    m.(sent := [], trace := m.trace + Settlements(m.sent, Rejected(why)))
  }

  function RejectAll(m: Model, why: Failure): Model {
    m.(pending := [], sent := [], trace := m.trace + Settlements(m.pending + m.sent, Rejected(why)))
  }

  function ClearQueues(m: Model): Model { RejectAll(m.(handshake := false), ConnectionNotOpen) }

  function Disconnect(m: Model): Model {
    RejectAll(m.(handshake := false), ConnectionNotOpen).(status := Disconnected)
  }

  function Reset(m: Model): Model {
    RejectAll(m.(handshake := false), ProviderReset).(attempts := 0)
  }

  /** How opening a socket goes: well, or with a throw before or after the deadline was armed. */
  datatype Dial = Opens | OpenThrows | ListenThrows

  function Connect(m: Model, dial: Dial): (r: (Model, bool)) {
    var tried := if dial == OpenThrows then m else m.(status := Connecting);
    if dial == Opens then (tried.(handshake := true), false)
    else if m.reconnecting then (tried.(handshake := false), false)
    else (tried.(handshake := false, status := Disconnected), true)
  }

  /** Everything a call of `request` takes from outside: the payload, what `getStatus` says before and
      after dialling, how dialling goes, the options, and whether the socket write throws. */
  datatype Call = Call(
    payload: Payload, socketDefined: bool, before: Status, dial: Dial, after: Status,
    signal: AbortHelpers.CallerSignal, timeout: Option<Millis>, throws: bool)

  /** The deadline of a call: its own, or the provider's. */
  function Limit(cfg: Config, call: Call): real {
    if call.timeout.Some? && call.timeout.value.Finite? then call.timeout.value.ms else cfg.requestTimeout
  }

  function Max(a: nat, b: nat): nat { if a < b then b else a }

  /** `_sendToSocket` for a request that is in the sent map; a throw settles it at once. */
  function WriteEffects(r: Request, throws: bool): seq<Effect> {
    if throws then [WriteFailed(r), Settled(r, Rejected(SendFailed))] else [Wrote(r)]
  }

  /** The provider's high-water mark is taken right after admission, before the write is attempted. */
  function Admit(m: Model, r: Request, parked: bool, throws: bool): Model {
    var admitted := m.(next := m.next + 1, peak := Max(m.peak, InFlight(m) + |r.ids|),
                       trace := m.trace + ([Admitted(r, parked)] + (if parked then [] else WriteEffects(r, throws))));
    if parked then admitted.(pending := m.pending + [r])
    else if throws then admitted
    else admitted.(sent := m.sent + [r])
  }

  /** The checks of `request` between dialling and bookkeeping, in the source's order. */
  function Refusal(m: Model, call: Call): Option<RequestError> {
    var ids := ExtractIds(call.payload);
    if ids.Err? then Some(ids.error)
    else if exists id <- ids.value :: Owned(m.sent, id) || Owned(m.pending, id) then
      Some(AlreadySent(ids.value[FirstTaken(m, ids.value)]))
    else if InFlight(m) + |ids.value| > m.cfg.maxInFlight then Some(QueueFull)
    else if call.signal.Aborted? then Some(AbortedBefore(call.signal.reason))
    else if call.timeout.Some? && !ValidTimeout(call.timeout.value) then Some(InvalidTimeout)
    else None
  }

  function FirstTaken(m: Model, ids: seq<Id>): (k: nat)
    requires exists id <- ids :: Owned(m.sent, id) || Owned(m.pending, id)
    ensures k < |ids| && (Owned(m.sent, ids[k]) || Owned(m.pending, ids[k]))
    ensures forall i | 0 <= i < k :: !Owned(m.sent, ids[i]) && !Owned(m.pending, ids[i])
  {
    if Owned(m.sent, ids[0]) || Owned(m.pending, ids[0]) then 0
    else
      assert ids == [ids[0]] + ids[1..];
      1 + FirstTaken(m, ids[1..])
  }

  function Submit(m: Model, call: Call): (Model, Option<RequestError>) {
    if !call.socketDefined then (m, Some(ConnectionUndefined)) else
    var (dialled, threw) := if call.before == Disconnected then Connect(m, call.dial) else (m, false);
    if threw then (dialled, Some(ConnectFailed)) else
    var refusal := Refusal(dialled, call);
    if refusal.Some? then (dialled, refusal) else
    var r := Request(dialled.next, call.payload, ExtractIds(call.payload).value);
    (Admit(dialled, r, call.after == Connecting, call.throws), None)
  }

  /** The parked requests whose deferred write succeeds. */
  function Kept(q: seq<Request>, throws: set<nat>): seq<Request> {
    if |q| == 0 then []
    else if q[0].handle in throws then Kept(q[1..], throws)
    else [q[0]] + Kept(q[1..], throws)
  }

  /** Each parked request is promoted as a whole, then written once; a failed write settles it. */
  function DrainEffects(q: seq<Request>, throws: set<nat>): seq<Effect> {
    if |q| == 0 then []
    else [Promoted(q[0])] + WriteEffects(q[0], q[0].handle in throws) + DrainEffects(q[1..], throws)
  }

  /** `_sendPendingRequests`; `throws` names the requests whose write fails. */
  function Drain(m: Model, throws: set<nat>): Model {
    m.(pending := [], sent := m.sent + Kept(m.pending, throws),
       trace := m.trace + DrainEffects(m.pending, throws))
  }

  /** `_onConnect`: the base class asks for chain id and accounts before the parked requests go out. */
  function Open(m: Model, chainId: Call, accounts: Call, throws: set<nat>): Model {
    var up := m.(handshake := false, status := Connected, attempts := 0);
    Drain(Submit(Submit(up, chainId).0, accounts).0, throws)
  }

  function Deliver(m: Model, response: Response): Model {
    if IsSubscriptionNotice(response) || !Owned(m.sent, ReplyId(response)) then m
    else Settle(m, ReplyId(response), if Acceptable(response) then Resolved(response)
         else Rejected(InvalidReply(response)))
  }

  function DeliverAll(m: Model, responses: seq<Response>): Model
    decreases |responses|
  {
    if |responses| == 0 then m else DeliverAll(Deliver(m, responses[0]), responses[1..])
  }

  /** `overflow`: the chunk parser gave up on an oversized message and cleared the queues. */
  function Message(m: Model, overflow: bool, responses: seq<Response>, jitter: real): Model {
    var parsed := if overflow then ClearQueues(m) else m;
    if responses != [] then DeliverAll(parsed, responses)
    else if m.cfg.autoReconnect then Reconnect(parsed, jitter)
    else parsed
  }

  function RequestIndex(q: seq<Request>, handle: nat): (k: nat)
    ensures k <= |q|
    ensures k < |q| ==> q[k].handle == handle
    ensures forall i | 0 <= i < k :: q[i].handle != handle
  {
    if |q| == 0 || q[0].handle == handle then 0 else 1 + RequestIndex(q[1..], handle)
  }

  /** The request's own abort signal fires: its deadline, or the caller's signal. */
  function Cancel(m: Model, handle: nat, why: Failure): Model {
    if RequestIndex(m.sent, handle) < |m.sent| then
      var k := RequestIndex(m.sent, handle);
      m.(sent := RemoveAt(m.sent, k), trace := m.trace + [Settled(m.sent[k], Rejected(why))])
    else if RequestIndex(m.pending, handle) < |m.pending| then
      var k := RequestIndex(m.pending, handle);
      m.(pending := RemoveAt(m.pending, k), trace := m.trace + [Settled(m.pending[k], Rejected(why))])
    else m
  }

  function HandshakeTimeout(m: Model, status: Status): Model {
    if !m.handshake then m
    else if status == Connected then m.(handshake := false)
    else RejectAll(m.(handshake := false, status := Disconnected), HandshakeTimedOut)
  }

  // ---------- Reconnection ----------

  const MAX_BACKOFF := 60000.0

  /** Exponential back-off up to a cap, in milliseconds. */
  function Capped(delay: real, attempt: nat): real
    requires attempt >= 1
  {
    var exp := delay * Positional.Pow(2, attempt - 1) as real;
    if exp < MAX_BACKOFF then exp else MAX_BACKOFF
  }

  /** Whole milliseconds, never negative; the jitter is a fraction of the capped delay. */
  function Jittered(capped: real, jitter: real): int {
    var wait := (capped + capped * jitter).Floor;
    if wait < 0 then 0 else wait
  }

  /** The wait before an attempt. */
  function Wait(delay: real, attempt: nat, jitter: real): int
    requires attempt >= 1
  {
    Jittered(Capped(delay, attempt), jitter)
  }

  function Reconnect(m: Model, jitter: real): Model {
    if m.reconnecting then m else
    var lost := RejectSent(m, LostOnReconnect);
    if m.attempts < m.cfg.maxAttempts then
      lost.(reconnecting := true, attempts := m.attempts + 1, timers := m.timers + 1,
            trace := lost.trace + [ReconnectArmed(Wait(m.cfg.delay, m.attempts + 1, jitter))])
    else
      var cleared := ClearQueues(lost);
      cleared.(trace := cleared.trace + [GaveUp])
  }

  /** The reconnect timer fires: dial again, then allow the next reconnect. */
  function ReconnectTimer(m: Model, dial: Dial): Model {
    if m.timers == 0 then m
    else Connect(m.(timers := m.timers - 1), dial).0.(reconnecting := false)
  }

  // ---------- Runs ----------

  datatype Step =
    | Requested(call: Call)
    | Opened(chainId: Call, accounts: Call, throws: set<nat>)
    | Incoming(overflow: bool, responses: seq<Response>, jitter: real)
    | DeadlineFires(handle: nat)
    | CallerAborts(handle: nat, reason: int)
    | HandshakeExpires(status: Status)
    | ConnectionLost(jitter: real)
    | ReconnectTimerFires(dial: Dial)
    | ConnectCalled(dial: Dial)
    | ResetCalled
    | DisconnectCalled
    | QueuesCleared

  function Apply(m: Model, step: Step): Model {
    match step
    case Requested(call) => Submit(m, call).0
    case Opened(chainId, accounts, throws) => Open(m, chainId, accounts, throws)
    case Incoming(overflow, responses, jitter) => Message(m, overflow, responses, jitter)
    case DeadlineFires(h) => Cancel(m, h, TimedOut)
    case CallerAborts(h, reason) => Cancel(m, h, CallerAborted(reason))
    case HandshakeExpires(status) => HandshakeTimeout(m, status)
    case ConnectionLost(jitter) => Reconnect(m, jitter)
    case ReconnectTimerFires(dial) => ReconnectTimer(m, dial)
    case ConnectCalled(dial) => Connect(m, dial).0
    case ResetCalled => Reset(m)
    case DisconnectCalled => Disconnect(m)
    case QueuesCleared => ClearQueues(m)
  }

  function Run(m: Model, steps: seq<Step>): Model
    decreases |steps|
  {
    if |steps| == 0 then m else Run(Apply(m, steps[0]), steps[1..])
  }
}
