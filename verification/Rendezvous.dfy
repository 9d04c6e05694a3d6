/** backend/rendezvous: the state of the signalling service and, as pure functions, what each operation does
    to it. A time is a number of nanoseconds since the epoch; one operation happens at one instant. */
module Rendezvous {
  import opened Common
  import Canonical

  const SECOND: int := 1_000_000_000

  datatype Kind = Signal | Mailbox

  datatype Error = BadRequest | BadKey | BadSignature | Stale | Replay | TooLarge | Capacity | NotFound

  datatype Limits = Limits(
    maxPayloadBytes: int, maxMetaBytes: int, maxEndpoints: int, maxEndpointBytes: int,
    maxQueueBlobs: int, maxQueueBytes: int, maxKeys: int,
    defaultPresenceTTL: int, maxPresenceTTL: int,
    defaultSignalTTL: int, maxSignalTTL: int, defaultMailboxTTL: int, maxMailboxTTL: int,
    clockSkew: int, maxWait: int, maxAckIDs: int, maxNonces: int)
  {
    /** What New guarantees of every limit the service runs with. */
    predicate Positive() {
      && maxPayloadBytes > 0 && maxMetaBytes > 0 && maxEndpoints > 0 && maxEndpointBytes > 0
      && maxQueueBlobs > 0 && maxQueueBytes > 0 && maxKeys > 0
      && defaultPresenceTTL > 0 && maxPresenceTTL > 0
      && defaultSignalTTL > 0 && maxSignalTTL > 0 && defaultMailboxTTL > 0 && maxMailboxTTL > 0
      && clockSkew > 0 && maxWait > 0 && maxAckIDs > 0 && maxNonces > 0
    }

    function DefaultTTL(kind: Kind): int {
      if kind.Mailbox? then defaultMailboxTTL else defaultSignalTTL
    }

    function MaxTTL(kind: Kind): int {
      if kind.Mailbox? then maxMailboxTTL else maxSignalTTL
    }
  }

  const DEFAULT_LIMITS := Limits(
    64 * 1024, 2 * 1024, 8, 256, 64, 256 * 1024, 4096,
    300 * SECOND, 3600 * SECOND, 120 * SECOND, 600 * SECOND, 3600 * SECOND, 43200 * SECOND,
    300 * SECOND, 25 * SECOND, 128, 65536)

  function Or(limit: int, default: int): int {
    if limit <= 0 then default else limit
  }

  predicate Kept(given: int, used: int, default: int) {
    (given > 0 ==> used == given) && (given <= 0 ==> used == default)
  }

  /** Limit by limit, r keeps what l gives and takes the rest from d. */
  predicate EachKept(l: Limits, r: Limits, d: Limits) {
    && Kept(l.maxPayloadBytes, r.maxPayloadBytes, d.maxPayloadBytes)
    && Kept(l.maxMetaBytes, r.maxMetaBytes, d.maxMetaBytes)
    && Kept(l.maxEndpoints, r.maxEndpoints, d.maxEndpoints)
    && Kept(l.maxEndpointBytes, r.maxEndpointBytes, d.maxEndpointBytes)
    && Kept(l.maxQueueBlobs, r.maxQueueBlobs, d.maxQueueBlobs)
    && Kept(l.maxQueueBytes, r.maxQueueBytes, d.maxQueueBytes)
    && Kept(l.maxKeys, r.maxKeys, d.maxKeys)
    && Kept(l.defaultPresenceTTL, r.defaultPresenceTTL, d.defaultPresenceTTL)
    && Kept(l.maxPresenceTTL, r.maxPresenceTTL, d.maxPresenceTTL)
    && Kept(l.defaultSignalTTL, r.defaultSignalTTL, d.defaultSignalTTL)
    && Kept(l.maxSignalTTL, r.maxSignalTTL, d.maxSignalTTL)
    && Kept(l.defaultMailboxTTL, r.defaultMailboxTTL, d.defaultMailboxTTL)
    && Kept(l.maxMailboxTTL, r.maxMailboxTTL, d.maxMailboxTTL)
    && Kept(l.clockSkew, r.clockSkew, d.clockSkew)
    && Kept(l.maxWait, r.maxWait, d.maxWait)
    && Kept(l.maxAckIDs, r.maxAckIDs, d.maxAckIDs)
    && Kept(l.maxNonces, r.maxNonces, d.maxNonces)
  }

  /** New replaces each limit that is not positive by its default, and keeps each one that is. */
  function WithDefaults(l: Limits): (r: Limits)
    ensures r.Positive()
    ensures EachKept(l, r, DEFAULT_LIMITS)
  {
    var d := DEFAULT_LIMITS;
    Limits(
      Or(l.maxPayloadBytes, d.maxPayloadBytes), Or(l.maxMetaBytes, d.maxMetaBytes),
      Or(l.maxEndpoints, d.maxEndpoints), Or(l.maxEndpointBytes, d.maxEndpointBytes),
      Or(l.maxQueueBlobs, d.maxQueueBlobs), Or(l.maxQueueBytes, d.maxQueueBytes), Or(l.maxKeys, d.maxKeys),
      Or(l.defaultPresenceTTL, d.defaultPresenceTTL), Or(l.maxPresenceTTL, d.maxPresenceTTL),
      Or(l.defaultSignalTTL, d.defaultSignalTTL), Or(l.maxSignalTTL, d.maxSignalTTL),
      Or(l.defaultMailboxTTL, d.defaultMailboxTTL), Or(l.maxMailboxTTL, d.maxMailboxTTL),
      Or(l.clockSkew, d.clockSkew), Or(l.maxWait, d.maxWait),
      Or(l.maxAckIDs, d.maxAckIDs), Or(l.maxNonces, d.maxNonces))
  }

  /** The limits of a service, and the library calls it makes: which strings DecodeKey accepts, the decoded
      length of a payload, and Ed25519 verification of (key, message, signature). */
  datatype Env = Env(
    limits: Limits,
    isKey: string -> bool,
    payloadSize: string -> Option<nat>,
    verifies: (string, string, string) -> bool)

  // ---------- signed requests ----------

  datatype Request =
    | Announce(key: string, endpoints: seq<string>, meta: string, ttl: int64, nonce: string, ts: int64, sig: string)
    | Withdraw(key: string, nonce: string, ts: int64, sig: string)
    | Deposit(kind: Kind, pathKey: string, from: string, to: string, payload: string, ttl: int64,
        nonce: string, ts: int64, sig: string)
    | Poll(kind: Kind, pathKey: string, key: string, nonce: string, ts: int64, wait: int64, sig: string)
    | Ack(kind: Kind, pathKey: string, key: string, ids: seq<string>, nonce: string, ts: int64, sig: string)
  {
    /** The key whose signature the request must carry. */
    function Signer(): string {
      if Deposit? then from else key
    }

    function Domain(): string {
      match this
      case Announce(_, _, _, _, _, _, _) => "vulos-rdv/announce/1"
      case Withdraw(_, _, _, _) => "vulos-rdv/withdraw/1"
      case Deposit(kind, _, _, _, _, _, _, _, _) =>
        if kind.Mailbox? then "vulos-rdv/mailbox-deposit/1" else "vulos-rdv/signal-deposit/1"
      case Poll(kind, _, _, _, _, _, _) =>
        if kind.Mailbox? then "vulos-rdv/mailbox-poll/1" else "vulos-rdv/signal-poll/1"
      case Ack(kind, _, _, _, _, _, _) =>
        if kind.Mailbox? then "vulos-rdv/mailbox-ack/1" else "vulos-rdv/signal-ack/1"
    }

    function Fields(): seq<string> {
      match this
      case Announce(key, endpoints, meta, ttl, nonce, ts, _) =>
        [key, Canonical.Itoa(ts), Canonical.Itoa(ttl), nonce, meta] + endpoints
      case Withdraw(key, nonce, ts, _) => [key, Canonical.Itoa(ts), nonce]
      case Deposit(_, _, from, to, payload, ttl, nonce, ts, _) =>
        [from, to, Canonical.Itoa(ts), Canonical.Itoa(ttl), nonce, payload]
      case Poll(_, _, key, nonce, ts, _, _) => [key, Canonical.Itoa(ts), nonce]
      case Ack(_, _, key, ids, nonce, ts, _) => [key, Canonical.Itoa(ts), nonce] + ids
    }

    function Message(): string {
      Canonical.Encode(Domain(), Fields())
    }

    /** The request without the parts its signature does not cover. */
    function Covered(): Request {
      match this
      case Announce(key, endpoints, meta, ttl, nonce, ts, _) => Announce(key, endpoints, meta, ttl, nonce, ts, "")
      case Withdraw(key, nonce, ts, _) => Withdraw(key, nonce, ts, "")
      case Deposit(kind, _, from, to, payload, ttl, nonce, ts, _) =>
        Deposit(kind, "", from, to, payload, ttl, nonce, ts, "")
      case Poll(kind, _, key, nonce, ts, _, _) => Poll(kind, "", key, nonce, ts, 0, "")
      case Ack(kind, _, key, ids, nonce, ts, _) => Ack(kind, "", key, ids, nonce, ts, "")
    }

    /** The name under which the replay cache remembers the request. */
    function NonceId(): string {
      Domain() + "|" + Signer() + "|" + nonce
    }
  }

  // ---------- state ----------

  datatype Presence = Presence(endpoints: seq<string>, meta: string, expiresAt: int)

  datatype Blob = Blob(id: string, from: string, payload: string, size: nat, depositAt: int, expiresAt: int)

  /** A waiter is the number of the channel a long-poller blocks on. */
  datatype Queue = Queue(blobs: seq<Blob>, bytes: int, waiters: seq<nat>)

  const EMPTY_QUEUE := Queue([], 0, [])

  /** `made` counts the channels made so far; `closed` lists the channels in the order they were closed. */
  datatype State = State(
    presence: map<string, Presence>,
    queues: map<string, map<Kind, Queue>>,
    nonces: map<string, int>,
    lastGC: Option<int>,
    made: nat,
    closed: seq<nat>)
  {
    function KeysInUse(): set<string> {
      presence.Keys + queues.Keys
    }

    predicate HasQueue(key: string, kind: Kind) {
      key in queues && kind in queues[key]
    }

    function QueueAt(key: string, kind: Kind): Queue {
      if HasQueue(key, kind) then queues[key][kind] else EMPTY_QUEUE
    }

    function WithQueue(key: string, kind: Kind, q: Queue): State {
      this.(queues := queues[key := (if key in queues then queues[key] else map[])[kind := q]])
    }
  }

  const INITIAL := State(map[], map[], map[], None, 0, [])

  datatype Reply =
    | Refused(error: Error)
    | Announced(ttl: int, expiresAt: int)
    | Withdrawn
    | Deposited(id: string, expiresAt: int)
    | Polled(wait: int)
    | Acked(deleted: nat)
    | Parked(channel: nat)
    | NotParked
    | Unparked

  // ---------- expiry ----------

  function Live(blobs: seq<Blob>, now: int): seq<Blob> {
    if blobs == [] then []
    else (if blobs[0].expiresAt > now then [blobs[0]] else []) + Live(blobs[1..], now)
  }

  function Bytes(blobs: seq<Blob>): nat {
    if blobs == [] then 0 else blobs[0].size + Bytes(blobs[1..])
  }

  function LiveNonces(nonces: map<string, int>, now: int): map<string, int> {
    map id | id in nonces && nonces[id] > now :: nonces[id]
  }

  function LivePresence(presence: map<string, Presence>, now: int): map<string, Presence> {
    map k | k in presence && presence[k].expiresAt > now :: presence[k]
  }

  function PruneQueue(q: Queue, now: int): Queue {
    Queue(Live(q.blobs, now), Bytes(Live(q.blobs, now)), q.waiters)
  }

  function PruneSlots(slots: map<Kind, Queue>, now: int): map<Kind, Queue> {
    map kind | kind in slots :: PruneQueue(slots[kind], now)
  }

  predicate Busy(q: Queue) {
    q.blobs != [] || q.waiters != []
  }

  predicate AnyBusy(slots: map<Kind, Queue>) {
    (Signal in slots && Busy(slots[Signal])) || (Mailbox in slots && Busy(slots[Mailbox]))
  }

  function LiveQueues(queues: map<string, map<Kind, Queue>>, now: int): map<string, map<Kind, Queue>> {
    map k | k in queues && AnyBusy(PruneSlots(queues[k], now)) :: PruneSlots(queues[k], now)
  }

  /** The lazy sweep, at most once every 30 seconds. */
  function Gc(s: State, now: int): State {
    if s.lastGC.Some? && now - s.lastGC.value < 30 * SECOND then s
    else s.(
      lastGC := Some(now),
      presence := LivePresence(s.presence, now),
      queues := LiveQueues(s.queues, now),
      nonces := LiveNonces(s.nonces, now))
  }

  // ---------- freshness ----------

  /** The replay defence for one envelope, remembered under `id`: the new state and, when the envelope is not
      fresh, why. */
  function CheckFresh(l: Limits, s: State, now: int, id: string, nonce: string, ts: int): (State, Option<Error>) {
    var t := ts * SECOND;
    if nonce == "" || |nonce| > 128 then (s, Some(BadRequest))
    else if t < now - l.clockSkew || t > now + l.clockSkew then (s, Some(Stale))
    else if id in s.nonces && s.nonces[id] > now then (s, Some(Replay))
    else
      var s1 := if |s.nonces| >= l.maxNonces then s.(nonces := LiveNonces(s.nonces, now)) else s;
      if |s1.nonces| >= l.maxNonces then (s1, Some(Capacity))
      else (s1.(nonces := s1.nonces[id := now + 2 * l.clockSkew]), None)
  }

  // ---------- operations ----------

  /** A request for nothing, or less, gets the default lifetime and no request gets more than the maximum. `req` is
      what is left of the requested seconds after Go's int64 multiplication. */
  function ClampTTL(req: int, default: int, max: int): int {
    if req <= 0 then default else if req > max then max else req
  }

  function TTL(ttl: int64, default: int, max: int): int {
    ClampTTL(Wrap64(ttl * SECOND), default, max)
  }

  predicate SigOk(env: Env, r: Request) {
    env.verifies(r.Signer(), r.Message(), r.sig)
  }

  /** The checks a request passes before the state is looked at, in the order the service makes them. */
  function Precheck(env: Env, r: Request): Option<Error> {
    match r
    case Announce(key, endpoints, meta, _, _, _, _) =>
      if !env.isKey(key) then Some(BadKey)
      else if |meta| > env.limits.maxMetaBytes || |endpoints| > env.limits.maxEndpoints then Some(TooLarge)
      else if exists i | 0 <= i < |endpoints| :: |endpoints[i]| > env.limits.maxEndpointBytes then Some(TooLarge)
      else if !SigOk(env, r) then Some(BadSignature) else None
    case Withdraw(key, _, _, _) =>
      if !env.isKey(key) then Some(BadKey)
      else if !SigOk(env, r) then Some(BadSignature) else None
    case Deposit(_, pathKey, from, to, payload, _, _, _, _) =>
      if pathKey != to then Some(BadRequest)
      else if !env.isKey(from) || !env.isKey(to) then Some(BadKey)
      else if env.payloadSize(payload).None? then Some(BadRequest)
      else if env.payloadSize(payload).value > env.limits.maxPayloadBytes then Some(TooLarge)
      else if !SigOk(env, r) then Some(BadSignature) else None
    case Poll(_, pathKey, key, _, _, _, _) =>
      if pathKey != key then Some(BadRequest)
      else if !env.isKey(key) then Some(BadKey)
      else if !SigOk(env, r) then Some(BadSignature) else None
    case Ack(_, pathKey, key, ids, _, _, _) =>
      if pathKey != key then Some(BadRequest)
      else if !env.isKey(key) then Some(BadKey)
      else if |ids| > env.limits.maxAckIDs then Some(TooLarge)
      else if !SigOk(env, r) then Some(BadSignature) else None
  }

  /** True when MaxKeys leaves no room for the key. */
  predicate NoRoom(l: Limits, s: State, key: string) {
    key !in s.KeysInUse() && |s.KeysInUse()| >= l.maxKeys
  }

  predicate Fits(l: Limits, blobs: seq<Blob>) {
    |blobs| <= l.maxQueueBlobs && Bytes(blobs) <= l.maxQueueBytes
  }

  /** Oldest-first eviction. */
  function Evict(l: Limits, blobs: seq<Blob>): seq<Blob> {
    if blobs == [] || Fits(l, blobs) then blobs else Evict(l, blobs[1..])
  }

  function Without(blobs: seq<Blob>, ids: seq<string>): seq<Blob> {
    if blobs == [] then []
    else (if blobs[0].id in ids then [] else [blobs[0]]) + Without(blobs[1..], ids)
  }

  function NewBlob(env: Env, now: int, r: Request, id: string): Blob
    requires r.Deposit? && env.payloadSize(r.payload).Some?
  {
    var ttl := TTL(r.ttl, env.limits.DefaultTTL(r.kind), env.limits.MaxTTL(r.kind));
    Blob(id, r.from, r.payload, env.payloadSize(r.payload).value, now, now + ttl)
  }

  function DoAnnounce(l: Limits, s: State, now: int, key: string, p: Presence, life: int): (State, Reply) {
    var g := Gc(s, now);
    if NoRoom(l, g, key) then (g, Refused(Capacity))
    else (g.(presence := g.presence[key := p]), Announced(life / SECOND, p.expiresAt / SECOND))
  }

  function DoDeposit(l: Limits, s: State, now: int, kind: Kind, to: string, b: Blob): (State, Reply) {
    var g := Gc(s, now);
    if NoRoom(l, g, to) then (g, Refused(Capacity))
    else
      var q := g.QueueAt(to, kind);
      var kept := Evict(l, q.blobs + [b]);
      (g.WithQueue(to, kind, Queue(kept, Bytes(kept), [])).(closed := g.closed + q.waiters),
       Deposited(b.id, b.expiresAt / SECOND))
  }

  function DoAck(s: State, kind: Kind, key: string, ids: seq<string>): (State, Reply) {
    if !s.HasQueue(key, kind) then (s, Acked(0))
    else
      var q := s.QueueAt(key, kind);
      var kept := Without(q.blobs, ids);
      (s.WithQueue(key, kind, Queue(kept, Bytes(kept), q.waiters)), Acked(DroppedBy(q.blobs, ids)))
  }

  function WaitFor(l: Limits, wait: int64): int {
    var w := Wrap64(wait * SECOND);
    if w < 0 then 0 else if w > l.maxWait then l.maxWait else w
  }

  /** What a request that passed Precheck and CheckFresh does; `id` is the random id of a new blob. */
  function Perform(env: Env, s: State, now: int, r: Request, id: string): (State, Reply)
    requires r.Deposit? ==> env.payloadSize(r.payload).Some?
  {
    match r
    case Announce(key, endpoints, meta, ttl, _, _, _) =>
      var life := TTL(ttl, env.limits.defaultPresenceTTL, env.limits.maxPresenceTTL);
      DoAnnounce(env.limits, s, now, key, Presence(endpoints, meta, now + life), life)
    case Withdraw(key, _, _, _) =>
      (Gc(s.(presence := s.presence - {key}), now), Withdrawn)
    case Deposit(kind, _, _, to, _, _, _, _, _) =>
      DoDeposit(env.limits, s, now, kind, to, NewBlob(env, now, r, id))
    case Poll(_, _, _, _, _, wait, _) =>
      (s, Polled(WaitFor(env.limits, wait)))
    case Ack(kind, _, key, ids, _, _, _) =>
      DoAck(s, kind, key, ids)
  }

  function DroppedBy(blobs: seq<Blob>, ids: seq<string>): nat {
    if blobs == [] then 0 else (if blobs[0].id in ids then 1 else 0) + DroppedBy(blobs[1..], ids)
  }

  /** One request, given the outcome of Precheck and the name of its envelope in the replay cache. */
  function Handle(env: Env, s: State, now: int, r: Request, malformed: Option<Error>, nonceId: string, id: string)
    : (State, Reply)
    requires malformed.None? && r.Deposit? ==> env.payloadSize(r.payload).Some?
  {
    if malformed.Some? then (s, Refused(malformed.value))
    else
      var (s1, stale) := CheckFresh(env.limits, s, now, nonceId, r.nonce, r.ts);
      if stale.Some? then (s1, Refused(stale.value)) else Perform(env, s1, now, r, id)
  }

  function Serve(env: Env, s: State, now: int, r: Request, id: string): (State, Reply) {
    Handle(env, s, now, r, Precheck(env, r), r.NonceId(), id)
  }

  /** True when the request gets as far as Perform: its signature verifies and its envelope is fresh. */
  predicate Accepted(env: Env, s: State, now: int, r: Request) {
    Precheck(env, r).None? && CheckFresh(env.limits, s, now, r.NonceId(), r.nonce, r.ts).1.None?
  }

  // ---------- reads and long-poll waiters ----------

  /** The blobs a poll of (key, kind) returns. */
  function Read(s: State, kind: Kind, key: string, now: int): seq<Blob> {
    Live(s.QueueAt(key, kind).blobs, now)
  }

  function Resolve(s: State, key: string, now: int): Option<Presence> {
    if key in s.presence && s.presence[key].expiresAt > now then Some(s.presence[key]) else None
  }

  function Park(env: Env, s: State, now: int, kind: Kind, key: string): (State, Reply) {
    if Read(s, kind, key, now) != [] || NoRoom(env.limits, s, key) then (s, NotParked)
    else
      var q := s.QueueAt(key, kind);
      (s.WithQueue(key, kind, q.(waiters := q.waiters + [s.made])).(made := s.made + 1), Parked(s.made))
  }

  function RemoveFirst(waiters: seq<nat>, ch: nat): seq<nat> {
    if waiters == [] then []
    else if waiters[0] == ch then waiters[1..]
    else [waiters[0]] + RemoveFirst(waiters[1..], ch)
  }

  function Unpark(s: State, kind: Kind, key: string, ch: nat): State {
    if !s.HasQueue(key, kind) then s
    else
      var q := s.QueueAt(key, kind);
      s.WithQueue(key, kind, q.(waiters := RemoveFirst(q.waiters, ch)))
  }

  // ---------- runs ----------

  datatype Event =
    | Request(r: Request, id: string)
    | ParkEvent(kind: Kind, key: string)
    | UnparkEvent(kind: Kind, key: string, ch: nat)

  datatype Timed = Timed(now: int, event: Event)

  function Step(env: Env, s: State, now: int, e: Event): (State, Reply) {
    match e
    case Request(r, id) => Serve(env, s, now, r, id)
    case ParkEvent(kind, key) => Park(env, s, now, kind, key)
    case UnparkEvent(kind, key, ch) => (Unpark(s, kind, key, ch), Unparked)
  }

  /** The clock never goes back along the run, which lies between `from` and `to`. */
  predicate Chronological(run: seq<Timed>, from: int, to: int) {
    if run == [] then from <= to else from <= run[0].now && Chronological(run[1..], run[0].now, to)
  }

  function Run(env: Env, s: State, run: seq<Timed>): State
    decreases |run|
  {
    if run == [] then s else Run(env, Step(env, s, run[0].now, run[0].event).0, run[1..])
  }
}
