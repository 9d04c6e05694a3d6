/** backend/rendezvous: what the queues hold, and the bounds every operation keeps. */
module RendezvousBounds {
  import opened Common
  import opened Rendezvous

  // ---------- queue contents ----------

  lemma {:induction false} LiveIsExact(blobs: seq<Blob>, now: int, b: Blob)
    ensures b in Live(blobs, now) <==> b in blobs && b.expiresAt > now
  {
    if blobs != [] {
      LiveIsExact(blobs[1..], now, b);
      UnfoldFirst(blobs);
    }
  }

  lemma {:induction false} LiveShrinks(blobs: seq<Blob>, now: int)
    ensures |Live(blobs, now)| <= |blobs| && Bytes(Live(blobs, now)) <= Bytes(blobs)
  {
    if blobs != [] {
      LiveShrinks(blobs[1..], now);
      BytesOfConcat(if blobs[0].expiresAt > now then [blobs[0]] else [], Live(blobs[1..], now));
    }
  }

  lemma {:induction false} BytesOfConcat(a: seq<Blob>, b: seq<Blob>)
    ensures Bytes(a + b) == Bytes(a) + Bytes(b)
  {
    if a == [] {
      assert a + b == b;
    } else {
      assert (a + b)[1..] == a[1..] + b;
      BytesOfConcat(a[1..], b);
    }
  }

  lemma {:induction false} LiveOfConcat(a: seq<Blob>, b: seq<Blob>, now: int)
    ensures Live(a + b, now) == Live(a, now) + Live(b, now)
  {
    if a == [] {
      assert a + b == b;
    } else {
      assert (a + b)[1..] == a[1..] + b;
      LiveOfConcat(a[1..], b, now);
    }
  }

  lemma {:induction false} LiveTwice(blobs: seq<Blob>, now: int, later: int)
    requires now <= later
    ensures Live(Live(blobs, now), later) == Live(blobs, later)
  {
    if blobs != [] {
      LiveTwice(blobs[1..], now, later);
      LiveOfConcat(if blobs[0].expiresAt > now then [blobs[0]] else [], Live(blobs[1..], now), later);
    }
  }

  /** How many of the oldest blobs are evicted: just as many as it takes. */
  lemma {:induction false} Evicted(l: Limits, blobs: seq<Blob>) returns (k: nat)
    requires l.Positive()
    ensures k <= |blobs| && Evict(l, blobs) == blobs[k..] && Fits(l, blobs[k..])
    ensures forall j | 0 <= j < k :: !Fits(l, blobs[j..])
  {
    assert blobs[0..] == blobs;
    if blobs == [] || Fits(l, blobs) {
      k := 0;
    } else {
      var tail := blobs[1..];
      var m := Evicted(l, tail);
      k := m + 1;
      assert tail[m..] == blobs[k..];
      forall j | 0 < j < k ensures !Fits(l, blobs[j..]) {
        assert tail[j - 1..] == blobs[j..];
      }
    }
  }

  /** Oldest-first eviction keeps the longest suffix that meets both caps. */
  lemma EvictKeepsLongestSuffix(l: Limits, blobs: seq<Blob>)
    requires l.Positive()
    ensures Fits(l, Evict(l, blobs))
    ensures exists k :: 0 <= k <= |blobs| && Evict(l, blobs) == blobs[k..]
    ensures forall k | 0 <= k <= |blobs| && Fits(l, blobs[k..]) :: |blobs[k..]| <= |Evict(l, blobs)|
  {
    var k := Evicted(l, blobs);
  }

  /** The newest blob survives its own deposit whenever it fits an empty queue. */
  lemma {:induction false} NewestSurvives(l: Limits, before: seq<Blob>, b: Blob)
    requires l.Positive()
    ensures b.size <= l.maxQueueBytes <==> Evict(l, before + [b]) != []
    ensures Evict(l, before + [b]) != [] ==> b in Evict(l, before + [b])
  {
    var all := before + [b];
    var k := Evicted(l, all);
    assert all[|before|..] == [b];
    assert Bytes([b]) == b.size + Bytes([b][1..]);
    if k < |all| {
      assert all[k..] == all[k..|before|] + [b];
      BytesOfConcat(all[k..|before|], [b]);
    }
  }

  /** kept is the longest suffix of all that meets both caps. */
  ghost predicate LongestFit(l: Limits, all: seq<Blob>, kept: seq<Blob>) {
    exists k ::
      0 <= k <= |all| && kept == all[k..] && Fits(l, all[k..]) && forall j | 0 <= j < k :: !Fits(l, all[j..])
  }

  lemma EvictIsLongestFit(l: Limits, all: seq<Blob>)
    requires l.Positive()
    ensures LongestFit(l, all, Evict(l, all))
  {
    var k := Evicted(l, all);
  }

  lemma ReplacedQueue(s: State, key: string, kind: Kind, q: Queue)
    ensures forall k, d ::
      s.WithQueue(key, kind, q).QueueAt(k, d) == if (k, d) == (key, kind) then q else s.QueueAt(k, d)
  {
  }

  /** A successful deposit leaves the longest suffix of old ++ [new] within the caps, and touches no other queue. */
  lemma DepositOutcome(l: Limits, s: State, now: int, kind: Kind, to: string, b: Blob, otherKey: string,
                       otherKind: Kind)
    requires l.Positive() && DoDeposit(l, s, now, kind, to, b).1.Deposited?
    ensures
      var after := DoDeposit(l, s, now, kind, to, b).0.QueueAt(to, kind);
      after.bytes == Bytes(after.blobs) && LongestFit(l, Gc(s, now).QueueAt(to, kind).blobs + [b], after.blobs)
    ensures (otherKey, otherKind) != (to, kind) ==>
      DoDeposit(l, s, now, kind, to, b).0.QueueAt(otherKey, otherKind) == Gc(s, now).QueueAt(otherKey, otherKind)
  {
    var g := Gc(s, now);
    var kept := Evict(l, g.QueueAt(to, kind).blobs + [b]);
    EvictIsLongestFit(l, g.QueueAt(to, kind).blobs + [b]);
    ReplacedQueue(g, to, kind, Queue(kept, Bytes(kept), []));
  }

  /** Ack is determined blob by blob: it drops the named ids, keeps the others, and keeps their order. */
  lemma {:induction false} AckOfConcat(a: seq<Blob>, b: seq<Blob>, ids: seq<string>)
    ensures Without(a + b, ids) == Without(a, ids) + Without(b, ids)
    ensures DroppedBy(a + b, ids) == DroppedBy(a, ids) + DroppedBy(b, ids)
  {
    if a == [] {
      assert a + b == b;
    } else {
      assert (a + b)[1..] == a[1..] + b;
      AckOfConcat(a[1..], b, ids);
    }
  }

  lemma {:induction false} AckIsExact(blobs: seq<Blob>, ids: seq<string>, b: Blob)
    ensures multiset(Without(blobs, ids))[b] == if b.id in ids then 0 else multiset(blobs)[b]
    ensures |Without(blobs, ids)| + DroppedBy(blobs, ids) == |blobs|
    ensures Bytes(Without(blobs, ids)) <= Bytes(blobs)
  {
    if blobs != [] {
      UnfoldFirst(blobs);
      AckIsExact(blobs[1..], ids, b);
      BytesOfConcat(if blobs[0].id in ids then [] else [blobs[0]], Without(blobs[1..], ids));
    }
  }

  // ---------- the sweep is invisible to readers ----------

  /** Running gc at `now` changes no answer of Read or Resolve at that or any later time. */
  lemma GcInvisible(s: State, now: int, later: int, kind: Kind, key: string)
    requires now <= later
    ensures Read(Gc(s, now), kind, key, later) == Read(s, kind, key, later)
    ensures Resolve(Gc(s, now), key, later) == Resolve(s, key, later)
  {
    LiveTwice(s.QueueAt(key, kind).blobs, now, later);
    assert kind == Signal || kind == Mailbox;
  }

  /** gc deletes nothing a long-poller waits on. */
  lemma GcKeepsWaiters(s: State, now: int, kind: Kind, key: string)
    ensures Gc(s, now).QueueAt(key, kind).waiters == s.QueueAt(key, kind).waiters
  {
    assert kind == Signal || kind == Mailbox;
  }

  // ---------- bounds ----------

  function Max(a: int, b: int): int {
    if a < b then b else a
  }

  predicate BlobOk(l: Limits, kind: Kind, b: Blob, now: int) {
    && b.size <= l.maxPayloadBytes
    && b.depositAt <= now
    && b.depositAt < b.expiresAt <= b.depositAt + Max(l.DefaultTTL(kind), l.MaxTTL(kind))
  }

  predicate QueueOk(l: Limits, kind: Kind, q: Queue, now: int) {
    && q.bytes == Bytes(q.blobs)
    && Fits(l, q.blobs)
    && forall b | b in q.blobs :: BlobOk(l, kind, b, now)
  }

  predicate QueuesOk(l: Limits, queues: map<string, map<Kind, Queue>>, now: int) {
    forall key, kind | key in queues && kind in queues[key] :: QueueOk(l, kind, queues[key][kind], now)
  }

  predicate PresenceOk(l: Limits, presence: map<string, Presence>, now: int) {
    forall k | k in presence :: presence[k].expiresAt <= now + Max(l.defaultPresenceTTL, l.maxPresenceTTL)
  }

  /** Every dimension an anonymous caller can push on is within its cap. */
  predicate Bounded(l: Limits, s: State, now: int) {
    && |s.KeysInUse()| <= l.maxKeys
    && |s.nonces| <= l.maxNonces
    && PresenceOk(l, s.presence, now)
    && QueuesOk(l, s.queues, now)
  }

  lemma BoundedLater(l: Limits, s: State, now: int, later: int)
    requires Bounded(l, s, now) && now <= later
    ensures Bounded(l, s, later)
  {
    forall key, kind | key in s.queues && kind in s.queues[key]
      ensures QueueOk(l, kind, s.queues[key][kind], later)
    {
      assert QueueOk(l, kind, s.queues[key][kind], now);
      assert forall b | b in s.queues[key][kind].blobs :: BlobOk(l, kind, b, now);
    }
  }

  lemma PruneKeepsQueueOk(l: Limits, kind: Kind, q: Queue, now: int)
    requires QueueOk(l, kind, q, now)
    ensures QueueOk(l, kind, PruneQueue(q, now), now)
  {
    LiveShrinks(q.blobs, now);
    forall b | b in Live(q.blobs, now) ensures BlobOk(l, kind, b, now) {
      LiveIsExact(q.blobs, now, b);
    }
  }

  lemma GcBounded(l: Limits, s: State, now: int)
    requires Bounded(l, s, now)
    ensures Bounded(l, Gc(s, now), now)
    ensures Gc(s, now).KeysInUse() <= s.KeysInUse()
  {
    var g := Gc(s, now);
    SubsetSize(g.KeysInUse(), s.KeysInUse());
    SubsetSize(g.nonces.Keys, s.nonces.Keys);
    if g != s {
      forall key, kind | key in g.queues && kind in g.queues[key]
        ensures QueueOk(l, kind, g.queues[key][kind], now)
      {
        PruneKeepsQueueOk(l, kind, s.queues[key][kind], now);
      }
    }
  }

  lemma QueueAtOk(l: Limits, s: State, key: string, kind: Kind, now: int)
    requires l.Positive() && QueuesOk(l, s.queues, now)
    ensures QueueOk(l, kind, s.QueueAt(key, kind), now)
  {
  }

  /** A lifetime is positive and within the larger of default and cap, whatever int64 wrap-around made of the
      requested seconds. */
  lemma LifetimeBounded(ttl: int64, default: int, max: int)
    requires default > 0 && max > 0
    ensures 0 < TTL(ttl, default, max) <= Max(default, max)
  {
  }

  lemma DepositBounded(l: Limits, kind: Kind, q: Queue, b: Blob, now: int)
    requires l.Positive() && QueueOk(l, kind, q, now) && BlobOk(l, kind, b, now)
    ensures var kept := Evict(l, q.blobs + [b]); QueueOk(l, kind, Queue(kept, Bytes(kept), []), now)
  {
    EvictedFits(l, q.blobs + [b]);
  }

  lemma EvictedFits(l: Limits, blobs: seq<Blob>)
    requires l.Positive()
    ensures Fits(l, Evict(l, blobs)) && forall b | b in Evict(l, blobs) :: b in blobs
  {
    var k := Evicted(l, blobs);
  }

  lemma AckBounded(l: Limits, kind: Kind, q: Queue, ids: seq<string>, now: int)
    requires QueueOk(l, kind, q, now)
    ensures var kept := Without(q.blobs, ids); QueueOk(l, kind, Queue(kept, Bytes(kept), q.waiters), now)
  {
    var kept := Without(q.blobs, ids);
    forall b | b in kept ensures BlobOk(l, kind, b, now) {
      AckIsExact(q.blobs, ids, b);
      assert b in multiset(kept);
    }
    AckIsExact(q.blobs, ids, Blob("", "", "", 0, 0, 0));
  }

  lemma QueueUsesKey(s: State, key: string, kind: Kind, q: Queue)
    ensures s.WithQueue(key, kind, q).KeysInUse() == s.KeysInUse() + {key}
  {
  }

  lemma PresenceUsesKey(s: State, key: string, p: Presence)
    ensures s.(presence := s.presence[key := p]).KeysInUse() == s.KeysInUse() + {key}
  {
  }

  lemma RoomForKey(l: Limits, s: State, key: string)
    requires |s.KeysInUse()| <= l.maxKeys && !NoRoom(l, s, key)
    ensures |s.KeysInUse() + {key}| <= l.maxKeys
  {
    if key in s.KeysInUse() {
      assert s.KeysInUse() + {key} == s.KeysInUse();
    }
  }

  lemma ReplaceQueueBounded(l: Limits, s: State, key: string, kind: Kind, q: Queue, now: int)
    requires Bounded(l, s, now) && QueueOk(l, kind, q, now)
    requires !NoRoom(l, s, key)
    ensures Bounded(l, s.WithQueue(key, kind, q), now)
  {
    var t := s.WithQueue(key, kind, q);
    RoomForKey(l, s, key);
    QueueUsesKey(s, key, kind, q);
    ReplaceQueueOk(l, s, key, kind, q, now);
  }

  lemma ReplaceQueueOk(l: Limits, s: State, key: string, kind: Kind, q: Queue, now: int)
    requires QueuesOk(l, s.queues, now) && QueueOk(l, kind, q, now)
    ensures QueuesOk(l, s.WithQueue(key, kind, q).queues, now)
  {
    var t := s.WithQueue(key, kind, q);
    forall k, kd | k in t.queues && kd in t.queues[k] ensures QueueOk(l, kd, t.queues[k][kd], now) {
      if k == key && kd == kind {
        assert t.queues[k][kd] == q;
      } else {
        assert t.queues[k][kd] == s.queues[k][kd];
      }
    }
  }

  lemma AddPresenceBounded(l: Limits, s: State, key: string, p: Presence, now: int)
    requires Bounded(l, s, now) && !NoRoom(l, s, key)
    requires p.expiresAt <= now + Max(l.defaultPresenceTTL, l.maxPresenceTTL)
    ensures Bounded(l, s.(presence := s.presence[key := p]), now)
  {
    RoomForKey(l, s, key);
    PresenceUsesKey(s, key, p);
    assert forall k | k in s.presence[key := p] :: k == key || k in s.presence;
  }

  lemma AnnounceBounded(l: Limits, s: State, now: int, key: string, p: Presence, life: int)
    requires Bounded(l, s, now) && p.expiresAt <= now + Max(l.defaultPresenceTTL, l.maxPresenceTTL)
    ensures Bounded(l, DoAnnounce(l, s, now, key, p, life).0, now)
  {
    var g := Gc(s, now);
    GcBounded(l, s, now);
    if !NoRoom(l, g, key) {
      AddPresenceBounded(l, g, key, p, now);
    }
  }

  lemma WithdrawBounded(l: Limits, s: State, now: int, key: string)
    requires Bounded(l, s, now)
    ensures Bounded(l, Gc(s.(presence := s.presence - {key}), now), now)
  {
    var w := s.(presence := s.presence - {key});
    SubsetSize(w.KeysInUse(), s.KeysInUse());
    GcBounded(l, w, now);
  }

  lemma PerformDepositBounded(l: Limits, s: State, now: int, kind: Kind, to: string, b: Blob)
    requires l.Positive() && Bounded(l, s, now) && BlobOk(l, kind, b, now)
    ensures Bounded(l, DoDeposit(l, s, now, kind, to, b).0, now)
  {
    var g := Gc(s, now);
    GcBounded(l, s, now);
    if !NoRoom(l, g, to) {
      QueueAtOk(l, g, to, kind, now);
      DepositBounded(l, kind, g.QueueAt(to, kind), b, now);
      var kept := Evict(l, g.QueueAt(to, kind).blobs + [b]);
      ReplaceQueueBounded(l, g, to, kind, Queue(kept, Bytes(kept), []), now);
    }
  }

  lemma PerformAckBounded(l: Limits, s: State, now: int, kind: Kind, key: string, ids: seq<string>)
    requires Bounded(l, s, now)
    ensures Bounded(l, DoAck(s, kind, key, ids).0, now)
  {
    if s.HasQueue(key, kind) {
      var q := s.QueueAt(key, kind);
      AckBounded(l, kind, q, ids, now);
      var kept := Without(q.blobs, ids);
      ReplaceQueueBounded(l, s, key, kind, Queue(kept, Bytes(kept), q.waiters), now);
    }
  }

  lemma ServedAnnounce(env: Env, s: State, now: int, r: Request, id: string, life: int)
    requires r.Announce? && life == TTL(r.ttl, env.limits.defaultPresenceTTL, env.limits.maxPresenceTTL)
    ensures Perform(env, s, now, r, id) ==
      DoAnnounce(env.limits, s, now, r.key, Presence(r.endpoints, r.meta, now + life), life)
  {
  }

  lemma ServedAnnounceBounded(env: Env, s: State, now: int, r: Request, id: string)
    requires r.Announce? && env.limits.Positive() && Bounded(env.limits, s, now)
    ensures Bounded(env.limits, Perform(env, s, now, r, id).0, now)
  {
    var l := env.limits;
    LifetimeBounded(r.ttl, l.defaultPresenceTTL, l.maxPresenceTTL);
    var life := TTL(r.ttl, l.defaultPresenceTTL, l.maxPresenceTTL);
    ServedAnnounce(env, s, now, r, id, life);
    AnnounceBounded(l, s, now, r.key, Presence(r.endpoints, r.meta, now + life), life);
  }

  lemma ServedDepositBounded(env: Env, s: State, now: int, r: Request, id: string)
    requires r.Deposit? && env.limits.Positive() && Bounded(env.limits, s, now)
    requires env.payloadSize(r.payload).Some? && env.payloadSize(r.payload).value <= env.limits.maxPayloadBytes
    ensures Bounded(env.limits, Perform(env, s, now, r, id).0, now)
  {
    LifetimeBounded(r.ttl, env.limits.DefaultTTL(r.kind), env.limits.MaxTTL(r.kind));
    PerformDepositBounded(env.limits, s, now, r.kind, r.to, NewBlob(env, now, r, id));
  }

  lemma PerformBounded(env: Env, s: State, now: int, r: Request, id: string)
    requires env.limits.Positive() && Bounded(env.limits, s, now)
    requires r.Deposit? ==>
      env.payloadSize(r.payload).Some? && env.payloadSize(r.payload).value <= env.limits.maxPayloadBytes
    ensures Bounded(env.limits, Perform(env, s, now, r, id).0, now)
  {
    if r.Announce? {
      ServedAnnounceBounded(env, s, now, r, id);
    } else if r.Withdraw? {
      WithdrawBounded(env.limits, s, now, r.key);
    } else if r.Deposit? {
      ServedDepositBounded(env, s, now, r, id);
    } else if r.Ack? {
      PerformAckBounded(env.limits, s, now, r.kind, r.key, r.ids);
    }
  }

  lemma FreshChangesNonces(l: Limits, s: State, now: int, id: string, nonce: string, ts: int)
    ensures CheckFresh(l, s, now, id, nonce, ts).0 == s.(nonces := CheckFresh(l, s, now, id, nonce, ts).0.nonces)
    ensures |s.nonces| <= l.maxNonces ==> |CheckFresh(l, s, now, id, nonce, ts).0.nonces| <= l.maxNonces
  {
    SubsetSize(LiveNonces(s.nonces, now).Keys, s.nonces.Keys);
  }

  lemma FreshBounded(l: Limits, s: State, now: int, id: string, nonce: string, ts: int)
    requires Bounded(l, s, now)
    ensures Bounded(l, CheckFresh(l, s, now, id, nonce, ts).0, now)
  {
    FreshChangesNonces(l, s, now, id, nonce, ts);
  }

  lemma HandleBounded(env: Env, s: State, now: int, r: Request, malformed: Option<Error>, nonceId: string, id: string)
    requires env.limits.Positive() && Bounded(env.limits, s, now)
    requires malformed.None? && r.Deposit? ==>
      env.payloadSize(r.payload).Some? && env.payloadSize(r.payload).value <= env.limits.maxPayloadBytes
    ensures Bounded(env.limits, Handle(env, s, now, r, malformed, nonceId, id).0, now)
  {
    if malformed.None? {
      FreshBounded(env.limits, s, now, nonceId, r.nonce, r.ts);
      PerformBounded(env, CheckFresh(env.limits, s, now, nonceId, r.nonce, r.ts).0, now, r, id);
    }
  }

  lemma ParkBounded(env: Env, s: State, now: int, kind: Kind, key: string)
    requires env.limits.Positive() && Bounded(env.limits, s, now)
    ensures Bounded(env.limits, Park(env, s, now, kind, key).0, now)
  {
    if Park(env, s, now, kind, key).1.Parked? {
      QueueAtOk(env.limits, s, key, kind, now);
      var q := s.QueueAt(key, kind);
      ReplaceQueueBounded(env.limits, s, key, kind, q.(waiters := q.waiters + [s.made]), now);
    }
  }

  lemma UnparkBounded(l: Limits, s: State, now: int, kind: Kind, key: string, ch: nat)
    requires l.Positive() && Bounded(l, s, now)
    ensures Bounded(l, Unpark(s, kind, key, ch), now)
  {
    if s.HasQueue(key, kind) {
      var q := s.QueueAt(key, kind);
      ReplaceQueueBounded(l, s, key, kind, q.(waiters := RemoveFirst(q.waiters, ch)), now);
    }
  }

  lemma StepBounded(env: Env, s: State, now: int, e: Event)
    requires env.limits.Positive() && Bounded(env.limits, s, now)
    ensures Bounded(env.limits, Step(env, s, now, e).0, now)
  {
    match e
    case Request(r, id) => HandleBounded(env, s, now, r, Precheck(env, r), r.NonceId(), id);
    case ParkEvent(kind, key) => ParkBounded(env, s, now, kind, key);
    case UnparkEvent(kind, key, ch) => UnparkBounded(env.limits, s, now, kind, key, ch);
  }

  /** Every state of every run is within the caps. */
  lemma {:induction false} RunBounded(env: Env, s: State, run: seq<Timed>, from: int, to: int)
    requires env.limits.Positive() && Bounded(env.limits, s, from) && Chronological(run, from, to)
    ensures Bounded(env.limits, Run(env, s, run), to)
    decreases |run|
  {
    BoundedLater(env.limits, s, from, if run == [] then to else run[0].now);
    if run != [] {
      StepBounded(env, s, run[0].now, run[0].event);
      RunBounded(env, Step(env, s, run[0].now, run[0].event).0, run[1..], run[0].now, to);
    }
  }

  lemma InitiallyBounded(l: Limits, now: int)
    requires l.Positive()
    ensures Bounded(l, INITIAL, now)
  {
    assert INITIAL.KeysInUse() == {};
  }

  // ---------- refusals ----------

  /** The presence records and queues of s, swept at `now` or as they are. */
  predicate SweptAtMost(s: State, t: State, now: int) {
    || (t.presence == s.presence && t.queues == s.queues)
    || (t.presence == LivePresence(s.presence, now) && t.queues == LiveQueues(s.queues, now))
  }

  lemma PerformRefusal(env: Env, s: State, now: int, r: Request, id: string)
    requires r.Deposit? ==> env.payloadSize(r.payload).Some?
    requires Perform(env, s, now, r, id).1.Refused?
    ensures Perform(env, s, now, r, id).0 == Gc(s, now)
  {
  }

  lemma HandleRefusal(env: Env, s: State, now: int, r: Request, malformed: Option<Error>, nonceId: string, id: string)
    requires malformed.None? && r.Deposit? ==> env.payloadSize(r.payload).Some?
    requires Handle(env, s, now, r, malformed, nonceId, id).1.Refused?
    ensures SweptAtMost(s, Handle(env, s, now, r, malformed, nonceId, id).0, now)
    ensures Handle(env, s, now, r, malformed, nonceId, id).0.closed == s.closed
  {
    if malformed.None? {
      var (s1, stale) := CheckFresh(env.limits, s, now, nonceId, r.nonce, r.ts);
      FreshChangesNonces(env.limits, s, now, nonceId, r.nonce, r.ts);
      if stale.None? {
        PerformRefusal(env, s1, now, r, id);
      }
    }
  }

  /** A refused request stores and wakes nothing: at most it sweeps away what had expired, which no reader can
      tell. */
  lemma RefusalStoresNothing(env: Env, s: State, now: int, r: Request, id: string,
                             later: int, kind: Kind, key: string)
    requires Serve(env, s, now, r, id).1.Refused? && now <= later
    ensures SweptAtMost(s, Serve(env, s, now, r, id).0, now)
    ensures Serve(env, s, now, r, id).0.closed == s.closed
    ensures Read(Serve(env, s, now, r, id).0, kind, key, later) == Read(s, kind, key, later)
    ensures Resolve(Serve(env, s, now, r, id).0, key, later) == Resolve(s, key, later)
  {
    HandleRefusal(env, s, now, r, Precheck(env, r), r.NonceId(), id);
    SweepInvisible(s, Serve(env, s, now, r, id).0, now, later, kind, key);
  }

  lemma SweepInvisible(s: State, t: State, now: int, later: int, kind: Kind, key: string)
    requires SweptAtMost(s, t, now) && now <= later
    ensures Read(t, kind, key, later) == Read(s, kind, key, later)
    ensures Resolve(t, key, later) == Resolve(s, key, later)
  {
    if !(t.presence == s.presence && t.queues == s.queues) {
      var due := s.(lastGC := None);
      GcInvisible(due, now, later, kind, key);
      assert Read(t, kind, key, later) == Read(Gc(due, now), kind, key, later);
    }
  }

  /** What keeps a key in use through any sweep: a live presence record, a live blob, or a parked waiter. */
  predicate HoldsState(s: State, key: string, now: int) {
    || Resolve(s, key, now).Some?
    || Read(s, Signal, key, now) != [] || Read(s, Mailbox, key, now) != []
    || s.QueueAt(key, Signal).waiters != [] || s.QueueAt(key, Mailbox).waiters != []
  }

  lemma HoldsStateSurvivesGc(s: State, key: string, now: int)
    requires HoldsState(s, key, now)
    ensures key in Gc(s, now).KeysInUse()
  {
    GcInvisible(s, now, now, Signal, key);
    GcInvisible(s, now, now, Mailbox, key);
    GcKeepsWaiters(s, now, Signal, key);
    GcKeepsWaiters(s, now, Mailbox, key);
    HoldingIsInUse(Gc(s, now), key, now);
  }

  lemma HoldingIsInUse(s: State, key: string, now: int)
    requires HoldsState(s, key, now)
    ensures key in s.KeysInUse()
  {
  }

  /** The key an accepted announce or deposit needs room for. */
  function Target(r: Request): string {
    if r.Deposit? then r.to else r.key
  }

  /** After the freshness check MaxKeys is the only ground for refusal, and it never hits a key that holds
      state. */
  lemma CapacityRefusesOnlyNewcomers(env: Env, s: State, now: int, r: Request, id: string)
    requires r.Deposit? ==> env.payloadSize(r.payload).Some?
    ensures Perform(env, s, now, r, id).1.Refused? <==>
      (r.Announce? || r.Deposit?) && NoRoom(env.limits, Gc(s, now), Target(r))
    ensures HoldsState(s, Target(r), now) ==> !Perform(env, s, now, r, id).1.Refused?
  {
    if HoldsState(s, Target(r), now) {
      HoldsStateSurvivesGc(s, Target(r), now);
    }
  }
}
