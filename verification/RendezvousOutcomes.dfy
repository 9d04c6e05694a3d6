/** backend/rendezvous: what a caller can tell, by Resolve and Read, after each kind of request. */
module RendezvousOutcomes {
  import opened Common
  import opened Rendezvous
  import opened RendezvousBounds

  /** No queue reads differently, now or later. */
  ghost predicate ReadsSame(s: State, t: State, now: int) {
    forall kind, key, later | now <= later :: Read(t, kind, key, later) == Read(s, kind, key, later)
  }

  ghost predicate ResolvesSame(s: State, t: State, now: int) {
    forall key, later | now <= later :: Resolve(t, key, later) == Resolve(s, key, later)
  }

  lemma GcShowsNothing(s: State, now: int)
    ensures ReadsSame(s, Gc(s, now), now) && ResolvesSame(s, Gc(s, now), now)
  {
    forall kind, key, later | now <= later ensures Read(Gc(s, now), kind, key, later) == Read(s, kind, key, later) {
      GcInvisible(s, now, later, kind, key);
    }
    forall key, later | now <= later ensures Resolve(Gc(s, now), key, later) == Resolve(s, key, later) {
      GcInvisible(s, now, later, Signal, key);
    }
  }

  /** After an announce the key resolves to what was announced until it expires, every other key as before, and no queue
      reads differently. */
  ghost predicate AnnounceShows(s: State, t: State, now: int, key: string, p: Presence) {
    && ReadsSame(s, t, now)
    && forall k, later | now <= later ::
      Resolve(t, k, later) == if k != key then Resolve(s, k, later) else if later < p.expiresAt then Some(p) else None
  }

  lemma DoAnnounceShows(l: Limits, s: State, now: int, key: string, p: Presence, life: int)
    requires DoAnnounce(l, s, now, key, p, life).1.Announced?
    ensures AnnounceShows(s, DoAnnounce(l, s, now, key, p, life).0, now, key, p)
  {
    GcShowsNothing(s, now);
    var g := Gc(s, now);
    var t := DoAnnounce(l, s, now, key, p, life).0;
    forall k, later | now <= later
      ensures Resolve(t, k, later) ==
        if k != key then Resolve(s, k, later) else if later < p.expiresAt then Some(p) else None
    {
      assert Resolve(g, k, later) == Resolve(s, k, later);
    }
    forall kind, k, later | now <= later ensures Read(t, kind, k, later) == Read(s, kind, k, later) {
      assert Read(g, kind, k, later) == Read(s, kind, k, later);
    }
  }

  /** After a withdrawal the key resolves to nothing, every other key as before, and no queue reads differently. */
  ghost predicate WithdrawShows(s: State, t: State, now: int, key: string) {
    && ReadsSame(s, t, now)
    && forall k, later | now <= later :: Resolve(t, k, later) == if k != key then Resolve(s, k, later) else None
  }

  lemma DoWithdrawShows(s: State, now: int, key: string)
    ensures WithdrawShows(s, Gc(s.(presence := s.presence - {key}), now), now, key)
  {
    var w := s.(presence := s.presence - {key});
    var t := Gc(w, now);
    GcShowsNothing(w, now);
    forall k, later | now <= later ensures Resolve(t, k, later) == if k != key then Resolve(s, k, later) else None {
      assert Resolve(t, k, later) == Resolve(w, k, later);
    }
    forall kind, k, later | now <= later ensures Read(t, kind, k, later) == Read(s, kind, k, later) {
      assert Read(t, kind, k, later) == Read(w, kind, k, later);
    }
  }

  lemma {:induction false} LiveWithout(blobs: seq<Blob>, ids: seq<string>, now: int)
    ensures Live(Without(blobs, ids), now) == Without(Live(blobs, now), ids)
  {
    if blobs != [] {
      LiveWithout(blobs[1..], ids, now);
      var first := if blobs[0].expiresAt > now then [blobs[0]] else [];
      var kept := if blobs[0].id in ids then [] else [blobs[0]];
      LiveOfConcat(kept, Without(blobs[1..], ids), now);
      AckOfConcat(first, Live(blobs[1..], now), ids);
    }
  }

  /** After an ack the acked queue reads without the named blobs, everything else as before. */
  ghost predicate AckShows(s: State, t: State, now: int, kind: Kind, key: string, ids: seq<string>) {
    && ResolvesSame(s, t, now)
    && forall d, k, later | now <= later ::
      Read(t, d, k, later) == if (k, d) == (key, kind) then Without(Read(s, d, k, later), ids) else Read(s, d, k, later)
  }

  lemma DoAckShows(s: State, now: int, kind: Kind, key: string, ids: seq<string>)
    ensures AckShows(s, DoAck(s, kind, key, ids).0, now, kind, key, ids)
  {
    var t := DoAck(s, kind, key, ids).0;
    forall d, k, later | now <= later
      ensures Read(t, d, k, later) ==
        if (k, d) == (key, kind) then Without(Read(s, d, k, later), ids) else Read(s, d, k, later)
    {
      if s.HasQueue(key, kind) {
        var kept := Without(s.QueueAt(key, kind).blobs, ids);
        ReplacedQueue(s, key, kind, Queue(kept, Bytes(kept), s.QueueAt(key, kind).waiters));
        LiveWithout(s.QueueAt(key, kind).blobs, ids, later);
      }
    }
  }

  /** After a deposit its queue reads as the unexpired part of the longest suffix of old ++ [new] within the caps,
      everything else as before. */
  ghost predicate DepositShows(l: Limits, s: State, t: State, now: int, kind: Kind, to: string, b: Blob) {
    && ResolvesSame(s, t, now)
    && LongestFit(l, Gc(s, now).QueueAt(to, kind).blobs + [b], t.QueueAt(to, kind).blobs)
    && forall d, k, later | now <= later && (k, d) != (to, kind) :: Read(t, d, k, later) == Read(s, d, k, later)
  }

  lemma DoDepositShows(l: Limits, s: State, now: int, kind: Kind, to: string, b: Blob)
    requires l.Positive() && DoDeposit(l, s, now, kind, to, b).1.Deposited?
    ensures DepositShows(l, s, DoDeposit(l, s, now, kind, to, b).0, now, kind, to, b)
  {
    var t := DoDeposit(l, s, now, kind, to, b).0;
    GcShowsNothing(s, now);
    DepositOutcome(l, s, now, kind, to, b, to, kind);
    forall key, later | now <= later ensures Resolve(t, key, later) == Resolve(s, key, later) {
      assert Resolve(Gc(s, now), key, later) == Resolve(s, key, later);
    }
    forall d, k, later | now <= later && (k, d) != (to, kind) ensures Read(t, d, k, later) == Read(s, d, k, later) {
      DepositOutcome(l, s, now, kind, to, b, k, d);
      assert Read(Gc(s, now), d, k, later) == Read(s, d, k, later);
    }
  }

  /** What an accepted request shows, by its kind. */
  ghost predicate Shows(env: Env, s: State, t: State, now: int, r: Request, id: string, reply: Reply)
    requires r.Deposit? ==> env.payloadSize(r.payload).Some?
  {
    var l := env.limits;
    match r
    case Announce(key, endpoints, meta, ttl, _, _, _) =>
      var expiry := now + TTL(ttl, l.defaultPresenceTTL, l.maxPresenceTTL);
      AnnounceShows(s, t, now, key, Presence(endpoints, meta, expiry)) && reply.Announced? &&
      reply.expiresAt == expiry / SECOND
    case Withdraw(key, _, _, _) =>
      WithdrawShows(s, t, now, key) && reply == Withdrawn
    case Deposit(kind, _, _, to, _, _, _, _, _) =>
      DepositShows(l, s, t, now, kind, to, NewBlob(env, now, r, id)) && reply.Deposited? && reply.id == id
    case Poll(_, _, _, _, _, _, _) =>
      ReadsSame(s, t, now) && ResolvesSame(s, t, now) && reply.Polled? && 0 <= reply.wait <= l.maxWait
    case Ack(kind, _, key, ids, _, _, _) =>
      AckShows(s, t, now, kind, key, ids) && reply.Acked? &&
      reply.deleted + |t.QueueAt(key, kind).blobs| == |s.QueueAt(key, kind).blobs|
  }

  lemma PerformShows(env: Env, s: State, now: int, r: Request, id: string)
    requires env.limits.Positive() && (r.Deposit? ==> env.payloadSize(r.payload).Some?)
    requires !Perform(env, s, now, r, id).1.Refused?
    ensures Shows(env, s, Perform(env, s, now, r, id).0, now, r, id, Perform(env, s, now, r, id).1)
  {
    var l := env.limits;
    match r
    case Announce(key, endpoints, meta, ttl, _, _, _) =>
      var life := TTL(ttl, l.defaultPresenceTTL, l.maxPresenceTTL);
      DoAnnounceShows(l, s, now, key, Presence(endpoints, meta, now + life), life);
    case Withdraw(key, _, _, _) => DoWithdrawShows(s, now, key);
    case Deposit(kind, _, _, to, _, _, _, _, _) => DoDepositShows(l, s, now, kind, to, NewBlob(env, now, r, id));
    case Poll(_, _, _, _, _, _, _) =>
    case Ack(kind, _, key, ids, _, _, _) =>
      DoAckShows(s, now, kind, key, ids);
      AckCount(s, kind, key, ids);
  }

  lemma AckCount(s: State, kind: Kind, key: string, ids: seq<string>)
    ensures var t := DoAck(s, kind, key, ids);
      t.1.Acked? && t.1.deleted + |t.0.QueueAt(key, kind).blobs| == |s.QueueAt(key, kind).blobs|
  {
    if s.HasQueue(key, kind) {
      var q := s.QueueAt(key, kind);
      var kept := Without(q.blobs, ids);
      ReplacedQueue(s, key, kind, Queue(kept, Bytes(kept), q.waiters));
      AckIsExact(q.blobs, ids, Blob("", "", "", 0, 0, 0));
    }
  }

  lemma SameButNonces(env: Env, s: State, u: State, t: State, now: int, r: Request, id: string, reply: Reply)
    requires r.Deposit? ==> env.payloadSize(r.payload).Some?
    requires u == s.(nonces := u.nonces) && Shows(env, u, t, now, r, id, reply)
    ensures Shows(env, s, t, now, r, id, reply)
  {
    forall kind, key ensures u.QueueAt(key, kind) == s.QueueAt(key, kind) {
    }
    forall kind, key, later ensures Read(u, kind, key, later) == Read(s, kind, key, later) {
    }
    forall key, later ensures Resolve(u, key, later) == Resolve(s, key, later) {
    }
    forall kind, key ensures Gc(u, now).QueueAt(key, kind) == Gc(s, now).QueueAt(key, kind) {
    }
  }

  lemma HandleShows(env: Env, s: State, now: int, r: Request, malformed: Option<Error>, nonceId: string, id: string)
    requires env.limits.Positive() && (malformed.None? && r.Deposit? ==> env.payloadSize(r.payload).Some?)
    requires !Handle(env, s, now, r, malformed, nonceId, id).1.Refused?
    ensures r.Deposit? ==> env.payloadSize(r.payload).Some?
    ensures var (t, reply) := Handle(env, s, now, r, malformed, nonceId, id); Shows(env, s, t, now, r, id, reply)
  {
    var u := CheckFresh(env.limits, s, now, nonceId, r.nonce, r.ts).0;
    FreshChangesNonces(env.limits, s, now, nonceId, r.nonce, r.ts);
    PerformShows(env, u, now, r, id);
    var (t, reply) := Handle(env, s, now, r, malformed, nonceId, id);
    SameButNonces(env, s, u, t, now, r, id, reply);
  }

  /** Everything a caller can later tell about an accepted request is what the protocol says of its kind. */
  lemma AcceptedShows(env: Env, s: State, now: int, r: Request, id: string)
    requires env.limits.Positive() && !Serve(env, s, now, r, id).1.Refused?
    ensures r.Deposit? ==> env.payloadSize(r.payload).Some?
    ensures var (t, reply) := Serve(env, s, now, r, id); Shows(env, s, t, now, r, id, reply)
  {
    HandleShows(env, s, now, r, Precheck(env, r), r.NonceId(), id);
  }

  /** A requested lifetime that fits the protocol is honoured up to the maximum. Asking for nothing gives
      the default. */
  lemma LifetimeHonoured(ttl: int, default: int, max: int)
    requires 0 <= ttl <= MAX_INT64 / SECOND && max > 0
    ensures ttl > 0 ==> TTL(ttl, default, max) == if ttl * SECOND <= max then ttl * SECOND else max
    ensures TTL(0, default, max) == default
  {
    assert ttl * SECOND <= MAX_INT64;
  }

  // ---------- field by field ----------

  /** A lifetime of ttl requested seconds: cut to the maximum, or the default when nothing or less was asked for. A
      request whose nanoseconds overflow an int64 still gets a positive lifetime within the larger bound. */
  predicate Granted(life: int, ttl: int64, default: int, max: int) {
    && (0 < ttl <= MAX_INT64 / SECOND ==> life == if ttl * SECOND < max then ttl * SECOND else max)
    && (MIN_INT64 / SECOND < ttl <= 0 ==> life == default)
    && 0 < life && (life <= default || life <= max)
  }

  lemma TTLIsGranted(ttl: int64, default: int, max: int)
    requires default > 0 && max > 0
    ensures Granted(TTL(ttl, default, max), ttl, default, max)
  {
    LifetimeBounded(ttl, default, max);
    if MIN_INT64 / SECOND < ttl <= MAX_INT64 / SECOND {
      assert IsInt64(ttl * SECOND);
    }
  }

  /** b is what the deposit r asks to be queued, under this id, from now on. */
  predicate IsBlobOf(env: Env, b: Blob, now: int, r: Request, id: string) {
    && r.Deposit? && b.id == id && b.from == r.from && b.payload == r.payload && b.depositAt == now
    && env.payloadSize(r.payload) == Some(b.size)
    && (r.kind == Signal ==>
         Granted(b.expiresAt - now, r.ttl, env.limits.defaultSignalTTL, env.limits.maxSignalTTL))
    && (r.kind == Mailbox ==>
         Granted(b.expiresAt - now, r.ttl, env.limits.defaultMailboxTTL, env.limits.maxMailboxTTL))
  }

  lemma NewBlobIsBlobOf(env: Env, now: int, r: Request, id: string)
    requires env.limits.Positive() && r.Deposit? && env.payloadSize(r.payload).Some?
    ensures IsBlobOf(env, NewBlob(env, now, r, id), now, r, id)
  {
    TTLIsGranted(r.ttl, env.limits.DefaultTTL(r.kind), env.limits.MaxTTL(r.kind));
  }

  /** Until b expires, the queue reads as some blobs and then b. */
  ghost predicate ReadsLast(t: State, kind: Kind, to: string, now: int, b: Blob) {
    forall later | now <= later < b.expiresAt ::
      var read := Read(t, kind, to, later); read != [] && read[|read| - 1] == b
  }

  /** b is what the answered deposit asked for. If it is within the byte cap its queue reads with it at the end until
      just the instant that the sender was told, and otherwise the queue is left empty. */
  ghost predicate QueuedAsAsked(env: Env, t: State, now: int, r: Request, id: string, reply: Reply, b: Blob) {
    && IsBlobOf(env, b, now, r, id)
    && reply == Deposited(id, b.expiresAt / SECOND)
    && (b.size <= env.limits.maxQueueBytes ==> ReadsLast(t, r.kind, r.to, now, b))
    && (b.size > env.limits.maxQueueBytes ==> forall later :: Read(t, r.kind, r.to, later) == [])
  }

  /** After an answered deposit the queue shows exactly what was sent. */
  lemma DepositShown(env: Env, s: State, now: int, r: Request, id: string)
    requires env.limits.Positive() && r.Deposit? && Serve(env, s, now, r, id).1.Deposited?
    ensures var (t, reply) := Serve(env, s, now, r, id); exists b :: QueuedAsAsked(env, t, now, r, id, reply, b)
  {
    AcceptedShows(env, s, now, r, id);
    var b := NewBlob(env, now, r, id);
    NewBlobIsBlobOf(env, now, r, id);
    DepositReply(env, s, now, r, id);
    var (t, reply) := Serve(env, s, now, r, id);
    var before := Gc(s, now).QueueAt(r.to, r.kind).blobs;
    QueueEndsWith(env.limits, before, t.QueueAt(r.to, r.kind).blobs, b);
    if b.size <= env.limits.maxQueueBytes {
      QueueReadsLast(t, r.kind, r.to, now, b);
    }
    assert QueuedAsAsked(env, t, now, r, id, reply, b);
  }

  lemma QueueReadsLast(t: State, kind: Kind, to: string, now: int, b: Blob)
    requires var blobs := t.QueueAt(to, kind).blobs; blobs != [] && blobs[|blobs| - 1] == b
    ensures ReadsLast(t, kind, to, now, b)
  {
    forall later | now <= later < b.expiresAt
      ensures var read := Read(t, kind, to, later); read != [] && read[|read| - 1] == b
    {
      LastStaysLast(t.QueueAt(to, kind).blobs, b, later);
    }
  }

  lemma DepositReply(env: Env, s: State, now: int, r: Request, id: string)
    requires env.limits.Positive() && r.Deposit? && Serve(env, s, now, r, id).1.Deposited?
    ensures env.payloadSize(r.payload).Some?
    ensures Serve(env, s, now, r, id).1 == Deposited(id, NewBlob(env, now, r, id).expiresAt / SECOND)
  {
    AcceptedShows(env, s, now, r, id);
  }

  lemma QueueEndsWith(l: Limits, before: seq<Blob>, kept: seq<Blob>, b: Blob)
    requires l.Positive() && LongestFit(l, before + [b], kept)
    ensures if b.size <= l.maxQueueBytes then kept != [] && kept[|kept| - 1] == b else kept == []
  {
    var all := before + [b];
    var k :| 0 <= k <= |all| && kept == all[k..] && Fits(l, all[k..]) && forall j | 0 <= j < k :: !Fits(l, all[j..]);
    assert all[|before|..] == [b] && Bytes([b]) == b.size + Bytes([b][1..]);
    if k < |all| {
      assert all[k..] == all[k..|before|] + [b];
      BytesOfConcat(all[k..|before|], [b]);
    }
  }

  lemma LastStaysLast(blobs: seq<Blob>, b: Blob, later: int)
    requires blobs != [] && blobs[|blobs| - 1] == b && later < b.expiresAt
    ensures Live(blobs, later) != [] && Live(blobs, later)[|Live(blobs, later)| - 1] == b
  {
    var n := |blobs| - 1;
    assert blobs == blobs[..n] + [b];
    LiveOfConcat(blobs[..n], [b], later);
    assert Live([b], later) == [b] + Live([b][1..], later);
  }

  /** After an answered announce the key resolves to exactly what was announced, until just the instant that the
      caller was told; the granted lifetime comes back in seconds. */
  lemma AnnounceShown(env: Env, s: State, now: int, r: Request, id: string) returns (p: Presence)
    requires env.limits.Positive() && r.Announce? && Serve(env, s, now, r, id).1.Announced?
    ensures p.endpoints == r.endpoints && p.meta == r.meta
    ensures Granted(p.expiresAt - now, r.ttl, env.limits.defaultPresenceTTL, env.limits.maxPresenceTTL)
    ensures var (t, reply) := Serve(env, s, now, r, id);
      && reply.ttl == (p.expiresAt - now) / SECOND && reply.expiresAt == p.expiresAt / SECOND
      && forall later | now <= later ::
        Resolve(t, r.key, later) == if later < p.expiresAt then Some(p) else None
  {
    var l := env.limits;
    var life := TTL(r.ttl, l.defaultPresenceTTL, l.maxPresenceTTL);
    TTLIsGranted(r.ttl, l.defaultPresenceTTL, l.maxPresenceTTL);
    p := Presence(r.endpoints, r.meta, now + life);
    AnnounceHandled(env, s, now, r, Precheck(env, r), r.NonceId(), id, life, p);
  }

  lemma AnnounceHandled(env: Env, s: State, now: int, r: Request, malformed: Option<Error>, nonceId: string, id: string,
                        life: int, p: Presence)
    requires env.limits.Positive() && r.Announce? && Handle(env, s, now, r, malformed, nonceId, id).1.Announced?
    requires life == TTL(r.ttl, env.limits.defaultPresenceTTL, env.limits.maxPresenceTTL)
    requires p == Presence(r.endpoints, r.meta, now + life)
    ensures var (t, reply) := Handle(env, s, now, r, malformed, nonceId, id);
      && reply.ttl == life / SECOND && reply.expiresAt == p.expiresAt / SECOND
      && forall later | now <= later ::
        Resolve(t, r.key, later) == if later < p.expiresAt then Some(p) else None
  {
    HandleShows(env, s, now, r, malformed, nonceId, id);
    AnnounceReply(env, s, now, r, malformed, nonceId, id, life);
  }

  lemma AnnounceReply(env: Env, s: State, now: int, r: Request, malformed: Option<Error>, nonceId: string, id: string,
                      life: int)
    requires r.Announce? && life == TTL(r.ttl, env.limits.defaultPresenceTTL, env.limits.maxPresenceTTL)
    requires Handle(env, s, now, r, malformed, nonceId, id).1.Announced?
    ensures Handle(env, s, now, r, malformed, nonceId, id).1.ttl == life / SECOND
  {
  }

  /** A wait of at most the maximum is honoured, a longer one cut to it, and a negative one is no wait. */
  lemma PollShown(env: Env, s: State, now: int, r: Request, id: string)
    requires env.limits.Positive() && r.Poll? && Serve(env, s, now, r, id).1.Polled?
    ensures var wait := Serve(env, s, now, r, id).1.wait;
      && (0 <= r.wait <= MAX_INT64 / SECOND ==>
           wait == if r.wait * SECOND < env.limits.maxWait then r.wait * SECOND else env.limits.maxWait)
      && (MIN_INT64 / SECOND < r.wait < 0 ==> wait == 0)
  {
    PollReply(env, s, now, r, Precheck(env, r), r.NonceId(), id);
    if MIN_INT64 / SECOND < r.wait <= MAX_INT64 / SECOND {
      assert IsInt64(r.wait * SECOND);
    }
  }

  lemma PollReply(env: Env, s: State, now: int, r: Request, malformed: Option<Error>, nonceId: string, id: string)
    requires r.Poll? && Handle(env, s, now, r, malformed, nonceId, id).1.Polled?
    ensures Handle(env, s, now, r, malformed, nonceId, id).1.wait == WaitFor(env.limits, r.wait)
  {
  }
}
