/** backend/rendezvous: parked long-pollers. A channel is made by park, and closed by the deposit that wakes it. */
module RendezvousWaiters {
  import opened Common
  import opened Rendezvous
  import RendezvousBounds

  predicate Waits(s: State, key: string, kind: Kind, ch: nat) {
    ch in s.QueueAt(key, kind).waiters
  }

  /** A channel waits in at most one place, is never both waiting and closed, and is closed at most once. */
  ghost predicate ChannelsOk(s: State) {
    && (forall key, kind :: NoDuplicates(s.QueueAt(key, kind).waiters))
    && (forall key, kind, ch: nat :: Waits(s, key, kind, ch) ==> ch < s.made && ch !in s.closed)
    && (forall k1, d1, k2, d2, ch: nat :: Waits(s, k1, d1, ch) && Waits(s, k2, d2, ch) ==> k1 == k2 && d1 == d2)
    && NoDuplicates(s.closed)
    && (forall ch | ch in s.closed :: ch < s.made)
  }

  ghost predicate SameWaiters(s: State, t: State) {
    && t.made == s.made && t.closed == s.closed
    && forall key, kind :: t.QueueAt(key, kind).waiters == s.QueueAt(key, kind).waiters
  }

  lemma SameWaitersOk(s: State, t: State)
    requires ChannelsOk(s) && SameWaiters(s, t)
    ensures ChannelsOk(t)
  {
    forall key, kind ensures NoDuplicates(t.QueueAt(key, kind).waiters) {
      assert NoDuplicates(s.QueueAt(key, kind).waiters);
    }
    assert forall key, kind, ch: nat :: Waits(t, key, kind, ch) == Waits(s, key, kind, ch);
  }

  lemma GcKeepsAllWaiters(s: State, now: int)
    ensures SameWaiters(s, Gc(s, now))
  {
    forall key, kind ensures Gc(s, now).QueueAt(key, kind).waiters == s.QueueAt(key, kind).waiters {
      RendezvousBounds.GcKeepsWaiters(s, now, kind, key);
    }
  }

  /** What is closed when blobs arrive at (key, kind): everyone waiting there, in order, and nobody else. */
  ghost predicate Woken(s: State, t: State, key: string, kind: Kind) {
    && t.made == s.made
    && t.closed == s.closed + s.QueueAt(key, kind).waiters
    && t.QueueAt(key, kind).waiters == []
    && forall k, d | (k, d) != (key, kind) :: t.QueueAt(k, d).waiters == s.QueueAt(k, d).waiters
  }

  lemma WokenOk(s: State, t: State, key: string, kind: Kind)
    requires ChannelsOk(s) && Woken(s, t, key, kind)
    ensures ChannelsOk(t)
  {
    var woken := s.QueueAt(key, kind).waiters;
    forall k, d ensures NoDuplicates(t.QueueAt(k, d).waiters) {
      assert NoDuplicates(s.QueueAt(k, d).waiters);
    }
    forall k, d, ch: nat | Waits(t, k, d, ch) ensures Waits(s, k, d, ch) && (k, d) != (key, kind) {
    }
    assert forall ch | ch in woken :: Waits(s, key, kind, ch);
    assert NoDuplicates(woken);
    assert forall i | 0 <= i < |woken| :: woken[i] in woken;
    assert forall i | 0 <= i < |s.closed| :: s.closed[i] in s.closed;
  }

  lemma DoDepositWakes(l: Limits, s: State, now: int, kind: Kind, to: string, b: Blob)
    ensures var (t, reply) := DoDeposit(l, s, now, kind, to, b);
      if reply.Deposited? then Woken(s, t, to, kind) else SameWaiters(s, t)
  {
    GcKeepsAllWaiters(s, now);
    var g := Gc(s, now);
    var kept := Evict(l, g.QueueAt(to, kind).blobs + [b]);
    RendezvousBounds.ReplacedQueue(g, to, kind, Queue(kept, Bytes(kept), []));
    var t := g.WithQueue(to, kind, Queue(kept, Bytes(kept), [])).(closed := g.closed + g.QueueAt(to, kind).waiters);
    assert Woken(g, t, to, kind);
  }

  lemma AckKeepsWaiters(s: State, kind: Kind, key: string, ids: seq<string>)
    ensures SameWaiters(s, DoAck(s, kind, key, ids).0)
  {
  }

  lemma AnnounceKeepsWaiters(l: Limits, s: State, now: int, key: string, p: Presence, life: int)
    ensures SameWaiters(s, DoAnnounce(l, s, now, key, p, life).0)
  {
    GcKeepsAllWaiters(s, now);
  }

  lemma WithdrawKeepsWaiters(s: State, now: int, key: string)
    ensures SameWaiters(s, Gc(s.(presence := s.presence - {key}), now))
  {
    GcKeepsAllWaiters(s.(presence := s.presence - {key}), now);
  }

  /** A request wakes the queue of an accepted deposit, and leaves every waiter alone otherwise. */
  ghost predicate RequestWakes(s: State, t: State, r: Request, reply: Reply) {
    if r.Deposit? && reply.Deposited? then Woken(s, t, r.to, r.kind) else SameWaiters(s, t)
  }

  lemma PerformWakes(env: Env, s: State, now: int, r: Request, id: string)
    requires r.Deposit? ==> env.payloadSize(r.payload).Some?
    ensures RequestWakes(s, Perform(env, s, now, r, id).0, r, Perform(env, s, now, r, id).1)
  {
    if r.Announce? {
      var life := TTL(r.ttl, env.limits.defaultPresenceTTL, env.limits.maxPresenceTTL);
      RendezvousBounds.ServedAnnounce(env, s, now, r, id, life);
      AnnounceKeepsWaiters(env.limits, s, now, r.key, Presence(r.endpoints, r.meta, now + life), life);
    } else if r.Withdraw? {
      WithdrawKeepsWaiters(s, now, r.key);
    } else if r.Deposit? {
      DoDepositWakes(env.limits, s, now, r.kind, r.to, NewBlob(env, now, r, id));
    } else if r.Ack? {
      AckKeepsWaiters(s, r.kind, r.key, r.ids);
    }
  }

  lemma HandleWakes(env: Env, s: State, now: int, r: Request, malformed: Option<Error>, nonceId: string, id: string)
    requires malformed.None? && r.Deposit? ==> env.payloadSize(r.payload).Some?
    ensures var (t, reply) := Handle(env, s, now, r, malformed, nonceId, id); RequestWakes(s, t, r, reply)
  {
    if malformed.None? {
      var (s1, stale) := CheckFresh(env.limits, s, now, nonceId, r.nonce, r.ts);
      RendezvousBounds.FreshChangesNonces(env.limits, s, now, nonceId, r.nonce, r.ts);
      assert SameWaiters(s, s1);
      PerformWakes(env, s1, now, r, id);
    }
  }

  lemma ServeWakes(env: Env, s: State, now: int, r: Request, id: string)
    ensures var (t, reply) := Serve(env, s, now, r, id); RequestWakes(s, t, r, reply)
  {
    HandleWakes(env, s, now, r, Precheck(env, r), r.NonceId(), id);
  }

  lemma {:induction false} RemoveFirstRemovesOne(waiters: seq<nat>, ch: nat)
    requires NoDuplicates(waiters)
    ensures NoDuplicates(RemoveFirst(waiters, ch))
    ensures forall c :: c in RemoveFirst(waiters, ch) <==> c in waiters && c != ch
  {
    if waiters != [] {
      UnfoldFirst(waiters);
      assert forall i | 0 < i < |waiters| :: waiters[i] == waiters[1..][i - 1];
      if waiters[0] != ch {
        assert NoDuplicates(waiters[1..]);
        RemoveFirstRemovesOne(waiters[1..], ch);
        var rest := RemoveFirst(waiters[1..], ch);
        assert forall i | 0 <= i < |rest| :: rest[i] in rest;
        assert waiters[0] !in waiters[1..];
      } else {
        assert RemoveFirst(waiters, ch) == waiters[1..];
        assert ch !in waiters[1..];
      }
    }
  }

  lemma UnparkWaiters(s: State, kind: Kind, key: string, ch: nat)
    requires ChannelsOk(s)
    ensures forall k, d, c: nat ::
      Waits(Unpark(s, kind, key, ch), k, d, c) <==> Waits(s, k, d, c) && (k, d, c) != (key, kind, ch)
    ensures ChannelsOk(Unpark(s, kind, key, ch))
  {
    var t := Unpark(s, kind, key, ch);
    var q := s.QueueAt(key, kind);
    assert NoDuplicates(q.waiters);
    RemoveFirstRemovesOne(q.waiters, ch);
    forall k, d
      ensures t.QueueAt(k, d).waiters ==
        if (k, d) == (key, kind) then RemoveFirst(q.waiters, ch) else s.QueueAt(k, d).waiters
      ensures NoDuplicates(t.QueueAt(k, d).waiters)
    {
      assert NoDuplicates(s.QueueAt(k, d).waiters);
    }
    forall k, d, c: nat ensures Waits(t, k, d, c) <==> Waits(s, k, d, c) && (k, d, c) != (key, kind, ch) {
    }
  }

  /** t is s with one more waiter, on a new channel. */
  ghost predicate Joined(s: State, t: State, key: string, kind: Kind) {
    && t.made == s.made + 1 && t.closed == s.closed
    && forall k, d :: t.QueueAt(k, d).waiters ==
         if (k, d) == (key, kind) then s.QueueAt(k, d).waiters + [s.made] else s.QueueAt(k, d).waiters
  }

  lemma JoinedOk(s: State, t: State, key: string, kind: Kind)
    requires ChannelsOk(s) && Joined(s, t, key, kind)
    ensures ChannelsOk(t)
    ensures forall k, d, c: nat ::
      Waits(t, k, d, c) <==> Waits(s, k, d, c) || (k, d, c) == (key, kind, s.made)
  {
    forall k, d ensures NoDuplicates(t.QueueAt(k, d).waiters) {
      JoinedQueue(s, t, key, kind, k, d);
    }
    forall k, d, c: nat
      ensures Waits(t, k, d, c) <==> Waits(s, k, d, c) || (k, d, c) == (key, kind, s.made)
    {
      JoinedWaits(s, t, key, kind, k, d, c);
    }
  }

  lemma JoinedQueue(s: State, t: State, key: string, kind: Kind, k: string, d: Kind)
    requires ChannelsOk(s) && Joined(s, t, key, kind)
    ensures NoDuplicates(t.QueueAt(k, d).waiters)
  {
    var w := s.QueueAt(k, d).waiters;
    assert NoDuplicates(w);
    assert forall i | 0 <= i < |w| :: Waits(s, k, d, w[i]);
  }

  lemma JoinedWaits(s: State, t: State, key: string, kind: Kind, k: string, d: Kind, c: nat)
    requires Joined(s, t, key, kind)
    ensures Waits(t, k, d, c) <==> Waits(s, k, d, c) || (k, d, c) == (key, kind, s.made)
  {
    assert t.QueueAt(k, d).waiters ==
      if (k, d) == (key, kind) then s.QueueAt(k, d).waiters + [s.made] else s.QueueAt(k, d).waiters;
  }

  /** park adds the caller on a channel of its own, unless it refuses to block. */
  lemma ParkJoins(env: Env, s: State, now: int, kind: Kind, key: string)
    ensures var (t, reply) := Park(env, s, now, kind, key);
      (reply == Parked(s.made) && Joined(s, t, key, kind)) || (reply.NotParked? && t == s)
  {
    var q := s.QueueAt(key, kind);
    RendezvousBounds.ReplacedQueue(s, key, kind, q.(waiters := q.waiters + [s.made]));
  }

  /** The step ends the wait of ch at (key, kind): it unparks it, or it is the deposit that closes it. */
  ghost predicate EndsWait(env: Env, s: State, now: int, e: Event, key: string, kind: Kind, ch: nat) {
    var (t, reply) := Step(env, s, now, e);
    || e == UnparkEvent(kind, key, ch)
    || (e.Request? && e.r.Deposit? && e.r.to == key && e.r.kind == kind && reply.Deposited?
        && ch !in s.closed && ch in t.closed)
  }

  lemma StepWaiters(env: Env, s: State, now: int, e: Event)
    requires ChannelsOk(s)
    ensures ChannelsOk(Step(env, s, now, e).0)
    ensures s.closed <= Step(env, s, now, e).0.closed
    ensures forall key, kind, ch: nat | Waits(s, key, kind, ch) ::
      Waits(Step(env, s, now, e).0, key, kind, ch) || EndsWait(env, s, now, e, key, kind, ch)
  {
    match e
    case Request(r, id) =>
      var (t, reply) := Step(env, s, now, e);
      ServeWakes(env, s, now, r, id);
      if r.Deposit? && reply.Deposited? {
        WokenOk(s, t, r.to, r.kind);
      } else {
        SameWaitersOk(s, t);
      }
    case ParkEvent(kind, key) =>
      ParkJoins(env, s, now, kind, key);
      var (t, reply) := Park(env, s, now, kind, key);
      if reply.Parked? {
        JoinedOk(s, t, key, kind);
      }
    case UnparkEvent(kind, key, ch) => UnparkWaiters(s, kind, key, ch);
  }

  lemma InitialChannelsOk()
    ensures ChannelsOk(INITIAL)
  {
    assert forall key, kind :: INITIAL.QueueAt(key, kind).waiters == [];
  }

  /** No run closes a channel twice or lets one wait in two places. */
  lemma {:induction false} RunChannelsOk(env: Env, s: State, run: seq<Timed>)
    requires ChannelsOk(s)
    ensures ChannelsOk(Run(env, s, run))
    decreases |run|
  {
    if run != [] {
      StepWaiters(env, s, run[0].now, run[0].event);
      RunChannelsOk(env, Step(env, s, run[0].now, run[0].event).0, run[1..]);
    }
  }

  /** In particular in every state that the service can reach. */
  lemma ReachableChannelsOk(env: Env, run: seq<Timed>)
    ensures ChannelsOk(Run(env, INITIAL, run))
  {
    InitialChannelsOk();
    RunChannelsOk(env, INITIAL, run);
  }

  /** No wake-up is lost: whatever happens, a parked waiter keeps its place in its queue until it is unparked or
      a deposit to that very queue closes its channel. */
  lemma {:induction false} WaiterStaysUntilWoken(env: Env, s: State, run: seq<Timed>, key: string, kind: Kind, ch: nat)
    requires ChannelsOk(s) && Waits(s, key, kind, ch)
    ensures Waits(Run(env, s, run), key, kind, ch) ||
      exists i :: 0 <= i < |run| && EndsWait(env, Run(env, s, run[..i]), run[i].now, run[i].event, key, kind, ch)
    decreases |run|
  {
    if run != [] {
      var t := Step(env, s, run[0].now, run[0].event).0;
      StepWaiters(env, s, run[0].now, run[0].event);
      if EndsWait(env, s, run[0].now, run[0].event, key, kind, ch) {
        assert Run(env, s, run[..0]) == s;
      } else {
        WaiterStaysUntilWoken(env, t, run[1..], key, kind, ch);
        if !Waits(Run(env, s, run), key, kind, ch) {
          var i :| 0 <= i < |run[1..]| &&
            EndsWait(env, Run(env, t, run[1..][..i]), run[1..][i].now, run[1..][i].event, key, kind, ch);
          RunOneMore(env, s, run, i);
        }
      }
    }
  }

  lemma RunOneMore(env: Env, s: State, run: seq<Timed>, i: nat)
    requires run != [] && i < |run[1..]|
    ensures run[1..][i] == run[i + 1]
    ensures Run(env, s, run[..i + 1]) == Run(env, Step(env, s, run[0].now, run[0].event).0, run[1..][..i])
  {
    assert run[..i + 1][1..] == run[1..][..i];
  }

  lemma HandleToParkedKey(env: Env, s: State, now: int, r: Request, nonceId: string, id: string, ch: nat)
    requires r.Deposit? && env.payloadSize(r.payload).Some?
    requires CheckFresh(env.limits, s, now, nonceId, r.nonce, r.ts).1.None?
    requires Waits(s, r.to, r.kind, ch)
    ensures Handle(env, s, now, r, None, nonceId, id).1.Deposited?
  {
    var s1 := CheckFresh(env.limits, s, now, nonceId, r.nonce, r.ts).0;
    RendezvousBounds.FreshChangesNonces(env.limits, s, now, nonceId, r.nonce, r.ts);
    assert s1.QueueAt(r.to, r.kind) == s.QueueAt(r.to, r.kind);
    RendezvousBounds.CapacityRefusesOnlyNewcomers(env, s1, now, r, id);
  }

  /** The next deposit that is authentic and fresh is accepted, whatever the capacity, and closes the channel of
      everyone parked at its recipient's queue. */
  lemma NextDepositWakes(env: Env, s: State, now: int, r: Request, id: string, ch: nat)
    requires ChannelsOk(s) && r.Deposit? && Accepted(env, s, now, r)
    requires Waits(s, r.to, r.kind, ch)
    ensures Serve(env, s, now, r, id).1.Deposited?
    ensures ch in Serve(env, s, now, r, id).0.closed && ch !in s.closed
    ensures Serve(env, s, now, r, id).0.QueueAt(r.to, r.kind).waiters == []
  {
    ServeWakes(env, s, now, r, id);
    HandleToParkedKey(env, s, now, r, r.NonceId(), id, ch);
  }

  // ---------- a deposit that lands before park ----------

  predicate Touches(e: Event, key: string, kind: Kind) {
    && e.Request?
    && ((e.r.Ack? && e.r.key == key && e.r.kind == kind) || (e.r.Deposit? && e.r.to == key && e.r.kind == kind))
  }

  /** Events that may take a live blob out of the queue: an ack signed by its owner, or a signed deposit that evicts
      it. */
  predicate MayRemove(env: Env, e: Event, key: string, kind: Kind) {
    Touches(e, key, kind) && SigOk(env, e.r)
  }

  lemma UnsignedIsMalformed(env: Env, r: Request)
    ensures !SigOk(env, r) ==> Precheck(env, r).Some?
  {
  }

  predicate Holds(s: State, key: string, kind: Kind, b: Blob) {
    b in s.QueueAt(key, kind).blobs
  }

  lemma GcKeepsLiveBlob(s: State, now: int, key: string, kind: Kind, b: Blob)
    requires Holds(s, key, kind, b) && now < b.expiresAt
    ensures Holds(Gc(s, now), key, kind, b)
  {
    RendezvousBounds.LiveIsExact(s.QueueAt(key, kind).blobs, now, b);
    assert kind == Signal || kind == Mailbox;
  }

  lemma DoDepositKeepsLiveBlob(l: Limits, s: State, now: int, toKind: Kind, to: string, added: Blob,
                               key: string, kind: Kind, b: Blob)
    requires Holds(s, key, kind, b) && now < b.expiresAt && (to, toKind) != (key, kind)
    ensures Holds(DoDeposit(l, s, now, toKind, to, added).0, key, kind, b)
  {
    GcKeepsLiveBlob(s, now, key, kind, b);
    var g := Gc(s, now);
    var kept := Evict(l, g.QueueAt(to, toKind).blobs + [added]);
    RendezvousBounds.ReplacedQueue(g, to, toKind, Queue(kept, Bytes(kept), []));
  }

  lemma DoAckKeepsLiveBlob(s: State, ackKind: Kind, ackKey: string, ids: seq<string>, key: string, kind: Kind, b: Blob)
    requires Holds(s, key, kind, b) && (ackKey, ackKind) != (key, kind)
    ensures Holds(DoAck(s, ackKind, ackKey, ids).0, key, kind, b)
  {
    var q := s.QueueAt(ackKey, ackKind);
    var kept := Without(q.blobs, ids);
    RendezvousBounds.ReplacedQueue(s, ackKey, ackKind, Queue(kept, Bytes(kept), q.waiters));
  }

  lemma PerformKeepsLiveBlob(env: Env, s: State, now: int, r: Request, id: string, key: string, kind: Kind, b: Blob)
    requires r.Deposit? ==> env.payloadSize(r.payload).Some?
    requires Holds(s, key, kind, b) && now < b.expiresAt && !Touches(Request(r, id), key, kind)
    ensures Holds(Perform(env, s, now, r, id).0, key, kind, b)
  {
    if r.Announce? {
      GcKeepsLiveBlob(s, now, key, kind, b);
      var life := TTL(r.ttl, env.limits.defaultPresenceTTL, env.limits.maxPresenceTTL);
      RendezvousBounds.ServedAnnounce(env, s, now, r, id, life);
    } else if r.Withdraw? {
      GcKeepsLiveBlob(s.(presence := s.presence - {r.key}), now, key, kind, b);
    } else if r.Deposit? {
      DoDepositKeepsLiveBlob(env.limits, s, now, r.kind, r.to, NewBlob(env, now, r, id), key, kind, b);
    } else if r.Ack? {
      DoAckKeepsLiveBlob(s, r.kind, r.key, r.ids, key, kind, b);
    }
  }

  lemma HandleKeepsLiveBlob(env: Env, s: State, now: int, r: Request, malformed: Option<Error>, nonceId: string,
                            id: string, key: string, kind: Kind, b: Blob)
    requires malformed.None? && r.Deposit? ==> env.payloadSize(r.payload).Some?
    requires Holds(s, key, kind, b) && now < b.expiresAt
    requires malformed.None? ==> !Touches(Request(r, id), key, kind)
    ensures Holds(Handle(env, s, now, r, malformed, nonceId, id).0, key, kind, b)
  {
    if malformed.None? {
      var (s1, stale) := CheckFresh(env.limits, s, now, nonceId, r.nonce, r.ts);
      RendezvousBounds.FreshChangesNonces(env.limits, s, now, nonceId, r.nonce, r.ts);
      assert Holds(s1, key, kind, b);
      PerformKeepsLiveBlob(env, s1, now, r, id, key, kind, b);
    }
  }

  lemma StepKeepsLiveBlob(env: Env, s: State, now: int, e: Event, key: string, kind: Kind, b: Blob)
    requires Holds(s, key, kind, b) && now < b.expiresAt && !MayRemove(env, e, key, kind)
    ensures Holds(Step(env, s, now, e).0, key, kind, b)
  {
    if e.Request? {
      UnsignedIsMalformed(env, e.r);
      HandleKeepsLiveBlob(env, s, now, e.r, Precheck(env, e.r), e.r.NonceId(), e.id, key, kind, b);
    }
  }

  lemma {:induction false} RunKeepsLiveBlob(env: Env, s: State, run: seq<Timed>, from: int, to: int,
                                            key: string, kind: Kind, b: Blob)
    requires Chronological(run, from, to) && to < b.expiresAt && Holds(s, key, kind, b)
    requires forall i | 0 <= i < |run| :: !MayRemove(env, run[i].event, key, kind)
    ensures Holds(Run(env, s, run), key, kind, b)
    decreases |run|
  {
    if run != [] {
      ChronologicalBounds(run, from, to);
      StepKeepsLiveBlob(env, s, run[0].now, run[0].event, key, kind, b);
      RunKeepsLiveBlob(env, Step(env, s, run[0].now, run[0].event).0, run[1..], run[0].now, to, key, kind, b);
    }
  }

  lemma {:induction false} ChronologicalBounds(run: seq<Timed>, from: int, to: int)
    requires Chronological(run, from, to)
    ensures from <= to
    ensures run != [] ==> run[0].now <= to
  {
    if run != [] {
      ChronologicalBounds(run[1..], run[0].now, to);
    }
  }

  /** A poller that has passed authPoll never blocks on a queue that holds a live blob: once a blob no larger than
      the byte cap is deposited, park refuses to block until the blob expires, is acked or is evicted. */
  lemma ParkRefusesAfterDeposit(env: Env, s: State, now: int, kind: Kind, to: string, b: Blob,
                                run: seq<Timed>, later: int)
    requires env.limits.Positive() && b.size <= env.limits.maxQueueBytes
    requires DoDeposit(env.limits, s, now, kind, to, b).1.Deposited?
    requires Chronological(run, now, later) && later < b.expiresAt
    requires forall i | 0 <= i < |run| :: !MayRemove(env, run[i].event, to, kind)
    ensures
      var t := Run(env, DoDeposit(env.limits, s, now, kind, to, b).0, run);
      Park(env, t, later, kind, to) == (t, NotParked) && b in Read(t, kind, to, later)
  {
    var s1 := DoDeposit(env.limits, s, now, kind, to, b).0;
    RendezvousBounds.NewestSurvives(env.limits, Gc(s, now).QueueAt(to, kind).blobs, b);
    assert Holds(s1, to, kind, b);
    RunKeepsLiveBlob(env, s1, run, now, later, to, kind, b);
    RendezvousBounds.LiveIsExact(Run(env, s1, run).QueueAt(to, kind).blobs, later, b);
  }
}
