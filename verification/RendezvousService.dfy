/** backend/rendezvous: the service object. Each method is the imperative operation; its contract ties the whole
    new state to the transition functions of Rendezvous. */
module RendezvousService {
  import opened Common
  import opened Rendezvous
  import RendezvousBounds
  import RendezvousOutcomes
  import Canonical

  /** The byte counters agree with the blobs. */
  ghost predicate Counted(queues: map<string, map<Kind, Queue>>) {
    forall key, kind | key in queues && kind in queues[key] :: CountedQueue(queues[key][kind])
  }

  ghost predicate CountedQueue(q: Queue) {
    q.bytes == Bytes(q.blobs)
  }

  lemma GcKeepsCounters(queues: map<string, map<Kind, Queue>>, now: int)
    ensures Counted(LiveQueues(queues, now))
  {
  }

  lemma BusyWith(slots: map<Kind, Queue>, kind: Kind, q: Queue)
    requires kind !in slots
    ensures AnyBusy(slots[kind := q]) <==> AnyBusy(slots) || Busy(q)
  {
    assert kind == Signal || kind == Mailbox;
  }

  /** In a sweep that began with `from` and has the keys in todo ahead of it. */
  ghost predicate Swept(from: map<string, map<Kind, Queue>>, queues: map<string, map<Kind, Queue>>, todo: set<string>,
                        now: int)
  {
    && todo <= queues.Keys <= from.Keys
    && (forall k | k in todo :: queues[k] == from[k])
    && (forall k | k in queues && k !in todo :: queues[k] == PruneSlots(from[k], now))
    && (forall k | k in from && k !in todo :: k in queues <==> AnyBusy(PruneSlots(from[k], now)))
  }

  lemma SweptNext(from: map<string, map<Kind, Queue>>, queues: map<string, map<Kind, Queue>>, todo: set<string>,
                  now: int, k: string, kept: map<Kind, Queue>)
    requires k in todo && Swept(from, queues, todo, now) && kept == PruneSlots(queues[k], now)
    ensures Swept(from, if AnyBusy(kept) then queues[k := kept] else queues - {k}, todo - {k}, now)
  {
  }

  lemma StoreTwice(s: State, key: string, kind: Kind, first: Queue, second: Queue)
    ensures s.WithQueue(key, kind, first).WithQueue(key, kind, second) == s.WithQueue(key, kind, second)
  {
    var slots := if key in s.queues then s.queues[key] else map[];
    assert slots[kind := first][kind := second] == slots[kind := second];
    assert s.queues[key := slots[kind := first]][key := slots[kind := second]] ==
      s.queues[key := slots[kind := second]];
  }

  lemma {:induction false} RemoveFirstAt(waiters: seq<nat>, ch: nat, i: nat)
    requires i <= |waiters| && ch !in waiters[..i]
    ensures i < |waiters| && waiters[i] == ch ==> RemoveFirst(waiters, ch) == waiters[..i] + waiters[i + 1..]
    ensures i == |waiters| ==> RemoveFirst(waiters, ch) == waiters
  {
    if i > 0 {
      assert waiters[0] == waiters[..i][0];
      assert waiters[1..][..i - 1] == waiters[..i][1..];
      RemoveFirstAt(waiters[1..], ch, i - 1);
      UnfoldFirst(waiters);
    }
  }

  class Service {
    const env: Env
    var presence: map<string, Presence>
    var queues: map<string, map<Kind, Queue>>
    var nonces: map<string, int>
    var lastGC: Option<int>
    var made: nat
    var closed: seq<nat>

    function St(): State
      reads this
    {
      State(presence, queues, nonces, lastGC, made, closed)
    }

    ghost predicate Valid()
      reads this
    {
      env.limits.Positive() && Counted(queues)
    }

    constructor New(limits: Limits, isKey: string -> bool, payloadSize: string -> Option<nat>,
                    verifies: (string, string, string) -> bool)
      ensures Valid() && St() == INITIAL
      ensures env == Env(WithDefaults(limits), isKey, payloadSize, verifies)
    {
      env := Env(WithDefaults(limits), isKey, payloadSize, verifies);
      presence, queues, nonces, lastGC, made, closed := map[], map[], map[], None, 0, [];
    }

    // ---------- replay cache ----------

    method GcNonces(now: int)
      modifies this`nonces
      ensures nonces == LiveNonces(old(nonces), now)
    {
      var todo := nonces.Keys;
      while todo != {}
        invariant todo <= nonces.Keys <= old(nonces).Keys
        invariant forall id | id in nonces :: nonces[id] == old(nonces)[id]
        invariant forall id | id in old(nonces) && id !in todo :: id in nonces <==> old(nonces)[id] > now
        decreases |todo|
      {
        var id :| id in todo;
        if !(nonces[id] > now) {
          nonces := nonces - {id};
        }
        todo := todo - {id};
      }
    }

    method CheckFreshness(r: Request, now: int) returns (err: Option<Error>)
      modifies this`nonces
      ensures (St(), err) == CheckFresh(env.limits, old(St()), now, r.NonceId(), r.nonce, r.ts)
    {
      var id := r.NonceId();
      err := CheckNonce(id, r.nonce, r.ts, now);
    }

    method CheckNonce(id: string, nonce: string, ts: int, now: int) returns (err: Option<Error>)
      modifies this`nonces
      ensures (St(), err) == CheckFresh(env.limits, old(St()), now, id, nonce, ts)
    {
      if nonce == "" || |nonce| > 128 {
        return Some(BadRequest);
      }
      var t := ts * SECOND;
      if t < now - env.limits.clockSkew || t > now + env.limits.clockSkew {
        return Some(Stale);
      }
      if id in nonces && nonces[id] > now {
        return Some(Replay);
      }
      if |nonces| >= env.limits.maxNonces {
        GcNonces(now);
        if |nonces| >= env.limits.maxNonces {
          return Some(Capacity);
        }
      }
      nonces := nonces[id := now + env.limits.clockSkew * 2];
      return None;
    }

    // ---------- sweep ----------

    method GcPresence(now: int)
      modifies this`presence
      ensures presence == LivePresence(old(presence), now)
    {
      var todo := presence.Keys;
      while todo != {}
        invariant todo <= presence.Keys <= old(presence).Keys
        invariant forall k | k in presence :: presence[k] == old(presence)[k]
        invariant forall k | k in old(presence) && k !in todo :: k in presence <==> old(presence)[k].expiresAt > now
        decreases |todo|
      {
        var k :| k in todo;
        if !(presence[k].expiresAt > now) {
          presence := presence - {k};
        }
        todo := todo - {k};
      }
    }

    static method KeepLive(q: Queue, now: int) returns (r: Queue)
      ensures r == PruneQueue(q, now)
    {
      var kept: seq<Blob> := [];
      var bytes := 0;
      for i := 0 to |q.blobs|
        invariant kept == Live(q.blobs[..i], now) && bytes == Bytes(kept)
      {
        var b := q.blobs[i];
        RendezvousBounds.LiveOfConcat(q.blobs[..i], [b], now);
        RendezvousBounds.BytesOfConcat(kept, [b]);
        assert q.blobs[..i + 1] == q.blobs[..i] + [b];
        assert Live([b], now) == (if b.expiresAt > now then [b] else []) + Live([b][1..], now);
        if b.expiresAt > now {
          kept := kept + [b];
          bytes := bytes + b.size;
        }
      }
      assert q.blobs[..|q.blobs|] == q.blobs;
      r := Queue(kept, bytes, q.waiters);
    }

    static method SweepSlots(slots: map<Kind, Queue>, now: int) returns (r: map<Kind, Queue>, empty: bool)
      ensures r == PruneSlots(slots, now) && empty == !AnyBusy(r)
    {
      r, empty := map[], true;
      var todo := slots.Keys;
      while todo != {}
        invariant todo <= slots.Keys && r.Keys == slots.Keys - todo
        invariant forall kind | kind in r :: r[kind] == PruneQueue(slots[kind], now)
        invariant empty == !AnyBusy(r)
        decreases |todo|
      {
        var kind :| kind in todo;
        var q := KeepLive(slots[kind], now);
        BusyWith(r, kind, q);
        r := r[kind := q];
        if |q.blobs| > 0 || |q.waiters| > 0 {
          empty := false;
        }
        todo := todo - {kind};
      }
    }

    method GcQueues(now: int)
      modifies this`queues
      ensures queues == LiveQueues(old(queues), now)
    {
      var todo := queues.Keys;
      while todo != {}
        invariant Swept(old(queues), queues, todo, now)
        decreases |todo|
      {
        var k :| k in todo;
        var kept, empty := SweepSlots(queues[k], now);
        SweptNext(old(queues), queues, todo, now, k, kept);
        queues := if empty then queues - {k} else queues[k := kept];
        todo := todo - {k};
      }
    }

    method RunGc(now: int)
      requires Valid()
      modifies this`presence, this`queues, this`nonces, this`lastGC
      ensures St() == Gc(old(St()), now)
      ensures Valid()
    {
      if lastGC.Some? && now - lastGC.value < 30 * SECOND {
        return;
      }
      lastGC := Some(now);
      GcPresence(now);
      GcQueues(now);
      GcNonces(now);
      GcKeepsCounters(old(queues), now);
    }

    // ---------- capacity ----------

    method KeyCount() returns (n: nat)
      ensures n == |St().KeysInUse()|
    {
      n := |presence|;
      var todo := queues.Keys;
      ghost var seen: set<string> := {};
      while todo != {}
        invariant todo !! seen && todo + seen == queues.Keys
        invariant n == |presence.Keys + seen|
        decreases |todo|
      {
        var k :| k in todo;
        assert presence.Keys + (seen + {k}) == (presence.Keys + seen) + {k};
        if k in presence {
          assert presence.Keys + (seen + {k}) == presence.Keys + seen;
        } else {
          n := n + 1;
        }
        todo, seen := todo - {k}, seen + {k};
      }
      assert seen == queues.Keys;
    }

    /** Opens the queue of (key, kind), unless that needs a new key and MaxKeys are in use. */
    method QueueFor(key: string, kind: Kind) returns (q: Option<Queue>)
      requires Valid()
      modifies this`queues
      ensures q.None? <==> NoRoom(env.limits, old(St()), key)
      ensures q.None? ==> St() == old(St())
      ensures q.Some? ==> CountedQueue(q.value) && q.value == old(St()).QueueAt(key, kind)
                          && St() == old(St()).WithQueue(key, kind, q.value)
      ensures Valid()
    {
      if key !in queues && key !in presence {
        var n := KeyCount();
        if n >= env.limits.maxKeys {
          return None;
        }
      }
      var slots := if key in queues then queues[key] else map[];
      var found := if kind in slots then slots[kind] else EMPTY_QUEUE;
      assert CountedQueue(found);
      Store(key, kind, found);
      return Some(found);
    }

    method Store(key: string, kind: Kind, q: Queue)
      requires Valid() && CountedQueue(q)
      modifies this`queues
      ensures St() == old(St()).WithQueue(key, kind, q)
      ensures Valid()
    {
      queues := queues[key := (if key in queues then queues[key] else map[])[kind := q]];
    }

    // ---------- announce / withdraw / resolve ----------

    method PrecheckAnnounce(r: Request) returns (err: Option<Error>)
      requires r.Announce?
      ensures err == Precheck(env, r)
    {
      if !env.isKey(r.key) { return Some(BadKey); }
      if |r.meta| > env.limits.maxMetaBytes { return Some(TooLarge); }
      if |r.endpoints| > env.limits.maxEndpoints { return Some(TooLarge); }
      for i := 0 to |r.endpoints|
        invariant forall j | 0 <= j < i :: |r.endpoints[j]| <= env.limits.maxEndpointBytes
      {
        if |r.endpoints[i]| > env.limits.maxEndpointBytes { return Some(TooLarge); }
      }
      err := CheckSignature(r);
    }

    method CheckSignature(r: Request) returns (err: Option<Error>)
      ensures err == if SigOk(env, r) then None else Some(BadSignature)
    {
      var msg := Canonical.CanonicalMessage(r.Domain(), r.Fields());
      err := if env.verifies(r.Signer(), msg, r.sig) then None else Some(BadSignature);
    }

    method Announce(r: Request, now: int) returns (reply: Reply)
      requires Valid() && r.Announce?
      modifies this
      ensures (St(), reply) == Serve(env, old(St()), now, r, "")
      ensures Valid()
    {
      var malformed := PrecheckAnnounce(r);
      if malformed.Some? { return Refused(malformed.value); }
      var err := CheckFreshness(r, now);
      if err.Some? { return Refused(err.value); }
      ghost var s1 := St();
      var ttl := TTL(r.ttl, env.limits.defaultPresenceTTL, env.limits.maxPresenceTTL);
      reply := Publish(r.key, Presence(r.endpoints, r.meta, now + ttl), ttl, now);
      RendezvousBounds.ServedAnnounce(env, s1, now, r, "", ttl);
    }

    method Publish(key: string, p: Presence, ttl: int, now: int) returns (reply: Reply)
      requires Valid()
      modifies this
      ensures (St(), reply) == DoAnnounce(env.limits, old(St()), now, key, p, ttl)
      ensures Valid()
    {
      RunGc(now);
      if key !in presence && key !in queues {
        var n := KeyCount();
        if n >= env.limits.maxKeys { return Refused(Capacity); }
      }
      presence := presence[key := p];
      reply := Announced(ttl / SECOND, p.expiresAt / SECOND);
    }

    method Withdraw(r: Request, now: int) returns (reply: Reply)
      requires Valid() && r.Withdraw?
      modifies this
      ensures (St(), reply) == Serve(env, old(St()), now, r, "")
      ensures Valid()
    {
      if !env.isKey(r.key) { return Refused(BadKey); }
      var err := CheckSignature(r);
      if err.Some? { return Refused(err.value); }
      err := CheckFreshness(r, now);
      if err.Some? { return Refused(err.value); }
      presence := presence - {r.key};
      RunGc(now);
      reply := Withdrawn;
    }

    method ResolveKey(key: string, now: int) returns (p: Result<Presence, Error>)
      ensures p == if !env.isKey(key) then Err(BadKey)
                   else if Resolve(St(), key, now).Some? then Ok(Resolve(St(), key, now).value) else Err(NotFound)
    {
      if !env.isKey(key) { return Err(BadKey); }
      if key !in presence || !(presence[key].expiresAt > now) { return Err(NotFound); }
      return Ok(presence[key]);
    }

    // ---------- deposit ----------

    /** The eviction loop of Deposit. */
    method EvictOldest(blobs0: seq<Blob>, bytes0: int) returns (blobs: seq<Blob>, bytes: int)
      requires env.limits.Positive() && bytes0 == Bytes(blobs0)
      ensures blobs == Evict(env.limits, blobs0) && bytes == Bytes(blobs)
    {
      blobs, bytes := blobs0, bytes0;
      while |blobs| > env.limits.maxQueueBlobs || bytes > env.limits.maxQueueBytes
        invariant bytes == Bytes(blobs) && Evict(env.limits, blobs) == Evict(env.limits, blobs0)
        decreases |blobs|
      {
        bytes := bytes - blobs[0].size;
        blobs := blobs[1..];
      }
    }

    /** Closes every parked channel, one after the other. */
    method Wake(waiters: seq<nat>)
      modifies this`closed
      ensures closed == old(closed) + waiters
    {
      for i := 0 to |waiters|
        invariant closed == old(closed) + waiters[..i]
      {
        closed := closed + [waiters[i]];
      }
    }

    method PrecheckDeposit(r: Request) returns (err: Option<Error>)
      requires r.Deposit?
      ensures err == Precheck(env, r)
    {
      if r.pathKey != r.to { return Some(BadRequest); }
      if !env.isKey(r.from) { return Some(BadKey); }
      if !env.isKey(r.to) { return Some(BadKey); }
      var size := env.payloadSize(r.payload);
      if size.None? { return Some(BadRequest); }
      if size.value > env.limits.maxPayloadBytes { return Some(TooLarge); }
      err := CheckSignature(r);
    }

    method Deposit(r: Request, now: int, id: string) returns (reply: Reply)
      requires Valid() && r.Deposit?
      modifies this
      ensures (St(), reply) == Serve(env, old(St()), now, r, id)
      ensures Valid()
      ensures reply.Deposited? ==> exists b :: RendezvousOutcomes.QueuedAsAsked(env, St(), now, r, id, reply, b)
    {
      var malformed := PrecheckDeposit(r);
      if malformed.Some? { return Refused(malformed.value); }
      var err := CheckFreshness(r, now);
      if err.Some? { return Refused(err.value); }
      var ttl := TTL(r.ttl, env.limits.DefaultTTL(r.kind), env.limits.MaxTTL(r.kind));
      var b := Blob(id, r.from, r.payload, env.payloadSize(r.payload).value, now, now + ttl);
      assert b == NewBlob(env, now, r, id);
      reply := Enqueue(r.kind, r.to, b, now);
      if reply.Deposited? {
        RendezvousOutcomes.DepositShown(env, old(St()), now, r, id);
      }
    }

    method Enqueue(kind: Kind, to: string, b: Blob, now: int) returns (reply: Reply)
      requires Valid()
      modifies this
      ensures (St(), reply) == DoDeposit(env.limits, old(St()), now, kind, to, b)
      ensures Valid()
    {
      RunGc(now);
      ghost var g := St();
      var found := QueueFor(to, kind);
      if found.None? { return Refused(Capacity); }
      var q := found.value;
      RendezvousBounds.BytesOfConcat(q.blobs, [b]);
      assert Bytes([b]) == b.size + Bytes([b][1..]);
      var blobs, bytes := EvictOldest(q.blobs + [b], q.bytes + b.size);
      Store(to, kind, Queue(blobs, bytes, []));
      StoreTwice(g, to, kind, q, Queue(blobs, bytes, []));
      Wake(q.waiters);
      reply := Deposited(b.id, b.expiresAt / SECOND);
    }

    // ---------- poll / ack ----------

    method AuthPoll(r: Request, now: int) returns (reply: Reply)
      requires Valid() && r.Poll?
      modifies this
      ensures (St(), reply) == Serve(env, old(St()), now, r, "")
      ensures Valid()
    {
      if r.pathKey != r.key { return Refused(BadRequest); }
      if !env.isKey(r.key) { return Refused(BadKey); }
      var err := CheckSignature(r);
      if err.Some? { return Refused(err.value); }
      err := CheckFreshness(r, now);
      if err.Some? { return Refused(err.value); }
      var wait := Wrap64(r.wait * SECOND);
      if wait < 0 { wait := 0; }
      if wait > env.limits.maxWait { wait := env.limits.maxWait; }
      reply := Polled(wait);
    }

    method ReadQueue(kind: Kind, key: string, now: int) returns (out: seq<Blob>)
      ensures out == Read(St(), kind, key, now)
    {
      if key !in queues || kind !in queues[key] { return []; }
      var blobs := queues[key][kind].blobs;
      out := [];
      for i := 0 to |blobs|
        invariant out == Live(blobs[..i], now)
      {
        RendezvousBounds.LiveOfConcat(blobs[..i], [blobs[i]], now);
        assert blobs[..i + 1] == blobs[..i] + [blobs[i]];
        assert Live([blobs[i]], now) == (if blobs[i].expiresAt > now then [blobs[i]] else []) +
          Live([blobs[i]][1..], now);
        if blobs[i].expiresAt > now {
          out := out + [blobs[i]];
        }
      }
      assert blobs[..|blobs|] == blobs;
    }

    method ParkPoller(kind: Kind, key: string, now: int) returns (reply: Reply)
      requires Valid()
      modifies this
      ensures (St(), reply) == Park(env, old(St()), now, kind, key)
      ensures Valid()
    {
      var pending := ReadQueue(kind, key, now);
      if |pending| > 0 { return NotParked; }
      var found := QueueFor(key, kind);
      if found.None? { return NotParked; }
      var q := found.value;
      var ch := made;
      made := made + 1;
      Store(key, kind, q.(waiters := q.waiters + [ch]));
      StoreTwice(old(St()), key, kind, q, q.(waiters := q.waiters + [ch]));
      reply := Parked(ch);
    }

    static method DropWaiter(waiters: seq<nat>, ch: nat) returns (r: seq<nat>)
      ensures r == RemoveFirst(waiters, ch)
    {
      for i := 0 to |waiters|
        invariant ch !in waiters[..i]
      {
        RemoveFirstAt(waiters, ch, i);
        if waiters[i] == ch {
          return waiters[..i] + waiters[i + 1..];
        }
        assert waiters[..i + 1] == waiters[..i] + [waiters[i]];
      }
      RemoveFirstAt(waiters, ch, |waiters|);
      return waiters;
    }

    method UnparkPoller(kind: Kind, key: string, ch: nat)
      requires Valid()
      modifies this
      ensures St() == Unpark(old(St()), kind, key, ch)
      ensures Valid()
    {
      if key !in queues || kind !in queues[key] { return; }
      var q := queues[key][kind];
      assert CountedQueue(q);
      var rest := DropWaiter(q.waiters, ch);
      Store(key, kind, q.(waiters := rest));
    }

    static lemma UnackedNext(blobs: seq<Blob>, i: nat, ids: seq<string>)
      requires i < |blobs|
      ensures Without(blobs[..i + 1], ids) ==
        Without(blobs[..i], ids) + if blobs[i].id in ids then [] else [blobs[i]]
      ensures DroppedBy(blobs[..i + 1], ids) == DroppedBy(blobs[..i], ids) + if blobs[i].id in ids then 1 else 0
    {
      var b := blobs[i];
      RendezvousBounds.AckOfConcat(blobs[..i], [b], ids);
      assert blobs[..i + 1] == blobs[..i] + [b];
      assert Without([b], ids) == (if b.id in ids then [] else [b]) + Without([b][1..], ids);
      assert DroppedBy([b], ids) == (if b.id in ids then 1 else 0) + DroppedBy([b][1..], ids);
    }

    static method KeepUnacked(q: Queue, ids: seq<string>) returns (kept: seq<Blob>, deleted: nat, bytes: nat)
      ensures kept == Without(q.blobs, ids) && deleted == DroppedBy(q.blobs, ids) && bytes == Bytes(kept)
    {
      var drop := set id | id in ids;
      kept, deleted, bytes := [], 0, 0;
      for i := 0 to |q.blobs|
        invariant kept == Without(q.blobs[..i], ids) && deleted == DroppedBy(q.blobs[..i], ids) && bytes == Bytes(kept)
      {
        var b := q.blobs[i];
        UnackedNext(q.blobs, i, ids);
        RendezvousBounds.BytesOfConcat(kept, [b]);
        if b.id in drop {
          deleted := deleted + 1;
        } else {
          kept := kept + [b];
          bytes := bytes + b.size;
        }
      }
      assert q.blobs[..|q.blobs|] == q.blobs;
    }

    method Ack(r: Request, now: int) returns (reply: Reply)
      requires Valid() && r.Ack?
      modifies this
      ensures (St(), reply) == Serve(env, old(St()), now, r, "")
      ensures Valid()
    {
      if r.pathKey != r.key { return Refused(BadRequest); }
      if !env.isKey(r.key) { return Refused(BadKey); }
      if |r.ids| > env.limits.maxAckIDs { return Refused(TooLarge); }
      var err := CheckSignature(r);
      if err.Some? { return Refused(err.value); }
      err := CheckFreshness(r, now);
      if err.Some? { return Refused(err.value); }
      reply := AcceptAck(r.kind, r.key, r.ids);
    }

    method AcceptAck(kind: Kind, key: string, ids: seq<string>) returns (reply: Reply)
      requires Valid()
      modifies this
      ensures (St(), reply) == DoAck(old(St()), kind, key, ids)
      ensures Valid()
    {
      if key !in queues || kind !in queues[key] { return Acked(0); }
      var q := queues[key][kind];
      var kept, deleted, bytes := KeepUnacked(q, ids);
      Store(key, kind, Queue(kept, bytes, q.waiters));
      reply := Acked(deleted);
    }
  }
}
