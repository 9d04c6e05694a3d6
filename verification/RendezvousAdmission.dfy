/** backend/rendezvous: who gets in. Which signed request is accepted, and which error each fault gets. */
module RendezvousAdmission {
  import opened Common
  import opened Rendezvous
  import RendezvousBounds
  import Canonical

  // ---------- the message to sign ----------

  /** The signature is over these fields, in this order, under the name of the operation. */
  predicate Signs(env: Env, key: string, domain: string, fields: seq<string>, sig: string) {
    env.verifies(key, Canonical.Encode(domain, fields), sig)
  }

  /** An announce is taken when its key is one, meta and endpoints are within their limits, and the key signed it. */
  lemma AnnounceAdmitted(env: Env, r: Request)
    requires r.Announce?
    ensures var l := env.limits;
      var fits := |r.meta| <= l.maxMetaBytes && |r.endpoints| <= l.maxEndpoints &&
        (forall e | e in r.endpoints :: |e| <= l.maxEndpointBytes);
      var signed := Signs(env, r.key, "vulos-rdv/announce/1",
        [r.key, Canonical.Itoa(r.ts), Canonical.Itoa(r.ttl), r.nonce, r.meta] + r.endpoints, r.sig);
      && (Precheck(env, r).None? <==> env.isKey(r.key) && fits && signed)
      && (!env.isKey(r.key) ==> Precheck(env, r) == Some(BadKey))
      && (env.isKey(r.key) && !fits ==> Precheck(env, r) == Some(TooLarge))
      && (env.isKey(r.key) && fits && !signed ==> Precheck(env, r) == Some(BadSignature))
  {
    var l := env.limits;
    if i :| 0 <= i < |r.endpoints| && |r.endpoints[i]| > l.maxEndpointBytes {
      assert r.endpoints[i] in r.endpoints;
    } else {
      assert forall e | e in r.endpoints :: |e| <= l.maxEndpointBytes;
    }
  }

  lemma WithdrawAdmitted(env: Env, r: Request)
    requires r.Withdraw?
    ensures var signed := Signs(env, r.key, "vulos-rdv/withdraw/1", [r.key, Canonical.Itoa(r.ts), r.nonce], r.sig);
      && (Precheck(env, r).None? <==> env.isKey(r.key) && signed)
      && (!env.isKey(r.key) ==> Precheck(env, r) == Some(BadKey))
      && (env.isKey(r.key) && !signed ==> Precheck(env, r) == Some(BadSignature))
  {
  }

  /** A deposit is taken when its path names the recipient, both keys are keys, its payload decodes within the limit,
      and the sender signed it. */
  lemma DepositAdmitted(env: Env, r: Request)
    requires r.Deposit?
    ensures var l := env.limits; var size := env.payloadSize(r.payload);
      var domain := if r.kind == Mailbox then "vulos-rdv/mailbox-deposit/1" else "vulos-rdv/signal-deposit/1";
      var signed := Signs(env, r.from, domain,
        [r.from, r.to, Canonical.Itoa(r.ts), Canonical.Itoa(r.ttl), r.nonce, r.payload], r.sig);
      var keys := env.isKey(r.from) && env.isKey(r.to);
      Precheck(env, r) ==
        if r.pathKey != r.to then Some(BadRequest) else if !keys then Some(BadKey)
        else if size == None then Some(BadRequest) else if size.value > l.maxPayloadBytes then Some(TooLarge)
        else if !signed then Some(BadSignature) else None
  {
  }

  /** Polls and acks are taken when the path names the key and that key signed them; an ack names boundedly many ids. */
  lemma PollAdmitted(env: Env, r: Request)
    requires r.Poll?
    ensures var domain := if r.kind == Mailbox then "vulos-rdv/mailbox-poll/1" else "vulos-rdv/signal-poll/1";
      var signed := Signs(env, r.key, domain, [r.key, Canonical.Itoa(r.ts), r.nonce], r.sig);
      Precheck(env, r) ==
        if r.pathKey != r.key then Some(BadRequest) else if !env.isKey(r.key) then Some(BadKey)
        else if !signed then Some(BadSignature) else None
  {
  }

  lemma AckAdmitted(env: Env, r: Request)
    requires r.Ack?
    ensures var domain := if r.kind == Mailbox then "vulos-rdv/mailbox-ack/1" else "vulos-rdv/signal-ack/1";
      var signed := Signs(env, r.key, domain, [r.key, Canonical.Itoa(r.ts), r.nonce] + r.ids, r.sig);
      Precheck(env, r) ==
        if r.pathKey != r.key then Some(BadRequest) else if !env.isKey(r.key) then Some(BadKey)
        else if |r.ids| > env.limits.maxAckIDs then Some(TooLarge)
        else if !signed then Some(BadSignature) else None
  {
  }

  // ---------- freshness ----------

  /** The nonces still remembered at this time. */
  function Remembered(s: State, now: int): set<string> {
    set id | id in s.nonces && s.nonces[id] > now
  }

  lemma LiveNoncesCount(s: State, now: int)
    ensures |LiveNonces(s.nonces, now)| == |Remembered(s, now)|
  {
    assert LiveNonces(s.nonces, now).Keys == Remembered(s, now);
  }

  /** An envelope is fresh exactly when it carries a nonce of up to 128 bytes, its timestamp is within one skew of now
      in either direction, its name is not remembered, and the cache has room, or gets it by forgetting
      expired nonces. */
  lemma FreshAdmitted(l: Limits, s: State, now: int, id: string, nonce: string, ts: int)
    ensures var (t, err) := CheckFresh(l, s, now, id, nonce, ts);
      var ahead := ts * SECOND - now;
      var room := |s.nonces| < l.maxNonces || |Remembered(s, now)| < l.maxNonces;
      && (err == None <==>
           0 < |nonce| <= 128 && -l.clockSkew <= ahead <= l.clockSkew && id !in Remembered(s, now) && room)
      && (err == Some(BadRequest) <==> |nonce| == 0 || |nonce| > 128)
      && (0 < |nonce| <= 128 ==> (err == Some(Stale) <==> ahead < -l.clockSkew || ahead > l.clockSkew))
      && (0 < |nonce| <= 128 && -l.clockSkew <= ahead <= l.clockSkew ==>
           (err == Some(Replay) <==> id in Remembered(s, now)))
      && (err == None ==> id in t.nonces && t.nonces[id] == now + l.clockSkew + l.clockSkew)
  {
    LiveNoncesCount(s, now);
  }

  // ---------- room ----------

  /** A key is in use while it has a presence record, a blob or a waiter, or was given a queue since the last sweep. */
  predicate InUse(s: State, key: string) {
    key in s.presence || key in s.queues
  }

  function UsedKeys(s: State): set<string> {
    s.presence.Keys + s.queues.Keys
  }

  /** A request that passed both checks is refused exactly when it needs a key that is not in use after the sweep, with
      all of MaxKeys in use; then for want of capacity. */
  lemma RoomAdmits(env: Env, s: State, now: int, r: Request, id: string)
    requires r.Deposit? ==> env.payloadSize(r.payload).Some?
    ensures var reply := Perform(env, s, now, r, id).1; var g := Gc(s, now);
      var key := if r.Deposit? then r.to else r.key;
      && (reply.Refused? <==> (r.Announce? || r.Deposit?) && !InUse(g, key) && |UsedKeys(g)| >= env.limits.maxKeys)
      && (reply.Refused? ==> reply.error == Capacity)
  {
    RendezvousBounds.CapacityRefusesOnlyNewcomers(env, s, now, r, id);
  }

  /** Every request is answered by the first of the three that refuses it. */
  lemma ServedInOrder(env: Env, s: State, now: int, r: Request, id: string)
    ensures var reply := Serve(env, s, now, r, id).1;
      var (checked, err) := CheckFresh(env.limits, s, now, r.NonceId(), r.nonce, r.ts);
      match Precheck(env, r)
      case Some(e) => reply == Refused(e) && Serve(env, s, now, r, id).0 == s
      case None => if err.Some? then reply == Refused(err.value) else reply == Perform(env, checked, now, r, id).1
  {
  }

  /** park adds the caller exactly when the queue has no unexpired blob and its key is in use or finds room. */
  lemma ParkAdmits(env: Env, s: State, now: int, kind: Kind, key: string)
    ensures var reply := Park(env, s, now, kind, key).1;
      && (reply == Parked(s.made) <==>
           (forall b | b in s.QueueAt(key, kind).blobs :: b.expiresAt <= now) &&
           (InUse(s, key) || |UsedKeys(s)| < env.limits.maxKeys))
      && (reply == Parked(s.made) || reply == NotParked)
  {
    var blobs := s.QueueAt(key, kind).blobs;
    if Read(s, kind, key, now) == [] {
      forall b | b in blobs ensures b.expiresAt <= now {
        RendezvousBounds.LiveIsExact(blobs, now, b);
      }
    } else {
      var b := Read(s, kind, key, now)[0];
      RendezvousBounds.LiveIsExact(blobs, now, b);
    }
  }

  // ---------- what a sweep leaves ----------

  /** After a sweep that was due nothing expired is left, and every key still in use has something to show for it. A
      sweep within thirty seconds of the last does nothing. */
  lemma SweepLeavesNothingExpired(s: State, now: int, key: string, kind: Kind, id: string)
    requires s.lastGC.None? || now - s.lastGC.value >= 30 * SECOND
    ensures var g := Gc(s, now);
      && g.lastGC == Some(now)
      && (key in g.presence ==> g.presence[key].expiresAt > now)
      && (id in g.nonces ==> g.nonces[id] > now)
      && (forall b | b in g.QueueAt(key, kind).blobs :: b.expiresAt > now)
      && (InUse(g, key) ==> RendezvousBounds.HoldsState(g, key, now))
  {
    var g := Gc(s, now);
    forall b | b in g.QueueAt(key, kind).blobs ensures b.expiresAt > now {
      RendezvousBounds.LiveIsExact(s.QueueAt(key, kind).blobs, now, b);
    }
    if key in g.queues {
      var pruned := PruneSlots(s.queues[key], now);
      assert g.queues[key] == pruned && AnyBusy(pruned);
      BusyHoldsState(g, s, now, key, Signal);
      BusyHoldsState(g, s, now, key, Mailbox);
    }
  }

  lemma BusyHoldsState(g: State, s: State, now: int, key: string, kind: Kind)
    requires key in s.queues && key in g.queues && g.queues[key] == PruneSlots(s.queues[key], now)
    ensures kind in g.queues[key] && Busy(g.queues[key][kind]) ==> RendezvousBounds.HoldsState(g, key, now)
  {
    if kind in g.queues[key] {
      RendezvousBounds.LiveTwice(s.queues[key][kind].blobs, now, now);
    }
  }

  lemma EarlySweepDoesNothing(s: State, now: int)
    requires s.lastGC.Some? && now - s.lastGC.value < 30 * SECOND
    ensures Gc(s, now) == s
  {
  }
}
