/** backend/rendezvous: whose word the state is. Every record and every blob was put there by a request that its author
    signed, and a record leaves only by its own key's word or by expiry. */
module RendezvousProvenance {
  import opened Common
  import opened Rendezvous
  import RendezvousBounds
  import RendezvousOutcomes
  import RendezvousWaiters

  /** The event is an announce, signed under key, of exactly this record. */
  predicate Announces(env: Env, now: int, e: Event, key: string, p: Presence) {
    && e.Request? && e.r.Announce? && e.r.key == key && SigOk(env, e.r)
    && p.endpoints == e.r.endpoints && p.meta == e.r.meta
    && RendezvousOutcomes.Granted(p.expiresAt - now, e.r.ttl, env.limits.defaultPresenceTTL, env.limits.maxPresenceTTL)
  }

  /** The event is a deposit of exactly this blob, addressed to that queue and signed under the blob's sender. */
  predicate Deposits(env: Env, now: int, e: Event, kind: Kind, to: string, b: Blob) {
    && e.Request? && e.r.Deposit? && e.r.kind == kind && e.r.to == to && e.r.pathKey == to
    && SigOk(env, e.r) && RendezvousOutcomes.IsBlobOf(env, b, now, e.r, e.id)
  }

  predicate HasRecord(s: State, key: string, p: Presence) {
    key in s.presence && s.presence[key] == p
  }

  predicate HasBlob(s: State, kind: Kind, to: string, b: Blob) {
    b in s.QueueAt(to, kind).blobs
  }

  // ---------- one step ----------

  lemma GcOnlyDrops(s: State, now: int, key: string, p: Presence, kind: Kind, b: Blob)
    ensures HasRecord(Gc(s, now), key, p) ==> HasRecord(s, key, p)
    ensures HasBlob(Gc(s, now), kind, key, b) ==> HasBlob(s, kind, key, b)
  {
    if HasBlob(Gc(s, now), kind, key, b) && Gc(s, now) != s {
      RendezvousBounds.LiveIsExact(s.QueueAt(key, kind).blobs, now, b);
    }
  }

  lemma DepositOnlyAdds(l: Limits, s: State, now: int, kind: Kind, to: string, added: Blob, d: Kind, key: string,
                        b: Blob)
    requires l.Positive() && HasBlob(DoDeposit(l, s, now, kind, to, added).0, d, key, b)
    ensures HasBlob(s, d, key, b) || (d == kind && key == to && b == added)
  {
    var g := Gc(s, now);
    GcOnlyDrops(s, now, key, Presence([], "", 0), d, b);
    if !NoRoom(l, g, to) {
      var all := g.QueueAt(to, kind).blobs + [added];
      RendezvousBounds.EvictedFits(l, all);
      var kept := Evict(l, all);
      RendezvousBounds.ReplacedQueue(g, to, kind, Queue(kept, Bytes(kept), []));
    }
  }

  lemma AckOnlyDrops(s: State, kind: Kind, to: string, ids: seq<string>, d: Kind, key: string, b: Blob)
    requires HasBlob(DoAck(s, kind, to, ids).0, d, key, b)
    ensures HasBlob(s, d, key, b)
  {
    if s.HasQueue(to, kind) {
      var q := s.QueueAt(to, kind);
      var kept := Without(q.blobs, ids);
      RendezvousBounds.ReplacedQueue(s, to, kind, Queue(kept, Bytes(kept), q.waiters));
      RendezvousBounds.AckIsExact(q.blobs, ids, b);
      assert b in kept ==> b in multiset(kept);
      assert b in multiset(q.blobs) ==> b in q.blobs;
    }
  }

  lemma PerformBlobs(env: Env, s: State, now: int, r: Request, id: string, kind: Kind, to: string, b: Blob)
    requires env.limits.Positive() && (r.Deposit? ==> env.payloadSize(r.payload).Some?)
    requires HasBlob(Perform(env, s, now, r, id).0, kind, to, b)
    ensures HasBlob(s, kind, to, b) || (r.Deposit? && r.kind == kind && r.to == to && b == NewBlob(env, now, r, id))
  {
    match r
    case Announce(_, _, _, _, _, _, _) => GcOnlyDrops(s, now, to, Presence([], "", 0), kind, b);
    case Withdraw(key, _, _, _) =>
      GcOnlyDrops(s.(presence := s.presence - {key}), now, to, Presence([], "", 0), kind, b);
    case Deposit(d, _, _, k, _, _, _, _, _) =>
      DepositOnlyAdds(env.limits, s, now, d, k, NewBlob(env, now, r, id), kind, to, b);
    case Poll(_, _, _, _, _, _, _) =>
    case Ack(d, _, k, ids, _, _, _) => AckOnlyDrops(s, d, k, ids, kind, to, b);
  }

  lemma PerformRecords(env: Env, s: State, now: int, r: Request, id: string, key: string, p: Presence)
    requires r.Deposit? ==> env.payloadSize(r.payload).Some?
    requires HasRecord(Perform(env, s, now, r, id).0, key, p)
    ensures HasRecord(s, key, p) ||
      (r.Announce? && r.key == key &&
       p == Presence(r.endpoints, r.meta,
                     now + TTL(r.ttl, env.limits.defaultPresenceTTL, env.limits.maxPresenceTTL)))
  {
  }

  lemma PrecheckGrants(env: Env, r: Request)
    requires Precheck(env, r).None?
    ensures SigOk(env, r)
    ensures r.Deposit? ==> r.pathKey == r.to && env.payloadSize(r.payload).Some?
  {
  }

  lemma HandleRecords(env: Env, s: State, now: int, r: Request, malformed: Option<Error>, nonceId: string, id: string,
                      key: string, p: Presence)
    requires malformed.None? && r.Deposit? ==> env.payloadSize(r.payload).Some?
    requires HasRecord(Handle(env, s, now, r, malformed, nonceId, id).0, key, p) && !HasRecord(s, key, p)
    ensures malformed.None? && CheckFresh(env.limits, s, now, nonceId, r.nonce, r.ts).1.None?
    ensures r.Announce? && r.key == key
    ensures p == Presence(r.endpoints, r.meta,
                          now + TTL(r.ttl, env.limits.defaultPresenceTTL, env.limits.maxPresenceTTL))
  {
    RendezvousBounds.FreshChangesNonces(env.limits, s, now, nonceId, r.nonce, r.ts);
    if malformed.None? {
      PerformRecords(env, CheckFresh(env.limits, s, now, nonceId, r.nonce, r.ts).0, now, r, id, key, p);
    }
  }

  lemma HandleBlobs(env: Env, s: State, now: int, r: Request, malformed: Option<Error>, nonceId: string, id: string,
                    kind: Kind, to: string, b: Blob)
    requires env.limits.Positive() && (malformed.None? && r.Deposit? ==> env.payloadSize(r.payload).Some?)
    requires HasBlob(Handle(env, s, now, r, malformed, nonceId, id).0, kind, to, b) && !HasBlob(s, kind, to, b)
    ensures malformed.None? && CheckFresh(env.limits, s, now, nonceId, r.nonce, r.ts).1.None?
    ensures r.Deposit? && r.kind == kind && r.to == to && b == NewBlob(env, now, r, id)
  {
    RendezvousBounds.FreshChangesNonces(env.limits, s, now, nonceId, r.nonce, r.ts);
    if malformed.None? {
      PerformBlobs(env, CheckFresh(env.limits, s, now, nonceId, r.nonce, r.ts).0, now, r, id, kind, to, b);
    }
  }

  /** The event is a request that got as far as being performed. */
  predicate Accepts(env: Env, s: State, now: int, e: Event) {
    e.Request? && Accepted(env, s, now, e.r)
  }

  /** What a step adds to the state, its own event says. */
  lemma StepRecords(env: Env, s: State, now: int, e: Event, key: string, p: Presence)
    requires env.limits.Positive() && HasRecord(Step(env, s, now, e).0, key, p) && !HasRecord(s, key, p)
    ensures Accepts(env, s, now, e) && Announces(env, now, e, key, p)
  {
    if e.Request? {
      HandleRecords(env, s, now, e.r, Precheck(env, e.r), e.r.NonceId(), e.id, key, p);
      RendezvousOutcomes.TTLIsGranted(e.r.ttl, env.limits.defaultPresenceTTL, env.limits.maxPresenceTTL);
      PrecheckGrants(env, e.r);
    }
  }

  lemma StepBlobs(env: Env, s: State, now: int, e: Event, kind: Kind, to: string, b: Blob)
    requires env.limits.Positive() && HasBlob(Step(env, s, now, e).0, kind, to, b) && !HasBlob(s, kind, to, b)
    ensures Accepts(env, s, now, e) && Deposits(env, now, e, kind, to, b)
  {
    if e.Request? {
      HandleBlobs(env, s, now, e.r, Precheck(env, e.r), e.r.NonceId(), e.id, kind, to, b);
      RendezvousOutcomes.NewBlobIsBlobOf(env, now, e.r, e.id);
      PrecheckGrants(env, e.r);
    }
  }

  // ---------- runs ----------

  ghost predicate AnnouncedAt(env: Env, s: State, run: seq<Timed>, i: nat, key: string, p: Presence) {
    && i < |run| && Accepts(env, Run(env, s, run[..i]), run[i].now, run[i].event)
    && Announces(env, run[i].now, run[i].event, key, p)
  }

  ghost predicate DepositedAt(env: Env, s: State, run: seq<Timed>, i: nat, kind: Kind, to: string, b: Blob) {
    && i < |run| && Accepts(env, Run(env, s, run[..i]), run[i].now, run[i].event)
    && Deposits(env, run[i].now, run[i].event, kind, to, b)
  }

  lemma AnnouncedLater(env: Env, s: State, run: seq<Timed>, i: nat, key: string, p: Presence)
    requires run != [] && AnnouncedAt(env, Step(env, s, run[0].now, run[0].event).0, run[1..], i, key, p)
    ensures AnnouncedAt(env, s, run, i + 1, key, p)
  {
    RendezvousWaiters.RunOneMore(env, s, run, i);
  }

  lemma DepositedLater(env: Env, s: State, run: seq<Timed>, i: nat, kind: Kind, to: string, b: Blob)
    requires run != [] && DepositedAt(env, Step(env, s, run[0].now, run[0].event).0, run[1..], i, kind, to, b)
    ensures DepositedAt(env, s, run, i + 1, kind, to, b)
  {
    RendezvousWaiters.RunOneMore(env, s, run, i);
  }

  lemma {:induction false} RunRecords(env: Env, s: State, run: seq<Timed>, key: string, p: Presence) returns (i: nat)
    requires env.limits.Positive() && HasRecord(Run(env, s, run), key, p) && !HasRecord(s, key, p)
    ensures AnnouncedAt(env, s, run, i, key, p)
    decreases |run|
  {
    var t := Step(env, s, run[0].now, run[0].event).0;
    if HasRecord(t, key, p) {
      StepRecords(env, s, run[0].now, run[0].event, key, p);
      assert Run(env, s, run[..0]) == s;
      i := 0;
    } else {
      var k := RunRecords(env, t, run[1..], key, p);
      AnnouncedLater(env, s, run, k, key, p);
      i := k + 1;
    }
  }

  lemma {:induction false} RunBlobs(env: Env, s: State, run: seq<Timed>, kind: Kind, to: string, b: Blob)
    returns (i: nat)
    requires env.limits.Positive() && HasBlob(Run(env, s, run), kind, to, b) && !HasBlob(s, kind, to, b)
    ensures DepositedAt(env, s, run, i, kind, to, b)
    decreases |run|
  {
    var t := Step(env, s, run[0].now, run[0].event).0;
    if HasBlob(t, kind, to, b) {
      StepBlobs(env, s, run[0].now, run[0].event, kind, to, b);
      assert Run(env, s, run[..0]) == s;
      i := 0;
    } else {
      var k := RunBlobs(env, t, run[1..], kind, to, b);
      DepositedLater(env, s, run, k, kind, to, b);
      i := k + 1;
    }
  }

  /** In every reachable state a presence record is what its own key announced, in an accepted request that it
      signed. */
  lemma RecordsAreAnnounced(env: Env, run: seq<Timed>, key: string, p: Presence)
    requires env.limits.Positive() && HasRecord(Run(env, INITIAL, run), key, p)
    ensures exists i :: AnnouncedAt(env, INITIAL, run, i, key, p)
  {
    var i := RunRecords(env, INITIAL, run, key, p);
  }

  /** And a queued blob is what its sender deposited, in an accepted request that it signed for that very queue. */
  lemma BlobsAreDeposited(env: Env, run: seq<Timed>, kind: Kind, to: string, b: Blob)
    requires env.limits.Positive() && HasBlob(Run(env, INITIAL, run), kind, to, b)
    ensures exists i :: DepositedAt(env, INITIAL, run, i, kind, to, b)
  {
    var i := RunBlobs(env, INITIAL, run, kind, to, b);
  }

  // ---------- nobody else can take a record down ----------

  /** The key itself announces or withdraws. */
  predicate Speaks(env: Env, e: Event, key: string) {
    e.Request? && (e.r.Announce? || e.r.Withdraw?) && e.r.key == key && SigOk(env, e.r)
  }

  lemma PerformKeepsRecord(env: Env, s: State, now: int, r: Request, id: string, key: string, p: Presence)
    requires r.Deposit? ==> env.payloadSize(r.payload).Some?
    requires HasRecord(s, key, p) && now < p.expiresAt && !((r.Announce? || r.Withdraw?) && r.key == key)
    ensures HasRecord(Perform(env, s, now, r, id).0, key, p)
  {
  }

  lemma StepKeepsRecord(env: Env, s: State, now: int, e: Event, key: string, p: Presence)
    requires HasRecord(s, key, p) && now < p.expiresAt && !Speaks(env, e, key)
    ensures HasRecord(Step(env, s, now, e).0, key, p)
  {
    if e.Request? {
      var r := e.r;
      RendezvousBounds.FreshChangesNonces(env.limits, s, now, r.NonceId(), r.nonce, r.ts);
      if Accepted(env, s, now, r) {
        PerformKeepsRecord(env, CheckFresh(env.limits, s, now, r.NonceId(), r.nonce, r.ts).0, now, r, e.id, key, p);
      }
    }
  }

  /** No third party can censor presence: whatever others send, a record resolves until it expires, unless its own key
      announces anew or withdraws. */
  lemma {:induction false} RunKeepsRecord(env: Env, s: State, run: seq<Timed>, from: int, to: int, key: string,
                                          p: Presence)
    requires Chronological(run, from, to) && to < p.expiresAt && HasRecord(s, key, p)
    requires forall i | 0 <= i < |run| :: !Speaks(env, run[i].event, key)
    ensures Resolve(Run(env, s, run), key, to) == Some(p)
    decreases |run|
  {
    if run != [] {
      RendezvousWaiters.ChronologicalBounds(run, from, to);
      StepKeepsRecord(env, s, run[0].now, run[0].event, key, p);
      RunKeepsRecord(env, Step(env, s, run[0].now, run[0].event).0, run[1..], run[0].now, to, key, p);
    }
  }
}
