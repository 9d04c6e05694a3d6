/** backend/rendezvous: what a signature covers, and how long a used envelope stays unusable. */
module RendezvousReplay {
  import opened Common
  import opened Rendezvous
  import Canonical

  // ---------- signed bytes determine the operation ----------

  lemma DomainDeterminesOperation(a: Request, b: Request)
    requires a.Domain() == b.Domain()
    ensures a.Announce? == b.Announce? && a.Withdraw? == b.Withdraw? && a.Deposit? == b.Deposit?
    ensures a.Poll? == b.Poll? && a.Ack? == b.Ack?
    ensures a.Deposit? || a.Poll? || a.Ack? ==> a.kind == b.kind
  {
    assert |a.Domain()| == |b.Domain()| && a.Domain()[10] == b.Domain()[10];
  }

  lemma SameTail<T>(a: seq<T>, b: seq<T>, x: seq<T>, y: seq<T>)
    requires |a| == |b| && a + x == b + y
    ensures a == b && x == y
  {
    assert (a + x)[..|a|] == a && (b + y)[..|b|] == b;
    assert (a + x)[|a|..] == x && (b + y)[|b|..] == y;
  }

  /** Two requests with the same signed bytes are the same operation with the same signed fields. */
  lemma SameBytesSameOperation(a: Request, b: Request)
    requires Canonical.AllShort(a.Fields()) && Canonical.AllShort(b.Fields())
    requires a.Message() == b.Message()
    ensures a.Covered() == b.Covered()
  {
    Canonical.EncodeInjective(a.Domain(), a.Fields(), b.Domain(), b.Fields());
    DomainDeterminesOperation(a, b);
    var f, g := a.Fields(), b.Fields();
    match a {
      case Announce(key, endpoints, meta, ttl, nonce, ts, _) =>
        SameTail([key, Canonical.Itoa(ts), Canonical.Itoa(ttl), nonce, meta],
          [b.key, Canonical.Itoa(b.ts), Canonical.Itoa(b.ttl), b.nonce, b.meta], endpoints, b.endpoints);
        Canonical.ItoaInjective(ts, b.ts);
        Canonical.ItoaInjective(ttl, b.ttl);
      case Withdraw(_, _, ts, _) =>
        assert f[0] == g[0] && f[1] == g[1] && f[2] == g[2];
        Canonical.ItoaInjective(ts, b.ts);
      case Deposit(_, _, _, _, _, ttl, _, ts, _) =>
        assert f[0] == g[0] && f[1] == g[1] && f[2] == g[2] && f[3] == g[3] && f[4] == g[4] && f[5] == g[5];
        Canonical.ItoaInjective(ts, b.ts);
        Canonical.ItoaInjective(ttl, b.ttl);
      case Poll(_, _, _, _, ts, _, _) =>
        assert f[0] == g[0] && f[1] == g[1] && f[2] == g[2];
        Canonical.ItoaInjective(ts, b.ts);
      case Ack(_, _, key, ids, nonce, ts, _) =>
        SameTail([key, Canonical.Itoa(ts), nonce], [b.key, Canonical.Itoa(b.ts), b.nonce], ids, b.ids);
        Canonical.ItoaInjective(ts, b.ts);
    }
  }

  // ---------- names in the replay cache ----------

  lemma SplitAtBar(a: string, x: string, b: string, y: string)
    requires '|' !in a && '|' !in b
    requires a + "|" + x == b + "|" + y
    ensures a == b && x == y
  {
    var s := a + "|" + x;
    assert s[|a|] == '|' && s[|b|] == '|';
    assert forall i | 0 <= i < |a| :: s[i] == a[i];
    assert forall i | 0 <= i < |b| :: s[i] == b[i];
    assert forall i | 0 <= i < |a| :: a[i] in a;
    assert forall i | 0 <= i < |b| :: b[i] in b;
    assert s == a + ("|" + x) && s == b + ("|" + y);
    SameTail(a, b, "|" + x, "|" + y);
    SameTail("|", "|", x, y);
  }

  lemma SplitAtBars(a: string, x: string, m: string, b: string, y: string, n: string)
    requires '|' !in a && '|' !in b && '|' !in x && '|' !in y
    requires a + "|" + x + "|" + m == b + "|" + y + "|" + n
    ensures a == b && x == y && m == n
  {
    assert a + "|" + x + "|" + m == a + "|" + (x + "|" + m);
    assert b + "|" + y + "|" + n == b + "|" + (y + "|" + n);
    SplitAtBar(a, x + "|" + m, b, y + "|" + n);
    SplitAtBar(x, m, y, n);
  }

  lemma NoBarInDomain(r: Request)
    ensures '|' !in r.Domain()
  {
    match r
    case Announce(_, _, _, _, _, _, _) => assert '|' !in "vulos-rdv/announce/1";
    case Withdraw(_, _, _, _) => assert '|' !in "vulos-rdv/withdraw/1";
    case Deposit(_, _, _, _, _, _, _, _, _) =>
      assert '|' !in "vulos-rdv/mailbox-deposit/1";
      assert '|' !in "vulos-rdv/signal-deposit/1";
    case Poll(_, _, _, _, _, _, _) =>
      assert '|' !in "vulos-rdv/mailbox-poll/1";
      assert '|' !in "vulos-rdv/signal-poll/1";
    case Ack(_, _, _, _, _, _, _) =>
      assert '|' !in "vulos-rdv/mailbox-ack/1";
      assert '|' !in "vulos-rdv/signal-ack/1";
  }

  /** Keys are base64url and hold no '|', so two requests share a name only if they share domain tag, signer and
      nonce: no request is refused because of another one's nonce. */
  lemma NonceIdInjective(a: Request, b: Request)
    requires '|' !in a.Signer() && '|' !in b.Signer()
    requires a.NonceId() == b.NonceId()
    ensures a.Domain() == b.Domain() && a.Signer() == b.Signer() && a.nonce == b.nonce
  {
    NoBarInDomain(a);
    NoBarInDomain(b);
    SplitAtBars(a.Domain(), a.Signer(), a.nonce, b.Domain(), b.Signer(), b.nonce);
  }

  // ---------- the replay window ----------

  /** Until the instant `expiry` the cache remembers `id` at least that long. */
  predicate Held(s: State, id: string, expiry: int, now: int) {
    now >= expiry || (id in s.nonces && s.nonces[id] >= expiry)
  }

  /** No remembered nonce outlives twice the skew from now. */
  predicate NoncesWithin(l: Limits, s: State, now: int) {
    forall id | id in s.nonces :: s.nonces[id] <= now + 2 * l.clockSkew
  }

  lemma FreshTreatsNonces(l: Limits, s: State, now: int, used: string, nonce: string, ts: int,
                          id: string, expiry: int, before: int)
    requires before <= now && l.Positive()
    ensures Held(s, id, expiry, before) ==> Held(CheckFresh(l, s, now, used, nonce, ts).0, id, expiry, now)
    ensures NoncesWithin(l, s, before) ==> NoncesWithin(l, CheckFresh(l, s, now, used, nonce, ts).0, now)
  {
  }

  lemma PerformTreatsNonces(env: Env, s: State, now: int, r: Request, newId: string)
    requires r.Deposit? ==> env.payloadSize(r.payload).Some?
    ensures var t := Perform(env, s, now, r, newId).0;
      t.nonces == s.nonces || t.nonces == LiveNonces(s.nonces, now)
  {
  }

  lemma HandleTreatsNonces(env: Env, s: State, now: int, r: Request, malformed: Option<Error>, nonceId: string,
                           newId: string, id: string, expiry: int, before: int)
    requires before <= now && env.limits.Positive()
    requires malformed.None? && r.Deposit? ==> env.payloadSize(r.payload).Some?
    ensures var t := Handle(env, s, now, r, malformed, nonceId, newId).0;
      && (Held(s, id, expiry, before) ==> Held(t, id, expiry, now))
      && (NoncesWithin(env.limits, s, before) ==> NoncesWithin(env.limits, t, now))
  {
    if malformed.None? {
      var (s1, stale) := CheckFresh(env.limits, s, now, nonceId, r.nonce, r.ts);
      FreshTreatsNonces(env.limits, s, now, nonceId, r.nonce, r.ts, id, expiry, before);
      PerformTreatsNonces(env, s1, now, r, newId);
    }
  }

  lemma StepTreatsNonces(env: Env, s: State, now: int, e: Event, id: string, expiry: int, before: int)
    requires before <= now && env.limits.Positive()
    ensures Held(s, id, expiry, before) ==> Held(Step(env, s, now, e).0, id, expiry, now)
    ensures NoncesWithin(env.limits, s, before) ==> NoncesWithin(env.limits, Step(env, s, now, e).0, now)
  {
    if e.Request? {
      HandleTreatsNonces(env, s, now, e.r, Precheck(env, e.r), e.r.NonceId(), e.id, id, expiry, before);
    }
  }

  lemma {:induction false} RunTreatsNonces(env: Env, s: State, run: seq<Timed>, id: string, expiry: int, from: int,
                                           to: int)
    requires Chronological(run, from, to) && env.limits.Positive()
    ensures Held(s, id, expiry, from) ==> Held(Run(env, s, run), id, expiry, to)
    ensures NoncesWithin(env.limits, s, from) ==> NoncesWithin(env.limits, Run(env, s, run), to)
    decreases |run|
  {
    if run != [] {
      StepTreatsNonces(env, s, run[0].now, run[0].event, id, expiry, from);
      RunTreatsNonces(env, Step(env, s, run[0].now, run[0].event).0, run[1..], id, expiry, run[0].now, to);
    }
  }

  /** Whatever happens in between, an envelope accepted at `first` is accepted again at `second` only when its
      timestamp sits exactly on the future edge of the window and twice the skew has passed exactly. */
  lemma AcceptedAgainOnlyAtTheEdge(env: Env, s: State, first: int, r: Request, newId: string,
                                   run: seq<Timed>, second: int, again: Request)
    requires env.limits.Positive() && Accepted(env, s, first, r)
    requires Chronological(run, first, second)
    requires again.NonceId() == r.NonceId() && again.ts == r.ts
    requires Accepted(env, Run(env, Serve(env, s, first, r, newId).0, run), second, again)
    ensures second == first + 2 * env.limits.clockSkew
    ensures r.ts * SECOND == first + env.limits.clockSkew
  {
    var expiry := first + 2 * env.limits.clockSkew;
    var s1 := Serve(env, s, first, r, newId).0;
    AcceptanceIsRemembered(env, s, first, r, Precheck(env, r), r.NonceId(), newId);
    RunTreatsNonces(env, s1, run, r.NonceId(), expiry, first, second);
    HeldMeansReplay(env.limits, Run(env, s1, run), second, r.NonceId(), again.nonce, again.ts, expiry);
  }

  lemma AcceptanceIsRemembered(env: Env, s: State, now: int, r: Request, malformed: Option<Error>, nonceId: string,
                               newId: string)
    requires malformed.None? && CheckFresh(env.limits, s, now, nonceId, r.nonce, r.ts).1.None?
    requires r.Deposit? ==> env.payloadSize(r.payload).Some?
    ensures Held(Handle(env, s, now, r, malformed, nonceId, newId).0, nonceId, now + 2 * env.limits.clockSkew, now)
    ensures now - env.limits.clockSkew <= r.ts * SECOND <= now + env.limits.clockSkew
  {
    PerformTreatsNonces(env, CheckFresh(env.limits, s, now, nonceId, r.nonce, r.ts).0, now, r, newId);
  }

  lemma HeldMeansReplay(l: Limits, s: State, now: int, id: string, nonce: string, ts: int, expiry: int)
    requires Held(s, id, expiry, now)
    requires CheckFresh(l, s, now, id, nonce, ts).1.None?
    ensures now >= expiry && ts * SECOND >= now - l.clockSkew
  {
  }

  /** Some continuation of the run from `after` accepts the request again. */
  ghost predicate AcceptableAgain(env: Env, after: State, first: int, r: Request) {
    exists run, second :: Chronological(run, first, second) && Accepted(env, Run(env, after, run), second, r)
  }

  lemma FreshAtTheEdge(l: Limits, s: State, first: int, after: State, id: string, nonce: string, ts: int)
    requires l.Positive() && CheckFresh(l, s, first, id, nonce, ts).1.None?
    requires ts * SECOND == first + l.clockSkew && NoncesWithin(l, after, first)
    ensures CheckFresh(l, after, first + 2 * l.clockSkew, id, nonce, ts).1.None?
  {
    assert LiveNonces(after.nonces, first + 2 * l.clockSkew) == map[];
  }

  lemma FreshNowIsAcceptable(env: Env, after: State, first: int, second: int, r: Request)
    requires first <= second && Accepted(env, after, second, r)
    ensures AcceptableAgain(env, after, first, r)
  {
    assert Chronological([], first, second) && Run(env, after, []) == after;
  }

  lemma EdgeIsAcceptable(env: Env, s: State, first: int, r: Request, after: State)
    requires env.limits.Positive() && Accepted(env, s, first, r)
    requires r.ts * SECOND == first + env.limits.clockSkew && NoncesWithin(env.limits, after, first)
    ensures Accepted(env, after, first + 2 * env.limits.clockSkew, r)
  {
    FreshAtTheEdge(env.limits, s, first, after, r.NonceId(), r.nonce, r.ts);
  }

  /** In every reachable state: an accepted envelope can be accepted a second time, in some continuation, if and
      only if its timestamp lies exactly one skew in the future of its first acceptance. */
  lemma ReplayWindow(env: Env, before: seq<Timed>, start: int, first: int, r: Request, newId: string)
    requires env.limits.Positive() && Chronological(before, start, first)
    requires Accepted(env, Run(env, INITIAL, before), first, r)
    ensures
      AcceptableAgain(env, Serve(env, Run(env, INITIAL, before), first, r, newId).0, first, r)
      <==> r.ts * SECOND == first + env.limits.clockSkew
  {
    var s := Run(env, INITIAL, before);
    RunTreatsNonces(env, INITIAL, before, "", 0, start, first);
    if r.ts * SECOND == first + env.limits.clockSkew {
      OnTheEdgeAcceptableAgain(env, s, first, r, newId);
    } else {
      OffTheEdgeNeverAgain(env, s, first, r, newId);
    }
  }

  lemma OnTheEdgeAcceptableAgain(env: Env, s: State, first: int, r: Request, newId: string)
    requires env.limits.Positive() && NoncesWithin(env.limits, s, first) && Accepted(env, s, first, r)
    requires r.ts * SECOND == first + env.limits.clockSkew
    ensures AcceptableAgain(env, Step(env, s, first, Request(r, newId)).0, first, r)
  {
    StepTreatsNonces(env, s, first, Request(r, newId), "", 0, first);
    EdgeAcceptableAgain(env, s, first, r, Step(env, s, first, Request(r, newId)).0);
  }

  lemma EdgeAcceptableAgain(env: Env, s: State, first: int, r: Request, after: State)
    requires env.limits.Positive() && Accepted(env, s, first, r)
    requires r.ts * SECOND == first + env.limits.clockSkew && NoncesWithin(env.limits, after, first)
    ensures AcceptableAgain(env, after, first, r)
  {
    EdgeIsAcceptable(env, s, first, r, after);
    FreshNowIsAcceptable(env, after, first, first + 2 * env.limits.clockSkew, r);
  }

  lemma OffTheEdgeNeverAgain(env: Env, s: State, first: int, r: Request, newId: string)
    requires env.limits.Positive() && Accepted(env, s, first, r)
    requires r.ts * SECOND != first + env.limits.clockSkew
    ensures !AcceptableAgain(env, Serve(env, s, first, r, newId).0, first, r)
  {
    var after := Serve(env, s, first, r, newId).0;
    if AcceptableAgain(env, after, first, r) {
      var run, second :| Chronological(run, first, second) && Accepted(env, Run(env, after, run), second, r);
      AcceptedAgainOnlyAtTheEdge(env, s, first, r, newId, run, second, r);
    }
  }
}
