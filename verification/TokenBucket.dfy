/** backend/middleware/tokenbucket.go: the per-key rate limiter, over exact reals. A time is a number of seconds. */
module TokenBucket {
  datatype Entry = Entry(tokens: real, last: real)

  datatype Params = Params(cap: real, rate: real)

  type Buckets = map<string, Entry>

  datatype Verdict = Verdict(allowed: bool, retryAfter: real)

  function Min(a: real, b: real): real {
    if a < b then a else b
  }

  // ---------- Allow ----------

  /** Idle buckets, which have refilled completely, are dropped. */
  function Prune(p: Params, b: Buckets, now: real): Buckets
    requires p.rate > 0.0
  {
    map k | k in b && !(now - b[k].last > p.cap / p.rate) :: b[k]
  }

  /** The wait is cut to whole nanoseconds and one millisecond is added. */
  function RetryAfter(p: Params, tokens: real): real
    requires p.rate > 0.0
  {
    var ns := (1.0 - tokens) / p.rate * 1_000_000_000.0;
    ns.Floor as real / 1_000_000_000.0 + 0.001
  }

  /** The tokens that arrive in dt seconds. */
  function Gain(p: Params, dt: real): real {
    dt * p.rate
  }

  function Refill(p: Params, e: Entry, now: real): real {
    Min(p.cap, e.tokens + Gain(p, now - e.last))
  }

  /** Allow without the prune. */
  function Decide(p: Params, b: Buckets, key: string, now: real): (Buckets, Verdict)
    requires p.rate > 0.0
  {
    if key !in b then (b[key := Entry(p.cap - 1.0, now)], Verdict(true, 0.0))
    else
      var tokens := Refill(p, b[key], now);
      if tokens < 1.0 then (b[key := Entry(tokens, now)], Verdict(false, RetryAfter(p, tokens)))
      else (b[key := Entry(tokens - 1.0, now)], Verdict(true, 0.0))
  }

  function Allow(p: Params, b: Buckets, key: string, now: real): (Buckets, Verdict)
    requires p.rate > 0.0
  {
    Decide(p, Prune(p, b, now), key, now)
  }

  // ---------- the level of a bucket ----------

  /** What the limiter would find in the bucket of key at time `now`: a key it does not know has a full bucket. */
  function Level(p: Params, b: Buckets, key: string, now: real): real {
    if key in b then Refill(p, b[key], now) else p.cap
  }

  /** Capacity holds at least one request, and no bucket is overdrawn, overfull, or from the future. */
  predicate Sound(p: Params, b: Buckets, now: real) {
    && p.cap >= 1.0 && p.rate > 0.0
    && forall k | k in b :: 0.0 <= b[k].tokens <= p.cap && b[k].last <= now
  }

  lemma GainMonotone(p: Params, x: real, y: real)
    requires x <= y && p.rate > 0.0
    ensures Gain(p, x) <= Gain(p, y)
  {
  }

  lemma GainAdds(p: Params, x: real, y: real)
    ensures Gain(p, x + y) == Gain(p, x) + Gain(p, y)
  {
  }

  lemma GainOfZero(p: Params)
    ensures Gain(p, 0.0) == 0.0
  {
  }

  lemma GainOfQuotient(p: Params, v: real)
    requires p.rate > 0.0
    ensures Gain(p, v / p.rate) == v
  {
  }

  lemma GainPositive(p: Params, dt: real)
    requires p.rate > 0.0 && dt >= 0.0
    ensures Gain(p, dt) >= 0.0
  {
  }

  /** A bucket idle for longer than cap/rate is full. */
  lemma IdleIsFull(p: Params, e: Entry, now: real)
    requires p.rate > 0.0 && e.tokens >= 0.0 && now - e.last > p.cap / p.rate
    ensures Refill(p, e, now) == p.cap
  {
    GainMonotone(p, p.cap / p.rate, now - e.last);
    GainOfQuotient(p, p.cap);
  }

  lemma PruneKeepsLevels(p: Params, b: Buckets, now: real, later: real, key: string)
    requires Sound(p, b, now) && now <= later
    ensures Level(p, Prune(p, b, now), key, later) == Level(p, b, key, later)
    ensures Sound(p, Prune(p, b, now), now)
  {
    if key in b && key !in Prune(p, b, now) {
      IdleIsFull(p, b[key], later);
    }
  }

  /** The answer depends on the level alone, and so does the level afterwards. */
  lemma DecideByLevel(p: Params, b: Buckets, key: string, now: real)
    requires Sound(p, b, now)
    ensures var (b', v) := Decide(p, b, key, now);
      var level := Level(p, b, key, now);
      && Sound(p, b', now)
      && v == (if level < 1.0 then Verdict(false, RetryAfter(p, level)) else Verdict(true, 0.0))
      && Level(p, b', key, now) == (if level < 1.0 then level else level - 1.0)
  {
    GainOfZero(p);
    if key in b {
      GainPositive(p, now - b[key].last);
    }
  }

  lemma OtherKeysKeepLevel(p: Params, b: Buckets, key: string, now: real, other: string, later: real)
    requires p.rate > 0.0 && other != key
    ensures Level(p, Decide(p, b, key, now).0, other, later) == Level(p, b, other, later)
  {
  }

  lemma LevelGrows(p: Params, b: Buckets, key: string, now: real, later: real)
    requires Sound(p, b, now) && now <= later
    ensures Level(p, b, key, later) == Min(p.cap, Level(p, b, key, now) + Gain(p, later - now))
  {
    GainPositive(p, later - now);
    if key in b {
      GainAdds(p, now - b[key].last, later - now);
    }
  }

  lemma AllowByLevel(p: Params, b: Buckets, key: string, now: real)
    requires Sound(p, b, now)
    ensures var (b', v) := Allow(p, b, key, now);
      var level := Level(p, b, key, now);
      && Sound(p, b', now)
      && v == (if level < 1.0 then Verdict(false, RetryAfter(p, level)) else Verdict(true, 0.0))
      && Level(p, b', key, now) == (if level < 1.0 then level else level - 1.0)
  {
    PruneKeepsLevels(p, b, now, now, key);
    DecideByLevel(p, Prune(p, b, now), key, now);
  }

  // ---------- runs ----------

  datatype Call = Call(key: string, now: real)

  predicate Chronological(calls: seq<Call>, from: real) {
    calls == [] || (from <= calls[0].now && Chronological(calls[1..], calls[0].now))
  }

  predicate EndsBy(calls: seq<Call>, to: real) {
    forall i | 0 <= i < |calls| :: calls[i].now <= to
  }

  /** The answers of a run, with pruning or without. */
  function Answers(p: Params, b: Buckets, calls: seq<Call>, prune: bool): seq<Verdict>
    requires p.rate > 0.0
    decreases |calls|
  {
    if calls == [] then []
    else
      var c := calls[0];
      var (b', v) := if prune then Allow(p, b, c.key, c.now) else Decide(p, b, c.key, c.now);
      [v] + Answers(p, b', calls[1..], prune)
  }

  lemma {:induction false} AnswersCount(p: Params, b: Buckets, calls: seq<Call>, prune: bool)
    requires p.rate > 0.0
    ensures |Answers(p, b, calls, prune)| == |calls|
    decreases |calls|
  {
    if calls != [] {
      var c := calls[0];
      var (b', v) := if prune then Allow(p, b, c.key, c.now) else Decide(p, b, c.key, c.now);
      AnswersCount(p, b', calls[1..], prune);
    }
  }

  /** How many calls for key the run admits. */
  function Admitted(p: Params, b: Buckets, calls: seq<Call>, key: string): nat
    requires p.rate > 0.0
    decreases |calls|
  {
    if calls == [] then 0
    else
      var c := calls[0];
      var (b', v) := Allow(p, b, c.key, c.now);
      (if c.key == key && v.allowed then 1 else 0) + Admitted(p, b', calls[1..], key)
  }

  ghost predicate SameLevels(p: Params, b: Buckets, c: Buckets, now: real) {
    forall k, later: real | later >= now :: Level(p, b, k, later) == Level(p, c, k, later)
  }

  lemma StepSameLevels(p: Params, b: Buckets, c: Buckets, before: real, key: string, now: real)
    requires Sound(p, b, before) && Sound(p, c, before) && before <= now && SameLevels(p, b, c, before)
    ensures Allow(p, b, key, now).1 == Decide(p, c, key, now).1
    ensures SameLevels(p, Allow(p, b, key, now).0, Decide(p, c, key, now).0, now)
    ensures Sound(p, Allow(p, b, key, now).0, now) && Sound(p, Decide(p, c, key, now).0, now)
  {
    var b1 := Prune(p, b, now);
    PruneKeepsLevels(p, b, now, now, key);
    DecideByLevel(p, b1, key, now);
    DecideByLevel(p, c, key, now);
    var b2, c2 := Decide(p, b1, key, now).0, Decide(p, c, key, now).0;
    assert Level(p, b1, key, now) == Level(p, c, key, now);
    forall k, later: real | later >= now ensures Level(p, b2, k, later) == Level(p, c2, k, later) {
      if k == key {
        LevelGrows(p, b2, k, now, later);
        LevelGrows(p, c2, k, now, later);
      } else {
        OtherKeysKeepLevel(p, b1, key, now, k, later);
        OtherKeysKeepLevel(p, c, key, now, k, later);
        PruneKeepsLevels(p, b, now, later, k);
        assert Level(p, b, k, later) == Level(p, c, k, later);
      }
    }
  }

  /** Pruning is invisible: a limiter that prunes answers every call of every run as one that never does. */
  lemma {:induction false} PruningInvisible(p: Params, b: Buckets, c: Buckets, calls: seq<Call>, from: real)
    requires Sound(p, b, from) && Sound(p, c, from) && SameLevels(p, b, c, from) && Chronological(calls, from)
    ensures Answers(p, b, calls, true) == Answers(p, c, calls, false)
    decreases |calls|
  {
    if calls != [] {
      var k := calls[0];
      StepSameLevels(p, b, c, from, k.key, k.now);
      PruningInvisible(p, Allow(p, b, k.key, k.now).0, Decide(p, c, k.key, k.now).0, calls[1..], k.now);
    }
  }

  /** No caller of a new limiter can tell whether it prunes. */
  ghost predicate PruningNeverShows(p: Params, from: real)
    requires p.rate > 0.0
  {
    forall calls | Chronological(calls, from) :: Answers(p, map[], calls, true) == Answers(p, map[], calls, false)
  }

  /** That is so exactly when the capacity is at least one: below that a bucket never admits again, but a pruned one
      starts afresh. */
  lemma PruningNeedsCapacity(p: Params, from: real)
    requires p.rate > 0.0
    ensures PruningNeverShows(p, from) <==> p.cap >= 1.0
  {
    if p.cap >= 1.0 {
      forall calls | Chronological(calls, from)
        ensures Answers(p, map[], calls, true) == Answers(p, map[], calls, false)
      {
        PruningInvisible(p, map[], map[], calls, from);
      }
    } else {
      var idle := (if p.cap > 0.0 then p.cap / p.rate else 0.0) + 1.0;
      IdleLongEnough(p, idle);
      PruningShows(p, from, idle);
    }
  }

  lemma IdleLongEnough(p: Params, idle: real)
    requires p.rate > 0.0 && idle == (if p.cap > 0.0 then p.cap / p.rate else 0.0) + 1.0
    ensures idle > p.cap / p.rate && idle > 0.0
  {
    if p.cap <= 0.0 {
      assert p.cap / p.rate * p.rate == p.cap;
      assert p.cap / p.rate <= 0.0;
    } else {
      assert p.cap / p.rate > 0.0;
    }
  }

  function Answer(p: Params, b: Buckets, c: Call, prune: bool): (Buckets, Verdict)
    requires p.rate > 0.0
  {
    if prune then Allow(p, b, c.key, c.now) else Decide(p, b, c.key, c.now)
  }

  lemma TwoAnswers(p: Params, b: Buckets, c: Call, d: Call, prune: bool)
    requires p.rate > 0.0
    ensures var (b', v) := Answer(p, b, c, prune); Answers(p, b, [c, d], prune) == [v, Answer(p, b', d, prune).1]
  {
    var calls := [c, d];
    assert calls[1..] == [d] && [d][1..] == [];
    var (b', v) := Answer(p, b, c, prune);
    assert Answers(p, b', [d], prune) == [Answer(p, b', d, prune).1];
    assert Answers(p, b, calls, prune) == [v] + Answers(p, b', calls[1..], prune);
  }

  lemma PruningShows(p: Params, from: real, idle: real)
    requires p.rate > 0.0 && p.cap < 1.0 && idle > p.cap / p.rate && idle > 0.0
    ensures !PruningNeverShows(p, from)
  {
    var first, second := Call("k", from), Call("k", from + idle);
    var calls := [first, second];
    assert calls[1..] == [second] && [second][1..] == [];
    assert Chronological([second], from) && Chronological(calls, from);
    var b := map["k" := Entry(p.cap - 1.0, from)];
    assert Prune(p, map[], from) == map[];
    assert Prune(p, b, from + idle) == map[];
    assert Refill(p, b["k"], from + idle) < 1.0;
    TwoAnswers(p, map[], first, second, true);
    TwoAnswers(p, map[], first, second, false);
    assert Answer(p, map[], first, true).0 == b && Answer(p, map[], first, false).0 == b;
    assert Answer(p, b, second, true).1 != Answer(p, b, second, false).1;
    var with, without := Answers(p, map[], calls, true), Answers(p, map[], calls, false);
    assert with[1] != without[1];
  }

  // ---------- the rate bound ----------

  lemma AllowOtherKey(p: Params, b: Buckets, key: string, now: real, other: string)
    requires Sound(p, b, now) && other != key
    ensures Level(p, Allow(p, b, key, now).0, other, now) == Level(p, b, other, now)
  {
    PruneKeepsLevels(p, b, now, now, other);
    OtherKeysKeepLevel(p, Prune(p, b, now), key, now, other, now);
  }

  /** Each admission takes one token, and tokens arrive at the refill rate. */
  lemma {:induction false} AdmittedAgainstLevel(p: Params, b: Buckets, calls: seq<Call>, key: string, from: real,
                                                to: real)
    requires Sound(p, b, from) && Chronological(calls, from) && from <= to
    requires EndsBy(calls, to)
    ensures Admitted(p, b, calls, key) as real <= Level(p, b, key, from) + Gain(p, to - from)
    decreases |calls|
  {
    LevelInRange(p, b, key, from);
    if calls == [] {
      GainPositive(p, to - from);
    } else {
      var c := calls[0];
      AllowByLevel(p, b, c.key, c.now);
      LevelGrows(p, b, key, from, c.now);
      if c.key != key { AllowOtherKey(p, b, c.key, c.now, key); }
      assert EndsBy(calls[1..], to) by { assert forall i | 0 <= i < |calls[1..]| :: calls[1..][i] == calls[i + 1]; }
      AdmittedAgainstLevel(p, Allow(p, b, c.key, c.now).0, calls[1..], key, c.now, to);
      GainSplits(p, from, c.now, to);
    }
  }

  lemma GainSplits(p: Params, from: real, mid: real, to: real)
    requires from <= mid <= to && p.rate > 0.0
    ensures Gain(p, to - from) == Gain(p, mid - from) + Gain(p, to - mid)
    ensures Gain(p, mid - from) >= 0.0 && Gain(p, to - mid) >= 0.0
  {
    GainAdds(p, mid - from, to - mid);
    GainPositive(p, mid - from);
    GainPositive(p, to - mid);
  }

  lemma LevelInRange(p: Params, b: Buckets, key: string, now: real)
    requires Sound(p, b, now)
    ensures 0.0 <= Level(p, b, key, now) <= p.cap
  {
    if key in b { GainPositive(p, now - b[key].last); }
  }

  ghost predicate RateBounded(p: Params, b: Buckets, from: real)
    requires p.rate > 0.0
  {
    forall calls: seq<Call>, key: string, to: real | Chronological(calls, from) && from <= to && EndsBy(calls, to) ::
      Admitted(p, b, calls, key) as real <= p.cap + Gain(p, to - from)
  }

  /** From any sound state, a key is admitted at most cap + rate * dt times in any interval of dt seconds. */
  lemma AdmittedWithin(p: Params, b: Buckets, calls: seq<Call>, key: string, from: real, to: real, dt: real)
    requires Sound(p, b, from) && Chronological(calls, from) && dt >= 0.0 && to == from + dt && EndsBy(calls, to)
    ensures Admitted(p, b, calls, key) as real <= p.cap + dt * p.rate
  {
    AdmittedAgainstLevel(p, b, calls, key, from, to);
    LevelInRange(p, b, key, from);
    assert to - from == dt;
    assert Gain(p, dt) == dt * p.rate;
  }

  lemma SoundIsRateBounded(p: Params, b: Buckets, from: real)
    requires Sound(p, b, from)
    ensures RateBounded(p, b, from)
  {
    forall calls: seq<Call>, key: string, to: real | Chronological(calls, from) && from <= to && EndsBy(calls, to)
      ensures Admitted(p, b, calls, key) as real <= p.cap + Gain(p, to - from)
    {
      AdmittedAgainstLevel(p, b, calls, key, from, to);
      LevelInRange(p, b, key, from);
    }
  }

  /** The bound holds of a new limiter exactly when its capacity is at least one: the first request of a key is
      admitted whatever the capacity is. */
  lemma RateBoundNeedsCapacity(p: Params, from: real)
    requires p.rate > 0.0
    ensures RateBounded(p, map[], from) <==> p.cap >= 1.0
  {
    if p.cap >= 1.0 {
      SoundIsRateBounded(p, map[], from);
    } else {
      var calls := [Call("k", from)];
      assert Chronological(calls[1..], from) && Chronological(calls, from);
      assert Admitted(p, Allow(p, map[], "k", from).0, calls[1..], "k") == 0;
      assert Admitted(p, map[], calls, "k") == 1;
      GainOfZero(p);
      assert EndsBy(calls, from);
      assert Admitted(p, map[], calls, "k") as real > p.cap + Gain(p, from - from);
    }
  }

  /** Every state of a run is sound, so the bound holds from any instant of it. */
  function After(p: Params, b: Buckets, calls: seq<Call>): Buckets
    requires p.rate > 0.0
    decreases |calls|
  {
    if calls == [] then b else After(p, Allow(p, b, calls[0].key, calls[0].now).0, calls[1..])
  }

  lemma {:induction false} RunStaysSound(p: Params, b: Buckets, calls: seq<Call>, from: real, to: real)
    requires Sound(p, b, from) && Chronological(calls, from)
    requires from <= to && EndsBy(calls, to)
    ensures Sound(p, After(p, b, calls), to)
    decreases |calls|
  {
    if calls != [] {
      AllowByLevel(p, b, calls[0].key, calls[0].now);
      assert forall i | 0 <= i < |calls[1..]| :: calls[1..][i] == calls[i + 1];
      RunStaysSound(p, Allow(p, b, calls[0].key, calls[0].now).0, calls[1..], calls[0].now, to);
    }
  }

  // ---------- retry-after ----------

  lemma WaitIsEnough(p: Params, tokens: real)
    requires p.rate > 0.0 && tokens < 1.0
    ensures tokens + Gain(p, RetryAfter(p, tokens)) >= 1.0
  {
    var exact := (1.0 - tokens) / p.rate;
    assert exact * 1_000_000_000.0 < (exact * 1_000_000_000.0).Floor as real + 1.0;
    assert RetryAfter(p, tokens) >= exact;
    GainMonotone(p, exact, RetryAfter(p, tokens));
    GainOfQuotient(p, 1.0 - tokens);
  }

  /** In this time the tokens missing to one come in, and no more than a millisecond's tokens besides. */
  predicate IsWaitFor(p: Params, tokens: real, wait: real) {
    1.0 - tokens <= wait * p.rate <= 1.0 - tokens + 0.001 * p.rate
  }

  /** Nor is it more than a millisecond too long. */
  lemma WaitIsTight(p: Params, tokens: real)
    requires p.rate > 0.0 && tokens < 1.0
    ensures IsWaitFor(p, tokens, RetryAfter(p, tokens))
  {
    var exact := (1.0 - tokens) / p.rate;
    var ns := (exact * 1_000_000_000.0).Floor as real;
    assert exact * 1_000_000_000.0 - 1.0 < ns <= exact * 1_000_000_000.0;
    assert exact <= RetryAfter(p, tokens) <= exact + 0.001;
    GainMonotone(p, exact, RetryAfter(p, tokens));
    GainMonotone(p, RetryAfter(p, tokens), exact + 0.001);
    GainOfQuotient(p, 1.0 - tokens);
    GainAdds(p, exact, 0.001);
  }

  /** With no admission of key in between, its level only rises. */
  lemma {:induction false} LevelWithoutAdmission(p: Params, b: Buckets, calls: seq<Call>, key: string, from: real,
                                                 to: real)
    requires Sound(p, b, from) && Chronological(calls, from) && from <= to
    requires EndsBy(calls, to)
    requires Admitted(p, b, calls, key) == 0
    ensures Level(p, After(p, b, calls), key, to) == Min(p.cap, Level(p, b, key, from) + Gain(p, to - from))
    decreases |calls|
  {
    if calls == [] {
      LevelGrows(p, b, key, from, to);
    } else {
      var c := calls[0];
      AllowByLevel(p, b, c.key, c.now);
      LevelGrows(p, b, key, from, c.now);
      if c.key != key { AllowOtherKey(p, b, c.key, c.now, key); }
      assert EndsBy(calls[1..], to) by { assert forall i | 0 <= i < |calls[1..]| :: calls[1..][i] == calls[i + 1]; }
      LevelWithoutAdmission(p, Allow(p, b, c.key, c.now).0, calls[1..], key, c.now, to);
      GainSplits(p, from, c.now, to);
    }
  }

  /** A denied caller who waits at least the returned time, during which nothing else is admitted for its key, is
      allowed on its next call, whatever other calls, denials and prunes happen meanwhile. */
  lemma RetryAfterSuffices(p: Params, b: Buckets, key: string, now: real, calls: seq<Call>, retry: real)
    requires Sound(p, b, now) && !Allow(p, b, key, now).1.allowed
    requires
      var (b', v) := Allow(p, b, key, now);
      && retry >= now + v.retryAfter && now <= retry
      && Chronological(calls, now) && EndsBy(calls, retry)
      && Admitted(p, b', calls, key) == 0
    ensures Allow(p, After(p, Allow(p, b, key, now).0, calls), key, retry).1.allowed
  {
    var (b', v) := Allow(p, b, key, now);
    AllowByLevel(p, b, key, now);
    var level := Level(p, b', key, now);
    WaitIsEnough(p, level);
    GainMonotone(p, v.retryAfter, retry - now);
    LevelWithoutAdmission(p, b', calls, key, now, retry);
    RunStaysSound(p, b', calls, now, retry);
    AllowByLevel(p, After(p, b', calls), key, retry);
  }

  /** A denied caller who comes back more than a millisecond before the returned time, with nothing else admitted for
      its key meanwhile, is denied again. */
  lemma RetryTooEarly(p: Params, b: Buckets, key: string, now: real, calls: seq<Call>, retry: real)
    requires Sound(p, b, now) && !Allow(p, b, key, now).1.allowed
    requires
      var (b', v) := Allow(p, b, key, now);
      && now <= retry < now + v.retryAfter - 0.001
      && Chronological(calls, now) && EndsBy(calls, retry)
      && Admitted(p, b', calls, key) == 0
    ensures !Allow(p, After(p, Allow(p, b, key, now).0, calls), key, retry).1.allowed
  {
    var (b', v) := Allow(p, b, key, now);
    AllowByLevel(p, b, key, now);
    var level := Level(p, b', key, now);
    GainBelow(p, retry - now, level);
    LevelWithoutAdmission(p, b', calls, key, now, retry);
    RunStaysSound(p, b', calls, now, retry);
    AllowByLevel(p, After(p, b', calls), key, retry);
  }

  lemma GainBelow(p: Params, dt: real, tokens: real)
    requires p.rate > 0.0 && tokens < 1.0 && dt < RetryAfter(p, tokens) - 0.001
    ensures Gain(p, dt) < 1.0 - tokens
  {
    var wait := RetryAfter(p, tokens) - 0.001;
    WaitIsTight(p, tokens);
    GainLess(p, dt, wait);
    GainAdds(p, wait, 0.001);
  }

  lemma GainLess(p: Params, x: real, y: real)
    requires x < y && p.rate > 0.0
    ensures Gain(p, x) < Gain(p, y)
  {
  }

  /** Calls of one key at one instant. */
  predicate AtOnce(calls: seq<Call>, key: string, now: real) {
    forall i | 0 <= i < |calls| :: calls[i] == Call(key, now)
  }

  lemma {:induction false} BurstByLevel(p: Params, b: Buckets, calls: seq<Call>, key: string, now: real)
    requires Sound(p, b, now) && AtOnce(calls, key, now) && Level(p, b, key, now) >= 0.0
    ensures var whole := Level(p, b, key, now).Floor;
      Admitted(p, b, calls, key) == if |calls| <= whole then |calls| else whole
    decreases |calls|
  {
    if calls != [] {
      var b' := Allow(p, b, key, now).0;
      AllowByLevel(p, b, key, now);
      assert calls[0] == Call(key, now);
      assert AtOnce(calls[1..], key, now) by {
        assert forall i | 0 <= i < |calls[1..]| :: calls[1..][i] == calls[i + 1];
      }
      BurstByLevel(p, b', calls[1..], key, now);
    }
  }

  /** A new limiter admits as many calls at once as its capacity holds whole tokens, and no more. */
  lemma BurstIsCapacity(p: Params, calls: seq<Call>, key: string, now: real)
    requires p.cap >= 1.0 && p.rate > 0.0 && AtOnce(calls, key, now)
    ensures Admitted(p, map[], calls, key) == if |calls| <= p.cap.Floor then |calls| else p.cap.Floor
  {
    BurstByLevel(p, map[], calls, key, now);
  }

  // ---------- the limiter ----------

  class Limiter {
    const params: Params
    var buckets: Buckets

    constructor (cap: real, rate: real)
      ensures params == Params(cap, rate) && buckets == map[]
    {
      params := Params(cap, rate);
      buckets := map[];
    }

    method PruneIdle(now: real)
      requires params.rate > 0.0
      modifies this`buckets
      ensures buckets == Prune(params, old(buckets), now)
    {
      var refillSec := params.cap / params.rate;
      var todo := buckets.Keys;
      while todo != {}
        invariant todo <= buckets.Keys <= old(buckets).Keys
        invariant forall k | k in buckets :: buckets[k] == old(buckets)[k]
        invariant forall k | k in old(buckets) && k !in todo ::
          k in buckets <==> !(now - old(buckets)[k].last > refillSec)
        decreases |todo|
      {
        var k :| k in todo;
        if now - buckets[k].last > refillSec {
          buckets := buckets - {k};
        }
        todo := todo - {k};
      }
    }

    method AllowCall(key: string, now: real) returns (v: Verdict)
      requires params.rate > 0.0
      modifies this`buckets
      ensures (buckets, v) == Allow(params, old(buckets), key, now)
      ensures !v.allowed ==> key in buckets && IsWaitFor(params, buckets[key].tokens, v.retryAfter)
    {
      PruneIdle(now);
      if key !in buckets {
        buckets := buckets[key := Entry(params.cap - 1.0, now)];
        return Verdict(true, 0.0);
      }
      ghost var pruned := buckets;
      var elapsed := now - buckets[key].last;
      var tokens := Min(params.cap, buckets[key].tokens + Gain(params, elapsed));
      buckets := buckets[key := Entry(tokens, now)];
      if tokens < 1.0 {
        WaitIsTight(params, tokens);
        return Verdict(false, RetryAfter(params, tokens));
      }
      buckets := buckets[key := Entry(tokens - 1.0, now)];
      assert buckets == pruned[key := Entry(tokens - 1.0, now)];
      return Verdict(true, 0.0);
    }
  }
}
