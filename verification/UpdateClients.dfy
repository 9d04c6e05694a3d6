/** web/src/lib/collab/updateLog.ts: the clients' bookkeeping of what they have covered, which is the floor they post
    with their snapshots. */
module UpdateClients {
  import opened Common
  import opened UpdateLog
  import opened Convergence

  /** A client's document, merged and edited, and the highest seq it takes for integrated. */
  datatype Client<T> = Client(doc: T, covered: int)

  datatype State<T> = State(hist: seq<Entry<T>>, clients: seq<Client<T>>)

  /** What client k does; x is anything it types or receives from a peer while both are connected. */
  datatype Event<T> =
    | Edited(k: nat, x: T)
    | Hydrated(k: nat)
    | Flushed(k: nat, delta: T)
    | Compacted(k: nat)

  function Hydrate<T>(l: Lattice<T>, c: Client<T>, log: Log<T>): Client<T> {
    Client(JoinAll(l, [c.doc] + Payloads(log)), log.head)
  }

  /** After an append the client takes everything up to the seq it was answered for covered. */
  function Flush<T>(l: Lattice<T>, c: Client<T>, hist: seq<Entry<T>>, delta: T): (seq<Entry<T>>, Client<T>) {
    (hist + [Update(delta)], Client(l.join(c.doc, delta), |hist| + 1))
  }

  /** It posts its whole document with what it has covered as the floor, and ignores a refusal. */
  function Compact<T>(c: Client<T>, hist: seq<Entry<T>>): (seq<Entry<T>>, Client<T>) {
    match AppendSpec(hist, SnapshotKind, c.doc, c.covered)
    case Ok(next) => (next, c.(covered := |next|))
    case Err(_) => (hist, c)
  }

  function Step<T>(l: Lattice<T>, s: State<T>, e: Event<T>): State<T> {
    if e.k >= |s.clients| then s
    else
      var c := s.clients[e.k];
      match e
      case Edited(k, x) => State(s.hist, s.clients[k := c.(doc := l.join(c.doc, x))])
      case Hydrated(k) => State(s.hist, s.clients[k := Hydrate(l, c, LoadSpec(s.hist, 0))])
      case Flushed(k, delta) =>
        var (next, after) := Flush(l, c, s.hist, delta);
        State(next, s.clients[k := after])
      case Compacted(k) =>
        var (next, after) := Compact(c, s.hist);
        State(next, s.clients[k := after])
  }

  function Run<T>(l: Lattice<T>, s: State<T>, events: seq<Event<T>>): State<T> {
    if events == [] then s else Step(l, Run(l, s, events[..|events| - 1]), events[|events| - 1])
  }

  /** The log empty, and n clients that have nothing. */
  function Fresh<T>(l: Lattice<T>, n: nat): State<T> {
    State([], seq(n, _ => Client(l.bottom, 0)))
  }

  // ---------- what a client claims ----------

  /** The client includes every update up to the seq it takes for covered. */
  ghost predicate Covers<T>(l: Lattice<T>, c: Client<T>, hist: seq<Entry<T>>) {
    0 <= c.covered <= |hist| && Includes(l, c.doc, hist, c.covered)
  }

  /** Every update past that seq is in the client's document all the same: no peer's frame is news to it. */
  ghost predicate NothingNew<T>(l: Lattice<T>, c: Client<T>, hist: seq<Entry<T>>) {
    forall i | 0 <= i < |hist| && c.covered <= i && hist[i].Update? :: Below(l, hist[i].data, c.doc)
  }

  lemma IncludesMore<T(!new)>(l: Lattice<T>, x: T, y: T, hist: seq<Entry<T>>, upTo: int)
    requires Laws(l) && Includes(l, x, hist, upTo)
    ensures Includes(l, l.join(x, y), hist, upTo)
  {
    BelowJoin(l, x, y);
    forall i | 0 <= i < |hist| && i < upTo && hist[i].Update? ensures Below(l, hist[i].data, l.join(x, y)) {
      BelowTransitive(l, hist[i].data, x, l.join(x, y));
    }
  }

  /** A client that covered what it claimed still does after an append exactly when no peer appended in between, or it
      had merged what they did. */
  lemma FlushCoversIff<T(!new)>(l: Lattice<T>, c: Client<T>, hist: seq<Entry<T>>, delta: T)
    requires Laws(l) && Covers(l, c, hist)
    ensures var (next, after) := Flush(l, c, hist, delta);
      Covers(l, after, next) <==> NothingNew(l, c.(doc := after.doc), hist)
  {
    var (next, after) := Flush(l, c, hist, delta);
    IncludesMore(l, c.doc, delta, hist, c.covered);
    BelowJoin(l, c.doc, delta);
    if Covers(l, after, next) {
      forall i | 0 <= i < |hist| && hist[i].Update? ensures Below(l, hist[i].data, after.doc) {
        assert next[i] == hist[i];
      }
    }
  }

  /** An accepted snapshot includes what its floor claims exactly when its poster covered what it claimed. */
  lemma CompactClaimsIff<T(!new)>(l: Lattice<T>, c: Client<T>, hist: seq<Entry<T>>, next: seq<Entry<T>>)
    requires 0 <= c.covered <= |hist| && AppendSpec(hist, SnapshotKind, c.doc, c.covered) == Ok(next)
    ensures next == hist + [Snapshot(c.doc, c.covered)] && Floor(next) == c.covered
    ensures SnapshotIncludes(l, next) <==> Covers(l, c, hist)
    ensures Covers(l, c, hist) ==> (Covers(l, c.(covered := |next|), next) <==> NothingNew(l, c, hist))
  {
    AppendOne(hist, Snapshot(c.doc, c.covered), next, 0);
    assert forall i | 0 <= i < |hist| :: next[i] == hist[i];
  }

  // ---------- runs ----------

  /** Whenever a client appends, no update that it has not merged lies above what it takes for covered. */
  ghost predicate Careful<T>(l: Lattice<T>, s: State<T>, e: Event<T>) {
    e.k < |s.clients| ==>
      var c := s.clients[e.k];
      && (e.Flushed? ==> NothingNew(l, c.(doc := l.join(c.doc, e.delta)), s.hist))
      && (e.Compacted? ==> NothingNew(l, c, s.hist))
  }

  ghost predicate AllCareful<T>(l: Lattice<T>, s: State<T>, events: seq<Event<T>>) {
    forall n | 0 <= n < |events| :: Careful(l, Run(l, s, events[..n]), events[n])
  }

  ghost predicate Safe<T>(l: Lattice<T>, s: State<T>) {
    && WellFormed(s.hist) && SnapshotIncludes(l, s.hist)
    && forall c | c in s.clients :: Covers(l, c, s.hist)
  }

  lemma CoversLater<T>(l: Lattice<T>, c: Client<T>, hist: seq<Entry<T>>, next: seq<Entry<T>>)
    requires Covers(l, c, hist) && hist <= next
    ensures Covers(l, c, next)
  {
  }

  lemma SafeWith<T>(l: Lattice<T>, s: State<T>, next: seq<Entry<T>>, k: nat, after: Client<T>)
    requires Safe(l, s) && k < |s.clients| && s.hist <= next
    requires WellFormed(next) && SnapshotIncludes(l, next) && Covers(l, after, next)
    ensures Safe(l, State(next, s.clients[k := after]))
  {
    forall c | c in s.clients[k := after] ensures Covers(l, c, next) {
      if c != after {
        assert c in s.clients;
        CoversLater(l, c, s.hist, next);
      }
    }
  }

  lemma UpdateKeepsSnapshot<T(!new)>(l: Lattice<T>, hist: seq<Entry<T>>, data: T, next: seq<Entry<T>>)
    requires WellFormed(hist) && SnapshotIncludes(l, hist) && next == hist + [Update(data)]
    ensures WellFormed(next) && SnapshotIncludes(l, next)
  {
    AppendOne(hist, Update(data), next, 0);
    FloorInRange(hist);
  }

  lemma HydrateSafe<T(!new)>(l: Lattice<T>, c: Client<T>, hist: seq<Entry<T>>)
    requires Laws(l) && SnapshotIncludes(l, hist)
    ensures Covers(l, Hydrate(l, c, LoadSpec(hist, 0)), hist)
  {
    LoadLosesNothing(l, hist, c.doc, 0, Payloads(LoadSpec(hist, 0)));
  }

  lemma CompactSafe<T(!new)>(l: Lattice<T>, s: State<T>, k: nat)
    requires Safe(l, s) && k < |s.clients| && NothingNew(l, s.clients[k], s.hist)
    ensures Safe(l, Step(l, s, Compacted(k)))
  {
    var c := s.clients[k];
    assert Covers(l, c, s.hist);
    match AppendSpec(s.hist, SnapshotKind, c.doc, c.covered)
    case Ok(next) =>
      CompactClaimsIff(l, c, s.hist, next);
      AppendOne(s.hist, Snapshot(c.doc, c.covered), next, 0);
      SafeWith(l, s, next, k, c.(covered := |next|));
    case Err(_) =>
      assert s.clients[k := c] == s.clients;
  }

  lemma FlushSafe<T(!new)>(l: Lattice<T>, s: State<T>, k: nat, delta: T)
    requires Laws(l) && Safe(l, s) && Careful(l, s, Flushed(k, delta)) && k < |s.clients|
    ensures Safe(l, Step(l, s, Flushed(k, delta)))
  {
    var (next, after) := Flush(l, s.clients[k], s.hist, delta);
    UpdateKeepsSnapshot(l, s.hist, delta, next);
    FlushCoversIff(l, s.clients[k], s.hist, delta);
    SafeWith(l, s, next, k, after);
  }

  lemma StepSafe<T(!new)>(l: Lattice<T>, s: State<T>, e: Event<T>)
    requires Laws(l) && Safe(l, s) && Careful(l, s, e)
    ensures Safe(l, Step(l, s, e))
  {
    if e.k < |s.clients| {
      var c := s.clients[e.k];
      assert Covers(l, c, s.hist);
      match e
      case Edited(k, x) =>
        IncludesMore(l, c.doc, x, s.hist, c.covered);
        SafeWith(l, s, s.hist, k, c.(doc := l.join(c.doc, x)));
      case Hydrated(k) =>
        HydrateSafe(l, c, s.hist);
        SafeWith(l, s, s.hist, k, Hydrate(l, c, LoadSpec(s.hist, 0)));
      case Flushed(k, delta) => FlushSafe(l, s, k, delta);
      case Compacted(k) => CompactSafe(l, s, k);
    }
  }

  lemma {:induction false} RunSafe<T(!new)>(l: Lattice<T>, n: nat, events: seq<Event<T>>)
    requires Laws(l) && AllCareful(l, Fresh(l, n), events)
    ensures Safe(l, Run(l, Fresh(l, n), events))
    decreases |events|
  {
    if events != [] {
      var m := |events| - 1;
      forall i | 0 <= i < m ensures Careful(l, Run(l, Fresh(l, n), events[..m][..i]), events[..m][i]) {
        assert events[..m][..i] == events[..i];
      }
      RunSafe(l, n, events[..m]);
      StepSafe(l, Run(l, Fresh(l, n), events[..m]), events[m]);
    }
  }

  /** In every run of clients that merge their peers' frames before they append, compaction loses nothing: whatever a
      client holds, a load brings it every update ever appended. */
  lemma CarefulRunLosesNothing<T(!new)>(l: Lattice<T>, n: nat, events: seq<Event<T>>, client: T, since: int, ys: seq<T>)
    requires Laws(l) && AllCareful(l, Fresh(l, n), events)
    requires var hist := Run(l, Fresh(l, n), events).hist;
      Includes(l, client, hist, since) && Delivers(ys, LoadSpec(hist, since))
    ensures Below(l, Document(l, Run(l, Fresh(l, n), events).hist), JoinAll(l, [client] + ys))
  {
    RunSafe(l, n, events);
    LoadLosesNothing(l, Run(l, Fresh(l, n), events).hist, client, since, ys);
  }

  /** And the claim is needed: over sets with disjoint updates, an accepted compaction serves every client if and only
      if its poster covered what it claimed. */
  lemma CompactionServesIff(c: Client<set<int>>, hist: seq<Entry<set<int>>>, next: seq<Entry<set<int>>>)
    requires 0 <= c.covered <= |hist| && AppendSpec(hist, SnapshotKind, c.doc, c.covered) == Ok(next)
    requires Disjoint(hist)
    ensures NoClientLoses(next) <==> Covers(SetUnion(), c, hist)
  {
    CompactClaimsIff(SetUnion(), c, hist, next);
    NoClientLosesIff(next);
  }

  /** The clients as they are do lose work. Two of them load an empty log; the first appends, then the second, which
      takes the first one's seq for covered, too, and compacts. Who loads after that gets the second one's update
      only. */
  lemma OverclaimLosesWork()
    ensures
      var l := SetUnion();
      var events := [Hydrated(0), Hydrated(1), Flushed(0, {1}), Flushed(1, {2}), Compacted(1)];
      var hist := Run(l, Fresh(l, 2), events).hist;
      && hist == [Update({1}), Update({2}), Snapshot({2}, 2)] && Appended(hist)
      && LoadSpec(hist, 0) == Log(Some(Frame(3, {2}, 2)), [], 3)
      && Document(l, hist) == {1, 2} && Hydrate(l, Client({}, 0), LoadSpec(hist, 0)).doc == {2}
  {
    var h0: seq<Entry<set<int>>> := [];
    var h1: seq<Entry<set<int>>> := [Update({1})];
    var h2 := h1 + [Update({2})];
    var h3 := h2 + [Snapshot({2}, 2)];
    TwoClientsRun(h1, h2, h3);
    assert h1[..0] == h0 && h2[..1] == h1 && h3[..2] == h2;
    assert h0 + [Update({1})] == h1;
    assert AppendSpec(h0, UpdateKind, {1}, 0) == Ok(h1) && AppendSpec(h1, UpdateKind, {2}, 0) == Ok(h2);
    assert LastSnapshot(h2) == LastSnapshot(h1) == LastSnapshot(h0) == None;
    assert AppendSpec(h2, SnapshotKind, {2}, 2) == Ok(h3);
    assert Appended(h0) && Appended(h1) && Appended(h2) && Appended(h3);
    assert UpdatesAbove(h3, 2) == UpdatesAbove(h2, 2) == UpdatesAbove(h1, 2) == UpdatesAbove(h0, 2);
    OnlyTheSecond(h1, h2, h3);
  }

  lemma OnlyTheSecond(h1: seq<Entry<set<int>>>, h2: seq<Entry<set<int>>>, h3: seq<Entry<set<int>>>)
    requires h1 == [Update({1})] && h2 == h1 + [Update({2})] && h3 == h2 + [Snapshot({2}, 2)]
    ensures Document(SetUnion(), h3) == {1, 2}
    ensures Hydrate(SetUnion(), Client({}, 0), Log(Some(Frame(3, {2}, 2)), [], 3)).doc == {2}
  {
    assert h1[..0] == [] && h2[..1] == h1 && h3[..2] == h2;
    var both, second: seq<set<int>> := [{1}, {2}], [{}, {2}];
    assert Updates(h1) == Updates(h1[..0]) + [{1}] && Updates(h3) == Updates(h2) == Updates(h1) + [{2}] == both;
    var last: seq<set<int>> := [{2}];
    assert both[1..] == last && second[1..] == last && last[1..] == [];
    var empty: set<int> := {};
    assert {2} + empty == {2} && empty + {2} == {2} && {1} + {2} == {1, 2};
    assert JoinAll(SetUnion(), last) == {2};
    assert second[..1] + Payloads(Log(Some(Frame(3, {2}, 2)), [], 3)) == second;
  }

  lemma TwoClientsRun(h1: seq<Entry<set<int>>>, h2: seq<Entry<set<int>>>, h3: seq<Entry<set<int>>>)
    requires h1 == [Update({1})] && h2 == h1 + [Update({2})] && h3 == h2 + [Snapshot({2}, 2)]
    ensures var l := SetUnion();
      Run(l, Fresh(l, 2), [Hydrated(0), Hydrated(1), Flushed(0, {1}), Flushed(1, {2}), Compacted(1)]).hist == h3
  {
    var l := SetUnion();
    var s := Fresh(l, 2);
    var events: seq<Event<set<int>>> := [Hydrated(0), Hydrated(1), Flushed(0, {1}), Flushed(1, {2}), Compacted(1)];
    var one := State(h1, [Client({1}, 1), Client({}, 0)]);
    var two := State(h2, [Client({1}, 1), Client({2}, 2)]);
    HydratedSteps(s);
    FlushedSteps(s, one, two);
    CompactedStep(two, h1);
    assert Run(l, s, events[..0]) == s;
    RunNext(l, s, events, 0, s, s);
    RunNext(l, s, events, 1, s, s);
    RunNext(l, s, events, 2, s, one);
    RunNext(l, s, events, 3, one, two);
    RunNext(l, s, events, 4, two, Step(l, two, events[4]));
    assert events[..5] == events;
  }

  lemma RunNext<T>(l: Lattice<T>, s: State<T>, events: seq<Event<T>>, n: nat, before: State<T>, after: State<T>)
    requires n < |events| && Run(l, s, events[..n]) == before && Step(l, before, events[n]) == after
    ensures Run(l, s, events[..n + 1]) == after
  {
    assert events[..n + 1][..n] == events[..n];
  }

  lemma HydratedSteps(s: State<set<int>>)
    requires s == Fresh(SetUnion(), 2)
    ensures Step(SetUnion(), s, Hydrated(0)) == s && Step(SetUnion(), s, Hydrated(1)) == s
  {
    HydrateNothing();
    assert s.clients[0 := s.clients[0]] == s.clients && s.clients[1 := s.clients[1]] == s.clients;
  }

  lemma FlushedSteps(s: State<set<int>>, one: State<set<int>>, two: State<set<int>>)
    requires s == Fresh(SetUnion(), 2)
    requires one == State([Update({1})], [Client({1}, 1), Client({}, 0)])
    requires two == State([Update({1})] + [Update({2})], [Client({1}, 1), Client({2}, 2)])
    ensures Step(SetUnion(), s, Flushed(0, {1})) == one && Step(SetUnion(), one, Flushed(1, {2})) == two
  {
    var empty: set<int> := {};
    assert empty + {1} == {1} && empty + {2} == {2};
  }

  lemma CompactedStep(s: State<set<int>>, h1: seq<Entry<set<int>>>)
    requires h1 == [Update({1})] && s.hist == h1 + [Update({2})] && s.clients == [Client({1}, 1), Client({2}, 2)]
    ensures Step(SetUnion(), s, Compacted(1)).hist == s.hist + [Snapshot({2}, 2)]
  {
    assert s.hist[..1] == h1 && h1[..0] == [] && LastSnapshot(s.hist) == LastSnapshot(h1) == None;
    assert AppendSpec(s.hist, SnapshotKind, {2}, 2) == Ok(s.hist + [Snapshot({2}, 2)]);
  }

  lemma HydrateNothing()
    ensures Hydrate(SetUnion(), Client({}, 0), LoadSpec<set<int>>([], 0)) == Client({}, 0)
  {
    var none: seq<set<int>> := [{}];
    assert none[1..] == [] && none[0] + none[0] == none[0];
    assert none + Payloads(LoadSpec<set<int>>([], 0)) == none;
  }
}
