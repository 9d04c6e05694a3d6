/** backend/updatelog: compaction loses nothing. Updates are elements of a join semilattice, as CRDT states are; a
    client merges by joining. */
module Convergence {
  import opened Common
  import opened UpdateLog

  datatype Lattice<!T> = Lattice(join: (T, T) -> T, bottom: T)

  // One instance of each law; naming the instances keeps them out of the way until they are asked for.
  ghost predicate AssocAt<T>(l: Lattice<T>, x: T, y: T, z: T) {
    l.join(l.join(x, y), z) == l.join(x, l.join(y, z))
  }

  ghost predicate CommAt<T>(l: Lattice<T>, x: T, y: T) {
    l.join(x, y) == l.join(y, x)
  }

  ghost predicate IdemAt<T>(l: Lattice<T>, x: T) {
    l.join(x, x) == x && l.join(l.bottom, x) == x
  }

  ghost predicate Laws<T(!new)>(l: Lattice<T>) {
    && (forall x, y, z :: AssocAt(l, x, y, z))
    && (forall x, y :: CommAt(l, x, y))
    && (forall x :: IdemAt(l, x))
  }

  ghost predicate Below<T>(l: Lattice<T>, x: T, y: T) {
    l.join(x, y) == y
  }

  /** The state of a client that merged xs in this order. */
  function JoinAll<T>(l: Lattice<T>, xs: seq<T>): T {
    if xs == [] then l.bottom else l.join(xs[0], JoinAll(l, xs[1..]))
  }

  lemma BelowTransitive<T(!new)>(l: Lattice<T>, x: T, y: T, z: T)
    requires Laws(l) && Below(l, x, y) && Below(l, y, z)
    ensures Below(l, x, z)
  {
    assert AssocAt(l, x, y, z);
  }

  lemma BelowAntisymmetric<T(!new)>(l: Lattice<T>, x: T, y: T)
    requires Laws(l) && Below(l, x, y) && Below(l, y, x)
    ensures x == y
  {
    assert CommAt(l, x, y);
  }

  lemma BelowJoin<T(!new)>(l: Lattice<T>, x: T, y: T)
    requires Laws(l)
    ensures Below(l, x, l.join(x, y)) && Below(l, y, l.join(x, y))
  {
    assert AssocAt(l, x, x, y) && IdemAt(l, x);
    assert CommAt(l, x, y) && AssocAt(l, y, y, x) && IdemAt(l, y);
  }

  lemma JoinIsLeast<T(!new)>(l: Lattice<T>, x: T, y: T, z: T)
    requires Laws(l) && Below(l, x, z) && Below(l, y, z)
    ensures Below(l, l.join(x, y), z)
  {
    assert AssocAt(l, x, y, z);
  }

  lemma {:induction false} JoinAllIsUpperBound<T(!new)>(l: Lattice<T>, xs: seq<T>, i: nat)
    requires Laws(l) && i < |xs|
    ensures Below(l, xs[i], JoinAll(l, xs))
  {
    BelowJoin(l, xs[0], JoinAll(l, xs[1..]));
    if i > 0 {
      JoinAllIsUpperBound(l, xs[1..], i - 1);
      BelowTransitive(l, xs[i], JoinAll(l, xs[1..]), JoinAll(l, xs));
    }
  }

  lemma {:induction false} JoinAllIsLeast<T(!new)>(l: Lattice<T>, xs: seq<T>, z: T)
    requires Laws(l) && forall i | 0 <= i < |xs| :: Below(l, xs[i], z)
    ensures Below(l, JoinAll(l, xs), z)
  {
    if xs == [] {
      assert IdemAt(l, z);
    } else {
      assert forall i | 0 <= i < |xs[1..]| :: xs[1..][i] == xs[i + 1];
      JoinAllIsLeast(l, xs[1..], z);
      assert AssocAt(l, xs[0], JoinAll(l, xs[1..]), z);
    }
  }

  // ---------- snapshots and clients that hold what they claim ----------

  /** The payloads of all updates of a history. */
  function Updates<T>(hist: seq<Entry<T>>): seq<T> {
    if hist == [] then []
    else Updates(hist[..|hist| - 1]) + (if hist[|hist| - 1].Update? then [hist[|hist| - 1].data] else [])
  }

  /** The document: the join of every update ever appended. */
  function Document<T>(l: Lattice<T>, hist: seq<Entry<T>>): T {
    JoinAll(l, Updates(hist))
  }

  /** x includes every update with seq <= upTo. */
  ghost predicate Includes<T>(l: Lattice<T>, x: T, hist: seq<Entry<T>>, upTo: int) {
    forall i | 0 <= i < |hist| && i < upTo && hist[i].Update? :: Below(l, hist[i].data, x)
  }

  /** And nothing that was not appended. */
  ghost predicate HoldsUpTo<T>(l: Lattice<T>, x: T, hist: seq<Entry<T>>, upTo: int) {
    Includes(l, x, hist, upTo) && Below(l, x, Document(l, hist))
  }

  /** The latest snapshot includes every update at or below its floor. */
  ghost predicate SnapshotIncludes<T>(l: Lattice<T>, hist: seq<Entry<T>>) {
    LastSnapshot(hist).Some? ==> Includes(l, LastSnapshot(hist).value.data, hist, Floor(hist))
  }

  ghost predicate SnapshotHolds<T>(l: Lattice<T>, hist: seq<Entry<T>>) {
    LastSnapshot(hist).Some? ==> HoldsUpTo(l, LastSnapshot(hist).value.data, hist, Floor(hist))
  }

  lemma {:induction false} UpdatesExact<T>(hist: seq<Entry<T>>, i: nat)
    requires i < |hist| && hist[i].Update?
    ensures hist[i].data in Updates(hist)
  {
    if i < |hist| - 1 {
      UpdatesExact(hist[..|hist| - 1], i);
    }
  }

  lemma {:induction false} UpdatesOfPrefix<T>(hist: seq<Entry<T>>, i: nat)
    requires i <= |hist|
    ensures Updates(hist[..i]) <= Updates(hist)
  {
    if i < |hist| {
      UpdatesOfPrefix(hist[..|hist| - 1], i);
      assert hist[..|hist| - 1][..i] == hist[..i];
    } else {
      assert hist[..i] == hist;
    }
  }

  lemma InDocument<T(!new)>(l: Lattice<T>, hist: seq<Entry<T>>, x: T)
    requires Laws(l) && x in Updates(hist)
    ensures Below(l, x, Document(l, hist))
  {
    var i :| 0 <= i < |Updates(hist)| && Updates(hist)[i] == x;
    JoinAllIsUpperBound(l, Updates(hist), i);
  }

  lemma DocumentGrows<T(!new)>(l: Lattice<T>, hist: seq<Entry<T>>, i: nat)
    requires Laws(l) && i <= |hist|
    ensures Below(l, Document(l, hist[..i]), Document(l, hist))
  {
    UpdatesOfPrefix(hist, i);
    var early := Updates(hist[..i]);
    forall j | 0 <= j < |early| ensures Below(l, early[j], Document(l, hist)) {
      assert early[j] == Updates(hist)[j];
      InDocument(l, hist, early[j]);
    }
    JoinAllIsLeast(l, early, Document(l, hist));
  }

  // ---------- what a client merges ----------

  /** The bound that a load chooses: the snapshot's floor for a client below it. */
  function BoundOf<T>(hist: seq<Entry<T>>, since: int): int {
    if since < Floor(hist) then Floor(hist) else since
  }

  function Payloads<T>(log: Log<T>): seq<T> {
    (if log.snapshot.Some? then [log.snapshot.value.data] else []) +
    seq(|log.frames|, i requires 0 <= i < |log.frames| => log.frames[i].data)
  }

  /** ys is the load in any order, with any repeats. */
  ghost predicate Delivers<T(!new)>(ys: seq<T>, log: Log<T>) {
    forall x :: x in ys <==> x in Payloads(log)
  }

  /** What the client has once it merged the snapshot it was sent, if any. */
  function Merged<T>(l: Lattice<T>, client: T, log: Log<T>): T {
    if log.snapshot.Some? then l.join(client, log.snapshot.value.data) else client
  }

  /** A load that lacks nothing: its frames are the updates above `lower`, and everything at or below `lower` is in the
      client already or in the snapshot. */
  ghost predicate Complete<T>(l: Lattice<T>, client: T, hist: seq<Entry<T>>, log: Log<T>, lower: int) {
    && log.frames == UpdatesAbove(hist, lower)
    && Includes(l, Merged(l, client, log), hist, lower)
  }

  /** A load of appended updates only. */
  ghost predicate Genuine<T>(l: Lattice<T>, hist: seq<Entry<T>>, log: Log<T>, lower: int) {
    && log.frames == UpdatesAbove(hist, lower)
    && (log.snapshot.Some? ==> Below(l, log.snapshot.value.data, Document(l, hist)))
  }

  lemma PayloadBelowDocument<T(!new)>(l: Lattice<T>, hist: seq<Entry<T>>, log: Log<T>, lower: int, y: T)
    requires Laws(l) && Genuine(l, hist, log, lower) && y in Payloads(log)
    ensures Below(l, y, Document(l, hist))
  {
    if !(log.snapshot.Some? && y == log.snapshot.value.data) {
      var i :| 0 <= i < |log.frames| && log.frames[i].data == y;
      UpdatesAboveExact(hist, lower, log.frames[i]);
      assert log.frames[i] in log.frames;
      UpdatesExact(hist, log.frames[i].seqNo - 1);
      InDocument(l, hist, y);
    }
  }

  lemma MergedArrives<T(!new)>(l: Lattice<T>, client: T, log: Log<T>, ys: seq<T>)
    requires Laws(l) && Delivers(ys, log)
    ensures Below(l, Merged(l, client, log), JoinAll(l, [client] + ys))
  {
    var all := [client] + ys;
    var whole := JoinAll(l, all);
    assert all[0] == client;
    JoinAllIsUpperBound(l, all, 0);
    if log.snapshot.Some? {
      var data := log.snapshot.value.data;
      assert Payloads(log)[0] == data;
      assert data in ys && data in all;
      var j :| 0 <= j < |all| && all[j] == data;
      JoinAllIsUpperBound(l, all, j);
      JoinIsLeast(l, client, data, whole);
    }
  }

  lemma UpdateReachesClient<T(!new)>(l: Lattice<T>, client: T, hist: seq<Entry<T>>, log: Log<T>, lower: int,
                                     ys: seq<T>, i: nat)
    requires Laws(l) && Complete(l, client, hist, log, lower) && Delivers(ys, log)
    requires i < |hist| && hist[i].Update?
    ensures Below(l, hist[i].data, JoinAll(l, [client] + ys))
  {
    var all := [client] + ys;
    if i < lower {
      MergedArrives(l, client, log, ys);
      BelowTransitive(l, hist[i].data, Merged(l, client, log), JoinAll(l, all));
    } else {
      var f := Frame(i + 1, hist[i].data, 0);
      UpdatesAboveExact(hist, lower, f);
      var k :| 0 <= k < |log.frames| && log.frames[k] == f;
      var off := if log.snapshot.Some? then 1 else 0;
      assert Payloads(log)[off + k] == f.data;
      assert f.data in ys;
      assert f.data in all;
      var j :| 0 <= j < |all| && all[j] == f.data;
      JoinAllIsUpperBound(l, all, j);
    }
  }

  lemma {:induction false} UpdatesComeFromHistory<T>(hist: seq<Entry<T>>, x: T) returns (i: nat)
    requires x in Updates(hist)
    ensures i < |hist| && hist[i] == Update(x)
  {
    var n := |hist| - 1;
    if x in Updates(hist[..n]) {
      i := UpdatesComeFromHistory(hist[..n], x);
    } else {
      i := n;
    }
  }

  /** Whatever else the client holds or was sent, it ends with every update ever appended. */
  lemma CompleteLoadLosesNothing<T(!new)>(l: Lattice<T>, client: T, hist: seq<Entry<T>>, log: Log<T>, lower: int,
                                          ys: seq<T>)
    requires Laws(l) && Complete(l, client, hist, log, lower) && Delivers(ys, log)
    ensures Below(l, Document(l, hist), JoinAll(l, [client] + ys))
    ensures Includes(l, JoinAll(l, [client] + ys), hist, |hist|)
  {
    var whole := JoinAll(l, [client] + ys);
    forall i: nat | i < |hist| && hist[i].Update? ensures Below(l, hist[i].data, whole) {
      UpdateReachesClient(l, client, hist, log, lower, ys, i);
    }
    var ups := Updates(hist);
    forall j | 0 <= j < |ups| ensures Below(l, ups[j], whole) {
      assert ups[j] in ups;
      var i := UpdatesComeFromHistory(hist, ups[j]);
    }
    JoinAllIsLeast(l, ups, whole);
  }

  lemma GenuineLoadAddsNothing<T(!new)>(l: Lattice<T>, client: T, hist: seq<Entry<T>>, log: Log<T>, lower: int,
                                        ys: seq<T>)
    requires Laws(l) && Genuine(l, hist, log, lower) && Delivers(ys, log)
    requires Below(l, client, Document(l, hist))
    ensures Below(l, JoinAll(l, [client] + ys), Document(l, hist))
  {
    var all, doc := [client] + ys, Document(l, hist);
    forall j | 0 <= j < |all| ensures Below(l, all[j], doc) {
      if j > 0 {
        assert all[j] in ys;
        PayloadBelowDocument(l, hist, log, lower, all[j]);
      }
    }
    JoinAllIsLeast(l, all, doc);
  }

  lemma CompleteLoadConverges<T(!new)>(l: Lattice<T>, client: T, hist: seq<Entry<T>>, log: Log<T>, lower: int,
                                       ys: seq<T>)
    requires Laws(l) && Complete(l, client, hist, log, lower) && Genuine(l, hist, log, lower) && Delivers(ys, log)
    requires Below(l, client, Document(l, hist))
    ensures JoinAll(l, [client] + ys) == Document(l, hist)
  {
    CompleteLoadLosesNothing(l, client, hist, log, lower, ys);
    GenuineLoadAddsNothing(l, client, hist, log, lower, ys);
    BelowAntisymmetric(l, JoinAll(l, [client] + ys), Document(l, hist));
  }

  /** What the client or the snapshot includes, the client includes after merging the snapshot. */
  lemma IncludedIsMerged<T(!new)>(l: Lattice<T>, client: T, hist: seq<Entry<T>>, log: Log<T>, lower: int)
    requires Laws(l)
    requires Includes(l, if log.snapshot.Some? then log.snapshot.value.data else client, hist, lower)
    ensures Includes(l, Merged(l, client, log), hist, lower)
  {
    if log.snapshot.Some? {
      var data := log.snapshot.value.data;
      BelowJoin(l, client, data);
      forall i | 0 <= i < |hist| && i < lower && hist[i].Update?
        ensures Below(l, hist[i].data, l.join(client, data))
      {
        BelowTransitive(l, hist[i].data, data, l.join(client, data));
      }
    }
  }

  lemma SpecIsComplete<T(!new)>(l: Lattice<T>, hist: seq<Entry<T>>, client: T, since: int, log: Log<T>)
    requires Laws(l) && log == LoadSpec(hist, since)
    requires Includes(l, client, hist, since) && (since < Floor(hist) ==> SnapshotIncludes(l, hist))
    ensures Complete(l, client, hist, log, BoundOf(hist, since))
  {
    if LastSnapshot(hist).None? && since < 0 {
      NothingBelowOne(hist, since);
    }
    IncludedIsMerged(l, client, hist, log, BoundOf(hist, since));
  }

  /** Compaction loses nothing: a client that includes all updates up to `since` and merges what Load(since) returns, in
      any order and with repeats, includes every update ever appended, as long as the snapshot it may be sent includes
      what its floor claims. */
  lemma LoadLosesNothing<T(!new)>(l: Lattice<T>, hist: seq<Entry<T>>, client: T, since: int, ys: seq<T>)
    requires Laws(l) && Includes(l, client, hist, since) && Delivers(ys, LoadSpec(hist, since))
    requires since < Floor(hist) ==> SnapshotIncludes(l, hist)
    ensures Below(l, Document(l, hist), JoinAll(l, [client] + ys))
    ensures Includes(l, JoinAll(l, [client] + ys), hist, |hist|)
  {
    SpecIsComplete(l, hist, client, since, LoadSpec(hist, since));
    CompleteLoadLosesNothing(l, client, hist, LoadSpec(hist, since), BoundOf(hist, since), ys);
  }

  /** When client and snapshot hold nothing that was not appended, the client ends with the join of every update ever
      appended, and nothing else. */
  lemma LoadConverges<T(!new)>(l: Lattice<T>, hist: seq<Entry<T>>, client: T, since: int, ys: seq<T>)
    requires Laws(l) && HoldsUpTo(l, client, hist, since) && Delivers(ys, LoadSpec(hist, since))
    requires since < Floor(hist) ==> SnapshotHolds(l, hist)
    ensures JoinAll(l, [client] + ys) == Document(l, hist)
  {
    SpecIsComplete(l, hist, client, since, LoadSpec(hist, since));
    CompleteLoadConverges(l, client, hist, LoadSpec(hist, since), BoundOf(hist, since), ys);
  }

  // ---------- the database store: one transaction per append, three statements per load ----------

  /** The rows hold the history with no leftovers: the prune commits together with the snapshot. */
  ghost predicate Exact<T>(d: Disk<T>, hist: seq<Entry<T>>) {
    d == Disk(LastSnapshot(hist), UpdatesAbove(hist, Floor(hist)))
  }

  /** Load of PostgresStore: the snapshot is read in state d0, the head in d1, the rows in d2. */
  function LoadInThreeStatements<T>(d0: Disk<T>, d1: Disk<T>, d2: Disk<T>, since: int): Log<T> {
    if d0.snap.Some? && since < d0.snap.value.floor then
      Log(d0.snap, Above(d2.frames, d0.snap.value.floor), HeadOf(d1))
    else
      Log(None, Above(d2.frames, since), HeadOf(d1))
  }

  lemma UpdatesAboveFacts<T>(hist: seq<Entry<T>>, lower: int)
    ensures Ascending(UpdatesAbove(hist, lower)) && Stored(UpdatesAbove(hist, lower), hist)
    ensures Above(UpdatesAbove(hist, lower), lower) == UpdatesAbove(hist, lower)
  {
    UpdatesAboveTwice(hist, lower, lower);
    forall f | f in UpdatesAbove(hist, lower)
      ensures 1 <= f.seqNo <= |hist| && f == Frame(f.seqNo, hist[f.seqNo - 1].data, 0) && hist[f.seqNo - 1].Update?
    {
      UpdatesAboveExact(hist, lower, f);
    }
    UpdatesAboveAscends(hist, lower);
  }

  lemma ExactRepresents<T>(d: Disk<T>, hist: seq<Entry<T>>)
    requires Exact(d, hist)
    ensures Represents(d, hist)
  {
    UpdatesAboveFacts(hist, Floor(hist));
  }

  /** Taken as one atomic read, the database load is the load of the same abstract log. */
  lemma AtomicLoadRefines<T>(d: Disk<T>, hist: seq<Entry<T>>, since: int)
    requires Exact(d, hist) && WellFormed(hist)
    ensures LoadInThreeStatements(d, d, d, since) == LoadSpec(hist, since)
  {
    ExactRepresents(d, hist);
    LeftoversUnobservable(d, hist, since);
  }

  /** Spread over three states it misses frames exactly when a compaction committed before the last statement has
      pruned an update above the bound the first statement chose. */
  lemma SplitLoadMissesExactly<T>(h0: seq<Entry<T>>, d0: Disk<T>, d1: Disk<T>, h2: seq<Entry<T>>, d2: Disk<T>,
                                  since: int)
    requires Exact(d0, h0) && Exact(d2, h2) && WellFormed(h2) && 0 <= since
    ensures
      var lower := BoundOf(h0, since);
      LoadInThreeStatements(d0, d1, d2, since).frames == UpdatesAbove(h2, lower)
      <==> forall i | 0 <= i < |h2| && h2[i].Update? :: !(lower < i + 1 <= Floor(h2))
  {
    var lower := if since < Floor(h0) then Floor(h0) else since;
    var floor := Floor(h2);
    if lower >= floor {
      UpdatesAboveTwice(h2, floor, lower);
    } else {
      NothingMorePruned(h2, lower, floor);
      UpdatesAboveTwice(h2, lower, floor);
      AboveOfHigher(h2, lower, floor);
    }
  }

  lemma AboveOfHigher<T>(hist: seq<Entry<T>>, lo: int, hi: int)
    requires lo <= hi
    ensures Above(UpdatesAbove(hist, hi), lo) == UpdatesAbove(hist, hi)
  {
    UpdatesAboveTwice(hist, hi, hi);
    if hist != [] {
      AboveAll(UpdatesAbove(hist, hi), lo) by {
        forall f | f in UpdatesAbove(hist, hi) ensures f.seqNo > lo { UpdatesAboveExact(hist, hi, f); }
      }
    }
  }

  lemma {:induction false} AboveAll<T>(frames: seq<Frame<T>>, lower: int)
    requires forall f | f in frames :: f.seqNo > lower
    ensures Above(frames, lower) == frames
  {
    if frames != [] {
      UnfoldFirst(frames);
      assert forall f | f in frames[1..] :: f in frames;
      AboveAll(frames[1..], lower);
    }
  }

  lemma {:induction false} NothingMorePruned<T>(hist: seq<Entry<T>>, lo: int, hi: int)
    requires lo <= hi
    ensures UpdatesAbove(hist, lo) == UpdatesAbove(hist, hi)
      <==> forall i | 0 <= i < |hist| && hist[i].Update? :: !(lo < i + 1 <= hi)
  {
    if forall i | 0 <= i < |hist| && hist[i].Update? :: !(lo < i + 1 <= hi) {
      NothingBetween(hist, lo, hi);
    } else {
      var i :| 0 <= i < |hist| && hist[i].Update? && lo < i + 1 <= hi;
      var f := Frame(i + 1, hist[i].data, 0);
      UpdatesAboveExact(hist, lo, f);
      UpdatesAboveExact(hist, hi, f);
    }
  }

  lemma {:induction false} NothingBetween<T>(hist: seq<Entry<T>>, lo: int, hi: int)
    requires lo <= hi && forall i | 0 <= i < |hist| && hist[i].Update? :: !(lo < i + 1 <= hi)
    ensures UpdatesAbove(hist, lo) == UpdatesAbove(hist, hi)
  {
    if hist != [] {
      var n := |hist| - 1;
      assert forall i | 0 <= i < n :: hist[..n][i] == hist[i];
      NothingBetween(hist[..n], lo, hi);
    }
  }

  function BothBounds<T>(h0: seq<Entry<T>>, h2: seq<Entry<T>>, since: int): int {
    if BoundOf(h0, since) < Floor(h2) then Floor(h2) else BoundOf(h0, since)
  }

  /** What the third statement finds: the updates above both the chosen bound and the floor of the last compaction. */
  lemma SplitLoadFrames<T>(h0: seq<Entry<T>>, d0: Disk<T>, d1: Disk<T>, h2: seq<Entry<T>>, d2: Disk<T>, since: int)
    requires Exact(d0, h0) && Exact(d2, h2) && 0 <= since
    ensures LoadInThreeStatements(d0, d1, d2, since).frames == UpdatesAbove(h2, BothBounds(h0, h2, since))
  {
    var lower := BoundOf(h0, since);
    if lower < Floor(h2) {
      AboveOfHigher(h2, lower, Floor(h2));
    } else {
      UpdatesAboveTwice(h2, Floor(h2), lower);
    }
  }

  /** An update that a compaction between the statements pruned. */
  predicate PrunedBetween<T>(h0: seq<Entry<T>>, h2: seq<Entry<T>>, since: int, i: nat) {
    i < |h2| && h2[i].Update? && BoundOf(h0, since) < i + 1 <= Floor(h2)
  }

  /** Every such update is in what the client has once it merged the snapshot it was sent. */
  ghost predicate NothingMissed<T>(l: Lattice<T>, h0: seq<Entry<T>>, h2: seq<Entry<T>>, since: int, client: T,
                                   log: Log<T>) {
    forall i: nat | PrunedBetween(h0, h2, since, i) :: Below(l, h2[i].data, Merged(l, client, log))
  }

  lemma SplitLoadIsComplete<T(!new)>(l: Lattice<T>, h0: seq<Entry<T>>, d0: Disk<T>, d1: Disk<T>,
                                     h2: seq<Entry<T>>, d2: Disk<T>, since: int, client: T)
    requires Laws(l) && WellFormed(h0) && h0 <= h2
    requires Exact(d0, h0) && Exact(d2, h2) && 0 <= since && Includes(l, client, h2, since)
    requires since < Floor(h0) ==> SnapshotHolds(l, h0)
    requires NothingMissed(l, h0, h2, since, client, LoadInThreeStatements(d0, d1, d2, since))
    ensures var log := LoadInThreeStatements(d0, d1, d2, since); var lower := BothBounds(h0, h2, since);
      Complete(l, client, h2, log, lower) && Genuine(l, h2, log, lower)
  {
    SplitLoadFrames(h0, d0, d1, h2, d2, since);
    var log := LoadInThreeStatements(d0, d1, d2, since);
    if log.snapshot.Some? {
      SnapshotStillHolds(l, h0, h2, log.snapshot.value);
    }
    IncludedIsMerged(l, client, h2, log, BoundOf(h0, since));
    MissesNothing(l, h0, h2, since, client, log);
  }

  lemma MissesNothing<T>(l: Lattice<T>, h0: seq<Entry<T>>, h2: seq<Entry<T>>, since: int, client: T, log: Log<T>)
    requires NothingMissed(l, h0, h2, since, client, log)
    requires Includes(l, Merged(l, client, log), h2, BoundOf(h0, since))
    ensures Includes(l, Merged(l, client, log), h2, BothBounds(h0, h2, since))
  {
    forall i | 0 <= i < |h2| && i < BothBounds(h0, h2, since) && h2[i].Update?
      ensures Below(l, h2[i].data, Merged(l, client, log))
    {
      var k: nat := i;
      assert i >= BoundOf(h0, since) ==> PrunedBetween(h0, h2, since, k);
    }
  }

  /** A snapshot keeps holding its floor's updates in every continuation of its history. */
  lemma SnapshotStillHolds<T(!new)>(l: Lattice<T>, h0: seq<Entry<T>>, h2: seq<Entry<T>>, s: Frame<T>)
    requires Laws(l) && WellFormed(h0) && SnapshotHolds(l, h0) && h0 <= h2 && LastSnapshot(h0) == Some(s)
    ensures HoldsUpTo(l, s.data, h2, s.floor)
  {
    FloorInRange(h0);
    StillHolds(l, s.data, h0, h2, s.floor);
  }

  lemma StillHolds<T(!new)>(l: Lattice<T>, x: T, before: seq<Entry<T>>, after: seq<Entry<T>>, upTo: int)
    requires Laws(l) && before <= after && HoldsUpTo(l, x, before, upTo) && upTo <= |before|
    ensures HoldsUpTo(l, x, after, upTo)
  {
    assert after[..|before|] == before;
    DocumentGrows(l, after, |before|);
    BelowTransitive(l, x, Document(l, before), Document(l, after));
  }

  /** The three statements converge when every update that was pruned in between is in the client or in the snapshot
      it was sent; in particular when nothing was. */
  lemma SplitLoadConverges<T(!new)>(l: Lattice<T>, h0: seq<Entry<T>>, d0: Disk<T>, d1: Disk<T>,
                                    h2: seq<Entry<T>>, d2: Disk<T>, since: int, client: T, ys: seq<T>)
    requires Laws(l) && WellFormed(h0) && h0 <= h2
    requires Exact(d0, h0) && Exact(d2, h2) && 0 <= since && HoldsUpTo(l, client, h2, since)
    requires since < Floor(h0) ==> SnapshotHolds(l, h0)
    requires Delivers(ys, LoadInThreeStatements(d0, d1, d2, since))
    requires NothingMissed(l, h0, h2, since, client, LoadInThreeStatements(d0, d1, d2, since))
    ensures JoinAll(l, [client] + ys) == Document(l, h2)
  {
    SplitLoadIsComplete(l, h0, d0, d1, h2, d2, since, client);
    var log := LoadInThreeStatements(d0, d1, d2, since);
    CompleteLoadConverges(l, client, h2, log, BothBounds(h0, h2, since), ys);
  }

  function SetUnion(): Lattice<set<int>> {
    Lattice((x: set<int>, y: set<int>) => x + y, {})
  }

  lemma SetUnionLaws()
    ensures Laws(SetUnion())
  {
    var l := SetUnion();
    forall x, y, z ensures AssocAt(l, x, y, z) {
      assert (x + y) + z == x + (y + z);
    }
    forall x, y ensures CommAt(l, x, y) {
      assert x + y == y + x;
    }
    forall x ensures IdemAt(l, x) {
      assert x + x == x && {} + x == x && x + {} == x;
    }
  }

  lemma {:induction false} JoinAllIsUnion(xs: seq<set<int>>, v: int)
    ensures v in JoinAll(SetUnion(), xs) <==> exists x :: x in xs && v in x
  {
    if xs != [] {
      UnfoldFirst(xs);
      JoinAllIsUnion(xs[1..], v);
    }
  }

  /** No two updates carry the same element. */
  predicate Disjoint(hist: seq<Entry<set<int>>>) {
    forall i, j | 0 <= i < j < |hist| && hist[i].Update? && hist[j].Update? :: hist[i].data !! hist[j].data
  }

  /** Over sets with disjoint updates the condition is exact: the client converges if and only if every update that was
      pruned between the statements is in what it had or in the snapshot it was sent. */
  lemma SplitLoadConvergesIff(h0: seq<Entry<set<int>>>, d0: Disk<set<int>>, d1: Disk<set<int>>,
                              h2: seq<Entry<set<int>>>, d2: Disk<set<int>>, since: int,
                              client: set<int>, ys: seq<set<int>>)
    requires WellFormed(h0) && h0 <= h2 && Disjoint(h2)
    requires Exact(d0, h0) && Exact(d2, h2) && 0 <= since && HoldsUpTo(SetUnion(), client, h2, since)
    requires since < Floor(h0) ==> SnapshotHolds(SetUnion(), h0)
    requires Delivers(ys, LoadInThreeStatements(d0, d1, d2, since))
    ensures var log := LoadInThreeStatements(d0, d1, d2, since);
      JoinAll(SetUnion(), [client] + ys) == Document(SetUnion(), h2) <==>
      NothingMissed(SetUnion(), h0, h2, since, client, log)
  {
    var l := SetUnion();
    SetUnionLaws();
    var log := LoadInThreeStatements(d0, d1, d2, since);
    if i: nat :| PrunedBetween(h0, h2, since, i) && !Below(l, h2[i].data, Merged(l, client, log)) {
      SplitLoadFrames(h0, d0, d1, h2, d2, since);
      PrunedUpdateIsLost(h2, log, Floor(h2), client, ys, i);
    } else {
      SplitLoadConverges(l, h0, d0, d1, h2, d2, since, client, ys);
    }
  }

  /** An update at or below the bound of the frames sent, and in neither the client nor the snapshot, does not arrive
      whole. */
  lemma PrunedUpdateIsLost(hist: seq<Entry<set<int>>>, log: Log<set<int>>, lower: int, client: set<int>,
                           ys: seq<set<int>>, i: nat)
    requires Disjoint(hist) && log.frames == UpdatesAbove(hist, lower) && Delivers(ys, log)
    requires i < |hist| && hist[i].Update? && i < lower &&
      !Below(SetUnion(), hist[i].data, Merged(SetUnion(), client, log))
    ensures !Below(SetUnion(), hist[i].data, JoinAll(SetUnion(), [client] + ys))
    ensures !Below(SetUnion(), Document(SetUnion(), hist), JoinAll(SetUnion(), [client] + ys))
  {
    var l := SetUnion();
    var all, data := [client] + ys, hist[i].data;
    SetUnionLaws();
    UpdatesExact(hist, i);
    InDocument(l, hist, data);
    JoinedOrMissing(data, Merged(l, client, log));
    var v :| v in data && v !in Merged(l, client, log);
    JoinAllIsUnion(all, v);
    if x :| x in all && v in x {
      assert x != client ==> x in ys && x in Payloads(log);
      if x != client {
        NotFromAFrame(hist, log, lower, i, x, v);
      }
    }
    assert v in Document(l, hist);
  }

  lemma JoinedOrMissing(x: set<int>, y: set<int>)
    ensures x + y == y || exists v :: v in x && v !in y
  {
    if !exists v :: v in x && v !in y {
      assert forall v | v in x + y :: v in y;
    }
  }

  lemma NotFromAFrame(hist: seq<Entry<set<int>>>, log: Log<set<int>>, lower: int, i: nat, x: set<int>, v: int)
    requires Disjoint(hist) && log.frames == UpdatesAbove(hist, lower) && x in Payloads(log) && v in x
    requires i < |hist| && hist[i].Update? && i < lower && v in hist[i].data
    ensures log.snapshot.Some? && v in log.snapshot.value.data
  {
    if !(log.snapshot.Some? && x == log.snapshot.value.data) {
      var k :| 0 <= k < |log.frames| && log.frames[k].data == x;
      UpdatesAboveExact(hist, lower, log.frames[k]);
    }
  }

  // ---------- exactly when every client is served ----------

  /** Every client that holds what it says is served every update, whatever it has besides. */
  ghost predicate NoClientLoses(hist: seq<Entry<set<int>>>) {
    forall client: set<int>, since: int, ys: seq<set<int>> |
      0 <= since && Includes(SetUnion(), client, hist, since) && Delivers(ys, LoadSpec(hist, since)) ::
      Below(SetUnion(), Document(SetUnion(), hist), JoinAll(SetUnion(), [client] + ys))
  }

  /** Over sets with disjoint updates that is so if and only if the latest snapshot includes what its floor claims. */
  lemma NoClientLosesIff(hist: seq<Entry<set<int>>>)
    requires Disjoint(hist)
    ensures NoClientLoses(hist) <==> (Floor(hist) > 0 ==> SnapshotIncludes(SetUnion(), hist))
  {
    var l := SetUnion();
    SetUnionLaws();
    if Floor(hist) > 0 && !SnapshotIncludes(l, hist) {
      var ys := NewClientLoses(hist);
    } else {
      forall client: set<int>, since: int, ys: seq<set<int>> |
        0 <= since && Includes(l, client, hist, since) && Delivers(ys, LoadSpec(hist, since))
        ensures Below(l, Document(l, hist), JoinAll(l, [client] + ys))
      {
        LoadLosesNothing(l, hist, client, since, ys);
      }
    }
  }

  /** A client that starts from nothing never gets what the snapshot should have included. */
  lemma NewClientLoses(hist: seq<Entry<set<int>>>) returns (ys: seq<set<int>>)
    requires Disjoint(hist) && Floor(hist) > 0 && !SnapshotIncludes(SetUnion(), hist)
    ensures Delivers(ys, LoadSpec(hist, 0)) && HoldsUpTo(SetUnion(), {}, hist, 0)
    ensures !Below(SetUnion(), Document(SetUnion(), hist), JoinAll(SetUnion(), [{}] + ys))
  {
    var log := LoadSpec(hist, 0);
    ys := Payloads(log);
    var data := log.snapshot.value.data;
    var i :| 0 <= i < |hist| && i < Floor(hist) && hist[i].Update? && !Below(SetUnion(), hist[i].data, data);
    var none: set<int> := {};
    assert none + data == data && none + Document(SetUnion(), hist) == Document(SetUnion(), hist);
    PrunedUpdateIsLost(hist, log, Floor(hist), {}, ys, i);
  }

  ghost predicate EveryClientConverges(hist: seq<Entry<set<int>>>) {
    forall client: set<int>, since: int, ys: seq<set<int>> |
      0 <= since && HoldsUpTo(SetUnion(), client, hist, since) && Delivers(ys, LoadSpec(hist, since)) ::
      JoinAll(SetUnion(), [client] + ys) == Document(SetUnion(), hist)
  }

  /** And every client ends with exactly the document if and only if that snapshot also holds nothing else. */
  lemma EveryClientConvergesIff(hist: seq<Entry<set<int>>>)
    requires Disjoint(hist)
    ensures EveryClientConverges(hist) <==> (Floor(hist) > 0 ==> SnapshotHolds(SetUnion(), hist))
  {
    var l := SetUnion();
    SetUnionLaws();
    if Floor(hist) > 0 && !SnapshotIncludes(l, hist) {
      var ys := NewClientLoses(hist);
      assert IdemAt(l, Document(l, hist));
      assert JoinAll(l, [{}] + ys) != Document(l, hist);
    } else if Floor(hist) > 0 && !SnapshotHolds(l, hist) {
      var ys := NewClientIsSentMore(hist);
    } else {
      forall client: set<int>, since: int, ys: seq<set<int>> |
        0 <= since && HoldsUpTo(l, client, hist, since) && Delivers(ys, LoadSpec(hist, since))
        ensures JoinAll(l, [client] + ys) == Document(l, hist)
      {
        LoadConverges(l, hist, client, since, ys);
      }
    }
  }

  lemma NewClientIsSentMore(hist: seq<Entry<set<int>>>) returns (ys: seq<set<int>>)
    requires Floor(hist) > 0 && SnapshotIncludes(SetUnion(), hist) && !SnapshotHolds(SetUnion(), hist)
    ensures Delivers(ys, LoadSpec(hist, 0)) && HoldsUpTo(SetUnion(), {}, hist, 0)
    ensures JoinAll(SetUnion(), [{}] + ys) != Document(SetUnion(), hist)
  {
    var l := SetUnion();
    var log := LoadSpec(hist, 0);
    ys := Payloads(log);
    var none: set<int> := {};
    assert none + Document(l, hist) == Document(l, hist);
    assert none + log.snapshot.value.data == log.snapshot.value.data;
    SetUnionLaws();
    MergedArrives(l, {}, log, ys);
  }

  // ---------- a second load after a split one ----------

  /** The next load, from the head that the split one answered, repairs what it missed exactly when a snapshot above
      that head has been written by then; otherwise the loss lasts. */
  lemma NextLoadRepairsIff(h0: seq<Entry<set<int>>>, d0: Disk<set<int>>, h1: seq<Entry<set<int>>>, d1: Disk<set<int>>,
                           h2: seq<Entry<set<int>>>, d2: Disk<set<int>>, h3: seq<Entry<set<int>>>, since: int,
                           client: set<int>, ys: seq<set<int>>, zs: seq<set<int>>)
    requires h0 <= h1 <= h2 <= h3 && Appended(h0) && Appended(h1) && Appended(h3) && Disjoint(h3)
    requires Exact(d0, h0) && Exact(d1, h1) && Exact(d2, h2)
    requires 0 <= since && HoldsUpTo(SetUnion(), client, h2, since)
    requires since < Floor(h0) ==> SnapshotHolds(SetUnion(), h0)
    requires |h1| < Floor(h3) ==> SnapshotHolds(SetUnion(), h3)
    requires Delivers(ys, LoadInThreeStatements(d0, d1, d2, since))
    requires Delivers(zs, LoadSpec(h3, LoadInThreeStatements(d0, d1, d2, since).head))
    ensures var l := SetUnion(); var log := LoadInThreeStatements(d0, d1, d2, since);
      && log.head == |h1|
      && (JoinAll(l, [JoinAll(l, [client] + ys)] + zs) == Document(l, h3) <==>
          log.head < Floor(h3) || NothingMissed(l, h0, h2, since, client, log))
  {
    AppendedIsWellFormed(h0);
    HeadOfExact(d1, h1);
    FloorsNeverFallTo(h2, h3);
    NextLoad(h0, d0, d1, h2, d2, h3, since, client, ys, zs, JoinAll(SetUnion(), [client] + ys), |h1|);
  }

  lemma NextLoad(h0: seq<Entry<set<int>>>, d0: Disk<set<int>>, d1: Disk<set<int>>, h2: seq<Entry<set<int>>>,
                 d2: Disk<set<int>>, h3: seq<Entry<set<int>>>, since: int, client: set<int>, ys: seq<set<int>>,
                 zs: seq<set<int>>, merged: set<int>, head: nat)
    requires h0 <= h2 <= h3 && WellFormed(h0) && Disjoint(h3) && Floor(h2) <= Floor(h3) && head <= |h2|
    requires Exact(d0, h0) && Exact(d2, h2) && 0 <= since && HoldsUpTo(SetUnion(), client, h2, since)
    requires since < Floor(h0) ==> SnapshotHolds(SetUnion(), h0)
    requires head < Floor(h3) ==> SnapshotHolds(SetUnion(), h3)
    requires Delivers(ys, LoadInThreeStatements(d0, d1, d2, since)) && Delivers(zs, LoadSpec(h3, head))
    requires merged == JoinAll(SetUnion(), [client] + ys)
    ensures JoinAll(SetUnion(), [merged] + zs) == Document(SetUnion(), h3) <==>
      head < Floor(h3) || NothingMissed(SetUnion(), h0, h2, since, client, LoadInThreeStatements(d0, d1, d2, since))
  {
    if head < Floor(h3) {
      SplitLoadAddsNothing(h0, d0, d1, h2, d2, since, client, ys);
      SnapshotRepairs(h2, h3, merged, head, zs);
    } else if NothingMissed(SetUnion(), h0, h2, since, client, LoadInThreeStatements(d0, d1, d2, since)) {
      SetUnionLaws();
      SplitLoadConverges(SetUnion(), h0, d0, d1, h2, d2, since, client, ys);
      NothingToRepair(h2, h3, head, merged, zs);
    } else {
      SplitLoadFrames(h0, d0, d1, h2, d2, since);
      StillLost(h0, h2, h3, since, LoadInThreeStatements(d0, d1, d2, since), client, ys, merged, head, zs);
    }
  }

  lemma HeadOfExact<T(!new)>(d: Disk<T>, hist: seq<Entry<T>>)
    requires Appended(hist) && Exact(d, hist)
    ensures HeadOf(d) == |hist|
  {
    AppendedIsWellFormed(hist);
    ExactRepresents(d, hist);
    HeadCountsAppends(d, hist);
  }

  lemma FloorsNeverFallTo<T(!new)>(before: seq<Entry<T>>, after: seq<Entry<T>>)
    requires Appended(after) && before <= after
    ensures Floor(before) <= Floor(after)
  {
    assert after[..|before|] == before;
    FloorsNeverFall(after, |before|);
  }

  lemma NothingToRepair(h2: seq<Entry<set<int>>>, h3: seq<Entry<set<int>>>, head: nat, merged: set<int>,
                        zs: seq<set<int>>)
    requires h2 <= h3 && merged == Document(SetUnion(), h2) && Floor(h3) <= head <= |h2|
    requires Delivers(zs, LoadSpec(h3, head))
    ensures JoinAll(SetUnion(), [merged] + zs) == Document(SetUnion(), h3)
  {
    SetUnionLaws();
    DocumentHoldsAll(SetUnion(), h2);
    StillHolds(SetUnion(), merged, h2, h3, head);
    LoadConverges(SetUnion(), h3, merged, head, zs);
  }

  lemma StillLost(h0: seq<Entry<set<int>>>, h2: seq<Entry<set<int>>>, h3: seq<Entry<set<int>>>, since: int,
                  log: Log<set<int>>, client: set<int>, ys: seq<set<int>>, merged: set<int>, head: nat,
                  zs: seq<set<int>>)
    requires h2 <= h3 && Disjoint(h3) && Floor(h2) <= Floor(h3) <= head
    requires log.frames == UpdatesAbove(h2, BothBounds(h0, h2, since)) && Delivers(ys, log)
    requires !NothingMissed(SetUnion(), h0, h2, since, client, log) && merged == JoinAll(SetUnion(), [client] + ys)
    requires Delivers(zs, LoadSpec(h3, head))
    ensures JoinAll(SetUnion(), [merged] + zs) != Document(SetUnion(), h3)
  {
    var l := SetUnion();
    var i: nat :| PrunedBetween(h0, h2, since, i) && !Below(l, h2[i].data, Merged(l, client, log));
    PrunedUpdateIsLost(h2, log, Floor(h2), client, ys, i);
    PrunedUpdateIsLost(h3, LoadSpec(h3, head), head, merged, zs, i);
    SetUnionLaws();
    assert IdemAt(l, Document(l, h3));
  }

  lemma DocumentHoldsAll<T(!new)>(l: Lattice<T>, hist: seq<Entry<T>>)
    requires Laws(l)
    ensures HoldsUpTo(l, Document(l, hist), hist, |hist|)
  {
    assert IdemAt(l, Document(l, hist));
    forall i: nat | i < |hist| && hist[i].Update? ensures Below(l, hist[i].data, Document(l, hist)) {
      UpdatesExact(hist, i);
      InDocument(l, hist, hist[i].data);
    }
  }

  lemma SplitLoadAddsNothing(h0: seq<Entry<set<int>>>, d0: Disk<set<int>>, d1: Disk<set<int>>, h2: seq<Entry<set<int>>>,
                             d2: Disk<set<int>>, since: int, client: set<int>, ys: seq<set<int>>)
    requires Exact(d0, h0) && Exact(d2, h2) && h0 <= h2 && WellFormed(h0)
    requires since < Floor(h0) ==> SnapshotHolds(SetUnion(), h0)
    requires 0 <= since && HoldsUpTo(SetUnion(), client, h2, since)
    requires Delivers(ys, LoadInThreeStatements(d0, d1, d2, since))
    ensures HoldsUpTo(SetUnion(), JoinAll(SetUnion(), [client] + ys), h2, 0)
  {
    var log := LoadInThreeStatements(d0, d1, d2, since);
    SetUnionLaws();
    SplitLoadFrames(h0, d0, d1, h2, d2, since);
    if log.snapshot.Some? {
      SnapshotStillHolds(SetUnion(), h0, h2, log.snapshot.value);
    }
    GenuineLoadAddsNothing(SetUnion(), client, h2, log, BothBounds(h0, h2, since), ys);
  }

  /** Whatever a client lacks, a load that sends the snapshot brings it. */
  lemma SnapshotRepairs(h2: seq<Entry<set<int>>>, hist: seq<Entry<set<int>>>, client: set<int>, since: int,
                        ys: seq<set<int>>)
    requires h2 <= hist && HoldsUpTo(SetUnion(), client, h2, 0)
    requires 0 <= since < Floor(hist) && SnapshotHolds(SetUnion(), hist) && Delivers(ys, LoadSpec(hist, since))
    ensures JoinAll(SetUnion(), [client] + ys) == Document(SetUnion(), hist)
  {
    var log := LoadSpec(hist, since);
    SetUnionLaws();
    StillHolds(SetUnion(), client, h2, hist, 0);
    IncludedIsMerged(SetUnion(), client, hist, log, Floor(hist));
    CompleteLoadConverges(SetUnion(), client, hist, log, Floor(hist), ys);
  }

  /** A compaction between the statements really loses an update: sets of numbers under union, one update, and a
      client that holds nothing. It receives neither the frame nor the snapshot, and a second load from the head that it
      was answered brings nothing either. */
  lemma SplitLoadCanLose()
    ensures
      var l := SetUnion();
      var h0 := [Update({7})];
      var h2 := h0 + [Snapshot({7}, 1)];
      var d0 := Disk(None, [Frame(1, {7}, 0)]);
      var d2 := Disk(Some(Frame(2, {7}, 1)), []);
      && Exact(d0, h0) && Exact(d2, h2) && Appended(h2)
      && LoadInThreeStatements(d0, d2, d2, 0) == Log(None, [], 2) && LoadSpec(h2, 2) == Log(None, [], 2)
      && Document(l, h2) == {7} && JoinAll(l, [{}]) == {}
  {
    var h0: seq<Entry<set<int>>> := [Update({7})];
    var h2 := h0 + [Snapshot({7}, 1)];
    var l := SetUnion();
    assert h0[..0] == [] && h2[..1] == h0;
    assert h0[..0] + [Update({7})] == h0;
    assert AppendSpec(h0[..0], UpdateKind, {7}, 0) == Ok(h0);
    assert AppendSpec(h0, SnapshotKind, {7}, 1) == Ok(h2);
    assert Appended(h0[..0]) && OneAppend(h0[..0], h0) && Appended(h0);
    assert OneAppend(h2[..1], h2);
    assert UpdatesAbove(h0, 0) == UpdatesAbove(h0[..0], 0) + [Frame(1, {7}, 0)];
    assert UpdatesAbove(h2, 1) == UpdatesAbove(h0, 1) && UpdatesAbove(h0, 1) == UpdatesAbove(h0[..0], 1);
    assert Updates(h2) == Updates(h0) && Updates(h0) == Updates(h0[..0]) + [{7}];
    assert UpdatesAbove(h2, 2) == UpdatesAbove(h0, 2) && UpdatesAbove(h0, 2) == UpdatesAbove(h0[..0], 2);
    var one, none: seq<set<int>> := [{7}], [{}];
    assert one[1..] == [] && none[1..] == [];
    var d0: Disk<set<int>> := Disk(None, [Frame(1, {7}, 0)]);
    var d2: Disk<set<int>> := Disk(Some(Frame(2, {7}, 1)), []);
    assert Exact(d0, h0);
    assert Exact(d2, h2);
    assert LoadInThreeStatements(d0, d2, d2, 0) == Log(None, [], 2);
    assert Updates(h2) == one && one[0] + {} == one[0];
  }

  class PostgresStore<T> {
    /** The row of file_update_snapshots, and the rows of file_updates by ascending seq. */
    var snapRow: Option<Frame<T>>
    var rows: seq<Frame<T>>
    ghost var hist: seq<Entry<T>>

    function Tables(): Disk<T>
      reads this
    {
      Disk(snapRow, rows)
    }

    ghost predicate Valid()
      reads this
    {
      Exact(Tables(), hist) && WellFormed(hist)
    }

    constructor ()
      ensures Valid() && hist == []
    {
      snapRow, rows, hist := None, [], [];
    }

    /** One transaction under the file's advisory lock: it commits as a whole or changes nothing. */
    method Append(kind: FrameKind, data: T, floor: int) returns (r: Result<Frame<T>, AppendError>)
      requires Valid()
      modifies this
      ensures Valid()
      ensures match AppendSpec(old(hist), kind, data, floor)
        case Ok(h) =>
          && hist == h && r.Ok? && r.value.seqNo == |old(hist)| + 1 && r.value.data == data
          && r.value.floor == (if kind.SnapshotKind? then Clamp(floor, |old(hist)|) else 0)
        case Err(e) => hist == old(hist) && r == Err(e) && Tables() == old(Tables())
    {
      if kind.UnknownKind? { return Err(InvalidKind); }
      ExactRepresents(Tables(), hist);
      HeadCountsAppends(Tables(), hist);
      var head := HeadOf(Tables());
      var seqNo := head + 1;
      if kind.SnapshotKind? {
        var f := Clamp(floor, head);
        if snapRow.Some? && f < snapRow.value.floor { return Err(StaleSnapshot); }
        FloorInRange(hist);
        var frame := UpsertSnapshot(seqNo, data, f);
        return Ok(frame);
      }
      var frame := InsertUpdate(seqNo, data);
      return Ok(frame);
    }

    method UpsertSnapshot(seqNo: int, data: T, floor: int) returns (frame: Frame<T>)
      requires Valid() && seqNo == |hist| + 1 && Floor(hist) <= floor <= |hist| && 0 <= floor
      modifies this
      ensures Valid() && hist == old(hist) + [Snapshot(data, floor)] && frame == Frame(seqNo, data, floor)
    {
      ghost var next := hist + [Snapshot(data, floor)];
      AppendOne(hist, Snapshot(data, floor), next, floor);
      UpdatesAboveTwice(hist, Floor(hist), floor);
      frame := Frame(seqNo, data, floor);
      snapRow := Some(frame);
      rows := Above(rows, floor);
      hist := next;
    }

    method InsertUpdate(seqNo: int, data: T) returns (frame: Frame<T>)
      requires Valid() && seqNo == |hist| + 1
      modifies this
      ensures Valid() && hist == old(hist) + [Update(data)] && frame == Frame(seqNo, data, 0)
    {
      ghost var next := hist + [Update(data)];
      FloorInRange(hist);
      AppendOne(hist, Update(data), next, Floor(hist));
      frame := Frame(seqNo, data, 0);
      rows := rows + [frame];
      hist := next;
    }

    /** Load with no commit between its three statements. */
    method Load(since: int) returns (log: Log<T>)
      requires Valid()
      ensures log == LoadSpec(hist, since)
    {
      AtomicLoadRefines(Tables(), hist, since);
      var head := HeadOf(Tables());
      var lower, snapshot := since, None;
      if snapRow.Some? && since < snapRow.value.floor {
        snapshot, lower := snapRow, snapRow.value.floor;
      }
      log := Log(snapshot, Above(rows, lower), head);
    }
  }
}
