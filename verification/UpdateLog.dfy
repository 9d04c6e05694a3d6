/** backend/updatelog: the per-file log of opaque CRDT updates, its compaction, and why nothing is lost. */
module UpdateLog {
  import opened Common

  // ---------- the keep-everything log ----------

  /** What was appended: entry i of a history was assigned seq i + 1. A snapshot carries the clamped floor. */
  datatype Entry<T> = Update(data: T) | Snapshot(data: T, floor: int)

  /** A stored frame; `floor` is meaningful on snapshots only. */
  datatype Frame<T> = Frame(seqNo: int, data: T, floor: int)

  datatype Log<T> = Log(snapshot: Option<Frame<T>>, frames: seq<Frame<T>>, head: int)

  datatype AppendError = InvalidKind | StaleSnapshot

  datatype FrameKind = UpdateKind | SnapshotKind | UnknownKind

  /** The latest snapshot of the history. */
  function LastSnapshot<T>(hist: seq<Entry<T>>): Option<Frame<T>> {
    if hist == [] then None
    else
      var e := hist[|hist| - 1];
      if e.Snapshot? then Some(Frame(|hist|, e.data, e.floor)) else LastSnapshot(hist[..|hist| - 1])
  }

  function FloorOf<T>(snap: Option<Frame<T>>): int {
    if snap.Some? then snap.value.floor else 0
  }

  function Floor<T>(hist: seq<Entry<T>>): int {
    FloorOf(LastSnapshot(hist))
  }

  /** The update frames with seq above `lower`, ascending. */
  function UpdatesAbove<T>(hist: seq<Entry<T>>, lower: int): seq<Frame<T>> {
    if hist == [] then []
    else
      var n := |hist|;
      var e := hist[n - 1];
      UpdatesAbove(hist[..n - 1], lower) + (if e.Update? && n > lower then [Frame(n, e.data, 0)] else [])
  }

  /** What Load answers, as a function of what was ever appended. */
  function LoadSpec<T>(hist: seq<Entry<T>>, since: int): Log<T> {
    var snap := LastSnapshot(hist);
    if snap.Some? && since < snap.value.floor then
      Log(snap, UpdatesAbove(hist, snap.value.floor), |hist|)
    else
      Log(None, UpdatesAbove(hist, since), |hist|)
  }

  function PendingSpec<T>(hist: seq<Entry<T>>): nat {
    |UpdatesAbove(hist, Floor(hist))|
  }

  /** The floor the store records: what the client claims, cut to the seqs there are. */
  function Clamp(floor: int, head: int): int {
    var f := if floor < 0 then 0 else floor;
    if f > head then head else f
  }

  function AppendSpec<T>(hist: seq<Entry<T>>, kind: FrameKind, data: T, floor: int)
    : Result<seq<Entry<T>>, AppendError>
  {
    match kind
    case UnknownKind => Err(InvalidKind)
    case UpdateKind => Ok(hist + [Update(data)])
    case SnapshotKind =>
      var f := Clamp(floor, |hist|);
      if LastSnapshot(hist).Some? && f < Floor(hist) then Err(StaleSnapshot) else Ok(hist + [Snapshot(data, f)])
  }

  // ---------- the files on disk ----------

  /** snapshot.json, and the frame files in the order of their zero-padded names. */
  datatype Disk<T> = Disk(snap: Option<Frame<T>>, frames: seq<Frame<T>>)

  predicate Ascending<T>(frames: seq<Frame<T>>) {
    forall i, j | 0 <= i < j < |frames| :: frames[i].seqNo < frames[j].seqNo
  }

  function Above<T>(frames: seq<Frame<T>>, lower: int): seq<Frame<T>> {
    if frames == [] then []
    else (if frames[0].seqNo > lower then [frames[0]] else []) + Above(frames[1..], lower)
  }

  /** Every frame file is an update of the history. */
  ghost predicate Stored<T>(frames: seq<Frame<T>>, hist: seq<Entry<T>>) {
    forall f | f in frames ::
      1 <= f.seqNo <= |hist| && f == Frame(f.seqNo, hist[f.seqNo - 1].data, 0) && hist[f.seqNo - 1].Update?
  }

  lemma StoredGrows<T>(frames: seq<Frame<T>>, some: seq<Frame<T>>, hist: seq<Entry<T>>, next: seq<Entry<T>>)
    requires Stored(frames, hist) && hist <= next && forall f | f in some :: f in frames
    ensures Stored(some, next)
  {
  }

  lemma StoredAppend<T>(frames: seq<Frame<T>>, hist: seq<Entry<T>>, data: T, next: seq<Entry<T>>)
    requires Stored(frames, hist) && next == hist + [Update(data)]
    ensures Stored(frames + [Frame(|next|, data, 0)], next)
  {
    StoredGrows(frames, frames, hist, next);
  }

  lemma AscendingGrows<T>(frames: seq<Frame<T>>, hist: seq<Entry<T>>, f: Frame<T>)
    requires Ascending(frames) && Stored(frames, hist) && f.seqNo > |hist|
    ensures Ascending(frames + [f])
  {
    forall i | 0 <= i < |frames| ensures frames[i].seqNo < f.seqNo {
      assert frames[i] in frames;
    }
  }

  /** The disk holds the history: the latest snapshot, every update above its floor, and nothing else but leftovers
      at or below the floor that an interrupted prune did not remove. */
  ghost predicate Represents<T>(d: Disk<T>, hist: seq<Entry<T>>) {
    && d.snap == LastSnapshot(hist)
    && Ascending(d.frames)
    && Stored(d.frames, hist)
    && Above(d.frames, Floor(hist)) == UpdatesAbove(hist, Floor(hist))
  }

  /** Floors never exceed the seqs assigned before their snapshot. */
  predicate WellFormed<T>(hist: seq<Entry<T>>) {
    forall i | 0 <= i < |hist| && hist[i].Snapshot? :: 0 <= hist[i].floor <= i
  }

  /** Runs of Append from the empty log. */
  ghost predicate Appended<T(!new)>(hist: seq<Entry<T>>) {
    hist == [] || (Appended(hist[..|hist| - 1]) && OneAppend(hist[..|hist| - 1], hist))
  }

  ghost predicate OneAppend<T(!new)>(before: seq<Entry<T>>, after: seq<Entry<T>>) {
    exists kind, data: T, floor :: AppendSpec(before, kind, data, floor) == Ok(after)
  }

  lemma {:induction false} AppendedIsWellFormed<T(!new)>(hist: seq<Entry<T>>)
    requires Appended(hist)
    ensures WellFormed(hist)
  {
    if hist != [] {
      var before := hist[..|hist| - 1];
      AppendedIsWellFormed(before);
      assert forall i | 0 <= i < |before| :: hist[i] == before[i];
    }
  }

  /** A later snapshot never has a lower floor: the stale guard refuses it. */
  lemma {:induction false} FloorsNeverFall<T(!new)>(hist: seq<Entry<T>>, n: nat)
    requires Appended(hist) && n <= |hist|
    ensures Floor(hist[..n]) <= Floor(hist)
  {
    if n == |hist| {
      assert hist[..n] == hist;
    } else {
      var before := hist[..|hist| - 1];
      FloorsNeverFall(before, n);
      assert before[..n] == hist[..n];
      LastFloor(before, hist);
    }
  }

  lemma LastFloor<T(!new)>(before: seq<Entry<T>>, after: seq<Entry<T>>)
    requires OneAppend(before, after) && Appended(before)
    ensures Floor(before) <= Floor(after)
  {
    var kind, data: T, floor :| AppendSpec(before, kind, data, floor) == Ok(after);
    AppendedIsWellFormed(before);
    FloorInRange(before);
    assert after[..|before|] == before;
  }

  // ---------- facts about histories ----------

  lemma {:induction false} LastSnapshotExact<T>(hist: seq<Entry<T>>)
    ensures LastSnapshot(hist).Some? ==>
      var s := LastSnapshot(hist).value;
      && 1 <= s.seqNo <= |hist| && hist[s.seqNo - 1] == Snapshot(s.data, s.floor)
      && forall i | s.seqNo <= i < |hist| :: hist[i].Update?
    ensures LastSnapshot(hist).None? ==> forall i | 0 <= i < |hist| :: hist[i].Update?
  {
    if hist != [] {
      LastSnapshotExact(hist[..|hist| - 1]);
    }
  }

  lemma FloorInRange<T>(hist: seq<Entry<T>>)
    requires WellFormed(hist)
    ensures 0 <= Floor(hist) <= |hist|
  {
    LastSnapshotExact(hist);
  }

  lemma {:induction false} UpdatesAboveExact<T>(hist: seq<Entry<T>>, lower: int, f: Frame<T>)
    ensures f in UpdatesAbove(hist, lower) <==>
      lower < f.seqNo && 1 <= f.seqNo <= |hist| && hist[f.seqNo - 1] == Update(f.data) && f.floor == 0
  {
    if hist != [] {
      UpdatesAboveExact(hist[..|hist| - 1], lower, f);
    }
  }

  lemma {:induction false} AboveExact<T>(frames: seq<Frame<T>>, lower: int, f: Frame<T>)
    ensures f in Above(frames, lower) <==> f in frames && f.seqNo > lower
  {
    if frames != [] {
      UnfoldFirst(frames);
      AboveExact(frames[1..], lower, f);
    }
  }

  lemma {:induction false} AboveConcat<T>(a: seq<Frame<T>>, b: seq<Frame<T>>, lower: int)
    ensures Above(a + b, lower) == Above(a, lower) + Above(b, lower)
  {
    if a == [] {
      assert a + b == b;
    } else {
      assert (a + b)[1..] == a[1..] + b;
      AboveConcat(a[1..], b, lower);
    }
  }

  lemma {:induction false} AboveTwice<T>(frames: seq<Frame<T>>, lo: int, hi: int)
    requires lo <= hi
    ensures Above(Above(frames, lo), hi) == Above(frames, hi)
  {
    if frames != [] {
      AboveTwice(frames[1..], lo, hi);
      AboveConcat(if frames[0].seqNo > lo then [frames[0]] else [], Above(frames[1..], lo), hi);
    }
  }

  lemma {:induction false} UpdatesAboveTwice<T>(hist: seq<Entry<T>>, lo: int, hi: int)
    requires lo <= hi
    ensures Above(UpdatesAbove(hist, lo), hi) == UpdatesAbove(hist, hi)
  {
    if hist != [] {
      var n := |hist|;
      var last := if hist[n - 1].Update? && n > lo then [Frame(n, hist[n - 1].data, 0)] else [];
      UpdatesAboveTwice(hist[..n - 1], lo, hi);
      AboveConcat(UpdatesAbove(hist[..n - 1], lo), last, hi);
    }
  }

  // ---------- by position in the history ----------

  /** Entry i is the latest snapshot. */
  predicate LatestAt<T>(hist: seq<Entry<T>>, i: int) {
    0 <= i < |hist| && hist[i].Snapshot? && forall j | i < j < |hist| :: hist[j].Update?
  }

  lemma LatestIsLast<T>(hist: seq<Entry<T>>, i: int)
    requires LatestAt(hist, i)
    ensures LastSnapshot(hist) == Some(Frame(i + 1, hist[i].data, hist[i].floor))
  {
    LastSnapshotExact(hist);
  }

  /** A snapshot is refused exactly when its claimed floor, cut to the seqs there are, is below that of the latest
      one; an equal floor is taken. */
  lemma SnapshotTaken<T>(hist: seq<Entry<T>>, data: T, claimed: int, i: int)
    requires LatestAt(hist, i)
    ensures var cut := if claimed < 0 then 0 else if claimed > |hist| then |hist| else claimed;
      AppendSpec(hist, SnapshotKind, data, claimed) ==
      if cut < hist[i].floor then Err(StaleSnapshot) else Ok(hist + [Snapshot(data, cut)])
  {
    LatestIsLast(hist, i);
  }

  /** The first snapshot is always taken, and so is every update; there is no other kind. */
  lemma OthersTaken<T>(hist: seq<Entry<T>>, data: T, claimed: int)
    ensures AppendSpec(hist, UpdateKind, data, claimed) == Ok(hist + [Update(data)])
    ensures AppendSpec(hist, UnknownKind, data, claimed) == Err(InvalidKind)
    ensures (forall i | 0 <= i < |hist| :: hist[i].Update?) ==>
      AppendSpec(hist, SnapshotKind, data, claimed) ==
      Ok(hist + [Snapshot(data, if claimed < 0 then 0 else if claimed > |hist| then |hist| else claimed)])
  {
    LastSnapshotExact(hist);
  }

  /** Load sends the latest snapshot exactly to a caller below its floor, and with or without it, in order, every
      update past the floor or past what the caller has. */
  lemma LoadSends<T>(hist: seq<Entry<T>>, since: int, f: Frame<T>)
    ensures var log := LoadSpec(hist, since);
      && log.head == |hist| && Ascending(log.frames)
      && (log.snapshot.Some? <==> exists i :: LatestAt(hist, i) && since < hist[i].floor)
      && (forall i | LatestAt(hist, i) && since < hist[i].floor ::
           log.snapshot == Some(Frame(i + 1, hist[i].data, hist[i].floor)))
      && (f in log.frames <==>
           && 1 <= f.seqNo <= |hist| && hist[f.seqNo - 1] == Update(f.data) && f.floor == 0
           && f.seqNo > (if log.snapshot.Some? then log.snapshot.value.floor else since))
  {
    LastSnapshotExact(hist);
    UpdatesAboveExact(hist, since, f);
    UpdatesAboveExact(hist, Floor(hist), f);
    UpdatesAboveAscends(hist, since);
    UpdatesAboveAscends(hist, Floor(hist));
    if LastSnapshot(hist).Some? {
      var k: nat := LastSnapshot(hist).value.seqNo - 1;
      assert LatestAt(hist, k);
    }
    forall i | LatestAt(hist, i) ensures LastSnapshot(hist) == Some(Frame(i + 1, hist[i].data, hist[i].floor)) {
      LatestIsLast(hist, i);
    }
  }

  lemma {:induction false} UpdatesAboveAscends<T>(hist: seq<Entry<T>>, lower: int)
    ensures Ascending(UpdatesAbove(hist, lower))
  {
    if hist != [] {
      var rest := hist[..|hist| - 1];
      UpdatesAboveAscends(rest, lower);
      forall i | 0 <= i < |UpdatesAbove(rest, lower)| ensures UpdatesAbove(rest, lower)[i].seqNo < |hist| {
        UpdatesAboveExact(rest, lower, UpdatesAbove(rest, lower)[i]);
      }
    }
  }

  /** The seqs of the updates past a floor. */
  function Uncompacted<T>(hist: seq<Entry<T>>, floor: int): set<int> {
    set i | 0 <= i < |hist| && hist[i].Update? && i + 1 > floor :: i + 1
  }

  lemma {:induction false} UpdatesAboveCount<T>(hist: seq<Entry<T>>, floor: int)
    ensures |UpdatesAbove(hist, floor)| == |Uncompacted(hist, floor)|
  {
    if hist == [] {
      assert Uncompacted(hist, floor) == {};
    } else {
      var n := |hist|;
      var rest := hist[..n - 1];
      UpdatesAboveCount(rest, floor);
      UncompactedNext(hist, floor);
      assert n !in Uncompacted(rest, floor);
    }
  }

  lemma UncompactedNext<T>(hist: seq<Entry<T>>, floor: int)
    requires hist != []
    ensures var n := |hist|;
      Uncompacted(hist, floor) ==
      Uncompacted(hist[..n - 1], floor) + if hist[n - 1].Update? && n > floor then {n} else {}
  {
    var n := |hist|;
    forall k | k in Uncompacted(hist, floor) && k != n ensures k in Uncompacted(hist[..n - 1], floor) {
      assert hist[..n - 1][k - 1] == hist[k - 1];
    }
  }

  /** What is pending is the number of updates past the latest snapshot's floor, or all of them before the first one. */
  lemma PendingCounts<T>(hist: seq<Entry<T>>)
    ensures PendingSpec(hist) == |Uncompacted(hist, Floor(hist))|
    ensures forall i | LatestAt(hist, i) :: PendingSpec(hist) == |Uncompacted(hist, hist[i].floor)|
    ensures (forall i | 0 <= i < |hist| :: hist[i].Update?) ==> PendingSpec(hist) == |hist|
  {
    UpdatesAboveCount(hist, Floor(hist));
    forall i | LatestAt(hist, i) ensures Floor(hist) == hist[i].floor {
      LatestIsLast(hist, i);
    }
    if forall i | 0 <= i < |hist| :: hist[i].Update? {
      LastSnapshotExact(hist);
      AllPending(hist);
    }
  }

  lemma {:induction false} AllPending<T>(hist: seq<Entry<T>>)
    requires forall i | 0 <= i < |hist| :: hist[i].Update?
    ensures |UpdatesAbove(hist, 0)| == |hist|
  {
    if hist != [] {
      AllPending(hist[..|hist| - 1]);
    }
  }

  // ---------- leftovers are unobservable ----------

  function MaxSeq<T>(frames: seq<Frame<T>>, start: int): int {
    if frames == [] then start
    else MaxSeq(frames[1..], if frames[0].seqNo > start then frames[0].seqNo else start)
  }

  function HeadOf<T>(d: Disk<T>): int {
    MaxSeq(d.frames, if d.snap.Some? then d.snap.value.seqNo else 0)
  }

  function LoadOf<T>(d: Disk<T>, since: int): Log<T> {
    if d.snap.Some? && since < d.snap.value.floor then
      Log(d.snap, Above(d.frames, d.snap.value.floor), HeadOf(d))
    else
      Log(None, Above(d.frames, since), HeadOf(d))
  }

  function PendingOf<T>(d: Disk<T>): nat {
    |Above(d.frames, FloorOf(d.snap))|
  }

  lemma {:induction false} MaxSeqIsLeastBound<T>(frames: seq<Frame<T>>, start: int)
    ensures start <= MaxSeq(frames, start)
    ensures forall f | f in frames :: f.seqNo <= MaxSeq(frames, start)
    ensures MaxSeq(frames, start) == start || exists f :: f in frames && f.seqNo == MaxSeq(frames, start)
  {
    if frames != [] {
      UnfoldFirst(frames);
      MaxSeqIsLeastBound(frames[1..], if frames[0].seqNo > start then frames[0].seqNo else start);
    }
  }

  /** Head is the number of appends that ever succeeded, whatever was pruned. */
  lemma HeadCountsAppends<T>(d: Disk<T>, hist: seq<Entry<T>>)
    requires Represents(d, hist) && WellFormed(hist)
    ensures HeadOf(d) == |hist|
  {
    var start := if d.snap.Some? then d.snap.value.seqNo else 0;
    MaxSeqIsLeastBound(d.frames, start);
    LastSnapshotExact(hist);
    if hist != [] && hist[|hist| - 1].Update? {
      var f := Frame(|hist|, hist[|hist| - 1].data, 0);
      FloorBelowLastUpdate(hist);
      UpdatesAboveExact(hist, Floor(hist), f);
      AboveExact(d.frames, Floor(hist), f);
    }
  }

  lemma FloorBelowLastUpdate<T>(hist: seq<Entry<T>>)
    requires WellFormed(hist) && hist != [] && hist[|hist| - 1].Update?
    ensures Floor(hist) < |hist|
  {
    LastSnapshotExact(hist);
  }

  /** Load, Head and Pending are functions of the history: the leftovers of any interrupted prune never show. */
  lemma LeftoversUnobservable<T>(d: Disk<T>, hist: seq<Entry<T>>, since: int)
    requires Represents(d, hist) && WellFormed(hist)
    ensures LoadOf(d, since) == LoadSpec(hist, since)
    ensures HeadOf(d) == |hist|
    ensures PendingOf(d) == PendingSpec(hist)
  {
    HeadCountsAppends(d, hist);
    var floor := Floor(hist);
    if !(d.snap.Some? && since < d.snap.value.floor) {
      if d.snap.Some? {
        AboveTwice(d.frames, floor, since);
        UpdatesAboveTwice(hist, floor, since);
      } else if since < 0 {
        NothingBelowZero(d.frames, since);
        NothingBelowOne(hist, since);
      } else {
        AboveTwice(d.frames, 0, since);
        UpdatesAboveTwice(hist, 0, since);
      }
    }
  }

  lemma {:induction false} NothingBelowZero<T>(frames: seq<Frame<T>>, since: int)
    requires since < 0 && forall f | f in frames :: 1 <= f.seqNo
    ensures Above(frames, since) == Above(frames, 0)
  {
    if frames != [] {
      UnfoldFirst(frames);
      assert forall f | f in frames[1..] :: f in frames;
      NothingBelowZero(frames[1..], since);
    }
  }

  lemma {:induction false} NothingBelowOne<T>(hist: seq<Entry<T>>, since: int)
    requires since < 0
    ensures UpdatesAbove(hist, since) == UpdatesAbove(hist, 0)
  {
    if hist != [] {
      NothingBelowOne(hist[..|hist| - 1], since);
    }
  }

  // ---------- every append keeps the representation ----------

  /** The frames a prune leaves: everything above the floor, and whatever was not removed. */
  function Pruned<T>(frames: seq<Frame<T>>, floor: int, kept: set<int>): seq<Frame<T>> {
    if frames == [] then []
    else if frames[0].seqNo <= floor && frames[0].seqNo !in kept then Pruned(frames[1..], floor, kept)
    else [frames[0]] + Pruned(frames[1..], floor, kept)
  }

  lemma {:induction false} PrunedIsPart<T>(frames: seq<Frame<T>>, floor: int, kept: set<int>)
    ensures forall f | f in Pruned(frames, floor, kept) :: f in frames
  {
    if frames != [] {
      UnfoldFirst(frames);
      PrunedIsPart(frames[1..], floor, kept);
    }
  }

  lemma {:induction false} PrunedAscends<T>(frames: seq<Frame<T>>, floor: int, kept: set<int>)
    requires Ascending(frames)
    ensures Ascending(Pruned(frames, floor, kept))
  {
    if frames != [] {
      var tail := frames[1..];
      assert forall i | 0 <= i < |tail| :: tail[i] == frames[i + 1];
      PrunedAscends(tail, floor, kept);
      PrunedIsPart(tail, floor, kept);
      var rest := Pruned(tail, floor, kept);
      forall i | 0 <= i < |rest| ensures frames[0].seqNo < rest[i].seqNo {
        assert rest[i] in tail;
      }
    }
  }

  lemma {:induction false} PrunedAbove<T>(frames: seq<Frame<T>>, floor: int, kept: set<int>, lower: int)
    requires lower >= floor
    ensures Above(Pruned(frames, floor, kept), lower) == Above(frames, lower)
  {
    if frames != [] {
      PrunedAbove(frames[1..], floor, kept, lower);
      var first := if frames[0].seqNo <= floor && frames[0].seqNo !in kept then [] else [frames[0]];
      AboveConcat(first, Pruned(frames[1..], floor, kept), lower);
    }
  }

  /** The history after one more entry. */
  lemma AppendOne<T>(hist: seq<Entry<T>>, e: Entry<T>, next: seq<Entry<T>>, lower: int)
    requires next == hist + [e]
    ensures LastSnapshot(next) == if e.Snapshot? then Some(Frame(|next|, e.data, e.floor)) else LastSnapshot(hist)
    ensures UpdatesAbove(next, lower) ==
            UpdatesAbove(hist, lower) + if e.Update? && |next| > lower then [Frame(|next|, e.data, 0)] else []
    ensures WellFormed(hist) && (e.Snapshot? ==> 0 <= e.floor <= |hist|) ==> WellFormed(next)
  {
    assert next[..|next| - 1] == hist;
  }

  /** What a prune to a new floor leaves above it is what the history has above it. */
  lemma SnapshotFrames<T>(frames: seq<Frame<T>>, hist: seq<Entry<T>>, floor: int, kept: set<int>)
    requires Above(frames, Floor(hist)) == UpdatesAbove(hist, Floor(hist)) && Floor(hist) <= floor
    ensures Above(Pruned(frames, floor, kept), floor) == UpdatesAbove(hist, floor)
  {
    PrunedAbove(frames, floor, kept, floor);
    AboveTwice(frames, Floor(hist), floor);
    UpdatesAboveTwice(hist, Floor(hist), floor);
  }

  lemma SnapshotKeepsRepresentation<T>(d: Disk<T>, hist: seq<Entry<T>>, data: T, floor: int, kept: set<int>,
                                       next: seq<Entry<T>>)
    requires Represents(d, hist) && WellFormed(hist)
    requires Floor(hist) <= floor <= |hist| && 0 <= floor && next == hist + [Snapshot(data, floor)]
    ensures Represents(Disk(Some(Frame(|next|, data, floor)), Pruned(d.frames, floor, kept)), next)
    ensures WellFormed(next)
  {
    AppendOne(hist, Snapshot(data, floor), next, floor);
    PrunedIsPart(d.frames, floor, kept);
    StoredGrows(d.frames, Pruned(d.frames, floor, kept), hist, next);
    PrunedAscends(d.frames, floor, kept);
    SnapshotFrames(d.frames, hist, floor, kept);
  }

  lemma UpdateKeepsRepresentation<T>(d: Disk<T>, hist: seq<Entry<T>>, data: T, next: seq<Entry<T>>)
    requires Represents(d, hist) && WellFormed(hist) && next == hist + [Update(data)]
    ensures Represents(Disk(d.snap, d.frames + [Frame(|next|, data, 0)]), next) && WellFormed(next)
  {
    var f := Frame(|next|, data, 0);
    FloorInRange(hist);
    AppendOne(hist, Update(data), next, Floor(hist));
    StoredAppend(d.frames, hist, data, next);
    AscendingGrows(d.frames, hist, f);
    AboveOfLast(d.frames, f, Floor(hist));
  }

  lemma AboveOfLast<T>(frames: seq<Frame<T>>, f: Frame<T>, lower: int)
    requires f.seqNo > lower
    ensures Above(frames + [f], lower) == Above(frames, lower) + [f]
  {
    AboveConcat(frames, [f], lower);
    assert Above([f], lower) == [f] + Above([f][1..], lower);
  }

  lemma AboveNext<T>(frames: seq<Frame<T>>, i: nat, lower: int)
    requires i < |frames|
    ensures Above(frames[..i + 1], lower) ==
      Above(frames[..i], lower) + if frames[i].seqNo > lower then [frames[i]] else []
  {
    assert frames[..i + 1] == frames[..i] + [frames[i]];
    AboveConcat(frames[..i], [frames[i]], lower);
    assert [frames[i]][1..] == [];
  }

  lemma {:induction false} PrunedNext<T>(frames: seq<Frame<T>>, i: nat, floor: int, kept: set<int>)
    requires i < |frames|
    ensures Pruned(frames[..i + 1], floor, kept) ==
            Pruned(frames[..i], floor, kept) +
            if frames[i].seqNo <= floor && frames[i].seqNo !in kept then [] else [frames[i]]
  {
    var head, next := frames[..i], frames[..i + 1];
    if i == 0 {
      assert next[1..] == [];
    } else {
      var tail := frames[1..];
      PrunedNext(tail, i - 1, floor, kept);
      assert next[1..] == tail[..i] && head[1..] == tail[..i - 1];
    }
  }

  /** What appending a snapshot whose floor comes out as f amounts to. */
  lemma SnapshotAppend<T>(hist: seq<Entry<T>>, data: T, floor: int, f: int)
    requires WellFormed(hist) && f == Clamp(floor, |hist|)
    ensures AppendSpec(hist, SnapshotKind, data, floor) ==
      if LastSnapshot(hist).Some? && f < Floor(hist) then Err(StaleSnapshot) else Ok(hist + [Snapshot(data, f)])
    ensures 0 <= f <= |hist| && (LastSnapshot(hist).None? ==> Floor(hist) <= f)
  {
    FloorInRange(hist);
  }

  // ---------- LocalStore ----------

  class LocalStore<T> {
    var snap: Option<Frame<T>>
    var frames: seq<Frame<T>>
    /** Every append that succeeded, in order. */
    ghost var hist: seq<Entry<T>>

    function Files(): Disk<T>
      reads this
    {
      Disk(snap, frames)
    }

    ghost predicate Valid()
      reads this
    {
      Represents(Files(), hist) && WellFormed(hist)
    }

    constructor ()
      ensures Valid() && hist == []
    {
      snap, frames, hist := None, [], [];
    }

    method HeadLocked() returns (head: int)
      ensures head == HeadOf(Files()) && (Valid() ==> head == |hist|)
    {
      head := 0;
      if snap.Some? { head := snap.value.seqNo; }
      for i := 0 to |frames|
        invariant MaxSeq(frames[i..], head) == HeadOf(Files())
      {
        if frames[i].seqNo > head { head := frames[i].seqNo; }
        assert frames[i..][1..] == frames[i + 1..];
      }
      if Valid() {
        HeadCountsAppends(Files(), hist);
      }
    }

    /** Appends one frame. `stuck` names the frame files whose removal does not take effect: os.Remove failed and the
        error was ignored, or the process died inside the prune loop. */
    method Append(kind: FrameKind, data: T, floor: int, stuck: set<int>) returns (r: Result<Frame<T>, AppendError>)
      requires Valid()
      modifies this
      ensures Valid()
      ensures match AppendSpec(old(hist), kind, data, floor)
        case Ok(h) =>
          && hist == h && r.Ok? && r.value.seqNo == |old(hist)| + 1 && r.value.data == data
          && r.value.floor == (if kind.SnapshotKind? then Clamp(floor, |old(hist)|) else 0)
        case Err(e) => hist == old(hist) && r == Err(e) && Files() == old(Files())
    {
      if kind.UnknownKind? { return Err(InvalidKind); }
      var head := HeadLocked();
      var seqNo := head + 1;
      if kind.SnapshotKind? {
        var f := floor;
        if f < 0 { f := 0; }
        if f > head { f := head; }
        SnapshotAppend(hist, data, floor, f);
        if snap.Some? && f < snap.value.floor { return Err(StaleSnapshot); }
        var frame := WriteSnapshot(seqNo, data, f, stuck);
        return Ok(frame);
      }
      var frame := WriteUpdate(seqNo, data);
      return Ok(frame);
    }

    /** Writes the snapshot first and only then removes what it subsumes. */
    method WriteSnapshot(seqNo: int, data: T, floor: int, stuck: set<int>) returns (frame: Frame<T>)
      requires Valid() && seqNo == |hist| + 1 && Floor(hist) <= floor <= |hist| && 0 <= floor
      modifies this
      ensures Valid() && hist == old(hist) + [Snapshot(data, floor)]
      ensures frame == Frame(seqNo, data, floor)
    {
      ghost var next := hist + [Snapshot(data, floor)];
      ghost var after := Disk(Some(Frame(|next|, data, floor)), Pruned(frames, floor, stuck));
      SnapshotKeepsRepresentation(Files(), hist, data, floor, stuck, next);
      frame := Frame(seqNo, data, floor);
      snap := Some(frame);
      Prune(floor, stuck);
      hist := next;
      assert Files() == after;
    }

    method WriteUpdate(seqNo: int, data: T) returns (frame: Frame<T>)
      requires Valid() && seqNo == |hist| + 1
      modifies this
      ensures Valid() && hist == old(hist) + [Update(data)]
      ensures frame == Frame(seqNo, data, 0)
    {
      ghost var next := hist + [Update(data)];
      ghost var after := Disk(snap, frames + [Frame(|next|, data, 0)]);
      UpdateKeepsRepresentation(Files(), hist, data, next);
      frame := Frame(seqNo, data, 0);
      frames := frames + [frame];
      hist := next;
      assert Files() == after;
    }

    method Prune(floor: int, stuck: set<int>)
      modifies this`frames
      ensures frames == Pruned(old(frames), floor, stuck)
    {
      var listing := frames;
      var left: seq<Frame<T>> := [];
      for i := 0 to |listing|
        invariant left == Pruned(listing[..i], floor, stuck)
      {
        var f := listing[i];
        PrunedNext(listing, i, floor, stuck);
        if !(f.seqNo <= floor && f.seqNo !in stuck) {
          left := left + [f];
        }
      }
      assert listing[..|listing|] == listing;
      frames := left;
    }

    method Select(lower: int) returns (out: seq<Frame<T>>)
      ensures out == Above(frames, lower)
    {
      out := [];
      for i := 0 to |frames|
        invariant out == Above(frames[..i], lower)
      {
        AboveNext(frames, i, lower);
        if frames[i].seqNo > lower { out := out + [frames[i]]; }
      }
      assert frames[..|frames|] == frames;
    }

    method Load(since: int) returns (log: Log<T>)
      requires Valid()
      ensures log == LoadSpec(hist, since)
    {
      LeftoversUnobservable(Files(), hist, since);
      var head := HeadLocked();
      if snap.Some? && since < snap.value.floor {
        var above := Select(snap.value.floor);
        return Log(snap, above, head);
      }
      var missing := Select(since);
      return Log(None, missing, head);
    }

    method Head() returns (head: int)
      requires Valid()
      ensures head == |hist|
    {
      head := HeadLocked();
    }

    method Count(lower: int) returns (n: int)
      ensures n == |Above(frames, lower)|
    {
      n := 0;
      for i := 0 to |frames|
        invariant n == |Above(frames[..i], lower)|
      {
        AboveNext(frames, i, lower);
        if frames[i].seqNo > lower { n := n + 1; }
      }
      assert frames[..|frames|] == frames;
    }

    method Pending() returns (n: int)
      requires Valid()
      ensures n == PendingSpec(hist)
    {
      LeftoversUnobservable(Files(), hist, 0);
      var floor := 0;
      if snap.Some? { floor := snap.value.floor; }
      n := Count(floor);
    }
  }
}
