/** backend/docindex/diff.go: the line diff. A dynamic-programming table of longest-common-subsequence lengths, and a
    greedy walk over it. */
module Diff {
  datatype Op<T> = Equal(text: T) | Insert(text: T) | Delete(text: T)

  /** The length in lcs[i][j]: of the longest common subsequence of a[i..] and b[j..]. */
  function Lcs<T(==)>(a: seq<T>, b: seq<T>, i: nat, j: nat): nat
    requires i <= |a| && j <= |b|
    decreases |a| - i + |b| - j
  {
    if i == |a| || j == |b| then 0
    else if a[i] == b[j] then Lcs(a, b, i + 1, j + 1) + 1
    else if Lcs(a, b, i + 1, j) >= Lcs(a, b, i, j + 1) then Lcs(a, b, i + 1, j)
    else Lcs(a, b, i, j + 1)
  }

  /** The walk from (i, j). */
  function Walk<T(==)>(a: seq<T>, b: seq<T>, i: nat, j: nat): seq<Op<T>>
    requires i <= |a| && j <= |b|
    decreases |a| - i + |b| - j
  {
    if i < |a| && j < |b| && a[i] == b[j] then [Equal(a[i])] + Walk(a, b, i + 1, j + 1)
    else if i < |a| && (j == |b| || Lcs(a, b, i + 1, j) >= Lcs(a, b, i, j + 1)) then
      [Delete(a[i])] + Walk(a, b, i + 1, j)
    else if j < |b| then [Insert(b[j])] + Walk(a, b, i, j + 1)
    else []
  }

  // ---------- what a script means ----------

  /** The lines left when inserts are dropped. */
  function Before<T>(s: seq<Op<T>>): seq<T> {
    if s == [] then [] else (if s[0].Insert? then [] else [s[0].text]) + Before(s[1..])
  }

  /** The lines left when deletes are dropped. */
  function After<T>(s: seq<Op<T>>): seq<T> {
    if s == [] then [] else (if s[0].Delete? then [] else [s[0].text]) + After(s[1..])
  }

  function Equals<T>(s: seq<Op<T>>): seq<T> {
    if s == [] then [] else (if s[0].Equal? then [s[0].text] else []) + Equals(s[1..])
  }

  function Added<T>(s: seq<Op<T>>): nat {
    if s == [] then 0 else (if s[0].Insert? then 1 else 0) + Added(s[1..])
  }

  function Removed<T>(s: seq<Op<T>>): nat {
    if s == [] then 0 else (if s[0].Delete? then 1 else 0) + Removed(s[1..])
  }

  /** s is a script that turns a into b. */
  ghost predicate Turns<T>(s: seq<Op<T>>, a: seq<T>, b: seq<T>) {
    Before(s) == a && After(s) == b
  }

  ghost predicate Subsequence<T>(c: seq<T>, a: seq<T>) {
    c == [] || (a != [] && ((c[0] == a[0] && Subsequence(c[1..], a[1..])) || Subsequence(c, a[1..])))
  }

  // ---------- the walk is a correct script ----------

  lemma {:induction false} WalkTurns<T>(a: seq<T>, b: seq<T>, i: nat, j: nat)
    requires i <= |a| && j <= |b|
    ensures Turns(Walk(a, b, i, j), a[i..], b[j..])
    ensures |Equals(Walk(a, b, i, j))| == Lcs(a, b, i, j)
    decreases |a| - i + |b| - j
  {
    var w := Walk(a, b, i, j);
    assert i < |a| ==> a[i..] == [a[i]] + a[i + 1..];
    assert j < |b| ==> b[j..] == [b[j]] + b[j + 1..];
    if i < |a| && j < |b| && a[i] == b[j] {
      WalkTurns(a, b, i + 1, j + 1);
      Prepend(Equal(a[i]), Walk(a, b, i + 1, j + 1));
      assert w == [Equal(a[i])] + Walk(a, b, i + 1, j + 1);
    } else if i < |a| && (j == |b| || Lcs(a, b, i + 1, j) >= Lcs(a, b, i, j + 1)) {
      WalkTurns(a, b, i + 1, j);
      Prepend(Delete(a[i]), Walk(a, b, i + 1, j));
      assert w == [Delete(a[i])] + Walk(a, b, i + 1, j);
    } else if j < |b| {
      WalkTurns(a, b, i, j + 1);
      Prepend(Insert(b[j]), Walk(a, b, i, j + 1));
      assert w == [Insert(b[j])] + Walk(a, b, i, j + 1);
    }
  }

  lemma Prepend<T>(op: Op<T>, s: seq<Op<T>>)
    ensures Before([op] + s) == (if op.Insert? then [] else [op.text]) + Before(s)
    ensures After([op] + s) == (if op.Delete? then [] else [op.text]) + After(s)
    ensures Equals([op] + s) == (if op.Equal? then [op.text] else []) + Equals(s)
    ensures Added([op] + s) == (if op.Insert? then 1 else 0) + Added(s)
    ensures Removed([op] + s) == (if op.Delete? then 1 else 0) + Removed(s)
  {
    assert ([op] + s)[1..] == s;
  }

  // ---------- no common subsequence is longer ----------

  lemma {:induction false} LcsSteps<T>(a: seq<T>, b: seq<T>, i: nat, j: nat)
    requires i <= |a| && j <= |b|
    ensures i < |a| ==> Lcs(a, b, i + 1, j) <= Lcs(a, b, i, j) <= Lcs(a, b, i + 1, j) + 1
    ensures j < |b| ==> Lcs(a, b, i, j + 1) <= Lcs(a, b, i, j) <= Lcs(a, b, i, j + 1) + 1
    decreases |a| - i + |b| - j
  {
    if i < |a| && j < |b| {
      LcsSteps(a, b, i + 1, j);
      LcsSteps(a, b, i, j + 1);
      LcsSteps(a, b, i + 1, j + 1);
    }
  }

  lemma {:induction false} SubsequenceTail<T>(c: seq<T>, a: seq<T>)
    requires c != [] && Subsequence(c, a)
    ensures Subsequence(c[1..], a)
  {
    if !(c[0] == a[0] && Subsequence(c[1..], a[1..])) {
      SubsequenceTail(c, a[1..]);
    }
  }

  lemma {:induction false} NoLongerSubsequence<T>(c: seq<T>, a: seq<T>, b: seq<T>, i: nat, j: nat)
    requires i <= |a| && j <= |b|
    requires Subsequence(c, a[i..]) && Subsequence(c, b[j..])
    ensures |c| <= Lcs(a, b, i, j)
    decreases |a| - i + |b| - j
  {
    if c != [] {
      assert a[i..][1..] == a[i + 1..] && b[j..][1..] == b[j + 1..];
      if a[i] == b[j] {
        RestOfMatch(c, a[i..]);
        RestOfMatch(c, b[j..]);
        NoLongerSubsequence(c[1..], a, b, i + 1, j + 1);
      } else if Subsequence(c, a[i + 1..]) {
        NoLongerSubsequence(c, a, b, i + 1, j);
      } else {
        NoLongerSubsequence(c, a, b, i, j + 1);
      }
    }
  }

  lemma RestOfMatch<T>(c: seq<T>, a: seq<T>)
    requires c != [] && Subsequence(c, a)
    ensures Subsequence(c[1..], a[1..])
  {
    if !(c[0] == a[0] && Subsequence(c[1..], a[1..])) {
      SubsequenceTail(c, a[1..]);
    }
  }

  /** The equal lines of any script are a common subsequence of the two sides. */
  lemma {:induction false} EqualsAreCommon<T>(s: seq<Op<T>>)
    ensures Subsequence(Equals(s), Before(s)) && Subsequence(Equals(s), After(s))
  {
    if s != [] {
      EqualsAreCommon(s[1..]);
      if s[0].Equal? {
        assert Equals(s)[1..] == Equals(s[1..]) && Before(s)[1..] == Before(s[1..]) && After(s)[1..] == After(s[1..]);
      } else if s[0].Delete? {
        assert Before(s)[1..] == Before(s[1..]) && Equals(s) == Equals(s[1..]) && After(s) == After(s[1..]);
      } else {
        assert After(s)[1..] == After(s[1..]) && Equals(s) == Equals(s[1..]) && Before(s) == Before(s[1..]);
      }
    }
  }

  lemma {:induction false} OpsAddUp<T>(s: seq<Op<T>>)
    ensures |Before(s)| == |Equals(s)| + Removed(s)
    ensures |After(s)| == |Equals(s)| + Added(s)
  {
    if s != [] {
      OpsAddUp(s[1..]);
    }
  }

  /** The diff is correct: dropping its inserts gives a, dropping its deletes gives b; and optimal: its equal lines are
      a longest common subsequence, and no script from a to b has fewer inserts and deletes. */
  lemma DiffIsOptimal<T>(a: seq<T>, b: seq<T>)
    ensures Turns(Walk(a, b, 0, 0), a, b)
    ensures Subsequence(Equals(Walk(a, b, 0, 0)), a) && Subsequence(Equals(Walk(a, b, 0, 0)), b)
    ensures forall c | Subsequence(c, a) && Subsequence(c, b) :: |c| <= |Equals(Walk(a, b, 0, 0))|
    ensures forall s | Turns(s, a, b) ::
      Added(Walk(a, b, 0, 0)) + Removed(Walk(a, b, 0, 0)) <= Added(s) + Removed(s)
  {
    var d := Walk(a, b, 0, 0);
    assert a[0..] == a && b[0..] == b;
    WalkTurns(a, b, 0, 0);
    EqualsAreCommon(d);
    OpsAddUp(d);
    forall c | Subsequence(c, a) && Subsequence(c, b) ensures |c| <= |Equals(d)| {
      NoLongerSubsequence(c, a, b, 0, 0);
    }
    forall s | Turns(s, a, b) ensures Added(d) + Removed(d) <= Added(s) + Removed(s) {
      EqualsAreCommon(s);
      OpsAddUp(s);
    }
  }

  /** No line is reported changed exactly when the two sides are equal. */
  lemma UnchangedIff<T>(a: seq<T>, b: seq<T>)
    ensures Added(Walk(a, b, 0, 0)) + Removed(Walk(a, b, 0, 0)) == 0 <==> a == b
  {
    var d := Walk(a, b, 0, 0);
    DiffIsOptimal(a, b);
    if a == b {
      AllEqual(a);
      assert Turns(EqualScript(a), a, b);
    }
    if Added(d) + Removed(d) == 0 {
      OnlyEquals(d);
    }
  }

  function EqualScript<T>(a: seq<T>): seq<Op<T>> {
    if a == [] then [] else [Equal(a[0])] + EqualScript(a[1..])
  }

  lemma {:induction false} AllEqual<T>(a: seq<T>)
    ensures Before(EqualScript(a)) == a && After(EqualScript(a)) == a
    ensures Added(EqualScript(a)) == 0 && Removed(EqualScript(a)) == 0
  {
    if a != [] {
      AllEqual(a[1..]);
      Prepend(Equal(a[0]), EqualScript(a[1..]));
    }
  }

  lemma {:induction false} OnlyEquals<T>(s: seq<Op<T>>)
    requires Added(s) + Removed(s) == 0
    ensures Before(s) == After(s)
  {
    if s != [] {
      OnlyEquals(s[1..]);
    }
  }

  // ---------- inserts come last ----------

  /** The tie-break prefers deletes, so an insert is never directly followed by a delete. */
  lemma {:induction false} InsertNeverBeforeDelete<T>(a: seq<T>, b: seq<T>, i: nat, j: nat, k: nat)
    requires i <= |a| && j <= |b| && k + 1 < |Walk(a, b, i, j)|
    ensures !(Walk(a, b, i, j)[k].Insert? && Walk(a, b, i, j)[k + 1].Delete?)
    decreases |a| - i + |b| - j
  {
    if i < |a| && j < |b| && a[i] == b[j] {
      if k > 0 { InsertNeverBeforeDelete(a, b, i + 1, j + 1, k - 1); }
    } else if i < |a| && (j == |b| || Lcs(a, b, i + 1, j) >= Lcs(a, b, i, j + 1)) {
      if k > 0 { InsertNeverBeforeDelete(a, b, i + 1, j, k - 1); }
    } else if j < |b| {
      if k > 0 {
        InsertNeverBeforeDelete(a, b, i, j + 1, k - 1);
      } else {
        AfterInsert(a, b, i, j);
        assert Walk(a, b, i, j)[1] == Walk(a, b, i, j + 1)[0];
      }
    }
  }

  lemma AfterInsert<T>(a: seq<T>, b: seq<T>, i: nat, j: nat)
    requires i <= |a| && j < |b| && (i < |a| ==> Lcs(a, b, i + 1, j) < Lcs(a, b, i, j + 1))
    ensures Walk(a, b, i, j + 1) != [] ==> !Walk(a, b, i, j + 1)[0].Delete?
  {
    if i < |a| && j + 1 < |b| && a[i] != b[j + 1] {
      LcsSteps(a, b, i + 1, j);
      LcsSteps(a, b, i, j + 1);
    }
  }

  // ---------- diffLines ----------

  /** The inner loop: fills row i from the right, given row i + 1. */
  method FillRow<T(==)>(a: seq<T>, b: seq<T>, i: nat, lcs: array2<nat>)
    requires i < |a| && lcs.Length0 == |a| + 1 && lcs.Length1 == |b| + 1
    requires forall k, j | k == i + 1 && 0 <= j <= |b| :: lcs[k, j] == Lcs(a, b, k, j)
    requires lcs[i, |b|] == 0
    modifies lcs
    ensures forall j | 0 <= j <= |b| :: lcs[i, j] == Lcs(a, b, i, j)
    ensures forall k, j | 0 <= k <= |a| && k != i && 0 <= j <= |b| :: lcs[k, j] == old(lcs[k, j])
  {
    var j := |b| - 1;
    while j >= 0
      invariant -1 <= j <= |b| - 1
      invariant forall j' | j < j' <= |b| :: lcs[i, j'] == Lcs(a, b, i, j')
      invariant forall k, j' | 0 <= k <= |a| && k != i && 0 <= j' <= |b| :: lcs[k, j'] == old(lcs[k, j'])
    {
      assert lcs[i + 1, j] == Lcs(a, b, i + 1, j) && lcs[i + 1, j + 1] == Lcs(a, b, i + 1, j + 1);
      if a[i] == b[j] {
        lcs[i, j] := lcs[i + 1, j + 1] + 1;
      } else if lcs[i + 1, j] >= lcs[i, j + 1] {
        lcs[i, j] := lcs[i + 1, j];
      } else {
        lcs[i, j] := lcs[i, j + 1];
      }
      j := j - 1;
    }
  }

  /** Fills the table from the bottom right corner. */
  method FillTable<T(==)>(a: seq<T>, b: seq<T>) returns (lcs: array2<nat>)
    ensures fresh(lcs) && lcs.Length0 == |a| + 1 && lcs.Length1 == |b| + 1
    ensures forall i, j | 0 <= i <= |a| && 0 <= j <= |b| :: lcs[i, j] == Lcs(a, b, i, j)
  {
    lcs := new nat[|a| + 1, |b| + 1]((i, j) => 0);
    var i := |a| - 1;
    while i >= 0
      invariant -1 <= i <= |a| - 1
      invariant forall k, j | i < k <= |a| && 0 <= j <= |b| :: lcs[k, j] == Lcs(a, b, k, j)
      invariant forall k | 0 <= k <= i :: lcs[k, |b|] == 0
    {
      FillRow(a, b, i, lcs);
      i := i - 1;
    }
  }

  lemma Emit<T>(a: seq<T>, b: seq<T>, out: seq<Op<T>>, i: nat, j: nat, op: Op<T>, i': nat, j': nat)
    requires i <= |a| && j <= |b| && i' <= |a| && j' <= |b|
    requires Walk(a, b, i, j) == [op] + Walk(a, b, i', j')
    ensures (out + [op]) + Walk(a, b, i', j') == out + Walk(a, b, i, j)
  {
  }

  lemma OnlyDeletes<T>(a: seq<T>, b: seq<T>, i: nat)
    requires i < |a|
    ensures Walk(a, b, i, |b|) == [Delete(a[i])] + Walk(a, b, i + 1, |b|)
  {
  }

  lemma OnlyInserts<T>(a: seq<T>, b: seq<T>, j: nat)
    requires j < |b|
    ensures Walk(a, b, |a|, j) == [Insert(b[j])] + Walk(a, b, |a|, j + 1)
  {
  }

  /** The tails: what is left of a is deleted, what is left of b is inserted. */
  method FlushTails<T(==)>(a: seq<T>, b: seq<T>, i0: nat, j0: nat, before: seq<Op<T>>) returns (out: seq<Op<T>>)
    requires i0 <= |a| && j0 <= |b| && (i0 == |a| || j0 == |b|)
    ensures out == before + Walk(a, b, i0, j0)
  {
    out := before;
    var i, j := i0, j0;
    while i < |a|
      invariant i0 <= i <= |a| && j == j0
      invariant out + Walk(a, b, i, j) == before + Walk(a, b, i0, j0)
    {
      OnlyDeletes(a, b, i);
      Emit(a, b, out, i, j, Delete(a[i]), i + 1, j);
      out := out + [Delete(a[i])];
      i := i + 1;
    }
    while j < |b|
      invariant j0 <= j <= |b| && i == |a|
      invariant out + Walk(a, b, i, j) == before + Walk(a, b, i0, j0)
    {
      OnlyInserts(a, b, j);
      Emit(a, b, out, i, j, Insert(b[j]), i, j + 1);
      out := out + [Insert(b[j])];
      j := j + 1;
    }
  }

  method DiffLines<T(==)>(a: seq<T>, b: seq<T>) returns (out: seq<Op<T>>)
    ensures out == Walk(a, b, 0, 0)
  {
    var n, m := |a|, |b|;
    var lcs := FillTable(a, b);
    out := [];
    var i, j := 0, 0;
    while i < n && j < m
      invariant 0 <= i <= n && 0 <= j <= m
      invariant out + Walk(a, b, i, j) == Walk(a, b, 0, 0)
      invariant forall k, l | 0 <= k <= n && 0 <= l <= m :: lcs[k, l] == Lcs(a, b, k, l)
      decreases n - i + m - j
    {
      if a[i] == b[j] {
        Emit(a, b, out, i, j, Equal(a[i]), i + 1, j + 1);
        out := out + [Equal(a[i])];
        i, j := i + 1, j + 1;
      } else if lcs[i + 1, j] >= lcs[i, j + 1] {
        Emit(a, b, out, i, j, Delete(a[i]), i + 1, j);
        out := out + [Delete(a[i])];
        i := i + 1;
      } else {
        Emit(a, b, out, i, j, Insert(b[j]), i, j + 1);
        out := out + [Insert(b[j])];
        j := j + 1;
      }
    }
    out := FlushTails(a, b, i, j, out);
  }

  /** The counts of DiffContent. */
  method CountChanges<T>(lines: seq<Op<T>>) returns (added: nat, removed: nat)
    ensures added == Added(lines) && removed == Removed(lines)
  {
    added, removed := 0, 0;
    for k := 0 to |lines|
      invariant added + Added(lines[k..]) == Added(lines) && removed + Removed(lines[k..]) == Removed(lines)
    {
      assert lines[k..][1..] == lines[k + 1..];
      match lines[k]
      case Insert(_) => added := added + 1;
      case Delete(_) => removed := removed + 1;
      case Equal(_) =>
    }
  }
}
