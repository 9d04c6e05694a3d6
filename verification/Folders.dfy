/** backend/handlers/folders.go: the folder tree. A store maps a folder id to its parent id; "" is the root. */
module Folders {
  import opened Common

  type Tree = map<string, string>

  // ---------- ancestors ----------

  /** The id reached from `id` by following k parent links; None once a link leaves the store or reaches the root. */
  function Up(t: Tree, id: string, k: nat): Option<string> {
    if k == 0 then Some(id)
    else
      match Up(t, id, k - 1)
      case None => None
      case Some(cur) => if cur in t && t[cur] != "" then Some(t[cur]) else None
  }

  /** a is a proper ancestor of id. */
  ghost predicate ProperAncestor(t: Tree, a: string, id: string) {
    exists k: nat :: k > 0 && Up(t, id, k) == Some(a)
  }

  /** No folder is its own proper ancestor. */
  ghost predicate Acyclic(t: Tree) {
    forall id :: !ProperAncestor(t, id, id)
  }

  lemma {:induction false} UpAdds(t: Tree, id: string, i: nat, j: nat)
    requires Up(t, id, i).Some?
    ensures Up(t, id, i + j) == Up(t, Up(t, id, i).value, j)
  {
    if j > 0 {
      UpAdds(t, id, i, j - 1);
    }
  }

  lemma {:induction false} UpEarlier(t: Tree, id: string, i: nat, j: nat)
    requires i <= j && Up(t, id, j).Some?
    ensures Up(t, id, i).Some?
    decreases j
  {
    if i < j {
      UpEarlier(t, id, i, j - 1);
    }
  }

  // ---------- the bounded walk ----------

  /** isDescendant's loop with `fuel` rounds left. */
  function WalkFinds(t: Tree, cur: string, ancestor: string, fuel: nat): bool
    decreases fuel
  {
    if fuel == 0 then false
    else if cur !in t || t[cur] == "" then false
    else t[cur] == ancestor || WalkFinds(t, t[cur], ancestor, fuel - 1)
  }

  lemma {:induction false} WalkFindsSound(t: Tree, cur: string, ancestor: string, fuel: nat) returns (k: nat)
    requires WalkFinds(t, cur, ancestor, fuel)
    ensures 0 < k <= fuel && Up(t, cur, k) == Some(ancestor)
    decreases fuel
  {
    FirstStep(t, cur);
    if t[cur] == ancestor {
      k := 1;
    } else {
      var j := WalkFindsSound(t, t[cur], ancestor, fuel - 1);
      UpAdds(t, cur, 1, j);
      k := 1 + j;
    }
  }

  lemma {:induction false} WalkFindsComplete(t: Tree, cur: string, ancestor: string, fuel: nat, k: nat)
    requires 0 < k <= fuel && Up(t, cur, k) == Some(ancestor)
    ensures WalkFinds(t, cur, ancestor, fuel)
    decreases fuel
  {
    FirstStep(t, cur);
    UpEarlier(t, cur, 1, k);
    if k > 1 {
      UpAdds(t, cur, 1, k - 1);
      WalkFindsComplete(t, t[cur], ancestor, fuel - 1, k - 1);
    }
  }

  lemma FirstStep(t: Tree, cur: string)
    ensures Up(t, cur, 1) == if cur in t && t[cur] != "" then Some(t[cur]) else None
  {
    assert Up(t, cur, 0) == Some(cur);
  }

  /** The ids visited in the first n rounds. */
  function Visited(t: Tree, id: string, n: nat): seq<string>
    requires n > 0 ==> Up(t, id, n).Some?
    ensures |Visited(t, id, n)| == n
  {
    if n == 0 then []
    else
      UpEarlier(t, id, n - 1, n);
      Visited(t, id, n - 1) + [Up(t, id, n - 1).value]
  }

  lemma {:induction false} VisitedAt(t: Tree, id: string, n: nat, i: nat)
    requires i < n && Up(t, id, n).Some?
    ensures Up(t, id, i) == Some(Visited(t, id, n)[i]) && Visited(t, id, n)[i] in t
    decreases n
  {
    UpEarlier(t, id, n - 1, n);
    if i < n - 1 {
      VisitedAt(t, id, n - 1, i);
    }
  }

  lemma {:induction false} DistinctFit(s: seq<string>, all: set<string>)
    requires NoDuplicates(s) && forall i | 0 <= i < |s| :: s[i] in all
    ensures |s| <= |all|
  {
    if s != [] {
      var n := |s| - 1;
      assert forall i | 0 <= i < n :: s[..n][i] == s[i];
      DistinctFit(s[..n], all - {s[n]});
    }
  }

  /** An ancestor that is reached at all is first reached within |t| steps: the ids visited before are distinct. */
  lemma {:induction false} ReachedWithinSize(t: Tree, id: string, ancestor: string, k: nat)
    requires k > 0 && Up(t, id, k) == Some(ancestor)
    ensures exists j: nat :: 0 < j <= |t| && Up(t, id, j) == Some(ancestor)
    decreases k
  {
    var visited := Visited(t, id, k);
    if NoDuplicates(visited) {
      forall i | 0 <= i < k ensures visited[i] in t.Keys { VisitedAt(t, id, k, i); }
      DistinctFit(visited, t.Keys);
    } else {
      var i, j :| 0 <= i < j < k && visited[i] == visited[j];
      VisitedAt(t, id, k, i);
      VisitedAt(t, id, k, j);
      UpAdds(t, id, j, k - j);
      UpAdds(t, id, i, k - j);
      ReachedWithinSize(t, id, ancestor, i + k - j);
    }
  }

  /** The walk, bounded by one more than the number of folders, decides proper ancestry exactly, in any store. */
  lemma WalkIsExact(t: Tree, candidate: string, ancestor: string)
    ensures WalkFinds(t, candidate, ancestor, |t| + 1) <==> ProperAncestor(t, ancestor, candidate)
  {
    if ProperAncestor(t, ancestor, candidate) {
      var k: nat :| k > 0 && Up(t, candidate, k) == Some(ancestor);
      ReachedWithinSize(t, candidate, ancestor, k);
      var j: nat :| 0 < j <= |t| && Up(t, candidate, j) == Some(ancestor);
      WalkFindsComplete(t, candidate, ancestor, |t| + 1, j);
    }
    if WalkFinds(t, candidate, ancestor, |t| + 1) {
      var k := WalkFindsSound(t, candidate, ancestor, |t| + 1);
    }
  }

  // ---------- the operations keep the tree acyclic ----------

  /** A path of the changed tree that does not pass through `id` before its end is a path of the old one. */
  lemma {:induction false} PathAvoiding(t: Tree, id: string, p: string, u: Tree, from: string, k: nat)
    requires u == t[id := p] && forall i: nat | i < k :: Up(u, from, i) != Some(id)
    ensures Up(u, from, k) == Up(t, from, k)
  {
    if k > 0 {
      PathAvoiding(t, id, p, u, from, k - 1);
    }
  }

  /** Pointing id at p closes a cycle exactly when p is id or id is a proper ancestor of p. */
  lemma ReparentAcyclicIff(t: Tree, id: string, p: string)
    requires Acyclic(t) && id != ""
    ensures Acyclic(t[id := p]) <==> p == "" || !(p == id || ProperAncestor(t, id, p))
  {
    var u := t[id := p];
    assert Up(u, id, 0) == Some(id);
    if p != "" {
      assert Up(u, id, 1) == Some(p);
      if p == id {
        assert ProperAncestor(u, id, id);
      } else if ProperAncestor(t, id, p) {
        ReparentClosesCycle(t, id, p);
      } else {
        ReparentStaysAcyclic(t, id, p);
      }
    } else {
      ReparentStaysAcyclic(t, id, p);
    }
  }

  /** The first time a path from `from` meets `id`. */
  lemma {:induction false} FirstMeeting(t: Tree, from: string, id: string, k: nat) returns (m: nat)
    requires Up(t, from, k) == Some(id)
    ensures m <= k && Up(t, from, m) == Some(id) && forall i: nat | i < m :: Up(t, from, i) != Some(id)
  {
    m := 0;
    while Up(t, from, m) != Some(id)
      invariant m <= k && forall i: nat | i < m :: Up(t, from, i) != Some(id)
      decreases k - m
    {
      m := m + 1;
    }
  }

  lemma ReparentClosesCycle(t: Tree, id: string, p: string)
    requires p != "" && ProperAncestor(t, id, p)
    ensures ProperAncestor(t[id := p], id, id)
  {
    var u := t[id := p];
    var k: nat :| k > 0 && Up(t, p, k) == Some(id);
    var m := FirstMeeting(t, p, id, k);
    forall i: nat | i <= m ensures Up(u, p, i) == Up(t, p, i) { SamePath(t, id, p, p, i, m); }
    assert Up(u, id, 0) == Some(id) && Up(u, id, 1) == Some(p);
    UpAdds(u, id, 1, m);
    assert Up(u, id, m + 1) == Some(id);
  }

  lemma {:induction false} SamePath(t: Tree, id: string, p: string, from: string, i: nat, m: nat)
    requires i <= m && forall j: nat | j < m :: Up(t, from, j) != Some(id)
    ensures Up(t[id := p], from, i) == Up(t, from, i)
    decreases i
  {
    if i > 0 {
      SamePath(t, id, p, from, i - 1, m);
    }
  }

  lemma ReparentStaysAcyclic(t: Tree, id: string, p: string)
    requires Acyclic(t) && p != id && (p != "" ==> !ProperAncestor(t, id, p))
    ensures Acyclic(t[id := p])
  {
    var u := t[id := p];
    forall x ensures !ProperAncestor(u, x, x) {
      if ProperAncestor(u, x, x) {
        var k: nat :| k > 0 && Up(u, x, k) == Some(x);
        if exists i: nat :: i < k && Up(u, x, i) == Some(id) {
          var i: nat :| i < k && Up(u, x, i) == Some(id);
          CycleThroughId(t, id, p, x, k, i);
        } else {
          PathAvoiding(t, id, p, u, x, k);
          assert ProperAncestor(t, x, x);
        }
      }
    }
  }

  /** A cycle of the changed tree through id would make id an ancestor of p in the old one. */
  lemma CycleThroughId(t: Tree, id: string, p: string, x: string, k: nat, i: nat)
    requires p != id && i < k && Up(t[id := p], x, k) == Some(x) && Up(t[id := p], x, i) == Some(id)
    ensures p != "" && ProperAncestor(t, id, p)
  {
    var u := t[id := p];
    UpAdds(u, x, k, i);
    UpAdds(u, x, i, k);
    assert Up(u, id, k) == Some(id);
    UpEarlier(u, id, 1, k);
    assert Up(u, id, 0) == Some(id);
    assert Up(u, id, 1) == Some(p);
    UpAdds(u, id, 1, k - 1);
    var m := FirstMeeting(u, p, id, k - 1);
    PathAvoiding(t, id, p, u, p, m);
    assert m > 0;
  }

  lemma {:induction false} FewerLinks(t: Tree, u: Tree, from: string, k: nat)
    requires forall x | x in u :: x in t && t[x] == u[x]
    ensures Up(u, from, k).Some? ==> Up(t, from, k) == Up(u, from, k)
  {
    if k > 0 {
      FewerLinks(t, u, from, k - 1);
    }
  }

  lemma DeleteStaysAcyclic(t: Tree, id: string)
    requires Acyclic(t)
    ensures Acyclic(t - {id})
  {
    forall x ensures !ProperAncestor(t - {id}, x, x) {
      if ProperAncestor(t - {id}, x, x) {
        var k: nat :| k > 0 && Up(t - {id}, x, k) == Some(x);
        FewerLinks(t, t - {id}, x, k);
        assert ProperAncestor(t, x, x);
      }
    }
  }

  /** No stored folder names `id`, as itself or as its parent. */
  predicate Unused(t: Tree, id: string) {
    id !in t && id !in t.Values
  }

  lemma {:induction false} NothingLeadsTo(t: Tree, id: string, from: string, k: nat)
    requires Unused(t, id) && k > 0
    ensures Up(t, from, k) != Some(id)
  {
    if Up(t, from, k).Some? {
      UpEarlier(t, from, k - 1, k);
    }
  }

  lemma CreateStaysAcyclic(t: Tree, id: string, p: string)
    requires Acyclic(t) && Unused(t, id) && p != id
    ensures Acyclic(t[id := p])
  {
    if p != "" && ProperAncestor(t, id, p) {
      var k: nat :| k > 0 && Up(t, p, k) == Some(id);
      NothingLeadsTo(t, id, p, k);
    }
    ReparentStaysAcyclic(t, id, p);
  }

  lemma EmptyIsAcyclic()
    ensures Acyclic(map[])
  {
    forall id, k: nat | k > 0 ensures Up(map[], id, k).None? {
      if Up(map[], id, k).Some? { UpEarlier(map[], id, 1, k); }
    }
  }

  // ---------- runs ----------

  /** A change by someone who may make it, with a successful listing. */
  datatype Change = Created(id: string, parent: string) | Reparented(id: string, parent: string) | Deleted(id: string)

  function Apply(t: Tree, c: Change): Tree {
    match c
    case Created(id, parent) => t[id := parent]
    case Reparented(id, parent) =>
      if id !in t || parent == id || (parent != "" && WalkFinds(t, parent, id, |t| + 1)) then t else t[id := parent]
    case Deleted(id) => t - {id}
  }

  function Run(changes: seq<Change>): Tree {
    if changes == [] then map[] else Apply(Run(changes[..|changes| - 1]), changes[|changes| - 1])
  }

  /** New folders get ids that nothing names yet, and no folder has the empty id. */
  predicate FreshIds(changes: seq<Change>) {
    forall i | 0 <= i < |changes| ::
      && changes[i].id != ""
      && (changes[i].Created? ==> Unused(Run(changes[..i]), changes[i].id) && changes[i].parent != changes[i].id)
  }

  /** The folder tree is acyclic after every run of creates, reparents and deletes. */
  lemma {:induction false} RunStaysAcyclic(changes: seq<Change>)
    requires FreshIds(changes)
    ensures Acyclic(Run(changes))
  {
    if changes == [] {
      EmptyIsAcyclic();
    } else {
      var n := |changes| - 1;
      forall i | 0 <= i < n
        ensures changes[..n][i].id != ""
        ensures changes[..n][i].Created? ==>
          Unused(Run(changes[..n][..i]), changes[..n][i].id) && changes[..n][i].parent != changes[..n][i].id
      {
        assert changes[..n][..i] == changes[..i];
      }
      RunStaysAcyclic(changes[..n]);
      ApplyStaysAcyclic(Run(changes[..n]), changes[n]);
    }
  }

  lemma ApplyStaysAcyclic(t: Tree, c: Change)
    requires Acyclic(t) && c.id != ""
    requires c.Created? ==> Unused(t, c.id) && c.parent != c.id
    ensures Acyclic(Apply(t, c))
  {
    match c
    case Created(id, parent) => CreateStaysAcyclic(t, id, parent);
    case Reparented(id, parent) =>
      WalkIsExact(t, parent, id);
      ReparentAcyclicIff(t, id, parent);
    case Deleted(id) => DeleteStaysAcyclic(t, id);
  }

  // ---------- the handler ----------

  datatype Outcome = Accepted | NotFound | OwnParent | OwnDescendant | Denied | StoreFailed

  class FolderStore {
    var parents: Tree

    constructor ()
      ensures parents == map[] && Acyclic(parents)
    {
      parents := map[];
      EmptyIsAcyclic();
    }

    /** `listed` tells whether the folder listing succeeded; when it fails the answer is "no". */
    method IsDescendant(candidate: string, ancestor: string, listed: bool) returns (found: bool)
      ensures found <==> listed && ProperAncestor(parents, ancestor, candidate)
    {
      if !listed { return false; }
      var cur := candidate;
      WalkIsExact(parents, candidate, ancestor);
      for i := 0 to |parents| + 1
        invariant WalkFinds(parents, cur, ancestor, |parents| + 1 - i) <==>
          WalkFinds(parents, candidate, ancestor, |parents| + 1)
      {
        if cur !in parents || parents[cur] == "" { return false; }
        if parents[cur] == ancestor { return true; }
        cur := parents[cur];
      }
      return false;
    }

    /** `id` is a new UUID; `ownsParent` is the verdict of the access check on a parent that is not the root. The
        store may fail to write the folder; when its owner cannot be recorded the folder is removed again, if that
        succeeds. */
    method Create(id: string, parent: string, ownsParent: bool, stored: bool, recorded: bool, undone: bool)
      returns (r: Outcome)
      requires id != "" && Unused(parents, id) && parent != id
      modifies this
      ensures Acyclic(old(parents)) ==> Acyclic(parents)
      ensures r ==
        if parent != "" && !ownsParent then Denied else if !stored || !recorded then StoreFailed else Accepted
      ensures parents ==
        if r.Accepted? || (r.StoreFailed? && stored && !undone) then old(parents)[id := parent] else old(parents)
    {
      if parent != "" && !ownsParent { return Denied; }
      if !stored { return StoreFailed; }
      if Acyclic(parents) {
        CreateStaysAcyclic(parents, id, parent);
      }
      ghost var before := parents;
      parents := parents[id := parent];
      if !recorded {
        if undone {
          parents := parents - {id};
          assert parents == before;
        }
        return StoreFailed;
      }
      return Accepted;
    }

    /** In an acyclic tree and with a successful listing, a permitted reparent is accepted exactly when the tree stays
        acyclic with it. With a failed listing it is accepted unless newParent is id, and closes a cycle exactly when id
        is above newParent. */
    method Reparent(id: string, newParent: string, owns: bool, ownsTarget: bool, listed: bool, stored: bool)
      returns (r: Outcome)
      requires id != ""
      modifies this
      ensures parents == if r.Accepted? then old(parents)[id := newParent] else old(parents)
      ensures r ==
        if !owns then Denied
        else if id !in old(parents) then NotFound
        else if newParent == id then OwnParent
        else if newParent != "" && !ownsTarget then Denied
        else if newParent != "" && listed && ProperAncestor(old(parents), id, newParent) then OwnDescendant
        else if !stored then StoreFailed
        else Accepted
      ensures Acyclic(old(parents)) && listed ==> Acyclic(parents)
      ensures Acyclic(old(parents)) && listed && owns && id in old(parents) && (newParent == "" || ownsTarget) ==>
        stored ==> (r.Accepted? <==> Acyclic(old(parents)[id := newParent]))
      ensures Acyclic(old(parents)) && r.Accepted? ==>
        (Acyclic(parents) <==> newParent == "" || !ProperAncestor(old(parents), id, newParent))
    {
      if !owns { return Denied; }
      if id !in parents { return NotFound; }
      if Acyclic(parents) {
        ReparentAcyclicIff(parents, id, newParent);
      }
      if newParent == id { return OwnParent; }
      if newParent != "" {
        if !ownsTarget { return Denied; }
        var below := IsDescendant(newParent, id, listed);
        if below { return OwnDescendant; }
      }
      if !stored { return StoreFailed; }
      parents := parents[id := newParent];
      return Accepted;
    }

    method Delete(id: string, owns: bool, stored: bool) returns (r: Outcome)
      modifies this
      ensures Acyclic(old(parents)) ==> Acyclic(parents)
      ensures r ==
        if !owns then Denied else if id !in old(parents) then NotFound else if !stored then StoreFailed else Accepted
      ensures parents == if r.Accepted? then old(parents) - {id} else old(parents)
    {
      if !owns { return Denied; }
      if id !in parents {
        return NotFound;
      }
      if !stored { return StoreFailed; }
      if Acyclic(parents) {
        DeleteStaysAcyclic(parents, id);
      }
      parents := parents - {id};
      return Accepted;
    }
  }
}
