/** backend/storage/local_sharelinks.go: the share-link directory as a state machine. A file is named by its base name
    without ".json". A process can die, or an effect on the disk fail, at any point of a migration pass. */
module ShareLinks {
  import opened Common

  /** `rest` is the creator, password hash and expiry, which no step looks at. */
  datatype Record = Record(
    id: string, fileId: string, tokenHash: string, rest: string, revoked: bool, createdAt: int, token: string)

  datatype Content = Whole(rec: Record) | Corrupt

  type Files = map<string, Content>

  /** SHA-256 in lower-case hexadecimal. */
  type Hash = string -> string

  predicate IsHashName(name: string) {
    |name| == 64 && forall i | 0 <= i < 64 :: '0' <= name[i] <= '9' || 'a' <= name[i] <= 'f'
  }

  /** The process's view: the directory, and its own memory of having completed a pass. */
  datatype State = State(files: Files, done: bool)

  /** `budget` writes and removals succeed before the next one fails; `torn` says whether a failing write leaves a
      truncated file behind. */
  datatype Fault = Fault(budget: nat, torn: bool)

  // ---------- the operations ----------

  function Raw(name: string, rec: Record): string {
    if rec.token == "" then name else rec.token
  }

  function Converted(hash: Hash, rec: Record, raw: string): Record {
    rec.(tokenHash := hash(raw), token := "")
  }

  /** The converted record written beside the legacy one. */
  function WriteOf(hash: Hash, files: Files, name: string): Files
    requires name in files && files[name].Whole?
  {
    var raw := Raw(name, files[name].rec);
    files[hash(raw) := Whole(Converted(hash, files[name].rec, raw))]
  }

  /** The pass over a directory listing, and whether it reached the end. */
  function Pass(hash: Hash, files: Files, todo: seq<string>, budget: nat, torn: bool): (Files, bool)
    decreases |todo|
  {
    if todo == [] then (files, true)
    else
      var name := todo[0];
      if IsHashName(name) then Pass(hash, files, todo[1..], budget, torn)
      else if name !in files || files[name].Corrupt? then (files, false)
      else
        if budget == 0 then (if torn then files[hash(Raw(name, files[name].rec)) := Corrupt] else files, false)
        else
          var written := WriteOf(hash, files, name);
          if budget == 1 then (written, false)
          else Pass(hash, written - {name}, todo[1..], budget - 2, torn)
  }

  function Migrate(hash: Hash, s: State, listed: seq<string>, fault: Fault): State {
    if s.done then s
    else var (files, ok) := Pass(hash, s.files, listed, fault.budget, fault.torn); State(files, ok)
  }

  function Written(rec: Record, torn: bool): Content {
    if torn then Corrupt else Whole(rec)
  }

  /** CreateShareLink writes under the hash of the token without migrating first, and refuses an empty token. */
  function Create(hash: Hash, s: State, rec: Record, torn: bool): State {
    if rec.token == "" then s
    else State(s.files[hash(rec.token) := Written(Converted(hash, rec, rec.token), torn)], s.done)
  }

  datatype Answer = Found(rec: Record) | NotFound | Unreadable

  function Lookup(files: Files, name: string): Answer {
    if name !in files then NotFound
    else if files[name].Corrupt? then Unreadable
    else Found(files[name].rec)
  }

  predicate IsLink(c: Content, fileId: string, linkId: string) {
    c.Whole? && c.rec.fileId == fileId && c.rec.id == linkId
  }

  /** The file a scan for a link settles on: the listing is newest first. */
  ghost predicate Chosen(files: Files, fileId: string, linkId: string, target: Option<string>) {
    match target
    case Some(name) =>
      && name in files && IsLink(files[name], fileId, linkId)
      && forall n | n in files && IsLink(files[n], fileId, linkId) ::
        files[n].rec.createdAt <= files[name].rec.createdAt
    case None => forall name | name in files :: !IsLink(files[name], fileId, linkId)
  }

  /** RevokeShareLink migrates, then rewrites the record found under the hash that the record itself names. */
  function Revoke(hash: Hash, s: State, listed: seq<string>, fault: Fault, target: Option<string>, torn: bool): State
    requires var m := Migrate(hash, s, listed, fault);
      m.done && target.Some? ==> target.value in m.files && m.files[target.value].Whole?
  {
    var m := Migrate(hash, s, listed, fault);
    if m.done && target.Some? then
      var rec := m.files[target.value].rec;
      State(m.files[rec.tokenHash := Written(rec.(revoked := true, token := ""), torn)], m.done)
    else m
  }

  // ---------- what the directory stands for ----------

  /** A link as its owner knows it, or one whose record a torn write destroyed. */
  datatype Fate = Standing(rec: Record) | Damaged

  /** Every link ever issued, by its raw token. */
  type Links = map<string, Fate>

  ghost predicate CollisionFree(hash: Hash, links: Links) {
    && (forall t, u | t in links && u in links && hash(t) == hash(u) :: t == u)
    && (forall t | t in links :: IsHashName(hash(t)))
  }

  ghost predicate DistinctIds(links: Links) {
    forall t, u | t in links && u in links && links[t].Standing? && links[u].Standing? &&
                  links[t].rec.fileId == links[u].rec.fileId && links[t].rec.id == links[u].rec.id :: t == u
  }

  /** A record not yet converted is the link it will be converted to. A corrupt legacy file blocks every pass. */
  ghost predicate LegacyFaithful(hash: Hash, files: Files, links: Links) {
    forall name | name in files && !IsHashName(name) && files[name].Whole? ::
      var raw := Raw(name, files[name].rec);
      raw in links && links[raw] == Standing(Converted(hash, files[name].rec, raw))
  }

  ghost predicate LegacyDistinct(files: Files) {
    forall m, n | m in files && n in files && !IsHashName(m) && !IsHashName(n) && files[m].Whole? && files[n].Whole? &&
                  Raw(m, files[m].rec) == Raw(n, files[n].rec) :: m == n
  }

  predicate Pending(files: Files, name: string, token: string) {
    name in files && !IsHashName(name) && files[name].Whole? && Raw(name, files[name].rec) == token
  }

  /** A hash-named file belongs to a link and, when readable, is that link. */
  ghost predicate HashedFaithful(hash: Hash, files: Files, links: Links) {
    forall name | name in files && IsHashName(name) :: exists t :: Owns(hash, files, links, name, t)
  }

  ghost predicate Owns(hash: Hash, files: Files, links: Links, name: string, t: string)
    requires name in files
  {
    t in links && hash(t) == name && (files[name].Whole? ==> links[t] == Standing(files[name].rec))
  }

  /** No link is lost: it has its hash-named record or still its legacy one. */
  ghost predicate NothingLost(hash: Hash, files: Files, links: Links) {
    forall t | t in links :: Kept(hash, files, t, links[t])
  }

  ghost predicate Kept(hash: Hash, files: Files, t: string, fate: Fate) {
    match fate
    case Standing(rec) =>
      && rec.tokenHash == hash(t) && rec.token == ""
      && ((hash(t) in files && files[hash(t)] == Whole(rec)) || exists name :: Pending(files, name, t))
    case Damaged => hash(t) in files && files[hash(t)] == Corrupt
  }

  ghost predicate Represents(hash: Hash, files: Files, links: Links) {
    && LegacyFaithful(hash, files, links) && LegacyDistinct(files)
    && HashedFaithful(hash, files, links) && NothingLost(hash, files, links)
  }

  ghost predicate OnlyHashed(files: Files) {
    forall name | name in files :: IsHashName(name)
  }

  ghost predicate Ok(hash: Hash, s: State, links: Links) {
    && CollisionFree(hash, links) && DistinctIds(links)
    && Represents(hash, s.files, links)
    && (s.done ==> OnlyHashed(s.files))
  }

  ghost predicate AllLegacy(files: Files) {
    (forall name | name in files :: !IsHashName(name) && files[name].Whole?) && LegacyDistinct(files)
  }

  /** The links a directory from before the conversion stands for. */
  ghost function Issued(hash: Hash, files: Files): Links
    requires AllLegacy(files)
  {
    map name | name in files ::
      Raw(name, files[name].rec) := Standing(Converted(hash, files[name].rec, Raw(name, files[name].rec)))
  }

  /** Any such directory is a place to start from. */
  lemma LegacyDirectoryIsOk(hash: Hash, files: Files)
    requires AllLegacy(files) && CollisionFree(hash, Issued(hash, files)) && DistinctIds(Issued(hash, files))
    ensures Ok(hash, State(files, false), Issued(hash, files))
  {
    LegacyRepresents(hash, files);
  }

  lemma LegacyRepresents(hash: Hash, files: Files)
    requires AllLegacy(files)
    ensures Represents(hash, files, Issued(hash, files))
  {
    var links := Issued(hash, files);
    forall t | t in links ensures Kept(hash, files, t, links[t]) {
      var name :| name in files && Raw(name, files[name].rec) == t;
      assert Pending(files, name, t);
    }
  }

  // ---------- a pass keeps every link ----------

  lemma WriteKeeps(hash: Hash, files: Files, links: Links, name: string, c: Content)
    requires CollisionFree(hash, links) && Represents(hash, files, links)
    requires name in files && !IsHashName(name) && files[name].Whole?
    requires var raw := Raw(name, files[name].rec); c == Corrupt || c == Whole(Converted(hash, files[name].rec, raw))
    ensures var raw := Raw(name, files[name].rec); Represents(hash, files[hash(raw) := c], links)
  {
    var raw := Raw(name, files[name].rec);
    var h := hash(raw);
    var next := files[h := c];
    assert raw in links && IsHashName(h);
    forall n | n in next && IsHashName(n) ensures exists t :: Owns(hash, next, links, n, t) {
      if n == h {
        assert Owns(hash, next, links, n, raw);
      } else {
        var t :| Owns(hash, files, links, n, t);
        assert Owns(hash, next, links, n, t);
      }
    }
    forall t | t in links ensures Kept(hash, next, t, links[t]) {
      assert Kept(hash, files, t, links[t]);
      if t == raw {
        assert Pending(next, name, t);
      } else {
        assert hash(t) != h;
        if n :| Pending(files, n, t) {
          assert Pending(next, n, t);
        }
      }
    }
  }

  lemma RemoveKeeps(hash: Hash, files: Files, links: Links, name: string)
    requires CollisionFree(hash, links) && Represents(hash, files, links)
    requires name in files && !IsHashName(name) && files[name].Whole?
    requires var h := hash(Raw(name, files[name].rec)); h in files && files[h].Whole?
    ensures Represents(hash, files - {name}, links)
  {
    var raw := Raw(name, files[name].rec);
    var next := files - {name};
    assert IsHashName(hash(raw));
    forall n | n in next && IsHashName(n) ensures exists t :: Owns(hash, next, links, n, t) {
      var t :| Owns(hash, files, links, n, t);
      assert Owns(hash, next, links, n, t);
    }
    forall t | t in links ensures Kept(hash, next, t, links[t]) {
      assert Kept(hash, files, t, links[t]);
      assert IsHashName(hash(t));
      if t == raw {
        var u :| Owns(hash, files, links, hash(raw), u);
      } else if n :| Pending(files, n, t) {
        assert Pending(next, n, t);
      }
    }
  }

  /** Neither half of one conversion loses a link. */
  lemma ConversionKeeps(hash: Hash, files: Files, links: Links, name: string)
    requires CollisionFree(hash, links) && Represents(hash, files, links)
    requires name in files && !IsHashName(name) && files[name].Whole?
    ensures Represents(hash, WriteOf(hash, files, name), links)
    ensures Represents(hash, WriteOf(hash, files, name) - {name}, links)
  {
    var raw := Raw(name, files[name].rec);
    var c := Whole(Converted(hash, files[name].rec, raw));
    WriteKeeps(hash, files, links, name, c);
    assert raw in links && name != hash(raw);
    RemoveKeeps(hash, WriteOf(hash, files, name), links, name);
  }

  /** The pass gets past this name. */
  predicate Goes(files: Files, name: string, budget: nat) {
    IsHashName(name) || (name in files && files[name].Whole? && budget > 1)
  }

  /** What a pass has made of the directory after the first listed name, and the writes it has left. */
  function FirstDone(hash: Hash, files: Files, name: string, budget: nat): (Files, nat)
    requires Goes(files, name, budget)
  {
    if IsHashName(name) then (files, budget) else (WriteOf(hash, files, name) - {name}, budget - 2)
  }

  lemma FirstKeeps(hash: Hash, files: Files, name: string, budget: nat, links: Links)
    requires CollisionFree(hash, links) && Represents(hash, files, links)
    requires Goes(files, name, budget)
    ensures Represents(hash, FirstDone(hash, files, name, budget).0, links)
  {
    if !IsHashName(name) {
      ConversionKeeps(hash, files, links, name);
    }
  }

  lemma PassUnfolds(hash: Hash, files: Files, todo: seq<string>, budget: nat, torn: bool)
    requires todo != [] && Goes(files, todo[0], budget)
    ensures var first := FirstDone(hash, files, todo[0], budget);
      Pass(hash, files, todo, budget, torn) == Pass(hash, first.0, todo[1..], first.1, torn)
  {
  }

  lemma StopKeeps(hash: Hash, files: Files, todo: seq<string>, budget: nat, torn: bool, links: Links)
    requires CollisionFree(hash, links) && Represents(hash, files, links)
    requires todo != [] && !Goes(files, todo[0], budget)
    ensures Represents(hash, Pass(hash, files, todo, budget, torn).0, links)
  {
    PassStops(hash, files, todo, budget, torn);
    var name := todo[0];
    if name in files && files[name].Whole? {
      if budget == 0 {
        WriteKeeps(hash, files, links, name, Corrupt);
      } else {
        ConversionKeeps(hash, files, links, name);
      }
    }
  }

  lemma PassStops(hash: Hash, files: Files, todo: seq<string>, budget: nat, torn: bool)
    requires todo != [] && !Goes(files, todo[0], budget)
    ensures var name := todo[0]; var (left, complete) := Pass(hash, files, todo, budget, torn);
      && !complete
      && left ==
         if name !in files || files[name].Corrupt? || (budget == 0 && !torn) then files
         else if budget == 0 then files[hash(Raw(name, files[name].rec)) := Corrupt]
         else WriteOf(hash, files, name)
  {
  }

  /** Wherever a pass stops, the directory still stands for the same links. */
  lemma {:induction false} PassKeepsLinks(hash: Hash, files: Files, todo: seq<string>, budget: nat, torn: bool,
                                          links: Links)
    requires CollisionFree(hash, links) && Represents(hash, files, links)
    ensures Represents(hash, Pass(hash, files, todo, budget, torn).0, links)
    decreases |todo|
  {
    if todo == [] {
    } else if Goes(files, todo[0], budget) {
      var first := FirstDone(hash, files, todo[0], budget);
      FirstKeeps(hash, files, todo[0], budget, links);
      PassUnfolds(hash, files, todo, budget, torn);
      PassKeepsLinks(hash, first.0, todo[1..], first.1, torn, links);
    } else {
      StopKeeps(hash, files, todo, budget, torn, links);
    }
  }

  /** A completed pass leaves only hash-named files. */
  lemma {:induction false} CompletedPassIsClean(hash: Hash, files: Files, todo: seq<string>, budget: nat, torn: bool)
    requires forall token :: IsHashName(hash(token))
    requires forall name | name in files :: IsHashName(name) || name in todo
    ensures var r := Pass(hash, files, todo, budget, torn); r.1 ==> OnlyHashed(r.0)
    decreases |todo|
  {
    if todo != [] {
      UnfoldFirst(todo);
      var name := todo[0];
      if IsHashName(name) {
        CompletedPassIsClean(hash, files, todo[1..], budget, torn);
      } else if name in files && files[name].Whole? && budget > 1 {
        CompletedPassIsClean(hash, WriteOf(hash, files, name) - {name}, todo[1..], budget - 2, torn);
      }
    }
  }

  /** With no fault, a pass completes exactly when every legacy record it lists is readable. */
  lemma {:induction false} FaultlessPassCompletes(hash: Hash, files: Files, todo: seq<string>, budget: nat, torn: bool)
    requires forall token :: IsHashName(hash(token))
    requires NoDuplicates(todo) && forall name | name in todo :: name in files
    requires budget >= 2 * |todo|
    ensures Pass(hash, files, todo, budget, torn).1 <==>
      forall name | name in todo && !IsHashName(name) :: files[name].Whole?
    decreases |todo|
  {
    if todo != [] {
      UnfoldFirst(todo);
      var name := todo[0];
      assert forall i | 0 <= i < |todo| - 1 :: todo[1..][i] == todo[i + 1];
      if Goes(files, name, budget) {
        var (left, writes) := FirstDone(hash, files, name, budget);
        PassUnfolds(hash, files, todo, budget, torn);
        forall n | n in todo[1..] ensures n in left && (!IsHashName(n) ==> left[n] == files[n]) {
          OthersStay(hash, files, name, budget, n);
        }
        FaultlessPassCompletes(hash, left, todo[1..], writes, torn);
      } else {
        PassStops(hash, files, todo, budget, torn);
      }
    }
  }

  /** The first step of a pass leaves every other legacy record alone. */
  lemma OthersStay(hash: Hash, files: Files, name: string, budget: nat, other: string)
    requires forall token :: IsHashName(hash(token))
    requires Goes(files, name, budget) && other in files && other != name
    ensures var left := FirstDone(hash, files, name, budget).0;
      other in left && (!IsHashName(other) ==> left[other] == files[other])
  {
  }

  // ---------- field by field ----------

  /** r is rec in every respect but the token, of which only the hash h is left. */
  predicate SameLink(rec: Record, r: Record, h: string) {
    && r.id == rec.id && r.fileId == rec.fileId && r.rest == rec.rest && r.createdAt == rec.createdAt
    && r.revoked == rec.revoked && r.tokenHash == h && r.token == ""
  }

  /** What a bearer presents for a legacy record: the token stored in it, or its file's name when it stores none. */
  function Bearer(name: string, rec: Record): string {
    if rec.token != "" then rec.token else name
  }

  /** Readable records under names that are not hashes, each with a bearer token of its own, also by hash. */
  ghost predicate Legacy(hash: Hash, files: Files) {
    && (forall name | name in files :: !IsHashName(name) && files[name].Whole?)
    && (forall m, n | m in files && n in files &&
          hash(Bearer(m, files[m].rec)) == hash(Bearer(n, files[n].rec)) :: m == n)
  }

  lemma LegacyIsAllLegacy(hash: Hash, files: Files)
    requires (forall token :: IsHashName(hash(token))) && Legacy(hash, files)
    ensures AllLegacy(files) && CollisionFree(hash, Issued(hash, files))
    ensures forall name | name in files :: Raw(name, files[name].rec) == Bearer(name, files[name].rec)
  {
    assert forall name | name in files :: Raw(name, files[name].rec) == Bearer(name, files[name].rec);
    var links := Issued(hash, files);
    forall t, u | t in links && u in links && hash(t) == hash(u) ensures t == u {
      var m :| m in files && Raw(m, files[m].rec) == t;
      var n :| n in files && Raw(n, files[n].rec) == u;
    }
  }

  /** A pass only ever removes a legacy record. */
  lemma {:induction false} LegacyUntouched(hash: Hash, files: Files, todo: seq<string>, budget: nat, torn: bool,
                                           name: string)
    requires (forall token :: IsHashName(hash(token))) && !IsHashName(name)
    ensures var left := Pass(hash, files, todo, budget, torn).0;
      name in left ==> name in files && left[name] == files[name]
    decreases |todo|
  {
    if todo == [] {
    } else if Goes(files, todo[0], budget) {
      var (left, writes) := FirstDone(hash, files, todo[0], budget);
      PassUnfolds(hash, files, todo, budget, torn);
      LegacyUntouched(hash, left, todo[1..], writes, torn, name);
    } else {
      PassStops(hash, files, todo, budget, torn);
    }
  }

  /** The record is still there untouched, or converted; and whatever readable record lies under the hash of its bearer
      token is that same link, revoked exactly if it was. */
  predicate Carried(hash: Hash, files: Files, left: Files, name: string)
    requires name in files && files[name].Whole?
  {
    var rec := files[name].rec;
    var h := hash(Bearer(name, rec));
    && (name in left ==> left[name] == files[name])
    && (name !in left ==> h in left && left[h].Whole?)
    && (h in left && left[h].Whole? ==> SameLink(rec, left[h].rec, h))
  }

  /** Wherever a pass over a legacy directory stops, it has carried over every link. */
  lemma PassConvertsExactly(hash: Hash, files: Files, todo: seq<string>, budget: nat, torn: bool, name: string)
    requires (forall token :: IsHashName(hash(token))) && Legacy(hash, files) && name in files
    ensures Carried(hash, files, Pass(hash, files, todo, budget, torn).0, name)
  {
    var links := Issued(hash, files);
    var left := Pass(hash, files, todo, budget, torn).0;
    var raw := Bearer(name, files[name].rec);
    LegacyIsAllLegacy(hash, files);
    LegacyRepresents(hash, files);
    PassKeepsLinks(hash, files, todo, budget, torn, links);
    LegacyUntouched(hash, files, todo, budget, torn, name);
    IssuedIsSameLink(hash, files, name);
    assert Kept(hash, left, raw, links[raw]);
    if n :| Pending(left, n, raw) {
      LegacyUntouched(hash, files, todo, budget, torn, n);
    }
    if hash(raw) in left {
      var t :| Owns(hash, left, links, hash(raw), t);
    }
  }

  lemma PassCarriesAll(hash: Hash, files: Files, todo: seq<string>, budget: nat, torn: bool)
    requires (forall token :: IsHashName(hash(token))) && Legacy(hash, files)
    ensures forall name | name in files :: Carried(hash, files, Pass(hash, files, todo, budget, torn).0, name)
  {
    forall name | name in files ensures Carried(hash, files, Pass(hash, files, todo, budget, torn).0, name) {
      PassConvertsExactly(hash, files, todo, budget, torn, name);
    }
  }

  lemma IssuedIsSameLink(hash: Hash, files: Files, name: string)
    requires AllLegacy(files) && name in files
    ensures var rec := files[name].rec; var raw := Bearer(name, rec); var links := Issued(hash, files);
      raw in links && links[raw].Standing? && SameLink(rec, links[raw].rec, hash(raw))
  {
    var raw := Raw(name, files[name].rec);
    var links := Issued(hash, files);
    assert raw in links;
    var n :| n in files && Raw(n, files[n].rec) == raw && links[raw] == Standing(Converted(hash, files[n].rec, raw));
    assert n == name;
  }

  /** A created link is found under the hash of its token, as it was given; no other file changes. */
  lemma CreatedAsGiven(hash: Hash, s: State, rec: Record, torn: bool)
    requires rec.token != ""
    ensures var t := Create(hash, s, rec, torn); var h := hash(rec.token);
      && (torn ==> Lookup(t.files, h) == Unreadable)
      && (!torn ==> Lookup(t.files, h).Found? && SameLink(rec, Lookup(t.files, h).rec, h))
      && (forall name | name != h :: Lookup(t.files, name) == Lookup(s.files, name))
  {
  }

  /** A revocation changes the found record's flag, and no other file. */
  lemma RevokedAsFound(hash: Hash, s: State, listed: seq<string>, fault: Fault, name: string, torn: bool)
    requires var m := Migrate(hash, s, listed, fault); m.done && name in m.files && m.files[name].Whole?
    ensures var m := Migrate(hash, s, listed, fault); var rec := m.files[name].rec;
      var t := Revoke(hash, s, listed, fault, Some(name), torn);
      && (torn ==> Lookup(t.files, rec.tokenHash) == Unreadable)
      && (!torn ==>
           var answer := Lookup(t.files, rec.tokenHash);
           && answer.Found? && answer.rec.revoked && SameLink(rec.(revoked := true), answer.rec, rec.tokenHash))
      && (forall other | other != rec.tokenHash :: Lookup(t.files, other) == Lookup(m.files, other))
  {
  }

  // ---------- runs ----------

  datatype Event =
    | Restarted
    | Created(rec: Record, torn: bool)
    | Fetched(listed: seq<string>, fault: Fault)
    | Revoked(fileId: string, linkId: string, listed: seq<string>, fault: Fault, target: Option<string>, torn: bool)

  ghost predicate Lists(files: Files, listed: seq<string>) {
    forall name | name in files :: name in listed
  }

  /** What the surroundings grant: listings are complete, a new link has a fresh token and id, a scan settles on what is
      there. */
  ghost predicate Admissible(hash: Hash, s: State, links: Links, e: Event) {
    match e
    case Restarted => true
    case Created(rec, torn) => rec.token != "" ==> Fresh(hash, links, rec)
    case Fetched(listed, _) => Lists(s.files, listed)
    case Revoked(fileId, linkId, listed, fault, target, _) =>
      var m := Migrate(hash, s, listed, fault);
      Lists(s.files, listed) && (m.done ==> Chosen(m.files, fileId, linkId, target))
  }

  ghost predicate Fresh(hash: Hash, links: Links, rec: Record) {
    && rec.token !in links && IsHashName(hash(rec.token))
    && (forall t | t in links :: hash(t) != hash(rec.token))
    && (forall t | t in links && links[t].Standing? :: links[t].rec.fileId != rec.fileId || links[t].rec.id != rec.id)
  }

  ghost function Step(hash: Hash, s: State, links: Links, e: Event): State
    requires Admissible(hash, s, links, e)
  {
    match e
    case Restarted => State(s.files, false)
    case Created(rec, torn) => Create(hash, s, rec, torn)
    case Fetched(listed, fault) => Migrate(hash, s, listed, fault)
    case Revoked(_, _, listed, fault, target, torn) => Revoke(hash, s, listed, fault, target, torn)
  }

  /** The ideal store: links by token, with no files, passes or restarts. A revocation that was refused because the pass
      before it did not complete does nothing. */
  function Ideal(hash: Hash, s: State, links: Links, e: Event): Links {
    match e
    case Restarted => links
    case Created(rec, torn) =>
      if rec.token == "" then links
      else links[rec.token := if torn then Damaged else Standing(Converted(hash, rec, rec.token))]
    case Fetched(_, _) => links
    case Revoked(fileId, linkId, listed, fault, _, torn) =>
      if !Migrate(hash, s, listed, fault).done then links
      else RevokedOf(links, fileId, linkId, torn)
  }

  function Revocation(fate: Fate, fileId: string, linkId: string, torn: bool): Fate {
    match fate
    case Damaged => Damaged
    case Standing(rec) =>
      if rec.fileId != fileId || rec.id != linkId then fate
      else if torn then Damaged else Standing(rec.(revoked := true))
  }

  lemma MigrateKeeps(hash: Hash, s: State, listed: seq<string>, fault: Fault, links: Links)
    requires forall token :: IsHashName(hash(token))
    requires Ok(hash, s, links) && Lists(s.files, listed)
    ensures Ok(hash, Migrate(hash, s, listed, fault), links)
  {
    if !s.done {
      PassKeepsLinks(hash, s.files, listed, fault.budget, fault.torn, links);
      CompletedPassIsClean(hash, s.files, listed, fault.budget, fault.torn);
    }
  }

  /** next and more are files and links with one token's hash-named record and fate replaced by matching ones. */
  ghost predicate Replaced(hash: Hash, files: Files, links: Links, next: Files, more: Links, token: string) {
    && hash(token) in next && next == files[hash(token) := next[hash(token)]]
    && token in more && more == links[token := more[token]]
    && (match more[token]
        case Standing(rec) => rec.tokenHash == hash(token) && rec.token == "" && next[hash(token)] == Whole(rec)
        case Damaged => next[hash(token)] == Corrupt)
    && forall name :: !Pending(files, name, token)
  }

  lemma ReplacedHashed(hash: Hash, files: Files, links: Links, next: Files, more: Links, token: string)
    requires HashedFaithful(hash, files, links)
    requires Replaced(hash, files, links, next, more, token)
    ensures HashedFaithful(hash, next, more)
  {
    forall n | n in next && IsHashName(n) ensures exists t :: Owns(hash, next, more, n, t) {
      if n == hash(token) {
        assert Owns(hash, next, more, n, token);
      } else {
        var t :| Owns(hash, files, links, n, t);
        assert Owns(hash, next, more, n, t);
      }
    }
  }

  lemma ReplacedLosesNothing(hash: Hash, files: Files, links: Links, next: Files, more: Links, token: string)
    requires CollisionFree(hash, more) && NothingLost(hash, files, links)
    requires Replaced(hash, files, links, next, more, token)
    ensures NothingLost(hash, next, more)
  {
    forall t | t in more ensures Kept(hash, next, t, more[t]) {
      if t != token {
        assert Kept(hash, files, t, links[t]);
        if n :| Pending(files, n, t) {
          assert Pending(next, n, t);
        }
      }
    }
  }

  lemma ReplacedRepresents(hash: Hash, files: Files, links: Links, next: Files, more: Links, token: string)
    requires CollisionFree(hash, more) && Represents(hash, files, links)
    requires Replaced(hash, files, links, next, more, token)
    ensures Represents(hash, next, more)
  {
    ReplacedHashed(hash, files, links, next, more, token);
    ReplacedLosesNothing(hash, files, links, next, more, token);
    assert LegacyFaithful(hash, next, more) by {
      forall name | name in next && !IsHashName(name) && next[name].Whole?
        ensures var raw := Raw(name, next[name].rec);
          raw in more && more[raw] == Standing(Converted(hash, next[name].rec, raw))
      {
        assert !Pending(files, name, token);
      }
    }
  }

  lemma CreateKeeps(hash: Hash, s: State, rec: Record, torn: bool, links: Links)
    requires Ok(hash, s, links) && Admissible(hash, s, links, Created(rec, torn))
    ensures Ok(hash, Create(hash, s, rec, torn), Ideal(hash, s, links, Created(rec, torn)))
  {
    if rec.token != "" {
      var more := Ideal(hash, s, links, Created(rec, torn));
      assert forall name :: !Pending(s.files, name, rec.token);
      assert CollisionFree(hash, more) && DistinctIds(more);
      ReplacedRepresents(hash, s.files, links, Create(hash, s, rec, torn).files, more, rec.token);
    }
  }

  /** Once only hash-named files remain, a link's own record is the one file that names it. */
  lemma DoneIsExact(hash: Hash, s: State, links: Links, t: string)
    requires Ok(hash, s, links) && s.done && t in links
    ensures Lookup(s.files, hash(t)) == match links[t] case Standing(rec) => Found(rec) case Damaged => Unreadable
  {
    assert Kept(hash, s.files, t, links[t]);
  }

  function RevokedOf(links: Links, fileId: string, linkId: string, torn: bool): Links {
    map t | t in links :: Revocation(links[t], fileId, linkId, torn)
  }

  /** A revocation changes one link's fate and no other's. */
  lemma RevokedOne(links: Links, fileId: string, linkId: string, torn: bool, owner: string)
    requires DistinctIds(links)
    requires owner in links && links[owner].Standing? && links[owner].rec.fileId == fileId &&
      links[owner].rec.id == linkId
    ensures RevokedOf(links, fileId, linkId, torn) == links[owner := Revocation(links[owner], fileId, linkId, torn)]
  {
    forall t | t in links && t != owner ensures Revocation(links[t], fileId, linkId, torn) == links[t] {
    }
  }

  lemma RevokeWriteKeeps(hash: Hash, m: State, fileId: string, linkId: string, name: string, torn: bool, links: Links)
    requires Ok(hash, m, links) && m.done
    requires name in m.files && IsLink(m.files[name], fileId, linkId)
    ensures var rec := m.files[name].rec;
      Ok(hash, State(m.files[rec.tokenHash := Written(rec.(revoked := true, token := ""), torn)], true),
         RevokedOf(links, fileId, linkId, torn))
  {
    var rec := m.files[name].rec;
    var owner :| Owns(hash, m.files, links, name, owner);
    assert Kept(hash, m.files, owner, links[owner]);
    assert rec.tokenHash == name && rec.token == "";
    var next := m.files[name := Written(rec.(revoked := true, token := ""), torn)];
    var fewer := RevokedOf(links, fileId, linkId, torn);
    RevokedOne(links, fileId, linkId, torn, owner);
    SameNames(hash, links, fewer, owner);
    ReplacedRepresents(hash, m.files, links, next, fewer, owner);
  }

  /** Revoking the owner's link brings in no new token and no new id. */
  lemma SameNames(hash: Hash, links: Links, fewer: Links, owner: string)
    requires CollisionFree(hash, links) && DistinctIds(links)
    requires owner in links && links[owner].Standing? && fewer.Keys == links.Keys
    requires forall t | t in links && t != owner :: fewer[t] == links[t]
    requires fewer[owner].Standing? ==>
      fewer[owner].rec.fileId == links[owner].rec.fileId && fewer[owner].rec.id == links[owner].rec.id
    ensures CollisionFree(hash, fewer) && DistinctIds(fewer)
  {
  }

  /** When no file is found for the link, there is no such standing link. */
  lemma RevokeNothing(hash: Hash, m: State, fileId: string, linkId: string, torn: bool, links: Links)
    requires Ok(hash, m, links) && m.done && Chosen(m.files, fileId, linkId, None)
    ensures RevokedOf(links, fileId, linkId, torn) == links
  {
    forall t | t in links ensures Revocation(links[t], fileId, linkId, torn) == links[t] {
      DoneIsExact(hash, m, links, t);
    }
  }

  lemma StepKeeps(hash: Hash, s: State, links: Links, e: Event)
    requires forall token :: IsHashName(hash(token))
    requires Ok(hash, s, links) && Admissible(hash, s, links, e)
    ensures Ok(hash, Step(hash, s, links, e), Ideal(hash, s, links, e))
  {
    match e
    case Restarted =>
    case Created(rec, torn) => CreateKeeps(hash, s, rec, torn, links);
    case Fetched(listed, fault) => MigrateKeeps(hash, s, listed, fault, links);
    case Revoked(fileId, linkId, listed, fault, target, torn) =>
      MigrateKeeps(hash, s, listed, fault, links);
      var m := Migrate(hash, s, listed, fault);
      if m.done {
        if target.Some? {
          RevokeWriteKeeps(hash, m, fileId, linkId, target.value, torn, links);
        } else {
          RevokeNothing(hash, m, fileId, linkId, torn, links);
        }
      }
  }

  /** The trace of a run: each state and ideal store follows from the last by an admissible event. */
  ghost predicate IsRun(hash: Hash, states: seq<State>, ideals: seq<Links>, events: seq<Event>) {
    && |states| == |ideals| == |events| + 1
    && forall i | 0 <= i < |events| ::
      && Admissible(hash, states[i], ideals[i], events[i])
      && states[i + 1] == Step(hash, states[i], ideals[i], events[i])
      && ideals[i + 1] == Ideal(hash, states[i], ideals[i], events[i])
  }

  lemma {:induction false} RunKeeps(hash: Hash, states: seq<State>, ideals: seq<Links>, events: seq<Event>, n: nat)
    requires forall token :: IsHashName(hash(token))
    requires IsRun(hash, states, ideals, events) && n <= |events|
    requires Ok(hash, states[0], ideals[0])
    ensures Ok(hash, states[n], ideals[n])
  {
    if n > 0 {
      RunKeeps(hash, states, ideals, events, n - 1);
      StepKeeps(hash, states[n - 1], ideals[n - 1], events[n - 1]);
    }
  }

  /** Across any run of passes, crashes, restarts, creations and revocations, a token presented after a completed pass
      resolves to exactly its link: migration, however often it is cut short, is invisible. */
  lemma RunResolvesExactly(hash: Hash, states: seq<State>, ideals: seq<Links>, events: seq<Event>, n: nat, t: string)
    requires forall token :: IsHashName(hash(token))
    requires IsRun(hash, states, ideals, events) && n <= |events|
    requires Ok(hash, states[0], ideals[0])
    requires states[n].done && t in ideals[n]
    ensures OnlyHashed(states[n].files)
    ensures Lookup(states[n].files, hash(t)) ==
            match ideals[n][t] case Standing(rec) => Found(rec) case Damaged => Unreadable
  {
    RunKeeps(hash, states, ideals, events, n);
    DoneIsExact(hash, states[n], ideals[n], t);
  }

  predicate NeverLive(fate: Fate) {
    fate.Damaged? || fate.rec.revoked
  }

  lemma {:induction false} IdealStaysRevoked(hash: Hash, states: seq<State>, ideals: seq<Links>, events: seq<Event>,
                            i: nat, n: nat, t: string)
    requires forall token :: IsHashName(hash(token))
    requires IsRun(hash, states, ideals, events) && i <= n <= |events|
    requires t in ideals[i] && NeverLive(ideals[i][t])
    ensures t in ideals[n] && NeverLive(ideals[n][t])
    decreases n
  {
    if i < n {
      IdealStaysRevoked(hash, states, ideals, events, i, n - 1, t);
      var e := events[n - 1];
      assert Admissible(hash, states[n - 1], ideals[n - 1], e);
    }
  }

  /** A revoked link never answers as live again. */
  lemma RevokedStaysRevoked(hash: Hash, states: seq<State>, ideals: seq<Links>, events: seq<Event>,
                            i: nat, n: nat, t: string)
    requires forall token :: IsHashName(hash(token))
    requires IsRun(hash, states, ideals, events) && i <= n <= |events|
    requires Ok(hash, states[0], ideals[0])
    requires t in ideals[i] && NeverLive(ideals[i][t])
    requires states[n].done
    ensures var answer := Lookup(states[n].files, hash(t)); answer.Unreadable? || (answer.Found? && answer.rec.revoked)
  {
    IdealStaysRevoked(hash, states, ideals, events, i, n, t);
    RunResolvesExactly(hash, states, ideals, events, n, t);
  }

  predicate Targets(e: Event, rec: Record) {
    e.Revoked? && e.fileId == rec.fileId && e.linkId == rec.id
  }

  lemma {:induction false} IdealStaysLive(hash: Hash, states: seq<State>, ideals: seq<Links>, events: seq<Event>,
                            i: nat, n: nat, t: string)
    requires IsRun(hash, states, ideals, events) && i <= n <= |events|
    requires t in ideals[i] && ideals[i][t].Standing?
    requires forall j | i <= j < n :: !Targets(events[j], ideals[i][t].rec)
    ensures t in ideals[n] && ideals[n][t] == ideals[i][t]
    decreases n
  {
    if i < n {
      IdealStaysLive(hash, states, ideals, events, i, n - 1, t);
      var e := events[n - 1];
      assert Admissible(hash, states[n - 1], ideals[n - 1], e);
      assert !Targets(e, ideals[i][t].rec);
    }
  }

  /** A link nobody revoked keeps resolving to its own record, unchanged. */
  lemma LiveStaysLive(hash: Hash, states: seq<State>, ideals: seq<Links>, events: seq<Event>,
                            i: nat, n: nat, t: string)
    requires forall token :: IsHashName(hash(token))
    requires IsRun(hash, states, ideals, events) && i <= n <= |events|
    requires Ok(hash, states[0], ideals[0])
    requires t in ideals[i] && ideals[i][t].Standing?
    requires forall j | i <= j < n :: !Targets(events[j], ideals[i][t].rec)
    requires states[n].done
    ensures Lookup(states[n].files, hash(t)) == Found(ideals[i][t].rec)
  {
    IdealStaysLive(hash, states, ideals, events, i, n, t);
    RunResolvesExactly(hash, states, ideals, events, n, t);
  }

  /** The fate is still that of the link rec, which was never revived. */
  predicate StillLink(fate: Fate, rec: Record, h: string) {
    fate.Standing? ==> (rec.revoked ==> fate.rec.revoked) && SameLink(rec.(revoked := fate.rec.revoked), fate.rec, h)
  }

  lemma {:induction false} IdealKeepsLink(hash: Hash, states: seq<State>, ideals: seq<Links>, events: seq<Event>,
                                          n: nat, t: string, rec: Record)
    requires IsRun(hash, states, ideals, events) && n <= |events|
    requires t in ideals[0] && StillLink(ideals[0][t], rec, hash(t))
    ensures t in ideals[n] && StillLink(ideals[n][t], rec, hash(t))
  {
    if n > 0 {
      IdealKeepsLink(hash, states, ideals, events, n - 1, t, rec);
      var e := events[n - 1];
      assert Admissible(hash, states[n - 1], ideals[n - 1], e);
    }
  }

  /** From a legacy directory, across any run: once a pass has completed, a bearer token resolves to the link it was
      issued for, field by field, or to a record that a torn write destroyed; and one that was revoked never answers
      live. */
  lemma LegacyResolves(hash: Hash, files: Files, states: seq<State>, ideals: seq<Links>, events: seq<Event>, n: nat,
                       name: string)
    requires (forall token :: IsHashName(hash(token))) && Legacy(hash, files) && name in files
    requires forall i, j | i in files && j in files && files[i].rec.fileId == files[j].rec.fileId &&
      files[i].rec.id == files[j].rec.id :: i == j
    requires IsRun(hash, states, ideals, events) && n <= |events|
    requires states[0] == State(files, false) && ideals[0] == IssuedBy(hash, files)
    requires states[n].done
    ensures var rec := files[name].rec; var h := hash(Bearer(name, rec));
      match Lookup(states[n].files, h)
      case NotFound => false
      case Unreadable => true
      case Found(r) => (rec.revoked ==> r.revoked) && SameLink(rec.(revoked := r.revoked), r, h)
  {
    var raw := Bearer(name, files[name].rec);
    LegacyIsAllLegacy(hash, files);
    IssuedIsSameLink(hash, files, name);
    LegacyIdsDistinct(hash, files);
    LegacyDirectoryIsOk(hash, files);
    IdealKeepsLink(hash, states, ideals, events, n, raw, files[name].rec);
    RunResolvesExactly(hash, states, ideals, events, n, raw);
  }

  /** The ideal store that a legacy directory stands for. */
  ghost function IssuedBy(hash: Hash, files: Files): Links
    requires (forall token :: IsHashName(hash(token))) && Legacy(hash, files)
  {
    LegacyIsAllLegacy(hash, files);
    Issued(hash, files)
  }

  lemma LegacyIdsDistinct(hash: Hash, files: Files)
    requires AllLegacy(files)
    requires forall i, j | i in files && j in files && files[i].rec.fileId == files[j].rec.fileId &&
      files[i].rec.id == files[j].rec.id :: i == j
    ensures DistinctIds(Issued(hash, files))
  {
    var links := Issued(hash, files);
    forall t, u | t in links && u in links && links[t].rec.fileId == links[u].rec.fileId &&
      links[t].rec.id == links[u].rec.id
      ensures t == u
    {
      var m :| m in files && Raw(m, files[m].rec) == t;
      var n :| n in files && Raw(n, files[n].rec) == u;
      IssuedIsSameLink(hash, files, m);
      IssuedIsSameLink(hash, files, n);
    }
  }

  // ---------- the store ----------

  class LinkStore {
    const hash: Hash
    var files: Files
    var done: bool

    constructor (hash: Hash, files: Files)
      ensures this.hash == hash && St() == State(files, false)
    {
      this.hash, this.files, this.done := hash, files, false;
    }

    ghost function St(): State
      reads this
    {
      State(files, done)
    }

    /** migrateShareLinks over one directory listing. */
    method MigrateShareLinks(listed: seq<string>, fault: Fault) returns (ok: bool)
      modifies this
      ensures St() == Migrate(hash, old(St()), listed, fault) && ok == done
      ensures !old(done) && Legacy(hash, old(files)) && (forall token :: IsHashName(hash(token))) ==>
        forall name | name in old(files) :: Carried(hash, old(files), files, name)
    {
      if done { return true; }
      if Legacy(hash, files) && forall token :: IsHashName(hash(token)) {
        PassCarriesAll(hash, files, listed, fault.budget, fault.torn);
      }
      var left: nat := fault.budget;
      ghost var start := files;
      for i := 0 to |listed|
        invariant !done
        invariant Pass(hash, files, listed[i..], left, fault.torn) ==
          Pass(hash, start, listed, fault.budget, fault.torn)
      {
        var name := listed[i];
        assert listed[i..][1..] == listed[i + 1..];
        if IsHashName(name) { continue; }
        if name !in files || files[name].Corrupt? { return false; }
        var rec := files[name].rec;
        var raw := if rec.token == "" then name else rec.token;
        if left == 0 {
          if fault.torn { files := files[hash(raw) := Corrupt]; }
          return false;
        }
        files := files[hash(raw) := Whole(rec.(tokenHash := hash(raw), token := ""))];
        if left == 1 { return false; }
        files := files - {name};
        left := left - 2;
      }
      done := true;
      return true;
    }

    method CreateShareLink(rec: Record, torn: bool) returns (ok: bool)
      modifies this
      ensures St() == Create(hash, old(St()), rec, torn) && (ok <==> rec.token != "" && !torn)
      ensures ok ==> var h := hash(rec.token); h in files && files[h].Whole? && SameLink(rec, files[h].rec, h)
    {
      if rec.token == "" { return false; }
      var h := hash(rec.token);
      files := files[h := Written(rec.(tokenHash := h, token := ""), torn)];
      return !torn;
    }

    method GetShareLinkByToken(token: string, listed: seq<string>, fault: Fault) returns (answer: Option<Answer>)
      modifies this
      ensures St() == Migrate(hash, old(St()), listed, fault)
      ensures answer == if done then Some(Lookup(files, hash(token))) else None
    {
      var ok := MigrateShareLinks(listed, fault);
      return if ok then Some(Lookup(files, hash(token))) else None;
    }

    /** The newest link with this id in what ListShareLinks lists for the file. */
    method FindLink(fileId: string, linkId: string) returns (target: Option<string>)
      ensures Chosen(files, fileId, linkId, target)
    {
      target := None;
      var todo := files.Keys;
      while todo != {}
        invariant todo <= files.Keys
        invariant target.Some? ==> target.value in files && IsLink(files[target.value], fileId, linkId)
        invariant forall n | n in files && n !in todo && IsLink(files[n], fileId, linkId) ::
          target.Some? && files[n].rec.createdAt <= files[target.value].rec.createdAt
        decreases |todo|
      {
        var name :| name in todo;
        if IsLink(files[name], fileId, linkId) {
          if target.None? || files[target.value].rec.createdAt < files[name].rec.createdAt {
            target := Some(name);
          }
        }
        todo := todo - {name};
      }
    }

    method RevokeShareLink(fileId: string, linkId: string, listed: seq<string>, fault: Fault, torn: bool)
      returns (ok: bool, target: Option<string>)
      modifies this
      ensures var m := Migrate(hash, old(St()), listed, fault); m.done ==> Chosen(m.files, fileId, linkId, target)
      ensures St() == Revoke(hash, old(St()), listed, fault, target, torn)
      ensures ok <==> done && target.Some? && !torn
    {
      ok := MigrateShareLinks(listed, fault);
      if !ok { return false, None; }
      target := FindLink(fileId, linkId);
      if target.None? { return false, target; }
      var rec := files[target.value].rec;
      files := files[rec.tokenHash := Written(rec.(revoked := true, token := ""), torn)];
      return !torn, target;
    }
  }
}
