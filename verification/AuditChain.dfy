/** backend/signing/crypto.go and backend/handlers/signing.go: the hash chain over an envelope's audit events. */
module AuditChain {
  import opened Common

  /** The hashed projection of an event; `fields` is everything in it but the id, the envelope and the link. */
  datatype Event = Event(id: string, envelope: string, fields: string, prevEventHash: string)

  /** HashEvent: None when the event does not marshal. */
  type Hash = Event -> Option<string>

  /** No event of one chain collides with one of the other. */
  ghost predicate CollisionFree(hash: Hash, a: seq<Event>, b: seq<Event>) {
    forall i, j | 0 <= i < |a| && 0 <= j < |b| :: hash(a[i]).Some? && hash(a[i]) == hash(b[j]) ==> a[i] == b[j]
  }

  ghost predicate NeverEmpty(hash: Hash) {
    forall e :: hash(e) != Some("")
  }

  datatype Fault = BrokenLink(index: nat, expected: string) | Unhashable(index: nat)

  // ---------- what a chain is ----------

  /** What event i should link to; None when the event before it does not hash. */
  function Link(hash: Hash, events: seq<Event>, i: nat): Option<string>
    requires i <= |events|
  {
    if i == 0 then Some("") else hash(events[i - 1])
  }

  predicate GoodAt(hash: Hash, events: seq<Event>, i: nat)
    requires i < |events|
  {
    Link(hash, events, i) == Some(events[i].prevEventHash) && hash(events[i]).Some?
  }

  predicate Intact(hash: Hash, events: seq<Event>) {
    forall i: nat | i < |events| :: GoodAt(hash, events, i)
  }

  /** VerifyChain accepts exactly the intact chains, and otherwise names the first event at fault. */
  method VerifyChain(hash: Hash, events: seq<Event>) returns (r: Result<(), Fault>)
    ensures r.Ok? <==> Intact(hash, events)
    ensures r.Err? ==>
      && r.error.index < |events|
      && Intact(hash, events[..r.error.index]) && !GoodAt(hash, events, r.error.index)
    ensures r.Err? ==>
      var i := r.error.index;
      r.error == if Link(hash, events, i) == Some(events[i].prevEventHash) then Unhashable(i)
                 else BrokenLink(i, Link(hash, events, i).GetOr(""))
  {
    var prevHash := "";
    for i := 0 to |events|
      invariant forall k: nat | k < i :: GoodAt(hash, events, k)
      invariant Link(hash, events, i) == Some(prevHash)
    {
      assert forall k: nat | k < i :: GoodAt(hash, events[..i], k) <==> GoodAt(hash, events, k);
      if events[i].prevEventHash != prevHash {
        assert !GoodAt(hash, events, i);
        return Err(BrokenLink(i, prevHash));
      }
      var h := hash(events[i]);
      if h.None? {
        assert !GoodAt(hash, events, i);
        return Err(Unhashable(i));
      }
      prevHash := h.value;
    }
    return Ok(());
  }

  /** LatestEventHash: the link for the next event. */
  function LatestEventHash(hash: Hash, events: seq<Event>): Option<string> {
    if events == [] then Some("") else hash(events[|events| - 1])
  }

  lemma IntactAppend(hash: Hash, events: seq<Event>, e: Event)
    ensures Intact(hash, events + [e]) <==>
      Intact(hash, events) && LatestEventHash(hash, events) == Some(e.prevEventHash) && hash(e).Some?
  {
    var all := events + [e];
    assert forall i: nat | i < |events| :: GoodAt(hash, all, i) <==> GoodAt(hash, events, i);
    assert GoodAt(hash, all, |events|) <==> LatestEventHash(hash, events) == Some(e.prevEventHash) && hash(e).Some?;
    if Intact(hash, events) && GoodAt(hash, all, |events|) {
      forall i: nat | i < |all| ensures GoodAt(hash, all, i) {
        if i < |events| { assert GoodAt(hash, events, i); }
      }
    }
    if Intact(hash, all) {
      forall i: nat | i < |events| ensures GoodAt(hash, events, i) {
        assert GoodAt(hash, all, i);
      }
    }
  }

  lemma LastLinks(hash: Hash, a: seq<Event>)
    requires Intact(hash, a) && a != []
    ensures var m := |a| - 1;
      && a == a[..m] + [a[m]] && Intact(hash, a[..m]) && hash(a[m]).Some?
      && LatestEventHash(hash, a[..m]) == Some(a[m].prevEventHash)
  {
    var m := |a| - 1;
    assert a == a[..m] + [a[m]];
    IntactAppend(hash, a[..m], a[m]);
  }

  /** Tamper evidence: as long as no two of their events collide, the hash of the last event fixes the whole chain, its
      length included. */
  lemma {:induction false} LastHashFixesChain(hash: Hash, a: seq<Event>, b: seq<Event>)
    requires CollisionFree(hash, a, b) && NeverEmpty(hash)
    requires Intact(hash, a) && Intact(hash, b) && a != [] && b != []
    requires LatestEventHash(hash, a) == LatestEventHash(hash, b)
    ensures a == b
    decreases |a|
  {
    var m, n := |a| - 1, |b| - 1;
    LastLinks(hash, a);
    LastLinks(hash, b);
    assert a[m] == b[n];
    if m > 0 && n > 0 {
      assert CollisionFree(hash, a[..m], b[..n]);
      LastHashFixesChain(hash, a[..m], b[..n]);
    }
  }

  // ---------- appending ----------

  type Store = map<string, seq<Event>>

  function EventsOf(store: Store, envelope: string): seq<Event> {
    if envelope in store then store[envelope] else []
  }

  /** appendChainedAuditEvent: a failed listing counts as an empty chain; an unhashable last event or a failed store
      write appends nothing. `listed` and `stored` say whether the two store calls succeed. */
  function Appended(hash: Hash, store: Store, e: Event, listed: bool, stored: bool): Store {
    var prior := if listed then EventsOf(store, e.envelope) else [];
    match LatestEventHash(hash, prior)
    case None => store
    case Some(prev) =>
      if !stored then store
      else store[e.envelope := EventsOf(store, e.envelope) + [e.(prevEventHash := prev)]]
  }

  function Linked(hash: Hash, store: Store, e: Event): Event {
    e.(prevEventHash := LatestEventHash(hash, EventsOf(store, e.envelope)).GetOr(""))
  }

  ghost predicate AllIntact(hash: Hash, store: Store) {
    forall envelope :: Intact(hash, EventsOf(store, envelope))
  }

  /** An append leaves every chain intact if and only if nothing is stored, or the event hashes and either the listing
      succeeded or there was nothing to list. */
  lemma AppendKeepsIntact(hash: Hash, store: Store, e: Event, listed: bool, stored: bool)
    requires NeverEmpty(hash) && AllIntact(hash, store)
    ensures var prior := EventsOf(store, e.envelope); var next := Appended(hash, store, e, listed, stored);
      AllIntact(hash, next) <==>
        !stored || ((listed || prior == []) && hash(Linked(hash, store, e)).Some?)
  {
    var prior := EventsOf(store, e.envelope);
    assert Intact(hash, prior);
    if prior != [] { assert GoodAt(hash, prior, |prior| - 1); }
    var prev := if listed then LatestEventHash(hash, prior).value else "";
    var linked := e.(prevEventHash := prev);
    var next := Appended(hash, store, e, listed, stored);
    IntactAppend(hash, prior, linked);
    if stored {
      assert EventsOf(next, e.envelope) == prior + [linked];
      assert forall other | other != e.envelope :: EventsOf(next, other) == EventsOf(store, other);
      assert AllIntact(hash, next) <==> Intact(hash, prior + [linked]) by {
        if Intact(hash, prior + [linked]) {
          forall envelope ensures Intact(hash, EventsOf(next, envelope)) {
            if envelope != e.envelope { assert Intact(hash, EventsOf(store, envelope)); }
          }
        } else {
          assert !Intact(hash, EventsOf(next, e.envelope));
        }
      }
    }
  }

  /** The last of two events appended while the envelope's listing fails breaks its chain. */
  lemma UnlistedAppendBreaks(hash: Hash, e: Event, f: Event)
    requires NeverEmpty(hash) && e.envelope == f.envelope
    requires hash(e.(prevEventHash := "")).Some?
    ensures var first := Appended(hash, map[], e, false, true);
      AllIntact(hash, first) && !AllIntact(hash, Appended(hash, first, f, false, true))
  {
    AppendKeepsIntact(hash, map[], e, false, true);
    var first := Appended(hash, map[], e, false, true);
    AppendKeepsIntact(hash, first, f, false, true);
  }

  datatype Append = Append(e: Event, stored: bool)

  function RunOf(hash: Hash, appends: seq<Append>): Store {
    if appends == [] then map[]
    else
      var last := appends[|appends| - 1];
      Appended(hash, RunOf(hash, appends[..|appends| - 1]), last.e, true, last.stored)
  }

  /** Every event stored by the run hashes, once it is linked. */
  ghost predicate AllHash(hash: Hash, appends: seq<Append>) {
    forall k | 0 <= k < |appends| && appends[k].stored ::
      hash(Linked(hash, RunOf(hash, appends[..k]), appends[k].e)).Some?
  }

  lemma AllHashPrefix(hash: Hash, appends: seq<Append>)
    requires appends != [] && AllHash(hash, appends)
    ensures AllHash(hash, appends[..|appends| - 1])
  {
    var n := |appends| - 1;
    forall k | 0 <= k < n && appends[..n][k].stored
      ensures hash(Linked(hash, RunOf(hash, appends[..n][..k]), appends[..n][k].e)).Some?
    {
      assert appends[..n][..k] == appends[..k];
    }
  }

  /** Any run of appends with successful listings leaves chains that VerifyChain accepts. */
  lemma {:induction false} RunIsIntact(hash: Hash, appends: seq<Append>)
    requires NeverEmpty(hash) && AllHash(hash, appends)
    ensures AllIntact(hash, RunOf(hash, appends))
  {
    if appends == [] {
    } else {
      var n := |appends| - 1;
      AllHashPrefix(hash, appends);
      RunIsIntact(hash, appends[..n]);
      AppendKeepsIntact(hash, RunOf(hash, appends[..n]), appends[n].e, true, appends[n].stored);
    }
  }

  /** An event without its link. */
  function Bare(e: Event): Event {
    e.(prevEventHash := "")
  }

  function Own(appends: seq<Append>, envelope: string): seq<Event> {
    if appends == [] then []
    else
      var last := appends[|appends| - 1];
      Own(appends[..|appends| - 1], envelope) +
      if last.stored && last.e.envelope == envelope then [Bare(last.e)] else []
  }

  function BareEvents(events: seq<Event>): seq<Event> {
    seq(|events|, i requires 0 <= i < |events| => Bare(events[i]))
  }

  /** A run leaves in an envelope's chain exactly the events it stored for that envelope, in order. */
  lemma {:induction false} RunKeepsEveryEvent(hash: Hash, appends: seq<Append>, envelope: string)
    requires NeverEmpty(hash) && AllHash(hash, appends)
    ensures BareEvents(EventsOf(RunOf(hash, appends), envelope)) == Own(appends, envelope)
  {
    if appends == [] {
    } else {
      var n := |appends| - 1;
      AllHashPrefix(hash, appends);
      RunKeepsEveryEvent(hash, appends[..n], envelope);
      RunIsIntact(hash, appends[..n]);
      var before, last := RunOf(hash, appends[..n]), appends[n];
      var prior := EventsOf(before, last.e.envelope);
      assert Intact(hash, prior);
      if prior != [] { assert GoodAt(hash, prior, |prior| - 1); }
      if last.stored && last.e.envelope == envelope {
        var linked := last.e.(prevEventHash := LatestEventHash(hash, prior).value);
        assert EventsOf(RunOf(hash, appends), envelope) == prior + [linked];
        assert BareEvents(prior + [linked]) == BareEvents(prior) + [Bare(last.e)];
      }
    }
  }

  class AuditStore {
    const hash: Hash
    var events: Store

    constructor (hash: Hash)
      ensures this.hash == hash && events == map[]
    {
      this.hash, this.events := hash, map[];
    }

    method ListAuditEvents(envelope: string, listed: bool) returns (r: Option<seq<Event>>)
      ensures r == if listed then Some(EventsOf(events, envelope)) else None
    {
      return if listed then Some(EventsOf(events, envelope)) else None;
    }

    /** The result is the appended event's hash, empty if it does not hash, or None on failure. */
    method AppendChainedAuditEvent(e: Event, listed: bool, stored: bool) returns (r: Option<string>)
      modifies this
      ensures events == Appended(hash, old(events), e, listed, stored)
      ensures var chain := if listed then EventsOf(old(events), e.envelope) else [];
        r.Some? <==> stored && (chain == [] || hash(chain[|chain| - 1]).Some?)
      ensures r.None? ==> events == old(events)
      ensures r.Some? ==>
        var earlier, now := EventsOf(old(events), e.envelope), EventsOf(events, e.envelope);
        && |now| == |earlier| + 1 && now[..|earlier|] == earlier
        && now[|earlier|].(prevEventHash := "") == e.(prevEventHash := "")
        && (now[|earlier|].prevEventHash ==
             if listed && earlier != [] then hash(earlier[|earlier| - 1]).GetOr("") else "")
        && forall other | other != e.envelope :: EventsOf(events, other) == EventsOf(old(events), other)
      ensures r.Some? ==>
        EventsOf(events, e.envelope) != [] && r.value == LatestEventHash(hash, EventsOf(events, e.envelope)).GetOr("")
    {
      var prior := ListAuditEvents(e.envelope, listed);
      var chain := if prior.Some? then prior.value else [];
      var prev := LatestEventHash(hash, chain);
      if prev.None? { return None; }
      var linked := e.(prevEventHash := prev.value);
      if !stored { return None; }
      events := events[e.envelope := EventsOf(events, e.envelope) + [linked]];
      var h := hash(linked);
      return Some(h.GetOr(""));
    }
  }
}
