/** backend/billing/enforce.go: the storage quota's process-wide ledger and its reservations. Amounts are int64 with
    Go's wrap-around. Configure, called once at start-up, is the constructor. */
module Quota {
  import opened Common

  datatype Entitlement = Entitlement(suspended: bool, maxStorageBytes: int)

  datatype Decision = Allow | AccountSuspended | QuotaExceeded

  datatype Fate = Open | Kept | Dropped

  /** A reservation: active when bytes were really held against a cap. */
  datatype Ticket = Ticket(account: string, bytes: int, active: bool, fate: Fate)

  type Amounts = map<string, int>

  /** `tickets`, `metered` and `reports` are the history: every reservation ever returned, every ungated write
      metered, and every usage event reported. */
  datatype State = State(
    committed: Amounts, reserved: Amounts, tickets: seq<Ticket>, metered: seq<(string, int)>,
    reports: seq<(string, int)>)

  const EMPTY := State(map[], map[], [], [], [])

  // ---------- the operations ----------

  function Get(m: Amounts, a: string): int {
    if a in m then m[a] else 0
  }

  function Add(m: Amounts, a: string, n: int): Amounts {
    m[a := Wrap64(Get(m, a) + n)]
  }

  /** A balance that reaches zero is removed. */
  function Take(m: Amounts, a: string, n: int): Amounts {
    var left := Wrap64(Get(m, a) - n);
    if left <= 0 then m - {a} else m[a := left]
  }

  function Decide(s: State, a: string, n: int, ent: Entitlement): Decision {
    if ent.suspended then AccountSuspended
    else if ent.maxStorageBytes <= 0 || n <= 0 then Allow
    else if Wrap64(Wrap64(Get(s.committed, a) + Get(s.reserved, a)) + n) > ent.maxStorageBytes then QuotaExceeded
    else Allow
  }

  /** The reservation that goes with a decision; a refused one is blank. */
  function Reservation(s: State, a: string, n: int, ent: Entitlement): Ticket {
    if Decide(s, a, n, ent) != Allow then Ticket("", 0, false, Open)
    else if ent.maxStorageBytes <= 0 then Ticket(a, n, false, Open)
    else if n <= 0 then Ticket(a, 0, false, Open)
    else Ticket(a, n, true, Open)
  }

  function Gate(s: State, a: string, n: int, ent: Entitlement): State {
    var t := Reservation(s, a, n, ent);
    State(s.committed, if t.active then Add(s.reserved, a, n) else s.reserved, s.tickets + [t], s.metered, s.reports)
  }

  function Commit(s: State, i: nat): State
    requires i < |s.tickets|
  {
    var t := s.tickets[i];
    if t.fate != Open then s
    else State(
      if t.active then Add(s.committed, t.account, t.bytes) else s.committed,
      if t.active then Take(s.reserved, t.account, t.bytes) else s.reserved,
      s.tickets[i := t.(fate := Kept)],
      s.metered,
      if t.bytes > 0 then s.reports + [(t.account, t.bytes)] else s.reports)
  }

  function Release(s: State, i: nat): State
    requires i < |s.tickets|
  {
    var t := s.tickets[i];
    if t.fate != Open then s
    else State(
      s.committed,
      if t.active then Take(s.reserved, t.account, t.bytes) else s.reserved,
      s.tickets[i := t.(fate := Dropped)],
      s.metered,
      s.reports)
  }

  function Meter(s: State, a: string, n: int): State {
    if n <= 0 then s
    else State(Add(s.committed, a, n), s.reserved, s.tickets, s.metered + [(a, n)], s.reports + [(a, n)])
  }

  // ---------- what the history amounts to ----------

  datatype Tally = Held | Settled | Reported

  /** A ticket's weight in one of the sums kept about an account. */
  function Weight(t: Ticket, a: string, which: Tally): int {
    if t.account != a then 0
    else
      match which
      case Held => if t.active && t.fate == Open then t.bytes else 0
      case Settled => if t.active && t.fate == Kept then t.bytes else 0
      case Reported => if t.bytes > 0 && t.fate == Kept then t.bytes else 0
  }

  function Sum(tickets: seq<Ticket>, a: string, which: Tally): int {
    if tickets == [] then 0
    else Sum(tickets[..|tickets| - 1], a, which) + Weight(tickets[|tickets| - 1], a, which)
  }

  function Total(entries: seq<(string, int)>, a: string): int {
    if entries == [] then 0
    else
      var last := entries[|entries| - 1];
      Total(entries[..|entries| - 1], a) + if last.0 == a then last.1 else 0
  }

  /** The ledger is the sums of its history: bytes reserved are those of the open active reservations, bytes committed
      those of the committed ones and of metered writes, and what was reported is what was committed, cap or no cap. */
  ghost predicate Balanced(s: State) {
    && (forall t | t in s.tickets && t.active :: t.bytes > 0)
    && (forall a | a in s.reserved :: s.reserved[a] > 0)
    && (forall a :: BalancedFor(s, a))
  }

  ghost predicate BalancedFor(s: State, a: string) {
    && Get(s.reserved, a) == Sum(s.tickets, a, Held)
    && Get(s.committed, a) == Sum(s.tickets, a, Settled) + Total(s.metered, a)
    && Total(s.reports, a) == Sum(s.tickets, a, Reported) + Total(s.metered, a)
    && 0 <= Get(s.committed, a) && Get(s.committed, a) + Get(s.reserved, a) <= MAX_INT64
  }

  datatype Event =
    | Gated(a: string, n: int, ent: Entitlement)
    | Committed(i: nat)
    | Released(i: nat)
    | Metered(a: string, n: int)

  function Step(s: State, e: Event): State {
    match e
    case Gated(a, n, ent) => Gate(s, a, n, ent)
    case Committed(i) => if i < |s.tickets| then Commit(s, i) else s
    case Released(i) => if i < |s.tickets| then Release(s, i) else s
    case Metered(a, n) => Meter(s, a, n)
  }

  function Run(s: State, events: seq<Event>): State {
    if events == [] then s else Step(Run(s, events[..|events| - 1]), events[|events| - 1])
  }

  /** The account's total after this write is still an int64. */
  predicate Fits(s: State, e: Event) {
    match e
    case Gated(a, n, ent) => n <= 0 || Get(s.committed, a) + Get(s.reserved, a) + n <= MAX_INT64
    case Metered(a, n) => n <= 0 || Get(s.committed, a) + Get(s.reserved, a) + n <= MAX_INT64
    case Committed(_) => true
    case Released(_) => true
  }

  ghost predicate AllFit(s: State, events: seq<Event>) {
    forall k | 0 <= k < |events| :: Fits(Run(s, events[..k]), events[k])
  }

  /** Settling ticket i as t moves each sum by the difference of the two weights. */
  ghost predicate SumMoves(tickets: seq<Ticket>, i: nat, t: Ticket, b: string, which: Tally)
    requires i < |tickets|
  {
    Sum(tickets[i := t], b, which) == Sum(tickets, b, which) - Weight(tickets[i], b, which) + Weight(t, b, which)
  }

  lemma {:induction false} SumUpdate(tickets: seq<Ticket>, i: nat, t: Ticket, a: string, which: Tally)
    requires i < |tickets|
    ensures SumMoves(tickets, i, t, a, which)
  {
    var n := |tickets| - 1;
    if i == n {
      assert tickets[i := t][..n] == tickets[..n];
    } else {
      SumUpdate(tickets[..n], i, t, a, which);
      assert tickets[i := t][..n] == tickets[..n][i := t];
    }
  }

  lemma SumAppend(tickets: seq<Ticket>, t: Ticket, a: string, which: Tally)
    ensures Sum(tickets + [t], a, which) == Sum(tickets, a, which) + Weight(t, a, which)
  {
    assert (tickets + [t])[..|tickets|] == tickets;
  }

  lemma TotalAppend(entries: seq<(string, int)>, e: (string, int), a: string)
    ensures Total(entries + [e], a) == Total(entries, a) + if e.0 == a then e.1 else 0
  {
    assert (entries + [e])[..|entries|] == entries;
  }

  /** An open active reservation is part of what is reserved. */
  lemma {:induction false} HeldCovers(tickets: seq<Ticket>, i: nat, a: string)
    requires i < |tickets| && forall t | t in tickets && t.active :: t.bytes > 0
    ensures 0 <= Weight(tickets[i], a, Held) <= Sum(tickets, a, Held)
  {
    var n := |tickets| - 1;
    assert tickets[i] in tickets && tickets[n] in tickets;
    if i < n {
      HeldCovers(tickets[..n], i, a);
    } else if n > 0 {
      HeldCovers(tickets[..n], 0, a);
    }
  }

  lemma AddExact(m: Amounts, a: string, n: int, b: string)
    requires IsInt64(Get(m, a) + n)
    ensures Get(Add(m, a, n), b) == Get(m, b) + if a == b then n else 0
  {
  }

  lemma TakeExact(m: Amounts, a: string, n: int, b: string)
    requires 0 < n <= Get(m, a) <= MAX_INT64
    ensures Get(Take(m, a, n), b) == Get(m, b) - if a == b then n else 0
  {
  }

  lemma GateFor(s: State, a: string, n: int, ent: Entitlement, b: string)
    requires BalancedFor(s, a) && BalancedFor(s, b) && Get(s.reserved, a) >= 0 && Fits(s, Gated(a, n, ent))
    ensures BalancedFor(Gate(s, a, n, ent), b)
  {
    var t := Reservation(s, a, n, ent);
    OpenSums(s.tickets, t, b);
    if t.active {
      AddExact(s.reserved, a, n, b);
    }
  }

  /** A new reservation counts among what is held, if it is active, and nowhere else. */
  lemma OpenSums(tickets: seq<Ticket>, t: Ticket, b: string)
    requires t.fate == Open
    ensures Sum(tickets + [t], b, Held) ==
      Sum(tickets, b, Held) + if t.active && t.account == b then t.bytes else 0
    ensures Sum(tickets + [t], b, Settled) == Sum(tickets, b, Settled)
    ensures Sum(tickets + [t], b, Reported) == Sum(tickets, b, Reported)
  {
    SumAppend(tickets, t, b, Held);
    SumAppend(tickets, t, b, Settled);
    SumAppend(tickets, t, b, Reported);
  }

  lemma GateBalanced(s: State, a: string, n: int, ent: Entitlement)
    requires Balanced(s) && Fits(s, Gated(a, n, ent))
    ensures Balanced(Gate(s, a, n, ent))
  {
    var t := Reservation(s, a, n, ent);
    HeldNonNegative(s, a);
    assert BalancedFor(s, a);
    if t.active {
      AddExact(s.reserved, a, n, a);
    }
    forall b ensures BalancedFor(Gate(s, a, n, ent), b) {
      assert BalancedFor(s, b);
      GateFor(s, a, n, ent, b);
    }
  }

  /** What settling ticket i does to the three sums about account b. */
  lemma SettledSums(s: State, i: nat, fate: Fate, b: string)
    requires i < |s.tickets| && s.tickets[i].fate == Open && fate != Open
    ensures var t := s.tickets[i]; var n := if t.account == b then t.bytes else 0;
      var settled := s.tickets[i := t.(fate := fate)];
      && Sum(settled, b, Held) == Sum(s.tickets, b, Held) - (if t.active then n else 0)
      && Sum(settled, b, Settled) == Sum(s.tickets, b, Settled) + (if t.active && fate == Kept then n else 0)
      && Sum(settled, b, Reported) == Sum(s.tickets, b, Reported) + (if t.bytes > 0 && fate == Kept then n else 0)
  {
    var t := s.tickets[i].(fate := fate);
    SumUpdate(s.tickets, i, t, b, Held);
    SumUpdate(s.tickets, i, t, b, Settled);
    SumUpdate(s.tickets, i, t, b, Reported);
  }

  lemma SettledAmounts(s: State, i: nat, b: string)
    requires Balanced(s) && i < |s.tickets| && s.tickets[i].fate == Open && s.tickets[i].active
    ensures var t := s.tickets[i]; var n := if t.account == b then t.bytes else 0;
      && Get(Take(s.reserved, t.account, t.bytes), b) == Get(s.reserved, b) - n
      && Get(Add(s.committed, t.account, t.bytes), b) == Get(s.committed, b) + n
  {
    var t := s.tickets[i];
    HeldCovers(s.tickets, i, t.account);
    assert BalancedFor(s, t.account);
    TakeExact(s.reserved, t.account, t.bytes, b);
    AddExact(s.committed, t.account, t.bytes, b);
  }

  lemma CommitFor(s: State, i: nat, b: string)
    requires Balanced(s) && i < |s.tickets| && s.tickets[i].fate == Open
    ensures BalancedFor(Commit(s, i), b)
  {
    var t := s.tickets[i];
    assert BalancedFor(s, b);
    SettledSums(s, i, Kept, b);
    TotalAppend(s.reports, (t.account, t.bytes), b);
    if t.active { SettledAmounts(s, i, b); }
  }

  lemma CommitBalanced(s: State, i: nat)
    requires Balanced(s) && i < |s.tickets|
    ensures Balanced(Commit(s, i))
  {
    if s.tickets[i].fate == Open {
      forall b ensures BalancedFor(Commit(s, i), b) {
        CommitFor(s, i, b);
      }
    }
  }

  lemma ReleaseBalanced(s: State, i: nat)
    requires Balanced(s) && i < |s.tickets|
    ensures Balanced(Release(s, i))
  {
    var t := s.tickets[i];
    if t.fate == Open {
      forall b ensures BalancedFor(Release(s, i), b) {
        assert BalancedFor(s, b);
        SettledSums(s, i, Dropped, b);
        if t.active { SettledAmounts(s, i, b); }
      }
    }
  }

  lemma MeterFor(s: State, a: string, n: int, b: string)
    requires Balanced(s) && Fits(s, Metered(a, n)) && n > 0
    ensures BalancedFor(Meter(s, a, n), b)
  {
    assert BalancedFor(s, a) && BalancedFor(s, b);
    HeldNonNegative(s, a);
    AddExact(s.committed, a, n, b);
    TotalAppend(s.metered, (a, n), b);
    TotalAppend(s.reports, (a, n), b);
  }

  lemma MeterBalanced(s: State, a: string, n: int)
    requires Balanced(s) && Fits(s, Metered(a, n))
    ensures Balanced(Meter(s, a, n))
  {
    if n > 0 {
      forall b ensures BalancedFor(Meter(s, a, n), b) {
        MeterFor(s, a, n, b);
      }
    }
  }

  lemma HeldNonNegative(s: State, a: string)
    requires Balanced(s)
    ensures Get(s.reserved, a) >= 0
  {
  }

  lemma StepBalanced(s: State, e: Event)
    requires Balanced(s) && Fits(s, e)
    ensures Balanced(Step(s, e))
  {
    match e
    case Gated(a, n, ent) => GateBalanced(s, a, n, ent);
    case Committed(i) => if i < |s.tickets| { CommitBalanced(s, i); }
    case Released(i) => if i < |s.tickets| { ReleaseBalanced(s, i); }
    case Metered(a, n) => MeterBalanced(s, a, n);
  }

  /** Conservation: in every interleaving of gates, commits, releases and metered writes. */
  lemma {:induction false} RunBalanced(events: seq<Event>)
    requires AllFit(EMPTY, events)
    ensures Balanced(Run(EMPTY, events))
  {
    if events == [] {
    } else {
      var n := |events| - 1;
      forall k | 0 <= k < n ensures Fits(Run(EMPTY, events[..n][..k]), events[..n][k]) {
        assert events[..n][..k] == events[..k];
      }
      RunBalanced(events[..n]);
      StepBalanced(Run(EMPTY, events[..n]), events[n]);
    }
  }

  /** A reservation takes effect once, however often and in whatever order it is committed and released. */
  lemma FirstCallSettles(s: State, i: nat)
    requires i < |s.tickets|
    ensures Commit(Commit(s, i), i) == Commit(s, i) && Release(Commit(s, i), i) == Commit(s, i)
    ensures Commit(Release(s, i), i) == Release(s, i) && Release(Release(s, i), i) == Release(s, i)
  {
  }

  // ---------- what a gate holds, and its commit reports ----------

  /** After the gate nothing is held for it, and committing its reservation moves nothing either and reports just
      these. */
  ghost predicate HoldsNothing(s: State, t: State, reported: seq<(string, int)>) {
    var i := |s.tickets|;
    && |t.tickets| == i + 1 && t.tickets[..i] == s.tickets
    && t.reserved == s.reserved && t.committed == s.committed && t.reports == s.reports
    && Commit(t, i).reserved == s.reserved && Commit(t, i).committed == s.committed
    && Commit(t, i).reports == s.reports + reported
  }

  /** A suspended account's write is neither held nor ever reported. */
  lemma SuspendedHoldsNothing(s: State, a: string, n: int, ent: Entitlement)
    requires ent.suspended
    ensures HoldsNothing(s, Gate(s, a, n, ent), [])
  {
    assert s.reports + [] == s.reports;
  }

  /** Without a cap nothing is held, and the commit reports exactly the bytes written. */
  lemma UncappedReportsAll(s: State, a: string, n: int, ent: Entitlement)
    requires !ent.suspended && ent.maxStorageBytes <= 0
    ensures HoldsNothing(s, Gate(s, a, n, ent), if n > 0 then [(a, n)] else [])
  {
    assert s.reports + [] == s.reports;
  }

  /** Under a cap, an amount that is not positive holds and reports nothing. */
  lemma NothingToHold(s: State, a: string, n: int, ent: Entitlement)
    requires !ent.suspended && n <= 0 && ent.maxStorageBytes > 0
    ensures HoldsNothing(s, Gate(s, a, n, ent), [])
  {
    assert s.reports + [] == s.reports;
  }

  /** Under a cap, a write that fits is held in full, and its commit turns just that into committed bytes and reports
      it; one that does not fit holds and reports nothing. */
  lemma CappedHoldsWhatFits(s: State, a: string, n: int, ent: Entitlement)
    requires Balanced(s) && !ent.suspended && n > 0 && ent.maxStorageBytes > 0
    requires Get(s.committed, a) + Get(s.reserved, a) + n <= MAX_INT64
    ensures var t := Gate(s, a, n, ent); var i := |s.tickets|;
      if Get(s.committed, a) + Get(s.reserved, a) + n > ent.maxStorageBytes then HoldsNothing(s, t, [])
      else
        && |t.tickets| == i + 1 && t.tickets[..i] == s.tickets && t.committed == s.committed && t.reports == s.reports
        && (forall b :: Get(t.reserved, b) == Get(s.reserved, b) + if b == a then n else 0)
        && (forall b :: Get(Commit(t, i).reserved, b) == Get(s.reserved, b))
        && (forall b :: Get(Commit(t, i).committed, b) == Get(s.committed, b) + if b == a then n else 0)
        && Commit(t, i).reports == s.reports + [(a, n)]
  {
    assert BalancedFor(s, a);
    HeldNonNegative(s, a);
    assert s.reports + [] == s.reports;
  }

  // ---------- the cap ----------

  /** The gate answers by the exact sum if and only if the sum is an int64: past that it wraps to a negative number,
      which no cap refuses. */
  lemma GateExactUnlessWrapped(s: State, a: string, n: int, cap: int)
    requires Balanced(s) && 0 < n <= MAX_INT64 && 0 < cap <= MAX_INT64
    ensures var sum := Get(s.committed, a) + Get(s.reserved, a) + n;
      (Decide(s, a, n, Entitlement(false, cap)) == Allow <==> sum <= cap) <==> sum <= MAX_INT64
  {
    assert BalancedFor(s, a);
    var used := Get(s.committed, a) + Get(s.reserved, a);
    assert used >= 0;
    var sum := used + n;
    if sum > MAX_INT64 {
      WrapsNegative(sum);
    }
  }

  lemma WrapsNegative(v: int)
    requires MAX_INT64 < v <= 2 * MAX_INT64
    ensures Wrap64(v) == v - TWO_64 < 0
  {
    assert (v - MIN_INT64) % TWO_64 == v - MIN_INT64 - TWO_64;
  }

  lemma WrapExample()
    ensures var s := Run(EMPTY, [Metered("a", 1)]);
      Get(s.committed, "a") == 1 && Decide(s, "a", MAX_INT64, Entitlement(false, 100)) == Allow
  {
    var events := [Metered("a", 1)];
    assert events[..0] == [];
    var s := Run(EMPTY, events);
    assert s == Meter(EMPTY, "a", 1);
    WrapsNegative(MAX_INT64 + 1);
  }

  /** No metered write goes to the account, and every gate for it sees this cap. */
  predicate UnderCap(e: Event, a: string, cap: int) {
    match e
    case Gated(b, _, ent) => b == a ==> ent.maxStorageBytes == cap
    case Metered(b, _) => b != a
    case Committed(_) => true
    case Released(_) => true
  }

  /** Settling a reservation never raises an account's total. */
  lemma SettlingWithinCap(s: State, i: nat, a: string)
    requires Balanced(s) && i < |s.tickets|
    ensures Get(Commit(s, i).committed, a) + Get(Commit(s, i).reserved, a) <= Get(s.committed, a) + Get(s.reserved, a)
    ensures Get(Release(s, i).committed, a) + Get(Release(s, i).reserved, a) <= Get(s.committed, a) + Get(s.reserved, a)
  {
    if s.tickets[i].fate == Open && s.tickets[i].active {
      SettledAmounts(s, i, a);
    }
  }

  lemma StepWithinCap(s: State, e: Event, a: string, cap: int)
    requires Balanced(s) && Fits(s, e) && UnderCap(e, a, cap) && 0 < cap <= MAX_INT64
    requires Get(s.committed, a) + Get(s.reserved, a) <= cap
    ensures Get(Step(s, e).committed, a) + Get(Step(s, e).reserved, a) <= cap
  {
    assert BalancedFor(s, a);
    match e
    case Gated(b, n, ent) => assert BalancedFor(s, b);
    case Committed(i) => if i < |s.tickets| { SettlingWithinCap(s, i, a); }
    case Released(i) => if i < |s.tickets| { SettlingWithinCap(s, i, a); }
    case Metered(b, n) =>
  }

  /** Under one positive cap and without metered writes, an account's committed and reserved bytes together never
      exceed the cap, whatever happens in between and on other accounts. */
  lemma {:induction false} RunWithinCap(events: seq<Event>, a: string, cap: int)
    requires AllFit(EMPTY, events) && 0 < cap <= MAX_INT64
    requires forall e | e in events :: UnderCap(e, a, cap)
    ensures var s := Run(EMPTY, events); Get(s.committed, a) + Get(s.reserved, a) <= cap
  {
    if events == [] {
    } else {
      var n := |events| - 1;
      forall k | 0 <= k < n ensures Fits(Run(EMPTY, events[..n][..k]), events[..n][k]) {
        assert events[..n][..k] == events[..k];
      }
      RunWithinCap(events[..n], a, cap);
      RunBalanced(events[..n]);
      assert events[n] in events;
      StepWithinCap(Run(EMPTY, events[..n]), events[n], a, cap);
    }
  }

  // ---------- the ledger ----------

  class StorageReservation {
    const account: string
    const bytes: int
    const active: bool
    var done: bool
    ghost var kept: bool

    constructor (account: string, bytes: int, active: bool)
      ensures Value() == Ticket(account, bytes, active, Open)
    {
      this.account, this.bytes, this.active := account, bytes, active;
      done, kept := false, false;
    }

    ghost function Value(): Ticket
      reads this
    {
      Ticket(account, bytes, active, if !done then Open else if kept then Kept else Dropped)
    }
  }

  class Ledger {
    var committed: Amounts
    var reserved: Amounts
    var reports: seq<(string, int)>
    ghost var issued: seq<StorageReservation>
    ghost var metered: seq<(string, int)>

    constructor ()
      ensures Valid() && St() == EMPTY
    {
      committed, reserved, reports := map[], map[], [];
      issued, metered := [], [];
    }

    ghost predicate Valid()
      reads this
    {
      forall i, j | 0 <= i < j < |issued| :: issued[i] != issued[j]
    }

    ghost function Tickets(): seq<Ticket>
      reads this, issued
    {
      seq(|issued|, i requires 0 <= i < |issued| reads this, issued => issued[i].Value())
    }

    ghost function St(): State
      reads this, issued
    {
      State(committed, reserved, Tickets(), metered, reports)
    }

    method GateStorage(a: string, n: int, ent: Entitlement) returns (d: Decision, r: StorageReservation)
      requires Valid()
      modifies this
      ensures Valid() && fresh(r) && issued == old(issued) + [r]
      ensures d == Decide(old(St()), a, n, ent)
      ensures St() == Gate(old(St()), a, n, ent)
      ensures d == AccountSuspended <==> ent.suspended
      ensures !ent.suspended && (ent.maxStorageBytes <= 0 || n <= 0) ==> d == Allow
      ensures !ent.suspended && ent.maxStorageBytes > 0 && n > 0 ==>
        var used := Get(old(committed), a) + Get(old(reserved), a);
        IsInt64(used) && IsInt64(used + n) ==> (d == QuotaExceeded <==> used + n > ent.maxStorageBytes)
    {
      ghost var before := St();
      if ent.suspended {
        d := AccountSuspended;
        r := new StorageReservation("", 0, false);
      } else if ent.maxStorageBytes <= 0 {
        d := Allow;
        r := new StorageReservation(a, n, false);
      } else if n <= 0 {
        d := Allow;
        r := new StorageReservation(a, 0, false);
      } else {
        var used := Wrap64(Get(committed, a) + Get(reserved, a));
        if Wrap64(used + n) > ent.maxStorageBytes {
          d := QuotaExceeded;
          r := new StorageReservation("", 0, false);
        } else {
          reserved := reserved[a := Wrap64(Get(reserved, a) + n)];
          d := Allow;
          r := new StorageReservation(a, n, true);
        }
      }
      issued := issued + [r];
      assert Tickets() == before.tickets + [r.Value()];
    }

    method TakeReserved(a: string, n: int)
      modifies this`reserved
      ensures reserved == Take(old(reserved), a, n)
    {
      reserved := reserved[a := Wrap64(Get(reserved, a) - n)];
      if reserved[a] <= 0 {
        reserved := reserved - {a};
      }
    }

    method CommitReservation(r: StorageReservation, ghost i: nat)
      requires Valid() && i < |issued| && issued[i] == r
      modifies this, r
      ensures Valid() && issued == old(issued)
      ensures St() == Commit(old(St()), i)
    {
      if r.done { return; }
      ghost var before := St();
      r.done := true;
      r.kept := true;
      if r.active {
        TakeReserved(r.account, r.bytes);
        committed := committed[r.account := Wrap64(Get(committed, r.account) + r.bytes)];
      }
      if r.bytes > 0 {
        reports := reports + [(r.account, r.bytes)];
      }
      assert Tickets() == before.tickets[i := before.tickets[i].(fate := Kept)];
    }

    method ReleaseReservation(r: StorageReservation, ghost i: nat)
      requires Valid() && i < |issued| && issued[i] == r
      modifies this, r
      ensures Valid() && issued == old(issued)
      ensures St() == Release(old(St()), i)
    {
      if r.done { return; }
      ghost var before := St();
      r.done := true;
      if r.active {
        TakeReserved(r.account, r.bytes);
      }
      r.kept := false;
      assert Tickets() == before.tickets[i := before.tickets[i].(fate := Dropped)];
    }

    method MeterStorage(a: string, n: int)
      requires Valid()
      modifies this
      ensures Valid() && issued == old(issued)
      ensures St() == Meter(old(St()), a, n)
    {
      if n <= 0 { return; }
      committed := committed[a := Wrap64(Get(committed, a) + n)];
      metered := metered + [(a, n)];
      reports := reports + [(a, n)];
    }
  }
}
