/**
 The lease on one account's Telegram session: an expiring, generation-numbered row that fences every write
 made under it, and the login flow that drains the lease before it swaps the session directory.

 One SQL statement, or one transaction, is one atomic step at the database's clock.
 */
module SessionLease {
  import opened Common

  /** What a worker keeps after acquiring. */
  datatype Lease = Lease(worker: string, token: nat, generation: nat)

  datatype Holder = Holder(worker: string, token: nat, expires: int)
  datatype Row = Row(online: bool, generation: nat, holder: Option<Holder>)

  predicate Owns(row: Row, lease: Lease) {
    && row.holder.Some? && row.generation == lease.generation
    && row.holder.value.worker == lease.worker && row.holder.value.token == lease.token
  }

  predicate Live(row: Row, now: int) {
    row.holder.Some? && row.holder.value.expires > now
  }

  predicate CanAcquire(row: Row, now: int) {
    row.online && !Live(row, now)
  }

  function AfterAcquire(row: Row, worker: string, token: nat, now: int, ttl: int): Row {
    if CanAcquire(row, now)
    then row.(generation := row.generation + 1, holder := Some(Holder(worker, token, now + ttl))) else row
  }

  function AfterRenew(row: Row, lease: Lease, now: int, ttl: int): Row {
    if Owns(row, lease) && Live(row, now)
    then row.(holder := Some(row.holder.value.(expires := now + ttl))) else row
  }

  function AfterRelease(row: Row, lease: Lease): Row {
    if Owns(row, lease) then row.(holder := None) else row
  }

  // ---------------------------------------------------------------- the rows, updated in place

  /** The session runtime row of one account. */
  class SessionRuntime {
    var online: bool
    var generation: nat
    var workerId: Option<string>
    var leaseToken: Option<nat>
    var leaseExpiresAt: Option<int>
    var journal: seq<nat>

    /** The table's check constraint: the three lease columns are null together. */
    ghost predicate Valid()
      reads this
    {
      workerId.Some? == leaseToken.Some? == leaseExpiresAt.Some?
    }

    ghost function Model(): Row
      reads this
      requires Valid()
    {
      Row(online, generation,
          if workerId.None? then None else Some(Holder(workerId.value, leaseToken.value, leaseExpiresAt.value)))
    }

    method Acquire(worker: string, token: nat, now: int, ttl: int) returns (lease: Option<Lease>)
      requires Valid()
      modifies this`generation, this`workerId, this`leaseToken, this`leaseExpiresAt
      ensures Valid() && Model() == AfterAcquire(old(Model()), worker, token, now, ttl)
      ensures lease.Some? <==> CanAcquire(old(Model()), now)
      ensures lease.Some? ==> Owns(Model(), lease.value)
    {
      if !(online && (leaseExpiresAt.None? || leaseExpiresAt.value <= now)) {
        return None;
      }
      workerId, leaseToken, leaseExpiresAt := Some(worker), Some(token), Some(now + ttl);
      generation := generation + 1;
      return Some(Lease(worker, token, generation));
    }

    method Renew(lease: Lease, now: int, ttl: int) returns (ok: bool)
      requires Valid()
      modifies this`leaseExpiresAt
      ensures Valid() && Model() == AfterRenew(old(Model()), lease, now, ttl)
      ensures ok <==> Owns(old(Model()), lease) && Live(old(Model()), now)
    {
      if workerId == Some(lease.worker) && leaseToken == Some(lease.token) && generation == lease.generation
         && leaseExpiresAt.Some? && leaseExpiresAt.value > now {
        leaseExpiresAt := Some(now + ttl);
        return true;
      }
      return false;
    }

    method Release(lease: Lease) returns (ok: bool)
      requires Valid()
      modifies this`workerId, this`leaseToken, this`leaseExpiresAt
      ensures Valid() && Model() == AfterRelease(old(Model()), lease)
      ensures ok <==> Owns(old(Model()), lease)
    {
      if workerId == Some(lease.worker) && leaseToken == Some(lease.token) && generation == lease.generation {
        workerId, leaseToken, leaseExpiresAt := None, None, None;
        return true;
      }
      return false;
    }

    /** The journal insert selects from the runtime row, so it inserts nothing once the lease is gone. */
    method Persist(lease: Lease, now: int) returns (ok: bool)
      requires Valid()
      modifies this`journal
      ensures ok <==> Owns(Model(), lease) && Live(Model(), now)
      ensures journal == if ok then old(journal) + [lease.generation] else old(journal)
    {
      if workerId == Some(lease.worker) && leaseToken == Some(lease.token) && generation == lease.generation
         && leaseExpiresAt.Some? && leaseExpiresAt.value > now {
        journal := journal + [lease.generation];
        return true;
      }
      return false;
    }
  }

  // ---------------------------------------------------------------- spans

  /** When a generation's lease was good: from its acquisition to its last expiry, or to its release. */
  datatype Span = Span(from: int, until: int)
  datatype Entry = Entry(generation: nat, at: int)

  function LastUntil(spans: seq<Span>, until: int): seq<Span> {
    if spans == [] then [] else spans[|spans| - 1 := spans[|spans| - 1].(until := until)]
  }

  function SpansAfterAcquire(spans: seq<Span>, row: Row, now: int, ttl: int): seq<Span> {
    if CanAcquire(row, now) then spans + [Span(now, now + ttl)] else spans
  }

  function SpansAfterRenew(spans: seq<Span>, row: Row, lease: Lease, now: int, ttl: int): seq<Span> {
    if Owns(row, lease) && Live(row, now) then LastUntil(spans, now + ttl) else spans
  }

  function SpansAfterRelease(spans: seq<Span>, row: Row, lease: Lease, now: int): seq<Span> {
    if Owns(row, lease) && spans != [] then LastUntil(spans, Min(spans[|spans| - 1].until, now)) else spans
  }

  /** One span a generation, none overlapping the next, the last one as long as the row's lease. */
  ghost predicate SpansFit(spans: seq<Span>, row: Row, now: int) {
    && |spans| == row.generation
    && (forall i :: 0 <= i < |spans| ==> spans[i].from <= spans[i].until && spans[i].from <= now)
    && (forall i, j :: 0 <= i < j < |spans| ==> spans[i].until <= spans[j].from)
    && (row.holder.Some? ==> spans != [] && spans[|spans| - 1].until == row.holder.value.expires)
    && (row.holder.None? && spans != [] ==> spans[|spans| - 1].until <= now)
  }

  lemma AcquireKeepsSpans(spans: seq<Span>, row: Row, now: int, worker: string, token: nat, ttl: int)
    requires SpansFit(spans, row, now) && ttl > 0
    ensures SpansFit(SpansAfterAcquire(spans, row, now, ttl), AfterAcquire(row, worker, token, now, ttl), now)
  {
  }

  lemma RenewKeepsSpans(spans: seq<Span>, row: Row, now: int, lease: Lease, ttl: int)
    requires SpansFit(spans, row, now) && ttl > 0
    ensures SpansFit(SpansAfterRenew(spans, row, lease, now, ttl), AfterRenew(row, lease, now, ttl), now)
  {
  }

  lemma ReleaseKeepsSpans(spans: seq<Span>, row: Row, now: int, lease: Lease)
    requires SpansFit(spans, row, now)
    ensures SpansFit(SpansAfterRelease(spans, row, lease, now), AfterRelease(row, lease), now)
  {
  }

  /** The entry was made inside its generation's span. */
  predicate InsideSpan(spans: seq<Span>, e: Entry, now: int) {
    && 1 <= e.generation <= |spans| && e.at <= now
    && spans[e.generation - 1].from <= e.at <= spans[e.generation - 1].until
  }

  ghost predicate JournalIn(journal: seq<Entry>, spans: seq<Span>, now: int) {
    && (forall i :: 0 <= i < |journal| ==> InsideSpan(spans, journal[i], now))
    && (forall i, j :: 0 <= i < j < |journal| ==> journal[i].generation <= journal[j].generation)
  }

  /** Moving the end of the last span, not before an entry of it, keeps every entry inside its span. */
  lemma MovedEndKeepsJournal(journal: seq<Entry>, spans: seq<Span>, now: int, until: int)
    requires JournalIn(journal, spans, now)
    requires spans != [] ==> until >= Min(spans[|spans| - 1].until, now)
    ensures JournalIn(journal, LastUntil(spans, until), now)
  {
    forall i | 0 <= i < |journal| ensures InsideSpan(LastUntil(spans, until), journal[i], now) {
      assert InsideSpan(spans, journal[i], now);
    }
  }

  lemma NewSpanKeepsJournal(journal: seq<Entry>, spans: seq<Span>, now: int, span: Span)
    requires JournalIn(journal, spans, now)
    ensures JournalIn(journal, spans + [span], now)
  {
    forall i | 0 <= i < |journal| ensures InsideSpan(spans + [span], journal[i], now) {
      assert InsideSpan(spans, journal[i], now);
    }
  }

  lemma NewEntryKeepsJournal(journal: seq<Entry>, spans: seq<Span>, now: int, e: Entry)
    requires JournalIn(journal, spans, now) && InsideSpan(spans, e, now) && e.generation == |spans|
    ensures JournalIn(journal + [e], spans, now)
  {
    var grown := journal + [e];
    forall i | 0 <= i < |grown| ensures InsideSpan(spans, grown[i], now) && grown[i].generation <= e.generation {
      assert i < |journal| ==> InsideSpan(spans, journal[i], now);
    }
  }

  lemma TimeKeepsJournal(journal: seq<Entry>, spans: seq<Span>, now: int, to: int)
    requires JournalIn(journal, spans, now) && now <= to
    ensures JournalIn(journal, spans, to)
  {
    forall i | 0 <= i < |journal| ensures InsideSpan(spans, journal[i], to) {
      assert InsideSpan(spans, journal[i], now);
    }
  }

  lemma ReleaseKeepsJournal(journal: seq<Entry>, spans: seq<Span>, row: Row, lease: Lease, now: int)
    requires JournalIn(journal, spans, now)
    ensures JournalIn(journal, SpansAfterRelease(spans, row, lease, now), now)
  {
    if spans != [] {
      MovedEndKeepsJournal(journal, spans, now, Min(spans[|spans| - 1].until, now));
    }
  }

  /** A write under a good lease goes to the end of the journal. */
  lemma FencedWriteKeepsJournal(journal: seq<Entry>, spans: seq<Span>, row: Row, lease: Lease, now: int)
    requires JournalIn(journal, spans, now) && SpansFit(spans, row, now) && Owns(row, lease) && Live(row, now)
    ensures JournalIn(journal + [Entry(lease.generation, now)], spans, now)
  {
    NewEntryKeepsJournal(journal, spans, now, Entry(lease.generation, now));
  }

  // ---------------------------------------------------------------- every run

  datatype Stage = Draining | SeenFree
  datatype Login = Login(storage: int, stage: Stage)

  /**
   `storages` lists the session directories the account has had, the current one last. `spans` and
   `bornWith` are kept per generation: its span, and how many directories there had been at its
   acquisition. `sessions` tells how many there had been when a generation's session was opened.
   */
  datatype State = State(
    now: int, row: Row, journal: seq<Entry>, storages: seq<int>, logins: map<nat, Login>,
    spans: seq<Span>, bornWith: seq<nat>, sessions: map<nat, nat>)

  datatype Event =
    | Tick(to: int)
    | Acquire(worker: string, token: nat, ttl: int)
    | Renew(lease: Lease, ttl: int)
    | Release(lease: Lease)
    | Persist(lease: Lease)
    | OpenSession(generation: nat)
    | BeginLogin(l: nat, storage: int)   // first transaction: desired state offline
    | SeeFree(l: nat)                    // one round of the wait loop
    | SwapIn(l: nat)                     // second transaction: new directory, desired state online
    | AbandonLogin(l: nat)

  /** `serial` says that one login is attached at a time, as the process-wide mutex has it. */
  ghost predicate Allowed(s: State, e: Event, serial: bool) {
    match e
    case Tick(to) => s.now <= to
    case Acquire(_, _, ttl) => ttl > 0
    case Renew(_, ttl) => ttl > 0
    case OpenSession(g) => 1 <= g <= s.row.generation && g !in s.sessions
    case BeginLogin(l, _) => l !in s.logins && (serial ==> s.logins == map[])
    case SeeFree(l) => l in s.logins && s.logins[l].stage == Draining
    case SwapIn(l) => l in s.logins && s.logins[l].stage == SeenFree
    case _ => true
  }

  ghost function Apply(s: State, e: Event): State
    requires Allowed(s, e, false)
  {
    match e
    case Tick(to) => s.(now := to)
    case Acquire(worker, token, ttl) =>
      s.(row := AfterAcquire(s.row, worker, token, s.now, ttl),
         spans := SpansAfterAcquire(s.spans, s.row, s.now, ttl),
         bornWith := if CanAcquire(s.row, s.now) then s.bornWith + [|s.storages|] else s.bornWith)
    case Renew(lease, ttl) =>
      s.(row := AfterRenew(s.row, lease, s.now, ttl), spans := SpansAfterRenew(s.spans, s.row, lease, s.now, ttl))
    case Release(lease) =>
      s.(row := AfterRelease(s.row, lease), spans := SpansAfterRelease(s.spans, s.row, lease, s.now))
    case Persist(lease) =>
      if Owns(s.row, lease) && Live(s.row, s.now)
      then s.(journal := s.journal + [Entry(lease.generation, s.now)]) else s
    case OpenSession(g) => s.(sessions := s.sessions[g := |s.storages|])
    case BeginLogin(l, storage) =>
      s.(row := s.row.(online := false), logins := s.logins[l := Login(storage, Draining)])
    case SeeFree(l) =>
      if s.row.holder.None? || s.row.holder.value.expires < s.now
      then s.(logins := s.logins[l := s.logins[l].(stage := SeenFree)]) else s
    case SwapIn(l) =>
      s.(storages := s.storages + [s.logins[l].storage], row := s.row.(online := true), logins := s.logins - {l})
    case AbandonLogin(l) => s.(logins := s.logins - {l})
  }

  ghost predicate Initial(s: State) {
    && s.row.generation == 0 && s.row.holder == None && s.journal == [] && |s.storages| == 1
    && s.logins == map[] && s.spans == [] && s.bornWith == [] && s.sessions == map[]
  }

  ghost predicate Run(states: seq<State>, events: seq<Event>, serial: bool) {
    && |states| == |events| + 1
    && Initial(states[0])
    && forall i :: 0 <= i < |events| ==>
         Allowed(states[i], events[i], serial) && states[i + 1] == Apply(states[i], events[i])
  }

  ghost predicate SpansOk(s: State) {
    SpansFit(s.spans, s.row, s.now) && |s.bornWith| == |s.spans|
  }

  ghost predicate JournalOk(s: State) {
    JournalIn(s.journal, s.spans, s.now)
  }

  ghost predicate DirectoriesOk(s: State) {
    && s.storages != []
    && (forall i :: 0 <= i < |s.bornWith| ==> 1 <= s.bornWith[i] <= |s.storages|)
    && (forall i, j :: 0 <= i < j < |s.bornWith| ==> s.bornWith[i] <= s.bornWith[j])
    && (forall g :: g in s.sessions ==> 1 <= g <= |s.bornWith| && s.bornWith[g - 1] <= s.sessions[g] <= |s.storages|)
  }

  /** While a login is under way the account is offline, and a lease it saw free is still free. */
  ghost predicate LoginsOk(s: State) {
    && (forall k, l :: k in s.logins && l in s.logins ==> k == l)
    && (forall l :: l in s.logins ==>
          !s.row.online && (s.logins[l].stage == SeenFree ==> !Live(s.row, s.now)))
    && (Live(s.row, s.now) ==> s.bornWith != [] && s.bornWith[|s.bornWith| - 1] == |s.storages|)
  }

  ghost predicate Inv(s: State, serial: bool) {
    SpansOk(s) && JournalOk(s) && DirectoriesOk(s) && (serial ==> LoginsOk(s))
  }

  lemma StepKeepsSpans(s: State, e: Event, serial: bool)
    requires SpansOk(s) && Allowed(s, e, serial)
    ensures SpansOk(Apply(s, e))
  {
    match e
    case Acquire(worker, token, ttl) => AcquireKeepsSpans(s.spans, s.row, s.now, worker, token, ttl);
    case Renew(lease, ttl) => RenewKeepsSpans(s.spans, s.row, s.now, lease, ttl);
    case Release(lease) => ReleaseKeepsSpans(s.spans, s.row, s.now, lease);
    case _ =>
  }

  lemma StepKeepsJournal(s: State, e: Event, serial: bool)
    requires SpansOk(s) && JournalOk(s) && Allowed(s, e, serial)
    ensures JournalOk(Apply(s, e))
  {
    match e
    case Tick(to) => TimeKeepsJournal(s.journal, s.spans, s.now, to);
    case Acquire(_, _, ttl) => NewSpanKeepsJournal(s.journal, s.spans, s.now, Span(s.now, s.now + ttl));
    case Renew(_, ttl) => MovedEndKeepsJournal(s.journal, s.spans, s.now, s.now + ttl);
    case Release(lease) => ReleaseKeepsJournal(s.journal, s.spans, s.row, lease, s.now);
    case Persist(lease) =>
      if Owns(s.row, lease) && Live(s.row, s.now) {
        FencedWriteKeepsJournal(s.journal, s.spans, s.row, lease, s.now);
      }
    case _ =>
  }

  lemma StepKeepsDirectories(s: State, e: Event, serial: bool)
    requires SpansOk(s) && DirectoriesOk(s) && Allowed(s, e, serial)
    ensures DirectoriesOk(Apply(s, e))
  {
  }

  lemma StepKeepsLogins(s: State, e: Event)
    requires SpansOk(s) && LoginsOk(s) && Allowed(s, e, true)
    ensures LoginsOk(Apply(s, e))
  {
  }

  lemma {:induction false} RunKeepsInv(states: seq<State>, events: seq<Event>, serial: bool, i: nat)
    requires Run(states, events, serial) && i < |states|
    ensures Inv(states[i], serial)
  {
    if i > 0 {
      var s, e := states[i - 1], events[i - 1];
      RunKeepsInv(states, events, serial, i - 1);
      StepKeepsSpans(s, e, serial);
      StepKeepsJournal(s, e, serial);
      StepKeepsDirectories(s, e, serial);
      if serial {
        StepKeepsLogins(s, e);
      }
    }
  }

  // ---------------------------------------------------------------- fencing

  /** Generations never decrease, and an acquisition that succeeds takes a new one. */
  lemma {:induction false} GenerationsIncrease(states: seq<State>, events: seq<Event>, serial: bool, i: nat, j: nat)
    requires Run(states, events, serial) && i <= j < |states|
    ensures states[i].row.generation <= states[j].row.generation
    ensures i < j && events[i].Acquire? && CanAcquire(states[i].row, states[i].now)
            ==> states[i].row.generation < states[j].row.generation
    decreases j - i
  {
    if i < j {
      GenerationsIncrease(states, events, serial, i, j - 1);
      assert Allowed(states[j - 1], events[j - 1], serial);
      if i == j - 1 {
        assert states[i + 1] == Apply(states[i], events[i]);
      }
    }
  }

  /** In no run do the spans of two generations overlap, whatever leases are presented. */
  lemma SpansNeverOverlap(states: seq<State>, events: seq<Event>, serial: bool, i: nat, g: nat, h: nat)
    requires Run(states, events, serial) && i < |states|
    requires 1 <= g < h <= states[i].row.generation
    ensures |states[i].spans| == states[i].row.generation
    ensures var a, b := states[i].spans[g - 1], states[i].spans[h - 1];
            a.from <= a.until <= b.from <= b.until
    ensures Live(states[i].row, states[i].now) ==> states[i].spans[g - 1].until <= states[i].now
  {
    RunKeepsInv(states, events, serial, i);
  }

  /** Once a later generation exists, renewing, releasing and persisting under an earlier lease do nothing. */
  lemma SupersededLeaseIsFenced(states: seq<State>, events: seq<Event>, serial: bool, i: nat, j: nat, lease: Lease, ttl: int)
    requires Run(states, events, serial) && i <= j < |events|
    requires lease.generation < states[i].row.generation
    requires events[j] == Renew(lease, ttl) || events[j] == Release(lease) || events[j] == Persist(lease)
    ensures states[j + 1] == states[j]
  {
    GenerationsIncrease(states, events, serial, i, j);
    assert Allowed(states[j], events[j], serial);
  }

  /** Journal entries stand in nondecreasing generation order, each made inside its generation's span. */
  lemma JournalInGenerationOrder(states: seq<State>, events: seq<Event>, serial: bool, i: nat, a: nat, b: nat)
    requires Run(states, events, serial) && i < |states| && a < b < |states[i].journal|
    ensures states[i].journal[a].generation <= states[i].journal[b].generation
    ensures var e := states[i].journal[a];
            && 1 <= e.generation <= |states[i].spans|
            && states[i].spans[e.generation - 1].from <= e.at <= states[i].spans[e.generation - 1].until
  {
    RunKeepsInv(states, events, serial, i);
  }

  // ---------------------------------------------------------------- login handover

  /** While a login is under way nothing acquires the lease, and once seen free it is free at the swap. */
  lemma NoLeaseDuringLogin(states: seq<State>, events: seq<Event>, i: nat, l: nat)
    requires Run(states, events, true) && i < |events| && l in states[i].logins
    ensures !CanAcquire(states[i].row, states[i].now)
    ensures states[i + 1].row.generation == states[i].row.generation
    ensures states[i].logins[l].stage == SeenFree ==> !Live(states[i].row, states[i].now)
    ensures states[i].logins[l].stage == SeenFree && l in states[i + 1].logins
            ==> states[i + 1].logins[l].stage == SeenFree && !Live(states[i + 1].row, states[i + 1].now)
  {
    RunKeepsInv(states, events, true, i);
    RunKeepsInv(states, events, true, i + 1);
    assert Allowed(states[i], events[i], true);
    assert states[i + 1] == Apply(states[i], events[i]);
  }

  /** The session directory never changes under a lease that is still good. */
  lemma DirectoryFixedUnderLease(states: seq<State>, events: seq<Event>, i: nat)
    requires Run(states, events, true) && i < |states| && Live(states[i].row, states[i].now)
    ensures |states[i].bornWith| == states[i].row.generation > 0
    ensures states[i].bornWith[states[i].row.generation - 1] == |states[i].storages|
  {
    RunKeepsInv(states, events, true, i);
  }

  lemma {:induction false} HistoryIsKept(states: seq<State>, events: seq<Event>, serial: bool, i: nat, j: nat)
    requires Run(states, events, serial) && i <= j < |states|
    ensures states[i].storages <= states[j].storages && states[i].bornWith <= states[j].bornWith
    ensures |states[j].bornWith| == states[j].row.generation && |states[i].bornWith| == states[i].row.generation
    decreases j - i
  {
    RunKeepsInv(states, events, serial, j);
    if i < j {
      HistoryIsKept(states, events, serial, i, j - 1);
      assert Allowed(states[j - 1], events[j - 1], serial);
    }
  }

  /**
   After a login swapped its directory in, every generation acquired from then on is born with it: a
   session opened under such a generation uses that directory or a later one, never an earlier.
   */
  lemma {:induction false} LaterLeasesUseNewDirectory(states: seq<State>, events: seq<Event>, i: nat, j: nat, g: nat)
    requires Run(states, events, true) && i < j < |states| && events[i].SwapIn?
    requires states[i + 1].row.generation < g <= states[j].row.generation
    ensures var n := |states[i].storages|;
            && n < |states[j].storages| && states[j].storages[n] == states[i].logins[events[i].l].storage
            && g <= |states[j].bornWith| && n < states[j].bornWith[g - 1]
            && (g in states[j].sessions ==> n < states[j].sessions[g] <= |states[j].storages|)
    decreases j - i
  {
    var n := |states[i].storages|;
    assert Allowed(states[i], events[i], true);
    assert states[i + 1] == Apply(states[i], events[i]);
    HistoryIsKept(states, events, true, i + 1, j);
    assert states[i + 1].storages[n] == states[i].logins[events[i].l].storage;
    RunKeepsInv(states, events, true, j);
    if g <= states[j - 1].row.generation {
      assert i + 1 < j;
      LaterLeasesUseNewDirectory(states, events, i, j - 1, g);
      HistoryIsKept(states, events, true, j - 1, j);
    } else {
      HistoryIsKept(states, events, true, i + 1, j - 1);
      assert Allowed(states[j - 1], events[j - 1], true);
    }
  }

  /** A session opened while its lease is good uses exactly the directory in force when the lease was taken. */
  lemma SessionMatchesLease(states: seq<State>, events: seq<Event>, i: nat)
    requires Run(states, events, true) && i < |events| && Live(states[i].row, states[i].now)
    requires events[i] == OpenSession(states[i].row.generation)
    ensures var g := states[i].row.generation;
            && g in states[i + 1].sessions && g <= |states[i + 1].bornWith|
            && states[i + 1].sessions[g] == states[i + 1].bornWith[g - 1]
  {
    RunKeepsInv(states, events, true, i);
    assert Allowed(states[i], events[i], true);
  }

  // ---------------------------------------------------------------- logins that overlap

  /** The events lead from one state to the other, whether or not logins overlap. */
  ghost predicate Leads(s: State, events: seq<Event>, t: State)
    decreases |events|
  {
    if events == [] then s == t else Allowed(s, events[0], false) && Leads(Apply(s, events[0]), events[1..], t)
  }

  predicate NoSwap(events: seq<Event>) {
    forall i :: 0 <= i < |events| ==> !events[i].SwapIn?
  }

  /** Login l could commit its swap now, and a good lease would be under it. */
  predicate SwapsUnderLease(s: State, l: nat) {
    l in s.logins && s.logins[l].stage == SeenFree && Live(s.row, s.now)
  }

  /** With no swap, an account that is offline and free stays so. */
  lemma {:induction false} OfflineAndFreeStays(s: State, events: seq<Event>, t: State)
    requires Leads(s, events, t) && !s.row.online && !Live(s.row, s.now)
    requires NoSwap(events)
    ensures !t.row.online && !Live(t.row, t.now)
    decreases |events|
  {
    if events != [] {
      assert Allowed(s, events[0], false) && !events[0].SwapIn?;
      OfflineAndFreeStays(Apply(s, events[0]), events[1..], t);
    }
  }

  /**
   A login that has seen the lease free can come to swap under a good lease, with no other swap from here on,
   exactly when the account is online or leased, which takes another login's swap since it began. One login at
   a time, as the mutex has it, never gets there.
   */
  lemma AtRiskIffOnlineOrLeased(s: State, l: nat)
    requires l in s.logins && s.logins[l].stage == SeenFree
    ensures (exists events, t :: Leads(s, events, t) && NoSwap(events) && SwapsUnderLease(t, l))
            <==> s.row.online || Live(s.row, s.now)
  {
    if Live(s.row, s.now) {
      assert Leads(s, [], s) && NoSwap([]) && SwapsUnderLease(s, l);
    } else if s.row.online {
      var e := Acquire("w", 1, 1);
      assert Allowed(s, e, false);
      var t := Apply(s, e);
      assert Leads(t, [], t) && [e][1..] == [];
      assert Leads(s, [e], t) && NoSwap([e]) && SwapsUnderLease(t, l);
    } else {
      forall events, t | Leads(s, events, t) && NoSwap(events) ensures !SwapsUnderLease(t, l) {
        OfflineAndFreeStays(s, events, t);
      }
    }
  }

  lemma NeverAtRiskOneAtATime(states: seq<State>, events: seq<Event>, i: nat, l: nat)
    requires Run(states, events, true) && i < |states| && l in states[i].logins && states[i].logins[l].stage == SeenFree
    ensures !states[i].row.online && !Live(states[i].row, states[i].now)
  {
    RunKeepsInv(states, events, true, i);
  }

  ghost predicate Follows(s: State, e: Event, t: State) {
    Allowed(s, e, false) && t == Apply(s, e)
  }

  /** Up to the second login's swap: both saw the lease free, the first swapped, and a lease was taken since. */
  lemma BothSawFree(s0: State) returns (events: seq<Event>, states: seq<State>)
    requires s0 == State(0, Row(true, 0, None), [], [10], map[], [], [], map[])
    ensures |events| == 4 && |states| == 5 && states[0] == s0
    ensures forall i :: 0 <= i < 4 ==> Follows(states[i], events[i], states[i + 1])
    ensures states[4] == State(0, Row(false, 0, None), [], [10], map[0 := Login(11, SeenFree), 1 := Login(12, SeenFree)], [], [], map[])
  {
    events := [BeginLogin(0, 11), BeginLogin(1, 12), SeeFree(0), SeeFree(1)];
    var s1 := Apply(s0, events[0]);
    var s2 := Apply(s1, events[1]);
    var s3 := Apply(s2, events[2]);
    var s4 := Apply(s3, events[3]);
    states := [s0, s1, s2, s3, s4];
  }

  lemma SwapAcquireSwap(s4: State) returns (events: seq<Event>, states: seq<State>)
    requires s4 == State(0, Row(false, 0, None), [], [10], map[0 := Login(11, SeenFree), 1 := Login(12, SeenFree)], [], [], map[])
    ensures |events| == 3 && |states| == 4 && states[0] == s4
    ensures forall i :: 0 <= i < 3 ==> Follows(states[i], events[i], states[i + 1])
    ensures Live(states[3].row, states[3].now) && states[3].bornWith == [2] && |states[3].storages| == 3
    ensures states[3].row.generation == 1
  {
    events := [SwapIn(0), Acquire("w", 1, 45), SwapIn(1)];
    var s5 := Apply(s4, events[0]);
    var s6 := Apply(s5, events[1]);
    var s7 := Apply(s6, events[2]);
    states := [s4, s5, s6, s7];
  }

  /** Two processes, each with its own mutex: the second login swaps under the lease taken after the first swap. */
  lemma TwoProcessesSwapUnderLease() returns (states: seq<State>, events: seq<Event>)
    ensures Run(states, events, false)
    ensures var s := states[|states| - 1];
            && Live(s.row, s.now) && |s.bornWith| == s.row.generation > 0
            && s.bornWith[s.row.generation - 1] < |s.storages|
  {
    var e1, s1 := BothSawFree(State(0, Row(true, 0, None), [], [10], map[], [], [], map[]));
    var e2, s2 := SwapAcquireSwap(s1[4]);
    events, states := e1 + e2, s1 + s2[1..];
    assert states[0] == s1[0] && Initial(states[0]);
    forall i | 0 <= i < |events|
      ensures Allowed(states[i], events[i], false) && states[i + 1] == Apply(states[i], events[i])
    {
      if i >= 4 {
        assert Follows(s2[i - 4], e2[i - 4], s2[i - 4 + 1]);
        assert events[i] == e2[i - 4] && states[i] == s2[i - 4] && states[i + 1] == s2[i - 4 + 1];
      } else {
        assert Follows(s1[i], e1[i], s1[i + 1]);
      }
    }
  }

  // ---------------------------------------------------------------- what a lease is good for

  /** No generation yet, or the last one's span is over. */
  predicate Vacant(spans: seq<Span>, now: int) {
    spans == [] || spans[|spans| - 1].until <= now
  }

  lemma VacantIsNotLive(s: State)
    requires SpansOk(s)
    ensures Vacant(s.spans, s.now) <==> !Live(s.row, s.now)
  {
  }

  /**
   In every run an acquisition of an online account whose last lease is over, expired or given back, takes the next
   generation from now for as long as was asked, for that worker and token; any other acquisition changes nothing.
   */
  lemma AcquireTakesOver(states: seq<State>, events: seq<Event>, serial: bool, i: nat)
    requires Run(states, events, serial) && i < |events| && events[i].Acquire?
    ensures var s, t, e := states[i], states[i + 1], events[i];
            if s.row.online && Vacant(s.spans, s.now) then
              && t.spans == s.spans + [Span(s.now, s.now + e.ttl)]
              && t.row == Row(true, |s.spans| + 1, Some(Holder(e.worker, e.token, s.now + e.ttl)))
              && t.journal == s.journal && t.now == s.now
            else t == s
  {
    RunKeepsInv(states, events, serial, i);
    VacantIsNotLive(states[i]);
    assert Allowed(states[i], events[i], serial);
  }

  /** The acquisition at event j handed out this lease. */
  ghost predicate HandsOut(states: seq<State>, events: seq<Event>, j: nat, lease: Lease) {
    && j < |events| < |states| && events[j].Acquire?
    && events[j].worker == lease.worker && events[j].token == lease.token
    && |states[j + 1].spans| == |states[j].spans| + 1 == lease.generation
  }

  /** While the lease's generation is the last one, nobody else holds the row. */
  ghost predicate HeldByNoOther(s: State, lease: Lease) {
    && lease.generation <= s.row.generation
    && (lease.generation == s.row.generation && s.row.holder.Some? ==>
          s.row.holder.value.worker == lease.worker && s.row.holder.value.token == lease.token)
  }

  lemma StepKeepsHolder(s: State, e: Event, serial: bool, lease: Lease)
    requires HeldByNoOther(s, lease) && Allowed(s, e, serial)
    ensures HeldByNoOther(Apply(s, e), lease)
  {
  }

  lemma {:induction false} HolderStays(states: seq<State>, events: seq<Event>, serial: bool, j: nat, k: nat, lease: Lease)
    requires Run(states, events, serial) && j < k < |states| && HandsOut(states, events, j, lease)
    ensures HeldByNoOther(states[k], lease)
    decreases k
  {
    if k == j + 1 {
      RunKeepsInv(states, events, serial, j);
      AcquireTakesOver(states, events, serial, j);
    } else {
      HolderStays(states, events, serial, j, k - 1, lease);
      StepKeepsHolder(states[k - 1], events[k - 1], serial, lease);
    }
  }

  /** The lease's generation is the last one, and its span is not over. */
  predicate Good(s: State, lease: Lease) {
    |s.spans| == lease.generation > 0 && s.now < s.spans[|s.spans| - 1].until
  }

  lemma GoodIsOwnedAndLive(s: State, lease: Lease)
    requires SpansOk(s) && HeldByNoOther(s, lease) && lease.generation > 0
    ensures Good(s, lease) <==> Owns(s.row, lease) && Live(s.row, s.now)
    ensures Owns(s.row, lease) ==> |s.spans| == lease.generation
  {
  }

  /**
   A lease that was handed out is honoured exactly while its generation is the last and its span is not over: then a
   renewal moves the end of its span and a journal insert goes in, and otherwise both change nothing. Giving it back
   ends its span, if that is not over yet, and changes nothing once a later generation exists.
   */
  lemma HandedOutIsHonoured(states: seq<State>, events: seq<Event>, serial: bool, j: nat, k: nat, lease: Lease)
    requires Run(states, events, serial) && j < k < |events| && HandsOut(states, events, j, lease)
    ensures var s, t, e, g := states[k], states[k + 1], events[k], lease.generation;
            && (e.Renew? && e.lease == lease ==>
                  if Good(s, lease) then
                    t.spans == s.spans[g - 1 := Span(s.spans[g - 1].from, s.now + e.ttl)] && t.journal == s.journal
                  else t == s)
            && (e.Persist? && e.lease == lease ==>
                  t == if Good(s, lease) then s.(journal := s.journal + [Entry(g, s.now)]) else s)
            && (e.Release? && e.lease == lease ==>
                  && t.journal == s.journal
                  && (|s.spans| > g ==> t == s)
                  && (|s.spans| == g ==> t.spans == s.spans[g - 1 := Span(s.spans[g - 1].from, Min(s.spans[g - 1].until, s.now))]))
  {
    RunKeepsInv(states, events, serial, k);
    HolderStays(states, events, serial, j, k, lease);
    GoodIsOwnedAndLive(states[k], lease);
    assert Allowed(states[k], events[k], serial);
  }

  /** Under a generation that was handed out with another worker or token, nothing happens. */
  lemma ForeignLeaseDoesNothing(states: seq<State>, events: seq<Event>, serial: bool, j: nat, k: nat, lease: Lease, foreign: Lease)
    requires Run(states, events, serial) && j < k < |events| && HandsOut(states, events, j, lease)
    requires foreign.generation == lease.generation && (foreign.worker != lease.worker || foreign.token != lease.token)
    requires (events[k].Renew? || events[k].Release? || events[k].Persist?) && events[k].lease == foreign
    ensures states[k + 1] == states[k]
  {
    HolderStays(states, events, serial, j, k, lease);
    assert Allowed(states[k], events[k], serial);
  }

  /**
   A login sees the account free once the last generation's span is over, and never before; in the very instant of
   the end only if the lease was given back.
   */
  lemma SeesFreeIff(states: seq<State>, events: seq<Event>, serial: bool, i: nat)
    requires Run(states, events, serial) && i < |events| && events[i].SeeFree?
    ensures var s, t, l := states[i], states[i + 1], events[i].l;
            && l in t.logins && t.row == s.row && t.spans == s.spans && t.storages == s.storages
            && (t.logins[l].stage.SeenFree? ==> Vacant(s.spans, s.now))
            && (s.spans == [] || s.spans[|s.spans| - 1].until < s.now ==> t.logins[l].stage.SeenFree?)
            && (s.spans != [] && s.spans[|s.spans| - 1].until == s.now ==>
                  (t.logins[l].stage.SeenFree? <==> s.row.holder.None?))
  {
    RunKeepsInv(states, events, serial, i);
    assert Allowed(states[i], events[i], serial);
  }
}
