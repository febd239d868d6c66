/**
 The lease on a sync state row: the same expiring, generation-numbered lease as on a session, always open to
 acquisition, fencing the recorded cursor and the bounds of what was synced.
 */
module SyncLease {
  import opened Common
  import L = SessionLease

  /** One row of sync_states. Complete and Fail release the lease; progress is the write it fences. */
  class SyncState {
    var generation: nat
    var leaseOwner: Option<string>
    var leaseToken: Option<nat>
    var leaseExpiresAt: Option<int>
    var cursor: int
    var oldest: Option<int>
    var newest: Option<int>
    var retryCount: nat

    ghost predicate Valid()
      reads this
    {
      leaseOwner.Some? == leaseToken.Some? == leaseExpiresAt.Some?
    }

    ghost function Model(): L.Row
      reads this
      requires Valid()
    {
      L.Row(true, generation,
          if leaseOwner.None? then None else Some(L.Holder(leaseOwner.value, leaseToken.value, leaseExpiresAt.value)))
    }

    predicate Held(lease: L.Lease)
      reads this
    {
      leaseOwner == Some(lease.worker) && leaseToken == Some(lease.token) && generation == lease.generation
    }

    method Acquire(owner: string, token: nat, now: int, ttl: int) returns (lease: Option<L.Lease>)
      requires Valid()
      modifies this`generation, this`leaseOwner, this`leaseToken, this`leaseExpiresAt
      ensures Valid() && Model() == L.AfterAcquire(old(Model()), owner, token, now, ttl)
      ensures lease.Some? <==> L.CanAcquire(old(Model()), now)
      ensures lease.Some? ==> L.Owns(Model(), lease.value)
    {
      if leaseExpiresAt.Some? && leaseExpiresAt.value > now {
        return None;
      }
      leaseOwner, leaseToken, leaseExpiresAt := Some(owner), Some(token), Some(now + ttl);
      generation := generation + 1;
      return Some(L.Lease(owner, token, generation));
    }

    method Progress(lease: L.Lease, now: int, nextBefore: int, low: Option<int>, high: Option<int>) returns (ok: bool)
      requires Valid()
      modifies this`cursor, this`oldest, this`newest
      ensures ok <==> L.Owns(Model(), lease) && L.Live(Model(), now)
      ensures ok ==> cursor == nextBefore && oldest == Least(low, old(oldest)) && newest == Greatest(high, old(newest))
      ensures !ok ==> cursor == old(cursor) && oldest == old(oldest) && newest == old(newest)
    {
      if !Held(lease) || leaseExpiresAt.None? || leaseExpiresAt.value <= now {
        return false;
      }
      cursor, oldest, newest := nextBefore, Least(low, oldest), Greatest(high, newest);
      return true;
    }

    method Complete(lease: L.Lease) returns (ok: bool)
      requires Valid()
      modifies this`leaseOwner, this`leaseToken, this`leaseExpiresAt, this`retryCount
      ensures Valid() && Model() == L.AfterRelease(old(Model()), lease)
      ensures ok <==> L.Owns(old(Model()), lease)
      ensures retryCount == if ok then 0 else old(retryCount)
    {
      if !Held(lease) {
        return false;
      }
      leaseOwner, leaseToken, leaseExpiresAt := None, None, None;
      retryCount := 0;
      return true;
    }

    method Fail(lease: L.Lease) returns (ok: bool)
      requires Valid()
      modifies this`leaseOwner, this`leaseToken, this`leaseExpiresAt, this`retryCount
      ensures Valid() && Model() == L.AfterRelease(old(Model()), lease)
      ensures ok <==> L.Owns(old(Model()), lease)
      ensures retryCount == if ok then old(retryCount) + 1 else old(retryCount)
    {
      if !Held(lease) {
        return false;
      }
      leaseOwner, leaseToken, leaseExpiresAt := None, None, None;
      retryCount := retryCount + 1;
      return true;
    }
  }

  // ---------------------------------------------------------------- every run

  /** What progress records: the cursor to resume from and the oldest and newest message synced. */
  datatype Progress = Progress(cursor: int, oldest: Option<int>, newest: Option<int>)

  function Widened(p: Progress, cursor: int, low: Option<int>, high: Option<int>): Progress {
    Progress(cursor, Least(low, p.oldest), Greatest(high, p.newest))
  }

  /** `writes` lists the progress records that were accepted, with their generation and time. */
  datatype State = State(
    now: int, row: L.Row, spans: seq<L.Span>, writes: seq<L.Entry>, progress: Progress, retries: nat)

  datatype Event =
    | Tick(to: int)
    | Acquire(owner: string, token: nat, ttl: int)
    | Record(lease: L.Lease, cursor: int, low: Option<int>, high: Option<int>)
    | Complete(lease: L.Lease)
    | Fail(lease: L.Lease)

  predicate Allowed(s: State, e: Event) {
    match e
    case Tick(to) => s.now <= to
    case Acquire(_, _, ttl) => ttl > 0
    case _ => true
  }

  function Apply(s: State, e: Event): State
    requires Allowed(s, e)
  {
    match e
    case Tick(to) => s.(now := to)
    case Acquire(owner, token, ttl) =>
      s.(row := L.AfterAcquire(s.row, owner, token, s.now, ttl), spans := L.SpansAfterAcquire(s.spans, s.row, s.now, ttl))
    case Record(lease, cursor, low, high) =>
      if L.Owns(s.row, lease) && L.Live(s.row, s.now)
      then s.(progress := Widened(s.progress, cursor, low, high), writes := s.writes + [L.Entry(lease.generation, s.now)])
      else s
    case Complete(lease) => AfterEnd(s, lease, 0)
    case Fail(lease) => AfterEnd(s, lease, s.retries + 1)
  }

  /** The holder gives the lease back and leaves a retry count. */
  function AfterEnd(s: State, lease: L.Lease, retries: nat): State {
    s.(row := L.AfterRelease(s.row, lease), spans := L.SpansAfterRelease(s.spans, s.row, lease, s.now),
       retries := if L.Owns(s.row, lease) then retries else s.retries)
  }

  ghost predicate Run(states: seq<State>, events: seq<Event>) {
    && |states| == |events| + 1
    && states[0].row == L.Row(true, 0, None) && states[0].spans == [] && states[0].writes == []
    && forall i :: 0 <= i < |events| ==> Allowed(states[i], events[i]) && states[i + 1] == Apply(states[i], events[i])
  }

  ghost predicate Inv(s: State) {
    s.row.online && L.SpansFit(s.spans, s.row, s.now) && L.JournalIn(s.writes, s.spans, s.now)
  }

  lemma StepKeepsInv(s: State, e: Event)
    requires Inv(s) && Allowed(s, e)
    ensures Inv(Apply(s, e)) && s.row.generation <= Apply(s, e).row.generation
  {
    match e
    case Tick(to) => L.TimeKeepsJournal(s.writes, s.spans, s.now, to);
    case Acquire(owner, token, ttl) =>
      L.AcquireKeepsSpans(s.spans, s.row, s.now, owner, token, ttl);
      L.NewSpanKeepsJournal(s.writes, s.spans, s.now, L.Span(s.now, s.now + ttl));
    case Record(lease, _, _, _) =>
      if L.Owns(s.row, lease) && L.Live(s.row, s.now) {
        L.FencedWriteKeepsJournal(s.writes, s.spans, s.row, lease, s.now);
      }
    case Complete(lease) =>
      L.ReleaseKeepsSpans(s.spans, s.row, s.now, lease);
      L.ReleaseKeepsJournal(s.writes, s.spans, s.row, lease, s.now);
    case Fail(lease) =>
      L.ReleaseKeepsSpans(s.spans, s.row, s.now, lease);
      L.ReleaseKeepsJournal(s.writes, s.spans, s.row, lease, s.now);
  }

  lemma {:induction false} RunKeepsInv(states: seq<State>, events: seq<Event>, i: nat)
    requires Run(states, events) && i < |states|
    ensures Inv(states[i])
  {
    if i > 0 {
      RunKeepsInv(states, events, i - 1);
      StepKeepsInv(states[i - 1], events[i - 1]);
    }
  }

  lemma {:induction false} GenerationsIncrease(states: seq<State>, events: seq<Event>, i: nat, j: nat)
    requires Run(states, events) && i <= j < |states|
    ensures states[i].row.generation <= states[j].row.generation
    decreases j - i
  {
    if i < j {
      GenerationsIncrease(states, events, i, j - 1);
      RunKeepsInv(states, events, j - 1);
      StepKeepsInv(states[j - 1], events[j - 1]);
    }
  }

  // ---------------------------------------------------------------- main results

  /** Once a later generation exists, recording, completing and failing under an earlier lease do nothing. */
  lemma SupersededSyncIsFenced(states: seq<State>, events: seq<Event>, i: nat, j: nat, lease: L.Lease)
    requires Run(states, events) && i <= j < |events| && lease.generation < states[i].row.generation
    requires (events[j].Record? || events[j].Complete? || events[j].Fail?) && events[j].lease == lease
    ensures states[j + 1] == states[j]
  {
    GenerationsIncrease(states, events, i, j);
    assert Allowed(states[j], events[j]);
  }

  /**
   In no run do the spans of two generations overlap, and the accepted progress records stand in generation
   order, each inside its generation's span: no earlier holder writes after a later one.
   */
  lemma ProgressInGenerationOrder(states: seq<State>, events: seq<Event>, i: nat, a: nat, b: nat)
    requires Run(states, events) && i < |states| && a < b < |states[i].writes|
    ensures var x, y, spans := states[i].writes[a], states[i].writes[b], states[i].spans;
            && 1 <= x.generation <= y.generation <= |spans| == states[i].row.generation
            && spans[x.generation - 1].from <= x.at <= spans[x.generation - 1].until
            && (x.generation < y.generation ==> spans[x.generation - 1].until <= spans[y.generation - 1].from)
  {
    RunKeepsInv(states, events, i);
    assert L.InsideSpan(states[i].spans, states[i].writes[a], states[i].now);
    assert L.InsideSpan(states[i].spans, states[i].writes[b], states[i].now);
  }

  /** Whoever records, the bounds of what was synced only widen. */
  lemma {:induction false} BoundsOnlyWiden(states: seq<State>, events: seq<Event>, i: nat, j: nat)
    requires Run(states, events) && i <= j < |states|
    ensures var p, q := states[i].progress, states[j].progress;
            && (p.oldest.Some? ==> q.oldest.Some? && q.oldest.value <= p.oldest.value)
            && (p.newest.Some? ==> q.newest.Some? && p.newest.value <= q.newest.value)
    decreases j - i
  {
    if i < j {
      BoundsOnlyWiden(states, events, i, j - 1);
      assert Allowed(states[j - 1], events[j - 1]);
    }
  }

  // ---------------------------------------------------------------- what a lease is good for

  /**
   In every run an acquisition of a row whose last lease is over, expired or given back, takes the next generation from
   now for as long as was asked, for that owner and token; any other acquisition changes nothing.
   */
  lemma AcquireTakesOver(states: seq<State>, events: seq<Event>, i: nat)
    requires Run(states, events) && i < |events| && events[i].Acquire?
    ensures var s, t, e := states[i], states[i + 1], events[i];
            if s.spans == [] || s.spans[|s.spans| - 1].until <= s.now then
              t == s.(spans := s.spans + [L.Span(s.now, s.now + e.ttl)],
                      row := L.Row(true, |s.spans| + 1, Some(L.Holder(e.owner, e.token, s.now + e.ttl))))
            else t == s
  {
    RunKeepsInv(states, events, i);
    assert Allowed(states[i], events[i]);
  }

  /** The acquisition at event j handed out this lease. */
  ghost predicate HandsOut(states: seq<State>, events: seq<Event>, j: nat, lease: L.Lease) {
    && j < |events| < |states| && events[j].Acquire?
    && events[j].owner == lease.worker && events[j].token == lease.token
    && |states[j + 1].spans| == |states[j].spans| + 1 == lease.generation
  }

  ghost predicate HeldByNoOther(s: State, lease: L.Lease) {
    && lease.generation <= s.row.generation
    && (lease.generation == s.row.generation && s.row.holder.Some? ==>
          s.row.holder.value.worker == lease.worker && s.row.holder.value.token == lease.token)
  }

  lemma StepKeepsHolder(s: State, e: Event, lease: L.Lease)
    requires HeldByNoOther(s, lease) && Allowed(s, e)
    ensures HeldByNoOther(Apply(s, e), lease)
  {
  }

  lemma {:induction false} HolderStays(states: seq<State>, events: seq<Event>, j: nat, k: nat, lease: L.Lease)
    requires Run(states, events) && j < k < |states| && HandsOut(states, events, j, lease)
    ensures HeldByNoOther(states[k], lease)
    decreases k
  {
    if k == j + 1 {
      RunKeepsInv(states, events, j);
      AcquireTakesOver(states, events, j);
    } else {
      HolderStays(states, events, j, k - 1, lease);
      StepKeepsHolder(states[k - 1], events[k - 1], lease);
    }
  }

  /** The lease's generation is the last one, and its span is not over. */
  predicate Good(s: State, lease: L.Lease) {
    |s.spans| == lease.generation > 0 && s.now < s.spans[|s.spans| - 1].until
  }

  /** The lesser of two bounds that may be missing; the other way round, the greater. */
  predicate Bounds(p: Progress, q: Progress, low: Option<int>, high: Option<int>) {
    && (q.oldest == low || q.oldest == p.oldest) && (q.newest == high || q.newest == p.newest)
    && (low.Some? ==> q.oldest.Some? && q.oldest.value <= low.value)
    && (p.oldest.Some? ==> q.oldest.Some? && q.oldest.value <= p.oldest.value)
    && (high.Some? ==> q.newest.Some? && high.value <= q.newest.value)
    && (p.newest.Some? ==> q.newest.Some? && p.newest.value <= q.newest.value)
  }

  /**
   A lease that was handed out is honoured exactly while its generation is the last and its span is not over: then
   progress records its cursor and widens the bounds by its own, and otherwise nothing changes. Completing under the
   last generation ends its span and sets the retry count to none, failing counts one more; both only while the lease
   was not given back, and never under a generation that is not the last.
   */
  lemma HandedOutIsHonoured(states: seq<State>, events: seq<Event>, j: nat, k: nat, lease: L.Lease)
    requires Run(states, events) && j < k < |events| && HandsOut(states, events, j, lease)
    ensures var s, t, e, g := states[k], states[k + 1], events[k], lease.generation;
            && (e.Record? && e.lease == lease ==>
                  if Good(s, lease) then
                    && t.progress.cursor == e.cursor && Bounds(s.progress, t.progress, e.low, e.high)
                    && t == s.(progress := t.progress, writes := s.writes + [L.Entry(g, s.now)])
                  else t == s)
            && ((e.Complete? || e.Fail?) && e.lease == lease ==>
                  && t.progress == s.progress && t.writes == s.writes
                  && (|s.spans| > g ==> t == s)
                  && (|s.spans| == g ==>
                        t.spans == s.spans[g - 1 := L.Span(s.spans[g - 1].from, Min(s.spans[g - 1].until, s.now))])
                  && (Good(s, lease) ==> t.retries == if e.Complete? then 0 else s.retries + 1))
  {
    RunKeepsInv(states, events, k);
    HolderStays(states, events, j, k, lease);
    assert Allowed(states[k], events[k]);
  }

  /** Under a generation that was handed out with another owner or token, nothing happens. */
  lemma ForeignLeaseDoesNothing(states: seq<State>, events: seq<Event>, j: nat, k: nat, lease: L.Lease, foreign: L.Lease)
    requires Run(states, events) && j < k < |events| && HandsOut(states, events, j, lease)
    requires foreign.generation == lease.generation && (foreign.worker != lease.worker || foreign.token != lease.token)
    requires (events[k].Record? || events[k].Complete? || events[k].Fail?) && events[k].lease == foreign
    ensures states[k + 1] == states[k]
  {
    HolderStays(states, events, j, k, lease);
    assert Allowed(states[k], events[k]);
  }
}
