/**
 One history job handled without disturbance, and a whole chain of them against an unchanging history: the steps of
 the protocol add up to the handler, a page and its successor account for the job's range, and the chain stores it.
 */
module HistoryChain {
  import opened Common
  import opened TelegramHistory
  import opened HistoryBackfill

  // ---------------------------------------------------------------- one job, and a whole chain, undisturbed

  /** The events lead from one state to the other. */
  ghost predicate Path(s: State, events: seq<Event>, s': State)
    decreases |events|
  {
    if events == [] then s == s'
    else Allowed(s, events[0]) && Path(Apply(s, events[0]), events[1..], s')
  }

  lemma {:induction false} PathExtends(s: State, events: seq<Event>, s': State, e: Event)
    requires Path(s, events, s') && Allowed(s', e)
    ensures Path(s, events + [e], Apply(s', e))
    decreases |events|
  {
    if events == [] {
      assert (events + [e])[1..] == [];
    } else {
      PathExtends(Apply(s, events[0]), events[1..], s', e);
      assert (events + [e])[1..] == events[1..] + [e];
    }
  }

  /** The state with the first n messages of the handler's page stored. */
  ghost function StoredUpTo(s: State, h: nat, n: nat): State
    requires h in s.handlers && n <= |s.handlers[h].page|
  {
    At(s.(db := StoreAll(s.db, s.handlers[h].page[..n])), h, s.handlers[h].(stage := Storing(n)))
  }

  lemma StoresNext(s: State, h: nat, n: nat)
    requires h in s.handlers && n < |Kept(s.handlers[h].page, s.handlers[h].job.stop)|
    ensures Allowed(StoredUpTo(s, h, n), StoreNext(h))
    ensures Apply(StoredUpTo(s, h, n), StoreNext(h)) == StoredUpTo(s, h, n + 1)
  {
    var page := s.handlers[h].page;
    assert page[..n + 1] == page[..n] + [page[n]];
    assert Elements(page[..n + 1]) == Elements(page[..n]) + {page[n]};
  }

  lemma NothingStored(s: State, h: nat)
    requires h in s.handlers && s.handlers[h].stage == Storing(0)
    ensures StoredUpTo(s, h, 0) == s
  {
    var hd := s.handlers[h];
    assert hd.(stage := Storing(0)) == hd && s.handlers[h := hd] == s.handlers;
    assert StoreAll(s.db, hd.page[..0]) == s.db;
  }

  lemma PathGoesOn(s: State, events: seq<Event>, mid: State, e: Event, s': State)
    requires Path(s, events, mid) && Allowed(mid, e) && Apply(mid, e) == s'
    ensures Path(s, events + [e], s')
  {
    PathExtends(s, events, mid, e);
  }

  /** The first n messages of a page, stored one step at a time. */
  lemma {:induction false} StoringPath(s: State, h: nat, n: nat) returns (events: seq<Event>)
    requires h in s.handlers && s.handlers[h].stage == Storing(0)
    requires n <= |Kept(s.handlers[h].page, s.handlers[h].job.stop)|
    ensures Path(s, events, StoredUpTo(s, h, n))
  {
    if n == 0 {
      events := [];
      NothingStored(s, h);
    } else {
      var before := StoringPath(s, h, n - 1);
      StoresNext(s, h, n - 1);
      PathGoesOn(s, before, StoredUpTo(s, h, n - 1), StoreNext(h), StoredUpTo(s, h, n));
      events := before + [StoreNext(h)];
    }
  }

  /** The handler of the class and the step-by-step protocol agree: undisturbed steps add up to `Handled`. */
  lemma UndisturbedHandler(s: State, h: nat, raw: seq<int>) returns (events: seq<Event>, s': State)
    requires Allowed(s, Fetch(h, raw))
    ensures Path(Apply(s, Fetch(h, raw)), events, s')
    ensures s'.db == Handled(s.db, s.handlers[h].job, OnlyBefore(raw, s.handlers[h].job.before))
    ensures h in s'.handlers && s'.handlers[h].stage == Recorded
  {
    var fetched := Apply(s, Fetch(h, raw));
    var hd := fetched.handlers[h];
    var n := |Kept(hd.page, hd.job.stop)|;
    events := StoringPath(fetched, h, n);
    s' := StoredUpTo(fetched, h, n);
    PathExtends(fetched, events, s', EnqueueNext(h));
    events, s' := events + [EnqueueNext(h)], Apply(s', EnqueueNext(h));
    PathExtends(fetched, events, s', RecordProgress(h));
    events, s' := events + [RecordProgress(h)], Apply(s', RecordProgress(h));
  }

  /** A page accounts for the job's whole range exactly when it is not empty while the range is not. */
  lemma PageAccountsForRange(remote: set<int>, job: Job, limit: nat, raw: seq<int>)
    requires RawPage(remote, job.before, limit, raw)
    ensures var page := OnlyBefore(raw, job.before);
            (forall m :: m in remote && InRange(m, job) ==>
               m in Kept(page, job.stop) || (HasSuccessor(page, job.stop) && m < NextBefore(page, job.stop)))
            <==> (page == [] ==> forall m :: m in remote ==> !InRange(m, job))
  {
    var page := OnlyBefore(raw, job.before);
    FilteredPage(remote, job.before, limit, raw);
    if page != [] {
      LowestOfDescending(page);
      forall m | m in remote && InRange(m, job)
        ensures m in Kept(page, job.stop) || (HasSuccessor(page, job.stop) && m < NextBefore(page, job.stop))
      {
        PageSplitsRange(remote, job, page, m);
      }
    }
  }

  /** An answer holding nothing but the cursor's own message is a descending prefix, and ends the chain early. */
  lemma CursorOnlyPageLosesHistory(db: Tables)
    requires 1 !in db.stored
    ensures var remote, job := {1, 2}, Job(2, 0, 100);
            && RawPage(remote, job.before, 100, [2]) && !Advances(remote, job.before, [2])
            && OnlyBefore([2], job.before) == [] && 1 in remote && InRange(1, job)
            && 1 !in Handled(db, job, OnlyBefore([2], job.before)).stored
            && Handled(db, job, OnlyBefore([2], job.before)).queue == db.queue
  {
    assert [2][..0] == [];
    assert 1 in {1, 2} && Before(1, 2);
  }

  /** The messages of an unchanging history that a job still has to fetch. */
  ghost function Pending(remote: set<int>, job: Job): set<int> {
    set m | m in remote && InRange(m, job)
  }

  /** Answers for every cursor that are gap-free and empty only at the end of history. */
  ghost predicate Faithful(remote: set<int>, fetch: Job -> seq<int>) {
    && (forall m :: m in remote ==> m != 0)
    && forall job: Job :: Page(remote, job.before, fetch(job))
         && (fetch(job) == [] ==> forall m :: m in remote ==> !Before(m, job.before))
  }

  lemma SuccessorShrinks(remote: set<int>, fetch: Job -> seq<int>, job: Job)
    requires Faithful(remote, fetch) && HasSuccessor(fetch(job), job.stop)
    ensures var kept := Elements(Kept(fetch(job), job.stop));
            var rest := Pending(remote, Successor(job, fetch(job)));
            && Pending(remote, job) == kept + rest
            && rest < Pending(remote, job)
  {
    var page := fetch(job);
    var next := Successor(job, page);
    LowestOfDescending(page);
    assert Kept(page, job.stop) == page;
    var last := page[|page| - 1];
    assert last in page && last in remote;
    assert last != 0 && next.before == last;
    forall m | m in Pending(remote, job) ensures m in Elements(page) || m in Pending(remote, next) {
      PageSplitsRange(remote, job, page, m);
    }
    forall m | m in page ensures m in Pending(remote, job) {
      var i :| 0 <= i < |page| && page[i] == m;
    }
    assert last in Pending(remote, job) && last !in Pending(remote, next);
  }

  /** What a chain of jobs stores when each is handled once, undisturbed, against an unchanging history. */
  ghost function Chase(remote: set<int>, fetch: Job -> seq<int>, job: Job): (stored: set<int>)
    requires Faithful(remote, fetch)
    decreases Pending(remote, job)
  {
    var page := fetch(job);
    var kept := Elements(Kept(page, job.stop));
    if HasSuccessor(page, job.stop) then
      SuccessorShrinks(remote, fetch, job);
      kept + Chase(remote, fetch, Successor(job, page))
    else kept
  }

  /** Every chain ends, having stored exactly its job's range: a first bootstrap mirrors the whole history. */
  lemma {:induction false} ChaseStoresRange(remote: set<int>, fetch: Job -> seq<int>, job: Job)
    requires Faithful(remote, fetch)
    ensures Chase(remote, fetch, job) == Pending(remote, job)
    ensures job.before == 0 && job.stop <= 0 ==> Chase(remote, fetch, job) == remote
    decreases Pending(remote, job)
  {
    var page := fetch(job);
    if HasSuccessor(page, job.stop) {
      SuccessorShrinks(remote, fetch, job);
      ChaseStoresRange(remote, fetch, Successor(job, page));
    } else {
      forall m | m in Pending(remote, job) ensures m in Elements(Kept(page, job.stop)) {
        PageSplitsRange(remote, job, page, m);
      }
      forall m | m in Kept(page, job.stop) ensures m in Pending(remote, job) {
        var i :| 0 <= i < |Kept(page, job.stop)| && page[i] == m;
        assert page[i] in page;
      }
    }
  }

  // ---------------------------------------------------------------- what a bootstrap resumes

  /** What handling a job leaves: no recorded cursor exactly when there is no successor. */
  lemma HandledRecords(db: Tables, job: Job, page: seq<int>)
    requires Descending(page) && 0 !in page
    ensures var after := Handled(db, job, page);
            && (HasSuccessor(page, job.stop) <==> after.cursor != 0)
            && (HasSuccessor(page, job.stop) ==> after.cursor == page[|page| - 1] == Successor(job, page).before)
            && after.stored == db.stored + Elements(Kept(page, job.stop))
  {
    if page != [] {
      LowestOfDescending(page);
      assert page[|page| - 1] in page;
    }
  }

  /** The recorded bounds take in everything that was stored and what was recorded before, and nothing more. */
  lemma HandledBounds(db: Tables, job: Job, page: seq<int>)
    requires Descending(page)
    ensures var kept, after := Kept(page, job.stop), Handled(db, job, page);
            && (forall m :: m in kept ==> after.oldest.Some? && after.newest.Some? && after.oldest.value <= m <= after.newest.value)
            && (db.oldest.Some? ==> after.oldest.Some? && after.oldest.value <= db.oldest.value)
            && (db.newest.Some? ==> after.newest.Some? && db.newest.value <= after.newest.value)
            && (after.oldest == db.oldest || (after.oldest.Some? && after.oldest.value in kept))
            && (after.newest == db.newest || (after.newest.Some? && after.newest.value in kept))
  {
    var kept := Kept(page, job.stop);
    if kept != [] {
      LowestOfDescending(kept);
    }
  }

  /**
   If the handled page had a successor, the job a bootstrap publishes from what was recorded takes in the successor's
   whole range, whether or not the successor is still in the queue.
   */
  lemma BootstrapResumes(db: Tables, job: Job, page: seq<int>, later: Tables, m: int)
    requires Descending(page) && 0 !in page && HasSuccessor(page, job.stop)
    requires later.cursor == Handled(db, job, page).cursor && later.newest == Handled(db, job, page).newest
    requires InRange(m, Successor(job, page))
    ensures InRange(m, BootstrapJob(later))
  {
    HandledRecords(db, job, page);
  }

  /** If the chain ended, the job a bootstrap publishes has exactly the messages above the recorded newest id. */
  lemma BootstrapCatchesUp(db: Tables, job: Job, page: seq<int>, later: Tables, m: int)
    requires Descending(page) && 0 !in page && !HasSuccessor(page, job.stop)
    requires later.cursor == Handled(db, job, page).cursor && later.newest == Handled(db, job, page).newest
    ensures later.newest.Some? && later.newest.value > 0 ==> (InRange(m, BootstrapJob(later)) <==> m > later.newest.value)
    ensures later.newest.None? ==> InRange(m, BootstrapJob(later))
  {
    HandledRecords(db, job, page);
  }

  /** The tables after a chain was handled for so many jobs, or to its end. */
  ghost function HandledChain(db: Tables, fetch: Job -> seq<int>, job: Job, n: nat): Tables
    decreases n
  {
    var page := fetch(job);
    if n > 0 && HasSuccessor(page, job.stop)
    then HandledChain(Handled(db, job, page), fetch, Successor(job, page), n - 1) else Handled(db, job, page)
  }

  lemma PageIsProper(remote: set<int>, fetch: Job -> seq<int>, job: Job)
    requires Faithful(remote, fetch)
    ensures Descending(fetch(job)) && 0 !in fetch(job)
  {
    assert forall m :: m in fetch(job) ==> m in remote;
  }

  /** What a resumed chain is to store was stored or is in the range of the job a bootstrap publishes. */
  lemma OneJobThenBootstrap(remote: set<int>, fetch: Job -> seq<int>, db: Tables, job: Job, m: int)
    requires Faithful(remote, fetch) && m in Pending(remote, job)
    ensures var after := Handled(db, job, fetch(job)); m in after.stored || m in Pending(remote, BootstrapJob(after))
  {
    var page := fetch(job);
    PageIsProper(remote, fetch, job);
    HandledRecords(db, job, page);
    if HasSuccessor(page, job.stop) {
      SuccessorShrinks(remote, fetch, job);
      if m !in Elements(Kept(page, job.stop)) {
        BootstrapResumes(db, job, page, Handled(db, job, page), m);
      }
    } else {
      PageSplitsRange(remote, job, page, m);
    }
  }

  lemma {:induction false} HandledChainKeepsStored(db: Tables, fetch: Job -> seq<int>, job: Job, n: nat)
    ensures db.stored <= HandledChain(db, fetch, job, n).stored
    decreases n
  {
    if n > 0 && HasSuccessor(fetch(job), job.stop) {
      HandledChainKeepsStored(Handled(db, job, fetch(job)), fetch, Successor(job, fetch(job)), n - 1);
    }
  }

  /** Handling a job stores what it takes from its page and leaves the rest to the successor. */
  lemma StoredOrLeft(remote: set<int>, fetch: Job -> seq<int>, db: Tables, job: Job, m: int)
    requires Faithful(remote, fetch) && m in Pending(remote, job) && HasSuccessor(fetch(job), job.stop)
    ensures m in Handled(db, job, fetch(job)).stored || m in Pending(remote, Successor(job, fetch(job)))
  {
    SuccessorShrinks(remote, fetch, job);
    PageIsProper(remote, fetch, job);
    HandledRecords(db, job, fetch(job));
  }

  lemma {:induction false} InterruptedThenBootstrap(remote: set<int>, fetch: Job -> seq<int>, db: Tables, job: Job, n: nat, m: int)
    requires Faithful(remote, fetch) && (m in db.stored || m in Pending(remote, job))
    ensures var after := HandledChain(db, fetch, job, n); m in after.stored || m in Pending(remote, BootstrapJob(after))
    decreases n
  {
    if m in db.stored {
      HandledChainKeepsStored(db, fetch, job, n);
    } else if n > 0 && HasSuccessor(fetch(job), job.stop) {
      StoredOrLeft(remote, fetch, db, job, m);
      InterruptedThenBootstrap(remote, fetch, Handled(db, job, fetch(job)), Successor(job, fetch(job)), n - 1, m);
    } else {
      OneJobThenBootstrap(remote, fetch, db, job, m);
    }
  }

  /**
   A chain interrupted after any number of jobs, its queue lost, and a bootstrap from what it recorded: when the new
   chain is through, everything the interrupted one was to store is stored.
   */
  lemma ResumedChainIsComplete(remote: set<int>, fetch: Job -> seq<int>, db: Tables, job: Job, n: nat)
    requires Faithful(remote, fetch)
    ensures var after := HandledChain(db, fetch, job, n);
            Pending(remote, job) <= after.stored + Chase(remote, fetch, BootstrapJob(after))
  {
    var after := HandledChain(db, fetch, job, n);
    ChaseStoresRange(remote, fetch, BootstrapJob(after));
    forall m | m in Pending(remote, job) ensures m in after.stored + Chase(remote, fetch, BootstrapJob(after)) {
      InterruptedThenBootstrap(remote, fetch, db, job, n, m);
    }
  }

  /** What is asked for and published: a size from 1 to 100 as it is, and 100 or 50 in place of any other. */
  lemma SizesAreClamped(db: Tables, job: Job, page: seq<int>)
    ensures 1 <= job.size <= 100 ==> HandlerSize(job.size) == EnqueueSize(job.size) == job.size
    ensures job.size <= 0 ==> HandlerSize(job.size) == 100 && EnqueueSize(job.size) == 50
    ensures job.size > 100 ==> HandlerSize(job.size) == EnqueueSize(job.size) == 100
    ensures BootstrapJob(db).size == 100
    ensures Successor(job, page).size == if 1 <= job.size <= 100 then job.size else 100
  {
  }
}
