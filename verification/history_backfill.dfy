/**
 The history backfill job chain of one chat.

 A job asks for the messages strictly between its stop marker and its cursor. Handling a job fetches one
 page, stores it message by message, enqueues a successor for what lies below the page, records progress
 and only then acknowledges the job. The queue redelivers unacknowledged jobs, suppresses a job whose
 deduplication id was published recently, and a handler may stop between any two of these steps.
 */
module HistoryBackfill {
  import opened Common
  import opened TelegramHistory

  /** Also the deduplication id of the job: the published key spells out exactly these three numbers. */
  datatype Job = Job(before: int, stop: int, size: int)

  /** The database and the queue, as far as one chat's history is concerned. */
  datatype Tables = Tables(
    stored: set<int>,
    queue: map<nat, Job>, nextMsg: nat, recent: set<Job>,
    cursor: int, oldest: Option<int>, newest: Option<int>)

  predicate InRange(id: int, job: Job) {
    Before(id, job.before) && (job.stop <= 0 || id > job.stop)
  }

  // ---------------------------------------------------------------- what one job does to the tables

  function HandlerSize(size: int): int {
    if size <= 0 || size > 100 then 100 else size
  }

  function EnqueueSize(size: int): int {
    if size <= 0 then 50 else if size > 100 then 100 else size
  }

  /** Publishing is a no-op while the job's deduplication id is inside the window. */
  function Publish(db: Tables, job: Job): Tables {
    var job := job.(size := EnqueueSize(job.size));
    if job in db.recent then db
    else db.(queue := db.queue[db.nextMsg := job], nextMsg := db.nextMsg + 1, recent := db.recent + {job})
  }

  /** How many messages of the page come before the stop marker is reached. */
  function Unknown(page: seq<int>, stop: int): (k: nat)
    ensures k <= |page|
    ensures forall i :: 0 <= i < k ==> stop <= 0 || page[i] > stop
    ensures k < |page| ==> 0 < stop && page[k] <= stop
  {
    if page == [] || (stop > 0 && page[0] <= stop) then 0 else 1 + Unknown(page[1..], stop)
  }

  function Kept(page: seq<int>, stop: int): seq<int> {
    page[..Unknown(page, stop)]
  }

  predicate ReachedKnown(page: seq<int>, stop: int) {
    Unknown(page, stop) < |page|
  }

  function Lowest(s: seq<int>): Option<int> {
    if s == [] then None else Least(Lowest(s[..|s| - 1]), Some(s[|s| - 1]))
  }

  function Highest(s: seq<int>): Option<int> {
    if s == [] then None else Greatest(Highest(s[..|s| - 1]), Some(s[|s| - 1]))
  }

  predicate HasSuccessor(page: seq<int>, stop: int) {
    !ReachedKnown(page, stop) && page != []
  }

  /** The cursor of the successor job, or 0 when the chain ends here. */
  function NextBefore(page: seq<int>, stop: int): int {
    if HasSuccessor(page, stop) && Lowest(page).Some? then Lowest(page).value else 0
  }

  function Successor(job: Job, page: seq<int>): Job {
    Job(NextBefore(page, job.stop), job.stop, HandlerSize(job.size))
  }

  function EnqueueSuccessor(db: Tables, job: Job, page: seq<int>): Tables {
    if HasSuccessor(page, job.stop) then Publish(db, Successor(job, page)) else db
  }

  function Record(db: Tables, job: Job, page: seq<int>): Tables {
    var kept := Kept(page, job.stop);
    db.(cursor := NextBefore(page, job.stop),
        oldest := Least(Lowest(kept), db.oldest),
        newest := Greatest(Highest(kept), db.newest))
  }

  function StoreAll(db: Tables, ids: seq<int>): Tables {
    db.(stored := db.stored + Elements(ids))
  }

  /** Everything a handler does for a valid page, short of the acknowledgement. */
  function Handled(db: Tables, job: Job, page: seq<int>): Tables {
    Record(EnqueueSuccessor(StoreAll(db, Kept(page, job.stop)), job, page), job, page)
  }

  /** The job a bootstrap derives from the sync state it has read. */
  function BootstrapJob(db: Tables): Job {
    Job(db.cursor, if db.cursor == 0 && db.newest.Some? then db.newest.value else 0, 100)
  }

  lemma TakesNext(page: seq<int>, i: nat)
    requires i < |page|
    ensures Elements(page[..i + 1]) == Elements(page[..i]) + {page[i]}
    ensures Lowest(page[..i + 1]) == Least(Lowest(page[..i]), Some(page[i]))
    ensures Highest(page[..i + 1]) == Greatest(Highest(page[..i]), Some(page[i]))
    ensures 0 in page[..i + 1] <==> 0 in page[..i] || page[i] == 0
  {
    assert page[..i + 1][..i] == page[..i];
    assert page[..i + 1] == page[..i] + [page[i]];
  }

  // ---------------------------------------------------------------- the handlers, statement by statement

  datatype Outcome = Done | InvalidMessage | DidNotAdvance

  class ChatBackfill {
    var stored: set<int>
    var queue: map<nat, Job>
    var nextMsg: nat
    var recent: set<Job>
    var cursor: int
    var oldest: Option<int>
    var newest: Option<int>

    ghost function Model(): Tables
      reads this
    {
      Tables(stored, queue, nextMsg, recent, cursor, oldest, newest)
    }

    method EnqueueChatHistory(payload: Job)
      modifies this`queue, this`nextMsg, this`recent
      ensures Model() == Publish(old(Model()), payload)
      ensures var sent := payload.(size := if payload.size <= 0 then 50 else Min(payload.size, 100));
              if sent in old(recent) then queue == old(queue) && recent == old(recent) && nextMsg == old(nextMsg)
              else queue == old(queue)[old(nextMsg) := sent] && recent == old(recent) + {sent} && nextMsg == old(nextMsg) + 1
    {
      var size := payload.size;
      if size <= 0 {
        size := 50;
      }
      if size > 100 {
        size := 100;
      }
      var job := payload.(size := size);
      if job !in recent {
        queue := queue[nextMsg := job];
        nextMsg := nextMsg + 1;
        recent := recent + {job};
      }
    }

    /** One bootstrap of the chat, reading its sync state and publishing without interruption. */
    method BootstrapChat()
      modifies this`queue, this`nextMsg, this`recent
      ensures Model() == Publish(old(Model()), BootstrapJob(old(Model())))
    {
      var before, stopAt := cursor, 0;
      if before == 0 && newest.Some? {
        stopAt := newest.value;
      }
      EnqueueChatHistory(Job(before, stopAt, 100));
    }

    /**
     The whole handler, from the fetched page to the progress record, run without interruption. When the
     page holds an invalid message, the messages before it stay stored and nothing else happens.
     */
    method HandleChatHistory(payload: Job, page: seq<int>) returns (r: Outcome)
      modifies this
      ensures r == InvalidMessage <==> 0 in Kept(page, payload.stop)
      ensures r == InvalidMessage ==> exists k ::
                && 0 <= k < Unknown(page, payload.stop) && page[k] == 0 && 0 !in page[..k]
                && Model() == StoreAll(old(Model()), page[..k])
      ensures r == DidNotAdvance <==>
                && 0 !in Kept(page, payload.stop) && HasSuccessor(page, payload.stop)
                && NextBefore(page, payload.stop) == payload.before
      ensures r == DidNotAdvance ==> Model() == StoreAll(old(Model()), page)
      ensures r == Done ==> Model() == Handled(old(Model()), payload, page)
    {
      var size := payload.size;
      if size <= 0 {
        size := 100;
      }
      if size > 100 {
        size := 100;
      }
      var reachedKnown := false;
      var oldestId, newestId: Option<int> := None, None;
      var i := 0;
      ghost var all := Unknown(page, payload.stop);
      while i < |page| && !reachedKnown
        invariant 0 <= i <= all
        invariant reachedKnown ==> i == all < |page|
        invariant 0 !in page[..i]
        invariant stored == old(stored) + Elements(page[..i])
        invariant Model() == old(Model()).(stored := stored)
        invariant oldestId == Lowest(page[..i]) && newestId == Highest(page[..i])
        decreases |page| - i, !reachedKnown
      {
        var id := page[i];
        if payload.stop > 0 && id <= payload.stop {
          reachedKnown := true;
        } else {
          if id == 0 {
            assert Kept(page, payload.stop)[i] == 0;
            return InvalidMessage;
          }
          TakesNext(page, i);
          if oldestId.None? || id < oldestId.value {
            oldestId := Some(id);
          }
          if newestId.None? || id > newestId.value {
            newestId := Some(id);
          }
          stored := stored + {id};
          i := i + 1;
        }
      }
      assert page[..i] == Kept(page, payload.stop);
      assert stored == StoreAll(old(Model()), Kept(page, payload.stop)).stored;
      if !reachedKnown {
        assert page[..i] == page;
      }
      var nextBefore := 0;
      if !reachedKnown && |page| > 0 && oldestId.Some? {
        nextBefore := oldestId.value;
        if nextBefore == payload.before {
          return DidNotAdvance;
        }
        EnqueueChatHistory(Job(nextBefore, payload.stop, size));
      }
      cursor := nextBefore;
      oldest := Least(oldestId, oldest);
      newest := Greatest(newestId, newest);
      return Done;
    }
  }

  // ---------------------------------------------------------------- the protocol as a state machine

  /** Where a handler stands; `seen` is the newest message id Telegram had handed out when it fetched. */
  datatype Stage = Delivered | Storing(count: nat) | Enqueued | Recorded
  datatype Handler = Handler(msg: nat, job: Job, page: seq<int>, seen: int, stage: Stage)

  /** `remote` is what Telegram holds now; ids handed out so far are at most `top`. */
  datatype State = State(
    remote: set<int>, top: int, db: Tables,
    handlers: map<nat, Handler>, bootstraps: map<nat, Job>)

  datatype Event =
    | Arrive(id: int)                  // a new message on Telegram
    | Vanish(id: int)                  // a message deleted on Telegram
    | LeaveWindow(job: Job)            // a deduplication id leaves the window
    | ReadState(w: nat)                // a bootstrap reads the sync state ...
    | PublishRead(w: nat)              // ... and publishes the job derived from what it read
    | DropBootstrap(w: nat)
    | Deliver(h: nat, msg: nat)        // a delivery or a redelivery
    | Fetch(h: nat, raw: seq<int>)
    | StoreNext(h: nat)
    | EnqueueNext(h: nat)
    | RecordProgress(h: nat)
    | Acknowledge(h: nat)
    | Stop(h: nat)                     // crash, lost lease, or any error before the acknowledgement

  ghost predicate Allowed(s: State, e: Event) {
    match e
    case Arrive(id) => id > s.top && id != 0
    case Vanish(_) => true
    case LeaveWindow(_) => true
    case ReadState(w) => w !in s.bootstraps
    case PublishRead(w) => w in s.bootstraps
    case DropBootstrap(_) => true
    case Deliver(h, msg) => h !in s.handlers && msg in s.db.queue
    case Fetch(h, raw) =>
      && h in s.handlers && s.handlers[h].stage == Delivered
      && RawPage(s.remote, s.handlers[h].job.before, HandlerSize(s.handlers[h].job.size) as nat, raw)
      && Advances(s.remote, s.handlers[h].job.before, raw)
    case StoreNext(h) =>
      && h in s.handlers && s.handlers[h].stage.Storing?
      && s.handlers[h].stage.count < |Kept(s.handlers[h].page, s.handlers[h].job.stop)|
    case EnqueueNext(h) =>
      && h in s.handlers && s.handlers[h].stage.Storing?
      && s.handlers[h].stage.count == |Kept(s.handlers[h].page, s.handlers[h].job.stop)|
    case RecordProgress(h) => h in s.handlers && s.handlers[h].stage == Enqueued
    case Acknowledge(h) => h in s.handlers && s.handlers[h].stage == Recorded
    case Stop(_) => true
  }

  ghost function Apply(s: State, e: Event): State
    requires Allowed(s, e)
  {
    match e
    case Arrive(id) => s.(remote := s.remote + {id}, top := id)
    case Vanish(id) => s.(remote := s.remote - {id})
    case LeaveWindow(job) => s.(db := s.db.(recent := s.db.recent - {job}))
    case ReadState(w) => s.(bootstraps := s.bootstraps[w := BootstrapJob(s.db)])
    case PublishRead(w) => s.(db := Publish(s.db, s.bootstraps[w]), bootstraps := s.bootstraps - {w})
    case DropBootstrap(w) => s.(bootstraps := s.bootstraps - {w})
    case Deliver(h, msg) =>
      s.(handlers := s.handlers[h := Handler(msg, s.db.queue[msg], [], s.top, Delivered)])
    case Fetch(h, raw) =>
      var hd := s.handlers[h];
      At(s, h, hd.(page := OnlyBefore(raw, hd.job.before), seen := s.top, stage := Storing(0)))
    case StoreNext(h) =>
      var hd := s.handlers[h];
      var id := hd.page[hd.stage.count];
      At(s.(db := s.db.(stored := s.db.stored + {id})), h, hd.(stage := Storing(hd.stage.count + 1)))
    case EnqueueNext(h) =>
      var hd := s.handlers[h];
      At(s.(db := EnqueueSuccessor(s.db, hd.job, hd.page)), h, hd.(stage := Enqueued))
    case RecordProgress(h) =>
      var hd := s.handlers[h];
      At(s.(db := Record(s.db, hd.job, hd.page)), h, hd.(stage := Recorded))
    case Acknowledge(h) =>
      s.(db := s.db.(queue := s.db.queue - {s.handlers[h].msg}), handlers := s.handlers - {h})
    case Stop(h) => s.(handlers := s.handlers - {h})
  }

  ghost function At(s: State, h: nat, hd: Handler): State {
    s.(handlers := s.handlers[h := hd])
  }

  ghost predicate Initial(s: State) {
    && s.db == Tables({}, map[], 0, {}, 0, None, None)
    && s.handlers == map[] && s.bootstraps == map[]
    && forall m :: m in s.remote ==> m != 0 && m <= s.top
  }

  ghost predicate Run(states: seq<State>, events: seq<Event>) {
    && |states| == |events| + 1
    && Initial(states[0])
    && forall i :: 0 <= i < |events| ==> Allowed(states[i], events[i]) && states[i + 1] == Apply(states[i], events[i])
  }

  // ---------------------------------------------------------------- the coverage invariant

  /** The message is stored, or an unacknowledged job with a cursor still has to fetch it. */
  ghost predicate Covered(s: State, m: int) {
    m in s.db.stored || exists k :: k in s.db.queue && s.db.queue[k].before != 0 && InRange(m, s.db.queue[k])
  }

  ghost predicate WaitsBelow(s: State, m: int, b: int, k: nat) {
    k in s.db.queue && s.db.queue[k].before != 0 && s.db.queue[k].before <= b && InRange(m, s.db.queue[k])
  }

  /** As `Covered`, but by a job whose cursor is at most `b`: acknowledging a job above `b` cannot lose it. */
  ghost predicate CoveredBelow(s: State, m: int, b: int) {
    m in s.db.stored || exists k :: WaitsBelow(s, m, b, k)
  }

  /** Everything up to the recorded newest message is covered. */
  ghost predicate NoGaps(s: State) {
    s.db.newest.Some? ==> forall m :: m in s.remote && m <= s.db.newest.value ==> Covered(s, m)
  }

  ghost predicate Sane(s: State) {
    && (forall m :: m in s.remote ==> m != 0 && m <= s.top)
    && (s.db.newest.Some? ==> s.db.newest.value <= s.top)
    && (s.db.cursor != 0 ==> s.db.cursor <= s.top)
    && (forall k :: k in s.db.queue ==> k < s.db.nextMsg)
  }

  /** A stop marker never exceeds the recorded newest message. */
  ghost predicate JobOk(s: State, job: Job) {
    && (job.before != 0 ==> job.before <= s.top)
    && (job.stop > 0 ==> s.db.newest.Some? && job.stop <= s.db.newest.value)
  }

  ghost predicate JobsOk(s: State) {
    && (forall k :: k in s.db.queue ==> JobOk(s, s.db.queue[k]))
    && (forall w :: w in s.bootstraps ==> JobOk(s, s.bootstraps[w]))
    && (forall h :: h in s.handlers ==>
          && JobOk(s, s.handlers[h].job)
          && s.handlers[h].msg < s.db.nextMsg
          && (s.handlers[h].msg in s.db.queue ==> s.db.queue[s.handlers[h].msg] == s.handlers[h].job))
  }

  /** Why suppressing a duplicate is harmless: the earlier job's whole range is covered at or below its cursor. */
  ghost predicate Suppressible(s: State, job: Job) {
    job.before != 0 ==>
      job.before <= s.top && forall m :: m in s.remote && InRange(m, job) ==> CoveredBelow(s, m, job.before)
  }

  ghost predicate HandlerOk(s: State, hd: Handler) {
    var kept := Kept(hd.page, hd.job.stop);
    hd.stage != Delivered ==>
      && hd.seen <= s.top
      && (hd.job.before != 0 ==> hd.job.before <= hd.seen)
      && Descending(hd.page)
      && (forall m :: m in hd.page ==> m != 0 && m <= hd.seen && Before(m, hd.job.before))
      && (forall m :: m in s.remote && m <= hd.seen && InRange(m, hd.job) ==>
            m in kept || (HasSuccessor(hd.page, hd.job.stop) && m < hd.page[|hd.page| - 1]))
      && (forall i :: 0 <= i < |kept| && (hd.stage.Storing? ==> i < hd.stage.count) ==> kept[i] in s.db.stored)
      && (!hd.stage.Storing? && HasSuccessor(hd.page, hd.job.stop) ==>
            forall m :: m in s.remote && InRange(m, hd.job) && m < hd.page[|hd.page| - 1] ==>
              CoveredBelow(s, m, hd.page[|hd.page| - 1]))
  }

  ghost predicate Inv(s: State) {
    && Sane(s) && NoGaps(s) && JobsOk(s)
    && (forall job :: job in s.db.recent ==> Suppressible(s, job))
    && (forall h :: h in s.handlers ==> HandlerOk(s, s.handlers[h]))
  }

  /** The part of a step every untouched job, handler and deduplication id survives. */
  ghost predicate Carries(s: State, s': State) {
    && s.top <= s'.top
    && (forall m :: m in s'.remote ==> m in s.remote || m > s.top)
    && s.db.stored <= s'.db.stored
    && (s.db.newest.Some? ==> s'.db.newest.Some? && s.db.newest.value <= s'.db.newest.value)
    && (forall m, b :: m in s'.remote && m in s.remote && CoveredBelow(s, m, b) ==> CoveredBelow(s', m, b))
  }

  lemma LowestOfDescending(page: seq<int>)
    requires Descending(page) && page != []
    ensures Lowest(page) == Some(page[|page| - 1])
    ensures Highest(page) == Some(page[0])
  {
    if |page| > 1 {
      LowestOfDescending(page[..|page| - 1]);
    }
  }

  lemma CarriedHandler(s: State, s': State, hd: Handler)
    requires Sane(s) && Carries(s, s') && HandlerOk(s, hd)
    ensures HandlerOk(s', hd)
  {
    if hd.stage != Delivered && HasSuccessor(hd.page, hd.job.stop) {
      assert hd.page[|hd.page| - 1] in hd.page;
    }
  }

  lemma CarriedInv(s: State, s': State)
    requires Inv(s) && Carries(s, s')
    ensures forall h :: h in s.handlers ==> HandlerOk(s', s.handlers[h]) && JobOk(s', s.handlers[h].job)
    ensures forall job :: job in s.db.recent ==> Suppressible(s', job)
    ensures forall m :: s.db.newest.Some? && m in s'.remote && m <= s.db.newest.value ==> Covered(s', m)
  {
    forall h | h in s.handlers ensures HandlerOk(s', s.handlers[h]) {
      CarriedHandler(s, s', s.handlers[h]);
    }
    forall job | job in s.db.recent ensures Suppressible(s', job) {
      assert Suppressible(s, job);
    }
    forall m | s.db.newest.Some? && m in s'.remote && m <= s.db.newest.value ensures Covered(s', m) {
      assert Covered(s, m);
      assert CoveredBelow(s, m, s.top) by {
        if m !in s.db.stored {
          var k :| k in s.db.queue && s.db.queue[k].before != 0 && InRange(m, s.db.queue[k]);
          assert WaitsBelow(s, m, s.top, k);
        }
      }
      assert CoveredBelow(s', m, s.top);
    }
  }

  lemma PublishKeepsInv(s: State, job: Job)
    requires Inv(s) && JobOk(s, job)
    ensures Inv(s.(db := Publish(s.db, job)))
    ensures Carries(s, s.(db := Publish(s.db, job)))
    ensures forall m :: m in s.remote && job.before != 0 && InRange(m, job)
              ==> CoveredBelow(s.(db := Publish(s.db, job)), m, job.before)
  {
    var s' := s.(db := Publish(s.db, job));
    var sized := job.(size := EnqueueSize(job.size));
    if sized in s.db.recent {
      assert s' == s && Suppressible(s, sized);
    } else {
      forall m, b | CoveredBelow(s, m, b) ensures CoveredBelow(s', m, b) {
        if m !in s.db.stored {
          var k :| WaitsBelow(s, m, b, k);
          assert WaitsBelow(s', m, b, k);
        }
      }
      forall m | m in s.remote && job.before != 0 && InRange(m, job) ensures CoveredBelow(s', m, job.before) {
        assert WaitsBelow(s', m, job.before, s.db.nextMsg);
      }
      CarriedInv(s, s');
    }
  }

  /** What a freshly filtered page tells about the job's range. */
  lemma PageSplitsRange(remote: set<int>, job: Job, page: seq<int>, m: int)
    requires Page(remote, job.before, page) && m in remote && InRange(m, job)
    requires page == [] ==> forall x :: x in remote ==> !Before(x, job.before)
    ensures m in Kept(page, job.stop) || (HasSuccessor(page, job.stop) && m < page[|page| - 1])
  {
    if page[|page| - 1] <= m {
      var i :| 0 <= i < |page| && page[i] == m;
      assert i < Unknown(page, job.stop);
      assert Kept(page, job.stop)[i] == m;
    }
  }

  /** Moving one handler on, with the tables left alone. */
  lemma AtKeepsInv(s: State, h: nat, hd: Handler)
    requires Inv(s) && h in s.handlers && HandlerOk(s, hd)
    requires hd.job == s.handlers[h].job && hd.msg == s.handlers[h].msg
    ensures Inv(At(s, h, hd))
  {
    var s' := At(s, h, hd);
    SameQueueCarries(s, s');
    CarriedInv(s, s');
    CarriedHandler(s, s', hd);
  }

  lemma FetchedHandlerOk(s: State, job: Job, msg: nat, page: seq<int>)
    requires Sane(s) && JobOk(s, job) && Page(s.remote, job.before, page)
    requires page == [] ==> forall x :: x in s.remote ==> !Before(x, job.before)
    ensures HandlerOk(s, Handler(msg, job, page, s.top, Storing(0)))
  {
    forall m | m in s.remote && InRange(m, job)
      ensures m in Kept(page, job.stop) || (HasSuccessor(page, job.stop) && m < page[|page| - 1])
    {
      PageSplitsRange(s.remote, job, page, m);
    }
  }

  lemma FetchKeepsInv(s: State, h: nat, raw: seq<int>)
    requires Inv(s) && Allowed(s, Fetch(h, raw))
    ensures Inv(Apply(s, Fetch(h, raw)))
  {
    var hd := s.handlers[h];
    FilteredPage(s.remote, hd.job.before, HandlerSize(hd.job.size) as nat, raw);
    FetchedHandlerOk(s, hd.job, hd.msg, OnlyBefore(raw, hd.job.before));
    AtKeepsInv(s, h, hd.(page := OnlyBefore(raw, hd.job.before), seen := s.top, stage := Storing(0)));
  }

  /** What the new newest id promises: everything up to it in the job's range is stored or waits below the page. */
  lemma RecordedPageCovered(s: State, hd: Handler, m: int)
    requires Sane(s) && NoGaps(s) && JobOk(s, hd.job) && HandlerOk(s, hd) && hd.stage == Enqueued
    requires Kept(hd.page, hd.job.stop) != [] && m in s.remote && m <= hd.page[0]
    ensures Covered(s, m)
  {
    assert hd.page[0] in hd.page;
    if InRange(m, hd.job) {
      if m !in Kept(hd.page, hd.job.stop) {
        assert CoveredBelow(s, m, hd.page[|hd.page| - 1]);
      }
    } else {
      assert m <= s.db.newest.value;
    }
  }

  /** Recording progress moves the newest id up and nothing else a job or a handler depends on. */
  lemma RecordCarries(s: State, job: Job, page: seq<int>)
    ensures Carries(s, s.(db := Record(s.db, job, page)))
  {
    var mid := s.(db := Record(s.db, job, page));
    forall m, b | CoveredBelow(s, m, b) ensures CoveredBelow(mid, m, b) {
      if m !in s.db.stored {
        var k :| WaitsBelow(s, m, b, k);
        assert WaitsBelow(mid, m, b, k);
      }
    }
  }

  lemma RecordKeepsSane(s: State, hd: Handler)
    requires Sane(s) && HandlerOk(s, hd) && hd.stage == Enqueued
    ensures Sane(s.(db := Record(s.db, hd.job, hd.page)))
  {
    var kept := Kept(hd.page, hd.job.stop);
    if hd.page != [] {
      LowestOfDescending(hd.page);
      assert hd.page[|hd.page| - 1] in hd.page && hd.page[0] in hd.page;
    }
    if kept != [] {
      LowestOfDescending(kept);
    }
  }

  lemma RecordKeepsNoGaps(s: State, hd: Handler)
    requires Inv(s) && JobOk(s, hd.job) && HandlerOk(s, hd) && hd.stage == Enqueued
    ensures NoGaps(s.(db := Record(s.db, hd.job, hd.page)))
  {
    var mid := s.(db := Record(s.db, hd.job, hd.page));
    var kept := Kept(hd.page, hd.job.stop);
    if kept != [] {
      LowestOfDescending(kept);
    }
    RecordCarries(s, hd.job, hd.page);
    CarriedInv(s, mid);
    forall m | mid.db.newest.Some? && m in mid.remote && m <= mid.db.newest.value ensures Covered(mid, m) {
      if s.db.newest.None? || m > s.db.newest.value {
        RecordedPageCovered(s, hd, m);
      }
    }
  }

  lemma RecordedInv(s: State, hd: Handler)
    requires Inv(s) && JobOk(s, hd.job) && HandlerOk(s, hd) && hd.stage == Enqueued
    ensures var mid := s.(db := Record(s.db, hd.job, hd.page)); Inv(mid) && Carries(s, mid)
  {
    var mid := s.(db := Record(s.db, hd.job, hd.page));
    RecordKeepsSane(s, hd);
    RecordKeepsNoGaps(s, hd);
    RecordCarries(s, hd.job, hd.page);
    CarriedInv(s, mid);
  }

  lemma RecordKeepsInv(s: State, h: nat)
    requires Inv(s) && Allowed(s, RecordProgress(h))
    ensures Inv(Apply(s, RecordProgress(h)))
  {
    var hd := s.handlers[h];
    assert HandlerOk(s, hd) && JobOk(s, hd.job);
    var mid := s.(db := Record(s.db, hd.job, hd.page));
    RecordedInv(s, hd);
    CarriedHandler(s, mid, hd);
    AtKeepsInv(mid, h, hd.(stage := Recorded));
  }

  /** The successor's cursor is strictly below the job's, so whatever the job covered stays covered. */
  lemma AcknowledgeKeepsInv(s: State, h: nat)
    requires Inv(s) && Allowed(s, Acknowledge(h))
    ensures Inv(Apply(s, Acknowledge(h)))
  {
    var s' := Apply(s, Acknowledge(h));
    var hd := s.handlers[h];
    assert HandlerOk(s, hd);
    forall m, b | m in s.remote && CoveredBelow(s, m, b) ensures CoveredBelow(s', m, b) {
      if m !in s.db.stored {
        var k :| WaitsBelow(s, m, b, k);
        if k != hd.msg {
          assert WaitsBelow(s', m, b, k);
        } else {
          assert s.db.queue[k] == hd.job;
          var low := hd.page[|hd.page| - 1];
          assert CoveredBelow(s, m, low);
          assert low in hd.page;
          var k' :| WaitsBelow(s, m, low, k');
          assert WaitsBelow(s', m, b, k');
        }
      }
    }
    CarriedInv(s, s');
  }

  lemma ArriveKeepsInv(s: State, id: int)
    requires Inv(s) && Allowed(s, Arrive(id))
    ensures Inv(Apply(s, Arrive(id)))
  {
    var s' := Apply(s, Arrive(id));
    forall m, b | CoveredBelow(s, m, b) ensures CoveredBelow(s', m, b) {
      if m !in s.db.stored {
        var k :| WaitsBelow(s, m, b, k);
        assert WaitsBelow(s', m, b, k);
      }
    }
    CarriedInv(s, s');
  }

  lemma StoredMore(s: State, id: int)
    requires Inv(s)
    ensures var mid := s.(db := s.db.(stored := s.db.stored + {id})); Inv(mid) && Carries(s, mid)
  {
    var mid := s.(db := s.db.(stored := s.db.stored + {id}));
    SameQueueCarries(s, mid);
    CarriedInv(s, mid);
  }

  lemma StoredHandlerOk(s: State, hd: Handler, id: int)
    requires HandlerOk(s, hd) && hd.stage.Storing? && hd.stage.count < |Kept(hd.page, hd.job.stop)|
    requires id == hd.page[hd.stage.count]
    ensures HandlerOk(s.(db := s.db.(stored := s.db.stored + {id})), hd.(stage := Storing(hd.stage.count + 1)))
  {
    assert Kept(hd.page, hd.job.stop)[hd.stage.count] == id;
  }

  lemma StoreKeepsInv(s: State, h: nat)
    requires Inv(s) && Allowed(s, StoreNext(h))
    ensures Inv(Apply(s, StoreNext(h)))
  {
    var hd := s.handlers[h];
    var id := hd.page[hd.stage.count];
    StoredMore(s, id);
    StoredHandlerOk(s, hd, id);
    AtKeepsInv(s.(db := s.db.(stored := s.db.stored + {id})), h, hd.(stage := Storing(hd.stage.count + 1)));
  }

  /** With the successor in the queue, or already published, what lies below the page is covered below it. */
  lemma SuccessorCoversRest(s: State, hd: Handler)
    requires Inv(s) && HandlerOk(s, hd) && JobOk(s, hd.job) && hd.stage.Storing?
    requires hd.stage.count == |Kept(hd.page, hd.job.stop)| && HasSuccessor(hd.page, hd.job.stop)
    ensures var mid := s.(db := Publish(s.db, Successor(hd.job, hd.page)));
            Inv(mid) && HandlerOk(mid, hd.(stage := Enqueued))
  {
    var job := Successor(hd.job, hd.page);
    var mid := s.(db := Publish(s.db, job));
    LowestOfDescending(hd.page);
    assert hd.page[|hd.page| - 1] in hd.page;
    PublishKeepsInv(s, job);
    CarriedHandler(s, mid, hd);
    forall m | m in mid.remote && InRange(m, hd.job) && m < job.before ensures CoveredBelow(mid, m, job.before) {
      assert InRange(m, job);
    }
  }

  lemma EnqueueKeepsInv(s: State, h: nat)
    requires Inv(s) && Allowed(s, EnqueueNext(h))
    ensures Inv(Apply(s, EnqueueNext(h)))
  {
    var hd := s.handlers[h];
    assert HandlerOk(s, hd) && JobOk(s, hd.job);
    var mid := s.(db := EnqueueSuccessor(s.db, hd.job, hd.page));
    if HasSuccessor(hd.page, hd.job.stop) {
      SuccessorCoversRest(s, hd);
    }
    AtKeepsInv(mid, h, hd.(stage := Enqueued));
  }

  /** A step that keeps the queue and the stored messages keeps what waits. */
  lemma SameQueueCarries(s: State, s': State)
    requires s'.db.queue == s.db.queue && s.db.stored <= s'.db.stored && s'.db.newest == s.db.newest && s.top <= s'.top
    requires forall m :: m in s'.remote ==> m in s.remote || m > s.top
    ensures Carries(s, s')
  {
    forall m, b | CoveredBelow(s, m, b) ensures CoveredBelow(s', m, b) {
      if m !in s.db.stored {
        var k :| WaitsBelow(s, m, b, k);
        assert WaitsBelow(s', m, b, k);
      }
    }
  }

  lemma BeginningKeepsInv(s: State, e: Event)
    requires Inv(s) && Allowed(s, e) && (e.ReadState? || e.Deliver?)
    ensures Inv(Apply(s, e))
  {
    var s' := Apply(s, e);
    SameQueueCarries(s, s');
    CarriedInv(s, s');
  }

  lemma QuietStepKeepsInv(s: State, e: Event)
    requires Inv(s) && Allowed(s, e) && (e.Vanish? || e.LeaveWindow? || e.DropBootstrap? || e.Stop?)
    ensures Inv(Apply(s, e))
  {
    var s' := Apply(s, e);
    SameQueueCarries(s, s');
    CarriedInv(s, s');
  }

  lemma PublishReadKeepsInv(s: State, w: nat)
    requires Inv(s) && Allowed(s, PublishRead(w))
    ensures Inv(Apply(s, PublishRead(w)))
  {
    var mid, s' := s.(db := Publish(s.db, s.bootstraps[w])), Apply(s, PublishRead(w));
    PublishKeepsInv(s, s.bootstraps[w]);
    SameQueueCarries(mid, s');
    CarriedInv(mid, s');
  }

  lemma StepKeepsInv(s: State, e: Event)
    requires Inv(s) && Allowed(s, e)
    ensures Inv(Apply(s, e))
  {
    match e
    case Arrive(id) => ArriveKeepsInv(s, id);
    case ReadState(_) => BeginningKeepsInv(s, e);
    case Deliver(_, _) => BeginningKeepsInv(s, e);
    case PublishRead(w) => PublishReadKeepsInv(s, w);
    case Fetch(h, raw) => FetchKeepsInv(s, h, raw);
    case StoreNext(h) => StoreKeepsInv(s, h);
    case EnqueueNext(h) => EnqueueKeepsInv(s, h);
    case RecordProgress(h) => RecordKeepsInv(s, h);
    case Acknowledge(h) => AcknowledgeKeepsInv(s, h);
    case _ => QuietStepKeepsInv(s, e);
  }

  // ---------------------------------------------------------------- the theorems

  lemma {:induction false} RunKeepsInv(states: seq<State>, events: seq<Event>, i: nat)
    requires Run(states, events) && i < |states|
    ensures Inv(states[i])
  {
    if i > 0 {
      RunKeepsInv(states, events, i - 1);
      StepKeepsInv(states[i - 1], events[i - 1]);
    }
  }

  /**
   In every state of every run each message Telegram still has, at or below the recorded newest id, is
   stored or lies strictly inside the range of an unacknowledged job.
   */
  lemma BackfillCoverage(states: seq<State>, events: seq<Event>, i: nat)
    requires Run(states, events) && i < |states|
    ensures NoGaps(states[i])
  {
    RunKeepsInv(states, events, i);
  }

  /** Once the queue is empty nothing up to the recorded newest id is missing. */
  lemma DrainedQueueHasNoGaps(states: seq<State>, events: seq<Event>, i: nat)
    requires Run(states, events) && i < |states| && states[i].db.queue == map[]
    requires states[i].db.newest.Some?
    ensures forall m :: m in states[i].remote && m <= states[i].db.newest.value ==> m in states[i].db.stored
  {
    RunKeepsInv(states, events, i);
    forall m | m in states[i].remote && m <= states[i].db.newest.value ensures m in states[i].db.stored {
      assert Covered(states[i], m);
    }
  }

  /** In no run does a handler see the "did not advance" or the "invalid message" failure. */
  lemma ChainAlwaysAdvances(states: seq<State>, events: seq<Event>, i: nat, h: nat)
    requires Run(states, events) && i < |states| && h in states[i].handlers
    requires states[i].handlers[h].stage != Delivered
    ensures var hd := states[i].handlers[h];
            && 0 !in hd.page
            && (HasSuccessor(hd.page, hd.job.stop) ==>
                  var next := NextBefore(hd.page, hd.job.stop); next != 0 && Before(next, hd.job.before))
  {
    RunKeepsInv(states, events, i);
    var hd := states[i].handlers[h];
    assert HandlerOk(states[i], hd);
    if HasSuccessor(hd.page, hd.job.stop) {
      LowestOfDescending(hd.page);
      assert hd.page[|hd.page| - 1] in hd.page;
    }
  }
}
