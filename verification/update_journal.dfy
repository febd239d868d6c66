/**
 The journal of updates between the session and the mirror. A worker reads a batch in arrival order, executes
 each update's statements and only then deletes its row; it gives the batch up at the first failure, and may
 stop anywhere. Other workers write to the mirror at the same time.
 */
module UpdateJournal {
  import opened Common
  import M = MessageMirror

  datatype Update = NewMessage(message: M.Message) | Deletion(ids: seq<int>, permanent: bool) | Other

  const BATCH := 100

  function Tombstones(ids: seq<int>): (events: seq<M.Event>)
    ensures forall e :: e in events <==> e.Tombstone? && e.id in ids
  {
    if ids == [] then [] else [M.Tombstone(ids[0])] + Tombstones(ids[1..])
  }

  /** What an update has to leave in the mirror. */
  function Core(u: Update): seq<M.Event> {
    match u
    case NewMessage(m) => [M.Upsert(m)]
    case Deletion(ids, permanent) => if permanent then Tombstones(ids) else []
    case Other => []
  }

  /** But for deletions, a chat that has not arrived is an error, and so is an invalid message: the update is retried. */
  predicate Fails(u: Update, chatKnown: bool) {
    || (!u.Deletion? && !chatKnown)
    || (u.NewMessage? && (u.message.id == 0 || u.message.body.kind == ""))
  }

  /** The statements of one update that does not fail; a deletion without its chat ends after the tombstones. */
  function Statements(u: Update, chatKnown: bool): seq<M.Event> {
    match u
    case NewMessage(m) => [M.Upsert(m), M.Apply]
    case Deletion(ids, permanent) => if permanent then Tombstones(ids) + (if chatKnown then [M.Apply] else []) else []
    case Other => []
  }

  // ---------------------------------------------------------------- one batch, undisturbed

  function AfterUpdate(s: M.Mirror, u: Update, chatKnown: bool): M.Mirror {
    match u
    case NewMessage(m) => M.AfterApply(M.AfterUpsert(s, m))
    case Deletion(ids, permanent) =>
      if !permanent then s
      else if chatKnown then M.AfterApply(M.AfterTombstones(s, ids)) else M.AfterTombstones(s, ids)
    case Other => s
  }

  /** How many updates at the head go through. */
  function Passing(updates: seq<Update>, known: Update -> bool): (n: nat)
    ensures n <= |updates|
    ensures n < |updates| ==> Fails(updates[n], known(updates[n]))
  {
    if updates == [] || Fails(updates[0], known(updates[0])) then 0 else 1 + Passing(updates[1..], known)
  }

  function AfterAll(s: M.Mirror, updates: seq<Update>, known: Update -> bool): M.Mirror {
    if updates == [] then s
    else
      var last := updates[|updates| - 1];
      AfterUpdate(AfterAll(s, updates[..|updates| - 1], known), last, known(last))
  }

  lemma {:induction false} PassingPrefix(updates: seq<Update>, known: Update -> bool, i: nat)
    requires i <= |updates| && forall k :: 0 <= k < i ==> !Fails(updates[k], known(updates[k]))
    ensures Passing(updates, known) >= i
    ensures i < |updates| && Fails(updates[i], known(updates[i])) ==> Passing(updates, known) == i
  {
    if i > 0 {
      assert forall k :: 0 <= k < i - 1 ==> updates[1..][k] == updates[k + 1];
      PassingPrefix(updates[1..], known, i - 1);
    }
  }

  class Journal {
    var updates: seq<Update>
    const store: M.MessageStore

    constructor (store: M.MessageStore)
      ensures updates == [] && this.store == store
    {
      updates := [];
      this.store := store;
    }

    /** False is the error that makes the worker retry later; then nothing of this update was written. */
    method ProcessUpdate(u: Update, chatKnown: bool) returns (ok: bool)
      modifies store
      ensures ok <==> && (chatKnown || u.Deletion?)
                      && (u.NewMessage? ==> u.message.id != 0 && u.message.body.kind != "")
      ensures ok <==> !Fails(u, chatKnown)
      ensures store.Model() == if ok then AfterUpdate(old(store.Model()), u, chatKnown) else old(store.Model())
    {
      match u {
        case NewMessage(m) =>
          if !chatKnown {
            return false;
          }
          ok := store.StoreMessage(m);
        case Deletion(ids, permanent) =>
          store.DeleteMessages(ids, permanent, chatKnown);
          ok := true;
        case Other =>
          ok := chatKnown;
      }
    }

    /** One batch: the updates that go through leave the journal in order, and the first that fails stays at its head. */
    method DrainBatch(known: Update -> bool)
      modifies this`updates, store
      ensures var n := Passing(old(updates)[..Min(100, |old(updates)|)], known);
              && updates == old(updates)[n..]
              && store.Model() == AfterAll(old(store.Model()), old(updates)[..n], known)
    {
      var batch := updates[..Min(BATCH, |updates|)];
      var i := 0;
      while i < |batch|
        invariant 0 <= i <= |batch|
        invariant updates == old(updates)[i..]
        invariant forall k :: 0 <= k < i ==> !Fails(batch[k], known(batch[k]))
        invariant store.Model() == AfterAll(old(store.Model()), old(updates)[..i], known)
      {
        var ok := ProcessUpdate(batch[i], known(batch[i]));
        if !ok {
          break;
        }
        assert old(updates)[..i + 1][..i] == old(updates)[..i];
        updates := updates[1..];
        i := i + 1;
      }
      PassingPrefix(batch, known, i);
    }
  }

  // ---------------------------------------------------------------- workers, interleaved

  /** A worker's batch of journal rows, and what is left to execute of the first one once it has begun. */
  datatype Worker = Worker(batch: seq<nat>, todo: Option<seq<M.Event>>)

  /**
   `arrived` lists every update ever journaled; `journal` holds the numbers of the rows still there. `executed`
   is every statement on the mirror, `others` those that did not come from the journal.
   */
  datatype State = State(arrived: seq<Update>, journal: seq<nat>, workers: map<nat, Worker>,
                         executed: seq<M.Event>, others: seq<M.Event>)

  const INITIAL := State([], [], map[], [], [])

  datatype Event =
    | Arrive(update: Update)
    | ReadBatch(w: nat)
    | Begin(w: nat, chatKnown: bool)
    | Execute(w: nat)
    | DeleteRow(w: nat)
    | Abandon(w: nat)
    | WriteOther(statement: M.Event)

  function Without(journal: seq<nat>, row: nat): seq<nat> {
    if journal == [] then []
    else (if journal[0] == row then [] else [journal[0]]) + Without(journal[1..], row)
  }

  predicate AtRow(s: State, w: nat) {
    w in s.workers && s.workers[w].batch != [] && s.workers[w].batch[0] < |s.arrived|
  }

  predicate Allowed(s: State, e: Event) {
    match e
    case Arrive(_) => true
    case ReadBatch(w) => w !in s.workers
    case Begin(w, chatKnown) =>
      AtRow(s, w) && s.workers[w].todo.None? && !Fails(s.arrived[s.workers[w].batch[0]], chatKnown)
    case Execute(w) => AtRow(s, w) && s.workers[w].todo.Some? && s.workers[w].todo.value != []
    case DeleteRow(w) => AtRow(s, w) && s.workers[w].todo == Some([])
    case Abandon(_) => true
    case WriteOther(statement) => true
  }

  function Apply(s: State, e: Event): State
    requires Allowed(s, e)
  {
    match e
    case Arrive(update) => s.(arrived := s.arrived + [update], journal := s.journal + [|s.arrived|])
    case ReadBatch(w) => s.(workers := s.workers[w := Worker(s.journal[..Min(BATCH, |s.journal|)], None)])
    case Begin(w, chatKnown) =>
      var me := s.workers[w];
      s.(workers := s.workers[w := me.(todo := Some(Statements(s.arrived[me.batch[0]], chatKnown)))])
    case Execute(w) =>
      var me := s.workers[w];
      s.(executed := s.executed + [me.todo.value[0]], workers := s.workers[w := me.(todo := Some(me.todo.value[1..]))])
    case DeleteRow(w) =>
      var me := s.workers[w];
      s.(journal := Without(s.journal, me.batch[0]), workers := s.workers[w := Worker(me.batch[1..], None)])
    case Abandon(w) => s.(workers := s.workers - {w})
    case WriteOther(statement) => s.(executed := s.executed + [statement], others := s.others + [statement])
  }

  ghost predicate Run(states: seq<State>, events: seq<Event>) {
    && |states| == |events| + 1 && states[0] == INITIAL
    && forall i :: 0 <= i < |events| ==> Allowed(states[i], events[i]) && states[i + 1] == Apply(states[i], events[i])
  }

  /** Everything the update has to leave in the mirror was executed. */
  ghost predicate Done(s: State, row: nat)
    requires row < |s.arrived|
  {
    forall e :: e in Core(s.arrived[row]) ==> e in s.executed
  }

  ghost predicate WorkerOk(s: State, me: Worker) {
    && (forall row :: row in me.batch ==> row < |s.arrived|)
    && (me.todo.Some? ==>
          && me.batch != [] && me.batch[0] < |s.arrived|
          && (forall e :: e in Core(s.arrived[me.batch[0]]) ==> e in s.executed || e in me.todo.value)
          && (forall e :: e in me.todo.value ==> e.Apply? || e in Core(s.arrived[me.batch[0]])))
  }

  /** A statement the journal or somebody else asked for. */
  ghost predicate AskedFor(s: State, e: M.Event) {
    e.Apply? || e in s.others || exists row :: 0 <= row < |s.arrived| && e in Core(s.arrived[row])
  }

  ghost predicate Inv(s: State) {
    && (forall row :: row in s.journal ==> row < |s.arrived|)
    && (forall row :: 0 <= row < |s.arrived| ==> row in s.journal || Done(s, row))
    && (forall w :: w in s.workers ==> WorkerOk(s, s.workers[w]))
    && (forall e :: e in s.executed ==> AskedFor(s, e))
    && (forall e :: e in s.others ==> e in s.executed)
  }

  lemma {:induction false} WithoutKeepsOthers(journal: seq<nat>, row: nat)
    ensures forall r :: r in Without(journal, row) <==> r in journal && r != row
  {
    if journal != [] {
      WithoutKeepsOthers(journal[1..], row);
      assert journal == [journal[0]] + journal[1..];
    }
  }

  lemma StatementsHoldCore(u: Update, chatKnown: bool)
    ensures forall e :: e in Core(u) ==> e in Statements(u, chatKnown)
    ensures forall e :: e in Statements(u, chatKnown) ==> e.Apply? || e in Core(u)
  {
  }

  lemma ArriveKeepsInv(s: State, update: Update)
    requires Inv(s)
    ensures Inv(Apply(s, Arrive(update)))
  {
    var t := Apply(s, Arrive(update));
    forall row | 0 <= row < |t.arrived| ensures row in t.journal || Done(t, row) {
      if row < |s.arrived| {
        assert t.arrived[row] == s.arrived[row];
        assert row in s.journal ==> row in t.journal;
      } else {
        assert t.journal[|s.journal|] == row;
      }
    }
    forall x | x in s.executed ensures AskedFor(t, x) {
      assert AskedFor(s, x);
      if row :| 0 <= row < |s.arrived| && x in Core(s.arrived[row]) {
        assert t.arrived[row] == s.arrived[row];
      }
    }
    forall w | w in t.workers ensures WorkerOk(t, t.workers[w]) {
      assert WorkerOk(s, s.workers[w]);
    }
  }

  /** A longer record of what was executed keeps every row done and every worker on its way. */
  lemma ExecutionKeeps(s: State, t: State)
    requires Inv(s) && t.arrived == s.arrived && s.executed <= t.executed && s.others <= t.others
    ensures forall row :: 0 <= row < |s.arrived| && Done(s, row) ==> Done(t, row)
    ensures forall w :: w in s.workers ==> WorkerOk(t, s.workers[w])
    ensures forall x :: x in s.executed ==> x in t.executed && AskedFor(t, x)
  {
    assert forall x :: x in s.executed ==> x in t.executed;
    assert forall x :: x in s.others ==> x in t.others;
    forall w | w in s.workers ensures WorkerOk(t, s.workers[w]) {
      assert WorkerOk(s, s.workers[w]);
    }
    forall x | x in s.executed ensures AskedFor(t, x) {
      assert AskedFor(s, x);
    }
  }

  lemma ExecuteKeepsInv(s: State, w: nat)
    requires Inv(s) && Allowed(s, Execute(w))
    ensures Inv(Apply(s, Execute(w)))
  {
    var t, me := Apply(s, Execute(w)), s.workers[w];
    ExecutionKeeps(s, t);
    assert WorkerOk(s, me) && WorkerOk(t, me);
    assert me.todo.value == [me.todo.value[0]] + me.todo.value[1..];
    assert me.todo.value[0] in me.todo.value;
    assert WorkerOk(t, t.workers[w]);
  }

  lemma DeleteKeepsInv(s: State, w: nat)
    requires Inv(s) && Allowed(s, DeleteRow(w))
    ensures Inv(Apply(s, DeleteRow(w)))
  {
    var t, me := Apply(s, DeleteRow(w)), s.workers[w];
    ExecutionKeeps(s, t);
    WithoutKeepsOthers(s.journal, me.batch[0]);
    assert WorkerOk(s, me);
    assert Done(t, me.batch[0]);
    assert forall row :: row in me.batch[1..] ==> row in me.batch;
  }

  lemma StepKeepsInv(s: State, e: Event)
    requires Inv(s) && Allowed(s, e)
    ensures Inv(Apply(s, e))
  {
    var t := Apply(s, e);
    match e
    case Arrive(update) => ArriveKeepsInv(s, update);
    case ReadBatch(w) =>
      ExecutionKeeps(s, t);
      assert forall row :: row in t.workers[w].batch ==> row in s.journal;
    case Begin(w, chatKnown) =>
      ExecutionKeeps(s, t);
      assert WorkerOk(s, s.workers[w]);
      StatementsHoldCore(s.arrived[s.workers[w].batch[0]], chatKnown);
    case Execute(w) => ExecuteKeepsInv(s, w);
    case DeleteRow(w) => DeleteKeepsInv(s, w);
    case WriteOther(statement) =>
      ExecutionKeeps(s, t);
      assert t.others[|s.others|] == statement;
    case Abandon(_) => ExecutionKeeps(s, t);
  }

  lemma {:induction false} RunKeepsInv(states: seq<State>, events: seq<Event>, i: nat)
    requires Run(states, events) && i < |states|
    ensures Inv(states[i])
  {
    if i > 0 {
      RunKeepsInv(states, events, i - 1);
      StepKeepsInv(states[i - 1], events[i - 1]);
    }
  }

  // ---------------------------------------------------------------- main results

  /** An update leaves the journal only when all it has to leave in the mirror is there. */
  lemma JournalLosesNothing(states: seq<State>, events: seq<Event>, i: nat, row: nat)
    requires Run(states, events) && i < |states| && row < |states[i].arrived| && row !in states[i].journal
    ensures Done(states[i], row)
  {
    RunKeepsInv(states, events, i);
  }

  /** Every update once, in the order of arrival. */
  function InOrder(updates: seq<Update>): seq<M.Event> {
    if updates == [] then [] else Core(updates[0]) + InOrder(updates[1..])
  }

  lemma {:induction false} InOrderHoldsCores(updates: seq<Update>, e: M.Event)
    ensures e in InOrder(updates) <==> exists row :: 0 <= row < |updates| && e in Core(updates[row])
  {
    if updates != [] {
      InOrderHoldsCores(updates[1..], e);
      if row :| 0 <= row < |updates| && e in Core(updates[row]) {
        assert row > 0 ==> updates[1..][row - 1] == updates[row];
      }
      if row :| 0 <= row < |updates[1..]| && e in Core(updates[1..][row]) {
        assert updates[row + 1] == updates[1..][row];
      }
    }
  }

  /**
   With the journal empty, the mirror shows what it would show had every update been executed once, in order of
   arrival, after everything the other workers wrote: failures, retries, crashes and races leave no trace.
   */
  lemma DrainedJournalIsMirrored(states: seq<State>, events: seq<Event>, i: nat)
    requires Run(states, events) && i < |states| && states[i].journal == []
    requires M.Plain(states[i].others + InOrder(states[i].arrived))
    requires forall id :: M.Sighted(states[i].others + InOrder(states[i].arrived), id)
               && M.Tombstone(id) !in states[i].others + InOrder(states[i].arrived)
               ==> M.Settled(states[i].others + InOrder(states[i].arrived), id)
    ensures M.View(M.Run(states[i].executed)) == M.View(M.Run(states[i].others + InOrder(states[i].arrived)))
  {
    RunKeepsInv(states, events, i);
    var s := states[i];
    var ideal := s.others + InOrder(s.arrived);
    forall e: M.Event | !e.Apply? ensures e in ideal <==> e in s.executed {
      InOrderHoldsCores(s.arrived, e);
      if e in s.executed {
        assert AskedFor(s, e);
      }
      if row :| 0 <= row < |s.arrived| && e in Core(s.arrived[row]) {
        assert Done(s, row);
      }
    }
    M.SettledRunsAgree(ideal, s.executed);
  }

  // ---------------------------------------------------------------- a row that keeps failing

  ghost predicate Ascending(rows: seq<nat>) {
    forall i, j :: 0 <= i < j < |rows| ==> rows[i] < rows[j]
  }

  /** Rows that are all journaled, in order of arrival. */
  ghost predicate InArrivalOrder(rows: seq<nat>, arrived: nat) {
    Ascending(rows) && forall i :: 0 <= i < |rows| ==> rows[i] < arrived
  }

  /** The journal and every batch list their rows in order of arrival. */
  ghost predicate Tidy(s: State) {
    InArrivalOrder(s.journal, |s.arrived|) && forall w :: w in s.workers ==> InArrivalOrder(s.workers[w].batch, |s.arrived|)
  }

  lemma {:induction false} WithoutStaysOrdered(journal: seq<nat>, row: nat, arrived: nat)
    requires InArrivalOrder(journal, arrived)
    ensures InArrivalOrder(Without(journal, row), arrived)
  {
    if journal != [] {
      var tail, rest := journal[1..], Without(journal[1..], row);
      WithoutStaysOrdered(tail, row, arrived);
      WithoutKeepsOthers(tail, row);
      forall i | 0 <= i < |rest| ensures journal[0] < rest[i] {
        assert rest[i] in tail;
      }
    }
  }

  lemma ArriveKeepsTidy(s: State, update: Update)
    requires Tidy(s)
    ensures Tidy(Apply(s, Arrive(update)))
  {
  }

  lemma StepKeepsTidy(s: State, e: Event)
    requires Tidy(s) && Allowed(s, e)
    ensures Tidy(Apply(s, e))
  {
    match e
    case Arrive(update) => ArriveKeepsTidy(s, update);
    case DeleteRow(w) => WithoutStaysOrdered(s.journal, s.workers[w].batch[0], |s.arrived|);
    case _ =>
  }

  lemma {:induction false} RunKeepsTidy(states: seq<State>, events: seq<Event>, i: nat)
    requires Run(states, events) && i < |states|
    ensures Tidy(states[i])
  {
    if i > 0 {
      RunKeepsTidy(states, events, i - 1);
      StepKeepsTidy(states[i - 1], events[i - 1]);
    }
  }

  /** No worker gets past the errors of this row up to this step. */
  ghost predicate NeverBegun(states: seq<State>, events: seq<Event>, p: nat, i: nat)
    requires Run(states, events) && i < |states|
  {
    forall k, w, known :: 0 <= k < i && events[k] == Begin(w, known) ==> states[k].workers[w].batch[0] != p
  }

  /** A batch that holds a later row holds this one, and it was not begun. */
  ghost predicate HeldBack(me: Worker, p: nat) {
    && (forall row :: row in me.batch && row > p ==> p in me.batch)
    && (me.batch != [] && me.batch[0] >= p ==> me.todo.None?)
  }

  /** The row and all that arrived after it are still in the journal. */
  ghost predicate Held(s: State, p: nat) {
    && (forall row :: p <= row < |s.arrived| ==> row in s.journal)
    && (forall w :: w in s.workers ==> HeldBack(s.workers[w], p))
  }

  lemma FirstIsBefore(me: Worker, p: nat)
    requires HeldBack(me, p) && Ascending(me.batch) && me.batch != []
    ensures me.batch[0] <= p
  {
    assert me.batch[0] in me.batch;
  }

  lemma DeleteHoldsBack(s: State, w: nat, p: nat)
    requires Tidy(s) && Held(s, p) && Allowed(s, DeleteRow(w))
    ensures Held(Apply(s, DeleteRow(w)), p)
  {
    var me := s.workers[w];
    FirstIsBefore(me, p);
    WithoutKeepsOthers(s.journal, me.batch[0]);
    assert me.batch == [me.batch[0]] + me.batch[1..];
    assert forall row :: row in me.batch <==> row == me.batch[0] || row in me.batch[1..];
    assert HeldBack(Worker(me.batch[1..], None), p);
  }

  lemma ReadHoldsBack(s: State, p: nat, n: nat)
    requires Tidy(s) && Held(s, p) && n <= |s.journal| && p < |s.arrived|
    ensures HeldBack(Worker(s.journal[..n], None), p)
  {
    assert p in s.journal;
    var j :| 0 <= j < |s.journal| && s.journal[j] == p;
    forall row | row in s.journal[..n] && row > p ensures p in s.journal[..n] {
      var i :| 0 <= i < n && s.journal[i] == row;
      assert s.journal[..n][j] == p;
    }
  }

  lemma StepHoldsBack(s: State, e: Event, p: nat)
    requires Tidy(s) && Held(s, p) && p < |s.arrived| && Allowed(s, e)
    requires forall w, known :: e == Begin(w, known) ==> s.workers[w].batch[0] != p
    ensures Held(Apply(s, e), p)
  {
    var t := Apply(s, e);
    match e
    case Arrive(_) =>
      forall row | p <= row < |t.arrived| ensures row in t.journal {
        assert row < |s.arrived| ==> row in s.journal;
        assert t.journal[|s.journal|] == |s.arrived|;
      }
    case ReadBatch(w) => ReadHoldsBack(s, p, Min(BATCH, |s.journal|));
    case Begin(w, known) => FirstIsBefore(s.workers[w], p);
    case DeleteRow(w) => DeleteHoldsBack(s, w, p);
    case Execute(w) => assert HeldBack(s.workers[w], p);
    case _ =>
  }

  /** Before the row arrives no batch holds it or a later one, so nothing after it can be begun. */
  lemma ArrivalIsHeld(s: State, e: Event, p: nat)
    requires Tidy(s) && Allowed(s, e) && |s.arrived| <= p < |Apply(s, e).arrived|
    ensures Held(Apply(s, e), p)
  {
    var t := Apply(s, e);
    assert t.journal[|s.journal|] == p;
    forall w | w in t.workers ensures HeldBack(t.workers[w], p) {
      assert InArrivalOrder(s.workers[w].batch, |s.arrived|);
    }
  }

  lemma {:induction false} HeldOnceArrived(states: seq<State>, events: seq<Event>, p: nat, i: nat)
    requires Run(states, events) && i < |states| && NeverBegun(states, events, p, i) && p < |states[i].arrived|
    ensures Held(states[i], p)
  {
    if i > 0 {
      assert NeverBegun(states, events, p, i - 1);
      var s, e := states[i - 1], events[i - 1];
      RunKeepsTidy(states, events, i - 1);
      assert Allowed(s, e) && states[i] == Apply(s, e);
      if |s.arrived| <= p {
        ArrivalIsHeld(s, e, p);
      } else {
        HeldOnceArrived(states, events, p, i - 1);
        StepHoldsBack(s, e, p);
      }
    }
  }

  /** While a row fails for every worker, neither it nor any row that arrived after it leaves the journal, in any run. */
  lemma FailingRowBlocks(states: seq<State>, events: seq<Event>, i: nat, p: nat)
    requires Run(states, events) && i < |states| && NeverBegun(states, events, p, i)
    ensures forall row :: p <= row < |states[i].arrived| ==> row in states[i].journal
  {
    if p < |states[i].arrived| {
      HeldOnceArrived(states, events, p, i);
    }
  }

  /** An update that fails validation fails for every worker, and so blocks the journal for good. */
  lemma InvalidMessageBlocks(states: seq<State>, events: seq<Event>, i: nat, p: nat)
    requires Run(states, events) && i < |states| && p < |states[i].arrived|
    requires Fails(states[i].arrived[p], true)
    ensures forall row :: p <= row < |states[i].arrived| ==> row in states[i].journal
  {
    forall k, w, known | 0 <= k < i && events[k] == Begin(w, known) ensures states[k].workers[w].batch[0] != p {
      assert Allowed(states[k], events[k]);
      ArrivedStays(states, events, k, i);
    }
    FailingRowBlocks(states, events, i, p);
  }

  lemma {:induction false} ArrivedStays(states: seq<State>, events: seq<Event>, i: nat, j: nat)
    requires Run(states, events) && i <= j < |states|
    ensures states[i].arrived <= states[j].arrived
    decreases j - i
  {
    if i < j {
      ArrivedStays(states, events, i, j - 1);
      assert Allowed(states[j - 1], events[j - 1]);
    }
  }

  // ---------------------------------------------------------------- statements and handler

  lemma {:induction false} TombstonesRun(s: M.Mirror, ids: seq<int>)
    ensures M.RunFrom(s, Tombstones(ids)) == M.AfterTombstones(s, ids)
    decreases |ids|
  {
    if ids != [] {
      var first := M.Tombstone(ids[0]);
      RunFromFirst(s, first, Tombstones(ids[1..]));
      TombstonesRun(M.Step(s, first), ids[1..]);
      assert Elements(ids) == {ids[0]} + Elements(ids[1..]);
    }
  }

  lemma {:induction false} RunFromFirst(s: M.Mirror, e: M.Event, events: seq<M.Event>)
    ensures M.RunFrom(s, [e] + events) == M.RunFrom(M.Step(s, e), events)
  {
    if events == [] {
      assert [e] + events == [e] && [e][..0] == [];
    } else {
      var front, last := events[..|events| - 1], events[|events| - 1];
      RunFromFirst(s, e, front);
      assert ([e] + events)[..|events|] == [e] + front;
    }
  }

  lemma RunFromLast(s: M.Mirror, events: seq<M.Event>, e: M.Event)
    ensures M.RunFrom(s, events + [e]) == M.Step(M.RunFrom(s, events), e)
  {
    assert (events + [e])[..|events|] == events;
  }

  lemma StoredAndApplied(s: M.Mirror, m: M.Message)
    ensures M.RunFrom(s, [M.Upsert(m), M.Apply]) == M.AfterApply(M.AfterUpsert(s, m))
  {
    assert [M.Upsert(m), M.Apply] == [M.Upsert(m)] + [M.Apply];
    RunFromLast(s, [M.Upsert(m)], M.Apply);
    assert [M.Upsert(m)] == [] + [M.Upsert(m)];
    RunFromLast(s, [], M.Upsert(m));
  }

  lemma DeletedAndApplied(s: M.Mirror, ids: seq<int>, chatKnown: bool)
    ensures M.RunFrom(s, Statements(Deletion(ids, true), chatKnown)) == AfterUpdate(s, Deletion(ids, true), chatKnown)
  {
    TombstonesRun(s, ids);
    if chatKnown {
      RunFromLast(s, Tombstones(ids), M.Apply);
    } else {
      assert Tombstones(ids) + [] == Tombstones(ids);
    }
  }

  /** The statements a worker executes for an update are what processing it does. */
  lemma StatementsDoTheUpdate(s: M.Mirror, u: Update, chatKnown: bool)
    ensures M.RunFrom(s, Statements(u, chatKnown)) == AfterUpdate(s, u, chatKnown)
  {
    match u
    case NewMessage(m) => StoredAndApplied(s, m);
    case Deletion(ids, permanent) =>
      if permanent {
        DeletedAndApplied(s, ids, chatKnown);
      }
    case Other =>
  }

  /** A row whose statements were executed leaves the journal, and no other row does. */
  lemma DoneRowLeaves(states: seq<State>, events: seq<Event>, i: nat)
    requires Run(states, events) && i < |events| && events[i].DeleteRow?
    ensures events[i].w in states[i].workers && states[i].workers[events[i].w].batch != []
    ensures forall row :: row in states[i + 1].journal <==>
              row in states[i].journal && row != states[i].workers[events[i].w].batch[0]
  {
    assert Allowed(states[i], events[i]);
    WithoutKeepsOthers(states[i].journal, states[i].workers[events[i].w].batch[0]);
  }
}
