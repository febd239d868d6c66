/**
 Sending a message once. Any number of handlers run at the same time; each statement and each external call is
 one step, and a handler that crashes simply takes no further step. A request is named by account, client and
 request id; `digest` is the hash of its chat and text.
 */
module SendOnce {
  import opened Common

  datatype Key = Key(account: int, client: int, request: int)

  datatype Status = Pending | Accepted | Unknown

  /** A reservation; `owner` is the handler that inserted it. */
  datatype Reservation = Reservation(digest: int, status: Status, messageId: Option<int>, owner: nat)

  datatype Answer =
    | Sent(messageId: int)
    | UsedForAnother
    | PendingOrUnknown
    | LimitExceeded
    | Unavailable
    | DeliveryUnknown

  /** Where a handler is: what it has done last, or what it answered. */
  datatype Phase =
    | Arrived
    | Conflicted
    | Reserved
    | Denied
    | Cleared
    | Dispatched(id: int, ok: bool)
    | Answered(answer: Answer)

  datatype Handler = Handler(key: Key, digest: int, phase: Phase)

  /** One message handed to Telegram, and what came back. */
  datatype Dispatch = Dispatch(handler: nat, key: Key, digest: int, id: int, ok: bool)

  datatype State = State(rows: map<Key, Reservation>, handlers: seq<Handler>, journal: seq<Dispatch>)

  const INITIAL := State(map[], [], [])

  datatype Event =
    | Arrive(key: Key, digest: int)
    | Insert(h: nat)                       // INSERT ... ON CONFLICT DO NOTHING
    | Lookup(h: nat)                       // the conflicting row is read and compared
    | Deny(h: nat)                         // the rate limiter refuses or fails
    | Unreserve(h: nat, executed: bool)    // DELETE of the key, its error ignored
    | Clear(h: nat)                        // within the limit, audited, and the chat still permitted
    | Refuse(h: nat)                       // not audited or not permitted: answered, the row stays
    | Hand(h: nat, id: int, ok: bool)      // the call to Telegram
    | Record(h: nat, executed: bool, reported: bool)   // the final UPDATE, and whether it returned no error

  /** What the conflicting row says to a later request. */
  function Verdict(row: Reservation, digest: int): Answer {
    if row.digest != digest then UsedForAnother
    else if row.status == Accepted && row.messageId.Some? then Sent(row.messageId.value)
    else PendingOrUnknown
  }

  function Recorded(row: Reservation, id: int, ok: bool): Reservation {
    row.(status := if ok then Accepted else Unknown, messageId := Some(id))
  }

  // ---------------------------------------------------------------- one handler, start to end

  /** What the world does to one handler. */
  datatype World = World(withinLimit: bool, deleteExecutes: bool, permitted: bool, id: int, ok: bool,
                         recordExecutes: bool, recordReports: bool)   // the UPDATE may execute and yet return an error

  class SendRequests {
    var rows: map<Key, Reservation>
    var journal: seq<Dispatch>

    constructor ()
      ensures rows == map[] && journal == []
    {
      rows, journal := map[], [];
    }

    /** A handler that meets no other: it hands over at most one message, and only under a new reservation. */
    method Send(h: nat, key: Key, digest: int, world: World) returns (answer: Answer)
      modifies this
      ensures forall k :: k != key ==> (k in rows <==> k in old(rows)) && (k in rows ==> rows[k] == old(rows)[k])
      ensures key in old(rows) ==> rows == old(rows) && journal == old(journal)
      ensures key in old(rows) && old(rows)[key].digest != digest ==> answer == UsedForAnother
      ensures key in old(rows) && old(rows)[key].digest == digest
              ==> answer == if old(rows)[key].status == Accepted && old(rows)[key].messageId.Some?
                            then Sent(old(rows)[key].messageId.value) else PendingOrUnknown
      ensures key in old(rows) ==> answer == Verdict(old(rows)[key], digest)
      ensures key !in old(rows) && world.withinLimit && world.permitted
              ==> && journal == old(journal) + [Dispatch(h, key, digest, world.id, world.ok)]
                  && key in rows
                  && rows[key] == (if !world.recordExecutes then Reservation(digest, Pending, None, h)
                                   else Reservation(digest, if world.ok then Accepted else Unknown, Some(world.id), h))
                  && answer == (if world.ok && world.recordReports then Sent(world.id) else DeliveryUnknown)
      ensures key !in old(rows) && !(world.withinLimit && world.permitted) ==> journal == old(journal)
      ensures key !in old(rows) && world.withinLimit && !world.permitted
              ==> key in rows && rows[key] == Reservation(digest, Pending, None, h) && answer == Unavailable
      ensures key !in old(rows) && !world.withinLimit
              ==> && answer == LimitExceeded
                  && (key in rows <==> !world.deleteExecutes)
                  && (key in rows ==> rows[key] == Reservation(digest, Pending, None, h))
    {
      if key in rows {
        var row := rows[key];
        if digest != row.digest {
          return UsedForAnother;
        }
        if row.status != Accepted || row.messageId.None? {
          return PendingOrUnknown;
        }
        return Sent(row.messageId.value);
      }
      rows := rows[key := Reservation(digest, Pending, None, h)];
      if !world.withinLimit {
        if world.deleteExecutes {
          rows := rows - {key};
        }
        return LimitExceeded;
      }
      if !world.permitted {
        return Unavailable;
      }
      journal := journal + [Dispatch(h, key, digest, world.id, world.ok)];
      if world.recordExecutes {
        rows := rows[key := Recorded(rows[key], world.id, world.ok)];
      }
      if !world.ok || !world.recordReports {
        return DeliveryUnknown;
      }
      return Sent(world.id);
    }
  }

  // ---------------------------------------------------------------- interleaved handlers

  predicate At(s: State, h: nat, phase: Phase) {
    h < |s.handlers| && s.handlers[h].phase == phase
  }

  predicate Allowed(s: State, e: Event) {
    match e
    case Arrive(_, _) => true
    case Insert(h) => At(s, h, Arrived)
    case Lookup(h) => At(s, h, Conflicted)
    case Deny(h) => At(s, h, Reserved)
    case Unreserve(h, _) => At(s, h, Denied)
    case Clear(h) => At(s, h, Reserved)
    case Refuse(h) => At(s, h, Reserved)
    case Hand(h, _, _) => At(s, h, Cleared)
    case Record(h, executed, reported) => h < |s.handlers| && s.handlers[h].phase.Dispatched? && (reported ==> executed)
  }

  function Moved(s: State, h: nat, phase: Phase): State
    requires h < |s.handlers|
  {
    s.(handlers := s.handlers[h := s.handlers[h].(phase := phase)])
  }

  function Apply(s: State, e: Event): State
    requires Allowed(s, e)
  {
    match e
    case Arrive(key, digest) => s.(handlers := s.handlers + [Handler(key, digest, Arrived)])
    case Insert(h) =>
      var me := s.handlers[h];
      if me.key in s.rows then Moved(s, h, Conflicted)
      else Moved(s, h, Reserved).(rows := s.rows[me.key := Reservation(me.digest, Pending, None, h)])
    case Lookup(h) =>
      var me := s.handlers[h];
      Moved(s, h, Answered(if me.key in s.rows then Verdict(s.rows[me.key], me.digest) else Unavailable))
    case Deny(h) => Moved(s, h, Denied)
    case Unreserve(h, executed) =>
      Moved(s, h, Answered(LimitExceeded)).(rows := if executed then s.rows - {s.handlers[h].key} else s.rows)
    case Clear(h) => Moved(s, h, Cleared)
    case Refuse(h) => Moved(s, h, Answered(Unavailable))
    case Hand(h, id, ok) =>
      var me := s.handlers[h];
      Moved(s, h, Phase.Dispatched(id, ok)).(journal := s.journal + [Dispatch(h, me.key, me.digest, id, ok)])
    case Record(h, executed, reported) =>
      var me := s.handlers[h];
      var rows := if executed && me.key in s.rows
                  then s.rows[me.key := Recorded(s.rows[me.key], me.phase.id, me.phase.ok)] else s.rows;
      Moved(s, h, Answered(if reported && me.phase.ok then Sent(me.phase.id) else DeliveryUnknown)).(rows := rows)
  }

  ghost predicate Run(states: seq<State>, events: seq<Event>) {
    && |states| == |events| + 1 && states[0] == INITIAL
    && forall i :: 0 <= i < |events| ==> Allowed(states[i], events[i]) && states[i + 1] == Apply(states[i], events[i])
  }

  /** The handler's own row is still in the table. */
  predicate Owning(phase: Phase) {
    phase.Reserved? || phase.Denied? || phase.Cleared? || phase.Dispatched?
  }

  /** The handler has not called Telegram. */
  predicate Silent(phase: Phase) {
    phase.Arrived? || phase.Conflicted? || phase.Reserved? || phase.Denied? || phase.Cleared?
  }

  predicate OwnsRow(s: State, h: nat) {
    h < |s.handlers| && s.handlers[h].key in s.rows && s.rows[s.handlers[h].key].owner == h
  }

  ghost predicate RowsOwned(s: State) {
    && (forall k :: k in s.rows ==>
          var row := s.rows[k];
          && row.owner < |s.handlers|
          && s.handlers[row.owner].key == k && s.handlers[row.owner].digest == row.digest
          && !s.handlers[row.owner].phase.Arrived? && !s.handlers[row.owner].phase.Conflicted?)
    && (forall h :: 0 <= h < |s.handlers| && Owning(s.handlers[h].phase) ==> OwnsRow(s, h))
  }

  ghost predicate JournalOwned(s: State) {
    && (forall i :: 0 <= i < |s.journal| ==>
          var d := s.journal[i];
          && OwnsRow(s, d.handler) && !Silent(s.handlers[d.handler].phase)
          && s.handlers[d.handler].key == d.key && s.handlers[d.handler].digest == d.digest
          && (s.handlers[d.handler].phase.Dispatched? ==> s.handlers[d.handler].phase == Phase.Dispatched(d.id, d.ok)))
    && (forall i, j :: 0 <= i < j < |s.journal| ==> s.journal[i].handler != s.journal[j].handler)
  }

  /** A message handed over for this key and digest, with this outcome. */
  ghost predicate Handed(journal: seq<Dispatch>, key: Key, digest: int, id: int, ok: bool) {
    exists i :: 0 <= i < |journal| && journal[i].key == key && journal[i].digest == digest
                && journal[i].id == id && journal[i].ok == ok
  }

  ghost predicate StatusTrue(s: State) {
    && (forall k :: k in s.rows && s.rows[k].status != Pending ==>
          && s.rows[k].messageId.Some?
          && Handed(s.journal, k, s.rows[k].digest, s.rows[k].messageId.value, s.rows[k].status == Accepted))
    && (forall h :: 0 <= h < |s.handlers| && s.handlers[h].phase.Dispatched? ==>
          Handed(s.journal, s.handlers[h].key, s.handlers[h].digest, s.handlers[h].phase.id, s.handlers[h].phase.ok))
    && (forall h :: 0 <= h < |s.handlers| && s.handlers[h].phase.Answered? && s.handlers[h].phase.answer.Sent? ==>
          Handed(s.journal, s.handlers[h].key, s.handlers[h].digest, s.handlers[h].phase.answer.messageId, true))
  }

  /** Moving a handler on keeps ownership unless it would claim a row, or return to before its reservation. */
  lemma MoveKeepsRowsOwned(s: State, h: nat, phase: Phase)
    requires RowsOwned(s) && h < |s.handlers|
    requires Owning(phase) ==> Owning(s.handlers[h].phase)
    requires phase.Arrived? || phase.Conflicted? ==> !OwnsRow(s, h)
    ensures RowsOwned(Moved(s, h, phase))
  {
  }

  lemma InsertKeepsRowsOwned(s: State, h: nat)
    requires RowsOwned(s) && At(s, h, Arrived)
    ensures RowsOwned(Apply(s, Insert(h)))
  {
    if s.handlers[h].key in s.rows {
      MoveKeepsRowsOwned(s, h, Conflicted);
    }
  }

  lemma ClosingKeepsRowsOwned(s: State, e: Event)
    requires RowsOwned(s) && Allowed(s, e) && (e.Unreserve? || e.Record?)
    ensures RowsOwned(Apply(s, e))
  {
    assert OwnsRow(s, e.h);
  }

  lemma RowsStayOwned(s: State, e: Event)
    requires RowsOwned(s) && Allowed(s, e)
    ensures RowsOwned(Apply(s, e))
  {
    match e
    case Arrive(_, _) =>
    case Insert(h) => InsertKeepsRowsOwned(s, h);
    case Lookup(h) => MoveKeepsRowsOwned(s, h, Apply(s, e).handlers[h].phase);
    case Deny(h) => MoveKeepsRowsOwned(s, h, Denied);
    case Clear(h) => MoveKeepsRowsOwned(s, h, Cleared);
    case Refuse(h) => MoveKeepsRowsOwned(s, h, Answered(Unavailable));
    case Hand(h, id, ok) =>
      MoveKeepsRowsOwned(s, h, Phase.Dispatched(id, ok));
      assert Apply(s, e).rows == Moved(s, h, Phase.Dispatched(id, ok)).rows;
    case Unreserve(_, _) => ClosingKeepsRowsOwned(s, e);
    case Record(_, _, _) => ClosingKeepsRowsOwned(s, e);
  }

  lemma JournalStaysOwned(s: State, e: Event)
    requires RowsOwned(s) && JournalOwned(s) && Allowed(s, e)
    ensures JournalOwned(Apply(s, e))
  {
  }

  lemma HandedGrows(journal: seq<Dispatch>, longer: seq<Dispatch>, key: Key, digest: int, id: int, ok: bool)
    requires journal <= longer && Handed(journal, key, digest, id, ok)
    ensures Handed(longer, key, digest, id, ok)
  {
    var i :| 0 <= i < |journal| && journal[i].key == key && journal[i].digest == digest
             && journal[i].id == id && journal[i].ok == ok;
    assert longer[i] == journal[i];
  }

  lemma HandKeepsStatusTrue(s: State, e: Event)
    requires StatusTrue(s) && Allowed(s, e) && e.Hand?
    ensures StatusTrue(Apply(s, e))
  {
    var t := Apply(s, e);
    forall key, digest, id, ok | Handed(s.journal, key, digest, id, ok) ensures Handed(t.journal, key, digest, id, ok) {
      HandedGrows(s.journal, t.journal, key, digest, id, ok);
    }
    assert t.journal[|s.journal|].id == e.id;
    assert Handed(t.journal, s.handlers[e.h].key, s.handlers[e.h].digest, e.id, e.ok);
  }

  lemma RecordKeepsStatusTrue(s: State, e: Event)
    requires RowsOwned(s) && StatusTrue(s) && Allowed(s, e) && e.Record?
    ensures StatusTrue(Apply(s, e))
  {
    assert OwnsRow(s, e.h);
  }

  lemma StatusStaysTrue(s: State, e: Event)
    requires RowsOwned(s) && StatusTrue(s) && Allowed(s, e)
    ensures StatusTrue(Apply(s, e))
  {
    if e.Hand? {
      HandKeepsStatusTrue(s, e);
    } else if e.Record? {
      RecordKeepsStatusTrue(s, e);
    }
  }

  ghost predicate Inv(s: State) {
    RowsOwned(s) && JournalOwned(s) && StatusTrue(s)
  }

  lemma {:induction false} RunKeepsInv(states: seq<State>, events: seq<Event>, i: nat)
    requires Run(states, events) && i < |states|
    ensures Inv(states[i])
  {
    if i > 0 {
      RunKeepsInv(states, events, i - 1);
      RowsStayOwned(states[i - 1], events[i - 1]);
      JournalStaysOwned(states[i - 1], events[i - 1]);
      StatusStaysTrue(states[i - 1], events[i - 1]);
    }
  }

  // ---------------------------------------------------------------- main results

  /** Each request is handed to Telegram at most once, whatever its handlers do and wherever they stop. */
  lemma AtMostOneDispatch(states: seq<State>, events: seq<Event>, i: nat, a: nat, b: nat)
    requires Run(states, events) && i < |states|
    requires a < |states[i].journal| && b < |states[i].journal| && states[i].journal[a].key == states[i].journal[b].key
    ensures a == b
  {
    RunKeepsInv(states, events, i);
    var s := states[i];
    assert OwnsRow(s, s.journal[a].handler) && OwnsRow(s, s.journal[b].handler);
  }

  /** Once handed over, a request keeps its reservation for good: that handler's, with the digest that was sent. */
  lemma {:induction false} DispatchedStaysReserved(states: seq<State>, events: seq<Event>, i: nat, j: nat, a: nat)
    requires Run(states, events) && i <= j < |states| && a < |states[i].journal|
    ensures a < |states[j].journal| && states[j].journal[a] == states[i].journal[a]
    ensures states[i].journal[a].key in states[j].rows
    ensures states[j].rows[states[i].journal[a].key].digest == states[i].journal[a].digest
    ensures states[j].rows[states[i].journal[a].key].owner == states[i].journal[a].handler
    decreases j - i
  {
    RunKeepsInv(states, events, i);
    assert OwnsRow(states[i], states[i].journal[a].handler);
    if i < j {
      assert states[i].journal <= Apply(states[i], events[i]).journal;
      DispatchedStaysReserved(states, events, i + 1, j, a);
    }
  }

  /** A recorded acceptance, and every acceptance answered, carries the id of the one dispatch of that request. */
  lemma AcceptedCarriesItsDispatch(states: seq<State>, events: seq<Event>, i: nat)
    requires Run(states, events) && i < |states|
    ensures forall k :: k in states[i].rows && states[i].rows[k].status == Accepted ==>
              && states[i].rows[k].messageId.Some?
              && Handed(states[i].journal, k, states[i].rows[k].digest, states[i].rows[k].messageId.value, true)
    ensures forall h :: 0 <= h < |states[i].handlers| && states[i].handlers[h].phase.Answered?
                        && states[i].handlers[h].phase.answer.Sent? ==>
              Handed(states[i].journal, states[i].handlers[h].key, states[i].handlers[h].digest,
                     states[i].handlers[h].phase.answer.messageId, true)
  {
    RunKeepsInv(states, events, i);
  }

  /** A handler that meets a reservation never hands anything over, now or later. */
  lemma {:induction false} ConflictedNeverDispatches(states: seq<State>, events: seq<Event>, i: nat, j: nat, h: nat)
    requires Run(states, events) && i <= j < |states| && h < |states[i].handlers|
    requires states[i].handlers[h].phase.Conflicted? || states[i].handlers[h].phase.Answered?
    ensures h < |states[j].handlers| && (states[j].handlers[h].phase.Conflicted? || states[j].handlers[h].phase.Answered?)
    ensures forall a :: 0 <= a < |states[j].journal| && states[j].journal[a].handler == h ==>
              a < |states[i].journal| && states[j].journal[a] == states[i].journal[a]
    ensures states[i].handlers[h].phase.Conflicted? ==>
              forall a :: 0 <= a < |states[j].journal| ==> states[j].journal[a].handler != h
    decreases j - i
  {
    RunKeepsInv(states, events, i);
    if i < j {
      var s, e := states[i], events[i];
      assert Allowed(s, e) && states[i + 1] == Apply(s, e);
      ConflictedNeverDispatches(states, events, i + 1, j, h);
      assert s.journal <= states[i + 1].journal;
    }
  }

  /** A handler that is denied or refused hands nothing over, and what it answers says which of the two it was. */
  lemma {:induction false} DeniedNeverDispatches(states: seq<State>, events: seq<Event>, i: nat, j: nat, h: nat)
    requires Run(states, events) && i < j < |states| && (events[i] == Deny(h) || events[i] == Refuse(h))
    ensures h < |states[j].handlers|
    ensures forall a :: 0 <= a < |states[j].journal| ==> states[j].journal[a].handler != h
    ensures var phase := states[j].handlers[h].phase;
            if events[i].Deny? then phase == Denied || phase == Answered(LimitExceeded) else phase == Answered(Unavailable)
    decreases j
  {
    if j == i + 1 {
      RunKeepsInv(states, events, i);
    } else {
      DeniedNeverDispatches(states, events, i, j - 1, h);
    }
    assert Allowed(states[j - 1], events[j - 1]);
  }

  lemma {:induction false} HandedStays(states: seq<State>, events: seq<Event>, i: nat, j: nat)
    requires Run(states, events) && i < j < |states| && events[i].Hand?
    ensures events[i].h < |states[j].handlers|
    ensures var phase := states[j].handlers[events[i].h].phase;
            phase == Phase.Dispatched(events[i].id, events[i].ok) || phase.Answered?
    decreases j
  {
    if j > i + 1 {
      HandedStays(states, events, i, j - 1);
    }
    assert Allowed(states[j - 1], events[j - 1]);
  }

  lemma {:induction false} AnsweredStays(states: seq<State>, events: seq<Event>, i: nat, j: nat, h: nat)
    requires Run(states, events) && i <= j < |states| && h < |states[i].handlers| && states[i].handlers[h].phase.Answered?
    ensures h < |states[j].handlers| && states[j].handlers[h].phase == states[i].handlers[h].phase
    decreases j
  {
    if i < j {
      AnsweredStays(states, events, i, j - 1, h);
      assert Allowed(states[j - 1], events[j - 1]);
    }
  }

  /**
   A handler that handed its message over answers with its id if that went well and was recorded, and else that it
   cannot tell.
   */
  lemma DispatchIsAnswered(states: seq<State>, events: seq<Event>, i: nat, k: nat, j: nat)
    requires Run(states, events) && i < k < j < |states| && events[i].Hand? && events[k].Record? && events[k].h == events[i].h
    ensures events[i].h < |states[j].handlers|
    ensures states[j].handlers[events[i].h].phase
            == Answered(if events[i].ok && events[k].reported then Sent(events[i].id) else DeliveryUnknown)
  {
    HandedStays(states, events, i, k);
    assert Allowed(states[k], events[k]);
    AnsweredStays(states, events, k + 1, j, events[i].h);
  }

  /** The reservation says how its owner's call ended, and the owner is through. */
  ghost predicate Settled(s: State, k: Key, a: nat) {
    && k in s.rows && s.rows[k].status != Pending && s.rows[k].owner < |s.handlers|
    && a < |s.journal| && s.journal[a].key == k && s.journal[a].handler == s.rows[k].owner
    && !Owning(s.handlers[s.rows[k].owner].phase)
  }

  lemma SettledStays(s: State, e: Event, k: Key, a: nat)
    requires Inv(s) && Allowed(s, e) && Settled(s, k, a)
    ensures Settled(Apply(s, e), k, a) && Apply(s, e).rows[k] == s.rows[k]
  {
    assert OwnsRow(s, s.rows[k].owner);
    assert s.journal <= Apply(s, e).journal;
  }

  /** Once the outcome is written, the reservation keeps it for good. */
  lemma {:induction false} OutcomeStays(states: seq<State>, events: seq<Event>, i: nat, j: nat, k: Key, a: nat)
    requires Run(states, events) && i <= j < |states| && Settled(states[i], k, a)
    ensures k in states[j].rows && states[j].rows[k] == states[i].rows[k]
    decreases j - i
  {
    if i < j {
      RunKeepsInv(states, events, i);
      SettledStays(states[i], events[i], k, a);
      OutcomeStays(states, events, i + 1, j, k, a);
    }
  }

  /**
   What the last statement writes, if it executes, is the outcome of the call to Telegram: accepted or unknown, with
   its message id; and that is what the reservation says from then on.
   */
  lemma OutcomeIsRecorded(states: seq<State>, events: seq<Event>, i: nat, j: nat)
    requires Run(states, events) && i < j < |states| && events[i].Record? && events[i].executed
    requires events[i].h < |states[i].handlers| && states[i].handlers[events[i].h].phase.Dispatched?
    ensures var me := states[i].handlers[events[i].h];
            && me.key in states[j].rows && states[j].rows[me.key].digest == me.digest
            && states[j].rows[me.key].status == (if me.phase.ok then Accepted else Unknown)
            && states[j].rows[me.key].messageId == Some(me.phase.id)
  {
    RunKeepsInv(states, events, i);
    RunKeepsInv(states, events, i + 1);
    var s, h := states[i], events[i].h;
    var me := s.handlers[h];
    assert OwnsRow(s, h);
    assert Handed(s.journal, me.key, me.digest, me.phase.id, me.phase.ok);
    var a :| 0 <= a < |s.journal| && s.journal[a].key == me.key && s.journal[a].digest == me.digest
             && s.journal[a].id == me.phase.id && s.journal[a].ok == me.phase.ok;
    assert OwnsRow(s, s.journal[a].handler);
    assert states[i + 1].journal == s.journal;
    OutcomeStays(states, events, i + 1, j, me.key, a);
  }

  /**
   A retry is told the row's outcome: refused for another digest; the message's id if the same was accepted; and if it
   is pending or its delivery is unknown, just that. It changes nothing.
   */
  lemma RetryIsTold(states: seq<State>, events: seq<Event>, i: nat)
    requires Run(states, events) && i < |events| && events[i].Lookup?
    ensures events[i].h < |states[i].handlers|
    ensures var s, t, h := states[i], states[i + 1], events[i].h;
            var me, told := s.handlers[h], t.handlers[h].phase;
            && t.journal == s.journal && t.rows == s.rows
            && (me.key !in s.rows ==> told == Answered(Unavailable))
            && (me.key in s.rows && s.rows[me.key].digest != me.digest ==> told == Answered(UsedForAnother))
            && (me.key in s.rows && s.rows[me.key].digest == me.digest ==>
                  match s.rows[me.key].status
                  case Accepted => s.rows[me.key].messageId.Some? && told == Answered(Sent(s.rows[me.key].messageId.value))
                  case Pending => told == Answered(PendingOrUnknown)
                  case Unknown => told == Answered(PendingOrUnknown))
  {
    RunKeepsInv(states, events, i);
    assert Allowed(states[i], events[i]);
  }

  /** A request is reserved exactly when no reservation is there, and one that was taken back can be made again. */
  lemma ReservesIffFree(states: seq<State>, events: seq<Event>, i: nat)
    requires Run(states, events) && i < |events|
    ensures events[i].Insert? ==>
              var s, t, h := states[i], states[i + 1], events[i].h;
              && h < |s.handlers|
              && (if s.handlers[h].key in s.rows then t.rows == s.rows && t.handlers[h].phase == Conflicted
                  else t.rows == s.rows[s.handlers[h].key := Reservation(s.handlers[h].digest, Pending, None, h)]
                       && t.handlers[h].phase == Reserved)
    ensures events[i].Unreserve? && events[i].executed ==>
              events[i].h < |states[i].handlers| && states[i].handlers[events[i].h].key !in states[i + 1].rows
  {
    assert Allowed(states[i], events[i]);
  }

  /** A reservation changes only when its handler takes it back or records what became of it. */
  lemma ReservationStays(states: seq<State>, events: seq<Event>, i: nat, k: Key)
    requires Run(states, events) && i < |events| && k in states[i].rows
    requires (events[i].Unreserve? || events[i].Record?) && events[i].h < |states[i].handlers| ==>
               !events[i].executed || states[i].handlers[events[i].h].key != k
    ensures k in states[i + 1].rows && states[i + 1].rows[k] == states[i].rows[k]
  {
    assert Allowed(states[i], events[i]);
  }

  /**
   A retry that meets an accepted reservation is answered with the dispatch's id if its digest is the same, and
   refused if it is not; neither hands anything over.
   */
  lemma RetryIsAnswered(states: seq<State>, events: seq<Event>, i: nat)
    requires Run(states, events) && i < |events| && events[i].Lookup?
    requires var me := states[i].handlers[events[i].h]; me.key in states[i].rows && states[i].rows[me.key].status == Accepted
    ensures var me, after := states[i].handlers[events[i].h], states[i + 1];
            && after.journal == states[i].journal && after.rows == states[i].rows
            && (me.digest != after.rows[me.key].digest ==> after.handlers[events[i].h].phase == Answered(UsedForAnother))
            && (me.digest == after.rows[me.key].digest ==>
                  exists id :: after.handlers[events[i].h].phase == Answered(Sent(id))
                               && Handed(after.journal, me.key, me.digest, id, true))
  {
    RunKeepsInv(states, events, i);
    var me := states[i].handlers[events[i].h];
    var row := states[i].rows[me.key];
    assert Handed(states[i].journal, me.key, row.digest, row.messageId.value, true);
    HandedGrows(states[i].journal, states[i + 1].journal, me.key, row.digest, row.messageId.value, true);
  }
}
