/**
 The mirror of one chat's messages: upserts guarded by a version, tombstones that may arrive before their
 messages, and the view that hides what was deleted. Each SQL statement is one atomic step, so a run is any
 sequence of statements of any number of workers, stopped anywhere.
 */
module MessageMirror {
  import opened Common

  /** The columns a later version replaces together. */
  datatype Body = Body(kind: string, content: Option<string>, entities: string, forward: Option<string>, metadata: string)

  datatype Message = Message(id: int, sent: int, edited: Option<int>, body: Body,
                             sender: Option<int>, senderChat: Option<int>, reply: Option<int>)

  datatype Row = Row(sent: int, edited: Option<int>, body: Body,
                     sender: Option<int>, senderChat: Option<int>, reply: Option<int>, deleted: bool)

  datatype Mirror = Mirror(rows: map<int, Row>, tombstones: set<int>)

  const EMPTY := Mirror(map[], {})

  /** COALESCE(edited_at, sent_at). */
  function Version(sent: int, edited: Option<int>): int {
    if edited.Some? then edited.value else sent
  }

  function MessageVersion(m: Message): int {
    Version(m.sent, m.edited)
  }

  function RowVersion(row: Row): int {
    Version(row.sent, row.edited)
  }

  function Inserted(m: Message): Row {
    Row(m.sent, m.edited, m.body, m.sender, m.senderChat, m.reply, false)
  }

  /** ON CONFLICT DO UPDATE: only the body is guarded by the version; deleted is left alone. */
  function Updated(row: Row, m: Message): Row {
    Row(m.sent, Greatest(m.edited, row.edited),
        if MessageVersion(m) >= RowVersion(row) then m.body else row.body,
        m.sender, m.senderChat, m.reply, row.deleted)
  }

  function AfterUpsert(s: Mirror, m: Message): Mirror {
    s.(rows := s.rows[m.id := if m.id in s.rows then Updated(s.rows[m.id], m) else Inserted(m)])
  }

  function AfterTombstone(s: Mirror, id: int): Mirror {
    s.(tombstones := s.tombstones + {id})
  }

  function AfterTombstones(s: Mirror, ids: seq<int>): Mirror {
    s.(tombstones := s.tombstones + Elements(ids))
  }

  function AfterApply(s: Mirror): Mirror {
    s.(rows := map id | id in s.rows :: if id in s.tombstones then s.rows[id].(deleted := true) else s.rows[id])
  }

  /** An edit notice overwrites the edit time of a stored message, whatever it was. */
  function AfterEditNotice(s: Mirror, id: int, at: Option<int>): Mirror {
    if id in s.rows then s.(rows := s.rows[id := s.rows[id].(edited := at)]) else s
  }

  /** A content update overwrites the text of a stored message and dates its edit now, whatever was stored. */
  function AfterContent(s: Mirror, id: int, content: Option<string>, entities: string, now: int): Mirror {
    if id in s.rows
    then s.(rows := s.rows[id := s.rows[id].(body := Rewritten(s.rows[id].body, content, entities), edited := Some(now))])
    else s
  }

  function Rewritten(body: Body, content: Option<string>, entities: string): Body {
    body.(content := content, entities := entities)
  }

  /** The view active_messages, for a chat that is itself active. */
  predicate Visible(s: Mirror, id: int) {
    id in s.rows && !s.rows[id].deleted && id !in s.tombstones
  }

  // ---------------------------------------------------------------- the statements, on the table

  class MessageStore {
    var rows: map<int, Row>
    var tombstones: set<int>

    function Model(): Mirror
      reads this
    {
      Mirror(rows, tombstones)
    }

    constructor ()
      ensures Model() == EMPTY
    {
      rows, tombstones := map[], {};
    }

    /** False is the validation error; nothing is written then. */
    method Upsert(m: Message) returns (ok: bool)
      modifies this
      ensures ok <==> m.id != 0 && m.body.kind != ""
      ensures Model() == if ok then AfterUpsert(old(Model()), m) else old(Model())
      ensures ok ==> m.id in rows && rows[m.id].deleted == (m.id in old(rows) && old(rows)[m.id].deleted)
    {
      if m.id == 0 || m.body.kind == "" {
        return false;
      }
      if m.id !in rows {
        rows := rows[m.id := Inserted(m)];
      } else {
        var row := rows[m.id];
        if MessageVersion(m) >= RowVersion(row) {
          row := row.(body := m.body);
        }
        row := row.(sent := m.sent, edited := Greatest(m.edited, row.edited),
                    sender := m.sender, senderChat := m.senderChat, reply := m.reply);
        rows := rows[m.id := row];
      }
      return true;
    }

    method ApplyTombstones()
      modifies this`rows
      ensures Model() == AfterApply(old(Model()))
    {
      rows := map id | id in rows :: if id in tombstones then rows[id].(deleted := true) else rows[id];
    }

    /** A stored message obeys deletions that arrived before it, even if they did so before the chat was known. */
    method StoreMessage(m: Message) returns (ok: bool)
      modifies this
      ensures ok <==> m.id != 0 && m.body.kind != ""
      ensures Model() == if ok then AfterApply(AfterUpsert(old(Model()), m)) else old(Model())
    {
      ok := Upsert(m);
      if ok {
        ApplyTombstones();
      }
    }

    method UpdateContent(id: int, content: Option<string>, entities: string, now: int)
      modifies this`rows
      ensures Model() == AfterContent(old(Model()), id, content, entities, now)
      ensures id in old(rows) ==>
                && id in rows && rows[id].edited == Some(now)
                && rows[id].body == Body(old(rows)[id].body.kind, content, entities, old(rows)[id].body.forward,
                                         old(rows)[id].body.metadata)
    {
      if id in rows {
        rows := rows[id := rows[id].(body := Rewritten(rows[id].body, content, entities), edited := Some(now))];
      }
    }

    method UpdateEdited(id: int, at: Option<int>)
      modifies this`rows
      ensures Model() == AfterEditNotice(old(Model()), id, at)
    {
      if id in rows {
        rows := rows[id := rows[id].(edited := at)];
      }
    }

    /** The deletion update: one tombstone a message, then, if the chat is known, the marks. */
    method DeleteMessages(ids: seq<int>, permanent: bool, chatKnown: bool)
      modifies this
      ensures Model() == (if !permanent then old(Model())
                          else if chatKnown then AfterApply(AfterTombstones(old(Model()), ids))
                          else AfterTombstones(old(Model()), ids))
      ensures permanent ==> forall id :: id in ids ==> !Visible(Model(), id)
    {
      if permanent {
        var i := 0;
        while i < |ids|
          invariant 0 <= i <= |ids| && rows == old(rows)
          invariant tombstones == old(tombstones) + Elements(ids[..i])
        {
          tombstones := tombstones + {ids[i]};
          assert ids[..i + 1] == ids[..i] + [ids[i]];
          i := i + 1;
        }
        assert ids[..i] == ids;
        if chatKnown {
          ApplyTombstones();
        }
      }
    }
  }

  // ---------------------------------------------------------------- runs

  datatype Event =
    | Upsert(message: Message)
    | Tombstone(id: int)
    | Apply
    | EditNotice(target: int, at: Option<int>)
    | Content(target: int, content: Option<string>, entities: string, now: int)

  function Step(s: Mirror, e: Event): Mirror {
    match e
    case Upsert(m) => AfterUpsert(s, m)
    case Tombstone(id) => AfterTombstone(s, id)
    case Apply => AfterApply(s)
    case EditNotice(id, at) => AfterEditNotice(s, id, at)
    case Content(id, content, entities, now) => AfterContent(s, id, content, entities, now)
  }

  function Run(events: seq<Event>): Mirror {
    if events == [] then EMPTY else Step(Run(events[..|events| - 1]), events[|events| - 1])
  }

  /** Nothing writes an edit time unconditionally. */
  predicate Plain(events: seq<Event>) {
    forall i :: 0 <= i < |events| ==> !events[i].EditNotice? && !events[i].Content?
  }

  ghost predicate Sighting(events: seq<Event>, m: Message) {
    Upsert(m) in events
  }

  ghost predicate Sighted(events: seq<Event>, id: int) {
    exists m: Message :: Sighting(events, m) && m.id == id
  }

  function Front(events: seq<Event>): seq<Event>
    requires events != []
  {
    events[..|events| - 1]
  }

  function Last(events: seq<Event>): Event
    requires events != []
  {
    events[|events| - 1]
  }

  lemma InFrontOrLast(events: seq<Event>, e: Event)
    requires events != []
    ensures e in events <==> e in Front(events) || e == Last(events)
  {
    assert events == Front(events) + [Last(events)];
  }

  lemma RunExtends(events: seq<Event>, e: Event)
    ensures Run(events + [e]) == Step(Run(events), e)
    ensures Front(events + [e]) == events && Last(events + [e]) == e
  {
    assert Front(events + [e]) == events;
  }

  // ---------------------------------------------------------------- which messages are stored and shown

  /** A row is stored for what was upserted; only tombstones mark it. */
  lemma {:induction false} StoredIffSighted(events: seq<Event>, id: int)
    ensures id in Run(events).rows <==> Sighted(events, id)
    ensures id in Run(events).tombstones <==> Tombstone(id) in events
    ensures id in Run(events).rows && Run(events).rows[id].deleted ==> Tombstone(id) in events
  {
    if events != [] {
      StoredIffSighted(Front(events), id);
      InFrontOrLast(events, Tombstone(id));
      forall m: Message ensures Sighting(events, m) <==> Sighting(Front(events), m) || Last(events) == Upsert(m) {
        InFrontOrLast(events, Upsert(m));
      }
      if Last(events).Upsert? {
        assert Sighting(events, Last(events).message);
      }
    }
  }

  /** In any run a message is visible exactly when it was stored and never deleted, whichever came first. */
  lemma VisibleIffStoredAndNotDeleted(events: seq<Event>, id: int)
    ensures Visible(Run(events), id) <==> Sighted(events, id) && Tombstone(id) !in events
  {
    StoredIffSighted(events, id);
  }

  // ---------------------------------------------------------------- which body is stored

  /** All sightings of the message agree on when it was sent. */
  ghost predicate SameSent(events: seq<Event>, id: int) {
    forall m, n :: Sighting(events, m) && Sighting(events, n) && m.id == n.id == id ==> m.sent == n.sent
  }

  /** Every edit that was seen is at or before this time. */
  ghost predicate EditsUpTo(events: seq<Event>, id: int, time: int) {
    forall x :: Sighting(events, x) && x.id == id && x.edited.Some? ==> x.edited.value <= time
  }

  /** A sighting whose body can be the last word: the newest edit, or one without an edit if no edit is later than it. */
  ghost predicate Decisive(events: seq<Event>, m: Message) {
    Sighting(events, m) && EditsUpTo(events, m.id, MessageVersion(m))
  }

  /** The stored edit time is the newest one seen. */
  ghost predicate HoldsNewestEdit(events: seq<Event>, row: Row, id: int) {
    && (row.edited.Some? ==> exists x :: Sighting(events, x) && x.id == id && x.edited == row.edited)
    && (forall x :: Sighting(events, x) && x.id == id && x.edited.Some? ==>
          row.edited.Some? && x.edited.value <= row.edited.value)
  }

  /** The row holds a decisive sighting's body. */
  ghost predicate Holds(events: seq<Event>, row: Row, m: Message) {
    && Decisive(events, m) && row.body == m.body && row.sent == m.sent && HoldsNewestEdit(events, row, m.id)
  }

  lemma SightingsSplit(events: seq<Event>, m: Message)
    requires events != []
    ensures Sighting(events, m) <==> Sighting(Front(events), m) || Last(events) == Upsert(m)
  {
    InFrontOrLast(events, Upsert(m));
  }

  /** A statement that is no sighting of this message leaves what its row holds alone. */
  lemma HoldsOn(events: seq<Event>, row: Row, m: Message)
    requires events != [] && Holds(Front(events), row, m)
    requires forall x :: Last(events) == Upsert(x) ==> x.id != m.id
    ensures Holds(events, row, m) && Holds(events, row.(deleted := true), m)
  {
    forall x ensures Sighting(events, x) && x.id == m.id <==> Sighting(Front(events), x) && x.id == m.id {
      SightingsSplit(events, x);
    }
  }

  lemma FirstSighting(events: seq<Event>, m: Message)
    requires events != [] && Last(events) == Upsert(m) && !Sighted(Front(events), m.id)
    ensures Holds(events, Inserted(m), m)
  {
    forall x ensures Sighting(events, x) && x.id == m.id <==> x == m {
      SightingsSplit(events, x);
    }
  }

  lemma NewestEditGrows(events: seq<Event>, row: Row, x: Message)
    requires events != [] && Last(events) == Upsert(x) && HoldsNewestEdit(Front(events), row, x.id)
    ensures HoldsNewestEdit(events, Updated(row, x), x.id)
  {
    forall y ensures Sighting(events, y) <==> Sighting(Front(events), y) || y == x {
      SightingsSplit(events, y);
    }
    if row.edited.Some? {
      var y: Message :| Sighting(Front(events), y) && y.id == x.id && y.edited == row.edited;
      assert Sighting(events, y);
    }
    assert Sighting(events, x);
  }

  /** The version guard: the later of the stored and the new one decides. */
  lemma NextSighting(events: seq<Event>, row: Row, m: Message, x: Message) returns (newest: Message)
    requires events != [] && Last(events) == Upsert(x) && x.id == m.id
    requires SameSent(events, m.id) && Holds(Front(events), row, m)
    ensures newest.id == m.id && Holds(events, Updated(row, x), newest)
  {
    newest := if MessageVersion(x) >= RowVersion(row) then x else m;
    NewestEditGrows(events, row, x);
    SightingsSplit(events, m);
    SightingsSplit(events, x);
    forall y | Sighting(events, y) && y.id == m.id && y.edited.Some?
      ensures y.edited.value <= MessageVersion(newest)
    {
      SightingsSplit(events, y);
    }
  }

  lemma {:induction false} RunHolds(events: seq<Event>, id: int)
    requires Plain(events) && SameSent(events, id) && Sighted(events, id)
    ensures id in Run(events).rows
    ensures exists m: Message :: m.id == id && Holds(events, Run(events).rows[id], m)
  {
    var front, e := Front(events), Last(events);
    StoredIffSighted(events, id);
    StoredIffSighted(front, id);
    forall m: Message ensures Sighting(events, m) <==> Sighting(front, m) || e == Upsert(m) {
      SightingsSplit(events, m);
    }
    assert forall i :: 0 <= i < |front| ==> front[i] == events[i];
    if Sighted(front, id) {
      RunHolds(front, id);
      var row := Run(front).rows[id];
      var m: Message :| m.id == id && Holds(front, row, m);
      if e.Upsert? && e.message.id == id {
        var newest := NextSighting(events, row, m, e.message);
        assert newest.id == id && Holds(events, Run(events).rows[id], newest);
      } else {
        HoldsOn(events, row, m);
        assert !e.EditNotice? && !e.Content?;
        assert m.id == id && Holds(events, Run(events).rows[id], m);
      }
    } else {
      FirstSighting(events, e.message);
      assert e.message.id == id && Holds(events, Run(events).rows[id], e.message);
    }
  }

  // ---------------------------------------------------------------- the stored version

  predicate NotEditedEarly(m: Message) {
    m.edited.Some? ==> m.sent <= m.edited.value
  }

  ghost predicate EqualVersionsAgree(events: seq<Event>, id: int) {
    forall m, n :: Sighting(events, m) && Sighting(events, n) && m.id == n.id == id ==>
      MessageVersion(m) == MessageVersion(n) ==> m.body == n.body
  }

  /** No sighting of the message was edited before it was sent, and equal versions say the same. */
  ghost predicate WellDated(events: seq<Event>, id: int) {
    && (forall m :: Sighting(events, m) && m.id == id ==> NotEditedEarly(m))
    && EqualVersionsAgree(events, id)
  }

  /** The newest sighting of a message. */
  ghost predicate Newest(events: seq<Event>, m: Message) {
    && Sighting(events, m)
    && forall x :: Sighting(events, x) && x.id == m.id ==> MessageVersion(x) <= MessageVersion(m)
  }

  /**
   After any statements in any order and any number of times, the stored version of a message is the greatest
   one seen, and its guarded columns are that version's.
   */
  lemma NewestVersionIsStored(events: seq<Event>, m: Message)
    requires Plain(events) && SameSent(events, m.id) && WellDated(events, m.id) && Newest(events, m)
    ensures m.id in Run(events).rows
    ensures var row := Run(events).rows[m.id];
            RowVersion(row) == MessageVersion(m) && row.body == m.body && row.sent == m.sent
  {
    assert Sighted(events, m.id);
    RunHolds(events, m.id);
    var row := Run(events).rows[m.id];
    var n: Message :| n.id == m.id && Holds(events, row, n);
    assert MessageVersion(n) <= MessageVersion(m);
    assert m.edited.Some? ==> m.edited.value <= MessageVersion(n);
    if row.edited.Some? {
      var x: Message :| Sighting(events, x) && x.id == m.id && x.edited == row.edited;
      assert MessageVersion(x) <= MessageVersion(m);
    }
  }

  // ---------------------------------------------------------------- when order does not matter

  /** The guarded columns: what order must not change. */
  datatype Guarded = Guarded(sent: int, edited: Option<int>, body: Body)

  function View(s: Mirror): map<int, Guarded> {
    map id | id in s.rows && Visible(s, id) :: Guarded(s.rows[id].sent, s.rows[id].edited, s.rows[id].body)
  }

  /** What the mirror shows of one message. */
  function Shows(s: Mirror, id: int): Option<Guarded> {
    if id in View(s) then Some(View(s)[id]) else None
  }

  /** The same upserts and tombstones, in any order and number; how often tombstones were applied is left open. */
  ghost predicate SameStatements(events: seq<Event>, other: seq<Event>) {
    forall e: Event :: !e.Apply? ==> (e in events <==> e in other)
  }

  /** The sightings leave no choice: one send time, and one body among the decisive ones. */
  ghost predicate Settled(events: seq<Event>, id: int) {
    && SameSent(events, id)
    && forall m, n :: Decisive(events, m) && Decisive(events, n) && m.id == n.id == id ==> m.body == n.body
  }

  ghost predicate SameSightings(events: seq<Event>, other: seq<Event>) {
    forall m :: Sighting(events, m) <==> Sighting(other, m)
  }

  lemma StatementsAreSightings(events: seq<Event>, other: seq<Event>)
    requires SameStatements(events, other)
    ensures SameSightings(events, other) && (Plain(events) ==> Plain(other))
  {
    forall m ensures Sighting(events, m) <==> Sighting(other, m) {
    }
    forall i | 0 <= i < |other| && (other[i].EditNotice? || other[i].Content?) ensures other[i] in events {
      assert other[i] in other;
    }
  }

  lemma NewestEditsAgree(events: seq<Event>, other: seq<Event>, a: Row, b: Row, id: int)
    requires SameSightings(events, other) && HoldsNewestEdit(events, a, id) && HoldsNewestEdit(other, b, id)
    ensures a.edited == b.edited
  {
    if a.edited.Some? {
      var x: Message :| Sighting(events, x) && x.id == id && x.edited == a.edited;
      assert Sighting(other, x);
    }
    if b.edited.Some? {
      var x: Message :| Sighting(other, x) && x.id == id && x.edited == b.edited;
      assert Sighting(events, x);
    }
  }

  lemma DecisiveCarries(events: seq<Event>, other: seq<Event>, m: Message)
    requires SameSightings(events, other) && Decisive(other, m)
    ensures Decisive(events, m)
  {
    forall x | Sighting(events, x) && x.id == m.id && x.edited.Some? ensures x.edited.value <= MessageVersion(m) {
      assert Sighting(other, x);
    }
  }

  lemma SameRow(events: seq<Event>, other: seq<Event>, id: int)
    requires Plain(events) && Plain(other) && SameSightings(events, other)
    requires Sighted(events, id) && Settled(events, id)
    ensures id in Run(events).rows && id in Run(other).rows
    ensures var a, b := Run(events).rows[id], Run(other).rows[id];
            a.sent == b.sent && a.edited == b.edited && a.body == b.body
  {
    assert SameSent(other, id);
    RunHolds(events, id);
    RunHolds(other, id);
    var a, b := Run(events).rows[id], Run(other).rows[id];
    var m: Message :| m.id == id && Holds(events, a, m);
    var n: Message :| n.id == id && Holds(other, b, n);
    NewestEditsAgree(events, other, a, b, id);
    DecisiveCarries(events, other, n);
  }

  lemma SettledMessageAgrees(events: seq<Event>, other: seq<Event>, id: int)
    requires Plain(events) && SameStatements(events, other)
    requires Sighted(events, id) && Tombstone(id) !in events ==> Settled(events, id)
    ensures Shows(Run(other), id) == Shows(Run(events), id)
  {
    StatementsAreSightings(events, other);
    VisibleIffStoredAndNotDeleted(events, id);
    VisibleIffStoredAndNotDeleted(other, id);
    if Visible(Run(events), id) {
      SameRow(events, other, id);
    }
  }

  lemma SettledRunsAgree(events: seq<Event>, other: seq<Event>)
    requires Plain(events) && SameStatements(events, other)
    requires forall id :: Sighted(events, id) && Tombstone(id) !in events ==> Settled(events, id)
    ensures View(Run(other)) == View(Run(events))
  {
    forall id ensures Shows(Run(other), id) == Shows(Run(events), id) {
      SettledMessageAgrees(events, other, id);
    }
    SameShown(Run(other), Run(events));
  }

  lemma SameShown(s: Mirror, t: Mirror)
    requires forall id :: Shows(s, id) == Shows(t, id)
    ensures View(s) == View(t)
  {
    forall id ensures id in View(s) <==> id in View(t)
      ensures id in View(s) ==> View(s)[id] == View(t)[id]
    {
      assert Shows(s, id) == Shows(t, id);
    }
  }

  /** Delivering a sighting once more stores its send time, and its body if it is decisive. */
  lemma Redelivery(events: seq<Event>, m: Message)
    requires Plain(events) && Sighting(events, m) && Tombstone(m.id) !in events
    ensures var more := events + [Upsert(m)];
            && SameStatements(events, more) && m.id in View(Run(more)) && View(Run(more))[m.id].sent == m.sent
            && (SameSent(events, m.id) && Decisive(events, m) ==> View(Run(more))[m.id].body == m.body)
  {
    var more := events + [Upsert(m)];
    RunExtends(events, Upsert(m));
    forall e: Event ensures e in more <==> e in events {
      InFrontOrLast(more, e);
    }
    assert Sighting(more, m);
    VisibleIffStoredAndNotDeleted(more, m.id);
    StoredIffSighted(events, m.id);
    if SameSent(events, m.id) && Decisive(events, m) {
      RunHolds(events, m.id);
      var row := Run(events).rows[m.id];
      var n: Message :| n.id == m.id && Holds(events, row, n);
      if row.edited.Some? {
        var x: Message :| Sighting(events, x) && x.id == m.id && x.edited == row.edited;
      }
      assert MessageVersion(m) >= RowVersion(row);
    }
  }

  /** All runs of the same upserts and tombstones, permuted and repeated at will, show the same messages. */
  ghost predicate OrderDoesNotMatter(events: seq<Event>) {
    forall other :: SameStatements(events, other) ==> View(Run(other)) == View(Run(events))
  }

  /** They show the same of one message. */
  ghost predicate OrderDoesNotMatterFor(events: seq<Event>, id: int) {
    forall other :: SameStatements(events, other) ==> Shows(Run(other), id) == Shows(Run(events), id)
  }

  lemma RedeliveriesAgree(events: seq<Event>, m: Message, n: Message)
    requires Plain(events) && OrderDoesNotMatterFor(events, m.id) && Tombstone(m.id) !in events
    requires Sighting(events, m) && Sighting(events, n) && m.id == n.id
    ensures m.sent == n.sent
    ensures SameSent(events, m.id) && Decisive(events, m) && Decisive(events, n) ==> m.body == n.body
  {
    Redelivery(events, m);
    Redelivery(events, n);
    assert Shows(Run(events + [Upsert(m)]), m.id) == Shows(Run(events + [Upsert(n)]), m.id);
  }

  lemma AgreeingRunsAreSettled(events: seq<Event>, id: int)
    requires Plain(events) && OrderDoesNotMatterFor(events, id) && Tombstone(id) !in events
    ensures Settled(events, id)
  {
    forall m, n | Sighting(events, m) && Sighting(events, n) && m.id == n.id == id ensures m.sent == n.sent {
      RedeliveriesAgree(events, m, n);
    }
    forall m, n | Decisive(events, m) && Decisive(events, n) && m.id == n.id == id ensures m.body == n.body {
      RedeliveriesAgree(events, m, n);
    }
  }

  /** For one message that was not deleted, order does not matter if and only if its sightings settle it. */
  lemma OrderDoesNotMatterForIff(events: seq<Event>, id: int)
    requires Plain(events) && Sighted(events, id) && Tombstone(id) !in events
    ensures OrderDoesNotMatterFor(events, id) <==> Settled(events, id)
  {
    if OrderDoesNotMatterFor(events, id) {
      AgreeingRunsAreSettled(events, id);
    }
    if Settled(events, id) {
      forall other | SameStatements(events, other) ensures Shows(Run(other), id) == Shows(Run(events), id) {
        SettledMessageAgrees(events, other, id);
      }
    }
  }

  /** Order does not matter if and only if every message that was not deleted is settled by its sightings. */
  lemma OrderDoesNotMatterIff(events: seq<Event>)
    requires Plain(events)
    ensures OrderDoesNotMatter(events)
            <==> forall id :: Sighted(events, id) && Tombstone(id) !in events ==> Settled(events, id)
  {
    if OrderDoesNotMatter(events) {
      forall id | Sighted(events, id) && Tombstone(id) !in events ensures Settled(events, id) {
        assert OrderDoesNotMatterFor(events, id);
        OrderDoesNotMatterForIff(events, id);
      }
    }
    if forall id :: Sighted(events, id) && Tombstone(id) !in events ==> Settled(events, id) {
      forall other | SameStatements(events, other) ensures View(Run(other)) == View(Run(events)) {
        SettledRunsAgree(events, other);
      }
    }
  }

  /** Some edit is the newest one and was made before the message was sent. */
  ghost predicate NewestEditIsEarly(events: seq<Event>, e: Message) {
    && Sighting(events, e) && e.edited.Some? && e.edited.value < e.sent
    && EditsUpTo(events, e.id, e.edited.value)
  }

  /** An unedited sighting and an early newest edit that say different things. */
  ghost predicate Conflict(events: seq<Event>, u: Message, e: Message) {
    u.id == e.id && Sighting(events, u) && u.edited == None && NewestEditIsEarly(events, e) && u.body != e.body
  }

  lemma UnsettledIffConflict(events: seq<Event>, id: int)
    requires SameSent(events, id) && EqualVersionsAgree(events, id)
    ensures !Settled(events, id) <==> exists u: Message, e: Message :: u.id == id && Conflict(events, u, e)
  {
    if !Settled(events, id) {
      var m, n :| Decisive(events, m) && Decisive(events, n) && m.id == n.id == id && m.body != n.body;
      var u, e := if m.edited.None? then m else n, if m.edited.None? then n else m;
      assert e.edited.Some? && e.edited.value <= MessageVersion(u);
      assert u.id == id && Conflict(events, u, e);
    }
    forall u: Message, e: Message | u.id == id && Conflict(events, u, e) ensures !Settled(events, id) {
      assert Decisive(events, u) && Decisive(events, e);
    }
  }

  /**
   Where equal versions say the same, runs of the same statements show different things of a message exactly when its
   newest edit is dated before the message was sent, it was also seen without an edit, and the two bodies differ. A
   later edit makes early ones harmless.
   */
  lemma EarlyEditMattersIff(events: seq<Event>, id: int)
    requires Plain(events) && Sighted(events, id) && Tombstone(id) !in events
    requires SameSent(events, id) && EqualVersionsAgree(events, id)
    ensures !OrderDoesNotMatterFor(events, id) <==> exists u: Message, e: Message :: u.id == id && Conflict(events, u, e)
  {
    OrderDoesNotMatterForIff(events, id);
    UnsettledIffConflict(events, id);
  }

  // ---------------------------------------------------------------- the unguarded columns

  datatype Unguarded = Unguarded(sender: Option<int>, senderChat: Option<int>, reply: Option<int>)

  function UnguardedOf(m: Message): Unguarded {
    Unguarded(m.sender, m.senderChat, m.reply)
  }

  function UnguardedIn(s: Mirror, id: int): Option<Unguarded> {
    if id in s.rows then Some(Unguarded(s.rows[id].sender, s.rows[id].senderChat, s.rows[id].reply)) else None
  }

  /** The unguarded columns are simply those of the last upsert. */
  lemma {:induction false} UnguardedColumnsAreTheLast(events: seq<Event>, k: nat)
    requires k < |events| && events[k].Upsert?
    requires forall j :: k < j < |events| && events[j].Upsert? ==> events[j].message.id != events[k].message.id
    ensures UnguardedIn(Run(events), events[k].message.id) == Some(UnguardedOf(events[k].message))
  {
    var before := events[..|events| - 1];
    if k < |events| - 1 {
      assert before[k] == events[k];
      assert forall j :: k < j < |before| ==> before[j] == events[j];
      UnguardedColumnsAreTheLast(before, k);
    }
  }

  lemma {:induction false} UnguardedAreOfSomeSighting(events: seq<Event>, id: int)
    requires Sighted(events, id)
    ensures exists m: Message :: Sighting(events, m) && m.id == id && UnguardedIn(Run(events), id) == Some(UnguardedOf(m))
    ensures exists m: Message :: Sighting(events, m) && m.id == id && id in Run(events).rows && Run(events).rows[id].sent == m.sent
  {
    var front, e := Front(events), Last(events);
    forall m: Message ensures Sighting(events, m) <==> Sighting(front, m) || e == Upsert(m) {
      SightingsSplit(events, m);
    }
    if e.Upsert? && e.message.id == id {
      assert Sighting(events, e.message);
    } else {
      UnguardedAreOfSomeSighting(front, id);
      var m: Message :| Sighting(front, m) && m.id == id && UnguardedIn(Run(front), id) == Some(UnguardedOf(m));
      assert Sighting(events, m) && UnguardedIn(Run(events), id) == Some(UnguardedOf(m));
      var n: Message :| Sighting(front, n) && n.id == id && id in Run(front).rows && Run(front).rows[id].sent == n.sent;
      assert Sighting(events, n) && Run(events).rows[id].sent == n.sent;
    }
  }

  /** All runs of the same statements agree on a message's unguarded columns exactly when all its sightings do. */
  lemma UnguardedOrderIff(events: seq<Event>, id: int)
    requires Sighted(events, id)
    ensures (forall other :: SameStatements(events, other) ==> UnguardedIn(Run(other), id) == UnguardedIn(Run(events), id))
            <==> (forall m, n :: Sighting(events, m) && Sighting(events, n) && m.id == n.id == id ==>
                    UnguardedOf(m) == UnguardedOf(n))
  {
    if forall m, n :: Sighting(events, m) && Sighting(events, n) && m.id == n.id == id ==> UnguardedOf(m) == UnguardedOf(n) {
      forall other | SameStatements(events, other) ensures UnguardedIn(Run(other), id) == UnguardedIn(Run(events), id) {
        forall m ensures Sighting(events, m) <==> Sighting(other, m) {
        }
        UnguardedAreOfSomeSighting(events, id);
        UnguardedAreOfSomeSighting(other, id);
      }
    }
    if forall other :: SameStatements(events, other) ==> UnguardedIn(Run(other), id) == UnguardedIn(Run(events), id) {
      forall m | Sighting(events, m) && m.id == id ensures UnguardedIn(Run(events), id) == Some(UnguardedOf(m)) {
        var more := events + [Upsert(m)];
        RunExtends(events, Upsert(m));
        forall e: Event ensures e in more <==> e in events {
          InFrontOrLast(more, e);
        }
        assert SameStatements(events, more);
      }
    }
  }

  // ---------------------------------------------------------------- edit notices and content updates

  function BodyIn(s: Mirror, id: int): Option<Body> {
    if id in s.rows then Some(s.rows[id].body) else None
  }

  /** Upserts that were executed before, delivered again in any order and number. */
  ghost predicate Redelivered(events: seq<Event>, more: seq<Event>) {
    forall i :: 0 <= i < |more| ==> more[i].Upsert? && more[i] in events
  }

  /** Every sighting that says something else than this is older than this time. */
  ghost predicate OthersAreOlder(events: seq<Event>, id: int, body: Body, at: Option<int>) {
    forall m :: Sighting(events, m) && m.id == id && m.body != body ==> at.Some? && MessageVersion(m) < at.value
  }

  /** A row that holds this body under this edit time, or a later one. */
  predicate Dated(s: Mirror, id: int, body: Body, at: Option<int>) {
    && id in s.rows && s.rows[id].body == body
    && (at.Some? ==> s.rows[id].edited.Some? && at.value <= s.rows[id].edited.value)
  }

  lemma {:induction false} RedeliveriesKeepBody(events: seq<Event>, id: int, body: Body, at: Option<int>, start: Mirror,
                                                more: seq<Event>)
    requires Dated(start, id, body, at) && OthersAreOlder(events, id, body, at) && Redelivered(events, more)
    ensures Dated(RunFrom(start, more), id, body, at)
  {
    if more != [] {
      assert forall i :: 0 <= i < |Front(more)| ==> Front(more)[i] == more[i];
      RedeliveriesKeepBody(events, id, body, at, start, Front(more));
      assert Last(more) in events;
      assert Sighting(events, Last(more).message);
    }
  }

  /** A run that goes on from a mirror. */
  function RunFrom(s: Mirror, events: seq<Event>): Mirror {
    if events == [] then s else Step(RunFrom(s, events[..|events| - 1]), events[|events| - 1])
  }

  lemma {:induction false} RunsCompose(events: seq<Event>, more: seq<Event>)
    ensures Run(events + more) == RunFrom(Run(events), more)
  {
    if more == [] {
      assert events + more == events;
    } else {
      RunsCompose(events, Front(more));
      assert events + more == events + Front(more) + [Last(more)];
      RunExtends(events + Front(more), Last(more));
    }
  }

  /** The mirror after a statement and some redeliveries. */
  function AfterAnd(events: seq<Event>, e: Event, more: seq<Event>): Mirror {
    Run(events + [e] + more)
  }

  lemma AfterAndIs(events: seq<Event>, e: Event, more: seq<Event>)
    ensures AfterAnd(events, e, more) == RunFrom(Step(Run(events), e), more)
  {
    RunExtends(events, e);
    RunsCompose(events + [e], more);
  }

  /** A sighting that is not older than the row's edit time, delivered again once or twice, brings its body back. */
  lemma RedeliveryReplaces(start: Mirror, m: Message)
    requires m.id in start.rows && start.rows[m.id].sent == m.sent
    requires start.rows[m.id].edited.Some? ==> MessageVersion(m) >= start.rows[m.id].edited.value
    ensures || BodyIn(RunFrom(start, [Upsert(m)]), m.id) == Some(m.body)
            || BodyIn(RunFrom(start, [Upsert(m), Upsert(m)]), m.id) == Some(m.body)
  {
    assert RunFrom(start, [Upsert(m)][..0]) == start;
    assert [Upsert(m), Upsert(m)][..1] == [Upsert(m)];
    assert RunFrom(start, [Upsert(m)]) == AfterUpsert(start, m);
  }

  /** Whatever is delivered again after the statement, the message says what the statement left. */
  ghost predicate Harmless(events: seq<Event>, e: Event, id: int) {
    forall more :: Redelivered(events, more) ==> BodyIn(AfterAnd(events, e, more), id) == BodyIn(Step(Run(events), e), id)
  }

  lemma OlderOthersAreHarmless(events: seq<Event>, e: Event, id: int, row: Row)
    requires id in Step(Run(events), e).rows && row == Step(Run(events), e).rows[id]
    requires OthersAreOlder(events, id, row.body, row.edited)
    ensures Harmless(events, e, id)
  {
    var start := Step(Run(events), e);
    forall more | Redelivered(events, more) ensures BodyIn(AfterAnd(events, e, more), id) == Some(row.body) {
      AfterAndIs(events, e, more);
      RedeliveriesKeepBody(events, id, row.body, row.edited, start, more);
    }
  }

  lemma NotOlderHarms(events: seq<Event>, e: Event, m: Message)
    requires Sighting(events, m) && m.id in Step(Run(events), e).rows
    requires var row := Step(Run(events), e).rows[m.id];
             m.body != row.body && row.sent == m.sent && (row.edited.Some? ==> MessageVersion(m) >= row.edited.value)
    ensures !Harmless(events, e, m.id)
  {
    var once, twice := [Upsert(m)], [Upsert(m), Upsert(m)];
    RedeliveryReplaces(Step(Run(events), e), m);
    AfterAndIs(events, e, once);
    AfterAndIs(events, e, twice);
    assert Redelivered(events, once) && Redelivered(events, twice);
  }

  /** A statement that leaves a body under an edit time is safe exactly when every sighting with another body is older. */
  lemma HarmlessIff(events: seq<Event>, e: Event, id: int, row: Row)
    requires Sighted(events, id) && SameSent(events, id) && id in Run(events).rows && id in Step(Run(events), e).rows
    requires row == Step(Run(events), e).rows[id] && row.sent == Run(events).rows[id].sent
    ensures Harmless(events, e, id) <==> OthersAreOlder(events, id, row.body, row.edited)
  {
    if OthersAreOlder(events, id, row.body, row.edited) {
      OlderOthersAreHarmless(events, e, id, row);
    } else {
      var m :| Sighting(events, m) && m.id == id && m.body != row.body
               && !(row.edited.Some? && MessageVersion(m) < row.edited.value);
      UnguardedAreOfSomeSighting(events, id);
      NotOlderHarms(events, e, m);
    }
  }

  /**
   An edit notice is harmless, whatever is delivered again after it, exactly when every sighting that says
   something else than the stored body is older than the time it gives; a notice that clears the time is harmless
   only if there is none.
   */
  lemma EditNoticeHarmlessIff(events: seq<Event>, id: int, at: Option<int>)
    requires Sighted(events, id) && SameSent(events, id)
    ensures id in Run(events).rows
    ensures (forall more :: Redelivered(events, more) ==>
               BodyIn(AfterAnd(events, EditNotice(id, at), more), id) == BodyIn(Run(events), id))
            <==> OthersAreOlder(events, id, Run(events).rows[id].body, at)
  {
    StoredIffSighted(events, id);
    HarmlessIff(events, EditNotice(id, at), id, Run(events).rows[id].(edited := at));
    assert BodyIn(Step(Run(events), EditNotice(id, at)), id) == BodyIn(Run(events), id);
  }

  /**
   A content update is harmless, whatever is delivered again after it, exactly when every sighting that does not say
   what it wrote is older than the database's clock was. The body it leaves keeps the kind, the forward and the
   metadata that were stored.
   */
  lemma ContentHarmlessIff(events: seq<Event>, id: int, content: Option<string>, entities: string, now: int)
    requires Sighted(events, id) && SameSent(events, id)
    ensures id in Run(events).rows
    ensures var written := Rewritten(Run(events).rows[id].body, content, entities);
            (forall more :: Redelivered(events, more) ==>
               BodyIn(AfterAnd(events, Content(id, content, entities, now), more), id) == Some(written))
            <==> OthersAreOlder(events, id, written, Some(now))
  {
    StoredIffSighted(events, id);
    var e, written := Content(id, content, entities, now), Rewritten(Run(events).rows[id].body, content, entities);
    HarmlessIff(events, e, id, Run(events).rows[id].(body := written, edited := Some(now)));
    assert BodyIn(Step(Run(events), e), id) == Some(written);
  }

  // ---------------------------------------------------------------- examples where order does matter

  function Sample(edited: Option<int>, text: string, sender: int): Message {
    Message(1, 10, edited, Body("text", Some(text), "[]", None, "{}"), Some(sender), None, None)
  }

  lemma TwoSteps(a: Event, b: Event)
    ensures Run([a, b]) == Step(Step(EMPTY, a), b)
  {
    assert [a, b][..1] == [a] && [a][..0] == [];
    assert Run([a]) == Step(Run([]), a);
  }

  lemma ThreeSteps(a: Event, b: Event, c: Event)
    ensures Run([a, b, c]) == Step(Step(Step(EMPTY, a), b), c)
  {
    assert [a, b, c][..2] == [a, b];
    TwoSteps(a, b);
  }

  /** A stale upsert keeps the newer body but still overwrites the sender. */
  lemma StaleUpsertOverwritesSender()
    ensures var stale, newer := Upsert(Sample(None, "old", 5)), Upsert(Sample(Some(20), "new", 6));
            && Run([stale, newer]).rows[1].body == Run([newer, stale]).rows[1].body
            && Run([stale, newer]).rows[1].sender != Run([newer, stale]).rows[1].sender
  {
    var a, b := Upsert(Sample(None, "old", 5)), Upsert(Sample(Some(20), "new", 6));
    TwoSteps(a, b);
    TwoSteps(b, a);
  }

  /** An edit time before the send time lowers the stored version, and an older body then wins. */
  lemma EarlyEditLosesOrder()
    ensures var a, b, c := Sample(None, "a", 5), Sample(Some(5), "b", 5), Sample(Some(7), "c", 5);
            && MessageVersion(a) > MessageVersion(c)
            && Run([Upsert(a), Upsert(b), Upsert(c)]).rows[1].body == c.body
            && Run([Upsert(c), Upsert(b), Upsert(a)]).rows[1].body == a.body
  {
    var a, b, c := Sample(None, "a", 5), Sample(Some(5), "b", 5), Sample(Some(7), "c", 5);
    ThreeSteps(Upsert(a), Upsert(b), Upsert(c));
    ThreeSteps(Upsert(c), Upsert(b), Upsert(a));
  }

  /** A late edit notice takes the stored version back, and an older body then wins. */
  lemma LateEditNoticeLosesOrder()
    ensures var newer, mid := Sample(Some(30), "new", 5), Sample(Some(20), "mid", 5);
            && Run([Upsert(newer), EditNotice(1, Some(15)), Upsert(mid)]).rows[1].body == mid.body
            && Run([Upsert(mid), EditNotice(1, Some(15)), Upsert(newer)]).rows[1].body == newer.body
  {
    var n, m := Sample(Some(30), "new", 5), Sample(Some(20), "mid", 5);
    ThreeSteps(Upsert(n), EditNotice(1, Some(15)), Upsert(m));
    ThreeSteps(Upsert(m), EditNotice(1, Some(15)), Upsert(n));
  }

  /** A content update by a clock behind a sighting's edit time is undone when that sighting is delivered again. */
  lemma SlowClockUndoesContent()
    ensures var seen := Sample(Some(30), "old", 5);
            Run([Upsert(seen), Content(1, Some("new"), "[]", 29), Upsert(seen)]).rows[1].body == seen.body
  {
    var seen := Sample(Some(30), "old", 5);
    ThreeSteps(Upsert(seen), Content(1, Some("new"), "[]", 29), Upsert(seen));
  }
}
