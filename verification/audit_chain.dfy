/**
 The audit log: one hash chain a key, appended to by concurrent writers under an advisory lock, and the verifier
 that reads a chain back from the database.

 The hash and the JSON encoding are arbitrary functions, and so is what the database makes of a uuid, an
 address or a JSON document when it stores one and gives it back.
 */
module AuditChain {
  import opened Common

  newtype Byte = b: int | 0 <= b < 256

  type Bytes = seq<Byte>

  /** An event as the writer hashes it; the time is in nanoseconds. */
  datatype Event = Event(account: Option<string>, actorType: string, actorId: string, action: string,
                         resourceType: string, resourceId: string, ip: string, agent: string,
                         requestId: Option<string>, metadata: string, createdAt: nat)

  /** What a column gives back for a text that was stored in it; None if it does not accept the text. */
  datatype Columns = Columns(uuid: string -> Option<string>, inet: string -> Option<string>, json: string -> Option<string>)

  datatype Scheme = Scheme(hash: Bytes -> Bytes, encode: Event -> Bytes, columns: Columns)

  /** Hashes have one length. */
  ghost predicate Sized(s: Scheme) {
    forall x: Bytes :: |s.hash(x)| == 32
  }

  // ---------------------------------------------------------------- storing an event and reading it back

  datatype Stored = Stored(account: Option<string>, actorType: string, actorId: Option<string>, action: string,
                           resourceType: string, resourceId: Option<string>, ip: Option<string>, agent: Option<string>,
                           requestId: Option<string>, metadata: string, micros: nat)

  /** NULLIF(text, ''). */
  function NullIfEmpty(text: string): Option<string> {
    if text == "" then None else Some(text)
  }

  function ValueOrEmpty(text: Option<string>): string {
    if text.None? then "" else text.value
  }

  /** A nullable column behind a cast: a null stays null, a refused text fails the statement. */
  function Cast(column: string -> Option<string>, text: Option<string>): Option<Option<string>> {
    if text.None? then Some(None)
    else if column(text.value).None? then None
    else Some(column(text.value))
  }

  function Store(c: Columns, e: Event): Option<Stored> {
    var account, ip := Cast(c.uuid, e.account), Cast(c.inet, NullIfEmpty(e.ip));
    var requestId, metadata := Cast(c.uuid, e.requestId), c.json(e.metadata);
    if account.None? || ip.None? || requestId.None? || metadata.None? then None
    else Some(Stored(account.value, e.actorType, NullIfEmpty(e.actorId), e.action, e.resourceType,
                     NullIfEmpty(e.resourceId), ip.value, NullIfEmpty(e.agent), requestId.value,
                     metadata.value, e.createdAt / 1000))
  }

  /** The event the verifier rebuilds from a row. */
  function Restore(r: Stored): Event {
    Event(r.account, r.actorType, ValueOrEmpty(r.actorId), r.action, r.resourceType, ValueOrEmpty(r.resourceId),
          ValueOrEmpty(r.ip), ValueOrEmpty(r.agent), r.requestId, r.metadata, r.micros * 1000)
  }

  predicate Kept(column: string -> Option<string>, text: string) {
    column(text) == Some(text)
  }

  /** An event comes back as it was hashed exactly when every cast column keeps its text and the time is in microseconds. */
  lemma RestoredIffCanonical(c: Columns, e: Event)
    ensures Store(c, e).Some? && Restore(Store(c, e).value) == e
            <==>
            && (e.account.Some? ==> Kept(c.uuid, e.account.value))
            && (e.requestId.Some? ==> Kept(c.uuid, e.requestId.value))
            && (if e.ip == "" then true else c.inet(e.ip) == Some(e.ip))
            && Kept(c.json, e.metadata)
            && e.createdAt % 1000 == 0
  {
  }

  // ---------------------------------------------------------------- chains

  /** A row of the log; `written` is the event its writer hashed. */
  datatype Row = Row(id: nat, key: string, stored: Stored, previous: Bytes, hash: Bytes, written: Event)

  function Head(rows: seq<Row>): Bytes {
    if rows == [] then [] else rows[|rows| - 1].hash
  }

  function Front(rows: seq<Row>): seq<Row>
    requires rows != []
  {
    rows[..|rows| - 1]
  }

  function Last(rows: seq<Row>): Row
    requires rows != []
  {
    rows[|rows| - 1]
  }

  /** A row carries this hash of its predecessor, and the hash of that and the event written. */
  predicate Links(s: Scheme, previous: Bytes, row: Row) {
    row.previous == previous && row.hash == s.hash(previous + s.encode(row.written))
  }

  predicate Linked(s: Scheme, rows: seq<Row>) {
    rows == [] || (Linked(s, Front(rows)) && Links(s, Head(Front(rows)), Last(rows)))
  }

  /** What the verifier recomputes of one row. */
  predicate Checks(s: Scheme, previous: Bytes, row: Row) {
    row.previous == previous && row.hash == s.hash(previous + s.encode(Restore(row.stored)))
  }

  predicate Accepts(s: Scheme, rows: seq<Row>) {
    rows == [] || (Accepts(s, Front(rows)) && Checks(s, Head(Front(rows)), Last(rows)))
  }

  /** A part of an accepted chain from its start is accepted, so a rejected one rejects all that extends it. */
  lemma {:induction false} PrefixAccepts(s: Scheme, rows: seq<Row>, n: nat)
    requires n <= |rows| && Accepts(s, rows)
    ensures Accepts(s, rows[..n])
    decreases |rows|
  {
    if n == |rows| {
      assert rows[..n] == rows;
    } else {
      PrefixAccepts(s, Front(rows), n);
      assert Front(rows)[..n] == rows[..n];
    }
  }

  datatype Verdict = Intact(entries: nat, first: nat, last: nat, head: Bytes) | Broken(id: nat, linkBroken: bool)

  /** Row i is the first that does not check. */
  predicate FirstFault(s: Scheme, rows: seq<Row>, i: int) {
    0 <= i < |rows| && Accepts(s, rows[..i]) && !Checks(s, Head(rows[..i]), rows[i])
  }

  lemma FaultRejects(s: Scheme, rows: seq<Row>, i: int)
    requires FirstFault(s, rows, i)
    ensures !Accepts(s, rows)
  {
    assert Front(rows[..i + 1]) == rows[..i];
    if Accepts(s, rows) {
      PrefixAccepts(s, rows, i + 1);
    }
  }

  lemma CheckedRowExtends(s: Scheme, rows: seq<Row>, i: nat)
    requires i < |rows| && Accepts(s, rows[..i]) && Checks(s, Head(rows[..i]), rows[i])
    ensures Accepts(s, rows[..i + 1]) && Head(rows[..i + 1]) == rows[i].hash
  {
    assert Front(rows[..i + 1]) == rows[..i];
  }

  /** The verifier's loop: it accepts a chain exactly when every row checks, and otherwise names the first that does not. */
  method VerifyChain(s: Scheme, rows: seq<Row>) returns (v: Verdict)
    ensures v.Intact? <==> Accepts(s, rows)
    ensures v.Intact? ==> v.entries == |rows| && v.head == Head(rows)
    ensures v.Intact? && rows != [] ==> v.first == rows[0].id && v.last == Last(rows).id
    ensures v.Broken? ==> exists i :: FirstFault(s, rows, i) && v.id == rows[i].id
                                      && (v.linkBroken <==> rows[i].previous != Head(rows[..i]))
  {
    var entries, first, last := 0, 0, 0;
    var previous: Bytes := [];
    var i := 0;
    while i < |rows|
      invariant 0 <= i <= |rows| && entries == i
      invariant Accepts(s, rows[..i]) && previous == Head(rows[..i])
      invariant i > 0 ==> first == rows[0].id && last == rows[i - 1].id
    {
      var row := rows[i];
      if row.previous != previous {
        FaultRejects(s, rows, i);
        return Broken(row.id, true);
      }
      if row.hash != s.hash(previous + s.encode(Restore(row.stored))) {
        FaultRejects(s, rows, i);
        return Broken(row.id, false);
      }
      CheckedRowExtends(s, rows, i);
      if entries == 0 {
        first := row.id;
      }
      entries := entries + 1;
      last := row.id;
      previous := row.hash;
      i := i + 1;
    }
    assert rows[..i] == rows;
    return Intact(entries, first, last, previous);
  }

  // ---------------------------------------------------------------- what acceptance means

  function Payload(s: Scheme, row: Row): Bytes {
    s.encode(Restore(row.stored))
  }

  function Input(s: Scheme, row: Row): Bytes {
    row.previous + Payload(s, row)
  }

  lemma HeadIsSized(s: Scheme, rows: seq<Row>)
    requires Sized(s) && Accepts(s, rows)
    ensures |Head(rows)| == if rows == [] then 0 else 32
  {
  }

  /** Equal inputs with equally long links have equal links and equal payloads. */
  lemma InputSplits(s: Scheme, a: Row, b: Row)
    requires |a.previous| == |b.previous| && Input(s, a) == Input(s, b)
    ensures a.previous == b.previous && Payload(s, a) == Payload(s, b)
  {
    assert Input(s, a)[..|a.previous|] == a.previous && Input(s, b)[..|a.previous|] == b.previous;
    assert Input(s, a)[|a.previous|..] == Payload(s, a) && Input(s, b)[|a.previous|..] == Payload(s, b);
  }

  predicate Collide(s: Scheme, x: Bytes, y: Bytes) {
    x != y && s.hash(x) == s.hash(y)
  }

  /**
   Two accepted chains of one length with one head either say the same in every entry, or two different inputs
   with the same hash are at hand.
   */
  lemma {:induction false} HeadDecidesHistory(s: Scheme, a: seq<Row>, b: seq<Row>) returns (x: Bytes, y: Bytes)
    requires Sized(s) && Accepts(s, a) && Accepts(s, b) && |a| == |b| && Head(a) == Head(b)
    ensures (forall i :: 0 <= i < |a| ==> Payload(s, a[i]) == Payload(s, b[i])) || Collide(s, x, y)
    decreases |a|
  {
    x, y := [], [];
    if a != [] {
      x, y := Input(s, Last(a)), Input(s, Last(b));
      if x == y {
        HeadIsSized(s, Front(a));
        HeadIsSized(s, Front(b));
        InputSplits(s, Last(a), Last(b));
        x, y := HeadDecidesHistory(s, Front(a), Front(b));
        if !Collide(s, x, y) {
          forall i | 0 <= i < |a| ensures Payload(s, a[i]) == Payload(s, b[i]) {
            assert i < |a| - 1 ==> Front(a)[i] == a[i] && Front(b)[i] == b[i];
          }
        }
      }
    }
  }

  /** Rewriting one entry of an accepted chain and leaving what follows is noticed, unless the hash collides. */
  lemma TamperingIsNoticed(s: Scheme, rows: seq<Row>, k: nat, forged: Row) returns (x: Bytes, y: Bytes)
    requires Sized(s) && Accepts(s, rows) && k < |rows| && Payload(s, forged) != Payload(s, rows[k])
    requires k == |rows| - 1 ==> forged.hash == rows[k].hash
    ensures !Accepts(s, rows[k := forged]) || Collide(s, x, y)
  {
    x, y := [], [];
    var tampered := rows[k := forged];
    if Accepts(s, tampered) {
      x, y := HeadDecidesHistory(s, rows, tampered);
      assert Payload(s, tampered[k]) != Payload(s, rows[k]);
    }
  }

  /** The row hashes, read back, as it did when it was written. */
  predicate HashesAlike(s: Scheme, row: Row) {
    s.hash(row.previous + s.encode(row.written)) == s.hash(Input(s, row))
  }

  /** A written chain is accepted exactly when every row hashes, read back, as it did when it was written. */
  lemma {:induction false} LinkedIsAccepted(s: Scheme, rows: seq<Row>)
    requires Linked(s, rows)
    ensures Accepts(s, rows) <==> forall r :: r in rows ==> HashesAlike(s, r)
  {
    if rows != [] {
      LinkedIsAccepted(s, Front(rows));
      var last := Last(rows);
      assert rows == Front(rows) + [last];
      assert last in rows && forall r :: r in rows ==> r in Front(rows) || r == last;
      assert Checks(s, Head(Front(rows)), last) <==> HashesAlike(s, last);
    }
  }

  // ---------------------------------------------------------------- the table

  /** WHERE chain_key = key AND id < n ORDER BY id. */
  function Chain(table: map<nat, Row>, key: string, n: nat): seq<Row> {
    if n == 0 then []
    else Chain(table, key, n - 1) + if n - 1 in table && table[n - 1].key == key then [table[n - 1]] else []
  }

  lemma {:induction false} ChainAlone(table: map<nat, Row>, key: string, n: nat, id: nat, row: Row)
    requires id !in table && (n <= id || row.key != key)
    ensures Chain(table[id := row], key, n) == Chain(table, key, n)
  {
    if n > 0 {
      ChainAlone(table, key, n - 1, id, row);
    }
  }

  lemma {:induction false} ChainTail(table: map<nat, Row>, key: string, m: nat, n: nat)
    requires m <= n && forall i :: i in table && m <= i < n ==> table[i].key != key
    ensures Chain(table, key, n) == Chain(table, key, m)
    decreases n
  {
    if m < n {
      ChainTail(table, key, m, n - 1);
    }
  }

  /** A row whose id is past every committed one of its key goes to the end of its chain. */
  lemma {:induction false} ChainGrows(table: map<nat, Row>, key: string, n: nat, id: nat, row: Row)
    requires id !in table && id < n && row.key == key
    requires forall i :: i in table && table[i].key == key ==> i < id
    ensures Chain(table[id := row], key, n) == Chain(table, key, n) + [row]
  {
    var after := table[id := row];
    ChainAlone(table, key, id, id, row);
    ChainTail(table, key, id, n);
    ChainTail(after, key, id + 1, n);
    assert Chain(after, key, id + 1) == Chain(after, key, id) + [row];
  }

  // ---------------------------------------------------------------- the writer

  datatype Outcome = Written | Invalid | Refused

  predicate IsActor(actorType: string) {
    actorType in ["USER", "MCP", "SYSTEM", "TELEGRAM", "ADMIN"]
  }

  function Trim(s: string): string {
    if s != "" && s[0] == ' ' then Trim(s[1..])
    else if s != "" && s[|s| - 1] == ' ' then Trim(s[..|s| - 1])
    else s
  }

  predicate ValidEvent(e: Event) {
    IsActor(e.actorType) && Trim(e.action) != "" && Trim(e.resourceType) != ""
  }

  function ChainKey(e: Event): string {
    if e.account.None? || Trim(e.account.value) == "" then "global" else Trim(e.account.value)
  }

  /** The time the writer hashes: now if none was given, cut to microseconds. */
  function Dated(e: Event, now: nat): Event {
    var at := if e.createdAt == 0 then now else e.createdAt;
    e.(createdAt := at - at % 1000)
  }

  function NewRow(s: Scheme, id: nat, e: Event, stored: Stored, previous: Bytes): Row {
    Row(id, ChainKey(e), stored, previous, s.hash(previous + s.encode(e)), e)
  }

  class AuditLog {
    var table: map<nat, Row>
    var nextId: nat

    ghost predicate Valid()
      reads this
    {
      forall i :: i in table ==> i < nextId && table[i].id == i
    }

    function Rows(key: string): seq<Row>
      reads this
    {
      Chain(table, key, nextId)
    }

    constructor ()
      ensures Valid() && forall key :: Rows(key) == []
    {
      table, nextId := map[], 0;
    }

    /** One whole write transaction: its chain gains one linked row and every other chain is as it was. */
    method Write(s: Scheme, event: Event, now: nat) returns (r: Outcome)
      requires Valid()
      modifies this
      ensures Valid()
      ensures r.Invalid? <==> !ValidEvent(event)
      ensures r.Refused? <==> ValidEvent(event) && Store(s.columns, Dated(event, now)).None?
      ensures !r.Written? ==> forall key :: Rows(key) == old(Rows(key))
      ensures r.Written? ==>
                var e := Dated(event, now);
                && Rows(ChainKey(e)) == old(Rows(ChainKey(e)))
                     + [NewRow(s, old(nextId), e, Store(s.columns, e).value, Head(old(Rows(ChainKey(e)))))]
                && forall key :: key != ChainKey(e) ==> Rows(key) == old(Rows(key))
    {
      if !ValidEvent(event) {
        return Invalid;
      }
      var e := Dated(event, now);
      var key := ChainKey(e);
      var previous := Head(Rows(key));
      var stored := Store(s.columns, e);
      ghost var before := table;
      ghost var n := nextId;
      if stored.None? {
        nextId := nextId + 1;
        forall k ensures Chain(before, k, n + 1) == Chain(before, k, n) {
        }
        return Refused;
      }
      var row := NewRow(s, nextId, e, stored.value, previous);
      table := table[nextId := row];
      nextId := nextId + 1;
      forall k ensures Chain(table, k, n) == Chain(before, k, n) {
        ChainAlone(before, k, n, n, row);
      }
      return Written;
    }
  }

  // ---------------------------------------------------------------- concurrent writers

  /** A transaction: waiting for its lock, holding it, having read the head, having inserted, or over. */
  datatype Phase = Waiting | Locked | Reading(previous: Bytes) | Inserted(row: Row) | Over

  datatype Writer = Writer(event: Event, phase: Phase)

  datatype State = State(table: map<nat, Row>, nextId: nat, writers: seq<Writer>)

  const INITIAL := State(map[], 0, [])

  datatype Action =
    | Begin(event: Event, now: nat)
    | Lock(w: nat)
    | ReadHead(w: nat)
    | Insert(w: nat)
    | Commit(w: nat)
    | Abort(w: nat)

  predicate Holding(writer: Writer) {
    writer.phase.Locked? || writer.phase.Reading? || writer.phase.Inserted?
  }

  /** Nobody else holds the lock; different keys may share one. */
  ghost predicate LockFree(lock: string -> int, s: State, key: string) {
    forall v :: 0 <= v < |s.writers| && Holding(s.writers[v]) ==> lock(ChainKey(s.writers[v].event)) != lock(key)
  }

  ghost predicate Allowed(lock: string -> int, s: State, a: Action) {
    match a
    case Begin(event, now) => ValidEvent(event)
    case Lock(w) => w < |s.writers| && s.writers[w].phase.Waiting? && LockFree(lock, s, ChainKey(s.writers[w].event))
    case ReadHead(w) => w < |s.writers| && s.writers[w].phase.Locked?
    case Insert(w) => w < |s.writers| && s.writers[w].phase.Reading?
    case Commit(w) => w < |s.writers| && s.writers[w].phase.Inserted?
    case Abort(w) => w < |s.writers|
  }

  function Moved(s: State, w: nat, phase: Phase): State
    requires w < |s.writers|
  {
    s.(writers := s.writers[w := s.writers[w].(phase := phase)])
  }

  ghost function Apply(scheme: Scheme, lock: string -> int, s: State, a: Action): State
    requires Allowed(lock, s, a)
  {
    match a
    case Begin(event, now) => s.(writers := s.writers + [Writer(Dated(event, now), Waiting)])
    case Lock(w) => Moved(s, w, Locked)
    case ReadHead(w) => Moved(s, w, Reading(Head(Chain(s.table, ChainKey(s.writers[w].event), s.nextId))))
    case Insert(w) =>
      var e := s.writers[w].event;
      var stored := Store(scheme.columns, e);
      Moved(s, w, if stored.None? then Over
                  else Inserted(NewRow(scheme, s.nextId, e, stored.value, s.writers[w].phase.previous)))
        .(nextId := s.nextId + 1)
    case Commit(w) =>
      var row := s.writers[w].phase.row;
      Moved(s, w, Over).(table := s.table[row.id := row])
    case Abort(w) => Moved(s, w, Over)
  }

  ghost predicate Run(scheme: Scheme, lock: string -> int, states: seq<State>, actions: seq<Action>) {
    && |states| == |actions| + 1 && states[0] == INITIAL
    && forall i :: 0 <= i < |actions| ==>
         Allowed(lock, states[i], actions[i]) && states[i + 1] == Apply(scheme, lock, states[i], actions[i])
  }

  /** Two transactions never hold the lock of one key at a time. */
  ghost predicate Exclusive(lock: string -> int, s: State) {
    forall v, w :: 0 <= v < w < |s.writers| && Holding(s.writers[v]) && Holding(s.writers[w]) ==>
      lock(ChainKey(s.writers[v].event)) != lock(ChainKey(s.writers[w].event))
  }

  function HeadOf(s: State, key: string): Bytes {
    Head(Chain(s.table, key, s.nextId))
  }

  /** What a transaction has read or inserted is still up to date. */
  ghost predicate Current(scheme: Scheme, s: State, w: nat)
    requires w < |s.writers|
  {
    var key, phase := ChainKey(s.writers[w].event), s.writers[w].phase;
    && (phase.Reading? ==> phase.previous == HeadOf(s, key))
    && (phase.Inserted? ==>
          && phase.row.id < s.nextId && phase.row.id !in s.table
          && phase.row.key == key && phase.row.previous == HeadOf(s, key)
          && phase.row.hash == scheme.hash(phase.row.previous + scheme.encode(phase.row.written))
          && Store(scheme.columns, phase.row.written) == Some(phase.row.stored)
          && forall i :: i in s.table && s.table[i].key == key ==> i < phase.row.id)
  }

  ghost predicate IdsApart(s: State) {
    && (forall i :: i in s.table ==> i < s.nextId)
    && (forall v, w :: 0 <= v < w < |s.writers| && s.writers[v].phase.Inserted? && s.writers[w].phase.Inserted? ==>
          s.writers[v].phase.row.id != s.writers[w].phase.row.id)
  }

  ghost predicate AllLinked(scheme: Scheme, s: State) {
    && (forall key :: Linked(scheme, Chain(s.table, key, s.nextId)))
    && (forall i :: i in s.table ==> Store(scheme.columns, s.table[i].written) == Some(s.table[i].stored))
  }

  ghost predicate Inv(scheme: Scheme, lock: string -> int, s: State) {
    && Exclusive(lock, s) && IdsApart(s) && AllLinked(scheme, s)
    && forall w :: 0 <= w < |s.writers| ==> Current(scheme, s, w)
  }

  lemma LinkedGrows(scheme: Scheme, rows: seq<Row>, row: Row)
    requires Linked(scheme, rows) && Links(scheme, Head(rows), row)
    ensures Linked(scheme, rows + [row])
  {
    assert Front(rows + [row]) == rows && Last(rows + [row]) == row;
  }

  /** A new id changes no chain: nothing is committed under it yet. */
  lemma NewIdKeepsChains(s: State)
    requires forall i :: i in s.table ==> i < s.nextId
    ensures forall key :: Chain(s.table, key, s.nextId + 1) == Chain(s.table, key, s.nextId)
  {
  }

  /** A commit puts the row at the end of its chain and leaves every other chain alone. */
  lemma CommitExtendsChain(scheme: Scheme, lock: string -> int, s: State, w: nat, key: string)
    requires Inv(scheme, lock, s) && w < |s.writers| && s.writers[w].phase.Inserted?
    ensures var row, t := s.writers[w].phase.row, Apply(scheme, lock, s, Commit(w));
            Chain(t.table, key, t.nextId)
            == if key == row.key then Chain(s.table, key, s.nextId) + [row] else Chain(s.table, key, s.nextId)
  {
    var row := s.writers[w].phase.row;
    assert Current(scheme, s, w);
    if key == row.key {
      ChainGrows(s.table, key, s.nextId, row.id, row);
    } else {
      ChainAlone(s.table, key, s.nextId, row.id, row);
    }
  }

  /** Whoever else holds a lock is at another key, whose chain stays as it was. */
  lemma CommitLeavesOthers(scheme: Scheme, lock: string -> int, s: State, w: nat, v: nat)
    requires Inv(scheme, lock, s) && w < |s.writers| && s.writers[w].phase.Inserted?
    requires v < |s.writers| && v != w && Holding(s.writers[v])
    ensures var key, t := ChainKey(s.writers[v].event), Apply(scheme, lock, s, Commit(w));
            HeadOf(t, key) == HeadOf(s, key) && s.writers[w].phase.row.key != key
  {
    assert Current(scheme, s, w);
    assert ChainKey(s.writers[v].event) != ChainKey(s.writers[w].event);
    CommitExtendsChain(scheme, lock, s, w, ChainKey(s.writers[v].event));
  }

  lemma CommitKeepsCurrent(scheme: Scheme, lock: string -> int, s: State, w: nat, v: nat)
    requires Inv(scheme, lock, s) && w < |s.writers| && s.writers[w].phase.Inserted? && v < |s.writers|
    ensures Current(scheme, Apply(scheme, lock, s, Commit(w)), v)
  {
    assert Current(scheme, s, v);
    if v != w && Holding(s.writers[v]) {
      CommitLeavesOthers(scheme, lock, s, w, v);
    }
  }

  lemma CommitKeepsLinked(scheme: Scheme, lock: string -> int, s: State, w: nat, key: string)
    requires Inv(scheme, lock, s) && w < |s.writers| && s.writers[w].phase.Inserted?
    ensures var t := Apply(scheme, lock, s, Commit(w)); Linked(scheme, Chain(t.table, key, t.nextId))
  {
    var row := s.writers[w].phase.row;
    assert Current(scheme, s, w);
    CommitExtendsChain(scheme, lock, s, w, key);
    if key == row.key {
      LinkedGrows(scheme, Chain(s.table, key, s.nextId), row);
    }
  }

  lemma CommitKeepsInv(scheme: Scheme, lock: string -> int, s: State, w: nat)
    requires Inv(scheme, lock, s) && w < |s.writers| && s.writers[w].phase.Inserted?
    ensures Inv(scheme, lock, Apply(scheme, lock, s, Commit(w)))
  {
    var t := Apply(scheme, lock, s, Commit(w));
    assert Current(scheme, s, w);
    forall key ensures Linked(scheme, Chain(t.table, key, t.nextId)) {
      CommitKeepsLinked(scheme, lock, s, w, key);
    }
    forall v | 0 <= v < |t.writers| ensures Current(scheme, t, v) {
      CommitKeepsCurrent(scheme, lock, s, w, v);
    }
  }

  lemma InsertKeepsCurrent(scheme: Scheme, lock: string -> int, s: State, w: nat, v: nat)
    requires Inv(scheme, lock, s) && w < |s.writers| && s.writers[w].phase.Reading? && v < |s.writers|
    ensures Current(scheme, Apply(scheme, lock, s, Insert(w)), v)
    ensures s.writers[v].phase.Inserted? ==> s.writers[v].phase.row.id < s.nextId
  {
    NewIdKeepsChains(s);
    assert Current(scheme, s, v) && Current(scheme, s, w);
  }

  lemma InsertKeepsInv(scheme: Scheme, lock: string -> int, s: State, w: nat)
    requires Inv(scheme, lock, s) && w < |s.writers| && s.writers[w].phase.Reading?
    ensures Inv(scheme, lock, Apply(scheme, lock, s, Insert(w)))
  {
    var t := Apply(scheme, lock, s, Insert(w));
    forall v | 0 <= v < |s.writers|
      ensures Current(scheme, t, v) && (s.writers[v].phase.Inserted? ==> s.writers[v].phase.row.id < s.nextId)
    {
      InsertKeepsCurrent(scheme, lock, s, w, v);
    }
    NewIdKeepsChains(s);
  }

  lemma BeginKeepsInv(scheme: Scheme, lock: string -> int, s: State, event: Event, now: nat)
    requires Inv(scheme, lock, s) && Allowed(lock, s, Begin(event, now))
    ensures Inv(scheme, lock, Apply(scheme, lock, s, Begin(event, now)))
  {
    var t := Apply(scheme, lock, s, Begin(event, now));
    forall v | 0 <= v < |t.writers| ensures Current(scheme, t, v) {
      assert v < |s.writers| ==> Current(scheme, s, v);
    }
  }

  lemma OtherStepsKeepInv(scheme: Scheme, lock: string -> int, s: State, a: Action)
    requires Inv(scheme, lock, s) && Allowed(lock, s, a) && (a.Lock? || a.ReadHead? || a.Abort?)
    ensures Inv(scheme, lock, Apply(scheme, lock, s, a))
  {
    var t := Apply(scheme, lock, s, a);
    forall v | 0 <= v < |t.writers| ensures Current(scheme, t, v) {
      assert Current(scheme, s, v);
    }
  }

  lemma {:induction false} RunKeepsInv(scheme: Scheme, lock: string -> int, states: seq<State>, actions: seq<Action>, i: nat)
    requires Run(scheme, lock, states, actions) && i < |states|
    ensures Inv(scheme, lock, states[i])
  {
    if i == 0 {
      assert forall key :: Chain(map[], key, 0) == [];
    } else {
      RunKeepsInv(scheme, lock, states, actions, i - 1);
      match actions[i - 1] {
        case Begin(event, now) => BeginKeepsInv(scheme, lock, states[i - 1], event, now);
        case Insert(w) => InsertKeepsInv(scheme, lock, states[i - 1], w);
        case Commit(w) => CommitKeepsInv(scheme, lock, states[i - 1], w);
        case _ => OtherStepsKeepInv(scheme, lock, states[i - 1], actions[i - 1]);
      }
    }
  }

  // ---------------------------------------------------------------- main results

  /** A committed event that the database gave back as it was hashed. */
  predicate Canonical(row: Row) {
    Restore(row.stored) == row.written
  }

  /**
   However writers interleave and wherever they stop, at any time every key's rows form a linked chain; the
   verifier accepts it if its rows came back from the database as they were hashed.
   */
  lemma ConcurrentWritersLeaveChains(scheme: Scheme, lock: string -> int, states: seq<State>, actions: seq<Action>,
                                     i: nat, key: string)
    requires Run(scheme, lock, states, actions) && i < |states|
    ensures var rows := Chain(states[i].table, key, states[i].nextId);
            Linked(scheme, rows) && ((forall r :: r in rows ==> Canonical(r)) ==> Accepts(scheme, rows))
  {
    RunKeepsInv(scheme, lock, states, actions, i);
    LinkedIsAccepted(scheme, Chain(states[i].table, key, states[i].nextId));
  }

  /** An accepted chain with a row that did not come back as it was hashed has made the hash, or the encoding, collide. */
  lemma AcceptedRowsAreCanonical(scheme: Scheme, lock: string -> int, states: seq<State>, actions: seq<Action>, i: nat,
                                 key: string, row: Row)
    requires Run(scheme, lock, states, actions) && i < |states|
    requires var rows := Chain(states[i].table, key, states[i].nextId);
             Accepts(scheme, rows) && row in rows && !Canonical(row)
    ensures || scheme.encode(row.written) == Payload(scheme, row)
            || Collide(scheme, row.previous + scheme.encode(row.written), Input(scheme, row))
  {
    RunKeepsInv(scheme, lock, states, actions, i);
    LinkedIsAccepted(scheme, Chain(states[i].table, key, states[i].nextId));
    var written := row.previous + scheme.encode(row.written);
    assert HashesAlike(scheme, row);
    assert written[|row.previous|..] == scheme.encode(row.written);
    assert Input(scheme, row)[|row.previous|..] == Payload(scheme, row);
  }

  /** What was committed to a chain stays at its start. */
  lemma {:induction false} ChainOnlyGrows(scheme: Scheme, lock: string -> int, states: seq<State>, actions: seq<Action>,
                                          i: nat, j: nat, key: string)
    requires Run(scheme, lock, states, actions) && i <= j < |states|
    ensures Chain(states[i].table, key, states[i].nextId) <= Chain(states[j].table, key, states[j].nextId)
    decreases j - i
  {
    if i < j {
      RunKeepsInv(scheme, lock, states, actions, i);
      var s, a := states[i], actions[i];
      if a.Commit? {
        CommitExtendsChain(scheme, lock, s, a.w, key);
      }
      NewIdKeepsChains(s);
      ChainOnlyGrows(scheme, lock, states, actions, i + 1, j, key);
    }
  }

  // ---------------------------------------------------------------- an event that comes back otherwise

  /** The states of a run in which one writer begins, takes the lock, reads the head, inserts and commits. */
  ghost function OneWriter(scheme: Scheme, e: Event, row: Row): seq<State> {
    [INITIAL,
     State(map[], 0, [Writer(e, Waiting)]),
     State(map[], 0, [Writer(e, Locked)]),
     State(map[], 0, [Writer(e, Reading([]))]),
     State(map[], 1, [Writer(e, Inserted(row))]),
     State(map[0 := row], 1, [Writer(e, Over)])]
  }

  lemma OneWriterStarts(scheme: Scheme, lock: string -> int, event: Event, now: nat, row: Row)
    requires ValidEvent(event)
    ensures var states := OneWriter(scheme, Dated(event, now), row);
            && Allowed(lock, states[0], Begin(event, now)) && states[1] == Apply(scheme, lock, states[0], Begin(event, now))
            && Allowed(lock, states[1], Lock(0)) && states[2] == Apply(scheme, lock, states[1], Lock(0))
            && Allowed(lock, states[2], ReadHead(0)) && states[3] == Apply(scheme, lock, states[2], ReadHead(0))
  {
    var states := OneWriter(scheme, Dated(event, now), row);
    assert LockFree(lock, states[1], ChainKey(Dated(event, now)));
  }

  lemma OneWriterEnds(scheme: Scheme, lock: string -> int, e: Event, row: Row)
    requires Store(scheme.columns, e).Some? && row == NewRow(scheme, 0, e, Store(scheme.columns, e).value, [])
    ensures var states := OneWriter(scheme, e, row);
            && Allowed(lock, states[3], Insert(0)) && states[4] == Apply(scheme, lock, states[3], Insert(0))
            && Allowed(lock, states[4], Commit(0)) && states[5] == Apply(scheme, lock, states[4], Commit(0))
  {
  }

  lemma OneWriterRuns(scheme: Scheme, lock: string -> int, event: Event, now: nat, row: Row)
    requires ValidEvent(event) && Store(scheme.columns, Dated(event, now)).Some?
    requires var e := Dated(event, now); row == NewRow(scheme, 0, e, Store(scheme.columns, e).value, [])
    ensures Run(scheme, lock, OneWriter(scheme, Dated(event, now), row),
                [Begin(event, now), Lock(0), ReadHead(0), Insert(0), Commit(0)])
  {
    OneWriterStarts(scheme, lock, event, now, row);
    OneWriterEnds(scheme, lock, Dated(event, now), row);
  }

  lemma SingleRow(s: Scheme, row: Row)
    requires Links(s, [], row)
    ensures Linked(s, [row]) && (Accepts(s, [row]) <==> HashesAlike(s, row))
    ensures !HashesAlike(s, row) ==> FirstFault(s, [row], 0) && row.previous == Head([row][..0])
  {
    assert Front([row]) == [];
    assert [row][..0] == [];
    assert Linked(s, Front([row]));
    LinkedIsAccepted(s, [row]);
    assert row in [row];
  }

  /**
   Any storable event, written first to an empty log: the run commits it, and the verifier accepts the chain if and
   only if the event's hash is that of the event which comes back. Otherwise the row is the fault the verifier names.
   */
  lemma FirstWriteAcceptedIff(scheme: Scheme, lock: string -> int, event: Event, now: nat)
    returns (states: seq<State>, actions: seq<Action>)
    requires ValidEvent(event) && Store(scheme.columns, Dated(event, now)).Some?
    ensures Run(scheme, lock, states, actions)
    ensures var e := Dated(event, now);
            var back := Restore(Store(scheme.columns, e).value);
            var t := states[|actions|];
            var rows := Chain(t.table, ChainKey(e), t.nextId);
            && |rows| == 1 && rows[0].written == e && Restore(rows[0].stored) == back
            && (Accepts(scheme, rows) <==> scheme.hash(scheme.encode(e)) == scheme.hash(scheme.encode(back)))
            && (!Accepts(scheme, rows) ==> FirstFault(scheme, rows, 0))
  {
    var e := Dated(event, now);
    var row := NewRow(scheme, 0, e, Store(scheme.columns, e).value, []);
    states := OneWriter(scheme, e, row);
    actions := [Begin(event, now), Lock(0), ReadHead(0), Insert(0), Commit(0)];
    OneWriterRuns(scheme, lock, event, now, row);
    assert Chain(map[0 := row], ChainKey(e), 0) == [];
    assert Chain(map[0 := row], ChainKey(e), 1) == [row];
    assert [] + scheme.encode(e) == scheme.encode(e);
    assert Input(scheme, row) == Payload(scheme, row);
    SingleRow(scheme, row);
  }

  /** What a uuid column gives back: the hexadecimal digits in lower case. */
  function LowerHex(c: char): char {
    if 'A' <= c <= 'F' then (c as int + 32) as char else c
  }

  function Lowered(text: string): string {
    seq(|text|, i requires 0 <= i < |text| => LowerHex(text[i]))
  }

  /** An encoding that says at least whose event it is. */
  function AccountBytes(e: Event): Bytes {
    var text := ValueOrEmpty(e.account);
    seq(|text|, i requires 0 <= i < |text| => (text[i] as int % 256) as Byte)
  }

  /** A hash of the right size that tells inputs of up to 31 bytes apart: their bytes and their length, padded. */
  function Padded(x: Bytes): Bytes {
    seq(32, i requires 0 <= i < 32 => if i == 31 then (|x| % 256) as Byte else if i < |x| then x[i] else 0)
  }

  const LOWERING := Scheme(Padded, AccountBytes, Columns(text => Some(Lowered(text)), text => Some(text), text => Some(text)))

  /** The admin API takes the account from its request and audits it so; here with a digit in upper case. */
  const SHOUTED := Event(Some("A0000000-0000-4000-8000-000000000001"), "ADMIN", "owner", "ACCESS_TOKEN_ISSUED",
                         "gateway_client", "1", "", "", None, "{}", 5000)

  lemma ShoutedIsStored()
    ensures ValidEvent(SHOUTED) && Dated(SHOUTED, 0) == SHOUTED && Store(LOWERING.columns, SHOUTED).Some?
    ensures var back := Restore(Store(LOWERING.columns, SHOUTED).value);
            back.account.Some? && |back.account.value| > 0 && back.account.value[0] == 'a'
  {
    assert Trim(SHOUTED.action) == SHOUTED.action && Trim(SHOUTED.resourceType) == SHOUTED.resourceType;
    assert SHOUTED.account.value[0] == 'A';
    assert Lowered(SHOUTED.account.value)[0] == LowerHex('A') == 'a';
  }

  /** An account id in upper case is committed and its own chain then rejected: the row is the first fault. */
  lemma UpperCaseAccountIsRejected(lock: string -> int) returns (states: seq<State>, actions: seq<Action>)
    ensures Sized(LOWERING) && Run(LOWERING, lock, states, actions)
    ensures var t := states[|actions|];
            var rows := Chain(t.table, ChainKey(SHOUTED), t.nextId);
            && |rows| == 1 && rows[0].written == SHOUTED && !Canonical(rows[0])
            && !Accepts(LOWERING, rows) && FirstFault(LOWERING, rows, 0)
  {
    ShoutedIsStored();
    states, actions := FirstWriteAcceptedIff(LOWERING, lock, SHOUTED, 0);
    var back := Restore(Store(LOWERING.columns, SHOUTED).value);
    assert Padded(AccountBytes(SHOUTED))[0] == 'A' as int as Byte;
    assert Padded(AccountBytes(back))[0] == 'a' as int as Byte;
  }

  /** So the verifier, run on such a chain, names that row and its hash. */
  method VerifyFirstWrite(scheme: Scheme, row: Row) returns (v: Verdict)
    requires Links(scheme, [], row)
    ensures v == if HashesAlike(scheme, row) then Intact(1, row.id, row.id, row.hash) else Broken(row.id, false)
  {
    SingleRow(scheme, row);
    v := VerifyChain(scheme, [row]);
  }
}
