/**
 What becomes of an audited event: the row it leaves, told from the event as its writer received it, and that the
 verifier accepts what was written whatever times were given.
 */
module AuditAcceptance {
  import opened Common
  import opened AuditChain

  /** The time a row is dated: the one given, or the clock's if none was, in whole microseconds. */
  function Micros(event: Event, now: nat): nat {
    (if event.createdAt == 0 then now else event.createdAt) / 1000
  }

  /** Spaces and nothing else. */
  predicate Blank(s: string) {
    forall i :: 0 <= i < |s| ==> s[i] == ' '
  }

  ghost predicate StrippedAt(s: string, t: string, i: int, j: int) {
    && 0 <= i <= j <= |s| && t == s[i..j] && Blank(s[..i]) && Blank(s[j..])
    && (t != "" ==> t[0] != ' ' && t[|t| - 1] != ' ')
  }

  lemma {:induction false} TrimStrips(s: string) returns (i: int, j: int)
    ensures StrippedAt(s, Trim(s), i, j)
  {
    if s != "" && s[0] == ' ' {
      i, j := TrimStrips(s[1..]);
      LeadingSpace(s, Trim(s), i, j);
      i, j := i + 1, j + 1;
    } else if s != "" && s[|s| - 1] == ' ' {
      i, j := TrimStrips(s[..|s| - 1]);
      TrailingSpace(s, Trim(s), i, j);
    } else {
      i, j := 0, |s|;
      assert s == s[0..|s|] && s[..0] == "" && s[|s|..] == "";
    }
  }

  lemma LeadingSpace(s: string, t: string, i: int, j: int)
    requires s != "" && s[0] == ' ' && StrippedAt(s[1..], t, i, j)
    ensures StrippedAt(s, t, i + 1, j + 1)
  {
    assert s[1..][i..j] == s[i + 1..j + 1];
    assert s[..i + 1] == [' '] + s[1..][..i];
    assert s[1..][j..] == s[j + 1..];
  }

  lemma TrailingSpace(s: string, t: string, i: int, j: int)
    requires s != "" && s[|s| - 1] == ' ' && StrippedAt(s[..|s| - 1], t, i, j)
    ensures StrippedAt(s, t, i, j)
  {
    var front := s[..|s| - 1];
    assert front[i..j] == s[i..j] && front[..i] == s[..i] && s[j..] == front[j..] + [' '];
  }

  /** Nothing is left of a text exactly when it is blank. */
  lemma TrimsToNothing(s: string)
    ensures Trim(s) == "" <==> Blank(s)
  {
    var i, j := TrimStrips(s);
    if i == j {
      assert s == s[..i] + s[j..];
    } else {
      assert s[i] == Trim(s)[0] != ' ';
    }
  }

  /** Who may write: five kinds of actors, about an action and a kind of resource that are not blank. */
  lemma WhoMayWrite(event: Event)
    ensures ValidEvent(event) <==>
      && (event.actorType == "USER" || event.actorType == "MCP" || event.actorType == "SYSTEM"
          || event.actorType == "TELEGRAM" || event.actorType == "ADMIN")
      && !Blank(event.action) && !Blank(event.resourceType)
  {
    TrimsToNothing(event.action);
    TrimsToNothing(event.resourceType);
  }

  /** Whose chain a row is on: its account's, and the global one without an account. */
  ghost predicate OnChainOf(account: Option<string>, key: string) {
    if account.None? || Blank(account.value) then key == "global"
    else key != "" && exists i, j :: StrippedAt(account.value, key, i, j)
  }

  lemma KeyIsAccount(event: Event)
    ensures OnChainOf(event.account, ChainKey(event))
  {
    if event.account.Some? {
      var i, j := TrimStrips(event.account.value);
      TrimsToNothing(event.account.value);
    }
  }

  /** What a nullable column holds of a text that may be missing. */
  predicate CastTo(column: string -> Option<string>, text: Option<string>, stored: Option<string>) {
    if text.None? then stored.None? else stored.Some? && column(text.value) == stored
  }

  /** A text that is stored as it is, and as nothing if it is empty. */
  predicate SameText(text: string, stored: Option<string>) {
    if text == "" then stored.None? else stored == Some(text)
  }

  /** The row an event leaves: its texts, each in its column, under the time given, on its account's chain. */
  ghost predicate LeavesRow(columns: Columns, event: Event, now: nat, row: Row) {
    && row.stored.micros == Micros(event, now) && OnChainOf(event.account, row.key)
    && row.stored.actorType == event.actorType && SameText(event.actorId, row.stored.actorId)
    && row.stored.action == event.action && row.stored.resourceType == event.resourceType
    && SameText(event.resourceId, row.stored.resourceId) && SameText(event.agent, row.stored.agent)
    && CastTo(columns.uuid, event.account, row.stored.account)
    && CastTo(columns.uuid, event.requestId, row.stored.requestId)
    && CastTo(columns.inet, if event.ip == "" then None else Some(event.ip), row.stored.ip)
    && columns.json(event.metadata) == Some(row.stored.metadata)
  }

  // ---------------------------------------------------------------- every run

  /** The event is one that a writer began with, its time cut to microseconds. */
  ghost predicate Began(actions: seq<Action>, n: nat, e: Event) {
    exists j :: 0 <= j < n && j < |actions| && actions[j].Begin?
                && e == actions[j].event.(createdAt := Micros(actions[j].event, actions[j].now) * 1000)
  }

  ghost predicate RowsBegan(s: State, actions: seq<Action>, n: nat) {
    && (forall w :: 0 <= w < |s.writers| ==> Began(actions, n, s.writers[w].event))
    && (forall w :: 0 <= w < |s.writers| && s.writers[w].phase.Inserted? ==>
          var row := s.writers[w].phase.row;
          row.written == s.writers[w].event && row.key == ChainKey(row.written))
    && (forall id :: id in s.table ==>
          Began(actions, n, s.table[id].written) && s.table[id].key == ChainKey(s.table[id].written))
  }

  lemma CutToMicros(event: Event, now: nat)
    ensures Dated(event, now) == event.(createdAt := Micros(event, now) * 1000)
  {
  }

  lemma LongerRowsBegan(s: State, actions: seq<Action>, n: nat)
    requires RowsBegan(s, actions, n)
    ensures RowsBegan(s, actions, n + 1)
  {
  }

  lemma BeginKeepsRowsBegan(scheme: Scheme, lock: string -> int, s: State, actions: seq<Action>, n: nat)
    requires n < |actions| && RowsBegan(s, actions, n + 1) && Allowed(lock, s, actions[n]) && actions[n].Begin?
    ensures RowsBegan(Apply(scheme, lock, s, actions[n]), actions, n + 1)
  {
    CutToMicros(actions[n].event, actions[n].now);
    assert Began(actions, n + 1, Dated(actions[n].event, actions[n].now));
  }

  lemma InsertKeepsRowsBegan(scheme: Scheme, lock: string -> int, s: State, actions: seq<Action>, n: nat)
    requires n < |actions| && RowsBegan(s, actions, n + 1) && Allowed(lock, s, actions[n]) && actions[n].Insert?
    ensures RowsBegan(Apply(scheme, lock, s, actions[n]), actions, n + 1)
  {
  }

  lemma StepKeepsRowsBegan(scheme: Scheme, lock: string -> int, s: State, actions: seq<Action>, n: nat)
    requires n < |actions| && RowsBegan(s, actions, n) && Allowed(lock, s, actions[n])
    ensures RowsBegan(Apply(scheme, lock, s, actions[n]), actions, n + 1)
  {
    LongerRowsBegan(s, actions, n);
    match actions[n]
    case Begin(_, _) => BeginKeepsRowsBegan(scheme, lock, s, actions, n);
    case Insert(_) => InsertKeepsRowsBegan(scheme, lock, s, actions, n);
    case _ =>
  }

  lemma {:induction false} RunKeepsRowsBegan(scheme: Scheme, lock: string -> int, states: seq<State>, actions: seq<Action>, i: nat)
    requires Run(scheme, lock, states, actions) && i < |states|
    ensures RowsBegan(states[i], actions, i)
  {
    if i > 0 {
      RunKeepsRowsBegan(scheme, lock, states, actions, i - 1);
      StepKeepsRowsBegan(scheme, lock, states[i - 1], actions, i - 1);
    }
  }

  lemma {:induction false} ChainRowIsCommitted(table: map<nat, Row>, key: string, n: nat, row: Row) returns (id: nat)
    requires row in Chain(table, key, n)
    ensures id in table && table[id] == row
  {
    if row in Chain(table, key, n - 1) {
      id := ChainRowIsCommitted(table, key, n - 1, row);
    } else {
      id := n - 1;
    }
  }

  // ---------------------------------------------------------------- main results

  /** A row with this event written, its time cut, is what the event leaves. */
  lemma CutEventLeaves(columns: Columns, event: Event, now: nat, row: Row)
    requires row.written == event.(createdAt := Micros(event, now) * 1000)
    requires Store(columns, row.written) == Some(row.stored) && row.key == ChainKey(row.written)
    ensures LeavesRow(columns, event, now, row)
  {
    KeyIsAccount(row.written);
  }

  /** Every committed row is what some writer's event leaves: its texts, its chain, and its time in microseconds. */
  lemma CommittedRowIsAnEvents(scheme: Scheme, lock: string -> int, states: seq<State>, actions: seq<Action>, i: nat, id: nat)
    requires Run(scheme, lock, states, actions) && i < |states| && id in states[i].table
    ensures exists j :: 0 <= j < i && actions[j].Begin?
                        && LeavesRow(scheme.columns, actions[j].event, actions[j].now, states[i].table[id])
  {
    RunKeepsInv(scheme, lock, states, actions, i);
    RunKeepsRowsBegan(scheme, lock, states, actions, i);
    CommittedAt(scheme, states[i], actions, i, id);
  }

  lemma CommittedAt(scheme: Scheme, s: State, actions: seq<Action>, n: nat, id: nat)
    requires RowsBegan(s, actions, n) && AllLinked(scheme, s) && id in s.table
    ensures exists j :: 0 <= j < n && j < |actions| && actions[j].Begin?
                        && LeavesRow(scheme.columns, actions[j].event, actions[j].now, s.table[id])
  {
    var row := s.table[id];
    var j :| 0 <= j < n && j < |actions| && actions[j].Begin?
             && row.written == actions[j].event.(createdAt := Micros(actions[j].event, actions[j].now) * 1000);
    CutEventLeaves(scheme.columns, actions[j].event, actions[j].now, row);
  }

  /** The columns give the event's texts back as they were. */
  predicate TextsKept(columns: Columns, event: Event) {
    && (event.account.Some? ==> Kept(columns.uuid, event.account.value))
    && (event.requestId.Some? ==> Kept(columns.uuid, event.requestId.value))
    && (event.ip != "" ==> Kept(columns.inet, event.ip))
    && Kept(columns.json, event.metadata)
  }

  ghost predicate AllTextsKept(columns: Columns, actions: seq<Action>) {
    forall j :: 0 <= j < |actions| && actions[j].Begin? ==> TextsKept(columns, actions[j].event)
  }

  lemma BeganIsCanonical(scheme: Scheme, actions: seq<Action>, n: nat, row: Row)
    requires AllTextsKept(scheme.columns, actions) && Began(actions, n, row.written)
    requires Store(scheme.columns, row.written) == Some(row.stored)
    ensures Canonical(row)
  {
    RestoredIffCanonical(scheme.columns, row.written);
  }

  /**
   If the columns keep the texts of all events, whatever times were given, every key's chain is accepted in every
   state of every run.
   */
  lemma KeptTextsAreAccepted(scheme: Scheme, lock: string -> int, states: seq<State>, actions: seq<Action>, i: nat, key: string)
    requires Run(scheme, lock, states, actions) && i < |states| && AllTextsKept(scheme.columns, actions)
    ensures Accepts(scheme, Chain(states[i].table, key, states[i].nextId))
  {
    RunKeepsInv(scheme, lock, states, actions, i);
    RunKeepsRowsBegan(scheme, lock, states, actions, i);
    var rows := Chain(states[i].table, key, states[i].nextId);
    forall row | row in rows ensures Canonical(row) {
      var id := ChainRowIsCommitted(states[i].table, key, states[i].nextId, row);
      BeganIsCanonical(scheme, actions, i, row);
    }
    ConcurrentWritersLeaveChains(scheme, lock, states, actions, i, key);
  }
}
