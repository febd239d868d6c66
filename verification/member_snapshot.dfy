/**
 The member list of one chat, refreshed page by page. Every sighting stamps its row with the time of the
 statement; after the last page one sweep deletes the rows not stamped since the snapshot started. Peer kinds
 are taken trimmed and in lower case.
 */
module MemberSnapshot {
  import opened Common

  datatype Peer = Peer(kind: string, id: int)

  datatype Member = Member(deleted: bool, deletedAt: Option<int>, lastSeen: int, role: Option<string>)

  type Rows = map<Peer, Member>

  /** One member as Telegram lists it. */
  datatype Item = Item(kind: string, id: int, role: Option<string>)

  /** The row a listed member belongs to: an empty kind is a user; anything else unknown is refused. */
  function PeerOf(item: Item): Option<Peer> {
    var kind := if item.kind == "" then "user" else item.kind;
    if item.id == 0 || (kind != "user" && kind != "chat") then None else Some(Peer(kind, item.id))
  }

  function AfterUpsert(rows: Rows, peer: Peer, role: Option<string>, now: int): Rows {
    rows[peer := Member(false, None, now, role)]
  }

  /** A row deleted at this time, unless it says when it was deleted before. */
  function Gone(m: Member, now: int): (gone: Member)
    ensures gone.deleted && gone.lastSeen == m.lastSeen && gone.role == m.role
    ensures m.deletedAt.Some? ==> gone.deletedAt == m.deletedAt
    ensures m.deletedAt.None? ==> gone.deletedAt == Some(now)
  {
    Member(true, if m.deletedAt.Some? then m.deletedAt else Some(now), m.lastSeen, m.role)
  }

  predicate Stale(m: Member, started: int) {
    !m.deleted && m.lastSeen < started
  }

  /** The sweep: active rows not seen since the start. */
  function AfterSweep(rows: Rows, started: int, now: int): Rows {
    map p | p in rows :: if Stale(rows[p], started) then Gone(rows[p], now) else rows[p]
  }

  /** The direct form: active rows whose key is not in the list. Keys of unknown kind name nobody. */
  predicate Missing(peer: Peer, m: Member, seen: set<Peer>) {
    !m.deleted && (peer.kind == "user" || peer.kind == "chat") && peer !in seen
  }

  function AfterMissing(rows: Rows, seen: set<Peer>, now: int): Rows {
    map p | p in rows :: if Missing(p, rows[p], seen) then Gone(rows[p], now) else rows[p]
  }

  /** The view active_chat_members. */
  function Active(rows: Rows): set<Peer> {
    set p | p in rows && !rows[p].deleted
  }

  // ---------------------------------------------------------------- the paged snapshot, as a function

  /** What the session answers: a failure, or a page and the cursor of the next one. */
  datatype Answer = Failed | Page(items: seq<Item>, next: string)

  /** The table after some statements, and whether they all went through. */
  datatype Outcome = Outcome(rows: Rows, ok: bool)

  function AfterPage(rows: Rows, items: seq<Item>, clock: nat -> int, tick: nat): Outcome
    decreases |items|
  {
    if items == [] then Outcome(rows, true)
    else
      var peer := PeerOf(items[0]);
      if peer.None? then Outcome(rows, false)
      else AfterPage(AfterUpsert(rows, peer.value, items[0].role, clock(tick)), items[1..], clock, tick + 1)
  }

  /** All the pages, in the order they were answered; running out of answers is the request's deadline. */
  function AfterPages(rows: Rows, answers: seq<Answer>, cursor: string, clock: nat -> int, tick: nat): Outcome
    decreases |answers|
  {
    if answers == [] || answers[0].Failed? then Outcome(rows, false)
    else
      var stored := AfterPage(rows, answers[0].items, clock, tick);
      if !stored.ok || answers[0].next == "" then stored
      else if answers[0].next == cursor then Outcome(stored.rows, false)
      else AfterPages(stored.rows, answers[1..], answers[0].next, clock, tick + |answers[0].items|)
  }

  function AfterSnapshot(rows: Rows, answers: seq<Answer>, clock: nat -> int, started: int, swept: int): Outcome {
    var stored := AfterPages(rows, answers, "", clock, 0);
    if stored.ok then Outcome(AfterSweep(stored.rows, started, swept), true) else stored
  }

  function PeersOn(items: seq<Item>): set<Peer> {
    set item | item in items && PeerOf(item).Some? :: PeerOf(item).value
  }

  /** The peers of every page that was read. */
  function Seen(answers: seq<Answer>, cursor: string): set<Peer> {
    if answers == [] || answers[0].Failed? then {}
    else if answers[0].next == "" || answers[0].next == cursor then PeersOn(answers[0].items)
    else PeersOn(answers[0].items) + Seen(answers[1..], answers[0].next)
  }

  // ---------------------------------------------------------------- the statements, on the table

  class MemberTable {
    var rows: Rows

    constructor ()
      ensures rows == map[]
    {
      rows := map[];
    }

    /** False is the validation error; nothing is written then. */
    method Upsert(item: Item, now: int) returns (ok: bool)
      modifies this
      ensures ok <==> PeerOf(item).Some?
      ensures rows == if ok then AfterUpsert(old(rows), PeerOf(item).value, item.role, now) else old(rows)
      ensures ok ==> var p := Peer(if item.kind == "" then "user" else item.kind, item.id);
                     p in rows && rows[p] == Member(false, None, now, item.role)
    {
      var kind := item.kind;
      if kind == "" {
        kind := "user";
      }
      if item.id == 0 || (kind != "user" && kind != "chat") {
        return false;
      }
      rows := rows[Peer(kind, item.id) := Member(false, None, now, item.role)];
      return true;
    }

    method MarkNotSeenSince(started: int, now: int) returns (removed: nat)
      modifies this
      ensures rows == AfterSweep(old(rows), started, now)
      ensures forall p :: p in old(rows) ==>
                p in rows && rows[p] == if old(rows)[p].deleted || old(rows)[p].lastSeen >= started then old(rows)[p]
                                        else Gone(old(rows)[p], now)
      ensures removed == |Active(old(rows)) - Active(rows)|
    {
      var gone := set p | p in rows && !rows[p].deleted && rows[p].lastSeen < started;
      rows := map p | p in rows :: if p in gone then Gone(rows[p], now) else rows[p];
      removed := |gone|;
      assert Active(old(rows)) - Active(rows) == gone;
    }

    method MarkMissingDeleted(seen: seq<Peer>, now: int)
      modifies this
      ensures rows == AfterMissing(old(rows), Elements(seen), now)
      ensures forall p :: p in old(rows) ==>
                p in rows && rows[p] == if old(rows)[p].deleted || p.kind !in {"user", "chat"} || p in seen then old(rows)[p]
                                        else Gone(old(rows)[p], now)
    {
      var users: set<int>, chats: set<int> := {}, {};
      var i := 0;
      while i < |seen|
        invariant 0 <= i <= |seen|
        invariant rows == old(rows)
        invariant forall id :: id in users <==> Peer("user", id) in seen[..i]
        invariant forall id :: id in chats <==> Peer("chat", id) in seen[..i]
      {
        if seen[i].kind == "user" {
          users := users + {seen[i].id};
        } else if seen[i].kind == "chat" {
          chats := chats + {seen[i].id};
        }
        assert seen[..i + 1] == seen[..i] + [seen[i]];
        i := i + 1;
      }
      assert seen[..i] == seen;
      rows := map p | p in rows ::
        if !rows[p].deleted && ((p.kind == "user" && p.id !in users) || (p.kind == "chat" && p.id !in chats))
        then Gone(rows[p], now) else rows[p];
    }

    method StorePage(items: seq<Item>, clock: nat -> int, tick: nat) returns (ok: bool)
      modifies this
      ensures Outcome(rows, ok) == AfterPage(old(rows), items, clock, tick)
    {
      var i := 0;
      while i < |items|
        invariant 0 <= i <= |items|
        invariant AfterPage(rows, items[i..], clock, tick + i) == AfterPage(old(rows), items, clock, tick)
      {
        assert items[i..][0] == items[i] && items[i..][1..] == items[i + 1..];
        var stored := Upsert(items[i], clock(tick + i));
        if !stored {
          return false;
        }
        i := i + 1;
      }
      return true;
    }

    /** The members branch of an on-demand refresh. */
    method Snapshot(answers: seq<Answer>, clock: nat -> int, started: int, swept: int) returns (ok: bool)
      modifies this
      ensures Outcome(rows, ok) == AfterSnapshot(old(rows), answers, clock, started, swept)
    {
      var cursor, call := "", 0;
      var tick: nat := 0;
      while call < |answers|
        invariant 0 <= call <= |answers|
        invariant AfterPages(rows, answers[call..], cursor, clock, tick) == AfterPages(old(rows), answers, "", clock, 0)
      {
        var page := answers[call];
        assert answers[call..][0] == page && answers[call..][1..] == answers[call + 1..];
        if page.Failed? {
          return false;
        }
        var stored := StorePage(page.items, clock, tick);
        if !stored {
          return false;
        }
        if page.next == "" {
          var removed := MarkNotSeenSince(started, swept);
          return true;
        }
        if page.next == cursor {
          return false;
        }
        cursor, tick, call := page.next, tick + |page.items|, call + 1;
      }
      return false;
    }
  }

  // ---------------------------------------------------------------- main results

  /**
   The sweep by time is the set difference exactly when, at the moment of the sweep, the active rows last seen
   before the start are the ones on no page.
   */
  lemma SweepIsDifference(rows: Rows, seen: set<Peer>, started: int, now: int)
    requires forall p :: p in rows ==> p.kind == "user" || p.kind == "chat"
    ensures AfterSweep(rows, started, now) == AfterMissing(rows, seen, now)
            <==> forall p :: p in rows && !rows[p].deleted ==> (rows[p].lastSeen < started <==> p !in seen)
  {
    var a, b := AfterSweep(rows, started, now), AfterMissing(rows, seen, now);
    if a == b {
      forall p | p in rows && !rows[p].deleted ensures rows[p].lastSeen < started <==> p !in seen {
        assert a[p].deleted == b[p].deleted;
      }
    }
  }

  /** The statement at which a page listed the peer last. */
  function LastListed(items: seq<Item>, tick: nat, peer: Peer): Option<nat>
    decreases |items|
  {
    if items == [] then None
    else
      var later := LastListed(items[1..], tick + 1, peer);
      if later.Some? then later else if PeerOf(items[0]) == Some(peer) then Some(tick) else None
  }

  /** The statement at which any page that was read listed the peer last. */
  function LastListing(answers: seq<Answer>, cursor: string, tick: nat, peer: Peer): Option<nat>
    decreases |answers|
  {
    if answers == [] || answers[0].Failed? then None
    else
      var items, next := answers[0].items, answers[0].next;
      var later := if next == "" || next == cursor then None
                   else LastListing(answers[1..], next, tick + |items|, peer);
      if later.Some? then later else LastListed(items, tick, peer)
  }

  lemma {:induction false} ListedIffOn(items: seq<Item>, tick: nat, peer: Peer)
    ensures LastListed(items, tick, peer).Some? <==> peer in PeersOn(items)
    decreases |items|
  {
    if items != [] {
      ListedIffOn(items[1..], tick + 1, peer);
      assert items == [items[0]] + items[1..];
      assert forall item :: item in items <==> item == items[0] || item in items[1..];
    }
  }

  lemma {:induction false} ListedIffSeen(answers: seq<Answer>, cursor: string, tick: nat, peer: Peer)
    ensures LastListing(answers, cursor, tick, peer).Some? <==> peer in Seen(answers, cursor)
    decreases |answers|
  {
    if answers != [] && answers[0].Page? {
      ListedIffOn(answers[0].items, tick, peer);
      if answers[0].next != "" && answers[0].next != cursor {
        ListedIffSeen(answers[1..], answers[0].next, tick + |answers[0].items|, peer);
      }
    }
  }

  /** A listed peer's row is active and stamped by its last listing; any other row is as it was. */
  ghost predicate Stamped(before: Rows, rows: Rows, peer: Peer, last: Option<nat>, clock: nat -> int) {
    match last
    case None => (peer in rows <==> peer in before) && (peer in rows ==> rows[peer] == before[peer])
    case Some(tick) => peer in rows && !rows[peer].deleted && rows[peer].lastSeen == clock(tick)
  }

  lemma {:induction false} PageStamps(rows: Rows, items: seq<Item>, clock: nat -> int, tick: nat, peer: Peer)
    requires AfterPage(rows, items, clock, tick).ok
    ensures Stamped(rows, AfterPage(rows, items, clock, tick).rows, peer, LastListed(items, tick, peer), clock)
    decreases |items|
  {
    if items != [] {
      var next := AfterUpsert(rows, PeerOf(items[0]).value, items[0].role, clock(tick));
      PageStamps(next, items[1..], clock, tick + 1, peer);
    }
  }

  lemma {:induction false} PagesStamp(rows: Rows, answers: seq<Answer>, cursor: string, clock: nat -> int, tick: nat, peer: Peer)
    requires AfterPages(rows, answers, cursor, clock, tick).ok
    ensures Stamped(rows, AfterPages(rows, answers, cursor, clock, tick).rows, peer,
                    LastListing(answers, cursor, tick, peer), clock)
    decreases |answers|
  {
    var items := answers[0].items;
    PageStamps(rows, items, clock, tick, peer);
    if answers[0].next != "" {
      PagesStamp(AfterPage(rows, items, clock, tick).rows, answers[1..], answers[0].next, clock, tick + |items|, peer);
    }
  }

  /** Active rows that no page lists were last seen before the start, and each listed peer's last stamp was not. */
  ghost predicate InTime(rows: Rows, answers: seq<Answer>, clock: nat -> int, started: int) {
    && (forall p :: p in rows && !rows[p].deleted && p !in Seen(answers, "") ==> rows[p].lastSeen < started)
    && (forall p :: p in Seen(answers, "") ==> StampedSince(answers, clock, started, p))
  }

  predicate StampedSince(answers: seq<Answer>, clock: nat -> int, started: int, peer: Peer) {
    var last := LastListing(answers, "", 0, peer);
    last.Some? && clock(last.value) >= started
  }

  /** What the table holds of one peer when the sweep begins. */
  lemma BeforeSweep(rows: Rows, answers: seq<Answer>, clock: nat -> int, peer: Peer)
    requires AfterPages(rows, answers, "", clock, 0).ok
    ensures var stored := AfterPages(rows, answers, "", clock, 0).rows;
            if peer in Seen(answers, "")
            then peer in stored && !stored[peer].deleted && LastListing(answers, "", 0, peer).Some?
                 && stored[peer].lastSeen == clock(LastListing(answers, "", 0, peer).value)
            else (peer in stored <==> peer in rows) && (peer in stored ==> stored[peer] == rows[peer])
  {
    PagesStamp(rows, answers, "", clock, 0, peer);
    ListedIffSeen(answers, "", 0, peer);
  }

  /**
   A snapshot that reads its last page leaves exactly the peers of its pages active if and only if the active rows
   on no page were last seen before the start and every listed peer's last stamp was not; then, and only then, it
   leaves the table the set difference over those peers would leave.
   */
  lemma SnapshotIsExactIff(rows: Rows, answers: seq<Answer>, clock: nat -> int, started: int, swept: int)
    requires forall p :: p in rows ==> p.kind == "user" || p.kind == "chat"
    requires AfterSnapshot(rows, answers, clock, started, swept).ok
    ensures Active(AfterSnapshot(rows, answers, clock, started, swept).rows) == Seen(answers, "")
            <==> InTime(rows, answers, clock, started)
    ensures AfterSnapshot(rows, answers, clock, started, swept).rows
              == AfterMissing(AfterPages(rows, answers, "", clock, 0).rows, Seen(answers, ""), swept)
            <==> InTime(rows, answers, clock, started)
  {
    var seen := Seen(answers, "");
    var stored := AfterPages(rows, answers, "", clock, 0).rows;
    var out := AfterSnapshot(rows, answers, clock, started, swept).rows;
    SeenAreUsersOrChats(answers, "");
    forall p
      ensures p in Active(out) <==> p in stored && !stored[p].deleted && stored[p].lastSeen >= started
      ensures p in seen ==> (p in Active(out) <==> StampedSince(answers, clock, started, p))
      ensures p !in seen ==> (p in Active(out) <==> p in rows && !rows[p].deleted && rows[p].lastSeen >= started)
      ensures p in stored ==> p.kind == "user" || p.kind == "chat"
      ensures p in stored && !stored[p].deleted ==> (stored[p].lastSeen < started <==> p !in Active(out))
      ensures p in seen ==> p in stored && !stored[p].deleted
    {
      BeforeSweep(rows, answers, clock, p);
    }
    SweepIsDifference(stored, seen, started, swept);
  }

  /** With a clock not behind the start and no earlier sighting at or after it, a complete snapshot is exact. */
  lemma CompleteSnapshotIsExact(rows: Rows, answers: seq<Answer>, clock: nat -> int, started: int, swept: int)
    requires forall p :: p in rows ==> p.kind == "user" || p.kind == "chat"
    requires forall p :: p in rows && !rows[p].deleted ==> rows[p].lastSeen < started
    requires forall k :: clock(k) >= started
    requires AfterSnapshot(rows, answers, clock, started, swept).ok
    ensures Active(AfterSnapshot(rows, answers, clock, started, swept).rows) == Seen(answers, "")
    ensures AfterSnapshot(rows, answers, clock, started, swept).rows
            == AfterMissing(AfterPages(rows, answers, "", clock, 0).rows, Seen(answers, ""), swept)
  {
    forall p | p in Seen(answers, "") ensures StampedSince(answers, clock, started, p) {
      ListedIffSeen(answers, "", 0, p);
    }
    SnapshotIsExactIff(rows, answers, clock, started, swept);
  }

  lemma {:induction false} SeenAreUsersOrChats(answers: seq<Answer>, cursor: string)
    ensures forall p :: p in Seen(answers, cursor) ==> p.kind == "user" || p.kind == "chat"
    decreases |answers|
  {
    if answers != [] && answers[0].Page? && answers[0].next != "" && answers[0].next != cursor {
      SeenAreUsersOrChats(answers[1..], answers[0].next);
    }
  }

  lemma {:induction false} PageDeletesNobody(rows: Rows, items: seq<Item>, clock: nat -> int, tick: nat)
    ensures Active(rows) <= Active(AfterPage(rows, items, clock, tick).rows)
    decreases |items|
  {
    if items != [] && PeerOf(items[0]).Some? {
      PageDeletesNobody(AfterUpsert(rows, PeerOf(items[0]).value, items[0].role, clock(tick)), items[1..], clock, tick + 1);
    }
  }

  /** A snapshot cut short, by a failure, a refused member or a cursor that stands still, deletes nobody. */
  lemma {:induction false} FailedPagesDeleteNobody(rows: Rows, answers: seq<Answer>, cursor: string,
                                                   clock: nat -> int, tick: nat)
    ensures Active(rows) <= Active(AfterPages(rows, answers, cursor, clock, tick).rows)
    decreases |answers|
  {
    if answers != [] && answers[0].Page? {
      PageDeletesNobody(rows, answers[0].items, clock, tick);
      var stored := AfterPage(rows, answers[0].items, clock, tick);
      if stored.ok && answers[0].next != "" && answers[0].next != cursor {
        FailedPagesDeleteNobody(stored.rows, answers[1..], answers[0].next, clock, tick + |answers[0].items|);
      }
    }
  }

  lemma IncompleteSnapshotDeletesNobody(rows: Rows, answers: seq<Answer>, clock: nat -> int, started: int, swept: int)
    requires !AfterSnapshot(rows, answers, clock, started, swept).ok
    ensures Active(rows) <= Active(AfterSnapshot(rows, answers, clock, started, swept).rows)
  {
    FailedPagesDeleteNobody(rows, answers, "", clock, 0);
  }

  /** A peer the table takes: with an id, and of a kind it knows. */
  predicate AllKnown(items: seq<Item>) {
    forall item :: item in items ==> item.id != 0 && item.kind in {"", "user", "chat"}
  }

  /** The session's answer to this call is a page of known members, with another cursor than the one asked with. */
  predicate GoesOn(answers: seq<Answer>, cursor: string, i: nat)
    requires i < |answers|
  {
    && answers[i].Page? && AllKnown(answers[i].items) && answers[i].next != ""
    && (if i == 0 then answers[0].next != cursor else answers[i - 1].Page? ==> answers[i].next != answers[i - 1].next)
  }

  /** The page that ends the snapshot: it has no cursor, and all before it go on. */
  ghost predicate EndsAt(answers: seq<Answer>, cursor: string, k: nat) {
    && k < |answers| && answers[k].Page? && AllKnown(answers[k].items) && answers[k].next == ""
    && forall i :: 0 <= i < k ==> GoesOn(answers, cursor, i)
  }

  lemma {:induction false} PageCompletesIff(rows: Rows, items: seq<Item>, clock: nat -> int, tick: nat)
    ensures AfterPage(rows, items, clock, tick).ok <==> AllKnown(items)
    decreases |items|
  {
    if items != [] {
      assert items == [items[0]] + items[1..];
      assert items[0] in items;
      RefusedIff(items[0]);
      if PeerOf(items[0]).Some? {
        PageCompletesIff(AfterUpsert(rows, PeerOf(items[0]).value, items[0].role, clock(tick)), items[1..], clock, tick + 1);
      }
    }
  }

  lemma EndsLater(answers: seq<Answer>, cursor: string, k: nat)
    requires answers != [] && GoesOn(answers, cursor, 0)
    ensures EndsAt(answers[1..], answers[0].next, k) <==> EndsAt(answers, cursor, k + 1)
  {
    forall i | 0 <= i < |answers| - 1 ensures GoesOn(answers[1..], answers[0].next, i) <==> GoesOn(answers, cursor, i + 1) {
    }
    if EndsAt(answers[1..], answers[0].next, k) {
      forall i | 0 <= i < k + 1 ensures GoesOn(answers, cursor, i) {
        assert i > 0 ==> GoesOn(answers[1..], answers[0].next, i - 1);
      }
    } else if EndsAt(answers, cursor, k + 1) {
      forall i | 0 <= i < k ensures GoesOn(answers[1..], answers[0].next, i) {
        assert GoesOn(answers, cursor, i + 1);
      }
    }
  }

  lemma {:induction false} PagesCompleteIff(rows: Rows, answers: seq<Answer>, cursor: string, clock: nat -> int, tick: nat)
    ensures AfterPages(rows, answers, cursor, clock, tick).ok <==> exists k: nat :: EndsAt(answers, cursor, k)
    decreases |answers|
  {
    if answers != [] && answers[0].Page? {
      var items, next := answers[0].items, answers[0].next;
      PageCompletesIff(rows, items, clock, tick);
      if AllKnown(items) && next == "" {
        assert EndsAt(answers, cursor, 0);
      } else if AllKnown(items) && next != cursor {
        PagesCompleteIff(AfterPage(rows, items, clock, tick).rows, answers[1..], next, clock, tick + |items|);
        forall k: nat ensures EndsAt(answers[1..], next, k) <==> EndsAt(answers, cursor, k + 1) {
          EndsLater(answers, cursor, k);
        }
        if k: nat :| EndsAt(answers[1..], next, k) {
          assert EndsAt(answers, cursor, k + 1);
        } else if k: nat :| EndsAt(answers, cursor, k) {
          assert k > 0 && EndsAt(answers[1..], next, k - 1);
        }
      }
    }
    forall k: nat | EndsAt(answers, cursor, k) && k > 0 ensures GoesOn(answers, cursor, 0) {
    }
  }

  /**
   A snapshot goes through, sweep and all, if and only if the session's answers lead to a last page: pages of known
   members, none of whose cursors is the one it was asked with, up to one without a cursor.
   */
  lemma CompletesIff(rows: Rows, answers: seq<Answer>, clock: nat -> int, started: int, swept: int)
    ensures AfterSnapshot(rows, answers, clock, started, swept).ok <==> exists k: nat :: EndsAt(answers, "", k)
  {
    PagesCompleteIff(rows, answers, "", clock, 0);
  }

  /** A sighting in the very microsecond the snapshot starts survives it, although no page lists the peer. */
  lemma SameMicrosecondSurvives()
    ensures var rows: Rows := map[Peer("user", 7) := Member(false, None, 100, None)];
            var out := AfterSnapshot(rows, [Page([], "")], (k: nat) => 100, 100, 101);
            out.ok && Seen([Page([], "")], "") == {} && Peer("user", 7) in Active(out.rows)
  {
  }

  /** A database clock behind the worker's deletes a peer its own page listed. */
  lemma SlowClockDeletesSeen()
    ensures var page := Page([Item("user", 7, None)], "");
            var out := AfterSnapshot(map[], [page], (k: nat) => 99, 100, 101);
            out.ok && Peer("user", 7) in Seen([page], "") && Active(out.rows) == {}
  {
    var item := Item("user", 7, None);
    assert PeerOf(item) == Some(Peer("user", 7));
    assert [item][1..] == [];
    assert item in [item];
  }

  /** An empty kind is stored as a user, but the direct form does not recognise the same key. */
  lemma EmptyKindIsNotRecognised(id: int, now: int, later: int)
    requires id != 0
    ensures var rows := AfterUpsert(map[], PeerOf(Item("", id, None)).value, None, now);
            Active(rows) == {Peer("user", id)} && Active(AfterMissing(rows, {Peer("", id)}, later)) == {}
  {
  }

  /** Who is refused: a peer without an id, and one of a kind that is neither a user's nor a chat's. */
  lemma RefusedIff(item: Item)
    ensures PeerOf(item).None? <==> item.id == 0 || item.kind !in {"", "user", "chat"}
    ensures PeerOf(item).Some? ==>
              PeerOf(item).value == Peer(if item.kind == "chat" then "chat" else "user", item.id)
  {
  }
}
