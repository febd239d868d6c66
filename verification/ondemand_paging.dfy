/**
 Reading one chat's messages on demand, page by page, and the keyset query over a mirrored chat.

 `history` lists the chat's message ids newest first; it does not change while it is read. Every native
 call is answered by the oracle `native`, given the cursor, the requested count and the number of the call.
 */
module OnDemandPaging {
  import opened Common
  import opened TelegramHistory
  import opened MessageListing

  // ---------------------------------------------------------------- the native source

  /** Answers are gap-free descending prefixes, possibly short, possibly starting with the cursor's message. */
  ghost predicate Faithful(history: seq<int>, native: (int, nat, nat) -> seq<int>) {
    && Descending(history) && 0 !in history
    && forall cursor, count, call :: RawPage(Elements(history), cursor, count, native(cursor, count, call))
  }

  /** Asked for enough to hold the cursor's message and one more, an answer gets past the cursor if it can. */
  ghost predicate Advancing(history: seq<int>, native: (int, nat, nat) -> seq<int>) {
    forall cursor, count, call :: (if cursor == 0 then count >= 1 else count >= 2) ==>
      Advances(Elements(history), cursor, native(cursor, count, call))
  }

  /** Asking for a single message after the cursor's own message can never get past it. */
  lemma OneIsNotEnough(history: seq<int>, cursor: int, raw: seq<int>)
    requires cursor != 0 && cursor in history && RawPage(Elements(history), cursor, 1, raw)
    ensures forall m :: m !in OnlyBefore(raw, cursor)
  {
    OnlyBeforeKeeps(raw, cursor);
    assert cursor in Elements(history);
    assert raw != [] ==> raw[|raw| - 1] == raw[0] && raw[0] in raw;
    assert forall m :: m in raw ==> m == raw[0];
    assert raw != [] ==> cursor in raw;
  }

  /** Messages strictly before a cursor, newest first. */
  function Rest(history: seq<int>, cursor: int): seq<int> {
    OnlyBefore(history, cursor)
  }

  function Take(s: seq<int>, n: nat): seq<int> {
    if |s| <= n then s else s[..n]
  }

  /** A descending selection that skips nothing above its last element is a prefix. */
  lemma {:induction false} ClosedIsPrefix(p: seq<int>, r: seq<int>)
    requires Descending(p) && Descending(r)
    requires forall m :: m in p ==> m in r
    requires forall m :: m in r && p != [] && p[|p| - 1] <= m ==> m in p
    ensures p <= r
  {
    if p != [] {
      assert p[0] in r && p[|p| - 1] in p;
      assert r[0] in p;
      assert p[0] == r[0];
      forall m | m in p[1..] ensures m in r[1..] {
        assert m in r && m != r[0];
      }
      forall m | m in r[1..] && p[1..] != [] && p[1..][|p| - 2] <= m ensures m in p[1..] {
        assert m in p && m != p[0];
      }
      ClosedIsPrefix(p[1..], r[1..]);
    }
  }

  lemma RestOfRest(history: seq<int>, c: int, d: int)
    requires Descending(history) && d != 0 && Before(d, c)
    ensures Rest(Rest(history, c), d) == Rest(history, d)
  {
    OnlyBeforeKeeps(history, c);
    OnlyBeforeKeeps(history, d);
    OnlyBeforeKeeps(Rest(history, c), d);
    var a, b := Rest(Rest(history, c), d), Rest(history, d);
    forall m ensures m in Elements(a) <==> m in Elements(b) {
    }
    DescendingUnique(a, b);
  }

  lemma RestAfter(r: seq<int>, k: nat)
    requires Descending(r) && 0 !in r && k < |r|
    ensures Rest(r, r[k]) == r[k + 1..]
  {
    OnlyBeforeKeeps(r, r[k]);
    assert r[k] in r;
    forall m ensures m in Elements(Rest(r, r[k])) <==> m in Elements(r[k + 1..]) {
      if m in r && m < r[k] {
        var i :| 0 <= i < |r| && r[i] == m;
        assert r[k + 1..][i - k - 1] == m;
      }
    }
    DescendingUnique(Rest(r, r[k]), r[k + 1..]);
  }

  lemma PageIsPrefix(history: seq<int>, cursor: int, count: nat, raw: seq<int>)
    requires Descending(history) && RawPage(Elements(history), cursor, count, raw)
    ensures OnlyBefore(raw, cursor) <= Rest(history, cursor)
    ensures Advances(Elements(history), cursor, raw) && Rest(history, cursor) != [] ==> OnlyBefore(raw, cursor) != []
  {
    FilteredPage(Elements(history), cursor, count, raw);
    OnlyBeforeKeeps(raw, cursor);
    OnlyBeforeKeeps(history, cursor);
    ClosedIsPrefix(OnlyBefore(raw, cursor), Rest(history, cursor));
    if Rest(history, cursor) != [] {
      var m := Rest(history, cursor)[0];
      assert m in Elements(history) && Before(m, cursor);
    }
  }

  /** What the loops may rely on about one filtered answer. */
  lemma OracleAnswer(history: seq<int>, native: (int, nat, nat) -> seq<int>, before: int, count: nat, call: nat)
    requires Faithful(history, native)
    ensures var items := OnlyBefore(native(before, count, call), before);
            && items <= Rest(history, before) && Descending(items)
            && (forall m :: m in items ==> m != 0 && Before(m, before))
            && (Advancing(history, native) && count >= (if before == 0 then 1 else 2) && Rest(history, before) != []
                ==> items != [])
  {
    var raw := native(before, count, call);
    assert RawPage(Elements(history), before, count, raw);
    PageIsPrefix(history, before, count, raw);
    OnlyBeforeKeeps(raw, before);
    forall m | m in raw ensures m != 0 {
      assert m in Elements(history);
    }
    if Advancing(history, native) && count >= (if before == 0 then 1 else 2) {
      assert Advances(Elements(history), before, native(before, count, call));
    }
  }

  // ---------------------------------------------------------------- the nested loops

  datatype Fetched = Fetched(ids: seq<int>) | DidNotAdvance

  /** The messages of a page that the loop does not skip. */
  function Usable(items: seq<int>, before: int): seq<int> {
    if items == [] then []
    else
      var n := |items| - 1;
      Usable(items[..n], before) + if items[n] != 0 && Before(items[n], before) then [items[n]] else []
  }

  /** The cursor after some messages: the lowest id taken. */
  function LowestFrom(before: int, taken: seq<int>): int {
    if taken == [] then before
    else
      var n := |taken| - 1;
      var next := LowestFrom(before, taken[..n]);
      if next == 0 || taken[n] < next then taken[n] else next
  }

  lemma {:induction false} UsablePrefix(items: seq<int>, before: int, i: nat)
    requires i <= |items|
    ensures Usable(items[..i], before) <= Usable(items, before)
    decreases |items|
  {
    if i == |items| {
      assert items[..i] == items;
    } else {
      UsablePrefix(items[..|items| - 1], before, i);
      assert items[..|items| - 1][..i] == items[..i];
    }
  }

  lemma {:induction false} AllUsable(items: seq<int>, before: int)
    requires forall m :: m in items ==> m != 0 && Before(m, before)
    ensures Usable(items, before) == items
  {
    if items != [] {
      var front, last := items[..|items| - 1], items[|items| - 1];
      assert items == front + [last] && last in items && forall m :: m in front ==> m in items;
      AllUsable(front, before);
    }
  }

  lemma {:induction false} LowestIsLast(before: int, taken: seq<int>)
    requires Descending(taken) && forall m :: m in taken ==> m != 0 && Before(m, before)
    ensures LowestFrom(before, taken) == if taken == [] then before else taken[|taken| - 1]
  {
    if taken != [] {
      var front, last := taken[..|taken| - 1], taken[|taken| - 1];
      assert taken == front + [last] && last in taken && forall m :: m in front ==> m in taken;
      LowestIsLast(before, front);
    }
  }

  lemma UsableNext(items: seq<int>, before: int, i: nat)
    requires i < |items|
    ensures Usable(items[..i + 1], before)
            == Usable(items[..i], before) + if items[i] != 0 && Before(items[i], before) then [items[i]] else []
  {
    assert items[..i + 1][..i] == items[..i];
  }

  lemma LowestNext(before: int, taken: seq<int>, id: int)
    ensures var next := LowestFrom(before, taken);
            LowestFrom(before, taken + [id]) == if next == 0 || id < next then id else next
  {
    assert (taken + [id])[..|taken|] == taken;
  }

  lemma TakenUsable(items: seq<int>, before: int, i: nat, k: nat)
    requires i <= |items|
    requires (i == |items| && |Usable(items[..i], before)| <= k) || |Usable(items[..i], before)| == k
    ensures Usable(items[..i], before) == Take(Usable(items, before), k)
  {
    UsablePrefix(items, before, i);
    assert items[..|items|] == items;
  }

  /** The inner loop: takes the page's messages, skipping unusable ones, until one more than the limit is held. */
  method Collect(items: seq<int>, held: seq<int>, limit: nat, before: int) returns (ids: seq<int>, next: int)
    requires |held| <= limit
    ensures ids == held + Take(Usable(items, before), limit + 1 - |held|)
    ensures next == LowestFrom(before, Take(Usable(items, before), limit + 1 - |held|))
  {
    ids, next := held, before;
    ghost var taken: seq<int> := [];
    var i := 0;
    while i < |items| && |ids| < limit + 1
      invariant 0 <= i <= |items| && |ids| <= limit + 1
      invariant taken == Usable(items[..i], before) && ids == held + taken
      invariant next == LowestFrom(before, taken)
    {
      var id := items[i];
      UsableNext(items, before, i);
      i := i + 1;
      if id == 0 || (before != 0 && id >= before) {
        continue;
      }
      LowestNext(before, taken, id);
      ids := ids + [id];
      taken := taken + [id];
      if next == 0 || id < next {
        next := id;
      }
    }
    TakenUsable(items, before, i, limit + 1 - |held|);
  }

  /** What the outer loop keeps: the ids fetched so far, and what is left, split the history before the start. */
  ghost predicate Reading(history: seq<int>, from: int, ids: seq<int>, before: int) {
    && Descending(history) && 0 !in history
    && ids <= Rest(history, from)
    && before == (if ids == [] then from else ids[|ids| - 1])
    && Rest(history, before) == Rest(history, from)[|ids|..]
  }

  lemma PrefixGrows(all: seq<int>, held: seq<int>, items: seq<int>, k: nat)
    requires held <= all && items <= all[|held|..] && 0 < k && items != []
    ensures var ids := held + Take(items, k);
            |held| < |ids| <= |all| && ids == all[..|ids|] && ids[|ids| - 1] == all[|ids| - 1]
  {
    var ids := held + Take(items, k);
    forall i | 0 <= i < |ids| ensures ids[i] == all[i] {
      if i >= |held| {
        assert all[|held|..][i - |held|] == items[i - |held|];
      }
    }
  }

  lemma RoundExtends(history: seq<int>, from: int, before: int, held: seq<int>, items: seq<int>, k: nat)
    requires Reading(history, from, held, before)
    requires items <= Rest(history, before) && 0 < k && items != []
    ensures var ids := held + Take(items, k);
            Reading(history, from, ids, ids[|ids| - 1]) && ids[|ids| - 1] != before
  {
    var all := Rest(history, from);
    PrefixGrows(all, held, items, k);
    var n := |held + Take(items, k)|;
    OnlyBeforeKeeps(history, from);
    assert all[n - 1] in all;
    assert held != [] ==> before == all[|held| - 1] && all[|held| - 1] > all[n - 1];
    RestAfter(all, n - 1);
    RestOfRest(history, from, all[n - 1]);
  }

  /** One native call, filtered by the session. */
  method Fetch(ghost history: seq<int>, native: (int, nat, nat) -> seq<int>, before: int, count: nat, call: nat)
    returns (items: seq<int>)
    requires Faithful(history, native)
    ensures items <= Rest(history, before) && Descending(items)
    ensures forall m :: m in items ==> m != 0 && Before(m, before)
    ensures Advancing(history, native) && count >= (if before == 0 then 1 else 2) && items == []
            ==> Rest(history, before) == []
  {
    OracleAnswer(history, native, before, count, call);
    items := GetChatHistory(native(before, count, call), before);
  }

  /** Of a page as the session hands it over nothing is skipped, and the lowest id taken is the last. */
  lemma TakesAll(items: seq<int>, before: int, k: nat)
    requires Descending(items) && items != [] && k > 0
    requires forall m :: m in items ==> m != 0 && Before(m, before)
    ensures var taken := Take(items, k);
            Usable(items, before) == items && taken != [] && LowestFrom(before, taken) == taken[|taken| - 1]
  {
    var taken := Take(items, k);
    AllUsable(items, before);
    assert forall m :: m in taken ==> m in items;
    LowestIsLast(before, taken);
  }

  /** On such a page the loop remembers the last message it took. */
  method CollectPage(items: seq<int>, held: seq<int>, limit: nat, before: int) returns (ids: seq<int>, next: int)
    requires |held| <= limit && items != []
    requires Descending(items) && forall m :: m in items ==> m != 0 && Before(m, before)
    ensures ids == held + Take(items, limit + 1 - |held|) && next == ids[|ids| - 1]
  {
    TakesAll(items, before, limit + 1 - |held|);
    ids, next := Collect(items, held, limit, before);
    ghost var taken := Take(items, limit + 1 - |held|);
    assert ids[|ids| - 1] == taken[|taken| - 1];
  }

  /** One round of the outer loop: one native call, and the messages it adds. */
  method Round(ghost history: seq<int>, native: (int, nat, nat) -> seq<int>, limit: nat, ghost from: int,
               call: nat, held: seq<int>, before: int)
    returns (ended: bool, ids: seq<int>, next: int)
    requires Faithful(history, native) && Reading(history, from, held, before) && |held| <= limit
    ensures Reading(history, from, ids, next) && |held| <= |ids| <= limit + 1
    ensures ended ==> ids == held && (Advancing(history, native) ==> Rest(history, before) == [])
    ensures !ended ==> |held| < |ids| && next != before
  {
    var count := Min(100, limit + 1 - |held|);
    if before != 0 {
      count := Min(100, count + 1);
    }
    var items := Fetch(history, native, before, count, call);
    if |items| == 0 {
      return true, held, before;
    }
    RoundExtends(history, from, before, held, items, limit + 1 - |held|);
    ids, next := CollectPage(items, held, limit, before);
    ended := false;
  }

  /**
   Whatever the oracle does, the fetched ids are the newest before the cursor with none skipped and the
   "did not advance" failure is never reported; an advancing source yields one more than the limit, or all.
   */
  method RefreshMessages(ghost history: seq<int>, native: (int, nat, nat) -> seq<int>, requested: int, from: int)
    returns (r: Fetched)
    requires Faithful(history, native)
    ensures r.Fetched? && r.ids <= Rest(history, from)
    ensures var limit := if requested < 1 || requested > 100 then 30 else requested;
            |r.ids| <= limit + 1 && (Advancing(history, native) ==> r.ids == Take(Rest(history, from), limit + 1))
  {
    var limit: nat := if requested < 1 || requested > 100 then 30 else requested;
    var ids: seq<int> := [];
    var before := from;
    var call := 0;
    while |ids| < limit + 1
      invariant |ids| <= limit + 1 && Reading(history, from, ids, before)
      decreases limit + 1 - |ids|
    {
      var ended, more, next := Round(history, native, limit, from, call, ids, before);
      call := call + 1;
      if ended {
        return Fetched(ids);
      }
      if next == before {
        return DidNotAdvance;
      }
      ids, before := more, next;
    }
    return Fetched(ids);
  }

  // ---------------------------------------------------------------- pages

  function CursorId(cursor: Option<Row>): int {
    if cursor.None? then 0 else cursor.value.id
  }

  /** The messages the view of active messages lets through. */
  function Live(ids: seq<int>, dead: set<int>): seq<int> {
    if ids == [] then [] else (if ids[0] in dead then [] else [ids[0]]) + Live(ids[1..], dead)
  }

  predicate HasDead(ids: seq<int>, dead: set<int>) {
    exists m :: m in ids && m in dead
  }

  lemma {:induction false} LiveMembers(ids: seq<int>, dead: set<int>)
    ensures forall m :: m in Live(ids, dead) <==> m in ids && m !in dead
  {
    if ids != [] {
      LiveMembers(ids[1..], dead);
      assert ids == [ids[0]] + ids[1..];
    }
  }

  lemma {:induction false} LiveDescends(ids: seq<int>, dead: set<int>)
    requires Descending(ids)
    ensures Descending(Live(ids, dead))
  {
    if ids != [] {
      var tail := ids[1..];
      LiveDescends(tail, dead);
      LiveMembers(tail, dead);
      forall k | 0 <= k < |Live(tail, dead)| ensures Live(tail, dead)[k] < ids[0] {
        assert Live(tail, dead)[k] in tail;
      }
    }
  }

  lemma {:induction false} LiveShrinks(ids: seq<int>, dead: set<int>)
    ensures |Live(ids, dead)| <= |ids| && (HasDead(ids, dead) ==> |Live(ids, dead)| < |ids|)
  {
    if ids != [] {
      var tail := ids[1..];
      LiveShrinks(tail, dead);
      assert ids == [ids[0]] + tail;
      assert HasDead(ids, dead) ==> ids[0] in dead || HasDead(tail, dead);
    }
  }

  lemma LiveKeeps(ids: seq<int>, dead: set<int>)
    ensures forall m :: m in Live(ids, dead) <==> m in ids && m !in dead
    ensures Descending(ids) ==> Descending(Live(ids, dead))
    ensures |Live(ids, dead)| <= |ids| && (HasDead(ids, dead) ==> |Live(ids, dead)| < |ids|)
  {
    LiveMembers(ids, dead);
    LiveShrinks(ids, dead);
    if Descending(ids) {
      LiveDescends(ids, dead);
    }
  }

  lemma {:induction false} NoneDead(ids: seq<int>, dead: set<int>)
    requires !HasDead(ids, dead)
    ensures Live(ids, dead) == ids
  {
    if ids != [] {
      assert forall m :: m in ids[1..] ==> m in ids;
      NoneDead(ids[1..], dead);
      var first := ids[0];
      assert first in ids && first !in dead;
      assert ids == [ids[0]] + ids[1..];
    }
  }

  lemma {:induction false} LiveSplits(a: seq<int>, b: seq<int>, dead: set<int>)
    ensures Live(a + b, dead) == Live(a, dead) + Live(b, dead)
  {
    if a == [] {
      assert a + b == b;
    } else {
      var first := if a[0] in dead then [] else [a[0]];
      LiveSplits(a[1..], b, dead);
      assert (a + b)[1..] == a[1..] + b && (a + b)[0] == a[0];
      assert first + (Live(a[1..], dead) + Live(b, dead)) == (first + Live(a[1..], dead)) + Live(b, dead);
    }
  }

  /**
   The handler's page: of the newest messages by id, one more than the limit, those that are active, listed by send
   time and cut. Messages in `dead` are tombstoned.
   */
  function HandlerPage(history: seq<int>, sent: int -> int, dead: set<int>, cursor: Option<Row>, limit: nat): Shown
    requires limit > 0
  {
    Cut(Ordered(RowsOf(Live(Take(Rest(history, CursorId(cursor)), limit + 1), dead), sent)), limit)
  }

  lemma CutSize(ids: seq<int>, sent: int -> int, limit: nat)
    requires Descending(ids) && limit > 0
    ensures Cut(Ordered(RowsOf(ids, sent)), limit).next.None? <==> |ids| <= limit
  {
    OrderedIsListing(RowsOf(ids, sent));
    RowsOfSize(ids, sent);
  }

  lemma FullEndsIff(ids: seq<int>, sent: int -> int, dead: set<int>, limit: nat)
    requires Descending(ids) && |ids| == limit + 1 && limit > 0
    ensures Cut(Ordered(RowsOf(Live(ids, dead), sent)), limit).next.None? <==> HasDead(ids, dead)
  {
    LiveKeeps(ids, dead);
    if !HasDead(ids, dead) {
      NoneDead(ids, dead);
    }
    CutSize(Live(ids, dead), sent, limit);
  }

  /** With more than a page left, no cursor is handed out if and only if a message among those fetched is tombstoned. */
  lemma FullFetchEndsIff(history: seq<int>, sent: int -> int, dead: set<int>, cursor: Option<Row>, limit: nat)
    requires Descending(history) && limit > 0 && |Rest(history, CursorId(cursor))| > limit
    ensures HandlerPage(history, sent, dead, cursor, limit).next.None?
            <==> HasDead(Rest(history, CursorId(cursor))[..limit + 1], dead)
  {
    var rest := Rest(history, CursorId(cursor));
    OnlyBeforeKeeps(history, CursorId(cursor));
    assert Take(rest, limit + 1) == rest[..limit + 1];
    FullEndsIff(rest[..limit + 1], sent, dead, limit);
  }

  /** The page in order of id. */
  function PageOf(history: seq<int>, sent: int -> int, cursor: Option<Row>, limit: nat): Shown
    requires limit > 0
  {
    Cut(Listed(Rest(history, CursorId(cursor)), sent), limit)
  }

  /** Cutting a page needs no more than one row past it. */
  lemma CutOfTake(rest: seq<int>, sent: int -> int, limit: nat)
    requires limit > 0
    ensures Cut(Listed(Take(rest, limit + 1), sent), limit) == Cut(Listed(rest, sent), limit)
  {
    if |rest| > limit {
      assert Listed(Take(rest, limit + 1), sent)[..limit] == Listed(rest, sent)[..limit];
    }
  }

  lemma TakenIsListed(history: seq<int>, sent: int -> int, from: int, n: nat)
    requires Descending(history) && SentInOrder(history, sent)
    ensures var ids := Take(Rest(history, from), n); Ordered(RowsOf(ids, sent)) == Listed(ids, sent)
  {
    var ids := Take(Rest(history, from), n);
    OnlyBeforeKeeps(history, from);
    assert forall m :: m in ids ==> m in Rest(history, from);
    assert forall m :: m in ids ==> m in history;
    OrderedIsListed(ids, sent);
  }

  /**
   When send times follow the ids and nothing fetched is tombstoned, the handler's page is the page in order of id:
   one row past it is enough to know.
   */
  lemma FetchedIsPage(history: seq<int>, sent: int -> int, dead: set<int>, cursor: Option<Row>, limit: nat)
    requires Descending(history) && SentInOrder(history, sent) && limit > 0
    requires !HasDead(Take(Rest(history, CursorId(cursor)), limit + 1), dead)
    ensures HandlerPage(history, sent, dead, cursor, limit) == PageOf(history, sent, cursor, limit)
  {
    NoneDead(Take(Rest(history, CursorId(cursor)), limit + 1), dead);
    TakenIsListed(history, sent, CursorId(cursor), limit + 1);
    CutOfTake(Rest(history, CursorId(cursor)), sent, limit);
  }

  /** The handler's last part: list the active ones of what was fetched, cut the page, and remember its last row. */
  method Show(ids: seq<int>, sent: int -> int, dead: set<int>, limit: nat) returns (page: Shown)
    requires limit > 0
    ensures page == Cut(Ordered(RowsOf(Live(ids, dead), sent)), limit)
  {
    var items := Ordered(RowsOf(Live(ids, dead), sent));
    if |items| > limit {
      page := Shown(items[..limit], Some(items[limit - 1]));
    } else {
      page := Shown(items, None);
    }
  }

  /** The refresh, as the message list asks for it: with a limit that needs no correction. */
  method FetchPage(ghost history: seq<int>, native: (int, nat, nat) -> seq<int>, limit: nat, from: int)
    returns (ids: seq<int>)
    requires Faithful(history, native) && Advancing(history, native)
    requires 1 <= limit <= 100
    ensures ids == Take(Rest(history, from), limit + 1)
  {
    var fetched := RefreshMessages(history, native, limit, from);
    ids := fetched.ids;
  }

  /** The message list of the API, reading through to Telegram: fetch, list what is active, cut. */
  method ListMessages(ghost history: seq<int>, native: (int, nat, nat) -> seq<int>, sent: int -> int,
                      dead: set<int>, cursor: Option<Row>, limit: nat)
    returns (page: Shown)
    requires Faithful(history, native) && Advancing(history, native)
    requires 1 <= limit <= 100
    ensures page == HandlerPage(history, sent, dead, cursor, limit)
  {
    var ids := FetchPage(history, native, limit, CursorId(cursor));
    page := Show(ids, sent, dead, limit);
  }

  lemma AfterCursorIsRest(history: seq<int>, sent: int -> int, cursor: Option<Row>)
    requires Descending(history) && 0 !in history && SentInOrder(history, sent)
    requires cursor.Some? ==> cursor.value.id in history && cursor.value.sent == sent(cursor.value.id)
    ensures After(RowsOf(history, sent), cursor) == RowsOf(Rest(history, CursorId(cursor)), sent)
  {
    var from := CursorId(cursor);
    OnlyBeforeKeeps(history, from);
    forall r ensures r in After(RowsOf(history, sent), cursor) <==> r in RowsOf(Rest(history, from), sent) {
    }
  }

  /** Read through Telegram or from a full mirror, every page is the same. */
  lemma KeysetShowsSamePage(history: seq<int>, sent: int -> int, cursor: Option<Row>, limit: nat)
    requires Descending(history) && 0 !in history && SentInOrder(history, sent) && limit > 0
    requires cursor.Some? ==> cursor.value.id in history && cursor.value.sent == sent(cursor.value.id)
    ensures KeysetPage(RowsOf(history, sent), cursor, limit) == PageOf(history, sent, cursor, limit)
  {
    AfterCursorIsRest(history, sent, cursor);
    OnlyBeforeKeeps(history, CursorId(cursor));
    OrderedIsListed(Rest(history, CursorId(cursor)), sent);
  }

  /** Over a full mirror every first page, of whatever size, is in order of id. */
  ghost predicate KeysetInIdOrder(history: seq<int>, sent: int -> int) {
    forall limit: nat :: limit > 0 ==>
      KeysetPage(RowsOf(history, sent), None, limit) == PageOf(history, sent, None, limit)
  }

  /** A page larger than the history shows its whole order. */
  lemma WholePageIsListing(history: seq<int>, sent: int -> int)
    requires Descending(history)
    requires KeysetPage(RowsOf(history, sent), None, |history| + 1) == PageOf(history, sent, None, |history| + 1)
    ensures SentInOrder(history, sent)
  {
    var rows := RowsOf(history, sent);
    WholeHistory(history);
    assert After(rows, None) == rows;
    OrderedIsListing(rows);
    RowsOfSize(history, sent);
    assert Listed(history, sent) == Ordered(rows);
    ListingOrderIsSentOrder(history, sent);
  }

  lemma KeysetIsIdOrderIff(history: seq<int>, sent: int -> int)
    requires Descending(history) && 0 !in history
    ensures KeysetInIdOrder(history, sent) <==> SentInOrder(history, sent)
  {
    if SentInOrder(history, sent) {
      forall limit: nat | limit > 0
        ensures KeysetPage(RowsOf(history, sent), None, limit) == PageOf(history, sent, None, limit)
      {
        KeysetShowsSamePage(history, sent, None, limit);
      }
    }
    if KeysetInIdOrder(history, sent) {
      WholePageIsListing(history, sent);
    }
  }

  lemma {:induction false} RowsOfSize(ids: seq<int>, sent: int -> int)
    requires Descending(ids)
    ensures |RowsOf(ids, sent)| == |ids|
  {
    if ids == [] {
      assert RowsOf(ids, sent) == {};
    } else {
      RowsOfSize(ids[1..], sent);
      var first := Row(sent(ids[0]), ids[0]);
      assert ids == [ids[0]] + ids[1..];
      assert RowsOf(ids, sent) == {first} + RowsOf(ids[1..], sent);
    }
  }

  lemma ListingOrderIsSentOrder(ids: seq<int>, sent: int -> int)
    requires Descending(ids) && InListingOrder(Listed(ids, sent))
    ensures SentInOrder(ids, sent)
  {
    forall a, b | a in ids && b in ids && a < b ensures sent(a) <= sent(b) {
      var i :| 0 <= i < |ids| && ids[i] == b;
      var j :| 0 <= j < |ids| && ids[j] == a;
      assert Precedes(Listed(ids, sent)[i], Listed(ids, sent)[j]);
    }
  }

  lemma WholeHistory(history: seq<int>)
    requires Descending(history)
    ensures Rest(history, 0) == history
  {
    OnlyBeforeKeeps(history, 0);
    forall m ensures m in Elements(Rest(history, 0)) <==> m in Elements(history) {
    }
    DescendingUnique(Rest(history, 0), history);
  }

  lemma NextPageIsSmaller(history: seq<int>, sent: int -> int, cursor: Option<Row>, limit: nat)
    requires Descending(history) && 0 !in history && limit > 0
    requires PageOf(history, sent, cursor, limit).next.Some?
    ensures var rest := Rest(history, CursorId(cursor));
            && |rest| > limit
            && Rest(history, PageOf(history, sent, cursor, limit).next.value.id) == rest[limit..]
  {
    var rest := Rest(history, CursorId(cursor));
    OnlyBeforeKeeps(history, CursorId(cursor));
    var last := rest[limit - 1];
    assert last in rest;
    RestAfter(rest, limit - 1);
    RestOfRest(history, CursorId(cursor), last);
  }
}
