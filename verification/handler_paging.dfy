/**
 Following the cursors of the message list when send times need not follow the ids and messages may be tombstoned.

 The handler fetches the newest messages by id, one more than a page, lists the active ones by send time and cuts the
 page; its cursor is the last row of the page, from whose id it fetches again.
 */
module HandlerPaging {
  import opened Common
  import opened TelegramHistory
  import opened MessageListing
  import opened OnDemandPaging
  import opened CursorReading

  // ---------------------------------------------------------------- the handler

  function Lister(sent: int -> int): seq<int> -> seq<Row> {
    ids => Ordered(RowsOf(ids, sent))
  }

  lemma ListerLists(sent: int -> int)
    ensures Lists(Lister(sent), sent)
  {
    forall ids | Descending(ids) ensures IsListing(ids, sent, Lister(sent)(ids)) {
      OrderedIsListing(RowsOf(ids, sent));
      RowsOfSize(ids, sent);
    }
  }

  /** The handler's page over what is left before its cursor. */
  lemma PageOverRest(history: seq<int>, sent: int -> int, dead: set<int>, cursor: Option<Row>, limit: nat)
    requires limit > 0
    ensures HandlerPage(history, sent, dead, cursor, limit)
            == Cut(Lister(sent)(Live(Take(Rest(history, CursorId(cursor)), limit + 1), dead)), limit)
  {
  }

  lemma RestFrom(history: seq<int>, from: int, k: nat)
    requires Descending(history) && 0 !in history && k < |Rest(history, from)|
    ensures Rest(history, Rest(history, from)[k]) == Rest(history, from)[k + 1..]
  {
    var left := Rest(history, from);
    OnlyBeforeKeeps(history, from);
    assert left[k] in left;
    RestAfter(left, k);
    RestOfRest(history, from, left[k]);
  }

  /** The cursor handed out leaves what follows it in what was left. */
  lemma NextRest(history: seq<int>, from: int, sent: int -> int, left: seq<int>, n: nat, rows: seq<Row>, p: nat)
    requires Descending(history) && 0 !in history && left == Rest(history, from) && Descending(left) && 0 !in left
    requires n <= |left| && IsListing(left[..n], sent, rows) && p < n
    ensures Rest(history, rows[p].id) == Rest(left, rows[p].id) && |Rest(left, rows[p].id)| < |left|
  {
    var k := CursorIsFetched(left, sent, n, rows, p);
    RestFrom(history, from, k);
  }

  /** A page over what is left, and what its cursor leaves. */
  ghost predicate Splits(list: seq<int> -> seq<Row>, history: seq<int>, dead: set<int>, left: seq<int>, page: Shown, limit: nat)
    requires limit > 0
  {
    if Ends(left, dead, limit) then page == Shown(list(Live(Take(left, limit + 1), dead)), None)
    else
      var rows := list(left[..limit + 1]);
      && |rows| == limit + 1 && page == Shown(rows[..limit], Some(rows[limit - 1]))
      && Rest(history, rows[limit - 1].id) == Rest(left, rows[limit - 1].id)
      && |Rest(left, rows[limit - 1].id)| < |left|
  }

  lemma EndCuts(list: seq<int> -> seq<Row>, sent: int -> int, dead: set<int>, left: seq<int>, limit: nat)
    requires Lists(list, sent) && limit > 0 && Descending(left) && Ends(left, dead, limit)
    ensures var ids := Live(Take(left, limit + 1), dead); Cut(list(ids), limit) == Shown(list(ids), None)
  {
    LiveKeeps(Take(left, limit + 1), dead);
    assert IsListing(Live(Take(left, limit + 1), dead), sent, list(Live(Take(left, limit + 1), dead)));
  }

  lemma FullCuts(list: seq<int> -> seq<Row>, sent: int -> int, dead: set<int>, left: seq<int>, limit: nat)
    requires Lists(list, sent) && limit > 0 && Descending(left) && !Ends(left, dead, limit)
    ensures var rows := list(left[..limit + 1]);
            && IsListing(left[..limit + 1], sent, rows)
            && Cut(list(Live(Take(left, limit + 1), dead)), limit) == Shown(rows[..limit], Some(rows[limit - 1]))
  {
    assert IsListing(left[..limit + 1], sent, list(left[..limit + 1]));
    assert Take(left, limit + 1) == left[..limit + 1];
    NoneDead(left[..limit + 1], dead);
  }

  lemma CutSplits(list: seq<int> -> seq<Row>, sent: int -> int, history: seq<int>, from: int, dead: set<int>,
                  left: seq<int>, limit: nat)
    requires Lists(list, sent) && limit > 0 && Descending(history) && 0 !in history
    requires left == Rest(history, from) && Descending(left) && 0 !in left
    ensures Splits(list, history, dead, left, Cut(list(Live(Take(left, limit + 1), dead)), limit), limit)
  {
    if Ends(left, dead, limit) {
      EndCuts(list, sent, dead, left, limit);
    } else {
      FullCuts(list, sent, dead, left, limit);
      NextRest(history, from, sent, left, limit + 1, list(left[..limit + 1]), limit - 1);
    }
  }

  lemma PageSplits(history: seq<int>, sent: int -> int, dead: set<int>, cursor: Option<Row>, limit: nat)
    requires Descending(history) && 0 !in history && limit > 0
    ensures var left := Rest(history, CursorId(cursor));
            && Descending(left) && 0 !in left
            && Splits(Lister(sent), history, dead, left, HandlerPage(history, sent, dead, cursor, limit), limit)
  {
    OnlyBeforeKeeps(history, CursorId(cursor));
    ListerLists(sent);
    PageOverRest(history, sent, dead, cursor, limit);
    var left := Rest(history, CursorId(cursor));
    assert forall m :: m in left ==> m in history;
    CutSplits(Lister(sent), sent, history, CursorId(cursor), dead, left, limit);
  }

  /** Everything a reader of the handler sees by following its cursors through the chat. */
  ghost function HandlerRead(history: seq<int>, sent: int -> int, dead: set<int>, cursor: Option<Row>, limit: nat): seq<Row>
    requires Descending(history) && 0 !in history && limit > 0
    decreases |Rest(history, CursorId(cursor))|
  {
    PageSplits(history, sent, dead, cursor, limit);
    var page := HandlerPage(history, sent, dead, cursor, limit);
    if page.next.None? then page.items else page.items + HandlerRead(history, sent, dead, page.next, limit)
  }

  lemma {:induction false} HandlerReadsOn(history: seq<int>, sent: int -> int, dead: set<int>, cursor: Option<Row>, limit: nat)
    requires Descending(history) && 0 !in history && limit > 0 && Lists(Lister(sent), sent)
    ensures var left := Rest(history, CursorId(cursor));
            && Descending(left) && 0 !in left
            && HandlerRead(history, sent, dead, cursor, limit) == ReadOn(Lister(sent), sent, dead, left, limit)
    decreases |Rest(history, CursorId(cursor))|
  {
    PageSplits(history, sent, dead, cursor, limit);
    var page := HandlerPage(history, sent, dead, cursor, limit);
    if page.next.Some? {
      HandlerReadsOn(history, sent, dead, page.next, limit);
    }
  }

  /**
   Following the handler's cursors shows every active message of the chat exactly once if and only if at each end of a
   page, up to the first fetch that meets a tombstone, the last message by id is also the page's last by send time and
   the next message comes after it, and nothing active lies past that fetch.
   */
  lemma HandlerShowsEachOnceIff(history: seq<int>, sent: int -> int, dead: set<int>, limit: nat)
    requires Descending(history) && 0 !in history && limit > 0
    ensures ShowsEachOnce(HandlerRead(history, sent, dead, None, limit), Live(history, dead), sent)
            <==> OrderedAtPageEnds(history, sent, dead, limit)
  {
    WholeHistory(history);
    ListerLists(sent);
    HandlerReadsOn(history, sent, dead, None, limit);
    ReadOnIff(Lister(sent), sent, dead, history, limit);
  }

  /** A full fetch that meets a tombstone ends the reading, and every older message is lost to the reader. */
  lemma TombstoneLosesOlder(history: seq<int>, sent: int -> int, dead: set<int>, cursor: Option<Row>, limit: nat)
    requires Descending(history) && 0 !in history && limit > 0 && |Rest(history, CursorId(cursor))| > limit
    requires HasDead(Rest(history, CursorId(cursor))[..limit + 1], dead)
    ensures HandlerPage(history, sent, dead, cursor, limit).next.None?
    ensures forall m :: m in Rest(history, CursorId(cursor))[limit + 1..] ==>
              RowOf(sent, m) !in HandlerRead(history, sent, dead, cursor, limit)
  {
    var left := Rest(history, CursorId(cursor));
    ListerLists(sent);
    FullFetchEndsIff(history, sent, dead, cursor, limit);
    HandlerReadsOn(history, sent, dead, cursor, limit);
    PassedFetchIsLost(Lister(sent), sent, dead, left, limit);
  }

  lemma PassedFetchIsLost(list: seq<int> -> seq<Row>, sent: int -> int, dead: set<int>, left: seq<int>, limit: nat)
    requires Lists(list, sent) && Descending(left) && 0 !in left && |left| > limit > 0 && Ends(left, dead, limit)
    ensures forall m :: m in left[limit + 1..] ==> RowOf(sent, m) !in ReadOn(list, sent, dead, left, limit)
  {
    var n, ids, rows := LastPage(list, sent, dead, left, limit);
    FrontIsApart(left, n);
  }

  /**
   With send times that follow the ids, the handler's reader sees the active messages before the cursor, newest first,
   up to the end or past the first fetch that meets a tombstone; without one, all of them.
   */
  lemma HandlerReadsInOrder(history: seq<int>, sent: int -> int, dead: set<int>, cursor: Option<Row>, limit: nat)
    requires Descending(history) && 0 !in history && limit > 0 && SentInOrder(history, sent)
    ensures var left := Rest(history, CursorId(cursor));
            && Reached(left, dead, limit) <= left
            && HandlerRead(history, sent, dead, cursor, limit) == Listed(Live(Reached(left, dead, limit), dead), sent)
            && (!HasDead(left, dead) ==> HandlerRead(history, sent, dead, cursor, limit) == Listed(left, sent))
  {
    var left := Rest(history, CursorId(cursor));
    RestInOrder(history, sent, CursorId(cursor));
    ListerLists(sent);
    HandlerReadsOn(history, sent, dead, cursor, limit);
    ReadOnInOrder(Lister(sent), sent, dead, left, limit);
    ReachedIsPrefix(left, dead, limit);
    if !HasDead(left, dead) {
      NoneDead(left, dead);
    }
  }

  lemma RestInOrder(history: seq<int>, sent: int -> int, from: int)
    requires SentInOrder(history, sent)
    ensures SentInOrder(Rest(history, from), sent)
  {
    OnlyBeforeKeeps(history, from);
  }

  // ---------------------------------------------------------------- every page size

  lemma {:induction false} NeighboursAreInOrder(ids: seq<int>, sent: int -> int, dead: set<int>, i: nat, j: nat)
    requires OrderedAtPageEnds(ids, sent, dead, 1) && i <= j < |ids| && !HasDead(ids[..j + 1], dead)
    ensures sent(ids[j]) <= sent(ids[i])
    decreases j
  {
    if i < j {
      assert forall m :: m in ids[..j] ==> m in ids[..j + 1];
      NeighboursAreInOrder(ids, sent, dead, i, j - 1);
      assert PageBoundary(ids, sent, dead, 1, j);
    }
  }

  /** Past the first two messages, nothing active is older than a tombstoned one. */
  ghost predicate DeadLast(ids: seq<int>, dead: set<int>) {
    forall i, j :: 0 <= i < j < |ids| && j >= 2 && ids[i] in dead ==> ids[j] in dead
  }

  lemma PagesOfOneEndDead(ids: seq<int>, sent: int -> int, dead: set<int>)
    requires OrderedAtPageEnds(ids, sent, dead, 1)
    ensures DeadLast(ids, dead)
  {
    forall i, j | 0 <= i < j < |ids| && j >= 2 && ids[i] in dead ensures ids[j] in dead {
      assert PageBoundary(ids, sent, dead, 1, j - 1);
      assert ids[..j][i] == ids[i];
      assert ids[j..][0] == ids[j];
    }
  }

  /** What comes before an active message, as far as it is active itself, is active altogether. */
  lemma ActiveBefore(ids: seq<int>, dead: set<int>, i: nat, j: nat)
    requires DeadLast(ids, dead) && i < j < |ids| && ids[i] !in dead && ids[j] !in dead
    ensures !HasDead(ids[..j + 1], dead)
  {
    forall m | m in ids[..j + 1] ensures m !in dead {
      var k :| 0 <= k < j + 1 && ids[..j + 1][k] == m;
      assert j == 1 ==> k == i || k == j;
    }
  }

  lemma PagesOfOneDecide(ids: seq<int>, sent: int -> int, dead: set<int>)
    requires OrderedAtPageEnds(ids, sent, dead, 1) && Descending(ids)
    ensures DeadLast(ids, dead) && SentInOrder(Live(ids, dead), sent)
  {
    PagesOfOneEndDead(ids, sent, dead);
    LiveKeeps(ids, dead);
    forall a, b | a in Live(ids, dead) && b in Live(ids, dead) && a < b ensures sent(a) <= sent(b) {
      var i :| 0 <= i < |ids| && ids[i] == b;
      var j :| 0 <= j < |ids| && ids[j] == a;
      assert i < j;
      ActiveBefore(ids, dead, i, j);
      NeighboursAreInOrder(ids, sent, dead, i, j);
    }
  }

  lemma OrderDecidesEnds(ids: seq<int>, sent: int -> int, dead: set<int>, limit: nat, end: nat)
    requires Descending(ids) && DeadLast(ids, dead) && SentInOrder(Live(ids, dead), sent)
    ensures GoodEnd(ids, sent, dead, limit, end)
  {
    if 0 < limit <= end < |ids| {
      if m :| m in ids[..end + 1] && m in dead {
        var i :| 0 <= i < end + 1 && ids[..end + 1][i] == m;
        forall a | a in ids[end + 1..] ensures a in dead {
          var j :| 0 <= j < |ids[end + 1..]| && ids[end + 1..][j] == a;
          assert ids[end + 1 + j] == a && ids[i] in dead;
        }
      } else {
        LiveKeeps(ids, dead);
        assert forall m :: m in ids[..end + 1] ==> m in Live(ids, dead);
        InOrderIsBoundary(ids, sent, limit, end);
      }
    }
  }

  /** A reader with pages of any allowed size sees every active message once. */
  ghost predicate EverySizeShowsEachOnce(history: seq<int>, sent: int -> int, dead: set<int>)
    requires Descending(history) && 0 !in history
  {
    forall limit :: 1 <= limit <= 100 ==>
      ShowsEachOnce(HandlerRead(history, sent, dead, None, limit), Live(history, dead), sent)
  }

  /**
   It does so at every page size exactly when send times of active messages follow the ids and nothing active past
   the first two messages is older than a tombstoned one; pages of one message are enough to tell.
   */
  lemma EverySizeShowsEachOnceIff(history: seq<int>, sent: int -> int, dead: set<int>)
    requires Descending(history) && 0 !in history
    ensures EverySizeShowsEachOnce(history, sent, dead)
            <==> SentInOrder(Live(history, dead), sent) && DeadLast(history, dead)
  {
    if SentInOrder(Live(history, dead), sent) && DeadLast(history, dead) {
      forall limit | 1 <= limit <= 100
        ensures ShowsEachOnce(HandlerRead(history, sent, dead, None, limit), Live(history, dead), sent)
      {
        forall page: nat ensures PageBoundary(history, sent, dead, limit, page) {
          PageAfter(page, limit);
          OrderDecidesEnds(history, sent, dead, limit, page * limit);
        }
        HandlerShowsEachOnceIff(history, sent, dead, limit);
      }
    }
    if EverySizeShowsEachOnce(history, sent, dead) {
      HandlerShowsEachOnceIff(history, sent, dead, 1);
      PagesOfOneDecide(history, sent, dead);
    }
  }

  /** A listing of two. */
  lemma TwoInOrder(rows: set<Row>, a: Row, b: Row)
    requires rows == {a, b} && Precedes(a, b)
    ensures Ordered(rows) == [a, b]
  {
    OrderedIsListing(rows);
    ListingIsUnique(Ordered(rows), [a, b]);
  }

  lemma NothingBeforeTheLast(history: seq<int>, sent: int -> int, cursor: Row, limit: nat)
    requires Descending(history) && 0 !in history && history != [] && cursor.id == history[|history| - 1] && limit > 0
    ensures HandlerRead(history, sent, {}, Some(cursor), limit) == []
  {
    RestAfter(history, |history| - 1);
    assert RowsOf([], sent) == {};
    assert Live([], {}) == [];
  }

  /** The rows 1 and 2 of a chat whose message 1 was sent after message 2. */
  lemma SecondComesFirst(sent: int -> int)
    requires sent(1) > sent(2)
    ensures Ordered(RowsOf([2, 1], sent)) == [RowOf(sent, 1), RowOf(sent, 2)]
  {
    assert RowsOf([2, 1], sent) == {RowOf(sent, 1), RowOf(sent, 2)};
    TwoInOrder(RowsOf([2, 1], sent), RowOf(sent, 1), RowOf(sent, 2));
  }

  /** A reader with pages of one then sees message 1 alone. */
  lemma SecondMessageIsLost(sent: int -> int)
    requires sent(1) > sent(2)
    ensures var h, first := [2, 1], RowOf(sent, 1);
            && HandlerPage(h, sent, {}, None, 1) == KeysetPage(RowsOf(h, sent), None, 1) == Shown([first], Some(first))
            && HandlerRead(h, sent, {}, None, 1) == [first]
  {
    var h := [2, 1];
    WholeHistory(h);
    SecondComesFirst(sent);
    FirstPages(h, sent, RowOf(sent, 1), RowOf(sent, 2));
    NothingBeforeTheLast(h, sent, RowOf(sent, 1), 1);
  }

  /** The lost message: the first page is the keyset query's, but its cursor skips message 2, which no page shows. */
  lemma OutOfOrderLosesMessage()
    ensures var h, sent := [2, 1], (id: int) => 10 - id;
            && Descending(h) && !SentInOrder(h, sent)
            && HandlerPage(h, sent, {}, None, 1) == KeysetPage(RowsOf(h, sent), None, 1) == Shown([Row(9, 1)], Some(Row(9, 1)))
            && HandlerRead(h, sent, {}, None, 1) == [Row(9, 1)]
  {
    var sent := (id: int) => 10 - id;
    var h := [2, 1];
    assert h[1] in h && h[0] in h && sent(1) > sent(2);
    assert RowOf(sent, 1) == Row(9, 1) && RowOf(sent, 2) == Row(8, 2);
    SecondMessageIsLost(sent);
  }

  /** Of a chat of two messages, the handler's and the query's first page of one. */
  lemma FirstPages(h: seq<int>, sent: int -> int, a: Row, b: Row)
    requires Rest(h, 0) == h && |h| == 2 && Ordered(RowsOf(h, sent)) == [a, b]
    ensures HandlerPage(h, sent, {}, None, 1) == KeysetPage(RowsOf(h, sent), None, 1) == Shown([a], Some(a))
  {
    NoneDead(h, {});
    assert After(RowsOf(h, sent), None) == RowsOf(h, sent);
    assert [a, b][..1] == [a];
  }

  /** The tombstoned newest message ends the reading with the second: the third is lost although nothing is out of order. */
  lemma TombstonedNewestLosesThird(sent: int -> int)
    ensures var h := [3, 2, 1];
            && Descending(h) && HandlerPage(h, sent, {3}, None, 1).next == None
            && RowOf(sent, 1) !in HandlerRead(h, sent, {3}, None, 1)
  {
    var h := [3, 2, 1];
    WholeHistory(h);
    assert h[..2][0] == 3 && h[2..][0] == 1;
    TombstoneLosesOlder(h, sent, {3}, None, 1);
  }
}
