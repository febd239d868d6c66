/**
 Reading what is left of a chat page by page, by cursors that name the last row of a page, when send times need not
 follow the ids and messages may be tombstoned.

 A page lists the newest messages by id, one more than it shows; the next one starts from the id of its last row. The
 argument knows of the listing only that `list` puts a message's row before another's by send time and id. Messages in
 `dead` are tombstoned.
 */
module CursorReading {
  import opened Common
  import opened TelegramHistory
  import opened MessageListing
  import opened OnDemandPaging

  function RowOf(sent: int -> int, id: int): Row {
    Row(sent(id), id)
  }

  /** The rows of the messages, each once, in listing order. */
  ghost predicate IsListing(ids: seq<int>, sent: int -> int, rows: seq<Row>) {
    && |rows| == |ids| && InListingOrder(rows)
    && forall r :: r in rows <==> r.id in ids && r.sent == sent(r.id)
  }

  ghost predicate Lists(list: seq<int> -> seq<Row>, sent: int -> int) {
    forall ids :: Descending(ids) ==> IsListing(ids, sent, list(ids))
  }

  // ---------------------------------------------------------------- following the cursors

  /** The cursor of a page is one of the messages fetched, so what is left shrinks. */
  lemma CursorIsFetched(left: seq<int>, sent: int -> int, n: nat, rows: seq<Row>, p: nat) returns (k: nat)
    requires Descending(left) && 0 !in left && n <= |left| && IsListing(left[..n], sent, rows) && p < n
    ensures k < n && rows[p] == RowOf(sent, left[k]) && left[k] != 0 && Rest(left, left[k]) == left[k + 1..]
  {
    assert rows[p] in rows;
    k :| 0 <= k < n && left[..n][k] == rows[p].id;
    RestAfter(left, k);
  }

  lemma MovesOn(list: seq<int> -> seq<Row>, sent: int -> int, left: seq<int>, limit: nat)
    requires Lists(list, sent) && Descending(left) && 0 !in left && |left| > limit > 0
    ensures IsListing(left[..limit + 1], sent, list(left[..limit + 1]))
    ensures var rest := Rest(left, list(left[..limit + 1])[limit - 1].id);
            Descending(rest) && 0 !in rest && |rest| < |left|
  {
    var rows := list(left[..limit + 1]);
    assert IsListing(left[..limit + 1], sent, rows);
    var k := CursorIsFetched(left, sent, limit + 1, rows, limit - 1);
  }

  /** The page hands out no cursor: nothing more is left, or one of those fetched is tombstoned. */
  predicate Ends(left: seq<int>, dead: set<int>, limit: nat) {
    |left| <= limit || HasDead(left[..limit + 1], dead)
  }

  /** Everything a reader sees of what is left. */
  ghost function ReadOn(list: seq<int> -> seq<Row>, sent: int -> int, dead: set<int>, left: seq<int>, limit: nat): seq<Row>
    requires Lists(list, sent) && Descending(left) && 0 !in left && limit > 0
    decreases |left|
  {
    if Ends(left, dead, limit) then list(Live(Take(left, limit + 1), dead))
    else
      MovesOn(list, sent, left, limit);
      var rows := list(left[..limit + 1]);
      rows[..limit] + ReadOn(list, sent, dead, Rest(left, rows[limit - 1].id), limit)
  }

  /** The last page of a reading shows the active messages fetched for it. */
  lemma LastPage(list: seq<int> -> seq<Row>, sent: int -> int, dead: set<int>, left: seq<int>, limit: nat)
    returns (n: nat, ids: seq<int>, rows: seq<Row>)
    requires Lists(list, sent) && Descending(left) && 0 !in left && limit > 0 && Ends(left, dead, limit)
    ensures n == Min(|left|, limit + 1) && left[..n] == Take(left, limit + 1)
    ensures ids == Live(left[..n], dead) && Descending(ids)
    ensures forall m :: m in ids <==> m in left[..n] && m !in dead
    ensures ReadOn(list, sent, dead, left, limit) == rows && IsListing(ids, sent, rows)
  {
    n := Min(|left|, limit + 1);
    assert Take(left, limit + 1) == left[..n];
    ids := Live(left[..n], dead);
    rows := list(ids);
    LiveKeeps(left[..n], dead);
  }

  lemma {:induction false} ReadStaysLeft(list: seq<int> -> seq<Row>, sent: int -> int, dead: set<int>, left: seq<int>,
                                         limit: nat)
    requires Lists(list, sent) && Descending(left) && 0 !in left && limit > 0
    ensures forall r :: r in ReadOn(list, sent, dead, left, limit) ==> r.id in left && r.id !in dead && r.sent == sent(r.id)
    decreases |left|
  {
    if Ends(left, dead, limit) {
      var n, ids, rows := LastPage(list, sent, dead, left, limit);
    } else {
      MovesOn(list, sent, left, limit);
      var rows := list(left[..limit + 1]);
      var rest := Rest(left, rows[limit - 1].id);
      ReadStaysLeft(list, sent, dead, rest, limit);
      OnlyBeforeKeeps(left, rows[limit - 1].id);
      forall r | r in rows[..limit] ensures r.id in left && r.id !in dead && r.sent == sent(r.id) {
        assert r in rows;
      }
    }
  }

  // ---------------------------------------------------------------- each message once

  ghost predicate NoDuplicates(rows: seq<Row>) {
    forall i, j :: 0 <= i < j < |rows| ==> rows[i] != rows[j]
  }

  /** Every message is shown, none twice, and nothing else is. */
  ghost predicate ShowsEachOnce(shown: seq<Row>, ids: seq<int>, sent: int -> int) {
    && NoDuplicates(shown)
    && forall r :: r in shown <==> r.id in ids && r.sent == sent(r.id)
  }

  lemma ListedShowsEachOnce(ids: seq<int>, sent: int -> int)
    requires Descending(ids)
    ensures ShowsEachOnce(Listed(ids, sent), ids, sent)
  {
    forall r: Row | r.id in ids && r.sent == sent(r.id) ensures r in Listed(ids, sent) {
      var i :| 0 <= i < |ids| && ids[i] == r.id;
      assert Listed(ids, sent)[i] == r;
    }
  }

  lemma ShownTwice(a: seq<Row>, b: seq<Row>, r: Row)
    requires r in a && r in b
    ensures !NoDuplicates(a + b)
  {
    var i :| 0 <= i < |a| && a[i] == r;
    var j :| 0 <= j < |b| && b[j] == r;
    assert (a + b)[i] == (a + b)[|a| + j];
  }

  /** After a page that shows a part of the messages once, and if the rest stays in the other part, the rest decides. */
  lemma RestDecides(a: seq<Row>, b: seq<Row>, front: seq<int>, back: seq<int>, sent: int -> int)
    requires ShowsEachOnce(a, front, sent)
    requires forall r :: r in b ==> r.id in back
    requires forall m :: m in front ==> m !in back
    ensures ShowsEachOnce(a + b, front + back, sent) <==> ShowsEachOnce(b, back, sent)
  {
    if ShowsEachOnce(a + b, front + back, sent) {
      forall i, j | 0 <= i < j < |b| ensures b[i] != b[j] {
        assert (a + b)[|a| + i] == b[i] && (a + b)[|a| + j] == b[j];
      }
      forall r ensures r in b <==> r.id in back && r.sent == sent(r.id) {
        assert r in a + b <==> r.id in front + back && r.sent == sent(r.id);
      }
    }
    if ShowsEachOnce(b, back, sent) {
      forall i, j | 0 <= i < j < |a + b| ensures (a + b)[i] != (a + b)[j] {
        if i < |a| <= j {
          assert a[i] in a && b[j - |a|] in b;
        }
      }
    }
  }

  // ---------------------------------------------------------------- ends of pages

  /** The last message of a page by id is the last by send time too, and the next one comes after it. */
  ghost predicate BoundaryAt(left: seq<int>, sent: int -> int, limit: nat, end: nat) {
    0 < limit <= end < |left| ==>
      && (forall i :: end - limit <= i < end - 1 ==> Precedes(RowOf(sent, left[i]), RowOf(sent, left[end - 1])))
      && Precedes(RowOf(sent, left[end - 1]), RowOf(sent, left[end]))
  }

  ghost predicate AllDead(ids: seq<int>, dead: set<int>) {
    forall m :: m in ids ==> m in dead
  }

  /** Unless a tombstoned message comes first; then nothing active may lie past what has been fetched. */
  ghost predicate GoodEnd(left: seq<int>, sent: int -> int, dead: set<int>, limit: nat, end: nat) {
    0 < limit <= end < |left| ==>
      if HasDead(left[..end + 1], dead) then AllDead(left[end + 1..], dead) else BoundaryAt(left, sent, limit, end)
  }

  ghost predicate PageBoundary(left: seq<int>, sent: int -> int, dead: set<int>, limit: nat, page: nat) {
    GoodEnd(left, sent, dead, limit, page * limit)
  }

  /** So at every end of a page, counted from the start. */
  ghost predicate OrderedAtPageEnds(left: seq<int>, sent: int -> int, dead: set<int>, limit: nat) {
    forall page: nat :: PageBoundary(left, sent, dead, limit, page)
  }

  lemma BoundaryShifts(left: seq<int>, sent: int -> int, limit: nat, end: nat)
    requires |left| > limit > 0 && end >= limit
    ensures BoundaryAt(left, sent, limit, end + limit) <==> BoundaryAt(left[limit..], sent, limit, end)
  {
    var rest := left[limit..];
    if end < |rest| {
      assert rest[end] == left[end + limit] && rest[end - 1] == left[end - 1 + limit];
      if BoundaryAt(rest, sent, limit, end) {
        forall i | end <= i < end + limit - 1
          ensures Precedes(RowOf(sent, left[i]), RowOf(sent, left[end + limit - 1]))
        {
          assert rest[i - limit] == left[i];
          assert Precedes(RowOf(sent, rest[i - limit]), RowOf(sent, rest[end - 1]));
        }
      }
    }
  }

  lemma GoodEndShifts(left: seq<int>, sent: int -> int, dead: set<int>, limit: nat, end: nat)
    requires |left| > limit > 0 && end >= limit && !HasDead(left[..limit], dead)
    ensures GoodEnd(left, sent, dead, limit, end + limit) <==> GoodEnd(left[limit..], sent, dead, limit, end)
  {
    var rest := left[limit..];
    if end < |rest| {
      BoundaryShifts(left, sent, limit, end);
      assert left[..end + limit + 1] == left[..limit] + rest[..end + 1];
      assert left[end + limit + 1..] == rest[end + 1..];
    }
  }

  lemma PagesShift(left: seq<int>, sent: int -> int, dead: set<int>, limit: nat, page: nat)
    requires limit > 0 && !Ends(left, dead, limit) && page > 0
    ensures PageBoundary(left, sent, dead, limit, page + 1) <==> PageBoundary(left[limit..], sent, dead, limit, page)
  {
    assert forall m :: m in left[..limit] ==> m in left[..limit + 1];
    PageAfter(page, limit);
    GoodEndShifts(left, sent, dead, limit, page * limit);
  }

  /** After a page that ends at a boundary come the ends of the rest. */
  lemma PageEndsSplit(left: seq<int>, sent: int -> int, dead: set<int>, limit: nat)
    requires limit > 0 && !Ends(left, dead, limit)
    ensures OrderedAtPageEnds(left, sent, dead, limit)
            <==> BoundaryAt(left, sent, limit, limit) && OrderedAtPageEnds(left[limit..], sent, dead, limit)
  {
    if OrderedAtPageEnds(left, sent, dead, limit) {
      assert PageBoundary(left, sent, dead, limit, 1);
      forall page: nat ensures PageBoundary(left[limit..], sent, dead, limit, page) {
        assert PageBoundary(left, sent, dead, limit, page + 1);
        if page > 0 {
          PagesShift(left, sent, dead, limit, page);
        }
      }
    }
    if BoundaryAt(left, sent, limit, limit) && OrderedAtPageEnds(left[limit..], sent, dead, limit) {
      forall page: nat ensures PageBoundary(left, sent, dead, limit, page) {
        if page > 1 {
          assert PageBoundary(left[limit..], sent, dead, limit, page - 1);
          PagesShift(left, sent, dead, limit, page - 1);
        }
      }
    }
  }

  lemma PageAfter(page: nat, limit: nat)
    ensures (page + 1) * limit == page * limit + limit
    ensures page > 0 ==> page * limit >= limit
  {
  }

  /** At the last page of a reading, all that counts is that nothing active lies past what was fetched. */
  lemma LastPageEnds(left: seq<int>, sent: int -> int, dead: set<int>, limit: nat)
    requires limit > 0 && Ends(left, dead, limit)
    ensures OrderedAtPageEnds(left, sent, dead, limit) <==> |left| <= limit || AllDead(left[limit + 1..], dead)
  {
    if OrderedAtPageEnds(left, sent, dead, limit) {
      assert PageBoundary(left, sent, dead, limit, 1);
    }
    if |left| <= limit || AllDead(left[limit + 1..], dead) {
      forall page: nat ensures PageBoundary(left, sent, dead, limit, page) {
        PageAfter(page, limit);
        if 0 < page && page * limit < |left| {
          LaterEndIsGood(left, sent, dead, limit, page * limit);
        }
      }
    }
  }

  lemma LaterEndIsGood(left: seq<int>, sent: int -> int, dead: set<int>, limit: nat, end: nat)
    requires 0 < limit <= end < |left| && HasDead(left[..limit + 1], dead) && AllDead(left[limit + 1..], dead)
    ensures GoodEnd(left, sent, dead, limit, end)
  {
    assert left[..end + 1] == left[..limit + 1] + left[limit + 1..end + 1];
    assert left[end + 1..] == left[limit + 1..][end - limit..];
  }

  /** A message fetched stands somewhere in the listing. */
  lemma StandsAt(left: seq<int>, sent: int -> int, n: nat, rows: seq<Row>, i: nat) returns (p: nat)
    requires n <= |left| && IsListing(left[..n], sent, rows) && i < n
    ensures p < n && rows[p] == RowOf(sent, left[i])
  {
    assert left[..n][i] == left[i];
    assert RowOf(sent, left[i]) in rows;
    p :| 0 <= p < |rows| && rows[p] == RowOf(sent, left[i]);
  }

  /** If the page ends as the ids do, it ends at a boundary. */
  lemma EndIsBoundary(left: seq<int>, sent: int -> int, limit: nat, rows: seq<Row>)
    requires Descending(left) && |left| > limit > 0 && IsListing(left[..limit + 1], sent, rows)
    requires rows[limit - 1] == RowOf(sent, left[limit - 1]) && rows[limit] == RowOf(sent, left[limit])
    ensures BoundaryAt(left, sent, limit, limit)
  {
    forall i | 0 <= i < limit - 1 ensures Precedes(RowOf(sent, left[i]), RowOf(sent, left[limit - 1])) {
      var p := StandsAt(left, sent, limit + 1, rows, i);
      assert left[i] != left[limit - 1] && left[i] != left[limit];
    }
  }

  /** What comes after all others stands last. */
  lemma LastStandsLast(rows: seq<Row>, r: Row)
    requires InListingOrder(rows) && r in rows && forall x :: x in rows && x != r ==> Precedes(x, r)
    ensures rows[|rows| - 1] == r
  {
    var last := rows[|rows| - 1];
    var p :| 0 <= p < |rows| && rows[p] == r;
    assert last in rows;
  }

  lemma BoundaryIsEnd(left: seq<int>, sent: int -> int, limit: nat, rows: seq<Row>)
    requires Descending(left) && |left| > limit > 0 && IsListing(left[..limit + 1], sent, rows)
    requires BoundaryAt(left, sent, limit, limit)
    ensures rows[limit - 1] == RowOf(sent, left[limit - 1]) && rows[limit] == RowOf(sent, left[limit])
  {
    var x, d := RowOf(sent, left[limit - 1]), RowOf(sent, left[limit]);
    var q := StandsAt(left, sent, limit + 1, rows, limit - 1);
    var s := StandsAt(left, sent, limit + 1, rows, limit);
    forall r | r in rows && r != d ensures r == x || (Precedes(r, x) && Precedes(r, d)) {
      var i :| 0 <= i < limit + 1 && left[..limit + 1][i] == r.id;
      assert r == RowOf(sent, left[i]);
      assert i < limit;
      assert i < limit - 1 ==> Precedes(RowOf(sent, left[i]), x);
    }
    LastStandsLast(rows, d);
    var front := rows[..limit];
    assert front[q] == x;
    forall r | r in front && r != x ensures Precedes(r, x) {
      var i :| 0 <= i < limit && front[i] == r;
      assert rows[i] in rows && Precedes(rows[i], rows[limit]);
    }
    LastStandsLast(front, x);
  }

  // ---------------------------------------------------------------- a page that does not end at a boundary

  lemma LeftOutIsNotShown(rows: seq<Row>, n: nat)
    requires InListingOrder(rows) && n < |rows|
    ensures rows[n] !in rows[..n]
  {
    assert forall p :: 0 <= p < n ==> Precedes(rows[p], rows[n]);
  }

  /** The message left out of the page is lost if the cursor has passed it. */
  lemma PassedIsLost(list: seq<int> -> seq<Row>, sent: int -> int, dead: set<int>, left: seq<int>, limit: nat, rows: seq<Row>)
    requires Lists(list, sent) && Descending(left) && 0 !in left && limit > 0 && !Ends(left, dead, limit)
    requires rows == list(left[..limit + 1]) && |rows| == limit + 1 && rows[limit].id > rows[limit - 1].id
    ensures rows[limit] !in ReadOn(list, sent, dead, left, limit)
    ensures rows[limit].id in left && rows[limit].id !in dead && rows[limit].sent == sent(rows[limit].id)
  {
    MovesOn(list, sent, left, limit);
    var x, d := rows[limit - 1], rows[limit];
    var rest := Rest(left, x.id);
    ReadStaysLeft(list, sent, dead, rest, limit);
    OnlyBeforeKeeps(left, x.id);
    assert x in rows && d in rows;
    assert d.id !in rest;
    LeftOutIsNotShown(rows, limit);
  }

  /** Of two messages fetched together, the one listed first is on the page if it is active. */
  lemma EarlierIsShown(list: seq<int> -> seq<Row>, sent: int -> int, dead: set<int>, left: seq<int>, limit: nat, y: nat, d: nat)
    requires Lists(list, sent) && Descending(left) && 0 !in left && limit > 0
    requires y < |left| && d < |left| && y <= limit && d <= limit && left[y] !in dead
    requires Precedes(RowOf(sent, left[y]), RowOf(sent, left[d]))
    ensures RowOf(sent, left[y]) in ReadOn(list, sent, dead, left, limit)
  {
    if Ends(left, dead, limit) {
      var n, ids, rows := LastPage(list, sent, dead, left, limit);
      assert left[..n][y] == left[y];
    } else {
      MovesOn(list, sent, left, limit);
      var rows := list(left[..limit + 1]);
      var p := StandsAt(left, sent, limit + 1, rows, y);
      var q := StandsAt(left, sent, limit + 1, rows, d);
      assert p != limit;
      assert rows[..limit][p] == rows[p];
    }
  }

  /** A message fetched that is not the one left out is on the page. */
  lemma OthersAreShown(left: seq<int>, sent: int -> int, limit: nat, rows: seq<Row>, y: nat)
    requires |left| > limit > 0 && IsListing(left[..limit + 1], sent, rows)
    requires y <= limit && RowOf(sent, left[y]) != rows[limit]
    ensures RowOf(sent, left[y]) in rows[..limit] && Precedes(RowOf(sent, left[y]), rows[limit])
  {
    var p := StandsAt(left, sent, limit + 1, rows, y);
    assert p < limit && rows[..limit][p] == rows[p] && Precedes(rows[p], rows[limit]);
  }

  /** It is shown again if the cursor has passed neither it nor the one left out. */
  lemma NotPassedIsRepeated(list: seq<int> -> seq<Row>, sent: int -> int, dead: set<int>, left: seq<int>, limit: nat,
                            rest: seq<int>, k: nat, y: nat, d: nat)
    requires Lists(list, sent) && Descending(rest) && 0 !in rest && limit > 0
    requires k < y <= limit && k < d <= limit < |left| && rest == left[k + 1..] && left[y] !in dead
    requires Precedes(RowOf(sent, left[y]), RowOf(sent, left[d]))
    ensures RowOf(sent, left[y]) in ReadOn(list, sent, dead, rest, limit)
  {
    var i: nat, j: nat := y - k - 1, d - k - 1;
    assert rest[i] == left[y];
    assert rest[j] == left[d];
    EarlierIsShown(list, sent, dead, rest, limit, i, j);
  }

  lemma NoBoundaryFails(list: seq<int> -> seq<Row>, sent: int -> int, dead: set<int>, left: seq<int>, limit: nat)
    requires Lists(list, sent) && Descending(left) && 0 !in left && limit > 0 && !Ends(left, dead, limit)
    requires !BoundaryAt(left, sent, limit, limit)
    ensures !ShowsEachOnce(ReadOn(list, sent, dead, left, limit), Live(left, dead), sent)
  {
    MovesOn(list, sent, left, limit);
    var rows := list(left[..limit + 1]);
    var k := CursorIsFetched(left, sent, limit + 1, rows, limit - 1);
    var d := CursorIsFetched(left, sent, limit + 1, rows, limit);
    assert Precedes(rows[limit - 1], rows[limit]);
    LiveKeeps(left, dead);
    if rows[limit].id > rows[limit - 1].id {
      PassedIsLost(list, sent, dead, left, limit, rows);
    } else {
      var y := if d == limit then limit - 1 else limit;
      NotTheEnd(left, sent, limit, rows, k, d);
      OthersAreShown(left, sent, limit, rows, y);
      var rest := Rest(left, left[k]);
      assert left[..limit + 1][y] == left[y];
      NotPassedIsRepeated(list, sent, dead, left, limit, rest, k, y, d);
      ShownTwice(rows[..limit], ReadOn(list, sent, dead, rest, limit), RowOf(sent, left[y]));
    }
  }

  /** Where the cursor and the message left out stand, if the page does not end as the ids do. */
  lemma NotTheEnd(left: seq<int>, sent: int -> int, limit: nat, rows: seq<Row>, k: nat, d: nat)
    requires Descending(left) && |left| > limit > 0 && IsListing(left[..limit + 1], sent, rows)
    requires !BoundaryAt(left, sent, limit, limit)
    requires k <= limit && d <= limit && rows[limit - 1] == RowOf(sent, left[k]) && rows[limit] == RowOf(sent, left[d])
    requires left[d] <= left[k]
    ensures k < d && k < if d == limit then limit - 1 else limit
  {
    assert Precedes(rows[limit - 1], rows[limit]);
    if d == limit && k == limit - 1 {
      EndIsBoundary(left, sent, limit, rows);
    }
  }

  // ---------------------------------------------------------------- a page that ends at a boundary

  /** Without the last message by id, if that is also the last listed, the listing shows the others. */
  lemma FrontShowsOthers(ids: seq<int>, sent: int -> int, rows: seq<Row>, n: nat)
    requires Descending(ids) && |ids| == n + 1 && IsListing(ids, sent, rows) && rows[n] == RowOf(sent, ids[n])
    ensures ShowsEachOnce(rows[..n], ids[..n], sent)
  {
    assert ids == ids[..n] + [ids[n]];
    assert rows == rows[..n] + [rows[n]];
    LeftOutIsNotShown(rows, n);
    forall r ensures r in rows[..n] <==> r.id in ids[..n] && r.sent == sent(r.id) {
      assert r in rows <==> r in rows[..n] || r == rows[n];
    }
  }

  /** Such a page shows the first messages by id, each once, and what is left are the others. */
  lemma BoundaryPage(left: seq<int>, sent: int -> int, limit: nat, rows: seq<Row>)
    requires Descending(left) && 0 !in left && |left| > limit > 0 && IsListing(left[..limit + 1], sent, rows)
    requires BoundaryAt(left, sent, limit, limit)
    ensures ShowsEachOnce(rows[..limit], left[..limit], sent)
    ensures Rest(left, rows[limit - 1].id) == left[limit..]
  {
    BoundaryIsEnd(left, sent, limit, rows);
    RestAfter(left, limit - 1);
    FrontShowsOthers(left[..limit + 1], sent, rows, limit);
    assert left[..limit + 1][..limit] == left[..limit];
  }

  lemma ReadPastBoundary(list: seq<int> -> seq<Row>, sent: int -> int, dead: set<int>, left: seq<int>, limit: nat)
    requires Lists(list, sent) && Descending(left) && 0 !in left && limit > 0 && !Ends(left, dead, limit)
    requires BoundaryAt(left, sent, limit, limit)
    ensures Descending(left[limit..]) && 0 !in left[limit..] && |list(left[..limit + 1])| == limit + 1
    ensures ShowsEachOnce(list(left[..limit + 1])[..limit], left[..limit], sent)
    ensures ReadOn(list, sent, dead, left, limit)
            == list(left[..limit + 1])[..limit] + ReadOn(list, sent, dead, left[limit..], limit)
  {
    MovesOn(list, sent, left, limit);
    BoundaryPage(left, sent, limit, list(left[..limit + 1]));
  }

  lemma BoundaryPasses(list: seq<int> -> seq<Row>, sent: int -> int, dead: set<int>, left: seq<int>, limit: nat)
    requires Lists(list, sent) && Descending(left) && 0 !in left && limit > 0 && !Ends(left, dead, limit)
    requires BoundaryAt(left, sent, limit, limit)
    ensures ShowsEachOnce(ReadOn(list, sent, dead, left, limit), Live(left, dead), sent)
            <==> ShowsEachOnce(ReadOn(list, sent, dead, left[limit..], limit), Live(left[limit..], dead), sent)
  {
    ReadPastBoundary(list, sent, dead, left, limit);
    var page, others := list(left[..limit + 1])[..limit], ReadOn(list, sent, dead, left[limit..], limit);
    ReadStaysLeft(list, sent, dead, left[limit..], limit);
    LiveKeeps(left[limit..], dead);
    FrontIsLive(left, dead, limit);
    FrontIsApart(left, limit);
    RestDecides(page, others, left[..limit], Live(left[limit..], dead), sent);
  }

  lemma FrontIsLive(left: seq<int>, dead: set<int>, n: nat)
    requires n < |left| && !HasDead(left[..n + 1], dead)
    ensures Live(left, dead) == left[..n] + Live(left[n..], dead)
  {
    assert forall m :: m in left[..n] ==> m in left[..n + 1];
    NoneDead(left[..n], dead);
    LiveSplits(left[..n], left[n..], dead);
    assert left == left[..n] + left[n..];
  }

  lemma FrontIsApart(left: seq<int>, n: nat)
    requires Descending(left) && n <= |left|
    ensures forall m :: m in left[..n] ==> m !in left[n..]
  {
  }

  /** The last page of a reading completes it exactly when nothing active lies past what was fetched for it. */
  lemma LastPageShowsIff(list: seq<int> -> seq<Row>, sent: int -> int, dead: set<int>, left: seq<int>, limit: nat)
    requires Lists(list, sent) && Descending(left) && 0 !in left && limit > 0 && Ends(left, dead, limit)
    ensures ShowsEachOnce(ReadOn(list, sent, dead, left, limit), Live(left, dead), sent)
            <==> |left| <= limit || AllDead(left[limit + 1..], dead)
  {
    var n, ids, rows := LastPage(list, sent, dead, left, limit);
    LiveInParts(left, dead, n);
    FrontIsApart(left, n);
    PartShowsIff(rows, ids, Live(left, dead), left[n..], dead, sent);
  }

  lemma LiveInParts(left: seq<int>, dead: set<int>, n: nat)
    requires n <= |left|
    ensures forall m :: m in Live(left, dead) <==> (m in left[..n] && m !in dead) || (m in left[n..] && m !in dead)
  {
    LiveMembers(left, dead);
    assert left == left[..n] + left[n..];
  }

  /** A listing of some messages shows all exactly when none is left out. */
  lemma PartShowsIff(rows: seq<Row>, ids: seq<int>, all: seq<int>, others: seq<int>, dead: set<int>, sent: int -> int)
    requires IsListing(ids, sent, rows)
    requires forall m :: m in all <==> m in ids || (m in others && m !in dead)
    requires forall m :: m in others ==> m !in ids
    ensures ShowsEachOnce(rows, all, sent) <==> AllDead(others, dead)
  {
    if ShowsEachOnce(rows, all, sent) {
      forall m | m in others ensures m in dead {
        assert RowOf(sent, m) in rows <==> m in all;
      }
    }
  }

  lemma {:induction false} ReadOnIff(list: seq<int> -> seq<Row>, sent: int -> int, dead: set<int>, left: seq<int>, limit: nat)
    requires Lists(list, sent) && Descending(left) && 0 !in left && limit > 0
    ensures ShowsEachOnce(ReadOn(list, sent, dead, left, limit), Live(left, dead), sent)
            <==> OrderedAtPageEnds(left, sent, dead, limit)
    decreases |left|
  {
    if Ends(left, dead, limit) {
      LastPageShowsIff(list, sent, dead, left, limit);
      LastPageEnds(left, sent, dead, limit);
    } else {
      PageEndsSplit(left, sent, dead, limit);
      if BoundaryAt(left, sent, limit, limit) {
        BoundaryPasses(list, sent, dead, left, limit);
        ReadOnIff(list, sent, dead, left[limit..], limit);
      } else {
        NoBoundaryFails(list, sent, dead, left, limit);
      }
    }
  }

  // ---------------------------------------------------------------- when send times follow ids

  /** What the reading gets to: everything, or what was fetched up to and with the first fetch that meets a tombstone. */
  function Reached(left: seq<int>, dead: set<int>, limit: nat): seq<int>
    requires limit > 0
    decreases |left|
  {
    if Ends(left, dead, limit) then Take(left, limit + 1) else left[..limit] + Reached(left[limit..], dead, limit)
  }

  lemma {:induction false} ReachedIsPrefix(left: seq<int>, dead: set<int>, limit: nat)
    requires limit > 0
    ensures Reached(left, dead, limit) <= left
    ensures !HasDead(left, dead) ==> Reached(left, dead, limit) == left
    decreases |left|
  {
    if !Ends(left, dead, limit) {
      ReachedIsPrefix(left[limit..], dead, limit);
      assert left == left[..limit] + left[limit..];
    }
  }

  lemma ListingInOrder(ids: seq<int>, sent: int -> int, rows: seq<Row>)
    requires Descending(ids) && SentInOrder(ids, sent) && IsListing(ids, sent, rows)
    ensures rows == Listed(ids, sent)
  {
    ListedShowsEachOnce(ids, sent);
    var all := Listed(ids, sent);
    forall i, j | 0 <= i < j < |all| ensures Precedes(all[i], all[j]) {
      assert ids[i] in ids && ids[j] in ids;
    }
    ListingIsUnique(rows, all);
  }

  lemma InOrderIsBoundary(left: seq<int>, sent: int -> int, limit: nat, end: nat)
    requires Descending(left) && end < |left| && SentInOrder(left[..end + 1], sent)
    ensures BoundaryAt(left, sent, limit, end)
  {
    var part := left[..end + 1];
    forall i, j | 0 <= i < j <= end ensures Precedes(RowOf(sent, left[i]), RowOf(sent, left[j])) {
      assert part[i] in part && part[j] in part;
    }
  }

  lemma ListedSplits(a: seq<int>, b: seq<int>, sent: int -> int)
    ensures Listed(a + b, sent) == Listed(a, sent) + Listed(b, sent)
  {
  }

  lemma LastPageInOrder(list: seq<int> -> seq<Row>, sent: int -> int, dead: set<int>, left: seq<int>, limit: nat)
    requires Lists(list, sent) && Descending(left) && 0 !in left && limit > 0 && SentInOrder(left, sent)
    requires Ends(left, dead, limit)
    ensures ReadOn(list, sent, dead, left, limit) == Listed(Live(Reached(left, dead, limit), dead), sent)
  {
    var n, ids, rows := LastPage(list, sent, dead, left, limit);
    assert Reached(left, dead, limit) == left[..n];
    ListingOfPart(left, ids, sent, rows);
  }

  lemma ListingOfPart(all: seq<int>, ids: seq<int>, sent: int -> int, rows: seq<Row>)
    requires SentInOrder(all, sent) && (forall m :: m in ids ==> m in all)
    requires Descending(ids) && IsListing(ids, sent, rows)
    ensures rows == Listed(ids, sent)
  {
    ListingInOrder(ids, sent, rows);
  }

  lemma {:induction false} ReadOnInOrder(list: seq<int> -> seq<Row>, sent: int -> int, dead: set<int>, left: seq<int>, limit: nat)
    requires Lists(list, sent) && Descending(left) && 0 !in left && limit > 0 && SentInOrder(left, sent)
    ensures ReadOn(list, sent, dead, left, limit) == Listed(Live(Reached(left, dead, limit), dead), sent)
    decreases |left|
  {
    if Ends(left, dead, limit) {
      LastPageInOrder(list, sent, dead, left, limit);
    } else {
      PartInOrder(left, sent, 0, limit + 1);
      InOrderIsBoundary(left, sent, limit, limit);
      ReadPastBoundary(list, sent, dead, left, limit);
      FullPageInOrder(list, sent, left, limit);
      PartInOrder(left, sent, limit, |left|);
      ReadOnInOrder(list, sent, dead, left[limit..], limit);
      assert forall m :: m in left[..limit] ==> m in left[..limit + 1];
      JoinListed(left[..limit], Reached(left[limit..], dead, limit), sent, dead);
    }
  }

  lemma PartInOrder(ids: seq<int>, sent: int -> int, i: nat, j: nat)
    requires SentInOrder(ids, sent) && i <= j <= |ids|
    ensures SentInOrder(ids[i..j], sent)
  {
    assert forall m :: m in ids[i..j] ==> m in ids;
  }

  lemma FullPageInOrder(list: seq<int> -> seq<Row>, sent: int -> int, left: seq<int>, limit: nat)
    requires Lists(list, sent) && Descending(left) && |left| > limit && SentInOrder(left, sent)
    ensures |list(left[..limit + 1])| == limit + 1 && list(left[..limit + 1])[..limit] == Listed(left[..limit], sent)
  {
    var window := left[..limit + 1];
    assert IsListing(window, sent, list(window));
    assert forall m :: m in window ==> m in left;
    ListingInOrder(window, sent, list(window));
  }

  lemma JoinListed(front: seq<int>, back: seq<int>, sent: int -> int, dead: set<int>)
    requires !HasDead(front, dead)
    ensures Listed(Live(front + back, dead), sent) == Listed(front, sent) + Listed(Live(back, dead), sent)
  {
    LiveSplits(front, back, dead);
    NoneDead(front, dead);
    ListedSplits(front, Live(back, dead), sent);
  }
}
