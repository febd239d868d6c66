/**
 How stored messages are listed: by send time and then by id, newest first, cut into pages whose cursor is
 the last row shown.
 */
module MessageListing {
  import opened Common
  import opened TelegramHistory

  datatype Row = Row(sent: int, id: int)

  /** The order of the listing queries: send time first, then id. */
  predicate Precedes(a: Row, b: Row) {
    a.sent > b.sent || (a.sent == b.sent && a.id > b.id)
  }

  ghost predicate IsFirst(rows: set<Row>, r: Row) {
    r in rows && forall x :: x in rows ==> x == r || Precedes(r, x)
  }

  lemma {:induction false} FirstRowExists(rows: set<Row>) returns (r: Row)
    requires rows != {}
    ensures IsFirst(rows, r)
    decreases |rows|
  {
    assert (forall x :: x !in rows) ==> rows == {};
    var x :| x in rows;
    var others := rows - {x};
    if others == {} {
      r := x;
      assert forall y :: y in rows && y != x ==> y in others;
    } else {
      var q := FirstRowExists(others);
      r := if Precedes(q, x) then q else x;
      forall y | y in rows ensures y == r || Precedes(r, y) {
        assert y == x || y in others;
        assert y in others ==> y == q || Precedes(q, y);
      }
    }
  }

  function FirstRow(rows: set<Row>): (r: Row)
    requires rows != {}
    ensures IsFirst(rows, r)
  {
    assert exists r :: IsFirst(rows, r) by {
      var r := FirstRowExists(rows);
    }
    var r :| r in rows && forall x :: x in rows ==> x == r || Precedes(r, x);
    r
  }

  /** ORDER BY sent_at DESC, telegram_message_id DESC. */
  function Ordered(rows: set<Row>): seq<Row> {
    if rows == {} then [] else [FirstRow(rows)] + Ordered(rows - {FirstRow(rows)})
  }

  function RowsOf(ids: seq<int>, sent: int -> int): (rows: set<Row>)
    ensures forall r :: r in rows <==> r.id in ids && r.sent == sent(r.id)
  {
    set id | id in ids :: Row(sent(id), id)
  }

  function Listed(ids: seq<int>, sent: int -> int): (rows: seq<Row>)
    ensures |rows| == |ids| && forall i :: 0 <= i < |ids| ==> rows[i] == Row(sent(ids[i]), ids[i])
  {
    seq(|ids|, i requires 0 <= i < |ids| => Row(sent(ids[i]), ids[i]))
  }

  /** Later messages were not sent earlier. */
  ghost predicate SentInOrder(ids: seq<int>, sent: int -> int) {
    forall a, b :: a in ids && b in ids && a < b ==> sent(a) <= sent(b)
  }

  lemma NewestIdComesFirst(ids: seq<int>, sent: int -> int)
    requires Descending(ids) && SentInOrder(ids, sent) && ids != []
    ensures RowsOf(ids, sent) != {}
    ensures FirstRow(RowsOf(ids, sent)) == Row(sent(ids[0]), ids[0])
    ensures RowsOf(ids, sent) - {Row(sent(ids[0]), ids[0])} == RowsOf(ids[1..], sent)
  {
    var rows, first := RowsOf(ids, sent), Row(sent(ids[0]), ids[0]);
    assert ids[0] in ids && first in rows;
    forall x | x in rows ensures x == first || Precedes(first, x) {
      var i :| 0 <= i < |ids| && x.id == ids[i];
    }
    assert IsFirst(rows, first) && IsFirst(rows, FirstRow(rows));
    forall x ensures x in rows - {first} <==> x in RowsOf(ids[1..], sent) {
      assert x.id in ids <==> x.id == ids[0] || x.id in ids[1..];
      assert x.id in ids[1..] ==> x.id < ids[0];
    }
  }

  /** When send times follow the ids, listing order is id order. */
  lemma {:induction false} OrderedIsListed(ids: seq<int>, sent: int -> int)
    requires Descending(ids) && SentInOrder(ids, sent)
    ensures Ordered(RowsOf(ids, sent)) == Listed(ids, sent)
  {
    if ids == [] {
      assert RowsOf(ids, sent) == {};
    } else {
      NewestIdComesFirst(ids, sent);
      OrderedIsListed(ids[1..], sent);
      assert Listed(ids, sent) == [Row(sent(ids[0]), ids[0])] + Listed(ids[1..], sent);
    }
  }

  /** Each row precedes all that come after it. */
  ghost predicate InListingOrder(rows: seq<Row>) {
    forall i, j :: 0 <= i < j < |rows| ==> Precedes(rows[i], rows[j])
  }

  /** The listing holds exactly the rows, each once, in order. */
  lemma {:induction false} OrderedIsListing(rows: set<Row>)
    ensures |Ordered(rows)| == |rows| && InListingOrder(Ordered(rows))
    ensures forall r :: r in Ordered(rows) <==> r in rows
    decreases |rows|
  {
    if rows != {} {
      var first, rest := FirstRow(rows), rows - {FirstRow(rows)};
      OrderedIsListing(rest);
      assert rows == {first} + rest;
      forall j | 0 <= j < |Ordered(rest)| ensures Precedes(first, Ordered(rest)[j]) {
        assert Ordered(rest)[j] in rest;
      }
    }
  }

  /** Only one listing holds the same rows in order. */
  lemma {:induction false} ListingIsUnique(a: seq<Row>, b: seq<Row>)
    requires InListingOrder(a) && InListingOrder(b) && forall r :: r in a <==> r in b
    ensures a == b
  {
    assert a != [] ==> a[0] in b;
    assert b != [] ==> b[0] in a;
    if a != [] && b != [] {
      assert a[0] == b[0];
      forall r ensures r in a[1..] <==> r in b[1..] {
        assert r in a[1..] <==> r in a && r != a[0];
        assert r in b[1..] <==> r in b && r != b[0];
      }
      ListingIsUnique(a[1..], b[1..]);
      assert a == [a[0]] + a[1..] && b == [b[0]] + b[1..];
    }
  }

  /** A page of messages and the cursor for the next one: the last row shown, if there is more. */
  datatype Shown = Shown(items: seq<Row>, next: Option<Row>)

  function Cut(rows: seq<Row>, limit: nat): Shown
    requires limit > 0
  {
    if |rows| <= limit then Shown(rows, None) else Shown(rows[..limit], Some(rows[limit - 1]))
  }

  function After(rows: set<Row>, cursor: Option<Row>): set<Row> {
    set r | r in rows && (cursor.None? || Precedes(cursor.value, r))
  }

  /** The keyset query over the mirror: rows strictly after the cursor in listing order, cut to a page. */
  function KeysetPage(rows: set<Row>, cursor: Option<Row>, limit: nat): Shown
    requires limit > 0
  {
    Cut(Ordered(After(rows, cursor)), limit)
  }

  /** In a listing, what a row precedes is what stands after it. */
  lemma PrecededIsLater(all: seq<Row>, n: nat, r: Row)
    requires InListingOrder(all) && 0 < n <= |all|
    ensures r in all && Precedes(all[n - 1], r) <==> r in all[n..]
  {
    if r in all {
      var i :| 0 <= i < |all| && all[i] == r;
      assert i >= n ==> all[n..][i - n] == r;
      assert i < n - 1 ==> Precedes(r, all[n - 1]);
    }
    if r in all[n..] {
      var i :| 0 <= i < |all[n..]| && all[n..][i] == r;
      assert all[n + i] == r && Precedes(all[n - 1], all[n + i]);
    }
  }

  /** After the last row of a page, the listing goes on where the page ended. */
  lemma ListingGoesOn(rows: set<Row>, n: nat)
    requires 0 < n <= |Ordered(rows)|
    ensures Ordered(After(rows, Some(Ordered(rows)[n - 1]))) == Ordered(rows)[n..]
  {
    var all := Ordered(rows);
    var rest := After(rows, Some(all[n - 1]));
    OrderedIsListing(rows);
    OrderedIsListing(rest);
    forall r ensures r in rest <==> r in all[n..] {
      PrecededIsLater(all, n, r);
    }
    ListingIsUnique(Ordered(rest), all[n..]);
  }

  /** Rows after a row that is itself after the cursor. */
  lemma AfterAgain(rows: set<Row>, cursor: Option<Row>, next: Row)
    requires next in After(rows, cursor)
    ensures After(rows, Some(next)) == After(After(rows, cursor), Some(next))
  {
  }

  lemma KeysetMovesOn(rows: set<Row>, cursor: Option<Row>, limit: nat)
    requires limit > 0 && KeysetPage(rows, cursor, limit).next.Some?
    ensures var all, next := Ordered(After(rows, cursor)), KeysetPage(rows, cursor, limit).next;
            |all| > limit && Ordered(After(rows, next)) == all[limit..]
  {
    var all := Ordered(After(rows, cursor));
    OrderedIsListing(After(rows, cursor));
    assert all[limit - 1] in all;
    AfterAgain(rows, cursor, all[limit - 1]);
    ListingGoesOn(After(rows, cursor), limit);
  }

  /** Everything a reader of the keyset query sees by following the cursors. */
  ghost function KeysetRead(rows: set<Row>, cursor: Option<Row>, limit: nat): seq<Row>
    requires limit > 0
    decreases |Ordered(After(rows, cursor))|
  {
    var page := KeysetPage(rows, cursor, limit);
    if page.next.None? then page.items
    else
      KeysetMovesOn(rows, cursor, limit);
      page.items + KeysetRead(rows, page.next, limit)
  }

  /** Following the keyset query shows every row once, in order, whatever the send times are, and ends. */
  lemma {:induction false} KeysetReadShowsAll(rows: set<Row>, cursor: Option<Row>, limit: nat)
    requires limit > 0
    ensures KeysetRead(rows, cursor, limit) == Ordered(After(rows, cursor))
    decreases |Ordered(After(rows, cursor))|
  {
    var all, page := Ordered(After(rows, cursor)), KeysetPage(rows, cursor, limit);
    if page.next.Some? {
      KeysetMovesOn(rows, cursor, limit);
      KeysetReadShowsAll(rows, page.next, limit);
      assert all == all[..limit] + all[limit..];
    }
  }

  /** The cursor text, decoded: a version, microseconds and an id. */
  datatype CursorText = CursorText(version: int, micros: int, id: int)

  /** The zero time, in microseconds since the epoch. */
  const ZERO_TIME := -62135596800000000

  function EncodeCursor(cursor: Row): Option<CursorText> {
    if cursor.sent == ZERO_TIME || cursor.id == 0 then None else Some(CursorText(1, cursor.sent, cursor.id))
  }

  function DecodeCursor(text: CursorText): Option<Row> {
    if text.version != 1 || text.micros <= 0 || text.id == 0 then None else Some(Row(text.micros, text.id))
  }

  /** A cursor that can be encoded is read back exactly when its message was sent after the epoch. */
  lemma CursorRoundTrip(cursor: Row)
    requires EncodeCursor(cursor).Some?
    ensures DecodeCursor(EncodeCursor(cursor).value) == if cursor.sent > 0 then Some(cursor) else None
  {
  }

  // ---------------------------------------------------------------- following the cursors' texts

  /** What a reader saw, and whether a cursor could not be handed out or was refused when it came back. */
  datatype TextRead = TextRead(seen: seq<Row>, refused: bool)

  /** The cursor as it comes back: handed out as a text and read again. */
  function ThroughText(cursor: Row): Option<Row> {
    if EncodeCursor(cursor).None? then None else DecodeCursor(EncodeCursor(cursor).value)
  }

  ghost function KeysetReadTexts(rows: set<Row>, cursor: Option<Row>, limit: nat): TextRead
    requires limit > 0
    decreases |Ordered(After(rows, cursor))|
  {
    var page := KeysetPage(rows, cursor, limit);
    if page.next.None? then TextRead(page.items, false)
    else if EncodeCursor(page.next.value).None? then TextRead([], true)
    else if ThroughText(page.next.value).None? then TextRead(page.items, true)
    else
      KeysetMovesOn(rows, cursor, limit);
      var others := KeysetReadTexts(rows, page.next, limit);
      TextRead(page.items + others.seen, others.refused)
  }

  /** The row at the last cursor a reading in pages of this size comes by. */
  function LastCursor(all: seq<Row>, limit: nat): Option<Row>
    requires limit > 0
  {
    if |all| <= limit then None
    else if |all| <= 2 * limit then Some(all[limit - 1])
    else LastCursor(all[limit..], limit)
  }

  /** Send times fall along a listing, so the last cursor is the earliest. */
  lemma {:induction false} LastCursorIsEarliest(all: seq<Row>, limit: nat)
    requires InListingOrder(all) && |all| > limit > 0
    ensures LastCursor(all, limit).Some? && LastCursor(all, limit).value in all
    ensures LastCursor(all, limit).value.sent <= all[limit - 1].sent
  {
    if |all| > 2 * limit {
      var rest := all[limit..];
      LastCursorIsEarliest(rest, limit);
      assert Precedes(all[limit - 1], all[2 * limit - 1]) && rest[limit - 1] == all[2 * limit - 1];
    }
  }

  lemma ReadableCursor(cursor: Row)
    requires cursor.id != 0
    ensures ThroughText(cursor) == if cursor.sent > 0 then Some(cursor) else None
  {
  }

  /** One page further, the last cursor is that of the rest, or this page's if the rest is one page. */
  lemma LastCursorOfRest(all: seq<Row>, limit: nat)
    requires InListingOrder(all) && |all| > limit > 0
    ensures var last, later := LastCursor(all, limit), LastCursor(all[limit..], limit);
            && last.Some? && last == (if later.Some? then later else Some(all[limit - 1]))
            && (all[limit - 1].sent <= 0 ==> last.value.sent <= 0)
  {
    LastCursorIsEarliest(all, limit);
  }

  /**
   Following the texts of the keyset query's cursors shows every row once, in order, if and only if the last cursor
   there is to follow stands at a message sent after the epoch; otherwise the reader is refused on the way.
   */
  lemma {:induction false} KeysetReadTextsIff(rows: set<Row>, cursor: Option<Row>, limit: nat)
    requires limit > 0 && forall r :: r in rows ==> r.id != 0
    ensures var all, read := Ordered(After(rows, cursor)), KeysetReadTexts(rows, cursor, limit);
            && (!read.refused ==> read.seen == all)
            && (!read.refused <==> LastCursor(all, limit).Some? ==> LastCursor(all, limit).value.sent > 0)
    decreases |Ordered(After(rows, cursor))|
  {
    var all, page := Ordered(After(rows, cursor)), KeysetPage(rows, cursor, limit);
    if page.next.Some? {
      OrderedIsListing(After(rows, cursor));
      LastCursorOfRest(all, limit);
      assert all[limit - 1] in all;
      ReadableCursor(all[limit - 1]);
      KeysetMovesOn(rows, cursor, limit);
      if all[limit - 1].sent > 0 {
        KeysetReadTextsIff(rows, page.next, limit);
        assert all == all[..limit] + all[limit..];
      }
    }
  }

  /** A text is read exactly if it is of version 1, after the epoch, and names a message; then as it says. */
  lemma DecodesIff(text: CursorText)
    ensures DecodeCursor(text).Some? <==> text.version == 1 && text.micros > 0 && text.id != 0
    ensures DecodeCursor(text).Some? ==> DecodeCursor(text).value == Row(text.micros, text.id)
    ensures forall c :: EncodeCursor(c) == Some(text) ==> c == Row(text.micros, text.id) && text.version == 1
  {
  }
}
