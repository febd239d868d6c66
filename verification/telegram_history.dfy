/**
 One chat's history as Telegram serves it, and the session's page filter.
 Message ids are non-zero integers that grow with time; the cursor 0 means "from the newest message".
 */
module TelegramHistory {
  import opened Common

  predicate Descending(s: seq<int>) {
    forall i, j :: 0 <= i < j < |s| ==> s[i] > s[j]
  }

  /** The message lies strictly before the cursor. */
  predicate Before(id: int, cursor: int) {
    cursor == 0 || id < cursor
  }

  /** The message is one a request from this cursor may return: the cursor's own message is included. */
  predicate AtOrBefore(id: int, cursor: int) {
    cursor == 0 || id <= cursor
  }

  /**
   A native answer for `cursor`: the newest messages at or before it, in descending order, with none
   skipped. It may be shorter than `limit` although older messages exist.
   */
  ghost predicate RawPage(remote: set<int>, cursor: int, limit: nat, raw: seq<int>) {
    && Descending(raw)
    && |raw| <= limit
    && (forall m :: m in raw ==> m in remote && AtOrBefore(m, cursor))
    && (forall m :: m in remote && AtOrBefore(m, cursor) && raw != [] && raw[|raw| - 1] <= m ==> m in raw)
  }

  /** The answer gets past the cursor whenever there is anything past it. */
  ghost predicate Advances(remote: set<int>, cursor: int, raw: seq<int>) {
    (exists m :: m in remote && Before(m, cursor)) ==> exists m :: m in raw && Before(m, cursor)
  }

  /** What a caller of the session sees: a gap-free descending page strictly before the cursor. */
  ghost predicate Page(remote: set<int>, cursor: int, page: seq<int>) {
    && Descending(page)
    && (forall m :: m in page ==> m in remote && Before(m, cursor))
    && (forall m :: m in remote && Before(m, cursor) && page != [] && page[|page| - 1] <= m ==> m in page)
  }

  /** The messages of a native answer that lie strictly before the cursor, in the same order. */
  function OnlyBefore(raw: seq<int>, cursor: int): seq<int> {
    if raw == [] then []
    else
      var n := |raw| - 1;
      OnlyBefore(raw[..n], cursor) + (if Before(raw[n], cursor) then [raw[n]] else [])
  }

  /** The session's filter loop. */
  method GetChatHistory(raw: seq<int>, cursor: int) returns (page: seq<int>)
    ensures page == OnlyBefore(raw, cursor)
  {
    page := [];
    for i := 0 to |raw|
      invariant page == OnlyBefore(raw[..i], cursor)
    {
      assert raw[..i + 1][..i] == raw[..i];
      if cursor != 0 && raw[i] >= cursor {
        continue;
      }
      page := page + [raw[i]];
    }
    assert raw[..|raw|] == raw;
  }

  lemma {:induction false} OnlyBeforeKeeps(raw: seq<int>, cursor: int)
    ensures forall m :: m in OnlyBefore(raw, cursor) <==> m in raw && Before(m, cursor)
    ensures |OnlyBefore(raw, cursor)| <= |raw|
    ensures Descending(raw) ==> Descending(OnlyBefore(raw, cursor))
  {
    if raw != [] {
      var n := |raw| - 1;
      OnlyBeforeKeeps(raw[..n], cursor);
      assert forall m :: m in raw <==> m in raw[..n] || m == raw[n];
      if Descending(raw) {
        var front := OnlyBefore(raw[..n], cursor);
        assert Descending(raw[..n]);
        forall i | 0 <= i < |front| ensures front[i] > raw[n] {
          assert front[i] in raw[..n];
        }
      }
    }
  }

  /** Filtering a native answer leaves a gap-free page; it is empty only when nothing older exists. */
  lemma FilteredPage(remote: set<int>, cursor: int, limit: nat, raw: seq<int>)
    requires RawPage(remote, cursor, limit, raw)
    ensures Page(remote, cursor, OnlyBefore(raw, cursor))
    ensures |OnlyBefore(raw, cursor)| <= limit
    ensures OnlyBefore(raw, cursor) == [] && Advances(remote, cursor, raw)
            ==> forall m :: m in remote ==> !Before(m, cursor)
  {
    var page := OnlyBefore(raw, cursor);
    OnlyBeforeKeeps(raw, cursor);
    if page != [] {
      var last := page[|page| - 1];
      assert last in page;
      forall m | m in remote && Before(m, cursor) && last <= m ensures m in page {
        assert raw[|raw| - 1] <= last by {
          var k :| 0 <= k < |raw| && raw[k] == last;
        }
        assert m in raw;
      }
    }
  }

  /** A descending listing is determined by its elements. */
  lemma {:induction false} DescendingUnique(a: seq<int>, b: seq<int>)
    requires Descending(a) && Descending(b) && Elements(a) == Elements(b)
    ensures a == b
  {
    assert forall m :: m in a <==> m in Elements(a);
    assert forall m :: m in b <==> m in Elements(b);
    assert a != [] ==> a[0] in Elements(a);
    assert b != [] ==> b[0] in Elements(b);
    if a != [] && b != [] {
      assert a[0] in b && b[0] in a;
      assert a[0] == b[0];
      forall m ensures m in Elements(a[1..]) <==> m in Elements(b[1..]) {
        assert m in a[1..] <==> m in a && m != a[0];
        assert m in b[1..] <==> m in b && m != b[0];
      }
      DescendingUnique(a[1..], b[1..]);
      assert a == [a[0]] + a[1..] && b == [b[0]] + b[1..];
    }
  }
}
