/**
 Paging over the main chat list and then the archive. A cursor names a list and an offset into it; every page
 first asks Telegram to load more of the list, so a page may be short, empty or not loaded yet.
 */
module ChatListPaging {
  import opened Common

  // ---------------------------------------------------------------- cursors

  predicate IsDigit(c: char) {
    '0' <= c <= '9'
  }

  predicate AllDigits(s: string) {
    s != "" && forall i :: 0 <= i < |s| ==> IsDigit(s[i])
  }

  function Digit(c: char): nat
    requires IsDigit(c)
  {
    c as int - '0' as int
  }

  function Value(digits: string): nat
    requires forall i :: 0 <= i < |digits| ==> IsDigit(digits[i])
  {
    if digits == "" then 0 else Value(digits[..|digits| - 1]) * 10 + Digit(digits[|digits| - 1])
  }

  /** Decimal text with an optional sign. */
  function Atoi(s: string): Option<int> {
    if AllDigits(s) then Some(Value(s))
    else if s != "" && s[0] == '+' && AllDigits(s[1..]) then Some(Value(s[1..]))
    else if s != "" && s[0] == '-' && AllDigits(s[1..]) then Some(0 - Value(s[1..]))
    else None
  }

  function Itoa(n: nat): string {
    if n < 10 then [('0' as int + n) as char] else Itoa(n / 10) + [('0' as int + n % 10) as char]
  }

  function Split(s: string): (parts: seq<string>)
    ensures |parts| >= 1
  {
    if s == "" then [""]
    else if s[0] == ':' then [""] + Split(s[1..])
    else
      var rest := Split(s[1..]);
      [[s[0]] + rest[0]] + rest[1..]
  }

  datatype Place = Place(list: int, offset: int)

  const MAX_OFFSET := 100000

  function ParseCursor(cursor: string): Option<Place> {
    if cursor == "" then Some(Place(0, 0))
    else
      var parts := Split(cursor);
      if |parts| != 2 then None
      else
        var list, offset := Atoi(parts[0]), Atoi(parts[1]);
        if list.None? || offset.None? || list.value < 0 || list.value > 1 || offset.value < 0 || offset.value > MAX_OFFSET
        then None else Some(Place(list.value, offset.value))
  }

  function PrintCursor(list: nat, offset: nat): string {
    Itoa(list) + ":" + Itoa(offset)
  }

  lemma {:induction false} ItoaIsRead(n: nat)
    ensures AllDigits(Itoa(n)) && Value(Itoa(n)) == n
  {
    var d := [('0' as int + n % 10) as char];
    if n >= 10 {
      ItoaIsRead(n / 10);
      assert Itoa(n)[..|Itoa(n)| - 1] == Itoa(n / 10);
    } else {
      assert Itoa(n) == d && d[..0] == "";
    }
  }

  lemma {:induction false} NothingToSplit(s: string)
    requires ':' !in s
    ensures Split(s) == [s]
  {
    if s != "" {
      assert s[0] in s && forall c :: c in s[1..] ==> c in s;
      NothingToSplit(s[1..]);
      assert s == [s[0]] + s[1..];
    }
  }

  lemma {:induction false} SplitAtColon(a: string, b: string)
    requires ':' !in a && ':' !in b
    ensures Split(a + ":" + b) == [a, b]
  {
    var s := a + ":" + b;
    if a == "" {
      assert s[1..] == b;
      NothingToSplit(b);
    } else {
      assert s[0] == a[0] && a[0] in a && s[1..] == a[1..] + ":" + b;
      assert forall c :: c in a[1..] ==> c in a;
      SplitAtColon(a[1..], b);
      assert s[0] != ':' && Split(s[1..]) == [a[1..], b];
      assert Split(s) == [[a[0]] + a[1..]] + [b];
      assert [a[0]] + a[1..] == a;
    }
  }

  /** A printed cursor is read back exactly when its offset is at most the bound; past it, it is refused. */
  lemma PrintedCursorIsRead(list: nat, offset: nat)
    requires list <= 1
    ensures offset <= 100000 ==> ParseCursor(PrintCursor(list, offset)) == Some(Place(list, offset))
    ensures offset > 100000 ==> ParseCursor(PrintCursor(list, offset)) == None
    ensures PrintCursor(list, offset) != ""
  {
    ItoaIsRead(list);
    ItoaIsRead(offset);
    assert forall i :: 0 <= i < |Itoa(list)| ==> Itoa(list)[i] != ':';
    assert forall i :: 0 <= i < |Itoa(offset)| ==> Itoa(offset)[i] != ':';
    SplitAtColon(Itoa(list), Itoa(offset));
  }

  /** Different places print differently. */
  lemma PrintIsInjective(a: nat, i: nat, b: nat, j: nat)
    requires a <= 1 && b <= 1 && PrintCursor(a, i) == PrintCursor(b, j)
    ensures a == b && i == j
  {
    ItoaIsRead(a);
    ItoaIsRead(b);
    ItoaIsRead(i);
    ItoaIsRead(j);
    assert forall k :: 0 <= k < |Itoa(a)| ==> Itoa(a)[k] != ':';
    assert forall k :: 0 <= k < |Itoa(b)| ==> Itoa(b)[k] != ':';
    assert forall k :: 0 <= k < |Itoa(i)| ==> Itoa(i)[k] != ':';
    assert forall k :: 0 <= k < |Itoa(j)| ==> Itoa(j)[k] != ':';
    SplitAtColon(Itoa(a), Itoa(i));
    SplitAtColon(Itoa(b), Itoa(j));
    assert [Itoa(a), Itoa(i)][0] == [Itoa(b), Itoa(j)][0];
    assert [Itoa(a), Itoa(i)][1] == [Itoa(b), Itoa(j)][1];
  }

  /** Signs and leading zeros are read too, so reading and printing again need not give the same text. */
  lemma OtherSpellingsAreRead()
    ensures ParseCursor("+0:07") == Some(Place(0, 7)) && PrintCursor(0, 7) != "+0:07"
  {
    SplitAtColon("+0", "07");
    assert "+0" + ":" + "07" == "+0:07";
    assert "+0"[1..] == "0" && "0"[..0] == "" && Value("0") == 0;
    assert "07"[..1] == "0" && Value("07") == 7;
    assert PrintCursor(0, 7) == "0:7";
  }

  // ---------------------------------------------------------------- one page

  /** A chat in a list; a chat not delivered to the cache yet is passed over, like a secret one. */
  datatype Chat = Chat(id: int, secret: bool, cached: bool)

  datatype Lists = Lists(main: seq<Chat>, archive: seq<Chat>)

  function ListAt(lists: Lists, list: int): seq<Chat> {
    if list == 1 then lists.archive else lists.main
  }

  predicate IsListed(chat: Chat) {
    chat.cached && !chat.secret
  }

  function Listed(chats: seq<Chat>): seq<Chat> {
    if chats == [] then []
    else Listed(chats[..|chats| - 1]) + if IsListed(chats[|chats| - 1]) then [chats[|chats| - 1]] else []
  }

  /** What a list shows: its chats that have arrived and are not secret. */
  lemma {:induction false} ListedIff(chats: seq<Chat>, c: Chat)
    ensures c in Listed(chats) <==> c in chats && c.cached && !c.secret
  {
    if chats != [] {
      var front, last := chats[..|chats| - 1], chats[|chats| - 1];
      ListedIff(front, c);
      assert chats == front + [last];
    }
  }

  lemma {:induction false} ListedSplits(a: seq<Chat>, b: seq<Chat>)
    ensures Listed(a + b) == Listed(a) + Listed(b)
  {
    if b == [] {
      assert a + b == a;
    } else {
      assert (a + b)[..|a + b| - 1] == a + b[..|b| - 1];
      ListedSplits(a, b[..|b| - 1]);
    }
  }

  /** How Telegram answers a page: an error, or so many ids of the list, and whether it has no more to load. */
  datatype Answer = Failed | Loaded(count: nat, exhausted: bool)

  function Ids(chats: seq<Chat>, answer: Answer): seq<Chat>
    requires answer.Loaded?
  {
    chats[..Min(answer.count, |chats|)]
  }

  function Limit(requested: int): (limit: nat)
    ensures 1 <= limit <= 100 && (1 <= requested <= 100 ==> limit == requested)
    ensures requested < 1 || requested > 100 ==> limit == 100
  {
    if requested < 1 || requested > 100 then 100 else requested
  }

  /** A page at a place: nothing yet, or its chats and the place that follows; none follows the archive's last. */
  datatype Turn = Wait | Go(items: seq<Chat>, next: Option<Place>)

  function Span(chats: seq<Chat>, from: int, to: int): seq<Chat> {
    if 0 <= from < to <= |chats| then chats[from..to] else []
  }

  function TurnAt(lists: Lists, place: Place, limit: nat, answer: Answer): Turn {
    if answer.Failed? then Wait
    else
      var ids := Ids(ListAt(lists, place.list), answer);
      var end := Min(|ids|, place.offset + limit);
      if end == place.offset && !answer.exhausted then Wait
      else
        Go(Listed(Span(ids, place.offset, end)),
           if !answer.exhausted || end < |ids| || end - place.offset == limit then Some(Place(place.list, end))
           else if place.list == 0 then Some(Place(1, 0))
           else None)
  }

  function CursorText(place: Option<Place>): string {
    if place.None? then "" else PrintCursor(Max(0, place.value.list), Max(0, place.value.offset))
  }

  datatype Page = Page(items: seq<Chat>, next: string) | Loading | Error

  /** The page at a cursor, as a function of the answer. */
  function PageAt(lists: Lists, cursor: string, requested: int, answer: Answer): Page {
    var place := ParseCursor(cursor);
    if place.None? || answer.Failed? then Error
    else
      match TurnAt(lists, place.value, Limit(requested), answer)
      case Wait => Loading
      case Go(items, next) => Page(items, CursorText(next))
  }

  method CollectItems(ids: seq<Chat>, offset: nat, end: nat) returns (items: seq<Chat>)
    requires end <= |ids|
    ensures items == Listed(Span(ids, offset, end))
  {
    items := [];
    var i := offset;
    while i < end
      invariant i == offset || offset < i <= end
      invariant items == Listed(Span(ids, offset, i))
    {
      var span := Span(ids, offset, i + 1);
      assert span[..|span| - 1] == Span(ids, offset, i) && span[|span| - 1] == ids[i];
      if ids[i].cached {
        if !ids[i].secret {
          items := items + [ids[i]];
        }
      }
      i := i + 1;
    }
  }

  /** The session's page, built from the answers of its two native calls. */
  method ListChats(lists: Lists, cursor: string, requested: int, answer: Answer) returns (page: Page)
    ensures page == PageAt(lists, cursor, requested, answer)
  {
    var place := ParseCursor(cursor);
    if place.None? {
      return Error;
    }
    var list, offset := place.value.list, place.value.offset;
    var limit := requested;
    if limit < 1 || limit > 100 {
      limit := 100;
    }
    if answer.Failed? {
      return Error;
    }
    page := BuildPage(Ids(ListAt(lists, list), answer), list, offset, limit, answer.exhausted);
    assert TurnAt(lists, place.value, limit, answer).Go? ==> page.Page?;
  }

  method BuildPage(ids: seq<Chat>, list: nat, offset: nat, limit: nat, exhausted: bool) returns (page: Page)
    requires limit > 0
    ensures var end := Min(|ids|, offset + limit);
            page == if end == offset && !exhausted then Loading
                    else Page(Listed(Span(ids, offset, end)),
                              if !exhausted || end < |ids| || end - offset == limit then PrintCursor(list, end)
                              else if list == 0 then PrintCursor(1, 0) else "")
  {
    var end := |ids|;
    if end > offset + limit {
      end := offset + limit;
    }
    var items := CollectItems(ids, offset, end);
    var next := "";
    if !exhausted || end < |ids| || end - offset == limit {
      next := PrintCursor(list, end);
    } else if list == 0 {
      next := PrintCursor(1, 0);
    }
    if end == offset && !exhausted {
      return Loading;
    }
    return Page(items, next);
  }

  // ---------------------------------------------------------------- following places

  predicate Within(lists: Lists, place: Place) {
    0 <= place.list <= 1 && 0 <= place.offset <= |ListAt(lists, place.list)|
  }

  /** Chats from a place on: the rest of its list and, after the main list, the archive. */
  function Remaining(lists: Lists, place: Option<Place>): seq<Chat>
    requires place.Some? ==> Within(lists, place.value)
  {
    if place.None? then []
    else Listed(ListAt(lists, place.value.list)[place.value.offset..])
         + if place.value.list == 0 then Listed(lists.archive) else []
  }

  /** How many pages can still follow. */
  function Distance(lists: Lists, place: Option<Place>): nat
    requires place.Some? ==> Within(lists, place.value)
  {
    if place.None? then 0
    else |ListAt(lists, place.value.list)| - place.value.offset + 1
         + if place.value.list == 0 then |lists.archive| + 1 else 0
  }

  /** What was loaded stays loaded; a list reported exhausted was answered as far as this page asks. */
  predicate Honest(lists: Lists, place: Place, limit: nat, answer: Answer) {
    var chats := ListAt(lists, place.list);
    answer.Loaded? ==>
      && place.offset <= answer.count <= |chats|
      && (answer.exhausted ==> answer.count >= Min(|chats|, place.offset + limit))
  }

  lemma SpanThenRest(chats: seq<Chat>, from: nat, to: nat)
    requires from <= to <= |chats|
    ensures Listed(chats[from..]) == Listed(Span(chats, from, to)) + Listed(chats[to..])
  {
    assert chats[from..] == Span(chats, from, to) + chats[to..];
    ListedSplits(Span(chats, from, to), chats[to..]);
  }

  /** Where an honest page ends: further on in the same list, or at the list's end. */
  lemma TurnEnds(lists: Lists, place: Place, limit: nat, answer: Answer) returns (end: nat)
    requires Within(lists, place) && limit > 0 && Honest(lists, place, limit, answer)
    requires TurnAt(lists, place, limit, answer).Go?
    ensures var chats, turn := ListAt(lists, place.list), TurnAt(lists, place, limit, answer);
            && place.offset <= end <= |chats| && turn.items == Listed(Span(chats, place.offset, end))
            && (|| (turn.next == Some(Place(place.list, end)) && end > place.offset)
                || (end == |chats| && turn.next == if place.list == 0 then Some(Place(1, 0)) else None))
  {
    var chats, offset := ListAt(lists, place.list), place.offset;
    end := Min(answer.count, offset + limit);
    assert Span(Ids(chats, answer), offset, end) == Span(chats, offset, end);
  }

  lemma RemainingInList(lists: Lists, place: Place, end: nat)
    requires Within(lists, place) && place.offset <= end <= |ListAt(lists, place.list)|
    ensures Remaining(lists, Some(place))
            == Listed(Span(ListAt(lists, place.list), place.offset, end)) + Remaining(lists, Some(Place(place.list, end)))
  {
    SpanThenRest(ListAt(lists, place.list), place.offset, end);
  }

  lemma RemainingAtEnd(lists: Lists, list: int)
    requires 0 <= list <= 1
    ensures Remaining(lists, Some(Place(list, |ListAt(lists, list)|)))
            == Remaining(lists, if list == 0 then Some(Place(1, 0)) else None)
  {
    var chats := ListAt(lists, list);
    assert chats[|chats|..] == [] && lists.archive[0..] == lists.archive;
  }

  /** One page: what it shows and what remains make up what remained, and fewer pages can follow. */
  lemma TurnAdvances(lists: Lists, place: Place, limit: nat, answer: Answer)
    requires Within(lists, place) && limit > 0 && Honest(lists, place, limit, answer)
    requires TurnAt(lists, place, limit, answer).Go?
    ensures var turn := TurnAt(lists, place, limit, answer);
            && turn.next != Some(place)
            && (turn.next.Some? ==> Within(lists, turn.next.value))
            && Remaining(lists, Some(place)) == turn.items + Remaining(lists, turn.next)
            && Distance(lists, turn.next) < Distance(lists, Some(place))
  {
    var end := TurnEnds(lists, place, limit, answer);
    RemainingInList(lists, place, end);
    RemainingAtEnd(lists, place.list);
  }

  /** One native round of a reader that follows the cursors: the limit it asks for and what Telegram answers. */
  datatype Round = Round(requested: int, answer: Answer)

  /** What a reader has seen, how many pages it got, and where it stands; nowhere once the last page was read. */
  datatype Walk = Walk(seen: seq<Chat>, pages: nat, at: Option<Place>)

  /** Beyond the bound no cursor can name the place: the reader is refused there for good. */
  predicate Refused(place: Place) {
    place.offset > MAX_OFFSET
  }

  function Follow(lists: Lists, place: Place, rounds: seq<Round>): Walk
    decreases |rounds|
  {
    if rounds == [] || Refused(place) then Walk([], 0, Some(place))
    else
      match TurnAt(lists, place, Limit(rounds[0].requested), rounds[0].answer)
      case Wait => Follow(lists, place, rounds[1..])
      case Go(items, None) => Walk(items, 1, None)
      case Go(items, Some(next)) =>
        var rest := Follow(lists, next, rounds[1..]);
        Walk(items + rest.seen, rest.pages + 1, rest.at)
  }

  /** Every answer is honest about the place it was given for. */
  predicate HonestRounds(lists: Lists, place: Place, rounds: seq<Round>)
    decreases |rounds|
  {
    rounds != [] && !Refused(place) ==>
      && Honest(lists, place, Limit(rounds[0].requested), rounds[0].answer)
      && match TurnAt(lists, place, Limit(rounds[0].requested), rounds[0].answer)
         case Wait => HonestRounds(lists, place, rounds[1..])
         case Go(_, None) => true
         case Go(_, Some(next)) => HonestRounds(lists, next, rounds[1..])
  }

  /** What was seen and what remains make up what there was, and the pages were no more than could be. */
  ghost predicate Covers(lists: Lists, place: Option<Place>, walk: Walk)
    requires place.Some? ==> Within(lists, place.value)
  {
    && (walk.at.Some? ==> Within(lists, walk.at.value))
    && walk.seen + Remaining(lists, walk.at) == Remaining(lists, place)
    && walk.pages + Distance(lists, walk.at) <= Distance(lists, place)
  }

  lemma PageThenWalk(lists: Lists, place: Place, items: seq<Chat>, next: Place, rest: Walk)
    requires Within(lists, place) && Within(lists, next) && Covers(lists, Some(next), rest)
    requires Remaining(lists, Some(place)) == items + Remaining(lists, Some(next))
    requires Distance(lists, Some(next)) < Distance(lists, Some(place))
    ensures Covers(lists, Some(place), Walk(items + rest.seen, rest.pages + 1, rest.at))
  {
    assert items + rest.seen + Remaining(lists, rest.at) == items + (rest.seen + Remaining(lists, rest.at));
  }

  lemma {:induction false} FollowCovers(lists: Lists, place: Place, rounds: seq<Round>)
    requires Within(lists, place) && HonestRounds(lists, place, rounds)
    ensures Covers(lists, Some(place), Follow(lists, place, rounds))
    decreases |rounds|
  {
    if rounds != [] && !Refused(place) {
      var limit := Limit(rounds[0].requested);
      match TurnAt(lists, place, limit, rounds[0].answer) {
        case Wait => FollowCovers(lists, place, rounds[1..]);
        case Go(items, None) => TurnAdvances(lists, place, limit, rounds[0].answer);
        case Go(items, Some(next)) =>
          TurnAdvances(lists, place, limit, rounds[0].answer);
          FollowCovers(lists, next, rounds[1..]);
          PageThenWalk(lists, place, items, next, Follow(lists, next, rounds[1..]));
      }
    }
  }

  // ---------------------------------------------------------------- following cursors

  /** The same reader, holding cursor texts; a round without a page is asked again with the same text. */
  datatype TextWalk = TextWalk(seen: seq<Chat>, pages: nat, cursor: Option<string>)

  function FollowText(lists: Lists, cursor: string, rounds: seq<Round>): TextWalk
    decreases |rounds|
  {
    if rounds == [] then TextWalk([], 0, Some(cursor))
    else
      match PageAt(lists, cursor, rounds[0].requested, rounds[0].answer)
      case Page(items, next) =>
        if next == "" then TextWalk(items, 1, None)
        else
          var rest := FollowText(lists, next, rounds[1..]);
          TextWalk(items + rest.seen, rest.pages + 1, rest.cursor)
      case _ => FollowText(lists, cursor, rounds[1..])
  }

  /** What a cursor text stands for: the place it names, or no place if the place is beyond the bound. */
  predicate Names(cursor: string, place: Place) {
    ParseCursor(cursor) == if Refused(place) then None else Some(place)
  }

  lemma CursorTextNames(place: Place)
    requires 0 <= place.list <= 1 && place.offset >= 0
    ensures CursorText(Some(place)) != "" && Names(CursorText(Some(place)), place)
  {
    PrintedCursorIsRead(place.list, place.offset);
  }

  /** A page's cursor text names the place that follows, and is never the text that was asked with. */
  lemma PageAtPlace(lists: Lists, cursor: string, place: Place, round: Round)
    requires Within(lists, place) && ParseCursor(cursor) == Some(place)
    requires Honest(lists, place, Limit(round.requested), round.answer)
    ensures var page := PageAt(lists, cursor, round.requested, round.answer);
            match TurnAt(lists, place, Limit(round.requested), round.answer)
            case Wait => !page.Page?
            case Go(items, next) =>
              && page.Page? && page.items == items && page.next != cursor
              && (next.None? <==> page.next == "")
              && (next.Some? ==> Names(page.next, next.value))
  {
    var turn := TurnAt(lists, place, Limit(round.requested), round.answer);
    if turn.Go? {
      TurnAdvances(lists, place, Limit(round.requested), round.answer);
      if turn.next.Some? {
        CursorTextNames(turn.next.value);
      } else {
        assert ParseCursor("") == Some(Place(0, 0)) && place.list == 1;
      }
    }
  }

  lemma {:induction false} RefusedStays(lists: Lists, cursor: string, rounds: seq<Round>)
    requires ParseCursor(cursor) == None
    ensures FollowText(lists, cursor, rounds) == TextWalk([], 0, Some(cursor))
    decreases |rounds|
  {
    if rounds != [] {
      RefusedStays(lists, cursor, rounds[1..]);
    }
  }

  /** A reader holding cursor texts does what a reader holding places does. */
  lemma {:induction false} TextsFollowPlaces(lists: Lists, cursor: string, place: Place, rounds: seq<Round>)
    requires Within(lists, place) && HonestRounds(lists, place, rounds) && Names(cursor, place)
    ensures var text, walk := FollowText(lists, cursor, rounds), Follow(lists, place, rounds);
            && text.seen == walk.seen && text.pages == walk.pages
            && (text.cursor.None? <==> walk.at.None?)
            && (walk.at.Some? ==> Names(text.cursor.value, walk.at.value))
    decreases |rounds|
  {
    if Refused(place) {
      RefusedStays(lists, cursor, rounds);
    } else if rounds != [] {
      PageAtPlace(lists, cursor, place, rounds[0]);
      match TurnAt(lists, place, Limit(rounds[0].requested), rounds[0].answer) {
        case Wait => TextsFollowPlaces(lists, cursor, place, rounds[1..]);
        case Go(items, None) =>
        case Go(items, Some(next)) =>
          TurnAdvances(lists, place, Limit(rounds[0].requested), rounds[0].answer);
          TextsFollowPlaces(lists, PageAt(lists, cursor, rounds[0].requested, rounds[0].answer).next, next, rounds[1..]);
      }
    }
  }

  const START := Place(0, 0)

  /**
   However the lists load, failures and retries included, a reader that follows the cursors has at any time seen
   exactly the listed chats before its place, main list first, each in turn once; as many pages as there are
   entries and lists are enough to reach the end, where it has seen everything. Its cursor names its place unless
   that is beyond the bound.
   */
  lemma FollowingSeesEachOnce(lists: Lists, rounds: seq<Round>)
    requires HonestRounds(lists, START, rounds)
    ensures var walk, all := FollowText(lists, "", rounds), Listed(lists.main) + Listed(lists.archive);
            && walk.pages <= |lists.main| + |lists.archive| + 2
            && (walk.cursor.None? ==> walk.seen == all)
            && (walk.pages == |lists.main| + |lists.archive| + 2 ==> walk.cursor.None?)
            && (walk.cursor.Some? ==>
                  var at := Follow(lists, START, rounds).at;
                  && at.Some? && Within(lists, at.value) && Names(walk.cursor.value, at.value)
                  && walk.seen + Remaining(lists, at) == all)
  {
    assert Within(lists, START) && Names("", START);
    TextsFollowPlaces(lists, "", START, rounds);
    FollowCovers(lists, START, rounds);
    assert lists.main[0..] == lists.main;
    assert Remaining(lists, Some(START)) == Listed(lists.main) + Listed(lists.archive);
  }

  // ---------------------------------------------------------------- long lists

  /**
   A page hands out a cursor that will be refused exactly when it continues in its list, because the list was
   not exhausted, or loaded past the page, or the page is full, and ends beyond the bound.
   */
  lemma HandsOutRefusedIff(lists: Lists, cursor: string, place: Place, round: Round)
    requires ParseCursor(cursor) == Some(place) && PageAt(lists, cursor, round.requested, round.answer).Page?
    ensures var limit, loaded := Limit(round.requested), |Ids(ListAt(lists, place.list), round.answer)|;
            var end, page := Min(loaded, place.offset + limit), PageAt(lists, cursor, round.requested, round.answer);
            page.next != "" && ParseCursor(page.next) == None
            <==> end > 100000 && (!round.answer.exhausted || end < loaded || end - place.offset == limit)
  {
    var next := TurnAt(lists, place, Limit(round.requested), round.answer).next;
    if next.Some? {
      CursorTextNames(next.value);
    }
  }

  predicate Stuck(walk: TextWalk) {
    walk.cursor.Some? && ParseCursor(walk.cursor.value) == None
  }

  /** A page of 100 from a loaded and exhausted list continues in it exactly when the page is full. */
  lemma ExhaustedPage(lists: Lists, place: Place)
    requires Within(lists, place)
    ensures var answer := Loaded(|ListAt(lists, place.list)|, true);
            && Honest(lists, place, 100, answer) && TurnAt(lists, place, 100, answer).Go?
            && TurnAt(lists, place, 100, answer).next
               == if place.offset + 100 <= |ListAt(lists, place.list)| then Some(Place(place.list, place.offset + 100))
                  else if place.list == 0 then Some(Place(1, 0)) else None
  {
  }

  /** A page of 100 from a list with more to load ends with the page, or with the list. */
  lemma UnexhaustedPage(lists: Lists, place: Place)
    requires Within(lists, place) && place.offset < |ListAt(lists, place.list)|
    ensures var end := Min(place.offset + 100, |ListAt(lists, place.list)|);
            && Honest(lists, place, 100, Loaded(end, false)) && TurnAt(lists, place, 100, Loaded(end, false)).Go?
            && TurnAt(lists, place, 100, Loaded(end, false)).next == Some(Place(place.list, end))
  {
  }

  /** One page, and then what follows it. */
  lemma PageFirst(lists: Lists, place: Place, answer: Answer, next: Place, rest: seq<Round>)
    requires !Refused(place) && Honest(lists, place, 100, answer) && HonestRounds(lists, next, rest)
    requires TurnAt(lists, place, 100, answer).Go? && TurnAt(lists, place, 100, answer).next == Some(next)
    ensures var rounds := [Round(100, answer)] + rest;
            HonestRounds(lists, place, rounds) && Follow(lists, place, rounds).at == Follow(lists, next, rest).at
  {
    var rounds := [Round(100, answer)] + rest;
    assert rounds[1..] == rest && rounds[0] == Round(100, answer);
  }

  /** Full pages of an unexhausted list lead past the bound of a list that reaches past it. */
  lemma ReachRefused(lists: Lists, place: Place) returns (rounds: seq<Round>)
    requires Within(lists, place) && !Refused(place) && place.offset % 100 == 0
    requires |ListAt(lists, place.list)| > MAX_OFFSET || (place.list == 0 && |lists.archive| > MAX_OFFSET)
    ensures HonestRounds(lists, place, rounds)
    ensures Follow(lists, place, rounds).at.Some? && Refused(Follow(lists, place, rounds).at.value)
    decreases Distance(lists, Some(place))
  {
    var n := |ListAt(lists, place.list)|;
    var answer, next: Place;
    if n > MAX_OFFSET {
      UnexhaustedPage(lists, place);
      answer, next := Loaded(Min(place.offset + 100, n), false), Place(place.list, Min(place.offset + 100, n));
    } else {
      ExhaustedPage(lists, place);
      answer, next := Loaded(n, true), if place.offset + 100 <= n then Place(0, place.offset + 100) else Place(1, 0);
    }
    rounds := [];
    if !Refused(next) {
      rounds := ReachRefused(lists, next);
    }
    PageFirst(lists, place, answer, next, rounds);
    rounds := [Round(100, answer)] + rounds;
  }

  /** Answers that report the list exhausted lead to the end of lists that end less than a page past the bound. */
  lemma ReachEnd(lists: Lists, place: Place) returns (rounds: seq<Round>)
    requires Within(lists, place) && !Refused(place) && place.offset % 100 == 0
    requires |lists.main| < MAX_OFFSET + 100 && |lists.archive| < MAX_OFFSET + 100
    ensures HonestRounds(lists, place, rounds) && Follow(lists, place, rounds).at.None?
    decreases Distance(lists, Some(place))
  {
    var answer := Loaded(|ListAt(lists, place.list)|, true);
    ExhaustedPage(lists, place);
    match TurnAt(lists, place, 100, answer).next {
      case None =>
        rounds := [Round(100, answer)];
      case Some(next) =>
        rounds := ReachEnd(lists, next);
        PageFirst(lists, place, answer, next, rounds);
        rounds := [Round(100, answer)] + rounds;
    }
  }

  /** The last page of a list starts within the bound, so the list ends less than a page past it. */
  lemma {:induction false} FinishedListsAreShort(lists: Lists, place: Place, rounds: seq<Round>)
    requires Within(lists, place) && HonestRounds(lists, place, rounds) && Follow(lists, place, rounds).at.None?
    ensures |ListAt(lists, place.list)| < MAX_OFFSET + 100
    ensures place.list == 0 ==> |lists.archive| < MAX_OFFSET + 100
    decreases |rounds|
  {
    var limit := Limit(rounds[0].requested);
    match TurnAt(lists, place, limit, rounds[0].answer) {
      case Wait => FinishedListsAreShort(lists, place, rounds[1..]);
      case Go(items, None) =>
      case Go(items, Some(next)) =>
        TurnAdvances(lists, place, limit, rounds[0].answer);
        FinishedListsAreShort(lists, next, rounds[1..]);
    }
  }

  /** No reader is ever refused exactly when neither list is longer than the bound. */
  lemma NeverRefusedIff(lists: Lists)
    ensures (forall rounds :: HonestRounds(lists, START, rounds) ==> !Stuck(FollowText(lists, "", rounds)))
            <==> |lists.main| <= 100000 && |lists.archive| <= 100000
  {
    assert Within(lists, START) && Names("", START);
    if |lists.main| <= 100000 && |lists.archive| <= 100000 {
      forall rounds | HonestRounds(lists, START, rounds) ensures !Stuck(FollowText(lists, "", rounds)) {
        FollowingSeesEachOnce(lists, rounds);
      }
    } else {
      var rounds := ReachRefused(lists, START);
      TextsFollowPlaces(lists, "", START, rounds);
      assert HonestRounds(lists, START, rounds) && Stuck(FollowText(lists, "", rounds));
    }
  }

  /** Some reader gets to the end exactly when both lists end less than a page past the bound. */
  lemma EndReachableIff(lists: Lists)
    ensures (exists rounds :: HonestRounds(lists, START, rounds) && FollowText(lists, "", rounds).cursor.None?)
            <==> |lists.main| < 100100 && |lists.archive| < 100100
  {
    assert Within(lists, START) && Names("", START);
    if |lists.main| < 100100 && |lists.archive| < 100100 {
      var rounds := ReachEnd(lists, START);
      TextsFollowPlaces(lists, "", START, rounds);
      assert HonestRounds(lists, START, rounds) && FollowText(lists, "", rounds).cursor.None?;
    }
    forall rounds | HonestRounds(lists, START, rounds) && FollowText(lists, "", rounds).cursor.None?
      ensures |lists.main| < 100100 && |lists.archive| < 100100
    {
      TextsFollowPlaces(lists, "", START, rounds);
      FinishedListsAreShort(lists, START, rounds);
    }
  }
}
