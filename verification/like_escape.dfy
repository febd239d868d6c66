/**
 Searching for a literal text with LIKE: the query is escaped by three replacements one after the other, wrapped
 in percent signs and matched with ESCAPE '\'. ILIKE matches what is left of both sides after lower-casing,
 which is an arbitrary mapping of characters here.
 */
module LikeEscape {

  // ---------------------------------------------------------------- the escaper

  /** Replaces every occurrence of one character. */
  function ReplaceAll(s: string, from: char, to: string): string {
    if s == "" then "" else (if s[0] == from then to else [s[0]]) + ReplaceAll(s[1..], from, to)
  }

  function EscapeLike(value: string): string {
    ReplaceAll(ReplaceAll(ReplaceAll(value, '\\', "\\\\"), '%', "\\%"), '_', "\\_")
  }

  predicate IsSpecial(c: char) {
    c == '%' || c == '_' || c == '\\'
  }

  function EscapeChar(c: char): string {
    if IsSpecial(c) then ['\\', c] else [c]
  }

  /** A backslash before every special character, and nothing else. */
  function EscapeEach(s: string): string {
    if s == "" then "" else EscapeChar(s[0]) + EscapeEach(s[1..])
  }

  lemma {:induction false} ReplaceAllSplits(a: string, b: string, from: char, to: string)
    ensures ReplaceAll(a + b, from, to) == ReplaceAll(a, from, to) + ReplaceAll(b, from, to)
  {
    if a == "" {
      assert a + b == b;
    } else {
      assert (a + b)[1..] == a[1..] + b;
      ReplaceAllSplits(a[1..], b, from, to);
    }
  }

  lemma ReplaceOne(c: char, from: char, to: string)
    ensures ReplaceAll([c], from, to) == if c == from then to else [c]
  {
    assert [c][1..] == "";
  }

  lemma ReplaceTwo(c: char, d: char, from: char, to: string)
    ensures ReplaceAll([c, d], from, to) == (if c == from then to else [c]) + (if d == from then to else [d])
  {
    assert [c, d] == [c] + [d];
    ReplaceAllSplits([c], [d], from, to);
    ReplaceOne(c, from, to);
    ReplaceOne(d, from, to);
  }

  /** What the three replacements make of one character. */
  lemma EscapeOne(c: char)
    ensures EscapeLike([c]) == EscapeChar(c)
  {
    ReplaceOne(c, '\\', "\\\\");
    if c == '\\' {
      ReplaceTwo('\\', '\\', '%', "\\%");
      ReplaceTwo('\\', '\\', '_', "\\_");
    } else {
      ReplaceOne(c, '%', "\\%");
      if c == '%' {
        ReplaceTwo('\\', '%', '_', "\\_");
      } else {
        ReplaceOne(c, '_', "\\_");
      }
    }
  }

  lemma EscapeLikeSplits(a: string, b: string)
    ensures EscapeLike(a + b) == EscapeLike(a) + EscapeLike(b)
  {
    var backslash, percent := "\\\\", "\\%";
    ReplaceAllSplits(a, b, '\\', backslash);
    var a1, b1 := ReplaceAll(a, '\\', backslash), ReplaceAll(b, '\\', backslash);
    ReplaceAllSplits(a1, b1, '%', percent);
    ReplaceAllSplits(ReplaceAll(a1, '%', percent), ReplaceAll(b1, '%', percent), '_', "\\_");
  }

  /** Three replacements in this order are one escape a character. */
  lemma {:induction false} SequentialIsEach(s: string)
    ensures EscapeLike(s) == EscapeEach(s)
  {
    if s != "" {
      EscapeOne(s[0]);
      assert s == [s[0]] + s[1..];
      EscapeLikeSplits([s[0]], s[1..]);
      SequentialIsEach(s[1..]);
    }
  }

  /** Replacing the backslash last would escape the escapes. */
  lemma OrderOfReplacements()
    ensures ReplaceAll(ReplaceAll("%", '%', "\\%"), '\\', "\\\\") == "\\\\%" != EscapeLike("%")
  {
    ReplaceOne('%', '%', "\\%");
    ReplaceTwo('\\', '%', '\\', "\\\\");
    EscapeOne('%');
  }

  // ---------------------------------------------------------------- LIKE

  /** A pattern that ends in a lone escape character is an error. */
  predicate WellFormed(p: string) {
    p == "" || (if p[0] == '\\' then |p| >= 2 && WellFormed(p[2..]) else WellFormed(p[1..]))
  }

  predicate Like(p: string, t: string)
    requires WellFormed(p)
    decreases |p| + |t|
  {
    if p == "" then t == ""
    else if p[0] == '%' then Like(p[1..], t) || (t != "" && Like(p, t[1..]))
    else if p[0] == '_' then t != "" && Like(p[1..], t[1..])
    else if p[0] == '\\' then t != "" && p[1] == t[0] && Like(p[2..], t[1..])
    else t != "" && p[0] == t[0] && Like(p[1..], t[1..])
  }

  /** The text has q somewhere in it. */
  predicate Occurs(q: string, t: string) {
    exists i :: 0 <= i <= |t| && q <= t[i..]
  }

  /** An escaped character matches that character. */
  lemma EscapedCharMatches(c: char, p: string, t: string)
    requires WellFormed(p)
    ensures WellFormed(EscapeChar(c) + p)
    ensures Like(EscapeChar(c) + p, t) <==> t != "" && t[0] == c && Like(p, t[1..])
  {
    var whole := EscapeChar(c) + p;
    assert whole[|EscapeChar(c)|..] == p;
  }

  lemma {:induction false} EscapedIsWellFormed(q: string, p: string)
    requires WellFormed(p)
    ensures WellFormed(EscapeEach(q) + p)
  {
    if q == "" {
      assert EscapeEach(q) + p == p;
    } else {
      EscapedIsWellFormed(q[1..], p);
      EscapedCharMatches(q[0], EscapeEach(q[1..]) + p, "");
      assert EscapeEach(q) + p == EscapeChar(q[0]) + (EscapeEach(q[1..]) + p);
    }
  }

  lemma StartsWith(q: string, t: string)
    requires q != ""
    ensures q <= t <==> t != "" && t[0] == q[0] && q[1..] <= t[1..]
  {
    if t != "" && t[0] == q[0] && q[1..] <= t[1..] {
      assert q == [q[0]] + q[1..] && t == [t[0]] + t[1..];
    }
  }

  /** An escaped text matches itself and nothing else. */
  lemma {:induction false} EscapedMatchesLiterally(q: string, p: string, t: string)
    requires WellFormed(p) && WellFormed(EscapeEach(q) + p)
    ensures Like(EscapeEach(q) + p, t) <==> q <= t && Like(p, t[|q|..])
    decreases |q|
  {
    if q == "" {
      assert EscapeEach(q) + p == p && t[0..] == t;
    } else {
      EscapedIsWellFormed(q[1..], p);
      EscapedCharMatches(q[0], EscapeEach(q[1..]) + p, t);
      assert EscapeEach(q) + p == EscapeChar(q[0]) + (EscapeEach(q[1..]) + p);
      StartsWith(q, t);
      if t != "" {
        EscapedMatchesLiterally(q[1..], p, t[1..]);
        assert q <= t ==> t[1..][|q| - 1..] == t[|q|..];
      }
    }
  }

  lemma {:induction false} PercentMatchesAnything(t: string)
    ensures Like("%", t)
  {
    if t != "" {
      PercentMatchesAnything(t[1..]);
    } else {
      assert "%"[1..] == "";
    }
  }

  predicate LikeFrom(p: string, t: string, i: int)
    requires WellFormed(p)
  {
    0 <= i <= |t| && Like(p, t[i..])
  }

  lemma LikeFromNext(p: string, t: string, i: int)
    requires WellFormed(p) && t != ""
    ensures LikeFrom(p, t[1..], i) <==> i >= 0 && LikeFrom(p, t, i + 1)
  {
    if 0 <= i <= |t[1..]| {
      assert t[1..][i..] == t[i + 1..];
    }
  }

  /** A percent sign in front lets the rest match anywhere further on. */
  lemma {:induction false} PercentSkips(p: string, t: string)
    requires WellFormed(p) && WellFormed("%" + p)
    ensures Like("%" + p, t) <==> exists i :: LikeFrom(p, t, i)
    decreases |t|
  {
    assert ("%" + p)[1..] == p && t[0..] == t;
    if Like(p, t) {
      assert LikeFrom(p, t, 0);
    } else if t != "" {
      PercentSkips(p, t[1..]);
      if i :| LikeFrom(p, t[1..], i) {
        LikeFromNext(p, t, i);
      }
      if i :| LikeFrom(p, t, i) {
        assert i > 0;
        LikeFromNext(p, t, i - 1);
      }
    } else {
      assert forall i :: LikeFrom(p, t, i) ==> i == 0;
    }
  }

  function Pattern(query: string): string {
    "%" + (EscapeLike(query) + "%")
  }

  lemma PatternIsWellFormed(query: string)
    ensures WellFormed(EscapeLike(query) + "%") && WellFormed(Pattern(query))
  {
    SequentialIsEach(query);
    assert "%"[1..] == "" && WellFormed("%");
    EscapedIsWellFormed(query, "%");
    assert Pattern(query)[1..] == EscapeLike(query) + "%";
  }

  /** The search pattern is never an error, and matches a text exactly when the query occurs in it. */
  lemma PatternMatchesOccurrences(query: string, t: string)
    ensures WellFormed(Pattern(query))
    ensures Like(Pattern(query), t) <==> Occurs(query, t)
  {
    PatternIsWellFormed(query);
    SequentialIsEach(query);
    var p := EscapeLike(query) + "%";
    PercentSkips(p, t);
    forall i | 0 <= i <= |t| ensures LikeFrom(p, t, i) <==> query <= t[i..] {
      EscapedMatchesLiterally(query, "%", t[i..]);
      if query <= t[i..] {
        PercentMatchesAnything(t[i..][|query|..]);
      }
    }
  }

  /** Without the escape, a query of one percent sign would match every text. */
  lemma UnescapedMatchesMore(t: string)
    ensures WellFormed("%" + "%" + "%") && Like("%" + "%" + "%", t)
  {
    assert "%" + "%" + "%" == "%%%" && "%%%"[1..] == "%%" && "%%"[1..] == "%" && "%"[1..] == "";
    PercentMatchesAnything(t);
    assert Like("%%", t);
  }

  // ---------------------------------------------------------------- ILIKE

  function Lower(fold: char -> char, s: string): string {
    if s == "" then "" else [fold(s[0])] + Lower(fold, s[1..])
  }

  /** Lower-casing leaves the special characters alone and turns nothing else into one. */
  ghost predicate KeepsSpecials(fold: char -> char) {
    forall c :: (IsSpecial(c) ==> fold(c) == c) && (IsSpecial(fold(c)) ==> IsSpecial(c))
  }

  lemma {:induction false} LowerSplits(fold: char -> char, a: string, b: string)
    ensures Lower(fold, a + b) == Lower(fold, a) + Lower(fold, b)
  {
    if a == "" {
      assert a + b == b;
    } else {
      assert (a + b)[1..] == a[1..] + b;
      LowerSplits(fold, a[1..], b);
    }
  }

  lemma {:induction false} LowerThenEscape(fold: char -> char, s: string)
    requires KeepsSpecials(fold)
    ensures Lower(fold, EscapeEach(s)) == EscapeEach(Lower(fold, s))
  {
    if s != "" {
      LowerThenEscape(fold, s[1..]);
      var head := EscapeChar(s[0]);
      LowerSplits(fold, head, EscapeEach(s[1..]));
      assert [s[0]][1..] == "";
      if IsSpecial(s[0]) {
        assert IsSpecial('\\') && fold('\\') == '\\' && fold(s[0]) == s[0];
        assert head[1..] == [s[0]];
        assert Lower(fold, head) == ['\\'] + [s[0]];
      } else {
        assert Lower(fold, head) == [fold(s[0])];
      }
      assert Lower(fold, s)[1..] == Lower(fold, s[1..]);
    }
  }

  /** ILIKE with the search pattern finds the query in any case. */
  lemma InsensitiveSearch(fold: char -> char, query: string, t: string)
    requires KeepsSpecials(fold)
    ensures Lower(fold, Pattern(query)) == Pattern(Lower(fold, query))
    ensures WellFormed(Lower(fold, Pattern(query)))
    ensures Like(Lower(fold, Pattern(query)), Lower(fold, t)) <==> Occurs(Lower(fold, query), Lower(fold, t))
  {
    SequentialIsEach(query);
    SequentialIsEach(Lower(fold, query));
    LowerThenEscape(fold, query);
    assert IsSpecial('%') && "%"[1..] == "" && Lower(fold, "%") == "%";
    LowerSplits(fold, EscapeLike(query), "%");
    LowerSplits(fold, "%", EscapeLike(query) + "%");
    PatternMatchesOccurrences(Lower(fold, query), Lower(fold, t));
  }
}
