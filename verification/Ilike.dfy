/** The SQL `ilike` operator, and what a pattern made of a search text really selects. */
module Ilike {
  import opened GoStrings
  import Utf8

  const PERCENT: Byte := '%'
  const UNDERSCORE: Byte := '_'
  const BACKSLASH: Byte := '\\'
  const ANY: Bytes := [PERCENT]

  /** `%` stands for any text, `_` for one code point, and a backslash takes the byte after it literally. */
  predicate Like(s: Bytes, pattern: Bytes)
    decreases |pattern|, |s|
  {
    if pattern == [] then s == []
    else if pattern[0] == PERCENT then Like(s, pattern[1..]) || (s != [] && Like(s[1..], pattern))
    else if pattern[0] == UNDERSCORE then Utf8.RuneWidth(s) > 0 && Like(s[Utf8.RuneWidth(s)..], pattern[1..])
    else if pattern[0] == BACKSLASH && |pattern| > 1 then s != [] && s[0] == pattern[1] && Like(s[1..], pattern[2..])
    else s != [] && s[0] == pattern[0] && Like(s[1..], pattern[1..])
  }

  /** An underscore takes one code point and an escape one byte, as it is; anything is taken by a percent sign. */
  lemma PatternsMean(s: Bytes, c: Byte)
    ensures Like(s, [UNDERSCORE]) <==> s != [] && Utf8.RuneWidth(s) == |s|
    ensures Like(s, [BACKSLASH, c]) <==> s == [c]
    ensures Like(s, ANY)
  {
    AnyMatchesAll(s);
    var p: Bytes := [UNDERSCORE];
    assert p[1..] == [];
    var e: Bytes := [BACKSLASH, c];
    assert e[2..] == [];
  }

  predicate Matches(s: Bytes, pattern: Bytes) {
    Like(ToLower(s), ToLower(pattern))
  }

  /** `'%' || needle || '%'`. */
  function Around(needle: Bytes): Bytes {
    ANY + needle + ANY
  }

  predicate IsMeta(c: Byte) {
    c == PERCENT || c == UNDERSCORE || c == BACKSLASH
  }

  predicate IsLiteral(needle: Bytes) {
    forall i :: 0 <= i < |needle| ==> !IsMeta(needle[i])
  }

  lemma {:induction false} AnyMatchesAll(s: Bytes)
    ensures Like(s, ANY)
    decreases |s|
  {
    if s != [] {
      AnyMatchesAll(s[1..]);
    } else {
      assert ANY[1..] == [];
    }
  }

  /** A literal front must be there as it is. */
  lemma {:induction false} LiteralFront(s: Bytes, front: Bytes, pattern: Bytes)
    requires IsLiteral(front)
    ensures Like(s, front + pattern) <==> front <= s && Like(s[|front|..], pattern)
    decreases |front|
  {
    if front == [] {
      assert front + pattern == pattern && s[0..] == s;
    } else {
      assert (front + pattern)[0] == front[0] && (front + pattern)[1..] == front[1..] + pattern;
      if s != [] {
        LiteralFront(s[1..], front[1..], pattern);
        assert |front| <= |s| ==> s[1..][|front| - 1..] == s[|front|..];
        assert front <= s <==> s[0] == front[0] && front[1..] <= s[1..];
      }
    }
  }

  lemma LiteralBetween(s: Bytes, needle: Bytes)
    requires IsLiteral(needle)
    ensures Like(s, needle + ANY) <==> needle <= s
  {
    LiteralFront(s, needle, ANY);
    if needle <= s {
      AnyMatchesAll(s[|needle|..]);
    }
  }

  lemma {:induction false} LiteralSearch(s: Bytes, needle: Bytes)
    requires IsLiteral(needle)
    ensures Like(s, ANY + (needle + ANY)) <==> Contains(s, needle)
    decreases |s|
  {
    var pattern := ANY + (needle + ANY);
    assert pattern[0] == PERCENT && pattern[1..] == needle + ANY;
    LiteralBetween(s, needle);
    assert needle <= s <==> OccursAt(needle, s, 0);
    if s != [] {
      LiteralSearch(s[1..], needle);
      ContainsTail(s, needle);
    }
  }

  lemma ContainsTail(s: Bytes, part: Bytes)
    requires s != []
    ensures Contains(s, part) <==> part <= s || Contains(s[1..], part)
  {
    assert part <= s <==> OccursAt(part, s, 0);
    forall i | 0 <= i <= |s| - 1 ensures OccursAt(part, s[1..], i) <==> OccursAt(part, s, i + 1) {
      assert i + |part| <= |s| - 1 ==> s[1..][i..i + |part|] == s[i + 1..i + 1 + |part|];
    }
    if Contains(s, part) && !(part <= s) {
      var i :| 0 <= i <= |s| && OccursAt(part, s, i);
      assert OccursAt(part, s[1..], i - 1);
    }
    if Contains(s[1..], part) {
      var i :| 0 <= i <= |s[1..]| && OccursAt(part, s[1..], i);
      assert OccursAt(part, s, i + 1);
    }
  }

  /** A shortest text the pattern `needle || '%'` matches. A trailing backslash turns the closing `%` into a letter. */
  function Shortest(needle: Bytes): (s: Bytes)
    ensures |s| <= |needle|
    decreases |needle|
  {
    if needle == [] then []
    else if needle[0] == PERCENT then Shortest(needle[1..])
    else if needle[0] == UNDERSCORE then ['x'] + Shortest(needle[1..])
    else if needle[0] == BACKSLASH then if |needle| == 1 then ANY else [needle[1]] + Shortest(needle[2..])
    else [needle[0]] + Shortest(needle[1..])
  }

  lemma {:induction false} ShortestMatches(needle: Bytes)
    ensures Like(Shortest(needle), needle + ANY)
    decreases |needle|
  {
    var p, s := needle + ANY, Shortest(needle);
    if needle == [] {
      AnyMatchesAll([]);
      assert p == ANY;
    } else if needle[0] == BACKSLASH {
      if |needle| == 1 {
        assert p[2..] == [] && s[1..] == [];
        assert Like([], []);
      } else {
        ShortestMatches(needle[2..]);
        assert p[2..] == needle[2..] + ANY && s[1..] == Shortest(needle[2..]);
      }
    } else {
      ShortestMatches(needle[1..]);
      assert p[1..] == needle[1..] + ANY;
      if needle[0] != PERCENT {
        assert s[1..] == Shortest(needle[1..]);
        assert needle[0] == UNDERSCORE ==> Utf8.RuneWidth(s) == 1;
      }
    }
  }

  lemma {:induction false} ShortestIsNeedleOnlyIfLiteral(needle: Bytes)
    requires Shortest(needle) == needle
    ensures IsLiteral(needle)
    decreases |needle|
  {
    if needle != [] {
      var s := Shortest(needle);
      assert !IsMeta(needle[0]);
      assert s[1..] == Shortest(needle[1..]);
      ShortestIsNeedleOnlyIfLiteral(needle[1..]);
      assert forall i :: 1 <= i < |needle| ==> needle[i] == needle[1..][i - 1];
    }
  }

  lemma {:induction false} ShortestIsLower(needle: Bytes)
    requires forall i :: 0 <= i < |needle| ==> Lower(needle[i]) == needle[i]
    ensures ToLower(Shortest(needle)) == Shortest(needle)
    decreases |needle|
  {
    if needle != [] {
      if needle[0] == BACKSLASH && |needle| > 1 {
        ShortestIsLower(needle[2..]);
        assert ToLower(Shortest(needle)) == [needle[1]] + ToLower(Shortest(needle[2..]));
      } else if needle[0] != BACKSLASH {
        ShortestIsLower(needle[1..]);
        var s := Shortest(needle);
        assert needle[0] != PERCENT ==> ToLower(s) == [s[0]] + ToLower(s[1..]);
      }
    }
  }

  ghost predicate SearchesFor(needle: Bytes) {
    forall path :: Matches(path, Around(needle)) <==> Contains(ToLower(path), ToLower(needle))
  }

  /** The same for the paths there are. */
  ghost predicate SearchesPathsFor(needle: Bytes) {
    forall path :: path != [] && path[0] == SLASH ==>
      (Matches(path, Around(needle)) <==> Contains(ToLower(path), ToLower(needle)))
  }

  lemma LowerAround(needle: Bytes)
    ensures ToLower(Around(needle)) == ANY + (ToLower(needle) + ANY)
    ensures IsLiteral(ToLower(needle)) <==> IsLiteral(needle)
  {
    var n := ToLower(needle);
    assert forall i :: 0 <= i < |needle| ==> (IsMeta(n[i]) <==> IsMeta(needle[i]));
  }

  const SLASH: Byte := '/'

  /** A needle with a metacharacter is not at the front of a slash and its shortest match. */
  lemma {:induction false} SlashedShortestIsNoNeedle(needle: Bytes)
    requires needle <= [SLASH] + Shortest(needle)
    ensures IsLiteral(needle)
    decreases |needle|
  {
    if needle != [] {
      var s := Shortest(needle);
      assert needle[0] == ([SLASH] + s)[0] == SLASH;
      assert s == [SLASH] + Shortest(needle[1..]);
      assert ([SLASH] + s)[1..|needle|] == needle[1..];
      assert needle[1..] <= s;
      SlashedShortestIsNoNeedle(needle[1..]);
      assert forall i :: 1 <= i < |needle| ==> needle[i] == needle[1..][i - 1];
    }
  }

  lemma SlashedShortestHasNoNeedle(n: Bytes)
    requires !IsLiteral(n)
    ensures !Contains([SLASH] + Shortest(n), n)
  {
    var s := Shortest(n);
    var path := [SLASH] + s;
    if Contains(path, n) {
      var i :| 0 <= i <= |path| && OccursAt(n, path, i);
      assert i + |n| <= |s| + 1;
      if i == 0 {
        assert path[0..|n|] == n;
        SlashedShortestIsNoNeedle(n);
      } else {
        assert i == 1 && |n| == |s| && path[1..1 + |n|] == s;
        ShortestIsNeedleOnlyIfLiteral(n);
      }
    }
  }

  /** A needle with a metacharacter selects some path, starting with a slash as all do, that does not contain it. */
  lemma MetaOvermatches(needle: Bytes) returns (path: Bytes)
    requires !IsLiteral(needle)
    ensures path != [] && path[0] == SLASH
    ensures Matches(path, Around(needle)) && !Contains(ToLower(path), ToLower(needle))
  {
    var n := ToLower(needle);
    path := [SLASH] + Shortest(n);
    LowerAround(needle);
    ShortestIsLower(n);
    ShortestMatches(n);
    assert ToLower(path) == path;
    var pattern := ANY + (n + ANY);
    assert pattern[0] == PERCENT && pattern[1..] == n + ANY && path[1..] == Shortest(n);
    assert Like(Shortest(n), pattern);
    assert Like(path, pattern);
    SlashedShortestHasNoNeedle(n);
  }

  /**
   * The path filter is the case-insensitive substring search it is documented to be exactly for needles without `%`,
   * `_` and backslash.
   */
  lemma SearchIsExact(needle: Bytes)
    ensures SearchesFor(needle) <==> IsLiteral(needle)
    ensures SearchesPathsFor(needle) <==> IsLiteral(needle)
  {
    LowerAround(needle);
    if IsLiteral(needle) {
      forall path ensures Matches(path, Around(needle)) <==> Contains(ToLower(path), ToLower(needle)) {
        LiteralSearch(ToLower(path), ToLower(needle));
      }
    } else {
      var path := MetaOvermatches(needle);
    }
  }
}
