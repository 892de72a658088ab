/** The part of Go's `strings` package that the gateway leans on, over byte strings. */
module GoStrings {
  import opened Wrappers

  /** A Go string is a sequence of bytes; a byte is a character below 256, so that literals can be written as text. */
  type Byte = c: char | c as int < 256
  type Bytes = seq<Byte>

  predicate HasSuffix(s: Bytes, suffix: Bytes) {
    |suffix| <= |s| && s[|s| - |suffix|..] == suffix
  }

  function TrimPrefix(s: Bytes, prefix: Bytes): Bytes {
    if prefix <= s then s[|prefix|..] else s
  }

  predicate OccursAt(part: Bytes, s: Bytes, i: nat) {
    i + |part| <= |s| && s[i..i + |part|] == part
  }

  predicate Contains(s: Bytes, part: Bytes) {
    exists i :: 0 <= i <= |s| && OccursAt(part, s, i)
  }

  /** Where the run of `c` that starts at `i` ends. */
  function LeadRun(s: Bytes, c: Byte, i: nat): (r: nat)
    requires i <= |s|
    ensures i <= r <= |s| && (r < |s| ==> s[r] != c)
    ensures forall k :: i <= k < r ==> s[k] == c
    decreases |s| - i
  {
    if i < |s| && s[i] == c then LeadRun(s, c, i + 1) else i
  }

  /** Where the run of `c` that ends at `n` starts. */
  function TailRun(s: Bytes, c: Byte, n: nat): (r: nat)
    requires n <= |s|
    ensures r <= n && (r > 0 ==> s[r - 1] != c)
    ensures forall k :: r <= k < n ==> s[k] == c
  {
    if n > 0 && s[n - 1] == c then TailRun(s, c, n - 1) else n
  }

  /** What is left of `s` once every leading `c` is gone. */
  function TrimLeft(s: Bytes, c: Byte): (r: Bytes)
    ensures r == [] || r[0] != c
  {
    s[LeadRun(s, c, 0)..]
  }

  /** What is left of `s` once every trailing `c` is gone. */
  function TrimRight(s: Bytes, c: Byte): (r: Bytes)
    ensures r == [] || r[|r| - 1] != c
  {
    s[..TailRun(s, c, |s|)]
  }

  lemma TrimRightIdentity(s: Bytes, c: Byte)
    requires s == [] || s[|s| - 1] != c
    ensures TrimRight(s, c) == s
  {
  }

  lemma TrimLeftConcat(a: Bytes, b: Bytes, c: Byte)
    ensures TrimLeft(a + b, c) == if TrimLeft(a, c) == [] then TrimLeft(b, c) else TrimLeft(a, c) + b
  {
    var i, j, k := LeadRun(a, c, 0), LeadRun(b, c, 0), LeadRun(a + b, c, 0);
    if i < |a| {
      assert (a + b)[i] == a[i];
      assert k == i;
    } else {
      assert j < |b| ==> (a + b)[|a| + j] == b[j];
      assert k == |a| + j;
    }
  }

  lemma TrimRightConcat(a: Bytes, b: Bytes, c: Byte)
    ensures TrimRight(a + b, c) == if TrimRight(b, c) == [] then TrimRight(a, c) else a + TrimRight(b, c)
  {
    var i, j, k := TailRun(a, c, |a|), TailRun(b, c, |b|), TailRun(a + b, c, |a + b|);
    if j > 0 {
      assert (a + b)[|a| + j - 1] == b[j - 1];
      assert k == |a| + j;
    } else {
      assert i > 0 ==> (a + b)[i - 1] == a[i - 1];
      assert k == i;
    }
  }

  /** The position of the first `c`, or the length of `s` when there is none. */
  function Index(s: Bytes, c: Byte): (i: nat)
    ensures i <= |s|
    ensures i < |s| ==> s[i] == c
    ensures forall k :: 0 <= k < i ==> s[k] != c
  {
    if s == [] || s[0] == c then 0 else 1 + Index(s[1..], c)
  }

  /** `strings.SplitN(s, c, 2)`: the text before and after the first `c`, when there is one. */
  function Cut(s: Bytes, c: Byte): Option<(Bytes, Bytes)> {
    var i := Index(s, c);
    if i < |s| then Some((s[..i], s[i + 1..])) else None
  }

  function Split(s: Bytes, c: Byte): (parts: seq<Bytes>)
    ensures |parts| > 0
    ensures forall part <- parts :: c !in part
    decreases |s|
  {
    match Cut(s, c)
    case None => [s]
    case Some((head, rest)) => [head] + Split(rest, c)
  }

  function Join(parts: seq<Bytes>, separator: Bytes): Bytes {
    if parts == [] then [] else
    if |parts| == 1 then parts[0] else
      parts[0] + separator + Join(parts[1..], separator)
  }

  function Concat(parts: seq<Bytes>): Bytes {
    if parts == [] then [] else parts[0] + Concat(parts[1..])
  }

  lemma IndexAt(head: Bytes, c: Byte, rest: Bytes)
    requires c !in head
    ensures Index(head + [c] + rest, c) == |head|
    ensures Cut(head + [c] + rest, c) == Some((head, rest))
  {
    var s := head + [c] + rest;
    assert s[|head|] == c;
    assert s[..|head|] == head && s[|head| + 1..] == rest;
  }

  lemma IndexOfNone(s: Bytes, c: Byte)
    requires c !in s
    ensures Index(s, c) == |s| && Cut(s, c).None? && Split(s, c) == [s]
  {
    assert forall k :: 0 <= k < |s| ==> s[k] in s;
  }

  lemma SplitAt(head: Bytes, c: Byte, rest: Bytes)
    requires c !in head
    ensures Split(head + [c] + rest, c) == [head] + Split(rest, c)
  {
    hide Cut, Index;
    IndexAt(head, c, rest);
  }

  lemma {:induction false} SplitInvertsJoin(parts: seq<Bytes>, c: Byte)
    requires parts != [] && forall part <- parts :: c !in part
    ensures Split(Join(parts, [c]), c) == parts
  {
    hide Split;
    assert parts[0] in parts;
    if |parts| == 1 {
      IndexOfNone(parts[0], c);
    } else {
      assert forall part :: part in parts[1..] ==> part in parts;
      SplitInvertsJoin(parts[1..], c);
      SplitAt(parts[0], c, Join(parts[1..], [c]));
    }
  }

  // ---------------------------------------------------------------- white space

  predicate IsAsciiSpace(c: Byte) {
    c == ' ' || c == '\t' || c == '\n' || c == '\U{0B}' || c == '\U{0C}' || c == '\r'
  }

  /** U+0085 and U+00A0. */
  predicate IsSpacePair(a: Byte, b: Byte) {
    a as int == 0xC2 && (b as int == 0x85 || b as int == 0xA0)
  }

  /** U+1680, U+2000 to U+200A, U+2028, U+2029, U+202F, U+205F and U+3000. */
  predicate IsSpaceTriple(a: Byte, b: Byte, c: Byte) {
    var (x, y, z) := (a as int, b as int, c as int);
    || (x == 0xE1 && y == 0x9A && z == 0x80)
    || (x == 0xE2 && y == 0x80 && (0x80 <= z <= 0x8A || z == 0xA8 || z == 0xA9 || z == 0xAF))
    || (x == 0xE2 && y == 0x81 && z == 0x9F)
    || (x == 0xE3 && y == 0x80 && z == 0x80)
  }

  /** The width of the white-space rune `s` starts with, zero when it starts with none. */
  function LeadSpace(s: Bytes): (w: nat)
    ensures w <= |s|
  {
    if |s| >= 1 && IsAsciiSpace(s[0]) then 1
    else if |s| >= 2 && IsSpacePair(s[0], s[1]) then 2
    else if |s| >= 3 && IsSpaceTriple(s[0], s[1], s[2]) then 3
    else 0
  }

  /** The width of the white-space rune `s` ends with, zero when it ends with none. */
  function TailSpace(s: Bytes): (w: nat)
    ensures w <= |s|
  {
    var n := |s|;
    if n >= 1 && IsAsciiSpace(s[n - 1]) then 1
    else if n >= 2 && IsSpacePair(s[n - 2], s[n - 1]) then 2
    else if n >= 3 && IsSpaceTriple(s[n - 3], s[n - 2], s[n - 1]) then 3
    else 0
  }

  predicate Trimmed(s: Bytes) {
    LeadSpace(s) == 0 && TailSpace(s) == 0
  }

  function TrimSpaceLeft(s: Bytes): (r: Bytes)
    ensures LeadSpace(r) == 0
    ensures |r| <= |s| && r == s[|s| - |r|..]
    ensures LeadSpace(s) == 0 ==> r == s
  {
    if LeadSpace(s) == 0 then s else TrimSpaceLeft(s[LeadSpace(s)..])
  }

  function TrimSpaceRight(s: Bytes): (r: Bytes)
    ensures TailSpace(r) == 0 && r <= s
    ensures TailSpace(s) == 0 ==> r == s
  {
    if TailSpace(s) == 0 then s else TrimSpaceRight(s[..|s| - TailSpace(s)])
  }

  function TrimSpace(s: Bytes): (r: Bytes)
    ensures Trimmed(r)
    ensures Trimmed(s) ==> r == s
    ensures |r| <= |s|
  {
    TrimSpaceRight(TrimSpaceLeft(s))
  }

  /** A text whose two ends are plain ASCII and not white space keeps both ends under `TrimSpace`. */
  lemma AsciiEndsAreTrimmed(s: Bytes)
    requires s != []
    requires s[0] as int < 0x80 && !IsAsciiSpace(s[0])
    requires s[|s| - 1] as int < 0x80 && !IsAsciiSpace(s[|s| - 1])
    ensures Trimmed(s)
  {
  }

  /** Around an ASCII byte that is not white space, two texts stay trimmed when their outer ends are. */
  lemma TrimmedAround(a: Bytes, c: Byte, b: Bytes)
    requires LeadSpace(a) == 0 && TailSpace(b) == 0 && c as int < 0x80 && !IsAsciiSpace(c)
    ensures Trimmed(a + [c] + b)
  {
    var s := a + [c] + b;
    var n := |s|;
    assert forall i :: 0 <= i < |a| ==> s[i] == a[i];
    assert s[|a|] == c;
    assert forall i :: 0 <= i < |b| ==> s[|a| + 1 + i] == b[i];
    assert |b| >= 1 ==> s[n - 1] == b[|b| - 1];
    assert |b| >= 2 ==> s[n - 2] == b[|b| - 2];
    assert |b| >= 3 ==> s[n - 3] == b[|b| - 3];
  }

  /** A run of white space, rune by rune. */
  predicate AllSpace(s: Bytes) {
    s == [] || (LeadSpace(s) > 0 && AllSpace(s[LeadSpace(s)..]))
  }

  lemma LeadSpaceLocal(s: Bytes, t: Bytes)
    requires LeadSpace(s) > 0 && s[..LeadSpace(s)] <= t
    ensures LeadSpace(t) == LeadSpace(s)
  {
    var w := LeadSpace(s);
    assert forall i :: 0 <= i < w ==> t[i] == s[..w][i] == s[i];
  }

  lemma {:induction false} AllSpaceConcat(a: Bytes, b: Bytes)
    requires AllSpace(a) && AllSpace(b)
    ensures AllSpace(a + b)
    decreases |a|
  {
    hide LeadSpace;
    if a == [] {
      assert a + b == b;
    } else {
      var w := LeadSpace(a);
      assert (a + b)[..w] == a[..w];
      LeadSpaceLocal(a, a + b);
      assert (a + b)[w..] == a[w..] + b;
      AllSpaceConcat(a[w..], b);
    }
  }

  lemma OneSpace(s: Bytes)
    requires LeadSpace(s) == |s| > 0
    ensures AllSpace(s)
  {
    assert s[|s|..] == [];
  }

  lemma TailIsSpace(s: Bytes)
    requires TailSpace(s) > 0
    ensures AllSpace(s[|s| - TailSpace(s)..])
  {
    var w := TailSpace(s);
    var tail := s[|s| - w..];
    assert forall i :: 0 <= i < w ==> tail[i] == s[|s| - w + i];
    OneSpace(tail);
  }

  /** A text that ends in a run of white space ends in a rune of it. */
  lemma {:induction false} SpaceAtEnd(front: Bytes, space: Bytes)
    requires AllSpace(space) && space != []
    ensures TailSpace(front + space) > 0
    decreases |space|
  {
    var w := LeadSpace(space);
    if w == |space| {
      OneSpaceAtEnd(front, space);
    } else {
      SpaceAtEnd(front + space[..w], space[w..]);
      assert front + space[..w] + space[w..] == front + space;
    }
  }

  lemma OneSpaceAtEnd(front: Bytes, space: Bytes)
    requires LeadSpace(space) == |space| > 0
    ensures TailSpace(front + space) > 0
  {
    var s := front + space;
    assert forall i :: 0 <= i < |space| ==> s[|s| - |space| + i] == space[i];
  }

  lemma {:induction false} TrimSpaceLeftSplits(s: Bytes)
    ensures AllSpace(s[..|s| - |TrimSpaceLeft(s)|])
    decreases |s|
  {
    hide LeadSpace;
    var w := LeadSpace(s);
    if w == 0 {
      assert s[..|s| - |TrimSpaceLeft(s)|] == [];
    } else {
      TrimSpaceLeftSplits(s[w..]);
      var more := s[w..][..|s| - w - |TrimSpaceLeft(s)|];
      assert s[..|s| - |TrimSpaceLeft(s)|] == s[..w] + more;
      LeadSpaceLocal(s, s[..w]);
      OneSpace(s[..w]);
      AllSpaceConcat(s[..w], more);
    }
  }

  lemma {:induction false} TrimSpaceRightSplits(s: Bytes)
    ensures AllSpace(s[|TrimSpaceRight(s)|..])
    decreases |s|
  {
    hide TailSpace, AllSpace;
    var w := TailSpace(s);
    if w == 0 {
      assert s[|TrimSpaceRight(s)|..] == [];
      NoSpaceAtAll();
    } else {
      var front := s[..|s| - w];
      TrimSpaceRightSplits(front);
      var n := |TrimSpaceRight(s)|;
      assert s[n..] == front[n..] + s[|s| - w..];
      TailIsSpace(s);
      AllSpaceConcat(front[n..], s[|s| - w..]);
    }
  }

  lemma NoSpaceAtAll()
    ensures AllSpace([])
  {
  }

  /** Trimming takes white space off both ends, and nothing else. */
  lemma TrimSpaceSplits(s: Bytes) returns (front: Bytes, back: Bytes)
    ensures s == front + TrimSpace(s) + back && AllSpace(front) && AllSpace(back) && Trimmed(TrimSpace(s))
  {
    hide Trimmed, AllSpace, TrimSpaceLeft, TrimSpaceRight;
    var left := TrimSpaceLeft(s);
    var right := TrimSpaceRight(left);
    TrimSpaceLeftSplits(s);
    TrimSpaceRightSplits(left);
    front, back := s[..|s| - |left|], left[|right|..];
    assert left == right + back;
    assert s == front + left;
  }

  lemma TrimSpaceShortens(s: Bytes)
    requires !Trimmed(s)
    ensures |TrimSpace(s)| < |s|
  {
    hide Trimmed;
    var left := TrimSpaceLeft(s);
    var right := TrimSpaceRight(left);
    assert |left| == |s| ==> left == s;
    assert |right| == |left| ==> right == left;
  }

  lemma TrimSpaceKeepsOut(s: Bytes, c: Byte)
    requires c !in s
    ensures c !in TrimSpace(s)
  {
    hide LeadSpace, TailSpace, TrimSpaceLeft, TrimSpaceRight;
    var left := TrimSpaceLeft(s);
    assert forall k :: 0 <= k < |left| ==> left[k] == s[|s| - |left| + k];
    var right := TrimSpaceRight(left);
    assert forall k :: 0 <= k < |right| ==> right[k] == left[k];
  }

  lemma CutParts(s: Bytes, c: Byte)
    requires Cut(s, c).Some?
    ensures var (head, rest) := Cut(s, c).value; s == head + [c] + rest && c !in head
  {
    var i := Index(s, c);
    assert s == s[..i] + [c] + s[i + 1..];
  }

  lemma CutKeepsOut(s: Bytes, c: Byte, d: Byte)
    requires Cut(s, c).Some?
    ensures c !in Cut(s, c).value.0
    ensures d !in s ==> d !in Cut(s, c).value.0 && d !in Cut(s, c).value.1
  {
    var (i, head, rest) := (Index(s, c), Cut(s, c).value.0, Cut(s, c).value.1);
    assert forall k :: 0 <= k < |head| ==> head[k] == s[k];
    assert forall k :: 0 <= k < |rest| ==> rest[k] == s[i + 1 + k];
  }

  lemma TrimRightKeepsOut(s: Bytes, c: Byte, d: Byte)
    requires d !in s
    ensures d !in TrimRight(s, c)
  {
    var r := TrimRight(s, c);
    assert forall k :: 0 <= k < |r| ==> r[k] == s[k];
  }

  // ---------------------------------------------------------------- letter case

  function Upper(c: Byte): Byte {
    if 'a' <= c <= 'z' then (c as int - 32) as char else c
  }

  function Lower(c: Byte): Byte {
    if 'A' <= c <= 'Z' then (c as int + 32) as char else c
  }

  function ToUpper(s: Bytes): (r: Bytes)
    ensures |r| == |s| && forall i :: 0 <= i < |s| ==> r[i] == Upper(s[i])
  {
    seq(|s|, i requires 0 <= i < |s| => Upper(s[i]))
  }

  function ToLower(s: Bytes): (r: Bytes)
    ensures |r| == |s| && forall i :: 0 <= i < |s| ==> r[i] == Lower(s[i])
  {
    seq(|s|, i requires 0 <= i < |s| => Lower(s[i]))
  }
}
