/**
 * Where a rewritten path leads. The gateway compares and joins paths byte by byte; whoever resolves the result
 * removes its dot segments (RFC 3986, section 5.2.4), and then it may lie outside the target.
 */
module DotSegments {
  import opened GoStrings
  import opened Routing

  const DOT: Bytes := "."
  const UP: Bytes := ".."

  // ------------------------------------------------------------ removing dot segments

  predicate IsDot(segment: Bytes) {
    segment == DOT || segment == UP
  }

  function Pop(stack: seq<Bytes>): seq<Bytes> {
    if stack == [] then [] else stack[..|stack| - 1]
  }

  function Push(stack: seq<Bytes>, segment: Bytes): seq<Bytes> {
    if segment == DOT then stack else if segment == UP then Pop(stack) else stack + [segment]
  }

  /** The segments that are left of `segments`, behind those of `stack`. */
  function Walk(stack: seq<Bytes>, segments: seq<Bytes>): seq<Bytes>
    decreases |segments|
  {
    if segments == [] then stack else Walk(Push(stack, segments[0]), segments[1..])
  }

  /** A path that ends in a dot segment ends in a slash once it is removed. */
  function Ending(segments: seq<Bytes>): seq<Bytes> {
    if segments != [] && IsDot(segments[|segments| - 1]) then [[]] else []
  }

  function RemoveDots(segments: seq<Bytes>): seq<Bytes> {
    Walk([], segments) + Ending(segments)
  }

  predicate Rooted(path: Bytes) {
    path != [] && path[0] == SLASH_BYTE
  }

  function Segments(path: Bytes): seq<Bytes>
    requires Rooted(path)
  {
    Split(path[1..], SLASH_BYTE)
  }

  function PathOf(segments: seq<Bytes>): Bytes {
    if segments == [] then [] else SLASH + segments[0] + PathOf(segments[1..])
  }

  /** The path a rooted path resolves to. */
  function Resolve(path: Bytes): Bytes
    requires Rooted(path)
  {
    PathOf(RemoveDots(Segments(path)))
  }

  /** `path` is `base`, or continues it on a segment boundary. */
  predicate Below(base: Bytes, path: Bytes) {
    path == base || base + SLASH <= path
  }

  // ------------------------------------------------------------ how far a remainder climbs

  /** What a list of segments amounts to wherever it starts: first so many steps up, then these segments. */
  datatype Climb = Climb(up: nat, down: seq<Bytes>)

  function Net(segments: seq<Bytes>): Climb {
    if segments == [] then Climb(0, []) else
      Step(Net(segments[..|segments| - 1]), segments[|segments| - 1])
  }

  function Count(segments: seq<Bytes>, up: bool): nat {
    if segments == [] then 0 else
      var last := segments[|segments| - 1];
      Count(segments[..|segments| - 1], up) + if (if up then last == UP else !IsDot(last)) then 1 else 0
  }

  /** No front of the list has more steps up than ordinary segments. */
  ghost predicate NeverClimbs(segments: seq<Bytes>) {
    forall n :: 0 <= n <= |segments| ==> Count(segments[..n], true) <= Count(segments[..n], false)
  }

  lemma {:induction false} NetCounts(segments: seq<Bytes>)
    ensures Count(segments, false) + Net(segments).up == Count(segments, true) + |Net(segments).down|
  {
    if segments != [] {
      NetCounts(segments[..|segments| - 1]);
    }
  }

  lemma {:induction false} NetIsDownIffNeverClimbs(segments: seq<Bytes>)
    ensures Net(segments).up == 0 <==> NeverClimbs(segments)
  {
    NetCounts(segments);
    if segments != [] {
      var front := segments[..|segments| - 1];
      NetIsDownIffNeverClimbs(front);
      assert forall n :: 0 <= n <= |front| ==> front[..n] == segments[..n];
      NetCounts(front);
      assert segments[..|segments|] == segments;
    }
  }

  function Up(stack: seq<Bytes>, n: nat): seq<Bytes> {
    if n <= |stack| then stack[..|stack| - n] else []
  }

  lemma WalkLast(stack: seq<Bytes>, front: seq<Bytes>, last: Bytes)
    ensures Walk(stack, front + [last]) == Push(Walk(stack, front), last)
  {
    WalkConcat(stack, front, [last]);
    assert Walk(Walk(stack, front), [last]) == Push(Walk(stack, front), last);
  }

  lemma {:induction false} WalkConcat(stack: seq<Bytes>, a: seq<Bytes>, b: seq<Bytes>)
    ensures Walk(stack, a + b) == Walk(Walk(stack, a), b)
    decreases |a|
  {
    if a == [] {
      assert a + b == b;
    } else {
      assert (a + b)[0] == a[0] && (a + b)[1..] == a[1..] + b;
      WalkConcat(Push(stack, a[0]), a[1..], b);
    }
  }

  function Step(net: Climb, segment: Bytes): Climb {
    if segment == UP && net.down == [] then Climb(net.up + 1, []) else Climb(net.up, Push(net.down, segment))
  }

  lemma PushIsStep(stack: seq<Bytes>, net: Climb, segment: Bytes)
    ensures var next := Step(net, segment);
            Push(Up(stack, net.up) + net.down, segment) == Up(stack, next.up) + next.down
  {
    var up := Up(stack, net.up);
    if segment == UP {
      if net.down == [] {
        assert up + [] == up && Pop(up) == Up(stack, net.up + 1);
      } else {
        assert Pop(up + net.down) == up + Pop(net.down);
      }
    } else if segment != DOT {
      assert up + net.down + [segment] == up + (net.down + [segment]);
    }
  }

  /** Walking a list from any stack takes its net steps up, then appends its net segments. */
  lemma {:induction false} WalkIsNet(stack: seq<Bytes>, segments: seq<Bytes>)
    ensures Walk(stack, segments) == Up(stack, Net(segments).up) + Net(segments).down
  {
    hide Step, Push, Up;
    if segments == [] {
      UpNone(stack);
    } else {
      var front, last := segments[..|segments| - 1], segments[|segments| - 1];
      WalkIsNet(stack, front);
      assert segments == front + [last];
      WalkLast(stack, front, last);
      PushIsStep(stack, Net(front), last);
    }
  }

  lemma UpNone(stack: seq<Bytes>)
    ensures Up(stack, 0) + [] == stack
  {
  }

  // ------------------------------------------------------------ paths and segments

  predicate NoSlash(segments: seq<Bytes>) {
    forall s <- segments :: SLASH_BYTE !in s
  }

  /** A path lies below another exactly when its segments continue the other's. */
  lemma {:induction false} BelowIsPrefix(base: seq<Bytes>, segments: seq<Bytes>)
    requires NoSlash(base) && NoSlash(segments)
    ensures Below(PathOf(base), PathOf(segments)) <==> base <= segments
    decreases |base|
  {
    if base == [] {
      assert PathOf(base) == [];
      if segments != [] {
        assert PathOf(segments)[..1] == SLASH;
      }
    } else if segments != [] {
      HeadOfPath(base);
      HeadOfPath(segments);
      BelowIsPrefix(base[1..], segments[1..]);
      var (b, s) := (PathOf(base[1..]), PathOf(segments[1..]));
      if base[0] == segments[0] {
        var head := SLASH + base[0];
        assert PathOf(base) == head + b && PathOf(segments) == head + s;
        CommonFront(head, b, s);
        assert base <= segments <==> base[1..] <= segments[1..];
      } else {
        FrontsDiffer(base[0], segments[0], b, s);
      }
    }
  }

  lemma HeadOfPath(segments: seq<Bytes>)
    requires segments != []
    ensures PathOf(segments) == SLASH + segments[0] + PathOf(segments[1..])
    ensures PathOf(segments[1..]) == [] || PathOf(segments[1..])[0] == SLASH_BYTE
  {
  }

  lemma CommonFront(head: Bytes, b: Bytes, s: Bytes)
    ensures Below(head + b, head + s) <==> Below(b, s)
  {
    assert (head + b) + SLASH == head + (b + SLASH);
    assert head + s == head + b <==> s == b by {
      assert (head + s)[|head|..] == s && (head + b)[|head|..] == b;
    }
    assert head + (b + SLASH) <= head + s <==> b + SLASH <= s by {
      if b + SLASH <= s {
        assert s == (b + SLASH) + s[|b| + 1..];
      }
      if head + (b + SLASH) <= head + s {
        assert (head + s)[|head|..][..|b| + 1] == (head + s)[|head|..|head| + |b| + 1] == b + SLASH;
      }
    }
  }

  lemma FrontsDiffer(x: Bytes, y: Bytes, b: Bytes, s: Bytes)
    requires SLASH_BYTE !in x && SLASH_BYTE !in y
    requires (b == [] || b[0] == SLASH_BYTE) && (s == [] || s[0] == SLASH_BYTE)
    ensures Below(SLASH + x + b, SLASH + y + s) ==> x == y
  {
    var (p, q) := (SLASH + x + b + SLASH, SLASH + y + s + SLASH);
    assert forall i :: 1 <= i <= |x| ==> p[i] == x[i - 1] && p[i] != SLASH_BYTE;
    assert forall i :: 1 <= i <= |y| ==> q[i] == y[i - 1] && q[i] != SLASH_BYTE;
    assert p[|x| + 1] == SLASH_BYTE && q[|y| + 1] == SLASH_BYTE;
    if Below(SLASH + x + b, SLASH + y + s) {
      assert p <= q;
      assert |x| == |y| && forall i :: 1 <= i <= |x| ==> p[i] == q[i];
      assert forall i :: 0 <= i < |x| ==> x[i] == p[i + 1] && y[i] == q[i + 1];
    }
  }

  // ------------------------------------------------------------ the algorithm of section 5.2.4

  /** Removes the last segment and its preceding slash, if any. */
  function RemoveLast(output: Bytes): Bytes {
    if output == [] then [] else
      var front := output[..|output| - 1];
      if output[|output| - 1] == SLASH_BYTE then front else RemoveLast(front)
  }

  /** The end of the first path segment, which may start with a slash. */
  function FirstEnd(input: Bytes): (n: nat)
    requires input != []
    ensures 0 < n <= |input|
  {
    1 + Index(input[1..], SLASH_BYTE)
  }

  /** The algorithm as it is written down, with its input buffer and its output buffer. */
  function RemoveDotSegments(input: Bytes, output: Bytes): Bytes
    decreases |input|
  {
    if input == [] then output
    else if UP + SLASH <= input then RemoveDotSegments(input[3..], output)
    else if DOT + SLASH <= input then RemoveDotSegments(input[2..], output)
    else if SLASH + DOT + SLASH <= input then RemoveDotSegments(input[2..], output)
    else if input == SLASH + DOT then RemoveDotSegments(SLASH, output)
    else if SLASH + UP + SLASH <= input then RemoveDotSegments(input[3..], RemoveLast(output))
    else if input == SLASH + UP then RemoveDotSegments(SLASH, RemoveLast(output))
    else if IsDot(input) then output
    else RemoveDotSegments(input[FirstEnd(input)..], output + input[..FirstEnd(input)])
  }

  lemma {:induction false} PathOfLast(stack: seq<Bytes>, segment: Bytes)
    ensures PathOf(stack + [segment]) == PathOf(stack) + SLASH + segment
  {
    if stack == [] {
      assert PathOf([segment]) == SLASH + segment + PathOf([]);
    } else {
      assert (stack + [segment])[1..] == stack[1..] + [segment];
      PathOfLast(stack[1..], segment);
    }
  }

  lemma {:induction false} RemoveLastOf(output: Bytes, segment: Bytes)
    requires SLASH_BYTE !in segment
    ensures RemoveLast(output + SLASH + segment) == output
    decreases |segment|
  {
    var all := output + SLASH + segment;
    if segment == [] {
      assert all[..|all| - 1] == output;
    } else {
      var last := segment[|segment| - 1];
      assert last in segment && all[|all| - 1] == last;
      assert all[..|all| - 1] == output + SLASH + segment[..|segment| - 1];
      RemoveLastOf(output, segment[..|segment| - 1]);
    }
  }

  lemma RemoveLastPops(stack: seq<Bytes>)
    requires NoSlash(stack)
    ensures RemoveLast(PathOf(stack)) == PathOf(Pop(stack))
  {
    if stack != [] {
      var front, last := Pop(stack), stack[|stack| - 1];
      assert stack == front + [last] && last in stack;
      PathOfLast(front, last);
      RemoveLastOf(PathOf(front), last);
    }
  }

  /** What the algorithm does with one segment, and what follows it in the input. */
  lemma OneSegment(segment: Bytes, behind: Bytes, output: Bytes)
    requires SLASH_BYTE !in segment && (behind == [] || behind[0] == SLASH_BYTE)
    ensures var input := SLASH + segment + behind;
            var next := if IsDot(segment) && behind == [] then SLASH else behind;
            RemoveDotSegments(input, output)
            == if segment == DOT then RemoveDotSegments(next, output)
               else if segment == UP then RemoveDotSegments(next, RemoveLast(output))
               else RemoveDotSegments(behind, output + SLASH + segment)
  {
    hide RemoveDotSegments, RemoveLast;
    if segment == DOT {
      StayingSegment(behind, output);
    } else if segment == UP {
      ClimbingSegment(behind, output);
    } else {
      OrdinarySegment(segment, behind, output);
    }
  }

  lemma StayingSegment(behind: Bytes, output: Bytes)
    requires behind == [] || behind[0] == SLASH_BYTE
    ensures RemoveDotSegments(SLASH + DOT + behind, output) ==
        RemoveDotSegments(if behind == [] then SLASH else behind, output)
  {
    var input := SLASH + DOT + behind;
    assert input[0] == SLASH_BYTE && input[1] == '.' && input[2..] == behind;
    assert behind != [] ==> input[..3] == SLASH + DOT + SLASH;
    assert behind == [] ==> input == SLASH + DOT && |input| == 2;
  }

  lemma ClimbingSegment(behind: Bytes, output: Bytes)
    requires behind == [] || behind[0] == SLASH_BYTE
    ensures RemoveDotSegments(SLASH + UP + behind, output)
            == RemoveDotSegments(if behind == [] then SLASH else behind, RemoveLast(output))
  {
    hide RemoveLast;
    var input := SLASH + UP + behind;
    assert input[0] == SLASH_BYTE && input[1] == '.' && input[2] == '.' && input[3..] == behind;
    assert behind != [] ==> input[..4] == SLASH + UP + SLASH;
    assert behind == [] ==> input == SLASH + UP && |input| == 3;
  }

  lemma OrdinarySegment(segment: Bytes, behind: Bytes, output: Bytes)
    requires SLASH_BYTE !in segment && (behind == [] || behind[0] == SLASH_BYTE) && !IsDot(segment)
    ensures RemoveDotSegments(SLASH + segment + behind, output) == RemoveDotSegments(behind, output + SLASH + segment)
  {
    hide RemoveDotSegments, FirstEnd, IsDot;
    var input := SLASH + segment + behind;
    NotADot(segment, behind);
    FirstEndOf(segment, behind);
    MoveFirst(input, output);
    assert input[..|segment| + 1] == SLASH + segment && input[|segment| + 1..] == behind;
    assert output + (SLASH + segment) == output + SLASH + segment;
  }

  lemma MoveFirst(input: Bytes, output: Bytes)
    requires input != [] && !(UP + SLASH <= input) && !(DOT + SLASH <= input) && !IsDot(input)
    requires !(SLASH + DOT + SLASH <= input) && input != SLASH + DOT
    requires !(SLASH + UP + SLASH <= input) && input != SLASH + UP
    ensures RemoveDotSegments(input, output) ==
        RemoveDotSegments(input[FirstEnd(input)..], output + input[..FirstEnd(input)])
  {
    hide RemoveLast, FirstEnd;
  }

  lemma NotADot(segment: Bytes, behind: Bytes)
    requires SLASH_BYTE !in segment && (behind == [] || behind[0] == SLASH_BYTE) && !IsDot(segment)
    ensures var input := SLASH + segment + behind;
            && input != [] && !(UP + SLASH <= input) && !(DOT + SLASH <= input) && !IsDot(input)
            && !(SLASH + DOT + SLASH <= input) && input != SLASH + DOT
            && !(SLASH + UP + SLASH <= input) && input != SLASH + UP
  {
    FrontsDiffer(DOT, segment, [], behind);
    FrontsDiffer(UP, segment, [], behind);
    assert SLASH + DOT + [] == SLASH + DOT && SLASH + UP + [] == SLASH + UP;
    assert (SLASH + segment + behind)[0] == SLASH_BYTE && (UP + SLASH)[0] == (DOT + SLASH)[0] == '.';
  }

  lemma FirstEndOf(segment: Bytes, behind: Bytes)
    requires SLASH_BYTE !in segment && (behind == [] || behind[0] == SLASH_BYTE)
    ensures FirstEnd(SLASH + segment + behind) == |segment| + 1
  {
    var input := SLASH + segment + behind;
    assert input[1..] == segment + behind;
    if behind == [] {
      assert segment + behind == segment;
      IndexOfNone(segment, SLASH_BYTE);
    } else {
      assert segment + behind == segment + SLASH + behind[1..];
      IndexAt(segment, SLASH_BYTE, behind[1..]);
    }
  }

  lemma SlashAtEnd(output: Bytes)
    ensures RemoveDotSegments(SLASH, output) == output + SLASH
  {
    OneSegment([], [], output);
    assert SLASH + [] + [] == SLASH;
    assert RemoveDotSegments([], output + SLASH + []) == output + SLASH;
  }

  /** The algorithm over buffers is the walk over segments. */
  lemma {:induction false} BuffersWalk(segments: seq<Bytes>, stack: seq<Bytes>)
    requires segments != [] && NoSlash(segments) && NoSlash(stack)
    ensures RemoveDotSegments(PathOf(segments), PathOf(stack)) == PathOf(Walk(stack, segments) + Ending(segments))
    decreases |segments|
  {
    hide RemoveDotSegments, RemoveLast;
    var first, rest := segments[0], segments[1..];
    HeadOfPath(segments);
    OneSegment(first, PathOf(rest), PathOf(stack));
    RemoveLastPops(stack);
    PathOfLast(stack, first);
    var next := Push(stack, first);
    assert NoSlash(next);
    if rest == [] {
      assert Walk(stack, segments) == Walk(next, []) == next;
      assert segments == [first] && SLASH + first + [] == SLASH + first;
      LastSegment(first, stack);
    } else {
      HeadOfPath(rest);
      BuffersWalk(rest, next);
      assert Ending(rest) == Ending(segments);
    }
  }

  lemma LastSegment(segment: Bytes, stack: seq<Bytes>)
    requires SLASH_BYTE !in segment && NoSlash(stack)
    ensures RemoveDotSegments(SLASH + segment, PathOf(stack)) == PathOf(Push(stack, segment) + Ending([segment]))
  {
    hide RemoveLast, PathOf;
    assert SLASH + segment + [] == SLASH + segment;
    OneSegment(segment, [], PathOf(stack));
    RemoveLastPops(stack);
    PathOfLast(stack, segment);
    var next := Push(stack, segment);
    assert next + [] == next;
    if IsDot(segment) {
      SlashAtEnd(PathOf(next));
      PathOfLast(next, []);
      assert PathOf(next) + SLASH + [] == PathOf(next) + SLASH;
    }
  }

  lemma {:induction false} PathOfSplit(s: Bytes)
    ensures PathOf(Split(s, SLASH_BYTE)) == SLASH + s
    decreases |s|
  {
    hide Split, Index, Cut;
    var i := Index(s, SLASH_BYTE);
    if i < |s| {
      var (head, rest) := (s[..i], s[i + 1..]);
      assert s == head + SLASH + rest;
      SplitAt(head, SLASH_BYTE, rest);
      PathOfSplit(rest);
      var parts := [head] + Split(rest, SLASH_BYTE);
      assert parts[1..] == Split(rest, SLASH_BYTE);
    } else {
      assert s[..i] == s;
      IndexOfNone(s, SLASH_BYTE);
      assert PathOf([s]) == SLASH + s + PathOf([]);
    }
  }

  /** `Resolve` is the algorithm of section 5.2.4. */
  lemma ResolveIsRemoval(path: Bytes)
    requires Rooted(path)
    ensures Resolve(path) == RemoveDotSegments(path, [])
  {
    hide RemoveDotSegments, Split;
    PathOfSplit(path[1..]);
    assert path == SLASH + path[1..];
    BuffersWalk(Segments(path), []);
  }

  // ------------------------------------------------------------ rewritten paths

  lemma {:induction false} SplitConcat(a: Bytes, c: Byte, b: Bytes)
    ensures Split(a + [c] + b, c) == Split(a, c) + Split(b, c)
    decreases |a|
  {
    hide Split, Index, Cut;
    var i := Index(a, c);
    if i < |a| {
      var (head, rest) := (a[..i], a[i + 1..]);
      assert a == head + [c] + rest;
      assert a + [c] + b == head + [c] + (rest + [c] + b);
      SplitAt(head, c, rest);
      SplitAt(head, c, rest + [c] + b);
      SplitConcat(rest, c, b);
    } else {
      assert a[..i] == a;
      SplitAt(a, c, b);
      IndexOfNone(a, c);
    }
  }

  lemma WalkKeepsNoSlash(stack: seq<Bytes>, segments: seq<Bytes>)
    requires NoSlash(stack) && NoSlash(segments)
    ensures NoSlash(Walk(stack, segments))
    decreases |segments|
  {
    if segments != [] {
      WalkKeepsNoSlash(Push(stack, segments[0]), segments[1..]);
    }
  }

  /** What a remainder leaves behind its steps up, with the slash it ends in if it ends in a dot segment. */
  function Landing(segments: seq<Bytes>): seq<Bytes> {
    Net(segments).down + Ending(segments)
  }

  /** The segments the target's own path resolves to. */
  function Base(target: Bytes): seq<Bytes> {
    var base := TrimRight(target, SLASH_BYTE);
    if Rooted(base) then Walk([], Segments(base)) else []
  }

  /**
   * A path glued to a target resolves below the target's own path exactly when the remainder does not climb above it,
   * or comes back by naming the segments it has left.
   */
  lemma GluedStaysBelow(target: Bytes, rest: Bytes)
    requires target == [] || Rooted(target)
    requires rest != []
    ensures var path, base, net := Glue(TrimRight(target, SLASH_BYTE), rest), Base(target),
        Net(Split(rest, SLASH_BYTE));
            && Rooted(path)
            && (Below(PathOf(base), Resolve(path))
                <==> base[|Up(base, net.up)|..] <= Landing(Split(rest, SLASH_BYTE)))
  {
    hide Below, PathOf, Segments, Split, TrimRight, Glue, Net;
    var own, segments := TrimRight(target, SLASH_BYTE), Split(rest, SLASH_BYTE);
    TrimmedStaysRooted(target);
    GluedSegments(own, rest);
    var front := if own == [] then [] else Segments(own);
    FrontOfTarget(target);
    GluedResolves(front, segments);
    var up := Up(Base(target), Net(segments).up);
    BelowIsPrefix(Base(target), up + Landing(segments));
    PrefixBehind(Base(target), up, Landing(segments));
  }

  lemma TrimmedStaysRooted(target: Bytes)
    requires target == [] || Rooted(target)
    ensures var own := TrimRight(target, SLASH_BYTE); own == [] || Rooted(own)
  {
  }

  lemma FrontOfTarget(target: Bytes)
    requires target == [] || Rooted(target)
    ensures var own := TrimRight(target, SLASH_BYTE);
            var front := if own == [] then [] else if Rooted(own) then Segments(own) else [];
            NoSlash(front) && Base(target) == Walk([], front)
  {
    hide Split, TrimRight;
  }

  /** The segments of a glued path, resolved. */
  lemma GluedResolves(front: seq<Bytes>, segments: seq<Bytes>)
    requires NoSlash(front) && NoSlash(segments) && segments != []
    ensures var base := Walk([], front);
            RemoveDots(front + segments) == Up(base, Net(segments).up) + Landing(segments)
    ensures NoSlash(Walk([], front)) && NoSlash(RemoveDots(front + segments))
  {
    hide Walk, Net, Up;
    var base := Walk([], front);
    WalkConcat([], front, segments);
    WalkIsNet(base, segments);
    WalkKeepsNoSlash([], front);
    WalkKeepsNoSlash(base, segments);
  }

  lemma PrefixBehind<T>(base: seq<T>, up: seq<T>, more: seq<T>)
    requires up <= base
    ensures base <= up + more <==> base[|up|..] <= more
  {
    assert base == up + base[|up|..];
    if base[|up|..] <= more {
      assert up + more == base + more[|base| - |up|..];
    }
    if base <= up + more {
      assert (up + more)[|up|..|base|] == base[|up|..] && (up + more)[|up|..|base|] == more[..|base| - |up|];
    }
  }

  lemma GluedSegments(own: Bytes, rest: Bytes)
    requires own == [] || Rooted(own)
    requires rest != []
    ensures var path := Glue(own, rest);
            Rooted(path) && Segments(path) == (if own == [] then [] else Segments(own)) + Split(rest, SLASH_BYTE)
  {
    var path := Glue(own, rest);
    if own == [] {
      assert path == SLASH + rest && path[1..] == rest;
    } else {
      assert path[1..] == own[1..] + SLASH + rest;
      SplitConcat(own[1..], SLASH_BYTE, rest);
    }
  }

  lemma NothingLeftToJoin(target: Bytes)
    requires target == [] || Rooted(target)
    ensures var path := Glue(TrimRight(target, SLASH_BYTE), []);
            Rooted(path) && Below(PathOf(Base(target)), Resolve(path))
  {
    hide Below, PathOf, Split, TrimRight, Walk;
    var own := TrimRight(target, SLASH_BYTE);
    TrimmedStaysRooted(target);
    FrontOfTarget(target);
    var path := Glue(own, []);
    WalkKeepsNoSlash([], Segments(path));
    BelowIsPrefix(Base(target), RemoveDots(Segments(path)));
    if own == [] {
      assert path == SLASH;
    }
  }

  /**
   * Where a matched path leads once its dot segments are removed: to the target's own path or below it exactly when
   * what is behind the route's prefix does not climb above the target, or names again each segment of it that it has
   * left.
   */
  lemma RewriteLandsBelow(route: Route, path: Bytes, query: Bytes)
    requires Matches(route, path) && (route.target.path == [] || Rooted(route.target.path))
    ensures var sent, base := BuildTargetUrl(route, path, query).path, Base(route.target.path);
            var segments := Split(Remainder(route, path), SLASH_BYTE);
            && Rooted(sent)
            && (Below(PathOf(base), Resolve(sent)) <==> base[|Up(base, Net(segments).up)|..] <= Landing(segments))
  {
    hide Below, PathOf, Resolve, Split, TrimRight, Base, Matches, Remainder, Glue;
    RewriteStaysOnPath(route, path, query);
    var rest := Remainder(route, path);
    if rest == [] {
      NothingLeftToJoin(route.target.path);
      NoSegment();
    } else {
      GluedStaysBelow(route.target.path, rest);
    }
  }

  lemma NoSegment()
    ensures Split([], SLASH_BYTE) == [[]] && Net([[]]) == Climb(0, [[]])
  {
    assert Net([[]][..0]) == Climb(0, []);
  }

  /** A remainder that stays below whatever target it is joined to. */
  ghost predicate StaysBelow(rest: Bytes) {
    forall target :: target == [] || Rooted(target) ==>
      var path := Glue(TrimRight(target, SLASH_BYTE), rest); Rooted(path) && Below(PathOf(Base(target)), Resolve(path))
  }

  /** A target none of whose segments is named where `rest` lands. */
  lemma TargetLeft(rest: Bytes) returns (target: Bytes)
    requires rest != [] && Net(Split(rest, SLASH_BYTE)).up > 0
    ensures Rooted(target)
    ensures var path := Glue(TrimRight(target, SLASH_BYTE), rest);
            Rooted(path) && !Below(PathOf(Base(target)), Resolve(path))
  {
    hide Below, PathOf, Resolve, Net, Split, Glue;
    var segments := Split(rest, SLASH_BYTE);
    var landing := Landing(segments);
    var n := if landing == [] then 3 else |landing[0]| + 3;
    var name: Bytes := seq(n, _ => 'x');
    target := SLASH + name;
    TargetOf(name);
    GluedStaysBelow(target, rest);
    assert Up([name], Net(segments).up) == [];
    assert [name][0..] == [name];
  }

  lemma TargetOf(name: Bytes)
    requires |name| >= 3 && forall i :: 0 <= i < |name| ==> name[i] == 'x'
    ensures Rooted(SLASH + name) && Base(SLASH + name) == [name]
  {
    var target := SLASH + name;
    TrimRightIdentity(target, SLASH_BYTE);
    assert target[1..] == name;
    IndexOfNone(name, SLASH_BYTE);
    assert Walk([], [name]) == Walk([name], []);
  }

  /** For every target at once: exactly when no front of the remainder has more steps up than ordinary segments. */
  lemma StaysBelowIffNeverClimbs(rest: Bytes)
    ensures StaysBelow(rest) <==> NeverClimbs(Split(rest, SLASH_BYTE))
  {
    hide Below, PathOf, Resolve, Net, Split, TrimRight, Base, Glue, NeverClimbs;
    var segments := Split(rest, SLASH_BYTE);
    NetIsDownIffNeverClimbs(segments);
    if rest == [] {
      NoSegment();
      forall target | target == [] || Rooted(target)
        ensures var path := Glue(TrimRight(target, SLASH_BYTE), rest);
                Rooted(path) && Below(PathOf(Base(target)), Resolve(path))
      {
        NothingLeftToJoin(target);
      }
    } else if Net(segments).up == 0 {
      forall target | target == [] || Rooted(target)
        ensures var path := Glue(TrimRight(target, SLASH_BYTE), rest);
                Rooted(path) && Below(PathOf(Base(target)), Resolve(path))
      {
        GluedStaysBelow(target, rest);
      }
    } else {
      var target := TargetLeft(rest);
    }
  }

  predicate IsName(segment: Bytes) {
    segment != [] && !IsDot(segment) && SLASH_BYTE !in segment
  }

  /**
   * A path that one step up takes out of its target: under a prefix `/api` for a target `/v1`, `/api/../internal` is
   * matched, is sent as `/v1/../internal`, and leads to `/internal`.
   */
  lemma ClimbingPathLeaves(route: Route, name: Bytes, other: Bytes, query: Bytes)
    requires route.target.path == SLASH + name && IsName(name) && IsName(other) && name != other
    ensures var path := route.prefix + (SLASH + (UP + SLASH + other));
            var sent := BuildTargetUrl(route, path, query).path;
            && Matches(route, path)
            && sent == SLASH + name + SLASH + (UP + SLASH + other)
            && Resolve(sent) == SLASH + other && !Below(route.target.path, Resolve(sent))
  {
    hide Resolve, BuildTargetUrl;
    var rest := UP + SLASH + other;
    var path := route.prefix + (SLASH + rest);
    assert path == (route.prefix + SLASH) + rest;
    assert path[|route.prefix|..] == SLASH + rest;
    TrimSlashAhead(rest);
    TrimRightIdentity(SLASH + name, SLASH_BYTE);
    RewriteStaysOnPath(route, path, query);
    ClimbingPathResolves(name, other);
    assert PathOf([name]) == SLASH + name + PathOf([]) && PathOf([other]) == SLASH + other + PathOf([]);
    BelowIsPrefix([name], [other]);
  }

  lemma ClimbingPathResolves(name: Bytes, other: Bytes)
    requires IsName(name) && IsName(other)
    ensures Resolve(SLASH + name + SLASH + (UP + SLASH + other)) == SLASH + other
  {
    hide Split, Walk, PathOf;
    var sent := SLASH + name + SLASH + (UP + SLASH + other);
    SplitAt(name, SLASH_BYTE, UP + SLASH + other);
    SplitAt(UP, SLASH_BYTE, other);
    IndexOfNone(other, SLASH_BYTE);
    assert sent[1..] == name + SLASH + (UP + SLASH + other);
    assert Segments(sent) == [name, UP, other];
    UpAndDown(name, other);
    assert [other] + [] == [other];
  }

  lemma UpAndDown(first: Bytes, last: Bytes)
    requires !IsDot(first) && !IsDot(last)
    ensures Walk([], [first, UP, last]) == [last] && PathOf([last]) == SLASH + last
  {
    assert [first, UP, last][1..] == [UP, last];
    assert Walk([], [first, UP, last]) == Walk([first], [UP, last]) == Walk([], [last]) == Walk([last], []);
    assert PathOf([last]) == SLASH + last + PathOf([]);
  }
}
