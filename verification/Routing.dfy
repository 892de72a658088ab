/** The route table: its order, the route a path belongs to, and the path the upstream service sees. */
module Routing {
  import opened Wrappers
  import opened GoStrings

  const SLASH_BYTE: Byte := '/'
  const SLASH: Bytes := [SLASH_BYTE]

  /** An upstream target; only its path and query are ever rewritten. */
  datatype Url = Url(scheme: Bytes, host: Bytes, path: Bytes, query: Bytes)

  datatype Route = Route(name: Bytes, prefix: Bytes, target: Url)

  // ------------------------------------------------------------ matching

  predicate Matches(route: Route, path: Bytes) {
    path == route.prefix || route.prefix + "/" <= path
  }

  function MatchRoute(routes: seq<Route>, path: Bytes): Option<Route> {
    if routes == [] then None
    else if Matches(routes[0], path) then Some(routes[0])
    else MatchRoute(routes[1..], path)
  }

  lemma MatchesOnSegmentBoundary(route: Route, path: Bytes)
    ensures Matches(route, path)
            <==> route.prefix <= path && (|path| == |route.prefix| || path[|route.prefix|] == '/')
  {
    if route.prefix <= path && |route.prefix| < |path| {
      assert path[..|route.prefix| + 1] == route.prefix + [path[|route.prefix|]];
    }
  }

  /** A route declared for `/` is no catch-all: it takes the root itself and paths that start with two slashes. */
  lemma RootRouteIsNoCatchAll(route: Route, path: Bytes)
    requires route.prefix == "/"
    ensures Matches(route, path) <==> path == "/" || "//" <= path
  {
    assert ['/'] + "/" == "//";
  }

  // ------------------------------------------------------------ ordering

  function OfLength(routes: seq<Route>, n: nat): seq<Route> {
    if routes == [] then []
    else (if |routes[0].prefix| == n then [routes[0]] else []) + OfLength(routes[1..], n)
  }

  predicate LongestFirst(routes: seq<Route>) {
    forall i, j :: 0 <= i < j < |routes| ==> |routes[i].prefix| >= |routes[j].prefix|
  }

  /**
   * What `sort.SliceStable` promises: longest prefix first, and routes of one length in the order they were declared.
   */
  ghost predicate StableSortOf(sorted: seq<Route>, declared: seq<Route>) {
    LongestFirst(sorted) && forall n: nat :: OfLength(sorted, n) == OfLength(declared, n)
  }

  /** `route` placed behind every route whose prefix is at least as long. */
  function Insert(routes: seq<Route>, route: Route): (r: seq<Route>)
    ensures |r| == |routes| + 1
  {
    if routes == [] || |routes[|routes| - 1].prefix| >= |route.prefix| then routes + [route]
    else Insert(routes[..|routes| - 1], route) + [routes[|routes| - 1]]
  }

  function Sorted(declared: seq<Route>): (r: seq<Route>)
    ensures |r| == |declared|
  {
    if declared == [] then []
    else Insert(Sorted(declared[..|declared| - 1]), declared[|declared| - 1])
  }

  lemma {:induction false} OfLengthConcat(a: seq<Route>, b: seq<Route>, n: nat)
    ensures OfLength(a + b, n) == OfLength(a, n) + OfLength(b, n)
  {
    if a == [] {
      assert a + b == b;
    } else {
      assert (a + b)[0] == a[0] && (a + b)[1..] == a[1..] + b;
      var first := if |a[0].prefix| == n then [a[0]] else [];
      OfLengthConcat(a[1..], b, n);
      assert first + (OfLength(a[1..], n) + OfLength(b, n)) == first + OfLength(a[1..], n) + OfLength(b, n);
    }
  }

  lemma {:induction false} InsertKeepsLongestFirst(routes: seq<Route>, route: Route)
    requires LongestFirst(routes)
    ensures LongestFirst(Insert(routes, route))
    ensures forall x <- Insert(routes, route) :: x == route || x in routes
  {
    if routes != [] && |routes[|routes| - 1].prefix| < |route.prefix| {
      var front, last := routes[..|routes| - 1], routes[|routes| - 1];
      InsertKeepsLongestFirst(front, route);
      var inserted := Insert(front, route);
      forall i | 0 <= i < |inserted| ensures |inserted[i].prefix| >= |last.prefix| {
        assert inserted[i] in inserted;
      }
    }
  }

  lemma {:induction false} InsertIsStable(routes: seq<Route>, route: Route, n: nat)
    requires LongestFirst(routes)
    ensures OfLength(Insert(routes, route), n) == OfLength(routes, n) + OfLength([route], n)
  {
    if routes == [] || |routes[|routes| - 1].prefix| >= |route.prefix| {
      OfLengthConcat(routes, [route], n);
    } else {
      var front, last := routes[..|routes| - 1], routes[|routes| - 1];
      assert routes == front + [last];
      OfLengthConcat(front, [last], n);
      InsertIsStable(front, route, n);
      OfLengthConcat(Insert(front, route), [last], n);
      assert OfLength([last], n) == [] || OfLength([route], n) == [];
    }
  }

  lemma {:induction false} SortedIsStableSort(declared: seq<Route>)
    ensures StableSortOf(Sorted(declared), declared)
  {
    if declared != [] {
      var front, last := declared[..|declared| - 1], declared[|declared| - 1];
      SortedIsStableSort(front);
      InsertKeepsLongestFirst(Sorted(front), last);
      assert declared == front + [last];
      forall n: nat ensures OfLength(Sorted(declared), n) == OfLength(declared, n) {
        InsertIsStable(Sorted(front), last, n);
        OfLengthConcat(front, [last], n);
      }
    }
  }

  lemma {:induction false} InsertAt(routes: seq<Route>, route: Route, j: nat)
    requires j <= |routes|
    requires forall k :: j <= k < |routes| ==> |routes[k].prefix| < |route.prefix|
    requires j > 0 ==> |routes[j - 1].prefix| >= |route.prefix|
    ensures Insert(routes, route) == routes[..j] + [route] + routes[j..]
  {
    if j < |routes| {
      var front := routes[..|routes| - 1];
      InsertAt(front, route, j);
      assert front[..j] == routes[..j];
      assert routes[j..] == front[j..] + [routes[|routes| - 1]];
    }
  }

  /** Moves `routes[i]` down past the shorter prefixes before it. */
  method InsertInPlace(routes: array<Route>, i: nat)
    requires i < routes.Length
    modifies routes
    ensures routes[..i + 1] == Insert(old(routes[..i]), old(routes[i]))
    ensures forall k :: i < k < routes.Length ==> routes[k] == old(routes[k])
  {
    var route := routes[i];
    ghost var before := routes[..i];
    var j := i;
    while j > 0 && |routes[j - 1].prefix| < |route.prefix|
      invariant 0 <= j <= i
      invariant forall k :: 0 <= k < j ==> routes[k] == before[k]
      invariant forall k :: j < k <= i ==> routes[k] == before[k - 1]
      invariant forall k :: j <= k < i ==> |before[k].prefix| < |route.prefix|
      invariant forall k :: i < k < routes.Length ==> routes[k] == old(routes[k])
    {
      routes[j] := routes[j - 1];
      j := j - 1;
    }
    routes[j] := route;
    assert routes[..i + 1] == before[..j] + [route] + before[j..];
    InsertAt(before, route, j);
  }

  lemma SortedStep(declared: seq<Route>, i: nat)
    requires i < |declared|
    ensures Sorted(declared[..i + 1]) == Insert(Sorted(declared[..i]), declared[i])
  {
    hide Insert;
    assert declared[..i + 1][..i] == declared[..i];
  }

  lemma SortedNothing()
    ensures Sorted([]) == []
  {
  }

  /** The in-place stable sort `New` runs on its own copy of the declared routes. */
  method SortRoutes(routes: array<Route>)
    modifies routes
    ensures routes[..] == Sorted(old(routes[..]))
    ensures StableSortOf(routes[..], old(routes[..]))
  {
    hide Sorted, Insert, StableSortOf;
    ghost var declared := routes[..];
    assert Sorted([]) == [] by {
      SortedNothing();
    }
    for i := 0 to routes.Length
      invariant routes[..i] == Sorted(declared[..i])
      invariant forall k :: i <= k < routes.Length ==> routes[k] == declared[k]
    {
      InsertInPlace(routes, i);
      SortedStep(declared, i);
    }
    assert routes[..routes.Length] == routes[..] && declared[..routes.Length] == declared;
    SortedIsStableSort(declared);
  }

  // ------------------------------------------------------------ longest match

  /** `declared[i]` is the first declared among the matching routes with the longest prefix. */
  ghost predicate IsBest(declared: seq<Route>, path: Bytes, i: nat)
    requires i < |declared|
  {
    && Matches(declared[i], path)
    && (forall j :: 0 <= j < |declared| && Matches(declared[j], path) ==> |declared[j].prefix| <= |declared[i].prefix|)
    && (forall j :: 0 <= j < i && Matches(declared[j], path) ==> |declared[j].prefix| < |declared[i].prefix|)
  }

  lemma {:induction false} InOfLength(routes: seq<Route>, route: Route)
    ensures route in OfLength(routes, |route.prefix|) <==> route in routes
  {
    if routes != [] {
      InOfLength(routes[1..], route);
      assert routes == [routes[0]] + routes[1..];
    }
  }

  lemma {:induction false} FirstMatch(routes: seq<Route>, path: Bytes) returns (p: nat)
    ensures MatchRoute(routes, path).None? ==> p == |routes|
    ensures MatchRoute(routes, path).Some? ==>
              p < |routes| && routes[p] == MatchRoute(routes, path).value && Matches(routes[p], path)
    ensures forall k :: 0 <= k < p ==> !Matches(routes[k], path)
  {
    if routes == [] || Matches(routes[0], path) {
      p := 0;
    } else {
      var rest := FirstMatch(routes[1..], path);
      p := 1 + rest;
      forall k | 0 <= k < p ensures !Matches(routes[k], path) {
        if k > 0 {
          assert routes[k] == routes[1..][k - 1];
        }
      }
    }
  }

  lemma {:induction false} FirstOfLength(routes: seq<Route>, n: nat, path: Bytes) returns (i: nat)
    requires MatchRoute(OfLength(routes, n), path).Some?
    ensures i < |routes| && routes[i] == MatchRoute(OfLength(routes, n), path).value
    ensures Matches(routes[i], path) && |routes[i].prefix| == n
    ensures forall k :: 0 <= k < i && |routes[k].prefix| == n ==> !Matches(routes[k], path)
  {
    var rest := OfLength(routes[1..], n);
    if |routes[0].prefix| == n && Matches(routes[0], path) {
      i := 0;
    } else {
      if |routes[0].prefix| == n {
        assert OfLength(routes, n)[1..] == rest;
      } else {
        assert OfLength(routes, n) == rest;
      }
      var k := FirstOfLength(routes[1..], n, path);
      i := 1 + k;
    }
  }

  lemma {:induction false} MatchWithinLength(sorted: seq<Route>, path: Bytes)
    requires MatchRoute(sorted, path).Some?
    ensures var r := MatchRoute(sorted, path).value;
            MatchRoute(OfLength(sorted, |r.prefix|), path) == Some(r)
  {
    if !Matches(sorted[0], path) {
      MatchWithinLength(sorted[1..], path);
      var n := |MatchRoute(sorted, path).value.prefix|;
      if |sorted[0].prefix| == n {
        assert OfLength(sorted, n)[1..] == OfLength(sorted[1..], n);
      } else {
        assert OfLength(sorted, n) == OfLength(sorted[1..], n);
      }
    }
  }

  lemma SameRoutes(sorted: seq<Route>, declared: seq<Route>)
    requires StableSortOf(sorted, declared)
    ensures forall r :: r in declared <==> r in sorted
  {
    forall r: Route ensures r in declared <==> r in sorted {
      InOfLength(declared, r);
      InOfLength(sorted, r);
    }
  }

  /** In a table that is longest first, no route that matches has a longer prefix than the first match. */
  lemma FirstMatchIsLongest(sorted: seq<Route>, path: Bytes)
    requires LongestFirst(sorted)
    ensures match MatchRoute(sorted, path)
            case None => forall r <- sorted :: !Matches(r, path)
            case Some(best) =>
              best in sorted && Matches(best, path) && forall r <- sorted :: Matches(r, path) ==>
                  |r.prefix| <= |best.prefix|
  {
    var p := FirstMatch(sorted, path);
    forall r | r in sorted && Matches(r, path)
      ensures p < |sorted| && |r.prefix| <= |sorted[p].prefix|
    {
      var q :| 0 <= q < |sorted| && sorted[q] == r;
    }
  }

  /**
   * Lookup in the sorted table finds the best of the declared routes, and nothing only when no declared route
   * matches.
   */
  lemma LookupFindsBest(sorted: seq<Route>, declared: seq<Route>, path: Bytes) returns (i: nat)
    requires StableSortOf(sorted, declared)
    ensures MatchRoute(sorted, path).None? <==> forall r <- declared :: !Matches(r, path)
    ensures MatchRoute(sorted, path).Some? ==>
              i < |declared| && IsBest(declared, path, i) && declared[i] == MatchRoute(sorted, path).value
  {
    SameRoutes(sorted, declared);
    FirstMatchIsLongest(sorted, path);
    i := 0;
    if MatchRoute(sorted, path).Some? {
      MatchWithinLength(sorted, path);
      i := FirstOfLength(declared, |MatchRoute(sorted, path).value.prefix|, path);
    }
  }

  predicate DistinctPrefixes(routes: seq<Route>) {
    forall a, b :: a in routes && b in routes && a.prefix == b.prefix ==> a == b
  }

  /** When no two routes share a prefix, the order in which they are declared cannot be observed. */
  lemma DeclarationOrderIrrelevant(a: seq<Route>, b: seq<Route>, sortedA: seq<Route>, sortedB: seq<Route>, path: Bytes)
    requires StableSortOf(sortedA, a) && StableSortOf(sortedB, b)
    requires DistinctPrefixes(a) && forall r :: r in a <==> r in b
    ensures MatchRoute(sortedA, path) == MatchRoute(sortedB, path)
  {
    SameRoutes(sortedA, a);
    SameRoutes(sortedB, b);
    FirstMatchIsLongest(sortedA, path);
    FirstMatchIsLongest(sortedB, path);
    if MatchRoute(sortedA, path).Some? && MatchRoute(sortedB, path).Some? {
      MatchesOnSegmentBoundary(MatchRoute(sortedA, path).value, path);
      MatchesOnSegmentBoundary(MatchRoute(sortedB, path).value, path);
    }
  }

  // ------------------------------------------------------------ rewriting

  function JoinUrlPath(base: Bytes, suffix: Bytes): Bytes {
    var b, s := TrimRight(base, SLASH_BYTE), TrimLeft(suffix, SLASH_BYTE);
    if s == "" then if b == "" then SLASH else b
    else if b == "" then SLASH + s
    else b + SLASH + s
  }

  /** A base and a suffix, already stripped of the slashes that face the seam, put together with exactly one. */
  function Glue(base: Bytes, suffix: Bytes): Bytes {
    if suffix != [] then base + SLASH + suffix else if base != [] then base else SLASH
  }

  function BuildTargetUrl(route: Route, path: Bytes, query: Bytes): Url {
    route.target.(path := JoinUrlPath(route.target.path, TrimPrefix(path, route.prefix)), query := query)
  }

  lemma TrimSidesCommute(b: Bytes)
    ensures TrimRight(TrimLeft(b, SLASH_BYTE), SLASH_BYTE) == TrimLeft(TrimRight(b, SLASH_BYTE), SLASH_BYTE)
  {
    var core := TrimLeft(b, SLASH_BYTE);
    var slashes := b[..|b| - |core|];
    assert b == slashes + core;
    TrimRightConcat(slashes, core, SLASH_BYTE);
    TrimLeftConcat(slashes, TrimRight(core, SLASH_BYTE), SLASH_BYTE);
  }

  lemma JoinIsGlue(base: Bytes, suffix: Bytes)
    ensures JoinUrlPath(base, suffix) == Glue(TrimRight(base, SLASH_BYTE), TrimLeft(suffix, SLASH_BYTE))
  {
  }

  predicate NoLeadingSlash(s: Bytes) {
    s == [] || s[0] != SLASH_BYTE
  }

  predicate NoTrailingSlash(s: Bytes) {
    s == [] || s[|s| - 1] != SLASH_BYTE
  }

  lemma TrimSlashAhead(s: Bytes)
    requires NoLeadingSlash(s)
    ensures TrimLeft(SLASH + s, SLASH_BYTE) == s
  {
    var t := SLASH + s;
    assert s != [] ==> t[1] == s[0];
    assert LeadRun(t, SLASH_BYTE, 0) == 1;
  }

  lemma TrimRightOfGlue(base: Bytes, suffix: Bytes)
    requires NoTrailingSlash(base) && NoLeadingSlash(suffix)
    ensures var m := TrimRight(suffix, SLASH_BYTE);
            TrimRight(Glue(base, suffix), SLASH_BYTE) == if m == [] then base else base + SLASH + m
  {
    TrimRightIdentity(base, SLASH_BYTE);
    if suffix != [] {
      TrimRightConcat(base + SLASH, suffix, SLASH_BYTE);
    }
  }

  lemma TrimLeftOfGlue(base: Bytes, suffix: Bytes)
    requires NoTrailingSlash(base) && NoLeadingSlash(suffix)
    ensures var m := TrimLeft(base, SLASH_BYTE);
            TrimLeft(Glue(base, suffix), SLASH_BYTE) == if m == [] then suffix else if suffix == [] then m
                else m + SLASH + suffix
  {
    if suffix != [] {
      assert Glue(base, suffix) == base + (SLASH + suffix);
      TrimLeftConcat(base, SLASH + suffix, SLASH_BYTE);
      TrimSlashAhead(suffix);
    }
  }

  /** Two seams made in either order. */
  lemma GlueIsAssociative(x: Bytes, m: Bytes, z: Bytes)
    ensures Glue(if m == [] then x else x + SLASH + m, z)
            == Glue(x, if m == [] then z else if z == [] then m else m + SLASH + z)
  {
    assert x + SLASH + m + SLASH + z == x + SLASH + (m + SLASH + z);
  }

  /** A joined path has one slash at the seam, whatever slashes face it; the rest of both sides is kept as it is. */
  lemma JoinHasOneSlash(base: Bytes, baseSlashes: Bytes, slashes: Bytes, suffix: Bytes)
    requires NoTrailingSlash(base) && NoLeadingSlash(suffix)
    requires forall i :: 0 <= i < |baseSlashes| ==> baseSlashes[i] == '/'
    requires forall i :: 0 <= i < |slashes| ==> slashes[i] == '/'
    ensures JoinUrlPath(base + baseSlashes, slashes + suffix)
            == if suffix != [] then base + "/" + suffix else if base != [] then base else "/"
  {
    hide TrimLeft, TrimRight;
    AllSlashes(baseSlashes);
    AllSlashes(slashes);
    TrimRightConcat(base, baseSlashes, SLASH_BYTE);
    TrimLeftConcat(slashes, suffix, SLASH_BYTE);
    TrimRightIdentity(base, SLASH_BYTE);
    NothingToTrim(suffix);
    JoinIsGlue(base + baseSlashes, slashes + suffix);
  }

  lemma AllSlashes(s: Bytes)
    requires forall i :: 0 <= i < |s| ==> s[i] == SLASH_BYTE
    ensures TrimLeft(s, SLASH_BYTE) == [] && TrimRight(s, SLASH_BYTE) == []
  {
    assert LeadRun(s, SLASH_BYTE, 0) == |s| && TailRun(s, SLASH_BYTE, |s|) == 0;
  }

  lemma NothingToTrim(s: Bytes)
    requires NoLeadingSlash(s)
    ensures TrimLeft(s, SLASH_BYTE) == s
  {
  }

  /** Joining is associative: prefixing a base in two steps is prefixing it in one. */
  lemma JoinIsAssociative(a: Bytes, b: Bytes, c: Bytes)
    ensures JoinUrlPath(JoinUrlPath(a, b), c) == JoinUrlPath(a, JoinUrlPath(b, c))
  {
    var x, z := TrimRight(a, SLASH_BYTE), TrimLeft(c, SLASH_BYTE);
    JoinIsGlue(a, b);
    JoinIsGlue(b, c);
    TrimRightOfGlue(x, TrimLeft(b, SLASH_BYTE));
    TrimLeftOfGlue(TrimRight(b, SLASH_BYTE), z);
    TrimSidesCommute(b);
    JoinIsGlue(JoinUrlPath(a, b), c);
    JoinIsGlue(a, JoinUrlPath(b, c));
    GlueIsAssociative(x, TrimRight(TrimLeft(b, SLASH_BYTE), SLASH_BYTE), z);
  }

  /** The part of a matched path that the route's prefix does not cover, without its leading slashes. */
  function Remainder(route: Route, path: Bytes): Bytes
    requires Matches(route, path)
  {
    TrimLeft(path[|route.prefix|..], SLASH_BYTE)
  }

  /**
   * A rewritten path is, byte by byte, the target's own path, or that path continued on a segment boundary by the
   * remainder, of which every byte is kept: dot segments too, so that where it leads is another matter (see
   * `DotSegments`).
   */
  lemma RewriteStaysOnPath(route: Route, path: Bytes, query: Bytes)
    requires Matches(route, path)
    ensures BuildTargetUrl(route, path, query)
            == Url(route.target.scheme, route.target.host,
                Glue(TrimRight(route.target.path, SLASH_BYTE), Remainder(route, path)), query)
  {
    MatchesOnSegmentBoundary(route, path);
    JoinIsGlue(route.target.path, TrimPrefix(path, route.prefix));
  }

  lemma GlueIsInjective(base: Bytes, x: Bytes, y: Bytes)
    requires Glue(base, x) == Glue(base, y)
    ensures x == y
  {
    var (p, q) := (Glue(base, x), Glue(base, y));
    assert x != [] ==> |p| > |base| + 1 && p[|base| + 1..] == x;
    assert y != [] ==> |q| > |base| + 1 && q[|base| + 1..] == y;
  }

  /**
   * Two requests of one route reach the same upstream path exactly when they differ in nothing but slashes behind the
   * prefix.
   */
  lemma RewriteIsInjective(route: Route, p: Bytes, q: Bytes, query: Bytes)
    requires Matches(route, p) && Matches(route, q)
    ensures BuildTargetUrl(route, p, query) == BuildTargetUrl(route, q, query) <==>
        Remainder(route, p) == Remainder(route, q)
  {
    RewriteStaysOnPath(route, p, query);
    RewriteStaysOnPath(route, q, query);
    if BuildTargetUrl(route, p, query) == BuildTargetUrl(route, q, query) {
      GlueIsInjective(TrimRight(route.target.path, SLASH_BYTE), Remainder(route, p), Remainder(route, q));
    }
  }

  lemma GlueTail(base: Bytes, rest: Bytes)
    requires base != []
    ensures |Glue(base, rest)| >= |base|
    ensures Glue(base, rest)[|base|..] == if rest == [] then [] else SLASH + rest
  {
    assert rest != [] ==> Glue(base, rest) == base + (SLASH + rest);
  }

  lemma GlueIsMatched(route: Route, rest: Bytes)
    requires route.prefix != [] && NoLeadingSlash(rest)
    ensures Matches(route, Glue(route.prefix, rest)) && Remainder(route, Glue(route.prefix, rest)) == rest
  {
    GlueTail(route.prefix, rest);
    if rest != [] {
      assert Glue(route.prefix, rest)[..|route.prefix| + 1] == route.prefix + SLASH;
      TrimSlashAhead(rest);
    }
  }

  /**
   * Gateways compose: a path rewritten by one route and then by a second whose prefix is the first one's target path is
   * matched by the second, and ends where a single route to the second target would have taken it.
   */
  lemma RewritesCompose(outer: Route, inner: Route, path: Bytes, query: Bytes)
    requires Matches(outer, path) && inner.prefix == outer.target.path
    requires inner.prefix != [] && inner.prefix[|inner.prefix| - 1] != SLASH_BYTE
    ensures var middle := BuildTargetUrl(outer, path, query).path;
            && Matches(inner, middle)
            && BuildTargetUrl(inner, middle, query) == BuildTargetUrl(outer.(target := inner.target), path, query)
  {
    var direct := outer.(target := inner.target);
    TrimRightIdentity(inner.prefix, SLASH_BYTE);
    RewriteStaysOnPath(outer, path, query);
    GlueIsMatched(inner, Remainder(outer, path));
    RewriteStaysOnPath(inner, BuildTargetUrl(outer, path, query).path, query);
    RewriteStaysOnPath(direct, path, query);
  }
}
