/** The textual route table of `UPSTREAM_ROUTES`: `name=prefix|target` entries separated by commas. */
module RouteConfig {
  import opened Wrappers
  import opened GoStrings
  import opened Routing

  datatype Error =
    | InvalidEntry(entry: Bytes)
    | BadTarget(name: Bytes)
    | NameRequired
    | PrefixMustStartWithSlash
    | PrefixMustNotEndWithSlash
    | TargetNotAbsolute
    | NoRoutes

  /** URL parsing is the library's business: a parameter. */
  type UrlParser = Bytes -> Option<Url>

  function ValidateRoute(route: Route): Option<Error> {
    if TrimSpace(route.name) == [] then Some(NameRequired)
    else if !(SLASH <= route.prefix) then Some(PrefixMustStartWithSlash)
    else if HasSuffix(route.prefix, SLASH) && route.prefix != SLASH then Some(PrefixMustNotEndWithSlash)
    else if route.target.scheme == [] || route.target.host == [] then Some(TargetNotAbsolute)
    else None
  }

  /** One entry that is trimmed and not blank. */
  function ParseEntry(entry: Bytes, parseUrl: UrlParser): Result<Route, Error> {
    match Cut(entry, '=')
    case None => Err(InvalidEntry(entry))
    case Some((name, rest)) =>
      match Cut(rest, '|')
      case None => Err(InvalidEntry(entry))
      case Some((prefix, target)) =>
        match parseUrl(TrimSpace(target))
        case None => Err(BadTarget(TrimSpace(name)))
        case Some(url) =>
          var trimmed := TrimRight(TrimSpace(prefix), SLASH_BYTE);
          var route := Route(TrimSpace(name), if trimmed == [] then SLASH else trimmed, url);
          match ValidateRoute(route)
          case Some(error) => Err(error)
          case None => Ok(route)
  }

  /** All the entries, left to right; the first bad one decides, and blank ones count for nothing. */
  function ParseEntries(parts: seq<Bytes>, parseUrl: UrlParser): Result<seq<Route>, Error> {
    if parts == [] then Ok([])
    else if TrimSpace(parts[0]) == [] then ParseEntries(parts[1..], parseUrl)
    else
      match ParseEntry(TrimSpace(parts[0]), parseUrl)
      case Err(error) => Err(error)
      case Ok(route) =>
        match ParseEntries(parts[1..], parseUrl)
        case Err(error) => Err(error)
        case Ok(routes) => Ok([route] + routes)
  }

  function Parsed(value: Bytes, parseUrl: UrlParser): Result<seq<Route>, Error> {
    match ParseEntries(Split(value, ','), parseUrl)
    case Err(error) => Err(error)
    case Ok(routes) => if routes == [] then Err(NoRoutes) else Ok(routes)
  }

  function Prepend(routes: seq<Route>, rest: Result<seq<Route>, Error>): Result<seq<Route>, Error> {
    if rest.Ok? then Ok(routes + rest.value) else rest
  }

  method ParseRoutes(value: Bytes, parseUrl: UrlParser) returns (result: Result<seq<Route>, Error>)
    ensures result == Parsed(value, parseUrl)
  {
    hide ParseEntry, TrimSpace;
    var parts := Split(value, ',');
    var routes: seq<Route> := [];
    assert parts[0..] == parts && forall rest: seq<Route> :: routes + rest == rest;
    for i := 0 to |parts|
      invariant ParseEntries(parts, parseUrl) == Prepend(routes, ParseEntries(parts[i..], parseUrl))
    {
      assert parts[i..][1..] == parts[i + 1..];
      var part := TrimSpace(parts[i]);
      if part == [] {
        continue;
      }
      match ParseEntry(part, parseUrl)
      case Err(error) =>
        return Err(error);
      case Ok(route) =>
        ghost var rest := ParseEntries(parts[i + 1..], parseUrl);
        assert rest.Ok? ==> routes + ([route] + rest.value) == (routes + [route]) + rest.value;
        routes := routes + [route];
    }
    assert routes + [] == routes;
    if |routes| == 0 {
      return Err(NoRoutes);
    }
    return Ok(routes);
  }

  // ------------------------------------------------------------ what parsing accepts

  function NonBlank(parts: seq<Bytes>): seq<Bytes> {
    if parts == [] then []
    else (if TrimSpace(parts[0]) == [] then [] else [parts[0]]) + NonBlank(parts[1..])
  }

  /** Blank entries may stand anywhere. */
  lemma {:induction false} BlankEntriesAreIgnored(parts: seq<Bytes>, parseUrl: UrlParser)
    ensures ParseEntries(parts, parseUrl) == ParseEntries(NonBlank(parts), parseUrl)
  {
    hide ParseEntry, TrimSpace;
    if parts != [] {
      BlankEntriesAreIgnored(parts[1..], parseUrl);
      if TrimSpace(parts[0]) == [] {
        assert NonBlank(parts) == NonBlank(parts[1..]);
      } else {
        var kept := [parts[0]] + NonBlank(parts[1..]);
        assert kept[0] == parts[0] && kept[1..] == NonBlank(parts[1..]);
        assert ParseEntries(kept, parseUrl) == ParseEntries(parts, parseUrl);
        assert NonBlank(parts) == kept;
      }
    }
  }

  /** A route as every accepted table holds it. */
  predicate WellFormed(route: Route) {
    && ValidateRoute(route).None?
    && Trimmed(route.name) && route.name != []
    && (route.prefix == SLASH || (route.prefix != [] && NoTrailingSlash(route.prefix)))
  }

  lemma ParsedEntryIsWellFormed(entry: Bytes, parseUrl: UrlParser)
    requires ParseEntry(entry, parseUrl).Ok?
    ensures WellFormed(ParseEntry(entry, parseUrl).value)
  {
    hide TrimSpace, TrimRight, Cut, Trimmed;
  }

  lemma {:induction false} ParsedEntriesAreWellFormed(parts: seq<Bytes>, parseUrl: UrlParser)
    requires ParseEntries(parts, parseUrl).Ok?
    ensures |ParseEntries(parts, parseUrl).value| == |NonBlank(parts)|
    ensures forall r <- ParseEntries(parts, parseUrl).value :: WellFormed(r)
  {
    hide ParseEntry, TrimSpace, WellFormed;
    if parts != [] {
      ParsedEntriesAreWellFormed(parts[1..], parseUrl);
      if TrimSpace(parts[0]) != [] {
        ParsedEntryIsWellFormed(TrimSpace(parts[0]), parseUrl);
      }
    }
  }

  /**
   * An accepted table is not empty, has one route for every entry that is not blank, and every route passes
   * validation.
   */
  lemma AcceptedTableIsValid(value: Bytes, parseUrl: UrlParser)
    requires Parsed(value, parseUrl).Ok?
    ensures var routes := Parsed(value, parseUrl).value;
            && routes != [] && |routes| == |NonBlank(Split(value, ','))|
            && forall r <- routes :: WellFormed(r)
    ensures forall r <- Parsed(value, parseUrl).value ::
              && r.name != [] && Trimmed(r.name) && "/" <= r.prefix && (r.prefix == "/" || !HasSuffix(r.prefix, "/"))
              && r.target.scheme != [] && r.target.host != []
  {
    hide WellFormed, Trimmed, ParseEntries, Split, NonBlank;
    ParsedEntriesAreWellFormed(Split(value, ','), parseUrl);
    forall r | r in Parsed(value, parseUrl).value
      ensures r.name != [] && Trimmed(r.name) && "/" <= r.prefix && (r.prefix == "/" || !HasSuffix(r.prefix, "/"))
      ensures r.target.scheme != [] && r.target.host != []
    {
      WellFormedMeans(r);
    }
  }

  lemma WellFormedMeans(r: Route)
    requires WellFormed(r)
    ensures r.name != [] && Trimmed(r.name) && "/" <= r.prefix && (r.prefix == "/" || !HasSuffix(r.prefix, "/"))
    ensures r.target.scheme != [] && r.target.host != []
  {
    hide Trimmed, TrimSpace;
  }

  /** The parts of an entry, at its first `=` and the first `|` behind that. */
  predicate HasParts(entry: Bytes, name: Bytes, prefix: Bytes, target: Bytes) {
    entry == name + ['='] + (prefix + ['|'] + target) && '=' !in name && '|' !in prefix
  }

  /**
   * An entry is accepted just when it has all its parts: a name, a prefix that is empty or starts with a slash, and
   * an absolute URL.
   */
  predicate IsAcceptable(name: Bytes, prefix: Bytes, target: Bytes, parseUrl: UrlParser) {
    var url := parseUrl(TrimSpace(target));
    && TrimSpace(name) != []
    && (TrimSpace(prefix) == [] || TrimSpace(prefix)[0] == '/')
    && url.Some? && url.value.scheme != [] && url.value.host != []
  }

  lemma EntryWithParts(entry: Bytes, name: Bytes, prefix: Bytes, target: Bytes, parseUrl: UrlParser)
    requires HasParts(entry, name, prefix, target)
    ensures ParseEntry(entry, parseUrl).Ok? <==> IsAcceptable(name, prefix, target, parseUrl)
    ensures ParseEntry(entry, parseUrl).Ok? ==>
              var route := ParseEntry(entry, parseUrl).value;
              route.name == TrimSpace(name) && parseUrl(TrimSpace(target)) == Some(route.target)
  {
    hide TrimSpace, Cut, TrimRight;
    IndexAt(name, '=', prefix + ['|'] + target);
    IndexAt(prefix, '|', target);
    TrimmedIsStable(name);
    SlashesOff(TrimSpace(prefix));
  }

  lemma TrimmedIsStable(s: Bytes)
    ensures TrimSpace(TrimSpace(s)) == TrimSpace(s)
  {
    hide Trimmed;
  }

  /** Taking trailing slashes off leaves a text that starts with a slash, or nothing of one that is all slashes. */
  lemma SlashesOff(s: Bytes)
    ensures var trimmed := TrimRight(s, SLASH_BYTE);
            var prefix := if trimmed == [] then SLASH else trimmed;
            && (SLASH <= prefix <==> s == [] || s[0] == SLASH_BYTE)
            && (prefix == SLASH || !HasSuffix(prefix, SLASH))
  {
  }

  /** An entry without both separators, in their order, is refused. */
  lemma EntryWithoutParts(entry: Bytes, parseUrl: UrlParser)
    requires ParseEntry(entry, parseUrl).Ok?
    ensures exists name, prefix, target :: HasParts(entry, name, prefix, target)
  {
    hide TrimSpace, TrimRight, ValidateRoute, Cut;
    var (name, rest) := Cut(entry, '=').value;
    var (prefix, target) := Cut(rest, '|').value;
    CutParts(entry, '=');
    CutParts(rest, '|');
    assert HasParts(entry, name, prefix, target);
  }

  /** A table is refused for its first bad entry, whatever comes behind it. */
  lemma {:induction false} FirstErrorDecides(good: seq<Bytes>, bad: Bytes, more: seq<Bytes>, parseUrl: UrlParser)
    requires ParseEntries(good, parseUrl).Ok?
    requires TrimSpace(bad) != [] && ParseEntry(TrimSpace(bad), parseUrl).Err?
    ensures ParseEntries(good + [bad] + more, parseUrl) == Err(ParseEntry(TrimSpace(bad), parseUrl).error)
  {
    hide ParseEntry, TrimSpace;
    var parts := good + [bad] + more;
    if good == [] {
      assert parts[0] == bad;
    } else {
      assert parts[0] == good[0] && parts[1..] == good[1..] + [bad] + more;
      FirstErrorDecides(good[1..], bad, more, parseUrl);
    }
  }

  // ------------------------------------------------------------ printing

  function PrintEntry(route: Route, printUrl: Url -> Bytes): Bytes {
    route.name + ['='] + (route.prefix + ['|'] + printUrl(route.target))
  }

  function PrintEntries(routes: seq<Route>, printUrl: Url -> Bytes): seq<Bytes> {
    seq(|routes|, i requires 0 <= i < |routes| => PrintEntry(routes[i], printUrl))
  }

  function Print(routes: seq<Route>, printUrl: Url -> Bytes): Bytes {
    Join(PrintEntries(routes, printUrl), [','])
  }

  /** A well-formed route none of whose fields holds a separator that would split it. */
  predicate Printable(route: Route, parseUrl: UrlParser, printUrl: Url -> Bytes) {
    && WellFormed(route) && Trimmed(route.prefix) && Trimmed(printUrl(route.target))
    && ',' !in route.name && '=' !in route.name
    && ',' !in route.prefix && '|' !in route.prefix
    && ',' !in printUrl(route.target)
    && parseUrl(printUrl(route.target)) == Some(route.target)
  }

  lemma EntryIsOnePart(route: Route, parseUrl: UrlParser, printUrl: Url -> Bytes)
    requires Printable(route, parseUrl, printUrl)
    ensures Trimmed(PrintEntry(route, printUrl)) && PrintEntry(route, printUrl) != []
    ensures ',' !in PrintEntry(route, printUrl)
  {
    hide ValidateRoute, LeadSpace, TailSpace;
    var target := printUrl(route.target);
    TrimmedAround(route.prefix, '|', target);
    TrimmedAround(route.name, '=', route.prefix + ['|'] + target);
  }

  lemma EntryRoundTrip(route: Route, parseUrl: UrlParser, printUrl: Url -> Bytes)
    requires Printable(route, parseUrl, printUrl)
    ensures ParseEntry(PrintEntry(route, printUrl), parseUrl) == Ok(route)
  {
    hide ValidateRoute, TrimSpace, Trimmed, TrimRight, Cut;
    var target := printUrl(route.target);
    IndexAt(route.name, '=', route.prefix + ['|'] + target);
    IndexAt(route.prefix, '|', target);
    PrefixRoundTrip(route.prefix);
  }

  lemma PrefixRoundTrip(prefix: Bytes)
    requires prefix == SLASH || (prefix != [] && NoTrailingSlash(prefix))
    ensures var trimmed := TrimRight(prefix, SLASH_BYTE); (if trimmed == [] then SLASH else trimmed) == prefix
  {
    if prefix != SLASH {
      TrimRightIdentity(prefix, SLASH_BYTE);
    }
  }

  lemma {:induction false} EntriesRoundTrip(routes: seq<Route>, parseUrl: UrlParser, printUrl: Url -> Bytes)
    requires forall r <- routes :: Printable(r, parseUrl, printUrl)
    ensures ParseEntries(PrintEntries(routes, printUrl), parseUrl) == Ok(routes)
  {
    hide ParseEntry, TrimSpace, Printable, PrintEntry;
    if routes != [] {
      EntryIsOnePart(routes[0], parseUrl, printUrl);
      EntryRoundTrip(routes[0], parseUrl, printUrl);
      var entries := PrintEntries(routes, printUrl);
      assert entries[0] == PrintEntry(routes[0], printUrl) && entries[1..] == PrintEntries(routes[1..], printUrl);
      EntriesRoundTrip(routes[1..], parseUrl, printUrl);
      assert routes == [routes[0]] + routes[1..];
    }
  }

  /** Reading a printed table gives the table back. */
  lemma TableRoundTrip(routes: seq<Route>, parseUrl: UrlParser, printUrl: Url -> Bytes)
    requires routes != [] && forall r <- routes :: Printable(r, parseUrl, printUrl)
    ensures Parsed(Print(routes, printUrl), parseUrl) == Ok(routes)
  {
    var entries := PrintEntries(routes, printUrl);
    forall entry | entry in entries ensures ',' !in entry {
      var i :| 0 <= i < |entries| && entries[i] == entry;
      EntryIsOnePart(routes[i], parseUrl, printUrl);
    }
    SplitInvertsJoin(entries, ',');
    EntriesRoundTrip(routes, parseUrl, printUrl);
  }

  // ------------------------------------------------------------ which accepted tables are read back

  /** A route as far as its text goes: no field holds a separator that would split it. */
  predicate Separable(route: Route) {
    && ',' !in route.name && '=' !in route.name
    && ',' !in route.prefix && '|' !in route.prefix
  }

  /** A target that URL printing and parsing hold on to. */
  predicate UrlPrintable(url: Url, parseUrl: UrlParser, printUrl: Url -> Bytes) {
    && Trimmed(printUrl(url)) && ',' !in printUrl(url)
    && parseUrl(printUrl(url)) == Some(url)
  }

  lemma ParsedEntryIsSeparable(entry: Bytes, parseUrl: UrlParser)
    requires ',' !in entry && ParseEntry(entry, parseUrl).Ok?
    ensures Separable(ParseEntry(entry, parseUrl).value)
  {
    hide TrimSpace, TrimRight, Cut, ValidateRoute;
    var (name, rest) := Cut(entry, '=').value;
    var (prefix, target) := Cut(rest, '|').value;
    CutKeepsOut(entry, '=', ',');
    CutKeepsOut(rest, '|', ',');
    TrimSpaceKeepsOut(name, ',');
    TrimSpaceKeepsOut(name, '=');
    TrimSpaceKeepsOut(prefix, ',');
    TrimSpaceKeepsOut(prefix, '|');
    TrimRightKeepsOut(TrimSpace(prefix), SLASH_BYTE, ',');
    TrimRightKeepsOut(TrimSpace(prefix), SLASH_BYTE, '|');
  }

  lemma {:induction false} ParsedEntriesAreSeparable(parts: seq<Bytes>, parseUrl: UrlParser)
    requires (forall part <- parts :: ',' !in part) && ParseEntries(parts, parseUrl).Ok?
    ensures forall r <- ParseEntries(parts, parseUrl).value :: Separable(r)
  {
    hide ParseEntry, TrimSpace, Separable;
    if parts != [] {
      assert parts[0] in parts && forall part :: part in parts[1..] ==> part in parts;
      ParsedEntriesAreSeparable(parts[1..], parseUrl);
      if TrimSpace(parts[0]) != [] {
        TrimSpaceKeepsOut(parts[0], ',');
        ParsedEntryIsSeparable(TrimSpace(parts[0]), parseUrl);
      }
    }
  }

  lemma AcceptedIsPrintable(route: Route, parseUrl: UrlParser, printUrl: Url -> Bytes)
    requires WellFormed(route) && Separable(route) && UrlPrintable(route.target, parseUrl, printUrl)
    ensures Printable(route, parseUrl, printUrl) <==> Trimmed(route.prefix)
  {
    hide WellFormed, Trimmed;
  }

  /** The printed form of an accepted route is one entry, trimmed or not. */
  lemma AcceptedEntryIsOnePart(route: Route, parseUrl: UrlParser, printUrl: Url -> Bytes)
    requires WellFormed(route) && Separable(route) && UrlPrintable(route.target, parseUrl, printUrl)
    ensures var entry := PrintEntry(route, printUrl); Trimmed(entry) && entry != [] && ',' !in entry
  {
    hide TailSpace, TrimSpace;
    var target := printUrl(route.target);
    assert route.prefix[0] == SLASH_BYTE;
    TrimmedAround(route.prefix, '|', target);
    TrimmedAround(route.name, '=', route.prefix + ['|'] + target);
  }

  /** It is not read back when its prefix ends in white space: that is taken off. */
  lemma UntrimmedPrefixIsLost(route: Route, parseUrl: UrlParser, printUrl: Url -> Bytes)
    requires WellFormed(route) && Separable(route) && !Trimmed(route.prefix)
    ensures ParseEntry(PrintEntry(route, printUrl), parseUrl) != Ok(route)
  {
    hide ValidateRoute, Trimmed, Cut, TrimSpace, TrimRight;
    var target := printUrl(route.target);
    IndexAt(route.name, '=', route.prefix + ['|'] + target);
    IndexAt(route.prefix, '|', target);
    PrefixShrinks(route.prefix);
  }

  lemma PrefixShrinks(prefix: Bytes)
    requires !Trimmed(prefix)
    ensures var trimmed := TrimRight(TrimSpace(prefix), SLASH_BYTE);
            (if trimmed == [] then SLASH else trimmed) != prefix
  {
    hide TrimSpace;
    TrimSpaceShortens(prefix);
    AsciiEndsAreTrimmed(SLASH);
  }

  lemma {:induction false} ReadBackIsTrimmed(routes: seq<Route>, parseUrl: UrlParser, printUrl: Url -> Bytes)
    requires forall r <- routes :: WellFormed(r) && Separable(r) && UrlPrintable(r.target, parseUrl, printUrl)
    requires ParseEntries(PrintEntries(routes, printUrl), parseUrl) == Ok(routes)
    ensures forall r <- routes :: Trimmed(r.prefix)
  {
    hide ParseEntry, TrimSpace, Trimmed, WellFormed, Separable, UrlPrintable, PrintEntry;
    if routes != [] {
      var first, rest := routes[0], routes[1..];
      var entries := PrintEntries(routes, printUrl);
      assert entries[0] == PrintEntry(first, printUrl) && entries[1..] == PrintEntries(rest, printUrl);
      AcceptedEntryIsOnePart(first, parseUrl, printUrl);
      var more := ParseEntries(entries[1..], parseUrl);
      assert ParseEntry(entries[0], parseUrl).Ok? && more.Ok?;
      assert [ParseEntry(entries[0], parseUrl).value] + more.value == [first] + rest;
      assert more.value == rest;
      if !Trimmed(first.prefix) {
        UntrimmedPrefixIsLost(first, parseUrl, printUrl);
      }
      ReadBackIsTrimmed(rest, parseUrl, printUrl);
    }
  }

  lemma PrintedIsSplit(routes: seq<Route>, parseUrl: UrlParser, printUrl: Url -> Bytes)
    requires routes != []
    requires forall r <- routes :: WellFormed(r) && Separable(r) && UrlPrintable(r.target, parseUrl, printUrl)
    ensures Split(Print(routes, printUrl), ',') == PrintEntries(routes, printUrl)
  {
    hide WellFormed, Separable, UrlPrintable, PrintEntry;
    var entries := PrintEntries(routes, printUrl);
    forall entry | entry in entries ensures ',' !in entry {
      var i :| 0 <= i < |entries| && entries[i] == entry;
      AcceptedEntryIsOnePart(routes[i], parseUrl, printUrl);
    }
    SplitInvertsJoin(entries, ',');
  }

  /**
   * An accepted table whose targets can be printed is read back from its printed form exactly when no prefix ends in
   * white space; such a prefix is accepted, as white space is taken off before trailing slashes are.
   */
  lemma AcceptedTableRoundTrip(value: Bytes, parseUrl: UrlParser, printUrl: Url -> Bytes)
    requires Parsed(value, parseUrl).Ok?
    requires forall r <- Parsed(value, parseUrl).value :: UrlPrintable(r.target, parseUrl, printUrl)
    ensures var routes := Parsed(value, parseUrl).value;
            Parsed(Print(routes, printUrl), parseUrl) == Ok(routes) <==> forall r <- routes :: Trimmed(r.prefix)
  {
    hide ParseEntries, WellFormed, Separable, UrlPrintable, Print, PrintEntries, Trimmed, Printable, Split;
    var routes := Parsed(value, parseUrl).value;
    AcceptedTableIsValid(value, parseUrl);
    ParsedEntriesAreSeparable(Split(value, ','), parseUrl);
    PrintedIsSplit(routes, parseUrl, printUrl);
    if Parsed(Print(routes, printUrl), parseUrl) == Ok(routes) {
      ReadBackIsTrimmed(routes, parseUrl, printUrl);
    } else if forall r <- routes :: Trimmed(r.prefix) {
      forall r | r in routes ensures Printable(r, parseUrl, printUrl) {
        AcceptedIsPrintable(r, parseUrl, printUrl);
      }
      TableRoundTrip(routes, parseUrl, printUrl);
    }
  }

  /**
   * An entry whose prefix has a space before its trailing slash, like `a=/x /|http://h`, is accepted, and keeps the
   * space.
   */
  lemma SpacedPrefixIsAccepted(name: Bytes, path: Bytes, target: Bytes, parseUrl: UrlParser, url: Url)
    requires Trimmed(name) && name != [] && '=' !in name
    requires path != [] && path[0] == SLASH_BYTE && '|' !in path
    requires Trimmed(target) && parseUrl(target) == Some(url) && url.scheme != [] && url.host != []
    ensures var entry := name + ['='] + (path + [' '] + SLASH + ['|'] + target);
            ParseEntry(entry, parseUrl) == Ok(Route(name, path + [' '], url)) && !Trimmed(path + [' '])
  {
    hide Trimmed, Cut, TrimSpace, TrimRight;
    var spaced := path + [' '] + SLASH;
    IndexAt(name, '=', spaced + ['|'] + target);
    IndexAt(spaced, '|', target);
    AsciiEndsAreTrimmed(spaced);
    SpaceStays(path);
    var prefix := path + [' '];
    assert prefix[..1] == SLASH && prefix[|prefix| - 1..] == [' '];
  }

  lemma SpaceStays(path: Bytes)
    ensures TrimRight(path + [' '] + SLASH, SLASH_BYTE) == path + [' '] && !Trimmed(path + [' '])
  {
    TrimRightConcat(path + [' '], SLASH, SLASH_BYTE);
    TrimRightIdentity(path + [' '], SLASH_BYTE);
    assert TailRun(SLASH, SLASH_BYTE, 1) == TailRun(SLASH, SLASH_BYTE, 0) == 0;
    assert TailSpace(path + [' ']) == 1;
  }
}
