/**
 * The handlers themselves, line by line: they fill in one audit entry, call their collaborators and write one
 * response. Each is proved to leave behind what `Outcome` says, which is also what any interleaving leaves behind.
 */
module Gateway {
  import opened Wrappers
  import opened GoStrings
  import opened Routing
  import opened Headers
  import opened AuditBodies
  import opened Tokens
  import opened Lifecycle
  import Interleaving
  import opened AuditTrail

  const AUTHORIZATION: Bytes := "Authorization"

  // ------------------------------------------------------------ the collaborators of one request

  /**
   * The audit store, the verifier and the upstream services, as `req` says they respond; `calls` is the trace of
   * calls.
   */
  class Collaborators {
    const cfg: Config
    const req: Request
    var rows: Table
    var calls: seq<Call>

    constructor (cfg: Config, req: Request, rows: Table)
      ensures this.cfg == cfg && this.req == req && this.rows == rows && calls == []
    {
      this.cfg, this.req, this.rows, calls := cfg, req, rows, [];
    }

    method Insert(entry: Entry) returns (ok: bool)
      modifies this
      ensures calls == old(calls) + [Start] && rows == AfterInsert(cfg.lib, old(rows), entry, req.start)
      ensures ok <==> Inserts(cfg.lib, old(rows), entry, req.start) && req.start == Acked
    {
      calls := calls + [Start];
      ok := Inserts(cfg.lib, rows, entry, req.start) && req.start == Acked;
      rows := AfterInsert(cfg.lib, rows, entry, req.start);
    }

    method Update(entry: Entry) returns (ok: bool)
      modifies this
      ensures calls == old(calls) + [Finish] && rows == AfterUpdate(cfg.lib, old(rows), entry, req.finish)
      ensures ok <==> Updates(cfg.lib, old(rows), entry, req.finish) && req.finish == Acked
    {
      calls := calls + [Finish];
      ok := Updates(cfg.lib, rows, entry, req.finish) && req.finish == Acked;
      rows := AfterUpdate(cfg.lib, rows, entry, req.finish);
    }

    method Ask(token: Bytes) returns (verdict: Verdict)
      modifies this
      ensures calls == old(calls) + [Verify(token)] && rows == old(rows) && verdict == req.verdict
    {
      calls := calls + [Verify(token)];
      verdict := req.verdict;
    }

    method Send(method_: Bytes, url: Url, header: Header, body: Bytes) returns (upstream: Upstream)
      modifies this
      ensures calls == old(calls) + [Forward(method_, url, header, body)] && rows == old(rows) &&
          upstream == req.upstream
    {
      calls := calls + [Forward(method_, url, header, body)];
      upstream := req.upstream;
    }

    /** The calls an administrator's request leads to, with the document or the refusal they end in. */
    method DoTask(task: Task) returns (answer: Answer)
      modifies this
      ensures calls == old(calls) + [Work] && rows == old(rows) && answer == TaskAnswer(task)
    {
      calls := calls + [Work];
      answer := TaskAnswer(task);
    }
  }

  // ------------------------------------------------------------ the response writer

  /** Behind the access log: the first status wins, and the header leaves with it. */
  class ResponseWriter {
    var header: Header
    var status: int
    var sent: Option<Response>
    var bytes: nat

    ghost predicate Valid()
      reads this
    {
      && (status == 0 <==> sent.None?)
      && (sent.Some? ==> sent.value.status == status && |sent.value.body| == bytes)
      && (sent.None? ==> bytes == 0)
    }

    constructor ()
      ensures Valid() && header == map[] && sent.None?
    {
      header, status, sent, bytes := map[], 0, None, 0;
    }

    method WriteHeader(status: Status)
      requires Valid()
      modifies this
      ensures Valid() && header == old(header)
      ensures sent == if old(sent).Some? then old(sent) else Some(Response(status, header, []))
    {
      if this.status != 0 {
        return;
      }
      this.status := status;
      sent := Some(Response(status, header, []));
    }

    method Write(payload: Bytes)
      requires Valid()
      modifies this
      ensures Valid() && header == old(header) && bytes == old(bytes) + |payload|
      ensures sent == if old(sent).Some? then Some(old(sent).value.(body := old(sent).value.body + payload))
                      else Some(Response(200, header, payload))
    {
      if status == 0 {
        WriteHeader(200);
      }
      assert old(sent).None? ==> sent.value.body + payload == payload;
      sent := Some(sent.value.(body := sent.value.body + payload));
      bytes := bytes + |payload|;
    }
  }

  // ------------------------------------------------------------ the audit entry

  class AuditEntry {
    var id: Id
    var request: RequestHalf
    var route: Bytes
    var upstreamUrl: Bytes
    var userId: Option<Id>
    var authResult: Bytes
    var response: ResponseHalf
    var errorCode: Bytes
    var errorMessage: Bytes
    var duration: int

    function Value(): Entry
      reads this
    {
      Entry(id, request, route, upstreamUrl, userId, authResult, response, errorCode, errorMessage, duration)
    }

    constructor (id: Id, request: RequestHalf, route: Bytes)
      ensures Value() == Entry(id, request, route, "", None, NOT_CHECKED, NO_RESPONSE, "", "", 0)
    {
      this.id, this.request, this.route := id, request, route;
      upstreamUrl, userId, authResult, response := "", None, NOT_CHECKED, NO_RESPONSE;
      errorCode, errorMessage, duration := "", "", 0;
    }
  }

  // ------------------------------------------------------------ the ways to end

  lemma JsonHeaderIsCanonical()
    ensures CanonicalKeys(JSON_HEADER)
  {
    var once := Canonical(CONTENT_TYPE);
    assert |once| == |CONTENT_TYPE| == 12;
    assert forall i :: 0 <= i < 12 ==> once[i] == CONTENT_TYPE[i];
  }

  /** A handler that has set the request id and sent nothing yet. */
  ghost predicate Ready(w: ResponseWriter, c: Collaborators)
    reads w, c
  {
    w.Valid() && w.sent.None? && w.header == OwnHeader(c.cfg, c.req)
  }

  method WriteJson(w: ResponseWriter, status: Status, body: Bytes)
    requires w.Valid() && w.sent.None?
    modifies w
    ensures w.Valid() && w.sent == Some(Response(status, old(w.header)[CONTENT_TYPE := [JSON_TYPE]], body))
  {
    w.header := w.header[CONTENT_TYPE := [JSON_TYPE]];
    w.WriteHeader(status);
    assert [] + body == body;
    w.Write(body);
  }

  method StartAuditOrFail(w: ResponseWriter, c: Collaborators, entry: AuditEntry) returns (ok: bool)
    requires Ready(w, c)
    modifies w, c
    ensures c.calls == old(c.calls) + Interleaving.Prefix(c.cfg)
    ensures c.rows == if c.cfg.audited then AfterInsert(c.cfg.lib, old(c.rows), entry.Value(), c.req.start)
        else old(c.rows)
    ensures ok <==> c.cfg.audited ==>
              Inserts(c.cfg.lib, old(c.rows), entry.Value(), c.req.start) && c.req.start == Acked
    ensures if ok then Ready(w, c) else w.Valid() && w.sent == Some(Unaudited(c.cfg, c.req))
  {
    if !c.cfg.audited {
      return true;
    }
    ok := c.Insert(entry.Value());
    if !ok {
      WriteJson(w, AUDIT_UNAVAILABLE.status, c.cfg.lib.errorJson(AUDIT_UNAVAILABLE.code, AUDIT_UNAVAILABLE.message) +
          ['\n']);
    }
  }

  /** A failed `Finish` is logged and changes nothing for the client. */
  method FinishAudit(c: Collaborators, entry: AuditEntry)
    modifies c, entry
    ensures entry.Value()
            == old(entry.Value()).(duration := if c.cfg.audited then c.req.elapsed else old(entry.duration))
    ensures c.calls == old(c.calls) + Interleaving.Suffix(c.cfg)
    ensures c.rows == if c.cfg.audited then AfterUpdate(c.cfg.lib, old(c.rows), entry.Value(), c.req.finish)
        else old(c.rows)
  {
    if c.cfg.audited {
      entry.duration := c.req.elapsed;
      var _ := c.Update(entry.Value());
    }
  }

  /** The request has ended with `answer`: the entry is complete, the row updated, and the client answered. */
  ghost predicate Concluded(w: ResponseWriter, c: Collaborators, entry: AuditEntry, before: Entry, rows: Table,
      calls: seq<Call>, answer: Answer)
    reads w, c, entry
  {
    && entry.Value() == Complete(c.cfg, c.req, before, answer)
    && c.calls == calls + Interleaving.Suffix(c.cfg)
    && c.rows == (if c.cfg.audited then AfterUpdate(c.cfg.lib, rows, entry.Value(), c.req.finish) else rows)
    && w.sent == Some(RespondTo(c.cfg, c.req, answer))
  }

  method WriteAuditedError(w: ResponseWriter, c: Collaborators, entry: AuditEntry, refusal: Refusal)
    requires Ready(w, c)
    modifies w, c, entry
    ensures Concluded(w, c, entry, old(entry.Value()), old(c.rows), old(c.calls), Refuse(refusal))
  {
    hide FromBytes, Kept, AfterUpdate, Interleaving.Suffix;
    var payload := c.cfg.lib.errorJson(refusal.code, refusal.message);
    JsonHeaderIsCanonical();
    var headers := SanitizedHeaders(JSON_HEADER, DROPPED_FROM_RESPONSE_AUDIT);
    entry.response := ResponseHalf(refusal.status, headers,
        FromBytes(payload, JSON_TYPE, c.cfg.auditLimit, c.cfg.lib.normalize));
    entry.errorCode := refusal.code;
    entry.errorMessage := refusal.message;
    FinishAudit(c, entry);
    WriteJson(w, refusal.status, payload);
  }

  method WriteAuditedJson(w: ResponseWriter, c: Collaborators, entry: AuditEntry, body: Bytes)
    requires Ready(w, c)
    modifies w, c, entry
    ensures Concluded(w, c, entry, old(entry.Value()), old(c.rows), old(c.calls), Document(body))
  {
    hide FromBytes, Kept, AfterUpdate, Interleaving.Suffix;
    JsonHeaderIsCanonical();
    var headers := SanitizedHeaders(JSON_HEADER, DROPPED_FROM_RESPONSE_AUDIT);
    entry.response := ResponseHalf(200, headers, FromBytes(body, JSON_TYPE, c.cfg.auditLimit, c.cfg.lib.normalize));
    FinishAudit(c, entry);
    WriteJson(w, 200, body);
  }

  /** The end of `handleProxy`: the row is completed before the response is written. */
  method WriteUpstreamResponse(w: ResponseWriter, c: Collaborators, entry: AuditEntry, url: Url, status: Status,
      header: Header, body: Bytes)
    requires Ready(w, c) && CanonicalKeys(header)
    modifies w, c, entry
    ensures Concluded(w, c, entry, old(entry.Value()), old(c.rows), old(c.calls), Relay(url, status, header, body))
  {
    hide FromResponse, Kept, AfterUpdate, Interleaving.Suffix, CanonicalKeys, ResponseHeader, IsRelayed;
    entry.upstreamUrl := c.cfg.lib.urlText(url);
    var headers := SanitizedHeaders(header, DROPPED_FROM_RESPONSE_AUDIT);
    entry.response := ResponseHalf(status, headers,
        FromResponse(body, Get(header, CONTENT_TYPE), c.cfg.auditLimit, c.cfg.lib.normalize));
    FinishAudit(c, entry);
    w.header := CopyResponseHeaders(w.header, header);
    w.WriteHeader(status);
    assert [] + body == body;
    w.Write(body);
  }

  // ------------------------------------------------------------ the handlers

  /** What the HTTP library hands a handler: canonical header keys; and `token` is the token extraction finds. */
  ghost predicate WellFormed(cfg: Config, req: Request) {
    && CanonicalKeys(req.header)
    && (req.upstream.Answered? ==> CanonicalKeys(req.upstream.header))
    && IsAccessToken(Get(req.header, AUTHORIZATION), req.cookies, cfg.cookieName, cfg.lib.json, req.token)
  }

  /** The handler has left behind what becomes of its request by itself. */
  ghost predicate Served(w: ResponseWriter, c: Collaborators, before: Table)
    requires c.cfg.maxBody <= MAX_INT64
    reads w, c
  {
    var inserted := c.cfg.audited && Inserts(c.cfg.lib, before, StartEntry(c.cfg, c.req), c.req.start);
    var p := Outcome(c.cfg, c.req, inserted);
    && w.sent == p.response
    && c.calls == p.calls
    && c.rows == if inserted then before[c.req.id := Interleaving.RowOf(c.cfg, p)] else before
  }

  lemma RefusedIsServed(w: ResponseWriter, c: Collaborators, before: Table)
    requires c.cfg.maxBody <= MAX_INT64 && c.cfg.audited
    requires !(Inserts(c.cfg.lib, before, StartEntry(c.cfg, c.req), c.req.start) && c.req.start == Acked)
    requires c.calls == Interleaving.Prefix(c.cfg) && w.sent == Some(Unaudited(c.cfg, c.req))
    requires c.rows == AfterInsert(c.cfg.lib, before, StartEntry(c.cfg, c.req), c.req.start)
    ensures Served(w, c, before)
  {
    hide RequestHalfOf, Decide, RespondTo, Unaudited, Inserted, FinalEntry;
  }

  /** The rows and calls after `Start` has let a handler go on. */
  ghost predicate Admitted(cfg: Config, req: Request, before: Table, rows: Table)
    requires cfg.maxBody <= MAX_INT64
  {
    var entry := StartEntry(cfg, req);
    && (cfg.audited ==> Inserts(cfg.lib, before, entry, req.start) && req.start == Acked)
    && rows == if cfg.audited then AfterInsert(cfg.lib, before, entry, req.start) else before
  }

  lemma ConcludedIsServed(w: ResponseWriter, c: Collaborators, entry: AuditEntry, atEnd: Entry, before: Table,
      rows: Table, calls: seq<Call>)
    requires c.cfg.maxBody <= MAX_INT64 && Admitted(c.cfg, c.req, before, rows)
    requires var d := Decide(c.cfg, c.req);
             && atEnd == StartEntry(c.cfg, c.req).(route := d.route, authResult := d.authResult, userId := d.userId)
             && calls == Interleaving.Prefix(c.cfg) + d.calls
             && Concluded(w, c, entry, atEnd, rows, calls, d.answer)
    ensures Served(w, c, before)
  {
    hide StartEntry, Decide, RespondTo, Unaudited, Complete, Interleaving.RowOf, Interleaving.Completes, AfterUpdate,
        AfterInsert, Inserts;
    assert entry.Value() == FinalEntry(c.cfg, c.req);
    if c.cfg.audited {
      ConcludedRows(c.cfg, c.req, before, rows);
    }
  }

  lemma ConcludedRows(cfg: Config, req: Request, before: Table, rows: Table)
    requires cfg.maxBody <= MAX_INT64 && cfg.audited && Admitted(cfg, req, before, rows)
    ensures AfterUpdate(cfg.lib, rows, FinalEntry(cfg, req), req.finish)
            == before[req.id := Interleaving.RowOf(cfg, Outcome(cfg, req, true))]
  {
    hide StartEntry, FinalEntry, Decide, RespondTo, Unaudited, Inserted, InsertFits, UpdateFits, Updated;
    EntriesKeepId(cfg, req);
  }

  lemma EntriesKeepId(cfg: Config, req: Request)
    requires cfg.maxBody <= MAX_INT64
    ensures StartEntry(cfg, req).id == req.id && FinalEntry(cfg, req).id == req.id
  {
    hide RequestHalfOf, Decide, ResponseHalfOf;
  }

  method Extract(cfg: Config, req: Request) returns (token: Option<Bytes>)
    requires WellFormed(cfg, req)
    ensures token == req.token
  {
    hide IsCookieToken, BearerToken, JarOf, CanonicalKeys, IsAccessToken;
    token := ExtractAccessToken(Get(req.header, AUTHORIZATION), req.cookies, cfg.cookieName, cfg.lib.json);
    AccessTokenIff(Get(req.header, AUTHORIZATION), req.cookies, cfg.cookieName, cfg.lib.json, token);
    AccessTokenIff(Get(req.header, AUTHORIZATION), req.cookies, cfg.cookieName, cfg.lib.json, req.token);
    if BearerToken(Get(req.header, AUTHORIZATION)).None? {
      CookieTokenIsUnique(JarOf(req.cookies), cfg.cookieName, cfg.lib.json, token, req.token);
    }
  }

  /** What stops a request on its way to a user, before the verifier's verdict or by it. */
  function Stop(cfg: Config, req: Request): Option<AuthRefusal> {
    if SessionRefusal(cfg, req).Some? then SessionRefusal(cfg, req) else VerdictRefusal(req.verdict)
  }

  function Asked(cfg: Config, req: Request): seq<Call> {
    if SessionRefusal(cfg, req).Some? then [] else [Verify(req.token.value)]
  }

  method RefuseSession(w: ResponseWriter, c: Collaborators, entry: AuditEntry, authResult: Bytes, refusal: Refusal)
    requires Ready(w, c)
    modifies w, c, entry
    ensures Concluded(w, c, entry, old(entry.Value()).(authResult := authResult), old(c.rows), old(c.calls),
        Refuse(refusal))
  {
    hide Concluded;
    entry.authResult := authResult;
    WriteAuditedError(w, c, entry, refusal);
  }

  /** The checks of token, verifier and verdict, which every handler makes; a refusal ends the request. */
  method Authenticate(w: ResponseWriter, c: Collaborators, entry: AuditEntry) returns (user: Option<Id>)
    requires Ready(w, c) && WellFormed(c.cfg, c.req)
    modifies w, c, entry
    ensures user.Some? <==> Stop(c.cfg, c.req).None?
    ensures user.Some? ==>
              && Ready(w, c) && c.rows == old(c.rows) && c.calls == old(c.calls) + Asked(c.cfg, c.req)
              && c.req.verdict == User(user.value) && c.req.token.Some?
              && entry.Value() == old(entry.Value()).(authResult := AUTHENTICATED, userId := user)
    ensures user.None? ==>
              var stop := Stop(c.cfg, c.req).value;
              Concluded(w, c, entry, old(entry.Value()).(authResult := stop.authResult),
                        old(c.rows), old(c.calls) + Asked(c.cfg, c.req), Refuse(stop.refusal))
  {
    hide Concluded, WellFormed;
    assert old(c.calls) + [] == old(c.calls);
    var token := Extract(c.cfg, c.req);
    if token.None? {
      RefuseSession(w, c, entry, MISSING_SESSION, LOGIN_REQUIRED);
      return None;
    }
    if !c.cfg.hasVerifier {
      RefuseSession(w, c, entry, VERIFIER_MISSING, AUTH_UNAVAILABLE);
      return None;
    }
    var verdict := c.Ask(token.value);
    if verdict.InvalidSession? {
      RefuseSession(w, c, entry, INVALID_SESSION, LOGIN_REQUIRED);
      return None;
    }
    if verdict.AuthUnavailable? {
      RefuseSession(w, c, entry, VERIFICATION_FAILED, AUTH_UNAVAILABLE);
      return None;
    }
    entry.authResult := AUTHENTICATED;
    entry.userId := Some(verdict.id);
    return Some(verdict.id);
  }

  /** A request refused for its session is served, whichever handler it had. */
  lemma RefusedSession(w: ResponseWriter, c: Collaborators, entry: AuditEntry, e: Entry, before: Table, rows: Table)
    requires c.cfg.maxBody <= MAX_INT64 && Admitted(c.cfg, c.req, before, rows)
    requires c.req.handler.Proxy? ==> ProxyRefusal(c.cfg, c.req).None?
    requires e == StartEntry(c.cfg, c.req).(route := Interleaving.RouteOf(c.cfg, c.req)) && Stop(c.cfg, c.req).Some?
    requires var stop := Stop(c.cfg, c.req).value;
             Concluded(w, c, entry, e.(authResult := stop.authResult), rows,
                       Interleaving.Prefix(c.cfg) + Asked(c.cfg, c.req), Refuse(stop.refusal))
    ensures Served(w, c, before)
  {
    hide Served, Concluded, Admitted, ReadBody, MatchRoute, RequestHalfOf;
    assert Decide(c.cfg, c.req).calls == Asked(c.cfg, c.req);
    var atEnd := e.(authResult := Stop(c.cfg, c.req).value.authResult);
    ConcludedIsServed(w, c, entry, atEnd, before, rows, Interleaving.Prefix(c.cfg) + Asked(c.cfg, c.req));
  }

  /** The request half of a new entry, before any body is read. */
  method BeginAudit(w: ResponseWriter, c: Collaborators, route: Bytes, body: AuditBody) returns (entry: AuditEntry)
    requires w.Valid() && w.sent.None? && w.header == map[] && WellFormed(c.cfg, c.req)
    modifies w
    ensures fresh(entry) && Ready(w, c)
    ensures var req := c.req;
            entry.Value() == Entry(
              req.id,
              RequestHalf(req.method_, req.path, req.query, req.remote, ClientRequestId(Get(req.header, REQUEST_ID)),
                          Kept(req.header, DROPPED_FROM_REQUEST_AUDIT), body),
              route, "", None, NOT_CHECKED, NO_RESPONSE, "", "", 0)
  {
    hide ClientRequestId, IsAccessToken, Kept, DROPPED_FROM_REQUEST_AUDIT;
    var req := c.req;
    w.header := w.header[REQUEST_ID := [c.cfg.lib.idText(req.id)]];
    var headers := SanitizedHeaders(req.header, DROPPED_FROM_REQUEST_AUDIT);
    var clientId := ClientRequestId(Get(req.header, REQUEST_ID));
    entry := new AuditEntry(req.id, RequestHalf(req.method_, req.path, req.query, req.remote, clientId, headers, body),
        route);
  }

  /** `handleProxy`. Each of its three ways on from reading the body begins with `Start`. */
  method HandleProxy(w: ResponseWriter, c: Collaborators)
    requires c.cfg.maxBody <= MAX_INT64 && c.req.handler.Proxy? && WellFormed(c.cfg, c.req)
    requires w.Valid() && w.sent.None? && w.header == map[] && c.calls == []
    modifies w, c
    ensures Served(w, c, old(c.rows))
  {
    hide Served, Concluded, ReadProxyRequestBody, Inserts, AfterInsert, MatchRoute, BuildTargetUrl, ForwardedHeader,
        ClientRequestId, Kept, CanonicalKeys, IsAccessToken;
    var cfg, req := c.cfg, c.req;
    ghost var before := c.rows;
    var entry := BeginAudit(w, c, "", ZERO_BODY);
    var reading := ReadProxyRequestBody(req.body, cfg.maxBody, Get(req.header, CONTENT_TYPE), cfg.auditLimit,
        cfg.lib.normalize);
    if reading.Reading? {
      entry.request := entry.request.(body := reading.audit);
    }
    assert entry.Value() == StartEntry(cfg, req);
    var ok := StartAuditOrFail(w, c, entry);
    if !ok {
      RefusedIsServed(w, c, before);
    } else if reading.Unreadable? {
      RefuseEarly(w, c, entry, NOT_CHECKED, UNREADABLE_BODY, before);
    } else if reading.tooLarge {
      RefuseEarly(w, c, entry, NOT_CHECKED, BODY_TOO_LARGE, before);
    } else {
      var route := MatchRoute(cfg.routes, req.path);
      if route.None? {
        RefuseEarly(w, c, entry, NO_ROUTE, ROUTE_NOT_FOUND, before);
      } else {
        entry.route := route.value.name;
        HandleMatched(w, c, entry, route.value, reading.body, before);
      }
    }
  }

  /** A refusal before the session is looked at. */
  method RefuseEarly(w: ResponseWriter, c: Collaborators, entry: AuditEntry, authResult: Bytes, refusal: Refusal,
      ghost before: Table)
    requires c.cfg.maxBody <= MAX_INT64 && c.req.handler.Proxy? && Ready(w, c)
    requires entry.Value() == StartEntry(c.cfg, c.req) && c.calls == Interleaving.Prefix(c.cfg) &&
        Admitted(c.cfg, c.req, before, c.rows)
    requires ProxyRefusal(c.cfg, c.req) == Some(AuthRefusal(authResult, refusal))
    modifies w, c, entry
    ensures Served(w, c, before)
  {
    hide Served, Concluded, ProxyRefusal, Admitted, RequestHalfOf;
    ghost var rows, calls := c.rows, c.calls;
    assert calls + [] == calls;
    entry.authResult := authResult;
    ghost var atEnd := entry.Value();
    WriteAuditedError(w, c, entry, refusal);
    ConcludedIsServed(w, c, entry, atEnd, before, rows, calls);
  }

  method HandleMatched(w: ResponseWriter, c: Collaborators, entry: AuditEntry, route: Route, body: Bytes,
      ghost before: Table)
    requires c.cfg.maxBody <= MAX_INT64 && c.req.handler.Proxy? && Ready(w, c) && WellFormed(c.cfg, c.req)
    requires ProxyRefusal(c.cfg, c.req).None? && MatchRoute(c.cfg.routes, c.req.path) == Some(route) &&
        ReadBody(c.cfg, c.req).body == body
    requires entry.Value() == StartEntry(c.cfg, c.req).(route := route.name)
    requires c.calls == Interleaving.Prefix(c.cfg) && Admitted(c.cfg, c.req, before, c.rows)
    modifies w, c, entry
    ensures Served(w, c, before)
  {
    hide IsOutgoing, Served, Concluded, ProxyRefusal, Admitted, StartEntry, ReadBody, MatchRoute, BuildTargetUrl,
        CanonicalKeys,
        IsAccessToken;
    var cfg, req := c.cfg, c.req;
    ghost var rows, calls := c.rows, c.calls;
    ghost var e := entry.Value();
    var user := Authenticate(w, c, entry);
    if user.None? {
      RefusedSession(w, c, entry, e, before, rows);
      return;
    }
    var url := BuildTargetUrl(route, req.path, req.query);
    var header := ForwardHeaders(req.header, VouchedFor(cfg, req, user.value));
    var upstream := c.Send(req.method_, url, header, body);
    ghost var atEnd, made := entry.Value(), c.calls;
    match upstream {
      case UpstreamFailed => WriteAuditedError(w, c, entry, UPSTREAM_UNAVAILABLE);
      case Answered(status, header, body) => WriteUpstreamResponse(w, c, entry, url, status, header, body);
    }
    assert Decide(cfg, req).answer == UpstreamAnswer(route, req);
    assert made == Interleaving.Prefix(cfg) + Decide(cfg, req).calls;
    ConcludedIsServed(w, c, entry, atEnd, before, rows, made);
  }

  /** `authorizeAuditLogAdmin`: a session as for any request, of a user on the list of administrators. */
  method AuthorizeAdmin(w: ResponseWriter, c: Collaborators, entry: AuditEntry, ghost before: Table)
      returns (user: Option<Id>)
    requires c.cfg.maxBody <= MAX_INT64 && c.req.handler.Admin? && Ready(w, c) && WellFormed(c.cfg, c.req)
    requires entry.Value() == StartEntry(c.cfg, c.req)
    requires c.calls == Interleaving.Prefix(c.cfg) && Admitted(c.cfg, c.req, before, c.rows)
    modifies w, c, entry
    ensures user.None? ==> Served(w, c, before)
    ensures user.Some? ==>
              && Stop(c.cfg, c.req).None? && c.req.verdict == User(user.value) && user.value in c.cfg.admins
              && Ready(w, c) && c.rows == old(c.rows) && c.calls == old(c.calls) + Asked(c.cfg, c.req)
              && entry.Value() == old(entry.Value()).(authResult := AUTHENTICATED, userId := Some(c.req.verdict.id))
  {
    hide Served, Concluded, Admitted, WellFormed, RequestHalfOf;
    ghost var rows := c.rows;
    ghost var e := entry.Value();
    user := Authenticate(w, c, entry);
    if user.None? {
      RefusedSession(w, c, entry, e, before, rows);
    } else if user.value !in c.cfg.admins {
      entry.authResult := NOT_ADMIN;
      ghost var atEnd, calls := entry.Value(), c.calls;
      WriteAuditedError(w, c, entry, FORBIDDEN);
      assert calls == Interleaving.Prefix(c.cfg) + Decide(c.cfg, c.req).calls;
      ConcludedIsServed(w, c, entry, atEnd, before, rows, calls);
      user := None;
    }
  }

  /** The four administrators' handlers, which differ only in what they check and what they do. */
  method HandleAdmin(w: ResponseWriter, c: Collaborators)
    requires c.cfg.maxBody <= MAX_INT64 && c.req.handler.Admin? && WellFormed(c.cfg, c.req)
    requires w.Valid() && w.sent.None? && w.header == map[] && c.calls == []
    modifies w, c
    ensures Served(w, c, old(c.rows))
  {
    hide Served, Concluded, WellFormed, Inserts, AfterInsert, ClientRequestId, Kept, TaskRefusal, TaskAnswer,
        DROPPED_FROM_REQUEST_AUDIT;
    var cfg, task := c.cfg, c.req.handler.task;
    ghost var before := c.rows;
    var entry := BeginAudit(w, c, TaskRoute(task), EMPTY_BODY);
    assert entry.Value() == StartEntry(cfg, c.req);
    var ok := StartAuditOrFail(w, c, entry);
    if !ok {
      RefusedIsServed(w, c, before);
      return;
    }
    ghost var rows := c.rows;
    var user := AuthorizeAdmin(w, c, entry, before);
    if user.None? {
      return;
    }
    hide StartEntry;
    ghost var atEnd := entry.Value();
    var refusal := TaskRefusal(cfg, task);
    var answer;
    if refusal.Some? {
      answer := Refuse(refusal.value);
    } else {
      answer := c.DoTask(task);
    }
    ghost var calls := c.calls;
    TaskIsAnswered(task);
    if answer.Refuse? {
      WriteAuditedError(w, c, entry, answer.refusal);
    } else {
      WriteAuditedJson(w, c, entry, answer.body);
    }
    assert calls == Interleaving.Prefix(cfg) + Decide(cfg, c.req).calls;
    ConcludedIsServed(w, c, entry, atEnd, before, rows, calls);
  }

  lemma TaskIsAnswered(task: Task)
    ensures !TaskAnswer(task).Relay?
  {
  }
}
