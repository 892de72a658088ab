/**
 * What a client is sent, and what its row then says, for every cause there is: told from the request itself and from
 * what the collaborators did, in the words of the interface.
 */
module Answers {
  import opened Wrappers
  import opened GoStrings
  import opened Routing
  import opened Headers
  import opened AuditBodies
  import opened Lifecycle
  import opened Interleaving
  import Utf8
  import opened AuditTrail

  // ------------------------------------------------------------ causes

  /** Why a request is answered as it is, in the order in which the causes are looked for. */
  datatype Cause =
    | BodyBroken | BodyTooLarge | NoRoute
    | NoSession | NoVerifier | BadSession | VerifierDown
    | UpstreamDown | Relayed
    | NotAdmin | BadQuery(message: Bytes) | BadRequestId | BadUserId | BadOperationId | NoStore
    | StoreFailed | NoEntry | ReplayFailed(refusal: Refusal) | NotEncoded | Made

  /** What is wrong with a session: no token, nobody to ask, or a verdict against it. */
  function SessionCause(cfg: Config, req: Request): Option<Cause> {
    if req.token == None then Some(NoSession)
    else if !cfg.hasVerifier then Some(NoVerifier)
    else if req.verdict == InvalidSession then Some(BadSession)
    else if req.verdict == AuthUnavailable then Some(VerifierDown)
    else None
  }

  function PayloadCause(payload: Payload): Cause {
    if payload == None then NotEncoded else Made
  }

  function TaskCause(cfg: Config, task: Task): Cause {
    match task
    case AuditList(query, listed) =>
      if query.Err? then BadQuery(query.error)
      else if !cfg.hasStore then NoStore
      else if listed == None then StoreFailed
      else PayloadCause(listed.value)
    case AuditDetail(idParses, got) =>
      if !idParses then BadRequestId
      else if !cfg.hasStore then NoStore
      else if got.Err? then StoreFailed
      else if got.value == None then NoEntry
      else PayloadCause(got.value.value)
    case PlayerSupport(playerParses, page) => if !playerParses then BadUserId else PayloadCause(page)
    case PullReplay(userParses, operationParses, replay) =>
      if !userParses then BadUserId
      else if !operationParses then BadOperationId
      else if replay.Err? then ReplayFailed(replay.error)
      else PayloadCause(replay.value)
  }

  /** A request whose body breaks within the limit, or exceeds it; the largest 64-bit limit notices neither. */
  predicate Breaks(cfg: Config, req: Request) {
    req.body.Stream? && req.body.broken && |req.body.data| <= cfg.maxBody < MAX_INT64
  }

  predicate Exceeds(cfg: Config, req: Request) {
    req.body.Stream? && |req.body.data| > cfg.maxBody && cfg.maxBody < MAX_INT64
  }

  ghost predicate Unrouted(cfg: Config, req: Request) {
    forall r <- cfg.routes :: req.path != r.prefix && !(r.prefix + "/" <= req.path)
  }

  ghost function CauseOf(cfg: Config, req: Request): Cause {
    match req.handler
    case Proxy =>
      if Breaks(cfg, req) then BodyBroken
      else if Exceeds(cfg, req) then BodyTooLarge
      else if Unrouted(cfg, req) then NoRoute
      else if SessionCause(cfg, req).Some? then SessionCause(cfg, req).value
      else if req.upstream == UpstreamFailed then UpstreamDown
      else Relayed
    case Admin(task) =>
      if SessionCause(cfg, req).Some? then SessionCause(cfg, req).value
      else if req.verdict.User? && req.verdict.id !in cfg.admins then NotAdmin
      else TaskCause(cfg, task)
  }

  // ------------------------------------------------------------ the interface

  /** Status, code and message of each error. */
  function ErrorOf(c: Cause): Refusal
    requires c != Relayed && c != Made
  {
    match c
    case BodyBroken => Refusal(400, "invalid_request_body", "request body could not be read")
    case BodyTooLarge => Refusal(413, "request_too_large", "request body is too large")
    case NoRoute => Refusal(404, "not_found", "route not found")
    case NoSession | BadSession => Refusal(401, "unauthorized", "login is required")
    case NoVerifier | VerifierDown => Refusal(503, "auth_unavailable", "auth verifier is unavailable")
    case UpstreamDown => Refusal(502, "upstream_unavailable", "upstream service is unavailable")
    case ReplayFailed(refusal) => refusal
    case _ => AdminErrorOf(c)
  }

  /** The errors of administrators' requests: what they ask for, and what came of it. */
  function AdminErrorOf(c: Cause): Refusal {
    match c
    case NotAdmin => Refusal(403, "forbidden", "admin access is required")
    case BadQuery(message) => Refusal(400, "invalid_query", message)
    case BadRequestId => Refusal(400, "invalid_request_id", "request_id must be a UUID")
    case BadUserId => Refusal(400, "invalid_user_id", "user_id must be a UUID")
    case BadOperationId => Refusal(400, "invalid_operation_id", "operation_id must be a UUID")
    case _ => WorkErrorOf(c)
  }

  function WorkErrorOf(c: Cause): Refusal {
    match c
    case NoStore => Refusal(503, "audit_log_unavailable", "audit log store is unavailable")
    case StoreFailed => Refusal(503, "audit_log_unavailable", "audit logs are unavailable")
    case NoEntry => Refusal(404, "not_found", "audit log entry was not found")
    case _ => Refusal(500, "internal_error", "response could not be encoded")
  }

  /** What the row of a request says about its authentication. */
  function AuthResultOf(c: Cause): Bytes {
    match c
    case BodyBroken | BodyTooLarge => "not_checked"
    case NoRoute => "route_not_found"
    case NoSession => "missing_session"
    case NoVerifier => "auth_verifier_missing"
    case BadSession => "invalid_session"
    case VerifierDown => "auth_verification_failed"
    case NotAdmin => "forbidden"
    case _ => "authenticated"
  }

  /** The calls between those of the audit sink: how far a request gets. */
  ghost predicate Reaches(c: Cause, req: Request, calls: seq<Call>) {
    match c
    case BodyBroken | BodyTooLarge | NoRoute | NoSession | NoVerifier => calls == []
    case BadSession | VerifierDown | NotAdmin | BadQuery(_) | BadRequestId | BadUserId | BadOperationId | NoStore =>
      req.token.Some? && calls == [Verify(req.token.value)]
    case UpstreamDown | Relayed =>
      req.token.Some? && |calls| == 2 && calls[0] == Verify(req.token.value) && calls[1].Forward?
    case _ => req.token.Some? && calls == [Verify(req.token.value), Work]
  }

  function DocumentOf(task: Task): Payload {
    match task
    case AuditList(_, listed) => if listed.Some? then listed.value else None
    case AuditDetail(_, got) => if got.Ok? && got.value.Some? then got.value.value else None
    case PlayerSupport(_, page) => page
    case PullReplay(_, _, replay) => if replay.Ok? then replay.value else None
  }

  // ------------------------------------------------------------ the decision, by its cause

  lemma RoutedIff(cfg: Config, req: Request)
    ensures Unrouted(cfg, req) <==> MatchRoute(cfg.routes, req.path).None?
  {
    UnroutedIn(cfg.routes, req.path);
  }

  lemma {:induction false} UnroutedIn(routes: seq<Route>, path: Bytes)
    ensures MatchRoute(routes, path).None? <==> forall r <- routes :: path != r.prefix && !(r.prefix + "/" <= path)
  {
    if routes != [] {
      UnroutedIn(routes[1..], path);
      assert routes == [routes[0]] + routes[1..];
    }
  }

  lemma ReadingByCause(cfg: Config, req: Request)
    requires cfg.maxBody <= MAX_INT64
    ensures ReadBody(cfg, req).Unreadable? <==> Breaks(cfg, req)
    ensures ReadBody(cfg, req).Reading? ==> (ReadBody(cfg, req).tooLarge <==> Exceeds(cfg, req))
  {
    hide FromBytesWithOriginalSize;
  }

  lemma EarlyByCause(cfg: Config, req: Request)
    requires cfg.maxBody <= MAX_INT64 && req.handler.Proxy?
    ensures ProxyRefusal(cfg, req)
            == if Breaks(cfg, req) || Exceeds(cfg, req) || Unrouted(cfg, req)
               then Some(AuthRefusal(AuthResultOf(CauseOf(cfg, req)), ErrorOf(CauseOf(cfg, req)))) else None
  {
    hide ReadBody, MatchRoute, Unrouted, Breaks, Exceeds;
    ReadingByCause(cfg, req);
    RoutedIff(cfg, req);
  }

  lemma SessionByCause(cfg: Config, req: Request)
    ensures SessionCause(cfg, req).None? <==> SessionRefusal(cfg, req).None? && VerdictRefusal(req.verdict).None?
    ensures SessionRefusal(cfg, req).Some? ==>
              var c := SessionCause(cfg, req).value;
              && (c == NoSession || c == NoVerifier)
              && SessionRefusal(cfg, req).value == AuthRefusal(AuthResultOf(c), ErrorOf(c))
    ensures SessionRefusal(cfg, req).None? && VerdictRefusal(req.verdict).Some? ==>
              var c := SessionCause(cfg, req).value;
              && (c == BadSession || c == VerifierDown)
              && VerdictRefusal(req.verdict).value == AuthRefusal(AuthResultOf(c), ErrorOf(c))
  {
  }

  /** An answer that fits its cause. */
  ghost predicate Fits(req: Request, c: Cause, answer: Answer) {
    if c == Relayed then
      req.upstream.Answered? && answer.Relay? && answer.status == req.upstream.status
      && answer.header == req.upstream.header && answer.body == req.upstream.body
    else if c == Made then
      req.handler.Admin? && DocumentOf(req.handler.task).Some? && answer == Document(DocumentOf(req.handler.task).value)
    else answer == Refuse(ErrorOf(c))
  }

  /** A decision that fits its cause. */
  ghost predicate IsFor(req: Request, c: Cause, d: Decision) {
    d.authResult == AuthResultOf(c) && Reaches(c, req, d.calls) && Fits(req, c, d.answer)
  }

  lemma RefusedTask(cfg: Config, task: Task)
    requires TaskRefusal(cfg, task).Some?
    ensures var c := TaskCause(cfg, task);
            && (c.BadQuery? || c == BadRequestId || c == BadUserId || c == BadOperationId || c == NoStore)
            && TaskRefusal(cfg, task) == Some(ErrorOf(c))
  {
  }

  lemma AcceptedTask(cfg: Config, req: Request)
    requires req.handler.Admin? && TaskRefusal(cfg, req.handler.task).None?
    ensures var c := TaskCause(cfg, req.handler.task);
            && (c == StoreFailed || c == NoEntry || c.ReplayFailed? || c == NotEncoded || c == Made)
            && Fits(req, c, TaskAnswer(req.handler.task))
  {
  }

  lemma TaskByCause(cfg: Config, req: Request)
    requires req.handler.Admin? && req.verdict.User? && req.token.Some?
    ensures var d, task := DecideTask(cfg, req.handler.task, req.verdict.id), req.handler.task;
            var c := if req.verdict.id !in cfg.admins then NotAdmin else TaskCause(cfg, task);
            IsFor(req, c, d.(calls := [Verify(req.token.value)] + d.calls))
  {
    hide TaskCause, TaskRefusal, TaskAnswer, WorkErrorOf;
    var task := req.handler.task;
    assert [Verify(req.token.value)] + [Work] == [Verify(req.token.value), Work];
    assert [Verify(req.token.value)] + [] == [Verify(req.token.value)];
    if TaskRefusal(cfg, task).Some? {
      RefusedTask(cfg, task);
    } else {
      AcceptedTask(cfg, req);
    }
  }

  /** What a session lacks is said of it, whichever handler has asked. */
  lemma RefusedByCause(cfg: Config, req: Request, route: Bytes, then_: Id -> Decision)
    requires SessionCause(cfg, req).Some?
    ensures IsFor(req, SessionCause(cfg, req).value, DecideSession(cfg, req, route, then_))
  {
    SessionByCause(cfg, req);
  }

  lemma AcceptedSession(cfg: Config, req: Request, route: Bytes, then_: Id -> Decision)
    requires SessionCause(cfg, req).None?
    ensures req.token.Some? && req.verdict.User?
    ensures var d := then_(req.verdict.id);
            DecideSession(cfg, req, route, then_) == d.(calls := [Verify(req.token.value)] + d.calls)
  {
  }

  lemma ProxyByCause(cfg: Config, req: Request)
    requires cfg.maxBody <= MAX_INT64 && req.handler.Proxy?
    ensures IsFor(req, CauseOf(cfg, req), Decide(cfg, req))
  {
    hide ReadBody, MatchRoute, Unrouted, Breaks, Exceeds, BuildTargetUrl, ForwardedHeader, SessionCause, DecideSession;
    EarlyByCause(cfg, req);
    if ProxyRefusal(cfg, req).None? {
      var route := MatchRoute(cfg.routes, req.path).value;
      var then_ := (user: Id) => Decision(route.name, AUTHENTICATED, Some(user), [ForwardCall(cfg, req, route, user)],
                                          UpstreamAnswer(route, req));
      assert Decide(cfg, req) == DecideSession(cfg, req, route.name, then_);
      if SessionCause(cfg, req).Some? {
        RefusedByCause(cfg, req, route.name, then_);
      } else {
        AcceptedSession(cfg, req, route.name, then_);
      }
    }
  }

  lemma AdminByCause(cfg: Config, req: Request)
    requires cfg.maxBody <= MAX_INT64 && req.handler.Admin?
    ensures IsFor(req, CauseOf(cfg, req), Decide(cfg, req))
  {
    hide SessionCause, DecideSession, TaskCause, DecideTask, IsFor;
    var task := req.handler.task;
    var then_ := (user: Id) => DecideTask(cfg, task, user);
    assert Decide(cfg, req) == DecideSession(cfg, req, TaskRoute(task), then_);
    if SessionCause(cfg, req).Some? {
      RefusedByCause(cfg, req, TaskRoute(task), then_);
    } else {
      AcceptedSession(cfg, req, TaskRoute(task), then_);
      TaskByCause(cfg, req);
    }
  }

  lemma DecisionByCause(cfg: Config, req: Request)
    requires cfg.maxBody <= MAX_INT64
    ensures IsFor(req, CauseOf(cfg, req), Decide(cfg, req))
  {
    hide IsFor, CauseOf, Decide;
    if req.handler.Proxy? {
      ProxyByCause(cfg, req);
    } else {
      AdminByCause(cfg, req);
    }
  }

  // ------------------------------------------------------------ what the client is sent

  /** What the gateway itself has set: the request id, under which the row is found. */
  function OwnValues(cfg: Config, req: Request, key: Bytes): seq<Bytes> {
    if key == "X-Request-Id" then [cfg.lib.idText(req.id)] else []
  }

  /** The header of a document of the gateway's own. */
  ghost predicate IsJson(cfg: Config, req: Request, header: Header) {
    forall key :: Values(header, key) == if key == "Content-Type" then ["application/json"]
        else OwnValues(cfg, req, key)
  }

  /** The header of an upstream answer: behind what the gateway has set comes what the upstream sent, key by key. */
  ghost predicate IsRelayedTo(cfg: Config, req: Request, header: Header, upstream: Header) {
    forall key :: Values(header, key) == OwnValues(cfg, req, key) + if IsWithheld(key) then []
        else Values(upstream, key)
  }

  ghost predicate IsErrorResponse(cfg: Config, req: Request, sent: Response, refusal: Refusal) {
    && sent.status == refusal.status && sent.body == cfg.lib.errorJson(refusal.code, refusal.message)
    && IsJson(cfg, req, sent.header)
  }

  ghost predicate Sends(cfg: Config, req: Request, c: Cause, sent: Response) {
    if c == Relayed then
      req.upstream.Answered? && sent.status == req.upstream.status && sent.body == req.upstream.body
      && IsRelayedTo(cfg, req, sent.header, req.upstream.header)
    else if c == Made then
      req.handler.Admin? && sent.status == 200 && DocumentOf(req.handler.task) == Some(sent.body)
      && IsJson(cfg, req, sent.header)
    else IsErrorResponse(cfg, req, sent, ErrorOf(c))
  }

  lemma KeyLengths()
    ensures |CONTENT_TYPE| == |REQUEST_ID| == 12 && CONTENT_TYPE[0] == 'C' && REQUEST_ID[0] == 'X'
  {
  }

  lemma JsonHeaderIs(cfg: Config, req: Request, status: Lifecycle.Status, body: Bytes)
    ensures IsJson(cfg, req, JsonResponse(cfg, req, status, body).header)
  {
    KeyLengths();
  }

  lemma RelayedHeaderIs(cfg: Config, req: Request, upstream: Header)
    ensures IsRelayedTo(cfg, req, ResponseHeader(OwnHeader(cfg, req), upstream), upstream)
  {
    hide ResponseHeader, IsWithheld;
    ResponseIs(OwnHeader(cfg, req), upstream);
    assert forall key :: Values(OwnHeader(cfg, req), key) == OwnValues(cfg, req, key);
  }

  lemma RespondsByCause(cfg: Config, req: Request, c: Cause, answer: Answer)
    requires Fits(req, c, answer)
    ensures Sends(cfg, req, c, RespondTo(cfg, req, answer))
  {
    hide ErrorOf, IsJson, IsRelayedTo, ResponseHeader, JsonResponse, DocumentOf;
    match answer
    case Relay(_, status, header, body) => RelayedHeaderIs(cfg, req, header);
    case Refuse(r) =>
      var body := cfg.lib.errorJson(r.code, r.message);
      JsonHeaderIs(cfg, req, r.status, body);
      JsonResponseIs(cfg, req, r.status, body);
    case Document(body) =>
      JsonHeaderIs(cfg, req, 200, body);
      JsonResponseIs(cfg, req, 200, body);
  }

  lemma JsonResponseIs(cfg: Config, req: Request, status: Lifecycle.Status, body: Bytes)
    ensures JsonResponse(cfg, req, status, body).status == status && JsonResponse(cfg, req, status, body).body == body
  {
  }

  // ------------------------------------------------------------ what the row says

  /** A nullable column for a text that may be empty. */
  predicate IsColumnOf(column: Option<Bytes>, text: Bytes) {
    if text == [] then column == None else column == Some(text)
  }

  /** Whole milliseconds; a clock set back by less than one counts as none. */
  predicate IsMilliseconds(ms: int, elapsed: int) {
    if elapsed >= 0 then ms * 1_000_000 <= elapsed < (ms + 1) * 1_000_000 else ms == 0
  }

  /**
   * The document column: a whole body, not empty, whose type speaks of JSON in any letter case, as the library
   * renders it.
   */
  predicate IsDocumentOf(json: Option<Bytes>, body: Bytes, contentType: Bytes, limit: nat, normalize: Normalizer) {
    json == if body != [] && |body| <= limit && Contains(ToLower(contentType), "json") then normalize(body) else None
  }

  /** What a complete row says of the outcome. */
  ghost predicate Records(cfg: Config, req: Request, c: Cause, row: Row) {
    && row.authResult == AuthResultOf(c)
    && row.durationMs.Some? && IsMilliseconds(row.durationMs.value, req.elapsed)
    && row.response.Some?
    && if c == Relayed then
         req.upstream.Answered? && row.response.value.status == req.upstream.status
         && KeepsAllBut(row.response.value.headers, req.upstream.header, IsSecretOfResponse)
         && IsDocumentOf(row.response.value.body.json, req.upstream.body, Get(req.upstream.header, "Content-Type"),
              cfg.auditLimit, cfg.lib.normalize)
         && row.errorCode == None && row.errorMessage == None
       else
         row.response.value.headers == map["Content-Type" := ["application/json"]]
         && if c == Made then
              row.response.value.status == 200 && row.errorCode == None && row.errorMessage == None
            else
              row.response.value.status == ErrorOf(c).status
              && IsColumnOf(row.errorCode, ErrorOf(c).code) && IsColumnOf(row.errorMessage, ErrorOf(c).message)
  }

  lemma ResponseDocument(cfg: Config, req: Request)
    requires req.upstream.Answered?
    ensures var (header, body) := (req.upstream.header, req.upstream.body);
            IsDocumentOf(FromResponse(body, Get(header, CONTENT_TYPE), cfg.auditLimit, cfg.lib.normalize).json, body,
              Get(header, "Content-Type"), cfg.auditLimit, cfg.lib.normalize)
  {
    hide Get, FromResponse, FromBytesWithOriginalSize;
    var (header, body) := (req.upstream.header, req.upstream.body);
    PathsAgree(body, Get(header, CONTENT_TYPE), cfg.auditLimit, cfg.lib.normalize);
    JsonIsKept(body, Get(header, CONTENT_TYPE), cfg.auditLimit, |body|, cfg.lib.normalize);
  }

  lemma JsonHeaderIsKept()
    ensures Kept(JSON_HEADER, DROPPED_FROM_RESPONSE_AUDIT) == map["Content-Type" := ["application/json"]]
  {
    AuditKeeps(JSON_HEADER);
    assert !IsSecretOfResponse("Content-Type");
  }

  lemma RecordsByCause(cfg: Config, req: Request, c: Cause, row: Row)
    requires cfg.maxBody <= MAX_INT64 && cfg.audited && IsFor(req, c, Decide(cfg, req))
    requires UpdateFits(cfg.lib, FinalEntry(cfg, req))
    ensures Records(cfg, req, c, Updated(row, FinalEntry(cfg, req)))
  {
    hide Decide, RequestHalfOf, FromBytes, FromResponse, Kept, ErrorOf, AuthResultOf, Reaches, DocumentOf, NotesFit,
        Storable;
    JsonHeaderIsKept();
    hide IsDocumentOf;
    if req.upstream.Answered? {
      AuditKeeps(req.upstream.header);
      ResponseDocument(cfg, req);
    }
    MillisecondsAre(req.elapsed);
  }

  lemma MillisecondsAre(elapsed: int)
    ensures Milliseconds(elapsed) >= 0 ==> IsMilliseconds(Milliseconds(elapsed), elapsed)
  {
  }

  // ------------------------------------------------------------ in every run

  /**
   * In every run, a request that has ended, and that the audit sink has not stopped, is answered for its cause, has
   * made the calls that lead up to it, and leaves a row that says so, once that is complete.
   */
  lemma ClientIsAnswered(cfg: Config, base: Table, run: seq<State>, steps: seq<Interleaving.Step>, i: nat, pid: nat)
    requires cfg.maxBody <= MAX_INT64 && IsRun(cfg, base, run, steps) && i < |run|
    requires pid in run[i].procs && run[i].procs[pid].pc == Ended
    requires cfg.audited ==> run[i].procs[pid].started
    ensures var p, c := run[i].procs[pid], CauseOf(cfg, run[i].procs[pid].req);
            && p.response.Some? && Sends(cfg, p.req, c, p.response.value)
            && (exists calls :: Reaches(c, p.req, calls)
                                && p.calls == (if cfg.audited then [Start] + calls + [Finish] else calls))
            && (cfg.audited ==> p.req.id in run[i].rows)
            && (cfg.audited && run[i].rows[p.req.id].complete ==> Records(cfg, p.req, c, run[i].rows[p.req.id]))
  {
    hide ProcInv, Next, IsRun, Written, CauseOf, Decide, FinalEntry, StartEntry, RespondTo, Unaudited, Sends, Records,
        Reaches, Fits;
    hide UpdateFits;
    var p := run[i].procs[pid];
    var c := CauseOf(cfg, p.req);
    RunKeepsInv(cfg, base, run, steps, i);
    EndedMeetsOutcome(cfg, base, run, steps, i, pid);
    DecisionByCause(cfg, p.req);
    RespondsByCause(cfg, p.req, c, Decide(cfg, p.req).answer);
    var calls := Decide(cfg, p.req).calls;
    assert [] + calls + [] == calls;
    if cfg.audited {
      assert Owns(run[i], pid, p.req.id);
      if run[i].rows[p.req.id].complete {
        RecordsByCause(cfg, p.req, c, Inserted(StartEntry(cfg, p.req)));
      }
    }
  }

  /** And one that the audit sink has stopped is told so, after `Start` and nothing else. */
  lemma StoppedIsTold(cfg: Config, base: Table, run: seq<State>, steps: seq<Interleaving.Step>, i: nat, pid: nat)
    requires cfg.maxBody <= MAX_INT64 && IsRun(cfg, base, run, steps) && i < |run|
    requires pid in run[i].procs && run[i].procs[pid].pc == Ended && cfg.audited && !run[i].procs[pid].started
    ensures var p := run[i].procs[pid];
            && p.calls == [Start] && p.response.Some? && p.response.value.status == 503
            && p.response.value.body == cfg.lib.errorJson("audit_unavailable", "audit sink is unavailable") + "\n"
            && IsJson(cfg, p.req, p.response.value.header)
  {
    hide ProcInv, Next, IsRun, Written, Decide, FinalEntry, StartEntry, RespondTo, IsJson, JsonResponse;
    var p := run[i].procs[pid];
    EndedMeetsOutcome(cfg, base, run, steps, i, pid);
    var body := cfg.lib.errorJson(AUDIT_UNAVAILABLE.code, AUDIT_UNAVAILABLE.message) + ['\n'];
    JsonHeaderIs(cfg, p.req, AUDIT_UNAVAILABLE.status, body);
    JsonResponseIs(cfg, p.req, AUDIT_UNAVAILABLE.status, body);
  }

  lemma ForwardedIsAdmitted(cfg: Config, base: Table, run: seq<State>, steps: seq<Interleaving.Step>, i: nat, pid: nat,
      k: nat)
    requires cfg.maxBody <= MAX_INT64 && IsRun(cfg, base, run, steps) && i < |run| && pid in run[i].procs
    requires k < |run[i].procs[pid].calls| && run[i].procs[pid].calls[k].Forward?
    ensures cfg.audited ==> run[i].procs[pid].started
  {
    hide IsRun;
    CallsAreAudited(cfg, base, run, steps, i, pid);
    assert Rank(run[i].procs[pid].calls[k]) == 2;
  }

  lemma InsertedIsAudited(cfg: Config, base: Table, run: seq<State>, steps: seq<Interleaving.Step>, i: nat, pid: nat)
    requires cfg.maxBody <= MAX_INT64 && IsRun(cfg, base, run, steps) && i < |run| && pid in run[i].procs
    ensures run[i].procs[pid].inserted ==> cfg.audited
  {
    hide IsRun, Next, FinalEntry, StartEntry, Decide, RespondTo, Unaudited, ProxyRefusal, TaskRefusal, SessionRefusal,
        Written, RowOf;
    RunKeepsInv(cfg, base, run, steps, i);
  }

  /** What is sent and recorded of an upstream answer, once the cause is known to be one. */
  lemma RelayedMeans(cfg: Config, req: Request, c: Cause, sent: Response)
    requires Sends(cfg, req, c, sent) && c == if req.upstream.Answered? then Relayed else UpstreamDown
    ensures match req.upstream
            case Answered(status, header, body) =>
              sent.status == status && sent.body == body && IsRelayedTo(cfg, req, sent.header, header)
            case UpstreamFailed =>
              IsErrorResponse(cfg, req, sent, Refusal(502, "upstream_unavailable", "upstream service is unavailable"))
  {
    hide IsRelayedTo, IsErrorResponse;
  }

  lemma RelayedIsRecorded(cfg: Config, req: Request, row: Row)
    requires Records(cfg, req, Relayed, row)
    ensures req.upstream.Answered? && row.response.Some? && row.response.value.status == req.upstream.status
  {
  }

  lemma ForwardCause(cfg: Config, req: Request, calls: seq<Call>, call: Call)
    requires Reaches(CauseOf(cfg, req), req, calls) && call in calls && call.Forward?
    ensures CauseOf(cfg, req) == if req.upstream.Answered? then Relayed else UpstreamDown
  {
    hide Unrouted, Breaks, Exceeds;
  }

  /**
   * In every run, whoever has been forwarded is sent what the upstream answered: its status and body, and its header
   * behind the request id; and a complete row has its status. If the upstream does not answer, the client is told so.
   */
  lemma UpstreamIsRelayed(cfg: Config, base: Table, run: seq<State>, steps: seq<Interleaving.Step>, i: nat, pid: nat,
      k: nat)
    requires cfg.maxBody <= MAX_INT64 && IsRun(cfg, base, run, steps) && i < |run|
    requires pid in run[i].procs && run[i].procs[pid].pc == Ended
    requires k < |run[i].procs[pid].calls| && run[i].procs[pid].calls[k].Forward?
    ensures var p := run[i].procs[pid];
            p.response.Some? &&
            var sent := p.response.value;
            match p.req.upstream
            case Answered(status, header, body) =>
              && sent.status == status && sent.body == body && IsRelayedTo(cfg, p.req, sent.header, header)
              && (p.inserted ==> p.req.id in run[i].rows)
              && (p.inserted && run[i].rows[p.req.id].complete ==>
                    run[i].rows[p.req.id].response.Some? && run[i].rows[p.req.id].response.value.status == status)
            case UpstreamFailed =>
              IsErrorResponse(cfg, p.req, sent, Refusal(502, "upstream_unavailable", "upstream service is unavailable"))
  {
    hide Inv, Next, IsRun, IsRelayedTo, IsErrorResponse, CauseOf, Sends, Records, Reaches, Rank;
    var p := run[i].procs[pid];
    var c := CauseOf(cfg, p.req);
    ForwardedIsAdmitted(cfg, base, run, steps, i, pid, k);
    InsertedIsAudited(cfg, base, run, steps, i, pid);
    ClientIsAnswered(cfg, base, run, steps, i, pid);
    var calls :| Reaches(c, p.req, calls) && p.calls == (if cfg.audited then [Start] + calls + [Finish] else calls);
    assert p.calls[k] in calls;
    ForwardCause(cfg, p.req, calls, p.calls[k]);
    RelayedMeans(cfg, p.req, c, p.response.value);
    if p.inserted && run[i].rows[p.req.id].complete && p.req.upstream.Answered? {
      RelayedIsRecorded(cfg, p.req, run[i].rows[p.req.id]);
    }
  }

  // ------------------------------------------------------------ what a row says of its request

  /** A client's id is kept as it is, or cut to 128 bytes: before the code point that would not fit. */
  predicate TellsId(kept: Bytes, id: Bytes) {
    if |id| <= 128 then kept == id
    else Utf8.Valid(kept) && |kept| <= 128 && (Utf8.Valid(id) ==> kept <= id && |kept| >= 125)
  }

  /**
   * What is kept of a body that was sent: its first bytes, as far as both limits go; nothing under the largest limit.
   */
  predicate TellsBody(kept: AuditBody, data: Bytes, maxBody: nat, auditLimit: nat) {
    var served := if maxBody < MAX_INT64 then data else [];
    var limit := Min(maxBody, auditLimit);
    && Stored(kept) == Some(served[..Min(|served|, limit)])
    && kept.size == Min(|served|, maxBody + 1)
    && (kept.truncated <==> |served| > limit)
  }

  predicate TellsRequestBody(cfg: Config, req: Request, kept: AuditBody) {
    if req.handler.Proxy? && req.body.Stream? then TellsBody(kept, req.body.data, cfg.maxBody, cfg.auditLimit)
    else Stored(kept) == Some([]) && kept.size == 0 && !kept.truncated
  }

  predicate TellsRequestDocument(cfg: Config, req: Request, kept: AuditBody) {
    if req.handler.Proxy? && req.body.Stream? then
      var served := if cfg.maxBody < MAX_INT64 then req.body.data else [];
      IsDocumentOf(kept.json, served, Get(req.header, "Content-Type"), Min(cfg.maxBody, cfg.auditLimit),
          cfg.lib.normalize)
    else kept.json == None
  }

  ghost predicate TellsRequest(cfg: Config, req: Request, half: RequestHalf) {
    && half.method_ == req.method_ && half.path == req.path && half.query == req.query && half.remote == req.remote
    && KeepsAllBut(half.headers, req.header, IsSecretOfRequest)
    && TellsId(half.clientId, TrimSpace(Get(req.header, "X-Request-Id")))
    && TellsRequestBody(cfg, req, half.body)
    && TellsRequestDocument(cfg, req, half.body)
  }

  /**
   * What the route column of an administrator's request holds from the start; that of a proxied one is empty at
   * first.
   */
  function FirstRoute(req: Request): Option<Bytes> {
    if req.handler.Proxy? then None
    else if req.handler.task.AuditList? || req.handler.task.AuditDetail? then Some("audit-admin")
    else Some("player-support-admin")
  }

  lemma ReadStreamTells(data: Bytes, broken: bool, maxBody: nat, contentType: Bytes, auditLimit: nat,
      normalize: Normalizer)
    requires maxBody <= MAX_INT64 && !(broken && |data| <= maxBody < MAX_INT64)
    ensures var reading := ReadProxyRequestBody(Stream(data, broken), maxBody, contentType, auditLimit, normalize);
            reading.Reading? && TellsBody(reading.audit, data, maxBody, auditLimit)
  {
    hide FromBytesWithOriginalSize, Stored;
    if maxBody < MAX_INT64 {
      BodyLimitIsExact(data, maxBody, contentType, auditLimit, normalize);
      assert broken ==> ReadLimited(Stream(data, true), maxBody + 1) == ReadLimited(Stream(data, false), maxBody + 1);
    } else {
      var none: Bytes := [];
      StoredIsPrefix(none, contentType, auditLimit, 0, normalize);
      assert none[..0] == none;
    }
  }

  lemma ReadStreamDocument(data: Bytes, broken: bool, maxBody: nat, contentType: Bytes, auditLimit: nat,
      normalize: Normalizer)
    requires maxBody <= MAX_INT64 && !(broken && |data| <= maxBody < MAX_INT64)
    ensures var reading := ReadProxyRequestBody(Stream(data, broken), maxBody, contentType, auditLimit, normalize);
            && reading.Reading?
            && IsDocumentOf(reading.audit.json, if maxBody < MAX_INT64 then data else [], contentType,
                 Min(maxBody, auditLimit),
                 normalize)
  {
    hide FromBytesWithOriginalSize, Contains, ToLower;
    if maxBody < MAX_INT64 {
      var read := data[..Min(|data|, maxBody + 1)];
      var kept := data[..Min(|data|, maxBody)];
      assert |data| <= maxBody ==> read == data && kept == data;
      assert |data| > maxBody ==> |read| == maxBody + 1 && read[..maxBody] == kept;
      JsonIsKept(kept, contentType, auditLimit, |read|, normalize);
    } else {
      JsonIsKept([], contentType, auditLimit, 0, normalize);
    }
  }

  lemma StoredNothing()
    ensures EMPTY_BODY.json == None
    ensures Stored(EMPTY_BODY) == Some([]) && EMPTY_BODY.size == 0 && !EMPTY_BODY.truncated
  {
  }

  lemma KeptIdTells(header: Bytes)
    ensures TellsId(ClientRequestId(header), TrimSpace(header))
  {
    hide TrimSpace, Utf8.Valid, ClientRequestId;
    ClientRequestIdIsBounded(header);
  }

  lemma RequestHalfTells(cfg: Config, req: Request)
    requires cfg.maxBody <= MAX_INT64 && InsertFits(cfg.lib, StartEntry(cfg, req))
    ensures TellsRequest(cfg, req, RequestHalfOf(cfg, req))
  {
    hide ClientRequestId, Kept, ReadProxyRequestBody, TellsBody, Stored, TellsId, NotesFit, TrimSpace, KeepsAllBut,
        IsDocumentOf;
    AuditKeeps(req.header);
    KeptIdTells(Get(req.header, REQUEST_ID));
    StoredNothing();
    ArrivalIsStorable(cfg, req);
    if req.handler.Proxy? && req.body.Stream? {
      ReadingByCause(cfg, req);
      ReadStreamDocument(req.body.data, req.body.broken, cfg.maxBody, Get(req.header, CONTENT_TYPE), cfg.auditLimit,
        cfg.lib.normalize);
      ReadStreamTells(req.body.data, req.body.broken, cfg.maxBody, Get(req.header, CONTENT_TYPE), cfg.auditLimit,
        cfg.lib.normalize);
    } else if req.handler.Proxy? {
      NoBodyIsEmpty(cfg, req);
    }
  }

  lemma NoBodyIsEmpty(cfg: Config, req: Request)
    requires cfg.maxBody <= MAX_INT64 && req.body.NoBody?
    ensures ReadBody(cfg, req).Reading? && ReadBody(cfg, req).audit == EMPTY_BODY
  {
  }

  /**
   * In every run and at every moment, the row of a request tells of what arrived; until it is complete, of nothing
   * else.
   */
  lemma RowTellsRequest(cfg: Config, base: Table, run: seq<State>, steps: seq<Interleaving.Step>, i: nat, pid: nat,
      id: Id)
    requires cfg.maxBody <= MAX_INT64 && IsRun(cfg, base, run, steps) && i < |run| && Owns(run[i], pid, id)
    ensures id in run[i].rows
    ensures var row, req := run[i].rows[id], run[i].procs[pid].req;
            && TellsRequest(cfg, req, row.request)
            && (!row.complete ==>
                  row == Row(row.request, FirstRoute(req), None, None, "not_checked", None, None, None, None, false))
            && (row.complete && req.handler.Admin? ==> row.route == FirstRoute(req))
  {
    hide ProcInv, Next, IsRun, InsertFits, UpdateFits, RequestHalfOf, TellsRequest, ResponseHalfOf, Decide, TaskRoute;
    RunKeepsInv(cfg, base, run, steps, i);
    var req := run[i].procs[pid].req;
    assert run[i].rows[id] == RowOf(cfg, run[i].procs[pid]);
    RequestHalfTells(cfg, req);
    if req.handler.Admin? {
      AdminRoute(cfg, req);
    }
  }

  lemma AdminRoute(cfg: Config, req: Request)
    requires cfg.maxBody <= MAX_INT64 && req.handler.Admin?
    ensures Decide(cfg, req).route == TaskRoute(req.handler.task)
    ensures NullIfEmpty(TaskRoute(req.handler.task)) == FirstRoute(req)
  {
    hide TaskRefusal, TaskAnswer;
  }
}
