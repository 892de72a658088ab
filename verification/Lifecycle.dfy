/** One audited request: its audit entry, the calls it makes, and what it is answered, as one decision. */
module Lifecycle {
  import opened Wrappers
  import opened GoStrings
  import opened Routing
  import opened Headers
  import opened AuditBodies
  import opened Tokens
  import opened Postgres
  import AuditQuery

  type Id = nat

  const NOT_CHECKED: Bytes := "not_checked"
  const AUTHENTICATED: Bytes := "authenticated"
  const NO_ROUTE: Bytes := "route_not_found"
  const MISSING_SESSION: Bytes := "missing_session"
  const VERIFIER_MISSING: Bytes := "auth_verifier_missing"
  const INVALID_SESSION: Bytes := "invalid_session"
  const VERIFICATION_FAILED: Bytes := "auth_verification_failed"
  const NOT_ADMIN: Bytes := "forbidden"
  const HEAD: Bytes := "HEAD"
  const CONTENT_TYPE: Bytes := "Content-Type"
  const JSON_TYPE: Bytes := "application/json"
  const PLAYER_SUPPORT_ROUTE: Bytes := "player-support-admin"

  /** What the btree index over the path takes: a long path that does not compress exceeds its row size. */
  type IndexType = Bytes -> bool

  /**
   * What libraries do: rendering ids, URLs and error documents, re-encoding JSON bodies, and taking them into a
   * column.
   */
  datatype Library = Library(
    normalize: Normalizer,
    jsonFits: JsonType,
    indexFits: IndexType,
    json: Json,
    idText: Id -> Bytes,
    urlText: Url -> Bytes,
    errorJson: (Bytes, Bytes) -> Bytes)

  /** `audited`, `hasVerifier` and `hasStore` say which collaborators are configured. */
  datatype Config = Config(
    audited: bool,
    hasVerifier: bool,
    hasStore: bool,
    maxBody: nat,
    auditLimit: nat,
    routes: seq<Route>,
    cookieName: Bytes,
    internalToken: Bytes,
    admins: set<Id>,
    lib: Library)

  // ------------------------------------------------------------ what the outside world does

  /** A write to the audit table: confirmed, not made, or made although a failure is reported. */
  datatype Write = Acked | Refused | Lost

  /** The HTTP status codes there are. */
  type Status = s: int | 100 <= s <= 999 witness 200

  datatype Verdict = User(id: Id) | InvalidSession | AuthUnavailable

  datatype Upstream = UpstreamFailed | Answered(status: Status, header: Header, body: Bytes)

  /** A document the handler encodes; `None` when it cannot be encoded. */
  type Payload = Option<Bytes>

  /** What an administrator's request asks for, with the outcome of each check and call it leads to. */
  datatype Task =
    | AuditList(query: Result<(), Bytes>, listed: Option<Payload>)
    | AuditDetail(idParses: bool, got: Result<Option<Payload>, ()>)
    | PlayerSupport(playerParses: bool, page: Payload)
    | PullReplay(userParses: bool, operationParses: bool, replay: Result<Payload, Refusal>)

  /** An error answer: status, code and message. */
  datatype Refusal = Refusal(status: Status, code: Bytes, message: Bytes)

  datatype Handler = Proxy | Admin(task: Task)

  /**
   * A request together with everything the outside world will do to it. `token` is what extraction finds; `elapsed`
   * is the time in nanoseconds from its arrival to its end by the wall clock, which may have been set back in
   * between.
   */
  datatype Request = Request(
    id: Id,
    handler: Handler,
    method_: Bytes,
    path: Bytes,
    query: Bytes,
    remote: Bytes,
    host: Bytes,
    tls: bool,
    header: Header,
    cookies: seq<Cookie>,
    token: Option<Bytes>,
    body: Stream,
    start: Write,
    verdict: Verdict,
    acceptedAt: Bytes,
    upstream: Upstream,
    elapsed: int,
    finish: Write)

  // ------------------------------------------------------------ the entry and the row

  /** The half of an entry that is fixed when the request arrives. */
  datatype RequestHalf = RequestHalf(
    method_: Bytes, path: Bytes, query: Bytes, remote: Bytes, clientId: Bytes, headers: Header, body: AuditBody)

  datatype ResponseHalf = ResponseHalf(status: int, headers: Header, body: AuditBody)

  const NO_RESPONSE := ResponseHalf(0, map[], ZERO_BODY)

  datatype Entry = Entry(
    id: Id,
    request: RequestHalf,
    route: Bytes,
    upstreamUrl: Bytes,
    userId: Option<Id>,
    authResult: Bytes,
    response: ResponseHalf,
    errorCode: Bytes,
    errorMessage: Bytes,
    duration: int)

  /** A row of `audit.http_api_calls`; `complete` is its `audit_status`. */
  datatype Row = Row(
    request: RequestHalf,
    route: Option<Bytes>,
    upstreamUrl: Option<Bytes>,
    userId: Option<Id>,
    authResult: Bytes,
    response: Option<ResponseHalf>,
    errorCode: Option<Bytes>,
    errorMessage: Option<Bytes>,
    durationMs: Option<int>,
    complete: bool)

  type Table = map<Id, Row>

  function NullIfEmpty(s: Bytes): Option<Bytes> {
    if s == [] then None else Some(s)
  }

  const NANOSECONDS := 1_000_000

  /** `Duration.Milliseconds`, which truncates towards zero. */
  function Milliseconds(duration: int): int {
    if duration >= 0 then duration / NANOSECONDS else -(-duration / NANOSECONDS)
  }

  /** What the columns, the check constraints and the indexes of the table require of an insert. */
  predicate InsertFits(lib: Library, e: Entry) {
    && e.request.method_ != [] && TextFits(e.request.method_)
    && TextFits(e.request.path) && TextFits(e.request.query) && TextFits(e.request.remote) &&
         TextFits(e.request.clientId)
    && lib.indexFits(e.request.path) && Storable(e.request.body, lib.jsonFits)
    && NotesFit(e)
  }

  /** What they require of an update, which does not change the path. */
  predicate UpdateFits(lib: Library, e: Entry) {
    NotesFit(e) && Storable(e.response.body, lib.jsonFits) && Milliseconds(e.duration) >= 0
  }

  predicate NotesFit(e: Entry) {
    && TextFits(e.route) && TextFits(e.upstreamUrl) && TextFits(e.authResult)
    && TextFits(e.errorCode) && TextFits(e.errorMessage)
  }

  function Inserted(e: Entry): Row {
    Row(e.request, NullIfEmpty(e.route), NullIfEmpty(e.upstreamUrl), e.userId, e.authResult, None,
        NullIfEmpty(e.errorCode), NullIfEmpty(e.errorMessage), None, false)
  }

  function Updated(row: Row, e: Entry): Row {
    Row(row.request, NullIfEmpty(e.route), NullIfEmpty(e.upstreamUrl), e.userId, e.authResult, Some(e.response),
        NullIfEmpty(e.errorCode), NullIfEmpty(e.errorMessage), Some(Milliseconds(e.duration)), true)
  }

  /** Whether an insert takes effect: never over an existing key, nor against the schema. */
  predicate Inserts(lib: Library, rows: Table, e: Entry, write: Write) {
    write != Refused && e.id !in rows && InsertFits(lib, e)
  }

  /** Whether an update takes effect. */
  predicate Updates(lib: Library, rows: Table, e: Entry, write: Write) {
    write != Refused && e.id in rows && UpdateFits(lib, e)
  }

  function AfterInsert(lib: Library, rows: Table, e: Entry, write: Write): Table {
    if Inserts(lib, rows, e, write) then rows[e.id := Inserted(e)] else rows
  }

  function AfterUpdate(lib: Library, rows: Table, e: Entry, write: Write): Table {
    if Updates(lib, rows, e, write) then rows[e.id := Updated(rows[e.id], e)] else rows
  }

  // ------------------------------------------------------------ arrival

  function ReadBody(cfg: Config, req: Request): Reading
    requires cfg.maxBody <= MAX_INT64
  {
    ReadProxyRequestBody(req.body, cfg.maxBody, Get(req.header, CONTENT_TYPE), cfg.auditLimit, cfg.lib.normalize)
  }

  function TaskRoute(task: Task): Bytes {
    if task.AuditList? || task.AuditDetail? then AuditQuery.AUDIT_ADMIN else PLAYER_SUPPORT_ROUTE
  }

  /**
   * The body column of the request half: administrators' requests have no body, and one that cannot be read leaves
   * Go's zero value.
   */
  function RequestBodyOf(cfg: Config, req: Request): AuditBody
    requires cfg.maxBody <= MAX_INT64
  {
    if req.handler.Admin? then EMPTY_BODY
    else if ReadBody(cfg, req).Unreadable? then ZERO_BODY
    else ReadBody(cfg, req).audit
  }

  function RequestHalfOf(cfg: Config, req: Request): RequestHalf
    requires cfg.maxBody <= MAX_INT64
  {
    var clientId := ClientRequestId(Get(req.header, REQUEST_ID));
    var headers := Kept(req.header, DROPPED_FROM_REQUEST_AUDIT);
    RequestHalf(req.method_, req.path, req.query, req.remote, clientId, headers, RequestBodyOf(cfg, req))
  }

  /** The entry `Start` is called with. */
  function StartEntry(cfg: Config, req: Request): Entry
    requires cfg.maxBody <= MAX_INT64
  {
    var route := if req.handler.Admin? then TaskRoute(req.handler.task) else "";
    Entry(req.id, RequestHalfOf(cfg, req), route, "", None, NOT_CHECKED, NO_RESPONSE, "", "", 0)
  }

  // ------------------------------------------------------------ the decision

  /** The calls a request makes to its collaborators. */
  datatype Call = Start | Verify(token: Bytes) | Forward(method_: Bytes, url: Url, header: Header,
      body: Bytes) | Work | Finish

  /** How a request is answered: refused, relayed from upstream, or with a document of the gateway's own. */
  datatype Answer =
    | Refuse(refusal: Refusal)
    | Relay(url: Url, status: Status, header: Header, body: Bytes)
    | Document(body: Bytes)

  /** All that is decided between `Start` and `Finish`. */
  datatype Decision = Decision(route: Bytes, authResult: Bytes, userId: Option<Id>, calls: seq<Call>, answer: Answer)

  const LOGIN_REQUIRED := Refusal(401, "unauthorized", "login is required")
  const AUTH_UNAVAILABLE := Refusal(503, "auth_unavailable", "auth verifier is unavailable")
  const AUDIT_UNAVAILABLE := Refusal(503, "audit_unavailable", "audit sink is unavailable")
  const UNREADABLE_BODY := Refusal(400, "invalid_request_body", "request body could not be read")
  const BODY_TOO_LARGE := Refusal(413, "request_too_large", "request body is too large")
  const ROUTE_NOT_FOUND := Refusal(404, "not_found", "route not found")
  const UPSTREAM_UNAVAILABLE := Refusal(502, "upstream_unavailable", "upstream service is unavailable")
  const FORBIDDEN := Refusal(403, "forbidden", "admin access is required")
  const STORE_MISSING := Refusal(503, "audit_log_unavailable", "audit log store is unavailable")
  const LOGS_UNAVAILABLE := Refusal(503, "audit_log_unavailable", "audit logs are unavailable")
  const ENTRY_NOT_FOUND := Refusal(404, "not_found", "audit log entry was not found")
  const BAD_REQUEST_ID := Refusal(400, "invalid_request_id", "request_id must be a UUID")
  const BAD_USER_ID := Refusal(400, "invalid_user_id", "user_id must be a UUID")
  const BAD_OPERATION_ID := Refusal(400, "invalid_operation_id", "operation_id must be a UUID")
  const NOT_ENCODABLE := Refusal(500, "internal_error", "response could not be encoded")

  /** A refusal together with the authentication result the entry then carries. */
  datatype AuthRefusal = AuthRefusal(authResult: Bytes, refusal: Refusal)

  /** What stops a request before the verifier is asked. */
  function SessionRefusal(cfg: Config, req: Request): Option<AuthRefusal> {
    if req.token.None? then Some(AuthRefusal(MISSING_SESSION, LOGIN_REQUIRED))
    else if !cfg.hasVerifier then Some(AuthRefusal(VERIFIER_MISSING, AUTH_UNAVAILABLE))
    else None
  }

  function VerdictRefusal(verdict: Verdict): Option<AuthRefusal> {
    match verdict
    case User(_) => None
    case InvalidSession => Some(AuthRefusal(INVALID_SESSION, LOGIN_REQUIRED))
    case AuthUnavailable => Some(AuthRefusal(VERIFICATION_FAILED, AUTH_UNAVAILABLE))
  }

  /** The checks an administrator's handler makes on its input before it does any work. */
  function TaskRefusal(cfg: Config, task: Task): Option<Refusal> {
    match task
    case AuditList(query, _) =>
      if query.Err? then Some(Refusal(400, "invalid_query", query.error)) else if !cfg.hasStore then Some(STORE_MISSING)
          else None
    case AuditDetail(idParses, _) =>
      if !idParses then Some(BAD_REQUEST_ID) else if !cfg.hasStore then Some(STORE_MISSING) else None
    case PlayerSupport(playerParses, _) => if playerParses then None else Some(BAD_USER_ID)
    case PullReplay(userParses, operationParses, _) =>
      if !userParses then Some(BAD_USER_ID) else if !operationParses then Some(BAD_OPERATION_ID) else None
  }

  function Encoded(payload: Payload): Answer {
    match payload case Some(body) => Document(body) case None => Refuse(NOT_ENCODABLE)
  }

  function TaskAnswer(task: Task): Answer {
    match task
    case AuditList(_, listed) => if listed.Some? then Encoded(listed.value) else Refuse(LOGS_UNAVAILABLE)
    case AuditDetail(_, got) =>
      if got.Err? then Refuse(LOGS_UNAVAILABLE) else if got.value.None? then Refuse(ENTRY_NOT_FOUND)
          else Encoded(got.value.value)
    case PlayerSupport(_, page) => Encoded(page)
    case PullReplay(_, _, replay) => if replay.Ok? then Encoded(replay.value) else Refuse(replay.error)
  }

  /** What the gateway tells an upstream service about a user's request. */
  function VouchedFor(cfg: Config, req: Request, user: Id): Vouched {
    Vouched(cfg.internalToken, cfg.lib.idText(user), cfg.lib.idText(req.id), req.acceptedAt, req.remote, req.host,
        req.tls)
  }

  /** The request sent upstream for a user. */
  function ForwardCall(cfg: Config, req: Request, route: Route, user: Id): Call
    requires cfg.maxBody <= MAX_INT64 && ReadBody(cfg, req).Reading?
  {
    Forward(req.method_, BuildTargetUrl(route, req.path, req.query),
            ForwardedHeader(req.header, VouchedFor(cfg, req, user)), ReadBody(cfg, req).body)
  }

  function UpstreamAnswer(route: Route, req: Request): Answer {
    match req.upstream
    case UpstreamFailed => Refuse(UPSTREAM_UNAVAILABLE)
    case Answered(status, header, body) => Relay(BuildTargetUrl(route, req.path, req.query), status, header, body)
  }

  /** What a proxied request is refused for before its session is looked at. */
  function ProxyRefusal(cfg: Config, req: Request): Option<AuthRefusal>
    requires cfg.maxBody <= MAX_INT64
  {
    var reading := ReadBody(cfg, req);
    if reading.Unreadable? then Some(AuthRefusal(NOT_CHECKED, UNREADABLE_BODY))
    else if reading.tooLarge then Some(AuthRefusal(NOT_CHECKED, BODY_TOO_LARGE))
    else if MatchRoute(cfg.routes, req.path).None? then Some(AuthRefusal(NO_ROUTE, ROUTE_NOT_FOUND))
    else None
  }

  /** The whole decision on a request whose `Start` succeeded, or that is not audited at all. */
  function Decide(cfg: Config, req: Request): Decision
    requires cfg.maxBody <= MAX_INT64
  {
    match req.handler
    case Proxy =>
      var early := ProxyRefusal(cfg, req);
      if early.Some? then Decision("", early.value.authResult, None, [], Refuse(early.value.refusal)) else
        var route := MatchRoute(cfg.routes, req.path).value;
        DecideSession(cfg, req, route.name, (user: Id) =>
          Decision(route.name, AUTHENTICATED, Some(user),
                   [ForwardCall(cfg, req, route, user)], UpstreamAnswer(route, req)))
    case Admin(task) =>
      DecideSession(cfg, req, TaskRoute(task), (user: Id) => DecideTask(cfg, task, user))
  }

  function DecideTask(cfg: Config, task: Task, user: Id): Decision {
    if user !in cfg.admins then Decision(TaskRoute(task), NOT_ADMIN, Some(user), [], Refuse(FORBIDDEN)) else
      match TaskRefusal(cfg, task)
      case Some(refusal) => Decision(TaskRoute(task), AUTHENTICATED, Some(user), [], Refuse(refusal))
      case None => Decision(TaskRoute(task), AUTHENTICATED, Some(user), [Work], TaskAnswer(task))
  }

  /** The session is checked, the verifier asked, and `then_` decides on the user it vouches for. */
  function DecideSession(cfg: Config, req: Request, route: Bytes, then_: Id -> Decision): Decision {
    match SessionRefusal(cfg, req)
    case Some(stop) => Decision(route, stop.authResult, None, [], Refuse(stop.refusal))
    case None =>
      var asked := [Verify(req.token.value)];
      match VerdictRefusal(req.verdict)
      case Some(stop) => Decision(route, stop.authResult, None, asked, Refuse(stop.refusal))
      case None =>
        var d := then_(req.verdict.id);
        d.(calls := asked + d.calls)
  }

  // ------------------------------------------------------------ the answer and the final entry

  datatype Response = Response(status: Status, header: Header, body: Bytes)

  /** The header the gateway has set before it answers. */
  function OwnHeader(cfg: Config, req: Request): Header {
    map[REQUEST_ID := [cfg.lib.idText(req.id)]]
  }

  const JSON_HEADER: Header := map[CONTENT_TYPE := [JSON_TYPE]]

  function JsonResponse(cfg: Config, req: Request, status: Status, body: Bytes): Response {
    Response(status, OwnHeader(cfg, req)[CONTENT_TYPE := [JSON_TYPE]], body)
  }

  function RespondTo(cfg: Config, req: Request, answer: Answer): Response {
    match answer
    case Refuse(r) => JsonResponse(cfg, req, r.status, cfg.lib.errorJson(r.code, r.message))
    case Document(body) => JsonResponse(cfg, req, 200, body)
    case Relay(_, status, header, body) => Response(status, ResponseHeader(OwnHeader(cfg, req), header), body)
  }

  /** `writeError`, which ends the document with a line feed and touches no entry. */
  function Unaudited(cfg: Config, req: Request): Response {
    JsonResponse(cfg, req, AUDIT_UNAVAILABLE.status,
        cfg.lib.errorJson(AUDIT_UNAVAILABLE.code, AUDIT_UNAVAILABLE.message) + ['\n'])
  }

  /** The response half of the entry, as each way of answering fills it in. */
  function ResponseHalfOf(cfg: Config, answer: Answer): ResponseHalf {
    match answer
    case Refuse(r) =>
      ResponseHalf(r.status, Kept(JSON_HEADER, DROPPED_FROM_RESPONSE_AUDIT),
                   FromBytes(cfg.lib.errorJson(r.code, r.message), JSON_TYPE, cfg.auditLimit, cfg.lib.normalize))
    case Document(body) =>
      ResponseHalf(200, Kept(JSON_HEADER, DROPPED_FROM_RESPONSE_AUDIT),
          FromBytes(body, JSON_TYPE, cfg.auditLimit, cfg.lib.normalize))
    case Relay(_, status, header, body) =>
      ResponseHalf(status, Kept(header, DROPPED_FROM_RESPONSE_AUDIT),
                   FromResponse(body, Get(header, CONTENT_TYPE), cfg.auditLimit, cfg.lib.normalize))
  }

  /** An entry completed with an answer; only a gateway that audits takes the time. */
  function Complete(cfg: Config, req: Request, e: Entry, answer: Answer): Entry {
    var f := e.(response := ResponseHalfOf(cfg, answer), duration := if cfg.audited then req.elapsed else e.duration);
    match answer
    case Refuse(r) => f.(errorCode := r.code, errorMessage := r.message)
    case Relay(url, _, _, _) => f.(upstreamUrl := cfg.lib.urlText(url))
    case Document(_) => f
  }

  /** The entry `Finish` is called with. */
  function FinalEntry(cfg: Config, req: Request): Entry
    requires cfg.maxBody <= MAX_INT64
  {
    var d := Decide(cfg, req);
    Complete(cfg, req, StartEntry(cfg, req).(route := d.route, authResult := d.authResult, userId := d.userId),
        d.answer)
  }

  /** Whether the HTTP server passes a body on: not to a HEAD request, nor with a status that has none. */
  predicate BodyAllowed(method_: Bytes, status: Status) {
    method_ != HEAD && 200 <= status && status != 204 && status != 304
  }

  /** What reaches the client of a response that was handed to the response writer. */
  function Delivered(req: Request, handed: Response): Response {
    if BodyAllowed(req.method_, handed.status) then handed else handed.(body := [])
  }

  /** An entry tells of a response: its status, the size of its body, and the body's first bytes. */
  predicate TellsResponse(half: ResponseHalf, response: Response, auditLimit: nat) {
    && half.status == response.status
    && half.body.size == |response.body|
    && Stored(half.body) == Some(response.body[..Min(|response.body|, auditLimit)])
    && (half.body.truncated <==> |response.body| > auditLimit)
  }

  /**
   * An entry tells of the response handed to the response writer; so it tells of what the client receives exactly
   * when the server passes the body on, or there is none.
   */
  lemma EntryMatchesResponse(cfg: Config, req: Request, answer: Answer)
    ensures var half, handed := ResponseHalfOf(cfg, answer), RespondTo(cfg, req, answer);
            && TellsResponse(half, handed, cfg.auditLimit)
            && (TellsResponse(half, Delivered(req, handed), cfg.auditLimit)
                <==> BodyAllowed(req.method_, handed.status) || handed.body == [])
  {
    hide FromBytesWithOriginalSize, Stored, FromResponse, Kept, BodyAllowed;
    var body := RespondTo(cfg, req, answer).body;
    var contentType := AnswerType(answer);
    StoredIsPrefix(body, contentType, cfg.auditLimit, |body|, cfg.lib.normalize);
    PathsAgree(body, contentType, cfg.auditLimit, cfg.lib.normalize);
  }

  function AnswerType(answer: Answer): Bytes {
    if answer.Relay? then Get(answer.header, CONTENT_TYPE) else JSON_TYPE
  }

  /** Whatever an upstream answers, the request id the client reads first is the key of its audit row. */
  lemma ResponseCarriesRequestId(cfg: Config, req: Request, answer: Answer)
    ensures Get(RespondTo(cfg, req, answer).header, REQUEST_ID) == cfg.lib.idText(req.id)
  {
    assert |REQUEST_ID| == |CONTENT_TYPE| == 12 && REQUEST_ID[0] != CONTENT_TYPE[0];
    if answer.Relay? {
      GatewayHeadersComeFirst(OwnHeader(cfg, req), answer.header, REQUEST_ID);
    }
  }
}
