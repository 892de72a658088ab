# A verified model of the game gateway

The gateway authenticates requests, forwards them to internal services, and keeps an audit row for each. This project models
the logic of `internal/gateway` in Dafny and proves what it is meant to guarantee. `dafny verify dfyconfig.toml` checks all of
it.

## What is modelled

- **The audited request** (`Lifecycle`, `Interleaving`, `AuditTrail`, `Answers`, `Gateway`, `AuditListing`). `Lifecycle.Decide` says, as one
  function, how a request ends. `Interleaving` is the protocol: any number of requests, each with a program counter and a trace
  of its calls, over one table keyed by request id. One step is one call to a collaborator with the handler code up to the next
  call; steps interleave freely, and every call may fail. `AuditTrail` proves what holds in every run, `Answers` what each client
  is sent and each row says, cause by cause, without naming the decision. `Gateway` has the handlers
  themselves as imperative code over a mutable entry, response writer and table, and proves that they leave behind exactly what
  one request of `Interleaving` leaves behind. `AuditListing` joins the rows of a run with the administrators' queries over them.
- **The fan-out** of the player-support handlers (`FanOut`, `PlayerSupport`, `SupportPage`): workers, a buffered channel, a wait group, a drain
  loop, for any number of queries and any schedule; then how sections are classified, what the documents say, and what is
  sent to whoever asked.
- **The filter-to-SQL compiler** (`AuditQuery`, `AuditText`, `AuditSql`, `Sql`, `Ilike`). `Sql` lexes and parses conditions into
  expression trees, by the binding strength of the operators, and evaluates them in three-valued logic, with `ilike` as a recursive
  matcher; `AuditText` proves which tree is read in the emitted text, `AuditSql` which rows it selects.
- **Routing** (`Routing`, `RouteConfig`, `DotSegments`): the route-table parser, the stable in-place sort, first-match lookup, path
  rewriting, and where a rewritten path leads once its dot segments are removed.
- **Headers** (`Headers`): what is forwarded, what comes back, what the audit trail may keep.
- **Tokens** (`Tokens`, `Cookies`, `Base64`, `PercentEncoding`, `Decimal`): bearer tokens, cookie chunks, the cookie encodings of
  RFC 4648 section 5 and RFC 3986 section 2.1 (with `+` for a space), and the choice among several session cookies.
- **Audit bodies** (`AuditBodies`, `Utf8`, `Base64`): truncation, well-formed UTF-8 (RFC 3629 section 4), base64 (RFC 4648 section
  4), bounded client ids, and the limit on request bodies with its 64-bit arithmetic.
- **Columns** (`Postgres`): what a UTF-8 database takes as text and as an integer.

Text is bytes: `Byte` is a `char` below 256. In `Lifecycle` a `Request` carries with it what the outside world will answer to each
of its calls; a run quantifies over all requests, so over all such answers. A write to the audit table is confirmed, refused, or
lost (made although a failure is reported). JSON, URL and UUID libraries and the verifier are parameters.

## Where the code surprises

- A route for `/` is no catch-all: `server.go:312` appends a slash to the prefix, so it takes `/` and paths that start with `//`
  (`Routing.RootRouteIsNoCatchAll`).
- A body limit of the largest 64-bit integer wraps round at `server.go:325`; every request body is then dropped and forwarded as
  empty (`AuditBodies.BodyLimitIsExact`, `AuditTrail.ForwardedAsSent`), and no section of a player-support document is ever `ok`
  (`PlayerSupport.LargestLimitReadsNothing`).
- A request body that cannot be read leaves a zero `AuditBody`, whose empty encoding the check constraint of the table refuses.
  With auditing on, the client is never told `400 invalid_request_body` but `503 audit_unavailable`, and there is no row
  (`AuditTrail.UnreadableBodyIsNeverRecorded`).
- Text columns take neither zero bytes nor ill-formed UTF-8. `GET /%00`, `GET /%FF`, a short `X-Request-Id` with a stray byte, or a
  proxied body with a zero byte are therefore answered `503 audit_unavailable`, with no row
  (`AuditTrail.UnstorableArrivalIsNeverRecorded`). An upstream answer with a zero byte in otherwise well-formed text reaches the
  client but leaves its row `started` (`AuditTrail.UnstorableAnswerStaysStarted`). The lemmas at these inputs are
  `AuditTrail.StrayBytesAreNotStorable`, `ZeroByteIsNotStorable` and `ZeroByteAnswerIsNotStorable`.
- `db/audit_schema.sql:50-51` puts the path in a btree index, whose rows hold at most 2704 bytes after compression. A path of some
  thousand bytes that do not compress, well within what the server reads, is therefore answered `503 audit_unavailable`, with no
  row. What the index takes is a parameter (`Lifecycle.IndexType`) of `AuditTrail.ArrivalIsStorable`.
- So does an answer of more than 2147483647 bytes, as sizes are 32-bit columns; and any answer for which the wall clock was set back
  by a millisecond or more, as `UTC` strips the monotonic clock and the duration must not be negative (`AuditTrail.AnswerIsStorable`).
- A row describes the body handed to the response writer. HTTP servers send none to a HEAD request, so the row of a refused HEAD
  request tells of a body its client never received (`AuditTrail.RefusedHeadIsNotTold`).
- A decoded path keeps its dot segments: under `/api` for a target `/v1`, `/api/%2e%2e/internal` is sent as `/v1/../internal`, which
  leads out of the target (`DotSegments.ClimbingPathLeaves`).
- The `path` filter is documented as a substring match. It is one exactly when the needle holds no `%`, `_` or backslash
  (`Ilike.SearchIsExact`).
- A proxied route may itself be named `audit-admin`; its finished calls are then hidden from the default listing
  (`AuditListing.UnfilteredListing`).
- A percent-escaped cookie that itself starts with `base64-` is not read back (`Tokens.PeelInvertsEscape`).
- In `UPSTREAM_ROUTES` white space is taken off a prefix before trailing slashes are: `a=/x /|http://h` is accepted with the prefix
  `"/x "`, and printing and reading it again gives `/x` (`RouteConfig.AcceptedTableRoundTrip`).
- Row isolation needs no fresh ids: the primary key alone gives every row one owner (`AuditTrail.RowsAreIsolated`). Fresh ids are
  what makes the outcome independent of the schedule (`AuditTrail.SchedulesAgree`).

## Model

| member | source | states |
|---|---|---|
| AuditTrail.RunKeepsInv | internal/gateway/server.go:150-404 | over every run of arrivals and steps, each request is on the course its decision sets, each row is either as it was before or exactly what its one owner made of it, and an update is in the table just when it took effect |
| Interleaving.InvNext | internal/gateway/server.go:150-404 | the same for one step from any good state, whatever arrives or moves |
| Interleaving.StepFollowsDecision | internal/gateway/server.go:204-308 | whatever the table holds, a step keeps a request on course to the one decision on it |
| Interleaving.RowEffect | internal/gateway/audit.go:119-190 | a step keeps a request's row in agreement with the request, inserts only at a free key, and leaves all other rows alone |
| AuditTrail.CallsAreAudited | internal/gateway/server.go:204-283 | at every moment of every run: calls come in order and at most once, `Start` first and nothing after it unless it succeeded; nothing is forwarded or worked on unless the verifier has just vouched for a user, an administrator for admin work |
| AuditTrail.EndedRequestIsAccounted | internal/gateway/server.go:339-404 | a request that ended was refused with 503 after a failed `Start` and called nothing else, or was answered as decided; its row is complete exactly if `Start` was confirmed and `Finish` took effect; it then carries the status, size and first bytes of the body handed to the response writer, and carries those of the body the client received if and only if the server passes the body on (no HEAD request, no status without a body) or there is none; a row left started means a lost `Start` or a `Finish` without effect |
| AuditTrail.RowTellsCalls | internal/gateway/server.go:208-303 | in every run, a complete row of an ended request names a user if and only if the verifier was asked and vouched for that user; a proxied one says `authenticated` if and only if it was forwarded, then under the matched route, and its upstream URL is the one forwarded to and answered from |
| Answers.ClientIsAnswered | internal/gateway/server.go:150-308 | in every run, for each of twenty causes read off the request and its collaborators: status, code, message and header sent, the calls made on the way, and what a complete row says (auth result, status, headers, document, error columns, duration), all in the words of the interface |
| Answers.UpstreamIsRelayed | internal/gateway/server.go:283-307 | in every run, whoever was forwarded is sent the status and body the upstream answered, and key by key the gateway's own values followed by those of the upstream that are not withheld; a complete row has that status; without an answer it is 502 `upstream_unavailable` |
| Answers.StoppedIsTold | internal/gateway/server.go:339-357 | in every run, a request the audit sink stopped made no call but `Start` and was sent 503 `audit_unavailable` |
| Answers.RowTellsRequest | internal/gateway/audit.go:119-148 | in every run and at every moment, the row of a request holds its method, path, query, peer, client id, headers but the credentials, and body as far as the limits go; until it is complete it says nothing else |
| Answers.DecisionByCause | internal/gateway/admin_audit.go:32-191 | the decision fits the cause, for proxied requests and administrators' alike: auth result, calls and answer |
| AuditTrail.TableOnlyEvolves | internal/gateway/audit.go:150-190 | between any two moments of a run rows only appear; a request half never changes, a row moves once from started to complete and is then frozen |
| AuditTrail.StepEvolvesTable | internal/gateway/audit.go:150-190 | the same for one step, and a row changes only by a step of the one request that owns it |
| AuditTrail.RowsAreIsolated | db/audit_schema.sql:3-4 | rows from before stay as they were, every other row has exactly one request behind it |
| AuditTrail.NoSecretsInRows | internal/gateway/audit.go:280-330 | no row a request put in the table holds a credential header, of request or response |
| AuditTrail.RequestsEnd | internal/gateway/server.go:150-308 | whatever fails, a request that has not ended can move, and ends in at most five moves |
| AuditTrail.EndedMeetsOutcome | internal/gateway/server.go:150-308 | in every run an ended request made the calls, got the answer and left the entry it does by itself; others can only cost it its key |
| AuditTrail.SchedulesAgree | internal/gateway/server.go:150-404 | with fresh ids, two runs over the same requests that both end have the same table and the same answers, those of each request served alone |
| AuditTrail.FreshIdsDecideInserts | internal/gateway/audit.go:206-208 | with fresh ids, whether an insert takes effect depends on its own request alone, in every run |
| AuditTrail.ArrivalIsStorable | db/audit_schema.sql:5-51 | columns, constraints and indexes take an arrival if and only if its method is not empty, method, path, query and peer are well-formed UTF-8 without zero bytes, the path fits the index over it, the client id was cut or is well-formed, without zero bytes, and a proxied body was read and fits: 32 bits, no zero byte in what is kept as text, a document `jsonb` takes |
| AuditTrail.UnstorableArrivalIsNeverRecorded | internal/gateway/server.go:339-357 | in every run with auditing on, an arrival that does not fit leaves no row, calls nothing but `Start`, and is answered 503 |
| AuditTrail.ZeroByteIsNotStorable | internal/gateway/audit.go:257-258 | a proxied body of one zero byte does not fit |
| AuditTrail.StrayBytesAreNotStorable | internal/gateway/server.go:161-172 | nor does a path of a slash and a zero or stray byte, nor a client id of one such byte |
| AuditTrail.ZeroByteAnswerIsNotStorable | internal/gateway/audit.go:217-229 | nor does an upstream answer of one zero byte, which is relayed all the same |
| AuditTrail.RefusedHeadIsNotTold | internal/gateway/server.go:359-381 | the entry of a refused HEAD request tells of a document its client does not receive |
| AuditTrail.AnswerIsStorable | db/audit_schema.sql:24-40 | the update takes effect if and only if it is not refused, the body fits 32 bits and its columns, route, upstream URL and error texts are well-formed without zero bytes, and the wall clock was not set back by a millisecond or more since arrival |
| AuditTrail.UnstorableAnswerStaysStarted | internal/gateway/server.go:383-404 | in every run, an answer that does not fit still reaches the client as decided, and leaves the row started |
| AuditTrail.UnreadableBodyIsNeverRecorded | internal/gateway/server.go:174-183 | an unreadable body leaves no row; the client is told 503 with auditing on, 400 only without |
| AuditTrail.ForwardedAsSent | internal/gateway/server.go:414-443 | in every run a forwarded request goes to the matched route's target and carries the body sent, if and only if the limit is below the 64-bit maximum or the body is empty |
| AuditTrail.IdentityIsVerified | internal/gateway/server.go:427-431 | in every run the user id told upstream is that of the user the verifier has just vouched for on this request's token, the request id is the row's key, and no credential of the client goes along |
| AuditTrail.HeaderIsVouched | internal/gateway/server.go:426-432 | in every run the header of a forwarded request is, key by key, what the gateway speaks for, the way the request came, and what passes of the client's header |
| Lifecycle.EntryMatchesResponse | internal/gateway/server.go:298-381 | for every kind of answer, status, size, stored bytes and truncation in the entry are those of what is handed to the response writer; they are those of what the client receives if and only if the server passes the body on, or there is none |
| Lifecycle.ResponseCarriesRequestId | internal/gateway/server.go:151-153 | whatever an upstream answers, the first request id the client reads is its audit row's key |
| Gateway.HandleProxy | internal/gateway/server.go:150-308 | the imperative handler leaves the response, the trace of calls and the table exactly as one request of the protocol by itself does, on every path |
| Gateway.HandleAdmin | internal/gateway/admin_audit.go:32-103 | the same for the administrators' handlers |
| Gateway.AuthorizeAdmin | internal/gateway/admin_audit.go:127-162 | a user comes back only if verified and on the list, with the request still to be answered; otherwise the request has been refused, recorded and answered |
| Gateway.StartAuditOrFail | internal/gateway/server.go:339-357 | goes on exactly if auditing is off or the insert is confirmed; otherwise answers 503 |
| Gateway.WriteAuditedError | internal/gateway/server.go:359-381 | completes the entry, updates the row, and answers the client alike, whether or not the update took effect |
| Gateway.WriteAuditedJson | internal/gateway/admin_audit.go:172-191 | the same for a document |
| Gateway.FinishAudit | internal/gateway/server.go:383-404 | one call of `Finish` if auditing is on, with the table updated just when the write takes effect |
| Gateway.ResponseWriter.WriteHeader | internal/gateway/server.go:687-693 | the first status wins, and the header leaves with it |
| Gateway.ResponseWriter.Write | internal/gateway/server.go:695-703 | bytes are counted and appended; a body without a status goes out as 200 |
| AuditListing.UnfilteredListing | internal/gateway/audit_logs.go:186-190 | without a filter, every row that requests of a run put in the table is listed, unfinished and refused ones too, if and only if its request did not go to the audit log or to a finished proxied route of that name |
| AuditListing.ListingByStatus | internal/gateway/audit_logs.go:194-196 | filtered by status, an ended request is listed if and only if its row was completed, is not hidden, and that status is the one its client was sent |
| AuditListing.ListingByRequestId | internal/gateway/audit_logs.go:174-176 | asked for by id, exactly that row is listed, whatever its route |
| AuditListing.ListingShows | internal/gateway/audit_logs.go:186-190 | at every moment of a run, an unfiltered listing finds what it found before and the rows of all requests so far that are not hidden, never that of the listing request itself |
| FanOut.EveryScheduleAgrees | internal/gateway/player_support.go:246-284 | for any number of distinctly named queries and any schedule: runs are bounded, a run that cannot go on has finished, and a finished run holds the sequential response |
| FanOut.InvStep | internal/gateway/player_support.go:246-284 | every step of every worker and of the handler keeps counter, channel, history and response in agreement |
| FanOut.SendsAreSafe | internal/gateway/player_support.go:251-260 | a worker that still has to send finds the channel open and with room, and the wait group is above zero until all are done |
| FanOut.Progress | internal/gateway/player_support.go:246-284 | no reachable state short of the end is stuck |
| FanOut.EveryStepCounts | internal/gateway/player_support.go:246-284 | every step lowers one measure |
| FanOut.LoadPlayerSupport | internal/gateway/player_support.go:246-284 | run with an arbitrary scheduler over a real channel and wait group, it ends with the sequential response |
| FanOut.DeliveredExactly | internal/gateway/player_support.go:266-282 | each section ends under its own name; the response is partial exactly if some section is unavailable |
| FanOut.OrderIrrelevant | internal/gateway/player_support.go:266-282 | the order of delivery cannot be observed |
| FanOut.PlayerSupportNames | internal/gateway/player_support.go:206-244 | the six queries have different names, each a field of the response, so each section arrives |
| PlayerSupport.SectionTellsReply | internal/gateway/player_support.go:287-347 | under every limit, a section is unavailable if and only if its query was not answered in full, and an available one shows the projection of what is read: of the whole body, or of nothing under the largest 64-bit limit |
| PlayerSupport.OtherStatusIsUnavailable | internal/gateway/player_support.go:332-337 | a status below 200 or from 300 on, other than an allowed 404, makes the section unavailable whatever document came, with the code `upstream_http_` and the decimal status, in both classifiers |
| PlayerSupport.OtherStatusMakesPagePartial | internal/gateway/player_support.go:266-268 | under every schedule it makes the page partial |
| PlayerSupport.FailureCodes | internal/gateway/player_support.go:292-341 | the codes of all other failures |
| PlayerSupport.ClassifiersAgree | internal/gateway/player_support.go:494-567 | the two classifiers give every reply the same status and data, and different codes exactly to three kinds of failure |
| PlayerSupport.PageTellsReplies | internal/gateway/player_support.go:205-285 | under every schedule and limit the page is partial if and only if some query was not answered, and each section comes from its own query's reply |
| PlayerSupport.OperationIsTheOneAsked | internal/gateway/player_support.go:411-434 | an operation is replayed if and only if the upstream served a document, whole and with a success, that names the operation asked for; it is missing if and only if a readable 404 came |
| PlayerSupport.OtherStatusHasNoOperation | internal/gateway/player_support.go:421-428 | no status but a success gives an operation, or refuses one for its id |
| PlayerSupport.ReplayTellsEvidence | internal/gateway/player_support.go:436-490 | in either order of arrival both pieces of evidence end in place, and computing `partial` after the loop agrees with computing it within |
| SupportPage.PageIsSent | internal/gateway/player_support.go:183-203 | in every run, whoever asked for a page and got as far as the queries is sent the encoding of the sequential response, under every schedule of the workers and interleaving of requests, or an error when it cannot be encoded; a completed row tells of it |
| PlayerSupport.LargestLimitReadsNothing | internal/gateway/player_support.go:322-325 | under the largest 64-bit limit no section is ok, whatever the upstream sent, as its projection refuses the empty document |
| AuditSql.ClauseSelectsExactly | internal/gateway/audit_logs.go:165-208 | for every filter and row, the expression that SQL reads in the emitted text, evaluated with its arguments in three-valued logic, is true if and only if the database takes the arguments and the row meets each set field of the filter and, with neither route nor id set, is not an audit-admin row |
| AuditSql.ConditionSays | internal/gateway/audit_logs.go:174-202 | each condition, evaluated as an expression, is true of a row exactly if it says so, with null columns neither passing nor failing a row by accident |
| AuditText.ClauseRoundTrip | internal/gateway/audit_logs.go:169-207 | lexing and parsing the emitted text, by the binding strength of its operators, gives the conjunction of the conditions in order, the k-th on placeholder k, for every combination of filters |
| AuditText.LexCondition | internal/gateway/audit_logs.go:169-202 | a formatted condition is read token by token, whatever follows it behind a space |
| AuditText.ParseCondition | internal/gateway/audit_logs.go:169-202 | the tokens of a condition are one operand of the conjunction: no operator of it captures what follows |
| AuditText.ParenthesesMatter | internal/gateway/audit_logs.go:189 | without its parentheses the test of the route would capture the condition behind it |
| AuditText.FormatPass | internal/gateway/audit_logs.go:169-202 | the format pass puts the number in its place and keeps the rest, `'%'` included |
| AuditSql.LimitIsBoundLast | internal/gateway/audit_logs.go:42-76 | the limit's placeholder is one past the conditions', bound to the normalised limit, and changes nothing about what is selected |
| AuditSql.ListHttpApiCalls | internal/gateway/audit_logs.go:42-76 | the query, though it normalises twice, finds exactly the rows that the filter as given asks for, or fails when a field cannot be sent |
| AuditSql.QueryFindsWhatIsAsked | internal/gateway/audit_logs.go:151-208 | in terms of the filter as given: the method is compared trimmed and in capitals, texts trimmed, blank ones ask nothing, the rest as it is; the limit is 50 by default, itself up to 200, and 200 above |
| AuditQuery.NormalizesIff | internal/gateway/audit_logs.go:151-163 | normalising is exactly what that description says, field by field |
| AuditQuery.WhereClause | internal/gateway/audit_logs.go:165-208 | the closure's two slices end as the texts and arguments of the one filter that fits the description of normalising, field by field |
| AuditQuery.NormalizeIsIdempotent | internal/gateway/audit_logs.go:151-163 | a filter may be normalised any number of times |
| Ilike.SearchIsExact | internal/gateway/audit_logs.go:183-185 | the path condition is case-insensitive substring search if and only if the needle has no `%`, `_` or backslash, over all texts and over those that start with a slash |
| Ilike.MetaOvermatches | internal/gateway/audit_logs.go:183-185 | for every other needle, a path starting with a slash that it selects and that does not contain it |
| Routing.LookupFindsBest | internal/gateway/server.go:310-318 | after the stable sort, lookup finds the first declared among the matching routes with the longest prefix, and nothing only if no declared route matches |
| Routing.DeclarationOrderIrrelevant | internal/gateway/server.go:75-78 | without duplicate prefixes the order of declaration cannot be observed |
| Routing.SortRoutes | internal/gateway/server.go:75-78 | the in-place sort is a stable sort by falling prefix length |
| Routing.SortedIsStableSort | internal/gateway/server.go:75-78 | the function the in-place sort computes keeps the order among prefixes of equal length, and all routes |
| Routing.MatchesOnSegmentBoundary | internal/gateway/server.go:312-313 | a match is a prefix that ends the path or is followed by a slash |
| Routing.RootRouteIsNoCatchAll | internal/gateway/server.go:312-313 | a route for `/` matches `/` and paths that start with two slashes, nothing else |
| Routing.JoinIsAssociative | internal/gateway/server.go:486-499 | joining paths is associative over all strings |
| Routing.JoinHasOneSlash | internal/gateway/server.go:486-499 | whatever slashes face the seam, one is left, and the rest of both sides is kept |
| Routing.RewriteStaysOnPath | internal/gateway/server.go:478-499 | a rewritten path is, byte by byte, the target's own or continues it by one slash and the remainder, of which every byte is kept |
| DotSegments.RewriteLandsBelow | internal/gateway/server.go:478-499 | once dot segments are removed, a rewritten path is the target's own or below it if and only if the remainder does not climb above the target, or names again each segment it has left |
| DotSegments.StaysBelowIffNeverClimbs | internal/gateway/server.go:478-499 | a remainder stays below every target if and only if no front of it has more `..` than ordinary segments |
| DotSegments.ClimbingPathLeaves | internal/gateway/server.go:310-318 | a matched path that leads out of its target, for every prefix and target of one segment |
| DotSegments.ResolveIsRemoval | internal/gateway/server.go:478-484 | the resolution these rows speak of is the algorithm of RFC 3986 section 5.2.4 over its two buffers |
| Routing.RewriteIsInjective | internal/gateway/server.go:478-499 | two paths of one route reach the same upstream URL if and only if they differ only in slashes behind the prefix |
| Routing.RewritesCompose | internal/gateway/server.go:478-499 | rewriting by two routes in a row is rewriting by one to the second target |
| RouteConfig.TableRoundTrip | internal/gateway/config.go:129-172 | parsing a printed table gives it back, for all well-formed routes whose fields hold no separator that would split them |
| RouteConfig.AcceptedTableRoundTrip | internal/gateway/config.go:129-172 | an accepted table whose targets can be printed is read back from its printed form if and only if no prefix ends in white space |
| RouteConfig.SpacedPrefixIsAccepted | internal/gateway/config.go:154-157 | an entry with a space before the trailing slash of its prefix is accepted, and its prefix keeps the space |
| RouteConfig.AcceptedTableIsValid | internal/gateway/server.go:724-739 | an accepted table is not empty and has a route for each entry that is not blank; each has a name, a prefix that starts with a slash and does not end in one unless it is one, a scheme and a host |
| RouteConfig.EntryWithParts | internal/gateway/config.go:136-163 | an entry with its parts is accepted if and only if its name is not blank, its prefix is blank or starts with a slash, and its target is an absolute URL |
| RouteConfig.EntryWithoutParts | internal/gateway/config.go:136-145 | an entry without both separators in their order is refused |
| RouteConfig.FirstErrorDecides | internal/gateway/config.go:131-165 | a table is refused for its first bad entry |
| RouteConfig.BlankEntriesAreIgnored | internal/gateway/config.go:129-172 | blank entries may stand anywhere |
| RouteConfig.ParseRoutes | internal/gateway/config.go:129-172 | the loop computes the table, or the error of the first bad entry, that the round trip is about |
| Headers.ForwardHeaders | internal/gateway/server.go:427-432 | key by key, with the keys spelt out: each of the gateway's keys has its own single value, the listed private keys are gone, the rest keep their values in order; host and scheme are the request's; `X-Forwarded-For` is what the client reported, or else the edge, then the peer, and absent only when there is none of them |
| Headers.OutgoingIs | internal/gateway/server.go:501-584 | the header the other statements speak of is that one |
| Headers.PeersAreAppended | internal/gateway/server.go:564-577 | of two gateways in a row the second appends the peer it saw to what the first one told |
| Headers.CopyHeaders | internal/gateway/server.go:501-510 | in whatever order the map is walked, each key that passes has its values appended behind those already there |
| Headers.NothingForgedIsForwarded | internal/gateway/server.go:523-545 | under the credential and identity keys, what is forwarded does not depend on what the client sent |
| Headers.CopyResponseHeaders | internal/gateway/server.go:512-521 | upstream values come behind the gateway's own, dropped keys do not come at all |
| Headers.ResponseIs | internal/gateway/server.go:547-562 | for every key but the nine listed, the upstream's values follow the gateway's; for those nine, only the gateway's are there |
| Headers.GatewayHeadersComeFirst | internal/gateway/server.go:512-521 | an upstream cannot displace the first value of a key the gateway has set |
| Headers.SanitizedHeaders | internal/gateway/audit.go:288-303 | no dropped key remains, each remaining one comes from the header, and for canonical headers exactly the dropped keys are gone |
| Headers.AuditKeeps | internal/gateway/audit.go:305-330 | of a request all is kept but eight listed keys, of a response all but three |
| Headers.CanonicalIsIdempotent | internal/gateway/audit.go:291-292 | canonicalising a key again changes nothing, so dropping by the canonical key is well defined |
| Headers.CanonicalSpelling | internal/gateway/server.go:523-524 | spellings that differ in letter case only are one key, with a capital at the start and after each hyphen |
| Tokens.ExtractAccessToken | internal/gateway/token.go:15-21 | the token of a bearer header, described over its text, else that of the preferred cookie, else of the least session cookie in byte order that holds one; none only if none does |
| Tokens.CookieTokenIsUnique | internal/gateway/token.go:33-69 | only one outcome fits that description, so map order cannot be observed |
| Tokens.AccessTokenFromCookies | internal/gateway/token.go:33-69 | the loops over cookie map, candidates and sorted names arrive at it |
| Tokens.ChunkedSessionIsFound | internal/gateway/token.go:42-124 | a session document encoded, split over any chunks and stored under the preferred name yields its own token, whatever other cookies there are |
| Tokens.PeelInvertsBase64 | internal/gateway/token.go:116-121 | peeling `base64-` and raw base64url gives every byte string back |
| Tokens.PeelInvertsEscape | internal/gateway/token.go:122-124 | peeling an escaped document gives it back if and only if it does not start with `base64-`; no JSON object or array does |
| Tokens.BearerRoundTrip | internal/gateway/token.go:23-31 | a scheme in any letter case and a one-word token are read back as that token |
| Tokens.BearerTokenIsOneWord | internal/gateway/token.go:23-31 | an accepted bearer token is not empty and holds no white space |
| Tokens.BearerTokenIff | internal/gateway/token.go:23-31 | a header yields token `t` if and only if, trimmed, it is a word that is `bearer` in some letter case, a non-empty run of white space, and the one non-empty word `t` |
| Tokens.OtherSchemeFallsThrough | internal/gateway/token.go:15-21 | under any other first word the outcome is that of the cookies |
| Tokens.TokenOfDocument | internal/gateway/token.go:126-138 | the present form comes before the legacy one; of that, the first element is the token; blank tokens are none |
| Tokens.JarHoldsLast | internal/gateway/token.go:34-40 | each name holds the value of the last cookie of that name |
| Tokens.CandidatesAre | internal/gateway/token.go:48-54 | a candidate starts with `sb-`, ends with `-auth-token`, and is the base name of some cookie |
| Cookies.CombineCookieChunks | internal/gateway/token.go:80-95 | the loop ends, and returns the whole cookie or all chunks in order |
| Cookies.SplitCookieIsReassembled | internal/gateway/token.go:80-95 | any list of chunks with the next number free comes back as their concatenation |
| Cookies.MoreChunksThanSeen | internal/gateway/token.go:86-92 | the loop's bound: no two numbers are written alike, so there are no more chunks than cookies |
| Cookies.BaseNameOfChunk | internal/gateway/token.go:97-108 | the base name of every chunk key is the name |
| Cookies.BaseNameIs | internal/gateway/token.go:97-108 | a name that is not a name, a dot and digits is its own base name |
| Cookies.WholeCookieComesFirst | internal/gateway/token.go:81-83 | a whole cookie that is not empty is taken, whatever chunks there are |
| Cookies.AtMostIsByFirstDifference | internal/gateway/token.go:60 | names are ordered by the first byte in which they differ, prefixes first |
| AuditBodies.StoredIsPrefix | internal/gateway/audit.go:231-278 | decoding what is stored gives the first bytes up to the limit, and `truncated` holds exactly if the size exceeds what is stored |
| AuditBodies.JsonIsKept | internal/gateway/audit.go:264-275 | the document column is filled exactly for a whole body, not empty, whose content type speaks of JSON |
| AuditBodies.PathsAgree | internal/gateway/audit.go:217-233 | upstream bodies and the gateway's own are recorded alike |
| AuditBodies.TextSurvivesCut | internal/gateway/audit.go:235-262 | a well-formed text stays text if and only if the cut splits no code point |
| AuditBodies.NewAuditBody | internal/gateway/audit.go:247-278 | the fields filled in one by one are those the theorems are about |
| AuditBodies.ClientRequestIdIsBounded | internal/gateway/audit.go:206-215 | a long id becomes well-formed UTF-8 of at most 128 bytes, a prefix of at least 125 bytes if it was well-formed; a short one is kept as it is |
| AuditBodies.BodyLimitIsExact | internal/gateway/server.go:320-337 | a body is refused exactly if longer than the limit and else read as sent, if and only if the limit is below the 64-bit maximum or the body is empty; audited size and stored bytes for every audit limit |
| AuditBodies.BrokenBody | internal/gateway/server.go:325-334 | under every limit: a broken connection is reported if and only if it breaks within a limit below the 64-bit maximum; past that limit the body is too large, and under the maximum it is taken for empty |
| AuditBodies.StorableIffFits | internal/gateway/audit.go:235-278 | what is recorded of a body fits its columns if and only if the kept bytes are ill-formed, and so stored as base64, or hold no zero byte; the size fits; and `jsonb` takes the document |
| AuditBodies.StoredIdFits | internal/gateway/audit.go:206-215 | a client id fits a text column if and only if what is kept of it holds no zero byte and it was cut or well-formed to begin with |
| Utf8.ValidCut | internal/gateway/audit.go:257-262 | a prefix of a well-formed text is well-formed if and only if it ends on a code point boundary |
| Utf8.ToValidAfterCut | internal/gateway/audit.go:206-215 | repairing a cut well-formed text drops at most the last, split code point |
| Utf8.ValidIsEncoded | internal/gateway/audit.go:257 | every well-formed text is the encoding of a sequence of Unicode scalar values |
| Utf8.EncodedIsValid | internal/gateway/audit.go:257 | and every such encoding is well-formed |
| Base64.StdRoundTrip | internal/gateway/audit.go:261 | decoding inverts encoding with padding |
| Base64.RawRoundTrip | internal/gateway/token.go:117 | decoding inverts encoding without padding, in either alphabet |
| Base64.QuadIsBigEndian | internal/gateway/audit.go:261 | three bytes and their four groups are one number |
| Base64.EndIsFilledUp | internal/gateway/audit.go:261 | the last group is filled up with zero bits |
| Base64.AlphabetIs | internal/gateway/token.go:117 | both alphabets are those of RFC 4648, tables 1 and 2 |
| PercentEncoding.UnescapeInvertsEscape | internal/gateway/token.go:122 | unescaping inverts escaping for every byte string |
| PercentEncoding.UnescapeReads | internal/gateway/token.go:122 | a plus sign is read as a space, a percent sign with two hexadecimal digits as their byte, other bytes as themselves |
| Decimal.AtoiInvertsItoa | internal/gateway/token.go:87 | decimal numbers are read back, so placeholders and chunk numbers are unambiguous |

## Left out

- Sockets, the HTTP client and server, timeouts, contexts, panics, process crashes: a call succeeds or fails as the request says. Reading an upstream body and building its request count as part of the call.
- Redirects: the HTTP client follows them, so an answer may come from another URL than the one that is called and recorded.
- The Postgres driver: a write is confirmed, refused or lost. The key, the types of the text and integer columns and the check constraints are modelled; what `jsonb` takes and what the index over the path takes are parameters; the other indexes are over columns of fixed size; limits of the server's resources (message and field sizes of a gigabyte, nesting) count as refusals.
- The JSON text of the header columns: a header column holds the header itself. Header values have no control bytes, so the column takes them; JSON encoding replaces ill-formed bytes in them.
- Start and finish times; `started_at` is a number to the filter. The duration is modelled for its constraint.
- JSON, UUID, time and URL parsing and printing are parameters; a URL is scheme, host, path and query, without raw paths.
- `parseAuditLogFilter` and path values: whether an administrator's input parses is part of the request. The single-row query of the detail handler is one call with three outcomes.
- The document of a listing: the store's answer is part of the request; which rows of the current table the query selects is `AuditListing.ListingShows`, and putting them in order and cutting at the limit is the database's part. The page of a player is tied to the fan-out by `SupportPage.PageIsSent`; the replay result is part of the request, and its classification is `PlayerSupport.LoadOperation`.
- Unicode letter case: only ASCII letters change case, in filters, header keys, schemes and `ilike`; locale and collation are not modelled.
- SQL beyond what conditions are made of: `not`, arithmetic, functions, comments and quoted names are not read.
- The security headers, `X-Trace-Id`, the access log's text, tracing and logging.
- Health and readiness probes, `internal/telemetry`, `cmd/gateway-service`, the rest of the environment loading.
- `internal/gateway/auth.go`: only its three outcomes are kept.
- Where the player-support queries go (`routeByName`, their paths and parameters): what came of each is its reply.
- Field-by-field projection of player-support documents: a projection is a parameter.
- Nil cookies; upstream statuses are the three-digit codes from 100 to 999.
- Gateway.HandleProxy: served by itself; steps of other requests between its calls are the matter of `Interleaving`, whose ended requests are proved to be of the same form. The three calls of `startAuditOrFail` are written as one.
- Gateway.HandleAdmin: the four handlers are one method, which differ in `TaskRefusal` and in the work; the fan-out within the work is `FanOut`.
- Tokens.PeelInvertsEscape: documents stored unescaped are not claimed to be read back, since unescaping rewrites `+` and `%`.
- FanOut.LoadPlayerSupport: goroutines are taken in turns by an arbitrary scheduler, one channel operation at a time.
