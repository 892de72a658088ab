/** The audit log filter, the WHERE clause it is compiled to, and what that clause means to the database. */
module AuditQuery {
  import opened Wrappers
  import opened GoStrings
  import Decimal
  import opened Sql

  const DEFAULT_LIMIT := 50
  const MAX_LIMIT := 200
  const AUDIT_ADMIN: Bytes := "audit-admin"

  datatype Filter = Filter(
    limit: int,
    requestId: Option<nat>,
    userId: Option<nat>,
    method_: Bytes,
    pathContains: Bytes,
    route: Bytes,
    authResult: Bytes,
    status: Option<int>,
    since: Option<int>,
    until: Option<int>)

  // ------------------------------------------------------------ normalisation

  function Normalize(f: Filter): (n: Filter)
    ensures 1 <= n.limit <= MAX_LIMIT
  {
    var limit := if f.limit <= 0 then DEFAULT_LIMIT else f.limit;
    f.(limit := if limit > MAX_LIMIT then MAX_LIMIT else limit,
       method_ := ToUpper(TrimSpace(f.method_)),
       pathContains := TrimSpace(f.pathContains),
       route := TrimSpace(f.route),
       authResult := TrimSpace(f.authResult))
  }

  /** `raised` is `s` with its ASCII small letters as capitals. */
  predicate Raised(raised: Bytes, s: Bytes) {
    && |raised| == |s|
    && forall i :: 0 <= i < |s| ==> raised[i] == if 'a' <= s[i] <= 'z' then s[i] - 'a' + 'A' else s[i]
  }

  /**
   * What normalising makes of a filter, field by field: texts are trimmed, the method is put in capitals, the limit
   * is put in bounds, and the rest is taken as it is.
   */
  predicate Normalizes(n: Filter, f: Filter) {
    && n.limit == (if f.limit <= 0 then 50 else if f.limit <= 200 then f.limit else 200)
    && Raised(n.method_, TrimSpace(f.method_))
    && n.pathContains == TrimSpace(f.pathContains)
    && n.route == TrimSpace(f.route)
    && n.authResult == TrimSpace(f.authResult)
    && n.requestId == f.requestId && n.userId == f.userId
    && n.status == f.status && n.since == f.since && n.until == f.until
  }

  /** Just one filter fits that description. */
  lemma NormalizesIff(n: Filter, f: Filter)
    ensures Normalizes(n, f) <==> n == Normalize(f)
  {
    hide TrimSpace;
    var m := TrimSpace(f.method_);
    RaisedIsUpper(n.method_, m);
  }

  lemma RaisedIsUpper(raised: Bytes, s: Bytes)
    ensures Raised(raised, s) <==> raised == ToUpper(s)
  {
    if Raised(raised, s) {
      assert forall i :: 0 <= i < |s| ==> raised[i] == ToUpper(s)[i];
    }
  }

  lemma UpperKeepsTrimmed(s: Bytes)
    requires Trimmed(s)
    ensures Trimmed(ToUpper(s)) && ToUpper(ToUpper(s)) == ToUpper(s)
  {
    var u := ToUpper(s);
    assert forall i :: 0 <= i < |s| ==> (u[i] == s[i] || ('a' <= s[i] <= 'z' && 'A' <= u[i] <= 'Z'));
  }

  /** A filter may be normalised once or any number of times. */
  lemma NormalizeIsIdempotent(f: Filter)
    ensures Normalize(Normalize(f)) == Normalize(f)
  {
    hide TrimSpace, Trimmed;
    UpperKeepsTrimmed(TrimSpace(f.method_));
  }

  // ------------------------------------------------------------ the conditions and their text

  datatype Column = RequestId | UserId | Method | Route | AuthResult | ResponseStatus

  datatype Condition =
    | Equals(column: Column)
    | PathLike
    | NotAuditAdmin
    | StartedSince
    | StartedBefore

  function ColumnName(column: Column): Bytes {
    match column
    case RequestId => "request_id"
    case UserId => "user_id"
    case Method => "method"
    case Route => "route"
    case AuthResult => "auth_result"
    case ResponseStatus => "response_status"
  }

  /** The format string a condition is written with. */
  function Template(c: Condition): Bytes {
    match c
    case Equals(column) => ColumnName(column) + " = $%d"
    case PathLike => "path ilike '%%' || $%d || '%%'"
    case NotAuditAdmin => "(route is null or route <> $%d)"
    case StartedSince => "started_at >= $%d"
    case StartedBefore => "started_at < $%d"
  }

  /** `fmt.Sprintf` with one integer: `%%` gives `%`, `%d` gives the integer. */
  function Sprintf(format: Bytes, n: nat): Bytes {
    if |format| < 2 then format
    else if format[0] == '%' && format[1] == '%' then "%" + Sprintf(format[2..], n)
    else if format[0] == '%' && format[1] == 'd' then Decimal.Itoa(n) + Sprintf(format[2..], n)
    else [format[0]] + Sprintf(format[1..], n)
  }

  const WHERE: Bytes := "where "
  const SEPARATOR: Bytes := " and "

  /** A condition with the value its placeholder is bound to. */
  datatype Term = Term(condition: Condition, value: Value)

  function When(set_: bool, term: Term): seq<Term> {
    if set_ then [term] else []
  }

  function IdTerm(column: Column, id: Option<nat>): seq<Term> {
    if id.Some? then [Term(Equals(column), Id(id.value))] else []
  }

  function TimeTerm(condition: Condition, time: Option<int>): seq<Term> {
    if time.Some? then [Term(condition, Time(time.value))] else []
  }

  function StatusTerm(status: Option<int>): seq<Term> {
    if status.Some? then [Term(Equals(ResponseStatus), Number(status.value))] else []
  }

  /** The audit log's own calls are left out unless a route or a single request is asked for. */
  function RouteTerm(f: Filter): seq<Term> {
    if f.route != [] then [Term(Equals(Route), Text(f.route))]
    else if f.requestId.None? then [Term(NotAuditAdmin, Text(AUDIT_ADMIN))]
    else []
  }

  function IdTerms(f: Filter): seq<Term> {
    IdTerm(RequestId, f.requestId) + IdTerm(UserId, f.userId)
  }

  function RequestTerms(f: Filter): seq<Term> {
    When(f.method_ != [], Term(Equals(Method), Text(f.method_)))
    + When(f.pathContains != [], Term(PathLike, Text(f.pathContains)))
    + RouteTerm(f)
  }

  function OutcomeTerms(f: Filter): seq<Term> {
    When(f.authResult != [], Term(Equals(AuthResult), Text(f.authResult)))
    + StatusTerm(f.status)
    + TimeTerm(StartedSince, f.since)
    + TimeTerm(StartedBefore, f.until)
  }

  /** The conditions of a normalised filter, in the order they are written. */
  function Terms(f: Filter): seq<Term> {
    IdTerms(f) + RequestTerms(f) + OutcomeTerms(f)
  }

  function Texts(terms: seq<Term>): seq<Bytes> {
    seq(|terms|, i requires 0 <= i < |terms| => Sprintf(Template(terms[i].condition), i + 1))
  }

  function Args(terms: seq<Term>): seq<Value> {
    seq(|terms|, i requires 0 <= i < |terms| => terms[i].value)
  }

  function ClauseText(terms: seq<Term>): Bytes {
    if terms == [] then "" else WHERE + Join(Texts(terms), SEPARATOR)
  }

  /** The slices `auditLogWhereClause` and its closure `add` append to. */
  class ClauseBuilder {
    var conditions: seq<Bytes>
    var args: seq<Value>
    ghost var terms: seq<Term>

    ghost predicate Valid()
      reads this
    {
      conditions == Texts(terms) && args == Args(terms)
    }

    constructor ()
      ensures Valid() && terms == []
    {
      conditions, args, terms := [], [], [];
    }

    method Add(condition: Condition, value: Value)
      requires Valid()
      modifies this
      ensures Valid() && terms == old(terms) + [Term(condition, value)]
    {
      hide Sprintf, Template;
      args := args + [value];
      conditions := conditions + [Sprintf(Template(condition), |args|)];
      terms := terms + [Term(condition, value)];
    }

    method AddIds(f: Filter)
      requires Valid()
      modifies this
      ensures Valid() && terms == old(terms) + IdTerms(f)
    {
      hide Valid;
      if f.requestId.Some? {
        Add(Equals(RequestId), Id(f.requestId.value));
      }
      if f.userId.Some? {
        Add(Equals(UserId), Id(f.userId.value));
      }
    }

    /** The conditions on what was asked for. */
    method AddRequest(f: Filter)
      requires Valid()
      modifies this
      ensures Valid() && terms == old(terms) + RequestTerms(f)
    {
      hide Valid;
      if f.method_ != [] {
        Add(Equals(Method), Text(f.method_));
      }
      if f.pathContains != [] {
        Add(PathLike, Text(f.pathContains));
      }
      if f.route != [] {
        Add(Equals(Route), Text(f.route));
      } else if f.requestId.None? {
        Add(NotAuditAdmin, Text(AUDIT_ADMIN));
      }
    }

    /** The conditions on how the call ended, and when. */
    method AddOutcome(f: Filter)
      requires Valid()
      modifies this
      ensures Valid() && terms == old(terms) + OutcomeTerms(f)
    {
      hide Valid;
      if f.authResult != [] {
        Add(Equals(AuthResult), Text(f.authResult));
      }
      if f.status.Some? {
        Add(Equals(ResponseStatus), Number(f.status.value));
      }
      if f.since.Some? {
        Add(StartedSince, Time(f.since.value));
      }
      if f.until.Some? {
        Add(StartedBefore, Time(f.until.value));
      }
    }
  }

  method WhereClause(filter: Filter) returns (text: Bytes, args: seq<Value>)
    ensures text == ClauseText(Terms(Normalize(filter))) && args == Args(Terms(Normalize(filter)))
    ensures forall f :: Normalizes(f, filter) ==> text == ClauseText(Terms(f)) && args == Args(Terms(f))
  {
    hide Normalize, IdTerms, RequestTerms, OutcomeTerms, Join;
    var f := Normalize(filter);
    var builder := new ClauseBuilder();
    builder.AddIds(f);
    builder.AddRequest(f);
    builder.AddOutcome(f);
    assert builder.terms == Terms(f);
    args := builder.args;
    if |builder.conditions| == 0 {
      text := "";
    } else {
      text := WHERE + Join(builder.conditions, SEPARATOR);
    }
    hide Normalizes, Terms, ClauseText, Args;
    forall g | Normalizes(g, filter) ensures g == f {
      NormalizesIff(g, filter);
    }
  }
}
