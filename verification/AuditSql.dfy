/** What the emitted WHERE clause selects: the expression SQL reads in it, evaluated in three-valued logic on a row. */
module AuditSql {
  import opened Wrappers
  import opened GoStrings
  import opened Postgres
  import opened AuditQuery
  import opened AuditText
  import opened Sql
  import Ilike
  import Utf8

  /** The columns the filter looks at; `None` is the SQL null. */
  datatype Row = Row(
    requestId: nat,
    userId: Option<nat>,
    method_: Bytes,
    path: Bytes,
    route: Option<Bytes>,
    authResult: Bytes,
    status: Option<int>,
    startedAt: int)

  function OrNull<T>(cell: Option<T>, value: T -> Value): Datum {
    if cell.Some? then Val(value(cell.value)) else Null
  }

  function Cell(row: Row, name: Bytes): Datum {
    if name == ColumnName(RequestId) then Val(Id(row.requestId))
    else if name == ColumnName(UserId) then OrNull(row.userId, (id: nat) => Id(id))
    else if name == ColumnName(Method) then Val(Text(row.method_))
    else if name == PATH then Val(Text(row.path))
    else if name == ROUTE then OrNull(row.route, (text: Bytes) => Text(text))
    else if name == ColumnName(AuthResult) then Val(Text(row.authResult))
    else if name == ColumnName(ResponseStatus) then OrNull(row.status, (n: int) => Number(n))
    else if name == STARTED_AT then Val(Time(row.startedAt))
    else Failed
  }

  /** What the types of the columns take of an argument: another one makes the whole query fail. */
  predicate ArgumentFits(v: Value) {
    match v
    case Text(text) => TextFits(text)
    case Number(number) => IntegerFits(number)
    case _ => true
  }

  predicate ArgumentsFit(args: seq<Value>) {
    forall i :: 0 <= i < |args| ==> ArgumentFits(args[i])
  }

  /** Whether the database returns the row: only a condition that is true lets it through. */
  predicate Selects(text: Bytes, args: seq<Value>, row: Row) {
    ArgumentsFit(args) &&
    match ReadClause(text)
    case Malformed => false
    case Absent => true
    case Where(condition) => Eval(condition, name => Cell(row, name), args) == Bool(true)
  }

  /** What the filter asks for, said about the row itself. */
  predicate Accepts(f: Filter, row: Row) {
    && (f.requestId.Some? ==> row.requestId == f.requestId.value)
    && (f.userId.Some? ==> row.userId == f.userId)
    && (f.method_ != [] ==> row.method_ == f.method_)
    && (f.pathContains != [] ==> Ilike.Matches(row.path, Ilike.Around(f.pathContains)))
    && (f.route != [] ==> row.route == Some(f.route))
    && (f.route == [] && f.requestId.None? ==> row.route != Some(AUDIT_ADMIN))
    && (f.authResult != [] ==> row.authResult == f.authResult)
    && (f.status.Some? ==> row.status == f.status)
    && (f.since.Some? ==> f.since.value <= row.startedAt)
    && (f.until.Some? ==> row.startedAt < f.until.value)
  }

  /** A filter whose set fields the database takes as arguments. */
  predicate Askable(f: Filter) {
    && TextFits(f.method_) && TextFits(f.pathContains) && TextFits(f.route) && TextFits(f.authResult)
    && (f.status.Some? ==> IntegerFits(f.status.value))
  }

  // ------------------------------------------------------------ one condition

  /** What a condition says of a row, for the values it is ever bound to. */
  predicate Says(c: Condition, v: Value, row: Row) {
    match c
    case Equals(RequestId) => v == Id(row.requestId)
    case Equals(UserId) => row.userId.Some? && v == Id(row.userId.value)
    case Equals(Method) => v == Text(row.method_)
    case Equals(Route) => row.route.Some? && v == Text(row.route.value)
    case Equals(AuthResult) => v == Text(row.authResult)
    case Equals(ResponseStatus) => row.status.Some? && v == Number(row.status.value)
    case PathLike => v.Text? && Ilike.Matches(row.path, Ilike.Around(v.text))
    case NotAuditAdmin => row.route.None? || (v.Text? && v.text != row.route.value)
    case StartedSince => v.Time? && row.startedAt >= v.time
    case StartedBefore => v.Time? && row.startedAt < v.time
  }

  lemma NamesDiffer()
    ensures |ColumnName(RequestId)| == |STARTED_AT| == 10 && ColumnName(RequestId)[0] != STARTED_AT[0]
    ensures |ColumnName(UserId)| == 7 && |ColumnName(Method)| == 6 && |PATH| == 4 && |ROUTE| == 5
    ensures |ColumnName(AuthResult)| == 11 && |ColumnName(ResponseStatus)| == 15 && ROUTE == ColumnName(Route)
  {
  }

  /** The values a condition is bound to are of the type of its column. */
  predicate WellTyped(c: Condition, v: Value) {
    match c
    case Equals(RequestId) | Equals(UserId) => v.Id?
    case Equals(ResponseStatus) => v.Number?
    case StartedSince | StartedBefore => v.Time?
    case _ => v.Text?
  }

  lemma ComparisonSays(c: Condition, n: nat, args: seq<Value>, row: Row)
    requires !c.PathLike? && !c.NotAuditAdmin? && 1 <= n <= |args| && WellTyped(c, args[n - 1])
    ensures Eval(Meaning(c, n), name => Cell(row, name), args) == Bool(true) <==> Says(c, args[n - 1], row)
  {
    hide Cell, Subject, Says, Comparison;
    var cell: Bytes -> Datum := name => Cell(row, name);
    assert Eval(ColumnRef(Subject(c)), cell, args) == Cell(row, Subject(c));
    assert Eval(Placeholder(n), cell, args) == Val(args[n - 1]);
    CellSays(c, args[n - 1], row);
  }

  /** The comparison of a condition, made of the cell and the value it is bound to. */
  lemma CellSays(c: Condition, v: Value, row: Row)
    requires !c.PathLike? && !c.NotAuditAdmin? && WellTyped(c, v)
    ensures Apply(OperatorOf(Symbol(Comparison(c))).value, Cell(row, Subject(c)), Val(v)) == Bool(true) <==>
        Says(c, v, row)
  {
    hide ColumnName, PATH, ROUTE, STARTED_AT;
    NamesDiffer();
  }

  lemma PathSays(n: nat, args: seq<Value>, row: Row)
    requires 1 <= n <= |args| && args[n - 1].Text?
    ensures Eval(Meaning(PathLike, n), name => Cell(row, name), args) == Bool(true) <==>
        Says(PathLike, args[n - 1], row)
  {
    hide ColumnName, PATH, ROUTE, STARTED_AT, Ilike.Matches;
    NamesDiffer();
    var cell: Bytes -> Datum := name => Cell(row, name);
    var percent: Bytes := "%";
    var text := args[n - 1].text;
    assert Eval(ColumnRef(PATH), cell, args) == Val(Text(row.path));
    var front := Binary(Concatenated, Literal("%"), Placeholder(n));
    assert Eval(Literal("%"), cell, args) == Val(Text(percent)) && Eval(Placeholder(n), cell, args) == Val(Text(text));
    assert Eval(front, cell, args) == Val(Text(percent + text));
    assert Eval(Binary(Concatenated, front, Literal("%")), cell, args) == Val(Text(percent + text + percent));
    assert Ilike.Around(text) == percent + text + percent;
  }

  lemma RouteSays(n: nat, args: seq<Value>, row: Row)
    requires 1 <= n <= |args| && args[n - 1].Text?
    ensures Eval(Meaning(NotAuditAdmin, n), name => Cell(row, name), args) == Bool(true) <==>
        Says(NotAuditAdmin, args[n - 1], row)
  {
    hide ColumnName, PATH, ROUTE, STARTED_AT;
    NamesDiffer();
    var cell: Bytes -> Datum := name => Cell(row, name);
    var route := if row.route.Some? then Val(Text(row.route.value)) else Null;
    assert Eval(ColumnRef(ROUTE), cell, args) == route && Eval(Placeholder(n), cell, args) == Val(args[n - 1]);
    assert Eval(IsNull(ColumnRef(ROUTE)), cell, args) == Bool(row.route.None?);
    assert Eval(Binary(Different, ColumnRef(ROUTE), Placeholder(n)), cell, args)
        == if row.route.None? then Null else Bool(row.route.value != args[n - 1].text);
  }

  /**
   * A condition is true of a row just when it says so: null columns neither let a row through nor keep one out by
   * accident.
   */
  lemma ConditionSays(c: Condition, n: nat, args: seq<Value>, row: Row)
    requires 1 <= n <= |args| && WellTyped(c, args[n - 1])
    ensures Eval(Meaning(c, n), name => Cell(row, name), args) == Bool(true) <==> Says(c, args[n - 1], row)
  {
    hide Eval, Meaning, Says;
    match c
    case PathLike => PathSays(n, args, row);
    case NotAuditAdmin => RouteSays(n, args, row);
    case _ => ComparisonSays(c, n, args, row);
  }

  // ------------------------------------------------------------ all conditions

  predicate TermHolds(term: Term, row: Row) {
    ArgumentFits(term.value) && Says(term.condition, term.value, row)
  }

  predicate TermsTyped(terms: seq<Term>) {
    forall i :: 0 <= i < |terms| ==> WellTyped(terms[i].condition, terms[i].value)
  }

  predicate AllHold(terms: seq<Term>, row: Row) {
    forall t <- terms :: TermHolds(t, row)
  }

  lemma AllHoldConcat(a: seq<Term>, b: seq<Term>, row: Row)
    ensures AllHold(a + b, row) <==> AllHold(a, row) && AllHold(b, row)
  {
    hide TermHolds;
    assert forall t :: t in a + b <==> t in a || t in b;
  }

  lemma AllHoldOne(t: Term, row: Row)
    ensures AllHold([t], row) <==> TermHolds(t, row)
  {
    hide TermHolds;
    assert t in [t];
  }

  lemma ConjunctionTrue(left: Expr, right: Expr, cell: Bytes -> Datum, args: seq<Value>)
    ensures Eval(Binary(And, left, right), cell, args) == Bool(true)
            <==> Eval(left, cell, args) == Bool(true) && Eval(right, cell, args) == Bool(true)
  {
  }

  lemma {:induction false} ConjoinedTrue(left: Expr, terms: seq<Term>, from: nat, args: seq<Value>, row: Row)
    requires 1 <= from && from - 1 + |terms| <= |args| && TermsTyped(terms)
    requires forall i :: 0 <= i < |terms| ==> args[from - 1 + i] == terms[i].value
    ensures Eval(Conjoined(left, terms, from), name => Cell(row, name), args) == Bool(true)
            <==> Eval(left, name => Cell(row, name), args) == Bool(true)
                 && forall i :: 0 <= i < |terms| ==> Says(terms[i].condition, terms[i].value, row)
    decreases |terms|
  {
    hide Eval, Meaning, Says, WellTyped, Cell;
    if terms != [] {
      var first, rest := terms[0], terms[1..];
      assert args[from - 1 + 0] == first.value;
      forall i | 0 <= i < |rest| ensures args[from + i] == rest[i].value {
        assert args[from - 1 + (i + 1)] == terms[i + 1].value;
      }
      ConditionSays(first.condition, from, args, row);
      ConjunctionTrue(left, Meaning(first.condition, from), name => Cell(row, name), args);
      ConjoinedTrue(Binary(And, left, Meaning(first.condition, from)), rest, from + 1, args, row);
      assert forall i :: 1 <= i < |terms| ==> terms[i] == rest[i - 1];
    }
  }

  predicate AllSay(terms: seq<Term>, row: Row) {
    forall i :: 0 <= i < |terms| ==> Says(terms[i].condition, terms[i].value, row)
  }

  lemma {:induction false} ConditionsSay(terms: seq<Term>, args: seq<Value>, row: Row)
    requires terms != [] && TermsTyped(terms) && |terms| <= |args|
    requires forall i :: 0 <= i < |terms| ==> args[i] == terms[i].value
    ensures Eval(Conjoined(Meaning(terms[0].condition, 1), terms[1..], 2), name => Cell(row, name), args) == Bool(true)
            <==> AllSay(terms, row)
  {
    hide Eval, Says, Meaning, WellTyped, Cell, Conjoined;
    var first, rest := terms[0], terms[1..];
    ConditionSays(first.condition, 1, args, row);
    forall i | 0 <= i < |rest| ensures args[2 - 1 + i] == rest[i].value {
      assert args[i + 1] == terms[i + 1].value;
    }
    ConjoinedTrue(Meaning(first.condition, 1), rest, 2, args, row);
    assert forall i :: 1 <= i < |terms| ==> terms[i] == rest[i - 1];
  }

  lemma AllHoldIff(terms: seq<Term>, row: Row)
    ensures AllHold(terms, row)
            <==> AllSay(terms, row) && forall i :: 0 <= i < |terms| ==> ArgumentFits(terms[i].value)
  {
    hide Says, ArgumentFits;
    assert AllHold(terms, row) <==> forall i :: 0 <= i < |terms| ==> TermHolds(terms[i], row);
  }

  /**
   * The clause and its arguments, with whatever arguments follow them, select a row just when all conditions hold of
   * it.
   */
  lemma SelectsAllHold(terms: seq<Term>, more: seq<Value>, row: Row)
    requires TermsTyped(terms) && ArgumentsFit(more)
    ensures Selects(ClauseText(terms), Args(terms) + more, row) <==> AllHold(terms, row)
  {
    hide ReadClause, ClauseText, Eval, Meaning, ArgumentFits, TermsTyped, Cell, AllHold, AllSay;
    var args := Args(terms) + more;
    assert forall i :: 0 <= i < |terms| ==> args[i] == terms[i].value;
    assert ArgumentsFit(args) <==> forall i :: 0 <= i < |terms| ==> ArgumentFits(terms[i].value);
    ClauseRoundTrip(terms);
    AllHoldIff(terms, row);
    if terms != [] {
      ConditionsSay(terms, args, row);
    } else {
      NothingSaid(row);
    }
  }

  lemma NothingSaid(row: Row)
    ensures AllSay([], row)
  {
  }

  lemma FilterTermsTyped(f: Filter)
    ensures TermsTyped(Terms(f))
  {
    hide WellTyped, TermsTyped;
    IdsTyped(f);
    RequestTyped(f);
    OutcomeTyped(f);
    TypedConcat(IdTerms(f), RequestTerms(f));
    TypedConcat(IdTerms(f) + RequestTerms(f), OutcomeTerms(f));
  }

  lemma TypedConcat(a: seq<Term>, b: seq<Term>)
    requires TermsTyped(a) && TermsTyped(b)
    ensures TermsTyped(a + b)
  {
  }

  lemma IdsTyped(f: Filter)
    ensures TermsTyped(IdTerms(f))
  {
  }

  lemma RequestTyped(f: Filter)
    ensures TermsTyped(RequestTerms(f))
  {
  }

  lemma OutcomeTyped(f: Filter)
    ensures TermsTyped(OutcomeTerms(f))
  {
  }

  lemma AllHoldOfNone(row: Row)
    ensures AllHold([], row)
  {
  }

  lemma IdTermsHold(f: Filter, row: Row)
    ensures AllHold(IdTerms(f), row)
            <==> (f.requestId.Some? ==> row.requestId == f.requestId.value) &&
                 (f.userId.Some? ==> row.userId == f.userId)
  {
    hide AllHold;
    AllHoldConcat(IdTerm(RequestId, f.requestId), IdTerm(UserId, f.userId), row);
    AllHoldOfNone(row);
    if f.requestId.Some? {
      AllHoldOne(Term(Equals(RequestId), Id(f.requestId.value)), row);
    }
    if f.userId.Some? {
      AllHoldOne(Term(Equals(UserId), Id(f.userId.value)), row);
    }
  }

  lemma WhenHolds(set_: bool, t: Term, row: Row)
    ensures AllHold(When(set_, t), row) <==> (set_ ==> TermHolds(t, row))
  {
    hide TermHolds;
    AllHoldOne(t, row);
  }

  /** The texts no filter asks for, and the one that is asked for by default, are no trouble. */
  lemma DefaultTextsFit()
    ensures TextFits([]) && TextFits(AUDIT_ADMIN)
  {
    hide TextFits;
    AsciiFits([]);
    AsciiFits(AUDIT_ADMIN);
  }

  lemma RouteTermHolds(f: Filter, row: Row)
    ensures AllHold(RouteTerm(f), row)
            <==> TextFits(f.route) && (f.route != [] ==> row.route == Some(f.route))
                 && (f.route == [] && f.requestId.None? ==> row.route != Some(AUDIT_ADMIN))
  {
    hide AllHold, TextFits, AUDIT_ADMIN;
    DefaultTextsFit();
    AllHoldOfNone(row);
    AllHoldOne(Term(Equals(Route), Text(f.route)), row);
    AllHoldOne(Term(NotAuditAdmin, Text(AUDIT_ADMIN)), row);
  }

  lemma RequestTermsHold(f: Filter, row: Row)
    ensures AllHold(RequestTerms(f), row)
            <==> TextFits(f.method_) && (f.method_ != [] ==> row.method_ == f.method_)
                 && TextFits(f.pathContains)
                 && (f.pathContains != [] ==> Ilike.Matches(row.path, Ilike.Around(f.pathContains)))
                 && AllHold(RouteTerm(f), row)
  {
    hide AllHold, RouteTerm, When, Ilike.Matches, TextFits;
    DefaultTextsFit();
    var method_, path := Term(Equals(Method), Text(f.method_)), Term(PathLike, Text(f.pathContains));
    AllHoldConcat(When(f.method_ != [], method_), When(f.pathContains != [], path), row);
    AllHoldConcat(When(f.method_ != [], method_) + When(f.pathContains != [], path), RouteTerm(f), row);
    WhenHolds(f.method_ != [], method_, row);
    WhenHolds(f.pathContains != [], path, row);
  }

  lemma TimeTermsHold(f: Filter, row: Row)
    ensures AllHold(TimeTerm(StartedSince, f.since), row) <==> (f.since.Some? ==> f.since.value <= row.startedAt)
    ensures AllHold(TimeTerm(StartedBefore, f.until), row) <==> (f.until.Some? ==> row.startedAt < f.until.value)
    ensures AllHold(StatusTerm(f.status), row)
            <==> (f.status.Some? ==> IntegerFits(f.status.value) && row.status == f.status)
  {
    hide AllHold;
    AllHoldOfNone(row);
    if f.since.Some? {
      AllHoldOne(Term(StartedSince, Time(f.since.value)), row);
    }
    if f.until.Some? {
      AllHoldOne(Term(StartedBefore, Time(f.until.value)), row);
    }
    if f.status.Some? {
      AllHoldOne(Term(Equals(ResponseStatus), Number(f.status.value)), row);
    }
  }

  lemma OutcomeTermsHold(f: Filter, row: Row)
    ensures AllHold(OutcomeTerms(f), row)
            <==> TextFits(f.authResult) && (f.authResult != [] ==> row.authResult == f.authResult)
                 && (f.status.Some? ==> IntegerFits(f.status.value) && row.status == f.status)
                 && (f.since.Some? ==> f.since.value <= row.startedAt)
                 && (f.until.Some? ==> row.startedAt < f.until.value)
  {
    hide AllHold, TimeTerm, StatusTerm, When, TextFits;
    DefaultTextsFit();
    var auth := When(f.authResult != [], Term(Equals(AuthResult), Text(f.authResult)));
    var status, since := StatusTerm(f.status), TimeTerm(StartedSince, f.since);
    AllHoldConcat(auth, status, row);
    AllHoldConcat(auth + status, since, row);
    AllHoldConcat(auth + status + since, TimeTerm(StartedBefore, f.until), row);
    WhenHolds(f.authResult != [], Term(Equals(AuthResult), Text(f.authResult)), row);
    TimeTermsHold(f, row);
  }

  lemma TermsHold(f: Filter, row: Row)
    ensures AllHold(Terms(f), row) <==> Askable(f) && Accepts(f, row)
  {
    hide AllHold, IdTerms, RequestTerms, RouteTerm, OutcomeTerms, Ilike.Matches, TextFits, IntegerFits;
    AllHoldConcat(IdTerms(f), RequestTerms(f), row);
    AllHoldConcat(IdTerms(f) + RequestTerms(f), OutcomeTerms(f), row);
    IdTermsHold(f, row);
    RequestTermsHold(f, row);
    RouteTermHolds(f, row);
    OutcomeTermsHold(f, row);
  }

  /**
   * The database selects a row for the emitted text and arguments exactly when it takes the filter's fields as
   * arguments at all, and the row meets every one that is set.
   */
  lemma ClauseSelectsExactly(filter: Filter, row: Row)
    ensures var f := Normalize(filter);
            Selects(ClauseText(Terms(f)), Args(Terms(f)), row) <==> Askable(f) && Accepts(f, row)
  {
    hide Normalize, AllHold, Terms, ClauseText, Selects, Askable, Accepts;
    var f := Normalize(filter);
    FilterTermsTyped(f);
    SelectsAllHold(Terms(f), [], row);
    assert Args(Terms(f)) + [] == Args(Terms(f));
    TermsHold(f, row);
  }

  // ------------------------------------------------------------ in terms of the filter as it is given

  /** A text field of a filter as it is given asks for something only when there is more to it than white space. */
  predicate Blank(s: Bytes) {
    TrimSpace(s) == []
  }

  /** What a filter as it is given asks of a row. */
  predicate Asks(f: Filter, row: Row) {
    && (f.requestId.Some? ==> row.requestId == f.requestId.value)
    && (f.userId.Some? ==> row.userId == f.userId)
    && (!Blank(f.method_) ==> Raised(row.method_, TrimSpace(f.method_)))
    && (!Blank(f.pathContains) ==> Ilike.Matches(row.path, Ilike.Around(TrimSpace(f.pathContains))))
    && (!Blank(f.route) ==> row.route == Some(TrimSpace(f.route)))
    && (Blank(f.route) && f.requestId.None? ==> row.route != Some("audit-admin"))
    && (!Blank(f.authResult) ==> row.authResult == TrimSpace(f.authResult))
    && (f.status.Some? ==> row.status == f.status)
    && (f.since.Some? ==> f.since.value <= row.startedAt)
    && (f.until.Some? ==> row.startedAt < f.until.value)
  }

  /** Whether the database takes its fields as arguments. */
  predicate IsSendable(f: Filter) {
    && TextFits(TrimSpace(f.method_)) && TextFits(TrimSpace(f.pathContains))
    && TextFits(TrimSpace(f.route)) && TextFits(TrimSpace(f.authResult))
    && (f.status.Some? ==> IntegerFits(f.status.value))
  }

  /** Capitals fit where small letters do. */
  lemma {:induction false} UpperFits(s: Bytes)
    ensures TextFits(ToUpper(s)) <==> TextFits(s)
    decreases |s|
  {
    hide Utf8.Valid;
    UpperIsValid(s);
    var u := ToUpper(s);
    assert NUL in s ==> exists i :: 0 <= i < |s| && s[i] == NUL && u[i] == NUL;
    assert forall i :: 0 <= i < |u| ==> (u[i] == NUL ==> s[i] == NUL && s[i] in s);
  }

  lemma UpperRune(s: Bytes)
    ensures Utf8.RuneWidth(ToUpper(s)) == Utf8.RuneWidth(s)
  {
    var u := ToUpper(s);
    assert forall i :: 0 <= i < |s| ==> u[i] == s[i] || ((s[i] as int) < 0x80 && (u[i] as int) < 0x80);
  }

  lemma {:induction false} UpperIsValid(s: Bytes)
    ensures Utf8.Valid(ToUpper(s)) <==> Utf8.Valid(s)
    decreases |s|
  {
    hide Utf8.RuneWidth;
    UpperRune(s);
    var w := Utf8.RuneWidth(s);
    if s != [] && w > 0 {
      UpperIsValid(s[w..]);
      assert ToUpper(s)[w..] == ToUpper(s[w..]);
    }
  }

  lemma NormalAsks(filter: Filter, row: Row)
    ensures var f := Normalize(filter);
            (Askable(f) <==> IsSendable(filter)) && (Accepts(f, row) <==> Asks(filter, row))
  {
    hide TrimSpace, TextFits, IntegerFits, Ilike.Matches;
    var m := TrimSpace(filter.method_);
    UpperFits(m);
    RaisedIsUpper(row.method_, m);
  }

  /**
   * The list query as a whole, for a filter as it is given: it finds just the rows the filter asks for, or fails when
   * a field cannot be sent; and the limit is 50 unless one is given, and at most 200.
   */
  lemma QueryFindsWhatIsAsked(filter: Filter, row: Row)
    ensures var query := Listed(filter);
            && (Selects(query.clause, query.args, row) <==> IsSendable(filter) && Asks(filter, row))
            && |query.args| > 0 && query.limitPlaceholder == |query.args|
            && query.args[|query.args| - 1]
               == Number(if filter.limit <= 0 then 50 else if filter.limit <= 200 then filter.limit else 200)
  {
    hide Selects, Terms, ClauseText, Askable, Accepts, Asks, IsSendable, TrimSpace;
    LimitIsBoundLast(filter, row);
    NormalAsks(filter, row);
    NormalizesIff(Normalize(filter), filter);
  }

  // ------------------------------------------------------------ the list query

  /** The end of the list query: the clause, and the placeholder the limit is bound to. */
  datatype ListQuery = ListQuery(clause: Bytes, limitPlaceholder: nat, args: seq<Value>)

  method ListHttpApiCalls(filter: Filter) returns (query: ListQuery)
    ensures query == Listed(filter)
    ensures forall row :: Selects(query.clause, query.args, row) <==> IsSendable(filter) && Asks(filter, row)
  {
    hide Normalize, Selects, Asks, IsSendable;
    var f := Normalize(filter);
    NormalizeIsIdempotent(filter);
    var clause, args := WhereClause(f);
    args := args + [Number(f.limit)];
    query := ListQuery(clause, |args|, args);
    forall row ensures Selects(query.clause, query.args, row) <==> IsSendable(filter) && Asks(filter, row) {
      QueryFindsWhatIsAsked(filter, row);
    }
  }

  function Listed(filter: Filter): ListQuery {
    var f := Normalize(filter);
    var args := Args(Terms(f)) + [Number(f.limit)];
    ListQuery(ClauseText(Terms(f)), |args|, args)
  }

  /**
   * The limit is bound behind all conditions, to a number the caller is told and that is never out of bounds; adding it
   * changes nothing about what is selected.
   */
  lemma LimitIsBoundLast(filter: Filter, row: Row)
    ensures var query, f := Listed(filter), Normalize(filter);
            && query.limitPlaceholder == |query.args| == |Terms(f)| + 1
            && query.args[query.limitPlaceholder - 1] == Number(f.limit) && 1 <= f.limit <= MAX_LIMIT
            && (Selects(query.clause, query.args, row) <==> Askable(f) && Accepts(f, row))
  {
    hide Normalize, AllHold, Terms, ClauseText, Selects, Askable, Accepts;
    var f := Normalize(filter);
    FilterTermsTyped(f);
    SelectsAllHold(Terms(f), [Number(f.limit)], row);
    TermsHold(f, row);
  }
}
