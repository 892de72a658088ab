/** What the audit trail guarantees over every run: any number of requests, any interleaving, any failures. */
module AuditTrail {
  import opened Wrappers
  import opened GoStrings
  import opened Routing
  import opened Headers
  import opened AuditBodies
  import opened Lifecycle
  import opened Postgres
  import Utf8
  import AuditQuery
  import opened Interleaving

  /** A run starts with no request under way, over a table that may hold rows already. */
  ghost predicate IsRun(cfg: Config, base: Table, run: seq<State>, steps: seq<Step>)
    requires cfg.maxBody <= MAX_INT64
  {
    && |run| == |steps| + 1 && run[0] == State(base, map[])
    && forall i :: 0 <= i < |steps| ==> Enabled(run[i], steps[i]) && run[i + 1] == Next(cfg, run[i], steps[i])
  }

  lemma {:induction false} RunKeepsInv(cfg: Config, base: Table, run: seq<State>, steps: seq<Step>, i: nat)
    requires cfg.maxBody <= MAX_INT64 && IsRun(cfg, base, run, steps) && i < |run|
    ensures Inv(cfg, base, run[i])
  {
    hide ProcInv, RowOf, Next;
    if i > 0 {
      RunKeepsInv(cfg, base, run, steps, i - 1);
      InvNext(cfg, base, run[i - 1], steps[i - 1]);
    }
  }

  // ------------------------------------------------------------ the calls a request makes

  function Rank(call: Call): nat {
    match call
    case Start => 0
    case Verify(_) => 1
    case Forward(_, _, _, _) | Work => 2
    case Finish => 3
  }

  /** Each call at most once, and in their order. */
  ghost predicate Ascending(calls: seq<Call>) {
    forall i, j :: 0 <= i < j < |calls| ==> Rank(calls[i]) < Rank(calls[j])
  }

  /**
   * Nothing is forwarded or worked on but for a user the verifier has just vouched for; for an admin's work, an
   * admin.
   */
  ghost predicate VerifiedFirst(cfg: Config, req: Request, calls: seq<Call>) {
    forall i :: 0 <= i < |calls| && Rank(calls[i]) == 2 ==>
      && i > 0 && req.token.Some? && calls[i - 1] == Verify(req.token.value) && req.verdict.User?
      && (calls[i].Work? ==> req.verdict.id in cfg.admins)
  }

  /** `Start` comes first, and nothing comes after it unless it succeeded. */
  ghost predicate AuditedFirst(p: Proc) {
    && (p.calls != [] ==> p.calls[0] == Start)
    && (|p.calls| > 1 ==> p.started)
  }

  lemma DecidedCalls(cfg: Config, req: Request)
    requires cfg.maxBody <= MAX_INT64
    ensures var calls := Decide(cfg, req).calls;
            && |calls| <= 2
            && (|calls| >= 1 ==> req.token.Some? && calls[0] == Verify(req.token.value))
            && (|calls| == 2 ==> Rank(calls[1]) == 2 && req.verdict.User?)
            && (|calls| == 2 && calls[1].Work? ==> req.verdict.id in cfg.admins)
  {
    hide ReadBody, BuildTargetUrl, ForwardedHeader, UpstreamAnswer, TaskAnswer, TaskRefusal;
  }

  /** The calls made so far, between those of the audit sink. */
  lemma CallsAreDecided(cfg: Config, p: Proc) returns (middle: seq<Call>, last: seq<Call>)
    requires ProcInv(cfg, p)
    ensures cfg.maxBody <= MAX_INT64
    ensures p.calls == Prefix(cfg) + middle + last || (p.calls == [] && middle + last == [])
    ensures middle <= Decide(cfg, p.req).calls
    ensures middle != [] ==> Admitted(cfg, p)
    ensures last == [] || (last == [Finish] && cfg.audited && Admitted(cfg, p))
  {
    hide FinalEntry, RespondTo, StartEntry, Unaudited, ProxyRefusal, TaskRefusal, UpstreamAnswer, TaskAnswer,
        MatchRoute, ReadBody, ForwardCall;
    match p.pc
    case AtStart => middle, last := [], [];
    case AtVerify => middle, last := [], [];
    case AtUpstream | AtWork =>
      middle, last := [Verify(p.req.token.value)], [];
      assert p.calls == Prefix(cfg) + middle + last;
    case AtFinish => middle, last := Decide(cfg, p.req).calls, [];
    case _ =>
      if Admitted(cfg, p) {
        middle, last := Decide(cfg, p.req).calls, Suffix(cfg);
      } else {
        middle, last := [], [];
      }
  }

  /** The decided calls, put between those of the audit sink, keep their order. */
  lemma AssembledAscend(first: seq<Call>, middle: seq<Call>, last: seq<Call>)
    requires first == [] || first == [Start]
    requires last == [] || last == [Finish]
    requires Ascending(middle) && forall i :: 0 <= i < |middle| ==> 0 < Rank(middle[i]) < 3
    ensures Ascending(first + middle + last)
  {
    var calls := first + middle;
    assert forall i :: |first| <= i < |calls| ==> calls[i] == middle[i - |first|];
    assert Ascending(calls);
    assert forall i :: 0 <= i < |calls| ==> Rank(calls[i]) < 3;
  }

  /** And their company. */
  lemma AssembledVerified(cfg: Config, req: Request, first: seq<Call>, middle: seq<Call>, last: seq<Call>)
    requires first == [] || first == [Start]
    requires last == [] || last == [Finish]
    requires VerifiedFirst(cfg, req, middle)
    ensures VerifiedFirst(cfg, req, first + middle + last)
  {
    var calls := first + middle;
    assert forall i :: |first| <= i < |calls| ==> calls[i] == middle[i - |first|];
    assert VerifiedFirst(cfg, req, calls);
  }

  /** What is decided is in order, as far as it has been carried out. */
  lemma DecidedInOrder(cfg: Config, req: Request, middle: seq<Call>)
    requires cfg.maxBody <= MAX_INT64 && middle <= Decide(cfg, req).calls
    ensures Ascending(middle) && VerifiedFirst(cfg, req, middle) && forall i :: 0 <= i < |middle| ==>
        0 < Rank(middle[i]) < 3
  {
    hide Decide;
    DecidedCalls(cfg, req);
    var calls := Decide(cfg, req).calls;
    assert |calls| >= 1 ==> Rank(calls[0]) == 1;
    assert forall i :: 0 <= i < |middle| ==> middle[i] == calls[i];
  }

  lemma CallsOfRequest(cfg: Config, p: Proc)
    requires ProcInv(cfg, p)
    ensures Ascending(p.calls) && VerifiedFirst(cfg, p.req, p.calls)
    ensures cfg.audited ==> AuditedFirst(p)
  {
    hide Decide, ProcInv;
    var middle, last := CallsAreDecided(cfg, p);
    DecidedInOrder(cfg, p.req, middle);
    AssembledAscend(Prefix(cfg), middle, last);
    AssembledVerified(cfg, p.req, Prefix(cfg), middle, last);
  }

  /**
   * In every run, at every moment: no collaborator is called before `Start` has succeeded, and none out of turn or
   * twice.
   */
  lemma CallsAreAudited(cfg: Config, base: Table, run: seq<State>, steps: seq<Step>, i: nat, pid: nat)
    requires cfg.maxBody <= MAX_INT64 && IsRun(cfg, base, run, steps) && i < |run| && pid in run[i].procs
    ensures var p := run[i].procs[pid];
            && Ascending(p.calls) && VerifiedFirst(cfg, p.req, p.calls)
            && (cfg.audited ==> AuditedFirst(p))
  {
    hide ProcInv, RowOf, Next, IsRun;
    RunKeepsInv(cfg, base, run, steps, i);
    CallsOfRequest(cfg, run[i].procs[pid]);
  }

  // ------------------------------------------------------------ what an ended request leaves behind

  predicate Tells(row: Row, response: Response, auditLimit: nat) {
    row.response.Some? && TellsResponse(row.response.value, response, auditLimit)
  }

  lemma CompleteRowTells(cfg: Config, req: Request, row: Row)
    requires cfg.maxBody <= MAX_INT64
    ensures var handed, complete := RespondTo(cfg, req, Decide(cfg, req).answer), Updated(row, FinalEntry(cfg, req));
            && Tells(complete, handed, cfg.auditLimit)
            && (Tells(complete, Delivered(req, handed), cfg.auditLimit)
                <==> BodyAllowed(req.method_, handed.status) || handed.body == [])
  {
    hide RespondTo, ResponseHalfOf, Decide, StartEntry, TellsResponse, Delivered;
    EntryMatchesResponse(cfg, req, Decide(cfg, req).answer);
  }

  /**
   * The account of a request that has ended: refused outright when `Start` failed, and otherwise answered as decided.
   * Its row is complete exactly when the update took effect, and then tells of the response that was written; it
   * tells of what the client received exactly when the server passes the body on, or there is none. A row left
   * `started` means that `Start` was lost or `Finish` did not take effect.
   */
  ghost predicate Accounted(cfg: Config, s: State, p: Proc)
    requires cfg.maxBody <= MAX_INT64
  {
    && p.response == Some(if Admitted(cfg, p) then RespondTo(cfg, p.req, Decide(cfg, p.req).answer)
         else Unaudited(cfg, p.req))
    && (cfg.audited && !p.started ==> p.calls == [Start])
    && (p.started ==> p.inserted)
    && (p.inserted ==> p.req.id in s.rows && RowAccounts(cfg, s.rows[p.req.id], p))
  }

  ghost predicate RowAccounts(cfg: Config, row: Row, p: Proc)
    requires cfg.maxBody <= MAX_INT64 && p.response.Some?
  {
    var handed := p.response.value;
    && (row.complete <==> p.started && Completes(cfg, p.req))
    && (row.complete ==> Tells(row, handed, cfg.auditLimit))
    && (row.complete ==>
          (Tells(row, Delivered(p.req, handed), cfg.auditLimit)
           <==> BodyAllowed(p.req.method_, handed.status) || handed.body == []))
    && (!row.complete ==> p.req.start == Lost || !Completes(cfg, p.req))
  }

  lemma EndedProcIsAccounted(cfg: Config, s: State, p: Proc)
    requires ProcInv(cfg, p) && Written(cfg, p) && p.pc == Ended
    requires p.inserted ==> p.req.id in s.rows && s.rows[p.req.id] == RowOf(cfg, p)
    ensures Accounted(cfg, s, p)
  {
    hide RespondTo, ResponseHalfOf, Decide, StartEntry, Stored, Unaudited, FinalEntry, Tells, Completes, Delivered,
        BodyAllowed;
    if p.updated {
      CompleteRowTells(cfg, p.req, Inserted(StartEntry(cfg, p.req)));
    }
  }

  /** In every run, every request that has ended is accounted for. */
  lemma EndedRequestIsAccounted(cfg: Config, base: Table, run: seq<State>, steps: seq<Step>, i: nat, pid: nat)
    requires cfg.maxBody <= MAX_INT64 && IsRun(cfg, base, run, steps) && i < |run|
    requires pid in run[i].procs && run[i].procs[pid].pc == Ended
    ensures Accounted(cfg, run[i], run[i].procs[pid])
  {
    hide ProcInv, RowOf, Next, IsRun, Written, Accounted;
    RunKeepsInv(cfg, base, run, steps, i);
    var p := run[i].procs[pid];
    if p.inserted {
      assert Owns(run[i], pid, p.req.id);
    }
    EndedProcIsAccounted(cfg, run[i], p);
  }

  // ------------------------------------------------------------ what a row tells of its request

  /**
   * What a complete row says, held against the calls that were made: a user is named just when the verifier was asked
   * and vouched for that user; `authenticated` on a proxied request means that it was forwarded, under the route it
   * matched; and an upstream URL is the one the request was sent to, when an answer came.
   */
  ghost predicate TellsCalls(cfg: Config, req: Request, row: Row, calls: seq<Call>) {
    && (row.userId.Some? <==> req.verdict.User? && exists call <- calls :: call.Verify?)
    && (row.userId.Some? ==> row.userId == Some(req.verdict.id))
    && (req.handler.Proxy? ==> (row.authResult == AUTHENTICATED <==> exists call <- calls :: call.Forward?))
    && (forall call <- calls :: call.Forward? ==>
          MatchRoute(cfg.routes, req.path).Some? &&
          row.route == NullIfEmpty(MatchRoute(cfg.routes, req.path).value.name))
    && (forall call <- calls :: call.Work? ==>
          row.authResult == AUTHENTICATED && req.verdict.User? && req.verdict.id in cfg.admins)
    && (req.upstream.UpstreamFailed? ==> row.upstreamUrl.None?)
    && (req.upstream.Answered? ==> forall call <- calls :: call.Forward? ==>
         row.upstreamUrl == NullIfEmpty(cfg.lib.urlText(call.url)))
    && (row.upstreamUrl.Some? ==> exists call <- calls :: call.Forward?)
  }

  lemma ResultsDiffer()
    ensures AUTHENTICATED != NOT_CHECKED && AUTHENTICATED != NO_ROUTE && AUTHENTICATED != MISSING_SESSION
    ensures AUTHENTICATED != VERIFIER_MISSING && AUTHENTICATED != INVALID_SESSION &&
        AUTHENTICATED != VERIFICATION_FAILED
  {
    assert |AUTHENTICATED| == 13;
  }

  /** A decision in outline: how far it got, and what it notes at that point. */
  ghost predicate Outline(cfg: Config, req: Request, d: Decision)
    requires cfg.maxBody <= MAX_INT64
  {
    && d.userId == (if d.calls != [] && req.verdict.User? then Some(req.verdict.id) else None)
    && (|d.calls| == 2 ==> d.authResult == AUTHENTICATED && d.calls[1].Forward? == req.handler.Proxy?)
    && (req.handler.Proxy? && |d.calls| < 2 ==> d.authResult != AUTHENTICATED)
    && (req.handler.Admin? || |d.calls| < 2 ==> !d.answer.Relay?)
    && (req.handler.Proxy? && |d.calls| == 2 ==>
          && req.verdict.User? && MatchRoute(cfg.routes, req.path).Some? && ReadBody(cfg, req).Reading?
          && var route := MatchRoute(cfg.routes, req.path).value;
          d.route == route.name && d.calls[1] == ForwardCall(cfg, req, route, req.verdict.id) &&
              d.answer == UpstreamAnswer(route, req))
  }

  lemma DecisionOutline(cfg: Config, req: Request)
    requires cfg.maxBody <= MAX_INT64
    ensures Outline(cfg, req, Decide(cfg, req))
  {
    hide ReadBody, BuildTargetUrl, ForwardedHeader, TaskRefusal, MatchRoute, UpstreamAnswer;
    ResultsDiffer();
  }

  /** Where the columns of a complete row come from. */
  lemma FinalColumns(cfg: Config, req: Request, row: Row)
    requires cfg.maxBody <= MAX_INT64
    ensures var complete, d := Updated(row, FinalEntry(cfg, req)), Decide(cfg, req);
            && complete.userId == d.userId && complete.authResult == d.authResult &&
                 complete.route == NullIfEmpty(d.route)
            && complete.upstreamUrl == if d.answer.Relay? then NullIfEmpty(cfg.lib.urlText(d.answer.url)) else None
  {
    hide Decide, RequestHalfOf, ResponseHalfOf;
  }

  lemma DecisionTellsCalls(cfg: Config, req: Request, row: Row)
    requires cfg.maxBody <= MAX_INT64
    ensures TellsCalls(cfg, req, Updated(row, FinalEntry(cfg, req)), Decide(cfg, req).calls)
  {
    hide Decide, FinalEntry, Updated, MatchRoute, ReadBody, ForwardedHeader, NullIfEmpty;
    FinalColumns(cfg, req, row);
    DecisionOutline(cfg, req);
    DecidedCalls(cfg, req);
    var calls := Decide(cfg, req).calls;
    assert calls != [] ==> calls[0] in calls;
    assert |calls| == 2 ==> calls[1] in calls;
    assert NullIfEmpty([]) == None by {
      EmptyIsNull();
    }
  }

  lemma EmptyIsNull()
    ensures NullIfEmpty([]) == None
  {
  }

  /** In every run, a complete row of a request that has ended tells of the calls that request has made. */
  lemma RowTellsCalls(cfg: Config, base: Table, run: seq<State>, steps: seq<Step>, i: nat, pid: nat)
    requires cfg.maxBody <= MAX_INT64 && IsRun(cfg, base, run, steps) && i < |run|
    requires pid in run[i].procs && run[i].procs[pid].pc == Ended && run[i].procs[pid].inserted
    ensures var p := run[i].procs[pid];
            && p.req.id in run[i].rows
            && (run[i].rows[p.req.id].complete ==> TellsCalls(cfg, p.req, run[i].rows[p.req.id], p.calls))
  {
    hide ProcInv, Next, IsRun, Written, Completes, Decide, FinalEntry, StartEntry, RespondTo, Unaudited, TellsCalls;
    var p := run[i].procs[pid];
    RunKeepsInv(cfg, base, run, steps, i);
    assert Owns(run[i], pid, p.req.id);
    EndedIsOutcome(cfg, p);
    if p.updated {
      DecisionTellsCalls(cfg, p.req, Inserted(StartEntry(cfg, p.req)));
      AuditCallsTellNothing(cfg, p.req, RowOf(cfg, p), Decide(cfg, p.req).calls);
    }
  }

  lemma AuditCallsTellNothing(cfg: Config, req: Request, row: Row, calls: seq<Call>)
    requires TellsCalls(cfg, req, row, calls)
    ensures TellsCalls(cfg, req, row, Prefix(cfg) + calls + Suffix(cfg))
  {
    hide MatchRoute;
    var all := Prefix(cfg) + calls + Suffix(cfg);
    assert forall call :: call in all ==> call in calls || call == Start || call == Finish;
    assert forall call :: call in calls ==> call in all;
  }

  // ------------------------------------------------------------ how the table evolves

  /** A row keeps its request half for good; it may be completed, once, and is then never touched again. */
  predicate Evolves(before: Row, after: Row) {
    before == after || (!before.complete && after.complete && before.request == after.request)
  }

  ghost predicate TableEvolves(before: Table, after: Table) {
    forall id <- before.Keys :: id in after && Evolves(before[id], after[id])
  }

  /** A row changes only by a step of the one request that owns it. */
  lemma StepEvolvesTable(cfg: Config, base: Table, s: State, step: Step)
    requires Inv(cfg, base, s) && Enabled(s, step)
    ensures TableEvolves(s.rows, Next(cfg, s, step).rows)
    ensures forall id <- s.rows.Keys :: Next(cfg, s, step).rows[id] != s.rows[id] ==>
        step.Move? && Owns(s, step.pid, id)
  {
    hide ProcInv, RowOf, FinalEntry, StartEntry, Advance, TableAfter, Written;
    if step.Move? {
      var p := s.procs[step.pid];
      forall id | id in s.rows
        ensures var after := TableAfter(cfg, s.rows, p);
                id in after && Evolves(s.rows[id], after[id]) && (after[id] != s.rows[id] ==> Owns(s, step.pid, id))
      {
        StepTouchesOwnRow(cfg, base, s, step.pid, id);
        StepEvolvesRow(cfg, s.rows, p, id);
      }
    }
  }

  lemma StepEvolvesRow(cfg: Config, rows: Table, p: Proc, id: Id)
    requires ProcInv(cfg, p) && id in rows
    requires p.inserted ==> p.req.id in rows && rows[p.req.id] == RowOf(cfg, p)
    ensures id in TableAfter(cfg, rows, p) && Evolves(rows[id], TableAfter(cfg, rows, p)[id])
  {
    hide Decide, StartEntry, FinalEntry, RespondTo, Unaudited, RequestHalfOf;
    StepFollowsDecision(cfg, rows, p);
    if p.pc == AtFinish && cfg.audited {
      FinishingIsStarted(cfg, p);
    }
  }

  lemma {:induction false} TableOnlyEvolves(cfg: Config, base: Table, run: seq<State>, steps: seq<Step>, i: nat, j: nat)
    requires cfg.maxBody <= MAX_INT64 && IsRun(cfg, base, run, steps) && i <= j < |run|
    ensures TableEvolves(run[i].rows, run[j].rows)
  {
    hide Inv, Next;
    if i < j {
      TableOnlyEvolves(cfg, base, run, steps, i, j - 1);
      RunKeepsInv(cfg, base, run, steps, j - 1);
      StepEvolvesTable(cfg, base, run[j - 1], steps[j - 1]);
    }
  }

  /**
   * Rows that were there before stay as they were; every other row has exactly one request behind it, and no row has
   * two.
   */
  lemma RowsAreIsolated(cfg: Config, base: Table, run: seq<State>, steps: seq<Step>, i: nat, id: Id)
    requires cfg.maxBody <= MAX_INT64 && IsRun(cfg, base, run, steps) && i < |run|
    ensures id in base ==> id in run[i].rows && run[i].rows[id] == base[id] && !exists pid :: Owns(run[i], pid, id)
    ensures id !in base ==> (id in run[i].rows <==> exists pid :: Owns(run[i], pid, id))
    ensures forall a, b :: Owns(run[i], a, id) && Owns(run[i], b, id) ==> a == b
  {
    hide ProcInv, RowOf, Next, IsRun, Written;
    RunKeepsInv(cfg, base, run, steps, i);
  }

  /** No row a request has put in the table holds a credential header, of the request or of the response. */
  lemma NoSecretsInRows(cfg: Config, base: Table, run: seq<State>, steps: seq<Step>, i: nat, pid: nat, id: Id)
    requires cfg.maxBody <= MAX_INT64 && IsRun(cfg, base, run, steps) && i < |run| && Owns(run[i], pid, id)
    ensures id in run[i].rows
    ensures run[i].rows[id].request.headers.Keys !! DROPPED_FROM_REQUEST_AUDIT
    ensures run[i].rows[id].response.Some? ==>
        run[i].rows[id].response.value.headers.Keys !! DROPPED_FROM_RESPONSE_AUDIT
  {
    hide ProcInv, Next, IsRun, Written, Decide, FromBytes, FromResponse, FromBytesWithOriginalSize, RequestBodyOf;
    hide DROPPED_FROM_REQUEST_AUDIT, DROPPED_FROM_RESPONSE_AUDIT;
    RunKeepsInv(cfg, base, run, steps, i);
    assert run[i].rows[id] == RowOf(cfg, run[i].procs[pid]);
  }

  // ------------------------------------------------------------ progress

  function MovesOf(steps: seq<Step>, pid: nat): nat {
    if steps == [] then 0 else MovesOf(steps[..|steps| - 1], pid) + if steps[|steps| - 1] == Move(pid) then 1 else 0
  }

  lemma MoveUsesFuel(cfg: Config, rows: Table, p: Proc)
    requires ProcInv(cfg, p) && p.pc != Ended
    ensures Fuel(Advance(cfg, rows, p).pc) < Fuel(p.pc)
  {
    hide RespondTo, StartEntry, FinalEntry, Decide, AfterStart, AfterVerify;
    if p.pc == AtStart {
      StartLeads(cfg, rows, p);
    } else if p.pc != AtFinish {
      MiddleLeads(cfg, rows, p);
    }
  }

  /**
   * However it is scheduled and whatever fails, a request that has not ended can move, and ends in at most five
   * moves.
   */
  lemma {:induction false} RequestsEnd(cfg: Config, base: Table, run: seq<State>, steps: seq<Step>, pid: nat)
    requires cfg.maxBody <= MAX_INT64 && IsRun(cfg, base, run, steps)
    ensures var s := run[|steps|];
            && (pid !in s.procs ==> MovesOf(steps, pid) == 0)
            && (pid in s.procs ==> MovesOf(steps, pid) + Fuel(s.procs[pid].pc) <= 5)
            && (pid in s.procs && s.procs[pid].pc != Ended ==> Enabled(s, Move(pid)))
  {
    hide Inv, ProcInv, Advance, TableAfter, StartEntry;
    var n := |steps|;
    if n > 0 {
      var earlier, s, step := steps[..n - 1], run[n - 1], steps[n - 1];
      assert forall i :: 0 <= i < n - 1 ==> earlier[i] == steps[i];
      RequestsEnd(cfg, base, run[..n], earlier, pid);
      RunKeepsInv(cfg, base, run, steps, n - 1);
      if step == Move(pid) {
        MoveOfInv(cfg, base, s, pid);
      }
    }
  }

  lemma MoveOfInv(cfg: Config, base: Table, s: State, pid: nat)
    requires Inv(cfg, base, s) && Enabled(s, Move(pid))
    ensures var t := Next(cfg, s, Move(pid)); pid in t.procs && Fuel(t.procs[pid].pc) < Fuel(s.procs[pid].pc)
  {
    hide ProcInv, Advance, TableAfter, RowOf;
    MoveUsesFuel(cfg, s.rows, s.procs[pid]);
  }

  // ------------------------------------------------------------ every schedule leaves the same table

  /** Every request has drawn an id of its own, and none of a row that was there before. */
  ghost predicate FreshIds(base: Table, s: State) {
    && (forall pid <- s.procs.Keys :: s.procs[pid].req.id !in base)
    && (forall a, b :: a in s.procs && b in s.procs && s.procs[a].req.id == s.procs[b].req.id ==> a == b)
  }

  /** Whether the insert of a request with a fresh id takes effect. */
  predicate InsertSucceeds(cfg: Config, req: Request)
    requires cfg.maxBody <= MAX_INT64
  {
    cfg.audited && req.start != Refused && InsertFits(cfg.lib, StartEntry(cfg, req))
  }

  /** What becomes of a request by itself, given whether its insert takes effect. */
  function Outcome(cfg: Config, req: Request, inserted: bool): Proc
    requires cfg.maxBody <= MAX_INT64
  {
    var started := inserted && req.start == Acked;
    if cfg.audited && !started then
      Proc(req, Ended, StartEntry(cfg, req), Some(Unaudited(cfg, req)), [Start], inserted, false, false)
    else
      var d := Decide(cfg, req);
      Proc(req, Ended, FinalEntry(cfg, req), Some(RespondTo(cfg, req, d.answer)), Prefix(cfg) + d.calls + Suffix(cfg),
           inserted, started, started && Completes(cfg, req))
  }

  /** What becomes of a request with a fresh id, with no other in sight. */
  function Alone(cfg: Config, req: Request): Proc
    requires cfg.maxBody <= MAX_INT64
  {
    Outcome(cfg, req, InsertSucceeds(cfg, req))
  }

  ghost predicate InsertsDecided(cfg: Config, s: State)
    requires cfg.maxBody <= MAX_INT64
  {
    forall pid <- s.procs.Keys :: s.procs[pid].pc != AtStart ==>
        (s.procs[pid].inserted <==> InsertSucceeds(cfg, s.procs[pid].req))
  }

  lemma {:induction false} FreshIdsDecideInserts(cfg: Config, base: Table, run: seq<State>, steps: seq<Step>, i: nat)
    requires cfg.maxBody <= MAX_INT64 && IsRun(cfg, base, run, steps) && i < |run| && FreshIds(base, run[i])
    ensures InsertsDecided(cfg, run[i])
  {
    hide ProcInv, RowOf, Advance, TableAfter, StartEntry, InsertSucceeds, Written;
    if i > 0 {
      var s, step := run[i - 1], steps[i - 1];
      RunKeepsInv(cfg, base, run, steps, i - 1);
      if step.Move? {
        StepFollowsDecision(cfg, s.rows, s.procs[step.pid]);
      }
      EarlierIdsAreFresh(cfg, base, s, step);
      FreshIdsDecideInserts(cfg, base, run, steps, i - 1);
      if step.Move? {
        MoveDecidesInsert(cfg, base, s, step.pid);
      }
    }
  }

  lemma EarlierIdsAreFresh(cfg: Config, base: Table, s: State, step: Step)
    requires Inv(cfg, base, s) && Enabled(s, step) && FreshIds(base, Next(cfg, s, step))
    ensures FreshIds(base, s)
  {
    hide ProcInv, RowOf, Advance, TableAfter, StartEntry, Written;
    if step.Move? {
      StepFollowsDecision(cfg, s.rows, s.procs[step.pid]);
    }
    var t := Next(cfg, s, step);
    assert forall pid <- s.procs.Keys :: pid in t.procs && t.procs[pid].req == s.procs[pid].req;
  }

  lemma MoveDecidesInsert(cfg: Config, base: Table, s: State, pid: nat)
    requires Inv(cfg, base, s) && Enabled(s, Move(pid)) && FreshIds(base, s) && InsertsDecided(cfg, s)
    ensures var q := Next(cfg, s, Move(pid)).procs[pid]; q.pc != AtStart && (q.inserted <==> InsertSucceeds(cfg, q.req))
  {
    hide ProcInv, RowOf, Advance, TableAfter, StartEntry, Written, InsertFits;
    var p := s.procs[pid];
    StepFollowsDecision(cfg, s.rows, p);
    MoveUsesFuel(cfg, s.rows, p);
    if p.pc == AtStart {
      StartEffect(cfg, s.rows, p);
      StartLeads(cfg, s.rows, p);
      assert forall owner, id :: Owns(s, owner, id) && id == p.req.id ==> owner == pid;
    } else {
      LaterKeepsInserted(cfg, s.rows, p);
    }
  }

  lemma LaterKeepsInserted(cfg: Config, rows: Table, p: Proc)
    requires ProcInv(cfg, p) && p.pc != AtStart
    ensures Advance(cfg, rows, p).inserted == p.inserted
  {
    hide RespondTo, StartEntry, FinalEntry, Decide, AfterStart, AfterVerify;
    if p.pc != AtFinish {
      MiddleEffect(cfg, rows, p);
    }
  }

  lemma EndedIsOutcome(cfg: Config, p: Proc)
    requires ProcInv(cfg, p) && Written(cfg, p) && p.pc == Ended
    ensures p == Outcome(cfg, p.req, p.inserted)
  {
    hide RespondTo, StartEntry, FinalEntry, Decide, Completes, Unaudited, InsertFits;
  }

  /** In every run, a request that has ended did what it does by itself: other requests can only cost it its key. */
  lemma EndedMeetsOutcome(cfg: Config, base: Table, run: seq<State>, steps: seq<Step>, i: nat, pid: nat)
    requires cfg.maxBody <= MAX_INT64 && IsRun(cfg, base, run, steps) && i < |run|
    requires pid in run[i].procs && run[i].procs[pid].pc == Ended
    ensures run[i].procs[pid] == Outcome(cfg, run[i].procs[pid].req, run[i].procs[pid].inserted)
  {
    hide ProcInv, RowOf, Next, IsRun, Written, Outcome;
    RunKeepsInv(cfg, base, run, steps, i);
    EndedIsOutcome(cfg, run[i].procs[pid]);
  }

  /**
   * Two runs over the same requests, with fresh ids, that both end: however differently they were interleaved, every
   * request met the fate it meets alone, and the tables are the same.
   */
  lemma SchedulesAgree(cfg: Config, base: Table, run: seq<State>, steps: seq<Step>, other: seq<State>,
      otherSteps: seq<Step>)
    requires cfg.maxBody <= MAX_INT64 && IsRun(cfg, base, run, steps) && IsRun(cfg, base, other, otherSteps)
    requires var s, t := run[|steps|], other[|otherSteps|];
             && FreshIds(base, s) && s.procs.Keys == t.procs.Keys
             && forall pid <- s.procs.Keys :: s.procs[pid].req == t.procs[pid].req &&
                  s.procs[pid].pc == t.procs[pid].pc == Ended
    ensures forall pid <- run[|steps|].procs.Keys :: run[|steps|].procs[pid] == Alone(cfg, run[|steps|].procs[pid].req)
    ensures run[|steps|] == other[|otherSteps|]
  {
    hide Inv, Next, Alone;
    AllEndAlone(cfg, base, run, steps);
    AllEndAlone(cfg, base, other, otherSteps);
    assert run[|steps|].procs == other[|otherSteps|].procs;
    RequestsDetermineTable(cfg, base, run[|steps|], other[|otherSteps|]);
  }

  lemma RequestsDetermineTable(cfg: Config, base: Table, s: State, t: State)
    requires Inv(cfg, base, s) && Inv(cfg, base, t) && s.procs == t.procs
    ensures s.rows == t.rows
  {
    hide ProcInv, RowOf, Written;
    forall id ensures id in s.rows <==> id in t.rows {
      assert forall pid :: Owns(s, pid, id) <==> Owns(t, pid, id);
    }
    forall id | id in s.rows ensures s.rows[id] == t.rows[id] {
      if id !in base {
        var pid :| Owns(s, pid, id);
        assert Owns(t, pid, id);
      }
    }
    assert s.rows == t.rows;
  }

  lemma AllEndAlone(cfg: Config, base: Table, run: seq<State>, steps: seq<Step>)
    requires cfg.maxBody <= MAX_INT64 && IsRun(cfg, base, run, steps) && FreshIds(base, run[|steps|])
    requires forall pid <- run[|steps|].procs.Keys :: run[|steps|].procs[pid].pc == Ended
    ensures Inv(cfg, base, run[|steps|])
    ensures forall pid <- run[|steps|].procs.Keys :: run[|steps|].procs[pid] == Alone(cfg, run[|steps|].procs[pid].req)
  {
    hide ProcInv, RowOf, Next, Written, Outcome, InsertSucceeds;
    var s := run[|steps|];
    RunKeepsInv(cfg, base, run, steps, |steps|);
    FreshIdsDecideInserts(cfg, base, run, steps, |steps|);
    forall pid | pid in s.procs ensures s.procs[pid] == Alone(cfg, s.procs[pid].req) {
      EndedIsOutcome(cfg, s.procs[pid]);
    }
  }

  // ------------------------------------------------------------ which rows the schema lets in

  /**
   * An arrival the table takes: a method, texts that are well formed and free of zero bytes, a path that fits its
   * index too, a client id that is well formed or was cut, and a body, if a proxied one, that was read and fits.
   */
  predicate ArrivalFits(cfg: Config, req: Request)
    requires cfg.maxBody <= MAX_INT64
  {
    && req.method_ != [] && TextFits(req.method_) && TextFits(req.path) && TextFits(req.query) && TextFits(req.remote)
    && cfg.lib.indexFits(req.path) && IdFits(Get(req.header, REQUEST_ID))
    && (req.handler.Proxy? ==> ReadBody(cfg, req).Reading? && ReadingFits(cfg, req, ReadBody(cfg, req)))
  }

  predicate ReadingFits(cfg: Config, req: Request, reading: Reading)
    requires reading.Reading?
  {
    BodyFits(reading.body, Get(req.header, CONTENT_TYPE), cfg.auditLimit, SizeRead(reading), cfg.lib.normalize,
        cfg.lib.jsonFits)
  }

  lemma RequestBodyIsStorable(cfg: Config, req: Request)
    requires cfg.maxBody <= MAX_INT64
    ensures Storable(RequestBodyOf(cfg, req), cfg.lib.jsonFits)
            <==> (req.handler.Proxy? ==> ReadBody(cfg, req).Reading? && ReadingFits(cfg, req, ReadBody(cfg, req)))
  {
    hide ReadProxyRequestBody, BodyFits, TextFits;
    ReadBodyIsStorable(req.body, cfg.maxBody, Get(req.header, CONTENT_TYPE), cfg.auditLimit, cfg.lib.normalize,
        cfg.lib.jsonFits);
    AsciiFits([]);
  }

  /** An arrival can be recorded just when columns, constraints and indexes take it. */
  lemma ArrivalIsStorable(cfg: Config, req: Request)
    requires cfg.maxBody <= MAX_INT64
    ensures InsertFits(cfg.lib, StartEntry(cfg, req)) <==> ArrivalFits(cfg, req)
  {
    hide ClientRequestId, Kept, TextFits, RequestBodyOf, Storable, IdFits, ReadingFits, ReadBody, NotesFit;
    RequestBodyIsStorable(cfg, req);
    StoredIdFits(Get(req.header, REQUEST_ID));
    FirstNotesFit(cfg, req);
  }

  lemma FirstNotesFit(cfg: Config, req: Request)
    requires cfg.maxBody <= MAX_INT64
    ensures NotesFit(StartEntry(cfg, req))
  {
    hide RequestHalfOf, TextFits;
    AsciiFits([]);
    AsciiFits(NOT_CHECKED);
    AsciiFits(AuditQuery.AUDIT_ADMIN);
    AsciiFits(PLAYER_SUPPORT_ROUTE);
  }

  /** An answer its columns take: see `AnswerIsStorable`. */
  predicate AnswerFits(cfg: Config, req: Request)
    requires cfg.maxBody <= MAX_INT64
  {
    var d := Decide(cfg, req);
    var body := RespondTo(cfg, req, d.answer).body;
    && (cfg.audited ==> -NANOSECONDS < req.elapsed)
    && TextFits(d.route)
    && BodyFits(body, AnswerType(d.answer), cfg.auditLimit, |body|, cfg.lib.normalize, cfg.lib.jsonFits)
    && match d.answer
       case Refuse(r) => TextFits(r.code) && TextFits(r.message)
       case Relay(url, _, _, _) => TextFits(cfg.lib.urlText(url))
       case Document(_) => true
  }

  lemma EarlyResultsFit()
    ensures TextFits(NOT_CHECKED) && TextFits(NO_ROUTE) && TextFits(MISSING_SESSION) && TextFits(VERIFIER_MISSING)
  {
    hide TextFits;
    AsciiFits(NOT_CHECKED);
    AsciiFits(NO_ROUTE);
    AsciiFits(MISSING_SESSION);
    AsciiFits(VERIFIER_MISSING);
  }

  lemma LateResultsFit()
    ensures TextFits(INVALID_SESSION) && TextFits(VERIFICATION_FAILED) && TextFits(AUTHENTICATED) && TextFits(NOT_ADMIN)
  {
    hide TextFits;
    AsciiFits(INVALID_SESSION);
    AsciiFits(VERIFICATION_FAILED);
    AsciiFits(AUTHENTICATED);
    AsciiFits(NOT_ADMIN);
  }

  lemma ResultsFit(cfg: Config, req: Request)
    requires cfg.maxBody <= MAX_INT64
    ensures TextFits(Decide(cfg, req).authResult)
  {
    hide ReadBody, ForwardCall, TaskAnswer, TaskRefusal, MatchRoute, UpstreamAnswer, TextFits;
    EarlyResultsFit();
    LateResultsFit();
  }

  lemma ResponseBodyIsStorable(cfg: Config, req: Request, answer: Answer)
    ensures var body := RespondTo(cfg, req, answer).body;
            Storable(ResponseHalfOf(cfg, answer).body, cfg.lib.jsonFits)
            <==> BodyFits(body, AnswerType(answer), cfg.auditLimit, |body|, cfg.lib.normalize, cfg.lib.jsonFits)
  {
    hide FromBytesWithOriginalSize, FromResponse, Kept, Storable, BodyFits;
    var body := RespondTo(cfg, req, answer).body;
    StorableIffFits(body, AnswerType(answer), cfg.auditLimit, |body|, cfg.lib.normalize, cfg.lib.jsonFits);
    PathsAgree(body, AnswerType(answer), cfg.auditLimit, cfg.lib.normalize);
  }

  /**
   * An answer can be recorded just when the update is not refused, the body fits, the route, URL and error texts do,
   * and the clock has not been set back by a millisecond or more since the request arrived.
   */
  lemma AnswerIsStorable(cfg: Config, req: Request)
    requires cfg.maxBody <= MAX_INT64
    ensures Completes(cfg, req) <==> req.finish != Refused && AnswerFits(cfg, req)
  {
    hide RespondTo, Decide, RequestHalfOf, ResponseHalfOf, TextFits, Storable, BodyFits;
    var d := Decide(cfg, req);
    ResultsFit(cfg, req);
    ResponseBodyIsStorable(cfg, req, d.answer);
    AsciiFits([]);
  }

  /**
   * In every run with auditing on, a request that arrives with something its columns do not take leaves no row, gets no
   * further than `Start`, and is answered as if the audit sink were down.
   */
  lemma UnstorableArrivalIsNeverRecorded(cfg: Config, base: Table, run: seq<State>, steps: seq<Step>, i: nat, pid: nat)
    requires cfg.maxBody <= MAX_INT64 && cfg.audited && IsRun(cfg, base, run, steps) && i < |run|
    requires pid in run[i].procs && run[i].procs[pid].pc == Ended && !ArrivalFits(cfg, run[i].procs[pid].req)
    ensures var p := run[i].procs[pid]; !p.inserted && p.calls == [Start] && p.response == Some(Unaudited(cfg, p.req))
  {
    hide ProcInv, RowOf, Next, IsRun, Unaudited, RespondTo, ArrivalFits, StartEntry, InsertFits;
    var p := run[i].procs[pid];
    RunKeepsInv(cfg, base, run, steps, i);
    EndedRequestIsAccounted(cfg, base, run, steps, i, pid);
    ArrivalIsStorable(cfg, p.req);
  }

  /** And one whose answer its columns do not take is answered as decided, while its row stays `started` for good. */
  lemma UnstorableAnswerStaysStarted(cfg: Config, base: Table, run: seq<State>, steps: seq<Step>, i: nat, pid: nat)
    requires cfg.maxBody <= MAX_INT64 && cfg.audited && IsRun(cfg, base, run, steps) && i < |run|
    requires pid in run[i].procs && run[i].procs[pid].pc == Ended && run[i].procs[pid].started
    requires !AnswerFits(cfg, run[i].procs[pid].req)
    ensures var p := run[i].procs[pid];
            && p.response == Some(RespondTo(cfg, p.req, Decide(cfg, p.req).answer))
            && p.req.id in run[i].rows && !run[i].rows[p.req.id].complete
  {
    hide ProcInv, RowOf, Next, IsRun, Unaudited, RespondTo, AnswerFits, StartEntry, Completes, Tells, Delivered;
    var p := run[i].procs[pid];
    EndedRequestIsAccounted(cfg, base, run, steps, i, pid);
    AnswerIsStorable(cfg, p.req);
  }

  /**
   * A body that cannot be read has no encoding, so the schema refuses its row: with auditing on, the client is told
   * that the audit sink is unavailable, and only without it that the body could not be read.
   */
  lemma UnreadableBodyIsNeverRecorded(cfg: Config, base: Table, run: seq<State>, steps: seq<Step>, i: nat, pid: nat)
    requires cfg.maxBody <= MAX_INT64 && IsRun(cfg, base, run, steps) && i < |run|
    requires pid in run[i].procs && run[i].procs[pid].pc == Ended
    requires run[i].procs[pid].req.handler.Proxy? && ReadBody(cfg, run[i].procs[pid].req).Unreadable?
    ensures var p := run[i].procs[pid];
            && !p.inserted
            && p.response == Some(if cfg.audited then Unaudited(cfg, p.req)
                 else RespondTo(cfg, p.req, Refuse(UNREADABLE_BODY)))
  {
    hide ProcInv, RowOf, Next, IsRun, Unaudited, RespondTo, ReadBody, StartEntry, InsertFits;
    var p := run[i].procs[pid];
    RunKeepsInv(cfg, base, run, steps, i);
    EndedRequestIsAccounted(cfg, base, run, steps, i, pid);
    ArrivalIsStorable(cfg, p.req);
  }

  /** A zero byte or a stray one is enough: as a path, or as a client id. */
  lemma StrayBytesAreNotStorable(cfg: Config, req: Request, stray: Byte)
    requires cfg.maxBody <= MAX_INT64 && (stray == NUL || stray as int == 0xFF)
    requires req.path == SLASH + [stray] || Get(req.header, REQUEST_ID) == [stray]
    ensures !ArrivalFits(cfg, req)
  {
    hide ReadingFits, ReadBody;
    var id, path: Bytes := [stray], SLASH + [stray];
    assert id[..1] == id && path[1] == stray;
    assert stray != NUL ==> Utf8.RuneWidth(id) == 0 && !Utf8.Valid(id);
    assert Utf8.RuneWidth(path) == 1 && path[1..] == id;
    AsIs(id);
  }

  lemma AsIs(id: Bytes)
    requires |id| == 1 && (id[0] == NUL || id[0] as int == 0xFF)
    ensures TrimSpace(id) == id
  {
    assert Trimmed(id);
  }

  /** A body of one zero byte, sent to any route with auditing on, is enough. */
  lemma ZeroByteIsNotStorable(cfg: Config, req: Request)
    requires 1 <= cfg.maxBody < MAX_INT64 && 1 <= cfg.auditLimit && req.handler.Proxy? &&
        req.body == Stream([NUL], false)
    ensures !ArrivalFits(cfg, req)
  {
    var cut: Bytes := [NUL];
    assert cut[..1] == cut;
    assert Utf8.RuneWidth(cut) == 1 && Utf8.Valid(cut[1..]);
  }

  /** So is an upstream answer of one zero byte: it is relayed, and cannot be recorded. */
  lemma ZeroByteAnswerIsNotStorable(cfg: Config, req: Request)
    requires cfg.maxBody <= MAX_INT64 && 1 <= cfg.auditLimit
    requires Decide(cfg, req).answer.Relay? && Decide(cfg, req).answer.body == [NUL]
    ensures !AnswerFits(cfg, req)
    ensures RespondTo(cfg, req, Decide(cfg, req).answer).body == [NUL]
  {
    hide Decide, ResponseHeader;
    var cut: Bytes := [NUL];
    assert cut[..1] == cut;
    assert Utf8.RuneWidth(cut) == 1 && Utf8.Valid(cut[1..]);
  }

  /** And whoever refuses a HEAD request writes an entry about a document its client never receives. */
  lemma RefusedHeadIsNotTold(cfg: Config, req: Request, refusal: Refusal)
    requires req.method_ == HEAD && cfg.lib.errorJson(refusal.code, refusal.message) != []
    ensures var half, handed := ResponseHalfOf(cfg, Refuse(refusal)), RespondTo(cfg, req, Refuse(refusal));
            && Delivered(req, handed).body == [] && half.body.size > 0
            && !TellsResponse(half, Delivered(req, handed), cfg.auditLimit)
  {
    EntryMatchesResponse(cfg, req, Refuse(refusal));
  }

  // ------------------------------------------------------------ what reaches the upstream

  lemma ForwardIsDecided(cfg: Config, p: Proc, k: nat)
    requires ProcInv(cfg, p) && k < |p.calls| && p.calls[k].Forward?
    ensures p.calls[k] in Decide(cfg, p.req).calls
  {
    hide FinalEntry, RespondTo, StartEntry, Unaudited, Decide, ProxyRefusal, TaskRefusal;
  }

  lemma DecidedForward(cfg: Config, req: Request, call: Call)
    requires cfg.maxBody <= MAX_INT64 && call in Decide(cfg, req).calls && call.Forward?
    ensures MatchRoute(cfg.routes, req.path).Some? && ReadBody(cfg, req).Reading? && !ReadBody(cfg, req).tooLarge &&
        req.verdict.User?
    ensures call == ForwardCall(cfg, req, MatchRoute(cfg.routes, req.path).value, req.verdict.id)
  {
    hide ReadBody, ForwardCall, UpstreamAnswer, TaskAnswer, TaskRefusal, MatchRoute;
  }

  lemma ForwardInRun(cfg: Config, base: Table, run: seq<State>, steps: seq<Step>, i: nat, pid: nat, k: nat)
    requires cfg.maxBody <= MAX_INT64 && IsRun(cfg, base, run, steps) && i < |run| && pid in run[i].procs
    requires k < |run[i].procs[pid].calls| && run[i].procs[pid].calls[k].Forward?
    ensures run[i].procs[pid].calls[k] in Decide(cfg, run[i].procs[pid].req).calls
  {
    hide ProcInv, RowOf, Next, IsRun, Decide;
    RunKeepsInv(cfg, base, run, steps, i);
    ForwardIsDecided(cfg, run[i].procs[pid], k);
  }

  /**
   * Whatever is forwarded goes to the matched route's target, and carries the body the client sent, except under the
   * largest 64-bit limit, under which every body is dropped.
   */
  lemma ForwardedAsSent(cfg: Config, base: Table, run: seq<State>, steps: seq<Step>, i: nat, pid: nat, k: nat,
      data: Bytes)
    requires cfg.maxBody <= MAX_INT64 && IsRun(cfg, base, run, steps) && i < |run| && pid in run[i].procs
    requires var p := run[i].procs[pid]; k < |p.calls| && p.calls[k].Forward? && p.req.body == Stream(data, false)
    ensures var p := run[i].procs[pid];
            && MatchRoute(cfg.routes, p.req.path).Some?
            && p.calls[k].method_ == p.req.method_
            && p.calls[k].url == BuildTargetUrl(MatchRoute(cfg.routes, p.req.path).value, p.req.path, p.req.query)
            && (p.calls[k].body == data <==> cfg.maxBody < MAX_INT64 || data == [])
  {
    hide ProcInv, RowOf, Next, IsRun, Decide, BuildTargetUrl, MatchRoute, ForwardedHeader;
    var p := run[i].procs[pid];
    ForwardInRun(cfg, base, run, steps, i, pid, k);
    DecidedForward(cfg, p.req, p.calls[k]);
    BodyLimitIsExact(data, cfg.maxBody, Get(p.req.header, CONTENT_TYPE), cfg.auditLimit, cfg.lib.normalize);
  }

  /**
   * Whoever an upstream service is told it is serving is the user the verifier has vouched for on the token of this
   * very request, whatever headers the client forged; and the id it is told is the key of the request's audit row.
   */
  lemma IdentityIsVerified(cfg: Config, base: Table, run: seq<State>, steps: seq<Step>, i: nat, pid: nat, k: nat)
    requires cfg.maxBody <= MAX_INT64 && IsRun(cfg, base, run, steps) && i < |run| && pid in run[i].procs
    requires var p := run[i].procs[pid]; k < |p.calls| && p.calls[k].Forward?
    ensures var p := run[i].procs[pid];
            && k > 0 && p.req.token.Some? && p.calls[k - 1] == Verify(p.req.token.value) && p.req.verdict.User?
            && Values(p.calls[k].header, USER_ID) == [cfg.lib.idText(p.req.verdict.id)]
            && Values(p.calls[k].header, INTERNAL_TOKEN) == [cfg.internalToken]
            && Values(p.calls[k].header, REQUEST_ID) == [cfg.lib.idText(p.req.id)]
            && Values(p.calls[k].header, "Authorization") == Values(p.calls[k].header, "Cookie") == []
  {
    hide ProcInv, RowOf, Next, IsRun, Decide, BuildTargetUrl, MatchRoute, ReadBody, ForwardedHeader, Chain;
    var p := run[i].procs[pid];
    ForwardInRun(cfg, base, run, steps, i, pid, k);
    CallsAreAudited(cfg, base, run, steps, i, pid);
    DecidedForward(cfg, p.req, p.calls[k]);
    var route := MatchRoute(cfg.routes, p.req.path).value;
    assert p.calls[k] == ForwardCall(cfg, p.req, route, p.req.verdict.id);
    var vouched := VouchedFor(cfg, p.req, p.req.verdict.id);
    OutgoingValues(p.req.header, vouched);
    OwnKeysDiffer();
    assert "Authorization" in DROPPED_FROM_REQUEST && "Cookie" in DROPPED_FROM_REQUEST;
  }

  /**
   * Key by key, in every run: what the gateway speaks for, the way the request came, and what passes of the client's.
   */
  lemma HeaderIsVouched(cfg: Config, base: Table, run: seq<State>, steps: seq<Step>, i: nat, pid: nat, k: nat)
    requires cfg.maxBody <= MAX_INT64 && IsRun(cfg, base, run, steps) && i < |run| && pid in run[i].procs
    requires var p := run[i].procs[pid]; k < |p.calls| && p.calls[k].Forward?
    ensures var p := run[i].procs[pid];
            && p.req.verdict.User?
            && IsOutgoing(p.calls[k].header, p.req.header,
                 Vouched(cfg.internalToken, cfg.lib.idText(p.req.verdict.id), cfg.lib.idText(p.req.id),
                   p.req.acceptedAt, p.req.remote, p.req.host, p.req.tls))
  {
    hide ProcInv, RowOf, Next, IsRun, Decide, BuildTargetUrl, MatchRoute, ReadBody, ForwardedHeader, IsOutgoing;
    var p := run[i].procs[pid];
    ForwardInRun(cfg, base, run, steps, i, pid, k);
    DecidedForward(cfg, p.req, p.calls[k]);
    OutgoingIs(p.req.header, VouchedFor(cfg, p.req, p.req.verdict.id));
  }
}
