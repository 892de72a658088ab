/**
 * Any number of requests running at once over one audit table. A step is one call to a collaborator, with the handler
 * code up to the next one; requests arrive at any time, and their steps interleave in any order.
 */
module Interleaving {
  import opened Wrappers
  import opened GoStrings
  import opened Routing
  import opened AuditBodies
  import opened Lifecycle

  datatype Pc = AtStart | AtVerify | AtUpstream | AtWork | AtFinish | AtReply | Ended

  /**
   * A request under way. `calls` lists the calls made so far; `inserted` and `updated` say whether its writes took
   * effect, `started` whether the handler was told that the first one did.
   */
  datatype Proc = Proc(
    req: Request,
    pc: Pc,
    entry: Entry,
    response: Option<Response>,
    calls: seq<Call>,
    inserted: bool,
    started: bool,
    updated: bool)

  datatype State = State(rows: Table, procs: map<nat, Proc>)

  // ------------------------------------------------------------ the handler code between calls

  function Fresh(cfg: Config, req: Request): Proc
    requires cfg.maxBody <= MAX_INT64
  {
    Proc(req, AtStart, StartEntry(cfg, req), None, [], false, false, false)
  }

  /** `writeAuditedError`, `writeAuditedJSON` and the end of `handleProxy`, up to the call of `Finish`. */
  function Settle(cfg: Config, p: Proc, answer: Answer): Proc {
    p.(entry := Complete(cfg, p.req, p.entry, answer), response := Some(RespondTo(cfg, p.req, answer)), pc := AtFinish)
  }

  function Reject(cfg: Config, p: Proc, stop: AuthRefusal): Proc {
    Settle(cfg, p.(entry := p.entry.(authResult := stop.authResult)), Refuse(stop.refusal))
  }

  function CheckSession(cfg: Config, p: Proc): Proc {
    match SessionRefusal(cfg, p.req)
    case Some(stop) => Reject(cfg, p, stop)
    case None => p.(pc := AtVerify)
  }

  function AfterStart(cfg: Config, p: Proc): Proc
    requires cfg.maxBody <= MAX_INT64
  {
    if p.req.handler.Admin? then CheckSession(cfg, p) else
      match ProxyRefusal(cfg, p.req)
      case Some(stop) => Reject(cfg, p, stop)
      case None => CheckSession(cfg, p.(entry := p.entry.(route := MatchRoute(cfg.routes, p.req.path).value.name)))
  }

  function AfterVerify(cfg: Config, p: Proc): Proc {
    match VerdictRefusal(p.req.verdict)
    case Some(stop) => Reject(cfg, p, stop)
    case None =>
      var user := p.req.verdict.id;
      var q := p.(entry := p.entry.(authResult := AUTHENTICATED, userId := Some(user)));
      if p.req.handler.Proxy? then q.(pc := AtUpstream)
      else if user !in cfg.admins then Reject(cfg, q, AuthRefusal(NOT_ADMIN, FORBIDDEN))
      else
        match TaskRefusal(cfg, p.req.handler.task)
        case Some(refusal) => Settle(cfg, q, Refuse(refusal))
        case None => q.(pc := AtWork)
  }

  // ------------------------------------------------------------ the steps

  function StepStart(cfg: Config, rows: Table, p: Proc): Proc
    requires cfg.maxBody <= MAX_INT64
  {
    if !cfg.audited then AfterStart(cfg, p) else
      var inserted := Inserts(cfg.lib, rows, p.entry, p.req.start);
      var q := p.(calls := p.calls + [Start], inserted := inserted, started := inserted && p.req.start == Acked);
      if q.started then AfterStart(cfg, q)
      else q.(response := Some(Unaudited(cfg, p.req)), pc := AtReply)
  }

  function StepVerify(cfg: Config, p: Proc): Proc
    requires p.req.token.Some?
  {
    AfterVerify(cfg, p.(calls := p.calls + [Verify(p.req.token.value)]))
  }

  function StepUpstream(cfg: Config, p: Proc): Proc
    requires cfg.maxBody <= MAX_INT64
    requires CanForward(cfg, p.req)
  {
    var route := MatchRoute(cfg.routes, p.req.path).value;
    Settle(cfg, p.(calls := p.calls + [ForwardCall(cfg, p.req, route, p.req.verdict.id)]), UpstreamAnswer(route, p.req))
  }

  function StepWork(cfg: Config, p: Proc): Proc
    requires p.req.handler.Admin?
  {
    Settle(cfg, p.(calls := p.calls + [Work]), TaskAnswer(p.req.handler.task))
  }

  function StepFinish(cfg: Config, rows: Table, p: Proc): Proc {
    if !cfg.audited then p.(pc := AtReply)
    else p.(calls := p.calls + [Finish], updated := Updates(cfg.lib, rows, p.entry, p.req.finish), pc := AtReply)
  }

  predicate CanForward(cfg: Config, req: Request)
    requires cfg.maxBody <= MAX_INT64
  {
    req.verdict.User? && MatchRoute(cfg.routes, req.path).Some? && ReadBody(cfg, req).Reading?
  }

  /** What the step of a request does to that request. The guards never fail on a reachable state: see `ProcInv`. */
  function Advance(cfg: Config, rows: Table, p: Proc): Proc
    requires cfg.maxBody <= MAX_INT64
  {
    match p.pc
    case AtStart => StepStart(cfg, rows, p)
    case AtVerify => if p.req.token.Some? then StepVerify(cfg, p) else p
    case AtUpstream => if CanForward(cfg, p.req) then StepUpstream(cfg, p) else p
    case AtWork => if p.req.handler.Admin? then StepWork(cfg, p) else p
    case AtFinish => StepFinish(cfg, rows, p)
    case AtReply => p.(pc := Ended)
    case Ended => p
  }

  /** What it does to the table. */
  function TableAfter(cfg: Config, rows: Table, p: Proc): Table {
    if cfg.audited && p.pc == AtStart then AfterInsert(cfg.lib, rows, p.entry, p.req.start)
    else if cfg.audited && p.pc == AtFinish then AfterUpdate(cfg.lib, rows, p.entry, p.req.finish)
    else rows
  }

  // ------------------------------------------------------------ one request: it follows its decision

  function Prefix(cfg: Config): seq<Call> {
    if cfg.audited then [Start] else []
  }

  function Suffix(cfg: Config): seq<Call> {
    if cfg.audited then [Finish] else []
  }

  /** The handler goes on after `Start` only when that succeeded, or when there is no audit sink. */
  predicate Admitted(cfg: Config, p: Proc) {
    cfg.audited ==> p.started
  }

  /** The route an entry carries once its request has passed the checks before the session's. */
  function RouteOf(cfg: Config, req: Request): Bytes {
    if req.handler.Admin? then TaskRoute(req.handler.task)
    else if MatchRoute(cfg.routes, req.path).Some? then MatchRoute(cfg.routes, req.path).value.name
    else ""
  }

  predicate PastSession(cfg: Config, req: Request)
    requires cfg.maxBody <= MAX_INT64
  {
    (req.handler.Proxy? ==> ProxyRefusal(cfg, req).None?) && SessionRefusal(cfg, req).None?
  }

  predicate PastVerdict(cfg: Config, req: Request)
    requires cfg.maxBody <= MAX_INT64
  {
    PastSession(cfg, req) && req.verdict.User?
  }

  ghost predicate ProcInv(cfg: Config, p: Proc) {
    && cfg.maxBody <= MAX_INT64
    && (p.started <==> p.pc != AtStart && cfg.audited && p.inserted && p.req.start == Acked)
    && (p.inserted ==> cfg.audited)
    && (p.updated ==> p.started && (p.pc == AtReply || p.pc == Ended))
    && match p.pc
       case AtStart => p == Fresh(cfg, p.req)
       case AtVerify =>
         && Admitted(cfg, p) && PastSession(cfg, p.req) && p.response.None? && p.calls == Prefix(cfg)
         && p.entry == StartEntry(cfg, p.req).(route := RouteOf(cfg, p.req))
       case AtUpstream =>
         && p.req.handler.Proxy? && PastVerified(cfg, p)
       case AtWork =>
         && p.req.handler.Admin? && PastVerified(cfg, p)
         && p.req.verdict.id in cfg.admins && TaskRefusal(cfg, p.req.handler.task).None?
       case AtFinish =>
         && Admitted(cfg, p) && p.entry == FinalEntry(cfg, p.req)
         && p.response == Some(RespondTo(cfg, p.req, Decide(cfg, p.req).answer))
         && p.calls == Prefix(cfg) + Decide(cfg, p.req).calls
       case _ =>
         if Admitted(cfg, p) then
           && p.entry == FinalEntry(cfg, p.req)
           && p.response == Some(RespondTo(cfg, p.req, Decide(cfg, p.req).answer))
           && p.calls == Prefix(cfg) + Decide(cfg, p.req).calls + Suffix(cfg)
         else
           && p.entry == StartEntry(cfg, p.req)
           && p.response == Some(Unaudited(cfg, p.req)) && p.calls == [Start]
  }

  predicate PastVerified(cfg: Config, p: Proc)
    requires cfg.maxBody <= MAX_INT64
  {
    && Admitted(cfg, p) && PastVerdict(cfg, p.req) && p.response.None?
    && p.calls == Prefix(cfg) + [Verify(p.req.token.value)]
    && p.entry == StartEntry(cfg, p.req).(route := RouteOf(cfg, p.req), authResult := AUTHENTICATED,
         userId := Some(p.req.verdict.id))
  }

  lemma SessionChecked(cfg: Config, p: Proc)
    requires cfg.maxBody <= MAX_INT64 && Admitted(cfg, p)
    requires p.started <==> cfg.audited && p.inserted && p.req.start == Acked
    requires p.inserted ==> cfg.audited
    requires !p.updated && p.response.None? && p.calls == Prefix(cfg)
    requires p.req.handler.Proxy? ==> ProxyRefusal(cfg, p.req).None?
    requires p.entry == StartEntry(cfg, p.req).(route := RouteOf(cfg, p.req))
    ensures ProcInv(cfg, CheckSession(cfg, p))
  {
    hide RequestHalfOf, RespondTo, ResponseHalfOf, ReadBody, MatchRoute, ForwardCall;
    var d := Decide(cfg, p.req);
    assert SessionRefusal(cfg, p.req).Some? ==> Prefix(cfg) + d.calls == Prefix(cfg);
  }

  lemma StartStep(cfg: Config, rows: Table, p: Proc)
    requires ProcInv(cfg, p) && p.pc == AtStart
    ensures ProcInv(cfg, StepStart(cfg, rows, p))
  {
    hide RequestHalfOf, RespondTo, ResponseHalfOf, ReadBody, MatchRoute, ForwardCall, Unaudited, Inserts, CheckSession;
    var inserted := cfg.audited && Inserts(cfg.lib, rows, p.entry, p.req.start);
    var q := p.(calls := Prefix(cfg), inserted := inserted, started := inserted && p.req.start == Acked);
    assert p.calls + [Start] == [Start];
    if Admitted(cfg, q) {
      if p.req.handler.Proxy? && ProxyRefusal(cfg, p.req).Some? {
        assert Prefix(cfg) + Decide(cfg, p.req).calls == Prefix(cfg);
      } else {
        var r := q.(entry := q.entry.(route := RouteOf(cfg, p.req)));
        SessionChecked(cfg, r);
        assert AfterStart(cfg, q) == CheckSession(cfg, r);
      }
      assert StepStart(cfg, rows, p) == AfterStart(cfg, q);
    }
  }

  lemma VerifyStep(cfg: Config, p: Proc)
    requires ProcInv(cfg, p) && p.pc == AtVerify
    ensures ProcInv(cfg, StepVerify(cfg, p))
  {
    hide RequestHalfOf, RespondTo, ResponseHalfOf, ReadBody, MatchRoute, ForwardCall, TaskRefusal, TaskAnswer,
        UpstreamAnswer;
    var asked := [Verify(p.req.token.value)];
    assert asked + [] == asked;
  }

  lemma UpstreamStep(cfg: Config, p: Proc)
    requires ProcInv(cfg, p) && p.pc == AtUpstream
    ensures ProcInv(cfg, StepUpstream(cfg, p))
  {
    hide RequestHalfOf, RespondTo, ResponseHalfOf, ReadBody, MatchRoute, ForwardCall, UpstreamAnswer;
    var d := Decide(cfg, p.req);
    var asked := [Verify(p.req.token.value)];
    assert Prefix(cfg) + d.calls == (Prefix(cfg) + asked) + d.calls[1..];
  }

  lemma WorkStep(cfg: Config, p: Proc)
    requires ProcInv(cfg, p) && p.pc == AtWork
    ensures ProcInv(cfg, StepWork(cfg, p))
  {
    hide RequestHalfOf, RespondTo, ResponseHalfOf, TaskRefusal, TaskAnswer;
    var d := Decide(cfg, p.req);
    var asked := [Verify(p.req.token.value)];
    assert Prefix(cfg) + d.calls == (Prefix(cfg) + asked) + d.calls[1..];
  }

  lemma FinishStep(cfg: Config, rows: Table, p: Proc)
    requires ProcInv(cfg, p) && p.pc == AtFinish
    ensures ProcInv(cfg, StepFinish(cfg, rows, p))
  {
    hide FinalEntry, Decide, RespondTo, Unaudited, StartEntry;
    assert (Prefix(cfg) + Decide(cfg, p.req).calls) + [] == Prefix(cfg) + Decide(cfg, p.req).calls;
  }

  /** Whatever the table holds, a request stays on the course its decision sets. */
  lemma StepFollowsDecision(cfg: Config, rows: Table, p: Proc)
    requires ProcInv(cfg, p)
    ensures ProcInv(cfg, Advance(cfg, rows, p)) && Advance(cfg, rows, p).req == p.req
    ensures p.entry.id == p.req.id
  {
    hide RequestHalfOf, RespondTo, ResponseHalfOf, ReadBody, MatchRoute, ForwardCall, UpstreamAnswer, TaskAnswer,
        TaskRefusal, Inserts, Updates;
    match p.pc
    case AtStart => StartStep(cfg, rows, p);
    case AtVerify => VerifyStep(cfg, p);
    case AtUpstream => UpstreamStep(cfg, p);
    case AtWork => WorkStep(cfg, p);
    case AtFinish => FinishStep(cfg, rows, p);
    case _ =>
  }

  // ------------------------------------------------------------ all requests: the table

  /** The row an inserted request has: as inserted, or as its final entry left it. */
  function RowOf(cfg: Config, p: Proc): Row
    requires cfg.maxBody <= MAX_INT64
  {
    var row := Inserted(StartEntry(cfg, p.req));
    if p.updated then Updated(row, FinalEntry(cfg, p.req)) else row
  }

  ghost predicate Owns(s: State, pid: nat, id: Id) {
    pid in s.procs && s.procs[pid].inserted && s.procs[pid].req.id == id
  }

  /**
   * Every request follows its decision. Every row is one of those in the table before (`base`), as it was; or it has
   * one owner, and is exactly what that owner has made of it.
   */
  ghost predicate Inv(cfg: Config, base: Table, s: State) {
    && cfg.maxBody <= MAX_INT64
    && (forall pid <- s.procs.Keys :: ProcInv(cfg, s.procs[pid]))
    && (forall id <- base.Keys :: id in s.rows && s.rows[id] == base[id])
    && (forall id <- s.rows.Keys :: id in base || exists pid :: Owns(s, pid, id))
    && (forall pid, id :: Owns(s, pid, id) ==> id !in base && id in s.rows && s.rows[id] == RowOf(cfg, s.procs[pid]))
    && (forall pid, other, id :: Owns(s, pid, id) && Owns(s, other, id) ==> pid == other)
    && (forall pid <- s.procs.Keys :: Written(cfg, s.procs[pid]))
  }

  /** Whether the update of a request takes effect once it is attempted: what it writes must fit its columns. */
  predicate Completes(cfg: Config, req: Request)
    requires cfg.maxBody <= MAX_INT64
  {
    req.finish != Refused && UpdateFits(cfg.lib, FinalEntry(cfg, req))
  }

  /**
   * An insert that took effect was not refused; once `Finish` has been called, the update took effect unless it was.
   */
  predicate Written(cfg: Config, p: Proc)
    requires cfg.maxBody <= MAX_INT64
  {
    && (p.inserted ==> p.req.start != Refused && InsertFits(cfg.lib, StartEntry(cfg, p.req)))
    && (p.started && (p.pc == AtReply || p.pc == Ended) ==> (p.updated <==> Completes(cfg, p.req)))
  }

  datatype Step = Arrive(pid: nat, req: Request) | Move(pid: nat)

  predicate Enabled(s: State, step: Step) {
    match step
    case Arrive(pid, _) => pid !in s.procs
    case Move(pid) => pid in s.procs && s.procs[pid].pc != Ended
  }

  function Next(cfg: Config, s: State, step: Step): State
    requires Enabled(s, step) && cfg.maxBody <= MAX_INT64
  {
    match step
    case Arrive(pid, req) => s.(procs := s.procs[pid := Fresh(cfg, req)])
    case Move(pid) =>
      var p := s.procs[pid];
      State(TableAfter(cfg, s.rows, p), s.procs[pid := Advance(cfg, s.rows, p)])
  }

  /**
   * A step of a request that has nothing in the table touches no existing row; one that has a row touches at most
   * that row.
   */
  lemma StepTouchesOwnRow(cfg: Config, base: Table, s: State, pid: nat, id: Id)
    requires Inv(cfg, base, s) && pid in s.procs && id in s.rows
    ensures var after := TableAfter(cfg, s.rows, s.procs[pid]);
            && id in after
            && (after[id] != s.rows[id] ==> Owns(s, pid, id))
  {
    hide ProcInv, RowOf, StartEntry, FinalEntry, Decide, Written, InsertFits, UpdateFits;
    var p := s.procs[pid];
    StepFollowsDecision(cfg, s.rows, p);
    if p.pc == AtFinish && cfg.audited {
      FinishingIsStarted(cfg, p);
    }
  }

  lemma FinishingIsStarted(cfg: Config, p: Proc)
    requires ProcInv(cfg, p) && p.pc == AtFinish && cfg.audited
    ensures p.started && p.inserted && !p.updated && p.entry == FinalEntry(cfg, p.req)
  {
    hide FinalEntry, Decide, RespondTo;
  }

  lemma StartEffect(cfg: Config, rows: Table, p: Proc)
    requires ProcInv(cfg, p) && p.pc == AtStart
    ensures var q := Advance(cfg, rows, p);
            q.inserted == (cfg.audited && Inserts(cfg.lib, rows, p.entry, p.req.start)) && !q.updated && !p.inserted &&
                !p.updated
  {
    hide RequestHalfOf, RespondTo, ResponseHalfOf, ReadBody, MatchRoute, Unaudited, Inserts, ProxyRefusal,
        SessionRefusal;
  }

  lemma MiddleEffect(cfg: Config, rows: Table, p: Proc)
    requires ProcInv(cfg, p) && p.pc != AtStart && p.pc != AtFinish
    ensures var q := Advance(cfg, rows, p); q.inserted == p.inserted && q.updated == p.updated
  {
    hide RequestHalfOf, RespondTo, ResponseHalfOf, ReadBody, MatchRoute, TaskRefusal, TaskAnswer, UpstreamAnswer,
        ForwardCall;
  }

  /** A step keeps a request and its row in agreement, and leaves every other row alone. */
  lemma RowEffect(cfg: Config, rows: Table, p: Proc)
    requires ProcInv(cfg, p)
    requires p.inserted ==> p.req.id in rows && rows[p.req.id] == RowOf(cfg, p)
    ensures var q, after := Advance(cfg, rows, p), TableAfter(cfg, rows, p);
            && (p.inserted ==> q.inserted)
            && (q.inserted && !p.inserted ==> p.req.id !in rows)
            && (q.inserted ==> p.req.id in after && after[p.req.id] == RowOf(cfg, q))
            && (!q.inserted ==> after == rows)
            && (forall id :: id != p.req.id ==> (id in after <==> id in rows) && (id in rows ==> after[id] == rows[id]))
  {
    hide FinalEntry, RequestHalfOf, Updated, Inserted, Decide, AfterStart, AfterVerify, InsertFits, UpdateFits;
    StepFollowsDecision(cfg, rows, p);
    if p.pc == AtStart {
      StartEffect(cfg, rows, p);
    } else if p.pc == AtFinish {
      if cfg.audited {
        FinishingIsStarted(cfg, p);
      }
    } else {
      MiddleEffect(cfg, rows, p);
    }
  }

  lemma WriteEffect(cfg: Config, rows: Table, p: Proc)
    requires ProcInv(cfg, p) && Written(cfg, p) && (p.inserted ==> p.req.id in rows)
    ensures Written(cfg, Advance(cfg, rows, p))
  {
    hide RequestHalfOf, RespondTo, FinalEntry, Decide, AfterStart, AfterVerify, StartEntry, InsertFits, UpdateFits;
    StepFollowsDecision(cfg, rows, p);
    if p.pc == AtStart {
      StartEffect(cfg, rows, p);
      StartLeads(cfg, rows, p);
    } else if p.pc == AtFinish {
      if cfg.audited {
        FinishingIsStarted(cfg, p);
      }
    } else {
      MiddleEffect(cfg, rows, p);
      MiddleLeads(cfg, rows, p);
    }
  }

  lemma StartLeads(cfg: Config, rows: Table, p: Proc)
    requires ProcInv(cfg, p) && p.pc == AtStart
    ensures var q := Advance(cfg, rows, p); Fuel(q.pc) < Fuel(p.pc) && (q.started ==> Fuel(q.pc) > 1)
    ensures p.entry == StartEntry(cfg, p.req)
  {
    hide RequestHalfOf, RespondTo, ResponseHalfOf, ReadBody, MatchRoute, Unaudited, Inserts, ProxyRefusal,
        SessionRefusal;
  }

  lemma MiddleLeads(cfg: Config, rows: Table, p: Proc)
    requires ProcInv(cfg, p) && p.pc != AtStart && p.pc != AtFinish
    ensures var q := Advance(cfg, rows, p);
            && (p.pc != Ended ==> Fuel(q.pc) < Fuel(p.pc))
            && (Fuel(p.pc) > 1 ==> Fuel(q.pc) > 1) && q.started == p.started
  {
    hide RequestHalfOf, RespondTo, ResponseHalfOf, ReadBody, MatchRoute, TaskRefusal, TaskAnswer, UpstreamAnswer,
        ForwardCall;
  }

  /** How many steps a request has ahead of it at most. */
  function Fuel(pc: Pc): nat {
    match pc
    case AtStart => 5
    case AtVerify => 4
    case AtUpstream | AtWork => 3
    case AtFinish => 2
    case AtReply => 1
    case Ended => 0
  }

  /** Arrivals and steps, in any order, keep the invariant. */
  lemma InvNext(cfg: Config, base: Table, s: State, step: Step)
    requires Inv(cfg, base, s) && Enabled(s, step)
    ensures Inv(cfg, base, Next(cfg, s, step))
  {
    hide ProcInv, RowOf, Advance, TableAfter, FinalEntry, StartEntry, Written;
    var t := Next(cfg, s, step);
    match step
    case Arrive(pid, req) =>
      FreshIsGood(cfg, req);
      forall id | id in t.rows && id !in base ensures exists owner :: Owns(t, owner, id) {
        var owner :| Owns(s, owner, id);
        assert Owns(t, owner, id);
      }
      assert forall owner, id :: Owns(t, owner, id) ==> Owns(s, owner, id);
    case Move(pid) => InvMove(cfg, base, s, pid);
  }

  lemma FreshIsGood(cfg: Config, req: Request)
    requires cfg.maxBody <= MAX_INT64
    ensures ProcInv(cfg, Fresh(cfg, req)) && !Fresh(cfg, req).inserted && Written(cfg, Fresh(cfg, req))
  {
    hide StartEntry;
  }

  lemma InvMove(cfg: Config, base: Table, s: State, pid: nat)
    requires Inv(cfg, base, s) && Enabled(s, Move(pid))
    ensures Inv(cfg, base, Next(cfg, s, Move(pid)))
  {
    hide ProcInv, RowOf, Advance, TableAfter, FinalEntry, StartEntry, Written;
    var p := s.procs[pid];
    WriteEffect(cfg, s.rows, p);
    var t := Next(cfg, s, Move(pid));
    StepFollowsDecision(cfg, s.rows, p);
    RowEffect(cfg, s.rows, p);
    assert Owns(s, pid, p.req.id) <==> p.inserted;
    forall other, id ensures other != pid ==> (Owns(t, other, id) <==> Owns(s, other, id)) {
    }
    forall id | id in t.rows && id !in base ensures exists owner :: Owns(t, owner, id) {
      if id == p.req.id && t.procs[pid].inserted {
        assert Owns(t, pid, id);
      } else {
        var owner :| Owns(s, owner, id);
        assert Owns(t, owner, id);
      }
    }
    forall a, b, id | Owns(t, a, id) && Owns(t, b, id) ensures a == b {
      OwnersAgree(cfg, base, s, pid, a, b, id);
    }
    forall other, id | Owns(t, other, id)
      ensures id !in base && id in t.rows && t.rows[id] == RowOf(cfg, t.procs[other])
    {
      assert t.procs[pid].inserted ==> Owns(t, pid, p.req.id);
    }
  }

  /** After a step of `pid`, a row still has at most one owner: a new owner found the key free. */
  lemma OwnersAgree(cfg: Config, base: Table, s: State, pid: nat, a: nat, b: nat, id: Id)
    requires Inv(cfg, base, s) && Enabled(s, Move(pid))
    requires Owns(Next(cfg, s, Move(pid)), a, id) && Owns(Next(cfg, s, Move(pid)), b, id)
    ensures a == b
  {
    hide ProcInv, RowOf, Advance, TableAfter, FinalEntry, StartEntry, Written;
    var p := s.procs[pid];
    StepFollowsDecision(cfg, s.rows, p);
    RowEffect(cfg, s.rows, p);
    assert a != pid ==> Owns(s, a, id);
    assert b != pid ==> Owns(s, b, id);
    assert p.inserted ==> Owns(s, pid, p.req.id);
  }
}
