/** What an administrator's listing shows of the rows that a run has left in the audit table. */
module AuditListing {
  import opened Wrappers
  import opened GoStrings
  import opened Routing
  import opened AuditBodies
  import opened Lifecycle
  import opened Interleaving
  import opened AuditTrail
  import opened Postgres
  import AuditQuery
  import AuditSql

  /** The columns of a row that the filter looks at. */
  function Columns(id: Id, row: Row, startedAt: int): AuditSql.Row {
    AuditSql.Row(id, row.userId, row.request.method_, row.request.path, row.route, row.authResult,
                 if row.response.Some? then Some(row.response.value.status) else None, startedAt)
  }

  predicate Listed(filter: AuditQuery.Filter, id: Id, row: Row, startedAt: int) {
    var query := AuditSql.Listed(filter);
    AuditSql.Selects(query.clause, query.args, Columns(id, row, startedAt))
  }

  const NO_FILTER := AuditQuery.Filter(0, None, None, "", "", "", "", None, None, None)

  /** Whether a row says that its request was for the audit log itself. */
  predicate Hidden(cfg: Config, p: Proc)
    requires cfg.maxBody <= MAX_INT64
  {
    if p.req.handler.Admin? then TaskRoute(p.req.handler.task) == AuditQuery.AUDIT_ADMIN
    else p.updated && Decide(cfg, p.req).route == AuditQuery.AUDIT_ADMIN
  }

  lemma RouteColumn(cfg: Config, p: Proc)
    requires cfg.maxBody <= MAX_INT64
    ensures RowOf(cfg, p).route == Some(AuditQuery.AUDIT_ADMIN) <==> Hidden(cfg, p)
  {
    hide RequestHalfOf, ResponseHalfOf, RespondTo, ReadBody, MatchRoute, ForwardCall, TaskAnswer, UpstreamAnswer,
        TaskRefusal, ProxyRefusal;
    assert |AuditQuery.AUDIT_ADMIN| != |PLAYER_SUPPORT_ROUTE|;
  }

  lemma StatusOnlyFilter(status: Option<int>, id: Id, row: Row, startedAt: int)
    ensures Listed(NO_FILTER.(status := status), id, row, startedAt)
            <==> row.route != Some(AuditQuery.AUDIT_ADMIN)
                 && (status.Some? ==>
                       IntegerFits(status.value) && row.response.Some? && row.response.value.status == status.value)
  {
    hide AuditQuery.Normalize, AuditSql.Listed, AuditSql.Selects, TrimSpace, ToUpper, TextFits;
    AsciiFits([]);
    AuditSql.LimitIsBoundLast(NO_FILTER.(status := status), Columns(id, row, startedAt));
    NormalOfStatus(status);
  }

  lemma NormalOfStatus(status: Option<int>)
    ensures var f := AuditQuery.Normalize(NO_FILTER.(status := status));
            && f.requestId.None? && f.userId.None? && f.status == status && f.since.None? && f.until.None?
            && f.method_ == f.pathContains == f.route == f.authResult == []
  {
  }

  /**
   * Without a filter, everything is listed that requests have put in the table, refused and unfinished requests too,
   * except what the audit log's own handlers and any proxied route of that very name have.
   */
  lemma UnfilteredListing(cfg: Config, base: Table, run: seq<State>, steps: seq<Step>, i: nat, pid: nat, id: Id,
      startedAt: int)
    requires cfg.maxBody <= MAX_INT64 && IsRun(cfg, base, run, steps) && i < |run| && Owns(run[i], pid, id)
    ensures id in run[i].rows
    ensures Listed(NO_FILTER, id, run[i].rows[id], startedAt) <==> !Hidden(cfg, run[i].procs[pid])
  {
    hide ProcInv, RowOf, Next, IsRun, Written, Listed, Hidden;
    RunKeepsInv(cfg, base, run, steps, i);
    StatusOnlyFilter(None, id, run[i].rows[id], startedAt);
    RouteColumn(cfg, run[i].procs[pid]);
    assert NO_FILTER.(status := None) == NO_FILTER;
  }

  /** The rows a listing asked for at this moment finds, before they are put in order and cut to the limit. */
  function Shown(filter: AuditQuery.Filter, rows: Table, startedAt: Id -> int): set<Id> {
    set id | id in rows && Listed(filter, id, rows[id], startedAt(id))
  }

  predicate AsksForListing(req: Request) {
    req.handler.Admin? && req.handler.task.AuditList?
  }

  /**
   * At every moment of a run an unfiltered listing finds what it would have found before, and the rows of all
   * requests so far that are not hidden; it never finds the row of the request it is made for.
   */
  lemma ListingShows(cfg: Config, base: Table, run: seq<State>, steps: seq<Step>, i: nat, startedAt: Id -> int, id: Id)
    requires cfg.maxBody <= MAX_INT64 && IsRun(cfg, base, run, steps) && i < |run|
    ensures id in Shown(NO_FILTER, run[i].rows, startedAt)
            <==> id in Shown(NO_FILTER, base, startedAt)
                 || exists pid :: Owns(run[i], pid, id) && !Hidden(cfg, run[i].procs[pid])
    ensures forall pid :: Owns(run[i], pid, id) && AsksForListing(run[i].procs[pid].req) ==>
              id !in Shown(NO_FILTER, run[i].rows, startedAt)
  {
    hide IsRun, Listed;
    RowsAreIsolated(cfg, base, run, steps, i, id);
    if pid :| Owns(run[i], pid, id) {
      UnfilteredListing(cfg, base, run, steps, i, pid, id, startedAt(id));
      assert forall other :: Owns(run[i], other, id) ==> other == pid;
    }
  }

  /**
   * Filtered by status, a request that has ended is listed exactly when its row was completed, is not hidden, and
   * that status is the one its client was sent. No unfinished row is ever listed under a status.
   */
  lemma ListingByStatus(cfg: Config, base: Table, run: seq<State>, steps: seq<Step>, i: nat, pid: nat, status: int,
      startedAt: int)
    requires cfg.maxBody <= MAX_INT64 && IsRun(cfg, base, run, steps) && i < |run|
    requires pid in run[i].procs && run[i].procs[pid].pc == Ended && run[i].procs[pid].inserted
    ensures var p := run[i].procs[pid];
            && p.req.id in run[i].rows && p.response.Some?
            && (Listed(NO_FILTER.(status := Some(status)), p.req.id, run[i].rows[p.req.id], startedAt)
                <==> p.started && Completes(cfg, p.req) && !Hidden(cfg, p) && p.response.value.status == status)
  {
    hide ProcInv, Next, IsRun, Listed, Hidden, Completes, RespondTo, Decide, StartEntry, FinalEntry, Unaudited, Stored;
    var p := run[i].procs[pid];
    RunKeepsInv(cfg, base, run, steps, i);
    assert Owns(run[i], pid, p.req.id);
    EndedRequestIsAccounted(cfg, base, run, steps, i, pid);
    StatusOnlyFilter(Some(status), p.req.id, run[i].rows[p.req.id], startedAt);
    RouteColumn(cfg, p);
  }

  /** Asked for by the id its client was given, a row is found whatever its route, and no other row is. */
  lemma ListingByRequestId(asked: Id, id: Id, row: Row, startedAt: int)
    ensures Listed(NO_FILTER.(requestId := Some(asked)), id, row, startedAt) <==> id == asked
  {
    hide AuditQuery.Normalize, AuditSql.Listed, AuditSql.Selects, TrimSpace, ToUpper, TextFits;
    AsciiFits([]);
    var filter := NO_FILTER.(requestId := Some(asked));
    AuditSql.LimitIsBoundLast(filter, Columns(id, row, startedAt));
    NormalOfRequestId(asked);
  }

  lemma NormalOfRequestId(asked: Id)
    ensures var f := AuditQuery.Normalize(NO_FILTER.(requestId := Some(asked)));
            && f.requestId == Some(asked) && f.userId.None? && f.status.None? && f.since.None? && f.until.None?
            && f.method_ == f.pathContains == f.route == f.authResult == []
  {
  }
}
