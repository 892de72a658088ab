/** What an administrator is sent who asks for a player's page: the fan-out within the one request that made it. */
module SupportPage {
  import opened Wrappers
  import opened GoStrings
  import opened AuditBodies
  import opened Lifecycle
  import opened Interleaving
  import AuditTrail
  import FanOut
  import PlayerSupport

  const FIELDS: set<Bytes> := set n | n in FanOut.PLAYER_SUPPORT

  /** What the page was made of: the reply to each query and how it is shown, and the schedule the workers had. */
  datatype Making = Making(
    replies: seq<PlayerSupport.Reply>,
    projections: seq<PlayerSupport.Projection>,
    run: seq<FanOut.State>,
    steps: seq<FanOut.Step>)

  /** The JSON encoder is a parameter. */
  type Encoder = FanOut.Response -> Payload

  ghost predicate IsMaking(cfg: Config, m: Making)
    requires cfg.maxBody <= MAX_INT64
  {
    && |m.replies| == |m.projections| == 6
    && FanOut.IsRun(FIELDS, PlayerSupport.PageJobs(cfg.maxBody, m.replies, m.projections), m.run, m.steps)
    && m.run[|m.steps|].main == FanOut.Finished
  }

  /** The response of running the six queries one by one. */
  function Page(cfg: Config, m: Making): FanOut.Response
    requires cfg.maxBody <= MAX_INT64 && |m.replies| == |m.projections| == 6
  {
    FanOut.Sequential(FIELDS, PlayerSupport.PageJobs(cfg.maxBody, m.replies, m.projections))
  }

  lemma MakingIsSequential(cfg: Config, m: Making)
    requires cfg.maxBody <= MAX_INT64 && IsMaking(cfg, m)
    ensures m.run[|m.steps|].response == Page(cfg, m)
  {
    hide FanOut.IsRun, FanOut.Sequential, PlayerSupport.LoadSection;
    var sections := seq(6, i requires 0 <= i < 6 => PlayerSupport.PageSection(cfg.maxBody, m.replies, m.projections,
        i));
    FanOut.PlayerSupportNames(sections);
    FanOut.EveryScheduleAgrees(FIELDS, PlayerSupport.PageJobs(cfg.maxBody, m.replies, m.projections), m.run, m.steps);
  }

  lemma WorkAnswers(cfg: Config, req: Request)
    requires cfg.maxBody <= MAX_INT64 && req.handler.Admin? && Work in Decide(cfg, req).calls
    ensures Decide(cfg, req).answer == TaskAnswer(req.handler.task)
  {
    hide TaskAnswer, TaskRefusal;
  }

  lemma WorkIsDecided(cfg: Config, p: Proc)
    requires ProcInv(cfg, p) && Work in p.calls
    ensures Work in Decide(cfg, p.req).calls && Admitted(cfg, p)
  {
    hide Decide, ProcInv;
    var middle, last := AuditTrail.CallsAreDecided(cfg, p);
    assert forall call :: call in Prefix(cfg) + middle + last ==> call == Start || call in middle || call == Finish;
    assert middle != [];
    assert forall call :: call in middle ==> call in Decide(cfg, p.req).calls;
  }

  /**
   * In every run, whoever has asked for a player's page and got as far as the queries is sent the encoding of the
   * response that running them one by one gives, whatever schedule the workers had and however requests were
   * interleaved; or, when that cannot be encoded, an error. With auditing on and the row completed, the row tells of
   * the document.
   */
  lemma PageIsSent(cfg: Config, base: Table, run: seq<State>, steps: seq<Step>, i: nat, pid: nat, m: Making,
      encode: Encoder)
    requires cfg.maxBody <= MAX_INT64 && AuditTrail.IsRun(cfg, base, run, steps) && i < |run| && IsMaking(cfg, m)
    requires pid in run[i].procs && run[i].procs[pid].pc == Ended && Work in run[i].procs[pid].calls
    requires run[i].procs[pid].req.handler == Admin(Task.PlayerSupport(true, encode(m.run[|m.steps|].response)))
    ensures var p, document := run[i].procs[pid], encode(Page(cfg, m));
            && p.response == Some(RespondTo(cfg, p.req, Encoded(document)))
            && (document.Some? ==> p.response.value.status == 200 && p.response.value.body == document.value)
            && (p.inserted && p.req.id in run[i].rows && run[i].rows[p.req.id].complete ==>
                  AuditTrail.Tells(run[i].rows[p.req.id], p.response.value, cfg.auditLimit))
  {
    hide ProcInv, Next, AuditTrail.IsRun, IsMaking, Page, Decide, Stored;
    var p := run[i].procs[pid];
    MakingIsSequential(cfg, m);
    AuditTrail.RunKeepsInv(cfg, base, run, steps, i);
    AuditTrail.EndedRequestIsAccounted(cfg, base, run, steps, i, pid);
    WorkIsDecided(cfg, p);
    WorkAnswers(cfg, p.req);
  }
}
