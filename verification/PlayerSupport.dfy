/** How the sections of the two player-support documents are classified, and what the documents then say. */
module PlayerSupport {
  import opened Wrappers
  import opened GoStrings
  import opened AuditBodies
  import opened FanOut
  import Decimal

  /** What became of the request for a section. */
  datatype Reply = NoRoute | NoRequest | Unreachable | Reply(status: int, data: Bytes, broken: bool)

  /**
   * A projection reads a JSON document and writes the part of it that may be shown; the JSON library is a parameter.
   */
  type Projection = Bytes -> Option<Bytes>

  const NULL: Bytes := "null"

  function Unavailability(code: Bytes): Section {
    Section(Unavailable, NULL, code)
  }

  const NOT_FOUND := Section(NotFound, NULL, "")
  const NOT_APPLICABLE := Section(NotApplicable, NULL, "not_applicable")

  /** An upstream body is read whole, or not at all. */
  function ReadWhole(data: Bytes, broken: bool, maxBody: nat): Option<Bytes>
    requires maxBody <= MAX_INT64
  {
    match ReadLimited(Stream(data, broken), Increment64(maxBody))
    case None => None
    case Some(read) => if |read| > maxBody then None else Some(read)
  }

  function HttpError(status: int): Bytes {
    "upstream_http_" + if status < 0 then "-" + Decimal.Itoa(-status) else Decimal.Itoa(status)
  }

  predicate IsSuccess(status: int) {
    200 <= status < 300
  }

  /** `loadPlayerSupportUpstream`. */
  function LoadSection(maxBody: nat, allowNotFound: bool, reply: Reply, project: Projection): Section
    requires maxBody <= MAX_INT64
  {
    match reply
    case NoRoute => Unavailability("route_unavailable")
    case NoRequest => Unavailability("request_unavailable")
    case Unreachable => Unavailability("upstream_unavailable")
    case Reply(status, data, broken) =>
      match ReadWhole(data, broken, maxBody)
      case None => Unavailability("upstream_response_unavailable")
      case Some(read) =>
        if allowNotFound && status == 404 then NOT_FOUND
        else if !IsSuccess(status) then Unavailability(HttpError(status))
        else
          match project(read)
          case None => Unavailability("invalid_upstream_response")
          case Some(shown) => Section(Status.Ok, shown, "")
  }

  /** `readPlayerSupportUpstream`: everything short of a whole body is one error. */
  function ReadUpstream(maxBody: nat, reply: Reply): Option<(Bytes, int)>
    requires maxBody <= MAX_INT64
  {
    match reply
    case Reply(status, data, broken) =>
      (match ReadWhole(data, broken, maxBody)
       case None => None
       case Some(read) => Some((read, status)))
    case _ => None
  }

  /** `loadPlayerSupportReplayEvidence`. */
  function LoadEvidence(maxBody: nat, reply: Reply, project: Projection): Section
    requires maxBody <= MAX_INT64
  {
    match ReadUpstream(maxBody, reply)
    case None => Unavailability("upstream_unavailable")
    case Some((data, status)) =>
      if status == 404 then NOT_FOUND
      else if !IsSuccess(status) then Unavailability(HttpError(status))
      else
        match project(data)
        case None => Unavailability("invalid_upstream_response")
        case Some(shown) => Section(Status.Ok, shown, "")
  }

  /** What is read of a body: all of it, but nothing of any body under the largest 64-bit limit. */
  function Served(data: Bytes, maxBody: nat): Bytes {
    if maxBody < MAX_INT64 then data else []
  }

  /** A body can be read in full: it ends cleanly, within the limit, or nothing is read of it anyway. */
  predicate Readable(maxBody: nat, reply: Reply) {
    reply.Reply? && (maxBody < MAX_INT64 ==> !reply.broken && |reply.data| <= maxBody)
  }

  /** A query is answered by a success whose body can be read and projected; for some queries a 404 is an answer too. */
  predicate Answers(maxBody: nat, allowNotFound: bool, reply: Reply, project: Projection) {
    && Readable(maxBody, reply)
    && ((200 <= reply.status < 300 && project(Served(reply.data, maxBody)).Some?) ||
         (allowNotFound && reply.status == 404))
  }

  /**
   * A section is unavailable exactly when its query was not answered, and an available one shows the projection of
   * what is read: under every limit but the largest 64-bit one, of the whole body and never of a part of it.
   */
  lemma SectionTellsReply(maxBody: nat, allowNotFound: bool, reply: Reply, project: Projection)
    requires maxBody <= MAX_INT64
    ensures var section := LoadSection(maxBody, allowNotFound, reply, project);
            && (section.status == Unavailable <==> !Answers(maxBody, allowNotFound, reply, project))
            && (section.status == Status.Ok ==> project(Served(reply.data, maxBody)) == Some(section.data))
            && (section.status != Status.Ok ==> section.data == NULL)
            && (section.status == Unavailable <==> section.errorCode != "")
  {
  }

  /** A status in decimal, as `fmt.Sprintf` renders it. */
  predicate IsDecimal(text: Bytes, status: int) {
    if status >= 0 then Decimal.Atoi(text) == Some(status) && text == Decimal.Itoa(status)
    else text != [] && text[0] == '-' && IsDecimal(text[1..], -status)
  }

  lemma HttpErrorTells(status: int)
    ensures exists text :: IsDecimal(text, status) && HttpError(status) == "upstream_http_" + text
  {
    hide Decimal.Itoa, Decimal.Atoi;
    if status >= 0 {
      Decimal.AtoiInvertsItoa(status);
      assert IsDecimal(Decimal.Itoa(status), status);
    } else {
      var digits := Decimal.Itoa(-status);
      Decimal.AtoiInvertsItoa(-status);
      var text := "-" + digits;
      assert text[1..] == digits;
      assert IsDecimal(text, status);
    }
  }

  /** A section that could not be loaded for the status of the reply, which its code gives. */
  ghost predicate FailedWith(section: Section, status: int) {
    && section.status == Unavailable && section.data == "null"
    && exists text :: IsDecimal(text, status) && section.errorCode == "upstream_http_" + text
  }

  /**
   * A status that is no success makes its section unavailable, whatever document came with it, unless it is a 404
   * that is allowed; and once the document has been read the code tells the status.
   */
  lemma OtherStatusIsUnavailable(maxBody: nat, allowNotFound: bool, reply: Reply, project: Projection)
    requires maxBody <= MAX_INT64 && reply.Reply? && (reply.status < 200 || 300 <= reply.status)
    ensures !(allowNotFound && reply.status == 404) ==>
        LoadSection(maxBody, allowNotFound, reply, project).status == Unavailable
    ensures reply.status != 404 ==> LoadEvidence(maxBody, reply, project).status == Unavailable
    ensures Readable(maxBody, reply) && !(allowNotFound && reply.status == 404) ==>
              FailedWith(LoadSection(maxBody, allowNotFound, reply, project), reply.status)
    ensures Readable(maxBody, reply) && reply.status != 404 ==>
              FailedWith(LoadEvidence(maxBody, reply, project), reply.status)
  {
    hide IsDecimal, HttpError;
    HttpErrorTells(reply.status);
  }

  /** The codes of all other failures. */
  lemma FailureCodes(maxBody: nat, allowNotFound: bool, reply: Reply, project: Projection)
    requires maxBody <= MAX_INT64
    ensures var code := LoadSection(maxBody, allowNotFound, reply, project).errorCode;
            && (reply.NoRoute? ==> code == "route_unavailable")
            && (reply.NoRequest? ==> code == "request_unavailable")
            && (reply.Unreachable? ==> code == "upstream_unavailable")
            && (reply.Reply? && !Readable(maxBody, reply) ==> code == "upstream_response_unavailable")
            && (Readable(maxBody, reply) && 200 <= reply.status < 300 && project(Served(reply.data, maxBody)).None? ==>
                  code == "invalid_upstream_response")
    ensures var code := LoadEvidence(maxBody, reply, project).errorCode;
            && (!Readable(maxBody, reply) ==> code == "upstream_unavailable")
            && (Readable(maxBody, reply) && 200 <= reply.status < 300 && project(Served(reply.data, maxBody)).None? ==>
                  code == "invalid_upstream_response")
  {
  }

  /** Under the largest limit no section is ok, whatever the upstream sent, as no projection reads an empty document. */
  lemma LargestLimitReadsNothing(allowNotFound: bool, reply: Reply, project: Projection)
    requires project([]).None?
    ensures LoadSection(MAX_INT64, allowNotFound, reply, project).status != Status.Ok
  {
  }

  /** The two classifiers tell the same replies apart: they give different codes to some failures, and nothing else. */
  lemma ClassifiersAgree(maxBody: nat, reply: Reply, project: Projection)
    requires maxBody <= MAX_INT64
    ensures var a, b := LoadSection(maxBody, true, reply, project), LoadEvidence(maxBody, reply, project);
            && a.status == b.status && a.data == b.data
            && (a.errorCode != b.errorCode <==>
                  reply.NoRoute? || reply.NoRequest? ||
                      (reply.Reply? && ReadWhole(reply.data, reply.broken, maxBody).None?))
  {
  }

  // ------------------------------------------------------------ the player-support page

  /** Only the account may be missing. */
  function PageSection(maxBody: nat, replies: seq<Reply>, projections: seq<Projection>, i: nat): Section
    requires maxBody <= MAX_INT64 && |replies| == |projections| == 6 && i < 6
  {
    LoadSection(maxBody, i == 0, replies[i], projections[i])
  }

  function PageJobs(maxBody: nat, replies: seq<Reply>, projections: seq<Projection>): seq<Delivery>
    requires maxBody <= MAX_INT64 && |replies| == |projections| == 6
  {
    PlayerSupportJobs(seq(6, i requires 0 <= i < 6 => PageSection(maxBody, replies, projections, i)))
  }

  /**
   * Whichever schedule the six workers had, the page is partial exactly when one of the queries was not answered, and
   * each section is the one classified from its own query's reply.
   */
  lemma PageTellsReplies(maxBody: nat, replies: seq<Reply>, projections: seq<Projection>, run: seq<State>,
      steps: seq<Step>)
    requires maxBody <= MAX_INT64 && |replies| == |projections| == 6
    requires IsRun((set n | n in PLAYER_SUPPORT), PageJobs(maxBody, replies, projections), run, steps)
    requires run[|steps|].main == Finished
    ensures var page := run[|steps|].response;
            && (page.partial <==> exists i :: 0 <= i < 6 && !Answers(maxBody, i == 0, replies[i], projections[i]))
            && forall i :: 0 <= i < 6 ==>
                 PLAYER_SUPPORT[i] in page.sections
                 && page.sections[PLAYER_SUPPORT[i]] == PageSection(maxBody, replies, projections, i)
  {
    hide IsRun, Sequential, Answers, LoadSection, PLAYER_SUPPORT;
    var sections := seq(6, i requires 0 <= i < 6 => PageSection(maxBody, replies, projections, i));
    PlayerSupportNames(sections);
    EveryScheduleAgrees((set n | n in PLAYER_SUPPORT), PlayerSupportJobs(sections), run, steps);
    forall i | 0 <= i < 6
      ensures sections[i].status == Unavailable <==> !Answers(maxBody, i == 0, replies[i], projections[i])
    {
      SectionTellsReply(maxBody, i == 0, replies[i], projections[i]);
    }
  }

  /** One query that comes back with another status makes the page partial, under every schedule. */
  lemma OtherStatusMakesPagePartial(maxBody: nat, replies: seq<Reply>, projections: seq<Projection>, run: seq<State>,
      steps: seq<Step>, i: nat)
    requires maxBody <= MAX_INT64 && |replies| == |projections| == 6 && i < 6
    requires IsRun((set n | n in PLAYER_SUPPORT), PageJobs(maxBody, replies, projections), run, steps)
    requires run[|steps|].main == Finished
    requires replies[i].Reply? && (replies[i].status < 200 || 300 <= replies[i].status)
    requires i == 0 ==> replies[i].status != 404
    ensures run[|steps|].response.partial
    ensures PLAYER_SUPPORT[i] in run[|steps|].response.sections
    ensures run[|steps|].response.sections[PLAYER_SUPPORT[i]].status == Unavailable
  {
    hide IsRun, LoadSection, PLAYER_SUPPORT;
    PageTellsReplies(maxBody, replies, projections, run, steps);
    OtherStatusIsUnavailable(maxBody, i == 0, replies[i], projections[i]);
  }

  // ------------------------------------------------------------ the operation of a pull replay

  /** What a reply to the query for an operation amounts to; `idOf` reads the operation's own id out of the document. */
  datatype Operation = Found(document: Bytes) | Missing | Unserved | Invalid

  /** The part of `handlePlayerSupportPullReplay` between the two checks of ids and the evidence. */
  function LoadOperation(maxBody: nat, wanted: Bytes, reply: Reply, idOf: Projection): Operation
    requires maxBody <= MAX_INT64
  {
    match ReadUpstream(maxBody, reply)
    case None => Unserved
    case Some((document, status)) =>
      if status == 404 then Missing
      else if !IsSuccess(status) then Unserved
      else if idOf(document) != Some(wanted) then Invalid
      else Found(document)
  }

  /**
   * An operation is shown exactly when the upstream served a document, whole, that says it is the operation asked
   * for.
   */
  lemma OperationIsTheOneAsked(maxBody: nat, wanted: Bytes, reply: Reply, idOf: Projection)
    requires maxBody <= MAX_INT64
    ensures var operation := LoadOperation(maxBody, wanted, reply, idOf);
            && (operation.Found? <==>
                  Readable(maxBody, reply) && IsSuccess(reply.status) &&
                      idOf(Served(reply.data, maxBody)) == Some(wanted))
            && (operation.Found? ==> operation.document == Served(reply.data, maxBody))
            && (operation.Missing? <==> Readable(maxBody, reply) && reply.status == 404)
            && (operation.Invalid? <==>
                  Readable(maxBody, reply) && IsSuccess(reply.status) &&
                      idOf(Served(reply.data, maxBody)) != Some(wanted))
  {
  }

  /** No other status gives an operation, not even one that is refused for its id. */
  lemma OtherStatusHasNoOperation(maxBody: nat, wanted: Bytes, reply: Reply, idOf: Projection)
    requires maxBody <= MAX_INT64 && reply.Reply? && (reply.status < 200 || 300 <= reply.status)
    ensures var operation := LoadOperation(maxBody, wanted, reply, idOf); operation.Missing? || operation.Unserved?
  {
  }

  // ------------------------------------------------------------ the evidence of a pull replay

  const ASSET_SPEND: Bytes := "asset_spend"
  const BACKPACK_DELIVERY: Bytes := "backpack_delivery"

  datatype Evidence = Evidence(assetSpend: Section, backpackDelivery: Section, partial: bool)

  function EvidenceJobs(spend: Section, delivery: Section): seq<Delivery> {
    [Delivery(ASSET_SPEND, spend), Delivery(BACKPACK_DELIVERY, delivery)]
  }

  function Known(sections: map<Bytes, Section>, name: Bytes): Section {
    if name in sections then sections[name] else NOT_APPLICABLE
  }

  /**
   * The drain loop overwrites two sections that were not applicable so far; `partial` is computed from what they end
   * up as.
   */
  function EvidenceOf(sections: map<Bytes, Section>): Evidence {
    var (spend, delivery) := (Known(sections, ASSET_SPEND), Known(sections, BACKPACK_DELIVERY));
    Evidence(spend, delivery, spend.status == Unavailable || delivery.status == Unavailable)
  }

  /**
   * In either order of arrival each piece of evidence ends in its place, and computing `partial` late loses nothing.
   */
  lemma ReplayTellsEvidence(spend: Section, delivery: Section, run: seq<State>, steps: seq<Step>)
    requires IsRun({ASSET_SPEND, BACKPACK_DELIVERY}, EvidenceJobs(spend, delivery), run, steps) &&
        run[|steps|].main == Finished
    ensures var response := run[|steps|].response;
            EvidenceOf(response.sections) == Evidence(spend, delivery, response.partial)
  {
    hide IsRun, Sequential;
    var fields, jobs := {ASSET_SPEND, BACKPACK_DELIVERY}, EvidenceJobs(spend, delivery);
    assert |ASSET_SPEND| != |BACKPACK_DELIVERY|;
    EveryScheduleAgrees(fields, jobs, run, steps);
    DeliveredExactly(fields, jobs);
    assert jobs[0] in jobs && jobs[1] in jobs;
  }
}
