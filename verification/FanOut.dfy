/**
 * The player-support fan-out: one worker per query sends its section into a buffered channel, the handler waits for all
 * workers, closes the channel and drains it. Every interleaving of workers and handler is a run of the steps below.
 */
module FanOut {
  import opened GoStrings

  // ------------------------------------------------------------ sections and the response

  datatype Status = Ok | NotFound | NotApplicable | Unavailable

  datatype Section = Section(status: Status, data: Bytes, errorCode: Bytes)

  /** What a worker sends: the section it loaded, under the name of its query. */
  datatype Delivery = Delivery(name: Bytes, section: Section)

  /** The response fields are keyed by section name. */
  datatype Response = Response(partial: bool, sections: map<Bytes, Section>)

  const EMPTY := Response(false, map[])

  /** One turn of the drain loop; a name the switch does not know is dropped. */
  function Deliver(fields: set<Bytes>, response: Response, d: Delivery): Response {
    Response(response.partial || d.section.status == Unavailable,
             if d.name in fields then response.sections[d.name := d.section] else response.sections)
  }

  function DeliverAll(fields: set<Bytes>, response: Response, ds: seq<Delivery>): Response {
    if ds == [] then response
    else Deliver(fields, DeliverAll(fields, response, ds[..|ds| - 1]), ds[|ds| - 1])
  }

  /** The response the handler would build by running the queries one by one. */
  function Sequential(fields: set<Bytes>, jobs: seq<Delivery>): Response {
    DeliverAll(fields, EMPTY, jobs)
  }

  predicate DistinctNames(ds: seq<Delivery>) {
    forall i, j :: 0 <= i < j < |ds| ==> ds[i].name != ds[j].name
  }

  lemma {:induction false} DeliveredPartial(fields: set<Bytes>, ds: seq<Delivery>)
    ensures Sequential(fields, ds).partial <==> exists d <- ds :: d.section.status == Unavailable
  {
    if ds != [] {
      var front, last := ds[..|ds| - 1], ds[|ds| - 1];
      DeliveredPartial(fields, front);
      assert ds == front + [last];
    }
  }

  lemma {:induction false} DeliveredSections(fields: set<Bytes>, ds: seq<Delivery>)
    requires DistinctNames(ds)
    ensures var sections := Sequential(fields, ds).sections;
            && (forall n :: n in sections <==> n in fields && exists d <- ds :: d.name == n)
            && (forall d <- ds :: d.name in fields ==> d.name in sections && sections[d.name] == d.section)
  {
    if ds != [] {
      var front, last := ds[..|ds| - 1], ds[|ds| - 1];
      DeliveredSections(fields, front);
      assert ds == front + [last];
      assert forall d :: d in ds <==> d in front || d == last;
      assert forall d <- front :: d.name != last.name;
    }
  }

  /**
   * With distinct names every section ends up under its own name, and the response is partial exactly when one is
   * unavailable.
   */
  lemma DeliveredExactly(fields: set<Bytes>, ds: seq<Delivery>)
    requires DistinctNames(ds)
    ensures var r := Sequential(fields, ds);
            && (r.partial <==> exists d <- ds :: d.section.status == Unavailable)
            && (forall n :: n in r.sections <==> n in fields && exists d <- ds :: d.name == n)
            && (forall d <- ds :: d.name in fields ==> d.name in r.sections && r.sections[d.name] == d.section)
  {
    hide Sequential;
    DeliveredPartial(fields, ds);
    DeliveredSections(fields, ds);
  }

  /** The order of delivery cannot be observed. */
  lemma OrderIrrelevant(fields: set<Bytes>, a: seq<Delivery>, b: seq<Delivery>)
    requires DistinctNames(a) && DistinctNames(b)
    requires forall d :: d in a <==> d in b
    ensures Sequential(fields, a) == Sequential(fields, b)
  {
    DeliveredExactly(fields, a);
    DeliveredExactly(fields, b);
    var (r, s) := (Sequential(fields, a), Sequential(fields, b));
    forall n | n in r.sections ensures n in s.sections && r.sections[n] == s.sections[n] {
      var d :| d in a && d.name == n;
    }
    forall n | n in s.sections ensures n in r.sections {
      var d :| d in b && d.name == n;
    }
    assert r.sections == s.sections;
  }

  const ACCOUNT: Bytes := "account"
  const LEDGER: Bytes := "ledger"
  const PULL_OPERATIONS: Bytes := "pull_operations"
  const INVENTORY: Bytes := "inventory"
  const PULL_EVENTS: Bytes := "pull_events"
  const PULL_RECORDS: Bytes := "pull_records"
  const PLAYER_SUPPORT: seq<Bytes> := [ACCOUNT, LEDGER, PULL_OPERATIONS, INVENTORY, PULL_EVENTS, PULL_RECORDS]

  function PlayerSupportJobs(sections: seq<Section>): seq<Delivery>
    requires |sections| == 6
  {
    seq(6, i requires 0 <= i < 6 => Delivery(PLAYER_SUPPORT[i], sections[i]))
  }

  /**
   * The six queries of the player-support page fit the fan-out: their names differ, and each is a field of the
   * response.
   */
  lemma PlayerSupportNames(sections: seq<Section>)
    requires |sections| == 6
    ensures DistinctNames(PlayerSupportJobs(sections))
    ensures var r := Sequential((set n | n in PLAYER_SUPPORT), PlayerSupportJobs(sections));
            && (forall i :: 0 <= i < 6 ==>
                  PLAYER_SUPPORT[i] in r.sections && r.sections[PLAYER_SUPPORT[i]] == sections[i])
            && (r.partial <==> exists i :: 0 <= i < 6 && sections[i].status == Unavailable)
  {
    hide Sequential;
    var jobs, fields := PlayerSupportJobs(sections), set n | n in PLAYER_SUPPORT;
    assert forall i, j :: 0 <= i < j < 6 ==> |PLAYER_SUPPORT[i]| != |PLAYER_SUPPORT[j]|;
    DeliveredExactly(fields, jobs);
    forall i | 0 <= i < 6
      ensures jobs[i] in jobs && jobs[i].name == PLAYER_SUPPORT[i] && jobs[i].section == sections[i]
      ensures PLAYER_SUPPORT[i] in fields
    {
    }
    hide PLAYER_SUPPORT;
    var r := Sequential(fields, jobs);
    forall i | 0 <= i < 6 ensures PLAYER_SUPPORT[i] in r.sections && r.sections[PLAYER_SUPPORT[i]] == sections[i] {
      assert jobs[i].name in fields;
    }
  }

  // ------------------------------------------------------------ states and steps

  datatype Worker = NotStarted | Running | Sent | Done

  datatype Main = Launching(next: nat) | Closing | Draining | Finished

  /** `history` lists the workers in the order they sent; `received` counts what the handler has taken out again. */
  datatype State = State(
    main: Main,
    workers: seq<Worker>,
    counter: int,
    channel: seq<Delivery>,
    closed: bool,
    response: Response,
    history: seq<nat>,
    received: nat)

  datatype Step = Spawn | Send(i: nat) | Finish(i: nat) | Join | Close | Receive | Stop

  function Start(n: nat): State {
    State(Launching(0), seq(n, _ => NotStarted), n, [], false, EMPTY, [], 0)
  }

  /** The channel has room for one message per query. */
  predicate HasRoom(s: State) {
    |s.channel| < |s.workers|
  }

  predicate Enabled(s: State, step: Step) {
    match step
    case Spawn => s.main.Launching? && s.main.next < |s.workers|
    case Send(i) => i < |s.workers| && s.workers[i] == Running && HasRoom(s)
    case Finish(i) => i < |s.workers| && s.workers[i] == Sent
    case Join => s.main == Launching(|s.workers|) && s.counter == 0
    case Close => s.main == Closing
    case Receive => s.main == Draining && s.channel != []
    case Stop => s.main == Draining && s.channel == [] && s.closed
  }

  function Apply(fields: set<Bytes>, jobs: seq<Delivery>, s: State, step: Step): State
    requires |s.workers| == |jobs| && Enabled(s, step)
  {
    match step
    case Spawn =>
      if s.main.next < |s.workers| then
        s.(main := Launching(s.main.next + 1), workers := s.workers[s.main.next := Running])
      else s
    case Send(i) => s.(workers := s.workers[i := Sent], channel := s.channel + [jobs[i]], history := s.history + [i])
    case Finish(i) => s.(workers := s.workers[i := Done], counter := s.counter - 1)
    case Join => s.(main := Closing)
    case Close => s.(main := Draining, closed := true)
    case Receive =>
      s.(channel := s.channel[1..], response := Deliver(fields, s.response, s.channel[0]), received := s.received + 1)
    case Stop => s.(main := Finished)
  }

  // ------------------------------------------------------------ counting workers

  function Sum(workers: seq<Worker>, weight: Worker -> nat): nat {
    if workers == [] then 0 else weight(workers[0]) + Sum(workers[1..], weight)
  }

  lemma {:induction false} SumUpdate(workers: seq<Worker>, weight: Worker -> nat, i: nat, w: Worker)
    requires i < |workers|
    ensures Sum(workers[i := w], weight) + weight(workers[i]) == Sum(workers, weight) + weight(w)
  {
    if i == 0 {
      assert workers[0 := w][1..] == workers[1..];
    } else {
      assert workers[i := w][1..] == workers[1..][i - 1 := w];
      SumUpdate(workers[1..], weight, i - 1, w);
    }
  }

  lemma {:induction false} SumAtLeast(workers: seq<Worker>, weight: Worker -> nat, i: nat)
    requires i < |workers|
    ensures Sum(workers, weight) >= weight(workers[i])
  {
    if i > 0 {
      SumAtLeast(workers[1..], weight, i - 1);
    }
  }

  lemma {:induction false} SumBound(workers: seq<Worker>, weight: Worker -> nat)
    requires forall w :: weight(w) <= 1
    ensures Sum(workers, weight) <= |workers|
    ensures (exists i :: 0 <= i < |workers| && weight(workers[i]) == 0) ==> Sum(workers, weight) < |workers|
    ensures (forall i :: 0 <= i < |workers| ==> weight(workers[i]) == 0) ==> Sum(workers, weight) == 0
  {
    if workers != [] {
      SumBound(workers[1..], weight);
      assert forall i :: 1 <= i < |workers| ==> workers[i] == workers[1..][i - 1];
    }
  }

  const PENDING: Worker -> nat := w => if w == Done then 0 else 1
  const DELIVERED: Worker -> nat := w => if w == Sent || w == Done then 1 else 0
  const EFFORT: Worker -> nat := (w: Worker) => if w == NotStarted then 4 else if w == Running then 3
      else if w == Sent then 1 else 0

  // ------------------------------------------------------------ the invariant

  function Results(jobs: seq<Delivery>, history: seq<nat>): seq<Delivery>
    requires forall k :: 0 <= k < |history| ==> history[k] < |jobs|
  {
    seq(|history|, k requires 0 <= k < |history| => jobs[history[k]])
  }

  ghost predicate Inv(fields: set<Bytes>, jobs: seq<Delivery>, s: State) {
    && |s.workers| == |jobs|
    && s.counter == Sum(s.workers, PENDING)
    && |s.history| == Sum(s.workers, DELIVERED)
    && InvHistory(jobs, s)
    && InvMain(s)
    && s.channel == Results(jobs, s.history)[s.received..]
    && s.response == Sequential(fields, Results(jobs, s.history)[..s.received])
  }

  /** Each worker that has sent is in the history once, and no other. */
  ghost predicate InvHistory(jobs: seq<Delivery>, s: State)
    requires |s.workers| == |jobs|
  {
    && s.received <= |s.history|
    && (forall k :: 0 <= k < |s.history| ==> s.history[k] < |jobs|)
    && (forall i :: 0 <= i < |jobs| ==> (i in s.history <==> s.workers[i] == Sent || s.workers[i] == Done))
    && (forall k, l :: 0 <= k < l < |s.history| ==> s.history[k] != s.history[l])
  }

  /** The handler launches in order, and once past the join every worker is done. */
  ghost predicate InvMain(s: State) {
    && (s.closed <==> s.main == Draining || s.main == Finished)
    && (s.main.Launching? ==> s.main.next <= |s.workers| && s.received == 0)
    && (s.main.Launching? ==> forall i :: 0 <= i < |s.workers| ==> (s.workers[i] == NotStarted <==> s.main.next <= i))
    && (!s.main.Launching? ==> forall i :: 0 <= i < |s.workers| ==> s.workers[i] == Done)
    && (s.main == Finished ==> s.channel == [])
  }

  lemma InvAtStart(fields: set<Bytes>, jobs: seq<Delivery>)
    ensures Inv(fields, jobs, Start(|jobs|))
  {
    var s := Start(|jobs|);
    StartSums(|jobs|);
    assert Results(jobs, []) == [];
  }

  lemma {:induction false} StartSums(n: nat)
    ensures Sum(seq(n, _ => NotStarted), PENDING) == n
    ensures Sum(seq(n, _ => NotStarted), DELIVERED) == 0
    ensures Sum(seq(n, _ => NotStarted), EFFORT) == 4 * n
  {
    if n > 0 {
      StartSums(n - 1);
      assert seq(n, _ => NotStarted)[1..] == seq(n - 1, _ => NotStarted);
    }
  }

  lemma {:induction false} NoneLeft(workers: seq<Worker>)
    requires Sum(workers, PENDING) == 0
    ensures forall i :: 0 <= i < |workers| ==> workers[i] == Done
  {
    forall i | 0 <= i < |workers| ensures workers[i] == Done {
      SumAtLeast(workers, PENDING, i);
    }
  }

  lemma InvSend(fields: set<Bytes>, jobs: seq<Delivery>, s: State, i: nat)
    requires Inv(fields, jobs, s) && Enabled(s, Send(i))
    ensures Inv(fields, jobs, Apply(fields, jobs, s, Send(i)))
  {
    hide Sum, Sequential;
    var t := Apply(fields, jobs, s, Send(i));
    SumUpdate(s.workers, PENDING, i, Sent);
    SumUpdate(s.workers, DELIVERED, i, Sent);
    assert Results(jobs, t.history) == Results(jobs, s.history) + [jobs[i]];
    assert Results(jobs, t.history)[..s.received] == Results(jobs, s.history)[..s.received];
    assert Results(jobs, t.history)[s.received..] == Results(jobs, s.history)[s.received..] + [jobs[i]];
  }

  lemma InvReceive(fields: set<Bytes>, jobs: seq<Delivery>, s: State)
    requires Inv(fields, jobs, s) && Enabled(s, Receive)
    ensures Inv(fields, jobs, Apply(fields, jobs, s, Receive))
  {
    hide Sum;
    var all := Results(jobs, s.history);
    assert all[..s.received + 1][..s.received] == all[..s.received];
    assert all[..s.received + 1][s.received] == s.channel[0];
  }

  lemma InvWorker(fields: set<Bytes>, jobs: seq<Delivery>, s: State, step: Step)
    requires Inv(fields, jobs, s) && Enabled(s, step) && (step.Spawn? || step.Finish?)
    ensures Inv(fields, jobs, Apply(fields, jobs, s, step))
  {
    hide Sum, Sequential;
    var i, w := if step.Spawn? then s.main.next else step.i, if step.Spawn? then Running else Done;
    SumUpdate(s.workers, PENDING, i, w);
    SumUpdate(s.workers, DELIVERED, i, w);
  }

  /** Every step of every worker and of the handler keeps the invariant. */
  lemma InvStep(fields: set<Bytes>, jobs: seq<Delivery>, s: State, step: Step)
    requires Inv(fields, jobs, s) && Enabled(s, step)
    ensures Inv(fields, jobs, Apply(fields, jobs, s, step))
  {
    hide Sum, Sequential;
    match step
    case Spawn => InvWorker(fields, jobs, s, step);
    case Finish(i) => InvWorker(fields, jobs, s, step);
    case Send(i) => InvSend(fields, jobs, s, i);
    case Receive => InvReceive(fields, jobs, s);
    case Join => NoneLeft(s.workers);
    case Close =>
    case Stop =>
  }

  // ------------------------------------------------------------ what every reachable state is safe from

  /** A worker that still has to send finds the channel open and with room, and the wait group never goes below zero. */
  lemma SendsAreSafe(fields: set<Bytes>, jobs: seq<Delivery>, s: State, i: nat)
    requires Inv(fields, jobs, s) && i < |s.workers|
    ensures s.workers[i] == Running ==> !s.closed && HasRoom(s)
    ensures s.workers[i] != Done ==> s.counter > 0
  {
    hide Sum;
    SumBound(s.workers, DELIVERED);
    SumAtLeast(s.workers, PENDING, i);
    assert s.workers[i] == Running ==> DELIVERED(s.workers[i]) == 0;
    assert |s.channel| <= |s.history|;
  }

  /** No reachable state but a finished one is stuck. */
  lemma Progress(fields: set<Bytes>, jobs: seq<Delivery>, s: State) returns (step: Step)
    requires Inv(fields, jobs, s) && s.main != Finished
    ensures Enabled(s, step)
  {
    hide Sum, Sequential;
    if s.main.Launching? && s.main.next == |s.workers| {
      if i :| 0 <= i < |s.workers| && s.workers[i] == Running {
        SendsAreSafe(fields, jobs, s, i);
        step := Send(i);
      } else if i :| 0 <= i < |s.workers| && s.workers[i] == Sent {
        step := Finish(i);
      } else {
        SumBound(s.workers, PENDING);
        step := Join;
      }
    } else {
      step := if s.main.Launching? then Spawn else if s.main == Closing then Close else if s.channel != [] then Receive
          else Stop;
    }
  }

  function Rank(main: Main): nat {
    match main case Launching(_) => 3 case Closing => 2 case Draining => 1 case Finished => 0
  }

  /** What is left to do. */
  function Measure(s: State): nat {
    Sum(s.workers, EFFORT) + |s.channel| + Rank(s.main)
  }

  lemma EveryStepCounts(fields: set<Bytes>, jobs: seq<Delivery>, s: State, step: Step)
    requires |s.workers| == |jobs| && Enabled(s, step)
    requires step.Spawn? ==> s.workers[s.main.next] == NotStarted
    ensures Measure(Apply(fields, jobs, s, step)) < Measure(s)
  {
    hide Sum;
    match step
    case Spawn => SumUpdate(s.workers, EFFORT, s.main.next, Running);
    case Send(i) => SumUpdate(s.workers, EFFORT, i, Sent);
    case Finish(i) => SumUpdate(s.workers, EFFORT, i, Done);
    case _ =>
  }

  // ------------------------------------------------------------ whole runs

  /** A run from the start, with the step taken at each state but the last. */
  ghost predicate IsRun(fields: set<Bytes>, jobs: seq<Delivery>, run: seq<State>, steps: seq<Step>) {
    && |run| == |steps| + 1 && run[0] == Start(|jobs|)
    && forall k :: 0 <= k < |steps| ==>
                     |run[k].workers| == |jobs| && Enabled(run[k], steps[k]) &&
                         run[k + 1] == Apply(fields, jobs, run[k], steps[k])
  }

  lemma {:induction false} RunKeepsInv(fields: set<Bytes>, jobs: seq<Delivery>, run: seq<State>, steps: seq<Step>,
      k: nat)
    requires IsRun(fields, jobs, run, steps) && k < |run|
    ensures Inv(fields, jobs, run[k])
    ensures Measure(run[k]) + k <= 4 * |jobs| + 3
  {
    hide Inv, Enabled, Apply, Measure, Start;
    if k == 0 {
      InvAtStart(fields, jobs);
      StartMeasure(|jobs|);
    } else {
      RunKeepsInv(fields, jobs, run, steps, k - 1);
      InvStep(fields, jobs, run[k - 1], steps[k - 1]);
      SpawnsInOrder(fields, jobs, run[k - 1], steps[k - 1]);
      EveryStepCounts(fields, jobs, run[k - 1], steps[k - 1]);
    }
  }

  lemma StartMeasure(n: nat)
    ensures Measure(Start(n)) == 4 * n + 3
  {
    StartSums(n);
  }

  lemma SpawnsInOrder(fields: set<Bytes>, jobs: seq<Delivery>, s: State, step: Step)
    requires Inv(fields, jobs, s) && Enabled(s, step)
    ensures step.Spawn? ==> s.main.Launching? && s.main.next < |s.workers| && s.workers[s.main.next] == NotStarted
  {
    hide Sum, Sequential;
  }

  /** A finished state holds the response of running the queries one by one, whatever the schedule was. */
  lemma FinishedIsSequential(fields: set<Bytes>, jobs: seq<Delivery>, s: State)
    requires DistinctNames(jobs) && Inv(fields, jobs, s) && s.main == Finished
    ensures s.response == Sequential(fields, jobs)
  {
    hide Sum, Sequential;
    var all := Results(jobs, s.history);
    assert all[..s.received] == all;
    forall d ensures d in all <==> d in jobs {
      if d in jobs {
        var i :| 0 <= i < |jobs| && jobs[i] == d;
        assert i in s.history;
        var k :| 0 <= k < |s.history| && s.history[k] == i;
        assert all[k] == d;
      }
      if d in all {
        var k :| 0 <= k < |all| && all[k] == d;
        assert d == jobs[s.history[k]];
      }
    }
    forall k, l | 0 <= k < l < |all| ensures all[k].name != all[l].name {
      assert s.history[k] in s.history && s.history[l] in s.history;
    }
    OrderIrrelevant(fields, all, jobs);
  }

  /**
   * For any number of distinctly named queries and any schedule: a run is never longer than its bound, a run that
   * cannot go on has finished, and a finished run holds exactly the sequential response.
   */
  lemma EveryScheduleAgrees(fields: set<Bytes>, jobs: seq<Delivery>, run: seq<State>, steps: seq<Step>)
    requires DistinctNames(jobs) && IsRun(fields, jobs, run, steps)
    ensures |steps| <= 4 * |jobs| + 3
    ensures (forall step :: !Enabled(run[|steps|], step)) ==> run[|steps|].main == Finished
    ensures run[|steps|].main == Finished ==> run[|steps|].response == Sequential(fields, jobs)
  {
    hide Inv, Enabled;
    var last := run[|steps|];
    RunKeepsInv(fields, jobs, run, steps, |steps|);
    if last.main == Finished {
      FinishedIsSequential(fields, jobs, last);
    } else {
      var step := Progress(fields, jobs, last);
    }
  }

  // ------------------------------------------------------------ the handler and its workers, run together

  /** A buffered channel. Its contract leaves no way to send on a closed channel or to block on a full one. */
  class Channel {
    const capacity: nat
    var buffer: seq<Delivery>
    var closed: bool

    constructor (capacity: nat)
      ensures this.capacity == capacity && buffer == [] && !closed
    {
      this.capacity := capacity;
      buffer, closed := [], false;
    }

    method Send(d: Delivery)
      requires !closed && |buffer| < capacity
      modifies this`buffer
      ensures buffer == old(buffer) + [d]
    {
      buffer := buffer + [d];
    }

    method Close()
      requires !closed
      modifies this`closed
      ensures closed
    {
      closed := true;
    }

    method Receive() returns (d: Delivery)
      requires buffer != []
      modifies this`buffer
      ensures d == old(buffer)[0] && buffer == old(buffer)[1..]
    {
      d, buffer := buffer[0], buffer[1..];
    }
  }

  class WaitGroup {
    var counter: nat

    constructor (n: nat)
      ensures counter == n
    {
      counter := n;
    }

    method Done()
      requires counter > 0
      modifies this
      ensures counter == old(counter) - 1
    {
      counter := counter - 1;
    }
  }

  lemma StepIsGood(fields: set<Bytes>, jobs: seq<Delivery>, s: State, step: Step)
    requires Inv(fields, jobs, s) && Enabled(s, step)
    ensures |s.workers| == |jobs| && Inv(fields, jobs, Apply(fields, jobs, s, step))
    ensures Measure(Apply(fields, jobs, s, step)) < Measure(s)
  {
    hide Sum, Sequential, Measure;
    InvStep(fields, jobs, s, step);
    SpawnsInOrder(fields, jobs, s, step);
    EveryStepCounts(fields, jobs, s, step);
  }

  lemma ClosedOnlyWhenDraining(fields: set<Bytes>, jobs: seq<Delivery>, s: State)
    requires Inv(fields, jobs, s)
    ensures s.closed <==> s.main == Draining || s.main == Finished
  {
  }

  /**
   * The fan-out with an arbitrary scheduler: each turn some goroutine that can go on takes its next step. That one
   * always can is the coverage of the alternatives; that the loop ends is its decreasing measure.
   */
  method LoadPlayerSupport(fields: set<Bytes>, jobs: seq<Delivery>) returns (response: Response)
    requires DistinctNames(jobs)
    ensures response == Sequential(fields, jobs)
  {
    hide Inv, Measure, Sequential, Deliver;
    var results := new Channel(|jobs|);
    var group := new WaitGroup(|jobs|);
    var main, workers := Launching(0), seq(|jobs|, _ => NotStarted);
    response := EMPTY;
    ghost var s := Start(|jobs|);
    InvAtStart(fields, jobs);
    while main != Finished
      invariant Inv(fields, jobs, s) && results.capacity == |workers| == |jobs|
      invariant s == State(main, workers, group.counter, results.buffer, results.closed, response, s.history,
          s.received)
      decreases Measure(s)
    {
      ghost var possible := Progress(fields, jobs, s);
      ClosedOnlyWhenDraining(fields, jobs, s);
      ghost var step: Step;
      if {
        case main.Launching? && main.next < |workers| =>
          step := Spawn;
          workers, main := workers[main.next := Running], Launching(main.next + 1);
        case i: nat :| i < |workers| && workers[i] == Running =>
          step := Send(i);
          SendsAreSafe(fields, jobs, s, i);
          results.Send(jobs[i]);
          workers := workers[i := Sent];
        case i: nat :| i < |workers| && workers[i] == Sent =>
          step := Finish(i);
          SendsAreSafe(fields, jobs, s, i);
          group.Done();
          workers := workers[i := Done];
        case main == Launching(|workers|) && group.counter == 0 =>
          step := Join;
          main := Closing;
        case main == Closing =>
          step := Close;
          results.Close();
          main := Draining;
        case main == Draining && results.buffer != [] =>
          step := Receive;
          var d := results.Receive();
          response := Deliver(fields, response, d);
        case main == Draining && results.buffer == [] && results.closed =>
          step := Stop;
          main := Finished;
      }
      StepIsGood(fields, jobs, s, step);
      s := Apply(fields, jobs, s, step);
    }
    FinishedIsSequential(fields, jobs, s);
  }
}
