/** A whole workflow execution: prepare, walk, finalize, driven by the history that the
    Temporal service keeps, on workers that may crash at any point. */
module FlowHistory {
  import opened FlowGraph
  import opened FlowWorkflow

  /** `FlowRunPlanSummary`, as far as the workflow reads it. */
  datatype Summary = Summary(startNode: string, maxSteps: nat, loopLimit: nat)

  /** The activities a workflow asks for. */
  datatype Request = Prepare | Execute(node: string, index: nat) | Finalize(ending: Ending)

  /** Their final results, after Temporal's own retries. A failed `prepare_flow_run` is caught
      by the workflow; a failed `execute_node` or `finalize_flow_run` is not. */
  datatype Result =
    | Prepared(summary: Summary) | PrepareFailed
    | Executed(out: StepOutput) | ExecuteFailed
    | Finalized | FinalizeFailed

  datatype Execution =
    | Preparing
    | Walking(summary: Summary, walk: Walk)
    | Ending_(steps: nat, ending: Ending)
    | Returned(steps: nat, ending: Ending)
    | Broken

  function FromWalk(summary: Summary, walk: Walk): Execution {
    if walk.ending.Some? then Ending_(walk.stepIndex, walk.ending.value) else Walking(summary, walk)
  }

  /** The node a run starts at: the workflow input's own start node wins when present. */
  function StartOf(payloadStart: Option<string>, s: Summary): string {
    if payloadStart.Some? && payloadStart.value != "" then payloadStart.value else s.startNode
  }

  /** The code between one activity result and the next request. */
  function Next(payloadStart: Option<string>, x: Execution, r: Result): Execution {
    match (x, r)
    case (Preparing, Prepared(s)) => FromWalk(s, Begin(StartOf(payloadStart, s), s.maxSteps))
    case (Preparing, PrepareFailed) => Ending_(0, Ending(FAILED, Some("STRUCTURAL_ERROR"), None, None))
    case (Walking(s, w), Executed(out)) => FromWalk(s, Advance(w, s.maxSteps, s.loopLimit, out))
    case (Ending_(steps, e), Finalized) => Returned(steps, e)
    case _ => Broken
  }

  /** The request the code is waiting on. */
  function Pending(x: Execution): seq<Request> {
    match x
    case Preparing => [Prepare]
    case Walking(_, w) => [Execute(w.current, w.stepIndex)]
    case Ending_(_, e) => [Finalize(e)]
    case _ => []
  }

  /** Replaying a history from scratch. */
  function Rebuild(payloadStart: Option<string>, history: seq<Result>): Execution {
    if history == [] then Preparing
    else Next(payloadStart, Rebuild(payloadStart, history[..|history|-1]), history[|history|-1])
  }

  /** The requests a replay of the history issues, in order. */
  function Requests(payloadStart: Option<string>, history: seq<Result>): seq<Request> {
    (if history == [] then [] else Requests(payloadStart, history[..|history|-1]))
    + Pending(Rebuild(payloadStart, history))
  }

  // ----- Crashes -----

  /** What happens to an execution: an activity result is recorded, or the worker holding the
      workflow's memory is lost. */
  datatype Event = Recorded(result: Result) | Crash

  /** The service's history, the requests scheduled so far, and a worker's memory, if any. */
  datatype Deployment = Deployment(history: seq<Result>, scheduled: seq<Request>, memory: Option<Execution>)

  /** A worker picks up the result; one without memory first replays the recorded history. */
  function React(payloadStart: Option<string>, d: Deployment, e: Event): Deployment {
    match e
    case Crash => d.(memory := None)
    case Recorded(r) =>
      var before := if d.memory.Some? then d.memory.value else Rebuild(payloadStart, d.history);
      var after := Next(payloadStart, before, r);
      Deployment(d.history + [r], d.scheduled + Pending(after), Some(after))
  }

  function Live(payloadStart: Option<string>, events: seq<Event>): Deployment {
    if events == [] then Deployment([], [Prepare], Some(Preparing))
    else React(payloadStart, Live(payloadStart, events[..|events|-1]), events[|events|-1])
  }

  /** The results among the events. */
  function Results(events: seq<Event>): seq<Result> {
    if events == [] then []
    else
      Results(events[..|events|-1])
      + (if events[|events|-1].Recorded? then [events[|events|-1].result] else [])
  }

  /** Whatever crashes happen and wherever, the scheduled requests are those of one uninterrupted
      replay of the results, and whatever memory exists is the state that replay rebuilds. */
  lemma {:induction false} CrashesAreInvisible(payloadStart: Option<string>, events: seq<Event>)
    ensures var d := Live(payloadStart, events);
            && d.history == Results(events)
            && d.scheduled == Requests(payloadStart, Results(events))
            && (d.memory.Some? ==> d.memory.value == Rebuild(payloadStart, Results(events)))
    decreases |events|
  {
    if events != [] {
      CrashesAreInvisible(payloadStart, events[..|events|-1]);
      if events[|events|-1].Recorded? {
        var before, r := Results(events[..|events|-1]), events[|events|-1].result;
        assert (before + [r])[..|before|] == before;
      }
    } else {
      assert Requests(payloadStart, []) == [Prepare];
    }
  }

  /** Two executions with the same results end in the same requests and the same state. */
  lemma SameResultsSameRun(payloadStart: Option<string>, events: seq<Event>, events': seq<Event>)
    requires Results(events) == Results(events')
    ensures Live(payloadStart, events).scheduled == Live(payloadStart, events').scheduled
    ensures var m, m' := Live(payloadStart, events).memory, Live(payloadStart, events').memory;
            m.Some? && m'.Some? ==> m == m'
  {
    CrashesAreInvisible(payloadStart, events);
    CrashesAreInvisible(payloadStart, events');
  }

  /** A longer history only adds requests: replay never contradicts what was recorded. */
  lemma {:induction false} RequestsExtend(payloadStart: Option<string>, history: seq<Result>, n: nat)
    requires n <= |history|
    ensures Requests(payloadStart, history[..n]) <= Requests(payloadStart, history)
    decreases |history|
  {
    if n == |history| {
      assert history[..n] == history;
    } else {
      var shorter := history[..|history|-1];
      assert shorter[..n] == history[..n];
      RequestsExtend(payloadStart, shorter, n);
    }
  }

  // ----- Finalization -----

  /** The walk of the workflow machine is the one inside a whole execution. */
  lemma {:induction false} WalkingIsReplay(payloadStart: Option<string>, history: seq<Result>)
    returns (start: string, outs: seq<StepOutput>)
    requires Rebuild(payloadStart, history).Walking?
    ensures var x := Rebuild(payloadStart, history);
            && x.walk == Replay(start, x.summary.maxSteps, x.summary.loopLimit, outs)
            && x.walk.ending.None?
            && |history| == |outs| + 1 && history[0] == Prepared(x.summary)
            && (forall i :: 0 <= i < |outs| ==> history[i+1] == Executed(outs[i]))
            && start == StartOf(payloadStart, x.summary)
  {
    var last := history[|history|-1];
    var before := history[..|history|-1];
    if last.Prepared? {
      assert Rebuild(payloadStart, before).Preparing?;
      PreparingIsFirst(payloadStart, before);
      start := StartOf(payloadStart, last.summary);
      outs := [];
    } else {
      start, outs := WalkingIsReplay(payloadStart, before);
      assert (outs + [last.out])[..|outs|] == outs;
      outs := outs + [last.out];
    }
  }

  lemma PreparingIsFirst(payloadStart: Option<string>, history: seq<Result>)
    requires Rebuild(payloadStart, history).Preparing?
    ensures history == []
  {
  }

  /** Requests of a run that is still going, or has just decided its ending. */
  ghost predicate WalkRequests(requests: seq<Request>, executions: nat) {
    && |requests| == executions + 1
    && requests[0] == Prepare
    && forall i :: 1 <= i < |requests| ==> requests[i].Execute? && requests[i].index == i - 1
  }

  /** The requests so far are a walk's, followed by the one finalization once it is due. An execution
      that broke stopped at some point of this, and asks for nothing more. */
  ghost predicate Shaped(x: Execution, requests: seq<Request>) {
    match x
    case Preparing => requests == [Prepare]
    case Walking(_, w) => w.ending.None? && WalkRequests(requests, w.stepIndex + 1)
    case Ending_(steps, e) => FinalizedWalk(requests, steps, e)
    case Returned(steps, e) => FinalizedWalk(requests, steps, e)
    case Broken =>
      || requests == [Prepare]
      || (exists n :: WalkRequests(requests, n))
      || (exists n, e :: FinalizedWalk(requests, n, e))
  }

  ghost predicate FinalizedWalk(requests: seq<Request>, steps: nat, e: Ending) {
    |requests| == steps + 2 && requests[steps+1] == Finalize(e) && WalkRequests(requests[..steps+1], steps)
  }

  lemma ShapeKept(payloadStart: Option<string>, x: Execution, requests: seq<Request>, r: Result)
    requires Shaped(x, requests)
    ensures Shaped(Next(payloadStart, x, r), requests + Pending(Next(payloadStart, x, r)))
  {
    var after := Next(payloadStart, x, r);
    if after.Ending_? {
      assert (requests + [Finalize(after.ending)])[..|requests|] == requests;
    } else if after.Returned? || after.Broken? {
      assert requests + [] == requests;
    }
  }

  lemma {:induction false} RequestShape(payloadStart: Option<string>, history: seq<Result>)
    ensures Shaped(Rebuild(payloadStart, history), Requests(payloadStart, history))
    decreases |history|
  {
    if history != [] {
      var before := history[..|history|-1];
      RequestShape(payloadStart, before);
      ShapeKept(payloadStart, Rebuild(payloadStart, before), Requests(payloadStart, before), history[|history|-1]);
    } else {
      assert Requests(payloadStart, history) == [] + [Prepare] == [Prepare];
    }
  }

  /** An execution that returned a result asked for exactly one finalization, after everything
      else, and reports the outcome and the number of steps it finalized. */
  lemma ReturnedFinalizedOnce(payloadStart: Option<string>, history: seq<Result>)
    requires Rebuild(payloadStart, history).Returned?
    ensures var x, requests := Rebuild(payloadStart, history), Requests(payloadStart, history);
            && |requests| == x.steps + 2
            && requests[|requests|-1] == Finalize(x.ending)
            && (forall i :: 0 <= i < |requests| - 1 ==> !requests[i].Finalize?)
            && (forall i :: 0 < i < |requests| - 1 ==> requests[i].Execute? && requests[i].index == i - 1)
            && history[|history|-1] == Finalized
  {
    RequestShape(payloadStart, history);
    var x, requests := Rebuild(payloadStart, history), Requests(payloadStart, history);
    var body := requests[..x.steps+1];
    assert forall i :: 0 <= i < |body| ==> requests[i] == body[i];
  }

  /** An execution broken by an execute_node that failed for good never asks for a finalization,
      whatever is recorded later. */
  lemma {:induction false} FailedExecutionIsNeverFinalized(payloadStart: Option<string>, history: seq<Result>, n: nat)
    requires n < |history| && history[n] == ExecuteFailed && Rebuild(payloadStart, history[..n]).Walking?
    ensures Rebuild(payloadStart, history).Broken?
    ensures Requests(payloadStart, history) == Requests(payloadStart, history[..n])
    ensures forall i :: 0 <= i < |Requests(payloadStart, history)| ==> !Requests(payloadStart, history)[i].Finalize?
    decreases |history|
  {
    hide Begin, Advance;
    var before := history[..|history|-1];
    if n == |history| - 1 {
      RequestShape(payloadStart, before);
    } else {
      assert before[..n] == history[..n];
      FailedExecutionIsNeverFinalized(payloadStart, before, n);
    }
    assert Requests(payloadStart, before) + [] == Requests(payloadStart, before);
  }

  // ----- The history of a walk -----

  function Executions(outs: seq<StepOutput>): (r: seq<Result>)
    ensures |r| == |outs| && forall i :: 0 <= i < |outs| ==> r[i] == Executed(outs[i])
  {
    seq(|outs|, i requires 0 <= i < |outs| => Executed(outs[i]))
  }

  /** Prepared and executed so far, a history rebuilds to the walk its results replay to. */
  lemma {:induction false} ExecutionsRebuild(payloadStart: Option<string>, s: Summary, outs: seq<StepOutput>)
    requires outs != [] ==> Replay(StartOf(payloadStart, s), s.maxSteps, s.loopLimit, outs[..|outs|-1]).ending.None?
    ensures Rebuild(payloadStart, [Prepared(s)] + Executions(outs))
         == FromWalk(s, Replay(StartOf(payloadStart, s), s.maxSteps, s.loopLimit, outs))
    decreases |outs|
  {
    var history := [Prepared(s)] + Executions(outs);
    if outs == [] {
      assert history[..|history|-1] == [];
      assert Rebuild(payloadStart, []) == Preparing;
    } else {
      var before := outs[..|outs|-1];
      assert history[..|history|-1] == [Prepared(s)] + Executions(before);
      if before != [] {
        var earlier := before[..|before|-1];
        assert Replay(StartOf(payloadStart, s), s.maxSteps, s.loopLimit, earlier).ending.None?;
      }
      ExecutionsRebuild(payloadStart, s, before);
    }
  }

  // ----- What is asked for -----

  /** Where an execution is asked for: first where the payload says, or else the plan; then where the result
      before it leads. */
  ghost predicate AskedAt(payloadStart: Option<string>, history: seq<Result>, node: string, j: nat) {
    && 0 < j <= |history|
    && (j == 1 ==>
          && history[0].Prepared?
          && node == if payloadStart.None? || payloadStart.value == "" then history[0].summary.startNode else payloadStart.value)
    && (j > 1 ==> history[j-1].Executed? && history[j-1].out.next == Some(node))
  }

  ghost predicate Directed(payloadStart: Option<string>, history: seq<Result>, requests: seq<Request>) {
    forall j: nat :: 0 < j < |requests| && requests[j].Execute? ==> AskedAt(payloadStart, history, requests[j].node, j)
  }

  lemma OneMoreResult(payloadStart: Option<string>, x: Execution, history: seq<Result>, requests: seq<Request>, r: Result)
    requires Directed(payloadStart, history, requests)
    requires x.Preparing? ==> history == [] && |requests| == 1
    requires x.Walking? ==> x.walk.ending.None? && |requests| == |history| + 1 && history != []
    ensures Directed(payloadStart, history + [r], requests + Pending(Next(payloadStart, x, r)))
  {
    var more, after := history + [r], Next(payloadStart, x, r);
    var all := requests + Pending(after);
    forall j: nat | 0 < j < |all| && all[j].Execute? ensures AskedAt(payloadStart, more, all[j].node, j) {
      if j < |requests| {
        assert AskedAt(payloadStart, history, requests[j].node, j);
      } else {
        assert all[j] == Execute(after.walk.current, after.walk.stepIndex) && more[j-1] == r;
      }
    }
  }

  /** Every execution is asked for where the payload, the plan or the result before it says. */
  lemma {:induction false} RequestsFollowResults(payloadStart: Option<string>, history: seq<Result>)
    ensures Directed(payloadStart, history, Requests(payloadStart, history))
    decreases |history|
  {
    hide Directed, Next, Pending, Shaped;
    if history == [] {
      FirstIsPrepare(payloadStart);
    } else {
      var before, r := history[..|history|-1], history[|history|-1];
      RequestsFollowResults(payloadStart, before);
      RequestCount(payloadStart, before);
      assert history == before + [r];
      OneMoreResult(payloadStart, Rebuild(payloadStart, before), before, Requests(payloadStart, before), r);
    }
  }

  lemma FirstIsPrepare(payloadStart: Option<string>)
    ensures Requests(payloadStart, []) == [Prepare] && Directed(payloadStart, [], Requests(payloadStart, []))
  {
    assert Requests(payloadStart, []) == [] + [Prepare];
  }

  lemma RequestCount(payloadStart: Option<string>, history: seq<Result>)
    ensures Rebuild(payloadStart, history).Preparing? ==> history == [] && |Requests(payloadStart, history)| == 1
    ensures var x := Rebuild(payloadStart, history);
            x.Walking? ==> x.walk.ending.None? && |Requests(payloadStart, history)| == |history| + 1 && history != []
  {
    RequestShape(payloadStart, history);
    hide Requests;
    var x := Rebuild(payloadStart, history);
    if x.Preparing? {
      PreparingIsFirst(payloadStart, history);
    } else if x.Walking? {
      var start, outs := WalkingIsReplay(payloadStart, history);
      RunningCounters(start, x.summary.maxSteps, x.summary.loopLimit, outs, "");
    }
  }

  /** A run whose prepare failed for good is finalized as failed without executing anything. */
  lemma {:induction false} FailedPrepareIsFinalized(payloadStart: Option<string>, history: seq<Result>)
    requires history != [] && history[0] == PrepareFailed
    ensures Requests(payloadStart, history) == [Prepare, Finalize(Ending(FAILED, Some("STRUCTURAL_ERROR"), None, None))]
    decreases |history|
  {
    hide Begin, Advance;
    var before := history[..|history|-1];
    if before == [] {
      FirstIsPrepare(payloadStart);
      assert Rebuild(payloadStart, []) == Preparing;
      assert [Prepare] + Pending(Rebuild(payloadStart, history)) == Requests(payloadStart, history);
    } else {
      FailedPrepareIsFinalized(payloadStart, before);
      AfterFailedPrepare(payloadStart, history);
      hide Rebuild;
      assert Requests(payloadStart, history) == Requests(payloadStart, before) + [];
    }
  }

  lemma {:induction false} AfterFailedPrepare(payloadStart: Option<string>, history: seq<Result>)
    requires history != [] && history[0] == PrepareFailed
    ensures var x := Rebuild(payloadStart, history); x.Ending_? || x.Returned? || x.Broken?
    ensures |history| > 1 ==> !Rebuild(payloadStart, history).Ending_?
    decreases |history|
  {
    hide Begin, Advance;
    var before := history[..|history|-1];
    assert Rebuild(payloadStart, []) == Preparing;
    if before != [] { AfterFailedPrepare(payloadStart, before); }
  }
}
