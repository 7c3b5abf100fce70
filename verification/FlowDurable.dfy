/** The durable engine on its own: how many steps it can make, and how the last step, the returned
    outcome and the stored row correspond. */
module FlowDurable {
  import opened FlowGraph
  import opened GraphCompiler
  import opened FlowActivities
  import opened FlowRuntime
  import opened FlowBounds
  import W = FlowWorkflow
  import H = FlowHistory

  /** The workflow's reaction to one executed step. */
  function React(limit: nat, maxSteps: nat, walk: W.Walk, s: Step): W.Walk {
    W.Advance(walk, maxSteps, limit, OutputOf(s))
  }

  /** LOOP edges followed by the reaction: none when the step ends the run. */
  function Hops(limit: nat, walk: W.Walk, s: Step): nat {
    if s.kind.StepAdvance? && W.OnStep(walk, limit, OutputOf(s)).ending.None? then LoopHops(s.kind.via) else 0
  }

  /** LOOP edges followed by a whole durable run. */
  function DurableLoops(run: Stepper, limit: nat, maxSteps: nat, walk: W.Walk, db: Db): nat
    requires db.graph.Some? && (walk.ending.None? ==> walk.stepIndex < maxSteps)
    decreases if walk.ending.Some? then 0 else maxSteps - walk.stepIndex
  {
    if walk.ending.Some? then 0
    else
      var s := ExecuteNode(run, walk.stepIndex, walk.current, db);
      Hops(limit, walk, s) + DurableLoops(run, limit, maxSteps, React(limit, maxSteps, walk, s), Record(db, s))
  }

  // ----- The bound -----

  ghost predicate CutShort(walk: W.Walk) {
    walk.ending.Some? && walk.ending.value.reason == Some(ReasonValue(MAX_STEPS_EXCEEDED))
  }

  /** The steps made, and the height left while the run goes on, are within the allowance. */
  ghost predicate Within(plan: Plan, done: seq<string>, counted: set<string>, slack: nat, maxSteps: nat, walk: W.Walk, loops: nat) {
    && walk.stepIndex <= Allowance(|counted|, loops) + slack
    && (walk.ending.None? ==> Affords(plan, done, counted, slack, walk.stepIndex, walk.current, loops))
    && (CutShort(walk) ==> maxSteps <= Allowance(|counted|, loops))
  }

  /** The reason a failed step gives is neither empty nor that of the step limit. */
  lemma OtherReason(reason: Reason)
    requires reason != MAX_STEPS_EXCEEDED
    ensures ReasonValue(reason) != ReasonValue(MAX_STEPS_EXCEEDED) && ReasonValue(reason) != ""
  {
    if ReasonValue(reason) == ReasonValue(MAX_STEPS_EXCEEDED) { ReasonValuesDiffer(reason, MAX_STEPS_EXCEEDED); }
  }

  lemma StopsElsewhere(limit: nat, maxSteps: nat, walk: W.Walk, s: Step)
    requires walk.ending.None? && s.kind != StepFailed(MAX_STEPS_EXCEEDED)
    requires W.OnStep(walk, limit, OutputOf(s)).ending.Some?
    ensures var r := React(limit, maxSteps, walk, s); r.ending.Some? && !CutShort(r) && r.stepIndex == walk.stepIndex + 1
  {
    OtherReason(EDGE_EVALUATION_ERROR);
    OtherReason(STRUCTURAL_ERROR);
    if s.kind.StepFailed? { OtherReason(s.kind.reason); }
  }

  lemma OnlyAdvanceGoesOn(limit: nat, walk: W.Walk, s: Step)
    requires walk.ending.None? && W.OnStep(walk, limit, OutputOf(s)).ending.None?
    ensures s.kind.StepAdvance? && W.OnStep(walk, limit, OutputOf(s)).current == s.kind.next.node
    ensures W.OnStep(walk, limit, OutputOf(s)).stepIndex == walk.stepIndex + 1
  {
  }

  lemma ReactWithin(plan: Plan, done: seq<string>, counted: set<string>, slack: nat, limit: nat, maxSteps: nat, walk: W.Walk, s: Step,
                    loops: nat)
    requires walk.ending.None? && Within(plan, done, counted, slack, maxSteps, walk, loops)
    requires Measures(plan, done, counted, slack) && StepFollows(s, plan, walk.current)
    ensures Within(plan, done, counted, slack, maxSteps, React(limit, maxSteps, walk, s), loops + Hops(limit, walk, s))
  {
    hide Allowance, Height, Measures, ReasonValue, OutputOf, W.OnStep;
    if W.OnStep(walk, limit, OutputOf(s)).ending.Some? {
      StopsElsewhere(limit, maxSteps, walk, s);
      LastStepAffordable(plan, done, counted, slack, walk.stepIndex, walk.current, loops);
    } else {
      OnlyAdvanceGoesOn(limit, walk, s);
      StepDescends(plan, done, counted, slack, s, walk.current, walk.stepIndex, loops);
    }
  }

  lemma {:induction false} DurableWithin(run: Stepper, plan: Plan, done: seq<string>, counted: set<string>, slack: nat, limit: nat,
                                         maxSteps: nat, walk: W.Walk, db: Db, loops: nat)
    requires Follows(run, plan) && Measures(plan, done, counted, slack)
    requires db.graph.Some? && (walk.ending.None? ==> walk.stepIndex < maxSteps)
    requires Within(plan, done, counted, slack, maxSteps, walk, loops)
    ensures Within(plan, done, counted, slack, maxSteps, Durable(run, limit, maxSteps, walk, db).0,
                   loops + DurableLoops(run, limit, maxSteps, walk, db))
    decreases if walk.ending.Some? then 0 else maxSteps - walk.stepIndex
  {
    hide Within, Measures, Hops;
    if walk.ending.None? {
      var s := ExecuteNode(run, walk.stepIndex, walk.current, db);
      assert StepFollows(s, plan, walk.current);
      ReactWithin(plan, done, counted, slack, limit, maxSteps, walk, s, loops);
      DurableWithin(run, plan, done, counted, slack, limit, maxSteps, React(limit, maxSteps, walk, s), Record(db, s),
                    loops + Hops(limit, walk, s));
    }
  }

  lemma DurablyBoundedBy(run: Stepper, plan: Plan, done: seq<string>, counted: set<string>, slack: nat, limit: nat, maxSteps: nat,
                         begin: W.Walk, db: Db)
    requires Follows(run, plan) && Measures(plan, done, counted, slack) && db.graph.Some?
    requires begin.stepIndex == 0 && begin.ending.None? && maxSteps >= 1 && (slack == 0 ==> begin.current in plan.nodes)
    ensures var end := Durable(run, limit, maxSteps, begin, db).0;
            var allowance := Allowance(|counted|, DurableLoops(run, limit, maxSteps, begin, db));
            end.stepIndex <= allowance + slack && (CutShort(end) ==> maxSteps <= allowance)
  {
    hide Follows, Measures, Affords, Durable, DurableLoops, CutShort, Allowance;
    AffordsStart(plan, done, counted, slack, begin.current);
    NotCut(begin);
    assert Within(plan, done, counted, slack, maxSteps, begin, 0);
    DurableWithin(run, plan, done, counted, slack, limit, maxSteps, begin, db, 0);
  }

  /** A durable run that starts outside the plan ends at once. */
  lemma StrayRunStops(run: Stepper, plan: Plan, limit: nat, maxSteps: nat, begin: W.Walk, db: Db)
    requires Follows(run, plan) && db.graph.Some? && begin.current !in plan.nodes
    requires begin.stepIndex == 0 && begin.ending.None? && maxSteps >= 1
    ensures Durable(run, limit, maxSteps, begin, db).0.stepIndex <= 1
  {
    var s := ExecuteNode(run, begin.stepIndex, begin.current, db);
    assert StepFollows(s, plan, begin.current);
    LastStepDecides(limit, maxSteps, begin, s);
  }

  lemma SoundDurableIsBounded(run: Stepper, plan: Plan, limit: nat, maxSteps: nat, begin: W.Walk, db: Db)
    requires Sound(plan) && Follows(run, plan) && db.graph.Some?
    requires begin.stepIndex == 0 && begin.ending.None? && maxSteps >= 1
    ensures var end := Durable(run, limit, maxSteps, begin, db).0;
            var loops := DurableLoops(run, limit, maxSteps, begin, db);
            && end.stepIndex <= Allowance(|Branching(plan)|, loops) + 1
            && end.stepIndex <= Allowance(|plan.nodes.Keys|, loops)
            && (CutShort(end) ==> maxSteps <= Allowance(|Branching(plan)|, loops))
  {
    var done := SoundMeasures(plan);
    hide Follows, Measures, Branching, Allowance, Sound, Durable, DurableLoops, CutShort;
    DurablyBoundedBy(run, plan, done, Branching(plan), 1, limit, maxSteps, begin, db);
    if begin.current in plan.nodes {
      DurablyBoundedBy(run, plan, done, plan.nodes.Keys, 0, limit, maxSteps, begin, db);
    } else {
      StrayRunStops(run, plan, limit, maxSteps, begin, db);
      AllowancePositive(|plan.nodes.Keys|, DurableLoops(run, limit, maxSteps, begin, db));
    }
  }

  lemma NotCut(walk: W.Walk)
    requires walk.ending.None?
    ensures !CutShort(walk)
  {
  }

  /** A durable run from `start` takes at most B * (T + 1) + 1 steps and at most N * (T + 1), B of the plan's
      N nodes having outgoing edges and T being the LOOP edges followed, and is cut short only when T is at
      least `limit` and not zero. */
  ghost predicate DurablyBounded(w: World, plan: Plan, limit: nat, start: string, db: Db)
    requires db.graph.Some?
  {
    var run, maxSteps := StepperOf(w, plan, limit), MaxSteps(plan, limit);
    var end := Durable(run, limit, maxSteps, W.Begin(start, maxSteps), db).0;
    var loops := DurableLoops(run, limit, maxSteps, W.Begin(start, maxSteps), db);
    && end.stepIndex <= Allowance(|Branching(plan)|, loops) + 1
    && end.stepIndex <= Allowance(|plan.nodes|, loops)
    && (CutShort(end) ==> loops >= limit && loops > 0)
  }

  lemma SoundIsDurablyBounded(w: World, plan: Plan, limit: nat, start: string, db: Db)
    requires Sound(plan) && db.graph.Some?
    ensures DurablyBounded(w, plan, limit, start, db)
  {
    SoundHasEdges(plan);
    hide Follows, StepperOf, MaxSteps, Branching, Durable, DurableLoops, CutShort, Sound, Allowance;
    assert |plan.nodes.Keys| == |plan.nodes|;
    var run, maxSteps := StepperOf(w, plan, limit), MaxSteps(plan, limit);
    var begin := W.Begin(start, maxSteps);
    WorldFollows(w, plan, limit);
    LimitIsPositive(plan, limit);
    SoundDurableIsBounded(run, plan, limit, maxSteps, begin, db);
    var loops := DurableLoops(run, limit, maxSteps, begin, db);
    if loops < limit || loops == 0 { StepLimitCovers(plan, limit, loops); }
  }

  /** Every durable run of a compiled plan is bounded, and fails with MAX_STEPS_EXCEEDED only after
      following at least `limit` LOOP edges. */
  lemma DurableRunsAreBounded(s: Snapshot, hash: string, w: World, limit: nat, start: string, db: Db)
    requires Outcome(s, hash).Ok? && db.graph.Some?
    ensures DurablyBounded(w, Outcome(s, hash).plan, limit, start, db)
  {
    hide Outcome, Sound, DurablyBounded;
    CompiledIsSound(s, hash);
    SoundIsDurablyBounded(w, Outcome(s, hash).plan, limit, start, db);
  }

  lemma SoundHasEdges(plan: Plan)
    requires Sound(plan)
    ensures plan.edges != []
  {
  }

  lemma LimitIsPositive(plan: Plan, limit: nat)
    ensures MaxSteps(plan, limit) >= 1
  {
  }

  // ----- From the last step to the stored row -----

  /** The outcome a run ends with, by the step it ends on. */
  ghost predicate Decides(kind: StepKind, outcome: W.Outcome) {
    && (outcome == W.COMPLETED <==> kind.StepTerminal?)
    && (outcome == W.WAITING <==> kind.StepNeedsInput?)
    && (outcome == W.FAILED <==> kind.StepFailed? || kind.StepAdvance?)
  }

  lemma LastStepDecides(limit: nat, maxSteps: nat, walk: W.Walk, s: Step)
    requires walk.ending.None?
    ensures var r := React(limit, maxSteps, walk, s); r.ending.Some? ==> Decides(s.kind, r.ending.value.outcome)
    ensures !s.kind.StepAdvance? ==> React(limit, maxSteps, walk, s).ending.Some?
  {
  }

  /** The steps a durable run executes, in order. */
  function Steps(run: Stepper, limit: nat, maxSteps: nat, walk: W.Walk, db: Db): seq<Step>
    requires db.graph.Some? && (walk.ending.None? ==> walk.stepIndex < maxSteps)
    decreases if walk.ending.Some? then 0 else maxSteps - walk.stepIndex
  {
    if walk.ending.Some? then []
    else
      var s := ExecuteNode(run, walk.stepIndex, walk.current, db);
      [s] + Steps(run, limit, maxSteps, React(limit, maxSteps, walk, s), Record(db, s))
  }

  /** The database once the steps have been recorded. */
  function RecordAll(db: Db, steps: seq<Step>): (r: Db)
    requires db.graph.Some?
    ensures r.graph.Some?
  {
    if steps == [] then db else Record(RecordAll(db, steps[..|steps|-1]), steps[|steps|-1])
  }

  function Outputs(steps: seq<Step>): (r: seq<W.StepOutput>)
    ensures |r| == |steps| && forall i :: 0 <= i < |steps| ==> r[i] == OutputOf(steps[i])
  {
    seq(|steps|, i requires 0 <= i < |steps| => OutputOf(steps[i]))
  }

  /** Step i of a run was executed on the node the walk had reached, on what the steps before it had
      recorded. */
  ghost predicate ExecutedAt(run: Stepper, limit: nat, maxSteps: nat, start: string, db: Db, steps: seq<Step>, i: nat)
    requires i < |steps| && db.graph.Some?
  {
    var before := W.Replay(start, maxSteps, limit, Outputs(steps[..i]));
    && before.ending.None? && before.stepIndex == i
    && steps[i] == ExecuteNode(run, i, before.current, RecordAll(db, steps[..i]))
  }

  /** The steps are those of a run from its start, up to where it now stands. */
  ghost predicate RunSoFar(run: Stepper, limit: nat, maxSteps: nat, start: string, db: Db, steps: seq<Step>) {
    db.graph.Some? && forall i :: 0 <= i < |steps| ==> ExecutedAt(run, limit, maxSteps, start, db, steps, i)
  }

  lemma OneMoreStep(run: Stepper, limit: nat, maxSteps: nat, start: string, db: Db, steps: seq<Step>)
    requires RunSoFar(run, limit, maxSteps, start, db, steps)
    requires var walk := W.Replay(start, maxSteps, limit, Outputs(steps)); walk.ending.None? && walk.stepIndex == |steps|
    ensures var walk := W.Replay(start, maxSteps, limit, Outputs(steps));
            var s := ExecuteNode(run, |steps|, walk.current, RecordAll(db, steps));
            && RunSoFar(run, limit, maxSteps, start, db, steps + [s])
            && W.Replay(start, maxSteps, limit, Outputs(steps + [s])) == React(limit, maxSteps, walk, s)
            && RecordAll(db, steps + [s]) == Record(RecordAll(db, steps), s)
  {
    hide W.Advance, OutputOf, Record, ExecuteNode;
    var walk := W.Replay(start, maxSteps, limit, Outputs(steps));
    var s := ExecuteNode(run, |steps|, walk.current, RecordAll(db, steps));
    var all := steps + [s];
    assert all[..|steps|] == steps;
    assert Outputs(all)[..|steps|] == Outputs(steps);
    forall i | 0 <= i < |all| ensures ExecutedAt(run, limit, maxSteps, start, db, all, i) {
      if i < |steps| {
        assert all[..i] == steps[..i];
        assert ExecutedAt(run, limit, maxSteps, start, db, steps, i);
      }
    }
  }

  lemma AdvanceSteps(limit: nat, maxSteps: nat, walk: W.Walk, out: W.StepOutput)
    requires walk.ending.None? && walk.stepIndex < maxSteps
    ensures var r := W.Advance(walk, maxSteps, limit, out);
            r.stepIndex == walk.stepIndex + 1 && (r.ending.None? ==> r.stepIndex < maxSteps)
  {
  }

  /** From any point of a run on, the durable engine executes the steps that complete it. */
  lemma {:induction false} StepsCompleteRun(run: Stepper, limit: nat, maxSteps: nat, start: string, db: Db, done: seq<Step>)
    returns (steps: seq<Step>)
    requires db.graph.Some? && RunSoFar(run, limit, maxSteps, start, db, done)
    requires var walk := W.Replay(start, maxSteps, limit, Outputs(done));
             walk.stepIndex == |done| && (walk.ending.None? ==> walk.stepIndex < maxSteps)
    ensures var walk := W.Replay(start, maxSteps, limit, Outputs(done));
            && steps == done + Steps(run, limit, maxSteps, walk, RecordAll(db, done))
            && RunSoFar(run, limit, maxSteps, start, db, steps)
            && Durable(run, limit, maxSteps, walk, RecordAll(db, done))
               == (W.Replay(start, maxSteps, limit, Outputs(steps)), RecordAll(db, steps))
            && W.Replay(start, maxSteps, limit, Outputs(steps)).ending.Some?
            && W.Replay(start, maxSteps, limit, Outputs(steps)).stepIndex == |steps|
    decreases maxSteps - |done|, 0
  {
    hide W.Replay, W.Advance, OutputOf, Record, ExecuteNode, RunSoFar, RecordAll, Outputs;
    var walk := W.Replay(start, maxSteps, limit, Outputs(done));
    if walk.ending.Some? {
      steps := done;
      assert done + [] == done;
    } else {
      var s := ExecuteNode(run, |done|, walk.current, RecordAll(db, done));
      OneMoreStep(run, limit, maxSteps, start, db, done);
      AdvanceSteps(limit, maxSteps, walk, OutputOf(s));
      steps := StepsCompleteRun(run, limit, maxSteps, start, db, done + [s]);
      var next := W.Replay(start, maxSteps, limit, Outputs(done + [s]));
      var rest := Steps(run, limit, maxSteps, next, RecordAll(db, done + [s]));
      assert (done + [s]) + rest == done + ([s] + rest);
    }
  }

  function StatusOf(outcome: W.Outcome): string {
    match outcome
    case COMPLETED => "COMPLETED"
    case WAITING => "WAITING_INPUT"
    case FAILED => "FAILED"
    case CANCELLED => "CANCELLED"
  }

  /** Why a run failed: a LOOP edge reported too often, the reason its last step gave, or the limit. */
  ghost function FailureOf(limit: nat, steps: seq<Step>): Reason
    requires steps != []
  {
    if W.Overlooped(Outputs(steps), limit) then EDGE_EVALUATION_ERROR
    else match steps[|steps|-1].kind
      case StepFailed(reason) => reason
      case _ => MAX_STEPS_EXCEEDED
  }

  lemma ReasonGiven(limit: nat, maxSteps: nat, walk: W.Walk, s: Step)
    requires walk.ending.None? && React(limit, maxSteps, walk, s).ending.Some?
    requires React(limit, maxSteps, walk, s).ending.value.outcome == W.FAILED
    ensures ParseReason(React(limit, maxSteps, walk, s).ending.value.reason) ==
      if W.Count(walk.counters, OutputOf(s).loopKeys, limit).1 then EDGE_EVALUATION_ERROR
      else match s.kind
        case StepFailed(reason) => reason
        case _ => MAX_STEPS_EXCEEDED
  {
    hide ParseReason, W.Count;
    ReasonRoundTrip(EDGE_EVALUATION_ERROR);
    ReasonRoundTrip(MAX_STEPS_EXCEEDED);
    if s.kind.StepFailed? { ReasonRoundTrip(s.kind.reason); }
  }

  /** The last step of a complete run decides its outcome and, with the reports of all steps, the
      reason of a failure. */
  lemma CompleteRunDecided(run: Stepper, limit: nat, maxSteps: nat, start: string, db: Db, steps: seq<Step>)
    requires steps != [] && RunSoFar(run, limit, maxSteps, start, db, steps)
    requires W.Replay(start, maxSteps, limit, Outputs(steps)).ending.Some?
    ensures var e := W.Replay(start, maxSteps, limit, Outputs(steps)).ending.value;
            && Decides(steps[|steps|-1].kind, e.outcome)
            && (e.outcome == W.FAILED ==> ParseReason(e.reason) == FailureOf(limit, steps))
  {
    hide Decides, OutputOf, ExecuteNode, ParseReason, W.Advance, W.Count, W.Overlooped;
    var before, s := steps[..|steps|-1], steps[|steps|-1];
    assert ExecutedAt(run, limit, maxSteps, start, db, steps, |steps| - 1);
    var outs := Outputs(steps);
    assert outs[..|outs|-1] == Outputs(before) && outs == Outputs(before) + [OutputOf(s)];
    var walk := W.Replay(start, maxSteps, limit, Outputs(before));
    assert W.Replay(start, maxSteps, limit, outs) == React(limit, maxSteps, walk, s);
    LastStepDecides(limit, maxSteps, walk, s);
    W.LoopFailureIff(start, maxSteps, limit, Outputs(before), OutputOf(s));
    if React(limit, maxSteps, walk, s).ending.value.outcome == W.FAILED {
      ReasonGiven(limit, maxSteps, walk, s);
    }
  }

  /** The recorded history of a complete run. */
  function HistoryOf(summary: H.Summary, steps: seq<Step>): seq<H.Result> {
    [H.Prepared(summary)] + H.Executions(Outputs(steps)) + [H.Finalized]
  }

  lemma HistoryReturns(run: Stepper, payloadStart: Option<string>, summary: H.Summary, db: Db, steps: seq<Step>)
    requires RunSoFar(run, summary.loopLimit, summary.maxSteps, H.StartOf(payloadStart, summary), db, steps)
    requires W.Replay(H.StartOf(payloadStart, summary), summary.maxSteps, summary.loopLimit, Outputs(steps)).ending.Some?
    ensures var end := W.Replay(H.StartOf(payloadStart, summary), summary.maxSteps, summary.loopLimit, Outputs(steps));
            H.Rebuild(payloadStart, HistoryOf(summary, steps)) == H.Returned(end.stepIndex, end.ending.value)
  {
    hide OutputOf, ExecuteNode, W.Advance, H.StartOf;
    var outs, start := Outputs(steps), H.StartOf(payloadStart, summary);
    if steps != [] {
      var i := |steps| - 1;
      assert ExecutedAt(run, summary.loopLimit, summary.maxSteps, start, db, steps, i);
      assert outs[..i] == Outputs(steps[..i]);
    }
    H.ExecutionsRebuild(payloadStart, summary, outs);
    var history, last := [H.Prepared(summary)] + H.Executions(outs), H.Finalized;
    assert HistoryOf(summary, steps)[..|history|] == history;
  }

  /** A whole durable run, as the steps it executes. */
  lemma WholeRun(run: Stepper, limit: nat, maxSteps: nat, start: string, db: Db) returns (steps: seq<Step>)
    requires db.graph.Some? && maxSteps >= 1
    ensures steps == Steps(run, limit, maxSteps, W.Begin(start, maxSteps), db) && steps != []
    ensures RunSoFar(run, limit, maxSteps, start, db, steps)
    ensures var end := W.Replay(start, maxSteps, limit, Outputs(steps));
            && end.ending.Some? && end.stepIndex == |steps|
            && Durable(run, limit, maxSteps, W.Begin(start, maxSteps), db) == (end, RecordAll(db, steps))
  {
    hide Steps, Durable;
    assert Outputs([]) == [] && RecordAll(db, []) == db;
    assert W.Replay(start, maxSteps, limit, []) == W.Begin(start, maxSteps);
    steps := StepsCompleteRun(run, limit, maxSteps, start, db, []);
    assert [] + Steps(run, limit, maxSteps, W.Begin(start, maxSteps), db) == steps;
  }

  /** The last step of a complete run is the node run whose output is stored. */
  lemma LastRunIsLastStep(run: Stepper, limit: nat, maxSteps: nat, start: string, db: Db, steps: seq<Step>)
    requires steps != [] && RunSoFar(run, limit, maxSteps, start, db, steps)
    requires W.Replay(start, maxSteps, limit, Outputs(steps)).ending.Some?
    ensures var e, i := W.Replay(start, maxSteps, limit, Outputs(steps)).ending.value, |steps| - 1;
            e.outcome == W.COMPLETED || e.outcome == W.WAITING ==>
              e.lastRun == steps[i].nodeRun && e.lastNode == Some(W.Replay(start, maxSteps, limit, Outputs(steps[..i])).current)
  {
    hide ExecuteNode, W.Advance, OutputOf;
    var i := |steps| - 1;
    assert ExecutedAt(run, limit, maxSteps, start, db, steps, i);
    var outs := Outputs(steps);
    assert outs[..|outs|-1] == Outputs(steps[..i]);
    LastRunGiven(limit, maxSteps, W.Replay(start, maxSteps, limit, Outputs(steps[..i])), steps[i]);
  }

  lemma LastRunGiven(limit: nat, maxSteps: nat, walk: W.Walk, s: Step)
    requires walk.ending.None?
    ensures var r := React(limit, maxSteps, walk, s);
            r.ending.Some? && (r.ending.value.outcome == W.COMPLETED || r.ending.value.outcome == W.WAITING) ==>
              r.ending.value.lastRun == s.nodeRun && r.ending.value.lastNode == Some(walk.current)
  {
    hide W.Count, ReasonValue;
  }

  lemma LastDataRecorded(db: Db, steps: seq<Step>, data: Data)
    requires db.graph.Some? && steps != [] && steps[|steps|-1].nodeRun.Some? && steps[|steps|-1].nodeRun.value != ""
    requires RecordedAs(RecordAll(db, steps), steps[|steps|-1].nodeRun, data)
    ensures data == steps[|steps|-1].data
  {
  }

  /** What is stored of a run with these steps and this ending: the status of how its last step ended, the
      reason of a failure, and the output of that step. */
  ghost predicate StoredAs(r: Db, e: W.Ending, limit: nat, steps: seq<Step>)
    requires steps != []
  {
    var last := steps[|steps|-1];
    && Decides(last.kind, e.outcome)
    && r.row.status == StatusOf(e.outcome)
    && (e.outcome == W.FAILED ==> r.row.error == Some(FailureOf(limit, steps)))
    && ((e.outcome == W.COMPLETED || e.outcome == W.WAITING) && last.nodeRun.Some? && last.nodeRun.value != "" ==>
          r.row.output == last.data && r.interaction == Interaction(last.data, last.nodeRun))
  }

  lemma StoredRow(run: Stepper, limit: nat, maxSteps: nat, start: string, db: Db, steps: seq<Step>, key: Option<string>, crashes: seq<nat>)
    requires steps != [] && RunSoFar(run, limit, maxSteps, start, db, steps)
    requires W.Replay(start, maxSteps, limit, Outputs(steps)).ending.Some?
    ensures var e := W.Replay(start, maxSteps, limit, Outputs(steps)).ending.value;
            StoredAs(RetriedFinalize(RecordAll(db, steps), e, key, crashes), e, limit, steps)
  {
    CompleteRunDecided(run, limit, maxSteps, start, db, steps);
    LastRunIsLastStep(run, limit, maxSteps, start, db, steps);
    var e, after, last := W.Replay(start, maxSteps, limit, Outputs(steps)).ending.value, RecordAll(db, steps), steps[|steps|-1];
    FinalizedExactly(after, e, key, crashes);
    hide RetriedFinalize, FailureOf, ParseReason, W.Replay, RecordAll, RecordedAs, Outputs, RunSoFar, Decides;
    var r := RetriedFinalize(after, e, key, crashes);
    if (e.outcome == W.COMPLETED || e.outcome == W.WAITING) && last.nodeRun.Some? && last.nodeRun.value != "" {
      LastDataRecorded(db, steps, r.row.output);
      LastDataRecorded(db, steps, r.interaction.output);
    }
  }

  /** End to end, however often the finalization dies: the workflow returns with the ending of the
      durable run, the row says what it returns, both say how the last executed step ended, and the stored
      output is that step's. */
  lemma StoredAsDecided(run: Stepper, payloadStart: Option<string>, summary: H.Summary, db: Db, key: Option<string>,
                        crashes: seq<nat>) returns (steps: seq<Step>)
    requires db.graph.Some? && summary.maxSteps >= 1
    ensures var limit, maxSteps, start := summary.loopLimit, summary.maxSteps, H.StartOf(payloadStart, summary);
            var (end, after) := Durable(run, limit, maxSteps, W.Begin(start, maxSteps), db);
            && end.ending.Some? && |steps| == end.stepIndex >= 1
            && steps == Steps(run, limit, maxSteps, W.Begin(start, maxSteps), db)
            && RunSoFar(run, limit, maxSteps, start, db, steps) && after == RecordAll(db, steps)
            && H.Rebuild(payloadStart, HistoryOf(summary, steps)) == H.Returned(|steps|, end.ending.value)
            && StoredAs(RetriedFinalize(after, end.ending.value, key, crashes), end.ending.value, limit, steps)
  {
    hide StoredAs, RetriedFinalize, RunSoFar, H.Rebuild, H.StartOf, Steps, HistoryOf, W.Replay, W.Begin, Durable, RecordAll, Outputs;
    var limit, maxSteps, start := summary.loopLimit, summary.maxSteps, H.StartOf(payloadStart, summary);
    BeginIsShort(start, maxSteps);
    steps := WholeRun(run, limit, maxSteps, start, db);
    HistoryReturns(run, payloadStart, summary, db, steps);
    StoredRow(run, limit, maxSteps, start, db, steps, key, crashes);
  }

  lemma BeginIsShort(start: string, maxSteps: nat)
    ensures maxSteps >= 1 ==> W.Begin(start, maxSteps).ending.None? && W.Begin(start, maxSteps).stepIndex < maxSteps
  {
  }
}
