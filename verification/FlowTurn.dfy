/** A whole turn of a durable run: what `prepare_flow_run` leaves is what the first node is given, each node
    sees what the nodes before it answered, and what the last one answered is what is stored. */
module FlowTurn {
  import opened FlowGraph
  import opened GraphCompiler
  import opened FlowActivities
  import opened FlowRuntime
  import opened FlowStep
  import opened FlowDurable
  import W = FlowWorkflow
  import H = FlowHistory

  // ----- What nodes see of the nodes before them -----

  /** Nodes that give a state of their own leave the outputs of other nodes in it. */
  ghost predicate KeepsOutputs(w: World) {
    forall k, ctx :: KeepsOutputsOn(ctx, w.execute(k, ctx))
  }

  predicate KeepsOutputsOn(ctx: Context, a: NodeAnswer) {
    a.Answer? && a.nextState.Some? && !EmptyState(a.nextState.value) ==> a.nextState.value.outputs == ctx.state.outputs
  }

  /** What a node last answered in the given steps. */
  function LastAnswer(steps: seq<Step>, node: string): Option<Data> {
    if steps == [] then None
    else
      var last := steps[|steps|-1];
      if last.saved.Some? && last.saved.value.node == node then Some(last.data) else LastAnswer(steps[..|steps|-1], node)
  }

  /** The outputs are the last answers of the steps, and otherwise those there were. */
  ghost predicate Remembers(before: map<string, Data>, steps: seq<Step>, after: map<string, Data>) {
    forall node :: RemembersNode(before, steps, after, node)
  }

  ghost predicate RemembersNode(before: map<string, Data>, steps: seq<Step>, after: map<string, Data>, node: string) {
    var expected := if LastAnswer(steps, node).Some? then LastAnswer(steps, node)
                    else if node in before then Some(before[node]) else None;
    (node in after <==> expected.Some?) && (node in after ==> after[node] == expected.value)
  }

  lemma RunPrefix(run: Stepper, limit: nat, maxSteps: nat, start: string, db: Db, steps: seq<Step>, n: nat)
    requires RunSoFar(run, limit, maxSteps, start, db, steps) && n <= |steps|
    ensures RunSoFar(run, limit, maxSteps, start, db, steps[..n])
  {
    hide ExecuteNode, W.Replay, Outputs, RecordAll;
    forall i | 0 <= i < n ensures ExecutedAt(run, limit, maxSteps, start, db, steps[..n], i) {
      assert steps[..n][..i] == steps[..i];
      assert ExecutedAt(run, limit, maxSteps, start, db, steps, i);
    }
  }

  /** A step that saved has entered its answer among the outputs it was given. */
  lemma StepEnters(w: World, plan: Plan, limit: nat, k: nat, given: Context, s: Step)
    requires KeepsOutputs(w) && s == RunStep(w, plan, k, given, map[], limit) && s.saved.Some?
    ensures s.saved.value.node == given.node
    ensures s.saved.value.state.outputs == given.state.outputs[given.node := s.data]
  {
    StepExact(w, plan, k, given, map[], limit);
    hide RunStep, FailsEarly, FlowStep.Reports, Counted, Decided, HandsOn;
    assert Records(w, plan, k, given, s) && KeepsOutputsOn(Offered(plan, given), w.execute(k, Offered(plan, given)));
    var after, was := s.saved.value.state.outputs, given.state.outputs;
    assert after == (after - {given.node})[given.node := s.data];
    assert was[given.node := s.data] == (was - {given.node})[given.node := s.data];
  }

  lemma StepRemembers(before: map<string, Data>, steps: seq<Step>, given: map<string, Data>, s: Step, after: map<string, Data>)
    requires Remembers(before, steps, given)
    requires after == if s.saved.Some? then given[s.saved.value.node := s.data] else given
    ensures Remembers(before, steps + [s], after)
  {
    var all := steps + [s];
    assert all[..|all|-1] == steps && all[|all|-1] == s;
    forall node ensures RemembersNode(before, all, after, node) {
      assert RemembersNode(before, steps, given, node);
    }
  }

  /** At every point of a turn the stored state holds what each node last answered, in this turn or, for
      nodes it has not come to, in an earlier one. */
  lemma {:induction false} NodesSeeEarlierOutputs(w: World, plan: Plan, limit: nat, maxSteps: nat, start: string, db: Db, steps: seq<Step>)
    requires KeepsOutputs(w) && RunSoFar(StepperOf(w, plan, limit), limit, maxSteps, start, db, steps)
    ensures Remembers(db.graph.value.state.outputs, steps, RecordAll(db, steps).graph.value.state.outputs)
    decreases |steps|
  {
    hide KeepsOutputs, W.Replay, Outputs, RunStep;
    if steps != [] {
      var i := |steps| - 1;
      var before := steps[..i];
      assert steps == before + [steps[i]];
      assert ExecutedAt(StepperOf(w, plan, limit), limit, maxSteps, start, db, steps, i);
      RunPrefix(StepperOf(w, plan, limit), limit, maxSteps, start, db, steps, i);
      NodesSeeEarlierOutputs(w, plan, limit, maxSteps, start, db, before);
      var node := W.Replay(start, maxSteps, limit, Outputs(before)).current;
      hide Remembers;
      var given := Reload(RecordAll(db, before).graph.value, node);
      if steps[i].saved.Some? { StepEnters(w, plan, limit, i, given, steps[i]); }
      StepRemembers(db.graph.value.state.outputs, before, given.state.outputs, steps[i], RecordAll(db, steps).graph.value.state.outputs);
    }
  }

  // ----- From prepare to finalize -----

  /** The last node of these steps answered and its answer is the stored output. */
  ghost predicate AnswerStored(w: World, r: Db, steps: seq<Step>)
    requires steps != []
  {
    var k := |steps| - 1;
    var a := w.execute(k, steps[k].context);
    a.Answer? && r.row.output == a.data && r.interaction == Interaction(a.data, Some(w.runId(k)))
  }

  lemma LastStepAnswered(w: World, plan: Plan, limit: nat, maxSteps: nat, start: string, db: Db, steps: seq<Step>)
    requires steps != [] && RunSoFar(StepperOf(w, plan, limit), limit, maxSteps, start, db, steps)
    ensures var k := |steps| - 1;
            steps[k].kind.StepTerminal? || steps[k].kind.StepNeedsInput? ==>
              && w.execute(k, steps[k].context).Answer? && steps[k].data == w.execute(k, steps[k].context).data
              && steps[k].nodeRun == Some(w.runId(k))
  {
    var k := |steps| - 1;
    hide W.Replay, Outputs, RecordAll;
    assert ExecutedAt(StepperOf(w, plan, limit), limit, maxSteps, start, db, steps, k);
    var node := W.Replay(start, maxSteps, limit, Outputs(steps[..k])).current;
    var given := Reload(RecordAll(db, steps[..k]).graph.value, node);
    StepExact(w, plan, k, given, map[], limit);
    hide RunStep, FlowStep.Reports, Counted, HandsOn;
  }

  /** A turn, whichever of its activities die and however often: the first node is executed on the graph state
      of an earlier turn, or on the seed when there is none; and a turn that completes or waits stores what
      its last node answered, in the run row and in the interaction. */
  lemma TurnStored(w: World, plan: Plan, limit: nat, payloadStart: Option<string>, db: Db, seed: GraphState, preparing: seq<nat>,
                   key: Option<string>, finalizing: seq<nat>) returns (steps: seq<Step>)
    requires forall n :: w.runId(n) != ""
    ensures var summary := H.Summary(plan.startNode, MaxSteps(plan, limit), limit);
            var start := H.StartOf(payloadStart, summary);
            var prepared, run := RetriedPrepare(db, seed, preparing), StepperOf(w, plan, limit);
            && prepared.graph == Some(if db.graph.Some? then db.graph.value else seed)
            && var (end, after) := Durable(run, limit, summary.maxSteps, W.Begin(start, summary.maxSteps), prepared);
               && steps == Steps(run, limit, summary.maxSteps, W.Begin(start, summary.maxSteps), prepared) && steps != []
               && steps[0] == RunStep(w, plan, 0, Reload(prepared.graph.value, start), map[], limit)
               && end.ending.Some? && H.Rebuild(payloadStart, HistoryOf(summary, steps)) == H.Returned(|steps|, end.ending.value)
               && var r, e := RetriedFinalize(after, end.ending.value, key, finalizing), end.ending.value;
                  && StoredAs(r, e, limit, steps)
                  && (e.outcome == W.COMPLETED || e.outcome == W.WAITING ==> AnswerStored(w, r, steps))
  {
    hide RetriedPrepare, MaxSteps, Durable, Steps, RunStep, RunSoFar, H.Rebuild, H.StartOf, HistoryOf, RetriedFinalize, FailureOf, StatusOf,
         RecordAll, W.Begin, Reload, StepperOf, Decides;
    PreparedExactly(db, seed, preparing);
    var summary := H.Summary(plan.startNode, MaxSteps(plan, limit), limit);
    var start, prepared, run := H.StartOf(payloadStart, summary), RetriedPrepare(db, seed, preparing), StepperOf(w, plan, limit);
    LimitIsPositive(plan, limit);
    BeginIsShort(start, summary.maxSteps);
    steps := StoredAsDecided(run, payloadStart, summary, prepared, key, finalizing);
    FirstStep(w, plan, limit, summary.maxSteps, start, prepared, steps);
    var (end, after) := Durable(run, limit, summary.maxSteps, W.Begin(start, summary.maxSteps), prepared);
    LastAnswerStored(w, plan, limit, summary.maxSteps, start, prepared, steps, RetriedFinalize(after, end.ending.value, key, finalizing),
                     end.ending.value);
  }

  lemma LastAnswerStored(w: World, plan: Plan, limit: nat, maxSteps: nat, start: string, db: Db, steps: seq<Step>, r: Db, e: W.Ending)
    requires steps != [] && RunSoFar(StepperOf(w, plan, limit), limit, maxSteps, start, db, steps)
    requires StoredAs(r, e, limit, steps) && forall n :: w.runId(n) != ""
    ensures e.outcome == W.COMPLETED || e.outcome == W.WAITING ==> AnswerStored(w, r, steps)
  {
    hide RunSoFar, FailureOf, StatusOf;
    LastStepAnswered(w, plan, limit, maxSteps, start, db, steps);
  }

  lemma FirstStep(w: World, plan: Plan, limit: nat, maxSteps: nat, start: string, db: Db, steps: seq<Step>)
    requires steps != [] && RunSoFar(StepperOf(w, plan, limit), limit, maxSteps, start, db, steps)
    ensures steps[0] == RunStep(w, plan, 0, Reload(db.graph.value, start), map[], limit)
  {
    hide RunStep;
    assert ExecutedAt(StepperOf(w, plan, limit), limit, maxSteps, start, db, steps, 0);
    assert steps[..0] == [] && Outputs([]) == [];
  }
}
