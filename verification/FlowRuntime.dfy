/** One node step (`NodeStepRunner.run_step`) and the two engines that walk a plan with it:
    the in-process `RuntimeExecutor` and the durable `FlowRunWorkflow` with its activities. */
module FlowRuntime {
  import opened FlowGraph
  import opened GraphCompiler
  import opened FlowActivities
  import FlowWorkflow

  // ----- The world a step runs in -----

  /** `ExecutionContext`, as far as nodes see it change from step to step. */
  datatype Context = Context(node: string, state: State, memory: seq<string>, metadata: Data, nodeOutput: Data)

  datatype NodeAnswer =
    | Raised
    | Answer(needsInput: bool, data: Data, nextState: Option<State>, memory: Option<seq<string>>)

  datatype Verdict = Holds | DoesNotHold | Unevaluable

  /** Code outside the engines: the node registry, node executors, the edge evaluator, the
      fallback reason resolver and the identifier drawn for the node run of step k. */
  datatype World = World(
    resolves: string -> bool,
    constructs: string -> bool,
    execute: (nat, Context) -> NodeAnswer,
    judge: (string, Data) -> Verdict,
    fallbackReason: (string, Data) -> string,
    runId: nat -> string)

  const CURRENT_TYPE := "current_node_type"
  const FALLBACK_SOURCE := "fallback_source_node"
  const FALLBACK_REASON := "fallback_reason"

  // ----- Edges -----

  function EdgeKey(e: Edge): string { e.src + "->" + e.dst }

  /** The result of `_evaluate_edges`: it may raise part of the way, and it reports the keys of
      the LOOP edges it came to. */
  datatype Evaluation = Evaluation(raised: bool, matching: seq<Edge>, keys: seq<string>, counters: map<string, nat>)

  function Evaluate(w: World, es: seq<Edge>, node: string, data: Data, limit: nat, counters: map<string, nat>): Evaluation
    decreases |es|
  {
    if es == [] then Evaluation(false, [], [], counters)
    else if es[0].src != node then Evaluate(w, es[1..], node, data, limit, counters)
    else
      var e := es[0];
      var bumped := if e.kind == Loop then counters[EdgeKey(e) := FlowWorkflow.Get(counters, EdgeKey(e)) + 1] else counters;
      var key := if e.kind == Loop then [EdgeKey(e)] else [];
      if (e.kind == Loop && bumped[EdgeKey(e)] > limit) || w.judge(e.condition, data) == Unevaluable
      then Evaluation(true, [], key, bumped)
      else
        var rest := Evaluate(w, es[1..], node, data, limit, bumped);
        Evaluation(rest.raised, (if w.judge(e.condition, data) == Holds then [e] else []) + rest.matching, key + rest.keys, rest.counters)
  }

  /** The loop of `_evaluate_edges`. */
  method EvaluateEdges(w: World, es: seq<Edge>, node: string, data: Data, limit: nat, counters: map<string, nat>)
    returns (raised: bool, candidates: seq<Edge>, loopKeys: seq<string>, tally: map<string, nat>)
    ensures var e := Evaluate(w, es, node, data, limit, counters);
            raised == e.raised && loopKeys == e.keys && tally == e.counters && (!raised ==> candidates == e.matching)
  {
    candidates, loopKeys, tally := [], [], counters;
    for i := 0 to |es|
      invariant var all, rest := Evaluate(w, es, node, data, limit, counters), Evaluate(w, es[i..], node, data, limit, tally);
                && all.raised == rest.raised && all.keys == loopKeys + rest.keys && all.counters == rest.counters
                && (!all.raised ==> all.matching == candidates + rest.matching)
    {
      var edge := es[i];
      assert es[i..][1..] == es[i+1..];
      if edge.src != node {
        continue;
      }
      if edge.kind == Loop {
        loopKeys := loopKeys + [EdgeKey(edge)];
        tally := tally[EdgeKey(edge) := FlowWorkflow.Get(tally, EdgeKey(edge)) + 1];
        if tally[EdgeKey(edge)] > limit {
          return true, candidates, loopKeys, tally;
        }
      }
      var verdict := w.judge(edge.condition, data);
      if verdict == Unevaluable {
        return true, candidates, loopKeys, tally;
      }
      if verdict == Holds {
        candidates := candidates + [edge];
      }
    }
    assert es[|es|..] == [];
    raised := false;
  }

  /** The outgoing edges of a node whose condition holds, and the keys of its LOOP edges. */
  function Holding(w: World, es: seq<Edge>, node: string, data: Data): seq<Edge> {
    if es == [] then []
    else (if es[0].src == node && w.judge(es[0].condition, data) == Holds then [es[0]] else []) + Holding(w, es[1..], node, data)
  }

  function LoopKeys(es: seq<Edge>, node: string): seq<string> {
    if es == [] then []
    else (if es[0].src == node && es[0].kind == Loop then [EdgeKey(es[0])] else []) + LoopKeys(es[1..], node)
  }

  ghost predicate AllEvaluable(w: World, es: seq<Edge>, node: string, data: Data) {
    forall e :: e in es && e.src == node ==> w.judge(e.condition, data) != Unevaluable
  }

  lemma EvaluableCons(w: World, es: seq<Edge>, node: string, data: Data)
    requires es != []
    ensures AllEvaluable(w, es, node, data) <==>
      (es[0].src == node ==> w.judge(es[0].condition, data) != Unevaluable) && AllEvaluable(w, es[1..], node, data)
  {
    assert es == [es[0]] + es[1..];
  }

  lemma CountCons(counters: map<string, nat>, key: string, keys: seq<string>, limit: nat)
    ensures var n := FlowWorkflow.Get(counters, key) + 1;
            FlowWorkflow.Count(counters, [key] + keys, limit) ==
              if n > limit then (counters[key := n], true) else FlowWorkflow.Count(counters[key := n], keys, limit)
  {
    assert ([key] + keys)[1..] == keys;
  }

  /** Evaluation raises exactly when a condition cannot be evaluated or counting all LOOP edges
      exceeds the limit; otherwise it reports every LOOP edge, followed or not, and matches exactly
      the edges that hold. */
  lemma {:induction false} EvaluationExact(w: World, es: seq<Edge>, node: string, data: Data, limit: nat, counters: map<string, nat>)
    ensures var e, counted := Evaluate(w, es, node, data, limit, counters), FlowWorkflow.Count(counters, LoopKeys(es, node), limit);
            && (e.raised <==> !AllEvaluable(w, es, node, data) || counted.1)
            && (!e.raised ==> e.matching == Holding(w, es, node, data) && e.keys == LoopKeys(es, node) && e.counters == counted.0)
    decreases |es|
  {
    hide AllEvaluable, EdgeKey, FlowWorkflow.Count;
    if es == [] {
      NothingCounted(w, node, data, limit, counters);
    } else {
      var e, rest := es[0], es[1..];
      EvaluableCons(w, es, node, data);
      if e.src == node && e.kind == Loop {
        CountCons(counters, EdgeKey(e), LoopKeys(rest, node), limit);
        EvaluationExact(w, rest, node, data, limit, counters[EdgeKey(e) := FlowWorkflow.Get(counters, EdgeKey(e)) + 1]);
      } else {
        assert LoopKeys(es, node) == LoopKeys(rest, node);
        EvaluationExact(w, rest, node, data, limit, counters);
      }
    }
  }

  lemma NothingCounted(w: World, node: string, data: Data, limit: nat, counters: map<string, nat>)
    ensures AllEvaluable(w, [], node, data) && FlowWorkflow.Count(counters, [], limit) == (counters, false)
  {
  }

  // ----- One step -----

  datatype StepKind =
    | StepFailed(reason: Reason)
    | StepNeedsInput
    | StepTerminal
    | StepAdvance(via: Edge, next: Context)

  /** `NodeStepOutcome`, with what the step wrote: the node run's output and the graph state. */
  datatype Step = Step(kind: StepKind, data: Data, keys: seq<string>, counters: map<string, nat>,
                       nodeRun: Option<string>, context: Context, saved: Option<GraphState>)

  predicate EmptyState(s: State) { s.fields == map[] && s.outputs == map[] }

  /** `node_result.next_state or context.state`, with this node's output recorded in it. */
  function NewState(ctx: Context, a: NodeAnswer): State
    requires a.Answer?
  {
    var base := if a.nextState.Some? && !EmptyState(a.nextState.value) then a.nextState.value else ctx.state;
    base.(outputs := base.outputs[ctx.node := a.data])
  }

  function RunStep(w: World, plan: Plan, k: nat, given: Context, counters: map<string, nat>, limit: nat): Step {
    var failed := (reason: Reason, ctx: Context, run: Option<string>) =>
      Step(StepFailed(reason), map[], [], counters, run, ctx, None);
    if given.node !in plan.nodes then failed(NODE_NOT_FOUND, given, None)
    else
      var nodeType := plan.nodes[given.node];
      if !w.resolves(nodeType) then failed(UNKNOWN_NODE_TYPE, given, None)
      else
        var ctx := given.(metadata := given.metadata[CURRENT_TYPE := nodeType]);
        if !w.constructs(nodeType) then failed(STRUCTURAL_ERROR, ctx, None)
        else
          var answer := w.execute(k, ctx);
          if answer.Raised? then failed(STRUCTURAL_ERROR, ctx, Some(w.runId(k)))
          else AfterExecution(w, plan, k, ctx, answer, counters, limit)
  }

  /** The part of `run_step` that follows a node that answered. */
  function AfterExecution(w: World, plan: Plan, k: nat, ctx: Context, answer: NodeAnswer, counters: map<string, nat>, limit: nat): Step
    requires ctx.node in plan.nodes && answer.Answer?
  {
    var state := NewState(ctx, answer);
    var memory := if answer.memory.Some? then answer.memory.value else ctx.memory;
    var run := Some(w.runId(k));
    var saved := Some(GraphState(ctx.node, state, memory, ctx.metadata));
    if answer.needsInput then Step(StepNeedsInput, answer.data, [], counters, run, ctx, saved)
    else if IsTerminalType(plan.nodes[ctx.node]) then Step(StepTerminal, answer.data, [], counters, run, ctx, saved)
    else
      Choose(w, plan, ctx, answer.data, state, memory, run,
             Evaluate(w, Out(plan.edges, ctx.node), ctx.node, answer.data, limit, counters))
  }

  /** What becomes of the evaluated edges: exactly one of them must hold. */
  function Choose(w: World, plan: Plan, ctx: Context, data: Data, state: State, memory: seq<string>, run: Option<string>, ev: Evaluation): Step
    requires ctx.node in plan.nodes
  {
    var saved := Some(GraphState(ctx.node, state, memory, ctx.metadata));
    var failed := (reason: Reason) => Step(StepFailed(reason), data, ev.keys, ev.counters, run, ctx, saved);
    if ev.raised then failed(EDGE_EVALUATION_ERROR)
    else if ev.matching == [] then failed(NO_MATCHING_EDGE)
    else if |ev.matching| > 1 then failed(MULTIPLE_MATCHING_EDGES)
    else
      var to := ev.matching[0].dst;
      var next := Context(to, state, memory, NextMetadata(w, plan, ctx, data, to), data);
      Step(StepAdvance(ev.matching[0], next), data, ev.keys, ev.counters, run, ctx, saved)
  }

  /** The metadata handed to the next node: a HumanFallback is told where it came from and why. */
  function NextMetadata(w: World, plan: Plan, ctx: Context, data: Data, next: string): Data
    requires ctx.node in plan.nodes
  {
    if next in plan.nodes && plan.nodes[next] == "HumanFallback"
    then ctx.metadata[FALLBACK_SOURCE := ctx.node][FALLBACK_REASON := w.fallbackReason(plan.nodes[ctx.node], data)]
    else ctx.metadata
  }

  // ----- Limits -----

  function Max(a: nat, b: nat): nat { if a >= b then a else b }

  /** `max_steps`, computed alike by `prepare_flow_run` and the in-process executor. */
  function MaxSteps(plan: Plan, limit: nat): nat {
    var edgeCount := if |plan.edges| == 0 then 1 else |plan.edges|;
    Max(|plan.nodes| + edgeCount + 2, limit * Max(|Sources(plan.edges)|, 1) + 2)
  }

  // ----- The in-process engine -----

  datatype End = Completed | Waiting | Failed(reason: Reason)

  /** How a run ended: after how many steps, on which node, with which node run and output, along
      which nodes, having followed how many LOOP edges, and in which context. */
  datatype Run = Run(end: End, steps: nat, node: string, nodeRun: Option<string>, data: Data,
                     path: seq<string>, loops: nat, metadata: Data)

  /** The returns inside the loop: the step failed, needs input or was terminal. */
  function Stop(s: Step, node: string, k: nat): Run
    requires !s.kind.StepAdvance?
  {
    var end := match s.kind
      case StepFailed(reason) => Failed(reason)
      case StepNeedsInput => Waiting
      case StepTerminal => Completed;
    Run(end, k + 1, node, s.nodeRun, s.data, [node], 0, s.context.metadata)
  }

  function LoopHops(via: Edge): nat { if via.kind == Loop then 1 else 0 }

  /** A step runner: what `run_step` does at step k in a context and with given counters. */
  type Stepper = (nat, Context, map<string, nat>) -> Step

  function StepperOf(w: World, plan: Plan, limit: nat): Stepper {
    (k, ctx, counters) => RunStep(w, plan, k, ctx, counters, limit)
  }

  /** The loop of `RuntimeExecutor.run` from step k on, with `budget` steps left. */
  function WalkFrom(run: Stepper, budget: nat, k: nat, ctx: Context, counters: map<string, nat>): Run
    decreases budget
  {
    if budget == 0 then Run(Failed(MAX_STEPS_EXCEEDED), k, ctx.node, None, map[], [], 0, ctx.metadata)
    else
      var s := run(k, ctx, counters);
      if !s.kind.StepAdvance? then Stop(s, ctx.node, k)
      else
        var rest := WalkFrom(run, budget - 1, k + 1, s.kind.next, s.counters);
        rest.(path := [ctx.node] + rest.path, loops := LoopHops(s.kind.via) + rest.loops)
  }

  function InProcess(w: World, plan: Plan, limit: nat, start: Context): Run {
    WalkFrom(StepperOf(w, plan, limit), MaxSteps(plan, limit), 0, start, map[])
  }

  /** The loop as the source runs it. */
  method Traverse(run: Stepper, maxSteps: nat, start: Context) returns (r: Run)
    ensures r == WalkFrom(run, maxSteps, 0, start, map[])
  {
    var context, counters := start, map[];
    var path: seq<string>, loops: nat := [], 0;
    ghost var whole := WalkFrom(run, maxSteps, 0, start, map[]);
    assert whole.path == [] + whole.path;
    for k := 0 to maxSteps
      invariant var rest := WalkFrom(run, maxSteps - k, k, context, counters);
                whole == rest.(path := path + rest.path, loops := loops + rest.loops)
    {
      ghost var rest := WalkFrom(run, maxSteps - k, k, context, counters);
      var step := run(k, context, counters);
      if !step.kind.StepAdvance? {
        var stop := Stop(step, context.node, k);
        return stop.(path := path + [context.node], loops := loops);
      }
      assert path + rest.path == (path + [context.node]) + rest.path[1..];
      path, loops := path + [context.node], loops + LoopHops(step.kind.via);
      context, counters := step.kind.next, step.counters;
    }
    assert path == path + [];
    r := Run(Failed(MAX_STEPS_EXCEEDED), maxSteps, context.node, None, map[], path, loops, context.metadata);
  }

  /** `RuntimeExecutor.run`. */
  method Execute(w: World, plan: Plan, limit: nat, start: Context) returns (r: Run)
    ensures r == InProcess(w, plan, limit, start)
  {
    r := Traverse(StepperOf(w, plan, limit), MaxSteps(plan, limit), start);
  }

  /** The terminal writes of the in-process engine. */
  function EndWrites(r: Run): seq<Write> {
    match r.end
    case Completed =>
      CompletedWrites(r.data, r.nodeRun, Some(r.node),
        if "runtime_policy" in r.metadata then Some(r.metadata["runtime_policy"]) else None)
    case Waiting => WaitingWrites(r.data, r.nodeRun)
    case Failed(reason) => FailedWrites(reason)
  }

  // ----- The durable engine -----

  /** What `execute_node` leaves in the database. */
  function Record(db: Db, s: Step): Db {
    db.(graph := if s.saved.Some? then s.saved else db.graph,
        nodeRuns := if s.nodeRun.Some? then db.nodeRuns[s.nodeRun.value := s.data] else db.nodeRuns)
  }

  /** The context `execute_node` builds from the stored graph state. */
  function Reload(g: GraphState, node: string): Context { Context(node, g.state, g.memory, g.metadata, map[]) }

  /** What `execute_node` tells the workflow: control flags, never node data. */
  function OutputOf(s: Step): FlowWorkflow.StepOutput {
    match s.kind
    case StepFailed(reason) =>
      FlowWorkflow.StepOutput(s.nodeRun, FlowWorkflow.ERROR, false, None, s.keys, Some(ReasonValue(reason)))
    case StepNeedsInput => FlowWorkflow.StepOutput(s.nodeRun, FlowWorkflow.NEEDS_INPUT, false, None, [], None)
    case StepTerminal => FlowWorkflow.StepOutput(s.nodeRun, FlowWorkflow.SUCCESS, true, None, [], None)
    case StepAdvance(_, next) => FlowWorkflow.StepOutput(s.nodeRun, FlowWorkflow.SUCCESS, false, Some(next.node), s.keys, None)
  }

  /** `execute_node`: the step runs on the stored graph state and on fresh counters. */
  function ExecuteNode(run: Stepper, k: nat, node: string, db: Db): Step
    requires db.graph.Some?
  {
    run(k, Reload(db.graph.value, node), map[])
  }

  /** The workflow walking with its activities, until it decides an ending. */
  function Durable(run: Stepper, limit: nat, maxSteps: nat, walk: FlowWorkflow.Walk, db: Db): (FlowWorkflow.Walk, Db)
    requires db.graph.Some? && (walk.ending.None? ==> walk.stepIndex < maxSteps)
    decreases if walk.ending.Some? then 0 else maxSteps - walk.stepIndex
  {
    if walk.ending.Some? then (walk, db)
    else
      var s := ExecuteNode(run, walk.stepIndex, walk.current, db);
      Durable(run, limit, maxSteps, FlowWorkflow.Advance(walk, maxSteps, limit, OutputOf(s)), Record(db, s))
  }

  /** The nodes the durable engine executes, in order. */
  function DurablePath(run: Stepper, limit: nat, maxSteps: nat, walk: FlowWorkflow.Walk, db: Db): seq<string>
    requires db.graph.Some? && (walk.ending.None? ==> walk.stepIndex < maxSteps)
    decreases if walk.ending.Some? then 0 else maxSteps - walk.stepIndex
  {
    if walk.ending.Some? then []
    else
      var s := ExecuteNode(run, walk.stepIndex, walk.current, db);
      [walk.current] + DurablePath(run, limit, maxSteps, FlowWorkflow.Advance(walk, maxSteps, limit, OutputOf(s)), Record(db, s))
  }
}
