/** The durable engine mirrors the in-process one: on the same plan and with the same node
    behaviour they execute the same nodes and make the same terminal writes. */
module FlowEquivalence {
  import opened FlowGraph
  import opened GraphCompiler
  import opened FlowActivities
  import opened FlowRuntime
  import FlowWorkflow

  // ----- Counting in the step or in the workflow -----

  /** A durable evaluation answers an in-process one made on the shared counters: it finds the
      same edges and reports the same keys, and where the in-process one raises it raises by
      itself or its keys put the workflow's counters over the limit. */
  ghost predicate Agrees(shared: map<string, nat>, limit: nat, i: Evaluation, d: Evaluation) {
    var counted := FlowWorkflow.Count(shared, d.keys, limit);
    if i.raised then d.raised || counted.1
    else !d.raised && d.matching == i.matching && d.keys == i.keys && counted == (i.counters, false)
  }

  ghost predicate Below(a: map<string, nat>, b: map<string, nat>) {
    forall key :: FlowWorkflow.Get(a, key) <= FlowWorkflow.Get(b, key)
  }

  function Bump(counters: map<string, nat>, key: string): map<string, nat> {
    counters[key := FlowWorkflow.Get(counters, key) + 1]
  }

  /** Evaluating a LOOP edge first counts it. */
  lemma LoopHead(w: World, es: seq<Edge>, node: string, data: Data, limit: nat, counters: map<string, nat>, key: string)
    requires es != [] && es[0].src == node && es[0].kind == Loop && key == EdgeKey(es[0])
    ensures var rest := Evaluate(w, es[1..], node, data, limit, Bump(counters, key));
            Evaluate(w, es, node, data, limit, counters) ==
              if FlowWorkflow.Get(counters, key) + 1 > limit || w.judge(es[0].condition, data) == Unevaluable
              then Evaluation(true, [], [key], Bump(counters, key))
              else Evaluation(rest.raised, (if w.judge(es[0].condition, data) == Holds then [es[0]] else []) + rest.matching,
                              [key] + rest.keys, rest.counters)
  {
  }

  lemma LoopHeadAgrees(w: World, es: seq<Edge>, node: string, data: Data, limit: nat,
                       shared: map<string, nat>, own: map<string, nat>, key: string)
    requires es != [] && es[0].src == node && es[0].kind == Loop && key == EdgeKey(es[0])
    requires FlowWorkflow.Get(own, key) <= FlowWorkflow.Get(shared, key)
    requires Agrees(Bump(shared, key), limit, Evaluate(w, es[1..], node, data, limit, Bump(shared, key)),
                    Evaluate(w, es[1..], node, data, limit, Bump(own, key)))
    ensures Agrees(shared, limit, Evaluate(w, es, node, data, limit, shared), Evaluate(w, es, node, data, limit, own))
  {
    LoopHead(w, es, node, data, limit, shared, key);
    LoopHead(w, es, node, data, limit, own, key);
    hide Evaluate, EdgeKey;
    var rest := Evaluate(w, es[1..], node, data, limit, Bump(own, key));
    assert ([key] + rest.keys)[1..] == rest.keys && [key][1..] == [];
  }

  lemma NormalHeadAgrees(w: World, es: seq<Edge>, node: string, data: Data, limit: nat,
                         shared: map<string, nat>, own: map<string, nat>)
    requires es != [] && (es[0].src != node || es[0].kind == Normal)
    requires Agrees(shared, limit, Evaluate(w, es[1..], node, data, limit, shared), Evaluate(w, es[1..], node, data, limit, own))
    ensures Agrees(shared, limit, Evaluate(w, es, node, data, limit, shared), Evaluate(w, es, node, data, limit, own))
  {
    var rest := Evaluate(w, es[1..], node, data, limit, own);
    assert [] + rest.keys == rest.keys;
  }

  /** The in-process engine counts LOOP edges across steps while it evaluates edges; the durable
      one counts within the step and lets the workflow count across steps. */
  lemma {:induction false} EvaluationsAgree(w: World, es: seq<Edge>, node: string, data: Data, limit: nat,
                                            shared: map<string, nat>, own: map<string, nat>)
    requires Below(own, shared)
    ensures Agrees(shared, limit, Evaluate(w, es, node, data, limit, shared), Evaluate(w, es, node, data, limit, own))
    decreases |es|
  {
    if es != [] {
      if es[0].src != node || es[0].kind == Normal {
        EvaluationsAgree(w, es[1..], node, data, limit, shared, own);
        NormalHeadAgrees(w, es, node, data, limit, shared, own);
      } else {
        var key := EdgeKey(es[0]);
        forall other ensures FlowWorkflow.Get(Bump(own, key), other) <= FlowWorkflow.Get(Bump(shared, key), other) {
          assert FlowWorkflow.Get(own, other) <= FlowWorkflow.Get(shared, other);
        }
        EvaluationsAgree(w, es[1..], node, data, limit, Bump(shared, key), Bump(own, key));
        LoopHeadAgrees(w, es, node, data, limit, shared, own, key);
      }
    }
  }

  // ----- Contexts -----

  /** What both engines show a node: everything but the previous node's raw output and the two
      fallback entries of the metadata. */
  function Visible(ctx: Context): Context {
    ctx.(nodeOutput := map[], metadata := ctx.metadata - {FALLBACK_SOURCE, FALLBACK_REASON})
  }

  /** Node executors that read only what both engines show. */
  ghost predicate ReadsVisible(w: World) {
    forall k, c, c' :: Visible(c) == Visible(c') ==> w.execute(k, c) == w.execute(k, c')
  }

  lemma VisibleMetadata(a: Data, b: Data, key: string, value: string)
    requires a - {FALLBACK_SOURCE, FALLBACK_REASON} == b - {FALLBACK_SOURCE, FALLBACK_REASON}
    requires key != FALLBACK_SOURCE && key != FALLBACK_REASON
    ensures a[key := value] - {FALLBACK_SOURCE, FALLBACK_REASON} == b[key := value] - {FALLBACK_SOURCE, FALLBACK_REASON}
    ensures key in a <==> key in b
    ensures key in a ==> a[key] == b[key]
  {
    var a', b' := a - {FALLBACK_SOURCE, FALLBACK_REASON}, b - {FALLBACK_SOURCE, FALLBACK_REASON};
    assert key in a <==> key in a';
    assert key in b <==> key in b';
    assert key in a ==> a[key] == a'[key];
    assert a[key := value] - {FALLBACK_SOURCE, FALLBACK_REASON} == a'[key := value];
    assert b[key := value] - {FALLBACK_SOURCE, FALLBACK_REASON} == b'[key := value];
  }

  lemma FallbackIsHidden(w: World, plan: Plan, ctx: Context, data: Data, next: string)
    requires ctx.node in plan.nodes
    ensures NextMetadata(w, plan, ctx, data, next) - {FALLBACK_SOURCE, FALLBACK_REASON} == ctx.metadata - {FALLBACK_SOURCE, FALLBACK_REASON}
  {
  }

  // ----- One step in both engines -----

  /** How a durable step answers an in-process one. */
  ghost predicate Mirrors(i: Step, d: Step, counters: map<string, nat>, limit: nat) {
    var counted := FlowWorkflow.Count(counters, d.keys, limit);
    match i.kind
    case StepNeedsInput => d.kind == StepNeedsInput && SameEnd(i, d)
    case StepTerminal => d.kind == StepTerminal && SameEnd(i, d)
    case StepFailed(reason) =>
      if counted.1 then reason == EDGE_EVALUATION_ERROR && (d.kind.StepFailed? || d.kind.StepAdvance?)
      else d.kind == StepFailed(reason)
    case StepAdvance(via, next) =>
      && d.kind.StepAdvance? && d.kind.via == via && counted == (i.counters, false)
      && next.node == via.dst == d.kind.next.node
      && d.saved.Some? && Visible(Reload(d.saved.value, next.node)) == Visible(next)
  }

  ghost predicate SameEnd(i: Step, d: Step) {
    && d.data == i.data && d.keys == [] && d.nodeRun == i.nodeRun && d.nodeRun.Some?
    && d.saved.Some? && Visible(Reload(d.saved.value, i.context.node)).metadata == Visible(i.context).metadata
  }

  lemma VisibleParts(ctx: Context, dctx: Context)
    requires Visible(ctx) == Visible(dctx)
    ensures ctx.node == dctx.node && ctx.state == dctx.state && ctx.memory == dctx.memory
    ensures ctx.metadata - {FALLBACK_SOURCE, FALLBACK_REASON} == dctx.metadata - {FALLBACK_SOURCE, FALLBACK_REASON}
  {
    var v, v' := Visible(ctx), Visible(dctx);
    assert v.node == v'.node && v.state == v'.state && v.memory == v'.memory && v.metadata == v'.metadata;
  }

  /** The edges of a node, tried in both engines. */
  lemma ChoicesMirror(w: World, plan: Plan, ctx: Context, dctx: Context, data: Data, state: State, memory: seq<string>,
                      run: Option<string>, counters: map<string, nat>, limit: nat, i: Evaluation, d: Evaluation)
    requires ctx.metadata - {FALLBACK_SOURCE, FALLBACK_REASON} == dctx.metadata - {FALLBACK_SOURCE, FALLBACK_REASON}
    requires ctx.node in plan.nodes && dctx.node == ctx.node
    requires Agrees(counters, limit, i, d)
    ensures Mirrors(Choose(w, plan, ctx, data, state, memory, run, i), Choose(w, plan, dctx, data, state, memory, run, d), counters, limit)
  {
    if !i.raised && |i.matching| == 1 {
      FallbackIsHidden(w, plan, ctx, data, i.matching[0].dst);
    }
  }

  lemma EndingsMirror(w: World, plan: Plan, k: nat, ctx: Context, dctx: Context, answer: NodeAnswer,
                      counters: map<string, nat>, limit: nat)
    requires Visible(ctx) == Visible(dctx) && ctx.node in plan.nodes && dctx.node == ctx.node && answer.Answer?
    requires answer.needsInput || IsTerminalType(plan.nodes[ctx.node])
    ensures Mirrors(AfterExecution(w, plan, k, ctx, answer, counters, limit),
                    AfterExecution(w, plan, k, dctx, answer, map[], limit), counters, limit)
  {
  }

  lemma BranchesMirror(w: World, plan: Plan, k: nat, ctx: Context, dctx: Context, answer: NodeAnswer,
                       counters: map<string, nat>, limit: nat, i: Evaluation, d: Evaluation)
    requires ctx.node in plan.nodes && dctx.node == ctx.node && dctx.state == ctx.state && dctx.memory == ctx.memory
    requires ctx.metadata - {FALLBACK_SOURCE, FALLBACK_REASON} == dctx.metadata - {FALLBACK_SOURCE, FALLBACK_REASON}
    requires answer.Answer? && !answer.needsInput && !IsTerminalType(plan.nodes[ctx.node])
    requires i == Evaluate(w, Out(plan.edges, ctx.node), ctx.node, answer.data, limit, counters)
    requires d == Evaluate(w, Out(plan.edges, ctx.node), ctx.node, answer.data, limit, map[])
    requires Agrees(counters, limit, i, d)
    ensures Mirrors(AfterExecution(w, plan, k, ctx, answer, counters, limit),
                    AfterExecution(w, plan, k, dctx, answer, map[], limit), counters, limit)
  {
    var memory := if answer.memory.Some? then answer.memory.value else ctx.memory;
    var state, run := NewState(ctx, answer), Some(w.runId(k));
    ChoicesMirror(w, plan, ctx, dctx, answer.data, state, memory, run, counters, limit, i, d);
    assert NewState(dctx, answer) == state;
    assert AfterExecution(w, plan, k, ctx, answer, counters, limit) == Choose(w, plan, ctx, answer.data, state, memory, run, i);
    assert AfterExecution(w, plan, k, dctx, answer, map[], limit) == Choose(w, plan, dctx, answer.data, state, memory, run, d);
  }

  lemma AfterExecutionsMirror(w: World, plan: Plan, k: nat, ctx: Context, dctx: Context, answer: NodeAnswer,
                              counters: map<string, nat>, limit: nat)
    requires Visible(ctx) == Visible(dctx) && ctx.node in plan.nodes && dctx.node == ctx.node && answer.Answer?
    ensures Mirrors(AfterExecution(w, plan, k, ctx, answer, counters, limit),
                    AfterExecution(w, plan, k, dctx, answer, map[], limit), counters, limit)
  {
    if answer.needsInput || IsTerminalType(plan.nodes[ctx.node]) {
      EndingsMirror(w, plan, k, ctx, dctx, answer, counters, limit);
    } else {
      VisibleParts(ctx, dctx);
      var es := Out(plan.edges, ctx.node);
      EvaluationsAgree(w, es, ctx.node, answer.data, limit, counters, map[]);
      BranchesMirror(w, plan, k, ctx, dctx, answer, counters, limit,
                     Evaluate(w, es, ctx.node, answer.data, limit, counters), Evaluate(w, es, ctx.node, answer.data, limit, map[]));
    }
  }

  /** The two contexts stay alike when the node's type is noted in them. */
  lemma TypeNoted(ctx: Context, dctx: Context, nodeType: string)
    requires Visible(ctx) == Visible(dctx)
    ensures var c, c' := ctx.(metadata := ctx.metadata[CURRENT_TYPE := nodeType]), dctx.(metadata := dctx.metadata[CURRENT_TYPE := nodeType]);
            Visible(c) == Visible(c') && c.node == c'.node == ctx.node
  {
    assert ctx.node == Visible(ctx).node == dctx.node;
    assert ctx.state == Visible(ctx).state == dctx.state && ctx.memory == Visible(ctx).memory == dctx.memory;
    assert Visible(ctx).metadata == Visible(dctx).metadata;
    VisibleMetadata(ctx.metadata, dctx.metadata, CURRENT_TYPE, nodeType);
  }

  function Noted(plan: Plan, ctx: Context): Context
    requires ctx.node in plan.nodes
  {
    ctx.(metadata := ctx.metadata[CURRENT_TYPE := plan.nodes[ctx.node]])
  }

  /** Why a step fails before its node has answered, if it does. */
  function FailsWith(w: World, plan: Plan, k: nat, ctx: Context): Option<Reason> {
    if ctx.node !in plan.nodes then Some(NODE_NOT_FOUND)
    else if !w.resolves(plan.nodes[ctx.node]) then Some(UNKNOWN_NODE_TYPE)
    else if !w.constructs(plan.nodes[ctx.node]) || w.execute(k, Noted(plan, ctx)).Raised? then Some(STRUCTURAL_ERROR)
    else None
  }

  lemma StepIs(w: World, plan: Plan, k: nat, ctx: Context, counters: map<string, nat>, limit: nat)
    ensures var s, fails := RunStep(w, plan, k, ctx, counters, limit), FailsWith(w, plan, k, ctx);
            if fails.Some? then s.kind == StepFailed(fails.value) && s.keys == []
            else ctx.node in plan.nodes && w.execute(k, Noted(plan, ctx)).Answer?
                 && s == AfterExecution(w, plan, k, Noted(plan, ctx), w.execute(k, Noted(plan, ctx)), counters, limit)
  {
    hide AfterExecution;
  }

  lemma FailuresMirror(i: Step, d: Step, reason: Reason, counters: map<string, nat>, limit: nat)
    requires i.kind == d.kind == StepFailed(reason) && d.keys == []
    ensures Mirrors(i, d, counters, limit)
  {
  }

  lemma StepsMirror(w: World, plan: Plan, k: nat, ctx: Context, dctx: Context, counters: map<string, nat>, limit: nat)
    requires ReadsVisible(w) && Visible(ctx) == Visible(dctx)
    ensures Mirrors(RunStep(w, plan, k, ctx, counters, limit), RunStep(w, plan, k, dctx, map[], limit), counters, limit)
  {
    assert ctx.node == Visible(ctx).node == dctx.node;
    StepIs(w, plan, k, ctx, counters, limit);
    StepIs(w, plan, k, dctx, map[], limit);
    hide RunStep, AfterExecution, Mirrors;
    if ctx.node in plan.nodes {
      TypeNoted(ctx, dctx, plan.nodes[ctx.node]);
      assert w.execute(k, Noted(plan, ctx)) == w.execute(k, Noted(plan, dctx));
    }
    hide Visible, ReadsVisible;
    var fails := FailsWith(w, plan, k, ctx);
    if fails.Some? {
      FailuresMirror(RunStep(w, plan, k, ctx, counters, limit), RunStep(w, plan, k, dctx, map[], limit), fails.value, counters, limit);
    } else {
      AfterExecutionsMirror(w, plan, k, Noted(plan, ctx), Noted(plan, dctx), w.execute(k, Noted(plan, ctx)), counters, limit);
    }
  }

  // ----- Whole runs -----

  function OutcomeOf(end: End): FlowWorkflow.Outcome {
    match end
    case Completed => FlowWorkflow.COMPLETED
    case Waiting => FlowWorkflow.WAITING
    case Failed(_) => FlowWorkflow.FAILED
  }

  /** The durable run ended as the in-process one did: same outcome after as many steps on the
      same node, and its finalization makes exactly the in-process engine's terminal writes. */
  ghost predicate Concludes(r: Run, walk: FlowWorkflow.Walk, db: Db) {
    && walk.ending.Some? && walk.stepIndex == r.steps
    && walk.ending.value.outcome == OutcomeOf(r.end) && walk.ending.value.lastNode == Some(r.node)
    && OutcomeWrites(db, walk.ending.value) == EndWrites(r)
  }

  lemma PolicyIsVisible(a: Data, b: Data)
    requires a - {FALLBACK_SOURCE, FALLBACK_REASON} == b - {FALLBACK_SOURCE, FALLBACK_REASON}
    ensures "runtime_policy" in a <==> "runtime_policy" in b
    ensures "runtime_policy" in a ==> a["runtime_policy"] == b["runtime_policy"]
  {
    VisibleMetadata(a, b, "runtime_policy", "");
  }

  /** The last step of a run, in both engines. */
  lemma FailureConcludes(i: Step, d: Step, k: nat, node: string, counters: map<string, nat>, limit: nat, db: Db)
    requires i.kind.StepFailed? && Mirrors(i, d, counters, limit)
    ensures Concludes(Stop(i, node, k), FlowWorkflow.OnStep(FlowWorkflow.Walk(k, node, counters, None), limit, OutputOf(d)), Record(db, d))
  {
    ReasonRoundTrip(i.kind.reason);
    var walk := FlowWorkflow.OnStep(FlowWorkflow.Walk(k, node, counters, None), limit, OutputOf(d));
    assert ReasonValue(EDGE_EVALUATION_ERROR) == "EDGE_EVALUATION_ERROR";
    assert walk.ending.Some? && walk.ending.value.reason == Some(ReasonValue(i.kind.reason));
  }

  lemma WaitingConcludes(i: Step, d: Step, k: nat, node: string, counters: map<string, nat>, limit: nat, db: Db)
    requires i.kind.StepNeedsInput? && Mirrors(i, d, counters, limit) && d.nodeRun != Some("")
    ensures Concludes(Stop(i, node, k), FlowWorkflow.OnStep(FlowWorkflow.Walk(k, node, counters, None), limit, OutputOf(d)), Record(db, d))
  {
    assert LastOutput(Record(db, d), d.nodeRun) == i.data;
  }

  lemma TerminalConcludes(i: Step, d: Step, k: nat, node: string, counters: map<string, nat>, limit: nat, db: Db)
    requires i.kind.StepTerminal? && Mirrors(i, d, counters, limit) && d.nodeRun != Some("")
    ensures Concludes(Stop(i, node, k), FlowWorkflow.OnStep(FlowWorkflow.Walk(k, node, counters, None), limit, OutputOf(d)), Record(db, d))
  {
    assert LastOutput(Record(db, d), d.nodeRun) == i.data;
    PolicyIsVisible(d.saved.value.metadata, i.context.metadata);
  }

  lemma StopConcludes(i: Step, d: Step, k: nat, node: string, counters: map<string, nat>, limit: nat, db: Db)
    requires !i.kind.StepAdvance? && Mirrors(i, d, counters, limit) && d.nodeRun != Some("")
    ensures Concludes(Stop(i, node, k), FlowWorkflow.OnStep(FlowWorkflow.Walk(k, node, counters, None), limit, OutputOf(d)), Record(db, d))
  {
    if i.kind.StepFailed? {
      FailureConcludes(i, d, k, node, counters, limit, db);
    } else if i.kind.StepNeedsInput? {
      WaitingConcludes(i, d, k, node, counters, limit, db);
    } else {
      TerminalConcludes(i, d, k, node, counters, limit, db);
    }
  }

  /** A step runner on which the durable step always mirrors the in-process one. */
  ghost predicate Mirrorable(run: Stepper, limit: nat) {
    forall k, ctx, dctx, counters :: Visible(ctx) == Visible(dctx) ==>
      Mirrors(run(k, ctx, counters), run(k, dctx, map[]), counters, limit) && run(k, dctx, map[]).nodeRun != Some("")
  }

  /** Both engines, continued from step k, execute the same nodes and end alike. */
  ghost predicate EndAlike(run: Stepper, limit: nat, maxSteps: nat, k: nat, ctx: Context, counters: map<string, nat>, db: Db)
    requires k <= maxSteps && db.graph.Some?
  {
    var r := WalkFrom(run, maxSteps - k, k, ctx, counters);
    var walk := FlowWorkflow.Settle(FlowWorkflow.Walk(k, ctx.node, counters, None), maxSteps);
    var end := Durable(run, limit, maxSteps, walk, db);
    Concludes(r, end.0, end.1) && DurablePath(run, limit, maxSteps, walk, db) == r.path
  }

  /** A step both engines advance on leads to corresponding states. */
  lemma AdvanceCorresponds(i: Step, d: Step, k: nat, node: string, counters: map<string, nat>, limit: nat, db: Db)
    requires i.kind.StepAdvance? && Mirrors(i, d, counters, limit)
    ensures FlowWorkflow.OnStep(FlowWorkflow.Walk(k, node, counters, None), limit, OutputOf(d))
         == FlowWorkflow.Walk(k + 1, i.kind.next.node, i.counters, None)
    ensures Record(db, d).graph.Some? && Visible(Reload(Record(db, d).graph.value, i.kind.next.node)) == Visible(i.kind.next)
  {
  }

  lemma AdvanceEndsAlike(run: Stepper, limit: nat, maxSteps: nat, k: nat, ctx: Context, counters: map<string, nat>, db: Db, i: Step, d: Step)
    requires k < maxSteps && db.graph.Some?
    requires i == run(k, ctx, counters) && d == ExecuteNode(run, k, ctx.node, db)
    requires i.kind.StepAdvance? && Mirrors(i, d, counters, limit)
    requires Record(db, d).graph.Some? && EndAlike(run, limit, maxSteps, k + 1, i.kind.next, i.counters, Record(db, d))
    ensures EndAlike(run, limit, maxSteps, k, ctx, counters, db)
  {
    AdvanceCorresponds(i, d, k, ctx.node, counters, limit, db);
  }

  lemma StopEndsAlike(run: Stepper, limit: nat, maxSteps: nat, k: nat, ctx: Context, counters: map<string, nat>, db: Db, i: Step, d: Step)
    requires k < maxSteps && db.graph.Some?
    requires i == run(k, ctx, counters) && d == ExecuteNode(run, k, ctx.node, db)
    requires !i.kind.StepAdvance? && Mirrors(i, d, counters, limit) && d.nodeRun != Some("")
    ensures EndAlike(run, limit, maxSteps, k, ctx, counters, db)
  {
    StopConcludes(i, d, k, ctx.node, counters, limit, db);
    var walk := FlowWorkflow.Walk(k, ctx.node, counters, None);
    var after := FlowWorkflow.OnStep(walk, limit, OutputOf(d));
    assert FlowWorkflow.Advance(walk, maxSteps, limit, OutputOf(d)) == after;
    assert Durable(run, limit, maxSteps, after, Record(db, d)) == (after, Record(db, d));
  }

  lemma CutEndsAlike(run: Stepper, limit: nat, maxSteps: nat, ctx: Context, counters: map<string, nat>, db: Db)
    requires db.graph.Some?
    ensures EndAlike(run, limit, maxSteps, maxSteps, ctx, counters, db)
  {
    ReasonRoundTrip(MAX_STEPS_EXCEEDED);
    assert ReasonValue(MAX_STEPS_EXCEEDED) == "MAX_STEPS_EXCEEDED";
  }

  /** From any pair of corresponding states on, both engines end alike. */
  lemma {:induction false} EnginesMirrorFrom(run: Stepper, limit: nat, maxSteps: nat, k: nat,
                                             ctx: Context, counters: map<string, nat>, db: Db)
    requires Mirrorable(run, limit)
    requires k <= maxSteps && db.graph.Some? && Visible(Reload(db.graph.value, ctx.node)) == Visible(ctx)
    ensures EndAlike(run, limit, maxSteps, k, ctx, counters, db)
    decreases maxSteps - k
  {
    if k == maxSteps {
      CutEndsAlike(run, limit, maxSteps, ctx, counters, db);
    } else {
      var i := run(k, ctx, counters);
      var d := ExecuteNode(run, k, ctx.node, db);
      assert Mirrors(i, d, counters, limit) && d.nodeRun != Some("");
      if i.kind.StepAdvance? {
        AdvanceCorresponds(i, d, k, ctx.node, counters, limit, db);
        EnginesMirrorFrom(run, limit, maxSteps, k + 1, i.kind.next, i.counters, Record(db, d));
        AdvanceEndsAlike(run, limit, maxSteps, k, ctx, counters, db, i, d);
      } else {
        StopEndsAlike(run, limit, maxSteps, k, ctx, counters, db, i, d);
      }
    }
  }

  lemma NodeRunIsNamed(w: World, plan: Plan, k: nat, ctx: Context, limit: nat)
    requires forall n :: w.runId(n) != ""
    ensures RunStep(w, plan, k, ctx, map[], limit).nodeRun != Some("")
  {
  }

  lemma WorldIsMirrorable(w: World, plan: Plan, limit: nat)
    requires ReadsVisible(w) && (forall n :: w.runId(n) != "")
    ensures Mirrorable(StepperOf(w, plan, limit), limit)
  {
    var run := StepperOf(w, plan, limit);
    forall k, ctx, dctx, counters: map<string, nat> | Visible(ctx) == Visible(dctx)
      ensures Mirrors(run(k, ctx, counters), run(k, dctx, map[]), counters, limit) && run(k, dctx, map[]).nodeRun != Some("")
    {
      StepsMirror(w, plan, k, ctx, dctx, counters, limit);
      NodeRunIsNamed(w, plan, k, dctx, limit);
    }
  }

  /** A whole turn: `prepare_flow_run` stores the start context, the workflow walks from there,
      and `finalize_flow_run` writes. For every plan and loop limit this executes the nodes the
      in-process engine executes and makes its terminal writes. */
  lemma DurableMirrorsInProcess(w: World, plan: Plan, limit: nat, start: Context, db: Db)
    requires ReadsVisible(w) && (forall n :: w.runId(n) != "")
    requires db.graph == Some(GraphState(start.node, start.state, start.memory, start.metadata))
    ensures var r := InProcess(w, plan, limit, start);
            var maxSteps, run := MaxSteps(plan, limit), StepperOf(w, plan, limit);
            var (end, after) := Durable(run, limit, maxSteps, FlowWorkflow.Begin(start.node, maxSteps), db);
            && Concludes(r, end, after)
            && DurablePath(run, limit, maxSteps, FlowWorkflow.Begin(start.node, maxSteps), db) == r.path
  {
    WorldIsMirrorable(w, plan, limit);
    EnginesMirrorFrom(StepperOf(w, plan, limit), limit, MaxSteps(plan, limit), 0, start, map[], db);
  }

  // ----- What the durable engine does not show its nodes -----

  /** The next node sees the same context in both engines. */
  ghost predicate ContextKept(s: Step)
    requires s.kind.StepAdvance? && s.saved.Some?
  {
    Reload(s.saved.value, s.kind.next.node) == s.kind.next
  }

  lemma ChoiceLoses(w: World, plan: Plan, ctx: Context, data: Data, state: State, memory: seq<string>, run: Option<string>, ev: Evaluation)
    requires ctx.node in plan.nodes && FALLBACK_SOURCE !in ctx.metadata && !ev.raised && |ev.matching| == 1
    ensures var s := Choose(w, plan, ctx, data, state, memory, run, ev);
            var to := ev.matching[0].dst;
            s.kind.StepAdvance? && (ContextKept(s) <==> data == map[] && !(to in plan.nodes && plan.nodes[to] == "HumanFallback"))
  {
    var to := ev.matching[0].dst;
    if to in plan.nodes && plan.nodes[to] == "HumanFallback" {
      assert FALLBACK_SOURCE in NextMetadata(w, plan, ctx, data, to);
    }
  }

  /** After a step that advances, the next node sees the same context in both engines exactly
      when the step produced no output and does not lead to a HumanFallback: the raw output and
      the fallback source and reason are never stored. */
  lemma ContextLostExactly(w: World, plan: Plan, k: nat, ctx: Context, counters: map<string, nat>, limit: nat)
    requires FALLBACK_SOURCE !in ctx.metadata
    requires RunStep(w, plan, k, ctx, counters, limit).kind.StepAdvance?
    ensures var s := RunStep(w, plan, k, ctx, counters, limit);
            var to := s.kind.next.node;
            s.saved.Some? && (ContextKept(s) <==> s.data == map[] && !(to in plan.nodes && plan.nodes[to] == "HumanFallback"))
  {
    var c := ctx.(metadata := ctx.metadata[CURRENT_TYPE := plan.nodes[ctx.node]]);
    var answer := w.execute(k, c);
    var memory := if answer.memory.Some? then answer.memory.value else c.memory;
    var ev := Evaluate(w, Out(plan.edges, c.node), c.node, answer.data, limit, counters);
    assert RunStep(w, plan, k, ctx, counters, limit)
        == Choose(w, plan, c, answer.data, NewState(c, answer), memory, Some(w.runId(k)), ev);
    assert !ev.raised && |ev.matching| == 1;
    ChoiceLoses(w, plan, c, answer.data, NewState(c, answer), memory, Some(w.runId(k)), ev);
  }

  /** `a` leads to the terminal node `b`. */
  function Chain(): Plan {
    Plan("a", map["a" := "ToolExecutor", "b" := "ResponseBuilder"], [Edge("a", "b", Normal, "c")], "h")
  }

  /** A node `b` that insists on the raw output of the node before it. */
  function OutputReader(): World {
    World(_ => true, _ => true,
      (k: nat, c: Context) => if c.node == "b" && c.nodeOutput == map[] then Raised else Answer(false, map["x" := "y"], None, None),
      (_, _) => Holds, (_, _) => "", _ => "r")
  }

  lemma ChainStepA(w: World, plan: Plan, limit: nat, ctx: Context)
    requires w == OutputReader() && plan == Chain() && ctx.node == "a"
    ensures var s := RunStep(w, plan, 0, ctx, map[], limit);
            && s.kind.StepAdvance? && s.kind.next.node == "b" && s.kind.next.nodeOutput == map["x" := "y"]
            && s.keys == [] && s.counters == map[] && s.saved.Some?
  {
    var e := Edge("a", "b", Normal, "c");
    assert plan.edges[1..] == [] && Out(plan.edges, "a") == [e];
    assert [e][1..] == [];
    assert Evaluate(w, [e], "a", map["x" := "y"], limit, map[]) == Evaluation(false, [e], [], map[]);
  }

  lemma ChainStepB(w: World, plan: Plan, limit: nat, ctx: Context)
    requires w == OutputReader() && plan == Chain() && ctx.node == "b"
    ensures var s := RunStep(w, plan, 1, ctx, map[], limit);
            s.kind == (if ctx.nodeOutput == map[] then StepFailed(STRUCTURAL_ERROR) else StepTerminal) && s.keys == []
  {
  }

  lemma TwoStepsInProcess(run: Stepper, budget: nat, start: Context, s: Step, t: Step)
    requires budget >= 2 && s == run(0, start, map[]) && s.kind.StepAdvance? && s.counters == map[]
    requires t == run(1, s.kind.next, map[]) && t.kind == StepTerminal
    ensures WalkFrom(run, budget, 0, start, map[]).end == Completed
  {
    assert WalkFrom(run, budget - 1, 1, s.kind.next, map[]) == Stop(t, s.kind.next.node, 1);
  }

  lemma TwoStepsDurable(run: Stepper, limit: nat, maxSteps: nat, db: Db, s: Step, t: Step)
    requires maxSteps >= 2 && db.graph.Some?
    requires s == ExecuteNode(run, 0, "a", db) && s.kind.StepAdvance? && s.kind.next.node == "b" && s.keys == []
    requires t == ExecuteNode(run, 1, "b", Record(db, s)) && t.kind.StepFailed? && t.keys == []
    ensures var end := Durable(run, limit, maxSteps, FlowWorkflow.Begin("a", maxSteps), db).0;
            end.ending.Some? && end.ending.value.outcome == FlowWorkflow.FAILED
  {
    var walk0, walk1 := FlowWorkflow.Walk(0, "a", map[], None), FlowWorkflow.Walk(1, "b", map[], None);
    assert FlowWorkflow.Begin("a", maxSteps) == walk0;
    assert FlowWorkflow.Advance(walk0, maxSteps, limit, OutputOf(s)) == FlowWorkflow.Settle(walk1, maxSteps);
    if maxSteps > 1 {
      var walk2 := FlowWorkflow.Advance(walk1, maxSteps, limit, OutputOf(t));
      assert walk2.ending.Some? && walk2.ending.value.outcome == FlowWorkflow.FAILED;
      assert Durable(run, limit, maxSteps, walk2, Record(Record(db, s), t)).0 == walk2;
      assert Durable(run, limit, maxSteps, walk1, Record(db, s)).0 == walk2;
    }
  }

  /** Reading more than both engines show makes them disagree: in process this run completes,
      durably it fails on its second node. */
  lemma EnginesCanDisagree(w: World, plan: Plan, limit: nat, start: Context, db: Db)
    requires w == OutputReader() && plan == Chain() && start.node == "a"
    requires db.graph == Some(GraphState(start.node, start.state, start.memory, start.metadata))
    ensures InProcess(w, plan, limit, start).end == Completed
    ensures var run, maxSteps := StepperOf(w, plan, limit), MaxSteps(plan, limit);
            var end := Durable(run, limit, maxSteps, FlowWorkflow.Begin("a", maxSteps), db).0;
            end.ending.Some? && end.ending.value.outcome == FlowWorkflow.FAILED
  {
    var run, maxSteps := StepperOf(w, plan, limit), MaxSteps(plan, limit);
    ChainStepA(w, plan, limit, start);
    var s := run(0, start, map[]);
    ChainStepB(w, plan, limit, s.kind.next);
    assert s.kind.next.nodeOutput != map[] by { assert "x" in s.kind.next.nodeOutput; }
    TwoStepsInProcess(run, maxSteps, start, s, run(1, s.kind.next, map[]));

    ChainStepA(w, plan, limit, Reload(db.graph.value, "a"));
    var s' := ExecuteNode(run, 0, "a", db);
    ChainStepB(w, plan, limit, Reload(Record(db, s').graph.value, "b"));
    TwoStepsDurable(run, limit, maxSteps, db, s', ExecuteNode(run, 1, "b", Record(db, s')));
  }
}
