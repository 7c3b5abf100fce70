/** How long a run can be: on every plan the compiler accepts, the number of steps is bounded
    by the LOOP edges followed, so the step limit never cuts a run short before the loop
    limit is used up. */
module FlowBounds {
  import opened FlowGraph
  import opened GraphCompiler
  import opened FlowActivities
  import opened FlowRuntime
  import FlowWorkflow

  // ----- Layers of a plan -----

  /** How many nodes with outgoing edges are listed up to and including `node`. */
  function Height(done: seq<string>, sources: set<string>, node: string): nat {
    if done == [] then 0
    else (if done[0] in sources then 1 else 0) + (if done[0] == node then 0 else Height(done[1..], sources, node))
  }

  lemma {:induction false} HeightIgnores(done: seq<string>, sources: set<string>, node: string, other: string)
    requires other !in done
    ensures Height(done, sources, node) == Height(done, sources - {other}, node)
  {
    if done != [] { HeightIgnores(done[1..], sources, node, other); }
  }

  lemma {:induction false} HeightBounded(done: seq<string>, sources: set<string>, node: string)
    requires Distinct(done)
    ensures Height(done, sources, node) <= |sources|
    decreases |done|
  {
    if done != [] {
      var rest := done[1..];
      assert Distinct(rest);
      assert done[0] !in rest;
      HeightIgnores(rest, sources, node, done[0]);
      HeightBounded(rest, sources - {done[0]}, node);
    }
  }

  lemma {:induction false} HeightPositive(done: seq<string>, sources: set<string>, node: string)
    requires node in done && node in sources
    ensures Height(done, sources, node) >= 1
  {
    if done[0] != node { HeightPositive(done[1..], sources, node); }
  }

  lemma {:induction false} HeightDrops(done: seq<string>, sources: set<string>, i: nat, lower: string)
    requires i < |done| && done[i] in sources && done[i] !in done[..i] && lower in done[..i]
    ensures Height(done, sources, lower) < Height(done, sources, done[i])
  {
    var node := done[i];
    assert done[0] == done[..i][0] && done[0] != node;
    assert done[1..][i-1] == node;
    if done[0] == lower {
      HeightPositive(done[1..], sources, node);
    } else {
      assert done[1..][..i-1] == done[..i][1..];
      HeightDrops(done[1..], sources, i - 1, lower);
    }
  }

  /** The nodes of the plan with outgoing edges. */
  function Branching(plan: Plan): set<string> { Sources(plan.edges) * plan.nodes.Keys }

  /** Counting these nodes, every step that follows an edge uses up height; without slack, so does every
      step. */
  ghost predicate Measures(plan: Plan, done: seq<string>, counted: set<string>, slack: nat) {
    && Layered(plan, done) && Branching(plan) <= counted && (slack == 0 ==> plan.nodes.Keys <= counted)
    && forall e :: e in plan.edges && e.src in plan.nodes ==> e.dst in plan.nodes
  }

  /** NORMAL edges lead down. */
  lemma NormalEdgeDescends(plan: Plan, done: seq<string>, counted: set<string>, slack: nat, e: Edge)
    requires Measures(plan, done, counted, slack) && e in plan.edges && e.kind == Normal && e.src in plan.nodes
    ensures Height(done, counted, e.dst) < Height(done, counted, e.src)
  {
    assert e.src in Branching(plan);
    var i := LeastIndex(done, e.src);
    assert e.dst in done[..i];
    HeightDrops(done, counted, i, e.dst);
  }

  // ----- Steps follow edges -----

  lemma {:induction false} MatchingAreEdges(w: World, es: seq<Edge>, node: string, data: Data, limit: nat, counters: map<string, nat>)
    ensures forall e :: e in Evaluate(w, es, node, data, limit, counters).matching ==> e in es && e.src == node
    decreases |es|
  {
    if es != [] {
      var e := es[0];
      MatchingAreEdges(w, es[1..], node, data, limit, counters);
      MatchingAreEdges(w, es[1..], node, data, limit, counters[EdgeKey(e) := FlowWorkflow.Get(counters, EdgeKey(e)) + 1]);
    }
  }

  /** The step follows an edge of the plan out of a node of the plan, or stops for a reason
      other than running out of steps. */
  ghost predicate StepFollows(s: Step, plan: Plan, node: string) {
    && (s.kind.StepAdvance? ==> node in plan.nodes && s.kind.via in plan.edges
                                && s.kind.via.src == node && s.kind.next.node == s.kind.via.dst)
    && s.kind != StepFailed(MAX_STEPS_EXCEEDED)
  }

  lemma ChoiceFollows(w: World, plan: Plan, ctx: Context, data: Data, state: State, memory: seq<string>, run: Option<string>, ev: Evaluation)
    requires ctx.node in plan.nodes && forall e :: e in ev.matching ==> e in plan.edges && e.src == ctx.node
    ensures StepFollows(Choose(w, plan, ctx, data, state, memory, run, ev), plan, ctx.node)
  {
  }

  lemma ExecutionFollows(w: World, plan: Plan, k: nat, ctx: Context, answer: NodeAnswer, counters: map<string, nat>, limit: nat)
    requires ctx.node in plan.nodes && answer.Answer?
    ensures StepFollows(AfterExecution(w, plan, k, ctx, answer, counters, limit), plan, ctx.node)
  {
    var es := Out(plan.edges, ctx.node);
    MatchingAreEdges(w, es, ctx.node, answer.data, limit, counters);
    hide Evaluate, Choose, Out, IsTerminalType;
    var memory := if answer.memory.Some? then answer.memory.value else ctx.memory;
    ChoiceFollows(w, plan, ctx, answer.data, NewState(ctx, answer), memory, Some(w.runId(k)),
                  Evaluate(w, es, ctx.node, answer.data, limit, counters));
  }

  lemma StepFollowsPlan(w: World, plan: Plan, k: nat, ctx: Context, counters: map<string, nat>, limit: nat)
    ensures StepFollows(RunStep(w, plan, k, ctx, counters, limit), plan, ctx.node)
  {
    hide AfterExecution;
    if ctx.node in plan.nodes {
      var c := ctx.(metadata := ctx.metadata[CURRENT_TYPE := plan.nodes[ctx.node]]);
      var answer := w.execute(k, c);
      if answer.Answer? { ExecutionFollows(w, plan, k, c, answer, counters, limit); }
    }
  }

  // ----- The bound -----

  /** A step runner that follows the edges of the plan. */
  ghost predicate Follows(run: Stepper, plan: Plan) {
    forall k, ctx, counters :: StepFollows(run(k, ctx, counters), plan, ctx.node)
  }

  lemma WorldFollows(w: World, plan: Plan, limit: nat)
    ensures Follows(StepperOf(w, plan, limit), plan)
  {
    var run := StepperOf(w, plan, limit);
    forall k, ctx, counters: map<string, nat> ensures StepFollows(run(k, ctx, counters), plan, ctx.node) {
      StepFollowsPlan(w, plan, k, ctx, counters, limit);
    }
  }

  /** Steps a run may have made once it has followed so many LOOP edges: a full descent for each,
      and the first one. */
  function Allowance(sources: nat, loops: nat): nat { sources * (loops + 1) }

  lemma AllowanceGrows(sources: nat, loops: nat)
    ensures Allowance(sources, loops + 1) == Allowance(sources, loops) + sources
  {
  }

  lemma AllowancePositive(sources: nat, loops: nat)
    requires sources >= 1
    ensures Allowance(sources, loops) >= 1
  {
  }

  /** The steps made and the height left at a node are within the allowance. */
  ghost predicate Affords(plan: Plan, done: seq<string>, counted: set<string>, slack: nat, k: nat, node: string, loops: nat) {
    && k + Height(done, counted, node) <= Allowance(|counted|, loops)
    && (slack == 0 ==> node in plan.nodes)
  }

  /** One step uses up height, or follows a LOOP edge. */
  lemma StepDescends(plan: Plan, done: seq<string>, counted: set<string>, slack: nat, s: Step, node: string, k: nat, loops: nat)
    requires Measures(plan, done, counted, slack) && StepFollows(s, plan, node) && s.kind.StepAdvance?
    requires Affords(plan, done, counted, slack, k, node, loops)
    ensures Affords(plan, done, counted, slack, k + 1, s.kind.next.node, loops + LoopHops(s.kind.via))
  {
    hide Allowance;
    assert node in Branching(plan) && node in done;
    HeightPositive(done, counted, node);
    if s.kind.via.kind == Normal {
      NormalEdgeDescends(plan, done, counted, slack, s.kind.via);
    } else {
      HeightBounded(done, counted, s.kind.next.node);
      AllowanceGrows(|counted|, loops);
    }
  }

  /** One more step is affordable, up to the slack. */
  lemma LastStepAffordable(plan: Plan, done: seq<string>, counted: set<string>, slack: nat, k: nat, node: string, loops: nat)
    requires Measures(plan, done, counted, slack) && Affords(plan, done, counted, slack, k, node, loops)
    ensures k + 1 <= Allowance(|counted|, loops) + slack
  {
    hide Allowance;
    if slack == 0 { HeightPositive(done, counted, node); }
  }

  /** The steps made and the height left never exceed the allowance. */
  lemma {:induction false} StepsBoundedFrom(run: Stepper, plan: Plan, done: seq<string>, counted: set<string>, slack: nat,
                                            budget: nat, k: nat, ctx: Context, counters: map<string, nat>, loops: nat)
    requires Follows(run, plan) && Measures(plan, done, counted, slack)
    requires Affords(plan, done, counted, slack, k, ctx.node, loops)
    ensures var r := WalkFrom(run, budget, k, ctx, counters);
            && r.steps <= Allowance(|counted|, loops + r.loops) + slack
            && (r.end == Failed(MAX_STEPS_EXCEEDED) ==> r.steps == k + budget <= Allowance(|counted|, loops + r.loops))
    decreases budget
  {
    hide Allowance, Height, Measures;
    if budget > 0 {
      var s := run(k, ctx, counters);
      assert StepFollows(s, plan, ctx.node);
      LastStepAffordable(plan, done, counted, slack, k, ctx.node, loops);
      if s.kind.StepAdvance? {
        StepDescends(plan, done, counted, slack, s, ctx.node, k, loops);
        StepsBoundedFrom(run, plan, done, counted, slack, budget - 1, k + 1, s.kind.next, s.counters, loops + LoopHops(s.kind.via));
      }
    }
  }

  lemma SoundMeasures(plan: Plan) returns (done: seq<string>)
    requires Sound(plan)
    ensures Measures(plan, done, Branching(plan), 1) && Measures(plan, done, plan.nodes.Keys, 0) && |plan.nodes.Keys| >= 1
  {
    done :| Layered(plan, done);
    assert plan.startNode in plan.nodes.Keys;
  }

  lemma AffordsStart(plan: Plan, done: seq<string>, counted: set<string>, slack: nat, node: string)
    requires Measures(plan, done, counted, slack) && (slack == 0 ==> node in plan.nodes)
    ensures Affords(plan, done, counted, slack, 0, node, 0)
  {
    HeightBounded(done, counted, node);
  }

  lemma BoundedByBranching(run: Stepper, plan: Plan, done: seq<string>, maxSteps: nat, start: Context)
    requires Follows(run, plan) && Measures(plan, done, Branching(plan), 1)
    ensures var r := WalkFrom(run, maxSteps, 0, start, map[]);
            && r.steps <= Allowance(|Branching(plan)|, r.loops) + 1
            && (r.end == Failed(MAX_STEPS_EXCEEDED) ==> maxSteps <= Allowance(|Branching(plan)|, r.loops))
  {
    hide Follows, Height, Measures, Affords, Branching, WalkFrom, Allowance;
    AffordsStart(plan, done, Branching(plan), 1, start.node);
    StepsBoundedFrom(run, plan, done, Branching(plan), 1, maxSteps, 0, start, map[], 0);
  }

  lemma BoundedByNodes(run: Stepper, plan: Plan, done: seq<string>, maxSteps: nat, start: Context)
    requires Follows(run, plan) && Measures(plan, done, plan.nodes.Keys, 0) && |plan.nodes.Keys| >= 1
    ensures var r := WalkFrom(run, maxSteps, 0, start, map[]); r.steps <= Allowance(|plan.nodes.Keys|, r.loops)
  {
    hide Follows, Height, Measures, Affords, WalkFrom, Allowance;
    if start.node in plan.nodes {
      AffordsStart(plan, done, plan.nodes.Keys, 0, start.node);
      StepsBoundedFrom(run, plan, done, plan.nodes.Keys, 0, maxSteps, 0, start, map[], 0);
    } else {
      StrayStartsStop(run, plan, maxSteps, start);
      AllowancePositive(|plan.nodes.Keys|, WalkFrom(run, maxSteps, 0, start, map[]).loops);
    }
  }

  /** A walk along a sound plan makes at most B * (T + 1) + 1 steps and at most N * (T + 1), B of the plan's
      N nodes having outgoing edges and T being the LOOP edges followed. */
  lemma SoundRunsAreBounded(run: Stepper, plan: Plan, maxSteps: nat, start: Context)
    requires Sound(plan) && Follows(run, plan)
    ensures var r := WalkFrom(run, maxSteps, 0, start, map[]);
            && r.steps <= Allowance(|Branching(plan)|, r.loops) + 1
            && r.steps <= Allowance(|plan.nodes.Keys|, r.loops)
            && (r.end == Failed(MAX_STEPS_EXCEEDED) ==> maxSteps <= Allowance(|Branching(plan)|, r.loops))
  {
    var done := SoundMeasures(plan);
    hide Follows, Measures, Branching, WalkFrom, Allowance, Sound;
    BoundedByBranching(run, plan, done, maxSteps, start);
    BoundedByNodes(run, plan, done, maxSteps, start);
  }

  /** A walk that starts outside the plan ends at once. */
  lemma StrayStartsStop(run: Stepper, plan: Plan, maxSteps: nat, start: Context)
    requires Follows(run, plan) && start.node !in plan.nodes
    ensures WalkFrom(run, maxSteps, 0, start, map[]).steps <= 1
  {
    assert StepFollows(run(0, start, map[]), plan, start.node);
  }

  /** The step limit exceeds the allowance of every smaller number of LOOP edges, and of none at all even when
      no LOOP edge may be met. */
  lemma StepLimitCovers(plan: Plan, limit: nat, loops: nat)
    requires (loops < limit || loops == 0) && plan.edges != []
    ensures Allowance(|Branching(plan)|, loops) < MaxSteps(plan, limit)
  {
    var branching, sources := Branching(plan), Sources(plan.edges);
    assert plan.edges[0] in plan.edges && plan.edges[0].src in sources;
    SubsetSize(branching, sources);
    SubsetSize(branching, plan.nodes.Keys);
    assert |plan.nodes.Keys| == |plan.nodes|;
    hide Branching, Sources;
    CoverArithmetic(|branching|, |sources|, loops, limit);
    hide Allowance;
  }

  lemma CoverArithmetic(branching: nat, sources: nat, loops: nat, limit: nat)
    requires branching <= sources
    ensures loops < limit ==> Allowance(branching, loops) <= limit * sources
    ensures loops == 0 ==> Allowance(branching, loops) == branching
  {
    if loops < limit { MulMonotone(branching, loops + 1, sources, limit); }
  }

  lemma MulMonotone(a: nat, b: nat, a': nat, b': nat)
    requires a <= a' && b <= b'
    ensures a * b <= b' * a'
  {
  }

  /** For T LOOP edges followed, a run takes at most B * (T + 1) + 1 steps and at most N * (T + 1), B of the
      plan's N nodes having outgoing edges, and ends in MAX_STEPS_EXCEEDED only when T is at least `limit` and
      not zero. */
  ghost predicate Bounded(plan: Plan, limit: nat, r: Run) {
    && r.steps <= Allowance(|Branching(plan)|, r.loops) + 1
    && r.steps <= Allowance(|plan.nodes|, r.loops)
    && (r.end == Failed(MAX_STEPS_EXCEEDED) ==> r.loops >= limit && r.loops > 0)
  }

  lemma SoundIsBounded(w: World, plan: Plan, limit: nat, start: Context)
    requires Sound(plan)
    ensures Bounded(plan, limit, InProcess(w, plan, limit, start))
  {
    assert plan.edges != [];
    hide Follows, WalkFrom, StepperOf, MaxSteps, Branching, Allowance, Sound;
    assert |plan.nodes.Keys| == |plan.nodes|;
    WorldFollows(w, plan, limit);
    SoundRunsAreBounded(StepperOf(w, plan, limit), plan, MaxSteps(plan, limit), start);
    var r := InProcess(w, plan, limit, start);
    if r.loops < limit || r.loops == 0 { StepLimitCovers(plan, limit, r.loops); }
  }

  /** Every run of a compiled plan is bounded. */
  lemma RunsAreBounded(s: Snapshot, hash: string, w: World, limit: nat, start: Context)
    requires Outcome(s, hash).Ok?
    ensures Bounded(Outcome(s, hash).plan, limit, InProcess(w, Outcome(s, hash).plan, limit, start))
  {
    hide Outcome, Sound, Bounded, InProcess;
    CompiledIsSound(s, hash);
    SoundIsBounded(w, Outcome(s, hash).plan, limit, start);
  }
}
