/** What one node step does, in terms of the node's answer and of the plan's edges alone: which kind of
    step it is, what it saves and what it hands to the next node. */
module FlowStep {
  import opened FlowGraph
  import opened GraphCompiler
  import opened FlowActivities
  import opened FlowRuntime
  import W = FlowWorkflow

  // ----- The edges out of a node that hold -----

  predicate HoldsAt(w: World, edges: seq<Edge>, node: string, data: Data, i: nat) {
    i < |edges| && edges[i].src == node && w.judge(edges[i].condition, data) == Holds
  }

  ghost predicate NoneHolds(w: World, edges: seq<Edge>, node: string, data: Data) {
    forall i: nat :: !HoldsAt(w, edges, node, data, i)
  }

  ghost predicate OnlyHolds(w: World, edges: seq<Edge>, node: string, data: Data, i: nat) {
    HoldsAt(w, edges, node, data, i) && forall j: nat :: HoldsAt(w, edges, node, data, j) ==> j == i
  }

  ghost predicate SeveralHold(w: World, edges: seq<Edge>, node: string, data: Data) {
    exists i: nat, j: nat :: i < j && HoldsAt(w, edges, node, data, i) && HoldsAt(w, edges, node, data, j)
  }

  lemma SeveralCons(w: World, edges: seq<Edge>, node: string, data: Data)
    requires edges != []
    ensures var rest := edges[1..];
            SeveralHold(w, edges, node, data) <==>
              if HoldsAt(w, edges, node, data, 0) then !NoneHolds(w, rest, node, data) else SeveralHold(w, rest, node, data)
  {
    var rest := edges[1..];
    forall i: nat ensures HoldsAt(w, edges, node, data, i + 1) <==> HoldsAt(w, rest, node, data, i) {}
    hide HoldsAt;
    if i: nat, j: nat :| i < j && HoldsAt(w, edges, node, data, i) && HoldsAt(w, edges, node, data, j) {
      assert HoldsAt(w, rest, node, data, j - 1);
      if i > 0 { assert HoldsAt(w, rest, node, data, i - 1); }
    }
    if i: nat :| HoldsAt(w, rest, node, data, i) { assert HoldsAt(w, edges, node, data, i + 1); }
    if i: nat, j: nat :| i < j && HoldsAt(w, rest, node, data, i) && HoldsAt(w, rest, node, data, j) {
      assert HoldsAt(w, edges, node, data, i + 1) && HoldsAt(w, edges, node, data, j + 1);
    }
  }

  lemma NoneCons(w: World, edges: seq<Edge>, node: string, data: Data)
    requires edges != []
    ensures NoneHolds(w, edges, node, data) <==> !HoldsAt(w, edges, node, data, 0) && NoneHolds(w, edges[1..], node, data)
  {
    var rest := edges[1..];
    forall i: nat ensures HoldsAt(w, edges, node, data, i + 1) <==> HoldsAt(w, rest, node, data, i) {}
    hide HoldsAt;
    if i: nat :| HoldsAt(w, rest, node, data, i) { assert HoldsAt(w, edges, node, data, i + 1); }
    if i: nat :| HoldsAt(w, edges, node, data, i) && i > 0 { assert HoldsAt(w, rest, node, data, i - 1); }
  }

  /** The list of the edges that hold, against their positions. */
  lemma {:induction false} HoldingIff(w: World, edges: seq<Edge>, node: string, data: Data) returns (first: nat)
    ensures var es := Holding(w, edges, node, data);
            && (es == [] <==> NoneHolds(w, edges, node, data))
            && (es != [] ==> HoldsAt(w, edges, node, data, first) && es[0] == edges[first])
            && (|es| > 1 <==> SeveralHold(w, edges, node, data))
    decreases |edges|
  {
    first := 0;
    if edges != [] {
      var n := HoldingIff(w, edges[1..], node, data);
      SeveralCons(w, edges, node, data);
      NoneCons(w, edges, node, data);
      hide NoneHolds, SeveralHold;
      if !HoldsAt(w, edges, node, data, 0) { first := n + 1; }
    }
  }

  /** Exactly one edge holds, or none, or several. */
  lemma OneOfThree(w: World, edges: seq<Edge>, node: string, data: Data)
    ensures var es := Holding(w, edges, node, data);
            |es| == 1 <==> exists i: nat :: OnlyHolds(w, edges, node, data, i)
    ensures forall i: nat :: OnlyHolds(w, edges, node, data, i) ==> i < |edges| && Holding(w, edges, node, data) == [edges[i]]
  {
    var first := HoldingIff(w, edges, node, data);
    forall i: nat | HoldsAt(w, edges, node, data, i) ensures i < |edges| {}
    hide HoldsAt, Holding;
    var es := Holding(w, edges, node, data);
    if |es| == 1 {
      forall j: nat | HoldsAt(w, edges, node, data, j) ensures j == first {}
      assert OnlyHolds(w, edges, node, data, first);
    }
    forall i: nat | OnlyHolds(w, edges, node, data, i) ensures i < |edges| && |es| == 1 && es == [edges[i]] {
      assert !SeveralHold(w, edges, node, data);
      assert es != [] && |es| == 1 && first == i;
    }
  }

  // ----- The LOOP edges out of a node -----

  predicate LoopAt(edges: seq<Edge>, node: string, to: string, i: nat) {
    i < |edges| && edges[i].src == node && edges[i].dst == to && edges[i].kind == Loop
  }

  ghost function LoopPositions(edges: seq<Edge>, node: string, to: string): set<nat> {
    set i: nat | 0 <= i < |edges| && LoopAt(edges, node, to, i)
  }

  /** How many LOOP edges lead from one node to another. */
  ghost function LoopsTo(edges: seq<Edge>, node: string, to: string): nat { |LoopPositions(edges, node, to)| }

  /** Counting these LOOP edges would exceed the limit. */
  ghost predicate Overloops(edges: seq<Edge>, node: string, limit: nat, counters: map<string, nat>) {
    exists to :: LoopsTo(edges, node, to) > 0 && W.Get(counters, node + "->" + to) + LoopsTo(edges, node, to) > limit
  }

  lemma LoopsToCons(edges: seq<Edge>, node: string, to: string)
    requires edges != []
    ensures LoopsTo(edges, node, to) == (if LoopAt(edges, node, to, 0) then 1 else 0) + LoopsTo(edges[1..], node, to)
  {
    var here, later := LoopPositions(edges, node, to), LoopPositions(edges[1..], node, to);
    forall i: nat ensures i in later <==> i + 1 in here - {0} {}
    assert 0 in here <==> LoopAt(edges, node, to, 0);
    hide LoopPositions, LoopAt;
    Shifted(later, here - {0});
  }

  lemma {:induction false} Shifted(a: set<nat>, b: set<nat>)
    requires forall i: nat :: i in a <==> i + 1 in b
    requires 0 !in b
    ensures |a| == |b|
    decreases |a|
  {
    forall i: nat | i in b ensures i > 0 && i - 1 in a {}
    if a == {} {
      assert b == {};
    } else {
      var x :| x in a;
      Shifted(a - {x}, b - {x + 1});
    }
  }

  lemma SameTarget(node: string, to: string, dst: string)
    ensures node + "->" + to == node + "->" + dst <==> to == dst
  {
    if node + "->" + to == node + "->" + dst {
      assert (node + "->" + to)[|node| + 2..] == to && (node + "->" + dst)[|node| + 2..] == dst;
    }
  }

  /** The reported keys, against the LOOP edges. */
  lemma {:induction false} KeysAreLoops(edges: seq<Edge>, node: string, to: string)
    ensures multiset(LoopKeys(edges, node))[node + "->" + to] == LoopsTo(edges, node, to)
    decreases |edges|
  {
    if edges != [] {
      KeysAreLoops(edges[1..], node, to);
      LoopsToCons(edges, node, to);
      SameTarget(node, to, edges[0].dst);
    }
  }

  lemma {:induction false} KeysHaveTargets(edges: seq<Edge>, node: string, key: string)
    ensures key in LoopKeys(edges, node) ==> exists to :: key == node + "->" + to
    decreases |edges|
  {
    if edges != [] {
      KeysHaveTargets(edges[1..], node, key);
      if edges[0].src == node { assert EdgeKey(edges[0]) == node + "->" + edges[0].dst; }
    }
  }

  lemma OverloopsIff(edges: seq<Edge>, node: string, limit: nat, counters: map<string, nat>)
    ensures W.Count(counters, LoopKeys(edges, node), limit).1 <==> Overloops(edges, node, limit, counters)
  {
    var keys := LoopKeys(edges, node);
    W.CountExceedsIff(counters, keys, limit);
    hide LoopKeys, LoopsTo, W.Count, W.Get;
    if key :| key in keys && W.Get(counters, key) + multiset(keys)[key] > limit {
      KeysHaveTargets(edges, node, key);
      var to :| key == node + "->" + to;
      KeysAreLoops(edges, node, to);
    }
    if to :| LoopsTo(edges, node, to) > 0 && W.Get(counters, node + "->" + to) + LoopsTo(edges, node, to) > limit {
      KeysAreLoops(edges, node, to);
      assert node + "->" + to in keys;
    }
  }

  // ----- The edges the runner looks at -----

  lemma {:induction false} OutIsEnough(w: World, edges: seq<Edge>, node: string, data: Data)
    ensures Holding(w, Out(edges, node), node, data) == Holding(w, edges, node, data)
    ensures LoopKeys(Out(edges, node), node) == LoopKeys(edges, node)
    ensures AllEvaluable(w, Out(edges, node), node, data) <==> AllEvaluable(w, edges, node, data)
    decreases |edges|
  {
    if edges != [] {
      OutIsEnough(w, edges[1..], node, data);
      var out := Out(edges, node);
      if edges[0].src == node { assert out[1..] == Out(edges[1..], node); }
    }
  }

  /** The counters have grown by the reported keys. */
  ghost predicate Counted(before: map<string, nat>, keys: seq<string>, after: map<string, nat>) {
    forall key :: W.Get(after, key) == W.Get(before, key) + multiset(keys)[key]
  }

  lemma CountedOne(before: map<string, nat>, key: string, keys: seq<string>, after: map<string, nat>)
    requires Counted(before[key := W.Get(before, key) + 1], keys, after)
    ensures Counted(before, [key] + keys, after)
  {
  }

  lemma {:induction false} EvaluationCounts(w: World, es: seq<Edge>, node: string, data: Data, limit: nat, counters: map<string, nat>)
    ensures var e := Evaluate(w, es, node, data, limit, counters); Counted(counters, e.keys, e.counters)
    decreases |es|
  {
    CountedNone(counters);
    hide Counted, W.Get, EdgeKey;
    if es != [] {
      var e, rest := es[0], es[1..];
      EvaluationCounts(w, rest, node, data, limit, counters);
      if e.src == node && e.kind == Loop {
        var key := EdgeKey(e);
        var bumped := counters[key := W.Get(counters, key) + 1];
        EvaluationCounts(w, rest, node, data, limit, bumped);
        CountedNone(bumped);
        assert [key] + [] == [key];
        CountedOne(counters, key, [], bumped);
        var more := Evaluate(w, rest, node, data, limit, bumped);
        CountedOne(counters, key, more.keys, more.counters);
      } else {
        assert Evaluate(w, rest, node, data, limit, counters).keys == [] + Evaluate(w, rest, node, data, limit, counters).keys;
      }
    }
  }

  lemma CountedNone(counters: map<string, nat>)
    ensures Counted(counters, [], counters)
  {
  }

  // ----- A step -----

  /** The context the node is executed in. */
  function Offered(plan: Plan, given: Context): Context
    requires given.node in plan.nodes
  {
    Context(given.node, given.state, given.memory, given.metadata[CURRENT_TYPE := plan.nodes[given.node]], given.nodeOutput)
  }

  /** The node is in the plan and could be constructed. */
  predicate Runs(w: World, plan: Plan, given: Context) {
    given.node in plan.nodes && w.resolves(plan.nodes[given.node]) && w.constructs(plan.nodes[given.node])
  }

  predicate Answers(w: World, plan: Plan, k: nat, given: Context) {
    Runs(w, plan, given) && w.execute(k, Offered(plan, given)).Answer?
  }

  /** The node answered and its outgoing edges are to decide. */
  predicate Branches(w: World, plan: Plan, k: nat, given: Context) {
    && Answers(w, plan, k, given) && !w.execute(k, Offered(plan, given)).needsInput
    && !IsTerminalType(plan.nodes[given.node])
  }

  /** Some condition cannot be evaluated, or too many LOOP edges have been met. */
  ghost predicate Unusable(w: World, edges: seq<Edge>, node: string, data: Data, limit: nat, counters: map<string, nat>) {
    || (exists e :: e in edges && e.src == node && w.judge(e.condition, data) == Unevaluable)
    || Overloops(edges, node, limit, counters)
  }

  /** When a step fails before the node has answered, and why. */
  ghost predicate FailsEarly(w: World, plan: Plan, k: nat, given: Context, kind: StepKind) {
    && (kind == StepFailed(NODE_NOT_FOUND) <==> given.node !in plan.nodes)
    && (kind == StepFailed(UNKNOWN_NODE_TYPE) <==> given.node in plan.nodes && !w.resolves(plan.nodes[given.node]))
    && (kind == StepFailed(STRUCTURAL_ERROR) <==>
          given.node in plan.nodes && w.resolves(plan.nodes[given.node]) && !Answers(w, plan, k, given))
  }

  /** What a step becomes once the node has answered. */
  ghost predicate Decided(w: World, plan: Plan, k: nat, given: Context, counters: map<string, nat>, limit: nat, kind: StepKind)
    requires Answers(w, plan, k, given)
  {
    var a, edges, node := w.execute(k, Offered(plan, given)), plan.edges, given.node;
    var usable := Branches(w, plan, k, given) && !Unusable(w, edges, node, a.data, limit, counters);
    && (kind.StepNeedsInput? <==> a.needsInput)
    && (kind.StepTerminal? <==> !a.needsInput && IsTerminalType(plan.nodes[node]))
    && (kind == StepFailed(EDGE_EVALUATION_ERROR) <==> Branches(w, plan, k, given) && !usable)
    && (kind == StepFailed(NO_MATCHING_EDGE) <==> usable && NoneHolds(w, edges, node, a.data))
    && (kind == StepFailed(MULTIPLE_MATCHING_EDGES) <==> usable && SeveralHold(w, edges, node, a.data))
    && (kind.StepAdvance? <==> usable && exists i: nat :: OnlyHolds(w, edges, node, a.data, i))
    && (kind.StepAdvance? ==> forall i: nat :: OnlyHolds(w, edges, node, a.data, i) ==> i < |edges| && kind.via == edges[i])
  }

  /** What a step records once the node has answered: the node's output, and the state the node gave, or
      else the one it was given, with its output entered. */
  ghost predicate Records(w: World, plan: Plan, k: nat, given: Context, s: Step)
    requires Answers(w, plan, k, given)
  {
    var a := w.execute(k, Offered(plan, given));
    var from := if a.nextState.Some? && (a.nextState.value.fields != map[] || a.nextState.value.outputs != map[])
                then a.nextState.value else given.state;
    && s.data == a.data && s.nodeRun == Some(w.runId(k)) && s.context == Offered(plan, given)
    && s.saved.Some?
    && s.saved.value.node == given.node && s.saved.value.metadata == Offered(plan, given).metadata
    && s.saved.value.memory == (if a.memory.Some? then a.memory.value else given.memory)
    && s.saved.value.state.fields == from.fields
    && given.node in s.saved.value.state.outputs && s.saved.value.state.outputs[given.node] == a.data
    && s.saved.value.state.outputs - {given.node} == from.outputs - {given.node}
  }

  /** What a step hands to the next node: what it saved, its output, and for a human fallback where it
      comes from and why. */
  ghost predicate HandsOn(w: World, plan: Plan, given: Context, s: Step)
    requires given.node in plan.nodes && s.kind.StepAdvance? && s.saved.Some?
  {
    var next, to := s.kind.next, s.kind.via.dst;
    var fallback := to in plan.nodes && plan.nodes[to] == "HumanFallback";
    && next.node == to && next.state == s.saved.value.state && next.memory == s.saved.value.memory && next.nodeOutput == s.data
    && (forall key :: key != FALLBACK_SOURCE && key != FALLBACK_REASON ==>
          (key in next.metadata <==> key in s.saved.value.metadata)
          && (key in next.metadata ==> next.metadata[key] == s.saved.value.metadata[key]))
    && (fallback ==> FALLBACK_SOURCE in next.metadata && next.metadata[FALLBACK_SOURCE] == given.node
                     && FALLBACK_REASON in next.metadata
                     && next.metadata[FALLBACK_REASON] == w.fallbackReason(plan.nodes[given.node], s.data))
    && (!fallback ==> next.metadata == s.saved.value.metadata)
  }

  /** The reported keys are those of the node's LOOP edges, all of them unless the evaluation failed. */
  ghost predicate Reports(plan: Plan, given: Context, branches: bool, s: Step) {
    && (!branches ==> s.keys == [])
    && (branches && s.kind != StepFailed(EDGE_EVALUATION_ERROR) ==>
          forall to :: multiset(s.keys)[given.node + "->" + to] == LoopsTo(plan.edges, given.node, to))
    && (forall key :: key in s.keys ==> exists to :: key == given.node + "->" + to && LoopsTo(plan.edges, given.node, to) > 0)
  }

  lemma EvaluatesTo(w: World, plan: Plan, node: string, data: Data, limit: nat, counters: map<string, nat>)
    ensures var e, edges := Evaluate(w, Out(plan.edges, node), node, data, limit, counters), plan.edges;
            && (e.raised <==> Unusable(w, edges, node, data, limit, counters))
            && (!e.raised ==> e.matching == Holding(w, edges, node, data) && e.keys == LoopKeys(edges, node))
            && Counted(counters, e.keys, e.counters)
            && forall key :: key in e.keys ==> key in LoopKeys(edges, node)
  {
    var out := Out(plan.edges, node);
    EvaluationExact(w, out, node, data, limit, counters);
    EvaluationCounts(w, out, node, data, limit, counters);
    EvaluationKeys(w, out, node, data, limit, counters);
    OutIsEnough(w, plan.edges, node, data);
    OverloopsIff(plan.edges, node, limit, counters);
    hide Evaluate, Counted, Overloops, Holding, LoopKeys, Out, W.Count;
  }

  lemma {:induction false} EvaluationKeys(w: World, es: seq<Edge>, node: string, data: Data, limit: nat, counters: map<string, nat>)
    ensures forall key :: key in Evaluate(w, es, node, data, limit, counters).keys ==> key in LoopKeys(es, node)
    decreases |es|
  {
    hide EdgeKey, W.Get;
    if es != [] {
      var key := EdgeKey(es[0]);
      EvaluationKeys(w, es[1..], node, data, limit, counters);
      EvaluationKeys(w, es[1..], node, data, limit, counters[key := W.Get(counters, key) + 1]);
    }
  }

  /** Everything a step does, by the node's answer. */
  ghost predicate StepIs(w: World, plan: Plan, k: nat, given: Context, counters: map<string, nat>, limit: nat, s: Step) {
    && FailsEarly(w, plan, k, given, s.kind)
    && Reports(plan, given, Branches(w, plan, k, given), s) && Counted(counters, s.keys, s.counters)
    && (!Answers(w, plan, k, given) ==>
          s.saved.None? && s.data == map[] && s.nodeRun == if Runs(w, plan, given) then Some(w.runId(k)) else None)
    && (Answers(w, plan, k, given) ==>
          && Decided(w, plan, k, given, counters, limit, s.kind) && Records(w, plan, k, given, s)
          && (s.kind.StepAdvance? ==> HandsOn(w, plan, given, s)))
  }

  lemma KeysReported(plan: Plan, given: Context, branches: bool, s: Step)
    requires !branches ==> s.keys == []
    requires branches && s.kind != StepFailed(EDGE_EVALUATION_ERROR) ==> s.keys == LoopKeys(plan.edges, given.node)
    requires forall key :: key in s.keys ==> key in LoopKeys(plan.edges, given.node)
    ensures Reports(plan, given, branches, s)
  {
    var keys := LoopKeys(plan.edges, given.node);
    hide LoopKeys, LoopsTo;
    forall to ensures multiset(keys)[given.node + "->" + to] == LoopsTo(plan.edges, given.node, to) {
      KeysAreLoops(plan.edges, given.node, to);
    }
    forall key | key in s.keys ensures exists to :: key == given.node + "->" + to && LoopsTo(plan.edges, given.node, to) > 0 {
      KeysHaveTargets(plan.edges, given.node, key);
      var to :| key == given.node + "->" + to;
      assert key in keys && multiset(keys)[given.node + "->" + to] > 0;
    }
  }

  lemma EarlyStep(w: World, plan: Plan, k: nat, given: Context, counters: map<string, nat>, limit: nat)
    requires !Answers(w, plan, k, given)
    ensures StepIs(w, plan, k, given, counters, limit, RunStep(w, plan, k, given, counters, limit))
  {
    hide AfterExecution;
    CountedNone(counters);
  }

  lemma StateRecorded(w: World, plan: Plan, k: nat, given: Context, s: Step)
    requires Answers(w, plan, k, given)
    requires var ctx := Offered(plan, given);
             var a := w.execute(k, ctx);
             && s.data == a.data && s.nodeRun == Some(w.runId(k)) && s.context == ctx
             && s.saved == Some(GraphState(ctx.node, NewState(ctx, a), if a.memory.Some? then a.memory.value else ctx.memory, ctx.metadata))
    ensures Records(w, plan, k, given, s)
  {
  }

  /** The step made of an evaluation of the node's outgoing edges. */
  ghost predicate Choice(w: World, plan: Plan, k: nat, given: Context, e: Evaluation, s: Step)
    requires Answers(w, plan, k, given)
  {
    var ctx := Offered(plan, given);
    var a := w.execute(k, ctx);
    s == Choose(w, plan, ctx, a.data, NewState(ctx, a), if a.memory.Some? then a.memory.value else ctx.memory, Some(w.runId(k)), e)
  }

  lemma ChosenKind(w: World, plan: Plan, k: nat, given: Context, e: Evaluation, s: Step)
    requires Answers(w, plan, k, given) && Choice(w, plan, k, given, e, s)
    ensures s.keys == e.keys && s.counters == e.counters
    ensures s.kind == if e.raised then StepFailed(EDGE_EVALUATION_ERROR)
                      else if e.matching == [] then StepFailed(NO_MATCHING_EDGE)
                      else if |e.matching| > 1 then StepFailed(MULTIPLE_MATCHING_EDGES)
                      else StepAdvance(e.matching[0], if s.kind.StepAdvance? then s.kind.next else given)
    ensures Records(w, plan, k, given, s)
  {
    hide NewState, NextMetadata, Records;
    StateRecorded(w, plan, k, given, s);
  }

  lemma ChosenHandsOn(w: World, plan: Plan, k: nat, given: Context, e: Evaluation, s: Step)
    requires Answers(w, plan, k, given) && Choice(w, plan, k, given, e, s) && s.kind.StepAdvance?
    ensures s.saved.Some? && HandsOn(w, plan, given, s)
  {
    hide NewState;
  }

  lemma ChosenDecided(w: World, plan: Plan, k: nat, given: Context, counters: map<string, nat>, limit: nat, e: Evaluation, s: Step)
    requires Branches(w, plan, k, given) && Choice(w, plan, k, given, e, s)
    requires var data := w.execute(k, Offered(plan, given)).data;
             e.raised <==> Unusable(w, plan.edges, given.node, data, limit, counters)
    requires !e.raised ==> e.matching == Holding(w, plan.edges, given.node, w.execute(k, Offered(plan, given)).data)
    ensures Decided(w, plan, k, given, counters, limit, s.kind) && FailsEarly(w, plan, k, given, s.kind)
  {
    ChosenKind(w, plan, k, given, e, s);
    var data := w.execute(k, Offered(plan, given)).data;
    hide Holding, Unusable, OnlyHolds, NoneHolds, SeveralHold, Records, IsTerminalType, Choice;
    var first := HoldingIff(w, plan.edges, given.node, data);
    OneOfThree(w, plan.edges, given.node, data);
  }

  lemma Chosen(w: World, plan: Plan, k: nat, given: Context, counters: map<string, nat>, limit: nat, s: Step)
    requires Branches(w, plan, k, given)
    requires var data := w.execute(k, Offered(plan, given)).data;
             Choice(w, plan, k, given, Evaluate(w, Out(plan.edges, given.node), given.node, data, limit, counters), s)
    ensures StepIs(w, plan, k, given, counters, limit, s)
  {
    var data := w.execute(k, Offered(plan, given)).data;
    EvaluatesTo(w, plan, given.node, data, limit, counters);
    hide Evaluate, Counted, Holding, LoopKeys, Out, Unusable, Records, Reports, IsTerminalType, Choice, Decided, HandsOn, FailsEarly;
    var e := Evaluate(w, Out(plan.edges, given.node), given.node, data, limit, counters);
    ChosenKind(w, plan, k, given, e, s);
    ChosenDecided(w, plan, k, given, counters, limit, e, s);
    KeysReported(plan, given, true, s);
    if s.kind.StepAdvance? { ChosenHandsOn(w, plan, k, given, e, s); }
  }

  /** One step, exactly: when it fails and with which reason, when it waits, ends or advances and along
      which edge, what it saves and counts, and what it hands on. */
  lemma StepExact(w: World, plan: Plan, k: nat, given: Context, counters: map<string, nat>, limit: nat)
    ensures StepIs(w, plan, k, given, counters, limit, RunStep(w, plan, k, given, counters, limit))
  {
    if !Answers(w, plan, k, given) {
      EarlyStep(w, plan, k, given, counters, limit);
    } else if Branches(w, plan, k, given) {
      hide Choose, NewState, Evaluate, Out, StepIs, IsTerminalType;
      Chosen(w, plan, k, given, counters, limit, RunStep(w, plan, k, given, counters, limit));
    } else {
      UndecidedStep(w, plan, k, given, counters, limit);
    }
  }

  lemma UndecidedStep(w: World, plan: Plan, k: nat, given: Context, counters: map<string, nat>, limit: nat)
    requires Answers(w, plan, k, given) && !Branches(w, plan, k, given)
    ensures StepIs(w, plan, k, given, counters, limit, RunStep(w, plan, k, given, counters, limit))
  {
    var s := RunStep(w, plan, k, given, counters, limit);
    hide Choose, NewState, Evaluate, Out, Counted, Records, Reports, IsTerminalType;
    StateRecorded(w, plan, k, given, s);
    CountedNone(counters);
    KeysReported(plan, given, false, s);
  }
}
