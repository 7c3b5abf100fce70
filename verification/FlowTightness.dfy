/** The step bound is tight: for every loop limit from 3 on there are compiled plans and runs that
    follow exactly that many LOOP edges and are cut before their terminal node. */
module FlowTightness {
  import opened FlowGraph
  import opened GraphCompiler
  import opened FlowActivities
  import opened FlowRuntime
  import LoopNaming
  import LoopValidation
  import FlowWorkflow

  /** A retry loop over the nodes `a`, `b`, `c` that can be left from `b` to the terminal node `t`. */
  datatype Retry = Retry(a: string, b: string, c: string, t: string, limit: nat)
  {
    predicate Apart() { a != b && a != c && a != t && b != c && b != t && c != t }

    /** Names in the order in which the compiler lists edges. */
    predicate Valid() { limit >= 3 && a != "" && Apart() && LexLeq(a, b) && LexLeq(b, c) && LexLeq(c, t) }

    function Nodes(): map<string, string> { map[a := "A", b := "B", c := "C", t := "ResponseBuilder"] }

    function Specs(): seq<EdgeSpec> { [Spec(a, b, Normal), Spec(b, c, Normal), Spec(b, t, Normal), Spec(c, a, Loop)] }

    function Graph(): Snapshot { Snapshot(a, Nodes(), Specs()) }

    function Edges(): seq<Edge> { [Edge(a, b, Normal, b), Edge(b, c, Normal, c), Edge(b, t, Normal, t), Edge(c, a, Loop, a)] }

    function Made(hash: string): Plan { Plan(a, Nodes(), Edges(), hash) }

    function Key(): string { c + "->" + a }

    /** The step at which the run is cut. */
    function Cut(): nat { 3 * limit + 2 }

    /** Each node names its successor; `b` asks to leave just before the cut. */
    function Target(k: nat, node: string): string {
      if node == a then b else if node == b then (if k < 3 * limit + 1 then c else t) else a
    }

    /** The node of step k, and the edge followed there. */
    function Node(k: nat): string { if k == Cut() then t else if k % 3 == 0 then a else if k % 3 == 1 then b else c }

    function Via(k: nat): nat { if k % 3 == 0 then 0 else if k % 3 == 2 then 3 else if k < 3 * limit + 1 then 1 else 2 }

    function Answers(): World {
      World(_ => true, _ => true,
        (k: nat, x: Context) => Answer(false, map["to" := Target(k, x.node)], None, None),
        (condition: string, data: Data) => if "to" in data && data["to"] == condition then Holds else DoesNotHold,
        (_, _) => "", _ => "r")
    }
  }

  function Spec(src: string, dst: string, kind: EdgeKind): EdgeSpec { EdgeSpec(src, dst, kind, dst, Some(dst)) }

  // ----- It compiles -----

  lemma RetrySorted(x: Retry, es: seq<EdgeSpec>)
    requires x.Valid() && es == x.Specs()
    ensures Sort(es) == es
  {
    hide LexLeq, Sort;
    assert KeyLeq(es[0], es[1]) && KeyLeq(es[1], es[2]) && KeyLeq(es[2], es[3]);
    LoopNaming.SortKeepsSorted(es);
  }

  lemma RetryCompiled(x: Retry, es: seq<EdgeSpec>)
    requires es == x.Specs()
    ensures (forall e :: e in es ==> e.compiled.Some?) && CompileEdges(es) == x.Edges()
  {
    var r := CompileEdges(es);
    assert r == [r[0], r[1], r[2], r[3]];
  }

  lemma RetrySeen(x: Retry)
    requires x.Valid()
    ensures (forall e :: e in x.Specs() ==> e.compiled.Some?)
    ensures LoopNaming.Seen(x.Graph()) == CompileEdges(x.Specs()) == x.Edges()
  {
    hide x.Valid, x.Specs, x.Edges, CompileEdges, Sort;
    RetryCompiled(x, x.Specs());
    RetrySorted(x, x.Specs());
  }

  lemma RetryReaches(x: Retry, edges: seq<Edge>)
    requires edges == x.Edges()
    ensures ExactlyReachable(edges, x.a, {x.a, x.b, x.c, x.t})
  {
    assert PathBetween(edges, x.a, x.a, [x.a]);
    ExtendPath(edges, x.a, [x.a], edges[0]);
    var p :| PathBetween(edges, x.a, x.b, p);
    ExtendPath(edges, x.a, p, edges[1]);
    ExtendPath(edges, x.a, p, edges[2]);
    ClosedIsReachable(edges, x.a, {x.a, x.b, x.c, x.t});
  }

  lemma RetryNodes(x: Retry)
    requires x.Apart()
    ensures x.Nodes().Keys == {x.a, x.b, x.c, x.t} && |x.Nodes()| == 4
    ensures x.Nodes()[x.t] == "ResponseBuilder" && IsTerminalType(x.Nodes()[x.t])
    ensures !IsTerminalType(x.Nodes()[x.a]) && !IsTerminalType(x.Nodes()[x.b]) && !IsTerminalType(x.Nodes()[x.c])
  {
    assert |x.Nodes()| == |x.Nodes().Keys|;
  }

  lemma RetryChecked(x: Retry)
    requires x.Valid()
    ensures LoopNaming.Checked(x.Graph())
  {
    RetrySeen(x);
    RetryReaches(x, x.Edges());
    RetryNodes(x);
    assert x.Graph().edges != [];
    hide ExactlyReachable, CompileEdges, x.Nodes, x.Edges, x.Specs, IsTerminalType, LexLeq;
  }

  /** The order `t`, `c`, `b`, `a` lists every NORMAL edge's target before its source. */
  lemma RetryAcyclic(x: Retry, edges: seq<Edge>)
    requires x.Apart() && edges == x.Edges()
    ensures NormalAcyclic(edges)
  {
    var done := [x.t, x.c, x.b, x.a];
    assert done[..2] == [x.t, x.c] && done[..3] == [x.t, x.c, x.b];
    forall i, e | 0 <= i < |done| && e in edges && e.src == done[i] && e.kind == Normal ensures e.dst in done[..i] {
      assert e == edges[0] || e == edges[1] || e == edges[2];
    }
    PostorderIsAcyclic(edges, done);
  }

  /** The only LOOP edge returns to the start. */
  lemma RetryReturns(x: Retry, edges: seq<Edge>)
    requires edges == x.Edges()
    ensures LoopValidation.LoopsReturn(edges, x.a)
    ensures forall v :: v in Vertices(edges) ==> v in {x.a, x.b, x.c, x.t}
  {
    forall e | e in edges && e.kind == Loop ensures LoopValidation.Dominates(edges, x.a, e.dst, e.src) { assert e == edges[3]; }
  }

  lemma RetryAccepted(x: Retry, edges: seq<Edge>)
    requires x.Apart() && edges == x.Edges()
    ensures LoopValidation.Order(edges, x.a).Some?
  {
    RetryReaches(x, edges);
    RetryAcyclic(x, edges);
    RetryReturns(x, edges);
    hide x.Edges, LoopValidation.LoopsReturn, LoopValidation.Order, Vertices, NormalAcyclic;
    LoopValidation.ExactWhenLoopsReturn(edges, x.a);
  }

  lemma RetryCompiles(x: Retry, hash: string)
    requires x.Valid()
    ensures Outcome(x.Graph(), hash) == Ok(x.Made(hash))
  {
    hide Outcome, x.Edges, x.Specs, x.Nodes, CompileEdges, LoopNaming.Seen, LoopNaming.Checked, LoopValidation.Order, LexLeq;
    RetrySeen(x);
    RetryChecked(x);
    RetryAccepted(x, x.Edges());
    LoopNaming.CheckedOutcome(x.Graph(), hash);
  }

  lemma RetrySources(x: Retry, edges: seq<Edge>)
    requires x.Apart() && edges == x.Edges()
    ensures |edges| == 4 && |Sources(edges)| == 3
  {
    assert Sources(edges) == {x.a, x.b, x.c} by { assert edges[0] in edges && edges[1] in edges && edges[3] in edges; }
  }

  lemma RetryLimits(x: Retry, hash: string)
    requires x.Valid()
    ensures MaxSteps(x.Made(hash), x.limit) == x.Cut()
  {
    RetrySources(x, x.Edges());
    RetryNodes(x);
    hide x.Edges, x.Nodes, Sources, LexLeq;
  }

  // ----- One step of the loop -----

  lemma OutOf(d: Edge, e: Edge, f: Edge, g: Edge, node: string, last: seq<Edge>, more: seq<Edge>, most: seq<Edge>, all: seq<Edge>, edges: seq<Edge>)
    requires last == (if g.src == node then [g] else []) && more == (if f.src == node then [f] + last else last)
    requires most == (if e.src == node then [e] + more else more) && all == (if d.src == node then [d] + most else most)
    requires edges == [d, e, f, g]
    ensures Out(edges, node) == all
  {
    hide Out;
    LoopNaming.OutOfFour(d, e, f, g, node, last, more, most, all);
    assert edges == [d] + ([e] + ([f] + ([g] + [])));
  }

  lemma RetryOuts(x: Retry, edges: seq<Edge>)
    requires x.Apart() && edges == x.Edges()
    ensures Out(edges, x.a) == [edges[0]] && Out(edges, x.b) == [edges[1], edges[2]] && Out(edges, x.c) == [edges[3]]
  {
    hide Out;
    var d, e, f, g := edges[0], edges[1], edges[2], edges[3];
    assert [e] + [f] == [e, f];
    OutOf(d, e, f, g, x.a, [], [], [], [d], edges);
    OutOf(d, e, f, g, x.b, [], [f], [e, f], [e, f], edges);
    OutOf(d, e, f, g, x.c, [g], [g], [g], [g], edges);
  }

  lemma EvaluateOne(w: World, e: Edge, data: Data, limit: nat, counters: map<string, nat>)
    requires w.judge(e.condition, data) == Holds
    requires e.kind == Loop ==> FlowWorkflow.Get(counters, EdgeKey(e)) < limit
    ensures var ev := Evaluate(w, [e], e.src, data, limit, counters);
            && !ev.raised && ev.matching == [e]
            && ev.counters == if e.kind == Loop then counters[EdgeKey(e) := FlowWorkflow.Get(counters, EdgeKey(e)) + 1] else counters
  {
    assert [e][1..] == [];
  }

  lemma EvaluateTwo(w: World, e: Edge, f: Edge, data: Data, limit: nat, counters: map<string, nat>)
    requires e.src == f.src && e.kind == f.kind == Normal
    requires (w.judge(e.condition, data) == Holds && w.judge(f.condition, data) == DoesNotHold)
          || (w.judge(e.condition, data) == DoesNotHold && w.judge(f.condition, data) == Holds)
    ensures var ev := Evaluate(w, [e, f], e.src, data, limit, counters);
            !ev.raised && ev.matching == [if w.judge(e.condition, data) == Holds then e else f] && ev.counters == counters
  {
    assert [e, f][1..] == [f] && [f][1..] == [];
    assert Evaluate(w, [f], e.src, data, limit, counters).matching == if w.judge(f.condition, data) == Holds then [f] else [];
  }

  /** A step whose node answers and has exactly one edge that holds follows it. */
  lemma AdvancesOn(w: World, plan: Plan, k: nat, ctx: Context, counters: map<string, nat>, limit: nat, data: Data, e: Edge)
    requires ctx.node in plan.nodes && !IsTerminalType(plan.nodes[ctx.node])
    requires w.resolves(plan.nodes[ctx.node]) && w.constructs(plan.nodes[ctx.node])
    requires forall c: Context :: c.node == ctx.node ==> w.execute(k, c) == Answer(false, data, None, None)
    requires var ev := Evaluate(w, Out(plan.edges, ctx.node), ctx.node, data, limit, counters); !ev.raised && ev.matching == [e]
    ensures var s := RunStep(w, plan, k, ctx, counters, limit);
            && s.kind.StepAdvance? && s.kind.via == e && s.kind.next.node == e.dst
            && s.counters == Evaluate(w, Out(plan.edges, ctx.node), ctx.node, data, limit, counters).counters
  {
    hide Evaluate, Out, IsTerminalType;
  }

  /** The counters after step k of the loop. */
  function Counted(x: Retry, k: nat, counters: map<string, nat>): map<string, nat> {
    if k % 3 == 2 then counters[x.Key() := k / 3 + 1] else counters
  }

  /** The evaluation of step k matches its edge and counts it. */
  ghost predicate Evaluated(x: Retry, edges: seq<Edge>, k: nat, ev: Evaluation, counters: map<string, nat>)
    requires |edges| == 4
  {
    !ev.raised && ev.matching == [edges[x.Via(k)]] && ev.counters == Counted(x, k, counters)
  }

  lemma RetryAtA(x: Retry, w: World, edges: seq<Edge>, k: nat, counters: map<string, nat>)
    requires x.Valid() && w == x.Answers() && edges == x.Edges() && k < x.Cut() && k % 3 == 0
    ensures Evaluated(x, edges, k, Evaluate(w, [edges[0]], x.a, map["to" := x.Target(k, x.a)], x.limit, counters), counters)
  {
    hide LexLeq;
    EvaluateOne(w, edges[0], map["to" := x.Target(k, x.a)], x.limit, counters);
  }

  lemma RetryAtB(x: Retry, w: World, edges: seq<Edge>, k: nat, counters: map<string, nat>)
    requires x.Valid() && w == x.Answers() && edges == x.Edges() && k < x.Cut() && k % 3 == 1
    ensures Evaluated(x, edges, k, Evaluate(w, [edges[1], edges[2]], x.b, map["to" := x.Target(k, x.b)], x.limit, counters), counters)
  {
    hide LexLeq;
    EvaluateTwo(w, edges[1], edges[2], map["to" := x.Target(k, x.b)], x.limit, counters);
  }

  lemma RetryAtC(x: Retry, w: World, edges: seq<Edge>, k: nat, counters: map<string, nat>)
    requires x.Valid() && w == x.Answers() && edges == x.Edges() && k < x.Cut() && k % 3 == 2
    requires FlowWorkflow.Get(counters, x.Key()) == k / 3
    ensures Evaluated(x, edges, k, Evaluate(w, [edges[3]], x.c, map["to" := x.Target(k, x.c)], x.limit, counters), counters)
  {
    hide LexLeq;
    assert EdgeKey(edges[3]) == x.Key() && k / 3 < x.limit;
    EvaluateOne(w, edges[3], map["to" := x.Target(k, x.c)], x.limit, counters);
  }

  lemma RetryEvaluation(x: Retry, w: World, edges: seq<Edge>, k: nat, counters: map<string, nat>)
    requires x.Valid() && w == x.Answers() && edges == x.Edges() && k < x.Cut()
    requires FlowWorkflow.Get(counters, x.Key()) == k / 3
    ensures Evaluated(x, edges, k, Evaluate(w, Out(edges, x.Node(k)), x.Node(k), map["to" := x.Target(k, x.Node(k))], x.limit, counters), counters)
  {
    RetryOuts(x, edges);
    hide Evaluate, Out, LexLeq, Evaluated, x.Target, x.Answers;
    if k % 3 == 0 {
      RetryAtA(x, w, edges, k, counters);
    } else if k % 3 == 1 {
      RetryAtB(x, w, edges, k, counters);
    } else {
      RetryAtC(x, w, edges, k, counters);
    }
  }

  /** The state before step k. */
  ghost predicate Retrying(x: Retry, k: nat, ctx: Context, counters: map<string, nat>) {
    ctx.node == x.Node(k) && FlowWorkflow.Get(counters, x.Key()) == k / 3
  }

  /** What step k does: it leads to the state before the next, over the LOOP edge every third time. */
  ghost predicate Retries(x: Retry, s: Step, k: nat) {
    s.kind.StepAdvance? && Retrying(x, k + 1, s.kind.next, s.counters) && LoopHops(s.kind.via) + k / 3 == (k + 1) / 3
  }

  lemma RetryVia(x: Retry, k: nat)
    requires x.Valid() && k < x.Cut()
    ensures var e := x.Edges()[x.Via(k)]; e.dst == x.Node(k + 1) && LoopHops(e) + k / 3 == (k + 1) / 3
    ensures x.Node(k) in x.Nodes() && !IsTerminalType(x.Nodes()[x.Node(k)])
  {
    RetryNodes(x);
    hide x.Nodes, IsTerminalType, LexLeq;
    assert x.a in x.Nodes() && x.b in x.Nodes() && x.c in x.Nodes();
    assert (k + 1) / 3 == if k % 3 == 2 then k / 3 + 1 else k / 3;
  }

  lemma RetryStep(x: Retry, hash: string, k: nat, ctx: Context, counters: map<string, nat>)
    requires x.Valid() && k < x.Cut() && Retrying(x, k, ctx, counters)
    ensures Retries(x, RunStep(x.Answers(), x.Made(hash), k, ctx, counters, x.limit), k)
  {
    var w, plan, data := x.Answers(), x.Made(hash), map["to" := x.Target(k, x.Node(k))];
    RetryEvaluation(x, w, x.Edges(), k, counters);
    RetryVia(x, k);
    assert forall c: Context :: c.node == ctx.node ==> w.execute(k, c) == Answer(false, data, None, None);
    assert w.resolves(plan.nodes[ctx.node]) && w.constructs(plan.nodes[ctx.node]);
    hide Evaluate, Out, x.Edges, x.Nodes, x.Answers, x.Target, x.Valid, x.Node, x.Via, IsTerminalType, RunStep;
    AdvancesOn(w, plan, k, ctx, counters, x.limit, data, x.Edges()[x.Via(k)]);
    assert (k + 1) / 3 == if k % 3 == 2 then k / 3 + 1 else k / 3;
  }

  // ----- The run -----

  lemma WalkAdvances(run: Stepper, budget: nat, k: nat, ctx: Context, counters: map<string, nat>, s: Step)
    requires budget > 0 && s == run(k, ctx, counters) && s.kind.StepAdvance?
    ensures var r, rest := WalkFrom(run, budget, k, ctx, counters), WalkFrom(run, budget - 1, k + 1, s.kind.next, s.counters);
            r.end == rest.end && r.node == rest.node && r.steps == rest.steps && r.loops == LoopHops(s.kind.via) + rest.loops
  {
  }

  ghost predicate RetryLoops(x: Retry, run: Stepper) {
    forall k: nat, ctx, counters :: k < x.Cut() && Retrying(x, k, ctx, counters) ==> Retries(x, run(k, ctx, counters), k)
  }

  lemma RetryAdvances(x: Retry, run: Stepper, k: nat, ctx: Context, counters: map<string, nat>) returns (s: Step)
    requires RetryLoops(x, run) && k < x.Cut() && Retrying(x, k, ctx, counters)
    ensures s == run(k, ctx, counters) && s.kind.StepAdvance? && Retrying(x, k + 1, s.kind.next, s.counters)
    ensures LoopHops(s.kind.via) + k / 3 == (k + 1) / 3
  {
    s := run(k, ctx, counters);
    assert Retries(x, s, k);
  }

  lemma AtTheCut(x: Retry, ctx: Context, counters: map<string, nat>)
    requires Retrying(x, x.Cut(), ctx, counters)
    ensures ctx.node == x.t && x.Cut() / 3 == x.limit
  {
  }

  lemma {:induction false} RetryCutFrom(x: Retry, run: Stepper, k: nat, ctx: Context, counters: map<string, nat>, budget: nat)
    requires RetryLoops(x, run) && budget + k == x.Cut() && Retrying(x, k, ctx, counters)
    ensures var r := WalkFrom(run, budget, k, ctx, counters);
            r.end == Failed(MAX_STEPS_EXCEEDED) && r.node == x.t && r.loops + k / 3 == x.limit
    decreases budget
  {
    hide RetryLoops, Retrying, x.Cut;
    if budget == 0 {
      AtTheCut(x, ctx, counters);
    } else {
      hide WalkFrom;
      var s := RetryAdvances(x, run, k, ctx, counters);
      WalkAdvances(run, budget, k, ctx, counters, s);
      RetryCutFrom(x, run, k + 1, s.kind.next, s.counters, budget - 1);
    }
  }

  lemma RetryRuns(x: Retry, hash: string)
    requires x.Valid()
    ensures RetryLoops(x, StepperOf(x.Answers(), x.Made(hash), x.limit))
  {
    hide RunStep, x.Answers, x.Made, Retries, Retrying, x.Valid, x.Cut;
    var run := StepperOf(x.Answers(), x.Made(hash), x.limit);
    forall k: nat, ctx, counters: map<string, nat> | k < x.Cut() && Retrying(x, k, ctx, counters)
      ensures Retries(x, run(k, ctx, counters), k)
    {
      RetryStep(x, hash, k, ctx, counters);
    }
  }

  /** For every loop limit from 3 on, and any such names: the plan compiles, and the run that follows
      its LOOP edge exactly that often fails with MAX_STEPS_EXCEEDED before its terminal node. */
  lemma LimitCanCutAtTerminal(x: Retry, hash: string, start: Context)
    requires x.Valid() && start.node == x.a
    ensures Outcome(x.Graph(), hash) == Ok(x.Made(hash))
    ensures x.t in x.Nodes() && x.Nodes()[x.t] == "ResponseBuilder"
    ensures var r := InProcess(x.Answers(), x.Made(hash), x.limit, start);
            r.end == Failed(MAX_STEPS_EXCEEDED) && r.loops == x.limit && r.node == x.t
  {
    assert Retrying(x, 0, start, map[]);
    RetryNodes(x);
    hide Outcome, StepperOf, x.Answers, x.Edges, x.Nodes, RetryLoops, MaxSteps, x.Valid, WalkFrom, Retrying, x.Cut;
    RetryCompiles(x, hash);
    RetryLimits(x, hash);
    RetryRuns(x, hash);
    RetryCutFrom(x, StepperOf(x.Answers(), x.Made(hash), x.limit), 0, start, map[], x.Cut());
  }
}
