/** `GraphCompiler._validate_loops`: a depth-first search that refuses a NORMAL edge
    back to a node it is still visiting. */
module LoopValidation {
  import opened FlowGraph

  // ----- The search as a function of the stack and the finished order -----

  /** The inner `dfs(node_id)`. `stack` lists the nodes being visited, outermost first, and
      `done` the finished ones in finishing order. `None` is `cycle_not_marked_loop`. */
  function Visit(edges: seq<Edge>, node: string, stack: seq<string>, done: seq<string>): (r: Option<seq<string>>)
    decreases Vertices(edges) + {node} - (set v | v in stack), 0
  {
    if node in stack then Some(done)
    else
      assert Vertices(edges) - (set v | v in stack + [node]) < Vertices(edges) + {node} - (set v | v in stack) by {
        assert node !in Vertices(edges) - (set v | v in stack + [node]);
        assert node in Vertices(edges) + {node} - (set v | v in stack);
      }
      var r := VisitEdges(edges, Out(edges, node), stack + [node], done);
      if r.None? then None else Some(r.value + [node])
  }

  /** The loop over the outgoing edges of the node on top of the stack. */
  function VisitEdges(edges: seq<Edge>, es: seq<Edge>, stack: seq<string>, done: seq<string>): (r: Option<seq<string>>)
    requires forall e :: e in es ==> e in edges
    decreases Vertices(edges) - (set v | v in stack), |es|
  {
    if es == [] then Some(done)
    else
      var to := es[0].dst;
      if to in stack && es[0].kind != Loop then None
      else
        assert Vertices(edges) + {to} == Vertices(edges) by { assert es[0] in edges; }
        var r := if to !in done then Visit(edges, to, stack, done) else Some(done);
        if r.None? then None else VisitEdges(edges, es[1..], stack, r.value)
  }

  // ----- What an accepted search establishes -----

  /** The invariant of the search: finished and visited nodes are apart, and finished nodes
      lead only to finished nodes, or to nodes still being visited along LOOP edges. */
  ghost predicate Searched(edges: seq<Edge>, stack: seq<string>, done: seq<string>) {
    && Distinct(done)
    && NormalPostorder(edges, done)
    && (forall v :: v in done ==> v !in stack)
    && (forall e :: e in edges && e.src in done ==> e.dst in done || e.dst in stack)
  }

  lemma {:induction false} VisitSound(edges: seq<Edge>, node: string, stack: seq<string>, done: seq<string>)
    requires Searched(edges, stack, done) && node !in done
    requires Visit(edges, node, stack, done).Some?
    ensures var d := Visit(edges, node, stack, done).value;
            done <= d && Searched(edges, stack, d) && (node in d || node in stack)
    decreases Vertices(edges) + {node} - (set v | v in stack), 0
  {
    if node !in stack {
      assert Vertices(edges) - (set v | v in stack + [node]) < Vertices(edges) + {node} - (set v | v in stack) by {
        assert node !in Vertices(edges) - (set v | v in stack + [node]);
        assert node in Vertices(edges) + {node} - (set v | v in stack);
      }
      VisitEdgesSound(edges, node, 0, stack + [node], done);
      var out := Out(edges, node);
      assert out[0..] == out;
      var d := VisitEdges(edges, out, stack + [node], done).value;
      assert (d + [node])[..|d|] == d;
      forall i, e | 0 <= i < |d + [node]| && e in edges && e.src == (d + [node])[i] && e.kind == Normal
        ensures e.dst in (d + [node])[..i]
      {
        if i < |d| {
          assert (d + [node])[..i] == d[..i];
        } else {
          assert e in out;
        }
      }
    }
  }

  /** The edges of `node` from the k-th on: once they are through, each leads to a finished
      node or, if it is a LOOP edge, possibly to one being visited. */
  lemma {:induction false} VisitEdgesSound(edges: seq<Edge>, node: string, k: nat, stack: seq<string>, done: seq<string>)
    requires Searched(edges, stack, done) && node in stack
    requires k <= |Out(edges, node)|
    requires VisitEdges(edges, Out(edges, node)[k..], stack, done).Some?
    ensures var d := VisitEdges(edges, Out(edges, node)[k..], stack, done).value;
            && done <= d && Searched(edges, stack, d)
            && forall e :: e in Out(edges, node)[k..] ==> e.dst in d || (e.kind == Loop && e.dst in stack)
    decreases Vertices(edges) - (set v | v in stack), |Out(edges, node)| - k
  {
    var es := Out(edges, node)[k..];
    if es != [] {
      var to := es[0].dst;
      assert es[0] in Out(edges, node);
      assert Vertices(edges) + {to} == Vertices(edges);
      if to !in done {
        VisitSound(edges, to, stack, done);
      }
      var r := if to !in done then Visit(edges, to, stack, done) else Some(done);
      assert es[1..] == Out(edges, node)[k+1..];
      VisitEdgesSound(edges, node, k + 1, stack, r.value);
      forall e | e in es
        ensures var d := VisitEdges(edges, es, stack, done).value;
                e.dst in d || (e.kind == Loop && e.dst in stack)
      {
        if e != es[0] { assert e in es[1..]; }
      }
    }
  }

  // ----- What a refusal shows -----

  /** A walk without repetitions from the start of the search whose last node has a NORMAL
      edge back to a node of the walk. */
  ghost predicate UnmarkedCycle(edges: seq<Edge>, p: seq<string>, back: string) {
    IsPath(edges, p) && Distinct(p) && back in p && HasNormalEdge(edges, p[|p|-1], back)
  }

  ghost predicate OnStack(edges: seq<Edge>, stack: seq<string>, node: string) {
    Distinct(stack) && (stack == [] || (IsPath(edges, stack) && HasEdge(edges, stack[|stack|-1], node)))
  }

  lemma {:induction false} VisitRefuses(edges: seq<Edge>, node: string, stack: seq<string>, done: seq<string>)
    returns (p: seq<string>, back: string)
    requires OnStack(edges, stack, node)
    requires Visit(edges, node, stack, done).None?
    ensures stack + [node] <= p && UnmarkedCycle(edges, p, back)
    decreases Vertices(edges) + {node} - (set v | v in stack), 0
  {
    assert Vertices(edges) - (set v | v in stack + [node]) < Vertices(edges) + {node} - (set v | v in stack) by {
      assert node !in Vertices(edges) - (set v | v in stack + [node]);
      assert node in Vertices(edges) + {node} - (set v | v in stack);
    }
    var out := Out(edges, node);
    assert out[0..] == out;
    p, back := VisitEdgesRefuses(edges, node, 0, stack + [node], done);
  }

  lemma {:induction false} VisitEdgesRefuses(edges: seq<Edge>, node: string, k: nat, stack: seq<string>, done: seq<string>)
    returns (p: seq<string>, back: string)
    requires stack != [] && stack[|stack|-1] == node && IsPath(edges, stack) && Distinct(stack)
    requires k <= |Out(edges, node)|
    requires VisitEdges(edges, Out(edges, node)[k..], stack, done).None?
    ensures stack <= p && UnmarkedCycle(edges, p, back)
    decreases Vertices(edges) - (set v | v in stack), |Out(edges, node)| - k
  {
    var es := Out(edges, node)[k..];
    var e := es[0];
    assert e in Out(edges, node);
    assert Vertices(edges) + {e.dst} == Vertices(edges);
    assert HasEdge(edges, node, e.dst);
    if e.dst in stack && e.kind != Loop {
      p, back := stack, e.dst;
    } else if e.dst !in done && Visit(edges, e.dst, stack, done).None? {
      p, back := VisitRefuses(edges, e.dst, stack, done);
    } else {
      var r := if e.dst !in done then Visit(edges, e.dst, stack, done) else Some(done);
      assert es[1..] == Out(edges, node)[k+1..];
      p, back := VisitEdgesRefuses(edges, node, k + 1, stack, r.value);
    }
  }

  // ----- The whole check -----

  /** `_validate_loops(start, adjacency)`: the finishing order, or `None` when it raises. */
  function Order(edges: seq<Edge>, start: string): (r: Option<seq<string>>) {
    Visit(edges, start, [], [])
  }

  lemma EmptySearch(edges: seq<Edge>)
    ensures Searched(edges, [], [])
  {
  }

  /** Acceptance: the finishing order lists each node reachable from the start once and is
      a postorder of the NORMAL edges. */
  lemma AcceptedOrder(edges: seq<Edge>, start: string)
    requires Order(edges, start).Some?
    ensures var done := Order(edges, start).value;
            && Distinct(done) && NormalPostorder(edges, done)
            && (forall e :: e in edges && e.src in done ==> e.dst in done)
            && (forall v :: Reachable(edges, start, v) ==> v in done)
  {
    EmptySearch(edges);
    VisitSound(edges, start, [], []);
    var done := Order(edges, start).value;
    forall v | Reachable(edges, start, v) ensures v in done {
      var p :| PathBetween(edges, start, v, p);
      ClosedPath(edges, (set u | u in done), p);
    }
  }

  /** If every vertex is reachable, acceptance means that no cycle avoids LOOP edges. */
  lemma AcceptedIsNormalAcyclic(edges: seq<Edge>, start: string)
    requires Order(edges, start).Some?
    requires forall v :: v in Vertices(edges) ==> Reachable(edges, start, v)
    ensures NormalAcyclic(edges)
  {
    AcceptedOrder(edges, start);
    PostorderIsAcyclic(edges, Order(edges, start).value);
  }

  /** A refusal exhibits a cycle closed by a NORMAL edge. */
  lemma RefusedHasUnmarkedCycle(edges: seq<Edge>, start: string) returns (p: seq<string>, back: string)
    requires Order(edges, start).None?
    ensures UnmarkedCycle(edges, p, back) && p[0] == start
  {
    p, back := VisitRefuses(edges, start, [], []);
    assert ([] + [start]) == [start] <= p;
  }

  // ----- When the check is exact -----

  /** Every walk from the start to `u` passes through `v`. */
  ghost predicate Dominates(edges: seq<Edge>, start: string, v: string, u: string) {
    forall p :: PathBetween(edges, start, u, p) ==> v in p
  }

  /** LOOP edges are retries: each returns to a node that every walk to its source passed. */
  ghost predicate LoopsReturn(edges: seq<Edge>, start: string) {
    forall e :: e in edges && e.kind == Loop ==> Dominates(edges, start, e.dst, e.src)
  }

  /** On graphs whose LOOP edges are retries, the check accepts exactly the graphs in which
      every cycle goes through a LOOP edge. */
  lemma ExactWhenLoopsReturn(edges: seq<Edge>, start: string)
    requires LoopsReturn(edges, start)
    requires forall v :: v in Vertices(edges) ==> Reachable(edges, start, v)
    ensures Order(edges, start).Some? <==> NormalAcyclic(edges)
  {
    if Order(edges, start).Some? {
      AcceptedIsNormalAcyclic(edges, start);
    } else {
      var p, back := RefusedHasUnmarkedCycle(edges, start);
      var i :| 0 <= i < |p| && p[i] == back;
      var cycle := p[i..] + [back];
      forall k | 0 <= k < |cycle| - 1 ensures HasNormalEdge(edges, cycle[k], cycle[k+1]) {
        if i + k + 1 < |p| {
          ForwardStepIsNormal(edges, start, p, i + k);
        } else {
          assert cycle[k] == p[|p|-1];
        }
      }
      assert NormalCycle(edges, cycle);
    }
  }

  lemma PrefixIsPath(edges: seq<Edge>, p: seq<string>, k: nat)
    requires IsPath(edges, p) && k < |p|
    ensures PathBetween(edges, p[0], p[k], p[..k+1])
  {
    var q := p[..k+1];
    forall j | 0 <= j < |q| - 1 ensures HasEdge(edges, q[j], q[j+1]) {
      assert HasEdge(edges, p[j], p[j+1]);
    }
  }

  /** A step of a repetition-free walk cannot use a LOOP edge to a dominating node. */
  lemma ForwardStepIsNormal(edges: seq<Edge>, start: string, p: seq<string>, k: nat)
    requires LoopsReturn(edges, start)
    requires IsPath(edges, p) && Distinct(p) && p[0] == start && k + 1 < |p|
    ensures HasNormalEdge(edges, p[k], p[k+1])
  {
    assert HasEdge(edges, p[k], p[k+1]);
    var e :| e in edges && e.src == p[k] && e.dst == p[k+1];
    PrefixIsPath(edges, p, k);
    assert p[k+1] !in p[..k+1];
    assert !Dominates(edges, start, e.dst, e.src);
  }

  // ----- The search as the source runs it -----

  lemma VisitingShrinks(edges: seq<Edge>, node: string, edge: Edge, before: set<string>, now: set<string>)
    requires edge in edges && node !in before && now == before + {node}
    ensures Vertices(edges) + {edge.dst} - now < Vertices(edges) + {node} - before
  {
    assert edge.dst in Vertices(edges);
    assert node in Vertices(edges) + {node} - before && node !in Vertices(edges) + {edge.dst} - now;
  }

  /** The state of `_validate_loops`: the two sets the nested `dfs` updates. The sequences
      record the order in which the sets were filled. */
  class LoopValidator {
    const edges: seq<Edge>
    var visiting: set<string>
    var visitedLoops: set<string>
    ghost var stack: seq<string>
    ghost var order: seq<string>

    ghost predicate Valid() reads this {
      && visiting == (set v | v in stack)
      && visitedLoops == (set v | v in order)
    }

    constructor (edges: seq<Edge>)
      ensures Valid() && this.edges == edges && stack == [] && order == []
    {
      this.edges := edges;
      visiting, visitedLoops, stack, order := {}, {}, [], [];
    }

    /** `dfs(node)`; `ok` is false when it raises `cycle_not_marked_loop`. */
    method Dfs(node: string) returns (ok: bool)
      requires Valid()
      modifies this
      ensures ok <==> Visit(edges, node, old(stack), old(order)).Some?
      ensures ok ==> Valid() && stack == old(stack) && order == Visit(edges, node, old(stack), old(order)).value
      decreases Vertices(edges) + {node} - visiting
    {
      if node in visiting {
        return true;
      }
      ghost var stack0 := stack;
      visiting, stack := visiting + {node}, stack + [node];
      var out := Out(edges, node);
      for i := 0 to |out|
        invariant Valid() && stack == stack0 + [node] && visiting == old(visiting) + {node}
        invariant VisitEdges(edges, out[i..], stack, order) == VisitEdges(edges, out, stack, old(order))
      {
        var edge := out[i];
        assert edge in out && out[i..][0] == edge && out[i..][1..] == out[i+1..];
        if edge.dst in visiting && edge.kind != Loop {
          return false;
        }
        if edge.dst !in visitedLoops {
          VisitingShrinks(edges, node, edge, old(visiting), visiting);
          var fine := Dfs(edge.dst);
          if !fine { return false; }
        }
      }
      assert out[|out|..] == [];
      visiting, stack := visiting - {node}, stack0;
      visitedLoops, order := visitedLoops + {node}, order + [node];
      ok := true;
    }
  }
}

/** `GraphCompiler.compile`: from a published snapshot to an execution plan. */
module GraphCompiler {
  import opened FlowGraph
  import LoopValidation

  datatype EdgeSpec = EdgeSpec(src: string, dst: string, kind: EdgeKind, condition: string, compiled: Option<string>)

  /** A published graph: `nodes` maps identifiers to node types. */
  datatype Snapshot = Snapshot(startNode: string, nodes: map<string, string>, edges: seq<EdgeSpec>)

  datatype Plan = Plan(startNode: string, nodes: map<string, string>, edges: seq<Edge>, structuralHash: string)

  datatype CompileError =
    | StartNodeNotFound | EdgesRequired | NoTerminalNodes
    | CompiledConditionMissing | UnreachableNodes | CycleNotMarkedLoop

  datatype Compiled = Ok(plan: Plan) | Err(error: CompileError)

  // ----- The evaluation order of edges -----

  predicate LexLeq(a: string, b: string) {
    a == [] || (b != [] && (a[0] < b[0] || (a[0] == b[0] && LexLeq(a[1..], b[1..]))))
  }

  predicate KeyLeq(a: EdgeSpec, b: EdgeSpec) {
    if a.src != b.src then LexLeq(a.src, b.src)
    else if a.dst != b.dst then LexLeq(a.dst, b.dst)
    else LexLeq(a.condition, b.condition)
  }

  lemma LexTotal(a: string, b: string)
    ensures LexLeq(a, b) || LexLeq(b, a)
  {
  }

  lemma KeyTotal(a: EdgeSpec, b: EdgeSpec)
    ensures KeyLeq(a, b) || KeyLeq(b, a)
  {
    LexTotal(a.src, b.src);
    LexTotal(a.dst, b.dst);
    LexTotal(a.condition, b.condition);
  }

  ghost predicate InKeyOrder(s: seq<EdgeSpec>) {
    forall i :: 0 <= i < |s| - 1 ==> KeyLeq(s[i], s[i+1])
  }

  lemma ConsKeepsOrder(first: EdgeSpec, rest: seq<EdgeSpec>)
    requires InKeyOrder(rest) && (rest == [] || KeyLeq(first, rest[0]))
    ensures InKeyOrder([first] + rest)
  {
    hide KeyLeq;
    var r := [first] + rest;
    forall i | 0 <= i < |r| - 1 ensures KeyLeq(r[i], r[i+1]) {
      if i > 0 { assert r[i] == rest[i-1] && r[i+1] == rest[i]; }
    }
  }

  lemma TailKeepsOrder(s: seq<EdgeSpec>)
    requires InKeyOrder(s) && s != []
    ensures InKeyOrder(s[1..]) && (|s| > 1 ==> KeyLeq(s[0], s[1..][0]))
  {
    hide KeyLeq;
    assert forall i :: 0 <= i < |s| - 1 ==> s[1..][i] == s[i+1];
  }

  function Insert(e: EdgeSpec, s: seq<EdgeSpec>): (r: seq<EdgeSpec>)
    ensures multiset(r) == multiset{e} + multiset(s)
    ensures r[0] == e || (s != [] && r[0] == s[0])
  {
    if s == [] || KeyLeq(e, s[0]) then [e] + s
    else
      assert s == [s[0]] + s[1..];
      [s[0]] + Insert(e, s[1..])
  }

  lemma {:induction false} InsertKeepsOrder(e: EdgeSpec, s: seq<EdgeSpec>)
    requires InKeyOrder(s)
    ensures InKeyOrder(Insert(e, s))
    decreases |s|
  {
    if s == [] || KeyLeq(e, s[0]) {
      ConsKeepsOrder(e, s);
    } else {
      KeyTotal(e, s[0]);
      TailKeepsOrder(s);
      InsertKeepsOrder(e, s[1..]);
      hide KeyLeq, InKeyOrder;
      ConsKeepsOrder(s[0], Insert(e, s[1..]));
    }
  }

  /** `sorted(edges, key=(from_node, to_node, condition))`. */
  function Sort(edges: seq<EdgeSpec>): (r: seq<EdgeSpec>)
    ensures multiset(r) == multiset(edges) && InKeyOrder(r)
  {
    if edges == [] then []
    else
      assert edges == [edges[0]] + edges[1..];
      InsertKeepsOrder(edges[0], Sort(edges[1..]));
      Insert(edges[0], Sort(edges[1..]))
  }

  function CompileEdges(specs: seq<EdgeSpec>): (r: seq<Edge>)
    requires forall e :: e in specs ==> e.compiled.Some?
    ensures |r| == |specs|
    ensures forall i :: 0 <= i < |r| ==> r[i] == Edge(specs[i].src, specs[i].dst, specs[i].kind, specs[i].compiled.value)
  {
    seq(|specs|, i requires 0 <= i < |specs| =>
      assert specs[i] in specs; Edge(specs[i].src, specs[i].dst, specs[i].kind, specs[i].compiled.value))
  }

  // ----- What compilation means -----

  ghost predicate ExactlyReachable(edges: seq<Edge>, start: string, nodes: set<string>) {
    forall v :: v in nodes <==> Reachable(edges, start, v)
  }

  predicate IsTerminalType(nodeType: string) { nodeType == "ResponseBuilder" || nodeType == "HumanFallback" }

  /** The outcome of `compile`, check by check in the order the source makes them. */
  ghost function Outcome(s: Snapshot, hash: string): Compiled {
    if s.startNode == "" || s.startNode !in s.nodes then Err(StartNodeNotFound)
    else if s.edges == [] then Err(EdgesRequired)
    else if forall n :: n in s.nodes ==> !IsTerminalType(s.nodes[n]) then Err(NoTerminalNodes)
    else
      var sorted := Sort(s.edges);
      if exists e :: e in sorted && e.compiled.None? then Err(CompiledConditionMissing)
      else
        var edges := CompileEdges(sorted);
        if !ExactlyReachable(edges, s.startNode, s.nodes.Keys) then Err(UnreachableNodes)
        else if LoopValidation.Order(edges, s.startNode).None? then Err(CycleNotMarkedLoop)
        else Ok(Plan(s.startNode, s.nodes, edges, hash))
  }

  /** What every compiled plan guarantees to the engines that walk it. */
  ghost predicate Sound(plan: Plan) {
    && plan.startNode in plan.nodes
    && plan.edges != []
    && ExactlyReachable(plan.edges, plan.startNode, plan.nodes.Keys)
    && (forall e :: e in plan.edges && e.src in plan.nodes ==> e.dst in plan.nodes)
    && exists done :: Layered(plan, done)
  }

  /** A listing of the plan's nodes along which NORMAL edges lead only backwards. */
  ghost predicate Layered(plan: Plan, done: seq<string>) {
    && Distinct(done)
    && NormalPostorder(plan.edges, done)
    && forall n :: n in plan.nodes ==> n in done
  }

  lemma CompiledIsSound(s: Snapshot, hash: string)
    requires Outcome(s, hash).Ok?
    ensures Sound(Outcome(s, hash).plan)
  {
    var plan := Outcome(s, hash).plan;
    LoopValidation.AcceptedOrder(plan.edges, plan.startNode);
    var done := LoopValidation.Order(plan.edges, plan.startNode).value;
    assert Layered(plan, done);
    assert |plan.edges| == |Sort(s.edges)| == |multiset(Sort(s.edges))| == |s.edges|;
    forall e | e in plan.edges && e.src in plan.nodes ensures e.dst in plan.nodes {
      var p :| PathBetween(plan.edges, plan.startNode, e.src, p);
      ExtendPath(plan.edges, plan.startNode, p, e);
    }
  }

  lemma ExtendPath(edges: seq<Edge>, start: string, p: seq<string>, e: Edge)
    requires PathBetween(edges, start, e.src, p) && e in edges
    ensures Reachable(edges, start, e.dst)
  {
    var q := p + [e.dst];
    forall k | 0 <= k < |q| - 1 ensures HasEdge(edges, q[k], q[k+1]) {
      if k + 1 < |p| { assert HasEdge(edges, p[k], p[k+1]); }
    }
    assert PathBetween(edges, start, e.dst, q);
  }

  lemma SourceIsListed(specs: seq<EdgeSpec>, nodes: set<string>, e: Edge)
    requires forall spec :: spec in specs ==> spec.src in nodes
    requires (forall spec :: spec in Sort(specs) ==> spec.compiled.Some?) && e in CompileEdges(Sort(specs))
    ensures e.src in nodes
  {
    var i :| 0 <= i < |Sort(specs)| && CompileEdges(Sort(specs))[i] == e;
    assert Sort(specs)[i] in multiset(Sort(specs));
  }

  lemma SoundIsNormalAcyclic(plan: Plan)
    requires Sound(plan) && forall e :: e in plan.edges ==> e.src in plan.nodes
    ensures NormalAcyclic(plan.edges)
  {
    var done :| Layered(plan, done);
    forall v | v in Vertices(plan.edges) ensures v in done {
      assert v in plan.nodes;
    }
    PostorderIsAcyclic(plan.edges, done);
  }

  lemma PlanOf(s: Snapshot, hash: string)
    requires Outcome(s, hash).Ok?
    ensures forall spec :: spec in Sort(s.edges) ==> spec.compiled.Some?
    ensures Outcome(s, hash).plan == Plan(s.startNode, s.nodes, CompileEdges(Sort(s.edges)), hash)
  {
    hide Sort, CompileEdges, ExactlyReachable, LoopValidation.Order;
  }

  /** No compiled plan whose edges all start at its nodes has a cycle without a LOOP edge. */
  lemma CompiledIsNormalAcyclic(s: Snapshot, hash: string)
    requires Outcome(s, hash).Ok?
    requires forall e :: e in s.edges ==> e.src in s.nodes
    ensures NormalAcyclic(Outcome(s, hash).plan.edges)
  {
    PlanOf(s, hash);
    hide Outcome, NormalAcyclic, Sound, Sort, CompileEdges;
    var plan := Outcome(s, hash).plan;
    CompiledIsSound(s, hash);
    forall e | e in plan.edges ensures e.src in plan.nodes {
      SourceIsListed(s.edges, s.nodes.Keys, e);
    }
    SoundIsNormalAcyclic(plan);
  }

  // ----- The compiler as the source runs it -----

  /** The nested `dfs` of `_validate_reachability` and the set it fills. */
  class ReachabilitySearch {
    const edges: seq<Edge>
    var visited: set<string>

    constructor (edges: seq<Edge>)
      ensures this.edges == edges && visited == {}
    {
      this.edges := edges;
      visited := {};
    }

    method Dfs(ghost root: string, node: string)
      requires Reachable(edges, root, node)
      modifies this
      ensures old(visited) <= visited && node in visited
      ensures forall v :: v in visited && v !in old(visited) ==> Reachable(edges, root, v)
      ensures forall e :: e in edges && e.src in visited && e.src !in old(visited) ==> e.dst in visited
      decreases Vertices(edges) + {node} - visited
    {
      if node in visited {
        return;
      }
      visited := visited + {node};
      var out := Out(edges, node);
      for i := 0 to |out|
        invariant old(visited) + {node} <= visited
        invariant forall v :: v in visited && v !in old(visited) ==> Reachable(edges, root, v)
        invariant forall e :: e in edges && e.src in visited && e.src !in old(visited) + {node} ==> e.dst in visited
        invariant forall j :: 0 <= j < i ==> out[j].dst in visited
      {
        var edge := out[i];
        assert edge in out;
        ghost var p :| PathBetween(edges, root, node, p);
        ExtendPath(edges, root, p, edge);
        assert node in Vertices(edges) + {node} - old(visited) && node !in Vertices(edges) + {edge.dst} - visited;
        Dfs(root, edge.dst);
      }
    }
  }

  lemma ClosedIsReachable(edges: seq<Edge>, start: string, visited: set<string>)
    requires start in visited
    requires forall e :: e in edges && e.src in visited ==> e.dst in visited
    ensures forall v :: Reachable(edges, start, v) ==> v in visited
  {
    forall v | Reachable(edges, start, v) ensures v in visited {
      var p :| PathBetween(edges, start, v, p);
      ClosedPath(edges, visited, p);
    }
  }

  method Compile(s: Snapshot, hash: string) returns (r: Compiled)
    ensures r == Outcome(s, hash)
    ensures r.Ok? ==> Sound(r.plan)
  {
    if s.startNode == "" || s.startNode !in s.nodes {
      return Err(StartNodeNotFound);
    }
    if s.edges == [] {
      return Err(EdgesRequired);
    }
    if forall n :: n in s.nodes ==> !IsTerminalType(s.nodes[n]) {
      return Err(NoTerminalNodes);
    }
    var sorted := Sort(s.edges);
    if exists e :: e in sorted && e.compiled.None? {
      return Err(CompiledConditionMissing);
    }
    var edges := CompileEdges(sorted);

    hide Sort, CompileEdges, KeyLeq;
    var search := new ReachabilitySearch(edges);
    assert PathBetween(edges, s.startNode, s.startNode, [s.startNode]);
    search.Dfs(s.startNode, s.startNode);
    ClosedIsReachable(edges, s.startNode, search.visited);
    if s.nodes.Keys != search.visited {
      return Err(UnreachableNodes);
    }

    var loops := new LoopValidation.LoopValidator(edges);
    var ok := loops.Dfs(s.startNode);
    if !ok {
      return Err(CycleNotMarkedLoop);
    }
    r := Ok(Plan(s.startNode, s.nodes, edges, hash));
    CompiledIsSound(s, hash);
  }
}
