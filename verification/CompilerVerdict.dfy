/** What the compiler answers, check by check and independently of how it sorts the edges. */
module CompilerVerdict {
  import opened FlowGraph
  import opened GraphCompiler
  import opened LoopNaming
  import LoopValidation

  predicate StartKnown(s: Snapshot) { s.startNode != "" && s.startNode in s.nodes }

  predicate HasTerminal(s: Snapshot) { exists n :: n in s.nodes && (s.nodes[n] == "ResponseBuilder" || s.nodes[n] == "HumanFallback") }

  predicate AllCompiled(s: Snapshot) { forall e :: e in s.edges ==> e.compiled.Some? }

  /** The nodes are exactly the identifiers that a path from the start reaches. */
  ghost predicate AllReached(s: Snapshot)
    requires AllCompiled(s)
  {
    forall v :: v in s.nodes <==> exists p :: PathBetween(CompileEdges(s.edges), s.startNode, v, p)
  }

  /** Edges stand by source, those of one source by target. */
  ghost predicate SourceOrder(edges: seq<Edge>) {
    forall i :: 0 <= i < |edges| - 1 ==> Before(edges[i], edges[i+1])
  }

  predicate Before(a: Edge, b: Edge) { if a.src != b.src then LexLeq(a.src, b.src) else a.dst == b.dst || LexLeq(a.dst, b.dst) }

  /** The plan is the snapshot, its edges compiled and put in order. */
  ghost predicate PlanOf(s: Snapshot, hash: string, plan: Plan)
    requires AllCompiled(s)
  {
    && plan.startNode == s.startNode && plan.nodes == s.nodes && plan.structuralHash == hash
    && multiset(plan.edges) == multiset(CompileEdges(s.edges)) && SourceOrder(plan.edges)
  }

  /** Which error a snapshot is refused with, each by its own condition and in the order of the checks. What
      is left over is compiled, or refused for its loops. */
  ghost predicate Verdict(s: Snapshot, hash: string, r: Compiled) {
    && (r == Err(StartNodeNotFound) <==> !StartKnown(s))
    && (r == Err(EdgesRequired) <==> StartKnown(s) && s.edges == [])
    && (r == Err(NoTerminalNodes) <==> StartKnown(s) && s.edges != [] && !HasTerminal(s))
    && (r == Err(CompiledConditionMissing) <==> StartKnown(s) && s.edges != [] && HasTerminal(s) && !AllCompiled(s))
    && (r == Err(UnreachableNodes) <==> StartKnown(s) && s.edges != [] && HasTerminal(s) && AllCompiled(s) && !AllReached(s))
    && (r.Ok? || r == Err(CycleNotMarkedLoop) <==>
          StartKnown(s) && s.edges != [] && HasTerminal(s) && AllCompiled(s) && AllReached(s))
    && (r.Ok? ==> PlanOf(s, hash, r.plan))
  }

  lemma CompiledOrder(specs: seq<EdgeSpec>)
    requires InKeyOrder(specs) && forall e :: e in specs ==> e.compiled.Some?
    ensures SourceOrder(CompileEdges(specs))
  {
    hide LexLeq;
    var edges := CompileEdges(specs);
    forall i | 0 <= i < |edges| - 1 ensures Before(edges[i], edges[i+1]) { assert KeyLeq(specs[i], specs[i+1]); }
  }

  function Without<T>(s: seq<T>, i: nat): seq<T>
    requires i < |s|
  {
    s[..i] + s[i+1..]
  }

  lemma TakeOut<T>(s: seq<T>, i: nat)
    requires i < |s|
    ensures multiset(s) == multiset{s[i]} + multiset(Without(s, i))
  {
    assert s == s[..i] + ([s[i]] + s[i+1..]);
  }

  lemma CompiledTakeOut(s: seq<EdgeSpec>, i: nat)
    requires i < |s| && forall e :: e in s ==> e.compiled.Some?
    ensures forall e :: e in Without(s, i) ==> e.compiled.Some?
    ensures multiset(CompileEdges(s)) == multiset{CompileEdges(s)[i]} + multiset(CompileEdges(Without(s, i)))
  {
    var r := CompileEdges(s);
    TakeOut(r, i);
    assert CompileEdges(Without(s, i)) == Without(r, i);
  }

  lemma CompiledBack(a: seq<EdgeSpec>, i: nat, b: seq<EdgeSpec>, j: nat)
    requires i < |a| && j < |b| && a[i] == b[j]
    requires (forall e :: e in a ==> e.compiled.Some?) && (forall e :: e in b ==> e.compiled.Some?)
    ensures (forall e :: e in Without(a, i) ==> e.compiled.Some?) && (forall e :: e in Without(b, j) ==> e.compiled.Some?)
    ensures multiset(CompileEdges(Without(a, i))) == multiset(CompileEdges(Without(b, j))) ==>
              multiset(CompileEdges(a)) == multiset(CompileEdges(b))
  {
    hide CompileEdges;
    CompiledTakeOut(a, i);
    CompiledTakeOut(b, j);
  }

  lemma {:induction false} CompiledMultiset(a: seq<EdgeSpec>, b: seq<EdgeSpec>)
    requires multiset(a) == multiset(b) && (forall e :: e in a ==> e.compiled.Some?) && (forall e :: e in b ==> e.compiled.Some?)
    ensures multiset(CompileEdges(a)) == multiset(CompileEdges(b))
    decreases |a|
  {
    hide CompileEdges;
    if a == [] {
      assert |b| == |multiset(b)| == |multiset(a)| == 0;
    } else {
      assert a[0] in multiset(b);
      var i :| 0 <= i < |b| && b[i] == a[0];
      SameRest(a, 0, b, i);
      CompiledBack(a, 0, b, i);
      assert |Without(a, 0)| < |a|;
      hide Without;
      CompiledMultiset(Without(a, 0), Without(b, i));
    }
  }

  lemma SameRest<T>(a: seq<T>, i: nat, b: seq<T>, j: nat)
    requires i < |a| && j < |b| && a[i] == b[j] && multiset(a) == multiset(b)
    ensures multiset(Without(a, i)) == multiset(Without(b, j))
  {
    TakeOut(a, i);
    TakeOut(b, j);
    hide Without;
    Cancel(a[i], multiset(Without(a, i)), multiset(Without(b, j)));
  }

  lemma Cancel<T>(x: T, a: multiset<T>, b: multiset<T>)
    requires multiset{x} + a == multiset{x} + b
    ensures a == b
  {
    assert a == (multiset{x} + a) - multiset{x} && b == (multiset{x} + b) - multiset{x};
  }

  lemma SortedPlan(s: Snapshot, hash: string)
    requires AllCompiled(s)
    ensures PlanOf(s, hash, Plan(s.startNode, s.nodes, Seen(s), hash))
  {
    SortMembers(s.edges);
    hide Sort, CompileEdges, SourceOrder, InKeyOrder;
    CompiledOrder(Sort(s.edges));
    CompiledMultiset(Sort(s.edges), s.edges);
  }

  lemma ReachedIff(s: Snapshot)
    requires AllCompiled(s)
    ensures AllReached(s) <==> ExactlyReachable(Seen(s), s.startNode, s.nodes.Keys)
  {
    SeenMembers(s);
    SameReach(Seen(s), CompileEdges(s.edges), s.startNode);
    hide Seen, CompileEdges, SameMembers, PathBetween;
    forall v ensures Reachable(Seen(s), s.startNode, v) <==> exists p :: PathBetween(CompileEdges(s.edges), s.startNode, v, p) {
      assert Reachable(CompileEdges(s.edges), s.startNode, v) <==> exists p :: PathBetween(CompileEdges(s.edges), s.startNode, v, p);
    }
  }

  lemma CheckedVerdict(s: Snapshot, hash: string)
    requires StartKnown(s) && s.edges != [] && HasTerminal(s) && AllCompiled(s)
    ensures Verdict(s, hash, Outcome(s, hash))
  {
    SortMembers(s.edges);
    ReachedIff(s);
    SortedPlan(s, hash);
    hide Sort, CompileEdges, ExactlyReachable, AllReached, PlanOf, LoopValidation.Order;
  }

  lemma EarlyVerdict(s: Snapshot, hash: string)
    requires !(StartKnown(s) && s.edges != [] && HasTerminal(s) && AllCompiled(s))
    ensures Verdict(s, hash, Outcome(s, hash))
  {
    SortMembers(s.edges);
    hide Sort, CompileEdges, ExactlyReachable, AllReached, PlanOf, LoopValidation.Order;
  }

  /** The compiler's answer, exactly, but for which of the remaining snapshots have a loop it refuses. */
  lemma OutcomeExact(s: Snapshot, hash: string)
    ensures Verdict(s, hash, Outcome(s, hash))
  {
    hide Verdict, Outcome;
    if StartKnown(s) && s.edges != [] && HasTerminal(s) && AllCompiled(s) {
      CheckedVerdict(s, hash);
    } else {
      EarlyVerdict(s, hash);
    }
  }
}
