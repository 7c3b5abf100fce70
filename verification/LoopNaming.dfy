/** When the loop check is exact: which graphs it refuses under some order of their edges, and which
    under some naming of their nodes, since names decide the order. */
module LoopNaming {
  import opened FlowGraph
  import opened GraphCompiler
  import opened LoopValidation

  // ----- Orders that lead the search along a walk -----

  /** The first `k` edges lead to nodes of the walk so far, and the next one where it goes on; a
      step that closes the walk is NORMAL. */
  ghost predicate LeadsTo(es: seq<Edge>, k: nat, walk: seq<string>, to: string, closes: bool) {
    k < |es| && es[k].dst == to && (closes ==> es[k].kind == Normal) && forall i :: 0 <= i < k ==> es[i].dst in walk
  }

  ghost predicate Leads(es: seq<Edge>, walk: seq<string>, to: string, closes: bool) {
    exists k :: LeadsTo(es, k, walk, to, closes)
  }

  /** Where the walk goes from its i-th node. */
  function Next(p: seq<string>, back: string, i: nat): string { if i + 1 < |p| then p[i+1] else back }

  ghost predicate FollowsAt(edges: seq<Edge>, p: seq<string>, back: string, i: nat)
    requires i < |p|
  {
    Leads(Out(edges, p[i]), p[..i+1], Next(p, back, i), i == |p| - 1)
  }

  /** The search follows `p` and meets the NORMAL edge that closes it. */
  ghost predicate Follows(edges: seq<Edge>, p: seq<string>, back: string) {
    p != [] && Distinct(p) && back in p && forall i :: 0 <= i < |p| ==> FollowsAt(edges, p, back, i)
  }

  /** Edges back into the walk either close it at once or are passed over. */
  lemma {:induction false} PassesOver(edges: seq<Edge>, es: seq<Edge>, k: nat, stack: seq<string>)
    requires forall e :: e in es ==> e in edges
    requires k < |es| && forall i :: 0 <= i < k ==> es[i].dst in stack
    requires VisitEdges(edges, es[k..], stack, []).None?
    ensures VisitEdges(edges, es, stack, []).None?
    decreases k
  {
    if k == 0 {
      assert es[0..] == es;
    } else {
      assert es[1..][k-1..] == es[k..];
      forall i | 0 <= i < k - 1 ensures es[1..][i].dst in stack { assert es[1..][i] == es[i+1]; }
      PassesOver(edges, es[1..], k - 1, stack);
      assert es[0].dst in stack;
      assert Visit(edges, es[0].dst, stack, []) == Some([]);
    }
  }

  lemma HeadRefuses(edges: seq<Edge>, es: seq<Edge>, stack: seq<string>, closes: bool)
    requires es != [] && (forall e :: e in es ==> e in edges) && (closes ==> es[0].kind == Normal)
    requires if closes then es[0].dst in stack else Visit(edges, es[0].dst, stack, []).None?
    ensures VisitEdges(edges, es, stack, []).None?
  {
    hide Visit;
    assert es[0] in es;
  }

  lemma TopRefuses(edges: seq<Edge>, node: string, stack: seq<string>, to: string, closes: bool)
    requires node !in stack && Leads(Out(edges, node), stack + [node], to, closes)
    requires if closes then to in stack + [node] else Visit(edges, to, stack + [node], []).None?
    ensures Visit(edges, node, stack, []).None?
  {
    hide VisitEdges, Out;
    var out, top := Out(edges, node), stack + [node];
    var k: nat :| LeadsTo(out, k, top, to, closes);
    var rest := out[k..];
    assert rest[0] == out[k];
    HeadRefuses(edges, rest, top, closes);
    PassesOver(edges, out, k, top);
  }

  lemma StepOfWalk(edges: seq<Edge>, p: seq<string>, back: string, i: nat)
    requires Follows(edges, p, back) && i < |p|
    ensures p[i] !in p[..i] && p[..i] + [p[i]] == p[..i+1]
    ensures Leads(Out(edges, p[i]), p[..i] + [p[i]], Next(p, back, i), i == |p| - 1)
    ensures i == |p| - 1 ==> Next(p, back, i) in p[..i] + [p[i]]
  {
    hide Leads, Out;
    assert FollowsAt(edges, p, back, i);
    assert p[..i] + [p[i]] == p[..i+1];
    assert p[..|p|] == p;
  }

  lemma {:induction false} RefusesAlong(edges: seq<Edge>, p: seq<string>, back: string, i: nat)
    requires Follows(edges, p, back) && i < |p|
    ensures Visit(edges, p[i], p[..i], []).None?
    decreases |p| - i
  {
    hide Leads, Visit, Follows, Out;
    StepOfWalk(edges, p, back, i);
    if i + 1 < |p| { RefusesAlong(edges, p, back, i + 1); }
    TopRefuses(edges, p[i], p[..i], Next(p, back, i), i == |p| - 1);
  }

  lemma FollowedIsRefused(edges: seq<Edge>, p: seq<string>, back: string)
    requires Follows(edges, p, back)
    ensures Order(edges, p[0]).None?
  {
    RefusesAlong(edges, p, back, 0);
    assert p[..0] == [];
  }

  // ----- Every order of the edges -----

  /** The walk's own edges: each to the next node, and the NORMAL ones that close it. */
  predicate OnWalk(p: seq<string>, back: string, e: Edge) {
    || (exists i :: 0 <= i < |p| - 1 && e.src == p[i] && e.dst == p[i+1])
    || (p != [] && e.src == p[|p|-1] && e.dst == back && e.kind == Normal)
  }

  function Picked(edges: seq<Edge>, p: seq<string>, back: string, on: bool): (r: seq<Edge>)
    ensures forall e :: e in r <==> e in edges && OnWalk(p, back, e) == on
  {
    if edges == [] then []
    else (if OnWalk(p, back, edges[0]) == on then [edges[0]] else []) + Picked(edges[1..], p, back, on)
  }

  /** The walk's edges moved to the front. */
  function WalkFirst(edges: seq<Edge>, p: seq<string>, back: string): seq<Edge> {
    Picked(edges, p, back, true) + Picked(edges, p, back, false)
  }

  lemma {:induction false} WalkFirstReorders(edges: seq<Edge>, p: seq<string>, back: string)
    ensures multiset(WalkFirst(edges, p, back)) == multiset(edges)
    decreases |edges|
  {
    if edges != [] {
      assert edges == [edges[0]] + edges[1..];
      WalkFirstReorders(edges[1..], p, back);
    }
  }

  lemma {:induction false} OutConcat(a: seq<Edge>, b: seq<Edge>, node: string)
    ensures Out(a + b, node) == Out(a, node) + Out(b, node)
    decreases |a|
  {
    if a == [] {
      assert a + b == b;
    } else {
      assert (a + b)[1..] == a[1..] + b;
      OutConcat(a[1..], b, node);
    }
  }

  lemma WalkEdge(edges: seq<Edge>, p: seq<string>, back: string, i: nat) returns (e: Edge)
    requires UnmarkedCycle(edges, p, back) && i < |p|
    ensures e in edges && e.src == p[i] && e.dst == Next(p, back, i) && (i == |p| - 1 ==> e.kind == Normal)
    ensures OnWalk(p, back, e)
  {
    if i + 1 < |p| {
      assert HasEdge(edges, p[i], p[i+1]);
      e :| e in edges && e.src == p[i] && e.dst == p[i+1];
    } else {
      e :| e in edges && e.src == p[|p|-1] && e.dst == back && e.kind == Normal;
    }
  }

  lemma OnWalkFrom(p: seq<string>, back: string, i: nat, e: Edge)
    requires Distinct(p) && i < |p| && e.src == p[i] && OnWalk(p, back, e)
    ensures e.dst == Next(p, back, i) && (i == |p| - 1 ==> e.kind == Normal)
  {
  }

  lemma WalkFirstFollows(edges: seq<Edge>, p: seq<string>, back: string)
    requires UnmarkedCycle(edges, p, back)
    ensures Follows(WalkFirst(edges, p, back), p, back)
  {
    hide Picked, OnWalk, UnmarkedCycle, Next;
    assert p != [] && Distinct(p) && back in p by { Unfolded(edges, p, back); }
    var first, rest := Picked(edges, p, back, true), Picked(edges, p, back, false);
    forall i | 0 <= i < |p| ensures FollowsAt(first + rest, p, back, i) {
      var e := WalkEdge(edges, p, back, i);
      assert e in Out(first, p[i]);
      OutConcat(first, rest, p[i]);
      var f := Out(first, p[i])[0];
      assert f in Out(first, p[i]);
      OnWalkFrom(p, back, i, f);
      assert LeadsTo(Out(first + rest, p[i]), 0, p[..i+1], Next(p, back, i), i == |p| - 1);
    }
  }

  lemma Unfolded(edges: seq<Edge>, p: seq<string>, back: string)
    requires UnmarkedCycle(edges, p, back)
    ensures p != [] && Distinct(p) && back in p
  {
  }

  /** A walk without repetitions from the start that a NORMAL edge closes. */
  ghost predicate ClosableWalk(edges: seq<Edge>, start: string) {
    exists p, back :: UnmarkedCycle(edges, p, back) && p[0] == start
  }

  ghost predicate Reorders(order: seq<Edge>, edges: seq<Edge>) { multiset(order) == multiset(edges) }

  lemma SameEdges(order: seq<Edge>, edges: seq<Edge>, p: seq<string>, back: string)
    requires forall e :: e in order <==> e in edges
    ensures UnmarkedCycle(order, p, back) <==> UnmarkedCycle(edges, p, back)
  {
    if UnmarkedCycle(order, p, back) { UsesEdgesOf(order, edges, p, back); }
    if UnmarkedCycle(edges, p, back) { UsesEdgesOf(edges, order, p, back); }
  }

  lemma UsesEdgesOf(some: seq<Edge>, more: seq<Edge>, p: seq<string>, back: string)
    requires UnmarkedCycle(some, p, back) && forall e :: e in some ==> e in more
    ensures UnmarkedCycle(more, p, back)
  {
    forall i | 0 <= i < |p| - 1 ensures HasEdge(more, p[i], p[i+1]) { assert HasEdge(some, p[i], p[i+1]); }
  }

  /** The check refuses a graph under some order of its edges exactly when a walk without
      repetitions from the start is closed by a NORMAL edge. */
  lemma RefusedUnderSomeOrderIff(edges: seq<Edge>, start: string)
    ensures (exists order :: Reorders(order, edges) && Order(order, start).None?) <==> ClosableWalk(edges, start)
  {
    if order :| Reorders(order, edges) && Order(order, start).None? {
      var p, back := RefusedHasUnmarkedCycle(order, start);
      assert forall e :: e in order <==> e in multiset(order);
      SameEdges(order, edges, p, back);
    }
    if ClosableWalk(edges, start) {
      var p, back :| UnmarkedCycle(edges, p, back) && p[0] == start;
      WalkFirstReorders(edges, p, back);
      WalkFirstFollows(edges, p, back);
      FollowedIsRefused(WalkFirst(edges, p, back), p, back);
    }
  }

  // ----- Names -----

  /** A renaming of nodes: no two get one name, and none the empty one. */
  ghost predicate Naming(names: string -> string) {
    (forall a, b :: names(a) == names(b) ==> a == b) && forall a :: names(a) != ""
  }

  function RenamedSpec(e: EdgeSpec, names: string -> string): EdgeSpec { e.(src := names(e.src), dst := names(e.dst)) }

  function RenamedSpecs(es: seq<EdgeSpec>, names: string -> string): (r: seq<EdgeSpec>)
    ensures |r| == |es| && forall i :: 0 <= i < |es| ==> r[i] == RenamedSpec(es[i], names)
  {
    seq(|es|, i requires 0 <= i < |es| => RenamedSpec(es[i], names))
  }

  ghost function Renamed(s: Snapshot, names: string -> string): Snapshot
    requires Naming(names)
  {
    Snapshot(names(s.startNode), map n | n in s.nodes :: names(n) := s.nodes[n], RenamedSpecs(s.edges, names))
  }

  /** The checks before the loop check pass. */
  ghost predicate Checked(s: Snapshot) {
    && s.startNode != "" && s.startNode in s.nodes && s.edges != []
    && (exists n :: n in s.nodes && IsTerminalType(s.nodes[n]))
    && (forall e :: e in s.edges ==> e.compiled.Some?)
    && ExactlyReachable(CompileEdges(s.edges), s.startNode, s.nodes.Keys)
  }

  function RenamedEdge(e: Edge, names: string -> string): Edge { e.(src := names(e.src), dst := names(e.dst)) }

  /** Both lists have the same edges, those of the second renamed. */
  ghost predicate Renames(edges: seq<Edge>, originals: seq<Edge>, names: string -> string) {
    && (forall e :: e in originals ==> RenamedEdge(e, names) in edges)
    && (forall e :: e in edges ==> exists o :: o in originals && RenamedEdge(o, names) == e)
  }

  lemma CompiledMember(specs: seq<EdgeSpec>, e: Edge)
    requires forall x :: x in specs ==> x.compiled.Some?
    ensures e in CompileEdges(specs) <==> exists x :: x in specs && e == Edge(x.src, x.dst, x.kind, x.compiled.value)
  {
    var r := CompileEdges(specs);
    if e in r {
      var i :| 0 <= i < |r| && r[i] == e;
      assert specs[i] in specs;
    }
    if x :| x in specs && e == Edge(x.src, x.dst, x.kind, x.compiled.value) {
      var i :| 0 <= i < |specs| && specs[i] == x;
      assert r[i] == e;
    }
  }

  lemma SortMembers(specs: seq<EdgeSpec>)
    ensures forall e :: e in Sort(specs) <==> e in specs
  {
    assert forall e :: e in Sort(specs) <==> e in multiset(Sort(specs));
  }

  /** The edges the compiler sees, in its order. */
  ghost function Seen(s: Snapshot): seq<Edge>
    requires forall e :: e in s.edges ==> e.compiled.Some?
  {
    SortMembers(s.edges);
    CompileEdges(Sort(s.edges))
  }

  lemma RenamedCompiles(specs: seq<EdgeSpec>, names: string -> string)
    requires forall e :: e in specs ==> e.compiled.Some?
    ensures forall e :: e in RenamedSpecs(specs, names) ==> e.compiled.Some?
  {
    var r := RenamedSpecs(specs, names);
    forall e | e in r ensures e.compiled.Some? {
      var i :| 0 <= i < |r| && r[i] == e;
      assert specs[i] in specs;
    }
  }

  lemma CompiledRenames(specs: seq<EdgeSpec>, names: string -> string)
    requires forall e :: e in specs ==> e.compiled.Some?
    ensures forall e :: e in RenamedSpecs(specs, names) ==> e.compiled.Some?
    ensures Renames(CompileEdges(RenamedSpecs(specs, names)), CompileEdges(specs), names)
  {
    RenamedCompiles(specs, names);
    var from, to := CompileEdges(specs), CompileEdges(RenamedSpecs(specs, names));
    assert forall i :: 0 <= i < |from| ==> to[i] == RenamedEdge(from[i], names);
    forall e | e in to ensures exists o :: o in from && RenamedEdge(o, names) == e {
      var i :| 0 <= i < |to| && to[i] == e;
      assert from[i] in from;
    }
    forall e | e in from ensures RenamedEdge(e, names) in to {
      var i :| 0 <= i < |from| && from[i] == e;
      assert to[i] in to;
    }
  }

  ghost predicate SameMembers(a: seq<Edge>, b: seq<Edge>) { forall e :: e in a <==> e in b }

  lemma SeenMembers(s: Snapshot)
    requires forall e :: e in s.edges ==> e.compiled.Some?
    ensures SameMembers(Seen(s), CompileEdges(s.edges))
  {
    SortMembers(s.edges);
    hide CompileEdges, Sort;
    forall e ensures e in Seen(s) <==> e in CompileEdges(s.edges) {
      CompiledMember(s.edges, e);
      CompiledMember(Sort(s.edges), e);
    }
  }

  lemma SamePath(a: seq<Edge>, b: seq<Edge>, p: seq<string>)
    requires SameMembers(a, b)
    ensures IsPath(a, p) <==> IsPath(b, p)
  {
    forall u, v ensures HasEdge(a, u, v) <==> HasEdge(b, u, v) {
      if HasEdge(a, u, v) { var e :| e in a && e.src == u && e.dst == v; assert e in b; }
      if HasEdge(b, u, v) { var e :| e in b && e.src == u && e.dst == v; assert e in a; }
    }
  }

  lemma SameReach(a: seq<Edge>, b: seq<Edge>, start: string)
    requires SameMembers(a, b)
    ensures forall v :: Reachable(a, start, v) <==> Reachable(b, start, v)
  {
    hide IsPath, SameMembers;
    forall p ensures IsPath(a, p) <==> IsPath(b, p) { SamePath(a, b, p); }
    forall v ensures Reachable(a, start, v) <==> Reachable(b, start, v) {
      if p :| PathBetween(a, start, v, p) { assert PathBetween(b, start, v, p) by { NonEmptyPath(a, p); } }
      if p :| PathBetween(b, start, v, p) { assert PathBetween(a, start, v, p) by { NonEmptyPath(b, p); } }
    }
  }

  lemma NonEmptyPath(edges: seq<Edge>, p: seq<string>)
    requires IsPath(edges, p)
    ensures p != []
  {
  }

  // ----- Walks under a renaming -----

  function NamesOf(p: seq<string>, names: string -> string): (r: seq<string>)
    ensures |r| == |p| && forall i :: 0 <= i < |p| ==> r[i] == names(p[i])
  {
    seq(|p|, i requires 0 <= i < |p| => names(p[i]))
  }

  lemma Original(edges: seq<Edge>, originals: seq<Edge>, names: string -> string, e: Edge, u: string, v: string)
    returns (o: Edge)
    requires Naming(names) && Renames(edges, originals, names) && e in edges && e.src == names(u) && e.dst == names(v)
    ensures o in originals && o.src == u && o.dst == v && o.kind == e.kind
  {
    o :| o in originals && RenamedEdge(o, names) == e;
  }

  lemma RenamedHop(edges: seq<Edge>, originals: seq<Edge>, names: string -> string, u: string, v: string)
    requires Naming(names) && Renames(edges, originals, names)
    ensures HasEdge(edges, names(u), names(v)) <==> HasEdge(originals, u, v)
    ensures HasNormalEdge(edges, names(u), names(v)) <==> HasNormalEdge(originals, u, v)
  {
    forall o | o in originals && o.src == u && o.dst == v ensures RenamedEdge(o, names) in edges {}
    hide Naming, Renames;
    if e :| e in edges && e.src == names(u) && e.dst == names(v) { var o := Original(edges, originals, names, e, u, v); }
    if e :| e in edges && e.src == names(u) && e.dst == names(v) && e.kind == Normal {
      var o := Original(edges, originals, names, e, u, v);
    }
    if o :| o in originals && o.src == u && o.dst == v { assert RenamedEdge(o, names) in edges; }
    if o :| o in originals && o.src == u && o.dst == v && o.kind == Normal { assert RenamedEdge(o, names) in edges; }
  }

  lemma RenamedPath(edges: seq<Edge>, originals: seq<Edge>, names: string -> string, p: seq<string>)
    requires Naming(names) && Renames(edges, originals, names)
    ensures IsPath(edges, NamesOf(p, names)) <==> IsPath(originals, p)
    ensures Distinct(NamesOf(p, names)) <==> Distinct(p)
  {
    hide Renames;
    var q := NamesOf(p, names);
    forall i | 0 <= i < |p| - 1 ensures HasEdge(edges, q[i], q[i+1]) <==> HasEdge(originals, p[i], p[i+1]) {
      RenamedHop(edges, originals, names, p[i], p[i+1]);
    }
  }

  /** Every walk in the renamed graph that starts at a renamed node is a renamed walk. */
  lemma {:induction false} WalkIsRenamed(edges: seq<Edge>, originals: seq<Edge>, names: string -> string, start: string, q: seq<string>)
    returns (p: seq<string>)
    requires Naming(names) && Renames(edges, originals, names) && IsPath(edges, q) && q[0] == names(start)
    ensures p != [] && p[0] == start && q == NamesOf(p, names)
    decreases |q|
  {
    if |q| == 1 {
      p := [start];
    } else {
      var r := q[..|q|-1];
      assert IsPath(edges, r) by {
        forall i | 0 <= i < |r| - 1 ensures HasEdge(edges, r[i], r[i+1]) { assert HasEdge(edges, q[i], q[i+1]); }
      }
      var t := WalkIsRenamed(edges, originals, names, start, r);
      assert HasEdge(edges, q[|q|-2], q[|q|-1]);
      var e :| e in edges && e.src == q[|q|-2] && e.dst == q[|q|-1];
      var o :| o in originals && RenamedEdge(o, names) == e;
      p := t + [o.dst];
      assert q == r + [q[|q|-1]];
    }
  }

  lemma RenamedReach(edges: seq<Edge>, originals: seq<Edge>, names: string -> string, start: string)
    requires Naming(names) && Renames(edges, originals, names)
    ensures forall v :: Reachable(originals, start, v) ==> Reachable(edges, names(start), names(v))
    ensures forall u :: Reachable(edges, names(start), u) ==> exists v :: u == names(v) && Reachable(originals, start, v)
  {
    hide IsPath, Renames, Naming;
    forall v | Reachable(originals, start, v) ensures Reachable(edges, names(start), names(v)) {
      var p :| PathBetween(originals, start, v, p);
      NonEmptyPath(originals, p);
      RenamedPath(edges, originals, names, p);
      assert PathBetween(edges, names(start), names(v), NamesOf(p, names));
    }
    forall u | Reachable(edges, names(start), u) ensures exists v :: u == names(v) && Reachable(originals, start, v) {
      var q :| PathBetween(edges, names(start), u, q);
      NonEmptyPath(edges, q);
      var p := WalkIsRenamed(edges, originals, names, start, q);
      RenamedPath(edges, originals, names, p);
      assert PathBetween(originals, start, p[|p|-1], p);
    }
  }

  // ----- The earlier checks do not depend on names -----

  lemma RenamedNodes(s: Snapshot, names: string -> string)
    requires Naming(names)
    ensures forall n :: n in s.nodes ==> names(n) in Renamed(s, names).nodes && Renamed(s, names).nodes[names(n)] == s.nodes[n]
    ensures forall v :: v in Renamed(s, names).nodes ==> exists n :: n in s.nodes && v == names(n)
  {
  }

  lemma RenamedExact(s: Snapshot, names: string -> string, edges: seq<Edge>, originals: seq<Edge>)
    requires Naming(names) && Renames(edges, originals, names) && ExactlyReachable(originals, s.startNode, s.nodes.Keys)
    ensures ExactlyReachable(edges, names(s.startNode), Renamed(s, names).nodes.Keys)
  {
    RenamedReach(edges, originals, names, s.startNode);
    RenamedNodes(s, names);
    hide Naming, Renames, Reachable, Renamed;
    var nodes := Renamed(s, names).nodes;
    forall v ensures v in nodes.Keys <==> Reachable(edges, names(s.startNode), v) {
      if v in nodes.Keys { var u :| u in s.nodes && v == names(u); assert u in s.nodes.Keys; }
      if Reachable(edges, names(s.startNode), v) {
        var u :| v == names(u) && Reachable(originals, s.startNode, u);
        assert u in s.nodes.Keys;
      }
    }
  }

  lemma RenamedTerminal(s: Snapshot, names: string -> string)
    requires Naming(names) && exists n :: n in s.nodes && IsTerminalType(s.nodes[n])
    ensures exists n :: n in Renamed(s, names).nodes && IsTerminalType(Renamed(s, names).nodes[n])
  {
    RenamedNodes(s, names);
    hide Naming, Renamed, IsTerminalType;
    var n :| n in s.nodes && IsTerminalType(s.nodes[n]);
    assert IsTerminalType(Renamed(s, names).nodes[names(n)]);
  }

  lemma RenamedStart(s: Snapshot, names: string -> string)
    requires Naming(names) && s.startNode in s.nodes && s.edges != []
    ensures var r := Renamed(s, names);
            r.startNode == names(s.startNode) != "" && r.startNode in r.nodes && r.edges == RenamedSpecs(s.edges, names) != []
  {
  }

  lemma RenamedChecked(s: Snapshot, names: string -> string)
    requires Checked(s) && Naming(names)
    ensures Checked(Renamed(s, names))
  {
    CompiledRenames(s.edges, names);
    RenamedTerminal(s, names);
    RenamedStart(s, names);
    hide Naming, CompileEdges, Renames, ExactlyReachable, IsTerminalType, Renamed, RenamedSpecs;
    RenamedExact(s, names, CompileEdges(Renamed(s, names).edges), CompileEdges(s.edges));
  }

  lemma CheckedOutcome(s: Snapshot, hash: string)
    requires Checked(s)
    ensures Outcome(s, hash) == if Order(Seen(s), s.startNode).None? then Err(CycleNotMarkedLoop)
                                else Ok(Plan(s.startNode, s.nodes, Seen(s), hash))
  {
    SeenMembers(s);
    SameReach(Seen(s), CompileEdges(s.edges), s.startNode);
    SortMembers(s.edges);
    hide Sort, CompileEdges, Reachable, SameMembers, Order;
    assert ExactlyReachable(Seen(s), s.startNode, s.nodes.Keys);
  }

  /** The renamed edges in the compiler's order are the original ones renamed. */
  lemma SeenRenames(s: Snapshot, names: string -> string)
    requires Checked(s) && Naming(names)
    ensures Checked(Renamed(s, names))
    ensures Renames(Seen(Renamed(s, names)), CompileEdges(s.edges), names)
  {
    RenamedChecked(s, names);
    CompiledRenames(s.edges, names);
    SeenMembers(Renamed(s, names));
    hide Seen, CompileEdges, Checked, Naming;
  }

  // ----- Names that lead the search along a walk -----

  function IndexIn(p: seq<string>, v: string): (i: nat)
    requires v in p
    ensures i < |p| && p[i] == v
  {
    if p[0] == v then 0
    else
      assert p == [p[0]] + p[1..];
      1 + IndexIn(p[1..], v)
  }

  function Repeat(k: nat): (r: string)
    ensures |r| == k && forall i :: 0 <= i < k ==> r[i] == 'a'
  {
    seq(k, _ => 'a')
  }

  lemma {:induction false} LexOfRepeats(i: nat, j: nat)
    ensures LexLeq(Repeat(i), Repeat(j)) <==> i <= j
    decreases i
  {
    if i > 0 && j > 0 {
      assert Repeat(i)[1..] == Repeat(i - 1) && Repeat(j)[1..] == Repeat(j - 1);
      LexOfRepeats(i - 1, j - 1);
    }
  }

  /** Non-empty names in ascending order, none twice. */
  ghost predicate Climbs(pool: seq<string>) {
    && (forall i :: 0 <= i < |pool| ==> pool[i] != "")
    && forall i, j :: 0 <= i < |pool| && 0 <= j < |pool| && LexLeq(pool[i], pool[j]) ==> i <= j
  }

  function Repeats(n: nat): (r: seq<string>)
    ensures |r| == n && forall i :: 0 <= i < n ==> r[i] == Repeat(i + 1)
  {
    seq(n, i requires 0 <= i < n => Repeat(i + 1))
  }

  lemma RepeatsClimb(n: nat)
    ensures Climbs(Repeats(n))
  {
    forall i, j | 0 <= i < n && 0 <= j < n && LexLeq(Repeats(n)[i], Repeats(n)[j]) ensures i <= j { LexOfRepeats(i + 1, j + 1); }
  }

  /** A string longer than every name. */
  function Beyond(pool: seq<string>): (r: string)
    ensures forall x :: x in pool ==> |x| < |r|
  {
    if pool == [] then "a" else pool[0] + "a" + Beyond(pool[1..])
  }

  /** The listed identifiers get the names in their order, and all other strings longer ones. */
  function Assigned(order: seq<string>, pool: seq<string>, v: string): string {
    if v in order && IndexIn(order, v) < |pool| then pool[IndexIn(order, v)] else Beyond(pool) + v
  }

  ghost predicate Assigns(names: string -> string, order: seq<string>, pool: seq<string>) {
    |order| == |pool| && forall v :: names(v) == Assigned(order, pool, v)
  }

  lemma AssignedIs(names: string -> string, order: seq<string>, pool: seq<string>, v: string)
    requires Assigns(names, order, pool)
    ensures |order| == |pool|
    ensures if v in order then names(v) == pool[IndexIn(order, v)] else names(v) == Beyond(pool) + v && names(v) !in pool
  {
  }

  lemma AssignedIsNaming(names: string -> string, order: seq<string>, pool: seq<string>)
    requires Assigns(names, order, pool) && Climbs(pool)
    ensures Naming(names)
  {
    hide Assigns, Beyond;
    forall a, b | names(a) == names(b) ensures a == b {
      AssignedIs(names, order, pool, a);
      AssignedIs(names, order, pool, b);
      LexReflexive(names(a));
      if a !in order && b !in order {
        assert (Beyond(pool) + a)[|Beyond(pool)|..] == a && (Beyond(pool) + b)[|Beyond(pool)|..] == b;
      }
    }
    forall a ensures names(a) != "" {
      AssignedIs(names, order, pool, a);
      if a !in order { BeyondIsLong(pool); }
    }
  }

  lemma BeyondIsLong(pool: seq<string>)
    ensures Beyond(pool) != ""
  {
  }

  /** Of these identifiers only nodes up to the i-th of the walk come before its i-th node. */
  ghost predicate Guides(names: string -> string, ids: set<string>, p: seq<string>) {
    forall v, i :: v in ids && 0 <= i < |p| && LexLeq(names(v), names(p[i])) ==> v in p[..i+1]
  }

  lemma AssignedGuides(names: string -> string, order: seq<string>, pool: seq<string>, ids: set<string>, p: seq<string>)
    requires Assigns(names, order, pool) && Climbs(pool) && Distinct(order) && p <= order && forall v :: v in ids ==> v in order
    ensures Guides(names, ids, p)
  {
    hide Assigns;
    forall v, i | v in ids && 0 <= i < |p| && LexLeq(names(v), names(p[i])) ensures v in p[..i+1] {
      AssignedIs(names, order, pool, v);
      AssignedIs(names, order, pool, p[i]);
      assert order[i] == p[i] && IndexIn(order, p[i]) == i;
      var j := IndexIn(order, v);
      assert j <= i;
      assert p[..i+1][j] == v;
    }
  }

  // ----- Listings -----

  ghost predicate Lists(order: seq<string>, ids: set<string>) { Distinct(order) && forall v :: v in order <==> v in ids }

  lemma {:induction false} ListsSize(order: seq<string>, ids: set<string>)
    requires Lists(order, ids)
    ensures |order| == |ids|
    decreases |order|
  {
    if order == [] {
      assert ids == {};
    } else {
      var last := order[|order|-1];
      var init := order[..|order|-1];
      assert order == init + [last];
      ListsSize(init, ids - {last});
    }
  }

  lemma {:induction false} LexTotal(a: string, b: string)
    ensures LexLeq(a, b) || LexLeq(b, a)
    decreases |a|
  {
    if a != [] && b != [] && a[0] == b[0] { LexTotal(a[1..], b[1..]); }
  }

  lemma {:induction false} LargestName(pool: set<string>) returns (m: string)
    requires pool != {}
    ensures m in pool && forall x :: x in pool ==> LexLeq(x, m)
    decreases |pool|
  {
    var x :| x in pool;
    LexReflexive(x);
    hide LexLeq;
    if pool == {x} {
      m := x;
    } else {
      m := LargestName(pool - {x});
      LexTotal(x, m);
      if !LexLeq(x, m) {
        forall y | y in pool ensures LexLeq(y, x) { if y != x { LexTransitive(y, m, x); } }
        m := x;
      }
    }
  }

  /** Every finite set of non-empty names can be listed in ascending order. */
  lemma {:induction false} AscendingListing(pool: set<string>) returns (r: seq<string>)
    requires "" !in pool
    ensures Climbs(r) && Lists(r, pool)
    decreases |pool|
  {
    if pool == {} {
      r := [];
    } else {
      var m := LargestName(pool);
      var init := AscendingListing(pool - {m});
      r := init + [m];
      hide LexLeq;
      forall i, j | 0 <= i < |r| && 0 <= j < |r| && LexLeq(r[i], r[j]) ensures i <= j {
        if j < i == |r| - 1 {
          assert init[j] in pool - {m};
          LexAntisymmetric(m, init[j]);
        }
      }
    }
  }

  // ----- The order of a sorted list -----

  lemma {:induction false} LexTransitive(a: string, b: string, c: string)
    requires LexLeq(a, b) && LexLeq(b, c)
    ensures LexLeq(a, c)
    decreases |a|
  {
    if a != [] && a[0] == b[0] == c[0] { LexTransitive(a[1..], b[1..], c[1..]); }
  }

  lemma {:induction false} LexAntisymmetric(a: string, b: string)
    requires LexLeq(a, b) && LexLeq(b, a)
    ensures a == b
    decreases |a|
  {
    if a != [] {
      LexAntisymmetric(a[1..], b[1..]);
      assert a == [a[0]] + a[1..] && b == [b[0]] + b[1..];
    }
  }

  /** The order by source and target. */
  predicate Leq(a: Edge, b: Edge) { if a.src != b.src then LexLeq(a.src, b.src) else LexLeq(a.dst, b.dst) }

  lemma LeqTransitive(a: Edge, b: Edge, c: Edge)
    requires Leq(a, b) && Leq(b, c)
    ensures Leq(a, c)
  {
    hide LexLeq;
    if a.src == b.src == c.src {
      LexTransitive(a.dst, b.dst, c.dst);
    } else if a.src != b.src && b.src != c.src {
      LexTransitive(a.src, b.src, c.src);
      if a.src == c.src { LexAntisymmetric(a.src, b.src); }
    }
  }

  ghost predicate InOrder(es: seq<Edge>) { forall i, j :: 0 <= i < j < |es| ==> Leq(es[i], es[j]) }

  lemma {:induction false} AdjacentOrder(es: seq<Edge>, i: nat, j: nat)
    requires i < j < |es| && forall k :: 0 <= k < |es| - 1 ==> Leq(es[k], es[k+1])
    ensures Leq(es[i], es[j])
    decreases j
  {
    hide Leq;
    if i < j - 1 {
      AdjacentOrder(es, i, j - 1);
      LeqTransitive(es[i], es[j-1], es[j]);
    }
  }

  lemma SeenInOrder(s: Snapshot)
    requires forall e :: e in s.edges ==> e.compiled.Some?
    ensures InOrder(Seen(s))
  {
    SortMembers(s.edges);
    var sorted, es := Sort(s.edges), Seen(s);
    forall k | 0 <= k < |es| - 1 ensures Leq(es[k], es[k+1]) { assert KeyLeq(sorted[k], sorted[k+1]); LexReflexive(es[k].dst); }
    hide Leq, Seen;
    forall i, j | 0 <= i < j < |es| ensures Leq(es[i], es[j]) { AdjacentOrder(es, i, j); }
  }

  lemma {:induction false} LexReflexive(a: string)
    ensures LexLeq(a, a)
    decreases |a|
  {
    if a != [] { LexReflexive(a[1..]); }
  }

  lemma {:induction false} OutInOrder(es: seq<Edge>, node: string)
    requires InOrder(es)
    ensures InOrder(Out(es, node))
    decreases |es|
  {
    hide Leq;
    if es != [] {
      OutInOrder(es[1..], node);
      var rest := Out(es[1..], node);
      forall i | 0 <= i < |rest| ensures Leq(es[0], rest[i]) {
        assert rest[i] in rest;
        var j :| 0 <= j < |es[1..]| && es[1..][j] == rest[i];
        assert es[j+1] == rest[i];
      }
    }
  }

  lemma {:induction false} FirstTo(es: seq<Edge>, good: Edge -> bool) returns (k: nat)
    requires exists e :: e in es && good(e)
    ensures k < |es| && good(es[k]) && forall i :: 0 <= i < k ==> !good(es[i])
    decreases |es|
  {
    if good(es[0]) {
      k := 0;
    } else {
      assert es == [es[0]] + es[1..];
      k := FirstTo(es[1..], good);
      k := k + 1;
      forall i | 0 <= i < k ensures !good(es[i]) { if i > 0 { assert es[i] == es[1..][i-1]; } }
    }
  }

  // ----- Under names that guide along a walk -----

  lemma GuidedBefore(names: string -> string, ids: set<string>, p: seq<string>, v: string, t: nat)
    requires Guides(names, ids, p) && v in ids && t < |p| && LexLeq(names(v), names(p[t]))
    ensures v in p[..t+1]
  {
  }

  /** An edge sorted before the walk's next one leads back into it. */
  lemma NamedBefore(p: seq<string>, back: string, i: nat, names: string -> string, ids: set<string>, v: string)
    requires Distinct(p) && back in p && i < |p| && Guides(names, ids, p) && v in ids
    requires LexLeq(names(v), names(Next(p, back, i)))
    requires i + 1 < |p| ==> v != p[i+1]
    ensures names(v) in NamesOf(p, names)[..i+1]
  {
    hide Guides, LexLeq;
    var t: nat := if i + 1 < |p| then i + 1 else IndexIn(p, back);
    assert p[t] == Next(p, back, i);
    GuidedBefore(names, ids, p, v, t);
    var j :| 0 <= j < t + 1 && p[..t+1][j] == v;
    assert NamesOf(p, names)[..i+1][j] == names(v);
  }

  /** The first edge to `to`, of the kind it must have, comes after edges to smaller names only. */
  lemma FirstInOrder(out: seq<Edge>, src: string, to: string, closes: bool, e: Edge) returns (k: nat)
    requires InOrder(out) && (forall x :: x in out ==> x.src == src)
    requires e in out && e.dst == to && (closes ==> e.kind == Normal)
    ensures k < |out| && out[k].dst == to && (closes ==> out[k].kind == Normal)
    ensures forall j :: 0 <= j < k ==> LexLeq(out[j].dst, to) && (!closes ==> out[j].dst != to)
  {
    hide LexLeq;
    k := FirstTo(out, (x: Edge) => x.dst == to && (closes ==> x.kind == Normal));
    forall j | 0 <= j < k ensures LexLeq(out[j].dst, to) { assert Leq(out[j], out[k]) && out[j] in out && out[k] in out; }
  }

  lemma OriginalTarget(edges: seq<Edge>, originals: seq<Edge>, names: string -> string, e: Edge) returns (v: string)
    requires Renames(edges, originals, names) && e in edges
    ensures e.dst == names(v) && v in Vertices(originals)
  {
    var o :| o in originals && RenamedEdge(o, names) == e;
    v := o.dst;
  }

  lemma NamedWalkEdge(edges: seq<Edge>, originals: seq<Edge>, p: seq<string>, back: string, i: nat, names: string -> string)
    returns (e: Edge)
    requires UnmarkedCycle(originals, p, back) && i < |p| && Renames(edges, originals, names)
    ensures e in Out(edges, names(p[i])) && e.dst == names(Next(p, back, i)) && (i == |p| - 1 ==> e.kind == Normal)
  {
    var o := WalkEdge(originals, p, back, i);
    e := RenamedEdge(o, names);
    assert e in edges;
  }

  /** From each node of the walk the renamed edges in the compiler's order lead along it. */
  lemma NamedLeads(edges: seq<Edge>, originals: seq<Edge>, p: seq<string>, back: string, i: nat, names: string -> string)
    requires UnmarkedCycle(originals, p, back) && i < |p|
    requires Guides(names, Vertices(originals), p) && Renames(edges, originals, names) && InOrder(edges)
    ensures Leads(Out(edges, names(p[i])), NamesOf(p, names)[..i+1], names(Next(p, back, i)), i == |p| - 1)
  {
    Unfolded(originals, p, back);
    OutInOrder(edges, names(p[i]));
    hide UnmarkedCycle, Guides, Vertices, Renames, InOrder, Distinct, LexLeq, NamesOf, Next, Out;
    var to, out, walk, closes := Next(p, back, i), Out(edges, names(p[i])), NamesOf(p, names)[..i+1], i == |p| - 1;
    var e := NamedWalkEdge(edges, originals, p, back, i, names);
    var k := FirstInOrder(out, names(p[i]), names(to), closes, e);
    forall j | 0 <= j < k ensures out[j].dst in walk {
      assert out[j] in out;
      var v := OriginalTarget(edges, originals, names, out[j]);
      NamedBefore(p, back, i, names, Vertices(originals), v);
    }
    assert LeadsTo(out, k, walk, names(to), closes);
  }

  lemma NextNamed(p: seq<string>, back: string, i: nat, names: string -> string)
    requires i < |p|
    ensures Next(NamesOf(p, names), names(back), i) == names(Next(p, back, i))
  {
  }

  lemma NamedFollows(edges: seq<Edge>, originals: seq<Edge>, p: seq<string>, back: string, names: string -> string)
    requires UnmarkedCycle(originals, p, back)
    requires Naming(names) && Guides(names, Vertices(originals), p) && Renames(edges, originals, names) && InOrder(edges)
    ensures Follows(edges, NamesOf(p, names), names(back))
  {
    Unfolded(originals, p, back);
    RenamedPath(edges, originals, names, p);
    hide UnmarkedCycle, Guides, Renames, InOrder, Naming, Leads, Out, Next, Distinct;
    var q := NamesOf(p, names);
    var b :| 0 <= b < |p| && p[b] == back;
    assert q[b] == names(back);
    forall i | 0 <= i < |q| ensures FollowsAt(edges, q, names(back), i) {
      NamedLeads(edges, originals, p, back, i, names);
      NextNamed(p, back, i, names);
    }
  }

  // ----- Every naming of the nodes -----

  /** Some naming of the nodes makes the compiler refuse the snapshot for its loops. */
  ghost predicate RefusedUnderSomeNaming(s: Snapshot, hash: string) {
    exists names :: Naming(names) && Outcome(Renamed(s, names), hash) == Err(CycleNotMarkedLoop)
  }

  lemma RefusedNaming(s: Snapshot, hash: string, names: string -> string)
    requires Checked(s) && Naming(names) && Outcome(Renamed(s, names), hash) == Err(CycleNotMarkedLoop)
    ensures ClosableWalk(CompileEdges(s.edges), s.startNode)
  {
    SeenRenames(s, names);
    var r, originals := Renamed(s, names), CompileEdges(s.edges);
    CheckedOutcome(r, hash);
    var edges := Seen(r);
    hide Outcome, Checked, Seen, CompileEdges;
    var q, end := RefusedHasUnmarkedCycle(edges, r.startNode);
    var p := WalkIsRenamed(edges, originals, names, s.startNode, q);
    RenamedPath(edges, originals, names, p);
    var b :| 0 <= b < |q| && q[b] == end;
    RenamedHop(edges, originals, names, p[|p|-1], p[b]);
    assert UnmarkedCycle(originals, p, p[b]);
  }

  lemma WalkIsRefused(edges: seq<Edge>, originals: seq<Edge>, p: seq<string>, back: string, names: string -> string)
    requires UnmarkedCycle(originals, p, back)
    requires Naming(names) && Guides(names, Vertices(originals), p) && Renames(edges, originals, names) && InOrder(edges)
    ensures Order(edges, names(p[0])).None?
  {
    Unfolded(originals, p, back);
    NamedFollows(edges, originals, p, back, names);
    hide UnmarkedCycle, Guides, Renames, InOrder, Naming, Follows;
    FollowedIsRefused(edges, NamesOf(p, names), names(back));
  }

  lemma RefusingNaming(s: Snapshot, hash: string, p: seq<string>, back: string, names: string -> string)
    requires Checked(s) && UnmarkedCycle(CompileEdges(s.edges), p, back) && p[0] == s.startNode
    requires Naming(names) && Guides(names, Vertices(CompileEdges(s.edges)), p)
    ensures Outcome(Renamed(s, names), hash) == Err(CycleNotMarkedLoop)
  {
    SeenRenames(s, names);
    var r := Renamed(s, names);
    SeenInOrder(r);
    CheckedOutcome(r, hash);
    hide Outcome, CompileEdges, Naming, Guides, Renames, InOrder, Seen, UnmarkedCycle, ExactlyReachable, Order;
    assert r.startNode == names(p[0]);
    WalkIsRefused(Seen(r), CompileEdges(s.edges), p, back, names);
  }

  function Identifiers(s: Snapshot): set<string> {
    s.nodes.Keys + (set e | e in s.edges :: e.src) + (set e | e in s.edges :: e.dst)
  }

  lemma VerticesAreIdentifiers(s: Snapshot)
    requires forall e :: e in s.edges ==> e.compiled.Some?
    ensures Vertices(CompileEdges(s.edges)) <= Identifiers(s)
  {
    var edges := CompileEdges(s.edges);
    forall e | e in edges ensures e.src in Identifiers(s) && e.dst in Identifiers(s) {
      var i :| 0 <= i < |edges| && edges[i] == e;
      assert s.edges[i] in s.edges;
    }
  }

  lemma WalkIsIdentified(s: Snapshot, p: seq<string>, back: string, v: string)
    requires Checked(s) && UnmarkedCycle(CompileEdges(s.edges), p, back) && p[0] == s.startNode && v in p
    ensures v in Identifiers(s)
  {
    VerticesAreIdentifiers(s);
    var edges := CompileEdges(s.edges);
    var i :| 0 <= i < |p| && p[i] == v;
    hide CompileEdges, Identifiers, ExactlyReachable;
    if i == 0 {
      StartIsIdentified(s);
    } else {
      assert HasEdge(edges, p[i-1], p[i]);
    }
  }

  lemma StartIsIdentified(s: Snapshot)
    requires s.startNode in s.nodes
    ensures s.startNode in Identifiers(s)
  {
  }

  /** The names of the identifiers are exactly those of the pool. */
  ghost predicate Uses(s: Snapshot, names: string -> string, pool: set<string>) {
    (set v | v in Identifiers(s) :: names(v)) == pool
  }

  lemma WalkListing(p: seq<string>, ids: set<string>) returns (order: seq<string>)
    requires Distinct(p) && forall v :: v in p ==> v in ids
    ensures p <= order && Lists(order, ids)
    decreases |ids| - |p|
  {
    if v :| v in ids && v !in p {
      assert |p| < |ids| by {
        ListsSize(p + [v], (set x | x in p) + {v});
        assert (set x | x in p) + {v} <= ids;
        SubsetSize((set x | x in p) + {v}, ids);
      }
      order := WalkListing(p + [v], ids);
    } else {
      order := p;
    }
  }

  lemma AssignedUses(s: Snapshot, names: string -> string, order: seq<string>, pool: seq<string>)
    requires Assigns(names, order, pool) && Lists(order, Identifiers(s))
    ensures Uses(s, names, set x | x in pool)
  {
    hide Assigns, Identifiers;
    forall v | v in order ensures names(v) in pool { AssignedIs(names, order, pool, v); }
    forall x | x in pool ensures exists v :: v in order && names(v) == x {
      var i :| 0 <= i < |pool| && pool[i] == x;
      AssignedIs(names, order, pool, x);
      AssignedIs(names, order, pool, order[i]);
      assert IndexIn(order, order[i]) == i;
    }
  }

  /** With a closable walk, the names of any pool of the right size can be given so that the snapshot is
      refused. */
  lemma RefusingAssignment(s: Snapshot, hash: string, pool: seq<string>) returns (names: string -> string)
    requires Checked(s) && ClosableWalk(CompileEdges(s.edges), s.startNode) && Climbs(pool) && |pool| == |Identifiers(s)|
    ensures Naming(names) && Uses(s, names, set x | x in pool) && Outcome(Renamed(s, names), hash) == Err(CycleNotMarkedLoop)
  {
    VerticesAreIdentifiers(s);
    var edges := CompileEdges(s.edges);
    var p, back :| UnmarkedCycle(edges, p, back) && p[0] == s.startNode;
    Unfolded(edges, p, back);
    forall v | v in p ensures v in Identifiers(s) { WalkIsIdentified(s, p, back, v); }
    hide Outcome, CompileEdges, Identifiers, Checked, UnmarkedCycle, Climbs, Vertices, Uses, Renamed;
    var order := WalkListing(p, Identifiers(s));
    ListsSize(order, Identifiers(s));
    names := v => Assigned(order, pool, v);
    assert Assigns(names, order, pool);
    hide Assigns, Assigned, Naming, Guides;
    AssignedIsNaming(names, order, pool);
    AssignedUses(s, names, order, pool);
    AssignedGuides(names, order, pool, Vertices(edges), p);
    RefusingNaming(s, hash, p, back, names);
  }

  /** A snapshot that passes the other checks is refused for its loops under some naming of its nodes
      exactly when a walk without repetitions from the start is closed by a NORMAL edge. */
  lemma RefusedUnderSomeNamingIff(s: Snapshot, hash: string)
    requires Checked(s)
    ensures RefusedUnderSomeNaming(s, hash) <==> ClosableWalk(CompileEdges(s.edges), s.startNode)
  {
    hide Outcome, Renamed, Naming, CompileEdges, ClosableWalk, ExactlyReachable, Climbs, Uses, Identifiers;
    if names :| Naming(names) && Outcome(Renamed(s, names), hash) == Err(CycleNotMarkedLoop) {
      RefusedNaming(s, hash, names);
    }
    if ClosableWalk(CompileEdges(s.edges), s.startNode) {
      RepeatsClimb(|Identifiers(s)|);
      var names := RefusingAssignment(s, hash, Repeats(|Identifiers(s)|));
    }
  }

  /** Some way of giving its identifiers the names of the pool makes the compiler refuse the snapshot. */
  ghost predicate RefusedAmong(s: Snapshot, hash: string, pool: set<string>) {
    exists names :: Naming(names) && Uses(s, names, pool) && Outcome(Renamed(s, names), hash) == Err(CycleNotMarkedLoop)
  }

  /** The same for any given names, as many as there are identifiers: which names they are does not matter. */
  lemma RefusedAmongIff(s: Snapshot, hash: string, pool: set<string>)
    requires Checked(s) && "" !in pool && |pool| == |Identifiers(s)|
    ensures RefusedAmong(s, hash, pool) <==> ClosableWalk(CompileEdges(s.edges), s.startNode)
  {
    hide Outcome, Renamed, Naming, CompileEdges, ClosableWalk, ExactlyReachable, Climbs, Uses, Identifiers;
    if names :| Naming(names) && Uses(s, names, pool) && Outcome(Renamed(s, names), hash) == Err(CycleNotMarkedLoop) {
      RefusedNaming(s, hash, names);
    }
    if ClosableWalk(CompileEdges(s.edges), s.startNode) {
      var names := RefusingNames(s, hash, pool);
    }
  }

  lemma RefusingNames(s: Snapshot, hash: string, pool: set<string>) returns (names: string -> string)
    requires Checked(s) && "" !in pool && |pool| == |Identifiers(s)| && ClosableWalk(CompileEdges(s.edges), s.startNode)
    ensures Naming(names) && Uses(s, names, pool) && Outcome(Renamed(s, names), hash) == Err(CycleNotMarkedLoop)
  {
    hide Outcome, Renamed, Naming, CompileEdges, ClosableWalk, Checked, Climbs, Uses, Identifiers;
    var listed := AscendingListing(pool);
    ListsSize(listed, pool);
    assert (set x | x in listed) == pool;
    names := RefusingAssignment(s, hash, listed);
  }

  /** The compiler decides by whether every cycle goes through a LOOP edge, however nodes are named. */
  ghost predicate ExactUnderEveryNaming(s: Snapshot, hash: string)
    requires Checked(s)
  {
    forall names :: Naming(names) ==> (Outcome(Renamed(s, names), hash).Ok? <==> NormalAcyclic(CompileEdges(s.edges)))
  }

  lemma NamedCycle(edges: seq<Edge>, originals: seq<Edge>, names: string -> string, p: seq<string>)
    requires Naming(names) && Renames(edges, originals, names)
    ensures NormalCycle(edges, NamesOf(p, names)) <==> NormalCycle(originals, p)
  {
    if |p| >= 2 { assert names(p[0]) == names(p[|p|-1]) <==> p[0] == p[|p|-1]; }
    hide Naming, Renames;
    var q := NamesOf(p, names);
    forall i | 0 <= i < |p| - 1 ensures HasNormalEdge(edges, q[i], q[i+1]) <==> HasNormalEdge(originals, p[i], p[i+1]) {
      RenamedHop(edges, originals, names, p[i], p[i+1]);
    }
  }

  lemma CycleIsRenamed(edges: seq<Edge>, originals: seq<Edge>, names: string -> string, q: seq<string>) returns (p: seq<string>)
    requires Naming(names) && Renames(edges, originals, names) && NormalCycle(edges, q)
    ensures q == NamesOf(p, names)
  {
    assert HasNormalEdge(edges, q[0], q[1]);
    var e :| e in edges && e.src == q[0] && e.dst == q[1];
    var o :| o in originals && RenamedEdge(o, names) == e;
    assert IsPath(edges, q) by {
      forall i | 0 <= i < |q| - 1 ensures HasEdge(edges, q[i], q[i+1]) { assert HasNormalEdge(edges, q[i], q[i+1]); }
    }
    p := WalkIsRenamed(edges, originals, names, o.src, q);
  }

  /** Renaming makes and breaks no cycle. */
  lemma RenamedAcyclic(edges: seq<Edge>, originals: seq<Edge>, names: string -> string)
    requires Naming(names) && Renames(edges, originals, names)
    ensures NormalAcyclic(edges) <==> NormalAcyclic(originals)
  {
    hide Naming, Renames, NormalCycle;
    if NormalAcyclic(edges) {
      forall p ensures !NormalCycle(originals, p) { NamedCycle(edges, originals, names, p); }
    }
    if NormalAcyclic(originals) {
      forall q ensures !NormalCycle(edges, q) {
        if NormalCycle(edges, q) {
          var p := CycleIsRenamed(edges, originals, names, q);
          NamedCycle(edges, originals, names, p);
        }
      }
    }
  }

  lemma AcceptedNaming(s: Snapshot, hash: string, names: string -> string)
    requires Checked(s) && (forall e :: e in s.edges ==> e.src in s.nodes) && Naming(names)
    requires Outcome(Renamed(s, names), hash).Ok?
    ensures NormalAcyclic(CompileEdges(s.edges))
  {
    SeenRenames(s, names);
    var r := Renamed(s, names);
    CheckedOutcome(r, hash);
    RenamedNodes(s, names);
    forall e | e in r.edges ensures e.src in r.nodes {
      var i :| 0 <= i < |r.edges| && r.edges[i] == e;
      assert s.edges[i] in s.edges;
    }
    hide Outcome, CompileEdges, Naming, Renames, Seen, Checked, NormalAcyclic;
    CompiledIsNormalAcyclic(r, hash);
    RenamedAcyclic(Seen(r), CompileEdges(s.edges), names);
  }

  /** A snapshot that passes the other checks is refused or accepted under every naming. */
  lemma DecidedUnderEveryNaming(s: Snapshot, hash: string, names: string -> string)
    requires Checked(s) && Naming(names)
    ensures Outcome(Renamed(s, names), hash).Ok? || Outcome(Renamed(s, names), hash) == Err(CycleNotMarkedLoop)
  {
    RenamedChecked(s, names);
    hide Outcome, Checked, Seen, Naming;
    CheckedOutcome(Renamed(s, names), hash);
  }

  lemma NamingOutcome(s: Snapshot, hash: string, names: string -> string)
    requires Checked(s) && (forall e :: e in s.edges ==> e.src in s.nodes) && Naming(names)
    ensures var r := Outcome(Renamed(s, names), hash);
            (r.Ok? || r == Err(CycleNotMarkedLoop)) && (r.Ok? ==> NormalAcyclic(CompileEdges(s.edges)))
  {
    hide Outcome, Renamed, Naming, NormalAcyclic, ExactlyReachable;
    DecidedUnderEveryNaming(s, hash, names);
    if Outcome(Renamed(s, names), hash).Ok? { AcceptedNaming(s, hash, names); }
  }

  /** Exactness under every naming, whatever the graph, from what the namings decide. */
  lemma ExactFrom(s: Snapshot, hash: string, acyclic: bool)
    requires Checked(s) && acyclic == NormalAcyclic(CompileEdges(s.edges))
    requires forall names :: Naming(names) ==>
      var r := Outcome(Renamed(s, names), hash); (r.Ok? || r == Err(CycleNotMarkedLoop)) && (r.Ok? ==> acyclic)
    ensures ExactUnderEveryNaming(s, hash) <==> (acyclic ==> !RefusedUnderSomeNaming(s, hash))
  {
    hide Outcome, Renamed, Naming, NormalAcyclic, CompileEdges, Checked;
  }

  /** The check is exact under every naming of the nodes if and only if a graph whose cycles all go
      through LOOP edges has no walk without repetitions from the start closed by a NORMAL edge. */
  lemma ExactUnderEveryNamingIff(s: Snapshot, hash: string)
    requires Checked(s) && forall e :: e in s.edges ==> e.src in s.nodes
    ensures ExactUnderEveryNaming(s, hash) <==>
      (NormalAcyclic(CompileEdges(s.edges)) ==> !ClosableWalk(CompileEdges(s.edges), s.startNode))
  {
    hide Outcome, Renamed, Naming, NormalAcyclic, ClosableWalk, ExactUnderEveryNaming, RefusedUnderSomeNaming, ExactlyReachable;
    RefusedUnderSomeNamingIff(s, hash);
    var acyclic := NormalAcyclic(CompileEdges(s.edges));
    forall names | Naming(names)
      ensures var r := Outcome(Renamed(s, names), hash); (r.Ok? || r == Err(CycleNotMarkedLoop)) && (r.Ok? ==> acyclic)
    {
      NamingOutcome(s, hash, names);
    }
    ExactFrom(s, hash, acyclic);
  }

  /** The same when its identifiers get the names of the pool. */
  ghost predicate ExactAmong(s: Snapshot, hash: string, pool: set<string>)
    requires Checked(s)
  {
    forall names :: Naming(names) && Uses(s, names, pool) ==>
      (Outcome(Renamed(s, names), hash).Ok? <==> NormalAcyclic(CompileEdges(s.edges)))
  }

  lemma ExactAmongFrom(s: Snapshot, hash: string, pool: set<string>, acyclic: bool)
    requires Checked(s) && acyclic == NormalAcyclic(CompileEdges(s.edges))
    requires forall names :: Naming(names) && Uses(s, names, pool) ==>
      var r := Outcome(Renamed(s, names), hash); (r.Ok? || r == Err(CycleNotMarkedLoop)) && (r.Ok? ==> acyclic)
    ensures ExactAmong(s, hash, pool) <==> (acyclic ==> !RefusedAmong(s, hash, pool))
  {
    hide Outcome, Renamed, Naming, Uses, NormalAcyclic, CompileEdges, Checked;
  }

  /** Whichever names are given out, the check is exact however they are if and only if a graph whose cycles
      all go through LOOP edges has no walk without repetitions from the start closed by a NORMAL edge. */
  lemma ExactAmongIff(s: Snapshot, hash: string, pool: set<string>)
    requires Checked(s) && (forall e :: e in s.edges ==> e.src in s.nodes) && "" !in pool && |pool| == |Identifiers(s)|
    ensures ExactAmong(s, hash, pool) <==>
      (NormalAcyclic(CompileEdges(s.edges)) ==> !ClosableWalk(CompileEdges(s.edges), s.startNode))
  {
    hide Outcome, Renamed, Naming, Uses, NormalAcyclic, ClosableWalk, ExactAmong, RefusedAmong, ExactlyReachable, Identifiers;
    RefusedAmongIff(s, hash, pool);
    var acyclic := NormalAcyclic(CompileEdges(s.edges));
    forall names | Naming(names) && Uses(s, names, pool)
      ensures var r := Outcome(Renamed(s, names), hash); (r.Ok? || r == Err(CycleNotMarkedLoop)) && (r.Ok? ==> acyclic)
    {
      NamingOutcome(s, hash, names);
    }
    ExactAmongFrom(s, hash, pool, acyclic);
  }

  // ----- A graph the names decide -----

  /** `s` enters, on either side, a cycle of one NORMAL and one LOOP edge. */
  function TwoEntries(a: string, b: string, s: string): Snapshot {
    Snapshot(s, map[s := "ToolExecutor", a := "ResponseBuilder", b := "ResponseBuilder"],
      [Spec(a, b, Normal), Spec(b, a, Loop), Spec(s, a, Normal), Spec(s, b, Normal)])
  }

  function Spec(src: string, dst: string, kind: EdgeKind): EdgeSpec { EdgeSpec(src, dst, kind, "c", Some("c")) }

  function Line(src: string, dst: string, kind: EdgeKind): Edge { Edge(src, dst, kind, "c") }

  function TwoEntriesEdges(a: string, b: string, s: string): seq<Edge> {
    [Line(a, b, Normal), Line(b, a, Loop), Line(s, a, Normal), Line(s, b, Normal)]
  }

  predicate Ascending(a: string, b: string, s: string) {
    a != "" && a != b && b != s && a != s && LexLeq(a, b) && LexLeq(b, s)
  }

  lemma {:induction false} SortKeepsSorted(es: seq<EdgeSpec>)
    requires InKeyOrder(es)
    ensures Sort(es) == es
    decreases |es|
  {
    if es != [] {
      assert InKeyOrder(es[1..]);
      SortKeepsSorted(es[1..]);
    }
  }

  lemma TwoEntriesSorted(a: string, b: string, s: string, es: seq<EdgeSpec>)
    requires Ascending(a, b, s) && es == TwoEntries(a, b, s).edges
    ensures Sort(es) == es
  {
    hide LexLeq, Sort;
    assert KeyLeq(es[0], es[1]) && KeyLeq(es[1], es[2]) && KeyLeq(es[2], es[3]);
    SortKeepsSorted(es);
  }

  lemma TwoEntriesCompiled(a: string, b: string, s: string, es: seq<EdgeSpec>)
    requires es == TwoEntries(a, b, s).edges
    ensures (forall e :: e in es ==> e.compiled.Some?) && CompileEdges(es) == TwoEntriesEdges(a, b, s)
  {
    var r := CompileEdges(es);
    assert r == [r[0], r[1], r[2], r[3]];
  }

  lemma TwoEntriesSeen(a: string, b: string, s: string)
    requires Ascending(a, b, s)
    ensures (forall e :: e in TwoEntries(a, b, s).edges ==> e.compiled.Some?)
    ensures Seen(TwoEntries(a, b, s)) == CompileEdges(TwoEntries(a, b, s).edges) == TwoEntriesEdges(a, b, s)
  {
    hide Ascending, TwoEntriesEdges, TwoEntries, CompileEdges, Sort;
    TwoEntriesCompiled(a, b, s, TwoEntries(a, b, s).edges);
    TwoEntriesSorted(a, b, s, TwoEntries(a, b, s).edges);
  }

  lemma TwoEntriesReachable(edges: seq<Edge>, a: string, b: string, s: string)
    requires edges == TwoEntriesEdges(a, b, s)
    ensures ExactlyReachable(edges, s, {s, a, b})
  {
    assert PathBetween(edges, s, s, [s]);
    ExtendPath(edges, s, [s], edges[2]);
    ExtendPath(edges, s, [s], edges[3]);
    ClosedIsReachable(edges, s, {s, a, b});
  }

  lemma TwoEntriesNodes(a: string, b: string, s: string)
    requires Ascending(a, b, s)
    ensures var t := TwoEntries(a, b, s);
            t.startNode == s != "" && t.nodes.Keys == {s, a, b} && IsTerminalType(t.nodes[a]) && t.edges != []
    ensures forall e :: e in TwoEntries(a, b, s).edges ==> e.src in {s, a, b}
  {
  }

  lemma TwoEntriesChecked(a: string, b: string, s: string)
    requires Ascending(a, b, s)
    ensures Checked(TwoEntries(a, b, s))
  {
    TwoEntriesSeen(a, b, s);
    TwoEntriesReachable(TwoEntriesEdges(a, b, s), a, b, s);
    TwoEntriesNodes(a, b, s);
    hide ExactlyReachable, CompileEdges, Seen, Ascending, TwoEntriesEdges, TwoEntries, IsTerminalType;
  }

  ghost predicate CycleOfTwo(edges: seq<Edge>, a: string, b: string, s: string) {
    && Out(edges, s) == [Line(s, a, Normal), Line(s, b, Normal)]
    && Out(edges, a) == [Line(a, b, Normal)] && Out(edges, b) == [Line(b, a, Loop)]
  }

  lemma OutStep(e: Edge, rest: seq<Edge>, node: string, out: seq<Edge>)
    requires Out(rest, node) == out
    ensures Out([e] + rest, node) == if e.src == node then [e] + out else out
  {
    assert ([e] + rest)[1..] == rest;
  }

  lemma OutOfNone(node: string)
    ensures Out([], node) == []
  {
  }

  lemma OutOfFour(d: Edge, e: Edge, f: Edge, g: Edge, node: string, last: seq<Edge>, more: seq<Edge>, most: seq<Edge>, all: seq<Edge>)
    requires last == (if g.src == node then [g] else []) && more == (if f.src == node then [f] + last else last)
    requires most == (if e.src == node then [e] + more else more) && all == (if d.src == node then [d] + most else most)
    ensures Out([d] + ([e] + ([f] + ([g] + []))), node) == all
  {
    hide Out;
    OutOfNone(node);
    OutStep(g, [], node, []);
    OutStep(f, [g] + [], node, last);
    OutStep(e, [f] + ([g] + []), node, more);
    OutStep(d, [e] + ([f] + ([g] + [])), node, most);
  }

  lemma TwoEntriesOuts(edges: seq<Edge>, a: string, b: string, s: string)
    requires a != b && b != s && a != s && edges == TwoEntriesEdges(a, b, s)
    ensures CycleOfTwo(edges, a, b, s)
  {
    hide Out;
    var d, e, f, g := Line(a, b, Normal), Line(b, a, Loop), Line(s, a, Normal), Line(s, b, Normal);
    assert edges == [d] + ([e] + ([f] + ([g] + [])));
    assert [f] + [g] == [f, g];
    OutOfFour(d, e, f, g, s, [g], [f, g], [f, g], [f, g]);
    OutOfFour(d, e, f, g, a, [], [], [], [d]);
    OutOfFour(d, e, f, g, b, [], [], [e], [e]);
  }

  /** Entered at `a`, the search meets the LOOP edge last and accepts. */
  lemma SearchAccepts(edges: seq<Edge>, a: string, b: string, s: string)
    requires a != b && b != s && a != s && CycleOfTwo(edges, a, b, s)
    ensures Order(edges, s).Some?
  {
    hide Out;
    var toA, toB, up, back := Line(s, a, Normal), Line(s, b, Normal), Line(a, b, Normal), Line(b, a, Loop);
    assert toA in Out(edges, s) && toB in Out(edges, s) && up in Out(edges, a) && back in Out(edges, b);
    assert [toA, toB][1..] == [toB] && [toB][1..] == [] && [up][1..] == [] && [back][1..] == [];
    assert [] + [s] == [s] && [s] + [a] == [s, a] && [s, a] + [b] == [s, a, b];
    assert [] + [b] == [b] && [b] + [a] == [b, a];
    assert Visit(edges, a, [s, a, b], []) == Some([]);
    assert VisitEdges(edges, [back], [s, a, b], []) == Some([]);
    assert Visit(edges, b, [s, a], []) == Some([b]);
    assert VisitEdges(edges, [up], [s, a], []) == Some([b]);
    assert Visit(edges, a, [s], []) == Some([b, a]);
    assert VisitEdges(edges, [toB], [s], [b, a]) == Some([b, a]);
    assert VisitEdges(edges, [toA, toB], [s], []) == Some([b, a]);
  }

  /** Entered at `b`, it would meet the NORMAL edge last. */
  lemma OtherWalkCloses(edges: seq<Edge>, a: string, b: string, s: string)
    requires a != b && b != s && a != s && edges == TwoEntriesEdges(a, b, s)
    ensures ClosableWalk(edges, s)
  {
    var p := [s, b, a];
    assert edges[3] in edges && edges[1] in edges && edges[0] in edges;
    assert HasEdge(edges, p[0], p[1]) && HasEdge(edges, p[1], p[2]) && HasNormalEdge(edges, a, b);
    assert p[1] == b;
    assert UnmarkedCycle(edges, p, b);
  }

  lemma TwoEntriesSearched(edges: seq<Edge>, a: string, b: string, s: string)
    requires a != b && b != s && a != s && edges == TwoEntriesEdges(a, b, s)
    ensures Order(edges, s).Some? && ClosableWalk(edges, s)
  {
    hide TwoEntriesEdges, Order, CycleOfTwo, ClosableWalk;
    TwoEntriesOuts(edges, a, b, s);
    SearchAccepts(edges, a, b, s);
    OtherWalkCloses(edges, a, b, s);
  }

  lemma TwoEntriesAccepted(a: string, b: string, s: string, hash: string)
    requires Ascending(a, b, s)
    ensures var t := TwoEntries(a, b, s);
            && Checked(t) && Outcome(t, hash).Ok? && NormalAcyclic(CompileEdges(t.edges))
            && ClosableWalk(CompileEdges(t.edges), t.startNode)
  {
    hide TwoEntries, TwoEntriesEdges, Outcome, CompileEdges, NormalAcyclic, Order, Seen, Checked, LexLeq, IsTerminalType, ClosableWalk;
    var t := TwoEntries(a, b, s);
    TwoEntriesChecked(a, b, s);
    TwoEntriesSeen(a, b, s);
    TwoEntriesNodes(a, b, s);
    TwoEntriesSearched(TwoEntriesEdges(a, b, s), a, b, s);
    CheckedOutcome(t, hash);
    forall e | e in t.edges ensures e.src in t.nodes { assert e.src in t.nodes.Keys; }
    CompiledIsNormalAcyclic(t, hash);
  }

  lemma TwoEntriesIdentifiers(a: string, b: string, s: string)
    requires Ascending(a, b, s)
    ensures Identifiers(TwoEntries(a, b, s)) == {a, b, s} && "" !in {a, b, s}
  {
    var t := TwoEntries(a, b, s);
    assert t.edges[0] in t.edges && t.edges[2] in t.edges;
  }

  lemma RefusedWhenExchanged(t: Snapshot, hash: string) returns (names: string -> string)
    requires Checked(t) && "" !in Identifiers(t) && NormalAcyclic(CompileEdges(t.edges)) && ClosableWalk(CompileEdges(t.edges), t.startNode)
    ensures Naming(names) && Uses(t, names, Identifiers(t)) && Outcome(Renamed(t, names), hash) == Err(CycleNotMarkedLoop)
    ensures Checked(Renamed(t, names)) && NormalAcyclic(CompileEdges(Renamed(t, names).edges))
  {
    hide Outcome, Naming, Uses, Identifiers, Renamed, NormalAcyclic, Checked, ClosableWalk, CompileEdges;
    names := RefusingNames(t, hash, Identifiers(t));
    StillAcyclic(t, names);
  }

  /** Graphs whose compilation depends on which node has which name: each compiles as it is and is refused
      when its three names are exchanged among its nodes, and neither way has it a cycle without a LOOP edge. */
  lemma AcceptanceDependsOnNames(a: string, b: string, s: string, hash: string) returns (names: string -> string)
    requires Ascending(a, b, s)
    ensures var t := TwoEntries(a, b, s);
            && Checked(t) && Outcome(t, hash).Ok? && NormalAcyclic(CompileEdges(t.edges))
            && Naming(names) && Uses(t, names, Identifiers(t)) && Identifiers(t) == {a, b, s}
            && Outcome(Renamed(t, names), hash) == Err(CycleNotMarkedLoop)
            && Checked(Renamed(t, names)) && NormalAcyclic(CompileEdges(Renamed(t, names).edges))
  {
    hide Ascending, TwoEntries, Outcome, Naming, Uses, Identifiers, Renamed, NormalAcyclic, Checked, ClosableWalk, CompileEdges, LexLeq,
      ExactlyReachable, IsTerminalType;
    TwoEntriesAccepted(a, b, s, hash);
    TwoEntriesIdentifiers(a, b, s);
    names := RefusedWhenExchanged(TwoEntries(a, b, s), hash);
  }

  lemma StillAcyclic(s: Snapshot, names: string -> string)
    requires Checked(s) && Naming(names) && NormalAcyclic(CompileEdges(s.edges))
    ensures Checked(Renamed(s, names)) && NormalAcyclic(CompileEdges(Renamed(s, names).edges))
  {
    RenamedChecked(s, names);
    CompiledRenames(s.edges, names);
    hide CompileEdges, Naming, Renames, NormalAcyclic;
    RenamedAcyclic(CompileEdges(Renamed(s, names).edges), CompileEdges(s.edges), names);
  }
}
