/** Flow graphs as the compiler sees them: edges in evaluation order, the outgoing
    edges of a node, and paths. Everything later modules say about a published graph
    is said in these terms. */
module FlowGraph {

  datatype Option<+T> = None | Some(value: T)

  datatype EdgeKind = Normal | Loop

  /** An edge of a compiled plan (`CompiledEdge`); the list position is its `order`. */
  datatype Edge = Edge(src: string, dst: string, kind: EdgeKind, condition: string)

  /** `adjacency_map.get(node, [])`: the edges leaving `node`, in order. */
  function Out(edges: seq<Edge>, node: string): (out: seq<Edge>)
    ensures forall e :: e in out <==> e in edges && e.src == node
  {
    if edges == [] then []
    else if edges[0].src == node then [edges[0]] + Out(edges[1..], node)
    else Out(edges[1..], node)
  }

  /** The keys of `adjacency_map`. */
  function Sources(edges: seq<Edge>): set<string> {
    set e | e in edges :: e.src
  }

  lemma SubsetSize<T>(a: set<T>, b: set<T>)
    requires a <= b
    ensures |a| <= |b|
  {
    assert |b| == |a| + |b - a| by { assert b == a + (b - a); }
  }

  /** Every identifier an edge list mentions. */
  function Vertices(edges: seq<Edge>): set<string> {
    (set e | e in edges :: e.src) + (set e | e in edges :: e.dst)
  }

  ghost predicate HasEdge(edges: seq<Edge>, u: string, v: string) {
    exists e :: e in edges && e.src == u && e.dst == v
  }

  ghost predicate HasNormalEdge(edges: seq<Edge>, u: string, v: string) {
    exists e :: e in edges && e.src == u && e.dst == v && e.kind == Normal
  }

  /** A walk along edges of any kind. */
  ghost predicate IsPath(edges: seq<Edge>, p: seq<string>) {
    p != [] && forall i :: 0 <= i < |p| - 1 ==> HasEdge(edges, p[i], p[i+1])
  }

  /** A walk along NORMAL edges only. */
  ghost predicate IsNormalPath(edges: seq<Edge>, p: seq<string>) {
    p != [] && forall i :: 0 <= i < |p| - 1 ==> HasNormalEdge(edges, p[i], p[i+1])
  }

  ghost predicate PathBetween(edges: seq<Edge>, u: string, v: string, p: seq<string>) {
    IsPath(edges, p) && p[0] == u && p[|p|-1] == v
  }

  ghost predicate Reachable(edges: seq<Edge>, u: string, v: string) {
    exists p :: PathBetween(edges, u, v, p)
  }

  ghost predicate NormalCycle(edges: seq<Edge>, p: seq<string>) {
    |p| >= 2 && IsNormalPath(edges, p) && p[0] == p[|p|-1]
  }

  /** No cycle runs along NORMAL edges alone: every cycle goes through a LOOP edge. */
  ghost predicate NormalAcyclic(edges: seq<Edge>) {
    forall p :: !NormalCycle(edges, p)
  }

  ghost predicate Distinct<T>(s: seq<T>) {
    forall i, j :: 0 <= i < j < |s| ==> s[i] != s[j]
  }

  /** An order in which every NORMAL edge of a listed node leads to an earlier one. */
  ghost predicate NormalPostorder(edges: seq<Edge>, done: seq<string>) {
    forall i, e :: 0 <= i < |done| && e in edges && e.src == done[i] && e.kind == Normal
      ==> e.dst in done[..i]
  }

  /** Such an order over all vertices leaves no room for a cycle of NORMAL edges. */
  lemma PostorderIsAcyclic(edges: seq<Edge>, done: seq<string>)
    requires NormalPostorder(edges, done)
    requires Vertices(edges) <= set v | v in done
    ensures NormalAcyclic(edges)
  {
    forall p ensures !NormalCycle(edges, p) {
      if NormalCycle(edges, p) {
        var i := FirstIndex(done, p[0], edges, p);
        PathDescends(edges, done, p, i);
        assert false;
      }
    }
  }

  lemma FirstIndex(done: seq<string>, v: string, edges: seq<Edge>, p: seq<string>) returns (i: nat)
    requires NormalCycle(edges, p) && v == p[0] && Vertices(edges) <= set w | w in done
    ensures i < |done| && done[i] == v && v !in done[..i]
  {
    assert HasNormalEdge(edges, p[0], p[1]);
    assert v in Vertices(edges);
    i := LeastIndex(done, v);
  }

  lemma {:induction false} LeastIndex(done: seq<string>, v: string) returns (i: nat)
    requires v in done
    ensures i < |done| && done[i] == v && v !in done[..i]
  {
    if done[0] == v {
      i := 0;
    } else {
      var j := LeastIndex(done[1..], v);
      i := j + 1;
      assert done[..i] == [done[0]] + done[1..][..j];
    }
  }

  /** Every node after the first on a NORMAL path is listed before the first. */
  lemma {:induction false} PathDescends(edges: seq<Edge>, done: seq<string>, p: seq<string>, i: nat)
    requires NormalPostorder(edges, done)
    requires |p| >= 2 && IsNormalPath(edges, p)
    requires i < |done| && done[i] == p[0] && p[0] !in done[..i]
    ensures p[|p|-1] in done[..i]
    decreases |p|
  {
    assert HasNormalEdge(edges, p[0], p[1]);
    assert p[1] in done[..i];
    var j := LeastIndex(done[..i], p[1]);
    assert done[..i][..j] == done[..j];
    if |p| > 2 {
      assert IsNormalPath(edges, p[1..]) by {
        forall k | 0 <= k < |p[1..]| - 1 ensures HasNormalEdge(edges, p[1..][k], p[1..][k+1]) {
          assert HasNormalEdge(edges, p[k+1], p[k+2]);
        }
      }
      PathDescends(edges, done, p[1..], j);
    }
  }

  /** Closed sets contain what can be reached from them. */
  lemma {:induction false} ClosedPath(edges: seq<Edge>, visited: set<string>, p: seq<string>)
    requires IsPath(edges, p) && p[0] in visited
    requires forall e :: e in edges && e.src in visited ==> e.dst in visited
    ensures p[|p|-1] in visited
    decreases |p|
  {
    if |p| > 1 {
      assert HasEdge(edges, p[0], p[1]);
      assert IsPath(edges, p[1..]) by {
        forall k | 0 <= k < |p[1..]| - 1 ensures HasEdge(edges, p[1..][k], p[1..][k+1]) {
          assert HasEdge(edges, p[k+1], p[k+2]);
        }
      }
      ClosedPath(edges, visited, p[1..]);
    }
  }
}
