/**
 * The composed lifecycle graph: device states, transitions between them, the
 * `refines` chains, and what a permitted path is. These are the definitions that
 * composition, path finding and navigation are proved against.
 */
module LifecycleGraph {
  import opened Wrappers

  type StateId = string

  datatype StateNode = StateNode(id: StateId, parent: Option<StateId>, terminal: bool)

  datatype StateEdge = StateEdge(from: StateId, to: StateId, title: string, cost: real, manual: bool)

  datatype Layer = Layer(nodes: seq<StateNode>, edges: seq<StateEdge>)

  /** `order` is the iteration order of the node map. */
  datatype Graph = Graph(
    order: seq<StateId>,
    nodes: map<StateId, StateNode>,
    adjacency: map<StateId, seq<StateEdge>>)

  datatype PathResult = PathResult(edges: seq<StateEdge>, totalCost: real, hasManualStep: bool)

  predicate Distinct<T(==)>(s: seq<T>) {
    forall i, j | 0 <= i < j < |s| :: s[i] != s[j]
  }

  /** What every graph returned by composition satisfies. */
  ghost predicate WellFormed(g: Graph) {
    && Distinct(g.order)
    && (forall id :: id in g.order <==> id in g.nodes)
    && (forall id {:trigger g.nodes[id]} | id in g.nodes :: g.nodes[id].id == id)
    && (forall id {:trigger g.nodes[id]} | id in g.nodes && g.nodes[id].parent.Some? :: g.nodes[id].parent.value in g.nodes)
    && g.adjacency.Keys == g.nodes.Keys
    && (forall id, e | id in g.adjacency && e in g.adjacency[id] :: e.from == id && e.to in g.nodes)
  }

  ghost predicate NonNegativeCosts(g: Graph) {
    forall id, e | id in g.adjacency && e in g.adjacency[id] :: e.cost >= 0.0
  }

  ghost predicate PositiveCosts(g: Graph) {
    forall id, e | id in g.adjacency && e in g.adjacency[id] :: e.cost > 0.0
  }

  // -- Paths ------------------------------------------------------------------

  /** An edge of the graph that path finding may use. */
  ghost predicate Permitted(g: Graph, includeManual: bool, e: StateEdge) {
    e.from in g.adjacency && e in g.adjacency[e.from] && (includeManual || !e.manual)
  }

  /** Where a walk along `p` that begins at `u` ends. */
  function EndOf(u: StateId, p: seq<StateEdge>): StateId {
    if p == [] then u else p[|p| - 1].to
  }

  /** `p` is a connected chain of permitted edges from `u` to `v`. */
  ghost predicate IsPath(g: Graph, includeManual: bool, u: StateId, p: seq<StateEdge>, v: StateId) {
    if p == [] then u == v
    else
      var last := p[|p| - 1];
      && last.to == v
      && Permitted(g, includeManual, last)
      && IsPath(g, includeManual, u, p[..|p| - 1], last.from)
  }

  /** One edge of the graph is a path exactly when it is automatic or manual steps are asked for. */
  lemma EdgeIsPath(g: Graph, includeManual: bool, u: StateId, e: StateEdge)
    ensures IsPath(g, includeManual, u, [e], e.to)
            <==> u == e.from && e.from in g.adjacency && e in g.adjacency[e.from] && (e.manual ==> includeManual)
  {
    assert [e][..0] == [];
    assert IsPath(g, includeManual, u, [], e.from) <==> u == e.from;
  }

  ghost predicate Reachable(g: Graph, includeManual: bool, u: StateId, v: StateId) {
    exists p :: IsPath(g, includeManual, u, p, v)
  }

  function Cost(p: seq<StateEdge>): real {
    if p == [] then 0.0 else Cost(p[..|p| - 1]) + p[|p| - 1].cost
  }

  lemma {:induction false} CostConcat(p: seq<StateEdge>, q: seq<StateEdge>)
    ensures Cost(p + q) == Cost(p) + Cost(q)
  {
    if q == [] {
      assert p + q == p;
    } else {
      var n := |q| - 1;
      assert (p + q)[..|p + q| - 1] == p + q[..n];
      CostConcat(p, q[..n]);
    }
  }

  lemma {:induction false} PathPrepend(g: Graph, m: bool, e: StateEdge, p: seq<StateEdge>, v: StateId)
    requires Permitted(g, m, e) && IsPath(g, m, e.to, p, v)
    ensures IsPath(g, m, e.from, [e] + p, v)
    ensures Cost([e] + p) == e.cost + Cost(p)
  {
    if p == [] {
      PathAppend(g, m, e.from, [], e);
      assert [e] + p == [] + [e];
    } else {
      var n := |p| - 1;
      PathPrepend(g, m, e, p[..n], p[n].from);
      PathAppend(g, m, e.from, [e] + p[..n], p[n]);
      assert [e] + p == ([e] + p[..n]) + [p[n]];
    }
  }

  lemma {:induction false} PathTail(g: Graph, m: bool, u: StateId, p: seq<StateEdge>, v: StateId)
    requires IsPath(g, m, u, p, v) && p != []
    ensures Permitted(g, m, p[0]) && p[0].from == u
    ensures IsPath(g, m, p[0].to, p[1..], v)
    ensures Cost(p) == p[0].cost + Cost(p[1..])
  {
    var n := |p| - 1;
    if n == 0 {
      assert p[..0] == [] && p[1..] == [];
    } else {
      PathTail(g, m, u, p[..n], p[n].from);
      assert p[..n][1..] == p[1..][..n - 1];
    }
  }

  lemma PathAppend(g: Graph, m: bool, u: StateId, p: seq<StateEdge>, e: StateEdge)
    requires IsPath(g, m, u, p, e.from) && Permitted(g, m, e)
    ensures IsPath(g, m, u, p + [e], e.to)
    ensures Cost(p + [e]) == Cost(p) + e.cost
  {
    assert (p + [e])[..|p|] == p;
  }

  lemma PathEnds(g: Graph, m: bool, u: StateId, p: seq<StateEdge>, v: StateId)
    requires IsPath(g, m, u, p, v)
    ensures EndOf(u, p) == v
  {
  }

  /** Reading of `IsPath` edge by edge. */
  lemma {:induction false} PathEdges(g: Graph, m: bool, u: StateId, p: seq<StateEdge>, v: StateId)
    requires IsPath(g, m, u, p, v)
    ensures forall i | 0 <= i < |p| :: Permitted(g, m, p[i]) && p[i].from == if i == 0 then u else p[i - 1].to
  {
    if p != [] {
      var n := |p| - 1;
      PathEdges(g, m, u, p[..n], p[n].from);
      PathEnds(g, m, u, p[..n], p[n].from);
      forall i | 0 <= i < |p|
        ensures Permitted(g, m, p[i]) && p[i].from == if i == 0 then u else p[i - 1].to
      {
        if i < n {
          assert p[..n][i] == p[i];
          if i > 0 {
            assert p[..n][i - 1] == p[i - 1];
          }
        } else if i > 0 {
          assert p[..n][i - 1] == p[i - 1];
        }
      }
    }
  }

  /** Every state a path passes through, other than its start, is a node of the graph. */
  lemma PathStaysInGraph(g: Graph, m: bool, u: StateId, p: seq<StateEdge>, v: StateId)
    requires WellFormed(g) && u in g.nodes && IsPath(g, m, u, p, v)
    ensures v in g.nodes
  {
    if p != [] {
      assert Permitted(g, m, p[|p| - 1]);
    }
  }

  // -- Refinement -------------------------------------------------------------

  function Parent(g: Graph, id: StateId): Option<StateId> {
    if id in g.nodes then g.nodes[id].parent else None
  }

  /** The state `k` refinement hops above `id`, if the chain is that long. */
  function Ancestor(g: Graph, id: StateId, k: nat): Option<StateId> {
    if k == 0 then Some(id)
    else
      var below := Ancestor(g, id, k - 1);
      if below.None? then None else Parent(g, below.value)
  }

  /** `target` lies on the refines chain that begins at `id`. */
  ghost predicate Refines(g: Graph, id: StateId, target: StateId) {
    exists k: nat :: Ancestor(g, id, k) == Some(target)
  }

  lemma RefinesSelf(g: Graph, id: StateId)
    ensures Refines(g, id, id)
  {
    assert Ancestor(g, id, 0) == Some(id);
  }

  /** A target found on a chain that starts in the graph is itself in the graph. */
  lemma {:induction false} AncestorInGraph(g: Graph, id: StateId, k: nat)
    requires WellFormed(g) && id in g.nodes && Ancestor(g, id, k).Some?
    ensures Ancestor(g, id, k).value in g.nodes
  {
    if k > 0 {
      AncestorInGraph(g, id, k - 1);
    }
  }

  lemma {:induction false} AncestorEnds(g: Graph, id: StateId, n: nat, k: nat)
    requires Ancestor(g, id, n).None? && n <= k
    ensures Ancestor(g, id, k).None?
    decreases k
  {
    if n < k {
      AncestorEnds(g, id, n, k - 1);
    }
  }

  /** Once the chain revisits a state it never leaves the states already seen. */
  lemma {:induction false} AncestorCycles(g: Graph, id: StateId, j: nat, n: nat, k: nat)
    requires j < n && Ancestor(g, id, n).Some? && Ancestor(g, id, j) == Ancestor(g, id, n)
    ensures exists i: nat :: i < n && Ancestor(g, id, i) == Ancestor(g, id, k)
    decreases k
  {
    if k >= n {
      AncestorCycles(g, id, j, n, k - 1);
      var i: nat :| i < n && Ancestor(g, id, i) == Ancestor(g, id, k - 1);
      if i + 1 < n {
        assert Ancestor(g, id, i + 1) == Ancestor(g, id, k);
      } else {
        assert Ancestor(g, id, n) == Ancestor(g, id, k);
        assert Ancestor(g, id, j) == Ancestor(g, id, k);
      }
    }
  }
}
