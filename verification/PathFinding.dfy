/**
 * Dijkstra over the composed graph, as the source writes it: an array queue scanned
 * for its minimum, lazy duplicates, an early exit at the target, and a fallback to
 * the reachable states that refine an unreachable target.
 */
module PathFinding {
  import opened Wrappers
  import opened LifecycleGraph
  import opened Refinement

  datatype Link = Link(node: StateId, edge: StateEdge)

  // -- What a plan is ------------------------------------------------------------

  /** Some reachable state is the target or refines it. */
  ghost predicate PlanExists(g: Graph, m: bool, from: StateId, to: StateId) {
    && from in g.nodes
    && to in g.nodes
    && exists v :: Reachable(g, m, from, v) && Refines(g, v, to)
  }

  /** `r` is a permitted path whose end satisfies the target, with its totals computed from its edges. */
  ghost predicate IsPlan(g: Graph, m: bool, from: StateId, to: StateId, r: PathResult) {
    var end := EndOf(from, r.edges);
    && IsPath(g, m, from, r.edges, end)
    && Refines(g, end, to)
    && (Refines(g, from, to) ==> r.edges == [])
    && (!Refines(g, from, to) && Reachable(g, m, from, to) ==> end == to)
    && r.totalCost == Cost(r.edges)
    && (r.hasManualStep <==> exists e | e in r.edges :: e.manual)
  }

  /**
   * The paths a plan competes with: those to the target itself when it can be
   * reached, otherwise those to any state that refines it.
   */
  ghost predicate Competes(g: Graph, m: bool, from: StateId, to: StateId, p: seq<StateEdge>) {
    var end := EndOf(from, p);
    && IsPath(g, m, from, p, end)
    && (Refines(g, from, to) ==> p == [])
    && (if !Refines(g, from, to) && Reachable(g, m, from, to) then end == to else Refines(g, end, to))
  }

  ghost predicate IsCheapestPlan(g: Graph, m: bool, from: StateId, to: StateId, r: PathResult) {
    && IsPlan(g, m, from, to, r)
    && forall p | Competes(g, m, from, to, p) :: r.totalCost <= Cost(p)
  }

  /** Cheapest plans between the same states cost the same. */
  lemma CheapestCostUnique(g: Graph, m: bool, from: StateId, to: StateId, r: PathResult, r': PathResult)
    requires IsCheapestPlan(g, m, from, to, r) && IsCheapestPlan(g, m, from, to, r')
    ensures r.totalCost == r'.totalCost
  {
    assert Competes(g, m, from, to, r.edges) && Competes(g, m, from, to, r'.edges);
  }

  // -- State of the search ---------------------------------------------------------

  /** `tree` records, for every state given a distance, the path the predecessor links spell out. */
  ghost predicate TreeOk(g: Graph, m: bool, s: StateId, dist: map<StateId, real>, prev: map<StateId, Link>,
                         tree: map<StateId, seq<StateEdge>>, visited: set<StateId>)
  {
    && s in dist && dist.Keys <= g.nodes.Keys && visited <= dist.Keys && tree.Keys == dist.Keys
    && TreePaths(g, m, s, dist, tree)
    && TreeLinks(s, prev, tree, visited)
  }

  ghost predicate TreePaths(g: Graph, m: bool, s: StateId, dist: map<StateId, real>,
                            tree: map<StateId, seq<StateEdge>>)
    requires tree.Keys == dist.Keys
  {
    forall v {:trigger tree[v]} | v in tree :: IsPath(g, m, s, tree[v], v) && Cost(tree[v]) == dist[v]
  }

  ghost predicate TreeLinks(s: StateId, prev: map<StateId, Link>, tree: map<StateId, seq<StateEdge>>,
                            visited: set<StateId>)
  {
    && s in tree && tree[s] == [] && prev.Keys == tree.Keys - {s} && visited <= tree.Keys
    && (forall v {:trigger prev[v]} | v in prev ::
          && prev[v].node in visited && prev[v].edge.from == prev[v].node && prev[v].edge.to == v
          && tree[v] == tree[prev[v].node] + [prev[v].edge])
  }

  ghost predicate QueueOk(dist: map<StateId, real>, visited: set<StateId>, queue: seq<StateId>) {
    && (forall q | q in queue :: q in dist)
    && (forall v | v in dist && v !in visited :: v in queue)
  }

  /** Every permitted edge out of `done` leads to a state that has a distance. */
  ghost predicate Closed(g: Graph, m: bool, dist: map<StateId, real>, done: set<StateId>) {
    forall e {:trigger Permitted(g, m, e)} | Permitted(g, m, e) && e.from in done :: e.to in dist
  }

  /** ... and that distance is no worse than going through the edge. */
  ghost predicate Relaxed(g: Graph, m: bool, dist: map<StateId, real>, done: set<StateId>) {
    forall e {:trigger Permitted(g, m, e)} | Permitted(g, m, e) && e.from in done && e.from in dist && e.to in dist ::
      dist[e.to] <= dist[e.from] + e.cost
  }

  /** Visited states are no farther than the ones still waiting. */
  ghost predicate Settled(dist: map<StateId, real>, visited: set<StateId>) {
    forall x, y | x in visited && x in dist && y in dist && y !in visited :: dist[x] <= dist[y]
  }

  lemma RelaxKeepsPaths(g: Graph, m: bool, s: StateId, dist: map<StateId, real>,
                        tree: map<StateId, seq<StateEdge>>, current: StateId, e: StateEdge, newDist: real)
    requires tree.Keys == dist.Keys && TreePaths(g, m, s, dist, tree)
    requires Permitted(g, m, e) && e.from == current && current in dist && newDist == dist[current] + e.cost
    ensures TreePaths(g, m, s, dist[e.to := newDist], tree[e.to := tree[current] + [e]])
  {
    PathAppend(g, m, s, tree[current], e);
  }

  lemma RelaxKeepsLinks(s: StateId, prev: map<StateId, Link>, tree: map<StateId, seq<StateEdge>>,
                        visited: set<StateId>, current: StateId, e: StateEdge)
    requires TreeLinks(s, prev, tree, visited) && s in visited && current in visited && e.to !in visited
    requires e.from == current
    ensures TreeLinks(s, prev[e.to := Link(current, e)], tree[e.to := tree[current] + [e]], visited)
  {
  }

  lemma RelaxKeepsTree(g: Graph, m: bool, s: StateId, dist: map<StateId, real>, prev: map<StateId, Link>,
                       tree: map<StateId, seq<StateEdge>>, visited: set<StateId>, current: StateId, e: StateEdge,
                       newDist: real)
    requires TreeOk(g, m, s, dist, prev, tree, visited) && s in visited && current in visited && e.to !in visited
    requires Permitted(g, m, e) && e.from == current && e.to in g.nodes && newDist == dist[current] + e.cost
    ensures TreeOk(g, m, s, dist[e.to := newDist], prev[e.to := Link(current, e)], tree[e.to := tree[current] + [e]], visited)
  {
    RelaxKeepsPaths(g, m, s, dist, tree, current, e, newDist);
    RelaxKeepsLinks(s, prev, tree, visited, current, e);
    hide TreePaths, TreeLinks, Permitted;
  }

  lemma QueueGrows(dist: map<StateId, real>, visited: set<StateId>, queue: seq<StateId>, v: StateId, newDist: real)
    requires QueueOk(dist, visited, queue)
    ensures QueueOk(dist[v := newDist], visited, queue + [v])
  {
  }

  lemma OutEdge(g: Graph, current: StateId, i: nat)
    requires WellFormed(g) && current in g.adjacency && i < |g.adjacency[current]|
    ensures g.adjacency[current][i].from == current && g.adjacency[current][i].to in g.nodes
  {
    assert g.adjacency[current][i] in g.adjacency[current];
  }

  lemma TreeMeans(g: Graph, m: bool, s: StateId, dist: map<StateId, real>, prev: map<StateId, Link>,
                  tree: map<StateId, seq<StateEdge>>, visited: set<StateId>)
    requires TreeOk(g, m, s, dist, prev, tree, visited)
    ensures visited <= dist.Keys && tree.Keys == dist.Keys && dist.Keys <= g.nodes.Keys && s in dist
  {
  }

  lemma VisitKeepsLinks(s: StateId, prev: map<StateId, Link>, tree: map<StateId, seq<StateEdge>>,
                        visited: set<StateId>, current: StateId)
    requires TreeLinks(s, prev, tree, visited) && current in tree
    ensures TreeLinks(s, prev, tree, visited + {current})
  {
  }

  /**
   * Any path out of the source either ends at a state with a distance or leaves
   * the finished states on the way.
   */
  lemma {:induction false} PathLeaves(g: Graph, m: bool, s: StateId, dist: map<StateId, real>, done: set<StateId>,
                                      p: seq<StateEdge>, v: StateId) returns (y: StateId)
    requires s in dist && Closed(g, m, dist, done) && IsPath(g, m, s, p, v)
    ensures y in dist && (y == v || y !in done)
    decreases |p|
  {
    if p == [] {
      y := s;
    } else {
      var e := p[|p| - 1];
      y := PathLeaves(g, m, s, dist, done, p[..|p| - 1], e.from);
      if y == e.from && y in done {
        assert Permitted(g, m, e);
        y := v;
      }
    }
  }

  /** With non-negative costs, the distance at that point bounds the path's cost from below. */
  lemma {:induction false} PathCostsAtLeast(g: Graph, m: bool, s: StateId, dist: map<StateId, real>,
                                            done: set<StateId>, p: seq<StateEdge>, v: StateId)
      returns (y: StateId)
    requires NonNegativeCosts(g) && s in dist && dist[s] == 0.0
    requires Closed(g, m, dist, done) && Relaxed(g, m, dist, done) && IsPath(g, m, s, p, v)
    ensures y in dist && (y == v || y !in done) && dist[y] <= Cost(p)
    decreases |p|
  {
    if p == [] {
      y := s;
    } else {
      var e := p[|p| - 1];
      y := PathCostsAtLeast(g, m, s, dist, done, p[..|p| - 1], e.from);
      assert Permitted(g, m, e);
      if y == e.from && y in done {
        y := v;
      }
    }
  }

  // -- The search ------------------------------------------------------------------

  /** Position of the queued state with the smallest distance, the first one on a tie. */
  method MinIndex(queue: seq<StateId>, dist: map<StateId, real>) returns (minIdx: nat)
    requires queue != [] && forall q | q in queue :: q in dist
    ensures minIdx < |queue|
    ensures forall j | 0 <= j < |queue| :: dist[queue[minIdx]] <= dist[queue[j]]
    ensures forall j | 0 <= j < minIdx :: dist[queue[minIdx]] < dist[queue[j]]
  {
    minIdx := 0;
    var minDist := dist[queue[0]];
    for i := 1 to |queue|
      invariant minIdx < i && minDist == dist[queue[minIdx]]
      invariant forall j | 0 <= j < i :: minDist <= dist[queue[j]]
      invariant forall j | 0 <= j < minIdx :: minDist < dist[queue[j]]
    {
      var d := dist[queue[i]];
      if d < minDist {
        minDist, minIdx := d, i;
      }
    }
  }

  /** Spell out the path recorded by the predecessor links. */
  method ReconstructPath(prev: map<StateId, Link>, to: StateId, ghost s: StateId,
                         ghost tree: map<StateId, seq<StateEdge>>) returns (r: PathResult)
    requires to in tree && s in tree && tree[s] == [] && prev.Keys == tree.Keys - {s}
    requires forall v {:trigger prev[v]} | v in prev :: prev[v].node in tree && tree[v] == tree[prev[v].node] + [prev[v].edge]
    ensures r.edges == tree[to] && r.totalCost == Cost(r.edges)
    ensures r.hasManualStep <==> exists e | e in r.edges :: e.manual
  {
    var edges: seq<StateEdge> := [];
    var current := to;
    var totalCost := 0.0;
    var hasManualStep := false;
    while current in prev
      invariant current in tree && tree[to] == tree[current] + edges
      invariant totalCost == Cost(edges)
      invariant hasManualStep <==> exists e | e in edges :: e.manual
      decreases |tree[current]|
    {
      var entry := prev[current];
      CostConcat([entry.edge], edges);
      assert Cost([entry.edge]) == Cost([]) + entry.edge.cost by { assert [entry.edge][..0] == []; }
      assert tree[current] + edges == tree[entry.node] + ([entry.edge] + edges);
      edges := [entry.edge] + edges;
      totalCost := totalCost + entry.edge.cost;
      if entry.edge.manual {
        hasManualStep := true;
      }
      current := entry.node;
    }
    r := PathResult(edges, totalCost, hasManualStep);
  }

  /** The cheapest recorded state that refines the target; the first one recorded on a tie. */
  method FindReachableRefinement(g: Graph, targetId: StateId, prev: map<StateId, Link>, order: seq<StateId>,
                                 ghost s: StateId, ghost tree: map<StateId, seq<StateEdge>>)
      returns (best: Option<StateId>)
    requires s in tree && tree[s] == [] && prev.Keys == tree.Keys - {s}
    requires forall v {:trigger prev[v]} | v in prev :: prev[v].node in tree && tree[v] == tree[prev[v].node] + [prev[v].edge]
    requires forall v :: v in order <==> v in prev
    ensures best.None? ==> forall v | v in prev :: !Refines(g, v, targetId)
    ensures best.Some? ==>
              && best.value in prev && Refines(g, best.value, targetId)
              && forall v | v in prev && Refines(g, v, targetId) :: Cost(tree[best.value]) <= Cost(tree[v])
  {
    best := None;
    var bestCost := 0.0;
    for i := 0 to |order|
      invariant best.None? ==> forall j | 0 <= j < i :: !Refines(g, order[j], targetId)
      invariant best.Some? ==>
                  && best.value in prev && Refines(g, best.value, targetId)
                  && bestCost == Cost(tree[best.value])
                  && forall j | 0 <= j < i && Refines(g, order[j], targetId) ::
                       order[j] in tree && bestCost <= Cost(tree[order[j]])
    {
      var id := order[i];
      assert id in prev;
      var refined := IsRefinementOf(g, id, targetId);
      if refined {
        var path := ReconstructPath(prev, id, s, tree);
        if best.None? || path.totalCost < bestCost {
          best, bestCost := Some(id), path.totalCost;
        }
      }
    }
  }

  /** What holds after the first `i` edges out of `current` have been offered. */
  ghost predicate Offered(g: Graph, m: bool, dist0: map<StateId, real>, dist: map<StateId, real>,
                          visited: set<StateId>, current: StateId, edges: seq<StateEdge>, i: nat)
    requires i <= |edges|
  {
    && current in visited && visited <= dist0.Keys <= dist.Keys
    && (forall x | x in visited :: dist[x] == dist0[x])
    && (forall y | y in dist0 :: dist[y] <= dist0[y])
    && (forall k | 0 <= k < i && Permitted(g, m, edges[k]) :: edges[k].to in dist)
    && (NonNegativeCosts(g) ==>
          && (forall y | y in dist && y !in visited :: dist[current] <= dist[y])
          && (forall k | 0 <= k < i && Permitted(g, m, edges[k]) :: dist[edges[k].to] <= dist[current] + edges[k].cost))
  }

  lemma OfferStarts(g: Graph, m: bool, dist: map<StateId, real>, visited: set<StateId>, current: StateId,
                    edges: seq<StateEdge>)
    requires current in visited && visited <= dist.Keys
    requires NonNegativeCosts(g) ==> RelaxedSoFar(g, m, dist, visited, current)
    ensures Offered(g, m, dist, dist, visited, current, edges, 0)
    ensures NonNegativeCosts(g) ==> forall x | x in visited :: dist[x] <= dist[current]
  {
  }

  lemma OfferImproves(g: Graph, m: bool, dist0: map<StateId, real>, dist: map<StateId, real>,
                      visited: set<StateId>, current: StateId, edges: seq<StateEdge>, i: nat, newDist: real)
    requires i < |edges| && Offered(g, m, dist0, dist, visited, current, edges, i)
    requires current in g.adjacency && edges == g.adjacency[current] && edges[i].to !in visited
    requires newDist == dist[current] + edges[i].cost
    requires edges[i].to in dist ==> newDist < dist[edges[i].to]
    ensures Offered(g, m, dist0, dist[edges[i].to := newDist], visited, current, edges, i + 1)
  {
    assert edges[i] in g.adjacency[current];
  }

  lemma OfferSkipped(g: Graph, m: bool, dist0: map<StateId, real>, dist: map<StateId, real>,
                     visited: set<StateId>, current: StateId, edges: seq<StateEdge>, i: nat)
    requires i < |edges| && Offered(g, m, dist0, dist, visited, current, edges, i)
    requires current in g.adjacency && edges == g.adjacency[current]
    requires NonNegativeCosts(g) ==> forall x | x in visited :: dist0[x] <= dist0[current]
    requires || !Permitted(g, m, edges[i])
             || edges[i].to in visited
             || (edges[i].to in dist && dist[edges[i].to] <= dist[current] + edges[i].cost)
    ensures Offered(g, m, dist0, dist, visited, current, edges, i + 1)
  {
    assert edges[i] in g.adjacency[current];
  }

  /** Offer every permitted edge out of `current` as a way to its far end. */
  method RelaxEdges(g: Graph, includeManual: bool, ghost s: StateId, current: StateId, visited: set<StateId>,
                    dist0: map<StateId, real>, prev0: map<StateId, Link>, order0: seq<StateId>,
                    queue0: seq<StateId>, ghost tree0: map<StateId, seq<StateEdge>>)
      returns (dist: map<StateId, real>, prev: map<StateId, Link>, order: seq<StateId>, queue: seq<StateId>,
               ghost tree: map<StateId, seq<StateEdge>>)
    requires WellFormed(g) && s in visited && current in visited
    requires TreeOk(g, includeManual, s, dist0, prev0, tree0, visited)
    requires QueueOk(dist0, visited, queue0) && forall v :: v in order0 <==> v in prev0
    requires Closed(g, includeManual, dist0, visited - {current})
    requires NonNegativeCosts(g) ==> RelaxedSoFar(g, includeManual, dist0, visited, current)
    ensures TreeOk(g, includeManual, s, dist, prev, tree, visited)
    ensures QueueOk(dist, visited, queue) && forall v :: v in order <==> v in prev
    ensures Closed(g, includeManual, dist, visited)
    ensures NonNegativeCosts(g) ==> Relaxed(g, includeManual, dist, visited) && Settled(dist, visited)
  {
    hide TreePaths, TreeLinks, Closed, Relaxed, Settled, IsPath, Offered, RelaxedSoFar, NonNegativeCosts;
    dist, prev, order, queue, tree := dist0, prev0, order0, queue0, tree0;
    var edges := g.adjacency[current];
    TreeMeans(g, includeManual, s, dist, prev, tree, visited);
    OfferStarts(g, includeManual, dist0, visited, current, edges);
    assert current in g.adjacency;
    hide TreeOk, QueueOk, WellFormed;
    for i := 0 to |edges|
      invariant TreeOk(g, includeManual, s, dist, prev, tree, visited)
      invariant QueueOk(dist, visited, queue) && forall v :: v in order <==> v in prev
      invariant Offered(g, includeManual, dist0, dist, visited, current, edges, i)
    {
      var edge := edges[i];
      OutEdge(g, current, i);
      TreeMeans(g, includeManual, s, dist, prev, tree, visited);
      if (!includeManual && edge.manual) || edge.to in visited {
        OfferSkipped(g, includeManual, dist0, dist, visited, current, edges, i);
        continue;
      }
      var newDist := dist[current] + edge.cost;
      if edge.to !in dist || newDist < dist[edge.to] {
        OfferImproves(g, includeManual, dist0, dist, visited, current, edges, i, newDist);
        QueueGrows(dist, visited, queue, edge.to, newDist);
        RelaxKeepsTree(g, includeManual, s, dist, prev, tree, visited, current, edge, newDist);
        dist := dist[edge.to := newDist];
        if edge.to !in prev {
          order := order + [edge.to];
        }
        prev := prev[edge.to := Link(current, edge)];
        queue := queue + [edge.to];
        tree := tree[edge.to := tree[current] + [edge]];
      } else {
        OfferSkipped(g, includeManual, dist0, dist, visited, current, edges, i);
      }
    }
    EdgesDone(g, includeManual, dist0, dist, visited, current);
  }

  /** Expand states in order of distance until the target is reached or nothing is left. */
  method Search(g: Graph, includeManual: bool, from: StateId, to: StateId)
      returns (dist: map<StateId, real>, prev: map<StateId, Link>, order: seq<StateId>, arrived: bool,
               ghost tree: map<StateId, seq<StateEdge>>, ghost visited': set<StateId>)
    requires WellFormed(g) && from in g.nodes && from != to
    ensures TreeOk(g, includeManual, from, dist, prev, tree, visited')
    ensures forall v :: v in order <==> v in prev
    ensures arrived <==> to in visited'
    ensures !arrived ==> dist.Keys == visited'
    ensures Closed(g, includeManual, dist, visited' - {to})
    ensures NonNegativeCosts(g) ==>
              && Relaxed(g, includeManual, dist, visited' - {to})
              && (arrived ==> forall y | y in dist && y !in visited' :: dist[to] <= dist[y])
  {
    hide TreePaths, TreeLinks, Closed, Relaxed, Settled, IsPath, RelaxedSoFar, NonNegativeCosts, WellFormed;
    dist := map[from := 0.0];
    prev := map[];
    order := [];
    tree := map[from := []];
    var visited: set<StateId> := {};
    var queue := [from];
    SearchStarts(g, includeManual, from);
    while |queue| > 0
      invariant TreeOk(g, includeManual, from, dist, prev, tree, visited)
      invariant QueueOk(dist, visited, queue)
      invariant forall v :: v in order <==> v in prev
      invariant from in visited || (visited == {} && dist.Keys == {from})
      invariant to !in visited
      invariant Closed(g, includeManual, dist, visited)
      invariant NonNegativeCosts(g) ==> Relaxed(g, includeManual, dist, visited) && Settled(dist, visited)
      decreases g.nodes.Keys - visited, |queue|
    {
      var minIdx := MinIndex(queue, dist);
      var current := queue[minIdx];
      RemovedFromQueue(queue, minIdx);
      ghost var queue0 := queue;
      queue := queue[..minIdx] + queue[minIdx + 1..];
      if current in visited {
        continue;
      }
      VisitKeepsLinks(from, prev, tree, visited, current);
      VisitMinimum(g, includeManual, dist, visited, queue0, current);
      visited := visited + {current};
      if current == to {
        return dist, prev, order, true, tree, visited;
      }
      dist, prev, order, queue, tree :=
        RelaxEdges(g, includeManual, from, current, visited, dist, prev, order, queue, tree);
    }
    assert visited - {to} == visited;
    return dist, prev, order, false, tree, visited;
  }

  /**
   * The cheapest path from one state to another. Whether there is an answer, and
   * that the answer is a permitted path, hold for arbitrary costs; that nothing is
   * cheaper holds when no cost is negative.
   */
  method FindPath(g: Graph, from: StateId, to: StateId, includeManual: bool) returns (r: Option<PathResult>)
    requires WellFormed(g)
    ensures r.Some? <==> PlanExists(g, includeManual, from, to)
    ensures r.Some? ==> IsPlan(g, includeManual, from, to, r.value)
    ensures r.Some? && NonNegativeCosts(g) ==> IsCheapestPlan(g, includeManual, from, to, r.value)
  {
    hide IsPlan, IsCheapestPlan, IsPath, Refines, Reachable, Closed, Relaxed, NonNegativeCosts, WellFormed;
    if from !in g.nodes || to !in g.nodes {
      return None;
    }
    if from == to {
      AlreadyThere(g, includeManual, from, to);
      return Some(PathResult([], 0.0, false));
    }
    var already := IsRefinementOf(g, from, to);
    if already {
      AlreadyThere(g, includeManual, from, to);
      return Some(PathResult([], 0.0, false));
    }
    var dist, prev, order, arrived, tree, visited := Search(g, includeManual, from, to);
    hide PlanExists;
    SearchFinished(g, includeManual, from, to, dist, prev, tree, visited, arrived);
    if to !in prev {
      var reachable := FindReachableRefinement(g, to, prev, order, from, tree);
      if reachable.Some? {
        var p := ReconstructPath(prev, reachable.value, from, tree);
        RefinementIsPlan(g, includeManual, from, to, dist, tree, reachable.value, p);
        return Some(p);
      }
      NoPlan(g, includeManual, from, to, dist, prev);
      return None;
    }
    var p := ReconstructPath(prev, to, from, tree);
    TargetIsPlan(g, includeManual, from, to, p);
    return Some(p);
  }

  lemma NoPlan(g: Graph, m: bool, from: StateId, to: StateId, dist: map<StateId, real>, prev: map<StateId, Link>)
    requires !Refines(g, from, to) && (forall v :: v in dist <==> Reachable(g, m, from, v))
    requires (forall v | v in dist :: v == from || v in prev) && forall v | v in prev :: !Refines(g, v, to)
    ensures !PlanExists(g, m, from, to)
  {
    hide Refines, Reachable;
  }

  lemma AlreadyThere(g: Graph, m: bool, from: StateId, to: StateId)
    requires from in g.nodes && to in g.nodes && (from == to || Refines(g, from, to))
    ensures PlanExists(g, m, from, to)
    ensures IsCheapestPlan(g, m, from, to, PathResult([], 0.0, false))
  {
    RefinesSelf(g, from);
    assert IsPath(g, m, from, [], from);
    assert Reachable(g, m, from, from);
  }

  lemma TargetIsPlan(g: Graph, m: bool, from: StateId, to: StateId, p: PathResult)
    requires from in g.nodes && to in g.nodes && !Refines(g, from, to)
    requires IsPath(g, m, from, p.edges, to) && p.totalCost == Cost(p.edges)
    requires p.hasManualStep <==> exists e | e in p.edges :: e.manual
    ensures PlanExists(g, m, from, to) && IsPlan(g, m, from, to, p)
    ensures (forall q | IsPath(g, m, from, q, to) :: p.totalCost <= Cost(q)) ==> IsCheapestPlan(g, m, from, to, p)
  {
    RefinesSelf(g, to);
    PathEnds(g, m, from, p.edges, to);
    assert Reachable(g, m, from, to);
  }

  lemma RefinementIsPlan(g: Graph, m: bool, from: StateId, to: StateId, dist: map<StateId, real>,
                         tree: map<StateId, seq<StateEdge>>, v: StateId, p: PathResult)
    requires from in g.nodes && to in g.nodes && !Refines(g, from, to) && !Reachable(g, m, from, to)
    requires tree.Keys == dist.Keys && TreePaths(g, m, from, dist, tree) && v in dist && Refines(g, v, to)
    requires p.edges == tree[v] && p.totalCost == Cost(p.edges)
    requires p.hasManualStep <==> exists e | e in p.edges :: e.manual
    requires forall w | w in dist && w != from && Refines(g, w, to) :: Cost(tree[v]) <= Cost(tree[w])
    ensures PlanExists(g, m, from, to) && IsPlan(g, m, from, to, p)
    ensures (forall w, q | IsPath(g, m, from, q, w) :: w in dist && dist[w] <= Cost(q))
            ==> IsCheapestPlan(g, m, from, to, p)
  {
    PathEnds(g, m, from, p.edges, v);
    assert Reachable(g, m, from, v);
  }

  lemma SearchStarts(g: Graph, m: bool, s: StateId)
    ensures TreePaths(g, m, s, map[s := 0.0], map[s := []])
    ensures TreeLinks(s, map[], map[s := []], {})
    ensures Closed(g, m, map[s := 0.0], {}) && Relaxed(g, m, map[s := 0.0], {}) && Settled(map[s := 0.0], {})
  {
  }

  /** Visiting the nearest waiting state keeps every visited state no farther than the rest. */
  lemma VisitMinimum(g: Graph, m: bool, dist: map<StateId, real>, visited: set<StateId>, queue: seq<StateId>,
                     current: StateId)
    requires visited <= dist.Keys && QueueOk(dist, visited, queue) && current in queue && current !in visited
    requires forall j | 0 <= j < |queue| :: dist[current] <= dist[queue[j]]
    requires Closed(g, m, dist, visited)
    ensures visited + {current} - {current} == visited
    ensures forall y | y in dist && y !in visited :: dist[current] <= dist[y]
    ensures Relaxed(g, m, dist, visited) && Settled(dist, visited)
            ==> RelaxedSoFar(g, m, dist, visited + {current}, current)
  {
    assert visited + {current} - {current} == visited;
    forall y | y in dist && y !in visited ensures dist[current] <= dist[y] {
      assert y in queue;
    }
  }

  lemma RemovedFromQueue(queue: seq<StateId>, i: nat)
    requires i < |queue|
    ensures forall q | q in queue :: q == queue[i] || q in queue[..i] + queue[i + 1..]
    ensures forall q | q in queue[..i] + queue[i + 1..] :: q in queue
  {
  }

  /** The relaxation facts while `current`, just visited, has not been expanded yet. */
  ghost predicate RelaxedSoFar(g: Graph, m: bool, dist: map<StateId, real>, visited: set<StateId>,
                               current: StateId)
  {
    && Relaxed(g, m, dist, visited - {current})
    && Settled(dist, visited)
    && current in dist
    && (forall x | x in visited && x in dist :: dist[x] <= dist[current])
  }

  lemma EdgesDone(g: Graph, m: bool, dist0: map<StateId, real>, dist: map<StateId, real>, visited: set<StateId>,
                  current: StateId)
    requires WellFormed(g) && current in visited && current in g.adjacency
    requires Closed(g, m, dist0, visited - {current})
    requires Offered(g, m, dist0, dist, visited, current, g.adjacency[current], |g.adjacency[current]|)
    requires NonNegativeCosts(g) ==> RelaxedSoFar(g, m, dist0, visited, current)
    ensures Closed(g, m, dist, visited)
    ensures NonNegativeCosts(g) ==> Relaxed(g, m, dist, visited) && Settled(dist, visited)
  {
    forall e | Permitted(g, m, e) && e.from in visited
      ensures e.to in dist
      ensures NonNegativeCosts(g) ==> dist[e.to] <= dist[e.from] + e.cost
    {
      if e.from != current {
        assert e.from in visited - {current};
        assert e.to in dist0;
      }
    }
  }

  /** What the search knows when its loop ends, early or not. */
  lemma SearchFinished(g: Graph, m: bool, s: StateId, to: StateId, dist: map<StateId, real>,
                       prev: map<StateId, Link>, tree: map<StateId, seq<StateEdge>>,
                       visited: set<StateId>, arrived: bool)
    requires TreeOk(g, m, s, dist, prev, tree, visited) && s != to
    requires arrived <==> to in visited
    requires !arrived ==> dist.Keys == visited
    requires Closed(g, m, dist, visited - {to})
    requires NonNegativeCosts(g) ==> Relaxed(g, m, dist, visited - {to})
    requires NonNegativeCosts(g) && arrived ==> forall y | y in dist && y !in visited :: dist[to] <= dist[y]
    ensures to in prev <==> Reachable(g, m, s, to)
    ensures !arrived ==> forall v :: v in dist <==> Reachable(g, m, s, v)
    ensures NonNegativeCosts(g) && to in prev ==> forall p | IsPath(g, m, s, p, to) :: dist[to] <= Cost(p)
    ensures NonNegativeCosts(g) && !arrived ==>
              forall v, p | IsPath(g, m, s, p, v) :: v in dist && dist[v] <= Cost(p)
  {
    var done := visited - {to};
    forall v, p | IsPath(g, m, s, p, v) && !arrived
      ensures v in dist
      ensures NonNegativeCosts(g) ==> dist[v] <= Cost(p)
    {
      var y := PathLeaves(g, m, s, dist, done, p, v);
      if NonNegativeCosts(g) {
        var z := PathCostsAtLeast(g, m, s, dist, done, p, v);
      }
    }
    forall p | IsPath(g, m, s, p, to) && arrived
      ensures NonNegativeCosts(g) ==> dist[to] <= Cost(p)
    {
      if NonNegativeCosts(g) {
        var y := PathCostsAtLeast(g, m, s, dist, done, p, to);
      }
    }
    forall v | v in dist ensures Reachable(g, m, s, v) {
      assert IsPath(g, m, s, tree[v], v);
    }
  }
}

/** Choosing the most specific terminal state that can be reached, then the cheapest. */
module BestTarget {
  import opened Wrappers
  import opened LifecycleGraph
  import opened Refinement
  import opened PathFinding

  /** A terminal state with a plan. */
  ghost predicate Candidate(g: Graph, m: bool, from: StateId, id: StateId) {
    id in g.nodes && g.nodes[id].terminal && PlanExists(g, m, from, id)
  }

  /** Deeper wins; at equal depth, cheaper wins. */
  predicate Beats(depth: nat, cost: real, depth': nat, cost': real) {
    depth > depth' || (depth == depth' && cost < cost')
  }

  /** No plan for `id`, whatever its depth, beats the given depth and cost. */
  ghost predicate NoBetter(g: Graph, m: bool, from: StateId, id: StateId, depth: nat, cost: real) {
    forall d, r | IsDepth(g, id, d) && IsCheapestPlan(g, m, from, id, r) :: !Beats(d, r.totalCost, depth, cost)
  }

  /** ... and one listed earlier does not even tie. */
  ghost predicate StrictlyWorse(g: Graph, m: bool, from: StateId, id: StateId, depth: nat, cost: real) {
    forall d, r | IsDepth(g, id, d) && IsCheapestPlan(g, m, from, id, r) :: Beats(depth, cost, d, r.totalCost)
  }

  ghost predicate Best(g: Graph, m: bool, from: StateId, i: nat, k: nat, depth: nat, plan: PathResult)
    requires k < i <= |g.order|
  {
    && Candidate(g, m, from, g.order[k])
    && IsDepth(g, g.order[k], depth)
    && IsPlan(g, m, from, g.order[k], plan)
    && (NonNegativeCosts(g) ==>
          && IsCheapestPlan(g, m, from, g.order[k], plan)
          && (forall j | 0 <= j < i && Candidate(g, m, from, g.order[j]) ::
                NoBetter(g, m, from, g.order[j], depth, plan.totalCost))
          && (forall j | 0 <= j < k && Candidate(g, m, from, g.order[j]) ::
                StrictlyWorse(g, m, from, g.order[j], depth, plan.totalCost)))
  }

  lemma BestReplaced(g: Graph, m: bool, from: StateId, i: nat, k: nat, depth: nat, plan: PathResult,
                     depth': nat, plan': PathResult)
    requires k < i < |g.order| && Best(g, m, from, i, k, depth, plan)
    requires Candidate(g, m, from, g.order[i]) && IsDepth(g, g.order[i], depth')
    requires IsPlan(g, m, from, g.order[i], plan')
    requires NonNegativeCosts(g) ==> IsCheapestPlan(g, m, from, g.order[i], plan')
    ensures Beats(depth', plan'.totalCost, depth, plan.totalCost) ==> Best(g, m, from, i + 1, i, depth', plan')
    ensures !Beats(depth', plan'.totalCost, depth, plan.totalCost) ==> Best(g, m, from, i + 1, k, depth, plan)
  {
    hide IsDepth, IsPlan, IsCheapestPlan, Candidate, NoBetter, StrictlyWorse, NonNegativeCosts, Beats;
    if NonNegativeCosts(g) {
      OnlyRank(g, m, from, g.order[i], depth', plan');
      Ranks(g, m, from, g.order[i], depth', plan'.totalCost, depth, plan.totalCost);
      forall j | 0 <= j < i && Candidate(g, m, from, g.order[j])
        ensures Beats(depth', plan'.totalCost, depth, plan.totalCost) ==>
                  && StrictlyWorse(g, m, from, g.order[j], depth', plan'.totalCost)
                  && NoBetter(g, m, from, g.order[j], depth', plan'.totalCost)
      {
        if Beats(depth', plan'.totalCost, depth, plan.totalCost) {
          Outranked(g, m, from, g.order[j], depth, plan.totalCost, depth', plan'.totalCost);
        }
      }
    }
  }

  /** A candidate has one depth and one cheapest cost. */
  ghost predicate HasRank(g: Graph, m: bool, from: StateId, id: StateId, depth: nat, cost: real) {
    forall d, r | IsDepth(g, id, d) && IsCheapestPlan(g, m, from, id, r) :: d == depth && r.totalCost == cost
  }

  lemma OnlyRank(g: Graph, m: bool, from: StateId, id: StateId, depth: nat, plan: PathResult)
    requires IsDepth(g, id, depth) && IsCheapestPlan(g, m, from, id, plan)
    ensures HasRank(g, m, from, id, depth, plan.totalCost)
  {
    hide IsDepth, IsCheapestPlan;
    forall d, r | IsDepth(g, id, d) && IsCheapestPlan(g, m, from, id, r)
      ensures d == depth && r.totalCost == plan.totalCost
    {
      DepthUnique(g, id, d, depth);
      CheapestCostUnique(g, m, from, id, r, plan);
    }
  }

  /** A candidate's rank decides how it compares, itself included. */
  lemma Ranks(g: Graph, m: bool, from: StateId, id: StateId, depth: nat, cost: real, depth': nat, cost': real)
    requires HasRank(g, m, from, id, depth, cost)
    ensures NoBetter(g, m, from, id, depth, cost)
    ensures !Beats(depth, cost, depth', cost') ==> NoBetter(g, m, from, id, depth', cost')
  {
    hide IsDepth, IsCheapestPlan;
  }

  /** What beats a rank beats everything that does not. */
  lemma Outranked(g: Graph, m: bool, from: StateId, id: StateId, depth: nat, cost: real, depth': nat, cost': real)
    requires NoBetter(g, m, from, id, depth, cost) && Beats(depth', cost', depth, cost)
    ensures StrictlyWorse(g, m, from, id, depth', cost') && NoBetter(g, m, from, id, depth', cost')
  {
    hide IsDepth, IsCheapestPlan;
  }

  lemma BestFirst(g: Graph, m: bool, from: StateId, i: nat, depth: nat, plan: PathResult)
    requires i < |g.order| && forall j | 0 <= j < i :: !Candidate(g, m, from, g.order[j])
    requires Candidate(g, m, from, g.order[i]) && IsDepth(g, g.order[i], depth)
    requires IsPlan(g, m, from, g.order[i], plan)
    requires NonNegativeCosts(g) ==> IsCheapestPlan(g, m, from, g.order[i], plan)
    ensures Best(g, m, from, i + 1, i, depth, plan)
  {
    hide IsDepth, IsPlan, IsCheapestPlan, Candidate, NoBetter, StrictlyWorse, NonNegativeCosts, Beats;
    if NonNegativeCosts(g) {
      OnlyRank(g, m, from, g.order[i], depth, plan);
      Ranks(g, m, from, g.order[i], depth, plan.totalCost, depth, plan.totalCost);
    }
  }

  /**
   * The best terminal state reachable from `from`. `k`, `depth` and `plan` are the
   * evidence: its place in the node order, its depth and a cheapest plan for it.
   */
  method FindBestTarget(g: Graph, from: StateId, includeManual: bool)
      returns (best: Option<StateId>, ghost k: nat, ghost depth: nat, ghost plan: PathResult)
    requires WellFormed(g)
    ensures best.None? ==> forall id :: !Candidate(g, includeManual, from, id)
    ensures best.Some? ==>
              k < |g.order| && best.value == g.order[k] && Best(g, includeManual, from, |g.order|, k, depth, plan)
    ensures best.Some? ==>
              forall id, d: nat | Candidate(g, includeManual, from, id) && IsDepth(g, id, d) :: d <= depth
  {
    hide Candidate, Best, DeepestSoFar, IsPlan, IsCheapestPlan, IsDepth, PlanExists, NonNegativeCosts, WellFormed;
    best := None;
    var bestCost := 0.0;
    var bestDepth: nat := 0;
    k, depth, plan := 0, 0, PathResult([], 0.0, false);
    for i := 0 to |g.order|
      invariant best.None? ==> forall j | 0 <= j < i :: !Candidate(g, includeManual, from, g.order[j])
      invariant best.Some? ==>
                  && k < i && best.value == g.order[k] && Best(g, includeManual, from, i, k, depth, plan)
                  && bestDepth == depth && bestCost == plan.totalCost
                  && DeepestSoFar(g, includeManual, from, i, depth)
    {
      var id := g.order[i];
      InOrder(g, i);
      if !g.nodes[id].terminal {
        SkipNonCandidate(g, includeManual, from, i, k, depth, plan);
        continue;
      }
      var path := FindPath(g, from, id, includeManual);
      if path.None? {
        SkipNonCandidate(g, includeManual, from, i, k, depth, plan);
        continue;
      }
      var d := RefinementDepth(g, id);
      IsCandidate(g, includeManual, from, id);
      DeeperSoFar(g, includeManual, from, i, d, depth);
      if best.None? {
        BestFirst(g, includeManual, from, i, d, path.value);
      } else {
        BestReplaced(g, includeManual, from, i, k, depth, plan, d, path.value);
      }
      if best.None? || d > bestDepth || (d == bestDepth && path.value.totalCost < bestCost) {
        best, bestCost, bestDepth := Some(id), path.value.totalCost, d;
        k, depth, plan := i, d, path.value;
      }
    }
    AllListed(g, includeManual, from, depth);
  }

  ghost predicate DeepestSoFar(g: Graph, m: bool, from: StateId, i: nat, depth: nat)
    requires i <= |g.order|
  {
    forall j, d: nat | 0 <= j < i && Candidate(g, m, from, g.order[j]) && IsDepth(g, g.order[j], d) :: d <= depth
  }

  lemma DeeperSoFar(g: Graph, m: bool, from: StateId, i: nat, d: nat, depth: nat)
    requires i < |g.order| && IsDepth(g, g.order[i], d)
    ensures DeepestSoFar(g, m, from, i, depth) && d >= depth ==> DeepestSoFar(g, m, from, i + 1, d)
    ensures DeepestSoFar(g, m, from, i, depth) && d <= depth ==> DeepestSoFar(g, m, from, i + 1, depth)
    ensures (forall j | 0 <= j < i :: !Candidate(g, m, from, g.order[j])) ==> DeepestSoFar(g, m, from, i + 1, d)
  {
    forall d' | IsDepth(g, g.order[i], d') ensures d' == d {
      DepthUnique(g, g.order[i], d, d');
    }
  }

  lemma IsCandidate(g: Graph, m: bool, from: StateId, id: StateId)
    requires id in g.nodes && g.nodes[id].terminal && PlanExists(g, m, from, id)
    ensures Candidate(g, m, from, id)
  {
  }

  lemma SkipNonCandidate(g: Graph, m: bool, from: StateId, i: nat, k: nat, depth: nat, plan: PathResult)
    requires i < |g.order| && g.order[i] in g.nodes
    requires !g.nodes[g.order[i]].terminal || !PlanExists(g, m, from, g.order[i])
    ensures !Candidate(g, m, from, g.order[i])
    ensures k < i && Best(g, m, from, i, k, depth, plan) ==> Best(g, m, from, i + 1, k, depth, plan)
    ensures DeepestSoFar(g, m, from, i, depth) ==> DeepestSoFar(g, m, from, i + 1, depth)
  {
  }

  lemma AllListed(g: Graph, m: bool, from: StateId, depth: nat)
    requires WellFormed(g)
    ensures (forall j | 0 <= j < |g.order| :: !Candidate(g, m, from, g.order[j]))
            ==> forall id :: !Candidate(g, m, from, id)
    ensures DeepestSoFar(g, m, from, |g.order|, depth)
            ==> forall id, d: nat | Candidate(g, m, from, id) && IsDepth(g, id, d) :: d <= depth
  {
    hide PlanExists, IsDepth;
    forall id | Candidate(g, m, from, id) && forall j | 0 <= j < |g.order| :: !Candidate(g, m, from, g.order[j])
      ensures false
    {
      Listed(g, id);
    }
    forall id, d: nat | Candidate(g, m, from, id) && IsDepth(g, id, d) && DeepestSoFar(g, m, from, |g.order|, depth)
      ensures d <= depth
    {
      Listed(g, id);
    }
  }

  lemma InOrder(g: Graph, i: nat)
    requires WellFormed(g) && i < |g.order|
    ensures g.order[i] in g.nodes
  {
  }

  lemma Listed(g: Graph, id: StateId)
    requires WellFormed(g) && id in g.nodes
    ensures exists j :: 0 <= j < |g.order| && g.order[j] == id
  {
    assert id in g.order;
  }
}
