/**
 * Merging graph layers. Nodes and edges of later layers override earlier ones;
 * edges are keyed by the concatenation "from->to".
 */
module Composition {
  import opened Wrappers
  import opened LifecycleGraph

  datatype ComposeError =
    | DanglingRefinement(id: StateId, parent: StateId)
    | UnknownSource(edge: StateEdge)
    | UnknownTarget(edge: StateEdge)

  function EdgeKey(from: StateId, to: StateId): string {
    from + "->" + to
  }

  predicate ArrowFree(id: StateId) {
    forall i | 0 <= i < |id| - 1 :: !(id[i] == '-' && id[i + 1] == '>')
  }

  /** Ids without "->" cannot collide: the key determines the pair. */
  lemma KeyDeterminesPair(from: StateId, to: StateId, from': StateId, to': StateId)
    requires ArrowFree(from) && ArrowFree(from')
    requires EdgeKey(from, to) == EdgeKey(from', to')
    ensures from == from' && to == to'
  {
    if |from| < |from'| {
      ShorterPrefix(from, to, from', to');
    } else if |from'| < |from| {
      ShorterPrefix(from', to', from, to);
    } else {
      var k := EdgeKey(from, to);
      var k' := EdgeKey(from', to');
      assert from == k[..|from|] && from' == k'[..|from'|];
      assert to == k[|from| + 2..] && to' == k'[|from'| + 2..];
    }
  }

  lemma ShorterPrefix(from: StateId, to: StateId, from': StateId, to': StateId)
    requires |from| < |from'| && EdgeKey(from, to) == EdgeKey(from', to')
    ensures !ArrowFree(from')
  {
    var n := |from|;
    var k := EdgeKey(from, to);
    var k' := EdgeKey(from', to');
    assert k'[n] == from'[n];
    assert k'[n + 1] == if n + 1 < |from'| then from'[n + 1] else '-';
    assert k[n] == '-' && k[n + 1] == '>';
  }

  /** With an arrow inside an id, two different transitions share a key. */
  lemma KeysCollide()
    ensures EdgeKey("a->b", "c") == EdgeKey("a", "b->c")
  {
    assert EdgeKey("a->b", "c") == "a->b->c" == EdgeKey("a", "b->c");
  }

  // -- What composition computes -----------------------------------------------------

  function AllNodes(layers: seq<Layer>): seq<StateNode> {
    if layers == [] then [] else AllNodes(layers[..|layers| - 1]) + layers[|layers| - 1].nodes
  }

  function AllEdges(layers: seq<Layer>): seq<StateEdge> {
    if layers == [] then [] else AllEdges(layers[..|layers| - 1]) + layers[|layers| - 1].edges
  }

  /** Keys in the order they were first set. */
  function FirstSet<T(==)>(keys: seq<T>): seq<T> {
    if keys == [] then []
    else
      var before := FirstSet(keys[..|keys| - 1]);
      var last := keys[|keys| - 1];
      if last in before then before else before + [last]
  }

  function Ids(ns: seq<StateNode>): seq<StateId> {
    seq(|ns|, i requires 0 <= i < |ns| => ns[i].id)
  }

  function Keys(es: seq<StateEdge>): seq<string> {
    seq(|es|, i requires 0 <= i < |es| => EdgeKey(es[i].from, es[i].to))
  }

  /** The last definition of a state, if there is one. */
  function LastNode(ns: seq<StateNode>, id: StateId): Option<StateNode> {
    if ns == [] then None
    else if ns[|ns| - 1].id == id then Some(ns[|ns| - 1])
    else LastNode(ns[..|ns| - 1], id)
  }

  /** The last edge filed under a key, if there is one. */
  function LastEdge(es: seq<StateEdge>, key: string): Option<StateEdge> {
    if es == [] then None
    else if EdgeKey(es[|es| - 1].from, es[|es| - 1].to) == key then Some(es[|es| - 1])
    else LastEdge(es[..|es| - 1], key)
  }

  lemma {:induction false} FirstSetKeeps<T>(keys: seq<T>)
    ensures Distinct(FirstSet(keys))
    ensures forall k :: k in FirstSet(keys) <==> k in keys
  {
    if keys != [] {
      var n := |keys| - 1;
      FirstSetKeeps(keys[..n]);
      forall k ensures k in FirstSet(keys) <==> k in keys {
        assert keys == keys[..n] + [keys[n]];
      }
    }
  }

  lemma {:induction false} LastEdgeFound(es: seq<StateEdge>, key: string)
    ensures LastEdge(es, key).Some? <==> key in Keys(es)
    ensures LastEdge(es, key).Some? ==>
              var e := LastEdge(es, key).value; e in es && EdgeKey(e.from, e.to) == key
  {
    if es != [] {
      var n := |es| - 1;
      LastEdgeFound(es[..n], key);
      assert Keys(es) == Keys(es[..n]) + [EdgeKey(es[n].from, es[n].to)];
    }
  }

  lemma {:induction false} LastNodeFound(ns: seq<StateNode>, id: StateId)
    ensures LastNode(ns, id).Some? <==> id in Ids(ns)
    ensures LastNode(ns, id).Some? ==> LastNode(ns, id).value in ns && LastNode(ns, id).value.id == id
  {
    if ns != [] {
      var n := |ns| - 1;
      LastNodeFound(ns[..n], id);
      assert Ids(ns) == Ids(ns[..n]) + [ns[n].id];
    }
  }

  /** The node map after setting every node of `ns` in turn. */
  ghost predicate NodesAre(ns: seq<StateNode>, nodes: map<StateId, StateNode>, order: seq<StateId>) {
    && order == FirstSet(Ids(ns))
    && (forall id :: id in nodes <==> id in Ids(ns))
    && (forall id | id in nodes :: LastNode(ns, id) == Some(nodes[id]))
  }

  lemma NodeSet(ns: seq<StateNode>, nodes: map<StateId, StateNode>, order: seq<StateId>, node: StateNode)
    requires NodesAre(ns, nodes, order)
    ensures NodesAre(ns + [node], nodes[node.id := node], if node.id in order then order else order + [node.id])
  {
    FirstSetKeeps(Ids(ns));
    FirstSetAppend(Ids(ns), node.id);
    assert Ids(ns + [node]) == Ids(ns) + [node.id];
    hide FirstSet, LastNode, Ids;
    forall id ensures LastNode(ns + [node], id) == if id == node.id then Some(node) else LastNode(ns, id) {
      LastNodeAppend(ns, node, id);
    }
  }

  lemma FirstSetAppend<T>(keys: seq<T>, key: T)
    ensures FirstSet(keys + [key]) == if key in FirstSet(keys) then FirstSet(keys) else FirstSet(keys) + [key]
  {
    assert (keys + [key])[..|keys|] == keys;
  }

  lemma LastNodeAppend(ns: seq<StateNode>, node: StateNode, id: StateId)
    ensures LastNode(ns + [node], id) == if id == node.id then Some(node) else LastNode(ns, id)
  {
    assert (ns + [node])[..|ns|] == ns;
  }

  ghost predicate EdgesAre(es: seq<StateEdge>, edgeMap: map<string, StateEdge>, order: seq<string>) {
    && order == FirstSet(Keys(es))
    && (forall k :: k in edgeMap <==> k in Keys(es))
    && (forall k | k in edgeMap :: LastEdge(es, k) == Some(edgeMap[k]))
  }

  lemma EdgeSet(es: seq<StateEdge>, edgeMap: map<string, StateEdge>, order: seq<string>, e: StateEdge)
    requires EdgesAre(es, edgeMap, order)
    ensures var key := EdgeKey(e.from, e.to);
            EdgesAre(es + [e], edgeMap[key := e], if key in order then order else order + [key])
  {
    var key := EdgeKey(e.from, e.to);
    FirstSetKeeps(Keys(es));
    FirstSetAppend(Keys(es), key);
    assert Keys(es + [e]) == Keys(es) + [key];
    hide FirstSet, LastEdge, Keys, EdgeKey;
    forall k ensures LastEdge(es + [e], k) == if k == key then Some(e) else LastEdge(es, k) {
      LastEdgeAppend(es, e, k);
    }
  }

  lemma LastEdgeAppend(es: seq<StateEdge>, e: StateEdge, key: string)
    ensures LastEdge(es + [e], key) == if key == EdgeKey(e.from, e.to) then Some(e) else LastEdge(es, key)
  {
    assert (es + [e])[..|es|] == es;
  }

  /** The surviving edges out of `id`, in key order. */
  function EdgesOut(edgeMap: map<string, StateEdge>, order: seq<string>, id: StateId): seq<StateEdge>
    requires forall k | k in order :: k in edgeMap
  {
    if order == [] then []
    else
      var n := |order| - 1;
      var before := EdgesOut(edgeMap, order[..n], id);
      if edgeMap[order[n]].from == id then before + [edgeMap[order[n]]] else before
  }

  lemma {:induction false} EdgesOutExactly(edgeMap: map<string, StateEdge>, order: seq<string>, id: StateId)
    requires forall k | k in order :: k in edgeMap
    ensures forall e :: e in EdgesOut(edgeMap, order, id)
                        <==> e.from == id && exists k :: k in order && edgeMap[k] == e
  {
    if order != [] {
      var n := |order| - 1;
      EdgesOutExactly(edgeMap, order[..n], id);
      forall e ensures e in EdgesOut(edgeMap, order, id) <==> e.from == id && exists k :: k in order && edgeMap[k] == e {
        if e.from == id && exists k :: k in order && edgeMap[k] == e {
          var k :| k in order && edgeMap[k] == e;
          if k != order[n] {
            assert k in order[..n];
          }
        }
        if e in EdgesOut(edgeMap, order[..n], id) {
          var k :| k in order[..n] && edgeMap[k] == e;
          assert k in order;
        }
      }
    }
  }

  /** The promise of composition, in terms of the layers alone. */
  ghost predicate Composed(layers: seq<Layer>, g: Graph) {
    && WellFormed(g)
    && g.order == FirstSet(Ids(AllNodes(layers)))
    && (forall id :: (if id in g.nodes then Some(g.nodes[id]) else None) == LastNode(AllNodes(layers), id))
    && (forall e: StateEdge :: (e.from in g.adjacency && e in g.adjacency[e.from])
                    <==> LastEdge(AllEdges(layers), EdgeKey(e.from, e.to)) == Some(e))
  }

  ghost predicate Dangling(layers: seq<Layer>, n: StateNode) {
    && LastNode(AllNodes(layers), n.id) == Some(n)
    && n.parent.Some?
    && LastNode(AllNodes(layers), n.parent.value).None?
  }

  ghost predicate Unattached(layers: seq<Layer>, e: StateEdge) {
    && LastEdge(AllEdges(layers), EdgeKey(e.from, e.to)) == Some(e)
    && (LastNode(AllNodes(layers), e.from).None? || LastNode(AllNodes(layers), e.to).None?)
  }

  /** Some layer defines a state twice. */
  predicate DuplicateIds(layers: seq<Layer>) {
    exists i :: 0 <= i < |layers| && !Distinct(Ids(layers[i].nodes))
  }

  /** Add the nodes of every layer, in order. */
  method CollectNodes(layers: seq<Layer>) returns (nodes: map<StateId, StateNode>, order: seq<StateId>)
    ensures NodesAre(AllNodes(layers), nodes, order)
  {
    hide NodesAre;
    nodes, order := map[], [];
    ghost var added: seq<StateNode> := [];
    assert NodesAre([], map[], []) by { NoneSet(); }
    for i := 0 to |layers|
      invariant added == AllNodes(layers[..i])
      invariant NodesAre(added, nodes, order)
    {
      var layer := layers[i];
      ghost var before := added;
      for j := 0 to |layer.nodes|
        invariant added == before + layer.nodes[..j]
        invariant NodesAre(added, nodes, order)
      {
        var node := layer.nodes[j];
        NodeSet(added, nodes, order, node);
        order := if node.id in order then order else order + [node.id];
        nodes := nodes[node.id := node];
        added := added + [node];
        assert layer.nodes[..j + 1] == layer.nodes[..j] + [node];
      }
      assert layer.nodes[..|layer.nodes|] == layer.nodes;
      assert layers[..i + 1][..i] == layers[..i];
    }
    assert layers[..|layers|] == layers;
  }

  /** Add the edges of every layer; a later edge with the same key replaces the earlier one. */
  method CollectEdges(layers: seq<Layer>) returns (edgeMap: map<string, StateEdge>, order: seq<string>)
    ensures EdgesAre(AllEdges(layers), edgeMap, order)
  {
    hide EdgesAre;
    edgeMap, order := map[], [];
    ghost var added: seq<StateEdge> := [];
    assert EdgesAre([], map[], []) by { NoneSet(); }
    for i := 0 to |layers|
      invariant added == AllEdges(layers[..i])
      invariant EdgesAre(added, edgeMap, order)
    {
      var layer := layers[i];
      ghost var before := added;
      for j := 0 to |layer.edges|
        invariant added == before + layer.edges[..j]
        invariant EdgesAre(added, edgeMap, order)
      {
        var edge := layer.edges[j];
        var key := EdgeKey(edge.from, edge.to);
        EdgeSet(added, edgeMap, order, edge);
        order := if key in order then order else order + [key];
        edgeMap := edgeMap[key := edge];
        added := added + [edge];
        assert layer.edges[..j + 1] == layer.edges[..j] + [edge];
      }
      assert layer.edges[..|layer.edges|] == layer.edges;
      assert layers[..i + 1][..i] == layers[..i];
    }
    assert layers[..|layers|] == layers;
  }

  lemma NoneSet()
    ensures NodesAre([], map[], []) && EdgesAre([], map[], [])
  {
    assert Ids([]) == [] && Keys([]) == [];
  }

  /** File every edge under its source state. */
  method BuildAdjacency(nodes: map<StateId, StateNode>, nodeOrder: seq<StateId>, edgeMap: map<string, StateEdge>,
                        order: seq<string>) returns (adjacency: map<StateId, seq<StateEdge>>)
    requires forall k :: k in order <==> k in edgeMap
    requires forall id :: id in nodeOrder <==> id in nodes
    requires forall k | k in edgeMap :: edgeMap[k].from in nodes
    ensures adjacency.Keys == nodes.Keys
    ensures forall id | id in adjacency :: adjacency[id] == EdgesOut(edgeMap, order, id)
  {
    adjacency := map id | id in nodes :: [];
    for i := 0 to |order|
      invariant adjacency.Keys == nodes.Keys
      invariant forall id | id in adjacency :: adjacency[id] == EdgesOut(edgeMap, order[..i], id)
    {
      var edge := edgeMap[order[i]];
      assert order[..i + 1][..i] == order[..i];
      adjacency := adjacency[edge.from := adjacency[edge.from] + [edge]];
    }
    assert order[..|order|] == order;
  }

  /** Merge the layers into one graph, or report the first inconsistency. */
  method Compose(layers: seq<Layer>) returns (r: Result<Graph, ComposeError>)
    ensures r.Ok? <==> (forall n :: !Dangling(layers, n)) && (forall e :: !Unattached(layers, e))
    ensures r.Ok? ==> Composed(layers, r.value)
    ensures r.Err? && r.error.DanglingRefinement? ==>
              exists n :: Dangling(layers, n) && n.id == r.error.id && n.parent == Some(r.error.parent)
    ensures r.Err? && !r.error.DanglingRefinement? ==>
              && (forall n :: !Dangling(layers, n))
              && Unattached(layers, r.error.edge)
              && (r.error.UnknownSource? <==> LastNode(AllNodes(layers), r.error.edge.from).None?)
  {
    hide LastNode, LastEdge, AllNodes, AllEdges, FirstSet, EdgeKey, WellFormed, Composed;
    var nodes, nodeOrder := CollectNodes(layers);
    var edgeMap, edgeOrder := CollectEdges(layers);
    InOrderIffSet(AllNodes(layers), nodes, nodeOrder, AllEdges(layers), edgeMap, edgeOrder);

    for i := 0 to |nodeOrder|
      invariant forall j | 0 <= j < i :: NodeFine(nodes, nodeOrder[j])
    {
      var id := nodeOrder[i];
      var node := nodes[id];
      if node.parent.Some? && node.parent.value !in nodes {
        LastNodeFound(AllNodes(layers), id);
        LastNodeFound(AllNodes(layers), node.parent.value);
        assert Dangling(layers, node);
        return Err(DanglingRefinement(id, node.parent.value));
      }
    }
    NoneDangling(layers, nodes, nodeOrder);

    for i := 0 to |edgeOrder|
      invariant forall j | 0 <= j < i :: EdgeFine(nodes, edgeMap, edgeOrder[j])
    {
      var edge := edgeMap[edgeOrder[i]];
      LastEdgeFound(AllEdges(layers), edgeOrder[i]);
      LastNodeFound(AllNodes(layers), edge.from);
      LastNodeFound(AllNodes(layers), edge.to);
      assert edge.from !in nodes || edge.to !in nodes ==> Unattached(layers, edge);
      if edge.from !in nodes {
        return Err(UnknownSource(edge));
      }
      if edge.to !in nodes {
        return Err(UnknownTarget(edge));
      }
    }
    NoneUnattached(layers, nodes, nodeOrder, edgeMap, edgeOrder);

    var adjacency := BuildAdjacency(nodes, nodeOrder, edgeMap, edgeOrder);
    r := Ok(Graph(nodeOrder, nodes, adjacency));
    IsComposed(layers, edgeMap, edgeOrder, r.value);
  }

  ghost predicate NodeFine(nodes: map<StateId, StateNode>, id: StateId) {
    id in nodes && (nodes[id].parent.Some? ==> nodes[id].parent.value in nodes)
  }

  ghost predicate EdgeFine(nodes: map<StateId, StateNode>, edgeMap: map<string, StateEdge>, key: string) {
    key in edgeMap && edgeMap[key].from in nodes && edgeMap[key].to in nodes
  }

  lemma InOrderIffSet(ns: seq<StateNode>, nodes: map<StateId, StateNode>, nodeOrder: seq<StateId>,
                      es: seq<StateEdge>, edgeMap: map<string, StateEdge>, edgeOrder: seq<string>)
    requires NodesAre(ns, nodes, nodeOrder) && EdgesAre(es, edgeMap, edgeOrder)
    ensures Distinct(nodeOrder) && forall id :: id in nodeOrder <==> id in nodes
    ensures Distinct(edgeOrder) && forall k :: k in edgeOrder <==> k in edgeMap
  {
    FirstSetKeeps(Ids(ns));
    FirstSetKeeps(Keys(es));
  }

  lemma NoneDangling(layers: seq<Layer>, nodes: map<StateId, StateNode>, order: seq<StateId>)
    requires NodesAre(AllNodes(layers), nodes, order)
    requires forall id :: id in order <==> id in nodes
    requires forall j | 0 <= j < |order| :: NodeFine(nodes, order[j])
    ensures forall n :: !Dangling(layers, n)
    ensures forall id {:trigger NodeFine(nodes, id)} | id in nodes :: NodeFine(nodes, id)
  {
    forall id | id in nodes ensures NodeFine(nodes, id) {
      assert id in order;
    }
    forall n ensures !Dangling(layers, n) {
      LastNodeFound(AllNodes(layers), n.id);
      if n.parent.Some? {
        LastNodeFound(AllNodes(layers), n.parent.value);
      }
      if n.id in nodes {
        assert NodeFine(nodes, n.id);
      }
    }
  }

  lemma NoneUnattached(layers: seq<Layer>, nodes: map<StateId, StateNode>, order: seq<StateId>,
                       edgeMap: map<string, StateEdge>, edgeOrder: seq<string>)
    requires NodesAre(AllNodes(layers), nodes, order) && EdgesAre(AllEdges(layers), edgeMap, edgeOrder)
    requires forall k :: k in edgeOrder <==> k in edgeMap
    requires forall j | 0 <= j < |edgeOrder| :: EdgeFine(nodes, edgeMap, edgeOrder[j])
    ensures forall e :: !Unattached(layers, e)
    ensures forall k | k in edgeMap :: EdgeFine(nodes, edgeMap, k)
  {
    forall k | k in edgeMap ensures EdgeFine(nodes, edgeMap, k) {
      assert k in edgeOrder;
    }
    forall e ensures !Unattached(layers, e) {
      var key := EdgeKey(e.from, e.to);
      LastEdgeFound(AllEdges(layers), key);
      LastNodeFound(AllNodes(layers), e.from);
      LastNodeFound(AllNodes(layers), e.to);
      if key in edgeMap {
        assert EdgeFine(nodes, edgeMap, key);
      }
    }
  }

  lemma IsComposed(layers: seq<Layer>, edgeMap: map<string, StateEdge>, edgeOrder: seq<string>, g: Graph)
    requires NodesAre(AllNodes(layers), g.nodes, g.order) && EdgesAre(AllEdges(layers), edgeMap, edgeOrder)
    requires Distinct(g.order) && forall id :: id in g.order <==> id in g.nodes
    requires forall k :: k in edgeOrder <==> k in edgeMap
    requires forall id {:trigger NodeFine(g.nodes, id)} | id in g.nodes :: NodeFine(g.nodes, id)
    requires forall k | k in edgeMap :: EdgeFine(g.nodes, edgeMap, k)
    requires g.adjacency.Keys == g.nodes.Keys
    requires forall id | id in g.adjacency :: g.adjacency[id] == EdgesOut(edgeMap, edgeOrder, id)
    ensures Composed(layers, g)
  {
    hide WellFormed, NodeFine, EdgeFine, EdgesAre, EdgesOut, LastNode, LastEdge;
    forall id ensures (if id in g.nodes then Some(g.nodes[id]) else None) == LastNode(AllNodes(layers), id) {
      LastNodeFound(AllNodes(layers), id);
    }
    forall e: StateEdge ensures (e.from in g.adjacency && e in g.adjacency[e.from])
                     <==> LastEdge(AllEdges(layers), EdgeKey(e.from, e.to)) == Some(e)
    {
      AdjacentIffLast(layers, edgeMap, edgeOrder, g, e);
    }
    ComposedIsWellFormed(layers, edgeMap, edgeOrder, g);
  }

  lemma ComposedIsWellFormed(layers: seq<Layer>, edgeMap: map<string, StateEdge>, edgeOrder: seq<string>, g: Graph)
    requires NodesAre(AllNodes(layers), g.nodes, g.order)
    requires Distinct(g.order) && forall id :: id in g.order <==> id in g.nodes
    requires forall k :: k in edgeOrder <==> k in edgeMap
    requires forall id {:trigger NodeFine(g.nodes, id)} | id in g.nodes :: NodeFine(g.nodes, id)
    requires forall k | k in edgeMap :: EdgeFine(g.nodes, edgeMap, k)
    requires g.adjacency.Keys == g.nodes.Keys
    requires forall id | id in g.adjacency :: g.adjacency[id] == EdgesOut(edgeMap, edgeOrder, id)
    ensures WellFormed(g)
  {
    hide EdgeFine, EdgesOut, LastNode, AllNodes;
    forall id, e | id in g.adjacency && e in g.adjacency[id] ensures e.from == id && e.to in g.nodes {
      AdjacentEdgeFine(g.nodes, edgeMap, edgeOrder, id, e);
    }
    forall id | id in g.nodes
      ensures g.nodes[id].id == id && (g.nodes[id].parent.Some? ==> g.nodes[id].parent.value in g.nodes)
    {
      LastNodeFound(AllNodes(layers), id);
      assert NodeFine(g.nodes, id);
    }
  }

  lemma AdjacentEdgeFine(nodes: map<StateId, StateNode>, edgeMap: map<string, StateEdge>, edgeOrder: seq<string>,
                         id: StateId, e: StateEdge)
    requires forall k :: k in edgeOrder <==> k in edgeMap
    requires forall k | k in edgeMap :: EdgeFine(nodes, edgeMap, k)
    requires e in EdgesOut(edgeMap, edgeOrder, id)
    ensures e.from == id && e.to in nodes
  {
    EdgesOutExactly(edgeMap, edgeOrder, id);
    var k :| k in edgeOrder && edgeMap[k] == e;
    assert EdgeFine(nodes, edgeMap, k);
  }

  lemma AdjacentIffLast(layers: seq<Layer>, edgeMap: map<string, StateEdge>, edgeOrder: seq<string>, g: Graph,
                        e: StateEdge)
    requires EdgesAre(AllEdges(layers), edgeMap, edgeOrder)
    requires forall k :: k in edgeOrder <==> k in edgeMap
    requires forall k | k in edgeMap :: EdgeFine(g.nodes, edgeMap, k)
    requires g.adjacency.Keys == g.nodes.Keys
    requires forall id | id in g.adjacency :: g.adjacency[id] == EdgesOut(edgeMap, edgeOrder, id)
    ensures (e.from in g.adjacency && e in g.adjacency[e.from])
            <==> LastEdge(AllEdges(layers), EdgeKey(e.from, e.to)) == Some(e)
  {
    var key := EdgeKey(e.from, e.to);
    LastEdgeFound(AllEdges(layers), key);
    EdgesOutExactly(edgeMap, edgeOrder, e.from);
    if e.from in g.adjacency && e in g.adjacency[e.from] {
      var k :| k in edgeOrder && edgeMap[k] == e;
      LastEdgeFound(AllEdges(layers), k);
      assert k == key;
    }
    if LastEdge(AllEdges(layers), key) == Some(e) {
      assert key in edgeMap && edgeMap[key] == e && EdgeFine(g.nodes, edgeMap, key);
    }
  }

  lemma {:induction false} LastIsLast(es: seq<StateEdge>, key: string, i: nat)
    requires i < |es| && EdgeKey(es[i].from, es[i].to) == key
    requires forall j | i < j < |es| :: EdgeKey(es[j].from, es[j].to) != key
    ensures LastEdge(es, key) == Some(es[i])
  {
    if i < |es| - 1 {
      LastIsLast(es[..|es| - 1], key, i);
    }
  }

  // -- Where the promise holds ---------------------------------------------------------

  predicate SamePair(e: StateEdge, f: StateEdge) {
    e.from == f.from && e.to == f.to
  }

  predicate IsLastOfPair(es: seq<StateEdge>, i: nat) {
    i < |es| && forall j | i < j < |es| :: !SamePair(es[j], es[i])
  }

  function KeyOf(e: StateEdge): string {
    EdgeKey(e.from, e.to)
  }

  predicate KeysAreInjective(es: seq<StateEdge>) {
    forall i, j | 0 <= i < j < |es| && KeyOf(es[i]) == KeyOf(es[j]) :: SamePair(es[i], es[j])
  }

  ghost predicate InGraph(g: Graph, e: StateEdge) {
    e.from in g.adjacency && e in g.adjacency[e.from]
  }

  lemma {:induction false} LastOfPair(es: seq<StateEdge>, i: nat) returns (k: nat)
    requires i < |es|
    ensures i <= k && IsLastOfPair(es, k) && SamePair(es[k], es[i])
    decreases |es| - i
  {
    if j :| i < j < |es| && SamePair(es[j], es[i]) {
      k := LastOfPair(es, j);
    } else {
      k := i;
    }
  }

  /** Every pair of states keeps the transition defined for it last exactly when no two pairs share a key. */
  lemma LaterLayersOverrideExactly(layers: seq<Layer>, g: Graph)
    requires Composed(layers, g)
    ensures var es := AllEdges(layers);
            (forall i: nat | IsLastOfPair(es, i) :: InGraph(g, es[i])) <==> KeysAreInjective(es)
  {
    var es := AllEdges(layers);
    if KeysAreInjective(es) {
      forall i: nat | IsLastOfPair(es, i) ensures InGraph(g, es[i]) {
        assert forall j | i < j < |es| :: KeyOf(es[j]) != KeyOf(es[i]);
        LastIsLast(es, KeyOf(es[i]), i);
      }
    } else {
      var i, j :| 0 <= i < j < |es| && KeyOf(es[i]) == KeyOf(es[j]) && !SamePair(es[i], es[j]);
      var k := LastOfPair(es, i);
      var l := LastOfPair(es, j);
      assert KeyOf(es[k]) == KeyOf(es[l]) && !SamePair(es[k], es[l]);
      assert InGraph(g, es[k]) ==> LastEdge(es, KeyOf(es[k])) == Some(es[k]);
      assert InGraph(g, es[l]) ==> LastEdge(es, KeyOf(es[l])) == Some(es[l]);
    }
  }

  /** Ids without an arrow suffice. */
  lemma ArrowFreeIsEnough(es: seq<StateEdge>)
    requires forall e | e in es :: ArrowFree(e.from)
    ensures KeysAreInjective(es)
  {
    forall i, j | 0 <= i < j < |es| && KeyOf(es[i]) == KeyOf(es[j]) ensures SamePair(es[i], es[j]) {
      KeyDeterminesPair(es[i].from, es[i].to, es[j].from, es[j].to);
    }
  }

  /**
   * Then each ordered pair of states has at most one transition in the composed graph:
   * the one defined last, in the most specific layer.
   */
  lemma OneEdgePerPair(layers: seq<Layer>, g: Graph, i: nat, e: StateEdge)
    requires Composed(layers, g) && KeysAreInjective(AllEdges(layers))
    requires IsLastOfPair(AllEdges(layers), i) && SamePair(e, AllEdges(layers)[i])
    ensures InGraph(g, e) <==> e == AllEdges(layers)[i]
  {
    LaterLayersOverrideExactly(layers, g);
    assert InGraph(g, AllEdges(layers)[i]);
  }

  function ArrowLayer(): Layer {
    Layer([Plain("a->b"), Plain("c"), Plain("a"), Plain("b->c")],
          [StateEdge("a->b", "c", "", 1.0, false), StateEdge("a", "b->c", "", 1.0, false)])
  }

  lemma ArrowLayerIsFine()
    ensures forall n :: !Dangling([ArrowLayer()], n)
    ensures forall e :: !Unattached([ArrowLayer()], e)
  {
    var layer := ArrowLayer();
    var ids := Ids(layer.nodes);
    assert ids[0] == "a->b" && ids[1] == "c" && ids[2] == "a" && ids[3] == "b->c";
    Attached(layer);
  }

  /** With an arrow inside an id, a transition between two other states replaces this one. */
  lemma ArrowLosesTransition(g: Graph)
    requires Composed([ArrowLayer()], g)
    ensures !InGraph(g, ArrowLayer().edges[0]) && InGraph(g, ArrowLayer().edges[1])
  {
    var layer := ArrowLayer();
    OneLayer(layer);
    KeysCollide();
    LastIsLast(layer.edges, KeyOf(layer.edges[1]), 1);
    assert layer.edges[0] != layer.edges[1];
    hide LastEdge, WellFormed, LastNode, Ids, AllNodes, AllEdges, EdgeKey, FirstSet;
  }

  /** ... and composition reports nothing. */
  method ComposeArrows() returns (g: Graph)
    ensures Composed([ArrowLayer()], g) && !InGraph(g, StateEdge("a->b", "c", "", 1.0, false))
  {
    ArrowLayerIsFine();
    var r := Compose([ArrowLayer()]);
    g := r.value;
    ArrowLosesTransition(g);
    hide Composed, Dangling, Unattached;
  }

  /** The two reasons composition has for reporting an error. */
  ghost predicate Refused(layers: seq<Layer>) {
    (exists n :: Dangling(layers, n)) || exists e :: Unattached(layers, e)
  }

  /** Whether composition reports an error, and what it files under an id, is a matter of the last definitions alone. */
  lemma RefusedByLast(layers: seq<Layer>, layers': seq<Layer>)
    requires forall id :: LastNode(AllNodes(layers'), id) == LastNode(AllNodes(layers), id)
    requires AllEdges(layers') == AllEdges(layers)
    ensures Refused(layers') <==> Refused(layers)
  {
    hide LastNode, AllNodes, AllEdges, LastEdge, EdgeKey;
    forall n ensures Dangling(layers', n) <==> Dangling(layers, n) {
    }
    forall e ensures Unattached(layers', e) <==> Unattached(layers, e) {
    }
  }

  lemma {:induction false} LastNodeConcat(a: seq<StateNode>, b: seq<StateNode>, id: StateId)
    ensures LastNode(a + b, id) == if LastNode(b, id).Some? then LastNode(b, id) else LastNode(a, id)
  {
    if b == [] {
      assert a + b == a;
    } else {
      var n := |b| - 1;
      LastNodeConcat(a, b[..n], id);
      assert a + b == a + b[..n] + [b[n]];
      LastNodeAppend(a + b[..n], b[n], id);
    }
  }

  lemma {:induction false} AllConcat(a: seq<Layer>, b: seq<Layer>)
    ensures AllNodes(a + b) == AllNodes(a) + AllNodes(b) && AllEdges(a + b) == AllEdges(a) + AllEdges(b)
  {
    if b == [] {
      assert a + b == a;
    } else {
      assert (a + b)[..|a + b| - 1] == a + b[..|b| - 1];
      AllConcat(a, b[..|b| - 1]);
    }
  }

  function WithoutNode(layer: Layer, i: nat): Layer
    requires i < |layer.nodes|
  {
    layer.(nodes := layer.nodes[..i] + layer.nodes[i + 1..])
  }

  /** A definition repeated later in its own layer might as well not be there. */
  lemma EarlierIgnored(ns: seq<StateNode>, i: nat, j: nat, id: StateId)
    requires i < j < |ns| && ns[i].id == ns[j].id
    ensures LastNode(ns[..i] + ns[i + 1..], id) == LastNode(ns, id)
  {
    hide LastNode, Ids;
    var a, x, b := ns[..i], ns[i], ns[i + 1..];
    assert ns == a + ([x] + b);
    assert b[j - i - 1] == ns[j];
    LastNodeConcat(a, b, id);
    LastNodeConcat(a, [x] + b, id);
    LastNodeConcat([x], b, id);
    LastNodeOfOne(x, id);
    DefinedIn(b, j - i - 1);
  }

  lemma LastNodeOfOne(x: StateNode, id: StateId)
    ensures LastNode([x], id) == if x.id == id then Some(x) else None
  {
    assert [x][..0] == [];
  }

  lemma DefinedIn(ns: seq<StateNode>, i: nat)
    requires i < |ns|
    ensures LastNode(ns, ns[i].id).Some?
  {
    LastNodeFound(ns, ns[i].id);
    assert Ids(ns)[i] == ns[i].id;
    hide LastNode;
  }

  /**
   * A state defined twice in one layer is never an error, whatever the other layers
   * are: leaving its earlier definition out changes neither whether composition is
   * refused nor what any state or transition is.
   */
  lemma DuplicatesAreInvisible(before: seq<Layer>, layer: Layer, after: seq<Layer>, i: nat, j: nat)
    requires i < j < |layer.nodes| && layer.nodes[i].id == layer.nodes[j].id
    ensures var layers, layers' := before + [layer] + after, before + [WithoutNode(layer, i)] + after;
            && (Refused(layers') <==> Refused(layers)) && AllEdges(layers') == AllEdges(layers)
            && forall id :: LastNode(AllNodes(layers'), id) == LastNode(AllNodes(layers), id)
  {
    var layer' := WithoutNode(layer, i);
    var layers, layers' := before + [layer] + after, before + [layer'] + after;
    NodesAround(before, layer, after);
    NodesAround(before, layer', after);
    forall id ensures LastNode(AllNodes(layers'), id) == LastNode(AllNodes(layers), id) {
      EarlierIgnored(layer.nodes, i, j, id);
      LastAround(AllNodes(before), layer.nodes, AllNodes(after), id);
      LastAround(AllNodes(before), layer'.nodes, AllNodes(after), id);
    }
    RefusedByLast(layers, layers');
  }

  lemma NodesAround(before: seq<Layer>, layer: Layer, after: seq<Layer>)
    ensures AllNodes(before + [layer] + after) == AllNodes(before) + layer.nodes + AllNodes(after)
    ensures AllEdges(before + [layer] + after) == AllEdges(before) + layer.edges + AllEdges(after)
  {
    AllConcat(before + [layer], after);
    AllConcat(before, [layer]);
    OneLayer(layer);
  }

  lemma LastAround(a: seq<StateNode>, b: seq<StateNode>, c: seq<StateNode>, id: StateId)
    ensures LastNode(a + b + c, id)
            == if LastNode(c, id).Some? then LastNode(c, id)
               else if LastNode(b, id).Some? then LastNode(b, id) else LastNode(a, id)
  {
    LastNodeConcat(a + b, c, id);
    LastNodeConcat(a, b, id);
  }

  /** A layer that defines a state twice is accepted, the last definition standing. */
  method DuplicateIsAccepted() returns (layer: Layer, g: Graph)
    ensures layer == Layer([Plain("a"), StateNode("a", None, true)], []) && DuplicateIds([layer])
    ensures Composed([layer], g) && g.order == ["a"] && g.nodes["a"] == StateNode("a", None, true)
  {
    layer := Layer([Plain("a"), StateNode("a", None, true)], []);
    assert Ids(layer.nodes)[0] == Ids(layer.nodes)[1];
    OneLayer(layer);
    Attached(layer);
    var r := Compose([layer]);
    g := r.value;
    assert Ids(layer.nodes) == ["a", "a"];
    assert ["a", "a"][..1] == ["a"] && ["a"][..0] == [];
    assert FirstSet(["a", "a"]) == FirstSet(["a"]) == ["a"];
    assert LastNode(layer.nodes, "a") == Some(layer.nodes[1]);
  }

  function Plain(id: StateId): StateNode {
    StateNode(id, None, false)
  }

  lemma OneLayer(layer: Layer)
    ensures AllNodes([layer]) == layer.nodes && AllEdges([layer]) == layer.edges
  {
    assert [layer][..0] == [];
    assert AllNodes([]) == [] && AllEdges([]) == [];
  }

  lemma Attached(layer: Layer)
    requires forall i | 0 <= i < |layer.nodes| :: layer.nodes[i].parent.None?
    requires forall i | 0 <= i < |layer.edges| ::
               layer.edges[i].from in Ids(layer.nodes) && layer.edges[i].to in Ids(layer.nodes)
    ensures forall n :: !Dangling([layer], n)
    ensures forall e :: !Unattached([layer], e)
  {
    OneLayer(layer);
    forall n ensures !Dangling([layer], n) {
      LastNodeFound(layer.nodes, n.id);
    }
    forall e ensures !Unattached([layer], e) {
      LastEdgeFound(layer.edges, EdgeKey(e.from, e.to));
      LastNodeFound(layer.nodes, e.from);
      LastNodeFound(layer.nodes, e.to);
    }
  }
}
