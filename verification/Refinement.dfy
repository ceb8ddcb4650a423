/**
 * The cycle-guarded walks along `refines` chains. They terminate on every graph,
 * including one whose chains are cyclic, and decide exactly whether a target lies
 * on the chain.
 */
module Refinement {
  import opened Wrappers
  import opened LifecycleGraph

  /** The states passed in the first `n` hops above `id`, as the walks record them. */
  ghost predicate SeenIs(g: Graph, id: StateId, n: nat, seen: set<StateId>) {
    && (forall i: nat | i < n :: Ancestor(g, id, i).Some? && Ancestor(g, id, i).value in seen)
    && (forall s | s in seen :: exists i: nat :: i < n && Ancestor(g, id, i) == Some(s))
  }

  /** A state no earlier hop passed makes the chain one longer without a repeat. */
  lemma StillDistinct(g: Graph, id: StateId, n: nat, seen: set<StateId>)
    requires forall i: nat | i < n :: Ancestor(g, id, i).Some? && Ancestor(g, id, i).value in seen
    requires Ancestor(g, id, n).Some? && Ancestor(g, id, n).value !in seen
    requires forall i: nat, j: nat | i < j < n :: Ancestor(g, id, i) != Ancestor(g, id, j)
    ensures forall i: nat, j: nat | i < j < n + 1 :: Ancestor(g, id, i) != Ancestor(g, id, j)
  {
    hide Ancestor;
  }

  lemma SeenGrows(g: Graph, id: StateId, n: nat, seen: set<StateId>, current: StateId)
    requires SeenIs(g, id, n, seen) && Ancestor(g, id, n) == Some(current)
    ensures SeenIs(g, id, n + 1, seen + {current})
  {
    hide Ancestor;
    forall i: nat | i < n + 1 ensures Ancestor(g, id, i).Some? && Ancestor(g, id, i).value in seen + {current} {
      if i == n {
        assert Ancestor(g, id, i) == Some(current);
      }
    }
    forall s | s in seen + {current} ensures exists i: nat :: i < n + 1 && Ancestor(g, id, i) == Some(s) {
      if s in seen {
        var i: nat :| i < n && Ancestor(g, id, i) == Some(s);
        assert i < n + 1;
      } else {
        assert n < n + 1 && Ancestor(g, id, n) == Some(s);
      }
    }
  }

  /** No target among hops 0..n, and the chain ends there or repeats hop `j`: the target is not on it. */
  lemma NotOnChain(g: Graph, id: StateId, target: StateId, n: nat, j: nat)
    requires forall i: nat | i <= n :: Ancestor(g, id, i) != Some(target)
    requires Ancestor(g, id, n + 1).None?
             || (Ancestor(g, id, n).Some? && j < n && Ancestor(g, id, j) == Ancestor(g, id, n))
    ensures !Refines(g, id, target)
  {
    forall k: nat ensures Ancestor(g, id, k) != Some(target) {
      if k > n {
        if Ancestor(g, id, n + 1).None? {
          AncestorEnds(g, id, n + 1, k);
        } else {
          AncestorCycles(g, id, j, n, k);
        }
      }
    }
  }

  /** Is `stateId` the target, or a refinement of it? */
  method IsRefinementOf(g: Graph, stateId: StateId, targetId: StateId) returns (found: bool)
    ensures found <==> Refines(g, stateId, targetId)
  {
    if stateId == targetId {
      RefinesSelf(g, stateId);
      return true;
    }
    var current := stateId;
    var seen: set<StateId> := {};
    ghost var n: nat := 0;
    while current !in seen
      invariant Ancestor(g, stateId, n) == Some(current)
      invariant SeenIs(g, stateId, n, seen)
      invariant forall i: nat | i <= n :: Ancestor(g, stateId, i) != Some(targetId)
      decreases g.nodes.Keys - seen
    {
      SeenGrows(g, stateId, n, seen, current);
      seen := seen + {current};
      if current !in g.nodes || g.nodes[current].parent.None? {
        NotOnChain(g, stateId, targetId, n, 0);
        return false;
      }
      var parent := g.nodes[current].parent.value;
      if parent == targetId {
        assert Ancestor(g, stateId, n + 1) == Some(targetId);
        return true;
      }
      assert current in g.nodes.Keys;
      n, current := n + 1, parent;
    }
    ghost var j: nat :| j < n && Ancestor(g, stateId, j) == Some(current);
    NotOnChain(g, stateId, targetId, n, j);
    return false;
  }

  /**
   * `d` counts the hops made before the chain ends, or before it reaches a state
   * it has already passed.
   */
  ghost predicate IsDepth(g: Graph, id: StateId, d: nat) {
    && Ancestor(g, id, d).Some?
    && (forall i: nat, j: nat | i < j < d :: Ancestor(g, id, i) != Ancestor(g, id, j))
    && (|| Ancestor(g, id, d + 1).None?
        || exists j: nat :: j < d && Ancestor(g, id, j) == Ancestor(g, id, d))
  }

  /** The depth is a property of the graph alone. */
  lemma DepthUnique(g: Graph, id: StateId, d: nat, e: nat)
    requires IsDepth(g, id, d) && IsDepth(g, id, e)
    ensures d == e
  {
    if d < e && Ancestor(g, id, d + 1).None? {
      AncestorEnds(g, id, d + 1, e);
    } else if e < d && Ancestor(g, id, e + 1).None? {
      AncestorEnds(g, id, e + 1, d);
    }
  }

  /** How deep a state sits in its refinement chain; root states are at 0. */
  method RefinementDepth(g: Graph, stateId: StateId) returns (depth: nat)
    ensures IsDepth(g, stateId, depth)
  {
    depth := 0;
    var current := stateId;
    var seen: set<StateId> := {};
    while current !in seen
      invariant Ancestor(g, stateId, depth) == Some(current)
      invariant SeenIs(g, stateId, depth, seen)
      invariant forall i: nat, j: nat | i < j < depth :: Ancestor(g, stateId, i) != Ancestor(g, stateId, j)
      decreases g.nodes.Keys - seen
    {
      SeenGrows(g, stateId, depth, seen, current);
      StillDistinct(g, stateId, depth, seen);
      seen := seen + {current};
      if current !in g.nodes || g.nodes[current].parent.None? {
        return depth;
      }
      assert current in g.nodes.Keys;
      depth, current := depth + 1, g.nodes[current].parent.value;
    }
  }
}
