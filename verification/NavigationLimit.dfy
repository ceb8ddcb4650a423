/**
 * The step limit of navigation is exact: a device that reaches its target with the
 * last permitted step is reported as a failure, and no smaller limit than the number
 * of states is safe on every graph.
 */
module NavigationLimit {
  import opened Wrappers
  import opened LifecycleGraph
  import Composition
  import PathFinding
  import opened Navigator

  /** The i-th state of a chain. */
  function Stop(i: nat): (id: StateId)
    ensures |id| == i
  {
    seq(i, _ => 'x')
  }

  function Hop(i: nat): StateEdge {
    StateEdge(Stop(i), Stop(i + 1), "", 1.0, false)
  }

  function HopKey(i: nat): string {
    Composition.EdgeKey(Stop(i), Stop(i + 1))
  }

  /** A chain of `n` states, each with one automatic transition to the next. */
  function Chain(n: nat): Graph {
    var ids := set i | 0 <= i < n :: Stop(i);
    Graph(seq(n, i requires 0 <= i < n => Stop(i)),
          map id | id in ids :: StateNode(id, None, false),
          map id | id in ids :: if |id| + 1 < n then [Hop(|id|)] else [])
  }

  /** A device that honours every transition of the chain. */
  function Walks(n: nat): nat -> Option<StateId> {
    (t: nat) => Some(Stop(if t < n then t else 0))
  }

  function Works(): nat -> bool {
    _ => true
  }

  predicate IsStop(n: nat, id: StateId) {
    |id| < n && id == Stop(|id|)
  }

  lemma ChainIs(n: nat)
    ensures Chain(n).order == seq(n, i requires 0 <= i < n => Stop(i))
    ensures forall id {:trigger IsStop(n, id)} :: id in Chain(n).nodes <==> IsStop(n, id)
    ensures Chain(n).adjacency.Keys == Chain(n).nodes.Keys
    ensures forall id {:trigger Chain(n).nodes[id]} | id in Chain(n).nodes :: Chain(n).nodes[id] == StateNode(id, None, false)
    ensures forall id {:trigger Chain(n).adjacency[id]} | id in Chain(n).adjacency ::
              Chain(n).adjacency[id] == if |id| + 1 < n then [Hop(|id|)] else []
  {
    forall id ensures id in Chain(n).nodes <==> IsStop(n, id) {
      if IsStop(n, id) {
        assert 0 <= |id| < n && Stop(|id|) == id;
      }
    }
  }

  lemma StopsAreStops(n: nat)
    ensures forall i: nat | i < n :: IsStop(n, Stop(i))
  {
  }

  lemma ChainOrder(n: nat)
    ensures Distinct(Chain(n).order) && forall id :: id in Chain(n).order <==> id in Chain(n).nodes
  {
    ChainIs(n);
    StopsAreStops(n);
    hide Chain;
    var order := Chain(n).order;
    forall id ensures id in order <==> id in Chain(n).nodes {
      if IsStop(n, id) {
        assert order[|id|] == id;
      }
      if id in order {
        var i :| 0 <= i < n && order[i] == id;
        assert IsStop(n, Stop(i));
      }
    }
    forall i, j | 0 <= i < j < n ensures order[i] != order[j] {
      assert |order[i]| == i && |order[j]| == j;
    }
  }

  lemma ChainIsWellFormed(n: nat)
    ensures WellFormed(Chain(n)) && PositiveCosts(Chain(n))
  {
    ChainOrder(n);
    ChainNodes(n);
    ChainEdgesStay(n);
    hide Chain, Stop, Distinct;
  }

  lemma ChainNodes(n: nat)
    ensures Chain(n).adjacency.Keys == Chain(n).nodes.Keys
    ensures forall id {:trigger Chain(n).nodes[id]} | id in Chain(n).nodes ::
              Chain(n).nodes[id].id == id && Chain(n).nodes[id].parent.None?
  {
    ChainIs(n);
    hide Chain;
  }

  lemma ChainSize(n: nat)
    ensures |Chain(n).nodes| == n
  {
    ChainOrder(n);
    ChainIs(n);
    var g := Chain(n);
    CountDistinct(g.order, g.nodes.Keys);
    hide Chain;
    assert |g.nodes| == |g.nodes.Keys|;
  }

  lemma ChainEdgesStay(n: nat)
    ensures forall id, e | id in Chain(n).adjacency && e in Chain(n).adjacency[id] ::
              e.from == id && e.to in Chain(n).nodes && e.cost > 0.0
  {
    ChainIs(n);
    StopsAreStops(n);
    hide Chain, Stop;
    forall id, e | id in Chain(n).adjacency && e in Chain(n).adjacency[id]
      ensures e.from == id && e.to in Chain(n).nodes && e.cost > 0.0
    {
      assert IsStop(n, id) && e == Hop(|id|);
    }
  }

  lemma {:induction false} CountDistinct<T>(s: seq<T>, all: set<T>)
    requires Distinct(s) && forall x :: x in s <==> x in all
    ensures |s| == |all|
  {
    if s == [] {
      assert all == {};
    } else {
      var n := |s| - 1;
      assert s == s[..n] + [s[n]];
      CountDistinct(s[..n], all - {s[n]});
    }
  }

  /** Along the chain the only way is forward. */
  lemma ChainEdge(n: nat, m: bool, e: StateEdge)
    ensures Permitted(Chain(n), m, e) ==> |e.from| + 1 < n && e == Hop(|e.from|)
    ensures forall i: nat | i + 1 < n && e == Hop(i) :: Permitted(Chain(n), m, e)
  {
    ChainIs(n);
    StopsAreStops(n);
    hide Chain, Stop;
  }

  lemma {:induction false} ChainPath(n: nat, m: bool, i: nat) returns (p: seq<StateEdge>)
    requires i < n
    ensures IsPath(Chain(n), m, Stop(0), p, Stop(i))
  {
    hide Chain;
    if i == 0 {
      p := [];
    } else {
      var before := ChainPath(n, m, i - 1);
      ChainEdge(n, m, Hop(i - 1));
      p := before + [Hop(i - 1)];
      PathAppend(Chain(n), m, Stop(0), before, Hop(i - 1));
    }
  }

  /** Nothing in the chain refines anything but itself. */
  lemma ChainRefines(n: nat, id: StateId, target: StateId)
    requires Refines(Chain(n), id, target)
    ensures id == target
  {
    ChainIs(n);
    hide Chain;
    var k: nat :| Ancestor(Chain(n), id, k) == Some(target);
    if k > 0 {
      AncestorEnds(Chain(n), id, 1, k);
    }
  }

  lemma ChainIsPromising(n: nat, m: bool, actions: set<string>)
    requires n >= 1 && forall i: nat | i + 1 < n :: HopKey(i) in actions
    ensures Promising(Chain(n), m, actions, Stop(n - 1), Walks(n))
  {
    ChainIsWellFormed(n);
    ChainIsCapable(n, m, actions);
    ChainHasPlan(n, m, Stop(0), Stop(n - 1));
    hide Chain, Stop, HopKey, WellFormed, PositiveCosts, Capable, PathFinding.PlanExists;
    assert Walks(n)(0) == Some(Stop(0));
  }

  lemma ChainIsCapable(n: nat, m: bool, actions: set<string>)
    requires forall i: nat | i + 1 < n :: HopKey(i) in actions
    ensures Capable(Chain(n), m, actions)
  {
    hide Chain, Stop, Permitted;
    forall e | Permitted(Chain(n), m, e) ensures !e.manual && Composition.EdgeKey(e.from, e.to) in actions {
      ChainEdge(n, m, e);
      assert HopKey(|e.from|) in actions;
    }
  }

  lemma ChainHasPlan(n: nat, m: bool, start: StateId, target: StateId)
    requires n >= 1 && start == Stop(0) && target == Stop(n - 1)
    ensures PathFinding.PlanExists(Chain(n), m, start, target)
  {
    ChainIs(n);
    StopsAreStops(n);
    var p := ChainPath(n, m, n - 1);
    RefinesSelf(Chain(n), target);
    hide Chain, Stop, Refines, IsPath, Permitted;
    assert IsStop(n, start) && IsStop(n, target);
    assert Reachable(Chain(n), m, start, target);
  }

  lemma ChainIsHonest(n: nat, m: bool, actions: set<string>, states: seq<StateId>, log: seq<StateEdge>)
    requires n >= 1 && |log| < n && IsTrace(Chain(n), m, actions, Stop(n - 1), Walks(n), states, log)
    ensures Honest(Walks(n), Works(), log)
  {
    hide Chain, Refines;
    forall t: nat | t < |log| ensures Walks(n)(t + 1) == Some(log[t].to) {
      ChainEdge(n, m, log[t]);
      assert Walks(n)(t) == Some(states[t]) && log[t].from == states[t];
      assert |Stop(t)| == t;
    }
  }

  /** The device is at the target after `n - 1` transitions and not before. */
  lemma ThereAtLast(n: nat, target: StateId)
    requires n >= 1 && target == Stop(n - 1)
    ensures ThereAt(Chain(n), target, Walks(n), n - 1)
    ensures forall t: nat | t < n - 1 :: !ThereAt(Chain(n), target, Walks(n), t)
  {
    RefinesSelf(Chain(n), target);
    hide Chain, Refines;
    forall t: nat | t < n - 1 ensures !ThereAt(Chain(n), target, Walks(n), t) {
      assert |Stop(t)| == t && |target| == n - 1;
      if ThereAt(Chain(n), target, Walks(n), t) {
        ChainRefines(n, Stop(t), target);
      }
    }
  }

  /** Actions registered for every hop of the chain. */
  function Hops(n: nat): set<string> {
    set i | 0 <= i < n - 1 :: HopKey(i)
  }

  /**
   * The limit cannot be lowered: on a chain of `n` states, every call that permits
   * `n - 1` steps is honest and promising, brings the device to the target with the
   * last step, and reports a failure.
   */
  lemma LimitIsTight(n: nat, m: bool, r: NavigationResult, states: seq<StateId>, log: seq<StateEdge>, costs: seq<real>)
    requires n >= 1 && Navigated(Chain(n), Hops(n), Stop(n - 1), m, n - 1, Walks(n), Works(), r, states, log, costs)
    ensures WellFormed(Chain(n)) && |Chain(n).nodes| == n
    ensures Promising(Chain(n), m, Hops(n), Stop(n - 1), Walks(n)) && Honest(Walks(n), Works(), log)
    ensures ThereAt(Chain(n), Stop(n - 1), Walks(n), n - 1) && r == TooManySteps(Some(Stop(n - 1)))
  {
    hide *;
    ChainOffersAWay(n, m, Stop(n - 1));
    ChainRunIsHonest(n, m, r, states, log, costs);
    ArrivesTooLate(Chain(n), Hops(n), Stop(n - 1), m, n - 1, Walks(n), Works(), r, states, log, costs);
  }

  lemma ChainOffersAWay(n: nat, m: bool, target: StateId)
    requires n >= 1 && target == Stop(n - 1)
    ensures WellFormed(Chain(n)) && |Chain(n).nodes| == n
    ensures Promising(Chain(n), m, Hops(n), target, Walks(n))
    ensures ThereAt(Chain(n), target, Walks(n), n - 1) && Walks(n)(n - 1) == Some(target)
    ensures forall t: nat | t < n - 1 :: !ThereAt(Chain(n), target, Walks(n), t)
  {
    hide *;
    ChainSize(n);
    ChainIsWellFormed(n);
    HopsSuffice(n, m);
    ThereAtLast(n, target);
    WalkIsStop(n, n - 1);
  }

  lemma HopsSuffice(n: nat, m: bool)
    requires n >= 1
    ensures Promising(Chain(n), m, Hops(n), Stop(n - 1), Walks(n))
  {
    hide Chain, Stop, HopKey, Walks, Promising;
    ChainIsPromising(n, m, Hops(n));
  }

  lemma WalkIsStop(n: nat, t: nat)
    ensures t < n ==> Walks(n)(t) == Some(Stop(t))
  {
    hide Stop;
  }

  lemma ChainRunIsHonest(n: nat, m: bool, r: NavigationResult, states: seq<StateId>, log: seq<StateEdge>,
                         costs: seq<real>)
    requires n >= 1 && Navigated(Chain(n), Hops(n), Stop(n - 1), m, n - 1, Walks(n), Works(), r, states, log, costs)
    ensures Honest(Walks(n), Works(), log)
  {
    hide Chain, Stop, Hops, HopKey, Walks, Works, Navigated, Honest, IsTrace;
    IsNavigated(Chain(n), Hops(n), Stop(n - 1), m, n - 1, Walks(n), Works(), r, states, log, costs);
    ChainIsHonest(n, m, Hops(n), states, log);
  }

  lemma IsNavigated(g: Graph, actions: set<string>, target: StateId, m: bool, maxSteps: nat,
                    detected: nat -> Option<StateId>, succeeds: nat -> bool,
                    r: NavigationResult, states: seq<StateId>, log: seq<StateEdge>, costs: seq<real>)
    requires Navigated(g, actions, target, m, maxSteps, detected, succeeds, r, states, log, costs)
    ensures IsTrace(g, m, actions, target, detected, states, log) && |log| <= maxSteps
  {
    hide IsTrace, Promising, Honest, FollowsPlans, ResultMeans;
  }

  /** An honest run not at the target before the limit fails, whatever is detected after the last permitted step. */
  lemma ArrivesTooLate(g: Graph, actions: set<string>, target: StateId, m: bool, maxSteps: nat,
                       detected: nat -> Option<StateId>, succeeds: nat -> bool,
                       r: NavigationResult, states: seq<StateId>, log: seq<StateEdge>, costs: seq<real>)
    requires Navigated(g, actions, target, m, maxSteps, detected, succeeds, r, states, log, costs)
    requires Promising(g, m, actions, target, detected) && Honest(detected, succeeds, log)
    requires forall t: nat | t < maxSteps :: !ThereAt(g, target, detected, t)
    ensures r == TooManySteps(detected(maxSteps))
  {
    hide Promising, Honest, IsTrace, Refines, ThereAt, Permitted, PathFinding.PlanExists;
  }

  /** Two states, one transition and one permitted step: the device gets there and the call fails. */
  lemma LastStepGoesUnseen(r: NavigationResult, states: seq<StateId>, log: seq<StateEdge>, costs: seq<real>)
    requires Navigated(Chain(2), Hops(2), "x", false, 1, Walks(2), Works(), r, states, log, costs)
    ensures Chain(2).order == ["", "x"] && Permitted(Chain(2), false, StateEdge("", "x", "", 1.0, false))
    ensures Promising(Chain(2), false, Hops(2), "x", Walks(2)) && Honest(Walks(2), Works(), log)
    ensures Walks(2)(0) == Some("") && Walks(2)(1) == Some("x") && r == TooManySteps(Some("x"))
  {
    TwoStops();
    hide Stop, Chain, Hops, Walks, Works, Navigated, Promising, Honest;
    LimitIsTight(2, false, r, states, log, costs);
  }

  lemma TwoStops()
    ensures Stop(0) == "" && Stop(1) == "x"
    ensures Chain(2).order == ["", "x"] && Permitted(Chain(2), false, StateEdge("", "x", "", 1.0, false))
    ensures Walks(2)(0) == Some("") && Walks(2)(1) == Some("x")
  {
    assert Stop(0) == "" && Stop(1) == "x";
    ChainEdge(2, false, Hop(0));
    TwoInOrder();
    hide Chain, Permitted;
  }

  lemma TwoInOrder()
    ensures Chain(2).order == [Stop(0), Stop(1)]
  {
    ChainIs(2);
    hide Chain, Stop;
  }

  // -- A limit from the graph alone --------------------------------------------------------

  /** Every permitted way out of the start that costs no more than `cost` has fewer than `limit` steps. */
  ghost predicate CheapWaysAreShort(g: Graph, m: bool, start: StateId, cost: real, limit: int) {
    forall p | IsPath(g, m, start, p, EndOf(start, p)) && Cost(p) <= cost :: |p| < limit
  }

  /** The executed transitions of an honest run are a path out of where it started. */
  lemma {:induction false} RunIsPath(g: Graph, actions: set<string>, target: StateId, m: bool,
                                     detected: nat -> Option<StateId>, succeeds: nat -> bool,
                                     states: seq<StateId>, log: seq<StateEdge>, start: StateId, k: nat)
    requires IsTrace(g, m, actions, target, detected, states, log) && Honest(detected, succeeds, log)
    requires detected(0) == Some(start) && k <= |log|
    ensures IsPath(g, m, start, log[..k], EndOf(start, log[..k]))
    ensures k > 0 ==> EndOf(start, log[..k]) == log[k - 1].to
  {
    hide Permitted, Refines;
    if k > 0 {
      RunIsPath(g, actions, target, m, detected, succeeds, states, log, start, k - 1);
      assert log[..k] == log[..k - 1] + [log[k - 1]];
      assert detected(k - 1) == Some(states[k - 1]) && log[k - 1].from == states[k - 1];
      assert k > 1 ==> detected((k - 2) + 1) == Some(log[k - 2].to);
      PathAppend(g, m, start, log[..k - 1], log[k - 1]);
    }
  }

  /**
   * Arrival is certain, whatever plans are chosen among equals, once the limit exceeds
   * the length of every permitted way that costs no more than the cheapest plan.
   */
  lemma ArrivesWhenCheapWaysAreShort(g: Graph, actions: set<string>, target: StateId, m: bool, maxSteps: int,
                                     detected: nat -> Option<StateId>, succeeds: nat -> bool, r: NavigationResult,
                                     states: seq<StateId>, log: seq<StateEdge>, costs: seq<real>, cost: real)
    requires Navigated(g, actions, target, m, maxSteps, detected, succeeds, r, states, log, costs)
    requires Promising(g, m, actions, target, detected) && Honest(detected, succeeds, log)
    requires Remaining(g, m, detected(0).value, target, cost) && CheapWaysAreShort(g, m, detected(0).value, cost, maxSteps)
    ensures r.Arrived?
  {
    hide *;
    ConvergingRun(g, actions, target, m, maxSteps, detected, succeeds, r, states, log, costs);
    var start := detected(0).value;
    RunIsPath(g, actions, target, m, detected, succeeds, states, log, start, |log|);
    assert log[..|log|] == log;
    if log == [] {
      RemainingIsNotNegative(g, m, start, target, cost);
    } else {
      FirstCost(g, actions, target, m, maxSteps, detected, r, states, log, costs, cost);
    }
    CheapIsShort(g, m, start, cost, maxSteps, log);
    ArrivedIfShort(g, m, target, maxSteps, r, states, log, costs);
  }

  lemma ConvergingRun(g: Graph, actions: set<string>, target: StateId, m: bool, maxSteps: int,
                      detected: nat -> Option<StateId>, succeeds: nat -> bool, r: NavigationResult,
                      states: seq<StateId>, log: seq<StateEdge>, costs: seq<real>)
    requires Navigated(g, actions, target, m, maxSteps, detected, succeeds, r, states, log, costs)
    requires Promising(g, m, actions, target, detected) && Honest(detected, succeeds, log)
    ensures IsTrace(g, m, actions, target, detected, states, log)
    ensures ConvergesTo(g, m, target, maxSteps, r, states, log, costs)
    ensures PositiveCosts(g) && detected(0).Some?
  {
    hide IsTrace, ConvergesTo, Honest, ResultMeans, FollowsPlans, PositiveCosts, Capable, PathFinding.PlanExists;
  }

  lemma CheapIsShort(g: Graph, m: bool, start: StateId, cost: real, limit: int, p: seq<StateEdge>)
    requires CheapWaysAreShort(g, m, start, cost, limit) && IsPath(g, m, start, p, EndOf(start, p))
    requires (p == [] && cost >= 0.0) || Cost(p) <= cost
    ensures |p| < limit
  {
    hide IsPath, EndOf;
  }

  lemma ArrivedIfShort(g: Graph, m: bool, target: StateId, maxSteps: int, r: NavigationResult, states: seq<StateId>,
                       log: seq<StateEdge>, costs: seq<real>)
    requires ConvergesTo(g, m, target, maxSteps, r, states, log, costs) && |log| < maxSteps
    ensures r.Arrived?
  {
    hide Converges, Cost, Distinct;
  }

  lemma RemainingIsNotNegative(g: Graph, m: bool, state: StateId, target: StateId, cost: real)
    requires PositiveCosts(g) && Remaining(g, m, state, target, cost)
    ensures cost >= 0.0
  {
    var r :| PathFinding.IsCheapestPlan(g, m, state, target, r) && r.totalCost == cost;
    PlansCostNothingNegative(g, m, state, r.edges, EndOf(state, r.edges));
  }

  lemma FirstCost(g: Graph, actions: set<string>, target: StateId, m: bool, maxSteps: int, detected: nat -> Option<StateId>,
                  r: NavigationResult, states: seq<StateId>, log: seq<StateEdge>, costs: seq<real>, cost: real)
    requires IsTrace(g, m, actions, target, detected, states, log) && log != []
    requires ConvergesTo(g, m, target, maxSteps, r, states, log, costs)
    requires detected(0).Some? && Remaining(g, m, detected(0).value, target, cost)
    ensures Cost(log) <= cost
  {
    hide Permitted, Refines, Remaining;
    RemainingUnique(g, m, states[0], target, costs[0], cost);
  }
}
