/**
 * The detect, plan, execute-one-step loop that drives a device to a target state.
 * The device is an oracle: `detected(t)` is what detection reports after `t`
 * executed transitions, and `succeeds(t)` is whether the next action completes.
 * Nothing is assumed about where an action lands unless a run is called honest.
 */
module Navigator {
  import opened Wrappers
  import opened LifecycleGraph
  import opened Refinement
  import opened PathFinding
  import opened Composition

  datatype NavigationResult =
    | Arrived(finalState: StateId, stepsExecuted: nat)
    | Undetected
    | NoPath(lastState: StateId)
    | NoAction(edge: StateEdge, lastState: StateId)
    | NeedsManual(edge: StateEdge, lastState: StateId)
    | ActionThrew(edge: StateEdge)
    | TooManySteps(lastDetected: Option<StateId>)

  // -- What every run does ---------------------------------------------------------

  /**
   * On any device: each executed transition is an automatic, registered, permitted
   * edge out of the state detected just before it, and no state acted from was
   * already at the target.
   */
  ghost predicate IsTrace(g: Graph, m: bool, actions: set<string>, target: StateId,
                          detected: nat -> Option<StateId>, states: seq<StateId>, log: seq<StateEdge>)
  {
    && |log| <= |states| <= |log| + 1
    && (forall i | 0 <= i < |states| :: detected(i) == Some(states[i]))
    && (forall i | 0 <= i < |log| ::
          && log[i].from == states[i] && Permitted(g, m, log[i]) && !log[i].manual
          && EdgeKey(log[i].from, log[i].to) in actions
          && !Refines(g, states[i], target))
  }

  // -- Honest devices --------------------------------------------------------------

  /** Everything navigation could plan, it can also execute without a hand on the device. */
  ghost predicate Capable(g: Graph, m: bool, actions: set<string>) {
    forall e | Permitted(g, m, e) :: !e.manual && EdgeKey(e.from, e.to) in actions
  }

  /** Actions complete and land on their edge's end, and detection tells the truth. */
  ghost predicate Honest(detected: nat -> Option<StateId>, succeeds: nat -> bool, log: seq<StateEdge>) {
    && (forall t: nat :: succeeds(t))
    && (forall t: nat | t < |log| :: detected(t + 1) == Some(log[t].to))
  }

  ghost predicate Promising(g: Graph, m: bool, actions: set<string>, target: StateId,
                            detected: nat -> Option<StateId>)
  {
    && PositiveCosts(g) && Capable(g, m, actions)
    && detected(0).Some? && PlanExists(g, m, detected(0).value, target)
  }

  /** `costs[i]` is what a cheapest plan from the i-th detected state still costs. */
  ghost predicate Converges(g: Graph, m: bool, target: StateId, states: seq<StateId>, log: seq<StateEdge>,
                            costs: seq<real>)
  {
    && |costs| == |states|
    && (forall i | 0 <= i < |states| :: states[i] in g.nodes && Remaining(g, m, states[i], target, costs[i]))
    && (forall i, j | 0 <= i < j < |costs| :: costs[j] < costs[i])
    && (forall i | 0 <= i < |log| && i + 1 < |costs| :: costs[i + 1] <= costs[i] - log[i].cost)
  }

  /** The optimal remaining cost from a state. */
  ghost predicate Remaining(g: Graph, m: bool, state: StateId, target: StateId, cost: real) {
    exists r: PathResult :: IsCheapestPlan(g, m, state, target, r) && r.totalCost == cost
  }

  lemma RemainingUnique(g: Graph, m: bool, state: StateId, target: StateId, c: real, c': real)
    requires Remaining(g, m, state, target, c) && Remaining(g, m, state, target, c')
    ensures c == c'
  {
    var r :| IsCheapestPlan(g, m, state, target, r) && r.totalCost == c;
    var r' :| IsCheapestPlan(g, m, state, target, r') && r'.totalCost == c';
    CheapestCostUnique(g, m, state, target, r, r');
  }

  lemma PlansCostNothingNegative(g: Graph, m: bool, u: StateId, p: seq<StateEdge>, v: StateId)
    requires PositiveCosts(g) && IsPath(g, m, u, p, v)
    ensures Cost(p) >= 0.0
  {
    if p != [] {
      PlansCostNothingNegative(g, m, u, p[..|p| - 1], p[|p| - 1].from);
    }
  }

  /** The rest of a plan, after its first edge, is a way on from where that edge ends. */
  lemma PlanTail(g: Graph, m: bool, u: StateId, target: StateId, r: PathResult) returns (rest: seq<StateEdge>)
    requires WellFormed(g) && u in g.nodes && target in g.nodes
    requires IsPlan(g, m, u, target, r) && !Refines(g, u, target)
    ensures r.edges != [] && r.edges[0].from == u && Permitted(g, m, r.edges[0]) && rest == r.edges[1..]
    ensures r.edges[0].to in g.nodes
    ensures IsPath(g, m, r.edges[0].to, rest, EndOf(u, r.edges)) && r.totalCost == r.edges[0].cost + Cost(rest)
    ensures EndOf(r.edges[0].to, rest) == EndOf(u, r.edges)
    ensures PlanExists(g, m, r.edges[0].to, target)
  {
    hide Refines;
    var end := EndOf(u, r.edges);
    assert EndOf(u, []) == u;
    rest := r.edges[1..];
    PathTail(g, m, u, r.edges, end);
    var e := r.edges[0];
    assert e in g.adjacency[e.from];
    PathEnds(g, m, e.to, rest, end);
    assert Reachable(g, m, e.to, end);
  }

  lemma ReachableBack(g: Graph, m: bool, e: StateEdge, v: StateId)
    requires Permitted(g, m, e) && Reachable(g, m, e.to, v)
    ensures Reachable(g, m, e.from, v)
  {
    var p :| IsPath(g, m, e.to, p, v);
    PathPrepend(g, m, e, p, v);
  }

  /** Taking the first edge of a cheapest plan pays off exactly its cost. */
  lemma StepPaysOff(g: Graph, m: bool, u: StateId, target: StateId, r: PathResult, c: real)
    requires WellFormed(g) && PositiveCosts(g) && u in g.nodes && target in g.nodes
    requires IsCheapestPlan(g, m, u, target, r) && !Refines(g, u, target)
    ensures r.edges != [] && r.edges[0].from == u && Permitted(g, m, r.edges[0]) && r.edges[0].cost > 0.0
    ensures PlanExists(g, m, r.edges[0].to, target) && r.edges[0].cost <= r.totalCost
    ensures Remaining(g, m, r.edges[0].to, target, c) ==> c <= r.totalCost - r.edges[0].cost
  {
    hide Refines, WellFormed;
    var rest := PlanTail(g, m, u, target, r);
    var e := r.edges[0];
    assert e in g.adjacency[e.from];
    PlansCostNothingNegative(g, m, e.to, rest, EndOf(u, r.edges));
    if Remaining(g, m, e.to, target, c) {
      var r' :| IsCheapestPlan(g, m, e.to, target, r') && r'.totalCost == c;
      if Refines(g, e.to, target) {
        assert Competes(g, m, e.to, target, []);
      } else {
        if Reachable(g, m, e.to, target) {
          ReachableBack(g, m, e, target);
        }
        assert Competes(g, m, e.to, target, rest);
      }
    }
  }

  /** States with strictly falling remaining cost never repeat, so they fit in the graph, target excluded. */
  lemma ConvergingRunIsShort(g: Graph, m: bool, target: StateId, states: seq<StateId>, log: seq<StateEdge>,
                             costs: seq<real>, start: StateId)
    requires WellFormed(g) && Converges(g, m, target, states, log, costs)
    requires forall i | 0 <= i < |states| :: !Refines(g, states[i], target)
    requires PlanExists(g, m, start, target)
    ensures |states| < |g.nodes|
  {
    NoStateRepeats(g, m, target, states, log, costs);
    var v :| Reachable(g, m, start, v) && Refines(g, v, target);
    var p :| IsPath(g, m, start, p, v);
    PathStaysInGraph(g, m, start, p, v);
    DistinctFits(states, g.nodes.Keys - {v});
    assert |g.nodes.Keys - {v}| == |g.nodes.Keys| - 1;
    assert |g.nodes.Keys| == |g.nodes|;
  }

  lemma NoStateRepeats(g: Graph, m: bool, target: StateId, states: seq<StateId>, log: seq<StateEdge>,
                       costs: seq<real>)
    requires Converges(g, m, target, states, log, costs)
    ensures Distinct(states)
  {
    forall i, j | 0 <= i < j < |states| ensures states[i] != states[j] {
      if states[i] == states[j] {
        RemainingUnique(g, m, states[i], target, costs[i], costs[j]);
      }
    }
  }

  lemma {:induction false} DistinctFits<T>(s: seq<T>, all: set<T>)
    requires Distinct(s) && forall x | x in s :: x in all
    ensures |s| <= |all|
  {
    if s != [] {
      var n := |s| - 1;
      assert forall x | x in s[..n] :: x in all - {s[n]};
      DistinctFits(s[..n], all - {s[n]});
    }
  }

  /** The bill so far is covered by what the first plan promised. */
  lemma {:induction false} PaidAtMost(g: Graph, m: bool, target: StateId, states: seq<StateId>,
                                      log: seq<StateEdge>, costs: seq<real>, k: nat)
    requires Converges(g, m, target, states, log, costs) && k < |costs| && k <= |log|
    ensures Cost(log[..k]) <= costs[0] - costs[k]
  {
    hide Remaining;
    if k > 0 {
      PaidAtMost(g, m, target, states, log, costs, k - 1);
      assert log[..k][..k - 1] == log[..k - 1];
    }
  }

  // -- The loop --------------------------------------------------------------------

  /** Is the current state the target, or a refinement of it? */
  method IsAtTarget(g: Graph, currentState: StateId, targetState: StateId) returns (there: bool)
    ensures there <==> Refines(g, currentState, targetState)
  {
    if currentState == targetState {
      RefinesSelf(g, currentState);
      return true;
    }
    var state := currentState;
    var seen: set<StateId> := {};
    ghost var n: nat := 0;
    while state !in seen
      invariant Ancestor(g, currentState, n) == Some(state)
      invariant SeenIs(g, currentState, n, seen)
      invariant forall i: nat | i <= n :: Ancestor(g, currentState, i) != Some(targetState)
      decreases g.nodes.Keys - seen
    {
      SeenGrows(g, currentState, n, seen, state);
      seen := seen + {state};
      if state !in g.nodes || g.nodes[state].parent.None? {
        NotOnChain(g, currentState, targetState, n, 0);
        return false;
      }
      var parent := g.nodes[state].parent.value;
      if parent == targetState {
        assert Ancestor(g, currentState, n + 1) == Some(targetState);
        return true;
      }
      assert state in g.nodes.Keys;
      n, state := n + 1, parent;
    }
    ghost var j: nat :| j < n && Ancestor(g, currentState, j) == Some(state);
    NotOnChain(g, currentState, targetState, n, j);
    return false;
  }

  /** After `t` transitions the device is at the target, or at a refinement of it. */
  ghost predicate ThereAt(g: Graph, target: StateId, detected: nat -> Option<StateId>, t: nat) {
    detected(t).Some? && Refines(g, detected(t).value, target)
  }

  lemma IsThere(g: Graph, target: StateId, detected: nat -> Option<StateId>, t: nat)
    requires detected(t).Some? && Refines(g, detected(t).value, target)
    ensures ThereAt(g, target, detected, t)
  {
  }

  lemma NeverThere(g: Graph, m: bool, actions: set<string>, target: StateId, detected: nat -> Option<StateId>,
                   states: seq<StateId>, log: seq<StateEdge>)
    requires IsTrace(g, m, actions, target, detected, states, log)
    ensures forall t: nat | t < |log| :: !ThereAt(g, target, detected, t)
  {
    hide Refines, Permitted;
    forall t: nat | t < |log| ensures !ThereAt(g, target, detected, t) {
      assert detected(t) == Some(states[t]);
    }
  }

  /** What an honest run of the loop guarantees, whatever its step limit. */
  ghost predicate ConvergesTo(g: Graph, m: bool, target: StateId, maxSteps: int, r: NavigationResult,
                              states: seq<StateId>, log: seq<StateEdge>, costs: seq<real>)
  {
    && (r.Arrived? || r.TooManySteps?)
    && (r.Arrived? <==> |log| < maxSteps)
    && (maxSteps >= |g.nodes| ==> r.Arrived?)
    && Converges(g, m, target, states, log, costs)
    && Distinct(states)
    && (r.Arrived? ==> |log| < |costs|)
    && (costs != [] ==> Cost(log) <= costs[0])
  }

  /**
   * What a call of navigate promises of its result: on any device the trace, the limit
   * and the meaning of each kind of result; on an honest one that could get there, that
   * it converges, and exactly when it arrives.
   */
  ghost predicate Navigated(g: Graph, actions: set<string>, target: StateId, m: bool, maxSteps: int,
                            detected: nat -> Option<StateId>, succeeds: nat -> bool,
                            r: NavigationResult, states: seq<StateId>, log: seq<StateEdge>, costs: seq<real>)
  {
    && IsTrace(g, m, actions, target, detected, states, log)
    && |log| <= (if maxSteps < 0 then 0 else maxSteps)
    && ResultMeans(g, actions, target, m, maxSteps, detected, succeeds, r, states, log)
    && FollowsPlans(g, m, target, states, log)
    && (Promising(g, m, actions, target, detected) && Honest(detected, succeeds, log) ==>
          && ConvergesTo(g, m, target, maxSteps, r, states, log, costs)
          && (r.Arrived? <==> exists t: nat :: t < maxSteps && ThereAt(g, target, detected, t)))
  }

  /** `e` is the first edge of a plan from `u`, of a cheapest one when no cost is negative. */
  ghost predicate FirstOfPlan(g: Graph, m: bool, u: StateId, target: StateId, e: StateEdge) {
    exists r: PathResult :: r.edges != [] && r.edges[0] == e && PlannedBy(g, m, u, target, r)
  }

  ghost predicate PlannedBy(g: Graph, m: bool, u: StateId, target: StateId, r: PathResult) {
    IsPlan(g, m, u, target, r) && (NonNegativeCosts(g) ==> IsCheapestPlan(g, m, u, target, r))
  }

  /** On any device: nothing is executed but the first edge of a plan from the state just detected. */
  ghost predicate FollowsPlans(g: Graph, m: bool, target: StateId, states: seq<StateId>, log: seq<StateEdge>) {
    |log| <= |states| && forall i | 0 <= i < |log| :: FirstOfPlan(g, m, states[i], target, log[i])
  }

  lemma PlanStarts(g: Graph, m: bool, u: StateId, target: StateId, r: PathResult)
    requires r.edges != [] && PlannedBy(g, m, u, target, r)
    ensures FirstOfPlan(g, m, u, target, r.edges[0])
  {
  }

  lemma PlanFollowed(g: Graph, m: bool, target: StateId, states: seq<StateId>, log: seq<StateEdge>, now: StateId, e: StateEdge)
    requires FollowsPlans(g, m, target, states, log) && |states| == |log| && FirstOfPlan(g, m, now, target, e)
    ensures FollowsPlans(g, m, target, states + [now], log) && FollowsPlans(g, m, target, states + [now], log + [e])
  {
    hide FirstOfPlan;
  }

  lemma StillFollows(g: Graph, m: bool, target: StateId, states: seq<StateId>, log: seq<StateEdge>, now: StateId)
    requires FollowsPlans(g, m, target, states, log) && |states| == |log|
    ensures FollowsPlans(g, m, target, states + [now], log)
  {
    hide FirstOfPlan;
  }

  ghost predicate ResultMeans(g: Graph, actions: set<string>, target: StateId, m: bool, maxSteps: int,
                              detected: nat -> Option<StateId>, succeeds: nat -> bool,
                              r: NavigationResult, states: seq<StateId>, log: seq<StateEdge>)
  {
    match r
    case Arrived(finalState, stepsExecuted) =>
      && |states| == |log| + 1 && finalState == states[|log|] && stepsExecuted == |log| < maxSteps
      && Refines(g, finalState, target)
    case Undetected => detected(|log|).None?
    case NoPath(lastState) => !PlanExists(g, m, lastState, target) && detected(|log|) == Some(lastState)
    case NoAction(edge, lastState) =>
      && EdgeKey(edge.from, edge.to) !in actions && Permitted(g, m, edge)
      && edge.from == lastState && detected(|log|) == Some(lastState) && FirstOfPlan(g, m, lastState, target, edge)
    case NeedsManual(edge, lastState) =>
      && edge.manual && EdgeKey(edge.from, edge.to) in actions && Permitted(g, m, edge)
      && edge.from == lastState && detected(|log|) == Some(lastState) && FirstOfPlan(g, m, lastState, target, edge)
    case ActionThrew(edge) =>
      && !succeeds(|log|) && !edge.manual && EdgeKey(edge.from, edge.to) in actions && Permitted(g, m, edge)
      && detected(|log|) == Some(edge.from) && FirstOfPlan(g, m, edge.from, target, edge)
    case TooManySteps(lastDetected) => |log| >= maxSteps && lastDetected == detected(|log|)
  }

  /**
   * Drive the device to the target: detect, stop if there, plan, execute only the
   * first transition, and start over, for at most `maxSteps` transitions.
   */
  method Navigate(g: Graph, actions: set<string>, target: StateId, includeManual: bool, maxSteps: int,
                  detected: nat -> Option<StateId>, succeeds: nat -> bool)
      returns (r: NavigationResult, states: seq<StateId>, log: seq<StateEdge>, ghost costs: seq<real>)
    requires WellFormed(g)
    ensures IsTrace(g, includeManual, actions, target, detected, states, log)
    ensures ResultMeans(g, actions, target, includeManual, maxSteps, detected, succeeds, r, states, log)
    ensures FollowsPlans(g, includeManual, target, states, log)
    ensures Navigated(g, actions, target, includeManual, maxSteps, detected, succeeds, r, states, log, costs)
  {
    hide ThereAt, PlannedBy, FirstOfPlan, FollowsPlans;
    hide IsCheapestPlan, IsPlan, Refines, WellFormed, PlanExists, Converges, Remaining;
    hide ConvergesTo, OnCourse, IsTrace, Promising, Honest, Permitted, NonNegativeCosts;
    var stepsExecuted := 0;
    states, log, costs := [], [], [];
    Starts(g, includeManual, actions, target, detected);
    assert FollowsPlans(g, includeManual, target, states, log) by { NothingExecuted(g, includeManual, target); }
    while stepsExecuted < maxSteps
      invariant stepsExecuted == |log| == |states| && (0 <= maxSteps ==> |log| <= maxSteps)
      invariant maxSteps < 0 ==> |log| == 0
      invariant IsTrace(g, includeManual, actions, target, detected, states, log)
      invariant FollowsPlans(g, includeManual, target, states, log)
      invariant Promising(g, includeManual, actions, target, detected) && Honest(detected, succeeds, log) ==>
                  OnCourse(g, includeManual, target, detected, states, log, costs)
      decreases maxSteps - stepsExecuted
    {
      var detection := detected(stepsExecuted);
      if Promising(g, includeManual, actions, target, detected) && Honest(detected, succeeds, log) {
        NothingFails(g, includeManual, actions, target, detected, succeeds, states, log, costs);
      }
      if detection.None? {
        return Undetected, states, log, costs;
      }
      var currentState := detection.value;
      var states' := states + [currentState];
      TraceDetected(g, includeManual, actions, target, detected, states, log, currentState);
      StillFollows(g, includeManual, target, states, log, currentState);
      var there := IsAtTarget(g, currentState, target);
      if there {
        if Promising(g, includeManual, actions, target, detected) && Honest(detected, succeeds, log) {
          RunArrives(g, includeManual, target, detected, maxSteps, states, log, costs, currentState);
          assert ThereAt(g, target, detected, stepsExecuted) by { IsThere(g, target, detected, stepsExecuted); }
          costs := costs + [0.0];
        }
        return Arrived(currentState, stepsExecuted), states', log, costs;
      }
      var path := FindPath(g, currentState, target, includeManual);
      if path.None? {
        return NoPath(currentState), states', log, costs;
      }
      PlanLeaves(g, includeManual, currentState, target, path.value);
      var edge := path.value.edges[0];
      assert PlannedBy(g, includeManual, currentState, target, path.value) by {
        IsPlanned(g, includeManual, currentState, target, path.value);
      }
      PlanStarts(g, includeManual, currentState, target, path.value);
      PlanFollowed(g, includeManual, target, states, log, currentState, edge);
      if EdgeKey(edge.from, edge.to) !in actions {
        return NoAction(edge, currentState), states', log, costs;
      }
      if edge.manual {
        return NeedsManual(edge, currentState), states', log, costs;
      }
      if !succeeds(stepsExecuted) {
        return ActionThrew(edge), states', log, costs;
      }
      if Promising(g, includeManual, actions, target, detected) && Honest(detected, succeeds, log + [edge]) {
        HonestPrefix(detected, succeeds, log, edge);
        PromisingCosts(g, includeManual, actions, target, detected);
        OnCourseContinues(g, includeManual, target, detected, states, log, costs, currentState, path.value);
      }
      TraceExecuted(g, includeManual, actions, target, detected, states', log, edge);
      costs := costs + [path.value.totalCost];
      log := log + [edge];
      states := states';
      stepsExecuted := stepsExecuted + 1;
    }
    if Promising(g, includeManual, actions, target, detected) && Honest(detected, succeeds, log) {
      RunGivesUp(g, includeManual, actions, target, detected, maxSteps, states, log, costs);
      NeverThere(g, includeManual, actions, target, detected, states, log);
    }
    return TooManySteps(detected(stepsExecuted)), states, log, costs;
  }

  lemma IsPlanned(g: Graph, m: bool, u: StateId, target: StateId, r: PathResult)
    requires IsPlan(g, m, u, target, r) && (NonNegativeCosts(g) ==> IsCheapestPlan(g, m, u, target, r))
    ensures PlannedBy(g, m, u, target, r)
  {
  }

  lemma NothingExecuted(g: Graph, m: bool, target: StateId)
    ensures FollowsPlans(g, m, target, [], [])
  {
  }

  lemma Starts(g: Graph, m: bool, actions: set<string>, target: StateId, detected: nat -> Option<StateId>)
    ensures IsTrace(g, m, actions, target, detected, [], [])
    ensures Promising(g, m, actions, target, detected) ==> OnCourse(g, m, target, detected, [], [], [])
  {
  }

  lemma TraceDetected(g: Graph, m: bool, actions: set<string>, target: StateId, detected: nat -> Option<StateId>,
                      states: seq<StateId>, log: seq<StateEdge>, now: StateId)
    requires IsTrace(g, m, actions, target, detected, states, log) && |states| == |log|
    requires detected(|log|) == Some(now)
    ensures IsTrace(g, m, actions, target, detected, states + [now], log)
  {
  }

  lemma TraceExecuted(g: Graph, m: bool, actions: set<string>, target: StateId, detected: nat -> Option<StateId>,
                      states: seq<StateId>, log: seq<StateEdge>, e: StateEdge)
    requires IsTrace(g, m, actions, target, detected, states, log) && |states| == |log| + 1
    requires e.from == states[|log|] && Permitted(g, m, e) && !e.manual
    requires EdgeKey(e.from, e.to) in actions && !Refines(g, states[|log|], target)
    ensures IsTrace(g, m, actions, target, detected, states, log + [e])
  {
  }

  lemma PromisingCosts(g: Graph, m: bool, actions: set<string>, target: StateId, detected: nat -> Option<StateId>)
    requires Promising(g, m, actions, target, detected)
    ensures PositiveCosts(g) && NonNegativeCosts(g)
  {
  }

  /** On an honest run none of the loop's failure exits can be taken. */
  lemma NothingFails(g: Graph, m: bool, actions: set<string>, target: StateId, detected: nat -> Option<StateId>,
                     succeeds: nat -> bool, states: seq<StateId>, log: seq<StateEdge>, costs: seq<real>)
    requires Promising(g, m, actions, target, detected) && Honest(detected, succeeds, log)
    requires OnCourse(g, m, target, detected, states, log, costs)
    ensures detected(|log|).Some? && PlanExists(g, m, detected(|log|).value, target) && succeeds(|log|)
    ensures forall e | Permitted(g, m, e) :: !e.manual && EdgeKey(e.from, e.to) in actions
  {
    hide PlanExists, Permitted;
  }

  lemma RunArrives(g: Graph, m: bool, target: StateId, detected: nat -> Option<StateId>, maxSteps: int,
                   states: seq<StateId>, log: seq<StateEdge>, costs: seq<real>, now: StateId)
    requires OnCourse(g, m, target, detected, states, log, costs) && |states| == |log| < maxSteps
    requires detected(|log|) == Some(now) && Refines(g, now, target)
    ensures ConvergesTo(g, m, target, maxSteps, Arrived(now, |log|), states + [now], log, costs + [0.0])
  {
    hide Remaining, Refines, Converges;
    var states', costs' := states + [now], costs + [0.0];
    OnCourseArrives(g, m, target, detected, states, log, costs, now);
    PaidAtMost(g, m, target, states', log, costs', |log|);
    assert log[..|log|] == log && costs'[|log|] == 0.0;
    NoStateRepeats(g, m, target, states', log, costs');
  }

  lemma RunGivesUp(g: Graph, m: bool, actions: set<string>, target: StateId, detected: nat -> Option<StateId>,
                   maxSteps: int, states: seq<StateId>, log: seq<StateEdge>, costs: seq<real>)
    requires WellFormed(g) && Promising(g, m, actions, target, detected)
    requires IsTrace(g, m, actions, target, detected, states, log)
    requires OnCourse(g, m, target, detected, states, log, costs) && maxSteps <= |log| == |states|
    ensures forall last :: ConvergesTo(g, m, target, maxSteps, TooManySteps(last), states, log, costs)
  {
    hide Remaining, Refines, Converges, WellFormed, PlanExists, Permitted;
    ConvergingRunIsShort(g, m, target, states, log, costs, detected(0).value);
    NoStateRepeats(g, m, target, states, log, costs);
    assert OnCourse(g, m, target, detected, states, log, costs);
    CostsMatchStates(g, m, target, states, log, costs);
    if log != [] {
      PaidAtMost(g, m, target, states, log, costs, |log| - 1);
    }
  }

  /** Between iterations of an honest run: converging, and a plan exists from where the device is now. */
  ghost predicate OnCourse(g: Graph, m: bool, target: StateId, detected: nat -> Option<StateId>,
                           states: seq<StateId>, log: seq<StateEdge>, costs: seq<real>)
  {
    && Converges(g, m, target, states, log, costs)
    && |states| == |log|
    && detected(|log|).Some?
    && var now := detected(|log|).value;
       && PlanExists(g, m, now, target)
       && (|log| > 0 ==> forall c | Remaining(g, m, now, target, c) :: c <= costs[|log| - 1] - log[|log| - 1].cost)
       && (|log| > 0 ==> 0.0 < log[|log| - 1].cost <= costs[|log| - 1])
  }

  lemma HonestPrefix(detected: nat -> Option<StateId>, succeeds: nat -> bool, log: seq<StateEdge>, e: StateEdge)
    requires Honest(detected, succeeds, log + [e])
    ensures Honest(detected, succeeds, log) && detected(|log| + 1) == Some(e.to)
  {
    assert (log + [e])[|log|] == e;
    forall t: nat | t < |log| ensures detected(t + 1) == Some(log[t].to) {
      assert (log + [e])[t] == log[t];
    }
  }

  lemma PlanLeaves(g: Graph, m: bool, u: StateId, target: StateId, r: PathResult)
    requires IsPlan(g, m, u, target, r) && !Refines(g, u, target)
    ensures r.edges != [] && r.edges[0].from == u && Permitted(g, m, r.edges[0])
  {
    if r.edges != [] {
      PathTail(g, m, u, r.edges, EndOf(u, r.edges));
    }
  }

  lemma ConvergesExtended(g: Graph, m: bool, target: StateId, states: seq<StateId>, log: seq<StateEdge>,
                          costs: seq<real>, now: StateId, c: real)
    requires Converges(g, m, target, states, log, costs) && |states| == |log|
    requires now in g.nodes && Remaining(g, m, now, target, c)
    requires |log| > 0 ==> c <= costs[|log| - 1] - log[|log| - 1].cost && log[|log| - 1].cost > 0.0
    ensures Converges(g, m, target, states + [now], log, costs + [c])
  {
    hide Remaining;
    var costs' := costs + [c];
    forall i, j | 0 <= i < j < |costs'| ensures costs'[j] < costs'[i] {
      if j == |costs| {
        assert i < |log| && costs[|log| - 1] <= costs[i];
      }
    }
    forall i | 0 <= i < |states + [now]|
      ensures (states + [now])[i] in g.nodes && Remaining(g, m, (states + [now])[i], target, costs'[i])
    {
      if i < |states| {
        assert (states + [now])[i] == states[i] && costs'[i] == costs[i];
      }
    }
  }

  lemma ConvergesPending(g: Graph, m: bool, target: StateId, states: seq<StateId>, log: seq<StateEdge>,
                         costs: seq<real>, e: StateEdge)
    requires Converges(g, m, target, states, log, costs) && |states| == |log| + 1
    ensures Converges(g, m, target, states, log + [e], costs)
  {
    hide Remaining;
    forall i | 0 <= i < |log + [e]| && i + 1 < |costs| ensures costs[i + 1] <= costs[i] - (log + [e])[i].cost {
      assert (log + [e])[i] == log[i];
    }
  }

  lemma OnCourseArrives(g: Graph, m: bool, target: StateId, detected: nat -> Option<StateId>,
                        states: seq<StateId>, log: seq<StateEdge>, costs: seq<real>, now: StateId)
    requires OnCourse(g, m, target, detected, states, log, costs)
    requires detected(|log|) == Some(now) && Refines(g, now, target)
    ensures |costs| == |log| && Converges(g, m, target, states + [now], log, costs + [0.0])
  {
    hide IsCheapestPlan, Refines, Converges;
    AlreadyThere(g, m, now, target);
    CostsMatchStates(g, m, target, states, log, costs);
    assert IsCheapestPlan(g, m, now, target, PathResult([], 0.0, false));
    assert Remaining(g, m, now, target, 0.0);
    ConvergesExtended(g, m, target, states, log, costs, now, 0.0);
  }

  lemma CostsMatchStates(g: Graph, m: bool, target: StateId, states: seq<StateId>, log: seq<StateEdge>,
                         costs: seq<real>)
    requires Converges(g, m, target, states, log, costs)
    ensures |costs| == |states|
  {
  }

  lemma OnCourseContinues(g: Graph, m: bool, target: StateId, detected: nat -> Option<StateId>,
                          states: seq<StateId>, log: seq<StateEdge>, costs: seq<real>, now: StateId, r: PathResult)
    requires WellFormed(g) && PositiveCosts(g)
    requires OnCourse(g, m, target, detected, states, log, costs)
    requires detected(|log|) == Some(now) && !Refines(g, now, target) && IsCheapestPlan(g, m, now, target, r)
    requires r.edges != [] && detected(|log| + 1) == Some(r.edges[0].to)
    ensures OnCourse(g, m, target, detected, states + [now], log + [r.edges[0]], costs + [r.totalCost])
  {
    hide IsCheapestPlan, Refines, WellFormed, PlanExists, Converges;
    var e := r.edges[0];
    assert Remaining(g, m, now, target, r.totalCost);
    RemainingHere(g, m, target, detected, states, log, costs, now, r.totalCost);
    StepPaysOff(g, m, now, target, r, 0.0);
    ConvergesExtended(g, m, target, states, log, costs, now, r.totalCost);
    ConvergesPending(g, m, target, states + [now], log, costs + [r.totalCost], e);
    forall c | Remaining(g, m, e.to, target, c) ensures c <= r.totalCost - e.cost {
      StepPaysOff(g, m, now, target, r, c);
    }
  }

  lemma RemainingHere(g: Graph, m: bool, target: StateId, detected: nat -> Option<StateId>, states: seq<StateId>,
                      log: seq<StateEdge>, costs: seq<real>, now: StateId, c: real)
    requires OnCourse(g, m, target, detected, states, log, costs) && detected(|log|) == Some(now)
    requires Remaining(g, m, now, target, c)
    ensures now in g.nodes && target in g.nodes && |costs| == |log|
    ensures |log| > 0 ==> c <= costs[|log| - 1] - log[|log| - 1].cost && log[|log| - 1].cost > 0.0
  {
    hide Remaining, Refines;
  }
}
