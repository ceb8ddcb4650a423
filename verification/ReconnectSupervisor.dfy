/**
 * Reconnect loops of one modem, one per adapter, interleaved step by step with
 * disconnects, the modem being marked closed, and shutdown. When closing quiesces
 * them, and when a reported failure means that all attempts were made, is proved
 * exactly.
 */
module ReconnectSupervisor {
  import opened Wrappers
  import opened ReconnectLoop
  import opened Prefixes

  type Adapter = nat

  datatype Loop = Loop(adapter: Adapter, state: LoopState, aborted: bool)

  datatype Action =
    | FirstDisconnect
    | ReopenStarted(id: nat)
    | ReconnectCalled(id: nat, adapter: Adapter)
    | FailedCalled(id: nat, adapter: Adapter, attempts: nat)
    | MarkedClosed

  /**
   * `loops` is the supervisor's own map, `live` every loop whose promise is pending:
   * one that has ended stays live until its `finally` has run. A shutdown in progress
   * is the set of loops it waits for; a finished one is None.
   */
  datatype Sup = Sup(
    closed: bool,
    loops: map<Adapter, nat>,
    live: map<nat, Loop>,
    next: nat,
    shutdowns: seq<Option<set<nat>>>,
    trace: seq<Action>)

  datatype Event =
    | Disconnected(adapter: Adapter, u: real)
    | AwaitSettles(id: nat, ok: bool, u: real)
    | MarkClosed
    | ShutdownCalled
    | ShutdownReturns(k: nat)

  // -- Steps -------------------------------------------------------------------------

  function ActionOf(id: nat, a: Adapter, st: LoopState): seq<Action> {
    match st
    case Reopening(_) => [ReopenStarted(id)]
    case Ended(_, Reconnected) => [ReconnectCalled(id, a)]
    case Ended(n, Failed) => [FailedCalled(id, a, n)]
    case _ => []
  }

  /** The loop runs up to its first sleep; with no attempts allowed it fails at once. */
  function Start(c: Config, s: Sup, a: Adapter, u: real): Sup {
    if s.closed || a in s.loops then s
    else
      var st := Round(c, 0, false, u);
      s.(next := s.next + 1, live := s.live[s.next := Loop(a, st, false)], loops := s.loops[a := s.next],
         trace := s.trace + ActionOf(s.next, a, st) + if s.loops == map[] then [FirstDisconnect] else [])
  }

  /** A sleep is cut short exactly when its loop was aborted. */
  function StateAfter(c: Config, s: Sup, l: Loop, ok: bool, u: real): LoopState {
    Next(c, l.state, if l.state.Sleeping? then !l.aborted else ok, s.closed, u)
  }

  /** A pending await of a loop settles; for one that has ended, that is its `finally`. */
  function Settles(c: Config, s: Sup, id: nat, ok: bool, u: real): Sup {
    if id !in s.live then s
    else
      var l := s.live[id];
      if l.state.Ended? then s.(live := s.live - {id}, loops := s.loops - {l.adapter})
      else
        var st := StateAfter(c, s, l, ok, u);
        s.(trace := s.trace + ActionOf(id, l.adapter, st), live := s.live[id := l.(state := st)])
  }

  function InFlight(s: Sup): set<nat> {
    set a | a in s.loops :: s.loops[a]
  }

  function BeginShutdown(s: Sup): Sup {
    s.(live := map id | id in s.live :: if id in InFlight(s) then s.live[id].(aborted := true) else s.live[id],
       shutdowns := s.shutdowns + [Some(InFlight(s))])
  }

  function CanReturn(s: Sup, k: nat): bool {
    k < |s.shutdowns| && s.shutdowns[k].Some? && s.shutdowns[k].value !! s.live.Keys
  }

  function SupStep(c: Config, s: Sup, e: Event): Sup {
    match e
    case Disconnected(a, u) => Start(c, s, a, u)
    case AwaitSettles(id, ok, u) => Settles(c, s, id, ok, u)
    case MarkClosed => if s.closed then s else s.(closed := true, trace := s.trace + [MarkedClosed])
    case ShutdownCalled => BeginShutdown(s)
    case ShutdownReturns(k) => if CanReturn(s, k) then s.(loops := map[], shutdowns := s.shutdowns[k := None]) else s
  }

  function RunAll(c: Config, events: seq<Event>): Sup {
    if events == [] then Sup(false, map[], map[], 0, [], [])
    else SupStep(c, RunAll(c, events[..|events| - 1]), events[|events| - 1])
  }

  lemma RunAppend(c: Config, events: seq<Event>, e: Event)
    ensures RunAll(c, events + [e]) == SupStep(c, RunAll(c, events), e)
  {
    assert (events + [e])[..|events|] == events;
  }

  // -- Every run ---------------------------------------------------------------------

  function Reopens(trace: seq<Action>, id: nat): nat {
    if trace == [] then 0
    else Reopens(trace[..|trace| - 1], id) + if trace[|trace| - 1] == ReopenStarted(id) then 1 else 0
  }

  predicate Reports(x: Action, id: nat) {
    (x.ReconnectCalled? || x.FailedCalled?) && x.id == id
  }

  function Endings(trace: seq<Action>, id: nat): nat {
    if trace == [] then 0
    else Endings(trace[..|trace| - 1], id) + if Reports(trace[|trace| - 1], id) then 1 else 0
  }

  lemma CountsAppend(trace: seq<Action>, x: Action, id: nat)
    ensures Reopens(trace + [x], id) == Reopens(trace, id) + if x == ReopenStarted(id) then 1 else 0
    ensures Endings(trace + [x], id) == Endings(trace, id) + if Reports(x, id) then 1 else 0
  {
    assert (trace + [x])[..|trace|] == trace;
  }

  /** What one more action does to the counts of a loop. */
  lemma CountsMore(trace: seq<Action>, more: seq<Action>, id: nat)
    requires |more| <= 1
    ensures Reopens(trace + more, id) == Reopens(trace, id) + if more == [ReopenStarted(id)] then 1 else 0
    ensures Endings(trace + more, id) == Endings(trace, id) + if more != [] && Reports(more[0], id) then 1 else 0
  {
    if more == [] {
      assert trace + more == trace;
    } else {
      assert more == [more[0]];
      CountsAppend(trace, more[0], id);
    }
  }

  predicate LoopOk(c: Config, l: Loop) {
    l.state.attempts <= Max0(c.maxAttempts) && (l.state.Sleeping? ==> l.state.attempts < c.maxAttempts)
  }

  /** Whether the loop has reported how it ended. */
  predicate Reported(st: LoopState) {
    st.Ended? && st.ending != Silent
  }

  predicate Counted(c: Config, s: Sup, id: nat) {
    && Reopens(s.trace, id) <= Max0(c.maxAttempts) && Endings(s.trace, id) <= 1
    && (id in s.live ==>
          && LoopOk(c, s.live[id]) && Reopens(s.trace, id) == s.live[id].state.attempts
          && Endings(s.trace, id) == if Reported(s.live[id].state) then 1 else 0)
    && (id >= s.next ==> id !in s.live && Reopens(s.trace, id) == 0 && Endings(s.trace, id) == 0)
  }

  /** Every entry of the map is a live loop of its adapter. */
  ghost predicate Entries(s: Sup) {
    forall a | a in s.loops :: s.loops[a] in s.live && s.live[s.loops[a]].adapter == a
  }

  ghost predicate RunInv(c: Config, s: Sup) {
    && (s.closed ==> s.trace != [] && s.trace[|s.trace| - 1] == MarkedClosed)
    && (forall id: nat :: Counted(c, s, id))
    && Entries(s)
  }

  lemma StartCounts(c: Config, s: Sup, a: Adapter, u: real)
    requires RunInv(c, s)
    ensures RunInv(c, Start(c, s, a, u))
  {
    hide Delay, Reopens, Endings;
    assert Counted(c, s, s.next);
    if !s.closed && a !in s.loops {
      forall id: nat ensures Counted(c, Start(c, s, a, u), id) {
        assert Counted(c, s, id);
        var own := ActionOf(s.next, a, Round(c, 0, false, u));
        CountsMore(s.trace, own, id);
        CountsMore(s.trace + own, if s.loops == map[] then [FirstDisconnect] else [], id);
      }
    }
  }

  lemma SettlesCounts(c: Config, s: Sup, id: nat, ok: bool, u: real)
    requires RunInv(c, s)
    ensures RunInv(c, Settles(c, s, id, ok, u))
    ensures s.closed ==> Settles(c, s, id, ok, u).trace == s.trace
  {
    hide Delay, Reopens, Endings;
    if id in s.live {
      assert Counted(c, s, id);
      var l := s.live[id];
      var acts := if l.state.Ended? then [] else ActionOf(id, l.adapter, StateAfter(c, s, l, ok, u));
      assert Settles(c, s, id, ok, u).trace == s.trace + acts;
      forall x: nat ensures Counted(c, Settles(c, s, id, ok, u), x) {
        assert Counted(c, s, x);
        CountsMore(s.trace, acts, x);
      }
    }
  }

  lemma OtherStepCounts(c: Config, s: Sup, e: Event)
    requires RunInv(c, s) && (e.MarkClosed? || e.ShutdownCalled? || e.ShutdownReturns?)
    ensures RunInv(c, SupStep(c, s, e))
  {
    hide Delay, Reopens, Endings;
    forall id: nat ensures Counted(c, SupStep(c, s, e), id) {
      assert Counted(c, s, id);
      CountsMore(s.trace, [MarkedClosed], id);
    }
  }

  lemma SupStepCounts(c: Config, s: Sup, e: Event)
    requires RunInv(c, s)
    ensures RunInv(c, SupStep(c, s, e))
    ensures s.closed ==> SupStep(c, s, e).closed && SupStep(c, s, e).trace == s.trace
  {
    hide RunInv;
    match e
    case Disconnected(a, u) => StartCounts(c, s, a, u);
    case AwaitSettles(id, ok, u) => SettlesCounts(c, s, id, ok, u);
    case _ => OtherStepCounts(c, s, e);
  }

  lemma {:induction false} RunCounts(c: Config, events: seq<Event>)
    ensures RunInv(c, RunAll(c, events))
  {
    if events == [] {
      assert forall id: nat :: Counted(c, RunAll(c, events), id);
    } else {
      RunCounts(c, events[..|events| - 1]);
      SupStepCounts(c, RunAll(c, events[..|events| - 1]), events[|events| - 1]);
    }
  }

  // -- Where each callback comes from -----------------------------------------------------

  /** The await of loop `id` settles while the modem is open. */
  predicate Moves(s: Sup, e: Event, id: nat) {
    e.AwaitSettles? && e.id == id && id in s.live && !s.closed
  }

  predicate Begins(s: Sup, e: Event) {
    e.Disconnected? && !s.closed && e.adapter !in s.loops
  }

  /** What one event adds to the trace. */
  function Said(c: Config, s: Sup, e: Event): seq<Action> {
    SupStep(c, s, e).trace[|s.trace|..]
  }

  lemma TraceGrows(c: Config, s: Sup, e: Event)
    ensures s.trace <= SupStep(c, s, e).trace
  {
  }

  /** When each callback that names loop `id`, adapter `a` and `n` attempts is among those made. */
  predicate CallsBack(c: Config, s: Sup, e: Event, said: seq<Action>, id: nat, a: Adapter, n: nat) {
    && (ReopenStarted(id) in said <==> Moves(s, e, id) && s.live[id].state.Sleeping? && !s.live[id].aborted)
    && (ReconnectCalled(id, a) in said <==>
          Moves(s, e, id) && s.live[id].adapter == a && s.live[id].state.Initializing? && e.ok)
    && (FailedCalled(id, a, n) in said <==>
          || (Begins(s, e) && e.adapter == a && id == s.next && n == 0 >= c.maxAttempts)
          || (Moves(s, e, id) && s.live[id].adapter == a && s.live[id].state.attempts == n && GivesUp(c, s.live[id], e.ok)))
    && (FirstDisconnect in said <==> Begins(s, e) && s.loops == map[])
  }

  /** Its sleep was aborted, or the last attempt allowed has just failed. */
  predicate GivesUp(c: Config, l: Loop, ok: bool) {
    || (l.state.Sleeping? && l.aborted)
    || ((l.state.Reopening? || l.state.Initializing?) && !ok && l.state.attempts >= c.maxAttempts)
  }

  /**
   * At any point of any run: a reopen starts exactly when a sleep that was not aborted
   * ends; a reconnection is announced exactly when an init succeeds; a failure exactly when
   * a sleep is aborted, when the last permitted attempt fails, or at once when none is
   * permitted; and the first disconnect exactly when a loop begins with none in the map.
   * All of these only while the modem is open.
   */
  lemma SaidExactly(c: Config, events: seq<Event>, e: Event, id: nat, a: Adapter, n: nat)
    ensures var s := RunAll(c, events);
            && RunAll(c, events + [e]).trace == s.trace + Said(c, s, e)
            && CallsBack(c, s, e, Said(c, s, e), id, a, n)
  {
    var s := RunAll(c, events);
    RunAppend(c, events, e);
    hide RunAll, Delay, CallsBack;
    TraceGrows(c, s, e);
    match e
    case Disconnected(x, u) => BeginSays(c, s, x, u, id, a, n);
    case AwaitSettles(i, ok, u) => SettleSays(c, s, i, ok, u, id, a, n);
    case _ => OtherSays(c, s, e, id, a, n);
  }

  lemma BeginSays(c: Config, s: Sup, x: Adapter, u: real, id: nat, a: Adapter, n: nat)
    ensures CallsBack(c, s, Disconnected(x, u), Said(c, s, Disconnected(x, u)), id, a, n)
  {
    hide Moves, Said;
    OnlyAwaitsMove(s, Disconnected(x, u), id);
    BeginningSays(c, s, x, u, ReopenStarted(id));
    BeginningSays(c, s, x, u, ReconnectCalled(id, a));
    BeginningSays(c, s, x, u, FailedCalled(id, a, n));
    BeginningSays(c, s, x, u, FirstDisconnect);
  }

  lemma BeginningSays(c: Config, s: Sup, x: Adapter, u: real, call: Action)
    ensures call in Said(c, s, Disconnected(x, u)) <==>
              && Begins(s, Disconnected(x, u))
              && ((c.maxAttempts <= 0 && call == FailedCalled(s.next, x, 0)) || (s.loops == map[] && call == FirstDisconnect))
  {
    hide Delay;
    var own := ActionOf(s.next, x, Round(c, 0, false, u));
    var first := if s.loops == map[] then [FirstDisconnect] else [];
    if Begins(s, Disconnected(x, u)) {
      assert Said(c, s, Disconnected(x, u)) == own + first;
    } else {
      assert Said(c, s, Disconnected(x, u)) == [];
    }
  }

  lemma OnlyAwaitsMove(s: Sup, e: Event, id: nat)
    ensures Moves(s, e, id) ==> e.AwaitSettles?
  {
  }

  lemma SettleSays(c: Config, s: Sup, i: nat, ok: bool, u: real, id: nat, a: Adapter, n: nat)
    ensures CallsBack(c, s, AwaitSettles(i, ok, u), Said(c, s, AwaitSettles(i, ok, u)), id, a, n)
  {
    hide Delay;
    var e := AwaitSettles(i, ok, u);
    if i in s.live && !s.live[i].state.Ended? {
      assert Said(c, s, e) == ActionOf(i, s.live[i].adapter, StateAfter(c, s, s.live[i], ok, u));
    } else {
      assert Said(c, s, e) == [];
    }
  }

  lemma OtherSays(c: Config, s: Sup, e: Event, id: nat, a: Adapter, n: nat)
    requires e.MarkClosed? || e.ShutdownCalled? || e.ShutdownReturns?
    ensures CallsBack(c, s, e, Said(c, s, e), id, a, n)
  {
    assert Said(c, s, e) == [] || Said(c, s, e) == [MarkedClosed];
  }

  /** From the moment the modem is marked closed nothing is reopened and no callback fires. */
  lemma {:induction false} NothingAfterClosing(c: Config, events: seq<Event>, more: seq<Event>)
    requires RunAll(c, events).closed
    ensures RunAll(c, events + more).closed && RunAll(c, events + more).trace == RunAll(c, events).trace
  {
    if more == [] {
      assert events + more == events;
    } else {
      var n := |more| - 1;
      NothingAfterClosing(c, events, more[..n]);
      assert (events + more)[..|events + more| - 1] == events + more[..n];
      RunCounts(c, events + more[..n]);
      SupStepCounts(c, RunAll(c, events + more[..n]), more[n]);
    }
  }

  /** Each loop makes at most `maxAttempts` reopens and reports at most one ending. */
  lemma EachLoopIsBounded(c: Config, events: seq<Event>, id: nat)
    ensures Reopens(RunAll(c, events).trace, id) <= Max0(c.maxAttempts)
    ensures Endings(RunAll(c, events).trace, id) <= 1
  {
    RunCounts(c, events);
    assert Counted(c, RunAll(c, events), id);
  }

  // -- Loops the supervisor knows --------------------------------------------------------

  /** Every loop that is running is in the map. */
  ghost predicate Known(s: Sup) {
    forall id | id in s.live :: id in InFlight(s)
  }

  /** A shutdown that returns clears the map; that loses whatever is running then. */
  predicate LosesLoops(s: Sup, e: Event) {
    e.ShutdownReturns? && CanReturn(s, e.k) && s.live != map[]
  }

  lemma StepKnows(c: Config, s: Sup, e: Event)
    requires Entries(s) && Known(s)
    ensures Known(SupStep(c, s, e)) <==> !LosesLoops(s, e)
  {
    hide Delay, Next, Round, ActionOf;
    var s' := SupStep(c, s, e);
    assert forall id | id in s.live :: s.live[id].adapter in s.loops && s.loops[s.live[id].adapter] == id;
    if LosesLoops(s, e) {
      var id :| id in s.live;
      assert id in s'.live && InFlight(s') == {};
    } else if e.ShutdownReturns? && CanReturn(s, e.k) {
      assert s'.live == map[];
    } else {
      forall id | id in s'.live ensures id in InFlight(s') {
        assert s'.live[id].adapter in s'.loops && s'.loops[s'.live[id].adapter] == id;
      }
    }
  }

  ghost predicate AlwaysKnown(c: Config, events: seq<Event>) {
    AfterEvery(KnownAfter(c), events)
  }

  ghost function KnownAfter(c: Config): seq<Event> -> bool {
    events => Known(RunAll(c, events))
  }

  ghost predicate NeverLoses(c: Config, events: seq<Event>) {
    BeforeEach(LosesNone(c), events)
  }

  ghost function LosesNone(c: Config): (seq<Event>, Event) -> bool {
    (before, e) => !LosesLoops(RunAll(c, before), e)
  }

  /** The supervisor knows every loop throughout a run exactly when no shutdown returns while one is running. */
  lemma {:induction false} KnownExactly(c: Config, events: seq<Event>)
    ensures AlwaysKnown(c, events) <==> NeverLoses(c, events)
  {
    if events == [] {
      assert events[..0] == [];
    } else {
      var n := |events| - 1;
      KnownExactly(c, events[..n]);
      AfterEveryByStep(KnownAfter(c), events);
      BeforeEachByStep(LosesNone(c), events);
      RunCounts(c, events[..n]);
      hide AfterEvery, BeforeEach, Known, LosesLoops, SupStep;
      if AlwaysKnown(c, events[..n]) {
        StepKnows(c, RunAll(c, events[..n]), events[n]);
      }
    }
  }

  /** As long as it does, there is at most one loop per adapter. */
  lemma OneLoopPerAdapter(c: Config, events: seq<Event>, i: nat, j: nat)
    requires Known(RunAll(c, events)) && i in RunAll(c, events).live && j in RunAll(c, events).live
    requires RunAll(c, events).live[i].adapter == RunAll(c, events).live[j].adapter
    ensures i == j
  {
    RunCounts(c, events);
  }

  /** Shutdown is only called on a modem already marked closed. */
  ghost predicate ClosesFirst(c: Config, events: seq<Event>) {
    forall k | 0 <= k < |events| && events[k].ShutdownCalled? :: RunAll(c, events[..k]).closed
  }

  /** What closing first keeps: every shutdown still waits for every loop, and only aborts on a closed modem. */
  ghost predicate Orderly(s: Sup) {
    && Known(s)
    && (s.shutdowns != [] ==> s.closed)
    && (forall k, id | 0 <= k < |s.shutdowns| && id in s.live :: s.shutdowns[k].Some? && id in s.shutdowns[k].value)
    && (forall id | id in s.live && s.live[id].aborted :: s.closed)
  }

  lemma OrderlyLosesNothing(s: Sup, e: Event)
    requires Orderly(s)
    ensures !LosesLoops(s, e)
  {
    assert s.live == map[] || exists id :: id in s.live;
  }

  lemma StepIsOrderly(c: Config, s: Sup, e: Event)
    requires Entries(s) && Orderly(s) && (e.ShutdownCalled? ==> s.closed)
    ensures Orderly(SupStep(c, s, e))
  {
    OrderlyLosesNothing(s, e);
    StepKnows(c, s, e);
    hide Known, Delay, Next, Round, ActionOf, Entries;
    if e.ShutdownCalled? {
      assert forall id | id in s.live :: id in InFlight(s) by { KnownMeans(s); }
    }
  }

  lemma KnownMeans(s: Sup)
    requires Known(s)
    ensures forall id | id in s.live :: id in InFlight(s)
  {
  }

  lemma {:induction false} ClosingFirstIsOrderly(c: Config, events: seq<Event>)
    requires ClosesFirst(c, events)
    ensures Orderly(RunAll(c, events))
  {
    if events != [] {
      var n := |events| - 1;
      assert ClosesFirst(c, events[..n]) by {
        forall k | 0 <= k < n && events[..n][k].ShutdownCalled? ensures RunAll(c, events[..n][..k]).closed {
          assert events[..n][..k] == events[..k] && events[..n][k] == events[k];
        }
      }
      ClosingFirstIsOrderly(c, events[..n]);
      RunCounts(c, events[..n]);
      hide Orderly, SupStep;
      StepIsOrderly(c, RunAll(c, events[..n]), events[n]);
    }
  }

  // -- Shutdown ----------------------------------------------------------------------

  /** The k-th shutdown of a closed modem either still waits for all that is running, or nothing is. */
  ghost predicate Waits(s: Sup, k: nat, inflight: set<nat>) {
    && s.closed && k < |s.shutdowns| && s.live.Keys <= inflight
    && (s.shutdowns[k] == Some(inflight) || (s.shutdowns[k].None? && s.live.Keys == {}))
  }

  lemma StepWaits(c: Config, s: Sup, e: Event, k: nat, inflight: set<nat>)
    requires Waits(s, k, inflight)
    ensures Waits(SupStep(c, s, e), k, inflight)
  {
    hide Delay, Next, Round, ActionOf;
    assert SupStep(c, s, e).live.Keys <= s.live.Keys;
  }

  lemma {:induction false} RunWaits(c: Config, events: seq<Event>, more: seq<Event>, k: nat, inflight: set<nat>)
    requires Waits(RunAll(c, events), k, inflight)
    ensures Waits(RunAll(c, events + more), k, inflight)
  {
    if more == [] {
      assert events + more == events;
    } else {
      var n := |more| - 1;
      RunWaits(c, events, more[..n], k, inflight);
      assert events + more == events + more[..n] + [more[n]];
      RunAppend(c, events + more[..n], more[n]);
      hide RunAll, SupStep, Waits;
      StepWaits(c, RunAll(c, events + more[..n]), more[n], k, inflight);
    }
  }

  /**
   * Once a shutdown of a closed modem whose loops are all known has returned, no loop
   * is running, so no reopen is in flight; and none ever starts or reports again.
   */
  lemma ShutdownQuiesces(c: Config, events: seq<Event>, more: seq<Event>)
    requires RunAll(c, events).closed && Known(RunAll(c, events))
    requires var k, s := |RunAll(c, events).shutdowns|, RunAll(c, events + [ShutdownCalled] + more);
             k < |s.shutdowns| && s.shutdowns[k].None?
    ensures var s := RunAll(c, events + [ShutdownCalled] + more);
            s.live == map[] && s.loops == map[] && s.trace == RunAll(c, events).trace
  {
    hide RunAll, SupStep;
    var s0, all := RunAll(c, events), events + [ShutdownCalled] + more;
    RunAppend(c, events, ShutdownCalled);
    BeginWaits(c, s0);
    RunWaits(c, events + [ShutdownCalled], more, |s0.shutdowns|, InFlight(s0));
    assert all == events + ([ShutdownCalled] + more);
    NothingAfterClosing(c, events, [ShutdownCalled] + more);
    RunCounts(c, all);
    assert RunAll(c, all).live.Keys == {};
  }

  lemma BeginWaits(c: Config, s: Sup)
    requires s.closed && Known(s)
    ensures Waits(SupStep(c, s, ShutdownCalled), |s.shutdowns|, InFlight(s))
  {
  }

  /** What a caller of shutdown relies on: when the call returns, no loop is running. */
  ghost predicate QuiescedOnReturn(c: Config, events: seq<Event>, more: seq<Event>) {
    var s := RunAll(c, events + [ShutdownCalled] + more);
    var k := |RunAll(c, events).shutdowns|;
    k < |s.shutdowns| && s.shutdowns[k].None? ==> s.live == map[]
  }

  /**
   * A shutdown can be relied on, whatever happens while it waits, exactly when the
   * modem was marked closed before the call and every loop running then is known.
   */
  lemma ShutdownQuiescesExactly(c: Config, events: seq<Event>)
    ensures (forall more :: QuiescedOnReturn(c, events, more))
            <==> RunAll(c, events).closed && Known(RunAll(c, events))
  {
    hide RunAll, SupStep, Known;
    if RunAll(c, events).closed && Known(RunAll(c, events)) {
      forall more ensures QuiescedOnReturn(c, events, more) {
        var k, s := |RunAll(c, events).shutdowns|, RunAll(c, events + [ShutdownCalled] + more);
        if k < |s.shutdowns| && s.shutdowns[k].None? {
          ShutdownQuiesces(c, events, more);
        }
      }
    } else {
      var more := Outlived(c, events);
      assert !QuiescedOnReturn(c, events, more);
    }
  }

  /** A shutdown is waiting, and every loop it waits for has been told to stop. */
  ghost predicate Draining(c: Config, s: Sup, k: nat, inflight: set<nat>) {
    && RunInv(c, s) && k < |s.shutdowns| && s.shutdowns[k] == Some(inflight)
    && (forall id | id in inflight :: id < s.next && (id in s.live ==> s.live[id].aborted))
  }

  /** How many awaits an aborted loop still has to settle, when they succeed. */
  function AwaitsLeft(st: LoopState): nat {
    match st
    case Ended(_, _) => 1
    case Sleeping(_, _) => 2
    case Initializing(_) => 2
    case Reopening(_) => 3
  }

  lemma SettleDrains(c: Config, s: Sup, k: nat, inflight: set<nat>, id: nat)
    requires Draining(c, s, k, inflight) && id in s.live && id in inflight
    ensures var s' := Settles(c, s, id, true, 0.0);
            && Draining(c, s', k, inflight) && s'.closed == s.closed
            && (if s.live[id].state.Ended? then s'.live.Keys == s.live.Keys - {id}
                else s'.live.Keys == s.live.Keys && AwaitsLeft(s'.live[id].state) < AwaitsLeft(s.live[id].state))
  {
    SettlesCounts(c, s, id, true, 0.0);
    hide RunInv, Delay, Round;
  }

  /** Its awaits settling, an aborted loop ends and leaves. */
  lemma {:induction false} DrainOne(c: Config, events: seq<Event>, k: nat, inflight: set<nat>, id: nat) returns (more: seq<Event>)
    requires Draining(c, RunAll(c, events), k, inflight) && id in RunAll(c, events).live && id in inflight
    ensures Draining(c, RunAll(c, events + more), k, inflight)
    ensures RunAll(c, events + more).closed == RunAll(c, events).closed
    ensures RunAll(c, events + more).live.Keys == RunAll(c, events).live.Keys - {id}
    decreases AwaitsLeft(RunAll(c, events).live[id].state)
  {
    hide Draining, Settles, RunAll;
    var e := AwaitSettles(id, true, 0.0);
    RunAppend(c, events, e);
    SettleDrains(c, RunAll(c, events), k, inflight, id);
    if RunAll(c, events).live[id].state.Ended? {
      more := [e];
    } else {
      var rest := DrainOne(c, events + [e], k, inflight, id);
      more := [e] + rest;
      assert events + [e] + rest == events + more;
    }
  }

  /** Every loop a shutdown waits for can settle before anything else happens. */
  lemma {:induction false} Drain(c: Config, events: seq<Event>, k: nat, inflight: set<nat>) returns (more: seq<Event>)
    requires Draining(c, RunAll(c, events), k, inflight)
    ensures Draining(c, RunAll(c, events + more), k, inflight)
    ensures RunAll(c, events + more).closed == RunAll(c, events).closed
    ensures RunAll(c, events + more).live.Keys == RunAll(c, events).live.Keys - inflight
    decreases |RunAll(c, events).live.Keys|
  {
    hide Draining, SupStep, RunAll;
    if RunAll(c, events).live.Keys !! inflight {
      more := [];
      assert events + more == events;
    } else {
      var id :| id in RunAll(c, events).live.Keys && id in inflight;
      var one := DrainOne(c, events, k, inflight, id);
      var rest := Drain(c, events + one, k, inflight);
      more := one + rest;
      assert events + one + rest == events + more;
    }
  }

  lemma ShutdownDrains(c: Config, s: Sup)
    requires RunInv(c, s)
    ensures Draining(c, BeginShutdown(s), |s.shutdowns|, InFlight(s))
    ensures BeginShutdown(s).live.Keys == s.live.Keys && BeginShutdown(s).closed == s.closed
  {
    OtherStepCounts(c, s, ShutdownCalled);
    forall id | id in InFlight(s) ensures id < s.next {
      assert Counted(c, s, id);
    }
    hide RunInv, Counted;
  }

  /**
   * The loops waited for settle; if the modem is open another one starts; and the
   * shutdown returns with a loop running.
   */
  lemma Outlived(c: Config, events: seq<Event>) returns (more: seq<Event>)
    requires !(RunAll(c, events).closed && Known(RunAll(c, events)))
    ensures !QuiescedOnReturn(c, events, more)
  {
    hide RunAll, SupStep, Draining, Known;
    RunCounts(c, events);
    var s := RunAll(c, events);
    var k, inflight := |s.shutdowns|, InFlight(s);
    RunAppend(c, events, ShutdownCalled);
    CallBegins(c, s);
    ShutdownDrains(c, s);
    var drain := Drain(c, events + [ShutdownCalled], k, inflight);
    var before := events + [ShutdownCalled] + drain;
    var finish := ShutdownReturns(k);
    if s.live.Keys <= inflight {
      SubsetIsKnown(s);
      var start := Disconnected(0, 0.0);
      RunAppend(c, before, start);
      RunAppend(c, before + [start], finish);
      StartsAndReturns(c, RunAll(c, before), k, inflight);
      more := drain + [start, finish];
      assert before + [start] + [finish] == events + [ShutdownCalled] + more;
    } else {
      RunAppend(c, before, finish);
      var id :| id in s.live.Keys && id !in inflight;
      assert id in RunAll(c, before).live.Keys;
      ReturnsTooSoon(c, RunAll(c, before), k, inflight);
      more := drain + [finish];
      assert before + [finish] == events + [ShutdownCalled] + more;
    }
  }

  lemma CallBegins(c: Config, s: Sup)
    ensures SupStep(c, s, ShutdownCalled) == BeginShutdown(s)
  {
  }

  lemma SubsetIsKnown(s: Sup)
    ensures s.live.Keys <= InFlight(s) ==> Known(s)
  {
  }

  lemma StartsAndReturns(c: Config, s: Sup, k: nat, inflight: set<nat>)
    requires Draining(c, s, k, inflight) && s.live.Keys == {} && !s.closed
    ensures var s' := SupStep(c, SupStep(c, s, Disconnected(0, 0.0)), ShutdownReturns(k));
            k < |s'.shutdowns| && s'.shutdowns[k].None? && s'.live != map[]
  {
    hide Counted, Delay, Round, ActionOf;
    assert s.loops == map[];
    var s1 := SupStep(c, s, Disconnected(0, 0.0));
    assert s1.live.Keys == {s.next};
    assert CanReturn(s1, k);
  }

  lemma ReturnsTooSoon(c: Config, s: Sup, k: nat, inflight: set<nat>)
    requires Draining(c, s, k, inflight) && s.live.Keys !! inflight && s.live.Keys != {}
    ensures var s' := SupStep(c, s, ShutdownReturns(k));
            k < |s'.shutdowns| && s'.shutdowns[k].None? && s'.live != map[]
  {
    hide RunInv;
    assert CanReturn(s, k);
  }

  /** Without closing first, a loop started meanwhile outlives the shutdown unknown to the supervisor. */
  lemma UnclosedShutdownLosesLoop(c: Config, a: Adapter, u: real)
    ensures var s := RunAll(c, [ShutdownCalled, Disconnected(a, u), ShutdownReturns(0)]);
            && s.shutdowns == [None] && s.loops == map[] && 0 in s.live && s.live[0].adapter == a
            && !s.live[0].aborted && !Known(s)
  {
    var s0 := RunAll(c, []);
    RunAppend(c, [], ShutdownCalled);
    assert [] + [ShutdownCalled] == [ShutdownCalled];
    RunAppend(c, [ShutdownCalled], Disconnected(a, u));
    assert [ShutdownCalled] + [Disconnected(a, u)] == [ShutdownCalled, Disconnected(a, u)];
    RunAppend(c, [ShutdownCalled, Disconnected(a, u)], ShutdownReturns(0));
    assert [ShutdownCalled, Disconnected(a, u)] + [ShutdownReturns(0)]
           == [ShutdownCalled, Disconnected(a, u), ShutdownReturns(0)];
    hide RunAll, Delay, Round, ActionOf;
    var s1 := SupStep(c, s0, ShutdownCalled);
    assert InFlight(s0) == {} && s1.shutdowns == [Some({})];
    var s2 := SupStep(c, s1, Disconnected(a, u));
    assert CanReturn(s2, 0);
    var s3 := SupStep(c, s2, ShutdownReturns(0));
    assert InFlight(s3) == {};
  }

  /** Closing afterwards is too late: another shutdown, on the closed modem, does not wait for that loop. */
  lemma ClosingLaterIsTooLate(c: Config, a: Adapter, u: real)
    ensures var events := [ShutdownCalled, Disconnected(a, u), ShutdownReturns(0), MarkClosed];
            RunAll(c, events).closed && !QuiescedOnReturn(c, events, [ShutdownReturns(1)])
  {
    var first := [ShutdownCalled, Disconnected(a, u), ShutdownReturns(0)];
    var events := [ShutdownCalled, Disconnected(a, u), ShutdownReturns(0), MarkClosed];
    UnclosedShutdownLosesLoop(c, a, u);
    RunAppend(c, first, MarkClosed);
    assert first + [MarkClosed] == events;
    RunAppend(c, events, ShutdownCalled);
    RunAppend(c, events + [ShutdownCalled], ShutdownReturns(1));
    hide RunAll, Delay;
    var s := RunAll(c, events);
    assert InFlight(s) == {} && s.shutdowns == [None] && 0 in s.live;
    assert CanReturn(RunAll(c, events + [ShutdownCalled]), 1);
    assert 0 in RunAll(c, events + [ShutdownCalled] + [ShutdownReturns(1)]).live;
  }

  // -- What a reported failure means -----------------------------------------------------

  /** The promise of the failure callback: all attempts were made. */
  predicate AllAttemptsMade(c: Config, trace: seq<Action>) {
    forall i | 0 <= i < |trace| && trace[i].FailedCalled? :: Reopens(trace, trace[i].id) == Max0(c.maxAttempts)
  }

  /** An aborted sleep settles while the modem is open. */
  predicate GivesUpEarly(s: Sup, e: Event) {
    e.AwaitSettles? && e.id in s.live && s.live[e.id].state.Sleeping? && s.live[e.id].aborted && !s.closed
  }

  /** A failure is reported with the attempts its loop made, and that loop makes no more. */
  ghost predicate FailuresFinal(s: Sup) {
    forall i | 0 <= i < |s.trace| && s.trace[i].FailedCalled? :: FailureFinal(s, s.trace[i].id, s.trace[i].attempts)
  }

  predicate FailureFinal(s: Sup, id: nat, attempts: nat) {
    && Reopens(s.trace, id) == attempts && id < s.next
    && (id in s.live ==> s.live[id].state.Ended?)
  }

  predicate ReportsAll(c: Config, trace: seq<Action>) {
    forall i | 0 <= i < |trace| && trace[i].FailedCalled? :: trace[i].attempts == Max0(c.maxAttempts)
  }

  lemma SameThing(c: Config, s: Sup)
    requires FailuresFinal(s)
    ensures AllAttemptsMade(c, s.trace) <==> ReportsAll(c, s.trace)
  {
    hide Reopens;
    if AllAttemptsMade(c, s.trace) {
      forall i | 0 <= i < |s.trace| && s.trace[i].FailedCalled? ensures s.trace[i].attempts == Max0(c.maxAttempts) {
        assert FailureFinal(s, s.trace[i].id, s.trace[i].attempts);
      }
    }
    if ReportsAll(c, s.trace) {
      forall i | 0 <= i < |s.trace| && s.trace[i].FailedCalled?
        ensures Reopens(s.trace, s.trace[i].id) == Max0(c.maxAttempts)
      {
        assert FailureFinal(s, s.trace[i].id, s.trace[i].attempts);
      }
    }
  }

  /** The actions of one step. */
  function ActionsOf(c: Config, s: Sup, e: Event): seq<Action> {
    match e
    case Disconnected(a, u) =>
      if s.closed || a in s.loops then []
      else ActionOf(s.next, a, Round(c, 0, false, u)) + if s.loops == map[] then [FirstDisconnect] else []
    case AwaitSettles(id, ok, u) =>
      if id !in s.live || s.live[id].state.Ended? then []
      else ActionOf(id, s.live[id].adapter, StateAfter(c, s, s.live[id], ok, u))
    case MarkClosed => if s.closed then [] else [MarkedClosed]
    case _ => []
  }

  lemma StepActs(c: Config, s: Sup, e: Event)
    ensures SupStep(c, s, e).trace == s.trace + ActionsOf(c, s, e)
    ensures |ActionsOf(c, s, e)| <= 2
    ensures |ActionsOf(c, s, e)| == 2 ==> ActionsOf(c, s, e)[1] == FirstDisconnect
  {
    hide Delay, Next, Round;
  }

  /** A failure is among a step's actions with fewer attempts than allowed exactly when it gives up early. */
  lemma StepFails(c: Config, s: Sup, e: Event)
    requires RunInv(c, s)
    ensures ReportsAll(c, ActionsOf(c, s, e)) <==> !GivesUpEarly(s, e)
  {
    hide Delay, Reopens, Endings;
    if e.AwaitSettles? {
      assert Counted(c, s, e.id);
      if GivesUpEarly(s, e) {
        assert ActionsOf(c, s, e)[0].FailedCalled?;
      }
    }
  }

  lemma ReportsAppend(c: Config, trace: seq<Action>, more: seq<Action>)
    ensures ReportsAll(c, trace + more) <==> ReportsAll(c, trace) && ReportsAll(c, more)
  {
    var all := trace + more;
    assert forall i | 0 <= i < |trace| :: all[i] == trace[i];
    assert forall i | 0 <= i < |more| :: all[|trace| + i] == more[i];
    if ReportsAll(c, trace) && ReportsAll(c, more) {
      forall i | 0 <= i < |all| && all[i].FailedCalled? ensures all[i].attempts == Max0(c.maxAttempts) {
        assert all[i] == if i < |trace| then trace[i] else more[i - |trace|];
      }
    }
  }

  /** What a step does to the reopens of one loop. */
  lemma StepReopens(c: Config, s: Sup, e: Event, id: nat)
    ensures Reopens(SupStep(c, s, e).trace, id)
            == Reopens(s.trace, id) + if ActionsOf(c, s, e) != [] && ActionsOf(c, s, e)[0] == ReopenStarted(id) then 1 else 0
  {
    StepActs(c, s, e);
    var acts := ActionsOf(c, s, e);
    hide Reopens, SupStep, ActionsOf;
    CountsMore(s.trace, acts[..if |acts| == 2 then 1 else |acts|], id);
    if |acts| == 2 {
      CountsMore(s.trace + acts[..1], acts[1..], id);
      assert s.trace + acts == s.trace + acts[..1] + acts[1..];
    } else {
      assert acts[..|acts|] == acts;
    }
  }

  lemma OldFailureFinal(c: Config, s: Sup, e: Event, id: nat, attempts: nat)
    requires FailureFinal(s, id, attempts)
    ensures FailureFinal(SupStep(c, s, e), id, attempts)
  {
    StepReopens(c, s, e, id);
    hide Reopens, Delay, Next, Round;
  }

  lemma NewFailureFinal(c: Config, s: Sup, e: Event, i: nat)
    requires RunInv(c, s) && i < |ActionsOf(c, s, e)| && ActionsOf(c, s, e)[i].FailedCalled?
    ensures FailureFinal(SupStep(c, s, e), ActionsOf(c, s, e)[i].id, ActionsOf(c, s, e)[i].attempts)
  {
    SupStepCounts(c, s, e);
    var id := ActionsOf(c, s, e)[i].id;
    assert Counted(c, s, id) && Counted(c, SupStep(c, s, e), id);
    hide Reopens, Endings, Delay, Next, Round;
  }

  lemma StepFailuresFinal(c: Config, s: Sup, e: Event)
    requires RunInv(c, s) && FailuresFinal(s)
    ensures FailuresFinal(SupStep(c, s, e))
  {
    StepActs(c, s, e);
    hide RunInv, FailureFinal, SupStep, ActionsOf;
    var s' := SupStep(c, s, e);
    forall i | 0 <= i < |s'.trace| && s'.trace[i].FailedCalled?
      ensures FailureFinal(s', s'.trace[i].id, s'.trace[i].attempts)
    {
      if i < |s.trace| {
        OldFailureFinal(c, s, e, s.trace[i].id, s.trace[i].attempts);
      } else {
        NewFailureFinal(c, s, e, i - |s.trace|);
      }
    }
  }

  ghost predicate NeverGivesUpEarly(c: Config, events: seq<Event>) {
    BeforeEach(NoneGivesUp(c), events)
  }

  ghost function NoneGivesUp(c: Config): (seq<Event>, Event) -> bool {
    (before, e) => !GivesUpEarly(RunAll(c, before), e)
  }

  lemma {:induction false} FailuresInRuns(c: Config, events: seq<Event>)
    ensures FailuresFinal(RunAll(c, events))
    ensures ReportsAll(c, RunAll(c, events).trace) <==> NeverGivesUpEarly(c, events)
  {
    if events != [] {
      var n := |events| - 1;
      FailuresInRuns(c, events[..n]);
      RunCounts(c, events[..n]);
      BeforeEachByStep(NoneGivesUp(c), events);
      var s, e := RunAll(c, events[..n]), events[n];
      assert RunAll(c, events) == SupStep(c, s, e);
      hide RunAll, SupStep, ReportsAll, RunInv, FailuresFinal, BeforeEach, GivesUpEarly, ActionsOf;
      StepFailuresFinal(c, s, e);
      StepActs(c, s, e);
      StepFails(c, s, e);
      ReportsAppend(c, s.trace, ActionsOf(c, s, e));
    }
  }

  /** Every failure reported in a run follows the full number of reopens exactly when no aborted sleep settled on an open modem. */
  lemma FailuresExhaustedExactly(c: Config, events: seq<Event>)
    ensures AllAttemptsMade(c, RunAll(c, events).trace) <==> NeverGivesUpEarly(c, events)
  {
    FailuresInRuns(c, events);
    SameThing(c, RunAll(c, events));
  }

  /** So it does when shutdown is only ever called on a closed modem. */
  lemma ClosingFirstExhausts(c: Config, events: seq<Event>)
    requires ClosesFirst(c, events)
    ensures AllAttemptsMade(c, RunAll(c, events).trace)
  {
    FailuresExhaustedExactly(c, events);
    hide RunAll, AllAttemptsMade;
    forall k | 0 <= k < |events| ensures NoneGivesUp(c)(events[..k], events[k]) {
      forall j | 0 <= j < k && events[..k][j].ShutdownCalled? ensures RunAll(c, events[..k][..j]).closed {
        assert events[..k][..j] == events[..j] && events[..k][j] == events[j];
      }
      ClosingFirstIsOrderly(c, events[..k]);
    }
  }

  /** A shutdown of an open modem makes a sleeping loop report a failure with attempts left. */
  lemma OpenShutdownFailsEarly(c: Config, a: Adapter, u: real)
    requires c.maxAttempts >= 1
    ensures var s := RunAll(c, [Disconnected(a, u), ShutdownCalled, AwaitSettles(0, true, u)]);
            s.trace == [FirstDisconnect, FailedCalled(0, a, 0)] && !AllAttemptsMade(c, s.trace)
  {
    var d, e := Disconnected(a, u), AwaitSettles(0, true, u);
    ThreeEvents(c, d, ShutdownCalled, e);
    var s1 := Sup(false, map[a := 0], map[0 := Loop(a, Sleeping(0, Delay(c, 0, u)), false)], 1, [], [FirstDisconnect]);
    var s2 := s1.(live := map[0 := Loop(a, Sleeping(0, Delay(c, 0, u)), true)], shutdowns := [Some({0})]);
    FirstLoopStarts(c, a, u);
    SleeperAborted(c, s1, s2, a);
    SleeperFails(c, s2, a, u);
    NoReopens(a);
    hide RunAll, SupStep, Reopens, Delay;
    var s3 := RunAll(c, [d, ShutdownCalled, e]);
    assert s3.trace[1].FailedCalled? && s3.trace[1].id == 0;
  }

  lemma ThreeEvents(c: Config, d: Event, e: Event, f: Event)
    ensures RunAll(c, [d, e, f]) == SupStep(c, SupStep(c, SupStep(c, Sup(false, map[], map[], 0, [], []), d), e), f)
  {
    RunAppend(c, [], d);
    assert [] + [d] == [d];
    RunAppend(c, [d], e);
    assert [d] + [e] == [d, e];
    RunAppend(c, [d, e], f);
    assert [d, e] + [f] == [d, e, f];
    assert RunAll(c, []) == Sup(false, map[], map[], 0, [], []);
    hide RunAll, SupStep;
  }

  lemma FirstLoopStarts(c: Config, a: Adapter, u: real)
    requires c.maxAttempts >= 1
    ensures SupStep(c, Sup(false, map[], map[], 0, [], []), Disconnected(a, u))
            == Sup(false, map[a := 0], map[0 := Loop(a, Sleeping(0, Delay(c, 0, u)), false)], 1, [], [FirstDisconnect])
  {
    hide Delay;
  }

  lemma SleeperAborted(c: Config, s: Sup, s': Sup, a: Adapter)
    requires s.loops == map[a := 0] && s.live.Keys == {0} && s.shutdowns == []
    requires s' == s.(live := map[0 := s.live[0].(aborted := true)], shutdowns := [Some({0})])
    ensures SupStep(c, s, ShutdownCalled) == s'
  {
    assert s.loops[a] == 0;
    assert InFlight(s) == {0};
    hide InFlight;
    assert BeginShutdown(s).live == s'.live;
  }

  lemma SleeperFails(c: Config, s: Sup, a: Adapter, u: real)
    requires !s.closed && 0 in s.live && s.live[0].adapter == a && s.live[0].aborted
    requires s.live[0].state.Sleeping? && s.live[0].state.attempts == 0
    ensures SupStep(c, s, AwaitSettles(0, true, u)).trace == s.trace + [FailedCalled(0, a, 0)]
  {
    hide Delay;
  }

  lemma NoReopens(a: Adapter)
    ensures Reopens([FirstDisconnect, FailedCalled(0, a, 0)], 0) == 0
  {
    CountsAppend([FirstDisconnect], FailedCalled(0, a, 0), 0);
    CountsAppend([], FirstDisconnect, 0);
    assert [] + [FirstDisconnect] == [FirstDisconnect];
    assert [FirstDisconnect] + [FailedCalled(0, a, 0)] == [FirstDisconnect, FailedCalled(0, a, 0)];
  }

  // -- The supervisor ----------------------------------------------------------------

  /** `closed` is the modem's flag, which the supervisor only reads. */
  class Supervisor {
    const config: Config
    var closed: bool
    var loops: map<Adapter, nat>
    var live: map<nat, Loop>
    var next: nat
    var shutdowns: seq<Option<set<nat>>>
    var trace: seq<Action>

    function View(): Sup
      reads this
    {
      Sup(closed, loops, live, next, shutdowns, trace)
    }

    /** Attempts and reports of every loop are bounded, every map entry is a running loop, and nothing follows closing. */
    ghost predicate Valid()
      reads this
    {
      RunInv(config, View())
    }

    constructor (c: Config)
      ensures config == c && Valid() && View() == RunAll(c, []) && Orderly(View())
    {
      config := c;
      closed, loops, live, next, shutdowns, trace := false, map[], map[], 0, [], [];
      new;
      RunCounts(c, []);
    }

    method Begin(a: Adapter, u: real)
      requires Valid()
      modifies this
      ensures Valid() && View() == Start(config, old(View()), a, u)
      ensures closed == old(closed) && (closed ==> trace == old(trace) && live == old(live))
      ensures old(Orderly(View())) ==> Orderly(View())
    {
      StartCounts(config, View(), a, u);
      if Orderly(View()) {
        StepIsOrderly(config, View(), Disconnected(a, u));
      }
      hide RunInv, Orderly, Delay;
      if closed {
        return;
      }
      if a in loops {
        return;
      }
      var first := loops == map[];
      var id := next;
      next := next + 1;
      if 0 < config.maxAttempts {
        live := live[id := Loop(a, Sleeping(0, Delay(config, 0, u)), false)];
      } else {
        live := live[id := Loop(a, Ended(0, Failed), false)];
        trace := trace + [FailedCalled(id, a, 0)];
      }
      assert trace == old(trace) + ActionOf(id, a, Round(config, 0, false, u));
      loops := loops[a := id];
      if first {
        trace := trace + [FirstDisconnect];
      }
      assert trace == old(trace) + ActionOf(id, a, Round(config, 0, false, u)) + if first then [FirstDisconnect] else [];
    }

    /** A running loop's pending await settles and it runs on to its next await, or to its end. */
    method Resume(id: nat, ok: bool, u: real)
      requires Valid() && id in live
      modifies this
      ensures Valid() && View() == Settles(config, old(View()), id, ok, u)
      ensures closed == old(closed) && (closed ==> trace == old(trace))
      ensures old(Orderly(View())) ==> Orderly(View())
    {
      SettlesCounts(config, View(), id, ok, u);
      if Orderly(View()) {
        StepIsOrderly(config, View(), AwaitSettles(id, ok, u));
      }
      hide RunInv, Orderly, Delay, Next;
      var l := live[id];
      if l.state.Ended? {
        live := live - {id};
        loops := loops - {l.adapter};
        return;
      }
      var state := Next(config, l.state, if l.state.Sleeping? then !l.aborted else ok, closed, u);
      match state {
        case Ended(n, ending) =>
          if ending == Reconnected {
            trace := trace + [ReconnectCalled(id, l.adapter)];
          } else if ending == Failed {
            trace := trace + [FailedCalled(id, l.adapter, n)];
          }
        case Reopening(_) =>
          trace := trace + [ReopenStarted(id)];
        case _ =>
      }
      live := live[id := l.(state := state)];
      assert trace == old(trace) + ActionOf(id, l.adapter, state);
    }

    method Close()
      requires Valid()
      modifies this
      ensures Valid() && closed && View() == SupStep(config, old(View()), MarkClosed)
      ensures old(Orderly(View())) ==> Orderly(View())
    {
      OtherStepCounts(config, View(), MarkClosed);
      if Orderly(View()) {
        StepIsOrderly(config, View(), MarkClosed);
      }
      hide RunInv, Orderly;
      if !closed {
        closed := true;
        trace := trace + [MarkedClosed];
      }
    }

    /** Abort every loop in the map; the caller then waits for them to settle. */
    method Shutdown()
      requires Valid()
      modifies this
      ensures Valid() && View() == BeginShutdown(old(View()))
      ensures closed && old(Orderly(View())) ==> Orderly(View())
    {
      OtherStepCounts(config, View(), ShutdownCalled);
      if closed && Orderly(View()) {
        StepIsOrderly(config, View(), ShutdownCalled);
      }
      hide RunInv, Orderly;
      var inflight := set a | a in loops :: loops[a];
      assert inflight == InFlight(View());
      live := map id | id in live :: if id in inflight then live[id].(aborted := true) else live[id];
      shutdowns := shutdowns + [Some(inflight)];
    }

    /** When shutdown was only called on a closed modem, nothing is running any more. */
    method FinishShutdown(k: nat)
      requires Valid() && CanReturn(View(), k)
      modifies this
      ensures Valid() && View() == SupStep(config, old(View()), ShutdownReturns(k))
      ensures old(Orderly(View())) ==> Orderly(View()) && live == map[]
    {
      OtherStepCounts(config, View(), ShutdownReturns(k));
      if Orderly(View()) {
        StepIsOrderly(config, View(), ShutdownReturns(k));
        OrderlyLosesNothing(View(), ShutdownReturns(k));
      }
      hide RunInv, Orderly;
      loops := map[];
      shutdowns := shutdowns[k := None];
    }
  }
}
