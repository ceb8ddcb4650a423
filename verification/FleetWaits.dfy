/**
 * Promises that wait for a modem: for any ready modem, or for one device picked by
 * vendor, name or id. A wait owns a listener, a timer and an entry among the pending
 * cancellations until it settles. Readiness changes, arrivals, removals, timeouts
 * and cancellations come in any order.
 */
module FleetWaits {
  import opened Wrappers
  import opened FleetDevice

  type DeviceId = string

  /** A device as the matchers see it; the name is already in lower case. */
  datatype Entry = Entry(id: DeviceId, vendorId: int, name: string, readiness: Readiness)

  datatype Kind = AnyReady | ByVendor(vendorId: int) | ByName(part: string) | ById(id: DeviceId)

  datatype Outcome = Resolved(modem: ModemId) | TimedOut | PoolStopped

  /** `log` records every settlement, so settling twice would show. */
  datatype Waits = Waits(
    devices: seq<Entry>,
    kinds: seq<Kind>,
    settled: set<nat>,
    log: seq<(nat, Outcome)>,
    readyListeners: seq<nat>,
    readinessListeners: seq<nat>,
    timers: set<nat>,
    pending: set<nat>)

  predicate OccursAt(s: string, part: string, i: nat) {
    i + |part| <= |s| && s[i..i + |part|] == part
  }

  predicate Contains(s: string, part: string) {
    exists i | 0 <= i <= |s| :: OccursAt(s, part, i)
  }

  predicate Matches(k: Kind, e: Entry) {
    match k
    case AnyReady => true
    case ByVendor(v) => e.vendorId == v
    case ByName(part) => Contains(e.name, part)
    case ById(id) => e.id == id
  }

  predicate IsReady(r: Readiness) {
    r.Ready? || r.Degraded?
  }

  /** The first device, in map order, that a wait of this kind would take. */
  function FirstMatch(ds: seq<Entry>, k: Kind): Option<ModemId> {
    if ds == [] then None
    else if Matches(k, ds[0]) && IsReady(ds[0].readiness) then Some(ds[0].readiness.modem)
    else FirstMatch(ds[1..], k)
  }

  lemma {:induction false} FirstMatchFinds(ds: seq<Entry>, k: Kind)
    ensures FirstMatch(ds, k).None? <==> forall e | e in ds && Matches(k, e) :: !IsReady(e.readiness)
    ensures FirstMatch(ds, k).Some? ==>
              exists e :: e in ds && Matches(k, e) && IsReady(e.readiness) && e.readiness.modem == FirstMatch(ds, k).value
  {
    hide Matches;
    if ds != [] {
      FirstMatchFinds(ds[1..], k);
      assert forall e :: e in ds <==> e == ds[0] || e in ds[1..];
    }
  }

  /** Removing a listener from an emitter removes one registration of it. */
  function Without(ls: seq<nat>, w: nat): seq<nat> {
    if ls == [] then [] else if ls[0] == w then ls[1..] else [ls[0]] + Without(ls[1..], w)
  }

  // -- Steps -------------------------------------------------------------------------

  /** A callback of a wait runs: nothing if it settled before, otherwise it lets go of everything. */
  function Settle(s: Waits, w: nat, o: Outcome): Waits {
    if w in s.settled then s
    else s.(settled := s.settled + {w}, log := s.log + [(w, o)], timers := s.timers - {w}, pending := s.pending - {w},
            readyListeners := Without(s.readyListeners, w),
            readinessListeners := Without(s.readinessListeners, w))
  }

  function Notify(s: Waits, w: nat, e: Entry): Waits {
    if IsReady(e.readiness) && w < |s.kinds| && Matches(s.kinds[w], e) then Settle(s, w, Resolved(e.readiness.modem)) else s
  }

  /** An emitter calls the listeners registered when the emission began. */
  function NotifyAll(s: Waits, ls: seq<nat>, e: Entry): Waits {
    if ls == [] then s else Notify(NotifyAll(s, ls[..|ls| - 1], e), ls[|ls| - 1], e)
  }

  /** The pool updates a device, tells readiness listeners, then ready listeners. */
  function SetReadiness(s: Waits, i: nat, r: Readiness): Waits
    requires i < |s.devices|
  {
    var e := s.devices[i].(readiness := r);
    var changed := s.(devices := s.devices[i := e]);
    var told := NotifyAll(changed, changed.readinessListeners, e);
    NotifyAll(told, told.readyListeners, e)
  }

  function StartWait(s: Waits, k: Kind): Waits {
    var w := |s.kinds|;
    var asked := s.(kinds := s.kinds + [k]);
    match FirstMatch(s.devices, k)
    case Some(m) => asked.(settled := s.settled + {w}, log := s.log + [(w, Resolved(m))])
    case None =>
      asked.(timers := s.timers + {w}, pending := s.pending + {w},
             readyListeners := if k.AnyReady? then s.readyListeners + [w] else s.readyListeners,
             readinessListeners := if k.AnyReady? then s.readinessListeners else s.readinessListeners + [w])
  }

  function CancelAll(s: Waits, ws: seq<nat>): Waits {
    if ws == [] then s else Settle(CancelAll(s, ws[..|ws| - 1]), ws[|ws| - 1], PoolStopped)
  }

  datatype WaitEvent =
    | DeviceAdded(id: DeviceId, vendorId: int, name: string)
    | DeviceRemoved(i: nat)
    | ReadinessSet(i: nat, r: Readiness)
    | WaitStarted(k: Kind)
    | TimerFired(w: nat)
    | Stopped(order: seq<nat>)

  /** `order` is the order in which the pending set is iterated. */
  predicate Lists(order: seq<nat>, all: set<nat>) {
    (forall w | w in all :: w in order) && (forall w | w in order :: w in all)
  }

  function WaitStep(s: Waits, e: WaitEvent): Waits {
    match e
    case DeviceAdded(id, v, name) => s.(devices := s.devices + [Entry(id, v, name, Detected)])
    case DeviceRemoved(i) => if i < |s.devices| then s.(devices := s.devices[..i] + s.devices[i + 1..]) else s
    case ReadinessSet(i, r) => if i < |s.devices| then SetReadiness(s, i, r) else s
    case WaitStarted(k) => StartWait(s, k)
    case TimerFired(w) => if w in s.timers then Settle(s, w, TimedOut) else s
    case Stopped(order) => if Lists(order, s.pending) then CancelAll(s, order) else s
  }

  const NO_WAITS: Waits := Waits([], [], {}, [], [], [], {}, {})

  function Run(events: seq<WaitEvent>): Waits {
    if events == [] then NO_WAITS else WaitStep(Run(events[..|events| - 1]), events[|events| - 1])
  }

  // -- Invariant ---------------------------------------------------------------------

  predicate Unsettled(s: Waits, w: nat) {
    w < |s.kinds| && w !in s.settled
  }

  predicate NoRepeats(ls: seq<nat>) {
    forall i, j | 0 <= i < j < |ls| :: ls[i] != ls[j]
  }

  /** An unsettled wait owns one timer, one pending entry and one listener of its kind; a settled one owns nothing. */
  ghost predicate Owned(s: Waits) {
    && (forall w: nat :: w in s.timers <==> Unsettled(s, w))
    && (forall w: nat :: w in s.pending <==> Unsettled(s, w))
    && (forall w: nat :: w in s.readyListeners <==> Unsettled(s, w) && s.kinds[w].AnyReady?)
    && (forall w: nat :: w in s.readinessListeners <==> Unsettled(s, w) && !s.kinds[w].AnyReady?)
    && NoRepeats(s.readyListeners) && NoRepeats(s.readinessListeners)
  }

  ghost predicate SettledOnce(s: Waits) {
    && (forall i, j | 0 <= i < j < |s.log| :: s.log[i].0 != s.log[j].0)
    && (forall w: nat :: w in s.settled <==> exists i :: 0 <= i < |s.log| && s.log[i].0 == w)
    && (forall w | w in s.settled :: w < |s.kinds|)
  }

  /** No wakeup has been missed: nothing an unsettled wait is waiting for is there. */
  ghost predicate NoneMissed(s: Waits) {
    forall w: nat, e | Unsettled(s, w) && e in s.devices && Matches(s.kinds[w], e) :: !IsReady(e.readiness)
  }

  ghost predicate WaitsInv(s: Waits) {
    Owned(s) && SettledOnce(s) && NoneMissed(s)
  }

  lemma {:induction false} WithoutIs(ls: seq<nat>, w: nat)
    requires NoRepeats(ls)
    ensures NoRepeats(Without(ls, w)) && forall x: nat :: x in Without(ls, w) <==> x in ls && x != w
  {
    if ls != [] {
      var tail := ls[1..];
      assert NoRepeats(tail) by {
        forall i, j | 0 <= i < j < |tail| ensures tail[i] != tail[j] {
          assert ls[i + 1] != ls[j + 1];
        }
      }
      WithoutIs(tail, w);
      assert ls == [ls[0]] + tail;
      assert ls[0] !in tail by {
        forall j | 0 <= j < |tail| ensures tail[j] != ls[0] {
          assert ls[j + 1] != ls[0];
        }
      }
    }
  }

  lemma SettleKeeps(s: Waits, w: nat, o: Outcome)
    requires Owned(s) && SettledOnce(s) && w < |s.kinds|
    ensures Owned(Settle(s, w, o)) && SettledOnce(Settle(s, w, o)) && w in Settle(s, w, o).settled
    ensures s.settled <= Settle(s, w, o).settled <= s.settled + {w}
    ensures Settle(s, w, o).devices == s.devices && Settle(s, w, o).kinds == s.kinds
  {
    WithoutIs(s.readyListeners, w);
    WithoutIs(s.readinessListeners, w);
    var s' := Settle(s, w, o);
    if w !in s.settled {
      assert s'.log[|s.log|].0 == w;
      forall x ensures x in s'.settled <==> exists i :: 0 <= i < |s'.log| && s'.log[i].0 == x {
        if x in s.settled {
          var i :| 0 <= i < |s.log| && s.log[i].0 == x;
          assert s'.log[i].0 == x;
        }
      }
    }
  }

  lemma ListenersKnown(s: Waits)
    requires Owned(s)
    ensures forall i | 0 <= i < |s.readyListeners| :: s.readyListeners[i] < |s.kinds|
    ensures forall i | 0 <= i < |s.readinessListeners| :: s.readinessListeners[i] < |s.kinds|
    ensures forall order | Lists(order, s.pending) :: forall i | 0 <= i < |order| :: order[i] < |s.kinds|
  {
    forall i | 0 <= i < |s.readyListeners| ensures s.readyListeners[i] < |s.kinds| {
      assert s.readyListeners[i] in s.readyListeners;
    }
    forall i | 0 <= i < |s.readinessListeners| ensures s.readinessListeners[i] < |s.kinds| {
      assert s.readinessListeners[i] in s.readinessListeners;
    }
    forall order, i | Lists(order, s.pending) && 0 <= i < |order| ensures order[i] < |s.kinds| {
      assert order[i] in order;
    }
  }

  lemma {:induction false} NotifyAllKeeps(s: Waits, ls: seq<nat>, e: Entry)
    requires Owned(s) && SettledOnce(s) && forall i | 0 <= i < |ls| :: ls[i] < |s.kinds|
    ensures var s' := NotifyAll(s, ls, e);
            && Owned(s') && SettledOnce(s') && s'.devices == s.devices && s'.kinds == s.kinds
            && s.settled <= s'.settled
            && (IsReady(e.readiness) ==> forall w | w in ls && Matches(s.kinds[w], e) :: w in s'.settled)
            && (!IsReady(e.readiness) ==> s' == s)
  {
    hide Matches, Owned, SettledOnce, Settle;
    if ls != [] {
      var n := |ls| - 1;
      NotifyAllKeeps(s, ls[..n], e);
      SettleKeeps(NotifyAll(s, ls[..n], e), ls[n], Resolved(if IsReady(e.readiness) then e.readiness.modem else 0));
      forall w | w in ls ensures w in ls[..n] || w == ls[n] {
      }
    }
  }

  lemma SetReadinessKeeps(s: Waits, i: nat, r: Readiness)
    requires WaitsInv(s) && i < |s.devices|
    ensures WaitsInv(SetReadiness(s, i, r))
  {
    var e := s.devices[i].(readiness := r);
    var changed := s.(devices := s.devices[i := e]);
    assert Owned(changed);
    ListenersKnown(changed);
    NotifyAllKeeps(changed, changed.readinessListeners, e);
    var told := NotifyAll(changed, changed.readinessListeners, e);
    ListenersKnown(told);
    NotifyAllKeeps(told, told.readyListeners, e);
    var s' := SetReadiness(s, i, r);
    forall w: nat, d | Unsettled(s', w) && d in s'.devices && Matches(s'.kinds[w], d) ensures !IsReady(d.readiness) {
      assert Unsettled(s, w) && Unsettled(told, w);
      if d == e {
        assert w in changed.readinessListeners || w in told.readyListeners;
      } else {
        assert d in s.devices;
      }
    }
  }

  lemma StartKeeps(s: Waits, k: Kind)
    requires WaitsInv(s)
    ensures WaitsInv(StartWait(s, k))
  {
    FirstMatchFinds(s.devices, k);
    var w, s' := |s.kinds|, StartWait(s, k);
    assert forall x: nat :: x < |s.kinds| ==> s'.kinds[x] == s.kinds[x];
    assert !(w in s.settled);
    assert OwnedAndOnce(s') by { StartOwns(s, k); }
    forall x: nat, e | Unsettled(s', x) && e in s'.devices && Matches(s'.kinds[x], e) ensures !IsReady(e.readiness) {
      if x != w {
        assert Unsettled(s, x);
      }
    }
  }

  ghost predicate OwnedAndOnce(s: Waits) {
    Owned(s) && SettledOnce(s)
  }

  lemma StartOwns(s: Waits, k: Kind)
    requires Owned(s) && SettledOnce(s)
    ensures OwnedAndOnce(StartWait(s, k))
  {
    hide FirstMatch;
    var w, s' := |s.kinds|, StartWait(s, k);
    forall x: nat ensures Unsettled(s', x) <==> Unsettled(s, x) || (x == w && w !in s'.settled) {
    }
    forall x ensures x in s'.settled <==> exists i :: 0 <= i < |s'.log| && s'.log[i].0 == x {
      if x in s.settled {
        var i :| 0 <= i < |s.log| && s.log[i].0 == x;
        assert s'.log[i].0 == x;
      } else if x == w && w in s'.settled {
        assert s'.log[|s.log|].0 == w;
      }
    }
    forall x | x in s.readyListeners || x in s.readinessListeners ensures x != w {
    }
  }

  lemma {:induction false} CancelKeeps(s: Waits, ws: seq<nat>)
    requires Owned(s) && SettledOnce(s) && forall i | 0 <= i < |ws| :: ws[i] < |s.kinds|
    ensures var s' := CancelAll(s, ws);
            && Owned(s') && SettledOnce(s') && s'.devices == s.devices && s'.kinds == s.kinds
            && s.settled <= s'.settled && forall w | w in ws :: w in s'.settled
  {
    hide Owned, SettledOnce, Settle;
    if ws != [] {
      var n := |ws| - 1;
      CancelKeeps(s, ws[..n]);
      SettleKeeps(CancelAll(s, ws[..n]), ws[n], PoolStopped);
      forall w | w in ws ensures w in ws[..n] || w == ws[n] {
      }
    }
  }

  lemma WaitStepKeeps(s: Waits, e: WaitEvent)
    requires WaitsInv(s)
    ensures WaitsInv(WaitStep(s, e))
  {
    match e
    case ReadinessSet(i, r) => if i < |s.devices| { SetReadinessKeeps(s, i, r); }
    case WaitStarted(k) => StartKeeps(s, k);
    case TimerFired(w) => if w in s.timers { SettleKeeps(s, w, TimedOut); }
    case Stopped(order) => if Lists(order, s.pending) { ListenersKnown(s); CancelKeeps(s, order); }
    case _ =>
  }

  lemma {:induction false} RunKeepsInv(events: seq<WaitEvent>)
    ensures WaitsInv(Run(events))
  {
    if events == [] {
    } else {
      RunKeepsInv(events[..|events| - 1]);
      WaitStepKeeps(Run(events[..|events| - 1]), events[|events| - 1]);
    }
  }

  // -- Main results ------------------------------------------------------------------

  /** A substring is what stands between a beginning and an end. */
  lemma ContainsIs(s: string, part: string)
    ensures Contains(s, part) <==> exists before, after :: s == before + part + after
  {
    if Contains(s, part) {
      var i :| 0 <= i <= |s| && OccursAt(s, part, i);
      assert s == s[..i] + part + s[i + |part|..];
    }
    if before, after :| s == before + part + after {
      assert OccursAt(s, part, |before|);
    }
  }

  lemma MatchesIs(k: Kind, e: Entry)
    ensures Matches(k, e) <==>
              && (k.ByVendor? ==> e.vendorId == k.vendorId)
              && (k.ByName? ==> exists before, after :: e.name == before + k.part + after)
              && (k.ById? ==> e.id == k.id)
  {
    if k.ByName? {
      ContainsIs(e.name, k.part);
    }
  }

  /** No lost wakeups, in any interleaving: while a wait lasts, no device of its vendor, name or id shows a modem. */
  lemma NoLostWakeup(events: seq<WaitEvent>, w: nat, e: Entry)
    requires Unsettled(Run(events), w) && e in Run(events).devices
    requires Run(events).kinds[w].ByVendor? ==> e.vendorId == Run(events).kinds[w].vendorId
    requires Run(events).kinds[w].ByName? ==> exists before, after :: e.name == before + Run(events).kinds[w].part + after
    requires Run(events).kinds[w].ById? ==> e.id == Run(events).kinds[w].id
    ensures !e.readiness.Ready? && !e.readiness.Degraded?
  {
    RunKeepsInv(events);
    MatchesIs(Run(events).kinds[w], e);
  }

  /** Every wait settles at most once, and owns a timer, a listener and a pending entry exactly until then. */
  lemma SettlesOnce(events: seq<WaitEvent>, w: nat)
    requires w < |Run(events).kinds|
    ensures var s := Run(events);
            && (forall i, j | 0 <= i < |s.log| && 0 <= j < |s.log| && s.log[i].0 == w && s.log[j].0 == w :: i == j)
            && var owns := !exists i :: 0 <= i < |s.log| && s.log[i].0 == w;
               && (w in s.timers <==> owns) && (w in s.pending <==> owns)
               && (w in s.readyListeners || w in s.readinessListeners <==> owns)
  {
    RunKeepsInv(events);
  }

  lemma EmptyOrNot(ls: seq<nat>)
    ensures ls == [] || exists w: nat :: w in ls
  {
    if ls != [] {
      assert ls[0] in ls;
    }
  }

  lemma NothingLeft(s: Waits)
    requires Owned(s) && forall w: nat | w < |s.kinds| :: w in s.settled
    ensures s.pending == {} && s.timers == {} && s.readyListeners == [] && s.readinessListeners == []
  {
    forall w: nat ensures w !in s.pending && w !in s.timers {
      assert !Unsettled(s, w);
    }
    EmptyOrNot(s.readyListeners);
    EmptyOrNot(s.readinessListeners);
  }

  /** Stopping the pool leaves no wait behind. */
  lemma StopSettlesAll(events: seq<WaitEvent>, order: seq<nat>)
    requires Lists(order, Run(events).pending)
    ensures var s := WaitStep(Run(events), Stopped(order));
            && (forall w: nat | w < |s.kinds| :: w in s.settled)
            && s.pending == {} && s.timers == {} && s.readyListeners == [] && s.readinessListeners == []
  {
    RunKeepsInv(events);
    CancelLeavesNothing(Run(events), order);
  }

  /** A wait that resolves, resolves with the modem of a device that matches it and is ready now. */
  lemma ResolvesWithAMatch(events: seq<WaitEvent>, e: WaitEvent, w: nat, m: ModemId)
    requires (w, Resolved(m)) in WaitStep(Run(events), e).log && (w, Resolved(m)) !in Run(events).log
    ensures var s := WaitStep(Run(events), e);
            w < |s.kinds|
            && exists d ::
                 && d in s.devices && (d.readiness == Ready(m) || d.readiness == Degraded(m))
                 && (s.kinds[w].ByVendor? ==> d.vendorId == s.kinds[w].vendorId)
                 && (s.kinds[w].ByName? ==> exists before, after :: d.name == before + s.kinds[w].part + after)
                 && (s.kinds[w].ById? ==> d.id == s.kinds[w].id)
  {
    var d := MatchFound(events, e, w, m);
    MatchesIs(WaitStep(Run(events), e).kinds[w], d);
  }

  lemma MatchFound(events: seq<WaitEvent>, e: WaitEvent, w: nat, m: ModemId) returns (found: Entry)
    requires (w, Resolved(m)) in WaitStep(Run(events), e).log && (w, Resolved(m)) !in Run(events).log
    ensures var s := WaitStep(Run(events), e);
            && w < |s.kinds| && found in s.devices && Matches(s.kinds[w], found)
            && IsReady(found.readiness) && found.readiness.modem == m
  {
    hide Matches;
    RunKeepsInv(events);
    var s := Run(events);
    match e
    case WaitStarted(k) =>
      FirstMatchFinds(s.devices, k);
      found :| found in s.devices && Matches(k, found) && IsReady(found.readiness) && found.readiness.modem == m;
    case ReadinessSet(i, r) =>
      if i < |s.devices| {
        var d := s.devices[i].(readiness := r);
        var changed := s.(devices := s.devices[i := d]);
        assert d == changed.devices[i];
        NotifyLogs(changed, changed.readinessListeners, d, w, m);
        var told := NotifyAll(changed, changed.readinessListeners, d);
        NotifyLogs(told, told.readyListeners, d, w, m);
        found := d;
      }
    case Stopped(order) => if Lists(order, s.pending) { CancelLogs(s, order, w, m); }
    case _ =>
  }

  lemma {:induction false} NotifyResolves(s: Waits, ls: seq<nat>, e: Entry)
    ensures var s' := NotifyAll(s, ls, e);
            && s.log <= s'.log && s.settled <= s'.settled
            && forall i | |s.log| <= i < |s'.log| :: s'.log[i].1.Resolved?
  {
    hide Matches;
    if ls != [] {
      NotifyResolves(s, ls[..|ls| - 1], e);
    }
  }

  lemma {:induction false} CancelStops(s: Waits, ws: seq<nat>)
    ensures var s' := CancelAll(s, ws);
            && s.log <= s'.log && forall i | |s.log| <= i < |s'.log| :: s'.log[i].1.PoolStopped?
  {
    if ws != [] {
      CancelStops(s, ws[..|ws| - 1]);
    }
  }

  /** A wait times out only by its own timer, and is told that the pool stopped only by a stop; anything else resolves it. */
  lemma SettledByWhat(events: seq<WaitEvent>, e: WaitEvent)
    ensures var s, s' := Run(events), WaitStep(Run(events), e);
            && s.log <= s'.log
            && (forall i | |s.log| <= i < |s'.log| ::
                  && (s'.log[i].1.TimedOut? <==> e == TimerFired(s'.log[i].0))
                  && (s'.log[i].1.PoolStopped? <==> e.Stopped?))
            && (e.TimerFired? && Unsettled(s, e.w) ==> s'.log == s.log + [(e.w, TimedOut)])
  {
    RunKeepsInv(events);
    var s := Run(events);
    hide Run, SettledOnce, NoneMissed;
    match e
    case ReadinessSet(i, r) =>
      if i < |s.devices| {
        var d := s.devices[i].(readiness := r);
        var changed := s.(devices := s.devices[i := d]);
        NotifyResolves(changed, changed.readinessListeners, d);
        var told := NotifyAll(changed, changed.readinessListeners, d);
        NotifyResolves(told, told.readyListeners, d);
      }
    case Stopped(order) => if Lists(order, s.pending) { CancelStops(s, order); }
    case _ =>
  }

  lemma {:induction false} NotifyLogs(s: Waits, ls: seq<nat>, e: Entry, w: nat, m: ModemId)
    ensures var s' := NotifyAll(s, ls, e);
            && s'.kinds == s.kinds && s'.devices == s.devices
            && ((w, Resolved(m)) in s'.log && (w, Resolved(m)) !in s.log ==>
                  w < |s.kinds| && Matches(s.kinds[w], e) && IsReady(e.readiness) && e.readiness.modem == m)
  {
    hide Matches;
    if ls != [] {
      NotifyLogs(s, ls[..|ls| - 1], e, w, m);
    }
  }

  lemma {:induction false} CancelLogs(s: Waits, ws: seq<nat>, w: nat, m: ModemId)
    ensures (w, Resolved(m)) in CancelAll(s, ws).log <==> (w, Resolved(m)) in s.log
  {
    if ws != [] {
      CancelLogs(s, ws[..|ws| - 1], w, m);
    }
  }

  // -- The manager -------------------------------------------------------------------

  /** Listener lists, timers and the pending set as the callbacks update them. */
  class WaitManager {
    var devices: seq<Entry>
    var kinds: seq<Kind>
    var settled: set<nat>
    var log: seq<(nat, Outcome)>
    var readyListeners: seq<nat>
    var readinessListeners: seq<nat>
    var timers: set<nat>
    var pending: set<nat>

    function View(): Waits
      reads this
    {
      Waits(devices, kinds, settled, log, readyListeners, readinessListeners, timers, pending)
    }

    constructor ()
      ensures View() == NO_WAITS
    {
      devices, kinds, settled, log := [], [], {}, [];
      readyListeners, readinessListeners, timers, pending := [], [], {}, {};
    }

    /** The common part of a wait's callbacks, each guarded by its own settled flag. */
    method Finish(w: nat, o: Outcome)
      modifies this`settled, this`log, this`timers, this`pending, this`readyListeners, this`readinessListeners
      ensures View() == Settle(old(View()), w, o)
    {
      if w in settled {
        return;
      }
      settled := settled + {w};
      timers := timers - {w};
      readyListeners := Without(readyListeners, w);
      readinessListeners := Without(readinessListeners, w);
      pending := pending - {w};
      log := log + [(w, o)];
    }

    /** Resolve at once with a ready device, or register a listener, a timer and a cancellation. */
    method WaitFor(k: Kind) returns (w: nat)
      modifies this
      ensures w == |old(kinds)| && View() == StartWait(old(View()), k)
    {
      w := |kinds|;
      kinds := kinds + [k];
      assert devices[0..] == devices;
      for i := 0 to |devices|
        invariant FirstMatch(devices, k) == FirstMatch(devices[i..], k)
        invariant View() == old(View()).(kinds := old(kinds) + [k])
      {
        assert devices[i..][1..] == devices[i + 1..];
        if Matches(k, devices[i]) && IsReady(devices[i].readiness) {
          settled := settled + {w};
          log := log + [(w, Resolved(devices[i].readiness.modem))];
          return;
        }
      }
      timers := timers + {w};
      pending := pending + {w};
      if k.AnyReady? {
        readyListeners := readyListeners + [w];
      } else {
        readinessListeners := readinessListeners + [w];
      }
    }

    /** Emit to the listeners registered now, each of which may settle and unsubscribe. */
    method Emit(listeners: seq<nat>, e: Entry)
      modifies this`settled, this`log, this`timers, this`pending, this`readyListeners, this`readinessListeners
      ensures View() == NotifyAll(old(View()), listeners, e)
    {
      for i := 0 to |listeners|
        invariant View() == NotifyAll(old(View()), listeners[..i], e)
      {
        assert listeners[..i + 1][..i] == listeners[..i];
        NotifyKeepsKinds(old(View()), listeners[..i], e);
        var w := listeners[i];
        if IsReady(e.readiness) && w < |kinds| && Matches(kinds[w], e) {
          Finish(w, Resolved(e.readiness.modem));
        }
      }
      assert listeners[..|listeners|] == listeners;
    }

    method UpdateReadiness(i: nat, r: Readiness)
      requires i < |devices|
      modifies this
      ensures View() == SetReadiness(old(View()), i, r)
    {
      var e := devices[i].(readiness := r);
      devices := devices[i := e];
      Emit(readinessListeners, e);
      if IsReady(r) {
        Emit(readyListeners, e);
      } else {
        QuietEmission(View(), readyListeners, e);
      }
    }

    method TimerFires(w: nat)
      requires w in timers
      modifies this
      ensures View() == WaitStep(old(View()), TimerFired(w))
    {
      Finish(w, TimedOut);
    }

    method CancelPending(order: seq<nat>)
      requires Owned(View()) && SettledOnce(View()) && Lists(order, pending)
      modifies this
      ensures View() == WaitStep(old(View()), Stopped(order)) && pending == {}
    {
      hide Owned, SettledOnce;
      for i := 0 to |order|
        invariant View() == CancelAll(old(View()), order[..i])
      {
        assert order[..i + 1][..i] == order[..i];
        Finish(order[i], PoolStopped);
      }
      assert order[..|order|] == order;
      CancelLeavesNothing(old(View()), order);
      pending := {};
    }
  }

  lemma CancelLeavesNothing(s: Waits, order: seq<nat>)
    requires Owned(s) && SettledOnce(s) && Lists(order, s.pending)
    ensures var s' := CancelAll(s, order);
            && (forall w: nat | w < |s'.kinds| :: w in s'.settled)
            && s'.pending == {} && s'.timers == {} && s'.readyListeners == [] && s'.readinessListeners == []
  {
    hide CancelAll, NoRepeats, SettledOnce;
    ListenersKnown(s);
    CancelKeeps(s, order);
    EveryoneListed(s, CancelAll(s, order), order);
    NothingLeft(CancelAll(s, order));
  }

  lemma EveryoneListed(s: Waits, s': Waits, order: seq<nat>)
    requires Owned(s) && Lists(order, s.pending) && s'.kinds == s.kinds && s.settled <= s'.settled
    requires forall w | w in order :: w in s'.settled
    ensures forall w: nat | w < |s'.kinds| :: w in s'.settled
  {
    forall w: nat | w < |s'.kinds| ensures w in s'.settled {
      if w !in s.settled {
        assert Unsettled(s, w);
      }
    }
  }

  lemma {:induction false} NotifyKeepsKinds(s: Waits, ls: seq<nat>, e: Entry)
    ensures NotifyAll(s, ls, e).kinds == s.kinds
  {
    if ls != [] {
      NotifyKeepsKinds(s, ls[..|ls| - 1], e);
    }
  }

  /** Listeners ignore a readiness that is not ready. */
  lemma {:induction false} QuietEmission(s: Waits, ls: seq<nat>, e: Entry)
    requires !IsReady(e.readiness)
    ensures NotifyAll(s, ls, e) == s
  {
    if ls != [] {
      QuietEmission(s, ls[..|ls| - 1], e);
    }
  }
}
