/**
 * Everything that can happen to one device id: raw bus events filtered by the
 * watcher, the observer and its gone timer, the pool's entry, restarts, timers,
 * pipeline completions and modem closes, in any order, and whatever is still in
 * flight for entries the pool has already dropped.
 */
module FleetWorld {
  import opened Wrappers
  import opened FleetDevice
  import opened FleetObserver
  import opened Prefixes

  /** `known` is the watcher's own record of the device being attached. */
  datatype World = World(known: bool, obs: Observed, device: Option<Device>, dropped: seq<Device>)

  datatype FleetEvent =
    | UsbAttach(a: Analysis)
    | UsbDetach(a: Analysis)
    | GoneTimer(t: nat)
    | RestartRequested
    | Own(e: DeviceEvent)
    | Leftover(i: nat, e: DeviceEvent)

  /** The pool's handler for one observer event. */
  function Deliver(auto: bool, w: World, e: Emission): World {
    match (w.device, e)
    case (None, DeviceAppeared(critical)) => w.(device := Some(Appeared(auto, critical)))
    case (Some(old'), DeviceAppeared(critical)) =>
      w.(device := Some(Appeared(auto, critical)), dropped := w.dropped + [old'])
    case (None, _) => w
    case (Some(d), DeviceAttached(critical)) => w.(device := Some(OnReattached(auto, d, critical)))
    case (Some(d), DeviceStateChanged(critical, onBus)) => w.(device := Some(OnStateChanged(d, critical, onBus)))
    case (Some(d), DeviceDetached) => w.(device := Some(OnDetached(d)))
    case (Some(d), DeviceGone) => w.(device := None, dropped := w.dropped + [OnGone(d)])
  }

  function DeliverAll(auto: bool, w: World, es: seq<Emission>): World {
    if es == [] then w else Deliver(auto, DeliverAll(auto, w, es[..|es| - 1]), es[|es| - 1])
  }

  function Observe(auto: bool, w: World, r: (Observed, seq<Emission>)): World {
    DeliverAll(auto, w.(obs := r.0), r.1)
  }

  function WorldStep(auto: bool, w: World, e: FleetEvent): World {
    match e
    case UsbAttach(a) => if w.known then w else Observe(auto, w.(known := true), HandleAttach(w.obs, a))
    case UsbDetach(a) => if !w.known then w else Observe(auto, w.(known := false), HandleDetach(w.obs, a))
    case GoneTimer(t) => Observe(auto, w, GoneFires(w.obs, t))
    case RestartRequested => if w.device.None? then w else w.(device := Some(RestartDevice(auto, w.device.value)))
    case Own(e) => if w.device.None? || !Late(e) then w else w.(device := Some(Step(auto, w.device.value, e)))
    case Leftover(i, e) =>
      if i >= |w.dropped| || !Late(e) then w else w.(dropped := w.dropped[i := Step(auto, w.dropped[i], e)])
  }

  function Run(auto: bool, events: seq<FleetEvent>): World {
    if events == [] then World(false, UNSEEN, None, [])
    else WorldStep(auto, Run(auto, events[..|events| - 1]), events[|events| - 1])
  }

  // -- Invariant ---------------------------------------------------------------------

  predicate OnBus(w: World) {
    w.obs.session.Some? && w.obs.session.value.onBus
  }

  ghost predicate DeviceOk(auto: bool, d: Device) {
    && PipelineInv(auto, d) && WiringOk(d) && QuietOffBus(d)
    && (!d.hasModem ==> d.listeners.None?)
  }

  ghost predicate WorldInv(auto: bool, w: World) {
    && TimersMatch(w.obs)
    && (w.known <==> OnBus(w))
    && (w.device.Some? <==> w.obs.session.Some?)
    && (w.device.Some? ==> DeviceOk(auto, w.device.value) && (w.device.value.hasModem <==> OnBus(w)))
    && (forall i | 0 <= i < |w.dropped| :: Inert(w.dropped[i]))
  }

  lemma DeliverOne(auto: bool, w: World, e: Emission)
    ensures DeliverAll(auto, w, [e]) == Deliver(auto, w, e)
  {
    assert [e][..0] == [];
  }

  lemma DeliverTwo(auto: bool, w: World, e: Emission, e': Emission)
    ensures DeliverAll(auto, w, [e] + [e']) == Deliver(auto, Deliver(auto, w, e), e')
  {
    assert ([e] + [e'])[..1] == [e];
    DeliverOne(auto, w, e);
  }

  /** What the pool does with the events of one attach or detach of a device it already has. */
  lemma DeliverChange(auto: bool, w: World, s: Session, a: Analysis, onBus: bool, last: Emission)
    ensures DeliverAll(auto, w, Changes(s, a, onBus) + [last])
            == Deliver(auto, if s.lastState != a.state then Deliver(auto, w, DeviceStateChanged(a.critical, onBus)) else w,
                       last)
  {
    if s.lastState != a.state {
      DeliverTwo(auto, w, DeviceStateChanged(a.critical, onBus), last);
    } else {
      assert Changes(s, a, onBus) + [last] == [last];
      DeliverOne(auto, w, last);
    }
  }

  /** The device after an attach or a detach has been delivered. */
  function AfterChange(auto: bool, d: Device, changed: bool, critical: bool, onBus: bool): Device {
    var d1 := if changed then OnStateChanged(d, critical, onBus) else d;
    if onBus then OnReattached(auto, d1, critical) else OnDetached(d1)
  }

  lemma AttachIs(auto: bool, w: World, a: Analysis)
    requires !w.known && (w.device.Some? <==> w.obs.session.Some?)
    ensures WorldStep(auto, w, UsbAttach(a)) ==
              w.(known := true, obs := HandleAttach(w.obs, a).0,
                 device := Some(if w.device.None? then Appeared(auto, a.critical)
                                else AfterChange(auto, w.device.value, w.obs.session.value.lastState != a.state,
                                                 a.critical, true)))
  {
    hide Appeared, OnReattached, OnStateChanged;
    var w0 := w.(known := true, obs := HandleAttach(w.obs, a).0);
    if w.obs.session.None? {
      DeliverOne(auto, w0, DeviceAppeared(a.critical));
    } else {
      DeliverChange(auto, w0, w.obs.session.value, a, true, DeviceAttached(a.critical));
    }
  }

  lemma DetachIs(auto: bool, w: World, a: Analysis)
    requires w.known && w.device.Some? && w.obs.session.Some?
    ensures WorldStep(auto, w, UsbDetach(a)) ==
              w.(known := false, obs := HandleDetach(w.obs, a).0,
                 device := Some(AfterChange(auto, w.device.value, w.obs.session.value.lastState != a.state,
                                            a.critical, false)))
  {
    hide OnDetached, OnStateChanged;
    DeliverChange(auto, w.(known := false, obs := HandleDetach(w.obs, a).0), w.obs.session.value, a, false,
                  DeviceDetached);
  }

  /** A device coming back onto the bus, with or without a state change first. */
  lemma BackOnBus(auto: bool, d: Device, critical: bool, changed: bool)
    requires DeviceOk(auto, d) && !d.hasModem
    ensures var d' := AfterChange(auto, d, changed, critical, true); DeviceOk(auto, d') && d'.hasModem
  {
    hide PipelineInv;
    var d1 := if changed then OnStateChanged(d, critical, true) else d;
    if changed {
      StepKeepsPipeline(auto, d, StateChanged(critical, true));
      StepKeepsWiring(auto, d, StateChanged(critical, true));
    }
    assert d1.listeners.None?;
    StepKeepsPipeline(auto, d1, Reattached(critical));
    StepKeepsWiring(auto, d1, Reattached(critical));
  }

  lemma OffBus(auto: bool, d: Device, critical: bool, changed: bool)
    requires DeviceOk(auto, d)
    ensures var d' := AfterChange(auto, d, changed, critical, false); DeviceOk(auto, d') && !d'.hasModem
  {
    hide PipelineInv;
    var d1 := if changed then OnStateChanged(d, critical, false) else d;
    if changed {
      StepKeepsPipeline(auto, d, StateChanged(critical, false));
      StepKeepsWiring(auto, d, StateChanged(critical, false));
    }
    DetachedKeeps(auto, d1);
    StepKeepsWiring(auto, d1, Detached);
  }

  lemma AttachKeeps(auto: bool, w: World, a: Analysis)
    requires WorldInv(auto, w) && !w.known
    ensures WorldInv(auto, WorldStep(auto, w, UsbAttach(a)))
  {
    AttachIs(auto, w, a);
    AttachMatches(w.obs, a);
    hide DeviceOk, Inert, WorldStep, AfterChange, Appeared, TimersMatch;
    if w.device.None? {
      FirstSeen(auto, a.critical);
    } else {
      BackOnBus(auto, w.device.value, a.critical, w.obs.session.value.lastState != a.state);
    }
  }

  lemma FirstSeen(auto: bool, critical: bool)
    ensures DeviceOk(auto, Appeared(auto, critical)) && Appeared(auto, critical).hasModem
  {
    AppearedOk(auto, critical);
  }

  lemma DetachKeeps(auto: bool, w: World, a: Analysis)
    requires WorldInv(auto, w) && w.known
    ensures WorldInv(auto, WorldStep(auto, w, UsbDetach(a)))
  {
    DetachIs(auto, w, a);
    DetachMatchesExactlyOnBus(w.obs, a);
    hide DeviceOk, Inert, WorldStep, AfterChange, TimersMatch;
    OffBus(auto, w.device.value, a.critical, w.obs.session.value.lastState != a.state);
  }

  lemma GoneKeeps(auto: bool, w: World, t: nat)
    requires WorldInv(auto, w)
    ensures WorldInv(auto, WorldStep(auto, w, GoneTimer(t)))
    ensures t in w.obs.running ==>
              !OnBus(w) && w.device.Some? && WorldStep(auto, w, GoneTimer(t)).device.None?
              && WorldStep(auto, w, GoneTimer(t)).dropped == w.dropped + [OnGone(w.device.value)]
              && Inert(OnGone(w.device.value)) && OnGone(w.device.value).readiness == w.device.value.readiness
              && (NoLeak(w.device.value) ==> OnGone(w.device.value).open == {})
  {
    if t in w.obs.running {
      DeliverOne(auto, w.(obs := GoneFires(w.obs, t).0), DeviceGone);
      GoneIsInert(auto, w.device.value);
    }
  }

  lemma OwnKeeps(auto: bool, d: Device, e: DeviceEvent)
    requires DeviceOk(auto, d) && (Late(e) || e.Restart?)
    ensures DeviceOk(auto, Step(auto, d, e)) && Step(auto, d, e).hasModem == d.hasModem
  {
    StepKeepsPipeline(auto, d, e);
    StepKeepsWiring(auto, d, e);
    hide PipelineInv;
    if !d.hasModem {
      match e
      case Connected(p, outcome) => OffBusCompletion(auto, d, e, p);
      case Provisioned(p, ok) => OffBusCompletion(auto, d, e, p);
      case Progress(p) => OffBusCompletion(auto, d, e, p);
      case _ =>
    }
  }

  /** Off the bus every completion is stale. */
  lemma OffBusCompletion(auto: bool, d: Device, e: DeviceEvent, p: nat)
    requires DeviceOk(auto, d) && !d.hasModem
    requires (e.Provisioned? || e.Progress? || e.Connected?) && e.p == p
    ensures Step(auto, d, e).readiness == d.readiness && Step(auto, d, e).retryTimer == d.retryTimer
    ensures Step(auto, d, e).assessmentTimer == d.assessmentTimer && Step(auto, d, e).listeners == d.listeners
  {
    IdleMeans(d);
    if p in d.pipelines {
      assert !Current(d, p);
      NotStaleIsCurrent(d, p);
      StalePipelineWritesNothing(auto, d, e, p);
    }
  }

  lemma WorldStepKeeps(auto: bool, w: World, e: FleetEvent)
    requires WorldInv(auto, w)
    ensures WorldInv(auto, WorldStep(auto, w, e))
  {
    hide DeviceOk, Inert;
    match e
    case UsbAttach(a) => if !w.known { AttachKeeps(auto, w, a); }
    case UsbDetach(a) => if w.known { DetachKeeps(auto, w, a); }
    case GoneTimer(t) => GoneKeeps(auto, w, t);
    case RestartRequested => if w.device.Some? { OwnKeeps(auto, w.device.value, Restart); }
    case Own(e) => if w.device.Some? && Late(e) { OwnKeeps(auto, w.device.value, e); }
    case Leftover(i, e) => if i < |w.dropped| && Late(e) { InertStays(auto, w.dropped[i], e); }
  }

  lemma {:induction false} RunKeepsInv(auto: bool, events: seq<FleetEvent>)
    ensures WorldInv(auto, Run(auto, events))
  {
    if events != [] {
      RunKeepsInv(auto, events[..|events| - 1]);
      WorldStepKeeps(auto, Run(auto, events[..|events| - 1]), events[|events| - 1]);
    }
  }

  // -- Main results ------------------------------------------------------------------

  predicate Completion(e: DeviceEvent) {
    e.Provisioned? || e.Progress? || e.Connected?
  }

  /**
   * In every interleaving, a pipeline completion that changes anything but its own
   * bookkeeping belongs to a pipeline of the current generation whose signal is not
   * aborted, and that pipeline is the only one of its generation.
   */
  lemma OnlyTheCurrentPipelineWrites(auto: bool, events: seq<FleetEvent>, e: DeviceEvent)
    requires Run(auto, events).device.Some? && Completion(e)
    ensures var d := Run(auto, events).device.value;
            var d' := Step(auto, d, e);
            d' != d.(pipelines := d'.pipelines, nextModem := d'.nextModem) ==>
              && e.p in d.pipelines && d.pipelines[e.p].generation == d.generation
              && d.pipelines[e.p].signal !in d.aborted
              && forall q | q in d.pipelines && q != e.p :: d.pipelines[q].generation != d.generation
  {
    RunKeepsInv(auto, events);
    var d := Run(auto, events).device.value;
    if e.p in d.pipelines {
      if Stale(d, d.pipelines[e.p]) {
        StalePipelineWritesNothing(auto, d, e, e.p);
      } else {
        NotStaleIsCurrent(d, e.p);
        forall q | q in d.pipelines && q != e.p ensures d.pipelines[q].generation != d.generation {
          CurrentPipelineShowsItsStage(auto, d, e.p, q);
        }
      }
    }
  }

  /** In every interleaving, a pipeline in flight has been told to abort exactly when its generation has passed. */
  lemma AbandonedAreAborted(auto: bool, events: seq<FleetEvent>, p: nat)
    requires Run(auto, events).device.Some? && p in Run(auto, events).device.value.pipelines
    ensures var d := Run(auto, events).device.value;
            d.pipelines[p].signal in d.aborted <==> d.pipelines[p].generation != d.generation
  {
    RunKeepsInv(auto, events);
  }

  /** In every interleaving, errors are retried, parked, or final after four pipeline starts. */
  lemma ErrorsAccountedForInRuns(auto: bool, events: seq<FleetEvent>)
    ensures Run(auto, events).device.Some? ==>
              var d := Run(auto, events).device.value;
              && d.retryCount <= 3 && d.runs <= 4
              && (d.readiness == Error(true) ==> (d.retryTimer == Some(d.generation)) != d.stalled)
              && (d.readiness == Error(false) ==> d.runs == 4)
  {
    RunKeepsInv(auto, events);
    if Run(auto, events).device.Some? {
      ErrorsAreAccountedFor(auto, Run(auto, events).device.value);
    }
  }

  /**
   * The gone timer only ever fires for a device that is off the bus, and drops it
   * with nothing of its current generation in flight and no timer left.
   */
  lemma GoneMeansGone(auto: bool, events: seq<FleetEvent>, t: nat)
    requires t in Run(auto, events).obs.running
    ensures var w := Run(auto, events);
            var w' := WorldStep(auto, w, GoneTimer(t));
            && !OnBus(w) && !w.known && w.device.Some? && w'.device.None?
            && |w'.dropped| == |w.dropped| + 1
            && var d := w'.dropped[|w.dropped|];
               && d.readiness == w.device.value.readiness && !Running(d.readiness)
               && Idle(d) && d.retryTimer.None? && d.assessmentTimer.None? && d.wired == {}
  {
    RunKeepsInv(auto, events);
    GoneKeeps(auto, Run(auto, events), t);
  }

  /** Once dropped, an entry never changes its readiness again, whatever arrives later. */
  lemma {:induction false} DroppedNeverChanges(auto: bool, events: seq<FleetEvent>, more: seq<FleetEvent>, i: nat)
    requires i < |Run(auto, events).dropped|
    ensures i < |Run(auto, events + more).dropped|
    ensures Run(auto, events + more).dropped[i].readiness == Run(auto, events).dropped[i].readiness
  {
    if more == [] {
      assert events + more == events;
    } else {
      var n := |more| - 1;
      DroppedNeverChanges(auto, events, more[..n], i);
      assert events + more == events + more[..n] + [more[n]];
      RunAppend(auto, events + more[..n], more[n]);
      RunKeepsInv(auto, events + more[..n]);
      hide Run, WorldStep, WorldInv;
      DroppedKept(auto, Run(auto, events + more[..n]), more[n], i);
    }
  }

  lemma DroppedKept(auto: bool, w: World, e: FleetEvent, i: nat)
    requires WorldInv(auto, w) && i < |w.dropped|
    ensures i < |WorldStep(auto, w, e).dropped|
    ensures WorldStep(auto, w, e).dropped[i].readiness == w.dropped[i].readiness
    ensures WorldStep(auto, w, e).dropped[i].open <= w.dropped[i].open
  {
    hide DeviceOk, Inert;
    match e
    case Leftover(j, e) => if j < |w.dropped| && Late(e) { InertStays(auto, w.dropped[j], e); }
    case GoneTimer(t) => GoneKeeps(auto, w, t);
    case UsbAttach(a) => if !w.known { AttachIs(auto, w, a); }
    case UsbDetach(a) => if w.known { DetachIs(auto, w, a); }
    case _ =>
  }

  // -- What a device shows --------------------------------------------------------------

  /** In every interleaving an awaited completion shows its own stage, verdict or failure. */
  lemma CompletionShowsInRuns(auto: bool, events: seq<FleetEvent>, e: DeviceEvent)
    requires Run(auto, events).device.Some? && Awaited(Run(auto, events).device.value, e)
    ensures Run(auto, events + [Own(e)]).device.Some?
    ensures Shows(Run(auto, events).device.value, e, Run(auto, events + [Own(e)]).device.value)
  {
    RunKeepsInv(auto, events);
    RunAppend(auto, events, Own(e));
    CompletionShows(auto, Run(auto, events).device.value, e);
    hide Run, DeviceOk, Shows, Awaited, Step;
    AwaitedIsLate(Run(auto, events).device.value, e);
  }

  lemma AwaitedIsLate(d: Device, e: DeviceEvent)
    ensures Awaited(d, e) ==> Late(e)
  {
  }

  /** The event is the return of the modem the device is waiting for. */
  predicate Decides(w: World, e: FleetEvent) {
    e.Own? && e.e.Connected? && !e.e.outcome.ConnectFailed? && w.device.Some? && Awaited(w.device.value, e.e)
  }

  /** The verdict on, and the number of, the last modem the current pipeline of its time was given. */
  function LastVerdict(auto: bool, events: seq<FleetEvent>): Option<(ConnectOutcome, ModemId)> {
    if events == [] then None
    else
      var before, e := events[..|events| - 1], events[|events| - 1];
      var w := Run(auto, before);
      if Decides(w, e) then Some((e.e.outcome, w.device.value.nextModem)) else LastVerdict(auto, before)
  }

  /** A device shows degraded only after an impaired verdict on that very modem, and ready only after a healthy one. */
  lemma {:induction false} ShowsTheLastVerdict(auto: bool, events: seq<FleetEvent>)
    ensures Run(auto, events).device.Some? ==>
              var r := Run(auto, events).device.value.readiness;
              && (r.Degraded? ==> LastVerdict(auto, events) == Some((Impaired, r.modem)))
              && (r.Ready? ==> LastVerdict(auto, events) == Some((Healthy, r.modem)))
  {
    if events != [] {
      var before, e := events[..|events| - 1], events[|events| - 1];
      ShowsTheLastVerdict(auto, before);
      RunKeepsInv(auto, before);
      RunLast(auto, events);
      var w := Run(auto, before);
      if Decides(w, e) {
        CompletionShows(auto, w.device.value, e.e);
      } else {
        HeldOnlyByVerdict(auto, w, e);
      }
      hide Run, WorldInv, DeviceOk, Inert;
    }
  }

  lemma HeldOnlyByVerdict(auto: bool, w: World, e: FleetEvent)
    requires WorldInv(auto, w) && !Decides(w, e)
    ensures var w' := WorldStep(auto, w, e);
            w'.device.Some? && (w'.device.value.readiness.Ready? || w'.device.value.readiness.Degraded?) ==>
              w.device.Some? && w'.device.value.readiness == w.device.value.readiness
  {
    hide PipelineInv, WiringOk, QuietOffBus, Inert, Current;
    match e
    case UsbAttach(a) =>
      if !w.known {
        AttachIs(auto, w, a);
        if w.device.Some? {
          ChangeHolds(auto, w.device.value, w.obs.session.value.lastState != a.state, a.critical, true);
        } else {
          FirstShows(auto, a.critical);
        }
      }
    case UsbDetach(a) => if w.known { DetachIs(auto, w, a); }
    case GoneTimer(t) => GoneKeeps(auto, w, t);
    case RestartRequested => if w.device.Some? { HeldOnlyByConnect(auto, w.device.value, Restart); }
    case Own(e) => if w.device.Some? && Late(e) { OwnHolds(auto, w.device.value, e); }
    case Leftover(_, _) =>
  }

  lemma FirstShows(auto: bool, critical: bool)
    ensures var d := Appeared(auto, critical);
            d.readiness == if !auto then Detected else if critical then Assessing else Preparing
  {
  }

  lemma OwnHolds(auto: bool, d: Device, e: DeviceEvent)
    requires PipelineInv(auto, d) && !(e.Connected? && !e.outcome.ConnectFailed? && Awaited(d, e))
    ensures var d' := Step(auto, d, e); d'.readiness.Ready? || d'.readiness.Degraded? ==> d'.readiness == d.readiness
  {
    hide PipelineInv;
    if Awaited(d, e) {
      CompletionShows(auto, d, e);
    } else {
      HeldOnlyByConnect(auto, d, e);
    }
  }

  lemma ChangeHolds(auto: bool, d: Device, changed: bool, critical: bool, onBus: bool)
    requires PipelineInv(auto, d)
    ensures var d' := AfterChange(auto, d, changed, critical, onBus);
            d'.readiness.Ready? || d'.readiness.Degraded? ==> d'.readiness == d.readiness
  {
    hide PipelineInv;
    var d1 := if changed then OnStateChanged(d, critical, onBus) else d;
    if changed {
      HeldOnlyByConnect(auto, d, StateChanged(critical, onBus));
      StepKeepsPipeline(auto, d, StateChanged(critical, onBus));
    }
    HeldOnlyByConnect(auto, d1, if onBus then Reattached(critical) else Detached);
  }

  // -- When pipelines start ------------------------------------------------------------

  function Begun(w: World): nat {
    if w.device.None? then 0 else w.device.value.nextPipeline
  }

  /**
   * A first or returning device in an uncritical state, a stranded one only if its state
   * changed; a restart on the bus; and a retry timer. A device parked by the assessment
   * timeout is started by none of them while it stays attached.
   */
  predicate StartsOne(auto: bool, w: World, e: FleetEvent) {
    match e
    case UsbAttach(a) =>
      auto && !w.known && !a.critical
      && (w.device.None? || w.device.value.readiness.Offline? || w.obs.session.None?
          || w.obs.session.value.lastState != a.state)
    case RestartRequested => auto && w.device.Some? && OnBus(w)
    case Own(RetryFires) => w.device.Some? && w.device.value.retryTimer.Some?
    case _ => false
  }

  /** In every interleaving, exactly these events start a pipeline, and each starts one. */
  lemma PipelineStartsExactly(auto: bool, events: seq<FleetEvent>, e: FleetEvent)
    ensures var w := Run(auto, events);
            var w' := Run(auto, events + [e]);
            && (StartsOne(auto, w, e) ==>
                  && w'.device.Some? && Begun(w') == Begun(w) + 1
                  && w'.device.value.readiness == Preparing && Current(w'.device.value, Begun(w)))
            && (!StartsOne(auto, w, e) && w'.device.Some? ==> Begun(w') == Begun(w))
  {
    var w := Run(auto, events);
    RunKeepsInv(auto, events);
    RunAppend(auto, events, e);
    hide *;
    StepStartsExactly(auto, w, e);
  }

  lemma StepStartsExactly(auto: bool, w: World, e: FleetEvent)
    requires WorldInv(auto, w)
    ensures var w' := WorldStep(auto, w, e);
            && (StartsOne(auto, w, e) ==>
                  && w'.device.Some? && Begun(w') == Begun(w) + 1
                  && w'.device.value.readiness == Preparing && Current(w'.device.value, Begun(w)))
            && (!StartsOne(auto, w, e) && w'.device.Some? ==> Begun(w') == Begun(w))
  {
    hide PipelineInv, WiringOk, QuietOffBus, Inert;
    match e
    case UsbAttach(a) =>
      if !w.known {
        AttachIs(auto, w, a);
        if w.device.Some? {
          BackStarts(auto, w.device.value, w.obs.session.value.lastState != a.state, a.critical);
        }
      }
    case UsbDetach(a) =>
      if w.known {
        DetachIs(auto, w, a);
        PulledStarts(auto, w.device.value, w.obs.session.value.lastState != a.state, a.critical);
      }
    case GoneTimer(t) => GoneKeeps(auto, w, t);
    case RestartRequested => if w.device.Some? { StartsExactly(auto, w.device.value, Restart); }
    case Own(e) => if w.device.Some? && Late(e) { StartsExactly(auto, w.device.value, e); }
    case Leftover(_, _) =>
  }

  lemma BackStarts(auto: bool, d: Device, changed: bool, critical: bool)
    requires DeviceOk(auto, d) && !d.hasModem
    ensures var d' := AfterChange(auto, d, changed, critical, true);
            if auto && !critical && (d.readiness.Offline? || changed)
            then d'.nextPipeline == d.nextPipeline + 1 && d'.readiness == Preparing && Current(d', d.nextPipeline)
            else d'.nextPipeline == d.nextPipeline
  {
    OffBusShows(auto, d);
    var d1 := if changed then OnStateChanged(d, critical, true) else d;
    hide PipelineInv, WiringOk, QuietOffBus, EvaluateAssessment, StartAssessment;
    if changed {
      StartsExactly(auto, d, StateChanged(critical, true));
      StateChangedKeeps(auto, d, critical, true);
    }
    StartsExactly(auto, d1, Reattached(critical));
  }

  lemma OffBusShows(auto: bool, d: Device)
    requires DeviceOk(auto, d) && !d.hasModem
    ensures d.readiness.Offline? || (auto && d.readiness.Assessing?) || (!auto && d.readiness.Detected?)
  {
  }

  lemma PulledStarts(auto: bool, d: Device, changed: bool, critical: bool)
    requires DeviceOk(auto, d)
    ensures AfterChange(auto, d, changed, critical, false).nextPipeline == d.nextPipeline
  {
  }

  /** In the recoverable error in which the assessment timeout leaves a device. */
  predicate Parked(w: World) {
    w.device.Some? && w.device.value.readiness == Error(true) && w.device.value.stalled
  }

  /**
   * While the watcher is watching, a parked device stays parked exactly until it is pulled
   * or restarted: a change of state is only ever seen on an attach or a detach, and an
   * attach of a device it knows is not passed on, so the resumption never happens.
   */
  lemma ParkedMovesExactly(auto: bool, events: seq<FleetEvent>, e: FleetEvent)
    requires Parked(Run(auto, events))
    ensures Parked(Run(auto, events + [e])) <==> !e.UsbDetach? && !e.RestartRequested?
  {
    var w := Run(auto, events);
    RunKeepsInv(auto, events);
    RunAppend(auto, events, e);
    hide Run, SignalsOk, Inert, WiringOk;
    match e
    case UsbDetach(a) => DetachIs(auto, w, a);
    case GoneTimer(t) => GoneKeeps(auto, w, t);
    case Own(e) => if Late(e) { ParkedIgnores(auto, w.device.value, e); }
    case _ =>
  }

  lemma ParkedIgnores(auto: bool, d: Device, e: DeviceEvent)
    requires PipelineInv(auto, d) && d.readiness == Error(true) && d.stalled && Late(e)
    ensures Step(auto, d, e).readiness == Error(true) && Step(auto, d, e).stalled
  {
    IdleMeans(d);
    if e.Provisioned? || e.Progress? || e.Connected? {
      if e.p in d.pipelines {
        NotStaleIsCurrent(d, e.p);
      }
    }
  }

  // -- Modems ------------------------------------------------------------------------

  /** Every modem returned for this id is closed, except the one its readiness holds. */
  ghost predicate ModemsAccountedFor(w: World) {
    && (w.device.Some? ==> NoLeak(w.device.value))
    && (forall i | 0 <= i < |w.dropped| :: w.dropped[i].open == {})
  }

  /** The one step that loses a modem: restarting a device while it holds one. */
  predicate LosesModem(w: World, e: FleetEvent) {
    e.RestartRequested? && w.device.Some? && Held(w.device.value.readiness) != {}
  }

  /** No restart in the run hits a device that holds an open modem. */
  ghost predicate CarefulRun(auto: bool, events: seq<FleetEvent>) {
    BeforeEach(LosesNone(auto), events)
  }

  ghost function LosesNone(auto: bool): (seq<FleetEvent>, FleetEvent) -> bool {
    (before, e) => !LosesModem(Run(auto, before), e)
  }

  lemma StepAccounts(auto: bool, w: World, e: FleetEvent)
    requires WorldInv(auto, w) && ModemsAccountedFor(w)
    ensures ModemsAccountedFor(WorldStep(auto, w, e)) <==> !LosesModem(w, e)
  {
    var w' := WorldStep(auto, w, e);
    forall i | 0 <= i < |w.dropped| ensures i < |w'.dropped| && w'.dropped[i].open == {} {
      DroppedKept(auto, w, e, i);
    }
    hide PipelineInv, WiringOk, Inert;
    match e
    case UsbAttach(a) =>
      if !w.known {
        AttachIs(auto, w, a);
        if w.device.Some? {
          ChangeAccounts(auto, w.device.value, w.obs.session.value.lastState != a.state, a.critical, true);
        }
      }
    case UsbDetach(a) =>
      if w.known {
        DetachIs(auto, w, a);
        ChangeAccounts(auto, w.device.value, w.obs.session.value.lastState != a.state, a.critical, false);
      }
    case GoneTimer(t) => GoneKeeps(auto, w, t);
    case RestartRequested => if w.device.Some? { StepLeaksExactly(auto, w.device.value, Restart); }
    case Own(e) => if w.device.Some? && Late(e) { StepLeaksExactly(auto, w.device.value, e); }
    case Leftover(j, e) =>
  }

  lemma ChangeAccounts(auto: bool, d: Device, changed: bool, critical: bool, onBus: bool)
    requires DeviceOk(auto, d) && NoLeak(d)
    ensures NoLeak(AfterChange(auto, d, changed, critical, onBus))
  {
    hide PipelineInv, WiringOk;
    var d1 := if changed then OnStateChanged(d, critical, onBus) else d;
    if changed {
      StepLeaksExactly(auto, d, StateChanged(critical, onBus));
      StepKeepsPipeline(auto, d, StateChanged(critical, onBus));
      StepKeepsWiring(auto, d, StateChanged(critical, onBus));
    }
    StepLeaksExactly(auto, d1, if onBus then Reattached(critical) else Detached);
  }

  ghost predicate AlwaysAccountedFor(auto: bool, events: seq<FleetEvent>) {
    AfterEvery(AllAccountedFor(auto), events)
  }

  ghost function AllAccountedFor(auto: bool): seq<FleetEvent> -> bool {
    events => ModemsAccountedFor(Run(auto, events))
  }

  /** Modems are accounted for at every point of a run exactly when no restart hits a device holding one. */
  lemma {:induction false} ModemsAccountedForExactly(auto: bool, events: seq<FleetEvent>)
    ensures AlwaysAccountedFor(auto, events) <==> CarefulRun(auto, events)
  {
    if events != [] {
      var before := events[..|events| - 1];
      ModemsAccountedForExactly(auto, before);
      AfterEveryByStep(AllAccountedFor(auto), events);
      BeforeEachByStep(LosesNone(auto), events);
      RunKeepsInv(auto, before);
      RunLast(auto, events);
      hide Run, AfterEvery, BeforeEach, ModemsAccountedFor, LosesModem, WorldInv, WorldStep;
      if ModemsAccountedFor(Run(auto, before)) {
        StepAccounts(auto, Run(auto, before), events[|events| - 1]);
      }
    }
  }

  lemma RunLast(auto: bool, events: seq<FleetEvent>)
    requires events != []
    ensures Run(auto, events) == WorldStep(auto, Run(auto, events[..|events| - 1]), events[|events| - 1])
  {
  }

  /** At most one open modem per device, and none once it is detached. */
  lemma AtMostOneModem(auto: bool, events: seq<FleetEvent>)
    requires CarefulRun(auto, events)
    ensures Run(auto, events).device.Some? ==>
              var d := Run(auto, events).device.value;
              |d.open| <= 1 && (d.open != {} <==> d.readiness.Ready? || d.readiness.Degraded?)
              && (!OnBus(Run(auto, events)) ==> d.open == {})
  {
    RunKeepsInv(auto, events);
    ModemsAccountedForExactly(auto, events);
    assert events[..|events|] == events;
    assert ModemsAccountedFor(Run(auto, events));
  }

  // -- Progress ----------------------------------------------------------------------

  ghost predicate WellDriven(w: World) {
    w.device.Some? ==> Driven(w.device.value)
  }

  /** The one step that strands a device: restarting it, with automatic provisioning, while it is off the bus. */
  predicate Strands(auto: bool, w: World, e: FleetEvent) {
    e.RestartRequested? && auto && w.device.Some? && !OnBus(w)
  }

  ghost predicate AlwaysDriven(auto: bool, events: seq<FleetEvent>) {
    AfterEvery(DrivenAfter(auto), events)
  }

  ghost function DrivenAfter(auto: bool): seq<FleetEvent> -> bool {
    events => WellDriven(Run(auto, events))
  }

  ghost predicate NeverStrands(auto: bool, events: seq<FleetEvent>) {
    BeforeEach(StrandsNone(auto), events)
  }

  ghost function StrandsNone(auto: bool): (seq<FleetEvent>, FleetEvent) -> bool {
    (before, e) => !Strands(auto, Run(auto, before), e)
  }

  /** At every point of a run something will move each transient stage on, exactly when no restart hits a device off the bus. */
  lemma {:induction false} AlwaysDrivenExactly(auto: bool, events: seq<FleetEvent>)
    ensures AlwaysDriven(auto, events) <==> NeverStrands(auto, events)
  {
    if events != [] {
      var n := |events| - 1;
      AlwaysDrivenExactly(auto, events[..n]);
      AfterEveryByStep(DrivenAfter(auto), events);
      BeforeEachByStep(StrandsNone(auto), events);
      RunKeepsInv(auto, events[..n]);
      RunLast(auto, events);
      hide Run, AfterEvery, BeforeEach, Strands, WorldInv, WorldStep, WellDriven;
      if WellDriven(Run(auto, events[..n])) {
        StepDrivesExactly(auto, Run(auto, events[..n]), events[n]);
      }
    }
  }

  lemma StepDrivesExactly(auto: bool, w: World, e: FleetEvent)
    requires WorldInv(auto, w) && WellDriven(w)
    ensures WellDriven(WorldStep(auto, w, e)) <==> !Strands(auto, w, e)
  {
    if e.RestartRequested? && w.device.Some? && !OnBus(w) {
      hide PipelineInv, WiringOk, QuietOffBus;
      var d := w.device.value;
      if auto {
        RestartStrandsExactlyOffBus(d);
      }
    } else if !e.RestartRequested? || OnBus(w) {
      StepDrives(auto, w, e);
    }
  }

  lemma StepDrives(auto: bool, w: World, e: FleetEvent)
    requires WorldInv(auto, w) && (w.device.Some? ==> Driven(w.device.value))
    requires e.RestartRequested? ==> OnBus(w)
    ensures WorldStep(auto, w, e).device.Some? ==> Driven(WorldStep(auto, w, e).device.value)
  {
    hide PipelineInv, WiringOk, Driven, Inert, AfterChange;
    match e
    case UsbAttach(a) =>
      if !w.known {
        AttachIs(auto, w, a);
        if w.device.None? {
          AppearedDriven(auto, a.critical);
        } else {
          ChangeDriven(auto, w.device.value, w.obs.session.value.lastState != a.state, a.critical, true);
        }
      }
    case UsbDetach(a) =>
      if w.known {
        DetachIs(auto, w, a);
        ChangeDriven(auto, w.device.value, w.obs.session.value.lastState != a.state, a.critical, false);
      }
    case GoneTimer(t) => GoneKeeps(auto, w, t);
    case RestartRequested => if w.device.Some? { StaysDriven(auto, w.device.value, Restart); }
    case Own(e) => if w.device.Some? && Late(e) { StaysDriven(auto, w.device.value, e); }
    case Leftover(i, e) =>
  }

  lemma AppearedDriven(auto: bool, critical: bool)
    ensures Driven(Appeared(auto, critical))
  {
    AppearedOk(auto, critical);
  }

  lemma ChangeDriven(auto: bool, d: Device, changed: bool, critical: bool, onBus: bool)
    requires PipelineInv(auto, d) && Driven(d)
    ensures Driven(AfterChange(auto, d, changed, critical, onBus))
  {
    hide PipelineInv;
    if onBus {
      hide Driven;
      var d1 := if changed then OnStateChanged(d, critical, true) else d;
      if changed {
        StaysDriven(auto, d, StateChanged(critical, true));
        StepKeepsPipeline(auto, d, StateChanged(critical, true));
      }
      StaysDriven(auto, d1, Reattached(critical));
    }
  }

  // -- Runs that go wrong --------------------------------------------------------------

  lemma RunAppend(auto: bool, events: seq<FleetEvent>, e: FleetEvent)
    ensures Run(auto, events + [e]) == WorldStep(auto, Run(auto, events), e)
  {
    assert (events + [e])[..|events|] == events;
  }

  /** A device that attaches and connects. */
  function Connects(a: Analysis): seq<FleetEvent> {
    [UsbAttach(a), Own(Provisioned(0, true)), Own(Connected(0, Healthy))]
  }

  lemma ConnectsIsReady(a: Analysis)
    requires !a.critical
    ensures var w := Run(true, Connects(a));
            && w.known && w.obs.session == Some(Session(true, a.state)) && w.device.Some?
            && w.device.value.readiness == Ready(0) && w.device.value.open == {0} && w.device.value.hasModem
  {
    ThreeEvents(true, UsbAttach(a), Own(Provisioned(0, true)), Own(Connected(0, Healthy)));
    var w0 := World(false, UNSEEN, None, []);
    AttachIs(true, w0, a);
    DeviceConnects();
    hide Run, Appeared, OnProvisioned, OnConnected;
  }

  lemma ThreeEvents(auto: bool, e: FleetEvent, f: FleetEvent, g: FleetEvent)
    ensures Run(auto, [e, f, g])
            == WorldStep(auto, WorldStep(auto, WorldStep(auto, World(false, UNSEEN, None, []), e), f), g)
  {
    RunAppend(auto, [], e);
    assert [] + [e] == [e];
    RunAppend(auto, [e], f);
    assert [e] + [f] == [e, f];
    RunAppend(auto, [e, f], g);
    assert [e, f] + [g] == [e, f, g];
    assert Run(auto, []) == World(false, UNSEEN, None, []);
    hide Run, WorldStep;
  }

  lemma DeviceConnects()
    ensures var d := OnConnected(OnProvisioned(Appeared(true, false), 0, true), 0, Healthy);
            d.readiness == Ready(0) && d.open == {0} && d.hasModem
  {
    var d1 := Appeared(true, false);
    assert d1.pipelines == map[0 := Pipeline(0, 0, Provisioning)] && d1.readiness.Preparing?;
    var d2 := OnProvisioned(d1, 0, true);
    assert d2.pipelines == map[0 := Pipeline(0, 0, Opening)];
  }

  /** Restarting the ready device leaves its modem open with nothing that holds it. */
  lemma RestartLosesModem(a: Analysis)
    requires !a.critical
    ensures var events := Connects(a) + [RestartRequested];
            && !CarefulRun(true, events) && !ModemsAccountedFor(Run(true, events))
            && Run(true, events).device.Some? && Run(true, events).device.value.open == {0}
            && Held(Run(true, events).device.value.readiness) == {}
  {
    ConnectsIsReady(a);
    RunAppend(true, Connects(a), RestartRequested);
    var events := Connects(a) + [RestartRequested];
    assert events[..3] == Connects(a) && events[3] == RestartRequested;
    hide Run, Connects;
    var d := RestartDevice(true, Run(true, events[..3]).device.value);
    assert d.readiness.Preparing? && d.open == {0};
    assert LosesModem(Run(true, events[..3]), events[3]);
  }

  /** In assessment with nothing scheduled that would end it. */
  predicate Stranded(w: World) {
    w.device.Some? && w.device.value.readiness.Assessing? && w.device.value.assessmentTimer.None?
  }

  /**
   * What moves a stranded device on: coming back with another, uncritical state, being
   * pulled again, being declared gone, or a restart while attached.
   */
  predicate Moves(w: World, e: FleetEvent) {
    match e
    case UsbAttach(a) => !w.known && w.obs.session.Some? && w.obs.session.value.lastState != a.state && !a.critical
    case UsbDetach(_) => w.known
    case GoneTimer(t) => t in w.obs.running
    case RestartRequested => OnBus(w)
    case _ => false
  }

  lemma StrandedMovesExactly(w: World, e: FleetEvent)
    requires WorldInv(true, w) && Stranded(w)
    ensures Stranded(WorldStep(true, w, e)) <==> !Moves(w, e)
    ensures Moves(w, e) ==> WellDriven(WorldStep(true, w, e))
  {
    match e
    case UsbAttach(a) =>
      if !w.known {
        AttachIs(true, w, a);
        AttachMoves(w.device.value, w.obs.session.value.lastState != a.state, a.critical);
      }
    case UsbDetach(a) => if w.known { DetachIs(true, w, a); }
    case GoneTimer(t) => GoneKeeps(true, w, t);
    case RestartRequested => RestartStrandsExactlyOffBus(w.device.value);
    case Own(e) => if Late(e) { StrandedIgnores(w.device.value, e); }
    case Leftover(_, _) =>
  }

  lemma AttachMoves(d: Device, changed: bool, critical: bool)
    requires DeviceOk(true, d) && d.readiness.Assessing? && d.assessmentTimer.None?
    ensures var d' := AfterChange(true, d, changed, critical, true);
            && (d'.readiness.Assessing? && d'.assessmentTimer.None? <==> !changed || critical)
            && (changed && !critical ==> Driven(d'))
  {
    if changed && !critical {
      var d1 := OnStateChanged(d, critical, true);
      StateChangedKeeps(true, d, critical, true);
      assert d1.readiness.Preparing? && exists p :: Current(d1, p);
    }
  }

  lemma StrandedIgnores(d: Device, e: DeviceEvent)
    requires PipelineInv(true, d) && d.readiness.Assessing? && d.assessmentTimer.None? && Late(e)
    ensures Step(true, d, e).readiness.Assessing? && Step(true, d, e).assessmentTimer.None?
  {
    IdleMeans(d);
    if e.Provisioned? || e.Progress? || e.Connected? {
      if e.p in d.pipelines {
        NotStaleIsCurrent(d, e.p);
      }
    }
  }

  ghost function StrandedAfter(events: seq<FleetEvent>): seq<FleetEvent> -> bool {
    more => Stranded(Run(true, events + more))
  }

  ghost function NothingMoves(events: seq<FleetEvent>): (seq<FleetEvent>, FleetEvent) -> bool {
    (more, e) => !Moves(Run(true, events + more), e)
  }

  /** A device stays stranded exactly as long as none of these events comes. */
  lemma {:induction false} StaysStrandedExactly(events: seq<FleetEvent>, more: seq<FleetEvent>)
    requires Stranded(Run(true, events))
    ensures AfterEvery(StrandedAfter(events), more) <==> BeforeEach(NothingMoves(events), more)
  {
    hide Run, WorldInv, WorldStep, Stranded, Moves;
    if more == [] {
      assert events + [] == events && more[..0] == [];
    } else {
      hide AfterEvery, BeforeEach;
      var n := |more| - 1;
      StaysStrandedExactly(events, more[..n]);
      AfterEveryByStep(StrandedAfter(events), more);
      BeforeEachByStep(NothingMoves(events), more);
      assert events + more == events + more[..n] + [more[n]];
      RunAppend(true, events + more[..n], more[n]);
      RunKeepsInv(true, events + more[..n]);
      if Stranded(Run(true, events + more[..n])) {
        StrandedMovesExactly(Run(true, events + more[..n]), more[n]);
      }
    }
  }

  /** Pulled while it is being reset: the restart that follows leaves the device stranded. */
  lemma RestartStrands(a: Analysis)
    requires !a.critical
    ensures var events := Connects(a) + [UsbDetach(a), Own(ModemCloses(0)), RestartRequested];
            !NeverStrands(true, events) && !WellDriven(Run(true, events)) && Stranded(Run(true, events))
  {
    ConnectsIsReady(a);
    var c := Connects(a);
    RunAppend(true, c, UsbDetach(a));
    RunAppend(true, c + [UsbDetach(a)], Own(ModemCloses(0)));
    RunAppend(true, c + [UsbDetach(a)] + [Own(ModemCloses(0))], RestartRequested);
    var events := c + [UsbDetach(a), Own(ModemCloses(0)), RestartRequested];
    assert c + [UsbDetach(a)] + [Own(ModemCloses(0))] + [RestartRequested] == events;
    assert events[..5] == c + [UsbDetach(a)] + [Own(ModemCloses(0))] && events[5] == RestartRequested;
    DetachIs(true, Run(true, c), a);
    hide Run, Connects;
    var w := Run(true, events[..5]);
    assert w.device.Some? && !w.device.value.hasModem && !OnBus(w);
    RestartStrandsExactlyOffBus(w.device.value);
    assert Strands(true, w, events[5]);
  }
}
