/**
 * The pool's mutable objects. A managed device is a record of fields that handlers,
 * timers and pipeline continuations update in place; the pool is a map of such
 * records, fed by an observer and a watcher. Every method is proved to do to its
 * device what the step functions say and to leave every other device alone, so the
 * invariants proved about all runs hold of every record at every moment.
 */
module FleetPool {
  import opened Wrappers
  import opened FleetDevice
  import opened FleetObserver
  import opened FleetWorld

  /**
   * What a timer, a completion or a closing modem keeps of a record: the pipeline,
   * wiring and off-bus invariants, every modem accounted for, and a dropped record's
   * readiness.
   */
  ghost predicate Kept(auto: bool, d: Device, d': Device) {
    && DeviceOk(auto, d') && d'.hasModem == d.hasModem
    && (NoLeak(d) ==> NoLeak(d'))
    && (!d.hasModem ==> Inert(d') && d'.readiness == d.readiness && d'.open <= d.open)
  }

  lemma OffBusIsInert(auto: bool, d: Device)
    requires DeviceOk(auto, d) && !d.hasModem
    ensures Inert(d) && OnGone(d) == d
  {
    GoneIsInert(auto, d);
  }

  lemma EventKeeps(auto: bool, d: Device, e: DeviceEvent)
    requires DeviceOk(auto, d) && Late(e)
    ensures Kept(auto, d, Step(auto, d, e)) && Step(auto, d, e) == Step(false, d, e)
  {
    OwnKeeps(auto, d, e);
    if NoLeak(d) {
      StepLeaksExactly(auto, d, e);
    }
    if !d.hasModem {
      OffBusIsInert(auto, d);
      InertStays(auto, d, e);
    }
    hide DeviceOk, Inert;
  }

  lemma EventKeepsRecord(d: Device, e: DeviceEvent)
    requires Late(e)
    ensures forall auto: bool | DeviceOk(auto, d) :: Kept(auto, d, Step(false, d, e)) && Step(auto, d, e) == Step(false, d, e)
  {
    forall auto: bool | DeviceOk(auto, d)
      ensures Kept(auto, d, Step(false, d, e)) && Step(auto, d, e) == Step(false, d, e)
    {
      EventKeeps(auto, d, e);
    }
  }

  lemma RestartKeepsRecord(auto: bool, d: Device)
    requires DeviceOk(auto, d)
    ensures var d' := RestartDevice(auto, d);
            DeviceOk(auto, d') && d'.hasModem == d.hasModem && (NoLeak(d) ==> (NoLeak(d') <==> Held(d.readiness) == {}))
  {
    OwnKeeps(auto, d, Restart);
    if NoLeak(d) {
      StepLeaksExactly(auto, d, Restart);
    }
    hide DeviceOk;
  }

  ghost predicate Sound(auto: bool, d: Device) {
    PipelineInv(auto, d) && WiringOk(d)
  }

  /** A detach from any sound state leaves the record quiet, and no modem open that was accounted for. */
  lemma DetachSettles(auto: bool, d: Device)
    requires Sound(auto, d)
    ensures var d' := OnDetached(d); DeviceOk(auto, d') && !d'.hasModem && (NoLeak(d) ==> d'.open == {})
  {
    DetachedKeeps(auto, d);
    StepKeepsWiring(auto, d, Detached);
    if NoLeak(d) {
      StepLeaksExactly(auto, d, Detached);
    }
    hide PipelineInv;
  }

  /** From whatever a record was, as long as it was sound, it is quiet now. */
  ghost predicate Quieted(d: Device, d': Device) {
    forall auto: bool | Sound(auto, d) ::
      DeviceOk(auto, d') && !d'.hasModem && (NoLeak(d) ==> d'.open == {})
  }

  lemma DetachQuiets(d: Device)
    ensures Quieted(d, OnDetached(d))
  {
    hide Sound, DeviceOk, NoLeak;
    forall auto: bool | Sound(auto, d)
      ensures var d' := OnDetached(d); DeviceOk(auto, d') && !d'.hasModem && (NoLeak(d) ==> d'.open == {})
    {
      DetachSettles(auto, d);
    }
  }

  /** A sound record without listeners is valid and on the bus again. */
  ghost predicate BroughtBack(auto: bool, d: Device, d': Device) {
    Sound(auto, d) && (d.readiness.Offline? ==> d.listeners.None?) ==>
      DeviceOk(auto, d') && d'.hasModem && (NoLeak(d) ==> NoLeak(d'))
  }

  lemma ReattachBrings(auto: bool, d: Device, critical: bool)
    ensures BroughtBack(auto, d, OnReattached(auto, d, critical))
  {
    hide Sound, DeviceOk, NoLeak;
    if Sound(auto, d) && (d.readiness.Offline? ==> d.listeners.None?) {
      ReattachSettles(auto, d, critical);
    }
  }

  /** A sound record stays sound, with every modem that was accounted for. */
  ghost predicate StaysSound(d: Device, d': Device) {
    forall auto: bool | Sound(auto, d) :: Sound(auto, d') && (NoLeak(d) ==> NoLeak(d'))
  }

  lemma ChangeStaysSound(d: Device, critical: bool, onBus: bool)
    ensures StaysSound(d, OnStateChanged(d, critical, onBus))
  {
    hide Sound, NoLeak;
    forall auto: bool | Sound(auto, d)
      ensures var d' := OnStateChanged(d, critical, onBus); Sound(auto, d') && (NoLeak(d) ==> NoLeak(d'))
    {
      ChangeStateKeeps(auto, d, critical, onBus);
    }
  }

  /** A valid record stays valid, its modems accounted for exactly when it held none. */
  ghost predicate Restarted(auto: bool, d: Device, d': Device) {
    DeviceOk(auto, d) ==>
      && DeviceOk(auto, d') && d'.hasModem == d.hasModem
      && (NoLeak(d) ==> (NoLeak(d') <==> Held(d.readiness) == {}))
  }

  lemma RestartRestarts(auto: bool, d: Device)
    ensures Restarted(auto, d, RestartDevice(auto, d))
  {
    hide DeviceOk, NoLeak;
    if DeviceOk(auto, d) {
      RestartKeepsRecord(auto, d);
    }
  }

  lemma ReattachSettles(auto: bool, d: Device, critical: bool)
    requires Sound(auto, d) && (d.readiness.Offline? ==> d.listeners.None?)
    ensures var d' := OnReattached(auto, d, critical); DeviceOk(auto, d') && d'.hasModem && (NoLeak(d) ==> NoLeak(d'))
  {
    ReattachedKeeps(auto, d, critical);
    StepKeepsWiring(auto, d, Reattached(critical));
    if NoLeak(d) {
      StepLeaksExactly(auto, d, Reattached(critical));
    }
    hide PipelineInv, WiringOk, NoLeak;
  }

  lemma ChangeStateKeeps(auto: bool, d: Device, critical: bool, onBus: bool)
    requires Sound(auto, d)
    ensures var d' := OnStateChanged(d, critical, onBus);
            Sound(auto, d') && d'.listeners == d.listeners && (NoLeak(d) ==> NoLeak(d'))
  {
    StateChangedKeeps(auto, d, critical, onBus);
    StepKeepsWiring(auto, d, StateChanged(critical, onBus));
    if NoLeak(d) {
      StepLeaksExactly(auto, d, StateChanged(critical, onBus));
    }
    hide PipelineInv, WiringOk;
  }

  lemma EventShows(d: Device, e: DeviceEvent)
    requires Late(e)
    ensures forall auto: bool | DeviceOk(auto, d) && Awaited(d, e) :: Shows(d, e, Step(false, d, e))
  {
    hide Shows, Awaited;
    forall auto: bool | DeviceOk(auto, d) && Awaited(d, e) ensures Shows(d, e, Step(false, d, e)) {
      CompletionShows(auto, d, e);
      StepOfLate(auto, d, e);
    }
  }

  lemma StepOfLate(auto: bool, d: Device, e: DeviceEvent)
    requires Late(e)
    ensures Step(auto, d, e) == Step(false, d, e)
  {
  }

  class ManagedDevice {
    var readiness: Readiness
    var hasModem: bool
    var abort: nat
    var pipelineGeneration: nat
    var modemListeners: Option<ModemId>
    var retryTimer: Option<nat>
    var assessmentTimer: Option<nat>
    var assessmentStalled: bool
    var retryCount: nat

    // Outside the record: abort controllers fired so far, continuations, and modems.
    var aborted: set<nat>
    var pipelines: map<nat, Pipeline>
    var nextPipeline: nat
    var open: set<ModemId>
    var wired: set<ModemId>
    var nextModem: ModemId
    var runs: nat

    function View(): Device
      reads this
    {
      Device(readiness, hasModem, abort, aborted, pipelineGeneration, modemListeners, retryTimer, assessmentTimer,
             assessmentStalled, retryCount, pipelines, nextPipeline, open, wired, nextModem, runs)
    }

    /**
     * At most one pipeline of the current generation, shown by the readiness; timers,
     * retries and listeners in order; and nothing scheduled off the bus.
     */
    ghost predicate Valid(auto: bool)
      reads this
    {
      DeviceOk(auto, View())
    }

    constructor ()
      ensures View() == Appeared(false, false)
    {
      readiness, hasModem, abort, pipelineGeneration := Detected, true, 0, 0;
      modemListeners, retryTimer, assessmentTimer, assessmentStalled, retryCount := None, None, None, false, 0;
      aborted, pipelines, nextPipeline, open, wired, nextModem, runs := {}, map[], 0, {}, {}, 0, 0;
    }

    method ClearRetryTimer()
      modifies this`retryTimer
      ensures View() == old(View()).(retryTimer := None)
    {
      if retryTimer.Some? {
        retryTimer := None;
      }
    }

    method ClearAssessmentTimer()
      modifies this`assessmentTimer
      ensures View() == old(View()).(assessmentTimer := None)
    {
      if assessmentTimer.Some? {
        assessmentTimer := None;
      }
    }

    // -- pipeline.ts -------------------------------------------------------------------

    method BeginAssessment(critical: bool)
      modifies this
      ensures View() == StartAssessment(old(View()), critical)
    {
      ClearAssessmentTimer();
      assessmentStalled := false;
      readiness := Assessing;
      assessmentTimer := Some(pipelineGeneration);
      Evaluate(critical);
    }

    method Evaluate(critical: bool)
      modifies this
      ensures View() == EvaluateAssessment(old(View()), critical)
    {
      if critical {
        readiness := Assessing;
        return;
      }
      ClearAssessmentTimer();
      if !hasModem {
        return;
      }
      BeginPreparing();
    }

    /** Starts a pipeline, which captures the current signal and generation. */
    method BeginPreparing()
      modifies this
      ensures View() == StartPreparing(old(View()))
    {
      readiness := Preparing;
      var signal, generation := abort, pipelineGeneration;
      pipelines := pipelines[nextPipeline := Pipeline(signal, generation, Provisioning)];
      nextPipeline := nextPipeline + 1;
      runs := runs + 1;
    }

    method AssessmentTimeout()
      modifies this
      ensures View() == OnAssessmentTimeout(old(View()))
    {
      if assessmentTimer.None? {
        return;
      }
      var generation := assessmentTimer.value;
      assessmentTimer := None;
      if pipelineGeneration != generation {
        return;
      }
      if !readiness.Assessing? {
        return;
      }
      assessmentStalled := true;
      readiness := Error(true);
    }

    /** The pipeline's promise rejected. */
    method Fail(p: nat)
      requires p in pipelines
      modifies this
      ensures View() == PipelineFails(old(View()), p)
    {
      var signal, generation := pipelines[p].signal, pipelines[p].generation;
      pipelines := pipelines - {p};
      if signal in aborted {
        return;
      }
      if pipelineGeneration != generation {
        return;
      }
      var canRetry := retryCount < MAX_ERROR_RETRIES;
      readiness := Error(canRetry);
      if canRetry {
        ClearRetryTimer();
        retryTimer := Some(pipelineGeneration);
      }
    }

    method Retry()
      modifies this
      ensures View() == OnRetryTimer(old(View()))
    {
      if retryTimer.None? {
        return;
      }
      var generation := retryTimer.value;
      retryTimer := None;
      if pipelineGeneration != generation {
        return;
      }
      if !readiness.Error? {
        return;
      }
      retryCount := retryCount + 1;
      BeginPreparing();
    }

    /** Provisioning settled. */
    method AfterProvision(p: nat, ok: bool)
      requires p in pipelines && pipelines[p].stage == Provisioning
      modifies this
      ensures View() == OnProvisioned(old(View()), p, ok)
    {
      if !ok {
        Fail(p);
        return;
      }
      if pipelines[p].signal in aborted || pipelineGeneration != pipelines[p].generation {
        pipelines := pipelines - {p};
        return;
      }
      readiness := Connecting;
      pipelines := pipelines[p := pipelines[p].(stage := Opening)];
    }

    method CheckingStarted(p: nat)
      requires p in pipelines && pipelines[p].stage == Opening
      modifies this`readiness
      ensures View() == OnProgress(old(View()), p)
    {
      if pipelines[p].signal in aborted || pipelineGeneration != pipelines[p].generation {
        return;
      }
      readiness := Checking;
    }

    /** The connection settled, on success with a modem of its own. */
    method AfterConnect(p: nat, outcome: ConnectOutcome)
      requires p in pipelines && pipelines[p].stage == Opening
      modifies this
      ensures View() == OnConnected(old(View()), p, outcome)
    {
      if outcome.ConnectFailed? {
        Fail(p);
        return;
      }
      var instance := nextModem;
      nextModem := nextModem + 1;
      var stale := pipelines[p].signal in aborted || pipelineGeneration != pipelines[p].generation;
      pipelines := pipelines - {p};
      if stale {
        // The new instance is closed without touching the device.
        return;
      }
      open := open + {instance};
      WireModem(instance);
      readiness := if outcome.Impaired? then Degraded(instance) else Ready(instance);
    }

    // -- pool.ts, for one device -----------------------------------------------------------

    method WireModem(instance: ModemId)
      modifies this`wired, this`modemListeners
      ensures View() == old(View()).(wired := old(wired) + {instance}, listeners := Some(instance))
    {
      wired := wired + {instance};
      modemListeners := Some(instance);
    }

    method UnwireModem()
      modifies this`wired, this`modemListeners
      ensures View() == Unwire(old(View()))
    {
      if modemListeners.None? {
        return;
      }
      wired := wired - {modemListeners.value};
      modemListeners := None;
    }

    method CloseHeldModem()
      modifies this`open
      ensures View() == CloseHeld(old(View()))
    {
      match readiness
      case Ready(m) => open := open - {m};
      case Degraded(m) => open := open - {m};
      case _ => open := open - {};
    }

    method ModemClosed(m: ModemId)
      modifies this`open, this`readiness
      ensures View() == OnModemCloses(old(View()), m)
    {
      open := open - {m};
      if m in wired {
        if readiness.Ready? || readiness.Degraded? {
          readiness := Offline;
        }
      }
    }

    method NewGeneration()
      modifies this`aborted, this`abort, this`pipelineGeneration
      ensures View() == old(View()).(aborted := old(aborted) + {old(abort)}, signal := old(abort) + 1,
                                     generation := old(pipelineGeneration) + 1)
    {
      aborted := aborted + {abort};
      abort := abort + 1;
      pipelineGeneration := pipelineGeneration + 1;
    }

    method Reattach(auto: bool, critical: bool)
      modifies this
      ensures View() == OnReattached(auto, old(View()), critical)
      ensures BroughtBack(auto, old(View()), View())
    {
      ReattachBrings(auto, View(), critical);
      hide BroughtBack, StartAssessment;
      hasModem := true;
      if readiness.Offline? {
        abort := abort + 1;
        pipelineGeneration := pipelineGeneration + 1;
        retryCount, runs := 0, 0;
        readiness := Detected;
        if auto {
          BeginAssessment(critical);
        }
      }
    }

    method AbortWork()
      modifies this`aborted, this`abort, this`pipelineGeneration, this`retryTimer, this`assessmentTimer
      ensures View() == old(View()).(aborted := old(aborted) + {old(abort)}, signal := old(abort) + 1,
                                     generation := old(pipelineGeneration) + 1, retryTimer := None,
                                     assessmentTimer := None)
    {
      NewGeneration();
      ClearRetryTimer();
      ClearAssessmentTimer();
    }

    method Detach()
      modifies this
      ensures View() == OnDetached(old(View())) && Quieted(old(View()), View())
    {
      DetachQuiets(View());
      hide Quieted, Unwire, CloseHeld;
      hasModem := false;
      AbortWork();
      retryCount, runs := 0, 0;
      LetGo();
    }

    /** Listeners off, a held modem closed, offline. */
    method LetGo()
      modifies this`wired, this`modemListeners, this`open, this`readiness
      ensures View() == CloseHeld(Unwire(old(View()))).(readiness := Offline)
    {
      UnwireModem();
      CloseHeldModem();
      readiness := Offline;
    }

    method ChangeState(critical: bool, onBus: bool)
      modifies this
      ensures View() == OnStateChanged(old(View()), critical, onBus) && StaysSound(old(View()), View())
    {
      ChangeStaysSound(View(), critical, onBus);
      hide StaysSound;
      hasModem := onBus;
      if readiness.Assessing? {
        Evaluate(critical);
        return;
      }
      if readiness.Error? && readiness.recoverable && assessmentStalled && !critical && onBus {
        assessmentStalled := false;
        Evaluate(critical);
      }
    }

    method CleanUp()
      modifies this
      ensures View() == OnGone(old(View()))
      ensures forall auto: bool | old(Valid(auto)) && !old(hasModem) ::
                Valid(auto) && Inert(View()) && View() == old(View())
    {
      forall auto: bool | Valid(auto) && !hasModem ensures Inert(View()) && OnGone(View()) == View() {
        OffBusIsInert(auto, View());
      }
      hide DeviceOk, Inert;
      ClearRetryTimer();
      ClearAssessmentTimer();
      UnwireModem();
      CloseHeldModem();
    }

    method Restart(auto: bool)
      modifies this
      ensures View() == RestartDevice(auto, old(View())) && Restarted(auto, old(View()), View())
    {
      RestartRestarts(auto, View());
      hide Restarted, Unwire, StartAssessment;
      NewGeneration();
      ClearRetryTimer();
      UnwireModem();
      retryCount, runs := 0, 0;
      readiness := Detected;
      if auto {
        BeginAssessment(false);
      }
    }

    /** A timer, completion or close that reaches this record, which the pool may have dropped by then. */
    method Handle(e: DeviceEvent)
      requires Late(e)
      modifies this
      ensures View() == Step(false, old(View()), e)
      ensures forall auto: bool | old(Valid(auto)) :: Kept(auto, old(View()), View()) && View() == Step(auto, old(View()), e)
      ensures forall auto: bool | old(Valid(auto)) && Awaited(old(View()), e) :: Shows(old(View()), e, View())
    {
      EventKeepsRecord(View(), e);
      EventShows(View(), e);
      hide Kept, DeviceOk, Shows, Awaited;
      match e
      case AssessmentFires => AssessmentTimeout();
      case RetryFires => Retry();
      case Provisioned(p, ok) =>
        if p in pipelines && pipelines[p].stage == Provisioning {
          AfterProvision(p, ok);
        }
      case Progress(p) =>
        if p in pipelines && pipelines[p].stage == Opening {
          CheckingStarted(p);
        }
      case Connected(p, outcome) =>
        if p in pipelines && pipelines[p].stage == Opening {
          AfterConnect(p, outcome);
        }
      case ModemCloses(m) => ModemClosed(m);
    }
  }

  class ModemPool {
    const autoProvision: bool
    var devices: map<DeviceId, ManagedDevice>

    /** No record is filed under two ids. */
    ghost predicate Valid()
      reads this
    {
      forall i, j | i in devices && j in devices && devices[i] == devices[j] :: i == j
    }

    function At(id: DeviceId): Option<Device>
      reads this, devices.Values
    {
      if id in devices then Some(devices[id].View()) else None
    }

    ghost function Records(id: DeviceId): set<object>
      reads this
    {
      if id in devices then {devices[id]} else {}
    }

    constructor (auto: bool)
      ensures Valid() && autoProvision == auto && devices == map[]
    {
      autoProvision := auto;
      devices := map[];
    }

    method OnDeviceAppeared(id: DeviceId, critical: bool)
      requires Valid()
      modifies this`devices
      ensures Valid() && devices.Keys == old(devices.Keys) + {id} && fresh(devices[id])
      ensures At(id) == Some(Appeared(autoProvision, critical))
      ensures forall other | other != id && other in old(devices) :: devices[other] == old(devices[other])
      ensures forall other | other != id :: At(other) == old(At(other))
    {
      var device := new ManagedDevice();
      devices := devices[id := device];
      if autoProvision {
        device.BeginAssessment(critical);
      }
    }

    method OnDeviceReattached(id: DeviceId, critical: bool)
      requires Valid()
      modifies Records(id)
      ensures Valid()
      ensures old(At(id)).None? ==> At(id).None?
      ensures old(At(id)).Some? ==> At(id) == Some(OnReattached(autoProvision, old(At(id)).value, critical))
      ensures forall other | other != id :: At(other) == old(At(other))
    {
      if id !in devices {
        return;
      }
      devices[id].Reattach(autoProvision, critical);
    }

    method OnDeviceDetached(id: DeviceId)
      requires Valid()
      modifies Records(id)
      ensures Valid()
      ensures old(At(id)).None? ==> At(id).None?
      ensures old(At(id)).Some? ==> At(id) == Some(OnDetached(old(At(id)).value))
      ensures forall other | other != id :: At(other) == old(At(other))
    {
      if id !in devices {
        return;
      }
      devices[id].Detach();
    }

    method OnDeviceStateChanged(id: DeviceId, critical: bool, onBus: bool)
      requires Valid()
      modifies Records(id)
      ensures Valid()
      ensures old(At(id)).None? ==> At(id).None?
      ensures old(At(id)).Some? ==> At(id) == Some(OnStateChanged(old(At(id)).value, critical, onBus))
      ensures forall other | other != id :: At(other) == old(At(other))
    {
      if id !in devices {
        return;
      }
      devices[id].ChangeState(critical, onBus);
    }

    method OnDeviceGone(id: DeviceId) returns (removed: Option<ManagedDevice>)
      requires Valid()
      modifies this`devices, Records(id)
      ensures Valid() && devices == old(devices) - {id}
      ensures old(At(id)).None? ==> removed.None?
      ensures old(At(id)).Some? ==>
                removed == Some(old(devices[id])) && removed.value.View() == OnGone(old(At(id)).value)
      ensures forall other | other != id :: At(other) == old(At(other))
    {
      removed := None;
      if id in devices {
        var device := devices[id];
        device.CleanUp();
        removed := Some(device);
      }
      devices := devices - {id};
    }

    /** Fails when the id is not in the pool. */
    method Restart(id: DeviceId) returns (found: bool)
      requires Valid()
      modifies Records(id)
      ensures Valid() && (found <==> old(At(id)).Some?)
      ensures found ==> At(id) == Some(RestartDevice(autoProvision, old(At(id)).value))
      ensures forall other | other != id || !found :: At(other) == old(At(other))
    {
      if id !in devices {
        return false;
      }
      devices[id].Restart(autoProvision);
      return true;
    }

    /** A timer, completion or close of a device in the pool. */
    method OnDeviceEvent(id: DeviceId, e: DeviceEvent)
      requires Valid() && Late(e)
      modifies Records(id)
      ensures Valid()
      ensures old(At(id)).None? ==> At(id).None?
      ensures old(At(id)).Some? ==> At(id) == Some(Step(false, old(At(id)).value, e))
      ensures forall other | other != id :: At(other) == old(At(other))
    {
      if id !in devices {
        return;
      }
      devices[id].Handle(e);
    }

    /** Each observer event has its handler; together they take the step of the world model. */
    method OnObserverEvent(id: DeviceId, e: Emission) returns (removed: Option<ManagedDevice>)
      requires Valid()
      modifies this`devices, Records(id)
      ensures Valid()
      ensures id in devices ==> fresh(devices[id]) || (id in old(devices) && devices[id] == old(devices[id]))
      ensures removed == if e.DeviceGone? && id in old(devices) then Some(old(devices[id])) else None
      ensures removed.Some? ==> removed.value.View() == OnGone(old(At(id)).value)
      ensures forall w: World | w.device == old(At(id)) :: Deliver(autoProvision, w, e).device == At(id)
      ensures forall other | other != id :: At(other) == old(At(other))
    {
      removed := None;
      match e
      case DeviceAppeared(critical) => OnDeviceAppeared(id, critical);
      case DeviceAttached(critical) => OnDeviceReattached(id, critical);
      case DeviceStateChanged(critical, onBus) => OnDeviceStateChanged(id, critical, onBus);
      case DeviceDetached => OnDeviceDetached(id);
      case DeviceGone => removed := OnDeviceGone(id);
    }
  }

  /**
   * The pool with the observer it listens to and the watcher that feeds the observer.
   * `known` is the watcher's record of attached devices.
   */
  class Fleet {
    const pool: ModemPool
    const observer: DeviceObserver
    var known: set<DeviceId>

    /** Everything about one id, apart from the records the pool has dropped. */
    ghost function At(id: DeviceId): World
      requires observer.Valid()
      reads this, observer, pool, pool.devices.Values
    {
      World(id in known, observer.At(id), pool.At(id), [])
    }

    /** The invariant of all runs holds of every id: of every record in the pool, its session and its timers. */
    ghost predicate Valid()
      reads this, observer, pool, pool.devices.Values
    {
      observer.Valid() && pool.Valid() && forall id :: WorldInv(pool.autoProvision, At(id))
    }

    constructor (auto: bool)
      ensures Valid() && fresh(pool) && fresh(observer) && pool.autoProvision == auto
      ensures forall id :: At(id) == Run(auto, [])
    {
      pool := new ModemPool(auto);
      observer := new DeviceObserver();
      known := {};
    }

    /** The pool's handlers run for each event the observer emitted, in order. */
    method Deliver(id: DeviceId, emitted: seq<Emission>, ghost w: World) returns (removed: Option<ManagedDevice>)
      requires pool.Valid() && w.device == pool.At(id)
      modifies pool`devices, pool.Records(id)
      ensures pool.Valid() && pool.At(id) == DeliverAll(pool.autoProvision, w, emitted).device
      ensures forall other | other != id :: pool.At(other) == old(pool.At(other))
      ensures emitted == [DeviceGone] && old(pool.At(id)).Some? ==>
                removed == Some(old(pool.devices[id])) && removed.value.View() == OnGone(old(pool.At(id)).value)
    {
      removed := None;
      for i := 0 to |emitted|
        invariant pool.Valid() && pool.At(id) == DeliverAll(pool.autoProvision, w, emitted[..i]).device
        invariant forall other | other != id :: pool.At(other) == old(pool.At(other))
        invariant id in pool.devices ==>
                    fresh(pool.devices[id]) || (id in old(pool.devices) && pool.devices[id] == old(pool.devices[id]))
        invariant i == 0 ==> pool.devices == old(pool.devices) && pool.At(id) == old(pool.At(id))
        invariant i == 1 && emitted == [DeviceGone] && old(pool.At(id)).Some? ==>
                    removed == Some(old(pool.devices[id])) && removed.value.View() == OnGone(old(pool.At(id)).value)
      {
        ghost var before := DeliverAll(pool.autoProvision, w, emitted[..i]);
        assert emitted[..i + 1][..i] == emitted[..i];
        removed := pool.OnObserverEvent(id, emitted[i]);
        assert pool.At(id) == FleetWorld.Deliver(pool.autoProvision, before, emitted[i]).device;
      }
      assert emitted[..|emitted|] == emitted;
    }

    /** The watcher's part of an attach of a device it does not know yet, before the invariants are drawn. */
    method FeedAttach(id: DeviceId, a: Analysis, ghost w: World) returns (ghost emitted: seq<Emission>)
      requires observer.Valid() && pool.Valid() && w == At(id)
      modifies this, observer, pool`devices, pool.Records(id)
      ensures observer.Valid() && pool.Valid() && known == old(known) + {id}
      ensures (observer.At(id), emitted) == HandleAttach(w.obs, a)
      ensures pool.At(id) == DeliverAll(pool.autoProvision, w.(known := true, obs := observer.At(id)), emitted).device
      ensures forall other | other != id :: At(other) == old(At(other))
    {
      hide HandleAttach, DeliverAll;
      known := known + {id};
      var events := observer.OnAttach(id, a);
      var removed := Deliver(id, events, w.(known := true, obs := observer.At(id)));
      emitted := events;
    }

    method FeedDetach(id: DeviceId, a: Analysis, ghost w: World) returns (ghost emitted: seq<Emission>)
      requires observer.Valid() && pool.Valid() && w == At(id)
      modifies this, observer, pool`devices, pool.Records(id)
      ensures observer.Valid() && pool.Valid() && known == old(known) - {id} && observer.nextTimer >= old(observer.nextTimer)
      ensures (observer.At(id), emitted) == HandleDetach(w.obs, a)
      ensures pool.At(id) == DeliverAll(pool.autoProvision, w.(known := false, obs := observer.At(id)), emitted).device
      ensures forall other | other != id :: SameButTimers(At(other), old(At(other)))
    {
      hide HandleDetach, DeliverAll;
      known := known - {id};
      var events := observer.OnDetach(id, a);
      var removed := Deliver(id, events, w.(known := false, obs := observer.At(id)));
      emitted := events;
    }

    method OnUsbAttach(id: DeviceId, a: Analysis)
      requires Valid()
      modifies this, observer, pool`devices, pool.Records(id)
      ensures Valid() && At(id) == WorldStep(pool.autoProvision, old(At(id)), UsbAttach(a))
      ensures forall other | other != id :: At(other) == old(At(other))
    {
      ghost var auto, was := pool.autoProvision, At(id);
      assert WorldInv(auto, was);
      WorldStepKeeps(auto, was, UsbAttach(a));
      if id in known {
        return;
      }
      AttachDelivers(auto, was, a);
      hide WorldInv, WorldStep, DeliverAll, HandleAttach;
      ghost var emitted := FeedAttach(id, a, was);
      forall other ensures WorldInv(auto, At(other)) {
        assert other != id ==> At(other) == old(At(other)) && old(WorldInv(auto, At(other)));
      }
    }

    method OnUsbDetach(id: DeviceId, a: Analysis)
      requires Valid()
      modifies this, observer, pool`devices, pool.Records(id)
      ensures Valid() && At(id) == WorldStep(pool.autoProvision, old(At(id)), UsbDetach(a))
      ensures forall other | other != id :: SameButTimers(At(other), old(At(other)))
    {
      ghost var auto, was := pool.autoProvision, At(id);
      assert WorldInv(auto, was);
      WorldStepKeeps(auto, was, UsbDetach(a));
      if id !in known {
        return;
      }
      DetachDelivers(auto, was, a);
      hide WorldInv, WorldStep, DeliverAll, HandleDetach, SameButTimers;
      ghost var emitted := FeedDetach(id, a, was);
      forall other ensures WorldInv(auto, At(other)) {
        if other != id {
          assert old(WorldInv(auto, At(other)));
          TimersAdvance(auto, At(other), old(At(other)));
        }
      }
    }

    method FeedGone(id: DeviceId, t: nat, ghost w: World) returns (removed: ManagedDevice)
      requires observer.Valid() && pool.Valid() && w == At(id) && t in observer.running && observer.running[t] == id
      requires id in pool.devices && GoneFires(w.obs, t).1 == [DeviceGone]
      modifies observer, pool`devices, pool.Records(id)
      ensures observer.Valid() && pool.Valid() && observer.At(id) == GoneFires(w.obs, t).0
      ensures removed == old(pool.devices[id]) && removed.View() == OnGone(old(pool.devices[id].View()))
      ensures pool.At(id) == DeliverAll(pool.autoProvision, w.(obs := observer.At(id)), [DeviceGone]).device
      ensures forall other | other != id :: At(other) == old(At(other))
    {
      hide GoneFires, DeliverAll;
      var events := observer.OnGoneTimer(t);
      var dropped := Deliver(id, events, w.(obs := observer.At(id)));
      removed := dropped.value;
    }

    /** A gone timer fires: the record it drops can no longer change its readiness. */
    method OnGoneTimer(t: nat) returns (removed: ManagedDevice)
      requires Valid() && t in observer.running
      modifies observer, pool`devices, pool.Records(observer.running[t])
      ensures Valid()
      ensures var id := old(observer.running[t]);
              && id in old(pool.devices) && removed == old(pool.devices[id]) && Inert(removed.View())
              && At(id) == WorldStep(pool.autoProvision, old(At(id)), GoneTimer(t)).(dropped := [])
              && WorldStep(pool.autoProvision, old(At(id)), GoneTimer(t)).dropped == [removed.View()]
      ensures forall other | other != old(observer.running[t]) :: At(other) == old(At(other))
    {
      var id := observer.running[t];
      ghost var auto, was := pool.autoProvision, At(id);
      assert WorldInv(auto, was);
      WorldStepKeeps(auto, was, GoneTimer(t));
      GoneDelivers(auto, was, t);
      hide WorldInv, Inert, WorldStep, DeliverAll, GoneFires;
      removed := FeedGone(id, t, was);
      forall other ensures WorldInv(auto, At(other)) {
        assert other != id ==> At(other) == old(At(other)) && old(WorldInv(auto, At(other)));
      }
    }

    /** Fails when the id is not in the pool. */
    method Restart(id: DeviceId) returns (found: bool)
      requires Valid()
      modifies pool.Records(id)
      ensures Valid() && (found <==> id in pool.devices)
      ensures At(id) == WorldStep(pool.autoProvision, old(At(id)), RestartRequested)
      ensures forall other | other != id :: At(other) == old(At(other))
    {
      ghost var auto, was := pool.autoProvision, At(id);
      assert WorldInv(auto, was);
      WorldStepKeeps(auto, was, RestartRequested);
      hide WorldInv;
      found := pool.Restart(id);
      forall other ensures WorldInv(auto, At(other)) {
        assert other != id ==> At(other) == old(At(other)) && old(WorldInv(auto, At(other)));
      }
    }

    /** A timer, completion or close reaches a device in the pool. */
    method OnDeviceEvent(id: DeviceId, e: DeviceEvent)
      requires Valid() && Late(e)
      modifies pool.Records(id)
      ensures Valid() && At(id) == WorldStep(pool.autoProvision, old(At(id)), Own(e))
      ensures forall other | other != id :: At(other) == old(At(other))
    {
      ghost var auto, was := pool.autoProvision, At(id);
      assert WorldInv(auto, was);
      WorldStepKeeps(auto, was, Own(e));
      OwnStepIs(auto, was, e);
      hide WorldInv, WorldStep, Step;
      pool.OnDeviceEvent(id, e);
      forall other ensures WorldInv(auto, At(other)) {
        assert other != id ==> At(other) == old(At(other)) && old(WorldInv(auto, At(other)));
      }
    }
  }

  /** Timer numbers are shared between ids, so another id's detach advances them. */
  predicate SameButTimers(w: World, was: World) {
    was.obs.nextTimer <= w.obs.nextTimer && w == was.(obs := was.obs.(nextTimer := w.obs.nextTimer))
  }

  lemma AttachDelivers(auto: bool, w: World, a: Analysis)
    requires WorldInv(auto, w) && !w.known
    ensures var (o, emitted) := HandleAttach(w.obs, a);
            WorldStep(auto, w, UsbAttach(a))
            == w.(known := true, obs := o, device := DeliverAll(auto, w.(known := true, obs := o), emitted).device)
  {
    AttachIs(auto, w, a);
    hide DeviceOk, AfterChange, HandleAttach;
  }

  lemma OwnStepIs(auto: bool, w: World, e: DeviceEvent)
    requires Late(e)
    ensures WorldStep(auto, w, Own(e))
            == if w.device.None? then w else w.(device := Some(Step(false, w.device.value, e)))
  {
  }

  lemma GoneDelivers(auto: bool, w: World, t: nat)
    requires WorldInv(auto, w) && t in w.obs.running
    ensures var (o, emitted) := GoneFires(w.obs, t);
            && emitted == [DeviceGone] && w.device.Some?
            && WorldStep(auto, w, GoneTimer(t)) == w.(obs := o, device := None, dropped := w.dropped + [OnGone(w.device.value)])
            && DeliverAll(auto, w.(obs := o), [DeviceGone]).device.None? && Inert(OnGone(w.device.value))
  {
    GoneKeeps(auto, w, t);
    DeliverOne(auto, w.(obs := GoneFires(w.obs, t).0), DeviceGone);
    hide DeviceOk, Inert;
  }

  lemma DetachDelivers(auto: bool, w: World, a: Analysis)
    requires WorldInv(auto, w) && w.known
    ensures var (o, emitted) := HandleDetach(w.obs, a);
            WorldStep(auto, w, UsbDetach(a))
            == w.(known := false, obs := o, device := DeliverAll(auto, w.(known := false, obs := o), emitted).device)
  {
    DetachIs(auto, w, a);
    hide DeviceOk, HandleDetach;
  }

  lemma TimersAdvance(auto: bool, w: World, was: World)
    requires SameButTimers(w, was) && WorldInv(auto, was)
    ensures WorldInv(auto, w)
  {
    hide DeviceOk;
  }
}
