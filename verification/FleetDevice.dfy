/**
 * One managed device of the pool. Every await and timer of the readiness pipeline is
 * a step of its own; the functions say what each step does to the device.
 */
module FleetDevice {
  import opened Wrappers

  type ModemId = nat

  const MAX_ERROR_RETRIES: nat := 3

  datatype Readiness =
    | Detected
    | Assessing
    | Preparing
    | Connecting
    | Checking
    | Ready(modem: ModemId)
    | Degraded(modem: ModemId)
    | Error(recoverable: bool)
    | Offline

  datatype Stage = Provisioning | Opening

  /** An in-flight pipeline, with the abort signal and generation it captured when it started. */
  datatype Pipeline = Pipeline(signal: nat, generation: nat, stage: Stage)

  /**
   * A timer field holds the generation its callback captured. `hasModem` is whether
   * the session's current cycle has a modem. `pipelines`, `open` and `wired` stand for
   * what lives outside the device record: continuations waiting on an await, modems
   * returned and not closed, and modems that carry the pool's listeners. `runs` counts
   * pipeline starts in the current generation.
   */
  datatype Device = Device(
    readiness: Readiness,
    hasModem: bool,
    signal: nat,
    aborted: set<nat>,
    generation: nat,
    listeners: Option<ModemId>,
    retryTimer: Option<nat>,
    assessmentTimer: Option<nat>,
    stalled: bool,
    retryCount: nat,
    pipelines: map<nat, Pipeline>,
    nextPipeline: nat,
    open: set<ModemId>,
    wired: set<ModemId>,
    nextModem: ModemId,
    runs: nat)

  datatype ConnectOutcome = ConnectFailed | Healthy | Impaired

  datatype DeviceEvent =
    | Reattached(critical: bool)
    | Detached
    | StateChanged(critical: bool, onBus: bool)
    | GoneCleanup
    | Restart
    | AssessmentFires
    | RetryFires
    | Provisioned(p: nat, ok: bool)
    | Progress(p: nat)
    | Connected(p: nat, outcome: ConnectOutcome)
    | ModemCloses(m: ModemId)

  /** The open modem a readiness stage stands for. */
  function Held(r: Readiness): set<ModemId> {
    match r
    case Ready(m) => {m}
    case Degraded(m) => {m}
    case _ => {}
  }

  predicate Stale(d: Device, p: Pipeline) {
    p.signal in d.aborted || p.generation != d.generation
  }

  // -- Pipeline stages ----------------------------------------------------------------

  function StartPreparing(d: Device): Device {
    d.(readiness := Preparing,
       pipelines := d.pipelines[d.nextPipeline := Pipeline(d.signal, d.generation, Provisioning)],
       nextPipeline := d.nextPipeline + 1,
       runs := d.runs + 1)
  }

  function EvaluateAssessment(d: Device, critical: bool): Device {
    if critical then d.(readiness := Assessing)
    else if !d.hasModem then d.(assessmentTimer := None)
    else StartPreparing(d.(assessmentTimer := None))
  }

  function StartAssessment(d: Device, critical: bool): Device {
    EvaluateAssessment(d.(stalled := false, readiness := Assessing, assessmentTimer := Some(d.generation)), critical)
  }

  function Unwire(d: Device): Device {
    if d.listeners.None? then d else d.(wired := d.wired - {d.listeners.value}, listeners := None)
  }

  function CloseHeld(d: Device): Device {
    d.(open := d.open - Held(d.readiness))
  }

  // -- Pool handlers --------------------------------------------------------------------

  function Appeared(auto: bool, critical: bool): Device {
    var d := Device(Detected, true, 0, {}, 0, None, None, None, false, 0, map[], 0, {}, {}, 0, 0);
    if auto then StartAssessment(d, critical) else d
  }

  function OnReattached(auto: bool, d0: Device, critical: bool): Device {
    var d := d0.(hasModem := true);
    if !d.readiness.Offline? then d
    else
      var fresh' := d.(signal := d.signal + 1, generation := d.generation + 1, retryCount := 0, runs := 0,
                       readiness := Detected);
      if auto then StartAssessment(fresh', critical) else fresh'
  }

  function OnDetached(d0: Device): Device {
    var d := d0.(hasModem := false, aborted := d0.aborted + {d0.signal}, signal := d0.signal + 1,
                 generation := d0.generation + 1, retryTimer := None, assessmentTimer := None,
                 retryCount := 0, runs := 0);
    CloseHeld(Unwire(d)).(readiness := Offline)
  }

  function OnStateChanged(d0: Device, critical: bool, onBus: bool): Device {
    var d := d0.(hasModem := onBus);
    if d.readiness.Assessing? then EvaluateAssessment(d, critical)
    else if d.readiness == Error(true) && d.stalled && !critical && d.hasModem then
      EvaluateAssessment(d.(stalled := false), critical)
    else d
  }

  function OnGone(d: Device): Device {
    CloseHeld(Unwire(d.(retryTimer := None, assessmentTimer := None)))
  }

  function RestartDevice(auto: bool, d0: Device): Device {
    var d := Unwire(d0.(aborted := d0.aborted + {d0.signal}, signal := d0.signal + 1,
                        generation := d0.generation + 1, retryTimer := None))
             .(retryCount := 0, runs := 0, readiness := Detected);
    if auto then StartAssessment(d, false) else d
  }

  // -- Timers and completions --------------------------------------------------------------

  function OnAssessmentTimeout(d0: Device): Device {
    if d0.assessmentTimer.None? then d0
    else
      var d := d0.(assessmentTimer := None);
      if d.generation != d0.assessmentTimer.value || !d.readiness.Assessing? then d
      else d.(stalled := true, readiness := Error(true))
  }

  function OnRetryTimer(d0: Device): Device {
    if d0.retryTimer.None? then d0
    else
      var d := d0.(retryTimer := None);
      if d.generation != d0.retryTimer.value || !d.readiness.Error? then d
      else StartPreparing(d.(retryCount := d.retryCount + 1))
  }

  function PipelineFails(d0: Device, p: nat): Device
    requires p in d0.pipelines
  {
    var d := d0.(pipelines := d0.pipelines - {p});
    if Stale(d, d0.pipelines[p]) then d
    else
      var canRetry := d.retryCount < MAX_ERROR_RETRIES;
      d.(readiness := Error(canRetry), retryTimer := if canRetry then Some(d.generation) else d.retryTimer)
  }

  function OnProvisioned(d: Device, p: nat, ok: bool): Device {
    if p !in d.pipelines || d.pipelines[p].stage != Provisioning then d
    else if !ok then PipelineFails(d, p)
    else if Stale(d, d.pipelines[p]) then d.(pipelines := d.pipelines - {p})
    else d.(readiness := Connecting, pipelines := d.pipelines[p := d.pipelines[p].(stage := Opening)])
  }

  function OnProgress(d: Device, p: nat): Device {
    if p !in d.pipelines || d.pipelines[p].stage != Opening || Stale(d, d.pipelines[p]) then d
    else d.(readiness := Checking)
  }

  /** A stale pipeline closes the modem it was given; closing is taken as one step with its return. */
  function OnConnected(d: Device, p: nat, outcome: ConnectOutcome): Device {
    if p !in d.pipelines || d.pipelines[p].stage != Opening then d
    else if outcome.ConnectFailed? then PipelineFails(d, p)
    else
      var m := d.nextModem;
      var returned := d.(pipelines := d.pipelines - {p}, nextModem := m + 1);
      if Stale(d, d.pipelines[p]) then returned
      else returned.(open := d.open + {m}, wired := d.wired + {m}, listeners := Some(m),
                     readiness := if outcome.Impaired? then Degraded(m) else Ready(m))
  }

  /** A modem emits `close`; its listener, if still attached, marks a ready device offline. */
  function OnModemCloses(d: Device, m: ModemId): Device {
    var closed := d.(open := d.open - {m});
    if m in d.wired && (d.readiness.Ready? || d.readiness.Degraded?) then closed.(readiness := Offline) else closed
  }

  function Step(auto: bool, d: Device, e: DeviceEvent): Device {
    match e
    case Reattached(critical) => OnReattached(auto, d, critical)
    case Detached => OnDetached(d)
    case StateChanged(critical, onBus) => OnStateChanged(d, critical, onBus)
    case GoneCleanup => OnGone(d)
    case Restart => RestartDevice(auto, d)
    case AssessmentFires => OnAssessmentTimeout(d)
    case RetryFires => OnRetryTimer(d)
    case Provisioned(p, ok) => OnProvisioned(d, p, ok)
    case Progress(p) => OnProgress(d, p)
    case Connected(p, outcome) => OnConnected(d, p, outcome)
    case ModemCloses(m) => OnModemCloses(d, m)
  }

  // -- The pipeline invariant -----------------------------------------------------------

  predicate Current(d: Device, p: nat) {
    p in d.pipelines && d.pipelines[p].generation == d.generation
  }

  /** The stage a pipeline of the current generation must be in, given the readiness shown. */
  predicate Running(r: Readiness) {
    r.Preparing? || r.Connecting? || r.Checking?
  }

  ghost predicate SignalsOk(d: Device) {
    && d.signal == d.generation
    && (forall s | s in d.aborted :: s < d.signal)
    && (forall p | p in d.pipelines ::
          p < d.nextPipeline && d.pipelines[p].signal == d.pipelines[p].generation <= d.generation)
    && (forall p | p in d.pipelines && d.pipelines[p].generation != d.generation :: d.pipelines[p].signal in d.aborted)
  }

  /** At most one pipeline of the current generation is in flight, and the readiness shows its stage. */
  ghost predicate OneCurrent(d: Device) {
    && (forall p, q | Current(d, p) && Current(d, q) :: p == q)
    && (forall p | Current(d, p) :: Running(d.readiness) && (d.pipelines[p].stage.Provisioning? <==> d.readiness.Preparing?))
    && (Running(d.readiness) ==> exists p :: Current(d, p))
  }

  predicate TimersOk(d: Device) {
    && (d.retryTimer.Some? ==> d.retryTimer.value == d.generation && d.readiness == Error(true) && !d.stalled)
    && (d.assessmentTimer.Some? ==> d.assessmentTimer.value == d.generation && d.readiness.Assessing?)
    && (d.readiness == Error(true) ==> (d.retryTimer.Some? <==> !d.stalled))
    && (d.readiness == Error(false) ==> d.retryCount == MAX_ERROR_RETRIES)
    && (d.stalled ==> d.readiness == Error(true) || d.readiness.Offline?)
  }

  predicate RetriesOk(d: Device) {
    && d.retryCount <= MAX_ERROR_RETRIES
    && d.runs <= d.retryCount + 1
    && (d.retryTimer.Some? ==> d.retryCount < MAX_ERROR_RETRIES)
    && (d.readiness.Detected? || d.readiness.Assessing? || (d.readiness.Error? && d.stalled) ==>
          d.runs == 0 && d.retryCount == 0)
    && (Running(d.readiness) || (d.readiness.Error? && !d.stalled) ==> d.runs == d.retryCount + 1)
  }

  predicate ModeOk(auto: bool, d: Device) {
    && (auto ==> !d.readiness.Detected?)
    && (!auto ==>
         && (d.readiness.Detected? || d.readiness.Offline?) && d.pipelines == map[] && !d.stalled
         && d.retryTimer.None? && d.assessmentTimer.None?)
  }

  ghost predicate PipelineInv(auto: bool, d: Device) {
    SignalsOk(d) && OneCurrent(d) && TimersOk(d) && RetriesOk(d) && ModeOk(auto, d)
  }

  /** Off the bus nothing of the current generation is running or scheduled. */
  ghost predicate QuietOffBus(d: Device) {
    !d.hasModem ==>
      && (d.readiness.Offline? || d.readiness.Detected? || d.readiness.Assessing?)
      && d.retryTimer.None? && d.assessmentTimer.None?
  }

  lemma NotStaleIsCurrent(d: Device, p: nat)
    requires SignalsOk(d) && p in d.pipelines
    ensures Stale(d, d.pipelines[p]) <==> !Current(d, p)
  {
  }

  predicate Idle(d: Device) {
    forall p | p in d.pipelines :: d.pipelines[p].generation != d.generation
  }

  lemma IdleMeans(d: Device)
    ensures Idle(d) <==> forall p :: !Current(d, p)
    ensures OneCurrent(d) && !Running(d.readiness) ==> Idle(d)
  {
    if Idle(d) {
      assert forall p :: !Current(d, p);
    }
    if forall p :: !Current(d, p) {
      forall p | p in d.pipelines ensures d.pipelines[p].generation != d.generation {
        assert !Current(d, p);
      }
    }
  }

  lemma StartPreparingKeeps(auto: bool, d: Device)
    requires auto && SignalsOk(d) && Idle(d) && !d.stalled
    requires d.retryTimer.None? && d.assessmentTimer.None?
    requires d.retryCount <= MAX_ERROR_RETRIES && d.runs == d.retryCount
    ensures PipelineInv(auto, StartPreparing(d))
  {
    var d' := StartPreparing(d);
    assert d.nextPipeline !in d.pipelines;
    assert Current(d', d.nextPipeline);
    forall p | Current(d', p) ensures p == d.nextPipeline {
    }
  }

  /** Evaluating an assessment, begun in a generation that has not run a pipeline yet. */
  lemma EvaluateKeeps(auto: bool, d: Device, critical: bool)
    requires auto && SignalsOk(d) && Idle(d) && !d.stalled
    requires d.readiness.Assessing? || (!critical && d.hasModem)
    requires d.retryTimer.None? && d.retryCount == 0 && d.runs == 0
    requires d.assessmentTimer.Some? ==> d.assessmentTimer.value == d.generation
    ensures PipelineInv(auto, EvaluateAssessment(d, critical))
  {
    if !critical && d.hasModem {
      StartPreparingKeeps(auto, d.(assessmentTimer := None));
    } else {
      IdleMeans(EvaluateAssessment(d, critical));
    }
  }

  lemma StartAssessmentKeeps(auto: bool, d: Device, critical: bool)
    requires auto && SignalsOk(d) && Idle(d)
    requires d.retryTimer.None? && d.retryCount == 0 && d.runs == 0
    ensures PipelineInv(auto, StartAssessment(d, critical))
  {
    EvaluateKeeps(auto, d.(stalled := false, readiness := Assessing, assessmentTimer := Some(d.generation)), critical);
  }

  lemma AppearedOk(auto: bool, critical: bool)
    ensures PipelineInv(auto, Appeared(auto, critical)) && QuietOffBus(Appeared(auto, critical))
    ensures Appeared(auto, critical).hasModem
  {
    if auto {
      StartAssessmentKeeps(auto, Appeared(false, critical), critical);
    }
  }

  /** A new generation leaves every pipeline in flight behind. */
  lemma NewGenerationIsIdle(d: Device, d': Device)
    requires SignalsOk(d) && d'.generation > d.generation && d'.pipelines == d.pipelines
    ensures Idle(d')
  {
  }

  lemma ReattachedKeeps(auto: bool, d: Device, critical: bool)
    requires PipelineInv(auto, d)
    ensures PipelineInv(auto, OnReattached(auto, d, critical))
  {
    if d.readiness.Offline? {
      var d' := d.(hasModem := true, signal := d.signal + 1, generation := d.generation + 1, retryCount := 0,
                   runs := 0, readiness := Detected);
      NewGenerationIsIdle(d, d');
      if auto {
        StartAssessmentKeeps(auto, d', critical);
      }
    } else {
      SameCurrent(d, d.(hasModem := true));
    }
  }

  lemma SameCurrent(d: Device, d': Device)
    requires OneCurrent(d) && d'.pipelines == d.pipelines && d'.generation == d.generation
    requires d'.readiness == d.readiness
    ensures OneCurrent(d')
  {
    forall p ensures Current(d', p) <==> Current(d, p) {
    }
    if Running(d.readiness) {
      var p :| Current(d, p);
      assert Current(d', p);
    }
  }

  lemma DetachedKeeps(auto: bool, d: Device)
    requires PipelineInv(auto, d)
    ensures PipelineInv(auto, OnDetached(d)) && QuietOffBus(OnDetached(d))
  {
    NewGenerationIsIdle(d, OnDetached(d));
  }

  lemma StateChangedKeeps(auto: bool, d: Device, critical: bool, onBus: bool)
    requires PipelineInv(auto, d)
    ensures PipelineInv(auto, OnStateChanged(d, critical, onBus))
  {
    var d1 := d.(hasModem := onBus);
    SameCurrent(d, d1);
    IdleMeans(d);
    if d.readiness.Assessing? {
      EvaluateKeeps(auto, d1, critical);
    } else if d.readiness == Error(true) && d.stalled && !critical && onBus {
      EvaluateKeeps(auto, d1.(stalled := false), critical);
    }
  }

  lemma RestartKeeps(auto: bool, d: Device)
    requires PipelineInv(auto, d)
    ensures PipelineInv(auto, RestartDevice(auto, d))
  {
    var d' := Unwire(d.(aborted := d.aborted + {d.signal}, signal := d.signal + 1,
                        generation := d.generation + 1, retryTimer := None))
              .(retryCount := 0, runs := 0, readiness := Detected);
    NewGenerationIsIdle(d, d');
    AbortedWhenAbandoned(d, d');
    hide SignalsOk, OneCurrent, Idle, Unwire;
    if auto {
      StartAssessmentKeeps(auto, d', false);
    } else {
      IdleMeans(d');
    }
  }

  /** Starting over aborts the signal of the generation left behind. */
  lemma AbortedWhenAbandoned(d: Device, d': Device)
    requires SignalsOk(d) && d'.pipelines == d.pipelines && d'.nextPipeline == d.nextPipeline
    requires d'.signal == d'.generation == d.generation + 1 && d'.aborted == d.aborted + {d.signal}
    ensures SignalsOk(d')
  {
  }

  lemma TimeoutKeeps(auto: bool, d: Device)
    requires PipelineInv(auto, d)
    ensures PipelineInv(auto, OnAssessmentTimeout(d))
  {
    IdleMeans(d);
    IdleMeans(OnAssessmentTimeout(d));
  }

  lemma RetryKeeps(auto: bool, d: Device)
    requires PipelineInv(auto, d)
    ensures PipelineInv(auto, OnRetryTimer(d))
  {
    IdleMeans(d);
    if d.retryTimer.Some? {
      StartPreparingKeeps(auto, d.(retryTimer := None, retryCount := d.retryCount + 1));
    }
  }

  lemma FailureKeeps(auto: bool, d: Device, p: nat)
    requires PipelineInv(auto, d) && p in d.pipelines
    ensures PipelineInv(auto, PipelineFails(d, p))
  {
    NotStaleIsCurrent(d, p);
    RemovingKeeps(d, PipelineFails(d, p), p);
  }

  /** Taking a pipeline out of flight: a stale one changes nothing, the current one leaves the device idle. */
  lemma RemovingKeeps(d: Device, d': Device, p: nat)
    requires OneCurrent(d) && p in d.pipelines
    requires d'.pipelines == d.pipelines - {p} && d'.generation == d.generation
    requires if Current(d, p) then !Running(d'.readiness) else d'.readiness == d.readiness
    ensures OneCurrent(d')
  {
    forall q ensures Current(d', q) <==> Current(d, q) && q != p {
    }
    if Running(d'.readiness) {
      var q :| Current(d, q);
      assert Current(d', q);
    }
  }

  lemma ProvisionedKeeps(auto: bool, d: Device, p: nat, ok: bool)
    requires PipelineInv(auto, d)
    ensures PipelineInv(auto, OnProvisioned(d, p, ok))
  {
    if p in d.pipelines && d.pipelines[p].stage == Provisioning {
      NotStaleIsCurrent(d, p);
      var d' := OnProvisioned(d, p, ok);
      if !ok {
        FailureKeeps(auto, d, p);
      } else if Stale(d, d.pipelines[p]) {
        RemovingKeeps(d, d', p);
      } else {
        forall q ensures Current(d', q) <==> Current(d, q) {
        }
        assert Current(d', p);
      }
    }
  }

  lemma ProgressKeeps(auto: bool, d: Device, p: nat)
    requires PipelineInv(auto, d)
    ensures PipelineInv(auto, OnProgress(d, p))
  {
    if p in d.pipelines && d.pipelines[p].stage == Opening && !Stale(d, d.pipelines[p]) {
      NotStaleIsCurrent(d, p);
      var d' := OnProgress(d, p);
      forall q ensures Current(d', q) <==> Current(d, q) {
      }
      assert Current(d', p);
    }
  }

  lemma ConnectedKeeps(auto: bool, d: Device, p: nat, outcome: ConnectOutcome)
    requires PipelineInv(auto, d)
    ensures PipelineInv(auto, OnConnected(d, p, outcome))
  {
    if p in d.pipelines && d.pipelines[p].stage == Opening {
      NotStaleIsCurrent(d, p);
      if outcome.ConnectFailed? {
        FailureKeeps(auto, d, p);
      } else {
        RemovingKeeps(d, OnConnected(d, p, outcome), p);
      }
    }
  }

  lemma ModemClosesKeeps(auto: bool, d: Device, m: ModemId)
    requires PipelineInv(auto, d)
    ensures PipelineInv(auto, OnModemCloses(d, m))
  {
    IdleMeans(d);
    IdleMeans(OnModemCloses(d, m));
    if OnModemCloses(d, m).readiness == d.readiness {
      SameCurrent(d, OnModemCloses(d, m));
    }
  }

  /** Every step of a device that is still in the pool keeps the pipeline invariant. */
  lemma StepKeepsPipeline(auto: bool, d: Device, e: DeviceEvent)
    requires PipelineInv(auto, d) && !e.GoneCleanup?
    ensures PipelineInv(auto, Step(auto, d, e))
  {
    hide PipelineInv;
    match e
    case Reattached(critical) => ReattachedKeeps(auto, d, critical);
    case Detached => DetachedKeeps(auto, d);
    case StateChanged(critical, onBus) => StateChangedKeeps(auto, d, critical, onBus);
    case Restart => RestartKeeps(auto, d);
    case AssessmentFires => TimeoutKeeps(auto, d);
    case RetryFires => RetryKeeps(auto, d);
    case Provisioned(p, ok) => ProvisionedKeeps(auto, d, p, ok);
    case Progress(p) => ProgressKeeps(auto, d, p);
    case Connected(p, outcome) => ConnectedKeeps(auto, d, p, outcome);
    case ModemCloses(m) => ModemClosesKeeps(auto, d, m);
  }

  // -- What the invariant means ------------------------------------------------------------

  /** A pipeline whose generation has passed, or whose signal was aborted, changes nothing but itself. */
  lemma StalePipelineWritesNothing(auto: bool, d: Device, e: DeviceEvent, p: nat)
    requires e.Provisioned? || e.Progress? || e.Connected?
    requires e.p == p && p in d.pipelines && Stale(d, d.pipelines[p])
    ensures var d' := Step(auto, d, e);
            && (d'.pipelines == d.pipelines || d'.pipelines == d.pipelines - {p})
            && d' == d.(pipelines := d'.pipelines, nextModem := d'.nextModem)
  {
  }

  /** Readiness moves only forward through the stages of the one current pipeline. */
  lemma CurrentPipelineShowsItsStage(auto: bool, d: Device, p: nat, q: nat)
    requires PipelineInv(auto, d) && Current(d, p)
    ensures Current(d, q) ==> p == q
    ensures !Stale(d, d.pipelines[p])
    ensures d.pipelines[p].stage.Provisioning? ==> d.readiness.Preparing?
    ensures d.pipelines[p].stage.Opening? ==> d.readiness.Connecting? || d.readiness.Checking?
  {
    NotStaleIsCurrent(d, p);
  }

  /**
   * Errors never strand a device silently: a recoverable one has a retry pending or
   * is parked by the assessment timeout, a final one has used every retry, and no
   * generation starts more than four pipelines.
   */
  lemma ErrorsAreAccountedFor(auto: bool, d: Device)
    requires PipelineInv(auto, d)
    ensures d.readiness == Error(true) ==> (d.retryTimer == Some(d.generation) && !d.stalled)
                                           || (d.retryTimer.None? && d.stalled)
    ensures d.readiness == Error(false) ==> d.retryCount == MAX_ERROR_RETRIES && d.runs == MAX_ERROR_RETRIES + 1
    ensures d.retryCount <= MAX_ERROR_RETRIES && d.runs <= MAX_ERROR_RETRIES + 1
  {
  }

  // -- What each event shows on the device ----------------------------------------------------

  /** The completion of `p` belongs to the pipeline of the current generation and finds it waiting for it. */
  predicate Awaited(d: Device, e: DeviceEvent) {
    match e
    case Provisioned(p, _) => Current(d, p) && d.pipelines[p].stage.Provisioning?
    case Connected(p, _) => Current(d, p) && d.pipelines[p].stage.Opening?
    case Progress(p) => Current(d, p) && d.pipelines[p].stage.Opening?
    case _ => false
  }

  predicate Fails(e: DeviceEvent) {
    (e.Provisioned? && !e.ok) || (e.Connected? && e.outcome.ConnectFailed?)
  }

  /**
   * What the device shows after an awaited completion: connecting once provisioned, checking on progress,
   * degraded exactly on an impaired connect and ready exactly on a healthy one, in both
   * cases with the modem just returned; a failure is recoverable, with a retry scheduled,
   * exactly for the first three pipelines of a generation.
   */
  predicate Shows(d: Device, e: DeviceEvent, d': Device)
    requires Awaited(d, e)
  {
    && (d'.readiness == Connecting <==> e == Provisioned(e.p, true))
    && (d'.readiness == Checking <==> e.Progress?)
    && (d'.readiness == Degraded(d.nextModem) <==> e == Connected(e.p, Impaired))
    && (d'.readiness == Ready(d.nextModem) <==> e == Connected(e.p, Healthy))
    && (d'.readiness == Error(d.runs <= 3) <==> Fails(e))
    && (d'.retryTimer == Some(d.generation) <==> Fails(e) && d.runs <= 3)
    && (Current(d', e.p) <==> e.Progress? || e == Provisioned(e.p, true))
  }

  lemma CompletionShows(auto: bool, d: Device, e: DeviceEvent)
    requires PipelineInv(auto, d) && Awaited(d, e)
    ensures Shows(d, e, Step(auto, d, e))
  {
    NotStaleIsCurrent(d, e.p);
  }

  /** A device comes to hold a modem in no other way, and a degraded device never passes for a ready one. */
  lemma HeldOnlyByConnect(auto: bool, d: Device, e: DeviceEvent)
    requires PipelineInv(auto, d)
    requires !(e.Connected? && Awaited(d, e))
    ensures var d' := Step(auto, d, e);
            d'.readiness.Ready? || d'.readiness.Degraded? ==> d'.readiness == d.readiness
  {
    if (e.Connected? || e.Progress? || e.Provisioned?) && e.p in d.pipelines {
      NotStaleIsCurrent(d, e.p);
    }
  }

  /** The events that start a pipeline. */
  predicate Starts(auto: bool, d: Device, e: DeviceEvent) {
    match e
    case StateChanged(critical, onBus) =>
      !critical && onBus && (d.readiness.Assessing? || (d.readiness == Error(true) && d.stalled))
    case Reattached(critical) => auto && !critical && d.readiness.Offline?
    case Restart => auto && d.hasModem
    case RetryFires => d.retryTimer.Some?
    case _ => false
  }

  /** A pipeline starts on exactly those events: with the current signal and generation, from provisioning. */
  lemma StartsExactly(auto: bool, d: Device, e: DeviceEvent)
    requires PipelineInv(auto, d) && !e.GoneCleanup?
    ensures var d' := Step(auto, d, e);
            && (d'.nextPipeline == d.nextPipeline + 1 <==> Starts(auto, d, e))
            && (d'.nextPipeline == d.nextPipeline <==> !Starts(auto, d, e))
            && (Starts(auto, d, e) ==>
                  && d'.readiness == Preparing && !d'.stalled
                  && d'.pipelines == d.pipelines[d.nextPipeline := Pipeline(d'.signal, d'.generation, Provisioning)])
            && (!Starts(auto, d, e) ==> d'.pipelines.Keys <= d.pipelines.Keys)
  {
    hide SignalsOk, OneCurrent, Idle;
    if e.Connected? || e.Progress? || e.Provisioned? {
      CompletionStartsNothing(auto, d, e);
    }
  }

  lemma CompletionStartsNothing(auto: bool, d: Device, e: DeviceEvent)
    requires e.Connected? || e.Progress? || e.Provisioned?
    ensures Step(auto, d, e).nextPipeline == d.nextPipeline && Step(auto, d, e).pipelines.Keys <= d.pipelines.Keys
  {
  }

  // -- Modems ------------------------------------------------------------------------------

  /** Exactly the modem the device was last given carries its listeners, and a held modem always does. */
  predicate WiringOk(d: Device) {
    && d.wired == (if d.listeners.Some? then {d.listeners.value} else {})
    && (d.listeners.Some? ==>
          && d.listeners.value < d.nextModem
          && (d.readiness.Offline? || Held(d.readiness) == {d.listeners.value}))
    && (Held(d.readiness) != {} ==> d.listeners.Some?)
  }

  /** Every modem a pipeline returned is closed, or is the one the readiness stage holds. */
  predicate NoLeak(d: Device) {
    d.open == Held(d.readiness)
  }

  /** Restarting a device that still holds a modem gives the modem up without closing it. */
  predicate Abandons(d: Device, e: DeviceEvent) {
    e.Restart? && Held(d.readiness) != {}
  }

  lemma StepKeepsWiring(auto: bool, d: Device, e: DeviceEvent)
    requires PipelineInv(auto, d) && WiringOk(d) && !e.GoneCleanup?
    requires e.Reattached? && d.readiness.Offline? ==> d.listeners.None?
    ensures WiringOk(Step(auto, d, e))
  {
    if e.Connected? || e.Provisioned? || e.Progress? {
      if e.p in d.pipelines {
        NotStaleIsCurrent(d, e.p);
        if Current(d, e.p) {
          CurrentHasNoListeners(auto, d, e.p);
        }
      }
    }
    hide PipelineInv, Stale, Current;
  }

  lemma CurrentHasNoListeners(auto: bool, d: Device, p: nat)
    requires PipelineInv(auto, d) && WiringOk(d) && Current(d, p)
    ensures d.listeners.None? && d.wired == {} && !d.readiness.Offline? && Held(d.readiness) == {}
  {
  }

  /** A step leaks exactly when it restarts a device that holds a modem. */
  lemma StepLeaksExactly(auto: bool, d: Device, e: DeviceEvent)
    requires PipelineInv(auto, d) && WiringOk(d) && NoLeak(d) && !e.GoneCleanup?
    ensures NoLeak(Step(auto, d, e)) <==> !Abandons(d, e)
  {
    match e
    case Connected(p, outcome) =>
      if p in d.pipelines {
        NotStaleIsCurrent(d, p);
      }
    case Provisioned(p, ok) =>
      if p in d.pipelines {
        NotStaleIsCurrent(d, p);
      }
    case _ =>
  }

  // -- Forward progress ------------------------------------------------------------------------

  /** Something is scheduled or in flight that will move the device on from a transient stage. */
  ghost predicate Driven(d: Device) {
    && (d.readiness.Assessing? ==> d.assessmentTimer.Some?)
    && (Running(d.readiness) ==> exists p :: Current(d, p))
    && (d.readiness == Error(true) ==> d.retryTimer.Some? || d.stalled)
  }

  /** On the bus every step leaves the device driven. */
  lemma StaysDriven(auto: bool, d: Device, e: DeviceEvent)
    requires PipelineInv(auto, d) && Driven(d) && !e.GoneCleanup?
    requires e.StateChanged? ==> e.onBus
    requires e.Restart? ==> d.hasModem
    ensures Driven(Step(auto, d, e))
  {
    StepKeepsPipeline(auto, d, e);
  }

  /** Restarting a device that is off the bus parks it in assessment with no timeout; on the bus it never does. */
  lemma RestartStrandsExactlyOffBus(d: Device)
    ensures Driven(RestartDevice(true, d)) <==> d.hasModem
    ensures !d.hasModem ==> RestartDevice(true, d).readiness.Assessing? && RestartDevice(true, d).assessmentTimer.None?
  {
    if d.hasModem {
      assert Current(RestartDevice(true, d), d.nextPipeline);
    }
  }

  // -- After removal -------------------------------------------------------------------------

  /** A device the pool has dropped and that can no longer change its readiness. */
  ghost predicate Inert(d: Device) {
    && SignalsOk(d) && Idle(d) && d.retryTimer.None? && d.assessmentTimer.None? && d.wired == {}
  }

  lemma GoneIsInert(auto: bool, d: Device)
    requires PipelineInv(auto, d) && WiringOk(d) && QuietOffBus(d) && !d.hasModem
    ensures Inert(OnGone(d)) && OnGone(d).readiness == d.readiness
    ensures NoLeak(d) ==> OnGone(d).open == {}
  {
    IdleMeans(d);
  }

  /** The events that can still reach a dropped device: timers, completions and modem closes. */
  predicate Late(e: DeviceEvent) {
    e.AssessmentFires? || e.RetryFires? || e.Provisioned? || e.Progress? || e.Connected? || e.ModemCloses?
  }

  lemma InertStays(auto: bool, d: Device, e: DeviceEvent)
    requires Inert(d) && Late(e)
    ensures Inert(Step(auto, d, e)) && Step(auto, d, e).readiness == d.readiness
    ensures Step(auto, d, e).open <= d.open
  {
  }
}
