/**
 * The USB observer, for one device id: a session that is on or off the bus, the
 * analysis last reported for it, and the timers that will declare it gone. Vendor
 * resolvers are an oracle: each event carries the analysis they return.
 */
module FleetObserver {
  import opened Wrappers

  datatype Analysis = Analysis(state: nat, critical: bool)

  datatype Session = Session(onBus: bool, lastState: nat)

  datatype Emission =
    | DeviceAppeared(critical: bool)
    | DeviceAttached(critical: bool)
    | DeviceStateChanged(critical: bool, onBus: bool)
    | DeviceDetached
    | DeviceGone

  /** `gone` is the timer on file for the id; `running` is every timer that has not fired or been cleared. */
  datatype Observed = Observed(session: Option<Session>, gone: Option<nat>, running: set<nat>, nextTimer: nat)

  const UNSEEN: Observed := Observed(None, None, {}, 0)

  function Changes(s: Session, a: Analysis, onBus: bool): seq<Emission> {
    if s.lastState != a.state then [DeviceStateChanged(a.critical, onBus)] else []
  }

  function CancelGone(o: Observed): Observed {
    if o.gone.None? then o else o.(running := o.running - {o.gone.value}, gone := None)
  }

  function HandleAttach(o: Observed, a: Analysis): (Observed, seq<Emission>) {
    var o' := CancelGone(o).(session := Some(Session(true, a.state)));
    if o.session.None? then (o', [DeviceAppeared(a.critical)])
    else (o', Changes(o.session.value, a, true) + [DeviceAttached(a.critical)])
  }

  function HandleDetach(o: Observed, a: Analysis): (Observed, seq<Emission>) {
    if o.session.None? then (o, [])
    else (o.(session := Some(Session(false, a.state)), gone := Some(o.nextTimer),
             running := o.running + {o.nextTimer}, nextTimer := o.nextTimer + 1),
          Changes(o.session.value, a, false) + [DeviceDetached])
  }

  function GoneFires(o: Observed, t: nat): (Observed, seq<Emission>) {
    if t !in o.running then (o, [])
    else (o.(running := o.running - {t}, gone := None, session := None), [DeviceGone])
  }

  /** Off the bus exactly one timer runs, and it is the one on file; otherwise none does. */
  predicate TimersMatch(o: Observed) {
    && (o.gone.Some? <==> o.session.Some? && !o.session.value.onBus)
    && o.running == (if o.gone.Some? then {o.gone.value} else {})
    && (o.gone.Some? ==> o.gone.value < o.nextTimer)
  }

  lemma AttachMatches(o: Observed, a: Analysis)
    requires TimersMatch(o)
    ensures TimersMatch(HandleAttach(o, a).0)
  {
  }

  /**
   * A detach leaves the timers in order exactly when the session was on the bus: a
   * second detach in a row files a new timer without clearing the one it replaces,
   * which then survives the next attach and drops a device that is on the bus.
   */
  lemma DetachMatchesExactlyOnBus(o: Observed, a: Analysis)
    requires TimersMatch(o) && o.session.Some?
    ensures TimersMatch(HandleDetach(o, a).0) <==> o.session.value.onBus
    ensures forall b: Analysis ::
              var back := HandleAttach(HandleDetach(o, a).0, b).0;
              (back.running != {} <==> !o.session.value.onBus)
              && forall t | t in back.running :: back.session.value.onBus && GoneFires(back, t).1 == [DeviceGone]
  {
    if !o.session.value.onBus {
      assert o.gone.value in HandleDetach(o, a).0.running;
      forall b: Analysis ensures o.gone.value in HandleAttach(HandleDetach(o, a).0, b).0.running {
      }
    } else {
      forall b: Analysis ensures HandleAttach(HandleDetach(o, a).0, b).0.running == {} {
        assert HandleDetach(o, a).0.running == {o.nextTimer};
      }
    }
  }

  // -- Runs --------------------------------------------------------------------------

  datatype BusEvent = Attach(a: Analysis) | Detach(a: Analysis) | Expire(t: nat)

  function Handle(o: Observed, e: BusEvent): (Observed, seq<Emission>) {
    match e
    case Attach(a) => HandleAttach(o, a)
    case Detach(a) => HandleDetach(o, a)
    case Expire(t) => GoneFires(o, t)
  }

  function Watch(events: seq<BusEvent>): Observed {
    if events == [] then UNSEEN else Handle(Watch(events[..|events| - 1]), events[|events| - 1]).0
  }

  /** The state carried by the last event the device was known for, while it is known. */
  function LastReported(events: seq<BusEvent>): Option<nat> {
    if events == [] then None
    else
      var before := events[..|events| - 1];
      match events[|events| - 1]
      case Attach(a) => Some(a.state)
      case Detach(a) => if LastReported(before).Some? then Some(a.state) else None
      case Expire(t) => if t in Watch(before).running then None else LastReported(before)
  }

  lemma {:induction false} SessionHoldsLastReported(events: seq<BusEvent>)
    ensures match LastReported(events)
            case None => Watch(events).session.None?
            case Some(state) => Watch(events).session.Some? && Watch(events).session.value.lastState == state
  {
    if events != [] {
      SessionHoldsLastReported(events[..|events| - 1]);
    }
  }

  /**
   * What one more event makes the observer say, after any events: a first sighting once,
   * a state change exactly when the state is not the one the previous event carried, and
   * always before the attach or detach it came with.
   */
  lemma SaysExactly(events: seq<BusEvent>, e: BusEvent)
    ensures var said := Handle(Watch(events), e).1;
            var last := LastReported(events);
            && (DeviceGone in said <==> e.Expire? && e.t in Watch(events).running)
            && (!e.Expire? && last.None? ==> said == if e.Attach? then [DeviceAppeared(e.a.critical)] else [])
            && (!e.Expire? && last.Some? ==>
                  && |said| == (if last.value != e.a.state then 2 else 1)
                  && (said[0] == DeviceStateChanged(e.a.critical, e.Attach?) <==> last.value != e.a.state)
                  && said[|said| - 1] == if e.Attach? then DeviceAttached(e.a.critical) else DeviceDetached)
  {
    SessionHoldsLastReported(events);
  }

  type DeviceId = string

  /** The observer over all ids. A timer on file is a running timer of its own id. */
  class DeviceObserver {
    var sessions: map<DeviceId, bool>
    var lastAnalysis: map<DeviceId, nat>
    var goneTimers: map<DeviceId, nat>
    var running: map<nat, DeviceId>
    var nextTimer: nat

    ghost predicate Valid()
      reads this
    {
      && sessions.Keys == lastAnalysis.Keys
      && (forall t | t in running :: t < nextTimer)
      && (forall id | id in goneTimers :: goneTimers[id] in running && running[goneTimers[id]] == id)
    }

    /** What the observer holds for one id. */
    function At(id: DeviceId): Observed
      requires Valid()
      reads this
    {
      Observed(if id in sessions then Some(Session(sessions[id], lastAnalysis[id])) else None,
               if id in goneTimers then Some(goneTimers[id]) else None,
               (set t | t in running && running[t] == id),
               nextTimer)
    }

    constructor ()
      ensures Valid() && nextTimer == 0 && forall id :: At(id) == UNSEEN
    {
      sessions, lastAnalysis, goneTimers, running, nextTimer := map[], map[], map[], map[], 0;
    }

    method OnAttach(id: DeviceId, a: Analysis) returns (emitted: seq<Emission>)
      requires Valid()
      modifies this
      ensures Valid() && nextTimer == old(nextTimer)
      ensures (At(id), emitted) == HandleAttach(old(At(id)), a)
      ensures forall other | other != id :: At(other) == old(At(other))
    {
      var isNew := id !in sessions;
      if id in goneTimers {
        running := running - {goneTimers[id]};
        goneTimers := goneTimers - {id};
      }
      assert At(id).running == CancelGone(old(At(id))).running;
      sessions := sessions[id := true];
      if isNew {
        lastAnalysis := lastAnalysis[id := a.state];
        return [DeviceAppeared(a.critical)];
      }
      emitted := [];
      if lastAnalysis[id] != a.state {
        emitted := [DeviceStateChanged(a.critical, true)];
      }
      lastAnalysis := lastAnalysis[id := a.state];
      emitted := emitted + [DeviceAttached(a.critical)];
    }

    method OnDetach(id: DeviceId, a: Analysis) returns (emitted: seq<Emission>)
      requires Valid()
      modifies this
      ensures Valid() && nextTimer >= old(nextTimer)
      ensures (At(id), emitted) == HandleDetach(old(At(id)), a)
      ensures forall other | other != id :: At(other) == old(At(other)).(nextTimer := nextTimer)
    {
      if id !in sessions {
        return [];
      }
      sessions := sessions[id := false];
      emitted := [];
      if lastAnalysis[id] != a.state {
        emitted := [DeviceStateChanged(a.critical, false)];
      }
      lastAnalysis := lastAnalysis[id := a.state];
      emitted := emitted + [DeviceDetached];
      StartGoneTimer(id);
    }

    /** A timer already on file is replaced without being cleared. */
    method StartGoneTimer(id: DeviceId)
      requires Valid()
      modifies this`goneTimers, this`running, this`nextTimer
      ensures Valid() && nextTimer == old(nextTimer) + 1
      ensures At(id) == old(At(id)).(gone := Some(old(nextTimer)), running := old(At(id)).running + {old(nextTimer)},
                                     nextTimer := nextTimer)
      ensures forall other | other != id :: At(other) == old(At(other)).(nextTimer := nextTimer)
    {
      goneTimers := goneTimers[id := nextTimer];
      running := running[nextTimer := id];
      nextTimer := nextTimer + 1;
      assert At(id).running == old(At(id)).running + {old(nextTimer)};
    }

    /** A timer that is still running fires. */
    method OnGoneTimer(t: nat) returns (emitted: seq<Emission>)
      requires Valid() && t in running
      modifies this
      ensures Valid() && (At(old(running[t])), emitted) == GoneFires(old(At(running[t])), t)
      ensures forall other | other != old(running[t]) :: At(other) == old(At(other))
    {
      var id := running[t];
      running := running - {t};
      goneTimers := goneTimers - {id};
      sessions := sessions - {id};
      lastAnalysis := lastAnalysis - {id};
      assert At(id).running == old(At(id)).running - {t};
      return [DeviceGone];
    }
  }
}
