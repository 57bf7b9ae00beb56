/** The live-location layer of the map: the tracking mode (follow the user or just observe),
    the auto-pan that follows the user with a 300 ms throttle, the position watch that runs
    while the permission is granted, the warning banner and the accuracy circle. Timers are
    explicit events: an effect run, and the firing of the throttle's release timer. */
module LiveLocationLayer {
  import opened Common
  import opened Geolocation

  const PanThrottleMs: nat := 300
  const MinAccuracyRadius: real := 5.0

  datatype Tracking = Observe | Follow

  /** The warning banner shows when there is no position yet and the permission is not
      settled, when the permission is denied, or when an error is set (an empty message
      counts as none). */
  predicate ShowsBanner(loc: Option<Loc>, permission: Permission, error: Option<string>)
    // a refusal always warns; a granted permission with a position and no message never does
    ensures permission == Denied ==> ShowsBanner(loc, permission, error)
    ensures loc.Some? && permission == Granted && (error.None? || error.value == "") ==> !ShowsBanner(loc, permission, error)
    ensures loc.None? && permission != Granted ==> ShowsBanner(loc, permission, error)
  {
    || (loc.None? && (permission == Prompt || permission == Unknown))
    || permission == Denied
    || (error.Some? && error.value != "")
  }

  /** The radius of the accuracy circle: drawn only for a positive accuracy, and never
      smaller than 5 m. */
  function AccuracyRadius(accuracy: Option<real>): (r: Option<real>)
    ensures r.Some? <==> accuracy.Some? && accuracy.value > 0.0
    ensures r.Some? ==> r.value >= MinAccuracyRadius && r.value >= accuracy.value
    ensures r.Some? ==> r.value == MinAccuracyRadius || r.value == accuracy.value
  {
    if accuracy.Some? && accuracy.value > 0.0 then
      Some(if accuracy.value > MinAccuracyRadius then accuracy.value else MinAccuracyRadius)
    else None
  }

  /** Once a position has arrived without an error, the banner shows exactly when the
      permission was denied afterwards. */
  lemma BannerAfterPosition(l: Loc, permission: Permission)
    ensures ShowsBanner(Some(l), permission, None) <==> permission == Denied
  {
  }

  /** A refused permission always shows the banner, whatever else holds. */
  lemma DeniedShowsBanner(loc: Option<Loc>, p: Permission, message: string)
    ensures ShowsBanner(loc, PermissionAfterError(p, PermissionDeniedCode), Some(ErrorMessage(message)))
  {
  }

  // ---- The pan throttle -------------------------------------------------------------

  /** The throttle's state: the `panLock` ref, whether the release timer is pending, and
      whether the last effect run returned the cleanup that cancels it. */
  datatype PanState = PanState(lock: bool, timerPending: bool, cleanupArmed: bool)

  /** An effect run (`ready`: a map, a position and follow mode) or the release timer firing. */
  datatype PanEvent = EffectRun(ready: bool) | TimerFires

  /** The state after one event and whether it panned the map. */
  datatype PanStep = PanStep(state: PanState, panned: bool)

  const PanStart: PanState := PanState(false, false, false)

  /** The timer firing releases the lock; a cancelled timer never fires. */
  function Fire(s: PanState): (r: PanState)
    ensures !s.timerPending ==> r == s
    ensures s.timerPending ==> !r.lock && !r.timerPending
  {
    if s.timerPending then PanState(false, false, s.cleanupArmed) else s
  }

  /** One effect run as written: the previous run's cleanup cancels the pending release
      timer, then a ready run with the lock clear pans, takes the lock and starts the
      timer. */
  function EffectAsWritten(s: PanState, ready: bool): (r: PanStep)
    ensures r.panned <==> ready && !s.lock
    ensures r.panned ==> r.state == PanState(true, true, true)
    ensures !r.panned ==> r.state == PanState(s.lock, s.timerPending && !s.cleanupArmed, false)
  {
    var afterCleanup := if s.cleanupArmed then PanState(s.lock, false, false) else s;
    if !ready || afterCleanup.lock then PanStep(PanState(afterCleanup.lock, afterCleanup.timerPending, false), false)
    else PanStep(PanState(true, true, true), true)
  }

  function StepAsWritten(s: PanState, e: PanEvent): PanStep {
    match e
    case EffectRun(ready) => EffectAsWritten(s, ready)
    case TimerFires => PanStep(Fire(s), false)
  }

  /** The state after a sequence of events and the number of pans. */
  function RunAsWritten(s: PanState, events: seq<PanEvent>): (r: (PanState, nat))
    decreases |events|
  {
    if |events| == 0 then (s, 0)
    else
      var step := StepAsWritten(s, events[0]);
      var rest := RunAsWritten(step.state, events[1..]);
      (rest.0, rest.1 + (if step.panned then 1 else 0))
  }

  /** A lock whose release timer was cancelled. */
  predicate Stuck(s: PanState) {
    s.lock && !s.timerPending
  }

  /** A stuck lock stays stuck whatever happens, and the map is never panned again. */
  lemma {:induction false} StuckNeverPans(s: PanState, events: seq<PanEvent>)
    requires Stuck(s)
    ensures Stuck(RunAsWritten(s, events).0)
    ensures RunAsWritten(s, events).1 == 0
    decreases |events|
  {
    if |events| > 0 {
      StuckNeverPans(StepAsWritten(s, events[0]).state, events[1..]);
    }
  }

  /** A second ready effect run inside the 300 ms (a new position, say) cancels the release:
      after the first pan the layer never follows the user again. */
  lemma QuickRerunSticks(events: seq<PanEvent>)
    ensures RunAsWritten(PanStart, [EffectRun(true), EffectRun(true)] + events).1 == 1
  {
    var first := EffectAsWritten(PanStart, true);
    var second := EffectAsWritten(first.state, true);
    assert Stuck(second.state);
    StuckNeverPans(second.state, events);
    var evs := [EffectRun(true), EffectRun(true)] + events;
    assert evs[1..] == [EffectRun(true)] + events;
    assert ([EffectRun(true)] + events)[1..] == events;
  }

  /** One effect run with the release timer left running (the cleanup does not cancel it):
      a ready run with the lock clear pans, takes the lock and starts the timer. */
  function Effect(s: PanState, ready: bool): (r: PanStep)
    ensures r.panned <==> ready && !s.lock
    ensures r.panned ==> r.state == PanState(true, true, true)
    ensures !r.panned ==> r.state.lock == s.lock && r.state.timerPending == s.timerPending
  {
    if !ready || s.lock then PanStep(PanState(s.lock, s.timerPending, false), false)
    else PanStep(PanState(true, true, true), true)
  }

  function Step(s: PanState, e: PanEvent): PanStep {
    match e
    case EffectRun(ready) => Effect(s, ready)
    case TimerFires => PanStep(Fire(s), false)
  }

  function Run(s: PanState, events: seq<PanEvent>): (r: (PanState, nat))
    decreases |events|
  {
    if |events| == 0 then (s, 0)
    else
      var step := Step(s, events[0]);
      var rest := Run(step.state, events[1..]);
      (rest.0, rest.1 + (if step.panned then 1 else 0))
  }

  /** The throttle's invariant: the lock is held exactly while its release is pending. */
  predicate PanInv(s: PanState) {
    s.lock <==> s.timerPending
  }

  /** Every event keeps the invariant; while the lock is held no run pans. */
  lemma StepKeepsInv(s: PanState, e: PanEvent)
    requires PanInv(s)
    ensures PanInv(Step(s, e).state)
    ensures s.lock && e.EffectRun? ==> !Step(s, e).panned
  {
  }

  /** From any state the corrected throttle reaches, the next timer firing frees the lock,
      and a ready run after it pans: the layer keeps following the user. */
  lemma {:induction false} NeverSticks(s: PanState, events: seq<PanEvent>)
    requires PanInv(s)
    ensures PanInv(Run(s, events).0)
    ensures Effect(Fire(Run(s, events).0), true).panned
    decreases |events|
  {
    if |events| > 0 {
      StepKeepsInv(s, events[0]);
      NeverSticks(Step(s, events[0]).state, events[1..]);
    }
  }

  /** The throttle: between two pans the release timer has fired. */
  lemma {:induction false} PansAreSeparatedByRelease(s: PanState, events: seq<PanEvent>)
    requires PanInv(s) && s.lock
    requires forall i :: 0 <= i < |events| ==> events[i] != TimerFires
    ensures Run(s, events).1 == 0 && Run(s, events).0.lock
    decreases |events|
  {
    if |events| > 0 {
      assert events[0] != TimerFires;
      forall i | 0 <= i < |events[1..]| ensures events[1..][i] != TimerFires {
        assert events[1..][i] == events[i + 1];
      }
      PansAreSeparatedByRelease(Step(s, events[0]).state, events[1..]);
    }
  }

  // ---- The layer --------------------------------------------------------------------

  class LiveLocationLayer {
    /** Whether the map instance exists. */
    const hasMap: bool
    const geo: GeolocationHook
    var tracking: Tracking
    var pan: PanState
    /** The positions the map was panned to, in order. */
    var pans: seq<Loc>
    /** Whether the last run of the watch effect returned its cleanup. */
    var watchCleanupArmed: bool

    ghost predicate Valid()
      reads this, geo
    {
      && geo.Valid()
      && PanInv(pan)
      && (geo.watchId.Some? ==> watchCleanupArmed)
    }

    constructor (hasMap: bool, geo: GeolocationHook)
      requires geo.Valid() && geo.watchId.None?
      ensures Valid()
      ensures this.hasMap == hasMap && this.geo == geo
      ensures tracking == Follow && pan == PanStart && pans == [] && !watchCleanupArmed
    {
      this.hasMap := hasMap;
      this.geo := geo;
      tracking := Follow;
      pan := PanStart;
      pans := [];
      watchCleanupArmed := false;
    }

    /** The drag listener, registered only when there is a map: dragging stops following. */
    method OnDragStart()
      requires Valid() && hasMap
      modifies this
      ensures Valid()
      ensures tracking == Observe
      ensures pan == old(pan) && pans == old(pans) && watchCleanupArmed == old(watchCleanupArmed)
    {
      tracking := Observe;
    }

    /** The follow toggle. */
    method ToggleTracking()
      requires Valid()
      modifies this
      ensures Valid()
      ensures tracking == (if old(tracking) == Follow then Observe else Follow)
      ensures pan == old(pan) && pans == old(pans) && watchCleanupArmed == old(watchCleanupArmed)
    {
      tracking := if tracking == Follow then Observe else Follow;
    }

    /** The recenter button: without a position or a map nothing happens; otherwise follow
        mode is set and the map pans to the position at once, throttle or not. */
    method Recenter()
      requires Valid()
      modifies this
      ensures Valid()
      ensures geo.loc.None? || !hasMap ==> tracking == old(tracking) && pans == old(pans)
      ensures geo.loc.Some? && hasMap ==> tracking == Follow && pans == old(pans) + [geo.loc.value]
      ensures pan == old(pan) && watchCleanupArmed == old(watchCleanupArmed)
    {
      if geo.loc.None? || !hasMap {
        return;
      }
      tracking := Follow;
      pans := pans + [geo.loc.value];
    }

    /** The auto-pan effect, run when the map, the position or the tracking mode changes. */
    method RunPanEffect()
      requires Valid()
      modifies this
      ensures Valid()
      ensures var step := Effect(old(pan), hasMap && geo.loc.Some? && tracking == Follow);
        && pan == step.state
        && pans == old(pans) + (if step.panned then [geo.loc.value] else [])
      ensures tracking == old(tracking) && watchCleanupArmed == old(watchCleanupArmed)
    {
      var ready := hasMap && geo.loc.Some? && tracking == Follow;
      var step := Effect(pan, ready);
      pan := step.state;
      if step.panned {
        pans := pans + [geo.loc.value];
      }
    }

    /** The 300 ms release timer fires. */
    method OnReleaseTimer()
      requires Valid()
      modifies this
      ensures Valid()
      ensures pan == Fire(old(pan))
      ensures tracking == old(tracking) && pans == old(pans) && watchCleanupArmed == old(watchCleanupArmed)
    {
      pan := Fire(pan);
    }

    /** The watch effect, run when the permission changes: the previous run's cleanup stops
        the watch, and a watch is started only for a granted permission. */
    method RunWatchEffect()
      requires Valid()
      modifies this, geo
      ensures Valid()
      ensures geo.permission == old(geo.permission) && geo.loc == old(geo.loc)
      ensures old(geo.permission) != Granted ==> geo.liveWatches == {}
      ensures old(geo.permission) == Granted && geo.supported ==> |geo.liveWatches| == 1
      ensures old(geo.permission) == Granted && !geo.supported ==> geo.liveWatches == {}
      ensures tracking == old(tracking) && pan == old(pan) && pans == old(pans)
    {
      if watchCleanupArmed {
        geo.StopWatch();
        watchCleanupArmed := false;
      }
      if geo.permission == Granted {
        geo.StartWatch();
        watchCleanupArmed := true;
      }
    }

    /** Unmounting runs the cleanups: no watch survives. */
    method Unmount()
      requires Valid()
      modifies this, geo
      ensures Valid()
      ensures geo.watchId.None? && geo.liveWatches == {}
      ensures tracking == old(tracking) && pan == old(pan) && pans == old(pans)
    {
      geo.StopWatch();
      watchCleanupArmed := false;
    }

    predicate ShowsBannerNow()
      reads this, geo
    {
      ShowsBanner(geo.loc, geo.permission, geo.error)
    }
  }
}
