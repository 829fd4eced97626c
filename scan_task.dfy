/**
 * The scan task: the perpetual ability task that asks the targeting
 * subsystem for graspables around the owner, hands each completed scan to the
 * grasp component, and retries after errors or throttling. It is a state
 * machine over the cached component, the wait timer, the failsafe timer, the
 * component's last scan time and its in-flight requests.
 *
 * The world, its game instance, the clock and the owner are read from an
 * Env value; timers are idle or armed with a delay, and a timer firing is the
 * call of its callback. Delegates the component fires come back as flags,
 * which the task dispatches to its own handlers.
 */
module GraspScanTaskModel {
  import opened GraspTypes
  import opened GraspStatics
  import opened GraspLedger
  import opened GraspAbilitySystem
  import opened GraspComponentModel

  /** A one-shot timer of the world's timer manager: idle, or armed to fire after a delay. */
  datatype Timer = Idle | Armed(delay: real)

  /** What the task reads of the world when one of its callbacks runs. */
  datatype Env = Env(
    worldValid: bool,
    gameInstanceValid: bool,
    /** World time in seconds. */
    now: real,
    /** The owner actor of the ability that runs the task. */
    owner: ActorKind,
    /** The live grasp components by object id. */
    components: map<nat, GraspComponent>,
    /** The pawn the owning controller possesses. */
    possessedPawn: ObjRef)

  /** The grasp component found on the owner's controller: the pawn's controller, the player state's owner, or the controller itself. */
  function FoundComponent(env: Env): Option<GraspComponent>
  {
    var controller := OwningController(env.owner);
    if controller.Some? && controller.value.graspComponent.Ref? && controller.value.graspComponent.id in env.components
    then Some(env.components[controller.value.graspComponent.id])
    else Option.None
  }

  /** The component caching may bind to. */
  function CacheFrame(env: Env): set<GraspComponent>
  {
    if FoundComponent(env).Some? then {FoundComponent(env).value} else {}
  }

  /** The ability system a completion may grant through. */
  function AscFrame(c: GraspComponent?): set<AbilitySystemComponent?>
    reads c
  {
    if c != null then {c.asc} else {}
  }

  /** WaitForGrasp's effect on the wait timer: armed with the delay, unless the world is gone. */
  function WaitTimerAfter(worldValid: bool, delay: real, t: Timer): Timer
  {
    if worldValid then Armed(delay) else t
  }

  /**
   * The rate throttle: with a positive MaxRate, a request less than MaxRate
   * after the last scan waits for the time left, MaxRate - TimeSince.
   */
  function ThrottleWait(maxRate: real, lastScanTime: real, now: real): (w: Option<real>)
    ensures w.Some? <==> maxRate > 0.0 && now - lastScanTime < maxRate
    ensures w.Some? ==> w.value > 0.0 && now + w.value == lastScanTime + maxRate
  {
    var timeSince := now - lastScanTime;
    if maxRate > 0.0 && timeSince < maxRate then Some(maxRate - timeSince) else Option.None
  }

  /**
   * After the throttle lets a scan through at some time, every request
   * before MaxRate has passed waits exactly until then, and the request
   * made when that wait ends is let through.
   */
  lemma ThrottleSpacesScans(maxRate: real, scanTime: real, now: real)
    requires maxRate > 0.0 && scanTime <= now < scanTime + maxRate
    ensures ThrottleWait(maxRate, scanTime, now).Some?
    ensures now + ThrottleWait(maxRate, scanTime, now).value == scanTime + maxRate
    ensures ThrottleWait(maxRate, scanTime, now + ThrottleWait(maxRate, scanTime, now).value).None?
  {
  }

  /** A preset a request can be started for: it exists, has a task set, and the set has tasks. */
  predicate Startable(p: Option<TargetingPreset>)
  {
    p.Some? && p.value.taskSet.Some? && p.value.taskSet.value > 0
  }

  /** The tags RequestGrasp starts a request for. */
  function StartableTags(presets: PresetMap): set<GameplayTag>
  {
    set t | t in presets && Startable(presets[t])
  }

  /**
   * The request map after each started tag got a fresh handle: the other
   * entries are kept, the started tags hold handles issued between the two
   * counter values, and no two started tags share one.
   */
  ghost predicate FreshRequests(before: map<GameplayTag, RequestHandle>, after: map<GameplayTag, RequestHandle>,
                                started: set<GameplayTag>, base: nat, next: nat)
  {
    base <= next
    && after.Keys == before.Keys + started
    && (forall t :: t in before && t !in started ==> after[t] == before[t])
    && (forall t :: t in started ==> base <= after[t].id < next)
    && (forall t, u :: t in started && u in started && t != u ==> after[t].id != after[u].id)
  }

  /** Storing the next handle under one more tag keeps the request map fresh. */
  lemma FreshRequestsGrow(before: map<GameplayTag, RequestHandle>, mid: map<GameplayTag, RequestHandle>,
                          after: map<GameplayTag, RequestHandle>, started: set<GameplayTag>, t: GameplayTag, base: nat, next: nat)
    requires FreshRequests(before, mid, started, base, next) && t !in started
    requires after == mid[t := RequestHandle(next)]
    ensures FreshRequests(before, after, started + {t}, base, next + 1)
  {
  }

  /** The handle ids the started tags hold. */
  function StartedIds(requests: map<GameplayTag, RequestHandle>, started: set<GameplayTag>): set<nat>
  {
    set t | t in started && t in requests :: requests[t].id
  }
  /** Storing a handle under one more started tag adds exactly its id to the started ids. */
  lemma StartedIdsGrow(mid: map<GameplayTag, RequestHandle>, after: map<GameplayTag, RequestHandle>,
                       started: set<GameplayTag>, t: GameplayTag, id: nat)
    requires t !in started && after == mid[t := RequestHandle(id)]
    ensures StartedIds(after, started + {t}) == StartedIds(mid, started) + {id}
  {
    assert forall u :: u in started && u in mid ==> u in after && after[u] == mid[u];
  }


  /** What one scan request reads of the component and the world. */
  datatype ScanConfig = ScanConfig(
    delay: real,
    maxRate: real,
    updateOnUpdate: bool,
    updateOnPawnChange: bool,
    presets: PresetMap,
    sourceValid: bool,
    hasSubsystem: bool)

  /** What one scan request changes: the wait timer, the component's scan bookkeeping and the subsystem's requests. */
  datatype ScanView = ScanView(
    waitTimer: Timer,
    lastGraspScanTime: real,
    lastUpdateOnPawnChange: bool,
    currentPresets: PresetMap,
    requests: map<GameplayTag, RequestHandle>,
    nextHandle: nat,
    pending: set<nat>)

  /**
   * RequestGrasp with a cached component. A throttled request only waits the
   * time left. Otherwise the scan time is taken when throttling is on; a
   * missing world, game instance, subsystem or targeting source makes it
   * wait Delay; else the pawn-change flag is synced, the presets are
   * optionally refreshed (ending the requests of dropped tags), and every
   * startable preset gets a fresh request under its tag. When none starts,
   * it waits Delay.
   */
  ghost predicate Scanned(cfg: ScanConfig, env: Env, s: ScanView, s': ScanView)
  {
    var w := ThrottleWait(cfg.maxRate, s.lastGraspScanTime, env.now);
    if w.Some? then
      s' == s.(waitTimer := WaitTimerAfter(env.worldValid, w.value, s.waitTimer))
    else
      ScanAfterThrottle(cfg, env, s.(lastGraspScanTime := if cfg.maxRate > 0.0 then env.now else s.lastGraspScanTime), s')
  }

  /** The unthrottled part: without a world, game instance, subsystem or source the task waits Delay; otherwise it scans. */
  ghost predicate ScanAfterThrottle(cfg: ScanConfig, env: Env, s: ScanView, s': ScanView)
  {
    if !(env.worldValid && env.gameInstanceValid && cfg.hasSubsystem && cfg.sourceValid) then
      s' == s.(waitTimer := WaitTimerAfter(env.worldValid, cfg.delay, s.waitTimer))
    else
      StartedScan(cfg, s, s')
  }

  /**
   * The scan proper, once throttling and the world checks are passed: the
   * pawn-change flag is synced, the presets are optionally refreshed (ending
   * the requests of dropped tags), every startable preset gets a fresh
   * request under its tag, and the task waits Delay when none started.
   */
  ghost predicate StartedScan(cfg: ScanConfig, s: ScanView, s': ScanView)
  {
    var presets := if cfg.updateOnUpdate then cfg.presets else s.currentPresets;
    var mid := if cfg.updateOnUpdate then RequestsAfterDropping(s.requests, s.currentPresets.Keys - cfg.presets.Keys)
               else s.requests;
    var started := StartableTags(presets);
    var newIds := StartedIds(s'.requests, started);
    s'.lastGraspScanTime == s.lastGraspScanTime
    && s'.lastUpdateOnPawnChange == cfg.updateOnPawnChange
    && s'.currentPresets == presets
    && FreshRequests(mid, s'.requests, started, s.nextHandle, s'.nextHandle)
    && s'.pending == (if cfg.updateOnUpdate then s.pending - DroppedHandles(s.requests, s.currentPresets.Keys - cfg.presets.Keys)
                      else s.pending) + newIds
    && s'.waitTimer == if started == {} then Armed(cfg.delay) else s.waitTimer
  }

  /** A throttled request only schedules the wait for the rest of the window. */
  lemma ScannedWhenThrottled(cfg: ScanConfig, env: Env, s: ScanView, s': ScanView)
    requires ThrottleWait(cfg.maxRate, s.lastGraspScanTime, env.now).Some?
    requires s' == s.(waitTimer := WaitTimerAfter(env.worldValid, ThrottleWait(cfg.maxRate, s.lastGraspScanTime, env.now).value, s.waitTimer))
    ensures Scanned(cfg, env, s, s')
  {
  }

  /** An unthrottled request takes the scan time, then waits or scans. */
  lemma ScannedWhenUnthrottled(cfg: ScanConfig, env: Env, s: ScanView, s1: ScanView, s': ScanView)
    requires ThrottleWait(cfg.maxRate, s.lastGraspScanTime, env.now).None?
    requires s1 == s.(lastGraspScanTime := if cfg.maxRate > 0.0 then env.now else s.lastGraspScanTime)
    requires ScanAfterThrottle(cfg, env, s1, s')
    ensures Scanned(cfg, env, s, s')
  {
  }

  /** The scan configuration of a task and its component. */
  function ConfigOf(t: GraspScanTask, c: GraspComponent, env: Env, subsystem: TargetingSubsystem?): ScanConfig
    reads t, c
  {
    ScanConfig(t.delay, c.maxGraspScanRate, c.updateTargetingPresetsOnUpdate, c.updateTargetingPresetsOnPawnChange,
               c.GetTargetingPresets(), c.GetTargetingSource(env.possessedPawn) != NullRef, subsystem != null)
  }

  /** The scan view of a task, its component and the subsystem. */
  function ViewOf(t: GraspScanTask, c: GraspComponent, subsystem: TargetingSubsystem?): ScanView
    reads t, c, subsystem
  {
    ScanView(t.waitTimer, c.lastGraspScanTime, c.lastUpdateTargetingPresetsOnPawnChange, c.currentTargetingPresets,
             c.targetingRequests, if subsystem != null then subsystem.nextHandle else 0,
             if subsystem != null then subsystem.pending else {})
  }

  /**
   * Two scans in a row from a component holding no requests, with no
   * throttle and no preset refresh, leave a pending request whose handle no
   * tag holds any more: the second scan overwrote it.
   */
  lemma BackToBackScansOrphanARequest(cfg: ScanConfig, env: Env, s: ScanView, s1: ScanView, s2: ScanView)
    requires s.requests == map[]
    requires cfg.maxRate <= 0.0 && !cfg.updateOnUpdate
    requires env.worldValid && env.gameInstanceValid && cfg.hasSubsystem && cfg.sourceValid
    requires StartableTags(s.currentPresets) != {}
    requires Scanned(cfg, env, s, s1) && Scanned(cfg, env, s1, s2)
    ensures !(s2.pending <= HeldIds(s2.requests))
  {
    var started := StartableTags(s.currentPresets);
    var t :| t in started;
    var a := s1.requests[t].id;
    assert a in StartedIds(s1.requests, started);
    assert a in s2.pending;
    forall u | u in s2.requests
      ensures s2.requests[u].id != a
    {
      assert u in started;
    }
  }

  /**
   * A scan from a component holding no requests, with none pending, leaves
   * every pending request held under some tag.
   */
  lemma ScanFromNothingTracksEveryRequest(cfg: ScanConfig, env: Env, s: ScanView, s': ScanView)
    requires s.requests == map[] && s.pending == {}
    requires Scanned(cfg, env, s, s')
    ensures s'.pending <= HeldIds(s'.requests)
  {
    var w := ThrottleWait(cfg.maxRate, s.lastGraspScanTime, env.now);
    if w.None? && env.worldValid && env.gameInstanceValid && cfg.hasSubsystem && cfg.sourceValid {
      var presets := if cfg.updateOnUpdate then cfg.presets else s.currentPresets;
      var started := StartableTags(presets);
      forall id | id in s'.pending
        ensures id in HeldIds(s'.requests)
      {
        var t :| t in started && t in s'.requests && s'.requests[t].id == id;
      }
    }
  }

  /** One hit of a completed targeting request, as the selection task filled it in. */
  datatype TargetHit = TargetHit(
    component: ObjRef,
    componentLocation: Vector,
    traceStart: Vector,
    /** The ability radius the selection stored as the hit distance. */
    radius: real,
    /** bGrantAbilityDistance2D of the graspable's data. */
    grantAbilityDistance2D: bool)

  /** The distance from the trace start to the graspable component, horizontal when its data asks for it. */
  function HitDistance(m: EngineMath, h: TargetHit): (d: real)
    ensures m.Lawful() ==> d >= 0.0
  {
    if h.grantAbilityDistance2D then m.Dist2D(h.componentLocation, h.traceStart) else m.Dist(h.componentLocation, h.traceStart)
  }

  /** The scan result of one hit: the graspable with its distance over the ability radius. */
  function ScanResultOf(m: EngineMath, tag: GameplayTag, h: TargetHit): (r: ScanResult)
    requires m.Lawful()
  {
    ScanResult(tag, h.component, FloatDiv(HitDistance(m, h), h.radius))
  }

  /** The scan results of a completed request: one per hit that has a component, in hit order. */
  function ScanResultsOf(m: EngineMath, tag: GameplayTag, hits: seq<TargetHit>): (rs: seq<ScanResult>)
    requires m.Lawful()
    ensures |rs| <= |hits|
    ensures forall j :: 0 <= j < |rs| ==> rs[j].graspable != NullRef && rs[j].scanTag == tag
    decreases |hits|
  {
    if |hits| == 0 then []
    else
      var rest := ScanResultsOf(m, tag, hits[..|hits| - 1]);
      var h := hits[|hits| - 1];
      if h.component == NullRef then rest else rest + [ScanResultOf(m, tag, h)]
  }

  /** Every hit with a component yields a result, and every result comes from such a hit. */
  lemma {:induction false} ScanResultsMatchHits(m: EngineMath, tag: GameplayTag, hits: seq<TargetHit>)
    requires m.Lawful()
    ensures forall k :: 0 <= k < |hits| && hits[k].component != NullRef ==> ScanResultOf(m, tag, hits[k]) in ScanResultsOf(m, tag, hits)
    ensures forall r :: r in ScanResultsOf(m, tag, hits) ==>
              exists k :: 0 <= k < |hits| && hits[k].component != NullRef && r == ScanResultOf(m, tag, hits[k])
    decreases |hits|
  {
    if |hits| > 0 {
      var init := hits[..|hits| - 1];
      ScanResultsMatchHits(m, tag, init);
      forall k | 0 <= k < |hits| && hits[k].component != NullRef
        ensures ScanResultOf(m, tag, hits[k]) in ScanResultsOf(m, tag, hits)
      {
        if k < |hits| - 1 {
          assert hits[k] == init[k];
        }
      }
      forall r | r in ScanResultsOf(m, tag, hits)
        ensures exists k :: 0 <= k < |hits| && hits[k].component != NullRef && r == ScanResultOf(m, tag, hits[k])
      {
        if r in ScanResultsOf(m, tag, init) {
          var k :| 0 <= k < |init| && init[k].component != NullRef && r == ScanResultOf(m, tag, init[k]);
          assert hits[k] == init[k];
        } else {
          assert r == ScanResultOf(m, tag, hits[|hits| - 1]);
        }
      }
    }
  }

  /**
   * With a positive radius, the grant threshold on the normalised distance
   * is a bound on the distance itself: a result is close enough exactly when
   * the graspable lies within that fraction of the ability radius.
   */
  lemma GrantThresholdIsDistanceBound(m: EngineMath, tag: GameplayTag, h: TargetHit, grantDistance: real)
    requires m.Lawful() && h.radius > 0.0
    ensures !FloatGreater(ScanResultOf(m, tag, h).normalizedScanDistance, grantDistance) <==> HitDistance(m, h) <= grantDistance * h.radius
  {
    var d := HitDistance(m, h);
    assert ScanResultOf(m, tag, h).normalizedScanDistance == Finite(d / h.radius);
    if d / h.radius <= grantDistance {
      assert d == (d / h.radius) * h.radius;
      assert (d / h.radius) * h.radius <= grantDistance * h.radius;
    }
    if d <= grantDistance * h.radius {
      assert d / h.radius <= (grantDistance * h.radius) / h.radius;
    }
  }

  /** With a zero radius a hit away from the trace start never passes the threshold (+inf), but one at the start does (NaN compares false). */
  lemma ZeroRadiusThreshold(m: EngineMath, tag: GameplayTag, h: TargetHit, grantDistance: real)
    requires m.Lawful() && h.radius == 0.0
    ensures HitDistance(m, h) > 0.0 ==> FloatGreater(ScanResultOf(m, tag, h).normalizedScanDistance, grantDistance)
    ensures HitDistance(m, h) == 0.0 ==> !FloatGreater(ScanResultOf(m, tag, h).normalizedScanDistance, grantDistance)
  {
  }

  /** The hit loop of OnGraspComplete: one scan result per hit that has a component. */
  method BuildScanResults(m: EngineMath, scanTag: GameplayTag, hits: seq<TargetHit>) returns (scanResults: seq<ScanResult>)
    requires m.Lawful()
    ensures scanResults == ScanResultsOf(m, scanTag, hits)
  {
    scanResults := [];
    var i := 0;
    while i < |hits|
      invariant 0 <= i <= |hits|
      invariant scanResults == ScanResultsOf(m, scanTag, hits[..i])
    {
      var hit := hits[i];
      assert hits[..i + 1][..i] == hits[..i];
      if hit.component != NullRef {
        var graspAbilityRadius := hit.radius;
        var distance := if hit.grantAbilityDistance2D then m.Dist2D(hit.componentLocation, hit.traceStart)
                        else m.Dist(hit.componentLocation, hit.traceStart);
        var normalizedDistance := FloatDiv(distance, graspAbilityRadius);
        scanResults := scanResults + [ScanResult(scanTag, hit.component, normalizedDistance)];
      }
      i := i + 1;
    }
    assert hits[..i] == hits;
  }

  class GraspScanTask {
    /** The grasp component, cached on the first request that finds it; null until then. */
    var gc: GraspComponent?
    /** ErrorWaitDelay: how long to wait after an error before requesting again. */
    var delay: real
    var failsafeDelay: real
    /** The timer that calls RequestGrasp after a wait. */
    var waitTimer: Timer
    /** The timer that runs the failsafe after each completion. */
    var failsafeTimer: Timer

    /** GraspScan: a new task with the given delays, no component and no timer. */
    constructor GraspScan(errorWaitDelay: real, failsafeDelay: real)
      ensures gc == null && delay == errorWaitDelay && this.failsafeDelay == failsafeDelay
      ensures waitTimer == Idle && failsafeTimer == Idle
    {
      gc := null;
      delay := errorWaitDelay;
      this.failsafeDelay := failsafeDelay;
      waitTimer := Idle;
      failsafeTimer := Idle;
    }

    /** WaitForGrasp: arms the wait timer with exactly the given delay; without a world there is no timer to arm. */
    method WaitForGrasp(inDelay: real, worldValid: bool)
      modifies this`waitTimer
      ensures waitTimer == WaitTimerAfter(worldValid, inDelay, old(waitTimer))
    {
      if !worldValid {
        return;
      }
      waitTimer := Armed(inDelay);
    }

    /**
     * The caching part of RequestGrasp: without an owning controller the task
     * waits Delay; with one but no grasp component on it the task ends for
     * good (no timer); otherwise the component is cached and the task binds
     * to its pause and request delegates.
     */
    method CacheGraspComponent(env: Env) returns (cached: bool)
      requires gc == null
      modifies this`gc, this`waitTimer, CacheFrame(env)
      ensures cached <==> FoundComponent(env).Some?
      ensures cached ==> gc == FoundComponent(env).value && gc.pauseGraspBound && gc.requestGraspBound
      ensures cached ==> unchanged(gc`targetingRequests, gc`currentTargetingPresets, gc`lastGraspScanTime, gc`abilityData,
                                   gc`currentScanResults, gc`asc, gc`lastUpdateTargetingPresetsOnPawnChange)
      ensures cached ==> unchanged(gc`controller, gc`defaultTargetingPresets, gc`defaultTargetingSource, gc`maxGraspScanRate,
                                   gc`updateTargetingPresetsOnUpdate, gc`updateTargetingPresetsOnPawnChange)
      ensures !cached ==> gc == null
      ensures waitTimer == if OwningController(env.owner).None? then WaitTimerAfter(env.worldValid, delay, old(waitTimer))
                           else old(waitTimer)
    {
      var controller := OwningController(env.owner);
      if controller.None? {
        WaitForGrasp(delay, env.worldValid);
        return false;
      }
      var found := controller.value.graspComponent;
      if !(found.Ref? && found.id in env.components) {
        return false;
      }
      gc := env.components[found.id];
      gc.pauseGraspBound := true;
      gc.requestGraspBound := true;
      return true;
    }

    /**
     * RequestGrasp: caches the component if needed, then runs one scan
     * request with it (see Scanned). The component's ledger is left alone.
     */
    method RequestGrasp(env: Env, subsystem: TargetingSubsystem?)
      modifies this`gc, this`waitTimer, gc, CacheFrame(env), subsystem
      ensures old(gc) != null ==> gc == old(gc)
      ensures old(gc) == null ==> gc == if FoundComponent(env).Some? then FoundComponent(env).value else null
      ensures old(gc) == null && OwningController(env.owner).None? ==>
                waitTimer == WaitTimerAfter(env.worldValid, delay, old(waitTimer))
      ensures old(gc) == null && OwningController(env.owner).Some? && gc == null ==> waitTimer == old(waitTimer)
      ensures gc == null && subsystem != null ==> unchanged(subsystem)
      ensures old(gc) == null && gc != null ==> gc.pauseGraspBound && gc.requestGraspBound
      ensures old(gc) != null ==> unchanged(gc`pauseGraspBound, gc`requestGraspBound)
      ensures gc != null ==> var c := gc; Scanned(old(ConfigOf(this, c, env, subsystem)), env, old(ViewOf(this, c, subsystem)), ViewOf(this, c, subsystem))
      ensures gc != null ==> unchanged(gc`abilityData, gc`currentScanResults, gc`asc, gc`controller, gc`maxGraspScanRate)
      ensures gc != null ==> unchanged(gc`defaultTargetingPresets, gc`defaultTargetingSource, gc`updateTargetingPresetsOnUpdate,
                                       gc`updateTargetingPresetsOnPawnChange)
    {
      if gc == null {
        var cached := CacheGraspComponent(env);
        if !cached {
          return;
        }
      }
      RunScan(env, subsystem);
    }

    /** The part of RequestGrasp after the component is cached. */
    method RunScan(env: Env, subsystem: TargetingSubsystem?)
      requires gc != null
      modifies this`waitTimer, gc`lastGraspScanTime, gc`lastUpdateTargetingPresetsOnPawnChange, gc`currentTargetingPresets,
               gc`targetingRequests, subsystem
      ensures Scanned(old(ConfigOf(this, gc, env, subsystem)), env, old(ViewOf(this, gc, subsystem)), ViewOf(this, gc, subsystem))
      ensures unchanged(gc`abilityData, gc`currentScanResults, gc`asc, gc`controller, gc`maxGraspScanRate)
      ensures unchanged(gc`defaultTargetingPresets, gc`defaultTargetingSource, gc`updateTargetingPresetsOnUpdate,
                        gc`updateTargetingPresetsOnPawnChange, gc`pauseGraspBound, gc`requestGraspBound)
    {
      var c := gc;
      ghost var cfg := ConfigOf(this, c, env, subsystem);
      ghost var s := ViewOf(this, c, subsystem);
      var maxRate := c.GetMaxGraspScanRate();
      if maxRate > 0.0 {
        var timeSince := env.now - c.lastGraspScanTime;
        if timeSince < maxRate {
          WaitForGrasp(maxRate - timeSince, env.worldValid);
          ScannedWhenThrottled(cfg, env, s, ViewOf(this, c, subsystem));
          return;
        }
        c.lastGraspScanTime := env.now;
      }
      ghost var s1 := ViewOf(this, c, subsystem);
      assert ConfigOf(this, c, env, subsystem) == cfg;
      ScanOrWait(env, subsystem);
      ScannedWhenUnthrottled(cfg, env, s, s1, ViewOf(this, c, subsystem));
    }

    /** The part of RequestGrasp after throttling: wait Delay when the world, subsystem or source is missing, else scan. */
    method ScanOrWait(env: Env, subsystem: TargetingSubsystem?)
      requires gc != null
      modifies this`waitTimer, gc`lastUpdateTargetingPresetsOnPawnChange, gc`currentTargetingPresets, gc`targetingRequests, subsystem
      ensures ScanAfterThrottle(old(ConfigOf(this, gc, env, subsystem)), env, old(ViewOf(this, gc, subsystem)), ViewOf(this, gc, subsystem))
    {
      var c := gc;
      if !env.worldValid || !env.gameInstanceValid || subsystem == null || c.GetTargetingSource(env.possessedPawn) == NullRef {
        WaitForGrasp(delay, env.worldValid);
        return;
      }
      StartScan(env, subsystem);
    }

    /** The part of RequestGrasp once the world, the subsystem and the targeting source are known good. */
    method StartScan(env: Env, subsystem: TargetingSubsystem)
      requires gc != null && env.worldValid
      modifies this`waitTimer, gc`lastUpdateTargetingPresetsOnPawnChange, gc`currentTargetingPresets, gc`targetingRequests, subsystem
      ensures StartedScan(old(ConfigOf(this, gc, env, subsystem)), old(ViewOf(this, gc, subsystem)), ViewOf(this, gc, subsystem))
    {
      var c := gc;
      if c.updateTargetingPresetsOnPawnChange != c.lastUpdateTargetingPresetsOnPawnChange {
        c.lastUpdateTargetingPresetsOnPawnChange := c.updateTargetingPresetsOnPawnChange;
      }
      if c.updateTargetingPresetsOnUpdate {
        var _ := c.UpdateTargetingPresets(true, subsystem);
      }
      StartOrWait(subsystem);
    }

    /** The end of RequestGrasp: without presets, or when no preset starts, the task waits Delay. */
    method StartOrWait(subsystem: TargetingSubsystem)
      requires gc != null
      modifies this`waitTimer, gc`targetingRequests, subsystem
      ensures var started := StartableTags(gc.currentTargetingPresets);
              FreshRequests(old(gc.targetingRequests), gc.targetingRequests, started, old(subsystem.nextHandle), subsystem.nextHandle)
              && subsystem.pending == old(subsystem.pending) + StartedIds(gc.targetingRequests, started)
              && waitTimer == if started == {} then Armed(delay) else old(waitTimer)
    {
      if gc.currentTargetingPresets == map[] {
        WaitForGrasp(delay, true);
        return;
      }
      var awaitingCallback := StartRequests(subsystem);
      if !awaitingCallback {
        WaitForGrasp(delay, true);
      }
    }

    /** The preset loop of RequestGrasp: a fresh request under the tag of every startable preset. */
    method StartRequests(subsystem: TargetingSubsystem) returns (awaitingCallback: bool)
      requires gc != null
      modifies gc`targetingRequests, subsystem
      ensures var started := StartableTags(gc.currentTargetingPresets);
              (awaitingCallback <==> started != {})
              && FreshRequests(old(gc.targetingRequests), gc.targetingRequests, started, old(subsystem.nextHandle), subsystem.nextHandle)
              && subsystem.pending == old(subsystem.pending) + StartedIds(gc.targetingRequests, started)
    {
      var c := gc;
      var presets := c.currentTargetingPresets;
      awaitingCallback := false;
      var todo := presets.Keys;
      ghost var started: set<GameplayTag> := {};
      while todo != {}
        invariant todo <= presets.Keys && started == StartableTags(presets) - todo
        invariant awaitingCallback <==> started != {}
        invariant FreshRequests(old(c.targetingRequests), c.targetingRequests, started, old(subsystem.nextHandle), subsystem.nextHandle)
        invariant subsystem.pending == old(subsystem.pending) + StartedIds(c.targetingRequests, started)
        decreases todo
      {
        var t :| t in todo;
        var preset := presets[t];
        if Startable(preset) {
          StartRequest(t, subsystem, started, old(c.targetingRequests), old(subsystem.nextHandle), old(subsystem.pending));
          awaitingCallback := true;
          started := started + {t};
        }
        todo := todo - {t};
      }
    }

    /**
     * One started preset: a fresh handle is stored under the tag and the
     * request starts, so the requests stay fresh with one more started tag.
     */
    method StartRequest(t: GameplayTag, subsystem: TargetingSubsystem, ghost started: set<GameplayTag>,
                        ghost before: map<GameplayTag, RequestHandle>, ghost base: nat, ghost pending: set<nat>)
      requires gc != null && t !in started
      requires FreshRequests(before, gc.targetingRequests, started, base, subsystem.nextHandle)
      requires subsystem.pending == pending + StartedIds(gc.targetingRequests, started)
      modifies gc`targetingRequests, subsystem
      ensures gc.targetingRequests == old(gc.targetingRequests)[t := RequestHandle(old(subsystem.nextHandle))]
      ensures subsystem.nextHandle == old(subsystem.nextHandle) + 1
      ensures subsystem.pending == old(subsystem.pending) + {old(subsystem.nextHandle)}
      ensures FreshRequests(before, gc.targetingRequests, started + {t}, base, subsystem.nextHandle)
      ensures subsystem.pending == pending + StartedIds(gc.targetingRequests, started + {t})
    {
      ghost var mid := gc.targetingRequests;
      var handle := subsystem.MakeTargetRequestHandle();
      gc.targetingRequests := gc.targetingRequests[t := handle];
      subsystem.StartAsyncTargetingRequestWithHandle(handle);
      FreshRequestsGrow(before, mid, gc.targetingRequests, started, t, base, handle.id);
      StartedIdsGrow(mid, gc.targetingRequests, started, t, handle.id);
    }

    /**
     * OnGraspComplete: a completed request for a preset tag. Without a
     * component the task waits Delay. Without a world or game instance it
     * waits Delay (ending the requests needs a world, so they stay). Without a
     * subsystem it ends all requests, which notifies the task when none is
     * left, and waits Delay. Otherwise a valid handle yields the scan results
     * of its hits and drops its tag; the results alone go to the ledger; the
     * next scan is requested only once no request is left; and the failsafe
     * timer is armed. The returned flag says whether RequestGrasp ran.
     */
    method OnGraspComplete(handleValid: bool, hits: Option<seq<TargetHit>>, scanTag: GameplayTag, m: EngineMath, scene: Scene,
                           env: Env, subsystem: TargetingSubsystem?) returns (requestedAgain: bool)
      requires m.Lawful()
      modifies this`gc, this`waitTimer, this`failsafeTimer, gc, AscFrame(gc), CacheFrame(env), subsystem
      ensures gc == old(gc)
      ensures gc == null ==> !requestedAgain && waitTimer == WaitTimerAfter(env.worldValid, delay, old(waitTimer))
                             && failsafeTimer == old(failsafeTimer)
      ensures gc != null && !(env.worldValid && env.gameInstanceValid) ==>
                !requestedAgain && waitTimer == WaitTimerAfter(env.worldValid, delay, old(waitTimer))
                && failsafeTimer == old(failsafeTimer) && gc.targetingRequests == old(gc.targetingRequests)
                && gc.abilityData == old(gc.abilityData) && gc.currentScanResults == old(gc.currentScanResults)
      ensures gc != null && env.worldValid && env.gameInstanceValid && subsystem == null ==>
                (requestedAgain <==> gc.requestGraspBound && old(gc.targetingRequests) == map[] && old(waitTimer) == Idle)
                && waitTimer == Armed(delay) && failsafeTimer == old(failsafeTimer)
                && gc.targetingRequests == old(gc.targetingRequests)
                && gc.abilityData == old(gc.abilityData) && gc.currentScanResults == old(gc.currentScanResults)
      ensures gc != null && env.worldValid && env.gameInstanceValid && subsystem != null ==>
                var remaining := if handleValid then old(gc.targetingRequests) - {scanTag} else old(gc.targetingRequests);
                (requestedAgain <==> remaining == map[])
                && failsafeTimer == Armed(failsafeDelay)
                && (!requestedAgain ==> gc.targetingRequests == remaining && waitTimer == old(waitTimer)
                                        && subsystem.pending == old(subsystem.pending) && subsystem.nextHandle == old(subsystem.nextHandle))
                && (requestedAgain ==> Scanned(old(ConfigOf(this, gc, env, subsystem)), env,
                                               old(ViewOf(this, gc, subsystem)).(requests := remaining), ViewOf(this, gc, subsystem)))
      ensures gc != null && env.worldValid && env.gameInstanceValid && subsystem != null && old(gc.HasValidData(scene.alive)) ==>
                var results := if handleValid && hits.Some? then ScanResultsOf(m, scanTag, hits.value) else [];
                gc.asc == old(gc.asc) && gc.currentScanResults == results
                && gc.LedgerState() == Reconcile(old(gc.LedgerState()), old(gc.currentScanResults), results, scene)
      ensures gc != null && !old(gc.HasValidData(scene.alive)) ==>
                gc.abilityData == old(gc.abilityData) && gc.currentScanResults == old(gc.currentScanResults)
    {
      if gc == null {
        WaitForGrasp(delay, env.worldValid);
        return false;
      }
      var c := gc;
      if !env.worldValid || !env.gameInstanceValid {
        var _ := c.EndAllTargetingRequests(true, false, subsystem);
        WaitForGrasp(delay, env.worldValid);
        return false;
      }
      if subsystem == null {
        var fired := c.EndAllTargetingRequests(true, true, null);
        requestedAgain := false;
        if fired {
          requestedAgain := OnRequestGrasp(env, null);
        }
        WaitForGrasp(delay, env.worldValid);
        return;
      }
      requestedAgain := DeliverResults(handleValid, hits, scanTag, m, scene, env, subsystem);
    }

    /** The last part of OnGraspComplete, once the world and the subsystem are there. */
    method DeliverResults(handleValid: bool, hits: Option<seq<TargetHit>>, scanTag: GameplayTag, m: EngineMath, scene: Scene,
                          env: Env, subsystem: TargetingSubsystem) returns (requestedAgain: bool)
      requires m.Lawful() && gc != null && env.worldValid && env.gameInstanceValid
      modifies this`gc, this`waitTimer, this`failsafeTimer, gc, gc.asc, CacheFrame(env), subsystem
      ensures gc == old(gc)
      ensures var remaining := if handleValid then old(gc.targetingRequests) - {scanTag} else old(gc.targetingRequests);
              (requestedAgain <==> remaining == map[])
              && failsafeTimer == Armed(failsafeDelay)
              && (!requestedAgain ==> gc.targetingRequests == remaining && waitTimer == old(waitTimer)
                                      && subsystem.pending == old(subsystem.pending) && subsystem.nextHandle == old(subsystem.nextHandle))
              && (requestedAgain ==> Scanned(old(ConfigOf(this, gc, env, subsystem)), env,
                                             old(ViewOf(this, gc, subsystem)).(requests := remaining), ViewOf(this, gc, subsystem)))
      ensures old(gc.HasValidData(scene.alive)) ==>
                var results := if handleValid && hits.Some? then ScanResultsOf(m, scanTag, hits.value) else [];
                gc.asc == old(gc.asc) && gc.currentScanResults == results
                && gc.LedgerState() == Reconcile(old(gc.LedgerState()), old(gc.currentScanResults), results, scene)
      ensures !old(gc.HasValidData(scene.alive)) ==> gc.abilityData == old(gc.abilityData) && gc.currentScanResults == old(gc.currentScanResults)
    {
      ConsumeCompletion(handleValid, hits, scanTag, m, scene, env, subsystem);
      requestedAgain := RequestIfDone(env, subsystem);
      failsafeTimer := Armed(failsafeDelay);
    }

    /** The next scan is requested once no request is left; the ledger is left alone. */
    method RequestIfDone(env: Env, subsystem: TargetingSubsystem) returns (requested: bool)
      requires gc != null
      modifies this`gc, this`waitTimer, gc, CacheFrame(env), subsystem
      ensures gc == old(gc) && (requested <==> old(gc.targetingRequests) == map[])
      ensures !requested ==> waitTimer == old(waitTimer) && unchanged(gc, subsystem)
      ensures requested ==> Scanned(old(ConfigOf(this, gc, env, subsystem)), env, old(ViewOf(this, gc, subsystem)), ViewOf(this, gc, subsystem))
      ensures unchanged(gc`abilityData, gc`currentScanResults, gc`asc)
    {
      requested := gc.targetingRequests == map[];
      if requested {
        RequestGrasp(env, subsystem);
      }
    }

    /** The results of a completion reach the ledger, and its tag leaves the request map when its handle is valid. */
    method ConsumeCompletion(handleValid: bool, hits: Option<seq<TargetHit>>, scanTag: GameplayTag, m: EngineMath, scene: Scene,
                             ghost env: Env, ghost subsystem: TargetingSubsystem)
      requires m.Lawful() && gc != null
      modifies gc`targetingRequests, gc`currentScanResults, gc`abilityData, gc.asc
      ensures gc.targetingRequests == if handleValid then old(gc.targetingRequests) - {scanTag} else old(gc.targetingRequests)
      ensures ConfigOf(this, gc, env, subsystem) == old(ConfigOf(this, gc, env, subsystem))
      ensures ViewOf(this, gc, subsystem) == old(ViewOf(this, gc, subsystem)).(requests := gc.targetingRequests)
      ensures old(gc.HasValidData(scene.alive)) ==>
                var results := if handleValid && hits.Some? then ScanResultsOf(m, scanTag, hits.value) else [];
                gc.currentScanResults == results
                && gc.LedgerState() == Reconcile(old(gc.LedgerState()), old(gc.currentScanResults), results, scene)
      ensures !old(gc.HasValidData(scene.alive)) ==> gc.abilityData == old(gc.abilityData) && gc.currentScanResults == old(gc.currentScanResults)
    {
      var c := gc;
      var scanResults: seq<ScanResult> := [];
      if handleValid {
        if hits.Some? {
          scanResults := BuildScanResults(m, scanTag, hits.value);
        }
        c.targetingRequests := c.targetingRequests - {scanTag};
      }
      c.GraspTargetsReady(scanResults, scene);
    }

    /**
     * OnRequestGrasp: the component ended every request and asks the task to
     * carry on; it requests only with a world and no wait already scheduled.
     * The returned flag says whether RequestGrasp ran.
     */
    method OnRequestGrasp(env: Env, subsystem: TargetingSubsystem?) returns (requested: bool)
      modifies this`gc, this`waitTimer, gc, CacheFrame(env), subsystem
      ensures requested <==> env.worldValid && old(waitTimer) == Idle
      ensures !requested ==> gc == old(gc) && waitTimer == old(waitTimer)
      ensures !requested && gc != null ==> unchanged(gc)
      ensures !requested && subsystem != null ==> unchanged(subsystem)
      ensures old(gc) != null ==> gc == old(gc) && unchanged(gc`pauseGraspBound, gc`requestGraspBound)
      ensures requested && old(gc) != null ==>
                Scanned(old(ConfigOf(this, gc, env, subsystem)), env, old(ViewOf(this, gc, subsystem)), ViewOf(this, gc, subsystem))
      ensures old(gc) != null ==> unchanged(gc`abilityData, gc`currentScanResults, gc`asc, gc`controller, gc`maxGraspScanRate)
      ensures old(gc) != null ==> unchanged(gc`defaultTargetingPresets, gc`defaultTargetingSource, gc`updateTargetingPresetsOnUpdate,
                                            gc`updateTargetingPresetsOnPawnChange)
    {
      requested := false;
      if env.worldValid {
        if waitTimer == Idle {
          requested := true;
          RequestGrasp(env, subsystem);
        }
      }
    }

    /**
     * OnPauseGrasp: pausing cancels a scheduled wait (given a world);
     * unpausing requests straight away. The returned flag says whether
     * RequestGrasp ran.
     */
    method OnPauseGrasp(paused: bool, env: Env, subsystem: TargetingSubsystem?) returns (requested: bool)
      modifies this`gc, this`waitTimer, gc, CacheFrame(env), subsystem
      ensures requested <==> !paused
      ensures paused ==> gc == old(gc) && waitTimer == (if env.worldValid then Idle else old(waitTimer))
      ensures paused && gc != null ==> unchanged(gc)
      ensures paused && subsystem != null ==> unchanged(subsystem)
      ensures !paused && old(gc) != null ==>
                gc == old(gc)
                && Scanned(old(ConfigOf(this, gc, env, subsystem)), env, old(ViewOf(this, gc, subsystem)), ViewOf(this, gc, subsystem))
      ensures old(gc) != null ==> unchanged(gc`abilityData, gc`currentScanResults, gc`asc)
    {
      if paused {
        if env.worldValid {
          waitTimer := Idle;
        }
        return false;
      }
      RequestGrasp(env, subsystem);
      return true;
    }

    /** The wait timer firing: it is no longer active, and RequestGrasp runs. */
    method OnWaitTimer(env: Env, subsystem: TargetingSubsystem?)
      modifies this`gc, this`waitTimer, gc, CacheFrame(env), subsystem
      ensures old(gc) != null ==>
                gc == old(gc)
                && Scanned(old(ConfigOf(this, gc, env, subsystem)), env, old(ViewOf(this, gc, subsystem)).(waitTimer := Idle),
                           ViewOf(this, gc, subsystem))
    {
      waitTimer := Idle;
      RequestGrasp(env, subsystem);
    }

    /**
     * OnDestroy, as written: with a world, the timers bound to the task are
     * cleared and the task unbinds from the component's delegates. Only the
     * wait timer is bound to the task (it is set with the task and a member
     * function); the failsafe timer is set with a bare lambda, which has no
     * bound object, so clearing the task's timers leaves it armed.
     */
    method OnDestroy(worldValid: bool)
      modifies this`waitTimer, gc
      ensures worldValid ==> waitTimer == Idle
      ensures !worldValid ==> waitTimer == old(waitTimer)
      ensures gc != null && worldValid ==> !gc.pauseGraspBound && !gc.requestGraspBound
      ensures gc != null && !worldValid ==> unchanged(gc)
      ensures gc != null ==> unchanged(gc`targetingRequests, gc`abilityData, gc`currentScanResults, gc`lastGraspScanTime)
    {
      if worldValid {
        waitTimer := Idle;
        Unbind();
      }
    }

    /** The delegate part of OnDestroy: the task unbinds from the component's pause and request delegates. */
    method Unbind()
      modifies gc
      ensures gc != null ==> !gc.pauseGraspBound && !gc.requestGraspBound
      ensures gc != null ==> unchanged(gc`targetingRequests, gc`abilityData, gc`currentScanResults, gc`lastGraspScanTime)
    {
      if gc != null {
        if gc.pauseGraspBound {
          gc.pauseGraspBound := false;
        }
        if gc.requestGraspBound {
          gc.requestGraspBound := false;
        }
      }
    }

    /**
     * A task destroyed while its failsafe is armed and requests are in flight:
     * the failsafe timer is still armed after OnDestroy, and when it fires
     * RequestGrasp runs once more for the destroyed task.
     */
    method FailsafeOutlivesDestroy(env: Env, subsystem: TargetingSubsystem?) returns (armedAfterDestroy: bool, requests: nat)
      requires gc != null && failsafeTimer.Armed? && gc.targetingRequests != map[]
      modifies this`gc, this`waitTimer, this`failsafeTimer, gc, CacheFrame(env), subsystem
      ensures armedAfterDestroy && requests == 1
    {
      OnDestroy(env.worldValid);
      armedAfterDestroy := failsafeTimer.Armed?;
      requests := OnFailsafeTimer(env, subsystem);
    }

    /**
     * OnDestroy, corrected: the failsafe timer is cleared by its handle as
     * well, so no timer of the task is left to fire.
     */
    method OnDestroyCorrected(worldValid: bool)
      modifies this`waitTimer, this`failsafeTimer, gc
      ensures worldValid ==> waitTimer == Idle && failsafeTimer == Idle
      ensures !worldValid ==> waitTimer == old(waitTimer) && failsafeTimer == old(failsafeTimer)
      ensures gc != null && worldValid ==> !gc.pauseGraspBound && !gc.requestGraspBound
      ensures gc != null && !worldValid ==> unchanged(gc)
      ensures gc != null ==> unchanged(gc`targetingRequests, gc`abilityData, gc`currentScanResults, gc`lastGraspScanTime)
    {
      if worldValid {
        waitTimer := Idle;
        failsafeTimer := Idle;
        Unbind();
      }
    }

    /**
     * The failsafe timer firing, as written: with requests still outstanding,
     * all of them are ended with notification and RequestGrasp runs. The
     * notification itself reaches OnRequestGrasp when the task is bound and
     * not waiting, so RequestGrasp then runs twice; the returned count says
     * how many times it ran.
     */
    method OnFailsafeTimer(env: Env, subsystem: TargetingSubsystem?) returns (requests: nat)
      requires gc != null
      modifies this`gc, this`waitTimer, this`failsafeTimer, gc, CacheFrame(env), subsystem
      ensures gc == old(gc) && failsafeTimer == Idle
      ensures old(gc.targetingRequests) == map[] ==>
                requests == 0 && waitTimer == old(waitTimer) && unchanged(gc) && (subsystem != null ==> unchanged(subsystem))
      ensures old(gc.targetingRequests) != map[] ==>
                requests == if env.worldValid && env.gameInstanceValid && subsystem != null && old(gc.requestGraspBound)
                               && old(waitTimer) == Idle then 2 else 1
      ensures old(gc.targetingRequests) != map[] && env.worldValid && env.gameInstanceValid && subsystem != null ==>
                var ended := old(ViewOf(this, gc, subsystem)).(requests := map[],
                                                               pending := old(subsystem.pending) - HeldIds(old(gc.targetingRequests)));
                var cfg := old(ConfigOf(this, gc, env, subsystem));
                (requests == 1 ==> Scanned(cfg, env, ended, ViewOf(this, gc, subsystem)))
                && (requests == 2 ==> exists v :: Scanned(cfg, env, ended, v) && Scanned(cfg, env, v, ViewOf(this, gc, subsystem)))
    {
      failsafeTimer := Idle;
      var c := gc;
      requests := 0;
      if c.targetingRequests != map[] {
        var fired := c.EndAllTargetingRequests(true, env.worldValid && env.gameInstanceValid, subsystem);
        requests := RequestAfterEnding(fired, env, subsystem);
      }
    }

    /**
     * The rest of the failsafe once the requests are ended: the notification,
     * when it fired, reaches OnRequestGrasp, and then RequestGrasp runs. The
     * returned count says how many times RequestGrasp ran.
     */
    method RequestAfterEnding(fired: bool, env: Env, subsystem: TargetingSubsystem?) returns (requests: nat)
      requires gc != null
      modifies this`gc, this`waitTimer, gc, CacheFrame(env), subsystem
      ensures gc == old(gc)
      ensures requests == if fired && env.worldValid && old(waitTimer) == Idle then 2 else 1
      ensures var cfg := old(ConfigOf(this, gc, env, subsystem));
              (requests == 1 ==> Scanned(cfg, env, old(ViewOf(this, gc, subsystem)), ViewOf(this, gc, subsystem)))
              && (requests == 2 ==> exists v :: Scanned(cfg, env, old(ViewOf(this, gc, subsystem)), v)
                                               && Scanned(cfg, env, v, ViewOf(this, gc, subsystem)))
    {
      var c := gc;
      requests := 1;
      if fired {
        var dispatched := OnRequestGrasp(env, subsystem);
        if dispatched {
          requests := 2;
        }
      }
      ghost var between := ViewOf(this, c, subsystem);
      RequestGrasp(env, subsystem);
    }

    /**
     * The failsafe timer firing, corrected: the outstanding requests are ended
     * without notification, so RequestGrasp runs exactly once, from a
     * component holding no requests.
     */
    method OnFailsafeTimerCorrected(env: Env, subsystem: TargetingSubsystem?) returns (requests: nat)
      requires gc != null
      modifies this`gc, this`waitTimer, this`failsafeTimer, gc, CacheFrame(env), subsystem
      ensures gc == old(gc) && failsafeTimer == Idle
      ensures old(gc.targetingRequests) == map[] ==>
                requests == 0 && waitTimer == old(waitTimer) && unchanged(gc) && (subsystem != null ==> unchanged(subsystem))
      ensures old(gc.targetingRequests) != map[] ==> requests == 1
      ensures old(gc.targetingRequests) != map[] && env.worldValid && env.gameInstanceValid && subsystem != null ==>
                Scanned(old(ConfigOf(this, gc, env, subsystem)), env,
                        old(ViewOf(this, gc, subsystem)).(requests := map[],
                                                          pending := old(subsystem.pending) - HeldIds(old(gc.targetingRequests))),
                        ViewOf(this, gc, subsystem))
      ensures old(gc.targetingRequests) != map[] && env.worldValid && env.gameInstanceValid && subsystem != null
              && old(subsystem.pending) <= HeldIds(old(gc.targetingRequests)) ==>
                subsystem.pending <= HeldIds(gc.targetingRequests)
    {
      failsafeTimer := Idle;
      var c := gc;
      requests := 0;
      if c.targetingRequests != map[] {
        var _ := c.EndAllTargetingRequests(false, env.worldValid && env.gameInstanceValid, subsystem);
        ghost var ended := ViewOf(this, c, subsystem);
        ghost var cfg := ConfigOf(this, c, env, subsystem);
        RequestGrasp(env, subsystem);
        requests := 1;
        if env.worldValid && env.gameInstanceValid && subsystem != null && ended.pending == {} {
          ScanFromNothingTracksEveryRequest(cfg, env, ended, ViewOf(this, c, subsystem));
        }
      }
    }
  }
}
