/**
 * The grasp component that lives on a controller: it keeps the grant ledger,
 * the targeting presets and the in-flight targeting requests, and is fed scan
 * results by the scan task. Delegates it executes (OnPauseGrasp,
 * OnRequestGrasp) are returned as flags saying whether they fire; the scan
 * task dispatches them. The world, the game instance and the targeting
 * subsystem are passed in.
 */
module GraspComponentModel {
  import opened GraspTypes
  import opened GraspAbilityData
  import opened GraspData
  import opened GraspAbilitySystem
  import opened GraspLedger

  /** A targeting preset: its task set, when it has one, by the number of tasks in it. */
  datatype TargetingPreset = TargetingPreset(taskSet: Option<nat>)

  /** Preset tag to preset; a None value is a null preset pointer. */
  type PresetMap = map<GameplayTag, Option<TargetingPreset>>

  /** The tag the default preset map is keyed by. */
  const GraspInteract: GameplayTag := Tag("Grasp.Interact")

  /** The targeting subsystem: it issues request handles and runs the requests started with them. */
  class TargetingSubsystem {
    var nextHandle: nat
    /** Ids of the requests started and not yet removed. */
    var pending: set<nat>

    constructor()
      ensures nextHandle == 0 && pending == {}
    {
      nextHandle := 0;
      pending := {};
    }

    /** MakeTargetRequestHandle: a handle no earlier request was given. */
    method MakeTargetRequestHandle() returns (h: RequestHandle)
      modifies this`nextHandle
      ensures h.id == old(nextHandle) && nextHandle == old(nextHandle) + 1
    {
      h := RequestHandle(nextHandle);
      nextHandle := nextHandle + 1;
    }

    /** StartAsyncTargetingRequestWithHandle: the request is running. */
    method StartAsyncTargetingRequestWithHandle(h: RequestHandle)
      modifies this`pending
      ensures pending == old(pending) + {h.id}
    {
      pending := pending + {h.id};
    }

    /** RemoveAsyncTargetingRequestWithHandle: the request no longer runs. */
    method RemoveAsyncTargetingRequestWithHandle(h: RequestHandle)
      modifies this`pending
      ensures pending == old(pending) - {h.id}
    {
      pending := pending - {h.id};
    }
  }

  /** The ids of the handles the request map holds. */
  function HeldIds(m: map<GameplayTag, RequestHandle>): set<nat>
  {
    set t | t in m :: m[t].id
  }

  /** Whether ending requests for this preset tag ends the request kept under t: an invalid tag ends them all. */
  predicate Ends(presetTag: GameplayTag, t: GameplayTag)
  {
    !presetTag.IsValid() || t == presetTag
  }

  /** The request map after EndTargetingRequests: exactly the matching entries are gone, the others are kept as they were. */
  function RequestsAfterEnd(m: map<GameplayTag, RequestHandle>, presetTag: GameplayTag): (n: map<GameplayTag, RequestHandle>)
    ensures forall t :: t in n <==> t in m && !Ends(presetTag, t)
    ensures forall t :: t in n ==> n[t] == m[t]
  {
    if !presetTag.IsValid() then map[] else m - {presetTag}
  }

  /** The ids of the request handles ending requests for this tag removes from the subsystem. */
  function EndedHandles(m: map<GameplayTag, RequestHandle>, presetTag: GameplayTag): set<nat>
  {
    set t | t in m && Ends(presetTag, t) :: m[t].id
  }

  /** The request map after ending the requests of every dropped preset tag, one tag at a time. */
  function RequestsAfterDropping(m: map<GameplayTag, RequestHandle>, dropped: set<GameplayTag>): (n: map<GameplayTag, RequestHandle>)
    ensures EmptyTag in dropped ==> n == map[]
    ensures EmptyTag !in dropped ==> forall t :: t in n <==> t in m && t !in dropped
    ensures forall t :: t in n ==> t in m && n[t] == m[t]
  {
    if EmptyTag in dropped then map[] else m - dropped
  }

  /** The ids of the request handles held under the entries that dropping the tags removes. */
  function DroppedHandles(m: map<GameplayTag, RequestHandle>, dropped: set<GameplayTag>): set<nat>
  {
    set t | t in m && t !in RequestsAfterDropping(m, dropped) :: m[t].id
  }

  /** Ending one more dropped tag's requests is dropping that tag too, whatever the order. */
  lemma EndOneMoreDropped(m: map<GameplayTag, RequestHandle>, dropped: set<GameplayTag>, t: GameplayTag)
    ensures RequestsAfterEnd(RequestsAfterDropping(m, dropped), t) == RequestsAfterDropping(m, dropped + {t})
  {
    var lhs := RequestsAfterEnd(RequestsAfterDropping(m, dropped), t);
    var rhs := RequestsAfterDropping(m, dropped + {t});
    if EmptyTag !in dropped + {t} {
      assert lhs.Keys == rhs.Keys;
    }
  }

  /**
   * The bookkeeping of one iteration of UpdateTargetingPresets: ending one
   * more dropped tag's requests keeps the map equal to dropping every tag
   * ended so far, and OnRequestGrasp has fired so far exactly when some tag
   * was ended and no request is left.
   */
  lemma DroppingOneMore(m: map<GameplayTag, RequestHandle>, ended: set<GameplayTag>, t: GameplayTag,
                        before: map<GameplayTag, RequestHandle>, after: map<GameplayTag, RequestHandle>,
                        removes: bool, notifies: bool, firedBefore: bool, fired: bool)
    requires before == if removes then RequestsAfterDropping(m, ended) else m
    requires after == if removes then RequestsAfterEnd(before, t) else before
    requires firedBefore <==> notifies && ended != {} && before == map[]
    requires fired <==> notifies && after == map[]
    ensures after == if removes then RequestsAfterDropping(m, ended + {t}) else m
    ensures firedBefore || fired <==> notifies && ended + {t} != {} && after == map[]
    ensures removes ==> DroppedHandles(m, ended) + EndedHandles(before, t) == DroppedHandles(m, ended + {t})
  {
    if removes {
      EndOneMoreDropped(m, ended, t);
      DroppedHandlesOneMore(m, ended, t);
      if before == map[] {
        assert after.Keys == {};
      }
    }
  }

  /** The handles removed by ending one more dropped tag are those held under the entries it removes. */
  lemma DroppedHandlesOneMore(m: map<GameplayTag, RequestHandle>, ended: set<GameplayTag>, t: GameplayTag)
    ensures DroppedHandles(m, ended) + EndedHandles(RequestsAfterDropping(m, ended), t) == DroppedHandles(m, ended + {t})
  {
    var before := RequestsAfterDropping(m, ended);
    var after := RequestsAfterDropping(m, ended + {t});
    EndOneMoreDropped(m, ended, t);
    forall id | id in DroppedHandles(m, ended + {t})
      ensures id in DroppedHandles(m, ended) + EndedHandles(before, t)
    {
      var u :| u in m && u !in after && m[u].id == id;
      if u in before {
        assert Ends(t, u);
      }
    }
  }

  /** A subset as large as its superset is the superset. */
  lemma SubsetOfSameSize<T>(a: set<T>, b: set<T>)
    requires a <= b && |a| == |b|
    ensures a == b
  {
    assert b == a + (b - a);
    assert |b| == |a| + |b - a|;
  }

  class GraspComponent {
    /** Abilities granted up front and never revoked by scanning. */
    var commonGraspAbilities: seq<AbilityClass>
    var defaultTargetingPresets: PresetMap
    var defaultTargetingSource: EGraspTargetingSource
    var updateTargetingPresetsOnUpdate: bool
    var updateTargetingPresetsOnPawnChange: bool
    var endTargetingRequestsOnPawnChange: bool
    var lastUpdateTargetingPresetsOnPawnChange: bool
    /** World time of the last throttled scan, in seconds. */
    var lastGraspScanTime: real
    var currentTargetingPresets: PresetMap
    /** In-flight targeting requests by preset tag. */
    var targetingRequests: map<GameplayTag, RequestHandle>
    var scanAbilityHandle: SpecHandle
    /** The owning controller. */
    var controller: ObjRef
    /** Whether a scan task is bound to OnPauseGrasp and OnRequestGrasp. */
    var pauseGraspBound: bool
    var requestGraspBound: bool
    var currentScanResults: seq<ScanResult>
    /** The grant ledger: one record per ability class. */
    var abilityData: map<AbilityClass, AbilityRecord>
    /** The ability system component, held weakly. */
    var asc: AbilitySystemComponent?
    /** What GetMaxGraspScanRate returns; an override of that event is modelled by setting it. */
    var maxGraspScanRate: real

    /**
     * A new component: a single null preset under Grasp.Interact, the pawn
     * as targeting source, every update flag off, no scan yet (time -1),
     * no rate limit, and an empty ledger.
     */
    constructor()
      ensures commonGraspAbilities == [] && defaultTargetingPresets == map[GraspInteract := Option.None]
      ensures defaultTargetingSource == Pawn
      ensures !updateTargetingPresetsOnUpdate && !updateTargetingPresetsOnPawnChange && !endTargetingRequestsOnPawnChange
      ensures !lastUpdateTargetingPresetsOnPawnChange && lastGraspScanTime == -1.0 && maxGraspScanRate == 0.0
      ensures currentTargetingPresets == map[] && targetingRequests == map[] && !scanAbilityHandle.IsValid()
      ensures controller == NullRef && asc == null && abilityData == map[] && currentScanResults == []
      ensures !pauseGraspBound && !requestGraspBound
    {
      commonGraspAbilities := [];
      defaultTargetingPresets := map[GraspInteract := Option.None];
      defaultTargetingSource := Pawn;
      updateTargetingPresetsOnUpdate := false;
      updateTargetingPresetsOnPawnChange := false;
      endTargetingRequestsOnPawnChange := false;
      lastUpdateTargetingPresetsOnPawnChange := false;
      lastGraspScanTime := -1.0;
      currentTargetingPresets := map[];
      targetingRequests := map[];
      scanAbilityHandle := InvalidHandle;
      controller := NullRef;
      pauseGraspBound := false;
      requestGraspBound := false;
      currentScanResults := [];
      abilityData := map[];
      asc := null;
      maxGraspScanRate := 0.0;
    }

    /** Whether the weak ability system reference still resolves. */
    predicate AscValid(alive: set<nat>)
      reads this
    {
      asc != null && asc.id in alive
    }

    /** HasValidData: a live controller and a live ability system. */
    predicate HasValidData(alive: set<nat>)
      reads this
    {
      IsValidRef(controller, alive) && AscValid(alive)
    }

    /** GetASC: the ability system, or null once the weak reference no longer resolves. */
    function GetASC(alive: set<nat>): (a: AbilitySystemComponent?)
      reads this
      ensures a == null <==> !AscValid(alive)
      ensures a != null ==> a == asc && a.id in alive
    {
      if AscValid(alive) then asc else null
    }

    function GetMaxGraspScanRate(): real
      reads this
    {
      maxGraspScanRate
    }

    /** GetTargetingPresets: the default presets unless overridden. */
    function GetTargetingPresets(): PresetMap
      reads this
    {
      defaultTargetingPresets
    }

    /**
     * GetTargetingSource: the actor scans trace from, given the pawn the
     * controller possesses. The controller's pawn for Pawn, the pawn or else
     * the controller for PawnIfValid, the controller for Controller.
     */
    function GetTargetingSource(possessedPawn: ObjRef): (a: ObjRef)
      reads this
      ensures a == NullRef <==> controller == NullRef || (defaultTargetingSource == Pawn && possessedPawn == NullRef)
      ensures a != NullRef ==> a == possessedPawn || a == controller
      ensures defaultTargetingSource == Controller ==> a == controller
      ensures defaultTargetingSource != Controller && controller != NullRef && possessedPawn != NullRef ==> a == possessedPawn
    {
      match defaultTargetingSource
      case Pawn => if controller.Ref? then possessedPawn else NullRef
      case PawnIfValid => if controller.Ref? && possessedPawn.Ref? then possessedPawn else controller
      case Controller => controller
    }

    /** The ledger the component keeps with its ability system. */
    function LedgerState(): Ledger
      reads this, asc
      requires asc != null
    {
      Ledger(abilityData, asc.Registry())
    }

    /**
     * InitializeGrasp: caches the ability system and the owning controller
     * (null when the owner is not a controller) and, with authority, grants
     * the common abilities as persistent records, replaces the scan ability,
     * and takes the targeting presets when scanning is enabled. An invalid
     * owner changes nothing; an invalid ability system stops after caching it.
     */
    method InitializeGrasp(inAsc: AbilitySystemComponent?, scanAbility: AbilityClass, ownerValid: bool, ownerAsController: ObjRef,
                           ownerHasAuthority: bool, alive: set<nat>)
      modifies this`asc, this`controller, this`abilityData, this`scanAbilityHandle, this`lastUpdateTargetingPresetsOnPawnChange,
               this`currentTargetingPresets, inAsc
      ensures !ownerValid ==> asc == old(asc) && controller == old(controller)
      ensures ownerValid ==> asc == inAsc
      ensures ownerValid && AscValid(alive) ==> controller == ownerAsController
      ensures ownerValid && !AscValid(alive) ==> controller == old(controller)
      ensures !(ownerValid && AscValid(alive) && ownerHasAuthority) ==>
                lastUpdateTargetingPresetsOnPawnChange == old(lastUpdateTargetingPresetsOnPawnChange)
      ensures !(ownerValid && AscValid(alive) && ownerHasAuthority) ==>
                abilityData == old(abilityData) && scanAbilityHandle == old(scanAbilityHandle)
                && currentTargetingPresets == old(currentTargetingPresets)
                && (inAsc != null ==> inAsc.Registry() == old(inAsc.Registry()))
      ensures ownerValid && AscValid(alive) && ownerHasAuthority ==>
                var granted := PreGrant(Ledger(old(abilityData), old(inAsc.Registry())), commonGraspAbilities);
                var scan := RegrantScan(granted.registry, old(scanAbilityHandle), scanAbility);
                abilityData == granted.records && scanAbilityHandle == scan.handle && asc.Registry() == scan.registry
                && lastUpdateTargetingPresetsOnPawnChange == updateTargetingPresetsOnPawnChange
                && currentTargetingPresets == if scan.handle.IsValid() then GetTargetingPresets() else old(currentTargetingPresets)
    {
      if !ownerValid {
        return;
      }
      asc := inAsc;
      if !(asc != null && asc.id in alive) {
        return;
      }
      controller := ownerAsController;
      if ownerHasAuthority {
        GrantCommonAbilities();
        ReplaceScanAbility(scanAbility);
        lastUpdateTargetingPresetsOnPawnChange := updateTargetingPresetsOnPawnChange;
        if scanAbilityHandle.IsValid() {
          currentTargetingPresets := GetTargetingPresets();
        }
      }
    }

    /** The scan ability part of InitializeGrasp: the previous scan ability is cleared and the given one granted. */
    method ReplaceScanAbility(scanAbility: AbilityClass)
      requires asc != null
      modifies this`scanAbilityHandle, asc
      ensures scanAbilityHandle == RegrantScan(old(asc.Registry()), old(scanAbilityHandle), scanAbility).handle
      ensures asc.Registry() == RegrantScan(old(asc.Registry()), old(scanAbilityHandle), scanAbility).registry
    {
      if scanAbilityHandle.IsValid() {
        asc.ClearAbility(scanAbilityHandle);
        scanAbilityHandle := InvalidHandle;
      }
      if scanAbility != NoAbility {
        scanAbilityHandle := asc.GiveAbility(scanAbility);
      }
    }

    /** The pre-grant loop of InitializeGrasp: each common ability the system grants gets a persistent record. */
    method GrantCommonAbilities()
      requires asc != null
      modifies this`abilityData, asc
      ensures LedgerState() == PreGrant(old(LedgerState()), commonGraspAbilities)
    {
      ghost var start := LedgerState();
      var i := 0;
      while i < |commonGraspAbilities|
        invariant 0 <= i <= |commonGraspAbilities|
        invariant LedgerState() == PreGrant(start, commonGraspAbilities[..i])
      {
        PreGrantOne(commonGraspAbilities[i]);
        assert commonGraspAbilities[..i + 1][..i] == commonGraspAbilities[..i];
        i := i + 1;
      }
      assert commonGraspAbilities[..i] == commonGraspAbilities;
    }

    /** One iteration of the pre-grant loop: a granted common ability gets a persistent record. */
    method PreGrantOne(ability: AbilityClass)
      requires asc != null
      modifies this`abilityData, asc
      ensures LedgerState() == PreGrantStep(old(LedgerState()), ability)
    {
      var handle := asc.GiveAbility(ability);
      if handle.IsValid() {
        var data := if ability in abilityData then abilityData[ability] else DefaultRecord();
        abilityData := abilityData[ability := data.(handle := handle, ability := ability, persistent := true)];
      }
    }

    /**
     * GraspTargetsReady: with valid data, the new results become the current
     * ones and the ledger is reconciled against them, revoke pass first, then
     * grant pass. Without valid data nothing changes.
     */
    method GraspTargetsReady(results: seq<ScanResult>, scene: Scene)
      modifies this`currentScanResults, this`abilityData, asc
      ensures !HasValidData(scene.alive) ==>
                currentScanResults == old(currentScanResults) && abilityData == old(abilityData)
                && (asc != null ==> asc.Registry() == old(asc.Registry()))
      ensures HasValidData(scene.alive) ==>
                currentScanResults == results
                && LedgerState() == Reconcile(old(LedgerState()), old(currentScanResults), results, scene)
    {
      if !HasValidData(scene.alive) {
        return;
      }
      var lastScanResults := currentScanResults;
      currentScanResults := results;
      RevokeAll(lastScanResults, scene);
      GrantAll(results, scene);
    }

    /** The revoke loop of GraspTargetsReady: abilities granted for previous results that have gone are revoked. */
    method RevokeAll(lastScanResults: seq<ScanResult>, scene: Scene)
      requires asc != null
      modifies this`abilityData, asc
      ensures LedgerState() == RevokePass(old(LedgerState()), lastScanResults, currentScanResults, scene)
    {
      ghost var start := LedgerState();
      var i := 0;
      while i < |lastScanResults|
        invariant 0 <= i <= |lastScanResults|
        invariant LedgerState() == RevokePass(start, lastScanResults[..i], currentScanResults, scene)
      {
        RevokeFor(lastScanResults[i], scene);
        assert lastScanResults[..i + 1][..i] == lastScanResults[..i];
        i := i + 1;
      }
      assert lastScanResults[..i] == lastScanResults;
    }

    /** The grant loop of GraspTargetsReady: abilities are granted for the new results that are close enough. */
    method GrantAll(results: seq<ScanResult>, scene: Scene)
      requires asc != null
      modifies this`abilityData, asc
      ensures LedgerState() == GrantPass(old(LedgerState()), results, scene)
    {
      ghost var revoked := LedgerState();
      var j := 0;
      while j < |results|
        invariant 0 <= j <= |results|
        invariant LedgerState() == GrantPass(revoked, results[..j], scene)
      {
        GrantFor(results[j], scene);
        assert results[..j + 1][..j] == results[..j];
        j := j + 1;
      }
      assert results[..j] == results;
    }

    /** One iteration of the revoke pass, for a previous result checked against the current results. */
    method RevokeFor(result: ScanResult, scene: Scene)
      requires asc != null
      modifies this`abilityData, asc
      ensures LedgerState() == RevokeStep(old(LedgerState()), result, currentScanResults, scene)
    {
      if !ContainsResult(currentScanResults, result) && IsValidRef(result.graspable, scene.alive)
         && result.graspable.id in scene.dataOf {
        var ability := scene.dataOf[result.graspable.id].GetGraspAbility();
        if ability != NoAbility && ability in abilityData {
          var data := abilityData[ability];
          if !data.persistent && data.handle.IsValid() && result.graspable in data.graspables {
            data := data.(graspables := Without(data.graspables, result.graspable));
            data := data.(graspables := Pruned(data.graspables, scene.alive));
            if |data.graspables| == 0 {
              asc.ClearAbility(data.handle);
              abilityData := abilityData - {ability};
            } else {
              abilityData := abilityData[ability := data];
            }
          }
        }
      }
    }

    /** One iteration of the grant pass, for a new result. */
    method GrantFor(result: ScanResult, scene: Scene)
      requires asc != null
      modifies this`abilityData, asc
      ensures LedgerState() == GrantStep(old(LedgerState()), result, scene)
    {
      if IsValidRef(result.graspable, scene.alive) && result.graspable.id in scene.dataOf {
        var graspData := scene.dataOf[result.graspable.id];
        var ability := graspData.GetGraspAbility();
        var data := if ability in abilityData then abilityData[ability] else DefaultRecord();
        abilityData := abilityData[ability := data];
        if !data.persistent && !data.handle.IsValid()
           && !FloatGreater(result.normalizedScanDistance, graspData.normalizedGrantAbilityDistance) {
          var handle := asc.GiveAbility(ability);
          if handle.IsValid() {
            abilityData := abilityData[ability := data.(handle := handle, ability := ability,
                                                       graspables := data.graspables + [result.graspable])];
          }
        }
      }
    }

    /**
     * EndTargetingRequests: with a valid world and a targeting subsystem, the
     * requests under the tag (all of them for an invalid tag) are removed from
     * the subsystem and the map. OnRequestGrasp fires when the world is valid,
     * notification is asked for, a task is bound and no request is left.
     */
    method EndTargetingRequests(presetTag: GameplayTag, notifyGrasp: bool, worldValid: bool, subsystem: TargetingSubsystem?)
      returns (requestGraspFired: bool)
      modifies this`targetingRequests, subsystem
      ensures worldValid && subsystem != null ==>
                targetingRequests == RequestsAfterEnd(old(targetingRequests), presetTag)
                && subsystem.pending == old(subsystem.pending) - EndedHandles(old(targetingRequests), presetTag)
      ensures !(worldValid && subsystem != null) ==> targetingRequests == old(targetingRequests)
      ensures !worldValid && subsystem != null ==> subsystem.pending == old(subsystem.pending)
      ensures subsystem != null ==> subsystem.nextHandle == old(subsystem.nextHandle)
      ensures requestGraspFired <==> worldValid && notifyGrasp && requestGraspBound && targetingRequests == map[]
    {
      if !worldValid {
        return false;
      }
      if subsystem != null {
        var removedRequests := RemoveMatchingRequests(presetTag, subsystem);
        if |removedRequests| == |targetingRequests| {
          SubsetOfSameSize(removedRequests, targetingRequests.Keys);
          assert RequestsAfterEnd(targetingRequests, presetTag).Keys == {};
          targetingRequests := map[];
        } else {
          ForgetRequests(removedRequests);
          assert targetingRequests.Keys == RequestsAfterEnd(old(targetingRequests), presetTag).Keys;
        }
      }
      requestGraspFired := targetingRequests == map[] && notifyGrasp && requestGraspBound;
    }

    /** The first loop of EndTargetingRequests: the requests under matching tags are removed from the subsystem and collected. */
    method RemoveMatchingRequests(presetTag: GameplayTag, subsystem: TargetingSubsystem) returns (removedRequests: set<GameplayTag>)
      modifies subsystem
      ensures removedRequests == set t | t in targetingRequests && Ends(presetTag, t)
      ensures subsystem.pending == old(subsystem.pending) - EndedHandles(targetingRequests, presetTag)
      ensures subsystem.nextHandle == old(subsystem.nextHandle)
    {
      removedRequests := {};
      ghost var removedIds: set<nat> := {};
      var todo := targetingRequests.Keys;
      while todo != {}
        invariant todo <= targetingRequests.Keys
        invariant removedRequests == set t | t in targetingRequests.Keys - todo && Ends(presetTag, t)
        invariant removedIds == set t | t in removedRequests :: targetingRequests[t].id
        invariant subsystem.pending == old(subsystem.pending) - removedIds
        invariant subsystem.nextHandle == old(subsystem.nextHandle)
        decreases todo
      {
        var t :| t in todo;
        if Ends(presetTag, t) {
          removedRequests := removedRequests + {t};
          removedIds := removedIds + {targetingRequests[t].id};
          subsystem.RemoveAsyncTargetingRequestWithHandle(targetingRequests[t]);
        }
        todo := todo - {t};
      }
    }

    /** The second loop of EndTargetingRequests: each removed tag leaves the request map. */
    method ForgetRequests(removedRequests: set<GameplayTag>)
      modifies this`targetingRequests
      ensures targetingRequests == old(targetingRequests) - removedRequests
    {
      var rest := removedRequests;
      while rest != {}
        invariant rest <= removedRequests
        invariant targetingRequests == old(targetingRequests) - (removedRequests - rest)
        decreases rest
      {
        var t :| t in rest;
        targetingRequests := targetingRequests - {t};
        rest := rest - {t};
      }
    }

    /** EndAllTargetingRequests: ending the requests under the empty tag, which ends them all. */
    method EndAllTargetingRequests(notifyGrasp: bool, worldValid: bool, subsystem: TargetingSubsystem?)
      returns (requestGraspFired: bool)
      modifies this`targetingRequests, subsystem
      ensures targetingRequests == if worldValid && subsystem != null then map[] else old(targetingRequests)
      ensures worldValid && subsystem != null ==>
                subsystem.pending == old(subsystem.pending) - HeldIds(old(targetingRequests))
      ensures !worldValid && subsystem != null ==> subsystem.pending == old(subsystem.pending)
      ensures subsystem != null ==> subsystem.nextHandle == old(subsystem.nextHandle)
      ensures requestGraspFired <==> worldValid && notifyGrasp && requestGraspBound && targetingRequests == map[]
    {
      requestGraspFired := EndTargetingRequests(EmptyTag, notifyGrasp, worldValid, subsystem);
    }

    /**
     * UpdateTargetingPresets: the presets are taken afresh, and the requests
     * of every tag no longer among them are ended with notification.
     * Whether OnRequestGrasp fired at least once is returned.
     */
    method UpdateTargetingPresets(worldValid: bool, subsystem: TargetingSubsystem?) returns (requestGraspFired: bool)
      modifies this`currentTargetingPresets, this`targetingRequests, subsystem
      ensures currentTargetingPresets == GetTargetingPresets()
      ensures var dropped := old(currentTargetingPresets).Keys - GetTargetingPresets().Keys;
              targetingRequests == (if worldValid && subsystem != null then RequestsAfterDropping(old(targetingRequests), dropped)
                                    else old(targetingRequests))
              && (requestGraspFired <==> worldValid && requestGraspBound && dropped != {} && targetingRequests == map[])
      ensures subsystem != null ==> subsystem.nextHandle == old(subsystem.nextHandle)
      ensures subsystem != null ==>
                subsystem.pending == if worldValid then old(subsystem.pending) - DroppedHandles(old(targetingRequests), old(currentTargetingPresets).Keys - GetTargetingPresets().Keys)
                                     else old(subsystem.pending)
    {
      var lastTargetingPresets := currentTargetingPresets;
      currentTargetingPresets := GetTargetingPresets();
      requestGraspFired := false;
      ghost var ended: set<GameplayTag> := {};
      var todo := lastTargetingPresets.Keys;
      while todo != {}
        invariant todo <= lastTargetingPresets.Keys && currentTargetingPresets == GetTargetingPresets()
        invariant ended == (lastTargetingPresets.Keys - todo) - currentTargetingPresets.Keys
        invariant targetingRequests == if worldValid && subsystem != null then RequestsAfterDropping(old(targetingRequests), ended)
                                       else old(targetingRequests)
        invariant requestGraspFired <==> worldValid && requestGraspBound && ended != {} && targetingRequests == map[]
        invariant subsystem != null ==> subsystem.nextHandle == old(subsystem.nextHandle)
        invariant subsystem != null ==>
                    subsystem.pending == if worldValid then old(subsystem.pending) - DroppedHandles(old(targetingRequests), ended)
                                         else old(subsystem.pending)
        decreases todo
      {
        var t :| t in todo;
        if t !in currentTargetingPresets {
          ghost var before := targetingRequests;
          var fired := EndTargetingRequests(t, true, worldValid, subsystem);
          DroppingOneMore(old(targetingRequests), ended, t, before, targetingRequests, worldValid && subsystem != null,
                          worldValid && requestGraspBound, requestGraspFired, fired);
          requestGraspFired := requestGraspFired || fired;
          ended := ended + {t};
        }
        todo := todo - {t};
      }
      assert ended == old(currentTargetingPresets).Keys - GetTargetingPresets().Keys;
    }

    /**
     * PauseGrasp: pausing with the option set ends every request without
     * notification; OnPauseGrasp then fires with the pause state when a task
     * is bound, which is what the returned flag says.
     */
    method PauseGrasp(paused: bool, endTargetingRequestsOnPause: bool, worldValid: bool, subsystem: TargetingSubsystem?)
      returns (pauseGraspFired: bool)
      modifies this`targetingRequests, subsystem
      ensures targetingRequests == if paused && endTargetingRequestsOnPause && worldValid && subsystem != null then map[]
                                   else old(targetingRequests)
      ensures subsystem != null ==> subsystem.nextHandle == old(subsystem.nextHandle)
      ensures subsystem != null ==>
                subsystem.pending == if paused && endTargetingRequestsOnPause && worldValid
                                     then old(subsystem.pending) - HeldIds(old(targetingRequests)) else old(subsystem.pending)
      ensures pauseGraspFired == pauseGraspBound
    {
      if endTargetingRequestsOnPause && paused {
        var _ := EndAllTargetingRequests(false, worldValid, subsystem);
      }
      pauseGraspFired := pauseGraspBound;
    }

    /** One step of the clear-all: resets the record under the key and withdraws its handle when the clear-all covers it. */
    method ClearRecordAt(k: AbilityClass, includeCommonAbilities: bool)
      requires k in abilityData && (asc != null || !ClearsRecord(abilityData[k], includeCommonAbilities))
      modifies this`abilityData, asc
      ensures abilityData == old(abilityData)[k := ClearedRecord(old(abilityData)[k], includeCommonAbilities)]
      ensures asc != null ==>
                asc.Registry() == old(asc.Registry()).(active := old(asc.Registry()).active - ClearedIds(old(abilityData), {k}, includeCommonAbilities))
    {
      var data := abilityData[k];
      if includeCommonAbilities || !data.persistent {
        asc.ClearAbility(data.handle);
        data := data.(handle := InvalidHandle, ability := NoAbility);
        abilityData := abilityData[k := data];
      }
      assert ClearedIds(old(abilityData), {k}, includeCommonAbilities)
             == if ClearsRecord(old(abilityData)[k], includeCommonAbilities) && old(abilityData)[k].handle.IsValid()
                then {old(abilityData)[k].handle.id} else {};
    }

    /**
     * The loop of the clear-all over every record: the ledger becomes its
     * clear-all image. Without an ability system the loop may only meet
     * records it leaves alone, and then it changes nothing.
     */
    method ClearRecords(includeCommonAbilities: bool)
      requires asc != null || NothingToClear(abilityData, includeCommonAbilities)
      modifies this`abilityData, asc
      ensures asc != null ==> LedgerState() == ClearAll(old(LedgerState()), includeCommonAbilities)
      ensures asc == null ==> abilityData == old(abilityData)
    {
      ghost var start := Ledger(abilityData, if asc != null then asc.Registry() else AbilityRegistry(0, map[], {}));
      var todo := abilityData.Keys;
      ghost var done: set<AbilityClass> := {};
      while todo != {}
        invariant todo !! done && todo + done == start.records.Keys
        invariant asc != null ==> PartlyCleared(start, done, abilityData, asc.Registry(), includeCommonAbilities)
        invariant asc == null ==> abilityData == start.records
        decreases todo
      {
        var k :| k in todo;
        ghost var records, registry := abilityData, if asc != null then asc.Registry() else start.registry;
        ClearRecordAt(k, includeCommonAbilities);
        if asc != null {
          PartlyClearedStep(start, done, records, registry, k, includeCommonAbilities);
        } else {
          assert ClearedRecord(records[k], includeCommonAbilities) == records[k];
        }
        done := done + {k};
        todo := todo - {k};
      }
      if asc != null {
        PartlyClearedAll(start, abilityData, asc.Registry(), includeCommonAbilities);
      }
    }

    /**
     * ClearAllGrantedGameplayAbilities: every record (only the non-persistent
     * ones unless common abilities are included) gives its handle back and
     * loses its handle and class; optionally the scan ability is cleared too.
     * The records stay: the map is only emptied when it is already empty.
     */
    method ClearAllGrantedGameplayAbilities(includeCommonAbilities: bool, includeScanAbility: bool, emptyData: bool)
      requires asc != null || (NothingToClear(abilityData, includeCommonAbilities) && !(includeScanAbility && scanAbilityHandle.IsValid()))
      modifies this`abilityData, this`scanAbilityHandle, asc
      ensures asc != null ==>
                var cleared := ClearAll(old(LedgerState()), includeCommonAbilities);
                abilityData == cleared.records
                && asc.Registry() == if includeScanAbility then Clear(cleared.registry, old(scanAbilityHandle)) else cleared.registry
      ensures asc == null ==> abilityData == old(abilityData)
      ensures scanAbilityHandle == if includeScanAbility then InvalidHandle else old(scanAbilityHandle)
    {
      ClearRecords(includeCommonAbilities);
      if includeScanAbility && scanAbilityHandle.IsValid() {
        asc.ClearAbility(scanAbilityHandle);
        scanAbilityHandle := InvalidHandle;
      }
      if |abilityData| == 0 && emptyData {
        abilityData := map[];
      }
    }
  }

  /** No record is one the clear-all resets, so it never needs the ability system. */
  predicate NothingToClear(records: map<AbilityClass, AbilityRecord>, includeCommon: bool)
  {
    forall k :: k in records ==> !ClearsRecord(records[k], includeCommon)
  }

  /** The clear-all loop part-way: the records in done are cleared and exactly their handles withdrawn. */
  ghost predicate PartlyCleared(start: Ledger, done: set<AbilityClass>, records: map<AbilityClass, AbilityRecord>,
                                registry: AbilityRegistry, includeCommon: bool)
  {
    records.Keys == start.records.Keys
    && (forall k :: k in records ==> records[k] == if k in done then ClearedRecord(start.records[k], includeCommon) else start.records[k])
    && registry == start.registry.(active := start.registry.active - ClearedIds(start.records, done, includeCommon))
  }

  /** Clearing one more record keeps the loop's account. */
  lemma PartlyClearedStep(start: Ledger, done: set<AbilityClass>, records: map<AbilityClass, AbilityRecord>,
                          registry: AbilityRegistry, k: AbilityClass, includeCommon: bool)
    requires PartlyCleared(start, done, records, registry, includeCommon) && k in records && k !in done
    ensures PartlyCleared(start, done + {k}, records[k := ClearedRecord(records[k], includeCommon)],
                          registry.(active := registry.active - ClearedIds(records, {k}, includeCommon)), includeCommon)
  {
    assert ClearedIds(records, {k}, includeCommon) == ClearedIds(start.records, {k}, includeCommon);
    assert ClearedIds(start.records, done + {k}, includeCommon)
           == ClearedIds(start.records, done, includeCommon) + ClearedIds(start.records, {k}, includeCommon);
  }

  /** Once every record is done the loop has produced the clear-all. */
  lemma PartlyClearedAll(start: Ledger, records: map<AbilityClass, AbilityRecord>, registry: AbilityRegistry, includeCommon: bool)
    requires PartlyCleared(start, start.records.Keys, records, registry, includeCommon)
    ensures Ledger(records, registry) == ClearAll(start, includeCommon)
  {
    var cleared := ClearAll(start, includeCommon);
    assert records == cleared.records;
  }

  /** Reconciling on a live component never disturbs a persistent record it granted up front. */
  lemma PersistentRecordsSurviveScans(c: GraspComponent, last: seq<ScanResult>, results: seq<ScanResult>, scene: Scene,
                                      k: AbilityClass)
    requires c.asc != null && k in c.abilityData && c.abilityData[k].persistent
    ensures k in Reconcile(c.LedgerState(), last, results, scene).records
    ensures Reconcile(c.LedgerState(), last, results, scene).records[k] == c.abilityData[k]
  {
    PersistentRecordsSurvive(c.LedgerState(), last, results, scene, k);
  }
}
