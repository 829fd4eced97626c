# Grasp interaction core in Dafny

This project models the decision core of Grasp, an Unreal Engine interaction plugin. A player controller carries a grasp component. A perpetual scan task asks the targeting subsystem for the graspable components around the player. The component then grants the gameplay abilities of the graspables that are close enough and revokes them when the graspables leave. The modelled parts are:

- **Ledger** (`ledger.dfy`, `component.dfy`). `GraspTargetsReady` is two passes over the map from ability class to ability record, against the ability system component. The revoke pass runs over the previous scan results and the grant pass runs over the new ones. Both passes are specified as left folds of a step function over the results, and the component's loops are proved equal to them. The model also covers:
  - the up-front grant of common (persistent) abilities in `InitializeGrasp`;
  - `ClearAllGrantedGameplayAbilities`;
  - the request bookkeeping: `EndTargetingRequests`, `UpdateTargetingPresets` and `PauseGrasp`;
  - `GetTargetingSource` and `GetASC`.
- **Ability system** (`ability_system.dfy`). The external ability system component is a handle counter over its active specs. It refuses the null class and any class in a refused set.
- **Interaction query** (`statics.dfy`). `CanInteractWith` and its distance, angle and height gates work on `real` vectors. Arc cosine and square root come from an `EngineMath` value whose `Lawful()` predicate states the range facts the proofs need. The module also covers `PrepareGraspAbilityDataPayload` and `FindGraspComponentForActor`.
- **Interaction data** (`grasp_data.dfy`, `ability_data.dfy`, `types.dfy`): defaults, tolerance scalars, the editor clamp of the highlight distance, `IsDataValid`, the ability record, and the scan result with its identity-only equality.
- **Scan task** (`scan_task.dfy`). A class whose handlers update the cached component, the wait and failsafe timers, the component's last scan time and requests, and the subsystem's running requests. One request is specified relationally by the ghost predicate `Scanned`, over snapshots of that state. Every handler's contract is stated through it.
- **Target selection and filters** (`target_selection.dfy`, `filters.dfy`). The selection covers the ability radius per shape, the overlap shape, the choice of overlap query and the de-duplicating overlap loop. The filters map a query result, a threshold and a chain of validity checks to keep or drop.

Some behaviour is modelled exactly as the code does it, even where a reader might expect otherwise:

- The grant pass's `FindOrAdd` leaves a record for a too-distant result, and a record for the null ability class.
- `ClearAllGrantedGameplayAbilities` empties the record map only when it is already empty, so the records are never removed.
- The base filter and the interface filter drop every target.
- The normalised angle difference is a 2D distance divided by an angle in degrees.
- A single-precision division by a zero ability radius gives +infinity or NaN. These are modelled by `FloatValue`, so a hit exactly at the trace start passes the grant threshold (NaN compares false).

Delegates the component fires (`OnRequestGrasp`, `OnPauseGrasp`) come back from its methods as flags. The scan task's handlers dispatch them where the scan task is the caller.

## Model

| member | source | states |
|---|---|---|
| GraspTypes.DefaultScanResult | Source/Grasp/Public/GraspTypes.h:93-99 | A default scan result has the empty (invalid) tag, a null graspable and distance 0. |
| GraspTypes.SameResultIsIdentity | Source/Grasp/Public/GraspTypes.h:117-125 | Scan-result equality is an equivalence decided by the graspable alone: tag and distance never matter, and `!=` is its negation. |
| GraspTypes.ContainsByGraspable | Source/Grasp/Private/GraspComponent.cpp:212 | `Contains` on scan results holds exactly when the result's graspable occurs in the list. |
| GraspTypes.Without | Source/Grasp/Private/GraspComponent.cpp:265 | `Remove` keeps exactly the elements different from the removed graspable. |
| GraspTypes.Pruned | Source/Grasp/Private/GraspComponent.cpp:268-271 | `RemoveAll` of invalid weak pointers keeps exactly the claimants that still resolve. |
| GraspTypes.FloatDiv | Source/Grasp/Private/GraspScanTask.cpp:435 | Distance over radius is the real quotient for a non-zero radius, and +inf (or NaN for a zero distance) otherwise. |
| GraspAbilityData.DefaultRecord | Source/Grasp/Public/GraspAbilityData.h:18-39 | A default record is not persistent, has an invalid handle and the null ability, and has no claimants and no locks. |
| GraspData.GraspData.AuthNetToleranceAngleScalar | Source/Grasp/Public/GraspData.h:122 | The angle scalar is at least 1 for a non-negative percentage, and is exactly 1 iff the percentage is 0. |
| GraspData.GraspData.AuthNetToleranceDistanceScalar | Source/Grasp/Public/GraspData.h:128 | The distance scalar is at least 1 for a non-negative percentage, and is exactly 1 iff the percentage is 0. |
| GraspData.DefaultGraspData | Source/Grasp/Public/GraspData.h:24-38 | The defaults: angle 360, distance 200, highlight 400, heights 30, grant distance 0.7, tolerances 10% (scalars 1.1), flags off, within the editor limits. |
| GraspData.Edited | Source/Grasp/Private/GraspData.cpp:18-29 | Only an edit of either distance changes the data, and only the highlight distance. It becomes 0 iff it was nearly zero (or both were non-positive and the grasp distance was 0); otherwise it becomes the larger of itself and the grasp distance. |
| GraspData.IsDataValid | Source/Grasp/Private/GraspData.cpp:33-51 | A nearly-zero angle is reported first. An enabled highlight distance below the grasp distance is reported next. Either makes the asset invalid, and without either the base verdict stands. |
| GraspData.DefaultDataIsValid | Source/Grasp/Public/GraspData.h:27-29 | The default data raises neither validation error. |
| GraspData.EditSatisfiesHighlightRule | Source/Grasp/Private/GraspData.cpp:21-29 | After any edit of either distance, validation never reports a highlight distance below the grasp distance. |
| GraspData.EditIsIdempotent | Source/Grasp/Private/GraspData.cpp:18-29 | Within the editor limits, a second identical edit changes nothing. |
| GraspData.EditNotIdempotentOutsideLimits | Source/Grasp/Private/GraspData.cpp:21-28 | Outside the limits (a negative highlight distance), a second edit can still move the value. |
| GraspData.GraspDataAsset.constructor | Source/Grasp/Public/GraspData.h:24-38 | A new asset holds the default data. |
| GraspData.GraspDataAsset.PostEditChangeProperty | Source/Grasp/Private/GraspData.cpp:14-31 | The asset's data becomes the edited data. |
| GraspStatics.IsWithinInteractDistance | Source/Grasp/Private/GraspStatics.cpp:403-411 | In 2D the gate is the 3D squared-distance test with the target lifted to the source's height. A pass at limit 0 means the points coincide in the plane. |
| GraspStatics.IsInteractableWithinDistance | Source/Grasp/Private/GraspStatics.cpp:413-420 | The same gate with the arguments swapped, 2D by default. |
| GraspStatics.DistanceBoundaryInclusive | Source/Grasp/Private/GraspStatics.cpp:403-411 | A point exactly at the limit passes. |
| GraspStatics.DistanceGateMonotone | Source/Grasp/Private/GraspStatics.cpp:403-411 | Any point no farther than one that passes also passes. |
| GraspStatics.IsInteractableWithinHeight | Source/Grasp/Private/GraspStatics.cpp:451-458 | The gate holds iff -MaxHeightBelow <= dz <= MaxHeightAbove. |
| GraspStatics.HeightGateWidens | Source/Grasp/Private/GraspStatics.cpp:451-458 | Widening either height limit keeps a pass, and the horizontal position plays no part. |
| GraspStatics.IsWithinInteractAngle | Source/Grasp/Private/GraspStatics.cpp:374-384 | For a lawful engine, 360 degrees always passes, and so does 180 with the half-circle option. Negative degrees never pass. |
| GraspStatics.IsInteractableWithinAngle | Source/Grasp/Private/GraspStatics.cpp:386-391 | The interactable-side angle gate is 2D on half the degrees, and 360 degrees always passes. |
| GraspStatics.AngleGateWidens | Source/Grasp/Private/GraspStatics.cpp:374-384 | A wider angle keeps a pass. |
| GraspStatics.CanInteractWithinAngleAndDistance | Source/Grasp/Private/GraspStatics.cpp:432-449 | A pass needs a valid interactor and the 2D distance gate. At 360 degrees the result is exactly the distance gate. |
| GraspStatics.EffectiveLimits | Source/Grasp/Private/GraspStatics.cpp:504-517 | Every threshold is scaled by its tolerance scalar exactly when the interactor has authority and is not standalone. |
| GraspStatics.ToleranceNeverStricter | Source/Grasp/Public/GraspData.h:108-128 | Within the editor limits, every scaled threshold is at least the local one. |
| GraspStatics.ClampedRatio | Source/Grasp/Private/GraspStatics.cpp:525-526 | Clamp(a/b, 0, 1) is always in [0, 1]. It is a/b when 0 <= a <= b, and 1 at or beyond the limit. |
| GraspStatics.CanInteractWith | Source/Grasp/Private/GraspStatics.cpp:473-556 | An invalid interactor, a missing component or missing data gives None with zeros. Interact holds iff the distance, angle and height gates all pass. Highlight holds iff the interactor is outside the grasp distance but within an enabled highlight distance. All three outputs are in [0, 1]. A Highlight leaves the angle and distance outputs at 0, and anything else leaves the highlight output at 0. The highlight output is the clamped ratio of the 2D distance to the highlight limit. Within grasp range, the distance output is the clamped ratio of the (2D or 3D) grasp distance to the distance limit, and the angle output is the clamped ratio of the 2D distance to the angle limit when the angle gate passes, and 0 when it does not. |
| GraspStatics.DefaultDataInteractsAt150 | Source/Grasp/Private/GraspStatics.cpp:536-555 | With the default data and no authority, distance 150 gives Interact at normalised distance 0.75. |
| GraspStatics.DefaultDataHighlightsAt300 | Source/Grasp/Private/GraspStatics.cpp:520-530 | With the default data, distance 300 gives Highlight at normalised highlight distance 0.75. |
| GraspStatics.DefaultDataIgnoresAt500 | Source/Grasp/Private/GraspStatics.cpp:520-533 | With the default data, distance 500 gives None. |
| GraspStatics.AuthorityNeverStricter | Source/Grasp/Private/GraspStatics.cpp:504-555 | Whatever a local query lets through for interaction, a networked authority's query lets through too. |
| GraspStatics.FartherCandidatesRejected | Source/Grasp/Private/GraspStatics.cpp:528-533 | Once a candidate is out of both ranges, every candidate at least as far away (2D) gives None. |
| GraspStatics.PrepareGraspAbilityDataPayload | Source/Grasp/Private/GraspStatics.cpp:31-51 | The payload is reset first. The method fails for Custom, and for Automatic without target data. Otherwise the payload holds the graspable and all target data in order. |
| GraspStatics.FindGraspComponentForActor | Source/Grasp/Private/GraspStatics.cpp:244-285 | An invalid actor or a simulated proxy gives nothing. A controller, a pawn's controller or a player state's owning controller gives its grasp component. Anything else gives nothing. |
| GraspFilters.FilterByQueryResult | Source/Grasp/Private/Filtering/GraspFilter_IsWithinGraspableData.cpp:36-49 | Interact is kept, Highlight is kept iff the threshold is Highlight, and None is dropped. |
| GraspFilters.HighlightThresholdKeepsMore | Source/Grasp/Private/Filtering/GraspFilter_IsWithinGraspableData.cpp:39-44 | A Highlight threshold keeps everything an Interact threshold keeps, plus exactly the highlighted targets. |
| GraspFilters.IsWithinGraspableDataShouldFilter | Source/Grasp/Private/Filtering/GraspFilter_IsWithinGraspableData.cpp:16-50 | A missing or invalid source is dropped; otherwise the query result decides under the threshold. |
| GraspFilters.IsWithinGraspableRangeShouldFilter | Source/Grasp/Private/Filtering/GraspFilter_IsWithinGraspableRange.cpp:16-52 | Like the data filter, but over the range query's result. |
| GraspFilters.GraspableShouldFilter | Source/Grasp/Private/Filtering/GraspFilter_Graspable.cpp:15-56 | A target is kept iff it is viable: a valid, live, not torn-off actor whose graspable has data and is not dead. |
| GraspFilters.GraspFilterShouldFilter | Source/Grasp/Private/Filtering/GraspFilter.cpp:15-56 | Every target is dropped. |
| GraspFilters.BaseFilterDiffersOnViable | Source/Grasp/Private/Filtering/GraspFilter.cpp:55 | The base filter and the graspable filter disagree exactly on the viable targets. |
| GraspFilters.InterfaceShouldFilter | Source/Grasp/Private/Filtering/GraspFilter_Interface.cpp:15-47 | Every target is dropped, whichever guard fires. |
| GraspTargetSelection.AbilityRadius | Source/Grasp/Private/Targeting/GraspTargetSelection.cpp:87-103 | Box and cylinder give the mean of the X and Y half extents (lying between them). Sphere gives the radius. Capsule gives the mean of radius and half height. |
| GraspTargetSelection.ChooseOverlapQuery | Source/Grasp/Private/Targeting/GraspTargetSelection.cpp:172-190 | The choice is object types iff any are listed, else a profile iff the name is not NoCollision, else the channel. Each query carries its own setting. |
| GraspTargetSelection.GraspTargetSelection.constructor | Source/Grasp/Private/Targeting/GraspTargetSelection.cpp:38-60 | The defaults: one object type, the visibility channel, box (1000, 750, 250), radius 300, half height 500, ability radius 875. |
| GraspTargetSelection.GraspTargetSelection.UpdateGraspAbilityRadius | Source/Grasp/Private/Targeting/GraspTargetSelection.cpp:87-103 | The stored ability radius becomes AbilityRadius of the current shape. |
| GraspTargetSelection.GraspTargetSelection.GetCollisionShape | Source/Grasp/Private/Targeting/GraspTargetSelection.cpp:348-361 | A cylinder is queried as its box, and every other shape as itself. |
| GraspTargetSelection.GraspTargetSelection.OverlapQueryKind | Source/Grasp/Private/Targeting/GraspTargetSelection.cpp:221-239 | The asynchronous trace makes the same query choice as the immediate one. |
| GraspTargetSelection.GraspTargetSelection.ResultFor | Source/Grasp/Private/Targeting/GraspTargetSelection.cpp:323-336 | An appended result keeps the overlap's actor and component, with trace start = source location and distance = ability radius. |
| GraspTargetSelection.GraspTargetSelection.ProcessOverlapResults | Source/Grasp/Private/Targeting/GraspTargetSelection.cpp:272-346 | The results become exactly `Processed`, the fold that appends an admitted overlap's result iff no result yet holds its actor. The count equals the number of appended results. |
| GraspTargetSelection.ProcessedExtends | Source/Grasp/Private/Targeting/GraspTargetSelection.cpp:272-346 | The earlier results are a prefix of the processed ones, and no overlaps leave them unchanged. |
| GraspTargetSelection.ProcessedFromFirstAdmitted | Source/Grasp/Private/Targeting/GraspTargetSelection.cpp:309-336 | Every appended result is the result of the first admitted overlap with its actor. |
| GraspTargetSelection.ProcessedDistinct | Source/Grasp/Private/Targeting/GraspTargetSelection.cpp:309-317 | No two appended results, and no appended and earlier result, share an actor. |
| GraspTargetSelection.ProcessedCovers | Source/Grasp/Private/Targeting/GraspTargetSelection.cpp:309-321 | Every admitted overlap's actor has a result. |
| GraspTargetSelection.ProcessedKeepsFirst | Source/Grasp/Private/Targeting/GraspTargetSelection.cpp:309-336 | The first admitted overlap of an actor with no earlier result is the one whose result is appended, so later duplicates never replace it. |
| GraspTargetSelection.IndexOfActor | Source/Grasp/Private/Targeting/GraspTargetSelection.cpp:309-317 | Returns the first position holding the actor, or -1 when there is none. |
| GraspTargetSelection.AbilityRadiusMatchesShape | Source/Grasp/Private/Targeting/GraspTargetSelection.cpp:90-102 | The ability radius is the mean horizontal extent of the very shape the overlap uses. |
| GraspAbilitySystem.Give | Source/Grasp/Private/GraspComponent.cpp:349-353 | A handle is valid iff the class is granted. A valid handle is fresh and maps to the class; a refused grant changes nothing. |
| GraspAbilitySystem.Clear | Source/Grasp/Private/GraspComponent.cpp:285 | Clearing a valid handle removes exactly its spec; an invalid handle changes nothing. |
| GraspAbilitySystem.ClearUndoesGive | Source/Grasp/Private/GraspComponent.cpp:285 | Clearing the handle just given restores the active specs. |
| GraspAbilitySystem.GiveIssuesDistinctHandles | Source/Grasp/Private/GraspComponent.cpp:350 | Giving keeps every active spec, and two successive grants get different handles. |
| GraspAbilitySystem.AbilitySystemComponent.GiveAbility | Source/Grasp/Private/GraspComponent.cpp:350 | The in-place component follows Give. |
| GraspAbilitySystem.AbilitySystemComponent.ClearAbility | Source/Grasp/Private/GraspComponent.cpp:285 | The in-place component follows Clear. |
| GraspLedger.DataOf | Source/Grasp/Private/GraspComponent.cpp:218-229 | A graspable has data iff its weak reference resolves and the component has data. |
| GraspLedger.RevokeStep | Source/Grasp/Private/GraspComponent.cpp:209-289 | A still-present, unresolvable, data-less, ability-less, missing, persistent, cleared or unclaimed result changes nothing. Otherwise its graspable and the dead claimants leave the record. When no claimant is left the ability is cleared and the record erased; otherwise the handle stays. Other records are untouched. |
| GraspLedger.GrantStep | Source/Grasp/Private/GraspComponent.cpp:292-362 | A result with data always leaves a record for its ability. Persistent and already-granted records are untouched. The system is asked only within the grant distance; a valid handle stores handle and class and appends exactly that graspable, and a refused grant leaves the record as found. |
| GraspLedger.RevokePassKeepsPersistent | Source/Grasp/Private/GraspComponent.cpp:250-253 | The revoke pass leaves every persistent record as it was. |
| GraspLedger.GrantPassKeepsPersistent | Source/Grasp/Private/GraspComponent.cpp:324-327 | The grant pass leaves every persistent record as it was. |
| GraspLedger.PersistentRecordsSurvive | Source/Grasp/Private/GraspComponent.cpp:250-253 | Revoke then grant keeps every persistent record. |
| GraspLedger.ConsistentHandlesDistinct | Source/Grasp/Private/GraspComponent.cpp:353-357 | In a consistent ledger, no two records share a valid handle. |
| GraspLedger.RevokeStepConsistent | Source/Grasp/Private/GraspComponent.cpp:278-287 | A revoke step keeps every granted record backed by a live spec of its own class. |
| GraspLedger.GrantStepConsistent | Source/Grasp/Private/GraspComponent.cpp:348-361 | A grant step keeps the ledger consistent. |
| GraspLedger.RevokePassConsistent | Source/Grasp/Private/GraspComponent.cpp:209-289 | The revoke pass keeps the ledger consistent. |
| GraspLedger.GrantPassConsistent | Source/Grasp/Private/GraspComponent.cpp:292-362 | The grant pass keeps the ledger consistent. |
| GraspLedger.ReconcileConsistent | Source/Grasp/Private/GraspComponent.cpp:195-363 | GraspTargetsReady keeps the ledger consistent with the ability system. |
| GraspLedger.ExclusiveOneSpecPerClass | Source/Grasp/Private/GraspComponent.cpp:329-357 | In an exclusive ledger (every active spec of a recorded class is its record's handle, and no class the scene asks for is granted outside the ledger), such a class has at most one active spec. |
| GraspLedger.RevokeStepExclusive | Source/Grasp/Private/GraspComponent.cpp:278-287 | A revoke step keeps the ledger exclusive: an erased record's only spec is the one it clears. |
| GraspLedger.GrantStepExclusive | Source/Grasp/Private/GraspComponent.cpp:329-357 | A grant step keeps the ledger exclusive: a class is given only when its record holds no handle. |
| GraspLedger.RevokePassExclusive | Source/Grasp/Private/GraspComponent.cpp:209-289 | The revoke pass keeps the ledger exclusive. |
| GraspLedger.GrantPassExclusive | Source/Grasp/Private/GraspComponent.cpp:292-362 | The grant pass keeps the ledger exclusive. |
| GraspLedger.ReconcileExclusive | Source/Grasp/Private/GraspComponent.cpp:195-363 | GraspTargetsReady never leaves two specs of one class, nor a spec of a scene class without a record. |
| GraspLedger.RevokePassRetainsClaimed | Source/Grasp/Private/GraspComponent.cpp:209-289 | A granted record keeps its handle, and a live claimant stays a claimant, through the revoke pass while that claimant is among the new results. |
| GraspLedger.GrantPassKeepsGranted | Source/Grasp/Private/GraspComponent.cpp:324-333 | The grant pass leaves a record that holds a valid handle exactly as it was. |
| GraspLedger.ReconcileRetainsClaimed | Source/Grasp/Private/GraspComponent.cpp:195-363 | Once granted, an ability keeps its handle through a reconciliation at any distance, while one of its live claimants is still a result. Retention follows the claimants, not every graspable of the class. |
| GraspLedger.RevokePassOfRetainedIsIdentity | Source/Grasp/Private/GraspComponent.cpp:211-215 | When every previous result is still present, the revoke pass changes nothing. |
| GraspLedger.SettledStepIsIdentity | Source/Grasp/Private/GraspComponent.cpp:320-342 | A grant step for a result that is already settled changes nothing. |
| GraspLedger.GrantStepSettles | Source/Grasp/Private/GraspComponent.cpp:320-361 | A grant step settles its own result and keeps other results settled. |
| GraspLedger.GrantPassSettles | Source/Grasp/Private/GraspComponent.cpp:292-362 | After a grant pass, all its results are settled. |
| GraspLedger.GrantPassOfSettledIsIdentity | Source/Grasp/Private/GraspComponent.cpp:292-362 | A grant pass over settled results changes nothing. |
| GraspLedger.ReconcileIdempotent | Source/Grasp/Private/GraspComponent.cpp:195-363 | Delivering the same results again, in an unchanged world, leaves the ledger as the first delivery did. |
| GraspLedger.CloseGraspableIsGranted | Source/Grasp/Private/GraspComponent.cpp:336-361 | With the default data, normalised distance 0.65 grants the ability, with that graspable as its only claimant. |
| GraspLedger.DistantGraspableIsNotGranted | Source/Grasp/Private/GraspComponent.cpp:321-342 | At 0.8 nothing is granted, but an empty record is left. |
| GraspLedger.GrantedOnApproachThenKept | Source/Grasp/Private/GraspComponent.cpp:209-362 | Three cycles of one graspable with grant distance 0.7. At 0.8 nothing is granted and an empty record is left. At 0.65 the ability is granted from that record. Back at 0.8 the ledger is unchanged, so the grant is kept. |
| GraspLedger.DepartingLastClaimantClearsAbility | Source/Grasp/Private/GraspComponent.cpp:262-287 | When the only claimant leaves, the ability is cleared and its record erased. |
| GraspLedger.GrantedAbilityGainsNoClaimant | Source/Grasp/Private/GraspComponent.cpp:329-333 | A second graspable needing an already-granted ability adds no claimant and causes no second grant. |
| GraspLedger.PreGrantStep | Source/Grasp/Private/GraspComponent.cpp:57-72 | A granted common ability's record becomes persistent with a fresh valid handle. A refused one changes nothing, and other records are untouched. |
| GraspLedger.PreGrantKeepsRefused | Source/Grasp/Private/GraspComponent.cpp:57-72 | Pre-granting never changes which classes are refused. |
| GraspLedger.PreGrantMakesPersistent | Source/Grasp/Private/GraspComponent.cpp:57-72 | Every common ability the system grants ends up persistent with a valid handle. |
| GraspLedger.PreGrantConsistent | Source/Grasp/Private/GraspComponent.cpp:57-72 | Pre-granting keeps the ledger consistent. |
| GraspLedger.PreGrantStepExclusiveWhenFresh | Source/Grasp/Private/GraspComponent.cpp:57-72 | On a first initialization, where the record holds no handle and no spec of the class is active, a pre-grant keeps the ledger exclusive. |
| GraspLedger.SecondPreGrantOrphansSpec | Source/Grasp/Private/GraspComponent.cpp:57-68 | Pre-granting the same common ability twice leaves two active specs of it while the record holds only the second handle, so the ledger is exclusive in no scene. |
| GraspLedger.PreGrantStepCorrected | Source/Grasp/Private/GraspComponent.cpp:57-72 | A granted common ability's record becomes persistent with a valid handle, and the record's previous spec is gone. Other records are untouched. |
| GraspLedger.PreGrantStepCorrectedExclusive | Source/Grasp/Private/GraspComponent.cpp:57-72 | The corrected step keeps the ledger exclusive, however often it runs, and grants no class outside the ledger. |
| GraspLedger.PreGrantCorrectedExclusive | Source/Grasp/Private/GraspComponent.cpp:57-72 | Pre-granting a list of common abilities with the corrected step keeps the ledger exclusive. |
| GraspLedger.RegrantScan | Source/Grasp/Private/GraspComponent.cpp:75-85 | The scan handle is valid iff the scan ability is granted. The previous scan spec is gone unless re-issued, and no other spec changes. |
| GraspLedger.ClearedRecord | Source/Grasp/Private/GraspComponent.cpp:430-436 | A covered record loses its handle and class. An uncovered one is unchanged, and the persistence and claimants are kept. |
| GraspLedger.ClearAll | Source/Grasp/Private/GraspComponent.cpp:426-437 | Every record stays and becomes its cleared form. Exactly the covered valid handles are withdrawn, and no other spec changes. |
| GraspLedger.ClearAllConsistent | Source/Grasp/Private/GraspComponent.cpp:426-437 | A clear-all keeps the ledger consistent. |
| GraspLedger.ClearAllExclusive | Source/Grasp/Private/GraspComponent.cpp:426-437 | A clear-all keeps the ledger exclusive: a record that loses its handle loses its only spec. |
| GraspComponentModel.TargetingSubsystem.constructor | Source/Grasp/Private/GraspScanTask.cpp:258 | A subsystem starts with no running request. |
| GraspComponentModel.TargetingSubsystem.MakeTargetRequestHandle | Source/Grasp/Private/GraspScanTask.cpp:324 | Each handle is new. |
| GraspComponentModel.TargetingSubsystem.StartAsyncTargetingRequestWithHandle | Source/Grasp/Private/GraspScanTask.cpp:331-332 | The request is running. |
| GraspComponentModel.TargetingSubsystem.RemoveAsyncTargetingRequestWithHandle | Source/Grasp/Private/GraspComponent.cpp:395 | The request no longer runs. |
| GraspComponentModel.RequestsAfterEnd | Source/Grasp/Private/GraspComponent.cpp:389-410 | Exactly the entries whose tag matches (all of them for the empty tag) are gone, and the others keep their handles. |
| GraspComponentModel.RequestsAfterDropping | Source/Grasp/Private/GraspComponent.cpp:186-192 | Ending every dropped tag removes exactly those tags (everything if the empty tag is dropped), and keeps the rest. |
| GraspComponentModel.GraspComponent.constructor | Source/Grasp/Public/GraspComponent.h:43-113 | The defaults: presets {Interact: null}, source Pawn, all update flags false, last scan time -1, max scan rate 0, nothing cached or granted. |
| GraspComponentModel.GraspComponent.GetASC | Source/Grasp/Public/GraspComponent.h:116-117 | The result is null exactly when the weak reference no longer resolves; otherwise it is the cached component. |
| GraspComponentModel.GraspComponent.GetTargetingSource | Source/Grasp/Private/GraspComponent.cpp:102-120 | Pawn gives the controller's pawn. PawnIfValid gives the pawn or else the controller. Controller gives the controller. The result is null iff there is no controller, or the mode is Pawn and no pawn is possessed. |
| GraspComponentModel.GraspComponent.InitializeGrasp | Source/Grasp/Private/GraspComponent.cpp:31-100 | An invalid owner changes nothing. An invalid ability system stops after caching it. On authority the common abilities are pre-granted, and the scan ability is re-granted. The presets are taken iff the scan handle is valid. The controller is cached only with a valid ability system, and the pawn-change flag is synced only on the authority path. |
| GraspComponentModel.GraspComponent.GrantCommonAbilities | Source/Grasp/Private/GraspComponent.cpp:57-72 | The loop produces exactly PreGrant of the common abilities. |
| GraspComponentModel.GraspComponent.PreGrantOne | Source/Grasp/Private/GraspComponent.cpp:59-71 | One pre-grant iteration is PreGrantStep: a granted common ability's record is made persistent with the new handle. |
| GraspComponentModel.GraspComponent.ReplaceScanAbility | Source/Grasp/Private/GraspComponent.cpp:75-85 | The scan handle and the ability system become exactly RegrantScan of the previous handle and the scan ability. |
| GraspComponentModel.GraspComponent.GraspTargetsReady | Source/Grasp/Private/GraspComponent.cpp:195-363 | Without valid data nothing changes, including the current results. Otherwise the results are stored, and the ledger becomes Reconcile (the revoke pass over the previous results, then the grant pass over the new ones). |
| GraspComponentModel.GraspComponent.RevokeAll | Source/Grasp/Private/GraspComponent.cpp:209-289 | The revoke loop produces exactly RevokePass of the previous results against the current ones. |
| GraspComponentModel.GraspComponent.GrantAll | Source/Grasp/Private/GraspComponent.cpp:292-362 | The grant loop produces exactly GrantPass of the new results. |
| GraspComponentModel.GraspComponent.RevokeFor | Source/Grasp/Private/GraspComponent.cpp:211-288 | One revoke iteration is RevokeStep. |
| GraspComponentModel.GraspComponent.GrantFor | Source/Grasp/Private/GraspComponent.cpp:294-361 | One grant iteration is GrantStep. |
| GraspComponentModel.GraspComponent.EndTargetingRequests | Source/Grasp/Private/GraspComponent.cpp:376-419 | With a world and a subsystem, exactly the matching requests are removed from the map and stopped; otherwise the map is unchanged. OnRequestGrasp fires iff there is a world, notification is asked for, a task is bound and no request is left. |
| GraspComponentModel.GraspComponent.RemoveMatchingRequests | Source/Grasp/Private/GraspComponent.cpp:388-397 | The collected tags are exactly the matching ones, and exactly their requests stop. |
| GraspComponentModel.GraspComponent.ForgetRequests | Source/Grasp/Private/GraspComponent.cpp:399-410 | Emptying the map, or removing tag by tag, leaves exactly the tags not collected. |
| GraspComponentModel.GraspComponent.EndAllTargetingRequests | Source/Grasp/Public/GraspComponent.h:254-257 | Ending under the empty tag clears the map (given a world and a subsystem) and stops every held request. |
| GraspComponentModel.GraspComponent.UpdateTargetingPresets | Source/Grasp/Private/GraspComponent.cpp:178-193 | The presets are refreshed and the requests of every dropped tag are ended. The running requests lose exactly the handles the dropped tags held (given a world). The notification fired iff some tag was dropped and no request is left. No new request is started. |
| GraspComponentModel.GraspComponent.PauseGrasp | Source/Grasp/Private/GraspComponent.cpp:365-374 | Pausing with the option set ends every request without notification, and the running requests lose exactly the handles the map held (given a world); otherwise they are unchanged. OnPauseGrasp fires iff a task is bound. |
| GraspComponentModel.GraspComponent.ClearRecordAt | Source/Grasp/Private/GraspComponent.cpp:428-436 | One iteration resets the record and withdraws its handle when the clear-all covers it. It needs the ability system only for a record it covers. |
| GraspComponentModel.GraspComponent.ClearRecords | Source/Grasp/Private/GraspComponent.cpp:426-437 | The loop produces exactly ClearAll of the ledger. Without an ability system (allowed only when no record is covered) the records are unchanged. |
| GraspComponentModel.GraspComponent.ClearAllGrantedGameplayAbilities | Source/Grasp/Private/GraspComponent.cpp:421-453 | The ledger becomes ClearAll. The scan ability is cleared and its handle reset iff asked. The record map keeps its keys. Without an ability system the call is accepted when it has nothing to clear (no covered record and no valid scan handle to clear), and it then changes no record; any other call dereferences the missing ability system. |
| GraspComponentModel.PersistentRecordsSurviveScans | Source/Grasp/Private/GraspComponent.cpp:250-253 | No reconciliation on a component disturbs a persistent record it holds. |
| GraspScanTaskModel.ThrottleWait | Source/Grasp/Private/GraspScanTask.cpp:227-246 | A throttle wait happens iff MaxRate > 0 and TimeSince < MaxRate. It is positive and lasts exactly until the last scan time plus MaxRate. |
| GraspScanTaskModel.ThrottleSpacesScans | Source/Grasp/Private/GraspScanTask.cpp:227-246 | A request inside the window waits exactly to its end, and the request at its end is let through. |
| GraspScanTaskModel.ScanResultsOf | Source/Grasp/Private/GraspScanTask.cpp:417-440 | At most one result per hit, each carrying the completion's tag and a graspable. |
| GraspScanTaskModel.ScanResultsMatchHits | Source/Grasp/Private/GraspScanTask.cpp:421-439 | Every hit with a component yields its result, and every result comes from such a hit. |
| GraspScanTaskModel.HitDistance | Source/Grasp/Private/GraspScanTask.cpp:432-434 | The recomputed distance, 2D iff the data asks for it, is never negative. |
| GraspScanTaskModel.GrantThresholdIsDistanceBound | Source/Grasp/Private/GraspScanTask.cpp:431-435 | With a positive radius, a result passes the grant threshold iff its distance is at most the threshold times the radius. |
| GraspScanTaskModel.ZeroRadiusThreshold | Source/Grasp/Private/GraspScanTask.cpp:435 | With a zero radius, a hit away from the trace start never passes (+inf), and one at the start passes (NaN). |
| GraspScanTaskModel.BuildScanResults | Source/Grasp/Private/GraspScanTask.cpp:417-440 | The hit loop produces exactly ScanResultsOf. |
| GraspScanTaskModel.GraspScanTask.GraspScan | Source/Grasp/Private/GraspScanTask.cpp:57-82 | The new task holds both delays, has no component and no armed timer. |
| GraspScanTaskModel.GraspScanTask.WaitForGrasp | Source/Grasp/Private/GraspScanTask.cpp:94-110 | Without a world no timer is set; otherwise the wait timer is armed with exactly the delay. |
| GraspScanTaskModel.GraspScanTask.CacheGraspComponent | Source/Grasp/Private/GraspScanTask.cpp:133-216 | No controller: wait Delay. A controller without a component: no timer and nothing cached, so the task stops for good. Otherwise the component is cached and both delegates are bound; nothing else changes. |
| GraspScanTaskModel.GraspScanTask.RequestGrasp | Source/Grasp/Private/GraspScanTask.cpp:112-369 | After caching, the state moves as Scanned prescribes. Throttled: only the timer changes. A bad world, game instance, subsystem or source: wait Delay. Otherwise the presets are refreshed (if configured), every startable preset gets a fresh running request, and the task waits Delay iff none started. The running requests become exactly the earlier ones, less the handles of dropped tags when the presets are refreshed, plus the new handles. The ledger is untouched. |
| GraspScanTaskModel.GraspScanTask.RunScan | Source/Grasp/Private/GraspScanTask.cpp:218-274 | The part after caching satisfies Scanned. |
| GraspScanTaskModel.GraspScanTask.ScanOrWait | Source/Grasp/Private/GraspScanTask.cpp:248-351 | Without a world, game instance, subsystem or targeting source the task waits Delay and nothing else changes; otherwise the scan proper runs. |
| GraspScanTaskModel.GraspScanTask.StartScan | Source/Grasp/Private/GraspScanTask.cpp:276-351 | The mode flag is synced. With an update, the dropped tags' requests end first. Then each startable tag holds a fresh handle issued by this call, and the others keep theirs. The running requests are exactly the earlier ones less the dropped tags' handles, plus the new handles. |
| GraspScanTaskModel.GraspScanTask.StartOrWait | Source/Grasp/Private/GraspScanTask.cpp:303-351 | No presets, or none startable: wait Delay. Otherwise the started requests run and the timer is untouched. |
| GraspScanTaskModel.GraspScanTask.StartRequests | Source/Grasp/Private/GraspScanTask.cpp:311-340 | Null and empty presets are skipped. Every other tag gets a distinct fresh handle that is running. The result flag is set iff something started. |
| GraspScanTaskModel.GraspScanTask.StartRequest | Source/Grasp/Private/GraspScanTask.cpp:323-332 | The tag's entry becomes the new handle (FindOrAdd overwrites), and that handle's request runs. |
| GraspScanTaskModel.GraspScanTask.OnGraspComplete | Source/Grasp/Private/GraspScanTask.cpp:371-475 | No component: wait. No world or game instance: wait, with nothing else changed. No subsystem: end all (firing OnRequestGrasp if none is left), then wait. Otherwise see DeliverResults. |
| GraspScanTaskModel.GraspScanTask.DeliverResults | Source/Grasp/Private/GraspScanTask.cpp:410-474 | A valid handle drops its tag, and that completion's results alone reach GraspTargetsReady. The next scan is requested iff no request is left, from the state after the drop. The failsafe timer is armed. |
| GraspScanTaskModel.GraspScanTask.ConsumeCompletion | Source/Grasp/Private/GraspScanTask.cpp:410-454 | The tag leaves the map iff the handle is valid. With valid data, the ledger becomes Reconcile with exactly this completion's results. |
| GraspScanTaskModel.GraspScanTask.RequestIfDone | Source/Grasp/Private/GraspScanTask.cpp:456-461 | RequestGrasp runs, as Scanned, iff no request is left; otherwise nothing changes. The ledger is never touched. |
| GraspScanTaskModel.GraspScanTask.OnRequestGrasp | Source/Grasp/Private/GraspScanTask.cpp:498-513 | RequestGrasp runs iff there is a world and no wait is scheduled; otherwise nothing changes. |
| GraspScanTaskModel.GraspScanTask.OnPauseGrasp | Source/Grasp/Private/GraspScanTask.cpp:477-496 | Pausing clears the wait timer (given a world) and changes nothing else. Unpausing requests at once. |
| GraspScanTaskModel.GraspScanTask.OnWaitTimer | Source/Grasp/Private/GraspScanTask.cpp:109 | When the wait timer fires it becomes idle, and RequestGrasp runs from that state. |
| GraspScanTaskModel.GraspScanTask.OnDestroy | Source/Grasp/Private/GraspScanTask.cpp:515-537 | With a world, the wait timer (bound to the task, line 109) is cleared and both delegates are unbound. The failsafe timer, set with a lambda at line 474, stays as it was. No request or ledger state changes. |
| GraspScanTaskModel.GraspScanTask.Unbind | Source/Grasp/Private/GraspScanTask.cpp:523-533 | Both delegates end up unbound, and no request or ledger state changes. |
| GraspScanTaskModel.GraspScanTask.FailsafeOutlivesDestroy | Source/Grasp/Private/GraspScanTask.cpp:464-474 | A task destroyed with its failsafe armed and a request outstanding still has the failsafe armed, and when it fires RequestGrasp runs once for the destroyed task. |
| GraspScanTaskModel.GraspScanTask.OnDestroyCorrected | Source/Grasp/Private/GraspScanTask.cpp:515-537 | With a world, both timers are cleared and both delegates unbound; no request or ledger state changes. |
| GraspScanTaskModel.GraspScanTask.OnFailsafeTimer | Source/Grasp/Private/GraspScanTask.cpp:465-474 | With no request outstanding nothing happens. Otherwise all requests end with notification and RequestGrasp runs. When the task is bound and not waiting, it runs twice: two successive Scanned steps from the emptied state. |
| GraspScanTaskModel.GraspScanTask.RequestAfterEnding | Source/Grasp/Private/GraspScanTask.cpp:470-473 | RequestGrasp runs twice (two Scanned steps) when the notification fired with a world and no wait scheduled, and once otherwise. |
| GraspScanTaskModel.BackToBackScansOrphanARequest | Source/Grasp/Private/GraspScanTask.cpp:323-332 | Two unthrottled scans in a row from an empty request map leave a running request that no tag holds. |
| GraspScanTaskModel.GraspScanTask.OnFailsafeTimerCorrected | Source/Grasp/Private/GraspScanTask.cpp:465-474 | Ending without notification runs RequestGrasp exactly once, from the emptied state. If every running request was held before, every running request is still held after. |
| GraspScanTaskModel.ScanFromNothingTracksEveryRequest | Source/Grasp/Private/GraspScanTask.cpp:311-332 | A scan from an empty request map with no running request leaves every running request held under some tag. |

Helper lemmas carry no row of their own: `GraspComponentModel.EndOneMoreDropped`, `DroppingOneMore`, `DroppedHandlesOneMore`, `SubsetOfSameSize`, `PartlyClearedStep` and `PartlyClearedAll` carry the loop invariants of `UpdateTargetingPresets` and `ClearRecords`. `GraspTargetSelection.ProcessedNewActor`, `FirstAdmittedInPrefix`, `FromFirstAdmittedInPrefix` and `NoEarlierResultForFirst` carry the prefix steps of the `Processed` lemmas. `GraspLedger.DataAbilityInScene` serves `GrantStepExclusive`. `GraspStatics.ProductZero` serves `SqrtOfSquare`.

## Left out

- Ability locks (`AddAbilityLock`, `RemoveAbilityLock`, `ClearGrantedGameplayAbility`) and `bManualClearAbility` are left out. They are only declared in the header, and the reconciliation never reads them; the record still carries the lock list.
- The extension points are not modelled: `PostGiveGraspAbility`, `PreClearGraspAbility` and the activation hooks. They are calls into code that is not part of this model.
- Ability activation (`TryActivateGraspAbility`, `CanGraspActivateAbility`, the can-activate filter) is left out. It is a thin wrapper over ability system calls.
- `CanInteractWithRange` is not part of this model, and neither are the angle and height filters. The range filter takes the range query's result as an input.
- Logging, CPU traces, debug drawing, console variables, role strings, the `WaitReason` bookkeeping and the editor-time radius refresh are left out. They have no effect on the modelled state.
- `OnPawnChanged` and `UpdatePawnChangedBinding` are left out: they rebind an engine delegate. The scan task's sync of the last pawn-change flag is modelled.
- Overrides of the `GetTargetingPresets`, `GetTargetingSource` and `GetMaxGraspScanRate` events are modelled as the default implementations, and the scan rate is a field.
- The gameplay tag's string form and the concrete engine tag values are left out; tags are opaque.
- The ability system component is a deterministic handle counter with a refused set. Whatever else decides a real grant is left out.
- Re-entrant dispatch is only partly modelled. When `UpdateTargetingPresets`, called inside `RequestGrasp`, fires `OnRequestGrasp`, the nested `RequestGrasp` is not run. `RequestGrasp`'s contract covers the outer call only.
- The timer manager's handling of a non-positive delay (it clears the timer) is not modelled: `WaitForGrasp` always arms with the given delay.
- The targeting subsystem releasing a request on completion (`bReleaseOnCompletion`) is not modelled. A completed request stays among the running ones until it is removed by handle.
- The cached grasp component being destroyed after caching is not modelled; a cached component stays valid.
- `Activate` and `SetWaitingOnAvatar` are left out; `Activate` is a call of `RequestGrasp`. The non-shipping ability checks in `GraspScan` (they only log) are left out too.
- Single-precision rounding is not modelled: values are `real`, except that a division by a zero radius gives +infinity or NaN.
- Asynchronous overlaps and their delivery are left out. A completion is a call of `OnGraspComplete` with the hits of its request.
- The root-motion face-towards task, the graspable component classes, the editor, visualiser and developer-settings modules, and the interact marker are not part of this model.
- GraspStatics.IsWithinInteractAngle: arc cosine and vector normalisation are fields of `EngineMath`. Only their range (acos in [0, pi] and an exact square root) is assumed, through `Lawful()`.
- GraspScanTaskModel.GraspScanTask.RequestGrasp: with a positive MaxRate, the source reads the world's clock (GraspScanTask.cpp:234 and 245) before it checks the world (line 249), so a throttled request without a world dereferences null. The model reads the supplied clock instead: a throttled request without a world arms no timer, and an unthrottled one goes on to the world check. The crash is not modelled.
- GraspScanTaskModel.GraspScanTask.RunScan: the same null world on the throttle path is not modelled. The throttle reads the supplied clock whether or not there is a world.
- GraspLedger.Exclusive: the predicate assumes that the scene's ability classes are granted only through the ledger. Grants made by other code on the same ability system are not modelled.

## Findings

| source | as written | input that shows it | evidently intended | confidence | as-written member | corrected member |
|---|---|---|---|---|---|---|
| Source/Grasp/Private/GraspScanTask.cpp:465-474 | The failsafe ends all requests with the default `bNotifyGrasp = true`, then calls `RequestGrasp()` itself. The notification reaches the bound task's `OnRequestGrasp`, which also runs `RequestGrasp` when no wait is scheduled. The second run's `FindOrAdd(Tag)` overwrites the handles of the requests the first run just started, so those requests keep running with no tag holding them. | A bound task with no wait scheduled and MaxRate 0. One request is outstanding when the failsafe fires, and one startable preset exists. | End the requests without notification and request once, so every running request stays tracked under its tag. | medium, not executed | GraspScanTaskModel.GraspScanTask.OnFailsafeTimer, GraspScanTaskModel.BackToBackScansOrphanARequest | GraspScanTaskModel.GraspScanTask.OnFailsafeTimerCorrected, GraspScanTaskModel.ScanFromNothingTracksEveryRequest |
| Source/Grasp/Private/GraspComponent.cpp:57-68 | Each initialization on authority gives every common ability again and overwrites the record's handle with `FindOrAdd`, without clearing the spec the previous handle named. The scan ability, by contrast, is cleared before it is given again (lines 75-85). | Initializing twice on authority with one common ability that the system grants: two specs of it are active and the record holds only the second handle. | Clear the record's previous handle before giving the ability again, as the scan ability does. | medium, not executed | GraspLedger.PreGrantStep, GraspLedger.SecondPreGrantOrphansSpec | GraspLedger.PreGrantStepCorrected, GraspLedger.PreGrantCorrectedExclusive |
| Source/Grasp/Private/GraspScanTask.cpp:515-521 | `ClearAllTimersForObject(this)` clears only the timers bound to the task. The failsafe timer is set at line 474 with a lambda that captures `this`, so it has no bound object and stays armed. | A task destroyed with a world, its failsafe armed and a request outstanding. When the failsafe fires, it ends the requests and runs `RequestGrasp` on the destroyed task. | Clear the failsafe timer by its handle in `OnDestroy` as well. | low; rests on the engine's timer semantics for lambda delegates, not executed | GraspScanTaskModel.GraspScanTask.OnDestroy, GraspScanTaskModel.GraspScanTask.FailsafeOutlivesDestroy | GraspScanTaskModel.GraspScanTask.OnDestroyCorrected |
