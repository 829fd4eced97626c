/**
 * The targeting filters the scan runs over overlap results. Each answers
 * "should this target be filtered out?"; true drops the target.
 */
module GraspFilters {
  import opened GraspTypes
  import opened GraspStatics

  /**
   * The threshold rule shared by the data and range filters: Interact is kept,
   * Highlight is kept only under a Highlight threshold, None is dropped.
   */
  function FilterByQueryResult(result: EGraspQueryResult, threshold: EGraspQueryResult): (filtered: bool)
    ensures result == Interact ==> !filtered
    ensures result == Highlight ==> (filtered <==> threshold != Highlight)
    ensures result == EGraspQueryResult.None ==> filtered
  {
    match result
    case Highlight => !(threshold == Highlight)
    case Interact => false
    case None => true
  }

  /** A Highlight threshold keeps every target an Interact threshold keeps, and exactly the highlighted ones besides. */
  lemma HighlightThresholdKeepsMore(result: EGraspQueryResult)
    ensures !FilterByQueryResult(result, Interact) ==> !FilterByQueryResult(result, Highlight)
    ensures FilterByQueryResult(result, Interact) != FilterByQueryResult(result, Highlight) <==> result == Highlight
  {
  }

  /** The threshold a data or range filter starts with. */
  const DefaultThreshold: EGraspQueryResult := Interact

  /** The targeting request's source context; its source actor may be missing or invalid. */
  datatype SourceContext = SourceContext(sourceActor: Option<Interactor>)

  /**
   * The data filter: without a valid source actor the target is dropped;
   * otherwise the interaction query between source and target decides.
   */
  function IsWithinGraspableDataShouldFilter(m: EngineMath, context: Option<SourceContext>, target: Option<GraspableView>,
                                             threshold: EGraspQueryResult): (filtered: bool)
    ensures context.None? || context.value.sourceActor.None? ==> filtered
    ensures context.Some? && context.value.sourceActor.Some? ==>
              filtered == FilterByQueryResult(CanInteractWith(m, context.value.sourceActor, target).result, threshold)
    ensures !filtered ==> target.Some? && target.value.data.Some?
    ensures !filtered && threshold != Highlight ==> PassesAllGates(m, context.value.sourceActor.value, target.value)
  {
    if context.None? || context.value.sourceActor.None? then true
    else FilterByQueryResult(CanInteractWith(m, context.value.sourceActor, target).result, threshold)
  }

  /**
   * The range filter: the same threshold rule applied to the range query's
   * verdict, which is supplied (the range query is not part of this model).
   */
  function IsWithinGraspableRangeShouldFilter(context: Option<SourceContext>, rangeResult: EGraspQueryResult,
                                              threshold: EGraspQueryResult): (filtered: bool)
    ensures context.None? || context.value.sourceActor.None? ==> filtered
    ensures !filtered <==> context.Some? && context.value.sourceActor.Some?
                           && (rangeResult == Interact || (rangeResult == Highlight && threshold == Highlight))
  {
    if context.None? || context.value.sourceActor.None? then true
    else FilterByQueryResult(rangeResult, threshold)
  }

  /** What the chain filters read of a target's actor. */
  datatype TargetActor = TargetActor(pendingKill: bool, tornOff: bool, implementsInteractable: bool, interactableDead: bool)

  /** What the chain filters read of a target's graspable component. */
  datatype GraspableState = GraspableState(hasData: bool, dead: bool)

  /** A target as the chain filters see it: a possibly invalid actor and a possibly missing graspable. */
  datatype ChainTarget = ChainTarget(actor: Option<TargetActor>, graspable: Option<GraspableState>)

  /** A live, not torn-off actor whose graspable has data and is not dead. */
  predicate IsViableGraspable(t: ChainTarget)
  {
    t.actor.Some? && !t.actor.value.pendingKill && !t.actor.value.tornOff
    && t.graspable.Some? && t.graspable.value.hasData && !t.graspable.value.dead
  }

  /** The graspable filter: each guard drops the target; one passing them all is kept. */
  function GraspableShouldFilter(t: ChainTarget): (filtered: bool)
    ensures filtered <==> !IsViableGraspable(t)
  {
    if t.actor.None? then true
    else if t.actor.value.pendingKill || t.actor.value.tornOff then true
    else if t.graspable.None? then true
    else if !t.graspable.value.hasData then true
    else if t.graspable.value.dead then true
    else false
  }

  /** The base filter: the same guards, but its fall-through also drops the target, so nothing is kept. */
  function GraspFilterShouldFilter(t: ChainTarget): (filtered: bool)
    ensures filtered
  {
    if t.actor.None? then true
    else if t.actor.value.pendingKill || t.actor.value.tornOff then true
    else if t.graspable.None? then true
    else if !t.graspable.value.hasData then true
    else if t.graspable.value.dead then true
    else true
  }

  /** The base filter and the graspable filter disagree on exactly the viable graspables. */
  lemma BaseFilterDiffersOnViable(t: ChainTarget)
    ensures GraspFilterShouldFilter(t) != GraspableShouldFilter(t) <==> IsViableGraspable(t)
  {
  }

  /** The interface filter: guards on the actor and its interactable interface; its fall-through drops the target too. */
  function InterfaceShouldFilter(t: ChainTarget): (filtered: bool)
    ensures filtered
  {
    if t.actor.None? then true
    else if t.actor.value.pendingKill || t.actor.value.tornOff then true
    else if !t.actor.value.implementsInteractable then true
    else if t.actor.value.interactableDead then true
    else true
  }
}
