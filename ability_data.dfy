/**
 * The ledger entry a grasp component keeps per granted ability: whether it is
 * persistent (granted up front and never revoked by scanning), the handle the
 * ability system issued, the ability class, and the graspables that keep it.
 */
module GraspAbilityData {
  import opened GraspTypes

  datatype AbilityRecord = AbilityRecord(
    persistent: bool,
    handle: SpecHandle,
    ability: AbilityClass,
    /** Graspables holding an ability lock; declared, never read or written by the core. */
    lockedGraspables: seq<ObjRef>,
    /** Graspables in range that need this ability to stay granted. */
    graspables: seq<ObjRef>)

  /** A default-constructed record: not persistent, no handle, no ability, no claimants. */
  function DefaultRecord(): (r: AbilityRecord)
    ensures !r.persistent && !r.handle.IsValid() && r.ability == NoAbility
    ensures |r.graspables| == 0 && |r.lockedGraspables| == 0
  {
    AbilityRecord(false, InvalidHandle, NoAbility, [], [])
  }
}
