/**
 * The gameplay ability system component the grasp component grants through.
 * Only the two calls the core makes are modelled: GiveAbility, which issues a
 * fresh spec handle or an invalid one, and ClearAbility, which withdraws the
 * ability behind a handle. The system is a handle counter over the set of
 * active specs; the ability classes it refuses to grant are part of its state.
 */
module GraspAbilitySystem {
  import opened GraspTypes

  /** The specs the system holds: each active handle id maps to the ability it grants. */
  datatype AbilityRegistry = AbilityRegistry(nextHandle: nat, active: map<nat, AbilityClass>, refused: set<AbilityClass>)
  {
    /** Every active handle was issued before the next one. */
    ghost predicate Valid()
    {
      forall id :: id in active ==> id < nextHandle
    }
  }

  /** What GiveAbility hands back: the handle, and the system after the call. */
  datatype GiveOutcome = GiveOutcome(handle: SpecHandle, registry: AbilityRegistry)

  /** Whether the system grants the ability: never a null class, never a refused one. */
  predicate Grants(r: AbilityRegistry, a: AbilityClass)
  {
    a != NoAbility && a !in r.refused
  }

  /** GiveAbility: a granted ability gets a handle no active spec holds; a refused one gets an invalid handle and changes nothing. */
  function Give(r: AbilityRegistry, a: AbilityClass): (g: GiveOutcome)
    ensures g.handle.IsValid() <==> Grants(r, a)
    ensures !g.handle.IsValid() ==> g.registry == r
    ensures g.handle.IsValid() ==> r.Valid() ==> g.handle.id !in r.active
    ensures g.handle.IsValid() ==> g.registry.active == r.active[g.handle.id := a]
    ensures g.registry.refused == r.refused && g.registry.nextHandle >= r.nextHandle
    ensures r.Valid() ==> g.registry.Valid()
  {
    if Grants(r, a) then
      GiveOutcome(Handle(r.nextHandle), AbilityRegistry(r.nextHandle + 1, r.active[r.nextHandle := a], r.refused))
    else
      GiveOutcome(InvalidHandle, r)
  }

  /** ClearAbility: the spec behind a valid handle is no longer active; an invalid handle changes nothing. */
  function Clear(r: AbilityRegistry, h: SpecHandle): (c: AbilityRegistry)
    ensures h.IsValid() ==> c.active.Keys == r.active.Keys - {h.id}
    ensures forall id :: id in c.active ==> id in r.active && c.active[id] == r.active[id]
    ensures !h.IsValid() ==> c == r
    ensures c.refused == r.refused && c.nextHandle == r.nextHandle
    ensures r.Valid() ==> c.Valid()
  {
    if h.IsValid() then r.(active := r.active - {h.id}) else r
  }

  /** Clearing the handle an ability was just given under restores the specs the system held before. */
  lemma ClearUndoesGive(r: AbilityRegistry, a: AbilityClass)
    requires r.Valid()
    ensures Clear(Give(r, a).registry, Give(r, a).handle).active == r.active
  {
    var g := Give(r, a);
    if g.handle.IsValid() {
      assert g.handle.id !in r.active;
      assert Clear(g.registry, g.handle).active == r.active;
    }
  }

  /** Giving never withdraws a spec, and two grants never share a handle. */
  lemma GiveIssuesDistinctHandles(r: AbilityRegistry, a: AbilityClass, b: AbilityClass)
    requires r.Valid()
    ensures forall id :: id in r.active ==> id in Give(r, a).registry.active && Give(r, a).registry.active[id] == r.active[id]
    ensures Give(r, a).handle.IsValid() && Give(Give(r, a).registry, b).handle.IsValid() ==>
              Give(r, a).handle != Give(Give(r, a).registry, b).handle
  {
  }

  /** The ability system component as the grasp component holds it: an object whose specs change in place. */
  class AbilitySystemComponent {
    /** The object id a weak reference to this component resolves through. */
    const id: nat
    var nextHandle: nat
    var active: map<nat, AbilityClass>
    var refused: set<AbilityClass>

    /** A component with no specs yet that refuses the given classes. */
    constructor(id: nat, refused: set<AbilityClass>)
      ensures this.id == id && Registry() == AbilityRegistry(0, map[], refused)
    {
      this.id := id;
      nextHandle := 0;
      active := map[];
      this.refused := refused;
    }

    /** The component's state as a value. */
    function Registry(): AbilityRegistry
      reads this
    {
      AbilityRegistry(nextHandle, active, refused)
    }

    /** Gives the ability a spec and returns its handle, or an invalid handle when it is refused. */
    method GiveAbility(a: AbilityClass) returns (h: SpecHandle)
      modifies this
      ensures h == Give(old(Registry()), a).handle && Registry() == Give(old(Registry()), a).registry
    {
      if a != NoAbility && a !in refused {
        h := Handle(nextHandle);
        active := active[nextHandle := a];
        nextHandle := nextHandle + 1;
      } else {
        h := InvalidHandle;
      }
    }

    /** Withdraws the spec behind the handle, if any. */
    method ClearAbility(h: SpecHandle)
      modifies this
      ensures Registry() == Clear(old(Registry()), h)
    {
      if h.IsValid() {
        active := active - {h.id};
      }
    }
  }
}
