/**
 * The grant ledger of the grasp component as values: the map from ability
 * class to ability record, together with the ability system it grants
 * through. GraspTargetsReady reconciles the previous scan results against
 * the new ones in two passes over this ledger, revoke first, then grant;
 * the passes are specified here step by step and as left folds over the
 * results, and the component's loops are proved equal to them.
 */
module GraspLedger {
  import opened GraspTypes
  import opened GraspAbilityData
  import opened GraspData
  import opened GraspAbilitySystem

  datatype Ledger = Ledger(records: map<AbilityClass, AbilityRecord>, registry: AbilityRegistry)

  /**
   * The world a reconciliation sees: the ids of the objects that still exist,
   * and the grasp data each graspable component carries (a component absent
   * from the map has none).
   */
  datatype Scene = Scene(alive: set<nat>, dataOf: map<nat, GraspData>)

  /** The grasp data behind a weak graspable reference: none when the reference no longer resolves or the component has none. */
  function DataOf(scene: Scene, g: ObjRef): (d: Option<GraspData>)
    ensures d.Some? <==> IsValidRef(g, scene.alive) && g.id in scene.dataOf
    ensures d.Some? ==> d.value == scene.dataOf[g.id]
  {
    if IsValidRef(g, scene.alive) && g.id in scene.dataOf then Some(scene.dataOf[g.id]) else Option.None
  }

  /**
   * Every record holding a valid handle names an active spec granting its own
   * ability class, and the ability system has issued every active handle.
   */
  ghost predicate Consistent(l: Ledger)
  {
    l.registry.Valid()
    && forall k :: k in l.records && l.records[k].handle.IsValid() ==>
         l.records[k].handle.id in l.registry.active && l.registry.active[l.records[k].handle.id] == k
  }

  // ---------------------------------------------------------------- revoke

  /** Whether the revoke pass withdraws the claim of a previous result: the claim it acts on is present, revocable and held. */
  predicate Revokes(l: Ledger, r: ScanResult, current: seq<ScanResult>, scene: Scene)
  {
    !ContainsResult(current, r) && DataOf(scene, r.graspable).Some?
    && var k := DataOf(scene, r.graspable).value.GetGraspAbility();
       k != NoAbility && k in l.records
       && !l.records[k].persistent && l.records[k].handle.IsValid()
       && r.graspable in l.records[k].graspables
  }

  /**
   * One iteration of the revoke pass for a previous result. A result still
   * present in the new results, one whose graspable is gone or has no data or
   * no ability, and one whose record is missing, persistent, already cleared
   * or not claimed by it leave the ledger as it is. Otherwise its graspable
   * gives up the claim, claimants that no longer exist are pruned, and when
   * no claimant is left the ability is cleared and its record erased.
   */
  function RevokeStep(l: Ledger, r: ScanResult, current: seq<ScanResult>, scene: Scene): (n: Ledger)
    ensures !Revokes(l, r, current, scene) ==> n == l
    ensures n.records.Keys <= l.records.Keys
    ensures forall k :: k in l.records && l.records[k].persistent ==> k in n.records && n.records[k] == l.records[k]
    ensures Revokes(l, r, current, scene) ==>
              var k := DataOf(scene, r.graspable).value.GetGraspAbility();
              var rec := l.records[k];
              (forall k' :: k' in l.records && k' != k ==> k' in n.records && n.records[k'] == l.records[k'])
              && (k in n.records ==>
                    n.registry == l.registry && n.records[k] == rec.(graspables := n.records[k].graspables)
                    && r.graspable !in n.records[k].graspables && |n.records[k].graspables| > 0
                    && forall y :: y in n.records[k].graspables <==>
                                     y in rec.graspables && y != r.graspable && IsValidRef(y, scene.alive))
              && (k !in n.records ==>
                    n.registry == Clear(l.registry, rec.handle)
                    && forall y :: y in rec.graspables ==> y == r.graspable || !IsValidRef(y, scene.alive))
  {
    if !Revokes(l, r, current, scene) then l
    else
      var k := DataOf(scene, r.graspable).value.GetGraspAbility();
      var rec := l.records[k];
      var left := Pruned(Without(rec.graspables, r.graspable), scene.alive);
      if |left| == 0 then Ledger(l.records - {k}, Clear(l.registry, rec.handle))
      else l.(records := l.records[k := rec.(graspables := left)])
  }

  /** The revoke pass over the previous results, in order. */
  function RevokePass(l: Ledger, last: seq<ScanResult>, current: seq<ScanResult>, scene: Scene): Ledger
    decreases |last|
  {
    if |last| == 0 then l
    else RevokeStep(RevokePass(l, last[..|last| - 1], current, scene), last[|last| - 1], current, scene)
  }

  // ----------------------------------------------------------------- grant

  /** Whether the grant pass asks the ability system for the ability of a result: it has data, its record is neither persistent nor granted, and it is close enough. */
  predicate Requests(l: Ledger, r: ScanResult, scene: Scene)
  {
    DataOf(scene, r.graspable).Some?
    && var d := DataOf(scene, r.graspable).value;
       var k := d.GetGraspAbility();
       (k in l.records ==> !l.records[k].persistent && !l.records[k].handle.IsValid())
       && !FloatGreater(r.normalizedScanDistance, d.normalizedGrantAbilityDistance)
  }

  /**
   * One iteration of the grant pass for a new result. A result without data
   * leaves the ledger as it is. Otherwise a record for its ability (possibly
   * the null class) is found or added; a persistent record, one that already
   * holds a valid handle, and a result farther than the data's grant distance
   * stop there. Otherwise the ability is given; a valid handle is stored with
   * the ability and the result's graspable as one more claimant, and a refused
   * grant leaves the record as found or added.
   */
  function GrantStep(l: Ledger, r: ScanResult, scene: Scene): (n: Ledger)
    ensures DataOf(scene, r.graspable).None? ==> n == l
    ensures n.records.Keys == l.records.Keys + if DataOf(scene, r.graspable).Some? then {DataOf(scene, r.graspable).value.GetGraspAbility()} else {}
    ensures forall k :: k in l.records && (l.records[k].persistent || l.records[k].handle.IsValid()) ==> n.records[k] == l.records[k]
    ensures !Requests(l, r, scene) ==> n.registry == l.registry
    ensures !Requests(l, r, scene) ==> forall k :: k in l.records ==> n.records[k] == l.records[k]
    ensures !Requests(l, r, scene) ==> forall k :: k in n.records && k !in l.records ==> n.records[k] == DefaultRecord()
    ensures Requests(l, r, scene) ==>
              var k := DataOf(scene, r.graspable).value.GetGraspAbility();
              var rec := if k in l.records then l.records[k] else DefaultRecord();
              var g := Give(l.registry, k);
              n.registry == g.registry
              && (forall k' :: k' in l.records && k' != k ==> n.records[k'] == l.records[k'])
              && (g.handle.IsValid() ==> n.records[k] == rec.(handle := g.handle, ability := k, graspables := rec.graspables + [r.graspable]))
              && (!g.handle.IsValid() ==> n.records[k] == rec)
  {
    if DataOf(scene, r.graspable).None? then l
    else
      var d := DataOf(scene, r.graspable).value;
      var k := d.GetGraspAbility();
      var rec := if k in l.records then l.records[k] else DefaultRecord();
      if rec.persistent || rec.handle.IsValid() || FloatGreater(r.normalizedScanDistance, d.normalizedGrantAbilityDistance) then
        l.(records := l.records[k := rec])
      else
        var g := Give(l.registry, k);
        if g.handle.IsValid() then
          Ledger(l.records[k := rec.(handle := g.handle, ability := k, graspables := rec.graspables + [r.graspable])], g.registry)
        else
          Ledger(l.records[k := rec], g.registry)
  }

  /** The grant pass over the new results, in order. */
  function GrantPass(l: Ledger, results: seq<ScanResult>, scene: Scene): Ledger
    decreases |results|
  {
    if |results| == 0 then l
    else GrantStep(GrantPass(l, results[..|results| - 1], scene), results[|results| - 1], scene)
  }

  /** GraspTargetsReady on a component with valid data: the revoke pass over the previous results, then the grant pass over the new ones. */
  function Reconcile(l: Ledger, last: seq<ScanResult>, current: seq<ScanResult>, scene: Scene): Ledger
  {
    GrantPass(RevokePass(l, last, current, scene), current, scene)
  }

  // ------------------------------------------------- persistent records

  /** The revoke pass never touches a persistent record. */
  lemma {:induction false} RevokePassKeepsPersistent(l: Ledger, last: seq<ScanResult>, current: seq<ScanResult>, scene: Scene, k: AbilityClass)
    requires k in l.records && l.records[k].persistent
    ensures k in RevokePass(l, last, current, scene).records
    ensures RevokePass(l, last, current, scene).records[k] == l.records[k]
    decreases |last|
  {
    if |last| > 0 {
      RevokePassKeepsPersistent(l, last[..|last| - 1], current, scene, k);
    }
  }

  /** The grant pass never touches a persistent record, and never gives its ability again. */
  lemma {:induction false} GrantPassKeepsPersistent(l: Ledger, results: seq<ScanResult>, scene: Scene, k: AbilityClass)
    requires k in l.records && l.records[k].persistent
    ensures k in GrantPass(l, results, scene).records
    ensures GrantPass(l, results, scene).records[k] == l.records[k]
    decreases |results|
  {
    if |results| > 0 {
      GrantPassKeepsPersistent(l, results[..|results| - 1], scene, k);
    }
  }

  /** A reconciliation leaves every persistent record exactly as it was. */
  lemma PersistentRecordsSurvive(l: Ledger, last: seq<ScanResult>, current: seq<ScanResult>, scene: Scene, k: AbilityClass)
    requires k in l.records && l.records[k].persistent
    ensures k in Reconcile(l, last, current, scene).records
    ensures Reconcile(l, last, current, scene).records[k] == l.records[k]
  {
    RevokePassKeepsPersistent(l, last, current, scene, k);
    GrantPassKeepsPersistent(RevokePass(l, last, current, scene), current, scene, k);
  }

  // ---------------------------------------------------------- consistency

  /** Distinct records never share a valid handle in a consistent ledger. */
  lemma ConsistentHandlesDistinct(l: Ledger, k: AbilityClass, k': AbilityClass)
    requires Consistent(l)
    requires k in l.records && k' in l.records && k != k'
    requires l.records[k].handle.IsValid() && l.records[k'].handle.IsValid()
    ensures l.records[k].handle != l.records[k'].handle
  {
  }

  /** A revoke step keeps the ledger consistent with its ability system. */
  lemma RevokeStepConsistent(l: Ledger, r: ScanResult, current: seq<ScanResult>, scene: Scene)
    requires Consistent(l)
    ensures Consistent(RevokeStep(l, r, current, scene))
  {
    var n := RevokeStep(l, r, current, scene);
    if Revokes(l, r, current, scene) {
      var k := DataOf(scene, r.graspable).value.GetGraspAbility();
      if k !in n.records {
        forall k' | k' in n.records && n.records[k'].handle.IsValid()
          ensures n.records[k'].handle.id in n.registry.active
        {
          ConsistentHandlesDistinct(l, k, k');
        }
      }
    }
  }

  /** A grant step keeps the ledger consistent: a fresh handle maps to the record's own class. */
  lemma GrantStepConsistent(l: Ledger, r: ScanResult, scene: Scene)
    requires Consistent(l)
    ensures Consistent(GrantStep(l, r, scene))
  {
  }

  /** The revoke pass keeps the ledger consistent. */
  lemma {:induction false} RevokePassConsistent(l: Ledger, last: seq<ScanResult>, current: seq<ScanResult>, scene: Scene)
    requires Consistent(l)
    ensures Consistent(RevokePass(l, last, current, scene))
    decreases |last|
  {
    if |last| > 0 {
      RevokePassConsistent(l, last[..|last| - 1], current, scene);
      RevokeStepConsistent(RevokePass(l, last[..|last| - 1], current, scene), last[|last| - 1], current, scene);
    }
  }

  /** The grant pass keeps the ledger consistent. */
  lemma {:induction false} GrantPassConsistent(l: Ledger, results: seq<ScanResult>, scene: Scene)
    requires Consistent(l)
    ensures Consistent(GrantPass(l, results, scene))
    decreases |results|
  {
    if |results| > 0 {
      GrantPassConsistent(l, results[..|results| - 1], scene);
      GrantStepConsistent(GrantPass(l, results[..|results| - 1], scene), results[|results| - 1], scene);
    }
  }

  /** Every reconciliation keeps each granted record backed by a live spec of its own ability. */
  lemma ReconcileConsistent(l: Ledger, last: seq<ScanResult>, current: seq<ScanResult>, scene: Scene)
    requires Consistent(l)
    ensures Consistent(Reconcile(l, last, current, scene))
  {
    RevokePassConsistent(l, last, current, scene);
    GrantPassConsistent(RevokePass(l, last, current, scene), current, scene);
  }

  // ------------------------------------------------------- one spec per class

  /** The ability classes the scene's graspables ask for. */
  function SceneAbilities(scene: Scene): set<AbilityClass>
  {
    set id | id in scene.dataOf :: scene.dataOf[id].GetGraspAbility()
  }

  /**
   * The converse of Consistent: every active spec of a class the ledger keeps
   * a record for is that record's handle, and no class a graspable of the
   * scene asks for is granted outside the ledger. The ability system has
   * issued every active handle.
   */
  ghost predicate Exclusive(l: Ledger, scene: Scene)
  {
    l.registry.Valid()
    && forall id :: id in l.registry.active ==>
         var k := l.registry.active[id];
         (k in l.records ==> l.records[k].handle == Handle(id)) && (k !in l.records ==> k !in SceneAbilities(scene))
  }

  /** In an exclusive ledger a class with a record, or one the scene asks for, has at most one active spec. */
  lemma ExclusiveOneSpecPerClass(l: Ledger, scene: Scene, id: nat, id': nat)
    requires Exclusive(l, scene)
    requires id in l.registry.active && id' in l.registry.active && l.registry.active[id] == l.registry.active[id']
    requires l.registry.active[id] in l.records || l.registry.active[id] in SceneAbilities(scene)
    ensures id == id'
  {
  }

  /** A graspable with data asks for a class of the scene. */
  lemma DataAbilityInScene(scene: Scene, g: ObjRef)
    requires DataOf(scene, g).Some?
    ensures DataOf(scene, g).value.GetGraspAbility() in SceneAbilities(scene)
  {
    assert scene.dataOf[g.id].GetGraspAbility() in SceneAbilities(scene);
  }

  /** A revoke step keeps one spec per class: an erased record's only spec is the one it clears. */
  lemma RevokeStepExclusive(l: Ledger, r: ScanResult, current: seq<ScanResult>, scene: Scene)
    requires Exclusive(l, scene)
    ensures Exclusive(RevokeStep(l, r, current, scene), scene)
  {
    var n := RevokeStep(l, r, current, scene);
    if Revokes(l, r, current, scene) {
      var k := DataOf(scene, r.graspable).value.GetGraspAbility();
      if k !in n.records {
        forall id | id in n.registry.active
          ensures n.registry.active[id] != k
        {
          assert l.records[k].handle == Handle(id) ==> id !in n.registry.active;
        }
      }
    }
  }

  /** A grant step keeps one spec per class: a class is only given when its record holds no handle, so it had no spec. */
  lemma GrantStepExclusive(l: Ledger, r: ScanResult, scene: Scene)
    requires Exclusive(l, scene)
    ensures Exclusive(GrantStep(l, r, scene), scene)
  {
    var n := GrantStep(l, r, scene);
    if DataOf(scene, r.graspable).Some? {
      var k := DataOf(scene, r.graspable).value.GetGraspAbility();
      DataAbilityInScene(scene, r.graspable);
      assert forall id :: id in l.registry.active && l.registry.active[id] == k ==> k in l.records && l.records[k].handle == Handle(id);
    }
  }

  /** The revoke pass keeps one spec per class. */
  lemma {:induction false} RevokePassExclusive(l: Ledger, last: seq<ScanResult>, current: seq<ScanResult>, scene: Scene)
    requires Exclusive(l, scene)
    ensures Exclusive(RevokePass(l, last, current, scene), scene)
    decreases |last|
  {
    if |last| > 0 {
      RevokePassExclusive(l, last[..|last| - 1], current, scene);
      RevokeStepExclusive(RevokePass(l, last[..|last| - 1], current, scene), last[|last| - 1], current, scene);
    }
  }

  /** The grant pass keeps one spec per class. */
  lemma {:induction false} GrantPassExclusive(l: Ledger, results: seq<ScanResult>, scene: Scene)
    requires Exclusive(l, scene)
    ensures Exclusive(GrantPass(l, results, scene), scene)
    decreases |results|
  {
    if |results| > 0 {
      GrantPassExclusive(l, results[..|results| - 1], scene);
      GrantStepExclusive(GrantPass(l, results[..|results| - 1], scene), results[|results| - 1], scene);
    }
  }

  /** Every reconciliation keeps at most one grant per ability class. */
  lemma ReconcileExclusive(l: Ledger, last: seq<ScanResult>, current: seq<ScanResult>, scene: Scene)
    requires Exclusive(l, scene)
    ensures Exclusive(Reconcile(l, last, current, scene), scene)
  {
    RevokePassExclusive(l, last, current, scene);
    GrantPassExclusive(RevokePass(l, last, current, scene), current, scene);
  }

  // ------------------------------------------------------------ retention

  /** A granted record keeps its handle and a live claimant through the revoke pass while that claimant is among the new results. */
  lemma {:induction false} RevokePassRetainsClaimed(l: Ledger, last: seq<ScanResult>, current: seq<ScanResult>, scene: Scene,
                                                    k: AbilityClass, y: ObjRef)
    requires k in l.records && l.records[k].handle.IsValid() && y in l.records[k].graspables
    requires IsValidRef(y, scene.alive) && exists j :: 0 <= j < |current| && current[j].graspable == y
    ensures var n := RevokePass(l, last, current, scene);
            k in n.records && n.records[k].handle == l.records[k].handle && y in n.records[k].graspables
    decreases |last|
  {
    if |last| > 0 {
      var prev := RevokePass(l, last[..|last| - 1], current, scene);
      var r := last[|last| - 1];
      RevokePassRetainsClaimed(l, last[..|last| - 1], current, scene, k, y);
      if Revokes(prev, r, current, scene) && DataOf(scene, r.graspable).value.GetGraspAbility() == k {
        var j :| 0 <= j < |current| && current[j].graspable == y;
        assert !SameResult(current[j], r);
      }
    }
  }

  /** The grant pass leaves a record that holds a valid handle as it was. */
  lemma {:induction false} GrantPassKeepsGranted(l: Ledger, results: seq<ScanResult>, scene: Scene, k: AbilityClass)
    requires k in l.records && l.records[k].handle.IsValid()
    ensures k in GrantPass(l, results, scene).records && GrantPass(l, results, scene).records[k] == l.records[k]
    decreases |results|
  {
    if |results| > 0 {
      GrantPassKeepsGranted(l, results[..|results| - 1], scene, k);
    }
  }

  /**
   * Once granted, an ability is kept, whatever the new distance, while one of
   * its claimants is still among the results. Retention is tied to a
   * claimant: another graspable of the same class that is still present does
   * not keep the ability, since a granted record gains no claimant.
   */
  lemma ReconcileRetainsClaimed(l: Ledger, last: seq<ScanResult>, current: seq<ScanResult>, scene: Scene, k: AbilityClass, y: ObjRef)
    requires k in l.records && l.records[k].handle.IsValid() && y in l.records[k].graspables
    requires IsValidRef(y, scene.alive) && exists j :: 0 <= j < |current| && current[j].graspable == y
    ensures var n := Reconcile(l, last, current, scene);
            k in n.records && n.records[k].handle == l.records[k].handle && y in n.records[k].graspables
  {
    RevokePassRetainsClaimed(l, last, current, scene, k, y);
    GrantPassKeepsGranted(RevokePass(l, last, current, scene), current, scene, k);
  }

  // ----------------------------------------------------------- idempotence

  /** The revoke pass leaves the ledger alone when every previous result is still present. */
  lemma {:induction false} RevokePassOfRetainedIsIdentity(l: Ledger, last: seq<ScanResult>, current: seq<ScanResult>, scene: Scene)
    requires forall i :: 0 <= i < |last| ==> ContainsResult(current, last[i])
    ensures RevokePass(l, last, current, scene) == l
    decreases |last|
  {
    if |last| > 0 {
      RevokePassOfRetainedIsIdentity(l, last[..|last| - 1], current, scene);
      assert ContainsResult(current, last[|last| - 1]);
    }
  }

  /** Whether a further grant step for this result would change nothing. */
  predicate Settled(l: Ledger, r: ScanResult, scene: Scene)
  {
    DataOf(scene, r.graspable).None?
    || var d := DataOf(scene, r.graspable).value;
       var k := d.GetGraspAbility();
       k in l.records
       && (l.records[k].persistent || l.records[k].handle.IsValid()
           || FloatGreater(r.normalizedScanDistance, d.normalizedGrantAbilityDistance)
           || !Grants(l.registry, k))
  }

  /** A settled result's grant step is the identity. */
  lemma SettledStepIsIdentity(l: Ledger, r: ScanResult, scene: Scene)
    requires Settled(l, r, scene)
    ensures GrantStep(l, r, scene) == l
  {
    if DataOf(scene, r.graspable).Some? {
      var k := DataOf(scene, r.graspable).value.GetGraspAbility();
      assert l.records[k := l.records[k]] == l.records;
    }
  }

  /** A grant step settles its own result and keeps every other result settled. */
  lemma GrantStepSettles(l: Ledger, r: ScanResult, r': ScanResult, scene: Scene)
    ensures Settled(GrantStep(l, r, scene), r, scene)
    ensures Settled(l, r', scene) ==> Settled(GrantStep(l, r, scene), r', scene)
  {
  }

  /** After a grant pass every one of its results is settled. */
  lemma {:induction false} GrantPassSettles(l: Ledger, results: seq<ScanResult>, scene: Scene)
    ensures forall i :: 0 <= i < |results| ==> Settled(GrantPass(l, results, scene), results[i], scene)
    decreases |results|
  {
    if |results| > 0 {
      var prefix := results[..|results| - 1];
      var last := results[|results| - 1];
      GrantPassSettles(l, prefix, scene);
      forall i | 0 <= i < |results|
        ensures Settled(GrantPass(l, results, scene), results[i], scene)
      {
        GrantStepSettles(GrantPass(l, prefix, scene), last, results[i], scene);
        if i < |results| - 1 {
          assert results[i] == prefix[i];
        }
      }
    }
  }

  /** A grant pass whose results are all settled changes nothing. */
  lemma {:induction false} GrantPassOfSettledIsIdentity(l: Ledger, results: seq<ScanResult>, scene: Scene)
    requires forall i :: 0 <= i < |results| ==> Settled(l, results[i], scene)
    ensures GrantPass(l, results, scene) == l
    decreases |results|
  {
    if |results| > 0 {
      var prefix := results[..|results| - 1];
      assert forall i :: 0 <= i < |prefix| ==> prefix[i] == results[i];
      GrantPassOfSettledIsIdentity(l, prefix, scene);
      SettledStepIsIdentity(l, results[|results| - 1], scene);
    }
  }

  /** Delivering the same results a second time, against an unchanged world, leaves the ledger as the first delivery left it. */
  lemma ReconcileIdempotent(l: Ledger, last: seq<ScanResult>, results: seq<ScanResult>, scene: Scene)
    ensures Reconcile(Reconcile(l, last, results, scene), results, results, scene) == Reconcile(l, last, results, scene)
  {
    var once := Reconcile(l, last, results, scene);
    forall i | 0 <= i < |results|
      ensures ContainsResult(results, results[i])
    {
      assert SameResult(results[i], results[i]);
    }
    RevokePassOfRetainedIsIdentity(once, results, results, scene);
    GrantPassSettles(RevokePass(l, last, results, scene), results, scene);
    GrantPassOfSettledIsIdentity(once, results, scene);
  }

  // -------------------------------------------------------------- scenarios

  /** Grasp data with the defaults apart from the ability class. */
  function DataGranting(a: AbilityClass): (d: GraspData)
    ensures d.GetGraspAbility() == a && d.normalizedGrantAbilityDistance == 0.7
  {
    DefaultGraspData().(graspAbility := a)
  }

  /** A graspable with default data at a normalised distance of 0.65 is granted its ability, and becomes its only claimant. */
  lemma CloseGraspableIsGranted()
    ensures
      var scene := Scene({1}, map[1 := DataGranting(Ability(7))]);
      var l := Ledger(map[], AbilityRegistry(0, map[], {}));
      var n := Reconcile(l, [], [ScanResult(Tag("Grasp.Interact"), Ref(1), Finite(0.65))], scene);
      n.records == map[Ability(7) := AbilityRecord(false, Handle(0), Ability(7), [], [Ref(1)])]
      && n.registry.active == map[0 := Ability(7)]
  {
    var scene := Scene({1}, map[1 := DataGranting(Ability(7))]);
    var l := Ledger(map[], AbilityRegistry(0, map[], {}));
    var r := ScanResult(Tag("Grasp.Interact"), Ref(1), Finite(0.65));
    assert [r][..0] == [];
    assert Requests(l, r, scene);
    var n := GrantStep(l, r, scene);
    assert RevokePass(l, [], [r], scene) == l;
    assert GrantPass(l, [r], scene) == GrantStep(GrantPass(l, [], scene), r, scene);
    assert n.records.Keys == {Ability(7)};
    assert n.records[Ability(7)] == AbilityRecord(false, Handle(0), Ability(7), [], [Ref(1)]);
  }

  /** At a normalised distance of 0.8 nothing is granted, yet an empty record for the ability is left in the ledger. */
  lemma DistantGraspableIsNotGranted()
    ensures
      var scene := Scene({1}, map[1 := DataGranting(Ability(7))]);
      var l := Ledger(map[], AbilityRegistry(0, map[], {}));
      var n := Reconcile(l, [], [ScanResult(Tag("Grasp.Interact"), Ref(1), Finite(0.8))], scene);
      n.records == map[Ability(7) := DefaultRecord()] && n.registry == l.registry
  {
    var r := ScanResult(Tag("Grasp.Interact"), Ref(1), Finite(0.8));
    assert [r][..0] == [];
  }

  /**
   * The same graspable over three cycles: at 0.8 nothing is granted and an
   * empty record is left; at 0.65 the ability is granted from that record;
   * back at 0.8 the grant is kept, since the graspable is still a result.
   */
  lemma GrantedOnApproachThenKept()
    ensures
      var scene := Scene({1}, map[1 := DataGranting(Ability(7))]);
      var far := ScanResult(Tag("Grasp.Interact"), Ref(1), Finite(0.8));
      var near := ScanResult(Tag("Grasp.Interact"), Ref(1), Finite(0.65));
      var l1 := Reconcile(Ledger(map[], AbilityRegistry(0, map[], {})), [], [far], scene);
      var l2 := Reconcile(l1, [far], [near], scene);
      var l3 := Reconcile(l2, [near], [far], scene);
      l1.records == map[Ability(7) := DefaultRecord()] && l1.registry.active == map[]
      && l2.records == map[Ability(7) := AbilityRecord(false, Handle(0), Ability(7), [], [Ref(1)])]
      && l2.registry.active == map[0 := Ability(7)]
      && l3 == l2
  {
    var scene := Scene({1}, map[1 := DataGranting(Ability(7))]);
    var far := ScanResult(Tag("Grasp.Interact"), Ref(1), Finite(0.8));
    var near := ScanResult(Tag("Grasp.Interact"), Ref(1), Finite(0.65));
    var l0 := Ledger(map[], AbilityRegistry(0, map[], {}));
    assert [far][..0] == [] && [near][..0] == [];
    var l1 := Reconcile(l0, [], [far], scene);
    DistantGraspableIsNotGranted();
    assert l1.records == map[Ability(7) := DefaultRecord()] && l1.registry == l0.registry;
    assert SameResult([near][0], far);
    assert RevokePass(l1, [far], [near], scene) == l1;
    assert Requests(l1, near, scene);
    var l2 := Reconcile(l1, [far], [near], scene);
    assert GrantPass(l1, [near], scene) == GrantStep(GrantPass(l1, [], scene), near, scene);
    assert l2.records[Ability(7)] == AbilityRecord(false, Handle(0), Ability(7), [], [Ref(1)]);
    assert SameResult([far][0], near);
    assert RevokePass(l2, [near], [far], scene) == l2;
    assert GrantPass(l2, [far], scene) == GrantStep(l2, far, scene);
  }

  /** When its graspable leaves, the only claimant's ability is cleared and its record erased. */
  lemma DepartingLastClaimantClearsAbility()
    ensures
      var scene := Scene({1}, map[1 := DataGranting(Ability(7))]);
      var r := ScanResult(Tag("Grasp.Interact"), Ref(1), Finite(0.65));
      var l := Ledger(map[Ability(7) := AbilityRecord(false, Handle(0), Ability(7), [], [Ref(1)])],
                      AbilityRegistry(1, map[0 := Ability(7)], {}));
      var n := Reconcile(l, [r], [], scene);
      n.records == map[] && n.registry.active == map[]
  {
    var scene := Scene({1}, map[1 := DataGranting(Ability(7))]);
    var r := ScanResult(Tag("Grasp.Interact"), Ref(1), Finite(0.65));
    var l := Ledger(map[Ability(7) := AbilityRecord(false, Handle(0), Ability(7), [], [Ref(1)])],
                    AbilityRegistry(1, map[0 := Ability(7)], {}));
    assert [r][..0] == [];
    assert Revokes(l, r, [], scene);
    assert Without([Ref(1)], Ref(1)) == [];
  }

  /** A second graspable needing an ability already granted for the first adds no claimant and asks for no second grant. */
  lemma GrantedAbilityGainsNoClaimant()
    ensures
      var scene := Scene({1, 2}, map[1 := DataGranting(Ability(7)), 2 := DataGranting(Ability(7))]);
      var r1 := ScanResult(Tag("Grasp.Interact"), Ref(1), Finite(0.1));
      var r2 := ScanResult(Tag("Grasp.Interact"), Ref(2), Finite(0.1));
      var l := Ledger(map[], AbilityRegistry(0, map[], {}));
      var n := Reconcile(l, [], [r1, r2], scene);
      n.records[Ability(7)].graspables == [Ref(1)] && n.registry.nextHandle == 1
  {
    var scene := Scene({1, 2}, map[1 := DataGranting(Ability(7)), 2 := DataGranting(Ability(7))]);
    var r1 := ScanResult(Tag("Grasp.Interact"), Ref(1), Finite(0.1));
    var r2 := ScanResult(Tag("Grasp.Interact"), Ref(2), Finite(0.1));
    var l := Ledger(map[], AbilityRegistry(0, map[], {}));
    assert [r1, r2][..1] == [r1];
    assert [r1][..0] == [];
    assert Requests(l, r1, scene);
    var n1 := GrantStep(l, r1, scene);
    assert n1.records[Ability(7)] == AbilityRecord(false, Handle(0), Ability(7), [], [Ref(1)]);
    var n2 := GrantStep(n1, r2, scene);
    assert RevokePass(l, [], [r1, r2], scene) == l;
    assert GrantPass(l, [r1], scene) == n1 by {
      assert GrantPass(l, [r1], scene) == GrantStep(GrantPass(l, [], scene), r1, scene);
    }
    assert GrantPass(l, [r1, r2], scene) == GrantStep(GrantPass(l, [r1], scene), r2, scene);
    assert !Requests(n1, r2, scene);
  }

  // ------------------------------------------------------------ pre-grant

  /**
   * One common ability granted up front: when the ability system grants it,
   * its record (found or added) takes the handle and the class and becomes
   * persistent; a refused grant leaves the records alone.
   */
  function PreGrantStep(l: Ledger, a: AbilityClass): (n: Ledger)
    ensures Grants(l.registry, a) ==> a in n.records && n.records[a].persistent && n.records[a].handle.IsValid()
    ensures Grants(l.registry, a) && l.registry.Valid() ==> n.records[a].handle.id !in l.registry.active
    ensures !Grants(l.registry, a) ==> n == l
    ensures forall k :: k in l.records && k != a ==> k in n.records && n.records[k] == l.records[k]
    ensures n.records.Keys <= l.records.Keys + {a}
  {
    var g := Give(l.registry, a);
    if g.handle.IsValid() then
      var rec := if a in l.records then l.records[a] else DefaultRecord();
      Ledger(l.records[a := rec.(handle := g.handle, ability := a, persistent := true)], g.registry)
    else
      l.(registry := g.registry)
  }

  /** The common abilities granted up front, in order. */
  function PreGrant(l: Ledger, abilities: seq<AbilityClass>): Ledger
    decreases |abilities|
  {
    if |abilities| == 0 then l
    else PreGrantStep(PreGrant(l, abilities[..|abilities| - 1]), abilities[|abilities| - 1])
  }

  /** Granting up front never changes which classes the ability system refuses. */
  lemma {:induction false} PreGrantKeepsRefused(l: Ledger, abilities: seq<AbilityClass>)
    ensures PreGrant(l, abilities).registry.refused == l.registry.refused
    decreases |abilities|
  {
    if |abilities| > 0 {
      PreGrantKeepsRefused(l, abilities[..|abilities| - 1]);
    }
  }

  /** Every common ability the ability system grants ends up in a persistent record holding a valid handle. */
  lemma {:induction false} PreGrantMakesPersistent(l: Ledger, abilities: seq<AbilityClass>, i: nat)
    requires i < |abilities| && Grants(l.registry, abilities[i])
    ensures abilities[i] in PreGrant(l, abilities).records
    ensures PreGrant(l, abilities).records[abilities[i]].persistent
    ensures PreGrant(l, abilities).records[abilities[i]].handle.IsValid()
    decreases |abilities|
  {
    var prefix := abilities[..|abilities| - 1];
    var a := abilities[|abilities| - 1];
    PreGrantKeepsRefused(l, prefix);
    if i < |abilities| - 1 && a != abilities[i] {
      assert prefix[i] == abilities[i];
      PreGrantMakesPersistent(l, prefix, i);
    } else {
      assert Grants(PreGrant(l, prefix).registry, abilities[i]);
    }
  }

  /** Granting up front keeps the ledger consistent with its ability system. */
  lemma {:induction false} PreGrantConsistent(l: Ledger, abilities: seq<AbilityClass>)
    requires Consistent(l)
    ensures Consistent(PreGrant(l, abilities))
    decreases |abilities|
  {
    if |abilities| > 0 {
      PreGrantConsistent(l, abilities[..|abilities| - 1]);
    }
  }

  /** No spec of the class is active unless the ledger keeps a record for it. */
  ghost predicate NotGrantedOutside(l: Ledger, a: AbilityClass)
  {
    forall id :: id in l.registry.active && l.registry.active[id] == a ==> a in l.records
  }

  /** On a first initialization, where the record holds no handle yet, the pre-grant keeps one spec per class. */
  lemma PreGrantStepExclusiveWhenFresh(l: Ledger, a: AbilityClass, scene: Scene)
    requires Exclusive(l, scene) && NotGrantedOutside(l, a)
    requires a in l.records ==> !l.records[a].handle.IsValid()
    ensures Exclusive(PreGrantStep(l, a), scene)
  {
    assert forall id :: id in l.registry.active ==> l.registry.active[id] != a;
  }

  /**
   * Initializing twice pre-grants a common ability twice: the second grant
   * overwrites the record's handle without clearing the first spec, which
   * stays active with no record holding it.
   */
  lemma SecondPreGrantOrphansSpec()
    ensures var l0 := Ledger(map[], AbilityRegistry(0, map[], {}));
            var l2 := PreGrant(PreGrant(l0, [Ability(1)]), [Ability(1)]);
            l2.registry.active == map[0 := Ability(1), 1 := Ability(1)]
            && l2.records.Keys == {Ability(1)} && l2.records[Ability(1)].handle == Handle(1)
            && forall scene :: !Exclusive(l2, scene)
  {
    var l0 := Ledger(map[], AbilityRegistry(0, map[], {}));
    assert [Ability(1)][..0] == [];
    var l1 := PreGrantStep(l0, Ability(1));
    assert PreGrant(l0, [Ability(1)]) == l1;
    var l2 := PreGrantStep(l1, Ability(1));
    assert PreGrant(l1, [Ability(1)]) == l2;
    assert l1.records == map[Ability(1) := DefaultRecord().(handle := Handle(0), ability := Ability(1), persistent := true)];
    assert l2.registry.active == map[0 := Ability(1), 1 := Ability(1)];
    forall scene
      ensures !Exclusive(l2, scene)
    {
      assert 0 in l2.registry.active && l2.records[Ability(1)].handle != Handle(0);
    }
  }

  /**
   * The pre-grant step as evidently intended, following the scan ability:
   * the record's previous handle is cleared before the ability is given again.
   */
  function PreGrantStepCorrected(l: Ledger, a: AbilityClass): (n: Ledger)
    ensures Grants(l.registry, a) ==> a in n.records && n.records[a].persistent && n.records[a].handle.IsValid()
    ensures l.registry.Valid() && a in l.records && l.records[a].handle.IsValid() && l.records[a].handle.id in l.registry.active ==>
              l.records[a].handle.id !in n.registry.active
    ensures forall k :: k in l.records && k != a ==> k in n.records && n.records[k] == l.records[k]
    ensures n.records.Keys <= l.records.Keys + {a}
  {
    var rec := if a in l.records then l.records[a] else DefaultRecord();
    var g := Give(Clear(l.registry, rec.handle), a);
    if g.handle.IsValid() then
      Ledger(l.records[a := rec.(handle := g.handle, ability := a, persistent := true)], g.registry)
    else if a in l.records then
      Ledger(l.records[a := rec.(handle := InvalidHandle)], g.registry)
    else
      l.(registry := g.registry)
  }

  /** The corrected pre-grant step keeps one spec per class, however often it runs. */
  lemma PreGrantStepCorrectedExclusive(l: Ledger, a: AbilityClass, scene: Scene)
    requires Exclusive(l, scene) && NotGrantedOutside(l, a)
    ensures Exclusive(PreGrantStepCorrected(l, a), scene)
    ensures forall b :: NotGrantedOutside(l, b) ==> NotGrantedOutside(PreGrantStepCorrected(l, a), b)
  {
    var rec := if a in l.records then l.records[a] else DefaultRecord();
    var cleared := Clear(l.registry, rec.handle);
    assert forall id :: id in cleared.active ==> cleared.active[id] != a;
  }

  /** The common abilities granted up front with the corrected step, in order. */
  function PreGrantCorrected(l: Ledger, abilities: seq<AbilityClass>): Ledger
    decreases |abilities|
  {
    if |abilities| == 0 then l
    else PreGrantStepCorrected(PreGrantCorrected(l, abilities[..|abilities| - 1]), abilities[|abilities| - 1])
  }

  /** The corrected pre-grant keeps one spec per class, so initializing again leaves no spec without a record. */
  lemma {:induction false} PreGrantCorrectedExclusive(l: Ledger, abilities: seq<AbilityClass>, scene: Scene)
    requires Exclusive(l, scene) && forall i :: 0 <= i < |abilities| ==> NotGrantedOutside(l, abilities[i])
    ensures Exclusive(PreGrantCorrected(l, abilities), scene)
    ensures forall b :: NotGrantedOutside(l, b) ==> NotGrantedOutside(PreGrantCorrected(l, abilities), b)
    decreases |abilities|
  {
    if |abilities| > 0 {
      var prefix := abilities[..|abilities| - 1];
      assert forall i :: 0 <= i < |prefix| ==> prefix[i] == abilities[i];
      PreGrantCorrectedExclusive(l, prefix, scene);
      PreGrantStepCorrectedExclusive(PreGrantCorrected(l, prefix), abilities[|abilities| - 1], scene);
    }
  }

  /**
   * The scan ability as InitializeGrasp refreshes it: the previous scan
   * handle is cleared, then the scan ability (when there is one) is given.
   */
  function RegrantScan(r: AbilityRegistry, previous: SpecHandle, scanAbility: AbilityClass): (g: GiveOutcome)
    ensures g.handle.IsValid() <==> Grants(r, scanAbility)
    ensures forall id :: id in g.registry.active && (g.handle.IsValid() ==> id != g.handle.id) ==> id in r.active && g.registry.active[id] == r.active[id]
    ensures previous.IsValid() ==> !g.handle.IsValid() ==> previous.id !in g.registry.active
  {
    var cleared := Clear(r, previous);
    if scanAbility != NoAbility then Give(cleared, scanAbility) else GiveOutcome(InvalidHandle, cleared)
  }

  // ------------------------------------------------------------- clear all

  /** Whether ClearAllGrantedGameplayAbilities resets this record: always with common abilities included, otherwise only non-persistent ones. */
  predicate ClearsRecord(rec: AbilityRecord, includeCommon: bool)
  {
    includeCommon || !rec.persistent
  }

  /** The handle ids of the records among the given keys that a clear-all withdraws. */
  function ClearedIds(records: map<AbilityClass, AbilityRecord>, keys: set<AbilityClass>, includeCommon: bool): set<nat>
  {
    set k | k in keys && k in records && ClearsRecord(records[k], includeCommon) && records[k].handle.IsValid() :: records[k].handle.id
  }

  /** A record as the clear-all leaves it. */
  function ClearedRecord(rec: AbilityRecord, includeCommon: bool): (c: AbilityRecord)
    ensures ClearsRecord(rec, includeCommon) ==> !c.handle.IsValid() && c.ability == NoAbility
    ensures !ClearsRecord(rec, includeCommon) ==> c == rec
    ensures c.persistent == rec.persistent && c.graspables == rec.graspables && c.lockedGraspables == rec.lockedGraspables
  {
    if ClearsRecord(rec, includeCommon) then rec.(handle := InvalidHandle, ability := NoAbility) else rec
  }

  /**
   * ClearAllGrantedGameplayAbilities on the ledger: every record it resets
   * loses its handle and class, and the ability system withdraws those
   * handles; the records themselves, and their claimants, stay.
   */
  function ClearAll(l: Ledger, includeCommon: bool): (n: Ledger)
    ensures n.records.Keys == l.records.Keys
    ensures forall k :: k in l.records ==> n.records[k] == ClearedRecord(l.records[k], includeCommon)
    ensures forall k :: k in l.records && ClearsRecord(l.records[k], includeCommon) && l.records[k].handle.IsValid() ==>
              l.records[k].handle.id !in n.registry.active
    ensures forall id :: id in n.registry.active ==> id in l.registry.active && n.registry.active[id] == l.registry.active[id]
    ensures n.registry.refused == l.registry.refused && n.registry.nextHandle == l.registry.nextHandle
  {
    var records := map k | k in l.records :: ClearedRecord(l.records[k], includeCommon);
    var ids := ClearedIds(l.records, l.records.Keys, includeCommon);
    assert forall k :: k in l.records && ClearsRecord(l.records[k], includeCommon) && l.records[k].handle.IsValid() ==>
             l.records[k].handle.id in ids;
    Ledger(records, l.registry.(active := l.registry.active - ids))
  }

  /** A clear-all keeps one spec per class: a record that loses its handle loses its only spec with it. */
  lemma ClearAllExclusive(l: Ledger, includeCommon: bool, scene: Scene)
    requires Exclusive(l, scene)
    ensures Exclusive(ClearAll(l, includeCommon), scene)
  {
    var n := ClearAll(l, includeCommon);
    forall id | id in n.registry.active && n.registry.active[id] in n.records
      ensures n.records[n.registry.active[id]].handle == Handle(id)
    {
      var k := n.registry.active[id];
      assert l.records[k].handle == Handle(id);
    }
  }

  /** A clear-all keeps the ledger consistent: the records keeping their handles keep their specs. */
  lemma ClearAllConsistent(l: Ledger, includeCommon: bool)
    requires Consistent(l)
    ensures Consistent(ClearAll(l, includeCommon))
  {
    var n := ClearAll(l, includeCommon);
    var ids := ClearedIds(l.records, l.records.Keys, includeCommon);
    forall k | k in n.records && n.records[k].handle.IsValid()
      ensures n.records[k].handle.id !in ids
    {
    }
  }
}
