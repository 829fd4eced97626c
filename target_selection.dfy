/**
 * The targeting task that gathers graspables around the source: the overlap
 * shape, the radius that normalises grant distances, the choice of overlap
 * query, and the post-processing that turns overlaps into target results.
 */
module GraspTargetSelection {
  import opened GraspTypes
  import opened GraspStatics

  datatype EGraspTargetingShape = Box | Cylinder | Sphere | Capsule

  /** The collision shape handed to the overlap query. */
  datatype CollisionShape = BoxShape(halfExtent: Vector) | SphereShape(radius: real) | CapsuleShape(radius: real, halfHeight: real)

  /** The mean horizontal extent of a collision shape: half the sum of a box's X and Y, a sphere's radius, half a capsule's radius plus half height. */
  function MeanExtent(s: CollisionShape): real
  {
    match s
    case BoxShape(h) => 0.5 * (h.x + h.y)
    case SphereShape(r) => r
    case CapsuleShape(r, hh) => 0.5 * (r + hh)
  }

  /** The radius used to normalise grant distances, averaged from the shape's dimensions (height ignored). */
  function AbilityRadius(shape: EGraspTargetingShape, halfExtent: Vector, radius: real, halfHeight: real): (r: real)
    ensures shape == Sphere ==> r == radius
    ensures shape == Box || shape == Cylinder ==>
              (halfExtent.x <= r <= halfExtent.y || halfExtent.y <= r <= halfExtent.x) && 2.0 * r == halfExtent.x + halfExtent.y
    ensures shape == Capsule ==> (radius <= r <= halfHeight || halfHeight <= r <= radius) && 2.0 * r == radius + halfHeight
  {
    match shape
    case Box => 0.5 * (halfExtent.x + halfExtent.y)
    case Cylinder => 0.5 * (halfExtent.x + halfExtent.y)
    case Sphere => radius
    case Capsule => 0.5 * (radius + halfHeight)
  }

  /** Which overlap query the trace runs. */
  datatype OverlapQuery = ByObjectType(objectTypes: seq<nat>) | ByProfile(profileName: string) | ByChannel(channel: nat)

  /** The profile name that means "no profile". */
  const NoCollisionProfile: string := "NoCollision"

  /** The collision channel index of ECC_Visibility. */
  const VisibilityChannel: nat := 3

  /** The query choice: object types when any are listed, else the profile unless it is NoCollision, else the channel. */
  function ChooseOverlapQuery(objectTypes: seq<nat>, profileName: string, channel: nat): (q: OverlapQuery)
    ensures q.ByObjectType? <==> |objectTypes| > 0
    ensures q.ByProfile? <==> |objectTypes| == 0 && profileName != NoCollisionProfile
    ensures q.ByObjectType? ==> q.objectTypes == objectTypes
    ensures q.ByProfile? ==> q.profileName == profileName
    ensures q.ByChannel? ==> q.channel == channel
  {
    if |objectTypes| > 0 then ByObjectType(objectTypes)
    else if profileName != NoCollisionProfile then ByProfile(profileName)
    else ByChannel(channel)
  }

  /** One overlap reported by the physics query. */
  datatype OverlapResult = OverlapResult(actor: ObjRef, actorLocation: Vector, component: ObjRef, blockingHit: bool, itemIndex: int)

  /** The hit part of a targeting result, as the selection fills it in. */
  datatype TargetResult = TargetResult(
    actor: ObjRef,
    component: ObjRef,
    impactPoint: Vector,
    location: Vector,
    blockingHit: bool,
    traceStart: Vector,
    item: int,
    normal: Vector,
    distance: real)

  class GraspTargetSelection {
    var shapeType: EGraspTargetingShape
    var halfExtent: Vector
    var radius: real
    var halfHeight: real
    var graspAbilityRadius: real
    var collisionObjectTypes: seq<nat>
    var collisionProfileName: string
    var collisionChannel: nat

    /**
     * A new selection task: the project's default object type, the visibility
     * channel, a box of half extent (1000, 750, 250), radius 300, half height
     * 500, and the ability radius computed from them. The profile name is the
     * engine's default for the property.
     */
    constructor(defaultObjectType: nat, defaultProfileName: string)
      ensures shapeType == Box && halfExtent == Vector(1000.0, 750.0, 250.0) && radius == 300.0 && halfHeight == 500.0
      ensures collisionObjectTypes == [defaultObjectType] && collisionChannel == VisibilityChannel
      ensures collisionProfileName == defaultProfileName
      ensures graspAbilityRadius == 875.0
    {
      collisionObjectTypes := [defaultObjectType];
      collisionChannel := VisibilityChannel;
      collisionProfileName := defaultProfileName;
      shapeType := Box;
      halfExtent := Vector(1000.0, 750.0, 250.0);
      halfHeight := 500.0;
      radius := 300.0;
      graspAbilityRadius := 0.0;
      new;
      UpdateGraspAbilityRadius();
    }

    /** Recomputes the ability radius from the current shape. */
    method UpdateGraspAbilityRadius()
      modifies this`graspAbilityRadius
      ensures graspAbilityRadius == AbilityRadius(shapeType, halfExtent, radius, halfHeight)
    {
      match shapeType {
        case Box =>
          graspAbilityRadius := 0.5 * (halfExtent.x + halfExtent.y);
        case Cylinder =>
          graspAbilityRadius := 0.5 * (halfExtent.x + halfExtent.y);
        case Sphere =>
          graspAbilityRadius := radius;
        case Capsule =>
          graspAbilityRadius := 0.5 * (radius + halfHeight);
      }
    }

    /** The overlap shape: a cylinder is queried as its bounding box. */
    function GetCollisionShape(): (s: CollisionShape)
      reads this
      ensures s.BoxShape? <==> shapeType == Box || shapeType == Cylinder
      ensures s.BoxShape? ==> s.halfExtent == halfExtent
      ensures s.SphereShape? <==> shapeType == Sphere
      ensures s.SphereShape? ==> s.radius == radius
      ensures s.CapsuleShape? ==> s == CapsuleShape(radius, halfHeight)
    {
      match shapeType
      case Box => BoxShape(halfExtent)
      case Cylinder => BoxShape(halfExtent)
      case Sphere => SphereShape(radius)
      case Capsule => CapsuleShape(radius, halfHeight)
    }

    /** The query both the immediate and the asynchronous trace run. */
    function OverlapQueryKind(): (q: OverlapQuery)
      reads this
      ensures q == ChooseOverlapQuery(collisionObjectTypes, collisionProfileName, collisionChannel)
    {
      ChooseOverlapQuery(collisionObjectTypes, collisionProfileName, collisionChannel)
    }

    /** An overlap the selection accepts: it has an actor and, for a cylinder, lies within the X half extent (2D). */
    predicate Admits(o: OverlapResult, sourceLocation: Vector)
      reads this
    {
      o.actor.Ref?
      && (shapeType == Cylinder ==> DistSquared2D(o.actorLocation, sourceLocation) <= halfExtent.x * halfExtent.x)
    }

    /** The target result recorded for an accepted overlap. */
    function ResultFor(o: OverlapResult, sourceLocation: Vector, sourceDirection: Vector): (r: TargetResult)
      reads this
      ensures r.actor == o.actor && r.component == o.component
      ensures r.traceStart == sourceLocation && r.distance == graspAbilityRadius
    {
      TargetResult(o.actor, o.component, o.actorLocation, o.actorLocation, o.blockingHit, sourceLocation, o.itemIndex,
                   sourceDirection, graspAbilityRadius)
    }

    /**
     * The post-processing as a left fold over the overlaps: an accepted
     * overlap whose actor no result has yet appends its target result; any
     * other overlap is skipped.
     */
    function Processed(existing: seq<TargetResult>, overlaps: seq<OverlapResult>, sourceLocation: Vector,
                       sourceDirection: Vector): seq<TargetResult>
      reads this
      decreases |overlaps|
    {
      if |overlaps| == 0 then existing
      else
        var prev := Processed(existing, overlaps[..|overlaps| - 1], sourceLocation, sourceDirection);
        var o := overlaps[|overlaps| - 1];
        if Admits(o, sourceLocation) && !HasActor(prev, o.actor) then prev + [ResultFor(o, sourceLocation, sourceDirection)]
        else prev
    }

    /** The overlap at k is accepted and no earlier accepted overlap has its actor. */
    predicate FirstAdmitted(overlaps: seq<OverlapResult>, k: int, sourceLocation: Vector)
      reads this
      requires 0 <= k < |overlaps|
    {
      Admits(overlaps[k], sourceLocation)
      && forall k' :: 0 <= k' < k && Admits(overlaps[k'], sourceLocation) ==> overlaps[k'].actor != overlaps[k].actor
    }

    /** The result is the target result of the first accepted overlap with its actor. */
    predicate FromFirstAdmitted(r: TargetResult, overlaps: seq<OverlapResult>, sourceLocation: Vector, sourceDirection: Vector)
      reads this
    {
      exists k :: 0 <= k < |overlaps| && FirstAdmitted(overlaps, k, sourceLocation) && r == ResultFor(overlaps[k], sourceLocation, sourceDirection)
    }

    /**
     * Appends one target result per accepted overlap whose actor is not yet in
     * the result set, and returns how many it appended. The source location and
     * looking direction are supplied.
     */
    method ProcessOverlapResults(existing: seq<TargetResult>, overlaps: seq<OverlapResult>, sourceLocation: Vector,
                                 sourceDirection: Vector)
      returns (results: seq<TargetResult>, numValidResults: nat)
      ensures results == Processed(existing, overlaps, sourceLocation, sourceDirection)
      ensures |results| == |existing| + numValidResults
    {
      results := existing;
      numValidResults := 0;
      var k := 0;
      while k < |overlaps|
        invariant 0 <= k <= |overlaps|
        invariant results == Processed(existing, overlaps[..k], sourceLocation, sourceDirection)
        invariant |results| == |existing| + numValidResults
      {
        var o := overlaps[k];
        assert overlaps[..k + 1][..k] == overlaps[..k];
        if o.actor.Ref? && (shapeType != Cylinder || DistSquared2D(o.actorLocation, sourceLocation) <= halfExtent.x * halfExtent.x) {
          var index := IndexOfActor(results, o.actor);
          if index < 0 {
            numValidResults := numValidResults + 1;
            results := results + [ResultFor(o, sourceLocation, sourceDirection)];
          }
        }
        k := k + 1;
      }
      assert overlaps[..k] == overlaps;
    }
  }

  /** Some result in the set has the given actor. */
  predicate HasActor(results: seq<TargetResult>, actor: ObjRef)
  {
    exists j :: 0 <= j < |results| && results[j].actor == actor
  }

  /** The position of the first result whose actor is the given one, or -1 when there is none. */
  method IndexOfActor(results: seq<TargetResult>, actor: ObjRef) returns (index: int)
    ensures -1 <= index < |results|
    ensures index >= 0 ==> results[index].actor == actor && forall t :: 0 <= t < index ==> results[t].actor != actor
    ensures index < 0 ==> forall t :: 0 <= t < |results| ==> results[t].actor != actor
  {
    var t := 0;
    while t < |results|
      invariant 0 <= t <= |results|
      invariant forall t' :: 0 <= t' < t ==> results[t'].actor != actor
    {
      if results[t].actor == actor {
        return t;
      }
      t := t + 1;
    }
    return -1;
  }

  /** The post-processing only appends: the existing results stay in front, and no overlap means no change. */
  lemma {:induction false} ProcessedExtends(s: GraspTargetSelection, existing: seq<TargetResult>, overlaps: seq<OverlapResult>,
                                            loc: Vector, dir: Vector)
    ensures var rs := s.Processed(existing, overlaps, loc, dir);
            |rs| >= |existing| && rs[..|existing|] == existing && (|overlaps| == 0 ==> rs == existing)
    decreases |overlaps|
  {
    if |overlaps| > 0 {
      ProcessedExtends(s, existing, overlaps[..|overlaps| - 1], loc, dir);
    }
  }

  /** Every appended result is the target result of the first accepted overlap with its actor. */
  lemma {:induction false} ProcessedFromFirstAdmitted(s: GraspTargetSelection, existing: seq<TargetResult>,
                                                      overlaps: seq<OverlapResult>, loc: Vector, dir: Vector)
    ensures var rs := s.Processed(existing, overlaps, loc, dir);
            forall j :: |existing| <= j < |rs| ==> s.FromFirstAdmitted(rs[j], overlaps, loc, dir)
    decreases |overlaps|
  {
    var rs := s.Processed(existing, overlaps, loc, dir);
    if |overlaps| > 0 {
      var n := |overlaps| - 1;
      var init := overlaps[..n];
      var prev := s.Processed(existing, init, loc, dir);
      ProcessedFromFirstAdmitted(s, existing, init, loc, dir);
      ProcessedExtends(s, existing, init, loc, dir);
      forall j | |existing| <= j < |rs|
        ensures s.FromFirstAdmitted(rs[j], overlaps, loc, dir)
      {
        if j < |prev| {
          assert rs[j] == prev[j];
          FromFirstAdmittedInPrefix(s, overlaps, n, prev[j], loc, dir);
        } else {
          ProcessedNewActor(s, existing, overlaps, loc, dir);
          assert rs[j] == s.ResultFor(overlaps[n], loc, dir);
        }
      }
    }
  }

  /** A result that comes from the first accepted overlap of its actor in a prefix comes from it in the whole. */
  lemma FromFirstAdmittedInPrefix(s: GraspTargetSelection, overlaps: seq<OverlapResult>, n: nat, r: TargetResult, loc: Vector, dir: Vector)
    requires n <= |overlaps| && s.FromFirstAdmitted(r, overlaps[..n], loc, dir)
    ensures s.FromFirstAdmitted(r, overlaps, loc, dir)
  {
    var k :| 0 <= k < n && s.FirstAdmitted(overlaps[..n], k, loc) && r == s.ResultFor(overlaps[..n][k], loc, dir);
    FirstAdmittedInPrefix(s, overlaps, n, k, loc);
  }

  /** Being the first accepted overlap of its actor does not depend on the overlaps after it. */
  lemma FirstAdmittedInPrefix(s: GraspTargetSelection, overlaps: seq<OverlapResult>, n: nat, k: nat, loc: Vector)
    requires k < n <= |overlaps|
    ensures s.FirstAdmitted(overlaps[..n], k, loc) <==> s.FirstAdmitted(overlaps, k, loc)
    ensures overlaps[..n][k] == overlaps[k]
  {
    assert forall k' :: 0 <= k' <= k ==> overlaps[..n][k'] == overlaps[k'];
  }

  /** An overlap the last step appends is the first accepted one with its actor. */
  lemma ProcessedNewActor(s: GraspTargetSelection, existing: seq<TargetResult>, overlaps: seq<OverlapResult>, loc: Vector, dir: Vector)
    requires |overlaps| > 0
    requires var prev := s.Processed(existing, overlaps[..|overlaps| - 1], loc, dir);
             var o := overlaps[|overlaps| - 1];
             s.Admits(o, loc) && !HasActor(prev, o.actor)
    ensures s.FirstAdmitted(overlaps, |overlaps| - 1, loc)
  {
    var n := |overlaps| - 1;
    var init := overlaps[..n];
    forall k' | 0 <= k' < n && s.Admits(overlaps[k'], loc)
      ensures overlaps[k'].actor != overlaps[n].actor
    {
      assert init[k'] == overlaps[k'];
      ProcessedCovers(s, existing, init, loc, dir);
    }
  }

  /** Past the existing results, no two results share an actor. */
  lemma {:induction false} ProcessedDistinct(s: GraspTargetSelection, existing: seq<TargetResult>, overlaps: seq<OverlapResult>,
                                             loc: Vector, dir: Vector)
    ensures var rs := s.Processed(existing, overlaps, loc, dir);
            forall i, j :: 0 <= i < j < |rs| && |existing| <= j ==> rs[i].actor != rs[j].actor
    decreases |overlaps|
  {
    if |overlaps| > 0 {
      var prev := s.Processed(existing, overlaps[..|overlaps| - 1], loc, dir);
      ProcessedDistinct(s, existing, overlaps[..|overlaps| - 1], loc, dir);
      ProcessedExtends(s, existing, overlaps[..|overlaps| - 1], loc, dir);
    }
  }

  /** Every accepted overlap's actor ends up with a result. */
  lemma {:induction false} ProcessedCovers(s: GraspTargetSelection, existing: seq<TargetResult>, overlaps: seq<OverlapResult>,
                                           loc: Vector, dir: Vector)
    ensures var rs := s.Processed(existing, overlaps, loc, dir);
            forall k :: 0 <= k < |overlaps| && s.Admits(overlaps[k], loc) ==> HasActor(rs, overlaps[k].actor)
    decreases |overlaps|
  {
    var rs := s.Processed(existing, overlaps, loc, dir);
    if |overlaps| > 0 {
      var n := |overlaps| - 1;
      var init := overlaps[..n];
      var prev := s.Processed(existing, init, loc, dir);
      ProcessedCovers(s, existing, init, loc, dir);
      forall k | 0 <= k < |overlaps| && s.Admits(overlaps[k], loc)
        ensures HasActor(rs, overlaps[k].actor)
      {
        if k < n {
          assert init[k] == overlaps[k];
          var j :| 0 <= j < |prev| && prev[j].actor == overlaps[k].actor;
          assert rs[j] == prev[j];
        } else if rs != prev {
          assert rs[|prev|].actor == overlaps[n].actor;
        }
      }
    }
  }

  /** The first accepted overlap of an actor no existing result has is kept, as its own target result. */
  lemma {:induction false} ProcessedKeepsFirst(s: GraspTargetSelection, existing: seq<TargetResult>, overlaps: seq<OverlapResult>,
                                               loc: Vector, dir: Vector)
    ensures var rs := s.Processed(existing, overlaps, loc, dir);
            |existing| <= |rs|
            && forall k :: 0 <= k < |overlaps| && s.FirstAdmitted(overlaps, k, loc) && !HasActor(existing, overlaps[k].actor) ==>
              s.ResultFor(overlaps[k], loc, dir) in rs[|existing|..]
    decreases |overlaps|
  {
    var rs := s.Processed(existing, overlaps, loc, dir);
    ProcessedExtends(s, existing, overlaps, loc, dir);
    if |overlaps| > 0 {
      var n := |overlaps| - 1;
      var init := overlaps[..n];
      var prev := s.Processed(existing, init, loc, dir);
      ProcessedKeepsFirst(s, existing, init, loc, dir);
      ProcessedExtends(s, existing, init, loc, dir);
      forall k | 0 <= k < |overlaps| && s.FirstAdmitted(overlaps, k, loc) && !HasActor(existing, overlaps[k].actor)
        ensures s.ResultFor(overlaps[k], loc, dir) in rs[|existing|..]
      {
        if k < n {
          FirstAdmittedInPrefix(s, overlaps, n, k, loc);
          assert prev[|existing|..] <= rs[|existing|..];
        } else {
          NoEarlierResultForFirst(s, existing, overlaps, loc, dir);
          assert rs[|existing|..][|rs| - 1 - |existing|] == rs[|rs| - 1];
        }
      }
    }
  }

  /** Before the first accepted overlap of an actor no existing result has, no result has that actor. */
  lemma NoEarlierResultForFirst(s: GraspTargetSelection, existing: seq<TargetResult>, overlaps: seq<OverlapResult>, loc: Vector, dir: Vector)
    requires |overlaps| > 0 && s.FirstAdmitted(overlaps, |overlaps| - 1, loc) && !HasActor(existing, overlaps[|overlaps| - 1].actor)
    ensures !HasActor(s.Processed(existing, overlaps[..|overlaps| - 1], loc, dir), overlaps[|overlaps| - 1].actor)
  {
    var n := |overlaps| - 1;
    var init := overlaps[..n];
    var prev := s.Processed(existing, init, loc, dir);
    var o := overlaps[n];
    ProcessedExtends(s, existing, init, loc, dir);
    ProcessedFromFirstAdmitted(s, existing, init, loc, dir);
    forall j | 0 <= j < |prev|
      ensures prev[j].actor != o.actor
    {
      if j < |existing| {
        assert existing[j] == prev[j];
      } else {
        assert s.FromFirstAdmitted(prev[j], init, loc, dir);
        var k' :| 0 <= k' < n && s.FirstAdmitted(init, k', loc) && prev[j] == s.ResultFor(init[k'], loc, dir);
        FirstAdmittedInPrefix(s, overlaps, n, k', loc);
      }
    }
  }

  /** The ability radius is the mean horizontal extent of the very shape the overlap query uses. */
  lemma AbilityRadiusMatchesShape(s: GraspTargetSelection)
    ensures AbilityRadius(s.shapeType, s.halfExtent, s.radius, s.halfHeight) == MeanExtent(s.GetCollisionShape())
  {
  }
}
