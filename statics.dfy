/**
 * The interaction query of the Grasp plugin: the distance, height and angle
 * gates, their composition into a None / Highlight / Interact verdict with
 * authority tolerance, the ability payload builder and the lookup of an
 * actor's grasp component.
 */
module GraspStatics {
  import opened GraspTypes
  import opened GraspData

  datatype Vector = Vector(x: real, y: real, z: real)

  function Sub(a: Vector, b: Vector): Vector
  {
    Vector(a.x - b.x, a.y - b.y, a.z - b.z)
  }

  function Dot(a: Vector, b: Vector): real
  {
    a.x * b.x + a.y * b.y + a.z * b.z
  }

  function Square(x: real): (r: real)
    ensures r >= 0.0
  {
    x * x
  }

  /** Squared distance in the horizontal plane. */
  function DistSquared2D(a: Vector, b: Vector): (r: real)
    ensures r >= 0.0
    ensures r == DistSquared(a, b.(z := a.z))
  {
    Square(a.x - b.x) + Square(a.y - b.y)
  }

  function DistSquared(a: Vector, b: Vector): (r: real)
    ensures r >= 0.0
  {
    Square(a.x - b.x) + Square(a.y - b.y) + Square(a.z - b.z)
  }

  /** The engine's value of pi. */
  const Pi: real := 3.1415926535897932

  function DegreesToRadians(degrees: real): real
  {
    degrees * (Pi / 180.0)
  }

  /**
   * The engine math the query relies on and that is not modelled here:
   * square root, arc cosine and the safe normalisations of a vector.
   */
  datatype EngineMath = EngineMath(
    sqrt: real -> real,
    acos: real -> real,
    safeNormal: Vector -> Vector,
    safeNormal2D: Vector -> Vector)
  {
    /** What the query needs of the engine: arc cosine lands in [0, pi] (its argument is clamped) and square root is exact. */
    ghost predicate Lawful()
    {
      (forall v :: 0.0 <= acos(v) <= Pi)
      && (forall v :: 0.0 <= v ==> 0.0 <= sqrt(v) && sqrt(v) * sqrt(v) == v)
    }

    function Dist(a: Vector, b: Vector): real
    {
      sqrt(DistSquared(a, b))
    }

    function Dist2D(a: Vector, b: Vector): real
    {
      sqrt(DistSquared2D(a, b))
    }
  }

  /** A lawful square root gives back the side of a square. */
  lemma SqrtOfSquare(m: EngineMath, a: real)
    requires m.Lawful() && a >= 0.0
    ensures m.sqrt(a * a) == a
  {
    var s := m.sqrt(a * a);
    assert 0.0 <= s && s * s == a * a;
    if s + a > 0.0 {
      assert (s + a) * (s - a) == s * s - a * a;
      ProductZero(s + a, s - a);
    }
  }

  /** A product with a positive factor is zero only when the other factor is. */
  lemma ProductZero(x: real, y: real)
    requires x > 0.0 && x * y == 0.0
    ensures y == 0.0
  {
    assert y == (x * y) / x;
  }

  /** Squaring is monotone on non-negative reals. */
  lemma SquareMonotone(a: real, b: real)
    requires 0.0 <= a <= b
    ensures Square(a) <= Square(b)
  {
    assert Square(b) - Square(a) == (b - a) * (b + a);
    assert (b - a) * (b + a) >= 0.0 by {
      assert b - a >= 0.0 && b + a >= 0.0;
    }
  }

  /** The distance gate: squared 2D or 3D distance against the squared limit. */
  function IsWithinInteractDistance(source: Vector, target: Vector, distance: real, check2D: bool := true): (b: bool)
    ensures check2D ==> (b <==> DistSquared(source, target.(z := source.z)) <= Square(distance))
    ensures b && distance == 0.0 ==> DistSquared2D(source, target) == 0.0
  {
    (if check2D then DistSquared2D(source, target) else DistSquared(source, target)) <= Square(distance)
  }

  /** The distance gate seen from the interactable: the same test with the arguments swapped. */
  function IsInteractableWithinDistance(interactable: Vector, interactor: Vector, distance: real, check2D: bool := true): (b: bool)
    ensures b == IsWithinInteractDistance(interactable, interactor, distance, check2D)
  {
    IsWithinInteractDistance(interactor, interactable, distance, check2D)
  }

  /** A point exactly at the limit passes: the boundary is inclusive. */
  lemma DistanceBoundaryInclusive(source: Vector, distance: real, check2D: bool)
    requires distance >= 0.0
    ensures IsWithinInteractDistance(source, source.(x := source.x + distance), distance, check2D)
    ensures !IsWithinInteractDistance(source, source.(x := source.x + distance + 1.0), distance, check2D)
  {
    var t := source.(x := source.x + distance + 1.0);
    assert DistSquared2D(source, t) == Square(distance + 1.0);
    assert Square(distance + 1.0) == Square(distance) + 2.0 * distance + 1.0;
  }

  /** The gate is monotone: a point no farther than one that passes passes too. */
  lemma DistanceGateMonotone(source: Vector, near: Vector, far: Vector, distance: real, check2D: bool)
    requires IsWithinInteractDistance(source, far, distance, check2D)
    requires check2D ==> DistSquared2D(source, near) <= DistSquared2D(source, far)
    requires !check2D ==> DistSquared(source, near) <= DistSquared(source, far)
    ensures IsWithinInteractDistance(source, near, distance, check2D)
  {
  }

  /** The height gate: the interactable may sit at most MaxHeightAbove above and MaxHeightBelow below the interactor. */
  function IsInteractableWithinHeight(interactable: Vector, interactor: Vector, maxHeightAbove: real, maxHeightBelow: real): (b: bool)
    ensures b <==> -maxHeightBelow <= interactable.z - interactor.z <= maxHeightAbove
  {
    var height := interactable.z - interactor.z;
    height >= -maxHeightBelow && height <= maxHeightAbove
  }

  /** Widening either height limit never turns a pass into a fail, and the plane position plays no part. */
  lemma HeightGateWidens(interactable: Vector, interactor: Vector, above: real, below: real, above': real, below': real, moved: Vector)
    requires IsInteractableWithinHeight(interactable, interactor, above, below)
    requires above <= above' && below <= below'
    ensures IsInteractableWithinHeight(interactable, interactor, above', below')
    ensures IsInteractableWithinHeight(moved.(z := interactable.z), interactor, above, below)
  {
  }

  /**
   * The angle gate: the arc cosine of Forward against the direction to the target
   * is compared with half the given degrees, or all of them when bHalfCircle is set.
   */
  function IsWithinInteractAngle(m: EngineMath, source: Vector, target: Vector, forward: Vector, degrees: real,
                                 check2D: bool := true, halfCircle: bool := false): (b: bool)
    ensures m.Lawful() && !halfCircle && degrees >= 360.0 ==> b
    ensures m.Lawful() && halfCircle && degrees >= 180.0 ==> b
    ensures m.Lawful() && degrees < 0.0 ==> !b
  {
    var diff := Sub(target, source);
    var dir := if check2D then m.safeNormal2D(diff) else m.safeNormal(diff);
    var radians := DegreesToRadians(degrees * (if halfCircle then 1.0 else 0.5));
    m.acos(Dot(forward, dir)) <= radians
  }

  /** The angle gate seen from the interactable, in 2D, on half the degrees. */
  function IsInteractableWithinAngle(m: EngineMath, interactable: Vector, interactor: Vector, forward: Vector, degrees: real): (b: bool)
    ensures b == IsWithinInteractAngle(m, interactor, interactable, forward, degrees, true, false)
    ensures m.Lawful() && degrees >= 360.0 ==> b
  {
    IsWithinInteractAngle(m, interactor, interactable, forward, degrees, true, false)
  }

  /** A wider angle never turns a pass into a fail. */
  lemma AngleGateWidens(m: EngineMath, source: Vector, target: Vector, forward: Vector, degrees: real, degrees': real,
                        check2D: bool, halfCircle: bool)
    requires IsWithinInteractAngle(m, source, target, forward, degrees, check2D, halfCircle)
    requires degrees <= degrees'
    ensures IsWithinInteractAngle(m, source, target, forward, degrees', check2D, halfCircle)
  {
  }

  datatype ENetMode = Standalone | DedicatedServer | ListenServer | Client

  /** What the query reads of the interacting actor. */
  datatype Interactor = Interactor(location: Vector, forward: Vector, hasAuthority: bool, netMode: ENetMode)

  /** What the query reads of the graspable component: its transform and its data, when it has any. */
  datatype GraspableView = GraspableView(location: Vector, forward: Vector, data: Option<GraspData>)

  /** Both the angle gate (2D, half the degrees) and the 2D distance gate, for a valid interactor. */
  function CanInteractWithinAngleAndDistance(m: EngineMath, interactor: Option<Interactor>, interactableLocation: Vector,
                                             degrees: real, distance: real): (b: bool)
    ensures b ==> interactor.Some?
    ensures b ==> IsWithinInteractDistance(interactor.value.location, interactableLocation, distance, true)
    ensures interactor.Some? && m.Lawful() && degrees >= 360.0 ==>
              (b <==> IsWithinInteractDistance(interactor.value.location, interactableLocation, distance, true))
  {
    match interactor
    case None => false
    case Some(i) =>
      IsInteractableWithinAngle(m, interactableLocation, i.location, i.forward, degrees)
      && IsInteractableWithinDistance(interactableLocation, i.location, distance)
  }

  /** The thresholds a query applies after authority tolerance. */
  datatype Limits = Limits(angle: real, distance: real, highlightDistance: real, heightAbove: real, heightBelow: real)

  /** Tolerance applies to a networked authority only. */
  predicate UsesTolerance(i: Interactor)
  {
    i.hasAuthority && i.netMode != Standalone
  }

  /** The data's limits, scaled by the tolerance scalars for a networked authority. */
  function EffectiveLimits(i: Interactor, d: GraspData): (l: Limits)
    ensures !UsesTolerance(i) ==>
              l == Limits(d.maxGraspAngle, d.maxGraspDistance, d.maxHighlightDistance, d.maxHeightAbove, d.maxHeightBelow)
    ensures UsesTolerance(i) ==>
              l.angle == d.maxGraspAngle * d.AuthNetToleranceAngleScalar()
              && l.distance == d.maxGraspDistance * d.AuthNetToleranceDistanceScalar()
              && l.highlightDistance == d.maxHighlightDistance * d.AuthNetToleranceDistanceScalar()
              && l.heightAbove == d.maxHeightAbove * d.AuthNetToleranceDistanceScalar()
              && l.heightBelow == d.maxHeightBelow * d.AuthNetToleranceDistanceScalar()
  {
    if UsesTolerance(i) then
      var s := d.AuthNetToleranceDistanceScalar();
      Limits(d.maxGraspAngle * d.AuthNetToleranceAngleScalar(), d.maxGraspDistance * s,
             d.maxHighlightDistance * s, d.maxHeightAbove * s, d.maxHeightBelow * s)
    else
      Limits(d.maxGraspAngle, d.maxGraspDistance, d.maxHighlightDistance, d.maxHeightAbove, d.maxHeightBelow)
  }

  /** Within the editor limits, tolerance only ever widens a threshold. */
  lemma ToleranceNeverStricter(i: Interactor, d: GraspData)
    requires d.WithinEditorLimits()
    ensures var local := EffectiveLimits(i.(hasAuthority := false), d);
            var l := EffectiveLimits(i, d);
            local.angle <= l.angle && local.distance <= l.distance && local.highlightDistance <= l.highlightDistance
            && local.heightAbove <= l.heightAbove && local.heightBelow <= l.heightBelow
  {
    var l := EffectiveLimits(i, d);
    if UsesTolerance(i) {
      var s := d.AuthNetToleranceDistanceScalar();
      assert d.maxGraspDistance <= d.maxGraspDistance * s;
      assert d.maxHighlightDistance <= d.maxHighlightDistance * s;
      assert d.maxHeightAbove <= d.maxHeightAbove * s;
      assert d.maxHeightBelow <= d.maxHeightBelow * s;
      assert d.maxGraspAngle <= d.maxGraspAngle * d.AuthNetToleranceAngleScalar();
    }
  }

  /**
   * Clamp(Numerator / Divisor, 0, 1) in single precision. A zero divisor gives
   * an infinity or NaN; the clamp maps +inf and NaN to 1 and -inf to 0.
   */
  function ClampedRatio(numerator: real, divisor: real): (r: real)
    ensures 0.0 <= r <= 1.0
    ensures divisor > 0.0 && 0.0 <= numerator <= divisor ==> r == numerator / divisor
    ensures divisor > 0.0 && numerator >= divisor ==> r == 1.0
  {
    if divisor == 0.0 then (if numerator < 0.0 then 0.0 else 1.0)
    else
      var q := numerator / divisor;
      if q < 0.0 then 0.0 else if q < 1.0 then q else 1.0
  }

  /** The query's verdict with its three normalised out-parameters. */
  datatype QueryOutcome = QueryOutcome(result: EGraspQueryResult, normalizedAngleDiff: real, normalizedDistance: real,
                                       normalizedHighlightDistance: real)

  const NoOutcome := QueryOutcome(EGraspQueryResult.None, 0.0, 0.0, 0.0)

  /** The interactor is inside the grasp distance (2D) of a valid graspable with data. */
  predicate InGraspRange(i: Interactor, g: GraspableView)
    requires g.data.Some?
  {
    IsInteractableWithinDistance(g.location, i.location, EffectiveLimits(i, g.data.value).distance)
  }

  /** The interactor is outside the grasp distance but inside an enabled highlight distance (2D). */
  predicate InHighlightRange(i: Interactor, g: GraspableView)
    requires g.data.Some?
  {
    var l := EffectiveLimits(i, g.data.value);
    !InGraspRange(i, g) && l.highlightDistance > 0.0
    && IsInteractableWithinDistance(g.location, i.location, l.highlightDistance)
  }

  /** The distance the normalised grasp distance is measured by: 2D or 3D as the graspable's data says. */
  function GraspDistance(m: EngineMath, i: Interactor, g: GraspableView): real
    requires g.data.Some?
  {
    if g.data.value.graspDistance2D then m.Dist2D(g.location, i.location) else m.Dist(g.location, i.location)
  }

  /** All three interaction gates pass. */
  predicate PassesAllGates(m: EngineMath, i: Interactor, g: GraspableView)
    requires g.data.Some?
  {
    var l := EffectiveLimits(i, g.data.value);
    InGraspRange(i, g)
    && IsInteractableWithinAngle(m, g.location, i.location, g.forward, l.angle)
    && IsInteractableWithinHeight(g.location, i.location, l.heightAbove, l.heightBelow)
  }

  /**
   * Classifies an interactor against a graspable component: Interact when the
   * 2D distance, angle and height gates all pass; Highlight when only the
   * highlight distance is reached; None otherwise.
   */
  function CanInteractWith(m: EngineMath, interactor: Option<Interactor>, component: Option<GraspableView>): (q: QueryOutcome)
    ensures interactor.None? || component.None? || component.value.data.None? ==> q == NoOutcome
    ensures 0.0 <= q.normalizedAngleDiff <= 1.0 && 0.0 <= q.normalizedDistance <= 1.0
    ensures 0.0 <= q.normalizedHighlightDistance <= 1.0
    ensures q.result == Interact <==>
              interactor.Some? && component.Some? && component.value.data.Some?
              && PassesAllGates(m, interactor.value, component.value)
    ensures q.result == Highlight <==>
              interactor.Some? && component.Some? && component.value.data.Some?
              && InHighlightRange(interactor.value, component.value)
    ensures q.result == Highlight ==> q.normalizedAngleDiff == 0.0 && q.normalizedDistance == 0.0
    ensures q.result != Highlight ==> q.normalizedHighlightDistance == 0.0
    ensures interactor.Some? && component.Some? && component.value.data.Some? ==>
              var i, g := interactor.value, component.value;
              var l := EffectiveLimits(i, g.data.value);
              (q.result == Highlight ==> q.normalizedHighlightDistance == ClampedRatio(m.Dist2D(g.location, i.location), l.highlightDistance))
              && (!InGraspRange(i, g) ==> q.normalizedDistance == 0.0 && q.normalizedAngleDiff == 0.0)
              && (InGraspRange(i, g) ==> q.normalizedDistance == ClampedRatio(GraspDistance(m, i, g), l.distance))
              && (InGraspRange(i, g) && IsInteractableWithinAngle(m, g.location, i.location, g.forward, l.angle) ==>
                    q.normalizedAngleDiff == ClampedRatio(m.Dist2D(g.location, i.location), l.angle))
              && (InGraspRange(i, g) && !IsInteractableWithinAngle(m, g.location, i.location, g.forward, l.angle) ==>
                    q.normalizedAngleDiff == 0.0)
  {
    if interactor.None? || component.None? || component.value.data.None? then NoOutcome
    else
      var i := interactor.value;
      var g := component.value;
      var d := g.data.value;
      var l := EffectiveLimits(i, d);
      if !IsInteractableWithinDistance(g.location, i.location, l.distance) then
        if l.highlightDistance > 0.0 && IsInteractableWithinDistance(g.location, i.location, l.highlightDistance) then
          QueryOutcome(Highlight, 0.0, 0.0, ClampedRatio(m.Dist2D(g.location, i.location), l.highlightDistance))
        else NoOutcome
      else
        var normalizedDistance := ClampedRatio(GraspDistance(m, i, g), l.distance);
        if !IsInteractableWithinAngle(m, g.location, i.location, g.forward, l.angle) then
          QueryOutcome(EGraspQueryResult.None, 0.0, normalizedDistance, 0.0)
        else
          var normalizedAngleDiff := ClampedRatio(m.Dist2D(g.location, i.location), l.angle);
          if !IsInteractableWithinHeight(g.location, i.location, l.heightAbove, l.heightBelow) then
            QueryOutcome(EGraspQueryResult.None, normalizedAngleDiff, normalizedDistance, 0.0)
          else
            QueryOutcome(Interact, normalizedAngleDiff, normalizedDistance, 0.0)
  }

  /** A standalone interactor at the origin facing +X, and a default-data graspable at distance d along X. */
  function LocalInteractor(): Interactor
  {
    Interactor(Vector(0.0, 0.0, 0.0), Vector(1.0, 0.0, 0.0), false, Standalone)
  }

  function DefaultGraspableAt(d: real): GraspableView
  {
    GraspableView(Vector(d, 0.0, 0.0), Vector(1.0, 0.0, 0.0), Some(DefaultGraspData()))
  }

  /**
   * With the default data, a graspable 150 units away can be interacted with at
   * normalised distance 0.75; its normalised angle difference is the 2D distance
   * over the angle limit in degrees, 150 / 360.
   */
  lemma DefaultDataInteractsAt150(m: EngineMath)
    requires m.Lawful()
    ensures CanInteractWith(m, Some(LocalInteractor()), Some(DefaultGraspableAt(150.0)))
            == QueryOutcome(Interact, 150.0 / 360.0, 0.75, 0.0)
  {
    var g := DefaultGraspableAt(150.0);
    var i := LocalInteractor();
    assert DistSquared(g.location, i.location) == 150.0 * 150.0;
    SqrtOfSquare(m, 150.0);
  }

  /** With the default data, a graspable 300 units away is only highlighted, at normalised highlight distance 0.75. */
  lemma DefaultDataHighlightsAt300(m: EngineMath)
    requires m.Lawful()
    ensures CanInteractWith(m, Some(LocalInteractor()), Some(DefaultGraspableAt(300.0)))
            == QueryOutcome(Highlight, 0.0, 0.0, 0.75)
  {
    var g := DefaultGraspableAt(300.0);
    var i := LocalInteractor();
    assert DistSquared2D(g.location, i.location) == 300.0 * 300.0;
    SqrtOfSquare(m, 300.0);
  }

  /** With the default data, a graspable 500 units away yields nothing. */
  lemma DefaultDataIgnoresAt500(m: EngineMath)
    ensures CanInteractWith(m, Some(LocalInteractor()), Some(DefaultGraspableAt(500.0))) == NoOutcome
  {
    var g := DefaultGraspableAt(500.0);
    assert DistSquared2D(g.location, LocalInteractor().location) == 250000.0;
  }

  /**
   * A networked authority is never stricter than a local player: whatever a
   * local query lets through for interaction, the authority's query does too.
   */
  lemma AuthorityNeverStricter(m: EngineMath, i: Interactor, g: GraspableView)
    requires g.data.Some? && g.data.value.WithinEditorLimits()
    requires CanInteractWith(m, Some(i.(hasAuthority := false)), Some(g)).result == Interact
    ensures CanInteractWith(m, Some(i), Some(g)).result == Interact
  {
    var local := i.(hasAuthority := false);
    var d := g.data.value;
    var lo := EffectiveLimits(local, d);
    var l := EffectiveLimits(i, d);
    ToleranceNeverStricter(i, d);
    assert lo.distance >= 0.0;
    SquareMonotone(lo.distance, l.distance);
    AngleGateWidens(m, i.location, g.location, g.forward, lo.angle, l.angle, true, false);
  }

  /**
   * Candidates are scanned nearest first: once one falls outside both the grasp
   * and the highlight distance, every candidate at least as far away (2D) is
   * rejected as well.
   */
  lemma FartherCandidatesRejected(m: EngineMath, i: Interactor, near: GraspableView, far: GraspableView)
    requires near.data.Some? && near.data == far.data
    requires CanInteractWith(m, Some(i), Some(near)).result == EGraspQueryResult.None && !InGraspRange(i, near)
    requires DistSquared2D(i.location, near.location) <= DistSquared2D(i.location, far.location)
    ensures CanInteractWith(m, Some(i), Some(far)) == NoOutcome
  {
  }

  /** A reference to gameplay ability target data. */
  type TargetDataRef = nat

  /** The gameplay event payload handed to a triggered ability. */
  datatype GameplayEventData = GameplayEventData(optionalObject: ObjRef, targetData: seq<TargetDataRef>)

  const EmptyPayload := GameplayEventData(NullRef, [])

  /**
   * Resets the payload, then for the event-data and automatic sources fills it
   * with the graspable and every piece of optional target data, in order. The
   * target data is what the graspable gathers; the graspable is dereferenced
   * unconditionally unless the source is Custom.
   */
  method PrepareGraspAbilityDataPayload(graspableComponent: ObjRef, optionalTargetData: seq<TargetDataRef>,
                                        source: EGraspAbilityComponentSource)
    returns (ok: bool, payload: GameplayEventData)
    requires source == Custom || graspableComponent.Ref?
    ensures ok <==> source != Custom && !(|optionalTargetData| == 0 && source == Automatic)
    ensures ok ==> payload == GameplayEventData(graspableComponent, optionalTargetData)
    ensures !ok ==> payload == EmptyPayload
  {
    payload := EmptyPayload;
    if source == Custom {
      return false, payload;
    }
    if |optionalTargetData| == 0 && source == Automatic {
      return false, payload;
    }
    payload := payload.(optionalObject := graspableComponent);
    var i := 0;
    while i < |optionalTargetData|
      invariant 0 <= i <= |optionalTargetData|
      invariant payload == GameplayEventData(graspableComponent, optionalTargetData[..i])
    {
      payload := payload.(targetData := payload.targetData + [optionalTargetData[i]]);
      i := i + 1;
    }
    assert optionalTargetData[..i] == optionalTargetData;
    ok := true;
  }

  datatype ENetRole = None | SimulatedProxy | AutonomousProxy | Authority

  /** A controller, with the grasp component found on it (NullRef when it has none). */
  datatype ControllerView = ControllerView(graspComponent: ObjRef)

  /** The kinds of actor the lookup distinguishes. */
  datatype ActorKind =
    | ControllerActor(self: ControllerView)
    | PawnActor(controller: Option<ControllerView>)
    | PlayerStateActor(owningController: Option<ControllerView>)
    | OtherActor

  datatype ActorView = ActorView(localRole: ENetRole, kind: ActorKind)

  /** The controller that owns an actor: itself, its pawn's controller, or its player state's owning controller. */
  function OwningController(kind: ActorKind): Option<ControllerView>
  {
    match kind
    case ControllerActor(c) => Some(c)
    case PawnActor(c) => c
    case PlayerStateActor(c) => c
    case OtherActor => Option.None
  }

  /**
   * The grasp component of the controller that owns the actor; nothing for an
   * invalid actor, a simulated proxy (which has no controller) or an actor of
   * any other kind.
   */
  function FindGraspComponentForActor(actor: Option<ActorView>): (c: ObjRef)
    ensures actor.None? ==> c == NullRef
    ensures actor.Some? && actor.value.localRole == SimulatedProxy ==> c == NullRef
    ensures actor.Some? && actor.value.localRole != SimulatedProxy && OwningController(actor.value.kind).Some? ==>
              c == OwningController(actor.value.kind).value.graspComponent
    ensures c != NullRef ==> actor.Some? && OwningController(actor.value.kind).Some?
  {
    if actor.None? then NullRef
    else if actor.value.localRole == SimulatedProxy then NullRef
    else match actor.value.kind
      case ControllerActor(c) => c.graspComponent
      case PawnActor(c) => if c.Some? then c.value.graspComponent else NullRef
      case PlayerStateActor(c) => if c.Some? then c.value.graspComponent else NullRef
      case OtherActor => NullRef
  }
}
