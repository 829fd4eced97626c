/**
 * The per-graspable data asset: which ability an interactor is granted, and the
 * angle, distance, height and tolerance limits of the interaction query.
 */
module GraspData {
  import opened GraspTypes

  /** FMath::IsNearlyZero with its default tolerance (1e-8). */
  const SmallNumber: real := 0.00000001

  predicate IsNearlyZero(x: real)
  {
    -SmallNumber <= x <= SmallNumber
  }

  datatype EGraspFocusMode = None | Focus | FocusAlways

  datatype GraspData = GraspData(
    graspAbility: AbilityClass,
    focusRequirement: EGraspFocusMode,
    maxGraspAngle: real,
    maxGraspDistance: real,
    maxHighlightDistance: real,
    maxHeightAbove: real,
    maxHeightBelow: real,
    normalizedGrantAbilityDistance: real,
    authNetToleranceAnglePct: real,
    authNetToleranceDistancePct: real,
    manualClearAbility: bool,
    grantAbilityDistance2D: bool,
    graspDistance2D: bool)
  {
    /** The ability granted to an interactor in range of this data's graspable. */
    function GetGraspAbility(): AbilityClass
    {
      graspAbility
    }

    /** The editor's clamp limits: an angle in [0, 360], non-negative distances and percentages, a grant distance in [0, 1]. */
    predicate WithinEditorLimits()
    {
      0.0 <= maxGraspAngle <= 360.0 && 0.0 <= maxGraspDistance && 0.0 <= maxHighlightDistance
      && 0.0 <= maxHeightAbove && 0.0 <= maxHeightBelow
      && 0.0 <= normalizedGrantAbilityDistance <= 1.0
      && 0.0 <= authNetToleranceAnglePct && 0.0 <= authNetToleranceDistancePct
    }

    /** The factor by which the angle limit grows on a networked authority. */
    function AuthNetToleranceAngleScalar(): (r: real)
      ensures authNetToleranceAnglePct >= 0.0 ==> r >= 1.0
      ensures r == 1.0 <==> authNetToleranceAnglePct == 0.0
    {
      1.0 + authNetToleranceAnglePct / 100.0
    }

    /** The factor by which distance and height limits grow on a networked authority. */
    function AuthNetToleranceDistanceScalar(): (r: real)
      ensures authNetToleranceDistancePct >= 0.0 ==> r >= 1.0
      ensures r == 1.0 <==> authNetToleranceDistancePct == 0.0
    {
      1.0 + authNetToleranceDistancePct / 100.0
    }
  }

  /** A freshly constructed data asset. */
  function DefaultGraspData(): (d: GraspData)
    ensures d.graspAbility == NoAbility && d.focusRequirement == EGraspFocusMode.None
    ensures d.maxGraspAngle == 360.0 && d.maxGraspDistance == 200.0 && d.maxHighlightDistance == 400.0
    ensures d.maxHeightAbove == 30.0 && d.maxHeightBelow == 30.0 && d.normalizedGrantAbilityDistance == 0.7
    ensures d.AuthNetToleranceAngleScalar() == 1.1 && d.AuthNetToleranceDistanceScalar() == 1.1
    ensures !d.manualClearAbility && !d.grantAbilityDistance2D && !d.graspDistance2D
    ensures d.WithinEditorLimits()
  {
    GraspData(NoAbility, EGraspFocusMode.None, 360.0, 200.0, 400.0, 30.0, 30.0, 0.7, 10.0, 10.0, false, false, false)
  }

  /** The property an editor change touched. */
  datatype EditedProperty = MaxGraspDistanceProperty | MaxHighlightDistanceProperty | OtherProperty(name: string)

  /** The data after an editor change: a nearly-zero highlight distance becomes 0, any other is raised to the grasp distance. */
  function Edited(d: GraspData, changed: EditedProperty): (r: GraspData)
    ensures changed.OtherProperty? ==> r == d
    ensures r == d.(maxHighlightDistance := r.maxHighlightDistance)
    ensures !changed.OtherProperty? ==>
              (r.maxHighlightDistance == 0.0 <==> IsNearlyZero(d.maxHighlightDistance) || (d.maxHighlightDistance <= 0.0 && d.maxGraspDistance == 0.0))
    ensures !changed.OtherProperty? && !IsNearlyZero(d.maxHighlightDistance) ==>
              r.maxHighlightDistance >= d.maxHighlightDistance && r.maxHighlightDistance >= d.maxGraspDistance
              && (r.maxHighlightDistance == d.maxHighlightDistance || r.maxHighlightDistance == d.maxGraspDistance)
  {
    if changed.OtherProperty? then d
    else if IsNearlyZero(d.maxHighlightDistance) then d.(maxHighlightDistance := 0.0)
    else if d.maxHighlightDistance >= d.maxGraspDistance then d
    else d.(maxHighlightDistance := d.maxGraspDistance)
  }

  datatype EDataValidationResult = Invalid | Valid | NotValidated

  datatype DataError = AngleNearlyZero | HighlightBelowGrasp

  datatype Validation = Validation(result: EDataValidationResult, error: Option<DataError>)

  /**
   * Asset validation: a nearly-zero angle is an error, so is a highlight distance that
   * is enabled (positive) but below the grasp distance; otherwise the base class decides.
   */
  function IsDataValid(d: GraspData, baseResult: EDataValidationResult): (v: Validation)
    ensures v.error == Some(AngleNearlyZero) <==> IsNearlyZero(d.maxGraspAngle)
    ensures v.error == Some(HighlightBelowGrasp) <==>
              !IsNearlyZero(d.maxGraspAngle) && 0.0 < d.maxHighlightDistance < d.maxGraspDistance
    ensures v.error.None? <==> v == Validation(baseResult, Option.None)
    ensures v.error.Some? ==> v.result == Invalid
  {
    if IsNearlyZero(d.maxGraspAngle) then Validation(Invalid, Some(AngleNearlyZero))
    else if d.maxHighlightDistance > 0.0 && d.maxHighlightDistance < d.maxGraspDistance then Validation(Invalid, Some(HighlightBelowGrasp))
    else Validation(baseResult, Option.None)
  }

  /** The default asset passes its own validation, leaving the verdict to the base class. */
  lemma DefaultDataIsValid(baseResult: EDataValidationResult)
    ensures IsDataValid(DefaultGraspData(), baseResult) == Validation(baseResult, Option.None)
  {
  }

  /** After an edit of either distance the highlight rule of validation holds, whatever the values were. */
  lemma EditSatisfiesHighlightRule(d: GraspData, changed: EditedProperty, baseResult: EDataValidationResult)
    requires !changed.OtherProperty?
    ensures IsDataValid(Edited(d, changed), baseResult).error != Some(HighlightBelowGrasp)
  {
  }

  /** Within the editor limits, repeating an edit changes nothing more. */
  lemma EditIsIdempotent(d: GraspData, changed: EditedProperty)
    requires d.WithinEditorLimits()
    ensures Edited(Edited(d, changed), changed) == Edited(d, changed)
  {
  }

  /** Outside the editor limits a second edit can still move the highlight distance. */
  lemma EditNotIdempotentOutsideLimits()
    ensures var d := DefaultGraspData().(maxGraspDistance := 0.000000001, maxHighlightDistance := -1.0);
            Edited(Edited(d, MaxGraspDistanceProperty), MaxGraspDistanceProperty) != Edited(d, MaxGraspDistanceProperty)
  {
  }

  /** A data asset that designers edit in place. */
  class GraspDataAsset {
    var data: GraspData

    constructor()
      ensures data == DefaultGraspData()
    {
      data := DefaultGraspData();
    }

    /** Reacts to an editor change of one property, keeping the highlight distance consistent. */
    method PostEditChangeProperty(changed: EditedProperty)
      modifies this
      ensures data == Edited(old(data), changed)
    {
      if changed == MaxGraspDistanceProperty || changed == MaxHighlightDistanceProperty {
        if IsNearlyZero(data.maxHighlightDistance) {
          data := data.(maxHighlightDistance := 0.0);
        } else {
          var m := if data.maxHighlightDistance >= data.maxGraspDistance then data.maxHighlightDistance else data.maxGraspDistance;
          data := data.(maxHighlightDistance := m);
        }
      }
    }
  }
}
