/**
 * Value types shared by the Grasp plugin: object references, gameplay tags,
 * ability classes and ability handles, the scan result exchanged between the
 * scan task and the component, and the plugin's enumerations.
 */
module GraspTypes {

  datatype Option<+T> = None | Some(value: T)

  /**
   * An engine object (actor, component, controller) by identity. NullRef is
   * nullptr. A weak reference holds the same identity; whether it still
   * resolves is decided by the set of live object ids the caller supplies.
   */
  datatype ObjRef = NullRef | Ref(id: nat)

  /** IsValid() on a weak or raw object pointer. */
  predicate IsValidRef(r: ObjRef, alive: set<nat>)
  {
    r.Ref? && r.id in alive
  }

  /** A gameplay tag; EmptyTag is the only tag for which IsValid() is false. */
  datatype GameplayTag = EmptyTag | Tag(name: string)
  {
    predicate IsValid() { Tag? }
  }

  /** A gameplay ability class (a subclass reference); NoAbility is nullptr. */
  datatype AbilityClass = NoAbility | Ability(classId: nat)

  /** An ability spec handle: invalid by default, otherwise an id issued by the ability system. */
  datatype SpecHandle = InvalidHandle | Handle(id: nat)
  {
    predicate IsValid() { Handle? }
  }

  /** A targeting request handle issued by the targeting subsystem. */
  datatype RequestHandle = RequestHandle(id: nat)

  /**
   * The value of a single-precision division whose numerator is a distance
   * (never negative): finite, or +infinity / NaN when the divisor is zero.
   */
  datatype FloatValue = Finite(value: real) | PosInf | NaN

  /** `Numerator / Divisor` as the engine's floats compute it, for Numerator >= 0. */
  function FloatDiv(numerator: real, divisor: real): (r: FloatValue)
    requires numerator >= 0.0
    ensures divisor != 0.0 ==> r == Finite(numerator / divisor)
    ensures divisor == 0.0 ==> (r == PosInf <==> numerator > 0.0) && (r == NaN <==> numerator == 0.0)
  {
    if divisor != 0.0 then Finite(numerator / divisor)
    else if numerator > 0.0 then PosInf
    else NaN
  }

  /** `Value > Threshold` under IEEE comparison: +inf is greater, NaN compares false. */
  predicate FloatGreater(v: FloatValue, threshold: real)
  {
    match v
    case Finite(x) => x > threshold
    case PosInf => true
    case NaN => false
  }

  /** Where the gameplay ability system component is taken from when a payload is prepared. */
  datatype EGraspAbilityComponentSource = EventData | Automatic | Custom

  /** Which actor a scan traces from. */
  datatype EGraspTargetingSource = Pawn | PawnIfValid | Controller

  /** The outcome of an interaction query. */
  datatype EGraspQueryResult = None | Highlight | Interact

  /**
   * One graspable found by a scan: the preset tag that found it, the graspable
   * component (a weak reference) and its distance normalised by the scan's
   * grant radius.
   */
  datatype ScanResult = ScanResult(scanTag: GameplayTag, graspable: ObjRef, normalizedScanDistance: FloatValue)

  /** A default-constructed scan result. */
  function DefaultScanResult(): (r: ScanResult)
    ensures !r.scanTag.IsValid() && r.graspable == NullRef
    ensures r.normalizedScanDistance == Finite(0.0)
  {
    ScanResult(EmptyTag, NullRef, Finite(0.0))
  }

  /** Scan-result equality: only the graspable's identity takes part. */
  predicate SameResult(a: ScanResult, b: ScanResult)
  {
    a.graspable == b.graspable
  }

  /** TArray::Contains under scan-result equality. */
  predicate ContainsResult(s: seq<ScanResult>, r: ScanResult)
  {
    exists i :: 0 <= i < |s| && SameResult(s[i], r)
  }

  /** Scan-result equality is an equivalence that ignores the tag and the distance. */
  lemma SameResultIsIdentity(a: ScanResult, b: ScanResult, c: ScanResult)
    ensures SameResult(a, a)
    ensures SameResult(a, b) ==> SameResult(b, a)
    ensures SameResult(a, b) && SameResult(b, c) ==> SameResult(a, c)
    ensures SameResult(a, a.(scanTag := b.scanTag, normalizedScanDistance := b.normalizedScanDistance))
    ensures !SameResult(a, b) <==> a.graspable != b.graspable
  {
  }

  /** A result list contains every result whose graspable appears in it, whatever its tag or distance. */
  lemma ContainsByGraspable(s: seq<ScanResult>, r: ScanResult)
    ensures ContainsResult(s, r) <==> r.graspable in set i | 0 <= i < |s| :: s[i].graspable
  {
    if ContainsResult(s, r) {
      var i :| 0 <= i < |s| && SameResult(s[i], r);
      assert s[i].graspable in set j | 0 <= j < |s| :: s[j].graspable;
    }
  }

  /** Removes every occurrence of x (TArray::Remove), keeping the order of the rest. */
  function Without(s: seq<ObjRef>, x: ObjRef): (r: seq<ObjRef>)
    ensures forall y :: y in r <==> y in s && y != x
    ensures |r| <= |s|
  {
    if |s| == 0 then []
    else if s[0] == x then Without(s[1..], x)
    else [s[0]] + Without(s[1..], x)
  }

  /** Removes every reference that no longer resolves (RemoveAll of invalid weak pointers). */
  function Pruned(s: seq<ObjRef>, alive: set<nat>): (r: seq<ObjRef>)
    ensures forall y :: y in r <==> y in s && IsValidRef(y, alive)
    ensures |r| <= |s|
  {
    if |s| == 0 then []
    else if !IsValidRef(s[0], alive) then Pruned(s[1..], alive)
    else [s[0]] + Pruned(s[1..], alive)
  }
}
