/**
 * Character components shared by the battle systems: the faction tag, the
 * attribute kinds and the two shapes an attribute can take. Entities of the
 * engine's world are plain numbers.
 */
module Character {

  /** An entity handle of the engine's world. */
  type Entity = nat

  datatype Group = Player | Enemy

  datatype CharacterCategory = Human | Fungus

  datatype AttributeType = HitPoints | Attack | Defense

  /** `Value` is an unbounded scalar; `Gauge` is clamped to `[min, max]` when it changes. */
  datatype Attribute = Value(v: int) | Gauge(value: int, min: int, max: int)

  /** A gauge whose bounds are ordered, which `i32::clamp` demands before it clamps. */
  predicate BoundsOrdered(a: Attribute)
  {
    a.Gauge? ==> a.min <= a.max
  }

  /** `i32::clamp`: panics unless `lo <= hi`. */
  function Clamp(n: int, lo: int, hi: int): (r: int)
    requires lo <= hi
    ensures lo <= r <= hi
    ensures lo <= n <= hi ==> r == n
    ensures n < lo ==> r == lo
    ensures hi < n ==> r == hi
  {
    if n < lo then lo else if hi < n then hi else n
  }

  /**
   * The attribute-change rule of a `ChangeAttribute` effect: a `Value` loses
   * exactly `potency` with no bound, a `Gauge` loses it and is clamped back
   * into its bounds, which themselves do not move.
   */
  function ChangeAttribute(a: Attribute, potency: int): (r: Attribute)
    requires BoundsOrdered(a)
    ensures a.Value? ==> r.Value? && a.v - r.v == potency
    ensures a.Gauge? ==> r.Gauge? && r.min == a.min && r.max == a.max
    ensures a.Gauge? ==> r.min <= r.value <= r.max
    ensures a.Gauge? && a.min <= a.value - potency <= a.max ==> r.value == a.value - potency
    ensures a.Gauge? && a.value - potency < a.min ==> r.value == a.min
    ensures a.Gauge? && a.max < a.value - potency ==> r.value == a.max
    ensures BoundsOrdered(r)
  {
    match a
    case Value(v) => Value(v - potency)
    case Gauge(value, min, max) => Gauge(Clamp(value - potency, min, max), min, max)
  }
}
