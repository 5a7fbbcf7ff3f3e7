/**
 * The numbers a motion file carries. A JavaScript number is modelled as an
 * exact real or NaN; rounding, infinities and negative zero are not modelled.
 * `parseFloat` and `parseInt` are not defined here: every parsing function
 * takes them as a `NumberSyntax` parameter, so any choice of them is covered.
 */
module Numbers {
  import opened Wrappers

  datatype Num = Finite(value: real) | NaN

  /** JavaScript `a + b`: NaN absorbs everything. */
  function Add(a: Num, b: Num): Num
  {
    if a.Finite? && b.Finite? then Finite(a.value + b.value) else NaN
  }

  /** `Math.PI`, as a real. */
  const Pi: real := 3.141592653589793

  /** `v * Math.PI / 180`: degrees to radians. */
  function DegToRad(v: Num): Num
  {
    match v
    case Finite(d) => Finite(d * Pi / 180.0)
    case NaN => NaN
  }

  /** A half turn in degrees is Pi radians. */
  lemma HalfTurnIsPi()
    ensures DegToRad(Finite(180.0)) == Finite(Pi)
    ensures DegToRad(Finite(0.0)) == Finite(0.0)
  {
  }

  const Zero: Num := Finite(0.0)

  /** A `THREE.Vector3`, as a plain triple. */
  datatype Vec3 = Vec3(x: Num, y: Num, z: Num)

  /** What `new THREE.Vector3()` and `set(0, 0, 0)` produce. */
  const Origin: Vec3 := Vec3(Zero, Zero, Zero)

  /** `a.addSelf(b)`: component-wise sum. */
  function AddVec(a: Vec3, b: Vec3): Vec3
  {
    Vec3(Add(a.x, b.x), Add(a.y, b.y), Add(a.z, b.z))
  }

  /** Adding a vector to the origin gives that vector back, NaN components included. */
  lemma OriginIsNeutral(v: Vec3)
    ensures AddVec(Origin, v) == v
  {
  }

  /**
   * The platform's number parsers, left abstract. `parseInt` yields `None`
   * where JavaScript yields NaN.
   */
  datatype NumberSyntax = NumberSyntax(parseFloat: string -> Num, parseInt: string -> Option<int>)

  /** `parseFloat(fields[k])`; a missing field is `undefined`, which parses to NaN. */
  function FloatField(syntax: NumberSyntax, fields: seq<string>, k: nat): Num
  {
    if k < |fields| then syntax.parseFloat(fields[k]) else NaN
  }

  /** `parseInt(fields[k])`; a missing field parses to NaN, here `None`. */
  function IntField(syntax: NumberSyntax, fields: seq<string>, k: nat): Option<int>
  {
    if k < |fields| then syntax.parseInt(fields[k]) else None
  }
}
