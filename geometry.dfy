/**
 * The value types of the mesh model: a 3D vector and a triangle.
 * Coordinates are mathematical reals; single-precision rounding is not modelled.
 */
module Geometry {

  /** A point or direction with three coordinates; copied by value. */
  datatype Vector3 = Vector3(x: real, y: real, z: real)

  /** The default-constructed vector (all three coordinates 0). */
  const Zero: Vector3 := Vector3(0.0, 0.0, 0.0)

  /**
   * `a += b`: the value the receiver `a` holds afterwards.
   * Each coordinate of `b` is added to the same coordinate of `a`.
   */
  function Add(a: Vector3, b: Vector3): (r: Vector3)
    ensures Sub(r, a) == b
  {
    Vector3(a.x + b.x, a.y + b.y, a.z + b.z)
  }

  /**
   * `v /= s`: the value the receiver `v` holds afterwards.
   * Each coordinate is divided by the scalar, which must not be zero.
   */
  function DivScalar(v: Vector3, s: real): (r: Vector3)
    requires s != 0.0
    ensures r.x * s == v.x && r.y * s == v.y && r.z * s == v.z
  {
    Vector3(v.x / s, v.y / s, v.z / s)
  }

  /** `v` lies in the axis-aligned box `lo`..`hi`, bounds included. */
  predicate Within(v: Vector3, lo: Vector3, hi: Vector3)
  {
    lo.x <= v.x <= hi.x && lo.y <= v.y <= hi.y && lo.z <= v.z <= hi.z
  }

  /** The edge vector from `a` to `b`, as the normal computation forms it. */
  function Sub(b: Vector3, a: Vector3): (r: Vector3)
    ensures a.x + r.x == b.x && a.y + r.y == b.y && a.z + r.z == b.z
  {
    Vector3(b.x - a.x, b.y - a.y, b.z - a.z)
  }

  /** The cross product `e1 x e2`. */
  function Cross(e1: Vector3, e2: Vector3): Vector3
  {
    Vector3(e1.y * e2.z - e1.z * e2.y,
            e1.z * e2.x - e1.x * e2.z,
            e1.x * e2.y - e1.y * e2.x)
  }

  /** The dot product; `Dot(v, v)` is the squared length of `v`. */
  function Dot(a: Vector3, b: Vector3): real
  {
    a.x * b.x + a.y * b.y + a.z * b.z
  }

  /** The cross product is perpendicular to both of its operands. */
  lemma CrossIsPerpendicular(e1: Vector3, e2: Vector3)
    ensures Dot(Cross(e1, e2), e1) == 0.0
    ensures Dot(Cross(e1, e2), e2) == 0.0
  {
  }

  /** Crossing a vector with itself, or with the zero edge, gives the zero vector. */
  lemma CrossDegenerate(e: Vector3)
    ensures Cross(e, e) == Zero && Cross(Zero, e) == Zero && Cross(e, Zero) == Zero
  {
  }

  /**
   * A triangle: three vertex indices (unsigned in the source) and a normal,
   * which the constructor leaves as the zero vector.
   */
  datatype Face = Face(v1: nat, v2: nat, v3: nat, normal: Vector3)

  /** The three-index constructor: corners stored in the given order, normal zero. */
  function MakeFace(v1: nat, v2: nat, v3: nat): (f: Face)
    ensures f.v1 == v1 && f.v2 == v2 && f.v3 == v3
    ensures f.normal == Zero
  {
    Face(v1, v2, v3, Zero)
  }

  /** True when two of the three corners are the same vertex. */
  predicate Degenerate(f: Face)
  {
    f.v1 == f.v2 || f.v2 == f.v3 || f.v3 == f.v1
  }

  /** True when every corner of `f` is an index below `n`. */
  predicate IndicesBelow(f: Face, n: nat)
  {
    f.v1 < n && f.v2 < n && f.v3 < n
  }
}
