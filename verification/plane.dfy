/**
 Points and vectors of the sensor's two-dimensional cross-section, and the
 floating-point tolerance the boundary predicates are widened by.
 */
module Plane {

  /** A position (x across the strips, y into the bulk) or a field/velocity vector. */
  datatype Vec2 = Vec2(x: real, y: real)

  function Neg(v: Vec2): Vec2
  {
    Vec2(-v.x, -v.y)
  }

  function Scale(k: real, v: Vec2): Vec2
  {
    Vec2(k * v.x, k * v.y)
  }

  function Sub(a: Vec2, b: Vec2): Vec2
  {
    Vec2(a.x - b.x, a.y - b.y)
  }

  function Dot(a: Vec2, b: Vec2): real
  {
    a.x * b.x + a.y * b.y
  }

  /** `std::abs` on a double. */
  function Abs(r: real): (a: real)
    ensures 0.0 <= a
    ensures a == r || a == -r
  {
    if r < 0.0 then -r else r
  }

  /**
   The tolerance `DOLFIN_EPS`. The model keeps it abstract: every predicate takes
   it as a parameter and every property is proved for each positive value.
   */
  type Tolerance = e: real | 0.0 < e witness 1.0

  /** The value dolfin's constants header gives `DOLFIN_EPS`, used by worked examples. */
  const DolfinEps: Tolerance := 0.0000000000000003
}
