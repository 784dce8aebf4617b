/**
 * Three-dimensional points and displacements. Positions are modelled with `real`
 * components: the floating-point behaviour of numpy is not part of the model.
 */
module Geometry {
  datatype Vec3 = Vec3(x: real, y: real, z: real)

  const Zero := Vec3(0.0, 0.0, 0.0)

  /** Component-wise `a - b`, numpy's `ann[p] - ann[c]` on two rows of shape (3,). */
  function Sub(a: Vec3, b: Vec3): Vec3 {
    Vec3(a.x - b.x, a.y - b.y, a.z - b.z)
  }

  /** Component-wise `a + b`. */
  function Add(a: Vec3, b: Vec3): Vec3 {
    Vec3(a.x + b.x, a.y + b.y, a.z + b.z)
  }
}
