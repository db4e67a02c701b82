/**
 * Positions, texture coordinates and affine transforms (glam's `Vec2`,
 * `Vec3` and `Mat4`). Components are exact reals rather than 32-bit floats;
 * every property proved about the crate's logic is combinatorial and uses
 * only equality, the welding tolerance and the sign of a determinant.
 */
module Linalg {
  datatype Vec2 = Vec2(x: real, y: real)

  datatype Vec3 = Vec3(x: real, y: real, z: real)

  const Zero2 := Vec2(0.0, 0.0)

  /**
   * A 4x4 matrix whose bottom row is (0, 0, 0, 1): the three rows of its
   * linear part and its translation column. Every matrix the crate builds
   * (sub-file transforms, texture placements, their products) has this form.
   */
  datatype Mat4 = Mat4(row0: Vec3, row1: Vec3, row2: Vec3, translation: Vec3)

  const Identity := Mat4(Vec3(1.0, 0.0, 0.0), Vec3(0.0, 1.0, 0.0), Vec3(0.0, 0.0, 1.0), Vec3(0.0, 0.0, 0.0))

  function Dot(a: Vec3, b: Vec3): real {
    a.x * b.x + a.y * b.y + a.z * b.z
  }

  function Column(m: Mat4, j: nat): Vec3
    requires j < 3
  {
    if j == 0 then Vec3(m.row0.x, m.row1.x, m.row2.x)
    else if j == 1 then Vec3(m.row0.y, m.row1.y, m.row2.y)
    else Vec3(m.row0.z, m.row1.z, m.row2.z)
  }

  function RowTimes(r: Vec3, b: Mat4): Vec3 {
    Vec3(Dot(r, Column(b, 0)), Dot(r, Column(b, 1)), Dot(r, Column(b, 2)))
  }

  /** The matrix product `a * b`: first `b`, then `a`. */
  function Mul(a: Mat4, b: Mat4): Mat4 {
    Mat4(RowTimes(a.row0, b), RowTimes(a.row1, b), RowTimes(a.row2, b),
         Vec3(Dot(a.row0, b.translation) + a.translation.x,
              Dot(a.row1, b.translation) + a.translation.y,
              Dot(a.row2, b.translation) + a.translation.z))
  }

  /** `Mat4::transform_point3`. */
  function TransformPoint(m: Mat4, v: Vec3): Vec3 {
    Vec3(Dot(m.row0, v) + m.translation.x, Dot(m.row1, v) + m.translation.y, Dot(m.row2, v) + m.translation.z)
  }

  function Determinant(m: Mat4): real {
    m.row0.x * (m.row1.y * m.row2.z - m.row1.z * m.row2.y)
    - m.row0.y * (m.row1.x * m.row2.z - m.row1.z * m.row2.x)
    + m.row0.z * (m.row1.x * m.row2.y - m.row1.y * m.row2.x)
  }

  /** A transform that mirrors space (negative determinant) turns a face's winding around. */
  predicate IsMirroring(m: Mat4) {
    Determinant(m) < 0.0
  }

  function DistanceSquared(a: Vec3, b: Vec3): real {
    (a.x - b.x) * (a.x - b.x) + (a.y - b.y) * (a.y - b.y) + (a.z - b.z) * (a.z - b.z)
  }

  /** The welding distance, in LDraw units. */
  const WeldEpsilon: real := 0.01

  /** Two positions within the welding distance of each other (rstar's squared-distance query). */
  predicate Close(a: Vec3, b: Vec3) {
    DistanceSquared(a, b) <= WeldEpsilon * WeldEpsilon
  }

  /** Every position is close to itself, so welding the same point twice reuses it. */
  lemma CloseReflexive(a: Vec3)
    ensures Close(a, a)
  {
  }
}
