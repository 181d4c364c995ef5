/** Three-component vectors over the reals: one row of the (N, 3) numpy arrays that hold
    positions, velocities and forces. Arithmetic is exact; floating-point rounding is not
    modelled. */
module Vectors {

  datatype Vec3 = Vec3(x: real, y: real, z: real)

  const Zero: Vec3 := Vec3(0.0, 0.0, 0.0)

  function Add(a: Vec3, b: Vec3): Vec3 {
    Vec3(a.x + b.x, a.y + b.y, a.z + b.z)
  }

  function Sub(a: Vec3, b: Vec3): Vec3 {
    Vec3(a.x - b.x, a.y - b.y, a.z - b.z)
  }

  function Neg(a: Vec3): Vec3 {
    Vec3(-a.x, -a.y, -a.z)
  }

  function Scale(c: real, a: Vec3): Vec3 {
    Vec3(c * a.x, c * a.y, c * a.z)
  }

  /** Component-wise division by a scalar, as numpy broadcasts `a / c`. */
  function Div(a: Vec3, c: real): Vec3
    requires c != 0.0
  {
    Vec3(a.x / c, a.y / c, a.z / c)
  }

  function Dot(a: Vec3, b: Vec3): real {
    a.x * b.x + a.y * b.y + a.z * b.z
  }

  /** Sum of the first k rows of s (numpy's `sum(axis=0)` over a prefix). */
  function SumTo(s: seq<Vec3>, k: nat): Vec3
    requires k <= |s|
  {
    if k == 0 then Zero else Add(SumTo(s, k - 1), s[k - 1])
  }

  function Sum(s: seq<Vec3>): Vec3 {
    SumTo(s, |s|)
  }

  lemma ScaleDistributesOverSub(c: real, a: Vec3, b: Vec3)
    ensures Scale(c, Sub(a, b)) == Sub(Scale(c, a), Scale(c, b))
  {
  }

  lemma ScaleDistributesOverScalarSum(c: real, d: real, a: Vec3)
    ensures Scale(c + d, a) == Add(Scale(c, a), Scale(d, a))
  {
  }
}
