/** Three-component vectors and points over the reals, standing in for the
    host's `MVector` / `MPoint`: `*` between vectors is the dot product and
    `^` the cross product there. */
module Vectors {
  import opened RealAlgebra

  datatype Vec3 = Vec3(x: real, y: real, z: real)

  const Zero: Vec3 := Vec3(0.0, 0.0, 0.0)

  function Add(a: Vec3, b: Vec3): Vec3 {
    Vec3(a.x + b.x, a.y + b.y, a.z + b.z)
  }

  function Sub(a: Vec3, b: Vec3): Vec3 {
    Vec3(a.x - b.x, a.y - b.y, a.z - b.z)
  }

  function Scale(a: Vec3, k: real): Vec3 {
    Vec3(a.x * k, a.y * k, a.z * k)
  }

  function Dot(a: Vec3, b: Vec3): real {
    a.x * b.x + a.y * b.y + a.z * b.z
  }

  function Cross(a: Vec3, b: Vec3): Vec3 {
    Vec3(a.y * b.z - a.z * b.y, a.z * b.x - a.x * b.z, a.x * b.y - a.y * b.x)
  }

  /** The square root is not constructible over `real`, so every computation
      that needs one receives it as a parameter satisfying this predicate. */
  ghost predicate IsSqrt(sqrt: real -> real) {
    forall v {:trigger sqrt(v)} :: 0.0 <= v ==> 0.0 <= sqrt(v) && sqrt(v) * sqrt(v) == v
  }

  lemma DotSelfNonNegative(a: Vec3)
    ensures Dot(a, a) >= 0.0
  {
    assert a.x * a.x >= 0.0 && a.y * a.y >= 0.0 && a.z * a.z >= 0.0;
  }

  /** `MVector::length()`. */
  function Length(a: Vec3, sqrt: real -> real): (r: real)
    requires IsSqrt(sqrt)
    ensures r >= 0.0 && r * r == Dot(a, a)
  {
    DotSelfNonNegative(a);
    sqrt(Dot(a, a))
  }

  /** `MVector::normal()`: the vector divided by its length; a vector of
      length zero is returned unchanged. */
  function Normal(a: Vec3, sqrt: real -> real): (r: Vec3)
    requires IsSqrt(sqrt)
    ensures Dot(a, a) != 0.0 ==> Dot(r, r) == 1.0
    ensures Dot(a, a) != 0.0 ==> Scale(r, Length(a, sqrt)) == a
    ensures Dot(a, a) == 0.0 ==> r == a
  {
    var len := Length(a, sqrt);
    if len == 0.0 then
      a
    else
      UnitAfterDivide(a, len);
      assert Scale(Scale(a, 1.0 / len), len) == a;
      Scale(a, 1.0 / len)
  }

  lemma UnitAfterDivide(a: Vec3, len: real)
    requires len > 0.0 && len * len == Dot(a, a)
    ensures Dot(Scale(a, 1.0 / len), Scale(a, 1.0 / len)) == 1.0
  {
    var k := 1.0 / len;
    calc {
      Dot(Scale(a, k), Scale(a, k));
      (a.x * a.x + a.y * a.y + a.z * a.z) * (k * k);
      (len * len) * (k * k);
      (len * k) * (len * k);
      { assert len * k == 1.0; }
      1.0;
    }
  }

  /** A cross product is perpendicular to its second operand. */
  lemma CrossPerpendicularRight(a: Vec3, b: Vec3)
    ensures Dot(Cross(a, b), b) == 0.0
  {
  }

  /** The linear part of a host matrix, rows `r0`, `r1`, `r2`; a vector
      multiplies it on the left as in `v * M`. */
  datatype Mat3 = Mat3(r0: Vec3, r1: Vec3, r2: Vec3)

  /** An affine host matrix: linear part plus the translation row. */
  datatype Affine = Affine(linear: Mat3, offset: Vec3)

  /** `MVector * MMatrix`: directions ignore the translation row. */
  function MulVector(v: Vec3, m: Mat3): Vec3 {
    Add(Add(Scale(m.r0, v.x), Scale(m.r1, v.y)), Scale(m.r2, v.z))
  }

  /** `MPoint * MMatrix`: points take the translation row as well. */
  function MulPoint(p: Vec3, m: Affine): Vec3 {
    Add(MulVector(p, m.linear), m.offset)
  }
}
