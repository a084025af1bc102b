/** Real three-vectors and 3x3 matrices with numpy's row-vector convention:
    `v.dot(M)` multiplies the row vector `v` by `M` on the right. */
module Vectors {

  datatype Vec3 = Vec3(x: real, y: real, z: real)

  /** A matrix given by its three rows. */
  datatype Mat3 = Mat3(r0: Vec3, r1: Vec3, r2: Vec3)

  const Zero: Vec3 := Vec3(0.0, 0.0, 0.0)

  const Identity: Mat3 := Mat3(Vec3(1.0, 0.0, 0.0), Vec3(0.0, 1.0, 0.0), Vec3(0.0, 0.0, 1.0))

  function Add(a: Vec3, b: Vec3): Vec3 {
    Vec3(a.x + b.x, a.y + b.y, a.z + b.z)
  }

  function Sub(a: Vec3, b: Vec3): Vec3 {
    Vec3(a.x - b.x, a.y - b.y, a.z - b.z)
  }

  function Scale(k: real, a: Vec3): Vec3 {
    Vec3(k * a.x, k * a.y, k * a.z)
  }

  function Dot(a: Vec3, b: Vec3): real {
    a.x * b.x + a.y * b.y + a.z * b.z
  }

  function Cross(a: Vec3, b: Vec3): Vec3 {
    Vec3(a.y * b.z - a.z * b.y, a.z * b.x - a.x * b.z, a.x * b.y - a.y * b.x)
  }

  /** The squared Euclidean length, the argument `np.linalg.norm` takes the root of. */
  function NormSq(a: Vec3): real {
    Dot(a, a)
  }

  /** Row vector times matrix: `v.dot(M)`. */
  function VecMat(v: Vec3, m: Mat3): Vec3 {
    Add(Add(Scale(v.x, m.r0), Scale(v.y, m.r1)), Scale(v.z, m.r2))
  }

  function Transpose(m: Mat3): Mat3 {
    Mat3(Vec3(m.r0.x, m.r1.x, m.r2.x), Vec3(m.r0.y, m.r1.y, m.r2.y), Vec3(m.r0.z, m.r1.z, m.r2.z))
  }

  /** Rows of unit length that are pairwise perpendicular. */
  predicate Orthogonal(m: Mat3) {
    && NormSq(m.r0) == 1.0 && NormSq(m.r1) == 1.0 && NormSq(m.r2) == 1.0
    && Dot(m.r0, m.r1) == 0.0 && Dot(m.r0, m.r2) == 0.0 && Dot(m.r1, m.r2) == 0.0
  }

  lemma SubSelf(a: Vec3)
    ensures Sub(a, a) == Zero
  {
  }

  /** Dotting a product `v.dot(M)` with `z` is linear in the rows of `M`. */
  lemma DotVecMat(v: Vec3, m: Mat3, z: Vec3)
    ensures Dot(VecMat(v, m), z) == v.x * Dot(m.r0, z) + v.y * Dot(m.r1, z) + v.z * Dot(m.r2, z)
  {
    var p := VecMat(v, m);
    assert p == Vec3(v.x * m.r0.x + v.y * m.r1.x + v.z * m.r2.x,
                     v.x * m.r0.y + v.y * m.r1.y + v.z * m.r2.y,
                     v.x * m.r0.z + v.y * m.r1.z + v.z * m.r2.z);
    SumTimes(v, m.r0.x, m.r1.x, m.r2.x, z.x);
    SumTimes(v, m.r0.y, m.r1.y, m.r2.y, z.y);
    SumTimes(v, m.r0.z, m.r1.z, m.r2.z, z.z);
  }

  lemma SumTimes(v: Vec3, a: real, b: real, c: real, k: real)
    ensures (v.x * a + v.y * b + v.z * c) * k == v.x * (a * k) + v.y * (b * k) + v.z * (c * k)
  {
  }

  /** Multiplying by an orthogonal matrix keeps the squared length of a row vector. */
  lemma OrthogonalPreservesNorm(v: Vec3, m: Mat3)
    requires Orthogonal(m)
    ensures NormSq(VecMat(v, m)) == NormSq(v)
  {
    var w := VecMat(v, m);
    DotVecMat(v, m, m.r0);
    DotVecMat(v, m, m.r1);
    DotVecMat(v, m, m.r2);
    assert Dot(w, m.r0) == v.x && Dot(w, m.r1) == v.y && Dot(w, m.r2) == v.z;
    DotVecMat(v, m, w);
    assert Dot(m.r0, w) == Dot(w, m.r0) && Dot(m.r1, w) == Dot(w, m.r1) && Dot(m.r2, w) == Dot(w, m.r2);
  }

  /** For an orthogonal matrix the transpose undoes the multiplication. */
  lemma OrthogonalTransposeInverse(v: Vec3, m: Mat3)
    requires Orthogonal(m)
    ensures VecMat(VecMat(v, m), Transpose(m)) == v
  {
    var w := VecMat(v, m);
    DotVecMat(v, m, m.r0);
    DotVecMat(v, m, m.r1);
    DotVecMat(v, m, m.r2);
    assert VecMat(w, Transpose(m)) == Vec3(Dot(w, m.r0), Dot(w, m.r1), Dot(w, m.r2));
  }

  lemma IdentityMul(v: Vec3)
    ensures VecMat(v, Identity) == v
  {
  }
}
