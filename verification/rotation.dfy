/** `_rotate`: the node / inclination / periapsis rotation that carries
    orbital-plane coordinates into the reference frame. Angles enter as their
    cosine and sine, which is all the rotation uses. */
module Rotation {
  import opened Vectors

  /** An angle given by its cosine and sine. */
  datatype Angle = Angle(cos: real, sin: real)

  const ZeroAngle: Angle := Angle(1.0, 0.0)

  predicate Unit(t: Angle) {
    t.cos * t.cos + t.sin * t.sin == 1.0
  }

  /** The matrix used for the node and the periapsis angles. */
  function AboutZ(t: Angle): Mat3 {
    Mat3(Vec3(t.cos, t.sin, 0.0), Vec3(-t.sin, t.cos, 0.0), Vec3(0.0, 0.0, 1.0))
  }

  /** The matrix used for the inclination angle. */
  function AboutY(t: Angle): Mat3 {
    Mat3(Vec3(t.cos, 0.0, t.sin), Vec3(0.0, 1.0, 0.0), Vec3(-t.sin, 0.0, t.cos))
  }

  /** Each of the three matrices is orthogonal when cos^2 + sin^2 = 1. */
  lemma MatricesOrthogonal(t: Angle)
    requires Unit(t)
    ensures Orthogonal(AboutZ(t))
    ensures Orthogonal(AboutY(t))
  {
  }

  /** One row: `v.dot(long_asc_node).dot(incline).dot(periapsis)`. */
  function RotateRow(v: Vec3, omega: Angle, inc: Angle, w: Angle): Vec3 {
    VecMat(VecMat(VecMat(v, AboutZ(omega)), AboutY(inc)), AboutZ(w))
  }

  /** The inverse transform: the transposed matrices applied in reverse order. */
  function UnrotateRow(v: Vec3, omega: Angle, inc: Angle, w: Angle): Vec3 {
    VecMat(VecMat(VecMat(v, Transpose(AboutZ(w))), Transpose(AboutY(inc))), Transpose(AboutZ(omega)))
  }

  /** `_rotate(vec, Omega, inc, w)` on an (N, 3) array: one rotated row per input row. */
  function Rotate(vec: seq<Vec3>, omega: Angle, inc: Angle, w: Angle): (r: seq<Vec3>)
    ensures |r| == |vec|
  {
    seq(|vec|, i requires 0 <= i < |vec| => RotateRow(vec[i], omega, inc, w))
  }

  /** With unit angles every row keeps its length. */
  lemma RotatePreservesNorm(vec: seq<Vec3>, omega: Angle, inc: Angle, w: Angle)
    requires Unit(omega) && Unit(inc) && Unit(w)
    ensures var r := Rotate(vec, omega, inc, w);
      forall i :: 0 <= i < |r| ==> NormSq(r[i]) == NormSq(vec[i])
  {
    forall i | 0 <= i < |vec|
      ensures NormSq(Rotate(vec, omega, inc, w)[i]) == NormSq(vec[i])
    {
      RowKeepsNorm(vec[i], omega, inc, w);
    }
  }

  /** With all three angles zero the input comes back unchanged. */
  lemma RotateZeroIsIdentity(vec: seq<Vec3>)
    ensures Rotate(vec, ZeroAngle, ZeroAngle, ZeroAngle) == vec
  {
    var r := Rotate(vec, ZeroAngle, ZeroAngle, ZeroAngle);
    forall i | 0 <= i < |vec|
      ensures r[i] == vec[i]
    {
      assert AboutZ(ZeroAngle) == Identity && AboutY(ZeroAngle) == Identity;
      IdentityMul(vec[i]);
    }
  }

  lemma RowKeepsNorm(v: Vec3, omega: Angle, inc: Angle, w: Angle)
    requires Unit(omega) && Unit(inc) && Unit(w)
    ensures NormSq(RotateRow(v, omega, inc, w)) == NormSq(v)
  {
    MatricesOrthogonal(omega);
    MatricesOrthogonal(inc);
    MatricesOrthogonal(w);
    var a := VecMat(v, AboutZ(omega));
    var b := VecMat(a, AboutY(inc));
    OrthogonalPreservesNorm(v, AboutZ(omega));
    OrthogonalPreservesNorm(a, AboutY(inc));
    OrthogonalPreservesNorm(b, AboutZ(w));
  }

  lemma UndoAboutZ(v: Vec3, t: Angle)
    requires Unit(t)
    ensures VecMat(VecMat(v, AboutZ(t)), Transpose(AboutZ(t))) == v
  {
    MatricesOrthogonal(t);
    OrthogonalTransposeInverse(v, AboutZ(t));
  }

  lemma UndoAboutY(v: Vec3, t: Angle)
    requires Unit(t)
    ensures VecMat(VecMat(v, AboutY(t)), Transpose(AboutY(t))) == v
  {
    MatricesOrthogonal(t);
    OrthogonalTransposeInverse(v, AboutY(t));
  }

  lemma RowRoundTrip(v: Vec3, omega: Angle, inc: Angle, w: Angle)
    requires Unit(omega) && Unit(inc) && Unit(w)
    ensures UnrotateRow(RotateRow(v, omega, inc, w), omega, inc, w) == v
  {
    var a := VecMat(v, AboutZ(omega));
    var b := VecMat(a, AboutY(inc));
    UndoAboutZ(b, w);
    UndoAboutY(a, inc);
    UndoAboutZ(v, omega);
  }

  /** Undoing the rotation row by row recovers the orbital-plane coordinates. */
  lemma RotateRoundTrip(vec: seq<Vec3>, omega: Angle, inc: Angle, w: Angle)
    requires Unit(omega) && Unit(inc) && Unit(w)
    ensures var r := Rotate(vec, omega, inc, w);
      forall i :: 0 <= i < |vec| ==> UnrotateRow(r[i], omega, inc, w) == vec[i]
  {
    forall i | 0 <= i < |vec|
      ensures UnrotateRow(Rotate(vec, omega, inc, w)[i], omega, inc, w) == vec[i]
    {
      RowRoundTrip(vec[i], omega, inc, w);
    }
  }
}
