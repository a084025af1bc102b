/** `Trajectory.separation_vec`: the vector from the spacecraft to another
    object at every timestep, with numpy's row broadcasting between an
    `N x 3` and an `M x 3` coordinate array. */
module Trajectory {
  import opened Wrappers
  import opened Vectors

  /** Another object's coordinates: one fixed point (a SkyCoord without a
      length, which broadcasts to every row) or one point per timestep. */
  datatype Track = Fixed(point: Vec3) | Series(points: seq<Vec3>)

  /** The subtraction of an `M x 3` array from an `N x 3` one cannot broadcast. */
  datatype ShapeError = ShapeMismatch(rows: nat, otherRows: nat)

  /** numpy broadcasting of two row counts: equal counts pair up, a single
      row stretches to the other count, anything else fails. */
  function BroadcastRows(n: nat, m: nat): (r: Option<nat>)
    ensures r.Some? <==> n == m || n == 1 || m == 1
    ensures r.Some? && n != 1 ==> r.value == n
    ensures r.Some? && m != 1 ==> r.value == m
  {
    if n == m then Some(n)
    else if n == 1 then Some(m)
    else if m == 1 then Some(n)
    else None
  }

  /** Row `i` of an array that broadcasts to more rows than it has is its only row. */
  function RowAt(rows: seq<Vec3>, i: nat): Vec3
    requires |rows| > 0
  {
    if |rows| == 1 then rows[0] else if i < |rows| then rows[i] else rows[0]
  }

  /** `other - self`, row by row. */
  function Separation(self: seq<Vec3>, other: Track): (r: Result<seq<Vec3>, ShapeError>)
    ensures other.Fixed? ==> r == Success(seq(|self|, i requires 0 <= i < |self| => Sub(other.point, self[i])))
    ensures other.Series? ==> (r.Success? <==> BroadcastRows(|self|, |other.points|).Some?)
    ensures other.Series? && r.Success? ==> |r.value| == BroadcastRows(|self|, |other.points|).value
    ensures other.Series? && r.Success? ==> forall i :: 0 <= i < |r.value| ==>
      r.value[i] == Sub(RowAt(other.points, i), RowAt(self, i))
  {
    match other
    case Fixed(p) =>
      Success(seq(|self|, i requires 0 <= i < |self| => Sub(p, self[i])))
    case Series(ps) =>
      match BroadcastRows(|self|, |ps|)
      case None => Failure(ShapeMismatch(|self|, |ps|))
      case Some(n) =>
        Success(seq(n, i requires 0 <= i < n => Sub(RowAt(ps, i), RowAt(self, i))))
  }

  /** The separation of a trajectory from itself is zero at every timestep. */
  lemma SeparationSelf(self: seq<Vec3>)
    ensures Separation(self, Series(self)) == Success(seq(|self|, i => Zero))
  {
    var r := Separation(self, Series(self)).value;
    forall i | 0 <= i < |self|
      ensures r[i] == Zero
    {
      SubSelf(self[i]);
    }
    assert r == seq(|self|, i => Zero);
  }

  /** A fixed point behaves as a series repeating it once per timestep, and
      as a one-row series. */
  lemma FixedBroadcast(self: seq<Vec3>, p: Vec3)
    ensures Separation(self, Fixed(p)) == Separation(self, Series(seq(|self|, i => p)))
    ensures |self| > 0 ==> Separation(self, Fixed(p)) == Separation(self, Series([p]))
  {
    var f := Separation(self, Fixed(p)).value;
    var reps := seq(|self|, i => p);
    var s := Separation(self, Series(reps)).value;
    assert |s| == |f|;
    forall i | 0 <= i < |f|
      ensures s[i] == f[i]
    {
      assert RowAt(reps, i) == p;
    }
    assert s == f;
    if |self| > 0 {
      var one := Separation(self, Series([p])).value;
      assert |one| == |f|;
      forall i | 0 <= i < |f|
        ensures one[i] == f[i]
      {
      }
      assert one == f;
    }
  }

  /** Swapping the two arrays negates every separation. */
  lemma SeparationAntisymmetric(a: seq<Vec3>, b: seq<Vec3>)
    requires BroadcastRows(|a|, |b|).Some?
    ensures var ab := Separation(a, Series(b)).value;
      var ba := Separation(b, Series(a)).value;
      |ab| == |ba| && forall i :: 0 <= i < |ab| ==> ab[i] == Scale(-1.0, ba[i])
  {
  }

  /** A mismatched series is rejected, and only then. */
  lemma SeparationFails(self: seq<Vec3>, ps: seq<Vec3>)
    ensures Separation(self, Series(ps)).Failure? <==> |self| != |ps| && |self| != 1 && |ps| != 1
  {
  }
}
