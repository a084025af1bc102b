/** `EllipticalOrbit` and `CircularOrbit`: Keplerian elements and a time grid
    in, radius, anomalies, position and velocity series out. Angles are in
    radians and times in seconds since an arbitrary origin. */
module Orbit {
  import opened Wrappers
  import opened Vectors
  import opened Rotation
  import opened Trig
  import opened RealArith

  /** Universal gravitation constant, N m^2 / kg^2. */
  const G: real := 0.0000000000667259

  /** Default central-body mass (Earth), kg. */
  const MEarth: real := 5972190000000000000000000.0

  /** The documented domain of the orbit classes: elliptical or circular only. */
  predicate EllipticShape(a: real, e: real) {
    a > 0.0 && 0.0 <= e < 1.0
  }

  // ---------------------------------------------------------------------------
  // Apsides and the orbit equation

  /** `Ra = a(1-e)` and `Rp = a(1+e)`. The first is labelled the apoapsis
      radius, yet for any non-negative eccentricity it is the smaller one. */
  function Apsides(a: real, e: real): (radii: (real, real))
    ensures radii.0 + radii.1 == 2.0 * a
    ensures radii.1 - radii.0 == 2.0 * a * e
    ensures a > 0.0 && e >= 0.0 ==> radii.0 <= radii.1
  {
    (a * (1.0 - e), a * (1.0 + e))
  }

  /** `1 + e cos x` lies in [1-e, 1+e]; it is positive on the elliptic domain. */
  lemma DenominatorBounds(e: real, c: real)
    requires 0.0 <= e < 1.0 && -1.0 <= c <= 1.0
    ensures 1.0 - e <= 1.0 + e * c <= 1.0 + e
    ensures 1.0 - e <= 1.0 - e * c <= 1.0 + e
  {
    MulNonneg(e, 1.0 - c);
    MulNonneg(e, 1.0 + c);
  }

  /** `r_t = a(1-e^2) / (1 + e cos v)`: the denominator is positive and the
      radius stays between the two apsis radii. */
  function OrbitRadius(a: real, e: real, cosV: real): (r: real)
    requires EllipticShape(a, e) && -1.0 <= cosV <= 1.0
    ensures 1.0 + e * cosV > 0.0
    ensures Apsides(a, e).0 <= r <= Apsides(a, e).1
    ensures r > 0.0
  {
    OrbitRadiusBounds(a, e, cosV);
    a * (1.0 - e * e) / (1.0 + e * cosV)
  }

  lemma OrbitRadiusBounds(a: real, e: real, cosV: real)
    requires EllipticShape(a, e) && -1.0 <= cosV <= 1.0
    ensures 1.0 + e * cosV > 0.0
    ensures Apsides(a, e).0 <= a * (1.0 - e * e) / (1.0 + e * cosV) <= Apsides(a, e).1
    ensures a * (1.0 - e * e) / (1.0 + e * cosV) > 0.0
  {
    DenominatorBounds(e, cosV);
    var d := 1.0 + e * cosV;
    assert 1.0 - e <= d <= 1.0 + e;
    RadiusBetweenApsides(a, e, d);
  }

  lemma RadiusBetweenApsides(a: real, e: real, d: real)
    requires EllipticShape(a, e) && 1.0 - e <= d <= 1.0 + e
    ensures a * (1.0 - e) <= a * (1.0 - e * e) / d <= a * (1.0 + e)
    ensures a * (1.0 - e) > 0.0
    ensures a * (1.0 - e * e) / d > 0.0
  {
    var r := a * (1.0 - e * e) / d;
    var lo, hi := a * (1.0 - e), a * (1.0 + e);
    MulPos(a, 1.0 - e);
    MulPos(a, 1.0 + e);
    QuotientTimesDivisor(a * (1.0 - e * e), d);
    assert r * d == lo * (1.0 + e);
    assert r * d == hi * (1.0 - e);
    MulNonneg(hi, d - (1.0 - e));
    CancelPos(r, hi, d);
    MulNonneg(lo, (1.0 + e) - d);
    CancelPos(lo, r, d);
  }

  // ---------------------------------------------------------------------------
  // The arccos arguments

  /** The argument of the arccos that gives the eccentric anomaly at epoch,
      `(e + cos v0) / (1 + e cos v0)`: never outside [-1, 1] on the elliptic
      domain, so that arccos is always defined there. */
  function EpochCosArg(e: real, cosV: real): (x: real)
    requires 0.0 <= e < 1.0 && -1.0 <= cosV <= 1.0
    ensures -1.0 <= x <= 1.0
  {
    EpochCosArgBounds(e, cosV);
    (e + cosV) / (1.0 + e * cosV)
  }

  lemma EpochCosArgBounds(e: real, c: real)
    requires 0.0 <= e < 1.0 && -1.0 <= c <= 1.0
    ensures 1.0 + e * c > 0.0
    ensures -1.0 <= (e + c) / (1.0 + e * c) <= 1.0
  {
    DenominatorBounds(e, c);
    var d := 1.0 + e * c;
    MulNonneg(1.0 - e, 1.0 - c);
    MulNonneg(1.0 + e, 1.0 + c);
    assert -d <= e + c <= d;
    QuotientInUnitRange(e + c, d);
  }

  /** The argument of the arccos that gives the true anomaly from the
      eccentric one, `(cos E - e) / (1 - e cos E)`: also never outside [-1, 1]. */
  function TrueCosArg(e: real, cosE: real): (x: real)
    requires 0.0 <= e < 1.0 && -1.0 <= cosE <= 1.0
    ensures -1.0 <= x <= 1.0
  {
    TrueCosArgBounds(e, cosE);
    (cosE - e) / (1.0 - e * cosE)
  }

  lemma TrueCosArgBounds(e: real, c: real)
    requires 0.0 <= e < 1.0 && -1.0 <= c <= 1.0
    ensures 1.0 - e * c > 0.0
    ensures -1.0 <= (c - e) / (1.0 - e * c) <= 1.0
  {
    DenominatorBounds(e, c);
    var d := 1.0 - e * c;
    MulNonneg(1.0 + e, 1.0 - c);
    MulNonneg(1.0 - e, 1.0 + c);
    assert -d <= c - e <= d;
    QuotientInUnitRange(c - e, d);
  }

  /** The two conversions are inverse: going from cos v to cos E with the
      epoch formula and back with the high-fidelity formula returns cos v. */
  lemma CosArgsInverse(e: real, c: real)
    requires 0.0 <= e < 1.0 && -1.0 <= c <= 1.0
    ensures TrueCosArg(e, EpochCosArg(e, c)) == c
  {
    DenominatorBounds(e, c);
    var d := 1.0 + e * c;
    var k := EpochCosArg(e, c);
    assert k * d == e + c;
    assert (k - e) * d == c * (1.0 - e * e);
    assert (1.0 - e * k) * d == 1.0 - e * e;
    var q := TrueCosArg(e, k);
    assert q * (1.0 - e * k) == k - e;
    assert q * (1.0 - e * e) == c * (1.0 - e * e) by {
      calc {
        q * (1.0 - e * e);
        q * ((1.0 - e * k) * d);
        (q * (1.0 - e * k)) * d;
        (k - e) * d;
      }
    }
    MulPos(1.0 - e, 1.0 + e);
    CancelNonzero(q, c, 1.0 - e * e);
  }

  // ---------------------------------------------------------------------------
  // Mean anomaly and the anomaly solvers

  /** `M_t = n (t - t[0]) + M_0`. An empty grid has no `t[0]`: `None`. */
  function MeanAnomaly(n: real, m0: real, t: seq<real>): (mt: Option<seq<real>>)
    ensures mt.Some? <==> |t| > 0
    ensures mt.Some? ==> |mt.value| == |t| && mt.value[0] == m0
  {
    if |t| == 0 then None
    else Some(seq(|t|, i requires 0 <= i < |t| => n * (t[i] - t[0]) + m0))
  }

  /** The mean anomaly is linear in time: between any two grid points it
      advances by the mean motion times the elapsed time. */
  lemma MeanAnomalyLinear(n: real, m0: real, t: seq<real>)
    requires |t| > 0
    ensures var mt := MeanAnomaly(n, m0, t).value;
      forall i, j :: 0 <= i < |t| && 0 <= j < |t| ==> mt[i] - mt[j] == n * (t[i] - t[j])
  {
    var mt := MeanAnomaly(n, m0, t).value;
    forall i, j | 0 <= i < |t| && 0 <= j < |t|
      ensures mt[i] - mt[j] == n * (t[i] - t[j])
    {
      assert mt[i] - mt[j] == n * (t[i] - t[0]) - n * (t[j] - t[0]);
    }
  }

  /** With a positive mean motion the mean anomaly grows with time. */
  lemma MeanAnomalyIncreasing(n: real, m0: real, t: seq<real>, i: nat, j: nat)
    requires n > 0.0 && i < j < |t| && t[i] < t[j]
    ensures MeanAnomaly(n, m0, t).value[i] < MeanAnomaly(n, m0, t).value[j]
  {
    var mt := MeanAnomaly(n, m0, t).value;
    MeanAnomalyLinear(n, m0, t);
    assert mt[j] - mt[i] == n * (t[j] - t[i]);
    MulPos(n, t[j] - t[i]);
  }

  /** A root finder for Kepler's equation `E - e sin E = M`, started from a
      seed: `solve(e, M, seed)`. Its convergence is not modelled. */
  type Solver = (real, real, real) -> real

  /** The continuation scan of `_calc_E`: solve `i` is seeded with the answer
      of solve `i - 1`, the first one with the given seed. */
  function SolveChain(solve: Solver, e: real, m: seq<real>, seed: real): (es: seq<real>)
    ensures |es| == |m|
    decreases |m|
  {
    if |m| == 0 then []
    else
      var first := solve(e, m[0], seed);
      [first] + SolveChain(solve, e, m[1..], first)
  }

  /** Each answer of the scan is the solver applied to its mean anomaly and
      the previous answer. */
  lemma {:induction false} SolveChainSeeds(solve: Solver, e: real, m: seq<real>, seed: real)
    ensures var es := SolveChain(solve, e, m, seed);
      && (|m| > 0 ==> es[0] == solve(e, m[0], seed))
      && forall i :: 1 <= i < |m| ==> es[i] == solve(e, m[i], es[i - 1])
    decreases |m|
  {
    if |m| > 0 {
      var first := solve(e, m[0], seed);
      SolveChainSeeds(solve, e, m[1..], first);
    }
  }

  /** The answer at step `i` depends only on the mean anomalies up to `i`:
      the scan over a prefix of the grid is the prefix of the scan. */
  lemma {:induction false} SolveChainPrefix(solve: Solver, e: real, m: seq<real>, seed: real, k: nat)
    requires k <= |m|
    ensures SolveChain(solve, e, m[..k], seed) == SolveChain(solve, e, m, seed)[..k]
    decreases k
  {
    if k > 0 {
      var first := solve(e, m[0], seed);
      assert m[..k][1..] == m[1..][..k - 1];
      SolveChainPrefix(solve, e, m[1..], first, k - 1);
    }
  }

  /** `_calc_E(M, E_0, e)`. `M[0]` of an empty array raises: `None`. */
  method CalcE(solve: Solver, m: seq<real>, e0: real, e: real) returns (es: Option<seq<real>>)
    ensures es.Some? <==> |m| > 0
    ensures es.Some? ==> |es.value| == |m| && es.value[0] == solve(e, m[0], e0)
    ensures es.Some? ==> forall i :: 1 <= i < |m| ==> es.value[i] == solve(e, m[i], es.value[i - 1])
    ensures es.Some? ==> es.value == SolveChain(solve, e, m, e0)
  {
    if |m| == 0 {
      return None;
    }
    var list := [solve(e, m[0], e0)];
    var i := 1;
    while i < |m|
      invariant 1 <= i <= |m|
      invariant |list| == i
      invariant list[0] == solve(e, m[0], e0)
      invariant forall j :: 1 <= j < i ==> list[j] == solve(e, m[j], list[j - 1])
    {
      var last := list[|list| - 1];
      list := list + [solve(e, m[i], last)];
      i := i + 1;
    }
    SolveChainSeeds(solve, e, m, e0);
    ScanUnique(solve, e, m, e0, list, SolveChain(solve, e, m, e0));
    return Some(list);
  }

  /** Two sequences obeying the same seeded recurrence are equal. */
  lemma ScanUnique(solve: Solver, e: real, m: seq<real>, seed: real, xs: seq<real>, ys: seq<real>)
    requires |m| > 0 && |xs| == |m| && |ys| == |m|
    requires xs[0] == solve(e, m[0], seed) && ys[0] == solve(e, m[0], seed)
    requires forall i :: 1 <= i < |m| ==> xs[i] == solve(e, m[i], xs[i - 1])
    requires forall i :: 1 <= i < |m| ==> ys[i] == solve(e, m[i], ys[i - 1])
    ensures xs == ys
  {
    var i := 1;
    while i < |m|
      invariant 1 <= i <= |m|
      invariant forall j :: 0 <= j < i ==> xs[j] == ys[j]
    {
      assert xs[i] == solve(e, m[i], xs[i - 1]) && ys[i] == solve(e, m[i], ys[i - 1]);
      i := i + 1;
    }
  }

  /** When the solver returns exact roots, every eccentric anomaly of the scan
      satisfies Kepler's equation at its mean anomaly. */
  lemma SolveChainKepler(tr: Functions, solve: Solver, e: real, m: seq<real>, seed: real)
    requires forall mi: real, s: real :: solve(e, mi, s) - e * tr.sin(solve(e, mi, s)) == mi
    ensures var es := SolveChain(solve, e, m, seed);
      forall i :: 0 <= i < |m| ==> es[i] - e * tr.sin(es[i]) == m[i]
  {
    SolveChainSeeds(solve, e, m, seed);
  }

  /** The low-fidelity series `v = M + 2e sin M + 1.25 e^2 sin 2M`. */
  function LofiAnomaly(tr: Functions, e: real, m: seq<real>): (v: seq<real>)
    ensures |v| == |m|
  {
    seq(|m|, i requires 0 <= i < |m| =>
      m[i] + 2.0 * e * tr.sin(m[i]) + 1.25 * (e * e) * tr.sin(2.0 * m[i]))
  }

  /** On a circular orbit the series reduces to `v = M` exactly. */
  lemma LofiCircular(tr: Functions, m: seq<real>)
    ensures LofiAnomaly(tr, 0.0, m) == m
  {
  }

  /** The high-fidelity true anomaly `v = arccos((cos E - e) / (1 - e cos E))`. */
  function HifiAnomaly(tr: Functions, e: real, es: seq<real>): (v: seq<real>)
    requires Valid(tr) && 0.0 <= e < 1.0
    ensures |v| == |es|
  {
    seq(|es|, i requires 0 <= i < |es| =>
      ValidAngle(tr, es[i]);
      tr.acos(TrueCosArg(e, tr.cos(es[i]))))
  }

  // ---------------------------------------------------------------------------
  // Positions in the orbital plane

  /** The in-plane coordinates exactly as the orbit constructor writes them,
      `(r cos v cos inc, r sin v, r sin v sin inc)`. In the reference plane
      they are the point at radius `r` and anomaly `v`; at periapsis of an
      inclined orbit the point is pulled in to `r cos inc`. */
  function PlanePositionAsWritten(r: real, v: Angle, inc: Angle): (p: Vec3)
    ensures inc == ZeroAngle ==> p == Vec3(r * v.cos, r * v.sin, 0.0)
    ensures v == ZeroAngle ==> p == Vec3(r * inc.cos, 0.0, 0.0)
  {
    Vec3(r * v.cos * inc.cos, r * v.sin, r * v.sin * inc.sin)
  }

  /** The coordinates of a point at radius `r` and true anomaly `v` on an orbit
      inclined by `inc` about the node line: `(r cos v, r sin v cos inc, r sin v sin inc)`. */
  function PlanePosition(r: real, v: Angle, inc: Angle): (p: Vec3)
    ensures Unit(v) && Unit(inc) ==> NormSq(p) == r * r
  {
    var p := Vec3(r * v.cos, r * v.sin * inc.cos, r * v.sin * inc.sin);
    if Unit(v) && Unit(inc) then
      PlanePositionNorm(r, v, inc);
      p
    else p
  }

  lemma PlanePositionNorm(r: real, v: Angle, inc: Angle)
    requires Unit(v) && Unit(inc)
    ensures NormSq(Vec3(r * v.cos, r * v.sin * inc.cos, r * v.sin * inc.sin)) == r * r
  {
    var rs := r * v.sin;
    assert (rs * inc.cos) * (rs * inc.cos) + (rs * inc.sin) * (rs * inc.sin)
        == (rs * rs) * (inc.cos * inc.cos + inc.sin * inc.sin);
    assert (r * v.cos) * (r * v.cos) + rs * rs == (r * r) * (v.cos * v.cos + v.sin * v.sin);
  }

  /** `r^2 (1 - sin^2 inc (cos^2 v - sin^2 v))`. */
  function AsWrittenNormSq(r: real, v: Angle, inc: Angle): real {
    r * r * (1.0 - inc.sin * inc.sin * (v.cos * v.cos - v.sin * v.sin))
  }

  /** The squared length of the coordinates as written is
      `r^2 (1 - sin^2 inc (cos^2 v - sin^2 v))`, which is `r^2` only when the
      inclination's sine is zero or `cos^2 v = sin^2 v`. */
  lemma PlanePositionAsWrittenNorm(r: real, v: Angle, inc: Angle)
    requires Unit(v) && Unit(inc)
    ensures NormSq(PlanePositionAsWritten(r, v, inc))
      == r * r * (1.0 - inc.sin * inc.sin * (v.cos * v.cos - v.sin * v.sin))
  {
    var c, s, ci, si := v.cos, v.sin, inc.cos, inc.sin;
    var p := PlanePositionAsWritten(r, v, inc);
    assert NormSq(p) == (r * r) * (c * c * (ci * ci) + s * s + s * s * (si * si));
    assert ci * ci == 1.0 - si * si;
    assert c * c * (ci * ci) + s * s + s * s * (si * si)
        == c * c + s * s - si * si * (c * c - s * s);
  }

  /** The discrepancy on a concrete input: radius 7000 km, true anomaly 0,
      inclination 90 degrees. The coordinates as written put the spacecraft at
      the centre of the central body; the corrected ones put it 7000 km out on
      the node line. */
  lemma PlanePositionAsWrittenAtFocus()
    ensures PlanePositionAsWritten(7000000.0, ZeroAngle, Angle(0.0, 1.0)) == Zero
    ensures PlanePosition(7000000.0, ZeroAngle, Angle(0.0, 1.0)) == Vec3(7000000.0, 0.0, 0.0)
  {
  }

  /** Which in-plane coordinates a constructor uses: the ones the source
      writes, or the corrected point at distance `r`. */
  datatype PlaneFormula = AsWritten | Corrected

  /** The in-plane point under either formula. The corrected point lies at
      distance `r`; the written one has the squared length `AsWrittenNormSq`.
      In the reference plane the two coincide. */
  function PlanePoint(f: PlaneFormula, r: real, v: Angle, inc: Angle): (p: Vec3)
    ensures Unit(v) && Unit(inc) ==> NormSq(p) == if f.Corrected? then r * r else AsWrittenNormSq(r, v, inc)
    ensures inc == ZeroAngle ==> p == Vec3(r * v.cos, r * v.sin, 0.0)
  {
    match f
    case AsWritten =>
      if Unit(v) && Unit(inc) then
        PlanePositionAsWrittenNorm(r, v, inc);
        PlanePositionAsWritten(r, v, inc)
      else PlanePositionAsWritten(r, v, inc)
    case Corrected => PlanePosition(r, v, inc)
  }

  // ---------------------------------------------------------------------------
  // The orbit constructors

  /** Keplerian elements as the constructor receives them. */
  datatype Elements = Elements(
    a: real,       // semi-major axis, m
    e: real,       // eccentricity
    v0: real,      // initial true anomaly
    mBody: real,   // mass of the central body, kg
    inc: real,     // inclination
    w: real,       // argument of periapsis
    omega: real)   // longitude of the ascending node

  /** The attributes an orbit object ends up with. `eccentric` is the
      high-fidelity eccentric-anomaly series, empty on the low-fidelity path. */
  datatype OrbitState = OrbitState(
    ra: real, rp: real,
    e0: real, m0: real, n: real,
    mt: seq<real>, eccentric: seq<real>, v: seq<real>, rt: seq<real>,
    inc: real, w: real, omega: real,
    position: seq<Vec3>,
    flightPath: seq<real>, speed: seq<real>, velocity: seq<Vec3>)

  datatype OrbitError = EmptyTimeGrid

  /** Every per-timestep series has one entry per grid point. */
  predicate Aligned(s: OrbitState, n: nat) {
    && |s.mt| == n && |s.v| == n && |s.rt| == n && |s.position| == n
    && |s.flightPath| == n && |s.speed| == n && |s.velocity| == n
  }

  /** Every entry of `rt` lies in `[lo, hi]`. */
  predicate Between(rt: seq<real>, lo: real, hi: real) {
    forall i :: 0 <= i < |rt| ==> lo <= rt[i] <= hi
  }

  predicate AllPositive(rt: seq<real>) {
    forall i :: 0 <= i < |rt| ==> rt[i] > 0.0
  }

  /** Every point `p[i]` lies at distance `rt[i]` from the origin. */
  predicate OnRadii(p: seq<Vec3>, rt: seq<real>) {
    forall i :: 0 <= i < |rt| && i < |p| ==> NormSq(p[i]) == rt[i] * rt[i]
  }

  /** Every radius lies between the apsis radii. */
  predicate RadiiWithinApsides(s: OrbitState) {
    Between(s.rt, s.ra, s.rp)
  }

  /** Every position lies at its orbital radius from the central body's centre. */
  predicate PositionsOnOrbit(s: OrbitState) {
    OnRadii(s.position, s.rt)
  }

  /** Every point `p[i]` has the squared length the written coordinates give
      radius `rt[i]`, anomaly `v[i]` and inclination `inc`. */
  predicate NormsAsWritten(tr: Functions, p: seq<Vec3>, rt: seq<real>, v: seq<real>, inc: real) {
    forall i :: 0 <= i < |p| && i < |rt| && i < |v| ==>
      NormSq(p[i]) == AsWrittenNormSq(rt[i], AngleOf(tr, v[i]), AngleOf(tr, inc))
  }

  /** The positions of the constructor as written. */
  predicate PositionsAsWritten(tr: Functions, s: OrbitState) {
    NormsAsWritten(tr, s.position, s.rt, s.v, s.inc)
  }

  lemma AllAnglesValid(tr: Functions, xs: seq<real>)
    requires Valid(tr)
    ensures forall i :: 0 <= i < |xs| ==>
      -1.0 <= tr.cos(xs[i]) <= 1.0 && -1.0 <= tr.sin(xs[i]) <= 1.0 && Unit(AngleOf(tr, xs[i]))
  {
    forall i | 0 <= i < |xs|
      ensures -1.0 <= tr.cos(xs[i]) <= 1.0 && -1.0 <= tr.sin(xs[i]) <= 1.0 && Unit(AngleOf(tr, xs[i]))
    {
      ValidAngle(tr, xs[i]);
    }
  }

  /** `r_t` over the whole anomaly series. */
  function Radii(tr: Functions, a: real, e: real, v: seq<real>): (rt: seq<real>)
    requires Valid(tr) && EllipticShape(a, e)
    ensures |rt| == |v|
    ensures Between(rt, Apsides(a, e).0, Apsides(a, e).1) && AllPositive(rt)
  {
    AllAnglesValid(tr, v);
    seq(|v|, i requires 0 <= i < |v| => OrbitRadius(a, e, tr.cos(v[i])))
  }

  /** The in-plane coordinates over the whole series: on the radii with the
      corrected formula, with the written lengths otherwise. */
  function PlanePositions(tr: Functions, f: PlaneFormula, rt: seq<real>, v: seq<real>, inc: real): (p: seq<Vec3>)
    requires Valid(tr) && |rt| == |v|
    ensures |p| == |v|
    ensures f.Corrected? ==> OnRadii(p, rt)
    ensures f.AsWritten? ==> NormsAsWritten(tr, p, rt, v, inc)
  {
    AllAnglesValid(tr, v);
    ValidAngle(tr, inc);
    seq(|v|, i requires 0 <= i < |v| => PlanePoint(f, rt[i], AngleOf(tr, v[i]), AngleOf(tr, inc)))
  }

  /** Rotating the in-plane coordinates keeps every point's length: at its
      orbital radius with the corrected formula, at the written length
      otherwise. */
  lemma RotatedOnOrbit(tr: Functions, f: PlaneFormula, rt: seq<real>, v: seq<real>, el: Elements)
    requires Valid(tr) && |rt| == |v|
    ensures var p := Rotate(PlanePositions(tr, f, rt, v, el.inc),
      AngleOf(tr, el.omega), AngleOf(tr, el.inc), AngleOf(tr, el.w));
      && (f.Corrected? ==> OnRadii(p, rt))
      && (f.AsWritten? ==> NormsAsWritten(tr, p, rt, v, el.inc))
  {
    var plane := PlanePositions(tr, f, rt, v, el.inc);
    ValidAngle(tr, el.omega);
    ValidAngle(tr, el.inc);
    ValidAngle(tr, el.w);
    RotatePreservesNorm(plane, AngleOf(tr, el.omega), AngleOf(tr, el.inc), AngleOf(tr, el.w));
  }

  /** In the reference plane both formulas give the same points. */
  lemma PlaneFormulasAgreeInPlane(tr: Functions, rt: seq<real>, v: seq<real>)
    requires Valid(tr) && |rt| == |v|
    ensures PlanePositions(tr, AsWritten, rt, v, 0.0) == PlanePositions(tr, Corrected, rt, v, 0.0)
  {
    ValidAngle(tr, 0.0);
    var a, c := PlanePositions(tr, AsWritten, rt, v, 0.0), PlanePositions(tr, Corrected, rt, v, 0.0);
    forall i | 0 <= i < |v|
      ensures a[i] == c[i]
    {
      assert a[i] == PlanePoint(AsWritten, rt[i], AngleOf(tr, v[i]), ZeroAngle);
      assert c[i] == PlanePoint(Corrected, rt[i], AngleOf(tr, v[i]), ZeroAngle);
    }
  }

  /** The vis-viva speed `sqrt(G M (2/r - 1/a))` at radius `r`. */
  function VisViva(tr: Functions, mBody: real, a: real, r: real): real
    requires a > 0.0 && r > 0.0
  {
    tr.sqrt(G * mBody * ((2.0 / r) - (1.0 / a)))
  }

  /** Vis-viva speed at each radius. */
  function Speeds(tr: Functions, mBody: real, a: real, rt: seq<real>): (sp: seq<real>)
    requires a > 0.0 && AllPositive(rt)
    ensures |sp| == |rt|
  {
    seq(|rt|, i requires 0 <= i < |rt| => VisViva(tr, mBody, a, rt[i]))
  }

  /** `(V cos v cos inc, V sin v, V sin v sin inc)`. */
  function VelocityAt(tr: Functions, speed: real, v: real, inc: real): Vec3 {
    Vec3(speed * tr.cos(v) * tr.cos(inc), speed * tr.sin(v), speed * tr.sin(v) * tr.sin(inc))
  }

  /** The velocity at every step, left unrotated as in the constructor. */
  function Velocities(tr: Functions, sp: seq<real>, v: seq<real>, inc: real): (vel: seq<Vec3>)
    requires |sp| == |v|
    ensures |vel| == |v|
  {
    seq(|v|, i requires 0 <= i < |v| => VelocityAt(tr, sp[i], v[i], inc))
  }

  /** The flight-path angle `arctan(e sin v / (1 + e cos v))`. */
  function FlightPath(tr: Functions, e: real, v: seq<real>): (fp: seq<real>)
    requires Valid(tr) && 0.0 <= e < 1.0
    ensures |fp| == |v|
  {
    AllAnglesValid(tr, v);
    seq(|v|, i requires 0 <= i < |v| =>
      DenominatorBounds(e, tr.cos(v[i]));
      tr.atan(e * tr.sin(v[i]) / (1.0 + e * tr.cos(v[i]))))
  }

  /** Kepler's equation: the mean anomaly `E - e sin E` of eccentric anomaly `E`. */
  function KeplerMean(tr: Functions, e: real, ea: real): real {
    ea - e * tr.sin(ea)
  }

  /** The quantities fixed at epoch: eccentric and mean anomaly and the mean motion. */
  datatype Epoch = Epoch(e0: real, m0: real, n: real)

  /** `E_0 = arccos((e + cos v0) / (1 + e cos v0))`, `M_0 = E_0 - e sin E_0`
      and `n = sqrt(G M / a^3)`. `M_0` is the mean anomaly Kepler's equation
      gives `E_0`, and when arccos inverts cos, `E_0` is the eccentric anomaly
      whose high-fidelity conversion gives back `cos v0`. */
  function EpochOf(tr: Functions, el: Elements): (ep: Epoch)
    requires Valid(tr) && EllipticShape(el.a, el.e)
    ensures ep.m0 == KeplerMean(tr, el.e, ep.e0)
    ensures -1.0 <= tr.cos(el.v0) <= 1.0 && -1.0 <= tr.cos(ep.e0) <= 1.0
    ensures AcosInverts(tr) ==> tr.cos(ep.e0) == EpochCosArg(el.e, tr.cos(el.v0))
    ensures AcosInverts(tr) ==> TrueCosArg(el.e, tr.cos(ep.e0)) == tr.cos(el.v0)
  {
    ValidAngle(tr, el.v0);
    var e0 := tr.acos(EpochCosArg(el.e, tr.cos(el.v0)));
    ValidAngle(tr, e0);
    CosArgsInverse(el.e, tr.cos(el.v0));
    CubePos(el.a);
    Epoch(e0, e0 - el.e * tr.sin(e0), tr.sqrt(G * el.mBody / (el.a * el.a * el.a)))
  }

  /** Started from `E_0`, the high-fidelity anomaly is the initial true
      anomaly again, up to the sign arccos cannot recover: its cosine is
      `cos v0`. */
  lemma EpochRecoversV0(tr: Functions, el: Elements)
    requires Valid(tr) && EllipticShape(el.a, el.e) && AcosInverts(tr)
    ensures tr.cos(HifiAnomaly(tr, el.e, [EpochOf(tr, el).e0])[0]) == tr.cos(el.v0)
  {
    var ep := EpochOf(tr, el);
    var x := TrueCosArg(el.e, tr.cos(ep.e0));
    assert HifiAnomaly(tr, el.e, [ep.e0])[0] == tr.acos(x);
    assert tr.cos(tr.acos(x)) == x;
  }

  /** Everything the constructor derives once the mean-anomaly series
      exists, with the in-plane coordinates of formula `f`. */
  function Propagate(tr: Functions, solve: Solver, el: Elements, hifi: bool, ep: Epoch, mt: seq<real>, f: PlaneFormula)
    : (s: OrbitState)
    requires Valid(tr) && EllipticShape(el.a, el.e)
    ensures Aligned(s, |mt|) && s.mt == mt && s.e0 == ep.e0 && s.m0 == ep.m0 && s.n == ep.n
    ensures s.ra <= s.rp && s.ra + s.rp == 2.0 * el.a
    ensures RadiiWithinApsides(s)
    ensures f.Corrected? ==> PositionsOnOrbit(s)
    ensures f.AsWritten? ==> PositionsAsWritten(tr, s)
    ensures hifi ==> s.eccentric == SolveChain(solve, el.e, mt, ep.e0)
  {
    var (ra, rp) := Apsides(el.a, el.e);
    var eccentric := if hifi then SolveChain(solve, el.e, mt, ep.e0) else [];
    var v := if hifi then HifiAnomaly(tr, el.e, eccentric) else LofiAnomaly(tr, el.e, mt);
    var rt := Radii(tr, el.a, el.e, v);
    var plane := PlanePositions(tr, f, rt, v, el.inc);
    var position := Rotate(plane, AngleOf(tr, el.omega), AngleOf(tr, el.inc), AngleOf(tr, el.w));
    RotatedOnOrbit(tr, f, rt, v, el);
    var speed := Speeds(tr, el.mBody, el.a, rt);
    OrbitState(
      ra, rp, ep.e0, ep.m0, ep.n, mt, eccentric, v, rt, el.inc, el.w, el.omega,
      position, FlightPath(tr, el.e, v), speed, Velocities(tr, speed, v, el.inc))
  }

  /** `EllipticalOrbit(t, a, e, v_0, M_body, inc, w, hifi=..., Omega=...)` with
      the elements given directly and the in-plane coordinates of formula
      `f`: `AsWritten` is the constructor as the source has it, `Corrected`
      the one whose positions lie on the orbit. An empty time grid fails at
      `t[0]`. */
  function Elliptical(tr: Functions, solve: Solver, t: seq<real>, el: Elements, hifi: bool, f: PlaneFormula)
    : (r: Result<OrbitState, OrbitError>)
    requires Valid(tr) && EllipticShape(el.a, el.e)
    ensures r.Success? <==> |t| > 0
    ensures r.Success? ==> Aligned(r.value, |t|)
    ensures r.Success? ==> r.value.mt[0] == r.value.m0 && r.value.m0 == KeplerMean(tr, el.e, r.value.e0)
    ensures r.Success? ==> r.value.ra <= r.value.rp && r.value.ra + r.value.rp == 2.0 * el.a
    ensures r.Success? ==> RadiiWithinApsides(r.value)
    ensures r.Success? && f.Corrected? ==> PositionsOnOrbit(r.value)
    ensures r.Success? && f.AsWritten? ==> PositionsAsWritten(tr, r.value)
    ensures r.Success? && hifi ==> r.value.eccentric == SolveChain(solve, el.e, r.value.mt, r.value.e0)
  {
    var ep := EpochOf(tr, el);
    match MeanAnomaly(ep.n, ep.m0, t)
    case None => Failure(EmptyTimeGrid)
    case Some(mt) =>
      Success(Propagate(tr, solve, el, hifi, ep, mt, f))
  }

  /** With zero inclination the two formulas build the same orbit, so the
      constructor as written is on its orbit there. */
  lemma FormulasAgreeInPlane(tr: Functions, solve: Solver, t: seq<real>, el: Elements, hifi: bool)
    requires Valid(tr) && EllipticShape(el.a, el.e) && el.inc == 0.0
    ensures Elliptical(tr, solve, t, el, hifi, AsWritten) == Elliptical(tr, solve, t, el, hifi, Corrected)
  {
    var ep := EpochOf(tr, el);
    if |t| > 0 {
      var mt := MeanAnomaly(ep.n, ep.m0, t).value;
      PropagateFormulasAgree(tr, solve, el, hifi, ep, mt);
    }
  }

  lemma PropagateFormulasAgree(tr: Functions, solve: Solver, el: Elements, hifi: bool, ep: Epoch, mt: seq<real>)
    requires Valid(tr) && EllipticShape(el.a, el.e) && el.inc == 0.0
    ensures Propagate(tr, solve, el, hifi, ep, mt, AsWritten) == Propagate(tr, solve, el, hifi, ep, mt, Corrected)
  {
    var eccentric := if hifi then SolveChain(solve, el.e, mt, ep.e0) else [];
    var v := if hifi then HifiAnomaly(tr, el.e, eccentric) else LofiAnomaly(tr, el.e, mt);
    var rt := Radii(tr, el.a, el.e, v);
    PlaneFormulasAgreeInPlane(tr, rt, v);
  }

  /** `CircularOrbit` adds the radius, the circular speed and the angular rate. */
  datatype CircularState = CircularState(orbit: OrbitState, r: real, speed: real, angularRate: real)

  /** The solver handed to the general constructor by the circular one; the
      low-fidelity path never calls it. */
  function KeepSeed(e: real, m: real, seed: real): real {
    seed
  }

  /** The elements `CircularOrbit(t, r, v_0, M_body)` passes on: `a = r`,
      `e = 0` and every orientation angle zero. */
  function CircularElements(r: real, v0: real, mBody: real): Elements {
    Elements(r, 0.0, v0, mBody, 0.0, 0.0, 0.0)
  }

  /** Uniform circular motion in the reference plane: radius `r` throughout
      and the spacecraft at angle `M_t` from the x axis. */
  predicate CircularMotion(tr: Functions, s: OrbitState, r: real) {
    && s.v == s.mt
    && forall i :: 0 <= i < |s.mt| && i < |s.rt| && i < |s.position| ==>
      s.rt[i] == r && s.position[i] == Vec3(r * tr.cos(s.mt[i]), r * tr.sin(s.mt[i]), 0.0)
  }

  /** Replacing the speed and velocity series keeps the motion. */
  lemma CircularMotionKeeps(tr: Functions, s: OrbitState, r: real, speed: seq<real>, velocity: seq<Vec3>)
    requires CircularMotion(tr, s, r) && PositionsOnOrbit(s)
    ensures CircularMotion(tr, s.(speed := speed, velocity := velocity), r)
    ensures PositionsOnOrbit(s.(speed := speed, velocity := velocity))
  {
  }

  /** The circular speed `sqrt(G M / r)`. */
  function CircularSpeed(tr: Functions, mBody: real, r: real): real
    requires r > 0.0
  {
    tr.sqrt(G * mBody / r)
  }

  /** `(V cos v, V sin v, 0)`: the velocity along the direction of motion. */
  function CircularVelocityAt(tr: Functions, speed: real, v: real): Vec3 {
    Vec3(speed * tr.cos(v), speed * tr.sin(v), 0.0)
  }

  function CircularVelocity(tr: Functions, speed: real, v: seq<real>): (vel: seq<Vec3>)
    ensures |vel| == |v|
    ensures forall i :: 0 <= i < |v| ==> vel[i].z == 0.0
  {
    seq(|v|, i requires 0 <= i < |v| => CircularVelocityAt(tr, speed, v[i]))
  }

  /** `CircularOrbit(t, r, v_0, M_body)`: the low-fidelity elliptical orbit
      with `e = 0`, after which the speed is reset to `sqrt(G M / r)` and the
      velocity to `(V cos v, V sin v, 0)`. */
  function Circular(tr: Functions, t: seq<real>, r: real, v0: real, mBody: real)
    : (c: Result<CircularState, OrbitError>)
    requires Valid(tr) && r > 0.0
    ensures c.Success? <==> |t| > 0
    ensures c.Success? ==> Aligned(c.value.orbit, |t|) && PositionsOnOrbit(c.value.orbit)
    ensures c.Success? ==> CircularMotion(tr, c.value.orbit, r)
    ensures c.Success? ==> forall i :: 0 <= i < |t| ==> c.value.orbit.velocity[i].z == 0.0
  {
    match Elliptical(tr, KeepSeed, t, CircularElements(r, v0, mBody), false, AsWritten)
    case Failure(err) => Failure(err)
    case Success(s) =>
      FormulasAgreeInPlane(tr, KeepSeed, t, CircularElements(r, v0, mBody), false);
      CircularFacts(tr, t, r, v0, mBody);
      var speed := CircularSpeed(tr, mBody, r);
      CircularMotionKeeps(tr, s, r, seq(|s.v|, i => speed), CircularVelocity(tr, speed, s.v));
      Success(CircularState(
        s.(speed := seq(|s.v|, i => speed), velocity := CircularVelocity(tr, speed, s.v)),
        r, speed, speed / r))
  }

  /** The elliptical constructor with `e = 0` and every angle zero moves the
      spacecraft uniformly round a circle of radius `r` in the reference plane. */
  lemma CircularFacts(tr: Functions, t: seq<real>, r: real, v0: real, mBody: real)
    requires Valid(tr) && r > 0.0 && |t| > 0
    ensures CircularMotion(tr, Elliptical(tr, KeepSeed, t, CircularElements(r, v0, mBody), false, AsWritten).value, r)
  {
    var el := CircularElements(r, v0, mBody);
    var ep := EpochOf(tr, el);
    var mt := MeanAnomaly(ep.n, ep.m0, t).value;
    assert Elliptical(tr, KeepSeed, t, el, false, AsWritten).value == Propagate(tr, KeepSeed, el, false, ep, mt, AsWritten);
    PropagateCircular(tr, r, v0, mBody, ep, mt);
  }

  lemma PropagateCircular(tr: Functions, r: real, v0: real, mBody: real, ep: Epoch, mt: seq<real>)
    requires Valid(tr) && r > 0.0
    ensures CircularMotion(tr, Propagate(tr, KeepSeed, CircularElements(r, v0, mBody), false, ep, mt, AsWritten), r)
  {
    var el := CircularElements(r, v0, mBody);
    assert el.a == r && el.e == 0.0 && el.inc == 0.0 && el.omega == 0.0 && el.w == 0.0;
    var s := Propagate(tr, KeepSeed, el, false, ep, mt, AsWritten);
    PropagateLofi(tr, KeepSeed, el, ep, mt, AsWritten);
    LofiCircular(tr, mt);
    ValidAngle(tr, 0.0);
    RotateZeroIsIdentity(PlanePositions(tr, AsWritten, s.rt, mt, 0.0));
    CircularMotionFromSeries(tr, s, r);
  }

  /** A state whose anomaly is its mean anomaly, whose radii come from the
      orbit equation with `e = 0` and whose positions are the reference-plane
      points moves uniformly round the circle. */
  lemma CircularMotionFromSeries(tr: Functions, s: OrbitState, r: real)
    requires Valid(tr) && r > 0.0
    requires s.v == s.mt && s.rt == Radii(tr, r, 0.0, s.mt)
    requires s.position == PlanePositions(tr, AsWritten, s.rt, s.mt, 0.0)
    ensures CircularMotion(tr, s, r)
  {
    CircularRadii(tr, r, s.mt);
    forall i | 0 <= i < |s.mt|
      ensures s.position[i] == Vec3(r * tr.cos(s.mt[i]), r * tr.sin(s.mt[i]), 0.0)
    {
      CircularPlanePoint(tr, r, s.rt, s.mt, i);
    }
    CircularMotionIntro(tr, s, r);
  }

  /** The series the low-fidelity path builds, one from the other. */
  lemma PropagateLofi(tr: Functions, solve: Solver, el: Elements, ep: Epoch, mt: seq<real>, f: PlaneFormula)
    requires Valid(tr) && EllipticShape(el.a, el.e)
    ensures var s := Propagate(tr, solve, el, false, ep, mt, f);
      && s.mt == mt && s.v == LofiAnomaly(tr, el.e, mt) && s.rt == Radii(tr, el.a, el.e, s.v)
      && s.position == Rotate(PlanePositions(tr, f, s.rt, s.v, el.inc),
                              AngleOf(tr, el.omega), AngleOf(tr, el.inc), AngleOf(tr, el.w))
  {
  }

  lemma CircularMotionIntro(tr: Functions, s: OrbitState, r: real)
    requires s.v == s.mt
    requires forall i :: 0 <= i < |s.mt| && i < |s.rt| && i < |s.position| ==>
      s.rt[i] == r && s.position[i] == Vec3(r * tr.cos(s.mt[i]), r * tr.sin(s.mt[i]), 0.0)
    ensures CircularMotion(tr, s, r)
  {
  }

  /** With `e = 0` the orbit equation gives `r_t = a` at every anomaly. */
  lemma CircularRadii(tr: Functions, r: real, v: seq<real>)
    requires Valid(tr) && r > 0.0
    ensures forall i :: 0 <= i < |v| ==> Radii(tr, r, 0.0, v)[i] == r
  {
    AllAnglesValid(tr, v);
  }

  /** With zero inclination the in-plane point is `(r cos v, r sin v, 0)`. */
  lemma CircularPlanePoint(tr: Functions, r: real, rt: seq<real>, v: seq<real>, i: nat)
    requires Valid(tr) && |rt| == |v| && i < |v| && rt[i] == r
    ensures PlanePositions(tr, AsWritten, rt, v, 0.0)[i] == Vec3(r * tr.cos(v[i]), r * tr.sin(v[i]), 0.0)
  {
    ValidAngle(tr, 0.0);
    assert PlanePositions(tr, AsWritten, rt, v, 0.0)[i] == PlanePoint(AsWritten, r, AngleOf(tr, v[i]), ZeroAngle);
  }

  /** The circular constructor's overrides change nothing: the vis-viva speed
      at `r = a` is already `sqrt(G M / r)`, and with zero inclination the
      elliptical velocity is already `(V cos v, V sin v, 0)`. */
  lemma CircularOverrideAgrees(tr: Functions, t: seq<real>, r: real, v0: real, mBody: real)
    requires Valid(tr) && r > 0.0 && |t| > 0
    ensures Circular(tr, t, r, v0, mBody).value.orbit
      == Elliptical(tr, KeepSeed, t, CircularElements(r, v0, mBody), false, AsWritten).value
  {
    var el := CircularElements(r, v0, mBody);
    var ep := EpochOf(tr, el);
    var mt := MeanAnomaly(ep.n, ep.m0, t).value;
    var s := Elliptical(tr, KeepSeed, t, el, false, AsWritten).value;
    assert s == Propagate(tr, KeepSeed, el, false, ep, mt, AsWritten);
    PropagateOverrideAgrees(tr, r, v0, mBody, ep, mt);
  }

  lemma PropagateOverrideAgrees(tr: Functions, r: real, v0: real, mBody: real, ep: Epoch, mt: seq<real>)
    requires Valid(tr) && r > 0.0
    ensures var s := Propagate(tr, KeepSeed, CircularElements(r, v0, mBody), false, ep, mt, AsWritten);
      var speed := CircularSpeed(tr, mBody, r);
      s.speed == seq(|s.v|, i => speed) && s.velocity == CircularVelocity(tr, speed, s.v)
  {
    var s := Propagate(tr, KeepSeed, CircularElements(r, v0, mBody), false, ep, mt, AsWritten);
    PropagateCircular(tr, r, v0, mBody, ep, mt);
    var speed := CircularSpeed(tr, mBody, r);
    assert s.speed == Speeds(tr, mBody, r, s.rt);
    CircularSpeeds(tr, mBody, r, s.rt);
    assert s.velocity == Velocities(tr, s.speed, s.v, 0.0);
    CircularVelocities(tr, speed, s.speed, s.v);
  }

  lemma VisVivaArgument(mBody: real, r: real)
    requires r > 0.0
    ensures G * mBody * ((2.0 / r) - (1.0 / r)) == G * mBody / r
  {
    assert (2.0 / r) - (1.0 / r) == 1.0 / r;
  }

  /** At `r = a` the vis-viva speed is the circular speed `sqrt(G M / r)`. */
  lemma CircularSpeeds(tr: Functions, mBody: real, r: real, rt: seq<real>)
    requires r > 0.0 && forall i :: 0 <= i < |rt| ==> rt[i] == r
    ensures var speed := CircularSpeed(tr, mBody, r);
      Speeds(tr, mBody, r, rt) == seq(|rt|, i => speed)
  {
    VisVivaArgument(mBody, r);
    assert VisViva(tr, mBody, r, r) == CircularSpeed(tr, mBody, r);
    var sp := Speeds(tr, mBody, r, rt);
    forall i | 0 <= i < |rt|
      ensures sp[i] == CircularSpeed(tr, mBody, r)
    {
      assert sp[i] == VisViva(tr, mBody, r, rt[i]);
    }
  }

  /** With zero inclination the elliptical velocity formula is the circular one. */
  lemma CircularVelocities(tr: Functions, speed: real, sp: seq<real>, v: seq<real>)
    requires Valid(tr) && |sp| == |v| && forall i :: 0 <= i < |sp| ==> sp[i] == speed
    ensures Velocities(tr, sp, v, 0.0) == CircularVelocity(tr, speed, v)
  {
    ValidAngle(tr, 0.0);
    var vel := Velocities(tr, sp, v, 0.0);
    forall i | 0 <= i < |v|
      ensures vel[i] == CircularVelocityAt(tr, speed, v[i])
    {
      assert vel[i] == VelocityAt(tr, speed, v[i], 0.0);
    }
  }
}
