/** The transcendental functions the orbit and access code call through
    numpy. They are parameters of the model: only the identities listed in
    `Valid` are assumed of them, and nothing about their accuracy. */
module Trig {
  import opened Rotation

  datatype Functions = Functions(
    sin: real -> real,
    cos: real -> real,
    acos: real -> real,
    asin: real -> real,
    atan: real -> real,
    atan2: (real, real) -> real,
    sqrt: real -> real)

  /** The Pythagorean identity at one angle. */
  predicate UnitAt(tr: Functions, x: real) {
    tr.sin(x) * tr.sin(x) + tr.cos(x) * tr.cos(x) == 1.0
  }

  /** cos^2 + sin^2 = 1 at every angle, and the values at zero. */
  ghost predicate Valid(tr: Functions) {
    && (forall x :: UnitAt(tr, x))
    && tr.cos(0.0) == 1.0
    && tr.sin(0.0) == 0.0
  }

  /** `cos(arccos x) = x` on [-1, 1]: the one fact about arccos the epoch
      lemmas use. It is not part of `Valid`, so only the members that state
      it depend on it. */
  ghost predicate AcosInverts(tr: Functions) {
    forall x :: -1.0 <= x <= 1.0 ==> tr.cos(tr.acos(x)) == x
  }

  /** The (cos, sin) pair numpy builds the rotation matrices from. */
  function AngleOf(tr: Functions, x: real): Angle {
    Angle(tr.cos(x), tr.sin(x))
  }

  lemma UnitSquareBounds(c: real, s: real)
    requires c * c + s * s == 1.0
    ensures -1.0 <= c <= 1.0 && -1.0 <= s <= 1.0
  {
  }

  /** Under `Valid`, every sine and cosine lies in [-1, 1] and every angle
      gives a unit (cos, sin) pair; angle zero gives the zero rotation. */
  lemma ValidAngle(tr: Functions, x: real)
    requires Valid(tr)
    ensures -1.0 <= tr.cos(x) <= 1.0 && -1.0 <= tr.sin(x) <= 1.0
    ensures Unit(AngleOf(tr, x))
    ensures AngleOf(tr, 0.0) == ZeroAngle
  {
    assert UnitAt(tr, x);
    UnitSquareBounds(tr.cos(x), tr.sin(x));
  }
}
