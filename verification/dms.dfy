/** `deg_to_dms`: decimal degrees split into whole degrees, whole minutes
    and seconds with two floor divisions by 60, plus the hemisphere letter
    of the pretty form. Values are exact reals; the printing of the seconds
    with `ndp` decimals is not modelled. */
module Dms {
  import opened Wrappers

  /** The three numbers `deg_to_dms` computes before printing them. */
  datatype Dms = Dms(d: int, m: int, s: real)

  /** What the function returns: `str(d):str(m):str(s)`, or the pretty form,
      which prints `abs(d)` followed by the hemisphere letter. */
  datatype Output =
    | Colons(d: int, m: int, s: real)
    | Pretty(absD: nat, m: int, s: real, hemi: char)

  function Abs(x: real): (r: real)
    ensures r >= 0.0 && (r == x || r == -x)
  {
    if x < 0.0 then -x else x
  }

  /** Python's `divmod(x, 60)` on floats: the floored quotient and the
      remainder, which lies in `[0, 60)`. */
  function DivMod60(x: real): (r: (int, real))
    ensures x == r.0 as real * 60.0 + r.1
    ensures 0.0 <= r.1 < 60.0
  {
    var q := (x / 60.0).Floor;
    (q, x - q as real * 60.0)
  }

  /** Lines 9-13: `m, s = divmod(abs(deg)*3600, 60)`, `d, m = divmod(m, 60)`,
      then `d` negated for a negative angle and both truncated to `int`
      (they are whole already). */
  function DegToDms(deg: real): (r: Dms)
    ensures 0 <= r.m < 60 && 0.0 <= r.s < 60.0
    ensures Abs(r.d as real) * 3600.0 + r.m as real * 60.0 + r.s == Abs(deg) * 3600.0
    ensures deg < 0.0 ==> r.d <= 0
    ensures deg >= 0.0 ==> r.d >= 0
  {
    var (q, s) := DivMod60(Abs(deg) * 3600.0);
    var (d, mr) := DivMod60(q as real);
    var m := q - 60 * d;
    assert m as real == mr;
    Dms(if deg < 0.0 then -d else d, m, s)
  }

  /** The whole degrees are the whole part of the angle's magnitude, with the
      angle's sign. */
  lemma {:induction false} DegreesAreWholePart(deg: real)
    ensures DegToDms(deg).d == if deg < 0.0 then -Abs(deg).Floor else Abs(deg).Floor
  {
    var x := Abs(deg) * 3600.0;
    var q := DivMod60(x).0;
    var d := DivMod60(q as real).0;
    var k := Abs(deg).Floor;
    assert k as real <= Abs(deg) < k as real + 1.0;
    assert 3600.0 * k as real <= x < 3600.0 * k as real + 3600.0;
    assert 60 * k <= q by {
      assert (60 * k) as real * 60.0 <= x;
      assert (60 * k) as real <= x / 60.0;
    }
    assert q < 60 * k + 60 by {
      assert q as real * 60.0 <= x;
    }
    assert d == k by {
      assert d as real * 60.0 <= q as real < d as real * 60.0 + 60.0;
    }
  }

  /** An angle and its negation differ only in the sign of the degrees. */
  lemma NegationFlipsDegrees(deg: real)
    ensures DegToDms(-deg).m == DegToDms(deg).m && DegToDms(-deg).s == DegToDms(deg).s
    ensures DegToDms(-deg).d == -DegToDms(deg).d
  {
    assert Abs(-deg) == Abs(deg);
    DegreesAreWholePart(deg);
    DegreesAreWholePart(-deg);
  }

  /** Between -1 and 0 the degrees are 0, so the sign of the angle is lost. */
  lemma SignLostBelowOneDegree(deg: real)
    requires -1.0 < deg < 0.0
    ensures DegToDms(deg).d == 0
  {
    DegreesAreWholePart(deg);
  }

  /** `if pretty_print:` — `None` and the empty string are false. */
  predicate Truthy(prettyPrint: Option<string>) {
    prettyPrint.Some? && |prettyPrint.value| > 0
  }

  /** Lines 16-21 as written: the letter follows the sign of `d`. */
  function HemisphereAsWritten(kind: string, d: int): (c: char)
    ensures kind == "latitude" ==> (c == 'N' <==> d >= 0) && (c == 'S' <==> d < 0)
    ensures kind == "longitude" ==> (c == 'E' <==> d >= 0) && (c == 'W' <==> d < 0)
    ensures kind != "latitude" && kind != "longitude" ==> c == '?'
  {
    if kind == "latitude" then (if d >= 0 then 'N' else 'S')
    else if kind == "longitude" then (if d >= 0 then 'E' else 'W')
    else '?'
  }

  /** The letter from the sign of the angle itself, which a `d` of 0 cannot
      carry. */
  function Hemisphere(kind: string, deg: real): (c: char)
    ensures kind == "latitude" ==> (c == 'N' <==> deg >= 0.0) && (c == 'S' <==> deg < 0.0)
    ensures kind == "longitude" ==> (c == 'E' <==> deg >= 0.0) && (c == 'W' <==> deg < 0.0)
    ensures kind != "latitude" && kind != "longitude" ==> c == '?'
  {
    if kind == "latitude" then (if deg >= 0.0 then 'N' else 'S')
    else if kind == "longitude" then (if deg >= 0.0 then 'E' else 'W')
    else '?'
  }

  /** `deg_to_dms(deg, pretty_print)` as written. */
  function DegToDmsAsWritten(deg: real, prettyPrint: Option<string>): (r: Output)
    ensures Truthy(prettyPrint) <==> r.Pretty?
    ensures r.Colons? ==> r == Colons(DegToDms(deg).d, DegToDms(deg).m, DegToDms(deg).s)
    ensures r.Pretty? ==> r.absD as real == Abs(DegToDms(deg).d as real)
    ensures r.Pretty? ==> r.m == DegToDms(deg).m && r.s == DegToDms(deg).s
    ensures r.Pretty? ==> r.hemi == HemisphereAsWritten(prettyPrint.value, DegToDms(deg).d)
  {
    var v := DegToDms(deg);
    if Truthy(prettyPrint) then
      Pretty(if v.d < 0 then -v.d else v.d, v.m, v.s, HemisphereAsWritten(prettyPrint.value, v.d))
    else Colons(v.d, v.m, v.s)
  }

  /** `deg_to_dms(deg, pretty_print)` with the hemisphere taken from the
      angle's sign. The pretty form prints the magnitude and puts the sign
      only in the letter; it reads back to the angle. */
  function DegToDmsText(deg: real, prettyPrint: Option<string>): (r: Output)
    ensures Truthy(prettyPrint) <==> r.Pretty?
    ensures r.Colons? ==> r == Colons(DegToDms(deg).d, DegToDms(deg).m, DegToDms(deg).s)
    ensures r.Pretty? ==> r.absD as real == Abs(DegToDms(deg).d as real)
    ensures r.Pretty? ==> r.m == DegToDms(deg).m && r.s == DegToDms(deg).s
    ensures r.Pretty? ==> r.absD as real * 3600.0 + r.m as real * 60.0 + r.s == Abs(deg) * 3600.0
    ensures r.Pretty? ==> r.hemi == Hemisphere(prettyPrint.value, deg)
  {
    var v := DegToDms(deg);
    if Truthy(prettyPrint) then
      Pretty(if v.d < 0 then -v.d else v.d, v.m, v.s, Hemisphere(prettyPrint.value, deg))
    else Colons(v.d, v.m, v.s)
  }

  /** Half a degree south comes out as `0° 30′ … N`: a southern latitude
      printed as a northern one. */
  lemma HalfDegreeSouthAsWritten()
    ensures DegToDmsAsWritten(-0.5, Some("latitude")).hemi == 'N'
    ensures DegToDmsText(-0.5, Some("latitude")).hemi == 'S'
  {
    SignLostBelowOneDegree(-0.5);
  }

  /** Outside `(-1, 0)` the written form and the corrected one print the
      same thing: the two differ only where the whole degrees lose the sign. */
  lemma AsWrittenAgreesOutsideOneDegree(deg: real, prettyPrint: Option<string>)
    requires deg <= -1.0 || deg >= 0.0
    ensures DegToDmsAsWritten(deg, prettyPrint) == DegToDmsText(deg, prettyPrint)
  {
    DegreesAreWholePart(deg);
  }

  /** With the letter taken from the angle, the pretty form reads back to the
      angle: the magnitude from the numbers, the sign from the letter. */
  lemma PrettyReadsBack(deg: real, kind: string)
    requires kind == "latitude" || kind == "longitude"
    ensures var r := DegToDmsText(deg, Some(kind));
      var south := r.hemi == 'S' || r.hemi == 'W';
      var mag := (r.absD as real * 3600.0 + r.m as real * 60.0 + r.s) / 3600.0;
      (if south then -mag else mag) == deg
  {
  }
}
