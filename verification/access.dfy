/** `Trajectory.pulsar_access`: whether the spacecraft sees a pulsar at each
    timestep, given a list of occulting bodies and their radii passed as
    alternating variadic arguments. */
module Access {
  import opened Wrappers
  import opened Vectors
  import opened Trig
  import opened Trajectory

  /** One variadic argument: a body's coordinates or a radius. */
  datatype Arg = BodyArg(track: Track) | RadiusArg(radius: real)

  /** Why one (body, radius) pair could not be turned into an access column. */
  datatype ColumnError =
    | NotABody                // the even-position argument has no coordinates
    | NotARadius              // the odd-position argument is not a distance
    | BadShape(shape: ShapeError)
    | RowMismatch             // body and pulsar separations do not broadcast
    | ColumnLength            // the column does not fit the frame's existing index

  /** The failure of the whole call: the pair being processed and why. */
  datatype AccessError = AccessError(pair: nat, why: ColumnError)

  // ---------------------------------------------------------------------------
  // Reading the variadic arguments

  /** `args[::2]`. */
  function Evens<T>(s: seq<T>): (r: seq<T>)
    ensures |r| == (|s| + 1) / 2
    ensures forall i :: 0 <= i < |r| ==> r[i] == s[2 * i]
    decreases |s|
  {
    if |s| == 0 then []
    else if |s| == 1 then [s[0]]
    else [s[0]] + Evens(s[2..])
  }

  /** `args[1::2]`. */
  function Odds<T>(s: seq<T>): (r: seq<T>)
    ensures |r| == |s| / 2
    ensures forall i :: 0 <= i < |r| ==> r[i] == s[2 * i + 1]
    decreases |s|
  {
    if |s| < 2 then []
    else [s[1]] + Odds(s[2..])
  }

  /** The pairs the loop visits: `range(int(len(args)/2))` over the two
      slices, so a trailing unpaired argument is never read. */
  function Pairs(args: seq<Arg>): (pairs: seq<(Arg, Arg)>)
    ensures |pairs| == |args| / 2
    ensures forall i :: 0 <= i < |pairs| ==> pairs[i] == (args[2 * i], args[2 * i + 1])
  {
    var objects, radii := Evens(args), Odds(args);
    seq(|args| / 2, i requires 0 <= i < |args| / 2 => (objects[i], radii[i]))
  }

  /** An argument left over at the end changes nothing. */
  lemma PairsIgnoreTrailing(args: seq<Arg>, extra: Arg)
    requires |args| % 2 == 0
    ensures Pairs(args + [extra]) == Pairs(args)
  {
    var a, b := Pairs(args + [extra]), Pairs(args);
    assert |a| == |b|;
    forall i | 0 <= i < |a|
      ensures a[i] == b[i]
    {
      assert (args + [extra])[2 * i] == args[2 * i];
      assert (args + [extra])[2 * i + 1] == args[2 * i + 1];
    }
  }

  /** Appending a (body, radius) pair appends exactly that pair. */
  lemma PairsAppend(args: seq<Arg>, body: Arg, radius: Arg)
    requires |args| % 2 == 0
    ensures Pairs(args + [body, radius]) == Pairs(args) + [(body, radius)]
  {
    var a, b := Pairs(args + [body, radius]), Pairs(args) + [(body, radius)];
    assert |a| == |b|;
    forall i | 0 <= i < |a|
      ensures a[i] == b[i]
    {
      if i < |args| / 2 {
        assert (args + [body, radius])[2 * i] == args[2 * i];
        assert (args + [body, radius])[2 * i + 1] == args[2 * i + 1];
      }
    }
  }

  // ---------------------------------------------------------------------------
  // One body

  /** The per-timestep test for one body. `ang_S = arcsin(radius / |s2o|)` is
      NaN when the spacecraft is at the body's centre or inside the body
      (`|radius / |s2o|| > 1`), and a comparison with NaN is false, so the
      pulsar then counts as hidden. Otherwise the pulsar is visible iff
      `arctan2(|s2o x s2p|, dot)` is strictly larger than the body's angular
      radius: a pulsar exactly on the limb is hidden. `dot` is the entry of
      the dot-product column the test is paired with (see `DiagDot`). */
  predicate Visible(tr: Functions, s2o: Vec3, s2p: Vec3, dot: real, radius: real) {
    var dist := tr.sqrt(NormSq(s2o));
    && dist != 0.0
    && -1.0 <= radius / dist <= 1.0
    && tr.atan2(tr.sqrt(NormSq(Cross(s2o, s2p))), dot) > tr.asin(radius / dist)
  }

  /** Entry `j` of `np.diag(np.dot(s2p, s2o.T))` once broadcast against the
      cross-product norms. The diagonal holds `s2p[k] . s2o[k]` for `k` below
      the smaller row count; when one side has a single row it is the one
      entry `s2p[0] . s2o[0]`, repeated down the column. */
  function DiagDot(s2o: seq<Vec3>, s2p: seq<Vec3>, j: nat): (d: real)
    requires |s2o| > 0 && |s2p| > 0
    ensures |s2o| == |s2p| && j < |s2o| ==> d == Dot(s2p[j], s2o[j])
    ensures |s2o| != |s2p| ==> d == Dot(s2p[0], s2o[0])
  {
    var k := if |s2o| == |s2p| && j < |s2o| then j else 0;
    Dot(s2p[k], s2o[k])
  }

  /** The access column of one (body, radius) pair. `np.cross`, `arctan2` and
      the final comparison broadcast a one-row separation against the other
      one, so the column has the broadcast row count; separations of two
      different counts, neither of them one, make `np.cross` raise. */
  function Column(tr: Functions, self: seq<Vec3>, pulsar: Track, pair: (Arg, Arg))
    : (r: Result<seq<bool>, ColumnError>)
    ensures r.Success? <==>
      && pair.0.BodyArg? && pair.1.RadiusArg?
      && Separation(self, pair.0.track).Success? && Separation(self, pulsar).Success?
      && BroadcastRows(|Separation(self, pair.0.track).value|, |Separation(self, pulsar).value|).Some?
    ensures r.Success? ==>
      var s2o, s2p := Separation(self, pair.0.track).value, Separation(self, pulsar).value;
      && |r.value| == BroadcastRows(|s2o|, |s2p|).value
      && forall j :: 0 <= j < |r.value| ==>
           (r.value[j] <==> Visible(tr, RowAt(s2o, j), RowAt(s2p, j), DiagDot(s2o, s2p, j), pair.1.radius))
  {
    if !pair.0.BodyArg? then Failure(NotABody)
    else match Separation(self, pair.0.track)
      case Failure(e) => Failure(BadShape(e))
      case Success(s2o) =>
        match Separation(self, pulsar)
        case Failure(e) => Failure(BadShape(e))
        case Success(s2p) =>
          if !pair.1.RadiusArg? then Failure(NotARadius)
          else match BroadcastRows(|s2o|, |s2p|)
            case None => Failure(RowMismatch)
            case Some(n) =>
              Success(seq(n, j requires 0 <= j < n =>
                Visible(tr, RowAt(s2o, j), RowAt(s2p, j), DiagDot(s2o, s2p, j), pair.1.radius)))
  }

  /** For a trajectory of other than one row both separations have one row per
      timestep, and entry `j` is the limb test on step `j`'s own vectors. */
  lemma ColumnPerStep(tr: Functions, self: seq<Vec3>, pulsar: Track, pair: (Arg, Arg))
    requires |self| != 1 && Column(tr, self, pulsar, pair).Success?
    ensures var c := Column(tr, self, pulsar, pair).value;
      var s2o, s2p := Separation(self, pair.0.track).value, Separation(self, pulsar).value;
      && |c| == |self| == |s2o| == |s2p|
      && forall j :: 0 <= j < |c| ==> (c[j] <==> Visible(tr, s2o[j], s2p[j], Dot(s2p[j], s2o[j]), pair.1.radius))
  {
  }

  /** A one-row trajectory against a body series of several rows and a fixed
      pulsar still gives a column, one entry per body row. Each entry takes the
      cross product with its own body row but the dot product of row 0, so the
      angle at row `j > 0` is not the angle between body and pulsar there. */
  lemma OneRowBroadcast(tr: Functions, s: Vec3, bs: seq<Vec3>, q: Vec3, radius: real)
    requires |bs| > 1
    ensures var c := Column(tr, [s], Fixed(q), (BodyArg(Series(bs)), RadiusArg(radius)));
      && c.Success? && |c.value| == |bs|
      && forall j :: 0 <= j < |bs| ==>
           (c.value[j] <==> Visible(tr, Sub(bs[j], s), Sub(q, s), Dot(Sub(q, s), Sub(bs[0], s)), radius))
  {
    var s2o := Separation([s], Series(bs)).value;
    var s2p := Separation([s], Fixed(q)).value;
    assert |s2o| == |bs| && |s2p| == 1;
    assert forall j :: 0 <= j < |bs| ==> RowAt(s2o, j) == Sub(bs[j], s);
    assert RowAt(s2p, 0) == Sub(q, s);
  }

  /** A pair yields a column of `w` rows. */
  predicate Fits(tr: Functions, self: seq<Vec3>, pulsar: Track, x: (Arg, Arg), w: nat) {
    var c := Column(tr, self, pulsar, x);
    c.Success? && |c.value| == w
  }

  /** A pair leaves the pulsar visible at row `j`. */
  predicate ClearAt(tr: Functions, self: seq<Vec3>, pulsar: Track, x: (Arg, Arg), j: nat) {
    var c := Column(tr, self, pulsar, x);
    c.Success? && j < |c.value| && c.value[j]
  }

  // ---------------------------------------------------------------------------
  // The loop and the row-wise AND

  /** The loop from pair `k` on. `width` is the row count of the frame once
      its first column is in; a later column of another length is rejected
      on assignment. */
  function ColumnsFrom(tr: Functions, self: seq<Vec3>, pulsar: Track, pairs: seq<(Arg, Arg)>, k: nat, width: Option<nat>)
    : (r: Result<seq<seq<bool>>, AccessError>)
    requires k <= |pairs|
    ensures r.Success? ==> |r.value| == |pairs| - k
    decreases |pairs| - k
  {
    if k == |pairs| then Success([])
    else
      match Column(tr, self, pulsar, pairs[k])
      case Failure(e) => Failure(AccessError(k, e))
      case Success(col) =>
        if width.Some? && |col| != width.value then Failure(AccessError(k, ColumnLength))
        else
          var w := if width.Some? then width.value else |col|;
          match ColumnsFrom(tr, self, pulsar, pairs, k + 1, Some(w))
          case Failure(e) => Failure(e)
          case Success(rest) => Success([col] + rest)
  }

  /** `access_df.all(axis=1)`: the AND across each row. A frame without
      columns has no rows, so the result is empty rather than all true. */
  function Combine(cols: seq<seq<bool>>): (r: seq<bool>)
    requires ColumnsUniformAt(cols)
    ensures |cols| == 0 ==> r == []
    ensures |cols| > 0 ==> |r| == |cols[0]|
    ensures forall j :: 0 <= j < |r| ==> (r[j] <==> forall k :: 0 <= k < |cols| ==> cols[k][j])
  {
    if |cols| == 0 then []
    else seq(|cols[0]|, j requires 0 <= j < |cols[0]| => forall k :: 0 <= k < |cols| ==> cols[k][j])
  }

  /** `pulsar_access(pulsar, *args)` for a spacecraft at `self[i]` at step `i`. */
  function PulsarAccess(tr: Functions, self: seq<Vec3>, pulsar: Track, args: seq<Arg>)
    : (r: Result<seq<bool>, AccessError>)
  {
    match ColumnsFrom(tr, self, pulsar, Pairs(args), 0, None)
    case Failure(e) => Failure(e)
    case Success(cols) =>
      ColumnsUniform(tr, self, pulsar, Pairs(args));
      Success(Combine(cols))
  }

  // ---------------------------------------------------------------------------
  // What the loop computes

  /** The width the frame has when the loop reaches pair `k`. */
  function WidthAt(tr: Functions, self: seq<Vec3>, pulsar: Track, pairs: seq<(Arg, Arg)>, k: nat, width: Option<nat>): nat
    requires k <= |pairs|
  {
    if width.Some? then width.value
    else if k < |pairs| && Column(tr, self, pulsar, pairs[k]).Success?
    then |Column(tr, self, pulsar, pairs[k]).value| else 0
  }

  /** The loop succeeds iff every remaining pair yields a column of the frame's
      width, and then it returns exactly those columns. */
  lemma ColumnsFromSpec(tr: Functions, self: seq<Vec3>, pulsar: Track,
                        pairs: seq<(Arg, Arg)>, k: nat, width: Option<nat>)
    requires k <= |pairs|
    ensures var r := ColumnsFrom(tr, self, pulsar, pairs, k, width);
      var w := WidthAt(tr, self, pulsar, pairs, k, width);
      && (r.Success? <==> forall i :: k <= i < |pairs| ==> Fits(tr, self, pulsar, pairs[i], w))
      && (r.Success? ==> forall i :: k <= i < |pairs| ==> r.value[i - k] == Column(tr, self, pulsar, pairs[i]).value)
  {
    ColumnsFromSucceeds(tr, self, pulsar, pairs, k, width);
    ColumnsFromValues(tr, self, pulsar, pairs, k, width);
  }

  lemma {:induction false} ColumnsFromSucceeds(tr: Functions, self: seq<Vec3>, pulsar: Track,
                                               pairs: seq<(Arg, Arg)>, k: nat, width: Option<nat>)
    requires k <= |pairs|
    ensures var w := WidthAt(tr, self, pulsar, pairs, k, width);
      ColumnsFrom(tr, self, pulsar, pairs, k, width).Success? <==>
        forall i :: k <= i < |pairs| ==> Fits(tr, self, pulsar, pairs[i], w)
    decreases |pairs| - k
  {
    if k < |pairs| {
      var c := Column(tr, self, pulsar, pairs[k]);
      var w := WidthAt(tr, self, pulsar, pairs, k, width);
      if c.Success? && !(width.Some? && |c.value| != width.value) {
        ColumnsFromSucceeds(tr, self, pulsar, pairs, k + 1, Some(w));
        var rest := ColumnsFrom(tr, self, pulsar, pairs, k + 1, Some(w));
        assert Fits(tr, self, pulsar, pairs[k], w);
        if rest.Success? {
          assert ColumnsFrom(tr, self, pulsar, pairs, k, width).Success?;
          forall i | k <= i < |pairs|
            ensures Fits(tr, self, pulsar, pairs[i], w)
          {
            if i > k {
              assert k + 1 <= i < |pairs|;
            }
          }
        } else {
          assert ColumnsFrom(tr, self, pulsar, pairs, k, width).Failure?;
          var i :| k + 1 <= i < |pairs| && !Fits(tr, self, pulsar, pairs[i], w);
        }
      } else {
        assert !Fits(tr, self, pulsar, pairs[k], w);
      }
    }
  }

  lemma {:induction false} ColumnsFromValues(tr: Functions, self: seq<Vec3>, pulsar: Track,
                                             pairs: seq<(Arg, Arg)>, k: nat, width: Option<nat>)
    requires k <= |pairs|
    ensures var r := ColumnsFrom(tr, self, pulsar, pairs, k, width);
      r.Success? ==> forall i :: k <= i < |pairs| ==>
        Column(tr, self, pulsar, pairs[i]).Success? && r.value[i - k] == Column(tr, self, pulsar, pairs[i]).value
    decreases |pairs| - k
  {
    if k < |pairs| {
      var c := Column(tr, self, pulsar, pairs[k]);
      if c.Success? && !(width.Some? && |c.value| != width.value) {
        var w := if width.Some? then width.value else |c.value|;
        ColumnsFromValues(tr, self, pulsar, pairs, k + 1, Some(w));
      }
    }
  }

  predicate ColumnsUniformAt(cols: seq<seq<bool>>) {
    forall k :: 0 <= k < |cols| ==> |cols[k]| == |cols[0]|
  }

  /** All the columns of a successful loop have the same length. */
  lemma ColumnsUniform(tr: Functions, self: seq<Vec3>, pulsar: Track, pairs: seq<(Arg, Arg)>)
    ensures var r := ColumnsFrom(tr, self, pulsar, pairs, 0, None);
      r.Success? ==> ColumnsUniformAt(r.value)
  {
    ColumnsFromSpec(tr, self, pulsar, pairs, 0, None);
    var r := ColumnsFrom(tr, self, pulsar, pairs, 0, None);
    if r.Success? {
      forall k | 0 <= k < |r.value|
        ensures |r.value[k]| == |r.value[0]|
      {
        assert r.value[k - 0] == Column(tr, self, pulsar, pairs[k]).value;
        assert r.value[0 - 0] == Column(tr, self, pulsar, pairs[0]).value;
        assert Fits(tr, self, pulsar, pairs[k], |Column(tr, self, pulsar, pairs[0]).value|);
      }
    }
  }

  /** The whole call, stated without the loop: with no pair the result is
      empty; otherwise it succeeds iff every pair yields a column as long as
      the first one, and the pulsar is visible at step `j` iff every pair
      leaves it clear there. */
  lemma PulsarAccessSpec(tr: Functions, self: seq<Vec3>, pulsar: Track, args: seq<Arg>)
    ensures var pairs := Pairs(args);
      var r := PulsarAccess(tr, self, pulsar, args);
      && (|pairs| == 0 ==> r == Success([]))
      && (|pairs| > 0 ==>
           (r.Success? <==>
              (Column(tr, self, pulsar, pairs[0]).Success? &&
               forall x :: x in pairs ==> Fits(tr, self, pulsar, x, |Column(tr, self, pulsar, pairs[0]).value|))))
      && (|pairs| > 0 && r.Success? ==>
           && |r.value| == |Column(tr, self, pulsar, pairs[0]).value|
           && forall j :: 0 <= j < |r.value| ==>
                (r.value[j] <==> forall x :: x in pairs ==> ClearAt(tr, self, pulsar, x, j)))
  {
    var pairs := Pairs(args);
    ColumnsFromSpec(tr, self, pulsar, pairs, 0, None);
    if |pairs| > 0 {
      SucceedsIffAllFit(tr, self, pulsar, pairs);
      RowsAreConjunctions(tr, self, pulsar, pairs);
    }
  }

  lemma SucceedsIffAllFit(tr: Functions, self: seq<Vec3>, pulsar: Track, pairs: seq<(Arg, Arg)>)
    requires |pairs| > 0
    ensures ColumnsFrom(tr, self, pulsar, pairs, 0, None).Success? <==>
      (Column(tr, self, pulsar, pairs[0]).Success? &&
       forall x :: x in pairs ==> Fits(tr, self, pulsar, x, |Column(tr, self, pulsar, pairs[0]).value|))
  {
    ColumnsFromSpec(tr, self, pulsar, pairs, 0, None);
    var r := ColumnsFrom(tr, self, pulsar, pairs, 0, None);
    if !r.Success? && Column(tr, self, pulsar, pairs[0]).Success? {
      var w := |Column(tr, self, pulsar, pairs[0]).value|;
      var i :| 0 <= i < |pairs| && !Fits(tr, self, pulsar, pairs[i], w);
      assert pairs[i] in pairs;
    }
    if r.Success? {
      assert Fits(tr, self, pulsar, pairs[0], |Column(tr, self, pulsar, pairs[0]).value|);
    }
  }

  lemma RowsAreConjunctions(tr: Functions, self: seq<Vec3>, pulsar: Track, pairs: seq<(Arg, Arg)>)
    requires |pairs| > 0
    ensures var r := ColumnsFrom(tr, self, pulsar, pairs, 0, None);
      r.Success? ==>
        ColumnsUniformAt(r.value) &&
        |Combine(r.value)| == |Column(tr, self, pulsar, pairs[0]).value| &&
        forall j :: 0 <= j < |Combine(r.value)| ==>
          (Combine(r.value)[j] <==> forall x :: x in pairs ==> ClearAt(tr, self, pulsar, x, j))
  {
    ColumnsFromSpec(tr, self, pulsar, pairs, 0, None);
    ColumnsUniform(tr, self, pulsar, pairs);
    var r := ColumnsFrom(tr, self, pulsar, pairs, 0, None);
    if r.Success? {
      var cols := r.value;
      assert cols[0 - 0] == Column(tr, self, pulsar, pairs[0]).value;
      var clear := (x: (Arg, Arg), j: nat) => ClearAt(tr, self, pulsar, x, j);
      forall i, j | 0 <= i < |cols| && 0 <= j < |cols[i]|
        ensures cols[i][j] == clear(pairs[i], j)
      {
        assert cols[i - 0] == Column(tr, self, pulsar, pairs[i]).value;
      }
      CombineIsAll(cols, pairs, clear);
    }
  }

  /** The row-wise AND over columns computed from a list of items is the
      conjunction over the items, whatever their order. */
  lemma CombineIsAll<X>(cols: seq<seq<bool>>, items: seq<X>, clear: (X, nat) -> bool)
    requires |cols| == |items| > 0 && ColumnsUniformAt(cols)
    requires forall i, j :: 0 <= i < |cols| && 0 <= j < |cols[i]| ==> cols[i][j] == clear(items[i], j)
    ensures forall j :: 0 <= j < |Combine(cols)| ==> (Combine(cols)[j] <==> forall x :: x in items ==> clear(x, j))
  {
    var comb := Combine(cols);
    forall j | 0 <= j < |comb|
      ensures comb[j] <==> forall x :: x in items ==> clear(x, j)
    {
      if comb[j] {
        forall x | x in items
          ensures clear(x, j)
        {
          var i :| 0 <= i < |items| && items[i] == x;
          assert cols[i][j];
        }
      } else {
        var i :| 0 <= i < |cols| && !cols[i][j];
        assert items[i] in items;
      }
    }
  }

  /** With fewer than two arguments the loop never runs and the result is empty. */
  lemma NoBodies(tr: Functions, self: seq<Vec3>, pulsar: Track, args: seq<Arg>)
    requires |args| < 2
    ensures PulsarAccess(tr, self, pulsar, args) == Success([])
  {
    PulsarAccessSpec(tr, self, pulsar, args);
  }

  /** A trailing unpaired argument is ignored. */
  lemma TrailingArgumentIgnored(tr: Functions, self: seq<Vec3>, pulsar: Track, args: seq<Arg>, extra: Arg)
    requires |args| % 2 == 0
    ensures PulsarAccess(tr, self, pulsar, args + [extra]) == PulsarAccess(tr, self, pulsar, args)
  {
    PairsIgnoreTrailing(args, extra);
  }

  /** The result does not depend on the order of the (body, radius) pairs. */
  lemma OrderIndependent(tr: Functions, self: seq<Vec3>, pulsar: Track, a: seq<Arg>, b: seq<Arg>)
    requires multiset(Pairs(a)) == multiset(Pairs(b))
    ensures PulsarAccess(tr, self, pulsar, a).Success? == PulsarAccess(tr, self, pulsar, b).Success?
    ensures PulsarAccess(tr, self, pulsar, a).Success? ==>
      PulsarAccess(tr, self, pulsar, a) == PulsarAccess(tr, self, pulsar, b)
  {
    var pa, pb := Pairs(a), Pairs(b);
    PulsarAccessSpec(tr, self, pulsar, a);
    PulsarAccessSpec(tr, self, pulsar, b);
    assert forall x :: x in pa <==> x in pb by {
      forall x
        ensures x in pa <==> x in pb
      {
        assert x in pa <==> x in multiset(pa);
        assert x in pb <==> x in multiset(pb);
      }
    }
    assert |pa| == |multiset(pa)| == |multiset(pb)| == |pb|;
    if |pa| > 0 {
      var ra, rb := PulsarAccess(tr, self, pulsar, a), PulsarAccess(tr, self, pulsar, b);
      assert pa[0] in pb && pb[0] in pa;
      if ra.Success? {
        var w := |Column(tr, self, pulsar, pa[0]).value|;
        assert Fits(tr, self, pulsar, pb[0], w);
        assert rb.Success?;
        assert |ra.value| == |rb.value|;
        forall j | 0 <= j < |ra.value|
          ensures ra.value[j] == rb.value[j]
        {
        }
        assert ra.value == rb.value;
      }
    }
  }

  /** Adding a body can only hide the pulsar: wherever the pulsar is visible
      with the extra body, it was visible without it. */
  lemma MoreBodiesLessAccess(tr: Functions, self: seq<Vec3>, pulsar: Track, args: seq<Arg>, body: Arg, radius: Arg)
    requires |args| % 2 == 0 && |args| >= 2
    requires PulsarAccess(tr, self, pulsar, args + [body, radius]).Success?
    ensures PulsarAccess(tr, self, pulsar, args).Success?
    ensures var before, after := PulsarAccess(tr, self, pulsar, args).value,
                                 PulsarAccess(tr, self, pulsar, args + [body, radius]).value;
      |before| == |after| && forall j :: 0 <= j < |after| ==> after[j] ==> before[j]
  {
    PairsAppend(args, body, radius);
    PulsarAccessSpec(tr, self, pulsar, args);
    PulsarAccessSpec(tr, self, pulsar, args + [body, radius]);
    var p := Pairs(args);
    var q := Pairs(args + [body, radius]);
    assert forall x :: x in p ==> x in q;
    assert q[0] == p[0];
  }

  /** For a spacecraft trajectory of other than one row, any successful result
      with at least one body has one entry per timestep. */
  lemma OneEntryPerStep(tr: Functions, self: seq<Vec3>, pulsar: Track, args: seq<Arg>)
    requires |self| != 1 && |args| >= 2
    requires PulsarAccess(tr, self, pulsar, args).Success?
    ensures |PulsarAccess(tr, self, pulsar, args).value| == |self|
  {
    PulsarAccessSpec(tr, self, pulsar, args);
  }
}
