/** `plot_accesses`: one row of horizontal bars per pulsar, a bar for every
    time step that starts at an index where the pulsar is accessible. The
    matplotlib axes are modelled as the list of drawing calls they receive. */
module AccessPlot {
  import opened Wrappers
  import opened Strings

  /** Indices `i` with `a[i]`, ascending: the index of
      `access_df[access_df['access'] == True]`. */
  function TrueIndices(a: seq<bool>): (idx: seq<nat>)
    ensures forall k :: 0 <= k < |idx| ==> idx[k] < |a| && a[idx[k]]
    ensures forall k, l :: 0 <= k < l < |idx| ==> idx[k] < idx[l]
    ensures forall i :: 0 <= i < |a| && a[i] ==> i in idx
    decreases |a|
  {
    if |a| == 0 then []
    else
      var rest := TrueIndices(a[..|a| - 1]);
      if a[|a| - 1] then rest + [|a| - 1] else rest
  }

  /** `for j in range(len(has_access) - 1)`: a bar from each True index
      `has_access.index[j]` to the next time step, for every True index but
      the last. A bar covers one time step, not the run up to the next True
      index. */
  function Segments(a: seq<bool>): (segs: seq<(nat, nat)>)
    ensures var k := |TrueIndices(a)|; |segs| == if k == 0 then 0 else k - 1
    ensures forall j :: 0 <= j < |segs| ==> segs[j].1 == segs[j].0 + 1 && segs[j].1 < |a| && a[segs[j].0]
    ensures forall j, l :: 0 <= j < l < |segs| ==> segs[j].0 < segs[l].0
  {
    var idx := TrueIndices(a);
    if |idx| == 0 then []
    else seq(|idx| - 1, j requires 0 <= j < |idx| - 1 => (idx[j], idx[j] + 1))
  }

  /** Step `i` starts a bar iff the pulsar is accessible there and again at
      some later step: the last accessible step never starts one. */
  lemma SegmentStarts(a: seq<bool>, i: nat)
    ensures (exists j :: 0 <= j < |Segments(a)| && Segments(a)[j].0 == i)
      <==> i < |a| && a[i] && exists l :: i < l < |a| && a[l]
  {
    if exists j :: 0 <= j < |Segments(a)| && Segments(a)[j].0 == i {
      var j :| 0 <= j < |Segments(a)| && Segments(a)[j].0 == i;
      StartHasLater(a, j);
    }
    if i < |a| && a[i] && exists l :: i < l < |a| && a[l] {
      var l :| i < l < |a| && a[l];
      LaterMeansStart(a, i, l);
    }
  }

  lemma StartHasLater(a: seq<bool>, j: nat)
    requires j < |Segments(a)|
    ensures var i := Segments(a)[j].0; i < |a| && a[i] && exists l :: i < l < |a| && a[l]
  {
    var idx := TrueIndices(a);
    assert Segments(a)[j].0 == idx[j];
    assert idx[j] < idx[j + 1] && a[idx[j + 1]];
  }

  lemma LaterMeansStart(a: seq<bool>, i: nat, l: nat)
    requires i < l < |a| && a[i] && a[l]
    ensures exists j :: 0 <= j < |Segments(a)| && Segments(a)[j].0 == i
  {
    var idx := TrueIndices(a);
    var k :| 0 <= k < |idx| && idx[k] == i;
    var m :| 0 <= m < |idx| && idx[m] == l;
    SortedIndexOrder(idx, k, m);
    assert Segments(a)[k].0 == i;
  }

  lemma SortedIndexOrder(idx: seq<nat>, k: nat, m: nat)
    requires forall k, l :: 0 <= k < l < |idx| ==> idx[k] < idx[l]
    requires k < |idx| && m < |idx| && idx[k] < idx[m]
    ensures k < m
  {
  }

  /** One `ax.hlines` call. */
  datatype HLine = HLine(y: nat, xmin: real, xmax: real, color: string)

  /** The axes once the function returns: y-limits, ticks, tick labels and the bars. */
  datatype Plot = Plot(yMin: int, yMax: int, ticks: seq<nat>, labels: seq<string>, lines: seq<HLine>)

  /** `t.datetime64[...]` read past the end of the time array. */
  datatype PlotError = TimeIndexOutOfRange(series: nat, index: nat)

  /** `'C' + str(i)`. */
  function Color(i: nat): (c: string)
    ensures |c| >= 2 && c[0] == 'C'
  {
    "C" + NatToString(i)
  }

  /** Different pulsars get different colours. */
  lemma ColorsDistinct(i: nat, j: nat)
    ensures Color(i) == Color(j) <==> i == j
  {
    if Color(i) == Color(j) {
      assert Color(i)[1..] == NatToString(i) && Color(j)[1..] == NatToString(j);
      NatToStringInjective(i, j);
    }
  }

  /** Every bar of a series ends inside the time array. */
  predicate SeriesFits(t: seq<real>, a: seq<bool>) {
    forall j :: 0 <= j < |Segments(a)| ==> Segments(a)[j].1 < |t|
  }

  /** The bars of series `i`, in order; the first bar whose end lies past the
      time array raises. */
  function LinesOf(t: seq<real>, i: nat, segs: seq<(nat, nat)>): (r: Result<seq<HLine>, PlotError>)
    requires forall j :: 0 <= j < |segs| ==> segs[j].1 == segs[j].0 + 1
    ensures r.Success? <==> forall j :: 0 <= j < |segs| ==> segs[j].1 < |t|
    ensures r.Success? ==> |r.value| == |segs| && forall j :: 0 <= j < |segs| ==>
      r.value[j] == HLine(i, t[segs[j].0], t[segs[j].1], Color(i))
    decreases |segs|
  {
    if |segs| == 0 then Success([])
    else if segs[0].0 >= |t| then Failure(TimeIndexOutOfRange(i, segs[0].0))
    else if segs[0].1 >= |t| then Failure(TimeIndexOutOfRange(i, segs[0].1))
    else
      match LinesOf(t, i, segs[1..])
      case Failure(e) => Failure(e)
      case Success(rest) => Success([HLine(i, t[segs[0].0], t[segs[0].1], Color(i))] + rest)
  }

  /** How many bars the series from `i` on draw. */
  function BarCount(accesses: seq<(string, seq<bool>)>, i: nat): nat
    requires i <= |accesses|
    decreases |accesses| - i
  {
    if i == |accesses| then 0 else |Segments(accesses[i].1)| + BarCount(accesses, i + 1)
  }

  /** The bars of every series from `i` on. */
  function AllLines(t: seq<real>, accesses: seq<(string, seq<bool>)>, i: nat): (r: Result<seq<HLine>, PlotError>)
    requires i <= |accesses|
    ensures r.Success? <==> forall k :: i <= k < |accesses| ==> SeriesFits(t, accesses[k].1)
    ensures r.Success? ==> |r.value| == BarCount(accesses, i)
    ensures r.Success? ==> forall l :: 0 <= l < |r.value| ==>
      i <= r.value[l].y < |accesses| && r.value[l].color == Color(r.value[l].y)
    decreases |accesses| - i
  {
    if i == |accesses| then Success([])
    else
      match LinesOf(t, i, Segments(accesses[i].1))
      case Failure(e) => Failure(e)
      case Success(ls) =>
        match AllLines(t, accesses, i + 1)
        case Failure(e) => Failure(e)
        case Success(rest) => Success(ls + rest)
  }

  /** `plot_accesses(ax, t, accesses)`, the dictionary given as its items in
      order. */
  function PlotAccesses(t: seq<real>, accesses: seq<(string, seq<bool>)>): (r: Result<Plot, PlotError>)
    ensures r.Success? <==> forall k :: 0 <= k < |accesses| ==> SeriesFits(t, accesses[k].1)
    ensures r.Success? ==> r.value.yMin == -1 && r.value.yMax == |accesses|
    ensures r.Success? ==> |r.value.ticks| == |r.value.labels| == |accesses|
    ensures r.Success? ==> forall k :: 0 <= k < |accesses| ==>
      r.value.ticks[k] == k && r.value.labels[k] == accesses[k].0
    ensures r.Success? ==> |r.value.lines| == BarCount(accesses, 0)
    ensures r.Success? ==> forall l :: 0 <= l < |r.value.lines| ==>
      r.value.lines[l].y < |accesses| && r.value.lines[l].color == Color(r.value.lines[l].y)
  {
    match AllLines(t, accesses, 0)
    case Failure(e) => Failure(e)
    case Success(lines) =>
      Success(Plot(-1, |accesses|,
        seq(|accesses|, k requires 0 <= k < |accesses| => k),
        seq(|accesses|, k requires 0 <= k < |accesses| => accesses[k].0),
        lines))
  }

  /** A time array at least as long as every access series is never read out
      of range. */
  lemma PlotSucceedsWhenTimesCover(t: seq<real>, accesses: seq<(string, seq<bool>)>)
    requires forall k :: 0 <= k < |accesses| ==> |accesses[k].1| <= |t|
    ensures PlotAccesses(t, accesses).Success?
  {
    forall k | 0 <= k < |accesses|
      ensures SeriesFits(t, accesses[k].1)
    {
    }
  }
}
