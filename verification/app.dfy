/** The non-GUI logic of the application's two screens: the start page
    fills the pulsar database by pushing every catalogue row onto a stack
    and saving one entry per clock tick, and the query page checks its
    inputs and picks the directory the results are saved into. Widgets are
    reduced to the fields the logic reads and writes; the clock is
    modelled by applying the tick handler explicitly. */
module App {
  import opened Wrappers
  import opened Strings
  import opened PulsarName
  import opened StkFile

  /** A button, reduced to whether it is disabled. */
  datatype Button = Button(disabled: bool)

  /** `setEnabled(button, isEnabled)`. */
  function SetEnabled(b: Button, isEnabled: bool): (r: Button)
    ensures r.disabled <==> !isEnabled
  {
    b.(disabled := !isEnabled)
  }

  /** Only the last call counts. */
  lemma SetEnabledLastWins(b: Button, x: bool, y: bool)
    ensures SetEnabled(SetEnabled(b, x), y) == SetEnabled(b, y)
  {
  }

  /** A catalogue row `[PSRJ, PEPOCH, DECJ, RAJD]`, each value as `str()`
      prints it. */
  datatype Row = Row(psrj: string, pepoch: string, decj: string, rajd: string)

  /** `Pulsar(pulsar[0], pulsar[1], pulsar[2], pulsar[3])`: name, epoch,
      declination, right ascension. */
  function PulsarOf(row: Row): (p: Pulsar)
    ensures p.name == row.psrj && p.epoch == row.pepoch && p.dec == row.decj && p.rightA == row.rajd
    ensures p == NewPulsar(row.psrj, row.pepoch, row.decj, row.rajd)
  {
    NewPulsar(row.psrj, row.pepoch, row.decj, row.rajd)
  }

  /** Where the start page saves the database. */
  const DatabaseRoot: string := "pulsar_database/"

  /** `generateLoadingText`. */
  function LoadingText(txt: string): string {
    "\n\n[b][font=Gentona-BookItalic][size=15sp]" + txt + "[/b][/size][/font]"
  }

  const DoneMessage: string := "Successfully generated pulsar database!"

  /** What the loading label shows: the text it was given, the pulsar being
      saved, or the closing message. */
  datatype Status = Shown(text: string) | Saving(pulsar: Pulsar) | Done

  /** The label's text. While a pulsar is saved it names the pulsar as
      `saveToFile` has just renamed it. */
  function StatusText(s: Status): (t: string)
    ensures s.Shown? ==> t == s.text
    ensures s.Saving? ==> t == LoadingText("Loading " + SaveToFile(s.pulsar, DatabaseRoot).pulsar.name + " into database . . .")
    ensures s.Done? ==> t == LoadingText(DoneMessage)
  {
    match s
    case Shown(text) => text
    case Saving(p) => LoadingText("Loading " + Format(p.name) + " into database . . .")
    case Done => LoadingText(DoneMessage)
  }

  /** The start page while it loads the database: the stack of pulsars not
      yet saved, the progress bar's value and maximum, whether the clock
      event is still scheduled, the start button, the loading text and the
      pulsars handed to `saveToFile` so far, in order; each of them is
      written to `SaveToFile(p, DatabaseRoot)`. */
  datatype Loader = Loader(
    stack: seq<Pulsar>,
    progress: nat,
    progressMax: nat,
    timerActive: bool,
    button: Button,
    status: Status,
    saved: seq<Pulsar>)

  /** The page once it has found no database: button disabled, nothing
      pushed, nothing written. */
  function Loading(status: string): (l: Loader)
    ensures l.stack == [] && l.saved == [] && l.progress == 0
    ensures l.button.disabled && !l.timerActive
  {
    Loader([], 0, 0, false, Button(true), Shown(status), [])
  }

  /** `generatePulsarDatabase`: set the bar's maximum, schedule the tick
      handler, then push one pulsar per row in row order. */
  method Generate(l: Loader, rows: seq<Row>) returns (r: Loader)
    ensures r.progressMax == |rows| && r.timerActive
    ensures |r.stack| == |l.stack| + |rows|
    ensures r.stack[..|l.stack|] == l.stack
    ensures forall i :: 0 <= i < |rows| ==> r.stack[|l.stack| + i] == PulsarOf(rows[i])
    ensures r.progress == l.progress && r.button == l.button && r.status == l.status
    ensures r.saved == l.saved
  {
    r := l.(progressMax := |rows|, timerActive := true);
    var i := 0;
    while i < |rows|
      invariant 0 <= i <= |rows|
      invariant |r.stack| == |l.stack| + i
      invariant r.stack[..|l.stack|] == l.stack
      invariant forall k :: 0 <= k < i ==> r.stack[|l.stack| + k] == PulsarOf(rows[k])
      invariant r == l.(progressMax := |rows|, timerActive := true, stack := r.stack)
    {
      r := r.(stack := r.stack + [PulsarOf(rows[i])]);
      i := i + 1;
    }
  }

  /** `handleSinglePulsarEntry`: save the most recently pushed pulsar and
      advance the bar by one, or, with nothing left, cancel the clock event
      and enable the start button. */
  function Tick(l: Loader): (r: Loader)
    ensures |l.stack| > 0 ==>
      && r.stack == l.stack[..|l.stack| - 1]
      && r.saved == l.saved + [l.stack[|l.stack| - 1]]
      && r.progress == l.progress + 1
      && r.button == l.button && r.timerActive == l.timerActive
      && r.status == Saving(l.stack[|l.stack| - 1])
    ensures |l.stack| == 0 ==>
      && r.stack == l.stack && r.progress == l.progress
      && r.saved == l.saved && !r.timerActive && !r.button.disabled
      && r.status == Done
    ensures r.progressMax == l.progressMax
  {
    if |l.stack| > 0 then
      var top := l.stack[|l.stack| - 1];
      l.(stack := l.stack[..|l.stack| - 1],
         saved := l.saved + [top],
         status := Saving(top),
         progress := l.progress + 1)
    else
      l.(timerActive := false,
         status := Done,
         button := SetEnabled(l.button, true))
  }

  /** One clock period: the handler runs while its event is scheduled. */
  function Step(l: Loader): Loader {
    if l.timerActive then Tick(l) else l
  }

  /** `n` clock periods. */
  function Run(l: Loader, n: nat): Loader
    decreases n
  {
    if n == 0 then l else Run(Step(l), n - 1)
  }

  /** The stack in the order it pops: the last pushed first. */
  function Reversed<T>(stack: seq<T>): (r: seq<T>)
    ensures |r| == |stack|
    ensures forall i :: 0 <= i < |stack| ==> r[i] == stack[|stack| - 1 - i]
  {
    seq(|stack|, i requires 0 <= i < |stack| => stack[|stack| - 1 - i])
  }

  /** Popping the top first and then the rest. */
  lemma ReversedTop<T>(stack: seq<T>)
    requires |stack| > 0
    ensures Reversed(stack) == [stack[|stack| - 1]] + Reversed(stack[..|stack| - 1])
  {
  }

  /** While the event is scheduled, a stack of `k` pulsars takes `k` ticks
      to empty, each adding one to the bar. */
  lemma {:induction false} Drain(l: Loader)
    requires l.timerActive
    ensures var r := Run(l, |l.stack|);
      r.stack == [] && r.timerActive
      && r.progress == l.progress + |l.stack| && r.progressMax == l.progressMax
      && r.button == l.button
    decreases |l.stack|
  {
    var k := |l.stack|;
    if k > 0 {
      var t := Tick(l);
      assert Run(l, k) == Run(t, k - 1);
      assert t.stack == l.stack[..k - 1] && t.progress == l.progress + 1;
      Drain(t);
    }
  }

  /** Meanwhile each tick saves the top pulsar: the pulsars come out last
      pushed first. */
  lemma {:induction false} DrainSaves(l: Loader)
    requires l.timerActive
    ensures Run(l, |l.stack|).saved == l.saved + Reversed(l.stack)
    decreases |l.stack|
  {
    var k := |l.stack|;
    if k == 0 {
      assert l.saved + Reversed(l.stack) == l.saved;
    } else {
      var t := Tick(l);
      assert Run(l, k) == Run(t, k - 1);
      assert t.stack == l.stack[..k - 1] && t.timerActive;
      DrainSaves(t);
      ReversedTop(l.stack);
      assert t.saved + Reversed(t.stack) == l.saved + Reversed(l.stack);
    }
  }

  /** Once the event is cancelled nothing changes any more. */
  lemma {:induction false} StoppedStaysStopped(l: Loader, n: nat)
    requires !l.timerActive
    ensures Run(l, n) == l
    decreases n
  {
    if n > 0 {
      StoppedStaysStopped(l, n - 1);
    }
  }

  /** From `N` pushed rows, `N + 1` ticks fill the bar exactly, save every
      row, last row first, then stop the clock and enable the button. */
  method GenerateAndRun(rows: seq<Row>, status: string) returns (r: Loader)
    ensures r.progress == |rows| == r.progressMax
    ensures r.stack == [] && !r.timerActive && !r.button.disabled
    ensures r.status == Done && StatusText(r.status) == LoadingText(DoneMessage)
    ensures |r.saved| == |rows|
    ensures forall i :: 0 <= i < |rows| ==> r.saved[i] == PulsarOf(rows[|rows| - 1 - i])
  {
    var g := Generate(Loading(status), rows);
    Drain(g);
    DrainSaves(g);
    var drained := Run(g, |rows|);
    RunSplit(g, |rows|);
    r := Step(drained);
    assert r == Run(g, |rows| + 1);
  }

  /** `n + 1` periods are `n` periods and then one more. */
  lemma {:induction false} RunSplit(l: Loader, n: nat)
    ensures Run(l, n + 1) == Step(Run(l, n))
    decreases n
  {
    if n > 0 {
      RunSplit(Step(l), n - 1);
    }
  }

  /** `str()` of a query field that may still be `None`. */
  function Str(v: Option<string>): (s: string)
    ensures v.None? ==> s == "None"
    ensures v.Some? ==> s == v.value
  {
    match v
    case None => "None"
    case Some(t) => t
  }

  /** The query page's fields; the radius is held as the text `str()`
      gives for it. */
  datatype Query = Query(raj: Option<string>, dec: Option<string>, rad: Option<string>, tag: Option<string>)

  /** The guard of `findPulsars`. `str(None)` is `"None"`, so only an empty
      text field stops the query. */
  predicate Runs(q: Query) {
    |Str(q.raj)| > 0 && |Str(q.dec)| > 0 && |Str(q.rad)| > 0
  }

  lemma RunsUnlessEmpty(q: Query)
    ensures Runs(q) <==> q.raj != Some("") && q.dec != Some("") && q.rad != Some("")
  {
  }

  const ResultsRoot: string := "query_results/"

  /** A tag given by the user: set and not empty. */
  predicate Tagged(q: Query) {
    q.tag.Some? && q.tag.value != ""
  }

  /** The tag made up when none is given: the three fields with everything
      but ASCII letters and digits removed. */
  function AutoTag(q: Query): (t: string)
    ensures AllAlnum(t) && IsSubsequence(t, Str(q.raj) + Str(q.dec) + Str(q.rad))
  {
    KeepAlnum(Str(q.raj) + Str(q.dec) + Str(q.rad))
  }

  /** The directory the results go into. */
  function ResultsDirectory(q: Query): (dir: string)
    ensures Tagged(q) ==> dir == ResultsRoot + q.tag.value + "/"
    ensures !Tagged(q) ==> dir == ResultsRoot + AutoTag(q) + "/"
  {
    if Tagged(q) then ResultsRoot + q.tag.value + "/" else ResultsRoot + AutoTag(q) + "/"
  }

  /** The made-up tag is already clean: filtering it again changes nothing,
      and it is filtered field by field. */
  lemma AutoTagClean(q: Query)
    ensures KeepAlnum(AutoTag(q)) == AutoTag(q)
    ensures AutoTag(q) == KeepAlnum(Str(q.raj)) + KeepAlnum(Str(q.dec)) + KeepAlnum(Str(q.rad))
  {
    KeepAlnumFixedPoint(AutoTag(q));
    KeepAlnumConcat(Str(q.raj) + Str(q.dec), Str(q.rad));
    KeepAlnumConcat(Str(q.raj), Str(q.dec));
  }

  /** Queries whose fields differ only in separators share a directory:
      `17:47:26` and `174726` are the same to it. */
  lemma SeparatorsIgnored(q: Query, raj: string)
    requires !Tagged(q) && q.raj.Some? && KeepAlnum(raj) == KeepAlnum(q.raj.value)
    ensures ResultsDirectory(q.(raj := Some(raj))) == ResultsDirectory(q)
  {
    AutoTagClean(q);
    AutoTagClean(q.(raj := Some(raj)));
  }

  /** `generateOutputText`. */
  function OutputText(txt: string): string {
    "[font=Gentona-Book]" + txt + "[/font]"
  }

  const NoneFound: string := "No pulsars found from this query. Adjust the parameters and try again."

  /** What a query leaves behind: the directory, the banner, one label per
      pulsar found and the files written. */
  datatype Outcome = Outcome(directory: string, banner: string, labels: seq<string>, written: seq<Saved>)

  /** `findPulsars`, given the rows the catalogue returns for the query.
      `None` when the guard stops it. */
  function FindPulsars(q: Query, found: seq<Row>): (r: Option<Outcome>)
    ensures r.Some? <==> Runs(q)
    ensures r.Some? ==> r.value.directory == ResultsDirectory(q)
    ensures r.Some? && |found| == 0 ==> r.value.banner == OutputText(NoneFound)
    ensures r.Some? && |found| > 0 ==>
      r.value.banner == OutputText("[b]" + NatToString(|found|) + " pulsars found.[/b]"
        + "\nResults saved to: " + ResultsDirectory(q))
    ensures r.Some? ==> |r.value.labels| == |r.value.written| == |found|
    ensures r.Some? ==> forall i :: 0 <= i < |found| ==>
      r.value.labels[i] == OutputText(found[i].psrj)
      && r.value.written[i] == SaveToFile(PulsarOf(found[i]), ResultsDirectory(q))
  {
    if !Runs(q) then None
    else
      var dir := ResultsDirectory(q);
      var banner :=
        if |found| > 0 then OutputText("[b]" + NatToString(|found|) + " pulsars found.[/b]" + "\nResults saved to: " + dir)
        else OutputText(NoneFound);
      Some(Outcome(dir, banner,
        seq(|found|, i requires 0 <= i < |found| => OutputText(found[i].psrj)),
        seq(|found|, i requires 0 <= i < |found| => SaveToFile(PulsarOf(found[i]), dir))))
  }

  /** Every file a query writes sits in the query's directory, under the
      pulsar's formatted name. */
  lemma QueryFilesInDirectory(q: Query, found: seq<Row>)
    requires Runs(q)
    ensures var out := FindPulsars(q, found).value;
      forall i :: 0 <= i < |found| ==>
        out.written[i].path == ResultsDirectory(q) + Format(found[i].psrj) + ".st"
  {
  }
}
