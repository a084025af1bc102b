/** `Pulsar` and `Pulsar.saveToFile`: a pulsar record written out as an STK
    star file (`.st`). The file is a fixed text document of nested
    `BEGIN X` / `END X` blocks; it is modelled as a tree of blocks that is
    flattened into the list of lines the method writes, so that the nesting
    can be proved once for every document of that shape. */
module StkFile {
  import opened Wrappers
  import opened Strings
  import opened PulsarName

  /** A pulsar as `Pulsar.__init__` stores it. The catalogue values (name,
      epoch, declination, right ascension, reference frame) are only ever
      written with `str()`, so they are held as that text. */
  datatype Pulsar = Pulsar(
    name: string,
    epoch: string,
    dec: string,
    rightA: string,
    refFrame: string,
    raPerYr: int,
    decPerYr: int,
    parallax: int,
    magnitude: Option<string>,
    rv: string,
    id: int)

  /** The radial velocity a new pulsar starts with. */
  const ZeroVelocity: string := "0.0000000000000000e+00"

  /** `Pulsar(p_name, epoch, dec, right_a, ref_frame='J2000')`. */
  function NewPulsar(name: string, epoch: string, dec: string, rightA: string,
                     refFrame: string := "J2000"): (p: Pulsar)
    ensures p.name == name && p.epoch == epoch && p.dec == dec && p.rightA == rightA
    ensures p.refFrame == refFrame
    ensures p.raPerYr == 0 && p.decPerYr == 0 && p.parallax == 0 && p.id == 0
    ensures p.magnitude.None? && p.rv == ZeroVelocity
  {
    Pulsar(name, epoch, dec, rightA, refFrame, 0, 0, 0, None, ZeroVelocity, 0)
  }

  /** `str(self.magnitude)`: `None` prints as `None`. */
  function MagnitudeText(m: Option<string>): string {
    match m
    case None => "None"
    case Some(s) => s
  }

  /** A document: literal text, or a named block with the line breaks after
      its `BEGIN` and `END` markers and the nodes between them. */
  datatype Node =
    | Text(text: string)
    | Block(name: string, openGap: string, body: seq<Node>, closeGap: string)

  /** What a written line is: a block's opening or closing marker, or text. */
  datatype Kind = Open(name: string) | Close(name: string) | Plain

  /** One written line with the nesting level it is indented to. */
  datatype Line = Line(level: nat, kind: Kind, text: string)

  /** Four spaces per nesting level. */
  function Indent(level: nat): (s: string)
    ensures |s| == 4 * level && forall i :: 0 <= i < |s| ==> s[i] == ' '
  {
    if level == 0 then "" else "    " + Indent(level - 1)
  }

  /** The lines of the nodes `ns` at nesting level `level`: a block's body
      sits one level deeper than its markers. */
  function Flatten(ns: seq<Node>, level: nat): seq<Line>
    decreases ns
  {
    if |ns| == 0 then [] else FlattenNode(ns[0], level) + Flatten(ns[1..], level)
  }

  function FlattenNode(n: Node, level: nat): seq<Line>
    decreases n
  {
    match n
    case Text(t) => [Line(level, Plain, Indent(level) + t)]
    case Block(name, openGap, body, closeGap) =>
      [Line(level, Open(name), Indent(level) + "BEGIN " + name + openGap)]
      + Flatten(body, level + 1)
      + [Line(level, Close(name), Indent(level) + "END " + name + closeGap)]
  }

  /** Reads lines with a stack of open blocks (name and level). Each `END`
      must close the innermost open block, at the same level, and every
      line inside a block must be indented deeper than the block. The
      result is the stack left open, or `None` for a mismatch. */
  function Scan(lines: seq<Line>, open: seq<(string, nat)>): (r: Option<seq<(string, nat)>>)
    decreases |lines|
  {
    if |lines| == 0 then Some(open)
    else
      var l := lines[0];
      match l.kind
      case Close(n) =>
        if |open| > 0 && open[|open| - 1] == (n, l.level) then Scan(lines[1..], open[..|open| - 1])
        else None
      case Open(n) =>
        if Inside(l, open) then Scan(lines[1..], open + [(n, l.level)]) else None
      case Plain =>
        if Inside(l, open) then Scan(lines[1..], open) else None
  }

  /** The line is indented deeper than the innermost open block. */
  predicate Inside(l: Line, open: seq<(string, nat)>) {
    |open| == 0 || open[|open| - 1].1 < l.level
  }

  /** Every `BEGIN X` has its `END X`, properly nested and indented. */
  predicate WellNested(lines: seq<Line>) {
    Scan(lines, []) == Some([])
  }

  function Opens(lines: seq<Line>): nat
    decreases |lines|
  {
    if |lines| == 0 then 0 else (if lines[0].kind.Open? then 1 else 0) + Opens(lines[1..])
  }

  function Closes(lines: seq<Line>): nat
    decreases |lines|
  {
    if |lines| == 0 then 0 else (if lines[0].kind.Close? then 1 else 0) + Closes(lines[1..])
  }

  /** A successful scan opens and closes blocks in balance with the stack. */
  lemma {:induction false} ScanBalance(lines: seq<Line>, open: seq<(string, nat)>)
    requires Scan(lines, open).Some?
    ensures |Scan(lines, open).value| + Closes(lines) == |open| + Opens(lines)
    decreases |lines|
  {
    if |lines| > 0 {
      var l := lines[0];
      match l.kind
      case Close(n) => ScanBalance(lines[1..], open[..|open| - 1]);
      case Open(n) => ScanBalance(lines[1..], open + [(n, l.level)]);
      case Plain => ScanBalance(lines[1..], open);
    }
  }

  /** So a well-nested document has as many `BEGIN` as `END` markers. */
  lemma WellNestedBalanced(lines: seq<Line>)
    requires WellNested(lines)
    ensures Opens(lines) == Closes(lines)
  {
    ScanBalance(lines, []);
  }

  /** A flattened node list leaves the open stack as it found it, whatever
      follows, provided it sits deeper than the innermost open block. */
  lemma {:induction false} ScanFlatten(ns: seq<Node>, level: nat, rest: seq<Line>, open: seq<(string, nat)>)
    requires |open| == 0 || open[|open| - 1].1 < level
    ensures Scan(Flatten(ns, level) + rest, open) == Scan(rest, open)
    decreases ns
  {
    if |ns| == 0 {
      assert Flatten(ns, level) + rest == rest;
    } else {
      assert Flatten(ns, level) + rest == FlattenNode(ns[0], level) + (Flatten(ns[1..], level) + rest);
      ScanFlattenNode(ns[0], level, Flatten(ns[1..], level) + rest, open);
      ScanFlatten(ns[1..], level, rest, open);
    }
  }

  lemma {:induction false} ScanFlattenNode(n: Node, level: nat, rest: seq<Line>, open: seq<(string, nat)>)
    requires |open| == 0 || open[|open| - 1].1 < level
    ensures Scan(FlattenNode(n, level) + rest, open) == Scan(rest, open)
    decreases n
  {
    match n
    case Text(t) =>
      assert (FlattenNode(n, level) + rest)[1..] == rest;
    case Block(name, openGap, body, closeGap) =>
      var first := Line(level, Open(name), Indent(level) + "BEGIN " + name + openGap);
      var last := Line(level, Close(name), Indent(level) + "END " + name + closeGap);
      var inner := open + [(name, level)];
      var lines := FlattenNode(n, level) + rest;
      assert lines == [first] + (Flatten(body, level + 1) + ([last] + rest));
      assert lines[1..] == Flatten(body, level + 1) + ([last] + rest);
      ScanFlatten(body, level + 1, [last] + rest, inner);
      assert ([last] + rest)[1..] == rest;
      assert inner[..|inner| - 1] == open;
  }

  /** Every document built from blocks is well nested. */
  lemma DocumentsNest(ns: seq<Node>)
    ensures WellNested(Flatten(ns, 0))
  {
    ScanFlatten(ns, 0, [], []);
    assert Flatten(ns, 0) + [] == Flatten(ns, 0);
  }

  /** A block that is opened and never closed is rejected. */
  lemma UnclosedRejected(name: string)
    ensures !WellNested([Line(0, Open(name), "BEGIN " + name)])
  {
    ScanBalance([Line(0, Open(name), "BEGIN " + name)], []);
  }

  lemma FlattenHead(ns: seq<Node>, level: nat)
    requires |ns| > 0
    ensures Flatten(ns, level) == FlattenNode(ns[0], level) + Flatten(ns[1..], level)
  {
  }

  lemma {:induction false} FlattenAppend(a: seq<Node>, b: seq<Node>, level: nat)
    ensures Flatten(a + b, level) == Flatten(a, level) + Flatten(b, level)
    decreases |a|
  {
    if |a| == 0 {
      assert a + b == b;
    } else {
      assert (a + b)[0] == a[0] && (a + b)[1..] == a[1..] + b;
      FlattenAppend(a[1..], b, level);
    }
  }

  /** The lines of a node list start with the lines of any prefix of it. */
  lemma FlattenPrefix(a: seq<Node>, b: seq<Node>, level: nat)
    ensures var ab := Flatten(a + b, level); var fa := Flatten(a, level);
      |ab| >= |fa| && ab[..|fa|] == fa
  {
    FlattenAppend(a, b, level);
  }

  /** A run of text nodes gives one plain line each, at the same level. */
  lemma {:induction false} FlattenTexts(ns: seq<Node>, level: nat)
    requires forall i :: 0 <= i < |ns| ==> ns[i].Text?
    ensures var ls := Flatten(ns, level);
      |ls| == |ns| && forall i :: 0 <= i < |ns| ==> ls[i] == Line(level, Plain, Indent(level) + ns[i].text)
    decreases |ns|
  {
    if |ns| > 0 {
      FlattenTexts(ns[1..], level);
    }
  }

  /** The last line of a list of nodes ending in a block is that block's `END`. */
  lemma {:induction false} FlattenLast(ns: seq<Node>, level: nat)
    requires |ns| > 0 && ns[|ns| - 1].Block?
    ensures var ls := Flatten(ns, level); var b := ns[|ns| - 1];
      |ls| > 0 && ls[|ls| - 1] == Line(level, Close(b.name), Indent(level) + "END " + b.name + b.closeGap)
    decreases |ns|
  {
    if |ns| > 1 {
      FlattenLast(ns[1..], level);
    }
  }

  /** The document `saveToFile` writes for `p`, whose name is already formatted. */
  function Document(p: Pulsar): seq<Node> {
    [ Text("stk.v.12.0\n"),
      Text("WrittenBy    OpenXNAV\n\n"),
      Block("Star", "\n\n", StarBody(p), "")]
  }

  function StarBody(p: Pulsar): seq<Node> {
    StarHead(p) + StarTail(p)
  }

  /** The name line and the path block. */
  function StarHead(p: Pulsar): seq<Node> {
    [ Text("Name\t\t " + p.name + "\n\n"),
      Block("PathDescription", "\n\n", PathFields(p), "\n\n")]
  }

  /** The magnitude, id and extension blocks. */
  function StarTail(p: Pulsar): seq<Node> {
    DataBlocks(p) + [Block("Extensions", "\n\n", Extensions, "\n\n")]
  }

  function DataBlocks(p: Pulsar): seq<Node> {
    [ Block("PhysicalData", "\n\n", [
        Text("Magnitude\t\t  " + MagnitudeText(p.magnitude) + "\n\n")], "\n\n"),
      Block("IdentityData", "\n\n", [
        Text("Id\t\t " + IntToString(p.id) + "\n\n")], "\n\n\n")]
  }

  function PathFields(p: Pulsar): seq<Node> {
    [ Text("Epoch\t\t  " + p.epoch + "\n"),
      Text("RefFrame\t\t " + p.refFrame + "\n"),
      Text("RightAscension\t\t  " + p.rightA + "\n"),
      Text("Declination\t\t  " + p.dec + "\n"),
      Text("ProperMotionRAPerYr\t\t " + IntToString(p.raPerYr) + "\n"),
      Text("ProperMotionDecPerYr\t\t " + IntToString(p.decPerYr) + "\n"),
      Text("Parallax\t\t  " + IntToString(p.parallax) + "\n"),
      Text("RadialVelocity\t\t  " + p.rv + "\n\n")]
  }

  /** The `Extensions` block, the same for every pulsar. */
  const Extensions: seq<Node> :=
    [ Block("ExternData", "\n", [], "\n\n"),
      Block("ADFFileData", "\n", [], "\n\n"),
      Block("AccessConstraints", "\n", [
        Text("LineOfSight IncludeIntervals\n\n"),
        Text("UsePreferredMaxStep No\n"),
        Text("PreferredMaxStep 360\n")], "\n\n"),
      Block("Desc", "\n", [], "\n\n"),
      Block("Crdn", "\n", [], "\n\n"),
      Block("Graphics", "\n\n", [
        Block("Attributes", "\n\n", [
          Text("MarkerColor\t\t #00ff00\n"),
          Text("LabelColor\t\t #00ff00\n"),
          Text("MarkerStyle\t\t 2\n"),
          Text("FontStyle\t\t 0\n\n")], "\n\n"),
        Block("Graphics", "\n\n", [
          Text("Show\t\t On\n"),
          Text("Inherit\t\t On\n"),
          Text("ShowLabel\t\t On\n"),
          Text("ShowMarker\t\t On\n\n")], "\n")], "\n\n"),
      Block("VO", "\n", [], "\n\n")]

  /** The text of each line. */
  function Texts(lines: seq<Line>): (r: seq<string>)
    ensures |r| == |lines| && forall i :: 0 <= i < |lines| ==> r[i] == lines[i].text
  {
    seq(|lines|, i requires 0 <= i < |lines| => lines[i].text)
  }

  /** The lines of the document, as text. */
  function Lines(p: Pulsar): seq<string> {
    Texts(Flatten(Document(p), 0))
  }

  /** What `saveToFile` leaves behind: the pulsar with its name formatted,
      the lines written and the path they are written to. */
  datatype Saved = Saved(pulsar: Pulsar, lines: seq<string>, path: string)

  /** `saveToFile(root_directory)`. The file write itself is left out. */
  function SaveToFile(p: Pulsar, root: string): (r: Saved)
    ensures r.pulsar == p.(name := Format(p.name))
    ensures '+' !in r.pulsar.name
    ensures r.path == root + r.pulsar.name + ".st"
    ensures r.lines == Lines(r.pulsar)
    ensures WellNested(Flatten(Document(r.pulsar), 0))
  {
    var q := p.(name := Format(p.name));
    DocumentsNest(Document(q));
    Saved(q, Lines(q), root + q.name + ".st")
  }

  /** Four and eight spaces: the indentation of the first two levels. */
  lemma IndentValues()
    ensures Indent(0) == "" && Indent(1) == "    " && Indent(2) == "        "
  {
  }

  /** The path lines, one per field, two levels deep. */
  lemma PathLines(p: Pulsar)
    ensures var fs := Flatten(PathFields(p), 2);
      |fs| == 8
      && fs[0].text == Indent(2) + ("Epoch\t\t  " + p.epoch + "\n")
      && fs[1].text == Indent(2) + ("RefFrame\t\t " + p.refFrame + "\n")
      && fs[2].text == Indent(2) + ("RightAscension\t\t  " + p.rightA + "\n")
      && fs[3].text == Indent(2) + ("Declination\t\t  " + p.dec + "\n")
  {
    FlattenTexts(PathFields(p), 2);
  }

  /** The name line, then the path block with its fields one level deeper. */
  lemma HeadLines(p: Pulsar)
    ensures var h := Flatten(StarHead(p), 1); var fs := Flatten(PathFields(p), 2);
      |h| == 3 + |fs|
      && h[0].text == Indent(1) + ("Name\t\t " + p.name + "\n\n")
      && forall k :: 0 <= k < |fs| ==> h[2 + k] == fs[k]
  {
    var head := StarHead(p);
    FlattenHead(head, 1);
    FlattenHead(head[1..], 1);
    assert head[1..][1..] == [];
  }

  /** Inside `Star`: the name line, then the path block. */
  lemma StarLines(p: Pulsar)
    ensures var sb := Flatten(StarBody(p), 1); var fs := Flatten(PathFields(p), 2);
      |sb| >= 2 + |fs|
      && sb[0].text == Indent(1) + ("Name\t\t " + p.name + "\n\n")
      && forall k :: 0 <= k < |fs| ==> sb[2 + k] == fs[k]
  {
    var h := Flatten(StarHead(p), 1);
    FlattenPrefix(StarHead(p), StarTail(p), 1);
    HeadLines(p);
    assert forall k :: 0 <= k < |h| ==> Flatten(StarBody(p), 1)[k] == h[k];
  }

  /** The two header lines, then `Star`'s opening marker and body, and its
      closing marker last. */
  lemma DocumentLines(p: Pulsar)
    ensures var ls := Flatten(Document(p), 0); var sb := Flatten(StarBody(p), 1);
      |ls| >= 3 + |sb| && (forall k :: 0 <= k < |sb| ==> ls[3 + k] == sb[k])
      && ls[0].text == "stk.v.12.0\n" && ls[|ls| - 1].text == "END Star"
  {
    var d := Document(p);
    FlattenHead(d, 0);
    FlattenHead(d[1..], 0);
    FlattenHead(d[2..], 0);
    assert d[1..][1..] == d[2..];
    FlattenLast(d, 0);
    IndentValues();
  }

  /** The version header first and `END Star`, with no line break, last;
      then the name line and the catalogue fields, each on its own keyed
      line. */
  lemma DocumentText(p: Pulsar)
    ensures var ls := Lines(p);
      |ls| > 8
      && ls[0] == "stk.v.12.0\n" && ls[|ls| - 1] == "END Star"
      && ls[3] == Indent(1) + ("Name\t\t " + p.name + "\n\n")
      && ls[5] == Indent(2) + ("Epoch\t\t  " + p.epoch + "\n")
      && ls[6] == Indent(2) + ("RefFrame\t\t " + p.refFrame + "\n")
      && ls[7] == Indent(2) + ("RightAscension\t\t  " + p.rightA + "\n")
      && ls[8] == Indent(2) + ("Declination\t\t  " + p.dec + "\n")
  {
    var ls := Flatten(Document(p), 0);
    var sb := Flatten(StarBody(p), 1);
    var fs := Flatten(PathFields(p), 2);
    DocumentLines(p);
    StarLines(p);
    PathLines(p);
    assert ls[3] == sb[0];
    assert ls[5] == sb[2] == fs[0] && ls[6] == sb[3] == fs[1];
    assert ls[7] == sb[4] == fs[2] && ls[8] == sb[5] == fs[3];
  }

  /** What `saveToFile` writes: the document of the pulsar with its name
      formatted. */
  lemma SavedFileLayout(p: Pulsar, root: string)
    ensures var ls := SaveToFile(p, root).lines;
      |ls| > 8
      && ls[0] == "stk.v.12.0\n" && ls[|ls| - 1] == "END Star"
      && ls[3] == Indent(1) + ("Name\t\t " + Format(p.name) + "\n\n")
      && ls[5] == Indent(2) + ("Epoch\t\t  " + p.epoch + "\n")
      && ls[6] == Indent(2) + ("RefFrame\t\t " + p.refFrame + "\n")
      && ls[7] == Indent(2) + ("RightAscension\t\t  " + p.rightA + "\n")
      && ls[8] == Indent(2) + ("Declination\t\t  " + p.dec + "\n")
  {
    DocumentText(SaveToFile(p, root).pulsar);
  }

  /** A new pulsar is written with the `J2000` frame, zero proper motions,
      zero parallax and the zero radial velocity. */
  lemma NewPulsarWritten(name: string, epoch: string, dec: string, rightA: string)
    ensures var ls := Lines(NewPulsar(name, epoch, dec, rightA));
      |ls| > 12
      && ls[6] == Indent(2) + ("RefFrame\t\t " + "J2000" + "\n")
      && ls[9] == Indent(2) + ("ProperMotionRAPerYr\t\t " + "0" + "\n")
      && ls[10] == Indent(2) + ("ProperMotionDecPerYr\t\t " + "0" + "\n")
      && ls[11] == Indent(2) + ("Parallax\t\t  " + "0" + "\n")
      && ls[12] == Indent(2) + ("RadialVelocity\t\t  " + "0.0000000000000000e+00" + "\n\n")
  {
    var p := NewPulsar(name, epoch, dec, rightA);
    var ls := Flatten(Document(p), 0);
    var sb := Flatten(StarBody(p), 1);
    var fs := Flatten(PathFields(p), 2);
    DocumentLines(p);
    StarLines(p);
    FlattenTexts(PathFields(p), 2);
    assert IntToString(0) == "0";
    assert ls[6] == sb[3] == fs[1];
    assert ls[9] == sb[6] == fs[4] && ls[10] == sb[7] == fs[5];
    assert ls[11] == sb[8] == fs[6] && ls[12] == sb[9] == fs[7];
  }

  /** `saveToFile` stores the formatted name back, so saving again formats
      it again; for a name without `+` that changes nothing. */
  lemma SaveTwice(p: Pulsar, root: string)
    ensures var once := SaveToFile(p, root); var twice := SaveToFile(once.pulsar, root);
      twice.pulsar.name == Format(Format(p.name))
      && ('+' !in p.name ==> twice == once)
  {
    if '+' !in p.name {
      FormatIdempotentWithoutPlus(p.name);
    }
  }

  /** A name with a `-` before a `+` is saved under one file name the first
      time and under another the second time. */
  lemma SaveTwiceMixedName(p: Pulsar, root: string, a: string, b: string, c: string)
    requires '+' !in a && '+' !in b && '+' !in c
    requires '-' !in a && '-' !in b && '-' !in c
    requires p.name == a + "-" + b + "+" + c
    ensures SaveToFile(p, root).path == root + (a + "-" + b + "_" + c) + ".st"
    ensures SaveToFile(SaveToFile(p, root).pulsar, root).path == root + (a + "_" + b + "_" + c) + ".st"
  {
    FormatAgainChangesMixedName(a, b, c);
  }
}
