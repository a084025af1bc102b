/** `formatPulsarName`: catalogue names such as `J0437-4715` or `B1937+21`
    become file-system friendly names such as `J0437_4715`, built on
    Python's `str.split(sep, maxsplit)`. */
module PulsarName {
  import opened Wrappers

  /** The first position of `c` in `s`. */
  function Find(s: string, c: char): (r: Option<nat>)
    ensures r.None? <==> c !in s
    ensures r.Some? ==> r.value < |s| && s[r.value] == c && c !in s[..r.value]
  {
    if |s| == 0 then None
    else if s[0] == c then Some(0)
    else
      match Find(s[1..], c)
      case None => None
      case Some(i) =>
        assert s[..i + 1] == [s[0]] + s[1..][..i];
        Some(i + 1)
  }

  /** `Find` returns the first occurrence. */
  lemma FindFirst(s: string, c: char, i: nat)
    requires i <= |s| && c !in s[..i] && (i < |s| ==> s[i] == c)
    ensures i < |s| ==> Find(s, c) == Some(i)
    ensures i == |s| ==> Find(s, c) == None
  {
    assert s[..|s|] == s;
    if i < |s| {
      var r := Find(s, c).value;
      assert s[..i] == s[..r] + s[r..i] by { if r <= i { } }
    }
  }

  /** The parts put back together with the separator between them. */
  function Join(parts: seq<string>, c: char): string
    requires |parts| > 0
    decreases |parts|
  {
    if |parts| == 1 then parts[0] else parts[0] + [c] + Join(parts[1..], c)
  }

  /** `s.split(c, maxsplit)`: at most `maxsplit` cuts, from the left. Joining
      the parts gives `s` back, no part before the last contains the
      separator, and the last contains it only when the cuts ran out. */
  function Split(s: string, c: char, maxsplit: nat): (parts: seq<string>)
    ensures 1 <= |parts| <= maxsplit + 1
    ensures Join(parts, c) == s
    ensures forall k :: 0 <= k < |parts| - 1 ==> c !in parts[k]
    ensures |parts| <= maxsplit ==> c !in parts[|parts| - 1]
    ensures |parts| == 1 <==> maxsplit == 0 || c !in s
    decreases |s|
  {
    if maxsplit == 0 then [s]
    else
      match Find(s, c)
      case None => [s]
      case Some(i) =>
        var rest := Split(s[i + 1..], c, maxsplit - 1);
        var parts := [s[..i]] + rest;
        assert parts[1..] == rest;
        assert s == s[..i] + [c] + s[i + 1..];
        parts
  }

  /** The text up to the next `c`, or all of it. */
  function UpTo(s: string, c: char): (r: string)
    ensures c !in r && |r| <= |s|
  {
    match Find(s, c)
    case None => s
    case Some(i) => s[..i]
  }

  /** `formatPulsarName(p_name)`. */
  function Format(name: string): (r: string)
    ensures '+' !in r
    ensures |r| <= |name|
  {
    var plus := Split(name, '+', 2);
    var parts := if |plus| < 2 then Split(name, '-', 2) else plus;
    if |parts| < 2 then parts[0]
    else
      SplitHead(name, if |plus| < 2 then '-' else '+');
      parts[0] + "_" + parts[1]
  }

  /** With two cuts allowed, the first two parts are the text before the
      first separator and the text from there up to the next one. */
  lemma SplitHead(s: string, c: char)
    requires c in s
    ensures var parts := Split(s, c, 2); var i := Find(s, c).value;
      |parts| >= 2 && parts[0] == s[..i] && parts[1] == UpTo(s[i + 1..], c)
      && |parts[0]| + 1 + |parts[1]| <= |s|
  {
    var i := Find(s, c).value;
    var rest := s[i + 1..];
    var tail := Split(rest, c, 1);
    assert Split(s, c, 2) == [s[..i]] + tail;
    if c in rest {
      var k := Find(rest, c).value;
      assert Split(rest[k + 1..], c, 0) == [rest[k + 1..]];
      assert tail == [rest[..k]] + [rest[k + 1..]];
    }
  }

  /** A name with `+` keeps the text before the first `+`, then `_`, then the
      text up to a second `+`; anything after that is dropped. */
  lemma FormatPlus(name: string)
    requires '+' in name
    ensures var i := Find(name, '+').value;
      Format(name) == name[..i] + "_" + UpTo(name[i + 1..], '+')
  {
    SplitHead(name, '+');
  }

  /** `-` is split on only when there is no `+`, in the same way. */
  lemma FormatMinus(name: string)
    requires '+' !in name && '-' in name
    ensures var i := Find(name, '-').value;
      Format(name) == name[..i] + "_" + UpTo(name[i + 1..], '-')
  {
    SplitHead(name, '-');
  }

  /** A name is left as it is exactly when it holds neither separator. */
  lemma FormatUnchanged(name: string)
    ensures Format(name) == name <==> '+' !in name && '-' !in name
  {
    if '+' in name {
      assert Format(name) != name;
    } else if '-' in name {
      FormatMinus(name);
    }
  }

  /** A name without `+` is formatted once and for all: formatting again
      changes nothing. */
  lemma FormatIdempotentWithoutPlus(name: string)
    requires '+' !in name
    ensures Format(Format(name)) == Format(name)
  {
    if '-' in name {
      FormatMinus(name);
      var i := Find(name, '-').value;
      assert '-' !in name[..i];
      assert '-' !in Format(name);
    }
    FormatUnchanged(Format(name));
  }

  /** A name with a single `+` becomes its two halves joined by `_`, whatever
      the halves hold besides `+`. */
  lemma FormatOnePlus(a: string, b: string)
    requires '+' !in a && '+' !in b
    ensures Format(a + "+" + b) == a + "_" + b
  {
    var name := a + "+" + b;
    FindFirst(name, '+', |a|);
    assert name[..|a|] == a && name[|a| + 1..] == b;
    FindFirst(b, '+', |b|);
    FormatPlus(name);
  }

  /** A name with a single `-` and no `+` becomes its two halves joined by `_`. */
  lemma FormatOneMinus(a: string, b: string)
    requires '+' !in a && '+' !in b && '-' !in a && '-' !in b
    ensures Format(a + "-" + b) == a + "_" + b
  {
    var name := a + "-" + b;
    FindFirst(name, '-', |a|);
    assert name[..|a|] == a && name[|a| + 1..] == b;
    FindFirst(b, '-', |b|);
    FormatMinus(name);
  }

  /** With both separators, formatting is not idempotent: a second call, as a
      second `saveToFile` makes, formats the stored name again, so
      `A-B+C` is saved once as `A-B_C` and then as `A_B_C`. */
  lemma FormatAgainChangesMixedName(a: string, b: string, c: string)
    requires '+' !in a && '+' !in b && '+' !in c
    requires '-' !in a && '-' !in b && '-' !in c
    ensures Format(a + "-" + b + "+" + c) == a + "-" + b + "_" + c
    ensures Format(Format(a + "-" + b + "+" + c)) == a + "_" + b + "_" + c
  {
    var ab := a + "-" + b;
    assert '+' !in ab by {
      assert forall i :: 0 <= i < |ab| ==> ab[i] == (if i < |a| then a[i] else if i == |a| then '-' else b[i - |a| - 1]);
    }
    FormatOnePlus(ab, c);
    var bc := b + "_" + c;
    assert '+' !in bc && '-' !in bc by {
      assert forall i :: 0 <= i < |bc| ==> bc[i] == (if i < |b| then b[i] else if i == |b| then '_' else c[i - |b| - 1]);
    }
    assert ab + "_" + c == a + "-" + bc;
    assert a + "_" + b + "_" + c == a + "_" + bc;
    FormatOneMinus(a, bc);
  }
}
