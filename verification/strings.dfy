/** Character and string helpers that stand in for Python's `str()` of an
    integer and for the `re.sub(r'[^a-zA-Z0-9]', '', s)` filter. */
module Strings {

  predicate IsDigit(c: char) {
    '0' <= c <= '9'
  }

  /** ASCII letters and digits: the character class `[a-zA-Z0-9]`. */
  predicate IsAlnum(c: char) {
    ('a' <= c <= 'z') || ('A' <= c <= 'Z') || IsDigit(c)
  }

  function DigitChar(d: nat): (c: char)
    requires d < 10
    ensures IsDigit(c)
    ensures c as int - '0' as int == d
  {
    (('0' as int) + d) as char
  }

  /** Python's `str(n)` for a non-negative integer: decimal digits, no
      leading zero unless `n == 0`. */
  function NatToString(n: nat): (s: string)
    ensures |s| > 0
    ensures forall i :: 0 <= i < |s| ==> IsDigit(s[i])
    ensures s[0] == '0' ==> n == 0
    decreases n
  {
    if n < 10 then [DigitChar(n)] else NatToString(n / 10) + [DigitChar(n % 10)]
  }

  /** The value denoted by a string of decimal digits. */
  function DigitsValue(s: string): nat
    requires forall i :: 0 <= i < |s| ==> IsDigit(s[i])
  {
    if |s| == 0 then 0
    else
      assert IsDigit(s[|s| - 1]);
      DigitsValue(s[..|s| - 1]) * 10 + (s[|s| - 1] as int - '0' as int)
  }

  /** Reading back the digits of `str(n)` gives `n`. */
  lemma {:induction false} NatToStringRoundTrip(n: nat)
    ensures DigitsValue(NatToString(n)) == n
    decreases n
  {
    if n >= 10 {
      NatToStringRoundTrip(n / 10);
      var s := NatToString(n);
      assert s[..|s| - 1] == NatToString(n / 10);
    }
  }

  /** `str` is injective on naturals, so `'C' + str(i)` names differ for
      different `i`. */
  lemma NatToStringInjective(a: nat, b: nat)
    ensures NatToString(a) == NatToString(b) <==> a == b
  {
    if NatToString(a) == NatToString(b) {
      NatToStringRoundTrip(a);
      NatToStringRoundTrip(b);
    }
  }

  /** Python's `str(i)` for any integer. */
  function IntToString(i: int): (s: string)
    ensures |s| > 0
    ensures i >= 0 ==> s == NatToString(i)
    ensures i < 0 ==> s[0] == '-' && s[1..] == NatToString(-i)
  {
    if i >= 0 then NatToString(i) else "-" + NatToString(-i)
  }

  predicate AllAlnum(s: string) {
    forall i :: 0 <= i < |s| ==> IsAlnum(s[i])
  }

  /** `a` can be obtained from `b` by deleting characters. */
  predicate IsSubsequence(a: string, b: string)
    decreases |b|
  {
    if |a| == 0 then true
    else if |b| == 0 then false
    else if a[|a| - 1] == b[|b| - 1] then IsSubsequence(a[..|a| - 1], b[..|b| - 1])
    else IsSubsequence(a, b[..|b| - 1])
  }

  /** `re.sub(r'[^a-zA-Z0-9]', '', s)`: every character outside the class is removed. */
  function KeepAlnum(s: string): (r: string)
    ensures |r| <= |s|
    ensures AllAlnum(r)
    ensures IsSubsequence(r, s)
  {
    if |s| == 0 then ""
    else
      var prefix := KeepAlnum(s[..|s| - 1]);
      if IsAlnum(s[|s| - 1]) then prefix + [s[|s| - 1]] else prefix
  }

  /** The filter distributes over concatenation: each character is kept or
      dropped on its own. */
  lemma {:induction false} KeepAlnumConcat(a: string, b: string)
    ensures KeepAlnum(a + b) == KeepAlnum(a) + KeepAlnum(b)
    decreases |b|
  {
    if |b| == 0 {
      assert a + b == a;
    } else {
      var b' := b[..|b| - 1];
      assert (a + b)[..|a + b| - 1] == a + b';
      KeepAlnumConcat(a, b');
    }
  }

  /** A string is left unchanged by the filter exactly when it is already
      all letters and digits; in particular filtering twice equals filtering once. */
  lemma {:induction false} KeepAlnumFixedPoint(s: string)
    ensures KeepAlnum(s) == s <==> AllAlnum(s)
    ensures KeepAlnum(KeepAlnum(s)) == KeepAlnum(s)
    decreases |s|
  {
    if |s| > 0 {
      KeepAlnumFixedPoint(s[..|s| - 1]);
      if !IsAlnum(s[|s| - 1]) {
        assert |KeepAlnum(s)| < |s|;
      } else if KeepAlnum(s) == s {
        assert KeepAlnum(s[..|s| - 1]) == s[..|s| - 1];
      }
      KeepAllAlnum(KeepAlnum(s));
    }
  }

  lemma {:induction false} KeepAllAlnum(s: string)
    requires AllAlnum(s)
    ensures KeepAlnum(s) == s
    decreases |s|
  {
    if |s| > 0 {
      KeepAllAlnum(s[..|s| - 1]);
      assert s[..|s| - 1] + [s[|s| - 1]] == s;
    }
  }
}
