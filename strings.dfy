/**
 * The part of Python's `str` that the configuration resolver relies on:
 * `str.isspace` on one character and `str.strip()` with no argument.
 */
module PyStrings {

  /**
   * The characters Python's `str.isspace` accepts: those whose bidirectional
   * class is WS, B or S, or whose general category is Zs.
   */
  predicate IsSpace(c: char) {
    ('\U{0009}' <= c <= '\U{000D}') || ('\U{001C}' <= c <= '\U{001F}') || c == ' '
    || c == '\U{0085}' || c == '\U{00A0}' || c == '\U{1680}'
    || ('\U{2000}' <= c <= '\U{200A}') || c == '\U{2028}' || c == '\U{2029}'
    || c == '\U{202F}' || c == '\U{205F}' || c == '\U{3000}'
  }

  /** Python's whitespace table, one code point at a time. */
  const PythonWhitespace: set<char> := {
    '\U{0009}', '\U{000A}', '\U{000B}', '\U{000C}', '\U{000D}',
    '\U{001C}', '\U{001D}', '\U{001E}', '\U{001F}', '\U{0020}',
    '\U{0085}', '\U{00A0}', '\U{1680}',
    '\U{2000}', '\U{2001}', '\U{2002}', '\U{2003}', '\U{2004}', '\U{2005}',
    '\U{2006}', '\U{2007}', '\U{2008}', '\U{2009}', '\U{200A}',
    '\U{2028}', '\U{2029}', '\U{202F}', '\U{205F}', '\U{3000}'
  }

  /** The range tests of `IsSpace` accept exactly the characters of the table. */
  lemma IsSpaceMatchesTable(c: char)
    ensures IsSpace(c) <==> c in PythonWhitespace
  {
  }

  ghost predicate AllSpace(s: string) {
    forall i :: 0 <= i < |s| ==> IsSpace(s[i])
  }

  /** Every character of `s` at an index in [lo, hi) is whitespace. */
  ghost predicate SpaceBetween(s: string, lo: int, hi: int) {
    forall i :: lo <= i < hi && 0 <= i < |s| ==> IsSpace(s[i])
  }

  /** Neither the first nor the last character is whitespace. */
  predicate Stripped(s: string) {
    s == [] || (!IsSpace(s[0]) && !IsSpace(s[|s| - 1]))
  }

  /** `r` sits in `s` at index `k` with only whitespace before and after it. */
  ghost predicate StripAt(s: string, r: string, k: int) {
    0 <= k && k + |r| <= |s| && r == s[k..k + |r|]
    && SpaceBetween(s, 0, k) && SpaceBetween(s, k + |r|, |s|)
  }

  /**
   * Reference definition of `s.strip()`: `r` is what is left of `s` once a
   * whitespace-only prefix and a whitespace-only suffix are cut off, and it
   * neither starts nor ends with whitespace.
   */
  ghost predicate IsStripOf(s: string, r: string) {
    Stripped(r) && exists k :: StripAt(s, r, k)
  }

  /** Drops the leading whitespace of `s`. */
  function TrimStart(s: string): (r: string)
    ensures |r| <= |s| && r == s[|s| - |r|..]
    ensures SpaceBetween(s, 0, |s| - |r|)
    ensures r == [] || !IsSpace(r[0])
  {
    if s != [] && IsSpace(s[0]) then
      var r := TrimStart(s[1..]);
      assert forall i :: 1 <= i < |s| ==> s[i] == s[1..][i - 1];
      r
    else
      s
  }

  /** Drops the trailing whitespace of `s`. */
  function TrimEnd(s: string): (r: string)
    ensures |r| <= |s| && r == s[..|r|]
    ensures SpaceBetween(s, |r|, |s|)
    ensures r == [] || !IsSpace(r[|r| - 1])
  {
    if s != [] && IsSpace(s[|s| - 1]) then
      TrimEnd(s[..|s| - 1])
    else
      s
  }

  /** Python's `s.strip()`: whitespace removed at both ends, the middle untouched. */
  function Strip(s: string): (r: string)
    ensures IsStripOf(s, r)
  {
    var t := TrimStart(s);
    var r := TrimEnd(t);
    TrimBothIsStrip(s, t, r);
    r
  }

  /** Trimming the start and then the end leaves a strip of the input. */
  lemma TrimBothIsStrip(s: string, t: string, r: string)
    requires t == TrimStart(s) && r == TrimEnd(t)
    ensures IsStripOf(s, r)
  {
    var k := |s| - |t|;
    SuffixThenPrefix(s, t, r, k);
    assert Stripped(r) by {
      assert r != [] ==> r[0] == t[0];
    }
    assert StripAt(s, r, k);
  }

  /** A prefix `r` of the suffix `t` of `s` that starts at `k` is a slice of `s`. */
  lemma SuffixThenPrefix(s: string, t: string, r: string, k: int)
    requires 0 <= k <= |s| && t == s[k..] && |r| <= |t| && r == t[..|r|]
    requires SpaceBetween(t, |r|, |t|)
    ensures r == s[k..k + |r|] && SpaceBetween(s, k + |r|, |s|)
  {
    assert r == s[k..k + |r|];
    forall i | k + |r| <= i < |s| ensures IsSpace(s[i]) {
      assert s[i] == t[i - k];
    }
  }

  /** Whatever `s` is, there is only one string `r` that `IsStripOf(s, r)` admits. */
  lemma StripOfUnique(s: string, r1: string, r2: string)
    requires IsStripOf(s, r1) && IsStripOf(s, r2)
    ensures r1 == r2
  {
    var k1 :| StripAt(s, r1, k1);
    var k2 :| StripAt(s, r2, k2);
    var e1, e2 := k1 + |r1|, k2 + |r2|;
    if r1 != [] && r2 != [] {
      assert s[k1] == r1[0] && s[k2] == r2[0];
      assert k1 == k2;
      assert s[e1 - 1] == r1[|r1| - 1] && s[e2 - 1] == r2[|r2| - 1];
      assert e1 == e2;
    }
  }

  /** A string already stripped is its own strip. */
  lemma StrippedIsStripOfItself(s: string)
    requires Stripped(s)
    ensures IsStripOf(s, s)
  {
    assert StripAt(s, s, 0);
  }

  /** `strip()` is idempotent: stripping a second time changes nothing. */
  lemma StripIdempotent(s: string)
    ensures Strip(Strip(s)) == Strip(s)
  {
    var t := Strip(s);
    StrippedIsStripOfItself(t);
    StripOfUnique(t, Strip(t), t);
  }

  /** Whitespace around a stripped string is exactly what `strip()` removes. */
  lemma StripSurrounded(a: string, t: string, b: string)
    requires AllSpace(a) && AllSpace(b) && Stripped(t)
    ensures Strip(a + t + b) == t
  {
    var s := a + t + b;
    var k := |a|;
    assert forall i :: 0 <= i < k ==> s[i] == a[i];
    assert forall i :: k + |t| <= i < |s| ==> s[i] == b[i - k - |t|];
    assert s[k..k + |t|] == t;
    assert StripAt(s, t, k);
    StripOfUnique(s, Strip(s), t);
  }

  /** `strip()` yields the empty string exactly when the input is all whitespace. */
  lemma StripEmptyIffAllSpace(s: string)
    ensures Strip(s) == [] <==> AllSpace(s)
  {
    var r := Strip(s);
    var k :| StripAt(s, r, k);
  }
}
