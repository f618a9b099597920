/**
 * The Python `str` operations the core relies on, over `seq<char>`.
 * Each function names the Python expression it stands for.
 */
module PyStr {

  /** `s.startswith(p)` */
  predicate StartsWith(s: string, p: string) {
    |p| <= |s| && s[..|p|] == p
  }

  /** `s.endswith(p)` */
  predicate EndsWith(s: string, p: string) {
    |p| <= |s| && s[|s| - |p|..] == p
  }

  /** `p in s` */
  predicate Contains(s: string, p: string)
    decreases |s|
  {
    StartsWith(s, p) || (|s| > 0 && Contains(s[1..], p))
  }

  /** A string that cannot contain `p`: its first character does not occur in it. */
  lemma {:induction false} ContainsNeedsFirstChar(s: string, p: string)
    requires |p| > 0 && p[0] !in s
    ensures !Contains(s, p)
    decreases |s|
  {
    if |s| > 0 {
      assert s[0] != p[0];
      ContainsNeedsFirstChar(s[1..], p);
    }
  }

  /**
   * A pattern whose first character occurs nowhere else in it: no occurrence
   * can overlap another, nor straddle the end of a string that lacks it.
   */
  predicate FirstCharUnique(p: string) {
    |p| > 0 && forall i :: 0 < i < |p| ==> p[i] != p[0]
  }

  /**
   * `s.replace(pat, "")`: scanning from the left, every non-overlapping
   * occurrence of `pat` is dropped and every other character is kept.
   */
  function RemoveAll(s: string, pat: string): (r: string)
    requires |pat| > 0
    ensures |r| <= |s|
    ensures forall c :: c in r ==> c in s
    ensures !Contains(s, pat) ==> r == s
    decreases |s|
  {
    if s == [] then []
    else if StartsWith(s, pat) then
      assert s == s[..|pat|] + s[|pat|..];
      RemoveAll(s[|pat|..], pat)
    else
      assert s == [s[0]] + s[1..];
      [s[0]] + RemoveAll(s[1..], pat)
  }

  /** Appending a pattern to a string that lacks it and removing every occurrence gives the string back. */
  lemma {:induction false} RemoveAppended(s: string, pat: string)
    requires FirstCharUnique(pat) && !Contains(s, pat)
    ensures RemoveAll(s + pat, pat) == s
    decreases |s|
  {
    if s == [] {
      assert ([] + pat)[|pat|..] == [];
    } else {
      assert !Contains(s[1..], pat);
      RemoveAppended(s[1..], pat);
      RemoveAppendedStep(s, pat);
    }
  }

  /** The inductive step: the first character of `s` is kept, and the rest is the shorter case. */
  lemma RemoveAppendedStep(s: string, pat: string)
    requires FirstCharUnique(pat) && !Contains(s, pat) && s != []
    requires RemoveAll(s[1..] + pat, pat) == s[1..]
    ensures RemoveAll(s + pat, pat) == s
  {
    var t := s + pat;
    PatternNotAtJoin(s, pat);
    assert t[1..] == s[1..] + pat;
    assert RemoveAll(t, pat) == [s[0]] + RemoveAll(t[1..], pat);
    assert [s[0]] + s[1..] == s;
  }

  /** No occurrence of such a pattern starts inside `s` and runs into the appended copy. */
  lemma PatternNotAtJoin(s: string, pat: string)
    requires FirstCharUnique(pat) && !Contains(s, pat) && s != []
    ensures !StartsWith(s + pat, pat)
  {
    var t := s + pat;
    if |s| >= |pat| {
      assert t[..|pat|] == s[..|pat|];
    } else {
      assert t[|s|] == pat[0];
      assert pat[|s|] != pat[0];
      assert |pat| <= |t| ==> t[..|pat|][|s|] == t[|s|];
    }
  }

  /** `s.split(sep)[-1]`: what follows the last `sep` in `s`, or all of `s` when there is none. */
  function LastSegment(s: string, sep: char): (r: string)
    ensures sep !in r && |r| <= |s|
    decreases |s|
  {
    if s == [] then []
    else if s[|s| - 1] == sep then []
    else LastSegment(s[..|s| - 1], sep) + [s[|s| - 1]]
  }

  /** The last segment is a suffix of `s`, and unless it is all of `s` a `sep` comes right before it. */
  lemma LastSegmentSuffix(s: string, sep: char)
    ensures s[|s| - |LastSegment(s, sep)|..] == LastSegment(s, sep)
    ensures |LastSegment(s, sep)| < |s| ==> s[|s| - |LastSegment(s, sep)| - 1] == sep
  {
    LastSegmentIsSuffix(s, sep);
    LastSegmentAfterSep(s, sep);
  }

  lemma {:induction false} LastSegmentIsSuffix(s: string, sep: char)
    ensures s[|s| - |LastSegment(s, sep)|..] == LastSegment(s, sep)
    decreases |s|
  {
    if s != [] && s[|s| - 1] != sep {
      var t := s[..|s| - 1];
      var r := LastSegment(t, sep);
      LastSegmentIsSuffix(t, sep);
      assert s[|s| - 1 - |r|..] == t[|t| - |r|..] + [s[|s| - 1]];
    }
  }

  lemma {:induction false} LastSegmentAfterSep(s: string, sep: char)
    ensures |LastSegment(s, sep)| < |s| ==> s[|s| - |LastSegment(s, sep)| - 1] == sep
    decreases |s|
  {
    if s != [] && s[|s| - 1] != sep {
      var t := s[..|s| - 1];
      LastSegmentAfterSep(t, sep);
      assert |LastSegment(s, sep)| == |LastSegment(t, sep)| + 1;
    }
  }

  /** The last segment of `a + sep + b` is `b` when `b` holds no `sep`. */
  lemma {:induction false} LastSegmentAfter(a: string, sep: char, b: string)
    requires sep !in b
    ensures LastSegment(a + [sep] + b, sep) == b
    decreases |b|
  {
    var s := a + [sep] + b;
    if b != [] {
      assert s[..|s| - 1] == a + [sep] + b[..|b| - 1];
      LastSegmentAfter(a, sep, b[..|b| - 1]);
      assert b == b[..|b| - 1] + [b[|b| - 1]];
    }
  }

  /** `c.lower()` for the ASCII letters; every other character is left as it is. */
  function LowerChar(c: char): char {
    if 'A' <= c <= 'Z' then (c as int + 32) as char else c
  }

  /** `s.lower()`, character by character. */
  function Lower(s: string): (r: string)
    ensures |r| == |s|
  {
    seq(|s|, i requires 0 <= i < |s| => LowerChar(s[i]))
  }

  /** The characters Python's `str.isspace` accepts. */
  predicate IsSpace(c: char) {
    || ('\t' <= c <= '\r')
    || ('\U{1c}' <= c <= ' ')
    || c == '\U{85}' || c == '\U{a0}' || c == '\U{1680}'
    || ('\U{2000}' <= c <= '\U{200a}')
    || c == '\U{2028}' || c == '\U{2029}' || c == '\U{202f}' || c == '\U{205f}' || c == '\U{3000}'
  }

  predicate AllSpace(s: string) {
    forall i :: 0 <= i < |s| ==> IsSpace(s[i])
  }

  /** Neither end of `s` is whitespace. */
  predicate Trimmed(s: string) {
    s == [] || (!IsSpace(s[0]) && !IsSpace(s[|s| - 1]))
  }

  /** `s.lstrip()` */
  function LStrip(s: string): (r: string)
    ensures EndsWith(s, r)
    ensures AllSpace(s[..|s| - |r|])
    ensures r == [] || !IsSpace(r[0])
    decreases |s|
  {
    if s != [] && IsSpace(s[0]) then
      var r := LStrip(s[1..]);
      assert s[1..][|s| - 1 - |r|..] == s[|s| - |r|..];
      assert forall i :: 1 <= i < |s| - |r| ==> s[i] == s[1..][..|s| - 1 - |r|][i - 1];
      r
    else s
  }

  /** `s.rstrip()` */
  function RStrip(s: string): (r: string)
    ensures StartsWith(s, r)
    ensures AllSpace(s[|r|..])
    ensures r == [] || !IsSpace(r[|r| - 1])
    decreases |s|
  {
    if s != [] && IsSpace(s[|s| - 1]) then
      var r := RStrip(s[..|s| - 1]);
      assert s[..|s| - 1][..|r|] == s[..|r|];
      assert forall i :: |r| <= i < |s| - 1 ==> s[i] == s[..|s| - 1][|r|..][i - |r|];
      r
    else s
  }

  /** `s` is `r` with whitespace, possibly none, on either side. */
  ghost predicate Padded(s: string, r: string) {
    exists i :: 0 <= i <= |s| - |r| && s[i..i + |r|] == r && AllSpace(s[..i]) && AllSpace(s[i + |r|..])
  }

  /**
   * `s.strip()`: the result is the slice of `s` left when the whitespace at
   * both ends is cut off, and it has no whitespace at either end.
   */
  function Strip(s: string): (r: string)
    ensures Trimmed(r) && Padded(s, r)
  {
    var l := LStrip(s);
    var r := RStrip(l);
    StripParts(s, l, r);
    r
  }

  /** How the two halves of `strip` fit together: `s` is spaces, then `r`, then spaces. */
  lemma StripParts(s: string, l: string, r: string)
    requires EndsWith(s, l) && AllSpace(s[..|s| - |l|]) && (l == [] || !IsSpace(l[0]))
    requires StartsWith(l, r) && AllSpace(l[|r|..]) && (r == [] || !IsSpace(r[|r| - 1]))
    ensures Trimmed(r) && Padded(s, r)
  {
    var i := |s| - |l|;
    SuffixPrefix(s, l, r);
    if r != [] {
      assert r[0] == l[0];
    }
    assert s[i..i + |r|] == r && AllSpace(s[..i]) && AllSpace(s[i + |r|..]);
  }

  /** A prefix `r` of a suffix `l` of `s` sits in `s` right where `l` starts. */
  lemma SuffixPrefix(s: string, l: string, r: string)
    requires |l| <= |s| && s[|s| - |l|..] == l && |r| <= |l| && l[..|r|] == r
    ensures s[|s| - |l|..|s| - |l| + |r|] == r && s[|s| - |l| + |r|..] == l[|r|..]
  {
    var i := |s| - |l|;
    assert s[i..i + |r|] == s[i..][..|r|];
    assert s[i + |r|..] == s[i..][|r|..];
  }

  /** Strip leaves a string with no whitespace at its ends as it is. */
  lemma StripTrimmed(s: string)
    requires Trimmed(s)
    ensures Strip(s) == s
  {
    assert LStrip(s) == s;
    assert RStrip(s) == s;
  }

  /** Strip is idempotent. */
  lemma StripIdempotent(s: string)
    ensures Strip(Strip(s)) == Strip(s)
  {
    StripTrimmed(Strip(s));
  }

  /** A string made only of whitespace strips to the empty string. */
  lemma {:induction false} StripAllSpace(s: string)
    requires AllSpace(s)
    ensures Strip(s) == []
    decreases |s|
  {
    if s != [] {
      assert IsSpace(s[0]);
      StripAllSpace(s[1..]);
      assert LStrip(s) == LStrip(s[1..]);
    }
  }

  /** Whitespace added at the end of a string is stripped away with the rest. */
  lemma StripAppendSpace(s: string, c: char)
    requires IsSpace(c)
    ensures Strip(s + [c]) == Strip(s)
  {
    if AllSpace(s) {
      LStripAllSpace(s);
      LStripAllSpace(s + [c]);
    } else {
      LStripAppend(s, c);
      var l := LStrip(s);
      assert (l + [c])[..|l + [c]| - 1] == l;
    }
  }

  lemma LStripAllSpace(s: string)
    requires AllSpace(s)
    ensures LStrip(s) == []
  {
  }

  lemma {:induction false} LStripAppend(s: string, c: char)
    requires !AllSpace(s)
    ensures LStrip(s + [c]) == LStrip(s) + [c]
    decreases |s|
  {
    if IsSpace(s[0]) {
      assert (s + [c])[1..] == s[1..] + [c];
      assert !AllSpace(s[1..]) by {
        var i :| 0 <= i < |s| && !IsSpace(s[i]);
        assert s[1..][i - 1] == s[i];
      }
      LStripAppend(s[1..], c);
    }
  }

  /** Python's `a <= b` on `str`: lexicographic order of code points. */
  predicate LexLe(a: string, b: string)
    decreases |a|
  {
    a == [] || (b != [] && (a[0] < b[0] || (a[0] == b[0] && LexLe(a[1..], b[1..]))))
  }

  lemma {:induction false} LexLeTotal(a: string, b: string)
    ensures LexLe(a, b) || LexLe(b, a)
    decreases |a|
  {
    if a != [] && b != [] && a[0] == b[0] {
      LexLeTotal(a[1..], b[1..]);
    }
  }

  lemma {:induction false} LexLeTransitive(a: string, b: string, c: string)
    requires LexLe(a, b) && LexLe(b, c)
    ensures LexLe(a, c)
    decreases |a|
  {
    if a != [] && a[0] == b[0] && b[0] == c[0] {
      LexLeTransitive(a[1..], b[1..], c[1..]);
    }
  }

  lemma {:induction false} LexLeAntisymmetric(a: string, b: string)
    requires LexLe(a, b) && LexLe(b, a)
    ensures a == b
    decreases |a|
  {
    if a != [] {
      LexLeAntisymmetric(a[1..], b[1..]);
      assert a == [a[0]] + a[1..] && b == [b[0]] + b[1..];
    }
  }

  /** A common prefix does not change how two strings compare. */
  lemma {:induction false} LexLeCommonPrefix(p: string, a: string, b: string)
    ensures LexLe(p + a, p + b) == LexLe(a, b)
    decreases |p|
  {
    if p != [] {
      assert (p + a)[0] == p[0] == (p + b)[0];
      assert (p + a)[1..] == p[1..] + a;
      assert (p + b)[1..] == p[1..] + b;
      assert LexLe(p + a, p + b) == LexLe(p[1..] + a, p[1..] + b);
      LexLeCommonPrefix(p[1..], a, b);
    } else {
      assert p + a == a && p + b == b;
    }
  }
}
