/** The POSIX `os.path` functions the core uses, on strings. */
module Paths {
  import opened PyStr

  predicate AllChar(s: string, c: char) {
    forall i :: 0 <= i < |s| ==> s[i] == c
  }

  /** `s.rstrip(c)` for one character `c`. */
  function TrimTrailing(s: string, c: char): (r: string)
    ensures StartsWith(s, r)
    ensures r == [] || r[|r| - 1] != c
    decreases |s|
  {
    if s != [] && s[|s| - 1] == c then TrimTrailing(s[..|s| - 1], c) else s
  }

  /** `os.path.join(a, b)`: an absolute `b` replaces `a`; otherwise one `/` separates them. */
  function Join(a: string, b: string): string {
    if StartsWith(b, "/") then b
    else if a == [] || EndsWith(a, "/") then a + b
    else a + "/" + b
  }

  /** `os.path.basename(p)`: what follows the last `/`. */
  function Basename(p: string): string {
    LastSegment(p, '/')
  }

  /**
   * `os.path.split(p)`: the last component, and what precedes it with its
   * trailing slashes removed (unless it consists of slashes only).
   */
  function Split(p: string): (r: (string, string))
    ensures r.1 == Basename(p)
  {
    var tail := LastSegment(p, '/');
    var head := p[..|p| - |tail|];
    (if head != [] && !AllChar(head, '/') then TrimTrailing(head, '/') else head, tail)
  }

  /**
   * `os.path.splitext(p)`: splits off the text from the last `.` of the last
   * component, provided that component has a character other than `.`
   * before it (so `.bashrc` has no extension); otherwise the extension is empty.
   */
  function SplitExt(p: string): (r: (string, string))
    ensures r.0 + r.1 == p
    ensures r.1 == [] || (r.1[0] == '.' && '.' !in r.1[1..] && '/' !in r.1)
  {
    var ext := LastSegment(p, '.');
    var dot := |p| - |ext| - 1;
    var start := |p| - |LastSegment(p, '/')|;
    if start <= dot && !AllChar(p[start..dot], '.') then
      ExtensionShape(p, start, dot);
      (p[..dot], p[dot..])
    else (p, [])
  }

  /** What follows the last `.`, when that `.` lies in the last component, is a one-dot extension without `/`. */
  lemma ExtensionShape(p: string, start: nat, dot: int)
    requires dot == |p| - |LastSegment(p, '.')| - 1 && start == |p| - |LastSegment(p, '/')| && 0 <= start <= dot
    ensures p[..dot] + p[dot..] == p
    ensures p[dot] == '.' && '.' !in p[dot..][1..] && '/' !in p[dot..]
  {
    LastSegmentSuffix(p, '.');
    assert p[dot..][1..] == LastSegment(p, '.');
    NoSlashInTail(p, start, dot);
  }

  lemma NoSlashInTail(p: string, start: nat, dot: nat)
    requires start == |p| - |LastSegment(p, '/')| && start <= dot <= |p|
    ensures '/' !in p[dot..]
  {
    LastSegmentSuffix(p, '/');
    var tail := LastSegment(p, '/');
    assert p[dot..] == tail[dot - start..];
  }

  /** A string without `c` is its own last segment. */
  lemma LastSegmentWhole(s: string, c: char)
    requires c !in s
    ensures LastSegment(s, c) == s
  {
    var r := LastSegment(s, c);
    assert |r| == |s|;
  }

  /** A name without `/` is not absolute. */
  lemma NotAbsolute(n: string)
    requires '/' !in n
    ensures !StartsWith(n, "/")
  {
    if n != [] {
      assert n[..1][0] == n[0];
    }
  }

  /** `join(d, n)` is `d + n` or `d + "/" + n` for a name `n` without `/`. */
  lemma JoinPlain(d: string, n: string)
    requires '/' !in n
    ensures Join(d, n) == if d == [] || EndsWith(d, "/") then d + n else d + "/" + n
  {
    NotAbsolute(n);
  }

  /** The last component of `join(d, n)` is `n` when `n` has no `/`. */
  lemma BasenameJoin(d: string, n: string)
    requires '/' !in n
    ensures Basename(Join(d, n)) == n
  {
    JoinPlain(d, n);
    if d == [] {
      assert Join(d, n) == n;
      LastSegmentWhole(n, '/');
    } else if EndsWith(d, "/") {
      var d' := d[..|d| - 1];
      assert d == d' + ['/'];
      assert Join(d, n) == d' + ['/'] + n;
      LastSegmentAfter(d', '/', n);
    } else {
      assert Join(d, n) == d + ['/'] + n;
      LastSegmentAfter(d, '/', n);
    }
  }

  /** `split(join(d, n)) == (d, n)` for a directory `d` without a trailing `/` and a plain name `n`. */
  lemma SplitJoin(d: string, n: string)
    requires d != [] && !EndsWith(d, "/") && '/' !in n
    ensures Split(Join(d, n)) == (d, n)
  {
    var p := Join(d, n);
    JoinPlain(d, n);
    assert p == d + ['/'] + n;
    LastSegmentAfter(d, '/', n);
    var head := p[..|p| - |n|];
    assert head == d + ['/'];
    assert head[|d| - 1] != '/';
    assert head[..|head| - 1] == d;
    assert TrimTrailing(head, '/') == TrimTrailing(d, '/') == d;
  }

  /** `splitext(stem + ext) == (stem, ext)` for a one-dot extension of a plain name. */
  lemma SplitExtOf(stem: string, ext: string)
    requires '/' !in stem && '/' !in ext
    requires |ext| > 0 && ext[0] == '.' && '.' !in ext[1..]
    requires !AllChar(stem, '.')
    ensures SplitExt(stem + ext) == (stem, ext)
  {
    var p := stem + ext;
    assert p == stem + ['.'] + ext[1..];
    LastSegmentAfter(stem, '.', ext[1..]);
    LastSegmentWhole(p, '/');
    assert p[0..|stem|] == stem;
    assert p[..|stem|] == stem && p[|stem|..] == ext;
  }
}
