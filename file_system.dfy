/**
 * The part of the file system the pipeline touches: directories of named
 * files, addressed by POSIX paths. Opening a file for reading needs it to
 * exist; opening one for writing needs its directory to exist and replaces
 * whatever was there.
 */
module FileSystem {
  import opened Wrappers
  import opened PyStr
  import Paths

  /** What a file holds, as far as the pipeline looks into it. */
  datatype File =
    | Pdf(pages: seq<string>)   // a PDF, by the text `extract_text` yields for each page
    | Text(content: string)     // a UTF-8 text file
    | Wav(samples: seq<int>)    // a WAV file, by its sample frames

  type Directory = map<string, File>

  /** The directories of the working tree, keyed by their path relative to the working directory. */
  datatype Disk = Disk(dirs: map<string, Directory>)

  /** Why an operation raised. */
  datatype Fault =
    | NotFound(path: string)     // `FileNotFoundError`
    | Unreadable(path: string)   // the file is not of the kind the reader expects
    | CannotWrite(path: string)  // `open(path, 'w')` raised: no such directory, or no file name

  /** `./d` and `d` name the same directory. */
  function DirKey(d: string): (k: string)
    ensures EndsWith(d, k)
  {
    if StartsWith(d, "./") then d[2..] else d
  }

  predicate HasDir(disk: Disk, d: string) {
    DirKey(d) in disk.dirs
  }

  /** The entries of directory `d`; none when it does not exist. */
  function Dir(disk: Disk, d: string): (dir: Directory)
    ensures !HasDir(disk, d) ==> dir == map[]
  {
    if HasDir(disk, d) then disk.dirs[DirKey(d)] else map[]
  }

  /** Every directory other than the one keyed `key` is the same in `a` and `b`. */
  ghost predicate SameElsewhere(a: Disk, b: Disk, key: string) {
    forall k :: k != key ==> (k in a.dirs <==> k in b.dirs) && (k in a.dirs ==> a.dirs[k] == b.dirs[k])
  }

  /** `os.makedirs(d, exist_ok=True)`: creates `d` empty, or leaves it as it is when it exists. */
  function MakeDirs(disk: Disk, d: string): (r: Disk)
    ensures HasDir(r, d) && Dir(r, d) == Dir(disk, d)
    ensures SameElsewhere(r, disk, DirKey(d))
  {
    if HasDir(disk, d) then disk else Disk(disk.dirs[DirKey(d) := map[]])
  }

  /** The file at `path`: its directory part names a directory that holds its last component. */
  function Lookup(disk: Disk, path: string): (r: Option<File>)
    ensures r.Some? ==> Paths.Split(path).1 in Dir(disk, Paths.Split(path).0)
  {
    var (head, tail) := Paths.Split(path);
    if tail in Dir(disk, head) then Some(Dir(disk, head)[tail]) else None
  }

  /** Opening `path` for writing and writing `f` into it. */
  function Store(disk: Disk, path: string, f: File): (r: Result<Disk, Fault>)
    ensures r.Success? ==> Lookup(r.value, path) == Some(f)
    ensures r.Success? ==> SameElsewhere(r.value, disk, DirKey(Paths.Split(path).0))
    ensures r.Failure? ==> r.error == CannotWrite(path)
  {
    var (head, tail) := Paths.Split(path);
    if HasDir(disk, head) && tail != [] then
      Success(Disk(disk.dirs[DirKey(head) := Dir(disk, head)[tail := f]]))
    else Failure(CannotWrite(path))
  }

  /**
   * Applies `step` to each item in turn, each on the disk the previous one
   * left, and stops at the first fault: a loop over `items` whose body may raise.
   */
  function Steps<T>(disk: Disk, items: seq<T>, step: (Disk, T) -> Result<Disk, Fault>): (r: Result<Disk, Fault>)
    ensures items == [] ==> r == Success(disk)
    decreases |items|
  {
    if items == [] then Success(disk)
    else
      match Steps(disk, items[..|items| - 1], step)
      case Failure(e) => Failure(e)
      case Success(d) => step(d, items[|items| - 1])
  }

  /** One more item: its step runs on what the previous ones left. */
  lemma StepsNext<T>(disk: Disk, items: seq<T>, step: (Disk, T) -> Result<Disk, Fault>, i: nat, d: Disk)
    requires i < |items| && Steps(disk, items[..i], step) == Success(d)
    ensures Steps(disk, items[..i + 1], step) == step(d, items[i])
  {
    assert items[..i + 1][..i] == items[..i];
  }

  /** Once a prefix of the loop raises, the loop raises the same way. */
  lemma {:induction false} StepsFailurePersists<T>(disk: Disk, items: seq<T>, step: (Disk, T) -> Result<Disk, Fault>, i: nat)
    requires i <= |items| && Steps(disk, items[..i], step).Failure?
    ensures Steps(disk, items, step) == Steps(disk, items[..i], step)
    decreases |items| - i
  {
    if i < |items| {
      assert items[..i + 1][..i] == items[..i];
      StepsFailurePersists(disk, items, step, i + 1);
    } else {
      assert items[..i] == items;
    }
  }

  /** Writing one `(path, file)` pair. */
  function StoreWrite(disk: Disk, write: (string, File)): (r: Result<Disk, Fault>)
    ensures r.Success? ==> Lookup(r.value, write.0) == Some(write.1)
  {
    Store(disk, write.0, write.1)
  }

  /** `d` has the directory keyed `key` and agrees with `disk` everywhere else. */
  ghost predicate Beside(d: Disk, disk: Disk, key: string) {
    key in d.dirs && SameElsewhere(d, disk, key)
  }

  /**
   * On every disk that differs from `disk` only inside `dst`, the step for
   * item `i` sets entry `names[i]` of `dst` to `files[i]` and does nothing else.
   */
  ghost predicate WritesEach<T>(disk: Disk, items: seq<T>, step: (Disk, T) -> Result<Disk, Fault>, dst: string, names: seq<string>, files: seq<File>)
    requires |items| == |names| == |files|
  {
    forall i, d :: 0 <= i < |items| && Beside(d, disk, DirKey(dst)) ==>
      step(d, items[i]) == Success(Disk(d.dirs[DirKey(dst) := Dir(d, dst)[names[i] := files[i]]]))
  }

  /** A loop of such steps adds all their entries to `dst`, later ones winning. */
  lemma {:induction false} StepsInto<T>(disk: Disk, items: seq<T>, step: (Disk, T) -> Result<Disk, Fault>, dst: string, names: seq<string>, files: seq<File>)
    requires |items| == |names| == |files| && HasDir(disk, dst)
    requires WritesEach(disk, items, step, dst, names, files)
    ensures Steps(disk, items, step) == Success(Disk(disk.dirs[DirKey(dst) := Dir(disk, dst) + Entries(names, files)]))
    decreases |items|
  {
    var key := DirKey(dst);
    if items == [] {
      assert Dir(disk, dst) + map[] == Dir(disk, dst);
      Rewrite(disk.dirs, key);
    } else {
      var n := |items| - 1;
      assert WritesEach(disk, items[..n], step, dst, names[..n], files[..n]) by {
        forall i, d | 0 <= i < n && Beside(d, disk, key)
          ensures step(d, items[..n][i]) == Success(Disk(d.dirs[key := Dir(d, dst)[names[..n][i] := files[..n][i]]]))
        {
          assert items[..n][i] == items[i] && names[..n][i] == names[i] && files[..n][i] == files[i];
        }
      }
      StepsInto(disk, items[..n], step, dst, names[..n], files[..n]);
      var prior := Entries(names[..n], files[..n]);
      var before := Dir(disk, dst) + prior;
      var mid := Disk(disk.dirs[key := before]);
      assert Beside(mid, disk, key);
      StepsNext(disk, items, step, n, mid);
      assert items[..n + 1] == items;
      DirAfterUpdate(disk, key, before, dst);
      EntriesLast(names, files, names[..n], files[..n], names[n], files[n]);
      UnionUpdate(Dir(disk, dst), prior, names[n], files[n]);
      Overwrite(disk.dirs, key, before, before[names[n] := files[n]]);
    }
  }

  /** A directory path `join` appends to with a single `/`. */
  predicate PlainDir(d: string) {
    d != [] && !EndsWith(d, "/")
  }

  /** A file name in a directory: not empty, no `/`. */
  predicate PlainName(n: string) {
    n != [] && '/' !in n
  }

  /** Reading `join(d, n)` finds entry `n` of directory `d`. */
  lemma LookupJoin(disk: Disk, d: string, n: string)
    requires PlainDir(d) && PlainName(n)
    ensures Lookup(disk, Paths.Join(d, n)) == if n in Dir(disk, d) then Some(Dir(disk, d)[n]) else None
  {
    Paths.SplitJoin(d, n);
  }

  /** Writing `join(d, n)` into an existing directory `d` sets entry `n` and touches nothing else. */
  lemma StoreJoin(disk: Disk, d: string, n: string, f: File)
    requires PlainDir(d) && PlainName(n) && HasDir(disk, d)
    ensures Store(disk, Paths.Join(d, n), f) == Success(Disk(disk.dirs[DirKey(d) := Dir(disk, d)[n := f]]))
  {
    Paths.SplitJoin(d, n);
  }

  /** Writing into a missing directory raises. */
  lemma StoreMissingDir(disk: Disk, d: string, n: string, f: File)
    requires PlainDir(d) && PlainName(n) && !HasDir(disk, d)
    ensures Store(disk, Paths.Join(d, n), f) == Failure(CannotWrite(Paths.Join(d, n)))
  {
    Paths.SplitJoin(d, n);
  }

  predicate Distinct<T(==)>(s: seq<T>) {
    forall i, j :: 0 <= i < j < |s| ==> s[i] != s[j]
  }

  /** `names` lists every entry of `dir` exactly once. */
  ghost predicate Enumerates(names: seq<string>, dir: Directory) {
    Distinct(names) && forall n :: n in names <==> n in dir
  }

  /**
   * `os.listdir(d)`: the entries of `d` in an order the file system chooses,
   * or `FileNotFoundError` when `d` does not exist.
   */
  method ListDir(disk: Disk, d: string) returns (r: Result<seq<string>, Fault>)
    ensures !HasDir(disk, d) ==> r == Failure(NotFound(d))
    ensures HasDir(disk, d) ==> r.Success? && Enumerates(r.value, Dir(disk, d))
  {
    if !HasDir(disk, d) {
      return Failure(NotFound(d));
    }
    var dir := Dir(disk, d);
    var names: seq<string> := [];
    var left := dir.Keys;
    while left != {}
      invariant left <= dir.Keys
      invariant Distinct(names)
      invariant forall n :: n in names <==> n in dir && n !in left
      decreases |left|
    {
      var n :| n in left;
      names := names + [n];
      left := left - {n};
    }
    return Success(names);
  }

  /** A sequence without repetitions holds each of its elements once. */
  lemma {:induction false} DistinctCount<T>(s: seq<T>, x: T)
    requires Distinct(s)
    ensures multiset(s)[x] == if x in s then 1 else 0
    decreases |s|
  {
    if s != [] {
      assert s == [s[0]] + s[1..];
      assert Distinct(s[1..]) by {
        forall i, j | 0 <= i < j < |s| - 1 ensures s[1..][i] != s[1..][j] {
          assert s[i + 1] != s[j + 1];
        }
      }
      DistinctCount(s[1..], x);
      assert x == s[0] ==> x !in s[1..];
    }
  }

  /** A sequence that holds each element at most once has no repetitions. */
  lemma {:induction false} CountsDistinct<T>(s: seq<T>)
    requires forall x :: multiset(s)[x] <= 1
    ensures Distinct(s)
    decreases |s|
  {
    if s != [] {
      var rest := s[1..];
      assert s == [s[0]] + rest;
      assert forall x :: multiset(rest)[x] <= multiset(s)[x];
      CountsDistinct(rest);
      assert multiset(rest)[s[0]] == 0;
      forall i, j | 0 <= i < j < |s| ensures s[i] != s[j] {
        if i > 0 {
          assert s[i] == rest[i - 1] && s[j] == rest[j - 1];
        } else {
          assert s[j] == rest[j - 1];
          assert s[j] in multiset(rest);
        }
      }
    }
  }

  /** Two listings of the same directory are permutations of each other. */
  lemma EnumerationsPermute(a: seq<string>, b: seq<string>, dir: Directory)
    requires Enumerates(a, dir) && Enumerates(b, dir)
    ensures multiset(a) == multiset(b)
  {
    forall x ensures multiset(a)[x] == multiset(b)[x] {
      DistinctCount(a, x);
      DistinctCount(b, x);
    }
  }

  /** The directory that the writes of `files` under `names`, in order, leave behind. */
  function Entries(names: seq<string>, files: seq<File>): (m: Directory)
    requires |names| == |files|
    ensures forall n :: n in m <==> n in names
    decreases |names|
  {
    if names == [] then map[]
    else Entries(names[..|names| - 1], files[..|files| - 1])[names[|names| - 1] := files[|files| - 1]]
  }

  /** The last write comes last. */
  lemma EntriesLast(names: seq<string>, files: seq<File>, before: seq<string>, earlier: seq<File>, name: string, file: File)
    requires |names| == |files| && names != []
    requires before == names[..|names| - 1] && earlier == files[..|files| - 1]
    requires name == names[|names| - 1] && file == files[|files| - 1]
    ensures Entries(names, files) == Entries(before, earlier)[name := file]
  {
  }

  /** Without repeated names every write survives. */
  lemma {:induction false} EntriesAt(names: seq<string>, files: seq<File>, i: nat)
    requires |names| == |files| && Distinct(names) && i < |names|
    ensures Entries(names, files)[names[i]] == files[i]
    decreases |names|
  {
    var n := |names| - 1;
    if i < n {
      assert Distinct(names[..n]);
      assert names[i] != names[n];
      EntriesAt(names[..n], files[..n], i);
    }
  }

  /** Two runs of writes that store the same file under each name leave the same directory. */
  lemma EntriesAgree(n1: seq<string>, f1: seq<File>, n2: seq<string>, f2: seq<File>)
    requires |n1| == |f1| && |n2| == |f2| && Distinct(n1) && Distinct(n2)
    requires forall x :: x in n1 <==> x in n2
    requires forall i, j :: 0 <= i < |n1| && 0 <= j < |n2| && n1[i] == n2[j] ==> f1[i] == f2[j]
    ensures Entries(n1, f1) == Entries(n2, f2)
  {
    var m1, m2 := Entries(n1, f1), Entries(n2, f2);
    forall x | x in m1 ensures x in m2 && m1[x] == m2[x] {
      var i :| 0 <= i < |n1| && n1[i] == x;
      var j :| 0 <= j < |n2| && n2[j] == x;
      SameWrite(n1, f1, n2, f2, i, j);
    }
    forall x | x in m2 ensures x in m1 {
      var j :| 0 <= j < |n2| && n2[j] == x;
      assert x in n1;
    }
  }

  /** The `i`-th write of one run and the `j`-th of the other, under one name, leave the same file. */
  lemma SameWrite(n1: seq<string>, f1: seq<File>, n2: seq<string>, f2: seq<File>, i: nat, j: nat)
    requires |n1| == |f1| && |n2| == |f2| && Distinct(n1) && Distinct(n2)
    requires i < |n1| && j < |n2| && n1[i] == n2[j] && f1[i] == f2[j]
    ensures n1[i] in Entries(n2, f2) && Entries(n1, f1)[n1[i]] == Entries(n2, f2)[n2[j]]
  {
    EntriesAt(n1, f1, i);
    EntriesAt(n2, f2, j);
  }

  /** Where `x` sits in `s`. */
  ghost function Position<T>(s: seq<T>, x: T): (i: nat)
    requires x in s
    ensures i < |s| && s[i] == x
  {
    var i :| 0 <= i < |s| && s[i] == x; i
  }

  /**
   * For two lists without repetitions, each holding the other's elements:
   * `ks[i]` is where `a[i]` sits in `b`, and `inv[j]` where `b[j]` sits in `a`.
   */
  lemma Positions<T>(a: seq<T>, b: seq<T>) returns (ks: seq<nat>, inv: seq<nat>)
    requires Distinct(a) && Distinct(b)
    requires forall i :: 0 <= i < |a| ==> a[i] in b
    requires forall j :: 0 <= j < |b| ==> b[j] in a
    ensures |ks| == |a| && |inv| == |b| && Distinct(ks)
    ensures forall i :: 0 <= i < |a| ==> ks[i] < |b| && a[i] == b[ks[i]]
    ensures forall j :: 0 <= j < |b| ==> inv[j] < |a| && ks[inv[j]] == j
  {
    ks := seq(|a|, i requires 0 <= i < |a| => Position(b, a[i]));
    inv := seq(|b|, j requires 0 <= j < |b| => Position(a, b[j]));
  }

  /**
   * Writes that are those of `n2`/`f2` taken in another order, `ks[i]` giving
   * the position in the second run of the `i`-th write of the first and
   * `inv[j]` the other way round, leave the same directory.
   */
  lemma EntriesReordered(n1: seq<string>, f1: seq<File>, n2: seq<string>, f2: seq<File>, ks: seq<nat>, inv: seq<nat>)
    requires |n1| == |f1| == |ks| && |n2| == |f2| == |inv| && Distinct(n2) && Distinct(ks)
    requires forall i :: 0 <= i < |ks| ==> ks[i] < |n2| && n1[i] == n2[ks[i]] && f1[i] == f2[ks[i]]
    requires forall j :: 0 <= j < |inv| ==> inv[j] < |ks| && ks[inv[j]] == j
    ensures Entries(n1, f1) == Entries(n2, f2)
  {
    assert Distinct(n1) by {
      forall i, j | 0 <= i < j < |n1| ensures n1[i] != n1[j] {
        assert ks[i] != ks[j];
      }
    }
    forall x ensures x in n1 <==> x in n2 {
      if x in n2 {
        var j :| 0 <= j < |n2| && n2[j] == x;
        assert n1[inv[j]] == x;
      }
    }
    forall i, j | 0 <= i < |n1| && 0 <= j < |n2| && n1[i] == n2[j] ensures f1[i] == f2[j] {
      assert n2[ks[i]] == n2[j];
    }
    EntriesAgree(n1, f1, n2, f2);
  }

  /** `(join(d, names[i]), files[i])` for each `i`: writes into one directory. */
  function WritesInto(d: string, names: seq<string>, files: seq<File>): (w: seq<(string, File)>)
    requires |names| == |files|
    ensures |w| == |names|
  {
    seq(|names|, i requires 0 <= i < |names| => (Paths.Join(d, names[i]), files[i]))
  }

  /** Writes into one existing directory add their entries to it and change nothing else. */
  lemma {:induction false} StoreAllInto(disk: Disk, d: string, names: seq<string>, files: seq<File>)
    requires |names| == |files| && PlainDir(d) && HasDir(disk, d)
    requires forall i :: 0 <= i < |names| ==> PlainName(names[i])
    ensures Steps(disk, WritesInto(d, names, files), StoreWrite) == Success(Disk(disk.dirs[DirKey(d) := Dir(disk, d) + Entries(names, files)]))
    decreases |names|
  {
    if names != [] {
      var n := |names| - 1;
      var w := WritesInto(d, names, files);
      assert w[..n] == WritesInto(d, names[..n], files[..n]);
      assert names[..n + 1] == names && files[..n + 1] == files && w[..n + 1] == w;
      var before := Dir(disk, d) + Entries(names[..n], files[..n]);
      var mid := Disk(disk.dirs[DirKey(d) := before]);
      assert Dir(mid, d) == before;
      StoreAllInto(disk, d, names[..n], files[..n]);
      StepsNext(disk, w, StoreWrite, n, mid);
      StoreJoin(mid, d, names[n], files[n]);
      UnionUpdate(Dir(disk, d), Entries(names[..n], files[..n]), names[n], files[n]);
      Overwrite(disk.dirs, DirKey(d), before, before[names[n] := files[n]]);
    } else {
      assert Dir(disk, d) + map[] == Dir(disk, d);
      Rewrite(disk.dirs, DirKey(d));
    }
  }

  lemma UnionUpdate(a: Directory, b: Directory, k: string, f: File)
    ensures (a + b)[k := f] == a + b[k := f]
  {
  }

  /** Creating directories never changes what any directory holds. */
  lemma MakeDirsKeepsFiles(disk: Disk, d: string, e: string, path: string)
    ensures Dir(MakeDirs(disk, d), e) == Dir(disk, e)
    ensures Lookup(MakeDirs(disk, d), path) == Lookup(disk, path)
  {
    var head := Paths.Split(path).0;
    assert Dir(MakeDirs(disk, d), head) == Dir(disk, head);
  }

  /** Replacing the directory keyed `key` changes only what `Dir` gives for that key. */
  lemma DirAfterUpdate(disk: Disk, key: string, m: Directory, e: string)
    ensures Dir(Disk(disk.dirs[key := m]), e) == if DirKey(e) == key then m else Dir(disk, e)
  {
  }

  lemma Overwrite(m: map<string, Directory>, k: string, a: Directory, b: Directory)
    ensures m[k := a][k := b] == m[k := b]
  {
  }

  lemma Rewrite(m: map<string, Directory>, k: string)
    requires k in m
    ensures m[k := m[k]] == m
  {
  }
}
