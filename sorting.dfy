/**
 * Stable sorting, the behaviour of Python's `list.sort` and `sorted`: a
 * sorted permutation in which equivalent elements keep their relative order.
 * The order is given as a total preorder `le` ("a sorts no later than b").
 */
module Sorting {

  ghost predicate TotalPreorder<T(!new)>(le: (T, T) -> bool) {
    && (forall a, b :: le(a, b) || le(b, a))
    && (forall a, b, c :: le(a, b) && le(b, c) ==> le(a, c))
  }

  /** A total preorder in which only equal elements are equivalent (a total order). */
  ghost predicate TotalOrder<T(!new)>(le: (T, T) -> bool) {
    TotalPreorder(le) && forall a, b :: le(a, b) && le(b, a) ==> a == b
  }

  predicate SortedBy<T>(s: seq<T>, le: (T, T) -> bool) {
    forall i, j :: 0 <= i < j < |s| ==> le(s[i], s[j])
  }

  /** Every element sorts strictly before every later one. */
  predicate StrictlySortedBy<T>(s: seq<T>, le: (T, T) -> bool) {
    forall i, j :: 0 <= i < j < |s| ==> !le(s[j], s[i])
  }

  predicate Equivalent<T>(le: (T, T) -> bool, a: T, b: T) {
    le(a, b) && le(b, a)
  }

  /** The elements of `s` equivalent to `x`, in their order in `s`. */
  function Block<T>(s: seq<T>, le: (T, T) -> bool, x: T): seq<T>
    decreases |s|
  {
    if s == [] then [] else (if Equivalent(le, s[0], x) then [s[0]] else []) + Block(s[1..], le, x)
  }

  /** Inserts `x` before the first element it sorts no later than. */
  function Insert<T>(x: T, s: seq<T>, le: (T, T) -> bool): (r: seq<T>)
    ensures multiset(r) == multiset(s) + multiset{x}
    decreases |s|
  {
    if s == [] then [x]
    else if le(x, s[0]) then [x] + s
    else
      assert s == [s[0]] + s[1..];
      [s[0]] + Insert(x, s[1..], le)
  }

  lemma {:induction false} InsertSorted<T(!new)>(x: T, s: seq<T>, le: (T, T) -> bool)
    requires TotalPreorder(le) && SortedBy(s, le)
    ensures SortedBy(Insert(x, s, le), le)
    decreases |s|
  {
    if s != [] && !le(x, s[0]) {
      var t := Insert(x, s[1..], le);
      InsertSorted(x, s[1..], le);
      assert le(s[0], x);
      forall j | 0 <= j < |t| ensures le(s[0], t[j]) {
        assert t[j] in multiset(t);
        assert t[j] == x || t[j] in multiset(s[1..]);
      }
      assert Insert(x, s, le) == [s[0]] + t;
    }
  }

  /** `x` joins its group of equivalent elements at the front; the other groups are unchanged. */
  lemma {:induction false} InsertBlock<T(!new)>(x: T, s: seq<T>, le: (T, T) -> bool, y: T)
    requires TotalPreorder(le)
    ensures Block(Insert(x, s, le), le, y) == (if Equivalent(le, x, y) then [x] else []) + Block(s, le, y)
    decreases |s|
  {
    if s == [] {
    } else if le(x, s[0]) {
      BlockCons(x, s, le, y);
    } else {
      var t := Insert(x, s[1..], le);
      var rest := Block(s[1..], le, y);
      assert Insert(x, s, le) == [s[0]] + t;
      InsertBlock(x, s[1..], le, y);
      BlockCons(s[0], t, le, y);
      BlockCons(s[0], s[1..], le, y);
      assert [s[0]] + s[1..] == s;
      if Equivalent(le, x, y) {
        PassedOverNotEquivalent(le, x, s[0], y);
        assert Block(Insert(x, s, le), le, y) == [x] + rest;
        assert Block(s, le, y) == rest;
      } else {
        assert Block(t, le, y) == rest;
      }
    }
  }

  /** The group of `y` in a list with a new head. */
  lemma BlockCons<T>(h: T, t: seq<T>, le: (T, T) -> bool, y: T)
    ensures Block([h] + t, le, y) == (if Equivalent(le, h, y) then [h] else []) + Block(t, le, y)
  {
    assert ([h] + t)[1..] == t;
  }

  /** An element that sorts strictly before `x` is in none of the groups `x` belongs to. */
  lemma PassedOverNotEquivalent<T(!new)>(le: (T, T) -> bool, x: T, z: T, y: T)
    requires TotalPreorder(le) && !le(x, z) && Equivalent(le, x, y)
    ensures !Equivalent(le, z, y)
  {
  }

  /** Insertion sort: the model of Python's stable `sort`. */
  function SortBy<T(!new)>(s: seq<T>, le: (T, T) -> bool): (r: seq<T>)
    requires TotalPreorder(le)
    ensures SortedBy(r, le)
    ensures multiset(r) == multiset(s)
    ensures forall x :: Block(r, le, x) == Block(s, le, x)
    decreases |s|
  {
    if s == [] then []
    else
      var t := SortBy(s[1..], le);
      InsertSorted(s[0], t, le);
      assert forall x :: Block(Insert(s[0], t, le), le, x) == Block(s, le, x) by {
        assert s == [s[0]] + s[1..];
        forall x ensures Block(Insert(s[0], t, le), le, x) == Block(s, le, x) {
          InsertBlock(s[0], t, le, x);
          BlockCons(s[0], s[1..], le, x);
        }
      }
      assert s == [s[0]] + s[1..];
      Insert(s[0], t, le)
  }

  /**
   * A sorted sequence is determined by its elements and by the order of each
   * group of equivalent ones: "sorted and stable" is the whole specification.
   */
  lemma {:induction false} SortedUnique<T(!new)>(r1: seq<T>, r2: seq<T>, le: (T, T) -> bool)
    requires TotalPreorder(le)
    requires SortedBy(r1, le) && SortedBy(r2, le)
    requires multiset(r1) == multiset(r2)
    requires forall x :: Block(r1, le, x) == Block(r2, le, x)
    ensures r1 == r2
    decreases |r1|
  {
    if r1 != [] {
      assert |r2| == |r1| by { assert |multiset(r1)| == |multiset(r2)|; }
      SameFirst(r1, r2, le);
      DropFirst(r1);
      DropFirst(r2);
      forall x ensures Block(r1[1..], le, x) == Block(r2[1..], le, x) {
        BlockTail(r1, le, x);
        BlockTail(r2, le, x);
      }
      SortedUnique(r1[1..], r2[1..], le);
      assert r1 == [r1[0]] + r1[1..] && r2 == [r2[0]] + r2[1..];
    }
  }

  /** Under a total order, a sorted sequence is determined by its elements alone. */
  lemma SortedUniqueTotal<T(!new)>(r1: seq<T>, r2: seq<T>, le: (T, T) -> bool)
    requires TotalOrder(le)
    requires SortedBy(r1, le) && SortedBy(r2, le)
    requires multiset(r1) == multiset(r2)
    ensures r1 == r2
  {
    forall x ensures Block(r1, le, x) == Block(r2, le, x) {
      BlockOfTotalOrder(r1, le, x);
      BlockOfTotalOrder(r2, le, x);
    }
    SortedUnique(r1, r2, le);
  }

  lemma DropFirst<T>(s: seq<T>)
    requires s != []
    ensures multiset(s[1..]) == multiset(s) - multiset{s[0]}
  {
    assert s == [s[0]] + s[1..];
  }

  /** The group of `x` in a sequence, less the sequence's first element if that is in it. */
  lemma BlockTail<T>(s: seq<T>, le: (T, T) -> bool, x: T)
    requires s != []
    ensures Block(s[1..], le, x) == Block(s, le, x)[if Equivalent(le, s[0], x) then 1 else 0..]
  {
  }

  /** Two sorted sequences with the same elements and the same groups start alike. */
  lemma SameFirst<T(!new)>(r1: seq<T>, r2: seq<T>, le: (T, T) -> bool)
    requires TotalPreorder(le)
    requires SortedBy(r1, le) && SortedBy(r2, le) && r1 != [] && r2 != []
    requires multiset(r1) == multiset(r2)
    requires Block(r1, le, r1[0]) == Block(r2, le, r1[0])
    ensures r1[0] == r2[0]
  {
    var a, b := r1[0], r2[0];
    assert b in multiset(r2);
    FirstIsLeast(r1, le, b);
    assert a in multiset(r1);
    FirstIsLeast(r2, le, a);
    assert le(a, a) || le(a, a);
    assert Block(r1, le, a)[0] == a;
    assert Block(r2, le, a)[0] == b;
  }

  /** The first element of a sorted sequence sorts no later than any of its elements. */
  lemma FirstIsLeast<T(!new)>(s: seq<T>, le: (T, T) -> bool, y: T)
    requires TotalPreorder(le) && SortedBy(s, le) && y in multiset(s)
    ensures le(s[0], y)
  {
    var j :| 0 <= j < |s| && s[j] == y;
    if j == 0 {
      assert le(y, y) || le(y, y);
    }
  }

  /**
   * A sorted permutation of a strictly sorted sequence is that sequence: when
   * no two elements are equivalent, sorting has exactly one outcome.
   */
  lemma {:induction false} SortedAgainstStrict<T(!new)>(a: seq<T>, b: seq<T>, le: (T, T) -> bool)
    requires TotalPreorder(le)
    requires SortedBy(a, le) && StrictlySortedBy(b, le)
    requires multiset(a) == multiset(b)
    ensures a == b
    decreases |a|
  {
    if a != [] {
      assert |b| == |a| by { assert |multiset(a)| == |multiset(b)|; }
      FirstOfStrict(a, b, le);
      DropFirst(a);
      DropFirst(b);
      SortedAgainstStrict(a[1..], b[1..], le);
      assert a == [a[0]] + a[1..] && b == [b[0]] + b[1..];
    }
  }

  lemma FirstOfStrict<T(!new)>(a: seq<T>, b: seq<T>, le: (T, T) -> bool)
    requires TotalPreorder(le)
    requires SortedBy(a, le) && StrictlySortedBy(b, le)
    requires multiset(a) == multiset(b) && a != [] && b != []
    ensures a[0] == b[0]
  {
    assert b[0] in multiset(b);
    FirstIsLeast(a, le, b[0]);
    assert a[0] in multiset(b);
    var m :| 0 <= m < |b| && b[m] == a[0];
    assert le(b[m], b[0]);
  }

  /** Under a total order the groups of equivalent elements are fixed by the elements alone. */
  lemma {:induction false} BlockOfTotalOrder<T(!new)>(s: seq<T>, le: (T, T) -> bool, x: T)
    requires TotalOrder(le)
    ensures Block(s, le, x) == seq(multiset(s)[x], _ => x)
    decreases |s|
  {
    if s != [] {
      assert s == [s[0]] + s[1..];
      BlockOfTotalOrder(s[1..], le, x);
      assert le(x, x) || le(x, x);
    }
  }

  /** Under a total order, sorting depends on the elements only, not on their order. */
  lemma SortByPermutation<T(!new)>(a: seq<T>, b: seq<T>, le: (T, T) -> bool)
    requires TotalOrder(le)
    requires multiset(a) == multiset(b)
    ensures SortBy(a, le) == SortBy(b, le)
  {
    SortedUniqueTotal(SortBy(a, le), SortBy(b, le), le);
  }
}
