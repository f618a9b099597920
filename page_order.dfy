/**
 * How audio files are put in playback order: by the page index in their
 * names, compared as integers, with plain string order as the fallback when
 * some name carries no index.
 */
module PageOrder {
  import opened Wrappers
  import opened PyStr
  import opened Numerals
  import opened Sorting
  import opened PageNames

  /** `[f for f in names if f.endswith(ext)]` */
  function WithExtension(names: seq<string>, ext: string): (r: seq<string>)
    ensures |r| <= |names|
    decreases |names|
  {
    if names == [] then []
    else (if EndsWith(names[0], ext) then [names[0]] else []) + WithExtension(names[1..], ext)
  }

  /** Filtering keeps each `ext` name as often as it occurs, and nothing else. */
  lemma {:induction false} WithExtensionCount(names: seq<string>, ext: string)
    ensures forall n :: multiset(WithExtension(names, ext))[n] == if EndsWith(n, ext) then multiset(names)[n] else 0
    decreases |names|
  {
    if names != [] {
      assert names == [names[0]] + names[1..];
      WithExtensionCount(names[1..], ext);
    }
  }

  /** Filtering keeps the order of what it keeps. */
  lemma {:induction false} WithExtensionSorted(names: seq<string>, ext: string, le: (string, string) -> bool)
    requires SortedBy(names, le)
    ensures SortedBy(WithExtension(names, ext), le)
    decreases |names|
  {
    if names != [] {
      var rest := WithExtension(names[1..], ext);
      WithExtensionSorted(names[1..], ext, le);
      WithExtensionCount(names[1..], ext);
      if EndsWith(names[0], ext) {
        forall j | 0 <= j < |rest| ensures le(names[0], rest[j]) {
          assert multiset(rest)[rest[j]] > 0;
          assert rest[j] in multiset(names[1..]);
          var i :| 0 <= i < |names[1..]| && names[1..][i] == rest[j];
          assert names[i + 1] == rest[j];
        }
        var r := [names[0]] + rest;
        forall i, j | 0 <= i < j < |r| ensures le(r[i], r[j]) {
          if i > 0 {
            assert r[i] == rest[i - 1] && r[j] == rest[j - 1];
          }
        }
      }
    }
  }

  /** Every name in `names` ends in `ext`: filtering keeps them all. */
  lemma WithExtensionAll(names: seq<string>, ext: string)
    requires forall i :: 0 <= i < |names| ==> EndsWith(names[i], ext)
    ensures multiset(WithExtension(names, ext)) == multiset(names)
  {
    WithExtensionCount(names, ext);
    forall n ensures multiset(WithExtension(names, ext))[n] == multiset(names)[n] {
      if !EndsWith(n, ext) {
        assert n !in names;
      }
    }
  }

  /** The value an audio file sorts under when every name has one. */
  function IndexKey(name: string): (k: int)
    ensures WavIndex(name).Some? ==> k == WavIndex(name).value
  {
    match WavIndex(name)
    case Some(k) => k
    case None => 0
  }

  /** `key(a) <= key(b)` for the numeric sort. */
  predicate IndexLe(a: string, b: string) {
    IndexKey(a) <= IndexKey(b)
  }

  /** Every name yields an integer key: `int(...)` raises for none of them. */
  predicate AllIndexed(names: seq<string>) {
    forall i :: 0 <= i < |names| ==> WavIndex(names[i]).Some?
  }

  lemma IndexOrderIsPreorder()
    ensures TotalPreorder(IndexLe)
  {
  }

  lemma LexOrderIsTotal()
    ensures TotalOrder(LexLe)
  {
    forall a, b ensures LexLe(a, b) || LexLe(b, a) {
      LexLeTotal(a, b);
    }
    forall a, b, c | LexLe(a, b) && LexLe(b, c) ensures LexLe(a, c) {
      LexLeTransitive(a, b, c);
    }
    forall a, b | LexLe(a, b) && LexLe(b, a) ensures a == b {
      LexLeAntisymmetric(a, b);
    }
  }

  /** The numeric sort: `sort(key=int index)`, stable. */
  function NumericOrder(names: seq<string>): (r: seq<string>)
    ensures SortedBy(r, IndexLe) && multiset(r) == multiset(names)
    ensures forall x :: Block(r, IndexLe, x) == Block(names, IndexLe, x)
  {
    IndexOrderIsPreorder();
    SortBy(names, IndexLe)
  }

  /** The fallback: `sort()`, plain string order. */
  function LexicalOrder(names: seq<string>): (r: seq<string>)
    ensures SortedBy(r, LexLe) && multiset(r) == multiset(names)
  {
    LexOrderIsTotal();
    SortBy(names, LexLe)
  }

  /**
   * String order depends only on which names there are, not on the order
   * they were listed in.
   */
  lemma LexicalOrderOfPermutation(a: seq<string>, b: seq<string>)
    requires multiset(a) == multiset(b)
    ensures LexicalOrder(a) == LexicalOrder(b)
  {
    LexOrderIsTotal();
    SortByPermutation(a, b, LexLe);
  }

  /**
   * Sorting a listing and then keeping the `ext` names visits them in the
   * same order as keeping them first and sorting after.
   */
  lemma FilterAfterSort(names: seq<string>, ext: string)
    ensures WithExtension(LexicalOrder(names), ext) == LexicalOrder(WithExtension(names, ext))
  {
    LexOrderIsTotal();
    WithExtensionSorted(LexicalOrder(names), ext, LexLe);
    FilterSameElements(LexicalOrder(names), names, ext);
    SortedUniqueTotal(WithExtension(LexicalOrder(names), ext), LexicalOrder(WithExtension(names, ext)), LexLe);
  }

  /** Filtering two lists with the same elements leaves lists with the same elements. */
  lemma FilterSameElements(a: seq<string>, b: seq<string>, ext: string)
    requires multiset(a) == multiset(b)
    ensures multiset(WithExtension(a, ext)) == multiset(LexicalOrder(WithExtension(b, ext)))
  {
    WithExtensionCount(a, ext);
    WithExtensionCount(b, ext);
    assert multiset(WithExtension(a, ext)) == multiset(WithExtension(b, ext));
  }

  /** The audio files of pages 1 to `n`, in document order. */
  function PageAudioNames(base: string, n: nat): (r: seq<string>)
    ensures |r| == n
    ensures forall i :: 0 <= i < n ==> r[i] == AudioFileName(base, Decimal(i + 1))
  {
    seq(n, i requires 0 <= i < n => AudioFileName(base, Decimal(i + 1)))
  }

  /** The audio files of pages 1 to `n` carry the keys 1 to `n`, in that order. */
  lemma PageAudioNamesIndexed(base: string, n: nat)
    ensures AllIndexed(PageAudioNames(base, n))
    ensures forall i :: 0 <= i < n ==> IndexKey(PageAudioNames(base, n)[i]) == i + 1
    ensures StrictlySortedBy(PageAudioNames(base, n), IndexLe)
  {
    var r := PageAudioNames(base, n);
    forall i | 0 <= i < n ensures WavIndex(r[i]) == Some(i + 1) {
      PageAudioKey(base, n, i);
    }
    forall i, j | 0 <= i < j < n ensures !IndexLe(r[j], r[i]) {
      assert IndexKey(r[j]) == j + 1 && IndexKey(r[i]) == i + 1;
    }
  }

  lemma PageAudioKey(base: string, n: nat, i: nat)
    requires i < n
    ensures WavIndex(PageAudioNames(base, n)[i]) == Some(i + 1)
  {
    WavIndexOfPage(base, i + 1);
  }

  /**
   * Whatever order the audio files of pages 1 to `n` are listed in, the
   * numeric sort puts them back in document order.
   */
  lemma DocumentOrder(base: string, n: nat, listing: seq<string>)
    requires multiset(listing) == multiset(PageAudioNames(base, n))
    ensures AllIndexed(listing)
    ensures NumericOrder(listing) == PageAudioNames(base, n)
  {
    var pages := PageAudioNames(base, n);
    PageAudioNamesIndexed(base, n);
    forall i | 0 <= i < |listing| ensures WavIndex(listing[i]).Some? {
      assert listing[i] in multiset(pages);
    }
    IndexOrderIsPreorder();
    SortedAgainstStrict(NumericOrder(listing), pages, IndexLe);
  }

  /**
   * Under string order page 10 comes before page 2: the fallback does not
   * keep document order once a document has ten pages.
   */
  lemma LexicalOrderMisplacesPageTen(base: string)
    ensures LexLe(AudioFileName(base, "10"), AudioFileName(base, "2"))
    ensures !LexLe(AudioFileName(base, "2"), AudioFileName(base, "10"))
  {
    var p := base + "_pagina_";
    assert AudioFileName(base, "10") == p + "10.wav";
    assert AudioFileName(base, "2") == p + "2.wav";
    LexLeCommonPrefix(p, "10.wav", "2.wav");
    LexLeCommonPrefix(p, "2.wav", "10.wav");
  }
}
