/**
 * The stand-alone script `main.py`: the same stages, written out at top
 * level with its own literals. Modelled here are its loop over the text
 * files and its strict sort of the audio files, which has no fallback.
 */
module MainScript {
  import opened Wrappers
  import opened PyStr
  import opened FileSystem
  import opened Sorting
  import opened PageNames
  import opened PageOrder
  import opened Pipeline
  import Paths

  const TextDirectory := "text"
  const AudioDirectory := "audio"
  const BaseOutputName := "LaNocheBocaArriba"

  /** The script's literals are the settings of `config.py`. */
  lemma ScriptLiterals()
    ensures DefaultConfig.textDir == TextDirectory && DefaultConfig.audioDir == AudioDirectory
    ensures DefaultConfig.baseOutputName == BaseOutputName
  {
  }

  /** Why the script stops while collecting the audio files. */
  datatype ScriptError =
    | ListingFailed(fault: Fault)      // `os.listdir` raised
    | InvalidPageNumber(name: string)  // `int` raised `ValueError` on this name's key

  /** Filtering a list that grows by one name grows by that name exactly when it has the extension. */
  lemma {:induction false} WithExtensionSnoc(names: seq<string>, x: string, ext: string)
    ensures WithExtension(names + [x], ext) == WithExtension(names, ext) + (if EndsWith(x, ext) then [x] else [])
    decreases |names|
  {
    var t := if EndsWith(x, ext) then [x] else [];
    if names == [] {
      assert names + [x] == [x] && WithExtension([x][1..], ext) == [];
    } else {
      var h := if EndsWith(names[0], ext) then [names[0]] else [];
      assert (names + [x])[0] == names[0];
      assert (names + [x])[1..] == names[1..] + [x];
      WithExtensionCons(names + [x], ext);
      WithExtensionCons(names, ext);
      WithExtensionSnoc(names[1..], x, ext);
      calc {
        WithExtension(names + [x], ext);
        h + WithExtension(names[1..] + [x], ext);
        h + (WithExtension(names[1..], ext) + t);
        (h + WithExtension(names[1..], ext)) + t;
        WithExtension(names, ext) + t;
      }
    }
  }

  lemma WithExtensionCons(names: seq<string>, ext: string)
    requires names != []
    ensures WithExtension(names, ext) == (if EndsWith(names[0], ext) then [names[0]] else []) + WithExtension(names[1..], ext)
  {
  }

  /** One more step of a run of steps. */
  lemma StepsSnoc<T>(disk: Disk, items: seq<T>, x: T, step: (Disk, T) -> Result<Disk, Fault>, d: Disk)
    requires Steps(disk, items, step) == Success(d)
    ensures Steps(disk, items + [x], step) == step(d, x)
  {
    assert (items + [x])[..|items|] == items;
  }

  /**
   * main.py:43-56: every entry of the text directory, in string order, and
   * for those ending in `.txt` the page's text is read and spoken into
   * `<base>_pagina_<page>.wav` in the audio directory. Filtering inside the
   * loop visits the same files in the same order as the pipeline's stage,
   * which filters first: the outcome is that stage's. The script's own
   * literals are those of `config.py` (`ScriptLiterals`).
   */
  method SpeakTextFiles(cfg: Config, disk: Disk, speak: string -> seq<int>) returns (r: Result<Disk, Fault>)
    ensures AudioGenerated(cfg, speak, disk, r)
  {
    var listing := ListDir(disk, cfg.textDir);
    if listing.Failure? {
      return Failure(listing.error);
    }
    var entries := LexicalOrder(listing.value);
    FilterAfterSort(listing.value, ".txt");
    ghost var step := SynthesisStep(cfg.textDir, cfg.audioDir, cfg.baseOutputName, speak);
    var written := disk;
    for i := 0 to |entries|
      invariant Steps(disk, WithExtension(entries[..i], ".txt"), step) == Success(written)
    {
      var txtFile := entries[i];
      FilteredStep(disk, entries, step, i, written);
      if EndsWith(txtFile, ".txt") {
        var txtPath := Paths.Join(cfg.textDir, txtFile);
        var text := ReadText(written, txtPath);
        if text.Failure? {
          StepsFailurePersistsAfter(disk, WithExtension(entries, ".txt"), step, entries, i + 1);
          assert Enumerates(listing.value, Dir(disk, cfg.textDir));
          return Failure(text.error);
        }
        var pageNumber := PageString(txtFile);
        var audioPath := Paths.Join(cfg.audioDir, AudioFileName(cfg.baseOutputName, pageNumber));
        var stored := Store(written, audioPath, Wav(speak(text.value)));
        if stored.Failure? {
          StepsFailurePersistsAfter(disk, WithExtension(entries, ".txt"), step, entries, i + 1);
          assert Enumerates(listing.value, Dir(disk, cfg.textDir));
          return stored;
        }
        written := stored.value;
      }
    }
    FilteredDone(disk, listing.value, step, written);
    return Success(written);
  }

  /** The loop's next entry is a step exactly when it has the extension. */
  lemma FilteredStep(disk: Disk, entries: seq<string>, step: (Disk, string) -> Result<Disk, Fault>, i: nat, d: Disk)
    requires i < |entries| && Steps(disk, WithExtension(entries[..i], ".txt"), step) == Success(d)
    ensures EndsWith(entries[i], ".txt") ==> Steps(disk, WithExtension(entries[..i + 1], ".txt"), step) == step(d, entries[i])
    ensures !EndsWith(entries[i], ".txt") ==> Steps(disk, WithExtension(entries[..i + 1], ".txt"), step) == Success(d)
  {
    assert entries[..i + 1] == entries[..i] + [entries[i]];
    WithExtensionSnoc(entries[..i], entries[i], ".txt");
    if EndsWith(entries[i], ".txt") {
      StepsSnoc(disk, WithExtension(entries[..i], ".txt"), entries[i], step, d);
    } else {
      assert WithExtension(entries[..i], ".txt") + [] == WithExtension(entries[..i], ".txt");
    }
  }

  /** Once every sorted entry has been visited, the `.txt` files have been spoken in the pipeline's order. */
  lemma FilteredDone(disk: Disk, listing: seq<string>, step: (Disk, string) -> Result<Disk, Fault>, d: Disk)
    requires Steps(disk, WithExtension(LexicalOrder(listing)[..|LexicalOrder(listing)|], ".txt"), step) == Success(d)
    ensures Steps(disk, TextOrder(listing), step) == Success(d)
  {
    assert LexicalOrder(listing)[..|LexicalOrder(listing)|] == LexicalOrder(listing);
    FilterAfterSort(listing, ".txt");
  }

  /** A failure part-way through the filtered entries persists to the end of them. */
  lemma StepsFailurePersistsAfter(disk: Disk, filtered: seq<string>, step: (Disk, string) -> Result<Disk, Fault>, entries: seq<string>, i: nat)
    requires i <= |entries| && filtered == WithExtension(entries, ".txt")
    requires Steps(disk, WithExtension(entries[..i], ".txt"), step).Failure?
    ensures Steps(disk, filtered, step) == Steps(disk, WithExtension(entries[..i], ".txt"), step)
  {
    assert entries == entries[..i] + entries[i..];
    WithExtensionAppend(entries[..i], entries[i..], ".txt");
    var k := |WithExtension(entries[..i], ".txt")|;
    assert filtered[..k] == WithExtension(entries[..i], ".txt");
    StepsFailurePersists(disk, filtered, step, k);
  }

  /** Filtering distributes over concatenation. */
  lemma {:induction false} WithExtensionAppend(a: seq<string>, b: seq<string>, ext: string)
    ensures WithExtension(a + b, ext) == WithExtension(a, ext) + WithExtension(b, ext)
    decreases |a|
  {
    if a == [] {
      assert a + b == b;
    } else {
      var h := if EndsWith(a[0], ext) then [a[0]] else [];
      assert (a + b)[0] == a[0];
      assert (a + b)[1..] == a[1..] + b;
      WithExtensionCons(a + b, ext);
      WithExtensionCons(a, ext);
      WithExtensionAppend(a[1..], b, ext);
      calc {
        WithExtension(a + b, ext);
        h + WithExtension(a[1..] + b, ext);
        h + (WithExtension(a[1..], ext) + WithExtension(b, ext));
        (h + WithExtension(a[1..], ext)) + WithExtension(b, ext);
        WithExtension(a, ext) + WithExtension(b, ext);
      }
    }
  }

  /** The first key that is `None`; `|keys|` if there is none. */
  function FirstNone(keys: seq<Option<int>>): (i: nat)
    ensures i <= |keys|
    ensures forall j :: 0 <= j < i ==> keys[j].Some?
    ensures i < |keys| ==> keys[i].None?
  {
    if keys == [] then 0
    else if keys[0].None? then 0
    else 1 + FirstNone(keys[1..])
  }

  /** Where the key pass of `sort(key=...)` first meets a name whose key `int` rejects; `|names|` if it meets none. */
  function FirstUnindexed(names: seq<string>): (i: nat)
    ensures i <= |names|
    ensures forall j :: 0 <= j < i ==> WavIndex(names[j]).Some?
    ensures i < |names| ==> WavIndex(names[i]).None?
  {
    FirstNone(SortKeys(names))
  }

  /** The keys the key pass computes, one per name. */
  function SortKeys(names: seq<string>): (keys: seq<Option<int>>)
    ensures |keys| == |names|
    ensures forall j :: 0 <= j < |names| ==> keys[j] == WavIndex(names[j])
  {
    seq(|names|, j requires 0 <= j < |names| => WavIndex(names[j]))
  }

  /** The key pass stops at the first name without a key. */
  lemma FirstUnindexedAt(names: seq<string>, i: nat)
    requires i < |names| && WavIndex(names[i]).None?
    requires forall j :: 0 <= j < i ==> WavIndex(names[j]).Some?
    ensures FirstUnindexed(names) == i
  {
  }

  /**
   * main.py:63, `wav_files.sort(key=...)` with no `except`: when every name
   * yields an integer key, the numeric order; otherwise the script stops on
   * the `ValueError` raised for the first name whose key `int` rejects.
   */
  function StrictOrder(wavFiles: seq<string>): (r: Result<seq<string>, string>)
    ensures r.Success? <==> AllIndexed(wavFiles)
    ensures r.Success? ==> SortedBy(r.value, IndexLe) && multiset(r.value) == multiset(wavFiles)
    ensures r.Failure? ==> exists i :: (0 <= i < |wavFiles| && wavFiles[i] == r.error
      && WavIndex(wavFiles[i]).None? && forall j :: 0 <= j < i ==> WavIndex(wavFiles[j]).Some?)
  {
    var i := FirstUnindexed(wavFiles);
    if i < |wavFiles| then Failure(wavFiles[i]) else Success(NumericOrder(wavFiles))
  }

  /** Where the strict sort succeeds, it agrees with the pipeline's sort, which then prints no warning. */
  lemma StrictAgreesWithPipeline(wavFiles: seq<string>)
    requires StrictOrder(wavFiles).Success?
    ensures OrderWavFiles(wavFiles) == (StrictOrder(wavFiles).value, false)
  {
  }

  /** Where the strict sort raises, the pipeline falls back to string order and warns. */
  lemma StrictFailsWherePipelineWarns(wavFiles: seq<string>)
    ensures StrictOrder(wavFiles).Failure? <==> OrderWavFiles(wavFiles).1
    ensures StrictOrder(wavFiles).Failure? ==> OrderWavFiles(wavFiles).0 == LexicalOrder(wavFiles)
  {
  }

  /** The key pass, then the sort. */
  method SortWavFilesStrictly(wavFiles: seq<string>) returns (r: Result<seq<string>, string>)
    ensures r == StrictOrder(wavFiles)
  {
    var i := 0;
    while i < |wavFiles|
      invariant i <= |wavFiles|
      invariant forall j :: 0 <= j < i ==> WavIndex(wavFiles[j]).Some?
    {
      var key := WavIndex(wavFiles[i]);
      if key.None? {
        FirstUnindexedAt(wavFiles, i);
        return Failure(wavFiles[i]);
      }
      KeyFound(wavFiles, i, key);
      i := i + 1;
    }
    return Success(NumericOrder(wavFiles));
  }

  /** main.py:62-63: the `.wav` entries of `audio`, strictly sorted. */
  method CollectWavFiles(disk: Disk) returns (r: Result<seq<string>, ScriptError>)
    ensures !HasDir(disk, AudioDirectory) ==> r == Failure(ListingFailed(NotFound(AudioDirectory)))
    ensures HasDir(disk, AudioDirectory) ==> exists listing :: (Enumerates(listing, Dir(disk, AudioDirectory))
      && r == match StrictOrder(WithExtension(listing, ".wav"))
              case Success(ordered) => Success(ordered)
              case Failure(name) => Failure(InvalidPageNumber(name)))
  {
    var listing := ListDir(disk, AudioDirectory);
    if listing.Failure? {
      return Failure(ListingFailed(listing.error));
    }
    var wavFiles := WithExtension(listing.value, ".wav");
    var sorted := SortWavFilesStrictly(wavFiles);
    if sorted.Failure? {
      return Failure(InvalidPageNumber(sorted.error));
    }
    return Success(sorted.value);
  }

  /** On the audio files of a whole document, the strict sort gives page order. */
  lemma StrictDocumentOrder(base: string, n: nat, listing: seq<string>)
    requires multiset(listing) == multiset(PageAudioNames(base, n))
    ensures StrictOrder(listing) == Success(PageAudioNames(base, n))
  {
    DocumentOrder(base, n, listing);
  }
}
