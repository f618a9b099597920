/**
 * Whole runs of the pipeline. From a fresh working tree holding an `N`-page
 * source PDF, the track written is the spoken text of pages 1..N, in page
 * order. If the source is missing, a run writes an empty track.
 */
module PipelineRuns {
  import opened Wrappers
  import opened PyStr
  import opened Numerals
  import opened FileSystem
  import opened PageNames
  import opened PageOrder
  import opened DividerPages
  import opened Audio
  import opened Pipeline
  import Paths

  /** What `speak` makes of each page's text, page 1 first. */
  function PageSegments(speak: string -> seq<int>, pages: seq<string>): (segs: seq<seq<int>>)
    ensures |segs| == |pages|
    ensures forall i :: 0 <= i < |pages| ==> segs[i] == speak(PageText([pages[i]]))
  {
    seq(|pages|, i requires 0 <= i < |pages| => speak(PageText([pages[i]])))
  }

  /** The audio file of each page. */
  function PageWavs(speak: string -> seq<int>, pages: seq<string>): (r: seq<File>)
    ensures |r| == |pages|
    ensures forall i :: 0 <= i < |pages| ==> r[i] == Wav(speak(PageText([pages[i]])))
  {
    seq(|pages|, i requires 0 <= i < |pages| => Wav(speak(PageText([pages[i]]))))
  }

  /** The source PDF is where the settings say, and none of the working directories holds anything yet. */
  ghost predicate FreshStart(cfg: Config, disk: Disk, source: Option<File>) {
    && Lookup(disk, Paths.Join(cfg.dataDir, cfg.pdfFilename)) == source
    && Dir(disk, cfg.textDir) == map[] && Dir(disk, cfg.audioDir) == map[] && Dir(disk, cfg.outputDir) == map[]
  }

  /** After `_setup`: the working directories exist and are empty, except perhaps the result directory. */
  ghost predicate ReadyToSplit(cfg: Config, d: Disk) {
    && HasDir(d, cfg.textDir) && HasDir(d, cfg.audioDir) && HasDir(d, cfg.outputDir) && HasDir(d, cfg.resultAudioDir)
    && Dir(d, cfg.textDir) == map[] && Dir(d, cfg.audioDir) == map[] && Dir(d, cfg.outputDir) == map[]
  }

  /** After `split_pdf`: one PDF per page in `./output`, and the text and audio directories still empty. */
  ghost predicate ReadyToExtract(cfg: Config, d: Disk, pages: seq<string>) {
    && HasDir(d, cfg.textDir) && HasDir(d, cfg.audioDir) && HasDir(d, cfg.resultAudioDir)
    && Dir(d, cfg.textDir) == map[] && Dir(d, cfg.audioDir) == map[]
    && Dir(d, OutputDir) == Entries(PdfPageNames(cfg.baseOutputName, |pages|), SinglePages(pages))
  }

  /** After `_process_pdf`: one text file per page, and the audio directory still empty. */
  ghost predicate Extracted(cfg: Config, d: Disk, pages: seq<string>) {
    && HasDir(d, cfg.textDir) && HasDir(d, cfg.audioDir) && HasDir(d, cfg.resultAudioDir)
    && Dir(d, cfg.textDir) == Entries(TextPageNames(cfg.baseOutputName, |pages|), PageTexts(pages))
    && Dir(d, cfg.audioDir) == map[]
  }

  /** After `_generate_audio_from_text_files`: one audio file per page. */
  ghost predicate Voiced(cfg: Config, speak: string -> seq<int>, d: Disk, pages: seq<string>) {
    && HasDir(d, cfg.audioDir) && HasDir(d, cfg.resultAudioDir)
    && Dir(d, cfg.audioDir) == Entries(PageAudioNames(cfg.baseOutputName, |pages|), PageWavs(speak, pages))
  }

  /** The divider's default directories are plain and distinct. */
  lemma DividerDirs()
    ensures PlainDir(OutputDir) && PlainDir(TextDir) && DirKey(OutputDir) != DirKey(TextDir)
  {
    DefaultKeys();
    assert OutputDir[|OutputDir| - 1] == 't' && TextDir[|TextDir| - 1] == 't';
  }

  lemma TextPageNameShape(base: string, k: nat)
    requires '/' !in base
    ensures PlainName(TextPageName(base, k)) && EndsWith(TextPageName(base, k), ".txt")
  {
    DecimalPlain(k);
    var s := (base + "_pagina_" + Decimal(k)) + ".txt";
    assert s == TextPageName(base, k);
    assert s[|s| - 4..] == ".txt";
  }

  lemma AudioPageNameShape(base: string, k: nat)
    requires '/' !in base
    ensures PlainName(AudioFileName(base, Decimal(k))) && EndsWith(AudioFileName(base, Decimal(k)), ".wav")
  {
    DecimalPlain(k);
    var s := (base + "_pagina_" + Decimal(k)) + ".wav";
    assert s == AudioFileName(base, Decimal(k));
    assert s[|s| - 4..] == ".wav";
  }

  lemma ResultNamePlain(base: string)
    requires '/' !in base
    ensures PlainName(ResultFileName(base))
  {
    assert ResultFileName(base) == base + "_completo.wav";
  }

  /** The `j`-th text file name of the document is plain, ends in `.txt`, and carries page `j + 1`. */
  lemma TextNameAt(base: string, n: nat, j: nat)
    requires '/' !in base && j < n
    ensures PlainName(TextPageNames(base, n)[j]) && EndsWith(TextPageNames(base, n)[j], ".txt")
    ensures PageString(TextPageNames(base, n)[j]) == Decimal(j + 1)
  {
    TextPageNameShape(base, j + 1);
    PageStringOfTextPage(base, j + 1);
  }

  /** The `j`-th audio file name of the document is plain and ends in `.wav`. */
  lemma AudioNameAt(base: string, n: nat, j: nat)
    requires '/' !in base && j < n
    ensures PlainName(PageAudioNames(base, n)[j]) && EndsWith(PageAudioNames(base, n)[j], ".wav")
  {
    AudioPageNameShape(base, j + 1);
  }

  /** The audio files of different pages have different names. */
  lemma PageAudioNamesDistinct(base: string, n: nat)
    ensures Distinct(PageAudioNames(base, n))
  {
    forall i, j | 0 <= i < j < n ensures PageAudioNames(base, n)[i] != PageAudioNames(base, n)[j] {
      PageNamesInjective(base, i + 1, j + 1);
    }
  }

  /** The text directory after extraction holds page `j + 1`'s text under its name. */
  lemma TextFileAt(base: string, pages: seq<string>, j: nat)
    requires j < |pages|
    ensures Entries(TextPageNames(base, |pages|), PageTexts(pages))[TextPageNames(base, |pages|)[j]] == Text(PageText([pages[j]]))
  {
    PageNameListsDistinct(base, |pages|);
    EntriesAt(TextPageNames(base, |pages|), PageTexts(pages), j);
  }

  /** The audio directory after synthesis holds page `j + 1`'s speech under its name. */
  lemma WavFileAt(base: string, speak: string -> seq<int>, pages: seq<string>, j: nat)
    requires j < |pages|
    ensures Entries(PageAudioNames(base, |pages|), PageWavs(speak, pages))[PageAudioNames(base, |pages|)[j]] == Wav(speak(PageText([pages[j]])))
  {
    PageAudioNamesDistinct(base, |pages|);
    EntriesAt(PageAudioNames(base, |pages|), PageWavs(speak, pages), j);
  }

  // ---------------------------------------------------------------------
  // Stage by stage, from a fresh working tree
  // ---------------------------------------------------------------------

  /** `_setup` on a fresh tree creates the working directories, empty, and leaves the source where it was. */
  lemma SetupFresh(cfg: Config, disk: Disk, source: Option<File>)
    requires FreshStart(cfg, disk, source)
    ensures ReadyToSplit(cfg, CreatedDirectories(disk, DirectoriesToCreate(cfg)))
    ensures Lookup(CreatedDirectories(disk, DirectoriesToCreate(cfg)), Paths.Join(cfg.dataDir, cfg.pdfFilename)) == source
  {
    var dirs := DirectoriesToCreate(cfg);
    assert dirs[0] == cfg.textDir && dirs[1] == cfg.audioDir && dirs[2] == cfg.outputDir && dirs[3] == cfg.resultAudioDir;
    CreatedDirectoriesKeepFiles(disk, dirs, Paths.Join(cfg.dataDir, cfg.pdfFilename));
  }

  /** `split_pdf` writes one PDF per page into the empty `./output` and touches nothing else. */
  lemma SplitFresh(cfg: Config, d: Disk, pages: seq<string>)
    requires ConfigOk(cfg) && ReadyToSplit(cfg, d)
    requires Lookup(d, Paths.Join(cfg.dataDir, cfg.pdfFilename)) == Some(Pdf(pages))
    ensures SplitOutcome(cfg.dataDir, cfg.pdfFilename, cfg.baseOutputName, d).Success?
    ensures ReadyToExtract(cfg, SplitOutcome(cfg.dataDir, cfg.pdfFilename, cfg.baseOutputName, d).value, pages)
  {
    SplitWritesPages(cfg.dataDir, cfg.pdfFilename, cfg.baseOutputName, d, pages);
    var split := SplitOutcome(cfg.dataDir, cfg.pdfFilename, cfg.baseOutputName, d).value;
    var written := Entries(PdfPageNames(cfg.baseOutputName, |pages|), SinglePages(pages));
    assert Dir(d, OutputDir) == map[];
    EmptyUnion(Dir(d, OutputDir), written, written);
    assert SameElsewhere(split, d, DirKey(OutputDir));
    assert split.dirs[DirKey(cfg.textDir)] == d.dirs[DirKey(cfg.textDir)];
    assert split.dirs[DirKey(cfg.audioDir)] == d.dirs[DirKey(cfg.audioDir)];
    assert split.dirs[DirKey(cfg.resultAudioDir)] == d.dirs[DirKey(cfg.resultAudioDir)];
  }

  /** `pdfs_to_text` turns the page PDFs, listed in any order, into one text file per page. */
  lemma ExtractFresh(cfg: Config, d: Disk, pages: seq<string>, r: Result<Disk, Fault>)
    requires ConfigOk(cfg) && ReadyToExtract(cfg, d, pages)
    requires ConvertsPdfs(d, OutputDir, TextDir, r)
    ensures r.Success? && Extracted(cfg, r.value, pages)
  {
    var names :| Enumerates(names, PdfEntries(Dir(d, OutputDir)))
      && r == Steps(MakeDirs(d, TextDir), JoinAll(OutputDir, names), ExtractStep(TextDir));
    assert MakeDirs(d, TextDir) == d;
    DividerDirs();
    ExtractPages(d, OutputDir, TextDir, cfg.baseOutputName, pages, names);
    var texts := Entries(TextPageNames(cfg.baseOutputName, |pages|), PageTexts(pages));
    DirAfterUpdate(d, DirKey(TextDir), texts, cfg.textDir);
    DirAfterUpdate(d, DirKey(TextDir), texts, cfg.audioDir);
  }

  /** `_process_pdf` on a fresh tree: one text file per page. */
  lemma ProcessFresh(cfg: Config, d: Disk, pages: seq<string>, r: Result<Disk, Fault>)
    requires ConfigOk(cfg) && ReadyToSplit(cfg, d)
    requires Lookup(d, Paths.Join(cfg.dataDir, cfg.pdfFilename)) == Some(Pdf(pages))
    requires PdfProcessed(cfg, d, r)
    ensures r.Success? && Extracted(cfg, r.value, pages)
  {
    SplitFresh(cfg, d, pages);
    ExtractFresh(cfg, SplitOutcome(cfg.dataDir, cfg.pdfFilename, cfg.baseOutputName, d).value, pages, r);
  }

  /** The audio file names written for the text files `order`, in that order. */
  function SpokenNames(base: string, order: seq<string>): (r: seq<string>)
    ensures |r| == |order|
    ensures forall i :: 0 <= i < |order| ==> r[i] == AudioFileName(base, PageString(order[i]))
  {
    seq(|order|, i requires 0 <= i < |order| => AudioFileName(base, PageString(order[i])))
  }

  /** Each of `names` is a text file of `dir`. */
  predicate HoldsTexts(dir: Directory, names: seq<string>) {
    forall i :: 0 <= i < |names| ==> names[i] in dir && dir[names[i]].Text?
  }

  /** The audio written for the text files `order` of `dir`, in that order. */
  function SpokenFiles(speak: string -> seq<int>, dir: Directory, order: seq<string>): (r: seq<File>)
    requires HoldsTexts(dir, order)
    ensures |r| == |order|
    ensures forall i :: 0 <= i < |order| ==> r[i] == Wav(speak(dir[order[i]].content))
  {
    seq(|order|, i requires 0 <= i < |order| => Wav(speak(dir[order[i]].content)))
  }

  /** The text files can be spoken from the text directory into the distinct, existing audio directory. */
  predicate Speakable(cfg: Config, d: Disk, order: seq<string>) {
    && PlainDir(cfg.textDir) && PlainDir(cfg.audioDir) && DirKey(cfg.textDir) != DirKey(cfg.audioDir)
    && HasDir(d, cfg.audioDir) && '/' !in cfg.baseOutputName
    && (forall i :: 0 <= i < |order| ==> PlainName(order[i])) && HoldsTexts(Dir(d, cfg.textDir), order)
  }

  /** Speaking the text files in turn adds one audio file per text file and changes nothing else. */
  lemma SpokenInto(cfg: Config, speak: string -> seq<int>, d: Disk, order: seq<string>)
    requires Speakable(cfg, d, order)
    ensures Steps(d, order, SynthesisStep(cfg.textDir, cfg.audioDir, cfg.baseOutputName, speak))
         == Success(Disk(d.dirs[DirKey(cfg.audioDir) := Dir(d, cfg.audioDir)
              + Entries(SpokenNames(cfg.baseOutputName, order), SpokenFiles(speak, Dir(d, cfg.textDir), order))]))
  {
    var step := SynthesisStep(cfg.textDir, cfg.audioDir, cfg.baseOutputName, speak);
    var names, files := SpokenNames(cfg.baseOutputName, order), SpokenFiles(speak, Dir(d, cfg.textDir), order);
    var key := DirKey(cfg.audioDir);
    forall i, e | 0 <= i < |order| && Beside(e, d, key)
      ensures step(e, order[i]) == Success(Disk(e.dirs[key := Dir(e, cfg.audioDir)[names[i] := files[i]]]))
    {
      assert Dir(e, cfg.textDir) == Dir(d, cfg.textDir);
      SynthesizeOneWrites(cfg.textDir, cfg.audioDir, cfg.baseOutputName, speak, e, order[i]);
    }
    StepsInto(d, order, step, cfg.audioDir, names, files);
  }

  /** `dir` holds a text file under each of the distinct, plain `.txt` names `names`, and nothing else. */
  ghost predicate TextDirectory(dir: Directory, names: seq<string>) {
    && Distinct(names) && (forall n :: n in dir <==> n in names)
    && forall j :: 0 <= j < |names| ==> PlainName(names[j]) && EndsWith(names[j], ".txt") && dir[names[j]].Text?
  }

  /** The text directory after extraction is of that shape. */
  lemma ExtractedTextDirectory(base: string, pages: seq<string>)
    requires '/' !in base
    ensures TextDirectory(Entries(TextPageNames(base, |pages|), PageTexts(pages)), TextPageNames(base, |pages|))
  {
    PageNameListsDistinct(base, |pages|);
    forall j | 0 <= j < |pages|
      ensures PlainName(TextPageNames(base, |pages|)[j]) && EndsWith(TextPageNames(base, |pages|)[j], ".txt")
      ensures Entries(TextPageNames(base, |pages|), PageTexts(pages))[TextPageNames(base, |pages|)[j]].Text?
    {
      TextNameAt(base, |pages|, j);
      TextFileAt(base, pages, j);
    }
  }

  /** A listing of such a directory, filtered and sorted, takes each of `names` once and nothing else. */
  lemma ListedTextFiles(dir: Directory, names: seq<string>, listing: seq<string>)
    requires TextDirectory(dir, names) && Enumerates(listing, dir)
    ensures Distinct(TextOrder(listing))
    ensures forall i :: 0 <= i < |TextOrder(listing)| ==> TextOrder(listing)[i] in names
    ensures forall j :: 0 <= j < |names| ==> names[j] in TextOrder(listing)
    ensures forall i :: 0 <= i < |TextOrder(listing)| ==> PlainName(TextOrder(listing)[i])
    ensures HoldsTexts(dir, TextOrder(listing))
  {
    var order := TextOrder(listing);
    TextOrderOfDirectory(listing, dir);
    forall i | 0 <= i < |order| ensures PlainName(order[i]) && dir[order[i]].Text? {
      var j := Position(names, order[i]);
    }
  }

  /**
   * Speaking the text files `names` of `dir`, taken in any order `order`,
   * gives the audio files `audio` when each text file's audio name and
   * speech are the corresponding entries of `audio` and `wavs`.
   */
  lemma SpokenReordered(base: string, speak: string -> seq<int>, dir: Directory, names: seq<string>, order: seq<string>,
                        audio: seq<string>, wavs: seq<File>)
    requires Distinct(order) && Distinct(names) && Distinct(audio) && |audio| == |wavs| == |names|
    requires forall i :: 0 <= i < |order| ==> order[i] in names
    requires forall j :: 0 <= j < |names| ==> names[j] in order
    requires HoldsTexts(dir, order)
    requires forall j :: 0 <= j < |names| ==> names[j] in dir && AudioFileName(base, PageString(names[j])) == audio[j]
    requires forall j :: 0 <= j < |names| ==> names[j] in dir && dir[names[j]].Text? && Wav(speak(dir[names[j]].content)) == wavs[j]
    ensures Entries(SpokenNames(base, order), SpokenFiles(speak, dir, order)) == Entries(audio, wavs)
  {
    var ks, inv := Positions(order, names);
    EntriesReordered(SpokenNames(base, order), SpokenFiles(speak, dir, order), audio, wavs, ks, inv);
  }

  /** Page `j + 1`'s text file is named for page `j + 1`'s audio file and is spoken into it. */
  lemma SpokenPagesMatch(base: string, speak: string -> seq<int>, pages: seq<string>)
    requires '/' !in base
    ensures forall j :: 0 <= j < |pages| ==>
      && TextPageNames(base, |pages|)[j] in Entries(TextPageNames(base, |pages|), PageTexts(pages))
      && AudioFileName(base, PageString(TextPageNames(base, |pages|)[j])) == PageAudioNames(base, |pages|)[j]
    ensures forall j :: 0 <= j < |pages| ==>
      && TextPageNames(base, |pages|)[j] in Entries(TextPageNames(base, |pages|), PageTexts(pages))
      && Entries(TextPageNames(base, |pages|), PageTexts(pages))[TextPageNames(base, |pages|)[j]].Text?
      && Wav(speak(Entries(TextPageNames(base, |pages|), PageTexts(pages))[TextPageNames(base, |pages|)[j]].content)) == PageWavs(speak, pages)[j]
  {
    forall j | 0 <= j < |pages|
      ensures AudioFileName(base, PageString(TextPageNames(base, |pages|)[j])) == PageAudioNames(base, |pages|)[j]
      ensures Entries(TextPageNames(base, |pages|), PageTexts(pages))[TextPageNames(base, |pages|)[j]] == Text(PageText([pages[j]]))
    {
      TextNameAt(base, |pages|, j);
      TextFileAt(base, pages, j);
    }
  }

  /** `_generate_audio_from_text_files` after a fresh extraction: one audio file per page. */
  lemma SynthesisFresh(cfg: Config, speak: string -> seq<int>, d: Disk, pages: seq<string>, r: Result<Disk, Fault>)
    requires ConfigOk(cfg) && Extracted(cfg, d, pages)
    requires AudioGenerated(cfg, speak, d, r)
    ensures r.Success? && Voiced(cfg, speak, r.value, pages)
  {
    var base := cfg.baseOutputName;
    var texts := Dir(d, cfg.textDir);
    var listing :| Enumerates(listing, texts)
      && r == Steps(d, TextOrder(listing), SynthesisStep(cfg.textDir, cfg.audioDir, base, speak));
    var order := TextOrder(listing);
    var names := TextPageNames(base, |pages|);
    ExtractedTextDirectory(base, pages);
    ListedTextFiles(texts, names, listing);
    SpokenInto(cfg, speak, d, order);
    var spoken := Entries(SpokenNames(base, order), SpokenFiles(speak, texts, order));
    SpokenPagesMatch(base, speak, pages);
    PageAudioNamesDistinct(base, |pages|);
    SpokenReordered(base, speak, texts, names, order, PageAudioNames(base, |pages|), PageWavs(speak, pages));
    EmptyUnion(Dir(d, cfg.audioDir), spoken, spoken);
    DirAfterUpdate(d, DirKey(cfg.audioDir), spoken, cfg.audioDir);
    DirAfterUpdate(d, DirKey(cfg.audioDir), spoken, cfg.resultAudioDir);
  }

  /** Each page's audio file reads back as its speech. */
  lemma PageWavsLoad(cfg: Config, speak: string -> seq<int>, d: Disk, pages: seq<string>)
    requires ConfigOk(cfg) && Voiced(cfg, speak, d, pages)
    ensures forall i :: 0 <= i < |pages| ==>
      LoadWav(d, Paths.Join(cfg.audioDir, PageAudioNames(cfg.baseOutputName, |pages|)[i])) == Success(PageSegments(speak, pages)[i])
  {
    forall i | 0 <= i < |pages|
      ensures LoadWav(d, Paths.Join(cfg.audioDir, PageAudioNames(cfg.baseOutputName, |pages|)[i])) == Success(PageSegments(speak, pages)[i])
    {
      PageWavLoads(cfg.audioDir, cfg.baseOutputName, speak, d, pages, i);
    }
  }

  /** Page `i + 1`'s audio file reads back as its speech. */
  lemma PageWavLoads(audioDir: string, base: string, speak: string -> seq<int>, d: Disk, pages: seq<string>, i: nat)
    requires PlainDir(audioDir) && '/' !in base && i < |pages|
    requires Dir(d, audioDir) == Entries(PageAudioNames(base, |pages|), PageWavs(speak, pages))
    ensures LoadWav(d, Paths.Join(audioDir, PageAudioNames(base, |pages|)[i])) == Success(PageSegments(speak, pages)[i])
  {
    var names := PageAudioNames(base, |pages|);
    AudioNameAt(base, |pages|, i);
    LookupJoin(d, audioDir, names[i]);
    WavFileAt(base, speak, pages, i);
    assert names[i] in Dir(d, audioDir);
  }

  /** A listing of the audio directory: the audio files of pages 1..N, put in page order without a warning. */
  lemma ListedWavFiles(base: string, speak: string -> seq<int>, pages: seq<string>, listing: seq<string>)
    requires '/' !in base
    requires Enumerates(listing, Entries(PageAudioNames(base, |pages|), PageWavs(speak, pages)))
    ensures OrderWavFiles(WithExtension(listing, ".wav")) == (PageAudioNames(base, |pages|), false)
  {
    var N := |pages|;
    var names := PageAudioNames(base, N);
    var dir := Entries(names, PageWavs(speak, pages));
    PageAudioNamesDistinct(base, N);
    EnumerationsPermute(listing, names, dir);
    forall i | 0 <= i < |listing| ensures EndsWith(listing[i], ".wav") {
      var j := Position(names, listing[i]);
      AudioNameAt(base, N, j);
    }
    WithExtensionAll(listing, ".wav");
    DocumentOrder(base, N, WithExtension(listing, ".wav"));
  }

  /** `_concatenate_audio_files` after a fresh synthesis: the speech of pages 1..N, in page order. */
  lemma JoinFresh(cfg: Config, speak: string -> seq<int>, d: Disk, pages: seq<string>, r: Result<Disk, Fault>, warned: bool)
    requires ConfigOk(cfg) && Voiced(cfg, speak, d, pages)
    requires AudioJoined(cfg, d, r, warned)
    ensures r.Success? && !warned
    ensures Lookup(r.value, Paths.Join(cfg.resultAudioDir, ResultFileName(cfg.baseOutputName))) == Some(Wav(Flatten(PageSegments(speak, pages))))
  {
    var base := cfg.baseOutputName;
    var names := PageAudioNames(base, |pages|);
    var listing :| Enumerates(listing, Dir(d, cfg.audioDir))
      && warned == OrderWavFiles(WithExtension(listing, ".wav")).1
      && r == Concatenated(cfg.audioDir, cfg.resultAudioDir, d, OrderWavFiles(WithExtension(listing, ".wav")).0, ResultFileName(base));
    ListedWavFiles(base, speak, pages, listing);
    PageWavsLoad(cfg, speak, d, pages);
    ConcatenationOfLoaded(cfg.audioDir, d, names, PageSegments(speak, pages));
    ResultFileExported(cfg.resultAudioDir, base);
    ResultNamePlain(base);
    StoreJoin(d, cfg.resultAudioDir, ResultFileName(base), Wav(Flatten(PageSegments(speak, pages))));
  }

  /**
   * A run from a fresh working tree holding an `N`-page source PDF ends
   * without a fault and without the warning. The track it writes to
   * `<RESULT_AUDIO_DIR>/<BASE>_completo.wav` is the speech of pages 1..N
   * in page order, each page spoken from its stripped text.
   */
  lemma FreshRun(cfg: Config, speak: string -> seq<int>, disk: Disk, pages: seq<string>, r: Result<Disk, Fault>, warned: bool)
    requires ConfigOk(cfg) && FreshStart(cfg, disk, Some(Pdf(pages)))
    requires RunLeads(cfg, speak, disk, r, warned)
    ensures r.Success? && !warned
    ensures Lookup(r.value, Paths.Join(cfg.resultAudioDir, ResultFileName(cfg.baseOutputName))) == Some(Wav(Flatten(PageSegments(speak, pages))))
  {
    var processed, voiced :| RunThrough(cfg, speak, disk, processed, voiced, r, warned);
    var ready := CreatedDirectories(disk, DirectoriesToCreate(cfg));
    SetupFresh(cfg, disk, Some(Pdf(pages)));
    ProcessFresh(cfg, ready, pages, processed);
    SynthesisFresh(cfg, speak, processed.value, pages, voiced);
    JoinFresh(cfg, speak, voiced.value, pages, r, warned);
  }

  /** A listing of an empty directory is empty. */
  lemma EmptyListing(names: seq<string>, dir: Directory)
    requires Enumerates(names, dir) && dir == map[]
    ensures names == []
  {
    EnumerationsPermute(names, [], dir);
  }

  /** Without a source PDF, `split_pdf` reports it and returns; `pdfs_to_text` then finds nothing to convert. */
  lemma ProcessMissing(cfg: Config, d: Disk, r: Result<Disk, Fault>)
    requires ConfigOk(cfg) && ReadyToSplit(cfg, d)
    requires Lookup(d, Paths.Join(cfg.dataDir, cfg.pdfFilename)) == None
    requires PdfProcessed(cfg, d, r)
    ensures r == Success(d)
  {
    SplitMissingSource(cfg.dataDir, cfg.pdfFilename, cfg.baseOutputName, d);
    assert MakeDirs(d, OutputDir) == d;
    var names :| Enumerates(names, PdfEntries(Dir(d, OutputDir)))
      && r == Steps(MakeDirs(d, TextDir), JoinAll(OutputDir, names), ExtractStep(TextDir));
    EmptyListing(names, PdfEntries(Dir(d, OutputDir)));
    assert MakeDirs(d, TextDir) == d;
  }

  /** With no text files there is nothing to speak. */
  lemma SynthesisMissing(cfg: Config, speak: string -> seq<int>, d: Disk, r: Result<Disk, Fault>)
    requires ReadyToSplit(cfg, d) && AudioGenerated(cfg, speak, d, r)
    ensures r == Success(d)
  {
    var listing :| Enumerates(listing, Dir(d, cfg.textDir))
      && r == Steps(d, TextOrder(listing), SynthesisStep(cfg.textDir, cfg.audioDir, cfg.baseOutputName, speak));
    EmptyListing(listing, Dir(d, cfg.textDir));
    assert multiset(TextOrder(listing)) == multiset{};
  }

  /** With no audio files the track is empty, and it is still written. */
  lemma JoinMissing(cfg: Config, d: Disk, r: Result<Disk, Fault>, warned: bool)
    requires ConfigOk(cfg) && ReadyToSplit(cfg, d) && AudioJoined(cfg, d, r, warned)
    ensures r.Success? && !warned
    ensures Lookup(r.value, Paths.Join(cfg.resultAudioDir, ResultFileName(cfg.baseOutputName))) == Some(Wav([]))
  {
    var listing :| Enumerates(listing, Dir(d, cfg.audioDir))
      && warned == OrderWavFiles(WithExtension(listing, ".wav")).1
      && r == Concatenated(cfg.audioDir, cfg.resultAudioDir, d, OrderWavFiles(WithExtension(listing, ".wav")).0, ResultFileName(cfg.baseOutputName));
    EmptyListing(listing, Dir(d, cfg.audioDir));
    assert WithExtension(listing, ".wav") == [];
    assert multiset(OrderWavFiles([]).0) == multiset{};
    ResultFileExported(cfg.resultAudioDir, cfg.baseOutputName);
    ResultNamePlain(cfg.baseOutputName);
    StoreJoin(d, cfg.resultAudioDir, ResultFileName(cfg.baseOutputName), Wav([]));
  }

  /**
   * A run whose source PDF is missing is not stopped: `split_pdf` reports
   * the file missing and returns, and each later stage finds nothing to do.
   * The run ends without a fault and writes an empty track.
   */
  lemma MissingSourceRun(cfg: Config, speak: string -> seq<int>, disk: Disk, r: Result<Disk, Fault>, warned: bool)
    requires ConfigOk(cfg) && FreshStart(cfg, disk, None)
    requires RunLeads(cfg, speak, disk, r, warned)
    ensures r.Success? && !warned
    ensures Lookup(r.value, Paths.Join(cfg.resultAudioDir, ResultFileName(cfg.baseOutputName))) == Some(Wav([]))
  {
    var processed, voiced :| RunThrough(cfg, speak, disk, processed, voiced, r, warned);
    var ready := CreatedDirectories(disk, DirectoriesToCreate(cfg));
    SetupFresh(cfg, disk, None);
    ProcessMissing(cfg, ready, processed);
    SynthesisMissing(cfg, speak, ready, voiced);
    JoinMissing(cfg, ready, r, warned);
  }

  /** The same with the settings of `config.py`. */
  lemma FreshDefaultRun(speak: string -> seq<int>, disk: Disk, pages: seq<string>, r: Result<Disk, Fault>, warned: bool)
    requires FreshStart(DefaultConfig, disk, Some(Pdf(pages)))
    requires RunLeads(DefaultConfig, speak, disk, r, warned)
    ensures r.Success? && !warned
    ensures Lookup(r.value, "audio/result_audio/LaNocheBocaArriba_completo.wav") == Some(Wav(Flatten(PageSegments(speak, pages))))
  {
    DefaultConfigOk();
    FreshRun(DefaultConfig, speak, disk, pages, r, warned);
    DefaultResultPath();
  }

  lemma DefaultResultPath()
    ensures Paths.Join(DefaultConfig.resultAudioDir, ResultFileName(DefaultConfig.baseOutputName))
         == "audio/result_audio/LaNocheBocaArriba_completo.wav"
  {
    ResultAudioDirPath();
    DefaultResultName();
    Paths.JoinPlain("audio/result_audio", "LaNocheBocaArriba_completo.wav");
    assert "audio/result_audio"[17] == 'o';
    ResultPathLiteral();
  }

  lemma DefaultResultName()
    ensures ResultFileName(DefaultConfig.baseOutputName) == "LaNocheBocaArriba_completo.wav"
    ensures '/' !in "LaNocheBocaArriba_completo.wav"
  {
    ResultNamePlain("LaNocheBocaArriba");
  }

  lemma ResultPathLiteral()
    ensures "audio/result_audio" + "/" + "LaNocheBocaArriba_completo.wav" == "audio/result_audio/LaNocheBocaArriba_completo.wav"
  {
  }
}
