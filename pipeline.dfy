/**
 * `PdfToAudiobookPipeline`: four stages run one after another on the
 * working tree. It creates the directories, splits the source PDF and
 * extracts the text of each page, speaks each page's text into a WAV file,
 * and joins the WAV files in page order into one track.
 */
module Pipeline {
  import opened Wrappers
  import opened PyStr
  import opened Numerals
  import opened Sorting
  import opened FileSystem
  import opened PageNames
  import opened PageOrder
  import opened DividerPages
  import opened Audio
  import Paths

  /** The settings of `config.py` that the pipeline reads. */
  datatype Config = Config(
    pdfFilename: string,
    baseOutputName: string,
    dataDir: string,
    textDir: string,
    audioDir: string,
    outputDir: string,
    resultAudioDir: string)

  /** The values `config.py` gives them. */
  const DefaultConfig: Config :=
    Config("LaNocheBocaArriba.pdf", "LaNocheBocaArriba", "data", "text", "audio", "output", Paths.Join("audio", "result_audio"))

  /** `DIRECTORIES_TO_CREATE` */
  function DirectoriesToCreate(cfg: Config): seq<string> {
    [cfg.textDir, cfg.audioDir, cfg.outputDir, cfg.resultAudioDir]
  }

  /**
   * The settings a run relies on. The divider writes to its own default
   * directories `./output` and `./text`, so the configured ones must name
   * those same two. The four working directories must be distinct. The
   * base name must hold no `/` and must not start with `.`, which would
   * hide the page PDFs from `glob`.
   */
  predicate ConfigOk(cfg: Config) {
    && DirKey(cfg.textDir) == DirKey(TextDir) && DirKey(cfg.outputDir) == DirKey(OutputDir)
    && PlainDir(cfg.textDir) && PlainDir(cfg.audioDir) && PlainDir(cfg.resultAudioDir)
    && DirKey(cfg.audioDir) != DirKey(TextDir) && DirKey(cfg.audioDir) != DirKey(OutputDir)
    && DirKey(cfg.resultAudioDir) != DirKey(cfg.audioDir)
    && DirKey(cfg.resultAudioDir) != DirKey(TextDir) && DirKey(cfg.resultAudioDir) != DirKey(OutputDir)
    && '/' !in cfg.baseOutputName && !StartsWith(cfg.baseOutputName, ".")
  }

  /** The settings of `config.py` are such settings. */
  lemma DefaultConfigOk()
    ensures ConfigOk(DefaultConfig)
    ensures DefaultConfig.resultAudioDir == "audio/result_audio"
  {
    ResultAudioDirPath();
    DefaultKeys();
    var c := DefaultConfig;
    assert DirKey(c.textDir) == "text" && DirKey(c.outputDir) == "output" && DirKey(c.audioDir) == "audio";
    assert DirKey(c.resultAudioDir) == "audio/result_audio";
    assert PlainDir(c.textDir) && PlainDir(c.audioDir) && PlainDir(c.resultAudioDir);
    assert "LaNocheBocaArriba"[0] == 'L';
  }

  /** `os.path.join(AUDIO_DIR, "result_audio")` */
  lemma ResultAudioDirPath()
    ensures Paths.Join("audio", "result_audio") == "audio/result_audio"
  {
    Paths.JoinPlain("audio", "result_audio");
    assert "audio"[4] == 'o';
    assert "audio" + "/" + "result_audio" == "audio/result_audio";
  }

  /** The directory keys of the configured and the divider's directories. */
  lemma DefaultKeys()
    ensures DirKey(TextDir) == "text" && DirKey(OutputDir) == "output"
    ensures DirKey("text") == "text" && DirKey("output") == "output" && DirKey("audio") == "audio"
    ensures DirKey("audio/result_audio") == "audio/result_audio"
  {
    assert TextDir[..2] == "./" && TextDir[2..] == "text";
    assert OutputDir[..2] == "./" && OutputDir[2..] == "output";
    assert "text"[1] == 'e' && "output"[0] == 'o' && "audio"[0] == 'a';
    assert "audio/result_audio"[0] == 'a';
  }

  /** The directory keys of a list of directories. */
  function DirKeys(dirs: seq<string>): (keys: seq<string>)
    ensures |keys| == |dirs|
    ensures forall i :: 0 <= i < |dirs| ==> keys[i] == DirKey(dirs[i])
  {
    seq(|dirs|, i requires 0 <= i < |dirs| => DirKey(dirs[i]))
  }

  /**
   * What `utils.create_directories(dirs)` leaves. Each of `dirs` exists and
   * no other directory is added. No existing directory loses or gains a file.
   */
  function CreatedDirectories(disk: Disk, dirs: seq<string>): (r: Disk)
    ensures forall i :: 0 <= i < |dirs| ==> HasDir(r, dirs[i])
    ensures forall k :: k in r.dirs <==> k in disk.dirs || k in DirKeys(dirs)
    ensures forall e :: Dir(r, e) == Dir(disk, e)
    decreases |dirs|
  {
    if dirs == [] then disk
    else
      var n := |dirs| - 1;
      var before := CreatedDirectories(disk, dirs[..n]);
      CreatedStepHas(dirs, dirs[..n], before);
      CreatedStepKeys(disk, dirs, before);
      CreatedStepFiles(disk, dirs[n], before);
      MakeDirs(before, dirs[n])
  }

  /** Creating the last of `dirs` after the others, every one of `dirs` exists. */
  lemma CreatedStepHas(dirs: seq<string>, others: seq<string>, before: Disk)
    requires dirs != [] && others == dirs[..|dirs| - 1]
    requires forall i :: 0 <= i < |others| ==> HasDir(before, others[i])
    ensures forall i :: 0 <= i < |dirs| ==> HasDir(MakeDirs(before, dirs[|dirs| - 1]), dirs[i])
  {
    var n := |dirs| - 1;
    var r := MakeDirs(before, dirs[n]);
    forall i | 0 <= i < n ensures HasDir(r, dirs[i]) {
      assert others[i] == dirs[i];
    }
  }

  /** Creating the last of `dirs` after the others adds its key and no other. */
  lemma CreatedStepKeys(disk: Disk, dirs: seq<string>, before: Disk)
    requires dirs != []
    requires forall k :: k in before.dirs <==> k in disk.dirs || k in DirKeys(dirs[..|dirs| - 1])
    ensures forall k :: k in MakeDirs(before, dirs[|dirs| - 1]).dirs <==> k in disk.dirs || k in DirKeys(dirs)
  {
    var n := |dirs| - 1;
    assert DirKeys(dirs) == DirKeys(dirs[..n]) + [DirKey(dirs[n])];
  }

  /** Creating a directory changes no directory's files. */
  lemma CreatedStepFiles(disk: Disk, d: string, before: Disk)
    requires forall e :: Dir(before, e) == Dir(disk, e)
    ensures forall e :: Dir(MakeDirs(before, d), e) == Dir(disk, e)
  {
    forall e ensures Dir(MakeDirs(before, d), e) == Dir(before, e) {
      MakeDirsKeepsFiles(before, d, e, "");
    }
  }

  /** `utils.create_directories`: `os.makedirs(d, exist_ok=True)` for each directory in turn. */
  method CreateDirectories(disk: Disk, directories: seq<string>) returns (r: Disk)
    ensures r == CreatedDirectories(disk, directories)
  {
    r := disk;
    for i := 0 to |directories|
      invariant r == CreatedDirectories(disk, directories[..i])
    {
      CreatedDirectoriesNext(disk, directories, i);
      r := MakeDirs(r, directories[i]);
    }
    assert directories[..|directories|] == directories;
  }

  lemma CreatedDirectoriesNext(disk: Disk, dirs: seq<string>, i: nat)
    requires i < |dirs|
    ensures CreatedDirectories(disk, dirs[..i + 1]) == MakeDirs(CreatedDirectories(disk, dirs[..i]), dirs[i])
  {
    assert dirs[..i + 1][..i] == dirs[..i];
  }

  /** Creating directories leaves every file where it was. */
  lemma CreatedDirectoriesKeepFiles(disk: Disk, dirs: seq<string>, path: string)
    ensures Lookup(CreatedDirectories(disk, dirs), path) == Lookup(disk, path)
  {
    assert Dir(CreatedDirectories(disk, dirs), Paths.Split(path).0) == Dir(disk, Paths.Split(path).0);
  }

  // ---------------------------------------------------------------------
  // Stage 2: split the PDF and extract its text
  // ---------------------------------------------------------------------

  /**
   * What `_process_pdf` leaves. `split_pdf` runs on the configured source
   * and its failure ends the stage. Otherwise `pdfs_to_text` runs on what
   * the split left, between the divider's default directories.
   */
  ghost predicate PdfProcessed(cfg: Config, disk: Disk, r: Result<Disk, Fault>) {
    var split := SplitOutcome(cfg.dataDir, cfg.pdfFilename, cfg.baseOutputName, disk);
    if split.Failure? then r == Failure(split.error)
    else ConvertsPdfs(split.value, OutputDir, TextDir, r)
  }

  // ---------------------------------------------------------------------
  // Stage 3: speak each page
  // ---------------------------------------------------------------------

  /** `open(path, "r", encoding="utf-8").read()` */
  function ReadText(disk: Disk, path: string): (r: Result<string, Fault>)
    ensures r.Success? <==> Lookup(disk, path).Some? && Lookup(disk, path).value.Text?
    ensures r.Success? ==> Lookup(disk, path) == Some(Text(r.value))
    ensures Lookup(disk, path).None? ==> r == Failure(NotFound(path))
  {
    match Lookup(disk, path)
    case None => Failure(NotFound(path))
    case Some(Text(content)) => Success(content)
    case Some(_) => Failure(Unreadable(path))
  }

  /** `sorted([f for f in listing if f.endswith(".txt")])`: the text files in the order they are spoken. */
  function TextOrder(listing: seq<string>): (r: seq<string>)
    ensures SortedBy(r, LexLe)
    ensures forall n :: multiset(r)[n] == if EndsWith(n, ".txt") then multiset(listing)[n] else 0
  {
    WithExtensionCount(listing, ".txt");
    LexicalOrder(WithExtension(listing, ".txt"))
  }

  /** The audio file a text file is spoken into: `<BASE>_pagina_<page>.wav` in the audio directory. */
  function AudioPath(audioDir: string, base: string, txtFile: string): (p: string)
    ensures '/' !in base && '/' !in txtFile ==> Paths.Basename(p) == AudioFileName(base, PageString(txtFile))
  {
    var name := AudioFileName(base, PageString(txtFile));
    if '/' !in base && '/' !in txtFile then
      AudioFileNamePlain(base, txtFile);
      Paths.BasenameJoin(audioDir, name);
      Paths.Join(audioDir, name)
    else Paths.Join(audioDir, name)
  }

  /** A page string taken from a name without `/` has none either. */
  lemma PageStringPlain(txtFile: string)
    requires '/' !in txtFile
    ensures '/' !in PageString(txtFile)
  {
    var seg := LastSegment(txtFile, '_');
    LastSegmentSuffix(txtFile, '_');
    assert '/' !in seg by {
      forall i | 0 <= i < |seg| ensures seg[i] != '/' {
        assert seg[i] == txtFile[|txtFile| - |seg| + i];
      }
    }
  }

  /** The audio file name of a text file without `/` is a plain file name. */
  lemma AudioFileNamePlain(base: string, txtFile: string)
    requires '/' !in base && '/' !in txtFile
    ensures PlainName(AudioFileName(base, PageString(txtFile)))
  {
    PageStringPlain(txtFile);
    var name := AudioFileName(base, PageString(txtFile));
    assert name == base + "_pagina_" + PageString(txtFile) + ".wav";
  }

  /**
   * One pass of the loop in `_generate_audio_from_text_files`. It reads the
   * text file, and `VoiceReader.read` writes what `speak` makes of the text
   * to the page's audio file.
   */
  function SynthesizeOne(textDir: string, audioDir: string, base: string, speak: string -> seq<int>, disk: Disk, txtFile: string): (r: Result<Disk, Fault>)
    ensures Lookup(disk, Paths.Join(textDir, txtFile)).None? ==> r == Failure(NotFound(Paths.Join(textDir, txtFile)))
  {
    match ReadText(disk, Paths.Join(textDir, txtFile))
    case Failure(e) => Failure(e)
    case Success(text) => Store(disk, AudioPath(audioDir, base, txtFile), Wav(speak(text)))
  }

  function SynthesisStep(textDir: string, audioDir: string, base: string, speak: string -> seq<int>): (step: (Disk, string) -> Result<Disk, Fault>)
    ensures forall d, t :: step(d, t) == SynthesizeOne(textDir, audioDir, base, speak, d, t)
  {
    (d: Disk, t: string) => SynthesizeOne(textDir, audioDir, base, speak, d, t)
  }

  /**
   * Speaking a text file of the text directory writes exactly one file: the
   * page's audio file in the audio directory, holding the spoken text.
   * Nothing else changes.
   */
  lemma SynthesizeOneWrites(textDir: string, audioDir: string, base: string, speak: string -> seq<int>, disk: Disk, txtFile: string)
    requires PlainDir(textDir) && PlainDir(audioDir) && HasDir(disk, audioDir)
    requires '/' !in base && PlainName(txtFile)
    requires txtFile in Dir(disk, textDir) && Dir(disk, textDir)[txtFile].Text?
    ensures SynthesizeOne(textDir, audioDir, base, speak, disk, txtFile)
         == Success(Disk(disk.dirs[DirKey(audioDir) := Dir(disk, audioDir)[AudioFileName(base, PageString(txtFile)) := Wav(speak(Dir(disk, textDir)[txtFile].content))]]))
  {
    LookupJoin(disk, textDir, txtFile);
    AudioFileNamePlain(base, txtFile);
    StoreJoin(disk, audioDir, AudioFileName(base, PageString(txtFile)), Wav(speak(Dir(disk, textDir)[txtFile].content)));
  }

  /**
   * What `_generate_audio_from_text_files` leaves. A missing text directory
   * raises. Otherwise its `.txt` files are spoken one by one in string
   * order, and the stage stops at the first that raises.
   */
  ghost predicate AudioGenerated(cfg: Config, speak: string -> seq<int>, disk: Disk, r: Result<Disk, Fault>) {
    if !HasDir(disk, cfg.textDir) then r == Failure(NotFound(cfg.textDir))
    else exists listing :: (Enumerates(listing, Dir(disk, cfg.textDir))
      && r == Steps(disk, TextOrder(listing), SynthesisStep(cfg.textDir, cfg.audioDir, cfg.baseOutputName, speak)))
  }

  // ---------------------------------------------------------------------
  // Stage 4: join the audio files
  // ---------------------------------------------------------------------

  /**
   * The order in which `_concatenate_audio_files` hands over the audio files,
   * and whether it printed the warning. When every name yields an integer
   * key, the files are sorted by page index and stably. Otherwise the
   * warning is printed and they are sorted in plain string order. This
   * never raises.
   */
  function OrderWavFiles(wavFiles: seq<string>): (r: (seq<string>, bool))
    ensures multiset(r.0) == multiset(wavFiles)
    ensures r.1 <==> !AllIndexed(wavFiles)
    ensures !r.1 ==> SortedBy(r.0, IndexLe) && forall x :: Block(r.0, IndexLe, x) == Block(wavFiles, IndexLe, x)
    ensures r.1 ==> SortedBy(r.0, LexLe)
  {
    if AllIndexed(wavFiles) then (NumericOrder(wavFiles), false) else (LexicalOrder(wavFiles), true)
  }

  /** A name without an integer key sends the sort down the fallback path. */
  lemma FallbackOrder(wavFiles: seq<string>, i: nat)
    requires i < |wavFiles| && WavIndex(wavFiles[i]).None?
    ensures OrderWavFiles(wavFiles) == (LexicalOrder(wavFiles), true)
  {
  }

  lemma KeyFound(wavFiles: seq<string>, i: nat, key: Option<int>)
    requires i < |wavFiles| && key == WavIndex(wavFiles[i]) && key.Some?
    requires forall j :: 0 <= j < i ==> WavIndex(wavFiles[j]).Some?
    ensures forall j :: 0 <= j < i + 1 ==> WavIndex(wavFiles[j]).Some?
  {
  }

  /** With a key for every name the numeric sort stands. */
  lemma IndexedOrder(wavFiles: seq<string>)
    requires forall j :: 0 <= j < |wavFiles| ==> WavIndex(wavFiles[j]).Some?
    ensures OrderWavFiles(wavFiles) == (NumericOrder(wavFiles), false)
  {
  }

  /**
   * What `_concatenate_audio_files` leaves. A missing audio directory
   * raises. Otherwise its `.wav` files, put in order, are joined by a
   * concatenator reading from the audio directory and writing to the result
   * directory, into `<BASE>_completo.wav`.
   */
  ghost predicate AudioJoined(cfg: Config, disk: Disk, r: Result<Disk, Fault>, warned: bool) {
    if !HasDir(disk, cfg.audioDir) then r == Failure(NotFound(cfg.audioDir)) && !warned
    else exists listing :: (Enumerates(listing, Dir(disk, cfg.audioDir))
      && warned == OrderWavFiles(WithExtension(listing, ".wav")).1
      && r == Concatenated(cfg.audioDir, cfg.resultAudioDir, disk, OrderWavFiles(WithExtension(listing, ".wav")).0, ResultFileName(cfg.baseOutputName)))
  }

  /**
   * A listing of the text directory yields its `.txt` files, each once:
   * exactly the entries that end in `.txt`.
   */
  lemma TextOrderOfDirectory(listing: seq<string>, dir: Directory)
    requires Enumerates(listing, dir)
    ensures Distinct(TextOrder(listing))
    ensures forall n :: n in TextOrder(listing) <==> n in dir && EndsWith(n, ".txt")
  {
    var r := TextOrder(listing);
    forall x ensures multiset(r)[x] <= 1 && (x in r <==> x in dir && EndsWith(x, ".txt")) {
      DistinctCount(listing, x);
    }
    CountsDistinct(r);
  }

  /** The text files are spoken in the same order whatever order the directory is listed in. */
  lemma TextOrderDetermined(a: seq<string>, b: seq<string>, dir: Directory)
    requires Enumerates(a, dir) && Enumerates(b, dir)
    ensures TextOrder(a) == TextOrder(b)
  {
    EnumerationsPermute(a, b, dir);
    var wa, wb := WithExtension(a, ".txt"), WithExtension(b, ".txt");
    WithExtensionCount(a, ".txt");
    WithExtensionCount(b, ".txt");
    assert multiset(wa) == multiset(wb) by {
      forall x ensures multiset(wa)[x] == multiset(wb)[x] {
      }
    }
    LexicalOrderOfPermutation(wa, wb);
  }

  /**
   * On both paths the list handed to the concatenator holds exactly the
   * `.wav` entries of the audio directory, each once.
   */
  lemma WavFilesOfDirectory(listing: seq<string>, dir: Directory)
    requires Enumerates(listing, dir)
    ensures Distinct(OrderWavFiles(WithExtension(listing, ".wav")).0)
    ensures forall n :: n in OrderWavFiles(WithExtension(listing, ".wav")).0 <==> n in dir && EndsWith(n, ".wav")
  {
    var r := OrderWavFiles(WithExtension(listing, ".wav")).0;
    WithExtensionCount(listing, ".wav");
    forall x ensures multiset(r)[x] <= 1 && (x in r <==> x in dir && EndsWith(x, ".wav")) {
      DistinctCount(listing, x);
    }
    CountsDistinct(r);
  }

  /** On the numeric path the page indices never decrease along the list. */
  lemma NumericPathByIndex(wavFiles: seq<string>)
    requires AllIndexed(wavFiles)
    ensures AllIndexed(OrderWavFiles(wavFiles).0)
    ensures forall i, j :: 0 <= i < j < |OrderWavFiles(wavFiles).0| ==>
      WavIndex(OrderWavFiles(wavFiles).0[i]).value <= WavIndex(OrderWavFiles(wavFiles).0[j]).value
  {
    var r := OrderWavFiles(wavFiles).0;
    forall i | 0 <= i < |r| ensures WavIndex(r[i]).Some? {
      assert r[i] in multiset(wavFiles);
    }
    forall i, j | 0 <= i < j < |r| ensures WavIndex(r[i]).value <= WavIndex(r[j]).value {
      assert IndexLe(r[i], r[j]);
    }
  }

  /**
   * The numeric path is the only order that is sorted by page index, is a
   * permutation of the names and keeps equal indices in listing order.
   */
  lemma NumericPathUnique(wavFiles: seq<string>, s: seq<string>)
    requires AllIndexed(wavFiles)
    requires multiset(s) == multiset(wavFiles) && SortedBy(s, IndexLe)
    requires forall x :: Block(s, IndexLe, x) == Block(wavFiles, IndexLe, x)
    ensures OrderWavFiles(wavFiles).0 == s
  {
    IndexOrderIsPreorder();
    SortedUnique(OrderWavFiles(wavFiles).0, s, IndexLe);
  }

  /** The fallback path is the only permutation of the names in string order. */
  lemma FallbackPathUnique(wavFiles: seq<string>, s: seq<string>)
    requires !AllIndexed(wavFiles)
    requires multiset(s) == multiset(wavFiles) && SortedBy(s, LexLe)
    ensures OrderWavFiles(wavFiles).0 == s
  {
    LexOrderIsTotal();
    SortedUniqueTotal(OrderWavFiles(wavFiles).0, s, LexLe);
  }

  /** `<BASE>_completo.wav` already ends in `.wav`, so the concatenator writes it under that name. */
  lemma ResultFileExported(resultAudioDir: string, base: string)
    ensures ExportPath(resultAudioDir, ResultFileName(base)) == Paths.Join(resultAudioDir, ResultFileName(base))
  {
    assert ResultFileName(base) == (base + "_completo") + ".wav";
    ExportPathOfWav(resultAudioDir, ResultFileName(base));
  }

  // ---------------------------------------------------------------------
  // The run
  // ---------------------------------------------------------------------

  /**
   * The stages of `run` in order. Each stage starts from what the previous
   * one left, and a stage that raises ends the run with its fault.
   */
  ghost predicate RunThrough(cfg: Config, speak: string -> seq<int>, disk: Disk, processed: Result<Disk, Fault>, voiced: Result<Disk, Fault>, r: Result<Disk, Fault>, warned: bool) {
    && PdfProcessed(cfg, CreatedDirectories(disk, DirectoriesToCreate(cfg)), processed)
    && (processed.Failure? ==> r == Failure(processed.error) && !warned)
    && (processed.Success? ==>
          && AudioGenerated(cfg, speak, processed.value, voiced)
          && (voiced.Failure? ==> r == Failure(voiced.error) && !warned)
          && (voiced.Success? ==> AudioJoined(cfg, voiced.value, r, warned)))
  }

  /** What `run` leaves: some run of the stages through the file system's listings. */
  ghost predicate RunLeads(cfg: Config, speak: string -> seq<int>, disk: Disk, r: Result<Disk, Fault>, warned: bool) {
    exists processed, voiced :: RunThrough(cfg, speak, disk, processed, voiced, r, warned)
  }

  /**
   * The pipeline, with the settings of `config.py` and the voice of its
   * `VoiceReader` as `speak`, from text to samples.
   */
  class PdfToAudiobookPipeline {
    const cfg: Config
    const speak: string -> seq<int>

    constructor (cfg: Config, speak: string -> seq<int>)
      ensures this.cfg == cfg && this.speak == speak
    {
      this.cfg := cfg;
      this.speak := speak;
    }

    /** `run`: setup, split and extract, speak, join, in this order. */
    method Run(disk: Disk) returns (r: Result<Disk, Fault>, warned: bool)
      ensures RunLeads(cfg, speak, disk, r, warned)
    {
      var ready := Setup(disk);
      var processed := ProcessPdf(ready);
      if processed.Failure? {
        r, warned := Failure(processed.error), false;
        assert RunThrough(cfg, speak, disk, processed, processed, r, warned);
        return;
      }
      var voiced := GenerateAudioFromTextFiles(processed.value);
      if voiced.Failure? {
        r, warned := Failure(voiced.error), false;
        assert RunThrough(cfg, speak, disk, processed, voiced, r, warned);
        return;
      }
      r, warned := ConcatenateAudioFiles(voiced.value);
      assert RunThrough(cfg, speak, disk, processed, voiced, r, warned);
    }

    /** `_setup` */
    method Setup(disk: Disk) returns (r: Disk)
      ensures r == CreatedDirectories(disk, DirectoriesToCreate(cfg))
    {
      r := CreateDirectories(disk, DirectoriesToCreate(cfg));
    }

    /** `_process_pdf` */
    method ProcessPdf(disk: Disk) returns (r: Result<Disk, Fault>)
      ensures PdfProcessed(cfg, disk, r)
    {
      var divider := new Divider(cfg.dataDir, cfg.pdfFilename, cfg.baseOutputName);
      var split := divider.SplitPdf(disk);
      if split.Failure? {
        return Failure(split.error);
      }
      r := divider.PdfsToText(split.value, OutputDir, TextDir);
    }

    /** `_generate_audio_from_text_files` */
    method GenerateAudioFromTextFiles(disk: Disk) returns (r: Result<Disk, Fault>)
      ensures AudioGenerated(cfg, speak, disk, r)
    {
      var listing := ListDir(disk, cfg.textDir);
      if listing.Failure? {
        return Failure(listing.error);
      }
      var textFiles := TextOrder(listing.value);
      ghost var step := SynthesisStep(cfg.textDir, cfg.audioDir, cfg.baseOutputName, speak);
      var written := disk;
      for i := 0 to |textFiles|
        invariant Steps(disk, textFiles[..i], step) == Success(written)
      {
        StepsNext(disk, textFiles, step, i, written);
        var txtFile := textFiles[i];
        var txtPath := Paths.Join(cfg.textDir, txtFile);
        var text := ReadText(written, txtPath);
        if text.Failure? {
          StepsFailurePersists(disk, textFiles, step, i + 1);
          return Failure(text.error);
        }
        var pageNumberStr := PageString(txtFile);
        var audioFilename := AudioFileName(cfg.baseOutputName, pageNumberStr);
        var audioPath := Paths.Join(cfg.audioDir, audioFilename);
        var stored := Store(written, audioPath, Wav(speak(text.value)));
        if stored.Failure? {
          StepsFailurePersists(disk, textFiles, step, i + 1);
          return stored;
        }
        written := stored.value;
      }
      assert textFiles[..|textFiles|] == textFiles;
      return Success(written);
    }

    /**
     * The sort at pipeline.py:56-60. `sort(key=...)` computes every key
     * before it moves anything, so the first name whose key `int` rejects
     * leaves the list as it was. Then the warning is printed and `sort()`
     * runs instead.
     */
    static method SortWavFiles(wavFiles: seq<string>) returns (ordered: seq<string>, warned: bool)
      ensures (ordered, warned) == OrderWavFiles(wavFiles)
    {
      var i := 0;
      while i < |wavFiles|
        invariant i <= |wavFiles|
        invariant forall j :: 0 <= j < i ==> WavIndex(wavFiles[j]).Some?
      {
        var key := WavIndex(wavFiles[i]);
        if key.None? {
          FallbackOrder(wavFiles, i);
          return LexicalOrder(wavFiles), true;
        }
        KeyFound(wavFiles, i, key);
        i := i + 1;
      }
      IndexedOrder(wavFiles);
      return NumericOrder(wavFiles), false;
    }

    /** `_concatenate_audio_files` */
    method ConcatenateAudioFiles(disk: Disk) returns (r: Result<Disk, Fault>, warned: bool)
      ensures AudioJoined(cfg, disk, r, warned)
    {
      var listing := ListDir(disk, cfg.audioDir);
      if listing.Failure? {
        return Failure(listing.error), false;
      }
      var wavFiles := WithExtension(listing.value, ".wav");
      var ordered;
      ordered, warned := SortWavFiles(wavFiles);
      var concatenator := new AudioConcatenator(cfg.audioDir, cfg.resultAudioDir);
      var outputFilename := ResultFileName(cfg.baseOutputName);
      r := concatenator.Concatenate(disk, ordered, outputFilename);
    }
  }
}
