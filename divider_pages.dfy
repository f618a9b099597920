/**
 * `Divider`: splits the source PDF into one PDF per page under `./output`,
 * then extracts each page PDF's text into a `.txt` file.
 */
module DividerPages {
  import opened Wrappers
  import opened PyStr
  import opened Numerals
  import opened FileSystem
  import opened PageNames
  import Paths

  /** Where `split_pdf` writes the page PDFs, and where `pdfs_to_text` looks for them by default. */
  const OutputDir: string := "./output"

  /** Where `pdfs_to_text` writes the text files by default. */
  const TextDir: string := "./text"

  /** `glob('*.pdf')` matches the name: it ends in `.pdf` and is not hidden. */
  predicate GlobsPdf(name: string) {
    EndsWith(name, ".pdf") && !StartsWith(name, ".")
  }

  /** The entries of a directory that `*.pdf` matches. */
  function PdfEntries(dir: Directory): (m: Directory)
    ensures forall n :: n in m <==> n in dir && GlobsPdf(n)
    ensures forall n :: n in m ==> m[n] == dir[n]
  {
    map n | n in dir && GlobsPdf(n) :: dir[n]
  }

  /** `[os.path.join(directory, n) for n in names]` */
  function JoinAll(directory: string, names: seq<string>): (r: seq<string>)
    ensures |r| == |names|
    ensures forall i :: 0 <= i < |names| ==> r[i] == Paths.Join(directory, names[i])
  {
    seq(|names|, i requires 0 <= i < |names| => Paths.Join(directory, names[i]))
  }

  /** The names of the page PDFs of an `n`-page document, page 1 first. */
  function PdfPageNames(base: string, n: nat): (r: seq<string>)
    ensures |r| == n
    ensures forall i :: 0 <= i < n ==> r[i] == PdfPageName(base, i + 1)
  {
    seq(n, i requires 0 <= i < n => PdfPageName(base, i + 1))
  }

  /** One single-page PDF per page. */
  function SinglePages(pages: seq<string>): (r: seq<File>)
    ensures |r| == |pages|
    ensures forall i :: 0 <= i < |pages| ==> r[i] == Pdf([pages[i]])
  {
    seq(|pages|, i requires 0 <= i < |pages| => Pdf([pages[i]]))
  }

  /** The names of the text files of an `n`-page document, page 1 first. */
  function TextPageNames(base: string, n: nat): (r: seq<string>)
    ensures |r| == n
    ensures forall i :: 0 <= i < n ==> r[i] == TextPageName(base, i + 1)
  {
    seq(n, i requires 0 <= i < n => TextPageName(base, i + 1))
  }

  /** The text file of each page: the text of its single-page PDF. */
  function PageTexts(pages: seq<string>): (r: seq<File>)
    ensures |r| == |pages|
    ensures forall i :: 0 <= i < |pages| ==> r[i] == Text(PageText([pages[i]]))
  {
    seq(|pages|, i requires 0 <= i < |pages| => Text(PageText([pages[i]])))
  }

  lemma PageNameListsDistinct(base: string, n: nat)
    ensures Distinct(PdfPageNames(base, n)) && Distinct(TextPageNames(base, n))
  {
    forall i, j | 0 <= i < j < n
      ensures PdfPageNames(base, n)[i] != PdfPageNames(base, n)[j]
      ensures TextPageNames(base, n)[i] != TextPageNames(base, n)[j]
    {
      PageNamesInjective(base, i + 1, j + 1);
    }
  }

  lemma PdfPageNamePlain(base: string, k: nat)
    requires '/' !in base
    ensures PlainName(PdfPageName(base, k))
  {
    DecimalPlain(k);
    var tail := "_pagina_" + Decimal(k) + ".pdf";
    assert '/' !in tail;
    assert PdfPageName(base, k) == base + tail;
  }

  lemma PdfPageNamesPlain(base: string, n: nat)
    requires '/' !in base
    ensures forall i :: 0 <= i < n ==> PlainName(PdfPageNames(base, n)[i])
  {
    forall i | 0 <= i < n ensures PlainName(PdfPageNames(base, n)[i]) {
      PdfPageNamePlain(base, i + 1);
    }
  }

  /** The page PDFs are listed by `glob('*.pdf')` when the base name is not hidden. */
  lemma PdfPageNameGlobbed(base: string, k: nat)
    requires '/' !in base && !StartsWith(base, ".")
    ensures GlobsPdf(PdfPageName(base, k)) && PlainName(PdfPageName(base, k))
  {
    var name := PdfPageName(base, k);
    PdfPageNamePlain(base, k);
    assert name == (base + "_pagina_" + Decimal(k)) + ".pdf";
    if base == [] {
      assert name[0] == '_';
    } else {
      assert name[0] == base[0];
    }
  }

  /**
   * The text `pdfs_to_text` accumulates from a PDF's pages: the text of
   * each page that yields any, followed by a newline.
   */
  function Accumulated(pages: seq<string>): (acc: string)
    ensures (forall i :: 0 <= i < |pages| ==> pages[i] == "") ==> acc == ""
    decreases |pages|
  {
    if pages == [] then ""
    else
      var n := |pages| - 1;
      Accumulated(pages[..n]) + (if pages[n] != "" then pages[n] + "\n" else "")
  }

  /**
   * What `pdfs_to_text` writes for a PDF: the accumulated text, stripped.
   * It never starts or ends with whitespace, and it is empty when no page
   * yields text.
   */
  function PageText(pages: seq<string>): (text: string)
    ensures Trimmed(text)
    ensures (forall i :: 0 <= i < |pages| ==> pages[i] == "") ==> text == ""
  {
    Strip(Accumulated(pages))
  }

  /** A single-page PDF's text file holds that page's text, stripped. */
  lemma SinglePageText(page: string)
    ensures PageText([page]) == Strip(page)
  {
    assert [page][..0] == [];
    if page != "" {
      assert Accumulated([page]) == page + ['\n'];
      StripAppendSpace(page, '\n');
    }
  }

  /** Reading one page PDF and writing its text file into `textDir`. */
  function ExtractOne(textDir: string, disk: Disk, pdfFile: string): (r: Result<Disk, Fault>)
    ensures Lookup(disk, pdfFile).None? ==> r == Failure(NotFound(pdfFile))
  {
    match Lookup(disk, pdfFile)
    case None => Failure(NotFound(pdfFile))
    case Some(Pdf(pages)) => Store(disk, Paths.Join(textDir, TextFileName(pdfFile)), Text(PageText(pages)))
    case Some(_) => Failure(Unreadable(pdfFile))
  }

  function ExtractStep(textDir: string): (step: (Disk, string) -> Result<Disk, Fault>)
    ensures forall d, f :: step(d, f) == ExtractOne(textDir, d, f)
  {
    (d: Disk, f: string) => ExtractOne(textDir, d, f)
  }

  /** A text file name has no `/` and is never empty. */
  lemma TextFileNamePlain(pdfFile: string)
    ensures PlainName(TextFileName(pdfFile))
  {
    var b := Paths.Basename(pdfFile);
    var parts := Paths.SplitExt(b);
    assert '/' !in b;
    assert parts.0 + parts.1 == b;
    assert '/' !in parts.0 by {
      forall i | 0 <= i < |parts.0| ensures parts.0[i] != '/' {
        assert (parts.0 + parts.1)[i] == parts.0[i];
      }
    }
    assert TextFileName(pdfFile) == parts.0 + ".txt";
  }

  /** The text files `pdfs_to_text` derives from the PDFs `names` of `outputDir`. */
  function TextNames(outputDir: string, names: seq<string>): (r: seq<string>)
    ensures |r| == |names|
    ensures forall i :: 0 <= i < |names| ==> r[i] == TextFileName(Paths.Join(outputDir, names[i]))
  {
    seq(|names|, i requires 0 <= i < |names| => TextFileName(Paths.Join(outputDir, names[i])))
  }

  /** Each of `names` is a PDF of `dir`. */
  predicate HoldsPdfs(dir: Directory, names: seq<string>) {
    forall i :: 0 <= i < |names| ==> names[i] in dir && dir[names[i]].Pdf?
  }

  /** None of `names` holds a `/`. */
  predicate AllPlain(names: seq<string>) {
    forall i :: 0 <= i < |names| ==> PlainName(names[i])
  }

  /** The text each of the PDFs `names` of `dir` yields. */
  function TextFiles(dir: Directory, names: seq<string>): (r: seq<File>)
    requires HoldsPdfs(dir, names)
    ensures |r| == |names|
    ensures forall i :: 0 <= i < |names| ==> r[i] == Text(PageText(dir[names[i]].pages))
  {
    seq(|names|, i requires 0 <= i < |names| => Text(PageText(dir[names[i]].pages)))
  }

  /** The PDFs `names` of `outputDir` can be converted into the existing, distinct directory `textDir`. */
  predicate Extractable(disk: Disk, outputDir: string, textDir: string, names: seq<string>) {
    && PlainDir(outputDir) && PlainDir(textDir) && DirKey(outputDir) != DirKey(textDir) && HasDir(disk, textDir)
    && AllPlain(names) && HoldsPdfs(Dir(disk, outputDir), names)
  }

  /**
   * Converting PDFs read from one directory into text files in another adds
   * one text file per PDF to the second and changes nothing else.
   */
  lemma ExtractAllInto(disk: Disk, outputDir: string, textDir: string, names: seq<string>)
    requires Extractable(disk, outputDir, textDir, names)
    ensures Steps(disk, JoinAll(outputDir, names), ExtractStep(textDir))
         == Success(Disk(disk.dirs[DirKey(textDir) := Dir(disk, textDir) + Entries(TextNames(outputDir, names), TextFiles(Dir(disk, outputDir), names))]))
  {
    var pdfFiles, txts, contents := JoinAll(outputDir, names), TextNames(outputDir, names), TextFiles(Dir(disk, outputDir), names);
    var key := DirKey(textDir);
    forall i, d | 0 <= i < |pdfFiles| && Beside(d, disk, key)
      ensures ExtractStep(textDir)(d, pdfFiles[i]) == Success(Disk(d.dirs[key := Dir(d, textDir)[txts[i] := contents[i]]]))
    {
      assert Dir(d, outputDir) == Dir(disk, outputDir);
      ExtractOneInto(d, outputDir, textDir, names[i]);
    }
    StepsInto(disk, pdfFiles, ExtractStep(textDir), textDir, txts, contents);
  }

  /** One PDF of `outputDir` converted: its text file is set in `textDir`. */
  lemma ExtractOneInto(disk: Disk, outputDir: string, textDir: string, name: string)
    requires PlainDir(outputDir) && PlainDir(textDir) && HasDir(disk, textDir)
    requires PlainName(name) && name in Dir(disk, outputDir) && Dir(disk, outputDir)[name].Pdf?
    ensures ExtractOne(textDir, disk, Paths.Join(outputDir, name))
         == Success(Disk(disk.dirs[DirKey(textDir) := Dir(disk, textDir)[TextFileName(Paths.Join(outputDir, name)) := Text(PageText(Dir(disk, outputDir)[name].pages))]]))
  {
    LookupJoin(disk, outputDir, name);
    TextFileNamePlain(Paths.Join(outputDir, name));
    StoreJoin(disk, textDir, TextFileName(Paths.Join(outputDir, name)), Text(PageText(Dir(disk, outputDir)[name].pages)));
  }

  /** The page PDFs of a document: file `k` of `PdfPageNames` holds page `k`. */
  lemma PagePdfAt(base: string, pages: seq<string>, k: nat)
    requires 1 <= k <= |pages|
    ensures PdfPageName(base, k) in Entries(PdfPageNames(base, |pages|), SinglePages(pages))
    ensures Entries(PdfPageNames(base, |pages|), SinglePages(pages))[PdfPageName(base, k)] == Pdf([pages[k - 1]])
  {
    var names, files := PdfPageNames(base, |pages|), SinglePages(pages);
    assert names[k - 1] == PdfPageName(base, k) && files[k - 1] == Pdf([pages[k - 1]]);
    PageNameListsDistinct(base, |pages|);
    EntriesAt(names, files, k - 1);
  }

  /** The page a page PDF's name stands for. */
  lemma PageOfPdf(base: string, pages: seq<string>, name: string) returns (k: nat)
    requires name in Entries(PdfPageNames(base, |pages|), SinglePages(pages))
    ensures 1 <= k <= |pages| && name == PdfPageName(base, k)
    ensures Entries(PdfPageNames(base, |pages|), SinglePages(pages))[name] == Pdf([pages[k - 1]])
  {
    var j :| 0 <= j < |pages| && PdfPageNames(base, |pages|)[j] == name;
    k := j + 1;
    PagePdfAt(base, pages, k);
  }

  /** Listing the page PDFs of a directory holding just those lists each page's PDF once. */
  lemma PagePdfsListed(base: string, pages: seq<string>, names: seq<string>)
    requires '/' !in base && !StartsWith(base, ".")
    requires Enumerates(names, PdfEntries(Entries(PdfPageNames(base, |pages|), SinglePages(pages))))
    ensures Distinct(names)
    ensures forall i :: 0 <= i < |names| ==> PlainName(names[i]) && names[i] in PdfPageNames(base, |pages|)
    ensures forall k :: 1 <= k <= |pages| ==> PdfPageName(base, k) in names
  {
    forall i | 0 <= i < |names| ensures PlainName(names[i]) && names[i] in PdfPageNames(base, |pages|) {
      var k := PageOfPdf(base, pages, names[i]);
      PdfPageNamePlain(base, k);
    }
    forall k | 1 <= k <= |pages| ensures PdfPageName(base, k) in names {
      PagePdfAt(base, pages, k);
      PdfPageNameGlobbed(base, k);
    }
  }

  /**
   * A listing of the page PDFs of an `N`-page document, each once: `ks[i]`
   * is the page, less one, of the `i`-th name, and `inv[j]` where page
   * `j + 1` is listed.
   */
  lemma ListedPages(base: string, n: nat, names: seq<string>) returns (ks: seq<nat>, inv: seq<nat>)
    requires Distinct(names)
    requires forall i :: 0 <= i < |names| ==> names[i] in PdfPageNames(base, n)
    requires forall k :: 1 <= k <= n ==> PdfPageName(base, k) in names
    ensures |ks| == |names| && |inv| == n && Distinct(ks)
    ensures forall i :: 0 <= i < |ks| ==> ks[i] < n && names[i] == PdfPageName(base, ks[i] + 1)
    ensures forall j :: 0 <= j < n ==> inv[j] < |ks| && ks[inv[j]] == j
  {
    PageNameListsDistinct(base, n);
    forall j | 0 <= j < n ensures PdfPageNames(base, n)[j] in names {
      assert PdfPageNames(base, n)[j] == PdfPageName(base, j + 1);
    }
    ks, inv := Positions(names, PdfPageNames(base, n));
  }

  /**
   * The text files derived from a listing of the page PDFs, in the
   * listing's order, are those of pages 1..N, each holding its page's text.
   */
  lemma TextsOfListing(outputDir: string, base: string, pages: seq<string>, names: seq<string>)
    requires '/' !in base && Distinct(names)
    requires forall i :: 0 <= i < |names| ==> names[i] in PdfPageNames(base, |pages|)
    requires forall k :: 1 <= k <= |pages| ==> PdfPageName(base, k) in names
    requires HoldsPdfs(Entries(PdfPageNames(base, |pages|), SinglePages(pages)), names)
    ensures Entries(TextNames(outputDir, names), TextFiles(Entries(PdfPageNames(base, |pages|), SinglePages(pages)), names))
         == Entries(TextPageNames(base, |pages|), PageTexts(pages))
  {
    var N := |pages|;
    var src := Entries(PdfPageNames(base, N), SinglePages(pages));
    var ks, inv := ListedPages(base, N, names);
    ListedTextsAt(outputDir, base, pages, names, ks);
    PageNameListsDistinct(base, N);
    EntriesReordered(TextNames(outputDir, names), TextFiles(src, names), TextPageNames(base, N), PageTexts(pages), ks, inv);
  }

  /** The text files derived from the listed PDFs are those of the pages `ks` says they are. */
  lemma ListedTextsAt(outputDir: string, base: string, pages: seq<string>, names: seq<string>, ks: seq<nat>)
    requires '/' !in base && |ks| == |names|
    requires forall i :: 0 <= i < |ks| ==> ks[i] < |pages| && names[i] == PdfPageName(base, ks[i] + 1)
    requires HoldsPdfs(Entries(PdfPageNames(base, |pages|), SinglePages(pages)), names)
    ensures forall i :: 0 <= i < |ks| ==>
      && TextNames(outputDir, names)[i] == TextPageNames(base, |pages|)[ks[i]]
      && TextFiles(Entries(PdfPageNames(base, |pages|), SinglePages(pages)), names)[i] == PageTexts(pages)[ks[i]]
  {
    forall i | 0 <= i < |ks|
      ensures TextNames(outputDir, names)[i] == TextPageNames(base, |pages|)[ks[i]]
      ensures TextFiles(Entries(PdfPageNames(base, |pages|), SinglePages(pages)), names)[i] == PageTexts(pages)[ks[i]]
    {
      ListedTextAt(outputDir, base, pages, names, i, ks[i] + 1);
    }
  }

  /** The text file derived from the `i`-th listed PDF, page `k`'s, is page `k`'s text file. */
  lemma ListedTextAt(outputDir: string, base: string, pages: seq<string>, names: seq<string>, i: nat, k: nat)
    requires '/' !in base && i < |names| && 1 <= k <= |pages| && names[i] == PdfPageName(base, k)
    requires HoldsPdfs(Entries(PdfPageNames(base, |pages|), SinglePages(pages)), names)
    ensures TextNames(outputDir, names)[i] == TextPageNames(base, |pages|)[k - 1]
    ensures TextFiles(Entries(PdfPageNames(base, |pages|), SinglePages(pages)), names)[i] == PageTexts(pages)[k - 1]
  {
    TextNameOfPdfPage(outputDir, base, k);
    PagePdfAt(base, pages, k);
  }

  /**
   * Converting the page PDFs of a document, listed in any order, into an
   * empty text directory leaves exactly one text file per page there,
   * `<base>_pagina_<k>.txt` holding page `k`'s text.
   */
  lemma ExtractPages(disk: Disk, outputDir: string, textDir: string, base: string, pages: seq<string>, names: seq<string>)
    requires PlainDir(outputDir) && PlainDir(textDir) && DirKey(outputDir) != DirKey(textDir)
    requires HasDir(disk, textDir) && Dir(disk, textDir) == map[]
    requires '/' !in base && !StartsWith(base, ".")
    requires Dir(disk, outputDir) == Entries(PdfPageNames(base, |pages|), SinglePages(pages))
    requires Enumerates(names, PdfEntries(Dir(disk, outputDir)))
    ensures Steps(disk, JoinAll(outputDir, names), ExtractStep(textDir))
         == Success(Disk(disk.dirs[DirKey(textDir) := Entries(TextPageNames(base, |pages|), PageTexts(pages))]))
  {
    var m := Entries(TextPageNames(base, |pages|), PageTexts(pages));
    assert ListedPdfs(disk, outputDir, names, m) by {
      PagePdfsFound(base, pages, names);
      ListedTexts(outputDir, base, pages, names);
    }
    ExtractListed(disk, outputDir, textDir, names, m);
  }

  /** The PDFs `names` of `outputDir` are plain names and their text files are the entries `m`. */
  predicate ListedPdfs(disk: Disk, outputDir: string, names: seq<string>, m: Directory) {
    AllPlain(names) && HoldsPdfs(Dir(disk, outputDir), names)
      && Entries(TextNames(outputDir, names), TextFiles(Dir(disk, outputDir), names)) == m
  }

  /** Converting such PDFs into an empty text directory leaves `m` there. */
  lemma ExtractListed(disk: Disk, outputDir: string, textDir: string, names: seq<string>, m: Directory)
    requires PlainDir(outputDir) && PlainDir(textDir) && DirKey(outputDir) != DirKey(textDir)
    requires HasDir(disk, textDir) && Dir(disk, textDir) == map[]
    requires ListedPdfs(disk, outputDir, names, m)
    ensures Steps(disk, JoinAll(outputDir, names), ExtractStep(textDir)) == Success(Disk(disk.dirs[DirKey(textDir) := m]))
  {
    ExtractAllInto(disk, outputDir, textDir, names);
    EmptyUnion(Dir(disk, textDir), Entries(TextNames(outputDir, names), TextFiles(Dir(disk, outputDir), names)), m);
  }

  lemma EmptyUnion(a: Directory, b: Directory, m: Directory)
    requires a == map[] && b == m
    ensures a + b == m
  {
    assert a + b == b;
  }

  /** Every name listed is a page PDF. */
  lemma PagePdfsFound(base: string, pages: seq<string>, names: seq<string>)
    requires '/' !in base && !StartsWith(base, ".")
    requires Enumerates(names, PdfEntries(Entries(PdfPageNames(base, |pages|), SinglePages(pages))))
    ensures AllPlain(names) && HoldsPdfs(Entries(PdfPageNames(base, |pages|), SinglePages(pages)), names)
  {
    var src := Entries(PdfPageNames(base, |pages|), SinglePages(pages));
    forall i | 0 <= i < |names| ensures PlainName(names[i]) && names[i] in src && src[names[i]].Pdf? {
      var k := PageOfPdf(base, pages, names[i]);
      PdfPageNamePlain(base, k);
    }
  }

  /** `TextsOfListing` for a listing of the directory. */
  lemma ListedTexts(outputDir: string, base: string, pages: seq<string>, names: seq<string>)
    requires '/' !in base && !StartsWith(base, ".")
    requires Enumerates(names, PdfEntries(Entries(PdfPageNames(base, |pages|), SinglePages(pages))))
    requires HoldsPdfs(Entries(PdfPageNames(base, |pages|), SinglePages(pages)), names)
    ensures Entries(TextNames(outputDir, names), TextFiles(Entries(PdfPageNames(base, |pages|), SinglePages(pages)), names))
         == Entries(TextPageNames(base, |pages|), PageTexts(pages))
  {
    PagePdfsListed(base, pages, names);
    TextsOfListing(outputDir, base, pages, names);
  }

  /** The writes of `split_pdf`: `<base>_pagina_<k>.pdf` in `./output` holding page `k`, for `k` from 1. */
  function PageWrites(baseOutName: string, pages: seq<string>): (w: seq<(string, File)>)
    ensures |w| == |pages|
  {
    WritesInto(OutputDir, PdfPageNames(baseOutName, |pages|), SinglePages(pages))
  }

  /**
   * What `split_pdf` leaves: `./output` created, then a missing source
   * reported and nothing written, or one PDF written per page in order.
   */
  function SplitOutcome(path: string, nameFile: string, baseOutName: string, disk: Disk): (r: Result<Disk, Fault>)
  {
    var prepared := MakeDirs(disk, OutputDir);
    var filePath := Paths.Join(path, nameFile);
    match Lookup(prepared, filePath)
    case None => Success(prepared)
    case Some(Pdf(pages)) => Steps(prepared, PageWrites(baseOutName, pages), StoreWrite)
    case Some(_) => Failure(Unreadable(filePath))
  }

  /** A missing source is reported and no page file is written. */
  lemma SplitMissingSource(path: string, nameFile: string, baseOutName: string, disk: Disk)
    requires Lookup(disk, Paths.Join(path, nameFile)).None?
    ensures SplitOutcome(path, nameFile, baseOutName, disk) == Success(MakeDirs(disk, OutputDir))
    ensures Dir(SplitOutcome(path, nameFile, baseOutName, disk).value, OutputDir) == Dir(disk, OutputDir)
  {
    MakeDirsKeepsFiles(disk, OutputDir, OutputDir, Paths.Join(path, nameFile));
  }

  /**
   * An `N`-page source yields `N` page PDFs in `./output`, named
   * `<base>_pagina_<k>.pdf` for `k` = 1..N and holding page `k`, and changes
   * no other directory.
   */
  lemma SplitWritesPages(path: string, nameFile: string, baseOutName: string, disk: Disk, pages: seq<string>)
    requires Lookup(disk, Paths.Join(path, nameFile)) == Some(Pdf(pages))
    requires '/' !in baseOutName
    ensures SplitOutcome(path, nameFile, baseOutName, disk).Success?
    ensures Dir(SplitOutcome(path, nameFile, baseOutName, disk).value, OutputDir) == Dir(disk, OutputDir) + Entries(PdfPageNames(baseOutName, |pages|), SinglePages(pages))
    ensures SameElsewhere(SplitOutcome(path, nameFile, baseOutName, disk).value, disk, DirKey(OutputDir))
  {
    var prepared := MakeDirs(disk, OutputDir);
    var names, files := PdfPageNames(baseOutName, |pages|), SinglePages(pages);
    var key := DirKey(OutputDir);
    var after := Disk(prepared.dirs[key := Dir(prepared, OutputDir) + Entries(names, files)]);
    assert SplitOutcome(path, nameFile, baseOutName, disk) == Success(after) by {
      MakeDirsKeepsFiles(disk, OutputDir, OutputDir, Paths.Join(path, nameFile));
      assert SplitOutcome(path, nameFile, baseOutName, disk) == Steps(prepared, WritesInto(OutputDir, names, files), StoreWrite);
      PdfPageNamesPlain(baseOutName, |pages|);
      StoreAllInto(prepared, OutputDir, names, files);
    }
    assert Dir(prepared, OutputDir) == Dir(disk, OutputDir) by {
      MakeDirsKeepsFiles(disk, OutputDir, OutputDir, "");
    }
    DirAfterUpdate(prepared, key, Dir(prepared, OutputDir) + Entries(names, files), OutputDir);
  }

  /**
   * What `pdfs_to_text` leaves: `textDir` created, then one text file
   * written for each PDF of `outputDir`, in the order `glob` lists them,
   * stopping at the first that raises.
   */
  ghost predicate ConvertsPdfs(disk: Disk, outputDir: string, textDir: string, r: Result<Disk, Fault>) {
    exists names :: Enumerates(names, PdfEntries(Dir(disk, outputDir)))
      && r == Steps(MakeDirs(disk, textDir), JoinAll(outputDir, names), ExtractStep(textDir))
  }

  class Divider {
    const path: string
    const nameFile: string
    const baseOutName: string

    constructor (path: string, nameFile: string, baseOutputName: string)
      ensures this.path == path && this.nameFile == nameFile && this.baseOutName == baseOutputName
    {
      this.path := path;
      this.nameFile := nameFile;
      this.baseOutName := baseOutputName;
    }

    /** `from_full_path`: the directory part of the path and its last component become `path` and `name_file`. */
    static method FromFullPath(fullPath: string, baseOutputName: string) returns (d: Divider)
      ensures fresh(d)
      ensures (d.path, d.nameFile) == Paths.Split(fullPath) && d.baseOutName == baseOutputName
    {
      var (head, tail) := Paths.Split(fullPath);
      d := new Divider(head, tail, baseOutputName);
    }

    /**
     * `list_output_pdfs`: the paths of the PDFs of `directory`, each once, in
     * the order the file system lists them; none when it does not exist.
     */
    static method ListOutputPdfs(disk: Disk, directory: string) returns (pdfFiles: seq<string>)
      ensures exists names :: Enumerates(names, PdfEntries(Dir(disk, directory))) && pdfFiles == JoinAll(directory, names)
    {
      var entries := PdfEntries(Dir(disk, directory));
      if !HasDir(disk, directory) {
        assert Enumerates([], entries);
        return [];
      }
      var listing := ListDir(disk, directory);
      var all := listing.value;
      var names: seq<string> := [];
      for i := 0 to |all|
        invariant Distinct(names)
        invariant forall n :: n in names <==> n in all[..i] && GlobsPdf(n)
      {
        assert all[..i + 1] == all[..i] + [all[i]];
        if GlobsPdf(all[i]) {
          assert all[i] !in all[..i];
          names := names + [all[i]];
        }
      }
      assert all[..|all|] == all;
      pdfFiles := JoinAll(directory, names);
    }

    /** `split_pdf` */
    method SplitPdf(disk: Disk) returns (r: Result<Disk, Fault>)
      ensures r == SplitOutcome(path, nameFile, baseOutName, disk)
    {
      var outputDir := OutputDir;
      var prepared := MakeDirs(disk, outputDir);
      var filePath := Paths.Join(path, nameFile);
      var source := Lookup(prepared, filePath);
      if source.None? {
        return Success(prepared);
      }
      if !source.value.Pdf? {
        return Failure(Unreadable(filePath));
      }
      var pages := source.value.pages;
      var writes := PageWrites(baseOutName, pages);
      var written := prepared;
      for i := 0 to |pages|
        invariant Steps(prepared, writes[..i], StoreWrite) == Success(written)
      {
        var outputFilename := Paths.Join(outputDir, PdfPageName(baseOutName, i + 1));
        assert writes[i] == (outputFilename, Pdf([pages[i]]));
        StepsNext(prepared, writes, StoreWrite, i, written);
        var stored := Store(written, outputFilename, Pdf([pages[i]]));
        if stored.Failure? {
          StepsFailurePersists(prepared, writes, StoreWrite, i + 1);
          return stored;
        }
        written := stored.value;
      }
      assert writes[..|pages|] == writes;
      return Success(written);
    }

    /** The text of one PDF: the page loop of `pdfs_to_text`. */
    static method ExtractText(pages: seq<string>) returns (text: string)
      ensures text == PageText(pages)
    {
      var textContent := "";
      for i := 0 to |pages|
        invariant textContent == Accumulated(pages[..i])
      {
        assert pages[..i + 1][..i] == pages[..i];
        var extracted := pages[i];
        if extracted != "" {
          textContent := textContent + extracted + "\n";
        }
      }
      assert pages[..|pages|] == pages;
      text := Strip(textContent);
    }

    /**
     * `pdfs_to_text`: creates `textDir`, then for each PDF `glob` finds in
     * `outputDir` writes one text file, stopping at the first that raises.
     */
    method PdfsToText(disk: Disk, outputDir: string, textDir: string) returns (r: Result<Disk, Fault>)
      ensures ConvertsPdfs(disk, outputDir, textDir, r)
    {
      var prepared := MakeDirs(disk, textDir);
      MakeDirsKeepsFiles(disk, textDir, outputDir, "");
      var pdfFiles := ListOutputPdfs(prepared, outputDir);
      if pdfFiles == [] {
        return Success(prepared);
      }
      var written := prepared;
      for i := 0 to |pdfFiles|
        invariant Steps(prepared, pdfFiles[..i], ExtractStep(textDir)) == Success(written)
      {
        StepsNext(prepared, pdfFiles, ExtractStep(textDir), i, written);
        var pdfFile := pdfFiles[i];
        var reader := Lookup(written, pdfFile);
        if reader.None? || !reader.value.Pdf? {
          r := ExtractOne(textDir, written, pdfFile);
          StepsFailurePersists(prepared, pdfFiles, ExtractStep(textDir), i + 1);
          return r;
        }
        var textContent := ExtractText(reader.value.pages);
        var baseName := Paths.SplitExt(Paths.Basename(pdfFile)).0;
        var txtFilename := Paths.Join(textDir, baseName + ".txt");
        var stored := Store(written, txtFilename, Text(textContent));
        if stored.Failure? {
          StepsFailurePersists(prepared, pdfFiles, ExtractStep(textDir), i + 1);
          return stored;
        }
        written := stored.value;
      }
      assert pdfFiles[..|pdfFiles|] == pdfFiles;
      return Success(written);
    }
  }
}
