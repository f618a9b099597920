/**
 * The page-file naming convention: page k of a document travels through the
 * stages as `<base>_pagina_<k>.pdf`, `<base>_pagina_<k>.txt` and
 * `<BASE>_pagina_<k>.wav`, and its index is recovered from the last
 * `_`-separated segment of the name.
 */
module PageNames {
  import opened Wrappers
  import opened PyStr
  import opened Numerals
  import Paths

  /** `f'{base}_pagina_{k}.pdf'`, the single-page PDF of page `k`. */
  function PdfPageName(base: string, k: nat): string {
    base + "_pagina_" + Decimal(k) + ".pdf"
  }

  /** `f"{base_name}.txt"` where `base_name` is the PDF's file name less its extension. */
  function TextFileName(pdfFile: string): string {
    Paths.SplitExt(Paths.Basename(pdfFile)).0 + ".txt"
  }

  /** The text file that page `k` ends up in. */
  function TextPageName(base: string, k: nat): string {
    base + "_pagina_" + Decimal(k) + ".txt"
  }

  /**
   * `name.split('_')[-1].replace(ext, '')`: what follows the last `_` of a
   * page file's name, with its extension removed. It holds no `_`.
   */
  function PageKey(name: string, ext: string): (p: string)
    requires |ext| > 0
    ensures '_' !in p
  {
    RemoveAll(LastSegment(name, '_'), ext)
  }

  /** `txt_file.split('_')[-1].replace('.txt', '')`: the page string of a text file. */
  function PageString(txtFile: string): string {
    PageKey(txtFile, ".txt")
  }

  /** `f"{BASE}_pagina_{page}.wav"`, the audio file of a page. */
  function AudioFileName(base: string, page: string): string {
    base + "_pagina_" + page + ".wav"
  }

  /** `f.split('_')[-1].replace('.wav', '')`, the text handed to `int` when audio files are sorted. */
  function WavKey(wavFile: string): string {
    PageKey(wavFile, ".wav")
  }

  /** `int(WavKey(f))`, the sort key of an audio file; `None` where `int` raises. */
  function WavIndex(wavFile: string): Option<int> {
    ParseInt(WavKey(wavFile))
  }

  /** `f"{BASE}_completo.wav"`, the name of the final track. */
  function ResultFileName(base: string): string {
    base + "_completo.wav"
  }

  /** `x + "_pagina_" + y` splits at its last `_` into `x + "_pagina"` and `y` when `y` holds no `_`. */
  lemma PaginaSegment(x: string, y: string)
    requires '_' !in y
    ensures LastSegment(x + "_pagina_" + y, '_') == y
  {
    assert x + "_pagina_" + y == (x + "_pagina") + ['_'] + y;
    LastSegmentAfter(x + "_pagina", '_', y);
  }

  /**
   * The index key of the audio name built from page string `p` is `int(p)`:
   * formatting a page string into an audio name and reading the key back
   * loses nothing, whatever the base name.
   */
  lemma WavIndexOfAudioName(base: string, p: string)
    requires '_' !in p && !Contains(p, ".wav")
    ensures WavKey(AudioFileName(base, p)) == p
    ensures WavIndex(AudioFileName(base, p)) == ParseInt(p)
  {
    AudioNameSegment(base, p);
    WavRemoved(p);
  }

  lemma AudioNameSegment(base: string, p: string)
    requires '_' !in p
    ensures LastSegment(AudioFileName(base, p), '_') == p + ".wav"
  {
    assert AudioFileName(base, p) == base + "_pagina_" + (p + ".wav");
    PaginaSegment(base, p + ".wav");
  }

  lemma WavRemoved(p: string)
    requires !Contains(p, ".wav")
    ensures RemoveAll(p + ".wav", ".wav") == p
  {
    assert FirstCharUnique(".wav");
    RemoveAppended(p, ".wav");
  }

  /** A numeral holds no `.txt` and no `.wav`. */
  lemma DecimalHasNoExtension(k: nat)
    ensures !Contains(Decimal(k), ".txt") && !Contains(Decimal(k), ".wav")
  {
    DecimalPlain(k);
    ContainsNeedsFirstChar(Decimal(k), ".txt");
    ContainsNeedsFirstChar(Decimal(k), ".wav");
  }

  /** Extracting the text of page `k`'s PDF names the text file after the same page. */
  lemma TextNameOfPdfPage(dir: string, base: string, k: nat)
    requires '/' !in base
    ensures TextFileName(Paths.Join(dir, PdfPageName(base, k))) == TextPageName(base, k)
  {
    DecimalPlain(k);
    var stem := base + "_pagina_" + Decimal(k);
    assert PdfPageName(base, k) == stem + ".pdf";
    Paths.BasenameJoin(dir, PdfPageName(base, k));
    assert stem[|base|] == '_';
    Paths.SplitExtOf(stem, ".pdf");
  }

  /** The page string of page `k`'s text file is `str(k)`. */
  lemma PageStringOfTextPage(base: string, k: nat)
    ensures PageString(TextPageName(base, k)) == Decimal(k)
  {
    DecimalPlain(k);
    DecimalHasNoExtension(k);
    assert TextPageName(base, k) == base + "_pagina_" + (Decimal(k) + ".txt");
    PaginaSegment(base, Decimal(k) + ".txt");
    assert FirstCharUnique(".txt");
    RemoveAppended(Decimal(k), ".txt");
  }

  /** The audio file of page `k` sorts under key `k`. */
  lemma WavIndexOfPage(base: string, k: nat)
    ensures WavIndex(AudioFileName(base, Decimal(k))) == Some(k)
  {
    DecimalPlain(k);
    DecimalHasNoExtension(k);
    WavIndexOfAudioName(base, Decimal(k));
    ParseDecimal(k);
  }

  /**
   * The index is stable across all three stages: the audio file derived from
   * page `k`'s PDF (through its text file) sorts under key `k`.
   */
  lemma PageIndexStable(dir: string, base: string, audioBase: string, k: nat)
    requires '/' !in base
    ensures WavIndex(AudioFileName(audioBase, PageString(TextFileName(Paths.Join(dir, PdfPageName(base, k)))))) == Some(k)
  {
    TextNameOfPdfPage(dir, base, k);
    PageStringOfTextPage(base, k);
    WavIndexOfPage(audioBase, k);
  }

  /** Different pages get different file names at every stage. */
  lemma PageNamesInjective(base: string, j: nat, k: nat)
    requires j != k
    ensures PdfPageName(base, j) != PdfPageName(base, k)
    ensures TextPageName(base, j) != TextPageName(base, k)
    ensures AudioFileName(base, Decimal(j)) != AudioFileName(base, Decimal(k))
  {
    WavIndexOfPage(base, j);
    WavIndexOfPage(base, k);
    PageStringOfTextPage(base, j);
    PageStringOfTextPage(base, k);
    PdfNameInjective(base, j, k);
  }

  lemma PdfNameInjective(base: string, j: nat, k: nat)
    requires j != k
    ensures PdfPageName(base, j) != PdfPageName(base, k)
  {
    var p := base + "_pagina_";
    if PdfPageName(base, j) == PdfPageName(base, k) {
      var a, b := Decimal(j) + ".pdf", Decimal(k) + ".pdf";
      assert PdfPageName(base, j) == p + a && PdfPageName(base, k) == p + b;
      assert a == (p + a)[|p|..] == (p + b)[|p|..] == b;
      assert Decimal(j) == a[..|a| - 4] == b[..|b| - 4] == Decimal(k);
      DecimalInjective(j, k);
    }
  }
}
