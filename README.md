# lector_libros, modelled in Dafny

lector_libros turns a PDF book into an audiobook, in four stages. The
model covers each of them:

1. It creates the working directories.
2. It splits the source PDF into one PDF per page, named
   `<base>_pagina_<k>.pdf` under `./output`. It then extracts each page's
   text into `<base>_pagina_<k>.txt` under `./text`.
3. It speaks every text file into `<BASE>_pagina_<page>.wav` in the audio
   directory.
4. It joins the WAV files in page order into `<BASE>_completo.wav` in the
   result directory. The page order is recovered from the file names.

The project models these stages in two forms. `PdfToAudiobookPipeline`
(`pipeline.py`) runs them as a class. The script `main.py` gives the
text-to-speech loop and the final sort without a fallback. The model also
covers the classes the stages use: `Divider` (`divider_pages.py`) and
`AudioConcatenator` (`audio.py`). Last, it covers the language table and
the input checks of `Translator.translate` (`IA/Translator.py`).

Module layout:

- `wrappers.dfy`: `Option` and `Result`.
- `py_str.dfy`: the Python string operations the code uses.
- `numerals.dfy`: `str(n)` and `int(s)`.
- `paths.dfy`: POSIX `os.path`.
- `file_system.dfy`: the working tree, as directories of files. `os.listdir`
  and `glob` return the entries in an order the file system picks.
- `page_names.dfy`: the page-file naming convention and the index read
  back from a name.
- `sorting.dfy`: Python's stable sort.
- `page_order.dfy`: the numeric key order and the plain string order.
- `divider_pages.dfy`, `audio.dfy`, `translator.dfy`, `pipeline.dfy`: one
  module per source file.
- `pipeline_runs.dfy`: what whole runs produce.
- `main_script.dfy`: `main.py`.

The two external engines become parameters of the model:

- The voice of `VoiceReader` is a function `speak` from text to samples.
- A PDF is the sequence of texts that `page.extract_text()` yields for its
  pages.

Main results:

- A run from a fresh working tree holding an N-page PDF ends without a
  fault and prints no warning (`PipelineRuns.FreshRun`). The track it
  writes is the speech of pages 1..N in page order, each page spoken from
  its stripped text. With a voice that gives the same samples for the
  same text, this holds whatever order the file system lists the
  directories in.
- With the `config.py` settings, the track lands at
  `audio/result_audio/LaNocheBocaArriba_completo.wav`.
- A missing source PDF does not stop a run: `divider_pages.py:101-105`
  prints an error and returns, the later stages find nothing to do, and
  the run writes an empty track (`PipelineRuns.MissingSourceRun`).

## Model

| member | source | states |
|---|---|---|
| PyStr.RemoveAll | pipeline.py:44 | `str.replace(pat, "")` never lengthens the string and never adds a character. It leaves a string without `pat` as it is. |
| PyStr.RemoveAppended | pipeline.py:44 | For an extension-like pattern (its first character occurs once in it): removing it from `s + pat`, where `s` lacks it, gives `s` back. |
| PyStr.ContainsNeedsFirstChar | pipeline.py:44 | A string that lacks a pattern's first character does not contain the pattern. |
| PyStr.LastSegment | pipeline.py:44 | `split(sep)[-1]` holds no separator and is no longer than the string. |
| PyStr.LastSegmentSuffix | pipeline.py:44 | The last segment is a suffix of the string. When it is not the whole string, a separator comes right before it. |
| PyStr.LastSegmentAfter | pipeline.py:44 | The last segment of `a + sep + b` is `b` whenever `b` holds no separator. |
| PyStr.Lower | audio.py:15 | Lower-casing keeps the length. |
| PyStr.LStrip | divider_pages.py:156 | Left-stripping removes only a whitespace prefix, and the result starts with non-whitespace. |
| PyStr.RStrip | divider_pages.py:156 | Right-stripping removes only a whitespace suffix, and the result ends with non-whitespace. |
| PyStr.Strip | divider_pages.py:156 | `strip()` yields a slice of the input with only whitespace around it. The slice has no whitespace at either end. |
| PyStr.StripParts | divider_pages.py:156 | A left strip followed by a right strip cuts whitespace only, and leaves no whitespace at either end. |
| PyStr.StripTrimmed | divider_pages.py:156 | `strip()` leaves a string without whitespace at its ends unchanged. |
| PyStr.StripIdempotent | divider_pages.py:156 | Stripping twice is stripping once. |
| PyStr.StripAllSpace | divider_pages.py:156 | A whitespace-only string strips to the empty string. |
| PyStr.StripAppendSpace | divider_pages.py:150 | A trailing newline added by the text accumulation disappears under `strip()`. |
| PyStr.LStripAppend | divider_pages.py:156 | Left-stripping a string with some non-whitespace commutes with appending a character. |
| PyStr.LexLeTotal | pipeline.py:37 | Any two strings are comparable under `<=`. |
| PyStr.LexLeTransitive | pipeline.py:37 | String `<=` is transitive. |
| PyStr.LexLeAntisymmetric | pipeline.py:37 | Two strings that are each `<=` the other are equal. |
| PyStr.LexLeCommonPrefix | pipeline.py:60 | A shared prefix, such as `<BASE>_pagina_`, does not affect how two names compare. |
| Numerals.Decimal | divider_pages.py:114 | `str(k)` is a non-empty string of digits, without a leading zero for `k > 0`. |
| Numerals.ParseInt | pipeline.py:57 | `int()` on an empty or whitespace-only string raises `ValueError`. A stripped numeral parses to its value, and only a numeral, optionally signed, parses at all. |
| Numerals.DecimalValue | pipeline.py:57 | The digits of `str(n)` denote `n`. |
| Numerals.ParseDecimal | pipeline.py:57 | `int(str(n)) == n` for every page number `n`. |
| Numerals.DecimalInjective | divider_pages.py:114 | Different page numbers give different numerals. |
| Numerals.DecimalPlain | divider_pages.py:114 | A numeral holds no `_`, no `.` and no `/`. |
| Paths.TrimTrailing | divider_pages.py:85 | Trimming trailing slashes yields a prefix that does not end in a slash. |
| Paths.Split | divider_pages.py:85 | The tail returned by `os.path.split` is the basename. |
| Paths.SplitExt | divider_pages.py:152 | `splitext` splits its argument into a stem and an extension, which together are the argument. The extension is empty, or it is one dot followed by text without `.` or `/`. |
| Paths.ExtensionShape | divider_pages.py:152 | The text from the last dot of the last path component is a one-dot extension without `/`. |
| Paths.LastSegmentWhole | divider_pages.py:152 | A string without the separator is its own last segment. |
| Paths.NotAbsolute | pipeline.py:40 | A name without `/` is not an absolute path. |
| Paths.JoinPlain | pipeline.py:40 | For a name without `/`, `join(d, n)` is `d + n` when `d` is empty or ends in `/`, and `d + "/" + n` otherwise. |
| Paths.BasenameJoin | divider_pages.py:152 | The basename of `join(d, n)` is `n` when `n` has no `/`. |
| Paths.SplitJoin | divider_pages.py:85 | `split(join(d, n)) == (d, n)` for a directory without a trailing slash and a plain name. |
| Paths.SplitExtOf | divider_pages.py:152 | `splitext(stem + ".pdf")` gives back `(stem, ".pdf")`. |
| FileSystem.DirKey | divider_pages.py:96 | `./d` and `d` address the same directory. |
| FileSystem.Dir | pipeline.py:37 | A missing directory has no entries. |
| FileSystem.MakeDirs | utils.py:8 | `os.makedirs(d, exist_ok=True)` makes `d` exist and leaves its entries as they were. Parent directories are not created (see "Left out"). |
| FileSystem.Lookup | pipeline.py:41 | A file is found only as an entry of its directory. |
| FileSystem.Store | divider_pages.py:155-156 | After a successful write the path holds the file and no other directory changes. A failed write reports that path. |
| FileSystem.Steps | pipeline.py:39-49 | A loop over no items changes nothing. |
| FileSystem.StepsNext | pipeline.py:39-49 | The loop's next pass runs on what the previous passes left. |
| FileSystem.StepsFailurePersists | pipeline.py:39-49 | A pass that raises ends the loop with its fault. |
| FileSystem.StoreWrite | divider_pages.py:116-117 | A successful write of a (path, file) pair leaves that file at that path. |
| FileSystem.StepsInto | divider_pages.py:144-156 | A loop whose every pass writes one entry of one directory adds those entries to it, later writes winning, and changes nothing else. |
| FileSystem.LookupJoin | pipeline.py:40-41 | Reading `join(d, n)` finds entry `n` of `d`, or nothing. |
| FileSystem.StoreJoin | pipeline.py:46-49 | Writing `join(d, n)` into an existing `d` sets exactly entry `n`. |
| FileSystem.StoreMissingDir | pipeline.py:46-49 | Writing into a missing directory raises. |
| FileSystem.ListDir | pipeline.py:37 | `os.listdir` raises on a missing directory. Otherwise it lists every file of the directory exactly once, in an unspecified order. |
| FileSystem.DistinctCount | pipeline.py:37 | A listing without repetitions holds each entry once. |
| FileSystem.CountsDistinct | pipeline.py:37 | A list holding each element at most once has no repetitions. |
| FileSystem.EnumerationsPermute | pipeline.py:37 | Two listings of the same directory are permutations of each other. |
| FileSystem.Entries | divider_pages.py:108-118 | The directory built by a run of writes has exactly the written names. |
| FileSystem.EntriesAt | divider_pages.py:108-118 | When no name repeats, every write survives. |
| FileSystem.EntriesAgree | divider_pages.py:144-156 | Two runs of writes that put the same file under each name leave the same directory. |
| FileSystem.EntriesReordered | divider_pages.py:144-156 | Reordering a run of distinct writes leaves the same directory. |
| FileSystem.Positions | divider_pages.py:144 | Two repetition-free lists with the same elements are related by a bijection of positions. |
| FileSystem.StoreAllInto | divider_pages.py:108-118 | Writes into one existing directory add their entries to it and change nothing else. |
| FileSystem.MakeDirsKeepsFiles | utils.py:8 | Creating a directory never changes what any directory or path holds. |
| PageNames.PageKey | pipeline.py:44 | The page part of a page file's name (the text file's page string, the audio file's sort key) holds no `_`. |
| PageNames.PaginaSegment | pipeline.py:44-45 | The last `_` segment of `x_pagina_y` is `y` when `y` holds no `_`. |
| PageNames.WavIndexOfAudioName | pipeline.py:45-57 | Reading the key back from the audio name built from page string `p` gives `p`, and the sort key is `int(p)`, for any base name. |
| PageNames.TextNameOfPdfPage | divider_pages.py:152-153 | Page k's PDF yields the text file named for page k. |
| PageNames.PageStringOfTextPage | pipeline.py:44 | The page string of page k's text file is `str(k)`. |
| PageNames.WavIndexOfPage | pipeline.py:57 | Page k's audio file sorts under key k. |
| PageNames.PageIndexStable | pipeline.py:44-57 | Across all three stages (PDF, text, audio), page k's audio file sorts under key k. |
| PageNames.PageNamesInjective | divider_pages.py:112-115 | Different pages get different PDF, text and audio names. |
| PageNames.DecimalHasNoExtension | pipeline.py:44 | A page numeral contains neither `.txt` nor `.wav`. |
| PageOrder.WithExtensionCount | pipeline.py:54 | Filtering by extension keeps each matching name as often as it occurs, and nothing else. |
| PageOrder.WithExtensionSorted | main.py:43-44 | Filtering keeps the order of what it keeps. |
| PageOrder.WithExtensionAll | pipeline.py:54 | When every name matches, filtering keeps all of them. |
| PageOrder.IndexKey | pipeline.py:57 | The numeric sort's key of a name is `int` of its key string, when it has one. |
| PageOrder.IndexOrderIsPreorder | pipeline.py:57 | Comparing integer keys is a total preorder. |
| PageOrder.LexOrderIsTotal | pipeline.py:60 | Plain string order is a total order. |
| PageOrder.NumericOrder | pipeline.py:57 | `sort(key=int index)` yields a permutation sorted by index. Names with equal indices keep their listing order. |
| PageOrder.LexicalOrder | pipeline.py:60 | `sort()` yields a permutation in string order. |
| PageOrder.LexicalOrderOfPermutation | pipeline.py:37 | String order depends only on which names there are, not on the listing's order. |
| PageOrder.FilterAfterSort | main.py:43-44 | Sorting and then filtering (main.py) visits the same names in the same order as filtering and then sorting (pipeline.py:37). |
| PageOrder.FilterSameElements | main.py:43-44 | Filtering two lists with the same elements yields lists with the same elements. |
| PageOrder.PageAudioNames | pipeline.py:45 | A document has one audio name per page, page k's at position k-1. |
| PageOrder.PageAudioNamesIndexed | pipeline.py:57 | Those names carry the keys 1..N in order, every one parses, and the list is strictly increasing. |
| PageOrder.DocumentOrder | pipeline.py:57 | However the audio files of pages 1..N are listed, the numeric sort puts them in document order. |
| PageOrder.LexicalOrderMisplacesPageTen | pipeline.py:58-60 | Under the fallback, page 10 sorts before page 2, so it loses document order from ten pages on. |
| Sorting.Insert | pipeline.py:57 | Inserting adds exactly one element. |
| Sorting.InsertSorted | pipeline.py:57 | Inserting into a sorted list keeps it sorted. |
| Sorting.InsertBlock | pipeline.py:57 | An inserted element goes in front of its equivalence group and leaves the other groups unchanged. |
| Sorting.BlockCons | pipeline.py:57 | The group of `y` in `[h] + t` is `h` (if equivalent) followed by the group in `t`. |
| Sorting.PassedOverNotEquivalent | pipeline.py:57 | An element sorting strictly before `x` belongs to no group that `x` belongs to. |
| Sorting.SortBy | pipeline.py:57 | Python's sort yields a sorted permutation in which equivalent elements keep their relative order (stability). |
| Sorting.SortedUnique | pipeline.py:57 | Sorted, permutation and stable together determine the result: any two such sequences are equal. |
| Sorting.SortedUniqueTotal | pipeline.py:60 | Under a total order, any two sorted permutations are equal. |
| Sorting.DropFirst | pipeline.py:57 | Dropping the head removes one copy of it. |
| Sorting.BlockTail | pipeline.py:57 | The group of `x` in the tail is the group in the whole list, less the head if the head is in it. |
| Sorting.SameFirst | pipeline.py:57 | Two sorted, stable permutations start with the same element. |
| Sorting.FirstIsLeast | pipeline.py:57 | The head of a sorted list sorts no later than any of its elements. |
| Sorting.SortedAgainstStrict | pipeline.py:57 | When no two elements are equivalent, a sorted permutation is the unique strictly sorted one. |
| Sorting.FirstOfStrict | pipeline.py:57 | A sorted permutation of a strictly sorted list starts with that list's head. |
| Sorting.BlockOfTotalOrder | pipeline.py:60 | Under a total order, the group of `x` consists of the copies of `x`. |
| Sorting.SortByPermutation | pipeline.py:60 | Under a total order, sorting two permutations of one list gives the same result. |
| DividerPages.PdfEntries | divider_pages.py:66 | `glob('*.pdf')` matches exactly the entries that end in `.pdf` and are not hidden, with their contents. |
| DividerPages.JoinAll | divider_pages.py:66 | `glob` returns each match joined to the directory, in the listing's order. |
| DividerPages.PdfPageNames | divider_pages.py:112-115 | Page k's PDF is named `<base>_pagina_<k>.pdf`, starting from k = 1. |
| DividerPages.SinglePages | divider_pages.py:108-117 | Each page becomes its own one-page PDF. |
| DividerPages.TextPageNames | divider_pages.py:152-153 | Page k's text file is named `<base>_pagina_<k>.txt`. |
| DividerPages.PageTexts | divider_pages.py:146-156 | Each page's text file holds its page's text, stripped. |
| DividerPages.PageNameListsDistinct | divider_pages.py:112-115 | The PDF names of different pages differ, and so do their text names. |
| DividerPages.PdfPageNamesPlain | divider_pages.py:112-115 | Page PDF names are plain file names. |
| DividerPages.PdfPageNameGlobbed | divider_pages.py:66 | `glob('*.pdf')` finds every page PDF when the base name is not hidden. |
| DividerPages.Accumulated | divider_pages.py:146-150 | Pages that yield no text contribute nothing. |
| DividerPages.PageText | divider_pages.py:146-156 | The text written for a PDF has no whitespace at either end, and is empty when no page yields text. |
| DividerPages.SinglePageText | divider_pages.py:146-156 | A one-page PDF's text file holds that page's text, stripped. |
| DividerPages.ExtractOne | divider_pages.py:145 | Converting a missing PDF raises for that path. |
| DividerPages.TextFileNamePlain | divider_pages.py:152-153 | A text file name is a non-empty name without `/`. |
| DividerPages.TextNames | divider_pages.py:152-153 | The text file name of each listed PDF, in listing order. |
| DividerPages.ExtractAllInto | divider_pages.py:144-156 | Converting PDFs from one directory into another adds one text file per PDF to the second and changes nothing else. |
| DividerPages.ExtractOneInto | divider_pages.py:145-156 | Converting one PDF sets exactly its text file in the text directory. |
| DividerPages.PagePdfAt | divider_pages.py:112-117 | The PDF of page k holds page k. |
| DividerPages.PageOfPdf | divider_pages.py:112-117 | Every page PDF stands for one page k and holds page k. |
| DividerPages.PagePdfsListed | divider_pages.py:66 | A listing of the page PDFs lists each page's PDF exactly once. |
| DividerPages.ListedPages | divider_pages.py:144 | A listing of the page PDFs is a permutation of pages 1..N. |
| DividerPages.TextsOfListing | divider_pages.py:144-156 | Whatever order the page PDFs are listed in, their text files are those of pages 1..N, each holding its page's text. |
| DividerPages.ExtractPages | divider_pages.py:144-156 | Converting the page PDFs into an empty text directory leaves exactly one text file per page, `<base>_pagina_<k>.txt` holding page k's text. |
| DividerPages.ExtractListed | divider_pages.py:144-156 | Converting the listed PDFs into an empty text directory leaves exactly their text files there. |
| DividerPages.PagePdfsFound | divider_pages.py:66 | Every listed name is a page PDF. |
| DividerPages.ListedTexts | divider_pages.py:138-156 | The text files derived from any listing of the page PDFs are those of pages 1..N. |
| DividerPages.PageWrites | divider_pages.py:108-117 | `split_pdf` makes exactly one write per page. |
| DividerPages.SplitMissingSource | divider_pages.py:101-105 | A missing source is reported and nothing is written. `./output` exists and holds what it held. |
| DividerPages.SplitWritesPages | divider_pages.py:96-118 | An N-page source adds to `./output` the PDFs `<base>_pagina_<k>.pdf` for k = 1..N, each holding page k, and changes no other directory. |
| DividerPages.Divider.constructor | divider_pages.py:33-48 | The divider keeps the source directory, the file name and the base output name. |
| DividerPages.Divider.FromFullPath | divider_pages.py:68-86 | The directory and file name are the two parts of `os.path.split(full_path)`. |
| DividerPages.Divider.ListOutputPdfs | divider_pages.py:50-66 | Yields the paths of the directory's `*.pdf` entries, each once, in listing order. Yields none when the directory is missing. |
| DividerPages.Divider.SplitPdf | divider_pages.py:88-118 | Creates `./output`, then either reports a missing source or writes one PDF per page in order. It stops if a write raises. |
| DividerPages.Divider.ExtractText | divider_pages.py:146-156 | Yields the stripped accumulation of the pages' texts. |
| DividerPages.Divider.PdfsToText | divider_pages.py:120-158 | Creates the text directory, then writes one text file per PDF `glob` finds, in `glob`'s order. It stops at the first that raises. |
| Audio.Flatten | audio.py:19-25 | The joined track is as long as all the segments together. |
| Audio.FlattenAppend | audio.py:24 | Joining two runs of segments is joining their joins. |
| Audio.FlattenAt | audio.py:24 | Sample j of segment i sits just after all the earlier segments: at their total length plus j. |
| Audio.LoadWav | audio.py:10-12 | `from_wav` succeeds exactly on a WAV file, and a missing file raises for that path. |
| Audio.EnsureWavExtension | audio.py:14-17 | The result ends in `.wav` in any letter case. A name that already does is returned unchanged; any other gets `.wav` appended. |
| Audio.EnsureWavExtensionIdempotent | audio.py:14-17 | Normalising twice is normalising once. |
| Audio.ExportPath | audio.py:28-29 | The export path's last component is the normalised name, and its directory is the output directory. |
| Audio.LowerKeepsWavSuffix | audio.py:15 | Lower-casing keeps a `.wav` suffix. |
| Audio.ExportPathOfWav | audio.py:28-29 | A name already ending in `.wav` is exported under that very name. |
| Audio.ConcatenationOfLoaded | audio.py:19-25 | When every file reads as a WAV, the track is their samples in list order. |
| Audio.ConcatenationStopsAt | audio.py:21-24 | The first file that does not read as a WAV ends the concatenation with its error. |
| Audio.ConcatenationFailurePersists | audio.py:21-24 | Once a prefix of the list fails, the whole list fails the same way. |
| Audio.Concatenated | audio.py:33-36 | The built track is exported, or the build's fault is raised. |
| Audio.AudioConcatenator.constructor | audio.py:6-8 | The concatenator keeps its input and output directories. |
| Audio.AudioConcatenator.BuildConcatenatedSegment | audio.py:19-25 | The loop builds what the concatenation specification says, or it fails on the first unreadable file. |
| Audio.AudioConcatenator.ExportConcatenatedAudio | audio.py:27-31 | The track is written under the normalised name in the output directory. |
| Audio.AudioConcatenator.Concatenate | audio.py:33-36 | Build, then export. |
| Translation.Supported | IA/Translator.py:13-16 | Exactly `es` and `en` are supported. |
| Translation.LangCode | IA/Translator.py:13-16 | `es` maps to `spa_Latn` and `en` to `eng_Latn`. |
| Translation.Translate | IA/Translator.py:18-44 | An unsupported target raises first. A failed detection, or a detected source outside the table, raises next. Translation succeeds exactly when both languages are supported, and then generates in the target's code. |
| Translation.TargetCheckedFirst | IA/Translator.py:19-22 | On an unsupported target the detector makes no difference. |
| Translation.SameLanguageAccepted | IA/Translator.py:22-27 | A text already in the target language is still translated. |
| Translation.SourceOnlyChecked | IA/Translator.py:23-42 | The detected source is only checked against the table and does not affect the output. |
| Pipeline.DefaultConfigOk | config.py:4-12 | The `config.py` settings satisfy what a run relies on, and the result directory is `audio/result_audio`. |
| Pipeline.ResultAudioDirPath | config.py:12 | `os.path.join("audio", "result_audio")` is `audio/result_audio`. |
| Pipeline.DirKeys | config.py:18-23 | The key of each directory to create, in order. |
| Pipeline.CreatedDirectories | utils.py:3-8 | Afterwards every listed directory exists, no other directory is added, and no directory's entries change. |
| Pipeline.CreateDirectories | utils.py:3-8 | The loop leaves what the `CreatedDirectories` specification describes. |
| Pipeline.CreatedDirectoriesNext | utils.py:7-8 | Each pass runs `makedirs` on what the previous passes left. |
| Pipeline.CreatedDirectoriesKeepFiles | utils.py:3-8 | Creating directories leaves every file where it was. |
| Pipeline.ReadText | pipeline.py:41-42 | Reading succeeds exactly on a text file and yields its content. A missing file raises for that path. |
| Pipeline.TextOrder | pipeline.py:37 | The text files to speak are the `.txt` entries, each as often as listed, in string order. |
| Pipeline.AudioPath | pipeline.py:44-46 | A text file is spoken into `<BASE>_pagina_<page>.wav` under the audio directory. |
| Pipeline.PageStringPlain | pipeline.py:44 | The page string of a name without `/` has no `/` either. |
| Pipeline.AudioFileNamePlain | pipeline.py:45 | The audio name is a plain file name. |
| Pipeline.SynthesizeOne | pipeline.py:40-49 | Speaking a missing text file raises for its path. |
| Pipeline.SynthesizeOneWrites | pipeline.py:40-49 | Speaking one text file writes exactly one file: the page's audio file, holding the spoken text. |
| Pipeline.OrderWavFiles | pipeline.py:56-60 | The result is a permutation of the names. The warning is printed exactly when some name has no integer key. Without the warning the result is sorted by index and stable; with it, it is in string order. |
| Pipeline.FallbackOrder | pipeline.py:57-60 | A single name without a key sends the sort to the fallback. |
| Pipeline.KeyFound | pipeline.py:57 | The key pass accepts one more name. |
| Pipeline.IndexedOrder | pipeline.py:57 | When every name has a key, the numeric sort stands. |
| Pipeline.TextOrderOfDirectory | pipeline.py:37 | The files spoken are exactly the `.txt` entries of the text directory, each once. |
| Pipeline.TextOrderDetermined | pipeline.py:37 | The text files are spoken in the same order however the directory is listed. |
| Pipeline.WavFilesOfDirectory | pipeline.py:54-60 | On both paths the concatenator gets exactly the `.wav` entries of the audio directory, each once. |
| Pipeline.NumericPathByIndex | pipeline.py:57 | On the numeric path, page indices never decrease along the list. |
| Pipeline.NumericPathUnique | pipeline.py:57 | The numeric path is the only sorted, stable permutation of the names. |
| Pipeline.FallbackPathUnique | pipeline.py:60 | The fallback path is the only permutation in string order. |
| Pipeline.ResultFileExported | pipeline.py:66-67 | `<BASE>_completo.wav` is exported under that same name. |
| Pipeline.PdfToAudiobookPipeline.constructor | pipeline.py:9-10 | The pipeline keeps its settings and its voice. |
| Pipeline.PdfToAudiobookPipeline.Run | pipeline.py:12-16 | The stages run in order, each on what the previous one left, and the first that raises ends the run. |
| Pipeline.PdfToAudiobookPipeline.Setup | pipeline.py:19-22 | Creates the configured directories. |
| Pipeline.PdfToAudiobookPipeline.ProcessPdf | pipeline.py:24-33 | Splits the source and then extracts text between the divider's default directories. A split fault ends the stage. |
| Pipeline.PdfToAudiobookPipeline.GenerateAudioFromTextFiles | pipeline.py:35-50 | Raises on a missing text directory. Otherwise speaks its `.txt` files in string order and stops at the first that raises. |
| Pipeline.PdfToAudiobookPipeline.SortWavFiles | pipeline.py:56-60 | The key pass and the sort produce the `OrderWavFiles` specification's order and warning flag. |
| Pipeline.PdfToAudiobookPipeline.ConcatenateAudioFiles | pipeline.py:52-68 | Lists the `.wav` files, orders them, and joins them from the audio directory into `<BASE>_completo.wav` in the result directory. |
| PipelineRuns.PageSegments | pipeline.py:49 | Each page is spoken from its stripped text. |
| PipelineRuns.SetupFresh | pipeline.py:19-22 | On a fresh tree, setup leaves the working directories present and empty and the source where it was. |
| PipelineRuns.SplitFresh | divider_pages.py:88-118 | Splitting leaves one PDF per page in `./output` and the other directories empty. |
| PipelineRuns.ExtractFresh | divider_pages.py:120-158 | Extraction, with the page PDFs listed in any order, leaves one text file per page. |
| PipelineRuns.ProcessFresh | pipeline.py:24-33 | The PDF stage on a fresh tree leaves one text file per page. |
| PipelineRuns.SpokenInto | pipeline.py:39-49 | Speaking the text files adds one audio file per text file and changes nothing else. |
| PipelineRuns.ListedTextFiles | pipeline.py:37 | The sorted `.txt` entries are each page's text file, each once. |
| PipelineRuns.SpokenReordered | pipeline.py:39-49 | Speaking the text files in any order leaves the same audio directory. |
| PipelineRuns.SpokenPagesMatch | pipeline.py:44-49 | Page k's text file is spoken into page k's audio file. |
| PipelineRuns.SynthesisFresh | pipeline.py:35-50 | After a fresh extraction, synthesis leaves one audio file per page, holding its speech. |
| PipelineRuns.PageWavsLoad | audio.py:10-12 | Each page's audio file reads back as that page's speech. |
| PipelineRuns.ListedWavFiles | pipeline.py:54-60 | However the audio directory is listed, the files come out in page order and no warning is printed. |
| PipelineRuns.JoinFresh | pipeline.py:52-68 | After a fresh synthesis, the result file holds the speech of pages 1..N in page order. |
| PipelineRuns.FreshRun | pipeline.py:12-16 | From a fresh tree with an N-page PDF, the run succeeds and prints no warning. The result file holds the speech of pages 1..N in page order. |
| PipelineRuns.ProcessMissing | divider_pages.py:101-105 | Without a source, the PDF stage changes nothing. |
| PipelineRuns.SynthesisMissing | pipeline.py:37-50 | With no text files, synthesis changes nothing. |
| PipelineRuns.JoinMissing | pipeline.py:52-68 | With no audio files, an empty track is still written. |
| PipelineRuns.MissingSourceRun | divider_pages.py:101-105 | A run whose source is missing succeeds without a warning and writes an empty track. |
| PipelineRuns.FreshDefaultRun | config.py:4-12 | With the `config.py` settings, the result is `audio/result_audio/LaNocheBocaArriba_completo.wav`, holding the pages' speech in order. |
| PipelineRuns.DefaultResultPath | pipeline.py:66 | The default result path is `audio/result_audio/LaNocheBocaArriba_completo.wav`. |
| MainScript.ScriptLiterals | main.py:15-17 | The script's literals are the `config.py` settings. |
| MainScript.WithExtensionSnoc | main.py:43-44 | Filtering a list grown by one name grows the result by that name exactly when it matches. |
| MainScript.WithExtensionAppend | main.py:43-44 | Filtering distributes over concatenation. |
| MainScript.SpeakTextFiles | main.py:43-56 | The script's loop, which filters inside the sorted listing, has exactly the pipeline's text-to-speech outcome. |
| MainScript.FilteredStep | main.py:44 | An entry is a synthesis step exactly when it ends in `.txt`. |
| MainScript.FilteredDone | main.py:43 | After every sorted entry, the `.txt` files have been spoken in the pipeline's order. |
| MainScript.StepsFailurePersistsAfter | main.py:43-56 | A fault part-way through stops the loop with that fault. |
| MainScript.FirstNone | main.py:63 | The position of the first missing key, or the length when there is none. |
| MainScript.FirstUnindexed | main.py:63 | The key pass stops at the first name whose key `int` rejects. |
| MainScript.FirstUnindexedAt | main.py:63 | That stopping place is the first such name. |
| MainScript.StrictOrder | main.py:63 | The strict sort succeeds exactly when every name has an integer key, and then yields a permutation sorted by index. Otherwise it raises naming the first rejected name. |
| MainScript.StrictAgreesWithPipeline | main.py:63 | Where the strict sort succeeds, it agrees with the pipeline's sort, which then prints no warning. |
| MainScript.StrictFailsWherePipelineWarns | main.py:63 | The strict sort raises exactly where the pipeline prints its warning and falls back to string order. |
| MainScript.SortWavFilesStrictly | main.py:63 | The key pass and the sort give the strict order. |
| MainScript.CollectWavFiles | main.py:62-63 | The `.wav` entries of `audio`, strictly sorted. A missing directory or a rejected key is reported. |
| MainScript.StrictDocumentOrder | main.py:63 | On a whole document's audio files, the strict sort gives page order. |

## Left out

- PDF parsing and writing, as done by `pypdf`, are not modelled. A PDF is
  the list of texts its pages yield. The bytes the split writes are not
  modelled; a page PDF holds just its page.
- The `VoiceReader` class (`IA/VoiceReader.py`), including its model,
  tokenizer and float-to-integer scaling, is not part of this model. Its
  voice is the parameter `speak`.
- Sample rates, channel counts and WAV headers, which `pydub` would
  reconcile, are not modelled. A WAV file is a sequence of samples, and
  concatenating WAV files is concatenating those sequences.
- `langdetect.detect` and the NLLB tokenizer and model are parameters of
  `Translation.Translate`. When `detect` raises `LangDetectException`, the
  model returns `None`. The exception messages are not modelled.
- Printed progress messages are left out. The only output modelled is
  whether the sort warning was printed, as a flag.
- `os.listdir` and `glob` order is arbitrary. The model states results for
  every order the file system may choose.
- A directory's entries are files only; a directory is addressed by its
  whole relative path (`audio/result_audio`), not as an entry of its
  parent. Paths are POSIX; Windows separators are not modelled.
- FileSystem.MakeDirs: creates only `d` itself, while `os.makedirs` also
  creates missing parent directories. This is harmless here:
  `DIRECTORIES_TO_CREATE` (`config.py:18-23`) lists `audio` before its
  child `audio/result_audio`, so every parent already exists when its
  child is created.
- FileSystem.ListDir: lists the files of a directory but not its
  subdirectories, while `os.listdir("audio")` (`pipeline.py:54`,
  `main.py:62`) also returns the entry `result_audio`. This is harmless
  here: that entry does not end in `.wav`, and the `.wav` filter drops it
  before the sort.
- The voice is taken to be deterministic: `speak` is a function of the
  text, so speaking the same text twice gives the same samples. The
  Hugging Face text-to-speech pipeline behind `VoiceReader` samples noise
  unless it is seeded. `PipelineRuns.SpokenReordered` and the exact
  samples stated by `PipelineRuns.SynthesisFresh`, `PipelineRuns.JoinFresh`,
  `PipelineRuns.FreshRun` and `PipelineRuns.FreshDefaultRun` rely on it.
  The page order they state and the names and number of the audio files
  do not.
- File encodings are not modelled. A text file holds a `string`.
- The model does not cover permissions, a full disk, or a file replaced by
  another process during a run. Apart from a missing directory, a write
  does not fail.
- `main.py:14-32` (its own directory creation and its own calls to the
  divider) is not modelled separately. It does what the pipeline's setup
  and PDF stage do.
- `main.py:7` and `main.py:64-65` use `Audio_utility`, which `audio.py`
  does not define. As written, the script stops at its import. The model
  stops at the strict sort (`MainScript.CollectWavFiles`) and does not
  model the concatenation call at `main.py:64-65`.
- PyStr.Lower: lower-cases ASCII letters only. Python's `str.lower` also
  maps letters of other scripts, so the model's test of a `.wav` suffix is
  the ASCII one.
- Numerals.ParseInt: accepts ASCII digits only. Python's `int` also accepts
  other Unicode decimal digits.
- PageOrder.WithExtension: its own contract states only the length bound.
  The filtering property is stated by `PageOrder.WithExtensionCount`.
- Pipeline.OrderWavFiles: the `except IndexError` at `pipeline.py:58` is
  not modelled, because `split('_')` always yields at least one part.
