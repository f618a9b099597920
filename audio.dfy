/**
 * `AudioConcatenator`: joins the per-page WAV files, in the order given,
 * into one track and writes it under the output directory.
 */
module Audio {
  import opened Wrappers
  import opened PyStr
  import opened FileSystem
  import Paths

  /** The samples of `segments` one after another. */
  function Flatten(segments: seq<seq<int>>): (r: seq<int>)
    ensures |r| == TotalLength(segments)
    decreases |segments|
  {
    if segments == [] then []
    else Flatten(segments[..|segments| - 1]) + segments[|segments| - 1]
  }

  /** The sum of the segments' lengths. */
  function TotalLength(segments: seq<seq<int>>): (n: nat)
    ensures segments == [] ==> n == 0
    decreases |segments|
  {
    if segments == [] then 0
    else TotalLength(segments[..|segments| - 1]) + |segments[|segments| - 1]|
  }

  /** Joining two runs of segments is joining their joins. */
  lemma {:induction false} FlattenAppend(a: seq<seq<int>>, b: seq<seq<int>>)
    ensures Flatten(a + b) == Flatten(a) + Flatten(b)
    decreases |b|
  {
    if b != [] {
      var n := |b| - 1;
      assert (a + b)[..|a + b| - 1] == a + b[..n];
      FlattenAppend(a, b[..n]);
    } else {
      assert a + b == a;
    }
  }

  /** Sample `j` of segment `i` lands at the total length of the segments before `i`, plus `j`. */
  lemma {:induction false} FlattenAt(segments: seq<seq<int>>, i: nat, j: nat)
    requires i < |segments| && j < |segments[i]|
    ensures TotalLength(segments[..i]) + j < |Flatten(segments)|
    ensures Flatten(segments)[TotalLength(segments[..i]) + j] == segments[i][j]
    decreases |segments|
  {
    var n := |segments| - 1;
    assert segments[..n][..i] == segments[..i];
    if i < n {
      FlattenAt(segments[..n], i, j);
    } else {
      assert segments[..n] == segments[..i];
    }
  }

  /** `AudioSegment.from_wav(path)` */
  function LoadWav(disk: Disk, path: string): (r: Result<seq<int>, Fault>)
    ensures r.Success? <==> Lookup(disk, path).Some? && Lookup(disk, path).value.Wav?
    ensures r.Success? ==> Lookup(disk, path) == Some(Wav(r.value))
    ensures Lookup(disk, path).None? ==> r == Failure(NotFound(path))
  {
    match Lookup(disk, path)
    case None => Failure(NotFound(path))
    case Some(Wav(samples)) => Success(samples)
    case Some(_) => Failure(Unreadable(path))
  }

  /** `_ensure_wav_extension`: appends `.wav` unless the name already ends in it, in any case. */
  function EnsureWavExtension(filename: string): (r: string)
    ensures EndsWith(Lower(r), ".wav")
    ensures EndsWith(Lower(filename), ".wav") ==> r == filename
    ensures !EndsWith(Lower(filename), ".wav") ==> r == filename + ".wav"
  {
    if !EndsWith(Lower(filename), ".wav") then
      var r := filename + ".wav";
      assert Lower(r)[|r| - 4..] == ".wav" by {
        forall i | 0 <= i < 4 ensures Lower(r)[|r| - 4 + i] == ".wav"[i] {
          assert r[|r| - 4 + i] == ".wav"[i];
        }
      }
      r
    else filename
  }

  /** Normalising twice is normalising once. */
  lemma EnsureWavExtensionIdempotent(filename: string)
    ensures EnsureWavExtension(EnsureWavExtension(filename)) == EnsureWavExtension(filename)
  {
  }

  /**
   * The path `_export_concatenated_audio` writes to: the normalised name,
   * inside the output directory.
   */
  function ExportPath(outputPath: string, outputFilename: string): (p: string)
    ensures '/' !in EnsureWavExtension(outputFilename) ==> Paths.Basename(p) == EnsureWavExtension(outputFilename)
    ensures PlainDir(outputPath) && '/' !in EnsureWavExtension(outputFilename) ==> Paths.Split(p) == (outputPath, EnsureWavExtension(outputFilename))
  {
    var name := EnsureWavExtension(outputFilename);
    if '/' !in name then
      Paths.BasenameJoin(outputPath, name);
      if PlainDir(outputPath) then
        Paths.SplitJoin(outputPath, name);
        Paths.Join(outputPath, name)
      else Paths.Join(outputPath, name)
    else Paths.Join(outputPath, name)
  }

  /** The lower-case form of a name ending in `.wav` still ends in `.wav`. */
  lemma LowerKeepsWavSuffix(s: string)
    requires EndsWith(s, ".wav")
    ensures EndsWith(Lower(s), ".wav")
  {
    forall i | 0 <= i < 4 ensures Lower(s)[|s| - 4 + i] == ".wav"[i] {
      assert s[|s| - 4 + i] == ".wav"[i];
    }
  }

  /** A name that already ends in `.wav` is exported under that very name. */
  lemma ExportPathOfWav(outputPath: string, outputFilename: string)
    requires EndsWith(outputFilename, ".wav")
    ensures ExportPath(outputPath, outputFilename) == Paths.Join(outputPath, outputFilename)
  {
    LowerKeepsWavSuffix(outputFilename);
  }

  /**
   * What `_build_concatenated_segment` yields: starting from the empty
   * segment, the file `join(input_path, f)` of each `f` in turn appended,
   * stopping at the first file that cannot be read.
   */
  function Concatenation(inputPath: string, disk: Disk, audioFiles: seq<string>): (r: Result<seq<int>, Fault>)
    decreases |audioFiles|
  {
    if audioFiles == [] then Success([])
    else
      var n := |audioFiles| - 1;
      match Concatenation(inputPath, disk, audioFiles[..n])
      case Failure(e) => Failure(e)
      case Success(acc) =>
        match LoadWav(disk, Paths.Join(inputPath, audioFiles[n]))
        case Failure(e) => Failure(e)
        case Success(segment) => Success(acc + segment)
  }

  /**
   * When every file reads as a WAV, the result is their samples in list
   * order, and as long as all of them together.
   */
  lemma {:induction false} ConcatenationOfLoaded(inputPath: string, disk: Disk, audioFiles: seq<string>, segments: seq<seq<int>>)
    requires |segments| == |audioFiles|
    requires forall i :: 0 <= i < |audioFiles| ==> LoadWav(disk, Paths.Join(inputPath, audioFiles[i])) == Success(segments[i])
    ensures Concatenation(inputPath, disk, audioFiles) == Success(Flatten(segments))
    ensures |Flatten(segments)| == TotalLength(segments)
    decreases |audioFiles|
  {
    if audioFiles != [] {
      var n := |audioFiles| - 1;
      ConcatenationOfLoaded(inputPath, disk, audioFiles[..n], segments[..n]);
    }
  }

  /** The first file that does not read as a WAV ends the concatenation with its error. */
  lemma {:induction false} ConcatenationStopsAt(inputPath: string, disk: Disk, audioFiles: seq<string>, i: nat)
    requires i < |audioFiles|
    requires forall j :: 0 <= j < i ==> LoadWav(disk, Paths.Join(inputPath, audioFiles[j])).Success?
    requires LoadWav(disk, Paths.Join(inputPath, audioFiles[i])).Failure?
    ensures Concatenation(inputPath, disk, audioFiles) == Failure(LoadWav(disk, Paths.Join(inputPath, audioFiles[i])).error)
    decreases |audioFiles|
  {
    var n := |audioFiles| - 1;
    if i < n {
      ConcatenationStopsAt(inputPath, disk, audioFiles[..n], i);
    } else {
      var segments := seq(i, j requires 0 <= j < i => LoadWav(disk, Paths.Join(inputPath, audioFiles[j])).value);
      ConcatenationOfLoaded(inputPath, disk, audioFiles[..n], segments);
    }
  }

  /** Once a prefix fails, the whole list fails the same way. */
  lemma {:induction false} ConcatenationFailurePersists(inputPath: string, disk: Disk, audioFiles: seq<string>, i: nat)
    requires i <= |audioFiles| && Concatenation(inputPath, disk, audioFiles[..i]).Failure?
    ensures Concatenation(inputPath, disk, audioFiles) == Concatenation(inputPath, disk, audioFiles[..i])
    decreases |audioFiles| - i
  {
    if i < |audioFiles| {
      assert audioFiles[..i + 1][..i] == audioFiles[..i];
      ConcatenationFailurePersists(inputPath, disk, audioFiles, i + 1);
    } else {
      assert audioFiles[..i] == audioFiles;
    }
  }

  /** What `concatenate` leaves behind: the built track exported, or the first fault. */
  function Concatenated(inputPath: string, outputPath: string, disk: Disk, audioFiles: seq<string>, outputFilename: string): (r: Result<Disk, Fault>)
    ensures Concatenation(inputPath, disk, audioFiles).Failure? ==> r == Failure(Concatenation(inputPath, disk, audioFiles).error)
    ensures Concatenation(inputPath, disk, audioFiles).Success? ==> r == Store(disk, ExportPath(outputPath, outputFilename), Wav(Concatenation(inputPath, disk, audioFiles).value))
  {
    match Concatenation(inputPath, disk, audioFiles)
    case Failure(e) => Failure(e)
    case Success(track) => Store(disk, ExportPath(outputPath, outputFilename), Wav(track))
  }

  class AudioConcatenator {
    const inputPath: string
    const outputPath: string

    constructor (inputPath: string, outputPath: string)
      ensures this.inputPath == inputPath && this.outputPath == outputPath
    {
      this.inputPath := inputPath;
      this.outputPath := outputPath;
    }

    /** `_build_concatenated_segment`, reading each file from the input directory. */
    method BuildConcatenatedSegment(disk: Disk, audioFiles: seq<string>) returns (r: Result<seq<int>, Fault>)
      ensures r == Concatenation(inputPath, disk, audioFiles)
    {
      var concatenated: seq<int> := [];
      var i := 0;
      while i < |audioFiles|
        invariant 0 <= i <= |audioFiles|
        invariant Concatenation(inputPath, disk, audioFiles[..i]) == Success(concatenated)
      {
        assert audioFiles[..i + 1][..i] == audioFiles[..i];
        var segment := LoadWav(disk, Paths.Join(inputPath, audioFiles[i]));
        if segment.Failure? {
          ConcatenationFailurePersists(inputPath, disk, audioFiles, i + 1);
          return Failure(segment.error);
        }
        concatenated := concatenated + segment.value;
        i := i + 1;
      }
      assert audioFiles[..i] == audioFiles;
      return Success(concatenated);
    }

    /** `_export_concatenated_audio`: writes the track to the output directory under a `.wav` name. */
    method ExportConcatenatedAudio(disk: Disk, concatenated: seq<int>, outputFilename: string) returns (r: Result<Disk, Fault>)
      ensures r == Store(disk, ExportPath(outputPath, outputFilename), Wav(concatenated))
      ensures r.Success? ==> Lookup(r.value, ExportPath(outputPath, outputFilename)) == Some(Wav(concatenated))
    {
      var outputFile := ExportPath(outputPath, outputFilename);
      r := Store(disk, outputFile, Wav(concatenated));
    }

    /** `concatenate`: build, then export. */
    method Concatenate(disk: Disk, audioFiles: seq<string>, outputFilename: string) returns (r: Result<Disk, Fault>)
      ensures r == Concatenated(inputPath, outputPath, disk, audioFiles, outputFilename)
    {
      var concatenated := BuildConcatenatedSegment(disk, audioFiles);
      if concatenated.Failure? {
        return Failure(concatenated.error);
      }
      r := ExportConcatenatedAudio(disk, concatenated.value, outputFilename);
    }
  }
}
