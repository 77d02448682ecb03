/**
 * The codec prober (`getVideoCodec`) and the conversion driver (`convertVideoToAV1`).
 * The prober's and the encoder's runs are inputs: what the subprocess printed or that
 * it failed, and how the encoder exited.
 */
module Convert {
  import opened Wrappers
  import opened Strings
  import opened Paths
  import opened Os
  import Scan

  // ---------------------------------------------------------------------------
  // The prober
  // ---------------------------------------------------------------------------

  /** The prober's file name next to the encoder, with `.exe` on Windows. */
  function ProbeName(windows: bool): string {
    if windows then "ffprobe.exe" else "ffprobe"
  }

  /** Appending to a joined name appends to the name. */
  lemma JoinThenAppend(dir: string, name: string, suffix: string)
    requires name != []
    ensures Join(dir, name) + suffix == Join(dir, name + suffix)
  {
    if dir != [] && dir != "." && dir[|dir| - 1] != Separator {
      assert dir + [Separator] + name + suffix == dir + [Separator] + (name + suffix);
    }
  }

  /** The prober path `getVideoCodec` tries first: its own name in the encoder's directory. */
  function SiblingProbePath(ffmpegPath: string, windows: bool): (r: string)
    ensures Dir(r) == Dir(ffmpegPath) && Base(r) == ProbeName(windows)
  {
    var probePath := Join(Dir(ffmpegPath), "ffprobe");
    if windows then
      assert probePath + ".exe" == Join(Dir(ffmpegPath), "ffprobe.exe") by {
        JoinThenAppend(Dir(ffmpegPath), "ffprobe", ".exe");
      }
      assert Separator !in "ffprobe.exe";
      JoinDirInverse(ffmpegPath, "ffprobe.exe");
      probePath + ".exe"
    else
      assert Separator !in "ffprobe";
      JoinDirInverse(ffmpegPath, "ffprobe");
      probePath
  }

  /**
   * The prober `getVideoCodec` runs: the sibling of the encoder when `os.Stat` does not
   * report it missing, otherwise the bare name, looked up through PATH.
   */
  function ProbePath(ffmpegPath: string, sys: System): (r: string)
    ensures sys.stat(SiblingProbePath(ffmpegPath, sys.windows)) == NotExist ==> r == "ffprobe"
    ensures sys.stat(SiblingProbePath(ffmpegPath, sys.windows)) != NotExist ==>
      Dir(r) == Dir(ffmpegPath) && Base(r) == ProbeName(sys.windows)
  {
    var probePath := SiblingProbePath(ffmpegPath, sys.windows);
    if sys.stat(probePath) == NotExist then "ffprobe" else probePath
  }

  /** The prober's arguments: the first video stream's codec name, bare. */
  function ProbeArgs(filePath: string): (r: seq<string>)
    ensures |r| == 9 && r[|r| - 1] == filePath
  {
    ["-v", "error",
     "-select_streams", "v:0",
     "-show_entries", "stream=codec_name",
     "-of", "default=noprint_wrappers=1:nokey=1",
     filePath]
  }

  /** How the prober's run ended: exit status 0 with its combined output, or an error. */
  datatype ProbeRun = ProbeExited(output: string) | ProbeFailed

  datatype ProbeError = ProbeError(command: Command)

  /** `getVideoCodec`: the command it runs and the codec name it returns. */
  datatype Probe = Probe(command: Command, codec: Result<string, ProbeError>)

  function GetVideoCodec(filePath: string, ffmpegPath: string, sys: System, run: ProbeRun): (p: Probe)
    ensures p.command == Command(ProbePath(ffmpegPath, sys), ProbeArgs(filePath))
    ensures p.codec.Err? <==> run.ProbeFailed?
    ensures run.ProbeExited? ==> p.codec == Ok(TrimSpace(run.output))
  {
    var cmd := Command(ProbePath(ffmpegPath, sys), ProbeArgs(filePath));
    match run
    case ProbeFailed => Probe(cmd, Err(ProbeError(cmd)))
    case ProbeExited(output) => Probe(cmd, Ok(TrimSpace(output)))
  }

  // ---------------------------------------------------------------------------
  // The skip test
  // ---------------------------------------------------------------------------

  /** The skip test: the probe succeeded and its codec, lower-cased, contains "av1". */
  predicate IsAV1(codec: Result<string, ProbeError>)
    ensures IsAV1(codec) ==> codec.Ok? && |codec.value| >= 3
  {
    codec.Ok? && Contains(ToLower(codec.value), "av1")
  }

  /** "av1" in any mix of cases starts at index `i` of `s`. */
  predicate AV1At(s: string, i: int) {
    0 <= i && i + 3 <= |s| && (s[i] == 'a' || s[i] == 'A') && (s[i + 1] == 'v' || s[i + 1] == 'V') && s[i + 2] == '1'
  }

  /** The lower-cased text contains "av1" iff the text has "av1" in some mix of cases. */
  lemma ContainsAV1Lower(s: string)
    ensures Contains(ToLower(s), "av1") <==> exists i :: 0 <= i <= |s| && AV1At(s, i)
  {
    var t := ToLower(s);
    if Contains(t, "av1") {
      var i :| 0 <= i <= |t| && OccursAt(t, "av1", i);
      var w := t[i..i + 3];
      assert w == "av1";
      assert t[i] == w[0] == 'a' && t[i + 1] == w[1] == 'v' && t[i + 2] == w[2] == '1';
      assert AV1At(s, i);
    }
    if exists i :: 0 <= i <= |s| && AV1At(s, i) {
      var i :| 0 <= i <= |s| && AV1At(s, i);
      assert t[i..i + 3] == "av1";
      assert OccursAt(t, "av1", i);
    }
  }

  /** "av1" never spans white space, so removing white space around a slice keeps every occurrence. */
  lemma AV1InSlice(s: string, lo: nat, hi: nat)
    requires lo <= hi <= |s|
    requires SpaceOutside(s, lo, hi)
    ensures (exists i :: 0 <= i <= hi - lo && AV1At(s[lo..hi], i)) <==> (exists i :: 0 <= i <= |s| && AV1At(s, i))
  {
    var t := s[lo..hi];
    if i :| 0 <= i <= |t| && AV1At(t, i) {
      assert t[i] == s[lo + i] && t[i + 1] == s[lo + i + 1] && t[i + 2] == s[lo + i + 2];
      assert AV1At(s, lo + i);
    }
    if i :| 0 <= i <= |s| && AV1At(s, i) {
      assert !IsSpace(s[i]) && !IsSpace(s[i + 2]);
      assert t[i - lo] == s[i] && t[i - lo + 1] == s[i + 1] && t[i - lo + 2] == s[i + 2];
      assert AV1At(t, i - lo);
    }
  }

  /**
   * Trimming the prober's output does not change the decision: the trimmed codec
   * contains "av1" in some case iff the raw output does.
   */
  lemma AV1IgnoresSurroundingSpace(output: string)
    ensures Contains(ToLower(TrimSpace(output)), "av1") <==> Contains(ToLower(output), "av1")
  {
    var lo: nat, hi: nat :| lo <= hi <= |output| && TrimSpace(output) == output[lo..hi] && SpaceOutside(output, lo, hi);
    ContainsAV1Lower(TrimSpace(output));
    ContainsAV1Lower(output);
    AV1InSlice(output, lo, hi);
  }

  /** A prober run leads to a skip iff it succeeded and its output has "av1" in some case. */
  lemma SkipDecision(filePath: string, ffmpegPath: string, sys: System, run: ProbeRun)
    ensures IsAV1(GetVideoCodec(filePath, ffmpegPath, sys, run).codec) <==>
      run.ProbeExited? && exists i :: 0 <= i <= |run.output| && AV1At(run.output, i)
  {
    if run.ProbeExited? {
      AV1IgnoresSurroundingSpace(run.output);
      ContainsAV1Lower(run.output);
    }
  }

  lemma SkipExamples()
    ensures IsAV1(Ok("av1"))
    ensures IsAV1(Ok("libaom-AV1"))
    ensures !IsAV1(Ok("h264"))
    ensures !IsAV1(Err(ProbeError(Command("ffprobe", []))))
  {
    ContainsAV1Lower("av1");
    assert AV1At("av1", 0);
    ContainsAV1Lower("libaom-AV1");
    assert AV1At("libaom-AV1", 7);
    ContainsAV1Lower("h264");
  }

  // ---------------------------------------------------------------------------
  // The encoder
  // ---------------------------------------------------------------------------

  /** `<dir>/<base without its extension>_av1.mkv`, next to the input. */
  function OutputPath(inputPath: string): (r: string)
    ensures HasSuffix(r, "_av1.mkv")
  {
    var baseName := Base(inputPath);
    var ext := Ext(baseName);
    var r := Join(Dir(inputPath), TrimSuffix(baseName, ext) + "_av1.mkv");
    JoinEndsWithName(Dir(inputPath), TrimSuffix(baseName, ext) + "_av1.mkv");
    SuffixOfSuffix(r, TrimSuffix(baseName, ext), "_av1.mkv");
    r
  }

  /** The input's file name without its extension. */
  function Stem(inputPath: string): string {
    var name := FinalElement(inputPath);
    name[..|name| - |Ext(inputPath)|]
  }

  /** The stem and the extension make up the file name. */
  lemma StemThenExt(inputPath: string)
    ensures Stem(inputPath) + Ext(inputPath) == FinalElement(inputPath)
  {
    ExtSplitsFinalElement(inputPath);
  }

  lemma StemIsTrimmedBase(inputPath: string)
    requires NamesEntry(inputPath)
    ensures TrimSuffix(Base(inputPath), Ext(Base(inputPath))) == Stem(inputPath)
  {
    var name := FinalElement(inputPath);
    var ext := Ext(inputPath);
    BaseOfEntry(inputPath);
    FinalElementOfName(name);
    assert Ext(name) == ext;
    StemThenExt(inputPath);
    assert name[|name| - |ext|..] == ext;
    var r := TrimSuffix(name, ext);
    assert r == (r + ext)[..|r|];
  }

  lemma StemHasNoSeparator(inputPath: string)
    ensures Separator !in Stem(inputPath) + "_av1.mkv"
  {
    var name := FinalElement(inputPath);
    var stem := Stem(inputPath);
    FinalElementHasNoSeparator(inputPath);
    forall i | 0 <= i < |stem| ensures stem[i] != Separator {
      assert stem[i] == name[i];
    }
  }

  /** For every path that names an entry, the output is the input's directory joined with `<stem>_av1.mkv`. */
  lemma OutputPathFromStem(inputPath: string)
    requires NamesEntry(inputPath)
    ensures OutputPath(inputPath) == Join(Dir(inputPath), Stem(inputPath) + "_av1.mkv")
  {
    StemIsTrimmedBase(inputPath);
  }

  /** A name ending in `_av1.mkv` has the extension `.mkv`, so the scanner would collect it. */
  lemma MkvName(p: string, stem: string)
    requires FinalElement(p) == stem + "_av1.mkv"
    ensures Ext(p) == ".mkv"
    ensures Scan.IsVideoPath(p)
  {
    assert stem + "_av1.mkv" == (stem + "_av1") + ".mkv";
    assert SplitsAsExtension(stem + "_av1", ".mkv");
    ExtOfSplitName(p, stem + "_av1", ".mkv");
    Scan.MkvIsVideoExtension();
  }

  /**
   * The output goes into the input's own directory, is named after the input's stem,
   * never coincides with the input (which `-y` would overwrite), and is itself a file
   * the scanner collects.
   */
  lemma OutputPathAlongsideInput(inputPath: string)
    requires NamesEntry(inputPath)
    ensures Stem(inputPath) + Ext(inputPath) == FinalElement(inputPath)
    ensures Dir(OutputPath(inputPath)) == Dir(inputPath)
    ensures Base(OutputPath(inputPath)) == Stem(inputPath) + "_av1.mkv"
    ensures Ext(OutputPath(inputPath)) == ".mkv"
    ensures Scan.IsVideoPath(OutputPath(inputPath))
    ensures OutputPath(inputPath) != inputPath
  {
    StemThenExt(inputPath);
    StemIsTrimmedBase(inputPath);
    StemHasNoSeparator(inputPath);
    OutputPathFromStem(inputPath);
    var outName := Stem(inputPath) + "_av1.mkv";
    JoinDirInverse(inputPath, outName);
    MkvName(OutputPath(inputPath), Stem(inputPath));
    BaseOfEntry(inputPath);
    var stem := Stem(inputPath);
    assert (stem + "_av1.mkv")[|stem|] == '_';
    assert |Ext(inputPath)| == 8 ==> (stem + Ext(inputPath))[|stem|] == '.';
  }

  lemma StemOfName(p: string, stem: string, ext: string)
    requires FinalElement(p) == stem + ext
    requires SplitsAsExtension(stem, ext)
    ensures Ext(p) == ext
    ensures Stem(p) == stem
  {
    ExtOfSplitName(p, stem, ext);
    var name := FinalElement(p);
    assert name[..|name| - |ext|] == stem;
  }

  /** A bare file name `stem.ext` becomes `stem_av1.mkv`: the last extension only is replaced. */
  lemma OutputPathOfFileName(stem: string, ext: string)
    requires stem + ext != [] && Separator !in stem + ext
    requires SplitsAsExtension(stem, ext)
    ensures OutputPath(stem + ext) == stem + "_av1.mkv"
  {
    var p := stem + ext;
    FinalElementOfName(p);
    StemOfName(p, stem, ext);
    StemIsTrimmedBase(p);
    OutputPathFromStem(p);
    DirOfName(p);
  }

  lemma OutputPathOfChildIsJoin(dir: string, stem: string, ext: string)
    requires dir != [] && dir[|dir| - 1] != Separator
    requires stem + ext != [] && Separator !in stem + ext
    requires SplitsAsExtension(stem, ext)
    ensures OutputPath(dir + [Separator] + (stem + ext))
      == Join(Dir(dir + [Separator] + (stem + ext)), stem + "_av1.mkv")
  {
    var p := dir + [Separator] + (stem + ext);
    FinalElementOfAppend(dir, stem + ext);
    StemOfName(p, stem, ext);
    StemIsTrimmedBase(p);
    OutputPathFromStem(p);
  }

  /** A file `dir/stem.ext` becomes `dir/stem_av1.mkv`, in the same directory. */
  lemma OutputPathInDirectory(dir: string, stem: string, ext: string)
    requires dir != [] && dir != "." && dir[|dir| - 1] != Separator
    requires stem + ext != [] && Separator !in stem + ext
    requires SplitsAsExtension(stem, ext)
    ensures OutputPath(dir + [Separator] + (stem + ext)) == dir + [Separator] + (stem + "_av1.mkv")
  {
    OutputPathOfChildIsJoin(dir, stem, ext);
    DirOfChild(dir, stem + ext);
    JoinChild(dir, stem + "_av1.mkv");
  }

  /** The encoder's arguments: hardware AV1 video, copied audio, overwrite without asking. */
  function EncoderArgs(inputPath: string, outputPath: string): (r: seq<string>)
    ensures |r| == 8 && r[0] == "-i" && r[1] == inputPath
    ensures r[|r| - 1] == outputPath && r[|r| - 2] == "-y"
  {
    ["-i", inputPath, "-c:v", "av1_qsv", "-c:a", "copy", "-y", outputPath]
  }

  function EncodeCommand(ffmpegPath: string, inputPath: string): (c: Command)
    ensures c.program == ffmpegPath
    ensures |c.args| == 8 && c.args[1] == inputPath && c.args[7] == OutputPath(inputPath)
  {
    Command(ffmpegPath, EncoderArgs(inputPath, OutputPath(inputPath)))
  }

  /** How the encoder's run ended: it exited with a status, or it could not be started. */
  datatype EncodeRun = Exited(code: int) | StartFailed

  /** `convertVideoToAV1`'s error: the exit status is included when the encoder exited. */
  datatype EncodeError = EncodeError(exitCode: Option<int>)

  /** What `convertVideoToAV1` did: the encoder command it ran, if any, and its error, if any. */
  datatype Conversion = Conversion(encode: Option<Command>, error: Option<EncodeError>)

  /**
   * `convertVideoToAV1`: probes the file itself; skips it (reporting no error) when the
   * probe says AV1, and otherwise runs the encoder, whatever the probe's error.
   */
  function ConvertVideoToAV1(inputPath: string, ffmpegPath: string, sys: System, probe: ProbeRun, run: EncodeRun)
    : (c: Conversion)
    ensures c.encode.None? <==> IsAV1(GetVideoCodec(inputPath, ffmpegPath, sys, probe).codec)
    ensures c.encode.Some? ==> c.encode.value == EncodeCommand(ffmpegPath, inputPath)
    ensures c.error.None? <==> c.encode.None? || run == Exited(0)
    ensures run.Exited? && run.code != 0 && c.encode.Some? ==> c.error == Some(EncodeError(Some(run.code)))
    ensures run.StartFailed? && c.encode.Some? ==> c.error == Some(EncodeError(None))
  {
    var codec := GetVideoCodec(inputPath, ffmpegPath, sys, probe).codec;
    if codec.Ok? && Contains(ToLower(codec.value), "av1") then
      Conversion(None, None)
    else
      var cmd := EncodeCommand(ffmpegPath, inputPath);
      match run
      case Exited(code) => Conversion(Some(cmd), if code == 0 then None else Some(EncodeError(Some(code))))
      case StartFailed => Conversion(Some(cmd), Some(EncodeError(None)))
  }
}
