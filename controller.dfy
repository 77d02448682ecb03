/**
 * The program's driver (`main`): load the configuration, find the videos under the
 * date-named directories, then probe and convert them one by one, counting how many
 * were converted, failed, or were skipped as already AV1.
 */
module Controller {
  import opened Wrappers
  import opened Os
  import opened Config
  import Scan
  import opened Convert

  /**
   * What the outside world does for one file: the driver's own probe, the second probe
   * inside `convertVideoToAV1`, and the encoder's run.
   */
  datatype FileEnv = FileEnv(outerProbe: ProbeRun, innerProbe: ProbeRun, encode: EncodeRun)

  /** Which of the three counters a file adds to. */
  datatype FileOutcome = Succeeded | Failed | Skipped

  /** A file's outcome, and the encoder command run for it, if any. */
  datatype FileResult = FileResult(outcome: FileOutcome, encode: Option<Command>)

  /** The probe printed a codec name with "av1" in it, in any letter case. */
  predicate ReportsAV1(run: ProbeRun) {
    run.ProbeExited? && exists i :: 0 <= i <= |run.output| && AV1At(run.output, i)
  }

  /**
   * One turn of the driver's loop. A file is skipped exactly when the driver's probe
   * reports AV1; a probe that fails does not skip (the file is converted anyway). Otherwise
   * `convertVideoToAV1` probes again: when that probe reports AV1 nothing is encoded and the
   * file still counts as a success. The file fails exactly when the encoder was run and did
   * not exit with status 0.
   */
  function ProcessFile(file: string, ffmpegPath: string, sys: System, env: FileEnv): (r: FileResult)
    ensures r.outcome == Skipped <==> ReportsAV1(env.outerProbe)
    ensures r.encode.Some? <==> !ReportsAV1(env.outerProbe) && !ReportsAV1(env.innerProbe)
    ensures r.encode.Some? ==> r.encode.value == EncodeCommand(ffmpegPath, file)
    ensures r.outcome == Failed <==> r.encode.Some? && env.encode != Exited(0)
  {
    SkipDecision(file, ffmpegPath, sys, env.outerProbe);
    SkipDecision(file, ffmpegPath, sys, env.innerProbe);
    var codec := GetVideoCodec(file, ffmpegPath, sys, env.outerProbe).codec;
    if IsAV1(codec) then
      FileResult(Skipped, None)
    else
      var c := ConvertVideoToAV1(file, ffmpegPath, sys, env.innerProbe, env.encode);
      FileResult(if c.error.Some? then Failed else Succeeded, c.encode)
  }

  /** `f` applied to every element of `xs`, in order. */
  function Mapped<T, U>(xs: seq<T>, f: T -> U): (r: seq<U>)
    ensures |r| == |xs|
  {
    if xs == [] then [] else Mapped(xs[..|xs| - 1], f) + [f(xs[|xs| - 1])]
  }

  lemma {:induction false} MappedAt<T, U>(xs: seq<T>, f: T -> U, k: nat)
    requires k < |xs|
    ensures Mapped(xs, f)[k] == f(xs[k])
    decreases |xs|
  {
    if k < |xs| - 1 {
      MappedAt(xs[..|xs| - 1], f, k);
    }
  }

  /** The outcome of every file, in the order the files are processed. */
  function Outcomes(files: seq<string>, ffmpegPath: string, sys: System, envOf: string -> FileEnv): seq<FileOutcome> {
    Mapped(files, (file: string) => ProcessFile(file, ffmpegPath, sys, envOf(file)).outcome)
  }

  /** The `k`-th outcome is that of the `k`-th file. */
  lemma OutcomesAt(files: seq<string>, ffmpegPath: string, sys: System, envOf: string -> FileEnv, k: nat)
    requires k < |files|
    ensures |Outcomes(files, ffmpegPath, sys, envOf)| == |files|
    ensures Outcomes(files, ffmpegPath, sys, envOf)[k] == ProcessFile(files[k], ffmpegPath, sys, envOf(files[k])).outcome
  {
    MappedAt(files, (file: string) => ProcessFile(file, ffmpegPath, sys, envOf(file)).outcome, k);
  }

  /** Processing one more file appends its outcome. */
  lemma OutcomesStep(files: seq<string>, i: nat, ffmpegPath: string, sys: System, envOf: string -> FileEnv)
    requires i < |files|
    ensures Outcomes(files[..i + 1], ffmpegPath, sys, envOf) ==
      Outcomes(files[..i], ffmpegPath, sys, envOf) + [ProcessFile(files[i], ffmpegPath, sys, envOf(files[i])).outcome]
  {
    assert files[..i + 1][..i] == files[..i];
  }

  /** The values `pick` yields over `xs`, in order, leaving out the elements it yields none for. */
  function Gathered<T, U>(xs: seq<T>, pick: T -> Option<U>): (r: seq<U>)
    ensures |r| <= |xs|
  {
    if xs == [] then []
    else
      var before := Gathered(xs[..|xs| - 1], pick);
      match pick(xs[|xs| - 1])
      case Some(u) => before + [u]
      case None => before
  }

  lemma {:induction false} GatheredMembers<T, U>(xs: seq<T>, pick: T -> Option<U>, u: U)
    ensures u in Gathered(xs, pick) <==> exists k :: 0 <= k < |xs| && pick(xs[k]) == Some(u)
    decreases |xs|
  {
    if xs != [] {
      var init := xs[..|xs| - 1];
      GatheredMembers(init, pick, u);
      if exists k :: 0 <= k < |xs| && pick(xs[k]) == Some(u) {
        var k :| 0 <= k < |xs| && pick(xs[k]) == Some(u);
        if k < |init| {
          assert init[k] == xs[k];
        }
      }
      if exists k :: 0 <= k < |init| && pick(init[k]) == Some(u) {
        var k :| 0 <= k < |init| && pick(init[k]) == Some(u);
        assert xs[k] == init[k];
      }
    }
  }

  /** The encoder commands run, in order: one per file that was neither skipped nor found to be AV1. */
  function Encodes(files: seq<string>, ffmpegPath: string, sys: System, envOf: string -> FileEnv): seq<Command> {
    Gathered(files, (file: string) => ProcessFile(file, ffmpegPath, sys, envOf(file)).encode)
  }

  /** The three counters the driver prints at the end. */
  datatype Summary = Summary(succeeded: nat, failed: nat, skipped: nat)

  /** The counters as the multiplicities of each outcome. */
  function Tally(outs: seq<FileOutcome>): (s: Summary)
    ensures s.succeeded <= |outs| && s.failed <= |outs| && s.skipped <= |outs|
  {
    var m := multiset(outs);
    Summary(m[Succeeded], m[Failed], m[Skipped])
  }

  /** Every file lands in exactly one counter. */
  lemma {:induction false} TallyCoversAll(outs: seq<FileOutcome>)
    ensures Tally(outs).succeeded + Tally(outs).failed + Tally(outs).skipped == |outs|
    decreases |outs|
  {
    if outs != [] {
      var init := outs[..|outs| - 1];
      assert outs == init + [outs[|outs| - 1]];
      TallyCoversAll(init);
      TallyStep(init, outs[|outs| - 1]);
    }
  }

  /** Adding one more file adds one to its own counter and leaves the others alone. */
  lemma TallyStep(outs: seq<FileOutcome>, o: FileOutcome)
    ensures Tally(outs + [o]).succeeded == Tally(outs).succeeded + (if o == Succeeded then 1 else 0)
    ensures Tally(outs + [o]).failed == Tally(outs).failed + (if o == Failed then 1 else 0)
    ensures Tally(outs + [o]).skipped == Tally(outs).skipped + (if o == Skipped then 1 else 0)
  {
    assert multiset(outs + [o]) == multiset(outs) + multiset{o};
  }

  /** A command is run exactly when some file in the list gave rise to it. */
  lemma EncodesMembers(files: seq<string>, ffmpegPath: string, sys: System, envOf: string -> FileEnv, cmd: Command)
    ensures cmd in Encodes(files, ffmpegPath, sys, envOf) <==>
      exists k :: 0 <= k < |files| && ProcessFile(files[k], ffmpegPath, sys, envOf(files[k])).encode == Some(cmd)
  {
    GatheredMembers(files, (file: string) => ProcessFile(file, ffmpegPath, sys, envOf(file)).encode, cmd);
  }

  /** Processing one more file appends its command, if it has one. */
  lemma EncodesStep(files: seq<string>, i: nat, ffmpegPath: string, sys: System, envOf: string -> FileEnv)
    requires i < |files|
    ensures ProcessFile(files[i], ffmpegPath, sys, envOf(files[i])).encode.None? ==>
      Encodes(files[..i + 1], ffmpegPath, sys, envOf) == Encodes(files[..i], ffmpegPath, sys, envOf)
    ensures ProcessFile(files[i], ffmpegPath, sys, envOf(files[i])).encode.Some? ==>
      Encodes(files[..i + 1], ffmpegPath, sys, envOf) ==
      Encodes(files[..i], ffmpegPath, sys, envOf) + [ProcessFile(files[i], ffmpegPath, sys, envOf(files[i])).encode.value]
  {
    assert files[..i + 1][..i] == files[..i];
  }

  /** Every command the driver runs is the encoder on one of the found files. */
  lemma EncodesAreConversions(files: seq<string>, ffmpegPath: string, sys: System, envOf: string -> FileEnv, cmd: Command)
    requires cmd in Encodes(files, ffmpegPath, sys, envOf)
    ensures exists k :: 0 <= k < |files| && cmd == EncodeCommand(ffmpegPath, files[k])
  {
    EncodesMembers(files, ffmpegPath, sys, envOf, cmd);
    var k :| 0 <= k < |files| && ProcessFile(files[k], ffmpegPath, sys, envOf(files[k])).encode == Some(cmd);
    assert cmd == EncodeCommand(ffmpegPath, files[k]);
  }

  /**
   * One turn of the driver's loop, on the `i`-th file: its outcome is appended to the
   * outcomes so far and its encoder command, if any, to the commands so far.
   */
  method Turn(files: seq<string>, i: nat, ffmpegPath: string, sys: System, envOf: string -> FileEnv)
    returns (outcome: FileOutcome, encode: Option<Command>)
    requires i < |files|
    ensures Outcomes(files[..i + 1], ffmpegPath, sys, envOf) == Outcomes(files[..i], ffmpegPath, sys, envOf) + [outcome]
    ensures encode.None? ==> Encodes(files[..i + 1], ffmpegPath, sys, envOf) == Encodes(files[..i], ffmpegPath, sys, envOf)
    ensures encode.Some? ==>
      Encodes(files[..i + 1], ffmpegPath, sys, envOf) == Encodes(files[..i], ffmpegPath, sys, envOf) + [encode.value]
  {
    var result := ProcessFile(files[i], ffmpegPath, sys, envOf(files[i]));
    OutcomesStep(files, i, ffmpegPath, sys, envOf);
    EncodesStep(files, i, ffmpegPath, sys, envOf);
    outcome, encode := result.outcome, result.encode;
  }

  /**
   * The driver's loop over the found files: probe, skip or convert, and count.
   * Returns the three counters and the encoder commands in the order they were run.
   */
  method ConvertAll(files: seq<string>, ffmpegPath: string, sys: System, envOf: string -> FileEnv)
    returns (summary: Summary, encodes: seq<Command>)
    ensures summary == Tally(Outcomes(files, ffmpegPath, sys, envOf))
    ensures summary.succeeded + summary.failed + summary.skipped == |files|
    ensures encodes == Encodes(files, ffmpegPath, sys, envOf)
  {
    var successCount, errorCount, skippedCount := 0, 0, 0;
    encodes := [];
    assert files[..0] == [];
    assert Encodes(files[..0], ffmpegPath, sys, envOf) == [];
    for i := 0 to |files|
      invariant Summary(successCount, errorCount, skippedCount) == Tally(Outcomes(files[..i], ffmpegPath, sys, envOf))
      invariant encodes == Encodes(files[..i], ffmpegPath, sys, envOf)
    {
      var outcome, encode := Turn(files, i, ffmpegPath, sys, envOf);
      TallyStep(Outcomes(files[..i], ffmpegPath, sys, envOf), outcome);
      if encode.Some? {
        encodes := encodes + [encode.value];
      }
      match outcome
      case Skipped => skippedCount := skippedCount + 1;
      case Failed => errorCount := errorCount + 1;
      case Succeeded => successCount := successCount + 1;
    }
    assert files[..|files|] == files;
    summary := Summary(successCount, errorCount, skippedCount);
    TallyCoversAll(Outcomes(files, ffmpegPath, sys, envOf));
  }

  /** How a run of the program ends. */
  datatype RunReport =
    | ConfigFailed(configError: ConfigError)
    | SearchFailed(searchError: Scan.ScanError)
    | NoVideos
    | Finished(summary: Summary, encodes: seq<Command>)

  /**
   * `main`: a configuration or search error stops the program; no videos found ends it
   * without probing anything; otherwise every found file is processed and counted.
   * The configuration file, the base directory's listing and the walks of the date
   * directories are inputs.
   */
  method Run(
    src: ConfigSource, sys: System,
    listingOf: string -> Option<seq<Scan.DirEntry>>, walkOf: string -> Scan.DirWalk,
    envOf: string -> FileEnv)
    returns (report: RunReport)
    ensures LoadConfig(src, sys).Err? ==> report == ConfigFailed(LoadConfig(src, sys).error)
    ensures LoadConfig(src, sys).Ok? ==>
      var config := LoadConfig(src, sys).value;
      var found := Scan.FoundVideos(config.basePath, listingOf(config.basePath), walkOf);
      && (found.Err? ==> report == SearchFailed(found.error))
      && (found == Ok([]) ==> report == NoVideos)
      && (found.Ok? && found.value != [] ==>
            && report.Finished?
            && report.summary == Tally(Outcomes(found.value, config.ffmpegPath, sys, envOf))
            && report.summary.succeeded + report.summary.failed + report.summary.skipped == |found.value|
            && report.encodes == Encodes(found.value, config.ffmpegPath, sys, envOf))
  {
    var loaded := LoadConfig(src, sys);
    if loaded.Err? {
      return ConfigFailed(loaded.error);
    }
    var config := loaded.value;
    var found := Scan.FindVideoFiles(config.basePath, listingOf(config.basePath), walkOf);
    if found.Err? {
      return SearchFailed(found.error);
    }
    var videoFiles := found.value;
    if |videoFiles| == 0 {
      return NoVideos;
    }
    var summary, encodes := ConvertAll(videoFiles, config.ffmpegPath, sys, envOf);
    return Finished(summary, encodes);
  }

  /** A probe that fails never causes a skip: the file is converted or at least attempted. */
  lemma ProbeFailureIsFailOpen(file: string, ffmpegPath: string, sys: System, env: FileEnv)
    requires env.outerProbe.ProbeFailed? && env.innerProbe.ProbeFailed?
    ensures ProcessFile(file, ffmpegPath, sys, env).outcome != Skipped
    ensures ProcessFile(file, ffmpegPath, sys, env).encode == Some(EncodeCommand(ffmpegPath, file))
  {
  }

  /**
   * When the two probes disagree and only the second reports AV1, the file counts as a
   * success although nothing was encoded.
   */
  lemma InnerAV1CountsAsSuccess(file: string, ffmpegPath: string, sys: System, env: FileEnv)
    requires !ReportsAV1(env.outerProbe) && ReportsAV1(env.innerProbe)
    ensures ProcessFile(file, ffmpegPath, sys, env) == FileResult(Succeeded, None)
  {
  }
}
