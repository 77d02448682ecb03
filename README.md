# AV1 batch converter — a verified model

`convert_video_to_av1.go` is a small command-line tool. It converts a media archive to AV1,
and it runs in five steps:

1. It reads `config.json` (`BasePath`, `FfmpegPath`).
2. It finds the immediate sub-directories of `BasePath` whose names are eight digits
   (`yyyymmdd`).
3. It walks each of those directories and collects the files with a video container
   extension.
4. For every file it runs `ffprobe` to read the codec of the first video stream. Files
   already in AV1 are skipped. Every other file is handed to `ffmpeg`, which encodes it
   with the `av1_qsv` hardware encoder into `<dir>/<stem>_av1.mkv`.
5. It counts the conversions that succeeded, the ones that failed, and the skipped files.

This project models that pipeline in Dafny. The operating system is a set of input values:

- what `os.Stat` and `exec.LookPath` answer, and whether the platform is Windows (`Os.System`);
- what reading and decoding `config.json` produced (`Config.ConfigSource`);
- the listing of the base directory, and the sequence of callbacks each directory walk
  makes (`Scan.DirEntry`, `Scan.WalkEvent`, `Scan.DirWalk`);
- how each `ffprobe` run and each `ffmpeg` run ended (`Convert.ProbeRun`, `Convert.EncodeRun`).

Modules, in dependency order:

| module | file | models |
|---|---|---|
| `Wrappers` | `wrappers.dfy` | `Option` and `Result` |
| `Strings` | `strings.dfy` | the parts of Go's `strings` the tool uses: `ToLower` (ASCII), `TrimSuffix`, `Contains`, `TrimSpace` |
| `Paths` | `paths.dfy` | the parts of `path/filepath` the tool uses, with `/` as the separator: `Ext`, `Base`, `Dir`, `Join` |
| `Os` | `os.dfy` | stat results, PATH lookup, the platform flag, subprocess command lines |
| `Config` | `config.dfy` | `loadConfig` |
| `Scan` | `scan.dfy` | `isDateFormatDir`, `findVideosInDir`, `findVideoFiles` |
| `Convert` | `convert.dfy` | `getVideoCodec`, the AV1 skip test, output naming, `convertVideoToAV1` |
| `Controller` | `controller.dfy` | `main`: the per-file loop with its three counters |

Where the code is a loop that appends to a list or bumps counters, the model is a method with a
loop:

- `findVideosInDir` collects paths inside the walk callback (`Scan.FindVideosInDir`).
- `findVideoFiles` has two loops (`Scan.FindVideoFiles`).
- `main` has the counter loop (`Controller.ConvertAll`). One turn of its body, the probe and then the skip or the conversion, is the function `Controller.ProcessFile`. The loop runs it through the method `Controller.Turn`, which states the turn's effect on the outcomes and commands recorded so far.

Each of these methods is proved equal to a specification function. The properties are proved
about those functions.

Behaviour of the code that is easy to miss:

- The file loop in `main` probes a file, and then `convertVideoToAV1` probes the same file again.
  If the first probe does not say AV1 but the second one does, nothing is encoded and the file
  is counted as a success (`Controller.InnerAV1CountsAsSuccess`).
- `loadConfig` rejects a `BasePath` only when `os.Stat` says it does not exist. A path that
  `os.Stat` fails on for any other reason is accepted, and so is a path that is not a directory.
- The roots handed to the walk are `Join(BasePath, name)`, so a relative `BasePath` gives
  relative roots and relative file paths.
- The output file is always written into the input file's own directory.

## Model

| member | source | states |
|---|---|---|
| Strings.LowerChar | convert_video_to_av1.go:83 | upper-case ASCII letters map to their lower-case letter; every other character is unchanged |
| Strings.ToLower | convert_video_to_av1.go:83 | the result has the input's length, and each character is the input's character lower-cased |
| Strings.TrimSuffix | convert_video_to_av1.go:190 | when `s` ends with the suffix, the result followed by the suffix is `s`; otherwise the result is `s` |
| Strings.Contains | convert_video_to_av1.go:182 | a string contains only substrings no longer than itself, and it always contains the empty string |
| Strings.IsSpace | convert_video_to_av1.go:171 | every white-space character lies between tab and U+3000, the ideographic space |
| Strings.AsciiSpace | convert_video_to_av1.go:171 | among ASCII characters, white space is exactly tab, line feed, vertical tab, form feed, carriage return and space |
| Strings.SkipFrom | convert_video_to_av1.go:171 | the first index from `i` on whose character is kept: every character skipped over is removable |
| Strings.SkipBack | convert_video_to_av1.go:171 | the end of the slice once removable characters are taken off its end: every character taken off is removable and the last one kept is not |
| Strings.TrimSpace | convert_video_to_av1.go:171 | the result is a slice of the input with only white space outside it, and it neither starts nor ends with white space |
| Paths.LastIndex | convert_video_to_av1.go:83 | the index of the last occurrence of the character, or -1 exactly when it does not occur |
| Paths.Ext | convert_video_to_av1.go:83 | the extension is a suffix of the final path element; it is empty exactly when that element has no dot; otherwise it starts at the element's last dot |
| Paths.StripTrailingSeparators | convert_video_to_av1.go:188 | the result is a prefix of the input that does not end in `/`, and only separators were dropped |
| Paths.Base | convert_video_to_av1.go:188 | the base is never empty, and it is either the root `/` or a name without a separator |
| Paths.Dir | convert_video_to_av1.go:187 | the directory is never empty, and it is either the root `/` or a path that does not end in a separator |
| Paths.Join | convert_video_to_av1.go:191 | the joined path is never shorter than the name |
| Paths.JoinEndsWithName | convert_video_to_av1.go:191 | the joined path ends with the name that was joined on |
| Paths.BaseOfEntry | convert_video_to_av1.go:188 | for a path whose final element is not empty, `Base` is that element |
| Paths.FinalElementOfAppend | convert_video_to_av1.go:113 | the final element of `prefix/name` is `name` when `name` holds no separator |
| Paths.JoinDirInverse | convert_video_to_av1.go:142-143 | joining a name onto `Dir(p)` gives a path whose directory is `Dir(p)` and whose base is the name |
| Paths.LastIndexUnique | convert_video_to_av1.go:83 | an occurrence with no later occurrence is the one `LastIndex` finds |
| Paths.ExtOfName | convert_video_to_av1.go:189 | a dot-led, dot-free suffix of the final element is the extension |
| Paths.FinalElementOfName | convert_video_to_av1.go:188 | a name without a separator is its own final element |
| Paths.StripOneSeparator | convert_video_to_av1.go:187 | one trailing separator after a clean directory is stripped back to that directory |
| Paths.DirOfName | convert_video_to_av1.go:187 | a bare file name lies in `.` |
| Paths.DirOfRootChild | convert_video_to_av1.go:187 | the directory of `/name` is the root `/` |
| Paths.DirOfChild | convert_video_to_av1.go:187 | the directory of `dir/name` is `dir` |
| Paths.JoinChild | convert_video_to_av1.go:191 | joining a clean directory and a name puts exactly one separator between them |
| Paths.ExtOfSplitName | convert_video_to_av1.go:189 | when a file name splits as `stem + ext` with a well-formed extension, `Ext` returns `ext` |
| Paths.FinalElementHasNoSeparator | convert_video_to_av1.go:188 | the final element of a path holds no separator |
| Paths.ExtSplitsFinalElement | convert_video_to_av1.go:189-190 | the final element is what precedes the extension, followed by the extension |
| Scan.Repeat | convert_video_to_av1.go:69 | `n` copies of a character class |
| Scan.IsDateFormatDir | convert_video_to_av1.go:68-71 | a name that matches `^\d{8}$` is eight characters long |
| Scan.MatchString | convert_video_to_av1.go:70 | a pattern anchored at both ends matches exactly when it spans the whole name, one class per character |
| Scan.DateFormatDirIsEightDigits | convert_video_to_av1.go:68-71 | `^\d{8}$` accepts a name exactly when it is eight characters, all ASCII digits; there is no calendar check |
| Scan.DateFormatExamples | convert_video_to_av1.go:68-71 | `20240101` and `99999999` match; `2024-01-01`, `20240101file.txt`, `2024010` and a name with a trailing newline do not |
| Scan.IsVideoPath | convert_video_to_av1.go:82-84 | a file that qualifies has a dot in its final path element |
| Scan.VideoPathByExtension | convert_video_to_av1.go:82-84 | a file qualifies exactly when its lower-cased extension is one of the seven; a name without an extension never qualifies |
| Scan.MkvIsVideoExtension | convert_video_to_av1.go:21-29 | `.mkv`, the converter's own output extension, is one of the collected extensions |
| Scan.ExtensionExamples | convert_video_to_av1.go:21-29 | `.MKV`, `.Mp4` and `.webm` qualify after lower-casing; `.txt` does not |
| Scan.Selected | convert_video_to_av1.go:110-117 | selecting items never yields more names than there are items |
| Scan.SelectedAppend | convert_video_to_av1.go:111-117 | selection distributes over concatenation, so order is kept |
| Scan.SelectedStep | convert_video_to_av1.go:82-84 | one more item adds its name at the end exactly when it is accepted, and otherwise leaves the selection unchanged |
| Scan.SelectedMembers | convert_video_to_av1.go:111-117 | a name is selected exactly when some accepted item carries it |
| Scan.VideoPathsMembers | convert_video_to_av1.go:77-90 | a path is collected exactly when the walk visited it as a non-directory with a video extension |
| Scan.WalkErrorIsSkipped | convert_video_to_av1.go:78-81 | an error reported for one entry drops only that entry: the files before and after it are still collected, in order |
| Scan.FindVideosInDir | convert_video_to_av1.go:74-97 | a failed walk is an error; otherwise the result is the walk's video files in visiting order |
| Scan.DateRootsMembers | convert_video_to_av1.go:110-117 | a root is searched exactly when some listed entry is a directory with a date name and the root is `Join(basePath, name)` |
| Scan.DateRootsStep | convert_video_to_av1.go:111-117 | one more entry appends its root when it is a date-named directory and adds nothing otherwise |
| Scan.DateRootsAppend | convert_video_to_av1.go:111-117 | roots keep the order of the entries |
| Scan.ConcatAppend | convert_video_to_av1.go:125-133 | concatenating the files of the roots distributes over splitting the roots |
| Scan.ConcatMembers | convert_video_to_av1.go:125-133 | a path is in the concatenation exactly when some root produced it |
| Scan.FailedRootIsSkipped | convert_video_to_av1.go:127-131 | a root whose walk failed contributes nothing, and the roots after it are still searched |
| Scan.CollectedStep | convert_video_to_av1.go:126-132 | one more root appends that root's files when its walk succeeds and nothing when it fails |
| Scan.CollectedMembers | convert_video_to_av1.go:125-133 | a path is found exactly when the walk of some root collected it |
| Scan.FoundVideos | convert_video_to_av1.go:99-137 | the search is an error exactly when the base directory cannot be listed |
| Scan.FoundAreVideoFiles | convert_video_to_av1.go:99-137 | every path found is a video file, and it is among the files collected by the successful walk of some date-named root |
| Scan.NoDateRootsFindsNothing | convert_video_to_av1.go:119-122 | with no date-named directory, the result is an empty list and no error |
| Scan.FindVideoFiles | convert_video_to_av1.go:99-137 | an unreadable base directory is an error; otherwise the result is the date roots' files, root by root, in entry order |
| Config.FfmpegOrDefault | convert_video_to_av1.go:46-49 | an empty `FfmpegPath` becomes `ffmpeg`; any other value is kept |
| Config.LoadConfig | convert_video_to_av1.go:31-65 | each error case and its exact condition; success exactly when `BasePath` is set and not missing and the encoder is on PATH or exists; then the record has the defaulted encoder path |
| Config.LoadConfigSettled | convert_video_to_av1.go:42-62 | a configuration that was accepted is accepted again unchanged |
| Convert.JoinThenAppend | convert_video_to_av1.go:142-147 | appending `.exe` after joining equals joining the name with `.exe` |
| Convert.SiblingProbePath | convert_video_to_av1.go:141-147 | the prober path lies in the encoder's directory and its base is `ffprobe`, or `ffprobe.exe` on Windows |
| Convert.ProbePath | convert_video_to_av1.go:151-154 | when the sibling prober does not exist the bare `ffprobe` is used; otherwise the sibling is used |
| Convert.ProbeArgs | convert_video_to_av1.go:157-163 | the prober gets nine arguments, the file being probed last |
| Convert.GetVideoCodec | convert_video_to_av1.go:140-174 | the prober command is the fixed argument list on the chosen prober; the codec is an error exactly when the run failed; otherwise it is the prober's output with the surrounding white space trimmed, letter case kept |
| Convert.IsAV1 | convert_video_to_av1.go:182 | a failed probe never counts as AV1, and a codec that does is at least three characters long |
| Convert.ContainsAV1Lower | convert_video_to_av1.go:182 | the lower-cased string contains `av1` exactly when `av1` occurs in it in some mix of cases |
| Convert.AV1InSlice | convert_video_to_av1.go:171 | a slice bounded by white space holds an `av1` exactly when the whole string does |
| Convert.AV1IgnoresSurroundingSpace | convert_video_to_av1.go:171 | trimming the prober's output neither creates nor hides an `av1` |
| Convert.SkipDecision | convert_video_to_av1.go:179-185 | a file is treated as AV1 exactly when the prober ran and printed `av1` in some case; a failed probe never skips |
| Convert.SkipExamples | convert_video_to_av1.go:182 | `av1` and `libaom-AV1` skip; `h264` and a failed probe do not |
| Convert.OutputPath | convert_video_to_av1.go:187-191 | the output path always ends in `_av1.mkv` |
| Convert.StemThenExt | convert_video_to_av1.go:189-190 | the stem followed by the extension is the file name |
| Convert.StemIsTrimmedBase | convert_video_to_av1.go:188-190 | trimming the extension off `Base` gives the stem |
| Convert.StemHasNoSeparator | convert_video_to_av1.go:190 | the output name holds no separator |
| Convert.OutputPathFromStem | convert_video_to_av1.go:187-191 | for every path that names a file, the output is the input's directory joined with the input's stem followed by `_av1.mkv` |
| Convert.MkvName | convert_video_to_av1.go:190 | a name ending in `_av1.mkv` has extension `.mkv` and is itself a video file |
| Convert.OutputPathAlongsideInput | convert_video_to_av1.go:187-191 | the output is in the input's directory and named after its stem; it has extension `.mkv`; it is a file the scanner would collect; it is never the input itself |
| Convert.StemOfName | convert_video_to_av1.go:188-190 | for a file named `stem + ext`, the extension is `ext` and the stem is `stem` |
| Convert.OutputPathOfFileName | convert_video_to_av1.go:187-191 | a bare file `stem.ext` becomes `stem_av1.mkv`; only the last extension is replaced (`a.tar.gz` becomes `a.tar_av1.mkv`, `a` becomes `a_av1.mkv`) |
| Convert.OutputPathOfChildIsJoin | convert_video_to_av1.go:187-191 | for `dir/stem.ext`, the output is the input's directory joined with `stem_av1.mkv` |
| Convert.OutputPathInDirectory | convert_video_to_av1.go:187-191 | `dir/stem.ext` becomes `dir/stem_av1.mkv` (`/media/20240101/a.mp4` becomes `/media/20240101/a_av1.mkv`) |
| Convert.EncoderArgs | convert_video_to_av1.go:195-201 | the input follows `-i`; the output comes last, right after `-y` (overwrite without asking) |
| Convert.EncodeCommand | convert_video_to_av1.go:195-201 | the encoder runs as the configured program with eight arguments: the input second, the derived output last |
| Convert.ConvertVideoToAV1 | convert_video_to_av1.go:177-220 | the encoder is not run exactly when the file's own probe says AV1; when it runs it gets the fixed argument list with the derived output; it is an error exactly when the encoder ran and did not exit with status 0; the exit status is reported when there is one, and no status when the encoder could not be started |
| Controller.ProcessFile | convert_video_to_av1.go:244-260 | skipped exactly when the loop's probe says AV1; encoded exactly when neither probe says AV1; failed exactly when the encoder ran and did not exit with status 0 |
| Controller.Turn | convert_video_to_av1.go:244-260 | one turn appends the file's outcome to the outcomes so far, and its encoder command, if it has one, to the commands so far |
| Controller.Mapped | convert_video_to_av1.go:242-261 | one value per element |
| Controller.MappedAt | convert_video_to_av1.go:242-261 | the `k`-th value comes from the `k`-th element |
| Controller.OutcomesAt | convert_video_to_av1.go:242-261 | the `k`-th recorded outcome is the outcome of the `k`-th file |
| Controller.OutcomesStep | convert_video_to_av1.go:242-261 | processing one more file appends its outcome |
| Controller.Gathered | convert_video_to_av1.go:254 | at most one command per file |
| Controller.GatheredMembers | convert_video_to_av1.go:254 | a value is gathered exactly when some element yields it |
| Controller.Tally | convert_video_to_av1.go:242-263 | no counter exceeds the number of files |
| Controller.TallyCoversAll | convert_video_to_av1.go:242-263 | succeeded + failed + skipped equals the number of files |
| Controller.TallyStep | convert_video_to_av1.go:249-259 | each file increments exactly one counter |
| Controller.EncodesMembers | convert_video_to_av1.go:254 | a command is run exactly when some file in the list gave rise to it |
| Controller.EncodesStep | convert_video_to_av1.go:254 | processing one more file appends its encoder command, if it has one |
| Controller.EncodesAreConversions | convert_video_to_av1.go:195-201 | every command run is the encoder applied to one of the found files |
| Controller.ConvertAll | convert_video_to_av1.go:242-261 | the counters are the tally of the per-file outcomes and add up to the number of files; the commands are the per-file encodes in order |
| Controller.Run | convert_video_to_av1.go:222-265 | a configuration or search error stops the run; finding no files ends it; otherwise every file is processed and the counters add up to the number of files |
| Controller.ProbeFailureIsFailOpen | convert_video_to_av1.go:247-248 | when probing fails, the file is not skipped and the encoder is run on it |
| Controller.InnerAV1CountsAsSuccess | convert_video_to_av1.go:254 | when only the second probe says AV1, the file counts as a success and nothing is encoded |

## Left out

- Running subprocesses is not modelled. Each `ffprobe` and `ffmpeg` run is an input value: the prober's output or its failure, and the encoder's exit status or its failure to start. The model records the command line it would start.
- The text of log lines and error messages is not modelled, and neither are `log.Fatalf` and the process exit. Errors are datatype values.
- The filesystem is not modelled. `os.ReadFile`, `os.Stat`, `os.ReadDir` and `filepath.WalkDir` are inputs. The listing is taken in the order it is given, and so is the walk; `os.ReadDir`'s sorting by name is not modelled.
- `filepath.WalkDir` returns an error only when the callback returns one, and this callback never does. The failure branch of `findVideosInDir` therefore cannot happen; the model still keeps it, as the `WalkFailed` input.
- JSON decoding is not modelled. The model starts from the decoded record, where a missing field is the empty string.
- `runtime.GOOS` is the `windows` flag of `Os.System`.
- Strings.ToLower: lower-cases ASCII letters only; Go's `strings.ToLower` also maps the other Unicode upper-case letters. For the skip test this makes no difference, because no non-ASCII letter lower-cases to `a`, `v` or `1`.
- Scan.IsVideoPath: two non-ASCII letters lower-case to ASCII letters in Go: the Kelvin sign U+212A becomes `k` and U+0130 becomes `i`. Go therefore collects a file whose extension is `.m` + U+212A + `v` (as `.mkv`) or `.av` + U+0130 (as `.avi`). The model, with its ASCII-only `ToLower`, does not collect such files.
- Paths.Join: does not apply `filepath.Clean` to its result, so `.` and `..` elements, and doubled separators inside the directory, are kept as given.
- Paths.Dir: removes trailing separators but does not clean the rest of the path.
- Paths.Ext: `/` is the only separator. Windows `\` separators and volume names are not modelled.
- Convert.ConvertVideoToAV1: an encoder killed by a signal is modelled as an exit with a non-zero status. The stderr text carried by Go's `*exec.ExitError` is not modelled.
