/**
 * `loadConfig`: the decoded `config.json` record is validated against the machine.
 * Reading and JSON decoding are inputs (`ConfigSource`); `os.Stat` and `exec.LookPath`
 * come from the `System` value.
 */
module Config {
  import opened Wrappers
  import opened Os

  /** The two settings of `config.json`; a field missing from the JSON is "". */
  datatype Config = Config(basePath: string, ffmpegPath: string)

  /** What reading and decoding `config.json` produced. */
  datatype ConfigSource = Unreadable | Malformed | Decoded(config: Config)

  datatype ConfigError =
    | ReadFailed
    | ParseFailed
    | MissingBasePath
    | BasePathNotFound
    | FfmpegNotFound
    | FfmpegStatFailed

  /** The encoder used when `FfmpegPath` is empty, found through PATH. */
  const DefaultFfmpeg := "ffmpeg"

  /** `FfmpegPath` after defaulting: an empty setting becomes "ffmpeg", any other is kept. */
  function FfmpegOrDefault(ffmpegPath: string): (r: string)
    ensures r != []
    ensures ffmpegPath == [] ==> r == DefaultFfmpeg
    ensures ffmpegPath != [] ==> r == ffmpegPath
  {
    if ffmpegPath == "" then DefaultFfmpeg else ffmpegPath
  }

  /** The encoder can be run: PATH resolves it, or a file exists at that path. */
  predicate EncoderLocatable(sys: System, ffmpegPath: string) {
    sys.lookPath(ffmpegPath) || sys.stat(ffmpegPath) == Exists
  }

  /**
   * `loadConfig`. A `BasePath` that `os.Stat` fails on for a reason other than
   * non-existence is accepted, as is an encoder that exists but is not on PATH.
   */
  function LoadConfig(src: ConfigSource, sys: System): (r: Result<Config, ConfigError>)
    ensures src.Unreadable? ==> r == Err(ReadFailed)
    ensures src.Malformed? ==> r == Err(ParseFailed)
    ensures src.Decoded? && src.config.basePath == "" ==> r == Err(MissingBasePath)
    ensures r == Err(BasePathNotFound) <==>
      src.Decoded? && src.config.basePath != "" && sys.stat(src.config.basePath) == NotExist
    ensures r == Err(FfmpegNotFound) <==>
      && src.Decoded? && src.config.basePath != "" && sys.stat(src.config.basePath) != NotExist
      && !sys.lookPath(FfmpegOrDefault(src.config.ffmpegPath))
      && sys.stat(FfmpegOrDefault(src.config.ffmpegPath)) == NotExist
    ensures r == Err(FfmpegStatFailed) <==>
      && src.Decoded? && src.config.basePath != "" && sys.stat(src.config.basePath) != NotExist
      && !sys.lookPath(FfmpegOrDefault(src.config.ffmpegPath))
      && sys.stat(FfmpegOrDefault(src.config.ffmpegPath)) == StatFailed
    ensures r.Ok? <==>
      && src.Decoded?
      && src.config.basePath != ""
      && sys.stat(src.config.basePath) != NotExist
      && EncoderLocatable(sys, FfmpegOrDefault(src.config.ffmpegPath))
    ensures r.Ok? ==> r.value == Config(src.config.basePath, FfmpegOrDefault(src.config.ffmpegPath))
  {
    match src
    case Unreadable => Err(ReadFailed)
    case Malformed => Err(ParseFailed)
    case Decoded(config) =>
      if config.basePath == "" then Err(MissingBasePath)
      else
        var ffmpegPath := FfmpegOrDefault(config.ffmpegPath);
        if sys.stat(config.basePath) == NotExist then Err(BasePathNotFound)
        else if !sys.lookPath(ffmpegPath) && sys.stat(ffmpegPath) == NotExist then Err(FfmpegNotFound)
        else if !sys.lookPath(ffmpegPath) && sys.stat(ffmpegPath) == StatFailed then Err(FfmpegStatFailed)
        else Ok(config.(ffmpegPath := ffmpegPath))
  }

  /** A configuration `loadConfig` accepted is accepted again, unchanged, on the same machine. */
  lemma LoadConfigSettled(src: ConfigSource, sys: System)
    requires LoadConfig(src, sys).Ok?
    ensures LoadConfig(Decoded(LoadConfig(src, sys).value), sys) == LoadConfig(src, sys)
  {
  }
}
