/**
 * What the converter asks of the operating system, as values: the outcome of `os.Stat`,
 * whether `exec.LookPath` resolves a name, the target platform, and the command lines
 * it starts.
 */
module Os {

  /** What `os.Stat` reports for a path: it exists, it does not, or another error. */
  datatype StatResult = Exists | NotExist | StatFailed

  /** The parts of the machine the converter consults before running tools. */
  datatype System = System(
    stat: string -> StatResult,
    lookPath: string -> bool,
    windows: bool)

  /** A subprocess: the program and its argument vector (without the program name). */
  datatype Command = Command(program: string, args: seq<string>)
}
