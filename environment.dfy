/** What the three install scripts share: the package layout they work on, the
    host facts they read, the answers of the external commands they run, and
    the shape of one script execution. */
module Environment {
  import opened FileSystem

  /** `lib/whisper.cpp`, the cloned native source tree. */
  const WhisperDir: Path := ["lib", "whisper.cpp"]

  /** `lib/whisper.cpp/main`, the stable entry point. */
  const MainPath: Path := WhisperDir + ["main"]

  /** The build outputs, as link text relative to `lib/whisper.cpp`: the
      current name first, then the deprecated one. */
  const CliRel: Path := ["build", "bin", "whisper-cli"]
  const OldMainRel: Path := ["build", "bin", "main"]

  const CliPath: Path := WhisperDir + CliRel
  const OldMainPath: Path := WhisperDir + OldMainRel

  /** `process.platform === 'win32'` and `os.cpus().length`. */
  datatype Host = Host(isWindows: bool, cpus: nat)

  /** The answers of the external commands: whether `which make || where make`
      finds make, whether `make` succeeds and what it writes (whatever its
      status), whether `git clone` succeeds and what it writes on success. */
  datatype Oracle = Oracle(
    makeFound: bool,
    makeOk: bool,
    makeWrites: Fs,
    cloneOk: bool,
    cloneWrites: Fs)

  /** How a script ends: `process.exit(code)` (an uncaught exception is
      `Exit(1)`, as Node reports it), or running off its last statement. */
  datatype Outcome = Exit(code: int) | Completed
  {
    /** The status the parent process observes. */
    function Status(): int
    {
      if Exit? then code else 0
    }
  }

  /** The external commands a script starts, in order. */
  datatype Command = WhichMake | Make(jobs: nat) | Clone | RunBuildScript

  datatype Execution = Execution(fs: Fs, outcome: Outcome, log: seq<Command>)

  /** The paths of the layout are distinct, and the link text of each build
      output, written at `main`, designates that output. */
  lemma Layout()
    ensures Parent(MainPath) == WhisperDir
    ensures Resolve(MainPath, CliRel) == CliPath
    ensures Resolve(MainPath, OldMainRel) == OldMainPath
    ensures MainPath != CliPath && MainPath != OldMainPath && CliPath != OldMainPath
    ensures WhisperDir != MainPath && WhisperDir != CliPath && WhisperDir != OldMainPath
    ensures |MainPath| > 1
  {
    assert MainPath[..|MainPath| - 1] == WhisperDir;
    assert CliPath[4] == "whisper-cli" && OldMainPath[4] == "main";
  }
}
