/** scripts/build_whsiper.js (the file name carries the typo): the older build
    script. It skips only when a build output AND `main` exist, runs make with
    at least two jobs and without probing for it, and after make replaces
    only a link at `main`, by a link, with no copy fallback: any error there
    ends the script with status 1. */
module BuildWhsiper {
  import opened FileSystem
  import opened Environment
  import BuildWhisper

  /** `Math.max(2, Math.floor(cpus * 0.75))`. */
  function Jobs(cpus: nat): (jobs: nat)
    ensures jobs >= 2
    ensures 3 * cpus < 8 ==> jobs == 2
    ensures 3 * cpus >= 8 ==> 4 * jobs <= 3 * cpus < 4 * jobs + 4
  {
    if 3 * cpus / 4 >= 2 then 3 * cpus / 4 else 2
  }

  /** The skip test of the script. */
  predicate AlreadyBuilt(fs: Fs)
    ensures AlreadyBuilt(fs) ==> MainPath in fs && (CliPath in fs || OldMainPath in fs)
  {
    (Exists(fs, CliPath) || Exists(fs, OldMainPath)) && Exists(fs, MainPath)
  }

  /** What follows a successful make: a `main` that exists and is a link is
      removed; then, when `main` does not exist, a link to `whisper-cli` is
      created, or to `build/bin/main` whether or not that exists. */
  function Relink(fs: Fs, failing: set<Syscall>): (r: Execution)
    ensures r.log == [] && (r.outcome == Completed || r.outcome == Exit(1))
    ensures r.outcome == Completed ==> MainPath in r.fs
    ensures MainPath in fs && !fs[MainPath].Symlink? ==> r == Execution(fs, Completed, [])
  {
    var cleared :=
      if Exists(fs, MainPath) && fs[MainPath].Symlink? then Attempt(failing, UnlinkCall, AfterUnlink(fs, MainPath))
      else Some(fs);
    match cleared
    case None => Execution(fs, Exit(1), [])
    case Some(fs1) =>
      if Exists(fs1, MainPath) then Execution(fs1, Completed, [])
      else
        var target := if Exists(fs1, CliPath) then CliRel else OldMainRel;
        match Attempt(failing, SymlinkCall, AfterSymlink(fs1, target, MainPath))
        case None => Execution(fs1, Exit(1), [])
        case Some(fs2) => Execution(fs2, Completed, [])
  }

  /** The whole script. */
  function Script(fs: Fs, failing: set<Syscall>, host: Host, oracle: Oracle): (r: Execution)
    ensures forall c | c in r.log :: c.Make?
    ensures r.outcome == Exit(1) || r.outcome.Status() == 0
  {
    if !Exists(fs, WhisperDir) then
      Execution(fs, Exit(1), [])
    else if AlreadyBuilt(fs) then
      Execution(fs, Exit(0), [])
    else
      var log := [Make(Jobs(host.cpus))];
      var built := fs + oracle.makeWrites;
      if !oracle.makeOk then Execution(built, Exit(1), log)
      else
        var relinked := Relink(built, failing);
        Execution(relinked.fs, relinked.outcome, log)
  }

  /** The script, statement by statement. */
  method Run(disk: Disk, host: Host, oracle: Oracle) returns (outcome: Outcome, log: seq<Command>)
    modifies disk
    ensures Execution(disk.entries, outcome, log) == Script(old(disk.entries), disk.failing, host, oracle)
  {
    log := [];
    if !Exists(disk.entries, WhisperDir) {
      return Exit(1), log;
    }
    if (Exists(disk.entries, CliPath) || Exists(disk.entries, OldMainPath)) && Exists(disk.entries, MainPath) {
      return Exit(0), log;
    }
    // try
    var jobs := Jobs(host.cpus);
    log := log + [Make(jobs)];
    disk.ApplyWrites(oracle.makeWrites);
    if !oracle.makeOk {
      return Exit(1), log;
    }
    outcome := RelinkMain(disk);
  }

  /** Lines after a successful make, statement by statement. */
  method RelinkMain(disk: Disk) returns (outcome: Outcome)
    modifies disk
    ensures Execution(disk.entries, outcome, []) == Relink(old(disk.entries), disk.failing)
  {
    if Exists(disk.entries, MainPath) && disk.entries[MainPath].Symlink? {
      var removed := disk.UnlinkSync(MainPath);
      if !removed {
        return Exit(1);
      }
    }
    if !Exists(disk.entries, MainPath) {
      var target := if Exists(disk.entries, CliPath) then CliRel else OldMainRel;
      var linked := disk.SymlinkSync(target, MainPath);
      if !linked {
        return Exit(1);
      }
    }
    outcome := Completed;
  }

  /** A missing tree ends the script with status 1, before any command and
      without any change. */
  lemma MissingTreeExits(fs: Fs, failing: set<Syscall>, host: Host, oracle: Oracle)
    requires !Exists(fs, WhisperDir)
    ensures Script(fs, failing, host, oracle) == Execution(fs, Exit(1), [])
  {
  }

  /** For a tree that exists, make is skipped exactly when a build output and
      `main` both exist; skipping changes nothing and exits with status 0. */
  lemma SkipsExactlyWhenBuiltAndLinked(fs: Fs, failing: set<Syscall>, host: Host, oracle: Oracle)
    requires Exists(fs, WhisperDir)
    ensures var r := Script(fs, failing, host, oracle);
            (r.log == [] <==> AlreadyBuilt(fs)) &&
            (AlreadyBuilt(fs) ==> r == Execution(fs, Exit(0), []))
  {
  }

  /** This skip test is stricter than the one of build-whisper.js: whenever it
      skips make on a tree that build-whisper.js accepts, build-whisper.js
      skips make too; a built `whisper-cli` with no `main` yet is skipped by
      build-whisper.js and rebuilt here. */
  lemma SkipIsStricter(fs: Fs, failing: set<Syscall>, host: Host, oracle: Oracle)
    requires BuildWhisper.TreeReady(fs, failing)
    ensures Script(fs, failing, host, oracle).log == [] ==> BuildWhisper.Script(fs, failing, host, oracle).log == []
    ensures Exists(fs, CliPath) && MainPath !in fs ==>
              BuildWhisper.Script(fs, failing, host, oracle).log == [] &&
              Script(fs, failing, host, oracle).log == [Make(Jobs(host.cpus))]
  {
  }

  /** At least two jobs, so more jobs than cores on a host reporting at most
      one core, and never more than the cores otherwise. */
  lemma JobsExceedCpus(cpus: nat)
    ensures Jobs(cpus) > cpus <==> cpus <= 1
    ensures cpus >= 2 ==> Jobs(cpus) <= cpus
  {
  }

  /** The two job counts differ only on hosts with fewer than three cores,
      where this script asks for two jobs and build-whisper.js for one. */
  lemma JobsComparedWithBuildWhisper(cpus: nat)
    ensures Jobs(cpus) >= BuildWhisper.Jobs(cpus)
    ensures Jobs(cpus) == BuildWhisper.Jobs(cpus) <==> cpus >= 3
    ensures cpus < 3 ==> Jobs(cpus) == 2 && BuildWhisper.Jobs(cpus) == 1
  {
  }

  /** A failing make ends the script with status 1 and no link is made. */
  lemma MakeFailureIsFatal(fs: Fs, failing: set<Syscall>, host: Host, oracle: Oracle)
    requires Exists(fs, WhisperDir) && !AlreadyBuilt(fs)
    requires !oracle.makeOk
    ensures Script(fs, failing, host, oracle) == Execution(fs + oracle.makeWrites, Exit(1), [Make(Jobs(host.cpus))])
  {
  }

  /** After make, a regular file or a directory at `main` is kept as it is and
      no link is created. */
  lemma KeepsFileOrDirectory(fs: Fs, failing: set<Syscall>, host: Host, oracle: Oracle)
    requires Exists(fs, WhisperDir) && !AlreadyBuilt(fs) && oracle.makeOk
    requires var built := fs + oracle.makeWrites;
             MainPath in built && !built[MainPath].Symlink?
    ensures Script(fs, failing, host, oracle) == Execution(fs + oracle.makeWrites, Completed, [Make(Jobs(host.cpus))])
  {
  }

  /** After make, a dangling link at `main` is not removed (`existsSync` does
      not see it), so creating the new link fails on the occupied name and the
      script exits with status 1. */
  lemma DanglingMainIsFatal(fs: Fs, failing: set<Syscall>, host: Host, oracle: Oracle)
    requires Exists(fs, WhisperDir) && !AlreadyBuilt(fs) && oracle.makeOk
    requires var built := fs + oracle.makeWrites;
             MainPath in built && !Exists(built, MainPath)
    ensures Script(fs, failing, host, oracle) == Execution(fs + oracle.makeWrites, Exit(1), [Make(Jobs(host.cpus))])
  {
  }

  /** After make, with `main` free and the tree a directory, `main` becomes a
      link to `whisper-cli` if that exists and to `build/bin/main` otherwise;
      with neither built, that link dangles and the script still reports
      success. A link that cannot be made is fatal: there is no copy fallback. */
  lemma LinksChosenTarget(fs: Fs, failing: set<Syscall>, host: Host, oracle: Oracle)
    requires Exists(fs, WhisperDir) && !AlreadyBuilt(fs) && oracle.makeOk
    requires var built := fs + oracle.makeWrites;
             MainPath !in built && WhisperDir in built && built[WhisperDir] == Dir
    ensures var built := fs + oracle.makeWrites;
            var r := Script(fs, failing, host, oracle);
            var target := if Exists(built, CliPath) then CliRel else OldMainRel;
            && r.log == [Make(Jobs(host.cpus))]
            && (SymlinkCall in failing ==> r == Execution(built, Exit(1), r.log))
            && (SymlinkCall !in failing ==> r == Execution(built[MainPath := Symlink(target)], Completed, r.log))
            && (SymlinkCall !in failing && CliPath !in built && OldMainPath !in built ==>
                  r.outcome == Completed && r.fs[MainPath] == Symlink(OldMainRel) && !Exists(r.fs, MainPath))
  {
    Layout();
    var built := fs + oracle.makeWrites;
    assert ParentIsDirectory(built, MainPath);
    if SymlinkCall !in failing && CliPath !in built && OldMainPath !in built {
      var linked := built[MainPath := Symlink(OldMainRel)];
      assert Resolve(MainPath, OldMainRel) == OldMainPath;
      assert Final(linked, MainPath) == Some(OldMainPath);
    }
  }
}
