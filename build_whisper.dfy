/** scripts/build-whisper.js: checks that the source tree is present and
    populated, skips `make` when a build output already exists, otherwise
    probes for make and runs it, and finally publishes the build output at
    `lib/whisper.cpp/main` (`createSymlink`), a step whose errors are only
    ever warnings. */
module BuildWhisper {
  import opened FileSystem
  import opened Environment

  /** `Math.max(1, Math.floor(cpus * 0.75))`. 0.75 is exact in binary
      floating point, so the product is exact for any core count. */
  function Jobs(cpus: nat): (jobs: nat)
    ensures jobs >= 1
    ensures cpus >= 1 ==> jobs <= cpus
    ensures 3 * cpus < 4 ==> jobs == 1
    ensures 3 * cpus >= 4 ==> 4 * jobs <= 3 * cpus < 4 * jobs + 4
  {
    if 3 * cpus / 4 >= 1 then 3 * cpus / 4 else 1
  }

  /** Where `createSymlink` stops. */
  datatype PublishState =
    | KeptExisting          // `main` is neither a file nor a link: left alone
    | NoCandidate           // no build output found: warning
    | Linked(target: Path)  // `main` is a link with this text
    | Copied(source: Path)  // the output at this relative path was copied
    | Failed                // an fs call threw: warning

  datatype Publication = Publication(fs: Fs, state: PublishState)

  /** The build output `createSymlink` picks, as its path relative to
      `lib/whisper.cpp`: `whisper-cli` first, then the deprecated `main`. */
  function Candidate(fs: Fs): (rel: Option<Path>)
    ensures rel == Some(CliRel) <==> Exists(fs, CliPath)
    ensures rel == Some(OldMainRel) <==> !Exists(fs, CliPath) && Exists(fs, OldMainPath)
    ensures rel.Some? ==> Exists(fs, WhisperDir + rel.value)
  {
    if Exists(fs, CliPath) then Some(CliRel)
    else if Exists(fs, OldMainPath) then Some(OldMainRel)
    else None
  }

  /** `createSymlink` once `main` has been cleared: link to the chosen output
      (never on Windows), and copy it when the link throws or on Windows. On
      Windows a failed copy is retried once by the catch block; the retry
      meets the same file system and fails again. */
  function Install(fs: Fs, failing: set<Syscall>, isWindows: bool): (r: Publication)
    ensures r.state == NoCandidate <==> Candidate(fs).None?
    ensures r.state.Linked? ==> !isWindows && Some(r.state.target) == Candidate(fs) && r.fs == fs[MainPath := Symlink(r.state.target)]
    ensures r.state.Copied? ==> Some(r.state.source) == Candidate(fs)
    ensures r.state in {NoCandidate, Failed} ==> r.fs == fs
    ensures r.state != KeptExisting
  {
    match Candidate(fs)
    case None => Publication(fs, NoCandidate)
    case Some(rel) =>
      var link := if isWindows then None else Attempt(failing, SymlinkCall, AfterSymlink(fs, rel, MainPath));
      var copy := Attempt(failing, CopyFileCall, AfterCopyFile(fs, WhisperDir + rel, MainPath));
      if link.Some? then Publication(link.value, Linked(rel))
      else if copy.Some? then Publication(copy.value, Copied(rel))
      else Publication(fs, Failed)
  }

  /** `createSymlink`: a `main` that exists (links followed) is removed when
      `lstatSync` shows a file or a link, and left alone otherwise. A dangling
      `main` does not exist for `existsSync`, so it is not removed. */
  function Publish(fs: Fs, failing: set<Syscall>, isWindows: bool): (r: Publication)
    ensures r.state == KeptExisting <==> MainPath in fs && fs[MainPath].Dir?
    ensures r.state == KeptExisting ==> r.fs == fs
    ensures r.state.Linked? ==> !isWindows && MainPath in r.fs && r.fs[MainPath] == Symlink(r.state.target)
  {
    if !Exists(fs, MainPath) then
      Install(fs, failing, isWindows)
    else if fs[MainPath].Symlink? || fs[MainPath].File? then
      match Attempt(failing, UnlinkCall, AfterUnlink(fs, MainPath))
      case None => Publication(fs, Failed)
      case Some(cleared) => Install(cleared, failing, isWindows)
    else
      Publication(fs, KeptExisting)
  }

  /** The tree passes the two checks at the top of the script: it exists, it
      can be listed, and it holds something besides `.git` and `.gitkeep`. */
  predicate TreeReady(fs: Fs, failing: set<Syscall>)
    ensures TreeReady(fs, failing) ==> IsDirectory(fs, WhisperDir) && ReaddirCall !in failing
  {
    Exists(fs, WhisperDir) &&
    match Attempt(failing, ReaddirCall, ListDir(fs, WhisperDir))
    case None => false
    case Some(names) => names - {".git", ".gitkeep"} != {}
  }

  /** The whole script. */
  function Script(fs: Fs, failing: set<Syscall>, host: Host, oracle: Oracle): (r: Execution)
    ensures forall c | c in r.log :: c == WhichMake || c.Make?
    ensures r.outcome == Exit(1) || r.outcome.Status() == 0
  {
    if !TreeReady(fs, failing) then
      Execution(fs, Exit(1), [])
    else if Exists(fs, CliPath) || Exists(fs, OldMainPath) then
      Execution(Publish(fs, failing, host.isWindows).fs, Exit(0), [])
    else if !oracle.makeFound then
      Execution(fs, Exit(1), [WhichMake])
    else
      var log := [WhichMake, Make(Jobs(host.cpus))];
      var built := fs + oracle.makeWrites;
      if !oracle.makeOk then Execution(built, Exit(1), log)
      else Execution(Publish(built, failing, host.isWindows).fs, Completed, log)
  }

  /** `createSymlink`, statement by statement. */
  method CreateSymlink(disk: Disk, isWindows: bool) returns (state: PublishState)
    modifies disk
    ensures Publication(disk.entries, state) == Publish(old(disk.entries), disk.failing, isWindows)
  {
    if Exists(disk.entries, MainPath) {
      var stats := disk.entries[MainPath];
      if stats.Symlink? || stats.File? {
        var removed := disk.UnlinkSync(MainPath);
        if !removed {
          return Failed;
        }
      } else {
        return KeptExisting;
      }
    }
    var targetRel: Path;
    if Exists(disk.entries, CliPath) {
      targetRel := CliRel;
    } else if Exists(disk.entries, OldMainPath) {
      targetRel := OldMainRel;
    } else {
      return NoCandidate;
    }
    var targetPath := WhisperDir + targetRel;
    // try: a link everywhere but on Windows, a copy on Windows
    if !isWindows {
      var linked := disk.SymlinkSync(targetRel, MainPath);
      if linked {
        return Linked(targetRel);
      }
    } else {
      var copied := disk.CopyFileSync(targetPath, MainPath);
      if copied {
        return Copied(targetRel);
      }
    }
    // catch: copy instead
    var copied := disk.CopyFileSync(targetPath, MainPath);
    state := if copied then Copied(targetRel) else Failed;
  }

  /** The script, statement by statement. */
  method Run(disk: Disk, host: Host, oracle: Oracle) returns (outcome: Outcome, log: seq<Command>)
    modifies disk
    ensures Execution(disk.entries, outcome, log) == Script(old(disk.entries), disk.failing, host, oracle)
  {
    log := [];
    if !Exists(disk.entries, WhisperDir) {
      return Exit(1), log;
    }
    var listing := disk.ReaddirSync(WhisperDir);
    if listing.None? {
      // thrown outside any try block: Node exits with status 1
      return Exit(1), log;
    }
    var whisperFiles := listing.value - {".git", ".gitkeep"};
    if whisperFiles == {} {
      return Exit(1), log;
    }
    if Exists(disk.entries, CliPath) || Exists(disk.entries, OldMainPath) {
      var _ := CreateSymlink(disk, host.isWindows);
      return Exit(0), log;
    }
    log := log + [WhichMake];
    if !oracle.makeFound {
      return Exit(1), log;
    }
    var jobs := Jobs(host.cpus);
    log := log + [Make(jobs)];
    disk.ApplyWrites(oracle.makeWrites);
    if !oracle.makeOk {
      return Exit(1), log;
    }
    var _ := CreateSymlink(disk, host.isWindows);
    outcome := Completed;
  }

  // ---- The top-level checks ----

  /** A missing, unreadable or empty tree (nothing but `.git` and `.gitkeep`)
      ends the script with status 1, before any command and without any change. */
  lemma TreeNotReadyExits(fs: Fs, failing: set<Syscall>, host: Host, oracle: Oracle)
    requires !Exists(fs, WhisperDir) || ListDir(fs, WhisperDir).None? || ReaddirCall in failing ||
             ListDir(fs, WhisperDir).value <= {".git", ".gitkeep"}
    ensures Script(fs, failing, host, oracle) == Execution(fs, Exit(1), [])
  {
  }

  /** When either build output exists, make is neither probed nor run: only
      `createSymlink` runs, and the script exits with status 0. */
  lemma PrebuiltSkipsMake(fs: Fs, failing: set<Syscall>, host: Host, oracle: Oracle)
    requires TreeReady(fs, failing)
    requires Exists(fs, CliPath) || Exists(fs, OldMainPath)
    ensures Script(fs, failing, host, oracle) == Execution(Publish(fs, failing, host.isWindows).fs, Exit(0), [])
  {
  }

  /** Once the tree is ready, the status is non-zero exactly when make is
      missing or fails: whatever goes wrong while publishing is only a warning. */
  lemma OnlyMakeIsFatal(fs: Fs, failing: set<Syscall>, host: Host, oracle: Oracle)
    requires TreeReady(fs, failing)
    ensures var r := Script(fs, failing, host, oracle);
            (r.outcome.Status() != 0 <==>
               !Exists(fs, CliPath) && !Exists(fs, OldMainPath) && (!oracle.makeFound || !oracle.makeOk)) &&
            (Make(Jobs(host.cpus)) in r.log <==>
               !Exists(fs, CliPath) && !Exists(fs, OldMainPath) && oracle.makeFound)
  {
  }

  // ---- createSymlink ----

  /** `main` holding a directory is never touched, and nothing is created. */
  lemma PublishKeepsDirectory(fs: Fs, failing: set<Syscall>, isWindows: bool)
    requires MainPath in fs && fs[MainPath] == Dir
    ensures Publish(fs, failing, isWindows) == Publication(fs, KeptExisting)
  {
  }

  /** `createSymlink` changes no existing entry but `main`: it removes `main`,
      creates it, or writes a new file where a dangling `main` points. */
  lemma PublishTouchesOnlyMain(fs: Fs, failing: set<Syscall>, isWindows: bool)
    ensures var r := Publish(fs, failing, isWindows).fs;
            forall p | p in fs && p != MainPath :: p in r && r[p] == fs[p]
  {
    if !Exists(fs, MainPath) {
      InstallTouchesOnlyMain(fs, failing, isWindows);
    } else if Attempt(failing, UnlinkCall, AfterUnlink(fs, MainPath)).Some? {
      InstallTouchesOnlyMain(fs - {MainPath}, failing, isWindows);
    }
  }

  lemma InstallTouchesOnlyMain(fs: Fs, failing: set<Syscall>, isWindows: bool)
    requires MainPath in fs ==> !Exists(fs, MainPath)
    ensures var r := Install(fs, failing, isWindows).fs;
            forall p | p in fs && p != MainPath :: p in r && r[p] == fs[p]
  {
    var r := Install(fs, failing, isWindows);
    if r.state.Copied? {
      var d := Final(fs, MainPath).value;
      assert d == MainPath || d !in fs;
    }
  }

  /** A file or link at `main` is removed first; when no build output exists
      once it is gone, `main` ends up absent. */
  lemma PublishClearsStale(fs: Fs, failing: set<Syscall>, isWindows: bool)
    requires Exists(fs, MainPath) && (fs[MainPath].File? || fs[MainPath].Symlink?)
    requires UnlinkCall !in failing
    requires Candidate(fs - {MainPath}) == None
    ensures Publish(fs, failing, isWindows) == Publication(fs - {MainPath}, NoCandidate)
  {
  }

  /** A dangling `main` is not removed, since `existsSync` does not see it:
      the link call then fails on the occupied name and the copy, if it
      succeeds, writes through the old link. `main` itself stays as it was. */
  lemma PublishKeepsDanglingMain(fs: Fs, failing: set<Syscall>, isWindows: bool)
    requires MainPath in fs && !Exists(fs, MainPath)
    ensures var r := Publish(fs, failing, isWindows);
            MainPath in r.fs && r.fs[MainPath] == fs[MainPath] && !r.state.Linked?
  {
    var r := Publish(fs, failing, isWindows);
    if r.state.Copied? {
      assert Final(fs, MainPath).value !in fs;
    }
  }

  /** With `whisper-cli` built as a file, `main` ends up referring to it,
      whether or not the deprecated `build/bin/main` exists too: a relative
      link off Windows, a copy on Windows or when the link throws, and in
      either case reading `main` yields the bytes of `whisper-cli`. */
  lemma PublishPrefersWhisperCli(fs: Fs, failing: set<Syscall>, isWindows: bool)
    requires WhisperDir in fs && fs[WhisperDir] == Dir
    requires CliPath in fs && fs[CliPath].File?
    requires MainPath !in fs || (Exists(fs, MainPath) && !fs[MainPath].Dir? && UnlinkCall !in failing)
    ensures var r := Publish(fs, failing, isWindows);
            && (!isWindows && SymlinkCall !in failing ==>
                  r.state == Linked(CliRel) && r.fs[MainPath] == Symlink(CliRel))
            && ((isWindows || SymlinkCall in failing) && CopyFileCall !in failing ==>
                  r.state == Copied(CliRel) && r.fs[MainPath] == fs[CliPath])
            && (r.state.Linked? || r.state.Copied? ==> Read(r.fs, MainPath) == Some(fs[CliPath].content))
            && (r.state == Failed <==> (isWindows || SymlinkCall in failing) && CopyFileCall in failing)
  {
    Layout();
    var cleared := if MainPath in fs then fs - {MainPath} else fs;
    assert Publish(fs, failing, isWindows) == Install(cleared, failing, isWindows);
    PublishReachesCandidate(cleared, failing, isWindows, CliRel);
  }

  /** With `whisper-cli` absent and `build/bin/main` built as a file, `main`
      ends up referring to `build/bin/main` in the same way. */
  lemma PublishFallsBackToOldMain(fs: Fs, failing: set<Syscall>, isWindows: bool)
    requires WhisperDir in fs && fs[WhisperDir] == Dir
    requires CliPath !in fs
    requires OldMainPath in fs && fs[OldMainPath].File?
    requires MainPath !in fs || (Exists(fs, MainPath) && !fs[MainPath].Dir? && UnlinkCall !in failing)
    ensures var r := Publish(fs, failing, isWindows);
            && (!isWindows && SymlinkCall !in failing ==>
                  r.state == Linked(OldMainRel) && r.fs[MainPath] == Symlink(OldMainRel))
            && ((isWindows || SymlinkCall in failing) && CopyFileCall !in failing ==>
                  r.state == Copied(OldMainRel) && r.fs[MainPath] == fs[OldMainPath])
            && (r.state.Linked? || r.state.Copied? ==> Read(r.fs, MainPath) == Some(fs[OldMainPath].content))
  {
    Layout();
    var cleared := if MainPath in fs then fs - {MainPath} else fs;
    assert Publish(fs, failing, isWindows) == Install(cleared, failing, isWindows);
    PublishReachesCandidate(cleared, failing, isWindows, OldMainRel);
  }

  /** `Install` on a tree whose `main` is free and whose chosen output is a file. */
  lemma PublishReachesCandidate(fs: Fs, failing: set<Syscall>, isWindows: bool, rel: Path)
    requires WhisperDir in fs && fs[WhisperDir] == Dir && MainPath !in fs
    requires Candidate(fs) == Some(rel)
    requires WhisperDir + rel in fs && fs[WhisperDir + rel].File?
    ensures var r := Install(fs, failing, isWindows);
            && (!isWindows && SymlinkCall !in failing ==>
                  r.state == Linked(rel) && r.fs == fs[MainPath := Symlink(rel)])
            && ((isWindows || SymlinkCall in failing) && CopyFileCall !in failing ==>
                  r.state == Copied(rel) && r.fs == fs[MainPath := fs[WhisperDir + rel]])
            && (r.state.Linked? || r.state.Copied? ==> Read(r.fs, MainPath) == Some(fs[WhisperDir + rel].content))
            && (r.state == Failed <==> (isWindows || SymlinkCall in failing) && CopyFileCall in failing)
  {
    Layout();
    var src := WhisperDir + rel;
    var r := Install(fs, failing, isWindows);
    assert ParentIsDirectory(fs, MainPath);
    assert Read(fs, src) == Some(fs[src].content);
    assert Final(fs, MainPath) == Some(MainPath);
    if r.state.Linked? {
      var linked := fs[MainPath := Symlink(rel)];
      assert Resolve(MainPath, rel) == src;
      assert src in linked && linked[src] == fs[src];
      assert Follow(linked, src, |linked| - 1) == Some(src);
      assert Final(linked, MainPath) == Some(src);
    } else if r.state.Copied? {
      assert r.fs == fs[MainPath := File(fs[src].content)];
    }
  }

  /** Publishing again right after publishing changes nothing, unless `main`
      started out as a dangling link. */
  lemma PublishIdempotent(fs: Fs, failing: set<Syscall>, isWindows: bool)
    requires MainPath !in fs || Exists(fs, MainPath)
    ensures var once := Publish(fs, failing, isWindows).fs;
            Publish(once, failing, isWindows).fs == once
  {
    if MainPath !in fs {
      InstallThenPublish(fs, failing, isWindows);
    } else if Attempt(failing, UnlinkCall, AfterUnlink(fs, MainPath)).Some? {
      InstallThenPublish(fs - {MainPath}, failing, isWindows);
    }
  }

  /** Once `main` is cleared, what `Install` leaves is a fixed point of `Publish`:
      the new `main` exists, so the next round removes it and redoes the same. */
  lemma InstallThenPublish(cleared: Fs, failing: set<Syscall>, isWindows: bool)
    requires MainPath !in cleared
    ensures var once := Install(cleared, failing, isWindows).fs;
            Publish(once, failing, isWindows).fs == once
  {
    var r := Install(cleared, failing, isWindows);
    match r.state
    case Linked(rel) =>
      LinkedMainExists(cleared, rel);
      assert r.fs - {MainPath} == cleared;
      RepublishInstalled(cleared, failing, isWindows);
    case Copied(_) =>
      assert Final(cleared, MainPath) == Some(MainPath);
      assert MainPath in r.fs && r.fs[MainPath].File?;
      assert r.fs - {MainPath} == cleared;
      RepublishInstalled(cleared, failing, isWindows);
    case _ =>
  }

  /** A `main` that `Install` created, that exists and that is the only
      difference from `cleared`, is removed and recreated identically. */
  lemma RepublishInstalled(cleared: Fs, failing: set<Syscall>, isWindows: bool)
    requires var once := Install(cleared, failing, isWindows).fs;
             Exists(once, MainPath) && !once[MainPath].Dir? && once - {MainPath} == cleared
    ensures var once := Install(cleared, failing, isWindows).fs;
            Publish(once, failing, isWindows).fs == once
  {
  }

  /** A fresh link at `main` to an output that exists leads to that output. */
  lemma LinkedMainExists(cleared: Fs, rel: Path)
    requires MainPath !in cleared
    requires Exists(cleared, WhisperDir + rel)
    ensures Exists(cleared[MainPath := Symlink(rel)], MainPath)
  {
    Layout();
    var linked := cleared[MainPath := Symlink(rel)];
    var target := WhisperDir + rel;
    assert Resolve(MainPath, rel) == target;
    assert Extends(linked, cleared);
    FollowExtends(cleared, linked, target, |cleared|);
    assert |linked| == |cleared| + 1;
  }

  /** From any starting point, two rounds of publishing reach a state that
      further rounds leave alone. */
  lemma PublishSettles(fs: Fs, failing: set<Syscall>, isWindows: bool)
    ensures var once := Publish(fs, failing, isWindows).fs;
            var twice := Publish(once, failing, isWindows).fs;
            Publish(twice, failing, isWindows).fs == twice
  {
    Layout();
    var once := Publish(fs, failing, isWindows);
    if MainPath !in fs || Exists(fs, MainPath) {
      PublishIdempotent(fs, failing, isWindows);
    } else if once.fs == fs {
    } else {
      assert once.state.Copied?;
      var d := Final(fs, MainPath).value;
      var bytes := once.fs[d].content;
      assert once.fs == fs[d := File(bytes)];
      FollowReplacesEnd(fs, MainPath, |fs|, File(bytes));
      assert |fs| <= |once.fs| by {
        assert fs.Keys <= once.fs.Keys;
        SubsetCard(fs.Keys, once.fs.Keys);
      }
      FollowMoreFuel(once.fs, MainPath, |fs|, |once.fs|);
      assert Exists(once.fs, MainPath);
      PublishIdempotent(once.fs, failing, isWindows);
    }
  }
}
