/** scripts/postinstall.js: makes sure `lib/whisper.cpp` exists, clones the
    upstream tree into it when it holds nothing but the `.gitkeep`
    placeholder, then runs build-whisper.js as a child process whose failure
    is only a warning. A failure to create, list or clone the tree is fatal. */
module Postinstall {
  import opened FileSystem
  import opened Environment
  import BuildWhisper

  /** The tree holds nothing but the placeholder. */
  predicate LooksEmpty(names: set<Name>)
    ensures LooksEmpty(names) <==> names <= {".gitkeep"}
  {
    names - {".gitkeep"} == {}
  }

  /** Lines 13-16: a tree that does not exist is created with its parents. */
  function Prepare(fs: Fs, failing: set<Syscall>): (r: Option<Fs>)
    ensures r.Some? ==> Extends(r.value, fs) && Exists(r.value, WhisperDir)
    ensures Exists(fs, WhisperDir) ==> r == Some(fs)
  {
    if Exists(fs, WhisperDir) then Some(fs)
    else
      var made := Attempt(failing, MkdirCall, AfterMkdir(fs, WhisperDir));
      if made.Some? then
        MkdirMakesDirectories(fs, WhisperDir);
        assert WhisperDir in Prefixes(WhisperDir) by {
          assert WhisperDir == WhisperDir[..|WhisperDir|];
        }
        made
      else
        made
  }

  /** Lines 13-37: create, list, and clone when the listing looks empty. */
  function Fetch(fs: Fs, failing: set<Syscall>, oracle: Oracle): (r: Execution)
    ensures r.log == [] || r.log == [Clone]
    ensures r.outcome == Completed || r.outcome == Exit(1)
  {
    match Prepare(fs, failing)
    case None => Execution(fs, Exit(1), [])
    case Some(fs1) =>
      match Attempt(failing, ReaddirCall, ListDir(fs1, WhisperDir))
      case None => Execution(fs1, Exit(1), [])
      case Some(names) =>
        if !LooksEmpty(names) then Execution(fs1, Completed, [])
        else if oracle.cloneOk then Execution(fs1 + oracle.cloneWrites, Completed, [Clone])
        else Execution(fs1, Exit(1), [Clone])
  }

  /** The whole script: fetch, then the build as a child process. */
  function Script(fs: Fs, failing: set<Syscall>, host: Host, oracle: Oracle): (r: Execution)
    ensures r.outcome == Completed || r.outcome == Exit(1)
  {
    var fetched := Fetch(fs, failing, oracle);
    if fetched.outcome.Exit? then fetched
    else
      var build := BuildWhisper.Script(fetched.fs, failing, host, oracle);
      Execution(build.fs, Completed, fetched.log + [RunBuildScript] + build.log)
  }

  /** The script, statement by statement. */
  method Run(disk: Disk, host: Host, oracle: Oracle) returns (outcome: Outcome, log: seq<Command>)
    modifies disk
    ensures Execution(disk.entries, outcome, log) == Script(old(disk.entries), disk.failing, host, oracle)
  {
    outcome, log := FetchTree(disk, oracle);
    if outcome.Exit? {
      return;
    }
    // inner try: the child's status is only reported as a warning
    log := log + [RunBuildScript];
    var _, buildLog := BuildWhisper.Run(disk, host, oracle);
    log := log + buildLog;
    outcome := Completed;
  }

  /** Lines 13-37, statement by statement; a failure here reaches the outer
      catch block, which exits with status 1. */
  method FetchTree(disk: Disk, oracle: Oracle) returns (outcome: Outcome, log: seq<Command>)
    modifies disk
    ensures Execution(disk.entries, outcome, log) == Fetch(old(disk.entries), disk.failing, oracle)
  {
    log := [];
    var ready := PrepareTree(disk);
    if !ready {
      return Exit(1), log;
    }
    var listing := disk.ReaddirSync(WhisperDir);
    if listing.None? {
      return Exit(1), log;
    }
    var files := listing.value - {".gitkeep"};
    if files == {} {
      log := log + [Clone];
      if !oracle.cloneOk {
        return Exit(1), log;
      }
      disk.ApplyWrites(oracle.cloneWrites);
    }
    outcome := Completed;
  }

  /** Lines 13-16, statement by statement. */
  method PrepareTree(disk: Disk) returns (ok: bool)
    modifies disk
    ensures var prepared := Prepare(old(disk.entries), disk.failing);
            ok == prepared.Some? && disk.entries == if ok then prepared.value else old(disk.entries)
  {
    ok := true;
    if !Exists(disk.entries, WhisperDir) {
      ok := disk.MkdirSync(WhisperDir);
    }
  }

  /** `p` is `lib/whisper.cpp` or lies inside it. */
  predicate AtOrBelowTree(p: Path)
  {
    |p| >= |WhisperDir| && p[..|WhisperDir|] == WhisperDir
  }

  /** Every entry `writes` holds lies strictly inside `lib/whisper.cpp`. */
  predicate Inside(writes: Fs)
  {
    forall p | p in writes :: AtOrBelowTree(p) && p != WhisperDir
  }

  /** A missing `lib/whisper.cpp` under a `lib` that is a directory or absent
      is created, parents included, before it is listed. */
  lemma CreatesMissingTree(fs: Fs, failing: set<Syscall>)
    requires WhisperDir !in fs
    requires ["lib"] !in fs || IsDirectory(fs, ["lib"])
    requires MkdirCall !in failing
    ensures var prepared := Prepare(fs, failing);
            && prepared.Some?
            && IsDirectory(prepared.value, ["lib"])
            && WhisperDir in prepared.value && prepared.value[WhisperDir] == Dir
            && ListDir(prepared.value, WhisperDir).Some?
  {
    assert WhisperDir[..1] == ["lib"] && WhisperDir[..2] == WhisperDir;
    assert Prefixes(WhisperDir) == {["lib"], WhisperDir};
    MkdirMakesDirectories(fs, WhisperDir);
  }

  /** A failure to create or to list the tree ends the script with status 1,
      before any command. */
  lemma SetupFailureIsFatal(fs: Fs, failing: set<Syscall>, host: Host, oracle: Oracle)
    requires Prepare(fs, failing).None? ||
             Attempt(failing, ReaddirCall, ListDir(Prepare(fs, failing).value, WhisperDir)).None?
    ensures var r := Script(fs, failing, host, oracle);
            r.outcome == Exit(1) && r.log == []
  {
  }

  /** Once the tree is listed, exactly one clone is attempted when the
      listing holds nothing but `.gitkeep`, and none otherwise; the build
      never clones. */
  lemma ClonesExactlyWhenEmpty(fs: Fs, failing: set<Syscall>, host: Host, oracle: Oracle)
    requires Prepare(fs, failing).Some?
    requires Attempt(failing, ReaddirCall, ListDir(Prepare(fs, failing).value, WhisperDir)).Some?
    ensures var names := ListDir(Prepare(fs, failing).value, WhisperDir).value;
            multiset(Script(fs, failing, host, oracle).log)[Clone] == if LooksEmpty(names) then 1 else 0
  {
    var fetched := Fetch(fs, failing, oracle);
    var r := Script(fs, failing, host, oracle);
    if fetched.outcome == Completed {
      var build := BuildWhisper.Script(fetched.fs, failing, host, oracle);
      assert Clone !in build.log;
      assert r.log == fetched.log + [RunBuildScript] + build.log;
      assert multiset(build.log)[Clone] == 0;
    }
  }

  /** Only `.gitkeep` is ignored: a tree holding just `.git` is not cloned
      into. build-whisper.js, which also ignores `.git`, then finds the tree
      empty and exits with status 1, which this script only reports; it
      completes with the tree unchanged. */
  lemma GitOnlyTreeIsNotCloned(fs: Fs, failing: set<Syscall>, host: Host, oracle: Oracle)
    requires Exists(fs, WhisperDir) && ReaddirCall !in failing
    requires ListDir(fs, WhisperDir) == Some({".git"})
    ensures Script(fs, failing, host, oracle) == Execution(fs, Completed, [RunBuildScript])
    ensures BuildWhisper.Script(fs, failing, host, oracle).outcome == Exit(1)
  {
    assert {".git"} - {".gitkeep"} == {".git"};
    assert {".git"} - {".git", ".gitkeep"} == {};
  }

  /** A tree already holding something is neither cloned into nor changed
      by the fetch: no network operation happens. */
  lemma PopulatedTreeIsNotCloned(fs: Fs, failing: set<Syscall>, oracle: Oracle)
    requires Exists(fs, WhisperDir) && ReaddirCall !in failing
    requires ListDir(fs, WhisperDir).Some? && !LooksEmpty(ListDir(fs, WhisperDir).value)
    ensures Fetch(fs, failing, oracle) == Execution(fs, Completed, [])
  {
  }

  /** A clone that fails is fatal: status 1 and the build is not run. */
  lemma CloneFailureIsFatal(fs: Fs, failing: set<Syscall>, host: Host, oracle: Oracle)
    requires Prepare(fs, failing).Some?
    requires var listing := Attempt(failing, ReaddirCall, ListDir(Prepare(fs, failing).value, WhisperDir));
             listing.Some? && LooksEmpty(listing.value)
    requires !oracle.cloneOk
    ensures Script(fs, failing, host, oracle) == Execution(Prepare(fs, failing).value, Exit(1), [Clone])
  {
  }

  /** The status is 1 exactly when the fetch fails; once the tree is ready
      the build runs, on the cloned path and on the already-present path
      alike, and whatever its status, the script completes. */
  lemma BuildFailureIsNotFatal(fs: Fs, failing: set<Syscall>, host: Host, oracle: Oracle)
    ensures var fetched := Fetch(fs, failing, oracle);
            var r := Script(fs, failing, host, oracle);
            && (r.outcome == Exit(1) <==> fetched.outcome == Exit(1))
            && (RunBuildScript in r.log <==> fetched.outcome == Completed)
            && (fetched.outcome == Completed ==>
                  var build := BuildWhisper.Script(fetched.fs, failing, host, oracle);
                  r == Execution(build.fs, Completed, fetched.log + [RunBuildScript] + build.log))
  {
    var fetched := Fetch(fs, failing, oracle);
    if fetched.outcome == Completed {
      var build := BuildWhisper.Script(fetched.fs, failing, host, oracle);
      assert RunBuildScript !in build.log;
      assert (fetched.log + [RunBuildScript] + build.log)[|fetched.log|] == RunBuildScript;
    }
  }

  /** An empty `lib/whisper.cpp` directory is cloned into once, and when git
      writes some entry into it, it no longer looks empty afterwards. */
  lemma CloneFillsEmptyTree(fs: Fs, failing: set<Syscall>, oracle: Oracle, name: Name)
    requires WhisperDir in fs && fs[WhisperDir] == Dir && ReaddirCall !in failing
    requires LooksEmpty(Children(fs, WhisperDir))
    requires oracle.cloneOk && Inside(oracle.cloneWrites)
    requires name != ".gitkeep" && WhisperDir + [name] in oracle.cloneWrites
    ensures var r := Fetch(fs, failing, oracle);
            && r == Execution(fs + oracle.cloneWrites, Completed, [Clone])
            && ListDir(r.fs, WhisperDir).Some?
            && !LooksEmpty(ListDir(r.fs, WhisperDir).value)
  {
    var after := fs + oracle.cloneWrites;
    assert WhisperDir !in oracle.cloneWrites;
    assert after[WhisperDir] == Dir;
    assert Final(after, WhisperDir) == Some(WhisperDir);
    assert name in Children(after, WhisperDir);
    assert name in Children(after, WhisperDir) - {".gitkeep"};
  }

  /** The installation from scratch: with `lib` a directory and nothing at or
      below `lib/whisper.cpp`, the tree is created and cloned, build-whisper.js
      probes for make and runs it, and when make builds `whisper-cli` as a
      file, `main` ends up a link to it (off Windows), through which the
      built bytes are read. */
  lemma FreshInstall(fs: Fs, host: Host, oracle: Oracle, name: Name)
    requires ["lib"] in fs && fs[["lib"]] == Dir
    requires forall p | p in fs :: !AtOrBelowTree(p)
    requires !host.isWindows
    requires oracle.cloneOk && Inside(oracle.cloneWrites)
    requires name !in {".git", ".gitkeep"} && WhisperDir + [name] in oracle.cloneWrites
    requires CliPath !in oracle.cloneWrites && OldMainPath !in oracle.cloneWrites && MainPath !in oracle.cloneWrites
    requires oracle.makeFound && oracle.makeOk && Inside(oracle.makeWrites)
    requires MainPath !in oracle.makeWrites
    requires CliPath in oracle.makeWrites && oracle.makeWrites[CliPath].File?
    ensures var r := Script(fs, {}, host, oracle);
            && r.outcome == Completed
            && r.log == [Clone, RunBuildScript, WhichMake, Make(BuildWhisper.Jobs(host.cpus))]
            && MainPath in r.fs && r.fs[MainPath] == Symlink(CliRel)
            && Read(r.fs, MainPath) == Some(oracle.makeWrites[CliPath].content)
  {
    var fs2 := fs[WhisperDir := Dir] + oracle.cloneWrites;
    FreshFetch(fs, oracle);
    ClonedTree(fs, oracle.cloneWrites, name);
    FreshBuild(fs2, host, oracle, name);
    BuildAfterClone(fs, {}, fs2, host, oracle);
  }

  /** After a fetch that cloned, the script's result is the build's, behind
      the clone and the child process in the log. */
  lemma BuildAfterClone(fs: Fs, failing: set<Syscall>, fs2: Fs, host: Host, oracle: Oracle)
    requires Fetch(fs, failing, oracle) == Execution(fs2, Completed, [Clone])
    ensures var build := BuildWhisper.Script(fs2, failing, host, oracle);
            Script(fs, failing, host, oracle) == Execution(build.fs, Completed, [Clone, RunBuildScript] + build.log)
  {
    BuildFailureIsNotFatal(fs, failing, host, oracle);
    assert [Clone] + [RunBuildScript] == [Clone, RunBuildScript];
  }

  /** The tree just created and cloned into holds what git wrote and none of
      the build outputs git did not write. */
  lemma ClonedTree(fs: Fs, cloneWrites: Fs, name: Name)
    requires forall p | p in fs :: !AtOrBelowTree(p)
    requires Inside(cloneWrites) && WhisperDir + [name] in cloneWrites
    requires CliPath !in cloneWrites && OldMainPath !in cloneWrites && MainPath !in cloneWrites
    ensures var fs2 := fs[WhisperDir := Dir] + cloneWrites;
            && WhisperDir in fs2 && fs2[WhisperDir] == Dir
            && WhisperDir + [name] in fs2
            && CliPath !in fs2 && OldMainPath !in fs2 && MainPath !in fs2
  {
    Layout();
    assert AtOrBelowTree(MainPath) && AtOrBelowTree(CliPath) && AtOrBelowTree(OldMainPath) by {
      assert MainPath[..|WhisperDir|] == WhisperDir;
      assert CliPath[..|WhisperDir|] == WhisperDir;
      assert OldMainPath[..|WhisperDir|] == WhisperDir;
    }
    assert WhisperDir !in cloneWrites;
  }

  /** The fetch half of `FreshInstall`. */
  lemma FreshFetch(fs: Fs, oracle: Oracle)
    requires ["lib"] in fs && fs[["lib"]] == Dir
    requires forall p | p in fs :: !AtOrBelowTree(p)
    requires oracle.cloneOk
    ensures Fetch(fs, {}, oracle) == Execution(fs[WhisperDir := Dir] + oracle.cloneWrites, Completed, [Clone])
  {
    FreshPrepare(fs);
    FreshTreeIsEmpty(fs);
  }

  /** A missing tree under a directory `lib` is added as one directory. */
  lemma FreshPrepare(fs: Fs)
    requires ["lib"] in fs && fs[["lib"]] == Dir
    requires WhisperDir !in fs
    ensures Prepare(fs, {}) == Some(fs[WhisperDir := Dir])
  {
    assert !Exists(fs, WhisperDir);
    var prefixes := Prefixes(WhisperDir);
    assert prefixes == {["lib"], WhisperDir} by {
      assert WhisperDir[..1] == ["lib"] && WhisperDir[..2] == WhisperDir;
    }
    assert IsDirectory(fs, ["lib"]) by {
      assert Final(fs, ["lib"]) == Some(["lib"]);
    }
    assert forall q | q in prefixes :: q !in fs || IsDirectory(fs, q);
    var added := map q | q in prefixes && q !in fs :: Dir;
    assert added == map[WhisperDir := Dir];
    assert AfterMkdir(fs, WhisperDir) == Some(fs + added);
    assert fs + added == fs[WhisperDir := Dir];
  }

  /** With nothing below it, the tree just created lists as empty. */
  lemma FreshTreeIsEmpty(fs: Fs)
    requires forall p | p in fs :: !AtOrBelowTree(p)
    ensures WhisperDir !in fs
    ensures ListDir(fs[WhisperDir := Dir], WhisperDir) == Some({})
  {
    assert AtOrBelowTree(WhisperDir);
    var fs1 := fs[WhisperDir := Dir];
    assert Final(fs1, WhisperDir) == Some(WhisperDir);
    forall n | WhisperDir + [n] in fs1
      ensures false
    {
      assert AtOrBelowTree(WhisperDir + [n]) by {
        assert (WhisperDir + [n])[..|WhisperDir|] == WhisperDir;
      }
    }
    assert Children(fs1, WhisperDir) == {};
  }

  /** The build half of `FreshInstall`. */
  lemma FreshBuild(fs2: Fs, host: Host, oracle: Oracle, name: Name)
    requires WhisperDir in fs2 && fs2[WhisperDir] == Dir
    requires name !in {".git", ".gitkeep"} && WhisperDir + [name] in fs2
    requires CliPath !in fs2 && OldMainPath !in fs2 && MainPath !in fs2
    requires !host.isWindows
    requires oracle.makeFound && oracle.makeOk && Inside(oracle.makeWrites)
    requires MainPath !in oracle.makeWrites
    requires CliPath in oracle.makeWrites && oracle.makeWrites[CliPath].File?
    ensures var r := BuildWhisper.Script(fs2, {}, host, oracle);
            && r.outcome == Completed
            && r.log == [WhichMake, Make(BuildWhisper.Jobs(host.cpus))]
            && MainPath in r.fs && r.fs[MainPath] == Symlink(CliRel)
            && Read(r.fs, MainPath) == Some(oracle.makeWrites[CliPath].content)
  {
    assert Final(fs2, WhisperDir) == Some(WhisperDir);
    assert name in Children(fs2, WhisperDir);
    assert name in Children(fs2, WhisperDir) - {".git", ".gitkeep"};
    assert BuildWhisper.TreeReady(fs2, {});
    var built := fs2 + oracle.makeWrites;
    assert WhisperDir !in oracle.makeWrites;
    assert built[WhisperDir] == Dir && MainPath !in built;
    BuildWhisper.PublishPrefersWhisperCli(built, {}, false);
  }
}
