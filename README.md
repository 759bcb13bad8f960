# whisper-node install scripts, modelled in Dafny

whisper-node ships the native `whisper.cpp` binary through three npm scripts:

- `scripts/postinstall.js` does three things:
  - It makes sure `lib/whisper.cpp` exists.
  - It clones the upstream tree into it when the tree holds nothing but the `.gitkeep` placeholder.
  - It runs `scripts/build-whisper.js` as a child process. The child's failure is only a warning.
- `scripts/build-whisper.js` does three things:
  - It checks that the tree is present and populated.
  - It skips `make` when a build output already exists, and otherwise probes for `make` and runs it.
  - It publishes the build output at the stable entry point `lib/whisper.cpp/main` (`createSymlink`). Publishing prefers `build/bin/whisper-cli` over the deprecated `build/bin/main`. It makes a relative link, and falls back to a copy on Windows or when the link throws. Every publishing error is only a warning.
- `scripts/build_whsiper.js` (the name carries a typo) is a second variant of the build script, with the same two output names. It differs in four ways:
  - It skips only when an output and `main` both exist.
  - It asks for at least two jobs.
  - It replaces only a link at `main`.
  - It has no copy fallback, so any publishing error is fatal.

The model works over an abstract file system: a finite map from paths below the package root to entries, `Dir`, `File(bytes)` or `Symlink(text)`.

- **Node's `fs` calls that change or list the tree.** `unlinkSync`, `symlinkSync`, `copyFileSync`, `mkdirSync` and `readdirSync` are each a step function on that map (`AfterUnlink`, `AfterSymlink`, `AfterCopyFile`, `AfterMkdir`, `ListDir`) and a method of the class `FileSystem.Disk`.
- **Node's `fs` queries.** `existsSync` is the predicate `FileSystem.Exists`; `lstatSync` is a lookup of the entry in the map.
- **Following links.** `existsSync`, `readdirSync` and `copyFileSync` follow links; `lstatSync`, `unlinkSync` and `symlinkSync` do not.
- **Dangling and cyclic links.** A dangling or cyclic link therefore does not exist for `existsSync`. This decides whether a stale `main` is removed.
- **Failing calls.** A set `failing` names the `fs` calls that throw on a given host, for reasons the model does not track, such as permissions. The error cases that follow from the file system itself are modelled: EEXIST, EISDIR, ENOENT for a missing parent directory, ELOOP, and listing a non-directory.
- **External commands and the host.** `which make`, `make` and `git clone` are an oracle: whether each succeeds, and which entries it writes. The platform and the core count are inputs.

Each script is modelled twice:

- as a function `Script` from the starting file system to an `Execution`, which holds the final file system, how the process ends, and the external commands it ran, in order;
- as a method `Run` that mirrors the script statement by statement on a `Disk`, proved to produce exactly what `Script` says.

The properties of each script are lemmas about `Script`. postinstall.js runs build-whisper.js as a child process; `Postinstall.Script` calls `BuildWhisper.Script` for that step.

Three points where the scripts do not do what their own comments or each other suggest:

- **A dangling `main` is never removed.** The comment at build-whisper.js:87 says the old link is removed if it exists. The guard at build-whisper.js:88 asks `existsSync`, which follows the link, so a dangling link at `main` is never removed. build-whisper.js then fails to link (EEXIST) and copies the output through the dangling link to where it points; `main` stays a link. build_whsiper.js has the same guard at build_whsiper.js:45, and it exits with status 1.
- **The two skip tests differ.** The skip test at build_whsiper.js:24 also requires `main` to exist, so it is stricter than the one at build-whisper.js:31. build_whsiper.js rebuilds a tree that has an output but no `main`.
- **Only one script has a copy fallback.** The copy fallback exists only at build-whisper.js:129-134. In build_whsiper.js a link that throws is fatal.

## Model

| member | source | states |
|---|---|---|
| FileSystem.Follow | scripts/build-whisper.js:88 | following links ends on a path that is not a link, and a path that is not a link leads to itself |
| FileSystem.Exists | scripts/build-whisper.js:14 | `existsSync` is true only for a path with an entry; a dangling or cyclic link does not exist |
| FileSystem.ExistsExtends | scripts/build-whisper.js:14 | an existing path keeps existing, with the same final target, when entries are added (the writes of `make` or `git`) |
| FileSystem.FollowMoreFuel | scripts/build-whisper.js:88 | a link chain that has ended is unchanged by allowing more hops |
| FileSystem.FollowExtends | scripts/build-whisper.js:88 | a link chain ending at an existing entry is unchanged when entries are added |
| FileSystem.FollowReplacesEnd | scripts/build-whisper.js:126 | replacing the end of a link chain with a file keeps the chain, which is how a copy writes through a link |
| FileSystem.Children | scripts/postinstall.js:18 | `readdirSync` lists exactly the names with an entry directly inside the directory |
| FileSystem.MkdirMakesDirectories | scripts/postinstall.js:15 | after a recursive `mkdirSync` every directory on the way, and the target itself, is a directory |
| FileSystem.CopyReadsBack | scripts/build-whisper.js:126 | a copy that succeeds makes the destination read back the source's bytes, including through a dangling link at the destination |
| FileSystem.ListDir | scripts/build-whisper.js:20 | defines `readdirSync`, links followed: a listing exactly when the path leads to a directory |
| FileSystem.AfterUnlink | scripts/build-whisper.js:91 | defines `unlinkSync`: succeeds exactly on a file or a link, removes that entry and keeps every other |
| FileSystem.AfterSymlink | scripts/build-whisper.js:122 | defines `symlinkSync`: succeeds exactly on a free name in an existing directory, and adds just that link |
| FileSystem.AfterCopyFile | scripts/build-whisper.js:126 | defines `copyFileSync`: succeeds only when the source leads to a file, and changes nothing but where the destination leads |
| FileSystem.AfterMkdir | scripts/postinstall.js:15 | defines a recursive `mkdirSync`: adds only directories on the way to the path and keeps every entry; fails only on a non-directory in the way |
| FileSystem.Disk.UnlinkSync | scripts/build-whisper.js:91 | `unlinkSync` removes a file or a link itself and nothing else; it fails on a missing path or a directory and then changes nothing |
| FileSystem.Disk.SymlinkSync | scripts/build-whisper.js:122 | `symlinkSync` adds exactly one link with the given text; it fails on an occupied name, even a dangling link, or a missing parent directory, and then changes nothing |
| FileSystem.Disk.CopyFileSync | scripts/build-whisper.js:126 | `copyFileSync` leaves the destination reading the source's bytes, or fails and changes nothing |
| FileSystem.Disk.MkdirSync | scripts/postinstall.js:15 | a recursive `mkdirSync` that succeeds leaves the path a directory; it fails when a non-directory is in the way |
| FileSystem.Disk.ReaddirSync | scripts/build-whisper.js:20 | `readdirSync` returns a listing only for a path that leads to a directory |
| FileSystem.Disk.ApplyWrites | scripts/build-whisper.js:66-69 | an external process adds or replaces exactly the entries it writes |
| Environment.Layout | scripts/build-whisper.js:28-29 | `main` sits in `lib/whisper.cpp`, the link texts `build/bin/whisper-cli` and `build/bin/main` written at `main` designate the two build outputs, and the layout paths are distinct |
| BuildWhisper.Jobs | scripts/build-whisper.js:61-62 | the job count is the floor of three quarters of the cores, at least 1, and at most the core count on a host with a core |
| BuildWhisper.Candidate | scripts/build-whisper.js:99-115 | `whisper-cli` is chosen exactly when it exists, `build/bin/main` exactly when only it exists, and a chosen output always exists |
| BuildWhisper.Install | scripts/build-whisper.js:99-134 | defines the link-or-copy step: no candidate exactly when no output exists; a link only off Windows and only to the chosen output, adding just `main`; nothing changes when it stops without an output or fails |
| BuildWhisper.Publish | scripts/build-whisper.js:85-140 | defines `createSymlink`: `main` is kept exactly when it is a directory, and then nothing changes; a link is made only off Windows |
| BuildWhisper.TreeReady | scripts/build-whisper.js:14-25 | defines the two top-level checks: a ready tree is a directory that can be listed |
| BuildWhisper.Script | scripts/build-whisper.js:14-83 | the script runs no command but the make probe and make, and ends with status 1 or with status 0 |
| BuildWhisper.CreateSymlink | scripts/build-whisper.js:85-140 | `createSymlink` leaves the disk and its final state as `Publish` says |
| BuildWhisper.Run | scripts/build-whisper.js:14-83 | the script leaves the disk, status and command log as `Script` says |
| BuildWhisper.TreeNotReadyExits | scripts/build-whisper.js:14-25 | a missing or unreadable tree, or one holding nothing but `.git` and `.gitkeep`, ends with status 1 before any command and with no change |
| BuildWhisper.PrebuiltSkipsMake | scripts/build-whisper.js:31-39 | when either build output exists, make is neither probed nor run; only publishing runs, and the status is 0 |
| BuildWhisper.OnlyMakeIsFatal | scripts/build-whisper.js:41-83 | on a ready tree the status is non-zero exactly when no output exists and make is missing or fails; make runs exactly when no output exists and make is found |
| BuildWhisper.PublishKeepsDirectory | scripts/build-whisper.js:88-96 | a directory at `main` is left as it is and nothing is created |
| BuildWhisper.PublishTouchesOnlyMain | scripts/build-whisper.js:85-140 | publishing changes no existing entry other than `main` |
| BuildWhisper.InstallTouchesOnlyMain | scripts/build-whisper.js:117-134 | the link or copy step changes no existing entry other than `main` |
| BuildWhisper.PublishClearsStale | scripts/build-whisper.js:88-115 | a file or link at `main` is removed first, and with no output left `main` ends up absent |
| BuildWhisper.PublishKeepsDanglingMain | scripts/build-whisper.js:88-134 | a dangling link at `main` is kept as it is and never replaced by a new link |
| BuildWhisper.PublishPrefersWhisperCli | scripts/build-whisper.js:99-134 | with `whisper-cli` built, `main` ends up a relative link to it off Windows, or a copy of it on Windows or when the link throws, and reads back its bytes; publishing fails only when the copy also fails |
| BuildWhisper.PublishFallsBackToOldMain | scripts/build-whisper.js:106-134 | with only `build/bin/main` built, `main` ends up a link to it or a copy of it, and reads back its bytes |
| BuildWhisper.PublishReachesCandidate | scripts/build-whisper.js:117-134 | with `main` free, linking adds exactly that link and copying adds exactly a copy of the chosen output; the stable entry reads back the output's bytes |
| BuildWhisper.PublishIdempotent | scripts/build-whisper.js:85-140 | publishing again right after publishing changes nothing, unless `main` started as a dangling link |
| BuildWhisper.InstallThenPublish | scripts/build-whisper.js:88-134 | what the link or copy step leaves is a fixed point of publishing |
| BuildWhisper.RepublishInstalled | scripts/build-whisper.js:88-92 | a `main` that the link or copy step created is removed and recreated identically |
| BuildWhisper.LinkedMainExists | scripts/build-whisper.js:122 | a fresh link at `main` to an existing output exists for `existsSync` |
| BuildWhisper.PublishSettles | scripts/build-whisper.js:85-140 | from any start, two rounds of publishing reach a state that further rounds leave unchanged |
| BuildWhsiper.Jobs | scripts/build_whsiper.js:34-35 | the job count is the floor of three quarters of the cores, and at least 2 |
| BuildWhsiper.AlreadyBuilt | scripts/build_whsiper.js:24 | defines the skip test: it holds only when `main` and a build output both have entries |
| BuildWhsiper.Relink | scripts/build_whsiper.js:45-53 | defines the relinking after make: it runs no command, completes only with an entry at `main`, and keeps a file or directory at `main` unchanged |
| BuildWhsiper.Script | scripts/build_whsiper.js:14-60 | the script runs no command but make, and ends with status 1 or with status 0 |
| BuildWhsiper.Run | scripts/build_whsiper.js:14-60 | the script leaves the disk, status and command log as `Script` says |
| BuildWhsiper.RelinkMain | scripts/build_whsiper.js:45-53 | the relinking after make leaves the disk and the status as `Relink` says |
| BuildWhsiper.MissingTreeExits | scripts/build_whsiper.js:14-18 | a missing tree ends with status 1, with no command and no change |
| BuildWhsiper.SkipsExactlyWhenBuiltAndLinked | scripts/build_whsiper.js:24-27 | make is skipped exactly when an output and `main` both exist; skipping changes nothing and the status is 0 |
| BuildWhsiper.SkipIsStricter | scripts/build_whsiper.js:24 | whenever this script skips make on a ready tree, build-whisper.js skips it too; a built `whisper-cli` with no `main` is rebuilt here but not there |
| BuildWhsiper.JobsExceedCpus | scripts/build_whsiper.js:35 | the job count exceeds the core count exactly when the host reports at most one core |
| BuildWhsiper.JobsComparedWithBuildWhisper | scripts/build_whsiper.js:35 | the two job counts differ exactly on hosts with fewer than three cores, where this script asks for 2 and build-whisper.js for 1 |
| BuildWhsiper.MakeFailureIsFatal | scripts/build_whsiper.js:57-60 | a failing make ends with status 1 and no link is made |
| BuildWhsiper.KeepsFileOrDirectory | scripts/build_whsiper.js:45-53 | after make, a file or directory at `main` is kept and no link is created |
| BuildWhsiper.DanglingMainIsFatal | scripts/build_whsiper.js:45-51 | after make, a dangling link at `main` is not removed, so the new link fails and the status is 1 |
| BuildWhsiper.LinksChosenTarget | scripts/build_whsiper.js:49-53 | with `main` free, `main` becomes a link to `whisper-cli` if it exists and to `build/bin/main` otherwise, even when that leaves it dangling; a link that throws is fatal |
| Postinstall.LooksEmpty | scripts/postinstall.js:18-20 | defines the emptiness test: the listing holds at most `.gitkeep` |
| Postinstall.Prepare | scripts/postinstall.js:13-16 | defines the tree creation: an existing tree is left as it is; otherwise, on success, the tree exists and no existing entry changes |
| Postinstall.Fetch | scripts/postinstall.js:13-37 | fetching runs at most the clone, and either completes or ends with status 1 |
| Postinstall.Script | scripts/postinstall.js:11-61 | the script either completes or ends with status 1 |
| Postinstall.Run | scripts/postinstall.js:11-61 | the script leaves the disk, status and command log as `Script` says |
| Postinstall.FetchTree | scripts/postinstall.js:13-37 | the fetch step leaves the disk, status and log as `Fetch` says |
| Postinstall.PrepareTree | scripts/postinstall.js:13-16 | the tree is created only when missing, and the disk is as `Prepare` says |
| Postinstall.CreatesMissingTree | scripts/postinstall.js:13-16 | a missing tree under a directory `lib`, or under no `lib` at all, is created with its parents as a listable directory |
| Postinstall.SetupFailureIsFatal | scripts/postinstall.js:56-60 | a failure to create or to list the tree ends with status 1 before any command |
| Postinstall.ClonesExactlyWhenEmpty | scripts/postinstall.js:18-35 | exactly one clone happens when the listing holds nothing but `.gitkeep`, and none otherwise |
| Postinstall.GitOnlyTreeIsNotCloned | scripts/postinstall.js:18 | a tree holding only `.git` is not cloned into; build-whisper.js, which also ignores `.git`, then exits with status 1, and this script still completes with the tree unchanged |
| Postinstall.PopulatedTreeIsNotCloned | scripts/postinstall.js:33-35 | a populated tree is neither cloned into nor changed by the fetch |
| Postinstall.CloneFailureIsFatal | scripts/postinstall.js:56-60 | a failing clone ends with status 1 and the build is not run |
| Postinstall.BuildFailureIsNotFatal | scripts/postinstall.js:39-54 | the status is 1 exactly when the fetch fails; otherwise the build runs, on the cloned and on the present tree alike, and whatever its status the script completes |
| Postinstall.CloneFillsEmptyTree | scripts/postinstall.js:20-32 | an empty tree is cloned into once and no longer looks empty afterwards |
| Postinstall.FreshInstall | scripts/postinstall.js:11-54 | from an empty `lib`, the tree is created and cloned, make is probed and run, and `main` ends up a link to `whisper-cli` that reads back its bytes |
| Postinstall.FreshFetch | scripts/postinstall.js:13-32 | from an empty `lib`, the fetch creates the tree and clones into it |
| Postinstall.FreshPrepare | scripts/postinstall.js:13-16 | a missing tree under a directory `lib` is added as exactly one new directory |
| Postinstall.FreshTreeIsEmpty | scripts/postinstall.js:18 | a tree just created with nothing below it lists as empty |
| Postinstall.BuildAfterClone | scripts/postinstall.js:39-54 | after a fetch that cloned, the script ends as the build does, behind the clone and the child process in the log |
| Postinstall.ClonedTree | scripts/postinstall.js:24-30 | the tree just created and cloned into holds what git wrote, and no build output git did not write |
| Postinstall.FreshBuild | scripts/build-whisper.js:14-83 | on a freshly cloned tree, make is probed and run, and `main` becomes a link to `whisper-cli` that reads back its bytes |

## Left out

- `scripts/prepare.js`: it only runs the TypeScript compiler and then the build script.
- Console output: the wording of messages and which stream they go to.
- What `git`, `make` and `which`/`where` actually do. Each is an oracle input: whether it succeeds, and what it writes. `make` writes whatever its status; `git clone` writes only on success.
- `git clone` refusing a destination that is not empty: a tree holding only `.gitkeep` counts as empty at postinstall.js:18-20, so the clone is attempted, and real git would refuse it. The clone oracle may still report success there.
- Partial output of a failed clone, and a child process ending other than by its own exit status.
- Transient faults: a call named in `failing` throws every time it is made, so a retried copy meets the same fault.
- The kernel's limit of 40 link hops. The model follows links for as many hops as there are entries, so only a cycle counts as a loop.
- Links inside the directory part of a path: only the last component of a path is resolved.
- `.` and `..` in link text, and absolute link text. The scripts write only the two relative texts of the layout.
- File modes and permission bits; a copy carries only the bytes.
- `lstatSync` throwing: on the path where it is called, `existsSync` has just seen the entry.
- Copy semantics: the copy through a dangling destination link follows Linux, which writes through the link. Other systems may differ.
- An uncaught exception is modelled as status 1, which is the status Node reports for it.
- `path.join`, `os.cpus()` and `process.platform`: the paths are fixed constants, and the core count and platform are inputs.
