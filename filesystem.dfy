/** The part of Node's `fs` module that the install scripts use, over an
    abstract file system: a finite map from paths to entries.

    `existsSync`, `statSync`, `readdirSync` and `copyFileSync` follow symbolic
    links; `lstatSync`, `unlinkSync` and `symlinkSync` act on the link itself.
    The model keeps that distinction: `Exists` follows links, while looking a
    path up in the map is what `lstatSync` sees. */
module FileSystem {

  datatype Option<+T> = None | Some(value: T)

  type Name = string

  /** A path as its components below the package root; `[]` is the root. */
  type Path = seq<Name>

  type Bytes = seq<bv8>

  /** What `lstatSync` reports at a path. A link keeps its text as written,
      relative to the directory that holds the link. */
  datatype Entry = Dir | File(content: Bytes) | Symlink(target: Path)

  type Fs = map<Path, Entry>

  /** The fs calls that can throw for reasons the model does not track
      (permissions, I/O errors, missing privileges). */
  datatype Syscall = UnlinkCall | SymlinkCall | CopyFileCall | MkdirCall | ReaddirCall

  /** The result of a call, unless the host makes that call throw. */
  function Attempt<T>(failing: set<Syscall>, call: Syscall, r: Option<T>): Option<T>
  {
    if call in failing then None else r
  }

  function Parent(p: Path): Path
  {
    if p == [] then [] else p[..|p| - 1]
  }

  /** The path designated by a link at `link` whose text is `target`. */
  function Resolve(link: Path, target: Path): Path
  {
    Parent(link) + target
  }

  predicate IsLink(fs: Fs, p: Path)
  {
    p in fs && fs[p].Symlink?
  }

  /** Follows links from `p` for at most `fuel` hops: the first path on the
      chain that is not a link, or None when the hops run out. */
  function Follow(fs: Fs, p: Path, fuel: nat): (r: Option<Path>)
    ensures r.Some? ==> !IsLink(fs, r.value)
    ensures !IsLink(fs, p) ==> r == Some(p)
    decreases fuel
  {
    if IsLink(fs, p) then
      if fuel == 0 then None else Follow(fs, Resolve(p, fs[p].target), fuel - 1)
    else
      Some(p)
  }

  /** Where `p` finally leads. A chain that visits no link twice makes at most
      |fs| hops, so None means the links form a cycle (ELOOP). */
  function Final(fs: Fs, p: Path): Option<Path>
  {
    Follow(fs, p, |fs|)
  }

  /** `fs.existsSync`: a dangling or cyclic link does not exist. */
  predicate Exists(fs: Fs, p: Path)
    ensures Exists(fs, p) ==> p in fs
  {
    var f := Final(fs, p);
    f.Some? && f.value in fs
  }

  /** `fs.statSync(p).isDirectory()`, links followed. */
  predicate IsDirectory(fs: Fs, p: Path)
  {
    Exists(fs, p) && fs[Final(fs, p).value].Dir?
  }

  /** The bytes read through `p`, links followed; None unless it leads to a file. */
  function Read(fs: Fs, p: Path): Option<Bytes>
  {
    if Exists(fs, p) && fs[Final(fs, p).value].File? then Some(fs[Final(fs, p).value].content) else None
  }

  /** The directory that would hold a new entry at `p` exists. */
  predicate ParentIsDirectory(fs: Fs, p: Path)
  {
    |p| <= 1 || IsDirectory(fs, Parent(p))
  }

  /** The names of the entries directly inside `dir`. */
  function Children(fs: Fs, dir: Path): (names: set<Name>)
    ensures forall n :: n in names <==> dir + [n] in fs
  {
    var names := set q | q in fs && |q| == |dir| + 1 && q[..|dir|] == dir :: q[|dir|];
    assert forall n :: dir + [n] in fs ==> (dir + [n])[..|dir|] == dir && n in names;
    assert forall q :: q in fs && |q| == |dir| + 1 && q[..|dir|] == dir ==> q == dir + [q[|dir|]];
    names
  }

  /** `fs.readdirSync(p)`: fails unless `p` leads to a directory. */
  function ListDir(fs: Fs, p: Path): (r: Option<set<Name>>)
    ensures r.Some? <==> IsDirectory(fs, p)
  {
    if IsDirectory(fs, p) then Some(Children(fs, Final(fs, p).value)) else None
  }

  /** `fs.unlinkSync(p)`: removes a file or a link itself, never what a link
      points to; fails on a missing path (ENOENT) and on a directory (EISDIR). */
  function AfterUnlink(fs: Fs, p: Path): (r: Option<Fs>)
    ensures r.Some? <==> p in fs && !fs[p].Dir?
    ensures r.Some? ==> p !in r.value && forall q | q in fs && q != p :: q in r.value && r.value[q] == fs[q]
  {
    if p in fs && !fs[p].Dir? then Some(fs - {p}) else None
  }

  /** `fs.symlinkSync(target, p)`: the target need not exist; fails when
      anything, even a dangling link, occupies `p` (EEXIST), or when the
      directory to hold it is missing (ENOENT). */
  function AfterSymlink(fs: Fs, target: Path, p: Path): (r: Option<Fs>)
    ensures r.Some? <==> p !in fs && ParentIsDirectory(fs, p)
    ensures r.Some? ==> Extends(r.value, fs) && r.value.Keys == fs.Keys + {p} && r.value[p] == Symlink(target)
  {
    if p !in fs && ParentIsDirectory(fs, p) then Some(fs[p := Symlink(target)]) else None
  }

  /** `fs.copyFileSync(src, dst)`: reads through the links at `src`, and
      writes through the links at `dst`, so a dangling link at `dst` gets a
      new file where it points. Fails when `src` does not lead to a file,
      when `dst` leads to a directory (EISDIR) or loops (ELOOP), or when the
      directory to hold a new file is missing (ENOENT). */
  function AfterCopyFile(fs: Fs, src: Path, dst: Path): (r: Option<Fs>)
    ensures r.Some? ==> Read(fs, src).Some? && Final(fs, dst).Some?
    ensures r.Some? ==> forall q | q in fs && q != Final(fs, dst).value :: q in r.value && r.value[q] == fs[q]
  {
    match (Read(fs, src), Final(fs, dst))
    case (Some(bytes), Some(d)) =>
      if d in fs then
        if fs[d].File? then Some(fs[d := File(bytes)]) else None
      else if ParentIsDirectory(fs, d) then Some(fs[d := File(bytes)])
      else None
    case _ => None
  }

  /** The paths `p[..1]`, `p[..2]`, …, `p`. */
  function Prefixes(p: Path): set<Path>
  {
    set i | 1 <= i <= |p| :: p[..i]
  }

  /** `fs.mkdirSync(p, { recursive: true })`: creates every missing directory
      on the way; fails when something that is not a directory is in the way. */
  function AfterMkdir(fs: Fs, p: Path): (r: Option<Fs>)
    ensures r.Some? ==> Extends(r.value, fs) && forall q | q in r.value && q !in fs :: q in Prefixes(p) && r.value[q] == Dir
    ensures r.None? ==> exists q | q in Prefixes(p) :: q in fs && !IsDirectory(fs, q)
  {
    if forall q | q in Prefixes(p) :: q !in fs || IsDirectory(fs, q) then
      Some(fs + map q | q in Prefixes(p) && q !in fs :: Dir)
    else
      None
  }

  /** `big` holds every entry of `small` unchanged. */
  predicate Extends(big: Fs, small: Fs)
  {
    forall q | q in small :: q in big && big[q] == small[q]
  }

  /** Following links for more hops does not change a chain that already ended. */
  lemma {:induction false} FollowMoreFuel(fs: Fs, p: Path, n: nat, m: nat)
    requires n <= m
    requires Follow(fs, p, n).Some?
    ensures Follow(fs, p, m) == Follow(fs, p, n)
    decreases n
  {
    if IsLink(fs, p) {
      FollowMoreFuel(fs, Resolve(p, fs[p].target), n - 1, m - 1);
    }
  }

  /** Adding entries does not change a chain that ends at an existing entry:
      every path it visits is already in the map. */
  lemma {:induction false} FollowExtends(fs: Fs, big: Fs, p: Path, n: nat)
    requires Extends(big, fs)
    requires Follow(fs, p, n).Some? && Follow(fs, p, n).value in fs
    ensures Follow(big, p, n) == Follow(fs, p, n)
    decreases n
  {
    if IsLink(fs, p) {
      FollowExtends(fs, big, Resolve(p, fs[p].target), n - 1);
    }
  }

  /** Replacing the end of a chain by something that is not a link keeps the
      chain: the end is not a link, so no earlier hop passes through it. */
  lemma {:induction false} FollowReplacesEnd(fs: Fs, p: Path, n: nat, e: Entry)
    requires Follow(fs, p, n).Some?
    requires !e.Symlink?
    ensures Follow(fs[Follow(fs, p, n).value := e], p, n) == Follow(fs, p, n)
    decreases n
  {
    if IsLink(fs, p) {
      FollowReplacesEnd(fs, Resolve(p, fs[p].target), n - 1, e);
    }
  }

  /** An entry that exists keeps existing when entries are added. */
  lemma ExistsExtends(fs: Fs, big: Fs, p: Path)
    requires Extends(big, fs) && Exists(fs, p)
    ensures Exists(big, p) && Final(big, p) == Final(fs, p)
  {
    assert |fs| <= |big| by {
      assert fs.Keys <= big.Keys;
      SubsetCard(fs.Keys, big.Keys);
    }
    FollowExtends(fs, big, p, |fs|);
    FollowMoreFuel(big, p, |fs|, |big|);
  }

  lemma {:induction false} SubsetCard<T>(a: set<T>, b: set<T>)
    requires a <= b
    ensures |a| <= |b|
    decreases |a|
  {
    if a != {} {
      var x :| x in a;
      SubsetCard(a - {x}, b - {x});
    }
  }

  /** After `mkdirSync(p, { recursive: true })` every directory on the way to
      `p`, and `p` itself, is a directory. */
  lemma MkdirMakesDirectories(fs: Fs, p: Path)
    requires AfterMkdir(fs, p).Some?
    ensures forall q | q in Prefixes(p) :: IsDirectory(AfterMkdir(fs, p).value, q)
  {
    var big := AfterMkdir(fs, p).value;
    assert Extends(big, fs);
    forall q | q in Prefixes(p)
      ensures IsDirectory(big, q)
    {
      if q in fs {
        ExistsExtends(fs, big, q);
      } else {
        assert big[q] == Dir;
      }
    }
  }

  /** The file system as the scripts see it through Node's `fs` module. Each
      method is one `fs` call; `failing` names the calls this host makes throw. */
  class Disk {
    var entries: Fs
    const failing: set<Syscall>

    constructor (entries: Fs, failing: set<Syscall>)
      ensures this.entries == entries && this.failing == failing
    {
      this.entries := entries;
      this.failing := failing;
    }

    method UnlinkSync(p: Path) returns (ok: bool)
      modifies this
      ensures ok == Attempt(failing, UnlinkCall, AfterUnlink(old(entries), p)).Some?
      ensures entries == if ok then AfterUnlink(old(entries), p).value else old(entries)
      ensures ok ==> p !in entries && old(entries) == entries[p := old(entries)[p]]
    {
      var r := Attempt(failing, UnlinkCall, AfterUnlink(entries, p));
      ok := r.Some?;
      if ok {
        assert entries == r.value[p := entries[p]];
        entries := r.value;
      }
    }

    method SymlinkSync(target: Path, p: Path) returns (ok: bool)
      modifies this
      ensures ok == Attempt(failing, SymlinkCall, AfterSymlink(old(entries), target, p)).Some?
      ensures entries == if ok then old(entries)[p := Symlink(target)] else old(entries)
    {
      var r := Attempt(failing, SymlinkCall, AfterSymlink(entries, target, p));
      ok := r.Some?;
      if ok {
        entries := r.value;
      }
    }

    method CopyFileSync(src: Path, dst: Path) returns (ok: bool)
      modifies this
      ensures ok == Attempt(failing, CopyFileCall, AfterCopyFile(old(entries), src, dst)).Some?
      ensures entries == if ok then AfterCopyFile(old(entries), src, dst).value else old(entries)
      ensures ok ==> Read(old(entries), src).Some? && Read(entries, dst) == Read(old(entries), src)
    {
      var r := Attempt(failing, CopyFileCall, AfterCopyFile(entries, src, dst));
      ok := r.Some?;
      if ok {
        CopyReadsBack(entries, src, dst);
        entries := r.value;
      }
    }

    method MkdirSync(p: Path) returns (ok: bool)
      modifies this
      ensures ok == Attempt(failing, MkdirCall, AfterMkdir(old(entries), p)).Some?
      ensures entries == if ok then AfterMkdir(old(entries), p).value else old(entries)
      ensures ok && p != [] ==> IsDirectory(entries, p)
    {
      var r := Attempt(failing, MkdirCall, AfterMkdir(entries, p));
      ok := r.Some?;
      if ok {
        MkdirMakesDirectories(entries, p);
        if p != [] {
          assert p == p[..|p|];
          assert p in Prefixes(p);
        }
        entries := r.value;
      }
    }

    method ReaddirSync(p: Path) returns (names: Option<set<Name>>)
      ensures names == Attempt(failing, ReaddirCall, ListDir(entries, p))
      ensures names.Some? ==> IsDirectory(entries, p)
    {
      names := Attempt(failing, ReaddirCall, ListDir(entries, p));
    }

    /** An external process (`git`, `make`) writing `writes` into the tree. */
    method ApplyWrites(writes: Fs)
      modifies this
      ensures entries == old(entries) + writes
    {
      entries := entries + writes;
    }
  }

  /** A copy that succeeds makes `dst` read back the bytes of `src`, whether
      `dst` was free, a file, or a dangling link that the copy wrote through. */
  lemma CopyReadsBack(fs: Fs, src: Path, dst: Path)
    requires AfterCopyFile(fs, src, dst).Some?
    ensures Read(fs, src).Some?
    ensures Read(AfterCopyFile(fs, src, dst).value, dst) == Read(fs, src)
  {
    var d := Final(fs, dst).value;
    var bytes := Read(fs, src).value;
    var fs' := AfterCopyFile(fs, src, dst).value;
    assert fs' == fs[d := File(bytes)];
    FollowReplacesEnd(fs, dst, |fs|, File(bytes));
    assert |fs| <= |fs'| by {
      assert fs.Keys <= fs'.Keys;
      SubsetCard(fs.Keys, fs'.Keys);
    }
    FollowMoreFuel(fs', dst, |fs|, |fs'|);
  }
}
