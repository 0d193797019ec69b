/** The file system the worker talks to, reduced to what its guards and copies observe: the
    remote namespace as a flat map from path strings to nodes, and the worker host's working
    directory as a map from local file names to bytes. */
module Store {
  import opened Common
  import opened Paths

  /** A remote path names a file with its bytes or a directory. */
  datatype Node = File(data: seq<byte>) | Dir

  datatype Fs = Fs(remote: map<string, Node>, local: map<string, seq<byte>>)

  /** How one operation ends. `NoSuchPath` and `AlreadyExists` are the guards that print a line
      and return; `IOFailure` is an `IOException` thrown out of the operation; `Exit` is
      `System.exit`; `RuntimeFault` is an unchecked exception. */
  datatype OpResult = Done | NoSuchPath | AlreadyExists | IOFailure | Exit(status: int) | RuntimeFault

  datatype Effect = Effect(fs: Fs, result: OpResult)

  /** Hadoop's `Path` constructor refuses the empty string with an unchecked exception. */
  predicate PathOk(p: string)
  {
    p != ""
  }

  /** `new FileInputStream(new File(p))`: the bytes of the local file `p`, if there is one. */
  function LocalBytes(fs: Fs, p: string): (r: Option<seq<byte>>)
    ensures r.Some? ==> LocalKey(p) in fs.local && r.value == fs.local[LocalKey(p)]
    ensures r.None? ==> LocalKey(p) == "" || LocalKey(p) !in fs.local
  {
    var k := LocalKey(p);
    if k != "" && k in fs.local then Some(fs.local[k]) else None
  }

  /** The path a local file copied into the remote directory `dir` receives. */
  function Child(dir: string, name: string): (p: string)
    requires dir != ""
    ensures |p| >= |dir| && p[..|dir|] == dir
    ensures Basename(p) == Basename(name)
  {
    if dir[|dir| - 1] == '/' then
      BasenameAppend(dir, name);
      dir + name
    else
      BasenameAppend(dir + "/", name);
      dir + "/" + name
  }

  /** `addFile(source, dest)`: the target is `dest`, or `dest` plus the source's file name when
      `dest` ends in a slash; an existing target is left alone; otherwise the target is created
      empty and then filled with the local source's bytes. A missing local source throws after
      the create, so the empty target stays. An empty `dest` throws on `charAt(-1)`. */
  function AddEffect(fs: Fs, source: string, dest: string): (e: Effect)
    ensures dest == "" ==> e == Effect(fs, RuntimeFault)
    ensures dest != "" && Target(source, dest) in fs.remote ==> e == Effect(fs, AlreadyExists)
    ensures e.result == Done <==>
      dest != "" && Target(source, dest) !in fs.remote && LocalBytes(fs, source).Some?
    ensures e.result == Done ==>
      e.fs == fs.(remote := fs.remote[Target(source, dest) := File(LocalBytes(fs, source).value)])
    ensures e.result == IOFailure <==>
      dest != "" && Target(source, dest) !in fs.remote && LocalBytes(fs, source).None?
    ensures e.result == IOFailure ==> e.fs == fs.(remote := fs.remote[Target(source, dest) := File([])])
  {
    if dest == "" then Effect(fs, RuntimeFault)
    else
      var target := Target(source, dest);
      if target in fs.remote then Effect(fs, AlreadyExists)
      else
        var created := fs.(remote := fs.remote[target := File([])]);
        match LocalBytes(fs, source)
        case None => Effect(created, IOFailure)
        case Some(bytes) => Effect(fs.(remote := fs.remote[target := File(bytes)]), Done)
  }

  /** `readFile(file)`: an absent path is reported; a directory cannot be opened for reading;
      otherwise the bytes go to the local file named by the path's file name, which cannot be
      opened when that name is empty. */
  function ReadEffect(fs: Fs, file: string): (e: Effect)
    ensures !PathOk(file) ==> e == Effect(fs, RuntimeFault)
    ensures PathOk(file) && file !in fs.remote ==> e == Effect(fs, NoSuchPath)
    ensures e.result == Done <==>
      PathOk(file) && file in fs.remote && fs.remote[file].File? && Basename(file) != ""
    ensures e.result == Done ==>
      e.fs == fs.(local := fs.local[Basename(file) := fs.remote[file].data])
    ensures e.result != Done ==> e.fs == fs
  {
    if !PathOk(file) then Effect(fs, RuntimeFault)
    else if file !in fs.remote then Effect(fs, NoSuchPath)
    else match fs.remote[file]
      case Dir => Effect(fs, IOFailure)
      case File(data) =>
        var name := Basename(file);
        if name == "" then Effect(fs, IOFailure)
        else Effect(fs.(local := fs.local[name := data]), Done)
  }

  /** `deleteFile(file)`: an absent path is reported and nothing changes; otherwise the path is
      removed and every other path keeps its node. */
  function DeleteEffect(fs: Fs, file: string): (e: Effect)
    ensures !PathOk(file) ==> e == Effect(fs, RuntimeFault)
    ensures e.result == NoSuchPath <==> PathOk(file) && file !in fs.remote
    ensures e.result == NoSuchPath ==> e.fs == fs
    ensures e.result == Done <==> PathOk(file) && file in fs.remote
    ensures e.result == Done ==> e.fs.remote.Keys == fs.remote.Keys - {file}
    ensures forall p :: p in e.fs.remote ==> p in fs.remote && e.fs.remote[p] == fs.remote[p]
    ensures e.fs.local == fs.local
  {
    if !PathOk(file) then Effect(fs, RuntimeFault)
    else if file !in fs.remote then Effect(fs, NoSuchPath)
    else Effect(fs.(remote := fs.remote - {file}), Done)
  }

  /** `mkdir(dir)`: a present path is reported and nothing changes; otherwise the directory is
      created and every other path keeps its node. */
  function MkdirEffect(fs: Fs, dir: string): (e: Effect)
    ensures !PathOk(dir) ==> e == Effect(fs, RuntimeFault)
    ensures e.result == AlreadyExists <==> PathOk(dir) && dir in fs.remote
    ensures e.result == AlreadyExists ==> e.fs == fs
    ensures e.result == Done <==> PathOk(dir) && dir !in fs.remote
    ensures e.result == Done ==> e.fs.remote.Keys == fs.remote.Keys + {dir} && e.fs.remote[dir] == Dir
    ensures forall p :: p in fs.remote ==> p in e.fs.remote && e.fs.remote[p] == fs.remote[p]
    ensures e.fs.local == fs.local
  {
    if !PathOk(dir) then Effect(fs, RuntimeFault)
    else if dir in fs.remote then Effect(fs, AlreadyExists)
    else Effect(fs.(remote := fs.remote[dir := Dir]), Done)
  }

  /** `renameFile(from, to)`: nothing changes when `from` is absent or `to` is present;
      otherwise `to` receives `from`'s node, `from` becomes absent, and nothing else changes. */
  function RenameEffect(fs: Fs, from: string, to: string): (e: Effect)
    ensures !PathOk(from) || !PathOk(to) ==> e == Effect(fs, RuntimeFault)
    ensures e.result == NoSuchPath <==> PathOk(from) && PathOk(to) && from !in fs.remote
    ensures e.result == AlreadyExists <==> PathOk(from) && PathOk(to) && from in fs.remote && to in fs.remote
    ensures e.result != Done ==> e.fs == fs
    ensures e.result == Done ==>
      && from in fs.remote && to !in fs.remote
      && to in e.fs.remote && e.fs.remote[to] == fs.remote[from] && from !in e.fs.remote
      && e.fs.remote.Keys == fs.remote.Keys - {from} + {to}
      && (forall p :: p in fs.remote && p != from ==> e.fs.remote[p] == fs.remote[p])
    ensures e.fs.local == fs.local
  {
    if !PathOk(from) || !PathOk(to) then Effect(fs, RuntimeFault)
    else if from !in fs.remote then Effect(fs, NoSuchPath)
    else if to in fs.remote then Effect(fs, AlreadyExists)
    else Effect(fs.(remote := (fs.remote - {from})[to := fs.remote[from]]), Done)
  }

  /** Where `copyFromLocalFile` puts the file: into the existing directory `dest` under the
      source's file name, or over the existing file `dest`. */
  function CopyTarget(fs: Fs, source: string, dest: string): string
    requires PathOk(dest) && dest in fs.remote
  {
    if fs.remote[dest].Dir? then Child(dest, Basename(source)) else dest
  }

  /** `copyFromLocal(source, dest)`: `dest` must already exist; an existing directory receives
      the file under its own name, an existing file is overwritten. Any failure of the copy
      itself (a missing local source, a directory in the way) ends the process with status 1. */
  function CopyFromLocalEffect(fs: Fs, source: string, dest: string): (e: Effect)
    ensures !PathOk(source) || !PathOk(dest) ==> e == Effect(fs, RuntimeFault)
    ensures e.result == NoSuchPath <==> PathOk(source) && PathOk(dest) && dest !in fs.remote
    ensures e.result == Done <==>
      && PathOk(source) && PathOk(dest) && dest in fs.remote && LocalBytes(fs, source).Some?
      && !(CopyTarget(fs, source, dest) in fs.remote && fs.remote[CopyTarget(fs, source, dest)].Dir?)
    ensures e.result.Exit? <==>
      && PathOk(source) && PathOk(dest) && dest in fs.remote
      && (|| LocalBytes(fs, source).None?
          || (CopyTarget(fs, source, dest) in fs.remote && fs.remote[CopyTarget(fs, source, dest)].Dir?))
    ensures e.result.Exit? ==> e.result.status == 1
    ensures e.result != Done ==> e.fs == fs
    ensures e.result == Done ==>
      e.fs == fs.(remote := fs.remote[CopyTarget(fs, source, dest) := File(LocalBytes(fs, source).value)])
  {
    if !PathOk(source) || !PathOk(dest) then Effect(fs, RuntimeFault)
    else if dest !in fs.remote then Effect(fs, NoSuchPath)
    else match LocalBytes(fs, source)
      case None => Effect(fs, Exit(1))
      case Some(bytes) =>
        var t := CopyTarget(fs, source, dest);
        if t in fs.remote && fs.remote[t].Dir? then Effect(fs, Exit(1))
        else Effect(fs.(remote := fs.remote[t := File(bytes)]), Done)
  }

  /** The local file `copyToLocalFile` writes: the source's file name when `dest` names the
      working directory (`.` or `./`), the one local directory of the model; otherwise the
      local file `dest` itself. */
  function LocalCopyKey(source: string, dest: string): string
  {
    var k := LocalKey(dest);
    if k == "" || k == "." then Basename(source) else k
  }

  /** `copyToLocal(source, dest)`: `source` must exist; a file's bytes go to the local file
      `dest`, or under the file's own name into the working directory, and a failure of the
      copy ends the process with status 1. */
  function CopyToLocalEffect(fs: Fs, source: string, dest: string): (e: Effect)
    ensures !PathOk(source) || !PathOk(dest) ==> e == Effect(fs, RuntimeFault)
    ensures e.result == NoSuchPath <==> PathOk(source) && PathOk(dest) && source !in fs.remote
    ensures PathOk(source) && PathOk(dest) && source in fs.remote && fs.remote[source].Dir? ==>
      e == Effect(fs, Done)
    ensures e.result == Done <==>
      PathOk(source) && PathOk(dest) && source in fs.remote &&
      (fs.remote[source].Dir? || LocalCopyKey(source, dest) != "")
    ensures e.result.Exit? ==> e.result.status == 1
    ensures e.result != Done ==> e.fs == fs
    ensures e.fs.remote == fs.remote
    ensures e.result == Done && fs.remote[source].File? ==>
      e.fs.local == fs.local[LocalCopyKey(source, dest) := fs.remote[source].data]
  {
    if !PathOk(source) || !PathOk(dest) then Effect(fs, RuntimeFault)
    else if source !in fs.remote then Effect(fs, NoSuchPath)
    else match fs.remote[source]
      case Dir => Effect(fs, Done)
      case File(data) =>
        var k := LocalCopyKey(source, dest);
        if k == "" then Effect(fs, Exit(1))
        else Effect(fs.(local := fs.local[k := data]), Done)
  }

  /** Copying a file into the working directory stores it under its own file name. */
  lemma CopyToWorkingDirectory(fs: Fs, source: string, dest: string)
    requires dest == "." || dest == "./"
    requires PathOk(source) && source in fs.remote && fs.remote[source].File? && Basename(source) != ""
    ensures CopyToLocalEffect(fs, source, dest) ==
      Effect(fs.(local := fs.local[Basename(source) := fs.remote[source].data]), Done)
  {
    assert LocalKey(dest) == "" || LocalKey(dest) == ".";
  }

  /** Copy round trip: a remote file copied to a local file and copied back over itself
      leaves the remote store as it was. */
  lemma CopyRoundTrip(fs: Fs, path: string, local: string)
    requires PathOk(path) && path in fs.remote && fs.remote[path].File?
    requires LocalKey(local) != "" && LocalKey(local) != "."
    ensures var e1 := CopyToLocalEffect(fs, path, local);
      var e2 := CopyFromLocalEffect(e1.fs, local, path);
      e1.result == Done && e2.result == Done && e2.fs.remote == fs.remote
  {
    var e1 := CopyToLocalEffect(fs, path, local);
    assert LocalBytes(e1.fs, local) == Some(fs.remote[path].data);
    assert CopyTarget(e1.fs, local, path) == path;
  }

  /** The remote path `p` is not a directory: absent, or a file. */
  predicate NotDir(fs: Fs, p: string)
  {
    !(p in fs.remote && fs.remote[p].Dir?)
  }

  /** `getBlockLocations(source)`: an absent path is reported; a file has its block list
      fetched and dropped; a directory has no blocks, and the namenode's refusal reaches the
      worker as an `IOException`. The store never changes. */
  function BlockLocationsEffect(fs: Fs, source: string): (e: Effect)
    ensures e.fs == fs
    ensures !PathOk(source) ==> e.result == RuntimeFault
    ensures e.result == Done <==> PathOk(source) && source in fs.remote && fs.remote[source].File?
    ensures e.result == NoSuchPath <==> PathOk(source) && source !in fs.remote
    ensures e.result == IOFailure <==> PathOk(source) && !NotDir(fs, source)
  {
    if !PathOk(source) then Effect(fs, RuntimeFault)
    else if source !in fs.remote then Effect(fs, NoSuchPath)
    else match fs.remote[source]
      case Dir => Effect(fs, IOFailure)
      case File(_) => Effect(fs, Done)
  }

  /** `getModificationTime(source)` as written: its `%0.2f` conversion asks for zero padding
      without a width, which Java's formatter refuses with an unchecked exception while parsing
      the format, so every existing path ends the worker. */
  function ModificationTimeAsWritten(fs: Fs, source: string): (e: Effect)
    ensures e.fs == fs
    ensures e.result == NoSuchPath <==> PathOk(source) && source !in fs.remote
    ensures e.result == RuntimeFault <==> !PathOk(source) || source in fs.remote
  {
    if !PathOk(source) then Effect(fs, RuntimeFault)
    else if source !in fs.remote then Effect(fs, NoSuchPath)
    else Effect(fs, RuntimeFault)
  }

  /** `getModificationTime(source)` with a conversion that accepts the `long` (`%d`): an existing
      path has its time printed and nothing else happens. */
  function ModificationTimeEffect(fs: Fs, source: string): (e: Effect)
    ensures e.fs == fs
    ensures e.result == NoSuchPath <==> PathOk(source) && source !in fs.remote
    ensures e.result == Done <==> PathOk(source) && source in fs.remote
  {
    if !PathOk(source) then Effect(fs, RuntimeFault)
    else if source !in fs.remote then Effect(fs, NoSuchPath)
    else Effect(fs, Done)
  }

  /** On every existing path the `getModificationTime` as written dies of the format error,
      where the corrected one completes. */
  lemma ModificationTimeFormatFault(fs: Fs, source: string)
    requires PathOk(source) && source in fs.remote
    ensures ModificationTimeAsWritten(fs, source) == Effect(fs, RuntimeFault)
    ensures ModificationTimeEffect(fs, source) == Effect(fs, Done)
  {
  }
}
