/**
 * main.c's main: the loader built on WAMR's own command-line runner.
 * It reads the manifest, walks it with unchecked string copies (malloc
 * results are used without a NULL test), builds the module's argument
 * vector and runs the module inline, with the same runtime sequence as
 * wamr.c.
 */
module MainLoader {
  import opened Wrappers
  import opened Json
  import opened Alloc
  import opened Manifest
  import opened ManifestStore
  import opened AppArgs
  import opened Wamr
  import opened Loader

  /**
   * The exits after parsing on which main.c frees the tree: the walk's
   * own explicit frees, plus the check that the root is an object.
   * A rejected ENV entry and a failed reserve return without freeing it.
   */
  predicate FreesTree(r: Result<Caps, LoadError>)
  {
    ExplicitlyFreed(r) || r == Failure(NotAnObject)
  }

  /** A copy oracle for malloc calls whose result is never checked: every copy goes ahead. */
  function Unchecked(n: nat): bool
  {
    true
  }

  /**
   * main: exit status 1 whenever the manifest cannot be read, parsed or
   * accepted, or a reserve fails; otherwise the module runs with exactly
   * the granted capabilities and the status is wamr()'s. walked is the
   * walk's outcome, None when the manifest never reaches it. The file is always closed
   * and the byte buffer always freed; the tree is freed at most once and
   * is left allocated only on an error exit.
   */
  method RunLoader(argv: seq<string>, f: ManifestFile, cwd: string, reallocOk: nat -> bool, e: Engine)
    returns (status: int, mem: seq<MemEvent>, log: seq<Event>, walked: Option<Result<Caps, LoadError>>)
    ensures walked.Some? <==> ReachesParser(f) && f.parsed.Some?
    ensures walked.Some? ==> walked.value == Load(f.parsed.value, cwd)
                             || (walked.value.Failure? && walked.value.error == OutOfMemory)
    ensures walked.Some? && AllOk(reallocOk) ==> walked.value == Load(f.parsed.value, cwd)
    ensures walked.Some? && Granted(f, cwd).Some? && walked.value.Failure? ==> walked.value.error == OutOfMemory
    ensures walked.None? || walked.value.Failure? ==> status == 1 && log == []
    ensures walked.Some? && walked.value.Success? ==> RunsWith(status, log, walked.value.value, argv, e)
    ensures Granted(f, cwd).None? ==> status == 1 && log == []
    ensures Granted(f, cwd).Some? && AllOk(reallocOk) ==> RunsWith(status, log, Granted(f, cwd).value, argv, e)
    ensures log != [] ==> Granted(f, cwd).Some? && RunsWith(status, log, Granted(f, cwd).value, argv, e)
    ensures Count(mem, FileOpened) == Count(mem, FileClosed)
    ensures Count(mem, Allocated(JsonBytes)) == Count(mem, Freed(JsonBytes))
    ensures NoDoubleFree(mem, JsonBytes) && NoDoubleFree(mem, JsonTree)
    ensures Count(mem, Freed(JsonTree)) <= Count(mem, Allocated(JsonTree)) <= 1
    ensures Count(mem, Freed(JsonTree)) < Count(mem, Allocated(JsonTree)) ==> status == 1 && log == []
    ensures ReachesParser(f) && f.parsed.Some? && Load(f.parsed.value, cwd).Failure?
            && Load(f.parsed.value, cwd).error.BadEnvEntry?
            ==> Count(mem, Allocated(JsonTree)) == 1 && Count(mem, Freed(JsonTree)) == 0
  {
    var read;
    read, mem := ReadManifest(f);
    log := [];
    if read.Failure? {
      return 1, mem, log, None;
    }
    var caps;
    status, mem, log, caps := WalkAndRun(read.value, cwd, reallocOk, argv, e, mem);
    walked := Some(caps);
  }

  /**
   * The part of main after parsing: walk the tree, free it on the exits
   * that do, and run the module with the capabilities granted. mem0 is
   * the memory log so far, with the tree the one block outstanding.
   * walked is the walk's outcome: Load's result, or OutOfMemory when a
   * reserve failed.
   */
  method WalkAndRun(json: Value, cwd: string, reallocOk: nat -> bool, argv: seq<string>, e: Engine, mem0: seq<MemEvent>)
    returns (status: int, mem: seq<MemEvent>, log: seq<Event>, walked: Result<Caps, LoadError>)
    requires Count(mem0, Allocated(JsonTree)) == 1 && Count(mem0, Freed(JsonTree)) == 0
    requires NoDoubleFree(mem0, JsonTree) && NoDoubleFree(mem0, JsonBytes)
    ensures walked == Load(json, cwd) || (walked.Failure? && walked.error == OutOfMemory)
    ensures AllOk(reallocOk) ==> walked == Load(json, cwd)
    ensures Load(json, cwd).Success? && walked.Failure? ==> walked.error == OutOfMemory
    ensures walked.Failure? ==> status == 1 && log == []
    ensures walked.Success? ==> RunsWith(status, log, walked.value, argv, e)
    ensures Load(json, cwd).Failure? ==> status == 1 && log == []
    ensures Load(json, cwd).Success? && AllOk(reallocOk) ==> RunsWith(status, log, Load(json, cwd).value, argv, e)
    ensures log != [] ==> Load(json, cwd).Success? && RunsWith(status, log, Load(json, cwd).value, argv, e)
    ensures Count(mem, FileOpened) == Count(mem0, FileOpened) && Count(mem, FileClosed) == Count(mem0, FileClosed)
    ensures Count(mem, Allocated(JsonBytes)) == Count(mem0, Allocated(JsonBytes))
    ensures Count(mem, Freed(JsonBytes)) == Count(mem0, Freed(JsonBytes))
    ensures NoDoubleFree(mem, JsonBytes) && NoDoubleFree(mem, JsonTree)
    ensures Count(mem, Allocated(JsonTree)) == 1 && Count(mem, Freed(JsonTree)) <= 1
    ensures Count(mem, Freed(JsonTree)) == 0 ==> status == 1 && log == []
    ensures Load(json, cwd).Failure? && Load(json, cwd).error.BadEnvEntry? ==> Count(mem, Freed(JsonTree)) == 0
  {
    mem := mem0;
    log := [];
    var caps := BuildCapabilities(json, cwd, reallocOk, Unchecked);
    walked := caps;
    if FreesTree(caps) {
      FreeTreeOnce(mem);
      mem := mem + [Freed(JsonTree)];
    }
    if caps.Failure? {
      return 1, mem, log, walked;
    }
    status, log := Launch(argv, caps.value, e);
  }
}
