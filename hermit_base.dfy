/**
 * hermit-base.c's main: the loader that hands the module to wamr().
 * Its scopes own the file, the byte buffer and the parsed tree through
 * cleanup handlers, every copy is checked, and json is released by the
 * deferred cleanup_free when main returns.
 */
module HermitBase {
  import opened Wrappers
  import opened Json
  import opened Alloc
  import opened Manifest
  import opened ManifestStore
  import opened AppArgs
  import opened Wamr
  import opened Loader

  /** The read log of a manifest that parsed. */
  const ParsedLog: seq<MemEvent> := [FileOpened, Allocated(JsonBytes), FileClosed, Allocated(JsonTree), Freed(JsonBytes)]

  /**
   * The frees of the tree on the exits after parsing, as written: the
   * explicit free(json) on the exits that have one, then the deferred
   * cleanup_free, which still sees the same non-NULL pointer.
   */
  function TreeFreesAsWritten(r: Result<Caps, LoadError>): seq<MemEvent>
  {
    (if ExplicitlyFreed(r) then [Freed(JsonTree)] else []) + [Freed(JsonTree)]
  }

  /**
   * As written, the tree is freed twice exactly on the exits with an
   * explicit free(json): a wrong-kind key, a non-string MAP or ENV
   * element, and every successful walk.
   */
  lemma DoubleFreeAsWritten(r: Result<Caps, LoadError>)
    ensures !NoDoubleFree(ParsedLog + TreeFreesAsWritten(r), JsonTree) <==> ExplicitlyFreed(r)
  {
    var log := ParsedLog + TreeFreesAsWritten(r);
    var once := ParsedLog + [Freed(JsonTree)];
    CountsOf(ParsedLog);
    if ExplicitlyFreed(r) {
      assert log[..6] == once && once[..5] == ParsedLog;
      assert log[6] == Freed(JsonTree);
      assert Count(log[..6], Freed(JsonTree)) == 1;
    } else {
      assert log == once;
      FreeTreeOnce(ParsedLog);
    }
  }

  /** The corrected release: the tree is freed once, by the deferred cleanup (the explicit frees are dropped). */
  function TreeFrees(r: Result<Caps, LoadError>): seq<MemEvent>
  {
    [Freed(JsonTree)]
  }

  /** With the correction, every exit after parsing leaves the tree freed exactly once. */
  lemma TreeFreedOnce(log: seq<MemEvent>, r: Result<Caps, LoadError>)
    requires log == ParsedLog
    ensures NoDoubleFree(log + TreeFrees(r), JsonTree)
    ensures Count(log + TreeFrees(r), Freed(JsonTree)) == Count(log + TreeFrees(r), Allocated(JsonTree)) == 1
  {
    CountsOf(log);
    FreeTreeOnce(log);
  }

  /**
   * main: exit status 1 whenever the manifest cannot be read, parsed or
   * accepted, or a checked allocation fails; otherwise wamr() runs the
   * module with exactly the granted capabilities. walked is the walk's
   * outcome, None when the manifest never reaches it: Load's result, or
   * OutOfMemory when a reserve or memdup failed. The tree is released
   * the corrected way (TreeFrees): only the deferred cleanup_free, with the
   * explicit free(json) calls dropped. With that correction, the file, the
   * byte buffer and the tree are each released exactly once on every exit.
   */
  method RunLoader(argv: seq<string>, f: ManifestFile, cwd: string, reallocOk: nat -> bool, copyOk: nat -> bool,
              e: Engine)
    returns (status: int, mem: seq<MemEvent>, log: seq<Event>, walked: Option<Result<Caps, LoadError>>)
    ensures walked.Some? <==> ReachesParser(f) && f.parsed.Some?
    ensures walked.Some? ==> walked.value == Load(f.parsed.value, cwd)
                             || (walked.value.Failure? && walked.value.error == OutOfMemory)
    ensures walked.Some? && AllOk(reallocOk) && AllOk(copyOk) ==> walked.value == Load(f.parsed.value, cwd)
    ensures walked.Some? && Granted(f, cwd).Some? && walked.value.Failure? ==> walked.value.error == OutOfMemory
    ensures walked.None? || walked.value.Failure? ==> status == 1 && log == []
    ensures walked.Some? && walked.value.Success? ==> RunsWith(status, log, walked.value.value, argv, e)
    ensures Granted(f, cwd).None? ==> status == 1 && log == []
    ensures Granted(f, cwd).Some? && AllOk(reallocOk) && AllOk(copyOk)
            ==> RunsWith(status, log, Granted(f, cwd).value, argv, e)
    ensures log != [] ==> Granted(f, cwd).Some? && RunsWith(status, log, Granted(f, cwd).value, argv, e)
    ensures Count(mem, FileOpened) == Count(mem, FileClosed)
    ensures Count(mem, Allocated(JsonBytes)) == Count(mem, Freed(JsonBytes))
    ensures Count(mem, Allocated(JsonTree)) == Count(mem, Freed(JsonTree))
    ensures NoDoubleFree(mem, JsonBytes) && NoDoubleFree(mem, JsonTree)
  {
    var read;
    read, mem := ReadManifest(f);
    log := [];
    if read.Failure? {
      return 1, mem, log, None;
    }
    var json := read.value;
    var caps := BuildCapabilities(json, cwd, reallocOk, copyOk);
    walked := Some(caps);
    if caps.Success? {
      status, log := Launch(argv, caps.value, e);
    } else {
      status := 1;
    }
    // cleanup_free(&json) as main returns
    FreeTreeOnce(mem);
    mem := mem + TreeFrees(caps);
  }
}
