/**
 * What the two loaders (main.c and hermit-base.c) have in common beyond
 * the helpers: the capabilities a manifest grants, the exits of the
 * manifest walk that call free(json) themselves, and what it means to
 * hand the module over to the runtime.
 */
module Loader {
  import opened Wrappers
  import opened Json
  import opened Alloc
  import opened Manifest
  import opened ManifestStore
  import opened AppArgs
  import opened Wamr

  /** Every answer of an allocation oracle is a success. */
  ghost predicate AllOk(oracle: nat -> bool)
  {
    forall n :: oracle(n)
  }

  /**
   * The capabilities the manifest grants the module: the file is read and
   * parsed, and the walk accepts it. None when the loader must refuse.
   */
  function Granted(f: ManifestFile, cwd: string): (g: Option<Caps>)
    ensures g.Some? <==> ReachesParser(f) && f.parsed.Some? && Load(f.parsed.value, cwd).Success?
    ensures g.Some? ==> Success(g.value) == Load(f.parsed.value, cwd)
  {
    if ReachesParser(f) && f.parsed.Some? && Load(f.parsed.value, cwd).Success? then
      Some(Load(f.parsed.value, cwd).value)
    else
      None
  }

  /**
   * The walk's outcomes after which the loaders call free(json) before
   * returning: a key of the wrong kind, a MAP or ENV element that is not
   * a string, and the end of a successful walk.
   */
  predicate ExplicitlyFreed(r: Result<Caps, LoadError>)
  {
    r.Success? || r.error.WrongKind? || r.error == MapNotStrings || r.error == EnvNotStrings
  }

  /**
   * The module was handed to the runtime with capabilities g: the status
   * is wamr()'s, the module saw exactly the granted directories,
   * environment and argument vector, and its entry point is the granted
   * one.
   */
  ghost predicate RunsWith(status: int, log: seq<Event>, g: Caps, argv: seq<string>, e: Engine)
  {
    && status == (if Reached(e) then ExitStatus(e) else -1)
    && (e.initOk ==> Balanced(log))
    && (ConfigureWasi(g.dirs, g.envs, AppArgv(argv)) in log
        <==> e.initOk && e.readOk && (!e.isXip || e.mmapOk) && e.loadOk)
    && (Reached(e) && g.funcName.None? ==> ExecuteMain(AppArgv(argv)) in log)
    && (Reached(e) && g.funcName.Some? ==> ExecuteFunc(g.funcName.value, AppArgv(argv)[1..]) in log)
  }

  /**
   * Hand the module to the runtime: wamr() with the granted directories,
   * environment and entry point, the rebuilt argument vector, and no
   * native libraries.
   */
  method Launch(argv: seq<string>, g: Caps, e: Engine) returns (status: int, log: seq<Event>)
    ensures RunsWith(status, log, g, argv, e)
    ensures !e.initOk ==> log == []
  {
    var loadLog, unloadLog;
    status, log, loadLog, unloadLog := Run(AppArgv(argv), g.dirs, g.envs, g.funcName, [], e);
  }

  /** The byte buffer and the file are settled and the tree is live; freeing it once settles everything. */
  lemma FreeTreeOnce(log: seq<MemEvent>)
    requires Count(log, Allocated(JsonTree)) == 1 && Count(log, Freed(JsonTree)) == 0
    requires NoDoubleFree(log, JsonTree) && NoDoubleFree(log, JsonBytes)
    ensures var log' := log + [Freed(JsonTree)];
            && NoDoubleFree(log', JsonTree) && NoDoubleFree(log', JsonBytes)
            && Count(log', Allocated(JsonTree)) == Count(log', Freed(JsonTree)) == 1
            && Count(log', FileOpened) == Count(log, FileOpened)
            && Count(log', FileClosed) == Count(log, FileClosed)
            && Count(log', Allocated(JsonBytes)) == Count(log, Allocated(JsonBytes))
            && Count(log', Freed(JsonBytes)) == Count(log, Freed(JsonBytes))
  {
    NoDoubleFreeSnoc(log, JsonTree, Freed(JsonTree));
    NoDoubleFreeSnoc(log, JsonBytes, Freed(JsonTree));
    var x := [Freed(JsonTree)];
    assert x[..0] == [];
    CountConcat(log, x, Allocated(JsonTree));
    CountConcat(log, x, Freed(JsonTree));
    CountConcat(log, x, FileOpened);
    CountConcat(log, x, FileClosed);
    CountConcat(log, x, Allocated(JsonBytes));
    CountConcat(log, x, Freed(JsonBytes));
  }
}
