/**
 * The WebAssembly runner: bring the runtime up, load and register native
 * libraries, read the module file (copying an execute-in-place image into
 * an executable mapping), load, configure WASI, instantiate, run either
 * the named export or the default entry, and tear everything down on the
 * way out through a chain of cleanup labels. The runtime itself is outside
 * the model: an Engine value carries each of its answers, and the run is
 * recorded as a log of acquire and release events.
 */
module Wamr {
  import opened Wrappers
  import opened NativeLibs

  newtype uint32 = x: int | 0 <= x < 0x1_0000_0000

  /** The things the runner acquires and must give back. */
  datatype Resource = Runtime | HeapBuffer | MappedBuffer | Module | Instance

  datatype Event =
    | Acquire(r: Resource)
    | Release(r: Resource)
    /** Copy the heap buffer into an executable mapping and free the heap copy. */
    | Remap
    | ConfigureWasi(dirs: seq<string>, envs: seq<string>, argv: seq<string>)
    | ExecuteMain(argv: seq<string>)
    | ExecuteFunc(name: string, args: seq<string>)
    /** A native-library step: dlopen, registration, unregistration or dlclose. */
    | Native(lib: LibEvent)

  /** What the runtime answers at each step of one run. */
  datatype Engine = Engine(
    initOk: bool,            // wasm_runtime_full_init
    readOk: bool,            // bh_read_file_to_buffer
    isXip: bool,             // wasm_runtime_is_xip_file
    mmapOk: bool,            // os_mmap
    loadOk: bool,            // wasm_runtime_load
    instantiateOk: bool,     // wasm_runtime_instantiate
    mainException: bool,     // an exception is pending after the entry returns
    exitCode: uint32,        // wasm_runtime_get_wasi_exit_code
    threadException: bool)   // an exception is pending after the threads finish

  // ---------------------------------------------------------------------
  // The stack of live resources
  // ---------------------------------------------------------------------

  /** One event's effect on the stack of live resources; None once a release is out of order. */
  function Step(live: Option<seq<Resource>>, e: Event): Option<seq<Resource>>
  {
    match live
    case None => None
    case Some(st) =>
      match e
      case Acquire(r) => Some(st + [r])
      case Release(r) => if st != [] && st[|st| - 1] == r then Some(st[..|st| - 1]) else None
      case Remap =>
        if st != [] && st[|st| - 1] == HeapBuffer then Some(st[..|st| - 1] + [MappedBuffer]) else None
      case _ => Some(st)
  }

  /** The resources live after a log that starts with `start` live, innermost last; None if anything was released out of order. */
  function LiveFrom(start: seq<Resource>, log: seq<Event>): Option<seq<Resource>>
  {
    if log == [] then Some(start) else Step(LiveFrom(start, log[..|log| - 1]), log[|log| - 1])
  }

  function Live(log: seq<Event>): Option<seq<Resource>>
  {
    LiveFrom([], log)
  }

  /** Every acquisition released, innermost first. */
  predicate Balanced(log: seq<Event>)
  {
    Live(log) == Some([])
  }

  /** Append one event to the log. */
  function Emit(log: seq<Event>, e: Event): (l: seq<Event>)
    ensures l == log + [e]
    ensures Live(l) == Step(Live(log), e)
  {
    var l := log + [e];
    assert l[..|l| - 1] == log;
    l
  }

  /** Replaying a + b is replaying a, then b from where a left the stack. */
  lemma {:induction false} LiveFromAppend(start: seq<Resource>, a: seq<Event>, b: seq<Event>)
    ensures LiveFrom(start, a + b)
         == (match LiveFrom(start, a) case None => None case Some(s) => LiveFrom(s, b))
    decreases |b|
  {
    if b == [] {
      assert a + b == a;
    } else {
      assert (a + b)[..|a + b| - 1] == a + b[..|b| - 1];
      LiveFromAppend(start, a, b[..|b| - 1]);
      if LiveFrom(start, a).None? {
        assert LiveFrom(start, a + b) == Step(None, b[|b| - 1]);
      }
    }
  }

  /** A log that nests properly on its own also nests properly under resources acquired earlier. */
  lemma {:induction false} LiveFromUnder(s: seq<Resource>, log: seq<Event>, t: seq<Resource>)
    requires LiveFrom([], log) == Some(t)
    ensures LiveFrom(s, log) == Some(s + t)
    decreases |log|
  {
    if log == [] {
      assert s + [] == s;
    } else {
      var prefix, e := log[..|log| - 1], log[|log| - 1];
      var t0 := LiveFrom([], prefix).value;
      LiveFromUnder(s, prefix, t0);
      StepUnder(s, t0, e);
    }
  }

  /** One event acts on the top of the stack alone, whatever lies beneath. */
  lemma StepUnder(s: seq<Resource>, t0: seq<Resource>, e: Event)
    requires Step(Some(t0), e).Some?
    ensures Step(Some(s + t0), e) == Some(s + Step(Some(t0), e).value)
  {
    match e {
      case Acquire(r) =>
        assert s + t0 + [r] == s + (t0 + [r]);
      case Release(r) =>
        assert (s + t0)[..|s + t0| - 1] == s + t0[..|t0| - 1];
      case Remap =>
        assert (s + t0)[..|s + t0| - 1] == s + t0[..|t0| - 1];
        assert s + t0[..|t0| - 1] + [MappedBuffer] == s + (t0[..|t0| - 1] + [MappedBuffer]);
      case _ =>
    }
  }

  /**
   * A stretch of events that leaves exactly r live, then a balanced
   * stretch, then the release of r, is balanced.
   */
  lemma Wrapped(pre: seq<Event>, r: Resource, mid: seq<Event>)
    requires Live(pre) == Some([r]) && Balanced(mid)
    ensures Balanced(pre + mid + [Release(r)])
  {
    LiveFromUnder([r], mid, []);
    assert [r] + [] == [r];
    LiveFromAppend([], pre, mid);
    LiveFromAppend([], pre + mid, [Release(r)]);
    assert LiveFrom([r], [Release(r)]) == Some([]) by {
      assert [Release(r)][..0] == [];
    }
  }

  /** How often r was obtained: acquired outright, or (for the mapping) by a remap. */
  function Acquired(log: seq<Event>, r: Resource): nat
  {
    if log == [] then 0
    else Acquired(log[..|log| - 1], r) + Gain(log[|log| - 1], r)
  }

  /** How often r was given back: released outright, or (for the heap copy) by a remap. */
  function Released(log: seq<Event>, r: Resource): nat
  {
    if log == [] then 0
    else Released(log[..|log| - 1], r) + Loss(log[|log| - 1], r)
  }

  /** The live stack accounts for every acquisition not yet released. */
  lemma {:induction false} LiveAccounts(log: seq<Event>, st: seq<Resource>)
    requires Live(log) == Some(st)
    ensures forall r :: Acquired(log, r) == Released(log, r) + Held(st, r)
    decreases |log|
  {
    if log != [] {
      var prefix, e := log[..|log| - 1], log[|log| - 1];
      var st0 := Live(prefix).value;
      LiveAccounts(prefix, st0);
      forall r ensures Acquired(log, r) == Released(log, r) + Held(st, r) {
        StepAccounts(st0, e, r);
        assert Acquired(log, r) == Acquired(prefix, r) + Gain(e, r);
        assert Released(log, r) == Released(prefix, r) + Loss(e, r);
      }
    }
  }

  /** Whether e obtains r: an acquisition, or (for the mapping) a remap. */
  function Gain(e: Event, r: Resource): nat
  {
    if e == Acquire(r) || (e == Remap && r == MappedBuffer) then 1 else 0
  }

  /** Whether e gives r back: a release, or (for the heap copy) a remap. */
  function Loss(e: Event, r: Resource): nat
  {
    if e == Release(r) || (e == Remap && r == HeapBuffer) then 1 else 0
  }

  /** How many times r is on the stack. */
  function Held(st: seq<Resource>, r: Resource): nat
  {
    if st == [] then 0 else Held(st[..|st| - 1], r) + (if st[|st| - 1] == r then 1 else 0)
  }

  /** One event moves a resource's live count by what it obtains minus what it gives back. */
  lemma StepAccounts(st0: seq<Resource>, e: Event, r: Resource)
    requires Step(Some(st0), e).Some?
    ensures Held(st0, r) + Gain(e, r) == Held(Step(Some(st0), e).value, r) + Loss(e, r)
  {
    if e.Acquire? {
      HeldSnoc(st0, e.r, r);
    } else if e.Release? {
      ReleaseAccounts(st0, e, r);
    } else if e.Remap? {
      RemapAccounts(st0, e, r);
    } else {
      OtherAccounts(st0, e, r);
    }
  }

  lemma HeldSnoc(st0: seq<Resource>, r0: Resource, r: Resource)
    ensures Held(st0 + [r0], r) == Held(st0, r) + (if r0 == r then 1 else 0)
  {
    assert (st0 + [r0])[..|st0|] == st0;
  }

  lemma ReleaseAccounts(st0: seq<Resource>, e: Event, r: Resource)
    requires e.Release? && Step(Some(st0), e).Some?
    ensures Held(st0, r) + Gain(e, r) == Held(Step(Some(st0), e).value, r) + Loss(e, r)
  {
  }

  lemma RemapAccounts(st0: seq<Resource>, e: Event, r: Resource)
    requires e.Remap? && Step(Some(st0), e).Some?
    ensures Held(st0, r) + Gain(e, r) == Held(Step(Some(st0), e).value, r) + Loss(e, r)
  {
    HeldSnoc(st0[..|st0| - 1], MappedBuffer, r);
  }

  lemma OtherAccounts(st0: seq<Resource>, e: Event, r: Resource)
    requires !e.Acquire? && !e.Release? && !e.Remap?
    ensures Held(st0, r) + Gain(e, r) == Held(Step(Some(st0), e).value, r) + Loss(e, r)
  {
  }

  /** In a balanced log every resource is released exactly as often as it is obtained. */
  lemma BalancedReleasesAll(log: seq<Event>)
    requires Balanced(log)
    ensures forall r :: Acquired(log, r) == Released(log, r)
  {
    LiveAccounts(log, []);
  }

  // ---------------------------------------------------------------------
  // The exit status
  // ---------------------------------------------------------------------

  /** The WASI exit code, an unsigned 32-bit value, stored in a signed 32-bit int. */
  function ToInt32(x: uint32): (v: int)
    ensures -0x8000_0000 <= v < 0x8000_0000
    ensures v == 0 <==> x == 0
    ensures v < 0 <==> x >= 0x8000_0000
    ensures (v as int - x as int) % 0x1_0000_0000 == 0
  {
    if x < 0x8000_0000 then x as int else x as int - 0x1_0000_0000
  }

  /** Everything after the runtime is up goes through: the module runs. */
  predicate ModuleRuns(e: Engine)
  {
    e.readOk && (!e.isXip || e.mmapOk) && e.loadOk && e.instantiateOk
  }

  /** The run gets as far as executing the module. */
  predicate Reached(e: Engine)
  {
    e.initOk && ModuleRuns(e)
  }

  /** The status once the module has run: 1 for an exception, the WASI exit code otherwise. */
  function ExitStatus(e: Engine): int
  {
    if e.mainException || e.threadException then 1 else ToInt32(e.exitCode)
  }

  /** The runner reports success exactly when the module ran without exception and exited with 0. */
  lemma ExitStatusZero(e: Engine)
    ensures ExitStatus(e) == 0 <==> !e.mainException && !e.threadException && e.exitCode == 0
  {
  }

  // ---------------------------------------------------------------------
  // The run
  // ---------------------------------------------------------------------

  /** The entry the run calls: the named export with the arguments after argv[0], or the default entry with all of argv. */
  function Entry(argv: seq<string>, funcName: Option<string>): Event
    requires |argv| >= 1
  {
    match funcName
    case Some(name) => ExecuteFunc(name, argv[1..])
    case None => ExecuteMain(argv)
  }

  /** The instance's events: created, its entry run, destroyed; nothing when instantiation fails. */
  function InstanceLog(argv: seq<string>, funcName: Option<string>, e: Engine): seq<Event>
    requires |argv| >= 1
  {
    if e.instantiateOk then [Acquire(Instance), Entry(argv, funcName), Release(Instance)] else []
  }

  /** The module's events: loaded, given its WASI configuration, instantiated and run, unloaded. */
  function ModuleLog(argv: seq<string>, dirs: seq<string>, envs: seq<string>, funcName: Option<string>, e: Engine): seq<Event>
    requires |argv| >= 1
  {
    if e.loadOk then [Acquire(Module), ConfigureWasi(dirs, envs, argv)] + InstanceLog(argv, funcName, e) + [Release(Module)]
    else []
  }

  /**
   * The file buffer's events: read into a heap buffer, remapped when the
   * image executes in place, and released last; a failed mapping frees the
   * heap buffer at once.
   */
  function BufferLog(argv: seq<string>, dirs: seq<string>, envs: seq<string>, funcName: Option<string>, e: Engine): seq<Event>
    requires |argv| >= 1
  {
    if !e.readOk then []
    else if e.isXip && !e.mmapOk then [Acquire(HeapBuffer), Release(HeapBuffer)]
    else if e.isXip then [Acquire(HeapBuffer), Remap] + ModuleLog(argv, dirs, envs, funcName, e) + [Release(MappedBuffer)]
    else [Acquire(HeapBuffer)] + ModuleLog(argv, dirs, envs, funcName, e) + [Release(HeapBuffer)]
  }

  /** The whole run's events: the runtime is started first and shut down last. */
  function RunLog(argv: seq<string>, dirs: seq<string>, envs: seq<string>, funcName: Option<string>, e: Engine): seq<Event>
    requires |argv| >= 1
  {
    if e.initOk then [Acquire(Runtime)] + BufferLog(argv, dirs, envs, funcName, e) + [Release(Runtime)] else []
  }

  /** Native-library events, in order, as events of the run. */
  function Natives(l: seq<LibEvent>): (r: seq<Event>)
    ensures |r| == |l|
    ensures forall ev: Event :: ev in r <==> ev.Native? && ev.lib in l
  {
    if l == [] then [] else Natives(l[..|l| - 1]) + [Native(l[|l| - 1])]
  }

  /**
   * The whole run's events with native libraries: they are loaded and
   * registered right after the runtime starts, and unregistered and
   * unloaded after the module is gone, right before the runtime is
   * destroyed.
   */
  function RunLogWithLibs(argv: seq<string>, dirs: seq<string>, envs: seq<string>, funcName: Option<string>,
                          load: seq<LibEvent>, unload: seq<LibEvent>, e: Engine): seq<Event>
    requires |argv| >= 1
  {
    if e.initOk then
      [Acquire(Runtime)] + Natives(load) + BufferLog(argv, dirs, envs, funcName, e) + Natives(unload) + [Release(Runtime)]
    else []
  }

  /** Native-library events leave the stack of live resources alone. */
  lemma {:induction false} NativesNeutral(start: seq<Resource>, l: seq<LibEvent>)
    ensures LiveFrom(start, Natives(l)) == Some(start)
    decreases |l|
  {
    if l != [] {
      var n := Natives(l);
      assert n[..|n| - 1] == Natives(l[..|l| - 1]);
      NativesNeutral(start, l[..|l| - 1]);
    }
  }

  /** Library events at the end of a log do not change its replay. */
  lemma NativesTail(start: seq<Resource>, a: seq<Event>, l: seq<LibEvent>)
    ensures LiveFrom(start, a + Natives(l)) == LiveFrom(start, a)
  {
    LiveFromAppend(start, a, Natives(l));
    if LiveFrom(start, a).Some? {
      NativesNeutral(LiveFrom(start, a).value, l);
    }
  }

  /** Logs that replay alike still replay alike after the same events. */
  lemma ReplayCongruent(start: seq<Resource>, x: seq<Event>, y: seq<Event>, b: seq<Event>)
    requires LiveFrom(start, x) == LiveFrom(start, y)
    ensures LiveFrom(start, x + b) == LiveFrom(start, y + b)
  {
    LiveFromAppend(start, x, b);
    LiveFromAppend(start, y, b);
  }

  /** With native libraries the run is still balanced: their events leave the stack alone. */
  lemma LibsBalanced(argv: seq<string>, dirs: seq<string>, envs: seq<string>, funcName: Option<string>,
                     load: seq<LibEvent>, unload: seq<LibEvent>, e: Engine)
    requires |argv| >= 1
    ensures Balanced(RunLogWithLibs(argv, dirs, envs, funcName, load, unload, e))
  {
    if e.initOk {
      RunBalanced(argv, dirs, envs, funcName, e);
      FramedBalanced(Runtime, load, BufferLog(argv, dirs, envs, funcName, e), unload);
    }
  }

  /** Library events inside a balanced frame keep it balanced. */
  lemma FramedBalanced(r: Resource, load: seq<LibEvent>, mid: seq<Event>, unload: seq<LibEvent>)
    requires Balanced([Acquire(r)] + mid + [Release(r)])
    ensures Balanced([Acquire(r)] + Natives(load) + mid + Natives(unload) + [Release(r)])
  {
    var a, z := [Acquire(r)], [Release(r)];
    var nl, nu := Natives(load), Natives(unload);
    NativesTail([], a, load);
    ReplayCongruent([], a + nl, a, mid);
    NativesTail([], a + nl + mid, unload);
    ReplayCongruent([], a + nl + mid + nu, a + mid, z);
  }

  /**
   * With native libraries the run's other events are exactly those of the
   * run without them, and its library events are exactly the libraries'
   * once the runtime started.
   */
  lemma LibsMembers(argv: seq<string>, dirs: seq<string>, envs: seq<string>, funcName: Option<string>,
                    load: seq<LibEvent>, unload: seq<LibEvent>, e: Engine)
    requires |argv| >= 1
    ensures forall ev: Event :: !ev.Native? ==>
              (ev in RunLogWithLibs(argv, dirs, envs, funcName, load, unload, e)
               <==> ev in RunLog(argv, dirs, envs, funcName, e))
    ensures forall x :: Native(x) in RunLogWithLibs(argv, dirs, envs, funcName, load, unload, e)
                        <==> e.initOk && (x in load || x in unload)
  {
    if e.initOk {
      var mid := BufferLog(argv, dirs, envs, funcName, e);
      assert RunLog(argv, dirs, envs, funcName, e) == [Acquire(Runtime)] + mid + [Release(Runtime)];
      forall x ensures Native(x) !in mid {
        InRunLog(Native(x), argv, dirs, envs, funcName, e);
        InModuleLog(Native(x), argv, dirs, envs, funcName, e);
      }
    }
  }

  /** What the run with native libraries holds, step by step of the engine. */
  lemma LibsRunFacts(argv: seq<string>, dirs: seq<string>, envs: seq<string>, funcName: Option<string>,
                     load: seq<LibEvent>, unload: seq<LibEvent>, e: Engine)
    requires |argv| >= 1
    ensures var log := RunLogWithLibs(argv, dirs, envs, funcName, load, unload, e);
      && (e.initOk ==> Balanced(log))
      && (e.initOk ==> |log| >= 2 && log[0] == Acquire(Runtime) && log[|log| - 1] == Release(Runtime))
      && (Acquire(Instance) in log <==> Reached(e))
      && (Reached(e) ==> Entry(argv, funcName) in log)
      && (forall ev :: ev in log && (ev.ExecuteMain? || ev.ExecuteFunc?) ==> Reached(e) && ev == Entry(argv, funcName))
      && (ConfigureWasi(dirs, envs, argv) in log <==> e.initOk && e.readOk && (!e.isXip || e.mmapOk) && e.loadOk)
      && (Release(MappedBuffer) in log <==> e.initOk && e.readOk && e.isXip && e.mmapOk)
      && (forall x :: Native(x) in log <==> e.initOk && (x in load || x in unload))
  {
    LibsBalanced(argv, dirs, envs, funcName, load, unload, e);
    LibsMembers(argv, dirs, envs, funcName, load, unload, e);
    RunLogFacts(argv, dirs, envs, funcName, e);
  }

  /** Without library events the run's events are the plain run's. */
  lemma NoLibsRunLog(argv: seq<string>, dirs: seq<string>, envs: seq<string>, funcName: Option<string>, e: Engine)
    requires |argv| >= 1
    ensures RunLogWithLibs(argv, dirs, envs, funcName, [], [], e) == RunLog(argv, dirs, envs, funcName, e)
  {
    assert Natives([]) == [];
  }

  /**
   * From instantiation on (label fail3 and before): instantiate, run the
   * named export with the arguments after argv[0] or the default entry
   * with all of argv, collect the WASI exit code, and destroy the instance.
   */
  method Instantiate(argv: seq<string>, funcName: Option<string>, e: Engine)
    returns (ret: int, log: seq<Event>)
    requires |argv| >= 1
    ensures ret == (if e.instantiateOk then ExitStatus(e) else -1)
    ensures log == InstanceLog(argv, funcName, e)
  {
    if !e.instantiateOk {
      return -1, [];
    }
    log := [Acquire(Instance)];
    ret := 0;
    if funcName.Some? {
      log := log + [ExecuteFunc(funcName.value, argv[1..])];
      if e.mainException {
        ret := 1;
      }
    } else {
      log := log + [ExecuteMain(argv)];
      if e.mainException {
        ret := 1;
      }
    }
    if ret == 0 {
      ret := ToInt32(e.exitCode);
      if e.threadException {
        ret := 1;
      }
    }
    log := log + [Release(Instance)];
  }

  /** From loading on (label fail2 and before): load the module, hand it the WASI configuration, instantiate, unload. */
  method LoadModule(argv: seq<string>, dirs: seq<string>, envs: seq<string>, funcName: Option<string>, e: Engine)
    returns (ret: int, log: seq<Event>)
    requires |argv| >= 1
    ensures ret == (if e.loadOk && e.instantiateOk then ExitStatus(e) else -1)
    ensures log == ModuleLog(argv, dirs, envs, funcName, e)
  {
    if !e.loadOk {
      return -1, [];
    }
    var inner;
    ret, inner := Instantiate(argv, funcName, e);
    log := [Acquire(Module), ConfigureWasi(dirs, envs, argv)] + inner + [Release(Module)];
  }

  /**
   * The part of wamr() between runtime start-up and shutdown (label fail1
   * and before): read the file, copy an execute-in-place image into an
   * executable mapping, load and run, then free the heap buffer or unmap
   * the mapping.
   */
  method RunModule(argv: seq<string>, dirs: seq<string>, envs: seq<string>, funcName: Option<string>, e: Engine)
    returns (ret: int, log: seq<Event>)
    requires |argv| >= 1
    ensures ret == (if ModuleRuns(e) then ExitStatus(e) else -1)
    ensures log == BufferLog(argv, dirs, envs, funcName, e)
  {
    if !e.readOk {
      return -1, [];
    }
    var pre := [Acquire(HeapBuffer)];
    var buffer := HeapBuffer;
    if e.isXip {
      if !e.mmapOk {
        return -1, pre + [Release(HeapBuffer)];
      }
      pre := pre + [Remap];
      buffer := MappedBuffer;
    }
    var inner;
    ret, inner := LoadModule(argv, dirs, envs, funcName, e);
    log := pre + inner + [Release(buffer)];
  }

  // ---------------------------------------------------------------------
  // What the logs say
  // ---------------------------------------------------------------------

  lemma LiveOne(r: Resource)
    ensures Live([Acquire(r)]) == Some([r])
  {
    var log := Emit([], Acquire(r));
    assert log == [Acquire(r)];
    assert [] + [r] == [r];
  }

  /** Every layer of the run releases what it acquired, innermost first. */
  lemma InstanceBalanced(argv: seq<string>, funcName: Option<string>, e: Engine)
    requires |argv| >= 1
    ensures Balanced(InstanceLog(argv, funcName, e))
  {
    if e.instantiateOk {
      var entry := Emit([], Entry(argv, funcName));
      assert entry == [Entry(argv, funcName)];
      LiveOne(Instance);
      Wrapped([Acquire(Instance)], Instance, entry);
      assert [Acquire(Instance)] + entry + [Release(Instance)] == InstanceLog(argv, funcName, e);
    }
  }

  lemma ModuleBalanced(argv: seq<string>, dirs: seq<string>, envs: seq<string>, funcName: Option<string>, e: Engine)
    requires |argv| >= 1
    ensures Balanced(ModuleLog(argv, dirs, envs, funcName, e))
  {
    if e.loadOk {
      var pre := Emit(Emit([], Acquire(Module)), ConfigureWasi(dirs, envs, argv));
      assert pre == [Acquire(Module), ConfigureWasi(dirs, envs, argv)];
      assert [] + [Module] == [Module];
      InstanceBalanced(argv, funcName, e);
      Wrapped(pre, Module, InstanceLog(argv, funcName, e));
    }
  }

  lemma BufferBalanced(argv: seq<string>, dirs: seq<string>, envs: seq<string>, funcName: Option<string>, e: Engine)
    requires |argv| >= 1
    ensures Balanced(BufferLog(argv, dirs, envs, funcName, e))
  {
    if e.readOk {
      var heap := Emit([], Acquire(HeapBuffer));
      assert heap == [Acquire(HeapBuffer)];
      assert [] + [HeapBuffer] == [HeapBuffer];
      if e.isXip && !e.mmapOk {
        var log := Emit(heap, Release(HeapBuffer));
        assert log == [Acquire(HeapBuffer), Release(HeapBuffer)];
      } else {
        ModuleBalanced(argv, dirs, envs, funcName, e);
        if e.isXip {
          var mapped := Emit(heap, Remap);
          assert mapped == [Acquire(HeapBuffer), Remap];
          assert [HeapBuffer][..0] + [MappedBuffer] == [MappedBuffer];
          Wrapped(mapped, MappedBuffer, ModuleLog(argv, dirs, envs, funcName, e));
        } else {
          Wrapped(heap, HeapBuffer, ModuleLog(argv, dirs, envs, funcName, e));
        }
      }
    }
  }

  lemma RunBalanced(argv: seq<string>, dirs: seq<string>, envs: seq<string>, funcName: Option<string>, e: Engine)
    requires |argv| >= 1
    ensures Balanced(RunLog(argv, dirs, envs, funcName, e))
  {
    if e.initOk {
      LiveOne(Runtime);
      BufferBalanced(argv, dirs, envs, funcName, e);
      Wrapped([Acquire(Runtime)], Runtime, BufferLog(argv, dirs, envs, funcName, e));
    }
  }

  /** What each layer's log holds, event by event. */
  lemma InModuleLog(ev: Event, argv: seq<string>, dirs: seq<string>, envs: seq<string>, funcName: Option<string>, e: Engine)
    requires |argv| >= 1
    ensures ev in ModuleLog(argv, dirs, envs, funcName, e)
            <==> e.loadOk && (|| ev == Acquire(Module) || ev == ConfigureWasi(dirs, envs, argv) || ev == Release(Module)
                              || (e.instantiateOk
                                  && (ev == Acquire(Instance) || ev == Entry(argv, funcName) || ev == Release(Instance))))
  {
  }

  lemma InRunLog(ev: Event, argv: seq<string>, dirs: seq<string>, envs: seq<string>, funcName: Option<string>, e: Engine)
    requires |argv| >= 1
    ensures ev in RunLog(argv, dirs, envs, funcName, e)
            <==> e.initOk
                 && (|| ev == Acquire(Runtime) || ev == Release(Runtime)
                     || (e.readOk
                         && (|| ev == Acquire(HeapBuffer)
                             || (e.isXip && !e.mmapOk && ev == Release(HeapBuffer))
                             || (e.isXip && e.mmapOk && (ev == Remap || ev == Release(MappedBuffer)))
                             || (!e.isXip && ev == Release(HeapBuffer))
                             || ((!e.isXip || e.mmapOk) && ev in ModuleLog(argv, dirs, envs, funcName, e)))))
  {
  }

  /**
   * The run's log shows the instance, the entry call and the WASI set-up
   * exactly when the run got that far, and the mapping's release exactly
   * when the image executed in place.
   */
  lemma RunLogFacts(argv: seq<string>, dirs: seq<string>, envs: seq<string>, funcName: Option<string>, e: Engine)
    requires |argv| >= 1
    ensures Acquire(Instance) in RunLog(argv, dirs, envs, funcName, e) <==> Reached(e)
    ensures Reached(e) ==> Entry(argv, funcName) in RunLog(argv, dirs, envs, funcName, e)
    ensures forall ev :: ev in RunLog(argv, dirs, envs, funcName, e) && (ev.ExecuteMain? || ev.ExecuteFunc?)
                         ==> Reached(e) && ev == Entry(argv, funcName)
    ensures ConfigureWasi(dirs, envs, argv) in RunLog(argv, dirs, envs, funcName, e)
            <==> e.initOk && e.readOk && (!e.isXip || e.mmapOk) && e.loadOk
    ensures Release(MappedBuffer) in RunLog(argv, dirs, envs, funcName, e)
            <==> e.initOk && e.readOk && e.isXip && e.mmapOk
  {
    InRunLog(Acquire(Instance), argv, dirs, envs, funcName, e);
    InModuleLog(Acquire(Instance), argv, dirs, envs, funcName, e);
    InRunLog(Entry(argv, funcName), argv, dirs, envs, funcName, e);
    InModuleLog(Entry(argv, funcName), argv, dirs, envs, funcName, e);
    forall ev | ev in RunLog(argv, dirs, envs, funcName, e) && (ev.ExecuteMain? || ev.ExecuteFunc?)
      ensures Reached(e) && ev == Entry(argv, funcName)
    {
      InRunLog(ev, argv, dirs, envs, funcName, e);
      InModuleLog(ev, argv, dirs, envs, funcName, e);
    }
    InRunLog(ConfigureWasi(dirs, envs, argv), argv, dirs, envs, funcName, e);
    InModuleLog(ConfigureWasi(dirs, envs, argv), argv, dirs, envs, funcName, e);
    InRunLog(Release(MappedBuffer), argv, dirs, envs, funcName, e);
    InModuleLog(Release(MappedBuffer), argv, dirs, envs, funcName, e);
  }

  /** A library log with no event of any kind is empty. */
  lemma NoLibEvents(l: seq<LibEvent>)
    requires forall i: nat :: Opened(i) !in l && Closed(i) !in l && Registered(i) !in l && Unregistered(i) !in l
    ensures l == []
  {
    if l != [] {
      LibEventKinds(l[0]);
      assert false;
    }
  }

  /** A log without opens or registrations holds only unregistrations and closes. */
  lemma UnloadKinds(l: seq<LibEvent>)
    requires forall i: nat :: Opened(i) !in l && Registered(i) !in l
    ensures forall x :: x in l ==> x.Unregistered? || x.Closed?
  {
    forall x | x in l ensures x.Unregistered? || x.Closed? {
      assert Opened(x.lib) !in l && Registered(x.lib) !in l;
    }
  }

  /** A log without unregistrations holds none. */
  lemma LoadKinds(l: seq<LibEvent>)
    requires forall i: nat :: Unregistered(i) !in l
    ensures forall x :: x in l ==> !x.Unregistered?
  {
    forall x | x in l ensures !x.Unregistered? {
      assert Unregistered(x.lib) !in l;
    }
  }

  lemma LibEventKinds(x: LibEvent)
    ensures x == Opened(x.lib) || x == Closed(x.lib) || x == Registered(x.lib) || x == Unregistered(x.lib)
  {
  }

  /**
   * wamr(): returns -1 when the module never runs, otherwise its exit
   * status. Every path releases what it acquired, innermost first, and
   * shuts the runtime down last; the native libraries are loaded right
   * after the runtime starts and unregistered and unloaded right before it
   * is destroyed.
   */
  method Run(argv: seq<string>, dirs: seq<string>, envs: seq<string>, funcName: Option<string>,
             libs: seq<NativeLib>, e: Engine)
    returns (ret: int, log: seq<Event>, loadLog: seq<LibEvent>, unloadLog: seq<LibEvent>)
    requires |argv| >= 1
    requires |libs| <= 8
    ensures !e.initOk ==> ret == -1 && log == []
    ensures log == RunLogWithLibs(argv, dirs, envs, funcName, loadLog, unloadLog, e)
    ensures libs == [] ==> log == RunLog(argv, dirs, envs, funcName, e)
    ensures forall x :: x in unloadLog ==> x.Unregistered? || x.Closed?
    ensures forall x :: x in loadLog ==> !x.Unregistered?
    ensures e.initOk ==> Balanced(log)
    ensures e.initOk ==> |log| >= 2 && log[0] == Acquire(Runtime) && log[|log| - 1] == Release(Runtime)
    ensures ret == (if Reached(e) then ExitStatus(e) else -1)
    ensures Acquire(Instance) in log <==> Reached(e)
    ensures Reached(e) && funcName.None? ==> ExecuteMain(argv) in log
    ensures Reached(e) && funcName.Some? ==> ExecuteFunc(funcName.value, argv[1..]) in log
    ensures forall ev :: ev in log && (ev.ExecuteMain? || ev.ExecuteFunc?) ==> Reached(e)
    ensures ConfigureWasi(dirs, envs, argv) in log
            <==> e.initOk && e.readOk && (!e.isXip || e.mmapOk) && e.loadOk
    ensures Release(MappedBuffer) in log <==> e.initOk && e.readOk && e.isXip && e.mmapOk
    ensures forall i: nat :: i < |libs| ==>
              (Native(Opened(i)) in log && Native(Closed(i)) !in log <==> e.initOk && Registers(libs[i]) && !Unloads(libs[i]))
  {
    ret, log, loadLog, unloadLog := -1, [], [], [];
    if !e.initOk {
      return;
    }
    var handles := new nat[8];
    var handleCount;
    handleCount, loadLog := LoadAndRegisterNativeLibs(libs, handles);
    RegisteredAmongMeaning(libs, |libs|);
    var mid;
    ret, mid := RunModule(argv, dirs, envs, funcName, e);
    var kept := handles[..handleCount];
    forall j | 0 <= j < |kept| ensures kept[j] < |libs| {
      assert kept[j] in RegisteredAmong(libs, |libs|);
    }
    unloadLog := UnregisterAndUnloadNativeLibs(libs, kept);
    UnloadKinds(unloadLog);
    LoadKinds(loadLog);
    if libs == [] {
      NoLibEvents(loadLog);
      assert kept == [];
      NoLibEvents(unloadLog);
      NoLibsRunLog(argv, dirs, envs, funcName, e);
    }
    log := [Acquire(Runtime)] + Natives(loadLog) + mid + Natives(unloadLog) + [Release(Runtime)];
    LibsRunFacts(argv, dirs, envs, funcName, loadLog, unloadLog, e);
  }
}
