/**
 * The runtime's native-library plumbing: open each listed shared library,
 * look up its `get_native_lib` entry, register the symbols it exports, and
 * at shutdown undo that for every handle that was kept. The dynamic loader
 * and the runtime's registry are outside the model: each library carries
 * the answers they give for it.
 */
module NativeLibs {

  /** What dlopen, dlsym, get_native_lib and the runtime's registry answer for one library. */
  datatype NativeLib = NativeLib(
    opensNow: bool,        // dlopen with RTLD_NOW | RTLD_GLOBAL succeeds
    opensLazy: bool,       // dlopen with RTLD_LAZY succeeds
    hasGetter: bool,       // dlsym finds `get_native_lib`
    symbolCount: nat,      // what get_native_lib returns
    hasModuleName: bool,   // get_native_lib sets a module name
    hasSymbols: bool,      // get_native_lib sets a symbol table
    registers: bool,       // wasm_runtime_register_natives succeeds
    valuesAgain: bool,     // at shutdown get_native_lib again gives a count and both pointers
    unregisters: bool)     // wasm_runtime_unregister_natives succeeds

  /** A handle is the index of the library it was opened from. */
  datatype LibEvent = Opened(lib: nat) | Closed(lib: nat) | Registered(lib: nat) | Unregistered(lib: nat)

  predicate Opens(l: NativeLib)
  {
    l.opensNow || l.opensLazy
  }

  /** The library is opened, exports its getter, and its symbols are registered. */
  predicate Registers(l: NativeLib)
  {
    Opens(l) && l.hasGetter && l.symbolCount > 0 && l.hasModuleName && l.hasSymbols && l.registers
  }

  /** At shutdown the library's symbols are unregistered and its handle closed. */
  predicate Unloads(l: NativeLib)
  {
    l.hasGetter && l.valuesAgain && l.unregisters
  }

  /** The indices, in list order, of the first n libraries that end up registered. */
  function RegisteredAmong(libs: seq<NativeLib>, n: nat): seq<nat>
    requires n <= |libs|
  {
    if n == 0 then []
    else RegisteredAmong(libs, n - 1) + (if Registers(libs[n - 1]) then [n - 1] else [])
  }

  /** The kept handles are exactly the registered libraries, each once, in list order. */
  lemma {:induction false} RegisteredAmongMeaning(libs: seq<NativeLib>, n: nat)
    requires n <= |libs|
    ensures |RegisteredAmong(libs, n)| <= n
    ensures forall i: nat :: i in RegisteredAmong(libs, n) <==> i < n && Registers(libs[i])
    ensures forall j, k :: 0 <= j < k < |RegisteredAmong(libs, n)|
              ==> RegisteredAmong(libs, n)[j] < RegisteredAmong(libs, n)[k]
  {
    if n > 0 {
      RegisteredAmongMeaning(libs, n - 1);
      var p := RegisteredAmong(libs, n - 1);
      if Registers(libs[n - 1]) {
        var q := p + [n - 1];
        forall j, k | 0 <= j < k < |q| ensures q[j] < q[k] {
          if k == |p| {
            assert p[j] in p;
          }
        }
      } else {
        assert p + [] == p;
      }
    }
  }

  /**
   * load_and_register_native_libs: a library that cannot be opened is
   * skipped; one without the getter, or whose symbols cannot be
   * registered, is closed again; the others are kept in `handles`.
   */
  method LoadAndRegisterNativeLibs(libs: seq<NativeLib>, handles: array<nat>)
    returns (count: nat, log: seq<LibEvent>)
    requires |libs| <= handles.Length
    modifies handles
    ensures count <= |libs|
    ensures handles[..count] == RegisteredAmong(libs, |libs|)
    ensures forall i: nat :: Opened(i) in log <==> i < |libs| && Opens(libs[i])
    ensures forall i: nat :: Registered(i) in log <==> i < |libs| && Registers(libs[i])
    ensures forall i: nat :: Closed(i) in log <==> i < |libs| && Opens(libs[i]) && !Registers(libs[i])
    ensures forall i: nat :: Unregistered(i) !in log
  {
    count, log := 0, [];
    for i := 0 to |libs|
      invariant count <= i
      invariant handles[..count] == RegisteredAmong(libs, i)
      invariant forall k: nat :: Opened(k) in log <==> k < i && Opens(libs[k])
      invariant forall k: nat :: Registered(k) in log <==> k < i && Registers(libs[k])
      invariant forall k: nat :: Closed(k) in log <==> k < i && Opens(libs[k]) && !Registers(libs[k])
      invariant forall k: nat :: Unregistered(k) !in log
    {
      var lib := libs[i];
      if !lib.opensNow && !lib.opensLazy {
        continue;
      }
      log := log + [Opened(i)];
      if !lib.hasGetter {
        log := log + [Closed(i)];
        continue;
      }
      if !(lib.symbolCount > 0 && lib.hasModuleName && lib.hasSymbols && lib.registers) {
        log := log + [Closed(i)];
        continue;
      }
      log := log + [Registered(i)];
      handles[count] := i;
      count := count + 1;
    }
  }

  /**
   * unregister_and_unload_native_libs: for each kept handle, in order,
   * unregister its symbols and close it; a handle whose getter is missing,
   * whose getter now answers differently, or whose unregistration fails
   * is skipped and stays open.
   */
  method UnregisterAndUnloadNativeLibs(libs: seq<NativeLib>, handles: seq<nat>)
    returns (log: seq<LibEvent>)
    requires forall j :: 0 <= j < |handles| ==> handles[j] < |libs|
    ensures forall i: nat :: Unregistered(i) in log <==> i in handles && Unloads(libs[i])
    ensures forall i: nat :: Closed(i) in log <==> i in handles && Unloads(libs[i])
    ensures forall i: nat :: Opened(i) !in log && Registered(i) !in log
  {
    log := [];
    for j := 0 to |handles|
      invariant forall i: nat :: Unregistered(i) in log <==> i in handles[..j] && Unloads(libs[i])
      invariant forall i: nat :: Closed(i) in log <==> i in handles[..j] && Unloads(libs[i])
      invariant forall i: nat :: Opened(i) !in log && Registered(i) !in log
    {
      assert handles[..j + 1] == handles[..j] + [handles[j]];
      var lib := libs[handles[j]];
      if !lib.hasGetter {
        continue;
      }
      if !lib.valuesAgain {
        continue;
      }
      if !lib.unregisters {
        continue;
      }
      log := log + [Unregistered(handles[j]), Closed(handles[j])];
    }
    assert handles[..|handles|] == handles;
  }
}
