/**
 * The argument vector both loaders hand to the WebAssembly module: the
 * program name is replaced by the embedded module's path and the
 * remaining command-line arguments follow unchanged.
 */
module AppArgs {
  import opened Wrappers

  const WasmPath: string := "/zip/main.wasm"

  /** sizeof(char *) on the 64-bit targets the loader is built for. */
  const PointerSize: nat := 8

  /** size_t arithmetic is modulo 2^64. */
  const SizeModulus: nat := 0x1_0000_0000_0000_0000

  /** app_argc: the loader's own argument count, at least 1 even for an empty argv. */
  function AppArgc(argc: nat): (n: nat)
    ensures n >= 1
    ensures argc >= 1 ==> n == argc
    ensures argc == 0 ==> n == 1
  {
    if argc >= 1 then argc else 1
  }

  /**
   * The byte count the loaders pass to memcpy as written:
   * sizeof(char *) * (argc - 1), where the int argc - 1 is converted to
   * size_t before the multiplication.
   */
  function CopyBytesAsWritten(argc: nat): nat
  {
    ((argc - 1) * PointerSize) % SizeModulus
  }

  /** The room memcpy may fill: the slots after app_argv[0] and before the NULL terminator. */
  function CopyRoom(argc: nat): nat
  {
    (AppArgc(argc) - 1) * PointerSize
  }

  /**
   * With an empty argv (argc == 0) the copy as written asks for
   * 2^64 - 8 bytes into a buffer with no room at all, although
   * app_argc was clamped to 1 precisely to survive that case; for every
   * argc >= 1 it copies exactly the slots there are.
   */
  lemma EmptyArgvCopyOverruns(argc: nat)
    requires argc * PointerSize < SizeModulus
    ensures CopyBytesAsWritten(0) == SizeModulus - PointerSize
    ensures CopyBytesAsWritten(0) > CopyRoom(0)
    ensures argc >= 1 ==> CopyBytesAsWritten(argc) == CopyRoom(argc)
  {
    assert (0 - 1) * PointerSize == -8;
    assert (-8) % SizeModulus == SizeModulus - 8;
  }

  /** The vector the module receives: the module path, then argv[1..]. */
  function AppArgv(argv: seq<string>): (a: seq<string>)
    ensures |a| == AppArgc(|argv|)
    ensures a[0] == WasmPath
    ensures forall i :: 1 <= i < |a| ==> a[i] == argv[i]
  {
    [WasmPath] + (if |argv| >= 1 then argv[1..] else [])
  }

  /**
   * Builds the NULL-terminated app_argv array, copying the
   * AppArgc(argc) - 1 arguments after argv[0] (none for an empty argv).
   * None stands for the terminating NULL.
   */
  method BuildAppArgv(argv: seq<string>) returns (a: array<Option<string>>)
    ensures a.Length == AppArgc(|argv|) + 1
    ensures forall i :: 0 <= i < a.Length - 1 ==> a[i] == Some(AppArgv(argv)[i])
    ensures a[a.Length - 1] == None
  {
    var appArgc := AppArgc(|argv|);
    a := new Option<string>[appArgc + 1](_ => None);
    a[0] := Some(WasmPath);
    // memcpy(&app_argv[1], &argv[1], ...), one slot at a time
    for i := 1 to appArgc
      invariant a[0] == Some(WasmPath) && a[appArgc] == None
      invariant forall j :: 1 <= j < i ==> a[j] == Some(argv[j])
    {
      a[i] := Some(argv[i]);
    }
    a[appArgc] := None;
  }
}
