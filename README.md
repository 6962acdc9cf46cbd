# hermit in Dafny

hermit packages a WebAssembly module together with a JSON manifest,
`hermit.json`, into a single executable. At start-up a loader reads the
manifest. It walks the manifest's keys to build a capability set: the
directories to expose (`MAP`), the environment (`ENV`, plus `PWD` when
`ENV_PWD_IS_HOST_CWD` is set) and the exported function to call
(`ENTRYPOINT`). It then runs the module under WAMR, the WebAssembly Micro
Runtime. A command-line tool writes that manifest from a Dockerfile-like
`Hermitfile`. An earlier prototype of the same parser is also part of the
repository.

This project models those pieces and proves properties about them:

- `wrappers.dfy`: the `Option` and `Result` types.
- `json.dfy`: the JSON tree the loaders walk, its seven kinds, and the
  names `get_json_type_name` prints.
- `env_syntax.dfy`: `validate_env_str`, which accepts a `KEY=VALUE`
  string.
- `alloc.dfy`: the loaders' memory handling. The dir and env lists are a
  class over an array that grows with `realloc` (`reserve`). It also
  models `memdup`, the scope cleanups, and a log of memory events with
  counts of allocations and frees.
- `manifest.dfy`: the key table and the walk of the manifest's members.
  - A pure specification, `Load`, gives the capability set or the error.
  - An imperative walker, `BuildCapabilities`, is proved against `Load`.
  - The outcome of each `realloc` and `memdup` is a parameter (an
    allocation oracle).
- `manifest_facts.dfy`: lemmas about `Load`: which directories and
  environment entries a walk grants, which errors stop it, and that the
  last `ENTRYPOINT` wins.
- `manifest_store.dfy`: reading `/zip/hermit.json`. Every exit path is
  modelled with its file and buffer events.
- `app_args.dfy`: the argument vector handed to the module.
- `native_libs.dfy`: the native-library load and unload loops of
  `wamr.c`. The outcomes of `dlopen` and `dlsym` are parameters.
- `wamr.dfy`: `wamr()`. It records the runtime's acquire and release
  events in a log, and proves that every resource acquired on a run is
  released in reverse order.
- `loader.dfy`, `hermit_base.dfy`, `main_loader.dfy`: the two loaders'
  `main` functions. `src/hermit-base.c` calls `wamr()`.
  `src/main.c` runs the same runtime sequence inline, and its string
  copies do not check `malloc`.
- `hermit_cli.dfy`, `hermit_cli_facts.dfy`: the Hermitfile parser of
  the command-line tool.
- `hermit_manifest.dfy`: the JSON the tool writes, and a proof that the
  loaders accept that JSON and grant what the Hermitfile asked for.
- `prototype.dfy`: the prototype parser, which splits `MAP` entries at
  `':'`.

The duplicated C code is modelled once. `validate_env_str`, `reserve`,
`get_json_type_name`, the manifest read, the key walk and the runtime
sequence appear in both `src/main.c` and `src/hermit-base.c`/`src/wamr.c`.
The differences between the copies are modelled as parameters:

- `src/main.c` closes the file explicitly rather than through a scope
  cleanup.
- `src/main.c` frees the tree on a non-object root.
- `src/main.c` does not check `malloc`.

Where the design description and the code disagree, the model follows the
code:

- `ENV_EXE_NAME_IS_HOST_EXE_NAME` is not in either loader's key table. It
  is logged as an unknown key and adds no `EXE_NAME` entry.
- A failed read, load or instantiation of the module makes `wamr()`
  return -1, not 1.
- A non-zero WASI exit code is returned as the status, reinterpreted as a
  signed 32-bit value (`ToInt32`).
- Runtime initialisation happens after the manifest has been processed.
- An empty manifest file is a read error, since `fread(buf, 0, 1, f)`
  returns 0.

## Model

| member | source | states |
|---|---|---|
| `Json.TypeName` | src/hermit-base.c:25-44 | the name printed is `UNKNOWN_TYPE` exactly for codes outside the seven JSON kinds; every known kind prints a `json_type_...` name |
| `Json.TypeNamesDistinct` | src/main.c:261-280 | two different kinds get different codes and different printed names, so a wrong-kind message always names two different types |
| `EnvSyntax.ValidateEnvStr` | src/wamr.c:44-59 | the scan returns true if and only if the string has a non-empty key of characters that are neither `=` nor NUL, followed by `=` |
| `EnvSyntax.RejectedShapes` | src/main.c:57-73 | the empty string, a string starting with `=`, and a string without `=` are all rejected |
| `EnvSyntax.PwdEntryIsKeyValue` | src/hermit-base.c:237-249 | the synthesized `PWD=<cwd>` entry is always a well-formed environment string |
| `EnvSyntax.JoinedIsKeyValue` | hermit-cli/crates/hermitfile-parser/src/main.rs:122-124 | a `k=v` entry whose key is non-empty and free of `=` and NUL passes the loaders' validation |
| `Alloc.StrList.constructor` | src/hermit-base.c:148-153 | a list starts empty with no capacity |
| `Alloc.StrList.Reserve` | src/hermit-base.c:47-60 | succeeds exactly when the capacity already suffices or `realloc` succeeds; the contents never change; on growth the capacity becomes the requested one; on failure the old buffer is kept |
| `Alloc.StrList.Push` | src/hermit-base.c:226 | `list[size++] = item` appends exactly that item and keeps the buffer |
| `Alloc.Memdup` | src/hermit-base.c:63-71 | NULL exactly when `malloc` fails; otherwise a fresh block holding the first `size` elements of the source |
| `Alloc.CleanupFree` | src/hermit-base.c:75-83 | the scope cleanup frees a non-NULL pointer once and ignores NULL |
| `Alloc.CleanupClose` | src/hermit-base.c:86-93 | the scope cleanup closes an open file once and ignores NULL |
| `AppArgs.AppArgc` | src/hermit-base.c:307 | `app_argc` is at least 1: the process's `argc` when that is at least 1, and 1 for an empty argv |
| `AppArgs.AppArgv` | src/hermit-base.c:307-311 | the module's argv has `app_argc` entries: `/zip/main.wasm`, then `argv[1..]` unchanged |
| `AppArgs.BuildAppArgv` | src/main.c:534-538 | the array has `app_argc + 1` slots, ends with NULL, and holds the module's argv in order, also for an empty argv |
| `AppArgs.EmptyArgvCopyOverruns` | src/main.c:537 | for `argc == 0` the `memcpy` size as written is 2^64 - 8 bytes, more than the room after `app_argv[0]`; for every `argc >= 1` it is exactly the room |
| `Text.IndexFrom` | src/hermit-base.c:189 | the first occurrence of the character at or after the start, or the end: no occurrence before it |
| `Manifest.CStr` | src/hermit-base.c:189 | `strcmp` sees a key up to its first NUL: a prefix of the key with no NUL in it, ending at a NUL or at the end |
| `Manifest.LookupIn` | src/hermit-base.c:187-199 | a found entry is in the table and carries the key; nothing found means no entry carries it |
| `Manifest.Lookup` | src/hermit-base.c:173-181 | a key found in the table maps to an entry whose expected kind is the one the table gives its index |
| `Manifest.FindConfigItem` | src/main.c:430-443 | the search loop over the key table finds exactly the entry `Lookup` specifies: the first one carrying the key, or none |
| `Manifest.AppendMapElements` | src/hermit-base.c:203-229 | the new dir list is the old one plus the `MAP` strings in order; a non-string element is reported as `MapNotStrings`; out of memory only when `realloc` or a copy failed |
| `Manifest.AppendEnvElements` | src/hermit-base.c:252-285 | the new env list is what `AppendEnvs` gives; a non-string or malformed element is reported as that specification's error; out of memory only when an allocation failed |
| `Manifest.AppendPwdEntry` | src/hermit-base.c:230-251 | on success the env list gains exactly `PWD=<cwd>` at its end; the only error is out of memory, caused by a failed allocation |
| `Manifest.ApplyKnownMember` | src/hermit-base.c:201-301 | a recognised member of the right kind changes the lists and entry point exactly as `ApplyItem` specifies, or fails with its error, or fails with out of memory caused by a failed allocation |
| `Manifest.BuildCapabilities` | src/hermit-base.c:142-304 | a non-object root is rejected; a success is exactly `Load`'s result; a failure is `Load`'s error or out of memory; when every allocation succeeds the result is exactly `Load`'s |
| `ManifestFacts.AppendDirsMeaning` | src/hermit-base.c:211-227 | `MAP` succeeds if and only if every element is a string, and then appends them in order |
| `ManifestFacts.AppendEnvsAllGood` | src/hermit-base.c:260-283 | when every element is a well-formed `KEY=VALUE` string, `ENV` appends them all in order |
| `ManifestFacts.AppendEnvsFailsAt` | src/hermit-base.c:260-275 | the first unacceptable `ENV` element decides the error: not a string, or a malformed entry naming that string |
| `ManifestFacts.AppendEnvsSucceedsOnlyIfAllGood` | src/hermit-base.c:260-283 | `ENV` succeeds only if every element is a well-formed string |
| `ManifestFacts.AppendEnvsWellFormed` | src/hermit-base.c:269-282 | every environment entry accepted from `ENV` is well formed |
| `ManifestFacts.WalkAppend` | src/hermit-base.c:182-303 | walking `a + b` walks `a`, stops at its first error, and otherwise continues with `b` from where `a` ended |
| `ManifestFacts.WrongKindStopsWalk` | src/hermit-base.c:189-196 | a recognised key with the wrong kind stops the walk with a wrong-kind error naming the key, the expected kind and the found kind |
| `ManifestFacts.PwdFlagFalseRejected` | src/hermit-base.c:175-177 | `ENV_PWD_IS_HOST_CWD` expects `true`, so `false` is a wrong-kind error |
| `ManifestFacts.FirstMemberWrongKind` | src/main.c:432-439 | a manifest whose first recognised member has the wrong kind is rejected with that error |
| `ManifestFacts.NonObjectRootRejected` | src/hermit-base.c:142-146 | a root that is not an object is rejected |
| `ManifestFacts.UnknownKeyKeepsCaps` | src/hermit-base.c:297-302 | an unknown key changes nothing |
| `ManifestFacts.NetArgvKeepCaps` | src/hermit-base.c:298-300 | `NET` and `ARGV` change nothing when they are arrays, and are wrong-kind errors otherwise |
| `ManifestFacts.ExeNameKeyUnknown` | src/hermit-base.c:173-181 | `ENV_EXE_NAME_IS_HOST_EXE_NAME` is not in the key table |
| `ManifestFacts.WalkDirs` | src/hermit-base.c:203-229 | after a successful walk the directories are exactly the `MAP` strings in document order |
| `ManifestFacts.WalkEnvs` | src/hermit-base.c:230-285 | after a successful walk the environment is exactly the `ENV` strings and `PWD` entries in document order |
| `ManifestFacts.WalkEnvsWellFormed` | src/hermit-base.c:252-285 | every environment entry granted by a successful walk is well formed |
| `ManifestFacts.NoEntrypointKeepsFuncName` | src/hermit-base.c:286-296 | without an `ENTRYPOINT` member the function name is unchanged |
| `ManifestFacts.EntrypointMember` | src/hermit-base.c:286-296 | an accepted `ENTRYPOINT` member is a string and becomes the function name |
| `ManifestFacts.LastEntrypointWins` | src/main.c:516-523 | when `ENTRYPOINT` appears several times, the last one names the function |
| `ManifestStore.ReadManifest` | src/hermit-base.c:98-146 | each failure (open, seek, tell, malloc, fread, parse) gives its own error and event log; success returns the parsed tree; the file is closed and the byte buffer freed on every path; the tree is outstanding exactly on success |
| `ManifestStore.CountsOf` | src/main.c:357-398 | each of the four read logs closes what it opens, frees the byte buffer it allocates, and frees nothing twice |
| `HermitBase.DoubleFreeAsWritten` | src/hermit-base.c:98-304 | as written, the tree is freed twice exactly on the exits with an explicit `free(json)`: a wrong-kind key, a non-string `MAP` or `ENV` element, and every successful walk |
| `HermitBase.TreeFreedOnce` | src/hermit-base.c:98-304 | with the explicit frees dropped, the deferred cleanup frees the tree exactly once on every exit after parsing |
| `HermitBase.RunLoader` | src/hermit-base.c:96-316 | the walk's outcome is reported: `Load`'s result, or out of memory when a `reserve` or `memdup` failed, which is the only way a grantable manifest can fail; status 1 and no run when the manifest is not read or the walk fails; a successful walk runs `wamr()` with exactly its capabilities, which are the granted ones; with successful allocations the walk is `Load`'s; the file is closed and the buffer freed once; the tree is released the corrected way (see Findings): by the deferred cleanup alone, once on every exit |
| `MainLoader.RunLoader` | src/main.c:298-541 | the walk's outcome is reported: `Load`'s result, or out of memory when a `reserve` failed; status 1 and no run when the manifest is not read or the walk fails, out of memory included; a successful walk runs with exactly the granted capabilities; with successful `realloc`s the walk is `Load`'s; file and buffer are released once; the tree is freed at most once, and left allocated only on an error exit such as a rejected `ENV` entry |
| `MainLoader.WalkAndRun` | src/main.c:394-541 | after parsing: the walk is `Load`'s result or out of memory from a failed `reserve` (main.c:449-452, 471-474, 489-492), and a failed walk gives status 1 and no run; a rejected manifest gives status 1 and no run; the tree is freed at most once, never on a rejected `ENV` entry; with successful `realloc`s an accepted manifest runs with its capabilities |
| `Loader.Launch` | src/hermit-base.c:306-315 | the module is handed the granted directories, environment and entry point, and the argv built from the process's |
| `NativeLibs.RegisteredAmongMeaning` | src/wamr.c:66-112 | the kept handles are exactly the libraries that registered, in order |
| `NativeLibs.LoadAndRegisterNativeLibs` | src/wamr.c:66-112 | the handle list holds exactly the registered libraries in order; a library is opened if `dlopen` succeeds, closed again exactly when it opened but did not register; nothing is unregistered |
| `NativeLibs.UnregisterAndUnloadNativeLibs` | src/wamr.c:114-155 | a kept library is unregistered and closed exactly when its lookups and unregistration succeed; nothing is opened or registered |
| `Wamr.ToInt32` | src/wamr.c:451 | the exit code, stored into a signed 32-bit `ret`, keeps its value modulo 2^32, is zero only for zero and is negative exactly from 2^31 up |
| `Wamr.ExitStatusZero` | src/wamr.c:429-457 | the status after a run is 0 exactly when no exception was raised and the WASI exit code is 0 |
| `Wamr.Instantiate` | src/wamr.c:394-469 | returns the run's status if instantiation succeeds and -1 otherwise; its events are exactly the instance's log, which `Wamr.RunBalanced` shows balanced |
| `Wamr.LoadModule` | src/wamr.c:377-473 | returns the run's status when loading and instantiation succeed and -1 otherwise; its events are exactly the module's log, described by `Wamr.InModuleLog` |
| `Wamr.RunModule` | src/wamr.c:345-480 | returns the run's status when the file is read, remapped if it is XIP, loaded and instantiated, and -1 otherwise; its events are exactly the buffer's log, described by `Wamr.InRunLog` |
| `Wamr.Run` | src/wamr.c:247-492 | -1 without a run when init fails; otherwise the log opens with runtime init and closes with its destroy, every acquired resource is released, and the entry runs exactly when every step succeeded, with the module's argv (all of it for the default entry, `argv[1..]` for a named function); the status is the run's or -1; the native libraries are loaded right after init and unregistered and unloaded after the module is gone, right before the runtime is destroyed; with no libraries the log is exactly the plain run's; a native library stays loaded exactly when it registered and its unload failed |
| `Wamr.NativesNeutral` | src/wamr.c:340-341 | native-library events acquire and release no runtime resource |
| `Wamr.FramedBalanced` | src/wamr.c:340-489 | library loads right after a resource is acquired and unloads right before it is released keep the log balanced |
| `Wamr.LibsBalanced` | src/wamr.c:484-489 | the run with its library events is balanced |
| `Wamr.LibsMembers` | src/wamr.c:329-490 | with library events, the run's other events are exactly the plain run's, and its library events are exactly the loads and unloads |
| `Wamr.LibsRunFacts` | src/wamr.c:329-490 | the run with libraries opens with init and closes with destroy, is balanced, and reaches each step under exactly the engine outcomes of the plain run |
| `Wamr.InModuleLog` | src/wamr.c:377-473 | the events of a module's life are exactly acquire, WASI set-up and release, plus the instance's events when instantiation succeeds |
| `Wamr.InRunLog` | src/wamr.c:329-491 | the events of a run are exactly those the reached steps emit, each step's cleanup included |
| `Wamr.RunLogFacts` | src/wamr.c:394-457 | the instance is acquired exactly when every step succeeded; the entry is executed only then and with the expected arguments; WASI is configured exactly when loading succeeded; the buffer is unmapped exactly for a mapped XIP file |
| `Wamr.RunBalanced` | src/wamr.c:468-491 | the `fail` labels release, in reverse order, exactly what was acquired |
| `Wamr.LiveAccounts` | src/wamr.c:468-491 | at every point of a well-formed log, each resource was acquired as often as it was released plus the number still held |
| `Wamr.BalancedReleasesAll` | src/wamr.c:468-491 | in a balanced log every resource is released as often as it is acquired |
| `HermitCli.LastSlash` | hermit-cli/crates/hermitfile-parser/src/main.rs:69 | finds the last `/` before a position, or reports that there is none |
| `HermitCli.Parent` | hermit-cli/crates/hermitfile-parser/src/main.rs:68-69 | `Path::parent`, component by component: there is no parent exactly for the empty path and for a root followed only by separators and `.` components; otherwise the parent is a shorter prefix of the path with no trailing separator |
| `HermitCli.ParentNormalises` | hermit-cli/crates/hermitfile-parser/src/main.rs:68-69 | repeated separators, `.` components and a trailing separator are skipped (`a/./f` and `a/b/` both have parent `a`, `//` has none); a leading `.` is kept |
| `HermitCli.Push` | hermit-cli/crates/hermitfile-parser/src/main.rs:70 | an absolute component replaces the path; a relative one is appended after it; the result ends with the component |
| `HermitCli.EmitEnv` | hermit-cli/crates/hermitfile-parser/src/main.rs:122-124 | one `k=v` entry per map key, each with its value, in some order |
| `HermitCli.ParseHermitfile` | hermit-cli/crates/hermitfile-parser/src/main.rs:62-124 | a panic during the fold is the result; a missing `FROM` panics; otherwise the record is the fold's, with the env map emitted as `k=v` entries |
| `HermitCliFacts.FoldAppend` | hermit-cli/crates/hermitfile-parser/src/main.rs:65-116 | folding `a + b` folds `a`, stops at its panic, and otherwise continues with `b` |
| `HermitCliFacts.StepKeepsField` | hermit-cli/crates/hermitfile-parser/src/main.rs:74-88 | an instruction that does not set `NET`, `MAP` or `LINK` leaves that field unchanged |
| `HermitCliFacts.FoldKeepsField` | hermit-cli/crates/hermitfile-parser/src/main.rs:74-88 | instructions that do not set a list field leave it unchanged |
| `HermitCliFacts.LastExecWins` | hermit-cli/crates/hermitfile-parser/src/main.rs:74-88 | the last exec-form `NET`, `MAP` or `LINK` decides that field, replacing earlier ones |
| `HermitCliFacts.FoldKeepsEntrypoint` | hermit-cli/crates/hermitfile-parser/src/main.rs:101-111 | instructions that do not set the entry point leave it unchanged |
| `HermitCliFacts.LastEntrypointWins` | hermit-cli/crates/hermitfile-parser/src/main.rs:101-111 | the last `ENTRYPOINT` decides the entry point: its first component |
| `HermitCliFacts.FlagsOnlyRise` | hermit-cli/crates/hermitfile-parser/src/main.rs:112-113 | each flag is set exactly when it was already set or its instruction occurs; nothing clears it |
| `HermitCliFacts.InsertVarsMeaning` | hermit-cli/crates/hermitfile-parser/src/main.rs:89-100 | after an `ENV` instruction a key it sets has the last value the instruction gives it; keys it does not mention keep their old values, and no key appears or disappears |
| `HermitCliFacts.StepKeepsEnv` | hermit-cli/crates/hermitfile-parser/src/main.rs:89-100 | an instruction that does not set a key keeps its value |
| `HermitCliFacts.FoldKeepsEnv` | hermit-cli/crates/hermitfile-parser/src/main.rs:89-100 | instructions that do not set a key keep its value |
| `HermitCliFacts.EnvLastWins` | hermit-cli/crates/hermitfile-parser/src/main.rs:89-100 | the last `ENV` that sets a key decides its value |
| `HermitCliFacts.FromResolved` | hermit-cli/crates/hermitfile-parser/src/main.rs:67-73 | `FROM` succeeds when the Hermitfile path has a parent; the result ends with the image, lies under the parent unless the image is absolute, and changes no other field |
| `HermitCliFacts.FromWithoutParentPanics` | hermit-cli/crates/hermitfile-parser/src/main.rs:69 | `FROM` panics when the Hermitfile path is empty or only a root (`/`, `//`, `/./`) |
| `HermitManifest.SupportedKeysWritten` | hermit-cli/crates/hermitfile-parser/src/main.rs:11-25 | the supported fields are written exactly when they are non-empty or true |
| `HermitManifest.NotYetSupportedKeysWritten` | hermit-cli/crates/hermitfile-parser/src/main.rs:26-41 | the not-yet-supported fields are written exactly when they are non-empty |
| `HermitManifest.SerializeOmits` | hermit-cli/crates/hermitfile-parser/src/main.rs:11-42 | the keys written are exactly those of non-empty and true fields |
| `HermitManifest.SerializedValues` | hermit-cli/crates/hermitfile-parser/src/main.rs:20-41 | a written `ENTRYPOINT` is a non-empty string; written flags are `true` |
| `HermitManifest.MapWalked` | src/hermit-base.c:203-229 | a written `MAP` appends its strings to the directories |
| `HermitManifest.EnvWalked` | src/hermit-base.c:252-285 | a written `ENV` of well-formed entries appends them to the environment |
| `HermitManifest.PwdWalked` | src/hermit-base.c:230-251 | a written `ENV_PWD_IS_HOST_CWD` appends `PWD=<cwd>` |
| `HermitManifest.ExeNameWalked` | src/hermit-base.c:297-302 | a written `ENV_EXE_NAME_IS_HOST_EXE_NAME` changes nothing in the loaders |
| `HermitManifest.FromWalked` | src/hermit-base.c:297-302 | a written `FROM` changes nothing in the loaders |
| `HermitManifest.LinkWalked` | src/hermit-base.c:297-302 | a written `LINK` changes nothing in the loaders |
| `HermitManifest.NetWalked` | src/hermit-base.c:298-300 | a written `NET` changes nothing in the loaders |
| `HermitManifest.ArgvWalked` | src/hermit-base.c:298-300 | a written `ARGV` changes nothing in the loaders |
| `HermitManifest.EntrypointWalked` | src/hermit-base.c:286-296 | a written `ENTRYPOINT` names the function to run |
| `HermitManifest.SupportedLoads` | hermit-cli/crates/hermitfile-parser/src/main.rs:11-25 | the supported part of the written manifest grants the Hermitfile's directories, its environment and `PWD` when asked |
| `HermitManifest.NotYetSupportedLoads` | hermit-cli/crates/hermitfile-parser/src/main.rs:26-41 | the rest of the written manifest only sets the entry point |
| `HermitManifest.ProducedManifestLoads` | hermit-cli/crates/hermitfile-parser/src/main.rs:11-42 | every manifest the tool writes, with well-formed environment entries, is accepted by the loaders and grants exactly the Hermitfile's directories, environment, `PWD` entry and entry point |
| `Prototype.SplitMappings` | crates/hermitfile-parser/src/main.rs:47-60 | the loop's mappings are exactly `Mappings`: one pair per element with a `:`, in order |
| `Prototype.BuildRecord` | crates/hermitfile-parser/src/main.rs:35-74 | the record is the fold of the instructions over the default |
| `Prototype.PairSplit` | crates/hermitfile-parser/src/main.rs:52-54 | the two parts contain no `:`; they rejoin to the element exactly when it has a single `:`; otherwise the element goes on after a second `:` |
| `Prototype.PairOfJoined` | crates/hermitfile-parser/src/main.rs:52-54 | splitting `a:b`, with no `:` in `a` or `b`, gives back `(a, b)` |
| `Prototype.MappingsComplete` | crates/hermitfile-parser/src/main.rs:50-56 | every element with a `:` contributes its pair; there are no more pairs than elements |
| `Prototype.MappingsSound` | crates/hermitfile-parser/src/main.rs:50-56 | every pair comes from an element with a `:` |
| `Prototype.MappingsAligned` | crates/hermitfile-parser/src/main.rs:50-56 | when every element has a `:`, the pairs line up one to one with the elements |
| `Prototype.StepMeaning` | crates/hermitfile-parser/src/main.rs:38-73 | an instruction sets exactly the field it assigns and leaves the others |
| `Prototype.FoldKeeps` | crates/hermitfile-parser/src/main.rs:37-74 | instructions that do not assign a field leave it unchanged |
| `Prototype.LastWins` | crates/hermitfile-parser/src/main.rs:37-74 | the last instruction assigning a field decides it |
| `Prototype.Unwritten` | crates/hermitfile-parser/src/main.rs:35 | a field no instruction assigns keeps its default |

## Left out

- Reading the Hermitfile from disk, UTF-8 decoding and the `dockerfile_parser` grammar are not modelled. The parser's output, a sequence of instructions, is the input.
- The prototype's literal input and its `unwrap` are not modelled.
- Printing is not modelled: `println!`, `print_help`, `printf` and `LOG_WARNING`.
- `create_hermit_executable` and the zip packaging are not modelled; they are file I/O.
- `serde_json`'s pretty-printing is not modelled. The written JSON is modelled as its sequence of members.
- `HermitCli.EmitEnv`: the order in which `HashMap` iterates is unspecified, so the contract fixes the entries and not their order.
- `HermitCli.Parent`: only Unix paths are modelled. Windows prefixes and `\` separators are not.
- The JSON parser (`json.h`) is an oracle. The tree it produces, or its failure, is part of the manifest file's description.
- NUL characters inside JSON strings are modelled only for keys, where `strcmp` stops at them.
- `getcwd` is a parameter. Its NULL result is not modelled.
- The loaders never fill the native-library list, so `Wamr.Run` is called with no libraries. The loops are still modelled and proved for any list of at most 8, the size of the handle array.
- Runtime internals are abstracted as an engine description. These include WAMR's loader, interpreter, WASI, threads and `mmap`. The engine gives the outcome of each runtime call, the exception flags and the WASI exit code.
- Compile-time options are not modelled: multi-module, debug interpreter, PGO, bounds checks and JIT.
- Allocation failure: the loaders' promises under allocation failure are stated as "out of memory, caused by a failed allocation". Which allocation fails is an oracle; memory exhaustion itself is not modelled.
- `Alloc.StrList.Reserve`: sizes and capacities are `uint32_t` (src/hermit-base.c:149-152, src/main.c's copies), and the model takes them as unbounded. Wrap-around would need more than 2^32 elements.
- `Manifest.AppendMapElements`: the requested size `dir_list_size + value->length` (src/hermit-base.c:206, src/main.c:449) is not truncated to 32 bits; truncation would need more than 2^32 elements.
- `Manifest.AppendEnvElements`: the requested size `env_list_size + value->length + 1` (src/hermit-base.c:255, src/main.c:489) is not truncated to 32 bits either, for the same reason.
- `MainLoader.RunLoader`: an unchecked `malloc` in `src/main.c` that returns NULL would crash. The model assumes those copies succeed (`Unchecked`).
- `HermitBase.RunLoader`: models the corrected release of the tree (`TreeFrees`). The explicit `free(json)` calls at src/hermit-base.c:193, 215, 264 and 304 are dropped, so the deferred cleanup frees the tree once. The code as written frees it twice; that is `HermitBase.DoubleFreeAsWritten` under Findings.
- `HermitBase.RunLoader`: the `malloc` of `app_argv` at src/hermit-base.c:308 is not checked either; the model assumes it succeeds.

## Findings

| source | as written | input that shows it | evidently intended | confidence | as-written member | corrected member |
|---|---|---|---|---|---|---|
| src/hermit-base.c:193 | `json` is declared with `defer_free` and is also freed explicitly on the wrong-kind and non-string exits (lines 193, 215, 264) and after a successful walk (line 304); the deferred `cleanup_free` then frees the same pointer again when `main` returns | the manifest `{}`: the walk succeeds, `free(json)` runs at line 304, and the cleanup frees it again | the tree freed once, by the deferred cleanup alone | not executed | `HermitBase.DoubleFreeAsWritten` | `HermitBase.TreeFreedOnce` |
| src/hermit-base.c:310 | `memcpy(&app_argv[1], &argv[1], sizeof(char *) * (argc - 1))` with `argc == 0` converts -1 to `size_t` and copies 2^64 - 8 bytes into a one-slot array | `execve` of the loader with an empty argv | copy `app_argc - 1` slots, i.e. none for an empty argv, as the clamp `app_argc = argc >= 1 ? argc : 1` intends | not executed | `AppArgs.EmptyArgvCopyOverruns` | `AppArgs.BuildAppArgv` |
