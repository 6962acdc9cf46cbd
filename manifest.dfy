/**
 * The capability-set builder: the walk over the manifest's top-level
 * object that both loaders (main.c and hermit-base.c) perform. Each key is
 * looked up in a fixed table of (key, expected kind) entries; recognised
 * keys of the wrong kind are fatal, MAP and ENV append to the directory
 * and environment lists, ENV_PWD_IS_HOST_CWD appends "PWD=<cwd>",
 * ENTRYPOINT sets the function name, and everything else is only logged.
 */
module Manifest {
  import opened Wrappers
  import opened Json
  import opened EnvSyntax
  import opened Text
  import Alloc

  /** hermit_config_index, without HC_UNKNOWN (a failed lookup). */
  datatype ConfigIndex = HcMap | HcEnvPwdIsHostCwd | HcNet | HcArgv | HcEnv | HcEntrypoint

  datatype ConfigItem = ConfigItem(key: string, kind: Kind, index: ConfigIndex)

  /** The key table, in the loaders' order. */
  const Items: seq<ConfigItem> := [
    ConfigItem("MAP", KArray, HcMap),
    ConfigItem("ENV_PWD_IS_HOST_CWD", KTrue, HcEnvPwdIsHostCwd),
    ConfigItem("ENV", KArray, HcEnv),
    ConfigItem("NET", KArray, HcNet),
    ConfigItem("ARGV", KArray, HcArgv),
    ConfigItem("ENTRYPOINT", KString, HcEntrypoint)
  ]

  /** What strcmp sees of a key: its characters up to the first NUL. */
  function CStr(s: string): (c: string)
    ensures |c| <= |s| && c == s[..|c|]
    ensures forall j :: 0 <= j < |c| ==> c[j] != '\0'
    ensures |c| < |s| ==> s[|c|] == '\0'
  {
    s[..IndexFrom(s, 0, '\0')]
  }

  /** The first table entry whose key is `name`. */
  function LookupIn(table: seq<ConfigItem>, name: string): (r: Option<ConfigItem>)
    ensures r.Some? ==> r.value in table && r.value.key == name
    ensures r.None? ==> forall it :: it in table ==> it.key != name
  {
    if table == [] then None
    else if table[0].key == name then Some(table[0])
    else LookupIn(table[1..], name)
  }

  /** The kind each recognised key demands. */
  function KindFor(index: ConfigIndex): Kind
  {
    match index
    case HcMap => KArray
    case HcEnvPwdIsHostCwd => KTrue
    case HcNet => KArray
    case HcArgv => KArray
    case HcEnv => KArray
    case HcEntrypoint => KString
  }

  function Lookup(name: string): (r: Option<ConfigItem>)
    ensures r.Some? ==> r.value in Items && r.value.key == name
    ensures r.Some? ==> r.value.kind == KindFor(r.value.index)
  {
    LookupIn(Items, name)
  }

  /** Searching from entry i: that entry if its key matches, otherwise the search from i + 1. */
  lemma LookupInFrom(table: seq<ConfigItem>, i: nat, name: string)
    requires i < |table|
    ensures LookupIn(table[i..], name)
            == if table[i].key == name then Some(table[i]) else LookupIn(table[i + 1..], name)
  {
    assert table[i..][1..] == table[i + 1..];
  }

  /** The table search of the walk's inner loop. */
  method FindConfigItem(name: string) returns (item: Option<ConfigItem>)
    ensures item == Lookup(name)
  {
    for i := 0 to |Items|
      invariant LookupIn(Items, name) == LookupIn(Items[i..], name)
    {
      LookupInFrom(Items, i, name);
      if Items[i].key == name {
        return Some(Items[i]);
      }
    }
    return None;
  }

  /** The capability set: what the walk hands to the runtime. */
  datatype Caps = Caps(dirs: seq<string>, envs: seq<string>, funcName: Option<string>)

  const NoCaps: Caps := Caps([], [], None)

  /** Why the walk gives up; every one of these makes the loader exit with 1. */
  datatype LoadError =
    | NotAnObject
    | WrongKind(key: string, expected: Kind, got: Kind)
    | MapNotStrings
    | EnvNotStrings
    | BadEnvEntry(entry: string)
    | OutOfMemory

  const PwdPrefix: string := "PWD="

  function PwdEntry(cwd: string): string
  {
    PwdPrefix + cwd
  }

  // ---------------------------------------------------------------------
  // The walk as functions
  // ---------------------------------------------------------------------

  /** MAP: append every element, failing on the first one that is not a string. */
  function AppendDirs(acc: seq<string>, es: seq<Value>): Option<seq<string>>
    decreases |es|
  {
    if es == [] then Some(acc)
    else if !es[0].JString? then None
    else AppendDirs(acc + [es[0].str], es[1..])
  }

  /** ENV: append every element, failing on the first non-string or malformed entry. */
  function AppendEnvs(acc: seq<string>, es: seq<Value>): Result<seq<string>, LoadError>
    decreases |es|
  {
    if es == [] then Success(acc)
    else if !es[0].JString? then Failure(EnvNotStrings)
    else if !IsKeyValue(es[0].str) then Failure(BadEnvEntry(es[0].str))
    else AppendEnvs(acc + [es[0].str], es[1..])
  }

  /** The effect of one top-level member on the capability set. */
  function Apply(c: Caps, name: string, v: Value, cwd: string): Result<Caps, LoadError>
  {
    match Lookup(CStr(name))
    case None => Success(c)
    case Some(item) => ApplyItem(c, item, v, cwd)
  }

  /** The effect of a member whose key is the table entry `item`. */
  function ApplyItem(c: Caps, item: ConfigItem, v: Value, cwd: string): Result<Caps, LoadError>
    requires item.kind == KindFor(item.index)
  {
    if KindOf(v) != item.kind then Failure(WrongKind(item.key, item.kind, KindOf(v)))
    else match item.index
      case HcMap =>
        (match AppendDirs(c.dirs, v.elems)
         case None => Failure(MapNotStrings)
         case Some(d) => Success(c.(dirs := d)))
      case HcEnvPwdIsHostCwd => Success(c.(envs := c.envs + [PwdEntry(cwd)]))
      case HcEnv =>
        (match AppendEnvs(c.envs, v.elems)
         case Failure(e) => Failure(e)
         case Success(e) => Success(c.(envs := e)))
      case HcEntrypoint => Success(c.(funcName := Some(v.str)))
      case HcNet => Success(c)
      case HcArgv => Success(c)
  }

  /** Apply the members in document order, stopping at the first error. */
  function WalkFrom(ms: seq<(string, Value)>, c: Caps, cwd: string): Result<Caps, LoadError>
    decreases |ms|
  {
    if ms == [] then Success(c)
    else match Apply(c, ms[0].0, ms[0].1, cwd)
      case Failure(e) => Failure(e)
      case Success(c') => WalkFrom(ms[1..], c', cwd)
  }

  /** The whole builder: the root must be an object, then its members are walked. */
  function Load(root: Value, cwd: string): Result<Caps, LoadError>
  {
    if !root.JObject? then Failure(NotAnObject) else WalkFrom(root.members, NoCaps, cwd)
  }

  // ---------------------------------------------------------------------
  // The walk as the loaders run it
  // ---------------------------------------------------------------------

  /**
   * The MAP case: reserve room for every element, then copy each string
   * element onto the list, stopping at the first non-string element.
   */
  method AppendMapElements(list: Alloc.StrList, elems: seq<Value>, reallocOk: bool,
                           copyOk: nat -> bool, copies: nat)
    returns (err: Option<LoadError>, copiesOut: nat)
    requires list.Valid()
    modifies list, list.items
    ensures list.Valid() && (list.items == old(list.items) || fresh(list.items))
    ensures err.None? ==> AppendDirs(old(list.Contents()), elems) == Some(list.Contents())
    ensures err == Some(MapNotStrings) ==> AppendDirs(old(list.Contents()), elems) == None
    ensures err.Some? ==> err.value == MapNotStrings || err.value == OutOfMemory
    ensures err == Some(OutOfMemory) ==> !reallocOk || (copiesOut > 0 && !copyOk(copiesOut - 1))
  {
    copiesOut := copies;
    ghost var before := list.Contents();
    var ok := list.Reserve(list.size + |elems|, reallocOk);
    if !ok {
      return Some(OutOfMemory), copiesOut;
    }
    for j := 0 to |elems|
      invariant list.Valid() && (list.items == old(list.items) || fresh(list.items))
      invariant list.size + (|elems| - j) <= list.items.Length
      invariant AppendDirs(before, elems) == AppendDirs(list.Contents(), elems[j..])
    {
      assert elems[j..][1..] == elems[j + 1..];
      if !elems[j].JString? {
        return Some(MapNotStrings), copiesOut;
      }
      var s := elems[j].str;
      var copy := Alloc.Memdup(s, |s|, copyOk(copiesOut));
      copiesOut := copiesOut + 1;
      if copy.None? {
        return Some(OutOfMemory), copiesOut;
      }
      assert copy.value[..] == s;
      list.Push(copy.value[..]);
    }
    return None, copiesOut;
  }

  /**
   * The ENV case: reserve room for every element plus one, then copy each
   * element, stopping at the first one that is not a string or fails
   * validate_env_str.
   */
  method AppendEnvElements(list: Alloc.StrList, elems: seq<Value>, reallocOk: bool,
                           copyOk: nat -> bool, copies: nat)
    returns (err: Option<LoadError>, copiesOut: nat)
    requires list.Valid()
    modifies list, list.items
    ensures list.Valid() && (list.items == old(list.items) || fresh(list.items))
    ensures err.None? ==> AppendEnvs(old(list.Contents()), elems) == Success(list.Contents())
    ensures err.Some? && err.value != OutOfMemory ==> AppendEnvs(old(list.Contents()), elems) == Failure(err.value)
    ensures err == Some(OutOfMemory) ==> !reallocOk || (copiesOut > 0 && !copyOk(copiesOut - 1))
  {
    copiesOut := copies;
    ghost var before := list.Contents();
    var ok := list.Reserve(list.size + |elems| + 1, reallocOk);
    if !ok {
      return Some(OutOfMemory), copiesOut;
    }
    for j := 0 to |elems|
      invariant list.Valid() && (list.items == old(list.items) || fresh(list.items))
      invariant list.size + (|elems| - j) <= list.items.Length
      invariant AppendEnvs(before, elems) == AppendEnvs(list.Contents(), elems[j..])
    {
      assert elems[j..][1..] == elems[j + 1..];
      if !elems[j].JString? {
        return Some(EnvNotStrings), copiesOut;
      }
      var s := elems[j].str;
      var valid := ValidateEnvStr(s);
      if !valid {
        return Some(BadEnvEntry(s)), copiesOut;
      }
      var copy := Alloc.Memdup(s, |s|, copyOk(copiesOut));
      copiesOut := copiesOut + 1;
      if copy.None? {
        return Some(OutOfMemory), copiesOut;
      }
      assert copy.value[..] == s;
      list.Push(copy.value[..]);
    }
    return None, copiesOut;
  }

  /**
   * ENV_PWD_IS_HOST_CWD: make room for one more entry, then push a copy
   * of "PWD=" followed by the working directory.
   */
  method AppendPwdEntry(list: Alloc.StrList, cwd: string, reallocOk: bool, copyOk: nat -> bool, copies: nat)
    returns (err: Option<LoadError>, copiesOut: nat)
    requires list.Valid()
    modifies list, list.items
    ensures list.Valid() && (list.items == old(list.items) || fresh(list.items))
    ensures err.None? ==> list.Contents() == old(list.Contents()) + [PwdEntry(cwd)]
    ensures err.Some? ==> err == Some(OutOfMemory) && (!reallocOk || (copiesOut > 0 && !copyOk(copiesOut - 1)))
  {
    copiesOut := copies;
    var ok := list.Reserve(list.size + 1, reallocOk);
    if !ok {
      return Some(OutOfMemory), copiesOut;
    }
    var pwd := PwdEntry(cwd);
    var copy := Alloc.Memdup(pwd, |pwd|, copyOk(copies));
    copiesOut := copies + 1;
    if copy.None? {
      return Some(OutOfMemory), copiesOut;
    }
    assert copy.value[..] == pwd;
    list.Push(copy.value[..]);
    err := None;
  }

  /**
   * The effect of a member whose key is the table entry `item` and whose
   * value has the entry's kind: MAP and ENV extend their lists,
   * ENV_PWD_IS_HOST_CWD adds the PWD entry, ENTRYPOINT copies the function
   * name, NET and ARGV are accepted and ignored. An allocation failure
   * stops with OutOfMemory.
   */
  method ApplyKnownMember(dirList: Alloc.StrList, envList: Alloc.StrList, funcName: Option<string>,
                          item: ConfigItem, value: Value, cwd: string,
                          reallocOk: bool, copyOk: nat -> bool, copies: nat)
    returns (err: Option<LoadError>, funcNameOut: Option<string>, reserved: bool, copiesOut: nat)
    requires dirList.Valid() && envList.Valid() && dirList.items != envList.items
    requires dirList != envList
    requires item.kind == KindFor(item.index) && KindOf(value) == item.kind
    modifies dirList, dirList.items, envList, envList.items
    ensures dirList.Valid() && envList.Valid() && dirList.items != envList.items
    ensures dirList.items == old(dirList.items) || fresh(dirList.items)
    ensures envList.items == old(envList.items) || fresh(envList.items)
    ensures err.None? ==> ApplyItem(Caps(old(dirList.Contents()), old(envList.Contents()), funcName), item, value, cwd)
                          == Success(Caps(dirList.Contents(), envList.Contents(), funcNameOut))
    ensures err.Some? && err.value != OutOfMemory
            ==> ApplyItem(Caps(old(dirList.Contents()), old(envList.Contents()), funcName), item, value, cwd)
                == Failure(err.value)
    ensures err == Some(OutOfMemory) ==> (reserved && !reallocOk) || (copiesOut > 0 && !copyOk(copiesOut - 1))
  {
    funcNameOut, reserved, copiesOut := funcName, false, copies;
    match item.index {
      case HcMap =>
        err, copiesOut := AppendMapElements(dirList, value.elems, reallocOk, copyOk, copies);
        reserved := true;
      case HcEnvPwdIsHostCwd =>
        err, copiesOut := AppendPwdEntry(envList, cwd, reallocOk, copyOk, copies);
        reserved := true;
      case HcEnv =>
        err, copiesOut := AppendEnvElements(envList, value.elems, reallocOk, copyOk, copies);
        reserved := true;
      case HcEntrypoint =>
        var s := value.str;
        var copy := Alloc.Memdup(s, |s|, copyOk(copies));
        copiesOut := copies + 1;
        if copy.None? {
          return Some(OutOfMemory), funcNameOut, reserved, copiesOut;
        }
        assert copy.value[..] == s;
        funcNameOut := Some(copy.value[..]);
        err := None;
      case HcNet =>
        err := None;
      case HcArgv =>
        err := None;
    }
  }

  /**
   * The key walk with growable lists. reallocOk(n) says whether the n-th
   * `reserve` call's realloc succeeds, copyOk(n) whether the n-th string
   * copy's allocation succeeds. The result is the functional walk's,
   * except that an allocation failure may cut it short with OutOfMemory.
   */
  method BuildCapabilities(root: Value, cwd: string, reallocOk: nat -> bool, copyOk: nat -> bool)
    returns (r: Result<Caps, LoadError>)
    ensures !root.JObject? ==> r == Failure(NotAnObject)
    ensures r.Success? ==> r == Load(root, cwd)
    ensures r.Failure? ==> r == Load(root, cwd) || r.error == OutOfMemory
    ensures (forall n :: reallocOk(n)) && (forall n :: copyOk(n)) ==> r == Load(root, cwd)
  {
    if !root.JObject? {
      return Failure(NotAnObject);
    }
    var members := root.members;
    var dirList := new Alloc.StrList();
    var envList := new Alloc.StrList();
    var funcName: Option<string> := None;
    var reserves, copies := 0, 0;
    for i := 0 to |members|
      invariant fresh(dirList) && fresh(envList) && fresh(dirList.items) && fresh(envList.items)
      invariant dirList.items != envList.items
      invariant dirList.Valid() && envList.Valid()
      invariant WalkFrom(members, NoCaps, cwd)
             == WalkFrom(members[i..], Caps(dirList.Contents(), envList.Contents(), funcName), cwd)
    {
      ghost var c0 := Caps(dirList.Contents(), envList.Contents(), funcName);
      assert members[i..][1..] == members[i + 1..];
      var (name, value) := members[i];
      var found := FindConfigItem(CStr(name));
      if found.Some? {
        var item := found.value;
        assert Apply(c0, name, value, cwd) == ApplyItem(c0, item, value, cwd);
        if KindOf(value) != item.kind {
          return Failure(WrongKind(item.key, item.kind, KindOf(value)));
        }
        var err, reserved;
        err, funcName, reserved, copies :=
          ApplyKnownMember(dirList, envList, funcName, item, value, cwd, reallocOk(reserves), copyOk, copies);
        if reserved {
          reserves := reserves + 1;
        }
        if err.Some? {
          return Failure(err.value);
        }
      }
    }
    return Success(Caps(dirList.Contents(), envList.Contents(), funcName));
  }
}
