/**
 * What the manifest walk promises, stated over the functional walk of
 * module Manifest (which BuildCapabilities is proved to compute).
 */
module ManifestFacts {
  import opened Wrappers
  import opened Json
  import opened EnvSyntax
  import opened Manifest
  import opened Text

  /** The strings of an array's elements, in array order. */
  function StringsOf(es: seq<Value>): (ss: seq<string>)
    ensures |ss| == |es|
    ensures forall i :: 0 <= i < |es| && es[i].JString? ==> ss[i] == es[i].str
  {
    seq(|es|, i requires 0 <= i < |es| => if es[i].JString? then es[i].str else "")
  }

  predicate AllStrings(es: seq<Value>)
  {
    forall i :: 0 <= i < |es| ==> es[i].JString?
  }

  /** An ENV element the loader accepts. */
  predicate GoodEnv(v: Value)
  {
    v.JString? && IsKeyValue(v.str)
  }

  /** The error an unacceptable ENV element causes. */
  function EnvError(v: Value): LoadError
  {
    if !v.JString? then EnvNotStrings else BadEnvEntry(v.str)
  }

  /** The table entry a key names, if any. */
  predicate IsKey(name: string, index: ConfigIndex)
  {
    Lookup(CStr(name)).Some? && Lookup(CStr(name)).value.index == index
  }

  /** MAP appends all N strings in array order, or fails if any element is not a string. */
  lemma {:induction false} AppendDirsMeaning(acc: seq<string>, es: seq<Value>)
    ensures AppendDirs(acc, es) == if AllStrings(es) then Some(acc + StringsOf(es)) else None
    decreases |es|
  {
    if es == [] {
      assert acc + StringsOf(es) == acc;
    } else if !es[0].JString? {
      assert !AllStrings(es);
    } else {
      AppendDirsMeaning(acc + [es[0].str], es[1..]);
      assert StringsOf(es) == [es[0].str] + StringsOf(es[1..]);
      assert acc + [es[0].str] + StringsOf(es[1..]) == acc + StringsOf(es);
      assert AllStrings(es) <==> AllStrings(es[1..]) by {
        if AllStrings(es[1..]) {
          forall i | 0 <= i < |es| ensures es[i].JString? {
            if i > 0 { assert es[i] == es[1..][i - 1]; }
          }
        }
      }
    }
  }

  /** ENV appends every entry in order when all are well formed strings. */
  lemma {:induction false} AppendEnvsAllGood(acc: seq<string>, es: seq<Value>)
    requires forall i :: 0 <= i < |es| ==> GoodEnv(es[i])
    ensures AppendEnvs(acc, es) == Success(acc + StringsOf(es))
    decreases |es|
  {
    if es == [] {
      assert acc + StringsOf(es) == acc;
    } else {
      assert GoodEnv(es[0]);
      forall i | 0 <= i < |es[1..]| ensures GoodEnv(es[1..][i]) {
        assert es[1..][i] == es[i + 1];
      }
      AppendEnvsAllGood(acc + [es[0].str], es[1..]);
      assert StringsOf(es) == [es[0].str] + StringsOf(es[1..]);
      assert acc + [es[0].str] + StringsOf(es[1..]) == acc + StringsOf(es);
    }
  }

  /** ENV fails fast: the first unacceptable entry decides the error. */
  lemma {:induction false} AppendEnvsFailsAt(acc: seq<string>, es: seq<Value>, k: nat)
    requires k < |es| && !GoodEnv(es[k])
    requires forall i :: 0 <= i < k ==> GoodEnv(es[i])
    ensures AppendEnvs(acc, es) == Failure(EnvError(es[k]))
    decreases k
  {
    if k > 0 {
      assert GoodEnv(es[0]);
      assert es[1..][k - 1] == es[k];
      AppendEnvsFailsAt(acc + [es[0].str], es[1..], k - 1);
    }
  }

  /** ENV succeeds only when every element is acceptable. */
  lemma {:induction false} AppendEnvsSucceedsOnlyIfAllGood(acc: seq<string>, es: seq<Value>)
    requires AppendEnvs(acc, es).Success?
    ensures forall i :: 0 <= i < |es| ==> GoodEnv(es[i])
    decreases |es|
  {
    if es != [] {
      AppendEnvsSucceedsOnlyIfAllGood(acc + [es[0].str], es[1..]);
      forall i | 0 < i < |es| ensures GoodEnv(es[i]) {
        assert es[i] == es[1..][i - 1];
      }
    }
  }

  /** Every entry ENV leaves in the list has the KEY=VALUE shape. */
  lemma {:induction false} AppendEnvsWellFormed(acc: seq<string>, es: seq<Value>)
    requires forall e :: e in acc ==> IsKeyValue(e)
    requires AppendEnvs(acc, es).Success?
    ensures forall e :: e in AppendEnvs(acc, es).value ==> IsKeyValue(e)
    decreases |es|
  {
    if es != [] {
      AppendEnvsWellFormed(acc + [es[0].str], es[1..]);
    }
  }

  /** Continue a walk result with more members. */
  function Then(r: Result<Caps, LoadError>, ms: seq<(string, Value)>, cwd: string): Result<Caps, LoadError>
  {
    match r
    case Failure(e) => Failure(e)
    case Success(c) => WalkFrom(ms, c, cwd)
  }

  lemma Assoc<X>(a: seq<X>, b: seq<X>, c: seq<X>)
    ensures a + b + c == a + (b + c)
  {
  }

  /** One successful member, then the rest of the walk. */
  lemma WalkStep(ms: seq<(string, Value)>, c: Caps, cwd: string)
    requires ms != [] && Apply(c, ms[0].0, ms[0].1, cwd).Success?
    ensures WalkFrom(ms, c, cwd) == WalkFrom(ms[1..], Apply(c, ms[0].0, ms[0].1, cwd).value, cwd)
  {
  }

  /** Walking a + b is walking a, then b from where a left off. */
  lemma {:induction false} WalkAppend(a: seq<(string, Value)>, b: seq<(string, Value)>, c: Caps, cwd: string)
    ensures WalkFrom(a + b, c, cwd) == Then(WalkFrom(a, c, cwd), b, cwd)
    decreases |a|
  {
    if a == [] {
      assert a + b == b;
    } else {
      assert (a + b)[0] == a[0];
      assert (a + b)[1..] == a[1..] + b;
      match Apply(c, a[0].0, a[0].1, cwd)
      case Failure(_) =>
      case Success(c') => WalkAppend(a[1..], b, c', cwd);
    }
  }

  /**
   * A recognised key with the wrong kind ends the walk with WrongKind as
   * soon as it is reached: nothing after it is processed.
   */
  lemma WrongKindStopsWalk(prefix: seq<(string, Value)>, name: string, v: Value,
                           rest: seq<(string, Value)>, c: Caps, cwd: string)
    requires WalkFrom(prefix, c, cwd).Success?
    requires Lookup(CStr(name)).Some? && KindOf(v) != Lookup(CStr(name)).value.kind
    ensures WalkFrom(prefix + [(name, v)] + rest, c, cwd)
         == Failure(WrongKind(Lookup(CStr(name)).value.key, Lookup(CStr(name)).value.kind, KindOf(v)))
  {
    WalkAppend(prefix + [(name, v)], rest, c, cwd);
    WalkAppend(prefix, [(name, v)], c, cwd);
  }

  /**
   * ENV_PWD_IS_HOST_CWD demands `true`: `false` is a kind error, which by
   * WrongKindStopsWalk ends the walk wherever the key stands.
   */
  lemma PwdFlagFalseRejected(c: Caps, cwd: string)
    ensures Lookup(CStr("ENV_PWD_IS_HOST_CWD")) == Some(ConfigItem("ENV_PWD_IS_HOST_CWD", KTrue, HcEnvPwdIsHostCwd))
    ensures Apply(c, "ENV_PWD_IS_HOST_CWD", JFalse, cwd) == Failure(WrongKind("ENV_PWD_IS_HOST_CWD", KTrue, KFalse))
  {
    var key := "ENV_PWD_IS_HOST_CWD";
    IndexFromNone(key, 0, '\0');
    assert CStr(key) == key;
    assert Lookup(key) == Some(Items[1]);
    assert Apply(c, key, JFalse, cwd) == ApplyItem(c, Items[1], JFalse, cwd);
  }

  /** A first member whose key is recognised but whose value has the wrong kind fails the load. */
  lemma FirstMemberWrongKind(name: string, v: Value, rest: seq<(string, Value)>, cwd: string)
    requires Lookup(CStr(name)).Some? && KindOf(v) != Lookup(CStr(name)).value.kind
    ensures Load(JObject([(name, v)] + rest), cwd)
         == Failure(WrongKind(Lookup(CStr(name)).value.key, Lookup(CStr(name)).value.kind, KindOf(v)))
  {
    var ms := [(name, v)] + rest;
    assert ms[0] == (name, v);
    var item := Lookup(CStr(name)).value;
    assert Apply(NoCaps, name, v, cwd) == Failure(WrongKind(item.key, item.kind, KindOf(v)));
  }

  /** A root that is not an object is rejected before any key is looked at. */
  lemma NonObjectRootRejected(root: Value, cwd: string)
    requires !root.JObject?
    ensures Load(root, cwd) == Failure(NotAnObject)
  {
  }

  /** A key the table does not know is only logged: the capability set is unchanged. */
  lemma UnknownKeyKeepsCaps(c: Caps, name: string, v: Value, cwd: string)
    requires Lookup(CStr(name)).None?
    ensures Apply(c, name, v, cwd) == Success(c)
  {
  }

  /** NET and ARGV are recognised and kind-checked, but their arrays change nothing. */
  lemma NetArgvKeepCaps(c: Caps, name: string, v: Value, cwd: string)
    requires IsKey(name, HcNet) || IsKey(name, HcArgv)
    ensures v.JArray? ==> Apply(c, name, v, cwd) == Success(c)
    ensures !v.JArray? ==> Apply(c, name, v, cwd).Failure?
  {
    var item := Lookup(CStr(name)).value;
    NetArgvItem(c, item, v, cwd);
  }

  lemma NetArgvItem(c: Caps, item: ConfigItem, v: Value, cwd: string)
    requires item.index == HcNet || item.index == HcArgv
    requires item.kind == KindFor(item.index)
    ensures v.JArray? ==> ApplyItem(c, item, v, cwd) == Success(c)
    ensures !v.JArray? ==> ApplyItem(c, item, v, cwd).Failure?
  {
  }

  /** ENV_EXE_NAME_IS_HOST_EXE_NAME is not in the table: the loaders treat it as an unknown key. */
  lemma ExeNameKeyUnknown()
    ensures Lookup(CStr("ENV_EXE_NAME_IS_HOST_EXE_NAME")).None?
  {
    var key := "ENV_EXE_NAME_IS_HOST_EXE_NAME";
    IndexFromNone(key, 0, '\0');
    assert CStr(key) == key;
  }

  /** A member's effect is its table entry's effect, or nothing for an unknown key. */
  lemma ApplyFound(c: Caps, name: string, v: Value, cwd: string)
    ensures Lookup(CStr(name)).None? ==> Apply(c, name, v, cwd) == Success(c)
    ensures Lookup(CStr(name)).Some? ==> Apply(c, name, v, cwd) == ApplyItem(c, Lookup(CStr(name)).value, v, cwd)
  {
  }

  /** A table entry adds to the directory list only for MAP, and then the array's strings. */
  lemma ItemDirs(c: Caps, item: ConfigItem, v: Value, cwd: string)
    requires item.kind == KindFor(item.index) && ApplyItem(c, item, v, cwd).Success?
    ensures ApplyItem(c, item, v, cwd).value.dirs
            == c.dirs + (if item.index == HcMap && v.JArray? then StringsOf(v.elems) else [])
  {
    if item.index == HcMap {
      AppendDirsMeaning(c.dirs, v.elems);
    } else {
      assert c.dirs + [] == c.dirs;
    }
  }

  /** A table entry adds to the environment only for ENV (its strings) and ENV_PWD_IS_HOST_CWD (the PWD entry). */
  lemma ItemEnvs(c: Caps, item: ConfigItem, v: Value, cwd: string)
    requires item.kind == KindFor(item.index) && ApplyItem(c, item, v, cwd).Success?
    ensures ApplyItem(c, item, v, cwd).value.envs
            == c.envs + (if item.index == HcEnv && v.JArray? then StringsOf(v.elems)
                         else if item.index == HcEnvPwdIsHostCwd then [PwdEntry(cwd)]
                         else [])
  {
    if item.index == HcEnv {
      AppendEnvsSucceedsOnlyIfAllGood(c.envs, v.elems);
      AppendEnvsAllGood(c.envs, v.elems);
    } else if item.index != HcEnvPwdIsHostCwd {
      assert c.envs + [] == c.envs;
    }
  }

  /** A table entry keeps every environment entry well formed. */
  lemma ItemEnvsWellFormed(c: Caps, item: ConfigItem, v: Value, cwd: string)
    requires forall e :: e in c.envs ==> IsKeyValue(e)
    requires item.kind == KindFor(item.index) && ApplyItem(c, item, v, cwd).Success?
    ensures forall e :: e in ApplyItem(c, item, v, cwd).value.envs ==> IsKeyValue(e)
  {
    if item.index == HcEnv {
      AppendEnvsWellFormed(c.envs, v.elems);
    } else if item.index == HcEnvPwdIsHostCwd {
      PwdEntryIsKeyValue(cwd);
    }
  }

  /** The directories one member contributes. */
  function MapStep(name: string, v: Value): seq<string>
  {
    if IsKey(name, HcMap) && v.JArray? then StringsOf(v.elems) else []
  }

  /** The environment entries one member contributes. */
  function EnvStep(name: string, v: Value, cwd: string): seq<string>
  {
    if IsKey(name, HcEnv) && v.JArray? then StringsOf(v.elems)
    else if IsKey(name, HcEnvPwdIsHostCwd) then [PwdEntry(cwd)]
    else []
  }

  /** The strings of every MAP array, in document order, repeats kept. */
  function MapStrings(ms: seq<(string, Value)>): seq<string>
    decreases |ms|
  {
    if ms == [] then [] else MapStep(ms[0].0, ms[0].1) + MapStrings(ms[1..])
  }

  /** One successful member adds its MAP strings to the directory list. */
  lemma MemberDirs(c: Caps, name: string, v: Value, cwd: string)
    requires Apply(c, name, v, cwd).Success?
    ensures Apply(c, name, v, cwd).value.dirs == c.dirs + MapStep(name, v)
  {
    ApplyFound(c, name, v, cwd);
    if Lookup(CStr(name)).Some? {
      ItemDirs(c, Lookup(CStr(name)).value, v, cwd);
    } else {
      assert c.dirs + [] == c.dirs;
    }
  }

  /** One successful member adds its ENV strings, or its PWD entry, to the environment list. */
  lemma MemberEnvs(c: Caps, name: string, v: Value, cwd: string)
    requires Apply(c, name, v, cwd).Success?
    ensures Apply(c, name, v, cwd).value.envs == c.envs + EnvStep(name, v, cwd)
  {
    ApplyFound(c, name, v, cwd);
    if Lookup(CStr(name)).Some? {
      ItemEnvs(c, Lookup(CStr(name)).value, v, cwd);
    } else {
      assert c.envs + [] == c.envs;
    }
  }

  /** One successful member keeps every environment entry well formed. */
  lemma MemberEnvsWellFormed(c: Caps, name: string, v: Value, cwd: string)
    requires forall e :: e in c.envs ==> IsKeyValue(e)
    requires Apply(c, name, v, cwd).Success?
    ensures forall e :: e in Apply(c, name, v, cwd).value.envs ==> IsKeyValue(e)
  {
    ApplyFound(c, name, v, cwd);
    if Lookup(CStr(name)).Some? {
      ItemEnvsWellFormed(c, Lookup(CStr(name)).value, v, cwd);
    }
  }

  /**
   * The environment entries in the order the keys are met: the strings of
   * each ENV array, and one "PWD=<cwd>" where ENV_PWD_IS_HOST_CWD stands.
   */
  function EnvStrings(ms: seq<(string, Value)>, cwd: string): seq<string>
    decreases |ms|
  {
    if ms == [] then [] else EnvStep(ms[0].0, ms[0].1, cwd) + EnvStrings(ms[1..], cwd)
  }

  /** A successful walk's directory list is every MAP string, in order. */
  lemma {:induction false} WalkDirs(ms: seq<(string, Value)>, c: Caps, cwd: string)
    requires WalkFrom(ms, c, cwd).Success?
    ensures WalkFrom(ms, c, cwd).value.dirs == c.dirs + MapStrings(ms)
    decreases |ms|
  {
    if ms == [] {
      assert c.dirs + [] == c.dirs;
    } else {
      var c' := Apply(c, ms[0].0, ms[0].1, cwd).value;
      var d, r := MapStep(ms[0].0, ms[0].1), MapStrings(ms[1..]);
      assert c'.dirs == c.dirs + d by { MemberDirs(c, ms[0].0, ms[0].1, cwd); }
      assert WalkFrom(ms, c, cwd) == WalkFrom(ms[1..], c', cwd) by { WalkStep(ms, c, cwd); }
      WalkDirs(ms[1..], c', cwd);
      Assoc(c.dirs, d, r);
    }
  }

  /** A successful walk's environment list is every ENV entry and PWD entry, in key order. */
  lemma {:induction false} WalkEnvs(ms: seq<(string, Value)>, c: Caps, cwd: string)
    requires WalkFrom(ms, c, cwd).Success?
    ensures WalkFrom(ms, c, cwd).value.envs == c.envs + EnvStrings(ms, cwd)
    decreases |ms|
  {
    if ms == [] {
      assert c.envs + [] == c.envs;
    } else {
      var c' := Apply(c, ms[0].0, ms[0].1, cwd).value;
      var d, r := EnvStep(ms[0].0, ms[0].1, cwd), EnvStrings(ms[1..], cwd);
      assert c'.envs == c.envs + d by { MemberEnvs(c, ms[0].0, ms[0].1, cwd); }
      assert WalkFrom(ms, c, cwd) == WalkFrom(ms[1..], c', cwd) by { WalkStep(ms, c, cwd); }
      WalkEnvs(ms[1..], c', cwd);
      Assoc(c.envs, d, r);
    }
  }

  /** Every entry a successful walk puts in the environment list has the KEY=VALUE shape. */
  lemma {:induction false} WalkEnvsWellFormed(ms: seq<(string, Value)>, c: Caps, cwd: string)
    requires forall e :: e in c.envs ==> IsKeyValue(e)
    requires WalkFrom(ms, c, cwd).Success?
    ensures forall e :: e in WalkFrom(ms, c, cwd).value.envs ==> IsKeyValue(e)
    decreases |ms|
  {
    if ms != [] {
      var c' := Apply(c, ms[0].0, ms[0].1, cwd).value;
      MemberEnvsWellFormed(c, ms[0].0, ms[0].1, cwd);
      WalkEnvsWellFormed(ms[1..], c', cwd);
    }
  }

  /** Only ENTRYPOINT touches the function name. */
  lemma MemberFuncName(c: Caps, name: string, v: Value, cwd: string)
    requires !IsKey(name, HcEntrypoint) && Apply(c, name, v, cwd).Success?
    ensures Apply(c, name, v, cwd).value.funcName == c.funcName
  {
    ApplyFound(c, name, v, cwd);
  }

  /** Without an ENTRYPOINT key the function name stays what it was (NULL at the start). */
  lemma {:induction false} NoEntrypointKeepsFuncName(ms: seq<(string, Value)>, c: Caps, cwd: string)
    requires WalkFrom(ms, c, cwd).Success?
    requires forall i :: 0 <= i < |ms| ==> !IsKey(ms[i].0, HcEntrypoint)
    ensures WalkFrom(ms, c, cwd).value.funcName == c.funcName
    decreases |ms|
  {
    if ms != [] {
      assert !IsKey(ms[0].0, HcEntrypoint);
      var c' := Apply(c, ms[0].0, ms[0].1, cwd).value;
      MemberFuncName(c, ms[0].0, ms[0].1, cwd);
      WalkStep(ms, c, cwd);
      forall i | 0 <= i < |ms[1..]| ensures !IsKey(ms[1..][i].0, HcEntrypoint) {
        assert ms[1..][i] == ms[i + 1];
      }
      NoEntrypointKeepsFuncName(ms[1..], c', cwd);
    }
  }

  lemma SplitAt<X>(s: seq<X>, k: nat)
    requires k < |s|
    ensures s == s[..k] + [s[k]] + s[k + 1..]
  {
  }

  /** A successful walk over a + [m] + b passes through a, then m, then b. */
  lemma WalkSplit(a: seq<(string, Value)>, m: (string, Value), b: seq<(string, Value)>, c: Caps, cwd: string)
    requires WalkFrom(a + [m] + b, c, cwd).Success?
    ensures WalkFrom(a, c, cwd).Success?
    ensures WalkFrom([m], WalkFrom(a, c, cwd).value, cwd).Success?
    ensures WalkFrom(a + [m] + b, c, cwd) == WalkFrom(b, WalkFrom([m], WalkFrom(a, c, cwd).value, cwd).value, cwd)
  {
    WalkAppend(a + [m], b, c, cwd);
    WalkAppend(a, [m], c, cwd);
  }

  /** Walking a single ENTRYPOINT member sets the function name to its string. */
  lemma WalkOneEntrypoint(m: (string, Value), c: Caps, cwd: string)
    requires IsKey(m.0, HcEntrypoint) && WalkFrom([m], c, cwd).Success?
    ensures m.1.JString? && WalkFrom([m], c, cwd).value.funcName == Some(m.1.str)
  {
    assert [m][1..] == [];
    EntrypointMember(c, m.0, m.1, cwd);
  }

  /** ENTRYPOINT demands a string and copies it verbatim into the function name. */
  lemma EntrypointMember(c: Caps, name: string, v: Value, cwd: string)
    requires IsKey(name, HcEntrypoint) && Apply(c, name, v, cwd).Success?
    ensures v.JString? && Apply(c, name, v, cwd).value.funcName == Some(v.str)
  {
    var item := Lookup(CStr(name)).value;
    assert item.kind == KString;
    assert Apply(c, name, v, cwd) == ApplyItem(c, item, v, cwd);
  }

  /**
   * The last ENTRYPOINT wins and is copied verbatim, the empty string
   * included.
   */
  lemma LastEntrypointWins(ms: seq<(string, Value)>, c: Caps, cwd: string, k: nat)
    requires WalkFrom(ms, c, cwd).Success?
    requires k < |ms| && IsKey(ms[k].0, HcEntrypoint)
    requires forall i :: k < i < |ms| ==> !IsKey(ms[i].0, HcEntrypoint)
    ensures ms[k].1.JString?
    ensures WalkFrom(ms, c, cwd).value.funcName == Some(ms[k].1.str)
  {
    SplitAt(ms, k);
    var a, m, b := ms[..k], ms[k], ms[k + 1..];
    WalkSplit(a, m, b, c, cwd);
    forall i | 0 <= i < |b| ensures !IsKey(b[i].0, HcEntrypoint) {
      assert b[i] == ms[k + 1 + i];
    }
    var c1 := WalkFrom(a, c, cwd).value;
    WalkOneEntrypoint(m, c1, cwd);
    NoEntrypointKeepsFuncName(b, WalkFrom([m], c1, cwd).value, cwd);
  }
}
