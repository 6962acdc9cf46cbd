/**
 * The Hermitfile record as serde writes it into hermit.json, and what the
 * C loaders make of that manifest: the producer and the consumer agree.
 */
module HermitManifest {
  import opened Wrappers
  import opened Json
  import opened EnvSyntax
  import opened Manifest
  import opened ManifestFacts
  import opened Text
  import opened HermitCli

  /** A Vec<String> as a JSON array of strings. */
  function Strings(xs: seq<string>): (v: Value)
    ensures v.JArray? && |v.elems| == |xs|
    ensures forall i :: 0 <= i < |xs| ==> v.elems[i] == JString(xs[i])
  {
    JArray(seq(|xs|, i requires 0 <= i < |xs| => JString(xs[i])))
  }

  /** A field that skip_serializing_if may leave out. */
  function Field(key: string, present: bool, v: Value): seq<(string, Value)>
  {
    if present then [(key, v)] else []
  }

  /**
   * The object serde writes: the fields in declaration order under their
   * renamed keys, leaving out empty vectors, empty strings and false.
   */
  function Serialize(h: Hermitfile): seq<(string, Value)>
  {
    Supported(h) + NotYetSupported(h)
  }

  /** The fields the record declares as supported. */
  function Supported(h: Hermitfile): seq<(string, Value)>
  {
    Field("MAP", h.maps != [], Strings(h.maps))
    + (Field("ENV", h.env != [], Strings(h.env))
    + (Field("ENV_PWD_IS_HOST_CWD", h.usesHostCwd, JTrue)
    + Field("ENV_EXE_NAME_IS_HOST_EXE_NAME", h.usesHostExeName, JTrue)))
  }

  /** The fields the record declares as not supported yet. */
  function NotYetSupported(h: Hermitfile): seq<(string, Value)>
  {
    Field("FROM", h.from != "", JString(h.from))
    + (Field("LINK", h.link != [], Strings(h.link))
    + (Field("NET", h.net != [], Strings(h.net))
    + (Field("ARGV", h.argv != [], Strings(h.argv))
    + Field("ENTRYPOINT", h.entrypoint != "", JString(h.entrypoint)))))
  }

  function KeysOf(ms: seq<(string, Value)>): set<string>
  {
    set m | m in ms :: m.0
  }

  lemma KeysOfConcat(a: seq<(string, Value)>, b: seq<(string, Value)>)
    ensures KeysOf(a + b) == KeysOf(a) + KeysOf(b)
  {
    forall k | k in KeysOf(a + b) ensures k in KeysOf(a) + KeysOf(b) {
      var m :| m in a + b && m.0 == k;
      if m in a { assert k in KeysOf(a); } else { assert k in KeysOf(b); }
    }
  }

  lemma KeysOfField(key: string, present: bool, v: Value)
    ensures KeysOf(Field(key, present, v)) == if present then {key} else {}
  {
    if present {
      assert (key, v) in Field(key, present, v);
    }
  }

  /** The keys written: exactly those whose field is not empty or false. */
  function PresentKeys(h: Hermitfile): set<string>
  {
    SupportedKeys(h) + NotYetSupportedKeys(h)
  }

  function SupportedKeys(h: Hermitfile): set<string>
  {
    (if h.maps != [] then {"MAP"} else {})
    + (if h.env != [] then {"ENV"} else {})
    + (if h.usesHostCwd then {"ENV_PWD_IS_HOST_CWD"} else {})
    + (if h.usesHostExeName then {"ENV_EXE_NAME_IS_HOST_EXE_NAME"} else {})
  }

  function NotYetSupportedKeys(h: Hermitfile): set<string>
  {
    (if h.from != "" then {"FROM"} else {})
    + (if h.link != [] then {"LINK"} else {})
    + (if h.net != [] then {"NET"} else {})
    + (if h.argv != [] then {"ARGV"} else {})
    + (if h.entrypoint != "" then {"ENTRYPOINT"} else {})
  }

  /** The keys of a field followed by more members. */
  lemma KeysOfCons(key: string, present: bool, v: Value, rest: seq<(string, Value)>)
    ensures KeysOf(Field(key, present, v) + rest) == (if present then {key} else {}) + KeysOf(rest)
  {
    KeysOfConcat(Field(key, present, v), rest);
    KeysOfField(key, present, v);
  }

  lemma SupportedKeysWritten(h: Hermitfile)
    ensures KeysOf(Supported(h)) == SupportedKeys(h)
  {
    var f2 := Field("ENV", h.env != [], Strings(h.env));
    var f3 := Field("ENV_PWD_IS_HOST_CWD", h.usesHostCwd, JTrue);
    var f4 := Field("ENV_EXE_NAME_IS_HOST_EXE_NAME", h.usesHostExeName, JTrue);
    KeysOfCons("MAP", h.maps != [], Strings(h.maps), f2 + (f3 + f4));
    KeysOfCons("ENV", h.env != [], Strings(h.env), f3 + f4);
    KeysOfCons("ENV_PWD_IS_HOST_CWD", h.usesHostCwd, JTrue, f4);
    KeysOfField("ENV_EXE_NAME_IS_HOST_EXE_NAME", h.usesHostExeName, JTrue);
  }

  lemma NotYetSupportedKeysWritten(h: Hermitfile)
    ensures KeysOf(NotYetSupported(h)) == NotYetSupportedKeys(h)
  {
    var f6 := Field("LINK", h.link != [], Strings(h.link));
    var f7 := Field("NET", h.net != [], Strings(h.net));
    var f8 := Field("ARGV", h.argv != [], Strings(h.argv));
    var f9 := Field("ENTRYPOINT", h.entrypoint != "", JString(h.entrypoint));
    KeysOfCons("FROM", h.from != "", JString(h.from), f6 + (f7 + (f8 + f9)));
    KeysOfCons("LINK", h.link != [], Strings(h.link), f7 + (f8 + f9));
    KeysOfCons("NET", h.net != [], Strings(h.net), f8 + f9);
    KeysOfCons("ARGV", h.argv != [], Strings(h.argv), f9);
    KeysOfField("ENTRYPOINT", h.entrypoint != "", JString(h.entrypoint));
  }

  /** The omission rules: a key is written exactly when its field is not empty or false. */
  lemma SerializeOmits(h: Hermitfile)
    ensures KeysOf(Serialize(h)) == PresentKeys(h)
  {
    KeysOfConcat(Supported(h), NotYetSupported(h));
    SupportedKeysWritten(h);
    NotYetSupportedKeysWritten(h);
  }

  /** Every member of a Field is that field. */
  lemma InField(m: (string, Value), key: string, present: bool, v: Value)
    requires m in Field(key, present, v)
    ensures present && m == (key, v)
  {
  }

  /** ENTRYPOINT is never written as "", and the flags are only ever written as true. */
  lemma SerializedValues(h: Hermitfile)
    ensures forall m :: m in Serialize(h) && m.0 == "ENTRYPOINT" ==> m.1 == JString(h.entrypoint) && m.1.str != ""
    ensures forall m :: m in Serialize(h) && m.0 == "ENV_PWD_IS_HOST_CWD" ==> m.1 == JTrue
    ensures forall m :: m in Serialize(h) && m.0 == "ENV_EXE_NAME_IS_HOST_EXE_NAME" ==> m.1 == JTrue
  {
    forall m | m in Serialize(h)
      ensures m.0 == "ENTRYPOINT" ==> m.1 == JString(h.entrypoint) && m.1.str != ""
      ensures m.0 == "ENV_PWD_IS_HOST_CWD" || m.0 == "ENV_EXE_NAME_IS_HOST_EXE_NAME" ==> m.1 == JTrue
    {
      if m in Supported(h) {
        SupportedValue(h, m);
      } else {
        NotYetSupportedValue(h, m);
      }
    }
  }

  lemma SupportedValue(h: Hermitfile, m: (string, Value))
    requires m in Supported(h)
    ensures m.0 != "ENTRYPOINT"
    ensures m.0 == "ENV_PWD_IS_HOST_CWD" || m.0 == "ENV_EXE_NAME_IS_HOST_EXE_NAME" ==> m.1 == JTrue
  {
    var f3 := Field("ENV_PWD_IS_HOST_CWD", h.usesHostCwd, JTrue);
    var f4 := Field("ENV_EXE_NAME_IS_HOST_EXE_NAME", h.usesHostExeName, JTrue);
    if m in Field("MAP", h.maps != [], Strings(h.maps)) {
      InField(m, "MAP", h.maps != [], Strings(h.maps));
    } else if m in Field("ENV", h.env != [], Strings(h.env)) {
      InField(m, "ENV", h.env != [], Strings(h.env));
    } else if m in f3 {
      InField(m, "ENV_PWD_IS_HOST_CWD", h.usesHostCwd, JTrue);
    } else {
      assert m in f4;
      InField(m, "ENV_EXE_NAME_IS_HOST_EXE_NAME", h.usesHostExeName, JTrue);
    }
  }

  lemma NotYetSupportedValue(h: Hermitfile, m: (string, Value))
    requires m in NotYetSupported(h)
    ensures m.0 == "ENTRYPOINT" ==> m.1 == JString(h.entrypoint) && m.1.str != ""
    ensures m.0 != "ENV_PWD_IS_HOST_CWD" && m.0 != "ENV_EXE_NAME_IS_HOST_EXE_NAME"
  {
    var f9 := Field("ENTRYPOINT", h.entrypoint != "", JString(h.entrypoint));
    if m in Field("FROM", h.from != "", JString(h.from)) {
      InField(m, "FROM", h.from != "", JString(h.from));
    } else if m in Field("LINK", h.link != [], Strings(h.link)) {
      InField(m, "LINK", h.link != [], Strings(h.link));
    } else if m in Field("NET", h.net != [], Strings(h.net)) {
      InField(m, "NET", h.net != [], Strings(h.net));
    } else if m in Field("ARGV", h.argv != [], Strings(h.argv)) {
      InField(m, "ARGV", h.argv != [], Strings(h.argv));
    } else {
      assert m in f9;
      InField(m, "ENTRYPOINT", h.entrypoint != "", JString(h.entrypoint));
    }
  }

  // ---------------------------------------------------------------------
  // The loader's view of each key
  // ---------------------------------------------------------------------

  /** A constant key reaches strcmp whole. */
  lemma PlainKey(key: string)
    requires forall j :: 0 <= j < |key| ==> key[j] != '\0'
    ensures CStr(key) == key
  {
    IndexFromNone(key, 0, '\0');
  }

  /** The first entry carrying a key is the one found. */
  lemma {:induction false} LookupAt(table: seq<ConfigItem>, n: nat, name: string)
    requires n < |table| && table[n].key == name
    requires forall i :: 0 <= i < n ==> table[i].key != name
    ensures LookupIn(table, name) == Some(table[n])
  {
    if n > 0 {
      LookupAt(table[1..], n - 1, name);
    }
  }

  lemma MapKey()
    ensures Lookup(CStr("MAP")) == Some(Items[0])
  {
    PlainKey("MAP");
    LookupAt(Items, 0, "MAP");
  }

  lemma PwdKey()
    ensures Lookup(CStr("ENV_PWD_IS_HOST_CWD")) == Some(Items[1])
  {
    PlainKey("ENV_PWD_IS_HOST_CWD");
    LookupAt(Items, 1, "ENV_PWD_IS_HOST_CWD");
  }

  lemma EnvKey()
    ensures Lookup(CStr("ENV")) == Some(Items[2])
  {
    PlainKey("ENV");
    LookupAt(Items, 2, "ENV");
  }

  lemma NetKey()
    ensures Lookup(CStr("NET")) == Some(Items[3])
  {
    PlainKey("NET");
    LookupAt(Items, 3, "NET");
  }

  lemma ArgvKey()
    ensures Lookup(CStr("ARGV")) == Some(Items[4])
  {
    PlainKey("ARGV");
    LookupAt(Items, 4, "ARGV");
  }

  lemma EntrypointKey()
    ensures Lookup(CStr("ENTRYPOINT")) == Some(Items[5])
  {
    PlainKey("ENTRYPOINT");
    LookupAt(Items, 5, "ENTRYPOINT");
  }

  /** Walking an optional member: an absent one changes nothing. */
  lemma WalkField(key: string, present: bool, v: Value, rest: seq<(string, Value)>, c: Caps, c': Caps, cwd: string)
    requires present ==> Apply(c, key, v, cwd) == Success(c')
    requires !present ==> c' == c
    ensures WalkFrom(Field(key, present, v) + rest, c, cwd) == WalkFrom(rest, c', cwd)
  {
    var ms := Field(key, present, v) + rest;
    if present {
      assert ms[0] == (key, v) && ms[1..] == rest;
    } else {
      assert ms == rest;
    }
  }

  /** MAP: the array's strings are appended to the directories. */
  lemma MapWalked(xs: seq<string>, rest: seq<(string, Value)>, c: Caps, cwd: string)
    ensures WalkFrom(Field("MAP", xs != [], Strings(xs)) + rest, c, cwd)
            == WalkFrom(rest, c.(dirs := c.dirs + xs), cwd)
  {
    MapKey();
    var v := Strings(xs);
    assert Apply(c, "MAP", v, cwd) == ApplyItem(c, Items[0], v, cwd);
    AppendDirsMeaning(c.dirs, v.elems);
    assert AllStrings(v.elems);
    assert StringsOf(v.elems) == xs;
    assert c.dirs + [] == c.dirs;
    WalkField("MAP", xs != [], v, rest, c, c.(dirs := c.dirs + xs), cwd);
  }

  /** ENV: well-formed entries are appended to the environment. */
  lemma EnvWalked(key: string, item: ConfigItem, xs: seq<string>, rest: seq<(string, Value)>, c: Caps, cwd: string)
    requires Lookup(CStr(key)) == Some(item) && item.index == HcEnv
    requires forall e :: e in xs ==> IsKeyValue(e)
    ensures WalkFrom(Field(key, xs != [], Strings(xs)) + rest, c, cwd)
            == WalkFrom(rest, c.(envs := c.envs + xs), cwd)
  {
    var v := Strings(xs);
    if xs != [] {
      EnvApplied(key, item, xs, c, cwd);
    } else {
      assert c.envs + xs == c.envs;
    }
    WalkField(key, xs != [], v, rest, c, c.(envs := c.envs + xs), cwd);
  }

  /** Applying a well-formed ENV array appends it to the environment. */
  lemma EnvApplied(key: string, item: ConfigItem, xs: seq<string>, c: Caps, cwd: string)
    requires Lookup(CStr(key)) == Some(item) && item.index == HcEnv
    requires forall e :: e in xs ==> IsKeyValue(e)
    ensures Apply(c, key, Strings(xs), cwd) == Success(c.(envs := c.envs + xs))
  {
    EnvItemApplied(item, xs, c, cwd);
  }

  lemma EnvItemApplied(item: ConfigItem, xs: seq<string>, c: Caps, cwd: string)
    requires item.index == HcEnv && item.kind == KArray
    requires forall e :: e in xs ==> IsKeyValue(e)
    ensures ApplyItem(c, item, Strings(xs), cwd) == Success(c.(envs := c.envs + xs))
  {
    var v := Strings(xs);
    StringsGood(xs);
    AppendEnvsAllGood(c.envs, v.elems);
    StringsOfStrings(xs);
  }

  lemma StringsGood(xs: seq<string>)
    requires forall e :: e in xs ==> IsKeyValue(e)
    ensures forall i :: 0 <= i < |Strings(xs).elems| ==> GoodEnv(Strings(xs).elems[i])
  {
    forall i | 0 <= i < |Strings(xs).elems| ensures GoodEnv(Strings(xs).elems[i]) {
      assert xs[i] in xs;
    }
  }

  lemma StringsOfStrings(xs: seq<string>)
    ensures StringsOf(Strings(xs).elems) == xs
  {
  }

  /** ENV_PWD_IS_HOST_CWD, written only as true, appends the PWD entry. */
  lemma PwdWalked(key: string, item: ConfigItem, flag: bool, rest: seq<(string, Value)>, c: Caps, cwd: string)
    requires Lookup(CStr(key)) == Some(item) && item.index == HcEnvPwdIsHostCwd
    ensures WalkFrom(Field(key, flag, JTrue) + rest, c, cwd)
            == WalkFrom(rest, c.(envs := c.envs + if flag then [PwdEntry(cwd)] else []), cwd)
  {
    if flag {
      PwdItemApplied(item, c, cwd);
    } else {
      assert c.envs + [] == c.envs;
    }
    WalkField(key, flag, JTrue, rest, c, c.(envs := c.envs + if flag then [PwdEntry(cwd)] else []), cwd);
  }

  lemma PwdItemApplied(item: ConfigItem, c: Caps, cwd: string)
    requires item.index == HcEnvPwdIsHostCwd && item.kind == KTrue
    ensures ApplyItem(c, item, JTrue, cwd) == Success(c.(envs := c.envs + [PwdEntry(cwd)]))
  {
  }

  /** ENV_EXE_NAME_IS_HOST_EXE_NAME is not in the loaders' table: only logged. */
  lemma ExeNameWalked(flag: bool, rest: seq<(string, Value)>, c: Caps, cwd: string)
    ensures WalkFrom(Field("ENV_EXE_NAME_IS_HOST_EXE_NAME", flag, JTrue) + rest, c, cwd) == WalkFrom(rest, c, cwd)
  {
    ExeNameKeyUnknown();
    UnknownKeyKeepsCaps(c, "ENV_EXE_NAME_IS_HOST_EXE_NAME", JTrue, cwd);
    WalkField("ENV_EXE_NAME_IS_HOST_EXE_NAME", flag, JTrue, rest, c, c, cwd);
  }

  /** FROM is not in the loaders' table: only logged. */
  lemma FromWalked(from: string, rest: seq<(string, Value)>, c: Caps, cwd: string)
    ensures WalkFrom(Field("FROM", from != "", JString(from)) + rest, c, cwd) == WalkFrom(rest, c, cwd)
  {
    PlainKey("FROM");
    UnknownKeyKeepsCaps(c, "FROM", JString(from), cwd);
    WalkField("FROM", from != "", JString(from), rest, c, c, cwd);
  }

  /** LINK is not in the loaders' table: only logged. */
  lemma LinkWalked(xs: seq<string>, rest: seq<(string, Value)>, c: Caps, cwd: string)
    ensures WalkFrom(Field("LINK", xs != [], Strings(xs)) + rest, c, cwd) == WalkFrom(rest, c, cwd)
  {
    PlainKey("LINK");
    UnknownKeyKeepsCaps(c, "LINK", Strings(xs), cwd);
    WalkField("LINK", xs != [], Strings(xs), rest, c, c, cwd);
  }

  /** NET is recognised as an array and otherwise ignored. */
  lemma NetWalked(xs: seq<string>, rest: seq<(string, Value)>, c: Caps, cwd: string)
    ensures WalkFrom(Field("NET", xs != [], Strings(xs)) + rest, c, cwd) == WalkFrom(rest, c, cwd)
  {
    NetKey();
    NetArgvKeepCaps(c, "NET", Strings(xs), cwd);
    WalkField("NET", xs != [], Strings(xs), rest, c, c, cwd);
  }

  /** ARGV is recognised as an array and otherwise ignored. */
  lemma ArgvWalked(xs: seq<string>, rest: seq<(string, Value)>, c: Caps, cwd: string)
    ensures WalkFrom(Field("ARGV", xs != [], Strings(xs)) + rest, c, cwd) == WalkFrom(rest, c, cwd)
  {
    ArgvKey();
    NetArgvKeepCaps(c, "ARGV", Strings(xs), cwd);
    WalkField("ARGV", xs != [], Strings(xs), rest, c, c, cwd);
  }

  /** ENTRYPOINT, never written empty, names the function to run. */
  lemma EntrypointWalked(key: string, item: ConfigItem, name: string, c: Caps, cwd: string)
    requires Lookup(CStr(key)) == Some(item) && item.index == HcEntrypoint
    ensures WalkFrom(Field(key, name != "", JString(name)), c, cwd)
            == Success(c.(funcName := if name == "" then c.funcName else Some(name)))
  {
    assert Apply(c, key, JString(name), cwd) == ApplyItem(c, item, JString(name), cwd);
    var f := Field(key, name != "", JString(name));
    assert f + [] == f;
    WalkField(key, name != "", JString(name), [], c,
              c.(funcName := if name == "" then c.funcName else Some(name)), cwd);
  }

  /** The capabilities a Hermitfile grants once its manifest is loaded. */
  function CapsOf(h: Hermitfile, cwd: string): Caps
  {
    Caps(h.maps,
         h.env + (if h.usesHostCwd then [PwdEntry(cwd)] else []),
         if h.entrypoint == "" then None else Some(h.entrypoint))
  }

  /** The supported fields grant the directories and the environment. */
  lemma SupportedLoads(h: Hermitfile, rest: seq<(string, Value)>, cwd: string)
    requires forall e :: e in h.env ==> IsKeyValue(e)
    ensures WalkFrom(Supported(h) + rest, NoCaps, cwd) == WalkFrom(rest, CapsOf(h, cwd).(funcName := None), cwd)
  {
    var f1 := Field("MAP", h.maps != [], Strings(h.maps));
    var f2 := Field("ENV", h.env != [], Strings(h.env));
    var f3 := Field("ENV_PWD_IS_HOST_CWD", h.usesHostCwd, JTrue);
    var f4 := Field("ENV_EXE_NAME_IS_HOST_EXE_NAME", h.usesHostExeName, JTrue);
    Assoc(f1, f2 + (f3 + f4), rest);
    Assoc(f2, f3 + f4, rest);
    Assoc(f3, f4, rest);
    var c1 := NoCaps.(dirs := [] + h.maps);
    var c2 := c1.(envs := [] + h.env);
    var c3 := c2.(envs := c2.envs + if h.usesHostCwd then [PwdEntry(cwd)] else []);
    MapWalked(h.maps, f2 + (f3 + (f4 + rest)), NoCaps, cwd);
    EnvKey();
    EnvWalked("ENV", Items[2], h.env, f3 + (f4 + rest), c1, cwd);
    PwdKey();
    PwdWalked("ENV_PWD_IS_HOST_CWD", Items[1], h.usesHostCwd, f4 + rest, c2, cwd);
    ExeNameWalked(h.usesHostExeName, rest, c3, cwd);
    assert [] + h.maps == h.maps && [] + h.env == h.env;
    assert c3 == CapsOf(h, cwd).(funcName := None);
  }

  /** Of the fields not supported yet, only ENTRYPOINT has an effect: it names the function. */
  lemma NotYetSupportedLoads(h: Hermitfile, c: Caps, cwd: string)
    ensures WalkFrom(NotYetSupported(h), c, cwd)
            == Success(c.(funcName := if h.entrypoint == "" then c.funcName else Some(h.entrypoint)))
  {
    var f6 := Field("LINK", h.link != [], Strings(h.link));
    var f7 := Field("NET", h.net != [], Strings(h.net));
    var f8 := Field("ARGV", h.argv != [], Strings(h.argv));
    var f9 := Field("ENTRYPOINT", h.entrypoint != "", JString(h.entrypoint));
    FromWalked(h.from, f6 + (f7 + (f8 + f9)), c, cwd);
    LinkWalked(h.link, f7 + (f8 + f9), c, cwd);
    NetWalked(h.net, f8 + f9, c, cwd);
    ArgvWalked(h.argv, f9, c, cwd);
    EntrypointKey();
    EntrypointWalked("ENTRYPOINT", Items[5], h.entrypoint, c, cwd);
  }

  /**
   * Whatever the CLI writes, the loaders accept, provided its environment
   * entries are KEY=VALUE: the walk passes every kind check and grants
   * the MAP directories, the ENV entries followed by PWD when the host
   * directory was asked for, and the ENTRYPOINT function when one is set.
   */
  lemma ProducedManifestLoads(h: Hermitfile, cwd: string)
    requires forall e :: e in h.env ==> IsKeyValue(e)
    ensures Load(JObject(Serialize(h)), cwd) == Success(CapsOf(h, cwd))
  {
    SupportedLoads(h, NotYetSupported(h), cwd);
    NotYetSupportedLoads(h, CapsOf(h, cwd).(funcName := None), cwd);
  }
}
