/**
 * The hermit CLI's Hermitfile parser: the Dockerfile-style instructions,
 * already parsed, are folded into a Hermitfile record that later becomes
 * hermit.json. The Dockerfile parser library, the file read and the UTF-8
 * check are outside the model; the instruction list is the input.
 */
module HermitCli {
  import opened Wrappers

  /** One piece of a shell-form argument: text, or a comment inside a continued line. */
  datatype Component = Text(content: string) | Comment(content: string)

  /** An instruction's argument: the exec form (a bracketed array) or the shell form. */
  datatype Expr = Exec(elements: seq<string>) | Shell(components: seq<Component>)

  /** `ENV key=value`: the value as the parser breaks it into components. */
  datatype EnvVar = EnvVar(key: string, value: seq<Component>)

  datatype Instruction =
    | From(image: string)
    | Net(expr: Expr)
    | Map(expr: Expr)
    | Link(expr: Expr)
    | Env(vars: seq<EnvVar>)
    | Entrypoint(expr: Expr)
    | EnvPwdIsHostCwd
    | EnvExeIsHostCwd
    | Other

  /** The record serialised to hermit.json; fields default to empty and false. */
  datatype Hermitfile = Hermitfile(
    maps: seq<string>,
    env: seq<string>,
    usesHostCwd: bool,
    usesHostExeName: bool,
    from: string,
    link: seq<string>,
    net: seq<string>,
    argv: seq<string>,
    entrypoint: string)

  const Default: Hermitfile := Hermitfile([], [], false, false, "", [], [], [], "")

  /** Why parse_hermitfile panics on a parsed instruction list. */
  datatype Panic =
    | NoParentDirectory      // the Hermitfile path has no parent to resolve FROM against
    | EnvWithoutValue(key: string)
    | EntrypointWithoutName
    | MissingFrom

  /** The fold's state: the record and the environment map. */
  datatype Parse = Parse(hf: Hermitfile, env: map<string, string>)

  const Start: Parse := Parse(Default, map[])

  // ---------------------------------------------------------------------
  // Paths, '/'-separated
  // ---------------------------------------------------------------------

  /** The index of the last '/' in s before position n, if any. */
  function LastSlash(s: string, n: nat): (r: Option<nat>)
    requires n <= |s|
    ensures r.Some? ==> r.value < n && s[r.value] == '/'
    ensures r.Some? ==> forall j :: r.value < j < n ==> s[j] != '/'
    ensures r.None? ==> forall j :: 0 <= j < n ==> s[j] != '/'
  {
    if n == 0 then None else if s[n - 1] == '/' then Some(n - 1) else LastSlash(s, n - 1)
  }

  /**
   * s[k] is a whole "." component: a '.' with a separator or an end of the
   * string on each side. Path's component iterator skips these.
   */
  predicate LoneDot(s: string, k: nat)
    requires k < |s|
  {
    s[k] == '.' && (k == 0 || s[k - 1] == '/') && (k + 1 == |s| || s[k + 1] == '/')
  }

  /** The root and nothing else: every later character is a separator or a "." component. */
  predicate RootOnly(p: string)
  {
    |p| > 0 && p[0] == '/' && forall k :: 0 < k < |p| && p[k] != '/' ==> LoneDot(p, k)
  }

  /**
   * Components::as_path's trim from the back: separators and "."
   * components come off the end, but never the first `floor` characters
   * (the root, or a leading "." that the iterator keeps).
   */
  function TrimRight(s: string, floor: nat): (t: string)
    requires floor <= |s|
    ensures floor <= |t| <= |s| && t == s[..|t|]
    ensures forall k :: |t| <= k < |s| && s[k] != '/' ==> LoneDot(s, k)
    ensures |t| > floor ==> t[|t| - 1] != '/' && !LoneDot(t, |t| - 1)
    decreases |s|
  {
    if |s| == floor then s
    else if s[|s| - 1] == '/' || LoneDot(s, |s| - 1) then
      var t := TrimRight(s[..|s| - 1], floor);
      assert forall k :: |t| <= k < |s| - 1 && s[k] != '/' ==> LoneDot(s, k) by {
        forall k | |t| <= k < |s| - 1 && s[k] != '/' ensures LoneDot(s, k) {
          assert LoneDot(s[..|s| - 1], k);
        }
      }
      t
    else s
  }

  /**
   * Path::parent (and so PathBuf::pop) on a Unix path, component by
   * component: repeated separators and "." components count for nothing
   * and a trailing separator is ignored. There is no parent when nothing
   * but the root is left, or for the empty path; otherwise the last
   * component is dropped and the rest is trimmed as above ("" for a bare
   * name, "/" for a name under the root, "." after a leading ".").
   */
  function Parent(p: string): (r: Option<string>)
    ensures r.None? <==> p == "" || RootOnly(p)
    ensures r.Some? ==> |r.value| < |p| && r.value == p[..|r.value|]
    ensures r.Some? && |r.value| > 1 ==> r.value[|r.value| - 1] != '/'
  {
    if p == "" then None
    else
      var floor := if p[0] == '/' || LoneDot(p, 0) then 1 else 0;
      var t := TrimRight(p, floor);
      if |t| == floor then
        if p[0] == '.' then Some("") else None
      else
        assert !RootOnly(p) by {
          if p[0] == '/' { assert t[|t| - 1] != '/' && !LoneDot(t, |t| - 1); assert p[|t| - 1] == t[|t| - 1]; }
        }
        match LastSlash(t, |t|)
        case None => Some("")
        case Some(i) => Some(TrimRight(t[..i + 1], floor))
  }

  /** Path::parent on the paths where a plain split at the last '/' would differ. */
  lemma ParentNormalises()
    ensures Parent("//") == None && Parent("/./") == None
    ensures Parent("a/./f") == Some("a")
    ensures Parent("a/b/") == Some("a")
    ensures Parent("a//b") == Some("a")
    ensures Parent("./f") == Some(".") && Parent(".") == Some("")
    ensures Parent("f") == Some("") && Parent("/f") == Some("/")
  {
    ParentSkipsDot();
    ParentSkipsTrailing();
    ParentSkipsDoubled();
    ParentKeepsLeadingDot();
    ParentOfRoots();
    ParentOfNames();
  }

  lemma ParentOfRoots()
    ensures Parent("//") == None && Parent("/./") == None && Parent(".") == Some("")
  {
  }

  lemma ParentOfNames()
    ensures Parent("f") == Some("") && Parent("/f") == Some("/")
  {
    assert LastSlash("/f", 2) == Some(0);
    assert "/f"[..1] == "/";
  }

  lemma ParentSkipsDot()
    ensures Parent("a/./f") == Some("a")
  {
    assert TrimRight("a/", 0) == "a" by { assert "a/"[..1] == "a"; }
    assert TrimRight("a/.", 0) == "a" by { assert LoneDot("a/.", 2) && "a/."[..2] == "a/"; }
    assert TrimRight("a/./", 0) == "a" by { assert "a/./"[..3] == "a/."; }
    assert LastSlash("a/./f", 5) == Some(3);
    assert "a/./f"[..4] == "a/./";
  }

  lemma ParentSkipsTrailing()
    ensures Parent("a/b/") == Some("a")
  {
    assert TrimRight("a/b/", 0) == "a/b" by { assert "a/b/"[..3] == "a/b"; }
    assert LastSlash("a/b", 3) == Some(1);
    assert TrimRight("a/", 0) == "a" by { assert "a/"[..1] == "a"; }
    assert "a/b"[..2] == "a/";
  }

  lemma ParentSkipsDoubled()
    ensures Parent("a//b") == Some("a")
  {
    assert TrimRight("a/", 0) == "a" by { assert "a/"[..1] == "a"; }
    assert TrimRight("a//", 0) == "a" by { assert "a//"[..2] == "a/"; }
    assert LastSlash("a//b", 4) == Some(2);
    assert "a//b"[..3] == "a//";
  }

  lemma ParentKeepsLeadingDot()
    ensures Parent("./f") == Some(".")
  {
    assert TrimRight("./", 1) == "." by { assert "./"[..1] == "."; }
    assert LastSlash("./f", 3) == Some(1);
    assert "./f"[..2] == "./";
  }

  /**
   * PathBuf::push: an absolute component replaces the path; otherwise it
   * is appended, with a '/' between unless the path is empty or already
   * ends in one.
   */
  function Push(dir: string, c: string): (r: string)
    ensures |c| > 0 && c[0] == '/' ==> r == c
    ensures !(|c| > 0 && c[0] == '/') ==> dir <= r
    ensures |r| >= |c| && r[|r| - |c|..] == c
  {
    if |c| > 0 && c[0] == '/' then c
    else if dir == "" then c
    else if dir[|dir| - 1] == '/' then dir + c
    else dir + "/" + c
  }

  // ---------------------------------------------------------------------
  // The instruction fold
  // ---------------------------------------------------------------------

  /** ENV: each variable whose value starts with text sets its key; a variable with no value panics. */
  function InsertVars(m: map<string, string>, vars: seq<EnvVar>): Result<map<string, string>, Panic>
    decreases |vars|
  {
    if vars == [] then Success(m)
    else if vars[0].value == [] then Failure(EnvWithoutValue(vars[0].key))
    else
      var m' := if vars[0].value[0].Text? then m[vars[0].key := vars[0].value[0].content] else m;
      InsertVars(m', vars[1..])
  }

  /** The effect of one instruction on the record and the environment map. */
  function Step(path: string, p: Parse, ins: Instruction): Result<Parse, Panic>
  {
    match ins
    case From(image) =>
      (match Parent(path)
       case None => Failure(NoParentDirectory)
       case Some(dir) => Success(p.(hf := p.hf.(from := Push(dir, image)))))
    case Net(e) => if e.Exec? then Success(p.(hf := p.hf.(net := e.elements))) else Success(p)
    case Map(e) => if e.Exec? then Success(p.(hf := p.hf.(maps := e.elements))) else Success(p)
    case Link(e) => if e.Exec? then Success(p.(hf := p.hf.(link := e.elements))) else Success(p)
    case Env(vars) =>
      (match InsertVars(p.env, vars)
       case Failure(x) => Failure(x)
       case Success(m) => Success(p.(env := m)))
    case Entrypoint(e) =>
      if !e.Shell? then Success(p)
      else if e.components == [] then Failure(EntrypointWithoutName)
      else if e.components[0].Text? then Success(p.(hf := p.hf.(entrypoint := e.components[0].content)))
      else Success(p)
    case EnvPwdIsHostCwd => Success(p.(hf := p.hf.(usesHostCwd := true)))
    case EnvExeIsHostCwd => Success(p.(hf := p.hf.(usesHostExeName := true)))
    case Other => Success(p)
  }

  /** The instructions applied in order, stopping at the first panic. */
  function Fold(path: string, p: Parse, instrs: seq<Instruction>): Result<Parse, Panic>
    decreases |instrs|
  {
    if instrs == [] then Success(p)
    else match Step(path, p, instrs[0])
      case Failure(x) => Failure(x)
      case Success(p') => Fold(path, p', instrs[1..])
  }

  /** The "k=v" entry emitted for an environment variable. */
  function Entry(k: string, v: string): string
  {
    k + "=" + v
  }

  /** env lists one entry per key of m, in some order. */
  predicate EnvListed(env: seq<string>, m: map<string, string>)
  {
    && |env| == |m.Keys|
    && (forall k :: k in m ==> Entry(k, m[k]) in env)
    && (forall i :: 0 <= i < |env| ==> exists k :: k in m && env[i] == Entry(k, m[k]))
  }

  /**
   * Pushing every entry of the map onto the list: HashMap iteration
   * order is unspecified, so each step takes any key not yet emitted.
   */
  method EmitEnv(m: map<string, string>) returns (env: seq<string>)
    ensures EnvListed(env, m)
  {
    env := [];
    var rest := m.Keys;
    ghost var done: seq<string> := [];
    while rest != {}
      invariant rest <= m.Keys
      invariant forall k :: k in done ==> k in m && k !in rest
      invariant forall k :: k in m ==> k in rest || k in done
      invariant |env| == |done|
      invariant forall i :: 0 <= i < |done| ==> env[i] == Entry(done[i], m[done[i]])
      invariant |done| + |rest| == |m.Keys|
      decreases |rest|
    {
      var k :| k in rest;
      env := env + [Entry(k, m[k])];
      done := done + [k];
      rest := rest - {k};
    }
    forall k | k in m ensures Entry(k, m[k]) in env {
      var i :| 0 <= i < |done| && done[i] == k;
      assert env[i] == Entry(k, m[k]);
    }
  }

  /**
   * parse_hermitfile: fold the instructions over the default record and
   * an empty map, panic when no FROM produced a path, then push one
   * "k=v" per environment variable.
   */
  method ParseHermitfile(path: string, instrs: seq<Instruction>) returns (r: Result<Hermitfile, Panic>)
    ensures Fold(path, Start, instrs).Failure? ==> r == Failure(Fold(path, Start, instrs).error)
    ensures Fold(path, Start, instrs).Success? && Fold(path, Start, instrs).value.hf.from == ""
            ==> r == Failure(MissingFrom)
    ensures Fold(path, Start, instrs).Success? && Fold(path, Start, instrs).value.hf.from != "" ==> r.Success?
    ensures r.Success? ==> Fold(path, Start, instrs).Success?
    ensures r.Success? ==> r.value.from != ""
    ensures r.Success? ==> r.value == Fold(path, Start, instrs).value.hf.(env := r.value.env)
    ensures r.Success? ==> EnvListed(r.value.env, Fold(path, Start, instrs).value.env)
  {
    var p := Start;
    for i := 0 to |instrs|
      invariant Fold(path, Start, instrs) == Fold(path, p, instrs[i..])
    {
      assert instrs[i..][1..] == instrs[i + 1..];
      var next := Step(path, p, instrs[i]);
      if next.Failure? {
        return Failure(next.error);
      }
      p := next.value;
    }
    if p.hf.from == "" {
      return Failure(MissingFrom);
    }
    var env := EmitEnv(p.env);
    r := Success(p.hf.(env := env));
  }
}
