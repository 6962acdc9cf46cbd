/** What the Hermitfile fold promises: last-wins fields, monotone flags, the environment map. */
module HermitCliFacts {
  import opened Wrappers
  import opened HermitCli

  /** Folding a concatenation folds the second part over the first part's result. */
  lemma {:induction false} FoldAppend(path: string, p: Parse, a: seq<Instruction>, b: seq<Instruction>)
    ensures Fold(path, p, a + b)
            == (match Fold(path, p, a) case Failure(x) => Failure(x) case Success(q) => Fold(path, q, b))
    decreases |a|
  {
    if a == [] {
      assert a + b == b;
    } else {
      assert (a + b)[0] == a[0] && (a + b)[1..] == a[1..] + b;
      match Step(path, p, a[0]) {
        case Failure(x) =>
        case Success(p') => FoldAppend(path, p', a[1..], b);
      }
    }
  }

  /** The record fields filled from an exec-form array. */
  datatype ListField = NetField | MapField | LinkField

  function Field(h: Hermitfile, f: ListField): seq<string>
  {
    match f
    case NetField => h.net
    case MapField => h.maps
    case LinkField => h.link
  }

  /** ins is an exec-form instruction of the kind that fills f. */
  predicate SetsField(ins: Instruction, f: ListField)
  {
    match f
    case NetField => ins.Net? && ins.expr.Exec?
    case MapField => ins.Map? && ins.expr.Exec?
    case LinkField => ins.Link? && ins.expr.Exec?
  }

  /** An instruction that does not fill f (a shell-form one included) leaves it as it was. */
  lemma StepKeepsField(path: string, p: Parse, ins: Instruction, f: ListField)
    requires !SetsField(ins, f) && Step(path, p, ins).Success?
    ensures Field(Step(path, p, ins).value.hf, f) == Field(p.hf, f)
  {
  }

  lemma {:induction false} FoldKeepsField(path: string, p: Parse, instrs: seq<Instruction>, f: ListField)
    requires forall i :: 0 <= i < |instrs| ==> !SetsField(instrs[i], f)
    requires Fold(path, p, instrs).Success?
    ensures Field(Fold(path, p, instrs).value.hf, f) == Field(p.hf, f)
    decreases |instrs|
  {
    if instrs != [] {
      StepKeepsField(path, p, instrs[0], f);
      var p' := Step(path, p, instrs[0]).value;
      assert forall i :: 0 <= i < |instrs[1..]| ==> instrs[1..][i] == instrs[i + 1];
      FoldKeepsField(path, p', instrs[1..], f);
    }
  }

  /**
   * NET, MAP and LINK: the last exec-form instruction of the kind decides
   * the field, which then holds that instruction's elements in order.
   */
  lemma LastExecWins(path: string, p: Parse, a: seq<Instruction>, ins: Instruction, b: seq<Instruction>,
                     f: ListField)
    requires SetsField(ins, f)
    requires forall i :: 0 <= i < |b| ==> !SetsField(b[i], f)
    requires Fold(path, p, a + [ins] + b).Success?
    ensures Field(Fold(path, p, a + [ins] + b).value.hf, f) == ins.expr.elements
  {
    FoldAppend(path, p, a + [ins], b);
    FoldAppend(path, p, a, [ins]);
    var q := Fold(path, p, a).value;
    var q' := Step(path, q, ins).value;
    assert Fold(path, q, [ins]) == Fold(path, q', []);
    FoldKeepsField(path, q', b, f);
  }

  /** A shell-form ENTRYPOINT whose first component is text. */
  predicate SetsEntrypoint(ins: Instruction)
  {
    ins.Entrypoint? && ins.expr.Shell? && |ins.expr.components| > 0 && ins.expr.components[0].Text?
  }

  lemma {:induction false} FoldKeepsEntrypoint(path: string, p: Parse, instrs: seq<Instruction>)
    requires forall i :: 0 <= i < |instrs| ==> !SetsEntrypoint(instrs[i])
    requires Fold(path, p, instrs).Success?
    ensures Fold(path, p, instrs).value.hf.entrypoint == p.hf.entrypoint
    decreases |instrs|
  {
    if instrs != [] {
      var p' := Step(path, p, instrs[0]).value;
      assert forall i :: 0 <= i < |instrs[1..]| ==> instrs[1..][i] == instrs[i + 1];
      FoldKeepsEntrypoint(path, p', instrs[1..]);
    }
  }

  /** ENTRYPOINT: the last shell-form one with a text argument names the function; exec forms are ignored. */
  lemma LastEntrypointWins(path: string, p: Parse, a: seq<Instruction>, ins: Instruction, b: seq<Instruction>)
    requires SetsEntrypoint(ins)
    requires forall i :: 0 <= i < |b| ==> !SetsEntrypoint(b[i])
    requires Fold(path, p, a + [ins] + b).Success?
    ensures Fold(path, p, a + [ins] + b).value.hf.entrypoint == ins.expr.components[0].content
  {
    FoldAppend(path, p, a + [ins], b);
    FoldAppend(path, p, a, [ins]);
    var q := Fold(path, p, a).value;
    var q' := Step(path, q, ins).value;
    assert Fold(path, q, [ins]) == Fold(path, q', []);
    FoldKeepsEntrypoint(path, q', b);
  }

  /** The two flags are set by their instruction and never cleared. */
  lemma {:induction false} FlagsOnlyRise(path: string, p: Parse, instrs: seq<Instruction>)
    requires Fold(path, p, instrs).Success?
    ensures Fold(path, p, instrs).value.hf.usesHostCwd <==> p.hf.usesHostCwd || EnvPwdIsHostCwd in instrs
    ensures Fold(path, p, instrs).value.hf.usesHostExeName <==> p.hf.usesHostExeName || EnvExeIsHostCwd in instrs
    decreases |instrs|
  {
    if instrs != [] {
      StepFlags(path, p, instrs[0]);
      var p' := Step(path, p, instrs[0]).value;
      FlagsOnlyRise(path, p', instrs[1..]);
      assert forall x :: x in instrs <==> x == instrs[0] || x in instrs[1..];
    }
  }

  /** One instruction sets a flag only when it is that flag's instruction. */
  lemma StepFlags(path: string, p: Parse, ins: Instruction)
    requires Step(path, p, ins).Success?
    ensures Step(path, p, ins).value.hf.usesHostCwd <==> p.hf.usesHostCwd || ins == EnvPwdIsHostCwd
    ensures Step(path, p, ins).value.hf.usesHostExeName <==> p.hf.usesHostExeName || ins == EnvExeIsHostCwd
  {
  }

  /** The value the last variable with key k that starts with text gives k, reading from the end. */
  function LastValue(vars: seq<EnvVar>, k: string): Option<string>
    decreases |vars|
  {
    if vars == [] then None
    else match LastValue(vars[1..], k)
      case Some(v) => Some(v)
      case None =>
        if vars[0].key == k && vars[0].value != [] && vars[0].value[0].Text? then Some(vars[0].value[0].content)
        else None
  }

  /** ENV: a key takes the value of its last text assignment; untouched keys keep their value. */
  lemma {:induction false} InsertVarsMeaning(m: map<string, string>, vars: seq<EnvVar>, k: string)
    requires InsertVars(m, vars).Success?
    ensures LastValue(vars, k).Some? ==> k in InsertVars(m, vars).value
                                         && InsertVars(m, vars).value[k] == LastValue(vars, k).value
    ensures LastValue(vars, k).None? ==> (k in InsertVars(m, vars).value <==> k in m)
    ensures LastValue(vars, k).None? && k in m ==> InsertVars(m, vars).value[k] == m[k]
    decreases |vars|
  {
    if vars != [] {
      var m' := if vars[0].value[0].Text? then m[vars[0].key := vars[0].value[0].content] else m;
      InsertVarsMeaning(m', vars[1..], k);
    }
  }

  /** ins assigns k by text. */
  predicate SetsEnv(ins: Instruction, k: string)
  {
    ins.Env? && LastValue(ins.vars, k).Some?
  }

  lemma {:induction false} FoldKeepsEnv(path: string, p: Parse, instrs: seq<Instruction>, k: string)
    requires k in p.env
    requires forall i :: 0 <= i < |instrs| ==> !SetsEnv(instrs[i], k)
    requires Fold(path, p, instrs).Success?
    ensures k in Fold(path, p, instrs).value.env && Fold(path, p, instrs).value.env[k] == p.env[k]
    decreases |instrs|
  {
    if instrs != [] {
      StepKeepsEnv(path, p, instrs[0], k);
      var p' := Step(path, p, instrs[0]).value;
      assert forall i :: 0 <= i < |instrs[1..]| ==> instrs[1..][i] == instrs[i + 1];
      FoldKeepsEnv(path, p', instrs[1..], k);
    }
  }

  /** One instruction that does not assign k leaves k's value alone. */
  lemma StepKeepsEnv(path: string, p: Parse, ins: Instruction, k: string)
    requires k in p.env && !SetsEnv(ins, k)
    requires Step(path, p, ins).Success?
    ensures k in Step(path, p, ins).value.env && Step(path, p, ins).value.env[k] == p.env[k]
  {
    if ins.Env? {
      InsertVarsMeaning(p.env, ins.vars, k);
    }
  }

  /** ENV across instructions: later assignments overwrite earlier ones, so the last one is emitted. */
  lemma EnvLastWins(path: string, p: Parse, a: seq<Instruction>, ins: Instruction, b: seq<Instruction>, k: string)
    requires SetsEnv(ins, k)
    requires forall i :: 0 <= i < |b| ==> !SetsEnv(b[i], k)
    requires Fold(path, p, a + [ins] + b).Success?
    ensures k in Fold(path, p, a + [ins] + b).value.env
    ensures Fold(path, p, a + [ins] + b).value.env[k] == LastValue(ins.vars, k).value
  {
    FoldAppend(path, p, a + [ins], b);
    FoldAppend(path, p, a, [ins]);
    var q := Fold(path, p, a).value;
    var q' := Step(path, q, ins).value;
    assert Fold(path, q, [ins]) == Fold(path, q', []);
    InsertVarsMeaning(q.env, ins.vars, k);
    FoldKeepsEnv(path, q', b, k);
  }

  /**
   * FROM: a relative image is resolved under the Hermitfile's directory
   * and ends with the image text; an absolute one is taken as it is.
   */
  lemma FromResolved(path: string, p: Parse, image: string)
    requires Parent(path).Some?
    ensures Step(path, p, From(image)).Success?
    ensures var h := Step(path, p, From(image)).value.hf;
            && (Parent(path).value <= h.from || (|image| > 0 && image[0] == '/'))
            && h.from[|h.from| - |image|..] == image
            && (|image| > 0 && image[0] == '/' ==> h.from == image)
            && h == p.hf.(from := h.from)
  {
  }

  /** A Hermitfile path with no parent makes every FROM panic. */
  lemma FromWithoutParentPanics(path: string, p: Parse, image: string)
    requires path == "" || RootOnly(path)
    ensures Step(path, p, From(image)) == Failure(NoParentDirectory)
  {
  }
}
