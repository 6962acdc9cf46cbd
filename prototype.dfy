/**
 * The prototype Hermitfile reader: the same instruction list folded into
 * a smaller record, with each MAP element "a:b" split into a pair. The
 * fixed Dockerfile text it parses and the debug print are outside the
 * model; any instruction list is the input.
 */
module Prototype {
  import opened Wrappers
  import opened HermitCli
  import opened Text

  /** The prototype's record. */
  datatype Record = Record(
    from: string,
    link: seq<string>,
    maps: seq<(string, string)>,
    net: seq<string>,
    entrypoint: seq<string>)

  const Empty: Record := Record("", [], [], [], [])

  predicate HasColon(s: string)
  {
    exists i :: 0 <= i < |s| && s[i] == ':'
  }

  /**
   * `split(":")` keeping parts[0] and parts[1]: the text before the first
   * ':' and the text between it and the next ':' (or the end).
   */
  function Pair(s: string): (string, string)
    requires HasColon(s)
  {
    var i := IndexFrom(s, 0, ':');
    var j := IndexFrom(s, i + 1, ':');
    (s[..i], s[i + 1..j])
  }

  /** The pairs of the elements that contain ':', in element order. */
  function Mappings(es: seq<string>): seq<(string, string)>
  {
    if es == [] then []
    else
      var last := es[|es| - 1];
      Mappings(es[..|es| - 1]) + (if HasColon(last) then [Pair(last)] else [])
  }

  /** The MAP case: push a pair for each element with a ':', skip the others. */
  method SplitMappings(es: seq<string>) returns (mappings: seq<(string, string)>)
    ensures mappings == Mappings(es)
  {
    mappings := [];
    for k := 0 to |es|
      invariant mappings == Mappings(es[..k])
    {
      assert es[..k + 1][..k] == es[..k];
      var cont := es[k];
      if IndexFrom(cont, 0, ':') < |cont| {
        var i := IndexFrom(cont, 0, ':');
        var j := IndexFrom(cont, i + 1, ':');
        mappings := mappings + [(cont[..i], cont[i + 1..j])];
      }
    }
    assert es[..|es|] == es;
  }

  /** The effect of one instruction on the record. */
  function Step(r: Record, ins: Instruction): Record
  {
    match ins
    case From(image) => r.(from := image)
    case Net(e) => if e.Exec? then r.(net := e.elements) else r
    case Map(e) => if e.Exec? then r.(maps := Mappings(e.elements)) else r
    case Link(e) => if e.Exec? then r.(link := e.elements) else r
    case Entrypoint(e) => if e.Exec? then r.(entrypoint := e.elements) else r
    case _ => r
  }

  function Fold(r: Record, instrs: seq<Instruction>): Record
    decreases |instrs|
  {
    if instrs == [] then r else Fold(Step(r, instrs[0]), instrs[1..])
  }

  /** main's loop: each instruction reassigns the field it names. */
  method BuildRecord(instrs: seq<Instruction>) returns (r: Record)
    ensures r == Fold(Empty, instrs)
  {
    r := Empty;
    for i := 0 to |instrs|
      invariant Fold(Empty, instrs) == Fold(r, instrs[i..])
    {
      assert instrs[i..][1..] == instrs[i + 1..];
      match instrs[i] {
        case From(image) =>
          r := r.(from := image);
        case Net(e) =>
          if e.Exec? {
            r := r.(net := e.elements);
          }
        case Map(e) =>
          if e.Exec? {
            var mappings := SplitMappings(e.elements);
            r := r.(maps := mappings);
          }
        case Link(e) =>
          if e.Exec? {
            r := r.(link := e.elements);
          }
        case Entrypoint(e) =>
          if e.Exec? {
            r := r.(entrypoint := e.elements);
          }
        case _ =>
      }
    }
  }

  /** s holds no ':' at all. */
  predicate NoColon(s: string)
  {
    forall i :: 0 <= i < |s| ==> s[i] != ':'
  }

  /** s holds at most one ':'. */
  predicate AtMostOneColon(s: string)
  {
    forall i, j :: 0 <= i < j < |s| && s[i] == ':' ==> s[j] != ':'
  }

  /**
   * The pair is the element cut at its first two colons: both halves are
   * free of ':', and they rebuild the element exactly when it holds one
   * colon; otherwise the element continues past a second ':'.
   */
  lemma PairSplit(s: string)
    requires HasColon(s)
    ensures NoColon(Pair(s).0) && NoColon(Pair(s).1)
    ensures s == Pair(s).0 + ":" + Pair(s).1 <==> AtMostOneColon(s)
    ensures !AtMostOneColon(s) ==> Pair(s).0 + ":" + Pair(s).1 + ":" <= s
  {
    var i := IndexFrom(s, 0, ':');
    var j := IndexFrom(s, i + 1, ':');
    var p := Pair(s);
    assert i < |s|;
    assert p.0 + ":" + p.1 == s[..j];
    if j < |s| {
      assert s[..j + 1] == p.0 + ":" + p.1 + ":";
      assert !AtMostOneColon(s) by { assert s[i] == ':' && s[j] == ':'; }
      assert s != s[..j] by { assert |s[..j]| < |s|; }
    } else {
      assert s == s[..j];
      forall a, b | 0 <= a < b < |s| && s[a] == ':' ensures s[b] != ':' {
        assert a >= i;
      }
    }
  }

  /** Splitting two colon-free halves joined by ':' gives them back. */
  lemma PairOfJoined(a: string, b: string)
    requires NoColon(a) && NoColon(b)
    ensures HasColon(a + ":" + b)
    ensures Pair(a + ":" + b) == (a, b)
  {
    var s := a + ":" + b;
    assert s[|a|] == ':';
    assert IndexFrom(s, 0, ':') == |a| by { IndexFromAt(s, 0, |a|, ':'); }
    assert IndexFrom(s, |a| + 1, ':') == |s| by {
      forall k | |a| + 1 <= k < |s| ensures s[k] != ':' {
        assert s[k] == b[k - |a| - 1];
      }
      IndexFromNone(s, |a| + 1, ':');
    }
    assert s[..|a|] == a;
    assert s[|a| + 1..|s|] == b;
  }

  /** The pairs of a concatenation are those of each part, in order. */
  lemma {:induction false} MappingsAppend(a: seq<string>, b: seq<string>)
    ensures Mappings(a + b) == Mappings(a) + Mappings(b)
    decreases |b|
  {
    if b == [] {
      assert a + b == a;
    } else {
      var b' := b[..|b| - 1];
      assert (a + b)[..|a + b| - 1] == a + b';
      MappingsAppend(a, b');
    }
  }

  /** Every element with a ':' contributes its pair. */
  lemma {:induction false} MappingsComplete(es: seq<string>)
    ensures |Mappings(es)| <= |es|
    ensures forall k :: 0 <= k < |es| && HasColon(es[k]) ==> Pair(es[k]) in Mappings(es)
  {
    if es != [] {
      var init := es[..|es| - 1];
      MappingsComplete(init);
      forall k | 0 <= k < |es| && HasColon(es[k]) ensures Pair(es[k]) in Mappings(es) {
        if k < |init| {
          assert init[k] == es[k];
        }
      }
    }
  }

  /** Every pair comes from an element with a ':'. */
  lemma {:induction false} MappingsSound(es: seq<string>)
    ensures forall m :: m in Mappings(es) ==>
              exists k :: 0 <= k < |es| && HasColon(es[k]) && m == Pair(es[k])
  {
    if es != [] {
      var init := es[..|es| - 1];
      MappingsSound(init);
      forall m | m in Mappings(es)
        ensures exists k :: 0 <= k < |es| && HasColon(es[k]) && m == Pair(es[k])
      {
        if m in Mappings(init) {
          var k :| 0 <= k < |init| && HasColon(init[k]) && m == Pair(init[k]);
          assert init[k] == es[k];
        } else {
          assert HasColon(es[|es| - 1]) && m == Pair(es[|es| - 1]);
        }
      }
    }
  }

  /** When every element has a ':', the pairs line up with the elements. */
  lemma {:induction false} MappingsAligned(es: seq<string>)
    requires forall k :: 0 <= k < |es| ==> HasColon(es[k])
    ensures |Mappings(es)| == |es|
    ensures forall k :: 0 <= k < |es| ==> Mappings(es)[k] == Pair(es[k])
  {
    if es != [] {
      var init := es[..|es| - 1];
      var last := es[|es| - 1];
      forall k | 0 <= k < |init| ensures HasColon(init[k]) {
        assert init[k] == es[k];
      }
      MappingsAligned(init);
      assert Mappings(es) == Mappings(init) + [Pair(last)];
      forall k | 0 <= k < |es| ensures Mappings(es)[k] == Pair(es[k]) {
        if k < |init| {
          assert init[k] == es[k];
        }
      }
    }
  }

  /** The record fields one instruction can set. */
  datatype Field = FromField | NetField | MapField | LinkField | EntrypointField

  datatype FieldValue = Path(path: string) | Texts(texts: seq<string>) | Pairs(pairs: seq<(string, string)>)

  function Get(r: Record, f: Field): FieldValue
  {
    match f
    case FromField => Path(r.from)
    case NetField => Texts(r.net)
    case MapField => Pairs(r.maps)
    case LinkField => Texts(r.link)
    case EntrypointField => Texts(r.entrypoint)
  }

  /**
   * What an instruction writes into field f, if anything: FROM its image
   * verbatim; NET, LINK and ENTRYPOINT their exec-form elements; MAP the
   * pairs of its exec-form elements. Shell forms write nothing.
   */
  function Assigned(ins: Instruction, f: Field): Option<FieldValue>
  {
    match (ins, f)
    case (From(image), FromField) => Some(Path(image))
    case (Net(Exec(es)), NetField) => Some(Texts(es))
    case (Map(Exec(es)), MapField) => Some(Pairs(Mappings(es)))
    case (Link(Exec(es)), LinkField) => Some(Texts(es))
    case (Entrypoint(Exec(es)), EntrypointField) => Some(Texts(es))
    case _ => None
  }

  /** One instruction changes only the field it writes, and to that value. */
  lemma StepMeaning(r: Record, ins: Instruction, f: Field)
    ensures Get(Step(r, ins), f) == if Assigned(ins, f).Some? then Assigned(ins, f).value else Get(r, f)
  {
  }

  lemma {:induction false} FoldAppend(r: Record, a: seq<Instruction>, b: seq<Instruction>)
    ensures Fold(r, a + b) == Fold(Fold(r, a), b)
    decreases |a|
  {
    if a == [] {
      assert a + b == b;
    } else {
      assert (a + b)[0] == a[0] && (a + b)[1..] == a[1..] + b;
      FoldAppend(Step(r, a[0]), a[1..], b);
    }
  }

  /** Instructions that do not write f leave it alone. */
  lemma {:induction false} FoldKeeps(r: Record, b: seq<Instruction>, f: Field)
    requires forall i :: 0 <= i < |b| ==> Assigned(b[i], f).None?
    ensures Get(Fold(r, b), f) == Get(r, f)
    decreases |b|
  {
    if b != [] {
      StepMeaning(r, b[0], f);
      FoldKeeps(Step(r, b[0]), b[1..], f);
    }
  }

  /** The last instruction that writes a field decides its final value. */
  lemma LastWins(a: seq<Instruction>, ins: Instruction, b: seq<Instruction>, f: Field)
    requires Assigned(ins, f).Some?
    requires forall i :: 0 <= i < |b| ==> Assigned(b[i], f).None?
    ensures Get(Fold(Empty, a + [ins] + b), f) == Assigned(ins, f).value
  {
    FoldAppend(Empty, a + [ins], b);
    FoldAppend(Empty, a, [ins]);
    StepMeaning(Fold(Empty, a), ins, f);
    FoldKeeps(Fold(Empty, a + [ins]), b, f);
  }

  /** A field no instruction writes keeps its empty default. */
  lemma Unwritten(instrs: seq<Instruction>, f: Field)
    requires forall i :: 0 <= i < |instrs| ==> Assigned(instrs[i], f).None?
    ensures Get(Fold(Empty, instrs), f) == Get(Empty, f)
  {
    FoldKeeps(Empty, instrs, f);
  }
}
