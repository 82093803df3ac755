/** Repairs around ONNX export (leapp/backends/onnx_export_backend.py): aliased outputs, GatherND
    indices of the wrong type, and names shared by inputs and outputs. */
module OnnxRepairs {
  import opened Ports
  import opened JsonText
  import opened Lists

  // ----- aliased outputs

  /** A node of the graph, as far as cloning asks: what it copies, if it is a clone. */
  datatype Node = Placeholder | Computed | Clone(of: nat)

  /** The node whose value this one has. */
  function Source(nodes: seq<Node>, i: nat): nat
    decreases i
  {
    if i < |nodes| && nodes[i].Clone? && nodes[i].of < i then Source(nodes, nodes[i].of) else i
  }

  lemma {:induction false} SourceStays(nodes: seq<Node>, more: seq<Node>, i: nat)
    requires i < |nodes|
    ensures Source(nodes + more, i) == Source(nodes, i)
    decreases i
  {
    if nodes[i].Clone? && nodes[i].of < i { SourceStays(nodes, more, nodes[i].of); }
  }

  /** A placeholder, or a node already seen, is replaced by a clone of its own. */
  method CloneAliasedOutputs(nodes: seq<Node>, outputs: seq<nat>) returns (all: seq<Node>, separate: seq<nat>)
    requires forall k | 0 <= k < |outputs| :: outputs[k] < |nodes|
    ensures |all| >= |nodes| && all[..|nodes|] == nodes && |separate| == |outputs|
    ensures Distinct(separate)
    ensures forall k | 0 <= k < |outputs| :: separate[k] < |all| && !all[separate[k]].Placeholder?
    ensures forall k | 0 <= k < |outputs| :: Source(all, separate[k]) == Source(nodes, outputs[k])
    ensures forall k | 0 <= k < |outputs| :: Kept(nodes, outputs, k, separate[k]) || Cloned(all, nodes, outputs, k, separate[k])
  {
    all, separate := nodes, [];
    var seen: set<nat> := {};
    for k := 0 to |outputs|
      invariant |all| >= |nodes| && all[..|nodes|] == nodes && |separate| == k
      invariant forall n: nat :: n in seen <==> n in outputs[..k] && !nodes[n].Placeholder?
      invariant forall j | 0 <= j < k :: Kept(nodes, outputs, j, separate[j]) || Cloned(all, nodes, outputs, j, separate[j])
      invariant Distinct(separate) && forall j | 0 <= j < k :: separate[j] < |all| && (separate[j] < |nodes| ==> separate[j] in seen)
    {
      var node := outputs[k];
      ghost var before := all;
      assert outputs[..k + 1] == outputs[..k] + [node];
      if nodes[node].Placeholder? || node in seen {
        all := all + [Clone(node)];
        separate := separate + [|all| - 1];
      } else {
        seen := seen + {node};
        separate := separate + [node];
      }
      assert all[..|nodes|] == before[..|nodes|];
    }
    forall k | 0 <= k < |outputs| ensures Source(all, separate[k]) == Source(nodes, outputs[k]) {
      assert Kept(nodes, outputs, k, separate[k]) || Cloned(all, nodes, outputs, k, separate[k]);
      assert nodes + all[|nodes|..] == all;
      SourceStays(nodes, all[|nodes|..], outputs[k]);
    }
  }

  /** A computed node in its first place as an output. */
  predicate Kept(nodes: seq<Node>, outputs: seq<nat>, j: nat, s: nat)
    requires j < |outputs| && outputs[j] < |nodes|
  {
    s == outputs[j] && !nodes[outputs[j]].Placeholder? && outputs[j] !in outputs[..j]
  }

  /** A placeholder, or a node that was an output before, behind a new clone. */
  predicate Cloned(all: seq<Node>, nodes: seq<Node>, outputs: seq<nat>, j: nat, s: nat)
    requires j < |outputs| && outputs[j] < |nodes|
  {
    |nodes| <= s < |all| && all[s] == Clone(outputs[j]) &&
    (nodes[outputs[j]].Placeholder? || outputs[j] in outputs[..j])
  }

  // ----- GatherND indices

  datatype Type = Int32 | Int64 | OtherType

  datatype Initializer = Initializer(name: string, dtype: Type, data: seq<int>)

  datatype Op = Op(kind: string, domain: string, inputs: seq<string>)

  function Table(initializers: seq<Initializer>): map<string, Initializer> {
    if initializers == [] then map[]
    else Table(initializers[..|initializers| - 1])[initializers[|initializers| - 1].name := initializers[|initializers| - 1]]
  }

  /** A standard GatherND whose indices are a 32-bit initializer. */
  predicate Affected(op: Op, table: map<string, Initializer>) {
    op.kind == "GatherND" && op.domain in ["", "ai.onnx"] && |op.inputs| >= 2 &&
    op.inputs[1] in table && table[op.inputs[1]].dtype == Int32
  }

  function Longer(names: set<string>, n: nat): set<string> {
    set s | s in names && |s| >= n
  }

  /** Underscores are added until the name is new. */
  method FreshName(base: string, used: set<string>) returns (name: string)
    ensures name !in used && |base| <= |name| && name[..|base|] == base
  {
    name := base;
    while name in used
      invariant |base| <= |name| && name[..|base|] == base
      decreases |Longer(used, |name|)|
    {
      FewerLonger(used, name);
      name := name + "_";
    }
  }

  lemma FewerLonger(used: set<string>, name: string)
    requires name in used
    ensures |Longer(used, |name| + 1)| < |Longer(used, |name|)|
  {
    var rest := Longer(used, |name| + 1);
    assert name in Longer(used, |name|) && name !in rest;
    FewerMembers(rest, Longer(used, |name|), name);
  }

  lemma FewerMembers(a: set<string>, b: set<string>, x: string)
    requires a <= b && x in b && x !in a
    ensures |a| < |b|
  {
    assert b == a + (b - a) && |b| == |a| + |b - a|;
    assert x in b - a;
  }

  /** Each affected node reads a new 64-bit copy of its own indices; every other input, node and
      initializer stays. */
  method FixGatherNdIndices(ops: seq<Op>, initializers: seq<Initializer>)
    returns (fixed: seq<Op>, all: seq<Initializer>)
    ensures |fixed| == |ops| && |all| >= |initializers| && all[..|initializers|] == initializers
    ensures forall i | 0 <= i < |ops| && !Affected(ops[i], Table(initializers)) :: fixed[i] == ops[i]
    ensures forall i | 0 <= i < |ops| && Affected(ops[i], Table(initializers)) ::
      exists k :: |initializers| <= k < |all| && fixed[i] == ops[i].(inputs := ops[i].inputs[1 := all[k].name]) &&
        all[k].dtype == Int64 && all[k].data == Table(initializers)[ops[i].inputs[1]].data
    ensures forall k | |initializers| <= k < |all| :: all[k].name !in Table(initializers)
    ensures forall j, k | |initializers| <= j < k < |all| :: all[j].name != all[k].name
  {
    var table := Table(initializers);
    var used := table.Keys;
    fixed, all := [], initializers;
    for i := 0 to |ops|
      invariant |fixed| == i && |all| >= |initializers| && all[..|initializers|] == initializers
      invariant table.Keys <= used
      invariant forall k | |initializers| <= k < |all| :: all[k].name in used && all[k].name !in table
      invariant forall j, k | |initializers| <= j < k < |all| :: all[j].name != all[k].name
      invariant forall j | 0 <= j < i && !Affected(ops[j], table) :: fixed[j] == ops[j]
      invariant forall j | 0 <= j < i && Affected(ops[j], table) ::
        exists k :: |initializers| <= k < |all| && Rewired(ops[j], fixed[j], all[k], table)
    {
      var op := ops[i];
      if !Affected(op, table) {
        fixed := fixed + [op];
        continue;
      }
      var indices := table[op.inputs[1]];
      var name := FreshName(indices.name + "_int64_gathernd_" + NatText(i), used);
      ghost var before := all;
      all := all + [Initializer(name, Int64, indices.data)];
      fixed := fixed + [op.(inputs := op.inputs[1 := name])];
      used := used + {name};
      assert all[..|initializers|] == before[..|initializers|];
      forall j | 0 <= j < i && Affected(ops[j], table)
        ensures exists k :: |initializers| <= k < |all| && Rewired(ops[j], fixed[j], all[k], table)
      {
        var k :| |initializers| <= k < |before| && Rewired(ops[j], fixed[j], before[k], table);
        assert all[k] == before[k];
      }
      assert Rewired(op, fixed[i], all[|all| - 1], table);
    }
  }

  predicate Rewired(op: Op, fixed: Op, copy: Initializer, table: map<string, Initializer>)
    requires Affected(op, table)
  {
    fixed == op.(inputs := op.inputs[1 := copy.name]) && copy.dtype == Int64 && copy.data == table[op.inputs[1]].data
  }

  // ----- names shared by inputs and outputs

  /** A described tensor: its name, which export uses, and its port, which edges use. */
  datatype Description = Description(name: string, port: string)

  function Names(descriptions: seq<Description>): seq<string> {
    seq(|descriptions|, i requires 0 <= i < |descriptions| => descriptions[i].name)
  }

  function NameSet(descriptions: seq<Description>): set<string> {
    set d | d in descriptions :: d.name
  }

  function Renamed(descriptions: seq<Description>, before: string, after: string): seq<Description> {
    seq(|descriptions|, i requires 0 <= i < |descriptions| =>
      if descriptions[i].name == before then descriptions[i].(name := after) else descriptions[i])
  }

  /** The descriptions with an ending added to the given names; ports stay. */
  function Ended(descriptions: seq<Description>, names: set<string>, ending: string): (r: seq<Description>)
    ensures |r| == |descriptions| && forall i | 0 <= i < |r| :: r[i].port == descriptions[i].port
  {
    seq(|descriptions|, i requires 0 <= i < |descriptions| =>
      if descriptions[i].name in names then descriptions[i].(name := descriptions[i].name + ending) else descriptions[i])
  }

  /** The order in which Python sorts names. */
  predicate Before(a: string, b: string) {
    a == "" || (b != "" && (a[0] < b[0] || (a[0] == b[0] && Before(a[1..], b[1..]))))
  }

  lemma {:induction false} BeforeIsTotal(a: string, b: string)
    ensures Before(a, b) || Before(b, a)
  {
    if a != "" && b != "" && a[0] == b[0] { BeforeIsTotal(a[1..], b[1..]); }
  }

  lemma {:induction false} BeforeTransitive(a: string, b: string, c: string)
    requires Before(a, b) && Before(b, c)
    ensures Before(a, c)
  {
    if a != "" && a[0] == b[0] == c[0] { BeforeTransitive(a[1..], b[1..], c[1..]); }
  }

  lemma {:induction false} LongerComesLater(name: string, ending: string)
    requires ending != ""
    ensures !Before(name + ending, name)
  {
    if name != "" {
      LongerComesLater(name[1..], ending);
      assert (name + ending)[1..] == name[1..] + ending;
    }
  }

  predicate Least(names: set<string>, name: string) {
    name in names && forall m | m in names :: Before(name, m)
  }

  lemma {:induction false} LeastExists(names: set<string>) returns (name: string)
    requires names != {}
    ensures Least(names, name)
    decreases |names|
  {
    name :| name in names;
    BeforeIsTotal(name, name);
    var rest := names - {name};
    assert names == rest + {name};
    if rest != {} {
      var other := LeastExists(rest);
      BeforeIsTotal(name, other);
      if Before(name, other) {
        forall m | m in rest ensures Before(name, m) { BeforeTransitive(name, other, m); }
      } else {
        name := other;
      }
    }
  }

  /** The first name in sorted order. */
  method First(names: set<string>) returns (name: string)
    requires names != {}
    ensures Least(names, name)
  {
    ghost var least := LeastExists(names);
    name :| name in names && Least(names, name);
  }

  lemma EndingsDiffer(a: string, b: string)
    ensures a + "_in" != b + "_out"
    ensures a + "_in" == b + "_in" ==> a == b
    ensures a + "_out" == b + "_out" ==> a == b
  {
    assert (a + "_in")[|a + "_in"| - 1] != (b + "_out")[|b + "_out"| - 1];
    assert (a + "_in")[..|a + "_in"| - 3] == a && (b + "_in")[..|b + "_in"| - 3] == b;
    assert (a + "_out")[..|a + "_out"| - 4] == a && (b + "_out")[..|b + "_out"| - 4] == b;
  }

  /** Neither ending makes a name out of an overlapping one that is in use already. */
  predicate Free(names: set<string>, overlaps: set<string>) {
    forall n | n in overlaps :: n + "_in" !in names && n + "_out" !in names
  }

  /** The names in use once those in `done` have been renamed. */
  predicate InUse(names: set<string>, done: set<string>, name: string) {
    (name in names && name !in done) || exists m | m in done :: name == m + "_in" || name == m + "_out"
  }

  /** In sorted order, a new name is in use exactly when it is one of the original names. */
  lemma InUseIsOriginal(names: set<string>, done: set<string>, name: string, ending: string)
    requires name !in done && (ending == "_in" || ending == "_out")
    requires forall m | m in done :: Before(m, name)
    ensures InUse(names, done, name + ending) <==> name + ending in names
  {
    forall m | m in done ensures name + ending != m + "_in" && name + ending != m + "_out" {
      EndingsDiffer(name, m);
      EndingsDiffer(m, name);
    }
    LongerComesLater(name, ending);
  }

  lemma UsedNext(names: set<string>, done: set<string>, name: string)
    requires Free(names, done) && name in names && name !in done
    ensures forall x :: InUse(names, done + {name}, x) <==>
      (InUse(names, done, x) && x != name) || x == name + "_in" || x == name + "_out"
  {
  }

  lemma OneMoreEnded(descriptions: seq<Description>, names: set<string>, done: set<string>, name: string, ending: string)
    requires NameSet(descriptions) <= names && name in names && name !in done
    requires forall m | m in done :: m + ending !in names
    ensures Renamed(Ended(descriptions, done, ending), name, name + ending) == Ended(descriptions, done + {name}, ending)
  {
    forall i | 0 <= i < |descriptions| ensures descriptions[i].name in NameSet(descriptions) {
      assert descriptions[i] in descriptions;
    }
  }

  /** Overlapping names get the endings `_in` and `_out`, in sorted order. It succeeds exactly when none
      of the new names is one of the original names. */
  method HandleDuplicateNames(inputs: seq<Description>, outputs: seq<Description>)
    returns (r: Option<(seq<Description>, seq<Description>)>)
    ensures
      var overlaps := NameSet(inputs) * NameSet(outputs);
      r == if Free(NameSet(inputs) + NameSet(outputs), overlaps)
           then Some((Ended(inputs, overlaps, "_in"), Ended(outputs, overlaps, "_out"))) else None
  {
    var names := NameSet(inputs) + NameSet(outputs);
    var overlaps := NameSet(inputs) * NameSet(outputs);
    var done: set<string> := {};
    var ins, outs := inputs, outputs;
    var used := names;
    while done != overlaps
      invariant done <= overlaps && Free(names, done)
      invariant forall x :: x in used <==> InUse(names, done, x)
      invariant forall m, n | m in done && n in overlaps - done :: Before(m, n)
      invariant ins == Ended(inputs, done, "_in") && outs == Ended(outputs, done, "_out")
      decreases overlaps - done
    {
      var name := First(overlaps - done);
      assert name in overlaps && name !in done;
      InUseIsOriginal(names, done, name, "_in");
      InUseIsOriginal(names, done, name, "_out");
      if name + "_in" in used || name + "_out" in used { return None; }
      OneMoreEnded(inputs, names, done, name, "_in");
      OneMoreEnded(outputs, names, done, name, "_out");
      ins, outs := Renamed(ins, name, name + "_in"), Renamed(outs, name, name + "_out");
      UsedNext(names, done, name);
      used := used - {name} + {name + "_in", name + "_out"};
      done := done + {name};
    }
    return Some((ins, outs));
  }

  lemma {:induction false} EndedDistinct(descriptions: seq<Description>, names: set<string>, overlaps: set<string>, ending: string)
    requires Distinct(Names(descriptions)) && NameSet(descriptions) <= names
    requires (ending == "_in" || ending == "_out") && forall n | n in overlaps :: n + ending !in names
    ensures Distinct(Names(Ended(descriptions, overlaps, ending)))
  {
    var ended := Names(Ended(descriptions, overlaps, ending));
    forall i, j | 0 <= i < j < |ended| ensures ended[i] != ended[j] {
      var a, b := Names(descriptions)[i], Names(descriptions)[j];
      assert a != b && descriptions[i] in descriptions && descriptions[j] in descriptions;
      EndingsDiffer(a, b);
    }
  }

  /** Once renaming succeeds, input and output names are unique and have none in common. */
  lemma RenamedApart(inputs: seq<Description>, outputs: seq<Description>)
    requires Distinct(Names(inputs)) && Distinct(Names(outputs))
    requires Free(NameSet(inputs) + NameSet(outputs), NameSet(inputs) * NameSet(outputs))
    ensures
      var overlaps := NameSet(inputs) * NameSet(outputs);
      var ins, outs := Ended(inputs, overlaps, "_in"), Ended(outputs, overlaps, "_out");
      Distinct(Names(ins)) && Distinct(Names(outs)) && NameSet(ins) * NameSet(outs) == {}
  {
    var names, overlaps := NameSet(inputs) + NameSet(outputs), NameSet(inputs) * NameSet(outputs);
    EndedDistinct(inputs, names, overlaps, "_in");
    EndedDistinct(outputs, names, overlaps, "_out");
    var ins, outs := Ended(inputs, overlaps, "_in"), Ended(outputs, overlaps, "_out");
    forall i, j | 0 <= i < |ins| && 0 <= j < |outs| ensures ins[i].name != outs[j].name {
      var a, b := inputs[i].name, outputs[j].name;
      assert inputs[i] in inputs && outputs[j] in outputs;
      assert a in NameSet(inputs) && b in NameSet(outputs);
      EndingsDiffer(a, b);
    }
    forall n | n in NameSet(ins) ensures n !in NameSet(outs) {
      var d :| d in ins && d.name == n;
    }
  }

  /** "a" is shared and "a_in" is shared too: renaming fails, as the sorted order takes "a" first. */
  lemma NestedNamesRefused(inputs: seq<Description>, outputs: seq<Description>)
    requires {"a", "a_in"} <= NameSet(inputs) * NameSet(outputs)
    ensures !Free(NameSet(inputs) + NameSet(outputs), NameSet(inputs) * NameSet(outputs))
  {
    assert "a" + "_in" == "a_in";
  }
}
