/** Exporting a graph of completed nodes: the description says everything the graph wired, and
    nothing else. */
module EndToEnd {
  import opened Lists
  import opened Ports
  import opened Inference
  import opened Dataflow
  import opened InferenceRuntime
  import opened PipelineGraph
  import opened PipelineExport

  // ----- what an exported description says

  ghost predicate TargetListed<V>(nodes: seq<TracedNode<V>>, p: Pipeline<V>, s: Place, text: string)
    requires IsOutput(nodes, s)
  {
    text in Merged(p, OutputKey(nodes, s)) <==> IsTargetOf(nodes, s, text)
  }

  /** An output is a flow source exactly when something consumes it, and its merged targets are its
      consumers, each listed once. */
  ghost predicate DescribesEdges<V>(nodes: seq<TracedNode<V>>, p: Pipeline<V>, s: Place)
    requires IsOutput(nodes, s)
  {
    && (OutputKey(nodes, s) in p.dataFlow.Keys + p.feedbackFlow.Keys <==> Consumed(nodes, s))
    && (forall text {:trigger TargetListed(nodes, p, s, text)} :: TargetListed(nodes, p, s, text))
    && Distinct(Merged(p, OutputKey(nodes, s)))
  }

  /** Everything the description says about one output. */
  ghost predicate DescribesOutput<V>(nodes: seq<TracedNode<V>>, p: Pipeline<V>, s: Place)
    requires IsOutput(nodes, s)
  {
    && DescribesEdges(nodes, p, s)
    && OutputCountOf(p, (nodes[s.node].name, nodes[s.node].outputs[s.port].name)) == (if Consumed(nodes, s) then 0 else 1)
  }

  ghost predicate IsTargetOf<V>(nodes: seq<TracedNode<V>>, s: Place, text: string) {
    exists t :: IsInput(nodes, t) && Wire(nodes, t) == Some(s) && text == InputKey(nodes, t)
  }

  ghost predicate DescribesInput<V>(nodes: seq<TracedNode<V>>, p: Pipeline<V>, t: Place)
    requires IsInput(nodes, t)
  {
    var key := InputKey(nodes, t);
    && Count(FlowOf(p.inputs, nodes[t.node].name), nodes[t.node].inputs[t.port].name)
        == (if Wire(nodes, t).None? then 1 else 0)
    && (key in p.initialValues <==> FeedbackInput(nodes, t))
    && (FeedbackInput(nodes, t) ==> p.initialValues[key] == nodes[t.node].inputs[t.port].value)
  }

  ghost predicate TypesAgree<V>(nodes: seq<TracedNode<V>>) {
    forall t {:trigger Wire(nodes, t)} | IsInput(nodes, t) && Wire(nodes, t).Some? ::
      var s := Wire(nodes, t).value;
      nodes[s.node].outputs[s.port].ty == nodes[t.node].inputs[t.port].ty
  }

  ghost predicate Describes<V>(nodes: seq<TracedNode<V>>, p: Pipeline<V>) {
    && (forall s {:trigger DescribesOutput(nodes, p, s)} | IsOutput(nodes, s) :: DescribesOutput(nodes, p, s))
    && (forall t {:trigger DescribesInput(nodes, p, t)} | IsInput(nodes, t) :: DescribesInput(nodes, p, t))
    && (forall key {:trigger IsOutputKey(nodes, key)} | key in p.dataFlow.Keys + p.feedbackFlow.Keys :: IsOutputKey(nodes, key))
    && (forall key {:trigger IsInputKey(nodes, key)} | key in p.initialValues :: IsInputKey(nodes, key))
    && (forall n | n in p.outputs :: p.outputs[n] != [])
    && (forall n, o {:trigger ListedOutput(nodes, n, o)} | n in p.outputs && o in p.outputs[n] :: ListedOutput(nodes, n, o))
  }

  ghost predicate IsOutputKey<V>(nodes: seq<TracedNode<V>>, key: string) {
    exists s :: IsOutput(nodes, s) && key == OutputKey(nodes, s)
  }

  ghost predicate IsInputKey<V>(nodes: seq<TracedNode<V>>, key: string) {
    exists t :: IsInput(nodes, t) && key == InputKey(nodes, t)
  }

  ghost predicate ListedOutput<V>(nodes: seq<TracedNode<V>>, n: string, o: string) {
    exists s :: IsOutput(nodes, s) && nodes[s.node].name == n && nodes[s.node].outputs[s.port].name == o
  }

  // ----- the description describes

  lemma FlowTargets<V>(
    nodes: seq<TracedNode<V>>, m: Buckets, flow: map<string, seq<string>>, s: Place, text: string)
    requires GraphOk(nodes) && BucketsOk(nodes, m) && Emitted(nodes, m, flow) && IsOutput(nodes, s)
    ensures text in FlowOf(flow, OutputKey(nodes, s)) <==>
      exists t :: IsInput(nodes, t) && Edge(nodes, m, s, t) && text == InputKey(nodes, t)
  {
    assert EmittedAt(nodes, m, flow, s);
    var key := KeyOf(nodes, s);
    if key in m {
      var targets := m[key].targets;
      var list := TargetStrings(nodes, targets);
      if text in list {
        var i :| 0 <= i < |list| && list[i] == text;
        assert targets[i] in targets;
      }
      if t :| IsInput(nodes, t) && Edge(nodes, m, s, t) && text == InputKey(nodes, t) {
        var i :| 0 <= i < |targets| && targets[i] == t;
        assert list[i] == text;
      }
    }
  }

  lemma FlowDistinct<V>(nodes: seq<TracedNode<V>>, m: Buckets, flow: map<string, seq<string>>, s: Place)
    requires GraphOk(nodes) && BucketsOk(nodes, m) && Emitted(nodes, m, flow) && IsOutput(nodes, s)
    ensures Distinct(FlowOf(flow, OutputKey(nodes, s)))
  {
    assert EmittedAt(nodes, m, flow, s);
    var key := KeyOf(nodes, s);
    if key in m {
      var targets := m[key].targets;
      forall a, b | 0 <= a < b < |targets| ensures InputKey(nodes, targets[a]) != InputKey(nodes, targets[b]) {
        if InputKey(nodes, targets[a]) == InputKey(nodes, targets[b]) {
          InputKeysInjective(nodes, targets[a], targets[b]);
        }
      }
    }
  }

  lemma MergedTargets<V>(
    nodes: seq<TracedNode<V>>, forward: Buckets, feedback: Buckets, p: Pipeline<V>, s: Place, text: string)
    requires GraphOk(nodes) && Wired(nodes, forward, feedback) && IsOutput(nodes, s)
    requires Emitted(nodes, forward, p.dataFlow) && Emitted(nodes, feedback, p.feedbackFlow)
    ensures TargetListed(nodes, p, s, text)
    ensures text in FlowOf(p.dataFlow, OutputKey(nodes, s)) ==> text !in FlowOf(p.feedbackFlow, OutputKey(nodes, s))
  {
    FlowTargets(nodes, forward, p.dataFlow, s, text);
    FlowTargets(nodes, feedback, p.feedbackFlow, s, text);
    if IsTargetOf(nodes, s, text) {
      var t :| IsInput(nodes, t) && Wire(nodes, t) == Some(s) && text == InputKey(nodes, t);
      assert Edge(nodes, if Forward(nodes, s, t) then forward else feedback, s, t);
      forall u | IsInput(nodes, u) && text == InputKey(nodes, u) ensures u == t {
        InputKeysInjective(nodes, t, u);
      }
    }
  }

  lemma EdgesDescribed<V>(
    nodes: seq<TracedNode<V>>, forward: Buckets, feedback: Buckets, p: Pipeline<V>, s: Place)
    requires GraphOk(nodes) && Wired(nodes, forward, feedback) && IsOutput(nodes, s)
    requires Emitted(nodes, forward, p.dataFlow) && Emitted(nodes, feedback, p.feedbackFlow)
    ensures DescribesEdges(nodes, p, s)
  {
    SourcesAndKeys(nodes, forward, feedback, s);
    forall text ensures TargetListed(nodes, p, s, text) {
      MergedTargets(nodes, forward, feedback, p, s, text);
    }
    var ahead, back := FlowOf(p.dataFlow, OutputKey(nodes, s)), FlowOf(p.feedbackFlow, OutputKey(nodes, s));
    FlowDistinct(nodes, forward, p.dataFlow, s);
    FlowDistinct(nodes, feedback, p.feedbackFlow, s);
    forall text | text in ahead ensures text !in back {
      MergedTargets(nodes, forward, feedback, p, s, text);
    }
    DistinctParts(ahead, back);
  }

  lemma {:induction false} CountAppend(a: seq<string>, b: seq<string>, name: string)
    ensures Count(a + b, name) == Count(a, name) + Count(b, name)
  {
    if b == [] {
      assert a + b == a;
    } else {
      assert (a + b)[..|a + b| - 1] == a + b[..|b| - 1];
      CountAppend(a, b[..|b| - 1], name);
    }
  }

  lemma {:induction false} OpenOutputsCount<V>(nodes: seq<TracedNode<V>>, k: nat, o: nat, s: Place)
    requires GraphOk(nodes) && k < |nodes| && o <= |nodes[k].outputs| && IsOutput(nodes, s)
    ensures Count(OpenOutputs(nodes, k, o), OutputKey(nodes, s)) ==
      if s.node == k && s.port < o && !Consumed(nodes, s) then 1 else 0
  {
    if o > 0 {
      OpenOutputsCount(nodes, k, o - 1, s);
      var q := Place(k, o - 1);
      CountAppend(OpenOutputs(nodes, k, o - 1), if Consumed(nodes, q) then [] else [OutputKey(nodes, q)], OutputKey(nodes, s));
      if OutputKey(nodes, q) == OutputKey(nodes, s) { OutputKeysInjective(nodes, q, s); }
      CountOne(OutputKey(nodes, q), OutputKey(nodes, s));
    }
  }

  lemma CountOne(a: string, b: string)
    ensures Count([a], b) == if a == b then 1 else 0
  {
    assert [a][..0] == [];
  }

  lemma {:induction false} GraphOutputsCount<V>(nodes: seq<TracedNode<V>>, k: nat, s: Place)
    requires GraphOk(nodes) && k <= |nodes| && IsOutput(nodes, s)
    ensures Count(GraphOutputs(nodes, k), OutputKey(nodes, s)) == if s.node < k && !Consumed(nodes, s) then 1 else 0
  {
    if k > 0 {
      GraphOutputsCount(nodes, k - 1, s);
      OpenOutputsCount(nodes, k - 1, |nodes[k - 1].outputs|, s);
      CountAppend(GraphOutputs(nodes, k - 1), OpenOutputs(nodes, k - 1, |nodes[k - 1].outputs|), OutputKey(nodes, s));
    }
  }

  lemma {:induction false} OpenInputsCount<V>(nodes: seq<TracedNode<V>>, k: nat, j: nat, t: Place)
    requires GraphOk(nodes) && k < |nodes| && j <= |nodes[k].inputs| && IsInput(nodes, t)
    ensures Count(OpenInputs(nodes, k, j), InputKey(nodes, t)) ==
      if t.node == k && t.port < j && Wire(nodes, t).None? then 1 else 0
  {
    if j > 0 {
      OpenInputsCount(nodes, k, j - 1, t);
      var q := Place(k, j - 1);
      CountAppend(OpenInputs(nodes, k, j - 1), if Wire(nodes, q).None? then [InputKey(nodes, q)] else [], InputKey(nodes, t));
      if InputKey(nodes, q) == InputKey(nodes, t) { InputKeysInjective(nodes, q, t); }
      CountOne(InputKey(nodes, q), InputKey(nodes, t));
    }
  }

  lemma {:induction false} GraphInputsCount<V>(nodes: seq<TracedNode<V>>, k: nat, t: Place)
    requires GraphOk(nodes) && k <= |nodes| && IsInput(nodes, t)
    ensures Count(GraphInputs(nodes, k), InputKey(nodes, t)) == if t.node < k && Wire(nodes, t).None? then 1 else 0
  {
    if k > 0 {
      GraphInputsCount(nodes, k - 1, t);
      OpenInputsCount(nodes, k - 1, |nodes[k - 1].inputs|, t);
      CountAppend(GraphInputs(nodes, k - 1), OpenInputs(nodes, k - 1, |nodes[k - 1].inputs|), InputKey(nodes, t));
    }
  }

  lemma {:induction false} OpenOutputsAreOutputs<V>(nodes: seq<TracedNode<V>>, k: nat, o: nat, key: string)
    requires k < |nodes| && o <= |nodes[k].outputs| && key in OpenOutputs(nodes, k, o)
    ensures exists s :: IsOutput(nodes, s) && key == OutputKey(nodes, s)
  {
    if key in OpenOutputs(nodes, k, o - 1) {
      OpenOutputsAreOutputs(nodes, k, o - 1, key);
    } else {
      assert IsOutput(nodes, Place(k, o - 1)) && key == OutputKey(nodes, Place(k, o - 1));
    }
  }

  lemma {:induction false} GraphOutputsAreOutputs<V>(nodes: seq<TracedNode<V>>, k: nat, key: string)
    requires k <= |nodes| && key in GraphOutputs(nodes, k)
    ensures exists s :: IsOutput(nodes, s) && key == OutputKey(nodes, s)
  {
    if key in GraphOutputs(nodes, k - 1) {
      GraphOutputsAreOutputs(nodes, k - 1, key);
    } else {
      OpenOutputsAreOutputs(nodes, k - 1, |nodes[k - 1].outputs|, key);
    }
  }

  ghost predicate GroupAt(keys: seq<string>, groups: map<string, seq<string>>, n: string) {
    (n in groups <==> FieldsOf(keys, n) != []) && (n in groups ==> groups[n] == FieldsOf(keys, n))
  }

  ghost predicate Grouped(keys: seq<string>, groups: map<string, seq<string>>) {
    forall n {:trigger GroupAt(keys, groups, n)} :: GroupAt(keys, groups, n)
  }

  /** A grouped dictionary lists a port under its node as often as the flat list did. */
  lemma GroupedCount(keys: seq<string>, groups: map<string, seq<string>>, node: string, port: string)
    requires '/' !in node && Grouped(keys, groups)
    ensures Count(FlowOf(groups, node), port) == Count(keys, PortKey(node, port))
  {
    assert GroupAt(keys, groups, node);
    FieldsCount(keys, node, port);
  }

  lemma GroupedListed<V>(nodes: seq<TracedNode<V>>, groups: map<string, seq<string>>, n: string, o: string)
    requires GraphOk(nodes) && n in groups && o in groups[n]
    requires Grouped(GraphOutputs(nodes, |nodes|), groups)
    ensures ListedOutput(nodes, n, o)
  {
    var keys := GraphOutputs(nodes, |nodes|);
    assert GroupAt(keys, groups, n);
    FieldsAreListed(keys, n);
    GraphOutputsAreOutputs(nodes, |nodes|, PortKey(n, o));
    var s :| IsOutput(nodes, s) && PortKey(n, o) == OutputKey(nodes, s);
    assert NodeOk(nodes[s.node]);
    KeyInjective(n, o, nodes[s.node].name, nodes[s.node].outputs[s.port].name);
  }

  datatype ExportResult<V> = Exported(pipeline: Pipeline<V>) | DuplicateInput | TypeMismatch

  /** Builds, classifies, validates and describes a graph of completed nodes. */
  method Export<V>(nodes: seq<TracedNode<V>>) returns (r: ExportResult<V>)
    requires GraphOk(nodes)
    ensures r.DuplicateInput? <==> exists k :: 0 <= k < |nodes| && HasDuplicateSource(nodes, k)
    ensures r.Exported? ==> TypesAgree(nodes) && Describes(nodes, r.pipeline)
    ensures r.TypeMismatch? ==> !TypesAgree(nodes)
  {
    var built := BuildConnections(nodes);
    if built.DuplicateSource? { return DuplicateInput; }
    var forward, feedback := built.forward, built.feedback;
    assert Wired(nodes, forward, feedback);
    var inputs, outputs := CompileGraphIo(nodes, forward, feedback);
    if !EveryEdgeTyped(nodes) {
      return TypeMismatch;
    }
    var dataFlow := FinalizeConnections(nodes, forward);
    var feedbackFlow := FinalizeConnections(nodes, feedback);
    var inputGroups := GroupPorts(inputs);
    var outputGroups := GroupPorts(outputs);
    var initial := FeedbackInitialValues(nodes, feedback, forward);
    var p := Pipeline(dataFlow, feedbackFlow, inputGroups, outputGroups, initial);
    r := Exported(p);
    assert Grouped(inputs, inputGroups) && Grouped(outputs, outputGroups);
    assert forall t {:trigger InitialAt(nodes, p, t)} | IsInput(nodes, t) :: InitialAt(nodes, p, t);
    DescriptionDescribes(nodes, forward, feedback, p);
  }

  lemma OutputDescribed<V>(nodes: seq<TracedNode<V>>, p: Pipeline<V>, s: Place)
    requires GraphOk(nodes) && IsOutput(nodes, s) && DescribesEdges(nodes, p, s)
    requires Grouped(GraphOutputs(nodes, |nodes|), p.outputs)
    ensures DescribesOutput(nodes, p, s)
  {
    assert NodeOk(nodes[s.node]);
    GraphOutputsCount(nodes, |nodes|, s);
    GroupedCount(GraphOutputs(nodes, |nodes|), p.outputs, nodes[s.node].name, nodes[s.node].outputs[s.port].name);
  }

  ghost predicate InitialAt<V>(nodes: seq<TracedNode<V>>, p: Pipeline<V>, t: Place)
    requires IsInput(nodes, t)
  {
    && (InputKey(nodes, t) in p.initialValues <==> FeedbackInput(nodes, t))
    && (FeedbackInput(nodes, t) ==> p.initialValues[InputKey(nodes, t)] == nodes[t.node].inputs[t.port].value)
  }

  lemma InputDescribed<V>(nodes: seq<TracedNode<V>>, p: Pipeline<V>, t: Place)
    requires GraphOk(nodes) && IsInput(nodes, t) && InitialAt(nodes, p, t)
    requires Grouped(GraphInputs(nodes, |nodes|), p.inputs)
    ensures DescribesInput(nodes, p, t)
  {
    assert NodeOk(nodes[t.node]);
    GraphInputsCount(nodes, |nodes|, t);
    GroupedCount(GraphInputs(nodes, |nodes|), p.inputs, nodes[t.node].name, nodes[t.node].inputs[t.port].name);
  }

  lemma DescriptionDescribes<V>(nodes: seq<TracedNode<V>>, forward: Buckets, feedback: Buckets, p: Pipeline<V>)
    requires GraphOk(nodes) && Wired(nodes, forward, feedback)
    requires Emitted(nodes, forward, p.dataFlow) && Emitted(nodes, feedback, p.feedbackFlow)
    requires Grouped(GraphInputs(nodes, |nodes|), p.inputs) && Grouped(GraphOutputs(nodes, |nodes|), p.outputs)
    requires forall t {:trigger InitialAt(nodes, p, t)} | IsInput(nodes, t) :: InitialAt(nodes, p, t)
    requires forall key | key in p.initialValues :: IsInputKey(nodes, key)
    ensures Describes(nodes, p)
  {
    forall s | IsOutput(nodes, s) ensures DescribesOutput(nodes, p, s) {
      EdgesDescribed(nodes, forward, feedback, p, s);
      OutputDescribed(nodes, p, s);
    }
    forall t | IsInput(nodes, t) ensures DescribesInput(nodes, p, t) {
      assert InitialAt(nodes, p, t);
      InputDescribed(nodes, p, t);
    }
    forall n | n in p.outputs ensures p.outputs[n] != [] {
      assert GroupAt(GraphOutputs(nodes, |nodes|), p.outputs, n);
    }
    forall n, o | n in p.outputs && o in p.outputs[n] ensures ListedOutput(nodes, n, o) {
      GroupedListed(nodes, p.outputs, n, o);
    }
    SourceKeysAreOutputs(nodes, forward, p.dataFlow);
    SourceKeysAreOutputs(nodes, feedback, p.feedbackFlow);
  }

  lemma SourceKeysAreOutputs<V>(nodes: seq<TracedNode<V>>, m: Buckets, flow: map<string, seq<string>>)
    requires BucketsOk(nodes, m) && Emitted(nodes, m, flow)
    ensures forall key {:trigger IsOutputKey(nodes, key)} | key in flow :: IsOutputKey(nodes, key)
  {
  }

  /** The compatibility check over all edges. */
  predicate EveryEdgeTyped<V>(nodes: seq<TracedNode<V>>)
    ensures EveryEdgeTyped(nodes) <==> TypesAgree(nodes)
  {
    assert (forall k: nat, j: nat | k < |nodes| && j < |nodes[k].inputs| :: EdgeTyped(nodes, Place(k, j))) <==> TypesAgree(nodes) by {
      if forall k: nat, j: nat | k < |nodes| && j < |nodes[k].inputs| :: EdgeTyped(nodes, Place(k, j)) {
        forall t | IsInput(nodes, t) && Wire(nodes, t).Some?
          ensures var s := Wire(nodes, t).value; nodes[s.node].outputs[s.port].ty == nodes[t.node].inputs[t.port].ty
        {
          assert EdgeTyped(nodes, Place(t.node, t.port));
        }
      }
      if TypesAgree(nodes) {
        forall k: nat, j: nat | k < |nodes| && j < |nodes[k].inputs| ensures EdgeTyped(nodes, Place(k, j)) {
          assert IsInput(nodes, Place(k, j));
        }
      }
    }
    forall k, j | 0 <= k < |nodes| && 0 <= j < |nodes[k].inputs| :: EdgeTyped(nodes, Place(k, j))
  }

  predicate EdgeTyped<V>(nodes: seq<TracedNode<V>>, t: Place)
    requires IsInput(nodes, t)
  {
    match Wire(nodes, t)
    case None => true
    case Some(s) => nodes[s.node].outputs[s.port].ty == nodes[t.node].inputs[t.port].ty
  }
}
