/** Writing a built graph out: graph inputs and outputs, port-keyed flow dictionaries, and the
    initial values of feedback inputs. */
module PipelineExport {
  import opened Lists
  import opened Ports
  import opened Inference
  import opened Dataflow
  import opened InferenceRuntime
  import opened PipelineGraph

  /** What building the connections establishes. */
  ghost predicate Wired<V>(nodes: seq<TracedNode<V>>, forward: Buckets, feedback: Buckets) {
    && BucketsOk(nodes, forward) && BucketsOk(nodes, feedback)
    && (forall s, t {:trigger Edge(nodes, forward, s, t)} ::
          Edge(nodes, forward, s, t) <==> IsInput(nodes, t) && Wire(nodes, t) == Some(s) && Forward(nodes, s, t))
    && (forall s, t {:trigger Edge(nodes, feedback, s, t)} ::
          Edge(nodes, feedback, s, t) <==> IsInput(nodes, t) && Wire(nodes, t) == Some(s) && !Forward(nodes, s, t))
  }

  /** Some input is fed from this output. */
  ghost predicate Consumed<V>(nodes: seq<TracedNode<V>>, src: Place) {
    exists t :: IsInput(nodes, t) && Wire(nodes, t) == Some(src)
  }

  predicate FeedbackInput<V>(nodes: seq<TracedNode<V>>, t: Place)
    requires IsInput(nodes, t)
  {
    Wire(nodes, t).Some? && !Forward(nodes, Wire(nodes, t).value, t)
  }

  // ----- port strings of the two bucket tables

  ghost function TargetKeys<V>(nodes: seq<TracedNode<V>>, m: Buckets): set<string>
    requires BucketsOk(nodes, m)
  {
    set key, t | key in m && BucketOk(nodes, m, key) && t in m[key].targets :: InputKey(nodes, t)
  }

  ghost function SourceKeys<V>(nodes: seq<TracedNode<V>>, m: Buckets): set<string>
    requires BucketsOk(nodes, m)
  {
    set key | key in m && BucketOk(nodes, m, key) :: OutputKey(nodes, m[key].source)
  }

  method TargetNames<V>(nodes: seq<TracedNode<V>>, list: seq<Place>) returns (names: set<string>)
    requires forall t | t in list :: IsInput(nodes, t)
    ensures names == set t | t in list && IsInput(nodes, t) :: InputKey(nodes, t)
  {
    names := {};
    for i := 0 to |list|
      invariant names == set t | t in list[..i] && IsInput(nodes, t) :: InputKey(nodes, t)
    {
      assert list[..i + 1] == list[..i] + [list[i]];
      names := names + {InputKey(nodes, list[i])};
    }
    assert list[..|list|] == list;
  }

  method CollectPorts<V>(nodes: seq<TracedNode<V>>, m: Buckets) returns (targets: set<string>, sources: set<string>)
    requires BucketsOk(nodes, m)
    ensures targets == TargetKeys(nodes, m) && sources == SourceKeys(nodes, m)
  {
    targets, sources := {}, {};
    var rest := m.Keys;
    while rest != {}
      invariant rest <= m.Keys
      invariant targets == set key, t | key in m.Keys - rest && BucketOk(nodes, m, key) && t in m[key].targets :: InputKey(nodes, t)
      invariant sources == set key | key in m.Keys - rest && BucketOk(nodes, m, key) :: OutputKey(nodes, m[key].source)
    {
      var key :| key in rest;
      assert BucketOk(nodes, m, key);
      var names := TargetNames(nodes, m[key].targets);
      targets := targets + names;
      sources := sources + {OutputKey(nodes, m[key].source)};
      rest := rest - {key};
    }
  }

  lemma EdgesAndKeys<V>(nodes: seq<TracedNode<V>>, forward: Buckets, feedback: Buckets, t: Place)
    requires GraphOk(nodes) && Wired(nodes, forward, feedback) && IsInput(nodes, t)
    ensures InputKey(nodes, t) in TargetKeys(nodes, forward) + TargetKeys(nodes, feedback) <==> Wire(nodes, t).Some?
  {
    if Wire(nodes, t).Some? {
      var s := Wire(nodes, t).value;
      var m := if Forward(nodes, s, t) then forward else feedback;
      assert Edge(nodes, m, s, t);
      assert BucketOk(nodes, m, KeyOf(nodes, s));
    }
    forall m: Buckets, key, u | (m == forward || m == feedback) && key in m && u in m[key].targets
      && BucketOk(nodes, m, key) && InputKey(nodes, u) == InputKey(nodes, t)
      ensures Wire(nodes, t).Some?
    {
      InputKeysInjective(nodes, u, t);
      assert Edge(nodes, m, m[key].source, t);
    }
  }

  lemma SourcesAndKeys<V>(nodes: seq<TracedNode<V>>, forward: Buckets, feedback: Buckets, s: Place)
    requires GraphOk(nodes) && Wired(nodes, forward, feedback) && IsOutput(nodes, s)
    ensures OutputKey(nodes, s) in SourceKeys(nodes, forward) + SourceKeys(nodes, feedback) <==> Consumed(nodes, s)
  {
    if Consumed(nodes, s) {
      var t :| IsInput(nodes, t) && Wire(nodes, t) == Some(s);
      var m := if Forward(nodes, s, t) then forward else feedback;
      assert Edge(nodes, m, s, t);
      assert BucketOk(nodes, m, KeyOf(nodes, s));
      BucketSource(nodes, m, s);
    }
    forall m: Buckets, key | (m == forward || m == feedback) && key in m && BucketOk(nodes, m, key)
      && OutputKey(nodes, m[key].source) == OutputKey(nodes, s)
      ensures Consumed(nodes, s)
    {
      OutputKeysInjective(nodes, m[key].source, s);
      var t := m[key].targets[0];
      assert Edge(nodes, m, s, t);
    }
  }

  /** A bucket's source is the output its key names. */
  lemma BucketSource<V>(nodes: seq<TracedNode<V>>, m: Buckets, s: Place)
    requires GraphOk(nodes) && IsOutput(nodes, s) && KeyOf(nodes, s) in m && BucketOk(nodes, m, KeyOf(nodes, s))
    ensures m[KeyOf(nodes, s)].source == s
  {
    assert NodeOk(nodes[s.node]);
    var r := m[KeyOf(nodes, s)].source;
    assert nodes[s.node].outputs[r.port].port == nodes[s.node].outputs[s.port].port;
  }

  // ----- graph inputs and outputs

  function OpenInputs<V>(nodes: seq<TracedNode<V>>, k: nat, j: nat): seq<string>
    requires k < |nodes| && j <= |nodes[k].inputs|
  {
    if j == 0 then []
    else OpenInputs(nodes, k, j - 1) +
         if Wire(nodes, Place(k, j - 1)).None? then [InputKey(nodes, Place(k, j - 1))] else []
  }

  /** Inputs no edge feeds, in node order. */
  function GraphInputs<V>(nodes: seq<TracedNode<V>>, k: nat): seq<string>
    requires k <= |nodes|
  {
    if k == 0 then [] else GraphInputs(nodes, k - 1) + OpenInputs(nodes, k - 1, |nodes[k - 1].inputs|)
  }

  ghost function OpenOutputs<V>(nodes: seq<TracedNode<V>>, k: nat, o: nat): seq<string>
    requires k < |nodes| && o <= |nodes[k].outputs|
  {
    if o == 0 then []
    else OpenOutputs(nodes, k, o - 1) +
         if Consumed(nodes, Place(k, o - 1)) then [] else [OutputKey(nodes, Place(k, o - 1))]
  }

  /** Outputs that feed nothing, in node order. */
  ghost function GraphOutputs<V>(nodes: seq<TracedNode<V>>, k: nat): seq<string>
    requires k <= |nodes|
  {
    if k == 0 then [] else GraphOutputs(nodes, k - 1) + OpenOutputs(nodes, k - 1, |nodes[k - 1].outputs|)
  }

  /** The port set tells fed inputs from open ones. */
  ghost predicate NamesFed<V>(nodes: seq<TracedNode<V>>, targets: set<string>) {
    forall t {:trigger InputKey(nodes, t)} | IsInput(nodes, t) :: InputKey(nodes, t) in targets <==> Wire(nodes, t).Some?
  }

  ghost predicate NamesConsumed<V>(nodes: seq<TracedNode<V>>, sources: set<string>) {
    forall s {:trigger OutputKey(nodes, s)} | IsOutput(nodes, s) :: OutputKey(nodes, s) in sources <==> Consumed(nodes, s)
  }

  lemma OpenInputStep<V>(nodes: seq<TracedNode<V>>, targets: set<string>, k: nat, j: nat)
    requires NamesFed(nodes, targets) && k < |nodes| && j < |nodes[k].inputs|
    ensures
      var key := InputKey(nodes, Place(k, j));
      OpenInputs(nodes, k, j + 1) == OpenInputs(nodes, k, j) + if key in targets then [] else [key]
  {
    assert IsInput(nodes, Place(k, j));
  }

  method CompileGraphInputs<V>(nodes: seq<TracedNode<V>>, targets: set<string>) returns (inputs: seq<string>)
    requires NamesFed(nodes, targets)
    ensures inputs == GraphInputs(nodes, |nodes|)
  {
    inputs := [];
    for k := 0 to |nodes|
      invariant inputs == GraphInputs(nodes, k)
    {
      var earlier := inputs;
      assert earlier == earlier + OpenInputs(nodes, k, 0);
      for j := 0 to |nodes[k].inputs|
        invariant inputs == earlier + OpenInputs(nodes, k, j)
      {
        var key := InputKey(nodes, Place(k, j));
        OpenInputStep(nodes, targets, k, j);
        if key !in targets { inputs := inputs + [key]; }
      }
    }
  }

  method CompileGraphOutputs<V>(nodes: seq<TracedNode<V>>, sources: set<string>) returns (outputs: seq<string>)
    requires NamesConsumed(nodes, sources)
    ensures outputs == GraphOutputs(nodes, |nodes|)
  {
    outputs := [];
    for k := 0 to |nodes|
      invariant outputs == GraphOutputs(nodes, k)
    {
      for o := 0 to |nodes[k].outputs|
        invariant outputs == GraphOutputs(nodes, k) + OpenOutputs(nodes, k, o)
      {
        var key := OutputKey(nodes, Place(k, o));
        if key !in sources { outputs := outputs + [key]; }
      }
    }
  }

  method CompileGraphIo<V>(nodes: seq<TracedNode<V>>, forward: Buckets, feedback: Buckets)
    returns (inputs: seq<string>, outputs: seq<string>)
    requires GraphOk(nodes) && Wired(nodes, forward, feedback)
    ensures inputs == GraphInputs(nodes, |nodes|) && outputs == GraphOutputs(nodes, |nodes|)
  {
    var forwardTargets, forwardSources := CollectPorts(nodes, forward);
    var feedbackTargets, feedbackSources := CollectPorts(nodes, feedback);
    assert NamesFed(nodes, forwardTargets + feedbackTargets) by {
      forall t | IsInput(nodes, t) { EdgesAndKeys(nodes, forward, feedback, t); }
    }
    assert NamesConsumed(nodes, forwardSources + feedbackSources) by {
      forall s | IsOutput(nodes, s) { SourcesAndKeys(nodes, forward, feedback, s); }
    }
    inputs := CompileGraphInputs(nodes, forwardTargets + feedbackTargets);
    outputs := CompileGraphOutputs(nodes, forwardSources + feedbackSources);
  }

  // ----- flow dictionaries

  function TargetStrings<V>(nodes: seq<TracedNode<V>>, targets: seq<Place>): (r: seq<string>)
    requires forall t | t in targets :: IsInput(nodes, t)
    ensures |r| == |targets| && forall i | 0 <= i < |r| :: r[i] == InputKey(nodes, targets[i])
  {
    seq(|targets|, i requires 0 <= i < |targets| => InputKey(nodes, targets[i]))
  }

  ghost predicate EmittedAt<V>(nodes: seq<TracedNode<V>>, m: Buckets, flow: map<string, seq<string>>, s: Place)
    requires BucketsOk(nodes, m) && IsOutput(nodes, s)
  {
    var key := KeyOf(nodes, s);
    && (OutputKey(nodes, s) in flow <==> key in m)
    && (key in m ==> BucketOk(nodes, m, key) && flow[OutputKey(nodes, s)] == TargetStrings(nodes, m[key].targets))
  }

  /** The dictionary has one entry per bucket, listing the bucket's targets in order. */
  ghost predicate Emitted<V>(nodes: seq<TracedNode<V>>, m: Buckets, flow: map<string, seq<string>>)
    requires BucketsOk(nodes, m)
  {
    && flow.Keys == SourceKeys(nodes, m)
    && forall s {:trigger EmittedAt(nodes, m, flow, s)} | IsOutput(nodes, s) :: EmittedAt(nodes, m, flow, s)
  }

  method FinalizeConnections<V>(nodes: seq<TracedNode<V>>, m: Buckets) returns (flow: map<string, seq<string>>)
    requires GraphOk(nodes) && BucketsOk(nodes, m)
    ensures Emitted(nodes, m, flow)
  {
    flow := map[];
    var rest := m.Keys;
    while rest != {}
      invariant rest <= m.Keys
      invariant flow.Keys == set key | key in m.Keys - rest && BucketOk(nodes, m, key) :: OutputKey(nodes, m[key].source)
      invariant forall key | key in m.Keys - rest ::
          && BucketOk(nodes, m, key) && OutputKey(nodes, m[key].source) in flow
          && flow[OutputKey(nodes, m[key].source)] == TargetStrings(nodes, m[key].targets)
    {
      var key :| key in rest;
      assert BucketOk(nodes, m, key);
      forall other | other in m.Keys - rest && OutputKey(nodes, m[other].source) == OutputKey(nodes, m[key].source)
        ensures other == key
      {
        OutputKeysInjective(nodes, m[other].source, m[key].source);
      }
      flow := flow[OutputKey(nodes, m[key].source) := TargetStrings(nodes, m[key].targets)];
      rest := rest - {key};
    }
    forall s | IsOutput(nodes, s) ensures EmittedAt(nodes, m, flow, s) {
      if KeyOf(nodes, s) in m {
        assert BucketOk(nodes, m, KeyOf(nodes, s));
        BucketSource(nodes, m, s);
      }
      if OutputKey(nodes, s) in flow {
        var key :| key in m && BucketOk(nodes, m, key) && OutputKey(nodes, m[key].source) == OutputKey(nodes, s);
        OutputKeysInjective(nodes, m[key].source, s);
      }
    }
  }

  // ----- grouping graph ports by node

  /** Python's `key.split("/", 1)`; a key without a slash stays in the first part. */
  function SplitFirst(key: string): (r: (string, string)) {
    if key == "" then ("", "")
    else if key[0] == '/' then ("", key[1..])
    else
      var rest := SplitFirst(key[1..]);
      ([key[0]] + rest.0, rest.1)
  }

  lemma {:induction false} SplitFirstPort(node: string, port: string)
    requires '/' !in node
    ensures SplitFirst(PortKey(node, port)) == (node, port)
  {
    if node == "" {
      assert PortKey(node, port)[1..] == port;
    } else {
      SplitFirstPort(node[1..], port);
      assert PortKey(node, port)[1..] == PortKey(node[1..], port);
      assert node == [node[0]] + node[1..];
    }
  }

  function FieldsOf(keys: seq<string>, node: string): seq<string> {
    if keys == [] then []
    else
      var last := keys[|keys| - 1];
      FieldsOf(keys[..|keys| - 1], node) +
      if '/' in last && SplitFirst(last).0 == node then [SplitFirst(last).1] else []
  }

  method GroupPorts(keys: seq<string>) returns (groups: map<string, seq<string>>)
    ensures forall n :: (n in groups <==> FieldsOf(keys, n) != []) && (n in groups ==> groups[n] == FieldsOf(keys, n))
  {
    groups := map[];
    for i := 0 to |keys|
      invariant forall n ::
          (n in groups <==> FieldsOf(keys[..i], n) != []) && (n in groups ==> groups[n] == FieldsOf(keys[..i], n))
    {
      assert keys[..i + 1][..i] == keys[..i];
      if '/' in keys[i] {
        var (node, field) := SplitFirst(keys[i]);
        if node !in groups { groups := groups[node := []]; }
        groups := groups[node := groups[node] + [field]];
      }
    }
    assert keys[..|keys|] == keys;
  }

  /** Grouping loses no listing: a field is listed under its node as often as its key was. */
  lemma {:induction false} FieldsCount(keys: seq<string>, node: string, port: string)
    requires '/' !in node
    ensures Count(FieldsOf(keys, node), port) == Count(keys, PortKey(node, port))
  {
    if keys != [] {
      var init, last := keys[..|keys| - 1], keys[|keys| - 1];
      FieldsCount(init, node, port);
      SplitFirstPort(node, port);
      var fields := FieldsOf(init, node);
      if '/' in last && SplitFirst(last).0 == node {
        assert (fields + [SplitFirst(last).1])[..|fields|] == fields;
        SplitFirstJoin(last);
      } else {
        assert fields + [] == fields;
        assert PortKey(node, port)[|node|] == '/';
      }
    }
  }

  lemma {:induction false} SplitFirstJoin(key: string)
    requires '/' in key
    ensures key == PortKey(SplitFirst(key).0, SplitFirst(key).1)
  {
    if key[0] == '/' {
      assert key == "/" + key[1..];
    } else {
      assert key == [key[0]] + key[1..];
      SplitFirstJoin(key[1..]);
    }
  }

  lemma {:induction false} FieldsAreListed(keys: seq<string>, node: string)
    requires FieldsOf(keys, node) != []
    ensures '/' !in node
    ensures forall f | f in FieldsOf(keys, node) :: PortKey(node, f) in keys
  {
    var init, last := keys[..|keys| - 1], keys[|keys| - 1];
    assert keys == init + [last];
    if '/' in last && SplitFirst(last).0 == node {
      SplitFirstJoin(last);
      FirstPartPlain(last);
    }
    if FieldsOf(init, node) != [] { FieldsAreListed(init, node); }
  }

  lemma {:induction false} FirstPartPlain(key: string)
    ensures '/' !in SplitFirst(key).0
  {
    if key != "" && key[0] != '/' { FirstPartPlain(key[1..]); }
  }

  // ----- initial values of feedback inputs

  method FeedbackInitialValues<V>(nodes: seq<TracedNode<V>>, feedback: Buckets, ghost forward: Buckets)
    returns (initial: map<string, V>)
    requires GraphOk(nodes) && Wired(nodes, forward, feedback)
    ensures forall t {:trigger InputKey(nodes, t)} | IsInput(nodes, t) ::
      && (InputKey(nodes, t) in initial <==> FeedbackInput(nodes, t))
      && (FeedbackInput(nodes, t) ==> initial[InputKey(nodes, t)] == nodes[t.node].inputs[t.port].value)
    ensures forall key | key in initial :: exists t :: IsInput(nodes, t) && key == InputKey(nodes, t)
  {
    initial := map[];
    var rest := feedback.Keys;
    while rest != {}
      invariant rest <= feedback.Keys
      invariant forall t {:trigger InputKey(nodes, t)} | IsInput(nodes, t) ::
          && (InputKey(nodes, t) in initial <==>
                FeedbackInput(nodes, t) && KeyOf(nodes, Wire(nodes, t).value) in feedback.Keys - rest)
          && (InputKey(nodes, t) in initial ==> initial[InputKey(nodes, t)] == nodes[t.node].inputs[t.port].value)
      invariant forall key | key in initial :: exists t :: IsInput(nodes, t) && key == InputKey(nodes, t)
    {
      var key :| key in rest;
      assert BucketOk(nodes, feedback, key);
      var list := feedback[key].targets;
      ghost var initial0 := initial;
      for i := 0 to |list|
        invariant forall t {:trigger InputKey(nodes, t)} | IsInput(nodes, t) ::
            && (InputKey(nodes, t) in initial <==> InputKey(nodes, t) in initial0 || t in list[..i])
            && (InputKey(nodes, t) in initial ==> initial[InputKey(nodes, t)] == nodes[t.node].inputs[t.port].value)
        invariant forall key | key in initial :: exists t :: IsInput(nodes, t) && key == InputKey(nodes, t)
      {
        var target := list[i];
        forall t | IsInput(nodes, t) && InputKey(nodes, t) == InputKey(nodes, target) ensures t == target {
          InputKeysInjective(nodes, t, target);
        }
        assert list[..i + 1] == list[..i] + [target];
        initial := initial[InputKey(nodes, target) := nodes[target.node].inputs[target.port].value];
      }
      assert list[..|list|] == list;
      forall t | IsInput(nodes, t)
        ensures t in list <==> FeedbackInput(nodes, t) && KeyOf(nodes, Wire(nodes, t).value) == key
      {
        BucketTargets(nodes, forward, feedback, key, t);
      }
      rest := rest - {key};
    }
    forall t | IsInput(nodes, t) && FeedbackInput(nodes, t) ensures KeyOf(nodes, Wire(nodes, t).value) in feedback {
      assert Edge(nodes, feedback, Wire(nodes, t).value, t);
    }
  }

  /** The targets of a feedback bucket are the feedback inputs wired to its source. */
  lemma BucketTargets<V>(nodes: seq<TracedNode<V>>, forward: Buckets, feedback: Buckets, key: BucketKey, t: Place)
    requires GraphOk(nodes) && Wired(nodes, forward, feedback) && key in feedback && IsInput(nodes, t)
    ensures t in feedback[key].targets <==> FeedbackInput(nodes, t) && KeyOf(nodes, Wire(nodes, t).value) == key
  {
    assert BucketOk(nodes, feedback, key);
    var source := feedback[key].source;
    assert Edge(nodes, feedback, source, t) <==> t in feedback[key].targets;
    if FeedbackInput(nodes, t) && KeyOf(nodes, Wire(nodes, t).value) == key {
      BucketSource(nodes, feedback, Wire(nodes, t).value);
      assert Edge(nodes, feedback, Wire(nodes, t).value, t);
    }
  }

  // ----- conservation of ports

  function TotalInputs<V>(nodes: seq<TracedNode<V>>, k: nat): nat
    requires k <= |nodes|
  {
    if k == 0 then 0 else TotalInputs(nodes, k - 1) + |nodes[k - 1].inputs|
  }

  /** Inputs among the first `k` nodes, and `j` of the next, that an edge feeds. */
  ghost function FedInputs<V>(nodes: seq<TracedNode<V>>, k: nat, j: nat): set<Place>
    requires k <= |nodes| && (if k < |nodes| then j <= |nodes[k].inputs| else j == 0)
    decreases k, j
  {
    if j > 0 then
      FedInputs(nodes, k, j - 1) + (if Wire(nodes, Place(k, j - 1)).Some? then {Place(k, j - 1)} else {})
    else if k > 0 then FedInputs(nodes, k - 1, |nodes[k - 1].inputs|)
    else {}
  }

  ghost predicate Fed<V>(nodes: seq<TracedNode<V>>, t: Place) {
    IsInput(nodes, t) && Wire(nodes, t).Some?
  }

  lemma {:induction false} FedInputsAre<V>(nodes: seq<TracedNode<V>>, k: nat, j: nat, t: Place)
    requires k <= |nodes| && (if k < |nodes| then j <= |nodes[k].inputs| else j == 0)
    ensures t in FedInputs(nodes, k, j) <==> Fed(nodes, t) && Before(k, j, t)
    decreases k, j
  {
    if j > 0 {
      FedInputsAre(nodes, k, j - 1, t);
    } else if k > 0 {
      FedInputsAre(nodes, k - 1, |nodes[k - 1].inputs|, t);
    }
  }

  lemma OneMoreFed<V>(nodes: seq<TracedNode<V>>, k: nat, j: nat)
    requires k < |nodes| && 0 < j <= |nodes[k].inputs|
    ensures |FedInputs(nodes, k, j)| ==
      |FedInputs(nodes, k, j - 1)| + if Wire(nodes, Place(k, j - 1)).Some? then 1 else 0
  {
    FedInputsAre(nodes, k, j - 1, Place(k, j - 1));
  }

  lemma OneMoreOpen<V>(nodes: seq<TracedNode<V>>, k: nat, j: nat)
    requires k < |nodes| && 0 < j <= |nodes[k].inputs|
    ensures |OpenInputs(nodes, k, j)| ==
      |OpenInputs(nodes, k, j - 1)| + if Wire(nodes, Place(k, j - 1)).Some? then 0 else 1
  {
  }

  lemma {:induction false} NodeFedOrOpen<V>(nodes: seq<TracedNode<V>>, k: nat, j: nat)
    requires k < |nodes| && j <= |nodes[k].inputs|
    ensures |FedInputs(nodes, k, j)| + |OpenInputs(nodes, k, j)| == |FedInputs(nodes, k, 0)| + j
  {
    if j > 0 {
      NodeFedOrOpen(nodes, k, j - 1);
      OneMoreFed(nodes, k, j);
      OneMoreOpen(nodes, k, j);
    }
  }

  lemma {:induction false} FedOrOpen<V>(nodes: seq<TracedNode<V>>, k: nat)
    requires k <= |nodes|
    ensures |FedInputs(nodes, k, 0)| + |GraphInputs(nodes, k)| == TotalInputs(nodes, k)
  {
    if k > 0 {
      FedOrOpen(nodes, k - 1);
      NodeFedOrOpen(nodes, k - 1, |nodes[k - 1].inputs|);
      NodeDone(nodes, k);
    }
  }

  lemma NodeDone<V>(nodes: seq<TracedNode<V>>, k: nat)
    requires 0 < k <= |nodes|
    ensures FedInputs(nodes, k, 0) == FedInputs(nodes, k - 1, |nodes[k - 1].inputs|)
    ensures |GraphInputs(nodes, k)| ==
      |GraphInputs(nodes, k - 1)| + |OpenInputs(nodes, k - 1, |nodes[k - 1].inputs|)|
  {
  }

  lemma OneSource<V>(nodes: seq<TracedNode<V>>, forward: Buckets, feedback: Buckets)
    requires Wired(nodes, forward, feedback)
    ensures forall s, r, t | Edge(nodes, forward, s, t) && Edge(nodes, forward, r, t) :: s == r
    ensures forall s, r, t | Edge(nodes, feedback, s, t) && Edge(nodes, feedback, r, t) :: s == r
  {
  }

  /** Counts the edges bucket by bucket. Every input is either an edge target or a graph
      input, so all edges together are as many as the inputs and the graph outputs. */
  method GraphStatistics<V>(
    nodes: seq<TracedNode<V>>, forward: Buckets, feedback: Buckets, inputs: seq<string>, outputs: seq<string>)
    returns (internal: nat, total: nat)
    requires GraphOk(nodes) && Wired(nodes, forward, feedback)
    requires inputs == GraphInputs(nodes, |nodes|)
    ensures internal + |inputs| == TotalInputs(nodes, |nodes|)
    ensures total == TotalInputs(nodes, |nodes|) + |outputs|
  {
    OneSource(nodes, forward, feedback);
    var a, seenForward := CountTargets(nodes, forward);
    var b, seenFeedback := CountTargets(nodes, feedback);
    internal := a + b;
    total := internal + |inputs| + |outputs|;
    ghost var fed := FedInputs(nodes, |nodes|, 0);
    forall t ensures t in fed <==> t in seenForward + seenFeedback {
      FedInputsAre(nodes, |nodes|, 0, t);
      SeenIsFed(nodes, forward, feedback, t);
    }
    assert seenForward !! seenFeedback;
    assert seenForward + seenFeedback == fed;
    FedOrOpen(nodes, |nodes|);
  }

  lemma SeenIsFed<V>(nodes: seq<TracedNode<V>>, forward: Buckets, feedback: Buckets, t: Place)
    requires Wired(nodes, forward, feedback)
    ensures Fed(nodes, t) <==> (exists s :: Edge(nodes, forward, s, t)) || (exists s :: Edge(nodes, feedback, s, t))
  {
    if Fed(nodes, t) {
      var s := Wire(nodes, t).value;
      assert Edge(nodes, if Forward(nodes, s, t) then forward else feedback, s, t);
    }
  }

  method CountTargets<V>(nodes: seq<TracedNode<V>>, m: Buckets) returns (count: nat, ghost seen: set<Place>)
    requires GraphOk(nodes) && BucketsOk(nodes, m)
    requires forall s, r, t | Edge(nodes, m, s, t) && Edge(nodes, m, r, t) :: s == r
    ensures count == |seen|
    ensures forall t :: t in seen <==> exists s :: Edge(nodes, m, s, t)
  {
    count, seen := 0, {};
    var rest := m.Keys;
    while rest != {}
      invariant rest <= m.Keys && count == |seen|
      invariant forall t :: t in seen <==> exists key :: key in m.Keys - rest && t in m[key].targets
    {
      var key :| key in rest;
      assert BucketOk(nodes, m, key);
      ghost var added := set t | t in m[key].targets;
      forall t, other | t in added && other in m && t in m[other].targets ensures other == key {
        assert BucketOk(nodes, m, other);
        assert Edge(nodes, m, m[key].source, t) && Edge(nodes, m, m[other].source, t);
      }
      assert added !! seen;
      DistinctSize(m[key].targets, added);
      count := count + |m[key].targets|;
      assert |seen + added| == |seen| + |added|;
      seen := seen + added;
      rest := rest - {key};
    }
    forall t | t in seen ensures exists s :: Edge(nodes, m, s, t) {
      var key :| key in m && t in m[key].targets;
      assert BucketOk(nodes, m, key);
      assert Edge(nodes, m, m[key].source, t);
    }
  }

}
