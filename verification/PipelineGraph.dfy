/** The exporter's view of a pipeline: completed nodes whose input descriptions remember where
    their value came from. Edges are collected into source buckets, split into forward and
    feedback edges, and written out as port-keyed dictionaries. */
module PipelineGraph {
  import opened Ports
  import opened Inference
  import opened Dataflow

  /** A producer node (by object identity) and the port its value was published under. */
  datatype Source = Source(node: nat, port: string)

  /** `id` is the identity of the description object; `name` may have been rewritten by a backend,
      a port never is. */
  datatype InputDesc<V> = InputDesc(id: nat, name: string, source: Option<Source>, ty: TensorType, value: V)
  datatype OutputDesc = OutputDesc(id: nat, name: string, port: string, ty: TensorType)

  datatype TracedNode<!V> = TracedNode(
    id: nat,
    name: string,
    index: nat,                        // completion order
    inputs: seq<InputDesc<V>>,
    outputs: seq<OutputDesc>,
    states: seq<(nat, nat)>,           // declared (input, output) description pairs
    model: seq<V> -> Returned<V>)

  predicate IsInput<V>(nodes: seq<TracedNode<V>>, w: Place) {
    w.node < |nodes| && w.port < |nodes[w.node].inputs|
  }

  predicate IsOutput<V>(nodes: seq<TracedNode<V>>, w: Place) {
    w.node < |nodes| && w.port < |nodes[w.node].outputs|
  }

  function InputKey<V>(nodes: seq<TracedNode<V>>, w: Place): string
    requires IsInput(nodes, w)
  {
    PortKey(nodes[w.node].name, nodes[w.node].inputs[w.port].name)
  }

  function OutputKey<V>(nodes: seq<TracedNode<V>>, w: Place): string
    requires IsOutput(nodes, w)
  {
    PortKey(nodes[w.node].name, nodes[w.node].outputs[w.port].name)
  }

  // ----- what the exporter keeps true of its nodes

  predicate NodesApartBy<V>(nodes: seq<TracedNode<V>>, a: nat, b: nat)
    requires a < |nodes| && b < |nodes|
  {
    nodes[a].id != nodes[b].id && nodes[a].name != nodes[b].name && nodes[a].index != nodes[b].index
  }

  predicate InputsApart<V>(nodes: seq<TracedNode<V>>, a: Place, b: Place)
    requires IsInput(nodes, a) && IsInput(nodes, b)
  {
    nodes[a.node].inputs[a.port].id != nodes[b.node].inputs[b.port].id
  }

  predicate NodeOk<V>(node: TracedNode<V>) {
    && node.name != OUT
    && '/' !in node.name
    && (forall a, b | 0 <= a < b < |node.inputs| :: node.inputs[a].name != node.inputs[b].name)
    && (forall a, b | 0 <= a < b < |node.outputs| ::
          && node.outputs[a].name != node.outputs[b].name
          && node.outputs[a].port != node.outputs[b].port
          && node.outputs[a].id != node.outputs[b].id)
    && (forall a, b | 0 <= a < b < |node.states| :: node.states[a].0 != node.states[b].0)
  }

  /** Names and ports are unique per node, identities are unique, every node has completed. */
  ghost predicate GraphOk<V>(nodes: seq<TracedNode<V>>) {
    && (forall k {:trigger NodeOk(nodes[k])} | 0 <= k < |nodes| :: NodeOk(nodes[k]) && nodes[k].index < |nodes|)
    && (forall a: nat, b: nat {:trigger NodesApartBy(nodes, a, b)} | a < b < |nodes| :: NodesApartBy(nodes, a, b))
    && (forall a, b {:trigger InputsApart(nodes, a, b)} | IsInput(nodes, a) && IsInput(nodes, b) && a != b ::
          InputsApart(nodes, a, b))
  }

  lemma SameNode<V>(nodes: seq<TracedNode<V>>, a: nat, b: nat)
    requires GraphOk(nodes) && a < |nodes| && b < |nodes|
    requires nodes[a].id == nodes[b].id || nodes[a].name == nodes[b].name || nodes[a].index == nodes[b].index
    ensures a == b && NodeOk(nodes[a])
  {
    assert NodeOk(nodes[a]);
    assert a < b ==> NodesApartBy(nodes, a, b);
    assert b < a ==> NodesApartBy(nodes, b, a);
  }

  lemma InputKeysInjective<V>(nodes: seq<TracedNode<V>>, a: Place, b: Place)
    requires GraphOk(nodes) && IsInput(nodes, a) && IsInput(nodes, b)
    requires InputKey(nodes, a) == InputKey(nodes, b)
    ensures a == b
  {
    assert NodeOk(nodes[a.node]) && NodeOk(nodes[b.node]);
    KeyInjective(nodes[a.node].name, nodes[a.node].inputs[a.port].name,
                 nodes[b.node].name, nodes[b.node].inputs[b.port].name);
    SameNode(nodes, a.node, b.node);
  }

  lemma OutputKeysInjective<V>(nodes: seq<TracedNode<V>>, a: Place, b: Place)
    requires GraphOk(nodes) && IsOutput(nodes, a) && IsOutput(nodes, b)
    requires OutputKey(nodes, a) == OutputKey(nodes, b)
    ensures a == b
  {
    assert NodeOk(nodes[a.node]) && NodeOk(nodes[b.node]);
    KeyInjective(nodes[a.node].name, nodes[a.node].outputs[a.port].name,
                 nodes[b.node].name, nodes[b.node].outputs[b.port].name);
    SameNode(nodes, a.node, b.node);
  }

  // ----- the intended wiring, read straight off the descriptions

  function OutputById(outputs: seq<OutputDesc>, id: nat, n: nat): (r: Option<nat>)
    requires n <= |outputs|
    ensures r.Some? ==> r.value < n && outputs[r.value].id == id
    ensures r.None? ==> forall o | 0 <= o < n :: outputs[o].id != id
  {
    if n == 0 then None else if outputs[n - 1].id == id then Some(n - 1) else OutputById(outputs, id, n - 1)
  }

  /** The output that the first `n` state pairs feed back into input `j`. */
  function StateOutput<V>(node: TracedNode<V>, j: nat, n: nat): (r: Option<nat>)
    requires j < |node.inputs| && n <= |node.states|
    ensures r.Some? ==> r.value < |node.outputs|
  {
    if n == 0 then None
    else
      var found := OutputById(node.outputs, node.states[n - 1].1, |node.outputs|);
      if node.states[n - 1].0 == node.inputs[j].id && found.Some? then found else StateOutput(node, j, n - 1)
  }

  function NodeById<V>(nodes: seq<TracedNode<V>>, id: nat, n: nat): (r: Option<nat>)
    requires n <= |nodes|
    ensures r.Some? ==> r.value < n && nodes[r.value].id == id
    ensures r.None? ==> forall k | 0 <= k < n :: nodes[k].id != id
  {
    if n == 0 then None else if nodes[n - 1].id == id then Some(n - 1) else NodeById(nodes, id, n - 1)
  }

  /** The first output published under `port`, searching from position `from`. */
  function OutputByPort(outputs: seq<OutputDesc>, port: string, from: nat): (r: Option<nat>)
    requires from <= |outputs|
    ensures r.Some? ==> from <= r.value < |outputs| && outputs[r.value].port == port
    ensures r.None? ==> forall o | from <= o < |outputs| :: outputs[o].port != port
    decreases |outputs| - from
  {
    if from == |outputs| then None
    else if outputs[from].port == port then Some(from)
    else OutputByPort(outputs, port, from + 1)
  }

  /** The output a received value came from; None when its node or port is not in the graph. */
  function ResolveSource<V>(nodes: seq<TracedNode<V>>, source: Option<Source>): (r: Option<Place>)
    ensures r.Some? ==> IsOutput(nodes, r.value)
  {
    match source
    case None => None
    case Some(s) =>
      match NodeById(nodes, s.node, |nodes|)
      case None => None
      case Some(k) =>
        match OutputByPort(nodes[k].outputs, s.port, 0)
        case None => None
        case Some(o) => Some(Place(k, o))
  }

  /** The place is an output of that node, published under that port. */
  predicate IsSource<V>(nodes: seq<TracedNode<V>>, w: Place, s: Source) {
    IsOutput(nodes, w) && nodes[w.node].id == s.node && nodes[w.node].outputs[w.port].port == s.port
  }

  /** A received value resolves to the output of its node and port, and to nothing else: to nothing at
      all exactly when it has no source or the graph has no such output. */
  lemma ResolvesToSource<V>(nodes: seq<TracedNode<V>>, source: Option<Source>, w: Place)
    requires GraphOk(nodes)
    ensures ResolveSource(nodes, source) == Some(w) <==> source.Some? && IsSource(nodes, w, source.value)
  {
    if source.Some? && IsSource(nodes, w, source.value) {
      var k := NodeById(nodes, source.value.node, |nodes|);
      SameNode(nodes, k.value, w.node);
      var o := OutputByPort(nodes[w.node].outputs, source.value.port, 0);
      assert nodes[w.node].outputs[o.value].port == nodes[w.node].outputs[w.port].port;
    }
  }

  /** A declared state pair wins; otherwise the input follows the value it received. */
  function Wire<V>(nodes: seq<TracedNode<V>>, w: Place): (r: Option<Place>)
    requires IsInput(nodes, w)
    ensures r.Some? ==> IsOutput(nodes, r.value)
  {
    var node := nodes[w.node];
    match StateOutput(node, w.port, |node.states|)
    case Some(o) => Some(Place(w.node, o))
    case None => ResolveSource(nodes, node.inputs[w.port].source)
  }

  predicate Claimed<V>(nodes: seq<TracedNode<V>>, w: Place)
    requires IsInput(nodes, w)
  {
    StateOutput(nodes[w.node], w.port, |nodes[w.node].states|).Some?
  }

  /** A source that completed before the consumer. */
  predicate Forward<V>(nodes: seq<TracedNode<V>>, src: Place, tgt: Place)
    requires src.node < |nodes| && tgt.node < |nodes|
  {
    nodes[src.node].index < nodes[tgt.node].index
  }

  // ----- buckets

  type BucketKey = (nat, string)
  datatype Connection = Connection(source: Place, targets: seq<Place>)
  type Buckets = map<BucketKey, Connection>

  function KeyOf<V>(nodes: seq<TracedNode<V>>, src: Place): BucketKey
    requires IsOutput(nodes, src)
  {
    (src.node, nodes[src.node].outputs[src.port].port)
  }

  /** The bucket table holds an edge from `src` to `tgt`. */
  predicate Edge<V>(nodes: seq<TracedNode<V>>, m: Buckets, src: Place, tgt: Place) {
    IsOutput(nodes, src) && KeyOf(nodes, src) in m && tgt in m[KeyOf(nodes, src)].targets
  }

  predicate BucketOk<V>(nodes: seq<TracedNode<V>>, m: Buckets, key: BucketKey)
    requires key in m
  {
    && IsOutput(nodes, m[key].source)
    && KeyOf(nodes, m[key].source) == key
    && m[key].targets != []
    && (forall t | t in m[key].targets :: IsInput(nodes, t))
    && (forall a, b | 0 <= a < b < |m[key].targets| :: m[key].targets[a] != m[key].targets[b])
  }

  ghost predicate BucketsOk<V>(nodes: seq<TracedNode<V>>, m: Buckets) {
    forall key {:trigger BucketOk(nodes, m, key)} | key in m :: BucketOk(nodes, m, key)
  }

  /** `setdefault(key, bucket)` then append. */
  function AddEdge<V>(nodes: seq<TracedNode<V>>, m: Buckets, src: Place, tgt: Place): Buckets
    requires IsOutput(nodes, src)
  {
    var key := KeyOf(nodes, src);
    var bucket := if key in m then m[key] else Connection(src, []);
    m[key := bucket.(targets := bucket.targets + [tgt])]
  }

  lemma AddEdgeAdds<V>(nodes: seq<TracedNode<V>>, m: Buckets, src: Place, tgt: Place)
    requires GraphOk(nodes) && BucketsOk(nodes, m)
    requires IsOutput(nodes, src) && IsInput(nodes, tgt) && !Edge(nodes, m, src, tgt)
    ensures BucketsOk(nodes, AddEdge(nodes, m, src, tgt))
    ensures forall s, t ::
      Edge(nodes, AddEdge(nodes, m, src, tgt), s, t) <==> Edge(nodes, m, s, t) || (s == src && t == tgt)
  {
    var next := AddEdge(nodes, m, src, tgt);
    var key := KeyOf(nodes, src);
    assert NodeOk(nodes[src.node]);
    forall k | k in next ensures BucketOk(nodes, next, k) {
      if k in m { assert BucketOk(nodes, m, k); }
    }
    forall s | IsOutput(nodes, s) && KeyOf(nodes, s) == key ensures s == src {
      assert nodes[src.node].outputs[s.port].port == nodes[src.node].outputs[src.port].port;
    }
  }

  // ----- pass one: declared state pairs

  function Scanned<V>(nodes: seq<TracedNode<V>>, k: nat, n: nat, w: Place): Option<nat>
    requires k <= |nodes| && (k < |nodes| ==> n <= |nodes[k].states|) && IsInput(nodes, w)
  {
    if w.node < k then StateOutput(nodes[w.node], w.port, |nodes[w.node].states|)
    else if w.node == k then StateOutput(nodes[k], w.port, n)
    else None
  }

  ghost predicate StateEdges<V>(nodes: seq<TracedNode<V>>, m: Buckets, k: nat, n: nat)
    requires k <= |nodes| && (k < |nodes| ==> n <= |nodes[k].states|)
  {
    forall s, t {:trigger Edge(nodes, m, s, t)} ::
      Edge(nodes, m, s, t) <==> IsInput(nodes, t) && s.node == t.node && Scanned(nodes, k, n, t) == Some(s.port)
  }

  ghost predicate ClaimsUpTo<V>(nodes: seq<TracedNode<V>>, claimed: set<nat>, k: nat, n: nat)
    requires k <= |nodes| && (k < |nodes| ==> n <= |nodes[k].states|)
  {
    forall w {:trigger Scanned(nodes, k, n, w)} | IsInput(nodes, w) ::
      nodes[w.node].inputs[w.port].id in claimed <==> Scanned(nodes, k, n, w).Some?
  }

  function InputById<V>(inputs: seq<InputDesc<V>>, id: nat, n: nat): (r: Option<nat>)
    requires n <= |inputs|
    ensures r.Some? ==> r.value < n && inputs[r.value].id == id
    ensures r.None? ==> forall j | 0 <= j < n :: inputs[j].id != id
  {
    if n == 0 then None else if inputs[n - 1].id == id then Some(n - 1) else InputById(inputs, id, n - 1)
  }

  /** A pair whose input no earlier pair names leaves every other input's scan as it was. */
  lemma ScanOneMore<V>(nodes: seq<TracedNode<V>>, k: nat, n: nat, w: Place)
    requires GraphOk(nodes) && k < |nodes| && n < |nodes[k].states| && IsInput(nodes, w)
    ensures var pair := nodes[k].states[n];
      var found := OutputById(nodes[k].outputs, pair.1, |nodes[k].outputs|);
      if w.node == k && nodes[k].inputs[w.port].id == pair.0 && found.Some?
      then Scanned(nodes, k, n + 1, w) == found && Scanned(nodes, k, n, w).None?
      else Scanned(nodes, k, n + 1, w) == Scanned(nodes, k, n, w)
  {
    if w.node == k && nodes[k].inputs[w.port].id == nodes[k].states[n].0 {
      assert NodeOk(nodes[k]);
      EarlierPairsDiffer(nodes[k], w.port, n, n);
    }
  }

  lemma {:induction false} EarlierPairsDiffer<V>(node: TracedNode<V>, j: nat, n: nat, m: nat)
    requires NodeOk(node) && m <= n < |node.states| && j < |node.inputs|
    requires node.states[n].0 == node.inputs[j].id
    ensures StateOutput(node, j, m).None?
  {
    if m > 0 { EarlierPairsDiffer(node, j, n, m - 1); }
  }

  method BuildStateConnections<V>(nodes: seq<TracedNode<V>>) returns (claimed: set<nat>, feedback: Buckets)
    requires GraphOk(nodes)
    ensures ClaimsUpTo(nodes, claimed, |nodes|, 0)
    ensures BucketsOk(nodes, feedback) && StateEdges(nodes, feedback, |nodes|, 0)
  {
    claimed, feedback := {}, map[];
    for k := 0 to |nodes|
      invariant ClaimsUpTo(nodes, claimed, k, 0)
      invariant BucketsOk(nodes, feedback) && StateEdges(nodes, feedback, k, 0)
    {
      var node := nodes[k];
      for n := 0 to |node.states|
        invariant ClaimsUpTo(nodes, claimed, k, n)
        invariant BucketsOk(nodes, feedback) && StateEdges(nodes, feedback, k, n)
      {
        var inIdx := InputById(node.inputs, node.states[n].0, |node.inputs|);
        var outIdx := OutputById(node.outputs, node.states[n].1, |node.outputs|);
        ghost var claimed0, feedback0 := claimed, feedback;
        forall w | IsInput(nodes, w) ensures PairEffect(nodes, k, n, w) { ScanOneMore(nodes, k, n, w); }
        if inIdx.Some? && outIdx.Some? {
          var src, tgt := Place(k, outIdx.value), Place(k, inIdx.value);
          assert PairEffect(nodes, k, n, tgt);
          AddEdgeAdds(nodes, feedback, src, tgt);
          claimed := claimed + {node.states[n].0};
          feedback := AddEdge(nodes, feedback, src, tgt);
          forall w | IsInput(nodes, w) && nodes[w.node].inputs[w.port].id == node.states[n].0 ensures w == tgt {
            assert w != tgt ==> InputsApart(nodes, w, tgt);
          }
        }
        PairApplied(nodes, k, n, claimed0, feedback0, claimed, feedback);
      }
      NextNode(nodes, claimed, feedback, k);
    }
  }

  ghost predicate PairEffect<V>(nodes: seq<TracedNode<V>>, k: nat, n: nat, w: Place)
    requires k < |nodes| && n < |nodes[k].states| && IsInput(nodes, w)
  {
    var pair := nodes[k].states[n];
    var found := OutputById(nodes[k].outputs, pair.1, |nodes[k].outputs|);
    if w.node == k && nodes[k].inputs[w.port].id == pair.0 && found.Some?
    then Scanned(nodes, k, n + 1, w) == found && Scanned(nodes, k, n, w).None?
    else Scanned(nodes, k, n + 1, w) == Scanned(nodes, k, n, w)
  }

  lemma NextNode<V>(nodes: seq<TracedNode<V>>, claimed: set<nat>, m: Buckets, k: nat)
    requires k < |nodes| && ClaimsUpTo(nodes, claimed, k, |nodes[k].states|) && StateEdges(nodes, m, k, |nodes[k].states|)
    ensures ClaimsUpTo(nodes, claimed, k + 1, 0) && StateEdges(nodes, m, k + 1, 0)
  {
    forall w | IsInput(nodes, w)
      ensures Scanned(nodes, k, |nodes[k].states|, w) == Scanned(nodes, k + 1, 0, w)
    {
    }
  }

  lemma PairApplied<V>(
    nodes: seq<TracedNode<V>>, k: nat, n: nat,
    claimed0: set<nat>, feedback0: Buckets, claimed: set<nat>, feedback: Buckets)
    requires GraphOk(nodes) && k < |nodes| && n < |nodes[k].states|
    requires ClaimsUpTo(nodes, claimed0, k, n) && StateEdges(nodes, feedback0, k, n)
    requires forall w | IsInput(nodes, w) :: PairEffect(nodes, k, n, w)
    requires
      var pair := nodes[k].states[n];
      var inIdx := InputById(nodes[k].inputs, pair.0, |nodes[k].inputs|);
      var outIdx := OutputById(nodes[k].outputs, pair.1, |nodes[k].outputs|);
      if inIdx.Some? && outIdx.Some? then
        && claimed == claimed0 + {pair.0}
        && (forall w | IsInput(nodes, w) && nodes[w.node].inputs[w.port].id == pair.0 :: w == Place(k, inIdx.value))
        && (forall s, t {:trigger Edge(nodes, feedback, s, t)} :: Edge(nodes, feedback, s, t) <==>
              Edge(nodes, feedback0, s, t) || (s == Place(k, outIdx.value) && t == Place(k, inIdx.value)))
      else claimed == claimed0 && feedback == feedback0
    ensures ClaimsUpTo(nodes, claimed, k, n + 1) && StateEdges(nodes, feedback, k, n + 1)
  {
    forall w | IsInput(nodes, w)
      ensures nodes[w.node].inputs[w.port].id in claimed <==> Scanned(nodes, k, n + 1, w).Some?
    {
      assert PairEffect(nodes, k, n, w);
    }
    forall s, t
      ensures Edge(nodes, feedback, s, t) <==>
        IsInput(nodes, t) && s.node == t.node && Scanned(nodes, k, n + 1, t) == Some(s.port)
    {
      assert Edge(nodes, feedback0, s, t) <==>
        IsInput(nodes, t) && s.node == t.node && Scanned(nodes, k, n, t) == Some(s.port);
      if IsInput(nodes, t) { assert PairEffect(nodes, k, n, t); }
    }
  }

  // ----- pass two: received values

  predicate Before(k: nat, j: nat, w: Place) {
    w.node < k || (w.node == k && w.port < j)
  }

  /** Inputs the second pass has wired, on the given side of the forward/feedback split. */
  predicate Received<V>(nodes: seq<TracedNode<V>>, k: nat, j: nat, forward: bool, s: Place, t: Place) {
    && IsInput(nodes, t) && Before(k, j, t) && !Claimed(nodes, t)
    && Wire(nodes, t) == Some(s) && Forward(nodes, s, t) == forward
  }

  ghost predicate ForwardEdges<V>(nodes: seq<TracedNode<V>>, m: Buckets, k: nat, j: nat) {
    forall s, t {:trigger Edge(nodes, m, s, t)} :: Edge(nodes, m, s, t) <==> Received(nodes, k, j, true, s, t)
  }

  predicate StateEdge<V>(nodes: seq<TracedNode<V>>, s: Place, t: Place) {
    IsInput(nodes, t) && Claimed(nodes, t) && Wire(nodes, t) == Some(s)
  }

  ghost predicate FeedbackEdges<V>(nodes: seq<TracedNode<V>>, m: Buckets, k: nat, j: nat) {
    forall s, t {:trigger Edge(nodes, m, s, t)} ::
      Edge(nodes, m, s, t) <==> StateEdge(nodes, s, t) || Received(nodes, k, j, false, s, t)
  }

  /** Two unclaimed inputs of the node received the same port of the same producer. */
  predicate HasDuplicateSource<V>(nodes: seq<TracedNode<V>>, k: nat)
    requires k < |nodes|
  {
    exists a, b :: 0 <= a < b < |nodes[k].inputs|
      && !Claimed(nodes, Place(k, a)) && !Claimed(nodes, Place(k, b))
      && nodes[k].inputs[a].source.Some? && nodes[k].inputs[a].source == nodes[k].inputs[b].source
  }

  datatype BuildResult = Built(forward: Buckets, feedback: Buckets) | DuplicateSource(node: nat)

  lemma ReceivedOneMore<V>(nodes: seq<TracedNode<V>>, k: nat, j: nat, m: Buckets, next: Buckets, forward: bool)
    requires k < |nodes| && j < |nodes[k].inputs|
    requires
      var w := Place(k, j);
      if !Claimed(nodes, w) && Wire(nodes, w).Some? && Forward(nodes, Wire(nodes, w).value, w) == forward
      then forall s, t {:trigger Edge(nodes, next, s, t)} ::
          Edge(nodes, next, s, t) <==> Edge(nodes, m, s, t) || (s == Wire(nodes, w).value && t == w)
      else next == m
    ensures forward && ForwardEdges(nodes, m, k, j) ==> ForwardEdges(nodes, next, k, j + 1)
    ensures !forward && FeedbackEdges(nodes, m, k, j) ==> FeedbackEdges(nodes, next, k, j + 1)
  {
    forall s, t
      ensures Received(nodes, k, j + 1, forward, s, t) <==>
        Received(nodes, k, j, forward, s, t) || (t == Place(k, j) && Received(nodes, k, j + 1, forward, s, t))
    {
    }
    if forward && ForwardEdges(nodes, m, k, j) {
      forall s, t ensures Edge(nodes, next, s, t) <==> Received(nodes, k, j + 1, true, s, t) {
        assert Edge(nodes, m, s, t) <==> Received(nodes, k, j, true, s, t);
      }
    }
    if !forward && FeedbackEdges(nodes, m, k, j) {
      forall s, t
        ensures Edge(nodes, next, s, t) <==> StateEdge(nodes, s, t) || Received(nodes, k, j + 1, false, s, t)
      {
        assert Edge(nodes, m, s, t) <==> StateEdge(nodes, s, t) || Received(nodes, k, j, false, s, t);
      }
    }
  }

  method BuildConnections<V>(nodes: seq<TracedNode<V>>) returns (r: BuildResult)
    requires GraphOk(nodes)
    ensures r.Built? <==> forall k | 0 <= k < |nodes| :: !HasDuplicateSource(nodes, k)
    ensures r.Built? ==> BucketsOk(nodes, r.forward) && BucketsOk(nodes, r.feedback)
    ensures r.Built? ==> forall s, t {:trigger Edge(nodes, r.forward, s, t)} ::
      Edge(nodes, r.forward, s, t) <==> IsInput(nodes, t) && Wire(nodes, t) == Some(s) && Forward(nodes, s, t)
    ensures r.Built? ==> forall s, t {:trigger Edge(nodes, r.feedback, s, t)} ::
      Edge(nodes, r.feedback, s, t) <==> IsInput(nodes, t) && Wire(nodes, t) == Some(s) && !Forward(nodes, s, t)
  {
    var claimed, feedback := BuildStateConnections(nodes);
    var connections: Buckets := map[];
    StateEdgesAreStart(nodes, claimed, feedback);
    for k := 0 to |nodes|
      invariant forall i | 0 <= i < k :: !HasDuplicateSource(nodes, i)
      invariant BucketsOk(nodes, connections) && ForwardEdges(nodes, connections, k, 0)
      invariant BucketsOk(nodes, feedback) && FeedbackEdges(nodes, feedback, k, 0)
    {
      if HasDuplicateSource(nodes, k) { return DuplicateSource(k); }
      for j := 0 to |nodes[k].inputs|
        invariant BucketsOk(nodes, connections) && ForwardEdges(nodes, connections, k, j)
        invariant BucketsOk(nodes, feedback) && FeedbackEdges(nodes, feedback, k, j)
      {
        var w := Place(k, j);
        ghost var forward0, feedback0 := connections, feedback;
        assert nodes[k].inputs[j].id in claimed <==> Claimed(nodes, w) by {
          assert nodes[k].inputs[j].id in claimed <==> Scanned(nodes, |nodes|, 0, w).Some?;
        }
        if nodes[k].inputs[j].id !in claimed {
          var src := ResolveSource(nodes, nodes[k].inputs[j].source);
          if src.Some? {
            if Forward(nodes, src.value, w) {
              AddEdgeAdds(nodes, connections, src.value, w);
              connections := AddEdge(nodes, connections, src.value, w);
            } else {
              AddEdgeAdds(nodes, feedback, src.value, w);
              feedback := AddEdge(nodes, feedback, src.value, w);
            }
          }
        }
        ReceivedOneMore(nodes, k, j, forward0, connections, true);
        ReceivedOneMore(nodes, k, j, feedback0, feedback, false);
      }
      NextNodeReceived(nodes, connections, feedback, k);
    }
    r := Built(connections, feedback);
    WiredAll(nodes, connections, feedback);
  }

  lemma StateEdgesAreStart<V>(nodes: seq<TracedNode<V>>, claimed: set<nat>, feedback: Buckets)
    requires ClaimsUpTo(nodes, claimed, |nodes|, 0) && StateEdges(nodes, feedback, |nodes|, 0)
    ensures ForwardEdges(nodes, map[], 0, 0) && FeedbackEdges(nodes, feedback, 0, 0)
  {
    forall s, t ensures Edge(nodes, feedback, s, t) <==> StateEdge(nodes, s, t) || Received(nodes, 0, 0, false, s, t) {
      assert Edge(nodes, feedback, s, t) <==>
        IsInput(nodes, t) && s.node == t.node && Scanned(nodes, |nodes|, 0, t) == Some(s.port);
    }
  }

  lemma NextNodeReceived<V>(nodes: seq<TracedNode<V>>, connections: Buckets, feedback: Buckets, k: nat)
    requires k < |nodes|
    requires ForwardEdges(nodes, connections, k, |nodes[k].inputs|) && FeedbackEdges(nodes, feedback, k, |nodes[k].inputs|)
    ensures ForwardEdges(nodes, connections, k + 1, 0) && FeedbackEdges(nodes, feedback, k + 1, 0)
  {
    forall f: bool, s, t
      ensures Received(nodes, k, |nodes[k].inputs|, f, s, t) <==> Received(nodes, k + 1, 0, f, s, t)
    {
    }
    forall s, t ensures Edge(nodes, connections, s, t) <==> Received(nodes, k + 1, 0, true, s, t) {
      assert Edge(nodes, connections, s, t) <==> Received(nodes, k, |nodes[k].inputs|, true, s, t);
    }
    forall s, t
      ensures Edge(nodes, feedback, s, t) <==> StateEdge(nodes, s, t) || Received(nodes, k + 1, 0, false, s, t)
    {
      assert Edge(nodes, feedback, s, t) <==>
        StateEdge(nodes, s, t) || Received(nodes, k, |nodes[k].inputs|, false, s, t);
    }
  }

  /** A state edge stays within its node, so it is never forward; everything else is split by order. */
  lemma WiredAll<V>(nodes: seq<TracedNode<V>>, connections: Buckets, feedback: Buckets)
    requires ForwardEdges(nodes, connections, |nodes|, 0) && FeedbackEdges(nodes, feedback, |nodes|, 0)
    ensures forall s, t {:trigger Edge(nodes, connections, s, t)} ::
      Edge(nodes, connections, s, t) <==> IsInput(nodes, t) && Wire(nodes, t) == Some(s) && Forward(nodes, s, t)
    ensures forall s, t {:trigger Edge(nodes, feedback, s, t)} ::
      Edge(nodes, feedback, s, t) <==> IsInput(nodes, t) && Wire(nodes, t) == Some(s) && !Forward(nodes, s, t)
  {
    forall s, t
      ensures Edge(nodes, connections, s, t) <==> IsInput(nodes, t) && Wire(nodes, t) == Some(s) && Forward(nodes, s, t)
    {
      assert Edge(nodes, connections, s, t) <==> Received(nodes, |nodes|, 0, true, s, t);
    }
    forall s, t
      ensures Edge(nodes, feedback, s, t) <==> IsInput(nodes, t) && Wire(nodes, t) == Some(s) && !Forward(nodes, s, t)
    {
      assert Edge(nodes, feedback, s, t) <==> StateEdge(nodes, s, t) || Received(nodes, |nodes|, 0, false, s, t);
    }
  }
}
