/** The exported description, loaded and replayed: the runtime computes the synchronous dataflow
    that the graph's descriptions intend. */
module PipelineReplay {
  import opened Lists
  import opened Ports
  import opened Inference
  import opened Dataflow
  import opened InferenceRuntime
  import opened PipelineGraph
  import opened PipelineExport
  import opened EndToEnd

  // ----- nodes in completion order

  function PositionOf<V>(nodes: seq<TracedNode<V>>, index: nat, n: nat): (r: Option<nat>)
    requires n <= |nodes|
    ensures r.Some? ==> r.value < n && nodes[r.value].index == index
    ensures r.None? ==> forall k | 0 <= k < n :: nodes[k].index != index
  {
    if n == 0 then None else if nodes[n - 1].index == index then Some(n - 1) else PositionOf(nodes, index, n - 1)
  }

  function Below(n: nat): (r: set<nat>)
    ensures |r| == n && forall x: nat :: x in r <==> x < n
  {
    if n == 0 then {} else Below(n - 1) + {n - 1}
  }

  lemma SubsetOfSameSize(a: set<nat>, b: set<nat>)
    requires a <= b && |a| == |b|
    ensures a == b
  {
    assert |b - a| == |b| - |a|;
  }

  /** Distinct completion indices below the node count leave no gap. */
  lemma EveryIndexTaken<V>(nodes: seq<TracedNode<V>>, k: nat)
    requires GraphOk(nodes) && k < |nodes|
    ensures PositionOf(nodes, k, |nodes|).Some?
  {
    var list := seq(|nodes|, i requires 0 <= i < |nodes| => nodes[i].index);
    var indices := set x | x in list;
    forall a: nat, b: nat | a < b < |nodes| ensures list[a] != list[b] {
      assert NodesApartBy(nodes, a, b);
    }
    DistinctSize(list, indices);
    forall x | x in indices ensures x in Below(|nodes|) {
      var i :| 0 <= i < |nodes| && list[i] == x;
      assert NodeOk(nodes[i]);
    }
    SubsetOfSameSize(indices, Below(|nodes|));
    assert k in indices;
  }

  /** The node that completed in position `k`. */
  function Position<V>(nodes: seq<TracedNode<V>>, k: nat): (r: nat)
    requires GraphOk(nodes) && k < |nodes|
    ensures r < |nodes| && nodes[r].index == k
  {
    EveryIndexTaken(nodes, k);
    PositionOf(nodes, k, |nodes|).value
  }

  function RuntimeNode<V>(node: TracedNode<V>): Node<V> {
    Node(
      node.name,
      seq(|node.inputs|, j requires 0 <= j < |node.inputs| => PortDesc(node.inputs[j].name, node.inputs[j].ty)),
      seq(|node.outputs|, o requires 0 <= o < |node.outputs| => PortDesc(node.outputs[o].name, node.outputs[o].ty)),
      node.model)
  }

  /** The models section: nodes sorted by completion index. */
  function RuntimeNodes<V>(nodes: seq<TracedNode<V>>): (r: seq<Node<V>>)
    requires GraphOk(nodes)
    ensures |r| == |nodes| && forall k | 0 <= k < |nodes| :: r[k] == RuntimeNode(nodes[Position(nodes, k)])
  {
    seq(|nodes|, k requires 0 <= k < |nodes| => RuntimeNode(nodes[Position(nodes, k)]))
  }

  /** A runtime place as a place of the graph, and back. */
  function ToGraph<V>(nodes: seq<TracedNode<V>>, w: Place): Place
    requires GraphOk(nodes) && w.node < |nodes|
  {
    Place(Position(nodes, w.node), w.port)
  }

  function ToRun<V>(nodes: seq<TracedNode<V>>, g: Place): Place
    requires g.node < |nodes|
  {
    Place(nodes[g.node].index, g.port)
  }

  lemma PlacesCorrespond<V>(nodes: seq<TracedNode<V>>, w: Place)
    requires GraphOk(nodes) && w.node < |nodes|
    ensures ToRun(nodes, ToGraph(nodes, w)) == w
    ensures InputPlace(RuntimeNodes(nodes), w) <==> IsInput(nodes, ToGraph(nodes, w))
    ensures OutputPlace(RuntimeNodes(nodes), w) <==> IsOutput(nodes, ToGraph(nodes, w))
  {
  }

  lemma GraphPlaces<V>(nodes: seq<TracedNode<V>>, g: Place)
    requires GraphOk(nodes) && g.node < |nodes|
    ensures ToRun(nodes, g).node < |nodes| && ToGraph(nodes, ToRun(nodes, g)) == g
  {
    assert NodeOk(nodes[g.node]);
    SameNode(nodes, Position(nodes, nodes[g.node].index), g.node);
  }

  // ----- the intended system

  function InputPlaces<V>(nodes: seq<Node<V>>): set<Place> {
    set k: nat, j: nat | k < |nodes| && j < |nodes[k].inputs| :: Place(k, j)
  }

  function OutputPlaces<V>(nodes: seq<Node<V>>): set<Place> {
    set k: nat, o: nat | k < |nodes| && o < |nodes[k].outputs| :: Place(k, o)
  }

  function StartValue<V>(nodes: seq<TracedNode<V>>, blank: TensorType -> V, g: Place): V
    requires IsInput(nodes, g)
  {
    if FeedbackInput(nodes, g) then nodes[g.node].inputs[g.port].value else blank(nodes[g.node].inputs[g.port].ty)
  }

  predicate IsWired<V>(nodes: seq<TracedNode<V>>, w: Place)
    requires GraphOk(nodes)
  {
    w.node < |nodes| && IsInput(nodes, ToGraph(nodes, w)) && Wire(nodes, ToGraph(nodes, w)).Some?
  }

  /** The dataflow system the descriptions intend: wires from state pairs and received values,
      results for unconsumed outputs, and feedback inputs starting from their recorded value. */
  ghost function Intended<V>(nodes: seq<TracedNode<V>>, blank: TensorType -> V): System<V>
    requires GraphOk(nodes)
  {
    var run := RuntimeNodes(nodes);
    System(
      run,
      map w | w in InputPlaces(run) && IsWired(nodes, w) :: ToRun(nodes, Wire(nodes, ToGraph(nodes, w)).value),
      set r | r in OutputPlaces(run) && r.node < |nodes| && !Consumed(nodes, ToGraph(nodes, r)),
      map w | w in InputPlaces(run) && w.node < |nodes| && IsInput(nodes, ToGraph(nodes, w)) ::
        StartValue(nodes, blank, ToGraph(nodes, w)))
  }

  lemma WireIntended<V>(nodes: seq<TracedNode<V>>, blank: TensorType -> V, w: Place)
    requires GraphOk(nodes) && InputPlace(RuntimeNodes(nodes), w)
    ensures var g := ToGraph(nodes, w);
      && IsInput(nodes, g)
      && (w in Intended(nodes, blank).wire <==> Wire(nodes, g).Some?)
      && (w in Intended(nodes, blank).wire ==>
            && Intended(nodes, blank).wire[w] == ToRun(nodes, Wire(nodes, g).value)
            && OutputPlace(RuntimeNodes(nodes), Intended(nodes, blank).wire[w]))
  {
    PlacesCorrespond(nodes, w);
    assert Place(w.node, w.port) == w;
    assert w in InputPlaces(RuntimeNodes(nodes));
    if Wire(nodes, ToGraph(nodes, w)).Some? {
      var s := Wire(nodes, ToGraph(nodes, w)).value;
      GraphPlaces(nodes, s);
      PlacesCorrespond(nodes, ToRun(nodes, s));
    }
  }

  lemma ResultIntended<V>(nodes: seq<TracedNode<V>>, blank: TensorType -> V, r: Place)
    requires GraphOk(nodes) && OutputPlace(RuntimeNodes(nodes), r)
    ensures r in Intended(nodes, blank).results <==> !Consumed(nodes, ToGraph(nodes, r))
  {
    assert Place(r.node, r.port) == r;
    assert r in OutputPlaces(RuntimeNodes(nodes));
  }

  lemma NamesIntended<V>(nodes: seq<TracedNode<V>>)
    requires GraphOk(nodes)
    ensures NamesOk(RuntimeNodes(nodes))
  {
    var run := RuntimeNodes(nodes);
    forall k | 0 <= k < |run| ensures NodeNameOk(run[k]) {
      assert NodeOk(nodes[Position(nodes, k)]);
    }
    forall a: nat, b: nat | a < b < |run| ensures NodesDiffer(run, a, b) {
      if run[a].name == run[b].name { SameNode(nodes, Position(nodes, a), Position(nodes, b)); }
    }
  }

  /** Every node answers calls of its arity. */
  ghost predicate ModelsTotal<V(!new)>(nodes: seq<TracedNode<V>>) {
    forall k {:trigger Total(RuntimeNode(nodes[k]))} | 0 <= k < |nodes| :: Total(RuntimeNode(nodes[k]))
  }

  lemma IntendedWellFormed<V(!new)>(nodes: seq<TracedNode<V>>, blank: TensorType -> V)
    requires GraphOk(nodes) && ModelsTotal(nodes)
    ensures WellFormed(Intended(nodes, blank))
  {
    var sys := Intended(nodes, blank);
    NamesIntended(nodes);
    forall k | 0 <= k < |sys.nodes| ensures Total(sys.nodes[k]) {
      assert Total(RuntimeNode(nodes[Position(nodes, k)]));
    }
    forall w | w in sys.wire ensures InputPlace(sys.nodes, w) && OutputPlace(sys.nodes, sys.wire[w]) {
      WireIntended(nodes, blank, w);
    }
    forall k: nat, j: nat | k < |sys.nodes| && j < |sys.nodes[k].inputs| ensures Place(k, j) in sys.start {
      PlacesCorrespond(nodes, Place(k, j));
      assert Place(k, j) in InputPlaces(sys.nodes);
    }
  }

  // ----- loading what was exported

  ghost predicate PlainEdge<V>(nodes: seq<TracedNode<V>>, t: Place)
    requires IsInput(nodes, t)
  {
    Wire(nodes, t).Some? ==>
      var s := Wire(nodes, t).value;
      '/' !in nodes[s.node].outputs[s.port].name && '/' !in nodes[t.node].inputs[t.port].name
  }

  /** No port name on an edge holds a slash. */
  ghost predicate PlainEdges<V>(nodes: seq<TracedNode<V>>) {
    forall t {:trigger PlainEdge(nodes, t)} | IsInput(nodes, t) :: PlainEdge(nodes, t)
  }

  lemma OutputKeyParses<V>(nodes: seq<TracedNode<V>>, s: Place)
    requires GraphOk(nodes) && IsOutput(nodes, s)
    ensures ParseKey(OutputKey(nodes, s)) ==
      if '/' in nodes[s.node].outputs[s.port].name then None
      else Some((nodes[s.node].name, nodes[s.node].outputs[s.port].name))
  {
    assert NodeOk(nodes[s.node]);
    KeyRoundTrip(nodes[s.node].name, nodes[s.node].outputs[s.port].name);
  }

  lemma InputKeyParses<V>(nodes: seq<TracedNode<V>>, t: Place)
    requires GraphOk(nodes) && IsInput(nodes, t)
    ensures ParseKey(InputKey(nodes, t)) ==
      if '/' in nodes[t.node].inputs[t.port].name then None
      else Some((nodes[t.node].name, nodes[t.node].inputs[t.port].name))
  {
    assert NodeOk(nodes[t.node]);
    KeyRoundTrip(nodes[t.node].name, nodes[t.node].inputs[t.port].name);
  }

  lemma EdgeListed<V>(nodes: seq<TracedNode<V>>, p: Pipeline<V>, t: Place)
    requires Describes(nodes, p) && IsInput(nodes, t) && Wire(nodes, t).Some?
    ensures var s := Wire(nodes, t).value;
      OutputKey(nodes, s) in p.dataFlow.Keys + p.feedbackFlow.Keys && InputKey(nodes, t) in Merged(p, OutputKey(nodes, s))
  {
    var s := Wire(nodes, t).value;
    assert DescribesOutput(nodes, p, s);
    assert TargetListed(nodes, p, s, InputKey(nodes, t));
  }

  /** The loader can split every flow key exactly when no port name on an edge holds a slash. */
  lemma FlowsParseIffPlain<V>(nodes: seq<TracedNode<V>>, p: Pipeline<V>)
    requires GraphOk(nodes) && Describes(nodes, p)
    ensures FlowsParse(p) <==> PlainEdges(nodes)
  {
    if FlowsParse(p) {
      forall t | IsInput(nodes, t) ensures PlainEdge(nodes, t) {
        if Wire(nodes, t).Some? {
          EdgeListed(nodes, p, t);
          OutputKeyParses(nodes, Wire(nodes, t).value);
          InputKeyParses(nodes, t);
        }
      }
    }
    if PlainEdges(nodes) {
      forall key | key in p.dataFlow.Keys + p.feedbackFlow.Keys
        ensures ParseKey(key).Some? && AllParse(Merged(p, key))
      {
        FlowKeyParses(nodes, p, key);
      }
    }
  }

  lemma FlowKeyParses<V>(nodes: seq<TracedNode<V>>, p: Pipeline<V>, key: string)
    requires GraphOk(nodes) && Describes(nodes, p) && PlainEdges(nodes)
    requires key in p.dataFlow.Keys + p.feedbackFlow.Keys
    ensures ParseKey(key).Some? && AllParse(Merged(p, key))
  {
    assert IsOutputKey(nodes, key);
    var s :| IsOutput(nodes, s) && key == OutputKey(nodes, s);
    assert DescribesOutput(nodes, p, s);
    var t :| IsInput(nodes, t) && Wire(nodes, t) == Some(s);
    assert PlainEdge(nodes, t);
    OutputKeyParses(nodes, s);
    forall text | text in Merged(p, key) ensures ParseKey(text).Some? {
      assert TargetListed(nodes, p, s, text);
      var u :| IsInput(nodes, u) && Wire(nodes, u) == Some(s) && text == InputKey(nodes, u);
      assert PlainEdge(nodes, u);
      InputKeyParses(nodes, u);
    }
  }

  /** The slot of a runtime input and the key of the graph input behind it. */
  lemma SlotIsInput<V>(nodes: seq<TracedNode<V>>, w: Place)
    requires GraphOk(nodes) && InputPlace(RuntimeNodes(nodes), w)
    ensures var g := ToGraph(nodes, w);
      IsInput(nodes, g) && SlotOf(RuntimeNodes(nodes), w) == (nodes[g.node].name, nodes[g.node].inputs[g.port].name)
  {
    PlacesCorrespond(nodes, w);
  }

  /** The wire of input `w` in the intended system starts at output `r` and ends in slot `t`. */
  ghost predicate Delivers<V>(sys: System<V>, r: Place, w: Place, t: Slot) {
    InputPlace(sys.nodes, w) && w in sys.wire && sys.wire[w] == r && t == SlotOf(sys.nodes, w)
  }

  /** Every target of an edge route is the slot of a graph input that is wired to that output. */
  lemma TargetInput<V>(nodes: seq<TracedNode<V>>, p: Pipeline<V>, r: Place, t: Slot) returns (u: Place)
    requires GraphOk(nodes) && Describes(nodes, p) && PlainEdges(nodes) && FlowsParse(p)
    requires OutputPlace(RuntimeNodes(nodes), r)
    requires
      var route := EdgeRoute(p, OutputPort(RuntimeNodes(nodes)[r.node], r.port));
      route.Some? && t in route.value
    ensures IsInput(nodes, u) && Wire(nodes, u) == Some(ToGraph(nodes, r))
    ensures t == (nodes[u.node].name, nodes[u.node].inputs[u.port].name)
  {
    PlacesCorrespond(nodes, r);
    var s := ToGraph(nodes, r);
    var key := OutputKey(nodes, s);
    assert DescribesOutput(nodes, p, s);
    var i :| 0 <= i < |Merged(p, key)| && ParseKey(Merged(p, key)[i]).value == t;
    assert TargetListed(nodes, p, s, Merged(p, key)[i]);
    u :| IsInput(nodes, u) && Wire(nodes, u) == Some(s) && Merged(p, key)[i] == InputKey(nodes, u);
    assert PlainEdge(nodes, u);
    InputKeyParses(nodes, u);
  }

  /** Every target of an edge route is the slot of an input wired to that output. */
  lemma TargetIsWired<V>(nodes: seq<TracedNode<V>>, p: Pipeline<V>, blank: TensorType -> V, r: Place, t: Slot)
    returns (w: Place)
    requires GraphOk(nodes) && Describes(nodes, p) && PlainEdges(nodes) && FlowsParse(p)
    requires OutputPlace(RuntimeNodes(nodes), r)
    requires
      var route := EdgeRoute(p, OutputPort(RuntimeNodes(nodes)[r.node], r.port));
      route.Some? && t in route.value
    ensures Delivers(Intended(nodes, blank), r, w, t)
  {
    var u := TargetInput(nodes, p, r, t);
    PlacesCorrespond(nodes, r);
    GraphPlaces(nodes, u);
    w := ToRun(nodes, u);
    PlacesCorrespond(nodes, w);
    WireIntended(nodes, blank, w);
  }

  /** The slot of every graph input wired to an output is a target of its edge route. */
  lemma WiredInputIsTarget<V>(nodes: seq<TracedNode<V>>, p: Pipeline<V>, r: Place, u: Place)
    requires GraphOk(nodes) && Describes(nodes, p) && PlainEdges(nodes) && FlowsParse(p)
    requires OutputPlace(RuntimeNodes(nodes), r)
    requires IsInput(nodes, u) && Wire(nodes, u) == Some(ToGraph(nodes, r))
    ensures
      var route := EdgeRoute(p, OutputPort(RuntimeNodes(nodes)[r.node], r.port));
      route.Some? && (nodes[u.node].name, nodes[u.node].inputs[u.port].name) in route.value
  {
    PlacesCorrespond(nodes, r);
    var key := OutputKey(nodes, ToGraph(nodes, r));
    assert PlainEdge(nodes, u);
    EdgeListed(nodes, p, u);
    InputKeyParses(nodes, u);
    var i :| 0 <= i < |Merged(p, key)| && Merged(p, key)[i] == InputKey(nodes, u);
    assert Parsed(Merged(p, key))[i] == (nodes[u.node].name, nodes[u.node].inputs[u.port].name);
  }

  /** The slot of every input wired to an output is a target of its edge route. */
  lemma WiredIsTarget<V>(nodes: seq<TracedNode<V>>, p: Pipeline<V>, blank: TensorType -> V, r: Place, w: Place)
    requires GraphOk(nodes) && Describes(nodes, p) && PlainEdges(nodes) && FlowsParse(p)
    requires OutputPlace(RuntimeNodes(nodes), r) && InputPlace(RuntimeNodes(nodes), w)
    requires Delivers(Intended(nodes, blank), r, w, SlotOf(RuntimeNodes(nodes), w))
    ensures
      var route := EdgeRoute(p, OutputPort(RuntimeNodes(nodes)[r.node], r.port));
      route.Some? && SlotOf(RuntimeNodes(nodes), w) in route.value
  {
    WireIntended(nodes, blank, w);
    SlotIsInput(nodes, w);
    var u := ToGraph(nodes, w);
    GraphPlaces(nodes, Wire(nodes, u).value);
    WiredInputIsTarget(nodes, p, r, u);
  }

  lemma OutputCountIntended<V>(nodes: seq<TracedNode<V>>, p: Pipeline<V>, blank: TensorType -> V, r: Place)
    requires GraphOk(nodes) && Describes(nodes, p) && FlowsParse(p) && OutputPlace(RuntimeNodes(nodes), r)
    ensures var port := OutputPort(RuntimeNodes(nodes)[r.node], r.port);
      && OutputCountOf(p, port) == (if r in Intended(nodes, blank).results then 1 else 0)
      && (EdgeRoute(p, port).None? <==> r in Intended(nodes, blank).results)
  {
    PlacesCorrespond(nodes, r);
    ResultIntended(nodes, blank, r);
    assert DescribesOutput(nodes, p, ToGraph(nodes, r));
  }

  /** Loading rebuilds exactly the edges that were exported: the route table is the intended wiring. */
  lemma LoadedRoutesAreWires<V(!new)>(nodes: seq<TracedNode<V>>, p: Pipeline<V>, blank: TensorType -> V, routes: Routes)
    requires GraphOk(nodes) && ModelsTotal(nodes) && Describes(nodes, p) && PlainEdges(nodes)
    requires FlowsParse(p) && forall port :: Lookup(routes, port) == ExpectedRoute(p, port)
    ensures WellFormed(Intended(nodes, blank)) && RoutesAreWires(Intended(nodes, blank), routes)
  {
    IntendedWellFormed(nodes, blank);
    var sys := Intended(nodes, blank);
    forall r | OutputPlace(sys.nodes, r) ensures RouteIsWires(sys, routes, r) {
      OneRouteIsWires(nodes, p, blank, routes, r);
    }
  }

  lemma OneRouteIsWires<V(!new)>(
    nodes: seq<TracedNode<V>>, p: Pipeline<V>, blank: TensorType -> V, routes: Routes, r: Place)
    requires GraphOk(nodes) && Describes(nodes, p) && PlainEdges(nodes) && WellFormed(Intended(nodes, blank))
    requires FlowsParse(p) && OutputPlace(RuntimeNodes(nodes), r)
    requires var port := OutputPort(RuntimeNodes(nodes)[r.node], r.port); Lookup(routes, port) == ExpectedRoute(p, port)
    ensures RouteIsWires(Intended(nodes, blank), routes, r)
  {
    var sys := Intended(nodes, blank);
    var port := OutputPort(sys.nodes[r.node], r.port);
    RouteTargets(nodes, p, blank, r);
    forall t | t in routes[port] ensures IsConsumer(sys, r, t) {
      TargetConsumes(nodes, p, blank, r, t);
    }
    forall w | w in sys.wire && sys.wire[w] == r ensures SlotOf(sys.nodes, w) in routes[port] {
      WiredIsTarget(nodes, p, blank, r, w);
    }
  }

  lemma TargetConsumes<V(!new)>(nodes: seq<TracedNode<V>>, p: Pipeline<V>, blank: TensorType -> V, r: Place, t: Slot)
    requires GraphOk(nodes) && Describes(nodes, p) && PlainEdges(nodes) && WellFormed(Intended(nodes, blank))
    requires FlowsParse(p) && OutputPlace(RuntimeNodes(nodes), r)
    requires
      var route := ExpectedRoute(p, OutputPort(RuntimeNodes(nodes)[r.node], r.port));
      route.Some? && t in route.value
    ensures IsConsumer(Intended(nodes, blank), r, t)
  {
    RouteTargets(nodes, p, blank, r);
    if r !in Intended(nodes, blank).results { var w := TargetIsWired(nodes, p, blank, r, t); }
  }

  /** An output goes to its result slot, or else along its edges. */
  lemma RouteTargets<V>(nodes: seq<TracedNode<V>>, p: Pipeline<V>, blank: TensorType -> V, r: Place)
    requires GraphOk(nodes) && Describes(nodes, p) && FlowsParse(p) && OutputPlace(RuntimeNodes(nodes), r)
    ensures
      var port := OutputPort(RuntimeNodes(nodes)[r.node], r.port);
      var edges := EdgeRoute(p, port);
      edges.None? == (r in Intended(nodes, blank).results) &&
      ExpectedRoute(p, port) ==
        if edges.None? then Some([ResultSlot(RuntimeNodes(nodes), r)]) else edges
  {
    var port := OutputPort(RuntimeNodes(nodes)[r.node], r.port);
    OutputCountIntended(nodes, p, blank, r);
    RouteUnlisted(EdgeRoute(p, port), port);
    assert ToResult(port, 1) == [ResultSlot(RuntimeNodes(nodes), r)];
  }

  // ----- the loaded slots

  lemma LoadedStart<V(!new)>(
    nodes: seq<TracedNode<V>>, p: Pipeline<V>, blank: TensorType -> V, cleared: Slots<V>, w: Place)
    requires GraphOk(nodes) && Describes(nodes, p) && PlainEdges(nodes)
    requires InputPlace(RuntimeNodes(nodes), w)
    requires At(cleared, SlotOf(RuntimeNodes(nodes), w)) ==
             Some(blank(RuntimeNodes(nodes)[w.node].inputs[w.port].ty))
    ensures At(WithInitial(cleared, p.initialValues), SlotOf(RuntimeNodes(nodes), w)) ==
            Some(StartValue(nodes, blank, ToGraph(nodes, w)))
  {
    SlotIsInput(nodes, w);
    var g := ToGraph(nodes, w);
    assert DescribesInput(nodes, p, g);
    InputKeyParses(nodes, g);
    if FeedbackInput(nodes, g) { assert PlainEdge(nodes, g); }
  }

  /** Slots that hold zeros of the declared types, plus the stored initial values, are a start state. */
  lemma StartsOver<V(!new)>(
    nodes: seq<TracedNode<V>>, p: Pipeline<V>, blank: TensorType -> V, cleared: Slots<V>, runs: seq<Supply<V>>)
    requires GraphOk(nodes) && ModelsTotal(nodes) && Describes(nodes, p) && PlainEdges(nodes)
    requires Covers(cleared, RuntimeNodes(nodes))
    requires forall w | InputPlace(RuntimeNodes(nodes), w) ::
      At(cleared, SlotOf(RuntimeNodes(nodes), w)) == Some(blank(RuntimeNodes(nodes)[w.node].inputs[w.port].ty))
    ensures WellFormed(Intended(nodes, blank))
    ensures Between(Intended(nodes, blank), runs, 0, WithInitial(cleared, p.initialValues))
  {
    IntendedWellFormed(nodes, blank);
    var sys := Intended(nodes, blank);
    var values := WithInitial(cleared, p.initialValues);
    CoversGrows(cleared, values, sys.nodes);
    forall w | InputPlace(sys.nodes, w) ensures HoldsCarried(sys, runs, 0, values, w) {
      LoadedStart(nodes, p, blank, cleared, w);
      assert Place(w.node, w.port) in sys.start;
    }
  }

  lemma DistinctRuntimeInputs<V>(nodes: seq<TracedNode<V>>)
    requires GraphOk(nodes)
    ensures DistinctInputs(RuntimeNodes(nodes))
  {
    var run := RuntimeNodes(nodes);
    NamesIntended(nodes);
    forall a: nat, b: nat | a < b < |run| ensures run[a].name != run[b].name {
      assert NodesDiffer(run, a, b);
    }
    forall k, a, b | 0 <= k < |run| && 0 <= a < b < |run[k].inputs| ensures run[k].inputs[a].name != run[k].inputs[b].name {
      assert NodeNameOk(run[k]);
    }
  }

  lemma BlankIsBlank<V>(nodes: seq<TracedNode<V>>, p: Pipeline<V>, blank: TensorType -> V, w: Place)
    requires GraphOk(nodes) && InputPlace(RuntimeNodes(nodes), w)
    ensures var run := RuntimeNodes(nodes);
      At(BlankSlots(run, p, blank), SlotOf(run, w)) == Some(blank(run[w.node].inputs[w.port].ty))
  {
    var run := RuntimeNodes(nodes);
    DistinctRuntimeInputs(nodes);
    NamesIntended(nodes);
    assert NodeNameOk(run[w.node]);
    SlotTypeAt(run, w.node, w.port);
  }

  // ----- main theorems

  /** An exported description loads exactly when its edge ports are free of slashes: no other check
      can fail, and in particular every model output is routed somewhere. */
  lemma ExportLoads<V>(nodes: seq<TracedNode<V>>, p: Pipeline<V>, blank: TensorType -> V)
    requires GraphOk(nodes) && Describes(nodes, p) && TypesAgree(nodes)
    ensures Loadable(RuntimeNodes(nodes), p, blank) <==> PlainEdges(nodes)
  {
    FlowsParseIffPlain(nodes, p);
    if PlainEdges(nodes) {
      var run := RuntimeNodes(nodes);
      OutputsAreDeclared(nodes, p);
      forall k: nat, o: nat | k < |run| && o < |run[k].outputs| ensures ExpectedRoute(p, OutputPort(run[k], o)).Some? {
        PlacesCorrespond(nodes, Place(k, o));
        OutputCountIntended(nodes, p, blank, Place(k, o));
      }
      EdgesAreTyped(nodes, p);
      InitialValuesAreSlots(nodes, p, blank);
    }
  }

  lemma DeclaredInRun<V>(nodes: seq<TracedNode<V>>, s: Place)
    requires GraphOk(nodes) && IsOutput(nodes, s)
    ensures DeclaresOutput(RuntimeNodes(nodes), (nodes[s.node].name, nodes[s.node].outputs[s.port].name))
  {
    GraphPlaces(nodes, s);
    var r := ToRun(nodes, s);
    PlacesCorrespond(nodes, r);
    assert OutputPort(RuntimeNodes(nodes)[r.node], r.port) == (nodes[s.node].name, nodes[s.node].outputs[s.port].name);
  }

  lemma OutputsAreDeclared<V>(nodes: seq<TracedNode<V>>, p: Pipeline<V>)
    requires GraphOk(nodes) && Describes(nodes, p)
    ensures OutputsDeclared(RuntimeNodes(nodes), p)
  {
    forall n, o | n in p.outputs && o in p.outputs[n]
      ensures DeclaresOutput(RuntimeNodes(nodes), (n, o)) && n in NodeNames(RuntimeNodes(nodes))
    {
      assert ListedOutput(nodes, n, o);
      var s :| IsOutput(nodes, s) && nodes[s.node].name == n && nodes[s.node].outputs[s.port].name == o;
      DeclaredInRun(nodes, s);
    }
    forall n | n in p.outputs ensures n in NodeNames(RuntimeNodes(nodes)) {
      assert p.outputs[n][0] in p.outputs[n];
    }
  }

  lemma EdgesAreTyped<V>(nodes: seq<TracedNode<V>>, p: Pipeline<V>)
    requires GraphOk(nodes) && Describes(nodes, p) && TypesAgree(nodes) && PlainEdges(nodes) && FlowsParse(p)
    ensures EdgesFit(RuntimeNodes(nodes), p)
  {
    forall key | key in p.dataFlow.Keys + p.feedbackFlow.Keys
      ensures DeclaresOutput(RuntimeNodes(nodes), ParseKey(key).value)
      ensures forall t | t in Parsed(Merged(p, key)) :: EdgeFits(RuntimeNodes(nodes), ParseKey(key).value, t)
    {
      assert IsOutputKey(nodes, key);
      var s :| IsOutput(nodes, s) && key == OutputKey(nodes, s);
      OutputKeyParses(nodes, s);
      DeclaredInRun(nodes, s);
      forall t | t in Parsed(Merged(p, key)) ensures EdgeFits(RuntimeNodes(nodes), ParseKey(key).value, t) {
        var i :| 0 <= i < |Merged(p, key)| && ParseKey(Merged(p, key)[i]).value == t;
        OneEdgeFits(nodes, p, s, Merged(p, key)[i]);
      }
    }
  }

  lemma OneEdgeFits<V>(nodes: seq<TracedNode<V>>, p: Pipeline<V>, s: Place, text: string)
    requires GraphOk(nodes) && Describes(nodes, p) && TypesAgree(nodes) && PlainEdges(nodes)
    requires IsOutput(nodes, s) && text in Merged(p, OutputKey(nodes, s))
    ensures ParseKey(text).Some? && ParseKey(OutputKey(nodes, s)).Some?
    ensures EdgeFits(RuntimeNodes(nodes), ParseKey(OutputKey(nodes, s)).value, ParseKey(text).value)
  {
    assert DescribesOutput(nodes, p, s);
    assert TargetListed(nodes, p, s, text);
    var u :| IsInput(nodes, u) && Wire(nodes, u) == Some(s) && text == InputKey(nodes, u);
    assert PlainEdge(nodes, u);
    InputKeyParses(nodes, u);
    OutputKeyParses(nodes, s);
    GraphPlaces(nodes, s);
    GraphPlaces(nodes, u);
    var run, r, w := RuntimeNodes(nodes), ToRun(nodes, s), ToRun(nodes, u);
    PlacesCorrespond(nodes, r);
    PlacesCorrespond(nodes, w);
    assert OutputPort(run[r.node], r.port) == ParseKey(OutputKey(nodes, s)).value;
    assert InputSlot(run[w.node], w.port) == ParseKey(text).value;
    assert run[r.node].outputs[r.port].ty == run[w.node].inputs[w.port].ty;
  }

  lemma InitialValuesAreSlots<V>(nodes: seq<TracedNode<V>>, p: Pipeline<V>, blank: TensorType -> V)
    requires GraphOk(nodes) && Describes(nodes, p) && PlainEdges(nodes)
    ensures InitialValuesFit(BlankSlots(RuntimeNodes(nodes), p, blank), p.initialValues)
  {
    forall key | key in p.initialValues ensures SlotExists(BlankSlots(RuntimeNodes(nodes), p, blank), key) {
      assert IsInputKey(nodes, key);
      var t :| IsInput(nodes, t) && key == InputKey(nodes, t);
      assert DescribesInput(nodes, p, t);
      assert PlainEdge(nodes, t);
      InputKeyParses(nodes, t);
      GraphPlaces(nodes, t);
      var w := ToRun(nodes, t);
      PlacesCorrespond(nodes, w);
      BlankIsBlank(nodes, p, blank, w);
      SlotIsInput(nodes, w);
    }
  }

  /** What a loaded description starts with is the start state of the intended dataflow. */
  lemma LoadedStartsOver<V(!new)>(
    nodes: seq<TracedNode<V>>, p: Pipeline<V>, blank: TensorType -> V, tables: LoadResult<V>, runs: seq<Supply<V>>)
    requires GraphOk(nodes) && TypesAgree(nodes) && Describes(nodes, p) && PlainEdges(nodes) && ModelsTotal(nodes)
    requires FlowsParse(p) && tables.Loaded?
    requires tables.values == WithInitial(BlankSlots(RuntimeNodes(nodes), p, blank), p.initialValues)
    requires forall port :: Lookup(tables.routes, port) == ExpectedRoute(p, port)
    ensures WellFormed(Intended(nodes, blank)) && Between(Intended(nodes, blank), runs, 0, tables.values)
    ensures RoutesUsable(RuntimeNodes(nodes), tables.routes, tables.values.groups)
  {
    var run := RuntimeNodes(nodes);
    ExportLoads(nodes, p, blank);
    LoadedIsUsable(run, p, blank, tables.routes);
    forall w | InputPlace(run, w) { BlankIsBlank(nodes, p, blank, w); }
    StartsOver(nodes, p, blank, BlankSlots(run, p, blank), runs);
  }

  /** For every graph that exports, and every sequence of supplied inputs: loading the description and
      calling the runtime once per supply computes the intended dataflow. Forward edges deliver this
      step's value, feedback and state edges the previous step's (the recorded value at step 0), and
      "==out==" holds each step's unconsumed outputs. */
  lemma PipelineComputesDataflow<V(!new)>(
    nodes: seq<TracedNode<V>>, p: Pipeline<V>, blank: TensorType -> V, tables: LoadResult<V>,
    runs: seq<Supply<V>>, n: nat)
    requires GraphOk(nodes) && TypesAgree(nodes) && Describes(nodes, p) && PlainEdges(nodes)
    requires ModelsTotal(nodes) && HasOutputs(RuntimeNodes(nodes))
    requires FlowsParse(p) && tables.Loaded?
    requires tables.values == WithInitial(BlankSlots(RuntimeNodes(nodes), p, blank), p.initialValues)
    requires forall port :: Lookup(tables.routes, port) == ExpectedRoute(p, port)
    requires n <= |runs| && forall t | 0 <= t < |runs| :: GoodKeys(runs[t], tables.values.groups)
    ensures var sys := Intended(nodes, blank);
      && WellFormed(sys)
      && Covers(tables.values, sys.nodes)
      && RoutesUsable(sys.nodes, tables.routes, tables.values.groups)
      && var r := Replay(tables.values, sys.nodes, tables.routes, runs, n);
      && r.error.None?
      && Between(sys, runs, n, r.values)
      && (n > 0 ==> ResultsUpTo(sys, runs, n - 1, |sys.nodes|, r.values))
  {
    LoadedStartsOver(nodes, p, blank, tables, runs);
    LoadedRoutesAreWires(nodes, p, blank, tables.routes);
    ReplayIsDataflow(Intended(nodes, blank), runs, n, tables.values, tables.routes);
  }

  /** A reset manager is a fresh manager: as long as zeroing keeps a buffer's type, every run after
      `reset` computes the dataflow from its start, whatever was run or supplied before. */
  lemma ResetStartsOver<V(!new)>(
    nodes: seq<TracedNode<V>>, p: Pipeline<V>, blank: TensorType -> V, zeroed: V -> V, values: Slots<V>,
    routes: Routes, runs: seq<Supply<V>>, n: nat)
    requires GraphOk(nodes) && ModelsTotal(nodes) && Describes(nodes, p) && PlainEdges(nodes)
    requires HasOutputs(RuntimeNodes(nodes)) && FlowsParse(p)
    requires Covers(values, RuntimeNodes(nodes)) && RoutesUsable(RuntimeNodes(nodes), routes, values.groups)
    requires forall port :: Lookup(routes, port) == ExpectedRoute(p, port)
    requires forall w | InputPlace(RuntimeNodes(nodes), w) && SlotOf(RuntimeNodes(nodes), w) in values.cells ::
      zeroed(values.cells[SlotOf(RuntimeNodes(nodes), w)]) == blank(RuntimeNodes(nodes)[w.node].inputs[w.port].ty)
    requires n <= |runs| && forall t | 0 <= t < |runs| :: GoodKeys(runs[t], values.groups)
    ensures var sys := Intended(nodes, blank);
      var after := WithInitial(Zeroed(values, zeroed), p.initialValues);
      && WellFormed(sys)
      && Covers(after, sys.nodes)
      && RoutesUsable(sys.nodes, routes, after.groups)
      && var r := Replay(after, sys.nodes, routes, runs, n);
      && r.error.None?
      && Between(sys, runs, n, r.values)
      && (n > 0 ==> ResultsUpTo(sys, runs, n - 1, |sys.nodes|, r.values))
  {
    var sys := Intended(nodes, blank);
    var cleared := Zeroed(values, zeroed);
    CoversGrows(values, cleared, sys.nodes);
    forall w | InputPlace(sys.nodes, w)
      ensures At(cleared, SlotOf(sys.nodes, w)) == Some(blank(sys.nodes[w.node].inputs[w.port].ty))
    {
      assert HasSlots(values, sys.nodes[w.node]);
    }
    StartsOver(nodes, p, blank, cleared, runs);
    LoadedRoutesAreWires(nodes, p, blank, routes);
    ReplayIsDataflow(sys, runs, n, WithInitial(cleared, p.initialValues), routes);
  }

  /** A node without outputs is never entered in the route table. */
  lemma SilentNodeIsNotRouted<V>(nodes: seq<TracedNode<V>>, p: Pipeline<V>, routes: Routes, k: nat)
    requires GraphOk(nodes) && Describes(nodes, p) && PlainEdges(nodes) && FlowsParse(p)
    requires forall port :: Lookup(routes, port) == ExpectedRoute(p, port)
    requires k < |nodes| && RuntimeNodes(nodes)[k].outputs == []
    ensures !InTable(routes, RuntimeNodes(nodes)[k].name)
  {
    var node := RuntimeNodes(nodes)[k];
    if port :| port in routes && port.0 == node.name {
      assert Lookup(routes, port) == ExpectedRoute(p, port);
      RoutedPortIsOutput(nodes, p, port);
      var s :| IsOutput(nodes, s) && nodes[s.node].name == port.0;
      SameNode(nodes, s.node, Position(nodes, k));
    }
  }

  /** A step stops at the first node without outputs, once the nodes before it have run. */
  lemma SilentNodeStops<V(!new)>(
    sys: System<V>, runs: seq<Supply<V>>, t: nat, values: Slots<V>, routes: Routes, m: nat)
    requires WellFormed(sys) && t < |runs| && Between(sys, runs, t, values) && GoodKeys(runs[t], values.groups)
    requires RoutesUsable(sys.nodes, routes, values.groups) && RoutesAreWires(sys, routes)
    requires m == FirstSilent(sys.nodes, 0) < |sys.nodes| && !InTable(routes, sys.nodes[m].name)
    ensures Step(values, sys.nodes, routes, runs[t]).error == Some(NoRoutes(sys.nodes[m].name))
  {
    FeedStep(sys, runs, t, values);
    var fed := Feed(values, runs[t], |runs[t]|).values;
    var after := ExecuteSteps(sys, runs, t, fed, routes);
    ExecuteUnfolds(fed, sys.nodes, routes, m, after);
    assert Total(sys.nodes[m]);
    ExecuteStopsAt(fed, sys.nodes, routes, m + 1, |sys.nodes|);
  }

  lemma {:induction false} ReplayStops<V>(
    values: Slots<V>, nodes: seq<Node<V>>, routes: Routes, runs: seq<Supply<V>>, n: nat)
    requires 0 < n <= |runs| && Covers(values, nodes) && RoutesUsable(nodes, routes, values.groups)
    requires Step(values, nodes, routes, runs[0]).error.Some?
    ensures Replay(values, nodes, routes, runs, n) == Step(values, nodes, routes, runs[0])
  {
    if n > 1 { ReplayStops(values, nodes, routes, runs, n - 1); }
  }

  /** The one gap in the load-time checks. A loaded pipeline runs exactly when every node has an output:
      a node without outputs passes every check and then stops every step, because its name is never
      entered in the route table. */
  lemma PipelineRunsIffHasOutputs<V(!new)>(
    nodes: seq<TracedNode<V>>, p: Pipeline<V>, blank: TensorType -> V, tables: LoadResult<V>,
    runs: seq<Supply<V>>, n: nat)
    requires GraphOk(nodes) && TypesAgree(nodes) && Describes(nodes, p) && PlainEdges(nodes) && ModelsTotal(nodes)
    requires FlowsParse(p) && tables.Loaded?
    requires tables.values == WithInitial(BlankSlots(RuntimeNodes(nodes), p, blank), p.initialValues)
    requires forall port :: Lookup(tables.routes, port) == ExpectedRoute(p, port)
    requires 0 < n <= |runs| && forall t | 0 <= t < |runs| :: GoodKeys(runs[t], tables.values.groups)
    ensures Covers(tables.values, RuntimeNodes(nodes))
    ensures RoutesUsable(RuntimeNodes(nodes), tables.routes, tables.values.groups)
    ensures
      var run := RuntimeNodes(nodes);
      Replay(tables.values, run, tables.routes, runs, n).error ==
        if HasOutputs(run) then None else Some(NoRoutes(run[FirstSilent(run, 0)].name))
  {
    LoadedStartsOver(nodes, p, blank, tables, runs);
    var sys := Intended(nodes, blank);
    LoadedRoutesAreWires(nodes, p, blank, tables.routes);
    var m := FirstSilent(sys.nodes, 0);
    if m == |sys.nodes| {
      ReplayIsDataflow(sys, runs, n, tables.values, tables.routes);
    } else {
      SilentNodeIsNotRouted(nodes, p, tables.routes, m);
      SilentNodeStops(sys, runs, 0, tables.values, tables.routes, m);
      ReplayStops(tables.values, sys.nodes, tables.routes, runs, n);
    }
  }

  lemma RoutedPortIsOutput<V>(nodes: seq<TracedNode<V>>, p: Pipeline<V>, port: Slot)
    requires GraphOk(nodes) && Describes(nodes, p) && FlowsParse(p) && PlainEdges(nodes)
    requires ExpectedRoute(p, port).Some?
    ensures exists s :: IsOutput(nodes, s) && nodes[s.node].name == port.0
  {
    var key := PortKey(port.0, port.1);
    if key in p.dataFlow.Keys + p.feedbackFlow.Keys {
      assert IsOutputKey(nodes, key);
      var s :| IsOutput(nodes, s) && key == OutputKey(nodes, s);
      FlowKeyParses(nodes, p, key);
      KeyRoundTrip(port.0, port.1);
      OutputKeyParses(nodes, s);
    } else {
      CountAbsent(p.outputs[port.0], port.1);
      assert ListedOutput(nodes, port.0, port.1);
    }
  }

  /** Export, load and construct, end to end. A manager comes back exactly when no node receives one
      output twice, edge types agree and edge ports are slash-free; it starts in the start state. */
  method Deploy<V(!new)>(nodes: seq<TracedNode<V>>, blank: TensorType -> V, zeroed: V -> V)
    returns (r: Option<InferenceManager<V>>)
    requires GraphOk(nodes) && ModelsTotal(nodes)
    ensures r.Some? <==>
      (forall k | 0 <= k < |nodes| :: !HasDuplicateSource(nodes, k)) && TypesAgree(nodes) && PlainEdges(nodes)
    ensures r.Some? ==>
      && fresh(r.value) && r.value.Valid()
      && r.value.nodes == RuntimeNodes(nodes)
      && WellFormed(Intended(nodes, blank))
      && RoutesAreWires(Intended(nodes, blank), r.value.routes)
      && Between(Intended(nodes, blank), [], 0, r.value.values)
  {
    var exported := Export(nodes);
    if !exported.Exported? { return None; }
    var p := exported.pipeline;
    var run := RuntimeNodes(nodes);
    ExportLoads(nodes, p, blank);
    var tables := LoadPipeline(run, p, blank);
    if tables.Rejected? { return None; }
    var manager := new InferenceManager(run, p, blank, zeroed, tables);
    LoadedStartsOver(nodes, p, blank, tables, []);
    LoadedRoutesAreWires(nodes, p, blank, tables.routes);
    r := Some(manager);
  }
}
