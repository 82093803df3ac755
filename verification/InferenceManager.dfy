/** The runtime object: it reads a pipeline description into slots and routes, then replays it. */
module InferenceRuntime {
  import opened Ports
  import opened Inference
  import opened Dataflow

  /** The pipeline section of an exported description. Dictionaries whose order does not matter are maps. */
  datatype Pipeline<V> = Pipeline(
    dataFlow: map<string, seq<string>>,
    feedbackFlow: map<string, seq<string>>,
    inputs: map<string, seq<string>>,
    outputs: map<string, seq<string>>,
    initialValues: map<string, V>)

  // ----- reading route tables

  function Lookup(routes: Routes, port: Slot): Option<seq<Slot>> {
    if port in routes then Some(routes[port]) else None
  }

  function FlowOf(flow: map<string, seq<string>>, source: string): seq<string> {
    if source in flow then flow[source] else []
  }

  /** Forward targets come before feedback targets of the same output. */
  function Merged<V>(p: Pipeline<V>, source: string): seq<string> {
    FlowOf(p.dataFlow, source) + FlowOf(p.feedbackFlow, source)
  }

  predicate AllParse(keys: seq<string>) {
    forall k | k in keys :: ParseKey(k).Some?
  }

  function Parsed(keys: seq<string>): (r: seq<Slot>)
    requires AllParse(keys)
    ensures |r| == |keys|
    ensures forall k | 0 <= k < |keys| :: r[k] == ParseKey(keys[k]).value
  {
    seq(|keys|, k requires 0 <= k < |keys| => ParseKey(keys[k]).value)
  }

  predicate FlowsParse<V>(p: Pipeline<V>) {
    forall s | s in p.dataFlow.Keys + p.feedbackFlow.Keys :: ParseKey(s).Some? && AllParse(Merged(p, s))
  }

  function Count(names: seq<string>, name: string): nat {
    if names == [] then 0 else Count(names[..|names| - 1], name) + if names[|names| - 1] == name then 1 else 0
  }

  function OutputCountOf<V>(p: Pipeline<V>, port: Slot): nat {
    if port.0 in p.outputs then Count(p.outputs[port.0], port.1) else 0
  }

  function ToResult(port: Slot, times: nat): seq<Slot> {
    seq(times, _ => (OUT, PortKey(port.0, port.1)))
  }

  /** What the loaded table holds for an output: its edges, then one result target per listing. */
  function Routed(edges: Option<seq<Slot>>, port: Slot, times: nat): Option<seq<Slot>> {
    match edges
    case Some(targets) => Some(targets + ToResult(port, times))
    case None => if times == 0 then None else Some(ToResult(port, times))
  }

  function EdgeRoute<V>(p: Pipeline<V>, port: Slot): Option<seq<Slot>>
    requires FlowsParse(p)
  {
    var source := PortKey(port.0, port.1);
    if source in p.dataFlow.Keys + p.feedbackFlow.Keys then Some(Parsed(Merged(p, source))) else None
  }

  function ExpectedRoute<V>(p: Pipeline<V>, port: Slot): Option<seq<Slot>>
    requires FlowsParse(p)
  {
    Routed(EdgeRoute(p, port), port, OutputCountOf(p, port))
  }

  predicate DeclaresOutput<V>(nodes: seq<Node<V>>, port: Slot) {
    exists k, o :: 0 <= k < |nodes| && 0 <= o < |nodes[k].outputs| && OutputPort(nodes[k], o) == port
  }

  predicate OutputsDeclared<V>(nodes: seq<Node<V>>, p: Pipeline<V>) {
    (forall n | n in p.outputs :: n in NodeNames(nodes)) &&
    forall n, o | n in p.outputs && o in p.outputs[n] :: DeclaresOutput(nodes, (n, o))
  }

  /** Combines the two flow dictionaries; shared sources concatenate their targets. */
  method MergeFlows<V>(p: Pipeline<V>) returns (flows: map<string, seq<string>>)
    ensures flows.Keys == p.dataFlow.Keys + p.feedbackFlow.Keys
    ensures forall s | s in flows :: flows[s] == Merged(p, s)
  {
    flows := map[];
    var rest := p.dataFlow.Keys;
    while rest != {}
      invariant rest <= p.dataFlow.Keys && flows.Keys == p.dataFlow.Keys - rest
      invariant forall s | s in flows :: flows[s] == p.dataFlow[s]
    {
      var s :| s in rest;
      flows := flows[s := p.dataFlow[s]];
      rest := rest - {s};
    }
    rest := p.feedbackFlow.Keys;
    while rest != {}
      invariant rest <= p.feedbackFlow.Keys && flows.Keys == p.dataFlow.Keys + (p.feedbackFlow.Keys - rest)
      invariant forall s | s in flows ::
          flows[s] == FlowOf(p.dataFlow, s) + (if s in rest then [] else FlowOf(p.feedbackFlow, s))
    {
      var s :| s in rest;
      if s in flows {
        flows := flows[s := flows[s] + p.feedbackFlow[s]];
      } else {
        flows := flows[s := p.feedbackFlow[s]];
      }
      rest := rest - {s};
    }
  }

  /** Splits every target of one flow key. */
  method ParseTargets(keys: seq<string>) returns (r: Option<seq<Slot>>)
    ensures r.Some? <==> AllParse(keys)
    ensures r.Some? ==> r.value == Parsed(keys)
  {
    var targets: seq<Slot> := [];
    for k := 0 to |keys|
      invariant AllParse(keys[..k]) && targets == Parsed(keys[..k])
    {
      assert keys[..k + 1] == keys[..k] + [keys[k]];
      if ParseKey(keys[k]).None? {
        assert keys[k] in keys;
        return None;
      }
      targets := targets + [ParseKey(keys[k]).value];
    }
    assert keys[..|keys|] == keys;
    return Some(targets);
  }

  /** Splits every flow key and target; one malformed key fails the load. */
  method OrganizeEdges<V>(p: Pipeline<V>) returns (r: Option<Routes>)
    ensures r.Some? <==> FlowsParse(p)
    ensures r.Some? ==> forall port :: Lookup(r.value, port) == EdgeRoute(p, port)
  {
    var flows := MergeFlows(p);
    var routes: Routes := map[];
    var rest := flows.Keys;
    while rest != {}
      invariant rest <= flows.Keys
      invariant forall s | s in flows.Keys - rest :: ParseKey(s).Some? && AllParse(flows[s])
      invariant forall port: Slot ::
          Lookup(routes, port) == if PortKey(port.0, port.1) in flows.Keys - rest
                                  then Some(Parsed(flows[PortKey(port.0, port.1)])) else None
    {
      var s :| s in rest;
      if ParseKey(s).None? { return None; }
      var source := ParseKey(s).value;
      var targets := ParseTargets(flows[s]);
      if targets.None? { return None; }
      routes := routes[source := targets.value];
      ParsedKeyIsWritten(s);
      forall port: Slot | PortKey(port.0, port.1) == s ensures port == source {
        KeyRoundTrip(port.0, port.1);
      }
      rest := rest - {s};
    }
    r := Some(routes);
  }

  lemma CountStep(names: seq<string>, k: nat, name: string)
    requires k < |names|
    ensures Count(names[..k + 1], name) == Count(names[..k], name) + if names[k] == name then 1 else 0
  {
    assert names[..k + 1][..k] == names[..k];
  }

  lemma {:induction false} CountAbsent(names: seq<string>, name: string)
    ensures Count(names, name) > 0 <==> name in names
  {
    if names != [] {
      CountAbsent(names[..|names| - 1], name);
      assert names == names[..|names| - 1] + [names[|names| - 1]];
    }
  }

  lemma RouteOneMore(edges: Option<seq<Slot>>, port: Slot, times: nat)
    ensures Routed(edges, port, times + 1) ==
      Some((match Routed(edges, port, times) case Some(ts) => ts case None => []) + [(OUT, PortKey(port.0, port.1))])
  {
    var one := [(OUT, PortKey(port.0, port.1))];
    assert ToResult(port, times + 1) == ToResult(port, times) + one;
    match edges
    case None => if times == 0 { assert ToResult(port, 1) == [] + one; }
    case Some(ts) => assert ts + ToResult(port, times + 1) == (ts + ToResult(port, times)) + one;
  }

  lemma RouteUnlisted(edges: Option<seq<Slot>>, port: Slot)
    ensures Routed(edges, port, 0) == edges
  {
    if edges.Some? { assert edges.value + ToResult(port, 0) == edges.value; }
  }

  /** The entry of an output once the listed outputs of `node` have got their result targets. */
  function Listed(before: Routes, node: string, names: seq<string>, port: Slot): Option<seq<Slot>> {
    if port.0 == node then Routed(Lookup(before, port), port, Count(names, port.1)) else Lookup(before, port)
  }

  /** Adds a result target for every listed output of one node. */
  method AddNodeResults<V>(nodes: seq<Node<V>>, node: string, names: seq<string>, before: Routes)
    returns (r: Option<Routes>)
    ensures r.Some? <==> forall o | o in names :: DeclaresOutput(nodes, (node, o))
    ensures r.Some? ==> forall port :: Lookup(r.value, port) == Listed(before, node, names, port)
  {
    var routes := before;
    forall port ensures Routed(Lookup(before, port), port, 0) == Lookup(before, port) {
      RouteUnlisted(Lookup(before, port), port);
    }
    for k := 0 to |names|
      invariant forall o | o in names[..k] :: DeclaresOutput(nodes, (node, o))
      invariant forall port :: Lookup(routes, port) == Listed(before, node, names[..k], port)
    {
      var listed := (node, names[k]);
      if !DeclaresOutput(nodes, listed) {
        assert names[k] in names;
        return None;
      }
      var targets := match Lookup(routes, listed) case Some(ts) => ts case None => [];
      ghost var earlier := routes;
      routes := routes[listed := targets + [(OUT, PortKey(node, names[k]))]];
      forall port ensures Lookup(routes, port) == Listed(before, node, names[..k + 1], port) {
        assert Lookup(earlier, port) == Listed(before, node, names[..k], port);
        CountStep(names, k, port.1);
        if port == listed { RouteOneMore(Lookup(before, listed), listed, Count(names[..k], names[k])); }
      }
      assert names[..k + 1] == names[..k] + [names[k]];
    }
    assert names[..|names|] == names;
    r := Some(routes);
  }

  /** Adds a result target for every listed graph output; an unknown node or an undeclared output fails
      the load. */
  method AddResults<V>(nodes: seq<Node<V>>, p: Pipeline<V>, edges: Routes) returns (r: Option<Routes>)
    ensures r.Some? <==> OutputsDeclared(nodes, p)
    ensures r.Some? ==> forall port ::
        Lookup(r.value, port) == Routed(Lookup(edges, port), port, OutputCountOf(p, port))
  {
    var routes := edges;
    var rest := p.outputs.Keys;
    forall port ensures Routed(Lookup(edges, port), port, 0) == Lookup(edges, port) {
      RouteUnlisted(Lookup(edges, port), port);
    }
    while rest != {}
      invariant rest <= p.outputs.Keys && p.outputs.Keys - rest <= NodeNames(nodes)
      invariant forall n, o | n in p.outputs.Keys - rest && o in p.outputs[n] :: DeclaresOutput(nodes, (n, o))
      invariant forall port: Slot ::
          Lookup(routes, port) == Routed(Lookup(edges, port), port, if port.0 in rest then 0 else OutputCountOf(p, port))
    {
      var node :| node in rest;
      if node !in NodeNames(nodes) { return None; }
      var added := AddNodeResults(nodes, node, p.outputs[node], routes);
      if added.None? { return None; }
      routes := added.value;
      rest := rest - {node};
    }
    r := Some(routes);
  }

  // ----- slots and validation

  predicate DistinctInputs<V>(nodes: seq<Node<V>>) {
    && (forall a, b | 0 <= a < b < |nodes| :: nodes[a].name != nodes[b].name)
    && (forall k, a, b | 0 <= k < |nodes| && 0 <= a < b < |nodes[k].inputs| ::
          nodes[k].inputs[a].name != nodes[k].inputs[b].name)
  }

  /** The declared type of an input; the last declaration of a name wins. */
  function InputType(inputs: seq<PortDesc>, name: string): TensorType {
    if inputs == [] then TensorType([], "")
    else if inputs[|inputs| - 1].name == name then inputs[|inputs| - 1].ty
    else InputType(inputs[..|inputs| - 1], name)
  }

  function SlotType<V>(nodes: seq<Node<V>>, slot: Slot): TensorType {
    if nodes == [] then TensorType([], "")
    else if nodes[|nodes| - 1].name == slot.0 then InputType(nodes[|nodes| - 1].inputs, slot.1)
    else SlotType(nodes[..|nodes| - 1], slot)
  }

  function InputSlots<V>(nodes: seq<Node<V>>): set<Slot> {
    set k, j | 0 <= k < |nodes| && 0 <= j < |nodes[k].inputs| :: InputSlot(nodes[k], j)
  }

  function NodeNames<V>(nodes: seq<Node<V>>): set<string> {
    set k | 0 <= k < |nodes| :: nodes[k].name
  }

  lemma {:induction false} InputTypeAt(inputs: seq<PortDesc>, j: nat)
    requires j < |inputs|
    requires forall a, b | 0 <= a < b < |inputs| :: inputs[a].name != inputs[b].name
    ensures InputType(inputs, inputs[j].name) == inputs[j].ty
  {
    if j < |inputs| - 1 { InputTypeAt(inputs[..|inputs| - 1], j); }
  }

  lemma {:induction false} SlotTypeAt<V>(nodes: seq<Node<V>>, k: nat, j: nat)
    requires k < |nodes| && j < |nodes[k].inputs| && DistinctInputs(nodes)
    ensures SlotType(nodes, InputSlot(nodes[k], j)) == nodes[k].inputs[j].ty
  {
    if k < |nodes| - 1 {
      assert nodes[k].name != nodes[|nodes| - 1].name;
      SlotTypeAt(nodes[..|nodes| - 1], k, j);
    } else {
      InputTypeAt(nodes[k].inputs, j);
    }
  }

  /** Both ends of an edge exist and their types agree. */
  predicate EdgeFits<V>(nodes: seq<Node<V>>, source: Slot, target: Slot) {
    exists k, o, q, j :: 0 <= k < |nodes| && 0 <= o < |nodes[k].outputs| && 0 <= q < |nodes| && 0 <= j < |nodes[q].inputs|
      && OutputPort(nodes[k], o) == source
      && InputSlot(nodes[q], j) == target
      && nodes[k].outputs[o].ty == nodes[q].inputs[j].ty
  }

  predicate EdgesFit<V>(nodes: seq<Node<V>>, p: Pipeline<V>)
    requires FlowsParse(p)
  {
    forall s | s in p.dataFlow.Keys + p.feedbackFlow.Keys ::
      && DeclaresOutput(nodes, ParseKey(s).value)
      && forall t | t in Parsed(Merged(p, s)) :: EdgeFits(nodes, ParseKey(s).value, t)
  }

  predicate AllOutputsRouted<V>(nodes: seq<Node<V>>, p: Pipeline<V>)
    requires FlowsParse(p)
  {
    forall k, o | 0 <= k < |nodes| && 0 <= o < |nodes[k].outputs| :: ExpectedRoute(p, OutputPort(nodes[k], o)).Some?
  }

  predicate SlotExists<V>(values: Slots<V>, key: string) {
    ParseKey(key).Some? && ParseKey(key).value in values.cells
  }

  function ResultSlots<V>(p: Pipeline<V>): set<Slot> {
    set n, o | n in p.outputs && o in p.outputs[n] :: (OUT, PortKey(n, o))
  }

  /** The slots before initial values: zeros for every input, and the result cache. */
  function BlankSlots<V>(nodes: seq<Node<V>>, p: Pipeline<V>, blank: TensorType -> V): Slots<V> {
    Slots(NodeNames(nodes) + {OUT},
      map slot | slot in InputSlots(nodes) + ResultSlots(p) ::
        blank(if slot in ResultSlots(p) then ResultType(nodes, slot.1) else SlotType(nodes, slot)))
  }

  /** The declared type behind a result key; the last declaration wins. */
  function ResultType<V>(nodes: seq<Node<V>>, key: string): TensorType {
    if nodes == [] then TensorType([], "")
    else
      match OutputType(nodes[|nodes| - 1], key, |nodes[|nodes| - 1].outputs|)
      case Some(ty) => ty
      case None => ResultType(nodes[..|nodes| - 1], key)
  }

  function OutputType<V>(node: Node<V>, key: string, n: nat): Option<TensorType>
    requires n <= |node.outputs|
  {
    if n == 0 then None
    else if PortKey(node.name, node.outputs[n - 1].name) == key then Some(node.outputs[n - 1].ty)
    else OutputType(node, key, n - 1)
  }

  predicate InitialValuesFit<V>(values: Slots<V>, initial: map<string, V>) {
    forall key | key in initial :: SlotExists(values, key)
  }

  /** The stored initial value of a slot, if there is one. */
  function Initial<V>(initial: map<string, V>, slot: Slot): Option<V> {
    var key := PortKey(slot.0, slot.1);
    if key in initial && ParseKey(key) == Some(slot) then Some(initial[key]) else None
  }

  /** Stored initial values replace the slots they are keyed by. */
  function WithInitial<V>(values: Slots<V>, initial: map<string, V>): (r: Slots<V>)
    ensures r.groups == values.groups && r.cells.Keys == values.cells.Keys
  {
    values.(cells := map slot | slot in values.cells ::
      match Initial(initial, slot) case Some(v) => v case None => values.cells[slot])
  }

  /** Every condition the loader checks. */
  predicate Loadable<V>(nodes: seq<Node<V>>, p: Pipeline<V>, blank: TensorType -> V) {
    && FlowsParse(p)
    && OutputsDeclared(nodes, p)
    && AllOutputsRouted(nodes, p)
    && EdgesFit(nodes, p)
    && InitialValuesFit(BlankSlots(nodes, p, blank), p.initialValues)
  }

  /** Overwrites the keyed slots one entry at a time, in whatever order the file lists them. */
  method Prepopulate<V>(values: Slots<V>, initial: map<string, V>) returns (r: Option<Slots<V>>)
    ensures r.Some? <==> InitialValuesFit(values, initial)
    ensures r.Some? ==> r.value == WithInitial(values, initial)
  {
    var cells := values.cells;
    var rest := initial.Keys;
    while rest != {}
      invariant rest <= initial.Keys
      invariant forall key | key in initial.Keys - rest :: SlotExists(values, key)
      invariant cells.Keys == values.cells.Keys
      invariant forall slot | slot in cells ::
          cells[slot] == if Initial(initial, slot).Some? && PortKey(slot.0, slot.1) !in rest
                         then Initial(initial, slot).value else values.cells[slot]
    {
      var key :| key in rest;
      if !SlotExists(values, key) { return None; }
      ParsedKeyIsWritten(key);
      cells := cells[ParseKey(key).value := initial[key]];
      rest := rest - {key};
    }
    assert cells == WithInitial(values, initial).cells;
    r := Some(values.(cells := cells));
  }

  datatype LoadResult<V> = Loaded(values: Slots<V>, routes: Routes) | Rejected

  /** Builds the slots and the route table, and validates both. */
  method LoadPipeline<V>(nodes: seq<Node<V>>, p: Pipeline<V>, blank: TensorType -> V) returns (r: LoadResult<V>)
    ensures r.Loaded? <==> Loadable(nodes, p, blank)
    ensures r.Loaded? ==> r.values == WithInitial(BlankSlots(nodes, p, blank), p.initialValues)
    ensures r.Loaded? ==> forall port :: Lookup(r.routes, port) == ExpectedRoute(p, port)
  {
    var edges := OrganizeEdges(p);
    if edges.None? { return Rejected; }
    var table := AddResults(nodes, p, edges.value);
    if table.None? { return Rejected; }
    var routes := table.value;
    assert forall port :: Lookup(routes, port) == ExpectedRoute(p, port);
    if !(forall k, o | 0 <= k < |nodes| && 0 <= o < |nodes[k].outputs| ::
          Lookup(routes, OutputPort(nodes[k], o)).Some?) {
      return Rejected;
    }
    if !EdgesFit(nodes, p) { return Rejected; }
    var values := Prepopulate(BlankSlots(nodes, p, blank), p.initialValues);
    if values.None? { return Rejected; }
    r := Loaded(values.value, routes);
  }

  /** A loaded pipeline has a slot for every input and a usable route for every output. */
  lemma LoadedIsUsable<V>(nodes: seq<Node<V>>, p: Pipeline<V>, blank: TensorType -> V, routes: Routes)
    requires FlowsParse(p) && AllOutputsRouted(nodes, p) && EdgesFit(nodes, p)
    requires forall port :: Lookup(routes, port) == ExpectedRoute(p, port)
    ensures var values := BlankSlots(nodes, p, blank);
      Covers(values, nodes) && RoutesUsable(nodes, routes, values.groups)
  {
    var values := BlankSlots(nodes, p, blank);
    forall k | 0 <= k < |nodes| ensures HasSlots(values, nodes[k]) && HasRoutes(nodes[k], routes, values.groups) {
      forall o | 0 <= o < |nodes[k].outputs|
        ensures OutputPort(nodes[k], o) in routes
        ensures TargetsExist(routes[OutputPort(nodes[k], o)], values.groups)
      {
        var port := OutputPort(nodes[k], o);
        assert Lookup(routes, port) == ExpectedRoute(p, port);
        RouteTargetsExist(nodes, p, blank, port);
      }
    }
  }

  lemma RouteTargetsExist<V>(nodes: seq<Node<V>>, p: Pipeline<V>, blank: TensorType -> V, port: Slot)
    requires FlowsParse(p) && EdgesFit(nodes, p) && ExpectedRoute(p, port).Some?
    ensures TargetsExist(ExpectedRoute(p, port).value, BlankSlots(nodes, p, blank).groups)
  {
    forall t | t in ExpectedRoute(p, port).value ensures t.0 in BlankSlots(nodes, p, blank).groups {
      if t.0 != OUT {
        var s := PortKey(port.0, port.1);
        assert s in p.dataFlow.Keys + p.feedbackFlow.Keys && t in Parsed(Merged(p, s));
        assert EdgeFits(nodes, ParseKey(s).value, t);
      }
    }
  }

  // ----- the runtime object

  /** The dictionary of graph outputs `run_policy` hands back. */
  function Results<V>(values: Slots<V>): map<string, V> {
    map slot | slot in values.cells && slot.0 == OUT :: slot.1 := values.cells[slot]
  }

  datatype RunResult<V> = Ran(outputs: map<string, V>) | Raised(error: RunError)

  class InferenceManager<V(!new)> {
    const nodes: seq<Node<V>>
    const pipeline: Pipeline<V>
    const zeroed: V -> V
    var routes: Routes
    var values: Slots<V>

    ghost predicate Valid()
      reads this
    {
      && Covers(values, nodes)
      && RoutesUsable(nodes, routes, values.groups)
      && InitialValuesFit(values, pipeline.initialValues)
    }

    /** The load either succeeded with these tables or raised before an object existed. */
    constructor (nodes: seq<Node<V>>, pipeline: Pipeline<V>, blank: TensorType -> V, zeroed: V -> V, tables: LoadResult<V>)
      requires Loadable(nodes, pipeline, blank)
      requires tables.Loaded? && tables.values == WithInitial(BlankSlots(nodes, pipeline, blank), pipeline.initialValues)
      requires forall port :: Lookup(tables.routes, port) == ExpectedRoute(pipeline, port)
      ensures Valid()
      ensures this.nodes == nodes && this.pipeline == pipeline && this.zeroed == zeroed
      ensures values == tables.values && routes == tables.routes
    {
      this.nodes, this.pipeline, this.zeroed := nodes, pipeline, zeroed;
      this.routes, this.values := tables.routes, tables.values;
      LoadedIsUsable(nodes, pipeline, blank, tables.routes);
      KeptFits(BlankSlots(nodes, pipeline, blank), tables.values, nodes, pipeline.initialValues);
    }

    /** Stores the supplied inputs; the first bad key stops it. */
    method FeedInputs(inputs: seq<(string, V)>) returns (error: Option<RunError>)
      requires Valid()
      modifies this`values
      ensures Valid() && Feed(old(values), inputs, |inputs|) == Outcome(values, error)
    {
      ghost var start := values;
      for k := 0 to |inputs|
        invariant Feed(start, inputs, k) == Outcome(values, None)
      {
        var slot := ParseKey(inputs[k].0);
        if slot.None? || slot.value.0 !in values.groups {
          error := Some(if slot.None? then BadKey(inputs[k].0) else NoSuchNode(slot.value.0));
          FeedStopsAt(start, inputs, k + 1, |inputs|);
          KeptFits(start, values, nodes, pipeline.initialValues);
          return;
        }
        values := values.(cells := values.cells[slot.value := inputs[k].1]);
      }
      error := None;
      KeptFits(start, values, nodes, pipeline.initialValues);
    }

    /** Pushes every output of a node into the slots of its targets. */
    method PushOutputs(node: Node<V>, outs: seq<V>)
      requires Valid() && |outs| == |node.outputs| && HasRoutes(node, routes, values.groups)
      modifies this`values
      ensures Valid() && values == Publish(old(values), routes, node, outs, |outs|)
    {
      ghost var start := values;
      for o := 0 to |node.outputs|
        invariant values == Publish(start, routes, node, outs, o)
      {
        var targets := routes[OutputPort(node, o)];
        ghost var published := values;
        for i := 0 to |targets|
          invariant values == Push(published, targets, outs[o], i)
        {
          values := values.(cells := values.cells[targets[i] := outs[o]]);
        }
      }
      KeptFits(start, values, nodes, pipeline.initialValues);
    }

    /** Calls one node on its slots and pushes what it returns. */
    method RunOne(node: Node<V>) returns (error: Option<RunError>)
      requires Valid() && HasSlots(values, node) && HasRoutes(node, routes, values.groups)
      modifies this`values
      ensures Valid() && RunNode(old(values), node, routes) == Outcome(values, error)
    {
      var called := Call(node, Gather(values, node));
      if called.Fails? { return Some(called.error); }
      if !InTable(routes, node.name) { return Some(NoRoutes(node.name)); }
      PushOutputs(node, called.values);
      error := None;
    }

    /** Feeds the supplied inputs, runs the nodes in order and pushes every output to its targets. */
    method RunPolicy(inputs: seq<(string, V)>) returns (r: RunResult<V>)
      requires Valid()
      modifies this`values
      ensures Valid()
      ensures var s := Step(old(values), nodes, routes, inputs);
        && values == s.values
        && r == if s.error.Some? then Raised(s.error.value) else Ran(Results(values))
    {
      var error := FeedInputs(inputs);
      if error.Some? { return Raised(error.value); }
      ghost var fed := values;
      for k := 0 to |nodes|
        invariant Valid() && values.groups == fed.groups
        invariant Execute(fed, nodes, routes, k) == Outcome(values, None)
      {
        ExecuteUnfolds(fed, nodes, routes, k, values);
        var error := RunOne(nodes[k]);
        if error.Some? {
          ExecuteStopsAt(fed, nodes, routes, k + 1, |nodes|);
          return Raised(error.value);
        }
      }
      r := Ran(Results(values));
    }

    /** Zeroes every buffer and stores the initial values again. */
    method Reset()
      requires Valid()
      modifies this`values
      ensures Valid()
      ensures values == WithInitial(Zeroed(old(values), zeroed), pipeline.initialValues)
    {
      ghost var start := values;
      var rest := values.cells.Keys;
      while rest != {}
        invariant rest <= start.cells.Keys == values.cells.Keys && values.groups == start.groups
        invariant forall s | s in start.cells ::
            values.cells[s] == if s in rest then start.cells[s] else zeroed(start.cells[s])
      {
        var slot :| slot in rest;
        values := values.(cells := values.cells[slot := zeroed(values.cells[slot])]);
        rest := rest - {slot};
      }
      assert values == Zeroed(start, zeroed);
      KeptFits(start, values, nodes, pipeline.initialValues);
      var filled := Prepopulate(values, pipeline.initialValues);
      KeptFits(values, filled.value, nodes, pipeline.initialValues);
      values := filled.value;
    }
  }

  function Zeroed<V>(values: Slots<V>, zeroed: V -> V): (r: Slots<V>)
    ensures Grows(values, r)
  {
    values.(cells := map s | s in values.cells :: zeroed(values.cells[s]))
  }

  lemma KeptFits<V>(before: Slots<V>, after: Slots<V>, nodes: seq<Node<V>>, initial: map<string, V>)
    requires Grows(before, after) && Covers(before, nodes) && InitialValuesFit(before, initial)
    ensures Covers(after, nodes) && InitialValuesFit(after, initial)
  {
    CoversGrows(before, after, nodes);
    assert forall key | key in initial :: SlotExists(before, key) ==> SlotExists(after, key);
  }

  lemma {:induction false} FeedStopsAt<V>(values: Slots<V>, items: seq<(string, V)>, k: nat, n: nat)
    requires k <= n <= |items| && Feed(values, items, k).error.Some?
    ensures Feed(values, items, n) == Feed(values, items, k)
  {
    if k < n { FeedStopsAt(values, items, k, n - 1); }
  }

  lemma {:induction false} ExecuteStopsAt<V>(values: Slots<V>, nodes: seq<Node<V>>, routes: Routes, k: nat, n: nat)
    requires k <= n <= |nodes| && Covers(values, nodes) && RoutesUsable(nodes, routes, values.groups)
    requires Execute(values, nodes, routes, k).error.Some?
    ensures Execute(values, nodes, routes, n) == Execute(values, nodes, routes, k)
  {
    if k < n { ExecuteStopsAt(values, nodes, routes, k, n - 1); }
  }
}
