/** The names under which a replayed pipeline hands back its results. */
module PipelineResults {
  import opened Ports
  import opened Inference
  import opened Dataflow
  import opened InferenceRuntime
  import opened PipelineGraph
  import opened PipelineExport
  import opened EndToEnd
  import opened PipelineReplay

  /** The names in the result slot. */
  function ResultNames<V>(values: Slots<V>): set<string> {
    set slot | slot in values.cells && slot.0 == OUT :: slot.1
  }

  /** The names supplied for the result slot itself, by the first `n` items. */
  function SuppliedNames<V>(items: Supply<V>, n: nat): (r: set<string>)
    requires n <= |items|
  {
    if n == 0 then {}
    else
      var slot := ParseKey(items[n - 1].0);
      SuppliedNames(items, n - 1) + if slot.Some? && slot.value.0 == OUT then {slot.value.1} else {}
  }

  function AllSuppliedNames<V>(runs: seq<Supply<V>>, n: nat): set<string>
    requires n <= |runs|
  {
    if n == 0 then {} else AllSuppliedNames(runs, n - 1) + SuppliedNames(runs[n - 1], |runs[n - 1]|)
  }

  /** The names of the outputs that nothing consumes. */
  ghost function OpenNames<V(!new)>(sys: System<V>): set<string>
    requires WellFormed(sys)
  {
    set r | r in sys.results :: ResultSlot(sys.nodes, r).1
  }

  lemma PutNames<V>(values: Slots<V>, slot: Slot, v: V)
    requires slot.0 in values.groups
    ensures ResultNames(Put(values, slot, v)) == ResultNames(values) + if slot.0 == OUT then {slot.1} else {}
  {
    var after := Put(values, slot, v);
    forall name ensures name in ResultNames(after) <==> name in ResultNames(values) || (slot.0 == OUT && name == slot.1) {
      NameIsSlot(after, name);
      NameIsSlot(values, name);
    }
  }

  lemma NameIsSlot<V>(values: Slots<V>, name: string)
    ensures name in ResultNames(values) <==> (OUT, name) in values.cells
  {
    if name in ResultNames(values) {
      var slot :| slot in values.cells && slot.0 == OUT && slot.1 == name;
      assert slot == (OUT, name);
    }
    if (OUT, name) in values.cells { assert (OUT, name).1 == name; }
  }

  lemma {:induction false} FeedNames<V>(values: Slots<V>, items: Supply<V>, n: nat)
    requires n <= |items| && Feed(values, items, n).error.None?
    ensures ResultNames(Feed(values, items, n).values) == ResultNames(values) + SuppliedNames(items, n)
  {
    if n > 0 {
      FeedNames(values, items, n - 1);
      PutNames(Feed(values, items, n - 1).values, ParseKey(items[n - 1].0).value, items[n - 1].1);
    }
  }

  /** Every result target of the node's routes is in place. */
  predicate TargetsHeld<V>(values: Slots<V>, node: Node<V>, routes: Routes, groups: set<string>)
    requires HasRoutes(node, routes, groups)
  {
    forall o | 0 <= o < |node.outputs| :: Held(values, routes[OutputPort(node, o)])
  }

  predicate Held<V>(values: Slots<V>, targets: seq<Slot>) {
    forall t | t in targets && t.0 == OUT :: t in values.cells
  }

  lemma {:induction false} PushNames<V>(values: Slots<V>, targets: seq<Slot>, v: V, n: nat)
    requires n <= |targets| && TargetsExist(targets, values.groups) && Held(values, targets)
    ensures ResultNames(Push(values, targets, v, n)) == ResultNames(values)
  {
    if n > 0 {
      var t := targets[n - 1];
      PushNames(values, targets, v, n - 1);
      PutNames(Push(values, targets, v, n - 1), t, v);
      if t.0 == OUT {
        assert t == (OUT, t.1);
        NameIsSlot(values, t.1);
      }
    }
  }

  lemma {:induction false} PublishNames<V>(values: Slots<V>, routes: Routes, node: Node<V>, outs: seq<V>, n: nat)
    requires n <= |node.outputs| == |outs| && HasRoutes(node, routes, values.groups)
    requires TargetsHeld(values, node, routes, values.groups)
    ensures ResultNames(Publish(values, routes, node, outs, n)) == ResultNames(values)
  {
    if n > 0 {
      var before, targets := Publish(values, routes, node, outs, n - 1), routes[OutputPort(node, n - 1)];
      PublishNames(values, routes, node, outs, n - 1);
      assert Held(values, targets);
      PushNames(before, targets, outs[n - 1], |targets|);
    }
  }

  predicate AllHeld<V>(values: Slots<V>, nodes: seq<Node<V>>, routes: Routes)
    requires RoutesUsable(nodes, routes, values.groups)
  {
    forall k {:trigger HasRoutes(nodes[k], routes, values.groups)} | 0 <= k < |nodes| ::
      HasRoutes(nodes[k], routes, values.groups) && TargetsHeld(values, nodes[k], routes, values.groups)
  }

  lemma HeldStays<V>(before: Slots<V>, after: Slots<V>, nodes: seq<Node<V>>, routes: Routes)
    requires RoutesUsable(nodes, routes, before.groups) && Grows(before, after) && AllHeld(before, nodes, routes)
    ensures AllHeld(after, nodes, routes)
  {
    forall k | 0 <= k < |nodes|
      ensures HasRoutes(nodes[k], routes, after.groups) && TargetsHeld(after, nodes[k], routes, after.groups)
    {
      assert HasRoutes(nodes[k], routes, before.groups);
      forall o | 0 <= o < |nodes[k].outputs| ensures Held(after, routes[OutputPort(nodes[k], o)]) {
        assert Held(before, routes[OutputPort(nodes[k], o)]);
      }
    }
  }

  lemma {:induction false} ExecuteNames<V>(values: Slots<V>, nodes: seq<Node<V>>, routes: Routes, n: nat)
    requires n <= |nodes| && Covers(values, nodes) && RoutesUsable(nodes, routes, values.groups)
    requires AllHeld(values, nodes, routes) && Execute(values, nodes, routes, n).error.None?
    ensures ResultNames(Execute(values, nodes, routes, n).values) == ResultNames(values)
  {
    if n > 0 {
      var prev, node := Execute(values, nodes, routes, n - 1).values, nodes[n - 1];
      ExecuteNames(values, nodes, routes, n - 1);
      ExecuteUnfolds(values, nodes, routes, n - 1, prev);
      HeldStays(values, prev, nodes, routes);
      PublishNames(prev, routes, node, Call(node, Gather(prev, node)).values, |node.outputs|);
    }
  }

  lemma StepNames<V>(values: Slots<V>, nodes: seq<Node<V>>, routes: Routes, items: Supply<V>)
    requires Covers(values, nodes) && RoutesUsable(nodes, routes, values.groups) && AllHeld(values, nodes, routes)
    requires Step(values, nodes, routes, items).error.None?
    ensures ResultNames(Step(values, nodes, routes, items).values) ==
      ResultNames(values) + SuppliedNames(items, |items|)
  {
    var fed := Feed(values, items, |items|).values;
    FeedNames(values, items, |items|);
    CoversGrows(values, fed, nodes);
    HeldStays(values, fed, nodes, routes);
    ExecuteNames(fed, nodes, routes, |nodes|);
  }

  lemma {:induction false} ReplayNames<V>(
    values: Slots<V>, nodes: seq<Node<V>>, routes: Routes, runs: seq<Supply<V>>, n: nat)
    requires n <= |runs| && Covers(values, nodes) && RoutesUsable(nodes, routes, values.groups)
    requires AllHeld(values, nodes, routes) && Replay(values, nodes, routes, runs, n).error.None?
    ensures ResultNames(Replay(values, nodes, routes, runs, n).values) == ResultNames(values) + AllSuppliedNames(runs, n)
  {
    if n > 0 {
      var prev := Replay(values, nodes, routes, runs, n - 1).values;
      ReplayNames(values, nodes, routes, runs, n - 1);
      CoversGrows(values, prev, nodes);
      HeldStays(values, prev, nodes, routes);
      StepNames(prev, nodes, routes, runs[n - 1]);
    }
  }

  /** A supplied name holds no slash, and the name of an output always does. */
  lemma {:induction false} SuppliedArePlain<V>(items: Supply<V>, n: nat)
    requires n <= |items|
    ensures forall name | name in SuppliedNames(items, n) :: '/' !in name
  {
    if n > 0 {
      SuppliedArePlain(items, n - 1);
      var key := items[n - 1].0;
      if ParseKey(key).Some? {
        ParsedKeyIsWritten(key);
        KeyRoundTrip(ParseKey(key).value.0, ParseKey(key).value.1);
      }
    }
  }

  lemma {:induction false} AllSuppliedArePlain<V>(runs: seq<Supply<V>>, n: nat)
    requires n <= |runs|
    ensures forall name | name in AllSuppliedNames(runs, n) :: '/' !in name
  {
    if n > 0 {
      AllSuppliedArePlain(runs, n - 1);
      SuppliedArePlain(runs[n - 1], |runs[n - 1]|);
    }
  }

  lemma OpenNameHasSlash<V(!new)>(sys: System<V>, name: string)
    requires WellFormed(sys) && name in OpenNames(sys)
    ensures '/' in name
  {
    var r :| r in sys.results && ResultSlot(sys.nodes, r).1 == name;
    assert name[|sys.nodes[r.node].name|] == '/';
  }

  // ----- what loading puts there

  /** A loaded description has one result for each output that nothing consumes. */
  lemma LoadedNames<V(!new)>(nodes: seq<TracedNode<V>>, p: Pipeline<V>, blank: TensorType -> V)
    requires GraphOk(nodes) && Describes(nodes, p) && WellFormed(Intended(nodes, blank))
    ensures ResultNames(BlankSlots(RuntimeNodes(nodes), p, blank)) == OpenNames(Intended(nodes, blank))
  {
    var sys, values := Intended(nodes, blank), BlankSlots(RuntimeNodes(nodes), p, blank);
    forall name ensures name in ResultNames(values) <==> (OUT, name) in ResultSlots(p) {
      NameIsSlot(values, name);
      NoInputIsResult(sys, name);
    }
    forall r | r in sys.results ensures (OUT, ResultSlot(sys.nodes, r).1) in ResultSlots(p) {
      OpenIsListed(nodes, p, blank, r);
    }
    forall n, o | n in p.outputs && o in p.outputs[n] ensures PortKey(n, o) in OpenNames(sys) {
      ListedIsOpen(nodes, p, blank, n, o);
    }
  }

  lemma NoInputIsResult<V(!new)>(sys: System<V>, name: string)
    requires WellFormed(sys)
    ensures (OUT, name) !in InputSlots(sys.nodes)
  {
    forall k, j | 0 <= k < |sys.nodes| && 0 <= j < |sys.nodes[k].inputs|
      ensures InputSlot(sys.nodes[k], j).0 != OUT
    {
      assert NodeNameOk(sys.nodes[k]);
    }
  }

  lemma OpenIsListed<V(!new)>(nodes: seq<TracedNode<V>>, p: Pipeline<V>, blank: TensorType -> V, r: Place)
    requires GraphOk(nodes) && Describes(nodes, p) && WellFormed(Intended(nodes, blank))
    requires r in Intended(nodes, blank).results
    ensures (OUT, ResultSlot(Intended(nodes, blank).nodes, r).1) in ResultSlots(p)
  {
    PlacesCorrespond(nodes, r);
    ResultIntended(nodes, blank, r);
    var s := ToGraph(nodes, r);
    assert DescribesOutput(nodes, p, s);
    var n, o := nodes[s.node].name, nodes[s.node].outputs[s.port].name;
    CountAbsent(p.outputs[n], o);
  }

  lemma ListedIsOpen<V(!new)>(nodes: seq<TracedNode<V>>, p: Pipeline<V>, blank: TensorType -> V, n: string, o: string)
    requires GraphOk(nodes) && Describes(nodes, p) && WellFormed(Intended(nodes, blank))
    requires n in p.outputs && o in p.outputs[n]
    ensures PortKey(n, o) in OpenNames(Intended(nodes, blank))
  {
    assert ListedOutput(nodes, n, o);
    var s :| IsOutput(nodes, s) && nodes[s.node].name == n && nodes[s.node].outputs[s.port].name == o;
    assert DescribesOutput(nodes, p, s);
    CountAbsent(p.outputs[n], o);
    GraphPlaces(nodes, s);
    var r := ToRun(nodes, s);
    PlacesCorrespond(nodes, r);
    ResultIntended(nodes, blank, r);
    assert ResultSlot(Intended(nodes, blank).nodes, r).1 == PortKey(n, o);
  }

  lemma RoutesAreHeld<V(!new)>(sys: System<V>, values: Slots<V>, routes: Routes)
    requires WellFormed(sys) && RoutesAreWires(sys, routes) && RoutesUsable(sys.nodes, routes, values.groups)
    requires OpenNames(sys) <= ResultNames(values)
    ensures AllHeld(values, sys.nodes, routes)
  {
    forall k | 0 <= k < |sys.nodes|
      ensures HasRoutes(sys.nodes[k], routes, values.groups) && TargetsHeld(values, sys.nodes[k], routes, values.groups)
    {
      assert HasRoutes(sys.nodes[k], routes, values.groups);
      forall o | 0 <= o < |sys.nodes[k].outputs| ensures Held(values, routes[OutputPort(sys.nodes[k], o)]) {
        RouteIsHeld(sys, values, routes, Place(k, o));
      }
    }
  }

  lemma RouteIsHeld<V(!new)>(sys: System<V>, values: Slots<V>, routes: Routes, r: Place)
    requires WellFormed(sys) && OutputPlace(sys.nodes, r) && RoutesAreWires(sys, routes)
    requires OpenNames(sys) <= ResultNames(values)
    ensures OutputPort(sys.nodes[r.node], r.port) in routes && Held(values, routes[OutputPort(sys.nodes[r.node], r.port)])
  {
    assert RouteIsWires(sys, routes, r);
    InputSlotsAreNotResults(sys);
    forall t | t in routes[OutputPort(sys.nodes[r.node], r.port)] && t.0 == OUT ensures t in values.cells {
      assert IsConsumer(sys, r, t);
      assert t == ResultSlot(sys.nodes, r) && t.1 in OpenNames(sys);
      NameIsSlot(values, t.1);
    }
  }

  /** After every run, the results are handed back under exactly the names of the outputs that nothing
      consumes, together with whatever names the caller supplied for the result slot itself; the two
      never coincide. */
  lemma PipelineResultNames<V(!new)>(
    nodes: seq<TracedNode<V>>, p: Pipeline<V>, blank: TensorType -> V, tables: LoadResult<V>,
    runs: seq<Supply<V>>, n: nat)
    requires GraphOk(nodes) && TypesAgree(nodes) && Describes(nodes, p) && PlainEdges(nodes)
    requires ModelsTotal(nodes) && HasOutputs(RuntimeNodes(nodes))
    requires FlowsParse(p) && tables.Loaded?
    requires tables.values == WithInitial(BlankSlots(RuntimeNodes(nodes), p, blank), p.initialValues)
    requires forall port :: Lookup(tables.routes, port) == ExpectedRoute(p, port)
    requires n <= |runs| && forall t | 0 <= t < |runs| :: GoodKeys(runs[t], tables.values.groups)
    ensures WellFormed(Intended(nodes, blank)) && Covers(tables.values, RuntimeNodes(nodes))
    ensures RoutesUsable(RuntimeNodes(nodes), tables.routes, tables.values.groups)
    ensures
      var sys := Intended(nodes, blank);
      Results(Replay(tables.values, sys.nodes, tables.routes, runs, n).values).Keys ==
        OpenNames(sys) + AllSuppliedNames(runs, n)
    ensures OpenNames(Intended(nodes, blank)) !! AllSuppliedNames(runs, n)
  {
    var sys := Intended(nodes, blank);
    LoadedStartsOver(nodes, p, blank, tables, runs);
    PipelineComputesDataflow(nodes, p, blank, tables, runs, n);
    LoadedRoutesAreWires(nodes, p, blank, tables.routes);
    LoadedNames(nodes, p, blank);
    assert ResultNames(tables.values) == OpenNames(sys);
    RoutesAreHeld(sys, tables.values, tables.routes);
    ReplayNames(tables.values, sys.nodes, tables.routes, runs, n);
    AllSuppliedArePlain(runs, n);
    forall name | name in OpenNames(sys) ensures '/' in name { OpenNameHasSlash(sys, name); }
  }
}
