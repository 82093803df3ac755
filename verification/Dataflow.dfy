/** The meaning of a pipeline, independent of how it is run: synchronous dataflow with one
    unit delay on every edge that does not go forward in completion order. The push loop of
    the runtime is proved to compute it over whole runs. */
module Dataflow {
  import opened Ports
  import opened Inference

  /** A port of a node, by position. */
  datatype Place = Place(node: nat, port: nat)

  datatype System<!V> = System(
    nodes: seq<Node<V>>,
    wire: map<Place, Place>,      // input place -> the output place it is fed from
    results: set<Place>,          // outputs published under "==out=="
    start: map<Place, V>)         // what each input slot holds before the first step

  type Supply<V> = seq<(string, V)>

  predicate InputPlace<V>(nodes: seq<Node<V>>, w: Place) {
    w.node < |nodes| && w.port < |nodes[w.node].inputs|
  }

  predicate OutputPlace<V>(nodes: seq<Node<V>>, w: Place) {
    w.node < |nodes| && w.port < |nodes[w.node].outputs|
  }

  /** A pure node answers every call of the right arity. */
  ghost predicate Total<V(!new)>(node: Node<V>) {
    forall ins: seq<V> | |ins| == |node.inputs| :: Call(node, ins).Returns?
  }

  predicate NodesDiffer<V>(nodes: seq<Node<V>>, a: nat, b: nat)
    requires a < |nodes| && b < |nodes|
  {
    nodes[a].name != nodes[b].name
  }

  predicate DistinctNames(ports: seq<PortDesc>) {
    forall a, b | 0 <= a < b < |ports| :: ports[a].name != ports[b].name
  }

  predicate NodeNameOk<V>(node: Node<V>) {
    node.name != OUT && '/' !in node.name && DistinctNames(node.inputs) && DistinctNames(node.outputs)
  }

  predicate NamesOk<V>(nodes: seq<Node<V>>) {
    && (forall k {:trigger NodeNameOk(nodes[k])} | 0 <= k < |nodes| :: NodeNameOk(nodes[k]))
    && (forall a: nat, b: nat {:trigger NodesDiffer(nodes, a, b)} | a < b < |nodes| :: NodesDiffer(nodes, a, b))
  }

  ghost predicate WellFormed<V(!new)>(sys: System<V>) {
    && NamesOk(sys.nodes)
    && (forall k {:trigger Total(sys.nodes[k])} | 0 <= k < |sys.nodes| :: Total(sys.nodes[k]))
    && (forall w | w in sys.wire :: InputPlace(sys.nodes, w) && OutputPlace(sys.nodes, sys.wire[w]))
    && (forall r | r in sys.results :: OutputPlace(sys.nodes, r))
    && (forall k: nat, j: nat | k < |sys.nodes| && j < |sys.nodes[k].inputs| :: Place(k, j) in sys.start)
  }

  lemma NodesApart<V>(nodes: seq<Node<V>>, a: nat, b: nat)
    requires NamesOk(nodes) && a < |nodes| && b < |nodes| && nodes[a].name == nodes[b].name
    ensures a == b && NodeNameOk(nodes[a])
  {
    assert NodeNameOk(nodes[a]);
    assert a < b ==> NodesDiffer(nodes, a, b);
    assert b < a ==> NodesDiffer(nodes, b, a);
  }

  function SlotOf<V>(nodes: seq<Node<V>>, w: Place): Slot
    requires InputPlace(nodes, w)
  {
    InputSlot(nodes[w.node], w.port)
  }

  function ResultSlot<V>(nodes: seq<Node<V>>, r: Place): Slot
    requires OutputPlace(nodes, r)
  {
    (OUT, PortKey(nodes[r.node].name, nodes[r.node].outputs[r.port].name))
  }

  // ----- the specification

  /** The caller's value for a slot: the last item whose key reads as that slot. */
  function Supplied<V>(items: Supply<V>, slot: Slot, n: nat): Option<V>
    requires n <= |items|
  {
    if n == 0 then None
    else if ParseKey(items[n - 1].0) == Some(slot) then Some(items[n - 1].1)
    else Supplied(items, slot, n - 1)
  }

  /** What an input reads at step `t`: an edge from an earlier node delivers this step's value;
      otherwise a supplied value wins; otherwise an edge delivers the previous step's value and an
      unconnected input keeps what it had. Step 0 falls back on the stored initial value. */
  ghost function Read<V(!new)>(sys: System<V>, runs: seq<Supply<V>>, t: nat, w: Place): V
    requires WellFormed(sys) && t < |runs| && InputPlace(sys.nodes, w)
    decreases t, w.node, 0
  {
    if w in sys.wire && sys.wire[w].node < w.node then
      Emit(sys, runs, t, sys.wire[w].node)[sys.wire[w].port]
    else
      match Supplied(runs[t], SlotOf(sys.nodes, w), |runs[t]|)
      case Some(v) => v
      case None =>
        if t == 0 then sys.start[w]
        else if w in sys.wire then Emit(sys, runs, t - 1, sys.wire[w].node)[sys.wire[w].port]
        else Read(sys, runs, t - 1, w)
  }

  /** What a node emits at step `t`: its model applied to what its inputs read. */
  ghost function Emit<V(!new)>(sys: System<V>, runs: seq<Supply<V>>, t: nat, k: nat): (outs: seq<V>)
    requires WellFormed(sys) && t < |runs| && k < |sys.nodes|
    ensures |outs| == |sys.nodes[k].outputs|
    decreases t, k, 2
  {
    assert Total(sys.nodes[k]);
    Call(sys.nodes[k], Reads(sys, runs, t, k)).values
  }

  ghost function Reads<V(!new)>(sys: System<V>, runs: seq<Supply<V>>, t: nat, k: nat): (ins: seq<V>)
    requires WellFormed(sys) && t < |runs| && k < |sys.nodes|
    ensures |ins| == |sys.nodes[k].inputs|
    decreases t, k, 1
  {
    seq(|sys.nodes[k].inputs|, j requires 0 <= j < |sys.nodes[k].inputs| => Read(sys, runs, t, Place(k, j)))
  }

  // ----- how the runtime's slots relate to it

  /** The slot of input `w` once the first `k` nodes of step `t` have run. */
  ghost function Pending<V(!new)>(sys: System<V>, runs: seq<Supply<V>>, t: nat, k: nat, w: Place): V
    requires WellFormed(sys) && t < |runs| && k <= |sys.nodes| && InputPlace(sys.nodes, w)
  {
    if w in sys.wire && sys.wire[w].node < k then
      Emit(sys, runs, t, sys.wire[w].node)[sys.wire[w].port]
    else
      match Supplied(runs[t], SlotOf(sys.nodes, w), |runs[t]|)
      case Some(v) => v
      case None => Carried(sys, runs, t, w)
  }

  /** The slot of input `w` before step `t`. */
  ghost function Carried<V(!new)>(sys: System<V>, runs: seq<Supply<V>>, t: nat, w: Place): V
    requires WellFormed(sys) && t <= |runs| && InputPlace(sys.nodes, w)
  {
    if t == 0 then sys.start[w]
    else if w in sys.wire then Emit(sys, runs, t - 1, sys.wire[w].node)[sys.wire[w].port]
    else Read(sys, runs, t - 1, w)
  }

  ghost predicate HoldsCarried<V(!new)>(sys: System<V>, runs: seq<Supply<V>>, t: nat, values: Slots<V>, w: Place)
    requires WellFormed(sys) && t <= |runs| && InputPlace(sys.nodes, w)
  {
    At(values, SlotOf(sys.nodes, w)) == Some(Carried(sys, runs, t, w))
  }

  /** The slots between two steps. */
  ghost predicate Between<V(!new)>(sys: System<V>, runs: seq<Supply<V>>, t: nat, values: Slots<V>)
    requires WellFormed(sys) && t <= |runs|
  {
    && Covers(values, sys.nodes)
    && forall w {:trigger HoldsCarried(sys, runs, t, values, w)} | InputPlace(sys.nodes, w) ::
      HoldsCarried(sys, runs, t, values, w)
  }

  ghost predicate HoldsPending<V(!new)>(
    sys: System<V>, runs: seq<Supply<V>>, t: nat, k: nat, values: Slots<V>, w: Place)
    requires WellFormed(sys) && t < |runs| && k <= |sys.nodes| && InputPlace(sys.nodes, w)
  {
    At(values, SlotOf(sys.nodes, w)) == Some(Pending(sys, runs, t, k, w))
  }

  ghost predicate HoldsResult<V(!new)>(sys: System<V>, runs: seq<Supply<V>>, t: nat, values: Slots<V>, r: Place)
    requires WellFormed(sys) && t < |runs| && OutputPlace(sys.nodes, r)
  {
    At(values, ResultSlot(sys.nodes, r)) == Some(Emit(sys, runs, t, r.node)[r.port])
  }

  /** The slots inside step `t`, once the first `k` nodes have run. */
  ghost predicate Within<V(!new)>(sys: System<V>, runs: seq<Supply<V>>, t: nat, k: nat, values: Slots<V>)
    requires WellFormed(sys) && t < |runs| && k <= |sys.nodes|
  {
    && Covers(values, sys.nodes)
    && (forall w {:trigger HoldsPending(sys, runs, t, k, values, w)} | InputPlace(sys.nodes, w) ::
          HoldsPending(sys, runs, t, k, values, w))
    && ResultsUpTo(sys, runs, t, k, values)
  }

  ghost predicate ResultsUpTo<V(!new)>(sys: System<V>, runs: seq<Supply<V>>, t: nat, k: nat, values: Slots<V>)
    requires WellFormed(sys) && t < |runs| && k <= |sys.nodes|
  {
    forall r {:trigger HoldsResult(sys, runs, t, values, r)} | r in sys.results && r.node < k ::
      HoldsResult(sys, runs, t, values, r)
  }

  /** Output `r` is pushed to the inputs fed from it, and to its result slot if it has one, and nowhere else. */
  ghost predicate RouteIsWires<V(!new)>(sys: System<V>, routes: Routes, r: Place)
    requires WellFormed(sys) && OutputPlace(sys.nodes, r)
  {
    && var port := OutputPort(sys.nodes[r.node], r.port);
    && port in routes
    && (forall t | t in routes[port] :: IsConsumer(sys, r, t))
    && (forall w | w in sys.wire && sys.wire[w] == r :: SlotOf(sys.nodes, w) in routes[port])
    && (r in sys.results ==> ResultSlot(sys.nodes, r) in routes[port])
  }

  ghost predicate RoutesAreWires<V(!new)>(sys: System<V>, routes: Routes)
    requires WellFormed(sys)
  {
    forall r {:trigger RouteIsWires(sys, routes, r)} | OutputPlace(sys.nodes, r) :: RouteIsWires(sys, routes, r)
  }

  ghost predicate IsConsumer<V(!new)>(sys: System<V>, r: Place, t: Slot)
    requires WellFormed(sys) && OutputPlace(sys.nodes, r)
  {
    || (r in sys.results && t == ResultSlot(sys.nodes, r))
    || (exists w :: w in sys.wire && sys.wire[w] == r && t == SlotOf(sys.nodes, w))
  }

  predicate GoodKeys<V>(items: Supply<V>, groups: set<string>) {
    forall k | 0 <= k < |items| ::
      ParseKey(items[k].0).Some? && ParseKey(items[k].0).value.0 in groups
  }

  lemma SlotsInjective<V(!new)>(sys: System<V>, a: Place, b: Place)
    requires WellFormed(sys) && InputPlace(sys.nodes, a) && InputPlace(sys.nodes, b)
    requires SlotOf(sys.nodes, a) == SlotOf(sys.nodes, b)
    ensures a == b
  {
    NodesApart(sys.nodes, a.node, b.node);
  }

  lemma ResultSlotsInjective<V(!new)>(sys: System<V>, a: Place, b: Place)
    requires WellFormed(sys) && OutputPlace(sys.nodes, a) && OutputPlace(sys.nodes, b)
    requires ResultSlot(sys.nodes, a) == ResultSlot(sys.nodes, b)
    ensures a == b
  {
    assert NodeNameOk(sys.nodes[a.node]) && NodeNameOk(sys.nodes[b.node]);
    KeyInjective(sys.nodes[a.node].name, sys.nodes[a.node].outputs[a.port].name,
                 sys.nodes[b.node].name, sys.nodes[b.node].outputs[b.port].name);
    NodesApart(sys.nodes, a.node, b.node);
  }

  lemma InputSlotsAreNotResults<V(!new)>(sys: System<V>)
    requires WellFormed(sys)
    ensures forall w | InputPlace(sys.nodes, w) :: SlotOf(sys.nodes, w).0 != OUT
  {
    forall w | InputPlace(sys.nodes, w) ensures SlotOf(sys.nodes, w).0 != OUT {
      assert NodeNameOk(sys.nodes[w.node]);
    }
  }

  /** Two outputs never push into the same slot. */
  lemma ConsumersDisjoint<V(!new)>(sys: System<V>, a: Place, b: Place, t: Slot)
    requires WellFormed(sys) && OutputPlace(sys.nodes, a) && OutputPlace(sys.nodes, b)
    requires IsConsumer(sys, a, t) && IsConsumer(sys, b, t)
    ensures a == b
  {
    if t.0 == OUT {
      InputSlotsAreNotResults(sys);
      ResultSlotsInjective(sys, a, b);
    } else {
      var w :| w in sys.wire && sys.wire[w] == a && t == SlotOf(sys.nodes, w);
      var x :| x in sys.wire && sys.wire[x] == b && t == SlotOf(sys.nodes, x);
      SlotsInjective(sys, w, x);
    }
  }

  // ----- feeding

  lemma {:induction false} FeedEffect<V>(values: Slots<V>, items: Supply<V>, n: nat, slot: Slot)
    requires n <= |items| && GoodKeys(items, values.groups)
    requires At(values, slot).Some?
    ensures Feed(values, items, n).error.None?
    ensures At(Feed(values, items, n).values, slot) ==
            match Supplied(items, slot, n) case Some(v) => Some(v) case None => At(values, slot)
  {
    if n > 0 { FeedEffect(values, items, n - 1, slot); }
  }

  lemma {:induction false} FeedSucceeds<V>(values: Slots<V>, items: Supply<V>, n: nat)
    requires n <= |items|
    ensures GoodKeys(items[..n], values.groups) <==> Feed(values, items, n).error.None?
  {
    if n > 0 {
      FeedSucceeds(values, items, n - 1);
      assert items[..n] == items[..n - 1] + [items[n - 1]];
    }
  }

  lemma FeedStep<V(!new)>(sys: System<V>, runs: seq<Supply<V>>, t: nat, values: Slots<V>)
    requires WellFormed(sys) && t < |runs| && Between(sys, runs, t, values)
    requires GoodKeys(runs[t], values.groups)
    ensures Feed(values, runs[t], |runs[t]|).error.None?
    ensures Within(sys, runs, t, 0, Feed(values, runs[t], |runs[t]|).values)
  {
    var fed := Feed(values, runs[t], |runs[t]|);
    FeedSucceeds(values, runs[t], |runs[t]|);
    assert runs[t][..|runs[t]|] == runs[t];
    CoversGrows(values, fed.values, sys.nodes);
    forall w | InputPlace(sys.nodes, w) ensures HoldsPending(sys, runs, t, 0, fed.values, w) {
      assert HoldsCarried(sys, runs, t, values, w);
      FeedEffect(values, runs[t], |runs[t]|, SlotOf(sys.nodes, w));
    }
  }

  // ----- running one node

  lemma GatherReads<V(!new)>(sys: System<V>, runs: seq<Supply<V>>, t: nat, k: nat, values: Slots<V>)
    requires WellFormed(sys) && t < |runs| && k < |sys.nodes| && Within(sys, runs, t, k, values)
    requires HasSlots(values, sys.nodes[k])
    ensures Gather(values, sys.nodes[k]) == Reads(sys, runs, t, k)
  {
    var ins, want := Gather(values, sys.nodes[k]), Reads(sys, runs, t, k);
    forall j | 0 <= j < |ins| ensures ins[j] == want[j] {
      var w := Place(k, j);
      assert HoldsPending(sys, runs, t, k, values, w);
      assert Pending(sys, runs, t, k, w) == Read(sys, runs, t, w);
    }
  }

  /** Output `r` reaches the slot of input `w` exactly when `w` is fed from it. */
  lemma RouteReachesSlot<V(!new)>(sys: System<V>, routes: Routes, r: Place, w: Place)
    requires WellFormed(sys) && OutputPlace(sys.nodes, r) && InputPlace(sys.nodes, w)
    requires RouteIsWires(sys, routes, r)
    ensures SlotOf(sys.nodes, w) in routes[OutputPort(sys.nodes[r.node], r.port)] <==> (w in sys.wire && sys.wire[w] == r)
  {
    var slot := SlotOf(sys.nodes, w);
    InputSlotsAreNotResults(sys);
    if slot in routes[OutputPort(sys.nodes[r.node], r.port)] {
      assert IsConsumer(sys, r, slot);
      var x :| x in sys.wire && sys.wire[x] == r && slot == SlotOf(sys.nodes, x);
      SlotsInjective(sys, w, x);
    }
  }

  lemma RouteReachesResult<V(!new)>(sys: System<V>, routes: Routes, q: Place, r: Place)
    requires WellFormed(sys) && OutputPlace(sys.nodes, q) && r in sys.results
    requires RouteIsWires(sys, routes, q)
    ensures ResultSlot(sys.nodes, r) in routes[OutputPort(sys.nodes[q.node], q.port)] <==> r == q
  {
    var slot := ResultSlot(sys.nodes, r);
    if slot in routes[OutputPort(sys.nodes[q.node], q.port)] {
      assert IsConsumer(sys, q, slot) && IsConsumer(sys, r, slot);
      ConsumersDisjoint(sys, q, r, slot);
    }
  }

  lemma NodeStepSlots<V(!new)>(
    sys: System<V>, runs: seq<Supply<V>>, t: nat, k: nat, values: Slots<V>, routes: Routes, w: Place)
    requires WellFormed(sys) && t < |runs| && k < |sys.nodes| && InputPlace(sys.nodes, w)
    requires HoldsPending(sys, runs, t, k, values, w)
    requires HasRoutes(sys.nodes[k], routes, values.groups) && RoutesAreWires(sys, routes)
    ensures var node := sys.nodes[k];
      HoldsPending(sys, runs, t, k + 1, Publish(values, routes, node, Emit(sys, runs, t, k), |node.outputs|), w)
  {
    var node := sys.nodes[k];
    var slot := SlotOf(sys.nodes, w);
    var o := if w in sys.wire && sys.wire[w].node == k then Some(sys.wire[w].port) else None;
    forall i: nat | i < |node.outputs| ensures slot in routes[OutputPort(node, i)] <==> o == Some(i) {
      assert RouteIsWires(sys, routes, Place(k, i));
      RouteReachesSlot(sys, routes, Place(k, i), w);
    }
    PublishAt(values, routes, node, Emit(sys, runs, t, k), |node.outputs|, slot, o);
  }

  lemma NodeStepResults<V(!new)>(
    sys: System<V>, runs: seq<Supply<V>>, t: nat, k: nat, values: Slots<V>, routes: Routes, r: Place)
    requires WellFormed(sys) && t < |runs| && k < |sys.nodes|
    requires r in sys.results && (r.node == k || HoldsResult(sys, runs, t, values, r))
    requires HasRoutes(sys.nodes[k], routes, values.groups) && RoutesAreWires(sys, routes)
    ensures var node := sys.nodes[k];
      HoldsResult(sys, runs, t, Publish(values, routes, node, Emit(sys, runs, t, k), |node.outputs|), r)
  {
    var node := sys.nodes[k];
    var slot := ResultSlot(sys.nodes, r);
    var o := if r.node == k then Some(r.port) else None;
    forall i: nat | i < |node.outputs| ensures slot in routes[OutputPort(node, i)] <==> o == Some(i) {
      assert RouteIsWires(sys, routes, Place(k, i));
      RouteReachesResult(sys, routes, Place(k, i), r);
    }
    PublishAt(values, routes, node, Emit(sys, runs, t, k), |node.outputs|, slot, o);
  }

  lemma NodeRuns<V(!new)>(sys: System<V>, runs: seq<Supply<V>>, t: nat, k: nat, values: Slots<V>, routes: Routes)
    requires WellFormed(sys) && t < |runs| && k < |sys.nodes| && Within(sys, runs, t, k, values)
    requires HasSlots(values, sys.nodes[k]) && HasRoutes(sys.nodes[k], routes, values.groups)
    requires sys.nodes[k].outputs != []
    ensures RunNode(values, sys.nodes[k], routes) ==
      Outcome(Publish(values, routes, sys.nodes[k], Emit(sys, runs, t, k), |sys.nodes[k].outputs|), None)
  {
    assert Total(sys.nodes[k]);
    assert OutputPort(sys.nodes[k], 0) in routes;
    GatherReads(sys, runs, t, k, values);
  }

  lemma NodeStep<V(!new)>(sys: System<V>, runs: seq<Supply<V>>, t: nat, k: nat, values: Slots<V>, routes: Routes)
    requires WellFormed(sys) && t < |runs| && k < |sys.nodes| && Within(sys, runs, t, k, values)
    requires HasSlots(values, sys.nodes[k]) && HasRoutes(sys.nodes[k], routes, values.groups)
    requires RoutesAreWires(sys, routes) && sys.nodes[k].outputs != []
    ensures RunNode(values, sys.nodes[k], routes).error.None?
    ensures Within(sys, runs, t, k + 1, RunNode(values, sys.nodes[k], routes).values)
  {
    NodeRuns(sys, runs, t, k, values, routes);
    var after := RunNode(values, sys.nodes[k], routes).values;
    CoversGrows(values, after, sys.nodes);
    forall w | InputPlace(sys.nodes, w) ensures HoldsPending(sys, runs, t, k + 1, after, w) {
      assert HoldsPending(sys, runs, t, k, values, w);
      NodeStepSlots(sys, runs, t, k, values, routes, w);
    }
    forall r | r in sys.results && r.node < k + 1 ensures HoldsResult(sys, runs, t, after, r) {
      if r.node < k { assert HoldsResult(sys, runs, t, values, r); }
      NodeStepResults(sys, runs, t, k, values, routes, r);
    }
  }

  // ----- running a step

  /** Every node has a route entry; a node without outputs is the case `HasOutputs` excludes. */
  predicate HasOutputs<V>(nodes: seq<Node<V>>) {
    FirstSilent(nodes, 0) == |nodes|
  }

  /** The first node without outputs from position `from` on, or the number of nodes. */
  function FirstSilent<V>(nodes: seq<Node<V>>, from: nat): (r: nat)
    requires from <= |nodes|
    ensures from <= r <= |nodes| && (r < |nodes| ==> nodes[r].outputs == [])
    ensures forall k | from <= k < r :: nodes[k].outputs != []
    decreases |nodes| - from
  {
    if from == |nodes| || nodes[from].outputs == [] then from else FirstSilent(nodes, from + 1)
  }

  lemma ExecuteUnfolds<V>(values: Slots<V>, nodes: seq<Node<V>>, routes: Routes, k: nat, prev: Slots<V>)
    requires k < |nodes| && Covers(values, nodes) && RoutesUsable(nodes, routes, values.groups)
    requires Execute(values, nodes, routes, k) == Outcome(prev, None)
    ensures prev.groups == values.groups
    ensures HasSlots(prev, nodes[k]) && HasRoutes(nodes[k], routes, prev.groups)
    ensures Execute(values, nodes, routes, k + 1) == RunNode(prev, nodes[k], routes)
  {
    CoversGrows(values, prev, nodes);
    assert HasSlots(prev, nodes[k]) && HasRoutes(nodes[k], routes, values.groups);
  }

  /** Up to the first node without outputs, every node runs. */
  lemma ExecuteSteps<V(!new)>(
    sys: System<V>, runs: seq<Supply<V>>, t: nat, values: Slots<V>, routes: Routes) returns (after: Slots<V>)
    requires WellFormed(sys) && t < |runs|
    requires Within(sys, runs, t, 0, values)
    requires RoutesUsable(sys.nodes, routes, values.groups) && RoutesAreWires(sys, routes)
    ensures Execute(values, sys.nodes, routes, FirstSilent(sys.nodes, 0)) == Outcome(after, None)
    ensures Within(sys, runs, t, FirstSilent(sys.nodes, 0), after)
  {
    after := values;
    var k, m := 0, FirstSilent(sys.nodes, 0);
    while k < m
      invariant k <= m
      invariant Execute(values, sys.nodes, routes, k) == Outcome(after, None)
      invariant Within(sys, runs, t, k, after)
    {
      ExecuteUnfolds(values, sys.nodes, routes, k, after);
      NodeStep(sys, runs, t, k, after, routes);
      after := RunNode(after, sys.nodes[k], routes).values;
      k := k + 1;
    }
  }

  lemma SettledIsBetween<V(!new)>(sys: System<V>, runs: seq<Supply<V>>, t: nat, values: Slots<V>)
    requires WellFormed(sys) && t < |runs| && Within(sys, runs, t, |sys.nodes|, values)
    ensures Between(sys, runs, t + 1, values)
  {
    forall w | InputPlace(sys.nodes, w) ensures HoldsCarried(sys, runs, t + 1, values, w) {
      assert HoldsPending(sys, runs, t, |sys.nodes|, values, w);
      assert Pending(sys, runs, t, |sys.nodes|, w) == Carried(sys, runs, t + 1, w);
    }
  }

  /** One call of `run_policy` advances the dataflow semantics by one step. */
  lemma StepIsDataflow<V(!new)>(sys: System<V>, runs: seq<Supply<V>>, t: nat, values: Slots<V>, routes: Routes)
    requires WellFormed(sys) && HasOutputs(sys.nodes) && t < |runs| && Between(sys, runs, t, values)
    requires GoodKeys(runs[t], values.groups)
    requires RoutesUsable(sys.nodes, routes, values.groups) && RoutesAreWires(sys, routes)
    ensures var r := Step(values, sys.nodes, routes, runs[t]);
      && r.error.None?
      && Between(sys, runs, t + 1, r.values)
      && ResultsUpTo(sys, runs, t, |sys.nodes|, r.values)
  {
    FeedStep(sys, runs, t, values);
    var fed := Feed(values, runs[t], |runs[t]|).values;
    var after := ExecuteSteps(sys, runs, t, fed, routes);
    SettledIsBetween(sys, runs, t, after);
  }

  // ----- whole runs

  /** The slots after the first `n` calls of `run_policy`. */
  function Replay<V>(values: Slots<V>, nodes: seq<Node<V>>, routes: Routes, runs: seq<Supply<V>>, n: nat): (r: Outcome<V>)
    requires n <= |runs| && Covers(values, nodes) && RoutesUsable(nodes, routes, values.groups)
    ensures Grows(values, r.values)
  {
    if n == 0 then Outcome(values, None)
    else
      var prev := Replay(values, nodes, routes, runs, n - 1);
      if prev.error.Some? then prev
      else
        CoversGrows(values, prev.values, nodes);
        Step(prev.values, nodes, routes, runs[n - 1])
  }

  /** For every sequence of supplied inputs, the replayed pipeline computes the dataflow: after call
      `n` every input slot holds what the semantics carries into the next step, and "==out==" holds
      that call's outputs. */
  lemma {:induction false} ReplayIsDataflow<V(!new)>(
    sys: System<V>, runs: seq<Supply<V>>, n: nat, values: Slots<V>, routes: Routes)
    requires WellFormed(sys) && HasOutputs(sys.nodes) && n <= |runs|
    requires Between(sys, runs, 0, values)
    requires forall t | 0 <= t < |runs| :: GoodKeys(runs[t], values.groups)
    requires RoutesUsable(sys.nodes, routes, values.groups) && RoutesAreWires(sys, routes)
    ensures var r := Replay(values, sys.nodes, routes, runs, n);
      && r.error.None?
      && Between(sys, runs, n, r.values)
      && (n > 0 ==> ResultsUpTo(sys, runs, n - 1, |sys.nodes|, r.values))
  {
    if n > 0 {
      ReplayIsDataflow(sys, runs, n - 1, values, routes);
      var prev := Replay(values, sys.nodes, routes, runs, n - 1);
      StepIsDataflow(sys, runs, n - 1, prev.values, routes);
    }
  }
}
