/** The Python runtime that replays an exported pipeline: nodes run in completion order and
    push each output into the slots of its consumers. */
module Inference {
  import opened Ports

  datatype TensorType = TensorType(shape: seq<nat>, dtype: string)
  datatype PortDesc = PortDesc(name: string, ty: TensorType)

  /** A loaded model returns one bare value or a tuple. */
  datatype Returned<+V> = Bare(value: V) | Tuple(values: seq<V>)

  datatype Node<!V> = Node(
    name: string,
    inputs: seq<PortDesc>,
    outputs: seq<PortDesc>,
    model: seq<V> -> Returned<V>)

  /** A slot or an output: (node name, port name). */
  type Slot = (string, string)

  /** The two-level value dictionary: its outer keys, and its entries keyed by both levels. */
  datatype Slots<+V> = Slots(groups: set<string>, cells: map<Slot, V>)

  /** The two-level route table; a node is in it when one of its outputs is. */
  type Routes = map<Slot, seq<Slot>>

  /** The pseudo-node that collects the graph outputs. */
  const OUT := "==out=="

  datatype RunError =
    | BadKey(key: string)
    | NoSuchNode(node: string)
    | OutputCount(node: string)
    | NoRoutes(node: string)

  datatype CallResult<+V> = Returns(values: seq<V>) | Fails(error: RunError)

  /** `NodeManager.__call__`: one declared output unwraps a tuple, several must match in number. */
  function Call<V>(node: Node<V>, ins: seq<V>): (r: CallResult<V>)
    ensures r.Returns? ==> |r.values| == |node.outputs|
  {
    if |ins| != |node.inputs| then Fails(OutputCount(node.name))
    else
      match node.model(ins)
      case Bare(v) => if |node.outputs| == 1 then Returns([v]) else Fails(OutputCount(node.name))
      case Tuple(vs) =>
        if |node.outputs| == 1 && vs != [] then Returns([vs[0]])
        else if |node.outputs| != 1 && |vs| == |node.outputs| then Returns(vs)
        else Fails(OutputCount(node.name))
  }

  // ----- what the runtime relies on after loading

  function InputSlot<V>(node: Node<V>, j: nat): Slot
    requires j < |node.inputs|
  {
    (node.name, node.inputs[j].name)
  }

  function OutputPort<V>(node: Node<V>, o: nat): Slot
    requires o < |node.outputs|
  {
    (node.name, node.outputs[o].name)
  }

  /** The node has a slot for each of its inputs. */
  predicate HasSlots<V>(values: Slots<V>, node: Node<V>) {
    && node.name in values.groups
    && forall j | 0 <= j < |node.inputs| :: InputSlot(node, j) in values.cells
  }

  predicate Covers<V>(values: Slots<V>, nodes: seq<Node<V>>) {
    && OUT in values.groups
    && forall k {:trigger HasSlots(values, nodes[k])} | 0 <= k < |nodes| :: HasSlots(values, nodes[k])
  }

  predicate TargetsExist(targets: seq<Slot>, groups: set<string>) {
    forall t | t in targets :: t.0 in groups
  }

  /** Every output of the node is routed somewhere, and every target names a slot group. */
  predicate HasRoutes<V>(node: Node<V>, routes: Routes, groups: set<string>) {
    forall o | 0 <= o < |node.outputs| ::
      OutputPort(node, o) in routes && TargetsExist(routes[OutputPort(node, o)], groups)
  }

  predicate RoutesUsable<V>(nodes: seq<Node<V>>, routes: Routes, groups: set<string>) {
    forall k {:trigger HasRoutes(nodes[k], routes, groups)} | 0 <= k < |nodes| :: HasRoutes(nodes[k], routes, groups)
  }

  predicate InTable(routes: Routes, name: string) {
    exists s | s in routes :: s.0 == name
  }

  predicate Grows<V>(before: Slots<V>, after: Slots<V>) {
    after.groups == before.groups && before.cells.Keys <= after.cells.Keys
  }

  lemma CoversGrows<V>(before: Slots<V>, after: Slots<V>, nodes: seq<Node<V>>)
    requires Covers(before, nodes) && Grows(before, after)
    ensures Covers(after, nodes)
  {
    forall k | 0 <= k < |nodes| ensures HasSlots(after, nodes[k]) {
      assert HasSlots(before, nodes[k]);
    }
  }

  // ----- one step as a function of the slots

  function At<V>(values: Slots<V>, slot: Slot): Option<V> {
    if slot in values.cells then Some(values.cells[slot]) else None
  }

  datatype Outcome<V> = Outcome(values: Slots<V>, error: Option<RunError>)

  function Put<V>(values: Slots<V>, slot: Slot, v: V): (r: Slots<V>)
    requires slot.0 in values.groups
    ensures Grows(values, r)
    ensures forall s :: At(r, s) == if s == slot then Some(v) else At(values, s)
  {
    values.(cells := values.cells[slot := v])
  }

  /** The slots after the first `n` supplied inputs have been stored. */
  function Feed<V>(values: Slots<V>, items: seq<(string, V)>, n: nat): (r: Outcome<V>)
    requires n <= |items|
    ensures Grows(values, r.values)
  {
    if n == 0 then Outcome(values, None)
    else
      var prev := Feed(values, items, n - 1);
      if prev.error.Some? then prev
      else
        match ParseKey(items[n - 1].0)
        case None => Outcome(prev.values, Some(BadKey(items[n - 1].0)))
        case Some(slot) =>
          if slot.0 !in prev.values.groups then Outcome(prev.values, Some(NoSuchNode(slot.0)))
          else Outcome(Put(prev.values, slot, items[n - 1].1), None)
  }

  /** The slots after the first `n` targets of one output have received `v`. */
  function Push<V>(values: Slots<V>, targets: seq<Slot>, v: V, n: nat): (r: Slots<V>)
    requires n <= |targets| && TargetsExist(targets, values.groups)
    ensures Grows(values, r)
  {
    if n == 0 then values else Put(Push(values, targets, v, n - 1), targets[n - 1], v)
  }

  /** The slots after the first `n` outputs of one node have been pushed. */
  function Publish<V>(values: Slots<V>, routes: Routes, node: Node<V>, outs: seq<V>, n: nat): (r: Slots<V>)
    requires n <= |node.outputs| == |outs| && HasRoutes(node, routes, values.groups)
    ensures Grows(values, r)
  {
    if n == 0 then values
    else
      var targets := routes[OutputPort(node, n - 1)];
      Push(Publish(values, routes, node, outs, n - 1), targets, outs[n - 1], |targets|)
  }

  function Gather<V>(values: Slots<V>, node: Node<V>): (ins: seq<V>)
    requires HasSlots(values, node)
    ensures |ins| == |node.inputs|
  {
    seq(|node.inputs|, j requires 0 <= j < |node.inputs| => values.cells[InputSlot(node, j)])
  }

  /** One node: call its model on its slots and push every output to its targets. */
  function RunNode<V>(values: Slots<V>, node: Node<V>, routes: Routes): (r: Outcome<V>)
    requires HasSlots(values, node) && HasRoutes(node, routes, values.groups)
    ensures Grows(values, r.values)
  {
    match Call(node, Gather(values, node))
    case Fails(e) => Outcome(values, Some(e))
    case Returns(outs) =>
      if !InTable(routes, node.name) then Outcome(values, Some(NoRoutes(node.name)))
      else Outcome(Publish(values, routes, node, outs, |node.outputs|), None)
  }

  /** The slots after the first `n` nodes have run. */
  function Execute<V>(values: Slots<V>, nodes: seq<Node<V>>, routes: Routes, n: nat): (r: Outcome<V>)
    requires n <= |nodes| && Covers(values, nodes) && RoutesUsable(nodes, routes, values.groups)
    ensures Grows(values, r.values)
  {
    if n == 0 then Outcome(values, None)
    else
      var prev := Execute(values, nodes, routes, n - 1);
      if prev.error.Some? then prev
      else
        CoversGrows(values, prev.values, nodes);
        assert HasSlots(prev.values, nodes[n - 1]) && HasRoutes(nodes[n - 1], routes, values.groups);
        RunNode(prev.values, nodes[n - 1], routes)
  }

  /** One call of `run_policy`. */
  function Step<V>(values: Slots<V>, nodes: seq<Node<V>>, routes: Routes, items: seq<(string, V)>): (r: Outcome<V>)
    requires Covers(values, nodes) && RoutesUsable(nodes, routes, values.groups)
    ensures Grows(values, r.values)
  {
    var fed := Feed(values, items, |items|);
    if fed.error.Some? then fed
    else
      CoversGrows(values, fed.values, nodes);
      Execute(fed.values, nodes, routes, |nodes|)
  }

  // ----- what pushing does, slot by slot

  lemma {:induction false} PushAt<V>(values: Slots<V>, targets: seq<Slot>, v: V, n: nat, slot: Slot)
    requires n <= |targets| && TargetsExist(targets, values.groups)
    ensures At(Push(values, targets, v, n), slot) == if slot in targets[..n] then Some(v) else At(values, slot)
  {
    if n > 0 {
      PushAt(values, targets, v, n - 1, slot);
      assert targets[..n] == targets[..n - 1] + [targets[n - 1]];
    }
  }

  /** Publishing a node, seen from one slot that only output `o` (or none) reaches. */
  lemma {:induction false} PublishAt<V>(
    values: Slots<V>, routes: Routes, node: Node<V>, outs: seq<V>, n: nat, slot: Slot, o: Option<nat>)
    requires n <= |node.outputs| == |outs| && HasRoutes(node, routes, values.groups)
    requires forall i: nat | i < |node.outputs| :: slot in routes[OutputPort(node, i)] <==> o == Some(i)
    ensures At(Publish(values, routes, node, outs, n), slot) ==
            if o.Some? && o.value < n then Some(outs[o.value]) else At(values, slot)
  {
    if n > 0 {
      PublishAt(values, routes, node, outs, n - 1, slot, o);
      var targets := routes[OutputPort(node, n - 1)];
      PushAt(Publish(values, routes, node, outs, n - 1), targets, outs[n - 1], |targets|, slot);
      assert targets[..|targets|] == targets;
    }
  }
}
