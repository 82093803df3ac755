/** Pruning of a captured graph (leapp/leapp_graph/traced_node.py): a worklist finds what the outputs
    need, and everything else is erased in reverse order. */
module GraphPruning {
  import opened Ports

  datatype Op = Placeholder(target: string) | Call | GetAttr | Output

  /** A node with the positions of its inputs; `mutation` is its recorded mark, `impure` what its
      call is known to be, `failure` a capture error kept for later. */
  datatype Node = Node(op: Op, inputs: seq<nat>, mutation: bool, impure: bool, failure: bool)

  datatype Description = Description(name: string, aliases: set<string>)

  /** Nodes in recording order; erased ones are no longer in `live`. */
  predicate IsGraph(nodes: seq<Node>, live: set<nat>) {
    (forall i | i in live :: i < |nodes| && InputsLive(nodes, live, i)) &&
    forall i | 0 <= i < |nodes| && nodes[i].op.Placeholder? :: nodes[i].inputs == []
  }

  predicate InputsLive(nodes: seq<Node>, live: set<nat>, i: nat)
    requires i < |nodes|
  {
    forall k | 0 <= k < |nodes[i].inputs| :: nodes[i].inputs[k] < i && nodes[i].inputs[k] in live
  }

  function Members(s: seq<nat>): (m: set<nat>)
    ensures forall k :: k in m <==> k in s
  {
    set k | k in s
  }

  // ----- what is needed

  /** Node `k` is a root, or an input of a needed node. */
  predicate Needed(nodes: seq<Node>, live: set<nat>, roots: set<nat>, k: nat)
    decreases |nodes| - k
  {
    k in roots || exists u | k < u < |nodes| && u in live && k in nodes[u].inputs :: Needed(nodes, live, roots, u)
  }

  predicate ClosedUnderInputs(nodes: seq<Node>, live: set<nat>, kept: set<nat>) {
    forall u | u in kept && u in live && u < |nodes| :: forall k | 0 <= k < |nodes[u].inputs| :: nodes[u].inputs[k] in kept
  }

  /** The needed nodes are the least set with the roots that is closed under inputs. */
  lemma {:induction false} NeededIsLeast(nodes: seq<Node>, live: set<nat>, roots: set<nat>, kept: set<nat>, k: nat)
    requires roots <= kept && ClosedUnderInputs(nodes, live, kept) && Needed(nodes, live, roots, k)
    ensures k in kept
    decreases |nodes| - k
  {
    if k !in roots {
      var u :| k < u < |nodes| && u in live && k in nodes[u].inputs && Needed(nodes, live, roots, u);
      NeededIsLeast(nodes, live, roots, kept, u);
    }
  }

  lemma {:induction false} MoreRootsNeedMore(nodes: seq<Node>, live: set<nat>, small: set<nat>, large: set<nat>, k: nat)
    requires (forall r | r in small :: Needed(nodes, live, large, r)) && Needed(nodes, live, small, k)
    ensures Needed(nodes, live, large, k)
    decreases |nodes| - k
  {
    if k !in small {
      var u :| k < u < |nodes| && u in live && k in nodes[u].inputs && Needed(nodes, live, small, u);
      MoreRootsNeedMore(nodes, live, small, large, u);
    }
  }

  /** Every input of a used node is used or still pending. */
  predicate Frontier(nodes: seq<Node>, used: set<nat>, pending: seq<nat>) {
    forall u | u in used && u < |nodes| :: InputsWithin(nodes[u].inputs, used, pending)
  }

  predicate InputsWithin(inputs: seq<nat>, used: set<nat>, pending: seq<nat>) {
    forall k | 0 <= k < |inputs| :: inputs[k] in used || inputs[k] in pending
  }

  lemma Popped(pending: seq<nat>)
    requires pending != []
    ensures forall r :: r in pending <==> r == pending[|pending| - 1] || r in pending[..|pending| - 1]
  {
    assert pending == pending[..|pending| - 1] + [pending[|pending| - 1]];
  }

  lemma WalkStep(nodes: seq<Node>, used: set<nat>, pending: seq<nat>, rest: seq<nat>, node: nat)
    requires node < |nodes| && Frontier(nodes, used, pending)
    requires forall r | r in pending :: r == node || r in rest
    ensures node in used ==> Frontier(nodes, used, rest)
    ensures Frontier(nodes, used + {node}, rest + nodes[node].inputs)
  {
    forall u | u in used && u < |nodes|
      ensures node in used ==> InputsWithin(nodes[u].inputs, used, rest)
      ensures InputsWithin(nodes[u].inputs, used + {node}, rest + nodes[node].inputs)
    {
      assert InputsWithin(nodes[u].inputs, used, pending);
    }
  }

  lemma WalkDone(nodes: seq<Node>, live: set<nat>, used: set<nat>)
    requires Frontier(nodes, used, [])
    ensures ClosedUnderInputs(nodes, live, used)
  {
    forall u | u in used && u in live && u < |nodes|
      ensures forall k | 0 <= k < |nodes[u].inputs| :: nodes[u].inputs[k] in used
    {
      assert InputsWithin(nodes[u].inputs, used, []);
    }
  }

  lemma InputsNeeded(nodes: seq<Node>, live: set<nat>, roots: set<nat>, u: nat)
    requires IsGraph(nodes, live) && u in live && Needed(nodes, live, roots, u)
    ensures forall k | k in nodes[u].inputs :: k in live && Needed(nodes, live, roots, k)
  {
    assert InputsLive(nodes, live, u);
  }

  lemma FewerLeft(live: set<nat>, used: set<nat>, node: nat)
    requires node in live && node !in used
    ensures |live - (used + {node})| < |live - used|
  {
    assert live - used == (live - (used + {node})) + {node};
  }

  /** The dependency walk: a stack of pending nodes and the set already used. */
  method UsedNodes(nodes: seq<Node>, live: set<nat>, outputs: seq<nat>) returns (used: set<nat>)
    requires IsGraph(nodes, live) && forall r | r in outputs :: r in live
    ensures used <= live
    ensures forall k: nat :: k in used <==> Needed(nodes, live, Members(outputs), k)
  {
    var pending := outputs;
    ghost var roots := Members(outputs);
    used := {};
    while pending != []
      invariant used <= live && forall r | r in pending :: r in live
      invariant forall r | r in roots :: r in used || r in pending
      invariant Frontier(nodes, used, pending)
      invariant forall k | k in used || k in pending :: Needed(nodes, live, roots, k)
      decreases |live - used|, |pending|
    {
      var node, rest := pending[|pending| - 1], pending[..|pending| - 1];
      Popped(pending);
      assert node in pending && node in live;
      WalkStep(nodes, used, pending, rest, node);
      pending := rest;
      if node in used { continue; }
      InputsNeeded(nodes, live, roots, node);
      FewerLeft(live, used, node);
      used := used + {node};
      pending := pending + nodes[node].inputs;
    }
    WalkDone(nodes, live, used);
    forall k: nat | Needed(nodes, live, roots, k) ensures k in used {
      NeededIsLeast(nodes, live, roots, used, k);
    }
  }

  // ----- what is erased

  /** The first description that carries the name. */
  function Lookup(name: string, inputs: seq<Description>): (r: Option<Description>)
    ensures r.Some? ==> r.value in inputs && name in r.value.aliases
    ensures r.None? <==> forall d | d in inputs :: name !in d.aliases
  {
    if inputs == [] then None
    else if name in inputs[0].aliases then Some(inputs[0])
    else Lookup(name, inputs[1..])
  }

  predicate Undescribed(nodes: seq<Node>, inputs: seq<Description>, k: nat)
    requires k < |nodes|
  {
    nodes[k].op.Placeholder? && Lookup(nodes[k].op.target, inputs).None?
  }

  function OutputNodes(nodes: seq<Node>, live: set<nat>): set<nat>
    requires IsGraph(nodes, live)
  {
    set k | k in live && nodes[k].op.Output?
  }

  /** What is left: the nodes needed by the roots or by an output node, and the placeholders no
      input describes. */
  predicate Stays(nodes: seq<Node>, live: set<nat>, inputs: seq<Description>, roots: set<nat>, k: nat)
    requires IsGraph(nodes, live) && k < |nodes|
  {
    Needed(nodes, live, roots + OutputNodes(nodes, live), k) || Undescribed(nodes, inputs, k)
  }

  predicate UnusedInput(nodes: seq<Node>, live: set<nat>, inputs: seq<Description>, roots: set<nat>, k: nat)
    requires IsGraph(nodes, live) && k in live
  {
    nodes[k].op.Placeholder? && !Undescribed(nodes, inputs, k) && !Needed(nodes, live, roots, k)
  }

  /** The names under which unused placeholders from position `lo` on are trimmed from the inputs. */
  function TrimmedNames(nodes: seq<Node>, live: set<nat>, inputs: seq<Description>, roots: set<nat>, lo: nat): set<string>
    requires IsGraph(nodes, live)
  {
    set k | k in live && k >= lo && UnusedInput(nodes, live, inputs, roots, k) ::
      Lookup(nodes[k].op.target, inputs).value.name
  }

  lemma StaysIffUsed(nodes: seq<Node>, live: set<nat>, inputs: seq<Description>, roots: set<nat>, kept: set<nat>, i: nat)
    requires IsGraph(nodes, live) && i in live && kept <= live && i in kept
    requires forall k | k in live && k > i :: k in kept <==> Stays(nodes, live, inputs, roots, k)
    requires !Needed(nodes, live, roots, i) && !nodes[i].op.Output? && !Undescribed(nodes, inputs, i)
    ensures Stays(nodes, live, inputs, roots, i) <==> exists u :: u in kept && i in nodes[u].inputs
  {
    var all := roots + OutputNodes(nodes, live);
    if Needed(nodes, live, all, i) {
      assert i !in all;
      var u :| i < u < |nodes| && u in live && i in nodes[u].inputs && Needed(nodes, live, all, u);
      assert Stays(nodes, live, inputs, roots, u);
    }
    if u: nat :| u in kept && i in nodes[u].inputs {
      assert InputsLive(nodes, live, u);
      assert Stays(nodes, live, inputs, roots, u) && !Undescribed(nodes, inputs, u);
    }
  }

  /** Reverse erasure of the nodes not used. */
  method EraseUnused(nodes: seq<Node>, live: set<nat>, inputs: seq<Description>, used: set<nat>, ghost roots: set<nat>)
    returns (kept: set<nat>, trimmed: set<string>)
    requires IsGraph(nodes, live) && roots <= live
    requires forall k: nat :: k in used <==> Needed(nodes, live, roots, k)
    ensures kept <= live && forall k | k in live :: k in kept <==> Stays(nodes, live, inputs, roots, k)
    ensures trimmed == TrimmedNames(nodes, live, inputs, roots, 0)
  {
    kept, trimmed := live, {};
    ghost var all := roots + OutputNodes(nodes, live);
    var i := |nodes|;
    while i > 0
      invariant 0 <= i <= |nodes| && kept <= live
      invariant forall k | k in live && k < i :: k in kept
      invariant forall k | k in live && k >= i :: k in kept <==> Stays(nodes, live, inputs, roots, k)
      invariant trimmed == TrimmedNames(nodes, live, inputs, roots, i)
    {
      i := i - 1;
      if i !in live || nodes[i].op.Output? || i in used {
        if i in used { MoreRootsNeedMore(nodes, live, roots, all, i); }
        continue;
      }
      if nodes[i].op.Placeholder? {
        var description := Lookup(nodes[i].op.target, inputs);
        if description.None? { continue; }
        assert UnusedInput(nodes, live, inputs, roots, i);
        trimmed := trimmed + {description.value.name};
      }
      StaysIffUsed(nodes, live, inputs, roots, kept, i);
      if !exists u | u in kept :: i in nodes[u].inputs {
        kept := kept - {i};
      }
    }
  }

  // ----- the node's own fields

  predicate Marked(node: Node) {
    node.mutation || (node.op.Call? && node.impure)
  }

  function Roots(nodes: seq<Node>, live: set<nat>, outputs: seq<nat>, preserveMutations: bool): set<nat>
    requires IsGraph(nodes, live)
  {
    Members(outputs) + (if preserveMutations then set k | k in live && Marked(nodes[k]) else {})
  }

  function Untrimmed(inputs: seq<Description>, trimmed: set<string>): seq<Description> {
    if inputs == [] then []
    else
      var last := inputs[|inputs| - 1];
      Untrimmed(inputs[..|inputs| - 1], trimmed) + (if last.name in trimmed then [] else [last])
  }

  function Positions(n: nat): (all: set<nat>)
    ensures forall k: nat :: k in all <==> k < n
  {
    if n == 0 then {} else Positions(n - 1) + {n - 1}
  }

  method RootNodes(nodes: seq<Node>, live: set<nat>, outputs: seq<nat>, preserveMutations: bool)
    returns (pending: seq<nat>)
    requires IsGraph(nodes, live) && forall r | r in outputs :: r in live
    ensures Members(pending) == Roots(nodes, live, outputs, preserveMutations)
  {
    pending := outputs;
    if preserveMutations {
      for k := 0 to |nodes|
        invariant forall r :: r in pending <==> r in outputs || (r < k && r in live && Marked(nodes[r]))
      {
        if k in live && Marked(nodes[k]) { pending := pending + [k]; }
      }
    }
  }

  class TracedNode {
    var nodes: seq<Node>
    var live: set<nat>
    var inputs: seq<Description>
    var trimmedInputs: set<string>

    constructor (nodes: seq<Node>, inputs: seq<Description>)
      requires IsGraph(nodes, Positions(|nodes|))
      ensures this.nodes == nodes && this.inputs == inputs && trimmedInputs == {} && live == Positions(|nodes|)
    {
      this.nodes, this.inputs := nodes, inputs;
      live, trimmedInputs := Positions(|nodes|), {};
    }

    /** Refused when a needed node carries a capture error; otherwise the graph and the inputs are
        cut down to what the outputs, and on request the writes, need. */
    method PruneGraph(outputs: seq<nat>, preserveMutations: bool) returns (ok: bool, ghost roots: set<nat>)
      requires IsGraph(nodes, live) && forall r | r in outputs :: r in live
      modifies this
      ensures nodes == old(nodes) && roots == Roots(nodes, old(live), outputs, preserveMutations)
      ensures ok <==> forall k | k in old(live) && Needed(nodes, old(live), roots, k) :: !nodes[k].failure
      ensures !ok ==> live == old(live) && inputs == old(inputs) && trimmedInputs == old(trimmedInputs)
      ensures ok ==> live <= old(live)
      ensures ok ==> forall k | k in old(live) :: k in live <==> Stays(nodes, old(live), old(inputs), roots, k)
      ensures ok ==> inputs == Untrimmed(old(inputs), TrimmedNames(nodes, old(live), old(inputs), roots, 0))
      ensures ok ==> trimmedInputs == old(trimmedInputs) + TrimmedNames(nodes, old(live), old(inputs), roots, 0)
    {
      var pending := RootNodes(nodes, live, outputs, preserveMutations);
      roots := Roots(nodes, live, outputs, preserveMutations);
      assert forall r | r in pending :: r in Members(pending);
      var used := UsedNodes(nodes, live, pending);
      if exists k | k in used :: nodes[k].failure { return false, roots; }
      var kept, trimmed := EraseUnused(nodes, live, inputs, used, roots);
      live := kept;
      trimmedInputs := trimmedInputs + trimmed;
      inputs := Untrimmed(inputs, trimmed);
      ok := true;
    }
  }

  // ----- what is left is a graph, and exactly what is needed

  lemma KeptIsGraph(nodes: seq<Node>, live: set<nat>, inputs: seq<Description>, roots: set<nat>, kept: set<nat>)
    requires IsGraph(nodes, live) && kept <= live
    requires forall k | k in live :: k in kept <==> Stays(nodes, live, inputs, roots, k)
    ensures IsGraph(nodes, kept)
  {
    forall i | i in kept ensures InputsLive(nodes, kept, i) {
      assert InputsLive(nodes, live, i);
      if !nodes[i].op.Placeholder? {
        forall k | 0 <= k < |nodes[i].inputs| ensures nodes[i].inputs[k] in kept {
          assert Needed(nodes, live, roots + OutputNodes(nodes, live), nodes[i].inputs[k]);
        }
      }
    }
  }

  /** With every placeholder described and every output node fed by needed nodes, a node stays
      exactly when a root needs it or it is an output node. */
  lemma KeptIsClosure(nodes: seq<Node>, live: set<nat>, inputs: seq<Description>, roots: set<nat>, k: nat)
    requires IsGraph(nodes, live) && k in live
    requires forall p | p in live :: !Undescribed(nodes, inputs, p)
    requires forall o, i | o in OutputNodes(nodes, live) && 0 <= i < |nodes[o].inputs| ::
      Needed(nodes, live, roots, nodes[o].inputs[i])
    ensures Stays(nodes, live, inputs, roots, k) <==> Needed(nodes, live, roots, k) || nodes[k].op.Output?
  {
    var all := roots + OutputNodes(nodes, live);
    if Needed(nodes, live, roots, k) { MoreRootsNeedMore(nodes, live, roots, all, k); }
    if Needed(nodes, live, all, k) { NeededByOutputs(nodes, live, roots, k); }
  }

  lemma {:induction false} NeededByOutputs(nodes: seq<Node>, live: set<nat>, roots: set<nat>, k: nat)
    requires IsGraph(nodes, live) && Needed(nodes, live, roots + OutputNodes(nodes, live), k)
    requires forall o, i | o in OutputNodes(nodes, live) && 0 <= i < |nodes[o].inputs| ::
      Needed(nodes, live, roots, nodes[o].inputs[i])
    ensures Needed(nodes, live, roots, k) || k in OutputNodes(nodes, live)
    decreases |nodes| - k
  {
    var all := roots + OutputNodes(nodes, live);
    if k !in all {
      var u :| k < u < |nodes| && u in live && k in nodes[u].inputs && Needed(nodes, live, all, u);
      NeededByOutputs(nodes, live, roots, u);
    }
  }

  // ----- placeholders and inputs stay aligned

  /** The live placeholders among the first `n` nodes, in order. */
  function Placeholders(nodes: seq<Node>, live: set<nat>, n: nat): seq<nat>
    requires n <= |nodes|
  {
    if n == 0 then []
    else Placeholders(nodes, live, n - 1) +
         (if n - 1 in live && nodes[n - 1].op.Placeholder? then [n - 1] else [])
  }

  lemma {:induction false} PlaceholdersListed(nodes: seq<Node>, live: set<nat>, n: nat)
    requires n <= |nodes|
    ensures forall k :: k in Placeholders(nodes, live, n) <==> k in live && k < n && nodes[k].op.Placeholder?
  {
    if n > 0 { PlaceholdersListed(nodes, live, n - 1); }
  }

  /** The i-th description is the one that carries the i-th placeholder's name. */
  predicate Aligned(nodes: seq<Node>, live: set<nat>, inputs: seq<Description>) {
    Lined(nodes, Placeholders(nodes, live, |nodes|), inputs)
  }

  predicate Lined(nodes: seq<Node>, ps: seq<nat>, inputs: seq<Description>) {
    |ps| == |inputs| &&
    forall i | 0 <= i < |ps| :: ps[i] < |nodes| && nodes[ps[i]].op.Placeholder? &&
      nodes[ps[i]].op.target in inputs[i].aliases
  }

  predicate NamedApart(inputs: seq<Description>) {
    forall i, j | 0 <= i < j < |inputs| :: inputs[i].name != inputs[j].name && inputs[i].aliases !! inputs[j].aliases
  }

  lemma {:induction false} LookupFinds(inputs: seq<Description>, i: nat, name: string)
    requires NamedApart(inputs) && i < |inputs| && name in inputs[i].aliases
    ensures Lookup(name, inputs) == Some(inputs[i])
  {
    if i > 0 {
      assert name !in inputs[0].aliases;
      assert NamedApart(inputs[1..]) by {
        assert forall k | 0 <= k < |inputs| - 1 :: inputs[1..][k] == inputs[k + 1];
      }
      LookupFinds(inputs[1..], i - 1, name);
    }
  }

  function Surviving(ps: seq<nat>, kept: set<nat>): seq<nat> {
    if ps == [] then []
    else
      Surviving(ps[..|ps| - 1], kept) + (if ps[|ps| - 1] in kept then [ps[|ps| - 1]] else [])
  }

  lemma {:induction false} PlaceholdersSurvive(nodes: seq<Node>, live: set<nat>, kept: set<nat>, n: nat)
    requires n <= |nodes| && kept <= live
    ensures Placeholders(nodes, kept, n) == Surviving(Placeholders(nodes, live, n), kept)
  {
    if n > 0 {
      PlaceholdersSurvive(nodes, live, kept, n - 1);
      var before := Placeholders(nodes, live, n - 1);
      SurvivingOneMore(before, n - 1, kept);
      assert Placeholders(nodes, live, n) ==
        before + (if n - 1 in live && nodes[n - 1].op.Placeholder? then [n - 1] else []);
    }
  }

  lemma SurvivingOneMore(ps: seq<nat>, p: nat, kept: set<nat>)
    ensures Surviving(ps + [p], kept) == Surviving(ps, kept) + (if p in kept then [p] else [])
    ensures Surviving(ps + [], kept) == Surviving(ps, kept)
  {
    assert (ps + [p])[..|ps|] == ps && ps + [] == ps;
  }

  lemma {:induction false} SurvivorsLineUp(nodes: seq<Node>, ps: seq<nat>, inputs: seq<Description>,
                                           kept: set<nat>, trimmed: set<string>)
    requires Lined(nodes, ps, inputs)
    requires forall i | 0 <= i < |ps| :: ps[i] in kept <==> inputs[i].name !in trimmed
    ensures Lined(nodes, Surviving(ps, kept), Untrimmed(inputs, trimmed))
  {
    if ps != [] {
      var n := |ps| - 1;
      SurvivorsLineUp(nodes, ps[..n], inputs[..n], kept, trimmed);
      if ps[n] in kept {
        LinedOneMore(nodes, Surviving(ps[..n], kept), Untrimmed(inputs[..n], trimmed), ps[n], inputs[n]);
      } else {
        assert Surviving(ps, kept) == Surviving(ps[..n], kept);
        assert Untrimmed(inputs, trimmed) == Untrimmed(inputs[..n], trimmed);
      }
    }
  }

  lemma LinedOneMore(nodes: seq<Node>, ps: seq<nat>, inputs: seq<Description>, p: nat, d: Description)
    requires Lined(nodes, ps, inputs)
    requires p < |nodes| && nodes[p].op.Placeholder? && nodes[p].op.target in d.aliases
    ensures Lined(nodes, ps + [p], inputs + [d])
  {
  }

  /** An aligned input is trimmed exactly when its placeholder is not needed. */
  lemma TrimmedIffUnneeded(nodes: seq<Node>, live: set<nat>, inputs: seq<Description>, roots: set<nat>, i: nat)
    requires IsGraph(nodes, live) && Aligned(nodes, live, inputs) && NamedApart(inputs)
    requires i < |inputs|
    ensures
      var p := Placeholders(nodes, live, |nodes|)[i];
      p in live && Lookup(nodes[p].op.target, inputs) == Some(inputs[i]) &&
      (inputs[i].name in TrimmedNames(nodes, live, inputs, roots, 0) <==> !Needed(nodes, live, roots, p))
  {
    var ps, trimmed := Placeholders(nodes, live, |nodes|), TrimmedNames(nodes, live, inputs, roots, 0);
    PlaceholdersListed(nodes, live, |nodes|);
    assert ps[i] in ps;
    LookupFinds(inputs, i, nodes[ps[i]].op.target);
    if inputs[i].name in trimmed {
      var k :| k in live && UnusedInput(nodes, live, inputs, roots, k) &&
        Lookup(nodes[k].op.target, inputs).value.name == inputs[i].name;
      assert k in ps;
      var j :| 0 <= j < |ps| && ps[j] == k;
      LookupFinds(inputs, j, nodes[k].op.target);
      assert i == j;
    }
    if !Needed(nodes, live, roots, ps[i]) {
      assert UnusedInput(nodes, live, inputs, roots, ps[i]);
    }
  }

  /** Pruning keeps the inputs lined up with the placeholders, position by position. */
  lemma PruningKeepsAlignment(nodes: seq<Node>, live: set<nat>, inputs: seq<Description>, roots: set<nat>, kept: set<nat>)
    requires IsGraph(nodes, live) && kept <= live && Aligned(nodes, live, inputs) && NamedApart(inputs)
    requires forall k | k in live :: k in kept <==> Stays(nodes, live, inputs, roots, k)
    requires forall o, i | o in OutputNodes(nodes, live) && 0 <= i < |nodes[o].inputs| ::
      Needed(nodes, live, roots, nodes[o].inputs[i])
    ensures Aligned(nodes, kept, Untrimmed(inputs, TrimmedNames(nodes, live, inputs, roots, 0)))
  {
    var ps, trimmed := Placeholders(nodes, live, |nodes|), TrimmedNames(nodes, live, inputs, roots, 0);
    AllDescribed(nodes, live, inputs);
    forall i | 0 <= i < |ps| ensures ps[i] in kept <==> inputs[i].name !in trimmed {
      TrimmedIffUnneeded(nodes, live, inputs, roots, i);
      KeptIsClosure(nodes, live, inputs, roots, ps[i]);
    }
    PlaceholdersSurvive(nodes, live, kept, |nodes|);
    SurvivorsLineUp(nodes, ps, inputs, kept, trimmed);
  }

  lemma AllDescribed(nodes: seq<Node>, live: set<nat>, inputs: seq<Description>)
    requires IsGraph(nodes, live) && Aligned(nodes, live, inputs)
    ensures forall p | p in live :: !Undescribed(nodes, inputs, p)
  {
    PlaceholdersListed(nodes, live, |nodes|);
    forall p | p in live && nodes[p].op.Placeholder? ensures Lookup(nodes[p].op.target, inputs).Some? {
      assert p in Placeholders(nodes, live, |nodes|);
    }
  }

  // ----- what the graph computes

  /** What a node does: from its inputs' values and the storage, its own value and the new storage. */
  type Step<!V, !S> = (nat, seq<V>, S) -> (V, S)

  /** The values of the first `n` nodes and the storage after them. */
  function Evaluate<V, S>(step: Step<V, S>, nodes: seq<Node>, live: set<nat>, n: nat, storage: S): (r: (map<nat, V>, S))
    requires IsGraph(nodes, live) && n <= |nodes|
    ensures forall k: nat :: k in r.0 <==> k in live && k < n
  {
    if n == 0 then (map[], storage)
    else
      var before := Evaluate(step, nodes, live, n - 1, storage);
      if n - 1 !in live then before
      else
        assert InputsLive(nodes, live, n - 1);
        var inputs := nodes[n - 1].inputs;
        var after := step(n - 1, seq(|inputs|, k requires 0 <= k < |inputs| => before.0[inputs[k]]), before.1);
        (before.0[n - 1 := after.0], after.1)
  }

  /** The node leaves the storage alone, though it may read it. */
  ghost predicate Quiet<V(!new), S(!new)>(step: Step<V, S>, k: nat) {
    forall args: seq<V>, storage: S :: step(k, args, storage).1 == storage
  }

  lemma {:induction false} DroppingQuietNodes<V(!new), S(!new)>(step: Step<V, S>, nodes: seq<Node>, live: set<nat>,
                                                                kept: set<nat>, n: nat, storage: S)
    requires IsGraph(nodes, live) && IsGraph(nodes, kept) && kept <= live && n <= |nodes|
    requires forall k | k in live && k !in kept :: Quiet(step, k)
    ensures Evaluate(step, nodes, kept, n, storage).1 == Evaluate(step, nodes, live, n, storage).1
    ensures forall k | k in kept && k < n ::
      Evaluate(step, nodes, kept, n, storage).0[k] == Evaluate(step, nodes, live, n, storage).0[k]
  {
    if n > 0 {
      DroppingQuietNodes(step, nodes, live, kept, n - 1, storage);
      if n - 1 in kept {
        assert InputsLive(nodes, kept, n - 1) && InputsLive(nodes, live, n - 1);
        var a := Evaluate(step, nodes, kept, n - 1, storage).0;
        var b := Evaluate(step, nodes, live, n - 1, storage).0;
        var inputs := nodes[n - 1].inputs;
        assert seq(|inputs|, k requires 0 <= k < |inputs| => a[inputs[k]]) ==
               seq(|inputs|, k requires 0 <= k < |inputs| => b[inputs[k]]);
      }
    }
  }

  /** Pruning changes neither the value of any output nor the writes, when only marked nodes write
      and either writes are preserved or there are none. */
  lemma PruningKeepsMeaning<V(!new), S(!new)>(step: Step<V, S>, nodes: seq<Node>, live: set<nat>, inputs: seq<Description>,
                                              outputs: seq<nat>, preserve: bool, kept: set<nat>, storage: S)
    requires IsGraph(nodes, live) && kept <= live && forall r | r in outputs :: r in live
    requires forall k | k in live :: k in kept <==> Stays(nodes, live, inputs, Roots(nodes, live, outputs, preserve), k)
    requires forall k | k in live && !(preserve && Marked(nodes[k])) :: Quiet(step, k)
    ensures IsGraph(nodes, kept)
    ensures forall r | r in outputs :: r in kept
    ensures forall r | r in outputs ::
      Evaluate(step, nodes, kept, |nodes|, storage).0[r] == Evaluate(step, nodes, live, |nodes|, storage).0[r]
    ensures Evaluate(step, nodes, kept, |nodes|, storage).1 == Evaluate(step, nodes, live, |nodes|, storage).1
  {
    var roots := Roots(nodes, live, outputs, preserve);
    KeptIsGraph(nodes, live, inputs, roots, kept);
    forall r | r in roots ensures r in kept {
      assert Needed(nodes, live, roots + OutputNodes(nodes, live), r);
    }
    DroppingQuietNodes(step, nodes, live, kept, |nodes|, storage);
  }
}
