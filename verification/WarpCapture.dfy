/** Warp regions over two passes (leapp/leapp_graph/warp_op.py, datatypes/warp/session.py,
    traced_node.py): the first pass discovers segments, a later one captures them from a queue, and
    one session holds the single open operation. */
module WarpCapture {
  import opened Ports

  /** The annotation origin a call comes from. */
  type Anchor = nat

  datatype Status = Open | Closed | Invalid

  datatype Segment = Segment(origin: Anchor, ending: Option<Anchor>, calls: seq<string>,
                             events: seq<string>, status: Status, runner: nat)

  /** A traced node: segments by identity, in the order discovered, and those not captured yet. */
  datatype Node = Node(tracing: bool, completed: bool, capturing: bool, discovered: seq<nat>, pending: seq<nat>)

  /** The open operation; `id` is what it passes as owner token. */
  datatype Operation = Operation(id: nat, node: string, segment: nat, capture: bool)

  /** A segment captured: by which operation's origins and calls, and in which pass. */
  datatype Capture = Capture(segment: nat, origin: Anchor, ending: Anchor, calls: seq<string>, pass: nat)

  /** A capture repeats what discovery saw. */
  predicate Repeats(c: Capture, s: Segment) {
    c.origin == s.origin && s.ending == Some(c.ending) && c.calls == s.calls
  }

  predicate Follows(captures: seq<Capture>, node: Node, segments: seq<Segment>) {
    |captures| <= |node.discovered| && node.pending == node.discovered[|captures|..] &&
    (forall i | 0 <= i < |node.discovered| :: node.discovered[i] < |segments| &&
      segments[node.discovered[i]].ending.Some? && segments[node.discovered[i]].runner == i) &&
    (forall i, j | 0 <= i < j < |node.discovered| :: node.discovered[i] != node.discovered[j]) &&
    forall i | 0 <= i < |captures| ::
      captures[i].segment == node.discovered[i] && Repeats(captures[i], segments[captures[i].segment])
  }

  /** The same segment as far as capture compares it. */
  predicate SameRecord(a: Segment, b: Segment) {
    a.origin == b.origin && a.ending == b.ending && a.calls == b.calls && a.runner == b.runner
  }

  lemma FollowsKept(captures: seq<Capture>, node: Node, before: seq<Segment>, after: seq<Segment>)
    requires Follows(captures, node, before) && |before| <= |after|
    requires forall i | 0 <= i < |before| && i in node.discovered :: SameRecord(before[i], after[i])
    ensures Follows(captures, node, after)
  {
    forall i | 0 <= i < |node.discovered| ensures SameRecord(before[node.discovered[i]], after[node.discovered[i]]) {
      assert node.discovered[i] in node.discovered;
    }
  }

  lemma FollowsDiscovered(captures: seq<Capture>, node: Node, segments: seq<Segment>, id: nat)
    requires Follows(captures, node, segments) && id < |segments| && id !in node.discovered
    requires segments[id].ending.Some? && segments[id].runner == |node.discovered|
    ensures Follows(captures, Queued(node, id), segments)
  {
    assert Queued(node, id).discovered[|captures|..] == node.discovered[|captures|..] + [id];
  }

  function Queued(node: Node, id: nat): Node {
    node.(discovered := node.discovered + [id], pending := node.pending + [id])
  }

  lemma FollowsCaptured(captures: seq<Capture>, node: Node, segments: seq<Segment>, c: Capture)
    requires Follows(captures, node, segments) && node.pending != [] && c.segment == node.pending[0]
    requires Repeats(c, segments[c.segment])
    ensures Follows(captures + [c], node.(pending := node.pending[1..]), segments)
  {
  }

  /** The nodes whose captures are not the head of what they discovered. */
  function Strays(captures: map<string, seq<Capture>>, nodes: map<string, Node>, segments: seq<Segment>): set<string> {
    set name | name in nodes && !(name in captures && Follows(captures[name], nodes[name], segments))
  }

  predicate AllFollow(captures: map<string, seq<Capture>>, nodes: map<string, Node>, segments: seq<Segment>) {
    nodes.Keys <= captures.Keys && Strays(captures, nodes, segments) == {}
  }

  lemma OneFollows(captures: map<string, seq<Capture>>, nodes: map<string, Node>, segments: seq<Segment>, name: string)
    requires AllFollow(captures, nodes, segments) && name in nodes
    ensures Follows(captures[name], nodes[name], segments)
  {
    assert name !in Strays(captures, nodes, segments);
  }

  lemma AllFollowDiscovered(captures: map<string, seq<Capture>>, nodes: map<string, Node>, segments: seq<Segment>,
                            name: string, id: nat, finished: Segment)
    requires AllFollow(captures, nodes, segments) && name in nodes && id < |segments|
    requires Unlisted(nodes, id)
    requires finished.ending.Some? && finished.runner == |nodes[name].discovered|
    ensures AllFollow(captures, nodes[name := Queued(nodes[name], id)], segments[id := finished])
  {
    var after := segments[id := finished];
    var listed := (set n | n in nodes && id in nodes[n].discovered);
    forall n | n in nodes ensures Follows(captures[n], nodes[n], after) && id !in nodes[n].discovered {
      assert n !in listed;
      OneFollows(captures, nodes, segments, n);
      FollowsKept(captures[n], nodes[n], segments, after);
    }
    FollowsDiscovered(captures[name], nodes[name], after, id);
  }

  lemma AllFollowUpdated(captures: map<string, seq<Capture>>, nodes: map<string, Node>, segments: seq<Segment>,
                         id: nat, segment: Segment)
    requires AllFollow(captures, nodes, segments) && id < |segments| && SameRecord(segments[id], segment)
    ensures AllFollow(captures, nodes, segments[id := segment])
  {
    forall n | n in nodes ensures Follows(captures[n], nodes[n], segments[id := segment]) {
      OneFollows(captures, nodes, segments, n);
      FollowsKept(captures[n], nodes[n], segments, segments[id := segment]);
    }
  }

  lemma AllFollowCaptured(captures: map<string, seq<Capture>>, nodes: map<string, Node>, segments: seq<Segment>,
                          name: string, c: Capture)
    requires AllFollow(captures, nodes, segments) && name in nodes && nodes[name].pending != []
    requires c.segment == nodes[name].pending[0] < |segments| && Repeats(c, segments[c.segment])
    ensures AllFollow(captures[name := captures[name] + [c]],
                      nodes[name := nodes[name].(pending := nodes[name].pending[1..])], segments)
  {
    var later := captures[name := captures[name] + [c]];
    var queued := nodes[name := nodes[name].(pending := nodes[name].pending[1..])];
    forall n | n in nodes ensures Follows(later[n], queued[n], segments) {
      OneFollows(captures, nodes, segments, n);
      if n == name { FollowsCaptured(captures[name], nodes[name], segments, c); }
    }
  }

  lemma AllFollowRestarted(captures: map<string, seq<Capture>>, nodes: map<string, Node>, segments: seq<Segment>,
                           name: string, node: Node)
    requires AllFollow(captures, nodes, segments) && name in nodes
    requires node.discovered == nodes[name].discovered && node.pending == nodes[name].pending
    ensures AllFollow(captures, nodes[name := node], segments)
  {
    forall n | n in nodes ensures Follows(captures[n], nodes[name := node][n], segments) {
      OneFollows(captures, nodes, segments, n);
    }
  }

  lemma AllFollowGrown(captures: map<string, seq<Capture>>, nodes: map<string, Node>, segments: seq<Segment>, segment: Segment)
    requires AllFollow(captures, nodes, segments)
    ensures AllFollow(captures, nodes, segments + [segment])
    ensures Unlisted(nodes, |segments|)
  {
    forall n | n in nodes ensures Follows(captures[n], nodes[n], segments + [segment]) {
      OneFollows(captures, nodes, segments, n);
      FollowsKept(captures[n], nodes[n], segments, segments + [segment]);
    }
    forall n | n in nodes ensures |segments| !in nodes[n].discovered {
      OneFollows(captures, nodes, segments, n);
    }
  }

  /** Accepting every node's captures: all that was discovered, in order, once, with the same origins
      and the same calls. */
  predicate CapturedAsDiscovered(captures: seq<Capture>, discovered: seq<nat>, segments: seq<Segment>) {
    |captures| == |discovered| &&
    forall i | 0 <= i < |captures| ::
      captures[i].segment == discovered[i] < |segments| && Repeats(captures[i], segments[discovered[i]])
  }

  lemma NothingPending(captures: seq<Capture>, node: Node, segments: seq<Segment>)
    requires Follows(captures, node, segments)
    ensures node.pending == [] <==> |captures| == |node.discovered|
    ensures node.pending == [] ==> CapturedAsDiscovered(captures, node.discovered, segments)
  {
  }

  /** A capture works on the head of its node's queue, a discovery on a segment not listed yet. */
  predicate OperationFits(op: Operation, nodes: map<string, Node>, segments: seq<Segment>, origin: Anchor) {
    op.node in nodes && op.segment < |segments| && segments[op.segment].origin == origin &&
    (if op.capture then nodes[op.node].pending != [] && nodes[op.node].pending[0] == op.segment
     else Unlisted(nodes, op.segment))
  }

  predicate Unlisted(nodes: map<string, Node>, id: nat) {
    (set name | name in nodes && id in nodes[name].discovered) == {}
  }

  lemma AllFollowAdded(captures: map<string, seq<Capture>>, nodes: map<string, Node>, segments: seq<Segment>, name: string)
    requires AllFollow(captures, nodes, segments) && name !in nodes
    ensures AllFollow(captures[name := []], nodes[name := Node(true, false, false, [], [])], segments)
  {
    forall n | n in nodes ensures Follows(captures[n], nodes[n], segments) {
      OneFollows(captures, nodes, segments, n);
    }
  }

  /** The captures before position `started` are from earlier passes, the others from this one. A pass
      starts only when something is left to capture. */
  predicate InPasses(captures: seq<Capture>, started: nat, pass: nat, discovered: nat) {
    started <= |captures| && (started == 0 || started < discovered) &&
    (forall i | 0 <= i < started :: captures[i].pass < pass) &&
    forall i | started <= i < |captures| :: captures[i].pass == pass
  }

  /** The nodes whose captures are out of step with their passes. */
  function Unsteady(captures: map<string, seq<Capture>>, started: map<string, nat>, passes: map<string, nat>,
                    nodes: map<string, Node>): set<string> {
    set name | name in nodes && !(name in captures && name in started && name in passes &&
      InPasses(captures[name], started[name], passes[name], |nodes[name].discovered|))
  }

  predicate AllInPasses(captures: map<string, seq<Capture>>, started: map<string, nat>, passes: map<string, nat>,
                        nodes: map<string, Node>) {
    nodes.Keys <= captures.Keys && nodes.Keys <= started.Keys && nodes.Keys <= passes.Keys &&
    Unsteady(captures, started, passes, nodes) == {}
  }

  lemma OneInPasses(captures: map<string, seq<Capture>>, started: map<string, nat>, passes: map<string, nat>,
                    nodes: map<string, Node>, name: string)
    requires AllInPasses(captures, started, passes, nodes) && name in nodes
    ensures InPasses(captures[name], started[name], passes[name], |nodes[name].discovered|)
  {
    assert name !in Unsteady(captures, started, passes, nodes);
  }

  /** One node's captures, pass, position or queue change, and it stays in step. */
  lemma AllInPassesUpdated(captures: map<string, seq<Capture>>, started: map<string, nat>, passes: map<string, nat>,
                           nodes: map<string, Node>, name: string, own: seq<Capture>, from: nat, pass: nat, node: Node)
    requires AllInPasses(captures, started, passes, nodes) && InPasses(own, from, pass, |node.discovered|)
    ensures AllInPasses(captures[name := own], started[name := from], passes[name := pass], nodes[name := node])
  {
    forall n | n in nodes ensures InPasses(captures[n], started[n], passes[n], |nodes[n].discovered|) {
      OneInPasses(captures, started, passes, nodes, n);
    }
  }

  /** All captures belong to one pass. */
  predicate OnePass(captures: seq<Capture>) {
    forall i, j | 0 <= i < |captures| && 0 <= j < |captures| :: captures[i].pass == captures[j].pass
  }

  /** When nothing is left, one pass captured everything exactly when the last pass began with nothing
      captured, that is, with all that was discovered in the queue. */
  lemma OnePassIff(captures: seq<Capture>, started: nat, pass: nat, discovered: nat)
    requires InPasses(captures, started, pass, discovered) && |captures| == discovered
    ensures OnePass(captures) <==> started == 0
  {
    if started > 0 {
      assert captures[0].pass < captures[started].pass;
    }
  }

  /** How the region that closes went: it ran, it raised, or it ran and its capture gave no graph. */
  datatype Region = Ran | Failed | NoGraph

  datatype Closing = Refused | Raised | Done

  /** What ending the operation `op` does to the nodes, the segments and the captures. */
  predicate Ends(op: Operation, close: Anchor, region: Region, origin: Anchor, pass: nat, result: Closing,
                 n0: map<string, Node>, s0: seq<Segment>, c0: map<string, seq<Capture>>,
                 n1: map<string, Node>, s1: seq<Segment>, c1: map<string, seq<Capture>>)
    requires op.node in n0 && op.node in c0 && op.segment < |s0|
  {
    var node, s := n0[op.node], s0[op.segment];
    if !op.capture then
      result == Done && c1 == c0 && n1 == n0[op.node := Queued(node, op.segment)] &&
      s1 == s0[op.segment := s.(ending := Some(close), calls := s.events, status := Closed, runner := |node.discovered|)]
    else if s.ending != Some(close) || (region != Failed && s.events != s.calls) then
      result == Raised && c1 == c0 && n1 == n0 && s1 == s0[op.segment := s.(status := Invalid)]
    else if region == Failed then
      result == Done && c1 == c0 && n1 == n0 && s1 == s0
    else if region == NoGraph then
      result == Raised && c1 == c0 && n1 == n0 && s1 == s0[op.segment := s.(status := Closed)]
    else
      result == Done && s1 == s0[op.segment := s.(status := Closed)] && node.pending != [] &&
      n1 == n0[op.node := node.(pending := node.pending[1..])] &&
      c1 == c0[op.node := c0[op.node] + [Capture(op.segment, origin, close, s.events, pass)]]
  }

  lemma QueuedInPasses(captures: map<string, seq<Capture>>, started: map<string, nat>, passes: map<string, nat>,
                       nodes: map<string, Node>, name: string, id: nat)
    requires AllInPasses(captures, started, passes, nodes) && name in nodes
    ensures AllInPasses(captures, started, passes, nodes[name := Queued(nodes[name], id)])
  {
    OneInPasses(captures, started, passes, nodes, name);
    AllInPassesUpdated(captures, started, passes, nodes, name, captures[name], started[name], passes[name],
                       Queued(nodes[name], id));
    assert captures[name := captures[name]] == captures;
    assert started[name := started[name]] == started && passes[name := passes[name]] == passes;
  }

  lemma CapturedInPasses(captures: map<string, seq<Capture>>, started: map<string, nat>, passes: map<string, nat>,
                         nodes: map<string, Node>, name: string, c: Capture)
    requires AllInPasses(captures, started, passes, nodes) && name in nodes && nodes[name].pending != []
    requires c.pass == passes[name]
    ensures AllInPasses(captures[name := captures[name] + [c]], started, passes,
                        nodes[name := nodes[name].(pending := nodes[name].pending[1..])])
  {
    OneInPasses(captures, started, passes, nodes, name);
    AllInPassesUpdated(captures, started, passes, nodes, name, captures[name] + [c], started[name], passes[name],
                       nodes[name].(pending := nodes[name].pending[1..]));
    assert started[name := started[name]] == started && passes[name := passes[name]] == passes;
  }

  /** A new pass begins where the last one got to. */
  lemma RestartedInPasses(captures: map<string, seq<Capture>>, started: map<string, nat>, passes: map<string, nat>,
                          nodes: map<string, Node>, segments: seq<Segment>, name: string, node: Node)
    requires AllInPasses(captures, started, passes, nodes) && AllFollow(captures, nodes, segments)
    requires name in nodes && node.discovered == nodes[name].discovered && nodes[name].pending != []
    ensures AllInPasses(captures, started[name := |captures[name]|], passes[name := passes[name] + 1],
                        nodes[name := node])
    ensures |captures[name]| == 0 <==> nodes[name].pending == node.discovered
  {
    OneInPasses(captures, started, passes, nodes, name);
    OneFollows(captures, nodes, segments, name);
    AllInPassesUpdated(captures, started, passes, nodes, name, captures[name], |captures[name]|, passes[name] + 1, node);
    assert captures[name := captures[name]] == captures;
  }

  lemma CompletedInPasses(captures: map<string, seq<Capture>>, started: map<string, nat>, passes: map<string, nat>,
                          nodes: map<string, Node>, name: string)
    requires AllInPasses(captures, started, passes, nodes) && name in nodes
    ensures AllInPasses(captures, started, passes, nodes[name := nodes[name].(tracing := false, completed := true)])
  {
    OneInPasses(captures, started, passes, nodes, name);
    AllInPassesUpdated(captures, started, passes, nodes, name, captures[name], started[name], passes[name],
                       nodes[name].(tracing := false, completed := true));
    assert captures[name := captures[name]] == captures;
    assert started[name := started[name]] == started && passes[name := passes[name]] == passes;
  }

  class WarpTracing {
    var segments: seq<Segment>
    var nodes: map<string, Node>
    var active: Option<Operation>
    var owner: Option<nat>
    var nextId: nat
    ghost var captures: map<string, seq<Capture>>
    ghost var passes: map<string, nat>
    /** For each node, how much was captured when its last pass began. */
    ghost var started: map<string, nat>
    ghost var activeOrigin: Anchor

    ghost predicate Valid()
      reads this
    {
      AllFollow(captures, nodes, segments) &&
      (active.Some? ==> OperationFits(active.value, nodes, segments, activeOrigin)) &&
      AllInPasses(captures, started, passes, nodes) &&
      (owner.Some? ==> active.Some? && owner.value == active.value.id) &&
      (active.Some? ==> active.value.id < nextId)
    }

    constructor ()
      ensures Valid() && nodes == map[] && active.None? && owner.None? && segments == [] && captures == map[]
      ensures started == map[]
    {
      segments, nodes, active, owner, nextId := [], map[], None, None, 0;
      captures, passes, started, activeOrigin := map[], map[], map[], 0;
    }

    method AddNode(name: string)
      requires Valid() && name !in nodes
      modifies this`nodes, this`captures, this`passes, this`started
      ensures Valid() && nodes == old(nodes)[name := Node(true, false, false, [], [])]
      ensures captures == old(captures)[name := []]
    {
      AllFollowAdded(captures, nodes, segments, name);
      AllInPassesUpdated(captures, started, passes, nodes, name, [], 0, 0, Node(true, false, false, [], []));
      nodes := nodes[name := Node(true, false, false, [], [])];
      captures, passes, started := captures[name := []], passes[name := 0], started[name := 0];
    }

    /** Rewriting a segment in what capture does not compare, or one not discovered yet. */
    method Update(id: nat, segment: Segment)
      requires Valid() && id < |segments| && SameRecord(segments[id], segment)
      modifies this`segments
      ensures Valid() && segments == old(segments)[id := segment]
    {
      AllFollowUpdated(captures, nodes, segments, id, segment);
      segments := segments[id := segment];
    }

    /** A Warp call inside the open segment. */
    method RecordCall(qualname: string)
      requires Valid() && active.Some?
      modifies this`segments
      ensures Valid()
      ensures
        var s := active.value.segment;
        segments == old(segments)[s := old(segments)[s].(events := old(segments)[s].events + [qualname])]
    {
      var s := active.value.segment;
      Update(s, segments[s].(events := segments[s].events + [qualname]));
    }

    /** Ends discovery of the open segment and queues it for capture. */
    method TerminateDiscovery(close: Anchor)
      requires Valid() && active.Some? && !active.value.capture
      modifies this`segments, this`nodes, this`active, this`owner
      ensures Valid() && active.None? && owner.None?
      ensures Ends(old(active.value), close, Ran, activeOrigin, 0, Done,
                   old(nodes), old(segments), old(captures), nodes, segments, captures)
    {
      var op := active.value;
      var node, segment := nodes[op.node], segments[op.segment];
      var finished := segment.(ending := Some(close), calls := segment.events,
                               status := Closed, runner := |node.discovered|);
      AllFollowDiscovered(captures, nodes, segments, op.node, op.segment, finished);
      QueuedInPasses(captures, started, passes, nodes, op.node, op.segment);
      segments := segments[op.segment := finished];
      nodes := nodes[op.node := Queued(node, op.segment)];
      active, owner := None, None;
    }

    /** Ends the capture of the open segment. It counts as captured only when it closes where
        discovery closed it, without an error, after the same calls and with a graph. */
    method TerminateCapture(close: Anchor, region: Region) returns (result: Closing)
      requires Valid() && active.Some? && active.value.capture
      modifies this`segments, this`nodes, this`active, this`owner, this`captures
      ensures Valid() && active.None? && owner.None? && result != Refused
      ensures Ends(old(active.value), close, region, activeOrigin, passes[old(active.value.node)], result,
                   old(nodes), old(segments), old(captures), nodes, segments, captures)
    {
      var op := active.value;
      var s, node := segments[op.segment], nodes[op.node];
      active, owner := None, None;
      if s.ending != Some(close) {
        Update(op.segment, s.(status := Invalid));
        return Raised;
      }
      if region == Failed { return Done; }
      if s.events != s.calls {
        Update(op.segment, s.(status := Invalid));
        return Raised;
      }
      Update(op.segment, s.(status := Closed));
      if region == NoGraph { return Raised; }
      ghost var c := Capture(op.segment, activeOrigin, close, s.events, passes[op.node]);
      AllFollowCaptured(captures, nodes, segments, op.node, c);
      CapturedInPasses(captures, started, passes, nodes, op.node, c);
      nodes := nodes[op.node := node.(pending := node.pending[1..])];
      captures := captures[op.node := captures[op.node] + [c]];
      return Done;
    }

    /** Closing is refused to anyone but the owner of an owned operation; otherwise the session is
        empty afterwards, whether or not ending the segment raised. */
    method CloseSegment(requester: Option<nat>, close: Anchor, region: Region) returns (result: Closing)
      requires Valid()
      modifies this`segments, this`nodes, this`active, this`owner, this`captures
      ensures Valid()
      ensures result == Refused <==> old(active.Some? && owner.Some? && requester != owner)
      ensures result == Refused || old(active.None?) ==> segments == old(segments) && nodes == old(nodes)
      ensures result == Refused || old(active.None?) ==>
        active == old(active) && owner == old(owner) && captures == old(captures)
      ensures result != Refused ==> active.None? && owner.None?
      ensures old(active.None?) ==> result == Done
      ensures old(active.Some?) && result != Refused ==>
        Ends(old(active.value), close, region, activeOrigin, passes[old(active.value.node)], result,
             old(nodes), old(segments), old(captures), nodes, segments, captures)
    {
      if active.None? { return Done; }
      if owner.Some? && requester != owner { return Refused; }
      if active.value.capture {
        result := TerminateCapture(close, region);
      } else {
        TerminateDiscovery(close);
        result := Done;
      }
    }

    /** Registering an operation first closes the one open before it. */
    method CloseForNext(id: nat, owned: bool, origin: Anchor, region: Region) returns (ok: bool)
      requires Valid() && id >= nextId && region != Failed
      modifies this`segments, this`nodes, this`active, this`owner, this`captures
      ensures Valid() && nodes.Keys == old(nodes.Keys)
      ensures old(owner.Some?) ==> !ok && active == old(active) && owner == old(owner)
      ensures old(owner.Some?) ==> captures == old(captures) && nodes == old(nodes) && segments == old(segments)
      ensures ok ==> active.None? && owner.None?
      ensures ok && old(active.None?) ==> captures == old(captures) && nodes == old(nodes) && segments == old(segments)
      ensures ok && old(active.Some?) ==>
        Ends(old(active.value), origin, region, activeOrigin, passes[old(active.value.node)], Done,
             old(nodes), old(segments), old(captures), nodes, segments, captures)
      ensures old(active.None?) ==> ok
    {
      var closed := CloseSegment(if owned then Some(id) else None, origin, region);
      ok := closed == Done;
    }

    /** A new segment becomes the open operation. */
    method OpenNew(name: string, owned: bool, origin: Anchor)
      requires Valid() && name in nodes && active.None? && owner.None?
      modifies this`segments, this`active, this`owner, this`activeOrigin, this`nextId
      ensures Valid()
      ensures active == Some(Operation(old(nextId), name, |old(segments)|, false)) && activeOrigin == origin
      ensures owner == if owned then Some(old(nextId)) else None
      ensures segments == old(segments) + [Segment(origin, None, [], [], Open, 0)]
    {
      AllFollowGrown(captures, nodes, segments, Segment(origin, None, [], [], Open, 0));
      segments := segments + [Segment(origin, None, [], [], Open, 0)];
      active := Some(Operation(nextId, name, |segments| - 1, false));
      owner := if owned then Some(nextId) else None;
      activeOrigin := origin;
      nextId := nextId + 1;
    }

    /** Opening a discovery operation, on a new segment; `region` is how the one open before it went. */
    method BeginDiscovery(name: string, owned: bool, origin: Anchor, region: Region) returns (ok: bool, ghost before: seq<Segment>)
      requires Valid() && name in nodes && region != Failed
      modifies this
      ensures Valid() && nodes.Keys == old(nodes.Keys)
      ensures passes == old(passes) && started == old(started)
      ensures old(owner.Some?) ==> !ok && active == old(active) && captures == old(captures) && nodes == old(nodes)
      ensures ok ==> active == Some(Operation(old(nextId), name, |before|, false)) && activeOrigin == origin
      ensures ok ==> owner == if owned then Some(old(nextId)) else None
      ensures ok ==> segments == before + [Segment(origin, None, [], [], Open, 0)]
      ensures ok && old(active.None?) ==> captures == old(captures) && nodes == old(nodes) && before == old(segments)
      ensures ok && old(active.Some?) ==>
        Ends(old(active.value), origin, region, old(activeOrigin), passes[old(active.value.node)], Done,
             old(nodes), old(segments), old(captures), nodes, before, captures)
      ensures old(active.None?) ==> ok
    {
      ok := CloseForNext(nextId, owned, origin, region);
      before := segments;
      if ok { OpenNew(name, owned, origin); }
    }

    /** The head of the queue becomes the open operation if it was opened at the same place. */
    method OpenPending(name: string, owned: bool, origin: Anchor) returns (ok: bool)
      requires Valid() && name in nodes && active.None? && owner.None?
      modifies this`segments, this`active, this`owner, this`activeOrigin, this`nextId
      ensures Valid()
      ensures
        var pending := nodes[name].pending;
        ok <==> pending != [] && pending[0] < |old(segments)| && old(segments)[pending[0]].origin == origin
      ensures !ok ==> active.None? && segments == old(segments)
      ensures ok ==>
        var s := nodes[name].pending[0];
        active == Some(Operation(old(nextId), name, s, true)) && activeOrigin == origin &&
        owner == (if owned then Some(old(nextId)) else None) &&
        segments == old(segments)[s := old(segments)[s].(status := Open, events := [])]
    {
      if nodes[name].pending == [] { return false; }
      OneFollows(captures, nodes, segments, name);
      var s := nodes[name].pending[0];
      assert s == nodes[name].discovered[|captures[name]|];
      if segments[s].origin != origin { return false; }
      Update(s, segments[s].(status := Open, events := []));
      active := Some(Operation(nextId, name, s, true));
      owner := if owned then Some(nextId) else None;
      activeOrigin := origin;
      nextId := nextId + 1;
      return true;
    }

    /** Opening a capture operation on the next segment in the queue, from where discovery opened it. */
    method BeginCapture(name: string, owned: bool, origin: Anchor, region: Region) returns (ok: bool, ghost before: seq<Segment>)
      requires Valid() && name in nodes && region != Failed
      modifies this
      ensures Valid() && nodes.Keys == old(nodes.Keys)
      ensures passes == old(passes) && started == old(started)
      ensures old(owner.Some?) ==> !ok && active == old(active) && captures == old(captures) && nodes == old(nodes)
      ensures ok ==>
        var pending := nodes[name].pending;
        pending != [] && pending[0] < |before| && before[pending[0]].origin == origin == activeOrigin &&
        active == Some(Operation(old(nextId), name, pending[0], true)) &&
        owner == (if owned then Some(old(nextId)) else None) &&
        segments == before[pending[0] := before[pending[0]].(status := Open, events := [])]
      ensures old(active.None?) ==> captures == old(captures) && nodes == old(nodes) && before == old(segments)
      ensures ok && old(active.Some?) ==>
        Ends(old(active.value), origin, region, old(activeOrigin), passes[old(active.value.node)], Done,
             old(nodes), old(segments), old(captures), nodes, before, captures)
      ensures old(active.None?) ==>
        var pending := nodes[name].pending;
        ok <==> pending != [] && pending[0] < |before| && before[pending[0]].origin == origin
    {
      ok := CloseForNext(nextId, owned, origin, region);
      before := segments;
      if ok { ok := OpenPending(name, owned, origin); }
    }

    /** Re-entering a node whose trace is complete and whose queue is not empty starts a capture pass. */
    method PrepareWarpCapture(name: string)
      requires Valid() && name in nodes
      modifies this`nodes, this`passes, this`started
      ensures Valid()
      ensures
        var node := old(nodes)[name];
        if node.pending == [] || node.tracing then
          nodes == old(nodes) && passes == old(passes) && started == old(started)
        else nodes == old(nodes)[name := node.(tracing := true, capturing := true)] &&
             passes == old(passes)[name := old(passes)[name] + 1] &&
             started == old(started)[name := |captures[name]|] &&
             (started[name] == 0 <==> node.pending == node.discovered)
    {
      var node := nodes[name];
      if node.pending == [] || node.tracing { return; }
      RestartedInPasses(captures, started, passes, nodes, segments, name, node.(tracing := true, capturing := true));
      AllFollowRestarted(captures, nodes, segments, name, node.(tracing := true, capturing := true));
      nodes := nodes[name := node.(tracing := true, capturing := true)];
      passes, started := passes[name := passes[name] + 1], started[name := |captures[name]|];
    }

    /** A pass over a node ends. */
    method CompleteTrace(name: string)
      requires Valid() && name in nodes
      modifies this`nodes
      ensures Valid() && nodes == old(nodes)[name := old(nodes)[name].(tracing := false, completed := true)]
    {
      AllFollowRestarted(captures, nodes, segments, name, nodes[name].(tracing := false, completed := true));
      CompletedInPasses(captures, started, passes, nodes, name);
      nodes := nodes[name := nodes[name].(tracing := false, completed := true)];
    }

    /** Compiling is accepted only when every node is complete and nothing is left to capture, and
        then every node captured what it discovered. It did so in one pass exactly when its last pass
        began with nothing captured. */
    method ValidateNodesReadyForCompile() returns (ok: bool)
      requires Valid()
      ensures ok <==> forall name | name in nodes :: nodes[name].completed && nodes[name].pending == []
      ensures ok ==> forall name | name in nodes ::
        CapturedAsDiscovered(captures[name], nodes[name].discovered, segments) &&
        (OnePass(captures[name]) <==> started[name] == 0)
    {
      ok := forall name | name in nodes :: nodes[name].completed && nodes[name].pending == [];
      forall name | name in nodes && ok
        ensures CapturedAsDiscovered(captures[name], nodes[name].discovered, segments)
        ensures OnePass(captures[name]) <==> started[name] == 0
      {
        OneFollows(captures, nodes, segments, name);
        NothingPending(captures[name], nodes[name], segments);
        OneInPasses(captures, started, passes, nodes, name);
        OnePassIff(captures[name], started[name], passes[name], |nodes[name].discovered|);
      }
    }
  }

  /** Discovering an empty region opened at 1 and closed at 2. */
  method DiscoverOneRegion(w: WarpTracing)
    requires w.Valid() && w.active.None? && w.nodes.Keys == {"n"}
    modifies w
    ensures w.Valid() && w.active.None? && w.captures == old(w.captures)
    ensures w.nodes.Keys == {"n"} && w.nodes["n"] == Queued(old(w.nodes["n"]), |old(w.segments)|)
    ensures w.segments == old(w.segments) + [Segment(1, Some(2), [], [], Closed, |old(w.nodes["n"]).discovered|)]
  {
    var ok, before := w.BeginDiscovery("n", false, 1, Ran);
    var closed := w.CloseSegment(None, 2, Ran);
  }

  /** A node "n" in its first pass. */
  method OneNode() returns (w: WarpTracing)
    ensures fresh(w) && w.Valid() && w.active.None? && w.segments == []
    ensures w.nodes.Keys == {"n"} && w.nodes["n"] == Node(true, false, false, [], [])
    ensures "n" in w.captures && w.captures["n"] == []
  {
    w := new WarpTracing();
    w.AddNode("n");
  }

  /** Discovering two such regions. */
  method DiscoverTwoRegions() returns (w: WarpTracing)
    ensures fresh(w) && w.Valid() && w.active.None?
    ensures w.segments == [Segment(1, Some(2), [], [], Closed, 0), Segment(1, Some(2), [], [], Closed, 1)]
    ensures w.nodes.Keys == {"n"} && w.nodes["n"] == Node(true, false, false, [0, 1], [0, 1])
    ensures "n" in w.captures && w.captures["n"] == []
  {
    w := OneNode();
    DiscoverOneRegion(w);
    DiscoverOneRegion(w);
  }

  method DiscoveryPass() returns (w: WarpTracing)
    ensures fresh(w) && w.Valid() && w.active.None?
    ensures w.segments == [Segment(1, Some(2), [], [], Closed, 0), Segment(1, Some(2), [], [], Closed, 1)]
    ensures w.nodes.Keys == {"n"} && w.nodes["n"] == Node(false, true, false, [0, 1], [0, 1])
    ensures "n" in w.captures && w.captures["n"] == []
  {
    w := DiscoverTwoRegions();
    w.CompleteTrace("n");
  }

  /** The next segment in the queue is an empty region opened at 1 and closed at 2. */
  predicate EmptyRegionNext(node: Node, segments: seq<Segment>) {
    node.pending != [] && node.pending[0] < |segments| &&
    segments[node.pending[0]].origin == 1 && segments[node.pending[0]].ending == Some(2) &&
    segments[node.pending[0]].calls == []
  }

  /** Capturing such a region. */
  method CaptureOneRegion(w: WarpTracing)
    requires w.Valid() && w.active.None? && w.nodes.Keys == {"n"} && EmptyRegionNext(w.nodes["n"], w.segments)
    modifies w
    ensures w.Valid() && w.active.None? && w.passes == old(w.passes) && w.started == old(w.started)
    ensures
      var node := old(w.nodes["n"]);
      w.nodes == old(w.nodes)["n" := node.(pending := node.pending[1..])] && |w.segments| == |old(w.segments)| &&
      (forall i | 0 <= i < |w.segments| && i != node.pending[0] :: w.segments[i] == old(w.segments)[i]) &&
      w.captures == old(w.captures)["n" := old(w.captures["n"]) + [Capture(node.pending[0], 1, 2, [], old(w.passes["n"]))]]
  {
    var ok, before := w.BeginCapture("n", false, 1, Ran);
    var closed := w.CloseSegment(None, 2, Ran);
  }

  /** A capture pass begins and meets one such region. */
  method CaptureInNewPass(w: WarpTracing)
    requires w.Valid() && w.active.None? && w.nodes.Keys == {"n"} && EmptyRegionNext(w.nodes["n"], w.segments)
    requires !w.nodes["n"].tracing
    modifies w
    ensures w.Valid() && w.active.None? && w.nodes.Keys == {"n"}
    ensures w.nodes["n"] ==
      old(w.nodes["n"]).(tracing := true, capturing := true, pending := old(w.nodes["n"].pending[1..]))
    ensures w.started["n"] == |old(w.captures["n"])| && |w.captures["n"]| == |old(w.captures["n"])| + 1
    ensures |w.segments| == |old(w.segments)|
    ensures forall i | 0 <= i < |w.segments| && i != old(w.nodes["n"].pending[0]) :: w.segments[i] == old(w.segments)[i]
  {
    w.PrepareWarpCapture("n");
    CaptureOneRegion(w);
  }

  /** A capture pass over one such region. */
  method CaptureOnePass(w: WarpTracing)
    requires w.Valid() && w.active.None? && w.nodes.Keys == {"n"} && EmptyRegionNext(w.nodes["n"], w.segments)
    requires !w.nodes["n"].tracing
    modifies w
    ensures w.Valid() && w.active.None? && w.nodes.Keys == {"n"}
    ensures w.nodes["n"] == Node(false, true, true, old(w.nodes["n"].discovered), old(w.nodes["n"].pending[1..]))
    ensures w.started["n"] == |old(w.captures["n"])| && |w.captures["n"]| == |old(w.captures["n"])| + 1
    ensures |w.segments| == |old(w.segments)|
    ensures forall i | 0 <= i < |w.segments| && i != old(w.nodes["n"].pending[0]) :: w.segments[i] == old(w.segments)[i]
  {
    CaptureInNewPass(w);
    w.CompleteTrace("n");
  }

  /** Captured one per pass, the two regions are accepted for compiling, though the last pass holds
      only the second of them: it began with one already captured. */
  method CapturedAcrossPasses() returns (w: WarpTracing, accepted: bool)
    ensures w.Valid() && accepted && "n" in w.captures && "n" in w.started
    ensures w.started["n"] == 1 && !OnePass(w.captures["n"])
  {
    w := DiscoveryPass();
    CaptureOnePass(w);
    assert w.nodes["n"] == Node(false, true, true, [0, 1], [1]);
    CaptureOnePass(w);
    assert w.nodes["n"] == Node(false, true, true, [0, 1], []);
    accepted := w.ValidateNodesReadyForCompile();
  }
}
