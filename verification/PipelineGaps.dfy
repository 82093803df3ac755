/** Two graphs that export and do not replay: one with a node that has no outputs, one with a slash in
    the name of a port on an edge. */
module PipelineGaps {
  import opened Ports
  import opened Inference
  import opened Dataflow
  import opened InferenceRuntime
  import opened PipelineGraph
  import opened PipelineExport
  import opened EndToEnd
  import opened PipelineReplay

  const SCALAR := TensorType([], "float32")

  /** A node "a" without inputs and outputs. */
  function Silent(): seq<TracedNode<int>> {
    [TracedNode(0, "a", 0, [], [], [], (ins: seq<int>) => Tuple([]))]
  }

  lemma SilentIsOk()
    ensures GraphOk(Silent()) && ModelsTotal(Silent())
    ensures TypesAgree(Silent()) && PlainEdges(Silent()) && !HasDuplicateSource(Silent(), 0)
  {
    assert NodeOk(Silent()[0]);
    assert Total(RuntimeNode(Silent()[0]));
  }

  lemma SilentRuns()
    requires GraphOk(Silent())
    ensures RuntimeNodes(Silent()) == [RuntimeNode(Silent()[0])] && FirstSilent(RuntimeNodes(Silent()), 0) == 0
  {
  }

  /** It exports and loads, and its first step raises. */
  method SilentNodeRaises() returns (r: RunResult<int>)
    ensures r == Raised(NoRoutes("a"))
  {
    SilentIsOk();
    SilentRuns();
    var nodes, blank := Silent(), (ty: TensorType) => 0;
    var run := RuntimeNodes(nodes);
    var exported := Export(nodes);
    var p := exported.pipeline;
    ExportLoads(nodes, p, blank);
    var tables := LoadPipeline(run, p, blank);
    var manager := new InferenceManager(run, p, blank, v => 0, tables);
    var runs: seq<Supply<int>> := [[]];
    PipelineRunsIffHasOutputs(nodes, p, blank, tables, runs, 1);
    assert Replay(tables.values, run, tables.routes, runs, 1) == Step(tables.values, run, tables.routes, runs[0]);
    r := manager.RunPolicy([]);
  }

  /** Node "b" reads output "x/y" of node "a". */
  function Slashed(): seq<TracedNode<int>> {
    [TracedNode(0, "a", 0, [], [OutputDesc(0, "x/y", "x/y", SCALAR)], [], (ins: seq<int>) => Tuple([0])),
     TracedNode(1, "b", 1, [InputDesc(1, "i", Some(Source(0, "x/y")), SCALAR, 0)], [], [],
       (ins: seq<int>) => Tuple([]))]
  }

  lemma SlashedGraphOk()
    ensures GraphOk(Slashed())
  {
    var nodes := Slashed();
    assert NodeOk(nodes[0]) && NodeOk(nodes[1]) && NodesApartBy(nodes, 0, 1);
  }

  lemma SlashedWire()
    ensures Wire(Slashed(), Place(1, 0)) == Some(Place(0, 0))
  {
    SlashedGraphOk();
    ResolvesToSource(Slashed(), Slashed()[1].inputs[0].source, Place(0, 0));
  }

  lemma SlashedIsOk()
    ensures GraphOk(Slashed()) && TypesAgree(Slashed()) && !PlainEdges(Slashed())
    ensures forall k | 0 <= k < 2 :: !HasDuplicateSource(Slashed(), k)
  {
    SlashedGraphOk();
    SlashedWire();
    assert forall t | IsInput(Slashed(), t) :: t == Place(1, 0);
    assert Slashed()[0].outputs[0].name[1] == '/';
    assert !PlainEdge(Slashed(), Place(1, 0));
  }

  /** It exports, and the description does not load. */
  method SlashedPortRefused() returns (exported: ExportResult<int>, loaded: LoadResult<int>)
    ensures exported.Exported? && loaded.Rejected?
  {
    SlashedIsOk();
    var blank := (ty: TensorType) => 0;
    exported := Export(Slashed());
    ExportLoads(Slashed(), exported.pipeline, blank);
    loaded := LoadPipeline(RuntimeNodes(Slashed()), exported.pipeline, blank);
  }
}
