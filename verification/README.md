# LEAPP, verified

LEAPP records a tensor program as a graph, rewrites and prunes it, wires several such graphs into a
pipeline, writes the pipeline out, and replays it. This Dafny project models the places where one form
must mean the same as another and proves that it does. `dafny verify dfyconfig.toml` checks all of it.

## What is modelled

**Pipeline wiring and replay.** `PipelineGraph` collects edges from input descriptions into buckets
(state, forward, feedback, or none); `PipelineExport` and `EndToEnd` write them as string-keyed
dictionaries; `InferenceRuntime` parses and merges these and replays the nodes in completion order as a
push loop over slots (`Inference`). `Dataflow` is the specification: synchronous dataflow with a unit
delay on feedback edges. `PipelineReplay` connects all of it: for every graph that exports and every
sequence of supplied inputs the push loop computes the dataflow the input descriptions intend.
`PipelineResults` says under which names results come back; `PipelineGaps` holds two graphs that export
and do not replay.

**Index lowering.** `Tensors` has shapes, row-major positions and flat data of any rank; `BasicIndexing`
says what a key of integers, slices, new axes and one ellipsis selects; `AxisOps` has the recorded
operations (`flip`, `index_select`, `narrow`, `getitem`) and what it means for a run of them to compute a
key. `SliceLowering` (reverse slices), `RuntimeSlices` (bounds known only at run time), `AtenRewrites`
(ATen slices, with the graph rewiring and deferred erasure) and `SetItem` (assignment as one flat
`index_put`) prove the four translations; `RuntimeAssignment` composes the second and the last.

**Graphs and handles.** `GraphPruning` is the worklist, the reverse erasure and the trimming of inputs;
`HandleForest` the redirections of graph handles and the getter that follows them; `WarpCapture` the
discovery and capture passes with their queue and session.

**Formats.** `JsonText`, `FieldSearch`, `FieldReading`, `ObjectArrays`, `MetadataText`, `RuntimeMetadata`
and `RunnerMetadata` are the compact JSON that Python prints (RFC 8259, sections 4 to 7) and the pattern
searches and bracket scanner with which the runtime reads it; `WrpbArchive` the length-prefixed archive;
`NestedIo`, `NestedPacking` and `DescribedPaths` the traversals of nested inputs and outputs.

**Smaller pieces.** `DenseLayout` (the sort-and-product density test), `AttributePatches` (monkeypatch
restoration), `OnnxRepairs` (output cloning, GatherND indices, shared names).

## How it is modelled

- Objects whose fields the program updates are classes (`InferenceManager`, the two `TracedNode`s,
  `WarpTracing`, `AttributePatchRegistry`); loops are methods with invariants, proved against functions
  about which the lemmas speak.
- A dictionary of dictionaries is a map keyed by pairs, with the set of its groups where an empty group
  matters.
- Node models are total, pure functions on lists of values. `blank` and `zeroed` stand for the zero
  tensors the runtime allocates and for zeroing in place.
- An exception is an absent result, or an error value where the state at the raise matters.
- A graph step in `GraphPruning` maps input values and a storage to a value and a new storage, so writes
  through views are writes to the storage.

## Where the code does less than it promises

Each of these is proved with a concrete input or an exact condition.

- A runtime slice that starts from the end and stops at zero takes the tail, where Python takes nothing
  (`RuntimeSlices.TailInsteadOfNothing`, `RuntimeSlices.LoweredKeyMeans`); an assignment through it
  overwrites that tail (`RuntimeAssignment.TailIsOverwritten`).
- Fixed and absent bounds of a runtime slice are worked out on the shape seen while tracing; on a tensor of
  another shape the recorded ranges may have another length or start than Python's
  (`RuntimeSlices.OtherShapeComputes`, `RuntimeSlices.RestOfLonger`).
- Keys that indexing refuses, with too many axes or two ellipses, are recorded, and run when only full slices
  are left of them (`RuntimeSlices.LoweredKeyMeans`, `RuntimeSlices.OverlongKeyNarrowed`,
  `SliceLowering.LowerNegativeSlices`, `SliceLowering.OverlongKeyAccepted`, `SliceLowering.TwoEllipsesAccepted`).
- Whether an assigned value is broadcast, and to which shape, is fixed while tracing. When a runtime slice or
  a mask selects another number of elements at replay, a recorded broadcast makes the replay fail; when it
  selects as many in another shape, the values may land elsewhere (`SetItem.RecordedIsAssignment`,
  `SetItem.SameSpreadIffInOrder`, `SetItem.OtherRowCount`, `SetItem.OtherOrder`,
  `RuntimeAssignment.RuntimeAssignmentIsAssignment`, `RuntimeAssignment.RowsAddedSinceTracing`).
- Assignment of a value with extra leading axes of size one is accepted eagerly and refused by its
  recording; a traced NumPy value has no `numel`, so it is never broadcast (`SetItem.UnchangedIsAssignment`,
  `SetItem.LeadingAxisRefused`, `SetItem.NumpyRowRefused`).
- A node without outputs passes the load-time routing check and stops every step
  (`PipelineReplay.PipelineRunsIffHasOutputs`, `PipelineGaps.SilentNodeRaises`).
- Ports with a slash are emitted and then fail the load (`PipelineReplay.FlowsParseIffPlain`,
  `PipelineGaps.SlashedPortRefused`).
- The Warp checks accept segments captured in different passes; they are from one pass exactly when the last
  pass began with everything discovered in the queue (`WarpCapture.OnePassIff`,
  `WarpCapture.CapturedAcrossPasses`).
- Unsigned types of 16 bits and more are described as signed ones: a type keeps its own name only if that
  is known, or holds no known one (`RunnerMetadata.OwnNameKept`, `RunnerMetadata.UnsignedIsSigned`).
- Description drops list entries that hold no tensor, and accessors then miss the entries behind them
  (`DescribedPaths.AccessorsLeadIffUnshifted`, `DescribedPaths.ShiftedEntry`).
- The runtime's bundle size is the first tensor's byte count (`RuntimeMetadata.BundleBytesRead`).
- A caller may supply a name for the result slot itself; it then comes back among the results
  (`PipelineResults.PipelineResultNames`).
- Unpacking fails when a tensor before the last has the parameter's own name (`NestedPacking.ShadowedFails`,
  `NestedPacking.ShadowingEntry`).

## Model

| member | source | states |
|---|---|---|
| DenseLayout.ProductRunIsDense | leapp/utils/tensor_description.py:114-126 | On every non-empty shape, and for all integer strides, the product run over the sorted dimensions above size one succeeds exactly when the stride map sends the index box one-to-one onto [0, numel). |
| DenseLayout.DenseIsOrderFree | leapp/utils/tensor_description.py:114-118 | Listing the dimensions in any other order never changes whether a layout is dense, so sorting them first is sound. |
| DenseLayout.IsDense | leapp/utils/tensor_description.py:110-126 | The whole test: true for unstrided layouts and for one element or none, otherwise true exactly for a bijective address map. |
| Ports.KeyRoundTrip | leapp/inference_manager.py:240-244 | A slash-free node and port written as one key split back into the same two names. |
| Ports.ParsedKeyIsWritten | leapp/inference_manager.py:240-244 | A key that splits into two parts is exactly the key those parts are written as. |
| Ports.KeyInjective | leapp/leapp_graph/leapp_graph.py:162-181 | Keys of slash-free node names never collide. |
| PipelineGraph.ResolvesToSource | leapp/leapp_graph/leapp_graph.py:183-209 | A received value resolves to the output of its own node and port and to no other; to nothing exactly when it has no source or the graph has no such output. |
| PipelineGraph.AddEdgeAdds | leapp/leapp_graph/leapp_graph.py:286-303 | Adding to a source bucket adds exactly one edge and keeps all others. |
| PipelineGraph.BuildStateConnections | leapp/leapp_graph/leapp_graph.py:211-248 | Every declared state pair becomes one feedback edge, its input is claimed, and nothing else is. |
| PipelineGraph.BuildConnections | leapp/leapp_graph/leapp_graph.py:250-303 | Fails exactly when some node receives one output twice; otherwise an input has an edge if and only if it is wired, from its own source only, forward exactly when the source completed strictly earlier. |
| PipelineExport.EdgesAndKeys | leapp/leapp_graph/leapp_graph.py:305-331 | An input key is among the edge targets exactly when its input is wired. |
| PipelineExport.SourcesAndKeys | leapp/leapp_graph/leapp_graph.py:305-331 | An output key is among the edge sources exactly when something consumes it. |
| PipelineExport.CompileGraphIo | leapp/leapp_graph/leapp_graph.py:305-368 | Graph inputs are exactly the inputs no edge feeds and graph outputs exactly the outputs nothing consumes, in node order. |
| PipelineExport.FinalizeConnections | leapp/leapp_graph/leapp_graph.py:162-181 | Each bucket becomes one dictionary entry that lists its targets in order, and no other entry exists. |
| PipelineExport.GroupPorts | leapp/leapp_graph/leapp_graph.py:110-127 | Grouping keys by node loses and duplicates no port. |
| PipelineExport.FieldsCount | leapp/leapp_graph/leapp_graph.py:110-127 | A port is listed under its node as often as its key was listed. |
| PipelineExport.FeedbackInitialValues | leapp/leapp_graph/leapp_graph.py:77-97 | Initial values are stored for exactly the feedback inputs, each with the value its description recorded. |
| PipelineExport.GraphStatistics | leapp/leapp_graph/leapp_graph.py:150-160 | Conservation: internal connections plus graph inputs equals the number of all inputs, and all edges together number the inputs plus the graph outputs. |
| EndToEnd.Export | leapp/leapp_graph/leapp_graph.py:99-127 | The emitted description says everything the graph wired and nothing else, or reports a duplicate source or a type mismatch exactly when there is one. |
| EndToEnd.MergedTargets | leapp/inference_manager.py:228-250 | Merging the two flow dictionaries gives every output exactly its consumers, each once. |
| InferenceRuntime.MergeFlows | leapp/inference_manager.py:228-238 | A source in both flows keeps its forward targets before its feedback targets. |
| InferenceRuntime.OrganizeEdges | leapp/inference_manager.py:238-262 | Loading fails exactly when some key does not split in two; otherwise each port has exactly its parsed targets. |
| InferenceRuntime.AddResults | leapp/inference_manager.py:262-288 | Every listed graph output also goes to the result slot; an unknown node or an undeclared output fails the load. |
| InferenceRuntime.Prepopulate | leapp/inference_manager.py:386-421 | Initial values land in existing slots and change no other; a key without a slot fails the load. |
| InferenceRuntime.LoadPipeline | leapp/inference_manager.py:137-165 | A description loads exactly when every check passes, and then the tables are the ones it describes. |
| InferenceRuntime.InferenceManager.constructor | leapp/inference_manager.py:137-165 | A constructed manager holds the loaded tables and the loaded values. |
| InferenceRuntime.InferenceManager.FeedInputs | leapp/inference_manager.py:424-434 | Supplied values overwrite their own slots, up to the first bad key. |
| InferenceRuntime.InferenceManager.PushOutputs | leapp/inference_manager.py:450-463 | Each output reaches all its targets and nothing else changes. |
| InferenceRuntime.InferenceManager.RunPolicy | leapp/inference_manager.py:423-464 | One call performs one step of the specification on the slots, returns the result slot, and keeps the state reached when a node raises. |
| InferenceRuntime.InferenceManager.Reset | leapp/inference_manager.py:528-539 | Every slot is zeroed and the initial values are put back. |
| Dataflow.StepIsDataflow | leapp/inference_manager.py:423-464 | From slots that carry step t, the push loop reads, computes and delivers what synchronous dataflow prescribes and leaves slots that carry step t+1. |
| Dataflow.ReplayIsDataflow | leapp/inference_manager.py:423-464 | Over every sequence of supplies the loop never fails and every result equals the one of synchronous dataflow with unit delay on feedback edges. |
| PipelineReplay.EveryIndexTaken | leapp/export_manager.py:163-168 | Completion indices are a permutation, so the runtime order covers every node once. |
| PipelineReplay.FlowsParseIffPlain | leapp/inference_manager.py:240-246 | The emitted keys split exactly when the ports on edges are slash-free. |
| PipelineReplay.LoadedRoutesAreWires | leapp/inference_manager.py:223-288 | Emit then load is the identity: the routes of each output are exactly its consumers, and the result slot for an unconsumed one. |
| PipelineReplay.ExportLoads | leapp/inference_manager.py:223-421 | An exported description always passes every load-time check when edge ports are slash-free. |
| PipelineReplay.PipelineComputesDataflow | leapp/inference_manager.py:423-464 | For every exported graph and every sequence of supplies, loading and running computes the dataflow the input descriptions intend: forward edges this step, feedback and state edges the previous step, the recorded value at step 0. |
| PipelineResults.PipelineResultNames | leapp/inference_manager.py:423-464 | After every run the results come back under exactly the names of the unconsumed outputs, together with the names the caller supplied for the result slot itself; the two never coincide. |
| PipelineReplay.ResetStartsOver | leapp/inference_manager.py:528-539 | After reset, every run computes the same dataflow from its start, whatever was run before. |
| PipelineReplay.PipelineRunsIffHasOutputs | leapp/inference_manager.py:423-464 | A loaded pipeline runs, for every sequence of supplies, exactly when every node has an output; otherwise it raises at the first node without one, though every load-time check passed. |
| PipelineReplay.Deploy | leapp/inference_manager.py:137-165 | Export, load and construct: a manager comes back exactly when no source is received twice, types agree and edge ports are slash-free, and it starts in the start state. |
| PipelineGaps.SilentNodeRaises | leapp/inference_manager.py:452-452 | A graph of one node without outputs exports and loads, and its first step raises. |
| PipelineGaps.SlashedPortRefused | leapp/inference_manager.py:240-246 | A graph with an edge from port "x/y" exports, and its description does not load. |
| Tensors.RavelUnravel | leapp/leapp_graph/datatypes/traced_data.py:700-702 | Flat positions and row-major multi-indices correspond one to one (first half). |
| Tensors.UnravelRavel | leapp/leapp_graph/datatypes/traced_data.py:700-702 | Flat positions and row-major multi-indices correspond one to one (second half). |
| BasicIndexing.SliceStays | leapp/leapp_graph/datatypes/traced_data.py:649-652 | Every position `slice.indices` visits is an element of its axis, for any bounds and any non-zero step. |
| BasicIndexing.SelectsOnce | leapp/leapp_graph/datatypes/traced_data.py:698-706 | A basic key selects no element twice. |
| AxisOps.GoodKeyFits | leapp/leapp_graph/datatypes/traced_data.py:632-634 | A key that selects anything consumes no more axes than there are and has one ellipsis at most. |
| AxisOps.RunAt | leapp/leapp_graph/datatypes/traced_data.py:595-675 | A run of recorded operations gathers each output element from one element of the input tensor. |
| AxisOps.ReplacesBehind | leapp/leapp_graph/datatypes/traced_data.py:646-668 | Selecting along an original axis first and keeping it whole later is the same selection behind any new axes, integers and slices. |
| AxisOps.LoweringPreservesValues | leapp/leapp_graph/datatypes/traced_data.py:595-675 | Operations that compute a key give, on every tensor of the shape, exactly the direct selection, error for error. |
| SliceLowering.SpelledSelectsTheSame | leapp/leapp_graph/datatypes/traced_data.py:632-638 | Replacing the ellipsis by full slices for the unconsumed axes changes no selection. |
| SliceLowering.SelectFirst | leapp/leapp_graph/datatypes/traced_data.py:648-667 | A reverse slice is a flip exactly when it visits the whole axis, and otherwise the index selection of its range. |
| SliceLowering.LowerNegativeSlices | leapp/leapp_graph/datatypes/traced_data.py:595-675 | Untouched exactly without a reverse slice; fails exactly when one stands on a missing axis; otherwise the recorded operations compute direct indexing for any shape and any key with one ellipsis and no excess axes. For every key they run exactly when only reverse and full slices are in it or its spelled-out form can be applied. |
| SliceLowering.OverlongKeyAccepted | leapp/leapp_graph/datatypes/traced_data.py:671-672 | `x[::-1, :]` on one axis is recorded and runs, though Python raises; the caller has indexed the array before (leapp/leapp_graph/datatypes/numpy/traced_np_array.py:402). |
| SliceLowering.TwoEllipsesAccepted | leapp/leapp_graph/datatypes/traced_data.py:631-638 | `x[..., ::-1, ...]` on one axis is recorded and runs, though Python raises. |
| RuntimeSlices.NarrowIsThePythonSlice | leapp/leapp_graph/datatypes/traced_data.py:539-551 | A `narrow` in range takes what the Python slice takes, unless the start counts from the end and the stop is zero. |
| RuntimeSlices.FixedBoundsFit | leapp/leapp_graph/datatypes/traced_data.py:549-552 | Bounds fixed while tracing are clamped, so their `narrow` is always in range. |
| RuntimeSlices.TakenIsConcrete | leapp/leapp_graph/datatypes/traced_data.py:553-593 | Over a whole key, the ranges taken select what Python selects if and only if no runtime slice ends at zero after a start counted from the end. |
| RuntimeSlices.LowerIndexKey | leapp/leapp_graph/datatypes/traced_data.py:553-593 | The loop records the specified operations, and fails at a runtime slice on a missing axis. |
| RuntimeSlices.LoweredKeyMeans | leapp/leapp_graph/datatypes/traced_data.py:553-593 | Within the rank the operations run exactly when every range is in bounds, and then compute Python's selection exactly when no slice ends at zero after a start counted from the end. A longer key, which Python refuses, runs exactly when only full slices are left of it and the ranges fit. |
| RuntimeSlices.OverlongKeyNarrowed | leapp/leapp_graph/datatypes/traced_data.py:585-586 | `x[i:j, :]` on one axis is recorded and runs, though Python raises. |
| RuntimeSlices.OtherShapeComputes | leapp/leapp_graph/datatypes/traced_data.py:553-586 | What was recorded on one shape and is replayed on another of the same rank computes Python's selection there exactly when every recorded range has the length of Python's slice and, unless nothing is selected, its start. |
| RuntimeSlices.RestOfLonger | leapp/leapp_graph/datatypes/traced_data.py:575-577 | `y[k:]` recorded on three elements and replayed on five takes two of the four that Python takes. |
| RuntimeSlices.TailInsteadOfNothing | leapp/leapp_graph/datatypes/traced_data.py:575-583 | x[-2:0] on five elements: Python selects nothing, the recorded `narrow` the last two. |
| AtenRewrites.NarrowIsAtenSlice | leapp/leapp_graph/aten_rewrites.py:111-135 | For all integer or absent bounds a unit-step slice becomes a `narrow` that is always in range and selects the same elements. |
| AtenRewrites.HugeEndIsAbsent | leapp/leapp_graph/aten_rewrites.py:227-229 | An end of 2^62 or more may be dropped for every size up to 2^62. |
| AtenRewrites.WholeSliceIsIdentity | leapp/leapp_graph/aten_rewrites.py:166-173 | The slices that are bypassed are the tensor itself. |
| AtenRewrites.RewriteSlices | leapp/leapp_graph/aten_rewrites.py:176-266 | Every remaining node is rewired past all bypassed slices, chained ones included, and each of those has no user when it is erased. |
| AtenRewrites.RewriteKeepsValues | leapp/leapp_graph/aten_rewrites.py:176-266 | After the rewrite, whose graph is ordered again, every node evaluates through its stand-in to the value it had. |
| SetItem.KeySelectionSelects | leapp/leapp_graph/datatypes/traced_data.py:698-699 | Basic indexing is one of the selections the assignment theorem speaks of. |
| SetItem.SelectedPositions | leapp/leapp_graph/datatypes/traced_data.py:700-706 | Indexing arange(numel).reshape(shape) by a key gives the flat position of every selected element. |
| SetItem.FullAssignable | leapp/leapp_graph/datatypes/traced_data.py:738-742 | A broadcast that adds no element leaves the flat values as they are. |
| SetItem.RecordedIsAssignment | leapp/leapp_graph/datatypes/traced_data.py:686-764 | For any selection and any shapes seen while tracing: the replay has no result unless the value as it is put has one element or one for each selected; its results are exactly those of direct assignment when it lists what direct assignment writes, and, unless a position is selected twice, none of them is when it does not. |
| SetItem.UnchangedIsAssignment | leapp/leapp_graph/datatypes/traced_data.py:718-742 | As long as value and selection have the shapes they had while tracing, that is direct assignment exactly when the value can be put, and no result otherwise. |
| SetItem.UnchangedSpreads | leapp/leapp_graph/datatypes/traced_data.py:718-742 | Without a recorded broadcast, with the shape selected while tracing, or with one element to put, a value that fits lists what direct assignment writes. |
| SetItem.SameSpreadIffInOrder | leapp/leapp_graph/datatypes/traced_data.py:734-742 | With as many elements selected as while tracing but in another shape, it does when the two shapes take the value's elements in the same order, and, for different elements, only then. |
| SetItem.OtherTensorShape | leapp/leapp_graph/datatypes/traced_data.py:696-702 | On a tensor of another shape than while tracing no result of the replay is one of direct assignment. |
| SetItem.DistinctAssignment | leapp/leapp_graph/datatypes/traced_data.py:750-764 | With pairwise distinct positions every selected element gets its own broadcast value and every other stays. |
| SetItem.AssignmentExists | leapp/leapp_graph/datatypes/traced_data.py:686-764 | Direct assignment of an assignable value always has a result. |
| SetItem.LeadingAxisRefused | leapp/leapp_graph/datatypes/traced_data.py:719-732 | A value with an extra leading axis of size one is assigned eagerly but its recording is refused. |
| SetItem.NumpyRowRefused | leapp/leapp_graph/datatypes/traced_data.py:736-742 | A traced NumPy row assigned to several rows is accepted eagerly and refused by every replay. |
| SetItem.OtherRowCount | leapp/leapp_graph/datatypes/traced_data.py:734-742 | A row of five assigned to three rows, when two were selected while tracing: direct assignment accepts it and every replay is refused, for slices and masks alike. |
| SetItem.OtherOrder | leapp/leapp_graph/datatypes/traced_data.py:734-742 | Two values along the middle axis, selected as [2, 2, 1] while tracing and as [1, 2, 2] at replay: they fit and land elsewhere. |
| RuntimeAssignment.RuntimeAssignmentIsAssignment | leapp/leapp_graph/datatypes/traced_data.py:709-742 | Assignment through runtime slices, whatever was selected while tracing: no result unless the ranges fit and the value as it is put has one element or one for each selected; then exactly Python's results when it lists what Python assigns, and none of them when it does not. Left out are keys in which a slice ends at zero after a start counted from the end and whose ranges hold elements. |
| RuntimeAssignment.UnchangedRuntimeAssignment | leapp/leapp_graph/datatypes/traced_data.py:709-742 | As long as the shapes are those seen while tracing, that is Python's assignment exactly when the ranges fit and the value can be put. |
| RuntimeAssignment.RowsAddedSinceTracing | leapp/leapp_graph/datatypes/traced_data.py:698-742 | `x[i:j] = row` traced with two rows and replayed with three: every range fits, Python assigns, and every replay is refused. |
| RuntimeAssignment.TailIsOverwritten | leapp/leapp_graph/datatypes/traced_data.py:709-716 | For every key of that kind Python assigns nothing, and some tensor and value make the recording overwrite elements, whatever was selected while tracing. |
| GraphPruning.UsedNodes | leapp/leapp_graph/traced_node.py:766-782 | The worklist finds exactly the backward closure of its roots. |
| GraphPruning.NeededIsLeast | leapp/leapp_graph/traced_node.py:775-782 | That closure is the least set with the roots that is closed under inputs. |
| GraphPruning.EraseUnused | leapp/leapp_graph/traced_node.py:793-818 | Reverse erasure leaves precisely what roots and output nodes need, and placeholders no input describes; the trimmed names are those of described unneeded placeholders. |
| GraphPruning.TracedNode.PruneGraph | leapp/leapp_graph/traced_node.py:762-833 | Refused exactly when a needed node carries a capture error; otherwise graph and inputs are cut to that. |
| GraphPruning.KeptIsClosure | leapp/leapp_graph/traced_node.py:762-833 | With every placeholder described and outputs fed by roots, what stays is the closure of the roots and the output nodes. |
| GraphPruning.PruningKeepsAlignment | leapp/leapp_graph/traced_node.py:828-833 | Inputs that lined up with placeholders position by position still do. |
| GraphPruning.PruningKeepsMeaning | leapp/leapp_graph/traced_node.py:762-833 | Values of all outputs and the writes to storage are unchanged, with `copy_` writes too when they are preserved. |
| HandleForest.RedirectionsDescend | leapp/leapp_graph/traced_node.py:169-179 | A redirection leads to a handle of lower rank, so following them ends. |
| HandleForest.RedirectRoot | leapp/leapp_graph/traced_node.py:169-179 | Redirecting one root to another keeps a forest and moves exactly the handles of that root. |
| HandleForest.TracedNode.Chase | leapp/leapp_graph/datatypes/traced_data.py:66-68 | The getter loop terminates at the root. |
| HandleForest.TracedNode.Shorten | leapp/leapp_graph/datatypes/traced_data.py:66-69 | Path shortening changes what no carrier stands for. |
| HandleForest.TracedNode.Proxy | leapp/leapp_graph/datatypes/traced_data.py:59-78 | Reading gives the root, or for a leftover of an older graph the root of its declared alias; no other carrier changes. |
| HandleForest.TracedNode.RebindInput | leapp/leapp_graph/traced_node.py:169-179 | Exactly the carriers of the previous handle follow to the new one. |
| HandleForest.TracedNode.CreateInput | leapp/leapp_graph/traced_node.py:559-611 | A redeclared carrier joins the declaration of the same bytes or gets a placeholder of its own, and all carriers that shared its handle follow. |
| HandleForest.TracedNode.CreatePlainInput | leapp/leapp_graph/traced_node.py:569-611 | A plain value gets the handle of its declared alias or a new one; no other carrier changes. |
| HandleForest.TracedNode.ResetTraceState | leapp/leapp_graph/traced_node.py:152-167 | A new pass has no redirections and no declarations, and every carrier is then left over from an older graph. |
| WarpCapture.NothingPending | leapp/leapp_graph/traced_node.py:128-150 | The queue is empty exactly when all discovered segments are captured, and then each was captured once, in order, with the same origins and calls. |
| WarpCapture.FollowsCaptured | leapp/leapp_graph/traced_node.py:136-150 | Completing the head of the queue keeps captured followed by pending equal to discovered. |
| WarpCapture.OnePassIff | leapp/leapp_graph/traced_node.py:122-126 | When nothing is left, one pass captured every segment if and only if the last pass began with nothing captured. |
| WarpCapture.WarpTracing.TerminateDiscovery | leapp/leapp_graph/warp_op.py:369-404 | The segment records its calls and close origin, gets the next runner number and joins both lists. |
| WarpCapture.WarpTracing.TerminateCapture | leapp/leapp_graph/warp_op.py:416-499 | A segment counts as captured only when it closes where discovery closed it, without an error, after the same calls and with a graph; otherwise nothing is captured. |
| WarpCapture.WarpTracing.CloseSegment | leapp/leapp_graph/datatypes/warp/session.py:60-91 | Closing an owned operation is refused to all but its owner and changes nothing; otherwise the session is empty afterwards even when ending the segment raised. |
| WarpCapture.WarpTracing.BeginDiscovery | leapp/leapp_graph/warp_op.py:304-314 | There is never a second open operation: the one before is closed first, or the new one is refused. |
| WarpCapture.WarpTracing.BeginCapture | leapp/leapp_graph/warp_op.py:316-355 | Only the head of the queue is opened, and only from the origin where discovery opened it. |
| WarpCapture.WarpTracing.PrepareWarpCapture | leapp/leapp_graph/traced_node.py:122-126 | A capture pass starts only on a completed trace with segments left; it begins with nothing captured exactly when the queue holds all that was discovered. |
| WarpCapture.WarpTracing.ValidateNodesReadyForCompile | leapp/export_manager.py:170-193 | Accepted exactly when every node is complete and nothing is pending; then every node captured what it discovered, and in one pass exactly when its last pass began with nothing captured. |
| WarpCapture.CapturedAcrossPasses | leapp/leapp_graph/traced_node.py:122-126 | A run that is accepted though its two segments were captured in different passes: its last pass began with one captured. |
| JsonText.IntReadsBack | leapp/leapp_graph/custom_operator_registry/warp_operator/runtime/core/runtime_metadata.cc:21-31 | A printed number followed by anything but a digit is matched whole and reads back. |
| JsonText.PlainIsUnchanged | leapp/leapp_graph/custom_operator_registry/warp_operator/metadata.py:25-27 | A plain text is printed without escapes (RFC 8259, section 7). |
| FieldSearch.NoStartQuoted | leapp/leapp_graph/custom_operator_registry/warp_operator/runtime/core/runtime_metadata.cc:9-31 | A quoted text, even one equal to the searched name, is no match when a colon does not follow it. |
| FieldSearch.SearchSkips | leapp/leapp_graph/custom_operator_registry/warp_operator/runtime/core/runtime_metadata.cc:9-58 | Text in which the name cannot start is skipped by the search. |
| FieldReading.FieldIsFound | leapp/leapp_graph/custom_operator_registry/warp_operator/runtime/core/runtime_metadata.cc:9-58 | The search finds the value of the first field of that name. |
| FieldReading.NumbersAreRead | leapp/leapp_graph/custom_operator_registry/warp_operator/runtime/core/runtime_metadata.cc:45-58 | The number iterator reads back a printed list of numbers. |
| ObjectArrays.ExtractObjectArray | leapp/leapp_graph/custom_operator_registry/warp_operator/runtime/core/runtime_metadata.cc:60-98 | The scanning loop computes the specified cut. |
| ObjectArrays.ScanJoined | leapp/leapp_graph/custom_operator_registry/warp_operator/runtime/core/runtime_metadata.cc:60-98 | Scanning a printed array cuts exactly its objects, whatever square brackets their texts hold. |
| RuntimeMetadata.SpecIsRead | leapp/leapp_graph/custom_operator_registry/warp_operator/runtime/core/runtime_metadata.cc:110-118 | Every field of a printed specification is read back; the first quoted `shape` is never the tail of `component_shape`. |
| RuntimeMetadata.ParseRuntimeMetadata | leapp/leapp_graph/custom_operator_registry/warp_operator/runtime/core/runtime_metadata.cc:102-140 | The parser returns exactly what the specification reads, and throws exactly when it does not read. |
| RuntimeMetadata.BundleBytesRead | leapp/leapp_graph/custom_operator_registry/warp_operator/runtime/core/runtime_metadata.cc:106-106 | The bundle size is never printed: the runtime takes the first tensor's byte count for it. |
| RuntimeMetadata.MetadataRoundTrip | leapp/leapp_graph/custom_operator_registry/warp_operator/runtime/core/runtime_metadata.cc:102-140 | For all metadata with plain, brace-free texts, known element types and numbers in range, every input and output is read back in order with index, name (empty for null), type, shape, byte count and mask. |
| RunnerMetadata.LongestContained | leapp/leapp_graph/custom_operator_registry/warp_operator/metadata.py:80-86 | Normalisation yields the longest known name contained in the element type's name, or that name itself when it contains none. |
| RunnerMetadata.OwnNameKept | leapp/leapp_graph/custom_operator_registry/warp_operator/metadata.py:80-86 | A type is described under its own name exactly when that name is known, or when it holds no known name and nothing but "wp." comes before it. |
| RunnerMetadata.UnsignedIsSigned | leapp/leapp_graph/custom_operator_registry/warp_operator/metadata.py:66-86 | uint16, uint32 and uint64 are described as int16, int32 and int64. |
| RunnerMetadata.RunnerSeesReferences | leapp/leapp_graph/custom_operator_registry/warp_operator/metadata.py:98-165 | From the segment's references to the runtime: each tensor arrives under its position, a kept one with its name and a dropped one with none. |
| WrpbArchive.BuildArchive | leapp/leapp_graph/custom_operator_registry/warp_operator/bundle.py:84-95 | The archive of the files, refused exactly when a length does not fit its field. |
| WrpbArchive.ParseWrpb | leapp/leapp_graph/custom_operator_registry/warp_operator/runtime/core/wrpb_archive.cc:47-93 | The reader returns exactly what the length prefixes say and refuses bad magic, version, truncation, trailing bytes and bad paths. |
| WrpbArchive.ArchiveRoundTrip | leapp/leapp_graph/custom_operator_registry/warp_operator/runtime/core/wrpb_archive.cc:47-93 | An archive is read back if and only if every path is relative, steps nowhere up and occurs once; every other is refused. |
| WrpbArchive.ArchiveInjective | leapp/leapp_graph/custom_operator_registry/warp_operator/bundle.py:84-95 | Two different lists of files never give the same bytes. |
| NestedIo.FlattenIoStructure | leapp/utils/tensor_description.py:483-498 | The loops build the ordered dictionary of the specification. |
| NestedIo.FlattenAgreesWithDescription | leapp/utils/tensor_description.py:483-498 | Flattening yields the described leaves, names and order if and only if the described names differ, and fewer leaves otherwise. |
| NestedIo.ValidateAndAdd | leapp/leapp_graph/leapp_node.py:341-353 | Refused exactly when a name repeats. |
| NestedIo.PublishOutputPorts | leapp/leapp_graph/leapp_node.py:297-339 | Leaves and ports are paired in order, a value keeping the first port it carried, or nothing is published. |
| NestedIo.AddOutput | leapp/leapp_graph/leapp_node.py:323-390 | Describing, checking and publishing one output: refused exactly when a described name repeats; otherwise every leaf carries the port of its own description, unless it carried a port before or is an earlier leaf of the same output. |
| NestedIo.LeavesReachTheirPorts | leapp/leapp_graph/leapp_node.py:323-339 | Different leaves that carried no port end up each under its own described name, a renamed single leaf under its new one. |
| NestedPacking.PathsLead | leapp/utils/tensor_description.py:383-401 | Each accessor path leads to the place of its tensor. |
| NestedPacking.PackThenUnpack | leapp/utils/tensor_description.py:332-401 | Packing and unpacking restores every flat tensor when the parameter's name is not that of a tensor before the last. |
| NestedPacking.ShadowedFails | leapp/utils/tensor_description.py:383-401 | When it is, the unpacking fails. |
| NestedPacking.ShadowingEntry | leapp/utils/tensor_description.py:383-401 | A dictionary with an entry named like the parameter packs, and its unpacking fails. |
| NestedPacking.UnpackThenPack | leapp/utils/tensor_description.py:332-401 | Unpacking and packing rebuilds the nested value when the tensor names differ. |
| DescribedPaths.FormatAssigns | leapp/utils/tensor_description.py:557-604 | The described format has one unpacking assignment for each described leaf, in order and under its name. |
| DescribedPaths.AccessorsLeadIffUnshifted | leapp/utils/tensor_description.py:557-604 | Every accessor leads to its own leaf in the described value if no list entry that holds a tensor comes after one that is dropped, and for different tensors only then. |
| DescribedPaths.ShiftedEntry | leapp/utils/tensor_description.py:578-582 | `[3, t]` is described as a list of one tensor, whose accessor finds the 3. |
| AttributePatches.AttributePatchRegistry.Install | leapp/leapp_graph/datatypes/_attribute_patching.py:30-45 | A failed install leaves no entry, and no change where the recorded original was current; where it was, what restoring will bring back stays the same. |
| AttributePatches.AttributePatchRegistry.WriteFromOutside | leapp/leapp_graph/datatypes/_attribute_patching.py:58-59 | A value written from outside is what restoring will bring back for that attribute, and nothing changes for the others. |
| AttributePatches.AttributePatchRegistry.Restore | leapp/leapp_graph/datatypes/_attribute_patching.py:47-64 | Undoes every sequence of installs, stacked ones and writes from outside in between included, and leaves the stack empty. |
| AttributePatches.InstallIsUndone | leapp/leapp_graph/datatypes/_attribute_patching.py:47-64 | A patch that recorded the current value is undone, whatever lies below it on the stack. |
| AttributePatches.OutsideWriteIsKept | leapp/leapp_graph/datatypes/_attribute_patching.py:58-59 | A value no patch of its attribute installed is kept, and every other attribute is restored as it would have been without it. |
| AttributePatches.StackedPatches | leapp/leapp_graph/datatypes/_attribute_patching.py:47-64 | Three wrappers on one attribute with a write from outside between the second and the third: the write is what stays. |
| OnnxRepairs.CloneAliasedOutputs | leapp/backends/onnx_export_backend.py:406-421 | The outputs become pairwise distinct, none a placeholder, each with the value it had; only aliased ones are cloned. |
| OnnxRepairs.FreshName | leapp/backends/onnx_export_backend.py:386-388 | The renaming loop ends with a new name. |
| OnnxRepairs.FixGatherNdIndices | leapp/backends/onnx_export_backend.py:369-403 | Each affected node reads its own 64-bit copy of the same indices; other inputs, nodes and initializers stay. |
| OnnxRepairs.HandleDuplicateNames | leapp/backends/onnx_export_backend.py:70-95 | Succeeds exactly when no overlapping name has its `_in` or `_out` form among the original names, and then every overlapping name has its ending and nothing else changed, ports included. |
| OnnxRepairs.RenamedApart | leapp/backends/onnx_export_backend.py:70-95 | Once it succeeds, input and output names are unique and none is shared. |
| OnnxRepairs.NestedNamesRefused | leapp/backends/onnx_export_backend.py:81-88 | With both "a" and "a_in" shared, renaming fails, since "a" is taken first. |

## Left out

- PyTorch, NumPy, ONNX Runtime, CUDA and APIC: tensor operators are functions on shaped sequences, and
  `narrow`, `index_select`, `flip`, `index_put` and `broadcast_to` are modelled by their documented ranges
  and errors. Element types and the `to` conversion before `index_put` are not modelled.
- `functionalize_graph`: it rests on `torch.export`, which is not part of this model.
- Files, YAML, hashing, logging, visualization and code generation by source inspection.
- The outputs of the runtime are values: that the first consumer shares the producer's buffer, that later
  ones get clones, and that `reset` zeroes buffers a caller may still hold is not modelled.
- Inference.Call: a model that returns a bare tensor for several declared outputs is an error here; how
  far its first axis would be taken for a tuple is not modelled. `set_input_value` is not modelled.
- PipelineGraph.BuildConnections: node names with a slash, a node named `==out==`, and two state pairs that
  share one input description are excluded by `GraphOk`.
- PipelineReplay.PipelineComputesDataflow: nodes are pure and total, and the supplied keys name existing
  nodes; a pipeline with a node that has no outputs is `PipelineReplay.PipelineRunsIffHasOutputs`.
- SliceLowering.LowerNegativeSlices: the tensor has the shape it had while tracing, as the documentation of
  the lowering says. Keys with a runtime bound or an advanced index next to a reverse slice
  are refused by the code and not modelled; booleans count as integers in neither.
- RuntimeSlices.LowerIndexKey: runtime bounds are the numbers they have at replay; a runtime step is refused
  by the code and not modelled. Tensors whose rank has changed since tracing are not modelled.
- SetItem.RecordedIsAssignment: an advanced key is modelled by the positions it selects; how boolean and
  integer tensors are turned into positions is not modelled.
- AtenRewrites.RewriteSlices: the branches that rename a call to an equivalent public function leave its
  meaning as it is and are one case here.
- GraphPruning.PruningKeepsMeaning: only nodes marked as mutations, or impure calls, write; layouts of
  mutated inputs (`_validate_mutated_input_layouts`) and the Warp output masks are not modelled.
- HandleForest.TracedNode.CreateInput: one node is modelled, while it traces. Carriers of another active
  node, which are refused, semantics, names and aliases of descriptions, and `update_proxy` writes are not;
  re-entry without a placeholder differs from declaring again in descriptions only.
- WarpCapture.WarpTracing.TerminateCapture: the APIC capture scope, the archive and the pause counter are
  not modelled; whether a capture yields a graph is given.
- WrpbArchive.ParseWrpb: offsets do not wrap around at 2^64; paths are their UTF-8 bytes; extraction to a
  directory is not modelled.
- RuntimeMetadata.MetadataRoundTrip: texts that need JSON escapes, or that contain braces, are outside it.
- NestedPacking.PackThenUnpack: expressions and accessors are trees and paths, not program text.
- NestedIo.AddOutput: values that are not traced carry no port and are not published; all leaves count as
  traced here.
- AttributePatches.AttributePatchRegistry.Restore: attributes can be read, and errors raised while
  restoring are not modelled.
- OnnxRepairs.FixGatherNdIndices: new names are compared with initializer names only, as in the code.
- Buffer tracking (`leapp/buffer_tracker.py`), scalar-slice repair and the other ONNX passes: single
  substitutions next to the ones modelled.
- Semantic metadata, enums and dtype tables beyond the names the runtime knows.
