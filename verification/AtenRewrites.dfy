/** The slice branches of the ATen rewrite (leapp/leapp_graph/aten_rewrites.py): a unit-step slice
    becomes an in-range `narrow`, and a slice of everything is bypassed and erased afterwards. */
module AtenRewrites {
  import opened Ports
  import opened Tensors
  import opened BasicIndexing
  import opened AxisOps

  const END_MAX: int := 0x4000_0000_0000_0000  // 1 << 62

  // ----- one slice

  function NormalizeBound(bound: int, size: nat): int {
    var from := if bound < 0 then bound + size else bound;
    if from < 0 then 0 else if from > size then size else from
  }

  /** A dimension number, negative ones counted from the end. */
  function Axis(dim: int, rank: nat): Option<nat> {
    var a := if dim < 0 then dim + rank else dim;
    if 0 <= a < rank then Some(a) else None
  }

  function NarrowOp(axis: nat, start: Option<int>, end: Option<int>, size: nat): Op {
    var first := NormalizeBound(if start.None? then 0 else start.value, size);
    var last := if end.None? then size else NormalizeBound(end.value, size);
    Narrow(axis, first, if last - first > 0 then last - first else 0)
  }

  function SliceWithNarrow<T>(t: Raw<T>, dim: int, start: Option<int>, end: Option<int>): Option<Raw<T>>
    requires Valid(t)
  {
    match Axis(dim, |t.shape|)
    case None => None
    case Some(a) => Apply(NarrowOp(a, start, end, t.shape[a]), t)
  }

  /** What `aten.slice` computes: Python's slice of one dimension, with a positive step. */
  function AtenSlice<T>(t: Raw<T>, dim: int, start: Option<int>, end: Option<int>, step: int): (r: Option<Raw<T>>)
    requires Valid(t)
    ensures r.Some? ==> Valid(r.value)
  {
    match Axis(dim, |t.shape|)
    case None => None
    case Some(a) =>
      if step <= 0 then None else GetItem(t, Fulls(a) + [Slice(start, end, Some(step))])
  }

  lemma NarrowedSlice(start: Option<int>, end: Option<int>, size: nat)
    ensures
      var op, s := NarrowOp(0, start, end, size), Slice(start, end, Some(1));
      NarrowFits(op.start, op.length, size) && SliceLength(s, size) == op.length &&
      forall j | 0 <= j < op.length :: Position(s, size, j) == Wrapped(op.start, size) + j
  {
    var s := Slice(start, end, Some(1));
    assert Step(s) == 1;
    assert First(s, size) == NormalizeBound(if start.None? then 0 else start.value, size);
    assert Last(s, size) == (if end.None? then size else NormalizeBound(end.value, size));
  }

  lemma NarrowIsSliceHere(start: Option<int>, end: Option<int>, shape: seq<nat>)
    requires shape != []
    ensures Replaces(NarrowOp(0, start, end, shape[0]), [FULL], shape, [Slice(start, end, Some(1))])
  {
    var op := NarrowOp(0, start, end, shape[0]);
    NarrowedSlice(start, end, shape[0]);
    NarrowReplaces(Slice(start, end, Some(1)), op.start, op.length, [], shape);
    assert [FULL] + [] == [FULL] && [Slice(start, end, Some(1))] + [] == [Slice(start, end, Some(1))];
  }

  lemma NarrowIsSliceAt(a: nat, start: Option<int>, end: Option<int>, shape: seq<nat>)
    requires a < |shape|
    ensures Replaces(NarrowOp(a, start, end, shape[a]), Fulls(a) + [FULL], shape,
                     Fulls(a) + [Slice(start, end, Some(1))])
  {
    FullsConsume(Fulls(a));
    NarrowIsSliceHere(start, end, shape[a..]);
    ReplacesBehind(NarrowOp(0, start, end, shape[a]), shape, Fulls(a), [FULL], [Slice(start, end, Some(1))]);
  }

  /** A unit-step slice becomes a `narrow` that is always in range and selects the same elements. */
  lemma NarrowIsAtenSlice<T>(t: Raw<T>, dim: int, start: Option<int>, end: Option<int>)
    requires Valid(t)
    ensures SliceWithNarrow(t, dim, start, end) == AtenSlice(t, dim, start, end, 1)
    ensures Axis(dim, |t.shape|).Some? ==> SliceWithNarrow(t, dim, start, end).Some?
  {
    if Axis(dim, |t.shape|).Some? {
      var a := Axis(dim, |t.shape|).value;
      NarrowIsSliceAt(a, start, end, t.shape);
      OneOpComputes(NarrowOp(a, start, end, t.shape[a]), t, Fulls(a) + [FULL],
                    Fulls(a) + [Slice(start, end, Some(1))]);
    }
  }

  lemma OneOpComputes<T>(op: Op, t: Raw<T>, rest: Key, key: Key)
    requires Valid(t) && !op.Get? && Replaces(op, rest, t.shape, key)
    requires |rest| <= |t.shape| && forall p | 0 <= p < |rest| :: rest[p] == FULL
    ensures Apply(op, t) == GetItem(t, key) && Apply(op, t).Some?
  {
    var mid := OpShape(op, t.shape).value;
    FullKeySelectsAll(mid, rest);
    var a, b := Apply(op, t).value, GetItem(t, key).value;
    forall out | InShape(mid, out) ensures At(a, out) == At(b, out) {
      ApplyAt(op, t, out);
      GetItemAt(t, key, out);
    }
    SameTensor(a, b);
  }

  lemma SameSelectionSameResult<T>(t: Raw<T>, a: Key, b: Key)
    requires Valid(t) && SameSelection(t.shape, a, b)
    ensures GetItem(t, a) == GetItem(t, b)
  {
    if KeyShape(t.shape, a).Some? {
      var x, y := GetItem(t, a).value, GetItem(t, b).value;
      forall out | InShape(x.shape, out) ensures At(x, out) == At(y, out) {
        GetItemAt(t, a, out);
        GetItemAt(t, b, out);
      }
      SameTensor(x, y);
    }
  }

  lemma SameSliceSameResult<T>(t: Raw<T>, axis: nat, x: Item, y: Item)
    requires Valid(t) && axis < |t.shape| && x.Slice? && SameItem(x, y, t.shape[axis])
    ensures GetItem(t, Fulls(axis) + [x]) == GetItem(t, Fulls(axis) + [y])
  {
    KeysAgree(t.shape, Fulls(axis) + [x], Fulls(axis) + [y]);
    SameSelectionSameResult(t, Fulls(axis) + [x], Fulls(axis) + [y]);
  }

  /** An end of at least 2^62 may be dropped for every size up to 2^62. */
  lemma HugeEndIsAbsent<T>(t: Raw<T>, dim: int, start: Option<int>, end: int, step: int)
    requires Valid(t) && end >= END_MAX
    requires Axis(dim, |t.shape|).Some? ==> t.shape[Axis(dim, |t.shape|).value] <= END_MAX
    ensures AtenSlice(t, dim, start, Some(end), step) == AtenSlice(t, dim, start, None, step)
  {
    if Axis(dim, |t.shape|).Some? && step > 0 {
      var axis := Axis(dim, |t.shape|).value;
      SameSliceSameResult(t, axis, Slice(start, Some(end), Some(step)), Slice(start, None, Some(step)));
    }
  }

  /** A slice from the first element to the end, by ones, is the tensor itself. */
  lemma WholeSliceIsIdentity<T>(t: Raw<T>, dim: int, start: Option<int>)
    requires Valid(t) && Axis(dim, |t.shape|).Some? && start in {None, Some(0)}
    ensures AtenSlice(t, dim, start, None, 1) == Some(t)
  {
    var axis := Axis(dim, |t.shape|).value;
    var whole := Fulls(axis) + [FULL];
    FullSlice(t.shape[axis]);
    SameSliceSameResult(t, axis, Slice(start, None, Some(1)), FULL);
    FullKeySelectsAll(t.shape, whole);
    var r := GetItem(t, whole).value;
    forall out | InShape(t.shape, out) ensures At(r, out) == At(t, out) {
      GetItemAt(t, whole, out);
    }
    SameTensor(r, t);
  }

  // ----- the graph

  datatype Operand = Missing | Absent | Number(value: int) | Computed

  /** A recorded call: a slice with its optional arguments, the `narrow` it becomes, or anything
      else, which keeps its meaning. A computed bound is one of the call's later inputs. */
  datatype Target =
    | AtenCall(copy: bool, dim: Option<int>, start: Operand, end: Operand, step: Option<int>)
    | NarrowCall(copy: bool, axis: int, from: Option<int>, to: Option<int>)
    | Other(name: nat)

  /** The inputs are positions of earlier calls; the first one is the tensor a slice reads. */
  datatype Call = Call(target: Target, inputs: seq<nat>)

  type Graph = seq<Option<Call>>

  predicate Ordered(g: Graph) {
    forall i | 0 <= i < |g| && g[i].Some? :: OrderedCall(g, i)
  }

  predicate OrderedCall(g: Graph, i: nat)
    requires i < |g| && g[i].Some?
  {
    (g[i].value.target.AtenCall? || g[i].value.target.NarrowCall? ==> g[i].value.inputs != []) &&
    forall k | 0 <= k < |g[i].value.inputs| :: g[i].value.inputs[k] < i && g[g[i].value.inputs[k]].Some?
  }

  function Bound(operand: Operand): Option<int> {
    if operand.Number? then Some(operand.value) else None
  }

  function StepOf(target: Target): int
    requires target.AtenCall?
  {
    if target.step.None? then 1 else target.step.value
  }

  function DimOf(target: Target): int
    requires target.AtenCall?
  {
    if target.dim.None? then 0 else target.dim.value
  }

  predicate EndsAtMax(operand: Operand) {
    operand.Missing? || operand.Absent? || (operand.Number? && operand.value >= END_MAX)
  }

  predicate Dynamic(target: Target)
    requires target.AtenCall?
  {
    target.start.Computed? || target.end.Computed?
  }

  /** A slice of everything that may share the tensor it reads. */
  predicate Identity(target: Target) {
    target.AtenCall? && !Dynamic(target) && !target.copy && StepOf(target) == 1 &&
    Bound(target.start) in {None, Some(0)} && EndsAtMax(target.end)
  }

  function NewTarget(target: Target): Target {
    if target.AtenCall? && !Dynamic(target) && StepOf(target) == 1 then
      NarrowCall(target.copy, DimOf(target), if target.start.Missing? then Some(0) else Bound(target.start),
                 if EndsAtMax(target.end) then None else Bound(target.end))
    else target
  }

  // ----- what a graph computes

  type Meaning<!T> = (Target, seq<Option<Raw<T>>>) -> Option<Raw<T>>

  function Compute<T>(meaning: Meaning<T>, target: Target, args: seq<Option<Raw<T>>>): (r: Option<Raw<T>>)
    requires target.Other? || args != []
    requires forall k | 0 <= k < |args| :: args[k].Some? ==> Valid(args[k].value)
    ensures r.Some? ==> Valid(r.value)
  {
    if target.NarrowCall? then
      (if args[0].None? then None
       else if Axis(target.axis, |args[0].value.shape|).None? then None
       else
         var r := SliceWithNarrow(args[0].value, target.axis, target.from, target.to);
         if r.Some? && Valid(r.value) then r else None)
    else if target.AtenCall? && !Dynamic(target) then
      (if args[0].None? then None
       else AtenSlice(args[0].value, DimOf(target), Bound(target.start), Bound(target.end), StepOf(target)))
    else
      var r := meaning(target, args);
      if r.Some? && Valid(r.value) then r else None
  }

  /** The value of node `i`, absent when its evaluation raises. */
  function Value<T>(meaning: Meaning<T>, g: Graph, i: nat): (r: Option<Raw<T>>)
    requires Ordered(g) && i < |g| && g[i].Some?
    ensures r.Some? ==> Valid(r.value)
    decreases i
  {
    assert OrderedCall(g, i);
    Compute(meaning, g[i].value.target, Values(meaning, g, i, g[i].value.inputs))
  }

  function Values<T>(meaning: Meaning<T>, g: Graph, i: nat, inputs: seq<nat>): (r: seq<Option<Raw<T>>>)
    requires Ordered(g) && i < |g|
    requires forall k | 0 <= k < |inputs| :: inputs[k] < i && g[inputs[k]].Some?
    ensures |r| == |inputs| && forall k | 0 <= k < |r| :: r[k] == Value(meaning, g, inputs[k])
    ensures forall k | 0 <= k < |r| :: r[k].Some? ==> Valid(r[k].value)
    decreases i, 0, |inputs|
  {
    if inputs == [] then [] else [Value(meaning, g, inputs[0])] + Values(meaning, g, i, inputs[1..])
  }

  // ----- the rewrite

  predicate Whole(g: Graph) {
    forall i | 0 <= i < |g| :: g[i].Some?
  }

  /** The node that stands for node `j` once the whole slices among the first `n` are bypassed. */
  function Chase(g: Graph, j: nat, n: nat): (k: nat)
    requires Whole(g) && Ordered(g) && j < |g|
    ensures k <= j && (k < n ==> !Identity(g[k].value.target))
    decreases j
  {
    assert OrderedCall(g, j);
    if j < n && Identity(g[j].value.target) then Chase(g, g[j].value.inputs[0], n) else j
  }

  function Rewired(g: Graph, n: nat, i: nat): Call
    requires Whole(g) && Ordered(g) && i < |g|
  {
    assert OrderedCall(g, i);
    var call := g[i].value;
    Call(if i < n && !Identity(call.target) then NewTarget(call.target) else call.target,
         ChaseAll(g, call.inputs, n))
  }

  function ChaseAll(g: Graph, inputs: seq<nat>, n: nat): seq<nat>
    requires Whole(g) && Ordered(g) && forall k | 0 <= k < |inputs| :: inputs[k] < |g|
  {
    seq(|inputs|, k requires 0 <= k < |inputs| => Chase(g, inputs[k], n))
  }

  lemma ChaseNext(g: Graph, j: nat, n: nat)
    requires Whole(g) && Ordered(g) && j < |g| && n < |g|
    ensures
      var end := Chase(g, j, n);
      OrderedCall(g, n) &&
      Chase(g, j, n + 1) == (if end == n && Identity(g[n].value.target) then Chase(g, g[n].value.inputs[0], n) else end)
    decreases j
  {
    assert OrderedCall(g, n) && OrderedCall(g, j);
    if j < n && Identity(g[j].value.target) {
      ChaseNext(g, g[j].value.inputs[0], n);
    } else if j == n && Identity(g[n].value.target) {
      ChaseBelow(g, g[n].value.inputs[0], n);
    }
  }

  lemma ChaseBelow(g: Graph, j: nat, n: nat)
    requires Whole(g) && Ordered(g) && j < n < |g|
    ensures Chase(g, j, n + 1) == Chase(g, j, n)
    decreases j
  {
    assert OrderedCall(g, j);
    if Identity(g[j].value.target) { ChaseBelow(g, g[j].value.inputs[0], n); }
  }

  function ReplaceAllUses(g: Graph, node: nat, instead: nat): Graph {
    seq(|g|, i requires 0 <= i < |g| =>
      if g[i].None? then None else Some(g[i].value.(inputs := Swapped(g[i].value.inputs, node, instead))))
  }

  function Swapped(inputs: seq<nat>, node: nat, instead: nat): seq<nat> {
    seq(|inputs|, k requires 0 <= k < |inputs| => if inputs[k] == node then instead else inputs[k])
  }

  /** Erasing is refused while a node has users. */
  method EraseNode(g: Graph, node: nat) returns (r: Graph)
    requires node < |g|
    requires forall i | 0 <= i < |g| && g[i].Some? :: node !in g[i].value.inputs
    ensures r == g[node := None]
  {
    r := g[node := None];
  }

  lemma InputsNext(g: Graph, n: nat, inputs: seq<nat>)
    requires Whole(g) && Ordered(g) && n < |g| && forall k | 0 <= k < |inputs| :: inputs[k] < |g|
    ensures OrderedCall(g, n)
    ensures !Identity(g[n].value.target) ==> ChaseAll(g, inputs, n + 1) == ChaseAll(g, inputs, n)
    ensures Identity(g[n].value.target) ==>
      ChaseAll(g, inputs, n + 1) == Swapped(ChaseAll(g, inputs, n), n, Chase(g, g[n].value.inputs[0], n))
  {
    assert OrderedCall(g, n);
    forall k | 0 <= k < |inputs|
      ensures
        var end := Chase(g, inputs[k], n);
        Chase(g, inputs[k], n + 1) ==
          (if end == n && Identity(g[n].value.target) then Chase(g, g[n].value.inputs[0], n) else end)
    {
      ChaseNext(g, inputs[k], n);
    }
  }

  /** The step at node `n` brings node `i` from its form after `n` steps to the next. */
  predicate Bypassed(g: Graph, n: nat, now: Graph, i: nat)
    requires Whole(g) && Ordered(g) && n < |g| && |now| == |g| && i < |g| && now[n].Some? && now[i].Some?
  {
    var after := Rewired(g, n + 1, i);
    if Identity(g[n].value.target) then
      now[n].value.inputs != [] && ReplaceAllUses(now, n, now[n].value.inputs[0])[i] == Some(after)
    else if i == n then after == now[i].value.(target := NewTarget(g[n].value.target))
    else after == now[i].value
  }

  lemma BypassStep(g: Graph, n: nat, now: Graph, i: nat)
    requires Whole(g) && Ordered(g) && n < |g| && |now| == |g| && i < |g|
    requires now[n] == Some(Rewired(g, n, n)) && now[i] == Some(Rewired(g, n, i))
    ensures now[n].value.target == g[n].value.target
    ensures Bypassed(g, n, now, i)
  {
    assert OrderedCall(g, n) && OrderedCall(g, i);
    InputsNext(g, n, g[i].value.inputs);
  }

  /** Whole slices are gone, and every other node has its new target and reads what stands for its inputs. */
  predicate RewriteOf(g: Graph, r: Graph)
    requires Whole(g) && Ordered(g)
  {
    |r| == |g| && forall i | 0 <= i < |g| ::
      r[i] == if Identity(g[i].value.target) then None else Some(Rewired(g, |g|, i))
  }

  /** The traversal: whole slices are bypassed at once and erased at the end, when none of them,
      chained ones included, has a user left. */
  method RewriteSlices(g: Graph) returns (r: Graph)
    requires Whole(g) && Ordered(g)
    ensures RewriteOf(g, r) && Ordered(r)
  {
    r := g;
    var nodesToErase: seq<nat> := [];
    ghost var n := |g|;
    forall i | 0 <= i < |g| ensures r[i].value == Rewired(g, 0, i) {
      assert OrderedCall(g, i);
    }
    for i := 0 to |g|
      invariant |r| == |g| && forall j | 0 <= j < |g| :: r[j] == Some(Rewired(g, i, j))
      invariant forall j | 0 <= j < |nodesToErase| :: nodesToErase[j] < i
      invariant forall j | 0 <= j < i :: j in nodesToErase <==> Identity(g[j].value.target)
    {
      BypassStep(g, i, r, i);
      forall j | 0 <= j < |g| ensures Bypassed(g, i, r, j) {
        BypassStep(g, i, r, j);
      }
      ghost var before := r;
      var target := r[i].value.target;
      if Identity(target) {
        r := ReplaceAllUses(r, i, r[i].value.inputs[0]);
        nodesToErase := nodesToErase + [i];
      } else {
        r := r[i := Some(r[i].value.(target := NewTarget(target)))];
      }
      assert forall j | 0 <= j < |g| && Bypassed(g, i, before, j) :: r[j] == Some(Rewired(g, i + 1, j));
    }
    for e := 0 to |nodesToErase|
      invariant |r| == |g|
      invariant forall j | 0 <= j < |g| ::
        r[j] == if j in nodesToErase[..e] then None else Some(Rewired(g, |g|, j))
    {
      r := EraseNode(r, nodesToErase[e]);
      assert nodesToErase[..e + 1] == nodesToErase[..e] + [nodesToErase[e]];
    }
    assert nodesToErase[..|nodesToErase|] == nodesToErase;
    RewrittenOrdered(g, r);
  }

  /** Every slice's size is at most 2^62 and every slice of everything names a dimension that exists,
      as for any graph that could be captured. */
  ghost predicate Captured<T>(meaning: Meaning<T>, g: Graph)
    requires Whole(g) && Ordered(g)
  {
    forall i {:trigger OrderedCall(g, i)} | 0 <= i < |g| && OrderedCall(g, i) && g[i].value.target.AtenCall? ::
      var arg := Value(meaning, g, g[i].value.inputs[0]);
      arg.Some? ==>
        (Identity(g[i].value.target) ==> Axis(DimOf(g[i].value.target), |arg.value.shape|).Some?) &&
        (Axis(DimOf(g[i].value.target), |arg.value.shape|).Some? ==>
           arg.value.shape[Axis(DimOf(g[i].value.target), |arg.value.shape|).value] <= END_MAX)
  }

  lemma RewrittenOrdered(g: Graph, r: Graph)
    requires Whole(g) && Ordered(g) && RewriteOf(g, r)
    ensures Ordered(r)
  {
    forall i | 0 <= i < |r| && r[i].Some? ensures OrderedCall(r, i) {
      assert OrderedCall(g, i);
    }
  }

  /** Evaluation after the rewrite gives every remaining node the value it had, and every bypassed
      slice had the value of the node that now stands for it. */
  lemma {:induction false} RewriteKeepsValues<T>(meaning: Meaning<T>, g: Graph, r: Graph, i: nat)
    requires Whole(g) && Ordered(g) && Captured(meaning, g) && RewriteOf(g, r) && i < |g|
    ensures Ordered(r)
    ensures r[Chase(g, i, |g|)].Some? && Value(meaning, r, Chase(g, i, |g|)) == Value(meaning, g, i)
    decreases i
  {
    RewrittenOrdered(g, r);
    assert OrderedCall(g, i);
    var call := g[i].value;
    forall k | 0 <= k < |call.inputs|
      ensures r[Chase(g, call.inputs[k], |g|)].Some?
      ensures Value(meaning, r, Chase(g, call.inputs[k], |g|)) == Value(meaning, g, call.inputs[k])
    {
      RewriteKeepsValues(meaning, g, r, call.inputs[k]);
    }
    if Identity(call.target) {
      IdentityValue(meaning, g, i);
    } else {
      assert OrderedCall(r, i);
      var args := Values(meaning, g, i, call.inputs);
      assert Values(meaning, r, i, r[i].value.inputs) == args;
      TargetKeepsMeaning(meaning, g, i, args);
    }
  }

  lemma IdentityValue<T>(meaning: Meaning<T>, g: Graph, i: nat)
    requires Whole(g) && Ordered(g) && Captured(meaning, g) && i < |g| && Identity(g[i].value.target)
    ensures OrderedCall(g, i) && Value(meaning, g, i) == Value(meaning, g, g[i].value.inputs[0])
  {
    assert OrderedCall(g, i);
    var target, arg := g[i].value.target, Value(meaning, g, g[i].value.inputs[0]);
    if arg.Some? {
      if Bound(target.end).Some? {
        HugeEndIsAbsent(arg.value, DimOf(target), Bound(target.start), target.end.value, 1);
      }
      WholeSliceIsIdentity(arg.value, DimOf(target), Bound(target.start));
    }
  }

  lemma TargetKeepsMeaning<T>(meaning: Meaning<T>, g: Graph, i: nat, args: seq<Option<Raw<T>>>)
    requires Whole(g) && Ordered(g) && Captured(meaning, g) && i < |g| && OrderedCall(g, i)
    requires args == Values(meaning, g, i, g[i].value.inputs)
    ensures Compute(meaning, NewTarget(g[i].value.target), args) == Compute(meaning, g[i].value.target, args)
  {
    var target := g[i].value.target;
    if target.AtenCall? && !Dynamic(target) && StepOf(target) == 1 && args[0].Some? {
      var t, dim := args[0].value, DimOf(target);
      var start := NewTarget(target).from;
      NarrowIsAtenSlice(t, dim, start, NewTarget(target).to);
      if EndsAtMax(target.end) && Bound(target.end).Some? {
        HugeEndIsAbsent(t, dim, Bound(target.start), target.end.value, 1);
      }
      if target.start.Missing? && Axis(dim, |t.shape|).Some? {
        var axis := Axis(dim, |t.shape|).value;
        SameSliceSameResult(t, axis, Slice(Some(0), NewTarget(target).to, Some(1)),
                            Slice(None, NewTarget(target).to, Some(1)));
      }
    }
  }
}
