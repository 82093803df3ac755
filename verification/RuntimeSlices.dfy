/** Slices with bounds known only at run time (leapp/leapp_graph/datatypes/traced_data.py): each is
    recorded as a `narrow` on its axis, and the rest of the key follows. */
module RuntimeSlices {
  import opened Ports
  import opened Tensors
  import opened BasicIndexing
  import opened AxisOps

  /** A slice bound: absent, a number fixed while tracing, or one the graph computes. */
  datatype Bound = Absent | Fixed(value: int) | Traced(value: int)

  datatype RuntimeItem = Static(item: Item) | Narrowed(start: Bound, stop: Bound)

  function Resolve(b: Bound, default: int, n: nat): int {
    match b
    case Absent => default
    case Traced(v) => v
    case Fixed(v) =>
      var from := if v < 0 then v + n else v;
      if from < 0 then 0 else if from > n then n else from
  }

  function Start(item: RuntimeItem, n: nat): int
    requires item.Narrowed?
  {
    Resolve(item.start, 0, n)
  }

  function Stop(item: RuntimeItem, n: nat): int
    requires item.Narrowed?
  {
    Resolve(item.stop, n, n)
  }

  function Length(item: RuntimeItem, n: nat): int
    requires item.Narrowed?
  {
    var length := Stop(item, n) - Start(item, n);
    if item.start.Traced? || item.stop.Traced? then length
    else if length > 0 then length else 0
  }

  // ----- the key Python would see, with the bounds filled in

  function PythonBound(b: Bound): Option<int> {
    if b.Absent? then None else Some(b.value)
  }

  function Concrete(item: RuntimeItem): Item {
    match item
    case Static(i) => i
    case Narrowed(start, stop) => Slice(PythonBound(start), PythonBound(stop), None)
  }

  function ConcreteKey(key: seq<RuntimeItem>): Key {
    seq(|key|, i requires 0 <= i < |key| => Concrete(key[i]))
  }

  /** The range `narrow` takes, as a slice. */
  function Taken(item: RuntimeItem, n: nat): Item {
    match item
    case Static(i) => i
    case Narrowed(_, _) =>
      var from := Wrapped(Start(item, n), n);
      Slice(Some(from), Some(from + Length(item, n)), None)
  }

  predicate Fits(item: RuntimeItem, n: nat) {
    item.Narrowed? ==> NarrowFits(Start(item, n), Length(item, n), n)
  }

  /** A start counted from the end together with a stop of zero. */
  predicate EndsAtZero(item: RuntimeItem, n: nat) {
    item.Narrowed? && Start(item, n) < 0 && Stop(item, n) == 0
  }

  lemma TakenRange(item: RuntimeItem, n: nat)
    requires item.Narrowed? && Fits(item, n)
    ensures SliceLength(Taken(item, n), n) == Length(item, n)
    ensures forall j | 0 <= j < Length(item, n) :: Position(Taken(item, n), n, j) == Wrapped(Start(item, n), n) + j
  {
    var s := Taken(item, n);
    assert Step(s) == 1 && First(s, n) == Wrapped(Start(item, n), n);
    assert Last(s, n) == First(s, n) + Length(item, n);
  }

  /** A `narrow` that is in range takes what the Python slice takes, unless it ends at zero
      after a start counted from the end: then Python takes nothing and `narrow` the tail. */
  lemma NarrowIsThePythonSlice(item: RuntimeItem, n: nat)
    requires item.Narrowed? && Fits(item, n)
    ensures !EndsAtZero(item, n) ==>
      SliceLength(Concrete(item), n) == Length(item, n) &&
      forall j | 0 <= j < Length(item, n) :: Position(Concrete(item), n, j) == Wrapped(Start(item, n), n) + j
    ensures EndsAtZero(item, n) ==> SliceLength(Concrete(item), n) == 0 && Length(item, n) == -Start(item, n)
  {
    var s := Concrete(item);
    var first, last := First(s, n), Last(s, n);
    assert Step(s) == 1;
    assert first == (if Start(item, n) < 0 then Start(item, n) + n else Start(item, n));
    if EndsAtZero(item, n) {
      assert last == 0;
    } else {
      assert RangeLength(first, last, 1) == Length(item, n);
    }
  }

  /** Bounds fixed while tracing are clamped, so their `narrow` is always in range. */
  lemma FixedBoundsFit(item: RuntimeItem, n: nat)
    requires item.Narrowed? && !item.start.Traced? && !item.stop.Traced?
    ensures Fits(item, n) && !EndsAtZero(item, n)
  {
  }

  // ----- whole keys

  predicate InPlace(key: seq<RuntimeItem>) {
    forall i | 0 <= i < |key| :: key[i].Static? ==> key[i].item.Int? || key[i].item.Slice?
  }

  function TakenKey(key: seq<RuntimeItem>, shape: seq<nat>): Key
    requires |key| <= |shape|
  {
    seq(|key|, i requires 0 <= i < |key| => Taken(key[i], shape[i]))
  }

  lemma {:induction false} AllConsumed(key: Key)
    requires forall i | 0 <= i < |key| :: key[i].Int? || key[i].Slice?
    ensures Consumed(key) == |key|
  {
    if key != [] { AllConsumed(key[1..]); }
  }

  lemma NarrowHere(item: RuntimeItem, rest: Key, shape: seq<nat>)
    requires item.Narrowed? && shape != [] && Fits(item, shape[0])
    ensures Replaces(Narrow(0, Start(item, shape[0]), Length(item, shape[0])), [FULL] + rest, shape,
                     [Taken(item, shape[0])] + rest)
  {
    TakenRange(item, shape[0]);
    NarrowReplaces(Taken(item, shape[0]), Start(item, shape[0]), Length(item, shape[0]), rest, shape);
  }

  lemma NarrowAt(item: RuntimeItem, residual: Key, p: nat, shape: seq<nat>)
    requires p < |residual| && p < |shape| && item.Narrowed? && Fits(item, shape[p])
    requires residual[p] == Taken(item, shape[p])
    requires forall i | 0 <= i < p :: residual[i].Int? || residual[i].Slice?
    ensures Replaces(Narrow(p, Start(item, shape[p]), Length(item, shape[p])), residual[p := FULL], shape, residual)
  {
    var before, rest := residual[..p], residual[p + 1..];
    AllConsumed(before);
    NarrowHere(item, rest, shape[p..]);
    ReplacesBehind(Narrow(0, Start(item, shape[p]), Length(item, shape[p])), shape, before,
                   [FULL] + rest, [residual[p]] + rest);
    assert residual == before + ([residual[p]] + rest);
    assert residual[p := FULL] == before + ([FULL] + rest);
  }

  lemma {:induction false} KeysDiffer(shape: seq<nat>, a: Key, b: Key, i: nat)
    requires |a| == |b| <= |shape| && KeyShape(shape, a).Some?
    requires forall k | 0 <= k < |a| :: (a[k].Int? && a[k] == b[k]) || (a[k].Slice? && b[k].Slice?)
    requires i < |a| && a[i].Slice? && Step(a[i]) != 0 && Step(b[i]) != 0
    requires SliceLength(a[i], shape[i]) != SliceLength(b[i], shape[i])
    ensures KeyShape(shape, a) != KeyShape(shape, b)
  {
    var x, y := KeyShape(shape[1..], a[1..]), KeyShape(shape[1..], b[1..]);
    if i > 0 {
      KeysDiffer(shape[1..], a[1..], b[1..], i - 1);
      if a[0].Slice? && KeyShape(shape, b).Some? {
        assert KeyShape(shape, a).value[1..] == x.value;
        assert KeyShape(shape, b).value[1..] == y.value;
      }
    } else if KeyShape(shape, b).Some? {
      assert KeyShape(shape, a).value[0] == SliceLength(a[0], shape[0]);
      assert KeyShape(shape, b).value[0] == SliceLength(b[0], shape[0]);
    }
  }

  lemma TakenItem(item: RuntimeItem, n: nat)
    requires item.Narrowed? && Fits(item, n)
    ensures Step(Concrete(item)) == 1 && Step(Taken(item, n)) == 1
    ensures EndsAtZero(item, n) ==> SliceLength(Concrete(item), n) != SliceLength(Taken(item, n), n)
    ensures !EndsAtZero(item, n) ==> SameItem(Concrete(item), Taken(item, n), n)
  {
    TakenRange(item, n);
    NarrowIsThePythonSlice(item, n);
    var a, b := Concrete(item), Taken(item, n);
    if !EndsAtZero(item, n) {
      forall j | 0 <= j < SliceLength(a, n) ensures Position(a, n, j) == Position(b, n, j) {
        assert j < Length(item, n);
      }
    }
  }

  /** The ranges taken are the slices Python would take exactly when no runtime slice ends at zero
      after a start counted from the end. */
  lemma TakenIsConcrete(shape: seq<nat>, key: seq<RuntimeItem>)
    requires |key| <= |shape| && InPlace(key)
    requires AllFit(key, shape)
    ensures !SomeEndsAtZero(key, shape) ==> SameSelection(shape, ConcreteKey(key), TakenKey(key, shape))
    ensures SomeEndsAtZero(key, shape) && KeyShape(shape, ConcreteKey(key)).Some? ==>
      KeyShape(shape, ConcreteKey(key)) != KeyShape(shape, TakenKey(key, shape))
  {
    var a, b := ConcreteKey(key), TakenKey(key, shape);
    forall i | 0 <= i < |key| && key[i].Narrowed?
      ensures Step(a[i]) == 1 && Step(b[i]) == 1
      ensures EndsAtZero(key[i], shape[i]) ==> SliceLength(a[i], shape[i]) != SliceLength(b[i], shape[i])
      ensures !EndsAtZero(key[i], shape[i]) ==> SameItem(a[i], b[i], shape[i])
    {
      TakenItem(key[i], shape[i]);
    }
    if !SomeEndsAtZero(key, shape) {
      KeysAgree(shape, a, b);
    } else if KeyShape(shape, a).Some? {
      var i :| 0 <= i < |key| && EndsAtZero(key[i], shape[i]);
      KeysDiffer(shape, a, b, i);
    }
  }

  predicate AllFit(key: seq<RuntimeItem>, shape: seq<nat>)
    requires |key| <= |shape|
  {
    forall i | 0 <= i < |key| :: Fits(key[i], shape[i])
  }

  predicate SomeEndsAtZero(key: seq<RuntimeItem>, shape: seq<nat>)
    requires |key| <= |shape|
  {
    exists i | 0 <= i < |key| :: EndsAtZero(key[i], shape[i])
  }

  lemma NoSuchRun(ops: seq<Op>, op: Op, shape: seq<nat>)
    requires RunShape(ops, shape).None? || OpShape(op, RunShape(ops, shape).value).None?
    ensures RunShape(ops + [op], shape).None?
  {
    assert (ops + [op])[..|ops|] == ops;
  }

  /** The operations take each of the ranges, or fail when one does not fit. */
  ghost predicate Records(ops: seq<Op>, shape: seq<nat>, key: seq<RuntimeItem>)
    requires |key| <= |shape|
  {
    if AllFit(key, shape) then Computes(ops, shape, TakenKey(key, shape)) else RunShape(ops, shape).None?
  }

  // ----- the recording

  /** One `narrow` for each runtime slice among the first `dim` items; absent at one on a missing axis. */
  function NarrowOps(shape: seq<nat>, key: seq<RuntimeItem>, dim: nat): Option<seq<Op>>
    requires dim <= |key|
  {
    if dim == 0 then Some([])
    else
      var ops, i := NarrowOps(shape, key, dim - 1), dim - 1;
      if ops.None? || key[i].Static? then ops
      else if i >= |shape| then None
      else Some(ops.value + [Narrow(i, Start(key[i], shape[i]), Length(key[i], shape[i]))])
  }

  /** The key once the runtime slices among its first `dim` items are full ones. */
  function Residual(key: seq<RuntimeItem>, dim: nat): Key {
    seq(|key|, i requires 0 <= i < |key| => if i < dim && key[i].Narrowed? then FULL else Concrete(key[i]))
  }

  predicate Narrows(key: seq<RuntimeItem>) {
    exists i | 0 <= i < |key| :: key[i].Narrowed?
  }

  predicate AllFull(key: Key) {
    forall i | 0 <= i < |key| :: key[i] == FULL
  }

  /** What is recorded: the `narrow` operations, and what is left of the key unless that is nothing. */
  function LoweredKey(shape: seq<nat>, key: seq<RuntimeItem>): Option<seq<Op>> {
    match NarrowOps(shape, key, |key|)
    case None => None
    case Some(ops) =>
      if Narrows(key) && AllFull(Residual(key, |key|)) then Some(ops) else Some(ops + [Get(Residual(key, |key|))])
  }

  /** The first `dim` items are done. */
  ghost predicate Narrowing(ops: seq<Op>, residual: Key, shape: seq<nat>, key: seq<RuntimeItem>, dim: nat) {
    dim <= |key| == |residual| &&
    (if |key| <= |shape| then Lowered(ops, residual, shape, key, dim) else Narrowable(ops, shape, key, dim)) &&
    forall i | 0 <= i < |key| :: residual[i] == if i < dim && key[i].Narrowed? then FULL else Concrete(key[i])
  }

  lemma NarrowingNext(ops: seq<Op>, residual: Key, shape: seq<nat>, key: seq<RuntimeItem>, dim: nat)
    requires InPlace(key) && dim < |key| && Narrowing(ops, residual, shape, key, dim)
    ensures key[dim].Static? ==> Narrowing(ops, residual, shape, key, dim + 1)
    ensures key[dim].Narrowed? && dim < |shape| ==>
      Narrowing(ops + [Narrow(dim, Start(key[dim], shape[dim]), Length(key[dim], shape[dim]))], residual[dim := FULL],
                shape, key, dim + 1)
  {
    if key[dim].Static? {
      if |key| <= |shape| { LowerStatic(ops, residual, shape, key, dim); }
    } else if |key| <= |shape| {
      LowerOneMore(ops, residual, shape, key, dim);
    } else if dim < |shape| {
      NarrowOneMore(ops, shape, key, dim);
    }
  }

  lemma {:induction false} NarrowOpsFail(shape: seq<nat>, key: seq<RuntimeItem>, dim: nat)
    requires dim <= |key|
    ensures NarrowOps(shape, key, dim).None? <==> exists i | 0 <= i < dim :: i >= |shape| && key[i].Narrowed?
    ensures (forall i | 0 <= i < dim :: key[i].Static?) ==> NarrowOps(shape, key, dim) == Some([])
  {
    if dim > 0 { NarrowOpsFail(shape, key, dim - 1); }
  }

  lemma {:induction false} NarrowOpsMean(shape: seq<nat>, key: seq<RuntimeItem>, dim: nat)
    requires InPlace(key) && dim <= |key|
    ensures NarrowOps(shape, key, dim).Some? ==>
      Narrowing(NarrowOps(shape, key, dim).value, Residual(key, dim), shape, key, dim)
  {
    if dim == 0 {
      if |key| <= |shape| { LowerNothing(Residual(key, 0), shape, key); }
    } else {
      NarrowOpsMean(shape, key, dim - 1);
      if NarrowOps(shape, key, dim).Some? {
        ResidualNext(key, dim);
        OpsNext(NarrowOps(shape, key, dim - 1).value, Residual(key, dim - 1), shape, key, dim,
                NarrowOps(shape, key, dim).value, Residual(key, dim));
      }
    }
  }

  lemma OpsNext(before: seq<Op>, left: Key, shape: seq<nat>, key: seq<RuntimeItem>, dim: nat, ops: seq<Op>, residual: Key)
    requires InPlace(key) && 0 < dim <= |key| && Narrowing(before, left, shape, key, dim - 1)
    requires key[dim - 1].Static? ==> ops == before && residual == left
    requires key[dim - 1].Narrowed? ==> dim - 1 < |shape| && residual == left[dim - 1 := FULL]
    requires key[dim - 1].Narrowed? ==>
      ops == before + [Narrow(dim - 1, Start(key[dim - 1], shape[dim - 1]), Length(key[dim - 1], shape[dim - 1]))]
    ensures Narrowing(ops, residual, shape, key, dim)
  {
    NarrowingNext(before, left, shape, key, dim - 1);
  }

  lemma ResidualNext(key: seq<RuntimeItem>, dim: nat)
    requires 0 < dim <= |key|
    ensures Residual(key, dim) ==
      if key[dim - 1].Static? then Residual(key, dim - 1) else Residual(key, dim - 1)[dim - 1 := FULL]
  {
  }

  /** The recording fails only at a runtime slice on a missing axis, where indexing fails too. For a key
      within the rank its operations run exactly when every range is in bounds, and then they compute
      Python's selection exactly when no slice ends at zero after a start counted from the end. For a
      longer key, which indexing refuses, they run exactly when nothing but full slices is left. */
  lemma LoweredKeyMeans(shape: seq<nat>, key: seq<RuntimeItem>)
    requires InPlace(key)
    ensures
      var recorded := LoweredKey(shape, key);
      (recorded.None? <==> exists i | 0 <= i < |key| :: i >= |shape| && key[i].Narrowed?) &&
      (|key| > |shape| ==> KeyShape(shape, ConcreteKey(key)).None?) &&
      (recorded.Some? && |key| > |shape| ==>
         (RunShape(recorded.value, shape).Some? <==> OnlyFullLeft(key) && NarrowsFit(key, shape, |key|))) &&
      (recorded.Some? && |key| <= |shape| ==> Records(recorded.value, shape, key)) &&
      (recorded.Some? && |key| <= |shape| && AllFit(key, shape) && !SomeEndsAtZero(key, shape) ==>
         Computes(recorded.value, shape, ConcreteKey(key))) &&
      (recorded.Some? && |key| <= |shape| && AllFit(key, shape) && SomeEndsAtZero(key, shape) ==>
         KeyShape(shape, ConcreteKey(key)).Some? ==> !Computes(recorded.value, shape, ConcreteKey(key)))
  {
    NarrowOpsMean(shape, key, |key|);
    NarrowOpsFail(shape, key, |key|);
    if |key| > |shape| { OverlongFails(shape, key); }
    var ops, residual := NarrowOps(shape, key, |key|), Residual(key, |key|);
    if ops.Some? && |key| <= |shape| {
      LoweredAll(ops.value, residual, shape, key, LoweredKey(shape, key).value);
    } else if ops.Some? {
      OverlongRuns(ops.value, residual, shape, key);
    }
  }

  /** A key with runtime slice bounds, as `narrow` operations followed by the residual key. */
  method LowerIndexKey(shape: seq<nat>, key: seq<RuntimeItem>) returns (recorded: Option<seq<Op>>)
    requires InPlace(key)
    ensures recorded == LoweredKey(shape, key)
  {
    var residual := ConcreteKey(key);
    var ops: seq<Op> := [];
    var narrowed := false;
    for dim := 0 to |key|
      invariant NarrowOps(shape, key, dim) == Some(ops) && residual == Residual(key, dim)
      invariant narrowed <==> exists i | 0 <= i < dim :: key[i].Narrowed?
    {
      ResidualNext(key, dim + 1);
      var item := key[dim];
      if item.Static? { continue; }
      if dim >= |shape| {
        NoOpsLater(shape, key, dim + 1, |key|);
        return None;
      }
      ops := ops + [Narrow(dim, Start(item, shape[dim]), Length(item, shape[dim]))];
      residual := residual[dim := FULL];
      narrowed := true;
    }
    if narrowed && AllFull(residual) {
      return Some(ops);
    }
    return Some(ops + [Get(residual)]);
  }

  lemma {:induction false} NoOpsLater(shape: seq<nat>, key: seq<RuntimeItem>, dim: nat, n: nat)
    requires dim <= n <= |key| && NarrowOps(shape, key, dim).None?
    ensures NarrowOps(shape, key, n).None?
  {
    if dim < n { NoOpsLater(shape, key, dim, n - 1); }
  }

  // ----- tensors whose shape has changed since tracing

  /** The bounds as the recording holds them: numbers worked out on an axis of size `m`. */
  function Resolved(item: RuntimeItem, m: nat): RuntimeItem {
    if item.Static? then item else Narrowed(Traced(Start(item, m)), Traced(Start(item, m) + Length(item, m)))
  }

  function ResolvedKey(key: seq<RuntimeItem>, traced: seq<nat>): seq<RuntimeItem>
    requires |key| <= |traced|
  {
    seq(|key|, i requires 0 <= i < |key| => Resolved(key[i], traced[i]))
  }

  lemma {:induction false} SameOps(traced: seq<nat>, shape: seq<nat>, key: seq<RuntimeItem>, dim: nat)
    requires dim <= |key| <= |traced| == |shape|
    ensures NarrowOps(traced, key, dim) == NarrowOps(shape, ResolvedKey(key, traced), dim)
  {
    if dim > 0 { SameOps(traced, shape, key, dim - 1); }
  }

  lemma SameRecording(traced: seq<nat>, shape: seq<nat>, key: seq<RuntimeItem>)
    requires |key| <= |traced| == |shape|
    ensures LoweredKey(traced, key) == LoweredKey(shape, ResolvedKey(key, traced))
  {
    var resolved := ResolvedKey(key, traced);
    SameOps(traced, shape, key, |key|);
    assert Residual(resolved, |key|) == Residual(key, |key|);
    assert Narrows(resolved) <==> Narrows(key) by {
      assert forall i | 0 <= i < |key| :: resolved[i].Narrowed? <==> key[i].Narrowed?;
    }
  }

  /** On an axis that had size `m` while tracing and has size `n` now, the recorded range has as many
      elements as Python's slice. */
  predicate SameLength(item: RuntimeItem, m: nat, n: nat) {
    item.Narrowed? ==> SliceLength(Concrete(item), n) == Length(item, m)
  }

  /** It begins where Python's slice does. */
  predicate SameStart(item: RuntimeItem, m: nat, n: nat) {
    item.Narrowed? ==> First(Concrete(item), n) == Wrapped(Start(item, m), n)
  }

  predicate AllSameLength(key: seq<RuntimeItem>, traced: seq<nat>, shape: seq<nat>)
    requires |key| <= |traced| == |shape|
  {
    forall i | 0 <= i < |key| :: SameLength(key[i], traced[i], shape[i])
  }

  predicate AllSameStart(key: seq<RuntimeItem>, traced: seq<nat>, shape: seq<nat>)
    requires |key| <= |traced| == |shape|
  {
    forall i | 0 <= i < |key| :: SameStart(key[i], traced[i], shape[i])
  }

  lemma ResolvedItem(item: RuntimeItem, m: nat, n: nat)
    requires item.Narrowed? && Fits(Resolved(item, m), n)
    ensures
      var a, b := Concrete(item), Taken(Resolved(item, m), n);
      a.Slice? && b.Slice? && Step(a) == 1 && Step(b) == 1 && SliceLength(b, n) == Length(item, m) &&
      First(b, n) == Wrapped(Start(item, m), n)
  {
    TakenRange(Resolved(item, m), n);
  }

  lemma {:induction false} KeysDifferAt(shape: seq<nat>, a: Key, b: Key, out: Index, i: nat)
    requires |a| == |b| <= |shape| && KeyShape(shape, a).Some? && KeyShape(shape, a) == KeyShape(shape, b)
    requires forall k | 0 <= k < |a| :: (a[k].Int? && a[k] == b[k]) || (a[k].Slice? && b[k].Slice?)
    requires InShape(KeyShape(shape, a).value, out)
    requires i < |a| && a[i].Slice? && (Step(a[i]) == Step(b[i]) == 1 && First(a[i], shape[i]) != First(b[i], shape[i]))
    ensures Selects(shape, a, out) != Selects(shape, b, out)
  {
    var x, y := Selects(shape, a, out), Selects(shape, b, out);
    if i == 0 {
      assert x[0] == First(a[0], shape[0]) + out[0] && y[0] == First(b[0], shape[0]) + out[0];
    } else if a[0].Int? {
      KeysDifferAt(shape[1..], a[1..], b[1..], out, i - 1);
      assert x[1..] == Selects(shape[1..], a[1..], out) && y[1..] == Selects(shape[1..], b[1..], out);
    } else {
      var s, u := KeyShape(shape[1..], a[1..]).value, KeyShape(shape[1..], b[1..]).value;
      assert KeyShape(shape, a).value[1..] == s && KeyShape(shape, b).value[1..] == u;
      KeysDifferAt(shape[1..], a[1..], b[1..], out[1..], i - 1);
      assert x[1..] == Selects(shape[1..], a[1..], out[1..]) && y[1..] == Selects(shape[1..], b[1..], out[1..]);
    }
  }

  /** What was recorded on a tensor of shape `traced`, replayed on one of another shape of the same rank.
      It runs exactly when the recorded ranges are in bounds. It then computes what Python selects there
      exactly when each range has the length of Python's slice and, unless nothing is selected, its
      start. */
  lemma OtherShapeComputes(traced: seq<nat>, shape: seq<nat>, key: seq<RuntimeItem>)
    requires InPlace(key) && |key| <= |traced| == |shape| && KeyShape(shape, ConcreteKey(key)).Some?
    ensures LoweredKey(traced, key).Some?
    ensures RunShape(LoweredKey(traced, key).value, shape).Some? <==> AllFit(ResolvedKey(key, traced), shape)
    ensures AllFit(ResolvedKey(key, traced), shape) ==>
      (Computes(LoweredKey(traced, key).value, shape, ConcreteKey(key)) <==>
         AllSameLength(key, traced, shape) &&
         (Numel(KeyShape(shape, ConcreteKey(key)).value) > 0 ==> AllSameStart(key, traced, shape)))
  {
    var resolved := ResolvedKey(key, traced);
    SameRecording(traced, shape, key);
    LoweredKeyMeans(shape, resolved);
    if AllFit(resolved, shape) {
      TakenAgrees(traced, shape, key);
      TakenSelectsToo(traced, shape, key);
      var ops := LoweredKey(traced, key).value;
      assert Computes(ops, shape, TakenKey(resolved, shape));
      SameComputation(ops, shape, ConcreteKey(key), TakenKey(resolved, shape));
    }
  }

  lemma {:induction false} SelectsToo(shape: seq<nat>, a: Key, b: Key)
    requires |a| == |b| <= |shape| && KeyShape(shape, a).Some?
    requires forall k | 0 <= k < |a| :: (a[k].Int? && a[k] == b[k]) || (a[k].Slice? && b[k].Slice? && (Step(b[k]) == 1 || a[k] == b[k]))
    ensures KeyShape(shape, b).Some?
  {
    if a != [] {
      assert a[0].Slice? ==> KeyShape(shape[1..], a[1..]).Some?;
      SelectsToo(shape[1..], a[1..], b[1..]);
    }
  }

  lemma SameComputation(ops: seq<Op>, shape: seq<nat>, a: Key, b: Key)
    requires Computes(ops, shape, b)
    ensures Computes(ops, shape, a) <==> SameSelection(shape, a, b)
  {
  }

  lemma TakenSelectsToo(traced: seq<nat>, shape: seq<nat>, key: seq<RuntimeItem>)
    requires InPlace(key) && |key| <= |traced| == |shape| && KeyShape(shape, ConcreteKey(key)).Some?
    requires AllFit(ResolvedKey(key, traced), shape)
    ensures KeyShape(shape, TakenKey(ResolvedKey(key, traced), shape)).Some?
  {
    forall i | 0 <= i < |key| && key[i].Narrowed?
      ensures Taken(Resolved(key[i], traced[i]), shape[i]).Slice? && Step(Taken(Resolved(key[i], traced[i]), shape[i])) == 1
    {
      ResolvedItem(key[i], traced[i], shape[i]);
    }
    SelectsToo(shape, ConcreteKey(key), TakenKey(ResolvedKey(key, traced), shape));
  }

  lemma TakenAgrees(traced: seq<nat>, shape: seq<nat>, key: seq<RuntimeItem>)
    requires InPlace(key) && |key| <= |traced| == |shape| && KeyShape(shape, ConcreteKey(key)).Some?
    requires AllFit(ResolvedKey(key, traced), shape)
    ensures SameSelection(shape, ConcreteKey(key), TakenKey(ResolvedKey(key, traced), shape)) <==>
      AllSameLength(key, traced, shape) &&
      (Numel(KeyShape(shape, ConcreteKey(key)).value) > 0 ==> AllSameStart(key, traced, shape))
  {
    var a, b := ConcreteKey(key), TakenKey(ResolvedKey(key, traced), shape);
    forall i | 0 <= i < |key| && key[i].Narrowed?
      ensures a[i].Slice? && b[i].Slice? && Step(a[i]) == 1 && Step(b[i]) == 1
      ensures SliceLength(b[i], shape[i]) == Length(key[i], traced[i])
      ensures First(b[i], shape[i]) == Wrapped(Start(key[i], traced[i]), shape[i])
    {
      ResolvedItem(key[i], traced[i], shape[i]);
    }
    if !AllSameLength(key, traced, shape) {
      var i :| 0 <= i < |key| && !SameLength(key[i], traced[i], shape[i]);
      KeysDiffer(shape, a, b, i);
    } else {
      SameLengthsSameShape(shape, a, b);
      var target := KeyShape(shape, a).value;
      if Numel(target) == 0 {
        NothingThere(target);
      } else if AllSameStart(key, traced, shape) {
        KeysAgree(shape, a, b);
      } else {
        var i :| 0 <= i < |key| && !SameStart(key[i], traced[i], shape[i]);
        KeysDifferAt(shape, a, b, Unravel(target, 0), i);
      }
    }
  }

  lemma NothingThere(target: seq<nat>)
    requires Numel(target) == 0
    ensures forall out :: !InShape(target, out)
  {
    forall out ensures !InShape(target, out) {
      if InShape(target, out) { HasElements(target, out); }
    }
  }

  lemma HasElements(target: seq<nat>, out: Index)
    requires InShape(target, out)
    ensures Numel(target) > 0
  {
    assert Ravel(target, out) < Numel(target);
  }

  lemma {:induction false} SameLengthsSameShape(shape: seq<nat>, a: Key, b: Key)
    requires |a| == |b| <= |shape| && KeyShape(shape, a).Some?
    requires forall k | 0 <= k < |a| :: a[k].Int? || a[k].Slice?
    requires forall k | 0 <= k < |a| && a[k] != b[k] ::
      a[k].Slice? && b[k].Slice? && Step(a[k]) == Step(b[k]) == 1 &&
      SliceLength(a[k], shape[k]) == SliceLength(b[k], shape[k])
    ensures KeyShape(shape, a) == KeyShape(shape, b)
  {
    if a != [] {
      assert a[0].Slice? ==> KeyShape(shape[1..], a[1..]).Some?;
      SameLengthsSameShape(shape[1..], a[1..], b[1..]);
    }
  }

  /** `y[k:]` with k = 1, recorded on three elements and replayed on five: Python takes four, the recorded
      range two. */
  lemma RestOfLonger()
    ensures
      var key := [Narrowed(Traced(1), Absent)];
      KeyShape([5], ConcreteKey(key)) == Some([4]) && LoweredKey([3], key).Some? &&
      AllFit(ResolvedKey(key, [3]), [5]) && !Computes(LoweredKey([3], key).value, [5], ConcreteKey(key))
  {
    var key := [Narrowed(Traced(1), Absent)];
    var s := Slice(Some(1), None, None);
    assert ConcreteKey(key) == [s] && [s][1..] == [] && [5][1..] == [];
    assert First(s, 5) == 1 && Last(s, 5) == 5 && SliceLength(s, 5) == 4;
    var rest: seq<nat> := [];
    assert KeyShape([5], [s]) == Prepend(4, Some(rest)) && [4] + rest == [4];
    assert Start(key[0], 3) == 1 && Length(key[0], 3) == 2;
    assert ResolvedKey(key, [3]) == [Narrowed(Traced(1), Traced(3))];
    assert !SameLength(key[0], 3, 5);
    OtherShapeComputes([3], [5], key);
  }

  // ----- keys with too many axes

  /** A runtime slice, and nothing but full slices besides. */
  predicate OnlyFullLeft(key: seq<RuntimeItem>) {
    (exists i | 0 <= i < |key| :: key[i].Narrowed?) &&
    forall i | 0 <= i < |key| :: key[i].Narrowed? || key[i].item == FULL
  }

  predicate NarrowsFit(key: seq<RuntimeItem>, shape: seq<nat>, dim: nat)
    requires dim <= |key|
  {
    forall i | 0 <= i < dim && i < |shape| :: Fits(key[i], shape[i])
  }

  /** The operations run as long as their ranges fit, and leave the axes from `dim` on as they are. */
  ghost predicate Narrowable(ops: seq<Op>, shape: seq<nat>, key: seq<RuntimeItem>, dim: nat)
    requires dim <= |key|
  {
    if NarrowsFit(key, shape, dim) then
      RunShape(ops, shape).Some? && |RunShape(ops, shape).value| == |shape| &&
      forall a | dim <= a < |shape| :: RunShape(ops, shape).value[a] == shape[a]
    else RunShape(ops, shape).None?
  }

  lemma NarrowOneMore(ops: seq<Op>, shape: seq<nat>, key: seq<RuntimeItem>, dim: nat)
    requires dim < |key| && dim < |shape| && key[dim].Narrowed? && Narrowable(ops, shape, key, dim)
    ensures Narrowable(ops + [Narrow(dim, Start(key[dim], shape[dim]), Length(key[dim], shape[dim]))], shape, key, dim + 1)
  {
    var op := Narrow(dim, Start(key[dim], shape[dim]), Length(key[dim], shape[dim]));
    if NarrowsFit(key, shape, dim) && Fits(key[dim], shape[dim]) {
      OneAxisChanges(ops, op, shape);
    } else {
      NoSuchRun(ops, op, shape);
    }
  }

  /** Indexing raises, but when only full slices are left the recording ends with the ranges taken. */
  lemma OverlongRuns(ops: seq<Op>, residual: Key, shape: seq<nat>, key: seq<RuntimeItem>)
    requires InPlace(key) && |key| == |residual| > |shape| && Narrowable(ops, shape, key, |key|)
    requires forall i | 0 <= i < |key| :: residual[i] == if key[i].Narrowed? then FULL else Concrete(key[i])
    ensures RunShape(ops, shape).Some? <==> NarrowsFit(key, shape, |key|)
    ensures RunShape(ops + [Get(residual)], shape).None?
    ensures (forall i | 0 <= i < |residual| :: residual[i] == FULL) <==>
      forall i | 0 <= i < |key| :: key[i].Narrowed? || key[i].item == FULL
  {
    assert (ops + [Get(residual)])[..|ops|] == ops;
    AllConsumed(residual);
    if RunShape(ops, shape).Some? && KeyShape(RunShape(ops, shape).value, residual).Some? {
      GoodKeyFits(RunShape(ops, shape).value, residual);
    }
    if forall i | 0 <= i < |residual| :: residual[i] == FULL {
      forall i | 0 <= i < |key| ensures key[i].Narrowed? || key[i].item == FULL { assert residual[i] == FULL; }
    }
  }

  /** `x[i:j, :]` on one axis: Python raises, and the recording narrows and runs. */
  method OverlongKeyNarrowed(n: nat) returns (recorded: Option<seq<Op>>)
    ensures KeyShape([n], ConcreteKey([Narrowed(Traced(0), Traced(n)), Static(FULL)])).None?
    ensures recorded.Some? && RunShape(recorded.value, [n]).Some?
  {
    var key := [Narrowed(Traced(0), Traced(n)), Static(FULL)];
    assert key[0].Narrowed? && !key[1].Narrowed? && Fits(key[0], n);
    LoweredKeyMeans([n], key);
    recorded := LowerIndexKey([n], key);
  }

  /** The residual key after `dim` items, with the ranges taken by the items still to come. */
  function Whole(residual: Key, shape: seq<nat>, key: seq<RuntimeItem>, dim: nat): (r: Key)
    requires dim <= |key| == |residual| <= |shape|
    ensures |r| == |key|
  {
    residual[..dim] + TakenKey(key, shape)[dim..]
  }

  /** The first `dim` items have been lowered: either each of their ranges fits, and the operations
      continue with the rest of the key, or some operation fails. */
  ghost predicate Lowered(ops: seq<Op>, residual: Key, shape: seq<nat>, key: seq<RuntimeItem>, dim: nat)
    requires dim <= |key| == |residual| <= |shape|
  {
    (forall i | 0 <= i < dim :: residual[i].Int? || residual[i].Slice?) &&
    if forall i | 0 <= i < dim :: Fits(key[i], shape[i]) then
      Continues(ops, Whole(residual, shape, key, dim), shape, TakenKey(key, shape)) &&
      |RunShape(ops, shape).value| == |shape| &&
      forall a | dim <= a < |shape| :: RunShape(ops, shape).value[a] == shape[a]
    else RunShape(ops, shape).None?
  }

  lemma LowerNothing(residual: Key, shape: seq<nat>, key: seq<RuntimeItem>)
    requires |key| == |residual| <= |shape|
    ensures Lowered([], residual, shape, key, 0)
  {
    assert Whole(residual, shape, key, 0) == TakenKey(key, shape);
  }

  lemma LowerStatic(ops: seq<Op>, residual: Key, shape: seq<nat>, key: seq<RuntimeItem>, dim: nat)
    requires InPlace(key) && dim < |key| == |residual| <= |shape| && key[dim].Static?
    requires Lowered(ops, residual, shape, key, dim) && residual[dim] == Concrete(key[dim])
    ensures Lowered(ops, residual, shape, key, dim + 1)
  {
    assert Whole(residual, shape, key, dim + 1) == Whole(residual, shape, key, dim);
  }

  lemma LowerOneMore(ops: seq<Op>, residual: Key, shape: seq<nat>, key: seq<RuntimeItem>, dim: nat)
    requires InPlace(key) && dim < |key| == |residual| <= |shape| && key[dim].Narrowed?
    requires Lowered(ops, residual, shape, key, dim)
    ensures Lowered(ops + [Narrow(dim, Start(key[dim], shape[dim]), Length(key[dim], shape[dim]))],
                    residual[dim := FULL], shape, key, dim + 1)
  {
    var item, whole := key[dim], Whole(residual, shape, key, dim);
    var op := Narrow(dim, Start(item, shape[dim]), Length(item, shape[dim]));
    assert whole[dim := FULL] == Whole(residual[dim := FULL], shape, key, dim + 1);
    if forall i | 0 <= i < dim :: Fits(key[i], shape[i]) {
      if Fits(item, shape[dim]) {
        NarrowAtSize(item, whole, dim, RunShape(ops, shape).value, shape[dim]);
        RecordedOnTop(ops, op, whole, whole[dim := FULL], shape, TakenKey(key, shape));
        OneAxisChanges(ops, op, shape);
      } else {
        NoSuchRun(ops, op, shape);
      }
    } else {
      NoSuchRun(ops, op, shape);
    }
  }

  lemma LoweredAll(ops: seq<Op>, residual: Key, shape: seq<nat>, key: seq<RuntimeItem>, recorded: seq<Op>)
    requires InPlace(key) && |key| == |residual| <= |shape| && Lowered(ops, residual, shape, key, |key|)
    requires recorded == ops + [Get(residual)] ||
      (recorded == ops && forall i | 0 <= i < |residual| :: residual[i] == FULL)
    ensures Records(recorded, shape, key)
    ensures AllFit(key, shape) && !SomeEndsAtZero(key, shape) ==> Computes(recorded, shape, ConcreteKey(key))
    ensures AllFit(key, shape) && SomeEndsAtZero(key, shape) ==>
      KeyShape(shape, ConcreteKey(key)).Some? ==> !Computes(recorded, shape, ConcreteKey(key))
  {
    if AllFit(key, shape) {
      assert Whole(residual, shape, key, |key|) == residual;
      Closed(ops, residual, shape, TakenKey(key, shape));
      TakenIsConcrete(shape, key);
      if SomeEndsAtZero(key, shape) {
        assert Computes(recorded, shape, TakenKey(key, shape));
      } else {
        ComputesTheSame(recorded, shape, ConcreteKey(key), TakenKey(key, shape));
      }
    } else {
      NoSuchRun(ops, Get(residual), shape);
    }
  }

  lemma NarrowAtSize(item: RuntimeItem, residual: Key, p: nat, shape: seq<nat>, n: nat)
    requires p < |residual| && p < |shape| && shape[p] == n && item.Narrowed? && Fits(item, n)
    requires residual[p] == Taken(item, n)
    requires forall i | 0 <= i < p :: residual[i].Int? || residual[i].Slice?
    ensures Replaces(Narrow(p, Start(item, n), Length(item, n)), residual[p := FULL], shape, residual)
  {
    NarrowAt(item, residual, p, shape);
  }

  lemma OverlongFails(shape: seq<nat>, key: seq<RuntimeItem>)
    requires InPlace(key) && |key| > |shape|
    ensures KeyShape(shape, ConcreteKey(key)).None?
  {
    AllConsumed(ConcreteKey(key));
    if KeyShape(shape, ConcreteKey(key)).Some? { GoodKeyFits(shape, ConcreteKey(key)); }
  }

  /** `x[-2:0]` with runtime bounds: Python selects nothing, the recorded `narrow` the last two. */
  lemma TailInsteadOfNothing()
    ensures
      var item := Narrowed(Traced(-2), Traced(0));
      Fits(item, 5) && EndsAtZero(item, 5) &&
      KeyShape([5], ConcreteKey([item])) == Some([0]) &&
      RunShape([Narrow(0, Start(item, 5), Length(item, 5))], [5]) == Some([2])
  {
    var key := ConcreteKey([Narrowed(Traced(-2), Traced(0))]);
    var s := Slice(Some(-2), Some(0), None);
    assert key == [s] && [s][1..] == [] && [5][1..] == [];
    assert First(s, 5) == 3 && Last(s, 5) == 0 && SliceLength(s, 5) == 0;
    var rest: seq<nat> := [];
    assert KeyShape([5], key) == Prepend(0, Some(rest)) && [0] + rest == [0];
    var op := Narrow(0, -2, 2);
    assert [5][0 := 2] == [2] && [op][..0] == [] && RunShape([op], [5]) == OpShape(op, [5]);
  }
}
