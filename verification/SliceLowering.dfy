/** Lowering of reverse slices (leapp/leapp_graph/datatypes/traced_data.py): each one becomes a
    flip or an index selection on its original axis, and one residual key follows. */
module SliceLowering {
  import opened Ports
  import opened Tensors
  import opened BasicIndexing
  import opened AxisOps

  // ----- the ellipsis

  function Spelled(key: Key, m: nat): Key {
    if key == [] then []
    else (if key[0].Ellipsis? then Fulls(m) else [key[0]]) + Spelled(key[1..], m)
  }

  lemma {:induction false} EllipsisIsFulls(shape: seq<nat>, rest: Key)
    requires Consumed(rest) <= |shape| && Ellipsis !in rest
    ensures SameSelection(shape, [Ellipsis] + rest, Fulls(|shape| - Consumed(rest)) + rest)
  {
    var m := |shape| - Consumed(rest);
    assert ([Ellipsis] + rest)[1..] == rest;
    if m == 0 {
      assert Fulls(0) + rest == rest;
    } else {
      EllipsisIsFulls(shape[1..], rest);
      FullFirst(shape, [Ellipsis] + rest, Fulls(m - 1) + rest);
      assert Fulls(m) + rest == [FULL] + (Fulls(m - 1) + rest);
    }
  }

  lemma FullFirst(shape: seq<nat>, key: Key, rest: Key)
    requires key != [] && key[0].Ellipsis? && Ellipsis !in key[1..] && Consumed(key[1..]) < |shape|
    requires SameSelection(shape[1..], key, rest)
    ensures SameSelection(shape, key, [FULL] + rest)
  {
    var long := [FULL] + rest;
    assert long[1..] == rest;
    FullSlice(shape[0]);
    assert KeyShape(shape, key) == KeyShape(shape, long);
    if KeyShape(shape, key).Some? {
      forall out | InShape(KeyShape(shape, key).value, out)
        ensures Selects(shape, key, out) == Selects(shape, long, out)
      {
        InShapeTail(KeyShape(shape, key).value, out);
        assert KeyShape(shape, key).value[1..] == KeyShape(shape[1..], key).value;
      }
    }
  }

  /** Spelling the ellipsis out as full slices changes nothing. */
  lemma {:induction false} SpelledSelectsTheSame(shape: seq<nat>, key: Key)
    requires Consumed(key) <= |shape| && OneEllipsis(key)
    ensures SameSelection(shape, key, Spelled(key, |shape| - Consumed(key)))
    decreases |key|
  {
    if key != [] {
      var m, rest := |shape| - Consumed(key), key[1..];
      assert key == [key[0]] + rest;
      assert OneEllipsis(rest) by {
        assert forall i | 0 <= i < |rest| :: rest[i] == key[i + 1];
      }
      match key[0]
      case Ellipsis =>
        assert Ellipsis !in rest;
        SpelledPlain(rest, m);
        EllipsisIsFulls(shape, rest);
      case NewAxis =>
        SpelledSelectsTheSame(shape, rest);
        SameUnderNewAxis(shape, rest, Spelled(rest, m));
      case _ =>
        SpelledSelectsTheSame(shape[1..], rest);
        SameUnderItem(shape, key[0], rest, Spelled(rest, m));
    }
  }

  lemma {:induction false} SpelledPlain(key: Key, m: nat)
    requires Ellipsis !in key
    ensures Spelled(key, m) == key
  {
    if key != [] { SpelledPlain(key[1..], m); }
  }

  lemma SameUnderNewAxis(shape: seq<nat>, a: Key, b: Key)
    requires SameSelection(shape, a, b)
    ensures SameSelection(shape, [NewAxis] + a, [NewAxis] + b)
  {
    assert ([NewAxis] + a)[1..] == a && ([NewAxis] + b)[1..] == b;
  }

  lemma SameUnderItem(shape: seq<nat>, item: Item, a: Key, b: Key)
    requires shape != [] && (item.Int? || item.Slice?) && SameSelection(shape[1..], a, b)
    ensures SameSelection(shape, [item] + a, [item] + b)
  {
    var x, y := [item] + a, [item] + b;
    assert x[1..] == a && y[1..] == b;
    if KeyShape(shape, x).Some? {
      forall out | InShape(KeyShape(shape, x).value, out) ensures Selects(shape, x, out) == Selects(shape, y, out) {
        if item.Slice? {
          InShapeTail(KeyShape(shape, x).value, out);
          assert KeyShape(shape, x).value[1..] == KeyShape(shape[1..], a).value;
        }
      }
    }
  }

  // ----- one reverse slice

  predicate Reversed(item: Item) {
    item.Slice? && Step(item) < 0
  }

  /** The operation recorded for a reverse slice on an axis of size `n`. */
  function Select(axis: nat, item: Item, n: nat): Op
    requires Reversed(item)
  {
    if First(item, n) == n - 1 && Last(item, n) == -1 && Step(item) == -1 then Flip(axis)
    else IndexSelect(axis, seq(SliceLength(item, n), j requires 0 <= j < SliceLength(item, n) => Position(item, n, j)))
  }

  lemma SelectFits(item: Item, shape: seq<nat>)
    requires Reversed(item) && shape != []
    ensures OpShape(Select(0, item, shape[0]), shape) == Some([SliceLength(item, shape[0])] + shape[1..])
    ensures forall out | InShape([SliceLength(item, shape[0])] + shape[1..], out) ::
      OpSource(Select(0, item, shape[0]), shape, out) == [Position(item, shape[0], out[0])] + out[1..]
  {
    var n := shape[0];
    var op := Select(0, item, n);
    var m := SliceLength(item, n);
    assert op.Flip? ==> m == n;
    assert shape[0 := m] == [m] + shape[1..] && shape == [n] + shape[1..];
    if op.IndexSelect? {
      assert |op.indices| == m && forall j | 0 <= j < m :: op.indices[j] == Position(item, n, j);
    }
    forall out | InShape([SliceLength(item, n)] + shape[1..], out)
      ensures OpSource(op, shape, out) == [Position(item, n, out[0])] + out[1..]
    {
      assert out[0] < m;
      assert op.Flip? ==> n - 1 - out[0] == Position(item, n, out[0]);
      assert out[0 := Position(item, n, out[0])] == [Position(item, n, out[0])] + out[1..];
    }
  }

  lemma ReplacesHere(item: Item, rest: Key, shape: seq<nat>)
    requires Reversed(item) && shape != []
    ensures Replaces(Select(0, item, shape[0]), [FULL] + rest, shape, [item] + rest)
  {
    SelectFits(item, shape);
    var mid := [SliceLength(item, shape[0])] + shape[1..];
    var short, long := [item] + rest, [FULL] + rest;
    assert short[1..] == rest && long[1..] == rest && mid[1..] == shape[1..];
    FullSlice(mid[0]);
  }

  /** Selecting a reverse slice's positions first, and then keeping that axis whole, is the same
      selection, whatever new axes, integers and slices stand before it. */
  lemma SelectFirst(shape: seq<nat>, key: Key, p: nat)
    requires p < |key| && Reversed(key[p]) && Ellipsis !in key[..p]
    requires Consumed(key[..p]) < |shape|
    ensures
      var a := Consumed(key[..p]);
      Replaces(Select(a, key[p], shape[a]), key[p := FULL], shape, key)
  {
    var a := Consumed(key[..p]);
    var post := key[p + 1..];
    ReplacesHere(key[p], post, shape[a..]);
    ReplacesBehind(Select(0, key[p], shape[a]), shape, key[..p], [FULL] + post, [key[p]] + post);
    assert key == key[..p] + ([key[p]] + post) && key[p := FULL] == key[..p] + ([FULL] + post);
  }

  // ----- the lowering

  datatype Lowering =
    | Untouched           // no reverse slice: the caller records the key as it is
    | Failed              // a reverse slice on an axis the tensor does not have
    | Graph(ops: seq<Op>)

  lemma {:induction false} SpelledJoin(a: Key, b: Key, m: nat)
    ensures Spelled(a + b, m) == Spelled(a, m) + Spelled(b, m)
  {
    if a == [] {
      assert a + b == b;
    } else {
      SpelledJoin(a[1..], b, m);
      assert a + b == [a[0]] + (a[1..] + b) && (a + b)[1..] == a[1..] + b;
      var front := if a[0].Ellipsis? then Fulls(m) else [a[0]];
      assert Spelled(a + b, m) == front + (Spelled(a[1..], m) + Spelled(b, m));
    }
  }

  lemma {:induction false} SpelledConsumes(key: Key, m: nat)
    requires OneEllipsis(key)
    ensures Consumed(Spelled(key, m)) <= Consumed(key) + m
  {
    if key != [] {
      var rest := key[1..];
      assert OneEllipsis(rest) by {
        assert forall i | 0 <= i < |rest| :: rest[i] == key[i + 1];
      }
      if key[0].Ellipsis? {
        assert forall i | 0 <= i < |rest| :: rest[i] == key[i + 1];
        SpelledPlain(rest, m);
        ConsumedJoin(Fulls(m), rest);
        FullsConsume(Fulls(m));
      } else {
        SpelledConsumes(rest, m);
        ConsumedJoin([key[0]], Spelled(rest, m));
        assert [key[0]][1..] == [];
      }
    }
  }

  lemma {:induction false} SpelledHasNoEllipsis(key: Key, m: nat)
    ensures Ellipsis !in Spelled(key, m)
  {
    if key != [] { SpelledHasNoEllipsis(key[1..], m); }
  }

  /** The key with its ellipsis spelled out for the axes the rest of the key does not consume. */
  function SpelledOut(shape: seq<nat>, key: Key): Key {
    Spelled(key, if Consumed(key) <= |shape| then |shape| - Consumed(key) else 0)
  }

  method SpellOut(shape: seq<nat>, key: Key) returns (residual: Key)
    ensures residual == SpelledOut(shape, key)
  {
    var consumed := 0;
    for j := 0 to |key|
      invariant consumed == Consumed(key[..j])
    {
      ConsumedJoin(key[..j], [key[j]]);
      assert key[..j + 1] == key[..j] + [key[j]];
      if key[j].Int? || key[j].Slice? { consumed := consumed + 1; }
    }
    assert key[..|key|] == key;

    residual := [];
    var left := if consumed <= |shape| then |shape| - consumed else 0;
    for j := 0 to |key|
      invariant residual == Spelled(key[..j], left)
    {
      SpelledJoin(key[..j], [key[j]], left);
      assert key[..j + 1] == key[..j] + [key[j]];
      residual := residual + (if key[j].Ellipsis? then Fulls(left) else [key[j]]);
    }
  }

  /** A reverse slice stands on an axis the tensor does not have. */
  predicate MissesAxis(shape: seq<nat>, spelled: Key) {
    exists p | 0 <= p < |spelled| :: Reversed(spelled[p]) && Consumed(spelled[..p]) >= |shape|
  }

  /** Each reverse slice is replaced by a full one. */
  predicate Unreversed(spelled: Key, residual: Key) {
    |residual| == |spelled| &&
    forall p | 0 <= p < |spelled| :: residual[p] == if Reversed(spelled[p]) then FULL else spelled[p]
  }

  lemma SelectOneMore(ops: seq<Op>, residual: Key, shape: seq<nat>, spelled: Key, p: nat)
    requires p < |residual| && Ellipsis !in residual && Reversed(residual[p]) && Consumed(residual[..p]) < |shape|
    requires Continues(ops, residual, shape, spelled) && |RunShape(ops, shape).value| == |shape|
    requires
      var axis := Consumed(residual[..p]);
      forall a | axis <= a < |shape| :: RunShape(ops, shape).value[a] == shape[a]
    ensures
      var axis := Consumed(residual[..p]);
      var more := ops + [Select(axis, residual[p], shape[axis])];
      Continues(more, residual[p := FULL], shape, spelled) && |RunShape(more, shape).value| == |shape| &&
      forall a | axis < a < |shape| :: RunShape(more, shape).value[a] == shape[a]
    ensures Consumed(residual[p := FULL]) == Consumed(residual)
    ensures Consumed(residual[p := FULL][..p + 1]) == Consumed(residual[..p]) + 1
  {
    var axis := Consumed(residual[..p]);
    var op := Select(axis, residual[p], shape[axis]);
    ConsumedAt(residual, p);
    SelectFirst(RunShape(ops, shape).value, residual, p);
    RecordedOnTop(ops, op, residual, residual[p := FULL], shape, spelled);
    OneAxisChanges(ops, op, shape);
    ConsumedFull(residual, p);
    ConsumedAt(residual[p := FULL], p);
  }

  /** The first `p` items are done: what was recorded continues with the residual key, whose axes from
      `axis` on are untouched. */
  ghost predicate Selected(ops: seq<Op>, residual: Key, shape: seq<nat>, spelled: Key, p: nat, axis: nat) {
    p <= |residual| == |spelled| && Ellipsis !in residual && Continues(ops, residual, shape, spelled) &&
    (forall i | 0 <= i < p :: residual[i] == if Reversed(spelled[i]) then FULL else spelled[i]) &&
    (forall i | p <= i < |spelled| :: residual[i] == spelled[i]) &&
    axis == Consumed(residual[..p]) == Consumed(spelled[..p]) && Consumed(residual) == Consumed(spelled) &&
    |RunShape(ops, shape).value| == |shape| &&
    forall a | axis <= a < |shape| :: RunShape(ops, shape).value[a] == shape[a]
  }

  lemma SelectedNext(ops: seq<Op>, residual: Key, shape: seq<nat>, spelled: Key, p: nat, axis: nat)
    requires p < |residual| && Selected(ops, residual, shape, spelled, p, axis)
    ensures
      var item := residual[p];
      item == spelled[p] &&
      if item.NewAxis? then Selected(ops, residual, shape, spelled, p + 1, axis)
      else if !Reversed(item) then Selected(ops, residual, shape, spelled, p + 1, axis + 1)
      else axis < |shape| ==>
        Selected(ops + [Select(axis, item, shape[axis])], residual[p := FULL], shape, spelled, p + 1, axis + 1)
  {
    ConsumedAt(residual, p);
    ConsumedAt(spelled, p);
    assert residual[p] in residual;
    if Reversed(residual[p]) && axis < |shape| { SelectOneMore(ops, residual, shape, spelled, p); }
  }

  /** Every reverse slice becomes one operation on its original axis. */
  method SelectReversed(shape: seq<nat>, spelled: Key) returns (r: Option<(seq<Op>, Key)>)
    requires Ellipsis !in spelled
    ensures r.None? <==> MissesAxis(shape, spelled)
    ensures r.Some? ==> Continues(r.value.0, r.value.1, shape, spelled) && Unreversed(spelled, r.value.1)
    ensures r.Some? ==> |RunShape(r.value.0, shape).value| == |shape| && Consumed(r.value.1) == Consumed(spelled)
  {
    var residual := spelled;
    var ops: seq<Op> := [];
    var axis := 0;
    for p := 0 to |residual|
      invariant Selected(ops, residual, shape, spelled, p, axis)
      invariant forall i | 0 <= i < p :: !(Reversed(spelled[i]) && Consumed(spelled[..i]) >= |shape|)
    {
      var item := residual[p];
      SelectedNext(ops, residual, shape, spelled, p, axis);
      if item.NewAxis? { continue; }
      if Reversed(item) {
        if axis >= |shape| { return None; }
        ops := ops + [Select(axis, item, shape[axis])];
        residual := residual[p := FULL];
      }
      axis := axis + 1;
    }
    r := Some((ops, residual));
  }

  /** The reverse slices of a basic key, as operations followed by the residual key. */
  method LowerNegativeSlices(shape: seq<nat>, key: Key) returns (r: Lowering)
    ensures r.Untouched? <==> forall p | 0 <= p < |key| :: !Reversed(key[p])
    ensures r.Failed? <==> !r.Untouched? && MissesAxis(shape, SpelledOut(shape, key))
    ensures r.Failed? ==> KeyShape(shape, key).None?
    ensures r.Graph? && OneEllipsis(key) && Consumed(key) <= |shape| ==> Computes(r.ops, shape, key)
    ensures r.Graph? ==>
      (RunShape(r.ops, shape).Some? <==> OnlyFullSlicesLeft(key) || KeyShape(shape, SpelledOut(shape, key)).Some?)
    ensures Consumed(key) > |shape| ==> KeyShape(shape, SpelledOut(shape, key)).None? && KeyShape(shape, key).None?
  {
    if Consumed(key) > |shape| { OverlongFails(shape, key); }
    var i := 0;
    while i < |key| && !Reversed(key[i])
      invariant 0 <= i <= |key| && forall p | 0 <= p < i :: !Reversed(key[p])
    {
      i := i + 1;
    }
    if i == |key| { return Untouched; }

    var spelled := SpellOut(shape, key);
    SpelledHasNoEllipsis(key, if Consumed(key) <= |shape| then |shape| - Consumed(key) else 0);
    var selected := SelectReversed(shape, spelled);
    if selected.None? {
      MissingFails(shape, key);
      return Failed;
    }
    var (ops, residual) := selected.value;
    if forall p | 0 <= p < |residual| :: residual[p] == FULL {
      r := Graph(ops);
    } else {
      r := Graph(ops + [Get(residual)]);
    }
    LoweringRuns(shape, key, ops, residual);
    if OneEllipsis(key) && Consumed(key) <= |shape| { LoweringComputes(shape, key, ops, residual); }
  }

  lemma MissingFails(shape: seq<nat>, key: Key)
    requires MissesAxis(shape, SpelledOut(shape, key))
    ensures KeyShape(shape, key).None?
  {
    if KeyShape(shape, key).Some? {
      GoodKeyFits(shape, key);
      SpelledConsumes(key, |shape| - Consumed(key));
      var spelled := SpelledOut(shape, key);
      var p :| 0 <= p < |spelled| && Reversed(spelled[p]) && Consumed(spelled[..p]) >= |shape|;
      ConsumedAt(spelled, p);
    }
  }

  lemma LoweringComputes(shape: seq<nat>, key: Key, ops: seq<Op>, residual: Key)
    requires OneEllipsis(key) && Consumed(key) <= |shape|
    requires Continues(ops, residual, shape, SpelledOut(shape, key))
    requires |RunShape(ops, shape).value| == |shape| && Consumed(residual) == Consumed(SpelledOut(shape, key))
    ensures Computes(ops + [Get(residual)], shape, key)
    ensures (forall p | 0 <= p < |residual| :: residual[p] == FULL) ==> Computes(ops, shape, key)
  {
    SpelledConsumes(key, |shape| - Consumed(key));
    SpelledSelectsTheSame(shape, key);
    Closed(ops, residual, shape, SpelledOut(shape, key));
    FullsOrLess(residual, |shape|);
    ComputesTheSame(ops + [Get(residual)], shape, key, SpelledOut(shape, key));
    if forall p | 0 <= p < |residual| :: residual[p] == FULL {
      ComputesTheSame(ops, shape, key, SpelledOut(shape, key));
    }
  }

  // ----- keys with too many axes

  /** Nothing but an ellipsis, reverse slices and full ones. */
  predicate OnlyFullSlicesLeft(key: Key) {
    forall p | 0 <= p < |key| :: Reversed(key[p]) || key[p] == FULL || key[p].Ellipsis?
  }

  lemma {:induction false} SpelledKeepsFull(key: Key, m: nat)
    ensures OnlyFullSlicesLeft(Spelled(key, m)) <==> OnlyFullSlicesLeft(key)
  {
    if key == [] {
    } else {
      var front, rest := if key[0].Ellipsis? then Fulls(m) else [key[0]], Spelled(key[1..], m);
      SpelledKeepsFull(key[1..], m);
      assert key == [key[0]] + key[1..];
      OnlyFullJoin(front, rest);
      OnlyFullJoin([key[0]], key[1..]);
      assert OnlyFullSlicesLeft(front) <==> OnlyFullSlicesLeft([key[0]]) by {
        if OnlyFullSlicesLeft(front) && !key[0].Ellipsis? { assert front[0] == key[0]; }
      }
    }
  }

  lemma {:induction false} SpelledConsumesAll(key: Key, m: nat)
    ensures Consumed(Spelled(key, m)) >= Consumed(key)
  {
    if key != [] {
      SpelledConsumesAll(key[1..], m);
      var front := if key[0].Ellipsis? then Fulls(m) else [key[0]];
      ConsumedJoin(front, Spelled(key[1..], m));
      assert [key[0]][1..] == [];
    }
  }

  lemma OnlyFullJoin(a: Key, b: Key)
    ensures OnlyFullSlicesLeft(a + b) <==> OnlyFullSlicesLeft(a) && OnlyFullSlicesLeft(b)
  {
    var all := a + b;
    assert forall p | 0 <= p < |a| :: all[p] == a[p];
    assert forall p | 0 <= p < |b| :: all[|a| + p] == b[p];
    if OnlyFullSlicesLeft(all) {
      forall p | 0 <= p < |a| ensures Reversed(a[p]) || a[p] == FULL || a[p].Ellipsis? { assert all[p] == a[p]; }
      forall p | 0 <= p < |b| ensures Reversed(b[p]) || b[p] == FULL || b[p].Ellipsis? { assert all[|a| + p] == b[p]; }
    }
  }

  lemma OverlongFails(shape: seq<nat>, key: Key)
    requires Consumed(key) > |shape|
    ensures KeyShape(shape, SpelledOut(shape, key)).None? && KeyShape(shape, key).None?
  {
    SpelledConsumesAll(key, 0);
    if KeyShape(shape, key).Some? { GoodKeyFits(shape, key); }
    if KeyShape(shape, SpelledOut(shape, key)).Some? { GoodKeyFits(shape, SpelledOut(shape, key)); }
  }

  /** The recording runs when only full slices are left, however many, or when the spelled-out key can be
      applied: so it may for a key that indexing refuses, with too many axes or with two ellipses. */
  lemma LoweringRuns(shape: seq<nat>, key: Key, ops: seq<Op>, residual: Key)
    requires Continues(ops, residual, shape, SpelledOut(shape, key))
    requires Ellipsis !in SpelledOut(shape, key) && Unreversed(SpelledOut(shape, key), residual)
    ensures (forall p | 0 <= p < |residual| :: residual[p] == FULL) <==> OnlyFullSlicesLeft(key)
    ensures RunShape(ops, shape).Some?
    ensures RunShape(ops + [Get(residual)], shape).Some? <==> KeyShape(shape, SpelledOut(shape, key)).Some?
  {
    var spelled := SpelledOut(shape, key);
    SpelledKeepsFull(key, if Consumed(key) <= |shape| then |shape| - Consumed(key) else 0);
    assert (ops + [Get(residual)])[..|ops|] == ops;
    if forall p | 0 <= p < |residual| :: residual[p] == FULL {
      forall p | 0 <= p < |spelled| ensures Reversed(spelled[p]) || spelled[p] == FULL {
        assert residual[p] == FULL;
      }
    }
  }

  /** The reversal of one axis with a second full slice is recorded and runs, though Python raises. The
      caller never gets here: it indexes the array first. */
  method OverlongKeyAccepted(n: nat) returns (r: Lowering)
    ensures r.Graph? && RunShape(r.ops, [n]).Some? && KeyShape([n], [Slice(None, None, Some(-1)), FULL]).None?
  {
    var key := [Slice(None, None, Some(-1)), FULL];
    assert key[1..] == [FULL] && [FULL][1..] == [] && Consumed(key) == 2;
    assert Reversed(key[0]) && SpelledOut([n], key) == key by {
      assert Spelled([FULL], 0) == [FULL] + Spelled([], 0);
    }
    assert KeyShape([n], key).None? by { if KeyShape([n], key).Some? { GoodKeyFits([n], key); } }
    assert key[..0] == [];
    r := LowerNegativeSlices([n], key);
  }

  /** With two ellipses indexing raises; on one axis the reversal between them is recorded and runs. */
  method TwoEllipsesAccepted(n: nat) returns (r: Lowering)
    ensures r.Graph? && RunShape(r.ops, [n]).Some?
    ensures KeyShape([n], [Ellipsis, Slice(None, None, Some(-1)), Ellipsis]).None?
  {
    var s := Slice(None, None, Some(-1));
    var key := [Ellipsis, s, Ellipsis];
    assert key[1..] == [s, Ellipsis] && [s, Ellipsis][1..] == [Ellipsis] && [Ellipsis][1..] == [];
    assert Consumed([Ellipsis]) == 0 && Consumed([s, Ellipsis]) == 1 && Consumed(key) == 1;
    assert Spelled([Ellipsis], 0) == Fulls(0) + Spelled([], 0) == [];
    assert Spelled([s, Ellipsis], 0) == [s] + [] == [s] && SpelledOut([n], key) == Fulls(0) + [s] == [s];
    assert Reversed(key[1]) && [s][..0] == [];
    assert KeyShape([n], key).None? by { if KeyShape([n], key).Some? { GoodKeyFits([n], key); } }
    r := LowerNegativeSlices([n], key);
  }
}
