/** Recorded tensor operations that select elements along one axis, and what it means for a run of
    them to compute a basic key. */
module AxisOps {
  import opened Ports
  import opened Tensors
  import opened BasicIndexing

  // ----- the recorded operations

  datatype Op =
    | Flip(axis: nat)
    | IndexSelect(axis: nat, indices: seq<nat>)
    | Narrow(axis: nat, start: int, length: int)
    | Get(key: Key)

  /** `narrow` counts a negative start from the end, and refuses a range that does not fit. */
  predicate NarrowFits(start: int, length: int, n: nat) {
    0 <= length && 0 <= start + n && start <= n && Wrapped(start, n) + length <= n
  }

  function Wrapped(start: int, n: nat): int {
    if start < 0 then start + n else start
  }

  /** The size an axis has after the operation; absent when the operation refuses it. */
  function AxisSize(op: Op, n: nat): Option<nat>
    requires !op.Get?
  {
    match op
    case Flip(_) => Some(n)
    case IndexSelect(_, indices) =>
      if forall j | 0 <= j < |indices| :: indices[j] < n then Some(|indices|) else None
    case Narrow(_, start, length) => if NarrowFits(start, length, n) then Some(length) else None
  }

  /** The position of the original axis that lands at `j`. */
  function AxisSource(op: Op, n: nat, j: nat): (k: nat)
    requires !op.Get? && AxisSize(op, n).Some? && j < AxisSize(op, n).value
    ensures k < n
  {
    match op
    case Flip(_) => n - 1 - j
    case IndexSelect(_, indices) => indices[j]
    case Narrow(_, start, _) => Wrapped(start, n) + j
  }

  function OpShape(op: Op, shape: seq<nat>): Option<seq<nat>> {
    match op
    case Get(key) => KeyShape(shape, key)
    case _ =>
      if op.axis < |shape| && AxisSize(op, shape[op.axis]).Some?
      then Some(shape[op.axis := AxisSize(op, shape[op.axis]).value]) else None
  }

  function OpSource(op: Op, shape: seq<nat>, out: Index): (source: Index)
    requires OpShape(op, shape).Some? && InShape(OpShape(op, shape).value, out)
    ensures InShape(shape, source)
  {
    match op
    case Get(key) => Selects(shape, key, out)
    case _ =>
      var n := shape[op.axis];
      assert forall k | 0 <= k < |shape| :: out[k] < shape[op.axis := AxisSize(op, n).value][k];
      out[op.axis := AxisSource(op, n, out[op.axis])]
  }

  function Apply<T>(op: Op, t: Raw<T>): Option<Raw<T>>
    requires Valid(t)
  {
    match OpShape(op, t.shape)
    case None => None
    case Some(shape) =>
      Some(Tensor(shape, seq(Numel(shape), k requires 0 <= k < Numel(shape) =>
        At(t, OpSource(op, t.shape, Unravel(shape, k))))))
  }

  /** The recorded operations, replayed on a tensor from left to right. */
  function Run<T>(ops: seq<Op>, t: Raw<T>): (r: Option<Raw<T>>)
    requires Valid(t)
    ensures r.Some? ==> Valid(r.value)
  {
    if ops == [] then Some(t)
    else
      match Run(ops[..|ops| - 1], t)
      case None => None
      case Some(mid) => Apply(ops[|ops| - 1], mid)
  }

  function RunShape(ops: seq<Op>, shape: seq<nat>): Option<seq<nat>> {
    if ops == [] then Some(shape)
    else
      match RunShape(ops[..|ops| - 1], shape)
      case None => None
      case Some(mid) => OpShape(ops[|ops| - 1], mid)
  }

  function RunSource(ops: seq<Op>, shape: seq<nat>, out: Index): (source: Index)
    requires RunShape(ops, shape).Some? && InShape(RunShape(ops, shape).value, out)
    ensures InShape(shape, source)
  {
    if ops == [] then out
    else
      var before := ops[..|ops| - 1];
      RunSource(before, shape, OpSource(ops[|ops| - 1], RunShape(before, shape).value, out))
  }

  lemma ApplyAt<T>(op: Op, t: Raw<T>, out: Index)
    requires Valid(t) && OpShape(op, t.shape).Some? && InShape(OpShape(op, t.shape).value, out)
    ensures At(Apply(op, t).value, out) == At(t, OpSource(op, t.shape, out))
  {
    UnravelRavel(OpShape(op, t.shape).value, out);
  }

  lemma {:induction false} RunAt<T>(ops: seq<Op>, t: Raw<T>)
    requires Valid(t)
    ensures Run(ops, t).Some? <==> RunShape(ops, t.shape).Some?
    ensures Run(ops, t).Some? ==> Run(ops, t).value.shape == RunShape(ops, t.shape).value
    ensures Run(ops, t).Some? ==>
      forall out | InShape(RunShape(ops, t.shape).value, out) ::
        At(Run(ops, t).value, out) == At(t, RunSource(ops, t.shape, out))
  {
    if ops != [] {
      var before, op := ops[..|ops| - 1], ops[|ops| - 1];
      RunAt(before, t);
      if Run(ops, t).Some? {
        var mid := Run(before, t).value;
        forall out | InShape(RunShape(ops, t.shape).value, out)
          ensures At(Run(ops, t).value, out) == At(t, RunSource(ops, t.shape, out))
        {
          ApplyAt(op, mid, out);
        }
      }
    }
  }

  // ----- what it means for recorded operations to compute a key

  /** Running `ops` and then indexing by `rest` selects what `key` selects, error for error. */
  ghost predicate Continues(ops: seq<Op>, rest: Key, shape: seq<nat>, key: Key) {
    RunShape(ops, shape).Some? &&
    var mid := RunShape(ops, shape).value;
    KeyShape(mid, rest) == KeyShape(shape, key) &&
    (KeyShape(shape, key).Some? ==>
       forall out | InShape(KeyShape(shape, key).value, out) ::
         RunSource(ops, shape, Selects(mid, rest, out)) == Selects(shape, key, out))
  }

  ghost predicate Computes(ops: seq<Op>, shape: seq<nat>, key: Key) {
    RunShape(ops, shape) == KeyShape(shape, key) &&
    (KeyShape(shape, key).Some? ==>
       forall out | InShape(KeyShape(shape, key).value, out) ::
         RunSource(ops, shape, out) == Selects(shape, key, out))
  }

  /** On every tensor of the shape, such operations give exactly the direct selection. */
  lemma LoweringPreservesValues<T>(ops: seq<Op>, t: Raw<T>, key: Key)
    requires Valid(t) && Computes(ops, t.shape, key)
    ensures Run(ops, t) == GetItem(t, key)
  {
    RunAt(ops, t);
    if Run(ops, t).Some? {
      var a, b := Run(ops, t).value, GetItem(t, key).value;
      forall out | InShape(a.shape, out) ensures At(a, out) == At(b, out) {
        GetItemAt(t, key, out);
      }
      SameTensor(a, b);
    }
  }

  ghost predicate SameSelection(shape: seq<nat>, a: Key, b: Key) {
    KeyShape(shape, a) == KeyShape(shape, b) &&
    (KeyShape(shape, a).Some? ==>
       forall out | InShape(KeyShape(shape, a).value, out) ::
         Selects(shape, a, out) == Selects(shape, b, out))
  }

  lemma ComputesTheSame(ops: seq<Op>, shape: seq<nat>, a: Key, b: Key)
    requires Computes(ops, shape, b) && SameSelection(shape, a, b)
    ensures Computes(ops, shape, a)
  {
  }

  predicate OneEllipsis(key: Key) {
    forall i, j | 0 <= i < j < |key| :: !(key[i].Ellipsis? && key[j].Ellipsis?)
  }

  /** A key that selects anything consumes no more axes than there are and has one ellipsis. */
  lemma {:induction false} GoodKeyFits(shape: seq<nat>, key: Key)
    requires KeyShape(shape, key).Some?
    ensures Consumed(key) <= |shape| && OneEllipsis(key)
    decreases |key| + |shape|
  {
    if key != [] {
      assert forall i | 0 <= i < |key| - 1 :: key[1..][i] == key[i + 1];
      match key[0]
      case NewAxis => GoodKeyFits(shape, key[1..]);
      case Ellipsis =>
        assert forall i | 0 < i < |key| :: key[1..][i - 1] == key[i];
      case _ => GoodKeyFits(shape[1..], key[1..]);
    }
  }

  // ----- full slices

  function Fulls(m: nat): (key: Key)
    ensures |key| == m && forall k | 0 <= k < m :: key[k] == FULL
  {
    if m == 0 then [] else [FULL] + Fulls(m - 1)
  }

  lemma FullSlice(n: nat)
    ensures SliceLength(FULL, n) == n && forall j | 0 <= j < n :: Position(FULL, n, j) == j
  {
    assert Step(FULL) == 1 && First(FULL, n) == 0 && Last(FULL, n) == n;
    assert RangeLength(0, n, 1) == n;
  }

  /** A key of full slices selects everything. */
  lemma {:induction false} FullKeySelectsAll(shape: seq<nat>, key: Key)
    requires |key| <= |shape| && forall p | 0 <= p < |key| :: key[p] == FULL
    ensures KeyShape(shape, key) == Some(shape)
    ensures forall out | InShape(shape, out) :: Selects(shape, key, out) == out
  {
    if key != [] {
      FullKeySelectsAll(shape[1..], key[1..]);
      FullSlice(shape[0]);
      assert [shape[0]] + shape[1..] == shape;
      forall out | InShape(shape, out) ensures Selects(shape, key, out) == out {
        assert [out[0]] + out[1..] == out;
      }
    }
  }

  lemma {:induction false} ConsumedJoin(a: Key, b: Key)
    ensures Consumed(a + b) == Consumed(a) + Consumed(b)
  {
    if a == [] {
      assert a + b == b;
    } else {
      ConsumedJoin(a[1..], b);
      assert (a + b)[1..] == a[1..] + b;
    }
  }

  lemma ConsumedAt(key: Key, p: nat)
    requires p < |key|
    ensures Consumed(key[..p + 1]) == Consumed(key[..p]) + (if key[p].Int? || key[p].Slice? then 1 else 0)
    ensures Consumed(key[..p + 1]) <= Consumed(key)
  {
    ConsumedJoin(key[..p], [key[p]]);
    assert key[..p + 1] == key[..p] + [key[p]] && [key[p]][1..] == [];
    ConsumedJoin(key[..p + 1], key[p + 1..]);
    assert key == key[..p + 1] + key[p + 1..];
  }

  lemma ConsumedFull(key: Key, p: nat)
    requires p < |key| && key[p].Slice?
    ensures Consumed(key[p := FULL]) == Consumed(key) && key[p := FULL][..p] == key[..p]
  {
    var full := key[p := FULL];
    ConsumedAt(key, p);
    ConsumedAt(full, p);
    assert full[..p] == key[..p] && full[p + 1..] == key[p + 1..];
    ConsumedJoin(key[..p + 1], key[p + 1..]);
    ConsumedJoin(full[..p + 1], full[p + 1..]);
    assert key == key[..p + 1] + key[p + 1..] && full == full[..p + 1] + full[p + 1..];
  }

  lemma {:induction false} FullsConsume(key: Key)
    requires forall p | 0 <= p < |key| :: key[p] == FULL
    ensures Consumed(key) == |key|
  {
    if key != [] { FullsConsume(key[1..]); }
  }

  lemma FullsOrLess(key: Key, rank: nat)
    requires Consumed(key) <= rank
    ensures (forall p | 0 <= p < |key| :: key[p] == FULL) ==> |key| <= rank
  {
    if forall p | 0 <= p < |key| :: key[p] == FULL { FullsConsume(key); }
  }

  lemma OneAxisChanges(ops: seq<Op>, op: Op, shape: seq<nat>)
    requires RunShape(ops, shape).Some? && !op.Get? && OpShape(op, RunShape(ops, shape).value).Some?
    ensures RunShape(ops + [op], shape).Some?
    ensures
      var before, after := RunShape(ops, shape).value, RunShape(ops + [op], shape).value;
      |after| == |before| && forall a | 0 <= a < |before| && a != op.axis :: after[a] == before[a]
  {
    assert (ops + [op])[..|ops|] == ops;
  }

  // ----- one operation for one slice

  /** Recording `op` and then indexing by `rest` selects what `key` selects. */
  ghost predicate Replaces(op: Op, rest: Key, shape: seq<nat>, key: Key) {
    OpShape(op, shape).Some? &&
    var mid := OpShape(op, shape).value;
    KeyShape(mid, rest) == KeyShape(shape, key) &&
    (KeyShape(shape, key).Some? ==>
       forall out | InShape(KeyShape(shape, key).value, out) ::
         OpSource(op, shape, Selects(mid, rest, out)) == Selects(shape, key, out))
  }

  /** Narrowing the first axis to the range a slice visits replaces the slice. */
  lemma NarrowReplaces(s: Item, start: int, length: nat, rest: Key, shape: seq<nat>)
    requires s.Slice? && Step(s) != 0 && shape != [] && NarrowFits(start, length, shape[0])
    requires SliceLength(s, shape[0]) == length
    requires forall j | 0 <= j < length :: Position(s, shape[0], j) == Wrapped(start, shape[0]) + j
    ensures Replaces(Narrow(0, start, length), [FULL] + rest, shape, [s] + rest)
  {
    var short, long := [s] + rest, [FULL] + rest;
    var mid := OpShape(Narrow(0, start, length), shape).value;
    assert short[1..] == rest && long[1..] == rest && mid[1..] == shape[1..];
    FullSlice(mid[0]);
  }

  function Shifted(op: Op): Op
    requires !op.Get?
  {
    op.(axis := op.axis + 1)
  }

  lemma ShiftedSource(op: Op, shape: seq<nat>, source: Index)
    requires !op.Get? && shape != [] && OpShape(op, shape[1..]).Some?
    ensures OpShape(Shifted(op), shape) == Prepend(shape[0], OpShape(op, shape[1..]))
    ensures InShape(OpShape(Shifted(op), shape).value, source) ==>
      InShape(OpShape(op, shape[1..]).value, source[1..]) &&
      OpSource(Shifted(op), shape, source) == [source[0]] + OpSource(op, shape[1..], source[1..])
  {
    var m := AxisSize(op, shape[1..][op.axis]).value;
    assert shape[op.axis + 1 := m] == [shape[0]] + shape[1..][op.axis := m];
    var outer := [shape[0]] + OpShape(op, shape[1..]).value;
    assert outer[1..] == OpShape(op, shape[1..]).value;
  }

  lemma ReplacesUnderItem(op: Op, item: Item, rest: Key, shape: seq<nat>, key: Key)
    requires !op.Get? && (item.Int? || item.Slice?) && shape != []
    requires Replaces(op, rest, shape[1..], key)
    ensures Replaces(Shifted(op), [item] + rest, shape, [item] + key)
  {
    var a, b := [item] + rest, [item] + key;
    ShiftedSource(op, shape, []);
    var inner, mid := OpShape(op, shape[1..]).value, OpShape(Shifted(op), shape).value;
    ItemShape(item, rest, mid);
    ItemShape(item, key, shape);
    assert mid == [shape[0]] + inner && mid[1..] == inner;
    if KeyShape(shape, b).Some? {
      forall out | InShape(KeyShape(shape, b).value, out)
        ensures OpSource(Shifted(op), shape, Selects(mid, a, out)) == Selects(shape, b, out)
      {
        ReplacesItemAt(op, item, rest, shape, key, mid, out);
      }
    }
  }

  lemma ItemShape(item: Item, key: Key, shape: seq<nat>)
    requires (item.Int? || item.Slice?) && shape != []
    ensures KeyShape(shape, [item] + key) ==
      (match item
       case Int(i) => if -shape[0] <= i < shape[0] then KeyShape(shape[1..], key) else None
       case _ => if Step(item) == 0 then None else Prepend(SliceLength(item, shape[0]), KeyShape(shape[1..], key)))
  {
    assert ([item] + key)[1..] == key;
  }

  lemma ReplacesItemAt(op: Op, item: Item, rest: Key, shape: seq<nat>, key: Key, mid: seq<nat>, out: Index)
    requires !op.Get? && (item.Int? || item.Slice?) && shape != []
    requires Replaces(op, rest, shape[1..], key)
    requires OpShape(Shifted(op), shape) == Some(mid) && mid == [shape[0]] + OpShape(op, shape[1..]).value
    requires KeyShape(mid, [item] + rest) == KeyShape(shape, [item] + key)
    requires KeyShape(mid, [item] + rest).Some? && InShape(KeyShape(mid, [item] + rest).value, out)
    ensures OpSource(Shifted(op), shape, Selects(mid, [item] + rest, out)) == Selects(shape, [item] + key, out)
  {
    var later := if item.Slice? then out[1..] else out;
    var head := ItemPosition(item, shape[0], out);
    var inner := mid[1..];
    SelectsItem(item, key, shape, out);
    SelectsItem(item, rest, mid, out);
    assert inner == OpShape(op, shape[1..]).value;
    var source := Selects(mid, [item] + rest, out);
    assert source == [head] + Selects(inner, rest, later);
    ShiftedSource(op, shape, source);
    assert source[1..] == Selects(inner, rest, later);
  }

  function ItemPosition(item: Item, n: nat, out: Index): int
    requires item.Int? || (item.Slice? && Step(item) != 0 && out != [])
  {
    if item.Int? then (if item.value < 0 then item.value + n else item.value)
    else First(item, n) + Step(item) * out[0]
  }

  lemma SelectsItem(item: Item, key: Key, shape: seq<nat>, out: Index)
    requires (item.Int? || item.Slice?) && shape != [] && KeyShape(shape, [item] + key).Some?
    requires InShape(KeyShape(shape, [item] + key).value, out)
    ensures KeyShape(shape[1..], key).Some? && (item.Slice? ==> Step(item) != 0 && out != [])
    ensures
      var later := if item.Slice? then out[1..] else out;
      InShape(KeyShape(shape[1..], key).value, later) && 0 <= ItemPosition(item, shape[0], out) &&
      Selects(shape, [item] + key, out) == [ItemPosition(item, shape[0], out)] + Selects(shape[1..], key, later)
  {
    if item.Slice? { SelectsSlice(item, key, shape, out); } else { SelectsInt(item, key, shape, out); }
  }

  lemma SelectsInt(item: Item, key: Key, shape: seq<nat>, out: Index)
    requires item.Int? && shape != [] && KeyShape(shape, [item] + key).Some?
    requires InShape(KeyShape(shape, [item] + key).value, out)
    ensures KeyShape(shape[1..], key) == KeyShape(shape, [item] + key) && 0 <= ItemPosition(item, shape[0], out)
    ensures Selects(shape, [item] + key, out) == [ItemPosition(item, shape[0], out)] + Selects(shape[1..], key, out)
  {
    assert ([item] + key)[1..] == key;
  }

  lemma SelectsSlice(item: Item, key: Key, shape: seq<nat>, out: Index)
    requires item.Slice? && shape != [] && KeyShape(shape, [item] + key).Some?
    requires InShape(KeyShape(shape, [item] + key).value, out)
    ensures Step(item) != 0 && out != [] && KeyShape(shape[1..], key).Some?
    ensures InShape(KeyShape(shape[1..], key).value, out[1..]) && 0 <= ItemPosition(item, shape[0], out)
    ensures Selects(shape, [item] + key, out) ==
      [ItemPosition(item, shape[0], out)] + Selects(shape[1..], key, out[1..])
  {
    assert ([item] + key)[1..] == key;
    InShapeTail(KeyShape(shape, [item] + key).value, out);
    assert ItemPosition(item, shape[0], out) == Position(item, shape[0], out[0]);
  }

  lemma ReplacesUnderNewAxis(op: Op, rest: Key, shape: seq<nat>, key: Key)
    requires Replaces(op, rest, shape, key)
    ensures Replaces(op, [NewAxis] + rest, shape, [NewAxis] + key)
  {
    assert ([NewAxis] + rest)[1..] == rest && ([NewAxis] + key)[1..] == key;
  }

  /** A selection along one axis that replaces the head of a key replaces it behind any new axes,
      integers and slices too. */
  lemma {:induction false} ReplacesBehind(op: Op, shape: seq<nat>, before: Key, rest: Key, key: Key)
    requires !op.Get? && op.axis == 0 && Ellipsis !in before && Consumed(before) <= |shape|
    requires Replaces(op, rest, shape[Consumed(before)..], key)
    ensures Replaces(op.(axis := Consumed(before)), before + rest, shape, before + key)
  {
    if before == [] {
      assert before + rest == rest && before + key == key && shape[0..] == shape;
    } else {
      var item, later := before[0], before[1..];
      var a := Consumed(later);
      assert before + rest == [item] + (later + rest) && before + key == [item] + (later + key);
      if item.NewAxis? {
        ReplacesBehind(op, shape, later, rest, key);
        ReplacesUnderNewAxis(op.(axis := a), later + rest, shape, later + key);
      } else {
        assert item in before && shape[1..][a..] == shape[a + 1..];
        ReplacesBehind(op, shape[1..], later, rest, key);
        ReplacesUnderItem(op.(axis := a), item, later + rest, shape, later + key);
      }
    }
  }

  /** Two items that take the same elements of an axis of size `n`. */
  predicate SameItem(a: Item, b: Item, n: nat) {
    a == b ||
    (a.Slice? && b.Slice? && Step(a) != 0 && Step(b) != 0 && SliceLength(a, n) == SliceLength(b, n) &&
     forall j | 0 <= j < SliceLength(a, n) :: Position(a, n, j) == Position(b, n, j))
  }

  lemma {:induction false} KeysAgree(shape: seq<nat>, a: Key, b: Key)
    requires |a| == |b| <= |shape| && (forall i | 0 <= i < |a| :: a[i].Int? || a[i].Slice?)
    requires forall i | 0 <= i < |a| :: SameItem(a[i], b[i], shape[i])
    ensures SameSelection(shape, a, b)
  {
    if a != [] {
      KeysAgree(shape[1..], a[1..], b[1..]);
      SameHeads(shape, a[0], b[0], a[1..], b[1..]);
      assert a == [a[0]] + a[1..] && b == [b[0]] + b[1..];
    }
  }

  lemma SameHeads(shape: seq<nat>, x: Item, y: Item, a: Key, b: Key)
    requires shape != [] && (x.Int? || x.Slice?) && SameItem(x, y, shape[0])
    requires SameSelection(shape[1..], a, b)
    ensures SameSelection(shape, [x] + a, [y] + b)
  {
    var c, d := [x] + a, [y] + b;
    assert c[1..] == a && d[1..] == b;
    if KeyShape(shape, c).Some? {
      forall out | InShape(KeyShape(shape, c).value, out) ensures Selects(shape, c, out) == Selects(shape, d, out) {
        SelectsItem(x, a, shape, out);
        SelectsItem(y, b, shape, out);
        if x.Slice? {
          assert out[0] < KeyShape(shape, c).value[0];
          assert Position(x, shape[0], out[0]) == Position(y, shape[0], out[0]);
        }
      }
    }
  }

  lemma RecordedOnTop(ops: seq<Op>, op: Op, rest: Key, after: Key, shape: seq<nat>, key: Key)
    requires Continues(ops, rest, shape, key)
    requires Replaces(op, after, RunShape(ops, shape).value, rest)
    ensures Continues(ops + [op], after, shape, key)
  {
    assert (ops + [op])[..|ops|] == ops;
  }

  /** Closing a recorded prefix by its residual key, or by nothing when only full slices are left. */
  lemma Closed(ops: seq<Op>, rest: Key, shape: seq<nat>, key: Key)
    requires Continues(ops, rest, shape, key)
    ensures Computes(ops + [Get(rest)], shape, key)
    ensures |rest| <= |RunShape(ops, shape).value| && (forall p | 0 <= p < |rest| :: rest[p] == FULL) ==>
      Computes(ops, shape, key)
  {
    assert (ops + [Get(rest)])[..|ops|] == ops;
    if |rest| <= |RunShape(ops, shape).value| && (forall p | 0 <= p < |rest| :: rest[p] == FULL) {
      FullKeySelectsAll(RunShape(ops, shape).value, rest);
    }
  }
}
