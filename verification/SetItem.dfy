/** Indexed assignment as one functional `index_put` on flat positions
    (leapp/leapp_graph/datatypes/traced_data.py). */
module SetItem {
  import opened Lists
  import opened Ports
  import opened Tensors
  import opened BasicIndexing

  // ----- selections

  /** What any key, basic or advanced, selects: a shape, and for each of its elements in row-major
      order the multi-index it comes from. Advanced keys may select an element more than once. */
  datatype Selection = Selection(shape: seq<nat>, positions: seq<Index>)

  predicate Selecting(shape: seq<nat>, sel: Selection) {
    |sel.positions| == Numel(sel.shape) && forall k | 0 <= k < |sel.positions| :: InShape(shape, sel.positions[k])
  }

  function Select<T>(t: Raw<T>, sel: Selection): (r: Raw<T>)
    requires Valid(t) && Selecting(t.shape, sel)
    ensures Valid(r) && r.shape == sel.shape
  {
    Tensor(sel.shape, seq(|sel.positions|, k requires 0 <= k < |sel.positions| => At(t, sel.positions[k])))
  }

  /** The selection of a basic key. */
  function KeySelection(shape: seq<nat>, key: Key): (sel: Selection)
    requires KeyShape(shape, key).Some?
    ensures Selecting(shape, sel)
  {
    var target := KeyShape(shape, key).value;
    Selection(target, seq(Numel(target), k requires 0 <= k < Numel(target) =>
      Selects(shape, key, Unravel(target, k))))
  }

  lemma KeySelectionSelects<T>(t: Raw<T>, key: Key)
    requires Valid(t) && KeyShape(t.shape, key).Some?
    ensures GetItem(t, key) == Some(Select(t, KeySelection(t.shape, key)))
  {
    assert GetItem(t, key).value.data == Select(t, KeySelection(t.shape, key)).data;
  }

  lemma KeySelectsOnce(shape: seq<nat>, key: Key)
    requires KeyShape(shape, key).Some?
    ensures Distinct(KeySelection(shape, key).positions)
  {
    var target, positions := KeyShape(shape, key).value, KeySelection(shape, key).positions;
    forall j, k | 0 <= j < k < |positions| ensures positions[j] != positions[k] {
      if positions[j] == positions[k] {
        SelectsOnce(shape, key, Unravel(target, j), Unravel(target, k));
        RavelUnravel(target, j);
        RavelUnravel(target, k);
      }
    }
  }

  // ----- the flat positions

  /** `arange(numel).reshape(shape)`. */
  function FlatPositions(shape: seq<nat>): (r: Raw<nat>)
    ensures Valid(r) && r.shape == shape
  {
    Tensor(shape, seq(Numel(shape), k requires 0 <= k < Numel(shape) => k))
  }

  /** Indexing the flat positions by a key yields the flat position of every selected element. */
  lemma SelectedPositions(shape: seq<nat>, sel: Selection)
    requires Selecting(shape, sel)
    ensures forall k | 0 <= k < |sel.positions| ::
      Select(FlatPositions(shape), sel).data[k] == Ravel(shape, sel.positions[k])
  {
  }

  // ----- broadcasting

  predicate Broadcasts(shape: seq<nat>, target: seq<nat>) {
    |shape| <= |target| &&
    forall a | 0 <= a < |shape| :: shape[a] == 1 || shape[a] == target[|target| - |shape| + a]
  }

  function Broadcasted(shape: seq<nat>, target: seq<nat>, out: Index): (source: Index)
    requires Broadcasts(shape, target) && InShape(target, out)
    ensures InShape(shape, source)
  {
    seq(|shape|, a requires 0 <= a < |shape| => if shape[a] == 1 then 0 else out[|target| - |shape| + a])
  }

  function BroadcastTo<T>(v: Raw<T>, target: seq<nat>): (r: Option<Raw<T>>)
    requires Valid(v)
    ensures r.Some? ==> Valid(r.value) && r.value.shape == target
  {
    if !Broadcasts(v.shape, target) then None
    else Some(Tensor(target, seq(Numel(target), k requires 0 <= k < Numel(target) =>
      At(v, Broadcasted(v.shape, target, Unravel(target, k))))))
  }

  /** The value an eager assignment writes: leading axes of size one beyond the target's rank are
      dropped, then the value is broadcast. */
  function Assignable<T>(v: Raw<T>, target: seq<nat>): (r: Option<Raw<T>>)
    requires Valid(v)
    ensures r.Some? ==> Valid(r.value) && r.value.shape == target
    decreases |v.shape|
  {
    if |v.shape| > |target| && v.shape[0] == 1 then Assignable(Tensor(v.shape[1..], v.data), target)
    else BroadcastTo(v, target)
  }

  // ----- assignment and index_put, as relations since a position may be written more than once

  predicate WrittenAt<T(==)>(sel: Selection, written: seq<T>, index: Index, value: T)
    requires |written| == |sel.positions|
  {
    exists k | 0 <= k < |sel.positions| :: sel.positions[k] == index && written[k] == value
  }

  /** `after` is a result of assigning `v` to the selected elements of `before`. */
  ghost predicate Assigned<T>(before: Raw<T>, sel: Selection, v: Raw<T>, after: Raw<T>)
    requires Valid(before) && Valid(v) && Selecting(before.shape, sel)
  {
    Assignable(v, sel.shape).Some? && Valid(after) && after.shape == before.shape &&
    forall index | InShape(before.shape, index) ::
      if index in sel.positions
      then WrittenAt(sel, Assignable(v, sel.shape).value.data, index, At(after, index))
      else At(after, index) == At(before, index)
  }

  predicate PutAt<T(==)>(indices: seq<nat>, values: seq<T>, p: nat, value: T)
    requires |values| == 1 || |values| == |indices|
  {
    exists k | 0 <= k < |indices| :: indices[k] == p && values[if |values| == 1 then 0 else k] == value
  }

  /** `after` is a result of `index_put(before, (indices,), values)` on one axis, which broadcasts
      a single value and refuses any other number than that of the indices. */
  ghost predicate IndexPut<T>(before: seq<T>, indices: seq<nat>, values: seq<T>, after: seq<T>) {
    (|values| == 1 || |values| == |indices|) && |after| == |before| &&
    forall p: nat | p < |before| ::
      if p in indices then PutAt(indices, values, p, after[p]) else after[p] == before[p]
  }

  // ----- the recorded operations

  /** A value fixed while tracing, a traced torch tensor, or a traced NumPy array, which has no
      `numel` and so counts as one element. */
  datatype Source = Constant | TorchTraced | NumpyTraced

  /** What tracing fixes: the shapes of the tensor, of the value and of the selection as they were then.
      At replay the value and a selection that depends on the graph may have others. */
  datatype Recording = Recording(source: Source, shape: seq<nat>, value: seq<nat>, target: seq<nat>)

  /** The broadcast that is recorded, for a value of several elements and another shape. */
  function Broadcast(rec: Recording): Option<seq<nat>> {
    var numel := if rec.source.NumpyTraced? then 1 else Numel(rec.value);
    if numel != 1 && rec.value != rec.target then Some(rec.target) else None
  }

  /** The value as it is put. */
  function Prepared<T>(rec: Recording, v: Raw<T>): (r: Option<Raw<T>>)
    requires Valid(v)
    ensures r.Some? ==> Valid(r.value)
  {
    match Broadcast(rec)
    case None => Some(v)
    case Some(target) => BroadcastTo(v, target)
  }

  /** `after` is a result of replaying the recorded reshapes and `index_put` at those flat positions. */
  ghost predicate Recorded<T>(rec: Recording, before: Raw<T>, indices: seq<nat>, v: Raw<T>, after: Raw<T>)
    requires Valid(before) && Valid(v)
  {
    |before.data| == Numel(rec.shape) && Prepared(rec, v).Some? && Valid(after) && after.shape == rec.shape &&
    IndexPut(before.data, indices, Prepared(rec, v).value.data, after.data)
  }

  /** The value as it is put has one element or one for each of the `n` selected. */
  predicate ValueFits(rec: Recording, shape: seq<nat>, n: nat) {
    match Broadcast(rec)
    case None => Numel(shape) == 1 || Numel(shape) == n
    case Some(target) => Broadcasts(shape, target) && (Numel(target) == 1 || Numel(target) == n)
  }

  // ----- equal values

  /** The values put one per index, a single one repeated. */
  predicate SpreadOver<T(==)>(values: seq<T>, data: seq<T>) {
    (|values| == 1 || |values| == |data|) &&
    forall k | 0 <= k < |data| :: values[if |values| == 1 then 0 else k] == data[k]
  }

  lemma FlatPosition(shape: seq<nat>, sel: Selection, index: Index)
    requires Selecting(shape, sel) && InShape(shape, index)
    ensures index in sel.positions <==> Ravel(shape, index) in Select(FlatPositions(shape), sel).data
  {
    var flat := Select(FlatPositions(shape), sel).data;
    SelectedPositions(shape, sel);
    if Ravel(shape, index) in flat {
      var k :| 0 <= k < |flat| && flat[k] == Ravel(shape, index);
      RavelInjective(shape, index, sel.positions[k]);
    }
    if index in sel.positions {
      var k :| 0 <= k < |sel.positions| && sel.positions[k] == index;
      assert flat[k] == Ravel(shape, index);
    }
  }

  lemma PutIsWritten<T>(shape: seq<nat>, sel: Selection, values: seq<T>, data: seq<T>, index: Index, value: T)
    requires Selecting(shape, sel) && InShape(shape, index) && |data| == |sel.positions| && SpreadOver(values, data)
    ensures PutAt(Select(FlatPositions(shape), sel).data, values, Ravel(shape, index), value) <==>
            WrittenAt(sel, data, index, value)
  {
    var flat := Select(FlatPositions(shape), sel).data;
    SelectedPositions(shape, sel);
    if PutAt(flat, values, Ravel(shape, index), value) {
      var k :| 0 <= k < |flat| && flat[k] == Ravel(shape, index) &&
        values[if |values| == 1 then 0 else k] == value;
      RavelInjective(shape, index, sel.positions[k]);
      assert sel.positions[k] == index && data[k] == value;
    }
    if WrittenAt(sel, data, index, value) {
      var k :| 0 <= k < |sel.positions| && sel.positions[k] == index && data[k] == value;
      assert flat[k] == Ravel(shape, index) && values[if |values| == 1 then 0 else k] == value;
    }
  }

  lemma PutIsAssigned<T>(before: Raw<T>, sel: Selection, values: seq<T>, v: Raw<T>, after: Raw<T>)
    requires Valid(before) && Valid(v) && Selecting(before.shape, sel) && Assignable(v, sel.shape).Some?
    requires SpreadOver(values, Assignable(v, sel.shape).value.data)
    requires Valid(after) && after.shape == before.shape
    ensures IndexPut(before.data, Select(FlatPositions(before.shape), sel).data, values, after.data) <==>
            Assigned(before, sel, v, after)
  {
    var shape, flat := before.shape, Select(FlatPositions(before.shape), sel).data;
    var data := Assignable(v, sel.shape).value.data;
    if IndexPut(before.data, flat, values, after.data) {
      forall index | InShape(shape, index)
        ensures if index in sel.positions then WrittenAt(sel, data, index, At(after, index))
                else At(after, index) == At(before, index)
      {
        FlatPosition(shape, sel, index);
        PutIsWritten(shape, sel, values, data, index, At(after, index));
        assert Ravel(shape, index) < |before.data|;
      }
    }
    if Assigned(before, sel, v, after) {
      forall p: nat | p < |before.data|
        ensures if p in flat then PutAt(flat, values, p, after.data[p]) else after.data[p] == before.data[p]
      {
        RavelUnravel(shape, p);
        var index := Unravel(shape, p);
        FlatPosition(shape, sel, index);
        PutIsWritten(shape, sel, values, data, index, At(after, index));
      }
    }
  }

  // ----- what broadcasting does to flat values

  lemma OneValueEverywhere<T>(v: Raw<T>, target: seq<nat>)
    requires Valid(v) && Numel(v.shape) == 1 && Assignable(v, target).Some?
    ensures forall k | 0 <= k < Numel(target) :: Assignable(v, target).value.data[k] == v.data[0]
    decreases |v.shape|
  {
    if |v.shape| > |target| && v.shape[0] == 1 {
      OneValueEverywhere(Tensor(v.shape[1..], v.data), target);
    } else {
      assert Assignable(v, target) == BroadcastTo(v, target);
      forall k | 0 <= k < Numel(target) ensures BroadcastTo(v, target).value.data[k] == v.data[0] {
        assert Ravel(v.shape, Broadcasted(v.shape, target, Unravel(target, k))) < 1;
      }
    }
  }

  lemma {:induction false} BroadcastNumel(shape: seq<nat>, target: seq<nat>)
    requires Broadcasts(shape, target) && Numel(target) > 0
    ensures 0 < Numel(shape) <= Numel(target)
  {
    if target != [] {
      var rest := Numel(target[1..]);
      assert target[0] > 0 && rest > 0 by { assert target[0] * rest > 0; }
      assert rest <= target[0] * rest;
      if |shape| < |target| {
        BroadcastNumel(shape, target[1..]);
      } else {
        BroadcastNumel(shape[1..], target[1..]);
        RowsGrow(shape[0], target[0], Numel(shape[1..]), rest);
      }
    }
  }

  lemma RowsGrow(a: nat, b: nat, c: nat, d: nat)
    requires 0 < a <= b && 0 < c <= d
    ensures 0 < a * c <= b * d
  {
    assert a * c <= a * d <= b * d;
  }

  /** A broadcast that adds no element only adds leading axes of size one. */
  lemma {:induction false} FullBroadcast(shape: seq<nat>, target: seq<nat>, out: Index)
    requires Broadcasts(shape, target) && Numel(shape) == Numel(target) && InShape(target, out)
    ensures Ravel(shape, Broadcasted(shape, target, out)) == Ravel(target, out)
  {
    if target != [] {
      var first, rest := target[0], Numel(target[1..]);
      assert Ravel(target, out) < Numel(target);
      assert target[0] > 0 && rest > 0 by { assert target[0] * rest > 0; }
      if |shape| < |target| {
        BroadcastNumel(shape, target[1..]);
        AtMostOne(first, rest);
        assert out[0] < target[0] == 1;
        FullBroadcast(shape, target[1..], out[1..]);
        assert Broadcasted(shape, target, out) == Broadcasted(shape, target[1..], out[1..]);
      } else {
        BroadcastNumel(shape[1..], target[1..]);
        if shape[0] == 1 { AtMostOne(first, rest); }
        assert shape[0] == target[0];
        SameFactor(shape[0], Numel(shape[1..]), rest);
        FullBroadcast(shape[1..], target[1..], out[1..]);
        assert Broadcasted(shape, target, out)[1..] == Broadcasted(shape[1..], target[1..], out[1..]);
      }
    }
  }

  lemma AtMostOne(a: nat, b: nat)
    requires 0 < a * b <= b
    ensures a == 1
  {
    assert a >= 2 ==> (a - 1) * b >= b;
  }

  lemma SameFactor(a: nat, b: nat, c: nat)
    requires a > 0 && a * b == a * c
    ensures b == c
  {
    assert b < c ==> a * b < a * c;
    assert b > c ==> a * b > a * c;
  }

  lemma {:induction false} FullAssignable<T>(v: Raw<T>, target: seq<nat>)
    requires Valid(v) && Assignable(v, target).Some? && Numel(v.shape) == Numel(target)
    ensures Assignable(v, target).value.data == v.data
    decreases |v.shape|
  {
    if |v.shape| > |target| && v.shape[0] == 1 {
      FullAssignable(Tensor(v.shape[1..], v.data), target);
    } else {
      var b := BroadcastTo(v, target).value;
      forall k | 0 <= k < |b.data| ensures b.data[k] == v.data[k] {
        FullBroadcast(v.shape, target, Unravel(target, k));
        RavelUnravel(target, k);
      }
    }
  }

  // ----- the theorem

  /** The value as it is put lists what direct assignment writes, in the same order. */
  predicate SameSpread<T(==)>(rec: Recording, v: Raw<T>, target: seq<nat>)
    requires Valid(v)
  {
    Prepared(rec, v).Some? && Assignable(v, target).Some? &&
    SpreadOver(Prepared(rec, v).value.data, Assignable(v, target).value.data)
  }

  /** It does when no broadcast is recorded, when the shape selected is that seen while tracing, and when
      there is only one element to put. */
  lemma UnchangedSpreads<T>(rec: Recording, v: Raw<T>, target: seq<nat>)
    requires Valid(v) && Assignable(v, target).Some? && ValueFits(rec, v.shape, Numel(target))
    requires Broadcast(rec).None? || rec.target == target || Numel(rec.target) == 1
    ensures SameSpread(rec, v, target)
  {
    if Broadcast(rec).None? {
      if Numel(v.shape) == 1 { OneValueEverywhere(v, target); } else { FullAssignable(v, target); }
    } else if rec.target == target {
      assert Assignable(v, target) == BroadcastTo(v, target);
    } else {
      OneElement(v, rec.target);
      OneValueEverywhere(v, target);
    }
  }

  lemma OneElement<T>(v: Raw<T>, target: seq<nat>)
    requires Valid(v) && Broadcasts(v.shape, target) && Numel(target) == 1
    ensures Numel(v.shape) == 1 && BroadcastTo(v, target).value.data == v.data
  {
    BroadcastNumel(v.shape, target);
    BroadcastFrom(v, target, 0);
    OnlyOne(BroadcastTo(v, target).value.data, v.data);
  }

  lemma OnlyOne<T>(a: seq<T>, b: seq<T>)
    requires |a| == |b| == 1 && a[0] == b[0]
    ensures a == b
  {
  }

  /** Broadcasting to the shape seen while tracing takes the elements in the order in which assigning to
      the selected shape does. */
  predicate InOrder(shape: seq<nat>, traced: seq<nat>, target: seq<nat>) {
    var flat := FlatPositions(shape);
    BroadcastTo(flat, traced).Some? && Assignable(flat, target).Some? &&
    BroadcastTo(flat, traced).value.data == Assignable(flat, target).value.data
  }

  lemma BroadcastFrom<T>(v: Raw<T>, target: seq<nat>, k: nat)
    requires Valid(v) && Broadcasts(v.shape, target) && k < Numel(target)
    ensures
      var from := BroadcastTo(FlatPositions(v.shape), target).value.data[k];
      from < |v.data| && BroadcastTo(v, target).value.data[k] == v.data[from]
  {
  }

  lemma {:induction false} AssignableFrom<T>(v: Raw<T>, flat: Raw<nat>, target: seq<nat>, k: nat)
    requires Valid(v) && Valid(flat) && flat.shape == v.shape && Assignable(v, target).Some? && k < Numel(target)
    requires forall i | 0 <= i < |flat.data| :: flat.data[i] == i
    ensures Assignable(flat, target).Some?
    ensures
      var from := Assignable(flat, target).value.data[k];
      from < |v.data| && Assignable(v, target).value.data[k] == v.data[from]
    decreases |v.shape|
  {
    if |v.shape| > |target| && v.shape[0] == 1 {
      AssignableFrom(Tensor(v.shape[1..], v.data), Tensor(flat.shape[1..], flat.data), target, k);
    } else {
      assert Assignable(v, target) == BroadcastTo(v, target) && Assignable(flat, target) == BroadcastTo(flat, target);
    }
  }

  lemma {:induction false} AssignableAnyway<T>(v: Raw<T>, flat: Raw<nat>, target: seq<nat>)
    requires Valid(v) && Valid(flat) && flat.shape == v.shape
    ensures Assignable(v, target).Some? <==> Assignable(flat, target).Some?
    decreases |v.shape|
  {
    if |v.shape| > |target| && v.shape[0] == 1 {
      AssignableAnyway(Tensor(v.shape[1..], v.data), Tensor(flat.shape[1..], flat.data), target);
    }
  }

  /** With as many elements selected as were while tracing, but in another shape, the recording puts what
      is assigned if the two shapes take the value's elements in the same order, and, for a value of
      different elements, only then. */
  lemma SameSpreadIffInOrder<T>(rec: Recording, v: Raw<T>, target: seq<nat>)
    requires Valid(v) && Assignable(v, target).Some? && ValueFits(rec, v.shape, Numel(target))
    requires Broadcast(rec).Some? && Numel(rec.target) == Numel(target) != 1
    ensures InOrder(v.shape, rec.target, target) ==> SameSpread(rec, v, target)
    ensures Distinct(v.data) && SameSpread(rec, v, target) ==> InOrder(v.shape, rec.target, target)
  {
    var flat := FlatPositions(v.shape);
    AssignableAnyway(v, flat, target);
    var x, y := BroadcastTo(flat, rec.target).value.data, Assignable(flat, target).value.data;
    forall k | 0 <= k < Numel(target)
      ensures x[k] < |v.data| && Prepared(rec, v).value.data[k] == v.data[x[k]]
      ensures y[k] < |v.data| && Assignable(v, target).value.data[k] == v.data[y[k]]
    {
      BroadcastFrom(v, rec.target, k);
      AssignableFrom(v, flat, target, k);
    }
  }

  lemma NoSpread<T>(before: Raw<T>, sel: Selection, values: seq<T>, v: Raw<T>, after: Raw<T>)
    requires Valid(before) && Valid(v) && Selecting(before.shape, sel) && Distinct(sel.positions)
    requires Assigned(before, sel, v, after) && (|values| == 1 || |values| == |sel.positions|)
    requires IndexPut(before.data, Select(FlatPositions(before.shape), sel).data, values, after.data)
    ensures SpreadOver(values, Assignable(v, sel.shape).value.data)
  {
    var data, flat := Assignable(v, sel.shape).value.data, Select(FlatPositions(before.shape), sel).data;
    forall k | 0 <= k < |data| ensures values[if |values| == 1 then 0 else k] == data[k] {
      var p := Ravel(before.shape, sel.positions[k]);
      assert flat[k] == p && p in flat;
      OwnValue(sel, data, k, At(after, sel.positions[k]));
      var j :| 0 <= j < |flat| && flat[j] == p && values[if |values| == 1 then 0 else j] == after.data[p];
      RavelInjective(before.shape, sel.positions[j], sel.positions[k]);
      assert j == k;
    }
  }

  /** Replaying the recorded assignment of a value that direct assignment accepts. It has no result unless
      the value fits; when it also lists what is assigned, its results are exactly those of direct
      assignment, for any selection, with repeated positions too; and when it does not, no result is one
      of direct assignment, as long as no position is selected twice. */
  lemma RecordedIsAssignment<T>(rec: Recording, before: Raw<T>, sel: Selection, v: Raw<T>, after: Raw<T>)
    requires Valid(before) && Valid(v) && Selecting(before.shape, sel) && Assignable(v, sel.shape).Some?
    requires rec.shape == before.shape
    ensures
      var indices := Select(FlatPositions(before.shape), sel).data;
      (!ValueFits(rec, v.shape, Numel(sel.shape)) ==> !Recorded(rec, before, indices, v, after)) &&
      (ValueFits(rec, v.shape, Numel(sel.shape)) && SameSpread(rec, v, sel.shape) ==>
         (Recorded(rec, before, indices, v, after) <==> Assigned(before, sel, v, after))) &&
      (!SameSpread(rec, v, sel.shape) && Distinct(sel.positions) ==>
         !(Recorded(rec, before, indices, v, after) && Assigned(before, sel, v, after)))
  {
    var indices := Select(FlatPositions(before.shape), sel).data;
    if Valid(after) && after.shape == before.shape && Prepared(rec, v).Some? {
      var values := Prepared(rec, v).value.data;
      if SameSpread(rec, v, sel.shape) {
        PutIsAssigned(before, sel, values, v, after);
      } else if Distinct(sel.positions) && IndexPut(before.data, indices, values, after.data) && Assigned(before, sel, v, after) {
        NoSpread(before, sel, values, v, after);
      }
    }
  }

  /** As long as the value and the selection have the shapes they had while tracing, the recording is
      direct assignment exactly when the value can be put, and has no result otherwise. */
  lemma UnchangedIsAssignment<T>(source: Source, before: Raw<T>, sel: Selection, v: Raw<T>, after: Raw<T>)
    requires Valid(before) && Valid(v) && Selecting(before.shape, sel) && Assignable(v, sel.shape).Some?
    ensures
      Recorded(Recording(source, before.shape, v.shape, sel.shape), before,
               Select(FlatPositions(before.shape), sel).data, v, after) <==>
      Puttable(source, v.shape, sel.shape) && Assigned(before, sel, v, after)
  {
    var rec := Recording(source, before.shape, v.shape, sel.shape);
    RecordedIsAssignment(rec, before, sel, v, after);
    assert ValueFits(rec, v.shape, Numel(sel.shape)) <==> Puttable(source, v.shape, sel.shape) by {
      AssignableRank(v, sel.shape);
    }
    if ValueFits(rec, v.shape, Numel(sel.shape)) { UnchangedSpreads(rec, v, sel.shape); }
  }

  /** When a value that keeps its shapes can be put: a value of higher rank than the target is refused by
      the broadcast, and a traced NumPy value is never broadcast. */
  predicate Puttable(source: Source, shape: seq<nat>, target: seq<nat>) {
    Numel(shape) == 1 ||
    (if source.NumpyTraced? then Numel(shape) == Numel(target) else |shape| <= |target|)
  }

  lemma AssignableRank<T>(v: Raw<T>, target: seq<nat>)
    requires Valid(v) && Assignable(v, target).Some?
    ensures |v.shape| <= |target| <==> Broadcasts(v.shape, target)
  {
  }

  /** A tensor that has another shape than while tracing: no result is one of direct assignment. */
  lemma OtherTensorShape<T>(rec: Recording, before: Raw<T>, indices: seq<nat>, sel: Selection, v: Raw<T>, after: Raw<T>)
    requires Valid(before) && Valid(v) && Selecting(before.shape, sel) && before.shape != rec.shape
    ensures !(Recorded(rec, before, indices, v, after) && Assigned(before, sel, v, after))
  {
  }

  lemma OwnValue<T>(sel: Selection, data: seq<T>, k: nat, value: T)
    requires |data| == |sel.positions| && k < |data| && Distinct(sel.positions)
    requires WrittenAt(sel, data, sel.positions[k], value)
    ensures value == data[k]
  {
    var j :| 0 <= j < |data| && sel.positions[j] == sel.positions[k] && data[j] == value;
    assert j == k;
  }

  /** When no position is selected twice, assignment has one result: each selected element gets its
      own value and every other element stays. */
  lemma DistinctAssignment<T>(before: Raw<T>, sel: Selection, v: Raw<T>, after: Raw<T>)
    requires Valid(before) && Valid(v) && Selecting(before.shape, sel) && Assigned(before, sel, v, after)
    requires Distinct(sel.positions)
    ensures Select(after, sel) == Assignable(v, sel.shape).value
    ensures forall index | InShape(before.shape, index) && index !in sel.positions :: At(after, index) == At(before, index)
  {
    var b := Assignable(v, sel.shape).value;
    forall k | 0 <= k < |sel.positions| ensures At(after, sel.positions[k]) == b.data[k] {
      OwnValue(sel, b.data, k, At(after, sel.positions[k]));
    }
    assert Select(after, sel).data == b.data;
  }

  /** Assigning to a selected element is possible: direct assignment always has a result. */
  lemma AssignmentExists<T>(before: Raw<T>, sel: Selection, v: Raw<T>) returns (after: Raw<T>)
    requires Valid(before) && Valid(v) && Selecting(before.shape, sel) && Assignable(v, sel.shape).Some?
    ensures Assigned(before, sel, v, after)
  {
    var data := Assignable(v, sel.shape).value.data;
    after := before;
    for n := 0 to |sel.positions|
      invariant Valid(after) && after.shape == before.shape
      invariant forall index | InShape(before.shape, index) ::
        if index in sel.positions[..n]
        then exists k | 0 <= k < n :: sel.positions[k] == index && data[k] == At(after, index)
        else At(after, index) == At(before, index)
    {
      var p := Ravel(before.shape, sel.positions[n]);
      var next := Tensor(after.shape, after.data[p := data[n]]);
      forall index | InShape(before.shape, index)
        ensures At(next, index) == if index == sel.positions[n] then data[n] else At(after, index)
      {
        if index != sel.positions[n] && Ravel(before.shape, index) == p {
          RavelInjective(before.shape, index, sel.positions[n]);
        }
      }
      assert sel.positions[..n + 1] == sel.positions[..n] + [sel.positions[n]];
      after := next;
    }
    assert sel.positions[..|sel.positions|] == sel.positions;
    forall index | InShape(before.shape, index) && index in sel.positions
      ensures WrittenAt(sel, data, index, At(after, index))
    {
    }
  }

  /** The eager assignment of a [1, 2] value to two elements is accepted; its recording is refused. */
  lemma LeadingAxisRefused(shape: seq<nat>, v: Raw<int>)
    requires v.shape == [1, 2] && Valid(v)
    ensures Assignable(v, [2]).Some? && Prepared(Recording(TorchTraced, shape, [1, 2], [2]), v).None?
  {
    assert v.shape[1..] == [2] && [2][1..] == [] && Numel([2]) == 2 && Numel([1, 2]) == 2;
    assert Broadcasts([2], [2]);
  }

  /** A traced NumPy row assigned to three rows: accepted eagerly, and refused by every replay. */
  lemma NumpyRowRefused(before: Raw<int>, sel: Selection, v: Raw<int>, after: Raw<int>)
    requires Valid(before) && Valid(v) && v.shape == [2] && sel.shape == [3, 2] && Selecting(before.shape, sel)
    ensures Assignable(v, [3, 2]).Some?
    ensures !Recorded(Recording(NumpyTraced, before.shape, [2], [3, 2]), before,
                      Select(FlatPositions(before.shape), sel).data, v, after)
  {
    assert [3, 2][1..] == [2] && [2][1..] == [] && Numel([2]) == 2 && Numel([3, 2]) == 6;
    assert Broadcasts([2], [3, 2]);
    UnchangedIsAssignment(NumpyTraced, before, sel, v, after);
  }

  /** A row of five assigned to the rows a mask or a slice selects, two while tracing and three at replay:
      the recorded broadcast has ten values for fifteen positions, and every replay is refused. */
  lemma OtherRowCount(before: Raw<int>, sel: Selection, v: Raw<int>, after: Raw<int>)
    requires Valid(before) && Valid(v) && v.shape == [5] && sel.shape == [3, 5] && Selecting(before.shape, sel)
    ensures Assignable(v, [3, 5]).Some?
    ensures !Recorded(Recording(TorchTraced, before.shape, [5], [2, 5]), before,
                      Select(FlatPositions(before.shape), sel).data, v, after)
  {
    assert [3, 5][1..] == [5] && [2, 5][1..] == [5] && [5][1..] == [];
    assert Numel([5]) == 5 && Numel([2, 5]) == 10 && Numel([3, 5]) == 15 && Broadcasts([5], [3, 5]);
    RecordedIsAssignment(Recording(TorchTraced, before.shape, [5], [2, 5]), before, sel, v, after);
  }

  /** Two different values put along the middle axis, in a [2, 2, 1] selection while tracing and a [1, 2, 2]
      one at replay: the recording takes them in turn, direct assignment one after the other. */
  lemma OtherOrder(a: int, b: int)
    requires a != b
    ensures
      var rec, v := Recording(TorchTraced, [2, 2, 2], [1, 2, 1], [2, 2, 1]), Tensor([1, 2, 1], [a, b]);
      Valid(v) && ValueFits(rec, v.shape, Numel([1, 2, 2])) && Assignable(v, [1, 2, 2]).Some? && !SameSpread(rec, v, [1, 2, 2])
  {
    SmallNumels();
    var v := Tensor([1, 2, 1], [a, b]);
    assert Broadcasts([1, 2, 1], [2, 2, 1]) && Broadcasts([1, 2, 1], [1, 2, 2]);
    SecondElement([2, 2, 1], [0, 1, 0], v);
    SecondElement([1, 2, 2], [0, 0, 1], v);
    assert Broadcasted([1, 2, 1], [2, 2, 1], [0, 1, 0]) == [0, 1, 0];
    assert Broadcasted([1, 2, 1], [1, 2, 2], [0, 0, 1]) == [0, 0, 0];
    InColumn(1);
    InColumn(0);
  }

  lemma InColumn(k: nat)
    requires k < 2
    ensures InShape([1, 2, 1], [0, k, 0]) && Ravel([1, 2, 1], [0, k, 0]) == k
  {
    SmallNumels();
    assert [0, k, 0][1..] == [k, 0] && [k, 0][1..] == [0] && [1, 2, 1][1..] == [2, 1] && [2, 1][1..] == [1];
    assert Ravel([1], [0]) == 0 && Ravel([2, 1], [k, 0]) == k;
  }

  lemma SecondElement(target: seq<nat>, out: Index, v: Raw<int>)
    requires Valid(v) && Broadcasts(v.shape, target) && InShape(target, out) && Numel(target) > 1
    requires (target == [2, 2, 1] && out == [0, 1, 0]) || (target == [1, 2, 2] && out == [0, 0, 1])
    ensures BroadcastTo(v, target).value.data[1] == At(v, Broadcasted(v.shape, target, out))
  {
    SmallNumels();
    assert out[1..][1..][1..] == [] && target[1..][1..][1..] == [];
    assert Ravel(target[1..][1..], out[1..][1..]) == out[2];
    assert Ravel(target[1..], out[1..]) == out[1] * target[2] + out[2];
    assert Ravel(target, out) == 1;
    UnravelRavel(target, out);
  }

  lemma SmallNumels()
    ensures Numel([1]) == 1 && Numel([2]) == 2 && Numel([2, 1]) == 2 && Numel([2, 2]) == 4
    ensures Numel([1, 2, 1]) == 2 && Numel([2, 2, 1]) == 4 && Numel([1, 2, 2]) == 4
  {
    assert [1][1..] == [] && [2][1..] == [] && [2, 1][1..] == [1] && [2, 2][1..] == [2];
    assert [1, 2, 1][1..] == [2, 1] && [2, 2, 1][1..] == [2, 1] && [1, 2, 2][1..] == [2, 2];
  }
}
