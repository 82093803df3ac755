/** Indexed assignment through a key with runtime slice bounds
    (leapp/leapp_graph/datatypes/traced_data.py): the flat positions themselves go through the
    recorded `narrow` operations, and what comes out is where the value is put. */
module RuntimeAssignment {
  import opened Ports
  import opened Tensors
  import opened BasicIndexing
  import opened AxisOps
  import opened RuntimeSlices
  import opened SetItem

  /** `after` is a result of replaying the recorded operations: positions selected by `ops`, the value
      prepared as tracing fixed it, and one `index_put`. */
  ghost predicate RecordedThrough<T>(ops: seq<Op>, rec: Recording, before: Raw<T>, v: Raw<T>, after: Raw<T>)
    requires Valid(before) && Valid(v)
  {
    var selected := Run(ops, FlatPositions(rec.shape));
    selected.Some? && Recorded(rec, before, selected.value.data, v, after)
  }

  /** A key with an empty slice selects no element. */
  lemma {:induction false} EmptySlice(shape: seq<nat>, key: Key, i: nat)
    requires |key| <= |shape| && KeyShape(shape, key).Some?
    requires forall k | 0 <= k < |key| :: key[k].Int? || key[k].Slice?
    requires i < |key| && key[i].Slice? && Step(key[i]) != 0 && SliceLength(key[i], shape[i]) == 0
    ensures Numel(KeyShape(shape, key).value) == 0
  {
    var rest := KeyShape(shape[1..], key[1..]);
    if key[0].Slice? {
      var size := SliceLength(key[0], shape[0]);
      assert KeyShape(shape, key).value == [size] + rest.value;
      assert ([size] + rest.value)[1..] == rest.value;
    }
    if i > 0 { EmptySlice(shape[1..], key[1..], i - 1); }
  }

  lemma TakenSelects(shape: seq<nat>, key: seq<RuntimeItem>)
    requires |key| <= |shape| && InPlace(key) && AllFit(key, shape) && KeyShape(shape, ConcreteKey(key)).Some?
    ensures KeyShape(shape, TakenKey(key, shape)).Some?
    ensures SomeEndsAtZero(key, shape) ==> Numel(KeyShape(shape, ConcreteKey(key)).value) == 0
  {
    forall i | 0 <= i < |key| && key[i].Narrowed? ensures Step(Taken(key[i], shape[i])) == 1 {
      TakenItem(key[i], shape[i]);
    }
    SelectsToo(shape, ConcreteKey(key), TakenKey(key, shape));
    if SomeEndsAtZero(key, shape) {
      var i :| 0 <= i < |key| && EndsAtZero(key[i], shape[i]);
      NarrowIsThePythonSlice(key[i], shape[i]);
      EmptySlice(shape, ConcreteKey(key), i);
    }
  }

  lemma SelectedThrough(ops: seq<Op>, shape: seq<nat>, key: Key)
    requires Computes(ops, shape, key) && KeyShape(shape, key).Some?
    ensures Run(ops, FlatPositions(shape)) == Some(Select(FlatPositions(shape), KeySelection(shape, key)))
  {
    LoweringPreservesValues(ops, FlatPositions(shape), key);
    KeySelectionSelects(FlatPositions(shape), key);
  }

  lemma SameKeySelection(shape: seq<nat>, a: Key, b: Key)
    requires SameSelection(shape, a, b) && KeyShape(shape, a).Some?
    ensures KeySelection(shape, a) == KeySelection(shape, b)
  {
    assert KeySelection(shape, a).positions == KeySelection(shape, b).positions;
  }

  /** Some slice ends at zero after a start counted from the end, and the ranges taken hold elements. */
  predicate Overwrites(shape: seq<nat>, key: seq<RuntimeItem>)
    requires |key| <= |shape|
  {
    AllFit(key, shape) && SomeEndsAtZero(key, shape) &&
    KeyShape(shape, TakenKey(key, shape)).Some? && Numel(KeyShape(shape, TakenKey(key, shape)).value) > 0
  }

  /** Outside that case the recorded operations select the positions that Python's key selects. */
  lemma PositionsThrough(ops: seq<Op>, shape: seq<nat>, key: seq<RuntimeItem>)
    requires |key| <= |shape| && InPlace(key) && Records(ops, shape, key)
    requires KeyShape(shape, ConcreteKey(key)).Some? && !Overwrites(shape, key)
    ensures
      var selected := Run(ops, FlatPositions(shape));
      (selected.Some? <==> AllFit(key, shape)) &&
      (AllFit(key, shape) ==>
         selected.value.data == Select(FlatPositions(shape), KeySelection(shape, ConcreteKey(key))).data)
  {
    if AllFit(key, shape) {
      TakenSelects(shape, key);
      TakenIsConcrete(shape, key);
      SelectedThrough(ops, shape, TakenKey(key, shape));
      if SomeEndsAtZero(key, shape) {
        assert Select(FlatPositions(shape), KeySelection(shape, ConcreteKey(key))).data == [];
      } else {
        SameKeySelection(shape, ConcreteKey(key), TakenKey(key, shape));
      }
    } else {
      RunAt(ops, FlatPositions(shape));
    }
  }

  /** Replaying the recorded assignment through runtime slices, whatever was selected while tracing. It has
      no result unless every range is in bounds and the value as it is put has one element or one for each
      selected; then its results are exactly Python's when the value lists what Python assigns, and none
      of them is Python's when it does not. */
  lemma RuntimeAssignmentIsAssignment<T>(
    ops: seq<Op>, rec: Recording, before: Raw<T>, key: seq<RuntimeItem>, v: Raw<T>, after: Raw<T>)
    requires Valid(before) && Valid(v) && |key| <= |before.shape| && InPlace(key) && Records(ops, before.shape, key)
    requires rec.shape == before.shape && KeyShape(before.shape, ConcreteKey(key)).Some?
    requires Assignable(v, KeyShape(before.shape, ConcreteKey(key)).value).Some?
    requires !Overwrites(before.shape, key)
    ensures
      var sel := KeySelection(before.shape, ConcreteKey(key));
      var fits := AllFit(key, before.shape) && ValueFits(rec, v.shape, Numel(sel.shape));
      (!fits ==> !RecordedThrough(ops, rec, before, v, after)) &&
      (fits && SameSpread(rec, v, sel.shape) ==>
         (RecordedThrough(ops, rec, before, v, after) <==> Assigned(before, sel, v, after))) &&
      (!SameSpread(rec, v, sel.shape) ==>
         !(RecordedThrough(ops, rec, before, v, after) && Assigned(before, sel, v, after)))
  {
    PositionsThrough(ops, before.shape, key);
    KeySelectsOnce(before.shape, ConcreteKey(key));
    RecordedIsAssignment(rec, before, KeySelection(before.shape, ConcreteKey(key)), v, after);
  }

  /** As long as value and selection have the shapes they had while tracing, that is Python's assignment
      exactly when the ranges fit and the value can be put. */
  lemma UnchangedRuntimeAssignment<T>(
    ops: seq<Op>, source: Source, before: Raw<T>, key: seq<RuntimeItem>, v: Raw<T>, after: Raw<T>)
    requires Valid(before) && Valid(v) && |key| <= |before.shape| && InPlace(key) && Records(ops, before.shape, key)
    requires KeyShape(before.shape, ConcreteKey(key)).Some? && !Overwrites(before.shape, key)
    requires Assignable(v, KeyShape(before.shape, ConcreteKey(key)).value).Some?
    ensures
      var sel := KeySelection(before.shape, ConcreteKey(key));
      RecordedThrough(ops, Recording(source, before.shape, v.shape, sel.shape), before, v, after) <==>
        AllFit(key, before.shape) && Puttable(source, v.shape, sel.shape) && Assigned(before, sel, v, after)
  {
    PositionsThrough(ops, before.shape, key);
    UnchangedIsAssignment(source, before, KeySelection(before.shape, ConcreteKey(key)), v, after);
  }

  /** A row of five assigned to rows 0 to 3 of a [4, 5] tensor, when two rows were selected while tracing:
      every range fits and Python assigns, and every replay is refused. */
  lemma RowsAddedSinceTracing(ops: seq<Op>, before: Raw<int>, v: Raw<int>, after: Raw<int>)
    requires before.shape == [4, 5] && v.shape == [5] && Valid(before) && Valid(v)
    requires Records(ops, [4, 5], [Narrowed(Traced(0), Traced(3))])
    ensures
      var key := [Narrowed(Traced(0), Traced(3))];
      AllFit(key, [4, 5]) && !Overwrites([4, 5], key) && KeyShape([4, 5], ConcreteKey(key)) == Some([3, 5]) &&
      Assignable(v, [3, 5]).Some? && !RecordedThrough(ops, Recording(TorchTraced, [4, 5], [5], [2, 5]), before, v, after)
  {
    var key := [Narrowed(Traced(0), Traced(3))];
    var s := Slice(Some(0), Some(3), None);
    assert ConcreteKey(key) == [s] && [s][1..] == [] && [4, 5][1..] == [5];
    assert First(s, 4) == 0 && Last(s, 4) == 3 && SliceLength(s, 4) == 3;
    assert KeyShape([5], []) == Some([5]) && [3] + [5] == [3, 5];
    assert !EndsAtZero(key[0], 4);
    PositionsThrough(ops, [4, 5], key);
    OtherRowCount(before, KeySelection([4, 5], ConcreteKey(key)), v, after);
  }

  /** In the case left out Python assigns nothing, and there are a tensor and a value for which the
      recording overwrites elements. */
  lemma TailIsOverwritten(ops: seq<Op>, shape: seq<nat>, key: seq<RuntimeItem>, target: seq<nat>)
    returns (before: Raw<int>, v: Raw<int>, after: Raw<int>)
    requires |key| <= |shape| && InPlace(key) && Records(ops, shape, key)
    requires KeyShape(shape, ConcreteKey(key)).Some? && Overwrites(shape, key)
    ensures Valid(before) && Valid(v) && before.shape == shape
    ensures
      var sel := KeySelection(shape, ConcreteKey(key));
      RecordedThrough(ops, Recording(Constant, shape, [], target), before, v, after) &&
      Assigned(before, sel, v, before) && !Assigned(before, sel, v, after)
  {
    var taken := KeySelection(shape, TakenKey(key, shape));
    TakenSelects(shape, key);
    SelectedThrough(ops, shape, TakenKey(key, shape));
    before, v := Tensor(shape, seq(Numel(shape), _ => 0)), Tensor([], [7]);
    after := ScalarPut(before, taken, v);
    var index := taken.positions[0];
    assert At(after, index) != At(before, index);
  }

  /** Putting 7 into zeros. */
  lemma ScalarPut(before: Raw<int>, sel: Selection, v: Raw<int>) returns (after: Raw<int>)
    requires Valid(before) && Selecting(before.shape, sel) && v == Tensor([], [7])
    ensures Valid(after) && after.shape == before.shape
    ensures IndexPut(before.data, Select(FlatPositions(before.shape), sel).data, v.data, after.data)
    ensures forall k | 0 <= k < |sel.positions| :: At(after, sel.positions[k]) == 7
  {
    var flat := Select(FlatPositions(before.shape), sel).data;
    SelectedPositions(before.shape, sel);
    after := Tensor(before.shape, seq(|before.data|, p requires 0 <= p < |before.data| =>
      if p in flat then 7 else before.data[p]));
    forall p: nat | p < |before.data| && p in flat ensures PutAt(flat, v.data, p, after.data[p]) {
      var k :| 0 <= k < |flat| && flat[k] == p;
    }
    forall k | 0 <= k < |sel.positions| ensures At(after, sel.positions[k]) == 7 {
      assert flat[k] == Ravel(before.shape, sel.positions[k]) && flat[k] in flat;
    }
  }
}
