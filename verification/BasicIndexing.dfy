/** Basic indexing of tensors: what a key of integers, slices, new axes and one ellipsis selects
    (leapp/leapp_graph/datatypes/traced_data.py). */
module BasicIndexing {
  import opened Ports
  import opened Tensors

  datatype Item =
    | Int(value: int)
    | Slice(start: Option<int>, stop: Option<int>, step: Option<int>)
    | NewAxis
    | Ellipsis

  type Key = seq<Item>

  const FULL := Slice(None, None, None)

  // ----- Python's slice arithmetic

  function Step(s: Item): int
    requires s.Slice?
  {
    if s.step.Some? then s.step.value else 1
  }

  function Clamp(bound: int, lower: int, upper: int, n: nat): int {
    if bound < 0 then (if bound + n < lower then lower else bound + n)
    else if bound < upper then bound else upper
  }

  /** First position of `slice.indices(n)`. */
  function First(s: Item, n: nat): int
    requires s.Slice? && Step(s) != 0
  {
    var lower := if Step(s) < 0 then -1 else 0;
    var upper := if Step(s) < 0 then n - 1 else n;
    match s.start
    case None => if Step(s) < 0 then upper else lower
    case Some(bound) => Clamp(bound, lower, upper, n)
  }

  /** Excluded last position of `slice.indices(n)`. */
  function Last(s: Item, n: nat): int
    requires s.Slice? && Step(s) != 0
  {
    var lower := if Step(s) < 0 then -1 else 0;
    var upper := if Step(s) < 0 then n - 1 else n;
    match s.stop
    case None => if Step(s) < 0 then lower else upper
    case Some(bound) => Clamp(bound, lower, upper, n)
  }

  /** Length of `range(first, last, step)`. */
  function RangeLength(first: int, last: int, step: int): nat
    requires step != 0
  {
    if step > 0 then
      (if first < last then (last - first - 1) / step + 1 else 0)
    else
      (if last < first then (first - last - 1) / (-step) + 1 else 0)
  }

  function SliceLength(s: Item, n: nat): nat
    requires s.Slice? && Step(s) != 0
  {
    RangeLength(First(s, n), Last(s, n), Step(s))
  }

  lemma Quotient(span: nat, step: nat, j: nat)
    requires step > 0 && j <= span / step
    ensures step * j <= span
  {
    var q := span / step;
    assert step * q <= span;
    assert step * j <= step * q;
  }

  lemma RangeStays(first: int, last: int, step: int, j: nat)
    requires step != 0 && j < RangeLength(first, last, step)
    ensures step > 0 ==> first <= first + step * j < last
    ensures step < 0 ==> last < first + step * j <= first
  {
    if step > 0 {
      Quotient(last - first - 1, step, j);
    } else {
      Quotient(first - last - 1, -step, j);
      assert (-step) * j == -(step * j);
    }
  }

  /** Every position a slice visits is an element of its axis. */
  lemma SliceStays(s: Item, n: nat, j: nat)
    requires s.Slice? && Step(s) != 0 && j < SliceLength(s, n)
    ensures 0 <= First(s, n) + Step(s) * j < n
  {
    RangeStays(First(s, n), Last(s, n), Step(s), j);
  }

  function Position(s: Item, n: nat, j: nat): (k: nat)
    requires s.Slice? && Step(s) != 0 && j < SliceLength(s, n)
    ensures k < n
  {
    SliceStays(s, n, j);
    First(s, n) + Step(s) * j
  }

  // ----- what a key selects

  /** The number of axes a key consumes, its ellipsis apart. */
  function Consumed(key: Key): (n: nat)
    ensures n <= |key|
  {
    if key == [] then 0
    else Consumed(key[1..]) + (if key[0].Int? || key[0].Slice? then 1 else 0)
  }

  /** The shape a key selects from `shape`; absent when the key is an error. An ellipsis keeps
      axes until only those the rest of the key consumes are left, and occurs at most once. */
  function KeyShape(shape: seq<nat>, key: Key): Option<seq<nat>>
    decreases |key| + |shape|
  {
    if key == [] then Some(shape)
    else match key[0]
      case NewAxis => Prepend(1, KeyShape(shape, key[1..]))
      case Ellipsis =>
        if |shape| < Consumed(key[1..]) || Ellipsis in key[1..] then None
        else if |shape| == Consumed(key[1..]) then KeyShape(shape, key[1..])
        else Prepend(shape[0], KeyShape(shape[1..], key))
      case Int(i) =>
        if shape == [] || !(-shape[0] <= i < shape[0]) then None
        else KeyShape(shape[1..], key[1..])
      case Slice(_, _, _) =>
        if shape == [] || Step(key[0]) == 0 then None
        else Prepend(SliceLength(key[0], shape[0]), KeyShape(shape[1..], key[1..]))
  }

  function Prepend(size: nat, rest: Option<seq<nat>>): Option<seq<nat>> {
    if rest.None? then None else Some([size] + rest.value)
  }

  /** The element of the indexed tensor that lands at `out` in the selection. */
  function Selects(shape: seq<nat>, key: Key, out: Index): (source: Index)
    requires KeyShape(shape, key).Some? && InShape(KeyShape(shape, key).value, out)
    ensures InShape(shape, source)
    decreases |key| + |shape|
  {
    if key == [] then out
    else match key[0]
      case NewAxis => Selects(shape, key[1..], out[1..])
      case Ellipsis =>
        if |shape| == Consumed(key[1..]) then Selects(shape, key[1..], out)
        else [out[0]] + Selects(shape[1..], key, out[1..])
      case Int(i) =>
        [if i < 0 then i + shape[0] else i] + Selects(shape[1..], key[1..], out)
      case Slice(_, _, _) =>
        [Position(key[0], shape[0], out[0])] + Selects(shape[1..], key[1..], out[1..])
  }

  lemma SamePosition(s: Item, n: nat, j: nat, k: nat)
    requires s.Slice? && Step(s) != 0 && j < SliceLength(s, n) && k < SliceLength(s, n)
    requires Position(s, n, j) == Position(s, n, k)
    ensures j == k
  {
    SameFactor(Step(s), j, k);
  }

  lemma SameFactor(step: int, j: int, k: int)
    requires step != 0 && step * j == step * k
    ensures j == k
  {
    assert step * (j - k) == 0;
  }

  /** A basic key selects no element twice. */
  lemma {:induction false} SelectsOnce(shape: seq<nat>, key: Key, a: Index, b: Index)
    requires KeyShape(shape, key).Some?
    requires InShape(KeyShape(shape, key).value, a) && InShape(KeyShape(shape, key).value, b)
    requires Selects(shape, key, a) == Selects(shape, key, b)
    ensures a == b
    decreases |key| + |shape|
  {
    if key != [] {
      var x, y := Selects(shape, key, a), Selects(shape, key, b);
      match key[0]
      case NewAxis =>
        SelectsOnce(shape, key[1..], a[1..], b[1..]);
        FirstAndRest(a, b);
      case Ellipsis =>
        if |shape| == Consumed(key[1..]) {
          SelectsOnce(shape, key[1..], a, b);
        } else {
          assert x[0] == y[0] && x[1..] == y[1..];
          SelectsOnce(shape[1..], key, a[1..], b[1..]);
          FirstAndRest(a, b);
        }
      case Int(_) =>
        assert x[1..] == y[1..];
        SelectsOnce(shape[1..], key[1..], a, b);
      case Slice(_, _, _) =>
        assert x[0] == y[0] && x[1..] == y[1..];
        SamePosition(key[0], shape[0], a[0], b[0]);
        SelectsOnce(shape[1..], key[1..], a[1..], b[1..]);
        FirstAndRest(a, b);
    }
  }

  lemma FirstAndRest(a: Index, b: Index)
    requires |a| == |b| > 0 && a[0] == b[0] && a[1..] == b[1..]
    ensures a == b
  {
    assert a == [a[0]] + a[1..] && b == [b[0]] + b[1..];
  }

  /** Direct basic indexing. */
  function GetItem<T>(t: Raw<T>, key: Key): (r: Option<Raw<T>>)
    requires Valid(t)
    ensures r.Some? ==> Valid(r.value)
  {
    match KeyShape(t.shape, key)
    case None => None
    case Some(shape) =>
      Some(Tensor(shape, seq(Numel(shape), k requires 0 <= k < Numel(shape) =>
        At(t, Selects(t.shape, key, Unravel(shape, k))))))
  }

  lemma GetItemAt<T>(t: Raw<T>, key: Key, out: Index)
    requires Valid(t) && KeyShape(t.shape, key).Some? && InShape(KeyShape(t.shape, key).value, out)
    ensures Valid(GetItem(t, key).value)
    ensures At(GetItem(t, key).value, out) == At(t, Selects(t.shape, key, out))
  {
    UnravelRavel(KeyShape(t.shape, key).value, out);
  }
}
