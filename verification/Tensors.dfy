/** Dense tensors as a shape and a row-major element list, and the arithmetic between flat
    positions and multi-indices. */
module Tensors {

  type Index = seq<nat>

  function Numel(shape: seq<nat>): nat {
    if shape == [] then 1 else shape[0] * Numel(shape[1..])
  }

  predicate InShape(shape: seq<nat>, index: Index) {
    |index| == |shape| && forall k | 0 <= k < |shape| :: index[k] < shape[k]
  }

  lemma InShapeTail(shape: seq<nat>, index: Index)
    requires InShape(shape, index) && shape != []
    ensures index[0] < shape[0] && InShape(shape[1..], index[1..])
  {
  }

  /** The flat row-major position of a multi-index. */
  function Ravel(shape: seq<nat>, index: Index): (k: nat)
    requires InShape(shape, index)
    ensures k < Numel(shape)
  {
    if shape == [] then 0
    else
      var rest := Numel(shape[1..]);
      var tail := Ravel(shape[1..], index[1..]);
      RowBound(index[0], shape[0], rest, tail);
      index[0] * rest + tail
  }

  lemma RowBound(i: nat, n: nat, rest: nat, tail: nat)
    requires i < n && tail < rest
    ensures i * rest + tail < n * rest
  {
    assert (i + 1) * rest <= n * rest;
  }

  /** The multi-index at a flat position. */
  function Unravel(shape: seq<nat>, k: nat): (index: Index)
    requires k < Numel(shape)
    ensures InShape(shape, index)
  {
    if shape == [] then []
    else
      var rest := Numel(shape[1..]);
      RowQuotient(k, shape[0], rest);
      [k / rest] + Unravel(shape[1..], k % rest)
  }

  lemma RowQuotient(k: nat, n: nat, rest: nat)
    requires k < n * rest
    ensures rest > 0 && k / rest < n && 0 <= k % rest < rest
  {
    assert rest == 0 ==> n * rest == 0;
    var q := k / rest;
    assert q >= n ==> q * rest >= n * rest;
  }

  lemma RowParts(i: nat, rest: nat, tail: nat)
    requires tail < rest
    ensures (i * rest + tail) / rest == i && (i * rest + tail) % rest == tail
  {
    var v := i * rest + tail;
    var q := v / rest;
    assert q * rest + v % rest == v;
    assert q < i ==> (q + 1) * rest <= i * rest;
    assert q > i ==> q * rest >= (i + 1) * rest;
  }

  lemma {:induction false} RavelUnravel(shape: seq<nat>, k: nat)
    requires k < Numel(shape)
    ensures Ravel(shape, Unravel(shape, k)) == k
  {
    if shape != [] {
      var rest := Numel(shape[1..]);
      RowQuotient(k, shape[0], rest);
      RavelUnravel(shape[1..], k % rest);
    }
  }

  lemma {:induction false} UnravelRavel(shape: seq<nat>, index: Index)
    requires InShape(shape, index)
    ensures Unravel(shape, Ravel(shape, index)) == index
  {
    if shape != [] {
      UnravelRavel(shape[1..], index[1..]);
      RowParts(index[0], Numel(shape[1..]), Ravel(shape[1..], index[1..]));
    }
  }

  lemma RavelInjective(shape: seq<nat>, a: Index, b: Index)
    requires InShape(shape, a) && InShape(shape, b) && Ravel(shape, a) == Ravel(shape, b)
    ensures a == b
  {
    UnravelRavel(shape, a);
    UnravelRavel(shape, b);
  }

  // ----- tensors

  datatype Raw<T> = Tensor(shape: seq<nat>, data: seq<T>)

  predicate Valid<T>(t: Raw<T>) {
    |t.data| == Numel(t.shape)
  }

  function At<T>(t: Raw<T>, index: Index): T
    requires Valid(t) && InShape(t.shape, index)
  {
    t.data[Ravel(t.shape, index)]
  }

  /** Tensors of one shape with the same elements are equal. */
  lemma SameTensor<T>(a: Raw<T>, b: Raw<T>)
    requires Valid(a) && Valid(b) && a.shape == b.shape
    requires forall index | InShape(a.shape, index) :: At(a, index) == At(b, index)
    ensures a == b
  {
    forall k | 0 <= k < |a.data| ensures a.data[k] == b.data[k] {
      RavelUnravel(a.shape, k);
      assert At(a, Unravel(a.shape, k)) == At(b, Unravel(a.shape, k));
    }
  }
}
