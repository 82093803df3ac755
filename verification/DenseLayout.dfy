/** The layout test a tensor description makes when it records a strided input:
    sort the dimensions of size above one by stride, then check that each stride is
    the product of the sizes before it. The theorem is that this one loop decides
    whether the stride map is a bijection from the index box onto [0, numel). */
module DenseLayout {

  datatype Dim = Dim(stride: int, size: nat)

  function Numel(dims: seq<Dim>): nat {
    if dims == [] then 1 else dims[0].size * Numel(dims[1..])
  }

  predicate InBox(dims: seq<Dim>, index: seq<nat>) {
    |index| == |dims| && forall k | 0 <= k < |dims| :: index[k] < dims[k].size
  }

  /** The storage offset of an element. */
  function Address(dims: seq<Dim>, index: seq<nat>): int
    requires |index| == |dims|
  {
    if dims == [] then 0 else index[0] * dims[0].stride + Address(dims[1..], index[1..])
  }

  ghost predicate Hits(dims: seq<Dim>, address: int) {
    exists index :: InBox(dims, index) && Address(dims, index) == address
  }

  /** The reference definition: the stride map is a bijection from the index box onto [0, numel). */
  ghost predicate Dense(dims: seq<Dim>) {
    && (forall index | InBox(dims, index) :: 0 <= Address(dims, index) < Numel(dims))
    && (forall address | 0 <= address < Numel(dims) :: Hits(dims, address))
    && (forall i, j | InBox(dims, i) && InBox(dims, j) && Address(dims, i) == Address(dims, j) :: i == j)
  }

  // ----- sums of counts

  ghost function Sum(n: nat, f: int -> nat): nat {
    if n == 0 then 0 else Sum(n - 1, f) + f(n - 1)
  }

  lemma {:induction false} SumExt(n: nat, f: int -> nat, g: int -> nat)
    requires forall i | 0 <= i < n :: f(i) == g(i)
    ensures Sum(n, f) == Sum(n, g)
  {
    if n > 0 { SumExt(n - 1, f, g); }
  }

  lemma {:induction false} SumAdd(n: nat, f: int -> nat, g: int -> nat)
    ensures Sum(n, i => f(i) + g(i)) == Sum(n, f) + Sum(n, g)
  {
    if n > 0 {
      SumAdd(n - 1, f, g);
    }
  }

  lemma {:induction false} SumSplit(a: nat, b: nat, g: int -> nat)
    ensures Sum(a + b, g) == Sum(a, g) + Sum(b, i => g(a + i))
  {
    if b > 0 {
      SumSplit(a, b - 1, g);
    }
  }

  ghost function Row(m: nat, f: (int, int) -> nat): int -> nat {
    i => Sum(m, j => f(i, j))
  }

  ghost function Column(n: nat, f: (int, int) -> nat): int -> nat {
    j => Sum(n, i => f(i, j))
  }

  lemma {:induction false} SumSwap(n: nat, m: nat, f: (int, int) -> nat)
    ensures Sum(n, Row(m, f)) == Sum(m, Column(n, f))
  {
    if n == 0 {
      SumZero(m, Column(0, f));
    } else {
      SumSwap(n - 1, m, f);
      var last := j => f(n - 1, j);
      SumAdd(m, Column(n - 1, f), last);
      SumExt(m, Column(n, f), j => Column(n - 1, f)(j) + last(j));
      SumExt(m, j => f(n - 1, j), last);
    }
  }

  lemma {:induction false} SumZero(n: nat, f: int -> nat)
    ensures Sum(n, f) == 0 <==> forall i | 0 <= i < n :: f(i) == 0
  {
    if n > 0 { SumZero(n - 1, f); }
  }

  /** A sum over one long range is a sum of `s` consecutive blocks of length `p`. */
  lemma {:induction false} SumBlocks(p: nat, s: nat, g: int -> nat)
    ensures Sum(s, Block(p, g)) == Sum(p * s, g)
  {
    if s == 0 {
      assert p * s == 0;
    } else {
      SumBlocks(p, s - 1, g);
      LastBlock(p, s - 1, p * (s - 1), g);
      assert p * (s - 1) + p == p * s;
    }
  }

  lemma LastBlock(p: nat, n: nat, base: nat, g: int -> nat)
    requires base == n * p
    ensures Sum(base + p, g) == Sum(base, g) + Block(p, g)(n)
  {
    SumSplit(base, p, g);
    SumExt(p, a => g(a + n * p), i => g(base + i));
  }

  ghost function Block(p: nat, g: int -> nat): int -> nat {
    i => Sum(p, a => g(a + i * p))
  }

  // ----- the number of elements stored at an address

  ghost function Ways(dims: seq<Dim>, v: int): nat
    decreases |dims|, 0
  {
    if dims == [] then (if v == 0 then 1 else 0)
    else Sum(dims[0].size, Shift(dims[1..], v, dims[0].stride))
  }

  ghost function Shift(rest: seq<Dim>, v: int, stride: int): int -> nat
    decreases |rest|, 1
  {
    i => Ways(rest, v - i * stride)
  }

  /** Exactly the addresses of [0, bound) are stored, each by one element. */
  ghost predicate Tiles(dims: seq<Dim>, bound: nat) {
    forall v: int :: Ways(dims, v) == if 0 <= v < bound then 1 else 0
  }

  lemma WaysCons(d: Dim, rest: seq<Dim>, v: int)
    ensures Ways([d] + rest, v) == Sum(d.size, Shift(rest, v, d.stride))
  {
    assert ([d] + rest)[1..] == rest;
  }

  lemma AddressCons(d: Dim, rest: seq<Dim>, i: nat, index: seq<nat>)
    requires |index| == |rest|
    ensures Address([d] + rest, [i] + index) == i * d.stride + Address(rest, index)
    ensures InBox([d] + rest, [i] + index) <==> i < d.size && InBox(rest, index)
  {
    assert ([d] + rest)[1..] == rest && ([i] + index)[1..] == index;
    if i < d.size && InBox(rest, index) {
      forall k | 0 <= k < |rest| + 1 ensures ([i] + index)[k] < ([d] + rest)[k].size {
        if k > 0 { assert ([i] + index)[k] == index[k - 1] && ([d] + rest)[k] == rest[k - 1]; }
      }
    }
    if InBox([d] + rest, [i] + index) {
      assert ([i] + index)[0] < ([d] + rest)[0].size;
      forall k | 0 <= k < |rest| ensures index[k] < rest[k].size {
        assert ([i] + index)[k + 1] < ([d] + rest)[k + 1].size;
      }
    }
  }

  /** An address is hit exactly when it has a way of being written. */
  lemma {:induction false} WaysHits(dims: seq<Dim>, v: int)
    ensures Ways(dims, v) > 0 <==> Hits(dims, v)
    decreases |dims|
  {
    if dims == [] {
      if v == 0 { assert InBox(dims, []) && Address(dims, []) == v; }
    } else {
      var d, rest := dims[0], dims[1..];
      assert dims == [d] + rest;
      var f := Shift(rest, v, d.stride);
      SumZero(d.size, f);
      if Ways(dims, v) > 0 {
        var i: nat :| i < d.size && f(i) > 0;
        WaysHits(rest, v - i * d.stride);
        var tail :| InBox(rest, tail) && Address(rest, tail) == v - i * d.stride;
        AddressCons(d, rest, i, tail);
      }
      if Hits(dims, v) {
        var index :| InBox(dims, index) && Address(dims, index) == v;
        assert index == [index[0]] + index[1..];
        AddressCons(d, rest, index[0], index[1..]);
        WaysHits(rest, v - index[0] * d.stride);
        assert f(index[0]) > 0;
      }
    }
  }

  lemma {:induction false} SumAtMostOne(n: nat, f: int -> nat, i: nat, j: nat)
    requires Sum(n, f) <= 1 && i < n && j < n && f(i) > 0 && f(j) > 0
    ensures i == j && f(i) == 1
  {
    if i == n - 1 && j == n - 1 {
    } else if i == n - 1 || j == n - 1 {
      SumZero(n - 1, f);
    } else {
      SumAtMostOne(n - 1, f, i, j);
    }
  }

  lemma {:induction false} SumManyPositive(n: nat, f: int -> nat) returns (i: nat, j: nat)
    requires Sum(n, f) > 1
    requires forall k | 0 <= k < n :: f(k) <= 1
    ensures i < j < n && f(i) == 1 && f(j) == 1
  {
    if f(n - 1) == 0 {
      i, j := SumManyPositive(n - 1, f);
    } else {
      SumZero(n - 1, f);
      i :| 0 <= i < n - 1 && f(i) > 0;
      j := n - 1;
    }
  }

  /** Two elements at one address are one element as long as the address has one way. */
  lemma {:induction false} WaysUnique(dims: seq<Dim>, x: seq<nat>, y: seq<nat>)
    requires InBox(dims, x) && InBox(dims, y) && Address(dims, x) == Address(dims, y)
    requires Ways(dims, Address(dims, x)) <= 1
    ensures x == y
    decreases |dims|
  {
    if dims == [] {
    } else {
      var d, rest := dims[0], dims[1..];
      assert dims == [d] + rest;
      var v := Address(dims, x);
      var f := Shift(rest, v, d.stride);
      assert x == [x[0]] + x[1..] && y == [y[0]] + y[1..];
      AddressCons(d, rest, x[0], x[1..]);
      AddressCons(d, rest, y[0], y[1..]);
      WaysHits(rest, v - x[0] * d.stride);
      WaysHits(rest, v - y[0] * d.stride);
      SumAtMostOne(d.size, f, x[0], y[0]);
      WaysUnique(rest, x[1..], y[1..]);
    }
  }

  /** An address with two ways holds two different elements. */
  lemma {:induction false} WaysMany(dims: seq<Dim>, v: int) returns (x: seq<nat>, y: seq<nat>)
    requires Ways(dims, v) > 1
    ensures x != y && InBox(dims, x) && InBox(dims, y) && Address(dims, x) == Address(dims, y) == v
    decreases |dims|
  {
    var d, rest := dims[0], dims[1..];
    assert dims == [d] + rest;
    var f := Shift(rest, v, d.stride);
    if i: nat :| i < d.size && f(i) > 1 {
      var p, q := WaysMany(rest, v - i * d.stride);
      x, y := [i] + p, [i] + q;
      assert x[1..] == p && y[1..] == q;
      AddressCons(d, rest, i, p);
      AddressCons(d, rest, i, q);
    } else {
      var i, j := SumManyPositive(d.size, f);
      WaysHits(rest, v - i * d.stride);
      WaysHits(rest, v - j * d.stride);
      var p :| InBox(rest, p) && Address(rest, p) == v - i * d.stride;
      var q :| InBox(rest, q) && Address(rest, q) == v - j * d.stride;
      x, y := [i] + p, [j] + q;
      assert x[0] != y[0];
      AddressCons(d, rest, i, p);
      AddressCons(d, rest, j, q);
    }
  }

  lemma DenseIsTiling(dims: seq<Dim>)
    ensures Dense(dims) <==> Tiles(dims, Numel(dims))
  {
    if Dense(dims) {
      forall v: int ensures Ways(dims, v) == if 0 <= v < Numel(dims) then 1 else 0 {
        WaysHits(dims, v);
        if Ways(dims, v) > 1 {
          var x, y := WaysMany(dims, v);
          assert false;
        }
      }
    }
    if Tiles(dims, Numel(dims)) {
      forall index | InBox(dims, index) ensures 0 <= Address(dims, index) < Numel(dims) {
        WaysHits(dims, Address(dims, index));
        assert Hits(dims, Address(dims, index));
      }
      forall address | 0 <= address < Numel(dims) ensures Hits(dims, address) {
        WaysHits(dims, address);
      }
      forall i, j | InBox(dims, i) && InBox(dims, j) && Address(dims, i) == Address(dims, j) ensures i == j {
        WaysUnique(dims, i, j);
      }
    }
  }

  // ----- order and unit dimensions do not matter

  ghost predicate SameWays(a: seq<Dim>, b: seq<Dim>) {
    forall v: int :: Ways(a, v) == Ways(b, v)
  }

  lemma SameWaysCons(d: Dim, a: seq<Dim>, b: seq<Dim>)
    requires SameWays(a, b)
    ensures SameWays([d] + a, [d] + b)
  {
    forall v: int ensures Ways([d] + a, v) == Ways([d] + b, v) {
      WaysCons(d, a, v);
      WaysCons(d, b, v);
      SumExt(d.size, Shift(a, v, d.stride), Shift(b, v, d.stride));
    }
  }

  ghost function Cell(rest: seq<Dim>, v: int, s: int, t: int): (int, int) -> nat {
    (i, j) => Ways(rest, v - i * s - j * t)
  }

  lemma WaysTwo(x: Dim, y: Dim, rest: seq<Dim>, v: int)
    ensures Ways([x] + ([y] + rest), v) == Sum(x.size, Row(y.size, Cell(rest, v, x.stride, y.stride)))
  {
    var f := Cell(rest, v, x.stride, y.stride);
    WaysCons(x, [y] + rest, v);
    forall i: int ensures Shift([y] + rest, v, x.stride)(i) == Row(y.size, f)(i) {
      WaysCons(y, rest, v - i * x.stride);
      SumExt(y.size, Shift(rest, v - i * x.stride, y.stride), j => f(i, j));
    }
    SumExt(x.size, Shift([y] + rest, v, x.stride), Row(y.size, f));
  }

  lemma WaysSwap(x: Dim, y: Dim, rest: seq<Dim>)
    ensures SameWays([x] + ([y] + rest), [y] + ([x] + rest))
  {
    forall v: int ensures Ways([x] + ([y] + rest), v) == Ways([y] + ([x] + rest), v) {
      var f, g := Cell(rest, v, x.stride, y.stride), Cell(rest, v, y.stride, x.stride);
      WaysTwo(x, y, rest, v);
      WaysTwo(y, x, rest, v);
      SumSwap(x.size, y.size, f);
      forall j: int ensures Column(x.size, f)(j) == Row(x.size, g)(j) {
        SumExt(x.size, i => f(i, j), i => g(j, i));
        SumExt(x.size, i => g(j, i), i' => g(j, i'));
      }
      SumExt(y.size, Column(x.size, f), Row(x.size, g));
    }
  }

  /** `sorted` over (stride, size) pairs: lexicographic, smallest first. */
  predicate Before(a: Dim, b: Dim) {
    a.stride < b.stride || (a.stride == b.stride && a.size <= b.size)
  }

  function Insert(d: Dim, dims: seq<Dim>): seq<Dim> {
    if dims == [] || Before(d, dims[0]) then [d] + dims
    else [dims[0]] + Insert(d, dims[1..])
  }

  function Sorted(dims: seq<Dim>): seq<Dim> {
    if dims == [] then [] else Insert(dims[0], Sorted(dims[1..]))
  }

  function AboveOne(dims: seq<Dim>): seq<Dim> {
    if dims == [] then []
    else if dims[0].size > 1 then [dims[0]] + AboveOne(dims[1..])
    else AboveOne(dims[1..])
  }

  predicate Ascending(dims: seq<Dim>) {
    forall i, j | 0 <= i < j < |dims| :: dims[i].stride <= dims[j].stride
  }

  predicate NonTrivial(dims: seq<Dim>) {
    forall k | 0 <= k < |dims| :: dims[k].size > 1
  }

  lemma {:induction false} InsertSameWays(d: Dim, dims: seq<Dim>)
    ensures SameWays([d] + dims, Insert(d, dims))
    ensures Numel(Insert(d, dims)) == d.size * Numel(dims)
  {
    if dims == [] || Before(d, dims[0]) {
      assert ([d] + dims)[1..] == dims;
    } else {
      var head, tail := dims[0], dims[1..];
      InsertSameWays(d, tail);
      var inner := Insert(d, tail);
      assert ([head] + inner)[1..] == inner;
      assert [d] + dims == [d] + ([head] + tail);
      WaysSwap(d, head, tail);
      SameWaysCons(head, [d] + tail, inner);
      MulSwap(head.size, d.size, Numel(tail));
    }
  }

  lemma MulSwap(a: int, b: int, c: int)
    ensures a * (b * c) == b * (a * c)
  {
  }

  lemma {:induction false} InsertAscending(d: Dim, dims: seq<Dim>)
    requires Ascending(dims) && NonTrivial(dims) && d.size > 1
    ensures Ascending(Insert(d, dims)) && NonTrivial(Insert(d, dims))
    ensures forall x | x in Insert(d, dims) :: x == d || x in dims
  {
    if dims != [] && !Before(d, dims[0]) {
      InsertAscending(d, dims[1..]);
      assert forall x | x in dims[1..] :: x in dims && dims[0].stride <= x.stride;
    }
  }

  lemma {:induction false} SortedFacts(dims: seq<Dim>)
    requires NonTrivial(dims)
    ensures Ascending(Sorted(dims)) && NonTrivial(Sorted(dims))
    ensures SameWays(dims, Sorted(dims)) && Numel(dims) == Numel(Sorted(dims))
  {
    if dims != [] {
      SortedFacts(dims[1..]);
      InsertAscending(dims[0], Sorted(dims[1..]));
      InsertSameWays(dims[0], Sorted(dims[1..]));
      assert dims == [dims[0]] + dims[1..];
      SameWaysCons(dims[0], dims[1..], Sorted(dims[1..]));
    }
  }

  lemma {:induction false} AboveOneFacts(dims: seq<Dim>)
    requires Numel(dims) != 0
    ensures NonTrivial(AboveOne(dims))
    ensures SameWays(dims, AboveOne(dims)) && Numel(dims) == Numel(AboveOne(dims))
  {
    if dims != [] {
      var d, rest := dims[0], dims[1..];
      assert d.size != 0 && Numel(rest) != 0;
      AboveOneFacts(rest);
      assert dims == [d] + rest;
      if d.size > 1 {
        SameWaysCons(d, rest, AboveOne(rest));
        assert ([d] + AboveOne(rest))[1..] == AboveOne(rest);
      } else {
        forall v: int ensures Ways(dims, v) == Ways(rest, v) {
          WaysCons(d, rest, v);
          var f := Shift(rest, v, d.stride);
          assert Sum(1, f) == Sum(0, f) + f(0);
        }
      }
    }
  }

  // ----- the run of products

  /** The loop's test: every stride is the product of `expected` and the sizes before it. */
  predicate ProductRun(dims: seq<Dim>, expected: nat) {
    dims == [] || (dims[0].stride == expected && ProductRun(dims[1..], expected * dims[0].size))
  }

  /** The block [0, p) followed by a dimension of stride p is the block [0, p * size). */
  lemma MergeBlock(p: nat, d: Dim, rest: seq<Dim>)
    requires d.stride == p
    ensures SameWays([Dim(1, p)] + ([d] + rest), [Dim(1, p * d.size)] + rest)
  {
    WaysSwap(Dim(1, p), d, rest);
    forall v: int
      ensures Ways([d] + ([Dim(1, p)] + rest), v) == Ways([Dim(1, p * d.size)] + rest, v)
    {
      var g := Shift(rest, v, 1);
      WaysTwo(d, Dim(1, p), rest, v);
      var f := Cell(rest, v, p, 1);
      forall i: int ensures Row(p, f)(i) == Block(p, g)(i) {
        SumExt(p, j => f(i, j), a => g(a + i * p));
      }
      SumExt(d.size, Row(p, f), Block(p, g));
      SumBlocks(p, d.size, g);
      WaysCons(Dim(1, p * d.size), rest, v);
    }
  }

  /** With every stride above `p`, an address up to `p` is written only by the zero index. */
  lemma {:induction false} OnlyZeroBelow(dims: seq<Dim>, p: nat, v: int)
    requires forall d | d in dims :: d.stride > p
    requires v <= p && Ways(dims, v) > 0
    ensures v == 0
  {
    if dims == [] {
    } else {
      var d, rest := dims[0], dims[1..];
      var f := Shift(rest, v, d.stride);
      SumZero(d.size, f);
      var i :| 0 <= i < d.size && f(i) > 0;
      StrideGrows(i, d.stride, p);
      OnlyZeroBelow(rest, p, v - i * d.stride);
    }
  }

  lemma StrideGrows(i: nat, stride: int, p: nat)
    requires stride > p
    ensures i * stride >= 0 && (i > 0 ==> i * stride > p)
  {
    if i > 0 { assert (i - 1) * stride >= 0; }
  }

  lemma {:induction false} NumelPositive(dims: seq<Dim>)
    requires NonTrivial(dims)
    ensures Numel(dims) > 0
  {
    if dims != [] {
      NumelPositive(dims[1..]);
      assert dims[0].size * Numel(dims[1..]) > 0;
    }
  }

  lemma {:induction false} HitsZeroIndex(dims: seq<Dim>)
    requires NonTrivial(dims)
    ensures Ways(dims, 0) > 0
  {
    if dims != [] {
      HitsZeroIndex(dims[1..]);
      var f := Shift(dims[1..], 0, dims[0].stride);
      assert f(0) > 0;
      SumZero(dims[0].size, f);
    }
  }

  lemma ManyTimes(p: nat, n: nat, m: nat)
    requires p > 0 && n > 1 && m > 0
    ensures p * (n * m) > p
  {
    assert n * m >= n;
    assert p * (n * m) >= p * 2;
  }

  /** A stride above the product so far leaves the address `p` empty. */
  lemma WideStride(p: nat, d: Dim, rest: seq<Dim>)
    requires p > 0 && d.stride > p && d.size > 1 && NonTrivial(rest)
    requires forall x | x in rest :: d.stride <= x.stride
    ensures !Tiles([Dim(1, p)] + ([d] + rest), p * Numel([d] + rest))
  {
    var all := [d] + rest;
    assert all[1..] == rest;
    NumelPositive(rest);
    ManyTimes(p, d.size, Numel(rest));
    WaysCons(Dim(1, p), all, p);
    var at := Shift(all, p, 1);
    SumZero(p, at);
    if Sum(p, at) > 0 {
      var a :| 0 <= a < p && at(a) > 0;
      OnlyZeroBelow(all, p, p - a);
    }
  }

  /** A stride below it is written twice, or falls out of range. */
  lemma NarrowStride(p: nat, d: Dim, rest: seq<Dim>)
    requires p > 0 && d.stride < p && d.size > 1 && NonTrivial(rest)
    ensures !Tiles([Dim(1, p)] + ([d] + rest), p * Numel([d] + rest))
  {
    var all := [d] + rest;
    StepIsHit(d, rest);
    WaysCons(Dim(1, p), all, d.stride);
    var at := Shift(all, d.stride, 1);
    assert at(0) > 0;
    SumZero(p, at);
    if d.stride == 0 {
      if Sum(p, at) <= 1 { SumAtMostOne(p, at, 0, 0); }
    } else if d.stride > 0 {
      HitsZeroIndex(all);
      assert at(d.stride) > 0;
      if Sum(p, at) <= 1 { SumAtMostOne(p, at, 0, d.stride); }
    }
  }

  /** A stride other than the product so far leaves a gap or writes an address twice. */
  lemma WrongStride(p: nat, d: Dim, rest: seq<Dim>)
    requires p > 0 && d.stride != p && d.size > 1 && NonTrivial(rest)
    requires forall x | x in rest :: d.stride <= x.stride
    ensures !Tiles([Dim(1, p)] + ([d] + rest), p * Numel([d] + rest))
  {
    if d.stride > p { WideStride(p, d, rest); } else { NarrowStride(p, d, rest); }
  }

  /** One step along a dimension reaches its stride; along a zero stride it stays, twice over. */
  lemma StepIsHit(d: Dim, rest: seq<Dim>)
    requires d.size > 1 && NonTrivial(rest)
    ensures Ways([d] + rest, d.stride) > 0
    ensures d.stride == 0 ==> Ways([d] + rest, 0) > 1
  {
    HitsZeroIndex(rest);
    WaysCons(d, rest, d.stride);
    var f := Shift(rest, d.stride, d.stride);
    assert f(1) > 0;
    SumZero(d.size, f);
    if d.stride == 0 {
      assert f(0) > 0;
      if Sum(d.size, f) <= 1 { SumAtMostOne(d.size, f, 0, 1); }
    }
  }

  /** Ascending dimensions after a full block [0, p) tile exactly when the product run goes through. */
  lemma {:induction false} RunDecides(dims: seq<Dim>, p: nat)
    requires p > 0 && Ascending(dims) && NonTrivial(dims)
    ensures ProductRun(dims, p) <==> Tiles([Dim(1, p)] + dims, p * Numel(dims))
  {
    if dims == [] {
      forall v: int ensures Ways([Dim(1, p)] + dims, v) == if 0 <= v < p then 1 else 0 {
        WaysCons(Dim(1, p), dims, v);
        BlockWays(p, v);
      }
    } else {
      var d, rest := dims[0], dims[1..];
      assert dims == [d] + rest;
      if d.stride == p {
        MergeBlock(p, d, rest);
        RunDecides(rest, p * d.size);
        assert p * d.size * Numel(rest) == p * Numel(dims);
      } else {
        WrongStride(p, d, rest);
      }
    }
  }

  lemma {:induction false} BlockWays(n: nat, v: int)
    ensures Sum(n, Shift([], v, 1)) == if 0 <= v < n then 1 else 0
  {
    if n > 0 { BlockWays(n - 1, v); }
  }

  lemma UnitBlock(dims: seq<Dim>)
    ensures SameWays([Dim(1, 1)] + dims, dims)
  {
    forall v: int ensures Ways([Dim(1, 1)] + dims, v) == Ways(dims, v) {
      WaysCons(Dim(1, 1), dims, v);
      var f := Shift(dims, v, 1);
      assert Sum(1, f) == Sum(0, f) + f(0);
    }
  }

  lemma SameWaysTile(a: seq<Dim>, b: seq<Dim>, bound: nat)
    requires SameWays(a, b)
    ensures Tiles(a, bound) <==> Tiles(b, bound)
  {
  }

  /** The sort-and-product test decides density, for every non-empty layout and every stride order. */
  lemma ProductRunIsDense(dims: seq<Dim>)
    requires Numel(dims) != 0
    ensures ProductRun(Sorted(AboveOne(dims)), 1) <==> Dense(dims)
  {
    var kept := AboveOne(dims);
    var order := Sorted(kept);
    AboveOneFacts(dims);
    SortedFacts(kept);
    RunDecides(order, 1);
    UnitBlock(order);
    SameWaysTile([Dim(1, 1)] + order, order, Numel(dims));
    SameWaysTile(order, kept, Numel(dims));
    SameWaysTile(kept, dims, Numel(dims));
    DenseIsTiling(dims);
  }

  lemma {:induction false} MovedToFront(front: seq<Dim>, x: Dim, back: seq<Dim>)
    ensures SameWays(front + ([x] + back), [x] + (front + back))
    ensures Numel(front + ([x] + back)) == x.size * Numel(front + back)
  {
    if front == [] {
      assert [] + ([x] + back) == [x] + back && [] + back == back && ([x] + back)[1..] == back;
    } else {
      var head, tail := front[0], front[1..];
      MovedToFront(tail, x, back);
      assert front + ([x] + back) == [head] + (tail + ([x] + back)) && front + back == [head] + (tail + back);
      SameWaysCons(head, tail + ([x] + back), [x] + (tail + back));
      WaysSwap(head, x, tail + back);
      assert ([head] + (tail + back))[1..] == tail + back;
      assert ([head] + (tail + ([x] + back)))[1..] == tail + ([x] + back);
      MulSwap(head.size, x.size, Numel(tail + back));
    }
  }

  lemma {:induction false} PermutedSameWays(a: seq<Dim>, b: seq<Dim>)
    requires multiset(a) == multiset(b)
    ensures SameWays(a, b) && Numel(a) == Numel(b)
  {
    if a == [] {
      assert |multiset(b)| == |b|;
    } else {
      var x, rest := a[0], a[1..];
      assert a == [x] + rest && x in multiset(b);
      var front, back := WithoutOne(x, rest, b);
      PermutedSameWays(rest, front + back);
      MovedToFront(front, x, back);
      SameWaysCons(x, rest, front + back);
      SameWaysChain(a, [x] + (front + back), b);
    }
  }

  lemma SameWaysChain(a: seq<Dim>, b: seq<Dim>, c: seq<Dim>)
    requires SameWays(a, b) && SameWays(c, b)
    ensures SameWays(a, c)
  {
  }

  lemma WithoutOne(x: Dim, rest: seq<Dim>, b: seq<Dim>) returns (front: seq<Dim>, back: seq<Dim>)
    requires multiset([x] + rest) == multiset(b)
    ensures b == front + ([x] + back) && multiset(rest) == multiset(front + back)
  {
    assert x in multiset(b);
    var k :| 0 <= k < |b| && b[k] == x;
    front, back := b[..k], b[k + 1..];
    assert b == front + ([x] + back);
    Counts(x, rest);
    Counts(x, back);
    OneFewer(x, multiset(rest), multiset(front), multiset(back));
  }

  lemma Counts(x: Dim, rest: seq<Dim>)
    ensures multiset([x] + rest) == multiset{x} + multiset(rest)
  {
  }

  lemma OneFewer(x: Dim, rest: multiset<Dim>, front: multiset<Dim>, back: multiset<Dim>)
    requires multiset{x} + rest == front + (multiset{x} + back)
    ensures rest == front + back
  {
    forall d ensures rest[d] == (front + back)[d] {
      assert (multiset{x} + rest)[d] == (front + (multiset{x} + back))[d];
    }
  }

  /** Density does not depend on the order the dimensions are listed in. */
  lemma DenseIsOrderFree(a: seq<Dim>, b: seq<Dim>)
    requires multiset(a) == multiset(b)
    ensures Dense(a) <==> Dense(b)
  {
    PermutedSameWays(a, b);
    SameWaysTile(a, b, Numel(a));
    DenseIsTiling(a);
    DenseIsTiling(b);
  }

  function Dims(strides: seq<int>, shape: seq<nat>): (r: seq<Dim>)
    requires |strides| == |shape|
  {
    seq(|shape|, k requires 0 <= k < |shape| => Dim(strides[k], shape[k]))
  }

  /** What a description records for a value: layouts without strides and empty tensors count as dense. */
  method IsDense(strided: bool, strides: seq<int>, shape: seq<nat>) returns (dense: bool)
    requires |strides| == |shape|
    ensures !strided || Numel(Dims(strides, shape)) == 0 ==> dense
    ensures strided && Numel(Dims(strides, shape)) != 0 ==> (dense <==> Dense(Dims(strides, shape)))
  {
    dense := true;
    var dims := Dims(strides, shape);
    if strided && Numel(dims) != 0 {
      ProductRunIsDense(dims);
      var order := Sorted(AboveOne(dims));
      var expected: nat := 1;
      var k := 0;
      while k < |order|
        invariant 0 <= k <= |order|
        invariant dense && (ProductRun(order, 1) <==> ProductRun(order[k..], expected))
      {
        if order[k].stride != expected {
          dense := false;
          break;
        }
        expected := expected * order[k].size;
        k := k + 1;
      }
    }
  }
}
