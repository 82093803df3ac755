/** Nested inputs and outputs (leapp/utils/tensor_description.py, leapp/leapp_graph/leapp_node.py):
    described, flattened, packed and unpacked by separate traversals. */
module NestedIo {
  import opened Ports
  import opened Lists
  import opened JsonText

  /** A nested value; lists are labelled by position, dictionaries by their keys. */
  datatype Value<T> = Tensor(tensor: T) | List(kids: seq<Value<T>>) | Dict(keys: seq<string>, kids: seq<Value<T>>) | Other

  predicate Composite<T>(v: Value<T>) {
    v.List? || (v.Dict? && |v.keys| == |v.kids|)
  }

  function Child<T>(v: Value<T>, name: string, i: nat): string
    requires Composite(v) && i < |v.kids|
  {
    var part := if v.List? then NatText(i) else v.keys[i];
    if name == "" then part else name + "_" + part
  }

  type Flat<T> = seq<(string, T)>

  // ----- descriptions

  /** The tensors of a value under their names, in the order in which they are described. */
  function Leaves<T>(v: Value<T>, name: string): Flat<T>
    decreases v, 1, 0
  {
    if v.Tensor? then [(name, v.tensor)] else if Composite(v) then LeavesUpTo(v, name, |v.kids|) else []
  }

  function LeavesUpTo<T>(v: Value<T>, name: string, i: nat): Flat<T>
    requires Composite(v) && i <= |v.kids|
    decreases v, 0, i
  {
    if i == 0 then [] else LeavesUpTo(v, name, i - 1) + Leaves(v.kids[i - 1], Child(v, name, i - 1))
  }

  // ----- flattening into an ordered dictionary

  /** Assigning to a key replaces its value in place or adds the key at the end. */
  function Put<T>(flat: Flat<T>, name: string, t: T): Flat<T> {
    if flat == [] then [(name, t)]
    else if flat[0].0 == name then [(name, t)] + flat[1..]
    else [flat[0]] + Put(flat[1..], name, t)
  }

  function Update<T>(flat: Flat<T>, more: Flat<T>): Flat<T> {
    if more == [] then flat
    else Put(Update(flat, more[..|more| - 1]), more[|more| - 1].0, more[|more| - 1].1)
  }

  function Flatten<T>(v: Value<T>, name: string): Flat<T>
    decreases v, 1, 0
  {
    if v.Tensor? then [(name, v.tensor)] else if Composite(v) then FlattenUpTo(v, name, |v.kids|) else []
  }

  function FlattenUpTo<T>(v: Value<T>, name: string, i: nat): Flat<T>
    requires Composite(v) && i <= |v.kids|
    decreases v, 0, i
  {
    if i == 0 then [] else Update(FlattenUpTo(v, name, i - 1), Flatten(v.kids[i - 1], Child(v, name, i - 1)))
  }

  method FlattenIoStructure<T>(v: Value<T>, name: string) returns (flat: Flat<T>)
    ensures flat == Flatten(v, name)
    decreases v
  {
    flat := [];
    if v.Tensor? { return [(name, v.tensor)]; }
    if !Composite(v) { return; }
    for i := 0 to |v.kids|
      invariant flat == FlattenUpTo(v, name, i)
    {
      var child := FlattenIoStructure(v.kids[i], Child(v, name, i));
      flat := Update(flat, child);
    }
  }

  // ----- when the two agree

  function Names<T>(flat: Flat<T>): (names: seq<string>)
    ensures |names| == |flat|
  {
    seq(|flat|, i requires 0 <= i < |flat| => flat[i].0)
  }

  function Members(names: seq<string>): set<string> {
    set n | n in names
  }

  lemma DistinctCons(name: string, rest: seq<string>)
    ensures Distinct([name] + rest) <==> Distinct(rest) && name !in rest
  {
    DistinctParts([name], rest);
  }

  lemma MembersCons(name: string, rest: seq<string>)
    ensures Members([name] + rest) == {name} + Members(rest)
  {
  }

  lemma NamesCons<T>(name: string, t: T, rest: Flat<T>)
    ensures Names([(name, t)] + rest) == [name] + Names(rest)
  {
  }

  lemma {:induction false} PutNames<T>(flat: Flat<T>, name: string, t: T)
    ensures Members(Names(Put(flat, name, t))) == Members(Names(flat)) + {name}
    ensures Distinct(Names(flat)) ==> Distinct(Names(Put(flat, name, t)))
    ensures name !in Names(flat) ==> Put(flat, name, t) == flat + [(name, t)]
  {
    if flat == [] {
      assert Names(Put(flat, name, t)) == [name];
    } else {
      var first, rest := flat[0].0, flat[1..];
      assert flat == [(first, flat[0].1)] + rest;
      NamesCons(first, flat[0].1, rest);
      DistinctCons(first, Names(rest));
      MembersCons(first, Names(rest));
      if first == name {
        NamesCons(name, t, rest);
      } else {
        var later := Put(rest, name, t);
        PutNames(rest, name, t);
        NamesCons(first, flat[0].1, later);
        DistinctCons(first, Names(later));
        MembersCons(first, Names(later));
        assert first in Names(later) <==> first in Members(Names(later));
        assert first in Names(rest) <==> first in Members(Names(rest));
      }
    }
  }

  lemma {:induction false} UpdateNames<T>(flat: Flat<T>, more: Flat<T>)
    ensures Members(Names(Update(flat, more))) == Members(Names(flat)) + Members(Names(more))
    ensures Distinct(Names(flat)) ==> Distinct(Names(Update(flat, more)))
  {
    if more != [] {
      var front, last := more[..|more| - 1], more[|more| - 1];
      UpdateNames(flat, front);
      PutNames(Update(flat, front), last.0, last.1);
      assert Names(more) == Names(front) + [last.0];
    }
  }

  lemma {:induction false} UpdateAppends<T>(flat: Flat<T>, more: Flat<T>)
    requires Distinct(Names(flat + more))
    ensures Update(flat, more) == flat + more
  {
    if more == [] {
      assert flat + more == flat;
    } else {
      var front, last := more[..|more| - 1], more[|more| - 1];
      assert flat + more == (flat + front) + [last];
      assert Names(flat + more) == Names(flat + front) + [last.0];
      DistinctSnoc(Names(flat + front), last.0);
      UpdateAppends(flat, front);
      PutNames(flat + front, last.0, last.1);
    }
  }

  /** Flattening keeps each name once. */
  lemma {:induction false} FlattenNames<T>(v: Value<T>, name: string)
    ensures Distinct(Names(Flatten(v, name)))
    ensures Members(Names(Flatten(v, name))) == Members(Names(Leaves(v, name)))
    decreases v, 1, 0
  {
    if Composite(v) { FlattenNamesUpTo(v, name, |v.kids|); }
  }

  lemma {:induction false} FlattenNamesUpTo<T>(v: Value<T>, name: string, i: nat)
    requires Composite(v) && i <= |v.kids|
    ensures Distinct(Names(FlattenUpTo(v, name, i)))
    ensures Members(Names(FlattenUpTo(v, name, i))) == Members(Names(LeavesUpTo(v, name, i)))
    decreases v, 0, i
  {
    if i > 0 {
      var child := Child(v, name, i - 1);
      FlattenNamesUpTo(v, name, i - 1);
      FlattenNames(v.kids[i - 1], child);
      UpdateNames(FlattenUpTo(v, name, i - 1), Flatten(v.kids[i - 1], child));
      NamesJoin(LeavesUpTo(v, name, i - 1), Leaves(v.kids[i - 1], child));
    }
  }

  lemma NamesJoin<T>(a: Flat<T>, b: Flat<T>)
    ensures Names(a + b) == Names(a) + Names(b)
    ensures Members(Names(a + b)) == Members(Names(a)) + Members(Names(b))
    ensures Distinct(Names(a + b)) ==> Distinct(Names(a)) && Distinct(Names(b))
  {
    assert Names(a + b) == Names(a) + Names(b);
    DistinctParts(Names(a), Names(b));
  }

  lemma {:induction false} DistinctFlattens<T>(v: Value<T>, name: string)
    requires Distinct(Names(Leaves(v, name)))
    ensures Flatten(v, name) == Leaves(v, name)
    decreases v, 1, 0
  {
    if Composite(v) { DistinctFlattensUpTo(v, name, |v.kids|); }
  }

  lemma {:induction false} DistinctFlattensUpTo<T>(v: Value<T>, name: string, i: nat)
    requires Composite(v) && i <= |v.kids| && Distinct(Names(LeavesUpTo(v, name, i)))
    ensures FlattenUpTo(v, name, i) == LeavesUpTo(v, name, i)
    decreases v, 0, i
  {
    if i > 0 {
      var child := Child(v, name, i - 1);
      NamesJoin(LeavesUpTo(v, name, i - 1), Leaves(v.kids[i - 1], child));
      DistinctFlattensUpTo(v, name, i - 1);
      DistinctFlattens(v.kids[i - 1], child);
      UpdateAppends(LeavesUpTo(v, name, i - 1), Leaves(v.kids[i - 1], child));
    }
  }

  /** Flattening and description yield the same leaves under the same names in the same order exactly
      when the described names differ; otherwise flattening yields fewer. */
  lemma FlattenAgreesWithDescription<T>(v: Value<T>, name: string)
    ensures Distinct(Names(Leaves(v, name))) <==> Flatten(v, name) == Leaves(v, name)
    ensures !Distinct(Names(Leaves(v, name))) ==> |Flatten(v, name)| < |Leaves(v, name)|
  {
    FlattenNames(v, name);
    DistinctSize(Names(Flatten(v, name)), Members(Names(Flatten(v, name))));
    DistinctSize(Names(Leaves(v, name)), Members(Names(Leaves(v, name))));
    if Distinct(Names(Leaves(v, name))) { DistinctFlattens(v, name); }
  }

  // ----- publishing

  /** Refused when a name repeats; then the name of each description is its port. */
  method ValidateAndAdd(names: seq<string>, current: seq<string>) returns (r: Option<seq<string>>)
    requires Distinct(current)
    ensures r == if Distinct(current + names) then Some(current + names) else None
  {
    var list := current;
    for i := 0 to |names|
      invariant list == current + names[..i] && Distinct(list)
    {
      assert current + names[..i + 1] == list + [names[i]];
      if names[i] in list {
        Repeats(current, names, i);
        return None;
      }
      list := list + [names[i]];
    }
    assert names[..|names|] == names;
    return Some(list);
  }

  lemma Repeats(current: seq<string>, names: seq<string>, i: nat)
    requires i < |names| && names[i] in current + names[..i]
    ensures !Distinct(current + names)
  {
    var all := current + names;
    var j :| 0 <= j < |current| + i && (current + names[..i])[j] == names[i];
    assert all[j] == all[|current| + i];
  }

  /** Which port each traced value carries; a value keeps the first port it was published under. */
  type Carried<T> = map<T, string>

  function Carrying<T(==)>(carried: Carried<T>, leaf: T, port: string): Carried<T> {
    if leaf in carried then carried else carried[leaf := port]
  }

  function CarryingAll<T(==)>(carried: Carried<T>, leaves: seq<T>, ports: seq<string>): Carried<T>
    requires |leaves| == |ports|
  {
    if leaves == [] then carried
    else
      var n := |leaves| - 1;
      Carrying(CarryingAll(carried, leaves[..n], ports[..n]), leaves[n], ports[n])
  }

  function Tensors<T>(flat: Flat<T>): (r: seq<T>)
    ensures |r| == |flat| && forall i | 0 <= i < |r| :: r[i] == flat[i].1
  {
    seq(|flat|, i requires 0 <= i < |flat| => flat[i].1)
  }

  /** Pairs the leaves of an output with the ports of its descriptions; nothing is published when their
      numbers differ. */
  method PublishOutputPorts<T(==)>(v: Value<T>, name: string, ports: seq<string>, before: Carried<T>)
    returns (carried: Carried<T>)
    ensures |Flatten(v, name)| != |ports| ==> carried == before
    ensures |Flatten(v, name)| == |ports| ==> carried == CarryingAll(before, Tensors(Flatten(v, name)), ports)
  {
    var leaves := FlattenIoStructure(v, name);
    carried := before;
    if |leaves| != |ports| { return; }
    ghost var all := Tensors(leaves);
    for i := 0 to |leaves|
      invariant carried == CarryingAll(before, all[..i], ports[..i])
    {
      carried := Carrying(carried, leaves[i].1, ports[i]);
      assert all[..i + 1][..i] == all[..i] && ports[..i + 1][..i] == ports[..i];
    }
    assert all[..|all|] == all && ports[..|ports|] == ports;
  }

  /** The names of an output's descriptions. Semantics may rename a single leaf, and no other. */
  function DescribedNames<T>(v: Value<T>, name: string, renamed: Option<string>): (names: seq<string>)
    ensures |names| == |Leaves(v, name)|
  {
    if |Leaves(v, name)| == 1 && renamed.Some? then [renamed.value] else Names(Leaves(v, name))
  }

  /** The first place of an element. */
  function FirstPlace<T(==)>(list: seq<T>, x: T): (i: nat)
    requires x in list
    ensures i < |list| && list[i] == x && x !in list[..i]
  {
    if list[0] == x then 0
    else
      assert list == [list[0]] + list[1..];
      1 + FirstPlace(list[1..], x)
  }

  lemma {:induction false} FirstPlaceIs<T>(list: seq<T>, x: T, i: nat)
    requires i < |list| && list[i] == x && x !in list[..i]
    ensures FirstPlace(list, x) == i
  {
    if i > 0 {
      assert list[..i][0] == list[0] && list[..i][1..] == list[1..][..i - 1];
      FirstPlaceIs(list[1..], x, i - 1);
    }
  }

  function PortIn<T(==)>(carried: Carried<T>, leaf: T): Option<string> {
    if leaf in carried then Some(carried[leaf]) else None
  }

  /** A value keeps the port it carried before; otherwise it gets the port of the first leaf it is. */
  function OwnPort<T(==)>(before: Carried<T>, leaves: seq<T>, ports: seq<string>, leaf: T): Option<string>
    requires |leaves| == |ports|
  {
    if leaf in before then Some(before[leaf])
    else if leaf in leaves then Some(ports[FirstPlace(leaves, leaf)])
    else None
  }

  lemma {:induction false} FirstPortStays<T>(before: Carried<T>, leaves: seq<T>, ports: seq<string>, leaf: T)
    requires |leaves| == |ports|
    ensures PortIn(CarryingAll(before, leaves, ports), leaf) == OwnPort(before, leaves, ports, leaf)
  {
    if leaves != [] {
      var n := |leaves| - 1;
      var front := leaves[..n];
      FirstPortStays(before, front, ports[..n], leaf);
      assert leaves == front + [leaves[n]];
      if leaf in front {
        var j := FirstPlace(front, leaf);
        assert leaves[..j] == front[..j];
        FirstPlaceIs(leaves, leaf, j);
      } else if leaf == leaves[n] {
        FirstPlaceIs(leaves, leaf, n);
      }
    }
  }

  /** Describing an output, checking its names and publishing its leaves. It is refused exactly when a
      described name repeats. Otherwise every leaf carries the port of its own description, unless it
      carried one before, or is an earlier leaf of this output too: then it keeps that one. */
  method AddOutput<T(==)>(v: Value<T>, name: string, renamed: Option<string>, current: seq<string>, before: Carried<T>)
    returns (r: Option<(seq<string>, Carried<T>)>)
    requires Distinct(current)
    ensures r.Some? <==> Distinct(current + DescribedNames(v, name, renamed))
    ensures r.Some? ==> r.value.0 == current + DescribedNames(v, name, renamed)
    ensures r.Some? ==> forall leaf ::
      PortIn(r.value.1, leaf) == OwnPort(before, Tensors(Leaves(v, name)), DescribedNames(v, name, renamed), leaf)
  {
    var names := DescribedNames(v, name, renamed);
    var list := ValidateAndAdd(names, current);
    if list.None? { return None; }
    DistinctParts(current, names);
    LeavesAreFlattened(v, name, renamed);
    var carried := PublishOutputPorts(v, name, names, before);
    forall leaf { FirstPortStays(before, Tensors(Leaves(v, name)), names, leaf); }
    r := Some((list.value, carried));
  }

  /** Leaves that are different values and carried no port are published each under its own name. */
  lemma LeavesReachTheirPorts<T>(v: Value<T>, name: string, renamed: Option<string>, before: Carried<T>, i: nat)
    requires i < |Leaves(v, name)| && Leaves(v, name)[i].1 !in before
    requires Distinct(Tensors(Leaves(v, name)))
    ensures OwnPort(before, Tensors(Leaves(v, name)), DescribedNames(v, name, renamed), Leaves(v, name)[i].1) ==
      Some(DescribedNames(v, name, renamed)[i])
  {
    var leaves := Tensors(Leaves(v, name));
    assert leaves[i] in leaves;
    FirstPlaceIs(leaves, leaves[i], i);
  }

  /** Once the described names differ, the leaves are flattened as they were described. */
  lemma LeavesAreFlattened<T>(v: Value<T>, name: string, renamed: Option<string>)
    requires Distinct(DescribedNames(v, name, renamed))
    ensures Flatten(v, name) == Leaves(v, name)
  {
    FlattenAgreesWithDescription(v, name);
  }
}
