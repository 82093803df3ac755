/** Packing flat tensors into a nested parameter and unpacking them again
    (leapp/utils/tensor_description.py). */
module NestedPacking {
  import opened Lists
  import opened NestedIo
  import opened Ports

  /** The format of a parameter: its tensors' names in a nest of lists and dictionaries. */
  datatype Format = Leaf(name: string) | ListOf(kids: seq<Format>) | DictOf(keys: seq<string>, kids: seq<Format>)

  datatype Step = At(position: nat) | Of(key: string)

  type Path = seq<Step>

  type Env<T> = map<string, Value<T>>

  /** Dictionaries have one key for each entry, and no key twice. */
  predicate WellFormed(f: Format)
    decreases f
  {
    f.Leaf? || ((f.DictOf? ==> |f.keys| == |f.kids| && Distinct(f.keys)) &&
                forall i | 0 <= i < |f.kids| :: WellFormed(f.kids[i]))
  }

  // ----- packing

  /** The nested value built from the flat tensors; absent when a name is undefined. */
  function Build<T>(f: Format, env: Env<T>): Option<Value<T>>
    decreases f, 1, 0
  {
    if f.Leaf? then (if f.name in env then Some(env[f.name]) else None)
    else
      var kids := BuildUpTo(f, env, |f.kids|);
      if kids.None? then None
      else if f.ListOf? then Some(List(kids.value)) else Some(Dict(f.keys, kids.value))
  }

  function BuildUpTo<T>(f: Format, env: Env<T>, i: nat): (r: Option<seq<Value<T>>>)
    requires !f.Leaf? && i <= |f.kids|
    ensures r.Some? ==> |r.value| == i
    ensures r.Some? ==> forall j | 0 <= j < i :: Build(f.kids[j], env) == Some(r.value[j])
    decreases f, 0, i
  {
    if i == 0 then Some([])
    else
      var front, last := BuildUpTo(f, env, i - 1), Build(f.kids[i - 1], env);
      if front.Some? && last.Some? then Some(front.value + [last.value]) else None
  }

  /** The packing assignment; none is written for a bare tensor that has the parameter's name. */
  function Pack<T>(p: string, f: Format, env: Env<T>): Option<Env<T>> {
    if f == Leaf(p) then Some(env)
    else if Build(f, env).None? then None
    else Some(env[p := Build(f, env).value])
  }

  // ----- unpacking

  function KeyPlace(keys: seq<string>, key: string): (i: nat)
    ensures i <= |keys| && (i < |keys| ==> keys[i] == key) && forall j | 0 <= j < i :: keys[j] != key
  {
    if keys == [] || keys[0] == key then 0 else 1 + KeyPlace(keys[1..], key)
  }

  function Enter<T>(v: Value<T>, step: Step): Option<Value<T>> {
    match step
    case At(i) => if v.List? && i < |v.kids| then Some(v.kids[i]) else None
    case Of(k) =>
      if v.Dict? && KeyPlace(v.keys, k) < |v.keys| && KeyPlace(v.keys, k) < |v.kids|
      then Some(v.kids[KeyPlace(v.keys, k)]) else None
  }

  /** Following an accessor path from the parameter; absent when a step does not apply. */
  function Access<T>(v: Value<T>, path: Path): Option<Value<T>> {
    if path == [] then Some(v)
    else
      var before := Access(v, path[..|path| - 1]);
      if before.None? then None else Enter(before.value, path[|path| - 1])
  }

  function StepTo(f: Format, i: nat): Step
    requires WellFormed(f) && !f.Leaf? && i < |f.kids|
  {
    if f.ListOf? then At(i) else Of(f.keys[i])
  }

  datatype Assignment = Assignment(name: string, path: Path)

  /** One assignment for each tensor, in order. */
  function Assignments(f: Format, path: Path): seq<Assignment>
    requires WellFormed(f)
    decreases f, 1, 0
  {
    if f.Leaf? then [Assignment(f.name, path)] else AssignmentsUpTo(f, path, |f.kids|)
  }

  function AssignmentsUpTo(f: Format, path: Path, i: nat): seq<Assignment>
    requires WellFormed(f) && !f.Leaf? && i <= |f.kids|
    decreases f, 0, i
  {
    if i == 0 then []
    else AssignmentsUpTo(f, path, i - 1) + Assignments(f.kids[i - 1], path + [StepTo(f, i - 1)])
  }

  /** The unpacking assignments; none for a bare tensor that has the parameter's name. */
  function Unpacking(p: string, f: Format): seq<Assignment>
    requires WellFormed(f)
  {
    if f == Leaf(p) then [] else Assignments(f, [])
  }

  /** Running assignments from the k-th on; absent when one fails. */
  function Run<T>(assignments: seq<Assignment>, k: nat, p: string, env: Env<T>): Option<Env<T>>
    requires k <= |assignments|
    decreases |assignments| - k
  {
    if k == |assignments| then Some(env)
    else if p !in env then None
    else
      var v := Access(env[p], assignments[k].path);
      if v.None? then None else Run(assignments, k + 1, p, env[assignments[k].name := v.value])
  }

  // ----- every tensor's path leads to its place

  lemma KeyIsFound(keys: seq<string>, i: nat)
    requires Distinct(keys) && i < |keys|
    ensures KeyPlace(keys, keys[i]) == i
  {
    var j := KeyPlace(keys, keys[i]);
    assert j <= i;
    assert keys[j] == keys[i];
  }

  lemma EnterBuilt<T>(f: Format, env: Env<T>, i: nat)
    requires WellFormed(f) && !f.Leaf? && i < |f.kids| && Build(f, env).Some?
    ensures Build(f.kids[i], env).Some?
    ensures Enter(Build(f, env).value, StepTo(f, i)) == Build(f.kids[i], env)
  {
    if f.DictOf? { KeyIsFound(f.keys, i); }
  }

  /** What each assignment of a format reads from a root in which the format's value stands at `path`. */
  predicate Leads<T(==)>(root: Value<T>, env: Env<T>, a: Assignment) {
    a.name in env && Access(root, a.path) == Some(env[a.name])
  }

  lemma {:induction false} PathsLead<T>(root: Value<T>, f: Format, path: Path, env: Env<T>)
    requires WellFormed(f) && Build(f, env).Some? && Access(root, path) == Build(f, env)
    ensures forall a | a in Assignments(f, path) :: Leads(root, env, a)
    decreases f, 1, 0
  {
    if !f.Leaf? { PathsLeadUpTo(root, f, path, env, |f.kids|); }
  }

  lemma {:induction false} PathsLeadUpTo<T>(root: Value<T>, f: Format, path: Path, env: Env<T>, i: nat)
    requires WellFormed(f) && !f.Leaf? && i <= |f.kids| && Build(f, env).Some? && Access(root, path) == Build(f, env)
    ensures forall a | a in AssignmentsUpTo(f, path, i) :: Leads(root, env, a)
    decreases f, 0, i
  {
    if i > 0 {
      var step := StepTo(f, i - 1);
      PathsLeadUpTo(root, f, path, env, i - 1);
      EnterBuilt(f, env, i - 1);
      assert (path + [step])[..|path|] == path;
      PathsLead(root, f.kids[i - 1], path + [step], env);
    }
  }

  // ----- running assignments whose values are known

  function Final<T>(assignments: seq<Assignment>, k: nat, env: Env<T>, values: seq<Value<T>>): Env<T>
    requires k <= |assignments| == |values|
    decreases |assignments| - k
  {
    if k == |assignments| then env else Final(assignments, k + 1, env[assignments[k].name := values[k]], values)
  }

  lemma {:induction false} RunIsFinal<T>(assignments: seq<Assignment>, k: nat, p: string, root: Value<T>, env: Env<T>,
                                         values: seq<Value<T>>)
    requires k <= |assignments| == |values| && (k < |assignments| ==> p in env && env[p] == root)
    requires forall j | k <= j < |assignments| :: Access(root, assignments[j].path) == Some(values[j])
    requires forall j | k <= j < |assignments| - 1 :: assignments[j].name != p
    ensures Run(assignments, k, p, env) == Some(Final(assignments, k, env, values))
    decreases |assignments| - k
  {
    if k < |assignments| {
      RunIsFinal(assignments, k + 1, p, root, env[assignments[k].name := values[k]], values);
    }
  }

  lemma {:induction false} FinalHolds<T>(assignments: seq<Assignment>, k: nat, env: Env<T>, values: seq<Value<T>>,
                                         name: string, value: Value<T>)
    requires k <= |assignments| == |values|
    requires forall j | k <= j < |assignments| && assignments[j].name == name :: values[j] == value
    requires (name in env && env[name] == value) || exists j :: k <= j < |assignments| && assignments[j].name == name
    ensures name in Final(assignments, k, env, values) && Final(assignments, k, env, values)[name] == value
    decreases |assignments| - k
  {
    if k < |assignments| {
      FinalHolds(assignments, k + 1, env[assignments[k].name := values[k]], values, name, value);
    }
  }

  // ----- packing, then unpacking

  /** The parameter's own name stands for no tensor but the last. */
  predicate Unshadowed(p: string, f: Format)
    requires WellFormed(f)
  {
    forall k | 0 <= k < |Assignments(f, [])| - 1 :: Assignments(f, [])[k].name != p
  }

  function Current<T>(assignments: seq<Assignment>, env: Env<T>): seq<Value<T>>
    requires forall a | a in assignments :: a.name in env
  {
    seq(|assignments|, k requires 0 <= k < |assignments| => assert assignments[k] in assignments; env[assignments[k].name])
  }

  /** Packing the flat tensors and unpacking them restores every one, provided the parameter's name is
      not that of a tensor before the last. */
  lemma PackThenUnpack<T>(p: string, f: Format, env: Env<T>)
    requires WellFormed(f) && Unshadowed(p, f) && Build(f, env).Some?
    ensures Pack(p, f, env).Some? && Run(Unpacking(p, f), 0, p, Pack(p, f, env).value).Some?
    ensures
      var after := Run(Unpacking(p, f), 0, p, Pack(p, f, env).value).value;
      forall a | a in Assignments(f, []) :: a.name in env && a.name in after && after[a.name] == env[a.name]
  {
    var assignments, root := Assignments(f, []), Build(f, env).value;
    PathsLead(root, f, [], env);
    assert forall a | a in assignments :: Leads(root, env, a);
    if f != Leaf(p) {
      var values := Current(assignments, env);
      forall j | 0 <= j < |assignments| ensures Access(root, assignments[j].path) == Some(values[j]) {
        assert Leads(root, env, assignments[j]);
      }
      RunIsFinal(assignments, 0, p, root, env[p := root], values);
      forall a | a in assignments
        ensures a.name in Final(assignments, 0, env[p := root], values)
        ensures Final(assignments, 0, env[p := root], values)[a.name] == env[a.name]
      {
        FinalHolds(assignments, 0, env[p := root], values, a.name, env[a.name]);
      }
    }
  }

  lemma {:induction false} NothingInTensor<T>(t: T, path: Path)
    requires path != []
    ensures Access(Tensor(t), path).None?
  {
    if |path| > 1 { NothingInTensor(t, path[..|path| - 1]); }
  }

  lemma {:induction false} LongPaths(f: Format, path: Path)
    requires WellFormed(f)
    ensures forall a | a in Assignments(f, path) :: |a.path| >= |path| && (!f.Leaf? ==> |a.path| > |path|)
    decreases f, 1, 0
  {
    if !f.Leaf? { LongPathsUpTo(f, path, |f.kids|); }
  }

  lemma {:induction false} LongPathsUpTo(f: Format, path: Path, i: nat)
    requires WellFormed(f) && !f.Leaf? && i <= |f.kids|
    ensures forall a | a in AssignmentsUpTo(f, path, i) :: |a.path| > |path|
    decreases f, 0, i
  {
    if i > 0 {
      LongPathsUpTo(f, path, i - 1);
      LongPaths(f.kids[i - 1], path + [StepTo(f, i - 1)]);
    }
  }

  /** When a tensor before the last has the parameter's name, its assignment destroys the nested value
      and the next one fails. */
  lemma ShadowedFails<T>(p: string, f: Format, env: Env<T>)
    requires WellFormed(f) && !Unshadowed(p, f) && Build(f, env).Some?
    requires forall a | a in Assignments(f, []) && a.name in env :: env[a.name].Tensor?
    ensures Pack(p, f, env).Some? && Run(Unpacking(p, f), 0, p, Pack(p, f, env).value).None?
  {
    var assignments, root := Assignments(f, []), Build(f, env).value;
    PathsLead(root, f, [], env);
    LongPaths(f, []);
    FailsFrom(assignments, 0, p, root, env, env[p := root]);
  }

  lemma {:induction false} FailsFrom<T>(assignments: seq<Assignment>, k: nat, p: string, root: Value<T>, env: Env<T>, now: Env<T>)
    requires k <= |assignments| && p in now && now[p] == root
    requires forall a | a in assignments :: Leads(root, env, a) && env[a.name].Tensor? && a.path != []
    requires exists j :: k <= j < |assignments| - 1 && assignments[j].name == p
    ensures Run(assignments, k, p, now).None?
    decreases |assignments| - k
  {
    var a := assignments[k];
    assert a in assignments && Leads(root, env, a);
    var next := now[a.name := env[a.name]];
    if a.name == p {
      assert assignments[k + 1] in assignments;
      NothingInTensor(env[p].tensor, assignments[k + 1].path);
    } else {
      FailsFrom(assignments, k + 1, p, root, env, next);
    }
  }

  /** A dictionary with an entry named like the parameter: `x = x["x"]` comes before `y = x["y"]`. */
  lemma ShadowingEntry(t: int, u: int)
    ensures
      var f, env := DictOf(["x", "y"], [Leaf("x"), Leaf("y")]), map["x" := Tensor(t), "y" := Tensor(u)];
      WellFormed(f) && Pack("x", f, env).Some? && Run(Unpacking("x", f), 0, "x", Pack("x", f, env).value).None?
  {
    var f, env := DictOf(["x", "y"], [Leaf("x"), Leaf("y")]), map["x" := Tensor(t), "y" := Tensor(u)];
    var x, y := Of("x"), Of("y");
    assert [] + [x] == [x] && [] + [y] == [y] && StepTo(f, 0) == x && StepTo(f, 1) == y;
    assert AssignmentsUpTo(f, [], 1) == AssignmentsUpTo(f, [], 0) + Assignments(Leaf("x"), [x]);
    assert AssignmentsUpTo(f, [], 2) == AssignmentsUpTo(f, [], 1) + Assignments(Leaf("y"), [y]);
    assert Assignments(f, []) == [Assignment("x", [x]), Assignment("y", [y])];
    assert BuildUpTo(f, env, 0) == Some([]) && Build(f.kids[0], env).Some? && Build(f.kids[1], env).Some?;
    assert BuildUpTo(f, env, 1).Some? && BuildUpTo(f, env, 2).Some?;
    assert Assignments(f, [])[0].name == "x";
    ShadowedFails("x", f, env);
  }

  // ----- unpacking, then packing

  /** The value has the format's nest of lists and dictionaries. */
  predicate Matches<T>(f: Format, v: Value<T>)
    decreases f
  {
    match f
    case Leaf(_) => true
    case ListOf(kids) => v.List? && |v.kids| == |kids| && forall i | 0 <= i < |kids| :: Matches(kids[i], v.kids[i])
    case DictOf(keys, kids) =>
      v.Dict? && v.keys == keys && |v.kids| == |kids| && forall i | 0 <= i < |kids| :: Matches(kids[i], v.kids[i])
  }

  lemma EnterMatched<T>(f: Format, v: Value<T>, i: nat)
    requires WellFormed(f) && !f.Leaf? && i < |f.kids| && Matches(f, v)
    ensures Composite(v) && |v.kids| == |f.kids| && Enter(v, StepTo(f, i)) == Some(v.kids[i]) && Matches(f.kids[i], v.kids[i])
  {
    if f.DictOf? { KeyIsFound(f.keys, i); }
  }

  lemma {:induction false} PathsReach<T>(root: Value<T>, f: Format, path: Path, v: Value<T>)
    requires WellFormed(f) && Matches(f, v) && Access(root, path) == Some(v)
    ensures forall a | a in Assignments(f, path) :: Access(root, a.path).Some?
    decreases f, 1, 0
  {
    if !f.Leaf? { PathsReachUpTo(root, f, path, v, |f.kids|); }
  }

  lemma {:induction false} PathsReachUpTo<T>(root: Value<T>, f: Format, path: Path, v: Value<T>, i: nat)
    requires WellFormed(f) && !f.Leaf? && i <= |f.kids| && Matches(f, v) && Access(root, path) == Some(v)
    ensures forall a | a in AssignmentsUpTo(f, path, i) :: Access(root, a.path).Some?
    decreases f, 0, i
  {
    if i > 0 {
      var step := StepTo(f, i - 1);
      PathsReachUpTo(root, f, path, v, i - 1);
      EnterMatched(f, v, i - 1);
      assert (path + [step])[..|path|] == path;
      PathsReach(root, f.kids[i - 1], path + [step], v.kids[i - 1]);
    }
  }

  lemma {:induction false} BuildsBack<T>(root: Value<T>, f: Format, path: Path, v: Value<T>, env: Env<T>)
    requires WellFormed(f) && Matches(f, v) && Access(root, path) == Some(v)
    requires forall a | a in Assignments(f, path) :: Leads(root, env, a)
    ensures Build(f, env) == Some(v)
    decreases f, 1, 0
  {
    if f.Leaf? {
      assert Leads(root, env, Assignments(f, path)[0]);
    } else {
      EqualKids(f, v);
      BuildsBackUpTo(root, f, path, v, env, |f.kids|);
      assert v.kids[..|f.kids|] == v.kids;
    }
  }

  lemma EqualKids<T>(f: Format, v: Value<T>)
    requires WellFormed(f) && !f.Leaf? && Matches(f, v)
    ensures Composite(v) && |v.kids| == |f.kids|
  {
  }

  lemma {:induction false} BuildsBackUpTo<T>(root: Value<T>, f: Format, path: Path, v: Value<T>, env: Env<T>, i: nat)
    requires WellFormed(f) && !f.Leaf? && i <= |f.kids| && Matches(f, v) && Access(root, path) == Some(v)
    requires Composite(v) && |v.kids| == |f.kids|
    requires forall a | a in AssignmentsUpTo(f, path, i) :: Leads(root, env, a)
    ensures BuildUpTo(f, env, i) == Some(v.kids[..i])
    decreases f, 0, i
  {
    if i > 0 {
      var step := StepTo(f, i - 1);
      BuildsBackUpTo(root, f, path, v, env, i - 1);
      EnterMatched(f, v, i - 1);
      assert (path + [step])[..|path|] == path;
      BuildsBack(root, f.kids[i - 1], path + [step], v.kids[i - 1], env);
      assert v.kids[..i] == v.kids[..i - 1] + [v.kids[i - 1]];
    }
  }

  predicate DistinctNames(assignments: seq<Assignment>) {
    forall i, j | 0 <= i < j < |assignments| :: assignments[i].name != assignments[j].name
  }

  function Reached<T>(root: Value<T>, assignments: seq<Assignment>): seq<Value<T>>
    requires forall a | a in assignments :: Access(root, a.path).Some?
  {
    seq(|assignments|, k requires 0 <= k < |assignments| =>
      assert assignments[k] in assignments; Access(root, assignments[k].path).value)
  }

  /** Unpacking a nested value and packing its tensors rebuilds it, when the tensors' names differ and
      the parameter's name is not that of a tensor before the last. */
  lemma UnpackThenPack<T>(p: string, f: Format, env: Env<T>)
    requires WellFormed(f) && Unshadowed(p, f) && DistinctNames(Assignments(f, []))
    requires p in env && Matches(f, env[p])
    ensures Run(Unpacking(p, f), 0, p, env).Some?
    ensures
      var packed := Pack(p, f, Run(Unpacking(p, f), 0, p, env).value);
      packed.Some? && p in packed.value && packed.value[p] == env[p]
  {
    if f != Leaf(p) {
      var assignments, root := Assignments(f, []), env[p];
      PathsReach(root, f, [], root);
      var values := Reached(root, assignments);
      RunIsFinal(assignments, 0, p, root, env, values);
      var after := Final(assignments, 0, env, values);
      forall a | a in assignments ensures Leads(root, after, a) {
        var k :| 0 <= k < |assignments| && assignments[k] == a;
        FinalHolds(assignments, 0, env, values, a.name, values[k]);
      }
      BuildsBack(root, f, [], root, after);
    }
  }
}
