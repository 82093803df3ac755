/** From a nested value to its format and back to its leaves (leapp/utils/tensor_description.py):
    description drops what holds no tensor, so positions in a list may shift, and the accessor paths
    of the format need not lead to the leaves they were named for. */
module DescribedPaths {
  import opened Ports
  import opened Lists
  import Io = NestedIo
  import Pack = NestedPacking

  type Nested<T> = Io.Value<T>

  /** Dictionaries have one key for each entry, and no key twice. */
  predicate Sound<T>(v: Nested<T>) {
    match v
    case Tensor(_) => true
    case Other => true
    case List(kids) => forall i | 0 <= i < |kids| :: Sound(kids[i])
    case Dict(keys, kids) =>
      |keys| == |kids| && Distinct(keys) && forall i | 0 <= i < |kids| :: Sound(kids[i])
  }

  /** A tensor, a list or a dictionary: everything else is dropped by description. */
  predicate Kept<T>(v: Nested<T>) {
    v.Tensor? || Io.Composite(v)
  }

  function KeptBefore<T>(v: Nested<T>, i: nat): (n: nat)
    requires Io.Composite(v) && i <= |v.kids|
    ensures n <= i && (n == i <==> forall j | 0 <= j < i :: Kept(v.kids[j]))
  {
    if i == 0 then 0 else KeptBefore(v, i - 1) + if Kept(v.kids[i - 1]) then 1 else 0
  }

  // ----- the described format

  function Format<T>(v: Nested<T>, name: string): Pack.Format
    requires Kept(v)
    decreases v, 1, 0
  {
    if v.Tensor? then Pack.Leaf(name)
    else if v.List? then Pack.ListOf(Formats(v, name, |v.kids|))
    else Pack.DictOf(KeptKeys(v, |v.kids|), Formats(v, name, |v.kids|))
  }

  function Formats<T>(v: Nested<T>, name: string, i: nat): (r: seq<Pack.Format>)
    requires Io.Composite(v) && i <= |v.kids|
    ensures |r| == KeptBefore(v, i)
    decreases v, 0, i
  {
    if i == 0 then []
    else Formats(v, name, i - 1) +
         if Kept(v.kids[i - 1]) then [Format(v.kids[i - 1], Io.Child(v, name, i - 1))] else []
  }

  function KeptKeys<T>(v: Nested<T>, i: nat): (r: seq<string>)
    requires v.Dict? && Io.Composite(v) && i <= |v.kids|
    ensures |r| == KeptBefore(v, i) && forall k | k in r :: k in v.keys[..i]
  {
    if i == 0 then []
    else
      assert forall k | k in v.keys[..i - 1] :: k in v.keys[..i];
      KeptKeys(v, i - 1) + if Kept(v.kids[i - 1]) then [v.keys[i - 1]] else []
  }

  lemma {:induction false} FormatsPrefix<T>(v: Nested<T>, name: string, i: nat, n: nat)
    requires Io.Composite(v) && i <= n <= |v.kids|
    ensures Formats(v, name, i) <= Formats(v, name, n)
  {
    if i < n {
      FormatsPrefix(v, name, i, n - 1);
      assert Formats(v, name, n - 1) <= Formats(v, name, n);
    }
  }

  lemma {:induction false} KeysPrefix<T>(v: Nested<T>, i: nat, n: nat)
    requires v.Dict? && Io.Composite(v) && i <= n <= |v.kids|
    ensures KeptKeys(v, i) <= KeptKeys(v, n)
  {
    if i < n {
      KeysPrefix(v, i, n - 1);
      assert KeptKeys(v, n - 1) <= KeptKeys(v, n);
    }
  }

  /** A kept child stands in the format at the number of kept children before it. */
  lemma KeptAt<T>(v: Nested<T>, name: string, i: nat)
    requires Io.Composite(v) && i < |v.kids| && Kept(v.kids[i])
    ensures
      var k := KeptBefore(v, i);
      k < KeptBefore(v, |v.kids|) &&
      Formats(v, name, |v.kids|)[k] == Format(v.kids[i], Io.Child(v, name, i)) &&
      (v.Dict? ==> KeptKeys(v, |v.kids|)[k] == v.keys[i])
  {
    FormatsPrefix(v, name, i + 1, |v.kids|);
    assert Formats(v, name, i + 1)[KeptBefore(v, i)] == Format(v.kids[i], Io.Child(v, name, i));
    if v.Dict? {
      KeysPrefix(v, i + 1, |v.kids|);
      assert KeptKeys(v, i + 1)[KeptBefore(v, i)] == v.keys[i];
    }
  }

  lemma {:induction false} KeptKeysDiffer<T>(v: Nested<T>, i: nat)
    requires v.Dict? && Io.Composite(v) && i <= |v.kids| && Distinct(v.keys)
    ensures Distinct(KeptKeys(v, i))
  {
    if i > 0 {
      KeptKeysDiffer(v, i - 1);
      assert v.keys[i - 1] !in v.keys[..i - 1];
      var front := KeptKeys(v, i - 1);
      forall k | 0 <= k < |front| ensures front[k] != v.keys[i - 1] { assert front[k] in front; }
    }
  }

  lemma {:induction false} FormatIsWellFormed<T>(v: Nested<T>, name: string)
    requires Sound(v) && Kept(v)
    ensures Pack.WellFormed(Format(v, name))
    decreases v, 1, 0
  {
    if Io.Composite(v) {
      FormatsAreWellFormed(v, name, |v.kids|);
      if v.Dict? { KeptKeysDiffer(v, |v.kids|); }
    }
  }

  lemma {:induction false} FormatsAreWellFormed<T>(v: Nested<T>, name: string, i: nat)
    requires Sound(v) && Io.Composite(v) && i <= |v.kids|
    ensures forall k | 0 <= k < |Formats(v, name, i)| :: Pack.WellFormed(Formats(v, name, i)[k])
    decreases v, 0, i
  {
    if i > 0 {
      FormatsAreWellFormed(v, name, i - 1);
      if Kept(v.kids[i - 1]) { FormatIsWellFormed(v.kids[i - 1], Io.Child(v, name, i - 1)); }
    }
  }

  // ----- where the leaves are, and where the format looks for them

  function Behind(step: Pack.Step, paths: seq<Pack.Path>): (r: seq<Pack.Path>)
    ensures |r| == |paths|
  {
    seq(|paths|, k requires 0 <= k < |paths| => [step] + paths[k])
  }

  function StepIn<T>(v: Nested<T>, i: nat, position: nat): Pack.Step
    requires Io.Composite(v) && i < |v.kids|
  {
    if v.List? then Pack.At(position) else Pack.Of(v.keys[i])
  }

  /** The paths to the tensors of a value, in the order of its leaves; `described` counts positions as
      the format does. */
  function Paths<T>(v: Nested<T>, described: bool): seq<Pack.Path>
    decreases v, 1, 0
  {
    if v.Tensor? then [[]] else if Io.Composite(v) then PathsUpTo(v, described, |v.kids|) else []
  }

  function PathsUpTo<T>(v: Nested<T>, described: bool, i: nat): seq<Pack.Path>
    requires Io.Composite(v) && i <= |v.kids|
    decreases v, 0, i
  {
    if i == 0 then []
    else
      var position := if described then KeptBefore(v, i - 1) else i - 1;
      PathsUpTo(v, described, i - 1) + Behind(StepIn(v, i - 1, position), Paths(v.kids[i - 1], described))
  }

  lemma {:induction false} OnePathPerLeaf<T>(v: Nested<T>, described: bool, name: string)
    ensures |Paths(v, described)| == |Io.Leaves(v, name)|
    decreases v, 1, 0
  {
    if Io.Composite(v) { OnePathPerLeafUpTo(v, described, name, |v.kids|); }
  }

  lemma {:induction false} OnePathPerLeafUpTo<T>(v: Nested<T>, described: bool, name: string, i: nat)
    requires Io.Composite(v) && i <= |v.kids|
    ensures |PathsUpTo(v, described, i)| == |Io.LeavesUpTo(v, name, i)|
    decreases v, 0, i
  {
    if i > 0 {
      OnePathPerLeafUpTo(v, described, name, i - 1);
      OnePathPerLeaf(v.kids[i - 1], described, Io.Child(v, name, i - 1));
    }
  }

  // ----- the format's assignments

  /** Assignments for those leaves by those paths, behind a common one. */
  function Assigning<T>(leaves: Io.Flat<T>, path: Pack.Path, paths: seq<Pack.Path>): seq<Pack.Assignment>
    requires |leaves| == |paths|
  {
    seq(|leaves|, k requires 0 <= k < |leaves| => Pack.Assignment(leaves[k].0, path + paths[k]))
  }

  lemma AssigningBehind<T>(leaves: Io.Flat<T>, path: Pack.Path, step: Pack.Step, paths: seq<Pack.Path>)
    requires |leaves| == |paths|
    ensures Assigning(leaves, path, Behind(step, paths)) == Assigning(leaves, path + [step], paths)
  {
    forall k | 0 <= k < |leaves| ensures path + ([step] + paths[k]) == (path + [step]) + paths[k] {
    }
  }

  lemma AssigningJoin<T>(a: Io.Flat<T>, b: Io.Flat<T>, path: Pack.Path, x: seq<Pack.Path>, y: seq<Pack.Path>)
    requires |a| == |x| && |b| == |y|
    ensures Assigning(a + b, path, x + y) == Assigning(a, path, x) + Assigning(b, path, y)
  {
  }

  /** The format has one assignment for each leaf, under the leaf's name. */
  lemma {:induction false} FormatAssigns<T>(v: Nested<T>, name: string, path: Pack.Path)
    requires Sound(v) && Kept(v)
    ensures Pack.WellFormed(Format(v, name)) && |Paths(v, true)| == |Io.Leaves(v, name)|
    ensures Pack.Assignments(Format(v, name), path) == Assigning(Io.Leaves(v, name), path, Paths(v, true))
    decreases v, 1, 0
  {
    FormatIsWellFormed(v, name);
    OnePathPerLeaf(v, true, name);
    if v.Tensor? {
      assert path + [] == path;
    } else {
      FormatAssignsUpTo(v, name, path, |v.kids|);
      assert AssignsUpTo(v, name, path, |v.kids|);
    }
  }

  lemma {:induction false} FormatAssignsUpTo<T>(v: Nested<T>, name: string, path: Pack.Path, i: nat)
    requires Sound(v) && Io.Composite(v) && i <= |v.kids| && Pack.WellFormed(Format(v, name))
    ensures AssignsUpTo(v, name, path, i)
    decreases v, 0, i
  {
    if i > 0 {
      FormatAssignsUpTo(v, name, path, i - 1);
      if Kept(v.kids[i - 1]) {
        FormatAssigns(v.kids[i - 1], Io.Child(v, name, i - 1), path + [StepIn(v, i - 1, KeptBefore(v, i - 1))]);
      }
      AssignsNext(v, name, path, i);
    }
  }

  /** The format assigns the leaves of the first `i` entries. */
  predicate AssignsUpTo<T>(v: Nested<T>, name: string, path: Pack.Path, i: nat)
    requires Io.Composite(v) && i <= |v.kids| && Pack.WellFormed(Format(v, name))
  {
    |PathsUpTo(v, true, i)| == |Io.LeavesUpTo(v, name, i)| && KeptBefore(v, i) <= KeptBefore(v, |v.kids|) &&
    Pack.AssignmentsUpTo(Format(v, name), path, KeptBefore(v, i)) ==
      Assigning(Io.LeavesUpTo(v, name, i), path, PathsUpTo(v, true, i))
  }

  lemma AssignsNext<T>(v: Nested<T>, name: string, path: Pack.Path, i: nat)
    requires Sound(v) && Io.Composite(v) && 0 < i <= |v.kids| && Pack.WellFormed(Format(v, name))
    requires AssignsUpTo(v, name, path, i - 1)
    requires
      var kid, child := v.kids[i - 1], Io.Child(v, name, i - 1);
      Kept(kid) ==>
        Pack.WellFormed(Format(kid, child)) && |Paths(kid, true)| == |Io.Leaves(kid, child)| &&
        Pack.Assignments(Format(kid, child), path + [StepIn(v, i - 1, KeptBefore(v, i - 1))]) ==
          Assigning(Io.Leaves(kid, child), path + [StepIn(v, i - 1, KeptBefore(v, i - 1))], Paths(kid, true))
    ensures AssignsUpTo(v, name, path, i)
  {
    NextLeaves(v, name, path, i);
    FormatsPrefix(v, name, i, |v.kids|);
    if Kept(v.kids[i - 1]) { NextAssigns(v, name, path, i); }
  }

  /** The leaves of one more entry. */
  lemma NextLeaves<T>(v: Nested<T>, name: string, path: Pack.Path, i: nat)
    requires Io.Composite(v) && 0 < i <= |v.kids| && |PathsUpTo(v, true, i - 1)| == |Io.LeavesUpTo(v, name, i - 1)|
    ensures
      var kid, child, step := v.kids[i - 1], Io.Child(v, name, i - 1), StepIn(v, i - 1, KeptBefore(v, i - 1));
      |Paths(kid, true)| == |Io.Leaves(kid, child)| && |PathsUpTo(v, true, i)| == |Io.LeavesUpTo(v, name, i)| &&
      Assigning(Io.LeavesUpTo(v, name, i), path, PathsUpTo(v, true, i)) ==
        Assigning(Io.LeavesUpTo(v, name, i - 1), path, PathsUpTo(v, true, i - 1)) +
        Assigning(Io.Leaves(kid, child), path + [step], Paths(kid, true)) &&
      (!Kept(kid) ==> Assigning(Io.Leaves(kid, child), path + [step], Paths(kid, true)) == [])
  {
    var kid, child := v.kids[i - 1], Io.Child(v, name, i - 1);
    var step := StepIn(v, i - 1, KeptBefore(v, i - 1));
    OnePathPerLeaf(kid, true, child);
    AssigningJoin(Io.LeavesUpTo(v, name, i - 1), Io.Leaves(kid, child), path,
                  PathsUpTo(v, true, i - 1), Behind(step, Paths(kid, true)));
    AssigningBehind(Io.Leaves(kid, child), path, step, Paths(kid, true));
  }

  /** The assignments of one more kept entry. */
  lemma NextAssigns<T>(v: Nested<T>, name: string, path: Pack.Path, i: nat)
    requires Sound(v) && Io.Composite(v) && 0 < i <= |v.kids| && Pack.WellFormed(Format(v, name)) && Kept(v.kids[i - 1])
    requires KeptBefore(v, i) <= KeptBefore(v, |v.kids|) && Pack.WellFormed(Format(v.kids[i - 1], Io.Child(v, name, i - 1)))
    ensures
      var step := StepIn(v, i - 1, KeptBefore(v, i - 1));
      Pack.AssignmentsUpTo(Format(v, name), path, KeptBefore(v, i)) ==
        Pack.AssignmentsUpTo(Format(v, name), path, KeptBefore(v, i - 1)) +
        Pack.Assignments(Format(v.kids[i - 1], Io.Child(v, name, i - 1)), path + [step])
  {
    KeptAt(v, name, i - 1);
    var f := Format(v, name);
    assert f.kids[KeptBefore(v, i - 1)] == Format(v.kids[i - 1], Io.Child(v, name, i - 1));
    assert Pack.StepTo(f, KeptBefore(v, i - 1)) == StepIn(v, i - 1, KeptBefore(v, i - 1));
  }

  // ----- when the two kinds of paths agree

  /** No entry of a list that holds a tensor comes after one that description drops. */
  predicate Unshifted<T>(v: Nested<T>) {
    match v
    case Tensor(_) => true
    case Other => true
    case List(kids) => (forall i | 0 <= i < |kids| :: Unshifted(kids[i])) &&
      forall i, j | 0 <= j < i < |kids| && Paths(kids[i], false) != [] :: Kept(kids[j])
    case Dict(_, kids) => forall i | 0 <= i < |kids| :: Unshifted(kids[i])
  }

  predicate UnshiftedAt<T>(v: Nested<T>, i: nat)
    requires Io.Composite(v) && i < |v.kids|
  {
    Unshifted(v.kids[i]) && (v.List? && Paths(v.kids[i], false) != [] ==> KeptBefore(v, i) == i)
  }

  lemma SamePathsJoin(a: seq<Pack.Path>, b: seq<Pack.Path>, x: seq<Pack.Path>, y: seq<Pack.Path>)
    requires |a| == |x| && |b| == |y|
    ensures a + b == x + y <==> a == x && b == y
  {
    assert (a + b)[..|a|] == a && (a + b)[|a|..] == b && (x + y)[..|a|] == x && (x + y)[|a|..] == y;
  }

  lemma SameCons(s: Pack.Step, t: Pack.Step, a: Pack.Path, b: Pack.Path)
    requires [s] + a == [t] + b
    ensures s == t && a == b
  {
    assert ([s] + a)[0] == s && ([t] + b)[0] == t && ([s] + a)[1..] == a && ([t] + b)[1..] == b;
  }

  lemma SameBehind(s: Pack.Step, t: Pack.Step, a: seq<Pack.Path>, b: seq<Pack.Path>)
    requires |a| == |b|
    ensures Behind(s, a) == Behind(t, b) <==> a == b && (a != [] ==> s == t)
  {
    if Behind(s, a) == Behind(t, b) {
      forall k | 0 <= k < |a| ensures a[k] == b[k] && s == t {
        assert Behind(s, a)[k] == Behind(t, b)[k];
        SameCons(s, t, a[k], b[k]);
      }
      if a != [] { assert a[0] == b[0]; }
    }
  }

  /** The format looks for every leaf where it is exactly when no list entry is shifted. */
  lemma {:induction false} PathsAgreeIffUnshifted<T>(v: Nested<T>)
    requires Sound(v)
    ensures Paths(v, true) == Paths(v, false) <==> Unshifted(v)
    ensures |Paths(v, true)| == |Paths(v, false)|
    decreases v, 1, 0
  {
    OnePathPerLeaf(v, true, "");
    OnePathPerLeaf(v, false, "");
    if Io.Composite(v) {
      PathsAgreeUpTo(v, |v.kids|);
      UnshiftedParts(v);
    }
  }

  lemma UnshiftedParts<T>(v: Nested<T>)
    requires Io.Composite(v)
    ensures Unshifted(v) <==> forall i | 0 <= i < |v.kids| :: UnshiftedAt(v, i)
  {
    if forall i | 0 <= i < |v.kids| :: UnshiftedAt(v, i) {
      forall i | 0 <= i < |v.kids|
        ensures Unshifted(v.kids[i])
        ensures v.List? && Paths(v.kids[i], false) != [] ==> forall j | 0 <= j < i :: Kept(v.kids[j])
      {
        assert UnshiftedAt(v, i);
      }
    }
  }

  lemma {:induction false} PathsAgreeUpTo<T>(v: Nested<T>, i: nat)
    requires Sound(v) && Io.Composite(v) && i <= |v.kids|
    ensures PathsUpTo(v, true, i) == PathsUpTo(v, false, i) <==> forall j | 0 <= j < i :: UnshiftedAt(v, j)
    ensures |PathsUpTo(v, true, i)| == |PathsUpTo(v, false, i)|
    decreases v, 0, i
  {
    if i > 0 {
      var kid := v.kids[i - 1];
      PathsAgreeUpTo(v, i - 1);
      PathsAgreeIffUnshifted(kid);
      SameBehind(StepIn(v, i - 1, KeptBefore(v, i - 1)), StepIn(v, i - 1, i - 1), Paths(kid, true), Paths(kid, false));
      assert UnshiftedAt(v, i - 1) <==>
        Behind(StepIn(v, i - 1, KeptBefore(v, i - 1)), Paths(kid, true)) ==
        Behind(StepIn(v, i - 1, i - 1), Paths(kid, false));
      SamePathsJoin(PathsUpTo(v, true, i - 1), Behind(StepIn(v, i - 1, KeptBefore(v, i - 1)), Paths(kid, true)),
                    PathsUpTo(v, false, i - 1), Behind(StepIn(v, i - 1, i - 1), Paths(kid, false)));
    }
  }

  // ----- what a path leads to

  /** Following a path from its first step on. */
  function Walk<T>(v: Nested<T>, path: Pack.Path): Option<Nested<T>> {
    if path == [] then Some(v)
    else
      match Pack.Enter(v, path[0])
      case None => None
      case Some(kid) => Walk(kid, path[1..])
  }

  /** It is what an accessor does step by step. */
  lemma {:induction false} WalkIsAccess<T>(v: Nested<T>, path: Pack.Path)
    ensures Pack.Access(v, path) == Walk(v, path)
    decreases |path|
  {
    if |path| == 1 {
      assert path[..0] == [] && path[1..] == [];
    } else if path != [] {
      var front, last := path[..|path| - 1], path[|path| - 1];
      WalkIsAccess(v, front);
      WalkSnoc(v, front, last);
      assert path == front + [last];
    }
  }

  lemma {:induction false} WalkSnoc<T>(v: Nested<T>, path: Pack.Path, step: Pack.Step)
    ensures Walk(v, path + [step]) ==
      match Walk(v, path) case None => None case Some(kid) => Pack.Enter(kid, step)
    decreases |path|
  {
    if path == [] {
      assert ([] + [step])[1..] == [];
    } else {
      assert (path + [step])[1..] == path[1..] + [step];
      if Pack.Enter(v, path[0]).Some? { WalkSnoc(Pack.Enter(v, path[0]).value, path[1..], step); }
    }
  }

  predicate WalkToLeaves<T(==)>(v: Nested<T>, paths: seq<Pack.Path>, leaves: Io.Flat<T>) {
    |paths| == |leaves| && forall k | 0 <= k < |paths| :: Walk(v, paths[k]) == Some(Io.Tensor(leaves[k].1))
  }

  /** The accessors lead to the leaves, one to each. */
  predicate LeadToLeaves<T(==)>(v: Nested<T>, accessors: seq<Pack.Path>, leaves: Io.Flat<T>) {
    |accessors| == |leaves| &&
    forall k | 0 <= k < |accessors| :: Pack.Access(v, accessors[k]) == Some(Io.Tensor(leaves[k].1))
  }

  lemma EnterKid<T>(v: Nested<T>, i: nat)
    requires Sound(v) && Io.Composite(v) && i < |v.kids|
    ensures Pack.Enter(v, StepIn(v, i, i)) == Some(v.kids[i])
  {
    if v.Dict? { Pack.KeyIsFound(v.keys, i); }
  }

  lemma {:induction false} PathsLeadToLeaves<T>(v: Nested<T>, name: string)
    requires Sound(v)
    ensures WalkToLeaves(v, Paths(v, false), Io.Leaves(v, name))
    decreases v, 1, 0
  {
    if Io.Composite(v) { PathsLeadUpTo(v, name, |v.kids|); }
  }

  lemma {:induction false} PathsLeadUpTo<T>(v: Nested<T>, name: string, i: nat)
    requires Sound(v) && Io.Composite(v) && i <= |v.kids|
    ensures WalkToLeaves(v, PathsUpTo(v, false, i), Io.LeavesUpTo(v, name, i))
    decreases v, 0, i
  {
    if i > 0 {
      var kid, child := v.kids[i - 1], Io.Child(v, name, i - 1);
      PathsLeadUpTo(v, name, i - 1);
      PathsLeadToLeaves(kid, child);
      BehindLeads(v, i - 1, Paths(kid, false), Io.Leaves(kid, child));
      LeadingJoin(v, PathsUpTo(v, false, i - 1), Behind(StepIn(v, i - 1, i - 1), Paths(kid, false)),
                  Io.LeavesUpTo(v, name, i - 1), Io.Leaves(kid, child));
    }
  }

  lemma BehindLeads<T>(v: Nested<T>, i: nat, paths: seq<Pack.Path>, leaves: Io.Flat<T>)
    requires Sound(v) && Io.Composite(v) && i < |v.kids| && WalkToLeaves(v.kids[i], paths, leaves)
    ensures WalkToLeaves(v, Behind(StepIn(v, i, i), paths), leaves)
  {
    EnterKid(v, i);
    forall k | 0 <= k < |paths| ensures Walk(v, [StepIn(v, i, i)] + paths[k]) == Walk(v.kids[i], paths[k]) {
      assert ([StepIn(v, i, i)] + paths[k])[1..] == paths[k];
    }
  }

  lemma LeadingJoin<T>(v: Nested<T>, x: seq<Pack.Path>, y: seq<Pack.Path>, a: Io.Flat<T>, b: Io.Flat<T>)
    requires WalkToLeaves(v, x, a) && WalkToLeaves(v, y, b)
    ensures WalkToLeaves(v, x + y, a + b)
  {
  }

  /** Every path to a tensor is one of them. */
  lemma {:induction false} PathIsListed<T>(v: Nested<T>, path: Pack.Path, t: T) returns (k: nat)
    requires Sound(v) && Walk(v, path) == Some(Io.Tensor(t))
    ensures k < |Paths(v, false)| && Paths(v, false)[k] == path
    decreases v
  {
    if path == [] {
      k := 0;
    } else {
      var i := match path[0] case At(p) => p case Of(key) => Pack.KeyPlace(v.keys, key);
      var j := PathIsListed(v.kids[i], path[1..], t);
      assert path == [StepIn(v, i, i)] + path[1..];
      k := |PathsUpTo(v, false, i)| + j;
      PathsGrow(v, i + 1, |v.kids|, k);
      assert PathsUpTo(v, false, i + 1)[k] == Behind(StepIn(v, i, i), Paths(v.kids[i], false))[j];
    }
  }

  lemma {:induction false} PathsGrow<T>(v: Nested<T>, i: nat, n: nat, k: nat)
    requires Io.Composite(v) && i <= n <= |v.kids| && k < |PathsUpTo(v, false, i)|
    ensures k < |PathsUpTo(v, false, n)| && PathsUpTo(v, false, n)[k] == PathsUpTo(v, false, i)[k]
  {
    if i < n { PathsGrow(v, i, n - 1, k); }
  }

  function AccessPaths(assignments: seq<Pack.Assignment>): seq<Pack.Path> {
    seq(|assignments|, k requires 0 <= k < |assignments| => assignments[k].path)
  }

  lemma AccessorsAre<T>(v: Nested<T>, name: string)
    requires Sound(v) && Kept(v)
    ensures Pack.WellFormed(Format(v, name))
    ensures AccessPaths(Pack.Assignments(Format(v, name), [])) == Paths(v, true)
  {
    FormatAssigns(v, name, []);
    forall k | 0 <= k < |Paths(v, true)| ensures [] + Paths(v, true)[k] == Paths(v, true)[k] {
    }
  }

  lemma WalksLead<T>(v: Nested<T>, paths: seq<Pack.Path>, leaves: Io.Flat<T>)
    ensures WalkToLeaves(v, paths, leaves) <==> LeadToLeaves(v, paths, leaves)
  {
    forall k | 0 <= k < |paths| { WalkIsAccess(v, paths[k]); }
  }

  lemma LeadingIsUnshifted<T>(v: Nested<T>, name: string)
    requires Sound(v) && Distinct(Io.Tensors(Io.Leaves(v, name)))
    requires WalkToLeaves(v, Paths(v, true), Io.Leaves(v, name))
    ensures Unshifted(v)
  {
    var leaves := Io.Leaves(v, name);
    PathsLeadToLeaves(v, name);
    PathsAgreeIffUnshifted(v);
    forall k | 0 <= k < |leaves| ensures Paths(v, true)[k] == Paths(v, false)[k] {
      var j := PathIsListed(v, Paths(v, true)[k], leaves[k].1);
      assert Io.Tensors(leaves)[j] == Io.Tensors(leaves)[k];
    }
  }

  /** Every accessor path of the described format leads to its own leaf in the value that was described
      if no list entry is shifted, and, for a value of different tensors, only then. */
  lemma AccessorsLeadIffUnshifted<T>(v: Nested<T>, name: string)
    requires Sound(v) && Kept(v)
    ensures Pack.WellFormed(Format(v, name))
    ensures
      var accessors := AccessPaths(Pack.Assignments(Format(v, name), []));
      (Unshifted(v) ==> LeadToLeaves(v, accessors, Io.Leaves(v, name))) &&
      (Distinct(Io.Tensors(Io.Leaves(v, name))) && LeadToLeaves(v, accessors, Io.Leaves(v, name)) ==> Unshifted(v))
  {
    var leaves := Io.Leaves(v, name);
    AccessorsAre(v, name);
    WalksLead(v, Paths(v, true), leaves);
    if Unshifted(v) {
      PathsAgreeIffUnshifted(v);
      PathsLeadToLeaves(v, name);
    } else if Distinct(Io.Tensors(leaves)) && WalkToLeaves(v, Paths(v, true), leaves) {
      LeadingIsUnshifted(v, name);
    }
  }

  /** `[3, t]` under "x": the format is `[x_1]`, and `x[0]` is not the tensor. */
  lemma ShiftedEntry(t: int)
    ensures
      var v := Io.List([Io.Other, Io.Tensor(t)]);
      Sound(v) && Format(v, "x") == Pack.ListOf([Pack.Leaf("x_1")]) && !Unshifted(v) &&
      Pack.Access(v, [Pack.At(0)]) == Some(Io.Other)
  {
    var v := Io.List([Io.Other, Io.Tensor(t)]);
    assert Io.Child(v, "x", 1) == "x_1";
    assert Formats(v, "x", 1) == [] && Formats(v, "x", 2) == [Pack.Leaf("x_1")];
    assert Paths(v.kids[1], false) != [] && !Kept(v.kids[0]);
    assert [Pack.At(0)][..0] == [];
  }
}
