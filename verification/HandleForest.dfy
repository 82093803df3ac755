/** Graph handles of traced values (leapp/leapp_graph/traced_node.py,
    leapp/leapp_graph/datatypes/traced_data.py): redeclaring an input redirects its old handle, and
    every carrier follows the redirections when it is next read. */
module HandleForest {
  import opened Ports

  /** A graph node, with the number of the capture pass whose graph it belongs to. */
  datatype Handle = Handle(graph: nat, node: nat)

  // ----- redirections

  /** `order` lists the redirected handles as they were added: each was redirected to another handle
      that was itself unredirected then. */
  ghost predicate IsForest(rebindings: map<Handle, Handle>, order: seq<Handle>) {
    (forall h :: h in rebindings <==> h in order) &&
    forall i | 0 <= i < |order| :: order[i] in rebindings && rebindings[order[i]] !in order[..i + 1]
  }

  function Place(order: seq<Handle>, h: Handle): (i: nat)
    requires h in order
    ensures i < |order| && order[i] == h && h !in order[..i]
  {
    if order[0] == h then 0 else 1 + Place(order[1..], h)
  }

  /** Handles not redirected rank lowest; a redirection leads to a lower rank. */
  function Rank(order: seq<Handle>, h: Handle): nat {
    if h in order then |order| - Place(order, h) else 0
  }

  lemma RedirectionsDescend(rebindings: map<Handle, Handle>, order: seq<Handle>, h: Handle)
    requires IsForest(rebindings, order) && h in rebindings
    ensures Rank(order, rebindings[h]) < Rank(order, h)
  {
    var i, next := Place(order, h), rebindings[h];
    if next in order {
      assert forall k | 0 <= k <= i :: order[k] in order[..i + 1];
    }
  }

  /** The handle the redirections lead to. */
  ghost function Resolve(rebindings: map<Handle, Handle>, order: seq<Handle>, h: Handle): (root: Handle)
    requires IsForest(rebindings, order)
    ensures root !in rebindings
    decreases Rank(order, h)
  {
    if h !in rebindings then h
    else
      RedirectionsDescend(rebindings, order, h);
      Resolve(rebindings, order, rebindings[h])
  }

  /** Redirecting one root to another keeps a forest and moves exactly the handles of that root. */
  lemma RedirectRoot(rebindings: map<Handle, Handle>, order: seq<Handle>, from: Handle, into: Handle)
    requires IsForest(rebindings, order) && from !in rebindings && into !in rebindings && from != into
    ensures IsForest(rebindings[from := into], order + [from])
    ensures forall h ::
      Resolve(rebindings[from := into], order + [from], h) ==
        (if Resolve(rebindings, order, h) == from then into else Resolve(rebindings, order, h))
  {
    var after, later := rebindings[from := into], order + [from];
    assert IsForest(after, later) by {
      forall i | 0 <= i < |later| ensures later[i] in after && after[later[i]] !in later[..i + 1] {
        if i < |order| {
          assert later[..i + 1] == order[..i + 1];
          assert order[i] in order && order[i] != from;
        } else {
          assert later[..i + 1] == later;
        }
      }
    }
    forall h
      ensures Resolve(after, later, h) ==
        (if Resolve(rebindings, order, h) == from then into else Resolve(rebindings, order, h))
    {
      RedirectOne(rebindings, order, from, into, h);
    }
  }

  lemma {:induction false} RedirectOne(rebindings: map<Handle, Handle>, order: seq<Handle>, from: Handle, into: Handle, h: Handle)
    requires IsForest(rebindings, order) && from !in rebindings && into !in rebindings && from != into
    requires IsForest(rebindings[from := into], order + [from])
    ensures Resolve(rebindings[from := into], order + [from], h) ==
      (if Resolve(rebindings, order, h) == from then into else Resolve(rebindings, order, h))
    decreases Rank(order, h)
  {
    if h in rebindings {
      RedirectionsDescend(rebindings, order, h);
      RedirectOne(rebindings, order, from, into, rebindings[h]);
    }
  }

  // ----- carriers

  /** The bytes a value covers, when they can be told. */
  type Layout = Option<nat>

  class Carrier {
    const layout: Layout
    var proxy: Handle
    var published: bool

    constructor (layout: Layout, proxy: Handle)
      ensures this.layout == layout && this.proxy == proxy && !published
    {
      this.layout, this.proxy, published := layout, proxy, false;
    }
  }

  class TracedNode {
    var graph: nat
    var nextNode: nat
    var rebindings: map<Handle, Handle>
    var layoutIndex: map<nat, Carrier>
    ghost var order: seq<Handle>
    ghost var carriers: set<Carrier>

    /** The handle belongs to the graph being captured. */
    predicate Current(h: Handle)
      reads this
    {
      h.graph == graph && h.node < nextNode
    }

    ghost predicate Valid()
      reads this, carriers
    {
      IsForest(rebindings, order) &&
      (forall h :: h in rebindings ==> Current(h) && Current(rebindings[h])) &&
      (forall c :: c in carriers ==> c.proxy.graph < graph || Current(c.proxy)) &&
      forall key :: key in layoutIndex ==> Indexed(key)
    }

    ghost predicate Indexed(key: nat)
      requires key in layoutIndex
      reads this, carriers
    {
      layoutIndex[key] in carriers && layoutIndex[key].layout == Some(key) && Current(layoutIndex[key].proxy)
    }

    /** What a carrier's handle stands for. */
    ghost function Root(c: Carrier): Handle
      requires Valid()
      reads this, carriers, c
    {
      Resolve(rebindings, order, c.proxy)
    }

    lemma RootIsCurrent(h: Handle)
      requires Valid() && Current(h)
      ensures Current(Resolve(rebindings, order, h))
      decreases Rank(order, h)
    {
      if h in rebindings {
        RedirectionsDescend(rebindings, order, h);
        RootIsCurrent(rebindings[h]);
      }
    }

    constructor ()
      ensures Valid() && graph == 0 && rebindings == map[] && layoutIndex == map[] && carriers == {}
    {
      graph, nextNode, rebindings, layoutIndex := 0, 0, map[], map[];
      order, carriers := [], {};
    }

    /** The other carrier declared on this pass that covers the same bytes and may share its handle. */
    function FindDeclaredAlias(layout: Layout, value: Carrier?): (r: Option<Carrier>)
      reads this, layoutIndex.Values
      ensures r.Some? ==> layout.Some? && layout.value in layoutIndex && r.value == layoutIndex[layout.value]
      ensures r.Some? ==> r.value != value && !r.value.published
    {
      if layout.None? || layout.value !in layoutIndex then None
      else
        var candidate := layoutIndex[layout.value];
        if candidate != value && !candidate.published && candidate.layout == layout then Some(candidate) else None
    }

    /** The handle reading a carrier gives: its root, or for a carrier left over from a replaced graph
        the root of the alias declared since. */
    ghost function Seen(c: Carrier): Handle
      requires Valid() && c in carriers
      reads this, carriers, layoutIndex.Values
    {
      if !c.published && Root(c).graph != graph && FindDeclaredAlias(c.layout, c).Some?
      then Root(FindDeclaredAlias(c.layout, c).value)
      else Root(c)
    }

    method Chase(h: Handle) returns (root: Handle)
      requires Valid()
      ensures root == Resolve(rebindings, order, h)
    {
      root := h;
      while root in rebindings
        invariant Resolve(rebindings, order, root) == Resolve(rebindings, order, h)
        decreases Rank(order, root)
      {
        RedirectionsDescend(rebindings, order, root);
        root := rebindings[root];
      }
    }

    /** Following the redirections and keeping where they lead changes what no carrier stands for. */
    method Shorten(c: Carrier) returns (h: Handle)
      requires Valid() && c in carriers
      modifies c`proxy
      ensures Valid() && h == c.proxy == old(Root(c)) && h !in rebindings
      ensures forall e :: e in carriers ==> Root(e) == old(Root(e))
      ensures old(Current(c.proxy)) ==> Current(h)
    {
      h := Chase(c.proxy);
      if Current(c.proxy) { RootIsCurrent(c.proxy); }
      c.proxy := h;
    }

    /** Reading a carrier's handle shortens its path, and attaches a leftover carrier to its alias. */
    method Proxy(c: Carrier) returns (h: Handle)
      requires Valid() && c in carriers
      modifies carriers`proxy, c`published
      ensures Valid() && h == c.proxy == old(Seen(c)) && h !in rebindings
      ensures h.graph == graph ==> Current(h)
      ensures c.published == old(c.published)
      ensures forall e :: e in carriers && e != c ==> Root(e) == old(Root(e))
    {
      h := Shorten(c);
      if !c.published && h.graph != graph {
        var declared := FindDeclaredAlias(c.layout, c);
        if declared.Some? {
          assert Indexed(c.layout.value);
          // The alias is on the current graph, so reading it only shortens its path.
          h := Shorten(declared.value);
          c.proxy, c.published := h, false;
        }
      }
    }

    /** The index with a declaration added unless its bytes are declared already. */
    function Declared(layout: Layout, c: Carrier): map<nat, Carrier>
      reads this
    {
      if layout.Some? && layout.value !in layoutIndex then layoutIndex[layout.value := c] else layoutIndex
    }

    /** What the handle `h` stands for after a carrier seen as `previous` is rebound to `into`. */
    ghost function Moved(h: Handle, previous: Handle, into: Handle): Handle
      reads this
    {
      if h == previous && previous.graph == graph then into else h
    }

    method Redirect(previous: Handle, into: Handle)
      requires Valid() && Current(into) && into !in rebindings && previous !in rebindings
      requires previous.graph == graph ==> Current(previous)
      modifies this`rebindings, this`order
      ensures Valid() && into !in rebindings
      ensures forall e :: e in carriers ==> Root(e) == Moved(old(Root(e)), previous, into)
    {
      if previous != into && previous.graph == graph {
        RedirectRoot(rebindings, order, previous, into);
        rebindings := rebindings[previous := into];
        order := order + [previous];
      }
    }

    /** Binding a carrier to another root redirects the handle it had, so that every carrier of that
        handle follows. */
    method RebindInput(c: Carrier, into: Handle)
      requires Valid() && c in carriers && Current(into) && into !in rebindings
      modifies this`rebindings, this`order, carriers`proxy, c`published
      ensures Valid() && Root(c) == c.proxy == into && !c.published && into !in rebindings
      ensures forall e :: e in carriers && e != c ==> Root(e) == Moved(old(Root(e)), old(Seen(c)), into)
    {
      var previous := Proxy(c);
      Redirect(previous, into);
      c.proxy, c.published := into, false;
    }

    method AdoptAlias(c: Carrier) returns (h: Handle)
      requires Valid() && c in carriers && FindDeclaredAlias(c.layout, c).Some?
      modifies this`rebindings, this`order, carriers`proxy, c`published
      ensures Valid() && Root(c) == h && !c.published && Current(h)
      ensures h == old(Root(FindDeclaredAlias(c.layout, c).value))
      ensures forall e :: e in carriers && e != c ==> Root(e) == Moved(old(Root(e)), old(Seen(c)), h)
    {
      assert Indexed(c.layout.value);
      h := Shorten(FindDeclaredAlias(c.layout, c).value);
      RebindInput(c, h);
    }

    method CreatePlaceholder() returns (h: Handle)
      requires Valid()
      modifies this`nextNode
      ensures Valid() && h == Handle(graph, old(nextNode)) && Current(h) && h !in rebindings
      ensures forall e :: e in carriers ==> e.proxy != h && Root(e) == old(Root(e)) && Seen(e) == old(Seen(e))
    {
      h := Handle(graph, nextNode);
      nextNode := nextNode + 1;
    }

    method DeclareAgain(c: Carrier) returns (h: Handle)
      requires Valid() && c in carriers
      modifies this`rebindings, this`order, this`nextNode, this`layoutIndex, carriers`proxy, c`published
      ensures Valid() && Root(c) == h && !c.published && Current(h) && graph == old(graph)
      ensures h == Handle(graph, old(nextNode)) && layoutIndex == old(Declared(c.layout, c))
      ensures forall e :: e in carriers && e != c ==> Root(e) == Moved(old(Root(e)), old(Seen(c)), h)
    {
      h := CreatePlaceholder();
      RebindInput(c, h);
      layoutIndex := Declared(c.layout, c);
    }

    /** Declaring a traced value as an input again. An unpublished value whose bytes are declared
        already joins that declaration; any other gets a placeholder of its own. */
    method CreateInput(c: Carrier) returns (h: Handle)
      requires Valid() && c in carriers
      modifies this`rebindings, this`order, this`nextNode, this`layoutIndex, carriers`proxy, c`published
      ensures Valid() && Root(c) == h && !c.published && Current(h) && graph == old(graph)
      ensures
        var alias := old(if c.published then None else FindDeclaredAlias(c.layout, c));
        if alias.Some? then h == old(Root(alias.value)) && layoutIndex == old(layoutIndex)
        else h == Handle(graph, old(nextNode)) && layoutIndex == old(Declared(c.layout, c))
      ensures forall e :: e in carriers && e != c ==> Root(e) == Moved(old(Root(e)), old(Seen(c)), h)
    {
      var declared := if c.published then None else FindDeclaredAlias(c.layout, c);
      if declared.Some? {
        h := AdoptAlias(c);
      } else {
        h := DeclareAgain(c);
      }
    }

    /** Declaring a plain value: a new carrier, on the handle of the declaration it aliases if any. */
    method CreatePlainInput(layout: Layout) returns (c: Carrier)
      requires Valid()
      modifies this`nextNode, this`layoutIndex, this`carriers, carriers`proxy
      ensures Valid() && carriers == old(carriers) + {c} && c !in old(carriers) && !c.published && c.layout == layout
      ensures graph == old(graph) && rebindings == old(rebindings)
      ensures
        var alias := old(FindDeclaredAlias(layout, null));
        if alias.Some? then Root(c) == old(Root(alias.value)) else Root(c) == Handle(graph, old(nextNode))
      ensures forall e :: e in old(carriers) ==> Root(e) == old(Root(e))
    {
      var declared := FindDeclaredAlias(layout, null);
      if declared.Some? {
        assert Indexed(layout.value);
        var h := Shorten(declared.value);
        c := new Carrier(layout, h);
        carriers := carriers + {c};
        return;
      }
      var placeholder := CreatePlaceholder();
      c := new Carrier(layout, placeholder);
      carriers := carriers + {c};
      layoutIndex := Declared(layout, c);
    }

    /** Publishing as an output leaves the handle alone. */
    method Publish(c: Carrier)
      requires Valid() && c in carriers
      modifies c`published
      ensures Valid() && c.published && forall e :: e in carriers ==> Root(e) == old(Root(e))
    {
      c.published := true;
    }

    /** A new pass: a new graph, no declarations and no redirections. */
    method ResetTraceState()
      requires Valid()
      modifies this`graph, this`nextNode, this`rebindings, this`layoutIndex, this`order
      ensures Valid() && graph == old(graph) + 1 && rebindings == map[] && layoutIndex == map[]
      ensures forall c :: c in carriers ==> Root(c) == c.proxy && c.proxy.graph != graph
    {
      graph, nextNode, rebindings, layoutIndex, order := graph + 1, 0, map[], map[], [];
    }
  }
}
