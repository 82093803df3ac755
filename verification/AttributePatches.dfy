/** Monkeypatched attributes and their restoration
    (leapp/leapp_graph/datatypes/_attribute_patching.py). */
module AttributePatches {

  /** An attribute: its owner and its name. */
  type Place = (nat, string)

  datatype Patch<V> = Patch(place: Place, original: V, wrapper: V)

  type Attributes<V> = map<Place, V>

  /** Undoing one patch: only where the wrapper is still in place. */
  function Undone<V(==)>(attributes: Attributes<V>, p: Patch<V>): Attributes<V> {
    if p.place in attributes && attributes[p.place] == p.wrapper then attributes[p.place := p.original] else attributes
  }

  /** Undoing a stack of patches, the last one first. */
  function Restored<V(==)>(attributes: Attributes<V>, patches: seq<Patch<V>>): Attributes<V> {
    if patches == [] then attributes
    else Restored(Undone(attributes, patches[|patches| - 1]), patches[..|patches| - 1])
  }

  /** No patch of the attribute put this value there. */
  predicate Foreign<V(==)>(patches: seq<Patch<V>>, place: Place, value: V) {
    forall i | 0 <= i < |patches| :: patches[i].place == place ==> patches[i].wrapper != value
  }

  class AttributePatchRegistry<V(==)> {
    var patches: seq<Patch<V>>
    var attributes: Attributes<V>
    /** What the attributes would be without any patch. */
    ghost var base: Attributes<V>

    ghost predicate Valid()
      reads this
    {
      Restored(attributes, patches) == base
    }

    constructor (attributes: Attributes<V>)
      ensures Valid() && this.attributes == attributes == base && patches == []
    {
      this.attributes, this.base, patches := attributes, attributes, [];
    }

    predicate Contains(place: Place)
      reads this
    {
      exists i | 0 <= i < |patches| :: patches[i].place == place
    }

    /** Installing may be refused by the owner, before or after the attribute is set. Then no entry
        stays, and where the recorded original was the current value, no change either. Where it was,
        the attributes without patches stay what they are, whether or not it was refused. */
    method Install(place: Place, original: V, wrapper: V, refused: bool, midway: bool) returns (ok: bool)
      requires Valid()
      modifies this`patches, this`attributes
      ensures place in old(attributes) && old(attributes)[place] == original ==> Valid()
      ensures ok == !refused
      ensures ok ==> patches == old(patches) + [Patch(place, original, wrapper)]
      ensures ok ==> attributes == old(attributes)[place := wrapper]
      ensures !ok ==> patches == old(patches)
      ensures !ok && place in old(attributes) && old(attributes)[place] == original ==> attributes == old(attributes)
      ensures
        var touched := midway || (place in old(attributes) && old(attributes)[place] == wrapper);
        !ok ==> attributes == if touched then old(attributes)[place := original] else old(attributes)
    {
      ghost var before := attributes;
      patches := patches + [Patch(place, original, wrapper)];
      if !refused {
        attributes := attributes[place := wrapper];
        if place in before && before[place] == original {
          InstallIsUndone(before, patches[..|patches| - 1], place, wrapper);
        }
        return true;
      }
      if midway { attributes := attributes[place := wrapper]; }
      if place in attributes && attributes[place] == wrapper { attributes := attributes[place := original]; }
      patches := patches[..|patches| - 1];
      assert place in before && before[place] == original ==> attributes == before;
      return false;
    }

    /** Someone else sets an attribute, patched or not, to a value of their own. */
    method WriteFromOutside(place: Place, value: V)
      requires Valid() && place in attributes && Foreign(patches, place, value)
      modifies this`attributes, this`base
      ensures Valid() && base == old(base)[place := value]
      ensures attributes == old(attributes)[place := value] && patches == old(patches)
    {
      OutsideWriteIsKept(attributes, patches, place, value);
      attributes, base := attributes[place := value], base[place := value];
    }

    /** Takes every patch back, however they were stacked and whatever was written in between. */
    method Restore()
      requires Valid()
      modifies this`patches, this`attributes
      ensures Valid() && patches == [] && attributes == base
    {
      while patches != []
        invariant Valid()
        decreases |patches|
      {
        attributes := Undone(attributes, patches[|patches| - 1]);
        patches := patches[..|patches| - 1];
      }
    }
  }

  // ----- what restoration undoes

  /** A patch that recorded the current value is undone, whatever lies below it on the stack. */
  lemma InstallIsUndone<V>(attributes: Attributes<V>, patches: seq<Patch<V>>, place: Place, wrapper: V)
    requires place in attributes
    ensures Restored(attributes[place := wrapper], patches + [Patch(place, attributes[place], wrapper)]) ==
      Restored(attributes, patches)
  {
    var longer := patches + [Patch(place, attributes[place], wrapper)];
    assert longer[..|longer| - 1] == patches;
    assert attributes[place := wrapper][place := attributes[place]] == attributes;
  }

  /** A value put in from outside, which no patch of its attribute installed, is kept, and every other
      attribute is restored as it would have been without it. */
  lemma {:induction false} OutsideWriteIsKept<V>(attributes: Attributes<V>, patches: seq<Patch<V>>, place: Place, value: V)
    requires place in attributes && Foreign(patches, place, value)
    ensures Restored(attributes[place := value], patches) == Restored(attributes, patches)[place := value]
  {
    if patches == [] {
    } else {
      var last, front := patches[|patches| - 1], patches[..|patches| - 1];
      OutsideWriteIsKept(Undone(attributes, last), front, place, value);
      assert Undone(attributes[place := value], last) == Undone(attributes, last)[place := value];
    }
  }

  /** Three owners' wrappers on one attribute, with a write from outside between the second and the
      third: the write is what stays. */
  method StackedPatches(a: int, w1: int, w2: int, v: int, w3: int) returns (r: AttributePatchRegistry<int>)
    requires v != w1 && v != w2
    ensures r.attributes == map[(0, "f") := v] && r.patches == []
  {
    r := new AttributePatchRegistry(map[(0, "f") := a]);
    var ok := r.Install((0, "f"), a, w1, false, false);
    ok := r.Install((0, "f"), w1, w2, false, false);
    r.WriteFromOutside((0, "f"), v);
    ok := r.Install((0, "f"), v, w3, false, false);
    r.Restore();
  }
}
