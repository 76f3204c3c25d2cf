// `DisplayLayerMixin` (builtins/displaylayermixin.py and
// nodetypes/displaylayermixin.py): layer membership as connections from a
// layer's `drawInfo` plug into each member's `drawOverride` plug, and the
// registration of a layer with the layer manager's `displayLayerId` array.
module DisplayLayer {
  import opened Wrappers

  /** A connection out of `drawInfo` of `layer`; its destination node may be null. */
  datatype Link = Link(layer: nat, node: Option<nat>)

  /** A `drawOverride` plug has one source: no node is the destination of two links. */
  predicate SingleSource(links: seq<Link>)
  {
    forall i, j :: 0 <= i < j < |links| && links[i].node.Some? ==> links[i].node != links[j].node
  }

  /** `iterNodes` / `nodes()`: the destination nodes of the layer's `drawInfo`, nulls skipped, in connection order. */
  function Nodes(links: seq<Link>, layer: nat): seq<nat>
  {
    if links == [] then []
    else (if links[0].layer == layer && links[0].node.Some? then [links[0].node.value] else [])
         + Nodes(links[1..], layer)
  }

  /** The connections left once the node's `drawOverride` input is broken. */
  function Without(links: seq<Link>, node: nat): (r: seq<Link>)
    ensures forall l :: l in r <==> l in links && l.node != Some(node)
    ensures SingleSource(links) ==> SingleSource(r)
  {
    if links == [] then []
    else
      var rest := Without(links[1..], node);
      assert forall l :: l in links[1..] ==> l in links;
      if links[0].node == Some(node) then rest else [links[0]] + rest
  }

  /** A node belongs to a layer exactly when a link from that layer reaches it. */
  lemma {:induction false} NodesSpec(links: seq<Link>, layer: nat)
    ensures forall x :: x in Nodes(links, layer) <==> Link(layer, Some(x)) in links
  {
    if links != [] {
      NodesSpec(links[1..], layer);
      assert forall l :: l in links <==> l == links[0] || l in links[1..];
    }
  }

  /** A connection made last lists its node last. */
  lemma {:induction false} NodesAppend(links: seq<Link>, layer: nat, node: nat)
    ensures Nodes(links + [Link(layer, Some(node))], layer) == Nodes(links, layer) + [node]
  {
    if links == [] {
      assert [Link(layer, Some(node))][1..] == [];
    } else {
      assert (links + [Link(layer, Some(node))])[1..] == links[1..] + [Link(layer, Some(node))];
      NodesAppend(links[1..], layer, node);
    }
  }

  class Scene {
    /** Every `drawInfo` connection, in the order `destinations()` lists them. */
    var links: seq<Link>
    /** The short value of each existing `layerManager.displayLayerId[i]` element. */
    var ids: map<nat, int>
    /** The `displayLayerId` element connected into each registered layer's `identification`. */
    var identification: map<nat, nat>
    /**
     * `getNextAvailableConnection(displayLayerId)`: a helper outside this
     * model; it promises an element that is not yet connected.
     */
    const nextAvailable: set<nat> -> nat

    ghost predicate Valid()
      reads this
    {
      && SingleSource(links)
      && forall used :: nextAvailable(used) !in used
    }

    constructor (links: seq<Link>, ids: map<nat, int>, identification: map<nat, nat>, nextAvailable: set<nat> -> nat)
      requires SingleSource(links)
      requires forall used :: nextAvailable(used) !in used
      ensures Valid() && this.links == links && this.ids == ids && this.identification == identification
      ensures this.nextAvailable == nextAvailable
    {
      this.links := links;
      this.ids := ids;
      this.identification := identification;
      this.nextAvailable := nextAvailable;
    }

    /** `hasNode` and `__contains__`: the node is in `nodes()`. */
    predicate HasNode(layer: nat, node: nat)
      reads this
    {
      node in Nodes(links, layer)
    }

    /** `__len__`. */
    function Len(layer: nat): nat
      reads this
    {
      |Nodes(links, layer)|
    }

    /** `__getitem__`: `nodes()[index]`, negative indices counting from the end, IndexError outside. */
    function GetItem(layer: nat, index: int): (r: Result<nat>)
      reads this
      ensures r.Ok? <==> 0 <= index + Len(layer) && index < Len(layer)
      ensures r.Ok? ==> HasNode(layer, r.value)
      ensures r.Ok? && index >= 0 ==> r.value == Nodes(links, layer)[index]
      ensures r.Ok? && index < 0 ==> r.value == Nodes(links, layer)[Len(layer) + index]
      ensures r.Err? ==> r.error == IndexError
    {
      var nodes := Nodes(links, layer);
      if 0 <= index < |nodes| then Ok(nodes[index])
      else if -|nodes| <= index < 0 then Ok(nodes[|nodes| + index])
      else Err(IndexError)
    }

    /** `iterNodes`: the loop over the destinations of `drawInfo`, skipping null nodes. */
    method IterNodes(layer: nat) returns (r: seq<nat>)
      ensures r == Nodes(links, layer)
    {
      r := [];
      var i := 0;
      while i < |links|
        invariant i <= |links|
        invariant r + Nodes(links[i..], layer) == Nodes(links, layer)
      {
        assert links[i..][1..] == links[i + 1..];
        if links[i].layer == layer && links[i].node.Some? {
          r := r + [links[i].node.value];
        }
        i := i + 1;
      }
    }

    /**
     * `addNode`: a forced connection into the node's `drawOverride`. The node
     * is then the last member of this layer and a member of no other layer;
     * no other node's membership changes.
     */
    method AddNode(layer: nat, node: nat)
      requires Valid()
      modifies this
      ensures Valid() && ids == old(ids) && identification == old(identification)
      ensures links == Without(old(links), node) + [Link(layer, Some(node))]
      ensures HasNode(layer, node) && Nodes(links, layer)[Len(layer) - 1] == node
      ensures forall other :: other != layer ==> !HasNode(other, node)
      ensures forall other, x :: x != node ==> (HasNode(other, x) <==> old(HasNode(other, x)))
    {
      ghost var before := links;
      var kept := Without(links, node);
      links := kept + [Link(layer, Some(node))];
      NodesAppend(kept, layer, node);
      forall other, x ensures HasNode(other, x) <==> Link(other, Some(x)) in links {
        NodesSpec(links, other);
      }
      forall other, x ensures old(HasNode(other, x)) <==> Link(other, Some(x)) in before {
        NodesSpec(before, other);
      }
    }

    /**
     * `removeNode`: nothing for a non-member; otherwise the node's
     * `drawOverride` input is broken, so it belongs to no layer, and no
     * other node's membership changes.
     */
    method RemoveNode(layer: nat, node: nat)
      requires Valid()
      modifies this
      ensures Valid() && ids == old(ids) && identification == old(identification)
      ensures !old(HasNode(layer, node)) ==> links == old(links)
      ensures old(HasNode(layer, node)) ==> links == Without(old(links), node)
      ensures !HasNode(layer, node)
      ensures forall other, x :: x != node ==> (HasNode(other, x) <==> old(HasNode(other, x)))
    {
      ghost var before := links;
      if HasNode(layer, node) {
        links := Without(links, node);
      }
      forall other, x ensures HasNode(other, x) <==> Link(other, Some(x)) in links {
        NodesSpec(links, other);
      }
      forall other, x ensures old(HasNode(other, x)) <==> Link(other, Some(x)) in before {
        NodesSpec(before, other);
      }
    }

    /** `addNodes`: `addNode` on each node in turn; all of them end up in this layer. */
    method AddNodes(layer: nat, nodes: seq<nat>)
      requires Valid()
      modifies this
      ensures Valid() && ids == old(ids) && identification == old(identification)
      ensures forall n :: n in nodes ==> HasNode(layer, n)
      ensures forall other, x :: x !in nodes ==> (HasNode(other, x) <==> old(HasNode(other, x)))
    {
      ghost var done: set<nat> := {};
      var i := 0;
      while i < |nodes|
        invariant i <= |nodes| && Valid() && ids == old(ids) && identification == old(identification)
        invariant forall j :: 0 <= j < i ==> HasNode(layer, nodes[j])
        invariant forall x :: x in done ==> x in nodes
        invariant forall other, x :: x !in done ==> (HasNode(other, x) <==> old(HasNode(other, x)))
      {
        AddNode(layer, nodes[i]);
        done := done + {nodes[i]};
        i := i + 1;
      }
    }

    /** `removeNodes`: `removeNode` on each node in turn; none of them is then in this layer. */
    method RemoveNodes(layer: nat, nodes: seq<nat>)
      requires Valid()
      modifies this
      ensures Valid() && ids == old(ids) && identification == old(identification)
      ensures forall n :: n in nodes ==> !HasNode(layer, n)
      ensures forall other, x :: x !in nodes ==> (HasNode(other, x) <==> old(HasNode(other, x)))
    {
      ghost var done: set<nat> := {};
      var i := 0;
      while i < |nodes|
        invariant i <= |nodes| && Valid() && ids == old(ids) && identification == old(identification)
        invariant forall j :: 0 <= j < i ==> !HasNode(layer, nodes[j])
        invariant forall x :: x in done ==> x in nodes
        invariant forall other, x :: x !in done ==> (HasNode(other, x) <==> old(HasNode(other, x)))
      {
        RemoveNode(layer, nodes[i]);
        done := done + {nodes[i]};
        i := i + 1;
      }
    }

    /** `clearNodes`: `removeNode` on each member, last first; the layer is then empty and no non-member is touched. */
    method ClearNodes(layer: nat)
      requires Valid()
      modifies this
      ensures Valid() && ids == old(ids) && identification == old(identification)
      ensures Nodes(links, layer) == []
      ensures forall other, x :: !old(HasNode(layer, x)) ==> (HasNode(other, x) <==> old(HasNode(other, x)))
    {
      var nodes := IterNodes(layer);
      var i := |nodes|;
      while i > 0
        invariant 0 <= i <= |nodes| && Valid() && ids == old(ids) && identification == old(identification)
        invariant forall j :: i <= j < |nodes| ==> !HasNode(layer, nodes[j])
        invariant forall x :: HasNode(layer, x) ==> exists j :: 0 <= j < i && nodes[j] == x
        invariant forall other, x :: x !in nodes ==> (HasNode(other, x) <==> old(HasNode(other, x)))
      {
        i := i - 1;
        RemoveNode(layer, nodes[i]);
      }
      NodesSpec(links, layer);
      forall x ensures Link(layer, Some(x)) !in links {
        assert !HasNode(layer, x);
      }
      NodesEmpty(links, layer);
    }

    /**
     * `register`: nothing when `identification` is already connected.
     * Otherwise the next available `displayLayerId` element is chosen (the
     * element count plus one instead of element 0, which the default layer
     * keeps), its value is set to its index, and it is connected.
     */
    method Register(layer: nat)
      requires Valid()
      modifies this
      ensures Valid() && links == old(links)
      ensures layer in old(identification) ==> ids == old(ids) && identification == old(identification)
      ensures layer !in old(identification) ==>
        var chosen := old(nextAvailable(identification.Values));
        var index := if chosen == 0 then |old(ids)| + 1 else chosen;
        && identification == old(identification)[layer := index]
        && ids == old(ids)[index := index]
      ensures layer in identification
      ensures layer !in old(identification) ==>
        identification[layer] != 0 && ids[identification[layer]] == identification[layer]
    {
      if layer in identification {
        return;
      }
      var index := nextAvailable(identification.Values);
      if index == 0 {
        index := |ids| + 1;
      }
      ids := ids[index := index];
      identification := identification[layer := index];
    }
  }

  /** A layer no link comes from has no nodes. */
  lemma {:induction false} NodesEmpty(links: seq<Link>, layer: nat)
    requires forall x :: Link(layer, Some(x)) !in links
    ensures Nodes(links, layer) == []
  {
    if links != [] {
      assert links[0] in links;
      assert forall l :: l in links[1..] ==> l in links;
      NodesEmpty(links[1..], layer);
    }
  }
}
