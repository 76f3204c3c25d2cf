// `HyperLayoutMixin` (builtins/hyperlayoutmixin.py): the nodes of a hyper
// layout, each connected from its `message` plug into the `dependNode` child
// of one `hyperPosition[i]` element.
module HyperLayout {
  import opened Wrappers
  import opened SlotArray

  class Layout {
    /** The layout node itself. */
    const self: nat
    /** The existing `hyperPosition` elements, in physical order. */
    var indices: seq<nat>
    /** The node connected into `hyperPosition[i].dependNode`, for each connected `i`. */
    var sources: map<nat, nat>
    /**
     * `getNextAvailableConnection('hyperPosition', child=dependNode)`: a helper
     * outside this model; it promises an element whose `dependNode` is unconnected.
     */
    const nextAvailable: map<nat, nat> -> nat

    ghost predicate Valid()
      reads this
    {
      && WellFormed(indices, sources)
      && forall m :: nextAvailable(m) !in m
    }

    constructor (self: nat, nextAvailable: map<nat, nat> -> nat)
      requires forall m :: nextAvailable(m) !in m
      ensures Valid() && this.self == self && this.nextAvailable == nextAvailable
      ensures indices == [] && sources == map[]
    {
      this.self := self;
      this.nextAvailable := nextAvailable;
      indices := [];
      sources := map[];
    }

    /** `hasMember`, and `__contains__`, which calls it. */
    predicate HasMember(node: nat)
      reads this
    {
      MemberIndex(indices, sources, node).Some?
    }

    /**
     * `addMember`: False, with nothing changed, for a member or the layout
     * itself; otherwise the node is connected at the next available element
     * and True is returned.
     */
    method AddMember(node: nat) returns (added: bool)
      requires Valid()
      modifies this
      ensures Valid()
      ensures old(HasMember(node)) || node == self ==>
        !added && indices == old(indices) && sources == old(sources)
      ensures !old(HasMember(node)) && node != self ==>
        && added
        && sources == old(sources)[old(nextAvailable(sources)) := node]
        && indices == InsertSorted(old(indices), old(nextAvailable(sources)))
        && HasMember(node)
    {
      if HasMember(node) || node == self {
        return false;
      }
      var index := nextAvailable(sources);
      ConnectKeepsWellFormed(indices, sources, index, node);
      indices := InsertSorted(indices, index);
      sources := sources[index := node];
      assert index in indices;
      MemberIndexFinds(indices, sources, index, node);
      added := true;
    }

    /** Connections that stay, at elements that stay, keep the first `i` nodes members. */
    static lemma MembersStay(beforeIndices: seq<nat>, before: map<nat, nat>, indices: seq<nat>, sources: map<nat, nat>,
                             nodes: seq<nat>, i: nat, self: nat)
      requires i <= |nodes|
      requires forall j :: 0 <= j < i ==> nodes[j] == self || MemberIndex(beforeIndices, before, nodes[j]).Some?
      requires forall k :: k in before ==> k in sources && sources[k] == before[k]
      requires forall k :: k in beforeIndices ==> k in indices
      ensures forall j :: 0 <= j < i ==> nodes[j] == self || MemberIndex(indices, sources, nodes[j]).Some?
    {
      forall j | 0 <= j < i && nodes[j] != self
        ensures MemberIndex(indices, sources, nodes[j]).Some?
      {
        var k := MemberIndex(beforeIndices, before, nodes[j]).value;
        MemberIndexFinds(indices, sources, k, nodes[j]);
      }
    }

    /** `addMembers`: `addMember` on each node in turn; every node is then a member, or is the layout. */
    method AddMembers(nodes: seq<nat>)
      requires Valid()
      modifies this
      ensures Valid()
      ensures forall k :: k in old(sources) ==> k in sources && sources[k] == old(sources)[k]
      ensures forall n :: n in nodes ==> n == self || HasMember(n)
      ensures forall k :: k in sources && k !in old(sources) ==> sources[k] in nodes
    {
      var i := 0;
      while i < |nodes|
        invariant i <= |nodes| && Valid()
        invariant forall k :: k in old(sources) ==> k in sources && sources[k] == old(sources)[k]
        invariant forall j :: 0 <= j < i ==> nodes[j] == self || HasMember(nodes[j])
        invariant forall k :: k in sources && k !in old(sources) ==> sources[k] in nodes
      {
        ghost var before := sources;
        ghost var beforeIndices := indices;
        var added := AddMember(nodes[i]);
        MembersStay(beforeIndices, before, indices, sources, nodes, i, self);
        i := i + 1;
      }
    }

    /**
     * `removeMember`: False, with nothing changed, for a non-member;
     * otherwise its element is disconnected and True is returned.
     */
    method RemoveMember(node: nat) returns (removed: bool)
      requires Valid()
      modifies this
      ensures Valid() && indices == old(indices)
      ensures !old(HasMember(node)) ==> !removed && sources == old(sources)
      ensures old(HasMember(node)) ==>
        && removed
        && sources == old(sources) - {old(MemberIndex(indices, sources, node)).value}
        && !HasMember(node)
    {
      var index := MemberIndex(indices, sources, node);
      if index.None? {
        return false;
      }
      sources := sources - {index.value};
      NotConnected(indices, sources, node);
      removed := true;
    }

    /** `removeMembers`: `removeMember` on each node in turn; none of them is then a member. */
    method RemoveMembers(nodes: seq<nat>)
      requires Valid()
      modifies this
      ensures Valid() && indices == old(indices)
      ensures forall k :: k in sources ==> k in old(sources) && sources[k] == old(sources)[k]
      ensures forall n :: n in nodes ==> !HasMember(n)
      ensures forall k :: k in old(sources) && old(sources)[k] !in nodes ==> k in sources
    {
      var i := 0;
      while i < |nodes|
        invariant i <= |nodes| && Valid() && indices == old(indices)
        invariant forall k :: k in sources ==> k in old(sources) && sources[k] == old(sources)[k]
        invariant forall j :: 0 <= j < i ==> !HasMember(nodes[j])
        invariant forall k :: k in old(sources) && old(sources)[k] !in nodes[..i] ==> k in sources
      {
        var removed := RemoveMember(nodes[i]);
        forall j | 0 <= j < i
          ensures !HasMember(nodes[j])
        {
          NotConnected(indices, sources, nodes[j]);
        }
        i := i + 1;
      }
    }

    /** `iterMembers`: the loop over the elements, keeping those with a node. */
    method IterMembers() returns (r: seq<nat>)
      ensures r == MembersOf(indices, sources)
    {
      r := [];
      var i := 0;
      while i < |indices|
        invariant i <= |indices|
        invariant r + MembersOf(indices[i..], sources) == MembersOf(indices, sources)
      {
        assert indices[i..][1..] == indices[i + 1..];
        if indices[i] in sources {
          r := r + [sources[indices[i]]];
        }
        i := i + 1;
      }
    }

    /** `resetHyperPositions`: every existing element is removed, and its connection with it. */
    method ResetHyperPositions()
      requires Valid()
      modifies this
      ensures Valid() && indices == [] && sources == map[]
      ensures forall n :: !HasMember(n)
    {
      indices := [];
      sources := map[];
    }
  }
}
