// `connectPlugs` / `disconnectPlugs` (builtins/dependencymixin.py and
// nodetypes/dependencymixin.py): the connections a compound-aware call makes,
// as the sequence of plug pairs it hands to the host, in order.
module PlugTree {

  /** A plug: a compound has children; an array that is not an element has elements; anything else is a leaf. */
  datatype Kind = Leaf | CompoundPlug | ArrayPlug

  datatype Plug = Plug(id: nat, kind: Kind, children: seq<Plug>)
  {
    predicate IsCompound() { kind == CompoundPlug }
  }

  /** One host connection: `plugutils.connectPlugs(source, destination, force=force)`. */
  datatype Connection = Connection(source: nat, destination: nat, force: bool)

  /** The given list of calls, one per child pair. */
  function ConnectChildren(source: Plug, destination: Plug, force: bool, i: nat): (r: seq<Connection>)
    requires i <= |source.children| == |destination.children|
    ensures forall c :: c in r ==> c.force == force
    decreases source, destination, 0, |source.children| - i
  {
    if i == |source.children| then []
    else Connect(source.children[i], destination.children[i], force) + ConnectChildren(source, destination, force, i + 1)
  }

  /** The fan-out: the simple source into every child of the destination. */
  function FanOut(source: Plug, destination: Plug, force: bool, i: nat): (r: seq<Connection>)
    requires i <= |destination.children|
    ensures forall c :: c in r ==> c.force == force
    decreases source, destination, 0, |destination.children| - i
  {
    if i == |destination.children| then []
    else Connect(source, destination.children[i], force) + FanOut(source, destination, force, i + 1)
  }

  /**
   * builtins `connectPlugs`: compounds of equal arity are connected child to
   * child, compounds of different arity at parent level, and a simple source
   * into every child of a compound destination; `force` goes with every call.
   */
  function Connect(source: Plug, destination: Plug, force: bool): (r: seq<Connection>)
    ensures forall c :: c in r ==> c.force == force
    decreases source, destination, 1
  {
    if source.IsCompound() && destination.IsCompound() then
      if |source.children| == |destination.children| then ConnectChildren(source, destination, force, 0)
      else [Connection(source.id, destination.id, force)]
    else if !source.IsCompound() && destination.IsCompound() then FanOut(source, destination, force, 0)
    else [Connection(source.id, destination.id, force)]
  }

  /** Every plug id in a tree. */
  function Ids(p: Plug): set<nat>
    decreases p, 1
  {
    {p.id} + ChildIds(p.children)
  }

  function ChildIds(children: seq<Plug>): set<nat>
    decreases children, 0
  {
    if children == [] then {} else Ids(children[0]) + ChildIds(children[1..])
  }

  /** No plug id occurs twice along a path: a parent's id is not among its descendants'. */
  predicate Distinct(p: Plug)
    decreases p, 1
  {
    p.id !in ChildIds(p.children) && AllDistinct(p.children)
  }

  predicate AllDistinct(children: seq<Plug>)
    decreases children, 0
  {
    children == [] || (Distinct(children[0]) && AllDistinct(children[1..]))
  }

  lemma {:induction false} ChildIdsHas(children: seq<Plug>, i: nat)
    requires i < |children|
    ensures Ids(children[i]) <= ChildIds(children)
    decreases i
  {
    if i > 0 {
      ChildIdsHas(children[1..], i - 1);
    }
  }

  lemma {:induction false} AllDistinctHas(children: seq<Plug>, i: nat)
    requires i < |children| && AllDistinct(children)
    ensures Distinct(children[i])
    decreases i
  {
    if i > 0 {
      AllDistinctHas(children[1..], i - 1);
    }
  }

  /** Every connection goes from the source tree into the destination tree. */
  lemma {:induction false} ConnectWithin(source: Plug, destination: Plug, force: bool)
    ensures forall c :: c in Connect(source, destination, force) ==> c.source in Ids(source) && c.destination in Ids(destination)
    decreases source, destination, 1
  {
    if source.IsCompound() && destination.IsCompound() && |source.children| == |destination.children| {
      ConnectChildrenWithin(source, destination, force, 0);
    } else if !source.IsCompound() && destination.IsCompound() {
      FanOutWithin(source, destination, force, 0);
    }
  }

  lemma {:induction false} ConnectChildrenWithin(source: Plug, destination: Plug, force: bool, i: nat)
    requires i <= |source.children| == |destination.children|
    ensures forall c :: c in ConnectChildren(source, destination, force, i) ==>
      c.source in ChildIds(source.children) && c.destination in ChildIds(destination.children)
    decreases source, destination, 0, |source.children| - i
  {
    if i < |source.children| {
      ConnectWithin(source.children[i], destination.children[i], force);
      ChildIdsHas(source.children, i);
      ChildIdsHas(destination.children, i);
      ConnectChildrenWithin(source, destination, force, i + 1);
    }
  }

  lemma {:induction false} FanOutWithin(source: Plug, destination: Plug, force: bool, i: nat)
    requires i <= |destination.children|
    ensures forall c :: c in FanOut(source, destination, force, i) ==>
      c.source in Ids(source) && c.destination in ChildIds(destination.children)
    decreases source, destination, 0, |destination.children| - i
  {
    if i < |destination.children| {
      ConnectWithin(source, destination.children[i], force);
      ChildIdsHas(destination.children, i);
      FanOutWithin(source, destination, force, i + 1);
    }
  }

  /** Compounds of equal arity: the parents themselves are never connected, only plugs below them. */
  lemma EqualArityNeverParents(source: Plug, destination: Plug, force: bool)
    requires source.IsCompound() && destination.IsCompound()
    requires |source.children| == |destination.children|
    requires Distinct(source) && Distinct(destination)
    ensures forall c :: c in Connect(source, destination, force) ==>
      c.source != source.id && c.destination != destination.id
      && c.source in ChildIds(source.children) && c.destination in ChildIds(destination.children)
  {
    ConnectChildrenWithin(source, destination, force, 0);
  }

  /** The non-compound plugs of a tree, depth first: where a simple source fans out to. */
  function Leaves(p: Plug): seq<nat>
    decreases p, 1
  {
    if p.IsCompound() then ChildLeaves(p.children, 0) else [p.id]
  }

  function ChildLeaves(children: seq<Plug>, i: nat): seq<nat>
    requires i <= |children|
    decreases children, 0, |children| - i
  {
    if i == |children| then [] else Leaves(children[i]) + ChildLeaves(children, i + 1)
  }

  /** The connections from one source to each of the given destinations, with `force`. */
  function From(source: nat, destinations: seq<nat>, force: bool): (r: seq<Connection>)
    ensures |r| == |destinations|
    ensures forall k :: 0 <= k < |r| ==> r[k] == Connection(source, destinations[k], force)
  {
    if destinations == [] then [] else [Connection(source, destinations[0], force)] + From(source, destinations[1..], force)
  }

  lemma FromSplit(source: nat, a: seq<nat>, b: seq<nat>, force: bool)
    ensures From(source, a + b, force) == From(source, a, force) + From(source, b, force)
  {
  }

  /** A simple source is connected to every leaf of the destination, in depth-first order, and to nothing else. */
  lemma {:induction false} FanOutReachesLeaves(source: Plug, destination: Plug, force: bool)
    requires !source.IsCompound()
    ensures Connect(source, destination, force) == From(source.id, Leaves(destination), force)
    decreases destination, 1
  {
    if destination.IsCompound() {
      FanOutLeaves(source, destination, force, 0);
    }
  }

  lemma {:induction false} FanOutLeaves(source: Plug, destination: Plug, force: bool, i: nat)
    requires !source.IsCompound() && i <= |destination.children|
    ensures FanOut(source, destination, force, i) == From(source.id, ChildLeaves(destination.children, i), force)
    decreases destination, 0, |destination.children| - i
  {
    if i < |destination.children| {
      FanOutReachesLeaves(source, destination.children[i], force);
      FanOutLeaves(source, destination, force, i + 1);
      FromSplit(source.id, Leaves(destination.children[i]), ChildLeaves(destination.children, i + 1), force);
    }
  }

  // ----- disconnectPlugs -----

  function DisconnectChildren(source: Plug, destination: Plug, i: nat): (r: seq<(nat, nat)>)
    requires i <= |source.children| == |destination.children|
    ensures forall p :: p in r ==> p.0 in ChildIds(source.children) && p.1 in ChildIds(destination.children)
    decreases source, destination, 0, |source.children| - i
  {
    if i == |source.children| then []
    else
      ChildIdsHas(source.children, i);
      ChildIdsHas(destination.children, i);
      Disconnect(source.children[i], destination.children[i]) + DisconnectChildren(source, destination, i + 1)
  }

  /** builtins `disconnectPlugs`: the equal-arity recursion of `connectPlugs`, without the fan-out. */
  function Disconnect(source: Plug, destination: Plug): (r: seq<(nat, nat)>)
    ensures forall p :: p in r ==> p.0 in Ids(source) && p.1 in Ids(destination)
    decreases source, destination, 1
  {
    if source.IsCompound() && destination.IsCompound() && |source.children| == |destination.children| then
      DisconnectChildren(source, destination, 0)
    else [(source.id, destination.id)]
  }

  /** The plug pairs of a list of connections. */
  function Pairs(cs: seq<Connection>): (r: seq<(nat, nat)>)
    ensures |r| == |cs|
    ensures forall k :: 0 <= k < |cs| ==> r[k] == (cs[k].source, cs[k].destination)
  {
    if cs == [] then [] else [(cs[0].source, cs[0].destination)] + Pairs(cs[1..])
  }

  lemma PairsSplit(a: seq<Connection>, b: seq<Connection>)
    ensures Pairs(a + b) == Pairs(a) + Pairs(b)
  {
  }

  /** No simple plug is ever paired with a compound one: the case where connecting fans out. */
  predicate NoFanOut(source: Plug, destination: Plug)
    decreases source, destination, 1
  {
    && !(!source.IsCompound() && destination.IsCompound())
    && (source.IsCompound() && destination.IsCompound() && |source.children| == |destination.children| ==>
          ChildrenNoFanOut(source, destination, 0))
  }

  predicate ChildrenNoFanOut(source: Plug, destination: Plug, i: nat)
    requires i <= |source.children| == |destination.children|
    decreases source, destination, 0, |source.children| - i
  {
    i == |source.children|
    || (NoFanOut(source.children[i], destination.children[i]) && ChildrenNoFanOut(source, destination, i + 1))
  }

  /** Where connecting does not fan out, disconnecting undoes exactly the pairs connecting made, in the same order. */
  lemma {:induction false} DisconnectMirrorsConnect(source: Plug, destination: Plug, force: bool)
    requires NoFanOut(source, destination)
    ensures Disconnect(source, destination) == Pairs(Connect(source, destination, force))
    decreases source, destination, 1
  {
    if source.IsCompound() && destination.IsCompound() && |source.children| == |destination.children| {
      DisconnectChildrenMirror(source, destination, force, 0);
    }
  }

  lemma {:induction false} DisconnectChildrenMirror(source: Plug, destination: Plug, force: bool, i: nat)
    requires i <= |source.children| == |destination.children|
    requires ChildrenNoFanOut(source, destination, i)
    ensures DisconnectChildren(source, destination, i) == Pairs(ConnectChildren(source, destination, force, i))
    decreases source, destination, 0, |source.children| - i
  {
    if i < |source.children| {
      DisconnectMirrorsConnect(source.children[i], destination.children[i], force);
      DisconnectChildrenMirror(source, destination, force, i + 1);
      PairsSplit(Connect(source.children[i], destination.children[i], force),
                 ConnectChildren(source, destination, force, i + 1));
    }
  }

  // ----- nodetypes connectPlugs -----

  function LegacyChildren(source: Plug, destination: Plug, i: nat): (r: seq<Connection>)
    requires i <= |source.children| == |destination.children|
    ensures forall c :: c in r ==> !c.force
    decreases source, destination, 0, |source.children| - i
  {
    if i == |source.children| then []
    else LegacyConnect(source.children[i], destination.children[i], false) + LegacyChildren(source, destination, i + 1)
  }

  /**
   * nodetypes `connectPlugs` as written: equal-arity compounds recurse child
   * by child, but the recursive calls do not pass `force`, which falls back
   * to False; every other case is one direct connection.
   */
  function LegacyConnect(source: Plug, destination: Plug, force: bool): (r: seq<Connection>)
    ensures forall c :: c in r && c.force ==> r == [Connection(source.id, destination.id, force)]
    decreases source, destination, 1
  {
    if source.IsCompound() && destination.IsCompound() && |source.children| == |destination.children| then
      LegacyChildren(source, destination, 0)
    else [Connection(source.id, destination.id, force)]
  }

  /** A forced connection of two one-child compounds reaches the host unforced. */
  lemma LegacyDropsForce()
    ensures var source := Plug(0, CompoundPlug, [Plug(1, Leaf, [])]);
      var destination := Plug(2, CompoundPlug, [Plug(3, Leaf, [])]);
      LegacyConnect(source, destination, true) == [Connection(1, 3, false)]
  {
    var source := Plug(0, CompoundPlug, [Plug(1, Leaf, [])]);
    var destination := Plug(2, CompoundPlug, [Plug(3, Leaf, [])]);
    assert LegacyChildren(source, destination, 1) == [];
  }

  function DirectChildren(source: Plug, destination: Plug, force: bool, i: nat): (r: seq<Connection>)
    requires i <= |source.children| == |destination.children|
    ensures forall c :: c in r ==> c.force == force
    decreases source, destination, 0, |source.children| - i
  {
    if i == |source.children| then []
    else DirectConnect(source.children[i], destination.children[i], force) + DirectChildren(source, destination, force, i + 1)
  }

  /** nodetypes `connectPlugs` with `force` passed down, as the builtins version does. */
  function DirectConnect(source: Plug, destination: Plug, force: bool): (r: seq<Connection>)
    ensures forall c :: c in r ==> c.force == force
    decreases source, destination, 1
  {
    if source.IsCompound() && destination.IsCompound() && |source.children| == |destination.children| then
      DirectChildren(source, destination, force, 0)
    else [Connection(source.id, destination.id, force)]
  }

  /** Where the builtins version does not fan out, it and the corrected nodetypes version make the same calls. */
  lemma {:induction false} DirectAgreesWithoutFanOut(source: Plug, destination: Plug, force: bool)
    requires NoFanOut(source, destination)
    ensures DirectConnect(source, destination, force) == Connect(source, destination, force)
    decreases source, destination, 1
  {
    if source.IsCompound() && destination.IsCompound() && |source.children| == |destination.children| {
      DirectChildrenAgree(source, destination, force, 0);
    }
  }

  lemma {:induction false} DirectChildrenAgree(source: Plug, destination: Plug, force: bool, i: nat)
    requires i <= |source.children| == |destination.children|
    requires ChildrenNoFanOut(source, destination, i)
    ensures DirectChildren(source, destination, force, i) == ConnectChildren(source, destination, force, i)
    decreases source, destination, 0, |source.children| - i
  {
    if i < |source.children| {
      DirectAgreesWithoutFanOut(source.children[i], destination.children[i], force);
      DirectChildrenAgree(source, destination, force, i + 1);
    }
  }

  /** Unforced, the version as written and the corrected one make the same calls. */
  lemma {:induction false} LegacyAgreesUnforced(source: Plug, destination: Plug)
    ensures LegacyConnect(source, destination, false) == DirectConnect(source, destination, false)
    decreases source, destination, 1
  {
    if source.IsCompound() && destination.IsCompound() && |source.children| == |destination.children| {
      LegacyChildrenAgree(source, destination, 0);
    }
  }

  lemma {:induction false} LegacyChildrenAgree(source: Plug, destination: Plug, i: nat)
    requires i <= |source.children| == |destination.children|
    ensures LegacyChildren(source, destination, i) == DirectChildren(source, destination, false, i)
    decreases source, destination, 0, |source.children| - i
  {
    if i < |source.children| {
      LegacyAgreesUnforced(source.children[i], destination.children[i]);
      LegacyChildrenAgree(source, destination, i + 1);
    }
  }
}
