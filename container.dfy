// `ContainerBaseMixin` (nodetypes/containerbasemixin.py): the nodes
// published to a container through its `publishedNodeInfo[i].publishedNode`
// elements, the container's hyper layout, and the lock held while its
// members are deleted.
module Container {
  import opened Wrappers
  import opened SlotArray
  import HyperLayout

  /** An item of a list given to `publishNodes`: an `(alias, node)` tuple or a bare node. */
  datatype ListItem = AliasPair(alias: string, node: nat) | Bare(node: nat)

  /** The argument of `publishNodes`: a list, the items of a dict in order, or anything else. */
  datatype Publishable =
    | ListOf(items: seq<ListItem>)
    | DictOf(pairs: seq<(string, nat)>)
    | NotASequence

  /** What `publishNodes` publishes at index `i`: the alias, if any, and the node. */
  function Entries(p: Publishable): seq<(Option<string>, nat)>
  {
    match p
    case ListOf(items) =>
      seq(|items|, i requires 0 <= i < |items| =>
        match items[i]
        case AliasPair(alias, node) => (Some(alias), node)
        case Bare(node) => (None, node))
    case DictOf(pairs) => seq(|pairs|, i requires 0 <= i < |pairs| => (Some(pairs[i].0), pairs[i].1))
    case NotASequence => []
  }

  /** Entry `i` names a node not published before and not named by an earlier entry. */
  predicate NewAt(entries: seq<(Option<string>, nat)>, i: nat, before: map<nat, nat>)
    requires i < |entries|
  {
    && entries[i].1 !in before.Values
    && forall j :: 0 <= j < i ==> entries[j].1 != entries[i].1
  }

  /** `iterPublishedNodeInfo(skipEmptyElements)`: the indices of the elements, without the empty ones when asked. */
  function InfoIndices(indices: seq<nat>, published: map<nat, nat>, skipEmpty: bool): (r: seq<nat>)
    ensures forall k :: k in r ==> k in indices
  {
    if indices == [] then []
    else (if skipEmpty && indices[0] !in published then [] else [indices[0]])
         + InfoIndices(indices[1..], published, skipEmpty)
  }

  /** Without skipping, every element is listed. */
  lemma {:induction false} InfoIndicesAll(indices: seq<nat>, published: map<nat, nat>)
    ensures InfoIndices(indices, published, false) == indices
  {
    if indices != [] {
      InfoIndicesAll(indices[1..], published);
      assert indices == [indices[0]] + indices[1..];
    }
  }

  /** With skipping, exactly the elements holding a node are listed. */
  lemma {:induction false} InfoIndicesFiltered(indices: seq<nat>, published: map<nat, nat>)
    ensures forall k :: k in InfoIndices(indices, published, true) <==> k in indices && k in published
  {
    if indices != [] {
      InfoIndicesFiltered(indices[1..], published);
      assert forall k :: k in indices <==> k == indices[0] || k in indices[1..];
    }
  }

  /** Physical order is kept. */
  lemma {:induction false} InfoIndicesOrdered(indices: seq<nat>, published: map<nat, nat>, skipEmpty: bool)
    requires Increasing(indices)
    ensures Increasing(InfoIndices(indices, published, skipEmpty))
  {
    if indices != [] {
      var rest := indices[1..];
      InfoIndicesOrdered(rest, published, skipEmpty);
      var tail := InfoIndices(rest, published, skipEmpty);
      forall i | 0 <= i < |tail| ensures indices[0] < tail[i] {
        var k := tail[i];
        assert k in rest;
      }
    }
  }

  /** The entries before `i` that name new nodes are at their indices. */
  ghost predicate Placed(entries: seq<(Option<string>, nat)>, i: nat, before: map<nat, nat>, now: map<nat, nat>)
    requires i <= |entries|
  {
    forall j :: 0 <= j < i && NewAt(entries, j, before) ==> j in now && now[j] == entries[j].1
  }

  /** The entries before `i` that name new nodes with an alias gave their element that alias. */
  ghost predicate Aliased(entries: seq<(Option<string>, nat)>, i: nat, before: map<nat, nat>, aliases: map<nat, string>)
    requires i <= |entries|
  {
    forall j :: 0 <= j < i && NewAt(entries, j, before) && entries[j].0.Some? ==>
      j in aliases && aliases[j] == entries[j].0.value
  }

  /** One `publishNode(entries[i], index=i, alias=...)` call sets at most the alias of element `i`. */
  lemma AliasedStep(entries: seq<(Option<string>, nat)>, i: nat, before: map<nat, nat>,
                    prev: map<nat, string>, now: map<nat, string>, done: bool)
    requires i < |entries|
    requires Aliased(entries, i, before, prev)
    requires done ==> now == (if entries[i].0.Some? then prev[i := entries[i].0.value] else prev)
    requires !done ==> now == prev
    requires NewAt(entries, i, before) ==> done
    ensures Aliased(entries, i + 1, before, now)
  {
    forall j | 0 <= j < i + 1 && NewAt(entries, j, before) && entries[j].0.Some?
      ensures j in now && now[j] == entries[j].0.value
    {
      if j < i {
        assert j in prev && prev[j] == entries[j].0.value;
      }
    }
  }

  /** The elements from `i` on hold what they held. */
  ghost predicate KeptAbove(i: nat, before: map<nat, nat>, now: map<nat, nat>)
  {
    forall k :: k in before && k >= i ==> k in now && now[k] == before[k]
  }

  /** Every node published was published before or is named by an entry before `i`. */
  ghost predicate FromEntries(entries: seq<(Option<string>, nat)>, i: nat, before: map<nat, nat>, now: map<nat, nat>)
    requires i <= |entries|
  {
    forall k :: k in now ==> now[k] in before.Values || exists j :: 0 <= j < i && now[k] == entries[j].1
  }

  /** A new entry's node is not published yet when its turn comes. */
  lemma NewIsUnpublished(entries: seq<(Option<string>, nat)>, i: nat, before: map<nat, nat>, now: map<nat, nat>)
    requires i < |entries| && NewAt(entries, i, before) && FromEntries(entries, i, before, now)
    ensures forall k :: k in now ==> now[k] != entries[i].1
  {
    forall k | k in now ensures now[k] != entries[i].1 {
      if now[k] !in before.Values {
        var j :| 0 <= j < i && now[k] == entries[j].1;
      }
    }
  }

  /** One `publishNode(entries[i], index=i)` call keeps the three loop facts. */
  lemma PublishStep(entries: seq<(Option<string>, nat)>, i: nat, before: map<nat, nat>,
                    prev: map<nat, nat>, now: map<nat, nat>, done: bool)
    requires i < |entries|
    requires Placed(entries, i, before, prev) && KeptAbove(i, before, prev) && FromEntries(entries, i, before, prev)
    requires done ==> now == prev[i := entries[i].1]
    requires !done ==> now == prev
    requires NewAt(entries, i, before) ==> done
    ensures Placed(entries, i + 1, before, now) && KeptAbove(i + 1, before, now) && FromEntries(entries, i + 1, before, now)
  {
    PlacedStep(entries, i, before, prev, now, done);
    FromEntriesStep(entries, i, before, prev, now, done);
  }

  lemma PlacedStep(entries: seq<(Option<string>, nat)>, i: nat, before: map<nat, nat>,
                   prev: map<nat, nat>, now: map<nat, nat>, done: bool)
    requires i < |entries|
    requires Placed(entries, i, before, prev)
    requires done ==> now == prev[i := entries[i].1]
    requires !done ==> now == prev
    requires NewAt(entries, i, before) ==> done
    ensures Placed(entries, i + 1, before, now)
  {
    forall j | 0 <= j < i + 1 && NewAt(entries, j, before) ensures j in now && now[j] == entries[j].1 {
      if j < i {
        assert j in prev && prev[j] == entries[j].1;
      }
    }
  }

  lemma FromEntriesStep(entries: seq<(Option<string>, nat)>, i: nat, before: map<nat, nat>,
                        prev: map<nat, nat>, now: map<nat, nat>, done: bool)
    requires i < |entries|
    requires FromEntries(entries, i, before, prev)
    requires done ==> now == prev[i := entries[i].1]
    requires !done ==> now == prev
    ensures FromEntries(entries, i + 1, before, now)
  {
    forall k | k in now
      ensures now[k] in before.Values || exists j :: 0 <= j < i + 1 && now[k] == entries[j].1
    {
      if k == i && done {
        assert now[k] == entries[i].1;
      } else {
        assert k in prev && now[k] == prev[k];
        if now[k] !in before.Values {
          var j :| 0 <= j < i && prev[k] == entries[j].1;
          assert 0 <= j < i + 1 && now[k] == entries[j].1;
        }
      }
    }
  }

  /** What `deleteMembers` does, in order. */
  datatype Event = Locked | Deleted(node: nat) | Unlocked

  class ContainerNode {
    /** The existing `publishedNodeInfo` elements, in physical order. */
    var indices: seq<nat>
    /** The node connected into `publishedNodeInfo[i].publishedNode`, for each connected `i`. */
    var published: map<nat, nat>
    /** The alias given to `publishedNodeInfo[i]`. */
    var aliases: map<nat, string>
    /** The node connected into `hyperLayout`, if any. */
    var layout: HyperLayout.Layout?
    var locked: bool
    var log: seq<Event>
    /** `getNextAvailableConnection('publishedNodeInfo', child=publishedNode)`: an element whose node is unconnected. */
    const nextAvailable: map<nat, nat> -> nat
    /** The same helper for the `hyperPosition` elements of a layout this container creates. */
    const layoutNext: map<nat, nat> -> nat

    ghost predicate Valid()
      reads this, layout
    {
      && WellFormed(indices, published)
      && (forall m :: nextAvailable(m) !in m)
      && (forall m :: layoutNext(m) !in m)
      && (layout != null ==> layout.Valid())
    }

    constructor (nextAvailable: map<nat, nat> -> nat, layoutNext: map<nat, nat> -> nat)
      requires forall m :: nextAvailable(m) !in m
      requires forall m :: layoutNext(m) !in m
      ensures Valid() && indices == [] && published == map[] && aliases == map[]
      ensures layout == null && !locked && log == []
      ensures this.nextAvailable == nextAvailable && this.layoutNext == layoutNext
    {
      indices := [];
      published := map[];
      aliases := map[];
      layout := null;
      locked := false;
      log := [];
      this.nextAvailable := nextAvailable;
      this.layoutNext := layoutNext;
    }

    /** `hasPublishedNode`. */
    predicate HasPublishedNode(node: nat)
      reads this
    {
      MemberIndex(indices, published, node).Some?
    }

    /** `publishedNodeCount`: the nodes `iterPublishedNodes` yields. */
    function PublishedNodeCount(): nat
      reads this
    {
      |MembersOf(indices, published)|
    }

    /** `getPublishedNode(index)`: the node at that element, None for an empty one. */
    function GetPublishedNode(index: nat): (r: Option<nat>)
      reads this
      ensures r.Some? <==> index in published
      ensures r.Some? ==> r.value == published[index]
    {
      if index in published then Some(published[index]) else None
    }

    /**
     * `publishNode(node, index, alias)`: False, with nothing changed, for a
     * node already published; otherwise the node is connected at the given
     * index (the next available one by default), the alias is set when one
     * is given, and True is returned.
     */
    method PublishNode(node: nat, index: Option<nat>, alias: Option<string>) returns (done: bool)
      requires Valid()
      modifies this
      ensures Valid() && layout == old(layout) && locked == old(locked) && log == old(log)
      ensures old(HasPublishedNode(node)) ==>
        !done && indices == old(indices) && published == old(published) && aliases == old(aliases)
      ensures !old(HasPublishedNode(node)) ==>
        var i := if index.Some? then index.value else old(nextAvailable(published));
        && done
        && indices == InsertSorted(old(indices), i)
        && published == old(published)[i := node]
        && aliases == (if alias.Some? then old(aliases)[i := alias.value] else old(aliases))
        && MemberIndex(indices, published, node) == Some(i)
    {
      if HasPublishedNode(node) {
        return false;
      }
      var i := if index.Some? then index.value else nextAvailable(published);
      ConnectKeepsWellFormed(indices, published, i, node);
      indices := InsertSorted(indices, i);
      published := published[i := node];
      if alias.Some? {
        aliases := aliases[i := alias.value];
      }
      MemberIndexUnique(indices, published, i, node);
      done := true;
    }

    /**
     * `publishNodes(nodes)`: TypeError for anything but a list or a dict;
     * otherwise entry `i` is published at index `i`. A node new to the
     * container ends up at its entry's index, elements past the last entry
     * are untouched, and no other node is published.
     */
    method PublishNodes(nodes: Publishable) returns (s: Status)
      requires Valid()
      modifies this
      ensures Valid() && layout == old(layout) && locked == old(locked) && log == old(log)
      ensures nodes.NotASequence? ==>
        s == Raised(TypeError) && indices == old(indices) && published == old(published) && aliases == old(aliases)
      ensures !nodes.NotASequence? ==> s == Done
      ensures var entries := Entries(nodes);
        && (forall i :: 0 <= i < |entries| && NewAt(entries, i, old(published)) ==>
              i in published && published[i] == entries[i].1)
        && (forall k :: k in old(published) && k >= |entries| ==> k in published && published[k] == old(published)[k])
        && (forall k :: k in published ==>
              published[k] in old(published).Values || exists j :: 0 <= j < |entries| && published[k] == entries[j].1)
        && (forall i :: 0 <= i < |entries| && NewAt(entries, i, old(published)) && entries[i].0.Some? ==>
              i in aliases && aliases[i] == entries[i].0.value)
    {
      if nodes.NotASequence? {
        return Raised(TypeError);
      }
      var entries := Entries(nodes);
      var i := 0;
      while i < |entries|
        invariant i <= |entries| && Valid() && layout == old(layout) && locked == old(locked) && log == old(log)
        invariant Placed(entries, i, old(published), published)
        invariant KeptAbove(i, old(published), published)
        invariant FromEntries(entries, i, old(published), published)
        invariant Aliased(entries, i, old(published), aliases)
      {
        ghost var before := published;
        ghost var beforeAliases := aliases;
        if NewAt(entries, i, old(published)) {
          NewIsUnpublished(entries, i, old(published), published);
          NotConnected(indices, published, entries[i].1);
        }
        var done := PublishNode(entries[i].1, Some(i), entries[i].0);
        PublishStep(entries, i, old(published), before, published, done);
        AliasedStep(entries, i, old(published), beforeAliases, aliases, done);
        i := i + 1;
      }
      s := Done;
    }

    /** `unpublishNode`: nothing for an unpublished node; otherwise its element is emptied. */
    method UnpublishNode(node: nat)
      requires Valid()
      modifies this
      ensures Valid() && indices == old(indices) && aliases == old(aliases) && layout == old(layout)
      ensures locked == old(locked) && log == old(log)
      ensures !old(HasPublishedNode(node)) ==> published == old(published)
      ensures old(HasPublishedNode(node)) ==>
        published == old(published) - {old(MemberIndex(indices, published, node)).value} && !HasPublishedNode(node)
    {
      var index := MemberIndex(indices, published, node);
      if index.None? {
        return;
      }
      published := published - {index.value};
      NotConnected(indices, published, node);
    }

    /** `iterPublishedNodeInfo`: the loop over the elements in physical order. */
    method IterPublishedNodeInfo(skipEmptyElements: bool) returns (r: seq<nat>)
      ensures r == InfoIndices(indices, published, skipEmptyElements)
    {
      r := [];
      var i := 0;
      while i < |indices|
        invariant i <= |indices|
        invariant r + InfoIndices(indices[i..], published, skipEmptyElements) == InfoIndices(indices, published, skipEmptyElements)
      {
        assert indices[i..][1..] == indices[i + 1..];
        if !(indices[i] !in published && skipEmptyElements) {
          r := r + [indices[i]];
        }
        i := i + 1;
      }
    }

    /** `resetPublishedNodeInfo`: nothing while a node is published; otherwise every element is removed. */
    method ResetPublishedNodeInfo()
      requires Valid()
      modifies this
      ensures Valid() && published == old(published) && aliases == old(aliases) && layout == old(layout)
      ensures locked == old(locked) && log == old(log)
      ensures |old(published)| > 0 ==> indices == old(indices)
      ensures |old(published)| == 0 ==> indices == []
    {
      ConnectedCount(indices, published);
      if PublishedNodeCount() > 0 {
        return;
      }
      indices := [];
    }

    /** `getHyperLayout`: the attached layout, or a newly created one that is then attached. */
    method GetHyperLayout(newNode: nat) returns (l: HyperLayout.Layout)
      requires Valid()
      modifies this
      ensures Valid() && layout == l
      ensures old(layout) != null ==> l == old(layout)
      ensures old(layout) == null ==> fresh(l) && l.self == newNode && l.indices == [] && l.sources == map[]
      ensures indices == old(indices) && published == old(published) && aliases == old(aliases)
      ensures locked == old(locked) && log == old(log)
    {
      if layout != null {
        return layout;
      }
      l := new HyperLayout.Layout(newNode, layoutNext);
      layout := l;
    }

    /**
     * `__contains__`: a member of the hyper layout (which `getHyperLayout`
     * creates when missing) or a published node.
     */
    method Contains(node: nat, newNode: nat) returns (b: bool)
      requires Valid()
      modifies this
      ensures Valid() && layout != null
      ensures b == (old(layout != null && layout.HasMember(node)) || HasPublishedNode(node))
      ensures indices == old(indices) && published == old(published) && aliases == old(aliases)
      ensures locked == old(locked) && log == old(log)
      ensures old(layout) != null ==> layout == old(layout)
      ensures old(layout) == null ==> fresh(layout) && layout.self == newNode && layout.indices == [] && layout.sources == map[]
    {
      var l := GetHyperLayout(newNode);
      b := l.HasMember(node) || HasPublishedNode(node);
    }

    /**
     * `deleteMembers`: the container is locked, the layout's members and the
     * layout itself are deleted when there is one, and the container is
     * unlocked again, whatever its earlier lock state.
     */
    method DeleteMembers()
      requires Valid()
      modifies this
      ensures Valid() && !locked && layout == null
      ensures log == old(log) + [Locked]
        + (if old(layout) == null then []
           else Deletions(old(MembersOf(layout.indices, layout.sources))) + [Deleted(old(layout.self))])
        + [Unlocked]
      ensures indices == old(indices) && published == old(published) && aliases == old(aliases)
    {
      locked := true;
      log := log + [Locked];
      if layout != null {
        var members := layout.IterMembers();
        log := log + Deletions(members) + [Deleted(layout.self)];
        layout := null;
      }
      locked := false;
      log := log + [Unlocked];
    }
  }

  /** One deletion per node, in order. */
  function Deletions(nodes: seq<nat>): (r: seq<Event>)
    ensures |r| == |nodes|
    ensures forall i :: 0 <= i < |nodes| ==> r[i] == Deleted(nodes[i])
  {
    if nodes == [] then [] else [Deleted(nodes[0])] + Deletions(nodes[1..])
  }
}
