// nodetypes `PyTreeMixin` and `DagMixin`: walking up a node's parents,
// listing its children and siblings, visiting its descendants breadth-first,
// and splitting a DAG node's shapes into visible and intermediate ones.
module Hierarchy {
  import opened Wrappers

  // ---------------------------------------------------------------------
  // Parents
  // ---------------------------------------------------------------------

  /**
   * `rank` witnesses that the walk up `parent` ends: every parent ranks
   * below its child. The source loops forever on a cyclic parent chain.
   */
  ghost predicate Ranked(parent: map<nat, nat>, rank: map<nat, nat>)
  {
    forall n :: n in parent ==> n in rank && parent[n] in rank && rank[parent[n]] < rank[n]
  }

  function RankOf(rank: map<nat, nat>, n: nat): nat
  {
    if n in rank then rank[n] else 0
  }

  /**
   * `parents()`: the parent, the grandparent and so on, ending with the
   * first node that has no parent; empty exactly when `hasParent` is false.
   */
  function Ancestors(parent: map<nat, nat>, rank: map<nat, nat>, n: nat): (r: seq<nat>)
    requires Ranked(parent, rank)
    decreases RankOf(rank, n)
    ensures r == [] <==> n !in parent
    ensures forall x :: x in r ==> RankOf(rank, x) < RankOf(rank, n)
  {
    if n in parent then [parent[n]] + Ancestors(parent, rank, parent[n]) else []
  }

  /** `iterParents` walks the chain: the parent first, each next one the parent of the one before, and last a node with no parent. */
  lemma {:induction false} AncestorsChain(parent: map<nat, nat>, rank: map<nat, nat>, n: nat)
    requires Ranked(parent, rank)
    decreases RankOf(rank, n)
    ensures var r := Ancestors(parent, rank, n);
      && (r != [] ==> r[0] == parent[n] && r[|r| - 1] !in parent)
      && forall i :: 0 <= i < |r| - 1 ==> r[i] in parent && r[i + 1] == parent[r[i]]
  {
    if n in parent {
      AncestorsChain(parent, rank, parent[n]);
    }
  }

  /** `iterParents`: follows `parent` from the node until there is none. */
  method IterParents(parent: map<nat, nat>, ghost rank: map<nat, nat>, n: nat) returns (parents: seq<nat>)
    requires Ranked(parent, rank)
    ensures parents == Ancestors(parent, rank, n)
  {
    parents := [];
    var current := n;
    while current in parent
      invariant parents + Ancestors(parent, rank, current) == Ancestors(parent, rank, n)
      decreases RankOf(rank, current)
    {
      assert Ancestors(parent, rank, current) == [parent[current]] + Ancestors(parent, rank, parent[current]);
      current := parent[current];
      parents := parents + [current];
    }
  }

  /** `topLevelParent`: the last of `parents()`, or the node itself; either way a node with no parent. */
  method TopLevelParent(parent: map<nat, nat>, ghost rank: map<nat, nat>, n: nat) returns (top: nat)
    requires Ranked(parent, rank)
    ensures top !in parent
    ensures n !in parent ==> top == n
    ensures n in parent ==> top in Ancestors(parent, rank, n) && top != n
  {
    var parents := IterParents(parent, rank, n);
    AncestorsChain(parent, rank, n);
    if |parents| > 0 {
      top := parents[|parents| - 1];
    } else {
      top := n;
    }
  }

  /** The nodes of `xs` that are of the type, in their order (`isinstance` / `hasFn`). */
  function OfType(xs: seq<nat>, typed: set<nat>): (r: seq<nat>)
    ensures forall x :: x in r <==> x in xs && x in typed
    ensures |r| <= |xs|
  {
    if xs == [] then []
    else
      assert forall x :: x in xs <==> x == xs[0] || x in xs[1..];
      if xs[0] in typed then [xs[0]] + OfType(xs[1..], typed) else OfType(xs[1..], typed)
  }

  /** Filtering keeps the traversal order: the filter of a concatenation is the concatenation of the filters. */
  lemma {:induction false} OfTypeAppend(a: seq<nat>, b: seq<nat>, typed: set<nat>)
    ensures OfType(a + b, typed) == OfType(a, typed) + OfType(b, typed)
  {
    if a != [] {
      assert (a + b)[1..] == a[1..] + b;
      OfTypeAppend(a[1..], b, typed);
    } else {
      assert a + b == b;
    }
  }

  /** `findAncestors(T)`: the ancestors of the type, nearest first. */
  function FindAncestors(parent: map<nat, nat>, rank: map<nat, nat>, n: nat, typed: set<nat>): (r: seq<nat>)
    requires Ranked(parent, rank)
    ensures forall x :: x in r <==> x in Ancestors(parent, rank, n) && x in typed
    ensures n !in parent ==> r == []
  {
    OfType(Ancestors(parent, rank, n), typed)
  }

  // ---------------------------------------------------------------------
  // DAG parents
  // ---------------------------------------------------------------------

  /**
   * `DagMixin.parent`: None when `parentCount` is 0, otherwise the parent
   * of the path's instance. A valid path's instance number is below the
   * parent count.
   */
  function DagParent(parents: seq<nat>, instance: nat): (r: Option<nat>)
    requires parents != [] ==> instance < |parents|
    ensures r.None? <==> |parents| == 0
    ensures r.Some? ==> r.value in parents && r.value == parents[instance]
  {
    if |parents| == 0 then None else Some(parents[instance])
  }

  /** The parents `DagMixin.iterParents(apiType)` yields: consecutive ancestors of the type, stopping at the first that is not. */
  function MatchingAncestors(parent: map<nat, nat>, rank: map<nat, nat>, n: nat, typed: set<nat>): (r: seq<nat>)
    requires Ranked(parent, rank)
    decreases RankOf(rank, n)
    ensures forall x :: x in r ==> x in typed
  {
    if n in parent && parent[n] in typed then [parent[n]] + MatchingAncestors(parent, rank, parent[n], typed) else []
  }

  /**
   * What the type filter cuts: the yielded parents are a prefix of all the
   * ancestors, and the ancestor right after them, if any, is not of the type.
   */
  lemma {:induction false} MatchingAncestorsPrefix(parent: map<nat, nat>, rank: map<nat, nat>, n: nat, typed: set<nat>)
    requires Ranked(parent, rank)
    decreases RankOf(rank, n)
    ensures var r := MatchingAncestors(parent, rank, n, typed);
      var all := Ancestors(parent, rank, n);
      && |r| <= |all| && all[..|r|] == r
      && (|r| < |all| ==> all[|r|] !in typed)
  {
    if n in parent && parent[n] in typed {
      MatchingAncestorsPrefix(parent, rank, parent[n], typed);
    }
  }

  /** A higher ancestor of the type is not reached past one that is not: for 0 -> 1 -> 2 with only 2 of the type, nothing is yielded. */
  lemma MatchingAncestorsStopEarly()
    ensures MatchingAncestors(map[0 := 1, 1 := 2], map[0 := 2, 1 := 1, 2 := 0], 0, {2}) == []
    ensures Ancestors(map[0 := 1, 1 := 2], map[0 := 2, 1 := 1, 2 := 0], 0) == [1, 2]
  {
    var parent, rank := map[0 := 1, 1 := 2], map[0 := 2, 1 := 1, 2 := 0];
    assert Ancestors(parent, rank, 2) == [];
    assert Ancestors(parent, rank, 1) == [2];
  }

  /** `DagMixin.iterParents(apiType)`: walks up while the parent has the function set, and breaks at the first that does not. */
  method IterDagParents(parent: map<nat, nat>, ghost rank: map<nat, nat>, n: nat, typed: set<nat>) returns (parents: seq<nat>)
    requires Ranked(parent, rank)
    ensures parents == MatchingAncestors(parent, rank, n, typed)
  {
    parents := [];
    var current := n;
    while current in parent
      invariant parents + MatchingAncestors(parent, rank, current, typed) == MatchingAncestors(parent, rank, n, typed)
      decreases RankOf(rank, current)
    {
      var next := parent[current];
      if next !in typed {
        break;
      }
      assert MatchingAncestors(parent, rank, current, typed) == [next] + MatchingAncestors(parent, rank, next, typed);
      parents := parents + [next];
      current := next;
    }
  }

  /**
   * `DagMixin.topLevelParent`: the last parent yielded, or the node itself.
   * It is the node or an ancestor of the type, and its own parent is
   * missing or not of the type.
   */
  method DagTopLevelParent(parent: map<nat, nat>, ghost rank: map<nat, nat>, n: nat, typed: set<nat>) returns (top: nat)
    requires Ranked(parent, rank)
    ensures top == n || (top in typed && top in Ancestors(parent, rank, n))
    ensures top !in parent || parent[top] !in typed
  {
    var parents := IterDagParents(parent, rank, n, typed);
    MatchingAncestorsPrefix(parent, rank, n, typed);
    AncestorsChain(parent, rank, n);
    ghost var all := Ancestors(parent, rank, n);
    if |parents| > 0 {
      top := parents[|parents| - 1];
      assert all[|parents| - 1] == top;
      assert |parents| < |all| ==> all[|parents|] == parent[top];
    } else {
      top := n;
    }
  }

  /**
   * The DAG the source reparents in: each node's parent, and the nodes that
   * have the `kDagNode` function set.
   */
  class DagScene {
    var parent: map<nat, nat>
    const dagNodes: set<nat>

    constructor (parent: map<nat, nat>, dagNodes: set<nat>)
      ensures this.parent == parent && this.dagNodes == dagNodes
    {
      this.parent := parent;
      this.dagNodes := dagNodes;
    }

    /**
     * `setParent`: nothing happens when the new parent is not a DAG node or
     * is already the parent; otherwise the node is reparented under it.
     */
    method SetParent(n: nat, p: nat)
      modifies this
      ensures p !in dagNodes ==> parent == old(parent)
      ensures n in old(parent) && old(parent)[n] == p ==> parent == old(parent)
      ensures p in dagNodes ==> parent == old(parent)[n := p] && parent[n] == p
    {
      if p !in dagNodes {
        return;
      }
      if n in parent && parent[n] == p {
        return;
      }
      parent := parent[n := p];
    }
  }

  // ---------------------------------------------------------------------
  // Children and siblings
  // ---------------------------------------------------------------------

  /** A destination of a node's `message` plug: the node it belongs to, that node's type and the plug's long name. */
  datatype Destination = Destination(node: nat, typeName: string, plugName: string)

  /** A destination that makes its node a child: a node of the same plugin, connected at its `parent` plug. */
  predicate IsChildLink(d: Destination, plugin: string)
  {
    d.typeName == plugin && d.plugName == "parent"
  }

  /** `children()`: the nodes of the child links among the destinations, in their order. */
  function ChildrenOf(dests: seq<Destination>, plugin: string): (r: seq<nat>)
    ensures |r| <= |dests|
    ensures forall x :: x in r <==> exists d :: d in dests && IsChildLink(d, plugin) && d.node == x
  {
    if dests == [] then []
    else
      var rest := ChildrenOf(dests[1..], plugin);
      assert forall d :: d in dests <==> d == dests[0] || d in dests[1..];
      if IsChildLink(dests[0], plugin) then [dests[0].node] + rest else rest
  }

  lemma {:induction false} ChildrenOfAppend(a: seq<Destination>, b: seq<Destination>, plugin: string)
    ensures ChildrenOf(a + b, plugin) == ChildrenOf(a, plugin) + ChildrenOf(b, plugin)
  {
    if a != [] {
      assert (a + b)[1..] == a[1..] + b;
      ChildrenOfAppend(a[1..], b, plugin);
    } else {
      assert a + b == b;
    }
  }

  /** `iterChildren`: walks the `message` destinations and yields each child link's node. */
  method IterChildren(dests: seq<Destination>, plugin: string) returns (children: seq<nat>)
    ensures children == ChildrenOf(dests, plugin)
  {
    children := [];
    for i := 0 to |dests|
      invariant children == ChildrenOf(dests[..i], plugin)
    {
      ChildrenOfAppend(dests[..i], [dests[i]], plugin);
      assert dests[..i + 1] == dests[..i] + [dests[i]];
      if IsChildLink(dests[i], plugin) {
        children := children + [dests[i].node];
      }
    }
    assert dests[..|dests|] == dests;
  }

  /** The destinations of a node's `message` plug. */
  function DestinationsOf(messages: map<nat, seq<Destination>>, n: nat): seq<Destination>
  {
    if n in messages then messages[n] else []
  }

  /** Every element of `xs` except `y`, in order (an identity test in the source). */
  function Without(xs: seq<nat>, y: nat): (r: seq<nat>)
    ensures forall x :: x in r <==> x in xs && x != y
    ensures |r| <= |xs|
  {
    if xs == [] then []
    else
      assert forall x :: x in xs <==> x == xs[0] || x in xs[1..];
      if xs[0] == y then Without(xs[1..], y) else [xs[0]] + Without(xs[1..], y)
  }

  /** `siblings`: the parent's children other than the node itself, or none without a parent. */
  function Siblings(parent: map<nat, nat>, messages: map<nat, seq<Destination>>, plugin: string, n: nat): (r: seq<nat>)
    ensures n !in parent ==> r == []
    ensures forall x :: x in r <==>
      (n in parent && x != n && x in ChildrenOf(DestinationsOf(messages, parent[n]), plugin))
  {
    if n in parent then Without(ChildrenOf(DestinationsOf(messages, parent[n]), plugin), n) else []
  }

  // ---------------------------------------------------------------------
  // Descendants, breadth-first
  // ---------------------------------------------------------------------

  /** Each node's children, as `children()` lists them. */
  function KidsOf(kids: map<nat, seq<nat>>, n: nat): seq<nat>
  {
    if n in kids then kids[n] else []
  }

  /** `rank` witnesses that descending through `kids` ends: every child ranks below its parent. */
  ghost predicate KidsRanked(kids: map<nat, seq<nat>>, rank: map<nat, nat>)
  {
    forall n, c :: n in kids && c in kids[n] ==> n in rank && c in rank && rank[c] < rank[n]
  }

  /** The number of visits a node and its descendants take. */
  ghost function Size(kids: map<nat, seq<nat>>, rank: map<nat, nat>, n: nat): nat
    requires KidsRanked(kids, rank)
    decreases RankOf(rank, n), 1, 0
  {
    1 + SizeAll(kids, rank, KidsOf(kids, n), RankOf(rank, n))
  }

  ghost function SizeAll(kids: map<nat, seq<nat>>, rank: map<nat, nat>, cs: seq<nat>, bound: nat): nat
    requires KidsRanked(kids, rank)
    requires forall c :: c in cs ==> RankOf(rank, c) < bound
    decreases bound, 0, |cs|
  {
    if cs == [] then 0 else Size(kids, rank, cs[0]) + SizeAll(kids, rank, cs[1..], bound)
  }

  /** The visits a queue still has to make. */
  ghost function Weight(kids: map<nat, seq<nat>>, rank: map<nat, nat>, q: seq<nat>): nat
    requires KidsRanked(kids, rank)
  {
    if q == [] then 0 else Size(kids, rank, q[0]) + Weight(kids, rank, q[1..])
  }

  lemma {:induction false} WeightAppend(kids: map<nat, seq<nat>>, rank: map<nat, nat>, a: seq<nat>, b: seq<nat>)
    requires KidsRanked(kids, rank)
    ensures Weight(kids, rank, a + b) == Weight(kids, rank, a) + Weight(kids, rank, b)
  {
    if a == [] {
      assert a + b == b;
    } else {
      assert (a + b)[1..] == a[1..] + b;
      WeightAppend(kids, rank, a[1..], b);
    }
  }

  lemma {:induction false} SizeAllIsWeight(kids: map<nat, seq<nat>>, rank: map<nat, nat>, cs: seq<nat>, bound: nat)
    requires KidsRanked(kids, rank)
    requires forall c :: c in cs ==> RankOf(rank, c) < bound
    ensures SizeAll(kids, rank, cs, bound) == Weight(kids, rank, cs)
  {
    if cs != [] {
      SizeAllIsWeight(kids, rank, cs[1..], bound);
    }
  }

  /** A node's visits: itself, then its children's. */
  lemma SizeIsWeightOfKids(kids: map<nat, seq<nat>>, rank: map<nat, nat>, n: nat)
    requires KidsRanked(kids, rank)
    ensures Size(kids, rank, n) == 1 + Weight(kids, rank, KidsOf(kids, n))
  {
    SizeAllIsWeight(kids, rank, KidsOf(kids, n), RankOf(rank, n));
  }

  /** Visiting the queue's head and queueing its children leaves one visit fewer. */
  lemma WeightPop(kids: map<nat, seq<nat>>, rank: map<nat, nat>, q: seq<nat>)
    requires KidsRanked(kids, rank) && q != []
    ensures Weight(kids, rank, q[1..] + KidsOf(kids, q[0])) + 1 == Weight(kids, rank, q)
  {
    WeightAppend(kids, rank, q[1..], KidsOf(kids, q[0]));
    SizeIsWeightOfKids(kids, rank, q[0]);
  }

  /** What the deque loop of `iterDescendants` yields from a queue: pop the head, yield it, queue its children. */
  function Bfs(kids: map<nat, seq<nat>>, rank: map<nat, nat>, q: seq<nat>): seq<nat>
    requires KidsRanked(kids, rank)
    decreases Weight(kids, rank, q)
  {
    if q == [] then []
    else
      WeightPop(kids, rank, q);
      [q[0]] + Bfs(kids, rank, q[1..] + KidsOf(kids, q[0]))
  }

  /** The children of every node of a level, level order kept. */
  function NextLevel(kids: map<nat, seq<nat>>, level: seq<nat>): (r: seq<nat>)
  {
    if level == [] then [] else KidsOf(kids, level[0]) + NextLevel(kids, level[1..])
  }

  lemma {:induction false} WeightNextLevel(kids: map<nat, seq<nat>>, rank: map<nat, nat>, level: seq<nat>)
    requires KidsRanked(kids, rank)
    ensures Weight(kids, rank, NextLevel(kids, level)) + |level| == Weight(kids, rank, level)
  {
    if level != [] {
      WeightNextLevel(kids, rank, level[1..]);
      WeightAppend(kids, rank, KidsOf(kids, level[0]), NextLevel(kids, level[1..]));
      SizeIsWeightOfKids(kids, rank, level[0]);
    }
  }

  /** The descendants level by level: the first level, then all of the next, and so on until a level is empty. */
  function Levels(kids: map<nat, seq<nat>>, rank: map<nat, nat>, level: seq<nat>): seq<nat>
    requires KidsRanked(kids, rank)
    decreases Weight(kids, rank, level)
  {
    if level == [] then []
    else
      WeightNextLevel(kids, rank, level);
      level + Levels(kids, rank, NextLevel(kids, level))
  }

  /** Working through a queue `a + b` yields all of `a` before anything `a`'s children contribute. */
  lemma {:induction false} BfsShift(kids: map<nat, seq<nat>>, rank: map<nat, nat>, a: seq<nat>, b: seq<nat>)
    requires KidsRanked(kids, rank)
    decreases |a|
    ensures Bfs(kids, rank, a + b) == a + Bfs(kids, rank, b + NextLevel(kids, a))
  {
    if a == [] {
      assert a + b == b;
      assert b + NextLevel(kids, a) == b;
    } else {
      var k := KidsOf(kids, a[0]);
      assert (a + b)[0] == a[0];
      assert (a + b)[1..] + k == a[1..] + (b + k);
      BfsShift(kids, rank, a[1..], b + k);
      assert b + k + NextLevel(kids, a[1..]) == b + NextLevel(kids, a);
      assert [a[0]] + (a[1..] + Bfs(kids, rank, b + NextLevel(kids, a))) == a + Bfs(kids, rank, b + NextLevel(kids, a));
    }
  }

  /** The deque walk is breadth-first: it yields every level in full before the next. */
  lemma {:induction false} BfsIsLevels(kids: map<nat, seq<nat>>, rank: map<nat, nat>, level: seq<nat>)
    requires KidsRanked(kids, rank)
    decreases Weight(kids, rank, level)
    ensures Bfs(kids, rank, level) == Levels(kids, rank, level)
  {
    if level != [] {
      BfsShift(kids, rank, level, []);
      assert level + [] == level;
      assert [] + NextLevel(kids, level) == NextLevel(kids, level);
      WeightNextLevel(kids, rank, level);
      BfsIsLevels(kids, rank, NextLevel(kids, level));
    }
  }

  /**
   * `iterDescendants`: a queue starts with the children; each node popped
   * is yielded and its children queued. The result is the descendants
   * level by level.
   */
  method IterDescendants(kids: map<nat, seq<nat>>, ghost rank: map<nat, nat>, n: nat) returns (descendants: seq<nat>)
    requires KidsRanked(kids, rank)
    ensures descendants == Levels(kids, rank, KidsOf(kids, n))
  {
    var queue := KidsOf(kids, n);
    descendants := [];
    while queue != []
      invariant descendants + Bfs(kids, rank, queue) == Bfs(kids, rank, KidsOf(kids, n))
      decreases Weight(kids, rank, queue)
    {
      var d := queue[0];
      WeightPop(kids, rank, queue);
      descendants := descendants + [d];
      queue := queue[1..] + KidsOf(kids, d);
    }
    BfsIsLevels(kids, rank, KidsOf(kids, n));
  }

  /** `findDescendants(T)`: the descendants of the type, in breadth-first order. */
  function FindDescendants(kids: map<nat, seq<nat>>, rank: map<nat, nat>, n: nat, typed: set<nat>): (r: seq<nat>)
    requires KidsRanked(kids, rank)
    ensures forall x :: x in r <==> x in Levels(kids, rank, KidsOf(kids, n)) && x in typed
  {
    BfsIsLevels(kids, rank, KidsOf(kids, n));
    OfType(Bfs(kids, rank, KidsOf(kids, n)), typed)
  }

  // ---------------------------------------------------------------------
  // Shapes
  // ---------------------------------------------------------------------

  /** A shape child as `iterShapes` yields it, with its `isIntermediateObject` flag. */
  datatype ShapeChild = ShapeChild(node: nat, intermediate: bool)

  /** The nodes `iterShapes` yields. */
  function ShapeNodes(ss: seq<ShapeChild>): (r: seq<nat>)
    ensures |r| == |ss| && forall i :: 0 <= i < |ss| ==> r[i] == ss[i].node
  {
    if ss == [] then [] else [ss[0].node] + ShapeNodes(ss[1..])
  }

  /** `shapes`: the shapes that are not intermediate objects, in order. */
  function Shapes(ss: seq<ShapeChild>): (r: seq<nat>)
    ensures |r| <= |ss|
    ensures forall x :: x in r <==> exists s :: s in ss && !s.intermediate && s.node == x
  {
    if ss == [] then []
    else
      assert forall s :: s in ss <==> s == ss[0] || s in ss[1..];
      if ss[0].intermediate then Shapes(ss[1..]) else [ss[0].node] + Shapes(ss[1..])
  }

  /** `intermediateObjects`: the shapes that are intermediate objects, in order. */
  function IntermediateObjects(ss: seq<ShapeChild>): (r: seq<nat>)
    ensures |r| <= |ss|
    ensures forall x :: x in r <==> exists s :: s in ss && s.intermediate && s.node == x
  {
    if ss == [] then []
    else
      assert forall s :: s in ss <==> s == ss[0] || s in ss[1..];
      if ss[0].intermediate then [ss[0].node] + IntermediateObjects(ss[1..]) else IntermediateObjects(ss[1..])
  }

  /** `shapes` and `intermediateObjects` split `iterShapes` between them, each shape going to exactly one. */
  lemma {:induction false} ShapesPartition(ss: seq<ShapeChild>)
    ensures |Shapes(ss)| + |IntermediateObjects(ss)| == |ss|
    ensures multiset(Shapes(ss)) + multiset(IntermediateObjects(ss)) == multiset(ShapeNodes(ss))
  {
    if ss != [] {
      ShapesPartition(ss[1..]);
      assert ShapeNodes(ss) == [ss[0].node] + ShapeNodes(ss[1..]);
    }
  }

  /**
   * `shape(index)` as written: the index is checked against
   * `numberOfShapesDirectlyBelow` (`count`) but used on `shapes()`, which
   * leaves out intermediate objects; an index between the two lengths
   * raises IndexError.
   */
  function ShapeAt(ss: seq<ShapeChild>, count: nat, index: int): (r: Result<Option<nat>>)
    ensures !(0 <= index < count) ==> r == Ok(None)
    ensures r.Err? <==> 0 <= index < count && index >= |Shapes(ss)|
    ensures r.Err? ==> r.error == IndexError
    ensures r.Ok? && r.value.Some? ==> 0 <= index < |Shapes(ss)| && r.value.value == Shapes(ss)[index]
    ensures r.Ok? && r.value.Some? ==> r.value.value in Shapes(ss)
  {
    if 0 <= index < count then
      var visible := Shapes(ss);
      if index < |visible| then Ok(Some(visible[index])) else Err(IndexError)
    else Ok(None)
  }

  /**
   * With the shape count taken over every shape below (intermediate ones
   * included), a transform with one visible and one intermediate shape
   * raises on `shape(1)`.
   */
  lemma ShapeAtIntermediateRaises()
    ensures ShapeAt([ShapeChild(1, false), ShapeChild(2, true)], 2, 1) == Err(IndexError)
  {
    var ss := [ShapeChild(1, false), ShapeChild(2, true)];
    assert ss[1..][1..] == [];
    assert Shapes(ss) == [1];
  }

  /** `shape(index)` as evidently intended: the index is checked against `shapes()` itself, so it never raises. */
  function ShapeAtCorrected(ss: seq<ShapeChild>, index: int): (r: Option<nat>)
    ensures r.Some? <==> 0 <= index < |Shapes(ss)|
    ensures r.Some? ==> r.value == Shapes(ss)[index] && r.value in Shapes(ss)
  {
    if 0 <= index < |Shapes(ss)| then Some(Shapes(ss)[index]) else None
  }

  /** Where the count is the number of visible shapes, the code as written and the corrected one agree. */
  lemma ShapeAtAgrees(ss: seq<ShapeChild>, index: int)
    ensures ShapeAt(ss, |Shapes(ss)|, index) == Ok(ShapeAtCorrected(ss, index))
  {
  }
}
