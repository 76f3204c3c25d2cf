// `MeshEdgeComponent.consolidateElements` (nodetypes): splitting an edge
// component into groups of connected edges.
module MeshConsolidate {
  import opened Wrappers
  import opened PyValues
  import opened MeshTopology
  import opened MeshComponents
  import opened MeshGraph

  /** `[x for x in xs if x in processed and not processed[x]]`. */
  function Unprocessed(processed: map<int, bool>, xs: seq<int>): (r: seq<int>)
    ensures forall x :: x in r <==> x in xs && x in processed && !processed[x]
  {
    if xs == [] then []
    else
      var head := xs[0];
      assert xs == [head] + xs[1..];
      (if head in processed && !processed[head] then [head] else []) + Unprocessed(processed, xs[1..])
  }

  /** `processed.update([(x, True) for x in xs])`. */
  function MarkAll(processed: map<int, bool>, xs: seq<int>): (r: map<int, bool>)
    ensures r.Keys == processed.Keys + (set x | x in xs)
    ensures forall x :: x in r ==> (r[x] <==> x in xs || processed[x])
    decreases |xs|
  {
    if xs == [] then processed
    else
      var head := xs[0];
      assert xs == [head] + xs[1..];
      MarkAll(processed[head := true], xs[1..])
  }

  /** The keys still marked unprocessed. */
  ghost function Pending(processed: map<int, bool>): set<int>
  {
    set x | x in processed && !processed[x]
  }

  /** `x` is a neighbour of some member of `xs`. */
  ghost predicate Reached(m: Mesh, xs: seq<int>, x: int)
  {
    exists z :: z in xs && x in m.adj(Edge, Edge, z)
  }

  /** One growth round keeps every non-seed member a neighbour of a member. */
  lemma ReachedGrow(m: Mesh, seed: int, grown: seq<int>, added: seq<int>)
    requires forall x :: x in added ==> x in Gather(m, Edge, Edge, grown)
    requires forall x :: x in grown && x != seed ==> Reached(m, grown, x)
    ensures forall x :: x in grown + added && x != seed ==> Reached(m, grown + added, x)
  {
    forall x | x in grown + added && x != seed ensures Reached(m, grown + added, x) {
      if x in grown {
        var z :| z in grown && x in m.adj(Edge, Edge, z);
        assert z in grown + added && x in m.adj(Edge, Edge, z);
      } else {
        assert x in added;
        GatherFrom(m, Edge, Edge, grown, x);
        var k :| 0 <= k < |grown| && x in m.adj(Edge, Edge, grown[k]);
        var z := grown[k];
        assert z in grown + added && x in m.adj(Edge, Edge, z);
      }
    }
  }

  /**
   * The growth loop for one seed: repeatedly appends the unprocessed edges
   * connected to the group so far and marks them, until a round adds nothing.
   * The seed itself is not marked; every other member is, and each was
   * unprocessed when it joined and is a neighbour of an earlier member. On
   * return every connected key is marked.
   */
  method Grow(m: Mesh, processed: map<int, bool>, element: int) returns (edgeIndices: seq<int>, done: map<int, bool>)
    requires element in processed && !processed[element]
    ensures done.Keys == processed.Keys
    ensures |edgeIndices| > 0 && edgeIndices[0] == element
    ensures forall x :: x in edgeIndices ==> x in processed && !processed[x]
    ensures forall x :: x in edgeIndices && x != element ==> done[x] && Reached(m, edgeIndices, x)
    ensures forall x :: x in processed && processed[x] ==> done[x]
    ensures forall x :: x in done && done[x] ==> processed[x] || x in edgeIndices
    ensures forall x, y :: x in edgeIndices && y in m.adj(Edge, Edge, x) && y in done ==> done[y]
  {
    edgeIndices := [element];
    done := processed;
    var diff := |edgeIndices|;
    while diff > 0
      invariant diff >= 0
      invariant done.Keys == processed.Keys
      invariant |edgeIndices| > 0 && edgeIndices[0] == element
      invariant forall x :: x in edgeIndices ==> x in processed && !processed[x]
      invariant forall x :: x in edgeIndices && x != element ==> done[x] && Reached(m, edgeIndices, x)
      invariant forall x :: x in processed && processed[x] ==> done[x]
      invariant forall x :: x in done && done[x] ==> processed[x] || x in edgeIndices
      invariant diff == 0 ==> forall x, y :: x in edgeIndices && y in m.adj(Edge, Edge, x) && y in done ==> done[y]
      decreases |Pending(done)|, diff
    {
      var before := |edgeIndices|;
      var neighbours := GatherLoop(m, Edge, Edge, edgeIndices);
      var connectedEdges := Unprocessed(done, neighbours);
      ghost var was := done;
      ghost var grown := edgeIndices;
      edgeIndices := edgeIndices + connectedEdges;
      done := MarkAll(done, connectedEdges);
      ReachedGrow(m, element, grown, connectedEdges);
      diff := |edgeIndices| - before;
      if diff == 0 {
        assert connectedEdges == [];
        assert edgeIndices == grown;
        forall x, y | x in edgeIndices && y in m.adj(Edge, Edge, x) && y in done ensures done[y] {
          var k :| 0 <= k < |grown| && grown[k] == x;
          assert y in neighbours;
        }
      } else {
        var first := connectedEdges[0];
        assert first in connectedEdges;
        assert Pending(done) <= Pending(was);
        assert first in Pending(was) && first !in Pending(done);
        SubsetCard(Pending(done), Pending(was));
      }
    }
  }

  /** The members of a deque, as the keys of `dict.fromkeys`. */
  function Members(s: seq<int>): (r: set<int>)
    ensures forall x :: x in r <==> x in s
  {
    set x | x in s
  }

  /** `y` is in one of the first `upto` groups. */
  ghost predicate InSome(groups: seq<seq<int>>, y: int, upto: nat)
  {
    exists j :: 0 <= j < upto && j < |groups| && y in groups[j]
  }

  /** Every key connected to group j lies in group j or an earlier one. */
  ghost predicate GroupClosed(m: Mesh, keys: set<int>, groups: seq<seq<int>>, j: nat)
    requires j < |groups|
  {
    forall x, y :: x in groups[j] && y in m.adj(Edge, Edge, x) && y in keys ==> InSome(groups, y, j + 1)
  }

  lemma InSomeAppend(groups: seq<seq<int>>, g: seq<int>, y: int, upto: nat)
    requires upto <= |groups|
    ensures InSome(groups, y, upto) <==> InSome(groups + [g], y, upto)
  {
    if InSome(groups, y, upto) {
      var j :| 0 <= j < upto && j < |groups| && y in groups[j];
      assert (groups + [g])[j] == groups[j];
    }
    if InSome(groups + [g], y, upto) {
      var j :| 0 <= j < upto && j < |groups + [g]| && y in (groups + [g])[j];
      assert (groups + [g])[j] == groups[j];
    }
  }

  lemma GroupClosedAppend(m: Mesh, keys: set<int>, groups: seq<seq<int>>, g: seq<int>, j: nat)
    requires j < |groups| && GroupClosed(m, keys, groups, j)
    ensures GroupClosed(m, keys, groups + [g], j)
  {
    forall x, y | x in (groups + [g])[j] && y in m.adj(Edge, Edge, x) && y in keys
      ensures InSome(groups + [g], y, j + 1)
    {
      assert (groups + [g])[j] == groups[j];
      InSomeAppend(groups, g, y, j + 1);
    }
  }

  /** No element lies in two groups. */
  ghost predicate Disjoint(groups: seq<seq<int>>)
  {
    forall i, j, x :: 0 <= i < j < |groups| && x in groups[i] ==> x !in groups[j]
  }

  /** No key is a neighbour of `x`. */
  ghost predicate Isolated(m: Mesh, keys: set<int>, x: int)
  {
    forall y :: y in keys ==> y !in m.adj(Edge, Edge, x)
  }

  /** `x` does not occur in `elements` from position `i` on. */
  ghost predicate Behind(elements: seq<int>, i: nat, x: int)
  {
    forall k :: i <= k < |elements| ==> elements[k] != x
  }

  /**
   * A grouped element left unmarked is an isolated seed the walk has passed:
   * no growth can reach it and no later seed equals it.
   */
  ghost predicate UnmarkedSeeds(m: Mesh, keys: set<int>, elements: seq<int>, i: nat, groups: seq<seq<int>>, processed: map<int, bool>)
  {
    forall k, x :: 0 <= k < |groups| && x in groups[k] && x in processed && !processed[x] ==>
      Isolated(m, keys, x) && Behind(elements, i, x)
  }

  /** Under symmetry, a member reached from a group of keys has a key neighbour. */
  lemma ReachedNotIsolated(m: Mesh, elements: seq<int>, keys: set<int>, g: seq<int>)
    requires Symmetric(m, Edge) && InRange(elements, m.size(Edge)) && keys == Members(elements)
    requires |g| > 0 && forall x :: x in g ==> x in keys
    requires forall x :: x in g && x != g[0] ==> Reached(m, g, x)
    ensures forall x :: x in g && x != g[0] ==> !Isolated(m, keys, x)
  {
    forall x | x in g && x != g[0] ensures !Isolated(m, keys, x) {
      var z :| z in g && x in m.adj(Edge, Edge, z);
      assert z in keys && 0 <= z < m.size(Edge) && 0 <= x < m.size(Edge);
      assert z in m.adj(Edge, Edge, x);
    }
  }

  /** A group grown from the unprocessed seed `elements[i]` is new to the earlier groups. */
  lemma GrowthFresh(m: Mesh, elements: seq<int>, keys: set<int>, i: nat, groups: seq<seq<int>>, g: seq<int>,
                    processed: map<int, bool>)
    requires Symmetric(m, Edge) && InRange(elements, m.size(Edge))
    requires keys == Members(elements) && processed.Keys == keys
    requires i < |elements| && |g| > 0 && g[0] == elements[i]
    requires forall x :: x in g ==> x in processed && !processed[x]
    requires forall x :: x in g && x != g[0] ==> Reached(m, g, x)
    requires UnmarkedSeeds(m, keys, elements, i, groups, processed)
    ensures forall k, x :: 0 <= k < |groups| && x in groups[k] ==> x !in g
    ensures forall k :: 0 <= k < |groups| ==> g[0] !in groups[k]
  {
    ReachedNotIsolated(m, elements, keys, g);
    assert !Behind(elements, i, g[0]) by {
      assert elements[i] == g[0];
    }
    assert g[0] in g;
  }

  /**
   * Under symmetry, the keys next to the new seed were all unprocessed: a
   * processed neighbour lies in a closed earlier group, which would then hold
   * the seed as well.
   */
  lemma SeedNeighboursUnprocessed(m: Mesh, elements: seq<int>, keys: set<int>, groups: seq<seq<int>>, e: int,
                                  processed: map<int, bool>)
    requires Symmetric(m, Edge) && InRange(elements, m.size(Edge))
    requires keys == Members(elements) && processed.Keys == keys && e in keys
    requires forall x :: x in processed && processed[x] ==> InSome(groups, x, |groups|)
    requires forall j :: 0 <= j < |groups| ==> GroupClosed(m, keys, groups, j)
    requires forall k :: 0 <= k < |groups| ==> e !in groups[k]
    ensures forall y :: y in keys && y in m.adj(Edge, Edge, e) ==> !processed[y]
  {
    forall y | y in keys && y in m.adj(Edge, Edge, e) ensures !processed[y] {
      assert 0 <= y < m.size(Edge) && 0 <= e < m.size(Edge);
      assert e in m.adj(Edge, Edge, y);
      forall j | 0 <= j < |groups| && y in groups[j] ensures InSome(groups, e, j + 1) {
        assert GroupClosed(m, keys, groups, j);
      }
    }
  }

  /** Under symmetry, a member of the group next to its seed marks the seed. */
  lemma GroupNeighboursMarkSeed(m: Mesh, elements: seq<int>, keys: set<int>, g: seq<int>, done: map<int, bool>)
    requires Symmetric(m, Edge) && InRange(elements, m.size(Edge))
    requires keys == Members(elements) && done.Keys == keys
    requires |g| > 0 && g[0] in keys && forall x :: x in g ==> x in keys
    requires forall x, y :: x in g && y in m.adj(Edge, Edge, x) && y in done ==> done[y]
    ensures forall y :: y in g && y in m.adj(Edge, Edge, g[0]) ==> done[g[0]]
  {
    forall y | y in g && y in m.adj(Edge, Edge, g[0]) ensures done[g[0]] {
      assert 0 <= y < m.size(Edge) && 0 <= g[0] < m.size(Edge);
      assert g[0] in m.adj(Edge, Edge, y);
    }
  }

  /**
   * A seed the growth left unmarked has no neighbour among the keys: a
   * neighbour in the new group, or in an earlier closed group, would have
   * put the seed into that group and marked it.
   */
  lemma SeedIsolated(m: Mesh, elements: seq<int>, keys: set<int>, i: nat, groups: seq<seq<int>>, g: seq<int>,
                     processed: map<int, bool>, done: map<int, bool>)
    requires Symmetric(m, Edge) && InRange(elements, m.size(Edge))
    requires keys == Members(elements) && processed.Keys == keys && done.Keys == keys
    requires |g| > 0 && g[0] in keys && forall x :: x in g ==> x in keys
    requires forall x :: x in done && done[x] ==> processed[x] || x in g
    requires forall x, y :: x in g && y in m.adj(Edge, Edge, x) && y in done ==> done[y]
    requires forall x :: x in processed && processed[x] ==> InSome(groups, x, |groups|)
    requires forall j :: 0 <= j < |groups| ==> GroupClosed(m, keys, groups, j)
    requires forall k :: 0 <= k < |groups| ==> g[0] !in groups[k]
    requires !done[g[0]]
    ensures Isolated(m, keys, g[0])
  {
    SeedNeighboursUnprocessed(m, elements, keys, groups, g[0], processed);
    GroupNeighboursMarkSeed(m, elements, keys, g, done);
  }

  /** Appending a fresh group keeps the groups pairwise disjoint. */
  lemma AppendDisjoint(groups: seq<seq<int>>, g: seq<int>)
    requires Disjoint(groups)
    requires forall k, x :: 0 <= k < |groups| && x in groups[k] ==> x !in g
    ensures Disjoint(groups + [g])
  {
    var all := groups + [g];
    forall a, b, x | 0 <= a < b < |all| && x in all[a] ensures x !in all[b] {
      assert all[a] == groups[a];
      if b < |groups| {
        assert all[b] == groups[b];
      }
    }
  }

  /** After a growth the unmarked grouped elements are still passed, isolated seeds. */
  lemma AppendUnmarkedSeeds(m: Mesh, elements: seq<int>, keys: set<int>, i: nat, groups: seq<seq<int>>, g: seq<int>,
                            processed: map<int, bool>, done: map<int, bool>)
    requires NoDup(elements) && i < |elements| && |g| > 0 && g[0] == elements[i]
    requires processed.Keys == keys && done.Keys == keys && forall x :: x in g ==> x in keys
    requires forall x :: x in g && x != g[0] ==> done[x]
    requires forall x :: x in processed && processed[x] ==> done[x]
    requires g[0] in done && !done[g[0]] ==> Isolated(m, keys, g[0])
    requires UnmarkedSeeds(m, keys, elements, i, groups, processed)
    ensures UnmarkedSeeds(m, keys, elements, i + 1, groups + [g], done)
  {
    var all := groups + [g];
    forall k, x | 0 <= k < |all| && x in all[k] && x in done && !done[x]
      ensures Isolated(m, keys, x) && Behind(elements, i + 1, x)
    {
      if k < |groups| {
        assert all[k] == groups[k];
        assert Behind(elements, i, x);
      } else {
        assert x == g[0];
        forall k' | i + 1 <= k' < |elements| ensures elements[k'] != x {
          assert elements[i] != elements[k'];
        }
      }
    }
  }

  /** One growth step keeps the groups disjoint and the unmarked grouped elements isolated, passed seeds. */
  lemma SymmetricStep(m: Mesh, elements: seq<int>, keys: set<int>, i: nat, groups: seq<seq<int>>, g: seq<int>,
                      processed: map<int, bool>, done: map<int, bool>)
    requires Symmetric(m, Edge) && InRange(elements, m.size(Edge)) && NoDup(elements)
    requires keys == Members(elements) && processed.Keys == keys && done.Keys == keys
    requires i < |elements| && |g| > 0 && g[0] == elements[i]
    requires forall x :: x in g ==> x in processed && !processed[x]
    requires forall x :: x in g && x != g[0] ==> done[x] && Reached(m, g, x)
    requires forall x :: x in processed && processed[x] ==> done[x]
    requires forall x :: x in done && done[x] ==> processed[x] || x in g
    requires forall x, y :: x in g && y in m.adj(Edge, Edge, x) && y in done ==> done[y]
    requires forall x :: x in processed && processed[x] ==> InSome(groups, x, |groups|)
    requires forall j :: 0 <= j < |groups| ==> GroupClosed(m, keys, groups, j)
    requires Disjoint(groups) && UnmarkedSeeds(m, keys, elements, i, groups, processed)
    ensures Disjoint(groups + [g]) && UnmarkedSeeds(m, keys, elements, i + 1, groups + [g], done)
  {
    GrowthFresh(m, elements, keys, i, groups, g, processed);
    AppendDisjoint(groups, g);
    if !done[g[0]] {
      SeedIsolated(m, elements, keys, i, groups, g, processed, done);
    }
    AppendUnmarkedSeeds(m, elements, keys, i, groups, g, processed, done);
  }

  /**
   * The grouping of `consolidateElements`: one group per element not yet
   * processed when the walk over the elements reaches it, grown through the
   * connected edges. The groups cover the elements, hold only elements, and
   * every element connected to a group lies in that group or an earlier one.
   * When connectivity is symmetric and the elements are distinct indices of
   * the mesh, no element lies in two groups.
   */
  method ConsolidateGroups(m: Mesh, elements: seq<int>) returns (groups: seq<seq<int>>)
    ensures forall x :: x in elements ==> InSome(groups, x, |groups|)
    ensures forall i, x :: 0 <= i < |groups| && x in groups[i] ==> x in elements
    ensures forall j :: 0 <= j < |groups| ==> GroupClosed(m, Members(elements), groups, j)
    ensures Symmetric(m, Edge) && NoDup(elements) && InRange(elements, m.size(Edge)) ==> Disjoint(groups)
  {
    var keys := Members(elements);
    var processed := map x | x in keys :: false;
    ghost var sym := Symmetric(m, Edge) && NoDup(elements) && InRange(elements, m.size(Edge));
    groups := [];
    var i := 0;
    while i < |elements|
      invariant 0 <= i <= |elements|
      invariant Walked(m, elements, keys, sym, i, groups, processed)
    {
      var element := elements[i];
      if processed[element] {
        assert InSome(groups, elements[i], |groups|);
        i := i + 1;
        continue;
      }
      var edgeIndices, done := Grow(m, processed, element);
      WalkGrow(m, elements, keys, sym, i, groups, edgeIndices, processed, done);
      groups := groups + [edgeIndices];
      processed := done;
      i := i + 1;
    }
  }

  /** The invariant of the walk in `ConsolidateGroups` after its first `i` elements. */
  ghost predicate Walked(m: Mesh, elements: seq<int>, keys: set<int>, sym: bool, i: nat, groups: seq<seq<int>>,
                         processed: map<int, bool>)
  {
    && i <= |elements|
    && processed.Keys == keys
    && (forall k :: 0 <= k < i ==> InSome(groups, elements[k], |groups|))
    && (forall x :: x in processed && processed[x] ==> InSome(groups, x, |groups|))
    && (forall k, x :: 0 <= k < |groups| && x in groups[k] ==> x in elements)
    && (forall j :: 0 <= j < |groups| ==> GroupClosed(m, keys, groups, j))
    && (sym ==> Disjoint(groups) && UnmarkedSeeds(m, keys, elements, i, groups, processed))
  }

  /** Appending the group grown from the unprocessed `elements[i]` keeps the walk's invariant. */
  lemma WalkGrow(m: Mesh, elements: seq<int>, keys: set<int>, sym: bool, i: nat, groups: seq<seq<int>>, g: seq<int>,
                 processed: map<int, bool>, done: map<int, bool>)
    requires keys == Members(elements)
    requires sym == (Symmetric(m, Edge) && NoDup(elements) && InRange(elements, m.size(Edge)))
    requires i < |elements| && Walked(m, elements, keys, sym, i, groups, processed)
    requires done.Keys == processed.Keys
    requires |g| > 0 && g[0] == elements[i]
    requires forall x :: x in g ==> x in processed && !processed[x]
    requires forall x :: x in g && x != g[0] ==> done[x] && Reached(m, g, x)
    requires forall x :: x in processed && processed[x] ==> done[x]
    requires forall x :: x in done && done[x] ==> processed[x] || x in g
    requires forall x, y :: x in g && y in m.adj(Edge, Edge, x) && y in done ==> done[y]
    ensures Walked(m, elements, keys, sym, i + 1, groups + [g], done)
  {
    AppendGroup(m, keys, groups, g, processed, done);
    if sym {
      SymmetricStep(m, elements, keys, i, groups, g, processed, done);
    }
    SeedsCovered(groups, g, elements, i);
  }

  /** The elements walked so far stay covered once a group holding the current one is appended. */
  lemma SeedsCovered(groups: seq<seq<int>>, g: seq<int>, elements: seq<int>, i: nat)
    requires i < |elements| && elements[i] in g
    requires forall k :: 0 <= k < i ==> InSome(groups, elements[k], |groups|)
    ensures forall k :: 0 <= k < i + 1 ==> InSome(groups + [g], elements[k], |groups| + 1)
  {
    var all := groups + [g];
    forall k | 0 <= k < i + 1 ensures InSome(all, elements[k], |groups| + 1) {
      if k < i {
        var j :| 0 <= j < |groups| && j < |groups| && elements[k] in groups[j];
        assert all[j] == groups[j];
      } else {
        assert all[|groups|] == g;
      }
    }
  }

  /** What appending a grown group keeps of the grouping invariants. */
  lemma AppendGroup(m: Mesh, keys: set<int>, groups: seq<seq<int>>, g: seq<int>, processed: map<int, bool>, done: map<int, bool>)
    requires processed.Keys == keys && done.Keys == keys
    requires forall x :: x in done && done[x] ==> processed[x] || x in g
    requires forall x, y :: x in g && y in m.adj(Edge, Edge, x) && y in done ==> done[y]
    requires forall x :: x in processed && processed[x] ==> InSome(groups, x, |groups|)
    requires forall j :: 0 <= j < |groups| ==> GroupClosed(m, keys, groups, j)
    ensures forall x :: x in g ==> InSome(groups + [g], x, |groups| + 1)
    ensures forall y :: InSome(groups, y, |groups|) ==> InSome(groups + [g], y, |groups| + 1)
    ensures forall x :: x in done && done[x] ==> InSome(groups + [g], x, |groups| + 1)
    ensures forall j :: 0 <= j < |groups| + 1 ==> GroupClosed(m, keys, groups + [g], j)
  {
    var all := groups + [g];
    forall x | x in g ensures InSome(all, x, |groups| + 1) {
      assert all[|groups|] == g;
    }
    forall y | InSome(groups, y, |groups|) ensures InSome(all, y, |groups| + 1) {
      InSomeAppend(groups, g, y, |groups|);
      var j :| 0 <= j < |groups| && j < |all| && y in all[j];
    }
    forall j | 0 <= j < |all| ensures GroupClosed(m, keys, all, j) {
      if j < |groups| {
        GroupClosedAppend(m, keys, groups, g, j);
      } else {
        forall x, y | x in all[j] && y in m.adj(Edge, Edge, x) && y in keys
          ensures InSome(all, y, j + 1)
        {
          assert done[y];
        }
      }
    }
  }

  /**
   * `consolidateElements`: each group becomes a new edge component (which
   * deduplicates it), strictly retraced when asked, whose errors propagate.
   */
  method ConsolidateElements(c: Component, retraceElements: bool)
    returns (edgeLoops: seq<Component>, s: Status, ghost groups: seq<seq<int>>)
    requires c.Valid() && c.kind == Edge
    ensures s.Raised? ==> retraceElements
    ensures forall x :: x in c.elements ==> InSome(groups, x, |groups|)
    ensures forall i, x :: 0 <= i < |groups| && x in groups[i] ==> x in c.elements
    ensures forall j :: 0 <= j < |groups| ==> GroupClosed(c.mesh, Members(c.elements), groups, j)
    ensures Symmetric(c.mesh, Edge) ==> Disjoint(groups)
    ensures s == Done ==> |edgeLoops| == |groups|
    ensures s == Done ==> forall i :: 0 <= i < |edgeLoops| ==>
      && fresh(edgeLoops[i]) && edgeLoops[i].kind == Edge
      && (!retraceElements ==> edgeLoops[i].Valid() && forall x :: x in edgeLoops[i].elements <==> x in groups[i])
      && (retraceElements ==> forall x :: x in edgeLoops[i].elements ==> x in groups[i])
  {
    var grouped := ConsolidateGroups(c.mesh, c.elements);
    groups := grouped;
    edgeLoops := [];
    var i := 0;
    while i < |grouped|
      invariant groups == grouped
      invariant 0 <= i <= |grouped|
      invariant |edgeLoops| == i
      invariant forall k :: 0 <= k < i ==>
        && fresh(edgeLoops[k]) && edgeLoops[k].kind == Edge
        && (!retraceElements ==> edgeLoops[k].Valid() && forall x :: x in edgeLoops[k].elements <==> x in groups[k])
        && (retraceElements ==> forall x :: x in edgeLoops[k].elements ==> x in groups[k])
    {
      var edgeIndices := grouped[i];
      assert InRange(edgeIndices, c.mesh.size(Edge)) by {
        forall x | x in edgeIndices ensures 0 <= x < c.mesh.size(Edge) { assert x in c.elements; }
      }
      var edgeLoop := c.Sibling(Edge, edgeIndices);
      AppendInRange(c.flavor, edgeIndices, c.mesh.size(Edge));
      if retraceElements {
        var status := RetraceElementsStrict(edgeLoop);
        if status.Raised? {
          return edgeLoops, status, groups;
        }
      }
      edgeLoops := edgeLoops + [edgeLoop];
      i := i + 1;
    }
    s := Done;
  }
}
