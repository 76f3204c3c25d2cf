// Graph routines of MeshComponent over the abstract mesh connectivity:
// shell growth, loop retracing, ordered edge vertices and face-set boundaries.
module MeshGraph {
  import opened Wrappers
  import opened PyValues
  import opened MeshTopology
  import opened MeshComponents

  lemma NoDupCard(s: seq<int>)
    requires NoDup(s)
    ensures |set x | x in s| == |s|
  {
    if s != [] {
      NoDupTail(s);
      NoDupCard(s[1..]);
      assert (set x | x in s) == (set x | x in s[1..]) + {s[0]};
    }
  }

  lemma SubsetCard(a: set<int>, b: set<int>)
    requires a <= b
    ensures |a| <= |b|
    ensures |a| == |b| ==> a == b
  {
    assert a * b == a;
    if |a| == |b| {
      assert |b - a| == 0;
      assert b - a == {};
    }
  }

  /** A duplicate-free sequence drawn from a duplicate-free sequence is no longer. */
  lemma SubsetLength(a: seq<int>, b: seq<int>)
    requires NoDup(a) && NoDup(b) && forall x :: x in a ==> x in b
    ensures |a| <= |b|
    ensures |a| == |b| ==> forall x :: x in b ==> x in a
  {
    NoDupCard(a);
    NoDupCard(b);
    var sa, sb := set x | x in a, set x | x in b;
    SubsetCard(sa, sb);
    if |a| == |b| {
      forall x | x in b ensures x in a {
        assert x in sb;
      }
    }
  }

  // ---------------------------------------------------------------------------
  // shell

  /** Nothing gathered means every listed element has no neighbours. */
  lemma {:induction false} GatherEmpty(m: Mesh, from: ComponentType, to: ComponentType, xs: seq<int>)
    ensures |Gather(m, from, to, xs)| == 0 ==> forall x :: x in xs ==> m.adj(from, to, x) == []
  {
    if xs != [] {
      GatherEmpty(m, from, to, xs[1..]);
      assert forall x :: x in xs ==> x == xs[0] || x in xs[1..];
    }
  }

  /** In-range integers are never rejected by the append loop. */
  lemma IntsInRangeNotBad(flavor: Flavor, xs: seq<int>, max: nat)
    requires forall x :: x in xs ==> 0 <= x < max
    ensures forall i :: 0 <= i < |Ints(xs)| ==> !Bad(flavor, Ints(xs)[i], max)
  {
    forall i | 0 <= i < |Ints(xs)|
      ensures !Bad(flavor, Ints(xs)[i], max)
    {
      assert xs[i] in xs;
    }
  }

  /** When none of the connected elements is missing, the elements are closed under connectivity. */
  lemma NothingMissingIsClosed(m: Mesh, t: ComponentType, el: seq<int>, max: nat, connected: seq<int>, diff: seq<int>)
    requires connected == Gather(m, t, t, el) && InRange(connected, max)
    requires forall x :: x in diff <==> Int(x) in Ints(connected) && 0 <= x < max && x !in el
    requires diff == []
    ensures Closed(m, t, el)
  {
    forall x, y | x in el && y in m.adj(t, t, x)
      ensures y in el
    {
      var k :| 0 <= k < |el| && el[k] == x;
      assert y in connected;
      assert Int(y) in Ints(connected);
    }
  }

  /**
   * One round of `shell`'s loop: the connected elements the component lacks
   * are appended, and their number returned; none missing means closed.
   */
  method GrowOnce(shell: Component) returns (growthSize: nat)
    requires shell.Valid()
    modifies shell
    ensures shell.Valid()
    ensures |old(shell.elements)| <= |shell.elements| && shell.elements[..|old(shell.elements)|] == old(shell.elements)
    ensures growthSize == 0 ==> Closed(shell.mesh, shell.kind, shell.elements)
    ensures growthSize > 0 ==> |shell.elements| > |old(shell.elements)|
  {
    var connected := Gather(shell.mesh, shell.kind, shell.kind, shell.elements);
    GatherInRange(shell.mesh, shell.kind, shell.kind, shell.elements);
    var diffResult := shell.Difference(Coll(Deque, Ints(connected)));
    var diff := diffResult.value;
    growthSize := |diff|;
    ghost var before := shell.elements;
    var items := Ints(diff);
    IntsInRangeNotBad(shell.flavor, diff, shell.maxElements);
    var status := shell.Append(Coll(List, items));
    AppendItemsSpec(shell.flavor, before, items, shell.maxElements);
    if growthSize == 0 {
      NothingMissingIsClosed(shell.mesh, shell.kind, before, shell.maxElements, connected, diff);
      assert shell.elements == before;
    } else {
      var d := diff[0];
      assert Int(d) in items && d !in before;
      assert d in shell.elements;
    }
  }

  /**
   * `shell`: an empty component is returned as is. Otherwise a copy grows by the
   * connected elements it lacks until nothing is missing or the iteration cap
   * (`sys.getrecursionlimit()`, a parameter here) is passed.
   */
  method Shell(c: Component, recursionLimit: nat) returns (r: Component)
    requires c.Valid()
    ensures r.Valid() && r.kind == c.kind && r.mesh == c.mesh
    ensures c.elements == [] ==> r == c
    ensures c.elements != [] ==> fresh(r)
    ensures |c.elements| <= |r.elements| && r.elements[..|c.elements|] == c.elements
    ensures Closed(r.mesh, r.kind, r.elements) || |r.elements| >= |c.elements| + recursionLimit + 1
  {
    if |c.elements| == 0 {
      assert Closed(c.mesh, c.kind, c.elements);
      return c;
    }
    var shell := c.Copy();
    var connected := Gather(shell.mesh, shell.kind, shell.kind, shell.elements);
    var growthSize := |connected|;
    GatherEmpty(shell.mesh, shell.kind, shell.kind, shell.elements);
    var iterations := 0;
    while growthSize > 0 && iterations <= recursionLimit
      invariant growthSize >= 0
      invariant fresh(shell) && shell.Valid() && shell.kind == c.kind && shell.mesh == c.mesh
      invariant shell.flavor == c.flavor
      invariant |c.elements| <= |shell.elements| && shell.elements[..|c.elements|] == c.elements
      invariant iterations <= recursionLimit + 1
      invariant growthSize == 0 ==> Closed(shell.mesh, shell.kind, shell.elements)
      invariant growthSize > 0 ==> |shell.elements| >= |c.elements| + iterations
      decreases recursionLimit + 1 - iterations
    {
      ghost var before := shell.elements;
      growthSize := GrowOnce(shell);
      assert before[..|c.elements|] == shell.elements[..|before|][..|c.elements|];
      iterations := iterations + 1;
    }
    if growthSize > 0 {
      assert iterations == recursionLimit + 1;
      assert |shell.elements| >= |c.elements| + recursionLimit + 1;
    } else {
      assert Closed(shell.mesh, shell.kind, shell.elements);
    }
    return shell;
  }

  // ---------------------------------------------------------------------------
  // retraceElements

  /** Loop retracing is defined for vertex and edge components. */
  predicate Retraceable(c: Component)
    reads c
  {
    c.kind != Face
  }

  /** `[y for y in getConnected([x]) if occupied[y]]`. */
  function OccupiedNeighbours(c: Component, x: int): (r: seq<int>)
    reads c
    requires c.Valid() && x in c.elements
    ensures forall y :: y in r <==> y in c.mesh.adj(c.kind, c.kind, x) && y in c.elements
  {
    assert InRange(c.mesh.adj(c.kind, c.kind, x), c.maxElements);
    OccupiedOf(c, c.mesh.adj(c.kind, c.kind, x))
  }

  function OccupiedOf(c: Component, ys: seq<int>): (r: seq<int>)
    reads c
    requires c.Valid() && InRange(ys, c.maxElements)
    ensures forall y :: y in r <==> y in ys && y in c.elements
  {
    if ys == [] then []
    else
      var head := ys[0];
      assert head in ys && head in c.occupied;
      InRangeTail(ys, c.maxElements);
      (if c.occupied[head] then [head] else []) + OccupiedOf(c, ys[1..])
  }

  /** The elements with exactly one occupied neighbour, in element order. */
  function Tips(c: Component): (r: seq<int>)
    reads c
    requires c.Valid()
    ensures forall x :: x in r <==> x in c.elements && |OccupiedNeighbours(c, x)| == 1
  {
    TipsFrom(c, 0)
  }

  function TipsFrom(c: Component, i: nat): (r: seq<int>)
    reads c
    requires c.Valid() && i <= |c.elements|
    ensures forall x :: x in r <==> x in c.elements[i..] && |OccupiedNeighbours(c, x)| == 1
    decreases |c.elements| - i
  {
    if i == |c.elements| then []
    else
      var x := c.elements[i];
      assert c.elements[i..] == [x] + c.elements[i + 1..];
      (if |OccupiedNeighbours(c, x)| == 1 then [x] else []) + TipsFrom(c, i + 1)
  }

  /** `[x for x in getConnected([prev]) if x not in reordered and occupied[x]]`. */
  function Candidates(c: Component, prev: int, reordered: seq<int>): (r: seq<int>)
    reads c
    requires c.Valid() && prev in c.elements
    ensures forall y :: y in r <==> y in c.mesh.adj(c.kind, c.kind, prev) && y !in reordered && y in c.elements
  {
    assert InRange(c.mesh.adj(c.kind, c.kind, prev), c.maxElements);
    CandidatesOf(c, c.mesh.adj(c.kind, c.kind, prev), reordered)
  }

  function CandidatesOf(c: Component, ys: seq<int>, reordered: seq<int>): (r: seq<int>)
    reads c
    requires c.Valid() && InRange(ys, c.maxElements)
    ensures forall y :: y in r <==> y in ys && y !in reordered && y in c.elements
  {
    if ys == [] then []
    else
      var head := ys[0];
      assert head in ys && head in c.occupied;
      InRangeTail(ys, c.maxElements);
      (if head !in reordered && c.occupied[head] then [head] else []) + CandidatesOf(c, ys[1..], reordered)
  }

  /** The walk's start: the first tip when there are exactly two, otherwise the first element. */
  function RetraceStart(c: Component): (r: int)
    reads c
    requires c.Valid() && |c.elements| > 0
    ensures r in c.elements
    ensures |Tips(c)| == 2 ==> r == Tips(c)[0]
  {
    var tips := Tips(c);
    if |tips| == 2 then
      var t := tips[0];
      assert t in tips;
      t
    else c.elements[0]
  }

  /** Consecutive entries are connected. */
  ghost predicate IsWalk(m: Mesh, t: ComponentType, s: seq<int>)
  {
    forall i :: 0 < i < |s| ==> s[i] in m.adj(t, t, s[i - 1])
  }

  /**
   * `retraceElements` (builtins): walks from the start to a connected,
   * unvisited element until every element is visited. On success the
   * elements become that walk, a reordering of the old elements; when the walk
   * gets stuck it returns false and leaves the elements unchanged. An empty
   * component fails on `elements[0]`.
   */
  method RetraceElements(c: Component) returns (r: Result<bool>)
    requires c.Valid() && Retraceable(c)
    modifies c
    ensures c.Valid()
    ensures old(c.elements) == [] <==> r == Err(IndexError)
    ensures r == Ok(false) || r.Err? ==> c.elements == old(c.elements)
    ensures r == Ok(true) ==>
      && |c.elements| == |old(c.elements)|
      && (forall x :: x in c.elements <==> x in old(c.elements))
      && c.elements[0] == old(RetraceStart(c))
      && IsWalk(c.mesh, c.kind, c.elements)
  {
    if |c.elements| == 0 {
      return Err(IndexError);
    }
    var start := RetraceStart(c);
    var previous := start;
    var reordered := [start];
    while |reordered| != |c.elements|
      invariant c.Valid() && c.elements == old(c.elements) && c.occupied == old(c.occupied)
      invariant |reordered| > 0
      invariant NoDup(reordered) && |reordered| <= |c.elements|
      invariant forall x :: x in reordered ==> x in c.elements
      invariant reordered[0] == start && previous == reordered[|reordered| - 1]
      invariant IsWalk(c.mesh, c.kind, reordered)
      decreases |c.elements| - |reordered|
    {
      var connected := Candidates(c, previous, reordered);
      if |connected| == 0 {
        return Ok(false);
      }
      previous := connected[0];
      assert previous in connected;
      reordered := reordered + [previous];
      SubsetLength(reordered, c.elements);
    }
    SubsetLength(reordered, c.elements);
    c.elements := reordered;
    return Ok(true);
  }

  /**
   * `retraceElements` (nodetypes): exactly two tips are required (the two-name
   * unpacking raises ValueError otherwise); the walk runs from the first tip
   * to the second and raises RuntimeError at any step without exactly one
   * unvisited occupied neighbour. The occupancy is not updated, so a walk that
   * skips elements leaves them occupied but no longer listed.
   */
  method RetraceElementsStrict(c: Component) returns (r: Status)
    requires c.Valid() && Retraceable(c)
    modifies c
    ensures r.Raised? ==> c.elements == old(c.elements) && c.Valid()
    ensures |old(Tips(c))| != 2 ==> r == Raised(ValueError)
    ensures r == Done ==>
      && |old(Tips(c))| == 2
      && |c.elements| > 0 && c.elements[0] == old(Tips(c))[0] && c.elements[|c.elements| - 1] == old(Tips(c))[1]
      && IsWalk(c.mesh, c.kind, c.elements)
      && NoDup(c.elements) && (forall x :: x in c.elements ==> x in old(c.elements))
      && c.occupied == old(c.occupied)
      && (|c.elements| == |old(c.elements)| ==> c.Valid())
      && (|c.elements| < |old(c.elements)| ==> exists x :: x in old(c.elements) && x !in c.elements && c.occupied[x])
  {
    var tips := Tips(c);
    if |tips| != 2 {
      return Raised(ValueError);
    }
    var startIndex, endIndex := tips[0], tips[1];
    assert startIndex in tips && endIndex in tips;
    var walk := StrictWalk(c, startIndex, endIndex);
    if walk.None? {
      return Raised(RuntimeError);
    }
    var reordered := walk.value;
    ReorderKeepsOccupancy(c.elements, reordered, c.occupied, c.maxElements);
    c.elements := reordered;
    r := Done;
  }

  /**
   * Listing a duplicate-free part of the elements in place of all of them:
   * the occupancy still matches when nothing was dropped, and otherwise some
   * dropped element is still marked occupied.
   */
  lemma ReorderKeepsOccupancy(was: seq<int>, reordered: seq<int>, occupied: map<int, bool>, max: nat)
    requires NoDup(was) && NoDup(reordered) && InRange(was, max)
    requires forall x :: x in reordered ==> x in was
    requires forall k :: k in occupied <==> 0 <= k < max
    requires forall k :: k in occupied ==> (occupied[k] <==> k in was)
    ensures InRange(reordered, max) && |reordered| <= |was|
    ensures |reordered| == |was| ==> forall k :: k in occupied ==> (occupied[k] <==> k in reordered)
    ensures |reordered| < |was| ==> exists x :: x in was && x !in reordered && occupied[x]
  {
    SubsetLength(reordered, was);
    if |reordered| < |was| {
      var x := MissingElement(reordered, was);
      assert occupied[x];
    }
  }

  /** The strict walk from `startIndex` to `endIndex`, or None where a step lacks a unique successor. */
  method StrictWalk(c: Component, startIndex: int, endIndex: int) returns (r: Option<seq<int>>)
    requires c.Valid() && startIndex in c.elements
    ensures r.Some? ==> var w := r.value;
      && |w| > 0 && w[0] == startIndex && w[|w| - 1] == endIndex
      && NoDup(w) && (forall x :: x in w ==> x in c.elements)
      && IsWalk(c.mesh, c.kind, w)
  {
    var previous := startIndex;
    var reordered := [startIndex];
    while previous != endIndex
      invariant |reordered| > 0
      invariant NoDup(reordered) && |reordered| <= |c.elements|
      invariant forall x :: x in reordered ==> x in c.elements
      invariant reordered[0] == startIndex && previous == reordered[|reordered| - 1]
      invariant IsWalk(c.mesh, c.kind, reordered)
      decreases |c.elements| - |reordered|
    {
      var connected := Candidates(c, previous, reordered);
      if |connected| != 1 {
        return None;
      }
      previous := connected[0];
      assert previous in connected;
      reordered := reordered + [previous];
      SubsetLength(reordered, c.elements);
    }
    return Some(reordered);
  }

  /** Some element of the longer duplicate-free sequence is missing from the shorter one. */
  lemma MissingElement(a: seq<int>, b: seq<int>) returns (x: int)
    requires NoDup(a) && NoDup(b) && |a| < |b|
    ensures x in b && x !in a
  {
    NoDupCard(a);
    NoDupCard(b);
    var sa, sb := set y | y in a, set y | y in b;
    if sb <= sa {
      SubsetCard(sb, sa);
      assert false;
    }
    var y :| y in sb && y !in sa;
    x := y;
  }

  // ---------------------------------------------------------------------------
  // associatedVertices

  /** The end vertices of edge e. */
  function Ends(c: Component, e: int): (r: seq<int>)
    reads c
  {
    c.mesh.adj(Edge, Vertex, e)
  }

  /** The `[index for index in (start, end) if index not in vertexIndices]` step. */
  function AddNew(acc: seq<int>, ends: seq<int>): (r: seq<int>)
    ensures forall x :: x in r <==> x in acc || x in ends
    ensures NoDup(acc) ==> NoDup(r)
    ensures |acc| <= |r| && r[..|acc|] == acc
    decreases |ends|
  {
    if ends == [] then acc
    else
      var head := ends[0];
      assert ends == [head] + ends[1..];
      var acc' := if head in acc then acc else acc + [head];
      var r := AddNew(acc', ends[1..]);
      assert r[..|acc|] == r[..|acc'|][..|acc|];
      r
  }

  /** Swapping the first two entries keeps the members and their distinctness. */
  lemma SwapFirstTwo(s: seq<int>)
    requires |s| >= 2
    ensures var t := [s[1], s[0]] + s[2..];
      |t| == |s| && (forall x :: x in t <==> x in s) && (NoDup(s) ==> NoDup(t))
  {
    var t := [s[1], s[0]] + s[2..];
    assert s == [s[0], s[1]] + s[2..];
    if NoDup(s) {
      forall i, j | 0 <= i < j < |t| ensures t[i] != t[j] {
        var pi := if i == 0 then 1 else if i == 1 then 0 else i;
        var pj := if j == 0 then 1 else if j == 1 then 0 else j;
        assert t[i] == s[pi] && t[j] == s[pj];
      }
    }
  }

  /**
   * `associatedVertices(ordered=True)`: a failed retrace gives []. Otherwise the
   * end vertices are collected edge by edge, each once, after swapping the
   * first two when the first edge's second vertex is not on the second edge.
   * The result holds each end vertex of the retraced edges exactly once.
   */
  method AssociatedVerticesOrdered(c: Component) returns (r: Result<seq<int>>)
    requires c.Valid() && c.kind == Edge && EdgesHaveEndpoints(c.mesh)
    modifies c
    ensures c.Valid()
    ensures old(c.elements) == [] ==> r == Err(IndexError)
    ensures r == Ok([]) ==> c.elements == old(c.elements)
    ensures r.Ok? && r.value != [] ==>
      && NoDup(r.value)
      && (forall v :: v in r.value <==> v in Gather(c.mesh, Edge, Vertex, c.elements))
      && (forall x :: x in c.elements <==> x in old(c.elements))
  {
    var success := RetraceElements(c);
    if success.Err? {
      return Err(success.error);
    }
    if !success.value {
      return Ok([]);
    }
    var vertexIndices := CollectEnds(c.mesh, c.elements);
    return Ok(vertexIndices);
  }

  /** The collecting loop of the ordered case over retraced, in-range edges. */
  method CollectEnds(m: Mesh, edges: seq<int>) returns (vertexIndices: seq<int>)
    requires EdgesHaveEndpoints(m) && InRange(edges, m.size(Edge))
    ensures NoDup(vertexIndices)
    ensures |edges| > 0 ==> |vertexIndices| >= 2
    ensures forall v :: v in vertexIndices <==> v in Gather(m, Edge, Vertex, edges)
  {
    vertexIndices := [];
    var i := 0;
    while i < |edges|
      invariant 0 <= i <= |edges|
      invariant NoDup(vertexIndices)
      invariant forall v :: v in vertexIndices <==> v in Gather(m, Edge, Vertex, edges[..i])
      invariant i > 0 ==> |vertexIndices| >= 2
    {
      var element := edges[i];
      assert element in edges;
      var ends := m.adj(Edge, Vertex, element);
      if i == 1 && vertexIndices[|vertexIndices| - 1] !in ends {
        SwapFirstTwo(vertexIndices);
        vertexIndices := [vertexIndices[1], vertexIndices[0]] + vertexIndices[2..];
      }
      if i == 0 {
        FirstEnds(m, element);
      }
      vertexIndices := AddNew(vertexIndices, ends);
      GatherPrefix(m, edges, i);
      i := i + 1;
    }
    assert edges[..i] == edges;
  }

  /** The first edge contributes both of its end vertices. */
  lemma FirstEnds(m: Mesh, e: int)
    requires |m.adj(Edge, Vertex, e)| == 2 && m.adj(Edge, Vertex, e)[0] != m.adj(Edge, Vertex, e)[1]
    ensures |AddNew([], m.adj(Edge, Vertex, e))| == 2
  {
    var ends := m.adj(Edge, Vertex, e);
    assert ends[1..][1..] == [];
    assert [] + [ends[0]] == [ends[0]] && [ends[0]] + [ends[1..][0]] == [ends[0], ends[1]];
    assert AddNew([], ends) == AddNew([ends[0]], ends[1..]);
    assert AddNew([ends[0]], ends[1..]) == AddNew([ends[0], ends[1]], ends[1..][1..]);
  }

  /** The neighbours of one more element of the list. */
  lemma GatherPrefix(m: Mesh, edges: seq<int>, i: nat)
    requires i < |edges|
    ensures Gather(m, Edge, Vertex, edges[..i + 1]) == Gather(m, Edge, Vertex, edges[..i]) + m.adj(Edge, Vertex, edges[i])
  {
    assert edges[..i + 1] == edges[..i] + [edges[i]];
    GatherAppend(m, Edge, Vertex, edges[..i], [edges[i]]);
    assert Gather(m, Edge, Vertex, [edges[i]]) == m.adj(Edge, Vertex, edges[i]) + [];
  }

  /** `associatedVertices(ordered=False)`: the set of end vertices of the elements. */
  function AssociatedVertices(c: Component): (r: set<int>)
    reads c
    ensures forall v :: v in r <==> v in Gather(c.mesh, Edge, Vertex, c.elements)
  {
    set v | v in Gather(c.mesh, Edge, Vertex, c.elements)
  }

  // ---------------------------------------------------------------------------
  // getEdgeBoundary

  /** `len([f for f in faces if f in self])`. */
  function CountContained(c: Component, faces: seq<int>): (r: nat)
    reads c
    ensures r <= |faces|
    ensures r == 0 <==> forall f :: f in faces ==> f !in c.elements
  {
    if faces == [] then 0
    else
      var head := faces[0];
      assert faces == [head] + faces[1..];
      (if head in c.elements then 1 else 0) + CountContained(c, faces[1..])
  }

  /** An edge is on the boundary when it touches exactly one face overall, or exactly one face of the component. */
  predicate OnBoundary(c: Component, e: int)
    reads c
  {
    |c.mesh.adj(Edge, Face, e)| == 1 || CountContained(c, c.mesh.adj(Edge, Face, e)) == 1
  }

  /**
   * `getEdgeBoundary`: converts the faces to their edges, then keeps, in edge
   * order, exactly the edges on the boundary of the face set.
   */
  method GetEdgeBoundary(c: Component) returns (boundary: seq<int>)
    requires c.Valid() && c.kind == Face
    ensures NoDup(boundary)
    ensures forall e :: e in boundary <==> e in Gather(c.mesh, Face, Edge, c.elements) && OnBoundary(c, e)
  {
    var converted := c.Convert(MeshType(Edge));
    var edges := converted.value.elements;
    GatherInRange(c.mesh, Face, Edge, c.elements);
    AppendInRange(c.flavor, Gather(c.mesh, Face, Edge, c.elements), c.mesh.size(Edge));
    assert NoDup(edges);
    boundary := BoundaryOf(c, edges);
  }

  /** The boundary filter over a duplicate-free edge list. */
  method BoundaryOf(c: Component, edges: seq<int>) returns (boundary: seq<int>)
    requires NoDup(edges)
    ensures NoDup(boundary)
    ensures forall e :: e in boundary <==> e in edges && OnBoundary(c, e)
  {
    boundary := [];
    var i := 0;
    while i < |edges|
      invariant 0 <= i <= |edges|
      invariant NoDup(boundary)
      invariant forall e :: e in boundary <==> e in edges[..i] && OnBoundary(c, e)
    {
      var edgeIndex := edges[i];
      assert edges[..i + 1] == edges[..i] + [edgeIndex];
      assert edgeIndex !in edges[..i] by {
        forall k | 0 <= k < i ensures edges[..i][k] != edgeIndex { assert edges[k] != edges[i]; }
      }
      var connectedFaces := c.mesh.adj(Edge, Face, edgeIndex);
      if |connectedFaces| == 1 {
        boundary := boundary + [edgeIndex];
      } else if CountContained(c, connectedFaces) == 1 {
        boundary := boundary + [edgeIndex];
      }
      i := i + 1;
    }
    assert edges[..i] == edges;
  }

  // ---------------------------------------------------------------------------
  // getEdges / getVertices of a face component

  /** `getEdges(indices)`: the edges of the given faces, or of the component's faces when none are given. */
  method GetEdges(c: Component, indices: Option<seq<int>>) returns (r: seq<int>)
    requires c.Valid() && c.kind == Face
    ensures r == Gather(c.mesh, Face, Edge, if indices.Some? then indices.value else c.elements)
  {
    var source := if indices.Some? then indices.value else c.elements;
    r := GatherLoop(c.mesh, Face, Edge, source);
  }

  /** `getVertices(indices)` (builtins): the vertices of the given faces, or of the component's faces. */
  method GetVertices(c: Component, indices: Option<seq<int>>) returns (r: seq<int>)
    requires c.Valid() && c.kind == Face
    ensures r == Gather(c.mesh, Face, Vertex, if indices.Some? then indices.value else c.elements)
  {
    var source := if indices.Some? then indices.value else c.elements;
    r := GatherLoop(c.mesh, Face, Vertex, source);
  }

  /** `getVertices(indices)` (nodetypes) as written: the queue is built from the
      component's own faces, so `indices` has no effect. */
  method GetVerticesLegacy(c: Component, indices: Option<seq<int>>) returns (r: seq<int>)
    requires c.Valid() && c.kind == Face
    ensures r == Gather(c.mesh, Face, Vertex, c.elements)
  {
    r := GatherLoop(c.mesh, Face, Vertex, c.elements);
  }

  /** A one-face-per-vertex mesh on which the two getVertices differ. */
  function TinyMesh(): Mesh
  {
    Mesh(t => 2, (f, t, i) => [i])
  }

  /** With faces [1] and indices [0], the legacy getVertices answers for face 1, the intended one for face 0. */
  lemma GetVerticesIgnoresIndices()
    ensures Gather(TinyMesh(), Face, Vertex, [1]) == [1]
    ensures Gather(TinyMesh(), Face, Vertex, [0]) == [0]
  {
    assert Gather(TinyMesh(), Face, Vertex, [1]) == [1] + Gather(TinyMesh(), Face, Vertex, []);
    assert Gather(TinyMesh(), Face, Vertex, [0]) == [0] + Gather(TinyMesh(), Face, Vertex, []);
  }
}
