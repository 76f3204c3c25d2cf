// The mesh a component indexes into: element counts and connectivity, as the
// Maya mesh iterators report them (MItMeshVertex, MItMeshEdge, MItMeshPolygon).
module MeshTopology {

  datatype ComponentType = Vertex | Edge | Face

  /**
   * `size(t)` is the number of elements of type t; `adj(f, t, i)` lists the
   * elements of type t connected to element i of type f, in iterator order:
   * getConnectedVertices/Edges/Faces, vertexId(0..1) and getVertices/getEdges.
   */
  datatype Mesh = Mesh(size: ComponentType -> nat, adj: (ComponentType, ComponentType, int) -> seq<int>)

  /** The host guarantee that every reported neighbour is a valid index. */
  ghost predicate WellFormed(m: Mesh)
  {
    forall f, t, i :: 0 <= i < m.size(f) ==> InRange(m.adj(f, t, i), m.size(t))
  }

  ghost predicate InRange(s: seq<int>, n: nat)
  {
    forall x :: x in s ==> 0 <= x < n
  }

  lemma InRangeTail(s: seq<int>, n: nat)
    requires InRange(s, n) && s != []
    ensures InRange(s[1..], n)
  {
    forall x | x in s[1..] ensures 0 <= x < n {
      var k :| 0 <= k < |s| - 1 && s[1..][k] == x;
      assert s[k + 1] == x && s[k + 1] in s;
    }
  }

  /** The neighbours of every listed element, concatenated in order (duplicates kept). */
  function Gather(m: Mesh, from: ComponentType, to: ComponentType, xs: seq<int>): (r: seq<int>)
    ensures forall k :: 0 <= k < |xs| ==> forall y :: y in m.adj(from, to, xs[k]) ==> y in r
  {
    if xs == [] then [] else m.adj(from, to, xs[0]) + Gather(m, from, to, xs[1..])
  }

  lemma {:induction false} GatherFrom(m: Mesh, from: ComponentType, to: ComponentType, xs: seq<int>, y: int)
    requires y in Gather(m, from, to, xs)
    ensures exists k :: 0 <= k < |xs| && y in m.adj(from, to, xs[k])
  {
    if y !in m.adj(from, to, xs[0]) {
      GatherFrom(m, from, to, xs[1..], y);
      var k :| 0 <= k < |xs| - 1 && y in m.adj(from, to, xs[1..][k]);
      assert y in m.adj(from, to, xs[k + 1]);
    }
  }

  /** Neighbours of in-range elements are in range. */
  lemma {:induction false} GatherInRange(m: Mesh, from: ComponentType, to: ComponentType, xs: seq<int>)
    requires WellFormed(m) && InRange(xs, m.size(from))
    ensures InRange(Gather(m, from, to, xs), m.size(to))
  {
    forall y | y in Gather(m, from, to, xs) ensures 0 <= y < m.size(to) {
      GatherFrom(m, from, to, xs, y);
      var k :| 0 <= k < |xs| && y in m.adj(from, to, xs[k]);
      assert xs[k] in xs;
      assert 0 <= xs[k] < m.size(from);
      assert InRange(m.adj(from, to, xs[k]), m.size(to));
    }
  }

  lemma {:induction false} GatherAppend(m: Mesh, from: ComponentType, to: ComponentType, xs: seq<int>, ys: seq<int>)
    ensures Gather(m, from, to, xs + ys) == Gather(m, from, to, xs) + Gather(m, from, to, ys)
  {
    if xs != [] {
      assert (xs + ys)[0] == xs[0] && (xs + ys)[1..] == xs[1..] + ys;
      GatherAppend(m, from, to, xs[1..], ys);
      calc {
        Gather(m, from, to, xs + ys);
        m.adj(from, to, xs[0]) + Gather(m, from, to, xs[1..] + ys);
        m.adj(from, to, xs[0]) + (Gather(m, from, to, xs[1..]) + Gather(m, from, to, ys));
      }
    } else {
      assert xs + ys == ys;
    }
  }

  /** No element of `el` has a neighbour of the same type outside `el`. */
  ghost predicate Closed(m: Mesh, t: ComponentType, el: seq<int>)
  {
    forall x, y :: x in el && y in m.adj(t, t, x) ==> y in el
  }

  /** Connectivity between elements of one type is symmetric. */
  ghost predicate Symmetric(m: Mesh, t: ComponentType)
  {
    forall x, y :: 0 <= x < m.size(t) && 0 <= y < m.size(t) && y in m.adj(t, t, x) ==> x in m.adj(t, t, y)
  }

  /** Every edge has two distinct end vertices (MItMeshEdge.vertexId(0) and (1)). */
  ghost predicate EdgesHaveEndpoints(m: Mesh)
  {
    forall e :: 0 <= e < m.size(Edge) ==> |m.adj(Edge, Vertex, e)| == 2 && m.adj(Edge, Vertex, e)[0] != m.adj(Edge, Vertex, e)[1]
  }

  /**
   * The iterator loop of getConnected..., getEdges and getVertices: pops each index
   * off a queue and extends the result with that element's neighbours.
   */
  method GatherLoop(m: Mesh, from: ComponentType, to: ComponentType, indices: seq<int>) returns (r: seq<int>)
    ensures r == Gather(m, from, to, indices)
  {
    var queue := indices;
    r := [];
    while |queue| > 0
      invariant r + Gather(m, from, to, queue) == Gather(m, from, to, indices)
    {
      var index := queue[0];
      queue := queue[1..];
      r := r + m.adj(from, to, index);
    }
  }
}
