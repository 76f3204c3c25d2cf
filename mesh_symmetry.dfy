// `MeshMixin.symmetryTable` / `setSymmetryTable` / `mirrorVertexIndices`
// (nodetypes): a vertex symmetry table cached on the mesh and filled on demand
// by a nearest-point search.
module MeshSymmetry {
  import opened Wrappers
  import opened PyValues

  /** What `setSymmetryTable` is given: a dict, or anything else. */
  datatype TableValue = DictValue(entries: map<int, int>) | NotADict

  /** The container kinds `mirrorVertexIndices` accepts. */
  predicate IndexListKind(k: Kind)
  {
    k in {List, Set, Tuple, Deque, IntArray}
  }

  /** `dataPoints[x]` succeeds for Python indices -n..n-1. */
  predicate Indexable(x: int, n: nat)
  {
    -(n as int) <= x < n
  }

  /** The list position `dataPoints[x]` reads: negative indices count from the end. */
  function Position(x: int, n: nat): (p: nat)
    requires Indexable(x, n)
    ensures p < n
    ensures x >= 0 ==> p == x
  {
    if x < 0 then x + n else x
  }

  /**
   * The first loop: int items found in the table go into the selection with
   * their table entry, the other ints are recorded as missing, in order, and
   * non-int items are skipped.
   */
  function Lookup(table: map<int, int>, items: seq<PyValue>): (r: (map<int, int>, seq<int>))
    ensures forall v :: v in r.0 <==> Int(v) in items && v in table
    ensures forall v :: v in r.0 ==> r.0[v] == table[v]
    ensures forall v :: v in r.1 <==> Int(v) in items && v !in table
  {
    if items == [] then (map[], [])
    else
      var (sel, missing) := Lookup(table, items[..|items| - 1]);
      var last := items[|items| - 1];
      assert items == items[..|items| - 1] + [last];
      if !last.Int? then (sel, missing)
      else if last.n in table then (sel[last.n := table[last.n]], missing)
      else (sel, missing + [last.n])
  }

  /**
   * The second loop: each missing vertex is paired with the search result for
   * its mirrored point; `numPoints` means no hit and the vertex is dropped.
   */
  function Resolve(sel: map<int, int>, missing: seq<int>, numPoints: nat, nearest: nat -> nat): (r: map<int, int>)
    requires forall i :: 0 <= i < |missing| ==> Indexable(missing[i], numPoints)
    requires forall v :: v in missing ==> v !in sel
    ensures forall v :: v in r <==> v in sel || exists i :: 0 <= i < |missing| && missing[i] == v && nearest(Position(v, numPoints)) != numPoints
    ensures forall v :: v in r && v !in missing ==> r[v] == sel[v]
    ensures forall v :: v in r && v in missing ==> r[v] == nearest(Position(v, numPoints)) && r[v] != numPoints
  {
    if missing == [] then sel
    else
      var rest := Resolve(sel, missing[..|missing| - 1], numPoints, nearest);
      var x := missing[|missing| - 1];
      assert missing == missing[..|missing| - 1] + [x];
      var m := nearest(Position(x, numPoints));
      if m == numPoints then rest else rest[x := m]
  }

  /** The result of `mirrorVertexIndices` for a given table, mesh size and search. */
  function Mirror(table: map<int, int>, numPoints: nat, nearest: nat -> nat, vertexIndices: PyValue): (r: Result<map<int, int>>)
  {
    if !(vertexIndices.Coll? && IndexListKind(vertexIndices.kind)) then Err(TypeError)
    else
      var (sel, missing) := Lookup(table, vertexIndices.items);
      if missing == [] then Ok(sel)
      else if exists i :: 0 <= i < |missing| && !Indexable(missing[i], numPoints) then Err(IndexError)
      else Ok(Resolve(sel, missing, numPoints, nearest))
  }

  /**
   * What a successful `mirrorVertexIndices` returns: only int items of the
   * argument; every table hit with its table entry; every miss with its search
   * result, exactly when the search found a point.
   */
  lemma MirrorSelection(table: map<int, int>, numPoints: nat, nearest: nat -> nat, vertexIndices: PyValue)
    requires Mirror(table, numPoints, nearest, vertexIndices).Ok?
    ensures var sel := Mirror(table, numPoints, nearest, vertexIndices).value;
      && (forall x :: x in sel ==> Int(x) in vertexIndices.items)
      && (forall x :: Int(x) in vertexIndices.items && x in table ==> x in sel && sel[x] == table[x])
      && (forall x :: Int(x) in vertexIndices.items && x !in table ==>
            Indexable(x, numPoints) && (x in sel <==> nearest(Position(x, numPoints)) != numPoints)
            && (x in sel ==> sel[x] == nearest(Position(x, numPoints))))
  {
    var (hits, missing) := Lookup(table, vertexIndices.items);
    forall x | Int(x) in vertexIndices.items && x !in table ensures Indexable(x, numPoints) {
      assert x in missing;
      var k :| 0 <= k < |missing| && missing[k] == x;
    }
  }

  /** The mesh node's symmetry-table attribute and the inputs of its nearest-point search. */
  class MeshNode {
    /** The `symmetryTable` string attribute, decoded; None while the attribute does not exist. */
    var table: Option<map<int, int>>
    /** `len(self.controlPoints())`. */
    const numPoints: nat
    /** How many times the attribute was written by `setSymmetryTable`. */
    var writes: nat
    /** The KD-tree query for the x-mirrored position of a point: a point index, or numPoints for no hit within tolerance. */
    const nearest: nat -> nat

    constructor (numPoints: nat, nearest: nat -> nat)
      ensures table.None? && writes == 0 && this.numPoints == numPoints && this.nearest == nearest
    {
      table := None;
      writes := 0;
      this.numPoints := numPoints;
      this.nearest := nearest;
    }

    /** `symmetryTable`: creates the attribute holding `{}` when missing, then reads it. */
    method SymmetryTable() returns (t: map<int, int>)
      modifies this
      ensures t == (if old(table).Some? then old(table).value else map[])
      ensures table == Some(t) && writes == old(writes)
    {
      if table.None? {
        table := Some(map[]);
      }
      t := table.value;
    }

    /** `setSymmetryTable`: a non-dict raises TypeError; a dict replaces the stored table. */
    method SetSymmetryTable(value: TableValue) returns (s: Status)
      modifies this
      ensures value.NotADict? ==> s == Raised(TypeError) && table == old(table) && writes == old(writes)
      ensures value.DictValue? ==> s == Done && table == Some(value.entries) && writes == old(writes) + 1
    {
      if value.NotADict? {
        return Raised(TypeError);
      }
      table := Some(value.entries);
      writes := writes + 1;
      return Done;
    }

    /** `resetSymmetryTable`: stores an empty table. */
    method ResetSymmetryTable()
      modifies this
      ensures table == Some(map[])
    {
      var s := SetSymmetryTable(DictValue(map[]));
    }

    /**
     * `mirrorVertexIndices`: the type check comes first; the table is then read
     * (creating the attribute), hits are taken from it, misses go through the
     * search and, only when something was missing and every missing index was
     * readable, the table is updated with the selection and written back.
     */
    method MirrorVertexIndices(vertexIndices: PyValue) returns (r: Result<map<int, int>>)
      modifies this
      ensures r == Mirror(if old(table).Some? then old(table).value else map[], numPoints, nearest, vertexIndices)
      ensures r == Err(TypeError) ==> table == old(table) && writes == old(writes)
      ensures var before := if old(table).Some? then old(table).value else map[];
        && (r == Err(IndexError) ==> table == Some(before) && writes == old(writes))
        && (r.Ok? ==> table == Some(before + r.value))
        && (r.Ok? ==> writes == old(writes) + (if Lookup(before, vertexIndices.items).1 == [] then 0 else 1))
    {
      if !(vertexIndices.Coll? && IndexListKind(vertexIndices.kind)) {
        return Err(TypeError);
      }
      var symmetryTable := SymmetryTable();
      var items := vertexIndices.items;
      var mirrorSelection: map<int, int> := map[];
      var missing: seq<int> := [];
      var i := 0;
      while i < |items|
        invariant 0 <= i <= |items|
        invariant (mirrorSelection, missing) == Lookup(symmetryTable, items[..i])
      {
        assert items[..i + 1][..i] == items[..i] && items[..i + 1][i] == items[i];
        var vertexIndex := items[i];
        if vertexIndex.Int? {
          if vertexIndex.n in symmetryTable {
            mirrorSelection := mirrorSelection[vertexIndex.n := symmetryTable[vertexIndex.n]];
          } else {
            missing := missing + [vertexIndex.n];
          }
        }
        i := i + 1;
      }
      assert items[..i] == items;
      if |missing| == 0 {
        assert mirrorSelection == Lookup(symmetryTable, items).0;
        assert forall v :: v in mirrorSelection ==> v in symmetryTable;
        assert (symmetryTable + mirrorSelection).Keys == symmetryTable.Keys;
        assert forall k :: k in symmetryTable ==> (symmetryTable + mirrorSelection)[k] == symmetryTable[k];
        assert symmetryTable + mirrorSelection == symmetryTable;
        return Ok(mirrorSelection);
      }
      var j := 0;
      while j < |missing|
        invariant 0 <= j <= |missing|
        invariant forall k :: 0 <= k < j ==> Indexable(missing[k], numPoints)
      {
        if !Indexable(missing[j], numPoints) {
          return Err(IndexError);
        }
        j := j + 1;
      }
      ghost var hits := mirrorSelection;
      j := 0;
      while j < |missing|
        invariant 0 <= j <= |missing|
        invariant mirrorSelection == Resolve(hits, missing[..j], numPoints, nearest)
      {
        assert missing[..j + 1][..j] == missing[..j] && missing[..j + 1][j] == missing[j];
        var mirrorIndex := nearest(Position(missing[j], numPoints));
        if mirrorIndex != numPoints {
          mirrorSelection := mirrorSelection[missing[j] := mirrorIndex];
        }
        j := j + 1;
      }
      assert missing[..j] == missing;
      var updated := symmetryTable + mirrorSelection;
      var s := SetSymmetryTable(DictValue(updated));
      return Ok(mirrorSelection);
    }
  }
}
