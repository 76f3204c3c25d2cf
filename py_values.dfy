// Python arguments, far enough to express the isinstance dispatch of the modelled code.
module PyValues {

  /** The built-in container kinds the code tells apart. */
  datatype Kind = List | Tuple | Deque | IntArray | Str | Set | Dict

  datatype PyValue =
    | Int(n: int)
    | Coll(kind: Kind, items: seq<PyValue>)
    | Other

  /** `collections.abc.Sequence` or `om.MIntArray` (strings are sequences of non-ints). */
  predicate IsSequence(k: Kind) { k in {List, Tuple, Deque, IntArray, Str} }

  /** `collections.abc.MutableSequence` or `om.MIntArray`. */
  predicate IsMutableSequence(k: Kind) { k in {List, Deque, IntArray} }

  /** The int items of a collection, in order (non-ints dropped). */
  function IntsOf(items: seq<PyValue>): (r: seq<int>)
    ensures |r| <= |items|
    ensures forall x :: x in r <==> Int(x) in items
  {
    if items == [] then []
    else (if items[0].Int? then [items[0].n] else []) + IntsOf(items[1..])
  }

  function Ints(xs: seq<int>): (r: seq<PyValue>)
    ensures |r| == |xs| && forall i :: 0 <= i < |xs| ==> r[i] == Int(xs[i])
  {
    if xs == [] then [] else [Int(xs[0])] + Ints(xs[1..])
  }

  lemma {:induction false} IntsOfInts(xs: seq<int>)
    ensures IntsOf(Ints(xs)) == xs
  {
    if xs != [] {
      assert Ints(xs)[1..] == Ints(xs[1..]);
      IntsOfInts(xs[1..]);
    }
  }
}
