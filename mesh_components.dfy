// MeshComponent: an ordered, duplicate-free deque of element indices mirrored by
// an occupancy dictionary over 0..maxElements-1 (builtins/meshmixin.py and the
// older nodetypes/meshmixin.py, which differ in the argument types they accept).
module MeshComponents {
  import opened Wrappers
  import opened PyValues
  import opened MeshTopology

  /** Which of the two implementations a component follows. */
  datatype Flavor = Builtins | NodeTypes

  /** An api type argument: one of the three mesh component types, or anything else. */
  datatype ApiCode = MeshType(t: ComponentType) | NotMeshType

  ghost predicate NoDup(s: seq<int>)
  {
    forall i, j :: 0 <= i < j < |s| ==> s[i] != s[j]
  }

  /** `s` without the members of `drop`, order kept. */
  function Keep(s: seq<int>, drop: set<int>): (r: seq<int>)
    ensures forall x :: x in r <==> x in s && x !in drop
    ensures |r| <= |s|
  {
    if s == [] then [] else (if s[0] in drop then [] else [s[0]]) + Keep(s[1..], drop)
  }

  /** Python's `deque.remove(x)`: drops the first occurrence. */
  function RemoveFirst(s: seq<int>, x: int): (r: seq<int>)
    requires x in s
    ensures |r| == |s| - 1
  {
    if s[0] == x then s[1..] else [s[0]] + RemoveFirst(s[1..], x)
  }

  // ---------------------------------------------------------------------------
  // Specification of the append and remove loops.

  /** The items a failing occupancy lookup stops at: an index outside
      0..max-1, or (in the nodetypes flavour, which does not skip them) a non-int. */
  predicate Bad(flavor: Flavor, v: PyValue, max: nat)
  {
    if v.Int? then !(0 <= v.n < max) else flavor == NodeTypes
  }

  /** The append loop over `items`: the new deque and whether a KeyError stopped it. */
  function AppendItems(flavor: Flavor, el: seq<int>, items: seq<PyValue>, max: nat): (r: (seq<int>, Status))
    decreases |items|
  {
    if items == [] then (el, Done)
    else if Bad(flavor, items[0], max) then (el, Raised(KeyError))
    else if !items[0].Int? || items[0].n in el then AppendItems(flavor, el, items[1..], max)
    else AppendItems(flavor, el + [items[0].n], items[1..], max)
  }

  /** The remove loop over `items`. */
  function RemoveItems(flavor: Flavor, el: seq<int>, items: seq<PyValue>, max: nat): (r: (seq<int>, Status))
    decreases |items|
  {
    if items == [] then (el, Done)
    else if Bad(flavor, items[0], max) then (el, Raised(KeyError))
    else if !items[0].Int? || items[0].n !in el then RemoveItems(flavor, el, items[1..], max)
    else RemoveItems(flavor, RemoveFirst(el, items[0].n), items[1..], max)
  }

  /** What `append` iterates over, or None when it raises TypeError. */
  function AppendArg(flavor: Flavor, v: PyValue): Option<seq<PyValue>>
  {
    match v
    case Int(n) => Some([Int(n)])
    case Coll(k, items) =>
      if (flavor == Builtins && IsSequence(k)) || (flavor == NodeTypes && IsMutableSequence(k))
      then Some(items) else None
    case Other => None
  }

  /** What `extend` passes to append, or None when it raises TypeError. In the
      nodetypes flavour a bare int becomes a tuple, which append refuses. */
  function ExtendArg(flavor: Flavor, v: PyValue): Option<seq<PyValue>>
  {
    if v.Int? && flavor == NodeTypes then None else AppendArg(flavor, v)
  }

  /** What `remove` iterates over, or None when it only logs a warning. */
  function RemoveArg(flavor: Flavor, v: PyValue): Option<seq<PyValue>>
  {
    AppendArg(flavor, v)
  }

  /** What `setElements` appends after resetting, or None when it raises TypeError.
      A mutable sequence goes through `om.MIntArray`, which accepts only ints. */
  function SetElementsArg(v: PyValue): Option<seq<PyValue>>
  {
    match v
    case Int(n) => Some([Int(n)])
    case Coll(k, items) =>
      if k == IntArray || (IsMutableSequence(k) && forall i :: 0 <= i < |items| ==> items[i].Int?)
      then Some(items) else None
    case Other => None
  }

  /** The container kinds `intersection`/`difference` accept. */
  predicate SetQueryKind(flavor: Flavor, k: Kind)
  {
    if flavor == Builtins then IsSequence(k) else k in {List, Tuple, Set, Deque, IntArray}
  }

  // ---------------------------------------------------------------------------
  // Properties of the loop specifications.

  lemma {:induction false} AppendItemsSpec(flavor: Flavor, el: seq<int>, items: seq<PyValue>, max: nat)
    requires NoDup(el) && InRange(el, max)
    ensures var (r, s) := AppendItems(flavor, el, items, max);
      && NoDup(r) && InRange(r, max)
      && |el| <= |r| && r[..|el|] == el
      && (s == Done <==> forall i :: 0 <= i < |items| ==> !Bad(flavor, items[i], max))
      && (s != Done ==> s == Raised(KeyError))
      && (s == Done ==> forall x :: x in r <==> x in el || Int(x) in items)
    decreases |items|
  {
    if items != [] && !Bad(flavor, items[0], max) {
      var el' := if !items[0].Int? || items[0].n in el then el else el + [items[0].n];
      AppendItemsSpec(flavor, el', items[1..], max);
      assert items == [items[0]] + items[1..];
      var (r, s) := AppendItems(flavor, el', items[1..], max);
      assert r[..|el|] == r[..|el'|][..|el|];
      if s == Done {
        forall i | 0 <= i < |items| ensures !Bad(flavor, items[i], max) {
          if i > 0 { assert items[i] == items[1..][i - 1]; }
        }
      }
    }
  }

  lemma {:induction false} RemoveFirstIsKeep(s: seq<int>, x: int)
    requires NoDup(s) && x in s
    ensures RemoveFirst(s, x) == Keep(s, {x})
  {
    if s[0] == x {
      forall y | y in s[1..] ensures y !in {x} {
        var j :| 0 <= j < |s| - 1 && s[1..][j] == y;
        assert s[j + 1] != s[0];
      }
      KeepNone(s[1..], {x});
    } else {
      RemoveFirstIsKeep(s[1..], x);
    }
  }

  lemma {:induction false} KeepNone(s: seq<int>, drop: set<int>)
    requires forall x :: x in s ==> x !in drop
    ensures Keep(s, drop) == s
  {
    if s != [] {
      var head := s[0];
      assert head in s;
      forall x | x in s[1..] ensures x !in drop { assert x in s; }
      KeepNone(s[1..], drop);
      calc {
        Keep(s, drop);
        [s[0]] + Keep(s[1..], drop);
        [s[0]] + s[1..];
        s;
      }
    }
  }

  lemma {:induction false} KeepKeep(s: seq<int>, a: set<int>, b: set<int>)
    ensures Keep(Keep(s, a), b) == Keep(s, a + b)
  {
    if s != [] {
      KeepKeep(s[1..], a, b);
      var t := Keep(s[1..], a);
      if s[0] in a {
        assert Keep(s, a) == t;
      } else {
        assert Keep(s, a) == [s[0]] + t;
        assert ([s[0]] + t)[0] == s[0] && ([s[0]] + t)[1..] == t;
      }
    }
  }

  lemma {:induction false} KeepNoDup(s: seq<int>, drop: set<int>)
    requires NoDup(s)
    ensures NoDup(Keep(s, drop))
  {
    if s != [] {
      assert NoDup(s[1..]) by {
        forall i, j | 0 <= i < j < |s| - 1 ensures s[1..][i] != s[1..][j] { assert s[i + 1] != s[j + 1]; }
      }
      KeepNoDup(s[1..], drop);
      assert forall x :: x in Keep(s[1..], drop) ==> x != s[0] by {
        forall x | x in s[1..] ensures x != s[0] {
          var j :| 0 <= j < |s| - 1 && s[1..][j] == x;
          assert s[j + 1] != s[0];
        }
      }
    }
  }

  /** The set of int items of a collection. */
  function IntSet(items: seq<PyValue>): (r: set<int>)
    ensures forall x :: x in r <==> Int(x) in items
  {
    set x | x in IntsOf(items)
  }

  /**
   * A remove loop that raises nothing keeps exactly the elements not named by
   * an int item, in their original relative order.
   */
  lemma {:induction false} RemoveItemsSpec(flavor: Flavor, el: seq<int>, items: seq<PyValue>, max: nat)
    requires NoDup(el) && InRange(el, max)
    ensures var (r, s) := RemoveItems(flavor, el, items, max);
      && NoDup(r) && InRange(r, max)
      && (s == Done <==> forall i :: 0 <= i < |items| ==> !Bad(flavor, items[i], max))
      && (s != Done ==> s == Raised(KeyError))
      && (s == Done ==> r == Keep(el, IntSet(items)))
    decreases |items|
  {
    if items == [] {
      KeepNone(el, IntSet(items));
    } else if !Bad(flavor, items[0], max) {
      var drop0: set<int> := if items[0].Int? then {items[0].n} else {};
      var el' := if !items[0].Int? || items[0].n !in el then el else RemoveFirst(el, items[0].n);
      if items[0].Int? && items[0].n in el {
        RemoveFirstIsKeep(el, items[0].n);
      } else {
        KeepNone(el, drop0);
      }
      assert el' == Keep(el, drop0);
      KeepNoDup(el, drop0);
      RemoveItemsSpec(flavor, el', items[1..], max);
      var (r, s) := RemoveItems(flavor, el', items[1..], max);
      assert items == [items[0]] + items[1..];
      if s == Done {
        NoneBadCons(flavor, items, max);
        KeepKeep(el, drop0, IntSet(items[1..]));
        IntSetCons(items);
      }
    }
  }

  lemma NoneBadCons(flavor: Flavor, items: seq<PyValue>, max: nat)
    requires items != [] && !Bad(flavor, items[0], max)
    requires forall i :: 0 <= i < |items| - 1 ==> !Bad(flavor, items[1..][i], max)
    ensures forall i :: 0 <= i < |items| ==> !Bad(flavor, items[i], max)
  {
    forall i | 0 < i < |items| ensures !Bad(flavor, items[i], max) {
      assert items[i] == items[1..][i - 1];
    }
  }

  lemma IntSetCons(items: seq<PyValue>)
    requires items != []
    ensures IntSet(items) == (if items[0].Int? then {items[0].n} else {}) + IntSet(items[1..])
  {
    assert items == [items[0]] + items[1..];
  }

  /** `dict.fromkeys(range(n), False)`. */
  function Unoccupied(n: nat): (r: map<int, bool>)
    ensures forall k :: k in r <==> 0 <= k < n
    ensures forall k :: k in r ==> !r[k]
  {
    map k | k in Indices(n) :: false
  }

  /** `range(n)` as a set. */
  function Indices(n: nat): (r: set<int>)
    ensures forall k :: k in r <==> 0 <= k < n
  {
    if n == 0 then {} else Indices(n - 1) + {n - 1}
  }

  lemma NoDupTail(s: seq<int>)
    requires NoDup(s) && s != []
    ensures NoDup(s[1..]) && s[0] !in s[1..]
  {
    forall i, j | 0 <= i < j < |s| - 1 ensures s[1..][i] != s[1..][j] { assert s[i + 1] != s[j + 1]; }
    forall y | y in s[1..] ensures y != s[0] {
      var j :| 0 <= j < |s| - 1 && s[1..][j] == y;
      assert s[j + 1] != s[0];
    }
  }

  /** One step of the append loop: the next int of `xs` is in range and not yet in the deque. */
  lemma AppendFreshStep(flavor: Flavor, xs: seq<int>, max: nat, i: nat)
    requires NoDup(xs) && InRange(xs, max) && i < |xs|
    ensures AppendItems(flavor, xs[..i], Ints(xs[i..]), max) == AppendItems(flavor, xs[..i + 1], Ints(xs[i + 1..]), max)
  {
    var items := Ints(xs[i..]);
    assert items[0] == Int(xs[i]) && items[1..] == Ints(xs[i + 1..]);
    assert xs[i] in xs;
    assert !Bad(flavor, items[0], max) && xs[i] !in xs[..i];
    assert xs[..i] + [xs[i]] == xs[..i + 1];
  }

  /** Appending the rest of `xs` to its first `i` ints, all distinct and in range, gives `xs`. */
  lemma {:induction false} AppendDistinctFrom(flavor: Flavor, xs: seq<int>, max: nat, i: nat)
    requires NoDup(xs) && InRange(xs, max) && i <= |xs|
    ensures AppendItems(flavor, xs[..i], Ints(xs[i..]), max) == (xs, Done)
    decreases |xs| - i
  {
    if i == |xs| {
      assert xs[..i] == xs && xs[i..] == [];
    } else {
      AppendFreshStep(flavor, xs, max, i);
      AppendDistinctFrom(flavor, xs, max, i + 1);
    }
  }

  /** Appending distinct in-range ints to an empty deque keeps them all, in order. */
  lemma AppendDistinct(flavor: Flavor, xs: seq<int>, max: nat)
    requires NoDup(xs) && InRange(xs, max)
    ensures AppendItems(flavor, [], Ints(xs), max) == (xs, Done)
  {
    AppendDistinctFrom(flavor, xs, max, 0);
    assert xs[..0] == [] && xs[0..] == xs;
  }

  /** Appending in-range ints to an empty component succeeds and keeps exactly those ints. */
  lemma AppendInRange(flavor: Flavor, xs: seq<int>, max: nat)
    requires InRange(xs, max)
    ensures var (r, s) := AppendItems(flavor, [], Ints(xs), max);
      s == Done && NoDup(r) && InRange(r, max) && forall x :: x in r <==> x in xs
  {
    var items := Ints(xs);
    forall i | 0 <= i < |items| ensures !Bad(flavor, items[i], max) { assert xs[i] in xs; }
    AppendItemsSpec(flavor, [], items, max);
    forall x ensures Int(x) in items <==> x in xs {
      if x in xs { var k :| 0 <= k < |xs| && xs[k] == x; assert items[k] == Int(x); }
      if Int(x) in items { var k :| 0 <= k < |items| && items[k] == Int(x); assert xs[k] == x; }
    }
  }

  predicate Ascending(s: seq<int>)
  {
    forall i, j :: 0 <= i < j < |s| ==> s[i] <= s[j]
  }

  /** Inserts x into an ascending sequence. */
  function InsertSorted(x: int, s: seq<int>): (r: seq<int>)
    requires Ascending(s)
    ensures Ascending(r) && multiset(r) == multiset(s) + multiset{x}
  {
    if s == [] then [x]
    else if x <= s[0] then
      ConsAscending(x, s);
      [x] + s
    else
      AscendingTail(s);
      var t := InsertSorted(x, s[1..]);
      HeadBelowInsert(x, s, t);
      ConsAscending(s[0], t);
      assert s == [s[0]] + s[1..];
      [s[0]] + t
  }

  lemma AscendingTail(s: seq<int>)
    requires |s| > 0 && Ascending(s)
    ensures Ascending(s[1..])
  {
    forall i, j | 0 <= i < j < |s| - 1 ensures s[1..][i] <= s[1..][j] {
      assert s[i + 1] <= s[j + 1];
    }
  }

  lemma ConsAscending(h: int, t: seq<int>)
    requires Ascending(t) && forall k :: 0 <= k < |t| ==> h <= t[k]
    ensures Ascending([h] + t)
  {
    var r := [h] + t;
    forall i, j | 0 <= i < j < |r| ensures r[i] <= r[j] {
      assert r[j] == t[j - 1];
      if i > 0 { assert r[i] == t[i - 1]; }
    }
  }

  /** What is inserted behind the head of an ascending sequence stays above that head. */
  lemma HeadBelowInsert(x: int, s: seq<int>, t: seq<int>)
    requires |s| > 0 && Ascending(s) && s[0] < x
    requires multiset(t) == multiset(s[1..]) + multiset{x}
    ensures forall k :: 0 <= k < |t| ==> s[0] <= t[k]
  {
    forall k | 0 <= k < |t| ensures s[0] <= t[k] {
      var y := t[k];
      assert y in multiset(t);
      if y != x {
        assert y in multiset(s[1..]);
        var j :| 0 <= j < |s| - 1 && s[1..][j] == y;
        assert s[0] <= s[j + 1];
      }
    }
  }

  /** Python's `sorted`, as an insertion sort. */
  function SortedSeq(s: seq<int>): (r: seq<int>)
    ensures Ascending(r) && multiset(r) == multiset(s)
  {
    if s == [] then []
    else
      assert s == [s[0]] + s[1..];
      InsertSorted(s[0], SortedSeq(s[1..]))
  }

  // ---------------------------------------------------------------------------

  class Component {
    const flavor: Flavor
    const mesh: Mesh
    const kind: ComponentType
    const maxElements: nat
    var elements: seq<int>
    var occupied: map<int, bool>

    /** The occupancy dictionary has exactly the keys 0..maxElements-1 and is
        true exactly at the members of the duplicate-free deque. */
    ghost predicate Valid()
      reads this
    {
      && WellFormed(mesh)
      && maxElements == mesh.size(kind)
      && (forall k :: k in occupied <==> 0 <= k < maxElements)
      && (forall k :: k in occupied ==> (occupied[k] <==> k in elements))
      && NoDup(elements)
      && InRange(elements, maxElements)
    }

    constructor (flavor: Flavor, mesh: Mesh, kind: ComponentType)
      requires WellFormed(mesh)
      ensures Valid() && elements == []
      ensures this.flavor == flavor && this.mesh == mesh && this.kind == kind
    {
      this.flavor := flavor;
      this.mesh := mesh;
      this.kind := kind;
      maxElements := mesh.size(kind);
      elements := [];
      occupied := Unoccupied(mesh.size(kind));
    }

    /** The shared append loop: skips present items, stops at a KeyError. */
    method AppendItemsLoop(items: seq<PyValue>) returns (s: Status)
      requires Valid()
      modifies this
      ensures Valid()
      ensures (elements, s) == AppendItems(flavor, old(elements), items, maxElements)
    {
      var i := 0;
      while i < |items|
        invariant 0 <= i <= |items|
        invariant Valid()
        invariant AppendItems(flavor, elements, items[i..], maxElements)
               == AppendItems(flavor, old(elements), items, maxElements)
      {
        assert items[i..][0] == items[i] && items[i..][1..] == items[i + 1..];
        var item := items[i];
        if !item.Int? {
          if flavor == NodeTypes {
            return Raised(KeyError);
          }
        } else if item.n !in occupied {
          return Raised(KeyError);
        } else if !occupied[item.n] {
          occupied := occupied[item.n := true];
          elements := elements + [item.n];
        }
        i := i + 1;
      }
      return Done;
    }

    /** The shared remove loop: skips absent items, stops at a KeyError. */
    method RemoveItemsLoop(items: seq<PyValue>) returns (s: Status)
      requires Valid()
      modifies this
      ensures Valid()
      ensures (elements, s) == RemoveItems(flavor, old(elements), items, maxElements)
    {
      var i := 0;
      while i < |items|
        invariant 0 <= i <= |items|
        invariant Valid()
        invariant RemoveItems(flavor, elements, items[i..], maxElements)
               == RemoveItems(flavor, old(elements), items, maxElements)
      {
        assert items[i..][0] == items[i] && items[i..][1..] == items[i + 1..];
        var item := items[i];
        if !item.Int? {
          if flavor == NodeTypes {
            return Raised(KeyError);
          }
        } else if item.n !in occupied {
          return Raised(KeyError);
        } else if occupied[item.n] {
          RemoveFirstIsKeep(elements, item.n);
          KeepNoDup(elements, {item.n});
          occupied := occupied[item.n := false];
          elements := RemoveFirst(elements, item.n);
        }
        i := i + 1;
      }
      return Done;
    }

    /** `append`: an int is a one-item list; an unsupported type raises TypeError. */
    method Append(v: PyValue) returns (s: Status)
      requires Valid()
      modifies this
      ensures Valid()
      ensures AppendArg(flavor, v).None? ==> s == Raised(TypeError) && elements == old(elements)
      ensures AppendArg(flavor, v).Some? ==>
        (elements, s) == AppendItems(flavor, old(elements), AppendArg(flavor, v).value, maxElements)
    {
      var arg := AppendArg(flavor, v);
      if arg.None? {
        return Raised(TypeError);
      }
      s := AppendItemsLoop(arg.value);
    }

    /** `extend`: append with the extend-specific argument rule. */
    method Extend(v: PyValue) returns (s: Status)
      requires Valid()
      modifies this
      ensures Valid()
      ensures ExtendArg(flavor, v).None? ==> s == Raised(TypeError) && elements == old(elements)
      ensures ExtendArg(flavor, v).Some? ==>
        (elements, s) == AppendItems(flavor, old(elements), ExtendArg(flavor, v).value, maxElements)
    {
      var arg := ExtendArg(flavor, v);
      if arg.None? {
        return Raised(TypeError);
      }
      s := AppendItemsLoop(arg.value);
    }

    /** `insert` ignores its index and appends. */
    method Insert(index: int, v: PyValue) returns (s: Status)
      requires Valid()
      modifies this
      ensures Valid()
      ensures AppendArg(flavor, v).None? ==> s == Raised(TypeError) && elements == old(elements)
      ensures AppendArg(flavor, v).Some? ==>
        (elements, s) == AppendItems(flavor, old(elements), AppendArg(flavor, v).value, maxElements)
    {
      s := Append(v);
    }

    /** `remove` (and `__delitem__`): unsupported types only log a warning. */
    method Remove(v: PyValue) returns (s: Status)
      requires Valid()
      modifies this
      ensures Valid()
      ensures RemoveArg(flavor, v).None? ==> s == Done && elements == old(elements)
      ensures RemoveArg(flavor, v).Some? ==>
        (elements, s) == RemoveItems(flavor, old(elements), RemoveArg(flavor, v).value, maxElements)
    {
      var arg := RemoveArg(flavor, v);
      if arg.None? {
        return Done;
      }
      s := RemoveItemsLoop(arg.value);
    }

    /** `__setitem__` is deliberately a no-op. */
    method SetItem(key: int, item: PyValue)
      requires Valid()
      ensures Valid()
    {
    }

    /** `setElements`: resets the occupancy over range(maxElements), clears the deque, then appends. */
    method SetElements(v: PyValue) returns (s: Status)
      requires Valid()
      modifies this
      ensures Valid()
      ensures SetElementsArg(v).None? ==> s == Raised(TypeError) && elements == old(elements)
      ensures SetElementsArg(v).Some? ==>
        (elements, s) == AppendItems(flavor, [], SetElementsArg(v).value, maxElements)
    {
      var arg := SetElementsArg(v);
      if arg.None? {
        return Raised(TypeError);
      }
      occupied := Unoccupied(maxElements);
      elements := [];
      s := AppendItemsLoop(arg.value);
    }

    /** `__contains__`: an int is looked up with a False default; a list, tuple,
        deque or MIntArray needs every item present; anything else raises TypeError. */
    function Contains(v: PyValue): (r: Result<bool>)
      reads this
      requires Valid()
      ensures v.Int? ==> r == Ok(v.n in elements)
      ensures v.Coll? && v.kind in {List, Tuple, Deque, IntArray} ==>
        r == Ok(forall i :: 0 <= i < |v.items| ==> v.items[i].Int? && v.items[i].n in elements)
      ensures v.Other? || (v.Coll? && v.kind !in {List, Tuple, Deque, IntArray}) ==> r == Err(TypeError)
    {
      match v
      case Int(n) => Ok(if n in occupied then occupied[n] else false)
      case Coll(k, items) =>
        if k in {List, Tuple, Deque, IntArray} then
          Ok(forall i :: 0 <= i < |items| ==> items[i].Int? && items[i].n in occupied && occupied[items[i].n])
        else Err(TypeError)
      case Other => Err(TypeError)
    }

    /** The `[x for x in value if occupied.get(x, False)]` comprehension. */
    function Present(items: seq<PyValue>): (r: seq<int>)
      reads this
      requires Valid()
      ensures |r| <= |items|
      ensures forall x :: x in r <==> Int(x) in items && x in elements
    {
      if items == [] then []
      else (if items[0].Int? && items[0].n in occupied && occupied[items[0].n] then [items[0].n] else [])
           + Present(items[1..])
    }

    /** The `[x for x in value if not occupied.get(x, True)]` comprehension. */
    function Absent(items: seq<PyValue>): (r: seq<int>)
      reads this
      requires Valid()
      ensures |r| <= |items|
      ensures forall x :: x in r <==> Int(x) in items && 0 <= x < maxElements && x !in elements
    {
      if items == [] then []
      else (if items[0].Int? && items[0].n in occupied && !occupied[items[0].n] then [items[0].n] else [])
           + Absent(items[1..])
    }

    /** The present items of one argument item: its int, when that is an element. */
    lemma PresentOne(v: PyValue)
      requires Valid()
      ensures Present([v]) == if v.Int? && v.n in elements then [v.n] else []
    {
      assert [v][1..] == [];
    }

    /** The present items keep the argument's order and repeats: the query distributes over concatenation. */
    lemma {:induction false} PresentAppend(a: seq<PyValue>, b: seq<PyValue>)
      requires Valid()
      ensures Present(a + b) == Present(a) + Present(b)
    {
      if a == [] {
        assert a + b == b;
      } else {
        assert (a + b)[0] == a[0] && (a + b)[1..] == a[1..] + b;
        PresentAppend(a[1..], b);
      }
    }

    /** The absent items of one argument item: its int, when that is in range and not an element. */
    lemma AbsentOne(v: PyValue)
      requires Valid()
      ensures Absent([v]) == if v.Int? && 0 <= v.n < maxElements && v.n !in elements then [v.n] else []
    {
      assert [v][1..] == [];
    }

    /** The absent items keep the argument's order and repeats: the query distributes over concatenation. */
    lemma {:induction false} AbsentAppend(a: seq<PyValue>, b: seq<PyValue>)
      requires Valid()
      ensures Absent(a + b) == Absent(a) + Absent(b)
    {
      if a == [] {
        assert a + b == b;
      } else {
        assert (a + b)[0] == a[0] && (a + b)[1..] == a[1..] + b;
        AbsentAppend(a[1..], b);
      }
    }

    /** `intersection`: the argument's present items, in argument order with repeats. */
    function Intersection(v: PyValue): (r: Result<seq<int>>)
      reads this
      requires Valid()
      ensures r.Ok? <==> v.Coll? && SetQueryKind(flavor, v.kind)
      ensures r.Ok? ==> forall x :: x in r.value <==> Int(x) in v.items && x in elements
    {
      if v.Coll? && SetQueryKind(flavor, v.kind) then Ok(Present(v.items)) else Err(TypeError)
    }

    /** `difference`: the argument's in-range absent items; out-of-range items appear in neither query. */
    function Difference(v: PyValue): (r: Result<seq<int>>)
      reads this
      requires Valid()
      ensures r.Ok? <==> v.Coll? && SetQueryKind(flavor, v.kind)
      ensures r.Ok? ==> forall x :: x in r.value <==> Int(x) in v.items && 0 <= x < maxElements && x !in elements
    {
      if v.Coll? && SetQueryKind(flavor, v.kind) then Ok(Absent(v.items)) else Err(TypeError)
    }

    /** `sorted()`: the elements in ascending order. */
    function Sorted(): (r: seq<int>)
      reads this
      requires Valid()
      ensures Ascending(r) && multiset(r) == multiset(elements)
    {
      SortedSeq(elements)
    }

    /** A new component of the same mesh and type built from `xs` by setElements. */
    method Sibling(t: ComponentType, xs: seq<int>) returns (c: Component)
      requires Valid()
      ensures fresh(c) && c.Valid()
      ensures c.flavor == flavor && c.mesh == mesh && c.kind == t
      ensures InRange(xs, mesh.size(t)) ==> c.elements == AppendItems(flavor, [], Ints(xs), mesh.size(t)).0
    {
      c := new Component(flavor, mesh, t);
      var s := c.SetElements(Coll(Deque, Ints(xs)));
      assert Ints(xs)[..] == Ints(xs);
    }

    /** `MeshComponent(handle, elements)`: a copy with the same elements in the same order. */
    method Copy() returns (c: Component)
      requires Valid()
      ensures fresh(c) && c.Valid()
      ensures c.flavor == flavor && c.mesh == mesh && c.kind == kind && c.elements == elements
    {
      c := Sibling(kind, elements);
      AppendDistinct(flavor, elements, maxElements);
    }

    /** `__add__`: appends to a copy; this component is unchanged. */
    method Plus(v: PyValue) returns (c: Component, s: Status)
      requires Valid()
      ensures fresh(c) && c.Valid() && c.kind == kind
      ensures AppendArg(flavor, v).None? ==> s == Raised(TypeError) && c.elements == elements
      ensures AppendArg(flavor, v).Some? ==>
        (c.elements, s) == AppendItems(flavor, elements, AppendArg(flavor, v).value, maxElements)
    {
      c := Copy();
      s := c.Append(v);
    }

    /**
     * `__sub__`: removes from a copy and returns what `remove` returns, which
     * is None when the argument type is rejected; this component is unchanged.
     */
    method Minus(v: PyValue) returns (r: Option<Component>, s: Status)
      requires Valid()
      ensures r.None? <==> RemoveArg(flavor, v).None?
      ensures RemoveArg(flavor, v).None? ==> s == Done
      ensures r.Some? ==> fresh(r.value) && r.value.Valid() && r.value.kind == kind
      ensures r.Some? ==>
        (r.value.elements, s) == RemoveItems(flavor, elements, RemoveArg(flavor, v).value, maxElements)
    {
      var c := Copy();
      s := c.Remove(v);
      if RemoveArg(flavor, v).None? {
        r := None;
      } else {
        r := Some(c);
      }
    }

    /**
     * `convert`: the same type keeps the elements (the nodetypes flavour returns
     * this very component), another mesh type takes the connected elements of
     * that type, deduplicated, and anything else raises TypeError.
     */
    method Convert(api: ApiCode) returns (r: Result<Component>)
      requires Valid()
      ensures api.NotMeshType? ==> r == Err(TypeError)
      ensures api.MeshType? && api.t == kind && flavor == NodeTypes ==> r == Ok(this)
      ensures api.MeshType? && api.t == kind && flavor == Builtins ==>
        r.Ok? && fresh(r.value) && r.value.Valid() && r.value.kind == kind && r.value.elements == elements
      ensures api.MeshType? && api.t != kind ==>
        r.Ok? && fresh(r.value) && r.value.Valid() && r.value.kind == api.t
        && r.value.elements == AppendItems(flavor, [], Ints(Gather(mesh, kind, api.t, elements)), mesh.size(api.t)).0
    {
      if api.NotMeshType? {
        return Err(TypeError);
      }
      if api.t == kind {
        if flavor == NodeTypes {
          return Ok(this);
        }
        var c := Copy();
        return Ok(c);
      }
      GatherInRange(mesh, kind, api.t, elements);
      var c := Sibling(api.t, Gather(mesh, kind, api.t, elements));
      return Ok(c);
    }

    /** `elements()`: a copy of the deque. */
    function Elements(): (r: seq<int>)
      reads this
      requires Valid()
      ensures NoDup(r) && forall x :: x in r <==> 0 <= x < maxElements && occupied[x]
    {
      elements
    }
  }

  /** Intersection and difference split the in-range int items of an argument. */
  lemma {:induction false} PresentAbsentSplit(c: Component, items: seq<PyValue>)
    requires c.Valid()
    ensures |c.Present(items)| + |c.Absent(items)| == |InRangeInts(items, c.maxElements)|
  {
    if items != [] {
      PresentAbsentSplit(c, items[1..]);
    }
  }

  function InRangeInts(items: seq<PyValue>, max: nat): (r: seq<int>)
    ensures forall x :: x in r <==> Int(x) in items && 0 <= x < max
  {
    if items == [] then []
    else (if items[0].Int? && 0 <= items[0].n < max then [items[0].n] else []) + InRangeInts(items[1..], max)
  }
}
