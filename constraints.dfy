// `ConstraintMixin` and `ConstraintTarget` (builtins/constraintmixin.py): how a
// constraint is attached to the object it drives, which of its inputs and
// outputs get connected, and the sparse `target[]` array with one weight
// attribute per target.
module Constraint {
  import opened Wrappers
  import SceneNaming

  /** A connection requested from `connectPlugs`, by plug name. */
  datatype Link = Link(source: string, destination: string, force: bool)

  /** The elements of `s` that satisfy `keep`, in order. */
  function Filter<T(!new)>(s: seq<T>, keep: T -> bool): (r: seq<T>)
    ensures |r| <= |s|
    ensures forall x :: x in r <==> x in s && keep(x)
  {
    if s == [] then []
    else
      var rest := Filter(s[1..], keep);
      assert forall x :: x in s <==> x == s[0] || x in s[1..];
      if keep(s[0]) then [s[0]] + rest else rest
  }

  /** `'{nodeName}_{typeName}1'`: the name a constraint takes when it is given an object. */
  function ConstraintName(nodeName: string, typeName: string): string
  {
    nodeName + "_" + typeName + "1"
  }

  /** `'{nodeName}W{index}'`: the weight attribute of the target at `index`. */
  function WeightName(targetName: string, index: nat): string
  {
    targetName + "W" + SceneNaming.NatToString(index)
  }

  /** Two targets of one object never get the same weight attribute name. */
  lemma WeightNamesDistinct(targetName: string, i: nat, j: nat)
    requires i != j
    ensures WeightName(targetName, i) != WeightName(targetName, j)
  {
    var prefix := targetName + "W";
    if WeightName(targetName, i) == WeightName(targetName, j) {
      assert WeightName(targetName, i)[|prefix|..] == SceneNaming.NatToString(i);
      assert WeightName(targetName, j)[|prefix|..] == SceneNaming.NatToString(j);
      SceneNaming.NatToStringInjective(i, j);
    }
  }

  /** The plug `target[index].child`. */
  function TargetPlug(index: nat, child: string): string
  {
    ElementName(index) + "." + child
  }

  /** The plug `target[index]`. */
  function ElementName(index: nat): string
  {
    "target[" + SceneNaming.NatToString(index) + "]"
  }

  /** A plug named by a path inside `target[index]`. */
  predicate InElement(plug: string, index: nat)
  {
    var e := ElementName(index);
    |e| <= |plug| && plug[..|e|] == e
  }

  /**
   * The input and target loops: a (destination, source) pair is connected
   * only when the source node has the source attribute and the constraint
   * has the destination attribute.
   */
  function Present(pairs: seq<(string, string)>, sourceAttrs: set<string>, destinationAttrs: set<string>): seq<(string, string)>
  {
    Filter(pairs, (p: (string, string)) => p.1 in sourceAttrs && p.0 in destinationAttrs)
  }

  lemma PresentSpec(pairs: seq<(string, string)>, sourceAttrs: set<string>, destinationAttrs: set<string>)
    ensures forall p :: p in Present(pairs, sourceAttrs, destinationAttrs) <==>
      p in pairs && p.1 in sourceAttrs && p.0 in destinationAttrs
  {
  }

  /** A destination attribute of the constraint itself (None), or the child of `target[index]` (Some). */
  function At(element: Option<nat>, attribute: string): string
  {
    if element.Some? then TargetPlug(element.value, attribute) else attribute
  }

  /** The requested connections for `pairs` of (destination, source), into the destinations `At(element, ...)`. */
  function InputLinks(pairs: seq<(string, string)>, element: Option<nat>, force: bool): (r: seq<Link>)
    ensures |r| == |pairs|
    ensures forall k :: 0 <= k < |pairs| ==> r[k] == Link(pairs[k].1, At(element, pairs[k].0), force)
  {
    if pairs == [] then [] else [Link(pairs[0].1, At(element, pairs[0].0), force)] + InputLinks(pairs[1..], element, force)
  }

  /** The connections `removeTarget(index)` leaves: those with neither end inside `target[index]`. */
  function Untouched(index: nat): Link -> bool
  {
    (l: Link) => !InElement(l.source, index) && !InElement(l.destination, index)
  }

  /** `options.get(key, default)` over the keyword arguments. */
  function Get(options: map<string, bool>, key: string, default: bool): bool
  {
    if key in options then options[key] else default
  }

  predicate IsCartesian(name: string)
  {
    |name| > 0 && name[|name| - 1] in {'X', 'Y', 'Z'}
  }

  /**
   * The output loop's two checks: `skip<Parent>` for a name ending in X, Y or
   * Z (the parent being the name minus its last character), then
   * `skip<Name>`; each falls back to `skipAll`. `pascalize` is
   * `stringutils.pascalize`, which is not part of this model.
   */
  function Skipped(destination: string, options: map<string, bool>, skipAll: bool, pascalize: string -> string): bool
  {
    var parentKey := if IsCartesian(destination) then "skip" + pascalize(destination[..|destination| - 1]) else destination;
    (IsCartesian(destination) && Get(options, parentKey, skipAll))
    || Get(options, "skip" + pascalize(destination), skipAll)
  }

  /** The output connections made: every (source, destination) pair that neither check skips, in order. */
  function OutputLinks(outputs: seq<(string, string)>, options: map<string, bool>, skipAll: bool,
                       pascalize: string -> string): (r: seq<Link>)
    ensures forall l :: l in r <==> (l.force == false && (l.source, l.destination) in outputs
                                     && !Skipped(l.destination, options, skipAll, pascalize))
  {
    if outputs == [] then []
    else
      var rest := OutputLinks(outputs[1..], options, skipAll, pascalize);
      assert forall p :: p in outputs <==> p == outputs[0] || p in outputs[1..];
      if Skipped(outputs[0].1, options, skipAll, pascalize) then rest
      else [Link(outputs[0].0, outputs[0].1, false)] + rest
  }

  /** With `skipAll` and no per-attribute keyword, no output is connected. */
  lemma SkipAllSkipsEverything(outputs: seq<(string, string)>, pascalize: string -> string)
    ensures OutputLinks(outputs, map[], true, pascalize) == []
  {
    if outputs != [] {
      var l := Link(outputs[0].0, outputs[0].1, false);
      assert l !in OutputLinks(outputs, map[], true, pascalize);
      SkipAllSkipsEverything(outputs[1..], pascalize);
    }
  }

  /** With no keywords at all, every output is connected, in order. */
  lemma {:induction false} NoOptionsConnectsAll(outputs: seq<(string, string)>, pascalize: string -> string)
    ensures OutputLinks(outputs, map[], false, pascalize) == InputLinks(Swap(outputs), None, false)
  {
    if outputs != [] {
      NoOptionsConnectsAll(outputs[1..], pascalize);
      assert Swap(outputs)[1..] == Swap(outputs[1..]);
    }
  }

  /** (a, b) pairs as (b, a). */
  function Swap(pairs: seq<(string, string)>): (r: seq<(string, string)>)
    ensures |r| == |pairs|
    ensures forall k :: 0 <= k < |pairs| ==> r[k] == (pairs[k].1, pairs[k].0)
  {
    if pairs == [] then [] else [(pairs[0].1, pairs[0].0)] + Swap(pairs[1..])
  }

  /** `skip<Parent>=True` skips the parent attribute and each of its X, Y and Z children. */
  lemma ParentKeySkipsAxes(parent: string, options: map<string, bool>, skipAll: bool, pascalize: string -> string)
    requires "skip" + pascalize(parent) in options && options["skip" + pascalize(parent)]
    ensures Skipped(parent, options, skipAll, pascalize)
    ensures forall axis :: axis in {'X', 'Y', 'Z'} ==> Skipped(parent + [axis], options, skipAll, pascalize)
  {
    forall axis | axis in {'X', 'Y', 'Z'}
      ensures Skipped(parent + [axis], options, skipAll, pascalize)
    {
      var d := parent + [axis];
      assert d[..|d| - 1] == parent;
    }
  }

  /** The indices of `s` outside `lo..hi-1`: what is left once `clearTargets` has removed `hi-1` down to `lo`. */
  function Outside(s: set<nat>, lo: nat, hi: nat): set<nat>
  {
    set x | x in s && (x < lo || x >= hi)
  }

  /** `clearTargets` on a sparse array: target elements 0 and 2 exist, and element 2 survives. */
  lemma ClearTargetsLeavesSparse()
    ensures Outside({0, 2}, 0, |{0, 2}|) == {2}
  {
    assert 2 in Outside({0, 2}, 0, 2);
  }

  /** On a dense array, `clearTargets` removes every element. */
  lemma ClearTargetsDense(s: set<nat>, n: nat)
    requires forall x :: x in s <==> x < n
    ensures |s| == n
    ensures Outside(s, 0, |s|) == {}
  {
    DenseSize(s, n);
  }

  lemma {:induction false} DenseSize(s: set<nat>, n: nat)
    requires forall x :: x in s <==> x < n
    ensures |s| == n
  {
    if n > 0 {
      DenseSize(s - {n - 1}, n - 1);
    }
  }

  /** A weight attribute rename carried into every connection it drives. */
  function RenameSource(links: seq<Link>, from: string, to: string): (r: seq<Link>)
    ensures |r| == |links|
    ensures forall k :: 0 <= k < |links| ==>
      r[k] == (if links[k].source == from then links[k].(source := to) else links[k])
  {
    if links == [] then []
    else [if links[0].source == from then links[0].(source := to) else links[0]] + RenameSource(links[1..], from, to)
  }

  /** A target node as `addTarget` reads it: its name and the attributes it has. */
  datatype Target = Target(name: string, attributes: set<string>)

  /**
   * The connections after `addTarget` at `index`: the target's connections
   * whose attributes exist, into `target[index]`, then the weight attribute
   * into `target[index].targetWeight`.
   */
  function TargetLinks(links: seq<Link>, attributes: set<string>, target: Target,
                       connections: seq<(string, string)>, index: nat): (r: seq<Link>)
    ensures |r| == |links| + |Present(connections, target.attributes, attributes)| + 1
    ensures r[..|links|] == links
    ensures r[|r| - 1] == Link(WeightName(target.name, index), TargetPlug(index, "targetWeight"), false)
  {
    links + InputLinks(Present(connections, target.attributes, attributes), Some(index), false)
    + [Link(WeightName(target.name, index), TargetPlug(index, "targetWeight"), false)]
  }

  /** `a` is an initial part of `b`. */
  ghost predicate IsPrefix(a: seq<Link>, b: seq<Link>)
  {
    |a| <= |b| && b[..|a|] == a
  }

  lemma PrefixTrans(a: seq<Link>, b: seq<Link>, c: seq<Link>)
    requires IsPrefix(a, b) && IsPrefix(b, c)
    ensures IsPrefix(a, c)
  {
    assert c[..|a|] == c[..|b|][..|a|];
  }

  /**
   * After `addTargets` has added the first `|indices|` of `newTargets`, which
   * took the fresh, distinct `indices`: the target set grew by exactly those,
   * each has the weight attribute of its target, and every earlier driver is kept.
   */
  ghost predicate Added(t0: set<nat>, d0: map<nat, string>, t: set<nat>, d: map<nat, string>,
                        newTargets: seq<Target>, indices: seq<nat>)
  {
    && |indices| <= |newTargets|
    && t == t0 + (set x | x in indices)
    && (forall j :: 0 <= j < |indices| ==> indices[j] !in t0)
    && (forall i, j :: 0 <= i < j < |indices| ==> indices[i] != indices[j])
    && (forall j :: 0 <= j < |indices| ==> indices[j] in d && d[indices[j]] == WeightName(newTargets[j].name, indices[j]))
    && (forall i :: i in d0 ==> i in d && d[i] == d0[i])
  }

  /** One more `addTarget`, at an index outside the current targets, extends `Added`. */
  lemma AddedStep(t0: set<nat>, d0: map<nat, string>, t: set<nat>, d: map<nat, string>, newTargets: seq<Target>,
                  indices: seq<nat>, index: nat, t': set<nat>, d': map<nat, string>)
    requires Added(t0, d0, t, d, newTargets, indices) && |indices| < |newTargets|
    requires forall i :: i in d ==> i in t
    requires index !in t && t' == t + {index}
    requires d' == d[index := WeightName(newTargets[|indices|].name, index)]
    ensures Added(t0, d0, t', d', newTargets, indices + [index])
  {
    var next := indices + [index];
    assert (set x | x in next) == (set x | x in indices) + {index};
    forall j | 0 <= j < |indices|
      ensures next[j] in d' && d'[next[j]] == WeightName(newTargets[j].name, next[j])
    {
      assert next[j] == indices[j] && indices[j] in indices && indices[j] in t;
    }
    forall i | i in d0 ensures i in d' && d'[i] == d0[i] {
      assert i in d && i in t;
    }
  }

  class ConstraintNode {
    var name: string
    /** The constraint object: the constraint's parent. */
    var parent: Option<nat>
    /** The constraint's attributes, static and user-added, by name. */
    var attributes: set<string>
    /** The value of each weight attribute. */
    var weights: map<string, real>
    /** Every connection requested so far, in order. */
    var links: seq<Link>
    /** The existing `target` elements, logical indices in physical order. */
    var targets: set<nat>
    /** The attribute connected into `target[i].targetWeight`, for each target that has one. */
    var drivers: map<nat, string>
    const typeName: string
    /** `plugutils.getNextAvailableElement(target)`: outside this model; it promises an index with no element. */
    const nextAvailable: set<nat> -> nat

    ghost predicate Valid()
      reads this
    {
      && (forall i :: i in drivers ==> i in targets)
      && (forall s :: nextAvailable(s) !in s)
    }

    constructor (name: string, typeName: string, attributes: set<string>, nextAvailable: set<nat> -> nat)
      requires forall s :: nextAvailable(s) !in s
      ensures Valid() && this.name == name && this.typeName == typeName && this.attributes == attributes
      ensures this.nextAvailable == nextAvailable
      ensures parent.None? && weights == map[] && links == [] && targets == {} && drivers == map[]
    {
      this.name := name;
      this.typeName := typeName;
      this.attributes := attributes;
      this.nextAvailable := nextAvailable;
      parent := None;
      weights := map[];
      links := [];
      targets := {};
      drivers := map[];
    }

    /**
     * `setConstraintObject`: nothing when `obj` already is the constraint
     * object. Otherwise the constraint is renamed `<node>_<type>1` and
     * reparented, each input whose attributes exist on both sides is
     * force-connected into the constraint, and each output that is not
     * skipped is connected out of it.
     */
    method SetConstraintObject(obj: nat, objName: string, objAttrs: set<string>,
                               inputs: seq<(string, string)>, outputs: seq<(string, string)>,
                               options: map<string, bool>, skipAll: bool, pascalize: string -> string)
      requires Valid()
      modifies this
      ensures Valid() && attributes == old(attributes) && weights == old(weights)
      ensures targets == old(targets) && drivers == old(drivers)
      ensures old(parent) == Some(obj) ==> name == old(name) && parent == old(parent) && links == old(links)
      ensures old(parent) != Some(obj) ==>
        && name == ConstraintName(objName, typeName)
        && parent == Some(obj)
        && links == old(links)
                    + InputLinks(Present(inputs, objAttrs, old(attributes)), None, true)
                    + OutputLinks(outputs, options, skipAll, pascalize)
    {
      if parent == Some(obj) {
        return;
      }
      name := ConstraintName(objName, typeName);
      parent := Some(obj);
      links := links + InputLinks(Present(inputs, objAttrs, attributes), None, true);
      links := links + OutputLinks(outputs, options, skipAll, pascalize);
    }

    /** `ConstraintTarget.name`: the weight attribute's name, or '' when `targetWeight` has no driver. */
    function TargetName(index: nat): (r: string)
      reads this
      requires Valid()
      ensures index in drivers ==> r == drivers[index]
      ensures index !in drivers ==> r == ""
    {
      if index in drivers then drivers[index] else ""
    }

    /**
     * `addTarget`: the target's connections whose attributes exist go into
     * `target[index]`, a weight attribute `<target>W<index>` is added with
     * the given weight and connected into `target[index].targetWeight`, and
     * `index` (the next available one) is returned.
     */
    method AddTarget(target: Target, connections: seq<(string, string)>, weight: real) returns (index: nat)
      requires Valid()
      modifies this
      ensures Valid() && name == old(name) && parent == old(parent)
      ensures index == old(nextAvailable(targets)) && index !in old(targets)
      ensures targets == old(targets) + {index}
      ensures drivers == old(drivers)[index := WeightName(target.name, index)]
      ensures attributes == old(attributes) + {WeightName(target.name, index)}
      ensures weights == old(weights)[WeightName(target.name, index) := weight]
      ensures links == TargetLinks(old(links), old(attributes), target, connections, index)
      ensures TargetName(index) == WeightName(target.name, index)
    {
      index := nextAvailable(targets);
      links := TargetLinks(links, attributes, target, connections, index);
      var attribute := WeightName(target.name, index);
      attributes := attributes + {attribute};
      weights := weights[attribute := weight];
      targets := targets + {index};
      drivers := drivers[index := attribute];
    }

    /**
     * `addTargets`: `addTarget` on each target in turn; the indices come
     * back in target order, all new and all distinct. The targets grow by
     * exactly those indices, each driven by its target's weight attribute;
     * earlier drivers stay and the links only grow.
     */
    method AddTargets(newTargets: seq<Target>, connections: seq<(string, string)>, weight: real) returns (indices: seq<nat>)
      requires Valid()
      modifies this
      ensures Valid() && name == old(name) && parent == old(parent)
      ensures |indices| == |newTargets|
      ensures targets == old(targets) + set x | x in indices
      ensures forall k :: 0 <= k < |indices| ==> indices[k] !in old(targets)
      ensures forall j, k :: 0 <= j < k < |indices| ==> indices[j] != indices[k]
      ensures forall k :: 0 <= k < |indices| ==> indices[k] in drivers && drivers[indices[k]] == WeightName(newTargets[k].name, indices[k])
      ensures forall i :: i in old(drivers) ==> i in drivers && drivers[i] == old(drivers)[i]
      ensures IsPrefix(old(links), links)
    {
      indices := [];
      var k := 0;
      while k < |newTargets|
        invariant k <= |newTargets| && |indices| == k
        invariant Valid() && name == old(name) && parent == old(parent)
        invariant Added(old(targets), old(drivers), targets, drivers, newTargets, indices)
        invariant IsPrefix(old(links), links)
      {
        ghost var before := links;
        ghost var wasTargets := targets;
        ghost var wasDrivers := drivers;
        var index := AddTarget(newTargets[k], connections, weight);
        PrefixTrans(old(links), before, links);
        AddedStep(old(targets), old(drivers), wasTargets, wasDrivers, newTargets, indices, index, targets, drivers);
        indices := indices + [index];
        k := k + 1;
      }
    }

    /**
     * `removeTarget`: a missing index changes nothing. Otherwise every
     * connection into or out of `target[index]` is broken, the element is
     * removed, and so is its weight attribute.
     */
    method RemoveTarget(index: nat)
      requires Valid()
      modifies this
      ensures Valid() && name == old(name) && parent == old(parent)
      ensures index !in old(targets) ==>
        targets == old(targets) && drivers == old(drivers) && attributes == old(attributes) && links == old(links)
        && weights == old(weights)
      ensures index in old(targets) ==>
        && targets == old(targets) - {index}
        && drivers == old(drivers) - {index}
        && links == Filter(old(links), Untouched(index))
        && (index in old(drivers) ==>
              attributes == old(attributes) - {old(drivers)[index]} && weights == old(weights) - {old(drivers)[index]})
        && (index !in old(drivers) ==> attributes == old(attributes) && weights == old(weights))
      ensures index !in targets && TargetName(index) == ""
    {
      if index !in targets {
        return;
      }
      links := Filter(links, Untouched(index));
      targets := targets - {index};
      if index in drivers {
        var driver := drivers[index];
        drivers := drivers - {index};
        attributes := attributes - {driver};
        weights := weights - {driver};
      }
    }

    /**
     * `clearTargets` as written: `removeTarget(i)` for `i` from
     * `targetCount() - 1` down to 0. With a sparse array the logical indices
     * at or above the count are never visited and survive.
     */
    method ClearTargets()
      requires Valid()
      modifies this
      ensures Valid() && name == old(name) && parent == old(parent)
      ensures targets == Outside(old(targets), 0, |old(targets)|)
    {
      var count := |targets|;
      var i := count;
      while i > 0
        invariant 0 <= i <= count
        invariant Valid() && name == old(name) && parent == old(parent)
        invariant targets == Outside(old(targets), i, count)
      {
        RemoveTarget(i - 1);
        i := i - 1;
      }
    }

    /** `clearTargets` over the logical indices that exist rather than `range(targetCount())`: every target goes. */
    method ClearTargetsCorrected()
      requires Valid()
      modifies this
      ensures Valid() && name == old(name) && parent == old(parent)
      ensures targets == {} && drivers == map[]
    {
      while targets != {}
        invariant Valid() && name == old(name) && parent == old(parent)
        decreases |targets|
      {
        var index :| index in targets;
        RemoveTarget(index);
      }
      assert drivers.Keys == {};
    }

    /**
     * `ConstraintTarget.setName`: nothing when `targetWeight` has no driver
     * or the name is unchanged; otherwise the driving weight attribute is
     * renamed, and the connections it drives follow it.
     */
    method SetTargetName(index: nat, newName: string)
      requires Valid()
      modifies this
      ensures Valid() && name == old(name) && parent == old(parent) && targets == old(targets)
      ensures index !in old(drivers) || newName == old(TargetName(index)) ==>
        drivers == old(drivers) && attributes == old(attributes) && weights == old(weights) && links == old(links)
      ensures index in old(drivers) && newName != old(TargetName(index)) ==>
        var current := old(drivers)[index];
        && drivers == old(drivers)[index := newName]
        && attributes == old(attributes) - {current} + {newName}
        && (current in old(weights) ==> weights == (old(weights) - {current})[newName := old(weights)[current]])
        && (current !in old(weights) ==> weights == old(weights))
        && links == RenameSource(old(links), current, newName)
      ensures index in old(drivers) ==> TargetName(index) == newName
    {
      if index !in drivers {
        return;
      }
      var current := TargetName(index);
      if newName != current {
        attributes := attributes - {current} + {newName};
        if current in weights {
          weights := (weights - {current})[newName := weights[current]];
        }
        links := RenameSource(links, current, newName);
        drivers := drivers[index := newName];
      }
    }

    /** `ConstraintTarget.resetName`: nothing without a driver; otherwise the name becomes `<target>W<index>`. */
    method ResetTargetName(index: nat, targetName: string)
      requires Valid()
      modifies this
      ensures Valid() && name == old(name) && parent == old(parent) && targets == old(targets)
      ensures index !in old(drivers) ==> drivers == old(drivers) && attributes == old(attributes) && links == old(links)
      ensures index in old(drivers) ==> TargetName(index) == WeightName(targetName, index)
    {
      if index !in drivers {
        return;
      }
      SetTargetName(index, WeightName(targetName, index));
    }
  }
}
