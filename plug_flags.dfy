// builtins `DependencyMixin`: the keyable / channel-box / lock flags that
// `hideAttr`, `showAttr`, `lockAttr` and `unlockAttr` write, the guarded
// attribute access of `tryGetAttr` / `trySetAttr`, and the argument rules of
// `keyAttr`.
module PlugFlags {
  import opened Wrappers
  import opened PlugTree

  /** The ids of the given plugs, in order: what `iterChildren` / `iterElements` yield. */
  function DirectIds(plugs: seq<Plug>): (r: seq<nat>)
    ensures |r| == |plugs|
    ensures forall k :: 0 <= k < |plugs| ==> r[k] == plugs[k].id
  {
    if plugs == [] then [] else [plugs[0].id] + DirectIds(plugs[1..])
  }

  /** Where `hideAttr` and `showAttr` write: each child of a compound, otherwise the plug. */
  function ShowTargets(p: Plug): seq<nat>
  {
    if p.IsCompound() then DirectIds(p.children) else [p.id]
  }

  /** Where `lockAttr` and `unlockAttr` write: each child of a compound, each element of an array, otherwise the plug. */
  function LockTargets(p: Plug): seq<nat>
  {
    if p.IsCompound() || p.kind == ArrayPlug then DirectIds(p.children) else [p.id]
  }

  function AsSet(s: seq<nat>): set<nat>
  {
    set id | id in s
  }

  /** Every plug a call over `plugs` writes. */
  function AllTargets(plugs: seq<Plug>, lock: bool): set<nat>
  {
    if plugs == [] then {}
    else AsSet(if lock then LockTargets(plugs[0]) else ShowTargets(plugs[0]))
         + AllTargets(plugs[1..], lock)
  }

  lemma AllTargetsAppend(plugs: seq<Plug>, p: Plug, lock: bool)
    ensures AllTargets(plugs + [p], lock)
         == AllTargets(plugs, lock) + AsSet(if lock then LockTargets(p) else ShowTargets(p))
  {
    if plugs != [] {
      assert (plugs + [p])[1..] == plugs[1..] + [p];
      AllTargetsAppend(plugs[1..], p, lock);
    } else {
      assert [p][1..] == [];
    }
  }

  /** `after` holds `v` for every plug in `ids` and agrees with `before` on every other plug. */
  ghost predicate Written(after: map<nat, bool>, before: map<nat, bool>, ids: set<nat>, v: bool)
  {
    && (forall id :: id in ids ==> id in after && after[id] == v)
    && (forall id :: id !in ids ==> (id in after <==> id in before) && (id in after ==> after[id] == before[id]))
  }

  /** A flag that is written with `v` (Some) or left alone (None). */
  ghost predicate Updated(after: map<nat, bool>, before: map<nat, bool>, ids: set<nat>, v: Option<bool>)
  {
    if v.None? then after == before else Written(after, before, ids, v.value)
  }

  lemma UpdatedTransitive(a: map<nat, bool>, b: map<nat, bool>, c: map<nat, bool>, s: set<nat>, t: set<nat>, v: Option<bool>)
    requires Updated(b, a, s, v) && Updated(c, b, t, v)
    ensures Updated(c, a, s + t, v)
  {
  }

  /** Writing one more plug, when the value is given, adds that plug to the written ones. */
  lemma UpdatedStep(after: map<nat, bool>, before: map<nat, bool>, ids: set<nat>, id: nat, v: Option<bool>)
    requires Updated(after, before, ids, v)
    ensures Updated(if v.Some? then after[id := v.value] else after, before, ids + {id}, v)
  {
  }

  /** The key `keyAttr` writes: the plug, the value, and the time in the unit it was given in. */
  datatype KeyTime = AsGiven(t: real) | InUiUnit(t: real)
  datatype Key<V> = Key(plug: nat, value: V, time: KeyTime)

  /** The `time` argument of `keyAttr`. */
  datatype TimeArg = MTimeArg(t: real) | Number(n: real) | NoTime | OtherTime

  /**
   * `keyAttr(*args, time=...)`: one argument keys the plug at its current
   * value, two key it at the given one; any other count, a non-keyable plug
   * or a time of another type raises TypeError. `findPlug`, `getValue`,
   * `isKeyable` and the scene time come from the host.
   */
  function KeyAttr<V>(args: seq<V>, time: TimeArg, findPlug: V -> nat, getValue: nat -> V,
                      isKeyable: nat -> bool, sceneTime: real): (r: Result<Key<V>>)
    ensures r.Ok? <==> 1 <= |args| <= 2 && isKeyable(findPlug(args[0])) && !time.OtherTime?
    ensures r.Err? ==> r.error == TypeError
    ensures r.Ok? ==> r.value.plug == findPlug(args[0])
    ensures r.Ok? && |args| == 1 ==> r.value.value == getValue(r.value.plug)
    ensures r.Ok? && |args| == 2 ==> r.value.value == args[1]
    ensures r.Ok? && time.NoTime? ==> r.value.time == InUiUnit(sceneTime)
  {
    if !(1 <= |args| <= 2) then Err(TypeError)
    else
      var plug := findPlug(args[0]);
      var value := if |args| == 1 then getValue(plug) else args[1];
      if !isKeyable(plug) then Err(TypeError)
      else match time
        case MTimeArg(t) => Ok(Key(plug, value, AsGiven(t)))
        case Number(n) => Ok(Key(plug, value, InUiUnit(n)))
        case NoTime => Ok(Key(plug, value, InUiUnit(sceneTime)))
        case OtherTime => Err(TypeError)
  }

  class DependencyNode<V> {
    /** The `isKeyable`, `isChannelBox` and `isLocked` flags of each plug that has them set. */
    var keyable: map<nat, bool>
    var channelBox: map<nat, bool>
    var locked: map<nat, bool>
    /** The value of each attribute the node has, by name: `hasAttr` is membership. */
    var values: map<string, V>

    constructor (values: map<string, V>)
      ensures this.values == values && keyable == map[] && channelBox == map[] && locked == map[]
    {
      this.values := values;
      keyable := map[];
      channelBox := map[];
      locked := map[];
    }

    /** `tryGetAttr`: the attribute's value, or `default` when the node has no such attribute. */
    function TryGetAttr(name: string, default: V): (r: V)
      reads this
      ensures name in values ==> r == values[name]
      ensures name !in values ==> r == default
    {
      if name in values then values[name] else default
    }

    /** `trySetAttr`: False with nothing written for a missing attribute, otherwise writes and returns True. */
    method TrySetAttr(name: string, value: V) returns (ok: bool)
      modifies this
      ensures ok <==> name in old(values)
      ensures ok ==> values == old(values)[name := value]
      ensures !ok ==> values == old(values)
      ensures keyable == old(keyable) && channelBox == old(channelBox) && locked == old(locked)
      ensures forall d :: TryGetAttr(name, d) == (if ok then value else d)
    {
      if name in values {
        values := values[name := value];
        return true;
      }
      return false;
    }

    /** Writes the given flags, where given, on each of `ids`: the body of every loop below. */
    method SetFlags(ids: seq<nat>, k: Option<bool>, c: Option<bool>, l: Option<bool>)
      modifies this
      ensures values == old(values)
      ensures Updated(keyable, old(keyable), AsSet(ids), k)
      ensures Updated(channelBox, old(channelBox), AsSet(ids), c)
      ensures Updated(locked, old(locked), AsSet(ids), l)
    {
      var i := 0;
      while i < |ids|
        invariant i <= |ids| && values == old(values)
        invariant Updated(keyable, old(keyable), AsSet(ids[..i]), k)
        invariant Updated(channelBox, old(channelBox), AsSet(ids[..i]), c)
        invariant Updated(locked, old(locked), AsSet(ids[..i]), l)
      {
        assert AsSet(ids[..i + 1]) == AsSet(ids[..i]) + {ids[i]} by {
          assert ids[..i + 1] == ids[..i] + [ids[i]];
        }
        ghost var k0, c0, l0 := keyable, channelBox, locked;
        if k.Some? { keyable := keyable[ids[i] := k.value]; }
        if c.Some? { channelBox := channelBox[ids[i] := c.value]; }
        if l.Some? { locked := locked[ids[i] := l.value]; }
        UpdatedStep(k0, old(keyable), AsSet(ids[..i]), ids[i], k);
        UpdatedStep(c0, old(channelBox), AsSet(ids[..i]), ids[i], c);
        UpdatedStep(l0, old(locked), AsSet(ids[..i]), ids[i], l);
        i := i + 1;
      }
      assert ids[..i] == ids;
    }

    /** The loop over `plugs` shared by the four methods; `lock` picks the array-aware targets. */
    method SetOnAll(plugs: seq<Plug>, lock: bool, k: Option<bool>, c: Option<bool>, l: Option<bool>)
      modifies this
      ensures values == old(values)
      ensures Updated(keyable, old(keyable), AllTargets(plugs, lock), k)
      ensures Updated(channelBox, old(channelBox), AllTargets(plugs, lock), c)
      ensures Updated(locked, old(locked), AllTargets(plugs, lock), l)
    {
      var i := 0;
      while i < |plugs|
        invariant i <= |plugs| && values == old(values)
        invariant Updated(keyable, old(keyable), AllTargets(plugs[..i], lock), k)
        invariant Updated(channelBox, old(channelBox), AllTargets(plugs[..i], lock), c)
        invariant Updated(locked, old(locked), AllTargets(plugs[..i], lock), l)
      {
        var targets := if lock then LockTargets(plugs[i]) else ShowTargets(plugs[i]);
        ghost var k0, c0, l0 := keyable, channelBox, locked;
        SetFlags(targets, k, c, l);
        assert plugs[..i + 1] == plugs[..i] + [plugs[i]];
        AllTargetsAppend(plugs[..i], plugs[i], lock);
        UpdatedTransitive(old(keyable), k0, keyable, AllTargets(plugs[..i], lock), AsSet(targets), k);
        UpdatedTransitive(old(channelBox), c0, channelBox, AllTargets(plugs[..i], lock), AsSet(targets), c);
        UpdatedTransitive(old(locked), l0, locked, AllTargets(plugs[..i], lock), AsSet(targets), l);
        i := i + 1;
      }
      assert plugs[..i] == plugs;
    }

    /** `hideAttr(*plugs, lock=...)`: not keyable, out of the channel box, and locked as asked, on every target. */
    method HideAttr(plugs: seq<Plug>, lock: bool)
      modifies this
      ensures values == old(values)
      ensures Written(keyable, old(keyable), AllTargets(plugs, false), false)
      ensures Written(channelBox, old(channelBox), AllTargets(plugs, false), false)
      ensures Written(locked, old(locked), AllTargets(plugs, false), lock)
    {
      SetOnAll(plugs, false, Some(false), Some(false), Some(lock));
    }

    /**
     * `showAttr(*plugs, keyable=..., unlock=...)`: in the channel box, keyable
     * as asked, and locked unless `unlock`, so a call with the defaults locks.
     */
    method ShowAttr(plugs: seq<Plug>, keyable: bool, unlock: bool)
      modifies this
      ensures values == old(values)
      ensures Written(this.keyable, old(this.keyable), AllTargets(plugs, false), keyable)
      ensures Written(channelBox, old(channelBox), AllTargets(plugs, false), true)
      ensures Written(locked, old(locked), AllTargets(plugs, false), !unlock)
    {
      SetOnAll(plugs, false, Some(keyable), Some(true), Some(!unlock));
    }

    /** `lockAttr`: locks the targets and touches no other flag and no other plug. */
    method LockAttr(plugs: seq<Plug>)
      modifies this
      ensures values == old(values) && keyable == old(keyable) && channelBox == old(channelBox)
      ensures Written(locked, old(locked), AllTargets(plugs, true), true)
    {
      SetOnAll(plugs, true, None, None, Some(true));
    }

    /** `unlockAttr`: unlocks the targets and touches no other flag and no other plug. */
    method UnlockAttr(plugs: seq<Plug>)
      modifies this
      ensures values == old(values) && keyable == old(keyable) && channelBox == old(channelBox)
      ensures Written(locked, old(locked), AllTargets(plugs, true), false)
    {
      SetOnAll(plugs, true, None, None, Some(false));
    }
  }

  /** The parent of a compound is never written by the flag methods; its children are. */
  lemma CompoundParentUntouched(p: Plug, lock: bool)
    requires p.IsCompound() && Distinct(p)
    ensures p.id !in AllTargets([p], lock)
    ensures forall c :: c in p.children ==> c.id in AllTargets([p], lock)
  {
    var targets := DirectIds(p.children);
    assert [p][1..] == [];
    forall k | 0 <= k < |p.children|
      ensures targets[k] != p.id
    {
      ChildIdsHas(p.children, k);
    }
  }

  /** A leaf is written itself, and nothing else is. */
  lemma LeafTargetsItself(p: Plug, lock: bool)
    requires p.kind == Leaf
    ensures AllTargets([p], lock) == {p.id}
  {
    assert [p][1..] == [];
  }

  /** Hiding reaches the array plug itself, locking reaches its elements instead. */
  lemma ArrayTargetsDiffer(p: Plug)
    requires p.kind == ArrayPlug
    ensures AllTargets([p], false) == {p.id}
    ensures AllTargets([p], true) == set c | c in p.children :: c.id
  {
    assert [p][1..] == [];
    var ids := DirectIds(p.children);
    assert forall id :: id in ids <==> exists c :: c in p.children && c.id == id by {
      forall id ensures id in ids <==> exists c :: c in p.children && c.id == id {
        if id in ids {
          var k :| 0 <= k < |ids| && ids[k] == id;
          assert p.children[k] in p.children;
        }
        if exists c :: c in p.children && c.id == id {
          var c :| c in p.children && c.id == id;
          var k :| 0 <= k < |p.children| && p.children[k] == c;
          assert ids[k] == id;
        }
      }
    }
  }
}
