// The instance registries: `MPyNode.__instances__` with `__new__`,
// `getInstance`, `isCompatible` and the extension switches (mpynode.py), and
// the metaclass registry of `MABCMeta` (abstract/mabcmeta.py). Scene objects
// are seen through their handles, (hash code, alive) pairs; instances are
// identified by number.
module NodeInstances {
  import opened Wrappers
  import opened ClassRegistry
  import opened NodeFactory

  /** An `MObjectHandle`: its hash code and whether the object is alive. */
  datatype Handle = Handle(hash: int, alive: bool)

  /** The argument of `MPyNode(obj)`: an accepted object (seen through its handle), a wrapper, an int, or anything else. */
  datatype NodeArg = Accepted(handle: Handle) | Wrapper(instance: nat) | HashCode(code: int) | Unsupported

  /** The `dependNode` argument of `isCompatible`: an MObject with the function-set types it has, or not an MObject. */
  datatype DependArg = MObject(fns: set<int>) | NotAnMObject

  /** A class's `__apitype__`: one type constant, a list or tuple of them, or anything else. */
  datatype ApiTypeAttr = ApiConstant(t: int) | ApiConstants(ts: seq<int>) | ApiOther

  /** `any([dependNode.hasFn(x) for x in ts])`. */
  function AnyHasFn(ts: seq<int>, fns: set<int>): bool
  {
    ts != [] && (ts[0] in fns || AnyHasFn(ts[1..], fns))
  }

  lemma {:induction false} AnyHasFnExists(ts: seq<int>, fns: set<int>)
    ensures AnyHasFn(ts, fns) <==> exists t :: t in ts && t in fns
  {
    if ts != [] {
      AnyHasFnExists(ts[1..], fns);
      assert ts == [ts[0]] + ts[1..];
      var head := ts[0];
      assert head in ts;
      if exists t :: t in ts && t in fns {
        var t :| t in ts && t in fns;
        if t != head { assert t in ts[1..]; }
      }
    }
  }

  /**
   * `isCompatible`: the argument checks come first, raising TypeError for a
   * non-MObject or an unusable api type attribute; a single constant means
   * `hasFn`, a list or tuple means any of them.
   */
  function IsCompatible(dependNode: DependArg, apiType: ApiTypeAttr): (r: Result<bool>)
    ensures r.Err? <==> dependNode.NotAnMObject? || apiType.ApiOther?
    ensures r.Err? ==> r.error == TypeError
    ensures r.Ok? && apiType.ApiConstant? ==> (r.value <==> apiType.t in dependNode.fns)
    ensures r.Ok? && apiType.ApiConstants? ==> (r.value <==> exists t :: t in apiType.ts && t in dependNode.fns)
  {
    if dependNode.NotAnMObject? then Err(TypeError)
    else
      match apiType
      case ApiConstant(t) => Ok(t in dependNode.fns)
      case ApiConstants(ts) =>
        AnyHasFnExists(ts, dependNode.fns);
        Ok(AnyHasFn(ts, dependNode.fns))
      case ApiOther => Err(TypeError)
  }

  /**
   * `MPyNode.__instances__`: hash code to instance. `live` is the set of
   * instances whose own handle is alive and `classOf` the class each
   * instance was given; `classFor` stands for `nodeManager.getClass` of the
   * node behind a hash code.
   */
  class NodeRegistry {
    var instances: map<int, nat>
    var live: set<nat>
    var classOf: map<nat, nat>
    var nextInstance: nat
    const classFor: int -> nat

    ghost predicate Valid()
      reads this
    {
      (forall h :: h in instances ==> instances[h] < nextInstance && instances[h] in classOf)
      && (forall i :: i in live ==> i < nextInstance)
    }

    constructor (classFor: int -> nat)
      ensures Valid() && instances == map[] && live == {} && classOf == map[] && nextInstance == 0
      ensures this.classFor == classFor
    {
      instances := map[];
      live := {};
      classOf := map[];
      nextInstance := 0;
      this.classFor := classFor;
    }

    /** The host deletes an instance's node: its handle is no longer alive. */
    method NodeDeleted(instance: nat)
      modifies this
      ensures live == old(live) - {instance}
      ensures instances == old(instances) && classOf == old(classOf) && nextInstance == old(nextInstance)
    {
      live := live - {instance};
    }

    /**
     * `getInstance`: None for a dead handle; the registered instance while it
     * is alive; otherwise (nothing registered, or a dead instance, which is
     * evicted first) a new live instance of the node's class, registered under
     * the hash code.
     */
    method GetInstance(handle: Handle) returns (r: Option<nat>)
      requires Valid()
      modifies this
      decreases if handle.hash in instances then 1 else 0
      ensures Valid()
      ensures !handle.alive ==> r.None?
      ensures !handle.alive || (handle.hash in old(instances) && old(instances)[handle.hash] in old(live)) ==>
        instances == old(instances) && live == old(live) && classOf == old(classOf) && nextInstance == old(nextInstance)
      ensures handle.alive && handle.hash in old(instances) && old(instances)[handle.hash] in old(live) ==>
        r == Some(old(instances)[handle.hash])
      ensures handle.alive && !(handle.hash in old(instances) && old(instances)[handle.hash] in old(live)) ==>
        && r == Some(old(nextInstance))
        && instances == old(instances)[handle.hash := r.value]
        && live == old(live) + {r.value}
        && classOf == old(classOf)[r.value := classFor(handle.hash)]
        && nextInstance == old(nextInstance) + 1
      ensures handle.alive ==> r.Some? && handle.hash in instances && instances[handle.hash] == r.value && r.value in live
    {
      if !handle.alive {
        return None;
      }
      var hashCode := handle.hash;
      if hashCode in instances {
        var instance := instances[hashCode];
        if instance !in live {
          instances := map h | h in instances && h != hashCode :: instances[h];
          r := GetInstance(handle);
          return;
        }
        return Some(instance);
      }
      var instance := nextInstance;
      nextInstance := nextInstance + 1;
      classOf := classOf[instance := classFor(hashCode)];
      live := live + {instance};
      instances := instances[hashCode := instance];
      r := Some(instance);
    }

    /**
     * `MPyNode(obj)` on the base class itself: an accepted object goes
     * through `getInstance`, a wrapper is returned unchanged, an int looks
     * up the registry (None when absent), and anything else raises TypeError.
     */
    method New(obj: NodeArg) returns (r: Result<Option<nat>>)
      requires Valid()
      modifies this
      ensures Valid()
      ensures obj.Wrapper? ==> r == Ok(Some(obj.instance))
      ensures obj.HashCode? ==> r == Ok(Registered(obj.code))
      ensures obj.Unsupported? ==> r == Err(TypeError)
      ensures !obj.Accepted? ==>
        instances == old(instances) && live == old(live) && classOf == old(classOf) && nextInstance == old(nextInstance)
      ensures obj.Accepted? ==> r.Ok? && (obj.handle.alive <==> r.value.Some?)
      ensures obj.Accepted? && obj.handle.alive ==> obj.handle.hash in instances && instances[obj.handle.hash] == r.value.value && r.value.value in live
      ensures obj.Accepted? && obj.handle.alive && obj.handle.hash in old(instances) && old(instances)[obj.handle.hash] in old(live) ==>
        r == Ok(Some(old(instances)[obj.handle.hash])) && instances == old(instances)
    {
      match obj
      case Accepted(handle) =>
        var instance := GetInstance(handle);
        return Ok(instance);
      case Wrapper(instance) =>
        return Ok(Some(instance));
      case HashCode(code) =>
        return Ok(if code in instances then Some(instances[code]) else None);
      case Unsupported =>
        return Err(TypeError);
    }

    /** `__instances__.get(code, None)`. */
    function Registered(code: int): (r: Option<nat>)
      reads this
      ensures r.Some? <==> code in instances
      ensures r.Some? ==> r.value == instances[code]
    {
      if code in instances then Some(instances[code]) else None
    }

    /**
     * `addExtension`: nothing when the node already has an extension;
     * otherwise the instance's class becomes the memoised combination of its
     * class and the extension class. `hasExtension` is the host's attribute check.
     */
    method AddExtension(instance: nat, extensionClass: nat, hasExtension: bool, factory: Factory)
      requires instance in classOf
      modifies this, factory
      ensures hasExtension ==> classOf == old(classOf) && factory.extensions == old(factory.extensions)
      ensures !hasExtension ==>
        var fullTypeName := FullTypeName(factory.className(old(classOf)[instance]), factory.className(extensionClass));
        && fullTypeName in factory.extensions
        && classOf == old(classOf)[instance := factory.extensions[fullTypeName]]
      ensures instances == old(instances) && live == old(live) && nextInstance == old(nextInstance)
    {
      if hasExtension {
        return;
      }
      var cls := factory.CreateExtensionClass(IsClass(classOf[instance]), IsClass(extensionClass));
      classOf := classOf[instance := cls.value];
    }

    /**
     * `removeExtension`: nothing when the node has no extension; otherwise
     * (after the metadata attribute is removed) the instance's class is
     * looked up again, and an error of that lookup propagates.
     */
    method RemoveExtension(instance: nat, node: NodeInfo, hasExtension: bool, factory: Factory) returns (s: Status)
      requires instance in classOf && factory.Valid()
      modifies this, factory
      ensures !hasExtension ==> s == Done && classOf == old(classOf)
      ensures hasExtension && (node.fromPlugin || !node.extensionAttrs) ==>
        var choice := if node.fromPlugin
          then PluginChoice(old(factory.plugins), old(factory.keys), old(factory.classes), node, factory.compatible, factory.isPluginClass, factory.depth)
          else MixinChoice(old(factory.keys), old(factory.classes), node, factory.compatible, factory.isPluginClass, factory.depth);
        && (choice.Err? ==> s == Raised(choice.error) && classOf == old(classOf))
        && (choice.Ok? ==> s == Done && classOf == old(classOf)[instance := choice.value])
      ensures s.Raised? ==> classOf == old(classOf)
      ensures instances == old(instances) && live == old(live) && nextInstance == old(nextInstance)
    {
      if !hasExtension {
        return Done;
      }
      var cls := factory.GetClassOf(node);
      if cls.Err? {
        return Raised(cls.error);
      }
      classOf := classOf[instance := cls.value];
      s := Done;
    }
  }

  /** What `MABCMeta.__call__` is given: an instance of a class of this metaclass, an accepted object, an int, or anything else. */
  datatype MetaArg = MetaInstance(instance: nat) | MetaAccepted(handle: Handle) | MetaHashCode(code: int) | MetaUnsupported

  /**
   * `MABCMeta.__instances__`: one dict shared by every class of the
   * metaclass, keyed only by hash code. `live` is the set of instances whose
   * handle is alive; `postInits` logs the instances `__post_init__` ran on.
   */
  class MetaRegistry {
    var instances: map<int, nat>
    var live: set<nat>
    var nextInstance: nat
    var postInits: seq<nat>

    ghost predicate Valid()
      reads this
    {
      (forall h :: h in instances ==> instances[h] < nextInstance)
      && (forall i :: 0 <= i < |postInits| ==> postInits[i] < nextInstance)
    }

    constructor ()
      ensures Valid() && instances == map[] && live == {} && nextInstance == 0 && postInits == []
    {
      instances := map[];
      live := {};
      nextInstance := 0;
      postInits := [];
    }

    /**
     * `getInstance`: None for a dead handle or an unregistered hash code; the
     * registered instance while it is alive; a dead registered instance is
     * deleted and None returned.
     */
    method GetInstance(handle: Handle) returns (r: Option<nat>)
      requires Valid()
      modifies this
      ensures Valid()
      ensures r.Some? <==> handle.alive && handle.hash in old(instances) && old(instances)[handle.hash] in old(live)
      ensures r.Some? ==> r.value == old(instances)[handle.hash]
      ensures handle.alive && handle.hash in old(instances) && old(instances)[handle.hash] !in old(live) ==>
        instances == old(instances) - {handle.hash}
      ensures !(handle.alive && handle.hash in old(instances) && old(instances)[handle.hash] !in old(live)) ==>
        instances == old(instances)
      ensures live == old(live) && nextInstance == old(nextInstance) && postInits == old(postInits)
    {
      if !handle.alive {
        return None;
      }
      var hashCode := handle.hash;
      if hashCode !in instances {
        return None;
      }
      var instance := instances[hashCode];
      if instance in live {
        return Some(instance);
      }
      instances := instances - {hashCode};
      return None;
    }

    /**
     * `__call__` for any class of the metaclass (the class plays no part):
     * a new instance is made, given `__post_init__` and registered only when
     * `getInstance` finds none.
     */
    method Call(obj: MetaArg) returns (r: Result<Option<nat>>)
      requires Valid()
      modifies this
      ensures Valid()
      ensures obj.MetaInstance? ==> r == Ok(Some(obj.instance))
      ensures obj.MetaHashCode? ==> r == Ok(if obj.code in old(instances) then Some(old(instances)[obj.code]) else None)
      ensures obj.MetaUnsupported? ==> r == Err(TypeError)
      ensures !obj.MetaAccepted? ==>
        instances == old(instances) && live == old(live) && nextInstance == old(nextInstance) && postInits == old(postInits)
      ensures obj.MetaAccepted? ==>
        var h := obj.handle;
        var found := h.alive && h.hash in old(instances) && old(instances)[h.hash] in old(live);
        && (found ==> r == Ok(Some(old(instances)[h.hash])) && instances == old(instances) && postInits == old(postInits)
                      && nextInstance == old(nextInstance))
        && (!found ==> r == Ok(Some(old(nextInstance))) && instances == old(instances)[h.hash := old(nextInstance)]
                       && postInits == old(postInits) + [old(nextInstance)] && nextInstance == old(nextInstance) + 1)
        && live == old(live) + (if !found && h.alive then {old(nextInstance)} else {})
    {
      match obj
      case MetaInstance(instance) =>
        return Ok(Some(instance));
      case MetaAccepted(handle) =>
        var instance := GetInstance(handle);
        if instance.Some? {
          return Ok(instance);
        }
        var created := nextInstance;
        nextInstance := nextInstance + 1;
        if handle.alive {
          live := live + {created};
        }
        postInits := postInits + [created];
        instances := instances[handle.hash := created];
        return Ok(Some(created));
      case MetaHashCode(code) =>
        return Ok(if code in instances then Some(instances[code]) else None);
      case MetaUnsupported =>
        return Err(TypeError);
    }
  }
}
