// `MPyAttribute` (mpyattribute.py): a descriptor over a node's plug with
// optional getter, setter, deleter and change hooks.
module Attribute {
  import opened Wrappers

  /** The `instance` a descriptor method receives. */
  datatype Instance =
    | NoInstance
    | Node(id: nat)
    /** Something that is not an MPyNode. */
    | NotANode

  /** What `__get__` gives back: the descriptor itself, or a value. */
  datatype Got<V> = Descriptor | Value(v: V)

  /** The observable calls, in order: hooks invoked and plug writes. */
  datatype Event<V> =
    | SetterCalled(instance: Instance, v: V)
    | DeleterCalled(instance: Instance)
    | ChangeCalled(instance: Instance, got: Got<V>)
    | PlugWritten(node: nat, v: V)
    | PlugReset(node: nat)

  /** What a decorator is given. */
  datatype Hook<F> = Callable(f: F) | NotCallable

  class MPyAttribute<V> {
    const name: string
    /** The plug's default, restored by `resetValue`. */
    const defaultValue: V
    var fget: Option<(nat, V) -> V>
    var fset: Option<(Instance, V) -> V>
    /** `fdel` is only ever called; its effect is the `DeleterCalled` event. */
    var fdel: bool
    var fchange: bool
    /** The plug value on each node; a node without an entry holds the default. */
    var plugs: map<nat, V>
    var log: seq<Event<V>>

    constructor (name: string, defaultValue: V, fget: Option<(nat, V) -> V>, fset: Option<(Instance, V) -> V>, fdel: bool)
      ensures this.name == name && this.defaultValue == defaultValue
      ensures this.fget == fget && this.fset == fset && this.fdel == fdel && !fchange
      ensures plugs == map[] && log == []
    {
      this.name := name;
      this.defaultValue := defaultValue;
      this.fget := fget;
      this.fset := fset;
      this.fdel := fdel;
      fchange := false;
      plugs := map[];
      log := [];
    }

    function PlugValue(node: nat): V
      reads this
    {
      if node in plugs then plugs[node] else defaultValue
    }

    /**
     * `__get__`: the descriptor without an instance; TypeError from `plug`
     * for a non-node; otherwise the plug value, passed through `fget` when
     * there is one.
     */
    function Get(instance: Instance): (r: Result<Got<V>>)
      reads this
      ensures instance.NoInstance? ==> r == Ok(Descriptor)
      ensures instance.NotANode? ==> r == Err(TypeError)
      ensures instance.Node? && fget.None? ==> r == Ok(Value(PlugValue(instance.id)))
      ensures instance.Node? && fget.Some? ==> r == Ok(Value(fget.value(instance.id, PlugValue(instance.id))))
    {
      match instance
      case NoInstance => Ok(Descriptor)
      case NotANode => Err(TypeError)
      case Node(id) =>
        var raw := PlugValue(id);
        Ok(Value(if fget.Some? then fget.value(id, raw) else raw))
    }

    /**
     * `__set__`: nothing without an instance. Otherwise `fset` (when
     * present) rewrites the value, the plug is written, and `fchange` then
     * receives the written value. For a non-node `plug` raises TypeError
     * after the setter has run.
     */
    method Set(instance: Instance, value: V) returns (s: Status)
      modifies this
      ensures instance.NoInstance? ==> s == Done && plugs == old(plugs) && log == old(log)
      ensures var written := if old(fset).Some? then old(fset).value(instance, value) else value;
        var setter: seq<Event<V>> := if old(fset).Some? then [SetterCalled(instance, value)] else [];
        && (instance.NotANode? ==> s == Raised(TypeError) && plugs == old(plugs) && log == old(log) + setter)
        && (instance.Node? ==>
              && s == Done
              && plugs == old(plugs)[instance.id := written]
              && log == old(log) + setter + [PlugWritten(instance.id, written)]
                 + (if old(fchange) then [ChangeCalled(instance, Value(written))] else [])
              && Get(instance) == Ok(Value(if fget.Some? then fget.value(instance.id, written) else written)))
      ensures fget == old(fget) && fset == old(fset) && fdel == old(fdel) && fchange == old(fchange)
    {
      if instance.NoInstance? {
        return Done;
      }
      var written := value;
      if fset.Some? {
        written := fset.value(instance, value);
        log := log + [SetterCalled(instance, value)];
      }
      if instance.NotANode? {
        return Raised(TypeError);
      }
      plugs := plugs[instance.id := written];
      log := log + [PlugWritten(instance.id, written)];
      if fchange {
        log := log + [ChangeCalled(instance, Value(written))];
      }
      s := Done;
    }

    /**
     * `__delete__`: nothing without an instance; otherwise `fdel` (when
     * present) runs first and the plug is then reset to its default.
     */
    method Delete(instance: Instance) returns (s: Status)
      modifies this
      ensures instance.NoInstance? ==> s == Done && plugs == old(plugs) && log == old(log)
      ensures var deleter: seq<Event<V>> := if old(fdel) then [DeleterCalled(instance)] else [];
        && (instance.NotANode? ==> s == Raised(TypeError) && plugs == old(plugs) && log == old(log) + deleter)
        && (instance.Node? ==>
              && s == Done && plugs == old(plugs) - {instance.id}
              && log == old(log) + deleter + [PlugReset(instance.id)]
              && PlugValue(instance.id) == defaultValue)
      ensures fget == old(fget) && fset == old(fset) && fdel == old(fdel) && fchange == old(fchange)
    {
      if instance.NoInstance? {
        return Done;
      }
      if fdel {
        log := log + [DeleterCalled(instance)];
      }
      if instance.NotANode? {
        return Raised(TypeError);
      }
      plugs := plugs - {instance.id};
      log := log + [PlugReset(instance.id)];
      s := Done;
    }

    /** `validateAndGetValue`: installs a callable getter; always returns the descriptor. */
    method ValidateAndGetValue(func: Hook<(nat, V) -> V>) returns (r: MPyAttribute<V>)
      modifies this
      ensures r == this
      ensures fget == (if func.Callable? then Some(func.f) else old(fget))
      ensures fset == old(fset) && fdel == old(fdel) && fchange == old(fchange)
      ensures plugs == old(plugs) && log == old(log)
    {
      if func.Callable? {
        fget := Some(func.f);
      }
      r := this;
    }

    /** `validateAndSetValue`. */
    method ValidateAndSetValue(func: Hook<(Instance, V) -> V>) returns (r: MPyAttribute<V>)
      modifies this
      ensures r == this
      ensures fset == (if func.Callable? then Some(func.f) else old(fset))
      ensures fget == old(fget) && fdel == old(fdel) && fchange == old(fchange)
      ensures plugs == old(plugs) && log == old(log)
    {
      if func.Callable? {
        fset := Some(func.f);
      }
      r := this;
    }

    /** `validateAndResetValue`. */
    method ValidateAndResetValue(func: Hook<()>) returns (r: MPyAttribute<V>)
      modifies this
      ensures r == this
      ensures fdel == (func.Callable? || old(fdel))
      ensures fget == old(fget) && fset == old(fset) && fchange == old(fchange)
      ensures plugs == old(plugs) && log == old(log)
    {
      if func.Callable? {
        fdel := true;
      }
      r := this;
    }

    /** `changed`. */
    method Changed(func: Hook<()>) returns (r: MPyAttribute<V>)
      modifies this
      ensures r == this
      ensures fchange == (func.Callable? || old(fchange))
      ensures fget == old(fget) && fset == old(fset) && fdel == old(fdel)
      ensures plugs == old(plugs) && log == old(log)
    {
      if func.Callable? {
        fchange := true;
      }
      r := this;
    }

    /**
     * `notify`: `fchange` receives what `__get__` gives for the instance;
     * no plug is written. A non-node raises TypeError from `plug` and
     * nothing is called.
     */
    method Notify(instance: Instance) returns (s: Status)
      modifies this
      ensures plugs == old(plugs)
      ensures !old(fchange) ==> s == Done && log == old(log)
      ensures old(fchange) && old(Get(instance)).Err? ==> s == Raised(TypeError) && log == old(log)
      ensures old(fchange) && old(Get(instance)).Ok? ==>
        s == Done && log == old(log) + [ChangeCalled(instance, old(Get(instance)).value)]
      ensures fget == old(fget) && fset == old(fset) && fdel == old(fdel) && fchange == old(fchange)
    {
      if !fchange {
        return Done;
      }
      var got := Get(instance);
      if got.Err? {
        return Raised(got.error);
      }
      log := log + [ChangeCalled(instance, got.value)];
      s := Done;
    }
  }
}
