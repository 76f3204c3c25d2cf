// nodetypes `DependencyMixin`: `removeAttr`, `getAttr` / `setAttr` dispatch on
// the argument's type, and plug aliases (`setAlias`, `removeAlias`,
// `removePlugAlias`).
module NodeAttributes {
  import opened Wrappers

  /** The argument of `removeAttr`: an attribute name, an MObject (which may not be an attribute), or anything else. */
  datatype AttrArg = AttrName(name: string) | AttrObject(name: string, isAttribute: bool) | OtherAttrArg

  /** The argument of `getAttr` / `setAttr`: an MPlug, a plug path, an attribute MObject, or anything else. */
  datatype PlugArg = PlugValue(plug: string) | PlugPath(path: string) | PlugObject(attribute: string) | OtherPlugArg

  /**
   * The plug an argument names: a path is looked up with `findPlug`, and an
   * attribute MObject becomes the plug of that attribute on this node.
   */
  function PlugOf(arg: PlugArg): (r: Option<string>)
    ensures r.None? <==> arg.OtherPlugArg?
  {
    match arg
    case PlugValue(p) => Some(p)
    case PlugPath(p) => Some(p)
    case PlugObject(a) => Some(a)
    case OtherPlugArg => None
  }

  class AttributeNode<V> {
    /** The node's attributes by name. */
    var attributes: set<string>
    /** Each plug's value. */
    var values: map<string, V>
    /** Each aliased plug's alias; `getAliases` is this map inverted. */
    var aliasOf: map<string, string>

    /** No alias is empty and no two plugs share one, so `getAliases` is a well-defined map. */
    ghost predicate Valid()
      reads this
    {
      && (forall p :: p in aliasOf ==> aliasOf[p] != "")
      && (forall p, q :: p in aliasOf && q in aliasOf && p != q ==> aliasOf[p] != aliasOf[q])
    }

    constructor (attributes: set<string>, values: map<string, V>)
      ensures Valid() && this.attributes == attributes && this.values == values && aliasOf == map[]
    {
      this.attributes := attributes;
      this.values := values;
      aliasOf := map[];
    }

    /**
     * `removeAttr`: a name the node lacks, and an MObject that is not an
     * attribute, change nothing; a present name is removed through its
     * attribute object; any other argument raises TypeError.
     */
    method RemoveAttr(arg: AttrArg) returns (s: Status)
      modifies this
      decreases if arg.AttrName? then 1 else 0
      ensures values == old(values) && aliasOf == old(aliasOf)
      ensures s.Raised? <==> arg.OtherAttrArg?
      ensures s.Raised? ==> s.error == TypeError
      ensures arg.AttrName? && arg.name !in old(attributes) ==> attributes == old(attributes)
      ensures arg.AttrName? && arg.name in old(attributes) ==> attributes == old(attributes) - {arg.name}
      ensures arg.AttrObject? && !arg.isAttribute ==> attributes == old(attributes)
      ensures arg.AttrObject? && arg.isAttribute ==> attributes == old(attributes) - {arg.name}
      ensures arg.OtherAttrArg? ==> attributes == old(attributes)
    {
      match arg {
        case AttrName(name) =>
          if name in attributes {
            s := RemoveAttr(AttrObject(name, true));
          } else {
            s := Done;
          }
        case AttrObject(name, isAttribute) =>
          if isAttribute {
            attributes := attributes - {name};
          }
          s := Done;
        case OtherAttrArg =>
          s := Raised(TypeError);
      }
    }

    /** `getAttr`: the named plug's value; TypeError for an unsupported argument. */
    function GetAttr(arg: PlugArg): (r: Result<V>)
      reads this
      requires PlugOf(arg).Some? ==> PlugOf(arg).value in values
      decreases if arg.PlugValue? then 0 else 1
      ensures r.Err? <==> PlugOf(arg).None?
      ensures r.Err? ==> r.error == TypeError
      ensures r.Ok? ==> r.value == values[PlugOf(arg).value]
    {
      match arg
      case PlugValue(p) => Ok(values[p])
      case PlugPath(p) => GetAttr(PlugValue(p))
      case PlugObject(a) => GetAttr(PlugValue(a))
      case OtherPlugArg => Err(TypeError)
    }

    /** `setAttr`: writes the named plug, after which `getAttr` reads the value back; TypeError for an unsupported argument. */
    method SetAttr(arg: PlugArg, value: V) returns (s: Status)
      modifies this
      ensures attributes == old(attributes) && aliasOf == old(aliasOf)
      ensures s.Raised? <==> PlugOf(arg).None?
      ensures s.Raised? ==> s.error == TypeError && values == old(values)
      ensures s.Done? ==> values == old(values)[PlugOf(arg).value := value] && GetAttr(arg) == Ok(value)
    {
      var plug := PlugOf(arg);
      if plug.None? {
        return Raised(TypeError);
      }
      values := values[plug.value := value];
      s := Done;
    }

    /** `plugsAlias`: the plug's alias, or '' when it has none. */
    function PlugsAlias(plug: string): (r: string)
      reads this
      ensures r == "" <==> plug !in aliasOf || aliasOf[plug] == ""
      ensures plug in aliasOf ==> r == aliasOf[plug]
    {
      if plug in aliasOf then aliasOf[plug] else ""
    }

    /** The plug `getAliases()` maps the alias to, if any. */
    predicate InUse(alias: string)
      reads this
    {
      exists p :: p in aliasOf && aliasOf[p] == alias
    }

    /**
     * `removePlugAlias`: False when the plug has no alias; otherwise the
     * alias is removed (assumed to succeed) and True returned.
     */
    method RemovePlugAlias(plug: string) returns (removed: bool)
      requires Valid()
      modifies this
      ensures Valid() && attributes == old(attributes) && values == old(values)
      ensures removed <==> old(PlugsAlias(plug)) != ""
      ensures !removed ==> aliasOf == old(aliasOf)
      ensures removed ==> aliasOf == old(aliasOf) - {plug} && !InUse(old(PlugsAlias(plug)))
    {
      var alias := PlugsAlias(plug);
      if |alias| > 0 {
        aliasOf := aliasOf - {plug};
        return true;
      }
      return false;
    }

    /**
     * `removeAlias`: None for '' with nothing changed; False for an alias
     * not in use; otherwise the alias is removed from the plug that has it.
     */
    method RemoveAlias(alias: string) returns (r: Option<bool>)
      requires Valid()
      modifies this
      ensures Valid() && attributes == old(attributes) && values == old(values)
      ensures alias == "" ==> r.None? && aliasOf == old(aliasOf)
      ensures alias != "" && !old(InUse(alias)) ==> r == Some(false) && aliasOf == old(aliasOf)
      ensures alias != "" && old(InUse(alias)) ==>
        && r == Some(true)
        && !InUse(alias)
        && exists p :: p in old(aliasOf) && old(aliasOf)[p] == alias && aliasOf == old(aliasOf) - {p}
    {
      if |alias| == 0 {
        return None;
      }
      if !InUse(alias) {
        return Some(false);
      }
      var plug :| plug in aliasOf && aliasOf[plug] == alias;
      var removed := RemovePlugAlias(plug);
      r := Some(removed);
    }

    /**
     * `setAlias(alias, plug, replace)`: with `replace` the plug's current
     * alias is removed first; then the host adds the new alias, which it is
     * taken to accept exactly when the alias is non-empty and held by no
     * other plug.
     */
    method SetAlias(alias: string, plug: string, replace: bool) returns (ok: bool)
      requires Valid()
      modifies this
      ensures Valid() && attributes == old(attributes) && values == old(values)
      ensures ok <==> alias != "" && forall p :: p in old(aliasOf) && p != plug ==> old(aliasOf)[p] != alias
      ensures ok ==> PlugsAlias(plug) == alias && aliasOf == old(aliasOf)[plug := alias]
      ensures !ok && replace ==> PlugsAlias(plug) == "" && aliasOf == old(aliasOf) - {plug}
      ensures !ok && !replace ==> aliasOf == old(aliasOf)
    {
      if replace {
        var current := PlugsAlias(plug);
        var _ := RemoveAlias(current);
        assert aliasOf == old(aliasOf) - {plug};
      }
      assert forall p :: p != plug ==> (p in aliasOf <==> p in old(aliasOf)) && (p in aliasOf ==> aliasOf[p] == old(aliasOf)[p]);
      if alias != "" && forall p :: p in aliasOf && p != plug ==> aliasOf[p] != alias {
        aliasOf := aliasOf[plug := alias];
        return true;
      }
      return false;
    }
  }
}
