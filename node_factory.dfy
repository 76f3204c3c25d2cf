// Class selection of the scene factories (mpyscene.py `MPyScene`, mpyfactory.py
// `MPyFactory`): which python class wraps a dependency node, with the
// `__classes__` and `__extensions__` caches both factories keep.
module NodeFactory {
  import opened Wrappers
  import opened ClassRegistry

  /** What the factory reads from a dependency node. */
  datatype NodeInfo = NodeInfo(
    apiType: int,
    typeName: string,
    /** `isPlugin`: the node's plugin path exists. */
    fromPlugin: bool,
    /** `isExtension`: the node has `__class__` and `__module__` attributes. */
    extensionAttrs: bool,
    /** The values of those two string attributes. */
    className: string,
    modulePath: string)

  /** An argument of `createExtensionClass`: a class, or something that is not one. */
  datatype ClassArg = IsClass(cls: nat) | NotAClass

  /**
   * The memo key of `createExtensionClass`: the two class names joined by a
   * '+', which for a '+'-free mixin name is the key's first '+'.
   */
  function FullTypeName(mixinName: string, extensionName: string): (r: string)
    ensures |r| == |mixinName| + 1 + |extensionName|
    ensures '+' !in mixinName ==> '+' in r && FirstPlus(r) == |mixinName|
    ensures '+' !in mixinName ==> r[..FirstPlus(r)] == mixinName && r[FirstPlus(r) + 1..] == extensionName
  {
    if '+' !in mixinName then
      FirstPlusAfter(mixinName, extensionName);
      mixinName + "+" + extensionName
    else mixinName + "+" + extensionName
  }

  /** The position of the first '+' in a string that has one. */
  function FirstPlus(s: string): (i: nat)
    requires '+' in s
    ensures i < |s| && s[i] == '+'
  {
    if s[0] == '+' then 0 else
      assert s == [s[0]] + s[1..];
      1 + FirstPlus(s[1..])
  }

  lemma {:induction false} FirstPlusAfter(a: string, b: string)
    requires '+' !in a
    ensures '+' in a + "+" + b && FirstPlus(a + "+" + b) == |a|
  {
    var s := a + "+" + b;
    assert s[|a|] == '+';
    if a != [] {
      assert s[0] == a[0];
      assert s[1..] == a[1..] + "+" + b;
      FirstPlusAfter(a[1..], b);
    }
  }

  /** Two mixin names without '+' give the same memo key only for the same pair of names. */
  lemma FullTypeNameInjective(a: string, b: string, c: string, d: string)
    requires '+' !in a && '+' !in c
    requires FullTypeName(a, b) == FullTypeName(c, d)
    ensures a == c && b == d
  {
    var s := FullTypeName(a, b);
    FirstPlusAfter(a, b);
    FirstPlusAfter(c, d);
    assert |a| == |c|;
    assert a == s[..|a|] && c == s[..|c|];
    assert b == s[|a| + 1..] && d == s[|c| + 1..];
  }

  predicate NoDupKeys(ks: seq<Key>)
  {
    forall i, j :: 0 <= i < j < |ks| ==> ks[i] != ks[j]
  }

  /** The keys of `{x: y for (x, y) in pairs}` in insertion order: the first occurrence of each key. */
  function KeyOrder(pairs: seq<(Key, nat)>): (r: seq<Key>)
    ensures NoDupKeys(r)
    ensures forall k :: k in r <==> exists i :: 0 <= i < |pairs| && pairs[i].0 == k
  {
    if pairs == [] then []
    else
      var rest := KeyOrder(pairs[..|pairs| - 1]);
      var last := pairs[|pairs| - 1];
      assert forall i :: 0 <= i < |pairs| - 1 ==> pairs[..|pairs| - 1][i] == pairs[i];
      if last.0 in rest then rest else rest + [last.0]
  }

  /** `__classes__.values()`, in key insertion order. */
  function ValuesInOrder(keys: seq<Key>, classes: map<Key, nat>): (r: seq<nat>)
    requires forall k :: k in keys ==> k in classes
    ensures |r| == |keys|
    ensures forall i :: 0 <= i < |keys| ==> r[i] == classes[keys[i]]
  {
    if keys == [] then [] else [classes[keys[0]]] + ValuesInOrder(keys[1..], classes)
  }

  /** `[x for x in xs if x.isCompatible(node) and not hasattr(x, '__plugin__')]`. */
  function Candidates(xs: seq<nat>, node: NodeInfo, compatible: (nat, NodeInfo) -> bool, isPluginClass: nat -> bool): (r: seq<nat>)
    ensures forall x :: x in r <==> x in xs && compatible(x, node) && !isPluginClass(x)
    ensures |r| <= |xs|
  {
    if xs == [] then []
    else
      var head := xs[0];
      assert xs == [head] + xs[1..];
      (if compatible(head, node) && !isPluginClass(head) then [head] else []) + Candidates(xs[1..], node, compatible, isPluginClass)
  }

  /** `depths.index(max(depths))`: the first class of maximal inheritance depth. */
  function FirstDeepest(xs: seq<nat>, depth: nat -> nat): (i: nat)
    requires xs != []
    ensures i < |xs|
    ensures forall j :: 0 <= j < |xs| ==> depth(xs[j]) <= depth(xs[i])
    ensures forall j :: 0 <= j < i ==> depth(xs[j]) < depth(xs[i])
  {
    if |xs| == 1 then 0
    else
      var k := FirstDeepest(xs[1..], depth);
      assert forall j :: 1 <= j < |xs| ==> xs[j] == xs[1..][j - 1];
      if depth(xs[0]) >= depth(xs[k + 1]) then 0 else k + 1
  }

  /** What `getMixin` returns for a given class map. */
  function MixinChoice(keys: seq<Key>, classes: map<Key, nat>, node: NodeInfo,
                       compatible: (nat, NodeInfo) -> bool, isPluginClass: nat -> bool, depth: nat -> nat): (r: Result<nat>)
    requires forall k :: k in keys ==> k in classes
    ensures ApiKey(node.apiType) in classes ==> r == Ok(classes[ApiKey(node.apiType)])
    ensures r.Err? ==> r.error == TypeError && ApiKey(node.apiType) !in classes
  {
    if ApiKey(node.apiType) in classes then Ok(classes[ApiKey(node.apiType)])
    else
      var candidates := Candidates(ValuesInOrder(keys, classes), node, compatible, isPluginClass);
      if |candidates| == 0 then Err(TypeError)
      else if |candidates| == 1 then Ok(candidates[0])
      else Ok(candidates[FirstDeepest(candidates, depth)])
  }

  /**
   * `getMixin` without a cached api type: TypeError exactly when no
   * compatible non-plugin class exists; otherwise a compatible non-plugin
   * class of the map, of maximal depth, and the first of that depth.
   */
  lemma MixinChoiceSelects(keys: seq<Key>, classes: map<Key, nat>, node: NodeInfo,
                           compatible: (nat, NodeInfo) -> bool, isPluginClass: nat -> bool, depth: nat -> nat)
    requires forall k :: k in keys ==> k in classes
    requires ApiKey(node.apiType) !in classes
    ensures var r := MixinChoice(keys, classes, node, compatible, isPluginClass, depth);
      var candidates := Candidates(ValuesInOrder(keys, classes), node, compatible, isPluginClass);
      && (r.Err? <==> forall k :: k in keys ==> !(compatible(classes[k], node) && !isPluginClass(classes[k])))
      && (r.Err? ==> r.error == TypeError)
      && (r.Ok? ==> exists k :: k in keys && classes[k] == r.value)
      && (r.Ok? ==> compatible(r.value, node) && !isPluginClass(r.value))
      && (r.Ok? ==> forall c :: c in candidates ==> depth(c) <= depth(r.value))
      && (r.Ok? ==> exists i :: 0 <= i < |candidates| && candidates[i] == r.value
                       && forall j :: 0 <= j < i ==> depth(candidates[j]) < depth(r.value))
  {
    var values := ValuesInOrder(keys, classes);
    var candidates := Candidates(values, node, compatible, isPluginClass);
    var r := MixinChoice(keys, classes, node, compatible, isPluginClass, depth);
    var i := if |candidates| == 0 then 0 else if |candidates| == 1 then 0 else FirstDeepest(candidates, depth);
    if |candidates| > 0 {
      assert r.value == candidates[i];
      assert candidates[i] in candidates;
      var p :| 0 <= p < |values| && values[p] == r.value;
      assert keys[p] in keys && classes[keys[p]] == r.value;
      assert compatible(classes[keys[p]], node) && !isPluginClass(classes[keys[p]]);
    } else {
      forall k | k in keys ensures !(compatible(classes[k], node) && !isPluginClass(classes[k])) {
        var p :| 0 <= p < |keys| && keys[p] == k;
        assert values[p] == classes[k];
      }
    }
  }

  /** `getPlugin`'s answer: the registered plugin class for the type name, or `getMixin`'s. */
  function PluginChoice(plugins: map<Key, nat>, keys: seq<Key>, classes: map<Key, nat>, node: NodeInfo,
                        compatible: (nat, NodeInfo) -> bool, isPluginClass: nat -> bool, depth: nat -> nat): (r: Result<nat>)
    requires forall k :: k in keys ==> k in classes
    ensures NameKey(node.typeName) in plugins ==> r == Ok(plugins[NameKey(node.typeName)])
    ensures NameKey(node.typeName) !in plugins ==> r == MixinChoice(keys, classes, node, compatible, isPluginClass, depth)
  {
    match GetClass(plugins, NameKey(node.typeName))
    case Some(cls) => Ok(cls)
    case None => MixinChoice(keys, classes, node, compatible, isPluginClass, depth)
  }

  /**
   * The state both factories keep. Classes are identified by number; the
   * reflection the factories use (`isCompatible`, `hasattr(cls, '__plugin__')`,
   * `inheritanceDepth`, `__name__`, `importutils.findClass`) is given.
   */
  class Factory {
    /** The keys of `__classes__` in insertion order. */
    var keys: seq<Key>
    var classes: map<Key, nat>
    var plugins: map<Key, nat>
    var extensions: map<string, nat>
    /** The number the next class made by `type(...)` gets. */
    var nextClass: nat

    const compatible: (nat, NodeInfo) -> bool
    const isPluginClass: nat -> bool
    const depth: nat -> nat
    const className: nat -> string
    const findClass: (string, string) -> nat

    ghost predicate Valid()
      reads this
    {
      NoDupKeys(keys) && forall k :: k in classes <==> k in keys
    }

    /** Construction and `__init__`: the class map from the found classes and the plugin map from the plugin packages. */
    constructor (classPairs: seq<(Key, nat)>, pluginPairs: seq<(Key, nat)>,
                 compatible: (nat, NodeInfo) -> bool, isPluginClass: nat -> bool, depth: nat -> nat,
                 className: nat -> string, findClass: (string, string) -> nat, firstClass: nat)
      ensures Valid()
      ensures classes == ClassMap(classPairs) && keys == KeyOrder(classPairs)
      ensures plugins == ClassMap(pluginPairs) && extensions == map[] && nextClass == firstClass
      ensures this.compatible == compatible && this.isPluginClass == isPluginClass && this.depth == depth
      ensures this.className == className && this.findClass == findClass
    {
      keys := KeyOrder(classPairs);
      classes := ClassMap(classPairs);
      plugins := ClassMap(pluginPairs);
      extensions := map[];
      nextClass := firstClass;
      this.compatible := compatible;
      this.isPluginClass := isPluginClass;
      this.depth := depth;
      this.className := className;
      this.findClass := findClass;
    }

    /**
     * `MPyFactory.__init__` on the singleton: the class map is rebuilt, and
     * the plugin and extension caches are filled only when no instance
     * exists yet. (`MPyScene.__init__` always fills them: `hasInstance` false.)
     */
    method Initialise(hasInstance: bool, classPairs: seq<(Key, nat)>, pluginPairs: seq<(Key, nat)>)
      modifies this
      ensures Valid()
      ensures classes == ClassMap(classPairs) && keys == KeyOrder(classPairs)
      ensures hasInstance ==> plugins == old(plugins) && extensions == old(extensions)
      ensures !hasInstance ==> plugins == ClassMap(pluginPairs) && extensions == map[]
      ensures nextClass == old(nextClass)
    {
      if !hasInstance {
        plugins := ClassMap(pluginPairs);
        extensions := map[];
      }
      keys := KeyOrder(classPairs);
      classes := ClassMap(classPairs);
    }

    /**
     * `getMixin`: answers from the cache for a known api type; otherwise
     * chooses among the compatible non-plugin classes and, on success, caches
     * the choice under the api type (a new key, so it goes last).
     */
    method GetMixin(node: NodeInfo) returns (r: Result<nat>)
      requires Valid()
      modifies this
      ensures Valid()
      ensures r == MixinChoice(old(keys), old(classes), node, compatible, isPluginClass, depth)
      ensures r.Ok? ==> ApiKey(node.apiType) in classes && classes[ApiKey(node.apiType)] == r.value
      ensures r.Err? || ApiKey(node.apiType) in old(classes) ==> keys == old(keys) && classes == old(classes)
      ensures r.Ok? && ApiKey(node.apiType) !in old(classes) ==>
        keys == old(keys) + [ApiKey(node.apiType)] && classes == old(classes)[ApiKey(node.apiType) := r.value]
      ensures plugins == old(plugins) && extensions == old(extensions) && nextClass == old(nextClass)
    {
      var apiType := ApiKey(node.apiType);
      var cached := GetClass(classes, apiType);
      if cached.Some? {
        return Ok(cached.value);
      }
      var candidates := Candidates(ValuesInOrder(keys, classes), node, compatible, isPluginClass);
      var cls: nat;
      if |candidates| == 0 {
        return Err(TypeError);
      } else if |candidates| == 1 {
        cls := candidates[0];
      } else {
        cls := candidates[FirstDeepest(candidates, depth)];
      }
      keys := keys + [apiType];
      classes := classes[apiType := cls];
      r := Ok(cls);
    }

    /**
     * `createExtensionClass`: TypeError unless both arguments are classes;
     * otherwise the class memoised under `'<mixin>+<extension>'`, made and
     * stored on first use.
     */
    method CreateExtensionClass(mixinClass: ClassArg, extensionClass: ClassArg) returns (r: Result<nat>)
      modifies this
      ensures mixinClass.NotAClass? || extensionClass.NotAClass? ==>
        r == Err(TypeError) && extensions == old(extensions) && nextClass == old(nextClass)
      ensures mixinClass.IsClass? && extensionClass.IsClass? ==>
        var fullTypeName := FullTypeName(className(mixinClass.cls), className(extensionClass.cls));
        && r.Ok? && fullTypeName in extensions && extensions[fullTypeName] == r.value
        && (fullTypeName in old(extensions) ==> r.value == old(extensions)[fullTypeName] && extensions == old(extensions) && nextClass == old(nextClass))
        && (fullTypeName !in old(extensions) ==> r.value == old(nextClass) && extensions == old(extensions)[fullTypeName := r.value] && nextClass == old(nextClass) + 1)
      ensures keys == old(keys) && classes == old(classes) && plugins == old(plugins)
    {
      if mixinClass.NotAClass? || extensionClass.NotAClass? {
        return Err(TypeError);
      }
      var fullTypeName := FullTypeName(className(mixinClass.cls), className(extensionClass.cls));
      if fullTypeName !in extensions {
        extensions := extensions[fullTypeName := nextClass];
        nextClass := nextClass + 1;
      }
      r := Ok(extensions[fullTypeName]);
    }

    /** `getPlugin`: the registered plugin class for the node's type name, else `getMixin`. */
    method GetPlugin(node: NodeInfo) returns (r: Result<nat>)
      requires Valid()
      modifies this
      ensures Valid()
      ensures r == PluginChoice(plugins, old(keys), old(classes), node, compatible, isPluginClass, depth)
      ensures r.Ok? && NameKey(node.typeName) !in plugins ==> ApiKey(node.apiType) in classes && classes[ApiKey(node.apiType)] == r.value
      ensures NameKey(node.typeName) in plugins || r.Err? || ApiKey(node.apiType) in old(classes) ==> keys == old(keys) && classes == old(classes)
      ensures r.Ok? && NameKey(node.typeName) !in plugins && ApiKey(node.apiType) !in old(classes) ==>
        keys == old(keys) + [ApiKey(node.apiType)] && classes == old(classes)[ApiKey(node.apiType) := r.value]
      ensures plugins == old(plugins) && extensions == old(extensions) && nextClass == old(nextClass)
    {
      var cls := GetClass(plugins, NameKey(node.typeName));
      if cls.Some? {
        return Ok(cls.value);
      }
      r := GetMixin(node);
    }

    /**
     * `getExtensionMixin`: TypeError without the extension attributes or with
     * an empty class name or module path; otherwise the plugin (or mixin)
     * class combined with the named extension class.
     */
    method GetExtensionMixin(node: NodeInfo) returns (r: Result<nat>)
      requires Valid()
      modifies this
      ensures Valid()
      ensures !node.extensionAttrs || node.className == "" || node.modulePath == "" ==>
        r == Err(TypeError) && keys == old(keys) && classes == old(classes) && extensions == old(extensions)
      ensures node.extensionAttrs && node.className != "" && node.modulePath != "" ==>
        var mixin := PluginChoice(plugins, old(keys), old(classes), node, compatible, isPluginClass, depth);
        && (mixin.Err? ==> r == mixin && extensions == old(extensions))
        && (mixin.Ok? ==>
              var fullTypeName := FullTypeName(className(mixin.value), className(findClass(node.className, node.modulePath)));
              && r.Ok? && fullTypeName in extensions && extensions[fullTypeName] == r.value
              && (fullTypeName in old(extensions) ==> r.value == old(extensions)[fullTypeName]))
      ensures plugins == old(plugins)
    {
      if !node.extensionAttrs {
        return Err(TypeError);
      }
      if node.className == "" || node.modulePath == "" {
        return Err(TypeError);
      }
      var extensionClass := findClass(node.className, node.modulePath);
      var mixinClass := GetPlugin(node);
      if mixinClass.Err? {
        return mixinClass;
      }
      r := CreateExtensionClass(IsClass(mixinClass.value), IsClass(extensionClass));
    }

    /** `getClass`: plugin first, then extension, then mixin. */
    method GetClassOf(node: NodeInfo) returns (r: Result<nat>)
      requires Valid()
      modifies this
      ensures Valid()
      ensures node.fromPlugin ==> r == PluginChoice(plugins, old(keys), old(classes), node, compatible, isPluginClass, depth)
      ensures !node.fromPlugin && !node.extensionAttrs ==> r == MixinChoice(old(keys), old(classes), node, compatible, isPluginClass, depth)
      ensures !node.fromPlugin && node.extensionAttrs && (node.className == "" || node.modulePath == "") ==> r == Err(TypeError)
      ensures !node.fromPlugin && node.extensionAttrs && node.className != "" && node.modulePath != "" ==>
        var mixin := PluginChoice(plugins, old(keys), old(classes), node, compatible, isPluginClass, depth);
        && (mixin.Err? ==> r == mixin)
        && (mixin.Ok? ==> r.Ok? && FullTypeName(className(mixin.value), className(findClass(node.className, node.modulePath))) in extensions
                            && extensions[FullTypeName(className(mixin.value), className(findClass(node.className, node.modulePath)))] == r.value)
      ensures r.Ok? && (if node.fromPlugin then NameKey(node.typeName) !in plugins else !node.extensionAttrs) ==>
        ApiKey(node.apiType) in classes && classes[ApiKey(node.apiType)] == r.value
      ensures plugins == old(plugins)
    {
      if node.fromPlugin {
        r := GetPlugin(node);
      } else if node.extensionAttrs {
        r := GetExtensionMixin(node);
      } else {
        r := GetMixin(node);
      }
    }
  }
}
