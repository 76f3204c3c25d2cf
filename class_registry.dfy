// `AbstractFactory` (abstract/abstractfactory.py) and `Singleton`
// (abstract/singleton.py): the class map built from the classes found in the
// packages, and the per-class-name instance store.
module ClassRegistry {
  import opened Wrappers

  /** A registry key: an api type constant or a name (a class name, a plugin type name). */
  datatype Key = ApiKey(apiType: int) | NameKey(name: string)

  /** The value of a class's key attribute: missing, a single key, or a tuple/list of keys. */
  datatype KeyAttr = NoKey | OneKey(key: Key) | ManyKeys(keys: seq<Key>)

  /** A class found in the packages (classes are identified by number) with its key attribute. */
  datatype Found = Found(cls: nat, attr: KeyAttr)

  /** The attribute `classAttr` reads by default. */
  const DefaultClassAttr: string := "__name__"

  /** The keys a class contributes. */
  function KeysOf(attr: KeyAttr): seq<Key>
  {
    match attr
    case NoKey => []
    case OneKey(k) => [k]
    case ManyKeys(ks) => ks
  }

  /** `[(k, cls) for k in keys]`. */
  function PairsOf(keys: seq<Key>, cls: nat): (r: seq<(Key, nat)>)
    ensures |r| == |keys|
    ensures forall i :: 0 <= i < |r| ==> r[i] == (keys[i], cls)
  {
    if keys == [] then [] else [(keys[0], cls)] + PairsOf(keys[1..], cls)
  }

  /** `iterClasses`: the (key, class) pairs in package order, one per key of every class that has the key attribute. */
  function IterClasses(items: seq<Found>): seq<(Key, nat)>
  {
    if items == [] then [] else PairsOf(KeysOf(items[0].attr), items[0].cls) + IterClasses(items[1..])
  }

  lemma {:induction false} IterClassesMembers(items: seq<Found>, k: Key, c: nat)
    ensures (k, c) in IterClasses(items) <==>
      exists i :: 0 <= i < |items| && items[i].cls == c && k in KeysOf(items[i].attr)
  {
    if items != [] {
      IterClassesMembers(items[1..], k, c);
      var head := PairsOf(KeysOf(items[0].attr), items[0].cls);
      assert (k, c) in head <==> items[0].cls == c && k in KeysOf(items[0].attr) by {
        if (k, c) in head {
          var j :| 0 <= j < |head| && head[j] == (k, c);
        }
        if items[0].cls == c && k in KeysOf(items[0].attr) {
          var j :| 0 <= j < |KeysOf(items[0].attr)| && KeysOf(items[0].attr)[j] == k;
          assert head[j] == (k, c);
        }
      }
      if exists i :: 0 <= i < |items| && items[i].cls == c && k in KeysOf(items[i].attr) {
        var i :| 0 <= i < |items| && items[i].cls == c && k in KeysOf(items[i].attr);
        if i > 0 { assert items[1..][i - 1] == items[i]; }
      }
      if exists i :: 0 <= i < |items| - 1 && items[1..][i].cls == c && k in KeysOf(items[1..][i].attr) {
        var i :| 0 <= i < |items| - 1 && items[1..][i].cls == c && k in KeysOf(items[1..][i].attr);
        assert items[i + 1] == items[1..][i];
      }
    }
  }

  /** A class with no key attribute contributes nothing; one with a tuple or list key contributes every item. */
  lemma IterClassesKeys(items: seq<Found>, c: nat)
    requires forall i :: 0 <= i < |items| ==> items[i].cls == c ==> items[i].attr.NoKey?
    ensures forall k :: (k, c) !in IterClasses(items)
  {
    forall k ensures (k, c) !in IterClasses(items) {
      IterClassesMembers(items, k, c);
    }
  }

  /** `{x: y for (x, y) in pairs}`: the later pair wins for a repeated key. */
  function ClassMap(pairs: seq<(Key, nat)>): (r: map<Key, nat>)
    ensures forall k :: k in r <==> exists i :: 0 <= i < |pairs| && pairs[i].0 == k
  {
    if pairs == [] then map[]
    else
      var last := pairs[|pairs| - 1];
      var rest := ClassMap(pairs[..|pairs| - 1]);
      assert forall i :: 0 <= i < |pairs| - 1 ==> pairs[..|pairs| - 1][i] == pairs[i];
      rest[last.0 := last.1]
  }

  /** The class stored under a key is the one of the last pair with that key. */
  lemma {:induction false} ClassMapLastWins(pairs: seq<(Key, nat)>, i: nat)
    requires i < |pairs|
    requires forall j :: i < j < |pairs| ==> pairs[j].0 != pairs[i].0
    ensures ClassMap(pairs)[pairs[i].0] == pairs[i].1
  {
    if i < |pairs| - 1 {
      var prefix := pairs[..|pairs| - 1];
      assert prefix[i] == pairs[i];
      assert forall j :: i < j < |prefix| ==> prefix[j] == pairs[j];
      ClassMapLastWins(prefix, i);
    }
  }

  /** `getClass(key)`: the registered class, or None for an unknown key. */
  function GetClass(classes: map<Key, nat>, key: Key): (r: Option<nat>)
    ensures r.None? <==> key !in classes
    ensures r.Some? ==> r.value == classes[key]
  {
    if key in classes then Some(classes[key]) else None
  }

  /** A key no found class carries is unknown to the built map. */
  lemma GetClassUnknown(items: seq<Found>, key: Key)
    requires forall i :: 0 <= i < |items| ==> key !in KeysOf(items[i].attr)
    ensures GetClass(ClassMap(IterClasses(items)), key) == None
  {
    var pairs := IterClasses(items);
    forall j | 0 <= j < |pairs| ensures pairs[j].0 != key {
      PairKeyFound(items, j);
    }
  }

  /** Every pair's key is a key of some found class. */
  lemma {:induction false} PairKeyFound(items: seq<Found>, j: nat)
    requires j < |IterClasses(items)|
    ensures exists i :: 0 <= i < |items| && IterClasses(items)[j].0 in KeysOf(items[i].attr)
  {
    var p := IterClasses(items)[j];
    assert p in IterClasses(items);
    IterClassesMembers(items, p.0, p.1);
  }

  /**
   * `Singleton.__instances__`: one instance per class `__name__`, shared by
   * every class of that name. Instances are identified by number.
   */
  class SingletonStore {
    var instances: map<string, nat>
    var nextObject: nat

    constructor ()
      ensures instances == map[] && nextObject == 0
    {
      instances := map[];
      nextObject := 0;
    }

    /** `hasInstance`. */
    predicate HasInstance(className: string)
      reads this
    {
      className in instances
    }

    /** Every stored instance was handed out before the counter's value. */
    ghost predicate Valid()
      reads this
    {
      forall n :: n in instances ==> instances[n] < nextObject
    }

    /** `__new__`: creates and stores an instance only when the class name has none. */
    method New(className: string) returns (obj: nat)
      requires Valid()
      modifies this
      ensures Valid() && HasInstance(className) && instances[className] == obj
      ensures old(HasInstance(className)) ==> obj == old(instances[className]) && instances == old(instances) && nextObject == old(nextObject)
      ensures !old(HasInstance(className)) ==>
        obj == old(nextObject) && instances == old(instances)[className := obj] && nextObject == old(nextObject) + 1
    {
      if !HasInstance(className) {
        instances := instances[className := nextObject];
        nextObject := nextObject + 1;
      }
      obj := instances[className];
    }

    /** `getInstance`: `creator()` (which constructs the class, so goes through `__new__`) only when none exists. */
    method GetInstance(className: string) returns (obj: nat)
      requires Valid()
      modifies this
      ensures Valid() && HasInstance(className) && instances[className] == obj
      ensures old(HasInstance(className)) ==> obj == old(instances[className]) && instances == old(instances) && nextObject == old(nextObject)
      ensures !old(HasInstance(className)) ==>
        obj == old(nextObject) && instances == old(instances)[className := obj] && nextObject == old(nextObject) + 1
    {
      if className in instances {
        return instances[className];
      }
      obj := New(className);
      instances := instances[className := obj];
    }
  }
}
