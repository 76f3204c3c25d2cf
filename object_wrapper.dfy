// `MObjectWrapper` (abstract/mobjectwrapper.py): equality against names and
// objects, one-time initialisation, and the class-wide function-set cache.
module ObjectWrapper {
  import opened Wrappers

  /** `str.lower` on ASCII letters. */
  function LowerChar(c: char): char
  {
    if 'A' <= c <= 'Z' then (c as int + 32) as char else c
  }

  function Lower(s: string): (r: string)
    ensures |r| == |s| && forall i :: 0 <= i < |s| ==> r[i] == LowerChar(s[i])
  {
    if s == [] then [] else [LowerChar(s[0])] + Lower(s[1..])
  }

  predicate EndsWith(s: string, suffix: string)
  {
    |suffix| <= |s| && s[|s| - |suffix|..] == suffix
  }

  /** What a wrapper is compared with. Objects are identified by number. */
  datatype Other =
    | Name(s: string)
    | MObject(obj: nat)
    | MDagPath(node: nat)
    /** A wrapper whose class is this wrapper's class or a subclass of it. */
    | RelatedWrapper(obj: nat)
    | Unrelated

  /** `__eq__` of a wrapper around object `obj` named `name`. */
  function Eq(obj: nat, name: string, other: Other): bool
  {
    match other
    case Name(s) => EndsWith(Lower(name), Lower(s))
    case MObject(o) => obj == o
    case MDagPath(node) => obj == node
    case RelatedWrapper(o) => obj == o
    case Unrelated => false
  }

  /** `__ne__`, written branch by branch like the source: the exact negation of `__eq__`, so an unsupported value is unequal. */
  function Ne(obj: nat, name: string, other: Other): (r: bool)
    ensures r == !Eq(obj, name, other)
    ensures other.Unrelated? ==> r
  {
    match other
    case Name(s) => !EndsWith(Lower(name), Lower(s))
    case MObject(o) => obj != o
    case MDagPath(node) => obj != node
    case RelatedWrapper(o) => obj != o
    case Unrelated => true
  }

  /** Lower-casing is idempotent. */
  lemma {:induction false} LowerIdempotent(s: string)
    ensures Lower(Lower(s)) == Lower(s)
  {
    if s != [] {
      LowerIdempotent(s[1..]);
    }
  }

  /**
   * A name matches exactly when, ignoring ASCII case, the node name ends with
   * it: the match is the same whichever case either side is written in.
   */
  lemma NameMatchIgnoresCase(obj: nat, name: string, s: string)
    ensures Eq(obj, name, Name(s)) <==> EndsWith(Lower(name), Lower(s))
    ensures Eq(obj, name, Name(Lower(s))) == Eq(obj, name, Name(s))
    ensures Eq(obj, Lower(name), Name(s)) == Eq(obj, name, Name(s))
    ensures Eq(obj, name, Name(name))
  {
    LowerIdempotent(s);
    LowerIdempotent(name);
    var l := Lower(name);
    assert l[|l| - |l|..] == l;
  }

  /** The last index of maximal MRO length: the last element after a stable sort by that length. */
  function LastLongest(xs: seq<nat>, mroLength: nat -> nat): (i: nat)
    requires xs != []
    ensures i < |xs|
    ensures forall j :: 0 <= j < |xs| ==> mroLength(xs[j]) <= mroLength(xs[i])
    ensures forall j :: i < j < |xs| ==> mroLength(xs[j]) < mroLength(xs[i])
  {
    if |xs| == 1 then 0
    else
      var k := LastLongest(xs[..|xs| - 1], mroLength);
      assert forall j :: 0 <= j < |xs| - 1 ==> xs[..|xs| - 1][j] == xs[j];
      if mroLength(xs[|xs| - 1]) >= mroLength(xs[k]) then |xs| - 1 else k
  }

  /** `MObjectWrapper.__functionsets__`: api type to function set, shared by every wrapper class. */
  class FunctionSetCache {
    var sets: map<int, nat>
    /** `len(inspect.getmro(fnSet))`. */
    const mroLength: nat -> nat

    constructor (mroLength: nat -> nat)
      ensures sets == map[] && this.mroLength == mroLength
    {
      sets := map[];
      this.mroLength := mroLength;
    }

    /**
     * `findCompatibleFunctionSet`: the cached set for a known api type;
     * otherwise the compatible set of maximal MRO length (the last of them in
     * iteration order), cached; IndexError when no set is compatible.
     * `compatibleSets` are the function sets whose `hasObj` accepts the node.
     */
    method Find(apiType: int, compatibleSets: seq<nat>) returns (r: Result<nat>)
      modifies this
      ensures apiType in old(sets) ==> r == Ok(old(sets)[apiType]) && sets == old(sets)
      ensures apiType !in old(sets) && compatibleSets == [] ==> r == Err(IndexError) && sets == old(sets)
      ensures apiType !in old(sets) && compatibleSets != [] ==>
        && r.Ok? && r.value in compatibleSets
        && (forall x :: x in compatibleSets ==> mroLength(x) <= mroLength(r.value))
        && r.value == compatibleSets[LastLongest(compatibleSets, mroLength)]
        && sets == old(sets)[apiType := r.value]
    {
      if apiType in sets {
        return Ok(sets[apiType]);
      }
      if compatibleSets == [] {
        return Err(IndexError);
      }
      var best := compatibleSets[LastLongest(compatibleSets, mroLength)];
      sets := sets[apiType := best];
      r := Ok(sets[apiType]);
    }
  }

  /** The per-instance fields `__handle__` and `__functionset__`; a missing `__handle__` means not yet initialised. */
  class Wrapped {
    var handle: Option<nat>
    var functionSet: Option<nat>

    constructor ()
      ensures handle.None? && functionSet.None?
    {
      handle := None;
      functionSet := None;
    }

    /** `isInitialized`. */
    predicate IsInitialized()
      reads this
    {
      handle.Some?
    }

    /**
     * `__init__`: nothing on an initialised instance; otherwise the handle is
     * stored and then the function set looked up. When that lookup fails the
     * handle stays set and the error propagates.
     */
    method Init(obj: nat, apiType: int, compatibleSets: seq<nat>, cache: FunctionSetCache) returns (s: Status)
      modifies this, cache
      ensures old(IsInitialized()) ==>
        s == Done && handle == old(handle) && functionSet == old(functionSet) && cache.sets == old(cache.sets)
      ensures !old(IsInitialized()) ==> handle == Some(obj)
      ensures !old(IsInitialized()) && (apiType in old(cache.sets) || compatibleSets != []) ==>
        s == Done && functionSet.Some? && apiType in cache.sets && functionSet.value == cache.sets[apiType]
      ensures !old(IsInitialized()) && apiType !in old(cache.sets) && compatibleSets == [] ==>
        s == Raised(IndexError) && functionSet == old(functionSet) && cache.sets == old(cache.sets)
    {
      if IsInitialized() {
        return Done;
      }
      handle := Some(obj);
      var found := cache.Find(apiType, compatibleSets);
      if found.Err? {
        return Raised(found.error);
      }
      functionSet := Some(found.value);
      s := Done;
    }
  }
}
