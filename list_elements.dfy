// `ListMixin` and `ListElement` (plugins/listmixin.py): the elements of a
// position/rotation/scale list node, inserted by shifting later elements up
// one slot at a time.
module ListElements {
  import opened Wrappers

  /**
   * One `list[i]` element: name, absolute flag, weight, value, and for each
   * child of the value plug the plug connected into it (None: no connection).
   */
  datatype Element = Element(name: string, absolute: bool, weight: int, value: seq<int>, inputs: seq<Option<nat>>)

  /**
   * What element copies depend on besides the slots: the `active` index, the
   * source of a plug outside the list, and the values of an element that has
   * not been written yet.
   */
  datatype Context = Context(active: int, upstream: nat -> Option<nat>, default: Element)

  /** The element at slot `j`, or the default one for a missing slot. */
  function Get(slots: map<nat, Element>, ctx: Context, j: nat): Element
  {
    if j in slots then slots[j] else ctx.default
  }

  /** `isActive`: the list's active index is this element's index. */
  predicate IsActive(ctx: Context, j: nat)
  {
    ctx.active == j
  }

  function Upstream(inputs: seq<Option<nat>>, upstream: nat -> Option<nat>): (r: seq<Option<nat>>)
    ensures |r| == |inputs|
    ensures forall c :: 0 <= c < |inputs| ==> r[c] == (if inputs[c].Some? then upstream(inputs[c].value) else None)
  {
    if inputs == [] then []
    else [if inputs[0].Some? then upstream(inputs[0].value) else None] + Upstream(inputs[1..], upstream)
  }

  /**
   * `source()`: the plugs connected into the value's children; for the
   * active element, the plugs connected into those in turn.
   */
  function SourceOf(slots: map<nat, Element>, ctx: Context, j: nat): seq<Option<nat>>
  {
    var inputs := Get(slots, ctx, j).inputs;
    if IsActive(ctx, j) then Upstream(inputs, ctx.upstream) else inputs
  }

  /**
   * The inputs after `setSource(source)`: nothing changes for an empty
   * source; otherwise child `c` is connected to `source[c]` when that is a
   * plug and disconnected when it is null. Children past the source keep
   * their inputs; source entries past the last child are never reached here
   * (the value plugs have as many children as a source has entries).
   */
  function SetSourceInputs(inputs: seq<Option<nat>>, source: seq<Option<nat>>): (r: seq<Option<nat>>)
    ensures |r| == |inputs| || (source == [] && r == inputs)
    ensures forall c :: 0 <= c < |source| && c < |inputs| ==> r[c] == source[c]
    ensures forall c :: |source| <= c < |inputs| ==> r[c] == inputs[c]
  {
    if source == [] then inputs
    else if |source| >= |inputs| then source[..|inputs|]
    else source + inputs[|source|..]
  }

  /** The element `moveElement(from, to)` writes into slot `to`: every field of `from`, and its sources. */
  function Moved(slots: map<nat, Element>, ctx: Context, from: nat, to: nat): Element
  {
    var src := Get(slots, ctx, from);
    Element(src.name, src.absolute, src.weight, src.value,
            SetSourceInputs(Get(slots, ctx, to).inputs, SourceOf(slots, ctx, from)))
  }

  /** Every element present, and the default one, has one input per value child. */
  predicate Uniform(slots: map<nat, Element>, ctx: Context, childCount: nat)
  {
    && |ctx.default.inputs| == childCount
    && forall j :: j in slots ==> |slots[j].inputs| == childCount
  }

  function MoveSlot(slots: map<nat, Element>, ctx: Context, from: nat, to: nat): map<nat, Element>
  {
    slots[to := Moved(slots, ctx, from, to)]
  }

  lemma MoveSlotUniform(slots: map<nat, Element>, ctx: Context, childCount: nat, from: nat, to: nat)
    requires Uniform(slots, ctx, childCount)
    ensures Uniform(MoveSlot(slots, ctx, from, to), ctx, childCount)
  {
  }

  /** The moves `insertElement` makes for slots `lo..hi-1`, from the highest down. */
  function ShiftDown(slots: map<nat, Element>, ctx: Context, lo: nat, hi: nat): map<nat, Element>
    decreases hi
  {
    if hi <= lo then slots
    else ShiftDown(MoveSlot(slots, ctx, hi - 1, hi), ctx, lo, hi - 1)
  }

  /** A move reads only its two slots. */
  lemma MovedLocal(s: map<nat, Element>, t: map<nat, Element>, ctx: Context, from: nat, to: nat)
    requires (from in s <==> from in t) && (from in s ==> s[from] == t[from])
    requires (to in s <==> to in t) && (to in s ==> s[to] == t[to])
    ensures Moved(s, ctx, from, to) == Moved(t, ctx, from, to)
  {
    assert Get(s, ctx, from) == Get(t, ctx, from);
    assert Get(s, ctx, to) == Get(t, ctx, to);
  }

  /**
   * Moving from the highest slot down means every slot is read before it is
   * overwritten: slot `m` for `lo < m <= hi` ends up holding the copy of the
   * ORIGINAL slot `m - 1`, and every other slot is as it was (slot `lo`
   * included: a move leaves its source in place).
   */
  lemma {:induction false} ShiftDownSpec(s: map<nat, Element>, ctx: Context, lo: nat, hi: nat)
    ensures var r := ShiftDown(s, ctx, lo, hi);
      && (forall m :: lo < m <= hi ==> m in r && r[m] == Moved(s, ctx, m - 1, m))
      && (forall m :: !(lo < m <= hi) ==> (m in r <==> m in s))
      && (forall m :: !(lo < m <= hi) && m in s ==> r[m] == s[m])
    decreases hi
  {
    if hi > lo {
      var s' := MoveSlot(s, ctx, hi - 1, hi);
      ShiftDownSpec(s', ctx, lo, hi - 1);
      ShiftDownStep(s, s', ShiftDown(s', ctx, lo, hi - 1), ctx, lo, hi);
    }
  }

  /** The step of `ShiftDownSpec`: the top move first, then the moves below it. */
  lemma ShiftDownStep(s: map<nat, Element>, s': map<nat, Element>, r: map<nat, Element>, ctx: Context, lo: nat, hi: nat)
    requires lo < hi && s' == MoveSlot(s, ctx, hi - 1, hi)
    requires forall m :: lo < m <= hi - 1 ==> m in r && r[m] == Moved(s', ctx, m - 1, m)
    requires forall m :: !(lo < m <= hi - 1) ==> (m in r <==> m in s')
    requires forall m :: !(lo < m <= hi - 1) && m in s' ==> r[m] == s'[m]
    ensures forall m :: lo < m <= hi ==> m in r && r[m] == Moved(s, ctx, m - 1, m)
    ensures forall m :: !(lo < m <= hi) ==> (m in r <==> m in s)
    ensures forall m :: !(lo < m <= hi) && m in s ==> r[m] == s[m]
  {
    forall m | lo < m < hi ensures m in r && r[m] == Moved(s, ctx, m - 1, m) {
      MovedLocal(s', s, ctx, m - 1, m);
    }
    assert hi in r && r[hi] == s'[hi];
    forall m | !(lo < m <= hi) ensures (m in r <==> m in s) && (m in s ==> r[m] == s[m]) {
      assert !(lo < m <= hi - 1) && m != hi;
    }
  }

  /** The slots `0..n-1` are exactly the elements present. */
  ghost predicate Dense(slots: map<nat, Element>, n: nat)
  {
    forall j :: j in slots <==> j < n
  }

  /** The list node. */
  class ListNode {
    var slots: map<nat, Element>
    var active: int
    const upstream: nat -> Option<nat>
    const default: Element
    /** The number of children of each value plug. */
    const childCount: nat

    ghost predicate Valid()
      reads this
    {
      Uniform(slots, Ctx(), childCount)
    }

    function Ctx(): Context
      reads this
    {
      Context(active, upstream, default)
    }

    constructor (slots: map<nat, Element>, active: int, upstream: nat -> Option<nat>, default: Element, childCount: nat)
      requires Uniform(slots, Context(active, upstream, default), childCount)
      ensures Valid()
      ensures this.slots == slots && this.active == active && this.upstream == upstream
      ensures this.default == default && this.childCount == childCount
    {
      this.slots := slots;
      this.active := active;
      this.upstream := upstream;
      this.default := default;
      this.childCount := childCount;
    }

    /** `numElements`. */
    function NumElements(): nat
      reads this
    {
      |slots|
    }

    /** `setSource` on element `j`: a null or empty source changes nothing. */
    method SetSource(j: nat, source: Option<seq<Option<nat>>>)
      requires Valid()
      requires source.Some? ==> |source.value| <= childCount
      modifies this
      ensures Valid() && active == old(active)
      ensures source.None? || source.value == [] ==> slots == old(slots)
      ensures source.Some? && source.value != [] ==>
        var e := Get(old(slots), old(Ctx()), j);
        slots == old(slots)[j := e.(inputs := SetSourceInputs(e.inputs, source.value))]
    {
      if source.None? || source.value == [] {
        return;
      }
      var e := Get(slots, Ctx(), j);
      var inputs := e.inputs;
      var i := 0;
      while i < |source.value|
        invariant i <= |source.value| && |inputs| == childCount
        invariant forall c :: 0 <= c < i ==> inputs[c] == source.value[c]
        invariant forall c :: i <= c < childCount ==> inputs[c] == e.inputs[c]
      {
        var otherChild := source.value[i];
        if otherChild.Some? {
          inputs := inputs[i := otherChild];
        } else {
          inputs := inputs[i := None];
        }
        i := i + 1;
      }
      assert inputs == SetSourceInputs(e.inputs, source.value);
      slots := slots[j := e.(inputs := inputs)];
    }

    /** `moveElement(oldIndex, newIndex)`: a copy of every field and of the sources. */
    method MoveElement(oldIndex: nat, newIndex: nat)
      requires Valid()
      modifies this
      ensures Valid() && active == old(active)
      ensures slots == MoveSlot(old(slots), old(Ctx()), oldIndex, newIndex)
    {
      MoveSlotUniform(slots, Ctx(), childCount, oldIndex, newIndex);
      slots := MoveSlot(slots, Ctx(), oldIndex, newIndex);
    }

    /**
     * `insertElement(index, name, absolute, weight, value, source)`: the
     * elements from `index` to the last are moved up one slot, highest
     * first, and slot `index` then gets the supplied fields and source.
     */
    method InsertElement(index: nat, name: string, absolute: bool, weight: int, value: seq<int>,
                         source: Option<seq<Option<nat>>>) returns (element: nat)
      requires Valid()
      requires source.Some? ==> |source.value| <= childCount
      modifies this
      ensures Valid() && element == index && active == old(active)
      ensures var shifted := ShiftDown(old(slots), old(Ctx()), index, old(|slots|));
        var e := Get(shifted, old(Ctx()), index);
        var inputs := if source.None? || source.value == [] then e.inputs else SetSourceInputs(e.inputs, source.value);
        slots == shifted[index := Element(name, absolute, weight, value, inputs)]
    {
      ghost var original := slots;
      var numElements := NumElements();
      var k: nat := numElements;
      while k > index
        invariant Valid() && active == old(active)
        invariant ShiftDown(original, Ctx(), index, numElements) == ShiftDown(slots, Ctx(), index, k)
      {
        k := k - 1;
        ghost var before := slots;
        MoveElement(k, k + 1);
        assert ShiftDown(before, Ctx(), index, k + 1) == ShiftDown(slots, Ctx(), index, k);
      }
      assert slots == ShiftDown(original, old(Ctx()), index, old(|slots|));
      var e := Get(slots, Ctx(), index);
      slots := slots[index := Element(name, absolute, weight, value, e.inputs)];
      SetSource(index, source);
      element := index;
    }
  }

  /**
   * On a list with elements `0..n-1`, inserting at `index <= n` leaves the
   * elements below `index`, moves each element from `index` on up one slot
   * (fields and sources copied), and gives `n + 1` elements.
   */
  lemma InsertShifts(s: map<nat, Element>, ctx: Context, n: nat, index: nat)
    requires Dense(s, n) && index <= n
    ensures var r := ShiftDown(s, ctx, index, n);
      && Dense(r[index := ctx.default], n + 1)
      && (forall j :: j < index ==> j in r && j in s && r[j] == s[j])
      && (forall j :: index < j <= n ==> j in r && r[j] == Moved(s, ctx, j - 1, j))
      && (forall j :: index < j <= n ==>
            (j in r && j - 1 in s
             && r[j].name == s[j - 1].name && r[j].value == s[j - 1].value
             && r[j].weight == s[j - 1].weight && r[j].absolute == s[j - 1].absolute))
  {
    ShiftDownSpec(s, ctx, index, n);
    ShiftDownDense(s, ctx, index, n);
    var r := ShiftDown(s, ctx, index, n);
    forall j | index < j <= n
      ensures j in r && j - 1 in s
      ensures r[j].name == s[j - 1].name && r[j].value == s[j - 1].value
      ensures r[j].weight == s[j - 1].weight && r[j].absolute == s[j - 1].absolute
    {
      MovedFields(s, ctx, j - 1, j);
    }
  }

  /** A move from a present slot copies that slot's name, value, weight and absolute flag. */
  lemma MovedFields(s: map<nat, Element>, ctx: Context, from: nat, to: nat)
    requires from in s
    ensures var e := Moved(s, ctx, from, to);
      e.name == s[from].name && e.value == s[from].value && e.weight == s[from].weight && e.absolute == s[from].absolute
  {
    assert Get(s, ctx, from) == s[from];
  }

  /** Shifting `index..n-1` up one on a list of `n` elements and filling `index` gives `n + 1` elements. */
  lemma ShiftDownDense(s: map<nat, Element>, ctx: Context, index: nat, n: nat)
    requires Dense(s, n) && index <= n
    ensures Dense(ShiftDown(s, ctx, index, n)[index := ctx.default], n + 1)
  {
    ShiftDownSpec(s, ctx, index, n);
    var r := ShiftDown(s, ctx, index, n);
    var d := r[index := ctx.default];
    forall j ensures j in d <==> j < n + 1 {
      if j == index {
      } else if index < j <= n {
      } else {
        assert j in r <==> j in s;
      }
    }
  }

  /** Inserting at or past the number of elements moves nothing. */
  lemma InsertAtEndShiftsNothing(s: map<nat, Element>, ctx: Context, index: nat)
    requires index >= |s|
    ensures ShiftDown(s, ctx, index, |s|) == s
  {
  }

  /** `moveElement` is a copy: the slot moved from keeps its element, and the target gets all its fields. */
  lemma MoveIsCopy(s: map<nat, Element>, ctx: Context, childCount: nat, from: nat, to: nat)
    requires Uniform(s, ctx, childCount) && from != to
    ensures var r := MoveSlot(s, ctx, from, to);
      && (from in r <==> from in s) && (from in s ==> r[from] == s[from])
      && r[to].name == Get(s, ctx, from).name && r[to].absolute == Get(s, ctx, from).absolute
      && r[to].weight == Get(s, ctx, from).weight && r[to].value == Get(s, ctx, from).value
      && r[to].inputs == SourceOf(s, ctx, from) + Get(s, ctx, to).inputs[|SourceOf(s, ctx, from)|..]
      && (forall j :: j != to ==> (j in r <==> j in s) && (j in s ==> r[j] == s[j]))
  {
    var src := SourceOf(s, ctx, from);
    if src == [] {
      assert Get(s, ctx, to).inputs[0..] == Get(s, ctx, to).inputs;
    }
  }
}
