// Key operations of `AnimCurveMixin` (builtins/animcurvemixin.py) over
// integer frames: range filtering and removal, baking infinity cycles,
// mirroring and the clear-or-delete decision.
module AnimCurve {
  import opened Wrappers

  /** A keyframe: its time, its value and the y components of its tangents. */
  datatype Key = Key(time: int, value: int, inTangentY: int, outTangentY: int)

  predicate InRange(t: int, startTime: int, endTime: int)
  {
    startTime <= t <= endTime
  }

  /** The keys at times `startTime <= time <= endTime`, in order. */
  function KeysWithin(keys: seq<Key>, startTime: int, endTime: int): (r: seq<Key>)
    ensures |r| <= |keys|
    ensures forall k :: k in r <==> k in keys && InRange(k.time, startTime, endTime)
  {
    if keys == [] then []
    else
      (if InRange(keys[0].time, startTime, endTime) then [keys[0]] else []) + KeysWithin(keys[1..], startTime, endTime)
  }

  /** The keys outside the range, in order. */
  function KeysOutside(keys: seq<Key>, startTime: int, endTime: int): (r: seq<Key>)
    ensures |r| <= |keys|
    ensures forall k :: k in r <==> k in keys && !InRange(k.time, startTime, endTime)
  {
    if keys == [] then []
    else
      (if InRange(keys[0].time, startTime, endTime) then [] else [keys[0]]) + KeysOutside(keys[1..], startTime, endTime)
  }

  /** `getKeys`: every key without a range (None or empty), the keys within an inclusive range otherwise. */
  function GetKeys(keys: seq<Key>, animationRange: Option<(int, int)>): seq<Key>
  {
    if animationRange.None? then keys else KeysWithin(keys, animationRange.value.0, animationRange.value.1)
  }

  predicate TimesIncreasing(keys: seq<Key>)
  {
    forall i, j :: 0 <= i < j < |keys| ==> keys[i].time < keys[j].time
  }

  /** The filter keeps exactly the keys in range, and keeps increasing times increasing. */
  lemma {:induction false} KeysWithinSpec(keys: seq<Key>, startTime: int, endTime: int)
    ensures forall k :: k in KeysWithin(keys, startTime, endTime) <==> k in keys && InRange(k.time, startTime, endTime)
    ensures TimesIncreasing(keys) ==> TimesIncreasing(KeysWithin(keys, startTime, endTime))
  {
    if keys != [] {
      KeysWithinSpec(keys[1..], startTime, endTime);
      assert keys == [keys[0]] + keys[1..];
      var rest := KeysWithin(keys[1..], startTime, endTime);
      if TimesIncreasing(keys) {
        TailIncreasing(keys);
        PrependIncreasing(keys[0], rest);
      }
    }
  }

  /** The keys after the first of an increasing sequence are increasing, and all later than the first. */
  lemma TailIncreasing(keys: seq<Key>)
    requires TimesIncreasing(keys) && keys != []
    ensures TimesIncreasing(keys[1..])
    ensures forall k :: k in keys[1..] ==> keys[0].time < k.time
  {
    forall i, j | 0 <= i < j < |keys| - 1 ensures keys[1..][i].time < keys[1..][j].time {
      assert keys[1..][i] == keys[i + 1] && keys[1..][j] == keys[j + 1];
    }
    forall k | k in keys[1..] ensures keys[0].time < k.time {
      var j :| 0 <= j < |keys| - 1 && keys[1..][j] == k;
      assert keys[j + 1] == k;
    }
  }

  /** A key earlier than every key of an increasing sequence can be put in front of it. */
  lemma PrependIncreasing(first: Key, rest: seq<Key>)
    requires TimesIncreasing(rest) && forall k :: k in rest ==> first.time < k.time
    ensures TimesIncreasing([first] + rest)
  {
    var ks := [first] + rest;
    forall i, j | 0 <= i < j < |ks| ensures ks[i].time < ks[j].time {
      assert ks[j] == rest[j - 1];
      if i > 0 {
        assert ks[i] == rest[i - 1];
      } else {
        assert rest[j - 1] in rest;
      }
    }
  }

  lemma {:induction false} GetKeysSpec(keys: seq<Key>, animationRange: Option<(int, int)>)
    ensures animationRange.None? ==> GetKeys(keys, animationRange) == keys
    ensures animationRange.Some? ==> forall k :: k in GetKeys(keys, animationRange) <==>
      k in keys && InRange(k.time, animationRange.value.0, animationRange.value.1)
    ensures TimesIncreasing(keys) ==> TimesIncreasing(GetKeys(keys, animationRange))
  {
    if animationRange.Some? {
      KeysWithinSpec(keys, animationRange.value.0, animationRange.value.1);
    }
  }

  lemma {:induction false} OutsideSplit(a: seq<Key>, b: seq<Key>, startTime: int, endTime: int)
    ensures KeysOutside(a + b, startTime, endTime) == KeysOutside(a, startTime, endTime) + KeysOutside(b, startTime, endTime)
  {
    if a == [] {
      assert a + b == b;
    } else {
      assert (a + b)[0] == a[0];
      assert (a + b)[1..] == a[1..] + b;
      OutsideSplit(a[1..], b, startTime, endTime);
    }
  }

  lemma OutsideAllOut(a: seq<Key>, startTime: int, endTime: int)
    requires forall i :: 0 <= i < |a| ==> !InRange(a[i].time, startTime, endTime)
    ensures KeysOutside(a, startTime, endTime) == a
  {
    if a != [] {
      OutsideAllOut(a[1..], startTime, endTime);
    }
  }

  /** The positions of the keys in range, ascending. */
  function IndicesWithin(keys: seq<Key>, startTime: int, endTime: int, from: nat): (r: seq<nat>)
    requires from <= |keys|
    ensures forall k :: 0 <= k < |r| ==> from <= r[k] < |keys| && InRange(keys[r[k]].time, startTime, endTime)
    ensures forall k, l :: 0 <= k < l < |r| ==> r[k] < r[l]
    ensures forall i :: from <= i < |keys| && InRange(keys[i].time, startTime, endTime) ==> i in r
    decreases |keys| - from
  {
    if from == |keys| then []
    else
      var rest := IndicesWithin(keys, startTime, endTime, from + 1);
      if InRange(keys[from].time, startTime, endTime) then [from] + rest else rest
  }

  /** Python's `math.floor(a / d)`; Dafny's `/` rounds down only for a positive divisor. */
  function FloorDiv(a: int, d: int): (q: int)
    requires d != 0
    ensures d > 0 ==> q * d <= a < q * d + d
    ensures d < 0 ==> q * d >= a > q * d + d
  {
    if d > 0 then a / d else (-a) / (-d)
  }

  function Abs(x: int): (r: nat)
    ensures r == x || r == -x
  {
    if x < 0 then -x else x
  }

  /**
   * The quantities `getInfinityKeys` fixes before baking: the first baked
   * frame, the first input, the input span, the last key index, the last
   * cycle, `alignEndTangents`, whether values are copied (the post-infinity
   * type is cycle) and the curve's evaluation at a frame.
   */
  datatype Bake = Bake(startBake: int, startInput: int, d: int, lastIndex: nat, lastCycle: nat,
                       align: bool, copyValues: bool, evaluate: int -> int)

  /** The seam rule: a cycle after the first drops its first key, or a cycle before the last drops its last key. */
  predicate Skipped(b: Bake, i: nat, cycle: nat)
  {
    (i == 0 && !b.align && cycle > 0) || (i == b.lastIndex && b.align && cycle < b.lastCycle)
  }

  function BakeTime(b: Bake, t: int, cycle: nat): int
  {
    b.startBake + (t - b.startInput) + cycle * b.d
  }

  /** A copy of `k` moved into `cycle`, with its value copied or re-evaluated at the new frame. */
  function BakedKey(b: Bake, k: Key, cycle: nat): Key
  {
    var time := BakeTime(b, k.time, cycle);
    Key(time, if b.copyValues then k.value else b.evaluate(time), k.inTangentY, k.outTangentY)
  }

  /** The baked keys of one cycle from the first `upTo` keys. */
  function CycleKeys(b: Bake, keys: seq<Key>, cycle: nat, upTo: nat): seq<Key>
    requires upTo <= |keys|
  {
    if upTo == 0 then []
    else
      CycleKeys(b, keys, cycle, upTo - 1)
        + (if Skipped(b, upTo - 1, cycle) then [] else [BakedKey(b, keys[upTo - 1], cycle)])
  }

  /** The baked keys of the first `cycles` cycles. */
  function CyclesKeys(b: Bake, keys: seq<Key>, cycles: nat): seq<Key>
  {
    if cycles == 0 then [] else CyclesKeys(b, keys, cycles - 1) + CycleKeys(b, keys, cycles - 1, |keys|)
  }

  function PreCycles(keys: seq<Key>, startFrame: int): nat
    requires |keys| >= 2 && keys[|keys| - 1].time != keys[0].time
  {
    Abs(FloorDiv(startFrame - keys[0].time, keys[|keys| - 1].time - keys[0].time))
  }

  function PostCycles(keys: seq<Key>, endFrame: int): nat
    requires |keys| >= 2 && keys[|keys| - 1].time != keys[0].time
  {
    Abs(FloorDiv(keys[|keys| - 1].time - endFrame, keys[|keys| - 1].time - keys[0].time))
  }

  function CycleCount(keys: seq<Key>, startFrame: int, endFrame: int): nat
    requires |keys| >= 2 && keys[|keys| - 1].time != keys[0].time
  {
    PreCycles(keys, startFrame) + 1 + PostCycles(keys, endFrame)
  }

  function BakeFor(keys: seq<Key>, startFrame: int, endFrame: int, align: bool, copyValues: bool, evaluate: int -> int): Bake
    requires |keys| >= 2 && keys[|keys| - 1].time != keys[0].time
  {
    var d := keys[|keys| - 1].time - keys[0].time;
    Bake(keys[0].time - PreCycles(keys, startFrame) * d, keys[0].time, d, |keys| - 1,
         CycleCount(keys, startFrame, endFrame) - 1, align, copyValues, evaluate)
  }

  /**
   * `getInfinityKeys((startFrame, endFrame), alignEndTangents)` on the keys
   * of a curve: fewer than two keys come back as they are; a zero input
   * span divides by zero; otherwise every cycle's baked keys in order.
   */
  function InfinityKeys(keys: seq<Key>, startFrame: int, endFrame: int, align: bool, copyValues: bool,
                        evaluate: int -> int): Result<seq<Key>>
  {
    if |keys| < 2 then Ok(keys)
    else if keys[|keys| - 1].time == keys[0].time then Err(ZeroDivisionError)
    else
      Ok(CyclesKeys(BakeFor(keys, startFrame, endFrame, align, copyValues, evaluate), keys,
                    CycleCount(keys, startFrame, endFrame)))
  }

  /** Within a cycle only the seam keys can be skipped: the first key after the first cycle, the last before the last. */
  lemma {:induction false} CycleKeysLength(b: Bake, keys: seq<Key>, cycle: nat, upTo: nat)
    requires upTo <= |keys| && b.lastIndex == |keys| - 1 >= 1
    ensures |CycleKeys(b, keys, cycle, upTo)|
      == upTo - (if upTo > 0 && !b.align && cycle > 0 then 1 else 0)
              - (if upTo == |keys| && b.align && cycle < b.lastCycle then 1 else 0)
  {
    if upTo > 0 {
      CycleKeysLength(b, keys, cycle, upTo - 1);
    }
  }

  lemma {:induction false} CyclesKeysLengthBelow(b: Bake, keys: seq<Key>, cycles: nat)
    requires b.lastIndex == |keys| - 1 >= 1 && cycles <= b.lastCycle
    ensures |CyclesKeys(b, keys, cycles)| == cycles * (|keys| - 1) + (if !b.align && cycles > 0 then 1 else 0)
  {
    if cycles > 0 {
      CyclesKeysLengthBelow(b, keys, cycles - 1);
      CycleKeysLength(b, keys, cycles - 1, |keys|);
      assert cycles * (|keys| - 1) == (cycles - 1) * (|keys| - 1) + (|keys| - 1);
    }
  }

  /** All cycles together hold `cycles·n − (cycles − 1)` keys: one key is lost at each of the `cycles − 1` seams. */
  lemma CyclesKeysLength(b: Bake, keys: seq<Key>)
    requires b.lastIndex == |keys| - 1 >= 1
    ensures |CyclesKeys(b, keys, b.lastCycle + 1)| == (b.lastCycle + 1) * |keys| - b.lastCycle
  {
    CyclesKeysLengthBelow(b, keys, b.lastCycle);
    CycleKeysLength(b, keys, b.lastCycle, |keys|);
    assert (b.lastCycle + 1) * |keys| == b.lastCycle * (|keys| - 1) + b.lastCycle + |keys|;
  }

  lemma InfinityKeysLength(keys: seq<Key>, startFrame: int, endFrame: int, align: bool, copyValues: bool, evaluate: int -> int)
    requires |keys| >= 2 && keys[|keys| - 1].time != keys[0].time
    ensures var cycles := CycleCount(keys, startFrame, endFrame);
      && InfinityKeys(keys, startFrame, endFrame, align, copyValues, evaluate).Ok?
      && |InfinityKeys(keys, startFrame, endFrame, align, copyValues, evaluate).value| == cycles * |keys| - (cycles - 1)
  {
    CyclesKeysLength(BakeFor(keys, startFrame, endFrame, align, copyValues, evaluate), keys);
  }

  /** Appending a run whose times all exceed the first run's keeps times increasing. */
  lemma ConcatIncreasing(a: seq<Key>, c: seq<Key>)
    requires TimesIncreasing(a) && TimesIncreasing(c)
    requires forall i, j :: 0 <= i < |a| && 0 <= j < |c| ==> a[i].time < c[j].time
    ensures TimesIncreasing(a + c)
  {
    forall i, j | 0 <= i < j < |a + c| ensures (a + c)[i].time < (a + c)[j].time {
      if j < |a| {
        assert (a + c)[i] == a[i] && (a + c)[j] == a[j];
      } else if i >= |a| {
        assert (a + c)[i] == c[i - |a|] && (a + c)[j] == c[j - |a|];
      } else {
        assert (a + c)[i] == a[i] && (a + c)[j] == c[j - |a|];
      }
    }
  }

  /**
   * The first `upTo` keys of a cycle, for increasing inputs: increasing,
   * no later than the last of those inputs moved into the cycle, and no
   * earlier than the first input moved there (strictly later when the first
   * key is skipped).
   */
  lemma {:induction false} CycleKeysTimes(b: Bake, keys: seq<Key>, cycle: nat, upTo: nat)
    requires upTo <= |keys| && TimesIncreasing(keys)
    ensures var ck := CycleKeys(b, keys, cycle, upTo);
      && TimesIncreasing(ck)
      && (upTo > 0 ==> forall m :: 0 <= m < |ck| ==> ck[m].time <= BakeTime(b, keys[upTo - 1].time, cycle))
      && (upTo > 0 ==> forall m :: 0 <= m < |ck| ==> ck[m].time >= BakeTime(b, keys[0].time, cycle))
      && (upTo > 0 && !b.align && cycle > 0 ==> forall m :: 0 <= m < |ck| ==> ck[m].time > BakeTime(b, keys[0].time, cycle))
  {
    if upTo > 0 {
      var prev := CycleKeys(b, keys, cycle, upTo - 1);
      CycleKeysTimes(b, keys, cycle, upTo - 1);
      var t := BakeTime(b, keys[upTo - 1].time, cycle);
      if upTo > 1 {
        assert keys[upTo - 2].time < keys[upTo - 1].time;
        assert keys[0].time < keys[upTo - 1].time;
      }
      if !Skipped(b, upTo - 1, cycle) {
        var last := [BakedKey(b, keys[upTo - 1], cycle)];
        ConcatIncreasing(prev, last);
      }
    }
  }

  /** The frame at which baking cycle `cycle` begins. */
  function CycleStart(b: Bake, cycle: nat): int
  {
    b.startBake + cycle * b.d
  }

  /** A whole cycle lies between its start and the next cycle's start, strictly on the side of a dropped seam key. */
  lemma CycleBounds(b: Bake, keys: seq<Key>, cycle: nat)
    requires TimesIncreasing(keys) && b.lastIndex == |keys| - 1 >= 1
    requires b.startInput == keys[0].time && b.d == keys[|keys| - 1].time - keys[0].time
    ensures var ck := CycleKeys(b, keys, cycle, |keys|);
      && TimesIncreasing(ck)
      && (forall m :: 0 <= m < |ck| ==> CycleStart(b, cycle) <= ck[m].time <= CycleStart(b, cycle + 1))
      && (!b.align && cycle > 0 ==> forall m :: 0 <= m < |ck| ==> CycleStart(b, cycle) < ck[m].time)
      && (b.align && cycle < b.lastCycle ==> forall m :: 0 <= m < |ck| ==> ck[m].time < CycleStart(b, cycle + 1))
  {
    CycleKeysTimes(b, keys, cycle, |keys|);
    assert (cycle + 1) * b.d == cycle * b.d + b.d;
    assert BakeTime(b, keys[|keys| - 1].time, cycle) == CycleStart(b, cycle + 1);
    if b.align && cycle < b.lastCycle {
      CycleKeysTimes(b, keys, cycle, |keys| - 1);
      assert keys[|keys| - 2].time < keys[|keys| - 1].time;
    }
  }

  /** The first `cycles` cycles: increasing, and no later than the start of the next cycle (strictly when tangents are aligned). */
  lemma {:induction false} CyclesKeysTimes(b: Bake, keys: seq<Key>, cycles: nat)
    requires TimesIncreasing(keys) && b.lastIndex == |keys| - 1 >= 1
    requires b.startInput == keys[0].time && b.d == keys[|keys| - 1].time - keys[0].time
    requires cycles <= b.lastCycle + 1
    ensures var ks := CyclesKeys(b, keys, cycles);
      && TimesIncreasing(ks)
      && (forall m :: 0 <= m < |ks| ==> ks[m].time <= CycleStart(b, cycles))
      && (b.align && cycles <= b.lastCycle ==> forall m :: 0 <= m < |ks| ==> ks[m].time < CycleStart(b, cycles))
  {
    if cycles > 0 {
      var c := cycles - 1;
      var prev := CyclesKeys(b, keys, c);
      var ck := CycleKeys(b, keys, c, |keys|);
      CyclesKeysTimes(b, keys, c);
      CycleBounds(b, keys, c);
      assert keys[0].time < keys[|keys| - 1].time;
      CycleStartStep(b, c);
      var t := CycleStart(b, c);
      if b.align {
        SeparatedAt(prev, ck, t, true);
      } else {
        SeparatedAt(prev, ck, t, false);
      }
      ConcatIncreasing(prev, ck);
      ConcatTimesAtMost(prev, ck, CycleStart(b, cycles), false);
      if b.align && cycles <= b.lastCycle {
        ConcatTimesAtMost(prev, ck, CycleStart(b, cycles), true);
      }
    }
  }

  /** Each cycle starts one period after the one before it. */
  lemma CycleStartStep(b: Bake, c: nat)
    ensures CycleStart(b, c + 1) == CycleStart(b, c) + b.d
  {
    assert (c + 1) * b.d == c * b.d + b.d;
  }

  /** Keys at or before `t` followed by keys after it, or keys before `t` followed by keys at or after it, are in order. */
  lemma SeparatedAt(a: seq<Key>, c: seq<Key>, t: int, strictBefore: bool)
    requires strictBefore ==> (forall m :: 0 <= m < |a| ==> a[m].time < t) && (forall m :: 0 <= m < |c| ==> t <= c[m].time)
    requires !strictBefore ==> (forall m :: 0 <= m < |a| ==> a[m].time <= t) && (a == [] || forall m :: 0 <= m < |c| ==> t < c[m].time)
    ensures forall i, j :: 0 <= i < |a| && 0 <= j < |c| ==> a[i].time < c[j].time
  {
  }

  /** The bound every key of two sequences keeps holds for their concatenation. */
  lemma ConcatTimesAtMost(a: seq<Key>, c: seq<Key>, t: int, strict: bool)
    requires forall m :: 0 <= m < |a| ==> a[m].time < t || (!strict && a[m].time == t)
    requires forall m :: 0 <= m < |c| ==> c[m].time < t || (!strict && c[m].time == t)
    ensures forall m :: 0 <= m < |a + c| ==> (a + c)[m].time < t || (!strict && (a + c)[m].time == t)
  {
    forall m | 0 <= m < |a + c|
      ensures (a + c)[m].time < t || (!strict && (a + c)[m].time == t)
    {
      if m < |a| {
        assert (a + c)[m] == a[m];
      } else {
        assert (a + c)[m] == c[m - |a|];
      }
    }
  }

  /** For strictly increasing inputs the baked times are strictly increasing: no seam produces a duplicate frame. */
  lemma InfinityKeysIncreasing(keys: seq<Key>, startFrame: int, endFrame: int, align: bool, copyValues: bool, evaluate: int -> int)
    requires TimesIncreasing(keys)
    ensures InfinityKeys(keys, startFrame, endFrame, align, copyValues, evaluate).Ok?
    ensures TimesIncreasing(InfinityKeys(keys, startFrame, endFrame, align, copyValues, evaluate).value)
  {
    if |keys| >= 2 {
      assert keys[0].time < keys[|keys| - 1].time;
      var b := BakeFor(keys, startFrame, endFrame, align, copyValues, evaluate);
      CyclesKeysTimes(b, keys, b.lastCycle + 1);
    }
  }

  lemma {:induction false} CycleKeysFirst(b: Bake, keys: seq<Key>, upTo: nat)
    requires 1 <= upTo <= |keys| && b.lastIndex >= 1
    ensures CycleKeys(b, keys, 0, upTo) != [] && CycleKeys(b, keys, 0, upTo)[0] == BakedKey(b, keys[0], 0)
  {
    if upTo > 1 {
      CycleKeysFirst(b, keys, upTo - 1);
    }
  }

  lemma {:induction false} CyclesKeysFirst(b: Bake, keys: seq<Key>, cycles: nat)
    requires 1 <= cycles && 1 <= |keys| && b.lastIndex >= 1
    ensures CyclesKeys(b, keys, cycles) != [] && CyclesKeys(b, keys, cycles)[0] == BakedKey(b, keys[0], 0)
  {
    if cycles == 1 {
      CycleKeysFirst(b, keys, |keys|);
    } else {
      CyclesKeysFirst(b, keys, cycles - 1);
    }
  }

  /** The last cycle keeps its last key. */
  lemma CyclesKeysLast(b: Bake, keys: seq<Key>)
    requires b.lastIndex == |keys| - 1 >= 1
    ensures var r := CyclesKeys(b, keys, b.lastCycle + 1);
      r != [] && r[|r| - 1] == BakedKey(b, keys[|keys| - 1], b.lastCycle)
  {
    var ck := CycleKeys(b, keys, b.lastCycle, |keys|);
    assert !Skipped(b, |keys| - 1, b.lastCycle);
    assert ck == CycleKeys(b, keys, b.lastCycle, |keys| - 1) + [BakedKey(b, keys[|keys| - 1], b.lastCycle)];
  }

  /** Rounding a non-positive quotient down overshoots: `|floor(a / d)|` spans reach back past `a`. */
  lemma FloorDivCovers(a: int, d: int)
    requires d > 0 && a <= 0
    ensures Abs(FloorDiv(a, d)) * d >= -a
  {
    var q := FloorDiv(a, d);
    assert q * d <= a;
    assert q <= 0;
  }

  lemma Distribute(pre: int, post: int, d: int)
    ensures (pre + 1 + post) * d == pre * d + d + post * d
  {
  }

  /**
   * The bake starts at `startBake` and ends one input span after the start of
   * the last cycle; when the requested range lies outside the inputs on both
   * sides, the baked keys reach from at or before its start to at or after
   * its end.
   */
  lemma InfinityKeysCover(keys: seq<Key>, startFrame: int, endFrame: int, align: bool, copyValues: bool, evaluate: int -> int)
    requires TimesIncreasing(keys) && |keys| >= 2
    ensures var b := BakeFor(keys, startFrame, endFrame, align, copyValues, evaluate);
      var r := InfinityKeys(keys, startFrame, endFrame, align, copyValues, evaluate);
      && r.Ok? && r.value != []
      && r.value[0].time == b.startBake
      && r.value[|r.value| - 1].time == CycleStart(b, b.lastCycle + 1)
      && (startFrame <= keys[0].time ==> r.value[0].time <= startFrame)
      && (endFrame >= keys[|keys| - 1].time ==> r.value[|r.value| - 1].time >= endFrame)
  {
    var n := |keys|;
    assert keys[0].time < keys[n - 1].time;
    var b := BakeFor(keys, startFrame, endFrame, align, copyValues, evaluate);
    BakeEnds(b, keys);
    BakeForCovers(keys, startFrame, endFrame, align, copyValues, evaluate);
  }

  lemma BakeEnds(b: Bake, keys: seq<Key>)
    requires b.lastIndex == |keys| - 1 >= 1
    requires b.startInput == keys[0].time && b.d == keys[|keys| - 1].time - keys[0].time
    ensures var r := CyclesKeys(b, keys, b.lastCycle + 1);
      r != [] && r[0].time == b.startBake && r[|r| - 1].time == CycleStart(b, b.lastCycle + 1)
  {
    CyclesKeysFirst(b, keys, b.lastCycle + 1);
    CyclesKeysLast(b, keys);
    assert (b.lastCycle + 1) * b.d == b.lastCycle * b.d + b.d;
  }

  lemma BakeForCovers(keys: seq<Key>, startFrame: int, endFrame: int, align: bool, copyValues: bool, evaluate: int -> int)
    requires |keys| >= 2 && keys[0].time < keys[|keys| - 1].time
    ensures var b := BakeFor(keys, startFrame, endFrame, align, copyValues, evaluate);
      && (startFrame <= keys[0].time ==> b.startBake <= startFrame)
      && (endFrame >= keys[|keys| - 1].time ==> CycleStart(b, b.lastCycle + 1) >= endFrame)
  {
    var t0, tn := keys[0].time, keys[|keys| - 1].time;
    var d := tn - t0;
    var pre, post := PreCycles(keys, startFrame), PostCycles(keys, endFrame);
    var b := BakeFor(keys, startFrame, endFrame, align, copyValues, evaluate);
    assert b.startBake == t0 - pre * d && b.d == d && b.lastCycle + 1 == pre + 1 + post;
    Distribute(pre, post, d);
    assert CycleStart(b, b.lastCycle + 1) == tn + post * d;
    if startFrame <= t0 {
      FloorDivCovers(startFrame - t0, d);
    }
    if endFrame >= tn {
      FloorDivCovers(tn - endFrame, d);
    }
  }

  lemma {:induction false} CycleKeysEvaluated(b: Bake, keys: seq<Key>, cycle: nat, upTo: nat)
    requires upTo <= |keys| && !b.copyValues
    ensures forall m :: 0 <= m < |CycleKeys(b, keys, cycle, upTo)| ==>
      CycleKeys(b, keys, cycle, upTo)[m].value == b.evaluate(CycleKeys(b, keys, cycle, upTo)[m].time)
  {
    if upTo > 0 {
      CycleKeysEvaluated(b, keys, cycle, upTo - 1);
    }
  }

  lemma {:induction false} CyclesKeysEvaluated(b: Bake, keys: seq<Key>, cycles: nat)
    requires !b.copyValues
    ensures forall m :: 0 <= m < |CyclesKeys(b, keys, cycles)| ==>
      CyclesKeys(b, keys, cycles)[m].value == b.evaluate(CyclesKeys(b, keys, cycles)[m].time)
  {
    if cycles > 0 {
      CyclesKeysEvaluated(b, keys, cycles - 1);
      CycleKeysEvaluated(b, keys, cycles - 1, |keys|);
    }
  }

  /** Unless post-infinity cycles, every baked value is the curve evaluated at the baked frame. */
  lemma InfinityKeysEvaluated(keys: seq<Key>, startFrame: int, endFrame: int, align: bool, evaluate: int -> int)
    requires |keys| >= 2 && keys[|keys| - 1].time != keys[0].time
    ensures var r := InfinityKeys(keys, startFrame, endFrame, align, false, evaluate);
      r.Ok? && forall m :: 0 <= m < |r.value| ==> r.value[m].value == evaluate(r.value[m].time)
  {
    CyclesKeysEvaluated(BakeFor(keys, startFrame, endFrame, align, false, evaluate), keys, CycleCount(keys, startFrame, endFrame));
  }

  /** A key with value and tangent y's negated. */
  function Negated(k: Key): Key
  {
    Key(k.time, -k.value, -k.inTangentY, -k.outTangentY)
  }

  function Mirrored(keys: seq<Key>, mirror: bool): seq<Key>
  {
    if keys == [] then [] else [if mirror then Negated(keys[0]) else keys[0]] + Mirrored(keys[1..], mirror)
  }

  /** Multiplying value and tangent y's by -1 negates the key, and by 1 keeps it. */
  lemma ScaledByFactor(key: Key, mirror: bool)
    ensures var factor := if mirror then -1 else 1;
      Key(key.time, key.value * factor, key.inTangentY * factor, key.outTangentY * factor)
      == if mirror then Negated(key) else key
  {
  }

  lemma {:induction false} MirroredSnoc(keys: seq<Key>, k: Key, mirror: bool)
    ensures Mirrored(keys + [k], mirror) == Mirrored(keys, mirror) + [if mirror then Negated(k) else k]
  {
    if keys == [] {
      assert keys + [k] == [k];
    } else {
      assert (keys + [k])[0] == keys[0];
      assert (keys + [k])[1..] == keys[1..] + [k];
      MirroredSnoc(keys[1..], k, mirror);
    }
  }

  /**
   * Mirroring keeps every frame and tangent x, negates exactly value and
   * tangent y's when the flag is set, leaves the keys as they are when it is
   * not, and mirroring twice gives the keys back.
   */
  lemma {:induction false} MirroredSpec(keys: seq<Key>, mirror: bool)
    ensures |Mirrored(keys, mirror)| == |keys|
    ensures forall i :: 0 <= i < |keys| ==>
      && Mirrored(keys, mirror)[i].time == keys[i].time
      && Mirrored(keys, mirror)[i].value == (if mirror then -keys[i].value else keys[i].value)
      && Mirrored(keys, mirror)[i].inTangentY == (if mirror then -keys[i].inTangentY else keys[i].inTangentY)
      && Mirrored(keys, mirror)[i].outTangentY == (if mirror then -keys[i].outTangentY else keys[i].outTangentY)
    ensures !mirror ==> Mirrored(keys, mirror) == keys
    ensures Mirrored(Mirrored(keys, mirror), mirror) == keys
  {
    if keys != [] {
      MirroredSpec(keys[1..], mirror);
      var rest := Mirrored(keys[1..], mirror);
      assert Mirrored(keys, mirror)[1..] == rest;
      assert Mirrored(keys, mirror)[0] == (if mirror then Negated(keys[0]) else keys[0]);
    }
  }

  /** What `clearKeys` does to the curve. */
  datatype ClearAction =
    | NothingToClear
    | DeleteCurve
    /** `animutils.clearKeys` with the range exactly as it was passed, possibly None. */
    | ClearWithin(animationRange: Option<(int, int)>)

  /**
   * `clearKeys(animationRange, delete)` over the curve's input frames: no
   * inputs, nothing; a range (the scene's when none is given) covering the
   * first and last input with `delete` set deletes the curve; otherwise the
   * keys are cleared within the range as given.
   */
  function ClearKeys(inputs: seq<int>, animationRange: Option<(int, int)>, sceneRange: (int, int), delete: bool): (a: ClearAction)
    ensures inputs == [] <==> a.NothingToClear?
    ensures a.ClearWithin? ==> a.animationRange == animationRange
    ensures var range := if animationRange.None? then sceneRange else animationRange.value;
      inputs != [] ==> (a.DeleteCurve? <==> (delete && range.0 <= inputs[0] && inputs[|inputs| - 1] <= range.1))
    ensures inputs != [] && !delete ==> a == ClearWithin(animationRange)
  {
    if inputs == [] then NothingToClear
    else
      var (startTime, endTime) := if animationRange.None? then sceneRange else animationRange.value;
      if startTime <= inputs[0] && endTime >= inputs[|inputs| - 1] && delete then DeleteCurve
      else ClearWithin(animationRange)
  }

  /** The argument forms `remove` tells apart. */
  datatype RemoveArgs =
    | NoArgs
    | IndexArg(index: int)
    /** A float or an MTime: a frame. */
    | TimeArg(time: int)
    | UnsupportedArg
    | RangeArgs(startTime: int, endTime: int)
    | TooManyArgs(count: nat)

  /** `MFnAnimCurve.find(time)`: the position of the first key at exactly that frame. */
  function FindTime(keys: seq<Key>, time: int): (r: Option<nat>)
    ensures r.Some? ==> r.value < |keys| && keys[r.value].time == time
    ensures r.Some? ==> forall j :: 0 <= j < r.value ==> keys[j].time != time
    ensures r.None? ==> forall j :: 0 <= j < |keys| ==> keys[j].time != time
  {
    if keys == [] then None
    else if keys[0].time == time then Some(0)
    else
      var rest := FindTime(keys[1..], time);
      if rest.Some? then Some(rest.value + 1) else None
  }

  /** The keys of an animation curve node. */
  class Curve {
    var keys: seq<Key>

    constructor (keys: seq<Key>)
      ensures this.keys == keys
    {
      this.keys := keys;
    }

    /**
     * `remove(startTime, endTime)`: the positions of the keys in range are
     * collected first and removed from the highest down, so each removal
     * leaves the positions still to be removed in place.
     */
    method RemoveRange(startTime: int, endTime: int)
      modifies this
      ensures keys == KeysOutside(old(keys), startTime, endTime)
    {
      ghost var original := keys;
      var indices := IndicesWithin(keys, startTime, endTime, 0);
      var j := |indices|;
      ghost var bound := |original|;
      assert original[..bound] == original && original[bound..] == [];
      while j > 0
        invariant 0 <= j <= |indices|
        invariant bound == Bound(indices, j, |original|)
        invariant keys == original[..bound] + KeysOutside(original[bound..], startTime, endTime)
      {
        j := j - 1;
        var i := indices[j];
        NothingBetween(original, startTime, endTime, indices, j);
        RemoveStep(original, startTime, endTime, i, bound, keys);
        keys := keys[..i] + keys[i + 1..];
        bound := i;
      }
      PrefixOutside(original, startTime, endTime, indices);
    }

    /**
     * `remove(*args)`: no argument removes the key at the current frame; an
     * index removes that key; a frame removes the key found there, or nothing
     * (a warning) when there is none; two frames remove the range; anything
     * else raises TypeError. An index the curve does not have is refused by
     * the host function set, modelled as RuntimeError.
     */
    method Remove(args: RemoveArgs, currentTime: int) returns (s: Status)
      modifies this
      ensures args.UnsupportedArg? || args.TooManyArgs? ==> s == Raised(TypeError) && keys == old(keys)
      ensures args.RangeArgs? ==> s == Done && keys == KeysOutside(old(keys), args.startTime, args.endTime)
      ensures args.IndexArg? ==> (0 <= args.index < |old(keys)| <==> s == Done)
      ensures args.IndexArg? && 0 <= args.index < |old(keys)| ==>
        keys == old(keys)[..args.index] + old(keys)[args.index + 1..]
      ensures args.IndexArg? && !(0 <= args.index < |old(keys)|) ==> s == Raised(RuntimeError) && keys == old(keys)
      ensures args.TimeArg? || args.NoArgs? ==> s == Done
      ensures var t := if args.TimeArg? then args.time else currentTime;
        args.TimeArg? || args.NoArgs? ==>
          if FindTime(old(keys), t).Some? then keys == old(keys)[..FindTime(old(keys), t).value] + old(keys)[FindTime(old(keys), t).value + 1..]
          else keys == old(keys)
    {
      match args {
        case NoArgs =>
          s := RemoveAtTime(currentTime);
        case IndexArg(index) =>
          s := RemoveIndex(index);
        case TimeArg(time) =>
          s := RemoveAtTime(time);
        case UnsupportedArg =>
          s := Raised(TypeError);
        case RangeArgs(startTime, endTime) =>
          RemoveRange(startTime, endTime);
          s := Done;
        case TooManyArgs(_) =>
          s := Raised(TypeError);
      }
    }

    /** `MFnAnimCurve.remove(index)`. */
    method RemoveIndex(index: int) returns (s: Status)
      modifies this
      ensures 0 <= index < |old(keys)| ==> s == Done && keys == old(keys)[..index] + old(keys)[index + 1..]
      ensures !(0 <= index < |old(keys)|) ==> s == Raised(RuntimeError) && keys == old(keys)
    {
      if 0 <= index < |keys| {
        keys := keys[..index] + keys[index + 1..];
        s := Done;
      } else {
        s := Raised(RuntimeError);
      }
    }

    /** The one-argument frame form: the key found at the frame is removed, otherwise nothing is. */
    method RemoveAtTime(time: int) returns (s: Status)
      modifies this
      ensures s == Done
      ensures FindTime(old(keys), time).Some? ==>
        keys == old(keys)[..FindTime(old(keys), time).value] + old(keys)[FindTime(old(keys), time).value + 1..]
      ensures FindTime(old(keys), time).None? ==> keys == old(keys)
    {
      var index := FindTime(keys, time);
      if index.Some? {
        s := RemoveIndex(index.value);
      } else {
        s := Done;
      }
    }

    /**
     * `getInfinityKeys`: the nested loops over cycles and keys, appending
     * every key that is not a seam key. With fewer than two keys the keys
     * come back as they are; otherwise a missing range fails the unpacking
     * into start and end frame with TypeError.
     */
    method GetInfinityKeys(animationRange: Option<(int, int)>, alignEndTangents: bool, cycleInfinity: bool,
                           evaluate: int -> int) returns (r: Result<seq<Key>>)
      ensures |keys| < 2 ==> r == Ok(keys)
      ensures |keys| >= 2 && animationRange.None? ==> r == Err(TypeError)
      ensures animationRange.Some? ==>
        r == InfinityKeys(keys, animationRange.value.0, animationRange.value.1, alignEndTangents, cycleInfinity, evaluate)
    {
      var keyframes := keys;
      var numKeyframes := |keyframes|;
      if numKeyframes < 2 {
        return Ok(keyframes);
      }
      if animationRange.None? {
        return Err(TypeError);
      }
      var (startFrame, endFrame) := animationRange.value;
      var startInput, endInput := keyframes[0].time, keyframes[numKeyframes - 1].time;
      var inputDifference := endInput - startInput;
      if inputDifference == 0 {
        return Err(ZeroDivisionError);
      }
      var preCycles := Abs(FloorDiv(startFrame - startInput, inputDifference));
      var postCycles := Abs(FloorDiv(endInput - endFrame, inputDifference));
      var startBakeFrame := keyframes[0].time - preCycles * inputDifference;
      var cycles := preCycles + 1 + postCycles;
      var lastIndex := numKeyframes - 1;
      var lastCycle := cycles - 1;
      ghost var b := BakeFor(keyframes, startFrame, endFrame, alignEndTangents, cycleInfinity, evaluate);
      var infinityKeyframes := [];
      var cycle := 0;
      while cycle < cycles
        invariant cycle <= cycles
        invariant infinityKeyframes == CyclesKeys(b, keyframes, cycle)
      {
        var offset := cycle * inputDifference;
        var i := 0;
        while i < numKeyframes
          invariant i <= numKeyframes
          invariant infinityKeyframes == CyclesKeys(b, keyframes, cycle) + CycleKeys(b, keyframes, cycle, i)
        {
          var skipFirstTangent := i == 0 && !alignEndTangents && cycle > 0;
          var skipLastTangent := i == lastIndex && alignEndTangents && cycle < lastCycle;
          if !(skipFirstTangent || skipLastTangent) {
            var keyframe := keyframes[i];
            var time := startBakeFrame + (keyframe.time - startInput) + offset;
            var value := keyframe.value;
            if !cycleInfinity {
              value := evaluate(time);
            }
            infinityKeyframes := infinityKeyframes + [Key(time, value, keyframe.inTangentY, keyframe.outTangentY)];
          }
          i := i + 1;
        }
        cycle := cycle + 1;
      }
      return Ok(infinityKeyframes);
    }

    /**
     * `mirrorKeys`: the keys of the range with value and both tangent y's
     * negated when the node's mirror flag for this plug is set, and as they
     * are otherwise. The curve itself is left alone.
     */
    method MirrorKeys(animationRange: Option<(int, int)>, mirror: bool) returns (r: seq<Key>)
      ensures r == Mirrored(GetKeys(keys, animationRange), mirror)
    {
      var copies := GetKeys(keys, animationRange);
      r := [];
      var i := 0;
      while i < |copies|
        invariant i <= |copies|
        invariant r == Mirrored(copies[..i], mirror)
      {
        var factor := if mirror then -1 else 1;
        var key := copies[i];
        MirroredSnoc(copies[..i], key, mirror);
        ScaledByFactor(key, mirror);
        assert copies[..i + 1] == copies[..i] + [key];
        r := r + [Key(key.time, key.value * factor, key.inTangentY * factor, key.outTangentY * factor)];
        i := i + 1;
      }
      assert copies[..i] == copies;
    }
  }

  /** The position below which nothing has been removed after removing `indices[j..]`. */
  function Bound(indices: seq<nat>, j: nat, n: nat): nat
    requires j <= |indices|
    requires forall k :: 0 <= k < |indices| ==> indices[k] < n
  {
    if j < |indices| then indices[j] else n
  }

  /** Consecutive positions in range have no position in range between them. */
  lemma NothingBetween(original: seq<Key>, startTime: int, endTime: int, indices: seq<nat>, j: nat)
    requires j < |indices|
    requires forall k :: 0 <= k < |indices| ==> indices[k] < |original|
    requires forall k, l :: 0 <= k < l < |indices| ==> indices[k] < indices[l]
    requires forall i :: 0 <= i < |original| && InRange(original[i].time, startTime, endTime) ==> i in indices
    ensures forall p :: indices[j] < p < Bound(indices, j + 1, |original|) ==> !InRange(original[p].time, startTime, endTime)
  {
    forall p | indices[j] < p < Bound(indices, j + 1, |original|)
      ensures !InRange(original[p].time, startTime, endTime)
    {
      forall k | 0 <= k < |indices| ensures indices[k] != p {
        if j < k {
          assert Bound(indices, j + 1, |original|) <= indices[k];
        }
      }
      assert p !in indices;
    }
  }

  /** Before the first position in range nothing is in range, so filtering keeps that prefix whole. */
  lemma PrefixOutside(original: seq<Key>, startTime: int, endTime: int, indices: seq<nat>)
    requires forall k :: 0 <= k < |indices| ==> indices[k] < |original|
    requires forall k, l :: 0 <= k < l < |indices| ==> indices[k] < indices[l]
    requires forall i :: 0 <= i < |original| && InRange(original[i].time, startTime, endTime) ==> i in indices
    ensures KeysOutside(original, startTime, endTime)
      == original[..Bound(indices, 0, |original|)] + KeysOutside(original[Bound(indices, 0, |original|)..], startTime, endTime)
  {
    var b := Bound(indices, 0, |original|);
    var prefix := original[..b];
    forall p | 0 <= p < |prefix| ensures !InRange(prefix[p].time, startTime, endTime) {
      forall k | 0 <= k < |indices| ensures indices[k] != p {
        assert b <= indices[k];
      }
      assert p !in indices;
      assert prefix[p] == original[p];
    }
    OutsideAllOut(prefix, startTime, endTime);
    assert original == prefix + original[b..];
    OutsideSplit(prefix, original[b..], startTime, endTime);
  }

  /** One removal of `RemoveRange`, on values: position i is in range and nothing between it and the bound is. */
  lemma RemoveStep(original: seq<Key>, startTime: int, endTime: int, i: nat, b: nat, keys: seq<Key>)
    requires i < b <= |original|
    requires InRange(original[i].time, startTime, endTime)
    requires forall p :: i < p < b ==> !InRange(original[p].time, startTime, endTime)
    requires keys == original[..b] + KeysOutside(original[b..], startTime, endTime)
    ensures keys[..i] + keys[i + 1..] == original[..i] + KeysOutside(original[i..], startTime, endTime)
  {
    var middle := original[i + 1..b];
    var rest := original[b..];
    assert original[i..] == [original[i]] + (middle + rest);
    OutsideSplit([original[i]], middle + rest, startTime, endTime);
    assert KeysOutside([original[i]], startTime, endTime) == [];
    OutsideSplit(middle, rest, startTime, endTime);
    assert forall q :: 0 <= q < |middle| ==> middle[q] == original[i + 1 + q];
    OutsideAllOut(middle, startTime, endTime);
    assert KeysOutside(original[i..], startTime, endTime) == middle + KeysOutside(rest, startTime, endTime);
    DropFromPrefix(original, i, b, KeysOutside(rest, startTime, endTime));
  }

  /** Dropping position `i` of `original[..b] + tail`, for `i < b`, leaves the prefix before `i`, then the rest of the first `b`, then the tail. */
  lemma DropFromPrefix(original: seq<Key>, i: nat, b: nat, tail: seq<Key>)
    requires i < b <= |original|
    ensures var keys := original[..b] + tail;
      keys[..i] + keys[i + 1..] == original[..i] + (original[i + 1..b] + tail)
  {
    var keys := original[..b] + tail;
    assert keys[..i] == original[..i];
    assert keys[i + 1..] == original[i + 1..b] + tail;
  }
}
