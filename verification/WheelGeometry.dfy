/**
 The levels of a timing wheel taken together: how granularities nest, which
 bucket `findBucket` picks, and what one insertion, one drained bucket or one
 pointer move does to the set of held keys.
 */
module WheelGeometry {
  import opened WheelLevels

  datatype SlotLoc = SlotLoc(level: int, bucket: int)

  /** Seconds covered by one turn of a level. */
  function Span(l: Level): int {
    l.granularity * l.bucketCount
  }

  /** The shape of `DefaultWheelConfigs`: level 0 ticks once per slot, and one
      bucket of a level spans a whole turn of the level below. */
  ghost predicate Aligned(gap: int, levels: seq<Level>) {
    && gap >= 1
    && |levels| >= 2
    && (forall i :: 0 <= i < |levels| ==> WellFormed(levels[i]))
    && levels[0].granularity == gap
    && (forall i :: 0 <= i < |levels| - 1 ==> Nested(levels, i))
  }

  predicate Nested(levels: seq<Level>, i: int)
    requires 0 <= i < |levels| - 1
  {
    levels[i + 1].granularity == Span(levels[i])
  }

  ghost predicate LevelsInv(c: Clock, levels: seq<Level>, ticks: seq<int>) {
    && Aligned(c.gap, levels)
    && c.origin % c.gap == 0
    && |ticks| == |levels|
    && forall i :: 0 <= i < |levels| ==> LevelInv(c, i == 0, levels[i], ticks[i])
  }

  /** Level pointer `tick` is the whole number of `g`-second steps in `elapsed`. */
  ghost predicate OnTick(elapsed: int, g: int, tick: int) {
    tick * g <= elapsed < (tick + 1) * g
  }

  ghost predicate OnTime(levels: seq<Level>, ticks: seq<int>, elapsed: int)
    requires |ticks| == |levels|
  {
    forall i :: 0 <= i < |levels| ==> OnTick(elapsed, levels[i].granularity, ticks[i])
  }

  // ---------------------------------------------------------------- the keys of all levels

  ghost function PromptOn(c: Clock, levels: seq<Level>, ticks: seq<int>, i: int): set<int>
    requires LevelsInv(c, levels, ticks) && 0 <= i < |levels|
  {
    LevelPrompt(c, i == 0, levels[i], ticks[i])
  }

  ghost function LateOn(c: Clock, levels: seq<Level>, ticks: seq<int>, i: int): set<int>
    requires LevelsInv(c, levels, ticks) && 0 <= i < |levels|
  {
    LevelLate(c, i == 0, levels[i], ticks[i])
  }

  ghost function Prompt(c: Clock, levels: seq<Level>, ticks: seq<int>): set<int>
    requires LevelsInv(c, levels, ticks)
  {
    set i, k | 0 <= i < |levels| && k in PromptOn(c, levels, ticks, i) :: k
  }

  ghost function Late(c: Clock, levels: seq<Level>, ticks: seq<int>): set<int>
    requires LevelsInv(c, levels, ticks)
  {
    set i, k | 0 <= i < |levels| && k in LateOn(c, levels, ticks, i) :: k
  }

  ghost function BucketKeys(levels: seq<Level>): set<int>
    requires forall i :: 0 <= i < |levels| ==> WellFormed(levels[i])
  {
    set i, k | 0 <= i < |levels| && k in LevelKeys(levels[i]) :: k
  }

  lemma BucketKeysSplit(c: Clock, levels: seq<Level>, ticks: seq<int>)
    requires LevelsInv(c, levels, ticks)
    ensures BucketKeys(levels) == Prompt(c, levels, ticks) + Late(c, levels, ticks)
  {
    forall i | 0 <= i < |levels|
      ensures LevelKeys(levels[i]) == PromptOn(c, levels, ticks, i) + LateOn(c, levels, ticks, i)
    {
      LevelKeysSplit(c, i == 0, levels[i], ticks[i]);
    }
    forall k ensures k in BucketKeys(levels) <==> k in Prompt(c, levels, ticks) + Late(c, levels, ticks) {
      if k in BucketKeys(levels) {
        var i :| 0 <= i < |levels| && k in LevelKeys(levels[i]);
        assert k in PromptOn(c, levels, ticks, i) + LateOn(c, levels, ticks, i);
      }
    }
  }

  ghost predicate SameExcept(levels: seq<Level>, ticks: seq<int>, levels': seq<Level>, ticks': seq<int>, e: int) {
    && |levels'| == |levels| == |ticks'| == |ticks|
    && forall i :: 0 <= i < |levels| && i != e ==> levels'[i] == levels[i] && ticks'[i] == ticks[i]
  }

  ghost function PromptElsewhere(c: Clock, levels: seq<Level>, ticks: seq<int>, e: int): set<int>
    requires LevelsInv(c, levels, ticks)
  {
    set i, k | 0 <= i < |levels| && i != e && k in PromptOn(c, levels, ticks, i) :: k
  }

  ghost function LateElsewhere(c: Clock, levels: seq<Level>, ticks: seq<int>, e: int): set<int>
    requires LevelsInv(c, levels, ticks)
  {
    set i, k | 0 <= i < |levels| && i != e && k in LateOn(c, levels, ticks, i) :: k
  }

  lemma SplitLevels(c: Clock, levels: seq<Level>, ticks: seq<int>, e: int)
    requires LevelsInv(c, levels, ticks) && 0 <= e < |levels|
    ensures Prompt(c, levels, ticks) == PromptElsewhere(c, levels, ticks, e) + PromptOn(c, levels, ticks, e)
    ensures Late(c, levels, ticks) == LateElsewhere(c, levels, ticks, e) + LateOn(c, levels, ticks, e)
  {
  }

  lemma PromptFrame(c: Clock, levels: seq<Level>, ticks: seq<int>, levels': seq<Level>, ticks': seq<int>, e: int)
    requires LevelsInv(c, levels, ticks) && LevelsInv(c, levels', ticks') && SameExcept(levels, ticks, levels', ticks', e)
    ensures PromptElsewhere(c, levels, ticks, e) <= PromptElsewhere(c, levels', ticks', e)
  {
    forall k | k in PromptElsewhere(c, levels, ticks, e) ensures k in PromptElsewhere(c, levels', ticks', e) {
      var i :| 0 <= i < |levels| && i != e && k in PromptOn(c, levels, ticks, i);
      assert k in PromptOn(c, levels', ticks', i);
    }
  }

  lemma LateFrame(c: Clock, levels: seq<Level>, ticks: seq<int>, levels': seq<Level>, ticks': seq<int>, e: int)
    requires LevelsInv(c, levels, ticks) && LevelsInv(c, levels', ticks') && SameExcept(levels, ticks, levels', ticks', e)
    ensures LateElsewhere(c, levels, ticks, e) <= LateElsewhere(c, levels', ticks', e)
  {
    forall k | k in LateElsewhere(c, levels, ticks, e) ensures k in LateElsewhere(c, levels', ticks', e) {
      var i :| 0 <= i < |levels| && i != e && k in LateOn(c, levels, ticks, i);
      assert k in LateOn(c, levels', ticks', i);
    }
  }

  /** Replacing one level leaves the contribution of the others, `ps` and `ls`, alone. */
  lemma ReplaceLevel(c: Clock, levels: seq<Level>, ticks: seq<int>, e: int, l': Level, t': int)
    returns (ps: set<int>, ls: set<int>)
    requires LevelsInv(c, levels, ticks)
    requires 0 <= e < |levels|
    requires LevelInv(c, e == 0, l', t')
    requires l'.granularity == levels[e].granularity && l'.bucketCount == levels[e].bucketCount
    ensures LevelsInv(c, levels[e := l'], ticks[e := t'])
    ensures Prompt(c, levels, ticks) == ps + LevelPrompt(c, e == 0, levels[e], ticks[e])
    ensures Prompt(c, levels[e := l'], ticks[e := t']) == ps + LevelPrompt(c, e == 0, l', t')
    ensures Late(c, levels, ticks) == ls + LevelLate(c, e == 0, levels[e], ticks[e])
    ensures Late(c, levels[e := l'], ticks[e := t']) == ls + LevelLate(c, e == 0, l', t')
  {
    var levels', ticks' := levels[e := l'], ticks[e := t'];
    forall i | 0 <= i < |levels'| - 1 ensures Nested(levels', i) {
      assert Nested(levels, i);
    }
    ps, ls := PromptElsewhere(c, levels, ticks, e), LateElsewhere(c, levels, ticks, e);
    PromptFrame(c, levels, ticks, levels', ticks', e);
    PromptFrame(c, levels', ticks', levels, ticks, e);
    LateFrame(c, levels, ticks, levels', ticks', e);
    LateFrame(c, levels', ticks', levels, ticks, e);
    SplitLevels(c, levels, ticks, e);
    SplitLevels(c, levels', ticks', e);
  }

  // ---------------------------------------------------------------- nesting of granularities

  /** Product of the bucket counts below level `i`: the mixed-radix weight of its digit. */
  function Radix(levels: seq<Level>, i: int): int
    requires 0 <= i <= |levels|
  {
    if i == 0 then 1 else Radix(levels, i - 1) * levels[i - 1].bucketCount
  }

  lemma {:induction false} GranularityIsRadix(gap: int, levels: seq<Level>, i: int)
    requires Aligned(gap, levels) && 0 <= i < |levels|
    ensures Radix(levels, i) >= 1
    ensures levels[i].granularity == gap * Radix(levels, i)
  {
    if i > 0 {
      GranularityIsRadix(gap, levels, i - 1);
      var r, n := Radix(levels, i - 1), levels[i - 1].bucketCount;
      ScaleLe(1, n, r);
      assert Nested(levels, i - 1);
      assert levels[i].granularity == Span(levels[i - 1]) == (gap * r) * n == gap * (r * n);
    }
  }

  lemma {:induction false} SpanWithin(gap: int, levels: seq<Level>, i: int, j: int)
    requires Aligned(gap, levels) && 0 <= i < j < |levels|
    ensures levels[i].granularity <= Span(levels[i]) <= levels[j].granularity
    decreases j - i
  {
    ScaleLe(1, levels[i].bucketCount, levels[i].granularity);
    if j > i + 1 {
      SpanWithin(gap, levels, i, j - 1);
      ScaleLe(1, levels[j - 1].bucketCount, levels[j - 1].granularity);
      assert Nested(levels, j - 1);
    } else {
      assert Nested(levels, i);
    }
  }

  // ---------------------------------------------------------------- findBucket

  /** The level `findBucket` settles on: the first whose turn exceeds `delta`, else the last. */
  predicate Chosen(levels: seq<Level>, delta: int, i: int) {
    && 0 <= i < |levels|
    && (i > 0 ==> levels[i].granularity <= delta)
    && (i < |levels| - 1 ==> delta < Span(levels[i]))
  }

  function Offset(levels: seq<Level>, delta: int, i: int): int
    requires 0 <= i < |levels| && WellFormed(levels[i])
  {
    delta / levels[i].granularity - (if i == 0 then 0 else 1)
  }

  function TargetBucket(levels: seq<Level>, delta: int, i: int): int
    requires 0 <= i < |levels| && WellFormed(levels[i])
  {
    (levels[i].current + Offset(levels, delta, i)) % levels[i].bucketCount
  }

  function Delta(c: Clock, elapsed: int, k: int): int {
    var d := k * c.gap - (c.origin + elapsed);
    if d < 0 then 0 else d
  }

  function Put(levels: seq<Level>, i: int, j: int, k: int): seq<Level>
    requires 0 <= i < |levels| && WellFormed(levels[i]) && 0 <= j < levels[i].bucketCount
  {
    levels[i := Insert(levels[i], j, k)]
  }

  lemma ChosenUnique(gap: int, levels: seq<Level>, delta: int, i: int, j: int)
    requires Aligned(gap, levels) && Chosen(levels, delta, i) && Chosen(levels, delta, j)
    ensures i == j
  {
    if i < j {
      SpanWithin(gap, levels, i, j);
    } else if j < i {
      SpanWithin(gap, levels, j, i);
    }
  }

  /** A key fits below `level` exactly when it is due within one of its buckets. */
  lemma ChosenBelow(gap: int, levels: seq<Level>, delta: int, i: int, level: int)
    requires Aligned(gap, levels) && Chosen(levels, delta, i) && 1 <= level < |levels|
    ensures i < level <==> delta < levels[level].granularity
  {
    if i < level {
      SpanWithin(gap, levels, i, level);
    } else if level < i {
      SpanWithin(gap, levels, level, i);
    }
  }

  lemma SlotMultiple(c: Clock, a: int, k: int)
    requires c.gap >= 1 && c.origin % c.gap == 0
    ensures k * c.gap - (c.origin + a * c.gap) == (k - c.origin / c.gap - a) * c.gap
  {
    assert c.origin == (c.origin / c.gap) * c.gap;
  }

  /** `findBucket` on level 0: the exact tick, or the current one for an overdue key. */
  lemma GroundTick(c: Clock, levels: seq<Level>, ticks: seq<int>, elapsed: int, k: int)
    returns (m: int)
    requires LevelsInv(c, levels, ticks) && ticks[0] * c.gap == elapsed
    requires Chosen(levels, Delta(c, elapsed, k), 0)
    ensures ticks[0] <= m < ticks[0] + levels[0].bucketCount
    ensures m % levels[0].bucketCount == TargetBucket(levels, Delta(c, elapsed, k), 0)
    ensures Timely(c, true, c.gap, ticks[0], m, k)
  {
    var delta, n := Delta(c, elapsed, k), levels[0].bucketCount;
    SlotMultiple(c, ticks[0], k);
    var q := k - c.origin / c.gap - ticks[0];
    if k * c.gap - (c.origin + elapsed) < 0 {
      q := 0;
    }
    assert delta == q * c.gap;
    DivisionUnique(delta, c.gap, q, 0);
    m := ticks[0] + q;
    ModShift(ticks[0], n, q);
    if q < 0 {
      ScaleLe(q, -1, c.gap);
    }
    if q >= n {
      ScaleLe(n, q, c.gap);
    }
  }

  /** `findBucket` on an upper level picks a tick that cascades no later than the
      key is due, even when the last level wraps; with the lower pointers at zero
      the tick is also prompt. */
  lemma UpperTick(c: Clock, levels: seq<Level>, ticks: seq<int>, elapsed: int, k: int, i: int)
    returns (m: int)
    requires LevelsInv(c, levels, ticks) && 1 <= i
    requires Chosen(levels, Delta(c, elapsed, k), i)
    requires OnTick(elapsed, levels[i].granularity, ticks[i])
    ensures ticks[i] <= m < ticks[i] + levels[i].bucketCount
    ensures m % levels[i].bucketCount == TargetBucket(levels, Delta(c, elapsed, k), i)
    ensures Timely(c, false, levels[i].granularity, ticks[i], m, k)
    ensures i < |levels| - 1 && ticks[i] * levels[i].granularity == elapsed ==>
              PromptAt(c, false, levels[i].granularity, m, k)
  {
    var delta, n, g, tick := Delta(c, elapsed, k), levels[i].bucketCount, levels[i].granularity, ticks[i];
    var q, r := delta / g, delta % g;
    assert delta == q * g + r;
    if q < 1 {
      ScaleLe(q, 0, g);
    }
    var off := q - 1;
    assert Offset(levels, delta, i) == off;
    m := tick + off % n;
    ModShift(tick, n, off);
    ModShift(off, n, tick);
    assert off % n <= off by {
      ScaleLe(0, off / n, n);
    }
    ScaleLe(m + 1, tick + q, g);
    assert (tick + q) * g == tick * g + q * g;
    if i < |levels| - 1 {
      if q >= n {
        ScaleLe(n, q, g);
      }
      DivisionUnique(off, n, 0, off);
      assert (m + 2) * g == tick * g + q * g + g;
    }
  }

  lemma PutLevels(c: Clock, levels: seq<Level>, ticks: seq<int>, i: int, m: int, k: int)
    requires LevelsInv(c, levels, ticks)
    requires 0 <= i < |levels| && ticks[i] <= m < ticks[i] + levels[i].bucketCount
    requires Timely(c, i == 0, levels[i].granularity, ticks[i], m, k)
    ensures var levels' := Put(levels, i, m % levels[i].bucketCount, k);
      && LevelsInv(c, levels', ticks)
      && (PromptAt(c, i == 0, levels[i].granularity, m, k) ==>
           Prompt(c, levels', ticks) == Prompt(c, levels, ticks) + {k}
           && Late(c, levels', ticks) == Late(c, levels, ticks))
      && (!PromptAt(c, i == 0, levels[i].granularity, m, k) ==>
           Prompt(c, levels', ticks) == Prompt(c, levels, ticks)
           && Late(c, levels', ticks) == Late(c, levels, ticks) + {k})
  {
    var l' := Insert(levels[i], m % levels[i].bucketCount, k);
    InsertLevel(c, i == 0, levels[i], ticks[i], m, k);
    var ps, ls := ReplaceLevel(c, levels, ticks, i, l', ticks[i]);
    assert ticks[i := ticks[i]] == ticks;
  }

  /** Placing a key by its distance from the present base, as `Add` does and as
      the end of `Advance` does for overflow. */
  lemma PlaceAtRest(c: Clock, levels: seq<Level>, ticks: seq<int>, elapsed: int, k: int, i: int)
    requires LevelsInv(c, levels, ticks) && OnTime(levels, ticks, elapsed) && ticks[0] * c.gap == elapsed
    requires Chosen(levels, Delta(c, elapsed, k), i)
    ensures 0 <= TargetBucket(levels, Delta(c, elapsed, k), i) < levels[i].bucketCount
    ensures var levels' := Put(levels, i, TargetBucket(levels, Delta(c, elapsed, k), i), k);
      && LevelsInv(c, levels', ticks)
      && Prompt(c, levels', ticks) + Late(c, levels', ticks) == Prompt(c, levels, ticks) + Late(c, levels, ticks) + {k}
      && Prompt(c, levels, ticks) <= Prompt(c, levels', ticks)
  {
    var m;
    if i == 0 {
      m := GroundTick(c, levels, ticks, elapsed, k);
    } else {
      m := UpperTick(c, levels, ticks, elapsed, k, i);
    }
    PutLevels(c, levels, ticks, i, m, k);
  }

  /** Placing a cascaded key when every pointer below `level` is at the present base. */
  lemma PlaceBelow(c: Clock, levels: seq<Level>, ticks: seq<int>, elapsed: int, level: int, k: int, i: int)
    requires LevelsInv(c, levels, ticks) && 1 <= level < |levels|
    requires forall x :: 0 <= x < level ==> ticks[x] * levels[x].granularity == elapsed
    requires Chosen(levels, Delta(c, elapsed, k), i) && i < level
    ensures 0 <= TargetBucket(levels, Delta(c, elapsed, k), i) < levels[i].bucketCount
    ensures var levels' := Put(levels, i, TargetBucket(levels, Delta(c, elapsed, k), i), k);
      && LevelsInv(c, levels', ticks)
      && Prompt(c, levels', ticks) == Prompt(c, levels, ticks) + {k}
      && Late(c, levels', ticks) == Late(c, levels, ticks)
  {
    var m;
    if i == 0 {
      m := GroundTick(c, levels, ticks, elapsed, k);
    } else {
      m := UpperTick(c, levels, ticks, elapsed, k, i);
    }
    PutLevels(c, levels, ticks, i, m, k);
  }

  // ---------------------------------------------------------------- draining and turning a level

  lemma DrainLevels(c: Clock, levels: seq<Level>, ticks: seq<int>, i: int)
    requires LevelsInv(c, levels, ticks) && 0 <= i < |levels|
    ensures var levels' := levels[i := Empty(levels[i])]; var out := levels[i].buckets[levels[i].current];
      && LevelsInv(c, levels', ticks)
      && Prompt(c, levels, ticks) == Prompt(c, levels', ticks) +
           PromptOf(c, i == 0, levels[i].granularity, ticks[i], out)
      && Late(c, levels, ticks) == Late(c, levels', ticks) +
           LateOf(c, i == 0, levels[i].granularity, ticks[i], out)
      && (forall k :: k in out ==> Timely(c, i == 0, levels[i].granularity, ticks[i], ticks[i], k))
  {
    EmptyLevel(c, i == 0, levels[i], ticks[i]);
    assert BucketAt(levels[i], ticks[i]) == levels[i].buckets[levels[i].current];
    var ps, ls := ReplaceLevel(c, levels, ticks, i, Empty(levels[i]), ticks[i]);
    assert ticks[i := ticks[i]] == ticks;
  }

  lemma TurnLevels(c: Clock, levels: seq<Level>, ticks: seq<int>, i: int)
    requires LevelsInv(c, levels, ticks) && 0 <= i < |levels|
    requires levels[i].buckets[levels[i].current] == {}
    ensures var levels', ticks' := levels[i := Turn(levels[i])], ticks[i := ticks[i] + 1];
      && LevelsInv(c, levels', ticks')
      && Prompt(c, levels', ticks') == Prompt(c, levels, ticks)
      && Late(c, levels', ticks') == Late(c, levels, ticks)
  {
    TurnLevel(c, i == 0, levels[i], ticks[i]);
    var ps, ls := ReplaceLevel(c, levels, ticks, i, Turn(levels[i]), ticks[i] + 1);
  }
}
