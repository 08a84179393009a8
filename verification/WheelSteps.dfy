/**
 One-step facts about wheel values that the in-place operations rely on.
 */
module WheelSteps {
  import opened Sequences
  import opened WheelLevels
  import opened WheelGeometry
  import opened WheelIndex
  import opened WheelSpec

  lemma EmptyStep(c: Clock, levels: seq<Level>, ticks: seq<int>, elapsed: int, level: int,
                  loc: map<int, SlotLoc>, overflow: set<int>)
    requires 0 <= level < |levels|
    requires LevelsInv(c, levels, ticks) && Midway(levels, ticks, elapsed, level)
    requires Indexed(levels, loc, {})
    ensures var levels' := levels[level := Empty(levels[level])]; var out := levels[level].buckets[levels[level].current];
      && Shape(levels') == Shape(levels)
      && levels'[level].buckets[levels'[level].current] == {}
      && LevelsInv(c, levels', ticks) && Midway(levels', ticks, elapsed, level)
      && Prompt(c, levels, ticks) == Prompt(c, levels', ticks) + PromptOf(c, level == 0, levels[level].granularity, ticks[level], out)
      && Late(c, levels, ticks) == Late(c, levels', ticks) + LateOf(c, level == 0, levels[level].granularity, ticks[level], out)
      && (level > 0 ==> forall k :: k in out ==> c.origin + elapsed <= k * c.gap)
      && (level == 0 ==> forall k :: k in out ==> k * c.gap < c.origin + elapsed)
      && Indexed(levels', loc, out) && Indexed(levels', loc - out, {})
      && (Single(levels, loc, overflow, {}) ==> Single(levels', loc, overflow, out) && Single(levels', loc - out, overflow, {}))
  {
    var levels' := levels[level := Empty(levels[level])];
    DrainLevels(c, levels, ticks, level);
    EmptyIndex(levels, loc, overflow, level);
    assert Shape(levels') == Shape(levels);
    MidwayShape(levels, levels', ticks, elapsed, level);
  }

  lemma TurnStep(c: Clock, levels: seq<Level>, ticks: seq<int>, elapsed: int, level: int,
                 loc: map<int, SlotLoc>, overflow: set<int>)
    requires 0 <= level < |levels|
    requires LevelsInv(c, levels, ticks) && Midway(levels, ticks, elapsed, level)
    requires levels[level].buckets[levels[level].current] == {}
    requires Indexed(levels, loc, {})
    ensures var levels', ticks' := levels[level := Turn(levels[level])], ticks[level := ticks[level] + 1];
      && Shape(levels') == Shape(levels)
      && LevelsInv(c, levels', ticks')
      && Prompt(c, levels', ticks') == Prompt(c, levels, ticks)
      && Late(c, levels', ticks') == Late(c, levels, ticks)
      && (if levels'[level].current == 0 then Midway(levels', ticks', elapsed, level + 1) else OnTime(levels', ticks', elapsed))
      && Indexed(levels', loc, {})
      && (Single(levels, loc, overflow, {}) ==> Single(levels', loc, overflow, {}))
  {
    var levels', ticks' := levels[level := Turn(levels[level])], ticks[level := ticks[level] + 1];
    TurnLevels(c, levels, ticks, level);
    TurnIndex(levels, loc, overflow, level);
    Carry(c.gap, levels, ticks, elapsed, level);
    assert Shape(levels') == Shape(levels);
    MidwayShape(levels, levels', ticks', elapsed, level + 1);
    SameShape(levels, levels', ticks', elapsed);
  }

  lemma CascadePlaced(c: Clock, levels: seq<Level>, ticks: seq<int>, elapsed: int, level: int,
                      loc: map<int, SlotLoc>, overflow: set<int>, moving: set<int>, k: int, s: SlotLoc)
    requires 1 <= level < |levels|
    requires LevelsInv(c, levels, ticks) && Midway(levels, ticks, elapsed, level)
    requires k in moving && Indexed(levels, loc, moving)
    requires Chosen(levels, Delta(c, elapsed, k), s.level) && s.level < level
    requires s.bucket == TargetBucket(levels, Delta(c, elapsed, k), s.level)
    ensures 0 <= s.bucket < levels[s.level].bucketCount
    ensures var levels' := Put(levels, s.level, s.bucket, k);
      && Shape(levels') == Shape(levels) && |levels'| == |levels| && levels'[level] == levels[level]
      && LevelsInv(c, levels', ticks) && Midway(levels', ticks, elapsed, level)
      && Prompt(c, levels', ticks) == Prompt(c, levels, ticks) + {k}
      && Late(c, levels', ticks) == Late(c, levels, ticks)
      && Indexed(levels', loc[k := s], moving - {k})
      && (Single(levels, loc, overflow, moving) ==> Single(levels', loc[k := s], overflow, moving - {k}))
  {
    PlaceBelow(c, levels, ticks, elapsed, level, k, s.level);
    PutIndex(levels, loc, overflow, moving, s.level, s.bucket, k);
    PutShape(levels, s.level, s.bucket, k);
    MidwayShape(levels, Put(levels, s.level, s.bucket, k), ticks, elapsed, level);
  }

  // ---------------------------------------------------------------- at rest

  /** Levels that keep their invariant, together with overflow that stays far
      away, make a wheel at rest. */
  lemma Rested(c: Clock, levels: seq<Level>, ticks: seq<int>, base: int, loc: map<int, SlotLoc>, overflow: set<int>)
    requires LevelsInv(c, levels, ticks) && OnTime(levels, ticks, base - c.origin)
    requires ticks[0] * c.gap == base - c.origin
    requires Indexed(levels, loc, {})
    requires forall k :: k in overflow ==> Coverage(levels) <= k * c.gap - base
    ensures var w := Wheel(c, levels, base, loc, overflow, true);
      && Ok(w)
      && PromptKeys(w) == Prompt(c, levels, ticks)
      && LateKeys(w) == Late(c, levels, ticks)
      && Held(w) == Prompt(c, levels, ticks) + Late(c, levels, ticks) + overflow
  {
    TicksUnique(levels, ticks, base - c.origin);
    ScaleLe(0, ticks[0], c.gap);
    DivisionUnique(base - c.origin, c.gap, ticks[0], 0);
    HeldSplit(Wheel(c, levels, base, loc, overflow, true));
  }

  lemma AtRest(w: Wheel)
    requires Ok(w) && w.initialized
    ensures var ticks := TicksAt(w.levels, Elapsed(w));
      && LevelsInv(w.clock, w.levels, ticks) && OnTime(w.levels, ticks, Elapsed(w))
      && ticks[0] * w.clock.gap == Elapsed(w)
  {
    TicksOnTime(w.levels, Elapsed(w));
    GroundTickExact(w);
  }

  // ---------------------------------------------------------------- Add

  lemma {:induction false} GroundResident(c: Clock, levels: seq<Level>, ticks: seq<int>, elapsed: int, k: int)
    requires LevelsInv(c, levels, ticks) && ticks[0] * c.gap == elapsed
    requires k in LevelKeys(levels[0])
    ensures Chosen(levels, Delta(c, elapsed, k), 0)
    ensures k in levels[0].buckets[TargetBucket(levels, Delta(c, elapsed, k), 0)]
  {
    var n, tick, delta := levels[0].bucketCount, ticks[0], Delta(c, elapsed, k);
    var j :| 0 <= j < n && k in levels[0].buckets[j];
    var m := TickOf(j, n, tick);
    assert k in BucketAt(levels[0], m);
    assert Timely(c, true, c.gap, tick, m, k);
    var d := if m == tick then 0 else m - tick;
    assert delta == d * c.gap;
    ScaleLe(d + 1, n, c.gap);
    DivisionUnique(delta, c.gap, d, 0);
    ModShift(tick, n, d);
  }

  lemma AddCorrect(w: Wheel, w1: Wheel, k: int, loc: SlotLoc, w': Wheel)
    requires Ok(w) && Ok(w1) && w1.initialized
    requires w1 == if w.initialized then w else w.(clock := Clock(w.clock.gap, k * w.clock.gap), base := k * w.clock.gap, initialized := true)
    requires Chosen(w.levels, Delta(w1.clock, Elapsed(w1), k), loc.level)
    requires loc.bucket == TargetBucket(w.levels, Delta(w1.clock, Elapsed(w1), k), loc.level)
    requires w' == w1.(levels := Put(w.levels, loc.level, loc.bucket, k), slotLocation := w.slotLocation[k := loc])
    ensures AddSpec(w, k, w')
  {
    hide LevelInv, Shape, Single, Indexed, Prompt, Late, OnTime, BucketKeys, LevelKeys, Put;
    var ticks := TicksAt(w.levels, Elapsed(w1));
    AtRest(w1);
    PlaceAtRest(w1.clock, w.levels, ticks, Elapsed(w1), k, loc.level);
    PutShape(w.levels, loc.level, loc.bucket, k);
    PutIndex(w.levels, w.slotLocation, w.overflow, {}, loc.level, loc.bucket, k);
    assert {} - {k} == {};
    SameShape(w.levels, w'.levels, ticks, Elapsed(w1));
    Rested(w1.clock, w'.levels, ticks, w1.base, w'.slotLocation, w1.overflow);
    HeldSplit(w);
    HeldSplit(w1);
    AddFresh(w, k);
    if w.initialized && k in LevelKeys(w.levels[0]) {
      AddResident(w, k, loc);
    }
  }

  lemma AddFresh(w: Wheel, k: int)
    requires Ok(w)
    ensures k !in Held(w) ==> k !in w.slotLocation && k !in w.overflow
  {
    if k in w.slotLocation {
      var s := w.slotLocation[k];
      assert Holds(w.levels, s, k);
      assert k in LevelKeys(w.levels[s.level]);
    }
  }

  lemma AddResident(w: Wheel, k: int, loc: SlotLoc)
    requires Ok(w) && w.initialized && k in LevelKeys(w.levels[0])
    requires Chosen(w.levels, Delta(w.clock, Elapsed(w), k), loc.level)
    requires loc.bucket == TargetBucket(w.levels, Delta(w.clock, Elapsed(w), k), loc.level)
    ensures loc.level == 0 && Put(w.levels, loc.level, loc.bucket, k) == w.levels
  {
    AtRest(w);
    GroundResident(w.clock, w.levels, TicksAt(w.levels, Elapsed(w)), Elapsed(w), k);
    ChosenUnique(w.clock.gap, w.levels, Delta(w.clock, Elapsed(w), k), 0, loc.level);
    var b := w.levels[0].buckets[loc.bucket];
    assert b + {k} == b;
    assert w.levels[0].buckets[loc.bucket := b] == w.levels[0].buckets;
  }

  // ---------------------------------------------------------------- Remove

  function Take(levels: seq<Level>, loc: SlotLoc, k: int): seq<Level>
    requires 0 <= loc.level < |levels| && 0 <= loc.bucket < |levels[loc.level].buckets|
  {
    var l := levels[loc.level];
    levels[loc.level := l.(buckets := l.buckets[loc.bucket := l.buckets[loc.bucket] - {k}])]
  }

  lemma TakeHolds(levels: seq<Level>, loc: SlotLoc, k: int)
    requires 0 <= loc.level < |levels| && 0 <= loc.bucket < |levels[loc.level].buckets|
    ensures forall s, x :: Holds(Take(levels, loc, k), s, x) <==> Holds(levels, s, x) && !(s == loc && x == k)
  {
  }

  lemma KeysAreHeld(levels: seq<Level>, k: int)
    requires forall i :: 0 <= i < |levels| ==> WellFormed(levels[i])
    ensures k in BucketKeys(levels) <==> exists s :: Holds(levels, s, k)
  {
    if k in BucketKeys(levels) {
      var i :| 0 <= i < |levels| && k in LevelKeys(levels[i]);
      var j :| 0 <= j < levels[i].bucketCount && k in levels[i].buckets[j];
      assert Holds(levels, SlotLoc(i, j), k);
    } else if exists s :: Holds(levels, s, k) {
      var s :| Holds(levels, s, k);
      assert k in LevelKeys(levels[s.level]);
    }
  }

  lemma TakeKeys(levels: seq<Level>, loc: SlotLoc, k: int)
    requires forall i :: 0 <= i < |levels| ==> WellFormed(levels[i])
    requires Holds(levels, loc, k)
    ensures var levels' := Take(levels, loc, k);
      && (forall i :: 0 <= i < |levels'| ==> WellFormed(levels'[i]))
      && BucketKeys(levels) - {k} <= BucketKeys(levels') <= BucketKeys(levels)
      && k in BucketKeys(levels)
      && (k in BucketKeys(levels') <==> exists s :: Holds(levels, s, k) && s != loc)
  {
    hide BucketKeys, Take;
    var levels' := Take(levels, loc, k);
    TakeWellFormed(levels, loc, k);
    TakeHolds(levels, loc, k);
    KeysAreHeld(levels, k);
    KeysAreHeld(levels', k);
    forall x ensures x in BucketKeys(levels') ==> x in BucketKeys(levels) {
      KeysAreHeld(levels, x);
      KeysAreHeld(levels', x);
    }
    forall x | x != k ensures x in BucketKeys(levels) ==> x in BucketKeys(levels') {
      KeysAreHeld(levels, x);
      KeysAreHeld(levels', x);
    }
  }

  lemma TakeWellFormed(levels: seq<Level>, loc: SlotLoc, k: int)
    requires forall i :: 0 <= i < |levels| ==> WellFormed(levels[i])
    requires 0 <= loc.level < |levels| && 0 <= loc.bucket < |levels[loc.level].buckets|
    ensures forall i :: 0 <= i < |Take(levels, loc, k)| ==> WellFormed(Take(levels, loc, k)[i])
  {
  }

  lemma TakeLevels(c: Clock, levels: seq<Level>, ticks: seq<int>, loc: SlotLoc, k: int)
    requires LevelsInv(c, levels, ticks)
    requires 0 <= loc.level < |levels| && 0 <= loc.bucket < |levels[loc.level].buckets|
    ensures LevelsInv(c, Take(levels, loc, k), ticks)
    ensures Shape(Take(levels, loc, k)) == Shape(levels)
  {
    var l, l' := levels[loc.level], Take(levels, loc, k)[loc.level];
    forall m, x | ticks[loc.level] <= m < ticks[loc.level] + l.bucketCount && x in BucketAt(l', m)
      ensures Timely(c, loc.level == 0, l.granularity, ticks[loc.level], m, x)
    {
      assert x in BucketAt(l, m);
    }
    var ps, ls := ReplaceLevel(c, levels, ticks, loc.level, l', ticks[loc.level]);
    assert ticks[loc.level := ticks[loc.level]] == ticks;
  }

  lemma RemoveIndexedCorrect(w: Wheel, k: int, w': Wheel)
    requires Ok(w) && k in w.slotLocation && Holds(w.levels, w.slotLocation[k], k)
    requires w' == w.(levels := Take(w.levels, w.slotLocation[k], k), slotLocation := w.slotLocation - {k})
    ensures RemoveSpec(w, k, w')
  {
    hide LevelInv, Shape, Prompt, Late, OnTime, BucketKeys, Take;
    var s := w.slotLocation[k];
    assert w.initialized;
    AtRest(w);
    var ticks := TicksAt(w.levels, Elapsed(w));
    TakeLevels(w.clock, w.levels, ticks, s, k);
    TakeHolds(w.levels, s, k);
    SameShape(w.levels, w'.levels, ticks, Elapsed(w));
    Rested(w.clock, w'.levels, ticks, w.base, w'.slotLocation, w.overflow);
    TakeKeys(w.levels, s, k);
    if Unique(w) {
      assert k !in BucketKeys(w'.levels);
    }
  }

  lemma RemoveOverflowCorrect(w: Wheel, k: int, w': Wheel)
    requires Ok(w) && k !in w.slotLocation
    requires w' == w.(overflow := w.overflow - {k})
    ensures RemoveSpec(w, k, w')
  {
    KeysAreHeld(w.levels, k);
  }

  // ---------------------------------------------------------------- Advance

  /** Pointers and index agree with `base`; overflow may hold anything. */
  ghost predicate Turning(c: Clock, levels: seq<Level>, ticks: seq<int>, base: int, loc: map<int, SlotLoc>) {
    && LevelsInv(c, levels, ticks)
    && OnTime(levels, ticks, base - c.origin)
    && ticks[0] * c.gap == base - c.origin
    && Indexed(levels, loc, {})
  }

  lemma UpperAhead(c: Clock, levels: seq<Level>, ticks: seq<int>, i: int, k: int)
    requires LevelsInv(c, levels, ticks) && 1 <= i < |levels| && k in PromptOn(c, levels, ticks, i)
    ensures c.origin + (ticks[i] + 1) * levels[i].granularity <= k * c.gap
  {
    var m :| ticks[i] <= m < ticks[i] + levels[i].bucketCount && k in BucketAt(levels[i], m)
          && PromptAt(c, false, levels[i].granularity, m, k);
    assert Timely(c, false, levels[i].granularity, ticks[i], m, k);
    ScaleLe(ticks[i] + 1, m + 1, levels[i].granularity);
  }

  /** Once the current level-0 bucket is out, nothing prompt is due before the next slot. */
  lemma DrainedAhead(c: Clock, levels: seq<Level>, ticks: seq<int>, elapsed: int)
    requires LevelsInv(c, levels, ticks) && Midway(levels, ticks, elapsed, 0)
    ensures LevelsInv(c, levels[0 := Empty(levels[0])], ticks)
    ensures forall k :: k in Prompt(c, levels[0 := Empty(levels[0])], ticks) ==> c.origin + elapsed <= k * c.gap
  {
    DrainLevels(c, levels, ticks, 0);
    EmptyLevel(c, true, levels[0], ticks[0]);
    hide LevelInv, LevelPrompt;
    var levels' := levels[0 := Empty(levels[0])];
    forall k | k in Prompt(c, levels', ticks) ensures c.origin + elapsed <= k * c.gap {
      var i :| 0 <= i < |levels'| && k in PromptOn(c, levels', ticks, i);
      if i > 0 {
        UpperAhead(c, levels', ticks, i, k);
        assert Behind(elapsed, levels[i].granularity, ticks[i]);
      }
    }
  }

  /** Everything `Advance` does to level 0 in one slot, before any cascade. */
  lemma SlotStep(c: Clock, levels: seq<Level>, ticks: seq<int>, base: int, loc: map<int, SlotLoc>, overflow: set<int>)
    requires Turning(c, levels, ticks, base, loc)
    ensures var out := levels[0].buckets[levels[0].current];
      var levels', ticks' := levels[0 := Turn(Empty(levels[0]))], ticks[0 := ticks[0] + 1];
      && Shape(levels') == Shape(levels)
      && LevelsInv(c, levels', ticks')
      && ticks'[0] * c.gap == base + c.gap - c.origin
      && (if levels'[0].current == 0 then Midway(levels', ticks', base + c.gap - c.origin, 1)
          else OnTime(levels', ticks', base + c.gap - c.origin))
      && Prompt(c, levels, ticks) == Prompt(c, levels', ticks') + out
      && Late(c, levels', ticks') == Late(c, levels, ticks)
      && (forall k :: k in out ==> k * c.gap < base + c.gap)
      && (forall k :: k in Prompt(c, levels', ticks') ==> base + c.gap <= k * c.gap)
      && Indexed(levels', loc - out, {})
      && (Single(levels, loc, overflow, {}) ==> Single(levels', loc - out, overflow, {}))
  {
    hide LevelInv, Shape, Single, Indexed, Prompt, Late, Midway, OnTime;
    var elapsed, out := base - c.origin, levels[0].buckets[levels[0].current];
    StepBehind(c.gap, levels, ticks, elapsed);
    EmptyStep(c, levels, ticks, elapsed + c.gap, 0, loc, overflow);
    DrainedAhead(c, levels, ticks, elapsed + c.gap);
    var levels1 := levels[0 := Empty(levels[0])];
    TurnStep(c, levels1, ticks, elapsed + c.gap, 0, loc - out, overflow);
    assert levels1[0 := Turn(levels1[0])] == levels[0 := Turn(Empty(levels[0]))];
    assert PromptOf(c, true, levels[0].granularity, ticks[0], out) == out;
    assert LateOf(c, true, levels[0].granularity, ticks[0], out) == {};
  }

  /** What has happened since `Advance` was called on `w`. */
  ghost predicate Rolling(w: Wheel, ready: seq<int>, levels: seq<Level>, ticks: seq<int>, base: int,
                          loc: map<int, SlotLoc>, overflow: set<int>)
  {
    && Ok(w) && w.initialized
    && Shape(levels) == Shape(w.levels)
    && Turning(w.clock, levels, ticks, base, loc)
    && w.base <= base
    && (base == w.base ==> ready == [])
    && Distinct(ready)
    && (forall k :: k in ready ==> k * w.clock.gap < base)
    && Elements(ready) + Prompt(w.clock, levels, ticks) == PromptKeys(w)
    && (base > w.base ==> forall k :: k in Prompt(w.clock, levels, ticks) ==> base <= k * w.clock.gap)
    && Late(w.clock, levels, ticks) + overflow == LateKeys(w) + w.overflow
    && (Unique(w) ==> Single(levels, loc, overflow, {}))
  }

  lemma RollOn(w: Wheel, ready: seq<int>, drained: seq<int>,
               levels: seq<Level>, ticks: seq<int>, base: int, loc: map<int, SlotLoc>, overflow: set<int>,
               levels': seq<Level>, ticks': seq<int>, base': int, loc': map<int, SlotLoc>, overflow': set<int>)
    requires Rolling(w, ready, levels, ticks, base, loc, overflow)
    requires Turning(w.clock, levels', ticks', base', loc') && Shape(levels') == Shape(levels)
    requires base' == base + w.clock.gap && w.clock.gap >= 1
    requires Distinct(drained) && forall k :: k in drained ==> k * w.clock.gap < base'
    requires Prompt(w.clock, levels, ticks) == Prompt(w.clock, levels', ticks') + Elements(drained)
    requires forall k :: k in Prompt(w.clock, levels', ticks') ==> base' <= k * w.clock.gap
    requires Late(w.clock, levels', ticks') + overflow' == Late(w.clock, levels, ticks) + overflow
    requires Single(levels, loc, overflow, {}) ==> Single(levels', loc', overflow', {})
    ensures Rolling(w, ready + drained, levels', ticks', base', loc', overflow')
  {
    hide LevelsInv, Shape, Single, Indexed, Prompt, Late, OnTime, PromptKeys, LateKeys, Ok;
    forall i, j | 0 <= i < |ready| && 0 <= j < |drained| ensures ready[i] != drained[j] {
      assert ready[i] in ready && drained[j] in Elements(drained);
    }
    assert Distinct(ready + drained);
    ElementsAppend(ready, drained);
  }

  lemma StepsToGo(w: Wheel, now: int) returns (n: int)
    requires Ok(w) && w.initialized
    ensures SlotBase(w.clock.gap, now) - w.base == n * w.clock.gap
  {
    var gap, origin, base := w.clock.gap, w.clock.origin, w.base;
    var a, b, t := origin / gap, (base - origin) / gap, TruncDiv(now, gap);
    assert origin == a * gap && base - origin == b * gap;
    assert SlotBase(gap, now) - base == (t - a - b) * gap;
    n := t - a - b;
  }

  lemma OneStepLess(n: int, gap: int)
    requires gap >= 1
    ensures n * gap > 0 ==> n >= 1 && (n - 1) * gap == n * gap - gap >= 0
  {
    if n <= 0 {
      ScaleLe(n, 0, gap);
    } else {
      ScaleLe(1, n, gap);
    }
  }

  lemma Unmoved(w: Wheel, now: int)
    requires Ok(w) && (!w.initialized || SlotBase(w.clock.gap, now) <= w.base)
    ensures AdvanceSpec(w, now, [], w)
  {
  }

  /** Overflow that stays out of reach is never due, so nothing is left to promote. */
  lemma NothingOverdue(gap: int, levels: seq<Level>, overflow: set<int>, base: int, promoted: seq<int>)
    requires Aligned(gap, levels)
    requires forall k :: k in overflow ==> Coverage(levels) <= k * gap - base
    requires Elements(promoted) == set k | k in overflow && k * gap <= base
    ensures promoted == []
  {
    CoverageAtLeast(gap, levels, |levels|);
    assert levels[..|levels|] == levels;
    ElementsFirst(promoted);
  }

  lemma SettleOne(c: Clock, levels: seq<Level>, ticks: seq<int>, base: int, loc: map<int, SlotLoc>, others: set<int>, k: int, s: SlotLoc)
    requires Turning(c, levels, ticks, base, loc) && k in others
    requires Chosen(levels, Delta(c, base - c.origin, k), s.level)
    requires s.bucket == TargetBucket(levels, Delta(c, base - c.origin, k), s.level)
    ensures 0 <= s.bucket < levels[s.level].bucketCount
    ensures var levels' := Put(levels, s.level, s.bucket, k);
      && Shape(levels') == Shape(levels)
      && Turning(c, levels', ticks, base, loc[k := s])
      && Prompt(c, levels', ticks) + Late(c, levels', ticks) == Prompt(c, levels, ticks) + Late(c, levels, ticks) + {k}
      && Prompt(c, levels, ticks) <= Prompt(c, levels', ticks)
      && (Single(levels, loc, others, {}) ==> Single(levels', loc[k := s], others - {k}, {}))
  {
    hide LevelInv, Shape, Single, Indexed, Prompt, Late, OnTime;
    if Single(levels, loc, others, {}) {
      SingleLess(levels, loc, others, k);
    }
    PlaceAtRest(c, levels, ticks, base - c.origin, k, s.level);
    PutIndex(levels, loc, others - {k}, {}, s.level, s.bucket, k);
    PutShape(levels, s.level, s.bucket, k);
    SameShape(levels, Put(levels, s.level, s.bucket, k), ticks, base - c.origin);
    assert {} - {k} == {};
  }

  lemma StartRolling(w: Wheel)
    requires Ok(w) && w.initialized
    ensures Rolling(w, [], w.levels, TicksAt(w.levels, Elapsed(w)), w.base, w.slotLocation, w.overflow)
  {
    AtRest(w);
    assert Elements([]) == {};
  }

  lemma Arrive(w: Wheel, now: int, ready: seq<int>, levels: seq<Level>, ticks: seq<int>, loc: map<int, SlotLoc>, overflow: set<int>,
               w': Wheel)
    requires Ok(w) && Rolling(w, ready, levels, ticks, SlotBase(w.clock.gap, now), loc, overflow)
    requires w.base < SlotBase(w.clock.gap, now)
    requires w' == Wheel(w.clock, w'.levels, SlotBase(w.clock.gap, now), w'.slotLocation, w'.overflow, true)
    requires Shape(w'.levels) == Shape(levels) && Turning(w.clock, w'.levels, ticks, w'.base, w'.slotLocation)
    requires Prompt(w.clock, w'.levels, ticks) + Late(w.clock, w'.levels, ticks) + w'.overflow
          == Prompt(w.clock, levels, ticks) + Late(w.clock, levels, ticks) + overflow
    requires Prompt(w.clock, levels, ticks) <= Prompt(w.clock, w'.levels, ticks)
    requires forall k :: k in w'.overflow ==> Coverage(levels) <= k * w.clock.gap - w'.base
    requires Single(levels, loc, overflow, {}) ==> Single(w'.levels, w'.slotLocation, w'.overflow, {})
    ensures AdvanceSpec(w, now, ready, w')
  {
    hide LevelInv, Shape, Single, Indexed, Prompt, Late, OnTime, PromptKeys, LateKeys;
    SameShape(levels, w'.levels, ticks, 0);
    Rested(w.clock, w'.levels, ticks, w'.base, w'.slotLocation, w'.overflow);
    var p := Prompt(w.clock, levels, ticks);
    assert Elements(ready) !! p;
    assert p == PromptKeys(w) - Elements(ready);
  }

  /** Whatever a jump returns lies wholly before `now`. */
  lemma AdvanceOnTime(w: Wheel, now: int, ready: seq<int>, w': Wheel)
    requires Ok(w) && AdvanceSpec(w, now, ready, w')
    ensures w.clock.gap >= 1 && (w'.base != w.base ==> SlotStart(w.clock.gap, now, w'.base))
    ensures forall k :: k in ready ==> Over(w.clock.gap, now, k)
  {
    SlotBaseIs(w.clock.gap, now);
    hide Ok, PromptKeys, LateKeys, Held;
    assert forall k :: k in ready ==> k in Elements(ready);
  }
}
