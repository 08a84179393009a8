/**
 Runs, from a new wheel of almost any shape, in which the wheel falls short of
 the plain set it stands for.
 */
module WheelWitnesses {
  import opened WheelLevels
  import opened WheelGeometry
  import opened WheelIndex
  import opened WheelSpec
  import opened WheelScan
  import opened TimingWheel
  import opened WheelTheorems
  import opened WheelRuns

  /** A run from a new wheel in which one long jump leaves an overdue key behind,
      for every gap and every aligned shape with two buckets on levels 0 and 1. */
  method LongJumpRun(gap: int, configs: seq<LevelConfig>)
    returns (wheel: HierarchicalTimingWheel, k: int, ready: seq<int>)
    requires AlignedConfigs(gap, configs) && configs[0].buckets >= 2 && configs[1].buckets >= 2
    ensures wheel.Valid() && wheel.slotGap == gap
    ensures k !in ready && k in Held(wheel.View()) && k * gap < wheel.currentBase
  {
    hide Ok, Held, AddSpec, AdvanceSpec, InitSpec, Aligned;
    wheel := new HierarchicalTimingWheel(gap, configs);
    ghost var w0 := wheel.View();
    wheel.Init(0);
    ghost var w1 := wheel.View();
    InitKeepsOk(w0, 0, w1);
    var early := wheel.Advance(gap);
    k := 2 * configs[0].buckets;
    ghost var w2 := wheel.View();
    OneSlotOn(configs, w0, w1, early, w2);
    wheel.Add(k);
    ghost var w3 := wheel.View();
    AddKeepsOk(w2, k, w3);
    ready := wheel.Advance((k + 1) * gap);
    SlotBaseExact(gap, k + 1);
    LongJumpMisses(w2, k, w3, (k + 1) * gap, ready, wheel.View());
  }

  lemma InitKeepsOk(w: Wheel, now: int, w': Wheel)
    requires Ok(w) && InitSpec(w, now, w')
    ensures Ok(w') && w'.initialized && w'.clock.gap == w.clock.gap
  {
  }

  lemma AddKeepsOk(w: Wheel, k: int, w': Wheel)
    requires Ok(w) && AddSpec(w, k, w')
    ensures Ok(w') && w'.clock.gap == w.clock.gap
  {
  }

  /** A new wheel one slot after its start. */
  lemma OneSlotOn(configs: seq<LevelConfig>, w0: Wheel, w1: Wheel, early: seq<int>, w2: Wheel)
    requires Ok(w0) && Shape(w0.levels) == ShapeOf(configs) && AlignedConfigs(w0.clock.gap, configs)
    requires configs[0].buckets >= 2 && configs[1].buckets >= 2
    requires !w0.initialized && InitSpec(w0, 0, w1) && AdvanceSpec(w1, w0.clock.gap, early, w2)
    ensures Ok(w2) && w2.initialized && w2.clock.gap == w0.clock.gap && Held(w2) == {}
    ensures w2.levels[1].bucketCount >= 2
    ensures var g, e, gap := w2.levels[1].granularity, Elapsed(w2) % w2.levels[1].granularity, w2.clock.gap;
      e > 0 && (2 * configs[0].buckets) * gap == w2.base + 2 * g - e
  {
    hide Ok, Held, Aligned;
    var gap := w0.clock.gap;
    SlotBaseExact(gap, 1);
    SlotBaseExact(gap, 0);
    AdvanceLosesNothing(w1, gap, early, w2);
    assert Shape(w2.levels)[1] == ShapeOf(configs)[1];
    assert Follows(configs, 0);
    var g := w2.levels[1].granularity;
    ScaleLe(2, configs[0].buckets, gap);
    DivisionUnique(gap, g, 0, gap);
  }

  /** A run in which `PeekMin` misses the earliest key: the key behind it was added
      later, in mid-rotation, and sits in a bucket that comes first. */
  method PeekMinMissesRun(gap: int, configs: seq<LevelConfig>)
    returns (wheel: HierarchicalTimingWheel, k: int, minTime: int)
    requires AlignedConfigs(gap, configs) && configs[0].buckets >= 3 && configs[1].buckets >= 3
    ensures wheel.Valid() && Unique(wheel.View()) && wheel.slotGap == gap
    ensures minTime == (k + 1) * gap && k in Held(wheel.View())
  {
    hide Ok, Held, AddSpec, AdvanceSpec, InitSpec, Aligned, Unique, Visible;
    wheel := new HierarchicalTimingWheel(gap, configs);
    ghost var w0 := wheel.View();
    k := 2 * configs[0].buckets;
    wheel.Init(0);
    ghost var w1 := wheel.View();
    InitKeepsOk(w0, 0, w1);
    wheel.Add(k);
    ghost var w2 := wheel.View();
    AddKeepsOk(w1, k, w2);
    var early := wheel.Advance(2 * gap);
    ghost var w3 := wheel.View();
    KeyWaits(configs, w0, w1, k, w2, 2, early, w3);
    wheel.Add(k + 1);
    KeyHides(configs, w3, k, wheel.View());
    minTime := wheel.PeekMin();
  }

  /** A run in which a key that was added twice survives its removal: the base has
      moved between, and the two copies sit in different buckets. */
  method SecondCopyRun(gap: int, configs: seq<LevelConfig>)
    returns (wheel: HierarchicalTimingWheel, k: int)
    requires AlignedConfigs(gap, configs) && configs[0].buckets >= 3 && configs[1].buckets >= 3
    ensures wheel.Valid() && wheel.slotGap == gap && k in Held(wheel.View())
    ensures k !in wheel.slotLocation
  {
    hide Ok, Held, AddSpec, AdvanceSpec, InitSpec, RemoveSpec, Aligned, Unique;
    wheel := new HierarchicalTimingWheel(gap, configs);
    ghost var w0 := wheel.View();
    k := 2 * configs[0].buckets;
    wheel.Init(0);
    ghost var w1 := wheel.View();
    InitKeepsOk(w0, 0, w1);
    wheel.Add(k);
    ghost var w2 := wheel.View();
    AddKeepsOk(w1, k, w2);
    assert 1 * gap == gap;
    var early := wheel.Advance(gap);
    ghost var w3 := wheel.View();
    KeyWaits(configs, w0, w1, k, w2, 1, early, w3);
    wheel.Add(k);
    ghost var w4 := wheel.View();
    AddKeepsOk(w3, k, w4);
    wheel.Remove(k);
    KeyStrays(configs, w3, k, w4);
    SecondCopyIff(w3, k, w4, wheel.View());
    RemoveUnindexes(w4, k, wheel.View());
  }

  lemma RemoveUnindexes(w: Wheel, k: int, w': Wheel)
    requires Ok(w) && RemoveSpec(w, k, w')
    ensures Ok(w') && k !in w'.slotLocation
  {
  }

  /** The wheel has the configured shape, and its origin is zero. */
  ghost predicate Started(configs: seq<LevelConfig>, w: Wheel) {
    && Ok(w) && Unique(w) && w.initialized && w.clock.origin == 0
    && Shape(w.levels) == ShapeOf(configs) && AlignedConfigs(w.clock.gap, configs)
    && configs[0].buckets >= 3 && configs[1].buckets >= 3
  }

  /** Granularities and bucket counts in terms of level 0, as far as these runs need them. */
  lemma StartedShape(configs: seq<LevelConfig>, w: Wheel)
    requires Started(configs, w)
    ensures Aligned(w.clock.gap, w.levels)
    ensures w.levels[0].bucketCount == configs[0].buckets >= 3 && w.levels[0].granularity == w.clock.gap >= 1
    ensures w.levels[1].bucketCount == configs[1].buckets >= 3
    ensures w.levels[1].granularity == w.clock.gap * configs[0].buckets >= 3 * w.clock.gap
    ensures forall i :: 2 <= i < |w.levels| ==> w.levels[i].granularity >= 3 * w.levels[1].granularity
  {
    assert Shape(w.levels)[0] == ShapeOf(configs)[0] && Shape(w.levels)[1] == ShapeOf(configs)[1];
    assert Follows(configs, 0);
    ScaleLe(3, configs[0].buckets, w.clock.gap);
    forall i | 2 <= i < |w.levels| ensures w.levels[i].granularity >= 3 * w.levels[1].granularity {
      SpanWithin(w.clock.gap, w.levels, 1, i);
      ScaleLe(3, w.levels[1].bucketCount, w.levels[1].granularity);
    }
  }

  lemma StartedOk(configs: seq<LevelConfig>, w: Wheel)
    requires Started(configs, w)
    ensures Ok(w) && Unique(w) && w.initialized && w.clock.origin == 0 && |w.levels| >= 2 && |configs| >= 2
  {
  }

  lemma Digit(w: Wheel, i: int)
    requires Ok(w) && w.initialized && 0 <= i < |w.levels|
    ensures 0 <= Elapsed(w) && WellFormed(w.levels[i])
    ensures TicksAt(w.levels, Elapsed(w))[i] == Elapsed(w) / w.levels[i].granularity
    ensures w.levels[i].current == (Elapsed(w) / w.levels[i].granularity) % w.levels[i].bucketCount
  {
  }

  lemma InitStarts(configs: seq<LevelConfig>, w: Wheel, w': Wheel)
    requires Ok(w) && Shape(w.levels) == ShapeOf(configs) && AlignedConfigs(w.clock.gap, configs)
    requires configs[0].buckets >= 3 && configs[1].buckets >= 3
    requires !w.initialized && InitSpec(w, 0, w')
    ensures Started(configs, w') && w'.base == 0 && Held(w') == {} && w'.clock.gap == w.clock.gap
  {
    hide Ok, Held, Unique, Shape, ShapeOf;
    SlotBaseExact(w.clock.gap, 0);
  }

  lemma AddStarts(configs: seq<LevelConfig>, w: Wheel, k: int, w': Wheel)
    requires Started(configs, w) && AddSpec(w, k, w') && k !in Held(w)
    ensures Started(configs, w') && w'.base == w.base && w'.clock == w.clock && Held(w') == Held(w) + {k}
  {
    hide Ok, Held, Unique, Shape, ShapeOf, Placed;
  }

  lemma AdvanceStarts(configs: seq<LevelConfig>, w: Wheel, now: int, ready: seq<int>, w': Wheel)
    requires Started(configs, w) && AdvanceSpec(w, now, ready, w') && w.base < SlotBase(w.clock.gap, now)
    ensures Started(configs, w') && w'.base == SlotBase(w.clock.gap, now) && w'.clock == w.clock
    ensures Held(w') + Elements(ready) == Held(w) && forall k :: k in ready ==> k * w.clock.gap < w'.base
    ensures forall k :: k in PromptKeys(w) && w'.base <= k * w.clock.gap ==> k in PromptKeys(w')
  {
    hide Ok, Held, Unique, Shape, ShapeOf, PromptKeys, LateKeys;
    AdvanceLosesNothing(w, now, ready, w');
  }

  lemma CopyIsIndexed(w: Wheel, s: SlotLoc, k: int)
    requires Unique(w) && Holds(w.levels, s, k)
    ensures k in w.slotLocation && w.slotLocation[k] == s
  {
  }

  /** Added at the start, a key two turns ahead waits in the second bucket of level 1. */
  lemma KeyWaits(configs: seq<LevelConfig>, w0: Wheel, w1: Wheel, k: int, w2: Wheel, e: int, early: seq<int>, w3: Wheel)
    requires Ok(w0) && Shape(w0.levels) == ShapeOf(configs) && AlignedConfigs(w0.clock.gap, configs)
    requires configs[0].buckets >= 3 && configs[1].buckets >= 3 && k == 2 * configs[0].buckets
    requires !w0.initialized && InitSpec(w0, 0, w1) && Ok(w1) && AddSpec(w1, k, w2)
    requires 1 <= e <= 2 && Ok(w2) && AdvanceSpec(w2, e * w0.clock.gap, early, w3)
    ensures Started(configs, w3) && w3.base == e * w3.clock.gap && w3.clock.gap == w0.clock.gap
    ensures Held(w3) == {k} && k in w3.slotLocation && w3.slotLocation[k] == SlotLoc(1, 1)
  {
    hide Ok, Held, InitSpec, AddSpec, AdvanceSpec, AlignedConfigs, Shape, ShapeOf, PromptKeys, SlotBase;
    InitStarts(configs, w0, w1);
    StartedOk(configs, w1);
    AddStarts(configs, w1, k, w2);
    StartedShape(configs, w1);
    var gap := w1.clock.gap;
    SlotBaseExact(gap, e);
    ScaleLe(1, e, gap);
    ScaleLe(e, 2, gap);
    AdvanceStarts(configs, w2, e * gap, early, w3);
    KeyIsPrompt(configs, w1, k, w2);
    TwoTurns(gap, k / 2, k);
    assert k !in early;
    KeyStaysPut(configs, w3, k, e);
  }

  lemma TwoTurns(gap: int, n0: int, k: int)
    requires gap >= 1 && n0 >= 3 && k == 2 * n0
    ensures k * gap == 2 * (gap * n0) && 6 * gap <= k * gap
  {
    ScaleLe(6, k, gap);
  }

  /** A key `q` bucket widths of level 1 and `r` seconds ahead goes to bucket `q - 1`
      of level 1, as long as that level has not moved. */
  lemma PlacedWhere(configs: seq<LevelConfig>, w: Wheel, k: int, s: SlotLoc, levels': seq<Level>, q: int, r: int)
    requires Started(configs, w) && |w.levels| >= 2 && 1 <= q <= 2 && Elapsed(w) < w.levels[1].granularity
    requires 0 <= r < w.levels[1].granularity
    requires Delta(w.clock, Elapsed(w), k) == q * w.levels[1].granularity + r
    requires Placed(w.levels, Delta(w.clock, Elapsed(w), k), k, s, levels')
    ensures s == SlotLoc(1, q - 1)
  {
    hide Started, Ok, Aligned, Unique;
    StartedOk(configs, w);
    StartedShape(configs, w);
    Digit(w, 1);
    var g, n1, delta := w.levels[1].granularity, w.levels[1].bucketCount, Delta(w.clock, Elapsed(w), k);
    ScaleLe(3, n1, g);
    ScaleLe(1, q, g);
    ScaleLe(q, 2, g);
    ChosenUnique(w.clock.gap, w.levels, delta, 1, s.level);
    DivisionUnique(delta, g, q, r);
    DivisionUnique(Elapsed(w), g, 0, Elapsed(w));
    DivisionUnique(0, n1, 0, 0);
    DivisionUnique(q - 1, n1, 0, q - 1);
  }

  lemma KeyIsPrompt(configs: seq<LevelConfig>, w1: Wheel, k: int, w2: Wheel)
    requires Started(configs, w1) && Started(configs, w2) && Ok(w1) && AddSpec(w1, k, w2) && w2.clock == w1.clock
    requires w1.base == w2.base == 0 && |configs| >= 2 && k == 2 * configs[0].buckets
    ensures Ok(w2) && k in PromptKeys(w2)
  {
    hide Started, Ok, Held, Unique, AlignedConfigs, Aligned, PromptKeys, LateCopy, Placed, TargetBucket;
    StartedOk(configs, w1);
    StartedOk(configs, w2);
    StartedShape(configs, w1);
    StartedShape(configs, w2);
    TwoTurns(w1.clock.gap, configs[0].buckets, k);
    var s := w2.slotLocation[k];
    PlacedWhere(configs, w1, k, s, w2.levels, 2, 0);
    PlacedHolds(w1.levels, Delta(w2.clock, Elapsed(w2), k), k, s, w2.levels);
    FirstTickIsPrompt(w2, w2.levels[1].granularity, k);
  }

  lemma PlacedHolds(levels: seq<Level>, delta: int, k: int, s: SlotLoc, levels': seq<Level>)
    requires Placed(levels, delta, k, s, levels')
    ensures Holds(levels', s, k)
  {
  }

  lemma FirstTickIsPrompt(w: Wheel, g: int, k: int)
    requires Ok(w) && w.initialized && Elapsed(w) == 0 == w.clock.origin && |w.levels| >= 2
    requires g == w.levels[1].granularity >= 1 && w.levels[1].bucketCount >= 3
    requires Holds(w.levels, SlotLoc(1, 1), k) && k * w.clock.gap == 2 * g
    ensures k in PromptKeys(w)
  {
    hide Ok, PromptKeys, LateCopy, Holds, BucketAt;
    var s, n1 := SlotLoc(1, 1), w.levels[1].bucketCount;
    var m := CopyTick(w, s, k);
    Digit(w, 1);
    DivisionUnique(0, g, 0, 0);
    DivisionUnique(m, n1, 0, m);
    assert PromptAt(w.clock, false, g, 1, k);
    PromptOrLate(w, k);
  }

  lemma KeyStaysPut(configs: seq<LevelConfig>, w: Wheel, k: int, e: int)
    requires Started(configs, w) && Ok(w) && w.base == e * w.clock.gap && 1 <= e <= 2 && |configs| >= 2 && k == 2 * configs[0].buckets
    requires k in PromptKeys(w)
    ensures k in w.slotLocation && w.slotLocation[k] == SlotLoc(1, 1)
  {
    hide Started, Ok, Unique, PromptKeys, LateCopy, Holds;
    StartedOk(configs, w);
    PromptOrLate(w, k);
    var s :| Holds(w.levels, s, k) && !LateCopy(w, s, k);
    PromptCopyAt(configs, w, s, k, e);
    CopyIsIndexed(w, s, k);
  }

  lemma PromptCopyAt(configs: seq<LevelConfig>, w: Wheel, s: SlotLoc, k: int, e: int)
    requires Started(configs, w) && Ok(w) && w.base == e * w.clock.gap && 1 <= e <= 2 && |configs| >= 2 && k == 2 * configs[0].buckets
    requires Holds(w.levels, s, k) && !LateCopy(w, s, k)
    ensures s == SlotLoc(1, 1)
  {
    hide Started, Ok, Aligned, LateCopy, Holds, BucketAt, Timely, PromptAt, TicksAt, CascadeTime, WellFormed;
    StartedOk(configs, w);
    StartedShape(configs, w);
    HoldsWhere(w.levels, s, k);
    TickFacts(w, s.level);
    var m := CopyTick(w, s, k);
    var g, tick := w.levels[s.level].granularity, TicksAt(w.levels, Elapsed(w))[s.level];
    OnlyTick(w.clock, configs[0].buckets, s.level, w.levels[1].granularity, g, tick, m, k, e);
    DivisionUnique(1, w.levels[1].bucketCount, 0, 1);
  }

  lemma TickFacts(w: Wheel, i: int)
    requires Ok(w) && w.initialized && 0 <= i < |w.levels|
    ensures WellFormed(w.levels[i]) && |TicksAt(w.levels, Elapsed(w))| == |w.levels| && 0 <= TicksAt(w.levels, Elapsed(w))[i]
    ensures i == 0 ==> TicksAt(w.levels, Elapsed(w))[i] * w.clock.gap == Elapsed(w)
  {
    GroundTickExact(w);
  }

  lemma HoldsWhere(levels: seq<Level>, s: SlotLoc, k: int)
    requires Holds(levels, s, k)
    ensures 0 <= s.level < |levels|
  {
  }

  lemma OnlyTick(c: Clock, n0: int, i: int, g1: int, g: int, tick: int, m: int, k: int, e: int)
    requires c.gap >= 1 && c.origin == 0 && n0 >= 3 && g1 == c.gap * n0 && k == 2 * n0
    requires 0 <= i && (i == 0 ==> g == c.gap && tick * c.gap == e * c.gap && 1 <= e <= 2 && m < tick + n0)
    requires (i == 1 ==> g == g1) && (i >= 2 ==> g >= 3 * g1)
    requires 0 <= tick <= m && Timely(c, i == 0, g, tick, m, k) && PromptAt(c, i == 0, g, m, k)
    ensures i == 1 && m == 1
  {
    TwoTurns(c.gap, n0, k);
    if i == 0 {
      QuotientUnique(c.gap, tick, 0, e, 0);
      ScaleLe(m, k - 1, c.gap);
    } else if i >= 2 {
      ScaleLe(1, m + 1, g);
    } else if m >= 2 {
      ScaleLe(3, m + 1, g);
    }
  }

  /** One slot later the key would go into the first bucket. */
  lemma KeyStrays(configs: seq<LevelConfig>, w: Wheel, k: int, w': Wheel)
    requires Started(configs, w) && Ok(w) && w.base == 1 * w.clock.gap && |configs| >= 2 && k == 2 * configs[0].buckets
    requires Held(w) == {k} && k in w.slotLocation && w.slotLocation[k] == SlotLoc(1, 1) && AddSpec(w, k, w')
    ensures Unique(w) && Strays(w, k)
  {
    hide Started, Ok, Held, Unique, AlignedConfigs, Aligned, Placed, TargetBucket, Shape, ShapeOf, Fits;
    StartedOk(configs, w);
    StartedShape(configs, w);
    TwoTurns(w.clock.gap, configs[0].buckets, k);
    var gap, g := w.clock.gap, w.levels[1].granularity;
    PlacedWhere(configs, w, k, w'.slotLocation[k], w'.levels, 1, g - gap);
    FitsOnce(w, k, w'.slotLocation[k], w');
  }

  /** Added two slots later, its successor goes into the first bucket, and hides it. */
  lemma KeyHides(configs: seq<LevelConfig>, w: Wheel, k: int, w': Wheel)
    requires Started(configs, w) && Ok(w) && w.base == 2 * w.clock.gap && |configs| >= 2 && k == 2 * configs[0].buckets
    requires Held(w) == {k} && k in w.slotLocation && w.slotLocation[k] == SlotLoc(1, 1) && AddSpec(w, k + 1, w')
    ensures Ok(w') && Unique(w') && w'.initialized && w'.clock.gap == w.clock.gap
    ensures k in Held(w') && Visible(w') == {k + 1}
  {
    hide Started, Ok, Held, Unique, AlignedConfigs, Aligned, Placed, TargetBucket, Visible, Shape, ShapeOf;
    StartedOk(configs, w);
    StartedShape(configs, w);
    TwoTurns(w.clock.gap, configs[0].buckets, k);
    var gap, g := w.clock.gap, w.levels[1].granularity;
    assert (k + 1) * gap == k * gap + gap;
    PlacedWhere(configs, w, k + 1, w'.slotLocation[k + 1], w'.levels, 1, g - gap);
    AddStarts(configs, w, k + 1, w');
    StartedOk(configs, w');
    StartedShape(configs, w');
    Digit(w', 1);
    DivisionUnique(2 * gap, g, 0, 2 * gap);
    DivisionUnique(0, w'.levels[1].bucketCount, 0, 0);
    OnlyVisible(w', k);
  }

  lemma OnlyVisible(w: Wheel, k: int)
    requires Ok(w) && Unique(w) && w.initialized && Held(w) == {k, k + 1}
    requires w.levels[1].current == 0
    requires k in w.slotLocation && w.slotLocation[k] == SlotLoc(1, 1)
    requires k + 1 in w.slotLocation && w.slotLocation[k + 1] == SlotLoc(1, 0)
    ensures Visible(w) == {k + 1}
  {
    FrontOfLevelOne(w, k + 1);
    forall x | x in Visible(w) ensures x == k + 1 {
      NotInOverflow(w, k);
      VisibleIs(w, k, x);
    }
  }

  lemma NotInOverflow(w: Wheel, k: int)
    requires Ok(w) && Unique(w) && Held(w) == {k, k + 1} && k in w.slotLocation && k + 1 in w.slotLocation
    ensures w.overflow == {}
  {
    hide Ok, BucketKeys;
    assert w.overflow <= Held(w);
  }

  lemma VisibleIs(w: Wheel, k: int, x: int)
    requires Ok(w) && Unique(w) && w.initialized && Held(w) == {k, k + 1} && w.overflow == {} && x in Visible(w)
    requires k in w.slotLocation && w.slotLocation[k] == SlotLoc(1, 1)
    requires WellFormed(w.levels[1]) && FirstFrom(w.levels[1], 0) == w.levels[1].buckets[0]
    ensures x == k + 1
  {
    var i :| 0 <= i < |w.levels| && x in FirstFrom(w.levels[i], 0);
    assert WellFormed(w.levels[i]);
    hide Ok, Held, Unique, Visible, FirstFrom;
    VisibleCopy(w, i, x);
    if x == k {
      assert Holds(w.levels, SlotLoc(1, 0), k);
      CopyIsIndexed(w, SlotLoc(1, 0), k);
    }
  }

  /** A visible copy is the indexed one. */
  lemma VisibleCopy(w: Wheel, i: int, x: int)
    requires Ok(w) && Unique(w) && w.initialized && 0 <= i < |w.levels| && WellFormed(w.levels[i]) && x in FirstFrom(w.levels[i], 0)
    ensures x in Held(w) && x in w.slotLocation && w.slotLocation[x].level == i
    ensures 0 <= w.slotLocation[x].bucket < w.levels[i].bucketCount
    ensures x in w.levels[i].buckets[w.slotLocation[x].bucket]
  {
    FirstIsHeld(w.levels[i], 0);
    var j :| 0 <= j < w.levels[i].bucketCount && x in w.levels[i].buckets[j];
    CopyIsIndexed(w, SlotLoc(i, j), x);
  }

  lemma FrontOfLevelOne(w: Wheel, x: int)
    requires Ok(w) && w.levels[1].current == 0 && x in w.slotLocation && w.slotLocation[x] == SlotLoc(1, 0)
    ensures WellFormed(w.levels[1]) && FirstFrom(w.levels[1], 0) == w.levels[1].buckets[0] && x in w.levels[1].buckets[0]
    ensures x in Visible(w)
  {
    assert Holds(w.levels, SlotLoc(1, 0), x);
    DivisionUnique(0, w.levels[1].bucketCount, 0, 0);
  }
}
