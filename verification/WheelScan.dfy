/**
 Building, scanning and counting a timing wheel.
 */
module WheelScan {
  import opened Sequences
  import opened WheelLevels
  import opened WheelGeometry
  import opened WheelIndex
  import opened WheelSpec
  import opened WheelSteps

  // ---------------------------------------------------------------- configuration

  /** Granularity in seconds and number of buckets of one level. */
  datatype LevelConfig = LevelConfig(granularity: int, buckets: int)

  function ShapeOf(configs: seq<LevelConfig>): seq<(int, int)> {
    seq(|configs|, i requires 0 <= i < |configs| => (configs[i].granularity, configs[i].buckets))
  }

  ghost predicate AlignedConfigs(gap: int, configs: seq<LevelConfig>) {
    && gap >= 1
    && |configs| >= 2
    && configs[0].granularity == gap
    && (forall i :: 0 <= i < |configs| ==> configs[i].granularity >= 1 && configs[i].buckets >= 1)
    && (forall i :: 0 <= i < |configs| - 1 ==> Follows(configs, i))
  }

  predicate Follows(configs: seq<LevelConfig>, i: int)
    requires 0 <= i < |configs| - 1
  {
    configs[i + 1].granularity == configs[i].granularity * configs[i].buckets
  }

  function DefaultWheelConfigs(gap: int): (configs: seq<LevelConfig>)
    requires gap >= 1
    ensures AlignedConfigs(gap, configs)
  {
    [LevelConfig(gap, 360), LevelConfig(gap * 360, 24), LevelConfig(gap * 360 * 24, 365)]
  }

  /** With the default gap of ten seconds the default levels turn in an hour, a day
      and 365 days; with any gap the wheel reaches 360 + 8640 + 3153600 slots ahead. */
  lemma {:induction false} DefaultTurns(gap: int, levels: seq<Level>)
    requires gap >= 1 && Shape(levels) == ShapeOf(DefaultWheelConfigs(gap))
    ensures |levels| == 3 && levels[0].granularity == gap
    ensures Span(levels[0]) == 360 * gap && Span(levels[1]) == 8640 * gap && Span(levels[2]) == 3153600 * gap
    ensures Coverage(levels) == 3162600 * gap
    ensures gap == 10 ==> Span(levels[0]) == 3600 && Span(levels[1]) == 24 * 3600 && Span(levels[2]) == 365 * 24 * 3600
  {
    assert |Shape(levels)| == |levels|;
    assert Shape(levels)[0] == (gap, 360) && Shape(levels)[1] == (gap * 360, 24) && Shape(levels)[2] == (gap * 360 * 24, 365);
    var two, one := levels[..2], levels[..1];
    assert two[..1] == one && one[..0] == [] && levels[..|levels| - 1] == two;
    assert Coverage([]) == 0;
    assert Coverage(one) == Coverage(one[..0]) + Span(levels[0]);
    assert Coverage(two) == Coverage(two[..1]) + Span(levels[1]);
  }

  function EmptyLevelOf(c: LevelConfig): Level
    requires c.buckets >= 0
  {
    Level(c.granularity, c.buckets, seq(c.buckets, _ => {}), 0)
  }

  lemma NewLevels(gap: int, configs: seq<LevelConfig>, levels: seq<Level>)
    requires AlignedConfigs(gap, configs)
    requires |levels| == |configs| && forall i :: 0 <= i < |levels| ==> levels[i] == EmptyLevelOf(configs[i])
    ensures Aligned(gap, levels) && Shape(levels) == ShapeOf(configs)
    ensures forall i :: 0 <= i < |levels| ==> Idle(levels[i])
    ensures Indexed(levels, map[], {}) && Single(levels, map[], {}, {})
  {
    forall i | 0 <= i < |levels| - 1 ensures Nested(levels, i) {
      assert Follows(configs, i);
    }
    forall i | 0 <= i < |levels| ensures Idle(levels[i]) {
    }
    NothingHeld(levels);
  }

  lemma NothingHeld(levels: seq<Level>)
    requires forall i :: 0 <= i < |levels| ==> Idle(levels[i])
    ensures forall s, k :: !Holds(levels, s, k)
  {
    forall s, k ensures !Holds(levels, s, k) {
      if 0 <= s.level < |levels| {
        assert Idle(levels[s.level]);
      }
    }
  }

  function Cleared(l: Level): Level {
    l.(buckets := seq(|l.buckets|, _ => {}), current := 0)
  }

  lemma ClearedLevels(gap: int, levels: seq<Level>, levels': seq<Level>)
    requires Aligned(gap, levels)
    requires |levels'| == |levels| && forall i :: 0 <= i < |levels| ==> levels'[i] == Cleared(levels[i])
    ensures Aligned(gap, levels') && Shape(levels') == Shape(levels)
    ensures forall i :: 0 <= i < |levels'| ==> Idle(levels'[i])
    ensures Indexed(levels', map[], {}) && Single(levels', map[], {}, {})
  {
    forall i | 0 <= i < |levels| - 1 ensures Nested(levels', i) {
      assert Nested(levels, i);
    }
    forall i | 0 <= i < |levels'| ensures Idle(levels'[i]) {
    }
    NothingHeld(levels');
  }

  // ---------------------------------------------------------------- scanning

  ghost function DueBy(gap: int, keys: set<int>, now: int): set<int> {
    set k | k in keys && k * gap <= now
  }

  /** Keys in the buckets a scan visits before bucket `j` of level `i`. */
  ghost function HeldBefore(levels: seq<Level>, i: int, j: int): set<int>
    requires 0 <= i <= |levels|
    requires i < |levels| ==> 0 <= j <= |levels[i].buckets|
  {
    (set x, y, k | 0 <= x < i && 0 <= y < |levels[x].buckets| && k in levels[x].buckets[y] :: k)
    + (if i < |levels| then set y, k | 0 <= y < j && k in levels[i].buckets[y] :: k else {})
  }

  lemma HeldNone(levels: seq<Level>)
    ensures HeldBefore(levels, 0, 0) == {}
  {
  }

  lemma HeldNext(levels: seq<Level>, i: int, j: int)
    requires 0 <= i < |levels| && 0 <= j < |levels[i].buckets|
    ensures HeldBefore(levels, i, j + 1) == HeldBefore(levels, i, j) + levels[i].buckets[j]
  {
    forall k ensures k in HeldBefore(levels, i, j + 1) <==> k in HeldBefore(levels, i, j) + levels[i].buckets[j] {
    }
  }

  lemma HeldNextLevel(levels: seq<Level>, i: int)
    requires 0 <= i < |levels|
    ensures HeldBefore(levels, i + 1, 0) == HeldBefore(levels, i, |levels[i].buckets|)
  {
  }

  lemma AllHeld(levels: seq<Level>)
    requires forall i :: 0 <= i < |levels| ==> WellFormed(levels[i])
    ensures HeldBefore(levels, |levels|, 0) == BucketKeys(levels)
  {
    forall k ensures k in HeldBefore(levels, |levels|, 0) <==> k in BucketKeys(levels) {
      if k in HeldBefore(levels, |levels|, 0) {
        var x, y :| 0 <= x < |levels| && 0 <= y < |levels[x].buckets| && k in levels[x].buckets[y];
        assert k in LevelKeys(levels[x]);
      }
    }
  }

  lemma BucketsDisjoint(w: Wheel, i: int, j: int)
    requires Unique(w) && 0 <= i < |w.levels| && 0 <= j < |w.levels[i].buckets|
    ensures HeldBefore(w.levels, i, j) !! w.levels[i].buckets[j]
  {
    forall k | k in HeldBefore(w.levels, i, j) ensures k !in w.levels[i].buckets[j] {
      if k in w.levels[i].buckets[j] {
        assert Holds(w.levels, SlotLoc(i, j), k);
        if x, y :| 0 <= x < i && 0 <= y < |w.levels[x].buckets| && k in w.levels[x].buckets[y] {
          assert Holds(w.levels, SlotLoc(x, y), k);
        } else {
          var y :| 0 <= y < j && k in w.levels[i].buckets[y];
          assert Holds(w.levels, SlotLoc(i, y), k);
        }
      }
    }
  }

  lemma OverflowDisjoint(w: Wheel)
    requires Unique(w) && Aligned(w.clock.gap, w.levels)
    ensures BucketKeys(w.levels) !! w.overflow
  {
    forall k | k in BucketKeys(w.levels) ensures k !in w.overflow {
      KeysAreHeld(w.levels, k);
    }
  }

  lemma JoinDistinct(a: seq<int>, b: seq<int>)
    requires Distinct(a) && Distinct(b) && Elements(a) !! Elements(b)
    ensures Distinct(a + b)
  {
    forall i, j | 0 <= i < |a| && 0 <= j < |b| ensures a[i] != b[j] {
      assert a[i] in Elements(a) && b[j] in Elements(b);
    }
  }

  // ---------------------------------------------------------------- counting

  function LevelCopies(l: Level, j: int): int
    requires 0 <= j <= |l.buckets|
  {
    if j == 0 then 0 else LevelCopies(l, j - 1) + |l.buckets[j - 1]|
  }

  function Copies(levels: seq<Level>, i: int): int
    requires 0 <= i <= |levels|
  {
    if i == 0 then 0 else Copies(levels, i - 1) + LevelCopies(levels[i - 1], |levels[i - 1].buckets|)
  }

  lemma {:induction false} LevelCount(w: Wheel, i: int, j: int)
    requires Unique(w) && 0 <= i < |w.levels| && 0 <= j <= |w.levels[i].buckets|
    requires |HeldBefore(w.levels, i, 0)| == Copies(w.levels, i)
    ensures |HeldBefore(w.levels, i, j)| == Copies(w.levels, i) + LevelCopies(w.levels[i], j)
    decreases j
  {
    hide HeldBefore, Single, Holds;
    if j > 0 {
      LevelCount(w, i, j - 1);
      HeldNext(w.levels, i, j - 1);
      BucketsDisjoint(w, i, j - 1);
    }
  }

  lemma {:induction false} WheelCount(w: Wheel, i: int)
    requires Unique(w) && 0 <= i <= |w.levels|
    ensures |HeldBefore(w.levels, i, 0)| == Copies(w.levels, i)
  {
    hide HeldBefore, Single, Holds;
    if i == 0 {
      HeldNone(w.levels);
    } else {
      WheelCount(w, i - 1);
      LevelCount(w, i - 1, |w.levels[i - 1].buckets|);
      HeldNextLevel(w.levels, i - 1);
    }
  }

  lemma UniqueSize(w: Wheel)
    requires Ok(w) && Unique(w)
    ensures Copies(w.levels, |w.levels|) == |w.slotLocation|
    ensures |Held(w)| == |w.slotLocation| + |w.overflow|
  {
    WheelCount(w, |w.levels|);
    AllHeld(w.levels);
    forall k ensures k in BucketKeys(w.levels) <==> k in w.slotLocation.Keys {
      KeysAreHeld(w.levels, k);
    }
    assert BucketKeys(w.levels) == w.slotLocation.Keys;
    OverflowDisjoint(w);
  }

  // ---------------------------------------------------------------- earliest key

  /** The first non-empty bucket of a level, counted from its pointer. */
  function FirstFrom(l: Level, offset: int): set<int>
    requires WellFormed(l) && 0 <= offset
    decreases l.bucketCount - offset
  {
    if offset >= l.bucketCount then {}
    else if l.buckets[(l.current + offset) % l.bucketCount] != {} then l.buckets[(l.current + offset) % l.bucketCount]
    else FirstFrom(l, offset + 1)
  }

  /** The keys `PeekMin` looks at: one bucket per level, and overflow. */
  ghost function Visible(w: Wheel): set<int>
    requires Ok(w)
  {
    (set i, k | 0 <= i < |w.levels| && k in FirstFrom(w.levels[i], 0) :: k) + w.overflow
  }

  ghost function VisibleBelow(levels: seq<Level>, n: int): set<int>
    requires 0 <= n <= |levels| && forall i :: 0 <= i < |levels| ==> WellFormed(levels[i])
  {
    set i, k | 0 <= i < n && k in FirstFrom(levels[i], 0) :: k
  }

  lemma VisibleNext(levels: seq<Level>, n: int)
    requires 0 <= n < |levels| && forall i :: 0 <= i < |levels| ==> WellFormed(levels[i])
    ensures VisibleBelow(levels, n + 1) == VisibleBelow(levels, n) + FirstFrom(levels[n], 0)
  {
    forall k ensures k in VisibleBelow(levels, n + 1) <==> k in VisibleBelow(levels, n) + FirstFrom(levels[n], 0) {
    }
  }

  ghost predicate NonNegative(keys: set<int>) {
    forall k :: k in keys ==> 0 <= k
  }

  lemma VisibleParts(w: Wheel)
    requires Ok(w)
    ensures w.clock.gap >= 1 && forall i :: 0 <= i < |w.levels| ==> WellFormed(w.levels[i])
    ensures Visible(w) == VisibleBelow(w.levels, |w.levels|) + w.overflow
  {
  }

  /** One level of the search for the minimum. */
  lemma VisibleStep(w: Wheel, n: int)
    requires Ok(w) && 0 <= n < |w.levels| && forall i :: 0 <= i < |w.levels| ==> WellFormed(w.levels[i])
    ensures VisibleBelow(w.levels, n + 1) == VisibleBelow(w.levels, n) + FirstFrom(w.levels[n], 0)
    ensures NonNegative(Visible(w)) ==> NonNegative(VisibleBelow(w.levels, n) + FirstFrom(w.levels[n], 0))
  {
    hide Ok, FirstFrom;
    VisibleNext(w.levels, n);
    assert VisibleBelow(w.levels, n + 1) <= Visible(w);
  }

  lemma NothingBelow(gap: int, levels: seq<Level>)
    requires forall i :: 0 <= i < |levels| ==> WellFormed(levels[i])
    ensures Earliest(gap, VisibleBelow(levels, 0), -1)
  {
    assert VisibleBelow(levels, 0) == {};
  }

  lemma NothingVisible(w: Wheel)
    requires Ok(w) && !w.initialized
    ensures Visible(w) == {} && Earliest(w.clock.gap, Visible(w), -1)
  {
    VisibleWhenHeld(w);
    HeldSplit(w);
  }

  /** `time` is the earliest slot time among `keys`; -1 stands for none. */
  ghost predicate Earliest(gap: int, keys: set<int>, time: int) {
    if keys == {} then time == -1
    else (exists k :: k in keys && k * gap == time) && forall k :: k in keys ==> time <= k * gap
  }

  lemma EarliestStep(gap: int, keys: set<int>, time: int, k: int)
    requires gap >= 1 && Earliest(gap, keys, time) && 0 <= k && NonNegative(keys)
    ensures Earliest(gap, keys + {k}, if time == -1 || k * gap < time then k * gap else time)
  {
    ScaleLe(0, k, gap);
    var time' := if time == -1 || k * gap < time then k * gap else time;
    if keys == {} {
      assert keys + {k} == {k};
    } else {
      var x :| x in keys && x * gap == time;
      ScaleLe(0, x, gap);
      assert x in keys + {k} && k in keys + {k};
    }
  }

  lemma {:induction false} FirstIsHeld(l: Level, offset: int)
    requires WellFormed(l) && 0 <= offset
    ensures FirstFrom(l, offset) <= LevelKeys(l)
    decreases l.bucketCount - offset
  {
    if offset < l.bucketCount {
      var j := (l.current + offset) % l.bucketCount;
      if l.buckets[j] == {} {
        FirstIsHeld(l, offset + 1);
      } else {
        assert forall k :: k in l.buckets[j] ==> k in LevelKeys(l);
      }
    }
  }

  /** The bucket `FirstFrom` finds is not after any non-empty one. */
  lemma {:induction false} FirstFound(l: Level, tick: int, offset: int, m: int)
    returns (m': int)
    requires WellFormed(l) && 0 <= tick && l.current == tick % l.bucketCount
    requires 0 <= offset && tick + offset <= m < tick + l.bucketCount && BucketAt(l, m) != {}
    ensures tick + offset <= m' <= m && FirstFrom(l, offset) == BucketAt(l, m') != {}
    decreases l.bucketCount - offset
  {
    ModShift(tick, l.bucketCount, offset);
    if BucketAt(l, tick + offset) != {} {
      m' := tick + offset;
    } else {
      m' := FirstFound(l, tick, offset + 1, m);
    }
  }

  lemma LevelHasFirst(l: Level, tick: int, k: int) returns (m: int, m': int)
    requires WellFormed(l) && 0 <= tick && l.current == tick % l.bucketCount
    requires k in LevelKeys(l)
    ensures tick <= m' <= m < tick + l.bucketCount && k in BucketAt(l, m)
    ensures FirstFrom(l, 0) == BucketAt(l, m') != {}
  {
    var j :| 0 <= j < l.bucketCount && k in l.buckets[j];
    m := TickOf(j, l.bucketCount, tick);
    m' := FirstFound(l, tick, 0, m);
  }

  /** Something is visible whenever something is held. */
  lemma VisibleWhenHeld(w: Wheel)
    requires Ok(w)
    ensures Visible(w) <= Held(w)
    ensures Visible(w) == {} <==> Held(w) == {}
  {
    forall k | k in Visible(w) && k !in w.overflow ensures k in BucketKeys(w.levels) {
      var i :| 0 <= i < |w.levels| && k in FirstFrom(w.levels[i], 0);
      FirstIsHeld(w.levels[i], 0);
    }
    forall k | k in Held(w) && k !in w.overflow ensures Visible(w) != {} {
      var i :| 0 <= i < |w.levels| && k in LevelKeys(w.levels[i]);
      var l := w.levels[i];
      var m, m' := LevelHasFirst(l, l.current, k) by {
        DivisionUnique(l.current, l.bucketCount, 0, l.current);
      }
      Inhabited(BucketAt(l, m'));
      var k' :| k' in BucketAt(l, m');
      assert k' in FirstFrom(l, 0);
      assert k' in Visible(w);
    }
    assert w.overflow <= Visible(w);
    Inhabited(Held(w));
  }

  lemma Inhabited(keys: set<int>)
    ensures keys == {} || exists k :: k in keys
  {
    if forall k :: k !in keys {
      assert keys == {};
    }
  }

  /** Time of the next cascade of level 1. */
  function NextCascade(w: Wheel): int
    requires |w.levels| >= 1
  {
    w.base + (w.levels[0].bucketCount - w.levels[0].current) * w.clock.gap
  }
}
