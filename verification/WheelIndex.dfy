/**
 The reverse index of a timing wheel (`slotLocation`), the progress of the level
 pointers through a cascade, and the reach of all levels together.
 */
module WheelIndex {
  import opened WheelLevels
  import opened WheelGeometry

  // ---------------------------------------------------------------- reverse index

  ghost predicate Holds(levels: seq<Level>, s: SlotLoc, k: int) {
    && 0 <= s.level < |levels|
    && 0 <= s.bucket < |levels[s.level].buckets|
    && k in levels[s.level].buckets[s.bucket]
  }

  /** Every index entry outside `moving` points at a bucket that holds its key. */
  ghost predicate Indexed(levels: seq<Level>, loc: map<int, SlotLoc>, moving: set<int>) {
    forall k :: k in loc && k !in moving ==> Holds(levels, loc[k], k)
  }

  /** No key is held twice: a bucket holds only keys indexed there, overflow only
      keys that are not indexed, and the keys in `moving` are held nowhere. */
  ghost predicate Single(levels: seq<Level>, loc: map<int, SlotLoc>, overflow: set<int>, moving: set<int>) {
    && (forall s, k :: Holds(levels, s, k) ==> k !in moving && k in loc && loc[k] == s)
    && overflow !! loc.Keys
    && overflow !! moving
  }

  lemma PutIndex(levels: seq<Level>, loc: map<int, SlotLoc>, overflow: set<int>, moving: set<int>, i: int, j: int, k: int)
    requires 0 <= i < |levels| && WellFormed(levels[i]) && 0 <= j < levels[i].bucketCount
    requires Indexed(levels, loc, moving)
    ensures Indexed(Put(levels, i, j, k), loc[k := SlotLoc(i, j)], moving - {k})
    ensures Single(levels, loc, overflow, moving) && k !in overflow && (k in moving || k !in loc) ==>
              Single(Put(levels, i, j, k), loc[k := SlotLoc(i, j)], overflow, moving - {k})
  {
    var levels', loc' := Put(levels, i, j, k), loc[k := SlotLoc(i, j)];
    forall s, x ensures Holds(levels', s, x) <==> Holds(levels, s, x) || (s == SlotLoc(i, j) && x == k) {
    }
  }

  lemma SingleLess(levels: seq<Level>, loc: map<int, SlotLoc>, overflow: set<int>, k: int)
    requires k in overflow && Single(levels, loc, overflow, {})
    ensures k !in loc && Single(levels, loc, overflow - {k}, {})
  {
  }

  lemma EmptyIndex(levels: seq<Level>, loc: map<int, SlotLoc>, overflow: set<int>, i: int)
    requires 0 <= i < |levels| && WellFormed(levels[i])
    requires Indexed(levels, loc, {})
    ensures var levels' := levels[i := Empty(levels[i])]; var out := levels[i].buckets[levels[i].current];
      && Indexed(levels', loc, out)
      && Indexed(levels', loc - out, {})
      && (Single(levels, loc, overflow, {}) ==> Single(levels', loc, overflow, out) && Single(levels', loc - out, overflow, {}))
  {
    var levels', out := levels[i := Empty(levels[i])], levels[i].buckets[levels[i].current];
    var here := SlotLoc(i, levels[i].current);
    forall s, x ensures Holds(levels', s, x) <==> Holds(levels, s, x) && s != here {
    }
    forall k | k in loc && k !in out ensures Holds(levels', loc[k], k) {
      assert Holds(levels, loc[k], k);
    }
    if Single(levels, loc, overflow, {}) {
      forall k | k in out ensures k in loc && loc[k] == here {
        assert Holds(levels, here, k);
      }
    }
  }

  lemma ParkIndex(levels: seq<Level>, loc: map<int, SlotLoc>, overflow: set<int>, moving: set<int>, k: int)
    requires Indexed(levels, loc, moving) && k in moving
    ensures Indexed(levels, loc - {k}, moving - {k})
    ensures Single(levels, loc, overflow, moving) ==> Single(levels, loc - {k}, overflow + {k}, moving - {k})
  {
  }

  lemma TurnIndex(levels: seq<Level>, loc: map<int, SlotLoc>, overflow: set<int>, i: int)
    requires 0 <= i < |levels| && WellFormed(levels[i])
    requires Indexed(levels, loc, {})
    ensures Indexed(levels[i := Turn(levels[i])], loc, {})
    ensures Single(levels, loc, overflow, {}) ==> Single(levels[i := Turn(levels[i])], loc, overflow, {})
  {
    var levels' := levels[i := Turn(levels[i])];
    forall s, x ensures Holds(levels', s, x) <==> Holds(levels, s, x) {
    }
  }

  // ---------------------------------------------------------------- pointers as an odometer

  /** Level `level` is about to be cascaded at `elapsed`: the pointers below have
      arrived, those from `level` on still show the tick before. */
  ghost predicate Midway(levels: seq<Level>, ticks: seq<int>, elapsed: int, level: int)
    requires |ticks| == |levels|
  {
    && (forall i :: 0 <= i < |levels| && i < level ==> ticks[i] * levels[i].granularity == elapsed)
    && (forall i :: 0 <= i < |levels| && level <= i ==> Behind(elapsed, levels[i].granularity, ticks[i]))
    && (0 <= level < |levels| ==> (ticks[level] + 1) * levels[level].granularity == elapsed)
  }

  ghost predicate Behind(elapsed: int, g: int, tick: int) {
    tick * g < elapsed <= (tick + 1) * g
  }

  lemma {:induction false} Divides(gap: int, levels: seq<Level>, i: int, j: int) returns (f: int)
    requires Aligned(gap, levels) && 0 <= i <= j < |levels|
    ensures f >= 1 && levels[j].granularity == f * levels[i].granularity
    decreases j - i
  {
    if i == j {
      f := 1;
    } else {
      var f' := Divides(gap, levels, i, j - 1);
      var n, g := levels[j - 1].bucketCount, levels[i].granularity;
      f := f' * n;
      ScaleLe(1, n, f');
      assert Nested(levels, j - 1);
      assert levels[j].granularity == Span(levels[j - 1]) == (f' * g) * n == f * g;
    }
  }

  /** Advancing the base by one slot leaves every pointer at most one tick behind. */
  lemma StepBehind(gap: int, levels: seq<Level>, ticks: seq<int>, elapsed: int)
    requires Aligned(gap, levels) && |ticks| == |levels|
    requires OnTime(levels, ticks, elapsed) && ticks[0] * gap == elapsed
    ensures Midway(levels, ticks, elapsed + gap, 0)
  {
    forall i | 0 <= i < |levels| ensures Behind(elapsed + gap, levels[i].granularity, ticks[i]) {
      var f := Divides(gap, levels, 0, i);
      var g := levels[i].granularity;
      assert OnTick(elapsed, g, ticks[i]);
      assert (ticks[i] + 1) * g == ((ticks[i] + 1) * f) * gap;
      if (ticks[i] + 1) * f <= ticks[0] {
        ScaleLe((ticks[i] + 1) * f, ticks[0], gap);
      }
      ScaleLe(ticks[0] + 1, (ticks[i] + 1) * f, gap);
    }
  }

  /** A pointer that moves without wrapping ends the carry; one that wraps hands
      it to the next level. */
  lemma Carry(gap: int, levels: seq<Level>, ticks: seq<int>, elapsed: int, level: int)
    requires Aligned(gap, levels) && |ticks| == |levels|
    requires 0 <= level < |levels| && Midway(levels, ticks, elapsed, level)
    ensures var ticks' := ticks[level := ticks[level] + 1];
      if ticks'[level] % levels[level].bucketCount == 0 then Midway(levels, ticks', elapsed, level + 1)
      else OnTime(levels, ticks', elapsed)
  {
    var ticks', n, g := ticks[level := ticks[level] + 1], levels[level].bucketCount, levels[level].granularity;
    var t := ticks'[level];
    assert t * g == elapsed;
    if t % n == 0 {
      if level + 1 < |levels| {
        assert Nested(levels, level);
        WrapMultiple(t, n, g);
        Multiple(elapsed, g * n, ticks[level + 1], t / n);
      }
    } else {
      forall i | 0 <= i < |levels| ensures OnTick(elapsed, levels[i].granularity, ticks'[i]) {
        if i < level {
          assert ticks[i] * levels[i].granularity == elapsed;
        } else if i > level {
          NotYet(gap, levels, ticks, elapsed, level, i, t);
        }
      }
    }
  }

  lemma WrapMultiple(t: int, n: int, g: int)
    requires n >= 1 && t % n == 0
    ensures (t / n) * (g * n) == t * g
  {
    var d := t / n;
    assert t == d * n;
    assert d * (g * n) == (d * n) * g;
  }

  lemma NotYet(gap: int, levels: seq<Level>, ticks: seq<int>, elapsed: int, level: int, i: int, t: int)
    requires Aligned(gap, levels) && |ticks| == |levels| && 0 <= level < i < |levels|
    requires t * levels[level].granularity == elapsed && t % levels[level].bucketCount != 0
    requires Behind(elapsed, levels[i].granularity, ticks[i])
    ensures OnTick(elapsed, levels[i].granularity, ticks[i])
  {
    if (ticks[i] + 1) * levels[i].granularity == elapsed {
      NoCarry(gap, levels, level, i, t, ticks[i] + 1);
    }
  }

  lemma AllArrived(levels: seq<Level>, ticks: seq<int>, elapsed: int, level: int)
    requires |ticks| == |levels| <= level
    requires forall i :: 0 <= i < |levels| ==> WellFormed(levels[i])
    requires Midway(levels, ticks, elapsed, level)
    ensures OnTime(levels, ticks, elapsed)
  {
    forall i | 0 <= i < |levels| ensures OnTick(elapsed, levels[i].granularity, ticks[i]) {
      assert ticks[i] * levels[i].granularity == elapsed;
    }
  }

  lemma Multiple(elapsed: int, g: int, tick: int, d: int)
    requires g >= 1 && Behind(elapsed, g, tick) && d * g == elapsed
    ensures d == tick + 1
  {
    if d <= tick {
      ScaleLe(d, tick, g);
    } else if d >= tick + 2 {
      ScaleLe(tick + 2, d, g);
    }
  }

  lemma NoCarry(gap: int, levels: seq<Level>, level: int, i: int, t: int, u: int)
    requires Aligned(gap, levels) && 0 <= level < i < |levels|
    requires u * levels[i].granularity == t * levels[level].granularity
    ensures t % levels[level].bucketCount == 0
  {
    var f := Divides(gap, levels, level + 1, i);
    var n, g := levels[level].bucketCount, levels[level].granularity;
    assert Nested(levels, level);
    var v := u * f * n;
    assert u * levels[i].granularity == v * g by {
      assert u * (f * (g * n)) == (u * f * n) * g;
    }
    Cancel(v, t, g);
    DivisionUnique(t, n, u * f, 0);
  }

  lemma Cancel(a: int, b: int, g: int)
    requires g >= 1 && a * g == b * g
    ensures a == b
  {
    if a < b {
      ScaleLe(a + 1, b, g);
    } else if b < a {
      ScaleLe(b + 1, a, g);
    }
  }

  // ---------------------------------------------------------------- shape and pointers at rest

  function Shape(levels: seq<Level>): seq<(int, int)> {
    seq(|levels|, i requires 0 <= i < |levels| => (levels[i].granularity, levels[i].bucketCount))
  }

  ghost function TicksAt(levels: seq<Level>, elapsed: int): seq<int>
    requires forall i :: 0 <= i < |levels| ==> WellFormed(levels[i])
  {
    seq(|levels|, i requires 0 <= i < |levels| && WellFormed(levels[i]) => elapsed / levels[i].granularity)
  }

  lemma TicksOnTime(levels: seq<Level>, elapsed: int)
    requires forall i :: 0 <= i < |levels| ==> WellFormed(levels[i])
    ensures OnTime(levels, TicksAt(levels, elapsed), elapsed)
  {
    forall i | 0 <= i < |levels| ensures OnTick(elapsed, levels[i].granularity, TicksAt(levels, elapsed)[i]) {
      var g := levels[i].granularity;
      assert elapsed == (elapsed / g) * g + elapsed % g;
    }
  }

  lemma TicksUnique(levels: seq<Level>, ticks: seq<int>, elapsed: int)
    requires forall i :: 0 <= i < |levels| ==> WellFormed(levels[i])
    requires |ticks| == |levels| && OnTime(levels, ticks, elapsed)
    ensures ticks == TicksAt(levels, elapsed)
  {
    forall i | 0 <= i < |levels| ensures ticks[i] == TicksAt(levels, elapsed)[i] {
      var g := levels[i].granularity;
      assert OnTick(elapsed, g, ticks[i]);
      DivisionUnique(elapsed, g, ticks[i], elapsed - ticks[i] * g);
    }
  }

  lemma SameShape(levels: seq<Level>, levels': seq<Level>, ticks: seq<int>, elapsed: int)
    requires Shape(levels) == Shape(levels') && |ticks| == |levels|
    ensures |levels| == |levels'|
    ensures forall i :: 0 <= i < |levels| ==>
              levels'[i].granularity == levels[i].granularity && levels'[i].bucketCount == levels[i].bucketCount
    ensures OnTime(levels, ticks, elapsed) <==> OnTime(levels', ticks, elapsed)
    ensures Coverage(levels) == Coverage(levels')
  {
    assert |Shape(levels)| == |levels| && |Shape(levels')| == |levels'|;
    forall i | 0 <= i < |levels|
      ensures levels'[i].granularity == levels[i].granularity && levels'[i].bucketCount == levels[i].bucketCount
    {
      assert Shape(levels)[i] == Shape(levels')[i];
    }
    CoverageShape(levels, levels');
  }

  lemma PutShape(levels: seq<Level>, i: int, j: int, k: int)
    requires 0 <= i < |levels| && WellFormed(levels[i]) && 0 <= j < levels[i].bucketCount
    ensures Shape(Put(levels, i, j, k)) == Shape(levels)
  {
  }

  lemma MidwayShape(levels: seq<Level>, levels': seq<Level>, ticks: seq<int>, elapsed: int, level: int)
    requires Shape(levels) == Shape(levels') && |ticks| == |levels|
    ensures |levels| == |levels'|
    ensures Midway(levels, ticks, elapsed, level) <==> Midway(levels', ticks, elapsed, level)
  {
    SameShape(levels, levels', ticks, elapsed);
  }

  /** Seconds covered by all levels together. */
  function Coverage(levels: seq<Level>): int {
    if levels == [] then 0 else Coverage(levels[..|levels| - 1]) + Span(levels[|levels| - 1])
  }

  lemma {:induction false} CoverageShape(levels: seq<Level>, levels': seq<Level>)
    requires |levels| == |levels'|
    requires forall i :: 0 <= i < |levels| ==>
               levels'[i].granularity == levels[i].granularity && levels'[i].bucketCount == levels[i].bucketCount
    ensures Coverage(levels) == Coverage(levels')
  {
    if levels != [] {
      CoverageShape(levels[..|levels| - 1], levels'[..|levels| - 1]);
    }
  }

  lemma {:induction false} CoverageAtLeast(gap: int, levels: seq<Level>, n: int)
    requires Aligned(gap, levels) && 1 <= n <= |levels|
    ensures Coverage(levels[..n]) >= Span(levels[0]) >= 1
  {
    var last := levels[n - 1];
    assert levels[..n][..n - 1] == levels[..n - 1];
    ScaleLe(1, last.bucketCount, last.granularity);
    ScaleLe(1, levels[0].bucketCount, levels[0].granularity);
    if n > 1 {
      CoverageAtLeast(gap, levels, n - 1);
    } else {
      assert levels[..n - 1] == [];
    }
  }
}
