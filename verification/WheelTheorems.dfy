/**
 What one operation of the timing wheel promises its users: where the pointers
 stand, when buckets cascade, which jumps deliver exactly and what happens beyond
 them, and when `PeekMin` is the minimum.
 */
module WheelTheorems {
  import opened WheelLevels
  import opened WheelGeometry
  import opened WheelIndex
  import opened WheelSpec
  import opened WheelSteps
  import opened WheelScan

  // ---------------------------------------------------------------- pointers

  lemma DivideTwice(e: int, a: int, b: int)
    requires a >= 1 && b >= 1
    ensures a * b >= 1 && e / a / b == e / (a * b)
  {
    var n := e / a;
    var q, r := n / b, n % b;
    assert e == n * a + e % a && n == q * b + r;
    assert e == q * (a * b) + (r * a + e % a);
    ScaleLe(0, r, a);
    ScaleLe(r + 1, b, a);
    ScaleLe(1, b, a);
    DivisionUnique(e, a * b, q, r * a + e % a);
  }

  /** After `N` slots the level pointers are the mixed-radix digits of `N`. */
  lemma Odometer(w: Wheel, i: int)
    requires Ok(w) && w.initialized && 0 <= i < |w.levels|
    ensures Radix(w.levels, i) >= 1
    ensures w.levels[i].current == (Elapsed(w) / w.clock.gap / Radix(w.levels, i)) % w.levels[i].bucketCount
  {
    GranularityIsRadix(w.clock.gap, w.levels, i);
    DivideTwice(Elapsed(w), w.clock.gap, Radix(w.levels, i));
    assert LevelInv(w.clock, i == 0, w.levels[i], TicksAt(w.levels, Elapsed(w))[i]);
  }

  // ---------------------------------------------------------------- cascade times

  /** Absolute time at which bucket `s` of an upper level is cascaded. */
  function CascadeTime(w: Wheel, s: SlotLoc): int
    requires 0 <= s.level < |w.levels| && WellFormed(w.levels[s.level])
  {
    var l := w.levels[s.level];
    w.base + (l.granularity - Elapsed(w) % l.granularity) + ((s.bucket - l.current) % l.bucketCount) * l.granularity
  }

  lemma TickCascade(w: Wheel, s: SlotLoc, m: int)
    requires Ok(w) && w.initialized && 0 <= s.level < |w.levels|
    requires var l, tick := w.levels[s.level], TicksAt(w.levels, Elapsed(w))[s.level];
      tick <= m < tick + l.bucketCount && m % l.bucketCount == s.bucket
    ensures CascadeTime(w, s) == w.clock.origin + (m + 1) * w.levels[s.level].granularity
  {
    var l, e := w.levels[s.level], Elapsed(w);
    var g, n, tick := l.granularity, l.bucketCount, TicksAt(w.levels, e)[s.level];
    assert LevelInv(w.clock, s.level == 0, l, tick);
    RingOffset(tick, m, n);
    RemainderOf(e, g);
    assert (m + 1) * g == tick * g + g + (m - tick) * g;
  }

  lemma RemainderOf(e: int, g: int)
    requires g >= 1
    ensures e == (e / g) * g + e % g
  {
  }

  lemma RingOffset(tick: int, m: int, n: int)
    requires n >= 1 && tick <= m < tick + n
    ensures (m % n - tick % n) % n == m - tick
  {
    var d := m - tick;
    assert m % n - tick % n == d - (m / n - tick / n) * n;
    SameResidue(d, n, m / n - tick / n);
    DivisionUnique(d, n, 0, d);
  }

  lemma SameResidue(x: int, n: int, q: int)
    requires n >= 1
    ensures (x - q * n) % n == x % n
  {
    DivisionUnique(x - q * n, n, x / n - q, x % n);
  }

  ghost predicate LateCopy(w: Wheel, s: SlotLoc, k: int)
    requires Ok(w)
  {
    && w.initialized
    && Holds(w.levels, s, k)
    && s.level >= 1
    && CascadeTime(w, s) + w.levels[s.level].granularity <= k * w.clock.gap
  }

  lemma CopyTick(w: Wheel, s: SlotLoc, k: int) returns (m: int)
    requires Ok(w) && w.initialized && Holds(w.levels, s, k)
    ensures var l, tick := w.levels[s.level], TicksAt(w.levels, Elapsed(w))[s.level];
      && tick <= m < tick + l.bucketCount && m % l.bucketCount == s.bucket && k in BucketAt(l, m)
      && Timely(w.clock, s.level == 0, l.granularity, tick, m, k)
    ensures CascadeTime(w, s) == w.clock.origin + (m + 1) * w.levels[s.level].granularity
    ensures LateCopy(w, s, k) <==> !PromptAt(w.clock, s.level == 0, w.levels[s.level].granularity, m, k)
  {
    var l, tick := w.levels[s.level], TicksAt(w.levels, Elapsed(w))[s.level];
    m := TickOf(s.bucket, l.bucketCount, tick);
    TickCascade(w, s, m);
    assert k in BucketAt(l, m);
    assert (m + 2) * l.granularity == (m + 1) * l.granularity + l.granularity;
  }

  /** Upper levels never hold an overdue key: each copy is due no earlier than
      its bucket is cascaded, which lies ahead of the base. */
  lemma UpperLevelsNeverOverdue(w: Wheel, s: SlotLoc, k: int)
    requires Ok(w) && w.initialized && Holds(w.levels, s, k) && s.level >= 1
    ensures w.base < NextCascade(w) <= CascadeTime(w, s) <= k * w.clock.gap
    ensures s.level == 1 ==>
      CascadeTime(w, s) == NextCascade(w) + ((s.bucket - w.levels[1].current) % w.levels[1].bucketCount) * w.levels[1].granularity
  {
    var m := CopyTick(w, s, k);
    NextCascadeTime(w, s.level);
    var l := w.levels[s.level];
    ScaleLe(0, (s.bucket - l.current) % l.bucketCount, l.granularity);
    ScaleLe(1, w.levels[0].bucketCount - w.levels[0].current, w.clock.gap);
  }

  /** The first bucket of a level cascades no sooner than that of level 1. */
  lemma NextCascadeTime(w: Wheel, i: int)
    requires Ok(w) && w.initialized && 1 <= i < |w.levels|
    ensures NextCascade(w) <= w.base + (w.levels[i].granularity - Elapsed(w) % w.levels[i].granularity)
    ensures i == 1 ==> NextCascade(w) == w.base + (w.levels[1].granularity - Elapsed(w) % w.levels[1].granularity)
  {
    var gap, e := w.clock.gap, Elapsed(w);
    var n0, c0, g1, g := w.levels[0].bucketCount, w.levels[0].current, w.levels[1].granularity, w.levels[i].granularity;
    AtRest(w);
    assert n0 >= 1 && gap >= 1 && c0 == (e / gap) % n0 && e == (e / gap) * gap;
    assert Nested(w.levels, 0);
    var f := Divides(gap, w.levels, 1, i);
    hide Ok;
    LeftOfTurn(gap, n0, e / gap, g1);
    CeilingLe(e, g1, g, f, e / g);
  }

  /** What is left of a turn of level 0 is what is left of a bucket of level 1. */
  lemma LeftOfTurn(gap: int, n0: int, t0: int, g1: int)
    requires gap >= 1 && n0 >= 1 && g1 == gap * n0
    ensures (n0 - t0 % n0) * gap == g1 - (t0 * gap) % g1
  {
    var q, c0 := t0 / n0, t0 % n0;
    assert t0 == q * n0 + c0;
    assert t0 * gap == q * g1 + c0 * gap by {
      assert (q * n0 + c0) * gap == q * (gap * n0) + c0 * gap;
    }
    ScaleLe(c0 + 1, n0, gap);
    ScaleLe(0, c0, gap);
    assert (c0 + 1) * gap == c0 * gap + gap;
    DivisionUnique(t0 * gap, g1, q, c0 * gap);
  }

  /** The next multiple of a granularity comes no sooner than that of a divisor. */
  lemma CeilingLe(e: int, g1: int, g: int, f: int, u: int)
    requires g1 >= 1 && f >= 1 && g == f * g1 && u == e / g
    ensures g1 - e % g1 <= g - e % g
  {
    var q := e / g1;
    assert e == q * g1 + e % g1 && e == u * g + e % g;
    assert (u + 1) * g == ((u + 1) * f) * g1;
    if (u + 1) * f <= q {
      ScaleLe((u + 1) * f, q, g1);
    }
    ScaleLe(q + 1, (u + 1) * f, g1);
  }

  lemma PromptOrLate(w: Wheel, k: int)
    requires Ok(w) && w.initialized
    ensures k in LateKeys(w) <==> exists s :: LateCopy(w, s, k)
    ensures k in PromptKeys(w) <==> exists s :: Holds(w.levels, s, k) && !LateCopy(w, s, k)
  {
    var ticks := TicksAt(w.levels, Elapsed(w));
    if k in LateKeys(w) {
      var i :| 0 <= i < |w.levels| && k in LateOn(w.clock, w.levels, ticks, i);
      var m :| ticks[i] <= m < ticks[i] + w.levels[i].bucketCount && k in BucketAt(w.levels[i], m)
            && !PromptAt(w.clock, i == 0, w.levels[i].granularity, m, k);
      assert LateCopy(w, CopyAt(w, i, m, k), k);
    }
    if k in PromptKeys(w) {
      var i :| 0 <= i < |w.levels| && k in PromptOn(w.clock, w.levels, ticks, i);
      var m :| ticks[i] <= m < ticks[i] + w.levels[i].bucketCount && k in BucketAt(w.levels[i], m)
            && PromptAt(w.clock, i == 0, w.levels[i].granularity, m, k);
      var s := CopyAt(w, i, m, k);
      assert Holds(w.levels, s, k) && !LateCopy(w, s, k);
    }
    forall s | Holds(w.levels, s, k)
      ensures if LateCopy(w, s, k) then k in LateKeys(w) else k in PromptKeys(w)
    {
      var m := CopyTick(w, s, k);
      assert if LateCopy(w, s, k) then k in LateOn(w.clock, w.levels, ticks, s.level) else k in PromptOn(w.clock, w.levels, ticks, s.level);
    }
  }

  /** The location of tick `m` of level `i`. */
  ghost function CopyAt(w: Wheel, i: int, m: int, k: int): (s: SlotLoc)
    requires Ok(w) && w.initialized && 0 <= i < |w.levels|
    requires var tick := TicksAt(w.levels, Elapsed(w))[i];
      tick <= m < tick + w.levels[i].bucketCount && k in BucketAt(w.levels[i], m)
    ensures Holds(w.levels, s, k)
    ensures LateCopy(w, s, k) <==> !PromptAt(w.clock, i == 0, w.levels[i].granularity, m, k)
  {
    var s := SlotLoc(i, m % w.levels[i].bucketCount);
    TickCascade(w, s, m);
    assert (m + 2) * w.levels[i].granularity == (m + 1) * w.levels[i].granularity + w.levels[i].granularity;
    s
  }

  // ---------------------------------------------------------------- Advance

  /** A jump of any length loses nothing and returns nothing early. */
  lemma AdvanceLosesNothing(w: Wheel, now: int, ready: seq<int>, w': Wheel)
    requires Ok(w) && AdvanceSpec(w, now, ready, w')
    ensures Held(w') + Elements(ready) == Held(w)
    ensures forall k :: k in ready ==> k * w.clock.gap < w'.base
  {
    HeldSplit(w);
    assert forall k :: k in ready ==> k in Elements(ready);
  }

  /** An overdue key can only sit in the current bucket of level 0, and the next
      `Advance` that moves the base returns it. */
  lemma OverdueIsNext(w: Wheel, k: int, now: int, ready: seq<int>, w': Wheel)
    requires Ok(w) && k in Held(w) && k * w.clock.gap < w.base && w.initialized
    requires AdvanceSpec(w, now, ready, w') && w.base < w'.base
    ensures k in w.levels[0].buckets[w.levels[0].current]
    ensures k in ready
  {
    CoverageAtLeast(w.clock.gap, w.levels, |w.levels|);
    assert w.levels[..|w.levels|] == w.levels;
    KeysAreHeld(w.levels, k);
    var s :| Holds(w.levels, s, k);
    if s.level >= 1 {
      UpperLevelsNeverOverdue(w, s, k);
    }
    var m := CopyTick(w, s, k);
    AtRest(w);
    var tick := TicksAt(w.levels, Elapsed(w))[0];
    if m > tick {
      ScaleLe(tick, m, w.clock.gap);
    }
    PromptOrLate(w, k);
    assert k in Elements(ready);
  }

  /** Nothing late, in a bucket or in overflow, falls due within one turn of level 0. */
  lemma LateIsFar(w: Wheel, k: int)
    requires Ok(w) && w.initialized && (k in LateKeys(w) || k in w.overflow)
    ensures w.base + Span(w.levels[0]) <= k * w.clock.gap
  {
    if k in LateKeys(w) {
      PromptOrLate(w, k);
      var s :| LateCopy(w, s, k);
      UpperLevelsNeverOverdue(w, s, k);
      SpanWithin(w.clock.gap, w.levels, 0, s.level);
    } else {
      CoverageAtLeast(w.clock.gap, w.levels, |w.levels|);
      assert w.levels[..|w.levels|] == w.levels;
    }
  }

  /** A jump of at most one turn of level 0 returns exactly the held keys that
      fell due, and exactly those leave the wheel. */
  lemma AdvanceIsExact(w: Wheel, now: int, ready: seq<int>, w': Wheel)
    requires Ok(w) && AdvanceSpec(w, now, ready, w') && w.base < w'.base
    requires w'.base - w.base <= w.levels[0].bucketCount * w.clock.gap
    ensures Elements(ready) == DueBefore(w.clock.gap, Held(w), w'.base)
    ensures Held(w') == Held(w) - Elements(ready)
  {
    hide Ok, Held, PromptKeys, LateKeys, DueBefore;
    HeldSplit(w);
    AllLateFar(w, w'.base);
    ExactSets(w.clock.gap, PromptKeys(w), LateKeys(w) + w.overflow, Held(w), Elements(ready), Held(w'), w'.base);
  }

  lemma AllLateFar(w: Wheel, time: int)
    requires Ok(w) && w.initialized && time - w.base <= w.levels[0].bucketCount * w.clock.gap
    ensures forall k :: k in LateKeys(w) + w.overflow ==> time <= k * w.clock.gap
  {
    assert Span(w.levels[0]) == w.levels[0].bucketCount * w.clock.gap;
    hide Ok, LateKeys;
    forall k | k in LateKeys(w) + w.overflow ensures time <= k * w.clock.gap {
      LateIsFar(w, k);
    }
  }

  lemma ExactSets(gap: int, prompt: set<int>, rest: set<int>, held: set<int>, ready: set<int>, held': set<int>, time: int)
    requires held == prompt + rest
    requires ready == DueBefore(gap, prompt, time) && held' == (prompt - ready) + rest
    ensures (ready == DueBefore(gap, held, time) && held' == held - ready) <==> (forall k :: k in rest ==> time <= k * gap)
  {
    if forall k :: k in rest ==> time <= k * gap {
      assert ready == DueBefore(gap, held, time);
      assert held' == held - ready;
    } else {
      var k :| k in rest && k * gap < time;
      assert k in held' && k in DueBefore(gap, held, time);
    }
  }

  /** No key due before `time` sits in overflow, or in an upper bucket that
      cascades a whole bucket width before the key is due. */
  ghost predicate NothingLateDue(w: Wheel, time: int)
    requires Ok(w)
  {
    && (forall k :: k in w.overflow ==> time <= k * w.clock.gap)
    && (forall s, k :: LateCopy(w, s, k) ==> time <= k * w.clock.gap)
  }

  lemma NothingLateIff(w: Wheel, time: int)
    requires Ok(w) && w.initialized
    ensures NothingLateDue(w, time) <==> forall k :: k in LateKeys(w) + w.overflow ==> time <= k * w.clock.gap
  {
    hide Ok, LateCopy, LateKeys;
    LateByCopy(w);
    if NothingLateDue(w, time) {
      forall k | k in LateKeys(w) + w.overflow ensures time <= k * w.clock.gap {
        if k in LateKeys(w) {
          var s :| LateCopy(w, s, k);
        }
      }
    } else if forall k :: k in LateKeys(w) + w.overflow ==> time <= k * w.clock.gap {
      forall s, k | LateCopy(w, s, k) ensures time <= k * w.clock.gap {
        assert k in LateKeys(w) + w.overflow;
      }
    }
  }

  /** For a jump of any length, delivery is exact precisely under `NothingLateDue`. */
  lemma AdvanceExactIff(w: Wheel, now: int, ready: seq<int>, w': Wheel)
    requires Ok(w) && AdvanceSpec(w, now, ready, w') && w.base < w'.base
    ensures (Elements(ready) == DueBefore(w.clock.gap, Held(w), w'.base) && Held(w') == Held(w) - Elements(ready))
         <==> NothingLateDue(w, w'.base)
  {
    hide NothingLateDue, DueBefore, LateKeys, PromptKeys, Held;
    HeldSplit(w);
    ExactSets(w.clock.gap, PromptKeys(w), LateKeys(w) + w.overflow, Held(w), Elements(ready), Held(w'), w'.base);
    NothingLateIff(w, w'.base);
  }

  lemma LateByCopy(w: Wheel)
    requires Ok(w) && w.initialized
    ensures forall k :: k in LateKeys(w) <==> exists s :: LateCopy(w, s, k)
  {
    forall k ensures k in LateKeys(w) <==> exists s :: LateCopy(w, s, k) {
      PromptOrLate(w, k);
    }
  }

  /** The slot of `now` begins after `base`. */
  predicate Moves(gap: int, base: int, now: int) {
    if now >= 0 then base + gap <= now else base < now
  }

  lemma BaseAligned(w: Wheel)
    requires Ok(w) && w.initialized
    ensures w.base % w.clock.gap == 0
  {
    var gap, a, b := w.clock.gap, w.clock.origin / w.clock.gap, Elapsed(w) / w.clock.gap;
    assert w.clock.origin == a * gap && Elapsed(w) == b * gap;
    MultipleOf(a + b, gap);
    assert w.base == (a + b) * gap;
  }

  /** The base moves if and only if the slot of `now` begins after it, and then to
      where that slot begins. */
  lemma AdvanceMovesIff(w: Wheel, now: int, ready: seq<int>, w': Wheel)
    requires Ok(w) && AdvanceSpec(w, now, ready, w')
    ensures w.base < w'.base <==> w.initialized && Moves(w.clock.gap, w.base, now)
    ensures w.base < w'.base ==> SlotStart(w.clock.gap, now, w'.base)
    ensures w'.base <= w.base ==> w' == w && ready == []
  {
    var gap := w.clock.gap;
    SlotBaseIs(gap, now);
    if w.initialized {
      BaseAligned(w);
      MovesIs(gap, w.base, now, SlotBase(gap, now));
    }
  }

  lemma MovesIs(gap: int, base: int, now: int, b: int)
    requires gap >= 1 && base % gap == 0 && SlotStart(gap, now, b)
    ensures base < b <==> Moves(gap, base, now)
  {
    MultiplesApart(gap, base, b);
  }

  lemma MultiplesApart(gap: int, x: int, y: int)
    requires gap >= 1 && x % gap == 0 && y % gap == 0
    ensures x < y <==> x + gap <= y
  {
    var p, q := x / gap, y / gap;
    assert x == p * gap && y == q * gap;
    if p < q {
      ScaleLe(p + 1, q, gap);
    } else {
      ScaleLe(q, p, gap);
    }
  }

  /** The slot of `now` begins at most `n` slots after `base`. */
  predicate Reaches(gap: int, n: int, base: int, now: int) {
    if now >= 0 then now < base + (n + 1) * gap else now <= base + n * gap
  }

  lemma ReachesIs(gap: int, n: int, base: int, now: int, b: int)
    requires gap >= 1 && base % gap == 0 && SlotStart(gap, now, b)
    ensures b - base <= n * gap <==> Reaches(gap, n, base, now)
  {
    var x := base + n * gap;
    assert x % gap == 0 by {
      assert base == (base / gap) * gap;
      assert x == (base / gap + n) * gap;
      MultipleOf(base / gap + n, gap);
    }
    assert base + (n + 1) * gap == x + gap;
    MultiplesApart(gap, x, b);
  }

  /** Delivery by the clock: a jump that moves the base by at most one turn of level
      0 returns exactly the held slots that lie wholly before `now`. */
  lemma DeliveredByClock(w: Wheel, now: int, ready: seq<int>, w': Wheel)
    requires Ok(w) && AdvanceSpec(w, now, ready, w') && w.initialized && Moves(w.clock.gap, w.base, now)
    requires w'.base - w.base <= w.levels[0].bucketCount * w.clock.gap
    ensures Elements(ready) == set k | k in Held(w) && Over(w.clock.gap, now, k)
    ensures Held(w') == set k | k in Held(w) && !Over(w.clock.gap, now, k)
  {
    AdvanceMovesIff(w, now, ready, w');
    AdvanceIsExact(w, now, ready, w');
    SlotBaseIs(w.clock.gap, now);
    hide Ok, Held, AdvanceSpec, Over;
  }

  /** `Advance` agrees with the linear scan of `GetReadySlots`, run just before. */
  lemma AdvanceMatchesScan(w: Wheel, now: int, ready: seq<int>, w': Wheel, scan: seq<int>)
    requires Ok(w) && AdvanceSpec(w, now, ready, w') && w.base < w'.base
    requires w'.base - w.base <= w.levels[0].bucketCount * w.clock.gap
    requires Elements(scan) == set k | k in Held(w) && k * w.clock.gap <= w'.base - 1
    ensures Elements(ready) == Elements(scan)
  {
    AdvanceIsExact(w, now, ready, w');
  }

  // ---------------------------------------------------------------- PeekMin

  /** `PeekMin` is the true minimum whenever something is due before level 1 next cascades. */
  lemma PeekMinIsExact(w: Wheel, time: int, near: int)
    requires Ok(w) && w.initialized && Earliest(w.clock.gap, Visible(w), time)
    requires near in Held(w) && near * w.clock.gap < NextCascade(w)
    ensures Earliest(w.clock.gap, Held(w), time)
  {
    var gap := w.clock.gap;
    VisibleWhenHeld(w);
    var k0 := GroundOrOverflow(w, near);
    forall k | k in Held(w) ensures time <= k * gap {
      if k * gap < NextCascade(w) {
        var v := GroundOrOverflow(w, k);
      }
    }
    assert exists k :: k in Held(w) && k * gap == time;
  }

  /** A key due before the next cascade has a visible key no later than itself. */
  lemma GroundOrOverflow(w: Wheel, k: int) returns (v: int)
    requires Ok(w) && w.initialized && k in Held(w) && k * w.clock.gap < NextCascade(w)
    ensures v in Visible(w) && v * w.clock.gap <= k * w.clock.gap
  {
    if k in w.overflow {
      v := k;
    } else {
      KeysAreHeld(w.levels, k);
      var s :| Holds(w.levels, s, k);
      if s.level >= 1 {
        UpperLevelsNeverOverdue(w, s, k);
      }
      v := FirstOnGround(w, k);
    }
  }

  lemma FirstOnGround(w: Wheel, k: int) returns (v: int)
    requires Ok(w) && w.initialized && k in LevelKeys(w.levels[0])
    ensures v in Visible(w) && v * w.clock.gap <= k * w.clock.gap
  {
    var l, tick, gap := w.levels[0], TicksAt(w.levels, Elapsed(w))[0], w.clock.gap;
    var m, m' := LevelHasFirst(l, tick, k);
    Inhabited(BucketAt(l, m'));
    if m == m' {
      v := k;
    } else {
      v :| v in BucketAt(l, m');
      assert Timely(w.clock, true, gap, tick, m, k) && Timely(w.clock, true, gap, tick, m', v);
      ScaleLe(m', m, gap);
    }
    assert v in FirstFrom(w.levels[0], 0);
  }

  /** The key sits behind a bucket of its own upper level that holds only late copies. */
  ghost predicate ShadedAt(w: Wheel, i: int, front: int, m: int, k: int)
    requires Ok(w)
  {
    && w.initialized && 1 <= i < |w.levels|
    && var l, tick := w.levels[i], TicksAt(w.levels, Elapsed(w))[i];
       && tick <= front < m < tick + l.bucketCount
       && k in BucketAt(l, m) && BucketAt(l, front) != {}
       && forall v :: v in BucketAt(l, front) ==> !PromptAt(w.clock, false, l.granularity, front, v)
  }

  ghost predicate Shaded(w: Wheel, k: int)
    requires Ok(w)
  {
    exists i, front, m :: ShadedAt(w, i, front, m, k)
  }

  /** `PeekMin` is the true minimum if and only if every shaded key has a visible
      key no later than itself. */
  lemma PeekMinExactIff(w: Wheel, time: int)
    requires Ok(w) && w.initialized && Earliest(w.clock.gap, Visible(w), time)
    ensures Earliest(w.clock.gap, Held(w), time) <==> forall k :: Shaded(w, k) ==> Outshone(w, k)
  {
    hide Ok, Held, Visible, Shaded;
    var gap := w.clock.gap;
    VisibleWhenHeld(w);
    if Earliest(gap, Held(w), time) {
      forall k | Shaded(w, k) ensures Outshone(w, k) {
        ShadedIsHeld(w, k);
        var v :| v in Visible(w) && v * gap == time;
      }
    }
    if forall k :: Shaded(w, k) ==> Outshone(w, k) {
      forall k | k in Held(w) ensures time <= k * gap {
        if Shaded(w, k) {
          var v :| v in Visible(w) && v * gap <= k * gap;
        } else {
          var v := VisibleBefore(w, k);
        }
      }
      assert Held(w) != {} ==> exists k :: k in Held(w) && k * gap == time;
    }
  }

  ghost predicate Outshone(w: Wheel, k: int)
    requires Ok(w)
  {
    exists v :: v in Visible(w) && v * w.clock.gap <= k * w.clock.gap
  }

  lemma ShadedIsHeld(w: Wheel, k: int)
    requires Ok(w) && Shaded(w, k)
    ensures k in Held(w)
  {
    var i, front, m :| ShadedAt(w, i, front, m, k);
    var j := m % w.levels[i].bucketCount;
    assert k in w.levels[i].buckets[j];
    assert k in LevelKeys(w.levels[i]);
  }

  /** A key that is not shaded has a visible key no later than itself. */
  lemma VisibleBefore(w: Wheel, k: int) returns (v: int)
    requires Ok(w) && w.initialized && k in Held(w) && !Shaded(w, k)
    ensures v in Visible(w) && v * w.clock.gap <= k * w.clock.gap
  {
    if k in w.overflow {
      return k;
    }
    var i :| 0 <= i < |w.levels| && k in LevelKeys(w.levels[i]);
    if i == 0 {
      v := FirstOnGround(w, k);
      return;
    }
    var l, tick := w.levels[i], TicksAt(w.levels, Elapsed(w))[i];
    var m, front := LevelHasFirst(l, tick, k);
    if m == front {
      v := k;
    } else {
      assert !ShadedAt(w, i, front, m, k);
      v :| v in BucketAt(l, front) && PromptAt(w.clock, false, l.granularity, front, v);
      assert Timely(w.clock, false, l.granularity, tick, m, k);
      ScaleLe(front + 2, m + 1, l.granularity);
    }
    assert v in FirstFrom(w.levels[i], 0);
  }

  /** `PeekMin` answers -1 exactly when the wheel is empty. */
  lemma PeekMinEmpty(w: Wheel, time: int)
    requires Ok(w) && Earliest(w.clock.gap, Visible(w), time)
    requires NonNegative(Held(w))
    ensures time == -1 <==> Held(w) == {}
  {
    VisibleWhenHeld(w);
    if Held(w) != {} {
      var k :| k in Visible(w) && k * w.clock.gap == time;
      ScaleLe(0, k, w.clock.gap);
    }
  }
}
