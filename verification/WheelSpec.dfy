/**
 The abstract value of a timing wheel, the invariant every operation keeps, and
 what each operation promises, stated on the set of held keys.
 */
module WheelSpec {
  import opened Sequences
  import opened WheelLevels
  import opened WheelGeometry
  import opened WheelIndex

  datatype Wheel = Wheel(
    clock: Clock,
    levels: seq<Level>,
    base: int,
    slotLocation: map<int, SlotLoc>,
    overflow: set<int>,
    initialized: bool)

  function Elapsed(w: Wheel): int {
    w.base - w.clock.origin
  }

  ghost predicate Idle(l: Level) {
    && l.current == 0
    && forall j :: 0 <= j < |l.buckets| ==> l.buckets[j] == {}
  }

  ghost predicate Ok(w: Wheel) {
    && Aligned(w.clock.gap, w.levels)
    && Indexed(w.levels, w.slotLocation, {})
    && if w.initialized then
         && 0 <= Elapsed(w)
         && Elapsed(w) % w.clock.gap == 0
         && LevelsInv(w.clock, w.levels, TicksAt(w.levels, Elapsed(w)))
         && forall k :: k in w.overflow ==> Coverage(w.levels) <= k * w.clock.gap - w.base
       else
         && w.overflow == {}
         && w.slotLocation == map[]
         && forall i :: 0 <= i < |w.levels| ==> Idle(w.levels[i])
  }

  /** All keys in the wheel, in whatever bucket or in overflow. */
  ghost function Held(w: Wheel): set<int>
    requires Ok(w)
  {
    BucketKeys(w.levels) + w.overflow
  }

  /** No key is held twice, and the index names the bucket of each. */
  ghost predicate Unique(w: Wheel) {
    Single(w.levels, w.slotLocation, w.overflow, {})
  }

  /** Keys with a copy that reaches level 0 in time, in a jump of any length. */
  ghost function PromptKeys(w: Wheel): set<int>
    requires Ok(w)
  {
    if w.initialized then Prompt(w.clock, w.levels, TicksAt(w.levels, Elapsed(w))) else {}
  }

  /** Keys with a copy in an upper bucket that cascades a whole bucket width, or
      more, before the key is due. */
  ghost function LateKeys(w: Wheel): set<int>
    requires Ok(w)
  {
    if w.initialized then Late(w.clock, w.levels, TicksAt(w.levels, Elapsed(w))) else {}
  }

  ghost function DueBefore(gap: int, keys: set<int>, time: int): set<int> {
    set k | k in keys && k * gap < time
  }

  /** Integer division as Go performs it, towards zero. */
  function TruncDiv(a: int, b: int): int
    requires b >= 1
  {
    if a >= 0 then a / b else -((-a) / b)
  }

  function SlotBase(gap: int, now: int): int
    requires gap >= 1
  {
    TruncDiv(now, gap) * gap
  }

  /** `b` is where the slot of `now` begins; before time zero division rounds the
      other way, and `b` is where it ends. */
  predicate SlotStart(gap: int, now: int, b: int)
    requires gap >= 1
  {
    && b % gap == 0
    && (now >= 0 ==> b <= now < b + gap)
    && (now <= 0 ==> b - gap < now <= b)
  }

  /** Slot `k` lies wholly before `now`; before time zero, it has begun. */
  predicate Over(gap: int, now: int, k: int) {
    if now >= 0 then (k + 1) * gap <= now else k * gap < now
  }

  lemma SlotBaseIs(gap: int, now: int)
    requires gap >= 1
    ensures SlotStart(gap, now, SlotBase(gap, now))
    ensures forall b :: SlotStart(gap, now, b) ==> b == SlotBase(gap, now)
    ensures forall k :: k * gap < SlotBase(gap, now) <==> Over(gap, now, k)
  {
    var q, b := TruncDiv(now, gap), SlotBase(gap, now);
    TruncBounds(gap, now);
    hide TruncDiv, Over;
    MultipleOf(q, gap);
    forall c | SlotStart(gap, now, c) ensures c == b {
      OnlyStart(gap, now, c, q);
    }
    forall k ensures k * gap < b <==> Over(gap, now, k) {
      OverIs(gap, now, k, q);
    }
  }

  lemma TruncBounds(gap: int, now: int)
    requires gap >= 1
    ensures var b := TruncDiv(now, gap) * gap;
      (now >= 0 ==> b <= now < b + gap) && (now <= 0 ==> b - gap < now <= b)
  {
    if now < 0 {
      var m := (-now) / gap;
      assert TruncDiv(now, gap) * gap == -(m * gap);
    }
  }

  lemma OnlyStart(gap: int, now: int, c: int, q: int)
    requires gap >= 1 && SlotStart(gap, now, c)
    requires (now >= 0 ==> q * gap <= now < q * gap + gap) && (now <= 0 ==> q * gap - gap < now <= q * gap)
    ensures c == q * gap
  {
    var p := c / gap;
    assert c == p * gap;
    SameMultiple(gap, p, q);
  }

  /** Two multiples less than one gap apart are the same. */
  lemma SameMultiple(gap: int, p: int, q: int)
    requires gap >= 1 && -gap < p * gap - q * gap < gap
    ensures p == q
  {
    if p < q {
      ScaleLe(p + 1, q, gap);
    } else if q < p {
      ScaleLe(q + 1, p, gap);
    }
  }

  lemma OverIs(gap: int, now: int, k: int, q: int)
    requires gap >= 1
    requires if now >= 0 then q * gap <= now < q * gap + gap else q * gap - gap < now <= q * gap
    ensures k * gap < q * gap <==> Over(gap, now, k)
  {
    if k < q {
      ScaleLe(k + 1, q, gap);
    } else {
      ScaleLe(q, k, gap);
    }
    assert (k + 1) * gap == k * gap + gap;
  }

  lemma SlotBaseExact(gap: int, k: int)
    requires gap >= 1
    ensures SlotBase(gap, k * gap) == k * gap
  {
    if k >= 0 {
      ScaleLe(0, k, gap);
      DivisionUnique(k * gap, gap, k, 0);
    } else {
      ScaleLe(k, -1, gap);
      DivisionUnique(-(k * gap), gap, -k, 0);
    }
  }

  lemma MultipleOf(a: int, gap: int)
    requires gap >= 1
    ensures (a * gap) % gap == 0
  {
    DivisionUnique(a * gap, gap, a, 0);
  }

  ghost function Elements(s: seq<int>): set<int> {
    set k | k in s
  }

  lemma ElementsAppend(s: seq<int>, t: seq<int>)
    ensures Elements(s + t) == Elements(s) + Elements(t)
  {
  }

  lemma ElementsFirst(s: seq<int>)
    ensures s == [] || s[0] in Elements(s)
  {
  }

  lemma ElementsSnoc(s: seq<int>, k: int)
    ensures Elements(s + [k]) == Elements(s) + {k}
  {
  }

  lemma ElementsPrefix(s: seq<int>, i: int)
    requires 0 <= i < |s|
    ensures Elements(s[..i + 1]) == Elements(s[..i]) + {s[i]}
  {
    assert s[..i + 1] == s[..i] + [s[i]];
    ElementsSnoc(s[..i], s[i]);
  }

  // ---------------------------------------------------------------- operations

  ghost predicate SameWheel(w: Wheel, w': Wheel) {
    && w'.clock.gap == w.clock.gap
    && Shape(w'.levels) == Shape(w.levels)
    && (w.initialized ==> w'.clock == w.clock)
  }

  ghost predicate InitSpec(w: Wheel, now: int, w': Wheel)
    requires Ok(w)
  {
    && Ok(w') && SameWheel(w, w') && w'.initialized
    && (w.initialized ==> w' == w)
    && (!w.initialized ==> w'.base == w'.clock.origin == SlotBase(w.clock.gap, now) && Held(w') == {} && Unique(w'))
  }

  /** `findBucket` chose `s` for a key `delta` seconds ahead, and only that bucket changed. */
  ghost predicate Placed(levels: seq<Level>, delta: int, k: int, s: SlotLoc, levels': seq<Level>) {
    && Chosen(levels, delta, s.level)
    && WellFormed(levels[s.level])
    && s.bucket == TargetBucket(levels, delta, s.level)
    && 0 <= s.bucket < levels[s.level].bucketCount
    && levels' == Put(levels, s.level, s.bucket, k)
  }

  /** Some copy of `k` other than the one the index knows. */
  ghost predicate Shadowed(w: Wheel, k: int) {
    if k in w.slotLocation then k in w.overflow || exists s :: Holds(w.levels, s, k) && s != w.slotLocation[k]
    else exists s :: Holds(w.levels, s, k)
  }

  ghost predicate AddSpec(w: Wheel, k: int, w': Wheel)
    requires Ok(w)
  {
    && Ok(w') && SameWheel(w, w') && w'.initialized
    && w'.base == (if w.initialized then w.base else k * w.clock.gap)
    && Held(w') == Held(w) + {k}
    && w'.overflow == w.overflow
    && k in w'.slotLocation && w'.slotLocation == w.slotLocation[k := w'.slotLocation[k]]
    && Placed(w.levels, Delta(w'.clock, Elapsed(w'), k), k, w'.slotLocation[k], w'.levels)
    && (Unique(w) && k !in Held(w) ==> Unique(w'))
    && (w.initialized && k in LevelKeys(w.levels[0]) ==>
          w'.levels == w.levels && w'.slotLocation[k].level == 0)
  }

  ghost predicate RemoveSpec(w: Wheel, k: int, w': Wheel)
    requires Ok(w)
  {
    && Ok(w') && SameWheel(w, w') && w'.initialized == w.initialized && w'.base == w.base
    && Held(w) - {k} <= Held(w') <= Held(w)
    && w'.slotLocation == w.slotLocation - {k}
    && (k in Held(w') <==> Shadowed(w, k))
    && (Unique(w) ==> Unique(w') && Held(w') == Held(w) - {k})
  }

  ghost predicate AdvanceSpec(w: Wheel, now: int, ready: seq<int>, w': Wheel)
    requires Ok(w)
  {
    var gap := w.clock.gap;
    var newBase := SlotBase(gap, now);
    if !w.initialized || newBase <= w.base then
      w' == w && ready == []
    else
      && Ok(w') && SameWheel(w, w') && w'.initialized
      && w'.base == newBase
      && Distinct(ready)
      && Elements(ready) == DueBefore(gap, PromptKeys(w), newBase)
      && Held(w') == (PromptKeys(w) - Elements(ready)) + LateKeys(w) + w.overflow
      && PromptKeys(w) - Elements(ready) <= PromptKeys(w')
      && (Unique(w) ==> Unique(w'))
  }

  ghost predicate ResetSpec(w: Wheel, w': Wheel)
    requires Ok(w)
  {
    && Ok(w') && w'.clock.gap == w.clock.gap && Shape(w'.levels) == Shape(w.levels)
    && !w'.initialized && Held(w') == {} && Unique(w')
  }

  // ---------------------------------------------------------------- consequences of the invariant

  lemma HeldSplit(w: Wheel)
    requires Ok(w)
    ensures Held(w) == PromptKeys(w) + LateKeys(w) + w.overflow
  {
    if w.initialized {
      BucketKeysSplit(w.clock, w.levels, TicksAt(w.levels, Elapsed(w)));
    } else {
      forall i | 0 <= i < |w.levels| ensures LevelKeys(w.levels[i]) == {} {
        assert Idle(w.levels[i]);
      }
      assert BucketKeys(w.levels) == {};
    }
  }

  /** A freshly initialised wheel has every pointer at tick zero. */
  lemma FreshLevels(c: Clock, levels: seq<Level>)
    requires Aligned(c.gap, levels) && c.origin % c.gap == 0
    requires forall i :: 0 <= i < |levels| ==> Idle(levels[i])
    ensures LevelsInv(c, levels, TicksAt(levels, 0))
  {
    forall i | 0 <= i < |levels| ensures LevelInv(c, i == 0, levels[i], TicksAt(levels, 0)[i]) {
      assert Idle(levels[i]);
      DivisionUnique(0, levels[i].granularity, 0, 0);
      DivisionUnique(0, levels[i].bucketCount, 0, 0);
    }
  }

  lemma GroundTickExact(w: Wheel)
    requires Ok(w) && w.initialized
    ensures TicksAt(w.levels, Elapsed(w))[0] * w.clock.gap == Elapsed(w)
  {
    var e, gap := Elapsed(w), w.clock.gap;
    assert e == (e / gap) * gap + e % gap;
  }
}
