/**
 Whole runs of a timing wheel against the plain set it stands for, and the
 inputs on which the wheel and the set part ways.
 */
module WheelRuns {
  import opened WheelLevels
  import opened WheelGeometry
  import opened WheelIndex
  import opened WheelSpec
  import opened WheelSteps
  import opened WheelScan
  import opened WheelTheorems

  datatype Op = Init(now: int) | Add(key: int) | Remove(key: int) | Advance(now: int) | Reset

  /** The reference model: a base time, once started, and a set of keys. */
  datatype Flat = Flat(started: bool, base: int, keys: set<int>)

  const UNSTARTED := Flat(false, 0, {})

  ghost function Abs(w: Wheel): Flat
    requires Ok(w)
  {
    Flat(w.initialized, if w.initialized then w.base else 0, Held(w))
  }

  ghost function FlatOut(gap: int, f: Flat, op: Op): set<int>
    requires gap >= 1
  {
    if op.Advance? && f.started && Moves(gap, f.base, op.now) then set k | k in f.keys && Over(gap, op.now, k) else {}
  }

  /** The beginning of the slot of `now`, by remainders. */
  function Floor(gap: int, now: int): int
    requires gap >= 1
  {
    if now >= 0 then now - now % gap else now + (-now) % gap
  }

  ghost function FlatNext(gap: int, f: Flat, op: Op): Flat
    requires gap >= 1
  {
    match op
    case Init(now) => if f.started then f else Flat(true, Floor(gap, now), {})
    case Add(k) => if f.started then f.(keys := f.keys + {k}) else Flat(true, k * gap, f.keys + {k})
    case Remove(k) => f.(keys := f.keys - {k})
    case Advance(now) =>
      if f.started && Moves(gap, f.base, now) then Flat(true, Floor(gap, now), f.keys - FlatOut(gap, f, op)) else f
    case Reset => UNSTARTED
  }

  lemma FloorIs(gap: int, now: int)
    requires gap >= 1
    ensures Floor(gap, now) == SlotBase(gap, now)
  {
    SlotBaseIs(gap, now);
    var b := Floor(gap, now);
    assert SlotStart(gap, now, b) by {
      if now >= 0 {
        assert b == (now / gap) * gap;
        MultipleOf(now / gap, gap);
      } else {
        assert b == (-((-now) / gap)) * gap;
        MultipleOf(-((-now) / gap), gap);
      }
    }
  }

  ghost function FlatAt(gap: int, f: Flat, ops: seq<Op>, i: nat): Flat
    requires gap >= 1 && i <= |ops|
  {
    if i == 0 then f else FlatNext(gap, FlatAt(gap, f, ops, i - 1), ops[i - 1])
  }

  ghost predicate WheelStep(w: Wheel, op: Op, out: seq<int>, w': Wheel)
    requires Ok(w)
  {
    match op
    case Init(now) => InitSpec(w, now, w') && out == []
    case Add(k) => AddSpec(w, k, w') && out == []
    case Remove(k) => RemoveSpec(w, k, w') && out == []
    case Advance(now) => AdvanceSpec(w, now, out, w')
    case Reset => ResetSpec(w, w') && out == []
  }

  /** No jump exceeds one turn of level 0, and nothing is removed that has a copy
      the index does not know. */
  ghost predicate Gentle(w: Wheel, op: Op)
    requires Ok(w)
  {
    match op
    case Remove(k) => !Shadowed(w, k)
    case Advance(now) => w.initialized ==> Reaches(w.clock.gap, w.levels[0].bucketCount, w.base, now)
    case _ => true
  }

  ghost predicate StepAt(ws: seq<Wheel>, ops: seq<Op>, outs: seq<seq<int>>, i: int)
    requires 0 <= i < |ops| == |outs| && |ws| == |ops| + 1
  {
    Ok(ws[i]) && WheelStep(ws[i], ops[i], outs[i], ws[i + 1])
  }

  /** A run of wheel operations, with the keys each `Advance` returned. */
  ghost predicate Run(ws: seq<Wheel>, ops: seq<Op>, outs: seq<seq<int>>) {
    && |outs| == |ops| && |ws| == |ops| + 1
    && Ok(ws[0])
    && forall i :: 0 <= i < |ops| ==> StepAt(ws, ops, outs, i)
  }

  ghost predicate GentleAt(ws: seq<Wheel>, ops: seq<Op>, i: int)
    requires 0 <= i < |ops| && |ws| == |ops| + 1
  {
    Ok(ws[i]) && Gentle(ws[i], ops[i])
  }

  ghost predicate GentleRun(ws: seq<Wheel>, ops: seq<Op>, outs: seq<seq<int>>) {
    Run(ws, ops, outs) && forall i :: 0 <= i < |ops| ==> GentleAt(ws, ops, i)
  }

  /** One `Remove` acts on the plain set if and only if the key has no copy that
      the index does not know. */
  lemma RemoveRefinesIff(w: Wheel, k: int, w': Wheel)
    requires Ok(w) && RemoveSpec(w, k, w')
    ensures Held(w') == Held(w) - {k} <==> !Shadowed(w, k)
  {
    hide Ok, Held, Shadowed, Unique;
    assert k !in Held(w') ==> Held(w') == Held(w) - {k};
  }

  lemma StepRefines(w: Wheel, op: Op, out: seq<int>, w': Wheel)
    requires Ok(w) && WheelStep(w, op, out, w') && Gentle(w, op)
    ensures Ok(w') && w'.clock.gap == w.clock.gap
    ensures Abs(w') == FlatNext(w.clock.gap, Abs(w), op)
    ensures Elements(out) == FlatOut(w.clock.gap, Abs(w), op)
  {
    hide Ok, Held, Unique, Shadowed, DueBefore, PromptKeys, LateKeys;
    OkHasLevels(w);
    match op
    case Init(now) => FloorIs(w.clock.gap, now);
    case Add(k) =>
    case Remove(k) => RemoveRefinesIff(w, k, w');
    case Advance(now) =>
      AdvanceRefines(w, now, out, w');
    case Reset =>
  }

  lemma AdvanceRefines(w: Wheel, now: int, out: seq<int>, w': Wheel)
    requires Ok(w) && AdvanceSpec(w, now, out, w') && Gentle(w, Advance(now))
    ensures Ok(w') && w'.clock.gap == w.clock.gap >= 1
    ensures Abs(w') == FlatNext(w.clock.gap, Abs(w), Advance(now))
    ensures Elements(out) == FlatOut(w.clock.gap, Abs(w), Advance(now))
  {
    OkHasLevels(w);
    var gap := w.clock.gap;
    AdvanceMovesIff(w, now, out, w');
    assert w.base < w'.base ==> Ok(w') && w'.clock == w.clock && w'.initialized;
    hide Ok, Held, AdvanceSpec, Over, Floor, Moves, Reaches, SlotStart;
    if w.base < w'.base {
      BaseAligned(w);
      ReachesIs(gap, w.levels[0].bucketCount, w.base, now, w'.base);
      DeliveredByClock(w, now, out, w');
      FloorIs(gap, now);
      SlotBaseIs(gap, now);
      TakenAway(Held(w), Elements(out), Held(w'), k => Over(gap, now, k));
    }
  }

  lemma TakenAway(all: set<int>, taken: set<int>, left: set<int>, p: int -> bool)
    requires taken == (set k | k in all && p(k)) && left == (set k | k in all && !p(k))
    ensures left == all - taken
  {
  }

  /** The wheel refines the plain set over every run of gentle operations. */
  lemma {:induction false} RunRefinesFlatSet(ws: seq<Wheel>, ops: seq<Op>, outs: seq<seq<int>>, i: nat)
    requires GentleRun(ws, ops, outs) && i <= |ops|
    ensures Ok(ws[i]) && ws[i].clock.gap == ws[0].clock.gap >= 1
    ensures Abs(ws[i]) == FlatAt(ws[0].clock.gap, Abs(ws[0]), ops, i)
    ensures i < |ops| ==> Elements(outs[i]) == FlatOut(ws[0].clock.gap, Abs(ws[i]), ops[i])
  {
    hide Ok, Abs, WheelStep, Gentle;
    OkHasLevels(ws[0]);
    if i > 0 {
      RunRefinesFlatSet(ws, ops, outs, i - 1);
      assert StepAt(ws, ops, outs, i - 1) && GentleAt(ws, ops, i - 1);
      StepRefines(ws[i - 1], ops[i - 1], outs[i - 1], ws[i]);
    }
    if i < |ops| {
      assert StepAt(ws, ops, outs, i) && GentleAt(ws, ops, i);
      StepRefines(ws[i], ops[i], outs[i], ws[i + 1]);
    }
  }

  lemma OkHasLevels(w: Wheel)
    requires Ok(w)
    ensures |w.levels| >= 2 && w.clock.gap >= 1
    ensures !w.initialized ==> Held(w) == {}
  {
    HeldSplit(w);
  }

  ghost predicate Passes(gap: int, f: Flat, op: Op, k: int)
    requires gap >= 1
  {
    op.Advance? && f.started && Moves(gap, f.base, op.now) && Over(gap, op.now, k)
  }

  /** In such a run a key that is held, and neither removed nor reset away, is
      returned by the first base-moving `Advance` past its slot, and by none before. */
  lemma {:induction false} DeliveredByFirstPass(ws: seq<Wheel>, ops: seq<Op>, outs: seq<seq<int>>, k: int, a: nat, d: nat)
    requires GentleRun(ws, ops, outs) && ws[0].clock.gap >= 1 && a <= d < |ops|
    requires Ok(ws[a]) && k in Held(ws[a])
    requires forall j :: a <= j < d ==>
      ops[j] != Remove(k) && ops[j] != Reset && !Passes(ws[0].clock.gap, FlatAt(ws[0].clock.gap, Abs(ws[0]), ops, j), ops[j], k)
    ensures Ok(ws[d]) && k in Held(ws[d])
    ensures k in outs[d] <==> Passes(ws[0].clock.gap, FlatAt(ws[0].clock.gap, Abs(ws[0]), ops, d), ops[d], k)
    decreases d
  {
    hide Ok, Held, StepAt;
    RunRefinesFlatSet(ws, ops, outs, d);
    if a < d {
      DeliveredByFirstPass(ws, ops, outs, k, a, d - 1);
      RunRefinesFlatSet(ws, ops, outs, d - 1);
      OkHasLevels(ws[d - 1]);
    }
    assert k in outs[d] <==> k in Elements(outs[d]);
  }

  // ---------------------------------------------------------------- where wheel and set part

  /** Adding a key two turns ahead in mid-rotation parks it: one jump past it
      then leaves it overdue in the wheel, however the wheel is shaped. */
  lemma LongJumpMisses(w: Wheel, k: int, w1: Wheel, now: int, ready: seq<int>, w2: Wheel)
    requires Ok(w) && w.initialized && w.levels[1].bucketCount >= 2
    requires var g, e := w.levels[1].granularity, Elapsed(w) % w.levels[1].granularity;
      e > 0 && k * w.clock.gap == w.base + 2 * g - e
    requires k !in Held(w)
    requires AddSpec(w, k, w1)
    requires AdvanceSpec(w1, now, ready, w2) && k * w.clock.gap < SlotBase(w.clock.gap, now)
    ensures Ok(w2) && k !in ready && k in Held(w2) && k * w.clock.gap < w2.base
  {
    var g, e := w.levels[1].granularity, Elapsed(w) % w.levels[1].granularity;
    var s, delta := w1.slotLocation[k], 2 * g - e;
    assert Delta(w1.clock, Elapsed(w1), k) == delta;
    TwoTurnsAhead(w, delta, e, s.level);
    LateOnLevelOne(w, k, w1);
    OnlyCopy(w, k, w1);
    PromptOrLate(w1, k);
    HeldSplit(w1);
    assert k !in Elements(ready);
  }

  lemma TwoTurnsAhead(w: Wheel, delta: int, e: int, i: int)
    requires Ok(w) && w.levels[1].bucketCount >= 2
    requires e == Elapsed(w) % w.levels[1].granularity > 0 && delta == 2 * w.levels[1].granularity - e
    requires Chosen(w.levels, delta, i)
    ensures i == 1 && Offset(w.levels, delta, 1) == 0
  {
    var g := w.levels[1].granularity;
    assert Chosen(w.levels, delta, 1) by {
      ScaleLe(2, w.levels[1].bucketCount, g);
    }
    ChosenUnique(w.clock.gap, w.levels, delta, 1, i);
    DivisionUnique(delta, g, 1, g - e);
  }

  lemma OnlyCopy(w: Wheel, k: int, w1: Wheel)
    requires Ok(w) && AddSpec(w, k, w1) && k !in Held(w)
    ensures forall x :: Holds(w1.levels, x, k) ==> x == w1.slotLocation[k]
  {
    KeysAreHeld(w.levels, k);
    forall x | Holds(w1.levels, x, k) && x != w1.slotLocation[k] ensures false {
      assert Holds(w.levels, x, k);
    }
  }

  lemma LateOnLevelOne(w: Wheel, k: int, w1: Wheel)
    requires Ok(w) && w.initialized && AddSpec(w, k, w1)
    requires w1.slotLocation[k].level == 1 && Offset(w.levels, Delta(w1.clock, Elapsed(w1), k), 1) == 0
    requires k * w.clock.gap == w.base + 2 * w.levels[1].granularity - Elapsed(w) % w.levels[1].granularity
    ensures LateCopy(w1, w1.slotLocation[k], k)
  {
    var l, s := w.levels[1], w1.slotLocation[k];
    DivisionUnique(l.current, l.bucketCount, 0, l.current);
    DivisionUnique(0, l.bucketCount, 0, 0);
    assert s.bucket == l.current;
    assert Holds(w1.levels, s, k);
  }

  /** The bucket `findBucket` picks for the key at the present base. */
  ghost predicate Fits(w: Wheel, k: int, s: SlotLoc) {
    var delta := Delta(w.clock, Elapsed(w), k);
    Chosen(w.levels, delta, s.level) && WellFormed(w.levels[s.level]) && s.bucket == TargetBucket(w.levels, delta, s.level)
  }

  /** A key that is held, and whose index entry is not where `Add` would put it now. */
  ghost predicate Strays(w: Wheel, k: int)
    requires Ok(w)
  {
    k in Held(w) && !(k in w.slotLocation && Fits(w, k, w.slotLocation[k]))
  }

  /** `Add` makes a second copy precisely of a key that strays. */
  lemma AddUniqueIff(w: Wheel, k: int, w': Wheel)
    requires Ok(w) && Unique(w) && AddSpec(w, k, w')
    ensures Unique(w') <==> !Strays(w, k)
  {
    if k in Held(w) {
      OkHasLevels(w);
      var s := w'.slotLocation[k];
      FitsOnce(w, k, s, w');
      if k in w.slotLocation && w.slotLocation[k] == s {
        assert w'.slotLocation == w.slotLocation;
        forall x, y | Holds(w'.levels, x, y) ensures y in w'.slotLocation && w'.slotLocation[y] == x {
          assert Holds(w.levels, x, y) || (x == s && y == k);
        }
      } else if k in w.overflow {
        assert k in w'.overflow && k in w'.slotLocation;
      } else {
        KeysAreHeld(w.levels, k);
        var x :| Holds(w.levels, x, k);
        assert Holds(w'.levels, x, k);
      }
    }
  }

  lemma FitsOnce(w: Wheel, k: int, s: SlotLoc, w': Wheel)
    requires Ok(w) && w.initialized && AddSpec(w, k, w') && s == w'.slotLocation[k]
    ensures forall x :: Fits(w, k, x) <==> x == s
  {
    forall x ensures Fits(w, k, x) <==> x == s {
      if Fits(w, k, x) {
        ChosenUnique(w.clock.gap, w.levels, Delta(w.clock, Elapsed(w), k), x.level, s.level);
      }
    }
  }

  /** Adding a key and removing it again leaves it in the wheel if and only if it
      strayed: then `Remove` erases only the new copy. */
  lemma SecondCopyIff(w: Wheel, k: int, w1: Wheel, w2: Wheel)
    requires Ok(w) && Unique(w) && AddSpec(w, k, w1) && RemoveSpec(w1, k, w2)
    ensures k in Held(w2) <==> Strays(w, k)
  {
    AddUniqueIff(w, k, w1);
    if Strays(w, k) {
      OkHasLevels(w);
      FitsOnce(w, k, w1.slotLocation[k], w1);
      if k !in w.overflow {
        KeysAreHeld(w.levels, k);
        var x :| Holds(w.levels, x, k);
        assert Holds(w1.levels, x, k);
      }
    }
  }

  ghost predicate SettledAt(ws: seq<Wheel>, ops: seq<Op>, i: int)
    requires 0 <= i < |ops| && |ws| == |ops| + 1
  {
    Ok(ws[i]) && (ops[i].Add? ==> !Strays(ws[i], ops[i].key))
  }

  /** Over every run, with jumps of any length, a wheel without double copies stays
      without them as long as no key that strays is added. */
  lemma {:induction false} RunStaysUnique(ws: seq<Wheel>, ops: seq<Op>, outs: seq<seq<int>>, i: nat)
    requires Run(ws, ops, outs) && Unique(ws[0]) && i <= |ops|
    requires forall j :: 0 <= j < i ==> SettledAt(ws, ops, j)
    ensures Ok(ws[i]) && Unique(ws[i]) && forall k :: !Shadowed(ws[i], k)
  {
    hide Ok, Unique, Strays, Shadowed;
    if i > 0 {
      RunStaysUnique(ws, ops, outs, i - 1);
      assert StepAt(ws, ops, outs, i - 1) && SettledAt(ws, ops, i - 1);
      StepStaysUnique(ws[i - 1], ops[i - 1], outs[i - 1], ws[i]);
    }
    forall k ensures !Shadowed(ws[i], k) {
      UniqueIsNotShadowed(ws[i], k);
    }
  }

  lemma StepStaysUnique(w: Wheel, op: Op, out: seq<int>, w': Wheel)
    requires Ok(w) && Unique(w) && WheelStep(w, op, out, w') && (op.Add? ==> !Strays(w, op.key))
    ensures Ok(w') && Unique(w')
  {
    hide Ok, Unique, Strays, Held, PromptKeys, LateKeys;
    if op.Add? {
      AddUniqueIff(w, op.key, w');
    }
  }

  /** Such a wheel removes every key gently. */
  lemma UniqueIsNotShadowed(w: Wheel, k: int)
    requires Ok(w) && Unique(w)
    ensures !Shadowed(w, k)
  {
  }
}
