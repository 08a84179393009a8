/**
 The hierarchical timing wheel, updated in place.
 */
module TimingWheel {
  import opened Sequences
  import opened WheelLevels
  import opened WheelGeometry
  import opened WheelIndex
  import opened WheelSpec
  import opened WheelSteps
  import opened WheelScan

  /** Some key of the set: the order in which Go ranges over a map is unspecified. */
  method AnyOf(keys: set<int>) returns (k: int)
    requires keys != {}
    ensures k in keys
  {
    Inhabited(keys);
    k :| k in keys;
  }

  class HierarchicalTimingWheel {
    const slotGap: int
    var levels: seq<Level>
    var currentBase: int
    var slotLocation: map<int, SlotLoc>
    var overflow: set<int>
    var initialized: bool
    /** Base time at which the wheel was initialised. */
    ghost var origin: int

    ghost function Clk(): Clock
      reads this
    {
      Clock(slotGap, origin)
    }

    ghost function View(): Wheel
      reads this
    {
      Wheel(Clk(), levels, currentBase, slotLocation, overflow, initialized)
    }

    ghost predicate Valid()
      reads this
    {
      Ok(View())
    }

    constructor (slotGap: int, configs: seq<LevelConfig>)
      requires slotGap >= 1 && (configs == [] || AlignedConfigs(slotGap, configs))
      ensures this.slotGap == slotGap
      ensures Valid() && !initialized && Held(View()) == {} && Unique(View())
      ensures Shape(levels) == ShapeOf(if configs == [] then DefaultWheelConfigs(slotGap) else configs)
    {
      var cfgs := if configs == [] then DefaultWheelConfigs(slotGap) else configs;
      var ls := [];
      for i := 0 to |cfgs|
        invariant |ls| == i && forall j :: 0 <= j < i ==> ls[j] == EmptyLevelOf(cfgs[j])
      {
        var buckets := [];
        for j := 0 to cfgs[i].buckets
          invariant buckets == seq(j, _ => {})
        {
          buckets := buckets + [{}];
        }
        ls := ls + [Level(cfgs[i].granularity, cfgs[i].buckets, buckets, 0)];
      }
      NewLevels(slotGap, cfgs, ls);
      this.slotGap := slotGap;
      levels := ls;
      currentBase := 0;
      slotLocation := map[];
      overflow := {};
      initialized := false;
      origin := 0;
      new;
      HeldSplit(View());
    }

    method Init(now: int)
      requires Valid()
      modifies this
      ensures InitSpec(old(View()), now, View())
      ensures !old(initialized) ==> SlotStart(slotGap, now, currentBase)
    {
      if initialized {
        return;
      }
      SlotBaseIs(slotGap, now);
      currentBase := SlotBase(slotGap, now);
      initialized := true;
      origin := currentBase;
      MultipleOf(TruncDiv(now, slotGap), slotGap);
      FreshLevels(Clk(), levels);
      HeldSplit(old(View()));
    }

    /** Where a key `delta` seconds ahead goes. */
    method FindBucket(delta: int) returns (loc: SlotLoc, ok: bool)
      requires Aligned(slotGap, levels) && 0 <= delta
      ensures ok
      ensures Chosen(levels, delta, loc.level)
      ensures loc.bucket == TargetBucket(levels, delta, loc.level)
    {
      var elapsed := 0;
      for i := 0 to |levels|
        invariant i == 0 ==> elapsed == 0
        invariant 0 < i < |levels| ==> elapsed == levels[i].granularity <= delta
        invariant i < |levels|
      {
        var level := levels[i];
        var levelRange := level.granularity * level.bucketCount;
        if delta < levelRange || i == |levels| - 1 {
          var bucketsIntoLevel := delta / level.granularity;
          var offset := bucketsIntoLevel - elapsed / level.granularity;
          var bucket := (level.current + offset) % level.bucketCount;
          bucket := if bucket < level.bucketCount - 1 then bucket else level.bucketCount - 1;
          bucket := if bucket > 0 then bucket else 0;
          assert elapsed / level.granularity == (if i == 0 then 0 else 1) by {
            DivisionUnique(elapsed, level.granularity, if i == 0 then 0 else 1, 0);
          }
          return SlotLoc(i, bucket), true;
        }
        elapsed := levelRange;
        assert Nested(levels, i);
      }
      return SlotLoc(0, 0), false;
    }

    method Add(slotKey: int)
      requires Valid()
      modifies this
      ensures AddSpec(old(View()), slotKey, View())
    {
      ghost var w := View();
      var slotTime := slotKey * slotGap;
      if !initialized {
        currentBase := SlotBase(slotGap, slotTime);
        initialized := true;
        origin := currentBase;
        SlotBaseExact(slotGap, slotKey);
        MultipleOf(slotKey, slotGap);
        FreshLevels(Clk(), levels);
      }
      ghost var w1 := View();
      var delta := slotTime - currentBase;
      if delta < 0 {
        delta := 0;
      }
      var loc, ok := FindBucket(delta);
      if !ok {
        assert false;
      }
      levels := Put(levels, loc.level, loc.bucket, slotKey);
      slotLocation := slotLocation[slotKey := loc];
      AddCorrect(w, w1, slotKey, loc, View());
    }

    method Remove(slotKey: int)
      requires Valid()
      modifies this
      ensures RemoveSpec(old(View()), slotKey, View())
    {
      if slotKey in slotLocation {
        var loc := slotLocation[slotKey];
        assert Holds(levels, loc, slotKey);
        levels := Take(levels, loc, slotKey);
        slotLocation := slotLocation - {slotKey};
        RemoveIndexedCorrect(old(View()), slotKey, View());
      } else {
        overflow := overflow - {slotKey};
        RemoveOverflowCorrect(old(View()), slotKey, View());
      }
    }

    /** Empties the current bucket of `level` into the levels below, or into
        overflow, then moves the pointer and carries on upwards when it wraps. */
    method Cascade(level: int, ghost ticks: seq<int>) returns (ghost ticks': seq<int>)
      requires 1 <= level
      requires LevelsInv(Clk(), levels, ticks) && Midway(levels, ticks, currentBase - origin, level)
      requires Indexed(levels, slotLocation, {})
      modifies this`levels, this`slotLocation, this`overflow
      ensures Shape(levels) == old(Shape(levels))
      ensures LevelsInv(Clk(), levels, ticks') && OnTime(levels, ticks', currentBase - origin)
      ensures ticks'[0] == ticks[0]
      ensures Prompt(Clk(), levels, ticks') == old(Prompt(Clk(), levels, ticks))
      ensures Late(Clk(), levels, ticks') + overflow == old(Late(Clk(), levels, ticks) + overflow)
      ensures Indexed(levels, slotLocation, {})
      ensures old(Single(levels, slotLocation, overflow, {})) ==> Single(levels, slotLocation, overflow, {})
      decreases |levels| - level
    {
      hide LevelInv, Shape, Single, Indexed, Prompt, Late, Midway, OnTime;
      if level >= |levels| {
        AllArrived(levels, ticks, currentBase - origin, level);
        return ticks;
      }
      ticks' := CascadeLevel(level, ticks);
      if levels[level].current == 0 {
        ticks' := Cascade(level + 1, ticks');
      }
    }

    /** One level of a cascade: pass the current bucket down and move the pointer. */
    method CascadeLevel(level: int, ghost ticks: seq<int>) returns (ghost ticks': seq<int>)
      requires 1 <= level < |levels|
      requires LevelsInv(Clk(), levels, ticks) && Midway(levels, ticks, currentBase - origin, level)
      requires Indexed(levels, slotLocation, {})
      modifies this`levels, this`slotLocation, this`overflow
      ensures Shape(levels) == old(Shape(levels)) && |levels| == old(|levels|)
      ensures LevelsInv(Clk(), levels, ticks')
      ensures if levels[level].current == 0 then Midway(levels, ticks', currentBase - origin, level + 1)
              else OnTime(levels, ticks', currentBase - origin)
      ensures ticks'[0] == ticks[0]
      ensures Prompt(Clk(), levels, ticks') == old(Prompt(Clk(), levels, ticks))
      ensures Late(Clk(), levels, ticks') + overflow == old(Late(Clk(), levels, ticks) + overflow)
      ensures Indexed(levels, slotLocation, {})
      ensures old(Single(levels, slotLocation, overflow, {})) ==> Single(levels, slotLocation, overflow, {})
    {
      hide LevelInv, Shape, Single, Indexed, Prompt, Late, Midway, OnTime;
      ghost var single := Single(levels, slotLocation, overflow, {});
      var bucket := levels[level].buckets[levels[level].current];
      EmptyStep(Clk(), levels, ticks, currentBase - origin, level, slotLocation, overflow);
      levels := levels[level := Empty(levels[level])];
      CascadeBucket(level, bucket, ticks, single);

      TurnStep(Clk(), levels, ticks, currentBase - origin, level, slotLocation, overflow);
      levels := levels[level := Turn(levels[level])];
      ticks' := ticks[level := ticks[level] + 1];
    }

    method CascadeBucket(level: int, bucket: set<int>, ghost ticks: seq<int>, ghost single: bool)
      requires 1 <= level < |levels|
      requires LevelsInv(Clk(), levels, ticks) && Midway(levels, ticks, currentBase - origin, level)
      requires forall k :: k in bucket ==> currentBase <= k * slotGap
      requires Indexed(levels, slotLocation, bucket)
      requires single ==> Single(levels, slotLocation, overflow, bucket)
      modifies this`levels, this`slotLocation, this`overflow
      ensures Shape(levels) == old(Shape(levels)) && levels[level] == old(levels[level])
      ensures LevelsInv(Clk(), levels, ticks) && Midway(levels, ticks, currentBase - origin, level)
      ensures Prompt(Clk(), levels, ticks) == old(Prompt(Clk(), levels, ticks))
                + PromptOf(Clk(), false, levels[level].granularity, ticks[level], bucket)
      ensures Late(Clk(), levels, ticks) + overflow == old(Late(Clk(), levels, ticks) + overflow)
                + LateOf(Clk(), false, levels[level].granularity, ticks[level], bucket)
      ensures Indexed(levels, slotLocation, {})
      ensures single ==> Single(levels, slotLocation, overflow, {})
    {
      hide LevelInv, Shape, Single, Indexed, LevelPrompt, LevelLate;
      var remaining := bucket;
      ghost var p0, l0 := Prompt(Clk(), levels, ticks), Late(Clk(), levels, ticks) + overflow;
      ghost var down, parked := {}, {};
      while remaining != {}
        invariant remaining <= bucket
        invariant Shape(levels) == old(Shape(levels)) && |levels| == old(|levels|) && levels[level] == old(levels[level])
        invariant LevelsInv(Clk(), levels, ticks) && Midway(levels, ticks, currentBase - origin, level)
        invariant down == PromptOf(Clk(), false, levels[level].granularity, ticks[level], bucket - remaining)
        invariant parked == LateOf(Clk(), false, levels[level].granularity, ticks[level], bucket - remaining)
        invariant Prompt(Clk(), levels, ticks) == p0 + down
        invariant Late(Clk(), levels, ticks) + overflow == l0 + parked
        invariant Indexed(levels, slotLocation, remaining)
        invariant single ==> Single(levels, slotLocation, overflow, remaining)
        decreases remaining
      {
        var slotKey := AnyOf(remaining);
        CascadeKey(level, slotKey, ticks, remaining, single);
        remaining := remaining - {slotKey};
        if PromptAt(Clk(), false, levels[level].granularity, ticks[level], slotKey) {
          down := down + {slotKey};
        } else {
          parked := parked + {slotKey};
        }
      }
      assert bucket - remaining == bucket;
    }

    method CascadeKey(level: int, slotKey: int, ghost ticks: seq<int>, ghost moving: set<int>, ghost single: bool)
      requires 1 <= level < |levels|
      requires LevelsInv(Clk(), levels, ticks) && Midway(levels, ticks, currentBase - origin, level)
      requires currentBase <= slotKey * slotGap && slotKey in moving
      requires Indexed(levels, slotLocation, moving)
      requires single ==> Single(levels, slotLocation, overflow, moving)
      modifies this`levels, this`slotLocation, this`overflow
      ensures Shape(levels) == old(Shape(levels)) && |levels| == old(|levels|) && levels[level] == old(levels[level])
      ensures LevelsInv(Clk(), levels, ticks) && Midway(levels, ticks, currentBase - origin, level)
      ensures if PromptAt(Clk(), false, levels[level].granularity, ticks[level], slotKey) then
                && Prompt(Clk(), levels, ticks) == old(Prompt(Clk(), levels, ticks)) + {slotKey}
                && Late(Clk(), levels, ticks) == old(Late(Clk(), levels, ticks))
                && overflow == old(overflow)
              else
                && levels == old(levels)
                && overflow == old(overflow) + {slotKey}
      ensures Indexed(levels, slotLocation, moving - {slotKey})
      ensures single ==> Single(levels, slotLocation, overflow, moving - {slotKey})
    {
      hide LevelInv, Shape, Single, Indexed, Prompt, Late;
      var slotTime := slotKey * slotGap;
      var delta := slotTime - currentBase;
      if delta < 0 {
        delta := 0;
      }
      var loc, ok := FindBucket(delta);
      ChosenBelow(slotGap, levels, delta, loc.level, level);
      assert (ticks[level] + 2) * levels[level].granularity
          == (ticks[level] + 1) * levels[level].granularity + levels[level].granularity;
      if ok && loc.level < level {
        CascadePlaced(Clk(), levels, ticks, currentBase - origin, level, slotLocation, overflow, moving, slotKey, loc);
        levels := Put(levels, loc.level, loc.bucket, slotKey);
        slotLocation := slotLocation[slotKey := loc];
      } else {
        ParkIndex(levels, slotLocation, overflow, moving, slotKey);
        overflow := overflow + {slotKey};
        slotLocation := slotLocation - {slotKey};
      }
    }

    /** Moves the base forward to the slot of `now` and returns the keys whose
        slots have passed. */
    method Advance(now: int) returns (ready: seq<int>)
      requires Valid()
      modifies this
      ensures AdvanceSpec(old(View()), now, ready, View())
      ensures currentBase != old(currentBase) ==> SlotStart(slotGap, now, currentBase)
      ensures forall k :: k in ready ==> Over(slotGap, now, k)
    {
      hide LevelsInv, Shape, Single, Indexed, Prompt, Late, OnTime, TicksAt, AdvanceSpec, Coverage;
      ready := [];
      var newBase := SlotBase(slotGap, now);
      if !initialized || newBase <= currentBase {
        Unmoved(View(), now);
        return;
      }
      ghost var w := View();
      ghost var ticks := TicksAt(levels, currentBase - origin);
      StartRolling(w);
      ghost var left := StepsToGo(w, now);
      while currentBase < newBase
        invariant initialized && Clk() == w.clock
        invariant Rolling(w, ready, levels, ticks, currentBase, slotLocation, overflow)
        invariant newBase - currentBase == left * slotGap >= 0
        decreases newBase - currentBase
      {
        label before:
        OneStepLess(left, slotGap);
        left := left - 1;
        ghost var ticks0 := ticks;
        var drained;
        drained, ticks := Step(ticks);
        RollOn(w, ready, drained,
               old@before(levels), ticks0, old@before(currentBase), old@before(slotLocation), old@before(overflow),
               levels, ticks, currentBase, slotLocation, overflow);
        ready := ready + drained;
      }
      label arrived:
      var promoted := DrainOverflow(newBase, ticks);
      Arrive(w, now, ready, old@arrived(levels), ticks, old@arrived(slotLocation), old@arrived(overflow), View());
      assert ready + promoted == ready;
      ready := ready + promoted;
      AdvanceOnTime(w, now, ready, View());
    }

    /** The two passes over overflow that end `Advance`; the second never finds a key. */
    method DrainOverflow(newBase: int, ghost ticks: seq<int>) returns (promoted: seq<int>)
      requires Turning(Clk(), levels, ticks, currentBase, slotLocation) && newBase == currentBase
      modifies this`levels, this`slotLocation, this`overflow
      ensures promoted == []
      ensures Shape(levels) == old(Shape(levels))
      ensures Turning(Clk(), levels, ticks, currentBase, slotLocation)
      ensures Prompt(Clk(), levels, ticks) + Late(Clk(), levels, ticks) + overflow
           == old(Prompt(Clk(), levels, ticks) + Late(Clk(), levels, ticks) + overflow)
      ensures old(Prompt(Clk(), levels, ticks)) <= Prompt(Clk(), levels, ticks)
      ensures forall k :: k in overflow ==> old(Coverage(levels)) <= k * slotGap - currentBase
      ensures old(Single(levels, slotLocation, overflow, {})) ==> Single(levels, slotLocation, overflow, {})
    {
      hide LevelInv, Shape, Single, Indexed, Prompt, Late, OnTime;
      SettleOverflow(ticks);
      label settled:
      promoted := PromoteOverdue(newBase);
      NothingOverdue(slotGap, old(levels), old@settled(overflow), newBase, promoted);
      assert slotLocation == old@settled(slotLocation) && overflow == old@settled(overflow);
    }

    /** One slot: empty the current level-0 bucket, move its pointer, cascade on a wrap. */
    method Step(ghost ticks: seq<int>) returns (drained: seq<int>, ghost ticks': seq<int>)
      requires Turning(Clk(), levels, ticks, currentBase, slotLocation)
      modifies this`currentBase, this`levels, this`slotLocation, this`overflow
      ensures currentBase == old(currentBase) + slotGap
      ensures Shape(levels) == old(Shape(levels))
      ensures Turning(Clk(), levels, ticks', currentBase, slotLocation)
      ensures Distinct(drained) && forall k :: k in drained ==> k * slotGap < currentBase
      ensures old(Prompt(Clk(), levels, ticks)) == Prompt(Clk(), levels, ticks') + Elements(drained)
      ensures forall k :: k in Prompt(Clk(), levels, ticks') ==> currentBase <= k * slotGap
      ensures Late(Clk(), levels, ticks') + overflow == old(Late(Clk(), levels, ticks) + overflow)
      ensures old(Single(levels, slotLocation, overflow, {})) ==> Single(levels, slotLocation, overflow, {})
    {
      hide LevelInv, Shape, Single, Indexed, Prompt, Late, Midway, OnTime;
      SlotStep(Clk(), levels, ticks, currentBase, slotLocation, overflow);
      currentBase := currentBase + slotGap;
      var bucket := levels[0].buckets[levels[0].current];
      drained := Unindex(bucket);
      levels := levels[0 := Empty(levels[0])];
      levels := levels[0 := Turn(levels[0])];
      assert levels == old(levels)[0 := Turn(Empty(old(levels)[0]))];
      assert forall k :: k in drained ==> k in Elements(drained);
      ticks' := ticks[0 := ticks[0] + 1];
      if levels[0].current == 0 {
        ticks' := Cascade(1, ticks');
      }
    }

    method Unindex(bucket: set<int>) returns (drained: seq<int>)
      modifies this`slotLocation
      ensures Distinct(drained) && Elements(drained) == bucket
      ensures slotLocation == old(slotLocation) - bucket
    {
      drained := [];
      var remaining := bucket;
      while remaining != {}
        invariant remaining <= bucket
        invariant Distinct(drained) && Elements(drained) == bucket - remaining
        invariant slotLocation == old(slotLocation) - (bucket - remaining)
        decreases remaining
      {
        var slotKey := AnyOf(remaining);
        assert slotKey !in Elements(drained);
        ElementsSnoc(drained, slotKey);
        drained := drained + [slotKey];
        slotLocation := slotLocation - {slotKey};
        remaining := remaining - {slotKey};
      }
      assert bucket - remaining == bucket;
    }

    /** Brings every overflow key within the wheel's reach back into a bucket. */
    method SettleOverflow(ghost ticks: seq<int>)
      requires Turning(Clk(), levels, ticks, currentBase, slotLocation)
      modifies this`levels, this`slotLocation, this`overflow
      ensures Shape(levels) == old(Shape(levels))
      ensures Turning(Clk(), levels, ticks, currentBase, slotLocation)
      ensures Prompt(Clk(), levels, ticks) + Late(Clk(), levels, ticks) + overflow
           == old(Prompt(Clk(), levels, ticks) + Late(Clk(), levels, ticks) + overflow)
      ensures old(Prompt(Clk(), levels, ticks)) <= Prompt(Clk(), levels, ticks)
      ensures forall k :: k in overflow ==> old(Coverage(levels)) <= k * slotGap - currentBase
      ensures old(Single(levels, slotLocation, overflow, {})) ==> Single(levels, slotLocation, overflow, {})
    {
      hide LevelInv, Shape, Single, Indexed, Prompt, Late, OnTime;
      var deltaMax := TotalCoverage();
      CoverageAtLeast(slotGap, levels, |levels|);
      assert levels[..|levels|] == levels;
      var overflowReady := [];
      var remaining := overflow;
      ghost var held := Prompt(Clk(), levels, ticks) + Late(Clk(), levels, ticks);
      assert overflow - Elements(overflowReady) == overflow;
      while remaining != {}
        invariant remaining <= overflow == old(overflow)
        invariant Elements(overflowReady) <= overflow - remaining
        invariant Shape(levels) == old(Shape(levels))
        invariant Turning(Clk(), levels, ticks, currentBase, slotLocation)
        invariant Prompt(Clk(), levels, ticks) + Late(Clk(), levels, ticks) == held + Elements(overflowReady)
        invariant old(Prompt(Clk(), levels, ticks)) <= Prompt(Clk(), levels, ticks)
        invariant forall k :: k in overflow - remaining && k !in overflowReady ==> deltaMax <= k * slotGap - currentBase
        invariant old(Single(levels, slotLocation, overflow, {})) ==>
                    Single(levels, slotLocation, overflow - Elements(overflowReady), {})
        decreases remaining
      {
        var slotKey := AnyOf(remaining);
        remaining := remaining - {slotKey};
        var placed := SettleKey(slotKey, deltaMax, ticks, overflow - Elements(overflowReady));
        if placed {
          ElementsSnoc(overflowReady, slotKey);
          assert overflow - Elements(overflowReady + [slotKey]) == overflow - Elements(overflowReady) - {slotKey};
          overflowReady := overflowReady + [slotKey];
        }
      }
      for i := 0 to |overflowReady|
        invariant overflow == old(overflow) - Elements(overflowReady[..i])
        modifies this`overflow
      {
        ElementsPrefix(overflowReady, i);
        overflow := overflow - {overflowReady[i]};
      }
      assert overflowReady[..|overflowReady|] == overflowReady;
    }

    method SettleKey(slotKey: int, deltaMax: int, ghost ticks: seq<int>, ghost others: set<int>) returns (placed: bool)
      requires Turning(Clk(), levels, ticks, currentBase, slotLocation)
      requires slotKey in others && 0 < deltaMax
      modifies this`levels, this`slotLocation
      ensures Shape(levels) == old(Shape(levels))
      ensures Turning(Clk(), levels, ticks, currentBase, slotLocation)
      ensures Prompt(Clk(), levels, ticks) + Late(Clk(), levels, ticks)
           == old(Prompt(Clk(), levels, ticks) + Late(Clk(), levels, ticks)) + (if placed then {slotKey} else {})
      ensures old(Prompt(Clk(), levels, ticks)) <= Prompt(Clk(), levels, ticks)
      ensures !placed ==> slotLocation == old(slotLocation) && levels == old(levels) && deltaMax <= slotKey * slotGap - currentBase
      ensures placed && old(Single(levels, slotLocation, others, {})) ==> Single(levels, slotLocation, others - {slotKey}, {})
    {
      hide LevelInv, Shape, Single, Indexed, Prompt, Late, OnTime;
      var slotTime := slotKey * slotGap;
      var delta := slotTime - currentBase;
      placed := false;
      if delta < 0 {
        delta := 0;
      }
      if delta < deltaMax {
        var loc, ok := FindBucket(delta);
        if ok {
          SettleOne(Clk(), levels, ticks, currentBase, slotLocation, others, slotKey, loc);
          levels := Put(levels, loc.level, loc.bucket, slotKey);
          slotLocation := slotLocation[slotKey := loc];
          placed := true;
        }
      }
    }

    /** Hands out whatever overflow still holds that is due by `newBase`. */
    method PromoteOverdue(newBase: int) returns (promoted: seq<int>)
      modifies this`slotLocation, this`overflow
      ensures Elements(promoted) == set k | k in old(overflow) && k * slotGap <= newBase
      ensures overflow == old(overflow) - Elements(promoted)
      ensures slotLocation == old(slotLocation) - Elements(promoted)
    {
      promoted := [];
      var remaining := overflow;
      while remaining != {}
        invariant remaining <= overflow == old(overflow) && slotLocation == old(slotLocation)
        invariant Elements(promoted) == set k | k in overflow - remaining && k * slotGap <= newBase
        decreases remaining
      {
        var slotKey := AnyOf(remaining);
        remaining := remaining - {slotKey};
        if slotKey * slotGap <= newBase {
          ElementsSnoc(promoted, slotKey);
          promoted := promoted + [slotKey];
        }
      }
      for i := 0 to |promoted|
        invariant overflow == old(overflow) - Elements(promoted[..i])
        invariant slotLocation == old(slotLocation) - Elements(promoted[..i])
      {
        ElementsPrefix(promoted, i);
        overflow := overflow - {promoted[i]};
        slotLocation := slotLocation - {promoted[i]};
      }
      assert promoted[..|promoted|] == promoted;
    }

    method TotalCoverage() returns (total: int)
      ensures total == Coverage(levels)
    {
      total := 0;
      for i := 0 to |levels|
        invariant total == Coverage(levels[..i])
      {
        assert levels[..i + 1][..i] == levels[..i];
        total := total + levels[i].granularity * levels[i].bucketCount;
      }
      assert levels[..|levels|] == levels;
    }

    method Reset()
      requires Valid()
      modifies this
      ensures ResetSpec(old(View()), View())
    {
      for i := 0 to |levels|
        invariant |levels| == old(|levels|)
        invariant forall x :: 0 <= x < |levels| ==>
                    levels[x] == if x < i then Cleared(old(levels)[x]) else old(levels)[x]
        modifies this`levels
      {
        var buckets := [];
        for j := 0 to |levels[i].buckets|
          invariant buckets == seq(j, _ => {})
        {
          buckets := buckets + [{}];
        }
        levels := levels[i := levels[i].(buckets := buckets, current := 0)];
      }
      ClearedLevels(slotGap, old(levels), levels);
      slotLocation := map[];
      overflow := {};
      initialized := false;
      HeldSplit(View());
    }

    /** The keys due by `now`, by a scan of every bucket. */
    method GetReadySlots(now: int) returns (ready: seq<int>)
      requires Valid()
      ensures Elements(ready) == set k | k in Held(View()) && k * slotGap <= now
      ensures Unique(View()) ==> Distinct(ready)
    {
      ready := [];
      if !initialized {
        HeldSplit(View());
        return;
      }
      hide Ok, HeldBefore, BucketKeys, Distinct, Unique;
      ghost var unique := Unique(View());
      for i := 0 to |levels|
        invariant Elements(ready) == DueBy(slotGap, HeldBefore(levels, i, 0), now)
        invariant unique ==> Distinct(ready)
      {
        for j := 0 to |levels[i].buckets|
          invariant Elements(ready) == DueBy(slotGap, HeldBefore(levels, i, j), now)
          invariant unique ==> Distinct(ready)
        {
          var due := CollectDue(levels[i].buckets[j], now);
          HeldNext(levels, i, j);
          if unique {
            BucketsDisjoint(View(), i, j);
            JoinDistinct(ready, due);
          }
          ElementsAppend(ready, due);
          ready := ready + due;
        }
        HeldNextLevel(levels, i);
      }
      AllHeld(levels);
      var due := CollectDue(overflow, now);
      if unique {
        OverflowDisjoint(View());
        JoinDistinct(ready, due);
      }
      ElementsAppend(ready, due);
      ready := ready + due;
    }

    method CollectDue(keys: set<int>, now: int) returns (due: seq<int>)
      ensures Distinct(due) && Elements(due) == DueBy(slotGap, keys, now)
    {
      due := [];
      var remaining := keys;
      while remaining != {}
        invariant remaining <= keys
        invariant Distinct(due) && Elements(due) == DueBy(slotGap, keys - remaining, now)
        decreases remaining
      {
        var slotKey := AnyOf(remaining);
        remaining := remaining - {slotKey};
        if slotKey * slotGap <= now {
          assert slotKey !in Elements(due);
          ElementsSnoc(due, slotKey);
          due := due + [slotKey];
        }
      }
      assert keys - remaining == keys;
    }

    /** Number of copies in all buckets and overflow. */
    method Size() returns (count: int)
      requires Valid()
      ensures count == Copies(levels, |levels|) + |overflow|
      ensures Unique(View()) ==> count == |Held(View())| == |slotLocation| + |overflow|
    {
      count := 0;
      for i := 0 to |levels|
        invariant count == Copies(levels, i)
      {
        for j := 0 to |levels[i].buckets|
          invariant count == Copies(levels, i) + LevelCopies(levels[i], j)
        {
          count := count + |levels[i].buckets[j]|;
        }
      }
      count := count + |overflow|;
      if Unique(View()) {
        UniqueSize(View());
      }
    }

    /** Earliest slot time among the first non-empty bucket of each level and overflow. */
    method PeekMin() returns (minTime: int)
      requires Valid()
      ensures !initialized ==> minTime == -1
      ensures NonNegative(Visible(View())) ==> Earliest(slotGap, Visible(View()), minTime)
    {
      hide Ok, Visible, VisibleBelow, FirstFrom, NonNegative, WellFormed, Earliest;
      minTime := -1;
      if !initialized {
        NothingVisible(View());
        return;
      }
      VisibleParts(View());
      NothingBelow(slotGap, levels);
      for i := 0 to |levels|
        invariant NonNegative(Visible(View())) ==> Earliest(slotGap, VisibleBelow(levels, i), minTime)
      {
        VisibleStep(View(), i);
        var bucket := FirstBucket(levels[i]);
        minTime := MinOver(bucket, minTime, VisibleBelow(levels, i));
      }
      minTime := MinOver(overflow, minTime, VisibleBelow(levels, |levels|));
    }

    static method FirstBucket(l: Level) returns (bucket: set<int>)
      requires WellFormed(l)
      ensures bucket == FirstFrom(l, 0)
    {
      for offset := 0 to l.bucketCount
        invariant FirstFrom(l, 0) == FirstFrom(l, offset)
      {
        var idx := (l.current + offset) % l.bucketCount;
        if l.buckets[idx] != {} {
          return l.buckets[idx];
        }
      }
      return {};
    }

    /** Lowers `minTime` to the earliest slot time in `bucket`. */
    method MinOver(bucket: set<int>, minTime: int, ghost seen: set<int>) returns (m: int)
      requires slotGap >= 1
      ensures Earliest(slotGap, seen, minTime) && NonNegative(seen + bucket) ==> Earliest(slotGap, seen + bucket, m)
    {
      hide Earliest;
      m := minTime;
      var remaining := bucket;
      assert seen + (bucket - remaining) == seen;
      while remaining != {}
        invariant remaining <= bucket
        invariant Earliest(slotGap, seen, minTime) && NonNegative(seen + bucket) ==>
                    Earliest(slotGap, seen + (bucket - remaining), m)
        decreases remaining
      {
        var slotKey := AnyOf(remaining);
        ghost var done := seen + (bucket - remaining);
        remaining := remaining - {slotKey};
        var slotTime := slotKey * slotGap;
        if Earliest(slotGap, done, m) && NonNegative(seen + bucket) {
          EarliestStep(slotGap, done, m, slotKey);
        }
        assert seen + (bucket - remaining) == done + {slotKey};
        if m == -1 || slotTime < m {
          m := slotTime;
        }
      }
      assert bucket - remaining == bucket;
    }
  }
}
