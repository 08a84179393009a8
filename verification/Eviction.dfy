/**
 The slot evictor: one pass archives the slots that lie wholly in the past, then
 brings back the cold slots that have come into the hot window.
 */
module Eviction {
  import WheelLevels
  import opened Types
  import opened SlotTier
  import opened WheelSpec
  import opened WheelScan
  import opened TimingWheel
  import SlotIndex
  import IndexRuns
  import opened EvictionPass
  import Fsm
  import opened SlotQueue

  class SlotEvictor {
    const store: Store
    const wheel: HierarchicalTimingWheel
    const hotWindow: int

    constructor (store: Store, wheel: HierarchicalTimingWheel, hotWindow: int)
      ensures this.store == store && this.wheel == wheel && this.hotWindow == hotWindow
    {
      this.store, this.wheel, this.hotWindow := store, wheel, hotWindow;
    }

    /** One pass.  The wheel follows what the store reports, not what the state
        machine did: a slot whose archive is refused leaves the wheel and stays hot. */
    method Evict(now: int, unread: set<int>, f: int -> Faults) returns (evicted: int, promoted: int)
      requires wheel.Valid() && store.Valid()
      modifies wheel, store.fsm`slots, store.fsm`coldSlotMeta, store.fsm`coldStore
      ensures wheel.Valid() && store.Valid()
      ensures !store.leader ==> store.Slots() == old(store.Slots()) && wheel.View() == old(wheel.View()) && evicted == promoted == 0
      ensures store.leader ==>
        var t, p := old(store.Slots()), Pass(now - hotWindow, hotWindow, unread, f);
        && store.Slots() == Passed(t, p)
        && (Flat(store.Slots()) == Flat(t) <==> forall k :: k in Brought(t, p) ==> !Stale(Archived(t, p), k))
        && evicted == |Expired(t, p.threshold)| && promoted == |Called(t, p)|
        && (old(Unique(wheel.View())) ==> Held(wheel.View()) == WheelKeys(old(Held(wheel.View())), t, p))
    {
      hide Ok, Held, Unique, Flat, TierInv, Keyed, Archived, Called, Expired, Promotable;
      evicted, promoted := 0, 0;
      if !store.leader {
        return;
      }
      var p := Pass(now - hotWindow, hotWindow, unread, f);
      PassInvisibleIff(store.Slots(), p);
      evicted := ArchivePass(p);
      promoted := PromotePass(p);
      PassIs(old(store.Slots()), p);
    }

    method ArchivePass(p: Pass) returns (evicted: int)
      requires wheel.Valid() && store.Valid() && store.leader
      modifies wheel, store.fsm`slots, store.fsm`coldSlotMeta, store.fsm`coldStore
      ensures wheel.Valid() && store.Valid()
      ensures store.Slots() == Archived(old(store.Slots()), p) && evicted == |Expired(old(store.Slots()), p.threshold)|
      ensures old(Unique(wheel.View())) ==>
        Unique(wheel.View()) && Held(wheel.View()) == old(Held(wheel.View())) - Expired(old(store.Slots()), p.threshold)
    {
      hide Ok, Held, Unique, Flat, TierInv, Keyed, ArchiveAll, Archive, Writable, Expired;
      ghost var t := store.Slots();
      ghost var ks := Expired(t, p.threshold);
      var hotSlots := store.fsm.slots;
      var remaining := hotSlots.Keys;
      evicted := 0;
      NothingMoved(t, p.f);
      ExpiredKey(t, p.threshold, 0);
      NoneSeen(ks, remaining, Held(wheel.View()));
      while remaining != {}
        invariant remaining <= hotSlots.Keys && wheel.Valid() && store.Valid()
        invariant store.Slots() == ArchiveAll(t, Writable(ks - remaining, p.f)) && evicted == |ks - remaining|
        invariant old(Unique(wheel.View())) ==> Unique(wheel.View()) && Held(wheel.View()) == old(Held(wheel.View())) - (ks - remaining)
        decreases remaining
      {
        var key := AnyOf(remaining);
        ExpiredKey(t, p.threshold, key);
        if hotSlots[key].maxTime < p.threshold {
          ArchiveOneMore(t, ks - remaining, key, p.f);
          var ok := ArchiveKey(key, p);
          if ok {
            evicted := evicted + 1;
          }
        }
        OneLess(ks, remaining, key, old(Held(wheel.View())));
        remaining := remaining - {key};
      }
      AllSeen(ks);
    }

    /** Archives one slot; on what the store reports as success the wheel drops it. */
    method ArchiveKey(key: int, p: Pass) returns (ok: bool)
      requires wheel.Valid() && store.Valid() && store.leader && key in store.Slots().hot
      modifies wheel, store.fsm`slots, store.fsm`coldSlotMeta, store.fsm`coldStore
      ensures wheel.Valid() && store.Valid() && ok
      ensures store.Slots() == Archive(old(store.Slots()), old(store.Slots()).hot[key], p.f(key)).0
      ensures old(Unique(wheel.View())) ==> Unique(wheel.View()) && Held(wheel.View()) == old(Held(wheel.View())) - {key}
    {
      hide Ok, Held, Unique, Flat, TierInv, Keyed;
      ok := store.ArchiveSlot(key, p.unread, p.f(key));
      if ok {
        ForgetKey(key);
      }
    }

    method ForgetKey(key: int)
      requires wheel.Valid()
      modifies wheel
      ensures wheel.Valid()
      ensures old(Unique(wheel.View())) ==> Unique(wheel.View()) && Held(wheel.View()) == old(Held(wheel.View())) - {key}
    {
      wheel.Remove(key);
    }

    method TellKey(key: int)
      requires wheel.Valid()
      modifies wheel
      ensures wheel.Valid() && Held(wheel.View()) == old(Held(wheel.View())) + {key}
    {
      wheel.Add(key);
    }

    method PromotePass(p: Pass) returns (promoted: int)
      requires wheel.Valid() && store.Valid() && store.leader
      modifies wheel, store.fsm`slots, store.fsm`coldSlotMeta, store.fsm`coldStore
      ensures wheel.Valid() && store.Valid()
      ensures var t := old(store.Slots()); var ks := Promotable(t, p.threshold, p.window, p.unread);
        && store.Slots() == PromoteAll(t, Readable(ks, p.f), p.f) && promoted == |ks|
        && Held(wheel.View()) == old(Held(wheel.View())) + ks
    {
      hide Ok, Held, Flat, TierInv, Keyed, PromoteAll, Unarchive, Readable, Get, Blind, Promotable, Near;
      ghost var t := store.Slots();
      ghost var ks := Promotable(t, p.threshold, p.window, p.unread);
      var remaining := store.fsm.coldSlotMeta;
      promoted := 0;
      NothingMoved(t, p.f);
      PromotableKey(t, p, 0);
      NoneSeen(ks, remaining, Held(wheel.View()));
      while remaining != {}
        invariant remaining <= t.meta && wheel.Valid() && store.Valid()
        invariant store.Slots() == PromoteAll(t, Readable(ks - remaining, p.f), p.f) && promoted == |ks - remaining|
        invariant Held(wheel.View()) == old(Held(wheel.View())) + (ks - remaining)
        decreases remaining
      {
        var key := AnyOf(remaining);
        PromotableKey(t, p, key);
        PromoteOneMore(t, ks - remaining, key, p.unread, p.f);
        var ok := PromoteKey(key, p);
        if ok {
          promoted := promoted + 1;
        }
        OneLess(ks, remaining, key, old(Held(wheel.View())));
        remaining := remaining - {key};
      }
      AllSeen(ks);
    }

    /** Brings one slot back if it reads as near; the wheel is then told. */
    method PromoteKey(key: int, p: Pass) returns (ok: bool)
      requires wheel.Valid() && store.Valid() && store.leader
      modifies wheel, store.fsm`slots, store.fsm`coldSlotMeta, store.fsm`coldStore
      ensures wheel.Valid() && store.Valid()
      ensures var slot := Get(Blind(old(store.Slots()), p.unread), key); ok <==> slot.Some? && Near(slot.value, p.threshold, p.window)
      ensures store.Slots() == if ok then Unarchive(old(store.Slots()), key, p.f(key)).0 else old(store.Slots())
      ensures Held(wheel.View()) == old(Held(wheel.View())) + (if ok then {key} else {})
    {
      hide Ok, Held, Flat, TierInv, Keyed, Get, Blind, Unarchive;
      ok := false;
      var slot := store.GetSlot(key, p.unread);
      if slot.Some? && slot.value.minTime >= p.threshold && slot.value.maxTime < p.threshold + p.window * 2 {
        ok := store.UnarchiveSlot(key, p.f(key));
        if ok {
          TellKey(key);
        }
      }
    }
  }

  lemma NoneSeen(all: set<int>, remaining: set<int>, held: set<int>)
    requires all <= remaining
    ensures all - remaining == {} && held - (all - remaining) == held && held + (all - remaining) == held
  {
  }

  lemma AllSeen(all: set<int>)
    ensures all - {} == all
  {
  }

  lemma OneLess(all: set<int>, remaining: set<int>, key: int, held: set<int>)
    requires key in remaining
    ensures var seen, seen' := all - remaining, all - (remaining - {key});
      && seen' == (if key in all then seen + {key} else seen) && |seen'| == |seen| + (if key in all then 1 else 0)
      && held - seen' == (if key in all then held - seen - {key} else held - seen)
      && held + seen' == held + seen + (if key in all then {key} else {})
  {
  }

  lemma PassIs(t: Tier, p: Pass)
    ensures var mid := Archived(t, p); var ks := Promotable(mid, p.threshold, p.window, p.unread);
      && Called(t, p) == ks && Brought(t, p) == Readable(ks, p.f)
      && Passed(t, p) == PromoteAll(mid, Readable(ks, p.f), p.f)
  {
  }

  /** A run from an empty store: one job is filed, its slot goes by, and the cold
      store refuses it.  The slot stays where it was, and the wheel has lost it. */
  method RefusedArchiveRun(gap: int, id: string) returns (queue: PersistentSlotQueue)
    requires gap >= 1
    ensures queue.Valid() && queue.jobToSlot == map[id := 0]
    ensures SlotIndex.Lists(queue.store.Slots().hot, 0, id) && 0 !in Held(queue.wheel.View())
  {
    hide Ok, Held, Unique, Flat, TierInv, Keyed, Passed, Expired, Called, Brought, WheelKeys, Stale;
    queue := FileFirst(gap, id);
    var evictor := new SlotEvictor(queue.store, queue.wheel, 0);
    var refuse := _ => Faults(true, false, false);
    RefusedPass(gap, id, Pass(gap, 0, {}, refuse), Held(queue.wheel.View()));
    var evicted, promoted := evictor.Evict(gap, {}, refuse);
  }

  /** One job, in the first slot of a new queue. */
  method FileFirst(gap: int, id: string) returns (queue: PersistentSlotQueue)
    requires gap >= 1
    ensures fresh(queue) && fresh(queue.store) && fresh(queue.store.fsm) && fresh(queue.wheel)
    ensures queue.Valid() && queue.slotGap == gap && queue.store.leader && queue.jobToSlot == map[id := 0]
    ensures queue.store.Slots() == Tier(map[0 := SlotIndex.NewSlot(gap, 0, [id])], {}, Some(map[])) && Unique(queue.wheel.View())
  {
    hide Ok, Held, Unique, Flat, TierInv, Keyed, IndexRuns.QueueStep, IndexRuns.QueueInv, SlotIndex.SlotKey, AlignedConfigs;
    var fsm := new Fsm.FSM(Some(map[]));
    var store := new Store(fsm, true);
    EmptyStore(gap, id);
    var wheel := new HierarchicalTimingWheel(gap, []);
    queue := new PersistentSlotQueue(gap, store, wheel);
    ghost var q := queue.View();
    assert q == IndexRuns.Queue(map[], Tier(map[], {}, Some(map[])), q.schedule);
    queue.AddJob(Job(id, Unico, Some(0), "", None, 0, "", map[]), 0, {});
    FirstJob(gap, id, q, queue.View());
  }

  lemma EmptyStore(gap: int, id: string)
    requires gap >= 1
    ensures TierInv(Tier(map[], {}, Some(map[]))) && Keyed(Tier(map[], {}, Some(map[])))
    ensures SlotIndex.SlotKey(gap, 0) == 0
  {
    WheelLevels.DivisionUnique(0, gap, 0, 0);
  }

  lemma FirstJob(gap: int, id: string, q: IndexRuns.Queue, q': IndexRuns.Queue)
    requires gap >= 1 && q.tier == Tier(map[], {}, Some(map[]))
    requires IndexRuns.QueueStep(gap, q, IndexRuns.AddJob(id, 0, {}), q')
    ensures q'.tier == Tier(map[0 := SlotIndex.NewSlot(gap, 0, [id])], {}, Some(map[]))
  {
    EmptyStore(gap, id);
    var t := Tier(map[], {}, Some(map[]));
    FlatIsGet(Blind(t, {}), 0);
  }

  lemma RefusedPass(gap: int, id: string, p: Pass, held: set<int>)
    requires gap >= 1 && p.threshold == gap && forall k :: p.f(k).put
    ensures var t := Tier(map[0 := SlotIndex.NewSlot(gap, 0, [id])], {}, Some(map[]));
      Passed(t, p) == t && 0 !in WheelKeys(held, t, p)
  {
    var t := Tier(map[0 := SlotIndex.NewSlot(gap, 0, [id])], {}, Some(map[]));
    assert Writable(Expired(t, gap), p.f) == {} == Writable({}, p.f);
    NothingMoved(t, p.f);
    assert Called(t, p) == {};
    assert Brought(t, p) == {} == Readable({}, p.f);
  }
}
