/**
 The persistent slot queue: jobs are filed in slots of the store, the timing
 wheel is told about the slots, and an index remembers where each job went.
 */
module SlotQueue {
  import opened Types
  import opened SlotTier
  import opened SlotIndex
  import IndexRuns
  import opened Fsm
  import opened WheelSpec
  import opened TimingWheel

  /** The store: every write is a committed command, and what the state machine
      answers to it is dropped. */
  class Store {
    const fsm: FSM
    var leader: bool

    ghost function Slots(): Tier
      reads fsm
    {
      Tier(fsm.slots, fsm.coldSlotMeta, fsm.coldStore)
    }

    ghost predicate Valid()
      reads fsm
    {
      TierInv(Slots()) && Keyed(Slots())
    }

    constructor (fsm: FSM, leader: bool)
      ensures this.fsm == fsm && this.leader == leader
    {
      this.fsm, this.leader := fsm, leader;
    }

    /** A slot as it now reads; the cold copies of `unread` cannot be read. */
    method GetSlot(key: int, unread: set<int>) returns (slot: Option<SlotData>)
      requires Valid()
      ensures slot == Get(Blind(Slots(), unread), key)
      ensures slot.Some? ==> slot.value.key == key && key in Slots().hot.Keys + Slots().meta
    {
      BlindGet(Slots(), unread, key);
      slot := fsm.GetSlot(key, key in unread);
    }

    method CreateSlot(s: SlotData)
      requires Valid()
      modifies fsm`slots, fsm`coldSlotMeta, fsm`coldStore
      ensures Valid()
      ensures Slots() == if leader then PutHot(old(Slots()), s) else old(Slots())
    {
      if leader {
        var answer := fsm.ApplySlotCommand(Command.CreateSlot(Some(s)), NO_FAULTS);
      }
    }

    method DeleteSlot(key: int, f: Faults)
      requires Valid()
      modifies fsm`slots, fsm`coldSlotMeta, fsm`coldStore
      ensures Valid()
      ensures Slots() == if leader then Erase(old(Slots()), key, f) else old(Slots())
    {
      if leader {
        var answer := fsm.ApplySlotCommand(Command.DeleteSlot(SlotId(key)), f);
      }
    }

    /** Archives the slot as it reads: every slot reads as before, and this one is
        cold unless the cold store refuses it, which is not reported. */
    method ArchiveSlot(key: int, unread: set<int>, f: Faults) returns (ok: bool)
      requires Valid()
      modifies fsm`slots, fsm`coldSlotMeta, fsm`coldStore
      ensures Valid() && Flat(Slots()) == old(Flat(Slots()))
      ensures ok <==> leader && Get(Blind(old(Slots()), unread), key).Some?
      ensures ok && !f.put && old(Slots()).cold.Some? ==> key !in Slots().hot && key in Slots().meta
      ensures !ok || f.put || old(Slots()).cold.None? ==> Slots() == old(Slots())
      ensures ok ==> Slots() == Archive(old(Slots()), Get(Blind(old(Slots()), unread), key).value, f).0
    {
      if !leader {
        return false;
      }
      var slot := GetSlot(key, unread);
      if slot.None? {
        return false;
      }
      BlindGet(Slots(), unread, key);
      FlatIsGet(Slots(), key);
      ArchiveIsUpdate(Slots(), slot.value, f);
      var answer := fsm.ApplySlotCommand(Command.ArchiveSlot(Some(slot.value)), f);
      ok := true;
    }

    /** Brings a slot back: it is no longer cold unless the cold store cannot be
        read, which is not reported; every slot reads as before exactly when its
        cold copy was not stale. */
    method UnarchiveSlot(key: int, f: Faults) returns (ok: bool)
      requires Valid()
      modifies fsm`slots, fsm`coldSlotMeta, fsm`coldStore
      ensures Valid() && (ok <==> leader)
      ensures ok && !f.get && old(Slots()).cold.Some? ==>
        && key !in Slots().meta
        && (key in old(Slots()).cold.value ==> key in Slots().hot && Slots().hot[key] == old(Slots()).cold.value[key])
        && (Flat(Slots()) == old(Flat(Slots())) <==> !Stale(old(Slots()), key))
      ensures !ok || f.get || old(Slots()).cold.None? ==> Slots() == old(Slots())
      ensures ok ==> Slots() == Unarchive(old(Slots()), key, f).0
    {
      if !leader {
        return false;
      }
      UnarchiveInvisibleIff(Slots(), key, f);
      var answer := fsm.ApplySlotCommand(Command.UnarchiveSlot(SlotId(key)), f);
      ok := true;
    }
  }

  /** The second a job is filed under; none for a job that cannot be filed. */
  function ScheduledAt(job: Job): Option<int> {
    if job.jobType == Unico && job.timestamp.Some? then job.timestamp
    else if job.jobType == Recurrente then Some(job.createdAt)
    else None
  }

  /** Drops the first occurrence of `id`. */
  method RemoveFirst(ids: seq<string>, id: string) returns (rest: seq<string>)
    ensures rest == Without(ids, id)
  {
    for i := 0 to |ids|
      invariant Without(ids, id) == ids[..i] + Without(ids[i..], id)
    {
      if ids[i] == id {
        assert ids[i..][0] == id && ids[i..][1..] == ids[i + 1..];
        return ids[..i] + ids[i + 1..];
      }
      assert Without(ids[i..], id) == [ids[i]] + Without(ids[i + 1..], id) by {
        assert ids[i..][0] == ids[i] && ids[i..][1..] == ids[i + 1..];
      }
      assert ids[..i] + ([ids[i]] + Without(ids[i + 1..], id)) == ids[..i + 1] + Without(ids[i + 1..], id);
    }
    assert ids[|ids|..] == [] && ids[..|ids|] == ids;
    return ids;
  }

  class PersistentSlotQueue {
    const slotGap: int
    const store: Store
    const wheel: HierarchicalTimingWheel
    var jobToSlot: Index
    /** The second each job was filed under. */
    ghost var schedule: map<string, int>

    ghost predicate Valid()
      reads this, store.fsm, wheel
    {
      slotGap >= 1 && wheel.Valid() && wheel.slotGap == slotGap && store.Valid()
    }

    ghost function View(): IndexRuns.Queue
      reads this, store.fsm
    {
      IndexRuns.Queue(jobToSlot, store.Slots(), schedule)
    }

    /** The job is indexed under the slot of this second, and the wheel holds that slot. */
    ghost predicate Filed(id: string, second: int)
      requires wheel.Valid()
      reads this, wheel
    {
      id in jobToSlot && InSlot(slotGap, jobToSlot[id], second) && jobToSlot[id] in Held(wheel.View())
    }

    /** Every filed slot is in the wheel. */
    ghost predicate Scheduled()
      requires wheel.Valid()
      reads this, store.fsm, wheel
    {
      Flat(store.Slots()).Keys <= Held(wheel.View())
    }

    constructor (slotGap: int, store: Store, wheel: HierarchicalTimingWheel)
      requires slotGap >= 1 && wheel.Valid() && wheel.slotGap == slotGap && store.Valid()
      ensures this.slotGap == slotGap && this.store == store && this.wheel == wheel
      ensures Valid() && jobToSlot == map[]
      ensures Flat(store.Slots()) == map[] && ColdSlots(store.Slots()) == map[] ==> IndexRuns.QueueInv(slotGap, View())
    {
      this.slotGap, this.store, this.wheel := slotGap, store, wheel;
      jobToSlot, schedule := map[], map[];
      new;
      if Flat(store.Slots()) == map[] {
        forall k ensures k !in store.Slots().hot {
          FlatIsGet(store.Slots(), k);
        }
      }
    }

    method AddJob(job: Job, now: int, unread: set<int>)
      requires Valid()
      modifies this, wheel, store.fsm`slots, store.fsm`coldSlotMeta, store.fsm`coldStore
      ensures Valid()
      ensures match ScheduledAt(job)
        case None => View() == old(View()) && wheel.View() == old(wheel.View())
        case Some(t) =>
          && jobToSlot == old(jobToSlot)[job.id := SlotKey(slotGap, t)]
          && Held(wheel.View()) == old(Held(wheel.View())) + {SlotKey(slotGap, t)}
          && (old(Unique(wheel.View())) && SlotKey(slotGap, t) !in old(Held(wheel.View())) ==> Unique(wheel.View()))
          && (store.leader ==> IndexRuns.QueueStep(slotGap, old(View()), IndexRuns.AddJob(job.id, t, unread), View()))
          && (!store.leader ==> store.Slots() == old(store.Slots()))
      ensures old(Scheduled()) ==> Scheduled()
      ensures job.jobType == Unico && job.timestamp.Some? ==> Filed(job.id, job.timestamp.value)
      ensures job.jobType == Recurrente ==> Filed(job.id, job.createdAt)
      ensures job.jobType != Recurrente && !(job.jobType == Unico && job.timestamp.Some?) ==>
        View() == old(View()) && wheel.View() == old(wheel.View())
      ensures store.leader && (job.jobType == Recurrente || (job.jobType == Unico && job.timestamp.Some?)) ==>
        var k := jobToSlot[job.id]; var was := Get(Blind(old(store.Slots()), unread), k);
        && k in store.Slots().hot
        && store.Slots().hot[k].jobIds == (if was.Some? then was.value.jobIds else []) + [job.id]
        && (was.None? ==> store.Slots().hot[k].minTime == k * slotGap && store.Slots().hot[k].maxTime == k * slotGap + slotGap - 1)
    {
      hide Flat, Ok, TierInv, Keyed, Held, Unique;
      var timestamp: int;
      if job.jobType == Unico && job.timestamp.Some? {
        timestamp := job.timestamp.value;
      } else if job.jobType == Recurrente {
        timestamp := job.createdAt;
      } else {
        return;
      }
      var key := SlotKey(slotGap, timestamp);
      SlotKeyIs(slotGap, timestamp);
      if !wheel.initialized {
        StartWheel(now);
      }
      var slot := store.GetSlot(key, unread);
      FlatIsGet(Blind(store.Slots(), unread), key);
      var slotData := if slot.None? then SlotData(key, key * slotGap, (key + 1) * slotGap - 1, [job.id])
                      else slot.value.(jobIds := slot.value.jobIds + [job.id]);
      assert slotData == Extended(slotGap, Flat(Blind(store.Slots(), unread)), key, job.id);
      PutHotIsUpdate(store.Slots(), slotData);
      store.CreateSlot(slotData);
      jobToSlot := jobToSlot[job.id := key];
      schedule := schedule[job.id := timestamp];
      TellWheel(key);
    }

    method StartWheel(now: int)
      requires wheel.Valid() && wheel.slotGap == slotGap
      modifies wheel
      ensures wheel.Valid() && Held(wheel.View()) == old(Held(wheel.View()))
      ensures old(Unique(wheel.View())) ==> Unique(wheel.View())
    {
      if !wheel.initialized {
        HeldNothing(wheel.View());
      }
      wheel.Init(now);
    }

    method TellWheel(key: int)
      requires wheel.Valid() && wheel.slotGap == slotGap
      modifies wheel
      ensures wheel.Valid() && Held(wheel.View()) == old(Held(wheel.View())) + {key}
      ensures old(Unique(wheel.View())) && key !in old(Held(wheel.View())) ==> Unique(wheel.View())
    {
      wheel.Add(key);
    }

    method ForgetInWheel(key: int)
      requires wheel.Valid() && wheel.slotGap == slotGap
      modifies wheel
      ensures wheel.Valid() && Forgotten(old(wheel.View()), key, wheel.View())
    {
      wheel.Remove(key);
    }

    /** Takes the job off a slot as it was read, and drops the slot with its last job. */
    method StrikeFrom(slotData: SlotData, key: int, jobId: string, f: Faults)
      requires Valid() && slotData.key == key && key in store.Slots().hot.Keys + store.Slots().meta
      modifies wheel, store.fsm`slots, store.fsm`coldSlotMeta, store.fsm`coldStore
      ensures Valid()
      ensures store.Slots() == if store.leader then StrikeTier(old(store.Slots()), slotData, key, jobId, f) else old(store.Slots())
      ensures store.leader ==> WheelFollows(old(wheel.View()), old(store.Slots()), wheel.View(), store.Slots())
    {
      hide Ok, Held, Unique, Flat, WheelFollows, Forgotten;
      var ids := RemoveFirst(slotData.jobIds, jobId);
      if |ids| == 0 {
        store.DeleteSlot(key, f);
        ForgetInWheel(key);
      } else {
        store.CreateSlot(slotData.(jobIds := ids));
      }
      StrikeFollowed(old(store.Slots()), slotData, key, jobId, f, old(wheel.View()), wheel.View());
    }

    method RemoveJob(jobId: string, unread: set<int>, f: Faults)
      requires Valid()
      modifies this`jobToSlot, wheel, store.fsm`slots, store.fsm`coldSlotMeta, store.fsm`coldStore
      ensures Valid()
      ensures jobToSlot == old(jobToSlot) - {jobId}
      ensures store.leader ==> IndexRuns.QueueStep(slotGap, old(View()), IndexRuns.RemoveJob(jobId, unread, f), View())
      ensures !store.leader ==> store.Slots() == old(store.Slots())
      ensures store.leader ==> WheelFollows(old(wheel.View()), old(store.Slots()), wheel.View(), store.Slots())
    {
      hide Ok, ScanResult, WheelFollows, TierInv, Keyed;
      if jobId !in jobToSlot {
        RemoveJobFallback(jobId, unread, f);
        assert jobToSlot == old(jobToSlot) - {jobId};
        return;
      }
      var key := jobToSlot[jobId];
      jobToSlot := jobToSlot - {jobId};
      var slot := store.GetSlot(key, unread);
      if slot.Some? {
        StrikeFrom(slot.value, key, jobId, f);
      } else {
        NothingForgotten(store.Slots(), wheel.View());
      }
    }

    /** Searches every slot, cold ones first, for a job the index does not know. */
    method RemoveJobFallback(jobId: string, unread: set<int>, f: Faults)
      requires Valid() && jobId !in jobToSlot
      modifies wheel, store.fsm`slots, store.fsm`coldSlotMeta, store.fsm`coldStore
      ensures Valid()
      ensures if store.leader then ScanResult(old(store.Slots()), unread, jobId, f, store.Slots()) else store.Slots() == old(store.Slots())
      ensures store.leader ==> WheelFollows(old(wheel.View()), old(store.Slots()), wheel.View(), store.Slots())
    {
      hide Ok, WheelFollows, Flat;
      var cold := ReadCold(unread);
      var hot := store.fsm.slots;
      var found, key := FindListing(cold, jobId);
      if found {
        StrikeFrom(cold[key], key, jobId, f);
        return;
      }
      found, key := FindListing(hot, jobId);
      if found {
        StrikeFrom(hot[key], key, jobId, f);
      } else {
        NothingForgotten(store.Slots(), wheel.View());
      }
    }

    /** The cold slots that can be read. */
    method ReadCold(unread: set<int>) returns (cold: map<int, SlotData>)
      requires store.Valid()
      ensures cold == ColdSlots(Blind(store.Slots(), unread))
    {
      cold := map[];
      if store.fsm.coldStore.Some? {
        var remaining := store.fsm.coldSlotMeta;
        ghost var all := ColdSlots(Blind(store.Slots(), unread));
        while remaining != {}
          invariant remaining <= store.fsm.coldSlotMeta
          invariant cold == map k | k in all && k !in remaining :: all[k]
          decreases remaining
        {
          var key := AnyOf(remaining);
          if key !in unread && key in store.fsm.coldStore.value {
            cold := cold[key := store.fsm.coldStore.value[key]];
          }
          remaining := remaining - {key};
        }
      }
    }

    /** The first slot met that lists the job. */
    method FindListing(slots: map<int, SlotData>, jobId: string) returns (found: bool, key: int)
      ensures found ==> Lists(slots, key, jobId)
      ensures !found ==> forall k :: !Lists(slots, k, jobId)
    {
      key := 0;
      var remaining := slots.Keys;
      while remaining != {}
        invariant remaining <= slots.Keys
        invariant forall k :: k in slots && k !in remaining ==> !Lists(slots, k, jobId)
        decreases remaining
      {
        key := AnyOf(remaining);
        var ids := slots[key].jobIds;
        for i := 0 to |ids|
          invariant forall j :: 0 <= j < i ==> ids[j] != jobId
        {
          if ids[i] == jobId {
            return true, key;
          }
        }
        remaining := remaining - {key};
      }
      return false, key;
    }

    method RemoveSlot(key: int, unread: set<int>, f: Faults)
      requires Valid()
      modifies this`jobToSlot, wheel, store.fsm`slots, store.fsm`coldSlotMeta, store.fsm`coldStore
      ensures Valid()
      ensures jobToSlot == old(jobToSlot) - IndexRuns.JobsOf(Blind(old(store.Slots()), unread), key)
      ensures Forgotten(old(wheel.View()), key, wheel.View())
      ensures store.leader ==> IndexRuns.QueueStep(slotGap, old(View()), IndexRuns.RemoveSlot(key, unread, f), View())
      ensures !store.leader ==> store.Slots() == old(store.Slots())
      ensures old(Scheduled()) && store.leader ==> Scheduled()
    {
      hide Flat, Ok, Held, TierInv, Keyed;
      var slot := store.GetSlot(key, unread);
      if slot.Some? {
        DropAll(slot.value.jobIds);
      }
      ForgetInWheel(key);
      EraseIsRemoval(store.Slots(), key, f);
      store.DeleteSlot(key, f);
    }

    method DropAll(ids: seq<string>)
      modifies this`jobToSlot
      ensures jobToSlot == old(jobToSlot) - (set id | id in ids)
    {
      for i := 0 to |ids|
        invariant jobToSlot == old(jobToSlot) - (set id | id in ids[..i])
      {
        assert ids[..i + 1] == ids[..i] + [ids[i]];
        jobToSlot := jobToSlot - {ids[i]};
      }
      assert ids[..|ids|] == ids;
    }

    /** Rebuilds index and wheel from the store, which may be read in any order. */
    method LoadJobs(now: int, unread: set<int>)
      requires Valid()
      modifies this`jobToSlot, wheel
      ensures Valid()
      ensures IndexRuns.QueueStep(slotGap, old(View()), IndexRuns.LoadJobs(unread), View())
      ensures Held(wheel.View()) == store.Slots().hot.Keys + ColdSlots(Blind(store.Slots(), unread)).Keys
      ensures (forall k :: !Hidden(store.Slots(), k, unread)) ==> Scheduled()
    {
      hide Ok, Flat, Held;
      jobToSlot := map[];
      RestartWheel(now);
      ghost var hotOrder := LoadSlots(store.fsm.slots);
      var cold := ReadCold(unread);
      ghost var coldOrder := LoadSlots(cold);
      assert jobToSlot == Loaded(Blind(store.Slots(), unread), hotOrder, coldOrder);
      FlatKeys(store.Slots(), unread);
    }

    method RestartWheel(now: int)
      requires wheel.Valid() && wheel.slotGap == slotGap
      modifies wheel
      ensures wheel.Valid() && Held(wheel.View()) == {}
    {
      wheel.Reset();
      wheel.Init(now);
    }

    method LoadSlots(slots: map<int, SlotData>) returns (ghost order: seq<int>)
      requires slotGap >= 1 && wheel.Valid() && wheel.slotGap == slotGap
      modifies this`jobToSlot, wheel
      ensures wheel.Valid() && Covers(order, slots)
      ensures jobToSlot == Indexing(slots, order, old(jobToSlot))
      ensures Held(wheel.View()) == old(Held(wheel.View())) + slots.Keys
    {
      hide Ok, Held;
      order := [];
      var remaining := slots.Keys;
      while remaining != {}
        invariant remaining <= slots.Keys && wheel.Valid()
        invariant forall i :: 0 <= i < |order| ==> order[i] in slots
        invariant forall k :: k in slots && k !in remaining ==> k in order
        invariant jobToSlot == Indexing(slots, order, old(jobToSlot))
        invariant Held(wheel.View()) == old(Held(wheel.View())) + (slots.Keys - remaining)
        decreases remaining
      {
        var key := AnyOf(remaining);
        FileUnder(slots[key].jobIds, key);
        TellWheel(key);
        assert (order + [key])[..|order|] == order;
        order := order + [key];
        remaining := remaining - {key};
      }
    }

    method FileUnder(ids: seq<string>, key: int)
      modifies this`jobToSlot
      ensures jobToSlot == old(jobToSlot) + map id | id in ids :: key
    {
      for i := 0 to |ids|
        invariant jobToSlot == old(jobToSlot) + map id | id in ids[..i] :: key
      {
        assert ids[..i + 1] == ids[..i] + [ids[i]];
        jobToSlot := jobToSlot[ids[i] := key];
      }
      assert ids[..|ids|] == ids;
    }
  }

  /** One key less, as far as the index of the wheel knows its copies. */
  ghost predicate Forgotten(w: Wheel, key: int, w': Wheel)
    requires Ok(w) && Ok(w')
  {
    && Held(w) - {key} <= Held(w') <= Held(w)
    && (Unique(w) ==> Unique(w') && key !in Held(w'))
  }

  /** The wheel drops a key only with its slot, and does drop it. */
  ghost predicate WheelFollows(w: Wheel, t: Tier, w': Wheel, t': Tier)
    requires Ok(w) && Ok(w')
  {
    && Held(w') <= Held(w)
    && (forall k :: k in Held(w) && k !in Held(w') ==> k !in Flat(t'))
    && (Unique(w) ==> Unique(w') && forall k :: k in Flat(t) && k !in Flat(t') ==> k !in Held(w'))
    && (Flat(t).Keys <= Held(w) ==> Flat(t').Keys <= Held(w'))
  }

  lemma NothingForgotten(t: Tier, w: Wheel)
    requires Ok(w)
    ensures WheelFollows(w, t, w, t)
  {
  }

  lemma StrikeFollowed(t: Tier, slot: SlotData, key: int, id: string, f: Faults, w: Wheel, w': Wheel)
    requires TierInv(t) && Ok(w) && Ok(w')
    requires slot.key == key && key in t.hot.Keys + t.meta
    requires if Without(slot.jobIds, id) == [] then Forgotten(w, key, w') else w' == w
    ensures WheelFollows(w, t, w', StrikeTier(t, slot, key, id, f))
  {
    hide Ok, Held, Unique;
    FlatIsGet(t, key);
    EraseIsRemoval(t, key, f);
    PutHotIsUpdate(t, slot.(jobIds := Without(slot.jobIds, id)));
  }

  lemma HeldNothing(w: Wheel)
    requires Ok(w) && !w.initialized
    ensures Held(w) == {}
  {
    HeldSplit(w);
  }

  lemma FlatKeys(t: Tier, unread: set<int>)
    requires TierInv(t)
    ensures (forall k :: !Hidden(t, k, unread)) ==> Flat(t).Keys <= t.hot.Keys + ColdSlots(Blind(t, unread)).Keys
  {
    forall k | k in Flat(t) && !Hidden(t, k, unread) ensures k in t.hot || k in ColdSlots(Blind(t, unread)) {
      FlatIsGet(t, k);
    }
  }
}
