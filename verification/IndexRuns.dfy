/**
 Whole runs of the slot queue and the evictor on the leader, on values: index,
 slot tiers, and the second each job was filed under.  Cold reads may fail.
 */
module IndexRuns {
  import opened Types
  import opened SlotTier
  import opened SlotIndex
  import opened EvictionPass

  datatype Queue = Queue(index: Index, tier: Tier, schedule: map<string, int>)

  /** `unread` are the keys whose cold copy cannot be read during the call. */
  datatype Op =
    | AddJob(id: string, second: int, unread: set<int>)
    | RemoveJob(id: string, unread: set<int>, faults: Faults)
    | RemoveSlot(key: int, unread: set<int>, faults: Faults)
    | LoadJobs(unread: set<int>)
    | Evict(pass: Pass)

  function JobsOf(t: Tier, key: int): set<string> {
    if Get(t, key).Some? then set id | id in Get(t, key).value.jobIds else {}
  }

  ghost predicate QueueStep(gap: int, q: Queue, op: Op, q': Queue)
    requires gap >= 1
  {
    match op
    case AddJob(id, second, unread) =>
      var k := SlotKey(gap, second);
      q' == Queue(q.index[id := k], PutHot(q.tier, Extended(gap, Flat(Blind(q.tier, unread)), k, id)), q.schedule[id := second])
    case RemoveJob(id, unread, f) =>
      && q'.index == q.index - {id} && q'.schedule == q.schedule
      && (if id in q.index then
            var k := q.index[id]; var slot := Get(Blind(q.tier, unread), k);
            q'.tier == if slot.Some? then StrikeTier(q.tier, slot.value, k, id, f) else q.tier
          else ScanResult(q.tier, unread, id, f, q'.tier))
    case RemoveSlot(key, unread, f) =>
      q' == Queue(q.index - JobsOf(Blind(q.tier, unread), key), Erase(q.tier, key, f), q.schedule)
    case LoadJobs(unread) =>
      && q'.tier == q.tier && q'.schedule == q.schedule
      && Rebuilt(Blind(q.tier, unread), q'.index)
    case Evict(p) =>
      q' == q.(tier := Passed(q.tier, p))
  }

  /** The index is what a rebuild makes of the store, read in some order. */
  ghost predicate Rebuilt(t: Tier, idx: Index) {
    exists hotOrder, coldOrder ::
      Covers(hotOrder, t.hot) && Covers(coldOrder, ColdSlots(t)) && idx == Loaded(t, hotOrder, coldOrder)
  }

  ghost predicate QueueInv(gap: int, q: Queue) {
    TierInv(q.tier) && GoodCopies(gap, q.tier) && IndexInv(gap, q.index, Flat(q.tier), q.schedule)
  }

  /** A job is added once, and in a second its slot can hold. */
  predicate Novel(gap: int, q: Queue, op: Op)
    requires gap >= 1
  {
    op.AddJob? ==> op.id !in q.index && (op.second >= 0 || op.second % gap == 0)
  }

  /** The step works from a slot it cannot read, or brings back a cold copy that
      lacks a job of the hot one. */
  ghost predicate Misreads(gap: int, q: Queue, op: Op)
    requires gap >= 1
  {
    match op
    case AddJob(_, second, unread) => Hidden(q.tier, SlotKey(gap, second), unread)
    case RemoveJob(id, unread, _) => id in q.index && Hidden(q.tier, q.index[id], unread)
    case RemoveSlot(key, unread, _) => Hidden(q.tier, key, unread)
    case LoadJobs(unread) => exists k :: Hidden(q.tier, k, unread)
    case Evict(p) => exists k, id :: LosesJob(q.tier, p, k, id)
  }

  predicate LosesJob(t: Tier, p: Pass, k: int, id: string) {
    k in Brought(t, p) && Lists(Archived(t, p).hot, k, id) && !Lists(ColdSlots(Archived(t, p)), k, id)
  }

  /** The slot keeps other jobs, and its cold copy keeps the one removed. */
  predicate LeavesGhost(q: Queue, op: Op) {
    op.RemoveJob? && op.id in q.index && Get(q.tier, q.index[op.id]).Some?
    && Without(Get(q.tier, q.index[op.id]).value.jobIds, op.id) != []
    && Lists(ColdSlots(q.tier), q.index[op.id], op.id)
  }

  lemma DisjointIsTidy(t: Tier)
    requires t.hot.Keys !! t.meta
    ensures Tidy(t)
  {
  }

  lemma InverseUnique(a: Index, b: Index, m: map<int, SlotData>)
    requires Inverse(a, m) && Inverse(b, m)
    ensures a == b
  {
    forall id ensures (id in a <==> id in b) && (id in a ==> a[id] == b[id]) {
      if id in a {
        assert Lists(m, a[id], id);
      }
      if id in b {
        assert Lists(m, b[id], id);
      }
    }
  }

  /** A slot of a consistent queue lists some job, and the index knows it. */
  lemma SomeJob(gap: int, q: Queue, k: int) returns (id: string)
    requires QueueInv(gap, q) && Get(q.tier, k).Some?
    ensures Lists(Flat(q.tier), k, id) && id in q.index && q.index[id] == k
  {
    FlatIsGet(q.tier, k);
    assert GoodSlot(gap, k, Flat(q.tier)[k]);
    id := Flat(q.tier)[k].jobIds[0];
    assert Lists(Flat(q.tier), k, id);
  }

  // ---------------------------------------------------------------- adding

  lemma AddStep(gap: int, q: Queue, id: string, second: int, unread: set<int>, q': Queue)
    requires gap >= 1 && QueueInv(gap, q) && QueueStep(gap, q, AddJob(id, second, unread), q')
    requires Novel(gap, q, AddJob(id, second, unread)) && !Hidden(q.tier, SlotKey(gap, second), unread)
    ensures QueueInv(gap, q')
    ensures Tidy(q.tier) ==> Tidy(q'.tier)
  {
    var k, m := SlotKey(gap, second), Flat(q.tier);
    var s := Extended(gap, m, k, id);
    SeenSlot(gap, q.tier, unread, k, id);
    PutHotIsUpdate(q.tier, s);
    AddKeepsInv(gap, q.index, m, q.schedule, id, second);
    assert s.key == k && GoodSlot(gap, k, Flat(q'.tier)[k]);
    assert ColdSlots(q'.tier) == ColdSlots(q.tier);
    if Tidy(q.tier) {
      PutTidy(q.tier, s, k);
    }
  }

  lemma SeenSlot(gap: int, t: Tier, unread: set<int>, k: int, id: string)
    requires !Hidden(t, k, unread)
    ensures Extended(gap, Flat(Blind(t, unread)), k, id) == Extended(gap, Flat(t), k, id)
  {
    BlindGet(t, unread, k);
    FlatIsGet(t, k);
    FlatIsGet(Blind(t, unread), k);
  }

  /** Writing back a slot with at least the jobs that are visible keeps the store tidy. */
  lemma PutTidy(t: Tier, s: SlotData, k: int)
    requires Tidy(t) && s.key == k && forall id :: Lists(Flat(t), k, id) ==> id in s.jobIds
    ensures Tidy(PutHot(t, s))
  {
    var t' := PutHot(t, s);
    forall key, x | key in t'.hot && Lists(ColdSlots(t'), key, x) ensures x in t'.hot[key].jobIds {
      assert Lists(ColdSlots(t), key, x);
      FlatLists(t, key, x);
    }
  }

  lemma AddMisreads(gap: int, q: Queue, id: string, second: int, unread: set<int>, q': Queue)
    requires gap >= 1 && QueueInv(gap, q) && QueueStep(gap, q, AddJob(id, second, unread), q')
    requires Novel(gap, q, AddJob(id, second, unread)) && Hidden(q.tier, SlotKey(gap, second), unread)
    ensures !QueueInv(gap, q')
  {
    var k := SlotKey(gap, second);
    var x := SomeJob(gap, q, k);
    BlindGet(q.tier, unread, k);
    FlatIsGet(Blind(q.tier, unread), k);
    FlatIsGet(q'.tier, k);
    assert !Lists(Flat(q'.tier), k, x);
  }

  // ---------------------------------------------------------------- removing

  lemma RemoveStep(gap: int, q: Queue, id: string, unread: set<int>, f: Faults, q': Queue)
    requires gap >= 1 && QueueInv(gap, q) && QueueStep(gap, q, RemoveJob(id, unread, f), q') && Tidy(q.tier)
    requires !Misreads(gap, q, RemoveJob(id, unread, f))
    ensures QueueInv(gap, q')
    ensures Tidy(q'.tier) <==> !LeavesGhost(q, RemoveJob(id, unread, f))
  {
    hide Flat, Tidy, ScanResult, StrikeTier, TierInv, GoodCopies;
    var m := Flat(q.tier);
    if id in q.index {
      var k := q.index[id];
      RemoveKeepsInv(gap, q.index, m, q.schedule, id);
      FlatIsGet(q.tier, k);
      BlindGet(q.tier, unread, k);
      assert GoodSlot(gap, k, m[k]);
      StrikeTierIsStrike(gap, q.tier, k, id, f);
      StrikeTidyIff(q.tier, m[k], id, f);
      StrikeCopies(gap, q.tier, m[k], k, id, f);
    } else {
      ScanFindsNothing(q.tier, unread, q.index, id, f, q'.tier);
      assert q.index - {id} == q.index;
    }
  }

  lemma StrikeCopies(gap: int, t: Tier, slot: SlotData, k: int, id: string, f: Faults)
    requires GoodCopies(gap, t) && GoodSlot(gap, k, slot)
    ensures GoodCopies(gap, StrikeTier(t, slot, k, id, f))
  {
    WithoutDrops(slot.jobIds, id);
    var t' := StrikeTier(t, slot, k, id, f);
    forall x | x in ColdSlots(t') ensures GoodSlot(gap, x, ColdSlots(t')[x]) {
      assert x in ColdSlots(t);
    }
  }

  lemma RemoveMisreads(gap: int, q: Queue, id: string, unread: set<int>, f: Faults, q': Queue)
    requires gap >= 1 && QueueInv(gap, q) && QueueStep(gap, q, RemoveJob(id, unread, f), q')
    requires Misreads(gap, q, RemoveJob(id, unread, f))
    ensures !QueueInv(gap, q')
  {
    BlindGet(q.tier, unread, q.index[id]);
    assert Lists(Flat(q.tier), q.index[id], id);
  }

  lemma DropStep(gap: int, q: Queue, key: int, unread: set<int>, f: Faults, q': Queue)
    requires gap >= 1 && QueueInv(gap, q) && QueueStep(gap, q, RemoveSlot(key, unread, f), q')
    ensures QueueInv(gap, q') <==> !Hidden(q.tier, key, unread)
    ensures Tidy(q.tier) ==> Tidy(q'.tier)
  {
    hide IndexInv;
    FlatIsGet(q.tier, key);
    BlindGet(q.tier, unread, key);
    EraseIsRemoval(q.tier, key, f);
    if Hidden(q.tier, key, unread) {
      DropMisreads(gap, q, key, unread, f, q');
    } else {
      DropSlotKeepsInv(gap, q.index, Flat(q.tier), q.schedule, key);
      assert JobsOf(q.tier, key) == if key in Flat(q.tier) then (set id | id in Flat(q.tier)[key].jobIds) else {};
    }
    EraseCopies(gap, q.tier, key, f);
  }

  lemma EraseCopies(gap: int, t: Tier, key: int, f: Faults)
    ensures GoodCopies(gap, t) ==> GoodCopies(gap, Erase(t, key, f))
    ensures Tidy(t) ==> Tidy(Erase(t, key, f))
  {
    var t' := Erase(t, key, f);
    forall k | k in ColdSlots(t') ensures k in ColdSlots(t) && ColdSlots(t')[k] == ColdSlots(t)[k] {
    }
    if Tidy(t) {
      forall k, x | k in t'.hot && Lists(ColdSlots(t'), k, x) ensures x in t'.hot[k].jobIds {
        assert Lists(ColdSlots(t), k, x);
      }
    }
  }

  lemma DropMisreads(gap: int, q: Queue, key: int, unread: set<int>, f: Faults, q': Queue)
    requires gap >= 1 && QueueInv(gap, q) && QueueStep(gap, q, RemoveSlot(key, unread, f), q')
    requires Hidden(q.tier, key, unread)
    ensures !QueueInv(gap, q')
  {
    var x := SomeJob(gap, q, key);
    BlindGet(q.tier, unread, key);
    EraseIsRemoval(q.tier, key, f);
    assert x in q'.index && !Lists(Flat(q'.tier), key, x);
  }

  // ---------------------------------------------------------------- rebuilding

  lemma OneSlot(gap: int, q: Queue)
    requires QueueInv(gap, q)
    ensures OneSlotEach(Flat(q.tier))
  {
    forall id, a, b | Lists(Flat(q.tier), a, id) && Lists(Flat(q.tier), b, id) ensures a == b {
      assert q.index[id] == a && q.index[id] == b;
    }
  }

  /** Rebuilding the index of a tidy store that can be read finds the index there was. */
  lemma LoadStep(gap: int, q: Queue, unread: set<int>, q': Queue)
    requires gap >= 1 && QueueInv(gap, q) && QueueStep(gap, q, LoadJobs(unread), q') && Tidy(q.tier)
    requires forall k :: !Hidden(q.tier, k, unread)
    ensures q' == q
  {
    OneSlot(gap, q);
    var t := Blind(q.tier, unread);
    forall k ensures Get(t, k) == Get(q.tier, k) {
      BlindGet(q.tier, unread, k);
    }
    SameGet(q.tier, t);
    BlindTidy(q.tier, unread);
    var hotOrder, coldOrder :| Covers(hotOrder, t.hot) && Covers(coldOrder, ColdSlots(t)) && q'.index == Loaded(t, hotOrder, coldOrder);
    LoadedIsExact(t, hotOrder, coldOrder);
    InverseUnique(q.index, q'.index, Flat(q.tier));
  }

  lemma BlindTidy(t: Tier, unread: set<int>)
    requires Tidy(t)
    ensures Tidy(Blind(t, unread))
  {
    forall k, x | Lists(ColdSlots(Blind(t, unread)), k, x) ensures Lists(ColdSlots(t), k, x) {
    }
  }

  /** A slot that cannot be read is missing from the index. */
  lemma LoadMisreads(gap: int, q: Queue, unread: set<int>, q': Queue, k: int)
    requires gap >= 1 && QueueInv(gap, q) && QueueStep(gap, q, LoadJobs(unread), q') && Tidy(q.tier)
    requires Hidden(q.tier, k, unread)
    ensures !QueueInv(gap, q')
  {
    OneSlot(gap, q);
    var t := Blind(q.tier, unread);
    var x := SomeJob(gap, q, k);
    var hotOrder, coldOrder :| Covers(hotOrder, t.hot) && Covers(coldOrder, ColdSlots(t)) && q'.index == Loaded(t, hotOrder, coldOrder);
    IndexingSound(t.hot, hotOrder, map[], x);
    IndexingSound(ColdSlots(t), coldOrder, Indexing(t.hot, hotOrder, map[]), x);
    if x in q'.index {
      var j := q'.index[x];
      assert Lists(t.hot, j, x) || Lists(ColdSlots(t), j, x);
      NotSeenElsewhere(q.tier, unread, j, x, k);
    }
  }

  lemma NotSeenElsewhere(t: Tier, unread: set<int>, j: int, x: string, k: int)
    requires Tidy(t) && OneSlotEach(Flat(t)) && Hidden(t, k, unread) && Lists(Flat(t), k, x)
    ensures !Lists(t.hot, j, x) && !Lists(ColdSlots(Blind(t, unread)), j, x)
  {
    FlatLists(t, j, x);
    assert Lists(ColdSlots(Blind(t, unread)), j, x) ==> Lists(ColdSlots(t), j, x) && j !in unread;
  }

  // ---------------------------------------------------------------- evicting

  /** A pass keeps a tidy store tidy. */
  lemma PassTidy(t: Tier, p: Pass)
    requires Tidy(t)
    ensures Tidy(Archived(t, p)) && Tidy(Passed(t, p))
  {
    var mid, t' := Archived(t, p), Passed(t, p);
    forall k, x | k in mid.hot && Lists(ColdSlots(mid), k, x) ensures x in mid.hot[k].jobIds {
      assert Lists(ColdSlots(t), k, x);
    }
    forall k, x | k in t'.hot && Lists(ColdSlots(t'), k, x) ensures x in t'.hot[k].jobIds {
      assert Lists(ColdSlots(mid), k, x) && k !in Brought(t, p);
    }
  }

  lemma PassCopies(gap: int, t: Tier, p: Pass)
    requires TierInv(t) && GoodCopies(gap, t)
    ensures GoodCopies(gap, Archived(t, p)) && GoodCopies(gap, Passed(t, p))
  {
    var mid, t' := Archived(t, p), Passed(t, p);
    forall k | k in ColdSlots(mid) ensures GoodSlot(gap, k, ColdSlots(mid)[k]) {
      assert k in t.hot || k in ColdSlots(t);
    }
    forall k | k in t'.hot ensures GoodSlot(gap, k, t'.hot[k]) {
      assert k in Brought(t, p) && k in mid.cold.value ==> k in ColdSlots(mid);
    }
    forall k | k in ColdSlots(t') ensures GoodSlot(gap, k, ColdSlots(t')[k]) {
      assert k in ColdSlots(mid);
    }
  }

  /** What a pass does to the job lists of a tidy store. */
  lemma PassLists(t: Tier, p: Pass, k: int, id: string)
    requires TierInv(t) && Tidy(t)
    ensures Lists(Flat(Passed(t, p)), k, id) <==> Lists(Flat(t), k, id) && !LosesJob(t, p, k, id)
  {
    var mid, t' := Archived(t, p), Passed(t, p);
    ArchivedReads(t, Writable(Expired(t, p.threshold), p.f));
    PassTidy(t, p);
    FlatLists(mid, k, id);
    FlatLists(t', k, id);
    if k in Brought(t, p) {
      assert k in mid.meta && k in mid.cold.value && t'.hot[k] == ColdSlots(mid)[k];
    }
  }

  lemma EvictStep(gap: int, q: Queue, p: Pass)
    requires gap >= 1 && QueueInv(gap, q) && Tidy(q.tier)
    ensures var q' := q.(tier := Passed(q.tier, p));
      (QueueInv(gap, q') <==> !Misreads(gap, q, Evict(p))) && Tidy(q'.tier)
  {
    hide Passed, Tidy, LosesJob, TierInv, GoodCopies, Flat, IndexInv;
    var t' := Passed(q.tier, p);
    PassTidy(q.tier, p);
    PassInvisibleIff(q.tier, p);
    PassCopies(gap, q.tier, p);
    if k, id :| LosesJob(q.tier, p, k, id) {
      LostWasListed(q.tier, p, k, id);
      PassLists(q.tier, p, k, id);
      NoLongerListed(gap, q, Flat(t'), k, id);
    } else {
      forall k, id ensures Lists(Flat(t'), k, id) <==> Lists(Flat(q.tier), k, id) {
        PassLists(q.tier, p, k, id);
      }
      FlatIsGood(gap, t');
      SameLists(gap, q, Flat(t'));
    }
  }

  lemma NoLongerListed(gap: int, q: Queue, m: map<int, SlotData>, k: int, id: string)
    requires QueueInv(gap, q) && Lists(Flat(q.tier), k, id) && !Lists(m, k, id)
    ensures !IndexInv(gap, q.index, m, q.schedule)
  {
    assert id in q.index && q.index[id] == k;
  }

  lemma SameLists(gap: int, q: Queue, m: map<int, SlotData>)
    requires QueueInv(gap, q) && GoodSlots(gap, m)
    requires forall k, id :: Lists(m, k, id) <==> Lists(Flat(q.tier), k, id)
    ensures IndexInv(gap, q.index, m, q.schedule)
  {
    hide Flat, TierInv, GoodCopies;
    assert Inverse(q.index, m);
    forall id | id in q.index ensures q.index[id] in m && Within(m[q.index[id]], q.schedule[id]) {
      assert Lists(Flat(q.tier), q.index[id], id);
      assert Lists(m, q.index[id], id);
      assert GoodSlot(gap, q.index[id], m[q.index[id]]) && GoodSlot(gap, q.index[id], Flat(q.tier)[q.index[id]]);
    }
  }

  lemma LostWasListed(t: Tier, p: Pass, k: int, id: string)
    requires TierInv(t) && LosesJob(t, p, k, id)
    ensures Lists(Flat(t), k, id)
  {
    ArchivedReads(t, Writable(Expired(t, p.threshold), p.f));
    FlatLists(Archived(t, p), k, id);
  }

  lemma FlatIsGood(gap: int, t: Tier)
    requires GoodCopies(gap, t)
    ensures GoodSlots(gap, Flat(t))
  {
    forall k | k in Flat(t) ensures GoodSlot(gap, k, Flat(t)[k]) {
      FlatIsGet(t, k);
      assert k in t.hot || k in ColdSlots(t);
    }
  }

  // ---------------------------------------------------------------- every operation, and runs

  /** From a tidy store an operation keeps the index exact if and only if it does
      not misread; the store is tidy again unless a removal leaves the job in a
      cold copy of a slot that stays. */
  lemma StepKeepsIndex(gap: int, q: Queue, op: Op, q': Queue)
    requires gap >= 1 && QueueInv(gap, q) && Tidy(q.tier) && Novel(gap, q, op) && QueueStep(gap, q, op, q')
    ensures QueueInv(gap, q') <==> !Misreads(gap, q, op)
    ensures !Misreads(gap, q, op) ==> (Tidy(q'.tier) <==> !LeavesGhost(q, op))
  {
    hide QueueInv, QueueStep, Tidy, Novel;
    match op
    case AddJob(id, second, unread) =>
      if Misreads(gap, q, op) {
        AddMisreads(gap, q, id, second, unread, q');
      } else {
        AddStep(gap, q, id, second, unread, q');
      }
    case RemoveJob(id, unread, f) =>
      if Misreads(gap, q, op) {
        RemoveMisreads(gap, q, id, unread, f, q');
      } else {
        RemoveStep(gap, q, id, unread, f, q');
      }
    case RemoveSlot(key, unread, f) =>
      DropStep(gap, q, key, unread, f, q');
    case LoadJobs(unread) =>
      if k :| Hidden(q.tier, k, unread) {
        LoadMisreads(gap, q, unread, q', k);
      } else {
        LoadStep(gap, q, unread, q');
      }
    case Evict(p) =>
      EvictStep(gap, q, p);
      EvictIs(gap, q, p, q');
  }

  lemma EvictIs(gap: int, q: Queue, p: Pass, q': Queue)
    requires gap >= 1 && QueueStep(gap, q, Evict(p), q')
    ensures q' == q.(tier := Passed(q.tier, p))
  {
  }

  ghost predicate StepAt(gap: int, qs: seq<Queue>, ops: seq<Op>, i: int)
    requires gap >= 1 && 0 <= i < |ops| && |qs| == |ops| + 1
  {
    QueueStep(gap, qs[i], ops[i], qs[i + 1])
  }

  ghost predicate Run(gap: int, qs: seq<Queue>, ops: seq<Op>)
    requires gap >= 1
  {
    |qs| == |ops| + 1 && forall i :: 0 <= i < |ops| ==> StepAt(gap, qs, ops, i)
  }

  ghost predicate CarefulAt(gap: int, qs: seq<Queue>, ops: seq<Op>, i: int)
    requires gap >= 1 && 0 <= i < |ops| && |qs| == |ops| + 1
  {
    Novel(gap, qs[i], ops[i]) && !LeavesGhost(qs[i], ops[i]) && !Misreads(gap, qs[i], ops[i])
  }

  /** Over whole runs the index is the inverse of the job lists and every job is
      scheduled within its slot. */
  lemma {:induction false} RunKeepsIndex(gap: int, qs: seq<Queue>, ops: seq<Op>, i: nat)
    requires gap >= 1 && Run(gap, qs, ops) && i <= |ops|
    requires QueueInv(gap, qs[0]) && Tidy(qs[0].tier)
    requires forall j :: 0 <= j < |ops| ==> CarefulAt(gap, qs, ops, j)
    ensures QueueInv(gap, qs[i]) && Tidy(qs[i].tier)
  {
    hide QueueInv, Tidy, QueueStep, Misreads, Novel, LeavesGhost;
    if i > 0 {
      RunKeepsIndex(gap, qs, ops, i - 1);
      assert StepAt(gap, qs, ops, i - 1) && CarefulAt(gap, qs, ops, i - 1);
      StepKeepsIndex(gap, qs[i - 1], ops[i - 1], qs[i]);
    }
  }

  /** With no slot both hot and cold, removing a job by the index and removing it
      by a full scan, as if it were not indexed, leave the same queue. */
  lemma IndexedRemovalIsScan(gap: int, q: Queue, id: string, unread: set<int>, f: Faults, byIndex: Queue, byScan: Queue)
    requires gap >= 1 && QueueInv(gap, q) && q.tier.hot.Keys !! q.tier.meta
    requires QueueStep(gap, q, RemoveJob(id, unread, f), byIndex)
    requires QueueStep(gap, q.(index := q.index - {id}), RemoveJob(id, unread, f), byScan)
    ensures byIndex == byScan
  {
    ScanMatchesIndex(q.tier, unread, q.index, id, f, byScan.tier);
    DisjointIsTidy(q.tier);
    if id !in q.index {
      ScanFindsNothing(q.tier, unread, q.index, id, f, byIndex.tier);
    }
    assert byIndex.index == byScan.index;
  }

  // ---------------------------------------------------------------- what is archived stays archived

  /** Every operation, careful or not, leaves each copy with the bounds of its key. */
  lemma StepKeepsFrame(gap: int, q: Queue, op: Op, q': Queue)
    requires gap >= 1 && TierInv(q.tier) && Framed(gap, q.tier) && QueueStep(gap, q, op, q')
    ensures TierInv(q'.tier) && Framed(gap, q'.tier)
  {
    match op
    case AddJob(id, second, unread) =>
      var k := SlotKey(gap, second);
      FlatIsGet(Blind(q.tier, unread), k);
      if Get(Blind(q.tier, unread), k).Some? {
        SeenFrame(gap, q.tier, unread, k);
      }
      PutFrame(gap, q.tier, k, Extended(gap, Flat(Blind(q.tier, unread)), k, id));
    case RemoveJob(id, unread, f) =>
      RemoveFrame(gap, q, id, unread, f, q');
    case RemoveSlot(key, unread, f) =>
      EraseFrame(gap, q.tier, key, f);
    case LoadJobs(unread) =>
    case Evict(p) =>
      PassInvisibleIff(q.tier, p);
      PassedFrame(gap, q.tier, p);
  }

  lemma PutFrame(gap: int, t: Tier, k: int, s: SlotData)
    requires TierInv(t) && Framed(gap, t) && InFrame(gap, k, s)
    ensures TierInv(PutHot(t, s)) && Framed(gap, PutHot(t, s))
  {
    assert ColdSlots(PutHot(t, s)) == ColdSlots(t);
  }

  lemma EraseFrame(gap: int, t: Tier, key: int, f: Faults)
    requires TierInv(t) && Framed(gap, t)
    ensures TierInv(Erase(t, key, f)) && Framed(gap, Erase(t, key, f))
  {
    EraseIsRemoval(t, key, f);
    var t' := Erase(t, key, f);
    forall k | k in ColdSlots(t') ensures k in ColdSlots(t) && ColdSlots(t')[k] == ColdSlots(t)[k] {
    }
  }

  lemma StrikeFrame(gap: int, t: Tier, slot: SlotData, k: int, id: string, f: Faults)
    requires TierInv(t) && Framed(gap, t) && InFrame(gap, k, slot)
    ensures TierInv(StrikeTier(t, slot, k, id, f)) && Framed(gap, StrikeTier(t, slot, k, id, f))
  {
    EraseFrame(gap, t, k, f);
    PutFrame(gap, t, k, slot.(jobIds := Without(slot.jobIds, id)));
  }

  lemma RemoveFrame(gap: int, q: Queue, id: string, unread: set<int>, f: Faults, q': Queue)
    requires gap >= 1 && TierInv(q.tier) && Framed(gap, q.tier) && QueueStep(gap, q, RemoveJob(id, unread, f), q')
    ensures TierInv(q'.tier) && Framed(gap, q'.tier)
  {
    if id in q.index {
      var k := q.index[id];
      var slot := Get(Blind(q.tier, unread), k);
      if slot.Some? {
        SeenFrame(gap, q.tier, unread, k);
        StrikeFrame(gap, q.tier, slot.value, k, id, f);
      }
    } else if q'.tier != q.tier {
      var cold := ColdSlots(Blind(q.tier, unread));
      var k, slot :| InFrame(gap, k, slot) && q'.tier == StrikeTier(q.tier, slot, k, id, f) by {
        assert forall x :: x in cold ==> x in ColdSlots(q.tier) && cold[x] == ColdSlots(q.tier)[x];
      }
      StrikeFrame(gap, q.tier, slot, k, id, f);
    }
  }

  lemma {:induction false} RunKeepsFrame(gap: int, qs: seq<Queue>, ops: seq<Op>, i: nat)
    requires gap >= 1 && Run(gap, qs, ops) && i <= |ops|
    requires TierInv(qs[0].tier) && Framed(gap, qs[0].tier)
    ensures TierInv(qs[i].tier) && Framed(gap, qs[i].tier)
  {
    hide QueueStep;
    if i > 0 {
      RunKeepsFrame(gap, qs, ops, i - 1);
      assert StepAt(gap, qs, ops, i - 1);
      StepKeepsFrame(gap, qs[i - 1], ops[i - 1], qs[i]);
    }
  }

  /** What a pass finds in the past, neither that pass nor any pass at a later time
      brings back, whatever the queue does in between. */
  lemma ArchivedIsNeverPromoted(gap: int, qs: seq<Queue>, ops: seq<Op>, i: nat, j: nat, k: int)
    requires gap >= 1 && Run(gap, qs, ops) && TierInv(qs[0].tier) && Framed(gap, qs[0].tier)
    requires i <= j < |ops| && ops[i].Evict? && ops[j].Evict? && ops[i].pass.threshold <= ops[j].pass.threshold
    requires k in Expired(qs[i].tier, ops[i].pass.threshold)
    ensures k !in Called(qs[j].tier, ops[j].pass)
  {
    RunKeepsFrame(gap, qs, ops, i);
    RunKeepsFrame(gap, qs, ops, j);
    PastIsNotCalled(gap, qs[i].tier, k, ops[i].pass.threshold, qs[j].tier, ops[j].pass);
  }

  /** Every cold slot lies before `time`. */
  ghost predicate ColdIsPast(gap: int, t: Tier, time: int) {
    forall k :: k in t.meta ==> (k + 1) * gap - 1 < time
  }

  /** The thresholds of the passes do not run back, and none is before `time`. */
  ghost predicate ClockRuns(ops: seq<Op>, time: int) {
    && (forall i :: 0 <= i < |ops| && ops[i].Evict? ==> time <= ops[i].pass.threshold)
    && (forall i, j :: 0 <= i <= j < |ops| && ops[i].Evict? && ops[j].Evict? ==>
          ops[i].pass.threshold <= ops[j].pass.threshold)
  }

  lemma StepKeepsPast(gap: int, q: Queue, op: Op, q': Queue, time: int)
    requires gap >= 1 && TierInv(q.tier) && Framed(gap, q.tier) && QueueStep(gap, q, op, q')
    requires ColdIsPast(gap, q.tier, time) && (op.Evict? ==> time <= op.pass.threshold)
    ensures ColdIsPast(gap, q'.tier, if op.Evict? then op.pass.threshold else time)
    ensures op.Evict? ==> Called(q.tier, op.pass) == {} && Flat(q'.tier) == Flat(q.tier)
  {
    if op.Evict? {
      var t, p := q.tier, op.pass;
      var mid := Archived(t, p);
      ArchivedFrame(gap, t, Writable(Expired(t, p.threshold), p.f));
      forall k | k in mid.meta ensures (k + 1) * gap - 1 < p.threshold {
        assert k in t.meta || k in Expired(t, p.threshold);
      }
      forall k ensures k !in Called(t, p) {
        assert (k + 1) * gap == k * gap + gap;
        if k in Called(t, p) {
          SeenFrame(gap, mid, p.unread, k);
        }
      }
      assert Called(t, p) == {};
      PassInvisibleIff(t, p);
    }
  }

  /** Starting with nothing cold but the past, and under a clock that does not run
      back, no pass ever brings a slot back, and none changes what `GetSlot` reads. */
  lemma {:induction false} NothingIsEverPromoted(gap: int, qs: seq<Queue>, ops: seq<Op>, time: int, i: nat)
    requires gap >= 1 && Run(gap, qs, ops) && i < |ops| && ClockRuns(ops, time)
    requires TierInv(qs[0].tier) && Framed(gap, qs[0].tier) && ColdIsPast(gap, qs[0].tier, time)
    ensures ops[i].Evict? ==> Called(qs[i].tier, ops[i].pass) == {} && Flat(qs[i + 1].tier) == Flat(qs[i].tier)
  {
    var now := PastSoFar(gap, qs, ops, time, i);
    RunKeepsFrame(gap, qs, ops, i);
    assert StepAt(gap, qs, ops, i);
    StepKeepsPast(gap, qs[i], ops[i], qs[i + 1], now);
  }

  /** The time of the last pass before step `i`. */
  lemma {:induction false} PastSoFar(gap: int, qs: seq<Queue>, ops: seq<Op>, time: int, i: nat) returns (now: int)
    requires gap >= 1 && Run(gap, qs, ops) && i <= |ops| && ClockRuns(ops, time)
    requires TierInv(qs[0].tier) && Framed(gap, qs[0].tier) && ColdIsPast(gap, qs[0].tier, time)
    ensures ColdIsPast(gap, qs[i].tier, now)
    ensures forall j :: i <= j < |ops| && ops[j].Evict? ==> now <= ops[j].pass.threshold
  {
    hide QueueStep, ColdIsPast, Framed, TierInv;
    now := time;
    if i > 0 {
      now := PastSoFar(gap, qs, ops, time, i - 1);
      RunKeepsFrame(gap, qs, ops, i - 1);
      assert StepAt(gap, qs, ops, i - 1);
      StepKeepsPast(gap, qs[i - 1], ops[i - 1], qs[i], now);
      if ops[i - 1].Evict? {
        now := ops[i - 1].pass.threshold;
      }
    }
  }
}
