/**
 The job-to-slot index on values: what it must mirror, what adding and removing
 a job does to the slots, and when rebuilding it from the store is exact.
 */
module SlotIndex {
  import opened Sequences
  import opened Types
  import opened SlotTier
  import WheelLevels
  import opened WheelSpec

  // ---------------------------------------------------------------- slot keys

  /** The slot key of a second. */
  function SlotKey(gap: int, timestamp: int): int
    requires gap >= 1
  {
    TruncDiv(timestamp, gap)
  }

  /** The second lies in slot `k`; before time zero division rounds the other way. */
  predicate InSlot(gap: int, k: int, timestamp: int) {
    && (timestamp >= 0 ==> k * gap <= timestamp < (k + 1) * gap)
    && (timestamp <= 0 ==> (k - 1) * gap < timestamp <= k * gap)
  }

  lemma SlotKeyIs(gap: int, timestamp: int)
    requires gap >= 1
    ensures InSlot(gap, SlotKey(gap, timestamp), timestamp)
    ensures forall k :: InSlot(gap, k, timestamp) ==> k == SlotKey(gap, timestamp)
  {
    TruncBounds(gap, timestamp);
    var q := SlotKey(gap, timestamp);
    assert (q + 1) * gap == q * gap + gap && (q - 1) * gap == q * gap - gap;
    forall k | InSlot(gap, k, timestamp) ensures k == q {
      assert (k + 1) * gap == k * gap + gap && (k - 1) * gap == k * gap - gap;
      SameMultiple(gap, k, q);
    }
  }

  function NewSlot(gap: int, key: int, jobIds: seq<string>): SlotData {
    SlotData(key, key * gap, (key + 1) * gap - 1, jobIds)
  }

  predicate Within(s: SlotData, timestamp: int) {
    s.minTime <= timestamp <= s.maxTime
  }

  /** A second lies in the slot of its key unless it is negative and between two slots. */
  lemma SecondInItsSlot(gap: int, timestamp: int, ids: seq<string>)
    requires gap >= 1
    ensures Within(NewSlot(gap, SlotKey(gap, timestamp), ids), timestamp) <==> timestamp >= 0 || timestamp % gap == 0
  {
    var k := SlotKey(gap, timestamp);
    if timestamp >= 0 {
      assert timestamp == k * gap + timestamp % gap;
    } else {
      var r := (-timestamp) % gap;
      assert timestamp == k * gap - r;
      if r == 0 {
        WheelLevels.DivisionUnique(timestamp, gap, k, 0);
      } else {
        WheelLevels.DivisionUnique(timestamp, gap, k - 1, gap - r);
      }
    }
  }

  // ---------------------------------------------------------------- the index and what it mirrors

  type Index = map<string, int>

  predicate Lists(m: map<int, SlotData>, key: int, id: string) {
    key in m && id in m[key].jobIds
  }

  /** The index is the inverse of the slots' job lists. */
  ghost predicate Inverse(idx: Index, m: map<int, SlotData>) {
    forall id, k :: (id in idx && idx[id] == k) <==> Lists(m, k, id)
  }

  /** A slot as `AddJob` makes it: bounds of its key, and jobs listed once. */
  ghost predicate GoodSlot(gap: int, k: int, s: SlotData) {
    && s == NewSlot(gap, k, s.jobIds)
    && s.jobIds != []
    && Distinct(s.jobIds)
  }

  ghost predicate GoodSlots(gap: int, m: map<int, SlotData>) {
    forall k :: k in m ==> GoodSlot(gap, k, m[k])
  }

  /** Every indexed job is scheduled within the bounds of its slot. */
  ghost predicate OnSchedule(idx: Index, m: map<int, SlotData>, schedule: map<string, int>) {
    forall id :: id in idx ==> id in schedule && idx[id] in m && Within(m[idx[id]], schedule[id])
  }

  ghost predicate IndexInv(gap: int, idx: Index, m: map<int, SlotData>, schedule: map<string, int>) {
    Inverse(idx, m) && GoodSlots(gap, m) && OnSchedule(idx, m, schedule)
  }

  // ---------------------------------------------------------------- adding

  function Extended(gap: int, m: map<int, SlotData>, key: int, id: string): SlotData {
    if key in m then m[key].(jobIds := m[key].jobIds + [id]) else NewSlot(gap, key, [id])
  }

  lemma AddKeepsInv(gap: int, idx: Index, m: map<int, SlotData>, schedule: map<string, int>, id: string, timestamp: int)
    requires gap >= 1 && IndexInv(gap, idx, m, schedule)
    requires id !in idx && (timestamp >= 0 || timestamp % gap == 0)
    ensures var k := SlotKey(gap, timestamp);
      IndexInv(gap, idx[id := k], m[k := Extended(gap, m, k, id)], schedule[id := timestamp])
  {
    var k := SlotKey(gap, timestamp);
    var s := Extended(gap, m, k, id);
    var m' := m[k := s];
    SecondInItsSlot(gap, timestamp, s.jobIds);
    assert !Lists(m, k, id);
    forall x, key ensures Lists(m', key, x) <==> Lists(m, key, x) || (key == k && x == id) {
    }
    assert GoodSlot(gap, k, s) by {
      if k in m {
        assert GoodSlot(gap, k, m[k]);
      }
    }
    forall x | x in idx ensures Within(m'[idx[x]], schedule[x]) {
      assert Lists(m, idx[x], x);
      assert GoodSlot(gap, idx[x], m[idx[x]]);
    }
  }

  // ---------------------------------------------------------------- removing

  /** Drops the first occurrence. */
  function Without(ids: seq<string>, id: string): seq<string> {
    if ids == [] then []
    else if ids[0] == id then ids[1..]
    else [ids[0]] + Without(ids[1..], id)
  }

  lemma {:induction false} WithoutDrops(ids: seq<string>, id: string)
    requires Distinct(ids)
    ensures Distinct(Without(ids, id))
    ensures forall x :: x in Without(ids, id) <==> x in ids && x != id
  {
    if ids != [] {
      var rest := ids[1..];
      assert Distinct(rest);
      assert ids == [ids[0]] + rest;
      assert ids[0] !in rest;
      WithoutDrops(rest, id);
    }
  }

  /** Of a list that has the job exactly its first occurrence goes. */
  lemma {:induction false} WithoutOne(ids: seq<string>, id: string) returns (i: nat)
    requires id in ids
    ensures i < |ids| && ids[i] == id && (forall j :: 0 <= j < i ==> ids[j] != id)
    ensures Without(ids, id) == ids[..i] + ids[i + 1..]
  {
    if ids[0] == id {
      i := 0;
    } else {
      var first, rest := ids[0], ids[1..];
      assert ids == [first] + rest;
      var j := WithoutOne(rest, id);
      i := j + 1;
      CutAfterFirst(first, rest, j);
    }
  }

  lemma CutAfterFirst(first: string, rest: seq<string>, j: nat)
    requires j < |rest|
    ensures ([first] + rest)[..j + 1] + ([first] + rest)[j + 2..] == [first] + (rest[..j] + rest[j + 1..])
  {
  }

  lemma {:induction false} WithoutNone(ids: seq<string>, id: string)
    requires id !in ids
    ensures Without(ids, id) == ids
  {
    if ids != [] {
      WithoutNone(ids[1..], id);
    }
  }

  /** Takes the job off one slot, and drops the slot with its last job. */
  function Strike(m: map<int, SlotData>, k: int, id: string): map<int, SlotData>
    requires k in m
  {
    var ids := Without(m[k].jobIds, id);
    if ids == [] then m - {k} else m[k := m[k].(jobIds := ids)]
  }

  lemma StrikeLists(gap: int, m: map<int, SlotData>, k: int, id: string)
    requires GoodSlots(gap, m) && k in m
    ensures GoodSlots(gap, Strike(m, k, id))
    ensures forall key, x :: Lists(Strike(m, k, id), key, x) <==> Lists(m, key, x) && !(key == k && x == id)
  {
    assert GoodSlot(gap, k, m[k]);
    WithoutDrops(m[k].jobIds, id);
    var m', ids := Strike(m, k, id), Without(m[k].jobIds, id);
    forall key, x ensures Lists(m', key, x) <==> Lists(m, key, x) && !(key == k && x == id) {
      assert key == k ==> (x in ids <==> x in m[k].jobIds && x != id);
    }
  }

  lemma RemoveKeepsInv(gap: int, idx: Index, m: map<int, SlotData>, schedule: map<string, int>, id: string)
    requires IndexInv(gap, idx, m, schedule) && id in idx
    ensures Lists(m, idx[id], id)
    ensures IndexInv(gap, idx - {id}, Strike(m, idx[id], id), schedule)
  {
    var k := idx[id];
    assert Lists(m, k, id);
    var m' := Strike(m, k, id);
    StrikeLists(gap, m, k, id);
    forall x | x in idx - {id} ensures idx[x] in m' && Within(m'[idx[x]], schedule[x]) {
      assert Lists(m, idx[x], x);
      assert Lists(m', idx[x], x);
    }
  }

  lemma DropSlotKeepsInv(gap: int, idx: Index, m: map<int, SlotData>, schedule: map<string, int>, k: int)
    requires IndexInv(gap, idx, m, schedule)
    ensures IndexInv(gap, idx - (if k in m then (set id | id in m[k].jobIds) else {}), m - {k}, schedule)
  {
    var m' := m - {k};
    var idx' := idx - (if k in m then (set id | id in m[k].jobIds) else {});
    forall id, key ensures (id in idx' && idx'[id] == key) <==> Lists(m', key, id) {
      assert (id in idx && idx[id] == key) <==> Lists(m, key, id);
      assert (id in idx && idx[id] == k) <==> Lists(m, k, id);
    }
    forall id | id in idx' ensures idx'[id] in m' && m'[idx'[id]] == m[idx[id]] {
      assert Lists(m', idx'[id], id);
    }
  }

  // ---------------------------------------------------------------- the tiers behind it

  /** Removing a job through the store: the slot as read, written back or erased. */
  function StrikeTier(t: Tier, slot: SlotData, key: int, id: string, f: Faults): Tier {
    var ids := Without(slot.jobIds, id);
    if ids == [] then Erase(t, key, f) else PutHot(t, slot.(jobIds := ids))
  }

  lemma StrikeTierIsStrike(gap: int, t: Tier, key: int, id: string, f: Faults)
    requires TierInv(t) && GoodSlots(gap, Flat(t)) && key in Flat(t)
    ensures TierInv(StrikeTier(t, Flat(t)[key], key, id, f))
    ensures Flat(StrikeTier(t, Flat(t)[key], key, id, f)) == Strike(Flat(t), key, id)
  {
    var slot := Flat(t)[key];
    assert GoodSlot(gap, key, slot);
    EraseIsRemoval(t, key, f);
    PutHotIsUpdate(t, slot.(jobIds := Without(slot.jobIds, id)));
  }

  /** The cold slots a scan of the cold store sees. */
  function ColdSlots(t: Tier): map<int, SlotData> {
    if t.cold.None? then map[] else map k | k in t.meta && k in t.cold.value :: t.cold.value[k]
  }

  /** A slot that is both hot and cold has no job in its cold copy that the hot one lacks. */
  ghost predicate Tidy(t: Tier) {
    forall k, id :: k in t.hot && Lists(ColdSlots(t), k, id) ==> id in t.hot[k].jobIds
  }

  /** Every copy carries the key and the bounds of its place. */
  ghost predicate Framed(gap: int, t: Tier) {
    (forall k :: k in t.hot ==> InFrame(gap, k, t.hot[k])) && (forall k :: k in ColdSlots(t) ==> InFrame(gap, k, ColdSlots(t)[k]))
  }

  predicate InFrame(gap: int, k: int, s: SlotData) {
    s == NewSlot(gap, k, s.jobIds)
  }

  /** Every copy is one that `AddJob` could have made. */
  ghost predicate GoodCopies(gap: int, t: Tier) {
    GoodSlots(gap, t.hot) && GoodSlots(gap, ColdSlots(t))
  }

  lemma FlatLists(t: Tier, k: int, id: string)
    ensures Lists(Flat(t), k, id) <==> Lists(t.hot, k, id) || (k !in t.hot && Lists(ColdSlots(t), k, id))
  {
    FlatIsGet(t, k);
  }

  /** What a full scan of both tiers, cold first, finds and rewrites, skipping the
      cold slots it cannot read. */
  ghost predicate ScanResult(t: Tier, unread: set<int>, id: string, f: Faults, t': Tier) {
    var cold := ColdSlots(Blind(t, unread));
    if exists k :: Lists(cold, k, id) then
      exists k :: Lists(cold, k, id) && t' == StrikeTier(t, cold[k], k, id, f)
    else if exists k :: Lists(t.hot, k, id) then
      exists k :: Lists(t.hot, k, id) && t' == StrikeTier(t, t.hot[k], k, id, f)
    else
      t' == t
  }

  /** With no slot both hot and cold, the scan and the index strike the same job
      off the same slot, or neither finds it. */
  lemma ScanMatchesIndex(t: Tier, unread: set<int>, idx: Index, id: string, f: Faults, t': Tier)
    requires t.hot.Keys !! t.meta && Inverse(idx, Flat(t)) && ScanResult(t, unread, id, f, t')
    ensures t' == if id in idx && Get(Blind(t, unread), idx[id]).Some?
                  then StrikeTier(t, Get(Blind(t, unread), idx[id]).value, idx[id], id, f) else t
  {
    var cold := ColdSlots(Blind(t, unread));
    forall k | Lists(cold, k, id) || Lists(t.hot, k, id)
      ensures id in idx && idx[id] == k
      ensures Get(Blind(t, unread), k) == Some(if Lists(t.hot, k, id) then t.hot[k] else cold[k])
    {
      assert Lists(cold, k, id) ==> Lists(ColdSlots(t), k, id);
      FlatLists(t, k, id);
      assert Lists(Flat(t), k, id);
    }
    if id in idx {
      assert Lists(Flat(t), idx[id], id);
      FlatLists(t, idx[id], id);
      BlindGet(t, unread, idx[id]);
    }
  }

  /** When some readable cold copy lists the job, one alone, and at a visible slot,
      the scan works from that copy whatever the hot one says: it strikes the job off
      the visible slot if and only if the two lists agree but for the job. */
  lemma ScanFromColdIff(gap: int, t: Tier, unread: set<int>, k: int, id: string, f: Faults, t': Tier)
    requires TierInv(t) && Framed(gap, t) && Get(t, k).Some? && ScanResult(t, unread, id, f, t')
    requires Lists(ColdSlots(Blind(t, unread)), k, id) && forall x :: Lists(ColdSlots(Blind(t, unread)), x, id) ==> x == k
    ensures Flat(t') == Strike(Flat(t), k, id) <==>
      Without(ColdSlots(Blind(t, unread))[k].jobIds, id) == Without(Get(t, k).value.jobIds, id)
  {
    var cold := ColdSlots(Blind(t, unread));
    assert Lists(cold, k, id);
    FlatIsGet(t, k);
    assert cold[k] == ColdSlots(t)[k];
    assert t' == StrikeTier(t, cold[k], k, id, f);
    var seen, read := Flat(t)[k], cold[k];
    assert InFrame(gap, k, seen) && InFrame(gap, k, read);
    EraseIsRemoval(t, k, f);
    PutHotIsUpdate(t, read.(jobIds := Without(read.jobIds, id)));
    if Flat(t') == Strike(Flat(t), k, id) && Without(read.jobIds, id) != [] {
      assert k in Flat(t');
    }
  }

  /** In a tidy store a job that is not indexed is found by no scan. */
  lemma ScanFindsNothing(t: Tier, unread: set<int>, idx: Index, id: string, f: Faults, t': Tier)
    requires Tidy(t) && Inverse(idx, Flat(t)) && id !in idx && ScanResult(t, unread, id, f, t')
    ensures t' == t
  {
    forall k ensures !Lists(ColdSlots(Blind(t, unread)), k, id) && !Lists(t.hot, k, id) {
      assert !Lists(Flat(t), k, id);
      FlatLists(t, k, id);
      assert Lists(ColdSlots(Blind(t, unread)), k, id) ==> Lists(ColdSlots(t), k, id);
    }
  }

  /** Striking a job keeps the store tidy unless the slot stays with other jobs
      and its cold copy still lists the one removed. */
  lemma StrikeTidyIff(t: Tier, slot: SlotData, id: string, f: Faults)
    requires Tidy(t) && Get(t, slot.key) == Some(slot) && Distinct(slot.jobIds)
    ensures var ids := Without(slot.jobIds, id);
      Tidy(StrikeTier(t, slot, slot.key, id, f)) <==> ids == [] || !Lists(ColdSlots(t), slot.key, id)
  {
    var k, ids := slot.key, Without(slot.jobIds, id);
    var t' := StrikeTier(t, slot, k, id, f);
    WithoutDrops(slot.jobIds, id);
    if ids == [] {
      forall key, x | key in t'.hot && Lists(ColdSlots(t'), key, x) ensures x in t'.hot[key].jobIds {
        assert Lists(ColdSlots(t), key, x);
      }
    } else {
      assert ColdSlots(t') == ColdSlots(t);
      if Lists(ColdSlots(t), k, id) {
        assert id !in t'.hot[k].jobIds;
      } else {
        forall key, x | key in t'.hot && Lists(ColdSlots(t'), key, x) ensures x in t'.hot[key].jobIds {
          assert key == k && k !in t.hot ==> Get(t, k) == Some(ColdSlots(t)[k]);
        }
      }
    }
  }

  // ---------------------------------------------------------------- rebuilding

  /** Indexes the slots of `m` in the given order; later slots win. */
  function Indexing(m: map<int, SlotData>, order: seq<int>, start: Index): Index
    requires forall i :: 0 <= i < |order| ==> order[i] in m
  {
    if order == [] then start
    else
      var k := order[|order| - 1];
      Indexing(m, order[..|order| - 1], start) + map id | id in m[k].jobIds :: k
  }

  lemma {:induction false} IndexingSound(m: map<int, SlotData>, order: seq<int>, start: Index, id: string)
    requires forall i :: 0 <= i < |order| ==> order[i] in m
    ensures var idx := Indexing(m, order, start);
      && (id in idx ==> (idx[id] in order && Lists(m, idx[id], id)) || (id in start && idx[id] == start[id]))
      && (id in start ==> id in idx)
      && (forall k :: k in order && Lists(m, k, id) ==> id in idx && idx[id] in order && Lists(m, idx[id], id))
  {
    if order != [] {
      IndexingSound(m, order[..|order| - 1], start, id);
      assert order == order[..|order| - 1] + [order[|order| - 1]];
    }
  }

  ghost predicate Covers(order: seq<int>, m: map<int, SlotData>) {
    && (forall i :: 0 <= i < |order| ==> order[i] in m)
    && (forall k :: k in m ==> k in order)
  }

  /** What `LoadJobs` builds: hot slots first, then the cold ones. */
  function Loaded(t: Tier, hotOrder: seq<int>, coldOrder: seq<int>): Index
    requires Covers(hotOrder, t.hot) && Covers(coldOrder, ColdSlots(t))
  {
    Indexing(ColdSlots(t), coldOrder, Indexing(t.hot, hotOrder, map[]))
  }

  /** No job is listed by two slots. */
  ghost predicate OneSlotEach(m: map<int, SlotData>) {
    forall id, a, b :: Lists(m, a, id) && Lists(m, b, id) ==> a == b
  }

  lemma LoadedIsExact(t: Tier, hotOrder: seq<int>, coldOrder: seq<int>)
    requires Covers(hotOrder, t.hot) && Covers(coldOrder, ColdSlots(t))
    requires Tidy(t) && OneSlotEach(Flat(t))
    ensures Inverse(Loaded(t, hotOrder, coldOrder), Flat(t))
  {
    var start := Indexing(t.hot, hotOrder, map[]);
    var idx := Loaded(t, hotOrder, coldOrder);
    forall id, k ensures (id in idx && idx[id] == k) <==> Lists(Flat(t), k, id) {
      IndexingSound(t.hot, hotOrder, map[], id);
      IndexingSound(ColdSlots(t), coldOrder, start, id);
      FlatLists(t, k, id);
      if id in idx {
        FlatLists(t, idx[id], id);
        assert Lists(Flat(t), idx[id], id);
      }
      if Lists(Flat(t), k, id) {
        assert Lists(t.hot, k, id) ==> k in hotOrder;
        assert Lists(ColdSlots(t), k, id) ==> k in coldOrder;
        assert id in idx;
      }
    }
  }

  lemma {:induction false} SomeOrder(m: map<int, SlotData>, keys: set<int>) returns (order: seq<int>)
    requires keys <= m.Keys
    ensures forall i :: 0 <= i < |order| ==> order[i] in keys
    ensures forall k :: k in keys ==> k in order
    decreases keys
  {
    if k :| k in keys {
      var rest := SomeOrder(m, keys - {k});
      order := rest + [k];
    } else {
      order := [];
    }
  }

  /** Rebuilding is exact, whatever order the maps are read in, precisely when
      the store is tidy. */
  lemma LoadExactIff(t: Tier)
    requires OneSlotEach(Flat(t))
    ensures Tidy(t) <==>
      forall hotOrder, coldOrder :: Covers(hotOrder, t.hot) && Covers(coldOrder, ColdSlots(t)) ==>
        Inverse(Loaded(t, hotOrder, coldOrder), Flat(t))
  {
    if Tidy(t) {
      forall hotOrder, coldOrder | Covers(hotOrder, t.hot) && Covers(coldOrder, ColdSlots(t))
        ensures Inverse(Loaded(t, hotOrder, coldOrder), Flat(t))
      {
        LoadedIsExact(t, hotOrder, coldOrder);
      }
    } else {
      var k, id :| k in t.hot && Lists(ColdSlots(t), k, id) && id !in t.hot[k].jobIds;
      var cold := ColdSlots(t);
      var hotOrder := SomeOrder(t.hot, t.hot.Keys);
      var rest := SomeOrder(cold, cold.Keys - {k});
      var coldOrder := rest + [k];
      assert Covers(hotOrder, t.hot) && Covers(coldOrder, cold);
      var idx := Loaded(t, hotOrder, coldOrder);
      assert coldOrder[|coldOrder| - 1] == k;
      assert idx[id] == k;
      FlatLists(t, k, id);
      assert !Inverse(idx, Flat(t));
    }
  }
}
