/**
 One pass of the slot evictor on values: slots that lie wholly in the past are
 archived, then cold slots in the hot window are brought back.  A slot may be both
 hot and cold, and every cold-store operation may fail.
 */
module EvictionPass {
  import opened Types
  import opened SlotTier
  import opened SlotIndex

  predicate Past(s: SlotData, threshold: int) {
    s.maxTime < threshold
  }

  predicate Near(s: SlotData, threshold: int, window: int) {
    s.minTime >= threshold && s.maxTime < threshold + window * 2
  }

  /** The keys a pass tries to archive. */
  function Expired(t: Tier, threshold: int): set<int> {
    set k | k in t.hot && Past(t.hot[k], threshold)
  }

  /** The keys a pass tries to bring back: cold ones whose slot, as `GetSlot` reads it, is near. */
  function Promotable(t: Tier, threshold: int, window: int, unread: set<int>): set<int> {
    set k | k in t.meta && Get(Blind(t, unread), k).Some? && Near(Get(Blind(t, unread), k).value, threshold, window)
  }

  function ArchiveAll(t: Tier, ks: set<int>): Tier {
    if t.cold.None? then t
    else Tier(t.hot - ks, t.meta + (ks * t.hot.Keys), Some(t.cold.value + map k | k in ks && k in t.hot :: t.hot[k]))
  }

  function PromoteAll(t: Tier, ks: set<int>, f: int -> Faults): Tier {
    if t.cold.None? then t
    else Tier(t.hot + (map k | k in ks && k in t.cold.value :: t.cold.value[k]), t.meta - ks,
              Some(t.cold.value - (set k | k in ks && !f(k).delete)))
  }

  /** The keys of `ks` whose cold-store operation does not fail. */
  function Writable(ks: set<int>, f: int -> Faults): set<int> {
    set k | k in ks && !f(k).put
  }

  function Readable(ks: set<int>, f: int -> Faults): set<int> {
    set k | k in ks && !f(k).get
  }

  datatype Pass = Pass(threshold: int, window: int, unread: set<int>, f: int -> Faults)

  /** The store after the archiving half of a pass. */
  function Archived(t: Tier, p: Pass): Tier {
    ArchiveAll(t, Writable(Expired(t, p.threshold), p.f))
  }

  /** The keys the second half tries to bring back, and those it does. */
  function Called(t: Tier, p: Pass): set<int> {
    Promotable(Archived(t, p), p.threshold, p.window, p.unread)
  }

  function Brought(t: Tier, p: Pass): set<int> {
    Readable(Called(t, p), p.f)
  }

  function Passed(t: Tier, p: Pass): Tier {
    PromoteAll(Archived(t, p), Brought(t, p), p.f)
  }

  // ---------------------------------------------------------------- one key at a time

  lemma ArchiveOneMore(t: Tier, ks: set<int>, k: int, f: int -> Faults)
    requires Keyed(t) && ks <= t.hot.Keys && k in t.hot && k !in ks
    ensures var t1 := ArchiveAll(t, Writable(ks, f));
      && k in t1.hot && t1.hot[k] == t.hot[k]
      && Archive(t1, t.hot[k], f(k)).0 == ArchiveAll(t, Writable(ks + {k}, f))
  {
    var t1 := ArchiveAll(t, Writable(ks, f));
    var a, b := Archive(t1, t.hot[k], f(k)).0, ArchiveAll(t, Writable(ks + {k}, f));
    assert Writable(ks + {k}, f) == if f(k).put then Writable(ks, f) else Writable(ks, f) + {k};
    if t.cold.Some? && !f(k).put {
      assert a.hot == b.hot && a.meta == b.meta;
      assert a.cold.value == b.cold.value;
    }
  }

  lemma PromoteOneMore(t: Tier, ks: set<int>, k: int, unread: set<int>, f: int -> Faults)
    requires ks <= t.meta && k in t.meta && k !in ks
    ensures var t1 := PromoteAll(t, Readable(ks, f), f);
      && Get(Blind(t1, unread), k) == Get(Blind(t, unread), k)
      && Unarchive(t1, k, f(k)).0 == PromoteAll(t, Readable(ks + {k}, f), f)
  {
    var t1 := PromoteAll(t, Readable(ks, f), f);
    assert Readable(ks + {k}, f) == if f(k).get then Readable(ks, f) else Readable(ks, f) + {k};
    if t.cold.Some? && !f(k).get {
      UnarchiveOne(t, Readable(ks, f), k, f);
    }
  }

  lemma UnarchiveOne(t: Tier, ks: set<int>, k: int, f: int -> Faults)
    requires t.cold.Some? && !f(k).get && k !in ks
    ensures Unarchive(PromoteAll(t, ks, f), k, f(k)).0 == PromoteAll(t, ks + {k}, f)
  {
    HotOneMore(t.hot, t.cold.value, ks, k);
    ColdOneMore(t.cold.value, ks, k, f);
  }

  lemma HotOneMore(hot: map<int, SlotData>, cold: map<int, SlotData>, ks: set<int>, k: int)
    requires k !in ks
    ensures var more := hot + (map x | x in ks && x in cold :: cold[x]);
      hot + (map x | x in ks + {k} && x in cold :: cold[x]) == if k in cold then more[k := cold[k]] else more
  {
  }

  lemma ColdOneMore(cold: map<int, SlotData>, ks: set<int>, k: int, f: int -> Faults)
    requires k !in ks
    ensures var less := cold - (set x | x in ks && !f(x).delete);
      && (k in cold <==> k in less) && (k in cold ==> less[k] == cold[k])
      && cold - (set x | x in ks + {k} && !f(x).delete) == if f(k).delete then less else less - {k}
  {
  }

  lemma ExpiredKey(t: Tier, threshold: int, k: int)
    ensures Expired(t, threshold) <= t.hot.Keys
    ensures k in t.hot ==> (k in Expired(t, threshold) <==> Past(t.hot[k], threshold))
  {
  }

  lemma PromotableKey(t: Tier, p: Pass, k: int)
    ensures Promotable(t, p.threshold, p.window, p.unread) <= t.meta
    ensures var slot := Get(Blind(t, p.unread), k);
      k in t.meta ==> (k in Promotable(t, p.threshold, p.window, p.unread) <==> slot.Some? && Near(slot.value, p.threshold, p.window))
  {
  }

  lemma NothingMoved(t: Tier, f: int -> Faults)
    ensures ArchiveAll(t, Writable({}, f)) == t && PromoteAll(t, Readable({}, f), f) == t
  {
    var a, b := ArchiveAll(t, Writable({}, f)), PromoteAll(t, Readable({}, f), f);
    if t.cold.Some? {
      assert a.hot == t.hot && a.meta == t.meta && b.hot == t.hot && b.meta == t.meta;
      assert a.cold.value == t.cold.value && b.cold.value == t.cold.value;
    }
  }

  // ---------------------------------------------------------------- what a pass changes

  /** Archiving what is hot changes no read. */
  lemma ArchivedReads(t: Tier, ks: set<int>)
    requires TierInv(t)
    ensures TierInv(ArchiveAll(t, ks)) && Flat(ArchiveAll(t, ks)) == Flat(t)
    ensures Keyed(t) ==> Keyed(ArchiveAll(t, ks))
  {
    var t' := ArchiveAll(t, ks);
    forall k ensures Get(t', k) == Get(t, k) {
    }
    SameGet(t, t');
  }

  lemma PromotedReads(t: Tier, ks: set<int>, f: int -> Faults)
    requires TierInv(t) && ks <= t.meta
    ensures var t' := PromoteAll(t, ks, f);
      && TierInv(t') && (Keyed(t) ==> Keyed(t'))
      && (Flat(t') == Flat(t) <==> forall k :: k in ks ==> !Stale(t, k))
  {
    var t' := PromoteAll(t, ks, f);
    if k :| k in ks && Stale(t, k) {
      FlatIsGet(t, k);
      FlatIsGet(t', k);
      assert Get(t', k) == Some(t.cold.value[k]);
    } else {
      forall k ensures Get(t', k) == Get(t, k) {
        assert k in ks ==> !Stale(t, k);
      }
      SameGet(t, t');
    }
  }

  /** A pass changes no result of `GetSlot` if and only if no cold copy it brings
      back is stale. */
  lemma PassInvisibleIff(t: Tier, p: Pass)
    requires TierInv(t)
    ensures TierInv(Passed(t, p)) && (Keyed(t) ==> Keyed(Passed(t, p)))
    ensures Flat(Passed(t, p)) == Flat(t) <==> forall k :: k in Brought(t, p) ==> !Stale(Archived(t, p), k)
  {
    ArchivedReads(t, Writable(Expired(t, p.threshold), p.f));
    PromotedReads(Archived(t, p), Brought(t, p), p.f);
  }

  // ---------------------------------------------------------------- with bounds fixed by the key

  lemma FrameOrder(gap: int, k: int, s: SlotData, s': SlotData, threshold: int, later: int, window: int)
    requires gap >= 1 && InFrame(gap, k, s) && InFrame(gap, k, s') && threshold <= later
    ensures !(Past(s, threshold) && Near(s', later, window))
  {
    assert (k + 1) * gap == k * gap + gap;
  }

  /** What was past at one time is not brought back at that time or later, whatever
      happened in between. */
  lemma PastIsNotCalled(gap: int, t: Tier, k: int, threshold: int, t': Tier, p: Pass)
    requires gap >= 1 && TierInv(t') && Framed(gap, t) && Framed(gap, t') && threshold <= p.threshold
    requires k in Expired(t, threshold)
    ensures k !in Called(t', p)
  {
    var mid := Archived(t', p);
    ArchivedFrame(gap, t', Writable(Expired(t', p.threshold), p.f));
    if k in Called(t', p) {
      var s := Get(Blind(mid, p.unread), k).value;
      SeenFrame(gap, mid, p.unread, k);
      FrameOrder(gap, k, t.hot[k], s, threshold, p.threshold, p.window);
    }
  }

  lemma ArchivedFrame(gap: int, t: Tier, ks: set<int>)
    requires Framed(gap, t)
    ensures Framed(gap, ArchiveAll(t, ks))
  {
    var t' := ArchiveAll(t, ks);
    forall k | k in ColdSlots(t') ensures InFrame(gap, k, ColdSlots(t')[k]) {
      assert (k in t.hot && k in ks) || k in ColdSlots(t);
    }
  }

  lemma SeenFrame(gap: int, t: Tier, unread: set<int>, k: int)
    requires Framed(gap, t) && Get(Blind(t, unread), k).Some?
    ensures InFrame(gap, k, Get(Blind(t, unread), k).value)
  {
    BlindGet(t, unread, k);
    if k !in t.hot {
      assert k in ColdSlots(t);
    }
  }

  lemma PassedFrame(gap: int, t: Tier, p: Pass)
    requires TierInv(t) && Framed(gap, t)
    ensures Framed(gap, Passed(t, p))
  {
    var mid, t' := Archived(t, p), Passed(t, p);
    ArchivedFrame(gap, t, Writable(Expired(t, p.threshold), p.f));
    forall k | k in t'.hot ensures InFrame(gap, k, t'.hot[k]) {
      assert k in Brought(t, p) && k in mid.cold.value ==> k in ColdSlots(mid);
    }
    forall k | k in ColdSlots(t') ensures InFrame(gap, k, ColdSlots(t')[k]) {
      assert k in ColdSlots(mid);
    }
  }

  /** Which slots a pass moves, by their keys: it tries to archive the hot ones that
      end by the threshold, and to bring back the cold ones it can read that lie
      between the threshold and two windows after it. */
  lemma PassKeysIff(gap: int, t: Tier, p: Pass, k: int)
    requires gap >= 1 && TierInv(t) && Framed(gap, t)
    ensures k in Expired(t, p.threshold) <==> k in t.hot && (k + 1) * gap <= p.threshold
    ensures k in Called(t, p) <==>
      k in t.meta && !Hidden(t, k, p.unread) && p.threshold <= k * gap && (k + 1) * gap <= p.threshold + p.window * 2
  {
    var mid := Archived(t, p);
    assert (k + 1) * gap == k * gap + gap;
    ArchivedFrame(gap, t, Writable(Expired(t, p.threshold), p.f));
    BlindGet(t, p.unread, k);
    BlindGet(mid, p.unread, k);
    if Get(Blind(mid, p.unread), k).Some? {
      SeenFrame(gap, mid, p.unread, k);
    }
    if k in t.hot {
      assert InFrame(gap, k, t.hot[k]);
    }
  }

  /** After a pass whose archives succeed nothing hot lies in the past. */
  lemma NothingPastStaysHot(gap: int, t: Tier, p: Pass)
    requires gap >= 1 && TierInv(t) && Framed(gap, t) && t.cold.Some?
    requires forall k :: k in Expired(t, p.threshold) ==> !p.f(k).put
    ensures forall k :: k in Passed(t, p).hot ==> Passed(t, p).hot[k].maxTime >= p.threshold
  {
    var mid, t' := Archived(t, p), Passed(t, p);
    PassedFrame(gap, t, p);
    ArchivedFrame(gap, t, Writable(Expired(t, p.threshold), p.f));
    forall k | k in t'.hot ensures t'.hot[k].maxTime >= p.threshold {
      if k in Brought(t, p) {
        SeenFrame(gap, mid, p.unread, k);
        FrameOrder(gap, k, t'.hot[k], Get(Blind(mid, p.unread), k).value, p.threshold, p.threshold, p.window);
      } else {
        assert k in mid.hot && k !in Writable(Expired(t, p.threshold), p.f);
      }
    }
  }

  /** A pass right after such a pass, at the same time, finds nothing to do. */
  lemma SecondPassIsIdle(gap: int, t: Tier, p: Pass)
    requires gap >= 1 && TierInv(t) && Framed(gap, t) && t.cold.Some?
    requires p.unread == {} && forall k :: !p.f(k).put && !p.f(k).get
    ensures Expired(Passed(t, p), p.threshold) == {} && Called(Passed(t, p), p) == {}
  {
    var mid, t' := Archived(t, p), Passed(t, p);
    NothingPastStaysHot(gap, t, p);
    assert Expired(t', p.threshold) == {};
    assert Writable({}, p.f) == {};
    NothingMoved(t', p.f);
    forall k ensures k !in Called(t', p) {
      if k in Called(t', p) {
        assert k in mid.meta && k !in Brought(t, p);
        BlindGet(t', {}, k);
        BlindGet(mid, {}, k);
      }
    }
    assert Called(t', p) == {};
  }

  /** What happens to the keys of the wheel: every slot a pass tries to archive is
      dropped, every slot it tries to bring back is told. */
  function WheelKeys(held: set<int>, t: Tier, p: Pass): set<int> {
    held - Expired(t, p.threshold) + Called(t, p)
  }

  /** What the wheel holds after a pass, by the keys: what it held but for the hot
      slots that end by the threshold, and the cold slots the pass brings back. */
  lemma WheelAfterPassIff(gap: int, t: Tier, p: Pass, held: set<int>, k: int)
    requires gap >= 1 && TierInv(t) && Framed(gap, t)
    ensures k in WheelKeys(held, t, p) <==>
      || (k in held && !(k in t.hot && (k + 1) * gap <= p.threshold))
      || (k in t.meta && !Hidden(t, k, p.unread) && p.threshold <= k * gap && (k + 1) * gap <= p.threshold + p.window * 2)
  {
    hide Called, Expired, Hidden, TierInv, Framed;
    PassKeysIff(gap, t, p, k);
  }

  /** A slot that stays hot leaves the wheel if and only if it lies in the past and
      its archive is refused. */
  lemma RefusedLeavesWheelIff(gap: int, t: Tier, p: Pass, held: set<int>, k: int)
    requires gap >= 1 && TierInv(t) && Framed(gap, t)
    requires k in held && k in t.hot && k in Passed(t, p).hot
    ensures k !in WheelKeys(held, t, p) <==> k in Expired(t, p.threshold) && (t.cold.None? || p.f(k).put)
  {
    if k in Expired(t, p.threshold) {
      PastIsNotCalled(gap, t, k, p.threshold, t, p);
    }
  }
}
