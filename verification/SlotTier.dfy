/**
 Slots in two tiers: a hot map in memory, and a cold store on disk reached
 through a set of cold keys.  Cold-store operations may fail.
 */
module SlotTier {
  import opened Types

  /** `cold` is absent when no cold store is configured. */
  datatype Tier = Tier(hot: map<int, SlotData>, meta: set<int>, cold: Option<map<int, SlotData>>)

  /** Which cold-store operations fail while one command is applied. */
  datatype Faults = Faults(put: bool, get: bool, delete: bool)

  const NO_FAULTS := Faults(false, false, false)

  function PutHot(t: Tier, s: SlotData): Tier {
    t.(hot := t.hot[s.key := s])
  }

  function EraseCold(t: Tier, key: int, f: Faults): Tier {
    if t.cold.Some? && !f.delete then t.(cold := Some(t.cold.value - {key})) else t
  }

  function Erase(t: Tier, key: int, f: Faults): Tier {
    EraseCold(t.(hot := t.hot - {key}, meta := t.meta - {key}), key, f)
  }

  function Archive(t: Tier, s: SlotData, f: Faults): (Tier, Response) {
    if t.cold.None? then (t, Rejected(ColdStoreNotEnabled))
    else if f.put then (t, Rejected(ColdStoreFailed))
    else (Tier(t.hot - {s.key}, t.meta + {s.key}, Some(t.cold.value[s.key := s])), Nothing)
  }

  function Unarchive(t: Tier, key: int, f: Faults): (Tier, Response) {
    if t.cold.None? then (t, Rejected(ColdStoreNotEnabled))
    else if f.get then (t, Rejected(ColdStoreFailed))
    else
      var t1 := if key in t.cold.value then t.(hot := t.hot[key := t.cold.value[key]]) else t;
      var t2 := EraseCold(t1, key, f);
      (t2.(meta := t2.meta - {key}), Nothing)
  }

  /** A slot as `GetSlot` returns it when the cold store can be read. */
  function Get(t: Tier, key: int): Option<SlotData> {
    if key in t.hot then Some(t.hot[key])
    else if key in t.meta && t.cold.Some? && key in t.cold.value then Some(t.cold.value[key])
    else None
  }

  /** The tiers as seen while the cold copies of `unread` cannot be read. */
  function Blind(t: Tier, unread: set<int>): Tier {
    if t.cold.None? then t else t.(cold := Some(t.cold.value - unread))
  }

  /** The slot is only in the cold store, and cannot be read. */
  predicate Hidden(t: Tier, key: int, unread: set<int>) {
    key !in t.hot && key in unread && Get(t, key).Some?
  }

  lemma BlindGet(t: Tier, unread: set<int>, key: int)
    ensures Get(Blind(t, unread), key) == if Hidden(t, key, unread) then None else Get(t, key)
  {
  }

  /** The cold metadata never names a key the cold store does not hold. */
  ghost predicate TierInv(t: Tier) {
    match t.cold
    case None => t.meta == {}
    case Some(c) => t.meta <= c.Keys
  }

  /** Every slot is stored under its own key, in either tier. */
  ghost predicate Keyed(t: Tier) {
    && (forall k :: k in t.hot ==> t.hot[k].key == k)
    && (t.cold.Some? ==> forall k :: k in t.cold.value ==> t.cold.value[k].key == k)
  }

  /** The single slot map that the two tiers stand for. */
  ghost function Flat(t: Tier): map<int, SlotData> {
    map k | k in t.hot.Keys + t.meta && Get(t, k).Some? :: Get(t, k).value
  }

  lemma FlatIsGet(t: Tier, key: int)
    ensures key in Flat(t) <==> Get(t, key).Some?
    ensures key in Flat(t) ==> Flat(t)[key] == Get(t, key).value
  {
  }

  // ---------------------------------------------------------------- refinement, command by command

  lemma PutHotIsUpdate(t: Tier, s: SlotData)
    requires TierInv(t)
    ensures TierInv(PutHot(t, s))
    ensures Flat(PutHot(t, s)) == Flat(t)[s.key := s]
  {
  }

  /** Deleting removes the slot from view even when the cold store keeps its copy. */
  lemma EraseIsRemoval(t: Tier, key: int, f: Faults)
    requires TierInv(t)
    ensures TierInv(Erase(t, key, f))
    ensures Flat(Erase(t, key, f)) == Flat(t) - {key}
  {
  }

  /** An archive that takes effect writes its value; it is invisible exactly
      when that is the value already visible. */
  lemma ArchiveIsUpdate(t: Tier, s: SlotData, f: Faults)
    requires TierInv(t)
    ensures var (t', r) := Archive(t, s, f);
      && TierInv(t')
      && Flat(t') == (if r == Nothing then Flat(t)[s.key := s] else Flat(t))
      && (r == Nothing ==> (Flat(t') == Flat(t) <==> s.key in Flat(t) && Flat(t)[s.key] == s))
  {
    var (t', r) := Archive(t, s, f);
    if r == Nothing {
      assert Flat(t') == Flat(t)[s.key := s];
      if s.key in Flat(t) && Flat(t)[s.key] == s {
        assert Flat(t)[s.key := s] == Flat(t);
      } else {
        assert s.key in Flat(t') && Flat(t')[s.key] == s;
      }
    }
  }

  /** A cold copy that bringing back `key` would make visible in place of
      something else: left behind by a failed delete, or older than a hot copy. */
  predicate Stale(t: Tier, key: int) {
    && t.cold.Some? && key in t.cold.value
    && (key in t.hot ==> t.hot[key] != t.cold.value[key])
    && (key !in t.hot ==> key !in t.meta)
  }

  /** Unarchiving is invisible exactly when the cold copy is not stale; in
      particular for every key that is cold and not also hot. */
  lemma UnarchiveInvisibleIff(t: Tier, key: int, f: Faults)
    requires TierInv(t)
    ensures var (t', r) := Unarchive(t, key, f);
      && TierInv(t')
      && (r != Nothing ==> t' == t)
      && (r == Nothing ==> (Flat(t') == Flat(t) <==> !Stale(t, key)))
    ensures key in t.meta && key !in t.hot ==> !Stale(t, key)
  {
    var (t', r) := Unarchive(t, key, f);
    if r == Nothing {
      if Stale(t, key) {
        assert key in Flat(t') && Flat(t')[key] == t.cold.value[key];
        FlatIsGet(t, key);
      } else {
        forall k ensures Get(t', k) == Get(t, k) {
        }
        SameGet(t, t');
      }
    }
  }

  /** Archiving what is visible and bringing it back: every slot reads as before,
      and this one is hot and nowhere else. */
  lemma ArchiveRoundTrip(t: Tier, key: int, s: SlotData)
    requires TierInv(t) && t.cold.Some? && Get(t, key) == Some(s) && s.key == key
    ensures var t1 := Archive(t, s, NO_FAULTS).0; var t2 := Unarchive(t1, key, NO_FAULTS).0;
      && Flat(t1) == Flat(t) == Flat(t2)
      && key !in t1.hot && key in t1.meta
      && t2 == Tier(t.hot[key := s], t.meta - {key}, Some(t.cold.value - {key}))
  {
    FlatIsGet(t, key);
    ArchiveIsUpdate(t, s, NO_FAULTS);
    var t1 := Archive(t, s, NO_FAULTS).0;
    UnarchiveInvisibleIff(t1, key, NO_FAULTS);
    var t2 := Unarchive(t1, key, NO_FAULTS).0;
    assert t2.hot == t.hot[key := s] && t2.meta == t.meta - {key};
    assert t2.cold.value == t.cold.value - {key};
  }

  lemma SameGet(t: Tier, t': Tier)
    requires forall k :: Get(t', k) == Get(t, k)
    ensures Flat(t') == Flat(t)
  {
    forall k ensures k in Flat(t') <==> k in Flat(t) {
      FlatIsGet(t, k);
      FlatIsGet(t', k);
    }
  }
}
