/**
 Restoring a snapshot and replaying the log after it.  The cold store is a file
 outside the log: after a crash it already holds the effects of part of the
 commands that are replayed.
 */
module FsmReplay {
  import opened Types
  import opened SlotTier
  import opened FsmSpec

  type Cold = map<int, SlotData>

  /** Snapshot at any index, restore over the cold store of that moment, apply
      the rest: the same as applying the whole log. */
  lemma SnapshotThenRest(s: State, log: seq<Entry>, i: nat)
    requires i <= |log|
    ensures var mid := Run(s, log[..i]);
      Run(Restored(Capture(mid), mid.tier.cold), log[i..]) == Run(s, log)
  {
    RunAppend(s, log[..i], log[i..]);
    assert log == log[..i] + log[i..];
  }

  // ---------------------------------------------------------------- which commands write the cold store

  function WithCold(s: State, c: Cold): State {
    s.(tier := s.tier.(cold := Some(c)))
  }

  /** The cold key whose content a command settles on its own, without reading it. */
  function Settles(c: Command): set<int> {
    match c
    case ArchiveSlot(Some(sl)) => {sl.key}
    case DeleteSlot(SlotId(k)) => {k}
    case _ => {}
  }

  function Reads(c: Command): set<int> {
    match c
    case UnarchiveSlot(SlotId(k)) => {k}
    case _ => {}
  }

  function Touched(log: seq<Entry>): set<int> {
    if log == [] then {} else Settles(log[0].command) + Reads(log[0].command) + Touched(log[1..])
  }

  /** Every cold key the log reads was settled earlier in the log, or is in `known`. */
  predicate Guarded(log: seq<Entry>, known: set<int>)
    decreases |log|
  {
    || log == []
    || (Reads(log[0].command) <= known && Guarded(log[1..], known + Settles(log[0].command)))
  }

  predicate Faultless(log: seq<Entry>) {
    forall i :: 0 <= i < |log| ==> log[i].faults == NO_FAULTS
  }

  lemma FaultlessTail(log: seq<Entry>)
    requires Faultless(log) && log != []
    ensures log[0].faults == NO_FAULTS && Faultless(log[1..])
  {
    forall i | 0 <= i < |log[1..]| ensures log[1..][i].faults == NO_FAULTS {
      assert log[1..][i] == log[i + 1];
    }
  }

  ghost predicate Same(c0: Cold, c1: Cold, k: int) {
    (k in c0 <==> k in c1) && (k in c0 ==> c0[k] == c1[k])
  }

  lemma SameEverywhere(c0: Cold, c1: Cold)
    requires forall k :: Same(c0, c1, k)
    ensures c0 == c1
  {
    forall k ensures k in c0 <==> k in c1 {
      assert Same(c0, c1, k);
    }
    forall k | k in c0 ensures c0[k] == c1[k] {
      assert Same(c0, c1, k);
    }
  }

  function ColdOf(s: State): Cold
    requires s.tier.cold.Some?
  {
    s.tier.cold.value
  }

  /** Two tiers that differ only in their cold stores, which agree at `keys`
      and wherever `c0` and `c1` do. */
  ghost predicate Settled(t0: Tier, t1: Tier, c0: Cold, c1: Cold, keys: set<int>) {
    && t0.cold.Some? && t1 == t0.(cold := t1.cold) && t1.cold.Some?
    && forall k :: Same(t0.cold.value, t1.cold.value, k) <==> Same(c0, c1, k) || k in keys
  }

  lemma ArchiveOverColds(t: Tier, c0: Cold, c1: Cold, sl: SlotData)
    ensures Settled(Archive(t.(cold := Some(c0)), sl, NO_FAULTS).0, Archive(t.(cold := Some(c1)), sl, NO_FAULTS).0, c0, c1, {sl.key})
  {
  }

  lemma EraseOverColds(t: Tier, c0: Cold, c1: Cold, key: int)
    ensures Settled(Erase(t.(cold := Some(c0)), key, NO_FAULTS), Erase(t.(cold := Some(c1)), key, NO_FAULTS), c0, c1, {key})
  {
  }

  lemma UnarchiveOverColds(t: Tier, c0: Cold, c1: Cold, key: int)
    requires Same(c0, c1, key)
    ensures Settled(Unarchive(t.(cold := Some(c0)), key, NO_FAULTS).0, Unarchive(t.(cold := Some(c1)), key, NO_FAULTS).0, c0, c1, {})
  {
  }

  lemma SlotOverColds(t: Tier, c0: Cold, c1: Cold, c: Command)
    requires IsSlotCommand(c)
    requires forall k :: k in Reads(c) ==> Same(c0, c1, k)
    ensures Settled(ApplySlot(t.(cold := Some(c0)), c, NO_FAULTS).0, ApplySlot(t.(cold := Some(c1)), c, NO_FAULTS).0, c0, c1, Settles(c))
  {
    hide Archive, Unarchive, Erase;
    match c
    case DeleteSlot(SlotId(k)) => EraseOverColds(t, c0, c1, k);
    case ArchiveSlot(Some(sl)) => ArchiveOverColds(t, c0, c1, sl);
    case UnarchiveSlot(SlotId(k)) =>
      assert k in Reads(c);
      UnarchiveOverColds(t, c0, c1, k);
    case _ =>
  }

  /** What one command leaves behind depends on the cold store only at the key it reads. */
  lemma StepOverColds(s: State, c0: Cold, c1: Cold, e: Entry)
    requires e.faults == NO_FAULTS
    requires forall k :: k in Reads(e.command) ==> Same(c0, c1, k)
    ensures var s0, s1 := Step(WithCold(s, c0), e), Step(WithCold(s, c1), e);
      && Settled(s0.tier, s1.tier, c0, c1, Settles(e.command))
      && s1 == WithCold(s0, ColdOf(s1))
  {
    if IsSlotCommand(e.command) {
      hide ApplySlot, Settles, Reads;
      SlotOverColds(s.tier, c0, c1, e.command);
    } else {
      hide ApplyJob, ApplyStatus;
      var s0, s1 := Step(WithCold(s, c0), e), Step(WithCold(s, c1), e);
      OtherOverColds(s, c0, e.command);
      OtherOverColds(s, c1, e.command);
    }
  }

  lemma OtherOverColds(s: State, c0: Cold, c: Command)
    requires !IsSlotCommand(c)
    ensures Apply(WithCold(s, c0), c, NO_FAULTS).0 == WithCold(Apply(s, c, NO_FAULTS).0, c0)
    ensures Settles(c) == {} && Reads(c) == {}
  {
  }

  /** Two cold stores that agree wherever the log has not settled a key lead to the same state. */
  lemma {:induction false} ReplayOverColds(s: State, c0: Cold, c1: Cold, log: seq<Entry>, known: set<int>)
    requires Faultless(log) && Guarded(log, known)
    requires forall k :: k in known || k !in Touched(log) ==> Same(c0, c1, k)
    ensures Run(WithCold(s, c0), log) == Run(WithCold(s, c1), log)
    decreases |log|
  {
    if log == [] {
      SameEverywhere(c0, c1);
    } else {
      FaultlessTail(log);
      StepOverColds(s, c0, c1, log[0]);
      var s0, s1 := Step(WithCold(s, c0), log[0]), Step(WithCold(s, c1), log[0]);
      assert s0 == WithCold(s0, ColdOf(s0));
      ReplayOverColds(s0, ColdOf(s0), ColdOf(s1), log[1..], known + Settles(log[0].command));
    }
  }

  lemma {:induction false} ColdStays(s: State, log: seq<Entry>)
    requires s.tier.cold.Some?
    ensures Run(s, log).tier.cold.Some?
    decreases |log|
  {
    if log != [] {
      ColdStays(Step(s, log[0]), log[1..]);
    }
  }

  /** A run changes the cold store only at the keys it touches. */
  lemma {:induction false} ColdFrame(s: State, log: seq<Entry>, k: int)
    requires s.tier.cold.Some? && k !in Touched(log)
    ensures Run(s, log).tier.cold.Some? && Same(ColdOf(s), ColdOf(Run(s, log)), k)
    decreases |log|
  {
    if log != [] {
      ColdFrame(Step(s, log[0]), log[1..], k);
    }
  }

  lemma {:induction false} TouchedPrefix(log: seq<Entry>, p: nat)
    requires p <= |log|
    ensures Touched(log[..p]) <= Touched(log)
  {
    if p > 0 {
      assert log[..p][1..] == log[1..][..p - 1];
      TouchedPrefix(log[1..], p - 1);
    }
  }

  // ---------------------------------------------------------------- crashes

  /** The state found after a crash: the snapshot `s`, over the cold store as
      `p` commands of the log left it. */
  function Crashed(s: State, at: State, log: seq<Entry>, p: nat): State
    requires p <= |log|
  {
    s.(tier := s.tier.(cold := Run(at, log[..p]).tier.cold))
  }

  /** The state found after a series of crashes, each in the middle of replaying the same log. */
  function CrashedRepeatedly(s: State, log: seq<Entry>, ps: seq<nat>): State
    requires forall i :: 0 <= i < |ps| ==> ps[i] <= |log|
  {
    if ps == [] then s
    else Crashed(s, CrashedRepeatedly(s, log, ps[..|ps| - 1]), log, ps[|ps| - 1])
  }

  lemma {:induction false} CrashShape(s: State, log: seq<Entry>, ps: seq<nat>)
    requires s.tier.cold.Some?
    requires forall i :: 0 <= i < |ps| ==> ps[i] <= |log|
    ensures var at := CrashedRepeatedly(s, log, ps);
      at.tier.cold.Some? && at == WithCold(s, ColdOf(at))
    decreases |ps|
  {
    if ps != [] {
      CrashShape(s, log, ps[..|ps| - 1]);
      ColdStays(CrashedRepeatedly(s, log, ps[..|ps| - 1]), log[..ps[|ps| - 1]]);
    }
  }

  lemma {:induction false} CrashKeepsUntouched(s: State, log: seq<Entry>, ps: seq<nat>, k: int)
    requires s.tier.cold.Some? && k !in Touched(log)
    requires forall i :: 0 <= i < |ps| ==> ps[i] <= |log|
    ensures var at := CrashedRepeatedly(s, log, ps);
      at.tier.cold.Some? && Same(ColdOf(s), ColdOf(at), k)
    decreases |ps|
  {
    if ps != [] {
      var at, p := CrashedRepeatedly(s, log, ps[..|ps| - 1]), ps[|ps| - 1];
      CrashKeepsUntouched(s, log, ps[..|ps| - 1], k);
      TouchedPrefix(log, p);
      ColdFrame(at, log[..p], k);
    }
  }

  /** Crash-replay idempotence: over a log whose cold reads are guarded, replay
      after any number of crashes, at any points, ends where the undisturbed
      run ends. */
  lemma CrashReplay(s: State, log: seq<Entry>, ps: seq<nat>)
    requires s.tier.cold.Some?
    requires Faultless(log) && Guarded(log, {})
    requires forall i :: 0 <= i < |ps| ==> ps[i] <= |log|
    ensures Run(CrashedRepeatedly(s, log, ps), log) == Run(s, log)
  {
    var at := CrashedRepeatedly(s, log, ps);
    CrashShape(s, log, ps);
    forall k | k !in Touched(log) ensures Same(ColdOf(s), ColdOf(at), k) {
      CrashKeepsUntouched(s, log, ps, k);
    }
    assert s == WithCold(s, ColdOf(s));
    ReplayOverColds(s, ColdOf(s), ColdOf(at), log, {});
  }

  /** A log that unarchives nothing is guarded. */
  lemma {:induction false} NoUnarchiveIsGuarded(log: seq<Entry>, known: set<int>)
    requires forall i :: 0 <= i < |log| ==> !log[i].command.UnarchiveSlot?
    ensures Guarded(log, known)
    decreases |log|
  {
    if log != [] {
      assert forall i :: 0 <= i < |log[1..]| ==> log[1..][i] == log[i + 1];
      NoUnarchiveIsGuarded(log[1..], known + Settles(log[0].command));
    }
  }

  // ---------------------------------------------------------------- the guard is needed

  /** Under a guard, everything but the cold store is the same over any two
      cold stores that agree on the known keys. */
  lemma {:induction false} CoreOverColds(s: State, c0: Cold, c1: Cold, log: seq<Entry>, known: set<int>)
    requires Faultless(log) && Guarded(log, known)
    requires forall k :: k in known ==> Same(c0, c1, k)
    ensures var s0, s1 := Run(WithCold(s, c0), log), Run(WithCold(s, c1), log);
      s0.tier.cold.Some? && s1.tier.cold.Some? && s1 == WithCold(s0, ColdOf(s1))
    decreases |log|
  {
    if log != [] {
      FaultlessTail(log);
      StepOverColds(s, c0, c1, log[0]);
      var s0, s1 := Step(WithCold(s, c0), log[0]), Step(WithCold(s, c1), log[0]);
      assert s0 == WithCold(s0, ColdOf(s0));
      CoreOverColds(s0, ColdOf(s0), ColdOf(s1), log[1..], known + Settles(log[0].command));
    }
  }

  lemma {:induction false} FirstUnguarded(log: seq<Entry>, known: set<int>) returns (i: nat, k: int)
    requires !Guarded(log, known)
    ensures i < |log| && Guarded(log[..i], known)
    ensures log[i].command == UnarchiveSlot(SlotId(k)) && k !in known && k !in Touched(log[..i])
    decreases |log|
  {
    if Reads(log[0].command) <= known {
      var i', k' := FirstUnguarded(log[1..], known + Settles(log[0].command));
      i, k := i' + 1, k';
      assert log[..i][0] == log[0] && log[..i][1..] == log[1..][..i'];
    } else {
      i, k := 0, log[0].command.slotId.key;
    }
  }

  function ReplayDiverges(s: State, log: seq<Entry>, p: nat): bool
    requires p <= |log|
  {
    Run(Crashed(s, s, log, p), log) != Run(s, log)
  }

  /** Where a log reads a cold key it has not settled, the log up to that read
      is not safe to replay: some snapshot and crash point end elsewhere. */
  lemma UnguardedReplayDiverges(log: seq<Entry>) returns (s: State, q: nat, p: nat)
    requires Faultless(log) && !Guarded(log, {})
    ensures p <= q <= |log| && s.tier.cold.Some? && TierInv(s.tier)
    ensures ReplayDiverges(s, log[..q], p)
  {
    var i, k := FirstUnguarded(log, {});
    var before := log[..i];
    var bare := Initial(None).(tier := Tier(map[], {k}, None));
    var hot := Run(WithCold(bare, map[]), before).tier.hot;
    var v := SlotData(k, 0, if k in hot && hot[k] == SlotData(k, 0, 0, []) then 1 else 0, []);
    s, q, p := WithCold(bare, map[k := v]), i + 1, i + 1;
    assert log[..q] == before + [log[i]] && log[..q][..p] == log[..q];
    assert Faultless(before);
    ReadOver(bare, map[k := v], before, log[i], k);
    var after := ColdOf(Run(s, log[..q]));
    ReadOver(bare, after, before, log[i], k);
    assert Crashed(s, s, log[..q], p) == WithCold(bare, after);
  }

  /** What the unguarded read makes of the cold store it starts from. */
  lemma ReadOver(bare: State, c: Cold, before: seq<Entry>, read: Entry, k: int)
    requires Faultless(before) && Guarded(before, {}) && k !in Touched(before)
    requires read == Entry(UnarchiveSlot(SlotId(k)), NO_FAULTS)
    ensures var hot, s := Run(WithCold(bare, map[]), before).tier.hot, Run(WithCold(bare, c), before + [read]);
      && s.tier.cold.Some? && k !in ColdOf(s)
      && s.tier.hot == (if k in c then hot[k := c[k]] else hot)
  {
    CoreOverColds(bare, map[], c, before, {});
    ColdFrame(WithCold(bare, c), before, k);
    RunSnoc(WithCold(bare, c), before, read);
  }

  lemma {:induction false} GuardedPrefix(log: seq<Entry>, known: set<int>, q: nat)
    requires Guarded(log, known) && q <= |log|
    ensures Guarded(log[..q], known)
    decreases |log|
  {
    if q > 0 {
      assert log[..q][1..] == log[1..][..q - 1];
      GuardedPrefix(log[1..], known + Settles(log[0].command), q - 1);
    }
  }

  /** Every prefix of a log survives a crash at every point, over every snapshot,
      precisely when the log is guarded. */
  lemma ReplaySafeIff(log: seq<Entry>)
    requires Faultless(log)
    ensures Guarded(log, {}) <==>
      forall s: State, q: nat, p: nat :: p <= q <= |log| && s.tier.cold.Some? ==> !ReplayDiverges(s, log[..q], p)
  {
    if Guarded(log, {}) {
      forall s: State, q: nat, p: nat | p <= q <= |log| && s.tier.cold.Some?
        ensures !ReplayDiverges(s, log[..q], p)
      {
        GuardedPrefix(log, {}, q);
        assert Faultless(log[..q]);
        CrashReplay(s, log[..q], [p]);
        assert [p][..0] == [];
      }
    } else {
      var s, q, p := UnguardedReplayDiverges(log);
    }
  }
}
