/**
 What every command log keeps: well-formed execution states, absorbing final
 statuses, counted attempts, a two-tier slot store that reads as one map, and
 clamped counters with a closed form.
 */
module FsmInvariants {
  import opened Types
  import opened SlotTier
  import opened FsmSpec

  // ---------------------------------------------------------------- state invariant

  ghost predicate ExecInv(id: string, e: ExecState) {
    && e.jobId == id
    && !e.status.OtherStatus?
    && 0 <= e.attemptCount
    && (e.executingNodeId != "" ==> e.status == InProgress)
    && (e.cancelledAt != 0 ==> e.status == Cancelled)
    && (e.status in {InProgress, Completed, Failed, Timeout} ==> 1 <= e.attemptCount)
  }

  ghost predicate StateInv(s: State) {
    && s.jobs.Keys <= s.exec.Keys
    && TableInv(s.exec)
    && TierInv(s.tier)
    && 0 <= s.memoryUsage && 0 <= s.jobCount
  }

  lemma SlotKeepsInv(t: Tier, c: Command, f: Faults)
    requires TierInv(t) && IsSlotCommand(c)
    ensures TierInv(ApplySlot(t, c, f).0)
  {
    match c
    case CreateSlot(Some(sl)) => PutHotIsUpdate(t, sl);
    case DeleteSlot(SlotId(k)) => EraseIsRemoval(t, k, f);
    case ArchiveSlot(Some(sl)) => ArchiveIsUpdate(t, sl, f);
    case UnarchiveSlot(SlotId(k)) => UnarchiveInvisibleIff(t, k, f);
    case _ =>
  }

  ghost predicate TableInv(exec: map<string, ExecState>) {
    forall id :: id in exec ==> ExecInv(id, exec[id])
  }

  lemma TransitionKeepsInv(id: string, e: ExecState, c: StatusCommand)
    requires ExecInv(id, e) && Validate(e.status, c.status) == Nothing
    ensures ExecInv(id, Transition(e, c))
  {
  }

  lemma StatusKeepsInv(exec: map<string, ExecState>, c: Command)
    requires TableInv(exec) && IsStatusCommand(c)
    ensures TableInv(ApplyStatus(exec, c).0) && exec.Keys <= ApplyStatus(exec, c).0.Keys
  {
    match c
    case UpdateJobStatus(Some(sc)) =>
      var e := StateFor(exec, sc);
      assert ExecInv(sc.jobId, e);
      if Validate(e.status, sc.status) == Nothing {
        TransitionKeepsInv(sc.jobId, e, sc);
      }
    case _ =>
  }

  lemma StepKeepsInv(s: State, e: Entry)
    requires StateInv(s)
    ensures StateInv(Step(s, e))
  {
    hide ApplySlot, ApplyStatus, TierInv, ExecInv;
    if e.command.CreateJob? || e.command.DeleteJob? {
      JobKeepsInv(s, e.command);
    } else if IsSlotCommand(e.command) {
      SlotKeepsInv(s.tier, e.command, e.faults);
    } else if IsStatusCommand(e.command) {
      StatusKeepsInv(s.exec, e.command);
    }
  }

  lemma JobKeepsInv(s: State, c: Command)
    requires StateInv(s) && (c.CreateJob? || c.DeleteJob?)
    ensures StateInv(ApplyJob(s, c).0)
  {
    hide TierInv;
  }

  /** The invariant holds after every log. */
  lemma {:induction false} EveryLogKeepsInv(s: State, log: seq<Entry>)
    requires StateInv(s)
    ensures StateInv(Run(s, log))
    decreases |log|
  {
    if log != [] {
      StepKeepsInv(s, log[0]);
      EveryLogKeepsInv(Step(s, log[0]), log[1..]);
    }
  }

  /** After every log, whatever cold-store operations fail, each slot is stored under its own key. */
  lemma {:induction false} EveryLogKeepsKeys(s: State, log: seq<Entry>)
    requires Keyed(s.tier)
    ensures Keyed(Run(s, log).tier)
    decreases |log|
  {
    if log != [] {
      assert Keyed(Step(s, log[0]).tier);
      EveryLogKeepsKeys(Step(s, log[0]), log[1..]);
    }
  }

  // ---------------------------------------------------------------- one job's status

  /** The command starts a new life for the job, or ends its present one. */
  predicate Resets(c: Command, id: string) {
    || (c.CreateJob? && c.job.Some? && c.job.value.id == id)
    || (c == DeleteJob(id) && id != "")
  }

  predicate IsStart(c: Command, id: string) {
    c.UpdateJobStatus? && c.status.Some? && c.status.value.jobId == id && c.status.value.status == InProgress
  }

  predicate Untouched(log: seq<Entry>, id: string) {
    forall i :: 0 <= i < |log| ==> !Resets(log[i].command, id)
  }

  /** Every status change follows the transition table. */
  lemma StatusFollowsTable(s: State, e: Entry, id: string)
    requires id in s.exec && !Resets(e.command, id)
    ensures var s' := Step(s, e);
      && id in s'.exec
      && (s'.exec[id].status == s.exec[id].status || s'.exec[id].status in Allowed(s.exec[id].status))
      && (s'.exec[id].status == s.exec[id].status ==>
            s'.exec[id] == s.exec[id].(attempts := s'.exec[id].attempts))
  {
  }

  /** Completed and cancelled absorb everything but recorded attempts, for as
      long as the job is neither created again nor deleted. */
  lemma {:induction false} FinalStatusAbsorbs(s: State, log: seq<Entry>, id: string)
    requires id in s.exec && s.exec[id].status in {Completed, Cancelled}
    requires Untouched(log, id)
    ensures var s' := Run(s, log);
      id in s'.exec && s'.exec[id] == s.exec[id].(attempts := s'.exec[id].attempts)
    decreases |log|
  {
    if log != [] {
      var s1 := Step(s, log[0]);
      assert !Resets(log[0].command, id);
      StatusFollowsTable(s, log[0], id);
      assert Untouched(log[1..], id) by {
        forall i | 0 <= i < |log[1..]| ensures !Resets(log[1..][i].command, id) {
          assert log[1..][i] == log[i + 1];
        }
      }
      FinalStatusAbsorbs(s1, log[1..], id);
    }
  }

  /** Accepted starts of the job's present life. */
  ghost function Starts(s: State, log: seq<Entry>, id: string): nat
    decreases |log|
  {
    if log == [] then 0
    else
      var before, last := log[..|log| - 1], log[|log| - 1].command;
      if Resets(last, id) then 0
      else if IsStart(last, id) && Apply(Run(s, before), last, log[|log| - 1].faults).1 == Nothing then Starts(s, before, id) + 1
      else Starts(s, before, id)
  }

  lemma {:induction false} AttemptsAreStarts(cold: Option<map<int, SlotData>>, log: seq<Entry>, id: string)
    ensures var s := Run(Initial(cold), log);
      if id in s.exec then s.exec[id].attemptCount == Starts(Initial(cold), log, id)
      else Starts(Initial(cold), log, id) == 0
    decreases |log|
  {
    if log != [] {
      var before, last := log[..|log| - 1], log[|log| - 1];
      AttemptsAreStarts(cold, before, id);
      assert log == before + [last];
      RunSnoc(Initial(cold), before, last);
      StartsStep(Run(Initial(cold), before), last, id);
    }
  }

  lemma StartsStep(s: State, e: Entry, id: string)
    ensures var s', was := Step(s, e), if id in s.exec then s.exec[id].attemptCount else 0;
      var accepted := IsStart(e.command, id) && Apply(s, e.command, e.faults).1 == Nothing;
      (if id in s'.exec then s'.exec[id].attemptCount else 0)
        == (if Resets(e.command, id) then 0 else if accepted then was + 1 else was)
  {
  }

  /** A rejected status update alters no state; at most it leaves a pending
      entry for a job that had none. */
  lemma RejectedUpdateIsHarmless(exec: map<string, ExecState>, c: StatusCommand)
    requires StatusUpdate(exec, c).1 != Nothing
    ensures var exec' := StatusUpdate(exec, c).0;
      if c.jobId in exec then exec' == exec
      else exec' == exec[c.jobId := PendingState(c.jobId, c.timestamp)] && exec' - {c.jobId} == exec
  {
    var exec' := StatusUpdate(exec, c).0;
    if c.jobId !in exec {
      assert (exec' - {c.jobId}).Keys == exec.Keys;
    }
  }

  // ---------------------------------------------------------------- the slot store as one map

  /** The reference model of one command on a plain slot map. */
  ghost function FlatStep(m: map<int, SlotData>, c: Command, accepted: bool): map<int, SlotData> {
    match c
    case CreateSlot(Some(sl)) => m[sl.key := sl]
    case DeleteSlot(SlotId(k)) => m - {k}
    case ArchiveSlot(Some(sl)) => if accepted then m[sl.key := sl] else m
    case _ => m
  }

  ghost predicate NoStaleRead(s: State, e: Entry) {
    e.command.UnarchiveSlot? && e.command.slotId.SlotId? && !e.faults.get ==> !Stale(s.tier, e.command.slotId.key)
  }

  ghost predicate NoStaleReads(s: State, log: seq<Entry>)
    decreases |log|
  {
    log == [] || (NoStaleRead(s, log[0]) && NoStaleReads(Step(s, log[0]), log[1..]))
  }

  ghost function FlatRun(s: State, m: map<int, SlotData>, log: seq<Entry>): map<int, SlotData>
    decreases |log|
  {
    if log == [] then m
    else
      var accepted := Apply(s, log[0].command, log[0].faults).1 == Nothing;
      FlatRun(Step(s, log[0]), FlatStep(m, log[0].command, accepted), log[1..])
  }

  lemma FlatStepRefined(s: State, e: Entry)
    requires TierInv(s.tier) && NoStaleRead(s, e)
    ensures TierInv(Step(s, e).tier)
    ensures Flat(Step(s, e).tier) == FlatStep(Flat(s.tier), e.command, Apply(s, e.command, e.faults).1 == Nothing)
  {
    var t, f := s.tier, e.faults;
    match e.command
    case CreateSlot(Some(sl)) => PutHotIsUpdate(t, sl);
    case DeleteSlot(SlotId(k)) => EraseIsRemoval(t, k, f);
    case ArchiveSlot(Some(sl)) => ArchiveIsUpdate(t, sl, f);
    case UnarchiveSlot(SlotId(k)) => UnarchiveInvisibleIff(t, k, f);
    case _ =>
  }

  /** Over every log that unarchives no stale copy, whatever cold-store
      operations fail, the two tiers read as one plain map. */
  lemma {:induction false} TiersRefineOneMap(s: State, log: seq<Entry>)
    requires TierInv(s.tier) && NoStaleReads(s, log)
    ensures TierInv(Run(s, log).tier)
    ensures Flat(Run(s, log).tier) == FlatRun(s, Flat(s.tier), log)
    decreases |log|
  {
    if log != [] {
      FlatStepRefined(s, log[0]);
      TiersRefineOneMap(Step(s, log[0]), log[1..]);
    }
  }

  /** A log that brings a deleted slot back: the cold store failed to delete its
      copy, and the slot is then unarchived. */
  lemma StaleLog(sl: SlotData) returns (log: seq<Entry>)
    ensures |log| == 4 && log[3].command == UnarchiveSlot(SlotId(sl.key))
    ensures var s := Initial(Some(map[]));
      && Flat(Run(s, log[..3]).tier) == map[] && Stale(Run(s, log[..3]).tier, sl.key)
      && Flat(Run(s, log).tier) == map[sl.key := sl]
  {
    var s := Initial(Some(map[]));
    var e1, e2 := Entry(CreateSlot(Some(sl)), NO_FAULTS), Entry(ArchiveSlot(Some(sl)), NO_FAULTS);
    var e3, e4 := Entry(DeleteSlot(SlotId(sl.key)), Faults(false, false, true)), Entry(UnarchiveSlot(SlotId(sl.key)), NO_FAULTS);
    log := [e1, e2, e3, e4];
    var t3, t4 := Tier(map[], {}, Some(map[sl.key := sl])), Tier(map[sl.key := sl], {}, Some(map[]));
    assert Step(Step(Step(s, e1), e2), e3).tier == t3;
    assert Step(Step(Step(Step(s, e1), e2), e3), e4).tier == t4;
    RunSnoc(s, [], e1);
    RunSnoc(s, [e1], e2);
    RunSnoc(s, [e1, e2], e3);
    RunSnoc(s, [e1, e2, e3], e4);
    assert [] + [e1] == [e1] && [e1] + [e2] == [e1, e2] && [e1, e2] + [e3] == [e1, e2, e3] == log[..3];
    assert [e1, e2, e3] + [e4] == log;
    FlatIsGet(t4, sl.key);
    assert Flat(t3) == map[] && Flat(t4) == map[sl.key := sl];
  }

  // ---------------------------------------------------------------- clamped counters

  function Fold(start: int, deltas: seq<int>): int {
    if deltas == [] then start else Clamp(Fold(start, deltas[..|deltas| - 1]), deltas[|deltas| - 1])
  }

  function Sum(deltas: seq<int>): int {
    if deltas == [] then 0 else Sum(deltas[..|deltas| - 1]) + deltas[|deltas| - 1]
  }

  /** The smallest prefix sum, counting the empty prefix. */
  function LowWater(deltas: seq<int>): int {
    if deltas == [] then 0
    else
      var low, all := LowWater(deltas[..|deltas| - 1]), Sum(deltas);
      if all < low then all else low
  }

  lemma {:induction false} LowWaterIsMin(deltas: seq<int>)
    ensures exists i :: 0 <= i <= |deltas| && Sum(deltas[..i]) == LowWater(deltas)
    ensures forall i :: 0 <= i <= |deltas| ==> LowWater(deltas) <= Sum(deltas[..i])
  {
    assert deltas[..|deltas|] == deltas;
    if deltas == [] {
      assert Sum(deltas[..0]) == LowWater(deltas);
    } else {
      var before := deltas[..|deltas| - 1];
      LowWaterIsMin(before);
      forall i | 0 <= i < |deltas| ensures deltas[..i] == before[..i] {
      }
      var j :| 0 <= j <= |before| && Sum(before[..j]) == LowWater(before);
      assert Sum(deltas[..j]) == LowWater(before);
      assert Sum(deltas[..|deltas|]) == Sum(deltas);
    }
  }

  /** The clamped counter in closed form: the plain sum raised by the deepest
      debt any prefix ran into. */
  lemma {:induction false} ClampedCounterClosedForm(deltas: seq<int>)
    ensures Fold(0, deltas) == Sum(deltas) - LowWater(deltas)
    ensures 0 <= Fold(0, deltas)
    ensures (forall i :: 0 <= i <= |deltas| ==> 0 <= Sum(deltas[..i])) ==> Fold(0, deltas) == Sum(deltas)
  {
    LowWaterIsMin(deltas);
    assert Sum(deltas[..0]) == 0;
    if deltas != [] {
      ClampedCounterClosedForm(deltas[..|deltas| - 1]);
    }
  }

  function MemoryDelta(c: Command): seq<int> {
    if c.UpdateMemoryUsage? then [c.delta] else []
  }

  function MemoryDeltas(log: seq<Entry>): seq<int> {
    if log == [] then [] else MemoryDeltas(log[..|log| - 1]) + MemoryDelta(log[|log| - 1].command)
  }

  function CountDelta(c: Command): seq<int> {
    if c.UpdateJobCount? then [c.delta] else []
  }

  function CountDeltas(log: seq<Entry>): seq<int> {
    if log == [] then [] else CountDeltas(log[..|log| - 1]) + CountDelta(log[|log| - 1].command)
  }

  /** Both counters of the state machine are such folds, over every log. */
  lemma {:induction false} CountersAreFolds(cold: Option<map<int, SlotData>>, log: seq<Entry>)
    ensures var s := Run(Initial(cold), log);
      && s.memoryUsage == Fold(0, MemoryDeltas(log))
      && s.jobCount == Fold(0, CountDeltas(log))
    decreases |log|
  {
    if log != [] {
      var before, last := log[..|log| - 1], log[|log| - 1];
      hide Step, Fold;
      CountersAreFolds(cold, before);
      assert log == before + [last];
      RunSnoc(Initial(cold), before, last);
      CounterStep(Run(Initial(cold), before), last);
      FoldSnoc(MemoryDeltas(before), MemoryDelta(last.command));
      FoldSnoc(CountDeltas(before), CountDelta(last.command));
    }
  }

  lemma CounterStep(s: State, e: Entry)
    ensures var s', m, n := Step(s, e), MemoryDelta(e.command), CountDelta(e.command);
      && s'.memoryUsage == (if m == [] then s.memoryUsage else Clamp(s.memoryUsage, m[0]))
      && s'.jobCount == (if n == [] then s.jobCount else Clamp(s.jobCount, n[0]))
  {
  }

  lemma FoldSnoc(deltas: seq<int>, more: seq<int>)
    requires |more| <= 1
    ensures Fold(0, deltas + more) == if more == [] then Fold(0, deltas) else Clamp(Fold(0, deltas), more[0])
  {
    if more == [] {
      assert deltas + more == deltas;
    } else {
      assert (deltas + more)[..|deltas|] == deltas;
    }
  }
}
