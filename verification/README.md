# A verified model of scheduled-db

scheduled-db is a replicated job scheduler. Jobs are filed in time slots, a
hierarchical timing wheel says which slots have come due, a Raft-replicated
state machine keeps jobs, slots, execution states and two usage counters, and a
worker calls each job's webhook through a small status protocol. Old slots are
archived to a cold store on disk, and admission control keeps usage under
limits.

This project models the parts of it with the most state and arithmetic, and
proves what they promise for every input, every command log and every
interleaving. `dafny verify dfyconfig.toml` checks all of it.

## How it is laid out

**Timing wheel.** `WheelLevels`, `WheelGeometry`, `WheelIndex`, `WheelSpec` and
`WheelSteps` are about wheels as values. Each level is seen as a window onto an
endless row of numbered ticks: tick `m` uses bucket `m % n` and is cascaded when
`(m + 1) * g` seconds have passed since `Init`. A copy of a key is *prompt* when
that cascade can still pass it down, and *late* when the cascade will park it in
overflow; this split is what makes the effect of `Advance` exact for jumps of
any length. `WheelScan` covers building, scanning and counting, and
`TimingWheel` is the class that the source updates in place, each method proved
against a relation between the wheel before and after. `WheelTheorems` draws the
consequences, `WheelRuns` takes whole runs against a plain set of keys, and
`WheelWitnesses` has runs in which the wheel falls short of it.

**State machine.** `Types`, `SlotTier`, `FsmSpec` and `Pruning` give the commands and their
meaning on values; `Fsm` is the machine in memory, with execution states as
objects that are changed in place and copied by getters and snapshots.
`FsmInvariants` and `FsmHistory` are about every command log, the latter about
what each field of the state records of it; `FsmReplay` is about snapshots, crashes
and replay over a cold store that is already ahead. `StatusTracker` has the two
sweeps that read all states once and then commit a command per job, while other
commands commit in between.

**Protocols.** `Execution` interleaves the steps of one worker with cancels,
timeout sweeps, a pruning goroutine, deletion and re-creation; a *life* of a job lasts from
one creation or deletion to the next. `ExecutionTrace` reads off a run which step
follows which and what a returned call leads to. `Admission` interleaves
concurrent requests between check and record, and `AdmissionLedger` accounts for
every unit they charge.

**Slot queue and evictor.** `SlotIndex` and `EvictionPass` are about the
job-to-slot index and one pass of the evictor on values, with slots that may be
both hot and cold and cold-store operations that may fail. `IndexRuns` takes runs
that mix queue operations and passes, `IndexWitnesses` has runs in which index and
slots part ways. `SlotQueue` and `Eviction` are the classes that update index,
store and wheel; the store commits to the state machine of `Fsm` and drops its
answers.

## Where the code falls short of what one might expect

Each of these is proved, with a run or an input that shows it and, where the
expected property can be had, the exact condition under which it holds.

- A jump of more than one turn of level 0 may leave an overdue key behind:
  `LongJumpMisses` shows it for every wheel, `LongJumpRun` from a new one,
  `AdvanceExactIff` says when a jump is exact, and `OverdueIsNext` that the next
  one makes up for it.
- Adding a key again after the base has moved can leave a second copy, and
  `Remove` then erases only the indexed one (`SecondCopyRun`; `AddUniqueIff`,
  `SecondCopyIff` and `RemoveRefinesIff` say exactly when).
- `PeekMin` looks at one bucket per level and can miss the minimum
  (`PeekMinMissesRun`; `PeekMinExactIff` says exactly when it does not).
- Unarchiving can bring a stale copy back into view, when a cold-store delete
  had failed or a newer hot copy exists (`StaleLog`; `UnarchiveInvisibleIff`).
- A log that unarchives a slot it did not archive or delete itself cannot be
  replayed safely after a crash (`UnguardedReplayDiverges`; `ReplaySafeIff`).
- A life of a job can see one call more than the limit, when the job is created
  again between a mark and its call (`OneCallTooMany`; `ExtraCallIff`).
- A rejected transition is reported as success, so a job cancelled after the
  worker's checks is still called once (`RejectedMarkStillCalls`; `LateCallIff`).
- A job created again while an execution is under way, or while a prune has read
  it and not yet written back, can be given attempts it never made
  (`StalePruneRun`; `ForeignAttemptIff` says exactly when).
- A job cancelled after a timeout sweep read it is listed as timed out although it
  stays cancelled, and one deleted meanwhile is left with a pending state and no
  job (`CancelledIsListed`, `DeletedLeavesState`; `TimeoutTakesIff`).
- Pruning drops a recent attempt recorded after it read the job, and gives a job
  created again the attempts it had kept of the old one
  (`RecordedMeanwhileIsLost`; `PruneExactIff`, `PruneNewLifeIff`).
- Concurrent requests really do overshoot the limits, by the proved bound and no
  less (`OvershootIsReached`). A charge reported as failed, or a rollback that is
  lost, leaks what it charged; `UsageWithClamping` accounts for all of it.
- Removing one of several jobs of a cold slot leaves the job listed in the cold
  copy, after which rebuilding the index is not exact (`GhostRun`;
  `StrikeTidyIff`, `LoadExactIff`).
- The full scan works from a cold copy even when a newer hot one exists, and writes
  back what it read (`ScanFromColdIff` says exactly when that does no harm).
- A cold slot that cannot be read is taken for absent: adding a job overwrites it,
  and removing or rebuilding leaves the index wrong (`UnreadRun`;
  `StepKeepsIndex`).
- Bringing a slot back can overwrite a newer hot copy (`ClockBackRun`;
  `PassInvisibleIff`). It takes a clock that runs back: otherwise the promoting
  half of the evictor never brings anything back at all (`NothingIsEverPromoted`).
- A slot whose archive the state machine refuses leaves the wheel all the same
  (`RefusedArchiveRun`; `RefusedLeavesWheelIff`).
- Negative seconds between two slots fall outside the bounds of their slot,
  because Go's division truncates (`SecondInItsSlot`); for the same reason the wheel
  hands out a slot before time zero when it begins, not when it ends (`SlotBaseIs`).

## Model

| member | source | states |
|---|---|---|
| `WheelScan.DefaultWheelConfigs` | internal/slots/timing_wheel.go:15-24 | the default configuration is aligned: level 0 has the slot gap, each granularity is the turn of the level below |
| `WheelScan.DefaultTurns` | internal/slots/timing_wheel.go:15-24 | the default levels turn in 360, 8640 and 3153600 slots, with the default gap an hour, a day and 365 days, and reach 3162600 slots together |
| `TimingWheel.HierarchicalTimingWheel.constructor` | internal/slots/timing_wheel.go:48-73 | a new wheel is valid, uninitialised, empty, and has the configured or default shape |
| `TimingWheel.HierarchicalTimingWheel.Init` | internal/slots/timing_wheel.go:76-89 | the base becomes the beginning of the slot that contains `now`, once; a second call changes nothing |
| `TimingWheel.HierarchicalTimingWheel.Add` | internal/slots/timing_wheel.go:91-119 | exactly one key more is held, in the bucket its distance selects and indexed there, overflow untouched; uniqueness is kept for absent keys, and re-adding a key resident in level 0 changes no bucket |
| `TimingWheel.HierarchicalTimingWheel.Remove` | internal/slots/timing_wheel.go:121-132 | no other key is lost, the index entry goes, and the key itself stays if and only if it has a copy the index does not know; in a wheel without double copies it is erased entirely |
| `TimingWheel.HierarchicalTimingWheel.Advance` | internal/slots/timing_wheel.go:134-206 | for a jump of any length, returns without repetition exactly the prompt keys due before the new base, which is the beginning of the slot of `now`, so only slots that lie wholly before `now`; holds the rest afterwards, prompt keys staying prompt; the index stays sound and single copies stay single |
| `TimingWheel.HierarchicalTimingWheel.DrainOverflow` | internal/slots/timing_wheel.go:170-203 | the overflow passes lose nothing, return nothing, and leave in overflow only keys beyond the wheel's coverage |
| `TimingWheel.HierarchicalTimingWheel.PromoteOverdue` | internal/slots/timing_wheel.go:191-203 | hands out exactly the overflow keys due by the new base |
| `TimingWheel.HierarchicalTimingWheel.GetReadySlots` | internal/slots/timing_wheel.go:208-242 | lists exactly the held keys due by `now`, each once in a wheel without double copies |
| `TimingWheel.HierarchicalTimingWheel.PeekMin` | internal/slots/timing_wheel.go:244-285 | the earliest time among the first non-empty bucket of each level and overflow, -1 when there is none |
| `TimingWheel.HierarchicalTimingWheel.Cascade` | internal/slots/timing_wheel.go:287-317 | through every recursive call, prompt keys stay prompt, late keys end in overflow or stay late, nothing is lost, pointers arrive at the present tick, and the index stays sound |
| `TimingWheel.HierarchicalTimingWheel.CascadeKey` | internal/slots/timing_wheel.go:296-311 | a cascaded key moves below exactly when it is due within one bucket width, else it is parked |
| `TimingWheel.HierarchicalTimingWheel.FindBucket` | internal/slots/timing_wheel.go:319-340 | always succeeds on an aligned wheel: the one level whose range contains the distance, or the last |
| `TimingWheel.HierarchicalTimingWheel.TotalCoverage` | internal/slots/timing_wheel.go:342-348 | the sum of all turns |
| `TimingWheel.HierarchicalTimingWheel.Size` | internal/slots/timing_wheel.go:358-370 | counts copies; without double copies this is the number of held keys, indexed plus overflow |
| `TimingWheel.HierarchicalTimingWheel.Reset` | internal/slots/timing_wheel.go:372-386 | empties the wheel, keeps its shape and gap, and makes it uninitialised again |
| `WheelSpec.SlotBaseIs` | internal/slots/timing_wheel.go:147-150 | the base of `now` is the one multiple of the gap that begins its slot (before time zero: ends it), and a slot lies before it exactly when it lies wholly before `now` |
| `WheelGeometry.ChosenUnique` | internal/slots/timing_wheel.go:319-340 | the level chosen for a distance is unique |
| `WheelGeometry.GroundTick` | internal/slots/timing_wheel.go:319-340 | a key placed on level 0 sits in the tick of its own slot, or in the current one when overdue |
| `WheelGeometry.UpperTick` | internal/slots/timing_wheel.go:319-340 | a key placed above is cascaded no later than it is due, in mid-rotation and when the last level wraps; with the pointers below at zero it is also prompt |
| `WheelSteps.CascadePlaced` | internal/slots/timing_wheel.go:296-311 | placing a cascaded key below adds it to the prompt keys and changes nothing else |
| `WheelScan.UniqueSize` | internal/slots/timing_wheel.go:358-370 | without double copies, the copies in buckets are as many as the index entries, and the held keys as many as indexed plus overflow |
| `WheelScan.VisibleWhenHeld` | internal/slots/timing_wheel.go:244-285 | what `PeekMin` looks at is held, and is empty only when nothing is held |
| `WheelTheorems.Odometer` | internal/slots/timing_wheel.go:154-168 | after N slots the level pointers are the mixed-radix digits of N |
| `WheelTheorems.UpperLevelsNeverOverdue` | internal/slots/timing_wheel.go:287-340 | every copy in an upper bucket is due no earlier than the absolute time that bucket is cascaded, which lies ahead of the base; for level 1 that time is spelled out |
| `WheelTheorems.AdvanceLosesNothing` | internal/slots/timing_wheel.go:134-206 | for jumps of any length, held after plus returned equals held before, and nothing is returned early |
| `WheelTheorems.AdvanceMovesIff` | internal/slots/timing_wheel.go:147-150 | the base moves if and only if the slot of `now` begins after it, and then to where that slot begins; otherwise nothing changes |
| `WheelTheorems.OverdueIsNext` | internal/slots/timing_wheel.go:134-206 | an overdue key sits in the current bucket of level 0, and the next base-moving `Advance` returns it |
| `WheelTheorems.LateIsFar` | internal/slots/timing_wheel.go:287-340 | nothing in overflow, and no late copy, falls due within one turn of level 0 |
| `WheelTheorems.AdvanceIsExact` | internal/slots/timing_wheel.go:134-206 | a jump of at most one turn of level 0 returns exactly the held keys due before the new base, and exactly those leave |
| `WheelTheorems.AdvanceExactIff` | internal/slots/timing_wheel.go:134-206 | for jumps of any length, the same holds if and only if no key due by then sits in overflow or in a bucket that cascades a whole width before the key is due |
| `WheelTheorems.DeliveredByClock` | internal/slots/timing_wheel.go:134-206 | a jump of at most one turn of level 0 returns exactly the held slots k with (k + 1) * gap <= now, and keeps the others |
| `WheelTheorems.AdvanceMatchesScan` | internal/slots/timing_wheel.go:134-242 | such an `Advance` returns what the linear scan would have listed just before |
| `WheelTheorems.PeekMinIsExact` | internal/slots/timing_wheel.go:244-285 | `PeekMin` is the true minimum whenever some held key is due before the next level-1 cascade |
| `WheelTheorems.PeekMinExactIff` | internal/slots/timing_wheel.go:244-285 | `PeekMin` is the true minimum if and only if every key behind an all-late bucket of its own upper level has a visible key no later than itself |
| `WheelTheorems.PeekMinEmpty` | internal/slots/timing_wheel.go:244-285 | `PeekMin` answers -1 exactly when nothing is held |
| `WheelRuns.RunRefinesFlatSet` | internal/slots/timing_wheel.go:76-242 | over every run of Init, Add, Remove, Advance and Reset whose jumps stay within one turn of level 0 and that removes no key with an unindexed copy, the wheel refines a plain set from which each Advance takes the slots that lie wholly before `now`, outputs included |
| `WheelRuns.RemoveRefinesIff` | internal/slots/timing_wheel.go:121-132 | one Remove acts on the plain set if and only if the key has no copy the index does not know |
| `WheelRuns.DeliveredByFirstPass` | internal/slots/timing_wheel.go:134-206 | in such a run a key that is neither removed nor reset away is returned by the first base-moving `Advance` at a time by which its slot is over, and by none before |
| `WheelRuns.LongJumpMisses` | internal/slots/timing_wheel.go:134-206 | in every wheel, one long jump past a key added two turns ahead in mid-rotation leaves it overdue |
| `WheelRuns.AddUniqueIff` | internal/slots/timing_wheel.go:91-119 | Add makes a second copy if and only if the key is held and its index entry is not the bucket it would go to now |
| `WheelRuns.SecondCopyIff` | internal/slots/timing_wheel.go:91-132 | adding a key and removing it again leaves it held under exactly that condition |
| `WheelRuns.RunStaysUnique` | internal/slots/timing_wheel.go:76-242 | over every run, with jumps of any length, a wheel without double copies stays without them, so that every Remove acts on the plain set, as long as no straying key is added |
| `WheelWitnesses.LongJumpRun` | internal/slots/timing_wheel.go:134-206 | a run from a new wheel, for every gap and every aligned shape with two buckets on levels 0 and 1, that ends with an overdue key left behind |
| `WheelWitnesses.PeekMinMissesRun` | internal/slots/timing_wheel.go:244-285 | a run from a new wheel, for every gap and every aligned shape with three buckets on levels 0 and 1, after which `PeekMin` answers a slot later than the earliest |
| `WheelWitnesses.SecondCopyRun` | internal/slots/timing_wheel.go:91-132 | a run from a new wheel, for every gap and every aligned shape with three buckets on levels 0 and 1, in which a key survives its removal |
| `SlotTier.PutHotIsUpdate` | internal/store/fsm.go:91-97 | creating a slot updates the one map that `GetSlot` reads |
| `SlotTier.EraseIsRemoval` | internal/store/fsm.go:98-114 | deleting a slot removes it from that map even if the cold-store delete fails |
| `SlotTier.ArchiveIsUpdate` | internal/store/fsm.go:115-129 | an accepted archive writes its value, a refused one nothing; it is invisible exactly when it writes the value already visible |
| `SlotTier.UnarchiveInvisibleIff` | internal/store/fsm.go:130-153 | unarchiving is invisible if and only if the cold copy is not stale, in particular for a key that is cold and not hot, even if the cold-store delete fails |
| `SlotTier.ArchiveRoundTrip` | internal/store/fsm.go:115-153 | archiving what is visible and bringing it back changes no read, and leaves the slot hot and nowhere else |
| `Fsm.FSM.ApplyCommand` | internal/store/fsm.go:61-176 | the machine in memory does to its abstract value what the specification of each command says, answers the same, and keeps execution-state objects unshared |
| `Fsm.FSM.ApplyStatusUpdate` | internal/store/fsm.go:348-388 | an update makes a missing state pending, is accepted exactly for eight pairs of statuses, then leaves the status it asked for, and changes that one job's object in place |
| `Fsm.FSM.ApplyRecordAttempt` | internal/store/fsm.go:391-405 | appends the attempt to that job alone, or refuses |
| `Fsm.FSM.ApplyPruneAttempts` | internal/store/fsm.go:408-420 | replaces the attempts of that job alone, or refuses |
| `Fsm.FSM.GetSlot` | internal/store/fsm.go:202-221 | reads the hot map first, then the cold store through the cold keys; a failing cold read reads as absent |
| `Fsm.FSM.GetExecutionState` | internal/store/fsm.go:264-272 | a new object with the current value, or none |
| `Fsm.JobExecutionState.Clone` | internal/store/types/status.go:44-54 | a new object with the same value |
| `Fsm.FSM.GetSnapshot` | internal/store/fsm.go:297-329 | all of the state but the cold store, in objects of its own |
| `Fsm.FSM.Restore` | internal/store/raft_adapter.go:39-84 | the state becomes the snapshot's, over the cold store that is there |
| `Fsm.SnapshotOutlives` | internal/store/fsm.go:297-329 | no later command changes a snapshot that was taken |
| `Fsm.GetterOutlives` | internal/store/fsm.go:264-272 | no later command changes an execution state that was read |
| `Fsm.CatchUp` | internal/store/raft_adapter.go:20-84 | a replica built from a snapshot and the commands after it has the state the specification gives |
| `FsmInvariants.EveryLogKeepsInv` | internal/store/fsm.go:68-176 | after every log: jobs have execution states; a node is named only while in progress; a cancel time is set only when cancelled; every started status has an attempt; cold keys are in the cold store; counters are not negative |
| `FsmInvariants.EveryLogKeepsKeys` | internal/store/fsm.go:91-153 | after every log each slot is stored under its own key, in both tiers |
| `FsmHistory.UpdateAcceptedIff` | internal/store/fsm.go:13-20 | an update is accepted if and only if it is one of the eight written-out moves, a missing state counting as pending; it leaves the asked status, a rejected one the old, and no other job is touched |
| `FsmHistory.RefusedIff` | internal/store/fsm.go:68-176 | which commands are refused, and that a refused one changes nothing but a missing state made pending |
| `FsmHistory.StateIsHistory` | internal/store/fsm.go:364-388 | after every log each field of an execution state is what the accepted updates of the job's present life say: status, start count, first and last start, last end, cancel and its reason, executing node |
| `FsmHistory.JobsAreLive` | internal/store/fsm.go:68-90 | after every log the jobs are exactly those created and not deleted since, as last created |
| `FsmInvariants.StatusFollowsTable` | internal/store/fsm.go:445-458 | a step that neither creates nor deletes the job changes its status only along the table, and with the status unchanged at most its attempts |
| `FsmInvariants.FinalStatusAbsorbs` | internal/store/fsm.go:13-20 | completed and cancelled absorb every log that neither creates nor deletes the job |
| `FsmInvariants.AttemptsAreStarts` | internal/store/fsm.go:364-373 | over every log the attempt count is the number of accepted starts since the job was last created or deleted |
| `FsmInvariants.RejectedUpdateIsHarmless` | internal/store/fsm.go:348-362 | a rejected update alters no existing state and adds at most a pending one |
| `FsmInvariants.TiersRefineOneMap` | internal/store/fsm.go:91-153 | over every log without stale unarchives, whatever cold-store operations fail, hot map, cold keys and cold store read as one plain map |
| `FsmInvariants.StaleLog` | internal/store/fsm.go:98-153 | a log from the initial state, with one failing cold-store delete, that brings a deleted slot back into view |
| `FsmInvariants.ClampedCounterClosedForm` | internal/store/fsm.go:423-442 | a clamped counter is the plain sum minus the smallest prefix sum (counting the empty prefix); it is not negative, and is the plain sum when no prefix is |
| `FsmInvariants.LowWaterIsMin` | internal/store/fsm.go:423-442 | the smallest prefix sum is attained and is a lower bound |
| `FsmInvariants.CountersAreFolds` | internal/store/fsm.go:423-442 | after every log both counters are such clamped folds of their own deltas |
| `FsmReplay.SnapshotThenRest` | internal/store/raft_adapter.go:20-116 | snapshot at any index, restore, apply the rest: the same as the whole log |
| `FsmReplay.CrashReplay` | internal/store/raft_adapter.go:39-84 | with working cold-store operations, replaying after any number of crashes at any points ends where the undisturbed run ends, if every unarchived key was archived or deleted earlier in the log |
| `FsmReplay.NoUnarchiveIsGuarded` | internal/store/fsm.go:98-129 | a log without unarchive commands meets that condition |
| `FsmReplay.UnguardedReplayDiverges` | internal/store/fsm.go:130-153 | for every log that does not, some snapshot, prefix and crash point make replay end elsewhere |
| `FsmReplay.ReplaySafeIff` | internal/store/raft_adapter.go:39-84 | all prefixes of a log survive a crash anywhere, over any snapshot, if and only if the log meets the condition |
| `StatusTracker.StatusTracker.CheckTimeouts` | internal/store/status_tracker.go:236-273 | only on a leader; commits a timeout for exactly the jobs overdue when read whose commit takes effect, each once and in some order, among whatever others commit, and lists those whose commit is reported as successful |
| `StatusTracker.StatusTracker.PruneOldAttempts` | internal/store/status_tracker.go:335-378 | only on a leader; commits the attempts that were recent when read, for every job with an old one, among whatever others commit, with commits lost or reported wrongly |
| `StatusTracker.OverdueIsOldStart` | internal/store/status_tracker.go:245-249 | a job is overdue if and only if the last update accepted in its present life is a start more than the timeout ago |
| `StatusTracker.PruningsIff` | internal/store/status_tracker.go:343-362 | the sweep prunes exactly the jobs with an attempt that began before the cutoff, but for lost commits |
| `StatusTracker.TimeoutCommit` | internal/store/fsm.go:348-388 | a timeout command takes effect exactly when the job is in progress at that moment; for a missing job it leaves a pending state |
| `StatusTracker.TimedOutAlone` | internal/store/status_tracker.go:236-273 | a job nobody else touches during the sweep is timed out if and only if it was overdue and its command commits, whatever happens to other jobs |
| `StatusTracker.QuietTimeouts` | internal/store/status_tracker.go:236-273 | with nothing in between the sweep times out exactly the overdue jobs and changes nothing else |
| `StatusTracker.TimeoutTakesIff` | internal/store/status_tracker.go:236-273 | with one worker, an overdue job is timed out if and only if nobody cancelled, created or deleted it between the read and the commit; a pending state is left for a job that is gone if and only if it was deleted and not brought back |
| `StatusTracker.CancelledIsListed` | internal/store/status_tracker.go:245-268 | a job cancelled after the read is committed and listed as timed out, and stays cancelled |
| `StatusTracker.DeletedLeavesState` | internal/store/status_tracker.go:245-268 | a job deleted after the read is left with a pending state and no job |
| `StatusTracker.PruneExactIff` | internal/store/status_tracker.go:335-378 | when others only update the status of the job or record attempts between the read and the commit, it ends with exactly the recent attempts it had at the commit if and only if none of those recorded in between is recent |
| `StatusTracker.PruneNewLifeIff` | internal/store/status_tracker.go:335-378 | when the job is created again in between, it ends with exactly its own recent attempts if and only if the sweep had kept the same of the old one; with none recorded since, if and only if it had kept nothing |
| `StatusTracker.PrunedAlone` | internal/store/status_tracker.go:335-378 | at the end of a whole sweep a job nobody else touched has exactly its recent attempts, if its command takes effect, whatever happens to other jobs |
| `StatusTracker.QuietPrunings` | internal/store/status_tracker.go:335-378 | with nothing in between the sweep cuts every job's attempts to the recent ones and changes nothing else |
| `StatusTracker.RecordedMeanwhileIsLost` | internal/store/status_tracker.go:343-372 | the smallest such race: an attempt recorded between the read and the commit is dropped |
| `Pruning.RecentKeepsExactly` | internal/store/status_tracker.go:348-358 | pruning keeps every recent attempt as often as it was there, and no old one |
| `Execution.CommitIsStatusUpdate` | internal/store/store.go:728-737 | the status, record and prune commits of the protocol are the state machine's own commands, seen from one job |
| `ExecutionTrace.RunIsReplicated` | internal/store/store.go:728-737 | after any run the job's state is what the state machine makes of the commands the run commits: none for a lost commit, the same whether or not success is reported |
| `ExecutionTrace.WorkerGoesOn` | internal/slots/execution_manager.go:67-188 | after any run: a call can follow exactly a mark reported as committed, a record exactly a look that did not see a cancelled failure, and a close exactly a record reported as committed without a cancel seen, as completed exactly when the call returned ok |
| `ExecutionTrace.CompletedIff` | internal/slots/execution_manager.go:120-187 | undisturbed, a job whose webhook was called is completed if and only if the last call returned ok, and failed otherwise; after a success no run of that life calls it again |
| `ExecutionTrace.ExecutionRuns` | internal/slots/execution_manager.go:67-188 | from every idle worker and executable job with an attempt left, and for either answer, such a run exists: one call, one attempt counted, its record at the end |
| `ExecutionTrace.MoreCallsIff` | internal/store/status_tracker.go:68-94 | between executions a job can still be called in its present life if and only if it is neither completed nor cancelled and has an attempt left |
| `ExecutionTrace.PruneReadIff` | internal/store/status_tracker.go:343-362 | a prune has something to write back if and only if an attempt it read began before the cutoff, and then it is the others |
| `Execution.RunKeepsInv` | internal/slots/execution_manager.go:67-188 | every interleaving, with prunes that read one life and commit in another, keeps the invariant that ties calls, attempt count, late calls and recorded attempts together |
| `Execution.CallsNeverExceedMax` | internal/slots/execution_manager.go:67-188 | during one life the webhook is called at most the allowed number of times, and once more only if the life began between a mark and its call; executions that read one life's count never call more often; in any interleaving, with commits lost or reported wrongly |
| `Execution.ExtraCallIff` | internal/slots/execution_manager.go:92-120 | a life can see more calls than allowed if and only if it begins between a mark and its call |
| `Execution.OneCallTooMany` | internal/slots/execution_manager.go:92-120 | for every limit, a run from the creation of a job in which a later life sees one call too many |
| `Execution.OneCallAfterCancel` | internal/slots/execution_manager.go:92-187 | at most one call starts during a life after its cancel was accepted, whichever life the caller had read |
| `Execution.LateCallIff` | internal/slots/execution_manager.go:67-120 | after a cancel a call can still start if and only if the worker had passed its checks, and never more than one |
| `Execution.CancelledStays` | internal/store/status_tracker.go:129-233 | a cancelled job stays cancelled, its other fields unchanged, whatever is committed later |
| `Execution.RecordedAttemptsBound` | internal/slots/execution_manager.go:120-187 | recorded attempts exceed the attempt count by at most one, only for a cancelled job, but for attempts the life never made: one from an execution between its number and its record when the life began, and those a prune held then |
| `Execution.ForeignAttemptIff` | internal/slots/execution_manager.go:120-187 | a life can be given an attempt it never made if and only if it begins while an execution is between its number and its record, or while a prune that keeps an attempt is between its read and its commit |
| `Execution.StalePruneRun` | internal/store/status_tracker.go:335-378 | for every limit of at least two, a run from the creation of a job that ends with a job created again, pending, with an idle worker and an attempt it never made |
| `Execution.RejectedMarkStillCalls` | internal/slots/execution_manager.go:92-120 | for every limit, a run that attains the bound: cancelled before the mark, called once, no attempt counted |
| `Admission.RunKeepsInv` | internal/slots/limit_manager.go:29-92 | every interleaving keeps usage plus what admitted requests may still add under the ceiling |
| `Admission.OvershootBound` | internal/api/job_handlers.go:45-93 | with m requests at once, each of at most size S, memory never exceeds limit + (m-1)*S and the job count never limit + m-1, through rollbacks, removals, clamping and lost commits |
| `Admission.SequentialNeverExceeds` | internal/slots/memory_tracker.go:33-56 | one request at a time never exceeds either limit |
| `Admission.OvershootIsReached` | internal/slots/job_counter.go:24-46 | for every number of requests and all limits that admit one job of the largest size, a run that meets both bounds exactly |
| `AdmissionLedger.UsageIsConserved` | internal/slots/limit_manager.go:48-92 | over every run without clamping, tracked memory is the admitted jobs plus requests under way plus leaks minus releases, and the count likewise; leaks are charges reported as failed, lost rollbacks, and counts reported as failed |
| `AdmissionLedger.UsageWithClamping` | internal/slots/limit_manager.go:48-92 | over every run, the same plus the deepest debt a release ran into |
| `AdmissionLedger.RollbackRestores` | internal/slots/limit_manager.go:48-70 | a request that is rolled back leaves the node it found |
| `SlotIndex.SecondInItsSlot` | internal/slots/persistent_slots.go:53-56 | a second lies within the bounds of its slot if and only if it is not negative or is a multiple of the gap |
| `SlotIndex.SlotKeyIs` | internal/slots/persistent_slots.go:53-56 | the key of a second is the one slot that contains it (before time zero, with the bounds turned round) |
| `SlotIndex.WithoutOne` | internal/slots/persistent_slots.go:117-122 | removal takes exactly the first occurrence of a job off the list |
| `SlotIndex.ScanMatchesIndex` | internal/slots/persistent_slots.go:140-212 | with no slot both hot and cold, the full scan strikes the job off the slot the index names, or neither finds it; unreadable cold slots included |
| `SlotIndex.ScanFindsNothing` | internal/slots/persistent_slots.go:140-212 | in a tidy store a job that is not indexed is found by no scan |
| `SlotIndex.ScanFromColdIff` | internal/slots/persistent_slots.go:140-170 | a scan that finds the job in a cold copy strikes it off the visible slot if and only if the cold and the visible list agree but for the job |
| `SlotIndex.StrikeTidyIff` | internal/slots/persistent_slots.go:101-138 | a removal keeps the store tidy if and only if it empties the slot or no cold copy lists the job |
| `SlotIndex.LoadExactIff` | internal/slots/persistent_slots.go:292-324 | rebuilding gives the exact index in every iteration order if and only if the store is tidy |
| `IndexRuns.StepKeepsIndex` | internal/slots/persistent_slots.go:58-324 | from a tidy store every operation, passes of the evictor included, keeps the index the inverse of the job lists and every job within its slot if and only if it does not work from a cold slot it cannot read or bring back a copy that lacks a job; and the exact case in which tidiness is lost |
| `IndexRuns.RunKeepsIndex` | internal/slots/persistent_slots.go:58-324 | over whole runs of queue operations and passes that add jobs once, do not misread and leave no ghost, the index stays exact and the store tidy |
| `IndexRuns.LoadStep` | internal/slots/persistent_slots.go:292-324 | rebuilding the index of a tidy, readable store finds the index there was |
| `IndexRuns.IndexedRemovalIsScan` | internal/slots/persistent_slots.go:101-212 | with no slot both hot and cold, removal by the index and removal by the full scan leave the same queue |
| `IndexRuns.EvictStep` | internal/slots/slot_eviction.go:98-139 | from a tidy store a pass keeps the store tidy, and the index exact if and only if no copy it brings back lacks a job of the hot one |
| `IndexRuns.StepKeepsFrame` | internal/slots/persistent_slots.go:58-324 | every operation, whatever fails, leaves each copy of a slot with the key and bounds of its place |
| `IndexRuns.ArchivedIsNeverPromoted` | internal/slots/slot_eviction.go:98-139 | what a pass finds in the past neither it nor any pass at a later time brings back, whatever jobs and slots are added, removed or rebuilt in between |
| `IndexRuns.NothingIsEverPromoted` | internal/slots/slot_eviction.go:120-139 | with nothing cold at first but the past and a clock that does not run back, no pass of any run brings a slot back or changes a result of `GetSlot` |
| `IndexWitnesses.GhostRun` | internal/slots/persistent_slots.go:101-138 | a run from an empty store after which the removed job is in the rebuilt index again |
| `IndexWitnesses.UnreadRun` | internal/slots/persistent_slots.go:58-99 | a run from an empty store in which a failing cold read makes a job vanish from its slot |
| `IndexWitnesses.ClockBackRun` | internal/slots/slot_eviction.go:98-139 | a run from an empty store in which a clock that runs back lets an older copy overwrite a newer one |
| `SlotQueue.Store.ArchiveSlot` | internal/store/store.go:637-664 | changes no result of `GetSlot`; the slot is cold afterwards unless the cold store refuses it or there is none, which is reported as success all the same |
| `SlotQueue.Store.UnarchiveSlot` | internal/store/store.go:666-688 | the slot is no longer cold unless the cold store cannot be read, which is reported as success; every slot reads as before if and only if its cold copy was not stale |
| `SlotQueue.PersistentSlotQueue.AddJob` | internal/slots/persistent_slots.go:58-99 | a one-time job is indexed under the slot of its timestamp, a recurring one under the slot of its creation time, any other changes nothing; the wheel gains exactly that slot, and on a leader the slot lists the jobs it was read with and then this one |
| `SlotQueue.PersistentSlotQueue.RemoveJob` | internal/slots/persistent_slots.go:101-138 | one step of the queue, by index or by scan, skipping what cannot be read; the wheel drops a key only with its slot, and does drop it |
| `SlotQueue.PersistentSlotQueue.RemoveJobFallback` | internal/slots/persistent_slots.go:140-212 | the scan, cold slots first and unreadable ones skipped; the wheel drops a key only with its slot |
| `SlotQueue.PersistentSlotQueue.RemoveSlot` | internal/slots/persistent_slots.go:272-290 | the slot leaves store and wheel, its jobs the index if it can be read, and every slot left is still in the wheel |
| `SlotQueue.PersistentSlotQueue.LoadJobs` | internal/slots/persistent_slots.go:292-324 | index and wheel are rebuilt from what can be read of both tiers, in some order; the wheel holds exactly those keys, and every filed slot if none is unreadable |
| `Eviction.SlotEvictor.Evict` | internal/slots/slot_eviction.go:98-145 | one pass over any store: what it archives and brings back, that it changes no `GetSlot` result if and only if nothing it brings back is stale, its two counts, and what the wheel holds afterwards |
| `EvictionPass.PassInvisibleIff` | internal/slots/slot_eviction.go:98-139 | a pass changes no result of `GetSlot` if and only if no cold copy it brings back is stale, whatever cold-store operations fail |
| `EvictionPass.PassKeysIff` | internal/slots/slot_eviction.go:98-139 | by their keys: a pass tries to archive the hot slots that end by the threshold, and to bring back the readable cold ones between the threshold and two windows after it |
| `EvictionPass.WheelAfterPassIff` | internal/slots/slot_eviction.go:98-139 | by the keys: after a pass the wheel holds what it held but for the hot slots that end by the threshold, and the readable cold ones in the window |
| `EvictionPass.NothingPastStaysHot` | internal/slots/slot_eviction.go:98-120 | after a pass whose archives succeed, no hot slot ends before the threshold |
| `EvictionPass.SecondPassIsIdle` | internal/slots/slot_eviction.go:98-139 | a second pass at the same time has nothing to archive or bring back |
| `EvictionPass.PastIsNotCalled` | internal/slots/slot_eviction.go:120-139 | between any two stores with slots in their bounds, what is past in the one at one time is not brought back in the other at a later time |
| `EvictionPass.RefusedLeavesWheelIff` | internal/slots/slot_eviction.go:108-118 | a slot that stays hot leaves the wheel if and only if it lies in the past and its archive is refused |
| `Eviction.RefusedArchiveRun` | internal/slots/slot_eviction.go:98-145 | a run from an empty store that ends with a job filed in a hot slot the wheel no longer knows |

## Left out

- Raft consensus, transport, bootstrap and discovery: a committed, totally ordered command log is taken as given.
- BoltDB, JSON and the decimal text of slot keys: the cold store is a map whose operations may fail, snapshots are lossless values, and a slot key in a command is missing, malformed or a number.
- Wheels that are not aligned, have one level or a gap of less than a second, and 64-bit overflow: keys and times are unbounded integers.
- `GetNextSlot` and "every due job runs": the code drops ready keys whose slots still have jobs, so this is not a property it has.
- "The counters equal the live jobs": deletions by the worker do not release what was recorded, so only the admission bound and the closed form hold.
- Cron parsing, webhook HTTP, error classification, request handlers, metrics, status-change callbacks, logging and configuration: input and output, or library wrappers. The webhook is an arbitrary outcome, the clock a parameter.
- The simulator and its browser bindings: thin copies of the worker.
- Locks and goroutines of the wheel, queue and state machine: every method holds a lock for its whole body, so each call is one step.
- `Execute`, `CheckCapacity` and `RecordJobAdded` as methods: they are modelled as steps of a transition system, because what is proved about them is about interleavings; aliasing inside one call is not captured.
- A commit that is reported as failed and takes effect much later: in `Execution` and `Admission` it takes effect at once or never.
- Several workers or pruning goroutines at once, as during a change of leader: `Execution` has one of each, and `TimeoutTakesIff` one worker, as the code intends.
- Go's sharing of `JobIDs` slices and job objects between a reader and the store: slots and jobs are values, only execution states are objects.
- A commit of the queue that fails on a leader: the queue ignores the error, so it reads like a call on a node that is not the leader.
- Eviction.SlotEvictor.Evict: no slot write happens between its steps, and its commits succeed; leadership is not lost in the middle of a pass.
- EvictionPass.NothingPastStaysHot: for slots with the bounds of their key, which `StepKeepsFrame` shows of every run of the queue; so for `SecondPassIsIdle` and `RefusedLeavesWheelIff`.
