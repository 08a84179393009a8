/**
 The state machine in memory: execution states are objects that status commands
 change in place, and that getters and snapshots copy.
 */
module Fsm {
  import opened Types
  import opened SlotTier
  import opened FsmSpec
  import opened FsmHistory

  class JobExecutionState {
    var jobId: string
    var status: JobStatus
    var attemptCount: int
    var createdAt: int
    var firstAttemptAt: int
    var lastAttemptAt: int
    var completedAt: int
    var cancelledAt: int
    var cancellationReason: string
    var executingNodeId: string
    var attempts: seq<Attempt>

    function Value(): ExecState
      reads this
    {
      ExecState(jobId, status, attemptCount, createdAt, firstAttemptAt, lastAttemptAt, completedAt, cancelledAt,
                cancellationReason, executingNodeId, attempts)
    }

    constructor (e: ExecState)
      ensures Value() == e
    {
      jobId := e.jobId;
      status := e.status;
      attemptCount := e.attemptCount;
      createdAt := e.createdAt;
      firstAttemptAt := e.firstAttemptAt;
      lastAttemptAt := e.lastAttemptAt;
      completedAt := e.completedAt;
      cancelledAt := e.cancelledAt;
      cancellationReason := e.cancellationReason;
      executingNodeId := e.executingNodeId;
      attempts := e.attempts;
    }

    method Clone() returns (c: JobExecutionState)
      ensures fresh(c) && c.Value() == Value()
    {
      c := new JobExecutionState(Value());
    }

    /** Moves to the status of an accepted command. */
    method Become(c: StatusCommand)
      modifies this
      ensures Value() == Transition(old(Value()), c)
    {
      status := c.status;
      match c.status {
        case InProgress =>
          if firstAttemptAt == 0 {
            firstAttemptAt := c.timestamp;
          }
          lastAttemptAt := c.timestamp;
          executingNodeId := c.nodeId;
          attemptCount := attemptCount + 1;
        case Completed =>
          completedAt := c.timestamp;
          executingNodeId := "";
        case Failed =>
          completedAt := c.timestamp;
          executingNodeId := "";
        case Cancelled =>
          completedAt := c.timestamp;
          cancelledAt := c.timestamp;
          cancellationReason := c.cancellationReason;
          executingNodeId := "";
        case Timeout =>
          executingNodeId := "";
        case _ =>
      }
    }
  }

  /** The values of a table of execution-state objects. */
  function Values(m: map<string, JobExecutionState>): map<string, ExecState>
    reads m.Values
  {
    map id | id in m :: m[id].Value()
  }

  lemma ValueOf(m: map<string, JobExecutionState>, id: string)
    ensures id in Values(m) <==> id in m
    ensures id in m ==> Values(m)[id] == m[id].Value()
  {
  }

  /** No two jobs share an execution-state object. */
  ghost predicate Injective(m: map<string, JobExecutionState>) {
    forall a, b :: a in m && b in m && m[a] == m[b] ==> a == b
  }

  class FSM {
    var jobs: map<string, Job>
    var slots: map<int, SlotData>
    var coldSlotMeta: set<int>
    var coldStore: Option<map<int, SlotData>>
    var executionStates: map<string, JobExecutionState>
    var memoryUsage: int
    var jobCount: int

    ghost predicate Valid()
      reads this
    {
      Injective(executionStates)
    }

    ghost function View(): State
      reads this, executionStates.Values
    {
      State(jobs, Tier(slots, coldSlotMeta, coldStore), Values(executionStates), memoryUsage, jobCount)
    }

    /** The objects the state machine may change. */
    ghost function Repr(): set<object>
      reads this
    {
      {this} + executionStates.Values
    }

    constructor (coldStore: Option<map<int, SlotData>>)
      ensures Valid() && fresh(Repr()) && View() == Initial(coldStore)
    {
      jobs := map[];
      slots := map[];
      coldSlotMeta := {};
      this.coldStore := coldStore;
      executionStates := map[];
      memoryUsage := 0;
      jobCount := 0;
    }

    method ApplyCommand(c: Command, f: Faults) returns (r: Response)
      requires Valid()
      modifies Repr()
      ensures Valid() && fresh(Repr() - old(Repr()))
      ensures View() == Apply(old(View()), c, f).0 && r == Apply(old(View()), c, f).1
    {
      hide ApplySlot, ApplyStatus, ApplyJob, Injective, Values;
      if c.CreateJob? || c.DeleteJob? {
        r := ApplyJobCommand(c);
      } else if IsSlotCommand(c) {
        r := ApplySlotCommand(c, f);
      } else if IsStatusCommand(c) {
        r := ApplyStatusCommand(c);
      } else {
        match c {
          case UpdateMemoryUsage(delta) =>
            memoryUsage := memoryUsage + delta;
            if memoryUsage < 0 {
              memoryUsage := 0;
            }
            r := Counter(memoryUsage);
          case UpdateJobCount(delta) =>
            jobCount := jobCount + delta;
            if jobCount < 0 {
              jobCount := 0;
            }
            r := Counter(jobCount);
          case OtherCommand(_) =>
            r := Rejected(UnknownCommand);
        }
      }
    }

    method ApplyJobCommand(c: Command) returns (r: Response)
      requires Valid() && (c.CreateJob? || c.DeleteJob?)
      modifies this`jobs, this`executionStates
      ensures Valid() && fresh(Repr() - old(Repr()))
      ensures View() == ApplyJob(old(View()), c).0 && r == ApplyJob(old(View()), c).1
    {
      match c {
        case CreateJob(Some(job)) =>
          jobs := jobs[job.id := job];
          var e := new JobExecutionState(PendingState(job.id, job.createdAt));
          executionStates := executionStates[job.id := e];
          assert Values(executionStates) == old(Values(executionStates))[job.id := e.Value()];
          r := JobStored(job);
        case CreateJob(None) =>
          r := Rejected(MissingField);
        case DeleteJob(id) =>
          if id == "" {
            r := Rejected(MissingField);
          } else {
            jobs := jobs - {id};
            executionStates := executionStates - {id};
            assert Values(executionStates) == old(Values(executionStates)) - {id};
            r := Nothing;
          }
      }
    }

    method ApplySlotCommand(c: Command, f: Faults) returns (r: Response)
      requires IsSlotCommand(c)
      modifies this`slots, this`coldSlotMeta, this`coldStore
      ensures Tier(slots, coldSlotMeta, coldStore) == ApplySlot(old(Tier(slots, coldSlotMeta, coldStore)), c, f).0
      ensures r == ApplySlot(old(Tier(slots, coldSlotMeta, coldStore)), c, f).1
    {
      match c {
        case CreateSlot(Some(slot)) =>
          slots := slots[slot.key := slot];
          r := SlotStored(slot);
        case DeleteSlot(SlotId(key)) =>
          slots := slots - {key};
          coldSlotMeta := coldSlotMeta - {key};
          DeleteColdSlot(key, f.delete);
          r := Nothing;
        case ArchiveSlot(Some(slot)) =>
          if coldStore.None? {
            r := Rejected(ColdStoreNotEnabled);
          } else if f.put {
            r := Rejected(ColdStoreFailed);
          } else {
            coldStore := Some(coldStore.value[slot.key := slot]);
            slots := slots - {slot.key};
            coldSlotMeta := coldSlotMeta + {slot.key};
            r := Nothing;
          }
        case UnarchiveSlot(SlotId(key)) =>
          if coldStore.None? {
            r := Rejected(ColdStoreNotEnabled);
          } else if f.get {
            r := Rejected(ColdStoreFailed);
          } else {
            if key in coldStore.value {
              slots := slots[key := coldStore.value[key]];
            }
            DeleteColdSlot(key, f.delete);
            coldSlotMeta := coldSlotMeta - {key};
            r := Nothing;
          }
        case DeleteSlot(BadId) =>
          r := Rejected(InvalidSlotKey);
        case UnarchiveSlot(BadId) =>
          r := Rejected(if coldStore.None? then ColdStoreNotEnabled else InvalidSlotKey);
        case _ =>
          r := Rejected(MissingField);
      }
    }

    method ApplyStatusCommand(c: Command) returns (r: Response)
      requires Valid() && IsStatusCommand(c)
      modifies this`executionStates, executionStates.Values
      ensures Valid() && fresh(Repr() - old(Repr()))
      ensures Values(executionStates) == ApplyStatus(old(Values(executionStates)), c).0
      ensures r == ApplyStatus(old(Values(executionStates)), c).1
    {
      hide StatusUpdate, Record, Prune, Injective, Values;
      match c {
        case UpdateJobStatus(Some(sc)) =>
          r := ApplyStatusUpdate(sc);
        case RecordAttempt(Some(sc)) =>
          r := ApplyRecordAttempt(sc);
        case PruneAttempts(Some(sc), kept) =>
          r := ApplyPruneAttempts(sc, kept);
        case _ =>
          r := Rejected(MissingField);
      }
    }

    method DeleteColdSlot(key: int, fails: bool)
      modifies this`coldStore
      ensures coldStore == if old(coldStore).Some? && !fails then Some(old(coldStore).value - {key}) else old(coldStore)
    {
      if coldStore.Some? && !fails {
        coldStore := Some(coldStore.value - {key});
      }
    }

    method ApplyStatusUpdate(sc: StatusCommand) returns (r: Response)
      requires Valid()
      modifies this`executionStates, executionStates.Values
      ensures Valid() && fresh(Repr() - old(Repr()))
      ensures Values(executionStates) == StatusUpdate(old(Values(executionStates)), sc).0
      ensures r == StatusUpdate(old(Values(executionStates)), sc).1
      ensures var from := if sc.jobId in old(executionStates) then old(executionStates[sc.jobId].status) else Pending;
        && (r == Nothing <==>
              (from, sc.status) in {
                (Pending, InProgress), (Pending, Cancelled),
                (InProgress, Completed), (InProgress, Failed), (InProgress, Timeout), (InProgress, Cancelled),
                (Timeout, InProgress), (Failed, InProgress)})
        && sc.jobId in executionStates && executionStates[sc.jobId].status == (if r == Nothing then sc.status else from)
    {
      hide Transition, Validate, Values, Injective, StateFor;
      ValueOf(executionStates, sc.jobId);
      UpdateAcceptedIff(Values(executionStates), sc);
      var state := StateOf(sc);
      r := Validate(state.status, sc.status);
      if r == Nothing {
        MoveTo(sc);
      }
      ValueOf(executionStates, sc.jobId);
    }

    /** Changes the job's own execution state in place, and no other. */
    method MoveTo(sc: StatusCommand)
      requires Valid() && sc.jobId in executionStates
      modifies executionStates[sc.jobId]
      ensures Values(executionStates)
           == old(Values(executionStates))[sc.jobId := Transition(old(executionStates[sc.jobId].Value()), sc)]
    {
      hide Transition;
      executionStates[sc.jobId].Become(sc);
      forall id | id in executionStates && id != sc.jobId
        ensures executionStates[id].Value() == old(executionStates[id].Value())
      {
        assert executionStates[id] != executionStates[sc.jobId];
      }
    }

    /** The job's execution state, made pending when there is none yet. */
    method StateOf(sc: StatusCommand) returns (state: JobExecutionState)
      requires Valid()
      modifies this`executionStates
      ensures Valid() && (sc.jobId !in old(executionStates) ==> fresh(state))
      ensures executionStates == old(executionStates)[sc.jobId := state]
      ensures sc.jobId in old(executionStates) ==> executionStates == old(executionStates)
      ensures sc.jobId in executionStates && state == executionStates[sc.jobId]
      ensures state.Value() == StateFor(old(Values(executionStates)), sc)
      ensures Values(executionStates) == old(Values(executionStates))[sc.jobId := StateFor(old(Values(executionStates)), sc)]
    {
      if sc.jobId !in executionStates {
        var e := new JobExecutionState(PendingState(sc.jobId, sc.timestamp));
        executionStates := executionStates[sc.jobId := e];
      }
      state := executionStates[sc.jobId];
      assert Values(executionStates) == old(Values(executionStates))[sc.jobId := state.Value()];
    }

    method ApplyRecordAttempt(sc: StatusCommand) returns (r: Response)
      requires Valid()
      modifies executionStates.Values
      ensures Values(executionStates) == Record(old(Values(executionStates)), sc).0
      ensures r == Record(old(Values(executionStates)), sc).1
    {
      if sc.jobId !in executionStates {
        return Rejected(StateNotFound);
      }
      if sc.attempt.None? {
        return Rejected(MissingField);
      }
      var state := executionStates[sc.jobId];
      state.attempts := state.attempts + [sc.attempt.value];
      assert Values(executionStates) == old(Values(executionStates))[sc.jobId := state.Value()];
      return Nothing;
    }

    method ApplyPruneAttempts(sc: StatusCommand, kept: seq<Attempt>) returns (r: Response)
      requires Valid()
      modifies executionStates.Values
      ensures Values(executionStates) == Prune(old(Values(executionStates)), sc, kept).0
      ensures r == Prune(old(Values(executionStates)), sc, kept).1
    {
      if sc.jobId !in executionStates {
        return Rejected(StateNotFound);
      }
      var state := executionStates[sc.jobId];
      state.attempts := kept;
      assert Values(executionStates) == old(Values(executionStates))[sc.jobId := state.Value()];
      return Nothing;
    }

    /** A slot from either tier; a failing cold read reads as absent. */
    method GetSlot(key: int, coldReadFails: bool) returns (slot: Option<SlotData>)
      ensures !coldReadFails || key in slots ==> slot == Get(Tier(slots, coldSlotMeta, coldStore), key)
      ensures coldReadFails && key !in slots ==> slot == None
    {
      if key in slots {
        return Some(slots[key]);
      }
      if key in coldSlotMeta && coldStore.Some? {
        if coldReadFails || key !in coldStore.value {
          return None;
        }
        return Some(coldStore.value[key]);
      }
      return None;
    }

    method GetExecutionState(id: string) returns (state: JobExecutionState?)
      ensures state == null <==> id !in executionStates
      ensures state != null ==> fresh(state) && state.Value() == executionStates[id].Value()
    {
      if id !in executionStates {
        return null;
      }
      state := executionStates[id].Clone();
    }

    method GetSnapshot() returns (n: SnapshotImage)
      ensures fresh(n) && fresh(n.executionStates.Values)
      ensures n.View() == Capture(View())
    {
      var copies := CloneAll(executionStates);
      n := new SnapshotImage(jobs, slots, coldSlotMeta, copies, memoryUsage, jobCount);
    }

    /** Replaces the state by a decoded snapshot; the cold store stays as it is. */
    method Restore(data: Snapshot)
      modifies this
      ensures Valid() && fresh(Repr() - {this})
      ensures View() == Restored(data, old(coldStore))
    {
      hide Values, Injective;
      var states := Decode(data.exec);
      jobs := data.jobs;
      slots := data.slots;
      coldSlotMeta := data.coldSlotMeta;
      executionStates := states;
      memoryUsage := data.memoryUsage;
      jobCount := data.jobCount;
    }
  }

  class SnapshotImage {
    const jobs: map<string, Job>
    const slots: map<int, SlotData>
    const coldSlotMeta: set<int>
    const executionStates: map<string, JobExecutionState>
    const memoryUsage: int
    const jobCount: int

    /** The value that is persisted. */
    function View(): Snapshot
      reads executionStates.Values
    {
      Snapshot(jobs, slots, coldSlotMeta, Values(executionStates), memoryUsage, jobCount)
    }

    constructor (jobs: map<string, Job>, slots: map<int, SlotData>, coldSlotMeta: set<int>,
                 executionStates: map<string, JobExecutionState>, memoryUsage: int, jobCount: int)
      ensures this.jobs == jobs && this.slots == slots && this.coldSlotMeta == coldSlotMeta
      ensures this.executionStates == executionStates && this.memoryUsage == memoryUsage && this.jobCount == jobCount
    {
      this.jobs, this.slots, this.coldSlotMeta := jobs, slots, coldSlotMeta;
      this.executionStates, this.memoryUsage, this.jobCount := executionStates, memoryUsage, jobCount;
    }
  }

  lemma SomeId(ids: set<string>)
    ensures ids == {} || exists id :: id in ids
  {
    if forall id :: id !in ids {
      assert ids == {};
    }
  }

  method CloneAll(states: map<string, JobExecutionState>) returns (copies: map<string, JobExecutionState>)
    ensures fresh(copies.Values) && Values(copies) == Values(states)
  {
    copies := map[];
    var remaining := states.Keys;
    while remaining != {}
      invariant remaining <= states.Keys && copies.Keys == states.Keys - remaining
      invariant forall id :: id in copies ==> fresh(copies[id]) && copies[id].Value() == states[id].Value()
      decreases remaining
    {
      SomeId(remaining);
      var id :| id in remaining;
      var c := states[id].Clone();
      copies := copies[id := c];
      remaining := remaining - {id};
    }
  }

  method Decode(exec: map<string, ExecState>) returns (states: map<string, JobExecutionState>)
    ensures fresh(states.Values) && Injective(states) && Values(states) == exec
  {
    states := map[];
    var remaining := exec.Keys;
    while remaining != {}
      invariant remaining <= exec.Keys && states.Keys == exec.Keys - remaining
      invariant forall id :: id in states ==> fresh(states[id]) && states[id].Value() == exec[id]
      invariant Injective(states)
      decreases remaining
    {
      SomeId(remaining);
      var id :| id in remaining;
      var e := new JobExecutionState(exec[id]);
      states := states[id := e];
      remaining := remaining - {id};
    }
  }

  method ApplyAll(fsm: FSM, log: seq<Entry>)
    requires fsm.Valid()
    modifies fsm.Repr()
    ensures fsm.Valid() && fresh(fsm.Repr() - old(fsm.Repr()))
    ensures fsm.View() == Run(old(fsm.View()), log)
  {
    hide Apply, Injective, Values;
    for i := 0 to |log|
      invariant fsm.Valid() && fresh(fsm.Repr() - old(fsm.Repr()))
      invariant fsm.View() == Run(old(fsm.View()), log[..i])
    {
      assert log[..i + 1] == log[..i] + [log[i]];
      RunSnoc(old(fsm.View()), log[..i], log[i]);
      var r := fsm.ApplyCommand(log[i].command, log[i].faults);
    }
    assert log[..|log|] == log;
  }

  /** A snapshot is not changed by the commands applied after it was taken. */
  method SnapshotOutlives(fsm: FSM, log: seq<Entry>) returns (n: SnapshotImage)
    requires fsm.Valid()
    modifies fsm.Repr()
    ensures n.View() == Capture(old(fsm.View()))
    ensures fsm.View() == Run(old(fsm.View()), log)
  {
    hide Run, Injective, Values, Capture;
    n := fsm.GetSnapshot();
    ApplyAll(fsm, log);
  }

  /** Nor is an execution state that was read before them. */
  method GetterOutlives(fsm: FSM, id: string, log: seq<Entry>) returns (state: JobExecutionState?)
    requires fsm.Valid()
    modifies fsm.Repr()
    ensures state == null <==> id !in old(fsm.View()).exec
    ensures state != null ==> state.Value() == old(fsm.View()).exec[id]
    ensures fsm.View() == Run(old(fsm.View()), log)
  {
    state := fsm.GetExecutionState(id);
    ApplyAll(fsm, log);
  }

  /** A replica restored from a snapshot and fed the rest of the log. */
  method CatchUp(data: Snapshot, cold: Option<map<int, SlotData>>, log: seq<Entry>) returns (replica: FSM)
    ensures fresh(replica.Repr()) && replica.Valid()
    ensures replica.View() == Run(Restored(data, cold), log)
  {
    hide Run, Injective, Values, Restored;
    replica := new FSM(cold);
    replica.Restore(data);
    ApplyAll(replica, log);
  }
}
