/**
 The replicated state machine as a function on values: what one command does to
 jobs, slots, execution states and counters.
 */
module FsmSpec {
  import opened Types
  import opened SlotTier

  datatype State = State(
    jobs: map<string, Job>,
    tier: Tier,
    exec: map<string, ExecState>,
    memoryUsage: int,
    jobCount: int)

  function Initial(cold: Option<map<int, SlotData>>): State {
    State(map[], Tier(map[], {}, cold), map[], 0, 0)
  }

  // ---------------------------------------------------------------- status transitions

  function Allowed(from: JobStatus): set<JobStatus> {
    match from
    case Pending => {InProgress, Cancelled}
    case InProgress => {Completed, Failed, Timeout, Cancelled}
    case Timeout => {InProgress}
    case Failed => {InProgress}
    case Completed => {}
    case Cancelled => {}
    case OtherStatus(_) => {}
  }

  function Validate(from: JobStatus, to: JobStatus): Response {
    if from.OtherStatus? then Rejected(UnknownStatus)
    else if to in Allowed(from) then Nothing
    else Rejected(InvalidTransition)
  }

  function PendingState(id: string, createdAt: int): ExecState {
    ExecState(id, Pending, 0, createdAt, 0, 0, 0, 0, "", "", [])
  }

  /** The fields a status change that was accepted rewrites. */
  function Transition(e: ExecState, c: StatusCommand): ExecState {
    var e1 := e.(status := c.status);
    match c.status
    case InProgress =>
      e1.(firstAttemptAt := if e.firstAttemptAt == 0 then c.timestamp else e.firstAttemptAt,
          lastAttemptAt := c.timestamp,
          executingNodeId := c.nodeId,
          attemptCount := e.attemptCount + 1)
    case Completed => e1.(completedAt := c.timestamp, executingNodeId := "")
    case Failed => e1.(completedAt := c.timestamp, executingNodeId := "")
    case Cancelled =>
      e1.(completedAt := c.timestamp, cancelledAt := c.timestamp,
          cancellationReason := c.cancellationReason, executingNodeId := "")
    case Timeout => e1.(executingNodeId := "")
    case Pending => e1
    case OtherStatus(_) => e1
  }

  function Lookup(exec: map<string, ExecState>, id: string): Option<ExecState> {
    if id in exec then Some(exec[id]) else None
  }

  function StateFor(exec: map<string, ExecState>, c: StatusCommand): ExecState {
    if c.jobId in exec then exec[c.jobId] else PendingState(c.jobId, c.timestamp)
  }

  function StatusUpdate(exec: map<string, ExecState>, c: StatusCommand): (map<string, ExecState>, Response) {
    var e := StateFor(exec, c);
    var r := Validate(e.status, c.status);
    (exec[c.jobId := if r == Nothing then Transition(e, c) else e], r)
  }

  function Record(exec: map<string, ExecState>, c: StatusCommand): (map<string, ExecState>, Response) {
    if c.jobId !in exec then (exec, Rejected(StateNotFound))
    else if c.attempt.None? then (exec, Rejected(MissingField))
    else (exec[c.jobId := exec[c.jobId].(attempts := exec[c.jobId].attempts + [c.attempt.value])], Nothing)
  }

  function Prune(exec: map<string, ExecState>, c: StatusCommand, kept: seq<Attempt>): (map<string, ExecState>, Response) {
    if c.jobId !in exec then (exec, Rejected(StateNotFound))
    else (exec[c.jobId := exec[c.jobId].(attempts := kept)], Nothing)
  }

  function Clamp(total: int, delta: int): int {
    if total + delta < 0 then 0 else total + delta
  }

  // ---------------------------------------------------------------- one command

  function ApplyJob(s: State, c: Command): (State, Response)
    requires c.CreateJob? || c.DeleteJob?
  {
    match c
    case CreateJob(Some(j)) =>
      (s.(jobs := s.jobs[j.id := j], exec := s.exec[j.id := PendingState(j.id, j.createdAt)]), JobStored(j))
    case CreateJob(None) => (s, Rejected(MissingField))
    case DeleteJob(id) =>
      if id == "" then (s, Rejected(MissingField))
      else (s.(jobs := s.jobs - {id}, exec := s.exec - {id}), Nothing)
  }

  predicate IsSlotCommand(c: Command) {
    c.CreateSlot? || c.DeleteSlot? || c.ArchiveSlot? || c.UnarchiveSlot?
  }

  function ApplySlot(t: Tier, c: Command, f: Faults): (Tier, Response)
    requires IsSlotCommand(c)
  {
    match c
    case CreateSlot(Some(sl)) => (PutHot(t, sl), SlotStored(sl))
    case CreateSlot(None) => (t, Rejected(MissingField))
    case DeleteSlot(SlotId(k)) => (Erase(t, k, f), Nothing)
    case DeleteSlot(NoId) => (t, Rejected(MissingField))
    case DeleteSlot(BadId) => (t, Rejected(InvalidSlotKey))
    case ArchiveSlot(Some(sl)) => Archive(t, sl, f)
    case ArchiveSlot(None) => (t, Rejected(MissingField))
    case UnarchiveSlot(SlotId(k)) => Unarchive(t, k, f)
    case UnarchiveSlot(NoId) => (t, Rejected(MissingField))
    case UnarchiveSlot(BadId) => (t, Rejected(if t.cold.None? then ColdStoreNotEnabled else InvalidSlotKey))
  }

  predicate IsStatusCommand(c: Command) {
    c.UpdateJobStatus? || c.RecordAttempt? || c.PruneAttempts?
  }

  function ApplyStatus(exec: map<string, ExecState>, c: Command): (map<string, ExecState>, Response)
    requires IsStatusCommand(c)
  {
    match c
    case UpdateJobStatus(Some(sc)) => StatusUpdate(exec, sc)
    case RecordAttempt(Some(sc)) => Record(exec, sc)
    case PruneAttempts(Some(sc), kept) => Prune(exec, sc, kept)
    case UpdateJobStatus(None) => (exec, Rejected(MissingField))
    case RecordAttempt(None) => (exec, Rejected(MissingField))
    case PruneAttempts(None, _) => (exec, Rejected(MissingField))
  }

  function Apply(s: State, c: Command, f: Faults): (State, Response) {
    if c.CreateJob? || c.DeleteJob? then ApplyJob(s, c)
    else if IsSlotCommand(c) then
      var (t, r) := ApplySlot(s.tier, c, f);
      (s.(tier := t), r)
    else if IsStatusCommand(c) then
      var (e, r) := ApplyStatus(s.exec, c);
      (s.(exec := e), r)
    else
      match c
      case UpdateMemoryUsage(d) =>
        var s' := s.(memoryUsage := Clamp(s.memoryUsage, d));
        (s', Counter(s'.memoryUsage))
      case UpdateJobCount(d) =>
        var s' := s.(jobCount := Clamp(s.jobCount, d));
        (s', Counter(s'.jobCount))
      case OtherCommand(_) => (s, Rejected(UnknownCommand))
  }

  /** A committed command, with the cold-store failures met while applying it. */
  datatype Entry = Entry(command: Command, faults: Faults)

  function Step(s: State, e: Entry): State {
    Apply(s, e.command, e.faults).0
  }

  function Run(s: State, log: seq<Entry>): State
    decreases |log|
  {
    if log == [] then s else Run(Step(s, log[0]), log[1..])
  }

  lemma {:induction false} RunAppend(s: State, a: seq<Entry>, b: seq<Entry>)
    ensures Run(s, a + b) == Run(Run(s, a), b)
    decreases |a|
  {
    if a == [] {
      assert a + b == b;
    } else {
      assert (a + b)[0] == a[0] && (a + b)[1..] == a[1..] + b;
      RunAppend(Step(s, a[0]), a[1..], b);
    }
  }

  lemma RunSnoc(s: State, log: seq<Entry>, e: Entry)
    ensures Run(s, log + [e]) == Step(Run(s, log), e)
  {
    RunAppend(s, log, [e]);
    assert Run(Run(s, log), [e]) == Run(Step(Run(s, log), e), []);
  }

  // ---------------------------------------------------------------- snapshots

  /** Everything but the cold store, which lives outside the log. */
  datatype Snapshot = Snapshot(
    jobs: map<string, Job>,
    slots: map<int, SlotData>,
    coldSlotMeta: set<int>,
    exec: map<string, ExecState>,
    memoryUsage: int,
    jobCount: int)

  function Capture(s: State): Snapshot {
    Snapshot(s.jobs, s.tier.hot, s.tier.meta, s.exec, s.memoryUsage, s.jobCount)
  }

  function Restored(n: Snapshot, cold: Option<map<int, SlotData>>): State {
    State(n.jobs, Tier(n.slots, n.coldSlotMeta, cold), n.exec, n.memoryUsage, n.jobCount)
  }
}
