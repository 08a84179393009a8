/**
 The state machine read off its log: which updates it accepts, which jobs are
 there, and what each field of an execution state records.
 */
module FsmHistory {
  import opened Types
  import opened SlotTier
  import opened FsmSpec
  import opened FsmInvariants

  // ---------------------------------------------------------------- one update

  /** An update is accepted if and only if it is one of eight moves, a missing state
      counting as pending; it then leaves exactly the status it asked for, and no
      update touches another job. */
  lemma UpdateAcceptedIff(exec: map<string, ExecState>, c: StatusCommand)
    ensures var (exec', r) := StatusUpdate(exec, c);
      var from := if c.jobId in exec then exec[c.jobId].status else Pending;
      && (r == Nothing <==>
            (from, c.status) in {
              (Pending, InProgress), (Pending, Cancelled),
              (InProgress, Completed), (InProgress, Failed), (InProgress, Timeout), (InProgress, Cancelled),
              (Timeout, InProgress), (Failed, InProgress)})
      && c.jobId in exec' && exec'[c.jobId].status == (if r == Nothing then c.status else from)
      && exec' - {c.jobId} == exec - {c.jobId}
  {
  }

  /** Which commands are refused: those that lack what they need, name no job, slot or
      state that is there, ask for a move that is not allowed, or fail at the cold
      store.  A refused command changes nothing, except that a status update may
      leave a pending state for a job that had none. */
  lemma RefusedIff(s: State, c: Command, f: Faults)
    ensures var (s', r) := Apply(s, c, f);
      && (r.Rejected? <==>
            match c
            case CreateJob(job) => job.None?
            case DeleteJob(id) => id == ""
            case CreateSlot(slot) => slot.None?
            case DeleteSlot(ref) => !ref.SlotId?
            case ArchiveSlot(slot) => slot.None? || s.tier.cold.None? || f.put
            case UnarchiveSlot(ref) => !ref.SlotId? || s.tier.cold.None? || f.get
            case UpdateJobStatus(sc) => sc.None? || StatusUpdate(s.exec, sc.value).1 != Nothing
            case RecordAttempt(sc) => sc.None? || sc.value.jobId !in s.exec || sc.value.attempt.None?
            case PruneAttempts(sc, _) => sc.None? || sc.value.jobId !in s.exec
            case UpdateMemoryUsage(_) => false
            case UpdateJobCount(_) => false
            case OtherCommand(_) => true)
      && (r.Rejected? ==>
            s' == s || (c.UpdateJobStatus? && c.status.Some? && c.status.value.jobId !in s.exec
                        && s' == s.(exec := s.exec[c.status.value.jobId := PendingState(c.status.value.jobId, c.status.value.timestamp)])))
  {
    if c.UpdateJobStatus? && c.status.Some? {
      var sc := c.status.value;
      if sc.jobId in s.exec {
        assert s.exec[sc.jobId := s.exec[sc.jobId]] == s.exec;
      }
    }
  }

  // ---------------------------------------------------------------- the log of one job

  /** The updates of the job's present life that were accepted. */
  ghost function History(s: State, log: seq<Entry>, id: string): seq<StatusCommand>
    decreases |log|
  {
    if log == [] then []
    else
      var before, last := log[..|log| - 1], log[|log| - 1];
      if Resets(last.command, id) then []
      else if IsUpdate(last.command, id) && Apply(Run(s, before), last.command, last.faults).1 == Nothing then
        History(s, before, id) + [last.command.status.value]
      else History(s, before, id)
  }

  predicate IsUpdate(c: Command, id: string) {
    c.UpdateJobStatus? && c.status.Some? && c.status.value.jobId == id
  }

  /** When the job's execution state was made: by its creation, or by the first
      update, accepted or not, that met none. */
  function Made(log: seq<Entry>, id: string): Option<int> {
    if log == [] then None
    else
      var before, last := Made(log[..|log| - 1], id), log[|log| - 1].command;
      if Resets(last, id) then if last.CreateJob? then Some(last.job.value.createdAt) else None
      else if IsUpdate(last, id) && before.None? then Some(last.status.value.timestamp)
      else before
  }

  /** The job last created and not deleted since. */
  function LiveJob(log: seq<Entry>, id: string): Option<Job> {
    if log == [] then None
    else
      var last := log[|log| - 1].command;
      if Resets(last, id) then if last.CreateJob? then last.job else None
      else LiveJob(log[..|log| - 1], id)
  }

  /** The jobs are exactly those created and not deleted since, as last created. */
  lemma {:induction false} JobsAreLive(cold: Option<map<int, SlotData>>, log: seq<Entry>, id: string)
    ensures var jobs := Run(Initial(cold), log).jobs;
      LiveJob(log, id) == if id in jobs then Some(jobs[id]) else None
    decreases |log|
  {
    if log != [] {
      var before, last := log[..|log| - 1], log[|log| - 1];
      assert log == before + [last];
      JobsAreLive(cold, before, id);
      RunSnoc(Initial(cold), before, last);
      OneJob(Run(Initial(cold), before), last, id);
    }
  }

  lemma OneJob(s: State, e: Entry, id: string)
    ensures var jobs, jobs' := s.jobs, Step(s, e).jobs;
      if Resets(e.command, id) then
        (if e.command.CreateJob? then id in jobs' && jobs'[id] == e.command.job.value else id !in jobs')
      else (id in jobs' <==> id in jobs) && (id in jobs ==> jobs'[id] == jobs[id])
  {
  }

  // ---------------------------------------------------------------- what the fields record

  /** The last update that asked for one of these statuses. */
  function LastOf(us: seq<StatusCommand>, statuses: set<JobStatus>): Option<StatusCommand> {
    if us == [] then None
    else if us[|us| - 1].status in statuses then Some(us[|us| - 1])
    else LastOf(us[..|us| - 1], statuses)
  }

  function Time(c: Option<StatusCommand>): int {
    if c.Some? then c.value.timestamp else 0
  }

  /** The time of the first start; a start at time zero does not count. */
  function FirstStart(us: seq<StatusCommand>): int {
    if us == [] then 0
    else
      var before, last := FirstStart(us[..|us| - 1]), us[|us| - 1];
      if before != 0 then before else if last.status == InProgress then last.timestamp else 0
  }

  function StartCount(us: seq<StatusCommand>): nat {
    if us == [] then 0 else StartCount(us[..|us| - 1]) + (if us[|us| - 1].status == InProgress then 1 else 0)
  }

  ghost predicate Told(e: ExecState, id: string, made: int, us: seq<StatusCommand>) {
    && e.jobId == id && e.createdAt == made
    && e.status == (if us == [] then Pending else us[|us| - 1].status)
    && e.attemptCount == StartCount(us)
    && e.firstAttemptAt == FirstStart(us)
    && e.lastAttemptAt == Time(LastOf(us, {InProgress}))
    && e.completedAt == Time(LastOf(us, {Completed, Failed, Cancelled}))
    && e.cancelledAt == Time(LastOf(us, {Cancelled}))
    && e.cancellationReason == (if LastOf(us, {Cancelled}).Some? then LastOf(us, {Cancelled}).value.cancellationReason else "")
    && e.executingNodeId == (if us != [] && us[|us| - 1].status == InProgress then us[|us| - 1].nodeId else "")
  }

  /** After every log, each field of an execution state is what the accepted updates
      of the job's present life say: the status of the last one, the number, first
      and last time of its starts, the time it last ended or was cancelled and why,
      and the node of the start it is in. */
  lemma {:induction false} StateIsHistory(cold: Option<map<int, SlotData>>, log: seq<Entry>, id: string)
    ensures var exec, made := Run(Initial(cold), log).exec, Made(log, id);
      && (id in exec <==> made.Some?)
      && (made.None? ==> History(Initial(cold), log, id) == [])
      && (id in exec ==> Told(exec[id], id, made.value, History(Initial(cold), log, id)))
    decreases |log|
  {
    hide Told;
    if log != [] {
      var before, last := log[..|log| - 1], log[|log| - 1];
      assert log == before + [last];
      StateIsHistory(cold, before, id);
      RunSnoc(Initial(cold), before, last);
      OneTold(Run(Initial(cold), before), last, id, Made(before, id), History(Initial(cold), before, id));
    }
  }

  lemma OneTold(s: State, e: Entry, id: string, made: Option<int>, us: seq<StatusCommand>)
    requires (id in s.exec <==> made.Some?) && (made.None? ==> us == [])
    requires id in s.exec ==> Told(s.exec[id], id, made.value, us)
    ensures var exec' := Step(s, e).exec; var c := e.command;
      if Resets(c, id) then
        if c.CreateJob? then id in exec' && Told(exec'[id], id, c.job.value.createdAt, []) else id !in exec'
      else if IsUpdate(c, id) then
        var made' := if made.None? then c.status.value.timestamp else made.value;
        var us' := if Apply(s, c, e.faults).1 == Nothing then us + [c.status.value] else us;
        id in exec' && Told(exec'[id], id, made', us')
      else (id in exec' <==> id in s.exec) && (id in exec' ==> Told(exec'[id], id, made.value, us))
  {
    var c := e.command;
    if IsUpdate(c, id) && !Resets(c, id) {
      var sc := c.status.value;
      NothingTold(id, sc.timestamp);
      var before := StateFor(s.exec, sc);
      if Validate(before.status, sc.status) == Nothing {
        TransitionTold(before, id, if made.None? then sc.timestamp else made.value, us, sc);
      }
    } else if Resets(c, id) && c.CreateJob? {
      NothingTold(id, c.job.value.createdAt);
    }
    hide Transition, Allowed;
  }

  lemma NothingTold(id: string, at: int)
    ensures Told(PendingState(id, at), id, at, [])
  {
  }

  lemma TransitionTold(e: ExecState, id: string, made: int, us: seq<StatusCommand>, c: StatusCommand)
    requires Told(e, id, made, us) && Validate(e.status, c.status) == Nothing
    ensures Told(Transition(e, c), id, made, us + [c])
  {
    var us' := us + [c];
    assert us'[..|us'| - 1] == us && us'[|us'| - 1] == c;
  }
}
