/**
 The status tracker's sweeps: each reads all execution states once and then
 commits one command per job that needs it, while other commands commit in between.
 */
module StatusTracker {
  import opened Sequences
  import opened Types
  import opened SlotTier
  import opened FsmSpec
  import opened FsmInvariants
  import opened FsmHistory
  import opened Pruning
  import opened Fsm

  predicate Overdue(e: ExecState, now: int, timeout: int) {
    e.status == InProgress && now - e.lastAttemptAt > timeout
  }

  /** A job is overdue if and only if the last update accepted in its present life is
      a start that lies more than the timeout back. */
  lemma OverdueIsOldStart(cold: Option<map<int, SlotData>>, log: seq<Entry>, id: string, now: int, timeout: int)
    requires id in Run(Initial(cold), log).exec
    ensures var us := History(Initial(cold), log, id);
      Overdue(Run(Initial(cold), log).exec[id], now, timeout) <==>
        us != [] && us[|us| - 1].status == InProgress && us[|us| - 1].timestamp + timeout < now
  {
    hide Run;
    StateIsHistory(cold, log, id);
  }

  function TimeOut(e: ExecState): ExecState {
    e.(status := Timeout, executingNodeId := "")
  }

  /** What a sweep with nothing in between leaves: the jobs of `ids` that are overdue
      have timed out; every other job is untouched. */
  function Swept(exec: map<string, ExecState>, ids: set<string>, now: int, timeout: int): map<string, ExecState> {
    map id | id in exec :: if id in ids && Overdue(exec[id], now, timeout) then TimeOut(exec[id]) else exec[id]
  }

  function Pruned(exec: map<string, ExecState>, ids: set<string>, cutoff: int): map<string, ExecState> {
    map id | id in exec :: if id in ids then exec[id].(attempts := Recent(exec[id].attempts, cutoff)) else exec[id]
  }

  function StatusCmd(id: string, status: JobStatus, now: int): StatusCommand {
    StatusCommand(id, status, "", None, now, "")
  }

  // ---------------------------------------------------------------- interleaving

  /** The log of a sweep: for each job in turn what others commit in the meantime,
      then the sweep's own command for the job, if it has one. */
  function Interleaved(order: seq<string>, own: map<string, Entry>, others: string -> seq<Entry>): seq<Entry> {
    if order == [] then []
    else
      var before, id := Interleaved(order[..|order| - 1], own, others), order[|order| - 1];
      before + others(id) + (if id in own then [own[id]] else [])
  }

  function TimeoutEntry(id: string, now: int): Entry {
    Entry(UpdateJobStatus(Some(StatusCmd(id, Timeout, now))), NO_FAULTS)
  }

  function PruneEntry(id: string, kept: seq<Attempt>, now: int): Entry {
    Entry(PruneAttempts(Some(StatusCmd(id, OtherStatus(""), now)), kept), NO_FAULTS)
  }

  /** The commands of a timeout sweep that read `exec`; `outcome` says what becomes of each commit. */
  function Timeouts(exec: map<string, ExecState>, now: int, timeout: int, outcome: string -> Outcome): map<string, Entry> {
    map id | id in exec && !outcome(id).Lost? && Overdue(exec[id], now, timeout) :: TimeoutEntry(id, now)
  }

  function Prunings(exec: map<string, ExecState>, cutoff: int, now: int, outcome: string -> Outcome): map<string, Entry> {
    map id | id in exec && !outcome(id).Lost? && |Recent(exec[id].attempts, cutoff)| < |exec[id].attempts| ::
      PruneEntry(id, Recent(exec[id].attempts, cutoff), now)
  }

  /** The sweep has a command for exactly the jobs with an attempt that began before
      the cutoff, but for those whose commit is lost. */
  lemma PruningsIff(exec: map<string, ExecState>, cutoff: int, now: int, outcome: string -> Outcome, id: string)
    ensures id in Prunings(exec, cutoff, now, outcome) <==>
      id in exec && !outcome(id).Lost? && exists i :: 0 <= i < |exec[id].attempts| && exec[id].attempts[i].startTime < cutoff
  {
    if id in exec {
      RecentAll(exec[id].attempts, cutoff);
    }
  }

  lemma NextInterleaved(s: State, order: seq<string>, own: map<string, Entry>, others: string -> seq<Entry>, id: string)
    ensures var s1 := Run(Run(s, Interleaved(order, own, others)), others(id));
      Run(s, Interleaved(order + [id], own, others)) == if id in own then Step(s1, own[id]) else s1
  {
    hide Step;
    var log, more := Interleaved(order, own, others), if id in own then [own[id]] else [];
    assert (order + [id])[..|order|] == order;
    RunAppend(s, log + others(id), more);
    RunAppend(s, log, others(id));
    if id in own {
      RunSnoc(Run(s, log + others(id)), [], own[id]);
      assert [] + [own[id]] == more;
    }
  }

  ghost function Ids(order: seq<string>): set<string> {
    set id | id in order
  }

  /** The jobs whose command takes effect. */
  ghost function Sent(ids: set<string>, outcome: string -> Outcome): set<string> {
    set id | id in ids && !outcome(id).Lost?
  }

  /** The jobs whose commit is reported as successful. */
  ghost function Reported(ids: set<string>, outcome: string -> Outcome): set<string> {
    set id | id in ids && outcome(id).Committed?
  }

  lemma OneMoreId(order: seq<string>, id: string)
    requires Distinct(order) && id !in Ids(order)
    ensures Distinct(order + [id]) && Ids(order + [id]) == Ids(order) + {id}
  {
  }

  /** The command says something about the job. */
  predicate Touches(c: Command, id: string) {
    match c
    case CreateJob(Some(j)) => j.id == id
    case DeleteJob(x) => x == id
    case UpdateJobStatus(Some(sc)) => sc.jobId == id
    case RecordAttempt(Some(sc)) => sc.jobId == id
    case PruneAttempts(Some(sc), _) => sc.jobId == id
    case _ => false
  }

  lemma Unaffected(s: State, e: Entry, id: string)
    requires !Touches(e.command, id)
    ensures Lookup(Step(s, e).exec, id) == Lookup(s.exec, id)
  {
  }

  lemma {:induction false} AllUnaffected(s: State, log: seq<Entry>, id: string)
    requires forall i :: 0 <= i < |log| ==> !Touches(log[i].command, id)
    ensures Lookup(Run(s, log).exec, id) == Lookup(s.exec, id)
    decreases |log|
  {
    if log != [] {
      Unaffected(s, log[0], id);
      AllUnaffected(Step(s, log[0]), log[1..], id);
    }
  }

  /** No other command in the course of the sweep is about the job. */
  ghost predicate LeftAlone(order: seq<string>, others: string -> seq<Entry>, id: string) {
    forall x, i :: x in order && 0 <= i < |others(x)| ==> !Touches(others(x)[i].command, id)
  }

  ghost predicate OwnOnly(own: map<string, Entry>) {
    forall x, id :: x in own && id != x ==> !Touches(own[x].command, id)
  }

  /** A job nobody else touches ends as the sweep's own command leaves it, whatever
      happens to the others. */
  lemma {:induction false} SweptAlone(s: State, order: seq<string>, own: map<string, Entry>, others: string -> seq<Entry>,
                                      id: string, after: Option<ExecState>)
    requires Distinct(order) && OwnOnly(own) && LeftAlone(order, others, id)
    requires id in own ==> forall s1: State :: Lookup(s1.exec, id) == Lookup(s.exec, id) ==> Lookup(Step(s1, own[id]).exec, id) == after
    ensures Lookup(Run(s, Interleaved(order, own, others)).exec, id) == if id in order && id in own then after else Lookup(s.exec, id)
    decreases |order|
  {
    hide Step, Touches;
    if order != [] {
      var rest, x := order[..|order| - 1], order[|order| - 1];
      assert order == rest + [x];
      SweptAlone(s, rest, own, others, id, after);
      NextInterleaved(s, rest, own, others, x);
      var s0 := Run(s, Interleaved(rest, own, others));
      AllUnaffected(s0, others(x), id);
      if x in own && x != id {
        Unaffected(Run(s0, others(x)), own[x], id);
      }
    }
  }

  // ---------------------------------------------------------------- timeouts

  /** What one timeout command does: it takes effect exactly when the job is in
      progress at that moment, whatever the sweep had read. */
  lemma TimeoutCommit(s: State, id: string, now: int)
    ensures var s' := Step(s, TimeoutEntry(id, now));
      s' == s.(exec := if id in s.exec && s.exec[id].status == InProgress then s.exec[id := TimeOut(s.exec[id])]
                       else if id in s.exec then s.exec else s.exec[id := PendingState(id, now)])
  {
    var s' := Step(s, TimeoutEntry(id, now));
    if id in s.exec && s.exec[id].status != InProgress {
      assert s.exec[id := s.exec[id]] == s.exec;
    }
  }

  /** A job that nobody else touches during the sweep is timed out if and only if it
      was overdue and its command commits. */
  lemma TimedOutAlone(s: State, order: seq<string>, others: string -> seq<Entry>, now: int, timeout: int, outcome: string -> Outcome, id: string)
    requires Distinct(order) && id in order && id in s.exec && LeftAlone(order, others, id)
    ensures Lookup(Run(s, Interleaved(order, Timeouts(s.exec, now, timeout, outcome), others)).exec, id)
         == Some(if Overdue(s.exec[id], now, timeout) && !outcome(id).Lost? then TimeOut(s.exec[id]) else s.exec[id])
  {
    var own := Timeouts(s.exec, now, timeout, outcome);
    var after := Some(TimeOut(s.exec[id]));
    if id in own {
      forall s1: State | Lookup(s1.exec, id) == Lookup(s.exec, id) ensures Lookup(Step(s1, own[id]).exec, id) == after {
        TimeoutCommit(s1, id, now);
      }
    }
    SweptAlone(s, order, own, others, id, after);
  }

  /** With nothing in between the sweep times out exactly the overdue jobs. */
  lemma {:induction false} QuietTimeouts(s: State, order: seq<string>, others: string -> seq<Entry>, now: int, timeout: int, outcome: string -> Outcome)
    requires Distinct(order) && (forall x :: x in order ==> x in s.exec) && forall x :: others(x) == []
    ensures Run(s, Interleaved(order, Timeouts(s.exec, now, timeout, outcome), others))
         == s.(exec := Swept(s.exec, Sent(Ids(order), outcome), now, timeout))
    decreases |order|
  {
    hide Step, Overdue, Swept;
    var own := Timeouts(s.exec, now, timeout, outcome);
    if order == [] {
      NothingSwept(s, now, timeout, outcome);
    } else {
      var rest, x := order[..|order| - 1], order[|order| - 1];
      assert order == rest + [x];
      QuietTimeouts(s, rest, others, now, timeout, outcome);
      NextInterleaved(s, rest, own, others, x);
      RunNothing(s.(exec := Swept(s.exec, Sent(Ids(rest), outcome), now, timeout)));
      OneMoreId(rest, x);
      QuietTimeout(s, Ids(rest), x, now, timeout, outcome);
    }
  }

  lemma NothingSwept(s: State, now: int, timeout: int, outcome: string -> Outcome)
    ensures Sent(Ids([]), outcome) == {} && s.(exec := Swept(s.exec, {}, now, timeout)) == s
  {
    assert Swept(s.exec, {}, now, timeout) == s.exec;
  }

  lemma QuietTimeout(s: State, done: set<string>, x: string, now: int, timeout: int, outcome: string -> Outcome)
    requires x in s.exec && x !in done
    ensures var s0 := s.(exec := Swept(s.exec, Sent(done, outcome), now, timeout));
      s.(exec := Swept(s.exec, Sent(done + {x}, outcome), now, timeout))
        == if x in Timeouts(s.exec, now, timeout, outcome) then Step(s0, TimeoutEntry(x, now)) else s0
  {
    hide Step;
    var s0 := s.(exec := Swept(s.exec, Sent(done, outcome), now, timeout));
    TimeoutCommit(s0, x, now);
    var s1 := if x in Timeouts(s.exec, now, timeout, outcome) then Step(s0, TimeoutEntry(x, now)) else s0;
    assert s1.exec == Swept(s.exec, Sent(done + {x}, outcome), now, timeout);
  }

  /** What is committed after the sweep's read and before its command for `id`. */
  function Between(before: seq<string>, id: string, own: map<string, Entry>, others: string -> seq<Entry>): seq<Entry> {
    Interleaved(before, own, others) + others(id)
  }

  /** With one worker, which is busy with the sweep, the only status change anyone
      else commits for the job is a cancel. */
  predicate OnlyCancels(log: seq<Entry>, id: string) {
    forall i :: 0 <= i < |log| && IsUpdate(log[i].command, id) ==> log[i].command.status.value.status == Cancelled
  }

  /** The job was cancelled, created or deleted. */
  predicate Disturbed(log: seq<Entry>, id: string) {
    exists i :: 0 <= i < |log| && (IsUpdate(log[i].command, id) || Resets(log[i].command, id))
  }

  /** The job was deleted, and neither created nor cancelled since. */
  predicate Gone(log: seq<Entry>, id: string) {
    if log == [] then false
    else
      var last := log[|log| - 1].command;
      if last.DeleteJob? && Resets(last, id) then true
      else if IsUpdate(last, id) || Resets(last, id) then false
      else Gone(log[..|log| - 1], id)
  }

  /** Where a job in progress can be after others had their say. */
  lemma {:induction false} StandsAfter(s: State, log: seq<Entry>, id: string)
    requires id in s.exec && s.exec[id].status == InProgress && OnlyCancels(log, id)
    ensures id !in Run(s, log).exec <==> Gone(log, id)
    ensures !Disturbed(log, id) ==> id in Run(s, log).exec && Run(s, log).exec[id].status == InProgress
    ensures Disturbed(log, id) && id in Run(s, log).exec ==> Run(s, log).exec[id].status in {Pending, Cancelled}
    decreases |log|
  {
    hide Run, Step;
    if log == [] {
      RunNothing(s);
    } else {
      var before, last := log[..|log| - 1], log[|log| - 1];
      assert log == before + [last];
      OnlyCancelsSplit(before, last, id);
      StandsAfter(s, before, id);
      RunSnoc(s, before, last);
      OneStands(Run(s, before), last, id);
      DisturbedSplit(before, last, id);
      hide OnlyCancels, Disturbed, IsUpdate, Resets;
    }
  }

  lemma OnlyCancelsSplit(before: seq<Entry>, last: Entry, id: string)
    requires OnlyCancels(before + [last], id)
    ensures OnlyCancels(before, id) && (IsUpdate(last.command, id) ==> last.command.status.value.status == Cancelled)
  {
    var log := before + [last];
    assert log[|before|] == last;
    forall i | 0 <= i < |before| && IsUpdate(before[i].command, id) ensures before[i].command.status.value.status == Cancelled {
      assert log[i] == before[i];
    }
  }

  lemma DisturbedSplit(before: seq<Entry>, last: Entry, id: string)
    ensures Disturbed(before + [last], id) <==> Disturbed(before, id) || IsUpdate(last.command, id) || Resets(last.command, id)
  {
    var log := before + [last];
    assert log[|before|] == last;
    if i :| 0 <= i < |before| && (IsUpdate(before[i].command, id) || Resets(before[i].command, id)) {
      assert log[i] == before[i];
    }
  }

  lemma OneStands(s: State, e: Entry, id: string)
    ensures var s' := Step(s, e);
      && (!IsUpdate(e.command, id) && !Resets(e.command, id) ==>
            (id in s'.exec <==> id in s.exec) && (id in s.exec ==> s'.exec[id].status == s.exec[id].status))
      && (e.command.DeleteJob? && Resets(e.command, id) ==> id !in s'.exec)
      && (e.command.CreateJob? && Resets(e.command, id) ==> id in s'.exec && s'.exec[id].status == Pending)
      && (IsUpdate(e.command, id) && e.command.status.value.status == Cancelled ==>
            id in s'.exec && (id in s.exec && s.exec[id].status !in {Pending, InProgress} ==> s'.exec[id].status == s.exec[id].status)
            && ((id in s.exec && s.exec[id].status !in {Pending, InProgress}) || s'.exec[id].status == Cancelled))
  {
  }

  /** An overdue job is timed out by the sweep if and only if nobody cancelled,
      created or deleted it after the read; the sweep leaves a pending state for a
      job that is gone if and only if it was deleted and not brought back. */
  lemma TimeoutTakesIff(s: State, before: seq<string>, others: string -> seq<Entry>, now: int, timeout: int,
                        outcome: string -> Outcome, id: string)
    requires id in s.exec && Overdue(s.exec[id], now, timeout) && !outcome(id).Lost?
    requires OnlyCancels(Between(before, id, Timeouts(s.exec, now, timeout, outcome), others), id)
    ensures var own := Timeouts(s.exec, now, timeout, outcome); var log := Between(before, id, own, others);
      var s' := Run(s, Interleaved(before + [id], own, others));
      && id in s'.exec
      && (s'.exec[id].status == Timeout <==> !Disturbed(log, id))
      && (id !in Run(s, log).exec <==> Gone(log, id)) && (Gone(log, id) ==> s'.exec[id] == PendingState(id, now))
      && (Gone(log, id) && StateInv(s) ==> id !in s'.jobs)
  {
    hide Step, StateInv;
    var own := Timeouts(s.exec, now, timeout, outcome);
    var log := Between(before, id, own, others);
    RunAppend(s, Interleaved(before, own, others), others(id));
    NextInterleaved(s, before, own, others, id);
    StandsAfter(s, log, id);
    TimeoutCommit(Run(s, log), id, now);
    if StateInv(s) {
      JobsHaveStates(s, log, id);
    }
  }

  lemma JobsHaveStates(s: State, log: seq<Entry>, id: string)
    requires StateInv(s)
    ensures id in Run(s, log).jobs ==> id in Run(s, log).exec
  {
    EveryLogKeepsInv(s, log);
  }

  /** Two races: a job cancelled after the read is listed as timed out although it
      stays cancelled, and one that is deleted leaves a pending state without a job. */
  lemma CancelledIsListed(s: State, id: string, cancel: StatusCommand, now: int, timeout: int)
    requires id in s.exec && Overdue(s.exec[id], now, timeout) && cancel.jobId == id && cancel.status == Cancelled
    ensures var own := Timeouts(s.exec, now, timeout, _ => Committed);
      var s' := Run(s, Interleaved([id], own, _ => [Entry(UpdateJobStatus(Some(cancel)), NO_FAULTS)]));
      id in own && id in s'.exec && s'.exec[id].status == Cancelled
  {
    var own, e := Timeouts(s.exec, now, timeout, _ => Committed), Entry(UpdateJobStatus(Some(cancel)), NO_FAULTS);
    var others := (x: string) => [e];
    OneOther(s, own, others, id, e);
    TimeoutCommit(Step(s, e), id, now);
  }

  lemma DeletedLeavesState(s: State, id: string, now: int, timeout: int)
    requires id in s.exec && Overdue(s.exec[id], now, timeout) && id != ""
    ensures var own := Timeouts(s.exec, now, timeout, _ => Committed);
      var s' := Run(s, Interleaved([id], own, _ => [Entry(DeleteJob(id), NO_FAULTS)]));
      id !in s'.jobs && id in s'.exec && s'.exec[id] == PendingState(id, now)
  {
    var own, e := Timeouts(s.exec, now, timeout, _ => Committed), Entry(DeleteJob(id), NO_FAULTS);
    var others := (x: string) => [e];
    OneOther(s, own, others, id, e);
    TimeoutCommit(Step(s, e), id, now);
  }

  lemma OneOther(s: State, own: map<string, Entry>, others: string -> seq<Entry>, id: string, e: Entry)
    requires id in own && others(id) == [e]
    ensures Run(s, Interleaved([id], own, others)) == Step(Step(s, e), own[id])
  {
    hide Step;
    NextInterleaved(s, [], own, others, id);
    assert [] + [id] == [id] && [] + [e] == [e];
    RunSnoc(s, [], e);
  }

  // ---------------------------------------------------------------- pruning

  lemma PruneCommit(s: State, id: string, kept: seq<Attempt>, now: int)
    ensures Step(s, PruneEntry(id, kept, now))
         == s.(exec := if id in s.exec then s.exec[id := s.exec[id].(attempts := kept)] else s.exec)
  {
  }

  /** A job that nobody else touches during the sweep keeps exactly its recent
      attempts, if its command commits. */
  lemma PrunedAlone(s: State, order: seq<string>, others: string -> seq<Entry>, cutoff: int, now: int, outcome: string -> Outcome, id: string)
    requires Distinct(order) && id in order && id in s.exec && LeftAlone(order, others, id)
    ensures Lookup(Run(s, Interleaved(order, Prunings(s.exec, cutoff, now, outcome), others)).exec, id)
         == Some(if outcome(id).Lost? then s.exec[id] else s.exec[id].(attempts := Recent(s.exec[id].attempts, cutoff)))
  {
    var own := Prunings(s.exec, cutoff, now, outcome);
    var after := Some(s.exec[id].(attempts := Recent(s.exec[id].attempts, cutoff)));
    RecentKeepsExactly(s.exec[id].attempts, cutoff);
    if id in own {
      forall s1: State | Lookup(s1.exec, id) == Lookup(s.exec, id) ensures Lookup(Step(s1, own[id]).exec, id) == after {
        PruneCommit(s1, id, Recent(s.exec[id].attempts, cutoff), now);
      }
    }
    SweptAlone(s, order, own, others, id, after);
  }

  /** With nothing in between the sweep cuts every job's attempts to the recent ones. */
  lemma {:induction false} QuietPrunings(s: State, order: seq<string>, others: string -> seq<Entry>, cutoff: int, now: int, outcome: string -> Outcome)
    requires Distinct(order) && (forall x :: x in order ==> x in s.exec) && forall x :: others(x) == []
    ensures Run(s, Interleaved(order, Prunings(s.exec, cutoff, now, outcome), others))
         == s.(exec := Pruned(s.exec, Sent(Ids(order), outcome), cutoff))
    decreases |order|
  {
    hide Step, Pruned;
    var own := Prunings(s.exec, cutoff, now, outcome);
    if order == [] {
      assert Sent(Ids(order), outcome) == {};
      NothingPruned(s, cutoff);
    } else {
      var rest, x := order[..|order| - 1], order[|order| - 1];
      assert order == rest + [x];
      QuietPrunings(s, rest, others, cutoff, now, outcome);
      NextInterleaved(s, rest, own, others, x);
      RunNothing(s.(exec := Pruned(s.exec, Sent(Ids(rest), outcome), cutoff)));
      OneMoreId(rest, x);
      QuietPruning(s, Ids(rest), x, cutoff, now, outcome);
    }
  }

  lemma NothingPruned(s: State, cutoff: int)
    ensures s.(exec := Pruned(s.exec, {}, cutoff)) == s
  {
    assert Pruned(s.exec, {}, cutoff) == s.exec;
  }

  lemma QuietPruning(s: State, done: set<string>, x: string, cutoff: int, now: int, outcome: string -> Outcome)
    requires x in s.exec && x !in done
    ensures var s0, own := s.(exec := Pruned(s.exec, Sent(done, outcome), cutoff)), Prunings(s.exec, cutoff, now, outcome);
      s.(exec := Pruned(s.exec, Sent(done + {x}, outcome), cutoff)) == if x in own then Step(s0, own[x]) else s0
  {
    hide Step, Recent;
    var s0, own := s.(exec := Pruned(s.exec, Sent(done, outcome), cutoff)), Prunings(s.exec, cutoff, now, outcome);
    NoneOld(s.exec[x].attempts, cutoff);
    PruneCommit(s0, x, Recent(s.exec[x].attempts, cutoff), now);
    var s1 := if x in own then Step(s0, own[x]) else s0;
    assert s1.exec == Pruned(s.exec, Sent(done + {x}, outcome), cutoff);
  }

  /** The attempts recorded for the job. */
  function Records(log: seq<Entry>, id: string): seq<Attempt> {
    if log == [] then [] else Records(log[..|log| - 1], id) + RecordOf(log[|log| - 1].command, id)
  }

  function RecordOf(c: Command, id: string): seq<Attempt> {
    if c.RecordAttempt? && c.status.Some? && c.status.value.jobId == id && c.status.value.attempt.Some?
    then [c.status.value.attempt.value] else []
  }

  /** Nobody creates, deletes or prunes the job. */
  predicate Steady(log: seq<Entry>, id: string) {
    forall i :: 0 <= i < |log| ==> SteadyStep(log[i].command, id)
  }

  predicate SteadyStep(c: Command, id: string) {
    !Resets(c, id) && !(c.PruneAttempts? && c.status.Some? && c.status.value.jobId == id)
  }

  lemma {:induction false} AttemptsGrow(s: State, log: seq<Entry>, id: string)
    requires id in s.exec && Steady(log, id)
    ensures id in Run(s, log).exec && Run(s, log).exec[id].attempts == s.exec[id].attempts + Records(log, id)
    decreases |log|
  {
    if log != [] {
      var before, last := log[..|log| - 1], log[|log| - 1];
      assert log == before + [last];
      AttemptsGrow(s, before, id);
      RunSnoc(s, before, last);
      OneGrows(Run(s, before), last, id);
    }
  }

  lemma OneGrows(s: State, e: Entry, id: string)
    requires id in s.exec && SteadyStep(e.command, id)
    ensures id in Step(s, e).exec && Step(s, e).exec[id].attempts == s.exec[id].attempts + RecordOf(e.command, id)
  {
  }

  /** When nobody creates, deletes or prunes the job meanwhile, it ends with exactly
      the recent attempts it had at the commit if and only if no recent one was
      recorded after the read. */
  lemma PruneExactIff(s: State, before: seq<string>, others: string -> seq<Entry>, cutoff: int, now: int,
                      outcome: string -> Outcome, id: string)
    requires id in Prunings(s.exec, cutoff, now, outcome)
    requires Steady(Between(before, id, Prunings(s.exec, cutoff, now, outcome), others), id)
    ensures var own := Prunings(s.exec, cutoff, now, outcome); var log := Between(before, id, own, others);
      var s1, s' := Run(s, log), Run(s, Interleaved(before + [id], own, others));
      && id in s1.exec && id in s'.exec && s' == s1.(exec := s1.exec[id := s'.exec[id]])
      && (s'.exec[id] == s1.exec[id].(attempts := Recent(s1.exec[id].attempts, cutoff)) <==>
            forall i :: 0 <= i < |Records(log, id)| ==> Records(log, id)[i].startTime < cutoff)
  {
    hide Step;
    var own := Prunings(s.exec, cutoff, now, outcome);
    var log := Between(before, id, own, others);
    AttemptsGrow(s, log, id);
    RecentNone(Records(log, id), cutoff);
    RecentJoin(s.exec[id].attempts, Records(log, id), cutoff);
    PruneTurn(s, before, others, cutoff, now, outcome, id);
    var kept, extra := Recent(s.exec[id].attempts, cutoff), Recent(Records(log, id), cutoff);
    assert kept == kept + extra <==> extra == [] by {
      assert |kept + extra| == |kept| + |extra|;
    }
  }

  /** What the sweep writes at the turn of a job, and that it writes nothing for a job that is gone. */
  lemma PruneTurn(s: State, before: seq<string>, others: string -> seq<Entry>, cutoff: int, now: int,
                  outcome: string -> Outcome, id: string)
    requires id in Prunings(s.exec, cutoff, now, outcome)
    ensures var own := Prunings(s.exec, cutoff, now, outcome);
      var s1, s' := Run(s, Between(before, id, own, others)), Run(s, Interleaved(before + [id], own, others));
      s' == if id in s1.exec then s1.(exec := s1.exec[id := s1.exec[id].(attempts := Recent(s.exec[id].attempts, cutoff))]) else s1
  {
    hide Step, Recent;
    var own := Prunings(s.exec, cutoff, now, outcome);
    RunAppend(s, Interleaved(before, own, others), others(id));
    NextInterleaved(s, before, own, others, id);
    PruneCommit(Run(s, Between(before, id, own, others)), id, Recent(s.exec[id].attempts, cutoff), now);
  }

  /** When the job is created again meanwhile, for the last time by `birth`, the new
      job ends with exactly its own recent attempts if and only if those are what
      the sweep had kept of the old one; with none recorded since, if and only if
      the sweep had kept nothing. */
  lemma PruneNewLifeIff(s: State, before: seq<string>, others: string -> seq<Entry>, cutoff: int, now: int,
                        outcome: string -> Outcome, id: string, earlier: seq<Entry>, birth: Entry, later: seq<Entry>)
    requires id in Prunings(s.exec, cutoff, now, outcome)
    requires Between(before, id, Prunings(s.exec, cutoff, now, outcome), others) == earlier + [birth] + later
    requires birth.command.CreateJob? && Resets(birth.command, id) && Steady(later, id)
    ensures var own := Prunings(s.exec, cutoff, now, outcome);
      var s1, s' := Run(s, earlier + [birth] + later), Run(s, Interleaved(before + [id], own, others));
      && id in s1.exec && id in s'.exec && s1.exec[id].attempts == Records(later, id)
      && (s'.exec[id].attempts == Recent(s1.exec[id].attempts, cutoff) <==>
            Recent(Records(later, id), cutoff) == Recent(s.exec[id].attempts, cutoff))
      && (Records(later, id) == [] ==>
            (s'.exec[id].attempts == [] <==> forall i :: 0 <= i < |s.exec[id].attempts| ==> s.exec[id].attempts[i].startTime < cutoff))
  {
    hide Step, Recent;
    PruneTurn(s, before, others, cutoff, now, outcome, id);
    RunAppend(s, earlier + [birth], later);
    RunSnoc(s, earlier, birth);
    NewBorn(Run(s, earlier), birth, id);
    AttemptsGrow(Step(Run(s, earlier), birth), later, id);
    RecentNone(s.exec[id].attempts, cutoff);
    assert [] + Records(later, id) == Records(later, id);
  }

  lemma NewBorn(s: State, birth: Entry, id: string)
    requires birth.command.CreateJob? && Resets(birth.command, id)
    ensures id in Step(s, birth).exec && Step(s, birth).exec[id].attempts == []
  {
  }

  /** The race at its smallest: an attempt recorded after the read is dropped. */
  lemma RecordedMeanwhileIsLost(s: State, id: string, sc: StatusCommand, cutoff: int, now: int)
    requires id in s.exec && |Recent(s.exec[id].attempts, cutoff)| < |s.exec[id].attempts|
    requires sc.jobId == id && sc.attempt.Some?
    ensures var s' := Run(s, Interleaved([id], Prunings(s.exec, cutoff, now, _ => Committed), _ => [Entry(RecordAttempt(Some(sc)), NO_FAULTS)]));
      id in s'.exec && s'.exec[id].attempts == Recent(s.exec[id].attempts, cutoff)
  {
    var own, e := Prunings(s.exec, cutoff, now, _ => Committed), Entry(RecordAttempt(Some(sc)), NO_FAULTS);
    var others := (x: string) => [e];
    OneOther(s, own, others, id, e);
    PruneCommit(Step(s, e), id, Recent(s.exec[id].attempts, cutoff), now);
  }

  // ---------------------------------------------------------------- the tracker

  class StatusTracker {
    const fsm: FSM

    constructor (fsm: FSM)
      ensures this.fsm == fsm
    {
      this.fsm := fsm;
    }

    /** Commits a timeout for exactly the jobs that were overdue when it read them,
        and names each of them once whose commit is reported; only a leader may do so.  `others` are the
        commands that commit before the turn of each job. */
    method CheckTimeouts(leader: bool, now: int, timeout: int, outcome: string -> Outcome, others: string -> seq<Entry>)
      returns (timedOut: Option<seq<string>>, ghost order: seq<string>)
      requires fsm.Valid()
      modifies fsm.Repr()
      ensures fsm.Valid() && fresh(fsm.Repr() - old(fsm.Repr()))
      ensures timedOut.Some? <==> leader
      ensures !leader ==> fsm.View() == old(fsm.View())
      ensures leader ==>
        && Distinct(order) && Ids(order) == old(fsm.View()).exec.Keys
        && fsm.View() == Run(old(fsm.View()), Interleaved(order, Timeouts(old(fsm.View()).exec, now, timeout, outcome), others))
        && Distinct(timedOut.value)
        && (forall id :: id in timedOut.value <==>
              id in old(fsm.View()).exec && Overdue(old(fsm.View()).exec[id], now, timeout) && outcome(id).Committed?)
    {
      hide Apply, Injective, Values, Run, Step, Interleaved, Timeouts, Overdue, Distinct, Ids;
      order := [];
      if !leader {
        return None, [];
      }
      ghost var s := fsm.View();
      var allStates := Values(fsm.executionStates);
      var remaining, listed := allStates.Keys, [];
      ghost var own := Timeouts(allStates, now, timeout, outcome);
      NoIds(s, own, others);
      TimeoutKeys(allStates, now, timeout, outcome);
      while remaining != {}
        invariant remaining <= allStates.Keys
        invariant fsm.Valid() && fresh(fsm.Repr() - old(fsm.Repr()))
        invariant Distinct(order) && Ids(order) == allStates.Keys - remaining
        invariant fsm.View() == Run(s, Interleaved(order, own, others))
        invariant Distinct(listed) && Ids(listed) == Reported(own.Keys, outcome) - remaining
        decreases remaining
      {
        SomeId(remaining);
        var id :| id in remaining;
        OneMoreId(order, id);
        OneMoreId(listed, id);
        NextInterleaved(s, order, own, others, id);
        var due := Overdue(allStates[id], now, timeout) && !outcome(id).Lost?;
        Turn(others(id), if due then Some(TimeoutEntry(id, now)) else None);
        if due && outcome(id).Committed? {
          listed := listed + [id];
        }
        order := order + [id];
        remaining := remaining - {id};
      }
      timedOut := Some(listed);
      ReportedIs(allStates, now, timeout, outcome, listed);
    }

    /** What others commit, and then the sweep's own command if there is one. */
    method Turn(others: seq<Entry>, own: Option<Entry>)
      requires fsm.Valid()
      modifies fsm.Repr()
      ensures fsm.Valid() && fresh(fsm.Repr() - old(fsm.Repr()))
      ensures fsm.View() == if own.Some? then Step(Run(old(fsm.View()), others), own.value) else Run(old(fsm.View()), others)
    {
      hide Apply, Injective, Values, Run;
      ApplyAll(fsm, others);
      if own.Some? {
        var answer := fsm.ApplyCommand(own.value.command, own.value.faults);
      }
    }

    /** Commits, for every job with an old attempt, the attempts that were recent
        when it read them. */
    method PruneOldAttempts(leader: bool, now: int, cutoff: int, outcome: string -> Outcome, others: string -> seq<Entry>)
      returns (ok: bool, ghost order: seq<string>)
      requires fsm.Valid()
      modifies fsm.Repr()
      ensures fsm.Valid() && fresh(fsm.Repr() - old(fsm.Repr()))
      ensures ok <==> leader
      ensures !leader ==> fsm.View() == old(fsm.View())
      ensures leader ==>
        && Distinct(order) && Ids(order) == old(fsm.View()).exec.Keys
        && fsm.View() == Run(old(fsm.View()), Interleaved(order, Prunings(old(fsm.View()).exec, cutoff, now, outcome), others))
    {
      hide Apply, Injective, Values, Run, Step, Recent, Interleaved, Prunings, Distinct, Ids;
      order := [];
      if !leader {
        return false, [];
      }
      ok := true;
      ghost var s := fsm.View();
      var allStates := Values(fsm.executionStates);
      var remaining := allStates.Keys;
      ghost var own := Prunings(allStates, cutoff, now, outcome);
      NoIds(s, own, others);
      while remaining != {}
        invariant remaining <= allStates.Keys
        invariant fsm.Valid() && fresh(fsm.Repr() - old(fsm.Repr()))
        invariant Distinct(order) && Ids(order) == allStates.Keys - remaining
        invariant fsm.View() == Run(s, Interleaved(order, own, others))
        decreases remaining
      {
        SomeId(remaining);
        var id :| id in remaining;
        OneMoreId(order, id);
        NextInterleaved(s, order, own, others, id);
        PruningOf(allStates, cutoff, now, outcome, id);
        var kept, prunedCount := KeepRecent(allStates[id].attempts, cutoff);
        Turn(others(id), if prunedCount > 0 && !outcome(id).Lost? then Some(PruneEntry(id, kept, now)) else None);
        order := order + [id];
        remaining := remaining - {id};
      }
    }

    static method KeepRecent(attempts: seq<Attempt>, cutoff: int) returns (kept: seq<Attempt>, prunedCount: int)
      ensures kept == Recent(attempts, cutoff) && prunedCount == |attempts| - |kept|
    {
      kept, prunedCount := [], 0;
      for i := 0 to |attempts|
        invariant kept == Recent(attempts[..i], cutoff) && prunedCount == i - |kept|
      {
        assert attempts[..i + 1][..i] == attempts[..i];
        if attempts[i].startTime >= cutoff {
          kept := kept + [attempts[i]];
        } else {
          prunedCount := prunedCount + 1;
        }
      }
      assert attempts[..|attempts|] == attempts;
    }
  }

  lemma RunNothing(s: State)
    ensures Run(s, []) == s
  {
  }

  lemma NoIds(s: State, own: map<string, Entry>, others: string -> seq<Entry>)
    ensures Distinct<string>([]) && Ids([]) == {} && Run(s, Interleaved([], own, others)) == s
  {
  }

  lemma ReportedIs(exec: map<string, ExecState>, now: int, timeout: int, outcome: string -> Outcome, listed: seq<string>)
    requires Ids(listed) == Reported(Timeouts(exec, now, timeout, outcome).Keys, outcome)
    ensures forall id :: id in listed <==> id in exec && Overdue(exec[id], now, timeout) && outcome(id).Committed?
  {
    hide Overdue;
    forall id ensures id in listed <==> id in exec && Overdue(exec[id], now, timeout) && outcome(id).Committed? {
      assert id in listed <==> id in Ids(listed);
    }
  }

  lemma TimeoutKeys(exec: map<string, ExecState>, now: int, timeout: int, outcome: string -> Outcome)
    ensures var own := Timeouts(exec, now, timeout, outcome);
      && own.Keys <= exec.Keys
      && forall id :: id in exec ==> (id in own <==> Overdue(exec[id], now, timeout) && !outcome(id).Lost?) && (id in own ==> own[id] == TimeoutEntry(id, now))
  {
  }

  lemma PruningOf(exec: map<string, ExecState>, cutoff: int, now: int, outcome: string -> Outcome, id: string)
    requires id in exec
    ensures var own, kept := Prunings(exec, cutoff, now, outcome), Recent(exec[id].attempts, cutoff);
      && (id in own <==> |kept| < |exec[id].attempts| && !outcome(id).Lost?) && (id in own ==> own[id] == PruneEntry(id, kept, now))
  {
  }
}
