/**
 What an execution does, read off the actions of a run: which step follows which,
 what a returned call leads to, and when a job is called again.
 */
module ExecutionTrace {
  import opened Types
  import opened SlotTier
  import opened FsmSpec
  import opened Pruning
  import opened Execution

  // ---------------------------------------------------------------- the worker's steps in a run

  predicate IsWorker(a: Action) {
    a.Check? || a.Number? || a.Mark? || a.Call? || a.Return? || a.Decide? || a.Record? || a.Close?
  }

  /** The worker's last action, `last` being the one before the run. */
  function LastStep(run: seq<Action>, last: Option<Action>): Option<Action> {
    if run == [] then last else LastStep(run[1..], if IsWorker(run[0]) then Some(run[0]) else last)
  }

  /** What the last webhook call returned. */
  function LastOk(run: seq<Action>, ok: Option<bool>): Option<bool> {
    if run == [] then ok else LastOk(run[1..], if run[0].Return? then Some(run[0].ok) else ok)
  }

  /** Whether the job was cancelled when the worker last looked. */
  ghost function SawCancel(max: int, w: World, run: seq<Action>, saw: bool): bool
    requires AllEnabled(max, w, run)
    decreases |run|
  {
    if run == [] then saw
    else SawCancel(max, Do(max, w, run[0]), run[1..], if run[0].Decide? then IsCancelled(w.exec) else saw)
  }

  predicate Tracks(pc: Pc, last: Option<Action>, ok: Option<bool>, saw: bool) {
    match pc
    case Idle => last.None? || Ends(last.value, ok, saw)
    case Admitted => last == Some(Check)
    case Numbered(_, _) => last == Some(Number)
    case Marked(_, _) => last.Some? && last.value.Mark? && last.value.outcome.Committed?
    case Calling(_) => last == Some(Call)
    case Returned(_, b) => last == Some(Return(b)) && ok == Some(b)
    case Recording(_, b) => last == Some(Decide) && ok == Some(b) && !saw
    case RecordingCancelled(_) => last == Some(Decide) && ok == Some(true) && saw
    case Closing(_, b) => last.Some? && last.value.Record? && last.value.outcome.Committed? && ok == Some(b) && !saw
  }

  /** The execution is over after this action. */
  predicate Ends(a: Action, ok: Option<bool>, saw: bool) {
    match a
    case Mark(_, o) => !o.Committed?
    case Call => false
    case Return(_) => false
    case Decide => saw && ok == Some(false)
    case Record(_, o) => saw || !o.Committed?
    case _ => true
  }

  lemma TrackStep(max: int, w: World, a: Action, last: Option<Action>, ok: Option<bool>, saw: bool)
    requires Tracks(w.pc, last, ok, saw) && Enabled(w, a)
    ensures Tracks(Do(max, w, a).pc, if IsWorker(a) then Some(a) else last, if a.Return? then Some(a.ok) else ok,
                   if a.Decide? then IsCancelled(w.exec) else saw)
  {
    hide Written, Commit, Append, Rewrite;
  }

  lemma {:induction false} Tracked(max: int, w: World, run: seq<Action>, last: Option<Action>, ok: Option<bool>, saw: bool)
    requires Tracks(w.pc, last, ok, saw) && AllEnabled(max, w, run)
    ensures Tracks(Outcomes(max, w, run).pc, LastStep(run, last), LastOk(run, ok), SawCancel(max, w, run, saw))
    decreases |run|
  {
    hide Do, Enabled, Tracks;
    if run != [] {
      TrackStep(max, w, run[0], last, ok, saw);
      Tracked(max, Do(max, w, run[0]), run[1..], if IsWorker(run[0]) then Some(run[0]) else last,
              if run[0].Return? then Some(run[0].ok) else ok, if run[0].Decide? then IsCancelled(w.exec) else saw);
    }
  }

  /** Which step can follow, after any run that began with an idle worker: a call
      exactly after a mark reported as committed; a record exactly after the worker
      looked, unless it saw a cancel and the call had failed; a close exactly after
      a record reported as committed, if no cancel was seen, and it closes as
      completed exactly when the call had returned ok. */
  lemma WorkerGoesOn(max: int, w: World, run: seq<Action>)
    requires w.pc.Idle? && AllEnabled(max, w, run)
    ensures var w', last, ok, saw := Outcomes(max, w, run), LastStep(run, None), LastOk(run, None), SawCancel(max, w, run, false);
      && (Enabled(w', Call) <==> last.Some? && last.value.Mark? && last.value.outcome.Committed?)
      && (forall b :: Enabled(w', Return(b)) <==> last == Some(Call))
      && (Enabled(w', Decide) <==> last.Some? && last.value.Return?)
      && (forall t, o :: Enabled(w', Record(t, o)) <==> last == Some(Decide) && !(saw && ok == Some(false)))
      && (forall c, o :: Enabled(w', Close(c, o)) <==>
            && last.Some? && last.value.Record? && last.value.outcome.Committed? && !saw
            && c.jobId == JOB && c.status == if ok == Some(true) then Completed else Failed)
      && (Enabled(w', Number) ==> last == Some(Check))
      && (forall c, o :: Enabled(w', Mark(c, o)) ==> last == Some(Number) && c.status == InProgress)
      && (Enabled(w', Check) <==> last.None? || (Ends(last.value, ok, saw) && !w'.pc.Admitted? && !w'.pc.Numbered?))
  {
    hide Do;
    Tracked(max, w, run, None, None, false);
    DecideHasReturn(max, w, run, None, None, false);
  }

  /** The worker looks only after a call returned. */
  lemma {:induction false} DecideHasReturn(max: int, w: World, run: seq<Action>, last: Option<Action>, ok: Option<bool>, saw: bool)
    requires Tracks(w.pc, last, ok, saw) && AllEnabled(max, w, run)
    requires last.Some? && (last.value.Decide? || last.value.Record?) ==> ok.Some?
    ensures var l := LastStep(run, last); l.Some? && (l.value.Decide? || l.value.Record?) ==> LastOk(run, ok).Some?
    decreases |run|
  {
    hide Do;
    if run != [] {
      TrackStep(max, w, run[0], last, ok, saw);
      DecideHasReturn(max, Do(max, w, run[0]), run[1..], if IsWorker(run[0]) then Some(run[0]) else last,
                      if run[0].Return? then Some(run[0].ok) else ok, if run[0].Decide? then IsCancelled(w.exec) else saw);
    }
  }

  // ---------------------------------------------------------------- the commands a run commits

  /** What an action commits to the replicated log: nothing if the commit is lost, the
      same command whether or not success is reported. */
  function Commands(w: World, a: Action): seq<Entry>
    requires Enabled(w, a)
  {
    match a
    case Mark(c, o) => Unless(o, UpdateJobStatus(Some(c)))
    case Close(c, o) => Unless(o, UpdateJobStatus(Some(c)))
    case Cancel(c) => Unless(Committed, UpdateJobStatus(Some(c)))
    case Sweep(c) => Unless(Committed, UpdateJobStatus(Some(c)))
    case Record(t, o) => Unless(o, RecordAttempt(Some(Asking(Pending).(attempt := Some(t)))))
    case PruneCommit(o) => Unless(o, PruneAttempts(Some(Asking(Pending)), w.books.pruner.kept))
    case Create(at) => Unless(Committed, CreateJob(Some(Job(JOB, Unico, None, "", None, at, "", map[]))))
    case Delete => Unless(Committed, DeleteJob(JOB))
    case _ => []
  }

  function Unless(o: Outcome, c: Command): seq<Entry> {
    if o.Lost? then [] else [Entry(c, NO_FAULTS)]
  }

  ghost function LogOf(max: int, w: World, run: seq<Action>): seq<Entry>
    requires AllEnabled(max, w, run)
    decreases |run|
  {
    if run == [] then [] else Commands(w, run[0]) + LogOf(max, Do(max, w, run[0]), run[1..])
  }

  lemma StepIsReplicated(max: int, w: World, a: Action, s: State)
    requires Enabled(w, a) && Lookup(s.exec, JOB) == w.exec
    ensures Lookup(Run(s, Commands(w, a)).exec, JOB) == Do(max, w, a).exec
  {
    if a.Mark? || a.Close? || a.Cancel? || a.Sweep? {
      UpdateIsReplicated(a.command, s);
    } else if a.Record? {
      AppendIsReplicated(a.attempt, s);
    } else if a.PruneCommit? {
      RewriteIsReplicated(w.books.pruner.kept, s);
    } else if a.Create? {
      OneCommand(s, CreateJob(Some(Job(JOB, Unico, None, "", None, a.createdAt, "", map[]))));
    } else if a.Delete? {
      OneCommand(s, DeleteJob(JOB));
    }
    hide Apply, Written, Commit, Append, Rewrite;
    NoCommand(s);
  }

  lemma NoCommand(s: State)
    ensures Run(s, []) == s
  {
  }

  lemma OneCommand(s: State, c: Command)
    ensures Run(s, [Entry(c, NO_FAULTS)]) == Apply(s, c, NO_FAULTS).0
  {
    hide Apply;
    RunSnoc(s, [], Entry(c, NO_FAULTS));
    assert [] + [Entry(c, NO_FAULTS)] == [Entry(c, NO_FAULTS)];
  }

  lemma UpdateIsReplicated(c: StatusCommand, s: State)
    requires c.jobId == JOB
    ensures Lookup(Run(s, [Entry(UpdateJobStatus(Some(c)), NO_FAULTS)]).exec, JOB) == Some(Commit(Lookup(s.exec, JOB), c))
  {
    OneCommand(s, UpdateJobStatus(Some(c)));
  }

  lemma AppendIsReplicated(t: Attempt, s: State)
    ensures Lookup(Run(s, [Entry(RecordAttempt(Some(Asking(Pending).(attempt := Some(t)))), NO_FAULTS)]).exec, JOB)
         == Append(Lookup(s.exec, JOB), t)
  {
    OneCommand(s, RecordAttempt(Some(Asking(Pending).(attempt := Some(t)))));
  }

  lemma RewriteIsReplicated(kept: seq<Attempt>, s: State)
    ensures Lookup(Run(s, [Entry(PruneAttempts(Some(Asking(Pending)), kept), NO_FAULTS)]).exec, JOB)
         == Rewrite(Lookup(s.exec, JOB), kept)
  {
    OneCommand(s, PruneAttempts(Some(Asking(Pending)), kept));
  }

  /** The state of the job after any run is what the state machine makes of the
      commands the run commits. */
  lemma {:induction false} RunIsReplicated(max: int, w: World, run: seq<Action>, s: State)
    requires AllEnabled(max, w, run) && Lookup(s.exec, JOB) == w.exec
    ensures Lookup(Run(s, LogOf(max, w, run)).exec, JOB) == Outcomes(max, w, run).exec
    decreases |run|
  {
    hide Do, Enabled, Commands;
    if run != [] {
      StepIsReplicated(max, w, run[0], s);
      RunAppend(s, Commands(w, run[0]), LogOf(max, Do(max, w, run[0]), run[1..]));
      RunIsReplicated(max, Do(max, w, run[0]), run[1..], Run(s, Commands(w, run[0])));
    }
  }

  // ---------------------------------------------------------------- what a call leads to

  /** No cancel, creation or deletion, and every commit of the worker takes effect and is reported. */
  predicate Quiet(run: seq<Action>) {
    forall i :: 0 <= i < |run| ==> QuietStep(run[i])
  }

  predicate QuietStep(a: Action) {
    && !a.Cancel? && !a.Create? && !a.Delete?
    && (a.Mark? || a.Record? || a.Close? ==> a.outcome.Committed?)
  }

  predicate Expects(w: World, ok: Option<bool>) {
    match w.pc
    case Idle => if ok.Some? then HasStatus(w.exec, if ok.value then Completed else Failed) else CanExecute(w.exec)
    case Admitted => CanExecute(w.exec) && (ok.Some? ==> !ok.value && HasStatus(w.exec, Failed))
    case Numbered(_, _) => CanExecute(w.exec) && (ok.Some? ==> !ok.value && HasStatus(w.exec, Failed))
    case Marked(_, _) => HasStatus(w.exec, InProgress)
    case Calling(_) => HasStatus(w.exec, InProgress)
    case Returned(_, b) => HasStatus(w.exec, InProgress) && ok == Some(b)
    case Recording(_, b) => HasStatus(w.exec, InProgress) && ok == Some(b)
    case RecordingCancelled(_) => false
    case Closing(_, b) => HasStatus(w.exec, InProgress) && ok == Some(b)
  }

  predicate HasStatus(e: Option<ExecState>, status: JobStatus) {
    e.Some? && e.value.status == status
  }

  lemma ExpectStep(max: int, w: World, a: Action, ok: Option<bool>)
    requires Expects(w, ok) && Enabled(w, a) && QuietStep(a)
    ensures Expects(Do(max, w, a), if a.Return? then Some(a.ok) else ok)
  {
    hide Written;
  }

  lemma {:induction false} Expected(max: int, w: World, run: seq<Action>, ok: Option<bool>)
    requires Expects(w, ok) && AllEnabled(max, w, run) && Quiet(run)
    ensures Expects(Outcomes(max, w, run), LastOk(run, ok))
    decreases |run|
  {
    hide Do, Enabled, Expects;
    if run != [] {
      assert QuietStep(run[0]);
      assert Quiet(run[1..]) by {
        assert forall i :: 0 <= i < |run[1..]| ==> run[1..][i] == run[i + 1];
      }
      ExpectStep(max, w, run[0], ok);
      Expected(max, Do(max, w, run[0]), run[1..], if run[0].Return? then Some(run[0].ok) else ok);
    }
  }

  /** Undisturbed, a job whose webhook was called is completed if and only if the
      last call returned ok, and failed otherwise, once the worker is done with it;
      and after a success no run of that life, disturbed or not, calls it again. */
  lemma CompletedIff(max: int, w: World, run: seq<Action>)
    requires w.pc.Idle? && CanExecute(w.exec) && AllEnabled(max, w, run) && Quiet(run)
    requires Outcomes(max, w, run).pc.Idle? && LastOk(run, None).Some?
    ensures var w', ok := Outcomes(max, w, run), LastOk(run, None).value;
      && w'.exec.Some?
      && (w'.exec.value.status == Completed <==> ok) && (w'.exec.value.status == Failed <==> !ok)
      && (ok ==> !CanStillCall(max, w'))
  {
    Expected(max, w, run, None);
    var w' := Outcomes(max, w, run);
    if LastOk(run, None).value {
      MoreCallsOnly(max, w');
    }
  }

  /** Such a run exists, with either answer of the webhook: one call, one more
      attempt counted, and its record at the end of the list. */
  lemma ExecutionRuns(max: int, w: World, ok: bool, t: Attempt) returns (run: seq<Action>)
    requires w.pc.Idle? && CanExecute(w.exec) && 0 <= AttemptCount(w.exec) < max
    ensures AllEnabled(max, w, run) && Quiet(run) && Calls(run) == 1 && LastOk(run, None) == Some(ok)
    ensures var w' := Outcomes(max, w, run);
      && w'.pc.Idle? && w'.exec.Some? && AttemptCount(w'.exec) == AttemptCount(w.exec) + 1
      && w'.exec.value.attempts == (if w.exec.Some? then w.exec.value.attempts else []) + [t]
  {
    hide Do, Enabled, AllEnabled, Outcomes, Quiet, LastOk, Calls, NoRebirth;
    var mark, record, close := Mark(Asking(InProgress), Committed), Record(t, Committed), Close(Ending(ok), Committed);
    var w4 := Called(max, w);
    var w8 := CallReturns(max, w4, ok, t);
    Nowhere(max, w8);
    var rest := FourSteps(max, w4, Return(ok), Decide, record, close, []);
    run := FourSteps(max, w, Check, Number, mark, Call, rest);
    ReadScript(mark, ok, record, close, rest, run);
  }

  function Ending(ok: bool): StatusCommand {
    Asking(if ok then Completed else Failed)
  }

  lemma Called(max: int, w: World) returns (w': World)
    requires w.pc.Idle? && CanExecute(w.exec) && 0 <= AttemptCount(w.exec) < max
    ensures Enabled(w, Check) && Enabled(Do(max, w, Check), Number)
    ensures var w2 := Do(max, Do(max, w, Check), Number); var mark := Mark(Asking(InProgress), Committed);
      && Enabled(w2, mark) && Enabled(Do(max, w2, mark), Call) && w' == Do(max, Do(max, w2, mark), Call)
    ensures w'.pc.Calling? && HasStatus(w'.exec, InProgress) && AttemptCount(w'.exec) == AttemptCount(w.exec) + 1
    ensures w'.exec.value.attempts == if w.exec.Some? then w.exec.value.attempts else []
  {
    w' := UpToCall(max, w);
  }

  lemma CallReturns(max: int, w: World, ok: bool, t: Attempt) returns (w': World)
    requires w.pc.Calling? && HasStatus(w.exec, InProgress)
    ensures Enabled(w, Return(ok)) && Enabled(Do(max, w, Return(ok)), Decide)
    ensures var w2 := Do(max, Do(max, w, Return(ok)), Decide); var record, close := Record(t, Committed), Close(Ending(ok), Committed);
      && Enabled(w2, record) && Enabled(Do(max, w2, record), close) && w' == Do(max, Do(max, w2, record), close)
    ensures w'.pc.Idle? && w'.exec.Some? && AttemptCount(w'.exec) == AttemptCount(w.exec)
    ensures w'.exec.value.attempts == w.exec.value.attempts + [t]
  {
    hide Written;
    var w2 := Do(max, Do(max, w, Return(ok)), Decide);
    w' := Do(max, Do(max, w2, Record(t, Committed)), Close(Ending(ok), Committed));
  }

  lemma Nowhere(max: int, w: World)
    ensures AllEnabled(max, w, []) && Outcomes(max, w, []) == w && NoRebirth([])
  {
  }

  lemma ReadScript(mark: Action, ok: bool, record: Action, close: Action, rest: seq<Action>, run: seq<Action>)
    requires mark.Mark? && record.Record? && close.Close? && QuietStep(mark) && QuietStep(record) && QuietStep(close)
    requires rest == [Return(ok)] + ([Decide] + ([record] + ([close] + [])))
    requires run == [Check] + ([Number] + ([mark] + ([Call] + rest)))
    ensures Quiet(run) && Calls(run) == 1 && LastOk(run, None) == Some(ok)
  {
    hide Quiet, LastOk, Calls;
    ReadFirst(close, [], Some(ok));
    ReadFirst(record, [close] + [], Some(ok));
    ReadFirst(Decide, [record] + ([close] + []), Some(ok));
    ReadFirst(Return(ok), [Decide] + ([record] + ([close] + [])), None);
    ReadFirst(Call, rest, None);
    ReadFirst(mark, [Call] + rest, None);
    ReadFirst(Number, [mark] + ([Call] + rest), None);
    ReadFirst(Check, [Number] + ([mark] + ([Call] + rest)), None);
    ReadNothing(Some(ok));
  }

  lemma ReadFirst(a: Action, run: seq<Action>, ok: Option<bool>)
    ensures Quiet([a] + run) <==> QuietStep(a) && Quiet(run)
    ensures LastOk([a] + run, ok) == LastOk(run, if a.Return? then Some(a.ok) else ok)
    ensures Calls([a] + run) == (if a.Call? then 1 else 0) + Calls(run)
  {
    var r := [a] + run;
    assert r[1..] == run;
    if Quiet(r) {
      assert QuietStep(r[0]);
      forall i | 0 <= i < |run| ensures QuietStep(run[i]) {
        assert QuietStep(r[i + 1]);
      }
    }
  }

  lemma ReadNothing(ok: Option<bool>)
    ensures Quiet([]) && LastOk([], ok) == ok && Calls([]) == 0
  {
  }

  // ---------------------------------------------------------------- calls to come

  /** The job is neither completed nor cancelled. */
  predicate Open(e: Option<ExecState>) {
    e.None? || e.value.status in {Pending, InProgress, Timeout, Failed}
  }

  predicate Shut(max: int, w: World) {
    && (w.pc.Idle? || w.pc.Admitted?)
    && (AttemptCount(w.exec) >= max || (w.pc.Idle? && !Open(w.exec)))
  }

  lemma ShutStep(max: int, w: World, a: Action)
    requires Shut(max, w) && Enabled(w, a) && !a.Create? && !a.Delete?
    ensures Shut(max, Do(max, w, a)) && !a.Call?
  {
    hide Written;
  }

  lemma {:induction false} ShutRun(max: int, w: World, run: seq<Action>)
    requires Shut(max, w) && AllEnabled(max, w, run) && NoRebirth(run)
    ensures Calls(run) == 0
    decreases |run|
  {
    hide Do, Enabled, Shut;
    if run != [] {
      Tail(max, w, run);
      ShutStep(max, w, run[0]);
      ShutRun(max, Do(max, w, run[0]), run[1..]);
    }
  }

  lemma MoreCallsOnly(max: int, w: World)
    requires w.pc.Idle?
    ensures CanStillCall(max, w) ==> Open(w.exec) && AttemptCount(w.exec) < max
  {
    if Shut(max, w) {
      forall run | AllEnabled(max, w, run) && NoRebirth(run) ensures Calls(run) == 0 {
        ShutRun(max, w, run);
      }
    }
  }

  /** Between executions, a job can still be called in its present life if and only
      if it is neither completed nor cancelled and has an attempt left. */
  lemma MoreCallsIff(max: int, w: World)
    requires w.pc.Idle? && 0 <= AttemptCount(w.exec)
    ensures CanStillCall(max, w) <==> Open(w.exec) && AttemptCount(w.exec) < max
  {
    MoreCallsOnly(max, w);
    if Open(w.exec) && AttemptCount(w.exec) < max {
      var run := NextCall(max, w);
    }
  }

  lemma NextCall(max: int, w: World) returns (run: seq<Action>)
    requires w.pc.Idle? && 0 <= AttemptCount(w.exec) < max && Open(w.exec)
    ensures AllEnabled(max, w, run) && NoRebirth(run) && Calls(run) > 0
  {
    if HasStatus(w.exec, InProgress) {
      var sweep := Sweep(Asking(Timeout));
      run := FirstCall(max, Do(max, w, sweep));
      run := Prepend(max, w, sweep, run);
    } else {
      run := FirstCall(max, w);
    }
  }

  lemma FirstCall(max: int, w: World) returns (run: seq<Action>)
    requires w.pc.Idle? && CanExecute(w.exec) && 0 <= AttemptCount(w.exec) < max
    ensures AllEnabled(max, w, run) && NoRebirth(run) && Calls(run) > 0
  {
    var w4 := UpToCall(max, w);
    hide Do, Enabled;
    run := Prepend(max, Do(max, Do(max, Do(max, w, Check), Number), Mark(Asking(InProgress), Committed)), Call, []);
    run := Prepend(max, Do(max, Do(max, w, Check), Number), Mark(Asking(InProgress), Committed), run);
    run := Prepend(max, Do(max, w, Check), Number, run);
    run := Prepend(max, w, Check, run);
  }

  /** A prune has something to write back if and only if some attempt it read began
      before the cutoff, and then it is the attempts that did not. */
  lemma PruneReadIff(max: int, w: World, cutoff: int)
    requires Enabled(w, PruneRead(cutoff))
    ensures var pruner := Do(max, w, PruneRead(cutoff)).books.pruner;
      && (pruner.Holding? <==> exists i :: 0 <= i < |Attempts(w.exec)| && Attempts(w.exec)[i].startTime < cutoff)
      && (pruner.Holding? ==> pruner.kept == Recent(Attempts(w.exec), cutoff))
  {
    RecentAll(Attempts(w.exec), cutoff);
  }
}
