/**
 Executing one job: the steps of `ExecutionManager.Execute` on the one worker,
 interleaved with cancellations, timeout sweeps between executions, pruning, and
 deletion and re-creation of the job.

 Every mark is a committed command whose answer is dropped: a transition the
 state machine rejects looks like success to the worker.
 */
module Execution {
  import opened Types
  import opened FsmSpec
  import opened Pruning

  // ---------------------------------------------------------------- one job's replicated state

  /** The job; any name but the empty one would do. */
  const JOB := "job"

  function Commit(e: Option<ExecState>, c: StatusCommand): ExecState {
    var before := if e.Some? then e.value else PendingState(c.jobId, c.timestamp);
    if Validate(before.status, c.status) == Nothing then Transition(before, c) else before
  }

  function Append(e: Option<ExecState>, a: Attempt): Option<ExecState> {
    if e.None? then None else Some(e.value.(attempts := e.value.attempts + [a]))
  }

  function Rewrite(e: Option<ExecState>, kept: seq<Attempt>): Option<ExecState> {
    if e.None? then None else Some(e.value.(attempts := kept))
  }

  /** `Commit`, `Append` and `Rewrite` are the state machine's own commands, seen from one job. */
  lemma CommitIsStatusUpdate(exec: map<string, ExecState>, c: StatusCommand, a: Attempt, kept: seq<Attempt>)
    ensures StatusUpdate(exec, c).0 == exec[c.jobId := Commit(Lookup(exec, c.jobId), c)]
    ensures var after := FsmSpec.Record(exec, c.(attempt := Some(a))).0;
      && Lookup(after, c.jobId) == Append(Lookup(exec, c.jobId), a)
      && after - {c.jobId} == exec - {c.jobId}
    ensures var after := FsmSpec.Prune(exec, c, kept).0;
      && Lookup(after, c.jobId) == Rewrite(Lookup(exec, c.jobId), kept)
      && after - {c.jobId} == exec - {c.jobId}
  {
  }

  // ---------------------------------------------------------------- the worker

  /** Where the worker is.  `tag` is the incarnation whose attempt count it read,
      `num` the attempt number it computed from it. */
  datatype Pc =
    | Idle
    | Admitted
    | Numbered(tag: nat, num: int)
    | Marked(tag: nat, num: int)
    | Calling(tag: nat)
    | Returned(tag: nat, ok: bool)
    | Recording(tag: nat, ok: bool)
    | RecordingCancelled(tag: nat)
    | Closing(tag: nat, ok: bool)

  /** The pruning goroutine: `kept` is what it read and means to write back, `origin`
      the lives in which those attempts were numbered. */
  datatype Pruner = Resting | Holding(kept: seq<Attempt>, origin: seq<nat>)

  datatype World = World(
    exec: Option<ExecState>,
    pc: Pc,
    incarnation: nat,      // how often the job was created or deleted: its present life
    calls: map<nat, nat>,  // webhook calls, by the life whose attempt count the caller read
    lifeCalls: nat,        // webhook calls started during this life
    carried: bool,         // a call marked before this life is still to start
    inherited: bool,       // this life began with such a call to come
    lateCalls: nat,        // calls started in this life after it was cancelled
    books: Books)

  /** Where the attempts come from. */
  datatype Books = Books(
    origin: seq<nat>,      // for each recorded attempt, the life whose attempt count its execution read
    owing: bool,           // this life began with an execution between its number and its record
    pruner: Pruner,
    legacy: nat)           // how many attempts the pruner held when this life began

  datatype Action =
    | Check
    | Number
    | Mark(command: StatusCommand, outcome: Outcome)
    | Call
    | Return(ok: bool)
    | Decide
    | Record(attempt: Attempt, outcome: Outcome)
    | Close(command: StatusCommand, outcome: Outcome)
    | Cancel(command: StatusCommand)
    | Sweep(command: StatusCommand)
    | PruneRead(cutoff: int)
    | PruneCommit(outcome: Outcome)
    | Create(createdAt: int)
    | Delete

  function CallsOf(w: World, tag: nat): nat {
    if tag in w.calls then w.calls[tag] else 0
  }

  predicate CanExecute(e: Option<ExecState>) {
    e.None? || e.value.status in {Pending, Timeout, Failed}
  }

  predicate IsCancelled(e: Option<ExecState>) {
    e.Some? && e.value.status == Cancelled
  }

  function AttemptCount(e: Option<ExecState>): int {
    if e.Some? then e.value.attemptCount else 0
  }

  function Recorded(e: Option<ExecState>): nat {
    if e.Some? then |e.value.attempts| else 0
  }

  predicate Enabled(w: World, a: Action) {
    match a
    case Check => w.pc.Idle?
    case Number => w.pc.Admitted?
    case Mark(c, _) => w.pc.Numbered? && c.jobId == JOB && c.status == InProgress
    case Call => w.pc.Marked?
    case Return(_) => w.pc.Calling?
    case Decide => w.pc.Returned?
    case Record(_, _) => w.pc.Recording? || w.pc.RecordingCancelled?
    case Close(c, _) => w.pc.Closing? && c.jobId == JOB && c.status == (if w.pc.ok then Completed else Failed)
    case Cancel(c) => c.jobId == JOB && c.status == Cancelled
    case Sweep(c) => w.pc.Idle? && c.jobId == JOB && c.status == Timeout
    case PruneRead(_) => w.books.pruner.Resting?
    case PruneCommit(_) => w.books.pruner.Holding?
    case Create(_) => true
    case Delete => true
  }

  function After(e: Option<ExecState>, c: StatusCommand, o: Outcome): Option<ExecState> {
    if o.Lost? then e else Some(Commit(e, c))
  }

  predicate HasTag(pc: Pc) {
    !pc.Idle? && !pc.Admitted?
  }

  predicate BeforeCall(pc: Pc) {
    pc.Numbered? || pc.Marked?
  }

  /** The worker still has an attempt of `tag` to record. */
  predicate OwesRecord(pc: Pc) {
    pc.Calling? || pc.Returned? || pc.Recording? || pc.RecordingCancelled?
  }

  function Reborn(w: World, e: Option<ExecState>): World {
    w.(exec := e, incarnation := w.incarnation + 1, lifeCalls := 0, carried := w.pc.Marked?, inherited := w.pc.Marked?,
       lateCalls := 0)
  }

  /** The origins of the attempts that pruning keeps. */
  function RecentOrigin(attempts: seq<Attempt>, origin: seq<nat>, cutoff: int): seq<nat> {
    if attempts == [] || origin == [] then []
    else
      var before := RecentOrigin(attempts[..|attempts| - 1], origin[..|origin| - 1], cutoff);
      if attempts[|attempts| - 1].startTime >= cutoff then before + [origin[|origin| - 1]] else before
  }

  /** What the pruner makes of the job it reads; it has nothing to write back when no attempt is old. */
  function Prunes(w: World, cutoff: int): Pruner {
    if w.exec.None? || |Recent(w.exec.value.attempts, cutoff)| == |w.exec.value.attempts| then Resting
    else Holding(Recent(w.exec.value.attempts, cutoff), RecentOrigin(w.exec.value.attempts, w.books.origin, cutoff))
  }

  function Written(w: World, a: Action): Books
    requires Enabled(w, a)
  {
    var b := w.books;
    match a
    case Record(_, o) => if o.Lost? || w.exec.None? then b else b.(origin := b.origin + [w.pc.tag])
    case PruneRead(cutoff) => b.(pruner := Prunes(w, cutoff))
    case PruneCommit(o) =>
      if o.Lost? || w.exec.None? then b.(pruner := Resting) else b.(origin := b.pruner.origin, pruner := Resting)
    case Create(_) => NewBooks(w)
    case Delete => NewBooks(w)
    case _ => b
  }

  function NewBooks(w: World): Books {
    var pruner := w.books.pruner;
    Books([], BeforeCall(w.pc) || OwesRecord(w.pc), pruner, if pruner.Holding? then |pruner.kept| else 0)
  }

  function Do(max: int, w: World, a: Action): World
    requires Enabled(w, a)
  {
    Core(max, w, a).(books := Written(w, a))
  }

  /** A step, but for the books. */
  function Core(max: int, w: World, a: Action): World
    requires Enabled(w, a)
  {
    match a
    case Check => if CanExecute(w.exec) then w.(pc := Admitted) else w
    case Number =>
      var num := AttemptCount(w.exec) + 1;
      if num > max then w.(pc := Idle) else w.(pc := Numbered(w.incarnation, num))
    case Mark(c, o) =>
      w.(exec := After(w.exec, c, o), pc := if o.Committed? then Marked(w.pc.tag, w.pc.num) else Idle)
    case Call =>
      w.(pc := Calling(w.pc.tag),
         calls := w.calls[w.pc.tag := CallsOf(w, w.pc.tag) + 1],
         lifeCalls := w.lifeCalls + 1,
         carried := false,
         lateCalls := if IsCancelled(w.exec) then w.lateCalls + 1 else w.lateCalls)
    case Return(ok) => w.(pc := Returned(w.pc.tag, ok))
    case Decide =>
      if !IsCancelled(w.exec) then w.(pc := Recording(w.pc.tag, w.pc.ok))
      else if w.pc.ok then w.(pc := RecordingCancelled(w.pc.tag))
      else w.(pc := Idle)
    case Record(t, o) =>
      var w1 := w.(pc := if w.pc.Recording? && o.Committed? then Closing(w.pc.tag, w.pc.ok) else Idle);
      if o.Lost? then w1 else w1.(exec := Append(w.exec, t))
    case Close(c, o) => w.(exec := After(w.exec, c, o), pc := Idle)
    case Cancel(c) => w.(exec := Some(Commit(w.exec, c)))
    case Sweep(c) => w.(exec := Some(Commit(w.exec, c)))
    case PruneRead(_) => w
    case PruneCommit(o) =>
      if o.Lost? then w else w.(exec := Rewrite(w.exec, w.books.pruner.kept))
    case Create(at) => Reborn(w, Some(PendingState(JOB, at)))
    case Delete => Reborn(w, None)
  }

  ghost predicate AllEnabled(max: int, w: World, run: seq<Action>)
    decreases |run|
  {
    run == [] || (Enabled(w, run[0]) && AllEnabled(max, Do(max, w, run[0]), run[1..]))
  }

  ghost function Outcomes(max: int, w: World, run: seq<Action>): World
    requires AllEnabled(max, w, run)
    decreases |run|
  {
    if run == [] then w else Outcomes(max, Do(max, w, run[0]), run[1..])
  }

  /** A job just created, with the worker idle. */
  function Born(at: int): World {
    World(Some(PendingState(JOB, at)), Idle, 0, map[], 0, false, false, 0, Books([], false, Resting, 0))
  }

  // ---------------------------------------------------------------- invariant

  ghost predicate CallBound(max: int, w: World) {
    && (forall t :: t in w.calls ==> t <= w.incarnation && w.calls[t] <= max)
    && (HasTag(w.pc) ==> w.pc.tag <= w.incarnation)
    && (BeforeCall(w.pc) ==> CallsOf(w, w.pc.tag) < w.pc.num <= max)
  }

  ghost predicate CountBound(w: World) {
    && 0 <= AttemptCount(w.exec)
    && CallsOf(w, w.incarnation) <= AttemptCount(w.exec) + (if IsCancelled(w.exec) then 1 else 0)
    && (w.pc.Admitted? ==> (CanExecute(w.exec) || IsCancelled(w.exec)) && CallsOf(w, w.incarnation) <= AttemptCount(w.exec))
    && (w.pc.Numbered? && w.pc.tag == w.incarnation ==>
          (CanExecute(w.exec) || IsCancelled(w.exec)) && AttemptCount(w.exec) == w.pc.num - 1)
    && (w.pc.Marked? && w.pc.tag == w.incarnation ==>
          AttemptCount(w.exec) >= w.pc.num || (IsCancelled(w.exec) && AttemptCount(w.exec) == w.pc.num - 1))
  }

  /** The call this life began with, once it has started. */
  function CarriedCall(w: World): nat {
    if w.inherited && !w.carried then 1 else 0
  }

  function Extra(e: Option<ExecState>): nat {
    if IsCancelled(e) then 1 else 0
  }

  ghost predicate LifeBound(max: int, w: World) {
    && AttemptCount(w.exec) <= max
    && (w.carried ==> w.inherited && w.pc.Marked? && w.pc.tag < w.incarnation && w.lifeCalls == 0)
    && w.lifeCalls <= max + CarriedCall(w) && w.lifeCalls <= AttemptCount(w.exec) + Extra(w.exec) + CarriedCall(w)
    && (w.pc.Admitted? ==> w.lifeCalls <= AttemptCount(w.exec) + CarriedCall(w))
    && (w.pc.Numbered? ==>
          && (CanExecute(w.exec) || IsCancelled(w.exec)) && AttemptCount(w.exec) < max
          && w.lifeCalls <= AttemptCount(w.exec) + CarriedCall(w))
    && (w.pc.Marked? && !w.carried ==>
          w.lifeCalls < max + CarriedCall(w) && w.lifeCalls < AttemptCount(w.exec) + Extra(w.exec) + CarriedCall(w))
  }

  ghost predicate LateBound(w: World) {
    && w.lateCalls <= 1
    && (w.lateCalls > 0 ==> IsCancelled(w.exec) && !w.pc.Admitted? && !BeforeCall(w.pc))
  }

  /** How many of the attempts were made by executions that read this life. */
  function Own(origin: seq<nat>, life: nat): nat {
    if origin == [] then 0
    else Own(origin[..|origin| - 1], life) + (if origin[|origin| - 1] == life then 1 else 0)
  }

  /** How many were not. */
  function Strangers(w: World): int {
    |w.books.origin| - Own(w.books.origin, w.incarnation)
  }

  /** An execution that read life `tag` has still to call, or to record. */
  function Due(w: World): nat {
    if OwesRecord(w.pc) && w.pc.tag == w.incarnation then 1 else 0
  }

  function DueElsewhere(w: World): nat {
    if (OwesRecord(w.pc) || BeforeCall(w.pc)) && w.pc.tag < w.incarnation then 1 else 0
  }

  /** The bounds on a list of attempts, recorded or held by the pruner. */
  ghost predicate ListBound(w: World, attempts: seq<Attempt>, origin: seq<nat>) {
    && |origin| == |attempts|
    && (forall i :: 0 <= i < |origin| ==> origin[i] <= w.incarnation)
    && Own(origin, w.incarnation) + Due(w) <= CallsOf(w, w.incarnation)
    && |origin| - Own(origin, w.incarnation) + DueElsewhere(w) <= w.books.legacy + (if w.books.owing then 1 else 0)
  }

  function Attempts(e: Option<ExecState>): seq<Attempt> {
    if e.Some? then e.value.attempts else []
  }

  ghost predicate RecordBound(w: World) {
    && ListBound(w, Attempts(w.exec), w.books.origin)
    && (w.books.pruner.Holding? ==> ListBound(w, w.books.pruner.kept, w.books.pruner.origin))
  }

  ghost predicate Inv(max: int, w: World) {
    0 <= max && CallBound(max, w) && CountBound(w) && LifeBound(max, w) && LateBound(w) && RecordBound(w)
  }

  /** What one commit can do to a job, as far as the bounds depend on it. */
  lemma CommitFacts(e: Option<ExecState>, c: StatusCommand)
    requires 0 <= AttemptCount(e)
    ensures var e' := Some(Commit(e, c));
      && Attempts(e') == Attempts(e)
      && AttemptCount(e') == AttemptCount(e) + (if c.status == InProgress && CanExecute(e) then 1 else 0)
      && (IsCancelled(e) ==> e' == e)
      && (IsCancelled(e') ==> IsCancelled(e) || c.status == Cancelled)
      && (c.status == InProgress && !CanExecute(e) ==> e' == e)
      && (c.status == Cancelled && CanExecute(e) ==> CanExecute(e') || IsCancelled(e'))
  {
  }

  lemma SameCalls(max: int, w: World, a: Action)
    requires Enabled(w, a) && !a.Call?
    ensures Do(max, w, a).calls == w.calls && forall t: nat :: CallsOf(Do(max, w, a), t) == CallsOf(w, t)
  {
    hide Commit, Append, Written;
  }

  lemma StepCallBound(max: int, w: World, a: Action)
    requires Inv(max, w) && Enabled(w, a)
    ensures CallBound(max, Do(max, w, a))
  {
    if a.Call? {
      CallKeepsCallBound(max, w);
    } else {
      hide Written, Commit, Append, LifeBound, LateBound, RecordBound, CallsOf;
      SameCalls(max, w, a);
    }
  }

  lemma CallKeepsCallBound(max: int, w: World)
    requires Inv(max, w) && Enabled(w, Call)
    ensures CallBound(max, Do(max, w, Call))
  {
    hide Written, Commit, Append, LifeBound, LateBound, RecordBound;
  }

  lemma StepCountBound(max: int, w: World, a: Action)
    requires Inv(max, w) && Enabled(w, a)
    ensures CountBound(Do(max, w, a))
  {
    if a.Mark? || a.Close? || a.Cancel? || a.Sweep? {
      CommitCountBound(max, w, a);
    } else if a.Create? || a.Delete? || a.Call? {
      LifeCountBound(max, w, a);
    } else {
      PlainCountBound(max, w, a);
    }
  }

  lemma LifeCountBound(max: int, w: World, a: Action)
    requires Inv(max, w) && Enabled(w, a) && (a.Create? || a.Delete? || a.Call?)
    ensures CountBound(Do(max, w, a))
  {
    hide Written, LifeBound, LateBound, RecordBound;
  }

  lemma PlainCountBound(max: int, w: World, a: Action)
    requires Inv(max, w) && Enabled(w, a)
    requires !a.Mark? && !a.Close? && !a.Cancel? && !a.Sweep? && !a.Create? && !a.Delete? && !a.Call?
    ensures CountBound(Do(max, w, a))
  {
    SameCalls(max, w, a);
    hide Written, CallsOf, CallBound, LifeBound, LateBound, RecordBound;
  }

  lemma CommitCountBound(max: int, w: World, a: Action)
    requires Inv(max, w) && Enabled(w, a) && (a.Mark? || a.Close? || a.Cancel? || a.Sweep?)
    ensures CountBound(Do(max, w, a))
  {
    hide Written, Commit, LifeBound, LateBound, RecordBound;
    CommitFacts(w.exec, a.command);
  }

  lemma StepLifeBound(max: int, w: World, a: Action)
    requires Inv(max, w) && Enabled(w, a)
    ensures LifeBound(max, Do(max, w, a))
  {
    hide Written, Commit, LateBound, RecordBound;
    if a.Mark? || a.Close? || a.Cancel? || a.Sweep? {
      CommitFacts(w.exec, a.command);
    }
  }

  lemma StepLateBound(max: int, w: World, a: Action)
    requires Inv(max, w) && Enabled(w, a)
    ensures LateBound(Do(max, w, a))
  {
    hide Written, Commit, LifeBound, RecordBound;
    if a.Mark? || a.Close? || a.Cancel? || a.Sweep? {
      CommitFacts(w.exec, a.command);
    }
  }

  lemma OwnSnoc(origin: seq<nat>, tag: nat, life: nat)
    ensures Own(origin + [tag], life) == Own(origin, life) + (if tag == life then 1 else 0)
  {
    assert (origin + [tag])[..|origin|] == origin;
  }

  lemma {:induction false} OwnNone(origin: seq<nat>, life: nat)
    requires forall i :: 0 <= i < |origin| ==> origin[i] < life
    ensures Own(origin, life) == 0
  {
    if origin != [] {
      OwnNone(origin[..|origin| - 1], life);
    }
  }

  /** Pruning drops attempts with their origins. */
  lemma {:induction false} RecentOrigins(attempts: seq<Attempt>, origin: seq<nat>, cutoff: int, life: nat)
    requires |origin| == |attempts| && forall i :: 0 <= i < |origin| ==> origin[i] <= life
    ensures var kept := RecentOrigin(attempts, origin, cutoff);
      && |kept| == |Recent(attempts, cutoff)| && (forall i :: 0 <= i < |kept| ==> kept[i] <= life)
      && Own(kept, life) <= Own(origin, life) && |kept| - Own(kept, life) <= |origin| - Own(origin, life)
  {
    if attempts != [] {
      RecentOrigins(attempts[..|attempts| - 1], origin[..|origin| - 1], cutoff, life);
      var before := RecentOrigin(attempts[..|attempts| - 1], origin[..|origin| - 1], cutoff);
      OwnSnoc(before, origin[|origin| - 1], life);
    }
  }

  lemma StepRecordBound(max: int, w: World, a: Action)
    requires Inv(max, w) && Enabled(w, a)
    ensures RecordBound(Do(max, w, a))
  {
    hide Core, Own, CallsOf, CallBound, CountBound, LifeBound, LateBound, Recent, RecentOrigin;
    if a.Create? || a.Delete? {
      BirthRecordBound(max, w, a);
    } else if a.Record? {
      RecordFacts(max, w, a);
      OwnSnoc(w.books.origin, w.pc.tag, w.incarnation);
    } else if a.PruneRead? || a.PruneCommit? {
      PruneFacts(max, w, a);
      RecentOrigins(Attempts(w.exec), w.books.origin, if a.PruneRead? then a.cutoff else 0, w.incarnation);
    } else {
      QuietFacts(max, w, a);
    }
  }

  lemma RecordFacts(max: int, w: World, a: Action)
    requires Inv(max, w) && Enabled(w, a) && a.Record?
    ensures var w' := Do(max, w, a);
      && w'.incarnation == w.incarnation && CallsOf(w', w.incarnation) == CallsOf(w, w.incarnation)
      && !OwesRecord(w'.pc) && !BeforeCall(w'.pc) && OwesRecord(w.pc) && w.pc.tag <= w.incarnation
      && Attempts(w'.exec) == if a.outcome.Lost? || w.exec.None? then Attempts(w.exec) else Attempts(w.exec) + [a.attempt]
  {
    hide Written, CountBound, LifeBound, LateBound, RecordBound;
  }

  lemma PruneFacts(max: int, w: World, a: Action)
    requires Inv(max, w) && Enabled(w, a) && (a.PruneRead? || a.PruneCommit?)
    ensures var w' := Do(max, w, a);
      && w'.incarnation == w.incarnation && CallsOf(w', w.incarnation) == CallsOf(w, w.incarnation) && w'.pc == w.pc
      && Attempts(w'.exec) == (if a.PruneRead? || a.outcome.Lost? || w.exec.None? then Attempts(w.exec) else w.books.pruner.kept)
  {
    hide Written, CallBound, CountBound, LifeBound, LateBound, RecordBound;
  }

  lemma QuietFacts(max: int, w: World, a: Action)
    requires Inv(max, w) && Enabled(w, a)
    requires !a.Create? && !a.Delete? && !a.Record? && !a.PruneRead? && !a.PruneCommit?
    ensures var w' := Do(max, w, a);
      && w'.incarnation == w.incarnation && Attempts(w'.exec) == Attempts(w.exec)
      && Due(w') + CallsOf(w, w.incarnation) <= Due(w) + CallsOf(w', w.incarnation) && DueElsewhere(w') <= DueElsewhere(w)
  {
    hide Written, LifeBound, LateBound, RecordBound, Commit;
    if a.Mark? || a.Close? || a.Cancel? || a.Sweep? {
      CommitFacts(w.exec, a.command);
    }
  }

  lemma BirthRecordBound(max: int, w: World, a: Action)
    requires Inv(max, w) && (a.Create? || a.Delete?)
    ensures RecordBound(Do(max, w, a))
  {
    hide LifeBound, LateBound, CountBound;
    if w.books.pruner.Holding? {
      OwnNone(w.books.pruner.origin, w.incarnation + 1);
    }
  }

  lemma StepKeepsInv(max: int, w: World, a: Action)
    requires Inv(max, w) && Enabled(w, a)
    ensures Inv(max, Do(max, w, a))
  {
    StepCallBound(max, w, a);
    StepCountBound(max, w, a);
    StepLifeBound(max, w, a);
    StepLateBound(max, w, a);
    StepRecordBound(max, w, a);
  }

  lemma {:induction false} RunKeepsInv(max: int, w: World, run: seq<Action>)
    requires Inv(max, w) && AllEnabled(max, w, run)
    ensures Inv(max, Outcomes(max, w, run))
    decreases |run|
  {
    if run != [] {
      StepKeepsInv(max, w, run[0]);
      RunKeepsInv(max, Do(max, w, run[0]), run[1..]);
    }
  }

  // ---------------------------------------------------------------- runs

  predicate NoRebirth(run: seq<Action>) {
    forall i :: 0 <= i < |run| ==> !run[i].Create? && !run[i].Delete?
  }

  function Calls(run: seq<Action>): nat {
    if run == [] then 0 else (if run[0].Call? then 1 else 0) + Calls(run[1..])
  }

  lemma Tail(max: int, w: World, run: seq<Action>)
    requires run != [] && AllEnabled(max, w, run) && NoRebirth(run)
    ensures Enabled(w, run[0]) && !run[0].Create? && !run[0].Delete?
    ensures AllEnabled(max, Do(max, w, run[0]), run[1..]) && NoRebirth(run[1..])
  {
    assert forall i :: 0 <= i < |run[1..]| ==> run[1..][i] == run[i + 1];
  }

  lemma Prepend(max: int, w: World, a: Action, run: seq<Action>) returns (r: seq<Action>)
    requires Enabled(w, a) && AllEnabled(max, Do(max, w, a), run)
    ensures AllEnabled(max, w, r) && Outcomes(max, w, r) == Outcomes(max, Do(max, w, a), run)
    ensures NoRebirth(run) && !a.Create? && !a.Delete? ==> NoRebirth(r)
    ensures Calls(r) == (if a.Call? then 1 else 0) + Calls(run)
    ensures r == [a] + run
  {
    r := [a] + run;
    assert r[1..] == run;
  }

  /** What a life began with does not change while it lasts. */
  lemma {:induction false} LifeGoesOn(max: int, w: World, run: seq<Action>)
    requires AllEnabled(max, w, run) && NoRebirth(run)
    ensures var w' := Outcomes(max, w, run);
      w'.incarnation == w.incarnation && w'.inherited == w.inherited && w'.books.owing == w.books.owing && w'.books.legacy == w.books.legacy
    decreases |run|
  {
    if run != [] {
      Tail(max, w, run);
      LifeGoesOn(max, Do(max, w, run[0]), run[1..]);
    }
  }

  function Asking(status: JobStatus): StatusCommand {
    StatusCommand(JOB, status, "", None, 0, "")
  }

  const SOME_ATTEMPT := Attempt(1, 0, 0, "", Failed, 0, 0, "", "")

  // ---------------------------------------------------------------- calls during one life

  /** During one life of a job the webhook is called at most `max` times, although
      rejected transitions are reported as success; once more only if the life
      began between a mark and its call.  Executions that read one life's attempt
      count make at most `max` calls. */
  lemma CallsNeverExceedMax(max: int, at: int, run: seq<Action>, tag: nat)
    requires 0 <= max && AllEnabled(max, Born(at), run)
    ensures var w := Outcomes(max, Born(at), run);
      w.lifeCalls <= max + (if w.inherited then 1 else 0) && CallsOf(w, tag) <= max
  {
    RunKeepsInv(max, Born(at), run);
  }

  /** Some run of the life that `w` has just begun. */
  ghost predicate CanExceed(max: int, w: World) {
    exists run :: AllEnabled(max, w, run) && NoRebirth(run) && Outcomes(max, w, run).lifeCalls > max
  }

  /** A life can see more than `max` calls if and only if it begins after a mark
      and before the call that follows it. */
  lemma ExtraCallIff(max: int, w: World, birth: Action)
    requires Inv(max, w) && (birth.Create? || birth.Delete?)
    ensures CanExceed(max, Do(max, w, birth)) <==> w.pc.Marked?
  {
    var w1 := Do(max, w, birth);
    StepKeepsInv(max, w, birth);
    if w.pc.Marked? {
      var run := ExtraCall(max, w1);
    } else {
      forall run | AllEnabled(max, w1, run) && NoRebirth(run) ensures Outcomes(max, w1, run).lifeCalls <= max {
        LifeGoesOn(max, w1, run);
        RunKeepsInv(max, w1, run);
      }
    }
  }

  /** The carried call, then as many executions as are allowed. */
  lemma ExtraCall(max: int, w: World) returns (run: seq<Action>)
    requires Inv(max, w) && w.pc.Marked? && w.lifeCalls == 0 && AttemptCount(w.exec) == 0
    requires CanExecute(w.exec)
    ensures AllEnabled(max, w, run) && NoRebirth(run) && Outcomes(max, w, run).lifeCalls == max + 1
  {
    hide Inv, Commit, AllEnabled, Outcomes;
    var w1 := Do(max, w, Call);
    var w2 := Do(max, w1, Return(false));
    var w3 := Do(max, w2, Decide);
    var w4 := Do(max, w3, Record(SOME_ATTEMPT, Lost));
    run := Rounds(max, w4) by {
      NonNegativeMax(max, w);
    }
    run := Prepend(max, w3, Record(SOME_ATTEMPT, Lost), run);
    run := Prepend(max, w2, Decide, run);
    run := Prepend(max, w1, Return(false), run);
    run := Prepend(max, w, Call, run);
  }

  lemma NonNegativeMax(max: int, w: World)
    requires Inv(max, w)
    ensures 0 <= max
  {
  }

  /** From an idle worker and a job that can be executed, every attempt left is called. */
  lemma {:induction false} Rounds(max: int, w: World) returns (run: seq<Action>)
    requires w.pc.Idle? && CanExecute(w.exec) && 0 <= AttemptCount(w.exec) <= max
    ensures AllEnabled(max, w, run) && NoRebirth(run)
    ensures Outcomes(max, w, run).lifeCalls == w.lifeCalls + (max - AttemptCount(w.exec))
    decreases max - AttemptCount(w.exec)
  {
    if AttemptCount(w.exec) == max {
      return [];
    }
    hide AllEnabled, Outcomes, NoRebirth, Calls, Do, Enabled;
    var w4 := UpToCall(max, w);
    var w8 := AfterCall(max, w4);
    run := Rounds(max, w8);
    var mark, record, sweep := Mark(Asking(InProgress), Committed), Record(SOME_ATTEMPT, Lost), Sweep(Asking(Timeout));
    run := FourSteps(max, w4, Return(false), Decide, record, sweep, run);
    run := FourSteps(max, w, Check, Number, mark, Call, run);
  }

  lemma FourSteps(max: int, w: World, a: Action, b: Action, c: Action, d: Action, run: seq<Action>) returns (r: seq<Action>)
    requires Enabled(w, a) && Enabled(Do(max, w, a), b) && Enabled(Do(max, Do(max, w, a), b), c)
    requires Enabled(Do(max, Do(max, Do(max, w, a), b), c), d)
    requires AllEnabled(max, Do(max, Do(max, Do(max, Do(max, w, a), b), c), d), run) && NoRebirth(run)
    requires forall x :: x in [a, b, c, d] ==> !x.Create? && !x.Delete?
    ensures AllEnabled(max, w, r) && NoRebirth(r)
    ensures Outcomes(max, w, r) == Outcomes(max, Do(max, Do(max, Do(max, Do(max, w, a), b), c), d), run)
    ensures r == [a] + ([b] + ([c] + ([d] + run)))
  {
    hide AllEnabled, Outcomes, NoRebirth, Calls, Do, Enabled;
    var w1 := Do(max, w, a);
    var w2 := Do(max, w1, b);
    assert a in [a, b, c, d] && b in [a, b, c, d] && c in [a, b, c, d] && d in [a, b, c, d];
    r := Prepend(max, Do(max, w2, c), d, run);
    r := Prepend(max, w2, c, r);
    r := Prepend(max, w1, b, r);
    r := Prepend(max, w, a, r);
  }

  lemma UpToCall(max: int, w: World) returns (w': World)
    requires w.pc.Idle? && CanExecute(w.exec) && 0 <= AttemptCount(w.exec) < max
    ensures Enabled(w, Check) && Enabled(Do(max, w, Check), Number)
    ensures var w2 := Do(max, Do(max, w, Check), Number); var mark := Mark(Asking(InProgress), Committed);
      && Enabled(w2, mark) && Enabled(Do(max, w2, mark), Call) && w' == Do(max, Do(max, w2, mark), Call)
    ensures w'.pc.Calling? && w'.exec.Some? && w'.exec.value.status == InProgress
    ensures AttemptCount(w'.exec) == AttemptCount(w.exec) + 1 && w'.lifeCalls == w.lifeCalls + 1
  {
    w' := Do(max, Do(max, Do(max, Do(max, w, Check), Number), Mark(Asking(InProgress), Committed)), Call);
  }

  lemma AfterCall(max: int, w: World) returns (w': World)
    requires w.pc.Calling? && w.exec.Some? && w.exec.value.status == InProgress
    ensures Enabled(w, Return(false)) && Enabled(Do(max, w, Return(false)), Decide)
    ensures var w2 := Do(max, Do(max, w, Return(false)), Decide); var record, sweep := Record(SOME_ATTEMPT, Lost), Sweep(Asking(Timeout));
      && Enabled(w2, record) && Enabled(Do(max, w2, record), sweep) && w' == Do(max, Do(max, w2, record), sweep)
    ensures w'.pc.Idle? && CanExecute(w'.exec)
    ensures AttemptCount(w'.exec) == AttemptCount(w.exec) && w'.lifeCalls == w.lifeCalls
  {
    w' := Do(max, Do(max, Do(max, Do(max, w, Return(false)), Decide), Record(SOME_ATTEMPT, Lost)), Sweep(Asking(Timeout)));
  }

  /** Such a run, from the creation of a job: it is marked, deleted, created again,
      and then called once too often. */
  lemma OneCallTooMany(max: int, at: int) returns (run: seq<Action>)
    requires 1 <= max
    ensures AllEnabled(max, Born(at), run)
    ensures var w := Outcomes(max, Born(at), run); w.incarnation == 2 && w.lifeCalls == max + 1
  {
    hide Inv, AllEnabled, Outcomes, NoRebirth, Calls;
    var w1, w2, w3 := FirstMark(max, at);
    var w4 := Do(max, w3, Delete);
    var w5 := Do(max, w4, Create(at));
    StepKeepsInv(max, w3, Delete);
    StepKeepsInv(max, w4, Create(at));
    run := ExtraCall(max, w5);
    LifeGoesOn(max, w5, run);
    run := Prepend(max, w4, Create(at), run);
    run := Prepend(max, w3, Delete, run);
    run := Prepend(max, w2, Mark(Asking(InProgress), Committed), run);
    run := Prepend(max, w1, Number, run);
    run := Prepend(max, Born(at), Check, run);
  }

  lemma FirstMark(max: int, at: int) returns (w1: World, w2: World, w3: World)
    requires 1 <= max
    ensures Enabled(Born(at), Check) && w1 == Do(max, Born(at), Check) && Enabled(w1, Number) && w2 == Do(max, w1, Number)
    ensures var mark := Mark(Asking(InProgress), Committed); Enabled(w2, mark) && w3 == Do(max, w2, mark)
    ensures Inv(max, w3) && w3.pc.Marked? && w3.incarnation == 0
  {
    w1 := Do(max, Born(at), Check);
    w2 := Do(max, w1, Number);
    w3 := Do(max, w2, Mark(Asking(InProgress), Committed));
  }

  // ---------------------------------------------------------------- calls after a cancel

  /** Once the job is cancelled at most one call starts during that life, whichever
      life the caller read. */
  lemma OneCallAfterCancel(max: int, at: int, run: seq<Action>)
    requires 0 <= max && AllEnabled(max, Born(at), run)
    ensures Outcomes(max, Born(at), run).lateCalls <= 1
  {
    RunKeepsInv(max, Born(at), run);
  }

  /** The worker will not look at the status again before its call. */
  predicate PastChecks(max: int, w: World) {
    BeforeCall(w.pc) || (w.pc.Admitted? && AttemptCount(w.exec) < max)
  }

  ghost predicate CanStillCall(max: int, w: World) {
    exists run :: AllEnabled(max, w, run) && NoRebirth(run) && Calls(run) > 0
  }

  /** After a cancel a call can still start, and then exactly one, if and only if
      the worker had passed its checks. */
  lemma LateCallIff(max: int, w: World)
    requires IsCancelled(w.exec)
    ensures CanStillCall(max, w) <==> PastChecks(max, w)
    ensures forall run :: AllEnabled(max, w, run) && NoRebirth(run) ==> Calls(run) <= 1
  {
    forall run | AllEnabled(max, w, run) && NoRebirth(run) ensures Calls(run) <= if PastChecks(max, w) then 1 else 0 {
      LateCalls(max, w, run);
    }
    if PastChecks(max, w) {
      var run := LateCall(max, w);
    }
  }

  lemma {:induction false} LateCalls(max: int, w: World, run: seq<Action>)
    requires IsCancelled(w.exec) && AllEnabled(max, w, run) && NoRebirth(run)
    ensures Calls(run) <= if PastChecks(max, w) then 1 else 0
    decreases |run|
  {
    if run != [] {
      Tail(max, w, run);
      LateCalls(max, Do(max, w, run[0]), run[1..]);
    }
  }

  lemma {:induction false} LateCall(max: int, w: World) returns (run: seq<Action>)
    requires IsCancelled(w.exec) && PastChecks(max, w)
    ensures AllEnabled(max, w, run) && NoRebirth(run) && Calls(run) == 1
    decreases w.pc.Admitted?, w.pc.Numbered?
  {
    var a := if w.pc.Admitted? then Number else if w.pc.Numbered? then Mark(Asking(InProgress), Committed) else Call;
    var rest := [];
    if a != Call {
      rest := LateCall(max, Do(max, w, a));
    }
    run := Prepend(max, w, a, rest);
  }

  /** The bound is met: a cancel that lands before the mark leaves a job that was
      called once with no attempt counted. */
  lemma RejectedMarkStillCalls(max: int, at: int) returns (run: seq<Action>)
    requires 1 <= max
    ensures AllEnabled(max, Born(at), run)
    ensures var w := Outcomes(max, Born(at), run);
      IsCancelled(w.exec) && AttemptCount(w.exec) == 0 && w.lifeCalls == 1 && w.lateCalls == 1
  {
    var w0, cancel, mark := Born(at), Cancel(Asking(Cancelled)), Mark(Asking(InProgress), Committed);
    var w1 := Do(max, w0, Check);
    var w2 := Do(max, w1, Number);
    var w3 := Do(max, w2, cancel);
    var w4 := Do(max, w3, mark);
    run := Prepend(max, w4, Call, []);
    run := Prepend(max, w3, mark, run);
    run := Prepend(max, w2, cancel, run);
    run := Prepend(max, w1, Number, run);
    run := Prepend(max, w0, Check, run);
  }

  /** A cancelled job stays cancelled whatever the worker commits later. */
  lemma {:induction false} CancelledStays(max: int, w: World, run: seq<Action>)
    requires IsCancelled(w.exec) && AllEnabled(max, w, run) && NoRebirth(run)
    ensures var w' := Outcomes(max, w, run);
      IsCancelled(w'.exec) && w'.exec.value == w.exec.value.(attempts := w'.exec.value.attempts)
    decreases |run|
  {
    if run != [] {
      Tail(max, w, run);
      CancelledStays(max, Do(max, w, run[0]), run[1..]);
    }
  }

  // ---------------------------------------------------------------- recorded attempts

  /** Recorded attempts exceed the attempt count by at most one, and only for a
      cancelled job, but for those the life never made: one from an execution that
      was under way when it began, and those a prune held then. */
  lemma RecordedAttemptsBound(max: int, at: int, run: seq<Action>)
    requires 0 <= max && AllEnabled(max, Born(at), run)
    ensures var w := Outcomes(max, Born(at), run);
      && Strangers(w) <= w.books.legacy + (if w.books.owing then 1 else 0)
      && Recorded(w.exec) <= AttemptCount(w.exec) + (if IsCancelled(w.exec) then 1 else 0) + Strangers(w)
  {
    RunKeepsInv(max, Born(at), run);
  }

  ghost predicate CanInherit(max: int, w: World) {
    exists run :: AllEnabled(max, w, run) && NoRebirth(run) && Strangers(Outcomes(max, w, run)) > 0
  }

  /** A prune that keeps some attempt has read the job and not yet written back. */
  predicate Withholds(w: World) {
    w.books.pruner.Holding? && w.books.pruner.kept != []
  }

  /** A life can be given an attempt it never made if and only if it begins while
      an execution is between its number and its record, or while a prune that
      keeps an attempt is between its read and its commit. */
  lemma ForeignAttemptIff(max: int, w: World, birth: Action)
    requires Inv(max, w) && (birth.Create? || birth.Delete?)
    ensures CanInherit(max, Do(max, w, birth)) <==> BeforeCall(w.pc) || OwesRecord(w.pc) || Withholds(w)
  {
    var w1 := Do(max, w, birth);
    StepKeepsInv(max, w, birth);
    if BeforeCall(w.pc) || OwesRecord(w.pc) {
      var run := FinishRecord(max, w1);
    } else if Withholds(w) {
      var run := StalePrune(max, w1);
    } else {
      forall run | AllEnabled(max, w1, run) && NoRebirth(run) ensures Strangers(Outcomes(max, w1, run)) <= 0 {
        LifeGoesOn(max, w1, run);
        RunKeepsInv(max, w1, run);
      }
    }
  }

  function StepsLeft(w: World): nat {
    (if w.exec.None? then 1 else 0) +
    (match w.pc case Numbered(_, _) => 10 case Marked(_, _) => 8 case Calling(_) => 6 case Returned(_, _) => 4 case _ => 2)
  }

  /** An execution that read an earlier life has its attempt still to record. */
  predicate OwesElsewhere(w: World) {
    && (BeforeCall(w.pc) || OwesRecord(w.pc)) && w.pc.tag < w.incarnation
    && (IsCancelled(w.exec) ==> w.pc.Recording? || w.pc.RecordingCancelled?)
  }

  /** Its next step. */
  function Onward(w: World): Action {
    match w.pc
    case Numbered(_, _) => Mark(Asking(InProgress), Committed)
    case Marked(_, _) => Call
    case Calling(_) => Return(true)
    case Returned(_, _) => Decide
    case _ => if w.exec.None? then Cancel(Asking(Cancelled)) else Record(SOME_ATTEMPT, Committed)
  }

  lemma OnwardStep(max: int, w: World)
    requires OwesElsewhere(w)
    ensures Enabled(w, Onward(w)) && !Onward(w).Create? && !Onward(w).Delete?
    ensures !Onward(w).Record? ==>
      var w' := Do(max, w, Onward(w)); OwesElsewhere(w') && StepsLeft(w') < StepsLeft(w) && Strangers(w') == Strangers(w)
  {
    hide Strangers;
    assert !Onward(w).Record? ==>
      var w' := Do(max, w, Onward(w)); w'.books == w.books && w'.incarnation == w.incarnation;
    SameStrangers(w, if Onward(w).Record? then w else Do(max, w, Onward(w)));
  }

  lemma SameStrangers(w: World, w': World)
    ensures w'.books == w.books && w'.incarnation == w.incarnation ==> Strangers(w') == Strangers(w)
  {
  }

  lemma RecordElsewhere(max: int, w: World)
    requires OwesElsewhere(w) && Onward(w).Record? && Enabled(w, Onward(w))
    ensures Strangers(Do(max, w, Onward(w))) == Strangers(w) + 1
  {
    OwnSnoc(w.books.origin, w.pc.tag, w.incarnation);
    hide Own;
  }

  /** The rest of that execution, up to its record. */
  lemma {:induction false} FinishRecord(max: int, w: World) returns (run: seq<Action>)
    requires OwesElsewhere(w)
    ensures AllEnabled(max, w, run) && NoRebirth(run) && Strangers(Outcomes(max, w, run)) == Strangers(w) + 1
    decreases StepsLeft(w)
  {
    hide Do, Enabled, OwesElsewhere, Onward, StepsLeft, Strangers, Calls;
    OnwardStep(max, w);
    var a, rest := Onward(w), [];
    if a.Record? {
      RecordElsewhere(max, w);
    } else {
      rest := FinishRecord(max, Do(max, w, a));
    }
    run := Prepend(max, w, a, rest);
  }

  /** The commit of a prune that read an earlier life. */
  lemma StalePrune(max: int, w: World) returns (run: seq<Action>)
    requires Withholds(w) && |w.books.pruner.origin| == |w.books.pruner.kept|
    requires forall i :: 0 <= i < |w.books.pruner.origin| ==> w.books.pruner.origin[i] < w.incarnation
    ensures AllEnabled(max, w, run) && NoRebirth(run) && Strangers(Outcomes(max, w, run)) == |w.books.pruner.kept|
  {
    OwnNone(w.books.pruner.origin, w.incarnation);
    var w1 := if w.exec.None? then Do(max, w, Cancel(Asking(Cancelled))) else w;
    run := Prepend(max, w1, PruneCommit(Committed), []);
    if w.exec.None? {
      run := Prepend(max, w, Cancel(Asking(Cancelled)), run);
    }
  }

  lemma {:induction false} Extend(max: int, w: World, run: seq<Action>, a: Action)
    requires AllEnabled(max, w, run) && Enabled(Outcomes(max, w, run), a)
    ensures AllEnabled(max, w, run + [a]) && Outcomes(max, w, run + [a]) == Do(max, Outcomes(max, w, run), a)
    decreases |run|
  {
    hide Do, Enabled;
    if run == [] {
      assert run + [a] == [a] && [a][1..] == [];
    } else {
      assert (run + [a])[1..] == run[1..] + [a];
      Extend(max, Do(max, w, run[0]), run[1..], a);
    }
  }

  lemma FourMore(max: int, w: World, run: seq<Action>, a: Action, b: Action, c: Action, d: Action) returns (r: seq<Action>)
    requires AllEnabled(max, w, run)
    requires var w0 := Outcomes(max, w, run);
      && Enabled(w0, a) && Enabled(Do(max, w0, a), b) && Enabled(Do(max, Do(max, w0, a), b), c)
      && Enabled(Do(max, Do(max, Do(max, w0, a), b), c), d)
    ensures AllEnabled(max, w, r)
    ensures Outcomes(max, w, r) == Do(max, Do(max, Do(max, Do(max, Outcomes(max, w, run), a), b), c), d)
  {
    hide AllEnabled, Outcomes, Do, Enabled;
    Extend(max, w, run, a);
    Extend(max, w, run + [a], b);
    Extend(max, w, run + [a] + [b], c);
    Extend(max, w, run + [a] + [b] + [c], d);
    r := run + [a] + [b] + [c] + [d];
  }

  /** Idle, with nothing pruned, and these attempts recorded in the first life. */
  predicate Rested(w: World, attempts: seq<Attempt>, count: int) {
    && w.pc.Idle? && w.books.pruner.Resting? && w.incarnation == 0
    && w.exec.Some? && CanExecute(w.exec) && w.exec.value.attempts == attempts && AttemptCount(w.exec) == count
  }

  /** One failed execution, with its attempt recorded. */
  lemma OneExecution(max: int, w: World, run: seq<Action>, attempts: seq<Attempt>, count: int, t: Attempt) returns (r: seq<Action>)
    requires AllEnabled(max, w, run) && Rested(Outcomes(max, w, run), attempts, count) && 0 <= count < max
    ensures AllEnabled(max, w, r) && Rested(Outcomes(max, w, r), attempts + [t], count + 1)
  {
    var w0 := Outcomes(max, w, run);
    hide AllEnabled, Outcomes;
    CalledFacts(max, w0, attempts, count, t);
    hide Do, Enabled;
    r := FourMore(max, w, run, Check, Number, Mark(Asking(InProgress), Committed), Call);
    r := FourMore(max, w, r, Return(false), Decide, Record(t, Committed), Close(Asking(Failed), Committed));
  }

  lemma CalledFacts(max: int, w0: World, attempts: seq<Attempt>, count: int, t: Attempt)
    requires Rested(w0, attempts, count) && 0 <= count < max
    ensures var mark, close := Mark(Asking(InProgress), Committed), Close(Asking(Failed), Committed);
      && Enabled(w0, Check) && Enabled(Do(max, w0, Check), Number) && Enabled(Do(max, Do(max, w0, Check), Number), mark)
      && var w3 := Do(max, Do(max, Do(max, w0, Check), Number), mark);
      && Enabled(w3, Call)
      && var w4 := Do(max, w3, Call);
      && Enabled(w4, Return(false)) && Enabled(Do(max, w4, Return(false)), Decide)
      && var w6 := Do(max, Do(max, w4, Return(false)), Decide);
      && Enabled(w6, Record(t, Committed)) && Enabled(Do(max, w6, Record(t, Committed)), close)
      && Rested(Do(max, Do(max, w6, Record(t, Committed)), close), attempts + [t], count + 1)
  {
    var w4 := UpToCall(max, w0);
    assert w4.exec.value.attempts == attempts && w4.books.pruner.Resting? && w4.incarnation == 0;
  }

  function AttemptAt(startTime: int): Attempt {
    SOME_ATTEMPT.(startTime := startTime)
  }

  /** Two attempts, a prune that reads them, and a job created again before it
      writes back: the new job is pending, idle, and has an attempt it never made. */
  lemma StalePruneRun(max: int, at: int) returns (run: seq<Action>)
    requires 2 <= max
    ensures AllEnabled(max, Born(at), run)
    ensures var w := Outcomes(max, Born(at), run);
      && w.pc.Idle? && !w.books.owing && w.exec.Some? && w.exec.value.status == Pending && AttemptCount(w.exec) == 0
      && w.exec.value.attempts == [AttemptAt(1)]
  {
    run := OneExecution(max, Born(at), [], [], 0, AttemptAt(0));
    run := OneExecution(max, Born(at), run, [] + [AttemptAt(0)], 1, AttemptAt(1));
    assert [] + [AttemptAt(0)] + [AttemptAt(1)] == [AttemptAt(0), AttemptAt(1)];
    hide AllEnabled, Outcomes, Do, Enabled, Rested;
    PruneRace(max, at, Outcomes(max, Born(at), run));
    run := FourMore(max, Born(at), run, PruneRead(1), Delete, Create(at), PruneCommit(Committed));
  }

  lemma PruneRace(max: int, at: int, w: World)
    requires Rested(w, [AttemptAt(0), AttemptAt(1)], 2)
    ensures Enabled(w, PruneRead(1)) && Enabled(Do(max, w, PruneRead(1)), Delete)
    ensures var w2 := Do(max, Do(max, w, PruneRead(1)), Delete); var commit := PruneCommit(Committed);
      && Enabled(w2, Create(at)) && Enabled(Do(max, w2, Create(at)), commit)
      && var w4 := Do(max, Do(max, w2, Create(at)), commit);
      && w4.pc.Idle? && !w4.books.owing && w4.exec.Some? && w4.exec.value.status == Pending && AttemptCount(w4.exec) == 0
      && w4.exec.value.attempts == [AttemptAt(1)]
  {
    KeepsTheSecond();
    hide Recent, RecentOrigin;
    var w1 := Do(max, w, PruneRead(1));
    assert w1.books.pruner.Holding? && w1.books.pruner.kept == [AttemptAt(1)];
  }

  lemma KeepsTheSecond()
    ensures Recent([AttemptAt(0), AttemptAt(1)], 1) == [AttemptAt(1)]
  {
    var a := [AttemptAt(0), AttemptAt(1)];
    assert a[..1] == [AttemptAt(0)] && a[..1][..0] == [];
    assert Recent(a[..1], 1) == [];
  }
}
