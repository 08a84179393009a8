/**
 Where the usage counters of admission control come from: every unit charged is
 accounted for by a job that was admitted, a request still under way, a leak, or a
 release.
 */
module AdmissionLedger {
  import opened Types
  import opened FsmSpec
  import opened FsmInvariants
  import opened Admission

  /** The size each place was last asked for. */
  type Sizes = map<nat, int>

  function Asked(sizes: Sizes, i: nat): int {
    if i in sizes then sizes[i] else 0
  }

  function Asks(sizes: Sizes, a: Action): Sizes {
    if a.CheckMemory? then sizes[a.i := a.size] else sizes
  }

  /** The change of tracked memory that an action commits, if any. */
  function MemoryEntry(a: Action, sizes: Sizes): seq<int> {
    match a
    case Charge(i, o) => if o.Lost? then [] else [Asked(sizes, i)]
    case Undo(i, o) => if o.Lost? then [] else [-Asked(sizes, i)]
    case ReleaseMemory(size) => [-size]
    case _ => []
  }

  function CountEntry(a: Action): seq<int> {
    match a
    case CountUp(_, o) => if o.Lost? then [] else [1]
    case ReleaseCount => [-1]
    case _ => []
  }

  function MemoryLedger(run: seq<Action>, sizes: Sizes): seq<int> {
    if run == [] then [] else MemoryEntry(run[0], sizes) + MemoryLedger(run[1..], Asks(sizes, run[0]))
  }

  function CountLedger(run: seq<Action>): seq<int> {
    if run == [] then [] else CountEntry(run[0]) + CountLedger(run[1..])
  }

  // ---------------------------------------------------------------- the counters are the ledgers

  /** Every request under way has the size its place was last asked for. */
  ghost predicate Matches(rs: seq<Phase>, sizes: Sizes) {
    forall i :: 0 <= i < |rs| && !rs[i].Free? ==> rs[i].size == Asked(sizes, i)
  }

  lemma {:induction false} FoldFirst(start: int, d: int, deltas: seq<int>)
    ensures Fold(start, [d] + deltas) == Fold(Clamp(start, d), deltas)
  {
    var all := [d] + deltas;
    if deltas == [] {
      assert all[..0] == [] && all == [d];
      assert Fold(start, all[..0]) == start;
    } else {
      assert all[..|all| - 1] == [d] + deltas[..|deltas| - 1];
      FoldFirst(start, d, deltas[..|deltas| - 1]);
    }
  }

  lemma FoldEntry(start: int, entry: seq<int>, deltas: seq<int>)
    requires |entry| <= 1
    ensures Fold(start, entry + deltas) == Fold(if entry == [] then start else Clamp(start, entry[0]), deltas)
  {
    if entry == [] {
      assert entry + deltas == deltas;
    } else {
      assert entry == [entry[0]];
      FoldFirst(start, entry[0], deltas);
    }
  }

  lemma OneEntry(l: Limits, n: Node, a: Action, sizes: Sizes)
    requires Enabled(l, n, a) && Matches(n.requests, sizes)
    ensures var n', m, c := Do(l, n, a), MemoryEntry(a, sizes), CountEntry(a);
      && Matches(n'.requests, Asks(sizes, a))
      && n'.memory == (if m == [] then n.memory else Clamp(n.memory, m[0]))
      && n'.count == (if c == [] then n.count else Clamp(n.count, c[0]))
  {
  }

  /** Over every run both counters are the clamped folds of their ledgers. */
  lemma {:induction false} CountersAreLedgers(l: Limits, n: Node, run: seq<Action>, sizes: Sizes)
    requires AllEnabled(l, n, run) && Matches(n.requests, sizes)
    ensures After(l, n, run).memory == Fold(n.memory, MemoryLedger(run, sizes))
    ensures After(l, n, run).count == Fold(n.count, CountLedger(run))
    decreases |run|
  {
    hide Do, Enabled, Matches, MemoryEntry, CountEntry, Clamp;
    if run != [] {
      OneEntry(l, n, run[0], sizes);
      EntryIsShort(run[0], sizes);
      CountersAreLedgers(l, Do(l, n, run[0]), run[1..], Asks(sizes, run[0]));
      FoldEntry(n.memory, MemoryEntry(run[0], sizes), MemoryLedger(run[1..], Asks(sizes, run[0])));
      FoldEntry(n.count, CountEntry(run[0]), CountLedger(run[1..]));
    }
  }

  lemma EntryIsShort(a: Action, sizes: Sizes)
    ensures |MemoryEntry(a, sizes)| <= 1 && |CountEntry(a)| <= 1
  {
  }

  // ---------------------------------------------------------------- what the entries add up to

  /** The memory of the jobs admitted: those whose count was reported as recorded. */
  function Admitted(run: seq<Action>, sizes: Sizes): int {
    if run == [] then 0
    else (if run[0].CountUp? && run[0].outcome.Committed? then Asked(sizes, run[0].i) else 0) + Admitted(run[1..], Asks(sizes, run[0]))
  }

  /** Charged for good without a job: a charge that took effect and was reported as
      failed, or a rollback that was lost. */
  function Leaked(run: seq<Action>, sizes: Sizes): int {
    if run == [] then 0
    else
      (match run[0]
       case Charge(i, Unreported) => Asked(sizes, i)
       case Undo(i, Lost) => Asked(sizes, i)
       case _ => 0) + Leaked(run[1..], Asks(sizes, run[0]))
  }

  function Released(run: seq<Action>): int {
    if run == [] then 0 else (if run[0].ReleaseMemory? then run[0].size else 0) + Released(run[1..])
  }

  function AdmittedJobs(run: seq<Action>): int {
    if run == [] then 0 else (if run[0].CountUp? && run[0].outcome.Committed? then 1 else 0) + AdmittedJobs(run[1..])
  }

  /** Counted without a job: the count took effect and was reported as failed. */
  function LeakedJobs(run: seq<Action>): int {
    if run == [] then 0 else (if run[0].CountUp? && run[0].outcome.Unreported? then 1 else 0) + LeakedJobs(run[1..])
  }

  function ReleasedJobs(run: seq<Action>): int {
    if run == [] then 0 else (if run[0].ReleaseCount? then 1 else 0) + ReleasedJobs(run[1..])
  }

  /** Charged by requests still under way. */
  function Holding(p: Phase): int {
    if p.Charged? || p.Undoing? then p.size else 0
  }

  function Held(rs: seq<Phase>): int {
    if rs == [] then 0 else Holding(rs[0]) + Held(rs[1..])
  }

  lemma {:induction false} HeldUpdate(rs: seq<Phase>, i: nat, p: Phase)
    requires i < |rs|
    ensures Held(rs[i := p]) == Held(rs) - Holding(rs[i]) + Holding(p)
  {
    if i > 0 {
      assert rs[i := p][1..] == rs[1..][i - 1 := p];
      HeldUpdate(rs[1..], i - 1, p);
    }
  }

  lemma {:induction false} SumFirst(entry: seq<int>, deltas: seq<int>)
    requires |entry| <= 1
    ensures Sum(entry + deltas) == (if entry == [] then 0 else entry[0]) + Sum(deltas)
  {
    if entry == [] {
      assert entry + deltas == deltas;
    } else if deltas == [] {
      assert entry + deltas == entry && entry[..0] == [];
      assert Sum(entry[..0]) == 0;
    } else {
      var all := entry + deltas;
      assert all[..|all| - 1] == entry + deltas[..|deltas| - 1];
      SumFirst(entry, deltas[..|deltas| - 1]);
    }
  }

  /** One action balances. */
  lemma OneBalances(l: Limits, n: Node, a: Action, sizes: Sizes)
    requires Enabled(l, n, a) && Matches(n.requests, sizes)
    ensures var m := MemoryEntry(a, sizes);
      (if m == [] then 0 else m[0]) == Held(Do(l, n, a).requests) - Held(n.requests) + Admitted([a], sizes) + Leaked([a], sizes) - Released([a])
    ensures var c := CountEntry(a);
      (if c == [] then 0 else c[0]) == AdmittedJobs([a]) + LeakedJobs([a]) - ReleasedJobs([a])
  {
    var n' := Do(l, n, a);
    assert [a][1..] == [];
    if a.CheckMemory? || a.CheckCount? || a.GiveUp? || a.Charge? || a.CountUp? || a.Undo? {
      if n'.requests != n.requests {
        assert n'.requests == n.requests[a.i := n'.requests[a.i]];
        HeldUpdate(n.requests, a.i, n'.requests[a.i]);
      }
    }
  }

  lemma First(run: seq<Action>, sizes: Sizes)
    requires run != []
    ensures var a, rest, more := run[0], run[1..], Asks(sizes, run[0]);
      && Admitted(run, sizes) == Admitted([a], sizes) + Admitted(rest, more)
      && Leaked(run, sizes) == Leaked([a], sizes) + Leaked(rest, more)
      && Released(run) == Released([a]) + Released(rest)
      && AdmittedJobs(run) == AdmittedJobs([a]) + AdmittedJobs(rest)
      && LeakedJobs(run) == LeakedJobs([a]) + LeakedJobs(rest)
      && ReleasedJobs(run) == ReleasedJobs([a]) + ReleasedJobs(rest)
  {
    var a := run[0];
    assert [a][1..] == [] && [a][0] == a;
  }

  lemma {:induction false} LedgersBalance(l: Limits, n: Node, run: seq<Action>, sizes: Sizes)
    requires AllEnabled(l, n, run) && Matches(n.requests, sizes)
    ensures Sum(MemoryLedger(run, sizes))
         == Held(After(l, n, run).requests) - Held(n.requests) + Admitted(run, sizes) + Leaked(run, sizes) - Released(run)
    ensures Sum(CountLedger(run)) == AdmittedJobs(run) + LeakedJobs(run) - ReleasedJobs(run)
    decreases |run|
  {
    if run != [] {
      var a, more := run[0], Asks(sizes, run[0]);
      OneEntry(l, n, a, sizes);
      EntryIsShort(a, sizes);
      OneBalances(l, n, a, sizes);
      hide Do, Enabled, Matches, MemoryEntry, CountEntry, Held, Sum;
      LedgersBalance(l, Do(l, n, a), run[1..], more);
      SumFirst(MemoryEntry(a, sizes), MemoryLedger(run[1..], more));
      SumFirst(CountEntry(a), CountLedger(run[1..]));
      hide Admitted, Leaked, Released, AdmittedJobs, LeakedJobs, ReleasedJobs;
      First(run, sizes);
    }
  }

  /** The law of conservation, over every run from an empty node.  As long as no
      release takes more than there is, so that nothing is clamped, tracked memory
      is what the admitted jobs, the requests under way and the leaks amount to, less
      what was released; and the job count likewise. */
  lemma UsageIsConserved(l: Limits, m: nat, run: seq<Action>)
    requires AllEnabled(l, Start(m), run)
    requires forall i :: 0 <= i <= |MemoryLedger(run, map[])| ==> 0 <= Sum(MemoryLedger(run, map[])[..i])
    requires forall i :: 0 <= i <= |CountLedger(run)| ==> 0 <= Sum(CountLedger(run)[..i])
    ensures var n := After(l, Start(m), run);
      && n.memory == Admitted(run, map[]) + Held(n.requests) + Leaked(run, map[]) - Released(run)
      && n.count == AdmittedJobs(run) + LeakedJobs(run) - ReleasedJobs(run)
  {
    NothingHeld(Start(m).requests);
    CountersAreLedgers(l, Start(m), run, map[]);
    LedgersBalance(l, Start(m), run, map[]);
    ClampedCounterClosedForm(MemoryLedger(run, map[]));
    ClampedCounterClosedForm(CountLedger(run));
  }

  /** With clamping the counters are more than that, by the deepest debt. */
  lemma UsageWithClamping(l: Limits, m: nat, run: seq<Action>)
    requires AllEnabled(l, Start(m), run)
    ensures var n := After(l, Start(m), run);
      && n.memory == Admitted(run, map[]) + Held(n.requests) + Leaked(run, map[]) - Released(run) - LowWater(MemoryLedger(run, map[]))
      && n.count == AdmittedJobs(run) + LeakedJobs(run) - ReleasedJobs(run) - LowWater(CountLedger(run))
  {
    NothingHeld(Start(m).requests);
    CountersAreLedgers(l, Start(m), run, map[]);
    LedgersBalance(l, Start(m), run, map[]);
    ClampedCounterClosedForm(MemoryLedger(run, map[]));
    ClampedCounterClosedForm(CountLedger(run));
  }

  lemma {:induction false} NothingHeld(rs: seq<Phase>)
    requires forall i :: 0 <= i < |rs| ==> rs[i] == Free
    ensures Held(rs) == 0
  {
    if rs != [] {
      NothingHeld(rs[1..]);
    }
  }

  /** A request that is rolled back leaves the node it found. */
  lemma RollbackRestores(l: Limits, n: Node, i: nat, size: int)
    requires i < |n.requests| && n.requests[i].Free? && 0 <= size <= l.largest && 0 <= n.memory
    requires n.memory + size <= l.memory && n.count < l.jobs
    ensures var run := [CheckMemory(i, size), CheckCount(i), Charge(i, Committed), CountUp(i, Lost), Undo(i, Committed)];
      AllEnabled(l, n, run) && After(l, n, run) == n
  {
    var n1 := Do(l, n, CheckMemory(i, size));
    var n2 := Do(l, n1, CheckCount(i));
    var n3 := Do(l, n2, Charge(i, Committed));
    var n4 := Do(l, n3, CountUp(i, Lost));
    var n5 := Do(l, n4, Undo(i, Committed));
    assert n5.requests == n.requests;
    hide Do, Enabled;
    RunExtend(l, n, [], CheckMemory(i, size));
    assert [] + [CheckMemory(i, size)] == [CheckMemory(i, size)];
    RunExtend(l, n, [CheckMemory(i, size)], CheckCount(i));
    assert [CheckMemory(i, size)] + [CheckCount(i)] == [CheckMemory(i, size), CheckCount(i)];
    var two := [CheckMemory(i, size), CheckCount(i)];
    RunExtend(l, n, two, Charge(i, Committed));
    RunExtend(l, n, two + [Charge(i, Committed)], CountUp(i, Lost));
    RunExtend(l, n, two + [Charge(i, Committed)] + [CountUp(i, Lost)], Undo(i, Committed));
    assert two + [Charge(i, Committed)] + [CountUp(i, Lost)] + [Undo(i, Committed)]
        == [CheckMemory(i, size), CheckCount(i), Charge(i, Committed), CountUp(i, Lost), Undo(i, Committed)];
  }
}
