/**
 Admission control: capacity is checked first and recorded later, each step a
 separate read or commit, by requests that run concurrently.

 At most `|requests|` requests are under way at once; each runs in one place of
 the sequence, which is used again when it ends.
 */
module Admission {
  import opened Types
  import opened FsmSpec

  /** Limits of the node, and the largest job it is ever asked to take. */
  datatype Limits = Limits(memory: int, jobs: int, largest: int)

  datatype Phase =
    | Free
    | MemoryPassed(size: int)  // the memory check passed
    | Passed(size: int)        // the job-count check passed too
    | Charged(size: int)       // memory recorded, job count still to be recorded
    | Undoing(size: int)       // recording the job count failed

  datatype Node = Node(memory: int, count: int, requests: seq<Phase>)

  datatype Action =
    | CheckMemory(i: nat, size: int)
    | CheckCount(i: nat)
    | GiveUp(i: nat)
    | Charge(i: nat, outcome: Outcome)
    | CountUp(i: nat, outcome: Outcome)
    | Undo(i: nat, outcome: Outcome)
    | ReleaseMemory(size: int)
    | ReleaseCount

  predicate Enabled(l: Limits, n: Node, a: Action) {
    match a
    case CheckMemory(i, size) => i < |n.requests| && n.requests[i].Free? && 0 <= size <= l.largest
    case CheckCount(i) => i < |n.requests| && n.requests[i].MemoryPassed?
    case GiveUp(i) => i < |n.requests| && n.requests[i].Passed?
    case Charge(i, _) => i < |n.requests| && n.requests[i].Passed?
    case CountUp(i, _) => i < |n.requests| && n.requests[i].Charged?
    case Undo(i, _) => i < |n.requests| && n.requests[i].Undoing?
    case ReleaseMemory(size) => 0 <= size
    case ReleaseCount => true
  }

  function Becomes(n: Node, i: nat, p: Phase): Node
    requires i < |n.requests|
  {
    n.(requests := n.requests[i := p])
  }

  function Do(l: Limits, n: Node, a: Action): Node
    requires Enabled(l, n, a)
  {
    match a
    case CheckMemory(i, size) =>
      if n.memory + size > l.memory then n else Becomes(n, i, MemoryPassed(size))
    case CheckCount(i) =>
      if n.count >= l.jobs then Becomes(n, i, Free) else Becomes(n, i, Passed(n.requests[i].size))
    case GiveUp(i) => Becomes(n, i, Free)
    case Charge(i, o) =>
      var size := n.requests[i].size;
      if o.Lost? then Becomes(n, i, Free)
      else Becomes(n, i, if o.Committed? then Charged(size) else Free).(memory := Clamp(n.memory, size))
    case CountUp(i, o) =>
      var size := n.requests[i].size;
      if o.Lost? then Becomes(n, i, Undoing(size))
      else Becomes(n, i, if o.Committed? then Free else Undoing(size)).(count := Clamp(n.count, 1))
    case Undo(i, o) =>
      var n' := Becomes(n, i, Free);
      if o.Lost? then n' else n'.(memory := Clamp(n.memory, -n.requests[i].size))
    case ReleaseMemory(size) => n.(memory := Clamp(n.memory, -size))
    case ReleaseCount => n.(count := Clamp(n.count, -1))
  }

  ghost predicate AllEnabled(l: Limits, n: Node, run: seq<Action>)
    decreases |run|
  {
    run == [] || (Enabled(l, n, run[0]) && AllEnabled(l, Do(l, n, run[0]), run[1..]))
  }

  ghost function After(l: Limits, n: Node, run: seq<Action>): Node
    requires AllEnabled(l, n, run)
    decreases |run|
  {
    if run == [] then n else After(l, Do(l, n, run[0]), run[1..])
  }

  // ---------------------------------------------------------------- what requests may still add

  function MemoryDue(p: Phase): int {
    if p.MemoryPassed? || p.Passed? then p.size else 0
  }

  function CountDue(p: Phase): int {
    if p.Passed? || p.Charged? then 1 else 0
  }

  function MemoryPending(rs: seq<Phase>): int {
    if rs == [] then 0 else MemoryDue(rs[0]) + MemoryPending(rs[1..])
  }

  function CountPending(rs: seq<Phase>): int {
    if rs == [] then 0 else CountDue(rs[0]) + CountPending(rs[1..])
  }

  lemma {:induction false} PendingUpdate(rs: seq<Phase>, i: nat, p: Phase)
    requires i < |rs|
    ensures MemoryPending(rs[i := p]) == MemoryPending(rs) - MemoryDue(rs[i]) + MemoryDue(p)
    ensures CountPending(rs[i := p]) == CountPending(rs) - CountDue(rs[i]) + CountDue(p)
  {
    if i == 0 {
      assert rs[i := p][1..] == rs[1..];
    } else {
      assert rs[i := p][1..] == rs[1..][i - 1 := p];
      PendingUpdate(rs[1..], i - 1, p);
    }
  }

  predicate Sized(l: Limits, p: Phase) {
    p.Free? || 0 <= p.size <= l.largest
  }

  predicate AllSized(l: Limits, rs: seq<Phase>) {
    forall i :: 0 <= i < |rs| ==> Sized(l, rs[i])
  }

  lemma {:induction false} PendingBound(l: Limits, rs: seq<Phase>)
    requires AllSized(l, rs) && 0 <= l.largest
    ensures 0 <= MemoryPending(rs) <= |rs| * l.largest
    ensures 0 <= CountPending(rs) <= |rs|
  {
    if rs != [] {
      assert AllSized(l, rs[1..]) by {
        assert forall i :: 0 <= i < |rs[1..]| ==> rs[1..][i] == rs[i + 1];
      }
      PendingBound(l, rs[1..]);
      assert |rs| * l.largest == |rs[1..]| * l.largest + l.largest;
    }
  }

  /** What the requests other than the `i`th may still add. */
  lemma OthersBound(l: Limits, rs: seq<Phase>, i: nat)
    requires AllSized(l, rs) && 0 <= l.largest && i < |rs| && rs[i].Free?
    ensures MemoryPending(rs) <= (|rs| - 1) * l.largest
  {
    assert rs == rs[..i] + [rs[i]] + rs[i + 1..];
    PendingJoin(rs[..i] + [rs[i]], rs[i + 1..]);
    PendingJoin(rs[..i], [rs[i]]);
    assert AllSized(l, rs[..i]) && AllSized(l, rs[i + 1..]);
    PendingBound(l, rs[..i]);
    PendingBound(l, rs[i + 1..]);
    assert i * l.largest + (|rs| - i - 1) * l.largest == (|rs| - 1) * l.largest;
  }

  lemma OthersCount(l: Limits, rs: seq<Phase>, i: nat)
    requires AllSized(l, rs) && 0 <= l.largest && i < |rs| && rs[i].MemoryPassed?
    ensures CountPending(rs) <= |rs| - 1
  {
    assert rs == rs[..i] + [rs[i]] + rs[i + 1..];
    PendingJoin(rs[..i] + [rs[i]], rs[i + 1..]);
    PendingJoin(rs[..i], [rs[i]]);
    assert AllSized(l, rs[..i]) && AllSized(l, rs[i + 1..]);
    PendingBound(l, rs[..i]);
    PendingBound(l, rs[i + 1..]);
  }

  lemma {:induction false} PendingJoin(a: seq<Phase>, b: seq<Phase>)
    ensures MemoryPending(a + b) == MemoryPending(a) + MemoryPending(b)
    ensures CountPending(a + b) == CountPending(a) + CountPending(b)
  {
    if a == [] {
      assert a + b == b;
    } else {
      assert (a + b)[1..] == a[1..] + b;
      PendingJoin(a[1..], b);
    }
  }

  // ---------------------------------------------------------------- the bound

  function Max(a: int, b: int): int {
    if a >= b then a else b
  }

  function MemoryCeiling(l: Limits, m: nat): int {
    Max(0, l.memory + (m - 1) * l.largest)
  }

  function CountCeiling(l: Limits, m: nat): int {
    Max(0, l.jobs + m - 1)
  }

  ghost predicate Inv(l: Limits, n: Node) {
    && 0 <= l.largest && AllSized(l, n.requests)
    && 0 <= n.memory && n.memory + MemoryPending(n.requests) <= MemoryCeiling(l, |n.requests|)
    && 0 <= n.count && n.count + CountPending(n.requests) <= CountCeiling(l, |n.requests|)
  }

  lemma StepKeepsInv(l: Limits, n: Node, a: Action)
    requires Inv(l, n) && Enabled(l, n, a)
    ensures Inv(l, Do(l, n, a)) && |Do(l, n, a).requests| == |n.requests|
  {
    hide MemoryPending, CountPending, MemoryCeiling, CountCeiling;
    var n' := Do(l, n, a);
    if a.CheckMemory? {
      OthersBound(l, n.requests, a.i);
      CeilingIs(l, |n.requests|);
      PendingUpdate(n.requests, a.i, n'.requests[a.i]);
    } else if a.CheckCount? {
      OthersCount(l, n.requests, a.i);
      CeilingIs(l, |n.requests|);
      PendingUpdate(n.requests, a.i, n'.requests[a.i]);
    } else if !a.ReleaseMemory? && !a.ReleaseCount? {
      PendingUpdate(n.requests, a.i, n'.requests[a.i]);
    }
    assert n.requests == n'.requests || exists i :: 0 <= i < |n.requests| && n'.requests == n.requests[i := n'.requests[i]];
  }

  lemma CeilingIs(l: Limits, m: nat)
    ensures l.memory + (m - 1) * l.largest <= MemoryCeiling(l, m) && l.jobs + m - 1 <= CountCeiling(l, m)
  {
  }

  lemma {:induction false} RunKeepsInv(l: Limits, n: Node, run: seq<Action>)
    requires Inv(l, n) && AllEnabled(l, n, run)
    ensures Inv(l, After(l, n, run)) && |After(l, n, run).requests| == |n.requests|
    decreases |run|
  {
    if run != [] {
      hide Inv, Enabled, Do;
      StepKeepsInv(l, n, run[0]);
      RunKeepsInv(l, Do(l, n, run[0]), run[1..]);
    }
  }

  /** An empty node with room for `m` requests at once. */
  function Start(m: nat): Node {
    Node(0, 0, seq(m, _ => Free))
  }

  lemma {:induction false} NothingPending(rs: seq<Phase>)
    requires forall i :: 0 <= i < |rs| ==> rs[i] == Free
    ensures MemoryPending(rs) == 0 && CountPending(rs) == 0
  {
    if rs != [] {
      assert forall i :: 0 <= i < |rs[1..]| ==> rs[1..][i] == rs[i + 1];
      NothingPending(rs[1..]);
    }
  }

  /** Through rollbacks, removals, clamping and lost commits, tracked memory
      exceeds its limit by at most one largest job for each further concurrent
      request, and the job count by one. */
  lemma OvershootBound(l: Limits, m: nat, run: seq<Action>)
    requires 0 <= l.largest && AllEnabled(l, Start(m), run)
    ensures var n := After(l, Start(m), run);
      && 0 <= n.memory <= Max(0, l.memory + (m - 1) * l.largest)
      && 0 <= n.count <= Max(0, l.jobs + m - 1)
  {
    NothingPending(Start(m).requests);
    RunKeepsInv(l, Start(m), run);
    PendingBound(l, After(l, Start(m), run).requests);
  }

  /** One request at a time never exceeds the limits. */
  lemma SequentialNeverExceeds(l: Limits, run: seq<Action>)
    requires 0 <= l.largest && 0 <= l.memory && 0 <= l.jobs && AllEnabled(l, Start(1), run)
    ensures var n := After(l, Start(1), run);
      n.memory <= l.memory && n.count <= l.jobs
  {
    OvershootBound(l, 1, run);
    assert (1 - 1) * l.largest == 0;
  }

  // ---------------------------------------------------------------- the bound is reached

  lemma {:induction false} RunExtend(l: Limits, n: Node, run: seq<Action>, a: Action)
    requires AllEnabled(l, n, run) && Enabled(l, After(l, n, run), a)
    ensures AllEnabled(l, n, run + [a]) && After(l, n, run + [a]) == Do(l, After(l, n, run), a)
    decreases |run|
  {
    if run == [] {
      assert run + [a] == [a];
      assert [a][1..] == [];
    } else {
      assert (run + [a])[1..] == run[1..] + [a];
      RunExtend(l, Do(l, n, run[0]), run[1..], a);
    }
  }

  function Row(m: nat, j: nat, p: Phase, q: Phase): seq<Phase> {
    seq(m, x => if x < j then p else q)
  }

  /** No request under way. */
  function Quiet(m: nat, memory: int, count: int): Node {
    Node(memory, count, seq(m, _ => Free))
  }

  /** One request on its own, from its first check to its last commit. */
  lemma OneRequest(l: Limits, m: nat, memory: int, count: int, size: int, run: seq<Action>) returns (r: seq<Action>)
    requires 1 <= m && 0 <= size <= l.largest && 0 <= memory <= l.memory - size && 0 <= count < l.jobs
    requires AllEnabled(l, Start(m), run) && After(l, Start(m), run) == Quiet(m, memory, count)
    ensures AllEnabled(l, Start(m), r) && After(l, Start(m), r) == Quiet(m, memory + size, count + 1)
  {
    hide AllEnabled, After;
    var n0 := Quiet(m, memory, count);
    var n1 := Do(l, n0, CheckMemory(0, size));
    var n2 := Do(l, n1, CheckCount(0));
    var n3 := Do(l, n2, Charge(0, Committed));
    var n4 := Do(l, n3, CountUp(0, Committed));
    assert n4.requests == n0.requests;
    hide Do, Enabled;
    RunExtend(l, Start(m), run, CheckMemory(0, size));
    r := run + [CheckMemory(0, size)];
    RunExtend(l, Start(m), r, CheckCount(0));
    r := r + [CheckCount(0)];
    RunExtend(l, Start(m), r, Charge(0, Committed));
    r := r + [Charge(0, Committed)];
    RunExtend(l, Start(m), r, CountUp(0, Committed));
    r := r + [CountUp(0, Committed)];
  }

  /** Any usage with room for one more job of the largest size is reached: memory
      first, a unit at a time and releasing the count, then jobs of no size. */
  lemma {:induction false} Fill(l: Limits, m: nat, memory: nat, count: nat) returns (run: seq<Action>)
    requires 1 <= m && 0 <= l.largest && memory <= l.memory - l.largest && count < l.jobs && (memory > 0 ==> 1 <= l.largest)
    ensures AllEnabled(l, Start(m), run) && After(l, Start(m), run) == Quiet(m, memory, count)
    decreases memory, count
  {
    if count > 0 {
      run := Fill(l, m, memory, count - 1);
      run := OneRequest(l, m, memory, count - 1, 0, run);
    } else if memory > 0 {
      run := Fill(l, m, memory - 1, 0);
      run := OneRequest(l, m, memory - 1, 0, 1, run);
      RunExtend(l, Start(m), run, ReleaseCount);
      run := run + [ReleaseCount];
    } else {
      run := [];
    }
  }

  /** With `memory` and `count` in use, `j` of `m` requests have taken step `stage`
      of check, check, charge, count. */
  function Midway(m: nat, memory: int, count: int, size: int, stage: int, j: nat): Node {
    match stage
    case 0 => Node(memory, count, Row(m, j, MemoryPassed(size), Free))
    case 1 => Node(memory, count, Row(m, j, Passed(size), MemoryPassed(size)))
    case 2 => Node(memory + j * size, count, Row(m, j, Charged(size), Passed(size)))
    case _ => Node(memory + m * size, count + j, Row(m, j, Free, Charged(size)))
  }

  function StageAction(size: int, stage: int, j: nat): Action {
    match stage
    case 0 => CheckMemory(j, size)
    case 1 => CheckCount(j)
    case 2 => Charge(j, Committed)
    case _ => CountUp(j, Committed)
  }

  /** The limits leave room for just one more job of the largest size. */
  predicate Brim(l: Limits, memory: int, count: int) {
    0 <= l.largest && 0 <= memory == l.memory - l.largest && 0 <= count == l.jobs - 1
  }

  lemma StageStep(l: Limits, m: nat, memory: int, count: int, stage: int, j: nat)
    requires Brim(l, memory, count) && j < m && 0 <= stage <= 3
    ensures Enabled(l, Midway(m, memory, count, l.largest, stage, j), StageAction(l.largest, stage, j))
    ensures Do(l, Midway(m, memory, count, l.largest, stage, j), StageAction(l.largest, stage, j))
         == Midway(m, memory, count, l.largest, stage, j + 1)
  {
    var n := Midway(m, memory, count, l.largest, stage, j);
    var n' := Do(l, n, StageAction(l.largest, stage, j));
    assert 0 <= j * l.largest && (j + 1) * l.largest == j * l.largest + l.largest;
    assert n'.requests == Midway(m, memory, count, l.largest, stage, j + 1).requests;
  }

  lemma {:induction false} Reach(l: Limits, m: nat, memory: int, count: int, stage: int, j: nat) returns (run: seq<Action>)
    requires Brim(l, memory, count) && 1 <= m && j <= m && 0 <= stage <= 3 && (memory > 0 ==> 1 <= l.largest)
    ensures AllEnabled(l, Start(m), run) && After(l, Start(m), run) == Midway(m, memory, count, l.largest, stage, j)
    decreases stage, j
  {
    hide Do, Enabled;
    if j > 0 {
      run := Reach(l, m, memory, count, stage, j - 1);
      StageStep(l, m, memory, count, stage, j - 1);
      RunExtend(l, Start(m), run, StageAction(l.largest, stage, j - 1));
      run := run + [StageAction(l.largest, stage, j - 1)];
    } else if stage > 0 {
      run := Reach(l, m, memory, count, stage - 1, m);
      assert Midway(m, memory, count, l.largest, stage - 1, m).requests == Midway(m, memory, count, l.largest, stage, 0).requests;
    } else {
      run := Fill(l, m, memory, count);
      assert Quiet(m, memory, count).requests == Midway(m, memory, count, l.largest, 0, 0).requests;
    }
  }

  /** For every number of concurrent requests, and all limits that admit one job of
      the largest size, some run meets both bounds exactly.  (Jobs of no size
      cannot fill any memory.) */
  lemma OvershootIsReached(l: Limits, m: nat) returns (run: seq<Action>)
    requires 1 <= m && 0 <= l.largest <= l.memory && 1 <= l.jobs && (l.largest == 0 ==> l.memory == 0)
    ensures AllEnabled(l, Start(m), run)
    ensures After(l, Start(m), run).memory == l.memory + (m - 1) * l.largest
    ensures After(l, Start(m), run).count == l.jobs + m - 1
  {
    run := Reach(l, m, l.memory - l.largest, l.jobs - 1, 3, m);
    assert m * l.largest == (m - 1) * l.largest + l.largest;
  }
}
