/** The attempts that pruning keeps. */
module Pruning {
  import opened Types

  function Recent(attempts: seq<Attempt>, cutoff: int): seq<Attempt> {
    if attempts == [] then []
    else
      var before, last := Recent(attempts[..|attempts| - 1], cutoff), attempts[|attempts| - 1];
      if last.startTime >= cutoff then before + [last] else before
  }

  /** Pruning keeps every copy of a recent attempt and no copy of an old one. */
  lemma {:induction false} RecentKeepsExactly(attempts: seq<Attempt>, cutoff: int)
    ensures forall a :: multiset(Recent(attempts, cutoff))[a] == if a.startTime >= cutoff then multiset(attempts)[a] else 0
    ensures |Recent(attempts, cutoff)| <= |attempts|
    ensures |Recent(attempts, cutoff)| == |attempts| ==> Recent(attempts, cutoff) == attempts
  {
    if attempts != [] {
      var before, last := attempts[..|attempts| - 1], attempts[|attempts| - 1];
      assert attempts == before + [last];
      RecentKeepsExactly(before, cutoff);
    }
  }

  lemma NoneOld(attempts: seq<Attempt>, cutoff: int)
    ensures |Recent(attempts, cutoff)| >= |attempts| ==> Recent(attempts, cutoff) == attempts
  {
    RecentKeepsExactly(attempts, cutoff);
  }

  lemma {:induction false} RecentJoin(a: seq<Attempt>, b: seq<Attempt>, cutoff: int)
    ensures Recent(a + b, cutoff) == Recent(a, cutoff) + Recent(b, cutoff)
    decreases |b|
  {
    if b == [] {
      assert a + b == a;
    } else {
      assert (a + b)[..|a + b| - 1] == a + b[..|b| - 1];
      RecentJoin(a, b[..|b| - 1], cutoff);
    }
  }

  lemma {:induction false} RecentNone(attempts: seq<Attempt>, cutoff: int)
    ensures Recent(attempts, cutoff) == [] <==> forall i :: 0 <= i < |attempts| ==> attempts[i].startTime < cutoff
  {
    if attempts != [] {
      var before := attempts[..|attempts| - 1];
      RecentNone(before, cutoff);
      assert attempts == before + [attempts[|attempts| - 1]];
    }
  }

  /** Something is dropped if and only if something is old. */
  lemma {:induction false} RecentAll(attempts: seq<Attempt>, cutoff: int)
    ensures |Recent(attempts, cutoff)| <= |attempts|
    ensures |Recent(attempts, cutoff)| < |attempts| <==> exists i :: 0 <= i < |attempts| && attempts[i].startTime < cutoff
  {
    if attempts != [] {
      var n := |attempts| - 1;
      var before := attempts[..n];
      RecentAll(before, cutoff);
      assert attempts == before + [attempts[n]];
      if i :| 0 <= i < |before| && before[i].startTime < cutoff {
        assert attempts[i].startTime < cutoff;
      }
    }
  }
}
