/**
 One level of the hierarchical timing wheel, seen as a window onto an endless
 row of numbered ticks.

 A level with `n` buckets of `g` seconds each is a ring.  Tick `m` uses bucket
 `m % n`, and a level whose pointer has moved `tick` times shows the ticks
 `tick, ..., tick + n - 1`.  Tick `m` leaves the window when `(m + 1) * g`
 seconds have passed since the origin: level 0 then hands its keys out, every
 other level cascades them into the levels below.
 */
module WheelLevels {

  datatype Level = Level(granularity: int, bucketCount: int, buckets: seq<set<int>>, current: int)

  /** Slot width in seconds, and the base time at which the wheel was initialised. */
  datatype Clock = Clock(gap: int, origin: int)

  predicate WellFormed(l: Level) {
    && l.granularity >= 1
    && l.bucketCount >= 1
    && |l.buckets| == l.bucketCount
    && 0 <= l.current < l.bucketCount
  }

  function BucketAt(l: Level, m: int): set<int>
    requires WellFormed(l) && 0 <= m
  {
    l.buckets[m % l.bucketCount]
  }

  /** Where a key may sit.  Level 0 is exact, except that its current tick also
      takes overdue keys; an upper tick never outlasts the keys it holds. */
  ghost predicate Timely(c: Clock, ground: bool, g: int, tick: int, m: int, k: int) {
    if !ground then c.origin + (m + 1) * g <= k * c.gap
    else if m == tick then k * c.gap <= c.origin + m * g
    else k * c.gap == c.origin + m * g
  }

  ghost predicate LevelInv(c: Clock, ground: bool, l: Level, tick: int) {
    && WellFormed(l)
    && 0 <= tick
    && l.current == tick % l.bucketCount
    && forall m, k :: tick <= m < tick + l.bucketCount && k in BucketAt(l, m) ==>
         Timely(c, ground, l.granularity, tick, m, k)
  }

  /** A key is prompt in its tick when the cascade of that tick can still pass
      it on to a lower level; otherwise the cascade parks it in overflow. */
  ghost predicate PromptAt(c: Clock, ground: bool, g: int, m: int, k: int) {
    ground || k * c.gap < c.origin + (m + 2) * g
  }

  ghost function PromptOf(c: Clock, ground: bool, g: int, m: int, keys: set<int>): set<int> {
    set k | k in keys && PromptAt(c, ground, g, m, k)
  }

  ghost function LateOf(c: Clock, ground: bool, g: int, m: int, keys: set<int>): set<int> {
    set k | k in keys && !PromptAt(c, ground, g, m, k)
  }

  ghost function LevelPrompt(c: Clock, ground: bool, l: Level, tick: int): set<int>
    requires WellFormed(l) && 0 <= tick
  {
    set m, k | tick <= m < tick + l.bucketCount && k in BucketAt(l, m) && PromptAt(c, ground, l.granularity, m, k) :: k
  }

  ghost function LevelLate(c: Clock, ground: bool, l: Level, tick: int): set<int>
    requires WellFormed(l) && 0 <= tick
  {
    set m, k | tick <= m < tick + l.bucketCount && k in BucketAt(l, m) && !PromptAt(c, ground, l.granularity, m, k) :: k
  }

  ghost function LevelKeys(l: Level): set<int>
    requires WellFormed(l)
  {
    set j, k | 0 <= j < l.bucketCount && k in l.buckets[j] :: k
  }

  function Insert(l: Level, j: int, k: int): Level
    requires WellFormed(l) && 0 <= j < l.bucketCount
  {
    l.(buckets := l.buckets[j := l.buckets[j] + {k}])
  }

  function Empty(l: Level): Level
    requires WellFormed(l)
  {
    l.(buckets := l.buckets[l.current := {}])
  }

  function Turn(l: Level): Level
    requires WellFormed(l)
  {
    l.(current := (l.current + 1) % l.bucketCount)
  }

  // ---------------------------------------------------------------- ring arithmetic

  lemma QuotientUnique(n: int, q: int, r: int, q': int, r': int)
    requires 0 <= r < n && 0 <= r' < n && q * n + r == q' * n + r'
    ensures q == q' && r == r'
  {
    assert (q - q') * n == r' - r;
    if q > q' {
      ScaleLe(1, q - q', n);
    } else if q < q' {
      ScaleLe(1, q' - q, n);
    }
  }

  lemma DivisionUnique(x: int, n: int, q: int, r: int)
    requires n >= 1 && 0 <= r < n && x == q * n + r
    ensures x / n == q && x % n == r
  {
    QuotientUnique(n, x / n, x % n, q, r);
  }

  lemma ModShift(x: int, n: int, d: int)
    requires n >= 1
    ensures (x % n + d) % n == (x + d) % n
  {
    var y := x % n + d;
    var q := x / n;
    DivisionUnique(x + d, n, q + y / n, y % n);
  }

  lemma RingSlots(m: int, m': int, n: int)
    requires n >= 1 && m < m' < m + n
    ensures m % n != m' % n
  {
    if m % n == m' % n {
      QuotientUnique(n, m' / n - m / n, 0, 0, m' - m);
    }
  }

  /** Every bucket of a ring is the bucket of exactly one tick of the window. */
  lemma TickOf(j: int, n: int, tick: int) returns (m: int)
    requires n >= 1 && 0 <= j < n && 0 <= tick
    ensures tick <= m < tick + n && m % n == j
  {
    var d := (j - tick) % n;
    m := tick + d;
    ModShift(j - tick, n, tick);
    assert (d + tick) % n == j % n;
    DivisionUnique(j, n, 0, j);
  }

  // ---------------------------------------------------------------- level operations

  lemma LevelKeysSplit(c: Clock, ground: bool, l: Level, tick: int)
    requires WellFormed(l) && 0 <= tick
    ensures LevelKeys(l) == LevelPrompt(c, ground, l, tick) + LevelLate(c, ground, l, tick)
  {
    forall k | k in LevelKeys(l)
      ensures k in LevelPrompt(c, ground, l, tick) + LevelLate(c, ground, l, tick)
    {
      var j :| 0 <= j < l.bucketCount && k in l.buckets[j];
      var m := TickOf(j, l.bucketCount, tick);
      assert k in BucketAt(l, m);
    }
  }

  lemma InsertBuckets(l: Level, tick: int, m: int, k: int)
    requires WellFormed(l) && 0 <= tick <= m < tick + l.bucketCount
    ensures WellFormed(Insert(l, m % l.bucketCount, k))
    ensures forall m' :: tick <= m' < tick + l.bucketCount ==>
              BucketAt(Insert(l, m % l.bucketCount, k), m') == BucketAt(l, m') + (if m' == m then {k} else {})
  {
    var l' := Insert(l, m % l.bucketCount, k);
    forall m' | tick <= m' < tick + l.bucketCount
      ensures BucketAt(l', m') == BucketAt(l, m') + (if m' == m then {k} else {})
    {
      if m < m' {
        RingSlots(m, m', l.bucketCount);
      } else if m' < m {
        RingSlots(m', m, l.bucketCount);
      }
    }
  }

  lemma InsertLevel(c: Clock, ground: bool, l: Level, tick: int, m: int, k: int)
    requires LevelInv(c, ground, l, tick)
    requires tick <= m < tick + l.bucketCount
    requires Timely(c, ground, l.granularity, tick, m, k)
    ensures var l' := Insert(l, m % l.bucketCount, k);
      && LevelInv(c, ground, l', tick)
      && (PromptAt(c, ground, l.granularity, m, k) ==>
           LevelPrompt(c, ground, l', tick) == LevelPrompt(c, ground, l, tick) + {k}
           && LevelLate(c, ground, l', tick) == LevelLate(c, ground, l, tick))
      && (!PromptAt(c, ground, l.granularity, m, k) ==>
           LevelPrompt(c, ground, l', tick) == LevelPrompt(c, ground, l, tick)
           && LevelLate(c, ground, l', tick) == LevelLate(c, ground, l, tick) + {k})
  {
    var l' := Insert(l, m % l.bucketCount, k);
    InsertBuckets(l, tick, m, k);
    var p, p' := LevelPrompt(c, ground, l, tick), LevelPrompt(c, ground, l', tick);
    var q, q' := LevelLate(c, ground, l, tick), LevelLate(c, ground, l', tick);
    assert k in BucketAt(l', m);
    forall x ensures x in p' <==> x in p || (x == k && PromptAt(c, ground, l.granularity, m, k)) {
      if x in p {
        var m' :| tick <= m' < tick + l.bucketCount && x in BucketAt(l, m') && PromptAt(c, ground, l.granularity, m', x);
        assert x in BucketAt(l', m');
      }
    }
    forall x ensures x in q' <==> x in q || (x == k && !PromptAt(c, ground, l.granularity, m, k)) {
      if x in q {
        var m' :| tick <= m' < tick + l.bucketCount && x in BucketAt(l, m') && !PromptAt(c, ground, l.granularity, m', x);
        assert x in BucketAt(l', m');
      }
    }
  }

  lemma EmptyBuckets(l: Level, tick: int)
    requires WellFormed(l) && 0 <= tick && l.current == tick % l.bucketCount
    ensures WellFormed(Empty(l))
    ensures forall m :: tick <= m < tick + l.bucketCount ==>
              BucketAt(Empty(l), m) == if m == tick then {} else BucketAt(l, m)
  {
    forall m | tick <= m < tick + l.bucketCount
      ensures BucketAt(Empty(l), m) == if m == tick then {} else BucketAt(l, m)
    {
      if tick < m {
        RingSlots(tick, m, l.bucketCount);
      }
    }
  }

  /** Taking the current bucket out splits the level's keys; on level 0 what
      stays is due no earlier than the next slot. */
  lemma EmptyLevel(c: Clock, ground: bool, l: Level, tick: int)
    requires LevelInv(c, ground, l, tick)
    ensures var l' := Empty(l); var out := BucketAt(l, tick);
      && LevelInv(c, ground, l', tick)
      && LevelPrompt(c, ground, l, tick)
         == LevelPrompt(c, ground, l', tick) + PromptOf(c, ground, l.granularity, tick, out)
      && LevelLate(c, ground, l, tick)
         == LevelLate(c, ground, l', tick) + LateOf(c, ground, l.granularity, tick, out)
      && (ground ==> forall k :: k in LevelPrompt(c, ground, l', tick) ==>
            c.origin + (tick + 1) * l.granularity <= k * c.gap)
  {
    var l' := Empty(l);
    EmptyBuckets(l, tick);
    assert forall m, k :: tick <= m < tick + l.bucketCount && k in BucketAt(l', m) ==> m != tick && k in BucketAt(l, m);
    var out := BucketAt(l, tick);
    forall k | k in LevelPrompt(c, ground, l, tick)
      ensures k in LevelPrompt(c, ground, l', tick) || (k in out && PromptAt(c, ground, l.granularity, tick, k))
    {
      var m :| tick <= m < tick + l.bucketCount && k in BucketAt(l, m) && PromptAt(c, ground, l.granularity, m, k);
      assert m != tick ==> k in BucketAt(l', m);
    }
    forall k | k in LevelLate(c, ground, l, tick)
      ensures k in LevelLate(c, ground, l', tick) || (k in out && !PromptAt(c, ground, l.granularity, tick, k))
    {
      var m :| tick <= m < tick + l.bucketCount && k in BucketAt(l, m) && !PromptAt(c, ground, l.granularity, m, k);
      assert m != tick ==> k in BucketAt(l', m);
    }
    if ground {
      forall k | k in LevelPrompt(c, ground, l', tick)
        ensures c.origin + (tick + 1) * l.granularity <= k * c.gap
      {
        var m :| tick <= m < tick + l.bucketCount && k in BucketAt(l', m) && PromptAt(c, ground, l.granularity, m, k);
        assert k in BucketAt(l, m);
        assert Timely(c, ground, l.granularity, tick, m, k);
        ScaleLe(tick + 1, m, l.granularity);
      }
    }
  }

  lemma ScaleLe(a: int, b: int, g: int)
    requires a <= b && g >= 0
    ensures a * g <= b * g
  {
    assert (b - a) * g >= 0;
  }

  /** Moving the pointer past an empty current bucket shows one more, empty, tick. */
  lemma TurnLevel(c: Clock, ground: bool, l: Level, tick: int)
    requires LevelInv(c, ground, l, tick)
    requires BucketAt(l, tick) == {}
    ensures LevelInv(c, ground, Turn(l), tick + 1)
    ensures LevelPrompt(c, ground, Turn(l), tick + 1) == LevelPrompt(c, ground, l, tick)
    ensures LevelLate(c, ground, Turn(l), tick + 1) == LevelLate(c, ground, l, tick)
  {
    var n, l' := l.bucketCount, Turn(l);
    ModShift(tick, n, 1);
    ModShift(n, n, tick);
    DivisionUnique(n, n, 1, 0);
    assert BucketAt(l', tick + n) == {};
    assert forall m :: tick <= m < tick + n ==> BucketAt(l', m) == BucketAt(l, m);
    forall m, k | tick + 1 <= m < tick + 1 + n && k in BucketAt(l', m)
      ensures m < tick + n && k in BucketAt(l, m) && Timely(c, ground, l.granularity, tick + 1, m, k)
    {
      assert m != tick + n;
      assert k in BucketAt(l, m);
    }
    forall k ensures k in LevelPrompt(c, ground, l', tick + 1) <==> k in LevelPrompt(c, ground, l, tick) {
      if k in LevelPrompt(c, ground, l, tick) {
        var m :| tick <= m < tick + n && k in BucketAt(l, m) && PromptAt(c, ground, l.granularity, m, k);
        assert k in BucketAt(l', m);
      }
    }
    forall k ensures k in LevelLate(c, ground, l', tick + 1) <==> k in LevelLate(c, ground, l, tick) {
      if k in LevelLate(c, ground, l, tick) {
        var m :| tick <= m < tick + n && k in BucketAt(l, m) && !PromptAt(c, ground, l.granularity, m, k);
        assert k in BucketAt(l', m);
      }
    }
  }
}
