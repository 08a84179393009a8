/**
 Runs from an empty store, for every slot gap, in which the job index and the
 slots part ways.
 */
module IndexWitnesses {
  import opened Sequences
  import WheelLevels
  import opened Types
  import opened SlotTier
  import opened SlotIndex
  import opened EvictionPass
  import opened IndexRuns

  function Slot(gap: int, ids: seq<string>): SlotData {
    NewSlot(gap, 0, ids)
  }

  /** A store with the jobs `hot` in the hot copy of slot 0 and `cold` in its cold
      copy; an empty list stands for no copy. */
  function Copies(gap: int, hot: seq<string>, cold: seq<string>): Tier {
    Tier(if hot == [] then map[] else map[0 := Slot(gap, hot)],
         if cold == [] then {} else {0},
         Some(if cold == [] then map[] else map[0 := Slot(gap, cold)]))
  }

  /** A queue in which the jobs of `index` are filed in slot 0. */
  function At(gap: int, index: set<string>, schedule: set<string>, hot: seq<string>, cold: seq<string>): Queue {
    Queue(map id | id in index :: 0, Copies(gap, hot, cold), map id | id in schedule :: 0)
  }

  function Empty(gap: int): Queue {
    At(gap, {}, {}, [], [])
  }

  /** A pass without failures that sees slot 0 in the past, and one that sees it near. */
  function Late(gap: int): Pass {
    Pass(gap, gap, {}, _ => NO_FAULTS)
  }

  function Early(gap: int): Pass {
    Pass(0, gap, {}, _ => NO_FAULTS)
  }

  /** The list `GetSlot` sees. */
  function Seen(hot: seq<string>, cold: seq<string>): seq<string> {
    if hot != [] then hot else cold
  }

  lemma FlatCopies(gap: int, hot: seq<string>, cold: seq<string>)
    ensures Flat(Copies(gap, hot, cold)) == if Seen(hot, cold) == [] then map[] else map[0 := Slot(gap, Seen(hot, cold))]
    ensures forall k, id :: Lists(Flat(Copies(gap, hot, cold)), k, id) <==> k == 0 && id in Seen(hot, cold)
  {
    FlatIsGet(Copies(gap, hot, cold), 0);
  }

  /** Such a queue is consistent when the index holds the jobs that are seen. */
  lemma Consistent(gap: int, index: set<string>, schedule: set<string>, hot: seq<string>, cold: seq<string>)
    requires gap >= 1 && Distinct(hot) && Distinct(cold)
    requires index <= schedule && index == set id | id in Seen(hot, cold)
    ensures QueueInv(gap, At(gap, index, schedule, hot, cold))
  {
    var q := At(gap, index, schedule, hot, cold);
    FlatCopies(gap, hot, cold);
    assert GoodCopies(gap, q.tier) && TierInv(q.tier);
  }

  /** And not when it lacks or adds one. */
  lemma Inconsistent(gap: int, q: Queue, hot: seq<string>, cold: seq<string>, id: string)
    requires q.tier == Copies(gap, hot, cold)
    requires (id in q.index && q.index[id] == 0) != (id in Seen(hot, cold))
    ensures !QueueInv(gap, q)
  {
    FlatCopies(gap, hot, cold);
    assert Lists(Flat(q.tier), 0, id) <==> id in Seen(hot, cold);
  }

  lemma FirstSecond(gap: int)
    requires gap >= 1
    ensures SlotKey(gap, 0) == 0
  {
    WheelLevels.DivisionUnique(0, gap, 0, 0);
  }

  lemma AddToHot(gap: int, index: set<string>, schedule: set<string>, hot: seq<string>, cold: seq<string>, id: string)
    requires gap >= 1 && (hot == [] ==> cold == [])
    ensures QueueStep(gap, At(gap, index, schedule, hot, cold), IndexRuns.AddJob(id, 0, {}),
                      At(gap, index + {id}, schedule + {id}, hot + [id], cold))
  {
    FirstSecond(gap);
    var q := At(gap, index, schedule, hot, cold);
    FlatIsGet(Blind(q.tier, {}), 0);
    assert Extended(gap, Flat(Blind(q.tier, {})), 0, id) == Slot(gap, hot + [id]);
  }

  lemma AddToCold(gap: int, index: set<string>, schedule: set<string>, cold: seq<string>, id: string, unread: bool)
    requires gap >= 1 && cold != []
    ensures QueueStep(gap, At(gap, index, schedule, [], cold), IndexRuns.AddJob(id, 0, if unread then {0} else {}),
                      At(gap, index + {id}, schedule + {id}, if unread then [id] else cold + [id], cold))
  {
    FirstSecond(gap);
    var q := At(gap, index, schedule, [], cold);
    var t := Blind(q.tier, if unread then {0} else {});
    FlatIsGet(t, 0);
    assert Extended(gap, Flat(t), 0, id) == Slot(gap, if unread then [id] else cold + [id]);
  }

  lemma ArchiveHot(gap: int, index: set<string>, schedule: set<string>, hot: seq<string>)
    requires gap >= 1 && hot != []
    ensures QueueStep(gap, At(gap, index, schedule, hot, []), IndexRuns.Evict(Late(gap)), At(gap, index, schedule, [], hot))
  {
    var t, p, mid := Copies(gap, hot, []), Late(gap), Copies(gap, [], hot);
    assert Expired(t, gap) == {0} == Writable(Expired(t, gap), p.f);
    assert Archived(t, p) == mid by {
      assert Archived(t, p).hot == mid.hot && Archived(t, p).meta == mid.meta;
      assert Archived(t, p).cold.value == mid.cold.value;
    }
    assert Called(t, p) == {};
    assert Brought(t, p) == {} == Readable({}, p.f);
    NothingMoved(mid, p.f);
  }

  lemma BringBack(gap: int, index: set<string>, schedule: set<string>, hot: seq<string>, cold: seq<string>)
    requires gap >= 1 && hot != [] && cold != []
    ensures QueueStep(gap, At(gap, index, schedule, hot, cold), IndexRuns.Evict(Early(gap)), At(gap, index, schedule, cold, []))
  {
    var t, p, t' := Copies(gap, hot, cold), Early(gap), Copies(gap, cold, []);
    assert Expired(t, 0) == {} == Writable({}, p.f);
    NothingMoved(t, p.f);
    assert Called(t, p) == {0};
    assert Brought(t, p) == {0};
    assert Passed(t, p).hot == t'.hot && Passed(t, p).meta == t'.meta;
    assert Passed(t, p).cold.value == t'.cold.value;
  }

  /** Filing a job, and a second one, in an empty store, and archiving their slot. */
  lemma FirstSteps(gap: int)
    requires gap >= 1
    ensures QueueStep(gap, Empty(gap), IndexRuns.AddJob("a", 0, {}), At(gap, {"a"}, {"a"}, ["a"], []))
    ensures QueueStep(gap, At(gap, {"a"}, {"a"}, ["a"], []), IndexRuns.AddJob("b", 0, {}),
                      At(gap, {"a", "b"}, {"a", "b"}, ["a", "b"], []))
    ensures QueueStep(gap, At(gap, {"a", "b"}, {"a", "b"}, ["a", "b"], []), IndexRuns.Evict(Late(gap)),
                      At(gap, {"a", "b"}, {"a", "b"}, [], ["a", "b"]))
    ensures QueueStep(gap, At(gap, {"a"}, {"a"}, ["a"], []), IndexRuns.Evict(Late(gap)), At(gap, {"a"}, {"a"}, [], ["a"]))
  {
    hide QueueStep, At;
    AddToHot(gap, {}, {}, [], [], "a");
    AddToHot(gap, {"a"}, {"a"}, ["a"], [], "b");
    assert {} + {"a"} == {"a"} && [] + ["a"] == ["a"];
    assert {"a"} + {"b"} == {"a", "b"} && ["a"] + ["b"] == ["a", "b"];
    ArchiveHot(gap, {"a", "b"}, {"a", "b"}, ["a", "b"]);
    ArchiveHot(gap, {"a"}, {"a"}, ["a"]);
  }

  lemma GhostStep(gap: int)
    requires gap >= 1
    ensures var q, q' := At(gap, {"a", "b"}, {"a", "b"}, [], ["a", "b"]), At(gap, {"b"}, {"a", "b"}, ["b"], ["a", "b"]);
      QueueStep(gap, q, IndexRuns.RemoveJob("a", {}, NO_FAULTS), q') && LeavesGhost(q, IndexRuns.RemoveJob("a", {}, NO_FAULTS))
  {
    var q, q' := At(gap, {"a", "b"}, {"a", "b"}, [], ["a", "b"]), At(gap, {"b"}, {"a", "b"}, ["b"], ["a", "b"]);
    assert Without(["a", "b"], "a") == ["b"];
    assert q'.index == q.index - {"a"};
    assert StrikeTier(q.tier, Slot(gap, ["a", "b"]), 0, "a", NO_FAULTS) == q'.tier;
  }

  lemma GhostLoad(gap: int, q: Queue) returns (q': Queue)
    requires gap >= 1 && q == At(gap, {"b"}, {"a", "b"}, ["b"], ["a", "b"])
    ensures QueueStep(gap, q, IndexRuns.LoadJobs({}), q') && "a" in q'.index && q'.index["a"] == 0
  {
    var t := Blind(q.tier, {});
    assert t.cold.value == q.tier.cold.value;
    assert Covers([0], t.hot) && Covers([0], ColdSlots(t));
    q' := q.(index := Loaded(t, [0], [0]));
    assert Lists(ColdSlots(t), 0, "a");
    IndexingSound(ColdSlots(t), [0], Indexing(t.hot, [0], map[]), "a");
  }

  lemma FourSteps(gap: int, q0: Queue, a: Op, q1: Queue, b: Op, q2: Queue, c: Op, q3: Queue, d: Op, q4: Queue)
    requires gap >= 1 && QueueStep(gap, q0, a, q1) && QueueStep(gap, q1, b, q2) && QueueStep(gap, q2, c, q3) && QueueStep(gap, q3, d, q4)
    ensures Run(gap, [q0, q1, q2, q3, q4], [a, b, c, d])
  {
    hide QueueStep;
    var qs, ops := [q0, q1, q2, q3, q4], [a, b, c, d];
    forall i | 0 <= i < |ops| ensures StepAt(gap, qs, ops, i) {
      assert i == 0 || i == 1 || i == 2 || i == 3;
    }
  }

  lemma OneMore(gap: int, qs: seq<Queue>, ops: seq<Op>, op: Op, q: Queue)
    requires gap >= 1 && Run(gap, qs, ops) && QueueStep(gap, qs[|ops|], op, q)
    ensures Run(gap, qs + [q], ops + [op])
  {
    hide QueueStep;
    forall i | 0 <= i < |ops + [op]| ensures StepAt(gap, qs + [q], ops + [op], i) {
      assert i < |ops| ==> StepAt(gap, qs, ops, i);
    }
  }

  /** Two jobs of a slot that has gone cold, one of them removed: its cold copy
      keeps it, and rebuilding the index finds it again. */
  lemma GhostRun(gap: int) returns (qs: seq<Queue>, ops: seq<Op>)
    requires gap >= 1
    ensures Run(gap, qs, ops) && qs[0] == Empty(gap) && |ops| == 5
    ensures ops[3].RemoveJob? && LeavesGhost(qs[3], ops[3]) && QueueInv(gap, qs[4]) && !Tidy(qs[4].tier)
    ensures ops[4].LoadJobs? && "a" !in qs[4].index && "a" in qs[5].index && !QueueInv(gap, qs[5])
  {
    hide QueueStep, QueueInv, Tidy, LeavesGhost, Run;
    var q1, q2 := At(gap, {"a"}, {"a"}, ["a"], []), At(gap, {"a", "b"}, {"a", "b"}, ["a", "b"], []);
    var q3, q4 := At(gap, {"a", "b"}, {"a", "b"}, [], ["a", "b"]), At(gap, {"b"}, {"a", "b"}, ["b"], ["a", "b"]);
    var q5 := GhostLoad(gap, q4);
    FirstSteps(gap);
    GhostStep(gap);
    var o3 := IndexRuns.RemoveJob("a", {}, NO_FAULTS);
    FourSteps(gap, Empty(gap), IndexRuns.AddJob("a", 0, {}), q1, IndexRuns.AddJob("b", 0, {}), q2, IndexRuns.Evict(Late(gap)), q3, o3, q4);
    ops := [IndexRuns.AddJob("a", 0, {}), IndexRuns.AddJob("b", 0, {}), IndexRuns.Evict(Late(gap)), o3];
    OneMore(gap, [Empty(gap), q1, q2, q3, q4], ops, IndexRuns.LoadJobs({}), q5);
    qs, ops := [Empty(gap), q1, q2, q3, q4] + [q5], ops + [IndexRuns.LoadJobs({})];
    GhostFacts(gap, q3, o3, q4, q5);
  }

  lemma GhostFacts(gap: int, q3: Queue, o3: Op, q4: Queue, q5: Queue)
    requires gap >= 1 && q3 == At(gap, {"a", "b"}, {"a", "b"}, [], ["a", "b"]) && q4 == At(gap, {"b"}, {"a", "b"}, ["b"], ["a", "b"])
    requires o3 == IndexRuns.RemoveJob("a", {}, NO_FAULTS) && QueueStep(gap, q3, o3, q4) && LeavesGhost(q3, o3)
    requires QueueStep(gap, q4, IndexRuns.LoadJobs({}), q5) && "a" in q5.index && q5.index["a"] == 0
    ensures "a" !in q4.index && QueueInv(gap, q4) && !Tidy(q4.tier) && !QueueInv(gap, q5)
  {
    assert q5.tier == Copies(gap, ["b"], ["a", "b"]);
    Inconsistent(gap, q5, ["b"], ["a", "b"], "a");
    Consistent(gap, {"a", "b"}, {"a", "b"}, [], ["a", "b"]);
    DisjointIsTidy(q3.tier);
    hide QueueStep, QueueInv, Tidy, LeavesGhost;
    StepKeepsIndex(gap, q3, o3, q4);
  }

  /** A job filed in a slot whose cold copy cannot be read: the jobs in it are lost. */
  lemma UnreadRun(gap: int) returns (qs: seq<Queue>, ops: seq<Op>)
    requires gap >= 1
    ensures Run(gap, qs, ops) && qs[0] == Empty(gap) && |ops| == 3
    ensures Lists(Flat(qs[2].tier), 0, "a") && "a" in qs[3].index && !Lists(Flat(qs[3].tier), 0, "a")
  {
    var q2, q3 := At(gap, {"a"}, {"a"}, [], ["a"]), At(gap, {"a"} + {"b"}, {"a"} + {"b"}, ["b"], ["a"]);
    qs := [Empty(gap), At(gap, {"a"}, {"a"}, ["a"], []), q2, q3];
    ops := [IndexRuns.AddJob("a", 0, {}), IndexRuns.Evict(Late(gap)), IndexRuns.AddJob("b", 0, {0})];
    FlatCopies(gap, [], ["a"]);
    FlatCopies(gap, ["b"], ["a"]);
    assert "a" in q3.index && q3.tier == Copies(gap, ["b"], ["a"]);
    AddToCold(gap, {"a"}, {"a"}, ["a"], "b", true);
    hide QueueStep, At;
    FirstSteps(gap);
  }

  /** A clock that runs back: a slot that was archived, and then given another job,
      is overwritten by its older cold copy. */
  lemma ClockBackRun(gap: int) returns (qs: seq<Queue>, ops: seq<Op>)
    requires gap >= 1
    ensures Run(gap, qs, ops) && qs[0] == Empty(gap) && |ops| == 4
    ensures ops[1].Evict? && ops[3].Evict? && ops[3].pass.threshold < ops[1].pass.threshold
    ensures Lists(Flat(qs[3].tier), 0, "b") && !Lists(Flat(qs[4].tier), 0, "b")
  {
    hide QueueStep, Run, Flat;
    var ids := {"a"} + {"b"};
    var q1, q2 := At(gap, {"a"}, {"a"}, ["a"], []), At(gap, {"a"}, {"a"}, [], ["a"]);
    var q3, q4 := At(gap, ids, ids, ["a"] + ["b"], ["a"]), At(gap, ids, ids, ["a"], []);
    FirstSteps(gap);
    AddToCold(gap, {"a"}, {"a"}, ["a"], "b", false);
    BringBack(gap, ids, ids, ["a"] + ["b"], ["a"]);
    ops := [IndexRuns.AddJob("a", 0, {}), IndexRuns.Evict(Late(gap)), IndexRuns.AddJob("b", 0, {}), IndexRuns.Evict(Early(gap))];
    qs := [Empty(gap), q1, q2, q3, q4];
    FourSteps(gap, Empty(gap), ops[0], q1, ops[1], q2, ops[2], q3, ops[3], q4);
    FlatCopies(gap, ["a"] + ["b"], ["a"]);
    FlatCopies(gap, ["a"], []);
  }
}
