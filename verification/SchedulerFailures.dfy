/** Runs from scheduler_init in which a process is lost, or a higher-priority process waits. */
module SchedulerFailures {
  import opened Kernel
  import opened SchedulerModel
  import opened SchedulerTiming
  import opened SchedulerPriority
  import Threads

  /** One more operation at the end of a run. */
  lemma {:induction false} RunThen(s: State, ops: seq<Op>, op: Op)
    requires LegalRun(s, ops) && Wf(Run(s, ops)) && Legal(Run(s, ops), op) && Wf(Step(Run(s, ops), op))
    ensures LegalRun(s, ops + [op]) && Run(s, ops + [op]) == Step(Run(s, ops), op)
    decreases |ops|
  {
    if ops == [] {
      assert (ops + [op])[1..] == [];
      assert LegalRun(Step(s, op), []);
    } else {
      assert (ops + [op])[1..] == ops[1..] + [op];
      RunThen(Step(s, ops[0]), ops[1..], op);
    }
  }

  /** A run from scheduler_init so far: where it leads and that nobody is lost there. */
  ghost predicate Reached(ops: seq<Op>, s: State) {
    LegalRun(Initial(), ops) && Run(Initial(), ops) == s && Placed(s) && OnlyIdleLowest(s)
  }

  lemma ReachedNext(ops: seq<Op>, s: State, op: Op)
    requires Reached(ops, s) && Legal(s, op)
    ensures Wf(Step(s, op)) && Reached(ops + [op], Step(s, op))
  {
    StepKeeps(s, op);
    RunThen(Initial(), ops, op);
  }

  lemma ReachedInitial()
    ensures Reached([], Initial())
  {
    InitialPlaced();
  }

  /** Level l is the highest at which somebody is ready. */
  lemma FirstIs(s: State, l: nat)
    requires Wf(s) && l < LEVELS && s.ready[l] != [] && forall k :: 0 <= k < l ==> s.ready[k] == []
    ensures FindNext(s) == s.ready[l][0]
  {
    assert FirstLevel(s.ready, 0) == l;
  }

  /** With nobody to put back, schedule takes the head of the highest queue. */
  lemma TakesHead(s: State, l: nat)
    requires Wf(s) && QueuesInRange(s) && l < LEVELS && s.ready[l] != [] && forall k :: 0 <= k < l ==> s.ready[k] == []
    requires s.current == NONE || s.procs[s.current].status == Blocked
    requires var p := s.ready[l][0]; p < SLOTS && p != s.current && LevelOf(s, p) == l
    ensures var p := s.ready[l][0];
            Schedule(s) == s.(ready := s.ready[l := s.ready[l][1..]], current := p,
                              procs := s.procs[p := s.procs[p].(status := Running)])
  {
    FirstIs(s, l);
  }

  // ---------------------------------------------------------------- two processes

  /** Process 1 of level a runs, process 2 of level b is ready, nobody else is there. */
  ghost predicate Pair(s: State, a: nat, b: nat) {
    && Placed(s) && OnlyIdleLowest(s) && a < LOWEST && b < LOWEST
    && s.current == 1 && s.idle == 0 && s.tick == 0 && s.sleepers == []
    && LevelOf(s, 1) == a && LevelOf(s, 2) == b && s.ready[b] == [2]
    && (forall l :: 0 <= l < LEVELS && l != b ==> s.ready[l] == [])
    && (forall p :: 3 <= p < SLOTS ==> s.procs[p].status == Unused)
  }

  function PairOps(a: nat, b: nat): seq<Op> { [] + [OpSpawn(1, a)] + [OpSpawn(2, b)] + [OpYield] }

  function Spawned(a: nat, b: nat): State { Spawn(Spawn(Initial(), 1, a), 2, b) }

  lemma SpawnedQueues(a: nat, b: nat)
    requires a < LOWEST && b < LOWEST
    ensures var s := Spawned(a, b);
            && s.current == NONE && s.idle == 0 && s.tick == 0 && s.sleepers == [] && Wf(s)
            && LevelOf(s, 1) == a && LevelOf(s, 2) == b
            && (a == b ==> s.ready[a] == [1, 2]) && (a != b ==> s.ready[a] == [1] && s.ready[b] == [2])
            && (forall l :: 0 <= l < LEVELS && l != a && l != b ==> s.ready[l] == [])
            && (forall p :: 3 <= p < SLOTS ==> s.procs[p].status == Unused)
  {
    assert Initial().ready[b] == [];
  }

  lemma PairRun(a: nat, b: nat)
    requires a <= b < LOWEST
    ensures Wf(Spawned(a, b)) && Placed(Spawned(a, b)) && Reached(PairOps(a, b), Yield(Spawned(a, b)))
  {
    ReachedInitial();
    ReachedNext([], Initial(), OpSpawn(1, a));
    var s1, s2 := Spawn(Initial(), 1, a), Spawned(a, b);
    ReachedNext([] + [OpSpawn(1, a)], s1, OpSpawn(2, b));
    ReachedNext([] + [OpSpawn(1, a)] + [OpSpawn(2, b)], s2, OpYield);
  }

  /** Two spawns and a yield reach it, for a the higher of the two levels or the same. */
  lemma PairReached(a: nat, b: nat)
    requires a <= b < LOWEST
    ensures Wf(Spawned(a, b)) && Pair(Yield(Spawned(a, b)), a, b) && Reached(PairOps(a, b), Yield(Spawned(a, b)))
  {
    PairRun(a, b);
    SpawnedQueues(a, b);
    var s := Spawned(a, b);
    assert QueuesInRange(s) by { PlacedIsStable(s); }
    TakesHead(s, a);
    assert a == b ==> s.ready[a][1..] == [2];
  }

  // ---------------------------------------------------------------- lost processes

  /** Two processes of level 16: the one that sleeps or blocks itself loses the other. */
  lemma LeavingLoses(ticks: nat)
    ensures var s := Yield(Spawned(16, 16));
            && Reached(PairOps(16, 16), s) && s.current == 1 && s.ready[16] == [2]
            && !Placed(Sleep(s, ticks)) && !Placed(Block(s, 1))
  {
    PairReached(16, 16);
    var s := Yield(Spawned(16, 16));
    assert 2 in s.ready[16];
    SleepExact(s, ticks);
    BlockSelfExact(s);
  }

  /** Destroying the process that waits leaves its slot in the queue. */
  lemma DestroyingLoses()
    ensures var s := Yield(Spawned(16, 16));
            Reached(PairOps(16, 16), s) && s.ready[16] == [2] && !Placed(Threads.Vacate(s, 2))
  {
    PairReached(16, 16);
    var s := Yield(Spawned(16, 16));
    assert 2 in s.ready[16];
    Threads.DestroyExact(s, 2);
  }

  lemma BlocksSecond(s: State, l: nat)
    requires Pair(s, l, l)
    ensures Legal(s, OpBlock(2))
    ensures var t := Block(s, 2);
            && Wf(t) && t.ready[l] == [] && t.procs[2].status == Blocked && LevelOf(t, 2) == l
            && t.procs[3].status == Unused && t.current == 1 && t.idle == 0 && t.sleepers == []
  {
    assert 2 in s.ready[l] && Fits(s.procs, l, 2);
    assert Without([2], 2) == [2][1..] == [];
  }

  /** Blocking process 2 a second time loses process 3, which has come to its level since. */
  lemma BlockingTwiceLoses()
    ensures var s := Spawn(Block(Yield(Spawned(16, 16)), 2), 3, 16);
            && Reached(PairOps(16, 16) + [OpBlock(2)] + [OpSpawn(3, 16)], s)
            && s.ready[16] == [3] && !Placed(Block(s, 2))
  {
    PairReached(16, 16);
    var s1 := Yield(Spawned(16, 16));
    BlocksSecond(s1, 16);
    ReachedNext(PairOps(16, 16), s1, OpBlock(2));
    var s2 := Block(s1, 2);
    ReachedNext(PairOps(16, 16) + [OpBlock(2)], s2, OpSpawn(3, 16));
    SecondBlockLoses(s2);
  }

  lemma SecondBlockLoses(s: State)
    requires Placed(s) && Placed(Spawn(s, 3, 16)) && s.ready[16] == [] && s.procs[3].status == Unused
    requires s.current == 1 && s.idle == 0 && s.sleepers == [] && LevelOf(s, 2) == 16
    ensures Spawn(s, 3, 16).ready[16] == [3] && !Placed(Block(Spawn(s, 3, 16), 2))
  {
    var t := Spawn(s, 3, 16);
    assert 3 in t.ready[16] && 2 !in t.ready[16];
    BlockOtherExact(t, 2);
  }

  /** The only process, of level 31, runs. */
  function Lowest(): State { Spawn(Initial(), 1, LOWEST) }

  lemma LowestQueues()
    ensures var s := Lowest();
            && Wf(s) && s.current == NONE && s.idle == 0 && s.sleepers == [] && s.ready[LOWEST] == [1]
            && (forall l :: 0 <= l < LOWEST ==> s.ready[l] == [])
            && LevelOf(s, 1) == LOWEST && s.procs[1].slice == 6
  {
  }

  lemma LowestRuns()
    ensures var s := Yield(Lowest()); Placed(s) && LosesCurrent(s) && s.sleepers == [] && SliceLeft(s) == 6
  {
    LowestQueues();
    assert Placed(Lowest()) by {
      InitialPlaced();
      SpawnPlaced(Initial(), 1, LOWEST);
    }
    assert Placed(Yield(Lowest())) by { YieldExact(Lowest()); }
    assert QueuesInRange(Lowest()) by { PlacedIsStable(Lowest()); }
    TakesHead(Lowest(), LOWEST);
    var r := Yield(Lowest());
    assert forall l :: 0 <= l < LEVELS ==> r.ready[l] == [];
  }

  lemma LowestLoses()
    ensures Placed(Yield(Lowest())) && !Placed(Yield(Yield(Lowest())))
  {
    LowestRuns();
    YieldExact(Yield(Lowest()));
  }

  /** It is lost when its slice runs out: not before, and then for certain. */
  lemma {:induction false} SliceEndLoses(s: State, j: nat)
    requires Placed(s) && LosesCurrent(s) && s.sleepers == [] && SliceLeft(s) > 0 && j <= SliceLeft(s)
    ensures Placed(Ticks(s, j)) <==> j < SliceLeft(s)
    decreases j
  {
    if j > 0 {
      TickExact(s);
      var w := Woken(s);
      assert w == s.(tick := (s.tick + 1) % WORD);
      if SliceLeft(s) > 1 {
        assert Tick(s) == Charged(w);
        SliceEndLoses(Tick(s), j - 1);
      }
    }
  }

  lemma LowestLosesByTicks()
    ensures Placed(Ticks(Yield(Lowest()), 5)) && !Placed(Ticks(Yield(Lowest()), 6))
  {
    LowestRuns();
    SliceEndLoses(Yield(Lowest()), 5);
    SliceEndLoses(Yield(Lowest()), 6);
  }

  // ---------------------------------------------------------------- priority inversions

  lemma PairHighest(s: State, a: nat, b: nat)
    requires Pair(s, a, b) && a <= b
    ensures HighestRuns(s)
  {
  }

  /** A process of level 8 that arrives while one of level 16 runs has to wait. */
  lemma SpawnInverts()
    ensures var s := Yield(Spawned(16, 16));
            Reached(PairOps(16, 16), s) && HighestRuns(s) && !HighestRuns(Spawn(s, 3, 8))
  {
    PairReached(16, 16);
    var s := Yield(Spawned(16, 16));
    PairHighest(s, 16, 16);
    StepHighestExact(s, OpSpawn(3, 8));
  }

  /** A process of level 8 that yields, alone at its level, gives way to one of level 16. */
  lemma YieldInverts()
    ensures var s := Yield(Spawned(8, 16));
            Reached(PairOps(8, 16), s) && HighestRuns(s) && !HighestRuns(Yield(s))
  {
    PairReached(8, 16);
    var s := Yield(Spawned(8, 16));
    PairHighest(s, 8, 16);
    PlacedIsStable(s);
    StepHighestExact(s, OpYield);
  }

  /** Having slept one tick it wakes and waits; blocked and unblocked, likewise. */
  lemma WakingInverts()
    ensures var s := Sleep(Yield(Spawned(8, 16)), 1);
            Reached(PairOps(8, 16) + [OpSleep(1)], s) && HighestRuns(s) && !HighestRuns(Tick(s))
    ensures var t := Block(Yield(Spawned(8, 16)), 1);
            Reached(PairOps(8, 16) + [OpBlock(1)], t) && HighestRuns(t) && !HighestRuns(Unblock(t, 1))
  {
    PairReached(8, 16);
    var p := Yield(Spawned(8, 16));
    PairHighest(p, 8, 16);
    ReachedNext(PairOps(8, 16), p, OpSleep(1));
    StepHighestExact(p, OpSleep(1));
    AfterSleeping(p);
    AfterBlocking(p);
    SleepInverts(Sleep(p, 1));
    ReachedNext(PairOps(8, 16), p, OpBlock(1));
    StepHighestExact(p, OpBlock(1));
    StepHighestExact(Block(p, 1), OpUnblock(1));
  }

  lemma AfterSleeping(p: State)
    requires Pair(p, 8, 16)
    ensures var s := Sleep(p, 1);
            && s.current == 2 && s.sleepers == [1] && s.tick == 0 && Wf(s) && s.idle == 0
            && (forall l :: 0 <= l < LEVELS ==> s.ready[l] == [])
            && s.procs[1].wake == 1 && s.procs[2].slice == SliceOf(16) && LevelOf(s, 1) == 8 && LevelOf(s, 2) == 16
  {
    FallenAsleep(p);
    TakesHead(FallAsleep(p, 1), 16);
    assert [2][1..] == [];
  }

  lemma FallenAsleep(p: State)
    requires Pair(p, 8, 16)
    ensures var u := FallAsleep(p, 1);
            && Wf(u) && QueuesInRange(u) && u.current == 1 && u.sleepers == [1] && u.tick == 0 && u.idle == 0
            && u.ready[16] == [2] && (forall l :: 0 <= l < LEVELS && l != 16 ==> u.ready[l] == [])
            && u.procs[1].wake == 1 && u.procs[1].status == Blocked && u.procs[2].slice == SliceOf(16)
            && LevelOf(u, 1) == 8 && LevelOf(u, 2) == 16
  {
    assert 2 in p.ready[16] && Fits(p.procs, 16, 2);
    assert QueuesInRange(FallAsleep(p, 1)) by {
      SleepSettles(p, 1);
      ScheduleExact(FallAsleep(p, 1));
    }
  }

  /** Process 1 and then process 2 go to sleep until the same tick. */
  lemma TwoAsleep()
    ensures var s := Sleep(Yield(Spawned(8, 16)), 1);
            && Reached(PairOps(8, 16) + [OpSleep(1)], s) && s.sleepers == [1] && s.procs[1].status == Blocked
            && var t := Sleep(s, 1);
               Reached(PairOps(8, 16) + [OpSleep(1)] + [OpSleep(1)], t) && t.sleepers == [1, 2]
  {
    PairReached(8, 16);
    var p := Yield(Spawned(8, 16));
    ReachedNext(PairOps(8, 16), p, OpSleep(1));
    AfterSleeping(p);
    var s := Sleep(p, 1);
    assert 1 in s.sleepers;
    SecondSleeper(s);
    ReachedNext(PairOps(8, 16) + [OpSleep(1)], s, OpSleep(1));
  }

  lemma SecondSleeper(s: State)
    requires Wf(s) && s.current == 2 && s.idle == 0 && s.sleepers == [1] && s.tick == 0 && s.procs[1].wake == 1
    requires forall l :: 0 <= l < LEVELS ==> s.ready[l] == []
    ensures Legal(s, OpSleep(1)) && Sleep(s, 1).sleepers == [1, 2]
  {
    var u := FallAsleep(s, 1);
    assert LaterFrom(u.procs, [1], 1, 0) == 1;
    assert u.sleepers == InsertAt([1], 1, 2) == [1, 2];
    assert QueuesInRange(u);
  }

  /** Blocking the first of the two sleepers puts the second, still blocked, into a ready queue. */
  lemma BlockingFirstSleeperLoses()
    ensures var s := Sleep(Sleep(Yield(Spawned(8, 16)), 1), 1);
            && Reached(PairOps(8, 16) + [OpSleep(1)] + [OpSleep(1)], s) && s.sleepers == [1, 2]
            && !Placed(Block(s, 1))
  {
    TwoAsleep();
    var s := Sleep(Sleep(Yield(Spawned(8, 16)), 1), 1);
    assert 1 in s.sleepers;
    BlockSleeperPlaced(s, 1);
  }

  // ---------------------------------------------------------------- one process

  /** Process 1 of level 16 has gone to sleep for ten ticks and the idle process runs. */
  function SoloOps(): seq<Op> { [] + [OpSpawn(1, 16)] + [OpYield] + [OpSleep(10)] }

  ghost function Solo(): State { Yield(Spawn(Initial(), 1, 16)) }

  lemma SoloReached()
    ensures Placed(Spawn(Initial(), 1, 16)) && Reached([] + [OpSpawn(1, 16)] + [OpYield], Solo())
  {
    ReachedInitial();
    ReachedNext([], Initial(), OpSpawn(1, 16));
    ReachedNext([] + [OpSpawn(1, 16)], Spawn(Initial(), 1, 16), OpYield);
  }

  lemma SoloQueues()
    ensures var s := Spawn(Initial(), 1, 16);
            && Wf(s) && s.current == NONE && s.idle == 0 && s.sleepers == []
            && s.ready[16] == [1] && LevelOf(s, 1) == 16
            && s.procs[2].status == Unused && forall l :: 0 <= l < LEVELS && l != 16 ==> s.ready[l] == []
  {
  }

  lemma SoloRuns()
    ensures Reached([] + [OpSpawn(1, 16)] + [OpYield], Solo())
    ensures var s := Solo();
            && s.current == 1 && s.idle == 0 && s.sleepers == [] && LevelOf(s, 1) == 16
            && s.procs[2].status == Unused && forall l :: 0 <= l < LEVELS ==> s.ready[l] == []
  {
    SoloReached();
    SoloQueues();
    var s := Spawn(Initial(), 1, 16);
    assert QueuesInRange(s) by { PlacedIsStable(s); }
    TakesHead(s, 16);
  }

  lemma SoloSleeps(s: State)
    requires Placed(s) && s.current == 1 && s.idle == 0 && s.sleepers == [] && s.procs[2].status == Unused
    requires LevelOf(s, 1) == 16 && forall l :: 0 <= l < LEVELS ==> s.ready[l] == []
    ensures Legal(s, OpSleep(10))
    ensures var t := Sleep(s, 10);
            && Wf(t) && t.sleepers == [1] && t.idle == 0 && t.current == 0 && LevelOf(t, 1) == 16
            && t.procs[2].status == Unused && t.ready[16] == []
  {
    var u := FallAsleep(s, 10);
    assert u.sleepers == [1];
    assert QueuesInRange(u);
    assert FirstLevel(u.ready, 0) == LEVELS;
  }

  /** Process 2 comes to level 16; blocking the only sleeper, process 1, loses it. */
  lemma BlockingOnlySleeperLoses()
    ensures var s := Spawn(Sleep(Solo(), 10), 2, 16);
            && Reached(SoloOps() + [OpSpawn(2, 16)], s) && s.sleepers == [1] && s.ready[16] == [2]
            && !Placed(Block(s, 1))
  {
    SoloRuns();
    SoloSleeps(Solo());
    ReachedNext([] + [OpSpawn(1, 16)] + [OpYield], Solo(), OpSleep(10));
    var t := Sleep(Solo(), 10);
    ReachedNext(SoloOps(), t, OpSpawn(2, 16));
    NewcomerLost(t);
  }

  lemma NewcomerLost(t: State)
    requires Placed(t) && Placed(Spawn(t, 2, 16)) && t.sleepers == [1] && t.idle == 0 && t.current == 0
    requires LevelOf(t, 1) == 16 && t.procs[2].status == Unused && t.ready[16] == []
    ensures var s := Spawn(t, 2, 16); s.sleepers == [1] && s.ready[16] == [2] && !Placed(Block(s, 1))
  {
    var s := Spawn(t, 2, 16);
    assert LevelOf(s, 1) == 16 && 2 in s.ready[16] && 1 !in s.ready[16];
    assert !Alone(s, 1) && !Blockable(s, 1);
    OneQueue(s, 1);
    BlockWaiting(s, 1);
  }

  lemma AfterBlocking(p: State)
    requires Pair(p, 8, 16)
    ensures var t := Block(p, 1);
            && t.current == 2 && t.sleepers == [] && Wf(t)
            && t.procs[1].status == Blocked && LevelOf(t, 1) == 8 && LevelOf(t, 2) == 16
  {
    assert 2 in p.ready[16] && Fits(p.procs, 16, 2);
    var u := Leave(p, p.procs[1].(status := Blocked));
    assert QueuesInRange(u) by {
      BlockSettles(p);
      ScheduleExact(u);
    }
    TakesHead(u, 16);
  }

  lemma SleepInverts(s: State)
    requires Placed(s) && HighestRuns(s) && s.current == 2 && s.sleepers == [1] && s.tick == 0
    requires s.procs[1].wake == 1 && s.procs[2].slice == SliceOf(16) && LevelOf(s, 1) == 8 && LevelOf(s, 2) == 16
    ensures Wf(Tick(s)) && !HighestRuns(Tick(s))
  {
    assert Due(s, 1) && DueAt(s, 8);
    assert DueAbove(s, 16);
    StepHighestExact(s, OpTick);
  }
}
