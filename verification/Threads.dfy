/** The process table and the scheduler over the same slots: threads are created, scheduled and
    destroyed. */
module Threads {
  import opened Kernel
  import opened SchedulerModel
  import P = ProcessTable

  datatype System = System(table: P.State, sched: State)

  /** A slot is in use for both or for neither. */
  ghost predicate Coupled(y: System) {
    && |y.table.slots| == SLOTS && Wf(y.sched)
    && forall i :: 0 <= i < SLOTS ==> (y.table.slots[i].live <==> y.sched.procs[i].status != Unused)
  }

  ghost predicate SystemInv(y: System, base: set<nat>) {
    Coupled(y) && P.Inv(y.table, base) && Placed(y.sched) && OnlyIdleLowest(y.sched)
  }

  /** process_destroy as the scheduler sees it. */
  function Vacate(s: State, p: nat): State
    requires Wf(s) && p < SLOTS
  {
    SetProc(s, p, s.procs[p].(status := Unused))
  }

  /** p runs, waits, sleeps or is the idle process. */
  ghost predicate Engaged(s: State, p: nat)
    requires Wf(s) && p < SLOTS
  {
    p == s.current || p == s.idle || p in s.ready[LevelOf(s, p)] || p in s.sleepers
  }

  /** process_destroy does not take the process off any list: the scheduler stays in order exactly
      when there was nothing to take it off. */
  lemma DestroyExact(s: State, p: nat)
    requires Placed(s) && p < SLOTS
    ensures Placed(Vacate(s, p)) <==> !Engaged(s, p)
  {
    var t := Vacate(s, p);
    if Engaged(s, p) {
      if p in s.ready[LevelOf(s, p)] { assert !Fits(t.procs, LevelOf(s, p), p); }
    } else {
      OneQueue(s, p);
      forall l, x | 0 <= l < LEVELS && x in t.ready[l] ensures Fits(t.procs, l, x) { assert Fits(s.procs, l, x); }
      SortedSame(s.procs, t.procs, s.sleepers);
      forall x | 0 <= x < SLOTS ensures InPlace(t, x) { assert InPlace(s, x); }
    }
  }

  // ---------------------------------------------------------------- operations

  datatype Action = Start(priority: int) | Finish(p: nat) | Sched(op: Op)

  ghost predicate Allowed(y: System, a: Action)
    requires Coupled(y)
  {
    match a
    case Start(priority) => Level(priority) < LOWEST
    case Finish(p) => p < SLOTS && !Engaged(y.sched, p)
    case Sched(op) => Legal(y.sched, op) && !op.OpSpawn?
  }

  /** Creation hands the new process to scheduler_add in the slot it found. */
  ghost function Act(y: System, a: Action): System
    requires Coupled(y) && Allowed(y, a)
  {
    match a
    case Start(priority) =>
      var (t, i) := P.Create(y.table);
      if i >= SLOTS then y else System(t, Spawn(y.sched, i, priority))
    case Finish(p) =>
      if !y.table.slots[p].live then y else System(P.Destroy(y.table, p), Vacate(y.sched, p))
    case Sched(op) => y.(sched := Step(y.sched, op))
  }

  /** The slot that creation finds is free for the scheduler too, so that OpSpawn is legal. */
  lemma StartIsLegal(y: System, base: set<nat>, priority: int)
    requires SystemInv(y, base) && Level(priority) < LOWEST
    ensures var (t, i) := P.Create(y.table);
            i < SLOTS ==> && Legal(y.sched, OpSpawn(i, priority))
                          && t.slots == y.table.slots[i := t.slots[i]] && t.slots[i].live
  {
  }

  lemma StartKeeps(y: System, base: set<nat>, priority: int)
    requires SystemInv(y, base) && Level(priority) < LOWEST
    ensures SystemInv(Act(y, Start(priority)), base)
  {
    StartIsLegal(y, base, priority);
    P.CreateKeeps(y.table, base);
    var (t, i) := P.Create(y.table);
    if i < SLOTS { StepKeeps(y.sched, OpSpawn(i, priority)); }
  }

  lemma FinishKeeps(y: System, base: set<nat>, p: nat)
    requires SystemInv(y, base) && Allowed(y, Finish(p))
    ensures SystemInv(Act(y, Finish(p)), base)
  {
    P.DestroyKeeps(y.table, base, p);
    DestroyExact(y.sched, p);
  }

  // ---------------------------------------------------------------- runs

  ghost predicate AllowedRun(y: System, actions: seq<Action>)
    decreases |actions|
  {
    Coupled(y) && (actions == [] || (Allowed(y, actions[0]) && AllowedRun(Act(y, actions[0]), actions[1..])))
  }

  ghost function RunAll(y: System, actions: seq<Action>): System
    requires AllowedRun(y, actions)
    decreases |actions|
  {
    if actions == [] then y else RunAll(Act(y, actions[0]), actions[1..])
  }

  lemma ActKeeps(y: System, base: set<nat>, a: Action)
    requires SystemInv(y, base) && Allowed(y, a)
    ensures SystemInv(Act(y, a), base)
  {
    match a
    case Start(priority) => StartKeeps(y, base, priority);
    case Finish(p) => FinishKeeps(y, base, p);
    case Sched(op) =>
      StepKeeps(y.sched, op);
      StepSameShape(y.sched, op);
  }

  /** Over every run of creations, destructions and scheduling the two agree on the slots in use,
      live processes have their own pids and stacks, and each is in exactly one place. */
  lemma {:induction false} RunKeepsSystem(y: System, base: set<nat>, actions: seq<Action>)
    requires SystemInv(y, base) && AllowedRun(y, actions)
    ensures SystemInv(RunAll(y, actions), base)
    decreases |actions|
  {
    if actions != [] {
      ActKeeps(y, base, actions[0]);
      RunKeepsSystem(Act(y, actions[0]), base, actions[1..]);
    }
  }

  /** scheduler_init: the table with the idle process in its first slot, and the scheduler. */
  lemma Boot(empty: P.State)
    requires P.Inv(empty, empty.used) && (forall i :: 0 <= i < SLOTS ==> !empty.slots[i].live)
    requires P.Create(empty).1 < SLOTS
    ensures P.Create(empty).1 == 0 && SystemInv(System(P.Create(empty).0, Initial()), empty.used)
  {
    P.CreateKeeps(empty, empty.used);
    InitialPlaced();
  }
}
