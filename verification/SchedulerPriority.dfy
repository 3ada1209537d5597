/** The design's rule that the highest-priority ready process runs: exactly which operations break
    it, and how long it then stays broken. */
module SchedulerPriority {
  import opened Kernel
  import opened SchedulerModel
  import opened SchedulerTiming

  /** The level of the running process; with none running, below every level. */
  function Bar(s: State): nat
    requires Wf(s)
  {
    if s.current == NONE then LEVELS else LevelOf(s, s.current)
  }

  /** Nobody of higher priority than the running process is ready. */
  ghost predicate HighestRuns(s: State)
    requires Wf(s)
  {
    forall l :: 0 <= l < Bar(s) ==> s.ready[l] == []
  }

  // ---------------------------------------------------------------- one dispatch

  /** schedule chooses before it puts the current process back. So after it the rule holds exactly
      when the process put back, if any, is not of higher priority than the one chosen; when it
      chooses the current process nothing changes. */
  lemma ScheduleHighestExact(s: State)
    requires Stable(s)
    ensures QueuesInRange(s) && 0 <= FindNext(s) < SLOTS && Wf(Schedule(s))
    ensures HighestRuns(Schedule(s))
            <==> if FindNext(s) == s.current then HighestRuns(s)
                 else s.current == NONE || s.procs[s.current].status == Blocked
                      || LevelOf(s, FindNext(s)) <= LevelOf(s, s.current)
  {
    ScheduleExact(s);
    NextLevel(s);
    if FindNext(s) != s.current { DispatchHighest(s); }
  }

  /** The process schedule chooses, and that nobody above it is ready. */
  lemma NextLevel(s: State)
    requires Stable(s)
    ensures 0 <= FindNext(s) < SLOTS
    ensures forall l :: 0 <= l < LevelOf(s, FindNext(s)) ==> s.ready[l] == []
    ensures FirstLevel(s.ready, 0) < LEVELS ==>
              LevelOf(s, FindNext(s)) == FirstLevel(s.ready, 0) && s.procs[FindNext(s)].status == Ready
    ensures FirstLevel(s.ready, 0) == LEVELS ==> LevelOf(s, FindNext(s)) == LOWEST
  {
    var l := FirstLevel(s.ready, 0);
    if l < LEVELS { assert s.ready[l][0] in s.ready[l] && Fits(s.procs, l, FindNext(s)); }
  }

  ghost predicate PutBack(s: State, l: nat)
    requires Wf(s)
  {
    s.current != NONE && s.procs[s.current].status == Running && l == LevelOf(s, s.current)
  }

  /** Above the process chosen, only the level of the process put back is not empty. */
  lemma DispatchQueues(s: State, l: nat)
    requires Stable(s) && QueuesInRange(s) && FindNext(s) != s.current && 0 <= FindNext(s) < SLOTS
    requires l < LevelOf(s, FindNext(s))
    ensures Schedule(s).ready[l] == [] <==> !PutBack(s, l)
  {
    NextLevel(s);
    var next, q := FindNext(s), Requeue(s);
    assert q.ready[l] == s.ready[l] + (if PutBack(s, l) then [s.current as nat] else []) by { RequeueKeeps(s); }
    assert LevelOf(q, next) == LevelOf(s, next);
    assert Schedule(s).ready[l] == Remove(q, next).ready[l] == q.ready[l];
  }

  lemma DispatchHighest(s: State)
    requires Stable(s) && QueuesInRange(s) && FindNext(s) != s.current && 0 <= FindNext(s) < SLOTS
    ensures Wf(Schedule(s))
    ensures HighestRuns(Schedule(s))
            <==> s.current == NONE || s.procs[s.current].status == Blocked
                 || LevelOf(s, FindNext(s)) <= LevelOf(s, s.current)
  {
    var r, m := Schedule(s), LevelOf(s, FindNext(s));
    assert Bar(r) == m by { ScheduleSameShape(s); }
    forall l | 0 <= l < m ensures r.ready[l] == [] <==> !PutBack(s, l) { DispatchQueues(s, l); }
    if s.current != NONE && LevelOf(s, s.current) < m {
      assert r.ready[LevelOf(s, s.current)] == [] <==> !PutBack(s, LevelOf(s, s.current));
    }
  }

  // ---------------------------------------------------------------- every operation

  /** The coming tick wakes somebody above level l. */
  ghost predicate DueAbove(s: State, l: nat)
    requires Wf(s)
  {
    exists k :: 0 <= k < l && DueAt(s, k)
  }

  /** Somebody else waits at the level of the current process, or no level lies below it. */
  predicate Contended(s: State)
    requires Wf(s) && s.current != NONE
  {
    LevelOf(s, s.current) == LOWEST || s.ready[LevelOf(s, s.current)] != []
  }

  /** When an operation keeps the rule: nobody above the running process is made ready without a
      dispatch, and no process gives way to a lower level. */
  ghost predicate Obeys(s: State, op: Op)
    requires Wf(s) && Legal(s, op)
  {
    match op
    case OpTick =>
      if s.current == NONE || s.procs[s.current].slice > 1 then !DueAbove(s, Bar(s))
      else Contended(s) || DueAbove(s, Bar(s) + 1)
    case OpYield => s.current == NONE || Contended(s)
    case OpSleep(_) => true
    case OpBlock(_) => true
    case OpUnblock(p) => s.procs[p].status != Blocked || LevelOf(s, p) >= Bar(s)
    case OpSpawn(_, priority) => Level(priority) >= Bar(s)
  }

  /** From a state in which the rule holds, an operation keeps it exactly when it obeys. */
  lemma StepHighestExact(s: State, op: Op)
    requires Placed(s) && Legal(s, op) && HighestRuns(s)
    ensures Wf(Step(s, op))
    ensures HighestRuns(Step(s, op)) <==> Obeys(s, op)
  {
    PlacedIsStable(s);
    match op
    case OpTick => TickHighest(s);
    case OpYield => YieldHighest(s);
    case OpSleep(ticks) => if s.current != NONE { SleepHighest(s, ticks); }
    case OpBlock(p) => if p == s.current { BlockSelfHighest(s); } else { BlockOtherHighest(s, p); }
    case OpUnblock(p) => if s.procs[p].status == Blocked { AddHighest(s, p); }
    case OpSpawn(p, priority) => AddHighest(SetProc(s, p, Proc(Ready, priority, 10, 0, 0)), p);
  }

  lemma AddHighest(s: State, p: nat)
    requires Wf(s) && p < SLOTS && p != s.current && s.procs[p].status != Unused && HighestRuns(s)
    ensures HighestRuns(Add(s, p)) <==> LevelOf(s, p) >= Bar(s)
  {
    var r, l := Add(s, p), LevelOf(s, p);
    assert Bar(r) == Bar(s);
    assert r.ready[l] != [];
  }

  lemma SleepHighest(s: State, ticks: nat)
    requires Placed(s) && s.current != NONE && Legal(s, OpSleep(ticks))
    ensures Wf(Sleep(s, ticks)) && HighestRuns(Sleep(s, ticks))
  {
    SleepSettles(s, ticks);
    var u := FallAsleep(s, ticks);
    ScheduleHighestExact(u);
    NextLevel(u);
  }

  lemma BlockSelfHighest(s: State)
    requires Placed(s) && s.current != NONE && Legal(s, OpBlock(s.current))
    ensures Wf(Block(s, s.current)) && HighestRuns(Block(s, s.current))
  {
    OneQueue(s, s.current);
    BlockSettles(s);
    var t := Leave(s, s.procs[s.current].(status := Blocked));
    ScheduleHighestExact(t);
    NextLevel(t);
  }

  lemma BlockOtherHighest(s: State, p: nat)
    requires Placed(s) && p != s.current && Legal(s, OpBlock(p)) && HighestRuns(s)
    ensures Wf(Block(s, p)) && HighestRuns(Block(s, p))
  {
    var t := Block(s, p);
    assert Bar(t) == Bar(s);
    forall l | 0 <= l < Bar(s) ensures t.ready[l] == [] { assert s.ready[l] == []; }
  }

  /** schedule away from a running process above which nobody is ready. */
  lemma GiveWay(s: State)
    requires Stable(s) && s.current != NONE && s.procs[s.current].status == Running && HighestRuns(s)
    ensures QueuesInRange(s) && Wf(Schedule(s))
    ensures HighestRuns(Schedule(s)) <==> Contended(s)
  {
    ScheduleHighestExact(s);
    NextLevel(s);
    var L, m := LevelOf(s, s.current), FirstLevel(s.ready, 0);
    assert m >= L;
    if FindNext(s) == s.current {
      assert m == LEVELS;
    } else {
      assert s.ready[L] != [] ==> m == L;
    }
  }

  lemma YieldHighest(s: State)
    requires Placed(s) && HighestRuns(s)
    ensures Wf(Yield(s))
    ensures HighestRuns(Yield(s)) <==> s.current == NONE || Contended(s)
  {
    PlacedIsStable(s);
    if s.current == NONE {
      ScheduleHighestExact(s);
    } else {
      SetSliceStable(s, 0, s.procs[s.current].total);
      GiveWay(SetProc(s, s.current, s.procs[s.current].(slice := 0)));
    }
  }

  /** Which levels a tick leaves empty before it looks at the current process. */
  lemma WokenHighest(s: State, b: nat)
    requires Placed(s) && b <= LEVELS && forall l :: 0 <= l < b ==> s.ready[l] == []
    ensures (forall l :: 0 <= l < b ==> Woken(s).ready[l] == []) <==> !DueAbove(s, b)
  {
    forall l | 0 <= l < b ensures Woken(s).ready[l] == [] <==> !DueAt(s, l) { WokenExact(s, l); }
  }

  lemma TickHighest(s: State)
    requires Placed(s) && HighestRuns(s)
    ensures Wf(Tick(s))
    ensures HighestRuns(Tick(s)) <==> Obeys(s, OpTick)
  {
    WokenHighest(s, Bar(s));
    if s.current == NONE {
      WokenPlaced(s);
    } else {
      TickCharges(s);
      if s.procs[s.current].slice <= 1 { SliceEndHighest(s); }
    }
  }

  lemma SliceEndHighest(s: State)
    requires Placed(s) && HighestRuns(s) && s.current != NONE && s.procs[s.current].slice <= 1
    ensures Wf(Tick(s))
    ensures HighestRuns(Tick(s)) <==> Contended(s) || DueAbove(s, Bar(s) + 1)
  {
    var L := Bar(s);
    assert DueAbove(s, L + 1) <==> DueAbove(s, L) || DueAt(s, L);
    if DueAbove(s, L) { SliceEndAhead(s); } else { SliceEndLevel(s); }
  }

  lemma SliceEndAhead(s: State)
    requires Placed(s) && HighestRuns(s) && s.current != NONE && s.procs[s.current].slice <= 1 && DueAbove(s, Bar(s))
    ensures Wf(Tick(s)) && HighestRuns(Tick(s))
  {
    TickCharges(s);
    WokenHighest(s, Bar(s));
    JumpsAhead(Charged(Woken(s)));
  }

  lemma SliceEndLevel(s: State)
    requires Placed(s) && HighestRuns(s) && s.current != NONE && s.procs[s.current].slice <= 1 && !DueAbove(s, Bar(s))
    ensures Wf(Tick(s))
    ensures HighestRuns(Tick(s)) <==> Contended(s) || DueAt(s, Bar(s))
  {
    TickCharges(s);
    WokenHighest(s, Bar(s));
    WokenExact(s, Bar(s));
    GiveWay(Charged(Woken(s)));
  }

  /** A process above the current level is chosen and is of the highest level. */
  lemma JumpsAhead(c: State)
    requires Stable(c) && c.current != NONE && c.procs[c.current].status == Running && !HighestRuns(c)
    ensures QueuesInRange(c) && Wf(Schedule(c)) && HighestRuns(Schedule(c)) && Schedule(c).current != c.current
  {
    ScheduleHighestExact(c);
    NextLevel(c);
  }

  // ---------------------------------------------------------------- runs

  /** Every operation of the run obeys in the state it meets. */
  ghost predicate AlwaysObeys(s: State, ops: seq<Op>)
    requires LegalRun(s, ops)
    decreases |ops|
  {
    ops == [] || (Obeys(s, ops[0]) && AlwaysObeys(Step(s, ops[0]), ops[1..]))
  }

  /** The rule holds in every state of the run, the last included. */
  ghost predicate AlwaysHighest(s: State, ops: seq<Op>)
    requires LegalRun(s, ops)
    decreases |ops|
  {
    HighestRuns(s) && (ops == [] || AlwaysHighest(Step(s, ops[0]), ops[1..]))
  }

  lemma {:induction false} RunHighestExact(s: State, ops: seq<Op>)
    requires LegalRun(s, ops) && Placed(s) && OnlyIdleLowest(s) && HighestRuns(s)
    ensures AlwaysHighest(s, ops) <==> AlwaysObeys(s, ops)
    decreases |ops|
  {
    if ops != [] {
      StepHighestExact(s, ops[0]);
      StepKeeps(s, ops[0]);
      if Obeys(s, ops[0]) { RunHighestExact(Step(s, ops[0]), ops[1..]); }
    }
  }

  // ---------------------------------------------------------------- how long it stays broken

  /** One tick while somebody above the running process waits. */
  lemma OvertakenTick(s: State)
    requires Placed(s) && s.current != NONE && !HighestRuns(s)
    ensures var r := Tick(s);
            && Placed(r)
            && if TicksLeft(s) > 1
               then r.current == s.current && TicksLeft(r) == TicksLeft(s) - 1 && !HighestRuns(r)
               else r.current != s.current && HighestRuns(r)
  {
    TickCharges(s);
    StillOvertaken(s);
    TickExact(s);
    if TicksLeft(s) == 1 { JumpsAhead(Charged(Woken(s))); }
  }

  lemma StillOvertaken(s: State)
    requires Placed(s) && !HighestRuns(s)
    requires Wf(Woken(s)) && Woken(s).current == s.current && SameShape(s, Woken(s))
    ensures !HighestRuns(Woken(s))
  {
    var l :| 0 <= l < Bar(s) && s.ready[l] != [];
    WokenExact(s, l);
  }

  /** A broken rule is mended by the tick that ends the running slice, and by none before; for a slice
      used up already, as the idle process often has, that is the very next tick. */
  lemma {:induction false} MendedAtSliceEnd(s: State, j: nat)
    requires Placed(s) && s.current != NONE && !HighestRuns(s) && j <= TicksLeft(s)
    ensures Wf(Ticks(s, j)) && (HighestRuns(Ticks(s, j)) <==> j == TicksLeft(s))
    ensures Ticks(s, j).current == s.current <==> j < TicksLeft(s)
    decreases j
  {
    if j > 0 {
      OvertakenTick(s);
      if TicksLeft(s) > 1 { MendedAtSliceEnd(Tick(s), j - 1); }
    }
  }
}
