/** What each operation does to the process it is about, in numbers. */
module SchedulerEffects {
  import opened Kernel
  import opened Links
  import opened SchedulerModel

  /** Process p is ready with a full slice and last in the queue of its clamped priority; nothing else
      has changed. */
  ghost predicate Enqueued(s: State, r: State, p: nat, priority: int)
    requires Wf(s) && Wf(r) && p < SLOTS
  {
    var l: nat := if priority < 0 then 0 else if priority > 31 then 31 else priority;
    && r.ready == s.ready[l := s.ready[l] + [p]] && r.sleepers == s.sleepers
    && r.procs[p].status == Ready && r.procs[p].priority == priority && r.procs[p].slice == 37 - l
    && (forall x :: 0 <= x < SLOTS && x != p ==> r.procs[x] == s.procs[x])
    && r.current == s.current && r.idle == s.idle && r.tick == s.tick
  }

  /** scheduler_add queues any process of the table and ignores an unused slot. */
  lemma AddEffect(s: State, p: nat)
    requires Wf(s) && p < SLOTS
    ensures if s.procs[p].status == Unused then Add(s, p) == s else Enqueued(s, Add(s, p), p, s.procs[p].priority)
  {
  }

  /** The state after scheduler_init: the idle process in the first slot, ready at priority 31 with ten
      ticks and off the queues, and nothing else. */
  lemma InitialEffect()
    ensures var s := Initial();
            && Placed(s) && OnlyIdleLowest(s) && s.current == -1 && s.idle == 0 && s.tick == 0 && s.sleepers == []
            && (forall l :: 0 <= l < 32 ==> s.ready[l] == [])
            && s.procs[0] == Proc(Ready, 31, 10, 0, 0) && (forall p :: 1 <= p < 64 ==> s.procs[p].status == Unused)
  {
    InitialPlaced();
  }

  /** scheduler_unblock queues a blocked process and does nothing to any other. */
  lemma UnblockEffect(s: State, p: nat)
    requires Wf(s) && p < SLOTS
    ensures if s.procs[p].status == Blocked then Enqueued(s, Unblock(s, p), p, s.procs[p].priority)
            else Unblock(s, p) == s
  {
  }

  /** A new thread is queued at its priority with nothing charged to it. */
  lemma SpawnEffect(s: State, p: nat, priority: int)
    requires Wf(s) && p < SLOTS
    ensures var r := Spawn(s, p, priority);
            Enqueued(s, r, p, priority) && r.procs[p].total == 0 && r.procs[p].wake == 0
  {
  }

  /** A process blocked by another is blocked and in no ready queue; only its own place is gone. */
  lemma BlockEffect(s: State, p: nat)
    requires Placed(s) && p < SLOTS && p != s.current && p != s.idle && Blockable(s, p)
    ensures var r := Block(s, p);
            && r.procs == s.procs[p := s.procs[p].(status := Blocked)] && r.current == s.current && r.tick == s.tick
            && (forall l, x :: 0 <= l < LEVELS && x != s.idle ==> (x in r.ready[l] <==> x in s.ready[l] && x != p))
            && (forall x :: x != p ==> (x in r.sleepers <==> x in s.sleepers))
  {
    var t := SetProc(s, p, s.procs[p].(status := Blocked));
    OneQueue(s, p);
    if p in s.sleepers && |s.sleepers| > 1 {
      forall x ensures x in Without(s.sleepers, p) <==> x in s.sleepers && x != p { WithoutMember(s.sleepers, p, x); }
    } else {
      forall l, x | 0 <= l < LEVELS && x != s.idle ensures x in Remove(t, p).ready[l] <==> x in s.ready[l] && x != p {
        if l == LevelOf(s, p) { WithoutMember(s.ready[l], p, x); }
      }
    }
  }

  /** A process that blocks itself no longer runs and waits nowhere. */
  lemma BlockSelfEffect(s: State)
    requires Placed(s) && s.current != NONE && s.current != s.idle && Alone(s, s.current)
    ensures var r, p := Block(s, s.current), s.current;
            && Wf(r) && r.current != p && r.procs[p].status == Blocked && p !in r.sleepers
            && forall l :: 0 <= l < LEVELS ==> p !in r.ready[l]
  {
    var p, t := s.current, Leave(s, s.procs[s.current].(status := Blocked));
    OneQueue(s, p);
    BlockSettles(s);
    BlockSelfExact(s);
    assert Block(s, p) == Schedule(t);
    ScheduleDispatches(t);
    OneQueue(Schedule(t), p);
  }

  /** schedule on a state whose current process is blocked runs another one and touches only that. */
  lemma ScheduleDispatches(t: State)
    requires Stable(t) && t.current != NONE && t.procs[t.current].status == Blocked
    ensures QueuesInRange(t) && Wf(Schedule(t)) && Queued(Schedule(t))
    ensures Schedule(t).current != t.current && Schedule(t).procs[t.current] == t.procs[t.current]
  {
    ScheduleExact(t);
    var l, next := FirstLevel(t.ready, 0), FindNext(t);
    if l < LEVELS { assert t.ready[l][0] in t.ready[l] && Fits(t.procs, l, next); }
  }

  // ---------------------------------------------------------------- yielding

  /** Yielding gives up the rest of the slice: either the process stays with nothing left of it, or it
      waits, ready with a full one, at the end of its queue. */
  lemma YieldEffect(s: State)
    requires Placed(s) && s.current != NONE && !LosesCurrent(s)
    ensures var r, p := Yield(s), s.current;
            && Wf(r)
            && if r.current == p then r.procs == s.procs[p := s.procs[p].(slice := 0)] && r.ready == s.ready
               else var l := LevelOf(s, p);
                    && r.procs[p].status == Ready && r.procs[p].slice == 37 - l
                    && r.ready[l] != [] && r.ready[l][|r.ready[l]| - 1] == p
  {
    PlacedIsStable(s);
    var p, c := s.current, SetProc(s, s.current, s.procs[s.current].(slice := 0));
    SetSliceStable(s, 0, s.procs[p].total);
    ScheduleExact(c);
    if FindNext(c) != p { PutBackLast(c); }
  }

  lemma PutBackLast(c: State)
    requires Stable(c) && c.current != NONE && c.procs[c.current].status == Running && FindNext(c) != c.current
    requires QueuesInRange(c) && !LosesCurrent(c)
    ensures var r, p, l := Schedule(c), c.current, LevelOf(c, c.current);
            && Wf(r) && r.current != p && r.procs[p].status == Ready && r.procs[p].slice == 37 - l
            && r.ready[l] != [] && r.ready[l][|r.ready[l]| - 1] == p
  {
    var p, l, next, q := c.current, LevelOf(c, c.current), FindNext(c), Requeue(c);
    var m := FirstLevel(c.ready, 0);
    if m < LEVELS { assert c.ready[m][0] in c.ready[m] && Fits(c.procs, m, next); }
    assert q.ready[l] == c.ready[l] + [p as nat];
    if m == l {
      var rest := c.ready[l][1..] + [p as nat];
      assert q.ready[l][0] == next && q.ready[l][1..] == rest;
      assert Schedule(c).ready[l] == rest;
    }
  }

  // ---------------------------------------------------------------- accounting

  ghost predicate SameTotals(s: State, r: State)
    requires Wf(s) && Wf(r)
  {
    forall p :: 0 <= p < SLOTS ==> r.procs[p].total == s.procs[p].total
  }

  lemma ScheduleSameTotals(s: State)
    requires Wf(s) && QueuesInRange(s)
    ensures SameTotals(s, Schedule(s))
  {
    var next := FindNext(s);
    if next != NONE && next != s.current {
      assert next == s.idle || next in s.ready[FirstLevel(s.ready, 0)];
      assert SameTotals(s, Requeue(s));
      assert SameTotals(Requeue(s), Dispatch(Requeue(s), next));
    }
  }

  lemma {:induction false} WakeSameTotals(s: State)
    requires Wf(s)
    ensures SameTotals(s, Wake(s))
    decreases |s.sleepers|
  {
    if s.sleepers != [] && s.sleepers[0] < SLOTS && WakeTime(s.procs, s.sleepers[0]) <= s.tick {
      WakeSameTotals(Add(s.(sleepers := s.sleepers[1..]), s.sleepers[0]));
    }
  }

  /** A tick advances the clock by one and charges it to the running process and to no other. */
  lemma TickEffect(s: State, p: nat)
    requires Placed(s) && p < SLOTS
    ensures var r := Tick(s);
            && Wf(r) && r.tick == (s.tick + 1) % 0x1_0000_0000_0000_0000
            && r.procs[p].total == if p == s.current then (s.procs[p].total + 1) % 0x1_0000_0000_0000_0000
                                   else s.procs[p].total
  {
    var w := Woken(s);
    WokenTotal(s, p);
    if s.current != NONE {
      assert w.current == s.current && QueuesInRange(Charged(w))
             && (Tick(s) == Charged(w) || Tick(s) == Schedule(Charged(w))) by { TickCharges(s); }
      ChargeEffect(w, p);
    } else {
      assert w.current == NONE by { WokenPlaced(s); }
    }
  }

  lemma WokenTotal(s: State, p: nat)
    requires Wf(s) && p < SLOTS
    ensures Wf(Woken(s)) && Woken(s).tick == (s.tick + 1) % WORD && Woken(s).procs[p].total == s.procs[p].total
  {
    WakeSameTotals(s.(tick := (s.tick + 1) % WORD));
  }

  lemma ChargeEffect(w: State, p: nat)
    requires Wf(w) && w.current != NONE && p < SLOTS && QueuesInRange(Charged(w))
    ensures var t := if p == w.current then (w.procs[p].total + 1) % WORD else w.procs[p].total;
            && Charged(w).procs[p].total == t && Schedule(Charged(w)).procs[p].total == t
            && Charged(w).tick == w.tick && Schedule(Charged(w)).tick == w.tick
  {
    ScheduleSameTotals(Charged(w));
  }
}
