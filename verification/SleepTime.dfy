/** How long scheduler_sleep sleeps. */
module SleepTime {
  import opened Kernel
  import opened Links
  import opened SchedulerModel
  import opened SchedulerTiming
  import SleepOrder

  /** Lists and idle process in order, whether or not somebody has been lost. */
  ghost predicate Orderly(s: State) { Wf(s) && Queued(s) && Asleep(s) && IdleOk(s) && IdleQuiet(s) }

  /** The idle process runs only as the current one. */
  ghost predicate IdleQuiet(s: State)
    requires Wf(s) && IdleOk(s)
  {
    s.procs[s.idle].status == Running ==> s.idle == s.current
  }

  // ---------------------------------------------------------------- ticks keep the lists in order

  lemma SetUnlisted(s: State, p: nat, r: Proc)
    requires Orderly(s) && p < SLOTS && s.procs[p].status == Running && r.priority == s.procs[p].priority
    requires r.status == Running || r.status == Ready
    ensures Orderly(SetProc(s, p, r)) && Loose(SetProc(s, p, r), p)
  {
    var t := SetProc(s, p, r);
    OneQueue(s, p);
    forall l, x | 0 <= l < LEVELS && x in t.ready[l] ensures Fits(t.procs, l, x) { assert Fits(s.procs, l, x); }
    SortedSame(s.procs, t.procs, s.sleepers);
  }

  lemma RequeueOrderly(s: State)
    requires Orderly(s)
    ensures Orderly(Requeue(s))
    ensures forall p :: 0 <= p < SLOTS && s.procs[p].status == Ready ==> Requeue(s).procs[p].status == Ready
    ensures Requeue(s).procs[s.idle].status == Ready
  {
    var c := s.current;
    if c != NONE && s.procs[c].status == Running {
      SetUnlisted(s, c, s.procs[c].(status := Ready));
      AddKeeps(SetProc(s, c, s.procs[c].(status := Ready)), c);
    }
  }

  lemma DispatchOrderly(s: State, p: nat)
    requires Orderly(s) && p < SLOTS && s.procs[p].status == Ready && s.procs[s.idle].status == Ready
    ensures Orderly(Dispatch(s, p))
  {
    RemoveKeeps(s, p);
    var r, t := Remove(s, p), Dispatch(s, p);
    OneQueue(r, p);
    forall l, x | 0 <= l < LEVELS && x in t.ready[l] ensures Fits(t.procs, l, x) {
      assert x in r.ready[l] && Fits(r.procs, l, x);
    }
    SortedSame(r.procs, t.procs, s.sleepers);
  }

  /** The process chosen is ready, unless it is the idle process and runs outside the queues. */
  lemma NextIsFit(s: State)
    requires Orderly(s)
    ensures QueuesInRange(s) && 0 <= FindNext(s) < SLOTS
    ensures s.procs[FindNext(s)].status == Ready || FindNext(s) == s.idle
  {
    forall l, p | 0 <= l < LEVELS && p in s.ready[l] ensures p < SLOTS { assert Fits(s.procs, l, p); }
    var l := FirstLevel(s.ready, 0);
    if l < LEVELS { assert s.ready[l][0] in s.ready[l] && Fits(s.procs, l, s.ready[l][0]); }
  }

  lemma ScheduleOrderly(s: State)
    requires Orderly(s)
    ensures QueuesInRange(s) && Orderly(Schedule(s))
  {
    NextIsFit(s);
    var next := FindNext(s);
    if next != s.current {
      RequeueOrderly(s);
      DispatchOrderly(Requeue(s), next);
    }
  }

  lemma {:induction false} WakeOrderly(s: State)
    requires Orderly(s)
    ensures Orderly(Wake(s))
    decreases |s.sleepers|
  {
    if s.sleepers != [] && WakeTime(s.procs, s.sleepers[0]) <= s.tick {
      FirstAsleep(s);
      var t := s.(sleepers := s.sleepers[1..]);
      OneQueue(s, s.sleepers[0]);
      assert forall x :: x in t.sleepers ==> x in s.sleepers;
      AddKeeps(t, s.sleepers[0]);
      WakeNext(s);
      WakeOrderly(AfterFirst(s));
    }
  }

  ghost predicate Kept(s: State, r: State)
    requires Wf(s)
  {
    Orderly(r) && SameShape(s, r) && SleepOrder.SameWakes(s, r) && r.tick == s.tick && r.sleepers == s.sleepers
  }

  /** Charging the current process and rescheduling leave the sleepers alone. */
  lemma PreemptKeeps(w: State)
    requires Orderly(w)
    ensures Kept(w, Preempt(w))
  {
    if w.current != NONE && w.procs[w.current].status == Running {
      var c := Charged(w);
      SetUnlisted(w, w.current, c.procs[w.current]);
      ScheduleOrderly(c);
      assert Kept(w, c);
      assert SameShape(c, Schedule(c)) by { ScheduleSameShape(c); }
      assert SleepOrder.SameWakes(c, Schedule(c)) by { SleepOrder.ScheduleSameWakes(c); }
    }
  }

  lemma WokenKeeps(s: State)
    requires Orderly(s)
    ensures var w := Woken(s);
            && Orderly(w) && w.tick == (s.tick + 1) % WORD && SleepOrder.SameWakes(s, w) && SameShape(s, w)
            && w.sleepers == s.sleepers[|DueOf(s)|..]
  {
    var t := s.(tick := (s.tick + 1) % WORD);
    assert Orderly(Woken(s)) by { WakeOrderly(t); }
    assert Woken(s).sleepers == s.sleepers[|DueOf(s)|..] by { WokenParts(s, 0); }
    SleepOrder.WakeSameWakes(t);
    WakeSameShape(t);
  }

  /** What a tick does to wake times, levels and the sleep queue. */
  lemma TickKeeps(s: State)
    requires Orderly(s)
    ensures var r := Tick(s);
            && Orderly(r) && r.tick == (s.tick + 1) % WORD && SleepOrder.SameWakes(s, r) && SameShape(s, r)
            && r.sleepers == s.sleepers[|DueOf(s)|..]
  {
    WokenKeeps(s);
    PreemptKeeps(Woken(s));
  }

  // ---------------------------------------------------------------- who still sleeps

  /** p's time comes at one of the next j ticks. */
  ghost predicate DueBy(s: State, p: nat, j: nat) { exists i: nat :: 1 <= i <= j && DueIn(s, p, i) }

  lemma DueByNext(s: State, r: State, p: nat, j: nat)
    requires Wf(s) && Wf(r) && p < SLOTS && r.tick == (s.tick + 1) % WORD && SleepOrder.SameWakes(s, r)
    ensures DueBy(s, p, j + 1) <==> DueIn(s, p, 1) || DueBy(r, p, j)
  {
    if DueBy(s, p, j + 1) && !DueIn(s, p, 1) {
      var i: nat :| 1 <= i <= j + 1 && DueIn(s, p, i);
      NextDue(s.tick, i - 1);
      assert DueIn(r, p, i - 1);
    }
    if DueBy(r, p, j) {
      var i: nat :| 1 <= i <= j && DueIn(r, p, i);
      NextDue(s.tick, i);
      assert DueIn(s, p, i + 1);
    }
  }

  lemma TickOrderly(s: State)
    requires Orderly(s)
    ensures Wf(Tick(s)) && Orderly(Tick(s))
  {
    TickKeeps(s);
  }

  /** p sleeps and goes on sleeping for j ticks. */
  ghost predicate SleepsOn(s: State, p: nat, j: nat) { p in s.sleepers && !DueBy(s, p, j) }

  lemma SleepsOnNext(s: State, p: nat, j: nat)
    requires Orderly(s) && p < SLOTS
    ensures SleepsOn(s, p, j + 1) <==> SleepsOn(Tick(s), p, j)
  {
    TickKeeps(s);
    SleepOrder.StillAsleep(s, p);
    DueByNext(s, Tick(s), p, j);
  }

  /** After j ticks exactly those sleep on whose time has not come at any of them. */
  lemma {:induction false} AsleepExact(s: State, p: nat, j: nat)
    requires Orderly(s) && p < SLOTS
    ensures Orderly(Ticks(s, j)) && (p in Ticks(s, j).sleepers <==> SleepsOn(s, p, j))
    decreases j
  {
    if j > 0 {
      TickOrderly(s);
      SleepsOnNext(s, p, j - 1);
      FirstOfTicks(s, j);
      AsleepExact(Tick(s), p, j - 1);
    }
  }

  // ---------------------------------------------------------------- scheduler_sleep

  lemma FallenOrderly(s: State, n: nat)
    requires Placed(s) && s.current != NONE && s.current != s.idle
    ensures var u, p := FallAsleep(s, n), s.current;
            && Orderly(u) && p in u.sleepers && u.tick == s.tick
            && u.procs[p].wake == (s.tick + n) % WORD && u.procs[p].priority == s.procs[p].priority
  {
    var p, g := s.current, SleepProc(s, n);
    LeaveExact(s, g);
    assert InPlace(s, s.idle);
    var t := Leave(s, g);
    InsertSorted(t.procs, t.sleepers, p);
    InsertMembers(t.sleepers, LaterFrom(t.procs, t.sleepers, t.procs[p].wake, 0), p);
  }

  /** p sleeps and is due n ticks from now. */
  ghost predicate Dozes(r: State, p: nat, n: nat) {
    Orderly(r) && p < SLOTS && p in r.sleepers && WakeTime(r.procs, p) == (r.tick + n) % WORD
  }

  lemma AsleepAfter(s: State, n: nat)
    requires Placed(s) && s.current != NONE && s.current != s.idle
    ensures var r := Sleep(s, n);
            Dozes(r, s.current, n) && r.tick == s.tick && LevelOf(r, s.current) == LevelOf(s, s.current)
  {
    FallenOrderly(s, n);
    var u := FallAsleep(s, n);
    ScheduleOrderly(u);
    assert SameShape(u, Schedule(u)) by { ScheduleSameShape(u); }
    assert SleepOrder.SameWakes(u, Schedule(u)) by { SleepOrder.ScheduleSameWakes(u); }
  }

  /** The tick at which a wake time n ahead comes, as long as the counter does not wrap. */
  lemma DueWhen(r: State, p: nat, n: nat, j: nat)
    requires WakeTime(r.procs, p) == (r.tick + n) % WORD && r.tick + (if n == 0 then 1 else n) < WORD
    ensures DueBy(r, p, j) <==> j >= if n == 0 then 1 else n
  {
    var m := if n == 0 then 1 else n;
    assert (r.tick + n) % WORD == r.tick + n && (r.tick + m) % WORD == r.tick + m;
    if j >= m { assert DueIn(r, p, m); }
    forall i: nat | 1 <= i < m ensures !DueIn(r, p, i) { assert (r.tick + i) % WORD == r.tick + i; }
  }

  /** A process that sleeps n ticks is asleep after j further ticks exactly when j < max(1, n), as
      long as the 64-bit tick counter does not wrap meanwhile. */
  lemma SleepLasts(s: State, n: nat, j: nat)
    requires Placed(s) && s.current != NONE && s.current != s.idle
    requires s.tick + (if n == 0 then 1 else n) < WORD
    ensures Wf(Ticks(Sleep(s, n), j))
    ensures s.current in Ticks(Sleep(s, n), j).sleepers <==> j < if n == 0 then 1 else n
  {
    AsleepAfter(s, n);
    LastsFrom(Sleep(s, n), s.current, n, j);
  }

  lemma LastsFrom(r: State, p: nat, n: nat, j: nat)
    requires Dozes(r, p, n)
    requires r.tick + (if n == 0 then 1 else n) < WORD
    ensures Orderly(Ticks(r, j)) && (p in Ticks(r, j).sleepers <==> j < if n == 0 then 1 else n)
  {
    AsleepExact(r, p, j);
    DueWhen(r, p, n, j);
  }

  /** When the wake time wraps, the sleep is cut short: the very next tick ends it. */
  lemma SleepCutShort(s: State, n: nat, j: nat)
    requires Placed(s) && s.current != NONE && s.current != s.idle
    requires s.tick + 1 < WORD <= s.tick + n && n < WORD
    ensures Wf(Ticks(Sleep(s, n), j))
    ensures s.current in Ticks(Sleep(s, n), j).sleepers <==> j == 0
  {
    AsleepAfter(s, n);
    CutShortFrom(Sleep(s, n), s.current, n, j);
  }

  lemma CutShortFrom(r: State, p: nat, n: nat, j: nat)
    requires Dozes(r, p, n)
    requires r.tick + 1 < WORD <= r.tick + n && n < WORD
    ensures Orderly(Ticks(r, j)) && (p in Ticks(r, j).sleepers <==> j == 0)
  {
    AsleepExact(r, p, j);
    DueAtOnce(r, p, n, j);
  }

  lemma DueAtOnce(r: State, p: nat, n: nat, j: nat)
    requires WakeTime(r.procs, p) == (r.tick + n) % WORD && r.tick + 1 < WORD <= r.tick + n && n < WORD
    ensures DueBy(r, p, j) <==> j > 0
  {
    assert (r.tick + n) % WORD == r.tick + n - WORD;
    if j > 0 { assert DueIn(r, p, 1); }
  }

  /** A sleeper that a tick wakes is put, ready, behind those that wait at its level. */
  lemma WakesBehind(t: State, p: nat)
    requires Orderly(t) && p < SLOTS && p in t.sleepers && DueIn(t, p, 1)
    ensures var w, l := Woken(t), LevelOf(t, p);
            && p !in t.ready[l] && t.ready[l] <= w.ready[l] && p in w.ready[l] && p !in w.sleepers
            && w.procs[p].status == Ready
  {
    var l, w := LevelOf(t, p), Woken(t);
    WokenKeeps(t);
    SleepOrder.StillAsleep(t, p);
    OneQueue(t, p);
    WokenParts(t, l);
    DueMember(t, p);
    SelectMember(t.procs, l, DueOf(t), p);
    assert p in w.ready[l] && Fits(w.procs, l, p);
  }

  /** At its last tick the sleeper is put, ready, behind those that wait at its level. */
  lemma SleepEnds(s: State, n: nat)
    requires Placed(s) && s.current != NONE && s.current != s.idle
    requires s.tick + (if n == 0 then 1 else n) < WORD
    ensures var p, l := s.current, LevelOf(s, s.current);
            var t := Ticks(Sleep(s, n), if n == 0 then 0 else n - 1);
            && Wf(t) && p in t.sleepers && p !in t.ready[l]
            && t.ready[l] <= Woken(t).ready[l] && p in Woken(t).ready[l] && p !in Woken(t).sleepers
            && Woken(t).procs[p].status == Ready
  {
    AsleepAfter(s, n);
    EndsFrom(Sleep(s, n), s.current, n, if n == 0 then 0 else n - 1);
  }

  lemma EndsFrom(r: State, p: nat, n: nat, j: nat)
    requires Dozes(r, p, n)
    requires r.tick + (if n == 0 then 1 else n) < WORD && j == if n == 0 then 0 else n - 1
    ensures var t, l := Ticks(r, j), LevelOf(r, p);
            && Wf(t) && p in t.sleepers && p !in t.ready[l]
            && t.ready[l] <= Woken(t).ready[l] && p in Woken(t).ready[l] && p !in Woken(t).sleepers
            && Woken(t).procs[p].status == Ready
  {
    LastsFrom(r, p, n, j);
    TicksLater(r, j);
    DueAtEnd(r, Ticks(r, j), p, n, j);
    WakesBehind(Ticks(r, j), p);
  }

  /** r is j ticks later than s, with nobody's level or wake time changed. */
  ghost predicate Later(s: State, r: State, j: nat) {
    && Wf(s) && Wf(r) && SameShape(s, r) && SleepOrder.SameWakes(s, r)
    && r.tick % WORD == (s.tick + j) % WORD
  }

  lemma AddBoth(a: nat, b: nat, c: nat)
    requires a % WORD == b % WORD
    ensures (a + c) % WORD == (b + c) % WORD
  {
  }

  lemma LaterStep(s: State, t: State, r: State, j: nat)
    requires Later(s, t, 1) && Later(t, r, j)
    ensures Later(s, r, j + 1)
  {
    AddBoth(t.tick, s.tick + 1, j);
  }

  lemma TickLater(s: State)
    requires Orderly(s)
    ensures Later(s, Tick(s), 1)
  {
    TickKeeps(s);
  }

  lemma {:induction false} TicksLater(s: State, j: nat)
    requires Orderly(s)
    ensures Later(s, Ticks(s, j), j)
    decreases j
  {
    if j > 0 {
      TickLater(s);
      TickOrderly(s);
      FirstOfTicks(s, j);
      TicksLater(Tick(s), j - 1);
      LaterStep(s, Tick(s), Ticks(Tick(s), j - 1), j - 1);
    }
  }

  lemma DueAtEnd(r: State, t: State, p: nat, n: nat, j: nat)
    requires Later(r, t, j) && p < SLOTS && WakeTime(r.procs, p) == (r.tick + n) % WORD
    requires r.tick + (if n == 0 then 1 else n) < WORD && j == if n == 0 then 0 else n - 1
    ensures DueIn(t, p, 1)
  {
    AddBoth(t.tick, r.tick + j, 1);
    assert (r.tick + n) % WORD == r.tick + n && (r.tick + j + 1) % WORD == r.tick + j + 1;
  }
}
