/** When a waiting process gets the processor. */
module SchedulerTiming {
  import opened Kernel
  import opened SchedulerModel
  import SleepOrder

  /** The current process of level L runs and nobody above L is ready. */
  ghost predicate Runs(s: State, L: nat) {
    && Placed(s) && L < LEVELS
    && s.current != NONE && LevelOf(s, s.current) == L
    && (forall l :: 0 <= l < L ==> s.ready[l] == [])
  }

  /** A sleeper p is due at the j-th coming tick. */
  predicate DueIn(s: State, p: nat, j: nat) { WakeTime(s.procs, p) <= (s.tick + j) % WORD }

  /** The next h ticks wake nobody above level L. */
  ghost predicate Quiet(s: State, L: nat, h: nat)
    requires Wf(s)
  {
    forall p, j: nat :: p in s.sleepers && 1 <= j <= h && DueIn(s, p, j) ==> p < SLOTS && LevelOf(s, p) >= L
  }

  function SliceLeft(s: State): nat
    requires Wf(s) && s.current != NONE
  {
    s.procs[s.current].slice
  }

  /** The number of the tick that ends the running slice; a slice used up already ends at the next. */
  function TicksLeft(s: State): (r: nat)
    requires Wf(s) && s.current != NONE
    ensures r > 0
  {
    if SliceLeft(s) == 0 then 1 else SliceLeft(s)
  }

  lemma WokenQueues(s: State, L: nat)
    requires Runs(s, L) && Quiet(s, L, 1)
    ensures var w := Woken(s); s.ready[L] <= w.ready[L] && forall l :: 0 <= l < L ==> w.ready[l] == []
  {
    WokenExact(s, L);
    forall l | 0 <= l < L ensures Woken(s).ready[l] == [] {
      WokenExact(s, l);
      forall p: nat | p < SLOTS && Due(s, p) ensures LevelOf(s, p) != l { assert DueIn(s, p, 1); }
    }
  }

  /** Waking only extends the queue of level L; then the current process is charged. */
  lemma ChargedRuns(s: State, L: nat)
    requires Runs(s, L) && Quiet(s, L, 1)
    ensures var c := Charged(Woken(s));
            && Runs(c, L) && s.ready[L] <= c.ready[L] && c.current == s.current && QueuesInRange(c)
            && SliceLeft(c) == (if SliceLeft(s) > 0 then SliceLeft(s) - 1 else 0)
            && Tick(s) == if TicksLeft(s) == 1 then Schedule(c) else c
  {
    TickCharges(s);
    WokenQueues(s, L);
  }

  lemma NextDue(t: nat, j: nat)
    ensures ((t + 1) % WORD + j) % WORD == (t + (j + 1)) % WORD
  {
  }

  /** After a tick the quiet lasts one tick less. */
  lemma TickQuiet(s: State, L: nat, h: nat)
    requires Placed(s) && s.current != NONE && Quiet(s, L, h + 1)
    ensures Wf(Tick(s)) && Quiet(Tick(s), L, h)
  {
    TickSameShape(s);
    TickSleepers(s);
    var r := Tick(s);
    forall p, j: nat | p in r.sleepers && 1 <= j <= h && DueIn(r, p, j) ensures p < SLOTS && LevelOf(r, p) >= L {
      NextDue(s.tick, j);
      assert p in s.sleepers && DueIn(s, p, j + 1);
    }
  }

  lemma WokenSleepers(s: State)
    requires Placed(s)
    ensures var w := Woken(s);
            && Wf(w) && w.tick == (s.tick + 1) % WORD && (forall p :: p in w.sleepers ==> p in s.sleepers)
            && SleepOrder.SameWakes(s, w)
  {
    assert Woken(s).sleepers == s.sleepers[|DueOf(s)|..] by { WokenParts(s, 0); }
    SleepOrder.WakeSameWakes(s.(tick := (s.tick + 1) % WORD));
  }

  lemma TickSleepers(s: State)
    requires Placed(s) && s.current != NONE
    ensures var r := Tick(s);
            && Wf(r) && r.tick == (s.tick + 1) % WORD && (forall p :: p in r.sleepers ==> p in s.sleepers)
            && SleepOrder.SameWakes(s, r)
  {
    TickCharges(s);
    WokenSleepers(s);
    var c := Charged(Woken(s));
    assert SleepOrder.SameWakes(s, c);
    SleepOrder.ScheduleSameWakes(c);
  }

  /** schedule hands the processor to the head of queue L and sends the current process to its end. */
  lemma ScheduleRotates(s: State, L: nat)
    requires Runs(s, L) && s.ready[L] != []
    ensures QueuesInRange(s)
    ensures var r := Schedule(s);
            && Runs(r, L) && r.current == s.ready[L][0] && SliceLeft(r) == SliceOf(L)
            && r.ready == s.ready[L := s.ready[L][1..] + [s.current as nat]]
            && r.sleepers == s.sleepers
  {
    PlacedIsStable(s);
    ScheduleExact(s);
    assert FirstLevel(s.ready, 0) == L;
    var next := s.ready[L][0];
    assert next in s.ready[L] && Fits(s.procs, L, next);
    RequeueKeeps(s);
    var q := Requeue(s);
    assert q.ready[L] == s.ready[L] + [s.current as nat];
    assert Without(q.ready[L], next) == q.ready[L][1..] == s.ready[L][1..] + [s.current as nat];
    ScheduleSameShape(s);
  }

  /** One tick with q waiting at the front of queue L and nobody above L due. */
  lemma TickAt(s: State, L: nat, q: seq<nat>)
    requires Runs(s, L) && Quiet(s, L, 1) && q != [] && q <= s.ready[L]
    ensures var r := Tick(s);
            && Runs(r, L)
            && if TicksLeft(s) > 1
               then r.current == s.current && TicksLeft(r) == TicksLeft(s) - 1 && q <= r.ready[L]
               else r.current == q[0] && TicksLeft(r) == SliceOf(L) && q[1..] <= r.ready[L]
  {
    ChargedRuns(s, L);
    if TicksLeft(s) == 1 { ScheduleRotates(Charged(Woken(s)), L); }
  }

  ghost function Ticks(s: State, n: nat): State
    requires Wf(s)
    decreases n
  {
    if n == 0 then s else
    var r := Tick(s);
    if Wf(r) then Ticks(r, n - 1) else r
  }

  /** What is left of the current slice and m whole slices. */
  function Wait(left: nat, m: nat, slice: nat): nat {
    if m == 0 then left else slice + Wait(left, m - 1, slice)
  }

  lemma {:induction false} WaitIsProduct(left: nat, m: nat, slice: nat)
    ensures Wait(left, m, slice) == left + m * slice
  {
    if m > 0 {
      WaitIsProduct(left, m - 1, slice);
      assert m * slice == slice + (m - 1) * slice;
    }
  }

  lemma {:induction false} WaitShift(left: nat, more: nat, m: nat, slice: nat)
    ensures Wait(left + more, m, slice) == more + Wait(left, m, slice)
  {
    if m > 0 { WaitShift(left, more, m - 1, slice); }
  }

  lemma WaitOneLess(left: nat, m: nat, slice: nat)
    requires left > 0
    ensures left > 1 ==> Wait(left - 1, m, slice) == Wait(left, m, slice) - 1
    ensures left == 1 && m > 0 ==> Wait(slice, m - 1, slice) == Wait(left, m, slice) - 1
  {
    WaitShift(left - 1, 1, m, slice);
    if m > 0 { WaitShift(0, slice, m - 1, slice); }
  }

  lemma {:induction false} WaitPositive(left: nat, m: nat, slice: nat)
    requires left > 0
    ensures Wait(left, m, slice) > 0
  {
    if m > 0 { WaitPositive(left, m - 1, slice); }
  }

  lemma NotYet(s: State, L: nat, q: seq<nat>, m: nat)
    requires Runs(s, L) && m < |q| && q <= s.ready[L]
    ensures s.current != q[m]
  {
    assert q[m] in s.ready[L] && Fits(s.procs, L, q[m]);
  }

  /** The process at position m of queue L is dispatched after exactly r + m * (37 - L) ticks, where
      r is what is left of the current slice, as long as nobody above L wakes: not at any tick
      before, and then at that one. */
  lemma WaitExact(s: State, L: nat, m: nat, j: nat)
    requires Runs(s, L) && m < |s.ready[L]| && j <= TicksLeft(s) + m * (37 - L) && Quiet(s, L, j)
    ensures Ticks(s, j).current == s.ready[L][m] <==> j == TicksLeft(s) + m * (37 - L)
  {
    assert SliceOf(L) == 37 - L;
    WaitIsProduct(TicksLeft(s), m, 37 - L);
    WaitCounts(s, L, s.ready[L], m, j);
  }

  /** A tick that does not yet dispatch the process at position m brings its turn one tick nearer. */
  lemma WaitTick(s: State, L: nat, q: seq<nat>, m: nat) returns (q': seq<nat>, m': nat)
    requires Runs(s, L) && Quiet(s, L, 1) && m < |q| && q <= s.ready[L]
    requires Wait(TicksLeft(s), m, SliceOf(L)) > 1
    ensures var r := Tick(s);
            && Runs(r, L) && m' < |q'| && q' <= r.ready[L] && q'[m'] == q[m]
            && Wait(TicksLeft(r), m', SliceOf(L)) == Wait(TicksLeft(s), m, SliceOf(L)) - 1
  {
    TickAt(s, L, q);
    WaitOneLess(TicksLeft(s), m, SliceOf(L));
    if TicksLeft(s) > 1 { q', m' := q, m; } else { q', m' := q[1..], m - 1; }
  }

  lemma WaitStep(s: State, L: nat, q: seq<nat>, m: nat, j: nat) returns (q': seq<nat>, m': nat)
    requires Runs(s, L) && 0 < j && Quiet(s, L, j) && m < |q| && q <= s.ready[L]
    requires Wait(TicksLeft(s), m, SliceOf(L)) > 1
    ensures var r := Tick(s);
            && Runs(r, L) && Quiet(r, L, j - 1) && m' < |q'| && q' <= r.ready[L] && q'[m'] == q[m]
            && Wait(TicksLeft(r), m', SliceOf(L)) == Wait(TicksLeft(s), m, SliceOf(L)) - 1
  {
    assert Quiet(s, L, 1);
    q', m' := WaitTick(s, L, q, m);
    TickQuiet(s, L, j - 1);
  }

  lemma FirstOfTicks(s: State, j: nat)
    requires Wf(s) && 0 < j && Wf(Tick(s))
    ensures Ticks(s, j) == Ticks(Tick(s), j - 1)
  {
  }

  lemma {:induction false} WaitCounts(s: State, L: nat, q: seq<nat>, m: nat, j: nat)
    requires Runs(s, L) && Quiet(s, L, j) && m < |q| && q <= s.ready[L]
    requires j <= Wait(TicksLeft(s), m, SliceOf(L))
    ensures Ticks(s, j).current == q[m] <==> j == Wait(TicksLeft(s), m, SliceOf(L))
    decreases j
  {
    var w := Wait(TicksLeft(s), m, SliceOf(L));
    WaitPositive(TicksLeft(s), m, SliceOf(L));
    if j == 0 {
      NotYet(s, L, q, m);
    } else if w == 1 {
      LastTick(s, L, q, m, j);
      FirstOfTicks(s, j);
    } else {
      var q', m' := WaitStep(s, L, q, m, j);
      FirstOfTicks(s, j);
      WaitCounts(Tick(s), L, q', m', j - 1);
    }
  }

  lemma LastTick(s: State, L: nat, q: seq<nat>, m: nat, j: nat)
    requires Runs(s, L) && 0 < j && Quiet(s, L, j) && m < |q| && q <= s.ready[L]
    requires Wait(TicksLeft(s), m, SliceOf(L)) == 1
    ensures Wf(Tick(s)) && Tick(s).current == q[m]
  {
    assert Quiet(s, L, 1);
    TickAt(s, L, q);
  }

  // ---------------------------------------------------------------- yielding

  /** The running process followed by the queue of its level. */
  function Ring(s: State, L: nat): seq<nat>
    requires Wf(s) && L < LEVELS && s.current != NONE
  {
    [s.current as nat] + s.ready[L]
  }

  function Rotate(r: seq<nat>, j: nat): seq<nat>
    requires j <= |r|
  {
    r[j..] + r[..j]
  }

  lemma YieldRotates(s: State, L: nat)
    requires Runs(s, L) && s.ready[L] != []
    ensures var r := Yield(s);
            && Runs(r, L) && Ring(r, L) == Rotate(Ring(s, L), 1)
            && r.ready == s.ready[L := r.ready[L]] && r.sleepers == s.sleepers
  {
    PlacedIsStable(s);
    SetSliceStable(s, 0, s.procs[s.current].total);
    var c := SetProc(s, s.current, s.procs[s.current].(slice := 0));
    PlacedIsStable(c);
    ScheduleRotates(c, L);
  }

  ghost function Yields(s: State, n: nat): State
    requires Wf(s)
    decreases n
  {
    if n == 0 then s else
    var r := Yield(s);
    if Wf(r) then Yields(r, n - 1) else r
  }

  lemma RotateStep(r: seq<nat>, j: nat)
    requires 0 < j <= |r|
    ensures Rotate(Rotate(r, 1), j - 1) == Rotate(r, j)
  {
  }

  /** With k processes at the level, j yields rotate the ring by j, so k of them restore the running
      process and every queue. */
  lemma {:induction false} YieldsRotate(s: State, L: nat, j: nat)
    requires Runs(s, L) && s.ready[L] != [] && j <= |Ring(s, L)|
    ensures var r := Yields(s, j);
            && Runs(r, L) && Ring(r, L) == Rotate(Ring(s, L), j)
            && r.ready == s.ready[L := r.ready[L]] && r.sleepers == s.sleepers
            && (j == |Ring(s, L)| ==> r.current == s.current && r.ready == s.ready)
    decreases j
  {
    if j > 0 {
      YieldRotates(s, L);
      YieldsRotate(Yield(s), L, j - 1);
      RotateStep(Ring(s, L), j);
    }
    if j == |Ring(s, L)| {
      var r := Yields(s, j);
      assert Ring(r, L) == Ring(s, L);
      assert Ring(r, L)[1..] == r.ready[L] && Ring(s, L)[1..] == s.ready[L];
    }
  }
}
