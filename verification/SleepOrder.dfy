/** The order of the sleep queue: by wake time, and among equal times by arrival. Every process is
    given a ghost stamp when it falls asleep. */
module SleepOrder {
  import opened Kernel
  import opened Links
  import opened SchedulerModel

  /** How many calls of scheduler_sleep there were, and the number of each process's last one. */
  datatype History = History(calls: nat, stamp: seq<nat>)

  function NextHistory(s: State, h: History, op: Op): History
    requires Wf(s) && |h.stamp| == SLOTS
  {
    if op.OpSleep? && s.current != NONE then History(h.calls + 1, h.stamp[s.current := h.calls]) else h
  }

  /** p wakes before q, or at the same time and fell asleep before it. */
  predicate Before(procs: seq<Proc>, stamp: seq<nat>, p: nat, q: nat)
    requires |procs| == |stamp| == SLOTS
  {
    && p < SLOTS && q < SLOTS
    && (procs[p].wake < procs[q].wake || (procs[p].wake == procs[q].wake && stamp[p] < stamp[q]))
  }

  ghost predicate InOrder(procs: seq<Proc>, stamp: seq<nat>, q: seq<nat>)
    requires |procs| == |stamp| == SLOTS
  {
    forall i, j :: 0 <= i < j < |q| ==> Before(procs, stamp, q[i], q[j])
  }

  ghost predicate Ordered(s: State, h: History) {
    && Wf(s) && |h.stamp| == SLOTS
    && InOrder(s.procs, h.stamp, s.sleepers)
    && (forall p :: p in s.sleepers ==> p < SLOTS && h.stamp[p] < h.calls)
  }

  // ---------------------------------------------------------------- falling asleep

  /** Going before the first sleeper that wakes later is going after all that wake no later. */
  lemma InsertInOrder(procs: seq<Proc>, stamp: seq<nat>, q: seq<nat>, p: nat)
    requires |procs| == |stamp| == SLOTS && InOrder(procs, stamp, q) && p < SLOTS
    requires forall x :: x in q ==> x < SLOTS && stamp[x] < stamp[p]
    ensures InOrder(procs, stamp, InsertAt(q, LaterFrom(procs, q, procs[p].wake, 0), p))
  {
    var k := LaterFrom(procs, q, procs[p].wake, 0);
    var r := InsertAt(q, k, p);
    assert forall i {:trigger r[i]} :: 0 <= i < |r| ==> r[i] == if i < k then q[i] else if i == k then p else q[i - 1];
    forall i, j | 0 <= i < j < |r| ensures Before(procs, stamp, r[i], r[j]) {
      if j == k {
        assert q[i] in q;
      } else if i == k {
        assert q[j - 1] in q;
        if j - 1 > k { assert Before(procs, stamp, q[k], q[j - 1]); }
      } else {
        assert Before(procs, stamp, q[if i < k then i else i - 1], q[if j < k then j else j - 1]);
      }
    }
  }

  lemma SameOrder(procs: seq<Proc>, stamp: seq<nat>, procs1: seq<Proc>, stamp1: seq<nat>, q: seq<nat>)
    requires |procs| == |stamp| == |procs1| == |stamp1| == SLOTS && InOrder(procs, stamp, q)
    requires forall p :: p in q ==> p < SLOTS && procs1[p].wake == procs[p].wake && stamp1[p] == stamp[p]
    ensures InOrder(procs1, stamp1, q)
  {
    forall i, j | 0 <= i < j < |q| ensures Before(procs1, stamp1, q[i], q[j]) {
      assert q[i] in q && q[j] in q && Before(procs, stamp, q[i], q[j]);
    }
  }

  // ---------------------------------------------------------------- what leaves wake times alone

  ghost predicate SameWakes(s: State, r: State)
    requires Wf(s) && Wf(r)
  {
    forall p :: 0 <= p < SLOTS ==> r.procs[p].wake == s.procs[p].wake
  }

  lemma ScheduleSameWakes(s: State)
    requires Wf(s) && QueuesInRange(s)
    ensures SameWakes(s, Schedule(s))
  {
    var next := FindNext(s);
    if next != NONE && next != s.current {
      assert next == s.idle || next in s.ready[FirstLevel(s.ready, 0)];
      assert SameWakes(s, Requeue(s));
      assert SameWakes(Requeue(s), Dispatch(Requeue(s), next));
    }
  }

  lemma {:induction false} WakeSameWakes(s: State)
    requires Wf(s)
    ensures SameWakes(s, Wake(s))
    decreases |s.sleepers|
  {
    if s.sleepers != [] && s.sleepers[0] < SLOTS && WakeTime(s.procs, s.sleepers[0]) <= s.tick {
      WakeSameWakes(Add(s.(sleepers := s.sleepers[1..]), s.sleepers[0]));
    }
  }

  /** An operation that leaves wake times alone and takes a prefix off the queue keeps the order. */
  lemma SuffixOrdered(s: State, r: State, h: History, k: nat)
    requires Ordered(s, h) && Wf(r) && SameWakes(s, r) && k <= |s.sleepers| && r.sleepers == s.sleepers[k..]
    ensures Ordered(r, h)
  {
    var q := s.sleepers[k..];
    forall i, j | 0 <= i < j < |q| ensures Before(s.procs, h.stamp, q[i], q[j]) {
      assert Before(s.procs, h.stamp, s.sleepers[k + i], s.sleepers[k + j]);
    }
    forall p | p in q ensures p in s.sleepers {}
    SameOrder(s.procs, h.stamp, r.procs, h.stamp, q);
  }

  // ---------------------------------------------------------------- every operation

  lemma WokenOrdered(s: State, h: History)
    requires Placed(s) && Ordered(s, h)
    ensures Ordered(Woken(s), h)
  {
    WokenParts(s, 0);
    WakeSameWakes(s.(tick := (s.tick + 1) % WORD));
    SuffixOrdered(s, Woken(s), h, |DueOf(s)|);
  }

  lemma TickOrdered(s: State, h: History)
    requires Placed(s) && Ordered(s, h)
    ensures Ordered(Tick(s), h)
  {
    WokenOrdered(s, h);
    if s.current != NONE {
      TickCharges(s);
      ChargedOrdered(Woken(s), h);
    } else {
      WokenPlaced(s);
    }
  }

  lemma ChargedOrdered(w: State, h: History)
    requires Ordered(w, h) && w.current != NONE && QueuesInRange(Charged(w))
    ensures Ordered(Charged(w), h) && Ordered(Schedule(Charged(w)), h)
  {
    var c := Charged(w);
    SuffixOrdered(w, c, h, 0);
    ScheduleSameWakes(c);
    SuffixOrdered(c, Schedule(c), h, 0);
  }

  lemma YieldOrdered(s: State, h: History)
    requires Wf(s) && Ordered(s, h)
    ensures Ordered(Yield(s), h)
  {
    var t := if s.current == NONE then s else SetProc(s, s.current, s.procs[s.current].(slice := 0));
    SuffixOrdered(s, t, h, 0);
    if QueuesInRange(t) {
      ScheduleSameWakes(t);
      SuffixOrdered(t, Schedule(t), h, 0);
    }
  }

  lemma SleepOrdered(s: State, h: History, ticks: nat)
    requires Placed(s) && Ordered(s, h) && s.current != NONE
    ensures Ordered(Sleep(s, ticks), NextHistory(s, h, OpSleep(ticks)))
  {
    var c, g, t, u := s.current, NextHistory(s, h, OpSleep(ticks)), Leave(s, SleepProc(s, ticks)), FallAsleep(s, ticks);
    assert c !in s.sleepers;
    SameOrder(s.procs, h.stamp, t.procs, g.stamp, s.sleepers);
    InsertInOrder(t.procs, g.stamp, t.sleepers, c);
    InsertMembers(t.sleepers, LaterFrom(t.procs, t.sleepers, t.procs[c].wake, 0), c);
    assert Ordered(u, g);
    if QueuesInRange(u) {
      ScheduleSameWakes(u);
      SuffixOrdered(u, Schedule(u), g, 0);
    }
  }

  lemma {:induction false} WithoutInOrder(procs: seq<Proc>, stamp: seq<nat>, q: seq<nat>, p: nat)
    requires |procs| == |stamp| == SLOTS && InOrder(procs, stamp, q) && NoDup(q)
    ensures InOrder(procs, stamp, Without(q, p))
  {
    if q != [] {
      var rest := q[1..];
      forall i, j | 0 <= i < j < |rest| ensures Before(procs, stamp, rest[i], rest[j]) {
        assert Before(procs, stamp, q[i + 1], q[j + 1]);
      }
      if q[0] != p {
        WithoutInOrder(procs, stamp, rest, p);
        var r := [q[0]] + Without(rest, p);
        forall i, j | 0 <= i < j < |r| ensures Before(procs, stamp, r[i], r[j]) {
          if i == 0 {
            WithoutMember(rest, p, r[j]);
            var o :| 0 <= o < |rest| && rest[o] == r[j];
            assert Before(procs, stamp, q[0], q[o + 1]);
          } else {
            assert Before(procs, stamp, Without(rest, p)[i - 1], Without(rest, p)[j - 1]);
          }
        }
      }
    }
  }

  lemma BlockOrdered(s: State, h: History, p: nat)
    requires Placed(s) && Ordered(s, h) && Legal(s, OpBlock(p))
    ensures Ordered(Block(s, p), h)
  {
    if p in s.sleepers && |s.sleepers| > 1 {
      WithoutInOrder(s.procs, h.stamp, s.sleepers, p);
      WithoutSorted(s.procs, s.sleepers, p);
      assert SetProc(s, p, s.procs[p].(status := Blocked)) == s;
    } else {
      BlockOneOrdered(s, h, p);
    }
  }

  lemma BlockOneOrdered(s: State, h: History, p: nat)
    requires Wf(s) && Ordered(s, h) && p < SLOTS && (p !in s.sleepers || |s.sleepers| == 1)
    ensures Ordered(Block(s, p), h)
  {
    var t := Remove(SetProc(s, p, s.procs[p].(status := Blocked)), p);
    SuffixOrdered(s, t, h, 0);
    if p == s.current && QueuesInRange(t) {
      ScheduleSameWakes(t);
      SuffixOrdered(t, Schedule(t), h, 0);
    }
  }

  lemma StepOrdered(s: State, h: History, op: Op)
    requires Placed(s) && Legal(s, op) && Ordered(s, h)
    ensures Ordered(Step(s, op), NextHistory(s, h, op))
  {
    match op
    case OpTick => TickOrdered(s, h);
    case OpYield => YieldOrdered(s, h);
    case OpSleep(ticks) => if s.current != NONE { SleepOrdered(s, h, ticks); }
    case OpBlock(p) => BlockOrdered(s, h, p);
    case OpUnblock(p) => SuffixOrdered(s, Unblock(s, p), h, 0);
    case OpSpawn(p, priority) =>
      var r := Spawn(s, p, priority);
      assert p !in s.sleepers;
      SameOrder(s.procs, h.stamp, r.procs, h.stamp, s.sleepers);
  }

  ghost function RunHistory(s: State, h: History, ops: seq<Op>): History
    requires LegalRun(s, ops) && |h.stamp| == SLOTS
    decreases |ops|
  {
    if ops == [] then h else RunHistory(Step(s, ops[0]), NextHistory(s, h, ops[0]), ops[1..])
  }

  /** Over every legal run the sleep queue is sorted by wake time, equal times in order of arrival. */
  lemma {:induction false} RunOrdered(s: State, h: History, ops: seq<Op>)
    requires LegalRun(s, ops) && Placed(s) && OnlyIdleLowest(s) && Ordered(s, h)
    ensures Ordered(Run(s, ops), RunHistory(s, h, ops))
    decreases |ops|
  {
    if ops != [] {
      StepOrdered(s, h, ops[0]);
      StepKeeps(s, ops[0]);
      RunOrdered(Step(s, ops[0]), NextHistory(s, h, ops[0]), ops[1..]);
    }
  }

  // ---------------------------------------------------------------- waking up

  lemma {:induction false} SelectInOrder(procs: seq<Proc>, stamp: seq<nat>, l: nat, q: seq<nat>)
    requires |procs| == |stamp| == SLOTS && InOrder(procs, stamp, q)
    ensures InOrder(procs, stamp, Select(procs, l, q))
  {
    if q != [] {
      var rest, sel := Select(procs, l, q[1..]), Select(procs, l, q);
      assert InOrder(procs, stamp, q[1..]) by {
        forall i, j | 0 <= i < j < |q[1..]| ensures Before(procs, stamp, q[1..][i], q[1..][j]) {
          assert Before(procs, stamp, q[i + 1], q[j + 1]);
        }
      }
      SelectInOrder(procs, stamp, l, q[1..]);
      forall j | 0 <= j < |rest| ensures Before(procs, stamp, q[0], rest[j]) {
        SelectMember(procs, l, q[1..], rest[j]);
        var i :| 0 <= i < |q[1..]| && q[1..][i] == rest[j];
        assert Before(procs, stamp, q[0], q[i + 1]);
      }
      if |sel| > |rest| {
        forall i, j | 0 <= i < j < |sel| ensures Before(procs, stamp, sel[i], sel[j]) {
          if i > 0 { assert Before(procs, stamp, rest[i - 1], rest[j - 1]); }
        }
      }
    }
  }

  /** A tick appends to queue l exactly the due sleepers of that level, in order of wake time and
      arrival, and leaves the rest asleep. */
  lemma WakesInOrder(s: State, h: History, l: nat)
    requires Placed(s) && Ordered(s, h) && l < LEVELS
    ensures var add := Select(s.procs, l, DueOf(s));
            && Woken(s).ready[l] == s.ready[l] + add && InOrder(s.procs, h.stamp, add)
            && (forall p: nat :: p in add <==> p < SLOTS && Due(s, p) && LevelOf(s, p) == l)
            && (forall p: nat :: p in Woken(s).sleepers <==> p in s.sleepers && !Due(s, p))
  {
    WokenParts(s, l);
    var due := DueOf(s);
    forall i, j | 0 <= i < j < |due| ensures Before(s.procs, h.stamp, due[i], due[j]) {
      assert Before(s.procs, h.stamp, s.sleepers[i], s.sleepers[j]);
    }
    SelectInOrder(s.procs, h.stamp, l, due);
    forall p: nat ensures p in Select(s.procs, l, due) <==> p < SLOTS && Due(s, p) && LevelOf(s, p) == l {
      SelectMember(s.procs, l, due, p);
      DueMember(s, p);
    }
    forall p: nat ensures p in Woken(s).sleepers <==> p in s.sleepers && !Due(s, p) { StillAsleep(s, p); }
  }

  lemma StillAsleep(s: State, p: nat)
    requires Wf(s) && Sorted(s.procs, s.sleepers)
    ensures p in s.sleepers[|DueOf(s)|..] <==> p in s.sleepers && !Due(s, p)
  {
    LaterMember(s.procs, s.sleepers, (s.tick + 1) % WORD, p);
  }

  lemma SuffixMember(q: seq<nat>, k: nat, p: nat)
    requires k <= |q|
    ensures p in q[k..] <==> exists i :: k <= i < |q| && q[i] == p
  {
    if i :| k <= i < |q| && q[i] == p { assert q[k..][i - k] == p; }
  }

  lemma LaterMember(procs: seq<Proc>, q: seq<nat>, w: nat, p: nat)
    requires Sorted(procs, q)
    ensures p in q[LaterFrom(procs, q, w, 0)..] <==> p in q && WakeTime(procs, p) > w
  {
    var k := LaterFrom(procs, q, w, 0);
    SuffixMember(q, k, p);
    forall i | 0 <= i < |q| ensures i < k <==> WakeTime(procs, q[i]) <= w { DuePrefix(procs, q, w, i); }
  }
}
