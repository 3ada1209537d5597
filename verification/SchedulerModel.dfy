/** The priority scheduler as a state machine over sequences: 32 ready queues, a sleep queue sorted
    by wake time, and one running process. Processes are slots of the process table. */
module SchedulerModel {
  import opened Kernel
  import opened Links

  const LEVELS := 32
  const LOWEST := 31
  const SLICE_BASE := 5
  /** The NULL process pointer. */
  const NONE := NIL

  datatype Status = Unused | Ready | Running | Blocked | Zombie

  datatype Proc = Proc(status: Status, priority: int, slice: nat, total: nat, wake: nat)

  datatype State = State(procs: seq<Proc>, ready: seq<seq<nat>>, sleepers: seq<nat>,
                         current: int, idle: int, tick: nat)

  /** The priority clamped to a queue index. */
  function Level(priority: int): nat {
    if priority < 0 then 0 else if priority >= LEVELS then LEVELS - 1 else priority
  }

  function SliceOf(level: nat): nat
    requires level < LEVELS
  {
    SLICE_BASE + (LEVELS - level)
  }

  predicate Wf(s: State) {
    && |s.procs| == SLOTS && |s.ready| == LEVELS
    && NONE <= s.current < SLOTS && NONE <= s.idle < SLOTS
  }

  function LevelOf(s: State, p: nat): nat
    requires p < |s.procs|
  {
    Level(s.procs[p].priority)
  }

  // ---------------------------------------------------------------- queues

  function Without(q: seq<nat>, p: nat): seq<nat> {
    if q == [] then [] else if q[0] == p then q[1..] else [q[0]] + Without(q[1..], p)
  }

  lemma {:induction false} WithoutMember(q: seq<nat>, p: nat, x: nat)
    requires NoDup(q)
    ensures x in Without(q, p) <==> x in q && x != p
  {
    if q != [] && q[0] != p { WithoutMember(q[1..], p, x); }
  }

  lemma {:induction false} WithoutNoDup(q: seq<nat>, p: nat)
    requires NoDup(q)
    ensures NoDup(Without(q, p))
  {
    if q != [] && q[0] != p {
      WithoutNoDup(q[1..], p);
      WithoutMember(q[1..], p, q[0]);
    }
  }

  // ---------------------------------------------------------------- operations

  function SetProc(s: State, p: nat, r: Proc): State
    requires Wf(s) && p < SLOTS
  {
    s.(procs := s.procs[p := r])
  }

  function SetReady(s: State, l: nat, q: seq<nat>): State
    requires Wf(s) && l < LEVELS
  {
    s.(ready := s.ready[l := q])
  }

  /** scheduler_add */
  function Add(s: State, p: nat): (r: State)
    requires Wf(s) && p < SLOTS
    ensures Wf(r) && r.current == s.current && r.idle == s.idle && r.tick == s.tick && r.sleepers == s.sleepers
  {
    if s.procs[p].status == Unused then s else
    var l := LevelOf(s, p);
    SetProc(SetReady(s, l, s.ready[l] + [p]), p, s.procs[p].(status := Ready, slice := SliceOf(l)))
  }

  /** scheduler_remove: a process that is in no queue takes the whole queue of its level with it. */
  function Remove(s: State, p: nat): (r: State)
    requires Wf(s) && p < SLOTS
    ensures Wf(r) && r.procs == s.procs && r.current == s.current && r.idle == s.idle
            && r.tick == s.tick && r.sleepers == s.sleepers
  {
    var l := LevelOf(s, p);
    SetReady(s, l, if p in s.ready[l] then Without(s.ready[l], p) else [])
  }

  /** scheduler_remove on any process. The sleep queue shares the link fields: a later sleeper leaves
      it, the first of several hands the rest of it to the ready queue of its level, and the only one
      empties that queue. */
  function Detach(s: State, p: nat): (r: State)
    requires Wf(s) && p < SLOTS
    ensures Wf(r) && r.procs == s.procs && r.current == s.current && r.idle == s.idle && r.tick == s.tick
  {
    if p !in s.sleepers || |s.sleepers| == 1 then Remove(s, p)
    else if p != s.sleepers[0] then s.(sleepers := Without(s.sleepers, p))
    else SetReady(s, LevelOf(s, p), s.sleepers[1..]).(sleepers := [p])
  }

  /** Index of the first non-empty queue from l on, or LEVELS: the linear scan that the bitmap
      replaces. */
  function FirstLevel(ready: seq<seq<nat>>, l: nat): (r: nat)
    requires l <= |ready| == LEVELS
    ensures l <= r <= LEVELS && (r < LEVELS ==> ready[r] != [])
    ensures forall k :: l <= k < r ==> ready[k] == []
    decreases LEVELS - l
  {
    if l == LEVELS || ready[l] != [] then l else FirstLevel(ready, l + 1)
  }

  function FindNext(s: State): int
    requires Wf(s)
  {
    var l := FirstLevel(s.ready, 0);
    if l == LEVELS then s.idle else s.ready[l][0]
  }

  ghost predicate QueuesInRange(s: State)
    requires Wf(s)
  {
    forall l, p :: 0 <= l < LEVELS && p in s.ready[l] ==> p < SLOTS
  }

  /** The current process goes back to its queue if still runnable. */
  function Requeue(s: State): (r: State)
    requires Wf(s)
    ensures Wf(r) && r.idle == s.idle && r.tick == s.tick && r.sleepers == s.sleepers
  {
    var c := s.current;
    if c != NONE && s.procs[c].status == Running
    then Add(SetProc(s, c, s.procs[c].(status := Ready)), c) else s
  }

  /** The chosen process leaves its queue and becomes current. */
  function Dispatch(s: State, next: nat): State
    requires Wf(s) && next < SLOTS
  {
    var r := Remove(s, next);
    SetProc(r, next, r.procs[next].(status := Running)).(current := next)
  }

  /** schedule */
  ghost function Schedule(s: State): (r: State)
    requires Wf(s) && QueuesInRange(s)
    ensures Wf(r) && r.idle == s.idle && r.tick == s.tick && r.sleepers == s.sleepers
  {
    var next := FindNext(s);
    if next == NONE || next == s.current then s else
    assert next == s.idle || next in s.ready[FirstLevel(s.ready, 0)];
    Dispatch(Requeue(s), next)
  }

  function WakeTime(procs: seq<Proc>, p: nat): nat { if p < |procs| then procs[p].wake else 0 }

  /** The wake loop of scheduler_tick. */
  function Wake(s: State): (r: State)
    requires Wf(s)
    ensures Wf(r) && r.current == s.current && r.idle == s.idle && r.tick == s.tick
    decreases |s.sleepers|
  {
    if s.sleepers == [] || s.sleepers[0] >= SLOTS || WakeTime(s.procs, s.sleepers[0]) > s.tick then s
    else Wake(Add(s.(sleepers := s.sleepers[1..]), s.sleepers[0]))
  }

  /** First index from i on whose wake time is later than w. */
  function LaterFrom(procs: seq<Proc>, q: seq<nat>, w: nat, i: nat): (r: nat)
    requires i <= |q|
    ensures i <= r <= |q| && (r < |q| ==> WakeTime(procs, q[r]) > w)
    ensures forall j :: i <= j < r ==> WakeTime(procs, q[j]) <= w
    decreases |q| - i
  {
    if i == |q| || WakeTime(procs, q[i]) > w then i else LaterFrom(procs, q, w, i + 1)
  }

  function InsertAt(q: seq<nat>, i: nat, p: nat): seq<nat>
    requires i <= |q|
  {
    q[..i] + [p] + q[i..]
  }

  // ---------------------------------------------------------------- the invariant

  ghost predicate Sorted(procs: seq<Proc>, q: seq<nat>) {
    forall i, j :: 0 <= i < j < |q| ==> WakeTime(procs, q[i]) <= WakeTime(procs, q[j])
  }

  /** Every queued process is ready, belongs to that level and has a full slice. */
  ghost predicate Queued(s: State)
    requires Wf(s)
  {
    && (forall l, p :: 0 <= l < LEVELS && p in s.ready[l] ==> Fits(s.procs, l, p))
    && (forall l :: 0 <= l < LEVELS ==> NoDup(s.ready[l]))
  }

  ghost predicate Fits(procs: seq<Proc>, l: nat, p: nat)
    requires l < LEVELS
  {
    p < |procs| && procs[p].status == Ready && Level(procs[p].priority) == l && procs[p].slice == SliceOf(l)
  }

  ghost predicate Asleep(s: State)
    requires Wf(s)
  {
    && (forall p :: p in s.sleepers ==> p < SLOTS && s.procs[p].status == Blocked)
    && NoDup(s.sleepers) && Sorted(s.procs, s.sleepers)
  }

  ghost predicate InPlace(s: State, p: nat)
    requires Wf(s) && p < SLOTS
  {
    && (s.procs[p].status == Running ==> p == s.current)
    && (s.procs[p].status == Ready ==> p in s.ready[LevelOf(s, p)] || p == s.idle)
  }

  /** Nobody is lost: a running process is the current one, and a ready process is in the queue of
      its level, except for the idle process before its first dispatch. */
  ghost predicate NoneLost(s: State)
    requires Wf(s)
  {
    && (forall p :: 0 <= p < SLOTS ==> InPlace(s, p))
    && (s.current != NONE ==> s.procs[s.current].status == Running)
  }

  ghost predicate IdleOk(s: State)
    requires Wf(s)
  {
    && s.idle != NONE && LevelOf(s, s.idle) == LOWEST
    && (s.procs[s.idle].status == Ready || s.procs[s.idle].status == Running)
  }

  ghost predicate Placed(s: State) {
    Wf(s) && Queued(s) && Asleep(s) && NoneLost(s) && IdleOk(s)
  }

  // ---------------------------------------------------------------- adding and removing

  /** p can enter a queue: it is in none and does not sleep. */
  ghost predicate Loose(s: State, p: nat)
    requires Wf(s) && p < SLOTS
  {
    p !in s.ready[LevelOf(s, p)] && p !in s.sleepers
  }

  /** A queued process is ready and in the one queue of its level. */
  lemma OneQueue(s: State, p: nat)
    requires Wf(s) && Queued(s) && p < SLOTS
    ensures forall k :: 0 <= k < LEVELS && p in s.ready[k] ==> k == LevelOf(s, p) && s.procs[p].status == Ready
  {
    forall k | 0 <= k < LEVELS && p in s.ready[k] ensures k == LevelOf(s, p) && s.procs[p].status == Ready {
      assert Fits(s.procs, k, p);
    }
  }

  lemma AppendNoDup(q: seq<nat>, p: nat)
    requires NoDup(q) && p !in q
    ensures NoDup(q + [p])
  {
  }

  lemma SortedSame(procs: seq<Proc>, procs1: seq<Proc>, q: seq<nat>)
    requires Sorted(procs, q) && |procs| == |procs1|
    requires forall p :: p in q ==> p < |procs| && procs1[p].wake == procs[p].wake
    ensures Sorted(procs1, q)
  {
    assert forall i :: 0 <= i < |q| ==> q[i] in q;
  }

  lemma AddKeeps(s: State, p: nat)
    requires Wf(s) && Queued(s) && Asleep(s) && p < SLOTS && Loose(s, p) && s.procs[p].status != Unused
    ensures var r := Add(s, p);
            && Queued(r) && Asleep(r) && InPlace(r, p)
            && (forall x :: 0 <= x < SLOTS && x != p && InPlace(s, x) ==> InPlace(r, x))
  {
    var r, l := Add(s, p), LevelOf(s, p);
    AppendNoDup(s.ready[l], p);
    SortedSame(s.procs, r.procs, s.sleepers);
    forall k, x | 0 <= k < LEVELS && x in r.ready[k] ensures Fits(r.procs, k, x) {
      assert x != p ==> x in s.ready[k] && Fits(s.procs, k, x);
    }
    forall k | 0 <= k < LEVELS ensures NoDup(r.ready[k]) { assert NoDup(s.ready[k]); }
  }

  lemma RemoveKeeps(s: State, p: nat)
    requires Wf(s) && Queued(s) && p < SLOTS
    ensures var r := Remove(s, p);
            && Queued(r) && p !in r.ready[LevelOf(s, p)]
            && forall l, x :: 0 <= l < LEVELS ==>
                 (x in r.ready[l] <==> x in s.ready[l] && x != p && (l != LevelOf(s, p) || p in s.ready[l]))
  {
    var r, l := Remove(s, p), LevelOf(s, p);
    var q := s.ready[l];
    WithoutNoDup(q, p);
    forall x ensures x in Without(q, p) <==> x in q && x != p { WithoutMember(q, p, x); }
    forall k | 0 <= k < LEVELS ensures NoDup(r.ready[k]) { assert NoDup(s.ready[k]); }
    forall k, x | 0 <= k < LEVELS && x in r.ready[k] ensures Fits(r.procs, k, x) {
      assert x in s.ready[k] && Fits(s.procs, k, x);
    }
  }

  // ---------------------------------------------------------------- dispatching

  /** Queues, sleepers and idle process in order, and nobody lost, whatever the current process. */
  ghost predicate Stable(s: State) {
    && Wf(s) && Queued(s) && Asleep(s) && IdleOk(s)
    && (forall p :: 0 <= p < SLOTS ==> InPlace(s, p))
    && (s.current != NONE ==> s.procs[s.current].status == Running || s.procs[s.current].status == Blocked)
  }

  lemma RequeueKeeps(s: State)
    requires Stable(s)
    ensures var r := Requeue(s);
            && Queued(r) && Asleep(r) && IdleOk(r)
            && (forall p :: 0 <= p < SLOTS ==> InPlace(r, p) && r.procs[p].status != Running)
            && r.idle == s.idle
            && (forall l, x :: 0 <= l < LEVELS && x in s.ready[l] ==> x in r.ready[l])
            && (forall l :: 0 <= l < LEVELS ==>
                  r.ready[l] == s.ready[l] + if s.current != NONE && s.procs[s.current].status == Running
                                                && l == LevelOf(s, s.current) then [s.current as nat] else [])
  {
    var c := s.current;
    if c != NONE && s.procs[c].status == Running {
      var a := SetProc(s, c, s.procs[c].(status := Ready));
      SortedSame(s.procs, a.procs, s.sleepers);
      forall l, x | 0 <= l < LEVELS && x in a.ready[l] ensures Fits(a.procs, l, x) { assert Fits(s.procs, l, x); }
      forall x | 0 <= x < SLOTS && x != c ensures InPlace(a, x) { assert InPlace(s, x); }
      AddKeeps(a, c);
    }
    forall p | 0 <= p < SLOTS ensures Requeue(s).procs[p].status != Running { assert InPlace(s, p); }
  }

  /** Dispatching loses nobody exactly when the chosen process is in its queue or that queue is
      empty. */
  lemma DispatchExact(s: State, next: nat)
    requires Wf(s) && Queued(s) && Asleep(s) && IdleOk(s) && next < SLOTS && s.procs[next].status == Ready
    requires forall p :: 0 <= p < SLOTS ==> InPlace(s, p) && s.procs[p].status != Running
    ensures var r := Dispatch(s, next);
            && Wf(r) && Queued(r) && Asleep(r) && IdleOk(r)
            && (NoneLost(r) <==> next in s.ready[LevelOf(s, next)] || s.ready[LevelOf(s, next)] == [])
  {
    RemoveKeeps(s, next);
    var r, l := Dispatch(s, next), LevelOf(s, next);
    SortedSame(s.procs, r.procs, s.sleepers);
    forall k, x | 0 <= k < LEVELS && x in r.ready[k] ensures Fits(r.procs, k, x) { assert Fits(s.procs, k, x); }
    if next in s.ready[l] || s.ready[l] == [] {
      forall p | 0 <= p < SLOTS ensures InPlace(r, p) { assert InPlace(s, p); }
    } else {
      var x := s.ready[l][0];
      assert x in s.ready[l] && Fits(s.procs, l, x);
      assert InPlace(s, next);
      assert !InPlace(r, x);
    }
  }

  /** The one way schedule loses a process: it picks the idle process off its queue while the
      process it puts back belongs to level 31. */
  ghost predicate LosesCurrent(s: State)
    requires Wf(s)
  {
    && FirstLevel(s.ready, 0) == LEVELS
    && s.current != NONE && s.current != s.idle
    && s.procs[s.current].status == Running && LevelOf(s, s.current) == LOWEST
  }

  lemma ScheduleExact(s: State)
    requires Stable(s)
    ensures QueuesInRange(s)
    ensures var r := Schedule(s);
            && Wf(r) && Queued(r) && Asleep(r) && IdleOk(r) && r.current != NONE
            && (NoneLost(r) <==> !LosesCurrent(s))
  {
    forall l, p | 0 <= l < LEVELS && p in s.ready[l] ensures p < SLOTS { assert Fits(s.procs, l, p); }
    var next, l := FindNext(s), FirstLevel(s.ready, 0);
    if l < LEVELS { assert s.ready[l][0] in s.ready[l] && Fits(s.procs, l, next); }
    if next != s.current {
      RequeueKeeps(s);
      assert InPlace(s, next);
      DispatchExact(Requeue(s), next);
    }
  }

  // ---------------------------------------------------------------- waking

  ghost predicate AllInPlace(s: State)
    requires Wf(s)
  {
    forall p :: 0 <= p < SLOTS ==> InPlace(s, p)
  }

  function AfterFirst(s: State): State
    requires Wf(s) && s.sleepers != []
  {
    if s.sleepers[0] < SLOTS then Add(s.(sleepers := s.sleepers[1..]), s.sleepers[0]) else s
  }

  lemma WakeNext(s: State)
    requires Wf(s) && s.sleepers != [] && s.sleepers[0] < SLOTS && s.procs[s.sleepers[0]].wake <= s.tick
    ensures Wake(s) == Wake(AfterFirst(s))
  {
  }

  /** Lists and idle process in order and everybody in place. */
  ghost predicate Calm(s: State) {
    Wf(s) && Queued(s) && Asleep(s) && IdleOk(s) && AllInPlace(s)
  }

  lemma WakeOne(s: State)
    requires Calm(s) && s.sleepers != []
    ensures s.sleepers[0] < SLOTS && s.procs[s.sleepers[0]].status == Blocked
    ensures Calm(AfterFirst(s))
    ensures AfterFirst(s) == Add(s.(sleepers := s.sleepers[1..]), s.sleepers[0])
  {
    var p := s.sleepers[0];
    assert p in s.sleepers;
    var t := s.(sleepers := s.sleepers[1..]);
    assert forall x :: x in t.sleepers ==> x in s.sleepers;
    assert p !in t.sleepers;
    OneQueue(s, p);
    forall x | 0 <= x < SLOTS ensures InPlace(t, x) { assert InPlace(s, x); }
    AddKeeps(t, p);
  }

  lemma {:induction false} WakeKeeps(s: State)
    requires Calm(s)
    ensures Calm(Wake(s))
    ensures forall p :: 0 <= p < SLOTS && p !in s.sleepers ==> Wake(s).procs[p] == s.procs[p]
    decreases |s.sleepers|
  {
    if s.sleepers != [] && WakeTime(s.procs, s.sleepers[0]) <= s.tick {
      WakeOne(s);
      WakeKeeps(AfterFirst(s));
    }
  }

  /** The members of q that belong to level l, in order. */
  function Select(procs: seq<Proc>, l: nat, q: seq<nat>): seq<nat> {
    if q == [] then []
    else (if q[0] < |procs| && Level(procs[q[0]].priority) == l then [q[0]] else []) + Select(procs, l, q[1..])
  }

  lemma {:induction false} SelectSame(procs: seq<Proc>, procs1: seq<Proc>, l: nat, q: seq<nat>)
    requires |procs| == |procs1| && forall p :: 0 <= p < |procs| ==> procs1[p].priority == procs[p].priority
    ensures Select(procs1, l, q) == Select(procs, l, q)
  {
    if q != [] { SelectSame(procs, procs1, l, q[1..]); }
  }

  lemma {:induction false} LaterSame(procs: seq<Proc>, procs1: seq<Proc>, q: seq<nat>, w: nat, i: nat)
    requires i <= |q| && |procs| == |procs1| && forall p :: 0 <= p < |procs| ==> procs1[p].wake == procs[p].wake
    ensures LaterFrom(procs1, q, w, i) == LaterFrom(procs, q, w, i)
    decreases |q| - i
  {
    if i < |q| { LaterSame(procs, procs1, q, w, i + 1); }
  }

  lemma {:induction false} LaterTail(procs: seq<Proc>, q: seq<nat>, w: nat, i: nat)
    requires q != [] && i < |q|
    ensures LaterFrom(procs, q, w, i + 1) == 1 + LaterFrom(procs, q[1..], w, i)
    decreases |q| - i
  {
    if i < |q| - 1 { LaterTail(procs, q, w, i + 1); }
  }

  /** In a sorted sleep queue the processes whose time has come form a prefix. */
  lemma DuePrefix(procs: seq<Proc>, q: seq<nat>, w: nat, i: nat)
    requires Sorted(procs, q) && i < |q|
    ensures i < LaterFrom(procs, q, w, 0) <==> WakeTime(procs, q[i]) <= w
  {
  }

  /** A tick wakes exactly the sleepers whose time has come: the sleep queue is cut where times
      become later, and each ready queue gains its share of the cut-off part in the same order. */
  lemma {:induction false} WakeExact(s: State, l: nat)
    requires Wf(s) && Asleep(s) && l < LEVELS
    ensures var k := LaterFrom(s.procs, s.sleepers, s.tick, 0);
            && Wake(s).sleepers == s.sleepers[k..]
            && Wake(s).ready[l] == s.ready[l] + Select(s.procs, l, s.sleepers[..k])
    decreases |s.sleepers|
  {
    var k := LaterFrom(s.procs, s.sleepers, s.tick, 0);
    if k > 0 {
      FirstAsleep(s);
      WakeExact(AfterFirst(s), l);
      WakeStep(s, l, k);
      assert Wake(s) == Wake(AfterFirst(s));
    } else {
      WakeNothing(s);
    }
  }

  lemma FirstAsleep(s: State)
    requires Wf(s) && Asleep(s) && s.sleepers != []
    ensures s.sleepers[0] < SLOTS && s.procs[s.sleepers[0]].status == Blocked
    ensures Asleep(AfterFirst(s))
  {
    var p, t := s.sleepers[0], AfterFirst(s);
    assert p in s.sleepers;
    assert forall x :: x in s.sleepers[1..] ==> x in s.sleepers && x != p;
    SortedSame(s.procs, t.procs, s.sleepers[1..]);
  }

  lemma WakeNothing(s: State)
    requires Wf(s) && Asleep(s) && LaterFrom(s.procs, s.sleepers, s.tick, 0) == 0
    ensures Wake(s) == s && s.sleepers[0..] == s.sleepers && s.sleepers[..0] == []
  {
    if s.sleepers != [] { assert s.sleepers[0] in s.sleepers; }
  }

  lemma Regroup(a: seq<nat>, b: seq<nat>, c: seq<nat>)
    ensures a + (b + c) == (a + b) + c
  {
  }

  lemma {:induction false} SelectCons(procs: seq<Proc>, l: nat, q: seq<nat>, before: seq<nat>)
    requires q != [] && q[0] < |procs|
    ensures before + Select(procs, l, q)
            == (if Level(procs[q[0]].priority) == l then before + [q[0]] else before) + Select(procs, l, q[1..])
  {
    Regroup(before, [q[0]], Select(procs, l, q[1..]));
  }

  lemma WakeStep(s: State, l: nat, k: nat)
    requires Wf(s) && l < LEVELS && 0 < k == LaterFrom(s.procs, s.sleepers, s.tick, 0)
    requires s.sleepers[0] < SLOTS && s.procs[s.sleepers[0]].status != Unused
    ensures var t := AfterFirst(s);
            && k - 1 == LaterFrom(t.procs, t.sleepers, t.tick, 0)
            && s.sleepers[k..] == t.sleepers[k - 1..]
            && t.ready[l] + Select(t.procs, l, t.sleepers[..k - 1]) == s.ready[l] + Select(s.procs, l, s.sleepers[..k])
  {
    var t, due := AfterFirst(s), s.sleepers[..k];
    LaterTail(s.procs, s.sleepers, s.tick, 0);
    LaterSame(s.procs, t.procs, s.sleepers[1..], s.tick, 0);
    assert due[1..] == s.sleepers[1..][..k - 1] == t.sleepers[..k - 1];
    SelectSame(s.procs, t.procs, l, due[1..]);
    SelectCons(s.procs, l, due, s.ready[l]);
    assert t.ready[l] == if LevelOf(s, due[0]) == l then s.ready[l] + [due[0]] else s.ready[l];
    assert s.sleepers[1..][k - 1..] == s.sleepers[k..];
  }

  // ---------------------------------------------------------------- the remaining operations

  /** The state of scheduler_tick after waking, and after charging the current process. */
  function Woken(s: State): State
    requires Wf(s)
  {
    Wake(s.(tick := (s.tick + 1) % WORD))
  }

  function Charged(w: State): State
    requires Wf(w) && w.current != NONE
  {
    var p := w.procs[w.current];
    SetProc(w, w.current, p.(total := (p.total + 1) % WORD, slice := if p.slice > 0 then p.slice - 1 else 0))
  }

  /** scheduler_tick */
  ghost function Tick(s: State): State
    requires Wf(s)
  {
    Preempt(Woken(s))
  }

  /** The part of scheduler_tick about the current process. */
  ghost function Preempt(w: State): State
    requires Wf(w)
  {
    if w.current == NONE || w.procs[w.current].status != Running then w else
    var c := Charged(w);
    if c.procs[c.current].slice == 0 && QueuesInRange(c) then Schedule(c) else c
  }

  ghost function Yield(s: State): State
    requires Wf(s)
  {
    var t := if s.current == NONE then s else SetProc(s, s.current, s.procs[s.current].(slice := 0));
    if QueuesInRange(t) then Schedule(t) else t
  }

  /** The current process leaves the processor: scheduler_sleep and scheduler_block up to the call
      of schedule. */
  ghost function Leave(s: State, r: Proc): State
    requires Wf(s) && s.current != NONE
  {
    Remove(SetProc(s, s.current, r), s.current)
  }

  ghost function SleepProc(s: State, ticks: nat): Proc
    requires Wf(s) && s.current != NONE
  {
    s.procs[s.current].(wake := (s.tick + ticks) % WORD, status := Blocked)
  }

  ghost function FallAsleep(s: State, ticks: nat): State
    requires Wf(s) && s.current != NONE
  {
    Enqueue(Leave(s, SleepProc(s, ticks)))
  }

  /** The current process goes before the first sleeper that wakes later. */
  ghost function Enqueue(s: State): State
    requires Wf(s) && s.current != NONE
  {
    s.(sleepers := InsertAt(s.sleepers, LaterFrom(s.procs, s.sleepers, s.procs[s.current].wake, 0), s.current))
  }

  ghost function Sleep(s: State, ticks: nat): State
    requires Wf(s)
  {
    if s.current == NONE then s else
    var t := FallAsleep(s, ticks);
    if QueuesInRange(t) then Schedule(t) else t
  }

  ghost function Block(s: State, p: nat): State
    requires Wf(s) && p < SLOTS
  {
    var t := Detach(SetProc(s, p, s.procs[p].(status := Blocked)), p);
    if p == s.current && QueuesInRange(t) then Schedule(t) else t
  }

  function Unblock(s: State, p: nat): State
    requires Wf(s) && p < SLOTS
  {
    if s.procs[p].status != Blocked then s else Add(s, p)
  }

  /** process_create_kernel_thread followed by scheduler_add. */
  function Spawn(s: State, p: nat, priority: int): State
    requires Wf(s) && p < SLOTS
  {
    Add(SetProc(s, p, Proc(Ready, priority, 10, 0, 0)), p)
  }

  // ---------------------------------------------------------------- exactly when nobody is lost

  lemma PlacedIsStable(s: State)
    requires Placed(s)
    ensures Stable(s) && AllInPlace(s) && QueuesInRange(s)
  {
    ScheduleExact(s);
  }

  /** Nobody but the idle process waits at p's level. */
  ghost predicate Alone(s: State, p: nat)
    requires Wf(s) && p < SLOTS
  {
    forall q :: q in s.ready[LevelOf(s, p)] ==> q == s.idle
  }

  /** Leaving the processor wipes the queue of the process's own level. */
  lemma LeaveExact(s: State, r: Proc)
    requires Placed(s) && s.current != NONE && s.current != s.idle
    requires r.status == Blocked && r.priority == s.procs[s.current].priority
    ensures var t := Leave(s, r);
            && Wf(t) && Queued(t) && Asleep(t) && IdleOk(t) && s.current !in t.sleepers
            && (AllInPlace(t) <==> Alone(s, s.current))
            && (forall q :: q in s.ready[LevelOf(s, s.current)] && q != s.idle ==> q < SLOTS && Lost(t, q))
  {
    var c, l := s.current, LevelOf(s, s.current);
    var a := SetProc(s, c, r);
    OneQueue(s, c);
    forall k, x | 0 <= k < LEVELS && x in a.ready[k] ensures Fits(a.procs, k, x) { assert Fits(s.procs, k, x); }
    SortedSame(s.procs, a.procs, s.sleepers);
    RemoveKeeps(a, c);
    var t := Leave(s, r);
    forall q | q in s.ready[l] && q != s.idle ensures q < SLOTS && Lost(t, q) { assert Fits(s.procs, l, q); }
    if Alone(s, c) {
      forall p | 0 <= p < SLOTS ensures InPlace(t, p) { assert InPlace(s, p); }
    } else {
      var q :| q in s.ready[l] && q != s.idle;
      assert Lost(t, q) && !InPlace(t, q);
    }
  }

  /** A ready process that no queue holds. */
  ghost predicate Lost(s: State, q: nat)
    requires Wf(s) && q < SLOTS
  {
    s.procs[q].status == Ready && q != s.idle && q != s.current && q !in s.ready[LevelOf(s, q)]
  }

  lemma LostStaysLost(s: State, q: nat)
    requires Wf(s) && Queued(s) && QueuesInRange(s) && q < SLOTS && Lost(s, q)
    requires s.current != NONE ==> s.procs[s.current].status != Running
    ensures var r := Schedule(s); q < SLOTS && !InPlace(r, q)
  {
    var next, l := FindNext(s), FirstLevel(s.ready, 0);
    if next != NONE && next != s.current {
      if l < LEVELS { assert s.ready[l][0] in s.ready[l] && Fits(s.procs, l, next); }
      RemoveKeeps(s, next);
    }
  }

  lemma InsertMembers(q: seq<nat>, k: nat, p: nat)
    requires NoDup(q) && p !in q && k <= |q|
    ensures NoDup(InsertAt(q, k, p)) && forall x :: x in InsertAt(q, k, p) <==> x in q || x == p
  {
    var r := InsertAt(q, k, p);
    assert r[k] == p;
    assert forall i {:trigger r[i]} :: 0 <= i < |r| ==> r[i] == if i < k then q[i] else if i == k then p else q[i - 1];
    forall x | x in q ensures x in r {
      var i :| 0 <= i < |q| && q[i] == x;
      assert r[if i < k then i else i + 1] == x;
    }
  }

  lemma InsertSorted(procs: seq<Proc>, q: seq<nat>, p: nat)
    requires Sorted(procs, q)
    ensures Sorted(procs, InsertAt(q, LaterFrom(procs, q, WakeTime(procs, p), 0), p))
  {
    var k := LaterFrom(procs, q, WakeTime(procs, p), 0);
    var r := InsertAt(q, k, p);
    assert forall i {:trigger r[i]} :: 0 <= i < |r| ==> r[i] == if i < k then q[i] else if i == k then p else q[i - 1];
    forall i, j | 0 <= i < j < |r| ensures WakeTime(procs, r[i]) <= WakeTime(procs, r[j]) {
      if i != k && j != k {
        assert WakeTime(procs, q[if i < k then i else i - 1]) <= WakeTime(procs, q[if j < k then j else j - 1]);
      } else if i == k {
        assert WakeTime(procs, q[k]) <= WakeTime(procs, q[j - 1]);
      }
    }
  }

  /** Between leaving the processor and rescheduling the state is in order. */
  lemma SleepSettles(s: State, ticks: nat)
    requires Placed(s) && s.current != NONE && s.current != s.idle && Alone(s, s.current)
    ensures Stable(FallAsleep(s, ticks)) && !LosesCurrent(FallAsleep(s, ticks))
  {
    var r := SleepProc(s, ticks);
    LeaveExact(s, r);
    var t, u := Leave(s, r), FallAsleep(s, ticks);
    InsertSorted(t.procs, t.sleepers, s.current);
    InsertMembers(t.sleepers, LaterFrom(t.procs, t.sleepers, t.procs[s.current].wake, 0), s.current);
    forall p | 0 <= p < SLOTS ensures InPlace(u, p) { assert InPlace(t, p); }
  }

  lemma BlockSettles(s: State)
    requires Placed(s) && s.current != NONE && s.current != s.idle && Alone(s, s.current)
    ensures var t := Leave(s, s.procs[s.current].(status := Blocked)); Stable(t) && !LosesCurrent(t)
  {
    LeaveExact(s, s.procs[s.current].(status := Blocked));
  }

  /** scheduler_sleep loses nobody exactly when no other process waits at the sleeper's level. */
  lemma SleepExact(s: State, ticks: nat)
    requires Placed(s) && s.current != NONE && s.current != s.idle
    ensures Placed(Sleep(s, ticks)) <==> Alone(s, s.current)
  {
    var t, u := Leave(s, SleepProc(s, ticks)), FallAsleep(s, ticks);
    LeaveExact(s, SleepProc(s, ticks));
    InsertSorted(t.procs, t.sleepers, s.current);
    InsertMembers(t.sleepers, LaterFrom(t.procs, t.sleepers, t.procs[s.current].wake, 0), s.current);
    SettleExact(s, t, u);
  }

  /** scheduler_block on the running process, likewise. */
  lemma BlockSelfExact(s: State)
    requires Placed(s) && s.current != NONE && s.current != s.idle
    ensures Placed(Block(s, s.current)) <==> Alone(s, s.current)
  {
    var r := s.procs[s.current].(status := Blocked);
    LeaveExact(s, r);
    SettleExact(s, Leave(s, r), Leave(s, r));
  }

  /** Who can be blocked by another without loss: a queued process, a sleeper behind others, and a
      process alone at its level that is not the first of several sleepers. */
  ghost predicate Blockable(s: State, p: nat)
    requires Wf(s) && p < SLOTS
  {
    if p in s.sleepers && |s.sleepers| > 1 then p != s.sleepers[0] else p in s.ready[LevelOf(s, p)] || Alone(s, p)
  }

  /** scheduler_block on a process that does not run loses nobody exactly when it is blockable. */
  lemma BlockOtherExact(s: State, p: nat)
    requires Placed(s) && p < SLOTS && p != s.current && p != s.idle
    ensures Placed(Block(s, p)) <==> Blockable(s, p)
  {
    if p in s.sleepers && |s.sleepers| > 1 { BlockSleeperPlaced(s, p); } else { BlockWaiting(s, p); }
  }

  lemma BlockSleeperPlaced(s: State, p: nat)
    requires Placed(s) && p < SLOTS && p != s.current && p in s.sleepers && |s.sleepers| > 1
    ensures Placed(Block(s, p)) <==> p != s.sleepers[0]
  {
    var t, l, x := Block(s, p), LevelOf(s, p), s.sleepers[1];
    assert SetProc(s, p, s.procs[p].(status := Blocked)) == s;
    if p == s.sleepers[0] {
      assert x in s.sleepers && t.ready[l] == s.sleepers[1..];
      assert x in t.ready[l] && !Fits(t.procs, l, x);
    } else {
      WithoutSorted(s.procs, s.sleepers, p);
      forall y | 0 <= y < SLOTS ensures InPlace(t, y) { assert InPlace(s, y); }
    }
  }

  lemma ConsSorted(procs: seq<Proc>, x: nat, q: seq<nat>)
    requires Sorted(procs, q) && forall y :: y in q ==> WakeTime(procs, x) <= WakeTime(procs, y)
    ensures Sorted(procs, [x] + q)
  {
    var r := [x] + q;
    forall i, j | 0 <= i < j < |r| ensures WakeTime(procs, r[i]) <= WakeTime(procs, r[j]) {
      assert r[j] == q[j - 1] && q[j - 1] in q;
    }
  }

  lemma {:induction false} WithoutSorted(procs: seq<Proc>, q: seq<nat>, p: nat)
    requires Sorted(procs, q) && NoDup(q)
    ensures Sorted(procs, Without(q, p)) && NoDup(Without(q, p)) && forall x :: x in Without(q, p) ==> x in q
  {
    WithoutNoDup(q, p);
    forall x | x in Without(q, p) ensures x in q { WithoutMember(q, p, x); }
    if q != [] && q[0] != p {
      var rest := q[1..];
      WithoutSorted(procs, rest, p);
      forall x | x in rest ensures WakeTime(procs, q[0]) <= WakeTime(procs, x) {
        var o :| 0 <= o < |rest| && rest[o] == x;
        assert q[o + 1] == x;
      }
      ConsSorted(procs, q[0], Without(rest, p));
    }
  }

  lemma BlockWaiting(s: State, p: nat)
    requires Placed(s) && p < SLOTS && p != s.current && p != s.idle && (p !in s.sleepers || |s.sleepers| == 1)
    ensures Placed(Block(s, p)) <==> p in s.ready[LevelOf(s, p)] || Alone(s, p)
  {
    var t, l := Block(s, p), LevelOf(s, p);
    var q := s.ready[l];
    OneQueue(s, p);
    WithoutNoDup(q, p);
    forall x ensures x in Without(q, p) <==> x in q && x != p { WithoutMember(q, p, x); }
    forall k, x | 0 <= k < LEVELS && x in t.ready[k] ensures Fits(t.procs, k, x) {
      assert x in s.ready[k] && Fits(s.procs, k, x);
    }
    forall k | 0 <= k < LEVELS ensures NoDup(t.ready[k]) { assert NoDup(s.ready[k]); }
    SortedSame(s.procs, t.procs, s.sleepers);
    if p in q || Alone(s, p) {
      forall x | 0 <= x < SLOTS ensures InPlace(t, x) { assert InPlace(s, x); }
    } else {
      var x :| x in q && x != s.idle;
      assert Fits(s.procs, l, x) && !InPlace(t, x);
    }
  }

  lemma SettleExact(s: State, t: State, u: State)
    requires Placed(s) && s.current != NONE && s.current != s.idle
    requires Wf(t) && Queued(t) && IdleOk(t) && u == t.(sleepers := u.sleepers) && Asleep(u)
    requires t.current == s.current && t.procs[t.current].status == Blocked
    requires AllInPlace(t) <==> Alone(s, s.current)
    requires forall q :: q in s.ready[LevelOf(s, s.current)] && q != s.idle ==> q < SLOTS && Lost(t, q)
    ensures QueuesInRange(u)
    ensures Placed(Schedule(u)) <==> Alone(s, s.current)
  {
    forall l, p | 0 <= l < LEVELS && p in u.ready[l] ensures p < SLOTS { assert Fits(u.procs, l, p); }
    if Alone(s, s.current) {
      forall p | 0 <= p < SLOTS ensures InPlace(u, p) { assert InPlace(t, p); }
      ScheduleExact(u);
    } else {
      var q :| q in s.ready[LevelOf(s, s.current)] && q != s.idle;
      assert Lost(u, q);
      LostStaysLost(u, q);
    }
  }

  lemma SetSliceStable(s: State, slice: nat, total: nat)
    requires Stable(s) && s.current != NONE
    ensures var t := SetProc(s, s.current, s.procs[s.current].(slice := slice, total := total));
            && Stable(t) && (NoneLost(s) ==> NoneLost(t)) && (LosesCurrent(t) <==> LosesCurrent(s))
  {
    var t := SetProc(s, s.current, s.procs[s.current].(slice := slice, total := total));
    forall l, x | 0 <= l < LEVELS && x in t.ready[l] ensures Fits(t.procs, l, x) { assert Fits(s.procs, l, x); }
    forall x | 0 <= x < SLOTS ensures InPlace(t, x) { assert InPlace(s, x); }
    SortedSame(s.procs, t.procs, s.sleepers);
  }

  /** scheduler_yield loses nobody except through schedule's own defect. */
  lemma YieldExact(s: State)
    requires Placed(s)
    ensures Placed(Yield(s)) <==> !LosesCurrent(s)
  {
    PlacedIsStable(s);
    if s.current != NONE {
      SetSliceStable(s, 0, s.procs[s.current].total);
      ScheduleExact(SetProc(s, s.current, s.procs[s.current].(slice := 0)));
    } else {
      ScheduleExact(s);
    }
  }

  lemma TickedCalm(s: State)
    requires Placed(s)
    ensures Calm(s.(tick := (s.tick + 1) % WORD))
  {
    var t := s.(tick := (s.tick + 1) % WORD);
    forall p | 0 <= p < SLOTS ensures InPlace(t, p) { assert InPlace(s, p); }
  }

  lemma WokenPlaced(s: State)
    requires Placed(s)
    ensures Placed(Woken(s)) && Woken(s).current == s.current
    ensures s.current != NONE ==> Woken(s).procs[s.current] == s.procs[s.current]
  {
    TickedCalm(s);
    WakeKeeps(s.(tick := (s.tick + 1) % WORD));
  }

  /** p sleeps and the coming tick wakes it. */
  predicate Due(s: State, p: nat)
    requires Wf(s)
  {
    p in s.sleepers && WakeTime(s.procs, p) <= (s.tick + 1) % WORD
  }

  /** The coming tick wakes somebody of level l. */
  ghost predicate DueAt(s: State, l: nat)
    requires Wf(s)
  {
    exists p: nat :: p < SLOTS && Due(s, p) && LevelOf(s, p) == l
  }

  lemma {:induction false} SelectMember(procs: seq<Proc>, l: nat, q: seq<nat>, p: nat)
    ensures p in Select(procs, l, q) <==> p in q && p < |procs| && Level(procs[p].priority) == l
  {
    if q != [] {
      assert p in q <==> p == q[0] || p in q[1..];
      SelectMember(procs, l, q[1..], p);
    }
  }

  lemma DueMember(s: State, p: nat)
    requires Wf(s) && Sorted(s.procs, s.sleepers)
    ensures p in DueOf(s) <==> Due(s, p)
  {
    if Due(s, p) {
      var i :| 0 <= i < |s.sleepers| && s.sleepers[i] == p;
      DuePrefix(s.procs, s.sleepers, (s.tick + 1) % WORD, i);
      assert DueOf(s)[i] == p;
    }
  }

  /** The sleepers that the coming tick wakes, in order. */
  function DueOf(s: State): seq<nat>
    requires Wf(s)
  {
    s.sleepers[..LaterFrom(s.procs, s.sleepers, (s.tick + 1) % WORD, 0)]
  }

  lemma SelectEmpty(s: State, l: nat)
    requires Wf(s) && Sorted(s.procs, s.sleepers)
    ensures Select(s.procs, l, DueOf(s)) == [] <==> !DueAt(s, l)
  {
    var add := Select(s.procs, l, DueOf(s));
    if add != [] {
      assert add[0] in add;
      SelectMember(s.procs, l, DueOf(s), add[0]);
      DueMember(s, add[0]);
    }
    forall p: nat | p < SLOTS && Due(s, p) && LevelOf(s, p) == l ensures p in add {
      SelectMember(s.procs, l, DueOf(s), p);
      DueMember(s, p);
    }
  }

  lemma WokenParts(s: State, l: nat)
    requires Wf(s) && Asleep(s) && l < LEVELS
    ensures Woken(s).sleepers == s.sleepers[|DueOf(s)|..]
    ensures Woken(s).ready[l] == s.ready[l] + Select(s.procs, l, DueOf(s))
  {
    var t := s.(tick := (s.tick + 1) % WORD);
    assert Asleep(t);
    var k := LaterFrom(t.procs, t.sleepers, t.tick, 0);
    assert Wake(t).sleepers == s.sleepers[k..]
           && Wake(t).ready[l] == s.ready[l] + Select(s.procs, l, s.sleepers[..k]) by { WakeExact(t, l); }
  }

  lemma CutSeq(q: seq<nat>, k: nat)
    requires k <= |q|
    ensures q == q[..k] + q[k..]
  {
  }

  lemma NothingAdded(a: seq<nat>, b: seq<nat>)
    ensures a + b == [] <==> a == [] && b == []
  {
    assert |a + b| == |a| + |b|;
  }

  /** A tick appends to queue l exactly its due sleepers, in order. */
  lemma WokenExact(s: State, l: nat)
    requires Wf(s) && Asleep(s) && l < LEVELS
    ensures s.sleepers == DueOf(s) + Woken(s).sleepers
    ensures Woken(s).ready[l] == s.ready[l] + Select(s.procs, l, DueOf(s))
    ensures Woken(s).ready[l] == [] <==> s.ready[l] == [] && !DueAt(s, l)
  {
    WokenParts(s, l);
    CutSeq(s.sleepers, |DueOf(s)|);
    SelectEmpty(s, l);
    NothingAdded(s.ready[l], Select(s.procs, l, DueOf(s)));
  }

  /** A tick loses somebody exactly when a slice ends in schedule's own case and nobody wakes. */
  lemma TickExact(s: State)
    requires Placed(s)
    ensures Placed(Tick(s))
            <==> !(LosesCurrent(s) && s.procs[s.current].slice <= 1 && forall p :: p in s.sleepers ==> !Due(s, p))
  {
    WokenPlaced(s);
    var w := Woken(s);
    PlacedIsStable(w);
    if w.current != NONE {
      SetSliceStable(w, Charged(w).procs[w.current].slice, Charged(w).procs[w.current].total);
      ScheduleExact(Charged(w));
      WokenLoses(s);
    }
  }

  lemma WokenLoses(s: State)
    requires Placed(s)
    ensures LosesCurrent(Woken(s)) <==> LosesCurrent(s) && forall p :: p in s.sleepers ==> !Due(s, p)
  {
    WokenPlaced(s);
    var w := Woken(s);
    forall l | 0 <= l < LEVELS ensures w.ready[l] == [] <==> s.ready[l] == [] && !DueAt(s, l) { WokenExact(s, l); }
    if p :| p in s.sleepers && Due(s, p) {
      assert DueAt(s, LevelOf(s, p));
      assert w.ready[LevelOf(s, p)] != [];
    } else {
      assert forall l :: 0 <= l < LEVELS ==> (w.ready[l] == [] <==> s.ready[l] == []);
    }
  }

  // ---------------------------------------------------------------- runs

  /** scheduler_init: empty lists, and the idle process in the first slot, off the queues. */
  function Initial(): State {
    State(seq(SLOTS, i => if i == 0 then Proc(Ready, 31, 10, 0, 0) else Proc(Unused, 0, 0, 0, 0)),
          seq(LEVELS, _ => []), [], NONE, 0, 0)
  }

  lemma InitialPlaced()
    ensures Placed(Initial()) && OnlyIdleLowest(Initial())
  {
  }

  datatype Op =
    | OpTick
    | OpYield
    | OpSleep(ticks: nat)
    | OpBlock(p: nat)
    | OpUnblock(p: nat)
    | OpSpawn(p: nat, priority: int)

  ghost predicate OnlyIdleLowest(s: State)
    requires Wf(s)
  {
    forall p :: 0 <= p < SLOTS && p != s.idle && s.procs[p].status != Unused ==> LevelOf(s, p) < LOWEST
  }

  /** What the code demands of its callers: a process that sleeps or blocks itself leaves nobody
      behind at its level, a process blocked by another is blockable, a process unblocked does not
      sleep, and only the idle process belongs to level 31. */
  ghost predicate Legal(s: State, op: Op)
    requires Wf(s)
  {
    match op
    case OpTick => true
    case OpYield => true
    case OpSleep(_) => s.current != NONE ==> s.current != s.idle && Alone(s, s.current)
    case OpBlock(p) =>
      p < SLOTS && p != s.idle && s.procs[p].status != Unused && Blockable(s, p)
    case OpUnblock(p) => p < SLOTS && p !in s.sleepers
    case OpSpawn(p, priority) => p < SLOTS && s.procs[p].status == Unused && Level(priority) < LOWEST && p != s.idle
  }

  ghost function Step(s: State, op: Op): State
    requires Wf(s) && Legal(s, op)
  {
    match op
    case OpTick => Tick(s)
    case OpYield => Yield(s)
    case OpSleep(ticks) => Sleep(s, ticks)
    case OpBlock(p) => Block(s, p)
    case OpUnblock(p) => Unblock(s, p)
    case OpSpawn(p, priority) => Spawn(s, p, priority)
  }

  /** Only Spawn changes priorities or takes slots into use. */
  ghost predicate SameShape(s: State, r: State)
    requires Wf(s) && Wf(r)
  {
    && r.idle == s.idle
    && forall p :: 0 <= p < SLOTS ==> r.procs[p].priority == s.procs[p].priority
                                      && (r.procs[p].status == Unused <==> s.procs[p].status == Unused)
  }

  lemma {:induction false} WakeSameShape(s: State)
    requires Wf(s)
    ensures SameShape(s, Wake(s))
    decreases |s.sleepers|
  {
    if s.sleepers != [] && s.sleepers[0] < SLOTS && WakeTime(s.procs, s.sleepers[0]) <= s.tick {
      WakeSameShape(Add(s.(sleepers := s.sleepers[1..]), s.sleepers[0]));
    }
  }

  lemma ScheduleSameShape(s: State)
    requires Wf(s) && Queued(s) && IdleOk(s)
    ensures QueuesInRange(s) && SameShape(s, Schedule(s))
  {
    forall l, p | 0 <= l < LEVELS && p in s.ready[l] ensures p < SLOTS { assert Fits(s.procs, l, p); }
    var next, l := FindNext(s), FirstLevel(s.ready, 0);
    if l < LEVELS { assert s.ready[l][0] in s.ready[l] && Fits(s.procs, l, next); }
    if next != s.current {
      var q := Requeue(s);
      assert SameShape(s, q);
      assert SameShape(q, Dispatch(q, next));
    }
  }

  lemma ShapeKeepsLowest(s: State, r: State)
    requires Wf(s) && Wf(r) && SameShape(s, r) && OnlyIdleLowest(s)
    ensures OnlyIdleLowest(r)
  {
  }

  lemma SameShapeTwice(s: State, t: State, r: State)
    requires Wf(s) && Wf(t) && Wf(r) && SameShape(s, t) && SameShape(t, r)
    ensures SameShape(s, r)
  {
  }

  /** A tick with a process running: what is charged, and what follows. */
  lemma TickCharges(s: State)
    requires Placed(s) && s.current != NONE
    ensures var w := Woken(s);
            && Placed(w) && w.current == s.current && w.procs[s.current] == s.procs[s.current] && SameShape(s, w)
            && var c := Charged(w);
               && Stable(c) && QueuesInRange(c) && SameShape(s, c)
               && Tick(s) == if s.procs[s.current].slice <= 1 then Schedule(c) else c
  {
    WokenPlaced(s);
    var w := Woken(s);
    var c := Charged(w);
    assert SameShape(s, w) by { WakeSameShape(s.(tick := (s.tick + 1) % WORD)); }
    assert Stable(c) by {
      PlacedIsStable(w);
      SetSliceStable(w, c.procs[w.current].slice, c.procs[w.current].total);
    }
    assert QueuesInRange(c) by { ScheduleExact(c); }
  }

  lemma TickSameShape(s: State)
    requires Placed(s)
    ensures Wf(Tick(s)) && SameShape(s, Tick(s))
  {
    if s.current != NONE {
      TickCharges(s);
      var c := Charged(Woken(s));
      ScheduleSameShape(c);
      SameShapeTwice(s, c, Schedule(c));
    } else {
      WokenPlaced(s);
      WakeSameShape(s.(tick := (s.tick + 1) % WORD));
    }
  }

  lemma YieldSameShape(s: State)
    requires Placed(s)
    ensures Wf(Yield(s)) && SameShape(s, Yield(s))
  {
    PlacedIsStable(s);
    if s.current != NONE {
      var c := SetProc(s, s.current, s.procs[s.current].(slice := 0));
      SetSliceStable(s, 0, s.procs[s.current].total);
      ScheduleSameShape(c);
      SameShapeTwice(s, c, Schedule(c));
    } else {
      ScheduleSameShape(s);
    }
  }

  lemma LeaveSameShape(s: State, r: Proc)
    requires Wf(s) && s.current != NONE && r.priority == s.procs[s.current].priority
    requires r.status != Unused && s.procs[s.current].status != Unused
    ensures Wf(Leave(s, r)) && SameShape(s, Leave(s, r))
  {
  }

  lemma SleepSameShape(s: State, ticks: nat)
    requires Placed(s) && s.current != NONE && Legal(s, OpSleep(ticks))
    ensures Wf(Sleep(s, ticks)) && SameShape(s, Sleep(s, ticks))
  {
    SleepSettles(s, ticks);
    LeaveSameShape(s, SleepProc(s, ticks));
    var u := FallAsleep(s, ticks);
    ScheduleSameShape(u);
    SameShapeTwice(s, u, Schedule(u));
  }

  lemma BlockSelfSameShape(s: State)
    requires Placed(s) && s.current != NONE && Legal(s, OpBlock(s.current))
    ensures Wf(Block(s, s.current)) && SameShape(s, Block(s, s.current))
  {
    OneQueue(s, s.current);
    BlockSettles(s);
    var t := Leave(s, s.procs[s.current].(status := Blocked));
    ScheduleSameShape(t);
    SameShapeTwice(s, t, Schedule(t));
  }

  /** Apart from spawning, an operation takes no slot into use and gives none up. */
  lemma StepSameShape(s: State, op: Op)
    requires Placed(s) && Legal(s, op) && !op.OpSpawn?
    ensures Wf(Step(s, op)) && SameShape(s, Step(s, op))
  {
    match op
    case OpTick => TickSameShape(s);
    case OpYield => YieldSameShape(s);
    case OpSleep(ticks) => if s.current != NONE { SleepSameShape(s, ticks); }
    case OpBlock(p) => if p == s.current { BlockSelfSameShape(s); }
    case OpUnblock(p) =>
  }

  lemma StepPlaced(s: State, op: Op)
    requires Placed(s) && OnlyIdleLowest(s) && Legal(s, op)
    ensures Placed(Step(s, op))
  {
    match op
    case OpTick => TickExact(s);
    case OpYield => YieldExact(s);
    case OpSleep(ticks) => if s.current != NONE { SleepExact(s, ticks); }
    case OpBlock(p) =>
      if p == s.current {
        OneQueue(s, p);
        BlockSelfExact(s);
      } else {
        BlockOtherExact(s, p);
      }
    case OpUnblock(p) => if s.procs[p].status == Blocked { UnblockPlaced(s, p); }
    case OpSpawn(p, priority) => SpawnPlaced(s, p, priority);
  }

  lemma UnblockPlaced(s: State, p: nat)
    requires Placed(s) && p < SLOTS && p !in s.sleepers && s.procs[p].status == Blocked
    ensures Placed(Unblock(s, p))
  {
    OneQueue(s, p);
    AddKeeps(s, p);
  }

  /** Every legal operation keeps everybody in place. */
  lemma StepKeeps(s: State, op: Op)
    requires Placed(s) && OnlyIdleLowest(s) && Legal(s, op)
    ensures Placed(Step(s, op)) && OnlyIdleLowest(Step(s, op))
  {
    StepPlaced(s, op);
    if !op.OpSpawn? {
      StepSameShape(s, op);
      ShapeKeepsLowest(s, Step(s, op));
    }
  }

  lemma SpawnPlaced(s: State, p: nat, priority: int)
    requires Placed(s) && p < SLOTS && s.procs[p].status == Unused
    ensures Placed(Spawn(s, p, priority))
  {
    var a := SetProc(s, p, Proc(Ready, priority, 10, 0, 0));
    forall k, x | 0 <= k < LEVELS && x in a.ready[k] ensures x != p && Fits(a.procs, k, x) {
      assert Fits(s.procs, k, x);
    }
    SortedSame(s.procs, a.procs, s.sleepers);
    forall x | 0 <= x < SLOTS && x != p ensures InPlace(a, x) { assert InPlace(s, x); }
    AddKeeps(a, p);
  }

  ghost predicate LegalRun(s: State, ops: seq<Op>)
    decreases |ops|
  {
    Wf(s) && (ops == [] || (Legal(s, ops[0]) && LegalRun(Step(s, ops[0]), ops[1..])))
  }

  ghost function Run(s: State, ops: seq<Op>): State
    requires LegalRun(s, ops)
    decreases |ops|
  {
    if ops == [] then s else Run(Step(s, ops[0]), ops[1..])
  }

  /** Over every legal run nobody is lost. */
  lemma {:induction false} RunKeeps(s: State, ops: seq<Op>)
    requires LegalRun(s, ops) && Placed(s) && OnlyIdleLowest(s)
    ensures Placed(Run(s, ops)) && OnlyIdleLowest(Run(s, ops))
    decreases |ops|
  {
    if ops != [] {
      StepKeeps(s, ops[0]);
      RunKeeps(Step(s, ops[0]), ops[1..]);
    }
  }

  /** What Placed says of one process: it is in exactly one place. */
  lemma ExactlyOnePlace(s: State, p: nat, l: nat)
    requires Placed(s) && p < SLOTS && l < LEVELS
    ensures p in s.ready[l] ==> l == LevelOf(s, p) && p != s.current && p !in s.sleepers && s.procs[p].status == Ready
    ensures p in s.sleepers ==> p != s.current && s.procs[p].status == Blocked
    ensures s.procs[p].status == Running <==> p == s.current
    ensures s.procs[p].status == Ready <==> p in s.ready[LevelOf(s, p)] || (p == s.idle && p != s.current)
  {
    OneQueue(s, p);
    assert InPlace(s, p);
  }
}
