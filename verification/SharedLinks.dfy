/** Ready queues and the sleep queue use the same link fields. What scheduler_unblock and
    scheduler_block do to a process that sleeps, on the lists themselves. */
module SharedLinks {
  import opened Kernel
  import opened Links
  import opened Scheduler
  import M = SchedulerModel
  import F = SchedulerFailures

  /** Lists that start alike and whose links agree before position k agree up to it. */
  lemma {:induction false} SamePrefix(links: seq<Link>, q: seq<nat>, links1: seq<Link>, r: seq<nat>, k: nat, i: nat)
    requires Linked(links, q) && Linked(links1, r) && |links| == |links1| && i <= k < |q| && Head(q) == Head(r)
    requires forall j :: 0 <= j < k ==> q[j] < |links| && links1[q[j]].next == links[q[j]].next
    ensures i < |r| && r[i] == q[i]
    decreases i
  {
    if i > 0 {
      SamePrefix(links, q, links1, r, k, i - 1);
      assert LinkedAt(links, q, i - 1) && LinkedAt(links1, r, i - 1);
    }
  }

  /** Some abstract state is what the lists say, for the given processes. */
  ghost predicate Sensible(c: Lists, procs: seq<M.Proc>) {
    exists b: M.State :: Says(c, procs, b)
  }

  ghost predicate Says(c: Lists, procs: seq<M.Proc>, b: M.State) { b.procs == procs && Rep(c, b) }

  // ---------------------------------------------------------------- unblocking

  lemma TailInRange(a: M.State, l: nat)
    requires M.Wf(a) && M.Queued(a) && l < M.LEVELS
    ensures NIL <= Last(a.ready[l]) < SLOTS
    ensures Last(a.ready[l]) != NIL ==> a.procs[Last(a.ready[l])].status == M.Ready
  {
    var q := a.ready[l];
    if q != [] { assert q[|q| - 1] in q && M.Fits(a.procs, l, q[|q| - 1]); }
  }

  /** The sleeper is still met from the head of the sleep queue, so it has to be blocked. */
  lemma StillMet(c: Lists, a: M.State, p: nat, b: M.State)
    requires Rep(c, a) && p < SLOTS && p in a.sleepers
    requires var t := Last(a.ready[M.LevelOf(a, p)]);
             && NIL <= t < SLOTS && (t != NIL ==> a.procs[t].status == M.Ready)
             && Rep(AddLists(c, M.LevelOf(a, p), p, t), b)
    ensures b.procs[p].status == M.Blocked
  {
    var q := a.sleepers;
    var d := AddLists(c, M.LevelOf(a, p), p, Last(a.ready[M.LevelOf(a, p)]));
    var k :| 0 <= k < |q| && q[k] == p;
    forall j | 0 <= j < k ensures q[j] < SLOTS && d.links[q[j]].next == c.links[q[j]].next {
      assert q[j] in q && q[j] != q[k];
    }
    SamePrefix(c.links, q, d.links, b.sleepers, k, k);
    assert b.sleepers[k] in b.sleepers;
  }

  lemma SleeperAppended(c: Lists, a: M.State, p: nat, b: M.State)
    requires Rep(c, a) && p < SLOTS && p in a.sleepers
    ensures var l := M.LevelOf(a, p);
            && NIL <= Last(a.ready[l]) < SLOTS
            && !Says(AddLists(c, l, p, Last(a.ready[l])), M.Add(a, p).procs, b)
  {
    TailInRange(a, M.LevelOf(a, p));
    assert a.procs[p].status == M.Blocked && M.Add(a, p).procs[p].status == M.Ready;
    if b.procs == M.Add(a, p).procs && Rep(AddLists(c, M.LevelOf(a, p), p, Last(a.ready[M.LevelOf(a, p)])), b) {
      StillMet(c, a, p, b);
    }
  }

  /** scheduler_unblock on a blocked process leaves lists that make sense exactly when the process
      does not sleep: otherwise the sleep queue ends in a ready process. */
  lemma UnblockExact(c: Lists, a: M.State, p: nat)
    requires Rep(c, a) && p < SLOTS && a.procs[p].status == M.Blocked
    ensures var l := M.LevelOf(a, p);
            && Last(a.ready[l]) < SLOTS
            && (Sensible(AddLists(c, l, p, Last(a.ready[l])), M.Add(a, p).procs) <==> p !in a.sleepers)
  {
    M.OneQueue(a, p);
    if p in a.sleepers {
      SleeperAppended(c, a, p, a);
      var d := AddLists(c, M.LevelOf(a, p), p, Last(a.ready[M.LevelOf(a, p)]));
      forall b: M.State ensures !Says(d, M.Add(a, p).procs, b) {
        SleeperAppended(c, a, p, b);
      }
    } else {
      AddRep(c, a, p);
      assert Says(AddLists(c, M.LevelOf(a, p), p, Last(a.ready[M.LevelOf(a, p)])), M.Add(a, p).procs, M.Add(a, p));
    }
  }

  // ---------------------------------------------------------------- blocking

  lemma HeadIsReady(d: Lists, b: M.State, l: nat)
    requires Rep(d, b) && l < M.LEVELS && d.heads[l] != NIL
    ensures 0 <= d.heads[l] < SLOTS && b.procs[d.heads[l]].status == M.Ready
  {
    assert LevelOk(d.links, d.heads, b.ready, l);
    assert b.ready[l][0] in b.ready[l] && M.Fits(b.procs, l, b.ready[l][0]);
  }

  /** The first of several sleepers hands the second to the ready queue. */
  lemma FirstSleeperRemoved(c: Lists, a: M.State, b: M.State)
    requires Rep(c, a) && |a.sleepers| > 1
    ensures var p := a.sleepers[0];
            && p < SLOTS && NIL <= c.links[p].prev < SLOTS && NIL <= c.links[p].next < SLOTS
            && !Says(RemoveLists(c, M.LevelOf(a, p), p), a.procs, b)
  {
    var p, x := a.sleepers[0], a.sleepers[1];
    assert p in a.sleepers && x in a.sleepers;
    assert LinkedAt(c.links, a.sleepers, 0);
    var l := M.LevelOf(a, p);
    var d := RemoveLists(c, l, p);
    assert d.heads[l] == x && a.procs[x].status == M.Blocked;
    if b.procs == a.procs && Rep(d, b) { HeadIsReady(d, b, l); }
  }

  /** The lists still make sense and nobody is lost. */
  ghost predicate Harmless(c: Lists, a: M.State, b: M.State) {
    Says(c, a.procs, b) && b.idle == a.idle && b.current == a.current && M.AllInPlace(b)
  }

  lemma NoneReady(d: Lists, b: M.State, l: nat)
    requires Rep(d, b) && l < M.LEVELS && d.heads[l] == NIL
    ensures b.ready[l] == []
  {
    assert LevelOk(d.links, d.heads, b.ready, l);
  }

  lemma OnlySleeperHarms(c: Lists, a: M.State, p: nat, b: M.State)
    requires Rep(c, a) && p < SLOTS && a.sleepers == [p] && !M.Alone(a, p)
    ensures NIL <= c.links[p].prev < SLOTS && NIL <= c.links[p].next < SLOTS
    ensures !Harmless(RemoveLists(c, M.LevelOf(a, p), p), a, b)
  {
    OnlySleeperRemoved(c, a);
    var l := M.LevelOf(a, p);
    var d := RemoveLists(c, l, p);
    assert LinkedAt(c.links, a.sleepers, 0);
    var x :| x in a.ready[l] && x != a.idle;
    assert M.Fits(a.procs, l, x);
    if Rep(d, b) && b.procs == a.procs {
      NoneReady(d, b, l);
      assert b.idle == a.idle ==> !M.InPlace(b, x);
    }
  }

  /** scheduler_block on a process that sleeps is harmless exactly when others sleep before it, or it
      is the only sleeper and nobody waits at its level. */
  lemma BlockSleeperExact(c: Lists, a: M.State, p: nat)
    requires Rep(c, a) && M.Placed(a) && p in a.sleepers
    ensures p < SLOTS && NIL <= c.links[p].prev < SLOTS && NIL <= c.links[p].next < SLOTS
    ensures (exists b: M.State :: Harmless(RemoveLists(c, M.LevelOf(a, p), p), a, b))
            <==> p != a.sleepers[0] || (|a.sleepers| == 1 && M.Alone(a, p))
  {
    DetachRep(c, a, p);
    var d, r := RemoveLists(c, M.LevelOf(a, p), p), M.Detach(a, p);
    M.OneQueue(a, p);
    if p != a.sleepers[0] || (|a.sleepers| == 1 && M.Alone(a, p)) {
      M.RemoveKeeps(a, p);
      forall x | 0 <= x < SLOTS ensures M.InPlace(r, x) { assert M.InPlace(a, x); }
      assert Harmless(d, a, r);
    } else {
      forall b: M.State ensures !Harmless(d, a, b) {
        if |a.sleepers| == 1 { OnlySleeperHarms(c, a, p, b); } else { FirstSleeperRemoved(c, a, b); }
      }
    }
  }

  // ---------------------------------------------------------------- reached from scheduler_init

  /** With process 1 asleep, unblocking it. */
  lemma UnblockFails(c: Lists)
    ensures var s := M.Sleep(M.Yield(F.Spawned(8, 16)), 1);
            && F.Reached(F.PairOps(8, 16) + [M.OpSleep(1)], s)
            && (Rep(c, s) ==> && Last(s.ready[8]) < SLOTS
                              && !Sensible(AddLists(c, 8, 1, Last(s.ready[8])), M.Add(s, 1).procs))
  {
    F.PairReached(8, 16);
    F.AfterSleeping(M.Yield(F.Spawned(8, 16)));
    F.TwoAsleep();
    var s := M.Sleep(M.Yield(F.Spawned(8, 16)), 1);
    if Rep(c, s) { UnblockExact(c, s, 1); }
  }
}
