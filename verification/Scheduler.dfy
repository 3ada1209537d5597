/** The scheduler as the source has it: queue heads, a bitmap of the non-empty queues, and links
    inside the process table, all updated in place. SchedulerModel is its abstraction. */
module Scheduler {
  import opened Bits
  import opened Kernel
  import opened Links
  import M = SchedulerModel

  /** The concrete list state: link fields of the process table, queue heads, bitmap, sleep queue. */
  datatype Lists = Lists(links: seq<Link>, heads: seq<int>, bitmap: nat, sleepHead: int)

  ghost predicate QueueOk(links: seq<Link>, head: int, q: seq<nat>) {
    head == Head(q) && Linked(links, q)
  }

  ghost predicate LevelOk(links: seq<Link>, heads: seq<int>, ready: seq<seq<nat>>, l: nat)
    requires l < |heads| && l < |ready|
  {
    QueueOk(links, heads[l], ready[l])
  }

  ghost predicate QueuesOk(c: Lists, a: M.State) {
    && |c.links| == SLOTS && |c.heads| == M.LEVELS && |a.ready| == M.LEVELS
    && (forall l :: 0 <= l < M.LEVELS ==> LevelOk(c.links, c.heads, a.ready, l))
    && QueueOk(c.links, c.sleepHead, a.sleepers)
  }

  /** Bit l of the bitmap is set exactly when queue l is not empty. */
  ghost predicate BitmapOk(bitmap: nat, ready: seq<seq<nat>>) {
    && |ready| == M.LEVELS && bitmap < Pow2(M.LEVELS)
    && forall l: nat :: l < M.LEVELS ==> (Bit(bitmap, l) <==> ready[l] != [])
  }

  /** Processes in no list have NULL links. */
  ghost predicate DetachedAt(c: Lists, a: M.State, p: nat)
    requires M.Wf(a) && |c.links| == SLOTS && p < SLOTS
  {
    p in a.ready[M.LevelOf(a, p)] || p in a.sleepers || c.links[p] == Link(NIL, NIL)
  }

  ghost predicate Detached(c: Lists, a: M.State)
    requires M.Wf(a) && |c.links| == SLOTS
  {
    forall p: nat :: p < SLOTS ==> DetachedAt(c, a, p)
  }

  /** The lists and the bitmap represent the abstract queues. */
  ghost predicate Rep(c: Lists, a: M.State) {
    M.Wf(a) && M.Queued(a) && M.Asleep(a) && QueuesOk(c, a) && BitmapOk(c.bitmap, a.ready)
  }

  // ---------------------------------------------------------------- the bitmap

  lemma BitmapSet(bitmap: nat, ready: seq<seq<nat>>, l: nat, q: seq<nat>)
    requires BitmapOk(bitmap, ready) && l < M.LEVELS && q != []
    ensures BitmapOk(Or(bitmap, Pow2(l)), ready[l := q])
  {
    Pow2Monotone(l, 31);
    assert Pow2(M.LEVELS) == 2 * Pow2(31);
    OrBound(bitmap, Pow2(l), M.LEVELS);
    forall k: nat | k < M.LEVELS ensures Bit(Or(bitmap, Pow2(l)), k) <==> k == l || Bit(bitmap, k) {
      SetBit(bitmap, l, k);
    }
  }

  lemma BitmapClear(bitmap: nat, ready: seq<seq<nat>>, l: nat)
    requires BitmapOk(bitmap, ready) && l < M.LEVELS
    ensures BitmapOk(AndNot(bitmap, Pow2(l)), ready[l := []])
  {
    AndNotBound(bitmap, Pow2(l));
    forall k: nat | k < M.LEVELS ensures Bit(AndNot(bitmap, Pow2(l)), k) <==> k != l && Bit(bitmap, k) {
      ClearBit(bitmap, l, k);
    }
  }

  /** Counting trailing zeros finds the queue a linear scan finds; a zero bitmap means none. */
  lemma CtzIsFirstLevel(bitmap: nat, ready: seq<seq<nat>>)
    requires BitmapOk(bitmap, ready)
    ensures bitmap == 0 <==> M.FirstLevel(ready, 0) == M.LEVELS
    ensures bitmap != 0 ==> Ctz(bitmap) == M.FirstLevel(ready, 0)
  {
    var l := M.FirstLevel(ready, 0);
    if bitmap == 0 {
      if l < M.LEVELS {
        ZeroHasNoBit(l);
        assert false;
      }
    } else {
      var k := Ctz(bitmap);
      CtzIsLowest(bitmap, k);
      if k >= M.LEVELS {
        HighBitsClear(bitmap, M.LEVELS, k);
        assert false;
      }
      CtzIsLowest(bitmap, l);
    }
  }

  // ---------------------------------------------------------------- queues

  /** Queued processes of different lists are different. */
  lemma FrameQueues(links: seq<Link>, links1: seq<Link>, a: M.State, l: nat, p: nat)
    requires M.Wf(a) && M.Queued(a) && M.Asleep(a) && |links| == |links1| == SLOTS && l < M.LEVELS
    requires forall k :: 0 <= k < M.LEVELS ==> Linked(links, a.ready[k])
    requires Linked(links, a.sleepers) && p !in a.sleepers
    requires forall k :: 0 <= k < M.LEVELS && k != l ==> p !in a.ready[k]
    requires forall x: nat :: x < SLOTS && x !in a.ready[l] && x != p ==> links1[x] == links[x]
    ensures forall k :: 0 <= k < M.LEVELS && k != l ==> Linked(links1, a.ready[k])
    ensures Linked(links1, a.sleepers)
  {
    forall k | 0 <= k < M.LEVELS && k != l ensures Linked(links1, a.ready[k]) {
      forall x | x in a.ready[k] && x < |links| ensures links1[x] == links[x] {
        assert M.Fits(a.procs, k, x);
        M.OneQueue(a, x);
      }
      Frame(links, links1, a.ready[k]);
    }
    forall x | x in a.sleepers && x < |links| ensures links1[x] == links[x] {
      M.OneQueue(a, x);
    }
    Frame(links, links1, a.sleepers);
  }

  // The list writes of scheduler_add and scheduler_remove.

  function AddLists(c: Lists, l: nat, p: nat, tail: int): Lists
    requires l < |c.heads| && p < |c.links| && NIL <= tail < |c.links|
  {
    if tail == NIL then
      Lists(c.links[p := Link(NIL, NIL)], c.heads[l := p], Or(c.bitmap, Pow2(l)), c.sleepHead)
    else c.(links := Append(c.links, tail, p))
  }

  function Last(q: seq<nat>): int { if q == [] then NIL else q[|q| - 1] }

  /** What remains to be shown when only queue l changes, to q1, and only its entries and p's. */
  lemma QueuesKept(c: Lists, a: M.State, d: Lists, l: nat, p: nat, q1: seq<nat>)
    requires Rep(c, a) && l < M.LEVELS && |d.links| == SLOTS && |d.heads| == M.LEVELS
    requires p !in a.sleepers && forall k :: 0 <= k < M.LEVELS && k != l ==> p !in a.ready[k]
    requires forall x: nat :: x < SLOTS && x !in a.ready[l] && x != p ==> d.links[x] == c.links[x]
    requires QueueOk(d.links, d.heads[l], q1) && d.sleepHead == c.sleepHead && d.heads == c.heads[l := d.heads[l]]
    ensures QueuesOk(d, a.(ready := a.ready[l := q1]))
  {
    forall k | 0 <= k < M.LEVELS ensures Linked(c.links, a.ready[k]) {
      assert LevelOk(c.links, c.heads, a.ready, k);
    }
    FrameQueues(c.links, d.links, a, l, p);
    var ready1 := a.ready[l := q1];
    forall k | 0 <= k < M.LEVELS ensures LevelOk(d.links, d.heads, ready1, k) {
      assert LevelOk(c.links, c.heads, a.ready, k);
    }
  }

  lemma AddRep(c: Lists, a: M.State, p: nat)
    requires Rep(c, a) && p < SLOTS && M.Loose(a, p) && a.procs[p].status != M.Unused
    ensures var l := M.LevelOf(a, p);
            && Last(a.ready[l]) < |c.links|
            && Rep(AddLists(c, l, p, Last(a.ready[l])), M.Add(a, p))
  {
    AddQueues(c, a, p);
    M.AddKeeps(a, p);
    var l := M.LevelOf(a, p);
    assert M.Add(a, p).ready == a.ready[l := a.ready[l] + [p]];
  }

  lemma AddQueues(c: Lists, a: M.State, p: nat)
    requires Rep(c, a) && p < SLOTS && M.Loose(a, p)
    ensures var l := M.LevelOf(a, p);
            && Last(a.ready[l]) < |c.links|
            && var d, ready := AddLists(c, l, p, Last(a.ready[l])), a.ready[l := a.ready[l] + [p]];
               QueuesOk(d, a.(ready := ready)) && BitmapOk(d.bitmap, ready)
  {
    var l := M.LevelOf(a, p);
    var q := a.ready[l];
    assert LevelOk(c.links, c.heads, a.ready, l);
    if q != [] { assert q[|q| - 1] in q && M.Fits(a.procs, l, q[|q| - 1]); }
    var d := AddLists(c, l, p, Last(q));
    M.OneQueue(a, p);
    if q == [] {
      assert LinkedAt(d.links, [p], 0);
      BitmapSet(c.bitmap, a.ready, l, q + [p]);
    } else {
      AppendLinked(c.links, q, p);
      assert BitmapOk(c.bitmap, a.ready[l := q + [p]]);
    }
    QueuesKept(c, a, d, l, p, q + [p]);
  }

  lemma AddDetached(c: Lists, a: M.State, p: nat)
    requires Rep(c, a) && Detached(c, a) && p < SLOTS && M.Loose(a, p) && a.procs[p].status != M.Unused
    ensures var l := M.LevelOf(a, p);
            && Last(a.ready[l]) < |c.links|
            && Detached(AddLists(c, l, p, Last(a.ready[l])), M.Add(a, p))
  {
    var l := M.LevelOf(a, p);
    var q, r := a.ready[l], M.Add(a, p);
    if q != [] { assert q[|q| - 1] in q && M.Fits(a.procs, l, q[|q| - 1]); }
    var d := AddLists(c, l, p, Last(q));
    forall x: nat | x < SLOTS ensures DetachedAt(d, r, x) { assert DetachedAt(c, a, x); }
  }

  function RemoveLists(c: Lists, l: nat, p: nat): Lists
    requires l < |c.heads| && p < |c.links| && NIL <= c.links[p].prev < |c.links| && NIL <= c.links[p].next < |c.links|
  {
    var heads := if c.links[p].prev == NIL then c.heads[l := c.links[p].next] else c.heads;
    Lists(Unlink(c.links, p), heads, if heads[l] == NIL then AndNot(c.bitmap, Pow2(l)) else c.bitmap, c.sleepHead)
  }

  lemma DropLater(q: seq<nat>, k: nat)
    requires 0 < k < |q|
    ensures Drop(q, k) == [q[0]] + Drop(q[1..], k - 1)
  {
    var t := q[1..];
    assert q[..k] == [q[0]] + t[..k - 1] && t[k..] == q[k + 1..];
  }

  lemma {:induction false} WithoutIsDrop(q: seq<nat>, k: nat)
    requires NoDup(q) && k < |q|
    ensures M.Without(q, q[k]) == Drop(q, k)
  {
    if k > 0 {
      var t := q[1..];
      WithoutIsDrop(t, k - 1);
      assert t[k - 1] == q[k] && q[0] != q[k];
      DropLater(q, k);
    } else {
      assert q[..0] + q[1..] == q[1..];
    }
  }

  /** p is in its queue, or it is in no list and its links are NULL. */
  ghost predicate Removable(c: Lists, a: M.State, p: nat)
    requires M.Wf(a) && |c.links| == SLOTS && p < SLOTS
  {
    p in a.ready[M.LevelOf(a, p)] || (p !in a.sleepers && c.links[p] == Link(NIL, NIL))
  }

  lemma UnlinkQueue(links: seq<Link>, q: seq<nat>, p: nat)
    requires Linked(links, q) && NoDup(q) && p in q && |links| == SLOTS
    ensures p < SLOTS && NIL <= links[p].prev < SLOTS && NIL <= links[p].next < SLOTS
    ensures var q1 := M.Without(q, p);
            && Linked(Unlink(links, p), q1)
            && Head(q1) == (if links[p].prev == NIL then links[p].next else Head(q))
            && forall x: nat :: x < SLOTS && x !in q ==> Unlink(links, p)[x] == links[x]
  {
    var k :| 0 <= k < |q| && q[k] == p;
    UnlinkLinked(links, q, k);
    WithoutIsDrop(q, k);
    assert LinkedAt(links, q, k);
    assert k > 0 ==> q[k - 1] in q;
    assert k + 1 < |q| ==> q[k + 1] in q;
  }

  lemma RemoveQueue(c: Lists, a: M.State, p: nat)
    requires Rep(c, a) && p < SLOTS && Removable(c, a, p)
    ensures var l := M.LevelOf(a, p);
            var q1 := M.Remove(a, p).ready[l];
            && NIL <= c.links[p].prev < SLOTS && NIL <= c.links[p].next < SLOTS
            && var d := RemoveLists(c, l, p);
               && QueueOk(d.links, d.heads[l], q1) && (d.heads[l] == NIL <==> q1 == [])
               && forall x: nat :: x < SLOTS && x !in a.ready[l] && x != p ==> d.links[x] == c.links[x]
  {
    var l := M.LevelOf(a, p);
    assert LevelOk(c.links, c.heads, a.ready, l);
    if p in a.ready[l] { UnlinkQueue(c.links, a.ready[l], p); }
  }

  /** scheduler_remove on the lists does what Remove does on the queues, including the loss of the
      whole queue when the process is in none. */
  lemma RemoveRep(c: Lists, a: M.State, p: nat)
    requires Rep(c, a) && p < SLOTS && Removable(c, a, p)
    ensures NIL <= c.links[p].prev < SLOTS && NIL <= c.links[p].next < SLOTS
    ensures Rep(RemoveLists(c, M.LevelOf(a, p), p), M.Remove(a, p))
  {
    RemoveQueue(c, a, p);
    M.RemoveKeeps(a, p);
    var l, r := M.LevelOf(a, p), M.Remove(a, p);
    var d := RemoveLists(c, l, p);
    M.OneQueue(a, p);
    QueuesKept(c, a, d, l, p, r.ready[l]);
    assert r == a.(ready := a.ready[l := r.ready[l]]);
    if d.heads[l] == NIL {
      BitmapClear(c.bitmap, a.ready, l);
    } else {
      assert a.ready[l] != [];
    }
  }

  lemma RemoveDetached(c: Lists, a: M.State, p: nat)
    requires Rep(c, a) && Detached(c, a) && p < SLOTS && Removable(c, a, p)
    requires p in a.ready[M.LevelOf(a, p)] || |a.ready[M.LevelOf(a, p)]| <= 1
    ensures NIL <= c.links[p].prev < SLOTS && NIL <= c.links[p].next < SLOTS
    ensures Detached(RemoveLists(c, M.LevelOf(a, p), p), M.Remove(a, p))
  {
    RemoveQueue(c, a, p);
    M.RemoveKeeps(a, p);
    var l, r := M.LevelOf(a, p), M.Remove(a, p);
    var d := RemoveLists(c, l, p);
    SoleMember(c, a, l);
    forall x: nat | x < SLOTS ensures DetachedAt(d, r, x) { assert DetachedAt(c, a, x); }
  }

  /** The only member of a queue has NULL links. */
  lemma SoleMember(c: Lists, a: M.State, l: nat)
    requires Rep(c, a) && l < M.LEVELS
    ensures |a.ready[l]| == 1 ==> a.ready[l][0] < SLOTS && c.links[a.ready[l][0]] == Link(NIL, NIL)
  {
    assert LevelOk(c.links, c.heads, a.ready, l);
    if |a.ready[l]| == 1 { assert LinkedAt(c.links, a.ready[l], 0); }
  }

  // The list writes of the sleep queue.

  function PopLists(c: Lists, p: nat): Lists
    requires p < |c.links| && NIL <= c.links[p].prev < |c.links| && NIL <= c.links[p].next < |c.links|
  {
    c.(links := Unlink(c.links, p), sleepHead := c.links[p].next)
  }

  function PushLists(c: Lists, p: nat, pv: int, nx: int): Lists
    requires p < |c.links| && NIL <= pv < |c.links| && NIL <= nx < |c.links|
  {
    c.(links := Insert(c.links, p, pv, nx), sleepHead := if pv == NIL then p else c.sleepHead)
  }

  /** Only entries of sleepers and of p change: the ready queues are kept. */
  lemma ReadyKept(c: Lists, a: M.State, d: Lists, p: nat)
    requires Rep(c, a) && |d.links| == SLOTS && d.heads == c.heads
    requires forall k :: 0 <= k < M.LEVELS ==> p !in a.ready[k]
    requires forall x: nat :: x < SLOTS && x !in a.sleepers && x != p ==> d.links[x] == c.links[x]
    ensures forall l :: 0 <= l < M.LEVELS ==> LevelOk(d.links, d.heads, a.ready, l)
  {
    forall l | 0 <= l < M.LEVELS ensures LevelOk(d.links, d.heads, a.ready, l) {
      assert LevelOk(c.links, c.heads, a.ready, l);
      forall x | x in a.ready[l] && x < |c.links| ensures d.links[x] == c.links[x] { assert M.Fits(a.procs, l, x); }
      Frame(c.links, d.links, a.ready[l]);
    }
  }

  lemma PopSleeper(c: Lists, a: M.State)
    requires Rep(c, a) && a.sleepers != []
    ensures var p, q := a.sleepers[0], a.sleepers;
            && p < SLOTS && NIL <= c.links[p].prev < SLOTS && NIL <= c.links[p].next < SLOTS
            && QueueOk(PopLists(c, p).links, PopLists(c, p).sleepHead, q[1..])
            && forall x: nat :: x < SLOTS && x !in q ==> PopLists(c, p).links[x] == c.links[x]
  {
    var p, q := a.sleepers[0], a.sleepers;
    assert p in q;
    UnlinkQueue(c.links, q, p);
    assert LinkedAt(c.links, q, 0);
  }

  lemma PopRep(c: Lists, a: M.State)
    requires Rep(c, a) && a.sleepers != []
    ensures var p := a.sleepers[0];
            && p < SLOTS && NIL <= c.links[p].prev < SLOTS && NIL <= c.links[p].next < SLOTS
            && Rep(PopLists(c, p), a.(sleepers := a.sleepers[1..]))
  {
    var p, q := a.sleepers[0], a.sleepers;
    PopSleeper(c, a);
    M.OneQueue(a, p);
    assert p in q;
    ReadyKept(c, a, PopLists(c, p), p);
    assert forall x :: x in q[1..] ==> x in q;
  }

  lemma PopDetached(c: Lists, a: M.State)
    requires Rep(c, a) && Detached(c, a) && a.sleepers != []
    ensures var p := a.sleepers[0];
            && p < SLOTS && NIL <= c.links[p].prev < SLOTS && NIL <= c.links[p].next < SLOTS
            && Detached(PopLists(c, p), a.(sleepers := a.sleepers[1..]))
  {
    var p, q := a.sleepers[0], a.sleepers;
    PopSleeper(c, a);
    var d, r := PopLists(c, p), a.(sleepers := q[1..]);
    forall x: nat | x < SLOTS ensures DetachedAt(d, r, x) {
      assert DetachedAt(c, a, x);
      assert x in q ==> x == p || x in q[1..];
    }
  }

  // What scheduler_remove does to a sleeper.

  /** A later sleeper only leaves the sleep queue. */
  lemma LaterSleeperRemoved(c: Lists, a: M.State, p: nat)
    requires Rep(c, a) && p in a.sleepers && p != a.sleepers[0]
    ensures p < SLOTS && NIL <= c.links[p].prev < SLOTS && NIL <= c.links[p].next < SLOTS
    ensures Rep(RemoveLists(c, M.LevelOf(a, p), p), M.Detach(a, p))
  {
    var q := a.sleepers;
    UnlinkQueue(c.links, q, p);
    var k :| 0 <= k < |q| && q[k] == p;
    assert LinkedAt(c.links, q, k);
    var l := M.LevelOf(a, p);
    M.OneQueue(a, p);
    var d, r := RemoveLists(c, l, p), M.Detach(a, p);
    assert d.heads == c.heads && r.sleepers == M.Without(q, p);
    ReadyKept(c, a, d, p);
    assert LevelOk(c.links, c.heads, a.ready, l);
    if d.heads[l] == NIL { BitmapClear(c.bitmap, a.ready, l); }
    assert a.ready[l] == [] ==> a.ready[l := []] == a.ready;
    M.WithoutSorted(a.procs, q, p);
  }

  lemma LaterSleeperDetached(c: Lists, a: M.State, p: nat)
    requires Rep(c, a) && Detached(c, a) && p in a.sleepers && p != a.sleepers[0]
    ensures p < SLOTS && NIL <= c.links[p].prev < SLOTS && NIL <= c.links[p].next < SLOTS
    ensures Detached(RemoveLists(c, M.LevelOf(a, p), p), M.Detach(a, p))
  {
    var q := a.sleepers;
    UnlinkQueue(c.links, q, p);
    var d, r := RemoveLists(c, M.LevelOf(a, p), p), M.Detach(a, p);
    forall x: nat | x < SLOTS ensures DetachedAt(d, r, x) {
      assert DetachedAt(c, a, x);
      M.WithoutMember(q, p, x);
    }
  }

  /** The only sleeper empties the ready queue of its level and stays asleep. */
  lemma OnlySleeperRemoved(c: Lists, a: M.State)
    requires Rep(c, a) && |a.sleepers| == 1
    ensures var p := a.sleepers[0];
            && p < SLOTS && NIL <= c.links[p].prev < SLOTS && NIL <= c.links[p].next < SLOTS
            && var d := RemoveLists(c, M.LevelOf(a, p), p);
               && d.links == c.links && Rep(d, M.Detach(a, p))
               && (Detached(c, a) && |a.ready[M.LevelOf(a, p)]| <= 1 ==> Detached(d, M.Detach(a, p)))
  {
    var p := a.sleepers[0];
    assert p in a.sleepers;
    assert LinkedAt(c.links, a.sleepers, 0);
    var l := M.LevelOf(a, p);
    M.OneQueue(a, p);
    var d, r := RemoveLists(c, l, p), M.Detach(a, p);
    assert r == a.(ready := a.ready[l := []]);
    assert d.links == c.links && d.heads == c.heads[l := NIL];
    BitmapClear(c.bitmap, a.ready, l);
    forall k | 0 <= k < M.LEVELS ensures LevelOk(d.links, d.heads, r.ready, k) {
      assert LevelOk(c.links, c.heads, a.ready, k);
    }
    M.RemoveKeeps(a, p);
    SoleMember(c, a, l);
    if Detached(c, a) && |a.ready[l]| <= 1 {
      forall x: nat | x < SLOTS ensures DetachedAt(d, r, x) { assert DetachedAt(c, a, x); }
    }
  }

  /** p is the first of several sleepers. */
  ghost predicate HandsOver(a: M.State, p: nat) { |a.sleepers| > 1 && p == a.sleepers[0] }

  /** The first of several sleepers hands the others to the ready queue of its level. */
  lemma FirstHandsOver(c: Lists, a: M.State, p: nat)
    requires Rep(c, a) && HandsOver(a, p)
    ensures p < SLOTS && NIL <= c.links[p].prev < SLOTS && NIL <= c.links[p].next < SLOTS
    ensures QueuesOk(RemoveLists(c, M.LevelOf(a, p), p), M.Detach(a, p))
  {
    var q, l := a.sleepers, M.LevelOf(a, p);
    assert p in q;
    UnlinkQueue(c.links, q, p);
    assert LinkedAt(c.links, q, 0);
    var d, r := RemoveLists(c, l, p), M.Detach(a, p);
    assert M.Without(q, p) == q[1..];
    assert LinkedAt(d.links, [p], 0);
    forall k | 0 <= k < M.LEVELS ensures LevelOk(d.links, d.heads, r.ready, k) {
      assert LevelOk(c.links, c.heads, a.ready, k);
      if k != l {
        forall x | x in a.ready[k] && x < |c.links| ensures d.links[x] == c.links[x] { assert M.Fits(a.procs, k, x); }
        Frame(c.links, d.links, a.ready[k]);
      }
    }
  }

  /** scheduler_remove on the lists does what Detach does on the queues. */
  lemma DetachRep(c: Lists, a: M.State, p: nat)
    requires Rep(c, a) && p < SLOTS && (Removable(c, a, p) || p in a.sleepers)
    ensures NIL <= c.links[p].prev < SLOTS && NIL <= c.links[p].next < SLOTS
    ensures var d, r := RemoveLists(c, M.LevelOf(a, p), p), M.Detach(a, p);
            && QueuesOk(d, r) && (!HandsOver(a, p) ==> Rep(d, r))
            && (Detached(c, a) && !HandsOver(a, p) && KeepsLinks(a, p) ==> Detached(d, r))
  {
    if HandsOver(a, p) {
      FirstHandsOver(c, a, p);
    } else if p in a.sleepers && |a.sleepers| > 1 {
      LaterSleeperRemoved(c, a, p);
      if Detached(c, a) { LaterSleeperDetached(c, a, p); }
    } else if p in a.sleepers {
      OnlySleeperRemoved(c, a);
    } else {
      RemoveRep(c, a, p);
      if Detached(c, a) && KeepsLinks(a, p) { RemoveDetached(c, a, p); }
    }
  }

  /** Nobody who is dropped from a queue keeps links to others. */
  ghost predicate KeepsLinks(a: M.State, p: nat)
    requires M.Wf(a) && p < SLOTS
  {
    p in a.ready[M.LevelOf(a, p)] || |a.ready[M.LevelOf(a, p)]| <= 1 || (p in a.sleepers && |a.sleepers| > 1)
  }

  /** The neighbours of position k of a list. */
  function Before(q: seq<nat>, k: nat): int { if 0 < k <= |q| then q[k - 1] else NIL }
  function After(q: seq<nat>, k: nat): int { if k < |q| then q[k] else NIL }

  lemma PushRep(c: Lists, a: M.State, p: nat, k: nat)
    requires Rep(c, a) && p < SLOTS && p !in a.sleepers && k <= |a.sleepers|
    requires forall l :: 0 <= l < M.LEVELS ==> p !in a.ready[l]
    requires M.Asleep(a.(sleepers := M.InsertAt(a.sleepers, k, p)))
    ensures var q := a.sleepers;
            var pv, nx := Before(q, k), After(q, k);
            var r := a.(sleepers := M.InsertAt(q, k, p));
            && pv < SLOTS && nx < SLOTS && Rep(PushLists(c, p, pv, nx), r)
            && forall x: nat :: x < SLOTS && DetachedAt(c, a, x) ==> DetachedAt(PushLists(c, p, pv, nx), r, x)
  {
    var q := a.sleepers;
    var pv, nx := Before(q, k), After(q, k);
    assert k > 0 ==> q[k - 1] in q;
    assert k < |q| ==> q[k] in q;
    InsertLinked(c.links, q, k, p);
    M.InsertMembers(q, k, p);
    var d, r := PushLists(c, p, pv, nx), a.(sleepers := M.InsertAt(q, k, p));
    ReadyKept(c, a, d, p);
    forall l, x | 0 <= l < M.LEVELS && x in r.ready[l] ensures M.Fits(r.procs, l, x) { assert M.Fits(a.procs, l, x); }
  }

  /** Writing the other fields of a process in no list changes no list. */
  lemma SetProcRep(c: Lists, a: M.State, p: nat, r: M.Proc)
    requires Rep(c, a) && p < SLOTS && p !in a.ready[M.LevelOf(a, p)] && p !in a.sleepers
    requires r.priority == a.procs[p].priority || (Detached(c, a) && c.links[p] == Link(NIL, NIL))
    ensures Rep(c, M.SetProc(a, p, r))
    ensures Detached(c, a) ==> Detached(c, M.SetProc(a, p, r))
  {
    var b := M.SetProc(a, p, r);
    M.OneQueue(a, p);
    forall l, x | 0 <= l < M.LEVELS && x in b.ready[l] ensures M.Fits(b.procs, l, x) { assert M.Fits(a.procs, l, x); }
    M.SortedSame(a.procs, b.procs, a.sleepers);
    if Detached(c, a) {
      forall x: nat | x < SLOTS ensures DetachedAt(c, b, x) { assert DetachedAt(c, a, x); }
    }
  }

  /** Where scheduler_sleep inserts, and that the result is again a sorted, linked sleep queue. */
  lemma PushSleeper(c: Lists, a: M.State)
    requires Rep(c, a) && a.current != NIL && a.current !in a.sleepers
    requires a.procs[a.current].status == M.Blocked && forall l :: 0 <= l < M.LEVELS ==> a.current !in a.ready[l]
    ensures var p, q := a.current, a.sleepers;
            var k := M.LaterFrom(a.procs, q, a.procs[p].wake, 0);
            var pv, nx := Before(q, k), After(q, k);
            && pv < SLOTS && nx < SLOTS && Rep(PushLists(c, p, pv, nx), M.Enqueue(a))
            && forall x: nat :: x < SLOTS && DetachedAt(c, a, x) ==>
                                  DetachedAt(PushLists(c, p, pv, nx), M.Enqueue(a), x)
  {
    var k := M.LaterFrom(a.procs, a.sleepers, a.procs[a.current].wake, 0);
    M.InsertSorted(a.procs, a.sleepers, a.current);
    M.InsertMembers(a.sleepers, k, a.current);
    PushRep(c, a, a.current, k);
  }

  lemma HeadInRange(c: Lists, a: M.State)
    requires Rep(c, a)
    ensures c.sleepHead == Head(a.sleepers) && c.sleepHead < SLOTS
  {
    assert a.sleepers != [] ==> a.sleepers[0] in a.sleepers;
  }

  lemma OtherFieldsRep(c: Lists, a: M.State, current: int, tick: nat)
    requires Rep(c, a) && NIL <= current < SLOTS
    ensures Rep(c, a.(current := current, tick := tick))
    ensures Detached(c, a) ==> Detached(c, a.(current := current, tick := tick))
  {
    if Detached(c, a) {
      forall x: nat | x < SLOTS ensures DetachedAt(c, a.(current := current, tick := tick), x) {
        assert DetachedAt(c, a, x);
      }
    }
  }

  ghost predicate CurrentRuns(a: M.State)
    requires M.Wf(a)
  {
    a.current != NIL && a.procs[a.current].status == M.Running
  }

  /** What schedule needs: a current process still running implies that nobody is lost; one that
      has left the processor may have taken its level with it, but not the idle process. */
  ghost predicate Schedulable(c: Lists, a: M.State) {
    && Rep(c, a) && M.IdleOk(a) && DetachedAt(c, a, a.idle)
    && (a.procs[a.idle].status == M.Running ==> a.idle == a.current)
    && (CurrentRuns(a) ==> Detached(c, a) && M.Stable(a))
  }

  lemma StableIsSchedulable(c: Lists, a: M.State)
    requires Rep(c, a) && Detached(c, a) && M.Stable(a)
    ensures Schedulable(c, a)
  {
    assert M.InPlace(a, a.idle) && DetachedAt(c, a, a.idle);
  }

  lemma InitialRep(c: Lists)
    requires |c.links| == SLOTS && |c.heads| == M.LEVELS && c.bitmap == 0 && c.sleepHead == NIL
    requires forall p :: 0 <= p < SLOTS ==> c.links[p] == Link(NIL, NIL)
    requires forall l :: 0 <= l < M.LEVELS ==> c.heads[l] == NIL
    ensures Rep(c, M.Initial()) && Detached(c, M.Initial())
  {
    var a := M.Initial();
    M.InitialPlaced();
    forall l: nat | l < M.LEVELS ensures !Bit(c.bitmap, l) && LevelOk(c.links, c.heads, a.ready, l) { ZeroHasNoBit(l); }
    assert Pow2(M.LEVELS) > 0;
    assert forall p: nat :: p < SLOTS ==> DetachedAt(c, a, p);
  }

  // ---------------------------------------------------------------- the scheduler

  class Scheduler {
    var procs: seq<M.Proc>
    var links: seq<Link>
    var heads: seq<int>
    var bitmap: nat
    var sleepHead: int
    var current: int
    var idle: int
    var tick: nat
    ghost var ready: seq<seq<nat>>
    ghost var sleepers: seq<nat>

    ghost function Abs(): M.State
      reads this`procs, this`current, this`idle, this`tick, this`ready, this`sleepers
    {
      M.State(procs, ready, sleepers, current, idle, tick)
    }

    ghost function Conc(): Lists
      reads this`links, this`heads, this`bitmap, this`sleepHead
    {
      Lists(links, heads, bitmap, sleepHead)
    }

    ghost predicate Good()
      reads this
    {
      Rep(Conc(), Abs()) && Detached(Conc(), Abs())
    }

    /** scheduler_init: empty lists, and the idle process in the first slot, off the queues. */
    constructor ()
      ensures Good() && Abs() == M.Initial()
    {
      procs := M.Initial().procs;
      links := seq(SLOTS, _ => Link(NIL, NIL));
      heads := seq(M.LEVELS, _ => NIL);
      bitmap, sleepHead, current, idle, tick := 0, NIL, NIL, 0, 0;
      ready, sleepers := M.Initial().ready, [];
      new;
      InitialRep(Conc());
    }

    method Add(p: nat)
      requires Good() && p < SLOTS && M.Loose(Abs(), p)
      modifies this`procs, this`links, this`heads, this`bitmap, this`ready
      ensures Good() && Abs() == M.Add(old(Abs()), p)
    {
      if procs[p].status == M.Unused {
        return;
      }
      AddRep(Conc(), Abs(), p);
      AddDetached(Conc(), Abs(), p);
      var l := M.Level(procs[p].priority);
      assert LevelOk(links, heads, ready, l);
      LinkLast(p, l);
      ready := ready[l := ready[l] + [p]];
      procs := procs[p := procs[p].(status := M.Ready, slice := M.SliceOf(l))];
    }

    /** The list writes of scheduler_add. */
    method LinkLast(p: nat, l: nat)
      requires |heads| == M.LEVELS && |ready| == M.LEVELS && l < M.LEVELS && p < |links|
      requires LevelOk(links, heads, ready, l) && Last(ready[l]) < |links|
      modifies this`links, this`heads, this`bitmap
      ensures Conc() == AddLists(old(Conc()), l, p, Last(ready[l]))
    {
      if heads[l] == NIL {
        links := links[p := Link(NIL, NIL)];
        heads := heads[l := p];
        bitmap := Or(bitmap, Pow2(l));
      } else {
        var tail := FindTail(l);
        links := Append(links, tail, p);
      }
    }

    /** The walk to the end of a queue. */
    method FindTail(l: nat) returns (tail: nat)
      requires |heads| == M.LEVELS && |ready| == M.LEVELS && l < M.LEVELS
      requires QueueOk(links, heads[l], ready[l]) && ready[l] != []
      ensures tail == Last(ready[l]) && tail < |links|
    {
      ghost var q, i := ready[l], 0;
      tail := heads[l];
      assert LinkedAt(links, q, 0);
      while links[tail].next != NIL
        invariant i < |q| && tail == q[i] && LinkedAt(links, q, i)
        decreases |q| - i
      {
        assert LinkedAt(links, q, i + 1);
        tail := links[tail].next;
        i := i + 1;
      }
    }

    /** When p is in no list the queue of its level is dropped whole; its members then keep stale
        links. When p is the first of several sleepers the rest of them become that queue, and their
        state does not fit it. */
    method Remove(p: nat)
      requires Rep(Conc(), Abs()) && p < SLOTS && (Removable(Conc(), Abs(), p) || p in sleepers)
      modifies this`links, this`heads, this`bitmap, this`ready, this`sleepers
      ensures Abs() == M.Detach(old(Abs()), p) && QueuesOk(Conc(), Abs())
      ensures !HandsOver(old(Abs()), p) ==> Rep(Conc(), Abs())
      ensures old(Good()) && !HandsOver(old(Abs()), p) && KeepsLinks(old(Abs()), p) ==> Good()
      ensures links[p] == Link(NIL, NIL)
      ensures old(links[p]) == Link(NIL, NIL) ==> links == old(links)
    {
      DetachRep(Conc(), Abs(), p);
      ghost var after := M.Detach(Abs(), p);
      UnlinkFrom(p, M.Level(procs[p].priority));
      ready, sleepers := after.ready, after.sleepers;
      assert Abs() == after;
    }

    /** The list writes of scheduler_remove. */
    method UnlinkFrom(p: nat, l: nat)
      requires p < |links| && l < |heads| && NIL <= links[p].prev < |links| && NIL <= links[p].next < |links|
      modifies this`links, this`heads, this`bitmap
      ensures Conc() == RemoveLists(old(Conc()), l, p)
    {
      var k := links[p];
      if k.prev != NIL {
        links := links[k.prev := links[k.prev].(next := k.next)];
      } else {
        heads := heads[l := k.next];
      }
      if k.next != NIL {
        links := links[k.next := links[k.next].(prev := k.prev)];
      }
      links := links[p := Link(NIL, NIL)];
      if heads[l] == NIL {
        bitmap := AndNot(bitmap, Pow2(l));
      }
    }

    method FindNext() returns (next: int)
      requires Rep(Conc(), Abs())
      ensures next == M.FindNext(Abs())
    {
      CtzIsFirstLevel(bitmap, ready);
      if bitmap == 0 {
        return idle;
      }
      var l := Ctz(bitmap);
      assert LevelOk(links, heads, ready, l);
      next := heads[l];
    }

    method Schedule()
      requires Schedulable(Conc(), Abs())
      modifies this`procs, this`links, this`heads, this`bitmap, this`ready, this`sleepers, this`current
      ensures M.QueuesInRange(old(Abs())) && Abs() == M.Schedule(old(Abs())) && Rep(Conc(), Abs())
      ensures old(Good() && M.Stable(Abs()) && !M.LosesCurrent(Abs())) ==> Good()
    {
      InRange(Abs());
      var next := FindNext();
      if next == NIL || next == current {
        return;
      }
      NextIsReady(Conc(), Abs());
      RequeueCurrent();
      assert DetachedAt(Conc(), Abs(), next);
      DispatchTo(next);
    }

    method DispatchTo(p: nat)
      requires Rep(Conc(), Abs()) && p < SLOTS && procs[p].status == M.Ready && Removable(Conc(), Abs(), p)
      modifies this`procs, this`links, this`heads, this`bitmap, this`ready, this`sleepers, this`current
      ensures Rep(Conc(), Abs()) && Abs() == M.Dispatch(old(Abs()), p)
      ensures old(Good()) && (p in old(ready[M.LevelOf(Abs(), p)]) || |old(ready[M.LevelOf(Abs(), p)])| <= 1) ==> Good()
    {
      RemoveForDispatch(p);
      SetProcRep(Conc(), Abs(), p, procs[p].(status := M.Running));
      procs := procs[p := procs[p].(status := M.Running)];
      OtherFieldsRep(Conc(), Abs(), p, tick);
      current := p;
    }

    /** scheduler_tick */
    method Tick()
      requires Good() && M.Placed(Abs())
      modifies this
      ensures Abs() == M.Tick(old(Abs())) && Rep(Conc(), Abs())
      ensures M.Placed(Abs()) ==> Good()
    {
      M.TickExact(Abs());
      M.WokenLoses(Abs());
      M.WokenPlaced(Abs());
      WakeSleepers();
      Preempt();
    }

    /** Charge the current process and reschedule when its slice is used up. */
    method Preempt()
      requires Good() && M.Placed(Abs())
      modifies this`procs, this`links, this`heads, this`bitmap, this`ready, this`sleepers, this`current
      ensures Abs() == M.Preempt(old(Abs())) && Rep(Conc(), Abs())
      ensures !old(M.LosesCurrent(Abs()) && procs[current].slice <= 1) ==> Good()
    {
      M.PlacedIsStable(Abs());
      if current != NIL && procs[current].status == M.Running {
        ghost var w := Abs();
        M.SetSliceStable(w, M.Charged(w).procs[current].slice, M.Charged(w).procs[current].total);
        Charge();
        InRange(Abs());
        if procs[current].slice == 0 {
          StableIsSchedulable(Conc(), Abs());
          Schedule();
        }
      }
    }

    method Charge()
      requires Good() && current != NIL && procs[current].status == M.Running
      modifies this`procs
      ensures Good() && Abs() == M.Charged(old(Abs()))
    {
      M.OneQueue(Abs(), current);
      var p := procs[current];
      SetProcRep(Conc(), Abs(), current, M.Charged(Abs()).procs[current]);
      procs := procs[current := p.(total := (p.total + 1) % WORD)];
      if p.slice > 0 {
        procs := procs[current := procs[current].(slice := p.slice - 1)];
      }
      assert procs == old(procs)[current := M.Charged(old(Abs())).procs[current]];
    }

    /** The tick counter and the wake loop; the sleep queue shrinks at every turn. */
    method WakeSleepers()
      requires Good() && M.Placed(Abs())
      modifies this`procs, this`links, this`heads, this`bitmap, this`ready, this`sleepers, this`sleepHead, this`tick
      ensures Good() && Abs() == M.Woken(old(Abs()))
    {
      OtherFieldsRep(Conc(), Abs(), current, (tick + 1) % WORD);
      tick := (tick + 1) % WORD;
      HeadInRange(Conc(), Abs());
      ghost var goal := M.Woken(old(Abs()));
      while sleepHead != NIL && procs[sleepHead].wake <= tick
        invariant Good() && M.Wake(Abs()) == goal
        invariant sleepHead == Head(sleepers) && sleepHead < SLOTS == |procs|
        decreases |sleepers|
      {
        M.WakeNext(Abs());
        WakeFirst();
        HeadInRange(Conc(), Abs());
      }
    }

    method WakeFirst()
      requires Good() && sleepers != []
      modifies this`procs, this`links, this`heads, this`bitmap, this`ready, this`sleepers, this`sleepHead
      ensures Good() && Abs() == M.AfterFirst(old(Abs())) && sleepers == old(sleepers)[1..]
    {
      var p := sleepHead;
      assert p == sleepers[0] && p in sleepers && p !in sleepers[1..];
      PopRep(Conc(), Abs());
      PopDetached(Conc(), Abs());
      M.OneQueue(Abs(), p);
      ghost var after := PopLists(Conc(), p);
      assert LinkedAt(links, sleepers, 0);
      sleepHead := links[p].next;
      if sleepHead != NIL {
        links := links[sleepHead := links[sleepHead].(prev := NIL)];
      }
      links := links[p := Link(NIL, NIL)];
      assert Conc() == after;
      sleepers := sleepers[1..];
      Add(p);
    }

    method Yield()
      requires Good() && M.Placed(Abs())
      modifies this`procs, this`links, this`heads, this`bitmap, this`ready, this`sleepers, this`current
      ensures Abs() == M.Yield(old(Abs())) && Rep(Conc(), Abs())
      ensures !M.LosesCurrent(old(Abs())) ==> Good()
    {
      M.PlacedIsStable(Abs());
      if current != NIL {
        var r := procs[current].(slice := 0);
        M.SetSliceStable(Abs(), 0, procs[current].total);
        M.OneQueue(Abs(), current);
        SetProcRep(Conc(), Abs(), current, r);
        procs := procs[current := r];
      }
      StableIsSchedulable(Conc(), Abs());
      Schedule();
    }

    /** The running process leaves the processor without being requeued. */
    method Leave(r: M.Proc)
      requires Good() && M.Placed(Abs()) && current != NIL && MayLeave(Abs())
      requires r.priority == procs[current].priority && r.status == M.Blocked
      modifies this`procs, this`links, this`heads, this`bitmap, this`ready, this`sleepers
      ensures Schedulable(Conc(), Abs()) && Abs() == M.Leave(old(Abs()), r)
      ensures |old(ready[M.LevelOf(Abs(), current)])| <= 1 ==> Good()
      ensures current !in sleepers && forall k :: 0 <= k < M.LEVELS ==> current !in ready[k]
    {
      M.OneQueue(Abs(), current);
      M.LeaveExact(Abs(), r);
      IdleStays(Conc(), Abs(), r);
      SetProcRep(Conc(), Abs(), current, r);
      assert DetachedAt(Conc(), Abs(), current);
      procs := procs[current := r];
      Remove(current);
      M.OneQueue(Abs(), current);
    }

    /** The whole level of the caller is lost unless it is empty. */
    method Sleep(ticks: nat)
      requires Good() && M.Placed(Abs()) && (current != NIL ==> MayLeave(Abs()))
      modifies this
      ensures Rep(Conc(), Abs()) && Abs() == M.Sleep(old(Abs()), ticks)
      ensures old(current == NIL || M.Alone(Abs(), current)) ==> Good()
    {
      if current == NIL {
        return;
      }
      if M.Alone(Abs(), current) {
        M.SleepSettles(Abs(), ticks);
        AloneIsShort(Abs(), current);
      }
      FallAsleep(ticks);
      InRange(Abs());
      Schedule();
    }

    method FallAsleep(ticks: nat)
      requires Good() && M.Placed(Abs()) && current != NIL && MayLeave(Abs())
      modifies this`procs, this`links, this`heads, this`bitmap, this`ready, this`sleepHead, this`sleepers
      ensures Schedulable(Conc(), Abs()) && Abs() == M.FallAsleep(old(Abs()), ticks)
      ensures |old(ready[M.LevelOf(Abs(), current)])| <= 1 ==> Good()
    {
      Leave(procs[current].(wake := (tick + ticks) % WORD, status := M.Blocked));
      assert Abs() == M.Leave(old(Abs()), M.SleepProc(old(Abs()), ticks));
      PushCurrent();
    }

    /** Insert the current process before the first sleeper that wakes later. */
    method PushCurrent()
      requires Schedulable(Conc(), Abs())
      requires current != NIL && current !in sleepers && procs[current].status == M.Blocked
      requires forall k :: 0 <= k < M.LEVELS ==> current !in ready[k]
      modifies this`links, this`sleepHead, this`sleepers
      ensures Schedulable(Conc(), Abs()) && (old(Good()) ==> Good())
      ensures Abs() == M.Enqueue(old(Abs()))
    {
      ghost var after := M.Enqueue(Abs());
      PushSleeper(Conc(), Abs());
      var pos, nx := FindSlot(procs[current].wake);
      LinkSleeper(current, pos, nx);
      sleepers := after.sleepers;
      assert Abs() == after;
    }

    method LinkSleeper(p: nat, pos: int, nx: int)
      requires p < |links| && NIL <= pos < |links| && NIL <= nx < |links|
      modifies this`links, this`sleepHead
      ensures Conc() == PushLists(old(Conc()), p, pos, nx)
    {
      links := links[p := Link(nx, pos)];
      if nx != NIL {
        links := links[nx := links[nx].(prev := p)];
      }
      if pos == NIL {
        sleepHead := p;
      } else {
        links := links[pos := links[pos].(next := p)];
      }
    }

    /** The sleepers between which a process waking at w belongs; NULL at either end. */
    method FindSlot(w: nat) returns (pos: int, nx: int)
      requires Rep(Conc(), Abs())
      ensures var k := M.LaterFrom(procs, sleepers, w, 0);
              pos == Before(sleepers, k) && nx == After(sleepers, k)
    {
      ghost var q, i := sleepers, 0;
      HeadInRange(Conc(), Abs());
      if sleepHead == NIL || w < procs[sleepHead].wake {
        return NIL, sleepHead;
      }
      pos := sleepHead;
      assert LinkedAt(links, q, 0);
      InRangeAt(Abs(), 1);
      while links[pos].next != NIL && procs[links[pos].next].wake <= w
        invariant i < |q| && pos == q[i] && LinkedAt(links, q, i) && pos < SLOTS
        invariant i + 1 < |q| ==> q[i + 1] < SLOTS
        invariant M.LaterFrom(procs, q, w, 0) == M.LaterFrom(procs, q, w, i + 1)
        decreases |q| - i
      {
        assert LinkedAt(links, q, i + 1);
        InRangeAt(Abs(), i + 2);
        pos := links[pos].next;
        i := i + 1;
      }
      nx := links[pos].next;
    }

    /** NULL stands for the current process. The removal and the state change touch different
        fields; for a process that is not running the removal is done first here. Only when the first
        of several sleepers is blocked do the lists hold processes whose state does not fit. */
    method Block(proc: int)
      requires Good() && M.Placed(Abs()) && NIL <= proc < SLOTS
      requires current != NIL && (proc == NIL || proc == current) ==> MayLeave(Abs())
      modifies this`procs, this`links, this`heads, this`bitmap, this`ready, this`sleepers, this`current
      ensures QueuesOk(Conc(), Abs())
      ensures var p := if proc == NIL then old(current) else proc;
              && Abs() == (if p == NIL then old(Abs()) else M.Block(old(Abs()), p))
              && (p == NIL || !HandsOver(old(Abs()), p) ==> Rep(Conc(), Abs()))
              && (p == NIL || old(M.Blockable(Abs(), p)) ==> Good())
    {
      var p := if proc == NIL then current else proc;
      if p == NIL {
        return;
      }
      if M.Alone(Abs(), p) { AloneIsShort(Abs(), p); }
      if p == current {
        var r := procs[p].(status := M.Blocked);
        if M.Alone(Abs(), current) { M.BlockSettles(Abs()); }
        M.OneQueue(Abs(), p);
        Leave(r);
        InRange(Abs());
        Schedule();
      } else {
        BlockOther(p);
      }
    }

    method BlockOther(p: nat)
      requires Good() && p < SLOTS && p != current
      modifies this`procs, this`links, this`heads, this`bitmap, this`ready, this`sleepers
      ensures QueuesOk(Conc(), Abs()) && Abs() == M.Block(old(Abs()), p)
      ensures !HandsOver(old(Abs()), p) ==> Rep(Conc(), Abs())
      ensures !HandsOver(old(Abs()), p) && KeepsLinks(old(Abs()), p) ==> Good()
    {
      assert DetachedAt(Conc(), Abs(), p);
      M.OneQueue(Abs(), p);
      Remove(p);
      if p !in old(sleepers) {
        M.RemoveKeeps(old(Abs()), p);
        SetProcRep(Conc(), Abs(), p, procs[p].(status := M.Blocked));
      }
      procs := procs[p := procs[p].(status := M.Blocked)];
      assert p in old(sleepers) ==> procs == old(procs);
    }

    method Unblock(p: nat)
      requires Good() && p < SLOTS && p !in sleepers
      modifies this`procs, this`links, this`heads, this`bitmap, this`ready
      ensures Good() && Abs() == M.Unblock(old(Abs()), p)
    {
      if procs[p].status != M.Blocked {
        return;
      }
      M.OneQueue(Abs(), p);
      Add(p);
    }

    method RequeueCurrent()
      requires Rep(Conc(), Abs()) && (CurrentRuns(Abs()) ==> Good() && M.Stable(Abs()))
      modifies this`procs, this`links, this`heads, this`bitmap, this`ready
      ensures Rep(Conc(), Abs()) && Abs() == M.Requeue(old(Abs())) && (old(Good()) ==> Good())
      ensures !old(CurrentRuns(Abs())) ==> Conc() == old(Conc())
    {
      if current != NIL && procs[current].status == M.Running {
        M.OneQueue(Abs(), current);
        var r := procs[current].(status := M.Ready);
        SetProcRep(Conc(), Abs(), current, r);
        procs := procs[current := r];
        Add(current);
      }
    }

    method RemoveForDispatch(p: nat)
      requires Rep(Conc(), Abs()) && p < SLOTS && procs[p].status == M.Ready && Removable(Conc(), Abs(), p)
      modifies this`links, this`heads, this`bitmap, this`ready, this`sleepers
      ensures Rep(Conc(), Abs()) && Abs() == M.Remove(old(Abs()), p)
      ensures p !in ready[M.LevelOf(Abs(), p)] && p !in sleepers
      ensures old(Good()) && (p in old(ready[M.LevelOf(Abs(), p)]) || |old(ready[M.LevelOf(Abs(), p)])| <= 1) ==> Good()
    {
      M.RemoveKeeps(Abs(), p);
      Remove(p);
    }
  }

  lemma TwoMembers(q: seq<nat>)
    requires |q| > 1 && NoDup(q)
    ensures q[0] in q && q[1] in q && q[0] != q[1]
  {
  }

  /** A queue that holds nobody but the idle process holds it once. */
  lemma AloneIsShort(a: M.State, p: nat)
    requires M.Wf(a) && M.Queued(a) && p < SLOTS && M.Alone(a, p)
    ensures |a.ready[M.LevelOf(a, p)]| <= 1
  {
    var q := a.ready[M.LevelOf(a, p)];
    if |q| > 1 {
      TwoMembers(q);
      assert false;
    }
  }

  /** The current process is not idle, and the idle process does not wait at its level among
      others, where losing it would leave it stale links. */
  ghost predicate MayLeave(a: M.State)
    requires M.Wf(a) && a.current != NIL
  {
    var q := a.ready[M.LevelOf(a, a.current)];
    a.current != a.idle && (a.idle !in q || |q| == 1)
  }

  /** Emptying the level of the current process does not touch the idle process. */
  lemma IdleStays(c: Lists, a: M.State, r: M.Proc)
    requires Rep(c, a) && Detached(c, a) && M.Placed(a) && a.current != NIL && MayLeave(a)
    requires r.priority == a.procs[a.current].priority
    ensures var t := M.Leave(a, r); DetachedAt(c, t, a.idle) && t.procs[a.idle].status == M.Ready
  {
    assert DetachedAt(c, a, a.idle) && M.InPlace(a, a.idle);
    SoleMember(c, a, M.LevelOf(a, a.current));
    var b := M.SetProc(a, a.current, r);
    M.OneQueue(a, a.current);
  }

  lemma InRange(a: M.State)
    requires M.Wf(a) && M.Queued(a)
    ensures M.QueuesInRange(a)
  {
    forall l, p | 0 <= l < M.LEVELS && p in a.ready[l] ensures p < SLOTS { assert M.Fits(a.procs, l, p); }
  }

  lemma InRangeAt(a: M.State, i: nat)
    requires M.Wf(a) && M.Asleep(a)
    ensures i < |a.sleepers| ==> a.sleepers[i] < SLOTS
  {
    assert i < |a.sleepers| ==> a.sleepers[i] in a.sleepers;
  }

  lemma NextIsReady(c: Lists, a: M.State)
    requires Schedulable(c, a) && M.FindNext(a) != a.current
    ensures 0 <= M.FindNext(a) < SLOTS
    ensures M.Requeue(a).procs[M.FindNext(a)].status == M.Ready
    ensures !CurrentRuns(a) ==> DetachedAt(c, a, M.FindNext(a))
    ensures M.Stable(a) && !M.LosesCurrent(a) ==> var r, p := M.Requeue(a), M.FindNext(a);
                                                  p in r.ready[M.LevelOf(r, p)] || r.ready[M.LevelOf(r, p)] == []
  {
    var p, l := M.FindNext(a), M.FirstLevel(a.ready, 0);
    if l < M.LEVELS { assert a.ready[l][0] in a.ready[l] && M.Fits(a.procs, l, p); }
    if M.Stable(a) { M.RequeueKeeps(a); }
  }
}
