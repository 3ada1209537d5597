/** A split virtqueue shared by the driver and a device, which may interleave in any way between their
    steps. A step ends at each access that the other side can observe: the store to the driver's or
    the device's index and the read of the other's. What a step does besides is private to its side.
    The descriptor and ring slot that Prepare fills are not read before the index store of Publish;
    the used element that Reap reads is not rewritten while it is pending, and the free list is the
    driver's own. The device is any device that takes buffers in ring order and returns each buffer
    it holds once. */
module Virtqueue {
  import opened Bits
  import opened Rings

  datatype Desc = Desc(addr: nat, len: nat, flags: nat, next: nat)
  datatype Elem = Elem(id: nat, len: nat)

  /** The memory of the queue: driver bookkeeping and the two rings. */
  datatype Queue = Queue(size: nat, desc: seq<Desc>, freeHead: nat, numFree: nat, lastUsed: nat,
                         avail: seq<nat>, availIdx: nat, used: seq<Elem>, usedIdx: nat)

  predicate Wf(q: Queue) {
    && 0 < q.size < WRAP && |q.desc| == q.size && |q.avail| == q.size && |q.used| == q.size
  }

  function Mask(q: Queue, idx: nat): nat
    requires q.size > 0
  {
    And(idx, q.size - 1)
  }

  // ---------------------------------------------------------------- the driver's steps

  /** virtq_add_buffer up to its first barrier: take the head of the free list, fill the descriptor
      and the next ring slot. */
  function Prepare(q: Queue, addr: nat, len: nat, flags: nat): Queue
    requires q.size > 0
  {
    var h := q.freeHead;
    var slot := Mask(q, q.availIdx);
    if h >= |q.desc| || slot >= |q.avail| || q.numFree == 0 then q else
    q.(freeHead := q.desc[h].next, numFree := q.numFree - 1,
       desc := q.desc[h := Desc(addr, len, flags, 0)], avail := q.avail[slot := h])
  }

  /** The store to the index that makes the slot visible to the device. */
  function Publish(q: Queue): Queue { q.(availIdx := (q.availIdx + 1) % WRAP) }

  /** The test of virtq_get_used. */
  predicate HasUsed(q: Queue) { q.lastUsed != q.usedIdx }

  function Reap(q: Queue): Queue
    requires q.size > 0
  {
    var slot := Mask(q, q.lastUsed);
    if slot >= |q.used| || q.used[slot].id >= |q.desc| then q else
    var id := q.used[slot].id;
    q.(lastUsed := (q.lastUsed + 1) % WRAP, desc := q.desc[id := q.desc[id].(next := q.freeHead)],
       freeHead := id, numFree := q.numFree + 1)
  }

  // ---------------------------------------------------------------- both sides together

  datatype DriverPc = Idle | Filled(head: nat) | Seen
  datatype DevicePc = Waiting | Wrote(elem: Elem)

  /** The queue, the device's own available index, and where each side stands. */
  datatype State = State(q: Queue, devIdx: nat, driver: DriverPc, device: DevicePc)

  /** Where every descriptor is, and the unbounded counts behind the 16-bit indices:
      free list, published but not taken, held by the device, returned but not reclaimed. */
  datatype View = View(free: seq<nat>, pending: seq<nat>, held: seq<nat>, done: seq<Elem>,
                       posted: nat, returned: nat)

  datatype Step =
    | DriverPrepare(addr: nat, len: nat, flags: nat)
    | DriverPublish
    | DriverLook
    | DriverReap
    | DeviceTake
    | DeviceWrite(i: nat, len: nat)
    | DeviceFinish

  function FilledSeq(pc: DriverPc): seq<nat> { if pc.Filled? then [pc.head] else [] }
  function WroteSeq(pc: DevicePc): seq<Elem> { if pc.Wrote? then [pc.elem] else [] }

  function IdsOf(s: seq<Elem>): seq<nat> { seq(|s|, i requires 0 <= i < |s| => s[i].id) }

  function Upto(n: nat): seq<nat> { seq(n, i => i) }

  /** How often x occurs in q. */
  function Count(q: seq<nat>, x: nat): nat {
    if q == [] then 0 else Count(q[..|q| - 1], x) + if q[|q| - 1] == x then 1 else 0
  }

  /** In how many places descriptor x is. */
  ghost function Places(st: State, v: View, x: nat): nat {
    Count(v.free, x) + Count(FilledSeq(st.driver), x) + Count(v.pending, x) + Count(v.held, x)
    + Count(IdsOf(WroteSeq(st.device)), x) + Count(IdsOf(v.done), x)
  }

  /** Every descriptor of the table is in exactly one place. */
  ghost predicate Partitioned(st: State, v: View) {
    && (forall x: nat :: Places(st, v, x) == if x < st.q.size then 1 else 0)
    && |v.free| + |FilledSeq(st.driver)| + |v.pending| + |v.held| + |WroteSeq(st.device)| + |v.done| == st.q.size
  }

  /** The free list has as many members as numFree says; the last next field is arbitrary. */
  ghost predicate Chain(desc: seq<Desc>, freeHead: nat, numFree: nat, free: seq<nat>) {
    && numFree == |free|
    && (free != [] ==> freeHead == free[0])
    && (forall i :: 0 <= i < |free| - 1 ==> ChainAt(desc, free, i))
  }

  ghost predicate ChainAt(desc: seq<Desc>, free: seq<nat>, i: nat)
    requires i + 1 < |free|
  {
    free[i] < |desc| && desc[free[i]].next == free[i + 1]
  }

  /** A ring whose producer has counted `made` items, of which those in `items` are not consumed,
      and may have written the slot of one more. */
  ghost predicate RingOk<T(!new)>(ring: seq<T>, producer: nat, consumer: nat, items: seq<T>, next: seq<T>, made: nat) {
    && |ring| > 0 && made >= |items|
    && Holds(ring, made - |items|, items + next)
    && producer == made % WRAP && consumer == (made - |items|) % WRAP
  }

  ghost predicate Inv(st: State, v: View) {
    && Wf(st.q) && IsPow2(st.q.size)
    && Partitioned(st, v)
    && Chain(st.q.desc, st.q.freeHead, st.q.numFree, v.free)
    && RingOk(st.q.avail, st.q.availIdx, st.devIdx, v.pending, FilledSeq(st.driver), v.posted)
    && RingOk(st.q.used, st.q.usedIdx, st.q.lastUsed, v.done, WroteSeq(st.device), v.returned)
    && (st.driver.Seen? ==> v.done != [])
  }

  /** When a step may happen, judged by what its own side can see. */
  predicate Enabled(st: State, v: View, step: Step) {
    match step
    case DriverPrepare(_, _, _) => st.driver.Idle? && st.q.numFree > 0
    case DriverPublish => st.driver.Filled?
    case DriverLook => st.driver.Idle? && HasUsed(st.q)
    case DriverReap => st.driver.Seen?
    case DeviceTake => st.devIdx != st.q.availIdx
    case DeviceWrite(i, _) => st.device.Waiting? && i < |v.held|
    case DeviceFinish => st.device.Wrote?
  }

  function Next(st: State, v: View, step: Step): State
    requires Wf(st.q) && Enabled(st, v, step)
  {
    match step
    case DriverPrepare(addr, len, flags) =>
      st.(q := Prepare(st.q, addr, len, flags), driver := Filled(st.q.freeHead))
    case DriverPublish => st.(q := Publish(st.q), driver := Idle)
    case DriverLook => st.(driver := Seen)
    case DriverReap => st.(q := Reap(st.q), driver := Idle)
    case DeviceTake => st.(devIdx := (st.devIdx + 1) % WRAP)
    case DeviceWrite(i, len) =>
      var e := Elem(v.held[i], len);
      var slot := Mask(st.q, st.q.usedIdx);
      if slot >= |st.q.used| then st else st.(q := st.q.(used := st.q.used[slot := e]), device := Wrote(e))
    case DeviceFinish => st.(q := st.q.(usedIdx := (st.q.usedIdx + 1) % WRAP), device := Waiting)
  }

  /** What the device reads when it takes a buffer. */
  function TakenId(st: State): nat
    requires Wf(st.q)
  {
    var slot := Mask(st.q, st.devIdx);
    if slot < |st.q.avail| then st.q.avail[slot] else 0
  }

  function NextView(st: State, v: View, step: Step): View
    requires Wf(st.q) && Enabled(st, v, step)
  {
    match step
    case DriverPrepare(_, _, _) => if v.free == [] then v else v.(free := v.free[1..])
    case DriverPublish => v.(pending := v.pending + [st.driver.head], posted := v.posted + 1)
    case DriverLook => v
    case DriverReap => if v.done == [] then v else v.(free := [v.done[0].id] + v.free, done := v.done[1..])
    case DeviceTake => if v.pending == [] then v else v.(held := v.held + [TakenId(st)], pending := v.pending[1..])
    case DeviceWrite(i, _) => v.(held := v.held[..i] + v.held[i + 1..])
    case DeviceFinish => v.(done := v.done + [st.device.elem], returned := v.returned + 1)
  }

  // ---------------------------------------------------------------- counting

  lemma {:induction false} CountConcat(a: seq<nat>, b: seq<nat>, x: nat)
    ensures Count(a + b, x) == Count(a, x) + Count(b, x)
  {
    if b == [] {
      assert a + b == a;
    } else {
      CountConcat(a, b[..|b| - 1], x);
      assert (a + b)[..|a + b| - 1] == a + b[..|b| - 1];
    }
  }

  lemma CountOne(y: nat, x: nat)
    ensures Count([y], x) == if x == y then 1 else 0
  {
    assert [y][..0] == [];
  }

  lemma CountHead(q: seq<nat>, x: nat)
    requires q != []
    ensures Count(q, x) == Count(q[1..], x) + if x == q[0] then 1 else 0
  {
    assert q == [q[0]] + q[1..];
    CountConcat([q[0]], q[1..], x);
    CountOne(q[0], x);
  }

  lemma CountDrop(q: seq<nat>, i: nat, x: nat)
    requires i < |q|
    ensures Count(q, x) == Count(q[..i] + q[i + 1..], x) + if x == q[i] then 1 else 0
  {
    assert q == q[..i] + ([q[i]] + q[i + 1..]);
    CountConcat(q[..i], [q[i]] + q[i + 1..], x);
    CountConcat([q[i]], q[i + 1..], x);
    CountConcat(q[..i], q[i + 1..], x);
    CountOne(q[i], x);
  }

  lemma {:induction false} CountMember(q: seq<nat>, i: nat, j: nat)
    requires i < |q|
    ensures Count(q, q[i]) >= 1
    ensures i < j < |q| && q[i] == q[j] ==> Count(q, q[i]) >= 2
  {
    CountDrop(q, i, q[i]);
    if i < j < |q| && q[i] == q[j] {
      var r := q[..i] + q[i + 1..];
      assert r[j - 1] == q[j];
      CountDrop(r, j - 1, q[i]);
    }
  }

  lemma CountNone(q: seq<nat>, x: nat)
    requires Count(q, x) == 0
    ensures x !in q
  {
    forall i | 0 <= i < |q| ensures q[i] != x { CountMember(q, i, i); }
  }

  lemma {:induction false} CountUpto(n: nat, x: nat)
    ensures Count(Upto(n), x) == if x < n then 1 else 0
  {
    if n > 0 {
      CountUpto(n - 1, x);
      assert Upto(n)[..n - 1] == Upto(n - 1);
    }
  }

  lemma FreeFacts(st: State, v: View, i: nat)
    requires Inv(st, v) && i < |v.free|
    ensures v.free[i] < st.q.size
    ensures forall j :: i < j < |v.free| ==> v.free[j] != v.free[i]
  {
    var x := v.free[i];
    assert Places(st, v, x) <= 1;
    CountMember(v.free, i, i);
    forall j | i < j < |v.free| ensures v.free[j] != x { CountMember(v.free, i, j); }
  }

  lemma DoneFacts(st: State, v: View)
    requires Inv(st, v) && v.done != []
    ensures v.done[0].id < st.q.size && v.done[0].id !in v.free
  {
    var id := v.done[0].id;
    assert IdsOf(v.done)[0] == id;
    CountMember(IdsOf(v.done), 0, 0);
    assert Places(st, v, id) <= 1;
    CountNone(v.free, id);
  }

  lemma IdsCons(s: seq<Elem>)
    requires s != []
    ensures IdsOf(s) == [s[0].id] + IdsOf(s[1..])
  {
  }

  lemma IdsAppend(s: seq<Elem>, e: Elem)
    ensures IdsOf(s + [e]) == IdsOf(s) + [e.id]
  {
  }

  // ---------------------------------------------------------------- ring steps

  lemma RingWrite<T(!new)>(ring: seq<T>, producer: nat, consumer: nat, items: seq<T>, made: nat, x: T)
    requires RingOk(ring, producer, consumer, items, [], made) && IsPow2(|ring|) && |ring| < WRAP && |items| < |ring|
    ensures var slot := And(producer, |ring| - 1);
            slot < |ring| && RingOk(ring[slot := x], producer, consumer, items, [x], made)
  {
    MaskedSlot(made, |ring|);
    assert items + [] == items;
    Push(ring, made - |items|, items, x);
  }

  lemma RingPublish<T(!new)>(ring: seq<T>, producer: nat, consumer: nat, items: seq<T>, made: nat, x: T)
    requires RingOk(ring, producer, consumer, items, [x], made)
    ensures RingOk(ring, (producer + 1) % WRAP, consumer, items + [x], [], made + 1)
  {
    assert items + [x] + [] == items + [x];
    WrapNext(made);
  }

  lemma RingConsume<T(!new)>(ring: seq<T>, producer: nat, consumer: nat, items: seq<T>, next: seq<T>, made: nat)
    requires RingOk(ring, producer, consumer, items, next, made) && IsPow2(|ring|) && |ring| < WRAP && items != []
    ensures var slot := And(consumer, |ring| - 1);
            slot < |ring| && ring[slot] == items[0]
    ensures RingOk(ring, producer, (consumer + 1) % WRAP, items[1..], next, made)
  {
    var start := made - |items|;
    MaskedSlot(start, |ring|);
    Pop(ring, start, items + next);
    assert (items + next)[1..] == items[1..] + next;
    WrapNext(start);
  }

  /** Less than a full wrap apart, the two indices are equal exactly when nothing is pending. */
  lemma RingTest<T(!new)>(ring: seq<T>, producer: nat, consumer: nat, items: seq<T>, next: seq<T>, made: nat)
    requires RingOk(ring, producer, consumer, items, next, made) && |items| < WRAP
    ensures producer == consumer <==> items == []
  {
    WrappedEqual(made - |items|, made);
  }

  // ---------------------------------------------------------------- every step keeps the invariant

  lemma PreparePlaces(st: State, v: View, step: Step)
    requires Inv(st, v) && Enabled(st, v, step) && step.DriverPrepare?
    ensures Partitioned(Next(st, v, step), NextView(st, v, step))
  {
    var st1, v1 := Next(st, v, step), NextView(st, v, step);
    forall x: nat ensures Places(st1, v1, x) == Places(st, v, x) {
      CountHead(v.free, x);
      CountOne(v.free[0], x);
    }
  }

  lemma PublishPlaces(st: State, v: View, step: Step)
    requires Inv(st, v) && Enabled(st, v, step) && step.DriverPublish?
    ensures Partitioned(Next(st, v, step), NextView(st, v, step))
  {
    var st1, v1 := Next(st, v, step), NextView(st, v, step);
    forall x: nat ensures Places(st1, v1, x) == Places(st, v, x) {
      CountConcat(v.pending, [st.driver.head], x);
    }
  }

  lemma ReapPlaces(st: State, v: View, step: Step)
    requires Inv(st, v) && Enabled(st, v, step) && step.DriverReap?
    ensures Partitioned(Next(st, v, step), NextView(st, v, step))
  {
    var st1, v1 := Next(st, v, step), NextView(st, v, step);
    forall x: nat ensures Places(st1, v1, x) == Places(st, v, x) {
      IdsCons(v.done);
      CountConcat([v.done[0].id], IdsOf(v.done[1..]), x);
      CountConcat([v.done[0].id], v.free, x);
    }
  }

  lemma TakePlaces(st: State, v: View, step: Step)
    requires Inv(st, v) && Enabled(st, v, step) && step.DeviceTake? && v.pending != [] && TakenId(st) == v.pending[0]
    ensures Partitioned(Next(st, v, step), NextView(st, v, step))
  {
    var st1, v1 := Next(st, v, step), NextView(st, v, step);
    forall x: nat ensures Places(st1, v1, x) == Places(st, v, x) {
      CountHead(v.pending, x);
      CountConcat(v.held, [v.pending[0]], x);
      CountOne(v.pending[0], x);
    }
  }

  lemma WritePlaces(st: State, v: View, step: Step)
    requires Inv(st, v) && Enabled(st, v, step) && step.DeviceWrite? && Mask(st.q, st.q.usedIdx) < |st.q.used|
    ensures Partitioned(Next(st, v, step), NextView(st, v, step))
  {
    var st1, v1 := Next(st, v, step), NextView(st, v, step);
    forall x: nat ensures Places(st1, v1, x) == Places(st, v, x) {
      CountDrop(v.held, step.i, x);
      assert IdsOf(WroteSeq(st1.device)) == [v.held[step.i]];
      CountOne(v.held[step.i], x);
    }
  }

  lemma FinishPlaces(st: State, v: View, step: Step)
    requires Inv(st, v) && Enabled(st, v, step) && step.DeviceFinish?
    ensures Partitioned(Next(st, v, step), NextView(st, v, step))
  {
    var st1, v1 := Next(st, v, step), NextView(st, v, step);
    var e := st.device.elem;
    IdsAppend(v.done, e);
    assert IdsOf(WroteSeq(st.device)) == [e.id] && IdsOf(WroteSeq(st1.device)) == [];
    forall x: nat ensures Places(st1, v1, x) == Places(st, v, x) { CountConcat(IdsOf(v.done), [e.id], x); }
  }

  lemma PrepareChain(q: Queue, free: seq<nat>, d: Desc)
    requires Chain(q.desc, q.freeHead, q.numFree, free) && free != [] && free[0] < |q.desc|
    requires forall j :: 0 < j < |free| ==> free[j] != free[0]
    ensures Chain(q.desc[free[0] := d], q.desc[free[0]].next, q.numFree - 1, free[1..])
  {
    var rest, desc := free[1..], q.desc[free[0] := d];
    if |free| > 1 { assert ChainAt(q.desc, free, 0); }
    forall i | 0 <= i < |rest| - 1 ensures ChainAt(desc, rest, i) { assert ChainAt(q.desc, free, i + 1); }
  }

  lemma PrepareKeeps(st: State, v: View, step: Step)
    requires Inv(st, v) && Enabled(st, v, step) && step.DriverPrepare?
    ensures Inv(Next(st, v, step), NextView(st, v, step))
  {
    var q, h := st.q, v.free[0];
    FreeFacts(st, v, 0);
    PreparePlaces(st, v, step);
    PrepareChain(q, v.free, Desc(step.addr, step.len, step.flags, 0));
    RingWrite(q.avail, q.availIdx, st.devIdx, v.pending, v.posted, h);
  }

  lemma PublishKeeps(st: State, v: View, step: Step)
    requires Inv(st, v) && Enabled(st, v, step) && step.DriverPublish?
    ensures Inv(Next(st, v, step), NextView(st, v, step))
  {
    var h := st.driver.head;
    PublishPlaces(st, v, step);
    RingPublish(st.q.avail, st.q.availIdx, st.devIdx, v.pending, v.posted, h);
  }

  /** The wrapped comparison of virtq_get_used is true exactly when something is pending, and so is
      the device's comparison. */
  lemma TestIsExact(st: State, v: View)
    requires Inv(st, v)
    ensures HasUsed(st.q) <==> v.done != []
    ensures st.devIdx != st.q.availIdx <==> v.pending != []
  {
    RingTest(st.q.used, st.q.usedIdx, st.q.lastUsed, v.done, WroteSeq(st.device), v.returned);
    RingTest(st.q.avail, st.q.availIdx, st.devIdx, v.pending, FilledSeq(st.driver), v.posted);
  }

  lemma ReapChain(q: Queue, free: seq<nat>, id: nat)
    requires Chain(q.desc, q.freeHead, q.numFree, free) && id < |q.desc| && id !in free
    ensures Chain(q.desc[id := q.desc[id].(next := q.freeHead)], id, q.numFree + 1, [id] + free)
  {
    var more, desc := [id] + free, q.desc[id := q.desc[id].(next := q.freeHead)];
    forall i | 0 <= i < |more| - 1 ensures ChainAt(desc, more, i) {
      if i > 0 { assert ChainAt(q.desc, free, i - 1) && free[i - 1] in free; }
    }
  }

  lemma ReapKeeps(st: State, v: View, step: Step)
    requires Inv(st, v) && Enabled(st, v, step) && step.DriverReap?
    ensures Inv(Next(st, v, step), NextView(st, v, step))
  {
    var q, id := st.q, v.done[0].id;
    DoneFacts(st, v);
    RingConsume(q.used, q.usedIdx, q.lastUsed, v.done, WroteSeq(st.device), v.returned);
    ReapChain(q, v.free, id);
    ReapPlaces(st, v, step);
  }

  /** A conforming device reads only slots the driver has written: it takes the oldest published
      buffer. */
  lemma TakeIsOldest(st: State, v: View)
    requires Inv(st, v) && st.devIdx != st.q.availIdx
    ensures v.pending != [] && TakenId(st) == v.pending[0] && TakenId(st) < st.q.size
  {
    TestIsExact(st, v);
    RingConsume(st.q.avail, st.q.availIdx, st.devIdx, v.pending, FilledSeq(st.driver), v.posted);
    CountMember(v.pending, 0, 0);
    assert Places(st, v, v.pending[0]) <= 1;
  }

  lemma TakeKeeps(st: State, v: View, step: Step)
    requires Inv(st, v) && Enabled(st, v, step) && step.DeviceTake?
    ensures Inv(Next(st, v, step), NextView(st, v, step))
  {
    TakeIsOldest(st, v);
    TakePlaces(st, v, step);
    RingConsume(st.q.avail, st.q.availIdx, st.devIdx, v.pending, FilledSeq(st.driver), v.posted);
  }

  lemma WriteKeeps(st: State, v: View, step: Step)
    requires Inv(st, v) && Enabled(st, v, step) && step.DeviceWrite?
    ensures Inv(Next(st, v, step), NextView(st, v, step))
  {
    var e, i := Elem(v.held[step.i], step.len), step.i;
    RingWrite(st.q.used, st.q.usedIdx, st.q.lastUsed, v.done, v.returned, e);
    WritePlaces(st, v, step);
  }

  lemma FinishKeeps(st: State, v: View, step: Step)
    requires Inv(st, v) && Enabled(st, v, step) && step.DeviceFinish?
    ensures Inv(Next(st, v, step), NextView(st, v, step))
  {
    var e := st.device.elem;
    FinishPlaces(st, v, step);
    RingPublish(st.q.used, st.q.usedIdx, st.q.lastUsed, v.done, v.returned, e);
  }

  lemma StepKeeps(st: State, v: View, step: Step)
    requires Inv(st, v) && Enabled(st, v, step)
    ensures Inv(Next(st, v, step), NextView(st, v, step))
  {
    match step
    case DriverPrepare(_, _, _) => PrepareKeeps(st, v, step);
    case DriverPublish => PublishKeeps(st, v, step);
    case DriverLook =>
      TestIsExact(st, v);
      forall x: nat ensures Places(st.(driver := Seen), v, x) == Places(st, v, x) {}
    case DriverReap => ReapKeeps(st, v, step);
    case DeviceTake => TakeKeeps(st, v, step);
    case DeviceWrite(_, _) => WriteKeeps(st, v, step);
    case DeviceFinish => FinishKeeps(st, v, step);
  }

  // ---------------------------------------------------------------- runs

  ghost predicate LegalRun(st: State, v: View, steps: seq<Step>)
    decreases |steps|
  {
    Wf(st.q) && (steps == [] || (Enabled(st, v, steps[0])
                                 && LegalRun(Next(st, v, steps[0]), NextView(st, v, steps[0]), steps[1..])))
  }

  ghost function Run(st: State, v: View, steps: seq<Step>): (State, View)
    requires LegalRun(st, v, steps)
    decreases |steps|
  {
    if steps == [] then (st, v) else Run(Next(st, v, steps[0]), NextView(st, v, steps[0]), steps[1..])
  }

  /** For every interleaving of driver and device the invariant holds. */
  lemma {:induction false} RunKeeps(st: State, v: View, steps: seq<Step>)
    requires Inv(st, v) && LegalRun(st, v, steps)
    ensures Inv(Run(st, v, steps).0, Run(st, v, steps).1)
    decreases |steps|
  {
    if steps != [] {
      StepKeeps(st, v, steps[0]);
      RunKeeps(Next(st, v, steps[0]), NextView(st, v, steps[0]), steps[1..]);
    }
  }

  /** A descriptor that is not on the free list keeps its address, length and flags through every
      step of either side, until it is reclaimed and filled again. */
  lemma InFlightUntouched(st: State, v: View, step: Step, x: nat)
    requires Inv(st, v) && Enabled(st, v, step) && x < st.q.size && Count(v.free, x) == 0
    ensures var d, e := st.q.desc[x], Next(st, v, step).q.desc;
            |e| == st.q.size && e[x].addr == d.addr && e[x].len == d.len && e[x].flags == d.flags
  {
    if step.DriverPrepare? {
      FreeFacts(st, v, 0);
      CountMember(v.free, 0, 0);
    }
  }

  /** What virtq_init leaves: the free list in index order and both rings empty. Ring contents and
      the last next field are whatever memory held. */
  predicate Initial(q: Queue) {
    && Wf(q) && q.freeHead == 0 && q.numFree == q.size && q.lastUsed == 0 && q.availIdx == 0 && q.usedIdx == 0
    && forall i :: 0 <= i < q.size - 1 ==> q.desc[i].next == i + 1
  }

  lemma InitialInv(q: Queue)
    requires Initial(q) && IsPow2(q.size)
    ensures Inv(State(q, 0, Idle, Waiting), View(Upto(q.size), [], [], [], 0, 0))
  {
    var st, v := State(q, 0, Idle, Waiting), View(Upto(q.size), [], [], [], 0, 0);
    forall x: nat ensures Places(st, v, x) == if x < q.size then 1 else 0 { CountUpto(q.size, x); }
    assert IdsOf([]) == [];
    forall i | 0 <= i < |v.free| - 1 ensures ChainAt(q.desc, v.free, i) {}
  }

  /** Mask is the ring position for every counter exactly when the size is a power of two. */
  lemma MaskNeedsPowerOfTwo(q: Queue)
    requires Wf(q)
    ensures (forall x: nat :: Mask(q, x) == Slot(x, q.size)) <==> IsPow2(q.size)
  {
    MaskIsModulo(q.size);
    if IsPow2(q.size) {
      forall x: nat ensures Mask(q, x) == Slot(x, q.size) { assert And(x, q.size - 1) == x % q.size; }
    } else {
      var x: nat :| And(x, q.size - 1) != x % q.size;
      assert Mask(q, x) != Slot(x, q.size);
    }
  }

  /** With three slots the fourth entry goes to slot 2 instead of slot 0. */
  lemma ThreeSlotsFail(q: Queue)
    requires Wf(q) && q.size == 3
    ensures Mask(q, 3) == 2 && Slot(3, q.size) == 0
  {
    assert And(3, 2) == 2 * And(1, 1) + 0 && And(1, 1) == 1;
  }

  // ---------------------------------------------------------------- receiving

  /** The driver program of virtio_net_recv: look, reap a descriptor, post its own buffer again,
      publish. Reaped remembers the descriptor between the two calls. */
  datatype Receiver = Receiver(st: State, v: View, reaped: seq<nat>)

  datatype RecvStep = Look | Reclaim | Repost | Post | Device(step: Step)

  predicate RecvEnabled(r: Receiver, step: RecvStep) {
    match step
    case Look => r.reaped == [] && Enabled(r.st, r.v, DriverLook)
    case Reclaim => r.reaped == [] && Enabled(r.st, r.v, DriverReap)
    case Repost => r.reaped != [] && r.st.driver.Idle? && r.st.q.numFree > 0
    case Post => r.reaped == [] && Enabled(r.st, r.v, DriverPublish)
    case Device(s) => (s.DeviceTake? || s.DeviceWrite? || s.DeviceFinish?) && Enabled(r.st, r.v, s)
  }

  const BUFFER_SIZE := 2048
  const DESC_F_WRITE := 2

  /** The queue step behind a receiver step. */
  function QueueStep(r: Receiver, buffers: seq<nat>, step: RecvStep): Step
    requires RecvEnabled(r, step)
  {
    match step
    case Look => DriverLook
    case Reclaim => DriverReap
    case Repost => DriverPrepare(if r.reaped[0] < |buffers| then buffers[r.reaped[0]] else 0, BUFFER_SIZE, DESC_F_WRITE)
    case Post => DriverPublish
    case Device(s) => s
  }

  function RecvNext(r: Receiver, buffers: seq<nat>, step: RecvStep): Receiver
    requires Wf(r.st.q) && RecvEnabled(r, step)
  {
    var s := QueueStep(r, buffers, step);
    Receiver(Next(r.st, r.v, s), NextView(r.st, r.v, s),
             match step
             case Reclaim => if r.v.done == [] then [] else [r.v.done[0].id]
             case Repost => []
             case _ => r.reaped)
  }

  /** Every descriptor not on the free list is that of one of the receive buffers: it holds the
      address, the whole length and the flag for the device to write. A descriptor just reclaimed is
      at the head of the free list. */
  ghost predicate RecvInv(r: Receiver, buffers: seq<nat>) {
    && Inv(r.st, r.v) && |buffers| <= r.st.q.size
    && (forall x: nat :: x < r.st.q.size && Count(r.v.free, x) == 0 ==> Bound(r.st.q, buffers, x))
    && (r.reaped != [] ==>
          && |r.reaped| == 1 && r.st.driver.Idle? && r.v.free != [] && r.v.free[0] == r.reaped[0]
          && r.reaped[0] < |buffers|)
  }

  ghost predicate Bound(q: Queue, buffers: seq<nat>, x: nat) {
    && x < |buffers| && x < |q.desc|
    && q.desc[x].addr == buffers[x] && q.desc[x].len == 2048 && Bit(q.desc[x].flags, 1)
  }

  /** Bit 1 of the flags makes the buffer writable for the device. */
  lemma WriteFlag()
    ensures Bit(DESC_F_WRITE, 1)
  {
  }

  /** The buffer that the device takes next is a receive buffer of 2048 bytes that it may write. */
  lemma DeviceSeesBuffer(r: Receiver, buffers: seq<nat>)
    requires RecvInv(r, buffers) && r.st.devIdx != r.st.q.availIdx
    ensures var x := TakenId(r.st);
            && x < |buffers| && x < |r.st.q.desc|
            && r.st.q.desc[x].addr == buffers[x] && r.st.q.desc[x].len == 2048 && Bit(r.st.q.desc[x].flags, 1)
  {
    TakeIsOldest(r.st, r.v);
    var x := TakenId(r.st);
    CountMember(r.v.pending, 0, 0);
    assert Places(r.st, r.v, x) <= 1;
    assert Bound(r.st.q, buffers, x);
  }

  lemma RecvKeeps(r: Receiver, buffers: seq<nat>, step: RecvStep)
    requires RecvInv(r, buffers) && RecvEnabled(r, step)
    ensures RecvInv(RecvNext(r, buffers, step), buffers)
  {
    var s := QueueStep(r, buffers, step);
    var r1 := RecvNext(r, buffers, step);
    StepKeeps(r.st, r.v, s);
    match step
    case Reclaim => ReclaimKeeps(r, buffers);
    case Repost => RepostKeeps(r, buffers);
    case _ =>
      forall x: nat | x < r1.st.q.size && Count(r1.v.free, x) == 0 ensures Bound(r1.st.q, buffers, x) {
        assert Bound(r.st.q, buffers, x);
      }
  }

  lemma ReclaimKeeps(r: Receiver, buffers: seq<nat>)
    requires RecvInv(r, buffers) && RecvEnabled(r, Reclaim)
    ensures var r1 := RecvNext(r, buffers, Reclaim);
            && (forall x: nat :: x < r1.st.q.size && Count(r1.v.free, x) == 0 ==> Bound(r1.st.q, buffers, x))
            && |r1.reaped| == 1 && r1.v.free != [] && r1.v.free[0] == r1.reaped[0] && r1.reaped[0] < |buffers|
  {
    var r1, id := RecvNext(r, buffers, Reclaim), r.v.done[0].id;
    DoneFacts(r.st, r.v);
    RingConsume(r.st.q.used, r.st.q.usedIdx, r.st.q.lastUsed, r.v.done, WroteSeq(r.st.device), r.v.returned);
    assert Count(r.v.free, id) == 0 by {
      CountMember(IdsOf(r.v.done), 0, 0);
      assert IdsOf(r.v.done)[0] == id;
      assert Places(r.st, r.v, id) <= 1;
    }
    assert Bound(r.st.q, buffers, id);
    forall x: nat | x < r1.st.q.size && Count(r1.v.free, x) == 0 ensures Bound(r1.st.q, buffers, x) {
      CountConcat([id], r.v.free, x);
      CountOne(id, x);
      assert Bound(r.st.q, buffers, x);
    }
  }

  /** The re-post takes the descriptor that was just reclaimed, for the same buffer. */
  lemma RepostKeeps(r: Receiver, buffers: seq<nat>)
    requires RecvInv(r, buffers) && RecvEnabled(r, Repost)
    ensures var r1 := RecvNext(r, buffers, Repost);
            && (forall x: nat :: x < r1.st.q.size && Count(r1.v.free, x) == 0 ==> Bound(r1.st.q, buffers, x))
            && r1.st.driver == Filled(r.reaped[0])
  {
    var r1, id := RecvNext(r, buffers, Repost), r.reaped[0];
    WriteFlag();
    FreeFacts(r.st, r.v, 0);
    RingWrite(r.st.q.avail, r.st.q.availIdx, r.st.devIdx, r.v.pending, r.v.posted, id);
    forall x: nat | x < r1.st.q.size && Count(r1.v.free, x) == 0 ensures Bound(r1.st.q, buffers, x) {
      CountHead(r.v.free, x);
      if x != id { assert Bound(r.st.q, buffers, x); }
    }
  }

  ghost predicate RecvLegal(r: Receiver, buffers: seq<nat>, steps: seq<RecvStep>)
    decreases |steps|
  {
    && Wf(r.st.q)
    && (steps == [] || (RecvEnabled(r, steps[0]) && RecvLegal(RecvNext(r, buffers, steps[0]), buffers, steps[1..])))
  }

  ghost function RecvRun(r: Receiver, buffers: seq<nat>, steps: seq<RecvStep>): Receiver
    requires RecvLegal(r, buffers, steps)
    decreases |steps|
  {
    if steps == [] then r else RecvRun(RecvNext(r, buffers, steps[0]), buffers, steps[1..])
  }

  /** However the device interleaves, descriptor i keeps holding receive buffer i. */
  lemma {:induction false} RecvRunKeeps(r: Receiver, buffers: seq<nat>, steps: seq<RecvStep>)
    requires RecvInv(r, buffers) && RecvLegal(r, buffers, steps)
    ensures RecvInv(RecvRun(r, buffers, steps), buffers)
    decreases |steps|
  {
    if steps != [] {
      RecvKeeps(r, buffers, steps[0]);
      RecvRunKeeps(RecvNext(r, buffers, steps[0]), buffers, steps[1..]);
    }
  }

  /** Where the descriptors are after one whole virtq_add_buffer. */
  ghost function PostView(v: View): View {
    if v.free == [] then v
    else v.(free := v.free[1..], pending := v.pending + [v.free[0]], posted := v.posted + 1)
  }

  lemma PostKeeps(st: State, v: View, addr: nat, len: nat, flags: nat)
    requires Inv(st, v) && st.driver.Idle? && v.free != []
    ensures Inv(st.(q := Publish(Prepare(st.q, addr, len, flags))), PostView(v))
    ensures Prepare(st.q, addr, len, flags).size == st.q.size
    ensures v.free[0] < st.q.size
    ensures Prepare(st.q, addr, len, flags).desc == st.q.desc[v.free[0] := Desc(addr, len, flags, 0)]
  {
    var s := DriverPrepare(addr, len, flags);
    PrepareKeeps(st, v, s);
    PublishKeeps(Next(st, v, s), NextView(st, v, s), DriverPublish);
    FreeFacts(st, v, 0);
    RingWrite(st.q.avail, st.q.availIdx, st.devIdx, v.pending, v.posted, v.free[0]);
  }

  /** virtq_get_used when something was returned. */
  lemma TakeBackKeeps(st: State, v: View)
    requires Inv(st, v) && st.driver.Idle? && v.done != []
    ensures Inv(st.(q := Reap(st.q)), v.(free := [v.done[0].id] + v.free, done := v.done[1..]))
  {
    var seen := st.(driver := Seen);
    assert Inv(seen, v) by { assert forall x: nat :: Places(seen, v, x) == Places(st, v, x); }
    ReapKeeps(seen, v, DriverReap);
  }

  lemma OldestReturned(st: State, v: View)
    requires Inv(st, v) && v.done != []
    ensures var slot := Mask(st.q, st.q.lastUsed); slot < st.q.size && st.q.used[slot] == v.done[0]
  {
    RingConsume(st.q.used, st.q.usedIdx, st.q.lastUsed, v.done, WroteSeq(st.device), v.returned);
  }

  /** From a fresh queue, buffers posted in order land in descriptors of the same number. */
  lemma {:induction false} PostedInOrder(st: State, v: View, buffers: seq<nat>, n: nat) returns (st1: State, v1: View)
    requires Inv(st, v) && st.driver.Idle? && n <= |buffers| <= st.q.size && v.free == Upto(st.q.size)[n..]
    requires forall x: nat :: x < n ==> Bound(st.q, buffers, x)
    ensures Inv(st1, v1) && st1.driver.Idle? && st1.q.size == st.q.size && v1.free == Upto(st.q.size)[|buffers|..]
    ensures forall x: nat :: x < |buffers| ==> Bound(st1.q, buffers, x)
    decreases |buffers| - n
  {
    if n == |buffers| {
      st1, v1 := st, v;
    } else {
      WriteFlag();
      PostKeeps(st, v, buffers[n], BUFFER_SIZE, DESC_F_WRITE);
      var st2, v2 := st.(q := Publish(Prepare(st.q, buffers[n], BUFFER_SIZE, DESC_F_WRITE))), PostView(v);
      assert v.free[0] == n;
      forall x: nat | x < n + 1 ensures Bound(st2.q, buffers, x) { assert x < n ==> Bound(st.q, buffers, x); }
      st1, v1 := PostedInOrder(st2, v2, buffers, n + 1);
    }
  }

  /** So the starting point of the receive theorem is reached. */
  lemma PostedRecvInv(q: Queue, buffers: seq<nat>) returns (r: Receiver)
    requires Initial(q) && IsPow2(q.size) && |buffers| <= q.size
    ensures RecvInv(r, buffers) && r.reaped == [] && r.v.free == Upto(q.size)[|buffers|..]
  {
    InitialInv(q);
    var st, v := PostedInOrder(State(q, 0, Idle, Waiting), View(Upto(q.size), [], [], [], 0, 0), buffers, 0);
    r := Receiver(st, v, []);
    forall x: nat | x < q.size && Count(v.free, x) == 0 ensures Bound(st.q, buffers, x) {
      UnfreeIsPosted(q.size, |buffers|, x);
    }
  }

  lemma UnfreeIsPosted(size: nat, n: nat, x: nat)
    requires n <= size && x < size && Count(Upto(size)[n..], x) == 0
    ensures x < n
  {
    if x >= n {
      var free := Upto(size)[n..];
      assert free[x - n] == x;
      CountMember(free, x - n, x - n);
    }
  }

  // ---------------------------------------------------------------- the driver's code

  /** The invariant gives the driver what its calls rely on: a free head inside the table, and a
      used element that names a descriptor. */
  lemma CallsAreSafe(st: State, v: View)
    requires Inv(st, v)
    ensures st.q.numFree > 0 ==> st.q.freeHead < st.q.size
    ensures HasUsed(st.q) ==> var slot := Mask(st.q, st.q.lastUsed); slot < st.q.size && st.q.used[slot].id < st.q.size
  {
    if st.q.numFree > 0 { FreeFacts(st, v, 0); }
    TestIsExact(st, v);
    if HasUsed(st.q) {
      DoneFacts(st, v);
      RingConsume(st.q.used, st.q.usedIdx, st.q.lastUsed, v.done, WroteSeq(st.device), v.returned);
    }
  }

  lemma {:induction false} AndBound(a: nat, b: nat)
    ensures And(a, b) <= b
  {
    if a > 0 && b > 0 { AndBound(a / 2, b / 2); }
  }

  class Virtq {
    var size: nat
    var desc: seq<Desc>
    var freeHead: nat
    var numFree: nat
    var lastUsed: nat
    var avail: seq<nat>
    var availIdx: nat
    var used: seq<Elem>
    var usedIdx: nat
    /** The device's side, and where every descriptor is. */
    ghost var devIdx: nat
    ghost var device: DevicePc
    ghost var view: View

    function Q(): Queue
      reads this
    {
      Queue(size, desc, freeHead, numFree, lastUsed, avail, availIdx, used, usedIdx)
    }

    /** The driver is between two calls. */
    ghost function Abs(): State
      reads this
    {
      State(Q(), devIdx, Idle, device)
    }

    ghost predicate Valid()
      reads this
    {
      Inv(Abs(), view)
    }

    /** virtq_init over memory that may hold anything. */
    constructor (size: nat, table: seq<Desc>, availRing: seq<nat>, usedRing: seq<Elem>)
      requires 0 < size < WRAP && |table| == size && |availRing| == size && |usedRing| == size
      ensures Initial(Q()) && this.size == size && avail == availRing && used == usedRing
      ensures IsPow2(size) ==> Valid() && view == View(Upto(size), [], [], [], 0, 0)
    {
      this.size, desc, avail, used := size, table, availRing, usedRing;
      freeHead, numFree, lastUsed, availIdx, usedIdx := 0, size, 0, 0, 0;
      devIdx, device, view := 0, Waiting, View(Upto(size), [], [], [], 0, 0);
      new;
      for i := 0 to size - 1
        invariant |desc| == size && this.size == size && avail == availRing && used == usedRing
        invariant devIdx == 0 && device == Waiting && view == View(Upto(size), [], [], [], 0, 0)
        invariant freeHead == 0 && numFree == size && lastUsed == 0 && availIdx == 0 && usedIdx == 0
        invariant forall j :: 0 <= j < i ==> desc[j].next == j + 1
      {
        desc := desc[i := desc[i].(next := i + 1)];
      }
      if IsPow2(size) { InitialInv(Q()); }
    }

    method AddBuffer(addr: nat, len: nat, flags: nat) returns (r: int)
      requires Valid()
      modifies this`freeHead, this`numFree, this`desc, this`avail, this`availIdx, this`view
      ensures Valid()
      ensures if old(view.free) == [] then r == -1 && Q() == old(Q()) && view == old(view)
              else && r == old(view.free[0]) && Q() == Publish(Prepare(old(Q()), addr, len, flags))
                   && view == old(view).(free := old(view.free[1..]), pending := old(view.pending) + [r as nat],
                                         posted := old(view.posted) + 1)
    {
      if numFree == 0 {
        return -1;
      }
      CallsAreSafe(Abs(), view);
      PostKeeps(Abs(), view, addr, len, flags);
      r := Post(addr, len, flags);
      view := PostView(view);
    }

    /** The part after the test for free descriptors. */
    method Post(addr: nat, len: nat, flags: nat) returns (head: nat)
      requires Wf(Q()) && numFree > 0 && freeHead < size
      modifies this`freeHead, this`numFree, this`desc, this`avail, this`availIdx
      ensures head == old(freeHead) && Q() == Publish(Prepare(old(Q()), addr, len, flags))
    {
      head := freeHead;
      freeHead := desc[head].next;
      numFree := numFree - 1;
      desc := desc[head := Desc(addr, len, flags, 0)];
      AndBound(availIdx, size - 1);
      var slot := And(availIdx, size - 1);
      avail := avail[slot := head];
      availIdx := (availIdx + 1) % WRAP;
    }

    method GetUsed() returns (r: int, len: nat)
      requires Valid()
      modifies this`lastUsed, this`desc, this`freeHead, this`numFree, this`view
      ensures Valid()
      ensures if old(view.done) == [] then r == -1 && Q() == old(Q()) && view == old(view)
              else && r == old(view.done[0].id) && len == old(view.done[0].len) && Q() == Reap(old(Q()))
                   && view == old(view).(free := [r as nat] + old(view.free), done := old(view.done[1..]))
    {
      len := 0;
      TestIsExact(Abs(), view);
      if lastUsed == usedIdx {
        return -1, len;
      }
      CallsAreSafe(Abs(), view);
      OldestReturned(Abs(), view);
      TakeBackKeeps(Abs(), view);
      r, len := TakeBack();
      view := view.(free := [view.done[0].id] + view.free, done := view.done[1..]);
    }

    /** The part after the test for returned buffers. */
    method TakeBack() returns (id: nat, len: nat)
      requires Wf(Q()) && Mask(Q(), lastUsed) < size && used[Mask(Q(), lastUsed)].id < size
      modifies this`lastUsed, this`desc, this`freeHead, this`numFree
      ensures Elem(id, len) == old(used[Mask(Q(), lastUsed)]) && Q() == Reap(old(Q()))
    {
      var slot := And(lastUsed, size - 1);
      id, len := used[slot].id, used[slot].len;
      lastUsed := (lastUsed + 1) % WRAP;
      desc := desc[id := desc[id].(next := freeHead)];
      freeHead := id;
      numFree := numFree + 1;
    }
  }
}
