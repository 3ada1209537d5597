/** The process table: 64 slots, process ids from a counter, and a two-page kernel stack for each
    live process, taken from the page bitmap. */
module ProcessTable {
  import opened Kernel
  import opened Pmm

  const STACK_PAGES := 2

  /** The fields of a process that creation and destruction manage; the stack is a page number. */
  datatype Slot = Slot(live: bool, pid: nat, stack: nat)

  datatype State = State(slots: seq<Slot>, nextPid: nat, used: set<nat>)

  /** The first unused slot from i on, or SLOTS. */
  function FreeSlot(slots: seq<Slot>, i: nat): (r: nat)
    requires i <= |slots|
    ensures i <= r <= |slots| && (r < |slots| ==> !slots[r].live)
    ensures forall j :: i <= j < r ==> slots[j].live
    decreases |slots| - i
  {
    if i == |slots| || !slots[i].live then i else FreeSlot(slots, i + 1)
  }

  ghost function StackWindow(used: set<nat>): nat { FirstWindow(used, RESERVED_PAGES, STACK_PAGES) }

  /** process_create_kernel_thread: the slot, or |slots| when it fails. */
  ghost function Create(st: State): (State, nat) {
    var i, w := FreeSlot(st.slots, 0), StackWindow(st.used);
    if i == |st.slots| || w == MAX_PAGES then (st, |st.slots|)
    else (State(st.slots[i := Slot(true, st.nextPid, w)], st.nextPid + 1, st.used + Range(w, w + STACK_PAGES)), i)
  }

  ghost function Destroy(st: State, i: nat): State
    requires i < |st.slots|
  {
    var s := st.slots[i];
    if !s.live then st
    else State(st.slots[i := Slot(false, 0, s.stack)], st.nextPid, st.used - Range(s.stack, s.stack + STACK_PAGES))
  }

  ghost predicate OnStack(st: State, i: nat, p: nat) {
    i < |st.slots| && st.slots[i].live && Within(st.slots[i].stack, p, st.slots[i].stack + STACK_PAGES)
  }

  ghost predicate OnSomeStack(st: State, p: nat) { exists i :: OnStack(st, i, p) }

  /** Live processes have distinct ids below the counter and stacks of their own; all used pages are
      stacks or were used by others. */
  ghost predicate Inv(st: State, base: set<nat>) {
    && |st.slots| == SLOTS && st.nextPid > 0 && base <= st.used
    && (forall i :: 0 <= i < SLOTS && st.slots[i].live ==>
          0 < st.slots[i].pid < st.nextPid && st.slots[i].stack >= RESERVED_PAGES)
    && (forall i, j :: 0 <= i < j < SLOTS && st.slots[i].live && st.slots[j].live ==>
          st.slots[i].pid != st.slots[j].pid)
    && (forall i, p :: OnStack(st, i, p) ==> p in st.used && p !in base)
    && (forall i, j, p :: OnStack(st, i, p) && OnStack(st, j, p) ==> i == j)
    && (forall p :: p in st.used ==> p in base || OnSomeStack(st, p))
  }

  lemma CreateKeeps(st: State, base: set<nat>)
    requires Inv(st, base)
    ensures Inv(Create(st).0, base)
  {
    var i, w := FreeSlot(st.slots, 0), StackWindow(st.used);
    if i < SLOTS && w != MAX_PAGES {
      FirstWindowIsLowest(st.used, RESERVED_PAGES, STACK_PAGES, w);
      var m := Create(st).0;
      forall j, p | OnStack(m, j, p)
        ensures p in m.used && p !in base && if j == i then p !in st.used else OnStack(st, j, p)
      {
        if j == i { assert p in Range(w, w + STACK_PAGES); } else { assert OnStack(st, j, p); }
      }
      forall p | p in m.used ensures p in base || OnSomeStack(m, p) {
        if p in st.used {
          if p !in base {
            var j :| OnStack(st, j, p);
            assert OnStack(m, j, p);
          }
        } else {
          assert OnStack(m, i, p);
        }
      }
    }
  }

  lemma DestroyKeeps(st: State, base: set<nat>, i: nat)
    requires Inv(st, base) && i < SLOTS
    ensures Inv(Destroy(st, i), base)
  {
    if st.slots[i].live {
      var m, s := Destroy(st, i), st.slots[i].stack;
      forall p ensures p in Range(s, s + STACK_PAGES) <==> OnStack(st, i, p) {}
      forall j, p | OnStack(m, j, p) ensures OnStack(st, j, p) && p in m.used {
        assert OnStack(st, j, p) && (p !in m.used ==> OnStack(st, i, p));
      }
      forall p | p in base ensures p in m.used { assert p !in m.used ==> OnStack(st, i, p); }
      forall p | p in m.used ensures p in base || OnSomeStack(m, p) {
        if p !in base {
          var j :| OnStack(st, j, p);
          assert OnStack(m, j, p);
        }
      }
    }
  }

  /** Creation fails exactly when the table is full or no two adjacent pages are free. */
  lemma CreateFailsExact(st: State)
    requires |st.slots| == 64
    ensures Create(st).1 == 64 <==>
              (forall i :: 0 <= i < 64 ==> st.slots[i].live)
              || (forall w: nat :: 512 <= w < 65535 ==> w in st.used || w + 1 in st.used)
  {
    forall w: nat | 512 <= w < 65535 ensures w in st.used || w + 1 in st.used || StackWindow(st.used) != MAX_PAGES {
      TwoFree(st.used, w);
    }
    if StackWindow(st.used) != MAX_PAGES { StackIsFree(st.used); }
  }

  lemma TwoFree(used: set<nat>, w: nat)
    requires 512 <= w < 65535
    ensures w !in used && w + 1 !in used ==> StackWindow(used) != MAX_PAGES
  {
    WindowExactly(used, 2, w);
  }

  lemma StackIsFree(used: set<nat>)
    requires StackWindow(used) != MAX_PAGES
    ensures var w := StackWindow(used); 512 <= w < 65535 && w !in used && w + 1 !in used
  {
    WindowExactly(used, 2, 0);
  }

  /** A new process takes the first unused slot, the next pid and two adjacent free pages above 2 MB;
      everything else stays. */
  lemma CreateEffect(st: State)
    requires |st.slots| == 64
    ensures var (m, i) := Create(st);
            if i == 64 then m == st
            else && i < 64 && !st.slots[i].live && (forall j :: 0 <= j < i ==> st.slots[j].live)
                 && m.slots == st.slots[i := m.slots[i]] && m.slots[i].live
                 && m.slots[i].pid == st.nextPid && m.nextPid == st.nextPid + 1
                 && var w := m.slots[i].stack;
                    && 512 <= w < 65535 && w !in st.used && w + 1 !in st.used
                    && forall p :: p in m.used <==> p in st.used || p == w || p == w + 1
  {
    if Create(st).1 != 64 { StackIsFree(st.used); }
  }

  /** Destruction frees the slot and the two pages of its stack, and nothing else. */
  lemma DestroyEffect(st: State, i: nat)
    requires i < |st.slots| && st.slots[i].live
    ensures var m, w := Destroy(st, i), st.slots[i].stack;
            && !m.slots[i].live && m.slots == st.slots[i := m.slots[i]] && m.nextPid == st.nextPid
            && forall p :: p in m.used <==> p in st.used && p != w && p != w + 1
  {
  }

  // ---------------------------------------------------------------- runs

  /** Other parts of the kernel take and give back pages of their own in between. */
  datatype Op = OpCreate | OpDestroy(i: nat) | OpTake(pages: set<nat>) | OpGive(pages: set<nat>)

  ghost predicate Legal(st: State, base: set<nat>, op: Op) {
    match op
    case OpCreate => true
    case OpDestroy(i) => i < |st.slots|
    case OpTake(pages) => pages !! st.used
    case OpGive(pages) => pages <= base
  }

  ghost function Step(st: State, base: set<nat>, op: Op): (State, set<nat>)
    requires Legal(st, base, op)
  {
    match op
    case OpCreate => (Create(st).0, base)
    case OpDestroy(i) => (Destroy(st, i), base)
    case OpTake(pages) => (st.(used := st.used + pages), base + pages)
    case OpGive(pages) => (st.(used := st.used - pages), base - pages)
  }

  lemma OthersKeep(st: State, base: set<nat>, used1: set<nat>, base1: set<nat>)
    requires Inv(st, base) && base1 <= used1
    requires forall p :: p in st.used && p !in base <==> p in used1 && p !in base1
    ensures Inv(st.(used := used1), base1)
  {
    var m := st.(used := used1);
    forall i, p | OnStack(m, i, p) ensures OnStack(st, i, p) { assert OnStack(st, i, p); }
    forall p | p in used1 ensures p in base1 || OnSomeStack(m, p) {
      if p !in base1 {
        var j :| OnStack(st, j, p);
        assert OnStack(m, j, p);
      }
    }
  }

  ghost predicate LegalRun(st: State, base: set<nat>, ops: seq<Op>)
    decreases |ops|
  {
    ops == [] || (Legal(st, base, ops[0])
                  && LegalRun(Step(st, base, ops[0]).0, Step(st, base, ops[0]).1, ops[1..]))
  }

  ghost function Run(st: State, base: set<nat>, ops: seq<Op>): (State, set<nat>)
    requires LegalRun(st, base, ops)
    decreases |ops|
  {
    if ops == [] then (st, base) else Run(Step(st, base, ops[0]).0, Step(st, base, ops[0]).1, ops[1..])
  }

  lemma StepKeeps(st: State, base: set<nat>, op: Op)
    requires Inv(st, base) && Legal(st, base, op)
    ensures Inv(Step(st, base, op).0, Step(st, base, op).1)
  {
    match op
    case OpCreate => CreateKeeps(st, base);
    case OpDestroy(i) => DestroyKeeps(st, base, i);
    case OpTake(pages) => OthersKeep(st, base, st.used + pages, base + pages);
    case OpGive(pages) => OthersKeep(st, base, st.used - pages, base - pages);
  }

  /** Over every run the invariant holds, and once no process is live the pages in use are exactly
      those of others. */
  lemma {:induction false} RunKeeps(st: State, base: set<nat>, ops: seq<Op>)
    requires Inv(st, base) && LegalRun(st, base, ops)
    ensures var (m, b) := Run(st, base, ops);
            Inv(m, b) && ((forall i :: 0 <= i < SLOTS ==> !m.slots[i].live) ==> m.used == b)
    decreases |ops|
  {
    if ops == [] {
      if forall i :: 0 <= i < SLOTS ==> !st.slots[i].live {
        forall p | p in st.used ensures p in base { assert !OnSomeStack(st, p); }
      }
    } else {
      StepKeeps(st, base, ops[0]);
      RunKeeps(Step(st, base, ops[0]).0, Step(st, base, ops[0]).1, ops[1..]);
    }
  }

  // ---------------------------------------------------------------- the table

  lemma PageNumber(p: nat)
    ensures p * PAGE_SIZE / PAGE_SIZE == p
  {
  }

  class Table {
    var slots: seq<Slot>
    var nextPid: nat
    const pmm: Manager

    ghost function Abs(): State
      reads this, pmm`used
    {
      State(slots, nextPid, pmm.used)
    }

    constructor (pmm: Manager)
      requires pmm.Valid()
      ensures this.pmm == pmm && Inv(Abs(), pmm.used)
      ensures forall i :: 0 <= i < SLOTS ==> !slots[i].live
    {
      this.pmm, slots, nextPid := pmm, seq(SLOTS, _ => Slot(false, 0, 0)), 1;
    }

    method AllocSlot() returns (i: nat)
      ensures i == FreeSlot(slots, 0)
    {
      i := 0;
      while i < |slots|
        invariant i <= |slots| && FreeSlot(slots, 0) == FreeSlot(slots, i)
      {
        if !slots[i].live {
          return;
        }
        i := i + 1;
      }
    }

    /** The new process's slot, or |slots| for NULL. */
    method CreateThread() returns (i: nat)
      requires pmm.Valid()
      modifies this, pmm`usedPages, pmm`used, pmm.bitmap
      ensures pmm.Valid() && (Abs(), i) == Create(old(Abs()))
    {
      i := AllocSlot();
      if i == |slots| {
        return;
      }
      FirstWindowIsLowest(pmm.used, RESERVED_PAGES, STACK_PAGES, 0);
      var stack := pmm.AllocPages(STACK_PAGES);
      if stack == 0 {
        return |slots|;
      }
      PageNumber(StackWindow(old(pmm.used)));
      slots := slots[i := Slot(true, nextPid, stack / PAGE_SIZE)];
      nextPid := nextPid + 1;
    }

    method DestroyThread(i: nat)
      requires pmm.Valid() && i < |slots| && (slots[i].live ==> slots[i].stack > 0)
      modifies this`slots, pmm`usedPages, pmm`used, pmm.bitmap
      ensures pmm.Valid() && Abs() == Destroy(old(Abs()), i)
    {
      if !slots[i].live {
        return;
      }
      if slots[i].stack != 0 {
        pmm.FreePages(slots[i].stack * PAGE_SIZE, STACK_PAGES);
      }
      slots := slots[i := Slot(false, 0, slots[i].stack)];
    }

    /** process_get: by uniqueness of ids, the one live process with the id, or |slots|. */
    method Get(pid: nat, ghost base: set<nat>) returns (i: nat)
      requires Inv(Abs(), base)
      ensures i <= |slots|
      ensures i < |slots| ==> slots[i].live && slots[i].pid == pid
      ensures forall j :: 0 <= j < |slots| && slots[j].live && slots[j].pid == pid ==> j == i
    {
      i := 0;
      while i < |slots|
        invariant i <= |slots|
        invariant forall j :: 0 <= j < i ==> !(slots[j].live && slots[j].pid == pid)
      {
        if slots[i].live && slots[i].pid == pid {
          return;
        }
        i := i + 1;
      }
    }
  }
}
