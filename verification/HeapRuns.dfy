/** Runs of the allocator by a client: what every run keeps, and exactly which calls break what. */
module HeapRuns {
  import opened Kernel
  import opened Layout

  datatype Op = OpMalloc(n: nat) | OpFree(ptr: nat) | OpRealloc(ptr: nat, n: nat)

  /** The heap with the client's ledger, outstanding pointers and the sizes asked for, and the
      counter heap_used_size. */
  datatype State = State(L: Blocks, asks: map<nat, nat>, used: int)

  ghost predicate HasLive(L: Blocks, p: nat) { exists size :: Live(L, p, size) }

  /** The ledger lists exactly the live blocks, none smaller than asked. */
  ghost predicate Backs(L: Blocks, asks: map<nat, nat>) {
    && (forall p, size :: Live(L, p, size) ==> p in asks && asks[p] <= size)
    && (forall p :: p in asks ==> HasLive(L, p))
  }

  ghost predicate Inv(st: State, base: nat, end: nat) {
    Tiles(st.L, base, end) && Backs(st.L, st.asks)
  }

  /** The client frees and reallocates only what it owns, asks for sizes that align_size does not
      wrap, and stays off the growth in place. */
  predicate Legal(st: State, op: Op) {
    match op
    case OpMalloc(n) => n <= WORD - 8
    case OpFree(ptr) => ptr == 0 || ptr in st.asks
    case OpRealloc(ptr, n) => (ptr == 0 || ptr in st.asks) && n <= WORD - 8 && !GrowsInPlace(st.L, ptr, n)
  }

  function Grant(asks: map<nat, nat>, p: nat, n: nat): map<nat, nat> {
    if p == 0 then asks else asks[p := n]
  }

  function Step(st: State, op: Op): State {
    match op
    case OpMalloc(n) =>
      var (L, p) := Malloc(st.L, n);
      State(L, Grant(st.asks, p, n), st.used + MallocCharge(st.L, n))
    case OpFree(ptr) => State(Free(st.L, ptr), st.asks - {ptr}, st.used - FreeCredit(st.L, ptr))
    case OpRealloc(ptr, n) =>
      var (L, p) := Realloc(st.L, ptr, n);
      State(L, if ptr == 0 then Grant(st.asks, p, n)
               else if n == 0 then st.asks - {ptr}
               else if p == 0 then st.asks
               else (st.asks - {ptr})[p := n],
            st.used + ReallocCharge(st.L, ptr, n))
  }

  lemma MallocBacks(L: Blocks, base: nat, end: nat, asks: map<nat, nat>, n: nat, asked: nat)
    requires Tiles(L, base, end) && Backs(L, asks) && asked <= AlignSize(n)
    ensures var (M, q) := Malloc(L, n);
            && Backs(M, Grant(asks, q, asked))
            && (q != 0 ==> q !in asks)
  {
    var (M, q) := Malloc(L, n);
    var asks1 := Grant(asks, q, asked);
    forall p, size | Live(M, p, size) ensures p in asks1 && asks1[p] <= size {
      MallocLive(L, base, end, n, p, size);
    }
    forall p | p in asks1 ensures HasLive(M, p) {
      if p == q {
        MallocLive(L, base, end, n, p, 0);
      } else {
        var size :| Live(L, p, size);
        MallocLive(L, base, end, n, p, size);
      }
    }
    if q != 0 && q in asks {
      var size :| Live(L, q, size);
      MallocLive(L, base, end, n, q, size);
      assert false;
    }
  }

  lemma FreeBacks(L: Blocks, base: nat, end: nat, asks: map<nat, nat>, ptr: nat)
    requires Tiles(L, base, end) && Backs(L, asks)
    ensures Backs(Free(L, ptr), asks - {ptr})
  {
    forall p, size | Live(Free(L, ptr), p, size) ensures p in asks - {ptr} && asks[p] <= size {
      FreeLive(L, base, end, ptr, p, size);
    }
    forall p | p in asks - {ptr} ensures HasLive(Free(L, ptr), p) {
      var size :| Live(L, p, size);
      FreeLive(L, base, end, ptr, p, size);
    }
  }

  lemma ShrinkBacks(L: Blocks, base: nat, end: nat, asks: map<nat, nat>, ptr: nat, k: nat, asked: nat)
    requires Tiles(L, base, end) && Backs(L, asks) && ptr in asks && asked <= k
    requires var i := IndexOf(L, ptr); i < |L| && !L[i].free && k <= L[i].size
    ensures Backs(Split(L, IndexOf(L, ptr), k), (asks - {ptr})[ptr := asked])
  {
    var i := IndexOf(L, ptr);
    var S, asks1 := Split(L, i, k), (asks - {ptr})[ptr := asked];
    AllOrdered(L, base, end);
    forall p: nat, size: nat | Live(S, p, size) ensures p in asks1 && asks1[p] <= size {
      SplitLive(L, base, end, i, k, p, size);
      if p == ptr && !Splits(L[i], k) {
        var j :| LiveAt(L, j, p, size);
        assert j == i;
      }
    }
    forall p | p in asks1 ensures HasLive(S, p) {
      var size :| Live(L, p, size);
      SplitLive(L, base, end, i, k, p, if p == ptr && Splits(L[i], k) then k else size);
    }
  }

  /** A pointer in the ledger is found by its header. */
  lemma OwnedIsLive(L: Blocks, base: nat, end: nat, asks: map<nat, nat>, ptr: nat)
    requires Tiles(L, base, end) && Backs(L, asks) && ptr in asks
    ensures var i := IndexOf(L, ptr); i < |L| && !L[i].free && L[i].Ptr() == ptr && asks[ptr] <= L[i].size
  {
    assert HasLive(L, ptr);
    var size :| Live(L, ptr, size);
    var j :| LiveAt(L, j, ptr, size);
    AllOrdered(L, base, end);
    assert IndexOf(L, ptr) == j;
  }

  lemma ReallocBacks(st: State, base: nat, end: nat, ptr: nat, n: nat)
    requires Inv(st, base, end) && Legal(st, OpRealloc(ptr, n)) && ptr != 0 && n != 0
    ensures Backs(Step(st, OpRealloc(ptr, n)).L, Step(st, OpRealloc(ptr, n)).asks)
  {
    var L, asks, k := st.L, st.asks, AlignSize(n);
    AlignSizeServes(n);
    OwnedIsLive(L, base, end, asks, ptr);
    var i := IndexOf(L, ptr);
    if k <= L[i].size {
      ShrinkBacks(L, base, end, asks, ptr, k, n);
    } else {
      AlignSizeServes(k);
      var (M, q) := Malloc(L, k);
      MallocBacks(L, base, end, asks, k, n);
      MallocTiles(L, base, end, k);
      if q != 0 {
        FreeBacks(M, base, end, asks[q := n], ptr);
        assert (asks[q := n]) - {ptr} == (asks - {ptr})[q := n];
      }
    }
  }

  lemma StepKeepsInv(st: State, base: nat, end: nat, op: Op)
    requires Inv(st, base, end) && Legal(st, op)
    ensures Inv(Step(st, op), base, end)
  {
    match op
    case OpMalloc(n) =>
      AlignSizeServes(n);
      MallocTiles(st.L, base, end, n);
      MallocBacks(st.L, base, end, st.asks, n, n);
    case OpFree(ptr) =>
      FreeTiles(st.L, base, end, ptr);
      FreeBacks(st.L, base, end, st.asks, ptr);
    case OpRealloc(ptr, n) =>
      ReallocTiles(st.L, base, end, ptr, n);
      AlignSizeServes(n);
      if ptr == 0 {
        MallocBacks(st.L, base, end, st.asks, n, n);
      } else if n == 0 {
        FreeBacks(st.L, base, end, st.asks, ptr);
      } else {
        ReallocBacks(st, base, end, ptr, n);
      }
  }

  predicate LegalRun(st: State, ops: seq<Op>)
    decreases |ops|
  {
    ops == [] || (Legal(st, ops[0]) && LegalRun(Step(st, ops[0]), ops[1..]))
  }

  function Run(st: State, ops: seq<Op>): State
    decreases |ops|
  {
    if ops == [] then st else Run(Step(st, ops[0]), ops[1..])
  }

  /** Over every legal run the blocks tile the heap and back the ledger. */
  lemma {:induction false} RunKeepsInv(st: State, base: nat, end: nat, ops: seq<Op>)
    requires Inv(st, base, end) && LegalRun(st, ops)
    ensures Inv(Run(st, ops), base, end)
    decreases |ops|
  {
    if ops != [] {
      StepKeepsInv(st, base, end, ops[0]);
      RunKeepsInv(Step(st, ops[0]), base, end, ops[1..]);
    }
  }

  /** What the invariant means to the client: aligned payloads inside the heap, as large as asked,
      and separated by at least a header. */
  lemma PayloadsDisjoint(st: State, base: nat, end: nat, p: nat, q: nat)
    requires Inv(st, base, end) && p in st.asks && q in st.asks && p < q
    ensures p % 8 == 0 && q % 8 == 0 && base + HEADER <= p && q + st.asks[q] <= end
    ensures p + st.asks[p] + HEADER <= q
  {
    OwnedIsLive(st.L, base, end, st.asks, p);
    OwnedIsLive(st.L, base, end, st.asks, q);
    BlocksApart(st.L, base, end, IndexOf(st.L, p), IndexOf(st.L, q));
  }

  lemma BlocksApart(L: Blocks, base: nat, end: nat, i: nat, j: nat)
    requires Tiles(L, base, end) && i < |L| && j < |L| && L[i].addr < L[j].addr
    ensures L[i].addr % 8 == 0 && L[j].addr % 8 == 0 && base <= L[i].addr && L[j].End() <= end
    ensures L[i].End() <= L[j].addr
  {
    AllOrdered(L, base, end);
    Aligned(L, base, end, i);
    Aligned(L, base, end, j);
  }

  // ---------------------------------------------------------------- neighbours

  predicate MeetsFree(L: Blocks, op: Op) { op.OpRealloc? && ShrinkMeetsFree(L, op.ptr, op.n) }

  lemma StepCoalescedExact(st: State, base: nat, end: nat, op: Op)
    requires Inv(st, base, end) && Legal(st, op) && Coalesced(st.L)
    ensures Coalesced(Step(st, op).L) <==> !MeetsFree(st.L, op)
  {
    match op
    case OpMalloc(n) => MallocCoalesced(st.L, n);
    case OpFree(ptr) => FreeCoalesced(st.L, ptr);
    case OpRealloc(ptr, n) =>
      if ptr != 0 { OwnedIsLive(st.L, base, end, st.asks, ptr); }
      ReallocCoalescedExact(st.L, ptr, n);
  }

  /** No krealloc of the run cuts off a free block in front of a free one. */
  predicate NeverMeetsFree(st: State, ops: seq<Op>)
    decreases |ops|
  {
    ops == [] || (!MeetsFree(st.L, ops[0]) && NeverMeetsFree(Step(st, ops[0]), ops[1..]))
  }

  /** Every state of the run, the last included. */
  ghost predicate AlwaysCoalesced(st: State, ops: seq<Op>)
    decreases |ops|
  {
    Coalesced(st.L) && (ops == [] || AlwaysCoalesced(Step(st, ops[0]), ops[1..]))
  }

  /** Free neighbours appear in a run exactly when some krealloc cuts one off. */
  lemma {:induction false} RunCoalescedExact(st: State, base: nat, end: nat, ops: seq<Op>)
    requires Inv(st, base, end) && LegalRun(st, ops) && Coalesced(st.L)
    ensures AlwaysCoalesced(st, ops) <==> NeverMeetsFree(st, ops)
    ensures NeverMeetsFree(st, ops) ==> Coalesced(Run(st, ops).L)
    decreases |ops|
  {
    if ops != [] {
      StepKeepsInv(st, base, end, ops[0]);
      StepCoalescedExact(st, base, end, ops[0]);
      if !MeetsFree(st.L, ops[0]) { RunCoalescedExact(Step(st, ops[0]), base, end, ops[1..]); }
    }
  }

  // ---------------------------------------------------------------- the counter

  /** By how much heap_used_size exceeds the bytes of live blocks. */
  function Excess(st: State): int { st.used - Bytes(st.L, false) }

  /** The bytes a legal call takes from live blocks without crediting them. */
  function Slip(L: Blocks, op: Op): nat {
    if op.OpRealloc? && ShrinkSplits(L, op.ptr, op.n) then L[IndexOf(L, op.ptr)].size - AlignSize(op.n) else 0
  }

  lemma StepCounts(st: State, base: nat, end: nat, op: Op)
    requires Inv(st, base, end) && Legal(st, op)
    ensures Excess(Step(st, op)) == Excess(st) + Slip(st.L, op)
  {
    match op
    case OpMalloc(n) => MallocBytes(st.L, n);
    case OpFree(ptr) => FreeBytes(st.L, ptr);
    case OpRealloc(ptr, n) =>
      if ptr != 0 { OwnedIsLive(st.L, base, end, st.asks, ptr); }
      ReallocBytesExact(st.L, ptr, n);
  }

  /** No krealloc of the run shrinks a block by splitting it. */
  predicate NeverShrinks(st: State, ops: seq<Op>)
    decreases |ops|
  {
    ops == [] || (Slip(st.L, ops[0]) == 0 && NeverShrinks(Step(st, ops[0]), ops[1..]))
  }

  lemma {:induction false} RunExcess(st: State, base: nat, end: nat, ops: seq<Op>)
    requires Inv(st, base, end) && LegalRun(st, ops)
    ensures Excess(Run(st, ops)) >= Excess(st)
    ensures Excess(Run(st, ops)) == Excess(st) <==> NeverShrinks(st, ops)
    decreases |ops|
  {
    if ops != [] {
      StepCounts(st, base, end, ops[0]);
      StepKeepsInv(st, base, end, ops[0]);
      RunExcess(Step(st, ops[0]), base, end, ops[1..]);
    }
  }

  /** From a right counter, heap_used_size is the bytes of the live blocks and heap_total_size minus
      it the bytes of the free ones, exactly when no block was shrunk by splitting; otherwise it is
      too large for good. */
  lemma RunCountsExact(st: State, base: nat, end: nat, ops: seq<Op>)
    requires Inv(st, base, end) && LegalRun(st, ops) && st.used == Bytes(st.L, false)
    ensures var r := Run(st, ops);
            && r.used >= Bytes(r.L, false)
            && (r.used == Bytes(r.L, false) <==> NeverShrinks(st, ops))
            && ((end - base) - r.used == Bytes(r.L, true) <==> NeverShrinks(st, ops))
  {
    RunExcess(st, base, end, ops);
    RunKeepsInv(st, base, end, ops);
    BytesAddUp(Run(st, ops).L, base, end);
  }

  lemma EmptyLedgerNoBytes(st: State, base: nat, end: nat)
    requires Inv(st, base, end) && st.asks == map[]
    ensures Bytes(st.L, false) == 0
  {
    forall i | 0 <= i < |st.L| ensures st.L[i].free {
      if !st.L[i].free {
        assert LiveAt(st.L, i, st.L[i].Ptr(), st.L[i].size);
        assert Live(st.L, st.L[i].Ptr(), st.L[i].size);
        assert false;
      }
    }
    AllFreeNoBytes(st.L);
  }

  lemma {:induction false} AllFreeNoBytes(L: Blocks)
    requires forall i :: 0 <= i < |L| ==> L[i].free
    ensures Bytes(L, false) == 0
  {
    if L != [] { AllFreeNoBytes(L[..|L| - 1]); }
  }

  /** A run that gives everything back ends in the initial block, whatever the order, as long as no
      krealloc left free neighbours; the counter is back at 0 if none split a block. */
  lemma RunRestoresHeap(st: State, base: nat, end: nat, ops: seq<Op>)
    requires Inv(st, base, end) && LegalRun(st, ops) && Coalesced(st.L) && NeverMeetsFree(st, ops)
    requires st.used == Bytes(st.L, false) && Run(st, ops).asks == map[]
    ensures base + HEADER <= end && Run(st, ops).L == [Block(base, end - base - HEADER, true)]
    ensures Run(st, ops).used == 0 <==> NeverShrinks(st, ops)
  {
    RunKeepsInv(st, base, end, ops);
    RunCoalescedExact(st, base, end, ops);
    RunCountsExact(st, base, end, ops);
    EmptyLedgerNoBytes(Run(st, ops), base, end);
    AllFreed(Run(st, ops).L, base, end);
  }

  /** What heap_init leaves for the range [base, end) after alignment. */
  function Fresh(base: nat, end: nat): State
    requires base + HEADER <= end
  {
    State([Block(base, end - base - HEADER, true)], map[], 0)
  }

  /** The run theorems start from every heap_init. */
  lemma FreshInv(base: nat, end: nat)
    requires 0 < base && base + HEADER <= end && base % 8 == 0 && (end - base) % 8 == 0
    ensures var st := Fresh(base, end);
            Inv(st, base, end) && Coalesced(st.L) && st.used == Bytes(st.L, false)
  {
    var L := Fresh(base, end).L;
    BytesOne(L[0], false);
    assert forall p, size, i :: !LiveAt(L, i, p, size);
  }

  // ---------------------------------------------------------------- where krealloc goes wrong

  /** A page of heap at address 4096. */
  function Page(): State { Fresh(4096, 8192) }

  /** The page after one allocation. */
  function Carved(n: nat): State
    requires n <= 128
  {
    State([Block(4096, n, false), Block(4128 + n, 4032 - n, true)], map[4128 := n], 32 + n)
  }

  lemma PageMalloc(n: nat)
    requires 0 < n <= 128 && n % 8 == 0
    ensures Step(Page(), OpMalloc(n)) == Carved(n)
  {
    assert AlignSize(n) == n;
    var L := Page().L;
    assert FirstFit(L, n) == 0;
    assert Split(L, 0, n) == [Block(4096, n, true), Block(4128 + n, 4032 - n, true)];
  }

  lemma CarvedInv(n: nat)
    requires 0 < n <= 128 && n % 8 == 0
    ensures Inv(Carved(n), 4096, 8192) && Coalesced(Carved(n).L) && Excess(Carved(n)) == 0
  {
    FreshInv(4096, 8192);
    PageMalloc(n);
    StepKeepsInv(Page(), 4096, 8192, OpMalloc(n));
    StepCoalescedExact(Page(), 4096, 8192, OpMalloc(n));
    StepCounts(Page(), 4096, 8192, OpMalloc(n));
  }

  /** The block after the first 8-byte allocation is free, so asking for 16 bytes grows in place. */
  lemma GrowthFails()
    ensures Legal(Page(), OpMalloc(8)) && Step(Page(), OpMalloc(8)) == Carved(8)
    ensures var st := Carved(8);
            var L := Realloc(st.L, 4128, 16).0;
            && 4128 in st.asks && !Tiles(L, 4096, 8192)
            && st.used + ReallocCharge(st.L, 4128, 16) < Bytes(L, false)
  {
    PageMalloc(8);
    CarvedInv(8);
    assert GrowsInPlace(Carved(8).L, 4128, 16);
    ReallocTiles(Carved(8).L, 4096, 8192, 4128, 16);
    ReallocBytesExact(Carved(8).L, 4128, 16);
  }

  /** Shrinking a 128-byte allocation to 8 bytes cuts a block off in front of the free rest of the
      page, and leaves the counter 120 bytes too high. */
  lemma ShrinkFails()
    ensures Legal(Page(), OpMalloc(128)) && Step(Page(), OpMalloc(128)) == Carved(128)
    ensures Legal(Carved(128), OpRealloc(4128, 8))
    ensures var r := Step(Carved(128), OpRealloc(4128, 8)); !Coalesced(r.L) && Excess(r) == 120
  {
    PageMalloc(128);
    CarvedInv(128);
    assert MeetsFree(Carved(128).L, OpRealloc(4128, 8));
    StepCoalescedExact(Carved(128), 4096, 8192, OpRealloc(4128, 8));
    StepCounts(Carved(128), 4096, 8192, OpRealloc(4128, 8));
  }

  /** Freeing it then gives everything back, yet two blocks remain and the counter is not 0. */
  lemma RestoringFails()
    ensures var st := Step(Step(Carved(128), OpRealloc(4128, 8)), OpFree(4128));
            && Legal(Step(Carved(128), OpRealloc(4128, 8)), OpFree(4128))
            && st.asks == map[] && st.used == 120
            && st.L == [Block(4096, 128, true), Block(4256, 3904, true)]
  {
    var cut := [Block(4096, 8, false), Block(4136, 88, true), Block(4256, 3904, true)];
    ShrinkOnPage(cut);
    FreeOnPage(cut);
  }

  lemma ShrinkOnPage(cut: Blocks)
    requires cut == [Block(4096, 8, false), Block(4136, 88, true), Block(4256, 3904, true)]
    ensures Step(Carved(128), OpRealloc(4128, 8)) == State(cut, map[4128 := 8], 160)
  {
    var L := Carved(128).L;
    assert AlignSize(8) == 8 && IndexOf(L, 4128) == 0;
    assert Split(L, 0, 8) == cut;
  }

  lemma FreeOnPage(cut: Blocks)
    requires cut == [Block(4096, 8, false), Block(4136, 88, true), Block(4256, 3904, true)]
    ensures Step(State(cut, map[4128 := 8], 160), OpFree(4128))
            == State([Block(4096, 128, true), Block(4256, 3904, true)], map[], 120)
  {
    assert IndexOf(cut, 4128) == 0;
    var F := SetFree(cut, 0, true);
    assert F == [Block(4096, 8, true), Block(4136, 88, true), Block(4256, 3904, true)];
    assert Merge(F, 0) == [Block(4096, 128, true), Block(4256, 3904, true)];
  }
}
