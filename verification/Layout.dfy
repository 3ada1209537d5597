/** The kernel heap seen as a sequence of blocks in address order, each a 32-byte header followed
    by its payload, and the allocator's operations on that sequence. */
module Layout {
  import opened Kernel

  const HEADER := 32
  const MIN_BLOCK := 48

  datatype Block = Block(addr: nat, size: nat, free: bool) {
    function End(): nat { addr + HEADER + size }
    function Ptr(): nat { addr + HEADER }
    predicate InHeader(x: nat) { addr <= x < addr + HEADER }
    predicate InPayload(x: nat) { addr + HEADER <= x < End() }
  }

  type Blocks = seq<Block>

  /** align_size in 64-bit arithmetic: it wraps to 0 for the seven largest sizes. */
  function AlignSize(n: nat): nat {
    var m := (n + 7) % WORD;
    m - m % 8
  }

  lemma AlignSizeAligned(n: nat)
    ensures AlignSize(n) % 8 == 0 && AlignSize(n) < WORD
  {
    RoundedDown((n + 7) % WORD);
  }

  lemma RoundedDown(m: nat)
    ensures 0 <= m - m % 8 <= m && (m - m % 8) % 8 == 0
  {
    assert m - m % 8 == 8 * (m / 8);
  }

  /** Rounding up serves the request exactly when it does not wrap. */
  lemma AlignSizeServes(n: nat)
    requires n < WORD
    ensures AlignSize(n) % 8 == 0
    ensures AlignSize(n) >= n <==> n <= 0xFFFF_FFFF_FFFF_FFF8
    ensures n <= 0xFFFF_FFFF_FFFF_FFF8 ==> AlignSize(n) < n + 8
    ensures n > 0xFFFF_FFFF_FFFF_FFF8 ==> AlignSize(n) == 0
  {
  }

  // ---------------------------------------------------------------- tiling

  /** The blocks cover [base, end) exactly, in address order. */
  ghost predicate Tiles(L: Blocks, base: nat, end: nat) {
    && |L| > 0 && L[0].addr == base && base % 8 == 0 && base > 0
    && L[|L| - 1].End() == end
    && (forall i :: 0 <= i < |L| - 1 ==> Abuts(L, i))
    && (forall i :: 0 <= i < |L| ==> L[i].size % 8 == 0)
  }

  /** Block i ends where the next one starts. */
  ghost predicate Abuts(L: Blocks, i: int)
    requires 0 <= i < |L| - 1
  {
    L[i].End() == L[i + 1].addr
  }

  lemma {:induction false} Ordered(L: Blocks, base: nat, end: nat, i: nat, j: nat)
    requires Tiles(L, base, end) && i < j < |L|
    ensures L[i].End() <= L[j].addr
    decreases j - i
  {
    assert Abuts(L, j - 1);
    if i + 1 < j { Ordered(L, base, end, i, j - 1); }
  }

  lemma AllOrdered(L: Blocks, base: nat, end: nat)
    requires Tiles(L, base, end)
    ensures forall i, j :: 0 <= i < j < |L| ==> L[i].End() <= L[j].addr
    ensures forall i :: 0 <= i < |L| ==> base <= L[i].addr && L[i].End() <= end
  {
    forall i, j | 0 <= i < j < |L| ensures L[i].End() <= L[j].addr { Ordered(L, base, end, i, j); }
    forall i | 0 <= i < |L| ensures base <= L[i].addr && L[i].End() <= end {
      if i > 0 { Ordered(L, base, end, 0, i); }
      if i < |L| - 1 { Ordered(L, base, end, i, |L| - 1); }
    }
  }

  lemma SumAligned(a: nat, b: nat)
    requires a % 8 == 0 && b % 8 == 0
    ensures (a + HEADER + b) % 8 == 0
  {
  }

  lemma {:induction false} Aligned(L: Blocks, base: nat, end: nat, i: nat)
    requires Tiles(L, base, end) && i < |L|
    ensures L[i].addr % 8 == 0
  {
    if i > 0 {
      Aligned(L, base, end, i - 1);
      assert Abuts(L, i - 1);
      SumAligned(L[i - 1].addr, L[i - 1].size);
    }
  }

  /** Every address of the heap lies in exactly one block; this finds it. */
  lemma {:induction false} BlockAt(L: Blocks, base: nat, end: nat, x: nat, k: nat) returns (i: nat)
    requires Tiles(L, base, end) && k < |L| && base <= x < L[k].End()
    ensures i <= k && L[i].addr <= x < L[i].End()
    decreases k
  {
    if L[k].addr <= x {
      i := k;
    } else {
      assert k > 0 && Abuts(L, k - 1);
      i := BlockAt(L, base, end, x, k - 1);
    }
  }

  // ---------------------------------------------------------------- operations

  /** The first free block from index i on that is large enough, or |L|. */
  function FitFrom(L: Blocks, n: nat, i: nat): (r: nat)
    requires i <= |L|
    ensures i <= r <= |L| && (r < |L| ==> L[r].free && L[r].size >= n)
    ensures forall j :: i <= j < r ==> !(L[j].free && L[j].size >= n)
    decreases |L| - i
  {
    if i == |L| || (L[i].free && L[i].size >= n) then i else FitFrom(L, n, i + 1)
  }

  function FirstFit(L: Blocks, n: nat): nat { FitFrom(L, n, 0) }

  /** The index of the block whose header is at addr, or |L|. */
  function IndexFrom(L: Blocks, addr: nat, i: nat): (r: nat)
    requires i <= |L|
    ensures i <= r <= |L| && (r < |L| ==> L[r].addr == addr)
    ensures forall j :: i <= j < r ==> L[j].addr != addr
    decreases |L| - i
  {
    if i == |L| || L[i].addr == addr then i else IndexFrom(L, addr, i + 1)
  }

  function IndexOf(L: Blocks, ptr: nat): nat {
    if ptr < HEADER then |L| else IndexFrom(L, ptr - HEADER, 0)
  }

  predicate Splits(b: Block, n: nat) { b.size >= n + MIN_BLOCK }

  /** The block cut to n bytes, and the free block behind it. */
  function SplitPair(b: Block, n: nat): Blocks
    requires Splits(b, n)
  {
    [b.(size := n), Block(b.addr + HEADER + n, b.size - n - HEADER, true)]
  }

  function Split(L: Blocks, i: nat, n: nat): Blocks
    requires i < |L|
  {
    if !Splits(L[i], n) then L
    else L[..i] + SplitPair(L[i], n) + L[i + 1..]
  }

  /** Block i swallows block i + 1. */
  function Merge(L: Blocks, i: nat): Blocks
    requires i + 1 < |L|
  {
    L[..i] + [L[i].(size := L[i].size + HEADER + L[i + 1].size)] + L[i + 2..]
  }

  function SetFree(L: Blocks, i: nat, free: bool): Blocks
    requires i < |L|
  {
    L[i := L[i].(free := free)]
  }

  function MergeNext(L: Blocks, i: nat): Blocks
    requires i < |L|
  {
    if i + 1 < |L| && L[i + 1].free then Merge(L, i) else L
  }

  function MergePrev(L: Blocks, i: nat): Blocks
    requires i < |L|
  {
    if i > 0 && L[i - 1].free then Merge(L, i - 1) else L
  }

  function Coalesce(L: Blocks, i: nat): Blocks
    requires i < |L|
  {
    MergePrev(MergeNext(L, i), i)
  }

  function Malloc(L: Blocks, n: nat): (Blocks, nat) {
    var i := FirstFit(L, AlignSize(n));
    if n == 0 || i == |L| then (L, 0)
    else (SetFree(Split(L, i, AlignSize(n)), i, false), L[i].Ptr())
  }

  function Free(L: Blocks, ptr: nat): Blocks {
    var i := IndexOf(L, ptr);
    if i == |L| || L[i].free then L else Coalesce(SetFree(L, i, true), i)
  }

  /** The guard of krealloc's growth in place. */
  predicate GrowsInPlace(L: Blocks, ptr: nat, n: nat) {
    var i := IndexOf(L, ptr);
    && ptr != 0 && n != 0 && i + 1 < |L|
    && AlignSize(n) > L[i].size
    && L[i + 1].free && L[i].size + HEADER + L[i + 1].size >= AlignSize(n)
  }

  /** What the growth leaves: block i resized over its still linked neighbour. */
  function Grown(L: Blocks, i: nat, k: nat): Blocks
    requires i + 1 < |L|
  {
    L[i := L[i].(size := k)][i + 1 := L[i + 1].(free := false)]
  }

  function Realloc(L: Blocks, ptr: nat, n: nat): (Blocks, nat) {
    var i := IndexOf(L, ptr);
    var k := AlignSize(n);
    if ptr == 0 then Malloc(L, n)
    else if n == 0 then (Free(L, ptr), 0)
    else if i == |L| then (L, 0)
    else if k <= L[i].size then (Split(L, i, k), ptr)
    else if GrowsInPlace(L, ptr, n) then (Grown(L, i, k), ptr)
    else
      var (L1, p) := Malloc(L, k);
      if p == 0 then (L, 0) else (Free(L1, ptr), p)
  }

  // What each call adds to heap_used_size. kmalloc charges for the block as split_block left it and
  // kfree credits the block before it is merged; krealloc's own branches never touch the counter.

  function MallocCharge(L: Blocks, n: nat): nat {
    var i, k := FirstFit(L, AlignSize(n)), AlignSize(n);
    if n == 0 || i == |L| then 0 else HEADER + if Splits(L[i], k) then k else L[i].size
  }

  function FreeCredit(L: Blocks, ptr: nat): nat {
    var i := IndexOf(L, ptr);
    if i == |L| || L[i].free then 0 else HEADER + L[i].size
  }

  function ReallocCharge(L: Blocks, ptr: nat, n: nat): int {
    var i, k := IndexOf(L, ptr), AlignSize(n);
    if ptr == 0 then MallocCharge(L, n)
    else if n == 0 then 0 - FreeCredit(L, ptr)
    else if i == |L| || k <= L[i].size || GrowsInPlace(L, ptr, n) || Malloc(L, k).1 == 0 then 0
    else MallocCharge(L, k) - FreeCredit(Malloc(L, k).0, ptr)
  }

  /** krealloc's shrink path cuts off a free block. */
  predicate ShrinkSplits(L: Blocks, ptr: nat, n: nat) {
    var i := IndexOf(L, ptr);
    ptr != 0 && n != 0 && i < |L| && AlignSize(n) <= L[i].size && Splits(L[i], AlignSize(n))
  }

  /** It does so in front of a block that is free. */
  predicate ShrinkMeetsFree(L: Blocks, ptr: nat, n: nat) {
    ShrinkSplits(L, ptr, n) && var i := IndexOf(L, ptr); i + 1 < |L| && L[i + 1].free
  }

  // ---------------------------------------------------------------- entry by entry

  /** S is L with block i split at n, entry by entry. */
  ghost predicate IsSplit(L: Blocks, i: nat, n: nat, S: Blocks) {
    && i < |L| && Splits(L[i], n) && |S| == |L| + 1
    && forall j {:trigger S[j]} :: 0 <= j < |S| ==>
         S[j] == if j < i then L[j]
                 else if j == i then L[i].(size := n)
                 else if j == i + 1 then Block(L[i].addr + HEADER + n, L[i].size - n - HEADER, true)
                 else L[j - 1]
  }

  lemma SplitIs(L: Blocks, i: nat, n: nat)
    requires i < |L| && Splits(L[i], n)
    ensures IsSplit(L, i, n, Split(L, i, n))
  {
    var front, pair, rest := L[..i], SplitPair(L[i], n), L[i + 1..];
    assert Split(L, i, n) == front + pair + rest && |front| == i && |pair| == 2;
    forall j | 0 <= j < |L| + 1 && j < i ensures (front + pair + rest)[j] == L[j] {}
    forall j | i + 2 <= j < |L| + 1 ensures (front + pair + rest)[j] == L[j - 1] {
      assert (front + pair + rest)[j] == rest[j - i - 2];
    }
  }

  /** M is L with block i + 1 swallowed by block i, entry by entry. */
  ghost predicate IsMerge(L: Blocks, i: nat, M: Blocks) {
    && i + 1 < |L| && |M| == |L| - 1
    && forall j {:trigger M[j]} :: 0 <= j < |M| ==>
         M[j] == if j < i then L[j]
                 else if j == i then L[i].(size := L[i].size + HEADER + L[i + 1].size)
                 else L[j + 1]
  }

  lemma MergeIs(L: Blocks, i: nat)
    requires i + 1 < |L|
    ensures IsMerge(L, i, Merge(L, i))
  {
  }

  // ---------------------------------------------------------------- every operation keeps the tiling

  lemma SplitTiles(L: Blocks, base: nat, end: nat, i: nat, n: nat)
    requires Tiles(L, base, end) && i < |L| && n % 8 == 0
    ensures Tiles(Split(L, i, n), base, end)
  {
    if Splits(L[i], n) {
      SplitIs(L, i, n);
      SplitTilesAt(L, base, end, i, n, Split(L, i, n));
    }
  }

  lemma SplitTilesAt(L: Blocks, base: nat, end: nat, i: nat, n: nat, S: Blocks)
    requires Tiles(L, base, end) && n % 8 == 0 && IsSplit(L, i, n, S)
    ensures Tiles(S, base, end)
  {
    assert (L[i].size - n - HEADER) % 8 == 0;
    forall j | 0 <= j < |S| - 1 ensures Abuts(S, j) {
      var o := if j <= i then j else j - 1;
      if o < |L| - 1 { assert Abuts(L, o); }
    }
  }

  lemma MergeTiles(L: Blocks, base: nat, end: nat, i: nat)
    requires Tiles(L, base, end) && i + 1 < |L|
    ensures Tiles(Merge(L, i), base, end)
  {
    var M := Merge(L, i);
    assert Abuts(L, i);
    forall j | 0 <= j < |M| - 1 ensures Abuts(M, j) {
      assert Abuts(L, if j < i then j else j + 1);
    }
  }

  lemma MallocTiles(L: Blocks, base: nat, end: nat, n: nat)
    requires Tiles(L, base, end)
    ensures Tiles(Malloc(L, n).0, base, end)
  {
    var i := FirstFit(L, AlignSize(n));
    AlignSizeAligned(n);
    if i < |L| {
      SplitTiles(L, base, end, i, AlignSize(n));
      SetFreeTiles(Split(L, i, AlignSize(n)), base, end, i, false);
    }
  }

  lemma CoalesceTiles(L: Blocks, base: nat, end: nat, i: nat)
    requires Tiles(L, base, end) && i < |L|
    ensures Tiles(Coalesce(L, i), base, end)
  {
    if i + 1 < |L| && L[i + 1].free { MergeTiles(L, base, end, i); }
    var M := MergeNext(L, i);
    if i > 0 && M[i - 1].free { MergeTiles(M, base, end, i - 1); }
  }

  lemma SetFreeTiles(L: Blocks, base: nat, end: nat, i: nat, free: bool)
    requires Tiles(L, base, end) && i < |L|
    ensures Tiles(SetFree(L, i, free), base, end)
  {
    forall j | 0 <= j < |L| - 1 ensures Abuts(SetFree(L, i, free), j) { assert Abuts(L, j); }
  }

  lemma FreeTiles(L: Blocks, base: nat, end: nat, ptr: nat)
    requires Tiles(L, base, end)
    ensures Tiles(Free(L, ptr), base, end)
  {
    var i := IndexOf(L, ptr);
    if i < |L| && !L[i].free {
      SetFreeTiles(L, base, end, i, true);
      CoalesceTiles(SetFree(L, i, true), base, end, i);
    }
  }

  lemma GrowthBreaksTiles(L: Blocks, base: nat, end: nat, i: nat, k: nat)
    requires Tiles(L, base, end) && i + 1 < |L| && k > L[i].size
    ensures !Tiles(Grown(L, i, k), base, end)
  {
    var M := Grown(L, i, k);
    assert Abuts(L, i) && !Abuts(M, i);
  }

  /** krealloc keeps the tiling exactly when it does not grow a block in place: that branch
      enlarges the block over its still linked neighbour. */
  lemma ReallocTiles(L: Blocks, base: nat, end: nat, ptr: nat, n: nat)
    requires Tiles(L, base, end)
    ensures Tiles(Realloc(L, ptr, n).0, base, end) <==> !GrowsInPlace(L, ptr, n)
  {
    var i, k := IndexOf(L, ptr), AlignSize(n);
    if ptr == 0 {
      MallocTiles(L, base, end, n);
    } else if n == 0 {
      FreeTiles(L, base, end, ptr);
    } else if i < |L| {
      if k <= L[i].size {
        SplitTiles(L, base, end, i, k);
      } else if GrowsInPlace(L, ptr, n) {
        GrowthBreaksTiles(L, base, end, i, k);
      } else {
        MallocTiles(L, base, end, k);
        FreeTiles(Malloc(L, k).0, base, end, ptr);
      }
    }
  }

  // ---------------------------------------------------------------- when an allocation fails

  ghost predicate Coalesced(L: Blocks) {
    forall i :: 0 <= i < |L| - 1 ==> !(L[i].free && L[i + 1].free)
  }

  lemma MallocCoalesced(L: Blocks, n: nat)
    requires Coalesced(L)
    ensures Coalesced(Malloc(L, n).0)
  {
    var k := AlignSize(n);
    var i := FirstFit(L, k);
    if i < |L| {
      var S := Split(L, i, k);
      assert forall j :: 0 <= j < |S| && j != i ==>
          S[j] == if j < i || !Splits(L[i], k) then L[j]
                  else if j == i + 1 then Block(L[i].addr + HEADER + k, L[i].size - k - HEADER, true)
                  else L[j - 1];
    }
  }

  /** At most the pairs touching index i are both free. */
  ghost predicate CoalescedBut(L: Blocks, i: nat) {
    forall j :: 0 <= j < |L| - 1 && j != i && j + 1 != i ==> !(L[j].free && L[j + 1].free)
  }

  lemma MergeNextCoalesced(L: Blocks, i: nat)
    requires i < |L| && L[i].free && CoalescedBut(L, i)
    ensures var M := MergeNext(L, i);
            i < |M| && M[i].free && CoalescedBut(M, i) && (i + 1 < |M| ==> !M[i + 1].free) && M[..i] == L[..i]
  {
    var M := MergeNext(L, i);
    assert forall j :: 0 <= j < |M| && j != i ==> M[j] == if j < i then L[j] else L[j + |L| - |M|];
  }

  lemma MergePrevCoalesced(L: Blocks, i: nat)
    requires i < |L| && L[i].free && CoalescedBut(L, i) && (i + 1 < |L| ==> !L[i + 1].free)
    ensures Coalesced(MergePrev(L, i))
  {
    var M := MergePrev(L, i);
    if |M| < |L| {
      assert forall j :: 0 <= j < |M| && j != i - 1 ==> M[j] == if j < i then L[j] else L[j + 1];
    }
  }

  lemma FreeCoalesced(L: Blocks, ptr: nat)
    requires Coalesced(L)
    ensures Coalesced(Free(L, ptr))
  {
    var i := IndexOf(L, ptr);
    if i < |L| && !L[i].free {
      var F := SetFree(L, i, true);
      MergeNextCoalesced(F, i);
      MergePrevCoalesced(MergeNext(F, i), i);
    }
  }

  /** [x, x + len) lies in the heap and touches no live block, header included. */
  ghost predicate Gap(L: Blocks, base: nat, end: nat, x: nat, len: nat) {
    && base <= x && x + len <= end
    && forall i :: 0 <= i < |L| && !L[i].free ==> x + len <= L[i].addr || L[i].End() <= x
  }

  ghost predicate HasGap(L: Blocks, base: nat, end: nat, len: nat) {
    exists x :: Gap(L, base, end, x, len)
  }

  /** In a coalesced heap kmalloc fails exactly when no gap between live blocks has room for a
      header and the aligned request. */
  lemma MallocFailsWhenNoGap(L: Blocks, base: nat, end: nat, n: nat)
    requires Tiles(L, base, end) && Coalesced(L) && n > 0
    ensures Malloc(L, n).1 == 0 <==> !HasGap(L, base, end, HEADER + AlignSize(n))
  {
    var k := AlignSize(n);
    var i := FirstFit(L, k);
    AllOrdered(L, base, end);
    if i < |L| {
      assert Gap(L, base, end, L[i].addr, HEADER + k);
      assert L[i].Ptr() != 0;
    } else {
      var len := HEADER + k;
      forall x ensures !Gap(L, base, end, x, len) {
        if Gap(L, base, end, x, len) { GapFitsInOneBlock(L, base, end, x, k); }
      }
    }
  }

  lemma GapFitsInOneBlock(L: Blocks, base: nat, end: nat, x: nat, k: nat)
    requires Tiles(L, base, end) && Coalesced(L) && Gap(L, base, end, x, HEADER + k)
    ensures exists j :: 0 <= j < |L| && L[j].free && L[j].size >= k
  {
    var j := BlockAt(L, base, end, x, |L| - 1);
    assert L[j].free;
    assert j + 1 < |L| ==> Abuts(L, j) && !L[j + 1].free;
    assert x + HEADER + k <= L[j].End();
  }

  // ---------------------------------------------------------------- accounting

  /** Bytes of live blocks (free == false) or of free blocks, headers included. */
  function Bytes(L: Blocks, free: bool): nat {
    if L == [] then 0
    else Bytes(L[..|L| - 1], free) + if L[|L| - 1].free == free then HEADER + L[|L| - 1].size else 0
  }

  lemma {:induction false} BytesConcat(A: Blocks, B: Blocks, free: bool)
    ensures Bytes(A + B, free) == Bytes(A, free) + Bytes(B, free)
  {
    if B == [] {
      assert A + B == A;
    } else {
      BytesConcat(A, B[..|B| - 1], free);
      assert (A + B)[..|A + B| - 1] == A + B[..|B| - 1];
    }
  }

  lemma BytesAround(L: Blocks, i: nat, j: nat, M: Blocks, free: bool)
    requires i <= j <= |L|
    ensures Bytes(L[..i] + M + L[j..], free) == Bytes(L, free) - Bytes(L[i..j], free) + Bytes(M, free)
  {
    BytesConcat(L[..i] + M, L[j..], free);
    BytesConcat(L[..i], M, free);
    assert L == L[..i] + L[i..j] + L[j..];
    BytesConcat(L[..i] + L[i..j], L[j..], free);
    BytesConcat(L[..i], L[i..j], free);
  }

  function Cost(b: Block, free: bool): nat { if b.free == free then HEADER + b.size else 0 }

  lemma BytesOne(b: Block, free: bool)
    ensures Bytes([b], free) == Cost(b, free)
  {
    assert [b][..0] == [];
  }

  lemma BytesTwo(b: Block, c: Block, free: bool)
    ensures Bytes([b, c], free) == Cost(b, free) + Cost(c, free)
  {
    assert [b, c] == [b] + [c];
    BytesConcat([b], [c], free);
    BytesOne(b, free);
    BytesOne(c, free);
  }

  lemma SetFreeBytes(L: Blocks, i: nat, free: bool, f: bool)
    requires i < |L|
    ensures Bytes(SetFree(L, i, free), f) == Bytes(L, f) - Cost(L[i], f) + Cost(L[i].(free := free), f)
  {
    var b := L[i].(free := free);
    assert SetFree(L, i, free) == L[..i] + [b] + L[i + 1..];
    assert L[i..i + 1] == [L[i]];
    BytesAround(L, i, i + 1, [b], f);
    BytesOne(b, f);
    BytesOne(L[i], f);
  }

  /** Splitting moves the bytes past the request, and nothing else, to the free side. */
  lemma SplitBytes(L: Blocks, i: nat, n: nat, f: bool)
    requires i < |L|
    ensures Bytes(Split(L, i, n), f)
            == Bytes(L, f) + if L[i].free || !Splits(L[i], n) then 0 else if f then L[i].size - n else n - L[i].size
  {
    if Splits(L[i], n) {
      var b, c := L[i].(size := n), Block(L[i].addr + HEADER + n, L[i].size - n - HEADER, true);
      assert L[i..i + 1] == [L[i]];
      BytesAround(L, i, i + 1, [b, c], f);
      BytesTwo(b, c, f);
      BytesOne(L[i], f);
    }
  }

  lemma MergeBytes(L: Blocks, i: nat, f: bool)
    requires i + 1 < |L| && L[i].free && L[i + 1].free
    ensures Bytes(Merge(L, i), f) == Bytes(L, f)
  {
    var b := L[i].(size := L[i].size + HEADER + L[i + 1].size);
    assert L[i..i + 2] == [L[i], L[i + 1]];
    BytesAround(L, i, i + 2, [b], f);
    BytesTwo(L[i], L[i + 1], f);
    BytesOne(b, f);
  }

  lemma MallocBytes(L: Blocks, n: nat)
    ensures Bytes(Malloc(L, n).0, false) == Bytes(L, false) + MallocCharge(L, n)
  {
    var k := AlignSize(n);
    var i := FirstFit(L, k);
    if n != 0 && i < |L| {
      SplitBytes(L, i, k, false);
      SetFreeBytes(Split(L, i, k), i, false, false);
    }
  }

  lemma CoalesceBytes(L: Blocks, i: nat, f: bool)
    requires i < |L| && L[i].free
    ensures Bytes(Coalesce(L, i), f) == Bytes(L, f)
  {
    var M := MergeNext(L, i);
    if i + 1 < |L| && L[i + 1].free { MergeBytes(L, i, f); }
    assert M[i].free && M[..i] == L[..i];
    if i > 0 && M[i - 1].free { MergeBytes(M, i - 1, f); }
  }

  lemma FreeBytes(L: Blocks, ptr: nat)
    ensures Bytes(Free(L, ptr), false) == Bytes(L, false) - FreeCredit(L, ptr)
  {
    var i := IndexOf(L, ptr);
    if i < |L| && !L[i].free {
      SetFreeBytes(L, i, true, false);
      CoalesceBytes(SetFree(L, i, true), i, false);
    }
  }

  /** Live and free bytes always add up to the heap. */
  lemma {:induction false} BytesAddUp(L: Blocks, base: nat, end: nat)
    requires Tiles(L, base, end)
    ensures Bytes(L, false) + Bytes(L, true) == end - base
  {
    if |L| == 1 {
      assert L[..0] == [];
    } else {
      var F := L[..|L| - 1];
      assert Abuts(L, |L| - 2);
      forall j | 0 <= j < |F| - 1 ensures Abuts(F, j) { assert Abuts(L, j); }
      BytesAddUp(F, base, L[|L| - 1].addr);
    }
  }

  lemma {:induction false} NoBytesNoneLive(L: Blocks, i: nat)
    requires Bytes(L, false) == 0 && i < |L|
    ensures L[i].free
  {
    if i < |L| - 1 { NoBytesNoneLive(L[..|L| - 1], i); }
  }

  /** Once nothing is live, in whatever order it was freed, the heap is one free block again. */
  lemma AllFreed(L: Blocks, base: nat, end: nat)
    requires Tiles(L, base, end) && Coalesced(L) && Bytes(L, false) == 0
    ensures base + HEADER <= end && L == [Block(base, end - base - HEADER, true)]
  {
    NoBytesNoneLive(L, 0);
    if |L| > 1 {
      NoBytesNoneLive(L, 1);
      assert false;
    }
  }

  lemma GrownIs(L: Blocks, i: nat, k: nat)
    requires i + 1 < |L|
    ensures Grown(L, i, k) == L[..i] + [L[i].(size := k), L[i + 1].(free := false)] + L[i + 2..]
  {
  }

  /** Growth in place takes over the next block's bytes and more. */
  lemma GrowBytes(L: Blocks, i: nat, k: nat)
    requires i + 1 < |L| && !L[i].free && L[i + 1].free
    ensures Bytes(Grown(L, i, k), false)
            == Bytes(L, false) + (k - L[i].size) + HEADER + L[i + 1].size
  {
    var b, c := L[i].(size := k), L[i + 1].(free := false);
    GrownIs(L, i, k);
    assert L[i..i + 2] == [L[i], L[i + 1]];
    BytesAround(L, i, i + 2, [b, c], false);
    BytesTwo(b, c, false);
    BytesTwo(L[i], L[i + 1], false);
  }

  /** How far the live bytes part from what krealloc adds to heap_used_size: not at all, except when
      it grows a block in place or splits one while shrinking. */
  lemma ReallocBytesExact(L: Blocks, ptr: nat, n: nat)
    requires ptr == 0 || (IndexOf(L, ptr) < |L| && !L[IndexOf(L, ptr)].free)
    ensures var i, k := IndexOf(L, ptr), AlignSize(n);
            Bytes(Realloc(L, ptr, n).0, false) - Bytes(L, false) - ReallocCharge(L, ptr, n)
            == if GrowsInPlace(L, ptr, n) then k - L[i].size + HEADER + L[i + 1].size
               else if ShrinkSplits(L, ptr, n) then k - L[i].size else 0
  {
    var i, k := IndexOf(L, ptr), AlignSize(n);
    if ptr == 0 {
      MallocBytes(L, n);
    } else if n == 0 {
      FreeBytes(L, ptr);
    } else if k <= L[i].size {
      SplitBytes(L, i, k, false);
    } else if GrowsInPlace(L, ptr, n) {
      GrowBytes(L, i, k);
    } else {
      MoveBytes(L, ptr, n);
    }
  }

  lemma MoveBytes(L: Blocks, ptr: nat, n: nat)
    requires ptr != 0 && n != 0 && !GrowsInPlace(L, ptr, n)
    requires var i := IndexOf(L, ptr); i < |L| && AlignSize(n) > L[i].size
    ensures Bytes(Realloc(L, ptr, n).0, false) == Bytes(L, false) + ReallocCharge(L, ptr, n)
  {
    var k := AlignSize(n);
    var (M, p) := Malloc(L, k);
    if p != 0 {
      MallocBytes(L, k);
      FreeBytes(M, ptr);
    }
  }

  /** It never coalesces either: a split next to a free block leaves two free neighbours. */
  lemma ShrinkCoalescedExact(L: Blocks, i: nat, k: nat)
    requires i < |L| && !L[i].free && k <= L[i].size && Coalesced(L)
    ensures Coalesced(Split(L, i, k)) <==> !(Splits(L[i], k) && i + 1 < |L| && L[i + 1].free)
  {
    var S := Split(L, i, k);
    if Splits(L[i], k) {
      assert |S| == |L| + 1 && S[..i] == L[..i] && S[i + 2..] == L[i + 1..] && !S[i].free && S[i + 1].free;
      if i + 1 < |L| && L[i + 1].free {
        assert S[i + 2] == S[i + 2..][0] == L[i + 1];
        assert S[i + 1].free && S[i + 2].free;
      } else {
        forall j | 0 <= j < |S| - 1 ensures !(S[j].free && S[j + 1].free) {
          if j + 1 < i {
            assert S[j] == S[..i][j] == L[j] && S[j + 1] == S[..i][j + 1] == L[j + 1];
          } else if j > i {
            assert j == i + 1 || S[j] == S[i + 2..][j - i - 2] == L[j - 1];
            assert S[j + 1] == S[i + 2..][j - i - 1] == L[j];
          }
        }
      }
    }
  }

  /** krealloc keeps neighbours apart exactly when it does not cut off a free block in front of a
      free one. */
  lemma ReallocCoalescedExact(L: Blocks, ptr: nat, n: nat)
    requires Coalesced(L) && !GrowsInPlace(L, ptr, n)
    requires ptr == 0 || (IndexOf(L, ptr) < |L| && !L[IndexOf(L, ptr)].free)
    ensures Coalesced(Realloc(L, ptr, n).0) <==> !ShrinkMeetsFree(L, ptr, n)
  {
    var i, k := IndexOf(L, ptr), AlignSize(n);
    if ptr == 0 {
      MallocCoalesced(L, n);
    } else if n == 0 {
      FreeCoalesced(L, ptr);
    } else if k <= L[i].size {
      ShrinkCoalescedExact(L, i, k);
    } else {
      MallocCoalesced(L, k);
      FreeCoalesced(Malloc(L, k).0, ptr);
    }
  }

  // ---------------------------------------------------------------- what a client sees

  ghost predicate LiveAt(L: Blocks, i: nat, p: nat, size: nat) {
    i < |L| && !L[i].free && L[i].Ptr() == p && L[i].size == size
  }

  /** p is an outstanding allocation with a payload of the given size. */
  ghost predicate Live(L: Blocks, p: nat, size: nat) {
    exists i :: LiveAt(L, i, p, size)
  }

  /** Splitting a free block changes no allocation; splitting a live one resizes it. */
  lemma SplitLive(L: Blocks, base: nat, end: nat, i: nat, n: nat, p: nat, size: nat)
    requires Tiles(L, base, end) && i < |L|
    ensures Live(Split(L, i, n), p, size)
            <==> if L[i].free || !Splits(L[i], n) || p != L[i].Ptr() then Live(L, p, size) else size == n
  {
    if Splits(L[i], n) {
      AllOrdered(L, base, end);
      SplitIs(L, i, n);
      SplitLiveAt(L, i, n, Split(L, i, n), p, size);
    }
  }

  lemma SplitLiveAt(L: Blocks, i: nat, n: nat, S: Blocks, p: nat, size: nat)
    requires IsSplit(L, i, n, S) && forall j :: 0 <= j < |L| && j != i ==> L[j].Ptr() != L[i].Ptr()
    ensures Live(S, p, size) <==> if L[i].free || p != L[i].Ptr() then Live(L, p, size) else size == n
  {
    forall j: nat | j < |L| && j != i
      ensures LiveAt(L, j, p, size) <==> LiveAt(S, if j < i then j else j + 1, p, size)
    {
      assert S[if j < i then j else j + 1] == L[j];
    }
    assert S[i] == L[i].(size := n) && S[i + 1].free;
    SplitLiveBack(L, S, i, n, p, size);
  }

  lemma SplitLiveBack(L: Blocks, S: Blocks, i: nat, n: nat, p: nat, size: nat)
    requires i < |L| && |S| == |L| + 1 && S[i] == L[i].(size := n) && S[i + 1].free
    requires forall j: nat :: j < |L| && j != i ==>
                                (LiveAt(L, j, p, size) <==> LiveAt(S, if j < i then j else j + 1, p, size))
    requires forall j :: 0 <= j < |L| && j != i ==> L[j].Ptr() != L[i].Ptr()
    ensures Live(S, p, size) <==> if L[i].free || p != L[i].Ptr() then Live(L, p, size) else size == n
  {
    if Live(S, p, size) {
      var j: nat :| LiveAt(S, j, p, size);
      if j != i { assert LiveAt(L, if j < i then j else j - 1, p, size); }
    }
    if Live(L, p, size) {
      var j: nat :| LiveAt(L, j, p, size);
      if j != i { assert LiveAt(S, if j < i then j else j + 1, p, size); }
    }
    if !L[i].free && p == L[i].Ptr() && size == n { assert LiveAt(S, i, p, size); }
  }

  lemma MergeLive(L: Blocks, i: nat, p: nat, size: nat)
    requires i + 1 < |L| && L[i].free && L[i + 1].free
    ensures Live(Merge(L, i), p, size) <==> Live(L, p, size)
  {
    var M := Merge(L, i);
    MergeIs(L, i);
    forall j: nat | LiveAt(L, j, p, size) ensures Live(M, p, size) {
      assert LiveAt(M, if j < i then j else j - 1, p, size);
    }
    forall j: nat | LiveAt(M, j, p, size) ensures Live(L, p, size) {
      assert LiveAt(L, if j < i then j else j + 1, p, size);
    }
  }

  lemma SetFreeLive(L: Blocks, base: nat, end: nat, i: nat, free: bool, p: nat, size: nat)
    requires Tiles(L, base, end) && i < |L|
    ensures Live(SetFree(L, i, free), p, size)
            <==> if p == L[i].Ptr() then !free && size == L[i].size else Live(L, p, size)
  {
    AllOrdered(L, base, end);
    var F := SetFree(L, i, free);
    forall j: nat | LiveAt(L, j, p, size) && j != i ensures Live(F, p, size) { assert LiveAt(F, j, p, size); }
    forall j: nat | LiveAt(F, j, p, size) && j != i ensures Live(L, p, size) { assert LiveAt(L, j, p, size); }
    if !free && p == L[i].Ptr() && size == L[i].size { assert LiveAt(F, i, p, size); }
  }

  /** kmalloc adds one allocation, of at least the aligned size, at a pointer not in use. */
  lemma MallocLive(L: Blocks, base: nat, end: nat, n: nat, p: nat, size: nat)
    requires Tiles(L, base, end)
    ensures var (M, q) := Malloc(L, n);
            && (Live(M, p, size) && p == q ==> size >= AlignSize(n))
            && (p != q || q == 0 ==> (Live(M, p, size) <==> Live(L, p, size)))
            && (q != 0 ==> !Live(L, q, size) && exists k :: Live(M, q, k))
  {
    AllOrdered(L, base, end);
    AlignSizeAligned(n);
    var i := FirstFit(L, AlignSize(n));
    if n != 0 && i < |L| { CarveLive(L, base, end, i, AlignSize(n), p, size); }
  }

  /** A free block is split and its front taken into use. */
  lemma CarveLive(L: Blocks, base: nat, end: nat, i: nat, k: nat, p: nat, size: nat)
    requires Tiles(L, base, end) && i < |L| && L[i].free && k <= L[i].size && k % 8 == 0
    ensures var M, q := SetFree(Split(L, i, k), i, false), L[i].Ptr();
            && (Live(M, p, size) && p == q ==> size >= k)
            && (p != q ==> (Live(M, p, size) <==> Live(L, p, size)))
            && !Live(L, q, size) && exists z :: Live(M, q, z)
  {
    var S := Split(L, i, k);
    SplitTiles(L, base, end, i, k);
    SplitLive(L, base, end, i, k, p, size);
    SetFreeLive(S, base, end, i, false, p, size);
    NotLive(L, base, end, i, size);
    assert S[i].addr == L[i].addr && S[i].size >= k;
    assert LiveAt(SetFree(S, i, false), i, L[i].Ptr(), S[i].size);
    assert Live(SetFree(S, i, false), L[i].Ptr(), S[i].size);
  }

  lemma CoalesceLive(L: Blocks, i: nat, p: nat, size: nat)
    requires i < |L| && L[i].free
    ensures Live(Coalesce(L, i), p, size) <==> Live(L, p, size)
  {
    var M := MergeNext(L, i);
    if i + 1 < |L| && L[i + 1].free { MergeLive(L, i, p, size); }
    assert M[i].free && M[..i] == L[..i];
    if i > 0 && M[i - 1].free { MergeLive(M, i - 1, p, size); }
  }

  lemma NotLive(L: Blocks, base: nat, end: nat, i: nat, size: nat)
    requires Tiles(L, base, end) && i < |L| && L[i].free
    ensures !Live(L, L[i].Ptr(), size)
  {
    AllOrdered(L, base, end);
  }

  /** kfree removes the allocation it is given and no other. */
  lemma FreeLive(L: Blocks, base: nat, end: nat, ptr: nat, p: nat, size: nat)
    requires Tiles(L, base, end)
    ensures Live(Free(L, ptr), p, size) <==> Live(L, p, size) && p != ptr
  {
    var i := IndexOf(L, ptr);
    if i < |L| && !L[i].free {
      SetFreeLive(L, base, end, i, true, p, size);
      CoalesceLive(SetFree(L, i, true), i, p, size);
    } else if i < |L| {
      NotLive(L, base, end, i, size);
    }
  }

  // ---------------------------------------------------------------- what a client gets, in numbers

  /** The block that kmalloc hands out is the first free one of sufficient size. It is cut to the
      aligned request when at least 48 bytes more are there, and the rest behind it is a free block
      with a 32-byte header of its own; otherwise it is handed out whole. */
  lemma MallocSize(L: Blocks, base: nat, end: nat, n: nat, size: nat)
    requires Tiles(L, base, end) && Malloc(L, n).1 != 0 && Live(Malloc(L, n).0, Malloc(L, n).1, size)
    ensures var (M, q) := Malloc(L, n);
            var i, k := IndexOf(L, q), AlignSize(n);
            && i < |L| && L[i].free && L[i].addr + 32 == q && L[i].size >= k
            && (forall j :: 0 <= j < i ==> !(L[j].free && L[j].size >= k))
            && size == (if L[i].size >= k + 48 then k else L[i].size) < k + 48
            && (L[i].size >= k + 48 ==> Block(q + k, L[i].size - k - 32, true) in M)
  {
    var (M, q) := Malloc(L, n);
    var i, k := FirstFit(L, AlignSize(n)), AlignSize(n);
    assert IndexOf(L, q) == i by { AllOrdered(L, base, end); }
    MallocTiles(L, base, end, n);
    CarvedBlock(L, i, k);
    assert M[i].Ptr() == q;
    var j :| LiveAt(M, j, q, size);
    assert j == i by { AllOrdered(M, base, end); }
  }

  lemma CarvedBlock(L: Blocks, i: nat, k: nat)
    requires i < |L| && k <= L[i].size
    ensures var M, s := SetFree(Split(L, i, k), i, false), L[i].size;
            && i < |M| && M[i] == Block(L[i].addr, if s >= k + 48 then k else s, false)
            && (s >= k + 48 ==> Block(L[i].addr + 32 + k, s - k - 32, true) in M)
  {
    var M := SetFree(Split(L, i, k), i, false);
    if L[i].size >= k + 48 {
      SplitIs(L, i, k);
      assert M[i + 1] == Block(L[i].addr + 32 + k, L[i].size - k - 32, true);
    }
  }

  /** NULL, zero and freed pointers: kmalloc(0) is NULL, kfree(NULL) and a second kfree do nothing,
      krealloc of NULL allocates and krealloc to zero frees. */
  lemma EdgeCases(L: Blocks, ptr: nat, n: nat)
    ensures Malloc(L, 0) == (L, 0) && Free(L, 0) == L
    ensures IndexOf(L, ptr) < |L| && L[IndexOf(L, ptr)].free ==> Free(L, ptr) == L
    ensures Realloc(L, 0, n) == Malloc(L, n)
    ensures ptr != 0 ==> Realloc(L, ptr, 0) == (Free(L, ptr), 0)
  {
  }

  /** What krealloc does with a live block of s bytes, in numbers: it shrinks in place, cutting the
      block when 48 bytes more are there; it grows over a free successor that is large enough; or it
      moves, and fails without a change when no free block is large enough. */
  lemma ReallocSize(L: Blocks, base: nat, end: nat, ptr: nat, n: nat)
    requires Tiles(L, base, end) && n != 0 && IndexOf(L, ptr) < |L| && !L[IndexOf(L, ptr)].free
    ensures var (M, q) := Realloc(L, ptr, n);
            var i, k := IndexOf(L, ptr), AlignSize(n);
            var s := L[i].size;
            if k <= s then
              && q == ptr && Live(M, ptr, if s >= k + 48 then k else s)
              && (s >= k + 48 ==> Block(ptr + k, s - k - 32, true) in M)
            else if i + 1 < |L| && L[i + 1].free && s + 32 + L[i + 1].size >= k then
              && q == ptr && |M| == |L|
              && (forall j :: 0 <= j < |L| ==>
                    M[j] == if j == i then Block(ptr - 32, k, false)
                            else if j == i + 1 then Block(L[j].addr, L[j].size, false) else L[j])
            else if forall j :: 0 <= j < |L| ==> !(L[j].free && L[j].size >= k) then q == 0 && M == L
            else && q != 0 && q != ptr && (forall z :: !Live(M, ptr, z))
                 && exists z :: k <= z < k + 48 && Live(M, q, z)
  {
    var i, k := IndexOf(L, ptr), AlignSize(n);
    AlignSizeAligned(n);
    if k <= L[i].size {
      ShrinkSize(L, i, k);
    } else if !GrowsInPlace(L, ptr, n) {
      MoveSize(L, base, end, ptr, k);
    }
  }

  lemma ShrinkSize(L: Blocks, i: nat, k: nat)
    requires i < |L| && !L[i].free && k <= L[i].size
    ensures var M, s := Split(L, i, k), L[i].size;
            && Live(M, L[i].Ptr(), if s >= k + 48 then k else s)
            && (s >= k + 48 ==> Block(L[i].Ptr() + k, s - k - 32, true) in M)
  {
    var M := Split(L, i, k);
    if L[i].size >= k + 48 {
      SplitIs(L, i, k);
      assert M[i + 1] == Block(L[i].Ptr() + k, L[i].size - k - 32, true);
    }
    assert LiveAt(M, i, L[i].Ptr(), if L[i].size >= k + 48 then k else L[i].size);
  }

  /** An aligned size is not rounded. */
  lemma AlignedStays(k: nat)
    requires k < WORD && k % 8 == 0
    ensures AlignSize(k) == k
  {
    assert k + 7 < WORD;
    assert (k + 7) % 8 == 7;
  }

  lemma MoveSize(L: Blocks, base: nat, end: nat, ptr: nat, k: nat)
    requires Tiles(L, base, end) && IndexOf(L, ptr) < |L| && !L[IndexOf(L, ptr)].free
    requires 0 < k < WORD && k % 8 == 0
    ensures var (M, q) := Malloc(L, k);
            if forall j :: 0 <= j < |L| ==> !(L[j].free && L[j].size >= k) then q == 0
            else && q != 0 && q != ptr && (forall z :: !Live(Free(M, ptr), ptr, z))
                 && exists z :: k <= z < k + 48 && Live(Free(M, ptr), q, z)
  {
    AlignedStays(k);
    if Malloc(L, k).1 != 0 { MovedSize(L, base, end, ptr, k); }
  }

  lemma MovedSize(L: Blocks, base: nat, end: nat, ptr: nat, k: nat)
    requires Tiles(L, base, end) && IndexOf(L, ptr) < |L| && !L[IndexOf(L, ptr)].free
    requires AlignSize(k) == k && Malloc(L, k).1 != 0
    ensures var (M, q) := Malloc(L, k);
            && q != ptr && (forall z :: !Live(Free(M, ptr), ptr, z))
            && exists z :: k <= z < k + 48 && Live(Free(M, ptr), q, z)
  {
    var (M, q) := Malloc(L, k);
    var i := IndexOf(L, ptr);
    assert LiveAt(L, i, ptr, L[i].size);
    assert Live(L, ptr, L[i].size);
    MallocTiles(L, base, end, k);
    MallocLive(L, base, end, k, q, L[i].size);
    var z :| Live(M, q, z);
    MallocSize(L, base, end, k, z);
    MallocLive(L, base, end, k, q, z);
    FreeLive(M, base, end, ptr, q, z);
    forall y ensures !Live(Free(M, ptr), ptr, y) { FreeLive(M, base, end, ptr, ptr, y); }
  }
}
