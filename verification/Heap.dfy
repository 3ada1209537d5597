/** The kernel heap allocator as the source has it: headers at explicit addresses in a memory of
    bytes, read from it, linked both ways and rewritten field by field. Layout is its abstraction. */
module Heap {
  import opened Layout
  import opened HeapMemory
  import opened Kernel

  // ---------------------------------------------------------------- the linked list

  function HeaderOf(L: Blocks, i: nat): Header
    requires i < |L|
  {
    Header(L[i].size, L[i].free,
           if i + 1 < |L| then L[i + 1].addr else 0,
           if i > 0 then L[i - 1].addr else 0)
  }

  /** Each block's header holds its size and flag, next leads to the following block and prev
      inverts next. */
  ghost predicate Linked(h: Headers, L: Blocks) {
    forall i :: 0 <= i < |L| ==> LinkedAt(h, L, i)
  }

  ghost predicate LinkedAt(h: Headers, L: Blocks, i: nat)
    requires i < |L|
  {
    L[i].addr in h && h[L[i].addr] == HeaderOf(L, i)
  }

  ghost predicate Increasing(L: Blocks) {
    forall i, j :: 0 <= i < j < |L| ==> L[i].addr < L[j].addr
  }

  ghost predicate Positive(L: Blocks) { forall i :: 0 <= i < |L| ==> L[i].addr > 0 }

  lemma TilesIncrease(L: Blocks, base: nat, end: nat)
    requires Tiles(L, base, end)
    ensures Increasing(L) && Positive(L)
  {
    AllOrdered(L, base, end);
  }

  function SplitHeaders(h: Headers, p: nat, n: nat): Headers
    requires p in h && h[p].size >= n + MIN_BLOCK && (h[p].next != 0 ==> h[p].next in h)
  {
    var b := h[p];
    var q := p + HEADER + n;
    var h1 := h[q := Header(b.size - n - HEADER, true, b.next, p)];
    var h2 := if b.next != 0 then h1[b.next := h1[b.next].(prev := q)] else h1;
    h2[p := b.(size := n, next := q)]
  }

  lemma SplitLinkedAt(h: Headers, L: Blocks, i: nat, n: nat, S: Blocks, j: nat)
    requires Linked(h, L) && IsSplit(L, i, n, S) && j < |S| && Increasing(S) && Positive(L)
    requires var p := L[i].addr; p in h && h[p] == HeaderOf(L, i) && (h[p].next != 0 ==> h[p].next in h)
    ensures LinkedAt(SplitHeaders(h, L[i].addr, n), S, j)
  {
    var o := if j <= i then j else j - 1;
    assert LinkedAt(h, L, o);
    assert S[i].addr == L[i].addr && S[i + 1].addr == L[i].addr + HEADER + n;
    assert i + 1 < |L| ==> S[i + 2].addr == L[i + 1].addr;
  }

  lemma SplitLinked(h: Headers, L: Blocks, i: nat, n: nat, S: Blocks)
    requires Linked(h, L) && IsSplit(L, i, n, S) && Increasing(S) && Increasing(L) && Positive(L)
    ensures var p := L[i].addr;
            && p in h && h[p].size >= n + MIN_BLOCK && (h[p].next != 0 ==> h[p].next in h)
            && Linked(SplitHeaders(h, p, n), S)
  {
    var p := L[i].addr;
    assert LinkedAt(h, L, i);
    assert i + 1 < |L| ==> LinkedAt(h, L, i + 1);
    forall j | 0 <= j < |S| ensures LinkedAt(SplitHeaders(h, p, n), S, j) {
      SplitLinkedAt(h, L, i, n, S, j);
    }
  }

  /** The header writes that make a block swallow its successor. */
  function MergeHeaders(h: Headers, p: nat): Headers
    requires p in h && h[p].next in h && (h[h[p].next].next != 0 ==> h[h[p].next].next in h)
  {
    var n := h[h[p].next];
    var h1 := h[p := h[p].(size := h[p].size + HEADER + n.size, next := n.next)];
    if n.next != 0 then h1[n.next := h1[n.next].(prev := p)] else h1
  }

  lemma MergeLinkedAt(h: Headers, L: Blocks, i: nat, M: Blocks, j: nat)
    requires Linked(h, L) && IsMerge(L, i, M) && j < |M| && Increasing(M) && Positive(L)
    requires var p := L[i].addr; p in h && h[p] == HeaderOf(L, i) && h[p].next in h
    requires var q := L[i + 1].addr; q in h && h[q] == HeaderOf(L, i + 1) && (h[q].next != 0 ==> h[q].next in h)
    ensures LinkedAt(MergeHeaders(h, L[i].addr), M, j)
  {
    var o := if j <= i then j else j + 1;
    assert LinkedAt(h, L, o);
    assert M[i].addr == L[i].addr && (i + 2 < |L| ==> M[i + 1].addr == L[i + 2].addr);
  }

  lemma MergeLinked(h: Headers, L: Blocks, i: nat)
    requires Increasing(L) && Positive(L) && Linked(h, L) && i + 1 < |L|
    ensures var p := L[i].addr;
            && p in h && h[p].next in h && (h[h[p].next].next != 0 ==> h[h[p].next].next in h)
            && Linked(MergeHeaders(h, p), Merge(L, i))
  {
    var p := L[i].addr;
    assert LinkedAt(h, L, i);
    assert LinkedAt(h, L, i + 1);
    assert i + 2 < |L| ==> LinkedAt(h, L, i + 2);
    var M := Merge(L, i);
    MergeIs(L, i);
    forall j | 0 <= j < |M| ensures LinkedAt(MergeHeaders(h, p), M, j) {
      MergeLinkedAt(h, L, i, M, j);
    }
  }

  lemma SetFreeLinked(h: Headers, L: Blocks, i: nat, free: bool)
    requires Increasing(L) && Linked(h, L) && i < |L|
    ensures LinkedAt(h, L, i)
    ensures Linked(h[L[i].addr := h[L[i].addr].(free := free)], SetFree(L, i, free))
  {
    assert LinkedAt(h, L, i);
    var F, k := SetFree(L, i, free), h[L[i].addr := h[L[i].addr].(free := free)];
    forall j | 0 <= j < |L| ensures LinkedAt(k, F, j) { assert LinkedAt(h, L, j); }
  }

  /** Flipping a flag in place keeps the list and the tiling, and moves one block's bytes. */
  lemma SetFreeKeeps(h: Headers, L: Blocks, base: nat, end: nat, i: nat, free: bool)
    requires Tiles(L, base, end) && Linked(h, L) && i < |L|
    ensures LinkedAt(h, L, i)
    ensures Linked(h[L[i].addr := h[L[i].addr].(free := free)], SetFree(L, i, free))
    ensures Tiles(SetFree(L, i, free), base, end)
    ensures L[i].free != free ==>
              Bytes(SetFree(L, i, free), false)
              == Bytes(L, false) + if free then -(HEADER + L[i].size) else HEADER + L[i].size
  {
    TilesIncrease(L, base, end);
    SetFreeLinked(h, L, i, free);
    SetFreeTiles(L, base, end, i, free);
    SetFreeBytes(L, i, free, false);
  }

  // ---------------------------------------------------------------- bytes

  /** Only bytes in the header extents at the given addresses differ. */
  ghost predicate OnlyAt(m: Bytes8, m1: Bytes8, a: nat, b: nat, c: nat) {
    forall x: nat :: !InExtent(a, x) && !InExtent(b, x) && !InExtent(c, x) ==> ByteAt(m1, x) == ByteAt(m, x)
  }

  ghost predicate OutsideHeaders(L: Blocks, x: nat) {
    forall i :: 0 <= i < |L| ==> !L[i].InHeader(x)
  }

  /** Only bytes of L's headers differ. */
  ghost predicate OnlyHeaders(m: Bytes8, m1: Bytes8, L: Blocks) {
    forall x: nat :: OutsideHeaders(L, x) ==> ByteAt(m1, x) == ByteAt(m, x)
  }

  /** The payloads of L's live blocks, other than the one at ptr, are untouched. */
  ghost predicate KeepsPayloads(m: Bytes8, m1: Bytes8, L: Blocks, ptr: nat) {
    forall i, x: nat :: LivePayload(L, i, ptr, x) ==> ByteAt(m1, x) == ByteAt(m, x)
  }

  ghost predicate LivePayload(L: Blocks, i: nat, ptr: nat, x: nat) {
    i < |L| && !L[i].free && L[i].Ptr() != ptr && L[i].InPayload(x)
  }

  lemma WritesInHeaders(m: Bytes8, m1: Bytes8, L: Blocks, a: nat, b: nat, c: nat, i: nat, j: nat, k: nat)
    requires OnlyAt(m, m1, a, b, c) && i < |L| && j < |L| && k < |L|
    requires L[i].addr == a && L[j].addr == b && L[k].addr == c
    ensures OnlyHeaders(m, m1, L)
  {
    forall x: nat | OutsideHeaders(L, x) ensures ByteAt(m1, x) == ByteAt(m, x) {
      assert !L[i].InHeader(x) && !L[j].InHeader(x) && !L[k].InHeader(x);
    }
  }

  lemma KeepsFewer(m: Bytes8, m1: Bytes8, L: Blocks, ptr: nat)
    requires KeepsPayloads(m, m1, L, 0)
    ensures KeepsPayloads(m, m1, L, ptr)
  {
    forall i: nat, x: nat | LivePayload(L, i, ptr, x) ensures ByteAt(m1, x) == ByteAt(m, x) {
      assert LivePayload(L, i, 0, x);
    }
  }

  lemma PayloadOutsideHeaders(L: Blocks, base: nat, end: nat, i: nat, x: nat)
    requires Tiles(L, base, end) && i < |L| && L[i].InPayload(x)
    ensures OutsideHeaders(L, x)
  {
    AllOrdered(L, base, end);
  }

  lemma FreeKeepsPayloads(m: Bytes8, m1: Bytes8, L: Blocks, base: nat, end: nat, ptr: nat)
    requires Tiles(L, base, end) && OnlyHeaders(m, m1, L)
    ensures KeepsPayloads(m, m1, L, ptr)
  {
    forall i: nat, x: nat | LivePayload(L, i, ptr, x) ensures ByteAt(m1, x) == ByteAt(m, x) {
      PayloadOutsideHeaders(L, base, end, i, x);
    }
  }

  lemma OwnPayloadCopied(m: Bytes8, m1: Bytes8, L: Blocks, base: nat, end: nat, i: nat)
    requires Tiles(L, base, end) && i < |L| && OnlyHeaders(m, m1, L)
    ensures Copied(m, L[i].Ptr(), m1, L[i].Ptr(), L[i].size)
  {
    forall y: nat | y < L[i].size ensures CopiedAt(m, L[i].Ptr(), m1, L[i].Ptr(), y) {
      PayloadOutsideHeaders(L, base, end, i, L[i].Ptr() + y);
    }
  }

  /** kmalloc writes headers only, and none inside a live payload. */
  lemma MallocKeepsPayloads(m: Bytes8, m1: Bytes8, L: Blocks, base: nat, end: nat, n: nat)
    requires Tiles(L, base, end) && OnlyHeaders(m, m1, Malloc(L, n).0)
    ensures KeepsPayloads(m, m1, L, 0)
  {
    var (M, p) := Malloc(L, n);
    MallocTiles(L, base, end, n);
    forall i: nat, x: nat | LivePayload(L, i, 0, x) ensures ByteAt(m1, x) == ByteAt(m, x) {
      assert LiveAt(L, i, L[i].Ptr(), L[i].size);
      assert Live(L, L[i].Ptr(), L[i].size);
      MallocLive(L, base, end, n, L[i].Ptr(), L[i].size);
      var j :| LiveAt(M, j, L[i].Ptr(), L[i].size);
      PayloadOutsideHeaders(M, base, end, j, x);
    }
  }

  // ---------------------------------------------------------------- headers of a changed list

  lemma TilesSpaced(L: Blocks, base: nat, end: nat)
    requires Tiles(L, base, end)
    ensures Spaced(L)
  {
    AllOrdered(L, base, end);
  }

  lemma BlockThere(L: Blocks, i: nat)
    requires i < |L|
    ensures HasBlock(L, L[i].addr)
  {
  }

  /** The headers at a, b and c were rewritten and nothing else. */
  ghost predicate Rewritten(h: Headers, m: Bytes8, h1: Headers, m1: Bytes8, a: nat, b: nat, c: nat) {
    && OnlyAt(m, m1, a, b, c) && KeepsStored(h, m, h1, m1, a, b, c)
    && StoredAt(h1, m1, a) && StoredAt(h1, m1, b) && StoredAt(h1, m1, c)
  }

  /** The successor of block i, or block i itself when it is the last. */
  function After(L: Blocks, i: nat): nat
    requires i < |L|
  {
    if i + 1 < |L| then i + 1 else i
  }

  lemma SplitStored(h: Headers, m: Bytes8, h1: Headers, m1: Bytes8, L: Blocks, i: nat, n: nat, S: Blocks)
    requires AllStored(h, m, L) && IsSplit(L, i, n, S) && Spaced(S)
    requires Rewritten(h, m, h1, m1, L[i].addr, L[i].addr + HEADER + n, L[After(L, i)].addr)
    ensures AllStored(h1, m1, S) && OnlyHeaders(m, m1, S)
  {
    var p, q, nx := L[i].addr, L[i].addr + HEADER + n, L[After(L, i)].addr;
    var k := if i + 1 < |L| then i + 2 else i;
    assert S[i].addr == p && S[i + 1].addr == q && S[k].addr == nx;
    BlockThere(S, i);
    BlockThere(S, i + 1);
    BlockThere(S, k);
    forall j | 0 <= j < |S| ensures S[j].addr == q || HasBlock(L, S[j].addr) {
      if j != i + 1 {
        assert S[j].addr == L[if j <= i then j else j - 1].addr;
        BlockThere(L, if j <= i then j else j - 1);
      }
    }
    ListStored(h, m, h1, m1, L, S, p, q, nx);
    WritesInHeaders(m, m1, S, p, q, nx, i, i + 1, k);
  }

  /** The writes of split_block turn a stored, linked tiling into the split one. */
  lemma SplitDone(h: Headers, m: Bytes8, h1: Headers, m1: Bytes8, L: Blocks, base: nat, end: nat, i: nat, n: nat)
    requires Tiles(L, base, end) && Linked(h, L) && AllStored(h, m, L) && i < |L| && Splits(L[i], n) && n % 8 == 0
    requires Rewritten(h, m, h1, m1, L[i].addr, L[i].addr + HEADER + n, L[After(L, i)].addr)
    requires IsSplitHeaders(h, L[i].addr, n, h1)
    ensures var S := Split(L, i, n);
            Tiles(S, base, end) && Linked(h1, S) && AllStored(h1, m1, S) && OnlyHeaders(m, m1, S)
  {
    var S := Split(L, i, n);
    SplitIs(L, i, n);
    SplitTiles(L, base, end, i, n);
    TilesIncrease(S, base, end);
    TilesIncrease(L, base, end);
    TilesSpaced(S, base, end);
    SplitLinked(h, L, i, n, S);
    SplitStored(h, m, h1, m1, L, i, n, S);
  }

  ghost predicate IsSplitHeaders(h: Headers, p: nat, n: nat, h1: Headers) {
    && p in h && h[p].size >= n + MIN_BLOCK && (h[p].next != 0 ==> h[p].next in h)
    && h1 == SplitHeaders(h, p, n)
  }

  lemma MergeStored(h: Headers, m: Bytes8, h1: Headers, m1: Bytes8, L: Blocks, i: nat, M: Blocks)
    requires AllStored(h, m, L) && IsMerge(L, i, M) && Spaced(M)
    requires Rewritten(h, m, h1, m1, L[i].addr, L[i].addr, L[if i + 2 < |L| then i + 2 else i].addr)
    ensures AllStored(h1, m1, M) && OnlyHeaders(m, m1, L)
  {
    var k := if i + 2 < |L| then i + 2 else i;
    var p, nx := L[i].addr, L[k].addr;
    assert M[i].addr == p && M[if i + 2 < |L| then i + 1 else i].addr == nx;
    BlockThere(M, i);
    BlockThere(M, if i + 2 < |L| then i + 1 else i);
    forall j | 0 <= j < |M| ensures HasBlock(L, M[j].addr) {
      assert M[j].addr == L[if j <= i then j else j + 1].addr;
      BlockThere(L, if j <= i then j else j + 1);
    }
    ListStored(h, m, h1, m1, L, M, p, p, nx);
    WritesInHeaders(m, m1, L, p, p, nx, i, i, k);
  }

  ghost predicate IsMergeHeaders(h: Headers, p: nat, h1: Headers) {
    && p in h && h[p].next in h && (h[h[p].next].next != 0 ==> h[h[p].next].next in h)
    && h1 == MergeHeaders(h, p)
  }

  /** The writes of one half of coalesce_blocks, likewise. */
  lemma MergeDone(h: Headers, m: Bytes8, h1: Headers, m1: Bytes8, L: Blocks, base: nat, end: nat, i: nat)
    requires Tiles(L, base, end) && Linked(h, L) && AllStored(h, m, L) && i + 1 < |L|
    requires Rewritten(h, m, h1, m1, L[i].addr, L[i].addr, L[if i + 2 < |L| then i + 2 else i].addr)
    requires IsMergeHeaders(h, L[i].addr, h1)
    ensures var M := Merge(L, i);
            Tiles(M, base, end) && Linked(h1, M) && AllStored(h1, m1, M) && OnlyHeaders(m, m1, L)
  {
    MergeTiles(L, base, end, i);
    TilesIncrease(L, base, end);
    TilesSpaced(Merge(L, i), base, end);
    MergeLinked(h, L, i);
    MergeIs(L, i);
    MergeStored(h, m, h1, m1, L, i, Merge(L, i));
  }

  /** Rewriting headers of a list whose addresses stay. */
  lemma SameAddressesStored(h: Headers, m: Bytes8, h1: Headers, m1: Bytes8, L: Blocks, S: Blocks, i: nat, j: nat)
    requires AllStored(h, m, L) && Spaced(L) && i < |L| && j < |L| && |S| == |L|
    requires forall o :: 0 <= o < |L| ==> S[o].addr == L[o].addr
    requires KeepsStored(h, m, h1, m1, L[i].addr, L[j].addr, L[j].addr)
    requires StoredAt(h1, m1, L[i].addr) && StoredAt(h1, m1, L[j].addr)
    ensures AllStored(h1, m1, S)
  {
    BlockThere(S, i);
    BlockThere(S, j);
    forall o | 0 <= o < |S| ensures HasBlock(L, S[o].addr) { BlockThere(L, o); }
    ListStored(h, m, h1, m1, L, S, L[i].addr, L[j].addr, L[j].addr);
  }

  // ---------------------------------------------------------------- the allocator

  class Allocator {
    var start: nat
    var total: nat
    var used: nat
    var memory: Bytes8
    /** The headers that the bytes at block addresses spell, and the blocks they describe. */
    ghost var headers: Headers
    ghost var blocks: Blocks

    /** heap_start leads to a well-linked list of headers in memory. */
    ghost predicate Structure()
      reads this`start, this`headers, this`memory, this`blocks
    {
      && Linked(headers, blocks) && AllStored(headers, memory, blocks)
      && (if blocks == [] then start == 0 else start == blocks[0].addr && start != 0)
    }

    /** Before heap_init succeeds there is no block; after it the list tiles the heap. The bound
        keeps size + MIN_BLOCK_SIZE from wrapping. */
    ghost predicate Valid()
      reads this`start, this`total, this`used, this`headers, this`memory, this`blocks
    {
      && Structure()
      && (blocks != [] ==> Tiles(blocks, start, start + total) && start + total <= WORD && total + 24 <= WORD)
      && used >= Bytes(blocks, false)
    }

    constructor ()
      ensures Valid() && blocks == [] && used == 0 && total == 0
    {
      start, total, used, headers, memory, blocks := 0, 0, 0, map[], map[], [];
    }

    // ------------------------------------------------------------ access to memory

    method StoreWord(a: nat, v: nat, n: nat)
      requires v < Limit(n)
      modifies this`memory
      ensures Wrote(old(memory), memory, a, v, n)
    {
      PutWordWrites(memory, a, v, n);
      memory := PutWord(memory, a, v, n);
    }

    method ReadHeader(a: nat) returns (h: Header)
      requires StoredAt(headers, memory, a)
      ensures h == headers[a]
    {
      HeaderReadsBack(headers[a], memory, a);
      h := HeaderAt(memory, a);
    }

    method WriteHeader(a: nat, h: Header)
      requires h.size < WORD && h.next < WORD && h.prev < WORD
      modifies this`headers, this`memory
      ensures headers == old(headers)[a := h]
      ensures Rewritten(old(headers), old(memory), headers, memory, a, a, a)
    {
      WordLimit();
      FlagLimit(h.free);
      StoreWord(a + SIZE, h.size, 8);
      ghost var m1 := memory;
      StoreWord(a + FREE, Flag(h.free), 4);
      ghost var m2 := memory;
      StoreWord(a + NEXT, h.next, 8);
      ghost var m3 := memory;
      StoreWord(a + PREV, h.prev, 8);
      headers := headers[a := h];
      WroteHeader(h, old(memory), m1, m2, m3, memory, a);
      WriteKeepsStored(old(headers), old(memory), headers, memory, a);
    }

    method SetSize(a: nat, v: nat)
      requires StoredAt(headers, memory, a) && v < WORD
      modifies this`headers, this`memory
      ensures headers == old(headers)[a := old(headers)[a].(size := v)]
      ensures Rewritten(old(headers), old(memory), headers, memory, a, a, a)
    {
      WordLimit();
      StoreWord(a + SIZE, v, 8);
      WroteSize(headers[a], old(memory), memory, a, v);
      headers := headers[a := headers[a].(size := v)];
      WriteKeepsStored(old(headers), old(memory), headers, memory, a);
    }

    method SetFlag(a: nat, free: bool)
      requires StoredAt(headers, memory, a)
      modifies this`headers, this`memory
      ensures headers == old(headers)[a := old(headers)[a].(free := free)]
      ensures Rewritten(old(headers), old(memory), headers, memory, a, a, a)
    {
      FlagLimit(free);
      StoreWord(a + FREE, Flag(free), 4);
      WroteFree(headers[a], old(memory), memory, a, free);
      headers := headers[a := headers[a].(free := free)];
      WriteKeepsStored(old(headers), old(memory), headers, memory, a);
    }

    method SetNext(a: nat, v: nat)
      requires StoredAt(headers, memory, a) && v < WORD
      modifies this`headers, this`memory
      ensures headers == old(headers)[a := old(headers)[a].(next := v)]
      ensures Rewritten(old(headers), old(memory), headers, memory, a, a, a)
    {
      WordLimit();
      StoreWord(a + NEXT, v, 8);
      WroteNext(headers[a], old(memory), memory, a, v);
      headers := headers[a := headers[a].(next := v)];
      WriteKeepsStored(old(headers), old(memory), headers, memory, a);
    }

    method SetPrev(a: nat, v: nat)
      requires StoredAt(headers, memory, a) && v < WORD
      modifies this`headers, this`memory
      ensures headers == old(headers)[a := old(headers)[a].(prev := v)]
      ensures Rewritten(old(headers), old(memory), headers, memory, a, a, a)
    {
      WordLimit();
      StoreWord(a + PREV, v, 8);
      WrotePrev(headers[a], old(memory), memory, a, v);
      headers := headers[a := headers[a].(prev := v)];
      WriteKeepsStored(old(headers), old(memory), headers, memory, a);
    }

    // ------------------------------------------------------------ the allocator's functions

    /** The header of block i, decoded from memory. */
    method ReadBlock(p: nat, ghost i: nat) returns (h: Header)
      requires Linked(headers, blocks) && AllStored(headers, memory, blocks) && i < |blocks| && blocks[i].addr == p
      ensures h == HeaderOf(blocks, i)
    {
      assert LinkedAt(headers, blocks, i) && BlockStored(headers, memory, blocks, i);
      h := ReadHeader(p);
    }

    /** A range rejected by the first test leaves the heap as it was; any other replaces it. */
    method Init(addr: nat, size: nat)
      requires Valid()
      requires addr != 0 && size >= MIN_BLOCK ==> addr + size <= WORD && size + 24 <= WORD
      modifies this
      ensures Valid()
      ensures if addr == 0 || size < MIN_BLOCK
              then blocks == old(blocks) && total == old(total) && used == old(used) && memory == old(memory)
              else && total >= HEADER && blocks == [Block(start, total - HEADER, true)]
                   && addr <= start < addr + 8 && addr + size - 8 < start + total <= addr + size
                   && used == 0
    {
      if addr == 0 || size < MIN_BLOCK {
        return;
      }
      var aligned := (addr + 7) - (addr + 7) % 8;
      var n := size - (aligned - addr);
      n := n - n % 8;
      start := aligned;
      WriteHeader(start, Header(n - HEADER, true, 0, 0));
      total, used := n, 0;
      blocks := [Block(start, n - HEADER, true)];
      assert LinkedAt(headers, blocks, 0) && BlockStored(headers, memory, blocks, 0);
      BytesOne(blocks[0], false);
    }

    method FindFreeBlock(n: nat) returns (p: nat, ghost i: nat)
      requires Valid()
      ensures i == FirstFit(blocks, n)
      ensures p == if FirstFit(blocks, n) < |blocks| then blocks[FirstFit(blocks, n)].addr else 0
      ensures p == 0 <==> FirstFit(blocks, n) == |blocks|
    {
      p, i := start, 0;
      if blocks != [] { TilesIncrease(blocks, start, start + total); }
      while p != 0
        invariant i <= |blocks| && p == if i < |blocks| then blocks[i].addr else 0
        invariant blocks != [] ==> Positive(blocks)
        invariant FirstFit(blocks, n) == FitFrom(blocks, n, i)
        decreases |blocks| - i
      {
        var h := ReadBlock(p, i);
        if h.free && h.size >= n {
          return;
        }
        p := h.next;
        i := i + 1;
      }
    }

    /** The writes of split_block. */
    method LinkSplit(p: nat, n: nat)
      requires StoredAt(headers, memory, p) && headers[p].size >= n + MIN_BLOCK
      requires var nx := headers[p].next;
               nx != 0 ==> StoredAt(headers, memory, nx) && nx >= p + HEADER + headers[p].size
      requires p < WORD && p + HEADER + n < WORD && headers[p].size < WORD && headers[p].next < WORD
      modifies this`headers, this`memory
      ensures IsSplitHeaders(old(headers), p, n, headers)
      ensures Rewritten(old(headers), old(memory), headers, memory, p, p + HEADER + n,
                        if old(headers[p].next) == 0 then p else old(headers[p].next))
    {
      var b := ReadHeader(p);
      var q := p + HEADER + n;
      WriteHeader(q, Header(b.size - n - HEADER, true, b.next, p));
      if b.next != 0 {
        assert Apart(q, b.next);
        SetPrev(b.next, q);
      }
      SetSize(p, n);
      SetNext(p, q);
    }

    method SplitBlock(p: nat, n: nat, ghost i: nat)
      requires Valid() && i < |blocks| && blocks[i].addr == p && n % 8 == 0 && n <= blocks[i].size
      modifies this`headers, this`memory, this`blocks
      ensures Valid() && blocks == Split(old(blocks), i, n)
      ensures OnlyHeaders(old(memory), memory, blocks)
      ensures old(blocks)[i].free ==> Bytes(blocks, false) == old(Bytes(blocks, false))
    {
      NoWrap(blocks, start, start + total, i, n);
      var b := ReadBlock(p, i);
      if b.size < n + MIN_BLOCK {
        return;
      }
      SplitBytes(blocks, i, n, false);
      CutBlock(p, n, i);
    }

    method CutBlock(p: nat, n: nat, ghost i: nat)
      requires Structure() && i < |blocks| && blocks[i].addr == p && n % 8 == 0 && Splits(blocks[i], n)
      requires Tiles(blocks, start, start + total) && start + total <= WORD
      modifies this`headers, this`memory, this`blocks
      ensures Linked(headers, blocks) && AllStored(headers, memory, blocks) && blocks == Split(old(blocks), i, n)
      ensures Tiles(blocks, start, start + total) && OnlyHeaders(old(memory), memory, blocks)
    {
      Neighbours(headers, memory, blocks, start, start + total, i);
      LinkSplit(p, n);
      SplitDone(old(headers), old(memory), headers, memory, blocks, start, start + total, i, n);
      blocks := Split(blocks, i, n);
    }

    /** The writes that make block p swallow its successor. */
    method LinkMerge(p: nat)
      requires StoredAt(headers, memory, p) && StoredAt(headers, memory, headers[p].next)
      requires var q := headers[p].next; var nx := headers[q].next;
               && p + HEADER <= q && p < WORD && nx < WORD && headers[p].size + HEADER + headers[q].size < WORD
               && (nx != 0 ==> StoredAt(headers, memory, nx) && q + HEADER <= nx)
      modifies this`headers, this`memory
      ensures IsMergeHeaders(old(headers), p, headers)
      ensures var nx := old(headers[headers[p].next].next);
              Rewritten(old(headers), old(memory), headers, memory, p, p, if nx == 0 then p else nx)
    {
      var b := ReadHeader(p);
      var n := ReadHeader(b.next);
      SetSize(p, b.size + HEADER + n.size);
      SetNext(p, n.next);
      if n.next != 0 {
        SetPrev(n.next, p);
      }
    }

    /** One half of coalesce_blocks: block i and its free successor become one. */
    method MergeInto(p: nat, ghost i: nat)
      requires Valid() && i + 1 < |blocks| && blocks[i].addr == p && blocks[i].free && blocks[i + 1].free
      modifies this`headers, this`memory, this`blocks
      ensures Valid() && blocks == Merge(old(blocks), i)
      ensures OnlyHeaders(old(memory), memory, old(blocks))
      ensures Bytes(blocks, false) == old(Bytes(blocks, false))
    {
      MergeBytes(blocks, i, false);
      Neighbours(headers, memory, blocks, start, start + total, i);
      Neighbours(headers, memory, blocks, start, start + total, i + 1);
      MergeFits(blocks, start, start + total, i);
      LinkMerge(p);
      MergeDone(old(headers), old(memory), headers, memory, blocks, start, start + total, i);
      blocks := Merge(blocks, i);
    }

    method CoalesceNext(p: nat, ghost i: nat)
      requires Valid() && i < |blocks| && blocks[i].addr == p && blocks[i].free
      modifies this`headers, this`memory, this`blocks
      ensures Valid() && blocks == MergeNext(old(blocks), i)
      ensures OnlyHeaders(old(memory), memory, old(blocks))
      ensures Bytes(blocks, false) == old(Bytes(blocks, false))
    {
      TilesIncrease(blocks, start, start + total);
      var b := ReadBlock(p, i);
      if b.next != 0 {
        var n := ReadBlock(b.next, i + 1);
        if n.free {
          MergeInto(p, i);
        }
      }
    }

    method CoalescePrev(p: nat, ghost i: nat)
      requires Valid() && i < |blocks| && blocks[i].addr == p && blocks[i].free
      modifies this`headers, this`memory, this`blocks
      ensures Valid() && blocks == MergePrev(old(blocks), i)
      ensures OnlyHeaders(old(memory), memory, old(blocks))
      ensures Bytes(blocks, false) == old(Bytes(blocks, false))
    {
      TilesIncrease(blocks, start, start + total);
      var b := ReadBlock(p, i);
      if b.prev != 0 {
        var n := ReadBlock(b.prev, i - 1);
        if n.free {
          MergeInto(b.prev, i - 1);
        }
      }
    }

    method CoalesceBlocks(p: nat, ghost i: nat)
      requires Valid() && i < |blocks| && blocks[i].addr == p && blocks[i].free
      modifies this`headers, this`memory, this`blocks
      ensures Valid() && blocks == Coalesce(old(blocks), i)
      ensures OnlyHeaders(old(memory), memory, old(blocks))
      ensures Bytes(blocks, false) == old(Bytes(blocks, false))
    {
      CoalesceNext(p, i);
      ghost var M, m := blocks, memory;
      assert M[i].addr == p && M[i].free;
      CoalescePrev(p, i);
      FewerHeaders(m, memory, old(blocks), M, i);
    }

    /** Write the flag of block i and nothing else. */
    method FlipFlag(p: nat, free: bool, ghost i: nat)
      requires Structure() && i < |blocks| && blocks[i].addr == p
      requires Tiles(blocks, start, start + total)
      modifies this`headers, this`memory, this`blocks
      ensures Structure() && blocks == SetFree(old(blocks), i, free)
      ensures Tiles(blocks, start, start + total)
      ensures OnlyAt(old(memory), memory, p, p, p)
    {
      SetFreeKeeps(headers, blocks, start, start + total, i, free);
      TilesSpaced(blocks, start, start + total);
      assert BlockStored(headers, memory, blocks, i);
      SetFlag(p, free);
      SameAddressesStored(old(headers), old(memory), headers, memory, blocks, SetFree(blocks, i, free), i, i);
      blocks := SetFree(blocks, i, free);
    }

    /** The last step of kmalloc: mark the block used and charge for it. */
    method MarkUsed(p: nat, ghost i: nat)
      requires Valid() && i < |blocks| && blocks[i].addr == p && blocks[i].free
      modifies this`headers, this`memory, this`blocks, this`used
      ensures Valid() && blocks == SetFree(old(blocks), i, false)
      ensures used == old(used) + HEADER + old(blocks)[i].size
      ensures OnlyAt(old(memory), memory, p, p, p)
    {
      SetFreeBytes(blocks, i, false, false);
      FlipFlag(p, false, i);
      var b := ReadBlock(p, i);
      used := used + b.size + HEADER;
    }

    method Carve(p: nat, k: nat, ghost i: nat)
      requires Valid() && i < |blocks| && blocks[i].addr == p && blocks[i].free && k % 8 == 0 && k <= blocks[i].size
      modifies this`headers, this`memory, this`blocks, this`used
      ensures Valid() && blocks == SetFree(Split(old(blocks), i, k), i, false)
      ensures used == old(used) + HEADER + if Splits(old(blocks)[i], k) then k else old(blocks)[i].size
      ensures OnlyHeaders(old(memory), memory, blocks)
    {
      SplitBlock(p, k, i);
      ghost var S, m := blocks, memory;
      assert S[i].addr == p && S[i].free;
      MarkUsed(p, i);
      MarkedHeaders(old(memory), m, memory, S, i, p);
    }

    method Kmalloc(n: nat) returns (ptr: nat)
      requires Valid()
      modifies this`headers, this`memory, this`blocks, this`used
      ensures Valid() && (blocks, ptr) == Malloc(old(blocks), n)
      ensures used == old(used) + MallocCharge(old(blocks), n)
      ensures KeepsPayloads(old(memory), memory, old(blocks), 0)
    {
      if n == 0 {
        return 0;
      }
      var k := AlignSize(n);
      AlignSizeAligned(n);
      ghost var i;
      var p;
      p, i := FindFreeBlock(k);
      if p == 0 {
        return 0;
      }
      Carve(p, k, i);
      MallocKeepsPayloads(old(memory), memory, old(blocks), start, start + total, n);
      ptr := p + HEADER;
    }

    /** A pointer given to kfree is NULL or points to the payload of a block of the list. */
    method Kfree(ptr: nat)
      requires Valid() && (ptr == 0 || IndexOf(blocks, ptr) < |blocks|)
      modifies this`headers, this`memory, this`blocks, this`used
      ensures Valid() && blocks == Free(old(blocks), ptr)
      ensures used == old(used) - FreeCredit(old(blocks), ptr)
      ensures KeepsPayloads(old(memory), memory, old(blocks), ptr)
    {
      if ptr == 0 {
        return;
      }
      ghost var i := IndexOf(blocks, ptr);
      var p := ptr - HEADER;
      var b := ReadBlock(p, i);
      if b.free {
        return;
      }
      SetFreeBytes(blocks, i, true, false);
      FlipFlag(p, true, i);
      ghost var m := memory;
      used := used - (b.size + HEADER);
      CoalesceBlocks(p, i);
      FreedHeaders(old(memory), m, memory, old(blocks), i, p);
      FreeKeepsPayloads(old(memory), memory, old(blocks), start, start + total, ptr);
    }

    method ReallocShrink(p: nat, k: nat, ghost i: nat)
      requires Valid() && i < |blocks| && blocks[i].addr == p && !blocks[i].free && k % 8 == 0 && k <= blocks[i].size
      modifies this`headers, this`memory, this`blocks
      ensures Valid() && blocks == Split(old(blocks), i, k)
      ensures KeepsPayloads(old(memory), memory, old(blocks), p + HEADER)
      ensures Copied(old(memory), p + HEADER, memory, p + HEADER, k)
    {
      SplitBytes(blocks, i, k, false);
      SplitBlock(p, k, i);
      ShrinkKeepsPayloads(old(memory), memory, old(blocks), start, start + total, i, k);
    }

    /** The next block is marked used and this one resized; the split that follows finds
        size < size + MIN_BLOCK_SIZE and returns. */
    method ReallocGrow(p: nat, k: nat, ghost i: nat)
      requires Valid() && i + 1 < |blocks| && blocks[i].addr == p && !blocks[i].free && k < WORD
      modifies this`headers, this`memory, this`blocks
      ensures Structure() && blocks == Grown(old(blocks), i, k) && (k > old(blocks)[i].size ==> !Valid())
      ensures KeepsPayloads(old(memory), memory, old(blocks), p + HEADER)
      ensures Copied(old(memory), p + HEADER, memory, p + HEADER, old(blocks)[i].size)
    {
      Neighbours(headers, memory, blocks, start, start + total, i);
      var b := ReadBlock(p, i);
      SetFlag(b.next, false);
      ghost var h, m := headers, memory;
      SetSize(p, k);
      GrowDone(old(headers), old(memory), h, m, headers, memory, blocks, start, start + total, i, k);
      if k > blocks[i].size { GrowthBreaksTiles(blocks, start, start + total, i, k); }
      blocks := Grown(blocks, i, k);
    }

    method CopyBytes(dst: nat, src: nat, n: nat)
      requires src + n <= dst || dst + n <= src
      modifies this`memory
      ensures Copied(old(memory), src, memory, dst, n)
      ensures forall x: nat :: x < dst || dst + n <= x ==> ByteAt(memory, x) == old(ByteAt(memory, x))
    {
      for i := 0 to n
        invariant Copied(old(memory), src, memory, dst, i)
        invariant forall x: nat :: x < dst || dst + i <= x ==> ByteAt(memory, x) == old(ByteAt(memory, x))
      {
        ghost var m := memory;
        memory := memory[dst + i := ByteAt(memory, src + i)];
        forall k: nat | k < i + 1 ensures CopiedAt(old(memory), src, memory, dst, k) {
          assert k < i ==> CopiedAt(old(memory), src, m, dst, k);
        }
      }
    }

    /** Copying into a payload reaches no header, so the list is still there. */
    method FillPayload(dst: nat, src: nat, n: nat, ghost j: nat)
      requires Valid() && j < |blocks| && blocks[j].Ptr() == dst && n <= blocks[j].size
      requires src + n <= dst || dst + n <= src
      modifies this`memory
      ensures Valid()
      ensures Copied(old(memory), src, memory, dst, n)
      ensures forall x: nat :: x < dst || dst + n <= x ==> ByteAt(memory, x) == old(ByteAt(memory, x))
    {
      CopyBytes(dst, src, n);
      AllOrdered(blocks, start, start + total);
      PayloadWriteKeepsStored(headers, old(memory), memory, blocks);
    }

    /** The path that allocates, copies and frees. */
    method ReallocMove(ptr: nat, k: nat, oldSize: nat) returns (res: nat)
      requires Valid() && k % 8 == 0 && oldSize < k < WORD && LiveAt(blocks, IndexOf(blocks, ptr), ptr, oldSize)
      modifies this`headers, this`memory, this`blocks, this`used
      ensures Valid()
      ensures var (M, q) := Malloc(old(blocks), k);
              && res == q && blocks == (if q == 0 then old(blocks) else Free(M, ptr))
              && used == old(used) + (if q == 0 then 0 else MallocCharge(old(blocks), k) - FreeCredit(M, ptr))
      ensures res != 0 ==> Copied(old(memory), ptr, memory, res, oldSize)
      ensures KeepsPayloads(old(memory), memory, old(blocks), ptr)
    {
      res := Kmalloc(k);
      if res == 0 {
        KeepsFewer(old(memory), memory, blocks, ptr);
        return 0;
      }
      ghost var M, m1 := blocks, memory;
      MovedApart(old(blocks), start, start + total, ptr, oldSize, k, M, res);
      FillPayload(res, ptr, oldSize, FirstFit(old(blocks), k));
      ghost var m2 := memory;
      Kfree(ptr);
      MoveKeepsPayloads(old(memory), m1, m2, memory, old(blocks), start, start + total, ptr, oldSize, k, M, res);
    }

    /** The guard of the growth in place, read from the headers. */
    method CanGrow(ptr: nat, n: nat, ghost i: nat) returns (b: bool)
      requires Valid() && ptr >= HEADER && n != 0 && i == IndexOf(blocks, ptr) && i < |blocks|
      requires AlignSize(n) > blocks[i].size
      ensures b == GrowsInPlace(blocks, ptr, n)
    {
      NextIsSet(blocks, start, start + total, i);
      var h := ReadBlock(ptr - HEADER, i);
      if h.next == 0 {
        return false;
      }
      var nx := ReadBlock(h.next, i + 1);
      b := nx.free && h.size + HEADER + nx.size >= AlignSize(n);
    }

    /** The part of krealloc for a request larger than the block. */
    method ReallocLarger(ptr: nat, n: nat, ghost i: nat) returns (res: nat)
      requires Valid() && ptr >= HEADER && n != 0 && i == IndexOf(blocks, ptr) && i < |blocks| && !blocks[i].free
      requires AlignSize(n) > blocks[i].size
      modifies this`headers, this`memory, this`blocks, this`used
      ensures Structure() && (blocks, res) == Realloc(old(blocks), ptr, n)
      ensures used == old(used) + ReallocCharge(old(blocks), ptr, n)
      ensures Valid() <==> !GrowsInPlace(old(blocks), ptr, n)
      ensures res != 0 ==> Copied(old(memory), ptr, memory, res, old(blocks)[i].size)
      ensures KeepsPayloads(old(memory), memory, old(blocks), ptr)
    {
      var grow := CanGrow(ptr, n, i);
      AlignSizeAligned(n);
      if grow {
        GrowIs(blocks, ptr, n);
        ReallocGrow(ptr - HEADER, AlignSize(n), i);
        return ptr;
      }
      res := ReallocElsewhere(ptr, n, i);
    }

    method ReallocElsewhere(ptr: nat, n: nat, ghost i: nat) returns (res: nat)
      requires Valid() && ptr >= HEADER && n != 0 && i == IndexOf(blocks, ptr) && i < |blocks| && !blocks[i].free
      requires AlignSize(n) > blocks[i].size && !GrowsInPlace(blocks, ptr, n)
      modifies this`headers, this`memory, this`blocks, this`used
      ensures Valid() && (blocks, res) == Realloc(old(blocks), ptr, n)
      ensures used == old(used) + ReallocCharge(old(blocks), ptr, n)
      ensures res != 0 ==> Copied(old(memory), ptr, memory, res, old(blocks)[i].size)
      ensures KeepsPayloads(old(memory), memory, old(blocks), ptr)
    {
      MoveIs(blocks, ptr, n);
      AlignSizeAligned(n);
      var h := ReadBlock(ptr - HEADER, i);
      res := ReallocMove(ptr, AlignSize(n), h.size);
    }

    /** A pointer given to krealloc is NULL or a live allocation. The list stays well linked in
        every case; it tiles the heap afterwards exactly when the block did not grow in place. The
        first min(old, new) bytes are kept, and so is every other live payload. The counter keeps
        its distance from the live bytes exactly when no block grew or was split. */
    method Krealloc(ptr: nat, n: nat) returns (res: nat)
      requires Valid() && (ptr == 0 || (IndexOf(blocks, ptr) < |blocks| && !blocks[IndexOf(blocks, ptr)].free))
      modifies this`headers, this`memory, this`blocks, this`used
      ensures Structure() && (blocks, res) == Realloc(old(blocks), ptr, n)
      ensures Valid() <==> !GrowsInPlace(old(blocks), ptr, n)
      ensures used == old(used) + ReallocCharge(old(blocks), ptr, n)
      ensures used - Bytes(blocks, false) == old(used - Bytes(blocks, false))
              <==> !GrowsInPlace(old(blocks), ptr, n) && !ShrinkSplits(old(blocks), ptr, n)
      ensures ptr != 0 && n != 0 && res != 0 ==>
                Copied(old(memory), ptr, memory, res, Min(old(blocks[IndexOf(blocks, ptr)].size), AlignSize(n)))
      ensures KeepsPayloads(old(memory), memory, old(blocks), ptr)
    {
      ReallocBytesExact(blocks, ptr, n);
      res := Resize(ptr, n);
    }

    method Resize(ptr: nat, n: nat) returns (res: nat)
      requires Valid() && (ptr == 0 || (IndexOf(blocks, ptr) < |blocks| && !blocks[IndexOf(blocks, ptr)].free))
      modifies this`headers, this`memory, this`blocks, this`used
      ensures Structure() && (blocks, res) == Realloc(old(blocks), ptr, n)
      ensures Valid() <==> !GrowsInPlace(old(blocks), ptr, n)
      ensures used == old(used) + ReallocCharge(old(blocks), ptr, n)
      ensures ptr != 0 && n != 0 && res != 0 ==>
                Copied(old(memory), ptr, memory, res, Min(old(blocks[IndexOf(blocks, ptr)].size), AlignSize(n)))
      ensures KeepsPayloads(old(memory), memory, old(blocks), ptr)
    {
      if ptr == 0 {
        res := Kmalloc(n);
        return;
      }
      if n == 0 {
        Kfree(ptr);
        return 0;
      }
      ghost var i := IndexOf(blocks, ptr);
      var p := ptr - HEADER;
      AlignSizeAligned(n);
      var h := ReadBlock(p, i);
      if AlignSize(n) <= h.size {
        ReallocShrink(p, AlignSize(n), i);
        return ptr;
      }
      res := ReallocLarger(ptr, n, i);
    }
  }

  lemma GrowIs(L: Blocks, ptr: nat, n: nat)
    requires GrowsInPlace(L, ptr, n)
    ensures Realloc(L, ptr, n) == (Grown(L, IndexOf(L, ptr), AlignSize(n)), ptr) && ReallocCharge(L, ptr, n) == 0
  {
  }

  lemma MoveIs(L: Blocks, ptr: nat, n: nat)
    requires ptr != 0 && n != 0 && IndexOf(L, ptr) < |L| && AlignSize(n) > L[IndexOf(L, ptr)].size
    requires !GrowsInPlace(L, ptr, n)
    ensures var k := AlignSize(n);
            var (M, q) := Malloc(L, k);
            && Realloc(L, ptr, n) == (if q == 0 then (L, 0) else (Free(M, ptr), q))
            && ReallocCharge(L, ptr, n) == if q == 0 then 0 else MallocCharge(L, k) - FreeCredit(M, ptr)
  {
  }

  /** Where the successor of block i lies and that its header is stored. */
  lemma Neighbours(h: Headers, m: Bytes8, L: Blocks, base: nat, end: nat, i: nat)
    requires Tiles(L, base, end) && end <= WORD && Linked(h, L) && AllStored(h, m, L) && i < |L|
    ensures LinkedAt(h, L, i) && StoredAt(h, m, L[i].addr) && L[i].End() <= WORD
    ensures i + 1 < |L| ==> StoredAt(h, m, L[i + 1].addr) && L[i + 1].addr == L[i].End() < WORD && L[i + 1].addr > 0
  {
    AllOrdered(L, base, end);
    assert LinkedAt(h, L, i) && BlockStored(h, m, L, i);
    if i + 1 < |L| { assert Abuts(L, i) && BlockStored(h, m, L, i + 1); }
  }

  lemma MergeFits(L: Blocks, base: nat, end: nat, i: nat)
    requires Tiles(L, base, end) && end <= WORD && i + 1 < |L|
    ensures L[i].size + HEADER + L[i + 1].size < WORD
  {
    AllOrdered(L, base, end);
    assert Abuts(L, i);
  }

  /** The bytes of the first n positions of one extent equal those of another. */
  ghost predicate Copied(m: Bytes8, src: nat, m1: Bytes8, dst: nat, n: nat) {
    forall k: nat :: k < n ==> CopiedAt(m, src, m1, dst, k)
  }

  ghost predicate CopiedAt(m: Bytes8, src: nat, m1: Bytes8, dst: nat, k: nat) {
    ByteAt(m1, dst + k) == ByteAt(m, src + k)
  }

  /** Shrinking keeps the bytes that remain and every other live payload. */
  lemma ShrinkKeepsPayloads(m: Bytes8, m1: Bytes8, L: Blocks, base: nat, end: nat, i: nat, k: nat)
    requires Tiles(L, base, end) && i < |L| && !L[i].free && k % 8 == 0 && k <= L[i].size
    requires OnlyHeaders(m, m1, Split(L, i, k))
    ensures KeepsPayloads(m, m1, L, L[i].Ptr()) && Copied(m, L[i].Ptr(), m1, L[i].Ptr(), k)
  {
    var S := Split(L, i, k);
    SplitTiles(L, base, end, i, k);
    forall j: nat, x: nat | LivePayload(L, j, L[i].Ptr(), x)
      ensures ByteAt(m1, x) == ByteAt(m, x)
    {
      assert LiveAt(L, j, L[j].Ptr(), L[j].size);
      assert Live(L, L[j].Ptr(), L[j].size);
      SplitLive(L, base, end, i, k, L[j].Ptr(), L[j].size);
      var o :| LiveAt(S, o, L[j].Ptr(), L[j].size);
      PayloadOutsideHeaders(S, base, end, o, x);
    }
    assert S[i].addr == L[i].addr && S[i].size >= k;
    forall y: nat | y < k ensures CopiedAt(m, L[i].Ptr(), m1, L[i].Ptr(), y) {
      PayloadOutsideHeaders(S, base, end, i, L[i].Ptr() + y);
    }
  }

  lemma NextIsSet(L: Blocks, base: nat, end: nat, i: nat)
    requires Tiles(L, base, end) && i < |L|
    ensures i + 1 < |L| ==> L[i + 1].addr != 0
  {
    AllOrdered(L, base, end);
  }

  /** The new payload lies apart from the old one, and every live block is still there. */
  lemma MovedApart(L: Blocks, base: nat, end: nat, ptr: nat, oldSize: nat, k: nat, M: Blocks, q: nat)
    requires Tiles(L, base, end) && LiveAt(L, IndexOf(L, ptr), ptr, oldSize)
    requires k % 8 == 0 && oldSize < k < WORD && (M, q) == Malloc(L, k) && q != 0
    ensures Tiles(M, base, end) && IndexOf(M, ptr) < |M| && q != ptr
    ensures ptr + oldSize <= q || q + oldSize <= ptr
    ensures var j := FirstFit(L, k); j < |M| && !M[j].free && M[j].Ptr() == q && M[j].size >= k
  {
    MallocTiles(L, base, end, k);
    AlignSizeServes(k);
    assert AlignSize(k) == k;
    NewBlock(L, k);
    var j := FirstFit(L, k);
    assert Live(L, ptr, oldSize);
    assert LiveAt(M, j, q, M[j].size);
    MallocLive(L, base, end, k, ptr, oldSize);
    MallocLive(L, base, end, k, q, oldSize);
    var i :| LiveAt(M, i, ptr, oldSize);
    TwoApart(M, base, end, i, j);
    IndexOfFound(M, base, end, i);
  }

  lemma NewBlock(L: Blocks, n: nat)
    requires Malloc(L, n).1 != 0
    ensures var (M, q) := Malloc(L, n);
            var j := FirstFit(L, AlignSize(n));
            j < |M| && !M[j].free && M[j].Ptr() == q && M[j].size >= AlignSize(n)
  {
  }

  lemma TwoApart(L: Blocks, base: nat, end: nat, i: nat, j: nat)
    requires Tiles(L, base, end) && i < |L| && j < |L| && i != j
    ensures L[i].End() <= L[j].addr || L[j].End() <= L[i].addr
  {
    AllOrdered(L, base, end);
  }

  lemma IndexOfFound(L: Blocks, base: nat, end: nat, i: nat)
    requires Tiles(L, base, end) && i < |L|
    ensures IndexOf(L, L[i].Ptr()) == i
  {
    AllOrdered(L, base, end);
  }

  lemma MoveKeepsPayloads(m: Bytes8, m1: Bytes8, m2: Bytes8, m3: Bytes8,
                          L: Blocks, base: nat, end: nat, ptr: nat, oldSize: nat, k: nat, M: Blocks, q: nat)
    requires Tiles(L, base, end) && LiveAt(L, IndexOf(L, ptr), ptr, oldSize)
    requires k % 8 == 0 && oldSize < k < WORD && (M, q) == Malloc(L, k) && q != 0
    requires KeepsPayloads(m, m1, L, 0)
    requires Copied(m1, ptr, m2, q, oldSize)
    requires forall x: nat :: x < q || q + oldSize <= x ==> ByteAt(m2, x) == ByteAt(m1, x)
    requires KeepsPayloads(m2, m3, M, ptr)
    ensures Copied(m, ptr, m3, q, oldSize) && KeepsPayloads(m, m3, L, ptr)
  {
    MovedApart(L, base, end, ptr, oldSize, k, M, q);
    var i, j := IndexOf(L, ptr), FirstFit(L, k);
    forall y: nat | y < oldSize ensures CopiedAt(m, ptr, m3, q, y) {
      assert CopiedAt(m1, ptr, m2, q, y);
      assert LivePayload(L, i, 0, ptr + y) && LivePayload(M, j, ptr, q + y);
    }
    forall o: nat, x: nat | LivePayload(L, o, ptr, x) ensures ByteAt(m3, x) == ByteAt(m, x) {
      assert LivePayload(L, o, 0, x);
      assert LiveAt(L, o, L[o].Ptr(), L[o].size);
      assert Live(L, L[o].Ptr(), L[o].size);
      MallocLive(L, base, end, k, L[o].Ptr(), L[o].size);
      var w :| LiveAt(M, w, L[o].Ptr(), L[o].size);
      TwoApart(M, base, end, w, j);
      assert LivePayload(M, w, ptr, x);
    }
  }

  function GrowHeaders(h: Headers, p: nat, k: nat): Headers
    requires p in h && h[p].next in h
  {
    var h1 := h[h[p].next := h[h[p].next].(free := false)];
    h1[p := h1[p].(size := k)]
  }

  lemma GrowLinked(h: Headers, L: Blocks, i: nat, k: nat)
    requires Increasing(L) && Positive(L) && Linked(h, L) && i + 1 < |L|
    ensures LinkedAt(h, L, i) && LinkedAt(h, L, i + 1)
    ensures Linked(GrowHeaders(h, L[i].addr, k), Grown(L, i, k))
  {
    assert LinkedAt(h, L, i) && LinkedAt(h, L, i + 1);
    var G, g := Grown(L, i, k), GrowHeaders(h, L[i].addr, k);
    forall j | 0 <= j < |G| ensures LinkedAt(g, G, j) { assert LinkedAt(h, L, j); }
  }

  lemma GrowDone(h: Headers, m: Bytes8, h1: Headers, m1: Bytes8, h2: Headers, m2: Bytes8,
                 L: Blocks, base: nat, end: nat, i: nat, k: nat)
    requires Tiles(L, base, end) && Linked(h, L) && AllStored(h, m, L) && i + 1 < |L|
    requires Rewritten(h, m, h1, m1, L[i + 1].addr, L[i + 1].addr, L[i + 1].addr)
    requires Rewritten(h1, m1, h2, m2, L[i].addr, L[i].addr, L[i].addr)
    requires var p, q := L[i].addr, L[i + 1].addr;
             p in h && q in h && h1 == h[q := h[q].(free := false)] && p in h1 && h2 == h1[p := h1[p].(size := k)]
    ensures Linked(h2, Grown(L, i, k)) && AllStored(h2, m2, Grown(L, i, k))
    ensures KeepsPayloads(m, m2, L, L[i].Ptr()) && Copied(m, L[i].Ptr(), m2, L[i].Ptr(), L[i].size)
  {
    var p, q := L[i].addr, L[i + 1].addr;
    TilesIncrease(L, base, end);
    TilesSpaced(L, base, end);
    GrowLinked(h, L, i, k);
    assert KeepsStored(h, m, h2, m2, p, q, q) by {
      forall x | StoredAt(h, m, x) && Apart(p, x) && Apart(q, x) ensures StoredAt(h2, m2, x) {
        assert StoredAt(h1, m1, x);
      }
    }
    assert StoredAt(h2, m2, q);
    SameAddressesStored(h, m, h2, m2, L, Grown(L, i, k), i, i + 1);
    WritesInHeaders(m, m2, L, p, q, q, i, i + 1, i + 1);
    FreeKeepsPayloads(m, m2, L, base, end, L[i].Ptr());
    OwnPayloadCopied(m, m2, L, base, end, i);
  }

  lemma MarkedHeaders(m: Bytes8, m1: Bytes8, m2: Bytes8, S: Blocks, i: nat, p: nat)
    requires i < |S| && S[i].addr == p && OnlyHeaders(m, m1, S) && OnlyAt(m1, m2, p, p, p)
    ensures OnlyHeaders(m, m2, SetFree(S, i, false))
  {
    var F := SetFree(S, i, false);
    WritesInHeaders(m1, m2, S, p, p, p, i, i, i);
    forall x: nat | OutsideHeaders(F, x) ensures ByteAt(m2, x) == ByteAt(m, x) {
      forall j | 0 <= j < |S| ensures !S[j].InHeader(x) { assert !F[j].InHeader(x); }
    }
  }

  lemma FreedHeaders(m: Bytes8, m1: Bytes8, m2: Bytes8, L: Blocks, i: nat, p: nat)
    requires i < |L| && L[i].addr == p && OnlyAt(m, m1, p, p, p) && OnlyHeaders(m1, m2, SetFree(L, i, true))
    ensures OnlyHeaders(m, m2, L)
  {
    var F := SetFree(L, i, true);
    WritesInHeaders(m, m1, L, p, p, p, i, i, i);
    forall x: nat | OutsideHeaders(L, x) ensures ByteAt(m2, x) == ByteAt(m, x) {
      forall j | 0 <= j < |F| ensures !F[j].InHeader(x) { assert !L[j].InHeader(x); }
    }
  }

  /** Merging leaves no header address that was not one before. */
  lemma FewerHeaders(m: Bytes8, m1: Bytes8, L: Blocks, M: Blocks, i: nat)
    requires i < |L| && M == MergeNext(L, i) && OnlyHeaders(m, m1, M)
    ensures OnlyHeaders(m, m1, L)
  {
    forall x: nat | OutsideHeaders(L, x) ensures ByteAt(m1, x) == ByteAt(m, x) {
      forall j | 0 <= j < |M| ensures !M[j].InHeader(x) {
        var o := if j <= i then j else j + |L| - |M|;
        assert M[j].addr == L[o].addr && !L[o].InHeader(x);
      }
    }
  }

  /** The size test of split_block stays within 64 bits. */
  lemma NoWrap(L: Blocks, base: nat, end: nat, i: nat, n: nat)
    requires Tiles(L, base, end) && end - base + 24 <= WORD && i < |L| && n <= L[i].size
    ensures n + MIN_BLOCK < WORD
  {
    AllOrdered(L, base, end);
  }
}
