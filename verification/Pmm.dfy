/** Physical memory manager: a bitmap with one bit for each 4 KB page of the first 256 MB.
    The abstraction is the set of used page numbers. */
module Pmm {
  import opened Bits

  const PAGE_SIZE := 4096
  const MAX_PAGES := 65536
  const BITMAP_SIZE := 8192
  /** Pages below 2 MB hold the kernel and are never handed out. */
  const RESERVED_PAGES := 512

  datatype MemoryEntry = MemoryEntry(kind: nat, physicalStart: nat, numPages: nat)

  const MEMORY_BOOT_CODE := 3
  const MEMORY_BOOT_DATA := 4
  const MEMORY_CONVENTIONAL := 7

  predicate Usable(e: MemoryEntry) {
    e.kind == MEMORY_CONVENTIONAL || e.kind == MEMORY_BOOT_CODE || e.kind == MEMORY_BOOT_DATA
  }

  // ---------------------------------------------------------------- specification

  predicate Within(from: nat, p: nat, end: nat) {
    from <= p < end
  }

  ghost function Range(from: nat, end: nat): set<nat> {
    set p: nat | p < end && Within(from, p, end)
  }

  lemma {:induction false} RangeSize(from: nat, end: nat)
    requires from <= end
    ensures |Range(from, end)| == end - from
    decreases end - from
  {
    if from < end {
      RangeSize(from + 1, end);
      assert Range(from, end) == {from} + Range(from + 1, end);
    } else {
      assert Range(from, end) == {};
    }
  }

  /** t is s with the first n pages of a run added, or removed. */
  ghost predicate Grown(s: set<nat>, from: nat, n: nat, t: set<nat>) {
    forall p: nat :: p in t <==> p in s || Within(from, p, from + n)
  }

  ghost predicate Shrunk(s: set<nat>, from: nat, n: nat, t: set<nat>) {
    forall p: nat :: p in t <==> p in s && !Within(from, p, from + n)
  }

  lemma GrownIs(s: set<nat>, from: nat, n: nat, t: set<nat>)
    requires Grown(s, from, n, t)
    ensures t == s + Range(from, from + n)
  {
  }

  /** Stopping at the end of the bitmap loses nothing. */
  lemma ShrunkIs(s: set<nat>, from: nat, j: nat, n: nat, t: set<nat>)
    requires Shrunk(s, from, j, t)
    requires j == n || (j < n && from + j >= MAX_PAGES && forall p :: p in s ==> p < MAX_PAGES)
    ensures t == s - Range(from, from + n)
  {
  }

  lemma ShrinkByOne(s: set<nat>, from: nat, n: nat, t: set<nat>)
    requires Shrunk(s, from, n, t)
    ensures Shrunk(s, from, n + 1, t - {from + n})
  {
  }

  lemma GrowByOne(s: set<nat>, from: nat, n: nat, t: set<nat>)
    requires Grown(s, from, n, t)
    ensures Grown(s, from, n + 1, t + {from + n})
    ensures from + n !in s ==> from + n !in t
  {
  }

  ghost predicate CoveredBy(e: MemoryEntry, p: nat) {
    Usable(e) && e.physicalStart / PAGE_SIZE <= p < e.physicalStart / PAGE_SIZE + e.numPages
  }

  ghost predicate SomeCovers(mmap: seq<MemoryEntry>, n: nat, p: nat)
    requires n <= |mmap|
  {
    exists i :: 0 <= i < n && CoveredBy(mmap[i], p)
  }

  /** Pages that some usable entry among the first n covers. */
  ghost function Covered(mmap: seq<MemoryEntry>, n: nat): set<nat>
    requires n <= |mmap|
  {
    set p: nat | p < MAX_PAGES && SomeCovers(mmap, n, p)
  }

  /** The first free page at or above `from`, or MAX_PAGES. */
  ghost function LowestFree(used: set<nat>, from: nat): nat
    decreases MAX_PAGES - from
  {
    if from >= MAX_PAGES then MAX_PAGES
    else if from !in used then from
    else LowestFree(used, from + 1)
  }

  ghost predicate Window(used: set<nat>, start: nat, count: nat) {
    start + count <= MAX_PAGES && Range(start, start + count) !! used
  }

  lemma WindowIsFree(used: set<nat>, start: nat, count: nat, p: nat)
    requires Window(used, start, count) && start <= p < start + count
    ensures p !in used
  {
    assert p in Range(start, start + count);
  }

  /** The naive search: try every start in turn. */
  ghost function FirstWindow(used: set<nat>, from: nat, count: nat): nat
    decreases MAX_PAGES - from
  {
    if from + count > MAX_PAGES || from >= MAX_PAGES then MAX_PAGES
    else if Window(used, from, count) then from
    else FirstWindow(used, from + 1, count)
  }

  lemma {:induction false} FirstWindowIsLowest(used: set<nat>, from: nat, count: nat, s: nat)
    requires count > 0
    ensures var r := FirstWindow(used, from, count);
            && (r != MAX_PAGES ==> from <= r && Window(used, r, count))
            && (from <= s && Window(used, s, count) ==> r <= s && r != MAX_PAGES)
    decreases MAX_PAGES - from
  {
    if from + count <= MAX_PAGES && !Window(used, from, count) {
      FirstWindowIsLowest(used, from + 1, count, s);
    }
  }

  /** A used page inside the candidate window rules out every start up to and including it. */
  /** The window found, in numbers: free pages between 2 MB and 256 MB, and no lower ones. */
  lemma WindowExactly(used: set<nat>, count: nat, s: nat)
    requires count > 0
    ensures var r := FirstWindow(used, RESERVED_PAGES, count);
            && (r != 65536 ==> 512 <= r && r + count <= 65536 && forall p: nat :: r <= p < r + count ==> p !in used)
            && (512 <= s && s + count <= 65536 && (forall p: nat :: s <= p < s + count ==> p !in used) ==>
                  r != 65536 && r <= s)
  {
    FirstWindowIsLowest(used, RESERVED_PAGES, count, s);
    var r := FirstWindow(used, RESERVED_PAGES, count);
    if r != 65536 {
      forall p: nat | r <= p < r + count ensures p !in used { WindowIsFree(used, r, count, p); }
    }
  }

  lemma {:induction false} SkipAhead(used: set<nat>, from: nat, count: nat, hit: nat)
    requires from <= hit < from + count && hit in used
    ensures FirstWindow(used, from, count) == FirstWindow(used, hit + 1, count)
    decreases hit - from
  {
    if from < MAX_PAGES {
      assert hit in Range(from, from + count);
      assert !Window(used, from, count);
      if from < hit {
        SkipAhead(used, from + 1, count, hit);
      }
    }
  }

  /** Allocating one page is allocating a window of one page. */
  lemma {:induction false} OnePageIsAWindow(used: set<nat>, from: nat)
    ensures LowestFree(used, from) == FirstWindow(used, from, 1)
    decreases MAX_PAGES - from
  {
    if from < MAX_PAGES {
      assert Range(from, from + 1) == {from};
      if from in used { OnePageIsAWindow(used, from + 1); }
    }
  }

  // ---------------------------------------------------------------- the allocator

  /** bitmap_test on a bitmap given as a sequence of bytes. */
  predicate BitAt(bitmap: seq<nat>, page: nat)
    requires |bitmap| == BITMAP_SIZE && page < MAX_PAGES
  {
    Bit(bitmap[page / 8], page % 8)
  }

  class Manager {
    const bitmap: array<nat>
    var totalPages: nat
    var usedPages: int
    /** Abstraction: the pages whose bit is set. */
    ghost var used: set<nat>

    ghost predicate Represents()
      reads this`used, bitmap
    {
      && bitmap.Length == BITMAP_SIZE
      && (forall i :: 0 <= i < bitmap.Length ==> bitmap[i] < 256)
      && (forall p: nat {:trigger BitAt(bitmap[..], p)} :: p < MAX_PAGES ==> (BitAt(bitmap[..], p) <==> p in used))
      && (forall p :: p in used ==> p < MAX_PAGES)
    }

    ghost predicate Valid()
      reads this, bitmap
    {
      Represents() && usedPages == |used|
    }

    constructor ()
      ensures Valid() && fresh(bitmap) && used == {} && totalPages == 0
    {
      bitmap := new nat[BITMAP_SIZE](_ => 0);
      totalPages, usedPages, used := 0, 0, {};
      new;
      forall p: nat | p < MAX_PAGES ensures !BitAt(bitmap[..], p) { ZeroHasNoBit(p % 8); }
    }

    method BitmapSet(page: nat)
      requires Represents()
      modifies this`used, bitmap
      ensures Represents()
      ensures used == old(used) + if page < MAX_PAGES then {page} else {}
    {
      if page < MAX_PAGES {
        ghost var was := bitmap[..];
        bitmap[page / 8] := Or(bitmap[page / 8], Pow2(page % 8));
        used := used + {page};
        Pow2Monotone(page % 8, 7);
        assert Pow2(7) == 128 && Pow2(8) == 256;
        OrBound(was[page / 8], Pow2(page % 8), 8);
        forall p: nat | p < MAX_PAGES
          ensures BitAt(bitmap[..], p) <==> p == page || BitAt(was, p)
        {
          if p / 8 == page / 8 { SetBit(was[p / 8], page % 8, p % 8); }
        }
      }
    }

    method BitmapClear(page: nat)
      requires Represents()
      modifies this`used, bitmap
      ensures Represents()
      ensures used == old(used) - {page}
    {
      if page < MAX_PAGES {
        ghost var was := bitmap[..];
        bitmap[page / 8] := AndNot(bitmap[page / 8], Pow2(page % 8));
        used := used - {page};
        AndNotBound(was[page / 8], Pow2(page % 8));
        forall p: nat | p < MAX_PAGES
          ensures BitAt(bitmap[..], p) <==> p != page && BitAt(was, p)
        {
          if p / 8 == page / 8 { ClearBit(was[p / 8], page % 8, p % 8); }
        }
      }
    }

    /** Pages out of range read as used. */
    method BitmapTest(page: nat) returns (b: bool)
      requires Represents()
      ensures b <==> page >= MAX_PAGES || page in used
    {
      if page < MAX_PAGES {
        b := Bit(bitmap[page / 8], page % 8);
        assert b == BitAt(bitmap[..], page);
      } else {
        b := true;
      }
    }

    /** bitmap_set or bitmap_clear followed by the adjustment of used_pages. */
    method MarkPage(page: nat)
      requires Valid() && page < MAX_PAGES && page !in used
      modifies this`usedPages, this`used, bitmap
      ensures Valid() && used == old(used) + {page}
    {
      BitmapSet(page);
      usedPages := usedPages + 1;
    }

    method UnmarkPage(page: nat)
      requires Valid() && page in used
      modifies this`usedPages, this`used, bitmap
      ensures Valid() && used == old(used) - {page}
    {
      BitmapClear(page);
      usedPages := usedPages - 1;
    }

    method FillBitmap()
      requires bitmap.Length == BITMAP_SIZE
      modifies this`used, bitmap
      ensures Represents() && used == Range(0, MAX_PAGES)
    {
      for i := 0 to BITMAP_SIZE
        invariant forall k :: 0 <= k < i ==> bitmap[k] == 0xFF
      {
        bitmap[i] := 0xFF;
      }
      used := Range(0, MAX_PAGES);
      forall p: nat | p < MAX_PAGES ensures BitAt(bitmap[..], p) { AllOnes(p % 8); }
    }

    method Init(mmap: seq<MemoryEntry>)
      requires bitmap.Length == BITMAP_SIZE
      modifies this, bitmap
      ensures 1 <= |mmap| <= 256 ==>
                && Valid() && totalPages == MAX_PAGES
                && used == Range(0, MAX_PAGES) - (Covered(mmap, |mmap|) * Range(RESERVED_PAGES, MAX_PAGES))
                && forall p: nat :: p < 65536 ==>
                     (p !in used <==>
                        && p >= 512
                        && exists i :: 0 <= i < |mmap| && mmap[i].kind in {3, 4, 7}
                                       && mmap[i].physicalStart / 4096 <= p
                                       && p < mmap[i].physicalStart / 4096 + mmap[i].numPages)
      ensures !(1 <= |mmap| <= 256) ==> totalPages == 0 && usedPages == 0 && used == old(used)
    {
      if |mmap| == 0 || |mmap| > 256 {
        totalPages, usedPages := 0, 0;
        return;
      }
      FillBitmap();
      totalPages, usedPages := MAX_PAGES, MAX_PAGES;
      RangeSize(0, MAX_PAGES);
      FreeUsable(mmap);
      ReserveKernel();
      InitialSet(mmap);
      FreedExactly(mmap, used);
    }

    method FreeUsable(mmap: seq<MemoryEntry>)
      requires Valid() && used == Range(0, MAX_PAGES)
      modifies this`usedPages, this`used, bitmap
      ensures Valid() && used == Range(0, MAX_PAGES) - Covered(mmap, |mmap|)
    {
      for i := 0 to |mmap|
        invariant Valid() && used == Uncovered(mmap, i)
      {
        UncoveredNext(mmap, i);
        if Usable(mmap[i]) {
          FreeRun(mmap[i].physicalStart / PAGE_SIZE, Clamped(mmap[i]));
        }
      }
    }

    method ReserveKernel()
      requires Valid()
      modifies this`usedPages, this`used, bitmap
      ensures Valid() && used == old(used) + Range(0, RESERVED_PAGES)
    {
      for page := 0 to RESERVED_PAGES
        invariant Valid() && Grown(old(used), 0, page, used)
      {
        GrowByOne(old(used), 0, page, used);
        var b := BitmapTest(page);
        if !b {
          MarkPage(page);
        } else {
          assert used + {page} == used;
        }
      }
      GrownIs(old(used), 0, RESERVED_PAGES, used);
    }

    /** The loop shared by Init and FreePages: clear a run of pages, counting only the set ones. */
    method FreeRun(start: nat, count: nat)
      requires Valid()
      modifies this`usedPages, this`used, bitmap
      ensures Valid()
      ensures used == old(used) - Range(start, start + count)
    {
      var j := 0;
      while j < count && start + j < MAX_PAGES
        invariant j <= count && Valid() && Shrunk(old(used), start, j, used)
      {
        ClearNext(start, j, old(used));
        j := j + 1;
      }
      ShrunkIs(old(used), start, j, count, used);
    }

    method AllocPage() returns (addr: nat)
      requires Valid()
      modifies this`usedPages, this`used, bitmap
      ensures Valid()
      ensures var p := LowestFree(old(used), RESERVED_PAGES);
              if p == MAX_PAGES then addr == 0 && used == old(used)
              else addr == p * PAGE_SIZE && used == old(used) + {p}
    {
      var page := RESERVED_PAGES;
      while page < MAX_PAGES
        invariant RESERVED_PAGES <= page <= MAX_PAGES && Valid() && used == old(used)
        invariant usedPages == old(usedPages)
        invariant LowestFree(used, RESERVED_PAGES) == LowestFree(used, page)
      {
        var b := BitmapTest(page);
        if !b {
          MarkPage(page);
          return page * PAGE_SIZE;
        }
        page := page + 1;
      }
      addr := 0;
    }

    method FreePage(addr: nat)
      requires Valid()
      modifies this`usedPages, this`used, bitmap
      ensures Valid() && used == old(used) - {addr / PAGE_SIZE}
    {
      var page := addr / PAGE_SIZE;
      var b := BitmapTest(page);
      if page < MAX_PAGES && b {
        UnmarkPage(page);
      }
    }

    /** The skip-ahead search finds the window the naive search finds, or nothing when there is none. */
    method AllocPages(count: nat) returns (addr: nat)
      requires Valid()
      modifies this`usedPages, this`used, bitmap
      ensures Valid()
      ensures var s := FirstWindow(old(used), RESERVED_PAGES, count);
              if count == 0 || count > 256 || s == MAX_PAGES then addr == 0 && used == old(used)
              else addr == s * PAGE_SIZE && used == old(used) + Range(s, s + count)
    {
      if count == 0 || count > 256 {
        return 0;
      }
      var start := FindWindow(RESERVED_PAGES, count);
      if start == MAX_PAGES {
        return 0;
      }
      MarkRun(start, count);
      addr := start * PAGE_SIZE;
    }

    /** The search loop, which skips past every used page it meets. */
    method FindWindow(from: nat, count: nat) returns (start: nat)
      requires Valid() && count > 0
      ensures start == FirstWindow(used, from, count)
      ensures start != MAX_PAGES ==> Window(used, start, count) && start >= from
    {
      start := from;
      while start + count <= MAX_PAGES
        invariant start >= from && FirstWindow(used, from, count) == FirstWindow(used, start, count)
        decreases MAX_PAGES - start
      {
        var i := FirstUsed(start, count);
        if i == count {
          return;
        }
        SkipAhead(used, start, count, start + i);
        start := start + i;
        start := start + 1;
      }
      start := MAX_PAGES;
    }

    /** Offset of the first used page of a window, or count. */
    method FirstUsed(start: nat, count: nat) returns (i: nat)
      requires Valid() && start + count <= MAX_PAGES
      ensures i <= count && (i == count ==> Window(used, start, count))
      ensures i < count ==> start + i in used
    {
      i := 0;
      while i < count
        invariant i <= count && Range(start, start + i) !! used
      {
        var b := BitmapTest(start + i);
        if b { return; }
        i := i + 1;
      }
    }

    method MarkRun(start: nat, count: nat)
      requires Valid() && Window(used, start, count)
      modifies this`usedPages, this`used, bitmap
      ensures Valid() && used == old(used) + Range(start, start + count)
    {
      for i := 0 to count
        invariant Valid() && Grown(old(used), start, i, used)
      {
        WindowIsFree(old(used), start, count, start + i);
        MarkNext(start, i, old(used));
      }
      GrownIs(old(used), start, count, used);
    }

    method MarkNext(start: nat, i: nat, ghost base: set<nat>)
      requires Valid() && Grown(base, start, i, used) && start + i < MAX_PAGES && start + i !in base
      modifies this`usedPages, this`used, bitmap
      ensures Valid() && Grown(base, start, i + 1, used)
    {
      GrowByOne(base, start, i, used);
      MarkPage(start + i);
    }

    /** Clear one page of a run if it is set. */
    method ClearNext(start: nat, j: nat, ghost base: set<nat>)
      requires Valid() && Shrunk(base, start, j, used)
      modifies this`usedPages, this`used, bitmap
      ensures Valid() && Shrunk(base, start, j + 1, used)
    {
      ShrinkByOne(base, start, j, used);
      var b := BitmapTest(start + j);
      if start + j < MAX_PAGES && b {
        UnmarkPage(start + j);
      } else {
        assert used - {start + j} == used;
      }
    }

    method FreePages(addr: nat, count: nat)
      requires Valid()
      modifies this`usedPages, this`used, bitmap
      ensures Valid()
      ensures used == old(used) - Range(addr / PAGE_SIZE, addr / PAGE_SIZE + count)
    {
      FreeRun(addr / PAGE_SIZE, count);
    }
  }

  lemma {:induction false} AllOnes(k: nat)
    requires k < 8
    ensures Bit(0xFF, k)
  {
    assert Bit(0xFF, 0) && Bit(0xFF, 1) && Bit(0xFF, 2) && Bit(0xFF, 3);
    assert Bit(0xFF, 4) && Bit(0xFF, 5) && Bit(0xFF, 6) && Bit(0xFF, 7);
  }

  function Clamped(e: MemoryEntry): nat {
    if e.numPages > MAX_PAGES then MAX_PAGES else e.numPages
  }

  /** What is still in use when the first i entries have been freed. */
  ghost function Uncovered(mmap: seq<MemoryEntry>, i: nat): set<nat>
    requires i <= |mmap|
  {
    Range(0, MAX_PAGES) - Covered(mmap, i)
  }

  /** Clamping an entry to MAX_PAGES pages loses none of the managed ones. */
  lemma UncoveredNext(mmap: seq<MemoryEntry>, i: nat)
    requires i < |mmap|
    ensures var s := mmap[i].physicalStart / PAGE_SIZE;
            Uncovered(mmap, i + 1)
            == Uncovered(mmap, i) - (if Usable(mmap[i]) then Range(s, s + Clamped(mmap[i])) else {})
  {
    forall p: nat | p < MAX_PAGES
      ensures p in Covered(mmap, i + 1) <==> p in Covered(mmap, i) || CoveredBy(mmap[i], p)
    {
    }
  }

  /** The pages that initialisation frees, in numbers: from 2 MB up, those of boot-service code and
      data and of conventional memory. */
  lemma FreedExactly(mmap: seq<MemoryEntry>, used: set<nat>)
    requires used == Range(0, MAX_PAGES) - (Covered(mmap, |mmap|) * Range(RESERVED_PAGES, MAX_PAGES))
    ensures forall p: nat :: p < 65536 ==>
              (p !in used <==>
                 && p >= 512
                 && exists i :: 0 <= i < |mmap| && mmap[i].kind in {3, 4, 7}
                                && mmap[i].physicalStart / 4096 <= p
                                && p < mmap[i].physicalStart / 4096 + mmap[i].numPages)
  {
    forall p: nat | p < 65536
      ensures p in Covered(mmap, |mmap|) <==>
                exists i :: 0 <= i < |mmap| && mmap[i].kind in {3, 4, 7}
                            && mmap[i].physicalStart / 4096 <= p
                            && p < mmap[i].physicalStart / 4096 + mmap[i].numPages
    {
      if i :| 0 <= i < |mmap| && mmap[i].kind in {3, 4, 7} && mmap[i].physicalStart / 4096 <= p
              && p < mmap[i].physicalStart / 4096 + mmap[i].numPages {
        assert CoveredBy(mmap[i], p);
      }
      if SomeCovers(mmap, |mmap|, p) {
        var i :| 0 <= i < |mmap| && CoveredBy(mmap[i], p);
        assert mmap[i].kind in {3, 4, 7};
      }
    }
  }

  lemma InitialSet(mmap: seq<MemoryEntry>)
    ensures Range(0, MAX_PAGES) - Covered(mmap, |mmap|) + Range(0, RESERVED_PAGES)
            == Range(0, MAX_PAGES) - (Covered(mmap, |mmap|) * Range(RESERVED_PAGES, MAX_PAGES))
  {
  }

  // ---------------------------------------------------------------- runs

  /** The used set with the allocations outstanding, each a first page and a count. Pages in use
      from the start form the rest. */
  datatype Ledger = Ledger(used: set<nat>, live: map<nat, nat>)

  datatype Op = Alloc(count: nat) | Release(start: nat)

  predicate LegalOp(l: Ledger, op: Op) { op.Release? ==> op.start in l.live }

  ghost function StepOp(l: Ledger, op: Op): Ledger
    requires LegalOp(l, op)
  {
    match op
    case Alloc(count) =>
      var s := FirstWindow(l.used, RESERVED_PAGES, count);
      if count == 0 || count > 256 || s == MAX_PAGES then l
      else Ledger(l.used + Range(s, s + count), l.live[s := count])
    case Release(start) => Ledger(l.used - Range(start, start + l.live[start]), l.live - {start})
  }

  ghost predicate Extent(l: Ledger, s: nat, p: nat) {
    s in l.live && Within(s, p, s + l.live[s])
  }

  /** Outstanding allocations are used, apart from each other and from what was used at first; and
      nothing else is used. */
  ghost predicate Sound(l: Ledger, base: set<nat>) {
    && (forall s :: s in l.live ==> l.live[s] > 0 && s >= RESERVED_PAGES)
    && (forall s, p :: Extent(l, s, p) ==> p in l.used && p !in base)
    && (forall s, t, p :: Extent(l, s, p) && Extent(l, t, p) ==> s == t)
    && (forall p :: p in l.used ==> p in base || Allocated(l, p))
    && base <= l.used
  }

  ghost predicate Allocated(l: Ledger, p: nat) { exists s :: Extent(l, s, p) }

  lemma AllocKeeps(l: Ledger, base: set<nat>, count: nat)
    requires Sound(l, base)
    ensures Sound(StepOp(l, Alloc(count)), base)
  {
    var s := FirstWindow(l.used, RESERVED_PAGES, count);
    if 0 < count <= 256 && s != MAX_PAGES {
      FirstWindowIsLowest(l.used, RESERVED_PAGES, count, s);
      var m := StepOp(l, Alloc(count));
      assert s in Range(s, s + count);
      if s in l.live { assert Extent(l, s, s); }
      forall t, p | Extent(m, t, p) ensures p in m.used && p !in base && (t != s ==> Extent(l, t, p)) {
        if t == s { assert p in Range(s, s + count); } else { assert Extent(l, t, p); }
      }
      forall p | p in m.used ensures p in base || Allocated(m, p) {
        if p in l.used {
          if p !in base {
            var t :| Extent(l, t, p);
            assert Extent(m, t, p);
          }
        } else {
          assert Extent(m, s, p);
        }
      }
    }
  }

  lemma ReleaseKeeps(l: Ledger, base: set<nat>, start: nat)
    requires Sound(l, base) && start in l.live
    ensures Sound(StepOp(l, Release(start)), base)
  {
    var m := StepOp(l, Release(start));
    forall p ensures p in Range(start, start + l.live[start]) <==> Extent(l, start, p) {}
    forall t, p | Extent(m, t, p) ensures Extent(l, t, p) && p in m.used {
      assert Extent(l, t, p) && (p !in m.used ==> Extent(l, start, p));
    }
    forall p | p in base ensures p in m.used { assert p !in m.used ==> Extent(l, start, p); }
    forall p | p in m.used ensures p in base || Allocated(m, p) {
      if p !in base {
        var t :| Extent(l, t, p);
        assert Extent(m, t, p);
      }
    }
  }

  ghost predicate LegalRun(l: Ledger, ops: seq<Op>)
    decreases |ops|
  {
    ops == [] || (LegalOp(l, ops[0]) && LegalRun(StepOp(l, ops[0]), ops[1..]))
  }

  ghost function Run(l: Ledger, ops: seq<Op>): Ledger
    requires LegalRun(l, ops)
    decreases |ops|
  {
    if ops == [] then l else Run(StepOp(l, ops[0]), ops[1..])
  }

  /** Over every run outstanding allocations never overlap; once all are released the used set is
      what it was at first. */
  lemma {:induction false} RunKeeps(l: Ledger, base: set<nat>, ops: seq<Op>)
    requires Sound(l, base) && LegalRun(l, ops)
    ensures Sound(Run(l, ops), base)
    ensures Run(l, ops).live == map[] ==> Run(l, ops).used == base
    decreases |ops|
  {
    if ops == [] {
      forall p | l.live == map[] ensures !Allocated(l, p) {}
      assert l.live == map[] ==> l.used == base;
    } else {
      match ops[0] {
        case Alloc(count) => AllocKeeps(l, base, count);
        case Release(start) => ReleaseKeeps(l, base, start);
      }
      RunKeeps(StepOp(l, ops[0]), base, ops[1..]);
    }
  }
}
