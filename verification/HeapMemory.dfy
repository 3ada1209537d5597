/** Block headers as bytes of memory: how each field is stored, written alone and read back. */
module HeapMemory {
  import opened Kernel
  import opened Layout

  type Bytes8 = map<nat, nat>

  /** A block header; next and prev are addresses, 0 for NULL. */
  datatype Header = Header(size: nat, free: bool, next: nat, prev: nat)

  type Headers = map<nat, Header>

  // Offsets of the fields. The flag is a 32-bit integer; the four bytes after it are padding.
  const SIZE := 0
  const FREE := 8
  const NEXT := 16
  const PREV := 24

  function ByteAt(m: Bytes8, x: nat): nat { if x in m then m[x] else 0 }

  // ---------------------------------------------------------------- words

  /** Byte k of a word stored little-endian. */
  function ByteOf(v: nat, k: nat): nat { if k == 0 then v % 256 else ByteOf(v / 256, k - 1) }

  function WordAt(m: Bytes8, a: nat, n: nat): nat
    decreases n
  {
    if n == 0 then 0 else ByteAt(m, a) + 256 * WordAt(m, a + 1, n - 1)
  }

  function PutWord(m: Bytes8, a: nat, v: nat, n: nat): Bytes8
    decreases n
  {
    if n == 0 then m else PutWord(m[a := v % 256], a + 1, v / 256, n - 1)
  }

  function Limit(n: nat): nat { if n == 0 then 1 else 256 * Limit(n - 1) }

  ghost predicate HoldsWord(m: Bytes8, a: nat, v: nat, n: nat) {
    v < Limit(n) && forall k: nat :: k < n ==> ByteAt(m, a + k) == ByteOf(v, k)
  }

  /** m1 is m with the word v written at a. */
  ghost predicate Wrote(m: Bytes8, m1: Bytes8, a: nat, v: nat, n: nat) {
    HoldsWord(m1, a, v, n) && forall x: nat :: x < a || a + n <= x ==> ByteAt(m1, x) == ByteAt(m, x)
  }

  lemma {:induction false} PutWordWrites(m: Bytes8, a: nat, v: nat, n: nat)
    requires v < Limit(n)
    ensures Wrote(m, PutWord(m, a, v, n), a, v, n)
    decreases n
  {
    if n > 0 {
      var m0, m1 := m[a := v % 256], PutWord(m, a, v, n);
      PutWordWrites(m0, a + 1, v / 256, n - 1);
      forall k: nat | k < n ensures ByteAt(m1, a + k) == ByteOf(v, k) {
        if k > 0 { assert ByteAt(m1, a + 1 + (k - 1)) == ByteOf(v / 256, k - 1); }
      }
    }
  }

  /** Reading returns what was stored. */
  lemma {:induction false} WordReadsBack(m: Bytes8, a: nat, v: nat, n: nat)
    requires HoldsWord(m, a, v, n)
    ensures WordAt(m, a, n) == v
    decreases n
  {
    if n > 0 {
      assert ByteAt(m, a + 0) == ByteOf(v, 0);
      forall k: nat | k < n - 1 ensures ByteAt(m, a + 1 + k) == ByteOf(v / 256, k) {
        assert ByteAt(m, a + (k + 1)) == ByteOf(v, k + 1);
      }
      WordReadsBack(m, a + 1, v / 256, n - 1);
    }
  }

  lemma WordLimit()
    ensures Limit(8) == WORD && Limit(4) == 0x1_0000_0000
  {
    assert Limit(4) == 0x1_0000_0000;
    assert Limit(8) == 256 * (256 * (256 * (256 * Limit(4))));
  }

  /** A word apart from the changed extent is still there. */
  lemma HoldsElsewhere(m: Bytes8, m1: Bytes8, a: nat, v: nat, n: nat)
    requires HoldsWord(m, a, v, n) && forall x: nat :: a <= x < a + n ==> ByteAt(m1, x) == ByteAt(m, x)
    ensures HoldsWord(m1, a, v, n)
  {
    forall k: nat | k < n ensures ByteAt(m1, a + k) == ByteOf(v, k) { assert ByteAt(m, a + k) == ByteOf(v, k); }
  }

  // ---------------------------------------------------------------- headers

  function Flag(b: bool): nat { if b then 1 else 0 }

  /** The header h lies at address a. */
  ghost predicate Stored(h: Header, m: Bytes8, a: nat) {
    && HoldsWord(m, a + SIZE, h.size, 8) && HoldsWord(m, a + FREE, Flag(h.free), 4)
    && HoldsWord(m, a + NEXT, h.next, 8) && HoldsWord(m, a + PREV, h.prev, 8)
  }

  function HeaderAt(m: Bytes8, a: nat): Header {
    Header(WordAt(m, a + SIZE, 8), WordAt(m, a + FREE, 4) != 0, WordAt(m, a + NEXT, 8), WordAt(m, a + PREV, 8))
  }

  lemma HeaderReadsBack(h: Header, m: Bytes8, a: nat)
    requires Stored(h, m, a)
    ensures HeaderAt(m, a) == h
    ensures WordAt(m, a, 8) == h.size && WordAt(m, a + 8, 4) == (if h.free then 1 else 0)
    ensures WordAt(m, a + 16, 8) == h.next && WordAt(m, a + 24, 8) == h.prev
  {
    WordReadsBack(m, a + SIZE, h.size, 8);
    WordReadsBack(m, a + FREE, Flag(h.free), 4);
    WordReadsBack(m, a + NEXT, h.next, 8);
    WordReadsBack(m, a + PREV, h.prev, 8);
  }

  predicate InExtent(a: nat, x: nat) { a <= x < a + HEADER }

  /** Bytes outside the header extent at a are the same. */
  ghost predicate OnlyIn(m: Bytes8, m1: Bytes8, a: nat) {
    forall x: nat :: !InExtent(a, x) ==> ByteAt(m1, x) == ByteAt(m, x)
  }

  // Writing one field stores the header with that field changed and touches nothing else.

  lemma WroteSize(h: Header, m: Bytes8, m1: Bytes8, a: nat, v: nat)
    requires Stored(h, m, a) && Wrote(m, m1, a + SIZE, v, 8)
    ensures Stored(h.(size := v), m1, a) && OnlyIn(m, m1, a)
  {
    HoldsElsewhere(m, m1, a + FREE, Flag(h.free), 4);
    HoldsElsewhere(m, m1, a + NEXT, h.next, 8);
    HoldsElsewhere(m, m1, a + PREV, h.prev, 8);
  }

  lemma WroteFree(h: Header, m: Bytes8, m1: Bytes8, a: nat, free: bool)
    requires Stored(h, m, a) && Wrote(m, m1, a + FREE, Flag(free), 4)
    ensures Stored(h.(free := free), m1, a) && OnlyIn(m, m1, a)
  {
    HoldsElsewhere(m, m1, a + SIZE, h.size, 8);
    HoldsElsewhere(m, m1, a + NEXT, h.next, 8);
    HoldsElsewhere(m, m1, a + PREV, h.prev, 8);
  }

  lemma WroteNext(h: Header, m: Bytes8, m1: Bytes8, a: nat, v: nat)
    requires Stored(h, m, a) && Wrote(m, m1, a + NEXT, v, 8)
    ensures Stored(h.(next := v), m1, a) && OnlyIn(m, m1, a)
  {
    HoldsElsewhere(m, m1, a + SIZE, h.size, 8);
    HoldsElsewhere(m, m1, a + FREE, Flag(h.free), 4);
    HoldsElsewhere(m, m1, a + PREV, h.prev, 8);
  }

  lemma WrotePrev(h: Header, m: Bytes8, m1: Bytes8, a: nat, v: nat)
    requires Stored(h, m, a) && Wrote(m, m1, a + PREV, v, 8)
    ensures Stored(h.(prev := v), m1, a) && OnlyIn(m, m1, a)
  {
    HoldsElsewhere(m, m1, a + SIZE, h.size, 8);
    HoldsElsewhere(m, m1, a + FREE, Flag(h.free), 4);
    HoldsElsewhere(m, m1, a + NEXT, h.next, 8);
  }

  /** Four writes make a new header out of any bytes. */
  lemma WroteHeader(h: Header, m: Bytes8, m1: Bytes8, m2: Bytes8, m3: Bytes8, m4: Bytes8, a: nat)
    requires Wrote(m, m1, a + SIZE, h.size, 8) && Wrote(m1, m2, a + FREE, Flag(h.free), 4)
    requires Wrote(m2, m3, a + NEXT, h.next, 8) && Wrote(m3, m4, a + PREV, h.prev, 8)
    ensures Stored(h, m4, a) && OnlyIn(m, m4, a)
  {
    HoldsElsewhere(m1, m4, a + SIZE, h.size, 8);
    HoldsElsewhere(m2, m4, a + FREE, Flag(h.free), 4);
    HoldsElsewhere(m3, m4, a + NEXT, h.next, 8);
  }

  lemma FlagLimit(free: bool)
    ensures Flag(free) < Limit(4)
  {
    WordLimit();
  }

  // ---------------------------------------------------------------- all headers of a list

  ghost predicate StoredAt(h: Headers, m: Bytes8, a: nat) { a in h && Stored(h[a], m, a) }

  ghost predicate AllStored(h: Headers, m: Bytes8, L: Blocks) {
    forall i :: 0 <= i < |L| ==> BlockStored(h, m, L, i)
  }

  ghost predicate BlockStored(h: Headers, m: Bytes8, L: Blocks, i: nat)
    requires i < |L|
  {
    StoredAt(h, m, L[i].addr)
  }

  predicate Apart(a: nat, b: nat) { a + HEADER <= b || b + HEADER <= a }

  /** Headers apart from the three addresses are stored as before. */
  ghost predicate KeepsStored(h: Headers, m: Bytes8, h1: Headers, m1: Bytes8, a: nat, b: nat, c: nat) {
    forall x :: StoredAt(h, m, x) && Apart(a, x) && Apart(b, x) && Apart(c, x) ==> StoredAt(h1, m1, x)
  }

  lemma StoredElsewhere(h: Header, m: Bytes8, m1: Bytes8, a: nat)
    requires Stored(h, m, a) && forall x :: InExtent(a, x) ==> ByteAt(m1, x) == ByteAt(m, x)
    ensures Stored(h, m1, a)
  {
    forall x | a <= x < a + HEADER ensures ByteAt(m1, x) == ByteAt(m, x) { assert InExtent(a, x); }
    HoldsElsewhere(m, m1, a + SIZE, h.size, 8);
    HoldsElsewhere(m, m1, a + FREE, Flag(h.free), 4);
    HoldsElsewhere(m, m1, a + NEXT, h.next, 8);
    HoldsElsewhere(m, m1, a + PREV, h.prev, 8);
  }

  lemma WriteKeepsStored(h: Headers, m: Bytes8, h1: Headers, m1: Bytes8, a: nat)
    requires OnlyIn(m, m1, a) && forall x :: x in h && x != a ==> x in h1 && h1[x] == h[x]
    ensures KeepsStored(h, m, h1, m1, a, a, a)
  {
    forall x | StoredAt(h, m, x) && Apart(a, x) ensures StoredAt(h1, m1, x) {
      forall y | InExtent(x, y) ensures ByteAt(m1, y) == ByteAt(m, y) { assert !InExtent(a, y); }
      StoredElsewhere(h[x], m, m1, x);
    }
  }

  /** No two headers of the list overlap. */
  ghost predicate Spaced(L: Blocks) {
    forall i, j :: 0 <= i < j < |L| ==> L[i].addr + HEADER <= L[j].addr
  }

  ghost predicate HasBlock(L: Blocks, a: nat) { exists i :: 0 <= i < |L| && L[i].addr == a }

  /** Rewriting the headers at three addresses of the new list leaves the whole list stored. */
  lemma ListStored(h: Headers, m: Bytes8, h1: Headers, m1: Bytes8, L: Blocks, S: Blocks, a: nat, b: nat, c: nat)
    requires AllStored(h, m, L) && KeepsStored(h, m, h1, m1, a, b, c) && Spaced(S)
    requires HasBlock(S, a) && HasBlock(S, b) && HasBlock(S, c)
    requires StoredAt(h1, m1, a) && StoredAt(h1, m1, b) && StoredAt(h1, m1, c)
    requires forall j :: 0 <= j < |S| ==> S[j].addr == a || S[j].addr == b || S[j].addr == c || HasBlock(L, S[j].addr)
    ensures AllStored(h1, m1, S)
  {
    forall j | 0 <= j < |S| ensures BlockStored(h1, m1, S, j) {
      var x := S[j].addr;
      if x != a && x != b && x != c {
        SpacedApart(S, a, j);
        SpacedApart(S, b, j);
        SpacedApart(S, c, j);
        var o :| 0 <= o < |L| && L[o].addr == x;
        assert BlockStored(h, m, L, o);
      }
    }
  }

  lemma SpacedApart(S: Blocks, a: nat, j: nat)
    requires Spaced(S) && HasBlock(S, a) && j < |S| && S[j].addr != a
    ensures Apart(a, S[j].addr)
  {
    var i :| 0 <= i < |S| && S[i].addr == a;
    assert i < j || j < i;
  }

  /** Changing bytes outside all headers leaves the list stored. */
  lemma PayloadWriteKeepsStored(h: Headers, m: Bytes8, m1: Bytes8, L: Blocks)
    requires AllStored(h, m, L)
    requires forall i, x :: 0 <= i < |L| && InExtent(L[i].addr, x) ==> ByteAt(m1, x) == ByteAt(m, x)
    ensures AllStored(h, m1, L)
  {
    forall i | 0 <= i < |L| ensures BlockStored(h, m1, L, i) {
      assert BlockStored(h, m, L, i);
      StoredElsewhere(h[L[i].addr], m, m1, L[i].addr);
    }
  }
}
