/** Virtual memory manager: 4-level page tables filled on demand from the page bitmap.
    Physical memory is a map from page address to the 512 words of that page. */
module Vmm {
  import opened Kernel
  import opened Bits
  import Pmm

  const ENTRIES := 512
  const UPPER_HALF := 256
  const PRESENT := 1
  const WRITABLE := 2
  const NO_EXECUTE := 0x8000_0000_0000_0000

  type Memory = map<nat, seq<nat>>

  /** The four table indices of a virtual address. */
  datatype Path = Path(i4: nat, i3: nat, i2: nat, i1: nat)

  function Pml4Index(virt: nat): nat { virt / 0x80_0000_0000 % 512 }
  function PdptIndex(virt: nat): nat { virt / 0x4000_0000 % 512 }
  function PdIndex(virt: nat): nat { virt / 0x20_0000 % 512 }
  function PtIndex(virt: nat): nat { virt / 0x1000 % 512 }

  function PathOf(virt: nat): Path {
    Path(Pml4Index(virt), PdptIndex(virt), PdIndex(virt), PtIndex(virt))
  }

  /** Bits 12 to 47 of a virtual address. */
  function Vpn(virt: nat): nat { virt / 0x1000 % 0x10_0000_0000 }

  /** Dividing by 512 * m is dividing by m and then by 512, and the remainders fit together. */
  lemma NextDigit(a: nat, m: nat)
    requires m > 0
    ensures a / (512 * m) == a / m / 512 && a % (512 * m) == m * (a / m % 512) + a % m
  {
    var q, d := a / m, a / m % 512;
    assert a == m * q + a % m;
    assert m * q == m * (512 * (q / 512) + d) == (512 * m) * (q / 512) + m * d;
    assert m * d <= m * 511;
    DivModUnique(a, 512 * m, q / 512, m * d + a % m);
  }

  /** The four indices are the base-512 digits of the virtual page number. */
  lemma VpnDigits(virt: nat)
    ensures var p := PathOf(virt);
            Vpn(virt) == ((p.i4 * 512 + p.i3) * 512 + p.i2) * 512 + p.i1
  {
    NextDigit(virt, 0x1000);
    NextDigit(virt, 0x20_0000);
    NextDigit(virt, 0x4000_0000);
    var a := virt / 0x1000;
    NextDigit(a, 512);
    NextDigit(a, 0x4_0000);
    NextDigit(a, 0x800_0000);
    assert 512 * 0x800_0000 == 0x10_0000_0000;
  }

  lemma LastDigit(x: nat, d: nat, y: nat, e: nat)
    requires d < 512 && e < 512 && x * 512 + d == y * 512 + e
    ensures x == y && d == e
  {
  }

  lemma DigitsDiffer(p: Path, q: Path)
    requires PathOk(p) && PathOk(q)
    requires ((p.i4 * 512 + p.i3) * 512 + p.i2) * 512 + p.i1 == ((q.i4 * 512 + q.i3) * 512 + q.i2) * 512 + q.i1
    ensures p == q
  {
    LastDigit((p.i4 * 512 + p.i3) * 512 + p.i2, p.i1, (q.i4 * 512 + q.i3) * 512 + q.i2, q.i1);
    LastDigit(p.i4 * 512 + p.i3, p.i2, q.i4 * 512 + q.i3, q.i2);
    LastDigit(p.i4, p.i3, q.i4, q.i3);
  }

  /** Two addresses take the same path exactly when they lie in the same virtual page. */
  lemma SamePath(v: nat, w: nat)
    ensures PathOf(v) == PathOf(w) <==> Vpn(v) == Vpn(w)
  {
    VpnDigits(v);
    VpnDigits(w);
    PathOfOk(v);
    PathOfOk(w);
    if Vpn(v) == Vpn(w) { DigitsDiffer(PathOf(v), PathOf(w)); }
  }

  // ---------------------------------------------------------------- walking the tables

  function PageOf(entry: nat): nat { entry - entry % 4096 }

  function Entry(m: Memory, t: nat, i: nat): nat {
    if t in m && i < |m[t]| then m[t][i] else 0
  }

  predicate Present(entry: nat) { entry % 2 == 1 }

  /** The table a slot points to, or 0. */
  function Child(m: Memory, t: nat, i: nat): nat {
    if Present(Entry(m, t, i)) then PageOf(Entry(m, t, i)) else 0
  }

  /** The leaf table that a path reaches, or 0. */
  function LeafTable(m: Memory, root: nat, p: Path): nat {
    var pdpt := Child(m, root, p.i4);
    if pdpt == 0 then 0 else
    var pd := Child(m, pdpt, p.i3);
    if pd == 0 then 0 else
    Child(m, pd, p.i2)
  }

  /** The page-table entry that a path reaches; 0 when some level is missing. */
  function Leaf(m: Memory, root: nat, p: Path): nat {
    var pt := LeafTable(m, root, p);
    if pt == 0 then 0 else Entry(m, pt, p.i1)
  }

  /** What vmm_get_physical answers from a leaf entry. */
  function Translate(leaf: nat, virt: nat): nat {
    if Present(leaf) then Or(PageOf(leaf), virt % 4096) else 0
  }

  // ---------------------------------------------------------------- the tree

  /** Level 4 is the kernel PML4, 3 a PDPT, 2 a PD, 1 a PT and 5 the PML4 of another address space;
      parent and slot name the one entry that points to a table of level 1 to 3. */
  datatype Node = Node(level: nat, parent: nat, slot: nat)

  type Shape = map<nat, Node>

  datatype Space = Space(m: Memory, used: set<nat>)

  ghost predicate PagesOk(m: Memory) {
    forall p: nat :: 0 < p < Pmm.MAX_PAGES ==> p * 4096 in m && |m[p * 4096]| == ENTRIES
  }

  ghost predicate TablesUsed(s: Space, sh: Shape) {
    forall t :: t in sh ==> t > 0 && t % 4096 == 0 && t / 4096 < Pmm.MAX_PAGES && t / 4096 in s.used
                            && t in s.m && |s.m[t]| == ENTRIES
  }

  ghost predicate Points(m: Memory, sh: Shape, t: nat, i: nat)
    requires t in sh && sh[t].level > 0
  {
    Present(Entry(m, t, i)) ==>
      var c := Child(m, t, i);
      c in sh && sh[c] == Node(sh[t].level - 1, t, i)
  }

  /** Every present entry above the leaf level points to a table one level down that no other
      entry of the kernel tree points to. */
  ghost predicate Tree(m: Memory, sh: Shape) {
    forall t, i: nat :: t in sh && 2 <= sh[t].level <= 4 ==> Points(m, sh, t, i)
  }

  /** A present slot of another address space is the kernel's slot, in the upper half. */
  ghost predicate Shares(m: Memory, root: nat, sh: Shape) {
    forall r, i: nat :: r in sh && sh[r].level == 5 && Present(Entry(m, r, i)) ==>
      i >= UPPER_HALF && Entry(m, r, i) == Entry(m, root, i)
  }

  ghost predicate Inv(s: Space, root: nat, sh: Shape) {
    && PagesOk(s.m)
    && TablesUsed(s, sh)
    && root in sh && sh[root].level == 4
    && (forall t :: t in sh && sh[t].level == 4 ==> t == root)
    && Tree(s.m, sh)
    && Shares(s.m, root, sh)
  }

  // ---------------------------------------------------------------- operations

  function Zeros(): seq<nat> { seq(ENTRIES, _ => 0) }

  /** vmm_alloc_page_table: 0 when the bitmap is exhausted. */
  ghost function AllocTable(s: Space): (Space, nat) {
    var p := Pmm.LowestFree(s.used, Pmm.RESERVED_PAGES);
    if p >= Pmm.MAX_PAGES then (s, 0)
    else (Space(s.m[p * 4096 := Zeros()], s.used + {p}), p * 4096)
  }

  function Write(m: Memory, t: nat, i: nat, e: nat): Memory {
    if t in m && i < |m[t]| then
      var words: seq<nat> := m[t][i := e];
      m[t := words]
    else m
  }

  /** The child table at a slot, created when missing. */
  ghost function Descend(s: Space, t: nat, i: nat): (Space, nat) {
    if Present(Entry(s.m, t, i)) then (s, PageOf(Entry(s.m, t, i)))
    else
      var (s1, p) := AllocTable(s);
      if p == 0 then (s1, 0)
      else (Space(Write(s1.m, t, i, p + PRESENT + WRITABLE), s1.used), p)
  }

  /** vmm_get_or_create_entry: the leaf table of a path, or 0 when pages run out. */
  ghost function GetOrCreate(s: Space, root: nat, p: Path): (Space, nat) {
    var (s1, pdpt) := Descend(s, root, p.i4);
    if pdpt == 0 then (s1, 0) else
    var (s2, pd) := Descend(s1, pdpt, p.i3);
    if pd == 0 then (s2, 0) else
    Descend(s2, pd, p.i2)
  }

  ghost function SetEntry(s: Space, root: nat, p: Path, e: nat): (Space, bool) {
    var (s1, pt) := GetOrCreate(s, root, p);
    if pt == 0 then (s1, false) else (s1.(m := Write(s1.m, pt, p.i1, e)), true)
  }

  /** The entry vmm_map_page stores. */
  function MapEntry(phys: nat, flags: nat): nat { Or(Or(PageOf(phys), flags), PRESENT) }

  // ---------------------------------------------------------------- one level

  lemma LowestFreeIsFree(used: set<nat>, from: nat)
    ensures var p := Pmm.LowestFree(used, from); p < Pmm.MAX_PAGES ==> p >= from && p !in used
    decreases Pmm.MAX_PAGES - from
  {
    if from < Pmm.MAX_PAGES && from in used { LowestFreeIsFree(used, from + 1); }
  }

  ghost function ShapeAfter(s: Space, sh: Shape, t: nat, i: nat): Shape
  {
    var c := Descend(s, t, i).1;
    if t !in sh || sh[t].level == 0 || c == 0 || Present(Entry(s.m, t, i)) then sh
    else sh[c := Node(sh[t].level - 1, t, i)]
  }

  /** A fresh table is not yet part of the tree. */
  lemma FreshTable(s: Space, root: nat, sh: Shape)
    requires Inv(s, root, sh) && AllocTable(s).1 != 0
    ensures var (s1, c) := AllocTable(s);
            && c !in sh && c in s.m && c % 4096 == 0
            && s1.m == s.m[c := Zeros()] && s1.used == s.used + {c / 4096}
            && c / 4096 !in s.used && Pmm.RESERVED_PAGES <= c / 4096 < Pmm.MAX_PAGES
  {
    LowestFreeIsFree(s.used, Pmm.RESERVED_PAGES);
  }

  /** Creating a table writes one slot and zeroes one page outside the tree. */
  lemma DescendEntries(s: Space, root: nat, sh: Shape, t: nat, i: nat)
    requires Inv(s, root, sh) && t in sh && i < ENTRIES
    requires !Present(Entry(s.m, t, i)) && AllocTable(s).1 != 0
    ensures var (s1, c) := Descend(s, t, i);
            && PageOf(c + 3) == c
            && PagesOk(s1.m)
            && forall u, j: nat :: Entry(s1.m, u, j) == if u == t && j == i then c + 3
                                                        else if u == c then 0 else Entry(s.m, u, j)
  {
    FreshTable(s, root, sh);
  }

  lemma CreateKeepsInv(s: Space, root: nat, sh: Shape, t: nat, i: nat)
    requires Inv(s, root, sh) && t in sh && 2 <= sh[t].level <= 4 && i < ENTRIES
    requires !Present(Entry(s.m, t, i)) && AllocTable(s).1 != 0
    ensures Inv(Descend(s, t, i).0, root, ShapeAfter(s, sh, t, i))
  {
    FreshTable(s, root, sh);
    DescendEntries(s, root, sh, t, i);
    var (s1, c) := Descend(s, t, i);
    var sh1 := ShapeAfter(s, sh, t, i);
    assert TablesUsed(s1, sh1);
    forall u, j: nat | u in sh1 && 2 <= sh1[u].level <= 4 ensures Points(s1.m, sh1, u, j) {
      if u in sh { assert Points(s.m, sh, u, j); }
    }
    assert Shares(s1.m, root, sh1);
  }

  lemma DescendKeepsInv(s: Space, root: nat, sh: Shape, t: nat, i: nat)
    requires Inv(s, root, sh) && t in sh && 2 <= sh[t].level <= 4 && i < ENTRIES
    ensures Inv(Descend(s, t, i).0, root, ShapeAfter(s, sh, t, i))
  {
    LowestFreeIsFree(s.used, Pmm.RESERVED_PAGES);
    if !Present(Entry(s.m, t, i)) && AllocTable(s).1 != 0 {
      CreateKeepsInv(s, root, sh, t, i);
    }
  }

  lemma NewChild(m: Memory, t: nat, i: nat, c: nat)
    requires c % 4096 == 0 && Entry(m, t, i) == c + 3
    ensures Child(m, t, i) == c
  {
  }

  lemma CreateResult(s: Space, root: nat, sh: Shape, t: nat, i: nat)
    requires Inv(s, root, sh) && t in sh && 2 <= sh[t].level <= 4 && i < ENTRIES
    requires !Present(Entry(s.m, t, i)) && AllocTable(s).1 != 0
    ensures var (s1, c) := Descend(s, t, i);
            && c == AllocTable(s).1 && c !in sh && Child(s1.m, t, i) == c
            && ShapeAfter(s, sh, t, i) == sh[c := Node(sh[t].level - 1, t, i)]
  {
    FreshTable(s, root, sh);
    DescendEntries(s, root, sh, t, i);
    var (s1, c) := Descend(s, t, i);
    NewChild(s1.m, t, i, c);
  }

  lemma DescendResult(s: Space, root: nat, sh: Shape, t: nat, i: nat)
    requires Inv(s, root, sh) && t in sh && 2 <= sh[t].level <= 4 && i < ENTRIES
    ensures var (s1, c) := Descend(s, t, i);
            var sh1 := ShapeAfter(s, sh, t, i);
            && (c != 0 ==> c in sh1 && sh1[c] == Node(sh[t].level - 1, t, i) && Child(s1.m, t, i) == c)
            && (c == 0 ==> s1 == s)
            && forall x :: x in sh ==> x in sh1 && sh1[x] == sh[x]
  {
    LowestFreeIsFree(s.used, Pmm.RESERVED_PAGES);
    if Present(Entry(s.m, t, i)) {
      assert Points(s.m, sh, t, i);
    } else if AllocTable(s).1 != 0 {
      CreateResult(s, root, sh, t, i);
    }
  }

  /** Creating a table changes no translation, seen from the kernel or from another address space. */
  lemma DescendKeepsLeaves(s: Space, root: nat, sh: Shape, t: nat, i: nat, r: nat, p: Path)
    requires Inv(s, root, sh) && t in sh && 2 <= sh[t].level <= 4 && i < ENTRIES
    requires r in sh && 4 <= sh[r].level <= 5
    ensures Leaf(Descend(s, t, i).0.m, r, p) == Leaf(s.m, r, p)
  {
    LowestFreeIsFree(s.used, Pmm.RESERVED_PAGES);
    if !Present(Entry(s.m, t, i)) && AllocTable(s).1 != 0 {
      FreshTable(s, root, sh);
      DescendEntries(s, root, sh, t, i);
      WalkStays(s, root, sh, r, p);
    }
  }

  /** The tables met on a walk belong to the tree, each hanging from the slot it was reached by. */
  lemma WalkStays(s: Space, root: nat, sh: Shape, r: nat, p: Path)
    requires Inv(s, root, sh) && r in sh && 4 <= sh[r].level <= 5
    ensures var a := Child(s.m, r, p.i4);
            var b := Child(s.m, a, p.i3);
            var c := Child(s.m, b, p.i2);
            && (a != 0 ==> a in sh && sh[a] == Node(3, root, p.i4) && a == Child(s.m, root, p.i4))
            && (a != 0 && b != 0 ==> b in sh && sh[b] == Node(2, a, p.i3))
            && (a != 0 && b != 0 && c != 0 ==> c in sh && sh[c] == Node(1, b, p.i2))
  {
    assert Points(s.m, sh, root, p.i4);
    var a := Child(s.m, r, p.i4);
    if a != 0 {
      assert Points(s.m, sh, a, p.i3);
      var b := Child(s.m, a, p.i3);
      if b != 0 { assert Points(s.m, sh, b, p.i2); }
    }
  }

  // ---------------------------------------------------------------- the whole walk

  ghost function ShapeAfterWalk(s: Space, root: nat, sh: Shape, p: Path): Shape {
    var (s1, pdpt) := Descend(s, root, p.i4);
    var sh1 := ShapeAfter(s, sh, root, p.i4);
    if pdpt == 0 then sh1 else
    var (s2, pd) := Descend(s1, pdpt, p.i3);
    var sh2 := ShapeAfter(s1, sh1, pdpt, p.i3);
    if pd == 0 then sh2 else ShapeAfter(s2, sh2, pd, p.i2)
  }

  predicate PathOk(p: Path) { p.i4 < ENTRIES && p.i3 < ENTRIES && p.i2 < ENTRIES && p.i1 < ENTRIES }

  /** vmm_get_or_create_entry keeps the tree, keeps every translation, and on success returns the
      leaf table of the path. */
  lemma GetOrCreateCorrect(s: Space, root: nat, sh: Shape, p: Path)
    requires Inv(s, root, sh) && PathOk(p)
    ensures var (s3, pt) := GetOrCreate(s, root, p);
            var sh3 := ShapeAfterWalk(s, root, sh, p);
            && Inv(s3, root, sh3)
            && (forall x :: x in sh ==> x in sh3 && sh3[x] == sh[x])
            && (pt != 0 ==> pt == LeafTable(s3.m, root, p) && pt in sh3 && sh3[pt].level == 1)
    ensures forall r, q :: r in sh && 4 <= sh[r].level <= 5 ==>
                             Leaf(GetOrCreate(s, root, p).0.m, r, q) == Leaf(s.m, r, q)
  {
    DescendKeepsInv(s, root, sh, root, p.i4);
    DescendResult(s, root, sh, root, p.i4);
    var (s1, pdpt) := Descend(s, root, p.i4);
    var sh1 := ShapeAfter(s, sh, root, p.i4);
    forall r, q | r in sh && 4 <= sh[r].level <= 5 ensures Leaf(s1.m, r, q) == Leaf(s.m, r, q) {
      DescendKeepsLeaves(s, root, sh, root, p.i4, r, q);
    }
    if pdpt != 0 {
      LowerLevelsCorrect(s1, root, sh1, pdpt, p);
    }
  }

  lemma LowerLevelsCorrect(s: Space, root: nat, sh: Shape, pdpt: nat, p: Path)
    requires Inv(s, root, sh) && PathOk(p)
    requires pdpt in sh && sh[pdpt].level == 3 && pdpt != 0 && Child(s.m, root, p.i4) == pdpt
    ensures var (s1, pd) := Descend(s, pdpt, p.i3);
            var sh1 := ShapeAfter(s, sh, pdpt, p.i3);
            && Inv(s1, root, sh1)
            && (pd == 0 ==> s1 == s)
            && (forall x :: x in sh ==> x in sh1 && sh1[x] == sh[x])
            && (forall r, q :: r in sh && 4 <= sh[r].level <= 5 ==> Leaf(s1.m, r, q) == Leaf(s.m, r, q))
            && (pd != 0 ==>
                  && pd in sh1 && sh1[pd].level == 2
                  && var (s2, pt) := Descend(s1, pd, p.i2);
                     var sh2 := ShapeAfter(s1, sh1, pd, p.i2);
                     && Inv(s2, root, sh2)
                     && (forall x :: x in sh ==> x in sh2 && sh2[x] == sh[x])
                     && (forall r, q :: r in sh && 4 <= sh[r].level <= 5 ==> Leaf(s2.m, r, q) == Leaf(s.m, r, q))
                     && (pt != 0 ==> pt == LeafTable(s2.m, root, p) && pt in sh2 && sh2[pt].level == 1))
  {
    DescendKeepsInv(s, root, sh, pdpt, p.i3);
    DescendResult(s, root, sh, pdpt, p.i3);
    var (s1, pd) := Descend(s, pdpt, p.i3);
    var sh1 := ShapeAfter(s, sh, pdpt, p.i3);
    forall r, q | r in sh && 4 <= sh[r].level <= 5 ensures Leaf(s1.m, r, q) == Leaf(s.m, r, q) {
      DescendKeepsLeaves(s, root, sh, pdpt, p.i3, r, q);
    }
    SlotSurvives(s, root, sh, pdpt, p.i3, root, p.i4);
    if pd != 0 {
      DescendKeepsInv(s1, root, sh1, pd, p.i2);
      DescendResult(s1, root, sh1, pd, p.i2);
      var s2 := Descend(s1, pd, p.i2).0;
      forall r, q | r in sh && 4 <= sh[r].level <= 5 ensures Leaf(s2.m, r, q) == Leaf(s.m, r, q) {
        DescendKeepsLeaves(s1, root, sh1, pd, p.i2, r, q);
      }
      SlotSurvives(s1, root, sh1, pd, p.i2, root, p.i4);
      SlotSurvives(s1, root, sh1, pd, p.i2, pdpt, p.i3);
    }
  }

  /** Slots that the kernel's own maps and unmaps never rewrite: the present ones and those of
      other address spaces. */
  ghost predicate Fixed(s: Space, sh: Shape, u: nat, j: nat) {
    u in sh && (Present(Entry(s.m, u, j)) || sh[u].level == 5)
  }

  lemma SlotSurvives(s: Space, root: nat, sh: Shape, t: nat, i: nat, u: nat, j: nat)
    requires Inv(s, root, sh) && t in sh && 2 <= sh[t].level <= 4 && i < ENTRIES
    requires Fixed(s, sh, u, j)
    ensures Entry(Descend(s, t, i).0.m, u, j) == Entry(s.m, u, j)
  {
    LowestFreeIsFree(s.used, Pmm.RESERVED_PAGES);
    if !Present(Entry(s.m, t, i)) && AllocTable(s).1 != 0 {
      FreshTable(s, root, sh);
      DescendEntries(s, root, sh, t, i);
    }
  }

  /** Writing a leaf entry changes the translation of one path and of no other. */
  lemma SetEntryCorrect(s: Space, root: nat, sh: Shape, p: Path, e: nat)
    requires Inv(s, root, sh) && PathOk(p)
    ensures var (s4, ok) := SetEntry(s, root, p, e);
            && Inv(s4, root, ShapeAfterWalk(s, root, sh, p))
            && forall q :: PathOk(q) ==> Leaf(s4.m, root, q) == if ok && q == p then e else Leaf(s.m, root, q)
    ensures forall t, i: nat :: Fixed(s, sh, t, i) && sh[t].level >= 2 ==>
                                  Entry(SetEntry(s, root, p, e).0.m, t, i) == Entry(s.m, t, i)
  {
    GetOrCreateCorrect(s, root, sh, p);
    TopSlotsSurvive(s, root, sh, p);
    var (s3, pt) := GetOrCreate(s, root, p);
    if pt != 0 {
      WriteLeafCorrect(s3, root, ShapeAfterWalk(s, root, sh, p), p, e);
    }
  }

  lemma WriteLeafCorrect(s: Space, root: nat, sh: Shape, p: Path, e: nat)
    requires Inv(s, root, sh) && PathOk(p)
    requires var pt := LeafTable(s.m, root, p); pt != 0 && pt in sh && sh[pt].level == 1
    ensures var m1 := Write(s.m, LeafTable(s.m, root, p), p.i1, e);
            && Inv(s.(m := m1), root, sh)
            && (forall t, i: nat :: t in sh && sh[t].level >= 2 ==> Entry(m1, t, i) == Entry(s.m, t, i))
            && forall q :: PathOk(q) ==> Leaf(m1, root, q) == if q == p then e else Leaf(s.m, root, q)
  {
    var pt := LeafTable(s.m, root, p);
    var m1 := Write(s.m, pt, p.i1, e);
    assert forall u, j: nat :: Entry(m1, u, j) == if u == pt && j == p.i1 then e else Entry(s.m, u, j);
    forall t, i: nat | t in sh && 2 <= sh[t].level <= 4 ensures Points(m1, sh, t, i) {
      assert Points(s.m, sh, t, i);
    }
    WalkStays(s, root, sh, root, p);
    forall q | PathOk(q) ensures Leaf(m1, root, q) == if q == p then e else Leaf(s.m, root, q) {
      WalkStays(s, root, sh, root, q);
    }
  }

  lemma TopSlotsSurvive(s: Space, root: nat, sh: Shape, p: Path)
    requires Inv(s, root, sh) && PathOk(p)
    ensures forall t, i: nat :: Fixed(s, sh, t, i) ==>
                                  Entry(GetOrCreate(s, root, p).0.m, t, i) == Entry(s.m, t, i)
  {
    DescendKeepsInv(s, root, sh, root, p.i4);
    DescendResult(s, root, sh, root, p.i4);
    var (s1, pdpt) := Descend(s, root, p.i4);
    var sh1 := ShapeAfter(s, sh, root, p.i4);
    forall t, i: nat | Fixed(s, sh, t, i) ensures Entry(s1.m, t, i) == Entry(s.m, t, i) {
      SlotSurvives(s, root, sh, root, p.i4, t, i);
    }
    if pdpt != 0 {
      DescendKeepsInv(s1, root, sh1, pdpt, p.i3);
      DescendResult(s1, root, sh1, pdpt, p.i3);
      var (s2, pd) := Descend(s1, pdpt, p.i3);
      var sh2 := ShapeAfter(s1, sh1, pdpt, p.i3);
      forall t, i: nat | Fixed(s, sh, t, i) ensures Entry(s2.m, t, i) == Entry(s.m, t, i) {
        SlotSurvives(s1, root, sh1, pdpt, p.i3, t, i);
      }
      if pd != 0 {
        forall t, i: nat | Fixed(s, sh, t, i)
          ensures Entry(Descend(s2, pd, p.i2).0.m, t, i) == Entry(s.m, t, i)
        {
          SlotSurvives(s2, root, sh2, pd, p.i2, t, i);
        }
      }
    }
  }

  // ---------------------------------------------------------------- how many pages a walk takes

  ghost function FreeSet(used: set<nat>): set<nat> {
    Pmm.Range(Pmm.RESERVED_PAGES, Pmm.MAX_PAGES) - used
  }

  /** Number of tables missing on a path. */
  function Missing(m: Memory, root: nat, p: Path): nat {
    var pdpt := Child(m, root, p.i4);
    if pdpt == 0 then 3 else
    var pd := Child(m, pdpt, p.i3);
    if pd == 0 then 2 else
    if Child(m, pd, p.i2) == 0 then 1 else 0
  }

  lemma TakeFree(used: set<nat>, p: nat)
    requires p in FreeSet(used)
    ensures |used + {p}| == |used| + 1 && |FreeSet(used + {p})| == |FreeSet(used)| - 1
  {
    assert FreeSet(used + {p}) == FreeSet(used) - {p};
  }

  lemma LowestFreeExists(used: set<nat>)
    ensures var p := Pmm.LowestFree(used, Pmm.RESERVED_PAGES);
            if FreeSet(used) == {} then p >= Pmm.MAX_PAGES else p in FreeSet(used) && p >= Pmm.RESERVED_PAGES
  {
    var p := Pmm.LowestFree(used, Pmm.RESERVED_PAGES);
    LowestFreeIsFree(used, Pmm.RESERVED_PAGES);
    if p < Pmm.MAX_PAGES {
      assert p in FreeSet(used);
    } else if FreeSet(used) != {} {
      var q :| q in FreeSet(used);
      NoneBelowLowest(used, Pmm.RESERVED_PAGES, q);
    }
  }

  lemma AllocTakesOne(s: Space)
    ensures var (s1, c) := AllocTable(s);
            if FreeSet(s.used) == {} then c == 0 && s1 == s
            else c != 0 && |s1.used| == |s.used| + 1 && |FreeSet(s1.used)| == |FreeSet(s.used)| - 1
  {
    LowestFreeExists(s.used);
    if FreeSet(s.used) != {} { TakeFree(s.used, Pmm.LowestFree(s.used, Pmm.RESERVED_PAGES)); }
  }

  lemma NoneBelowLowest(used: set<nat>, from: nat, q: nat)
    requires from <= q < Pmm.MAX_PAGES && q !in used
    ensures Pmm.LowestFree(used, from) <= q
    decreases Pmm.MAX_PAGES - from
  {
    if from in used { NoneBelowLowest(used, from + 1, q); }
  }

  lemma DescendCost(s: Space, root: nat, sh: Shape, t: nat, i: nat)
    requires Inv(s, root, sh) && t in sh && 2 <= sh[t].level <= 4 && i < ENTRIES
    ensures var (s1, c) := Descend(s, t, i);
            if Child(s.m, t, i) != 0 then s1 == s && c == Child(s.m, t, i)
            else if FreeSet(s.used) == {} then s1 == s && c == 0
            else && c != 0 && (forall j: nat :: Child(s1.m, c, j) == 0)
                 && |s1.used| == |s.used| + 1 && |FreeSet(s1.used)| == |FreeSet(s.used)| - 1
  {
    assert Points(s.m, sh, t, i);
    AllocTakesOne(s);
    if !Present(Entry(s.m, t, i)) && AllocTable(s).1 != 0 {
      FreshTable(s, root, sh);
      DescendEntries(s, root, sh, t, i);
    }
  }

  /** A walk takes one page for each missing table while pages last, and succeeds exactly when
      they last. */
  lemma GetOrCreateCost(s: Space, root: nat, sh: Shape, p: Path)
    requires Inv(s, root, sh) && PathOk(p)
    ensures var (s3, pt) := GetOrCreate(s, root, p);
            var missing, free := Missing(s.m, root, p), |FreeSet(s.used)|;
            && |s3.used| == |s.used| + Min(missing, free)
            && (pt != 0 <==> missing <= free)
  {
    DescendKeepsInv(s, root, sh, root, p.i4);
    DescendResult(s, root, sh, root, p.i4);
    DescendCost(s, root, sh, root, p.i4);
    var (s1, pdpt) := Descend(s, root, p.i4);
    var sh1 := ShapeAfter(s, sh, root, p.i4);
    if pdpt != 0 {
      DescendKeepsInv(s1, root, sh1, pdpt, p.i3);
      DescendResult(s1, root, sh1, pdpt, p.i3);
      DescendCost(s1, root, sh1, pdpt, p.i3);
      var (s2, pd) := Descend(s1, pdpt, p.i3);
      if pd != 0 {
        DescendCost(s2, root, ShapeAfter(s1, sh1, pdpt, p.i3), pd, p.i2);
      }
    }
  }

  // ---------------------------------------------------------------- address spaces

  function UpperHalf(m: Memory, root: nat): seq<nat> {
    seq(ENTRIES, i requires 0 <= i => if i < UPPER_HALF then 0 else Entry(m, root, i))
  }

  /** vmm_create_address_space: a PML4 whose upper half is copied from the kernel's. */
  ghost function CreateSpace(s: Space, root: nat): (Space, nat) {
    var (s1, r) := AllocTable(s);
    if r == 0 then (s1, 0) else (s1.(m := s1.m[r := UpperHalf(s.m, root)]), r)
  }

  ghost function ShapeAfterCreate(s: Space, root: nat, sh: Shape): Shape {
    var r := CreateSpace(s, root).1;
    if r == 0 then sh else sh[r := Node(5, 0, 0)]
  }

  lemma CreateSpaceCorrect(s: Space, root: nat, sh: Shape)
    requires Inv(s, root, sh)
    ensures var (s1, r) := CreateSpace(s, root);
            var sh1 := ShapeAfterCreate(s, root, sh);
            && Inv(s1, root, sh1)
            && (r == 0 ==> s1 == s) && (r != 0 ==> r !in sh)
            && (forall t :: t in sh ==> t in sh1 && sh1[t] == sh[t] && s1.m[t] == s.m[t])
            && (r != 0 ==> forall i: nat :: i < 512 ==>
                             Entry(s1.m, r, i) == if i < 256 then 0 else Entry(s1.m, root, i))
            && forall q :: Leaf(s1.m, root, q) == Leaf(s.m, root, q)
  {
    LowestFreeIsFree(s.used, Pmm.RESERVED_PAGES);
    if AllocTable(s).1 != 0 {
      FreshTable(s, root, sh);
      var (s1, r) := CreateSpace(s, root);
      var sh1 := ShapeAfterCreate(s, root, sh);
      assert forall u, j: nat :: u != r ==> Entry(s1.m, u, j) == Entry(s.m, u, j);
      forall t, i: nat | t in sh1 && 2 <= sh1[t].level <= 4 ensures Points(s1.m, sh1, t, i) {
        assert Points(s.m, sh, t, i);
      }
      forall q ensures Leaf(s1.m, root, q) == Leaf(s.m, root, q) { WalkStays(s, root, sh, root, q); }
    }
  }

  /** Another address space agrees with the kernel on a path exactly when it has the top-level slot
      or the kernel maps nothing there. */
  lemma SpacesAgree(s: Space, root: nat, sh: Shape, r: nat, q: Path)
    requires Inv(s, root, sh) && r in sh && sh[r].level == 5
    ensures Leaf(s.m, r, q) == Leaf(s.m, root, q) <==> Present(Entry(s.m, r, q.i4)) || Leaf(s.m, root, q) == 0
  {
    WalkStays(s, root, sh, r, q);
    WalkStays(s, root, sh, root, q);
  }

  // ---------------------------------------------------------------- runs

  datatype Op =
    | Map(virt: nat, phys: nat, flags: nat)
    | Unmap(virt: nat)
    | NewSpace
    | Other(s: Space)   // anything else the kernel does that leaves the table pages alone

  datatype State = State(s: Space, sh: Shape)

  ghost predicate Ok(st: State, root: nat) { Inv(st.s, root, st.sh) }

  ghost predicate Legal(st: State, op: Op) {
    op.Other? ==> PagesOk(op.s.m) && TablesUsed(op.s, st.sh)
                  && forall t :: t in st.sh ==> t in st.s.m && op.s.m[t] == st.s.m[t]
  }

  /** The write an operation makes to the leaf entry of a path. */
  function Target(op: Op): Path
    requires op.Map? || op.Unmap?
  {
    PathOf(op.virt)
  }

  function Stored(op: Op): nat
    requires op.Map? || op.Unmap?
  {
    if op.Map? then MapEntry(op.phys, op.flags) else 0
  }

  lemma PathOfOk(virt: nat)
    ensures PathOk(PathOf(virt))
  {
  }

  ghost function Step(st: State, root: nat, op: Op): State {
    match op
    case NewSpace => State(CreateSpace(st.s, root).0, ShapeAfterCreate(st.s, root, st.sh))
    case Other(s) => State(s, st.sh)
    case _ =>
      State(SetEntry(st.s, root, Target(op), Stored(op)).0, ShapeAfterWalk(st.s, root, st.sh, Target(op)))
  }

  ghost predicate Succeeds(st: State, root: nat, op: Op) {
    (op.Map? || op.Unmap?) && SetEntry(st.s, root, Target(op), Stored(op)).1
  }

  /** An operation succeeds exactly when the bitmap still holds a page for every missing table. */
  lemma SucceedsWhenPagesSuffice(st: State, root: nat, op: Op)
    requires Ok(st, root) && (op.Map? || op.Unmap?)
    ensures Succeeds(st, root, op) <==> Missing(st.s.m, root, Target(op)) <= |FreeSet(st.s.used)|
    ensures |Step(st, root, op).s.used|
            == |st.s.used| + Min(Missing(st.s.m, root, Target(op)), |FreeSet(st.s.used)|)
  {
    PathOfOk(op.virt);
    GetOrCreateCost(st.s, root, st.sh, Target(op));
  }

  lemma StepCorrect(st: State, root: nat, op: Op)
    requires Ok(st, root) && Legal(st, op)
    ensures var st1 := Step(st, root, op);
            && Ok(st1, root)
            && (forall t :: t in st.sh ==> t in st1.sh && st1.sh[t] == st.sh[t])
            && (forall t, i: nat :: Fixed(st.s, st.sh, t, i) && st.sh[t].level >= 2 ==>
                                      Entry(st1.s.m, t, i) == Entry(st.s.m, t, i))
    ensures forall q :: PathOk(q) ==>
                          Leaf(Step(st, root, op).s.m, root, q)
                          == if Succeeds(st, root, op) && q == Target(op) then Stored(op) else Leaf(st.s.m, root, q)
  {
    match op
    case NewSpace => CreateSpaceCorrect(st.s, root, st.sh);
    case Other(s) => OtherCorrect(st, root, s);
    case _ =>
      PathOfOk(op.virt);
      SetEntryCorrect(st.s, root, st.sh, Target(op), Stored(op));
      GetOrCreateCorrect(st.s, root, st.sh, Target(op));
  }

  lemma OtherCorrect(st: State, root: nat, s: Space)
    requires Ok(st, root) && Legal(st, Other(s))
    ensures Inv(s, root, st.sh)
    ensures forall t, i: nat :: t in st.sh ==> Entry(s.m, t, i) == Entry(st.s.m, t, i)
    ensures forall q :: Leaf(s.m, root, q) == Leaf(st.s.m, root, q)
  {
    assert forall t, i: nat :: t in st.sh ==> Entry(s.m, t, i) == Entry(st.s.m, t, i);
    forall t, i: nat | t in st.sh && 2 <= st.sh[t].level <= 4 ensures Points(s.m, st.sh, t, i) {
      assert Points(st.s.m, st.sh, t, i);
    }
    forall q ensures Leaf(s.m, root, q) == Leaf(st.s.m, root, q) { WalkStays(st.s, root, st.sh, root, q); }
  }

  ghost predicate LegalRun(st: State, root: nat, ops: seq<Op>)
    decreases |ops|
  {
    ops == [] || (Legal(st, ops[0]) && LegalRun(Step(st, root, ops[0]), root, ops[1..]))
  }

  ghost function Run(st: State, root: nat, ops: seq<Op>): State
    decreases |ops|
  {
    if ops == [] then st else Run(Step(st, root, ops[0]), root, ops[1..])
  }

  /** vmm_get_physical, seen from a root. */
  function Physical(m: Memory, root: nat, virt: nat): nat {
    Translate(Leaf(m, root, PathOf(virt)), virt)
  }

  /** The stored entry translates to the frame exactly when no flag bit from 12 up lies outside
      the physical page number; in particular whenever the flags fit in 12 bits. */
  predicate FlagsFit(phys: nat, flags: nat) { Or(phys / 4096, flags / 4096) == phys / 4096 }

  lemma LowFlagsFit(phys: nat, flags: nat)
    requires flags < 4096
    ensures FlagsFit(phys, flags)
  {
  }

  lemma OrPage(a: nat, b: nat)
    ensures Or(a, b) / 4096 == Or(a / 4096, b / 4096)
    ensures Or(a, b) % 4096 == Or(a % 4096, b % 4096)
  {
    assert Pow2(12) == 4096;
    OrSplit(a, b, 12);
    ShrLow(a, 12);
    ShrLow(b, 12);
    ShrLow(Or(a, b), 12);
  }

  /** Or-ing an offset into a page address is adding it. */
  lemma OrOffset(page: nat, off: nat)
    requires page % 4096 == 0 && off < 4096
    ensures Or(page, off) == page + off
  {
    OrPage(page, off);
    var r := Or(page, off);
    assert r / 4096 == page / 4096 && r % 4096 == off;
  }

  lemma MapEntryPage(phys: nat, flags: nat)
    ensures Present(MapEntry(phys, flags))
    ensures PageOf(MapEntry(phys, flags)) == 4096 * Or(phys / 4096, flags / 4096)
  {
    var x := Or(PageOf(phys), flags);
    OrHalves(x, PRESENT);
    OrPage(PageOf(phys), flags);
    OrPage(x, PRESENT);
    assert PageOf(phys) / 4096 == phys / 4096;
    var e := MapEntry(phys, flags);
    assert e / 4096 == x / 4096;
  }

  lemma MapEntryTranslates(phys: nat, flags: nat, virt: nat)
    ensures Present(MapEntry(phys, flags))
    ensures Translate(MapEntry(phys, flags), virt) == PageOf(phys) + virt % 4096 <==> FlagsFit(phys, flags)
  {
    MapEntryPage(phys, flags);
    OrOffset(PageOf(MapEntry(phys, flags)), virt % 4096);
    assert PageOf(phys) == 4096 * (phys / 4096);
  }

  /** The no-execute flag, bit 63, does not fit. */
  lemma NoExecuteBreaksTranslation(flags: nat, virt: nat)
    requires flags == NO_EXECUTE
    ensures Translate(MapEntry(0, flags), virt) != virt % 4096
  {
    MapEntryTranslates(0, flags, virt);
  }

  // The abstract object: a finite map from virtual page numbers to frame addresses.

  function Lookup(frames: map<nat, nat>, virt: nat): nat {
    if Vpn(virt) in frames then frames[Vpn(virt)] + virt % 4096 else 0
  }

  ghost function FramesAfter(st: State, root: nat, ops: seq<Op>, frames: map<nat, nat>): map<nat, nat>
    decreases |ops|
  {
    if ops == [] then frames
    else FramesAfter(Step(st, root, ops[0]), root, ops[1..], FramesStep(st, root, ops[0], frames))
  }

  ghost function FramesStep(st: State, root: nat, op: Op, frames: map<nat, nat>): map<nat, nat> {
    if !Succeeds(st, root, op) then frames
    else if op.Map? then frames[Vpn(op.virt) := PageOf(op.phys)]
    else frames - {Vpn(op.virt)}
  }

  ghost predicate Refines(m: Memory, root: nat, frames: map<nat, nat>) {
    forall v :: Physical(m, root, v) == Lookup(frames, v)
  }

  lemma StepRefines(st: State, root: nat, op: Op, frames: map<nat, nat>)
    requires Ok(st, root) && Legal(st, op) && Refines(st.s.m, root, frames)
    requires op.Map? ==> FlagsFit(op.phys, op.flags)
    ensures Refines(Step(st, root, op).s.m, root, FramesStep(st, root, op, frames))
  {
    forall v ensures Physical(Step(st, root, op).s.m, root, v) == Lookup(FramesStep(st, root, op, frames), v) {
      StepRefinesAt(st, root, op, frames, v);
    }
  }

  lemma StepRefinesAt(st: State, root: nat, op: Op, frames: map<nat, nat>, v: nat)
    requires Ok(st, root) && Legal(st, op) && Physical(st.s.m, root, v) == Lookup(frames, v)
    requires op.Map? ==> FlagsFit(op.phys, op.flags)
    ensures Physical(Step(st, root, op).s.m, root, v) == Lookup(FramesStep(st, root, op, frames), v)
  {
    PathOfOk(v);
    var q := PathOf(v);
    assert Leaf(Step(st, root, op).s.m, root, q)
        == if Succeeds(st, root, op) && q == Target(op) then Stored(op) else Leaf(st.s.m, root, q) by {
      StepCorrect(st, root, op);
    }
    if Succeeds(st, root, op) {
      SamePath(v, op.virt);
      if op.Map? { MapEntryTranslates(op.phys, op.flags, v); }
    }
  }

  /** After any run of maps and unmaps, interleaved with the creation of address spaces and any
      other activity that leaves the table pages alone, the four-level tree answers as the map
      that the successful operations build. */
  lemma {:induction false} RunRefinesMap(st: State, root: nat, ops: seq<Op>, frames: map<nat, nat>)
    requires Ok(st, root) && LegalRun(st, root, ops) && Refines(st.s.m, root, frames)
    requires forall i :: 0 <= i < |ops| && ops[i].Map? ==> FlagsFit(ops[i].phys, ops[i].flags)
    ensures Ok(Run(st, root, ops), root)
    ensures Refines(Run(st, root, ops).s.m, root, FramesAfter(st, root, ops, frames))
    decreases |ops|
  {
    if ops != [] {
      StepCorrect(st, root, ops[0]);
      StepRefines(st, root, ops[0], frames);
      RunRefinesMap(Step(st, root, ops[0]), root, ops[1..], FramesStep(st, root, ops[0], frames));
    }
  }

  // ---------------------------------------------------------------- entries and their flags

  /** What a caller of vmm_map_page asked for. */
  datatype Mapping = Mapping(phys: nat, flags: nat)

  /** Bit 0 says present, bits from 12 up are those of the frame, and all flag bits are set too. */
  ghost predicate Spells(entry: nat, g: Mapping) {
    forall k: nat :: Bit(entry, k) <==> k == 0 || Bit(g.flags, k) || (k >= 12 && Bit(g.phys, k))
  }

  /** Every mapped page has the entry asked for last; the leaf of any other page is 0. */
  ghost predicate Holds(m: Memory, root: nat, pages: map<nat, Mapping>) {
    forall v: nat :: if Vpn(v) in pages then Spells(Leaf(m, root, PathOf(v)), pages[Vpn(v)])
                     else Leaf(m, root, PathOf(v)) == 0
  }

  /** Bit k lies in the low twelve bits or in the page number. */
  lemma BitOfPage(x: nat, k: nat)
    ensures Bit(PageOf(x), k) <==> k >= 12 && Bit(x, k)
  {
    ClearLowIs(x, 12);
    ShrLow(x, 12);
    assert Pow2(12) == 4096;
    ClearLowBit(x, 12, k);
  }

  lemma MapEntrySpells(phys: nat, flags: nat)
    ensures Spells(MapEntry(phys, flags), Mapping(phys, flags))
  {
    var e := MapEntry(phys, flags);
    forall k: nat ensures Bit(e, k) <==> k == 0 || Bit(flags, k) || (k >= 12 && Bit(phys, k)) {
      OrBit(Or(PageOf(phys), flags), PRESENT, k);
      OrBit(PageOf(phys), flags, k);
      BitOfPage(phys, k);
      assert Pow2(0) == PRESENT;
      Pow2Bit(0, k);
    }
  }

  ghost function PagesStep(st: State, root: nat, op: Op, pages: map<nat, Mapping>): map<nat, Mapping> {
    if !Succeeds(st, root, op) then pages
    else if op.Map? then pages[Vpn(op.virt) := Mapping(op.phys, op.flags)]
    else pages - {Vpn(op.virt)}
  }

  lemma StepHolds(st: State, root: nat, op: Op, pages: map<nat, Mapping>)
    requires Ok(st, root) && Legal(st, op) && Holds(st.s.m, root, pages)
    ensures Holds(Step(st, root, op).s.m, root, PagesStep(st, root, op, pages))
  {
    var m, after := Step(st, root, op).s.m, PagesStep(st, root, op, pages);
    forall v: nat
      ensures if Vpn(v) in after then Spells(Leaf(m, root, PathOf(v)), after[Vpn(v)]) else Leaf(m, root, PathOf(v)) == 0
    {
      PathOfOk(v);
      assert Leaf(m, root, PathOf(v))
          == if Succeeds(st, root, op) && PathOf(v) == Target(op) then Stored(op)
             else Leaf(st.s.m, root, PathOf(v)) by {
        StepCorrect(st, root, op);
      }
      if Succeeds(st, root, op) {
        SamePath(v, op.virt);
        if op.Map? { MapEntrySpells(op.phys, op.flags); }
      }
    }
  }

  ghost function PagesAfter(st: State, root: nat, ops: seq<Op>, pages: map<nat, Mapping>): map<nat, Mapping>
    decreases |ops|
  {
    if ops == [] then pages
    else PagesAfter(Step(st, root, ops[0]), root, ops[1..], PagesStep(st, root, ops[0], pages))
  }

  /** Over every run, whatever the flags, the leaf entries are those of a finite map from page numbers
      to frames and flags. */
  lemma {:induction false} RunHolds(st: State, root: nat, ops: seq<Op>, pages: map<nat, Mapping>)
    requires Ok(st, root) && LegalRun(st, root, ops) && Holds(st.s.m, root, pages)
    ensures Holds(Run(st, root, ops).s.m, root, PagesAfter(st, root, ops, pages))
    decreases |ops|
  {
    if ops != [] {
      StepCorrect(st, root, ops[0]);
      StepHolds(st, root, ops[0], pages);
      RunHolds(Step(st, root, ops[0]), root, ops[1..], PagesStep(st, root, ops[0], pages));
    }
  }

  /** Whatever the kernel maps and unmaps later, an address space keeps its top-level slots, so it
      agrees with the kernel on a path exactly when the slot was there at the start of the run or
      the kernel ends up mapping nothing at the path. */
  lemma {:induction false} SpacesAgreeAfterRun(st: State, root: nat, ops: seq<Op>, r: nat, q: Path)
    requires Ok(st, root) && LegalRun(st, root, ops)
    requires r in st.sh && st.sh[r].level == 5
    ensures var m := Run(st, root, ops).s.m;
            && Entry(m, r, q.i4) == Entry(st.s.m, r, q.i4)
            && (Leaf(m, r, q) == Leaf(m, root, q) <==> Present(Entry(st.s.m, r, q.i4)) || Leaf(m, root, q) == 0)
    decreases |ops|
  {
    if ops == [] {
      SpacesAgree(st.s, root, st.sh, r, q);
    } else {
      StepCorrect(st, root, ops[0]);
      assert Fixed(st.s, st.sh, r, q.i4);
      SpacesAgreeAfterRun(Step(st, root, ops[0]), root, ops[1..], r, q);
    }
  }

  /** A single zeroed PML4 is a tree that maps nothing. */
  lemma EmptyTree(s: Space, root: nat)
    requires PagesOk(s.m) && root % 4096 == 0 && 0 < root / 4096 < Pmm.MAX_PAGES && root / 4096 in s.used
    requires root in s.m && s.m[root] == Zeros()
    ensures Inv(s, root, map[root := Node(4, 0, 0)]) && Refines(s.m, root, map[]) && Holds(s.m, root, map[])
  {
    assert forall i: nat :: Entry(s.m, root, i) == 0;
  }

  // ---------------------------------------------------------------- the manager

  class Manager {
    var memory: Memory
    var kernelPml4: nat
    const pmm: Pmm.Manager
    ghost var shape: Shape

    ghost function Abs(): Space
      reads this`memory, pmm`used
    {
      Space(memory, pmm.used)
    }

    ghost predicate Valid()
      reads this, pmm, pmm.bitmap
    {
      && pmm.Valid()
      && PagesOk(memory)
      && (kernelPml4 != 0 ==> Inv(Abs(), kernelPml4, shape))
    }

    /** Physical memory may hold anything before the manager touches it. */
    constructor (pmm: Pmm.Manager, memory: Memory)
      requires pmm.Valid() && PagesOk(memory)
      ensures Valid() && kernelPml4 == 0 && this.pmm == pmm && this.memory == memory
    {
      this.pmm, this.memory, kernelPml4, shape := pmm, memory, 0, map[];
    }

    /** Whatever CR3 holds becomes the kernel's PML4, as long as it is the root of a tree; when it
        holds none, one is allocated and cleared. Pages running out, in which case the kernel halts,
        is ok == false. */
    method Init(cr3: nat, ghost tree: Shape) returns (ok: bool)
      requires Valid() && (cr3 != 0 ==> Inv(Abs(), cr3, tree))
      modifies this, pmm`usedPages, pmm`used, pmm.bitmap
      ensures Valid() && ok == (kernelPml4 != 0)
      ensures cr3 != 0 ==> kernelPml4 == cr3 && shape == tree && Abs() == old(Abs())
      ensures cr3 == 0 ==> (ok <==> FreeSet(old(pmm.used)) != {})
      ensures cr3 == 0 && ok ==> Refines(memory, kernelPml4, map[])
    {
      kernelPml4, shape := cr3, tree;
      if cr3 != 0 {
        return true;
      }
      ok := FreshRoot();
    }

    /** The branch that allocates and clears a PML4. */
    method FreshRoot() returns (ok: bool)
      requires pmm.Valid() && PagesOk(memory) && kernelPml4 == 0
      modifies this, pmm`usedPages, pmm`used, pmm.bitmap
      ensures Valid() && ok == (kernelPml4 != 0) && (ok <==> FreeSet(old(pmm.used)) != {})
      ensures ok ==> Refines(memory, kernelPml4, map[])
    {
      LowestFreeExists(pmm.used);
      var root := pmm.AllocPage();
      if root == 0 {
        return false;
      }
      memory := ClearPage(memory, root);
      EmptyTree(Abs(), root);
      kernelPml4, shape := root, map[root := Node(4, 0, 0)];
      ok := true;
    }

    method AllocPageTable() returns (addr: nat)
      requires pmm.Valid() && PagesOk(memory)
      modifies this`memory, pmm`usedPages, pmm`used, pmm.bitmap
      ensures pmm.Valid() && PagesOk(memory)
      ensures (Abs(), addr) == AllocTable(old(Abs()))
    {
      LowestFreeIsFree(pmm.used, Pmm.RESERVED_PAGES);
      addr := pmm.AllocPage();
      if addr == 0 {
        return 0;
      }
      memory := ClearPage(memory, addr);
    }

    /** The loop that zeroes the 512 words of a page. */
    static method ClearPage(m0: Memory, addr: nat) returns (m: Memory)
      requires addr in m0 && |m0[addr]| == ENTRIES
      ensures m == m0[addr := Zeros()]
    {
      m := m0;
      for i := 0 to ENTRIES
        invariant m.Keys == m0.Keys && |m[addr]| == ENTRIES
        invariant forall j :: 0 <= j < i ==> m[addr][j] == 0
        invariant forall t :: t in m0 && t != addr ==> m[t] == m0[t]
      {
        m := Write(m, addr, i, 0);
      }
      assert m[addr] == Zeros();
    }

    /** One level of vmm_get_or_create_entry: follow the slot, or hang a new table from it. */
    method DescendInto(t: nat, i: nat) returns (c: nat)
      requires pmm.Valid() && PagesOk(memory)
      modifies this`memory, pmm`usedPages, pmm`used, pmm.bitmap
      ensures pmm.Valid() && PagesOk(memory)
      ensures (Abs(), c) == Descend(old(Abs()), t, i)
    {
      var entry := Entry(memory, t, i);
      if !Present(entry) {
        c := AllocPageTable();
        if c == 0 {
          return 0;
        }
        memory := Write(memory, t, i, c + PRESENT + WRITABLE);
      } else {
        c := PageOf(entry);
      }
    }

    method GetOrCreateEntry(virt: nat) returns (pt: nat)
      requires Valid()
      modifies this`memory, this`shape, pmm`usedPages, pmm`used, pmm.bitmap
      ensures Valid()
      ensures (Abs(), pt) == if kernelPml4 == 0 then (old(Abs()), 0)
                             else GetOrCreate(old(Abs()), kernelPml4, PathOf(virt))
      ensures kernelPml4 != 0 ==> shape == ShapeAfterWalk(old(Abs()), kernelPml4, old(shape), PathOf(virt))
    {
      if kernelPml4 == 0 {
        return 0;
      }
      PathOfOk(virt);
      GetOrCreateCorrect(Abs(), kernelPml4, shape, PathOf(virt));
      ghost var after := ShapeAfterWalk(Abs(), kernelPml4, shape, PathOf(virt));
      pt := DescendInto(kernelPml4, Pml4Index(virt));
      if pt != 0 {
        pt := DescendInto(pt, PdptIndex(virt));
        if pt != 0 {
          pt := DescendInto(pt, PdIndex(virt));
        }
      }
      shape := after;
    }

    method MapPage(virt: nat, phys: nat, flags: nat)
      requires Valid()
      modifies this`memory, this`shape, pmm`usedPages, pmm`used, pmm.bitmap
      ensures Valid()
      ensures kernelPml4 == 0 ==> Abs() == old(Abs())
      ensures kernelPml4 != 0 ==>
                State(Abs(), shape) == Step(State(old(Abs()), old(shape)), kernelPml4, Map(virt, phys, flags))
    {
      StepKeepsOk(Map(virt, phys, flags));
      var pt := GetOrCreateEntry(virt);
      if pt == 0 {
        return;
      }
      memory := Write(memory, pt, PtIndex(virt), MapEntry(phys, flags));
    }

    method UnmapPage(virt: nat)
      requires Valid()
      modifies this`memory, this`shape, pmm`usedPages, pmm`used, pmm.bitmap
      ensures Valid()
      ensures kernelPml4 == 0 ==> Abs() == old(Abs())
      ensures kernelPml4 != 0 ==>
                State(Abs(), shape) == Step(State(old(Abs()), old(shape)), kernelPml4, Unmap(virt))
    {
      StepKeepsOk(Unmap(virt));
      var pt := GetOrCreateEntry(virt);
      if pt == 0 {
        return;
      }
      memory := Write(memory, pt, PtIndex(virt), 0);
    }

    lemma StepKeepsOk(op: Op)
      requires Valid() && !op.Other?
      ensures kernelPml4 != 0 ==> Ok(Step(State(Abs(), shape), kernelPml4, op), kernelPml4)
    {
      if kernelPml4 != 0 { StepCorrect(State(Abs(), shape), kernelPml4, op); }
    }

    method GetPhysical(virt: nat) returns (phys: nat)
      requires Valid()
      ensures phys == if kernelPml4 == 0 then 0 else Physical(memory, kernelPml4, virt)
    {
      if kernelPml4 == 0 {
        return 0;
      }
      PathOfOk(virt);
      assert Points(memory, shape, kernelPml4, Pml4Index(virt));
      var pml4Entry := Entry(memory, kernelPml4, Pml4Index(virt));
      if !Present(pml4Entry) { return 0; }
      assert Points(memory, shape, PageOf(pml4Entry), PdptIndex(virt));
      var pdptEntry := Entry(memory, PageOf(pml4Entry), PdptIndex(virt));
      if !Present(pdptEntry) { return 0; }
      assert Points(memory, shape, PageOf(pdptEntry), PdIndex(virt));
      var pdEntry := Entry(memory, PageOf(pdptEntry), PdIndex(virt));
      if !Present(pdEntry) { return 0; }
      var ptEntry := Entry(memory, PageOf(pdEntry), PtIndex(virt));
      if !Present(ptEntry) { return 0; }
      phys := Or(PageOf(ptEntry), virt % 4096);
    }

    /** The new PML4 shares the kernel's upper half, or is empty while there is no kernel PML4; 0
        when pages run out. */
    method CreateAddressSpace() returns (r: nat)
      requires Valid()
      modifies this`memory, this`shape, pmm`usedPages, pmm`used, pmm.bitmap
      ensures Valid()
      ensures kernelPml4 == 0 ==> (Abs(), r) == AllocTable(old(Abs())) && shape == old(shape)
      ensures kernelPml4 != 0 ==>
                && (Abs(), r) == CreateSpace(old(Abs()), kernelPml4)
                && shape == ShapeAfterCreate(old(Abs()), kernelPml4, old(shape))
      ensures kernelPml4 != 0 && r != 0 ==>
                forall q :: PathOk(q) && q.i4 >= UPPER_HALF ==> Leaf(memory, r, q) == Leaf(memory, kernelPml4, q)
    {
      ghost var before := Abs();
      LowestFreeIsFree(before.used, Pmm.RESERVED_PAGES);
      r := AllocPageTable();
      if r == 0 {
        return 0;
      }
      if kernelPml4 != 0 {
        ShareUpperHalf(r, before);
      }
    }

    method ShareUpperHalf(r: nat, ghost before: Space)
      requires pmm.Valid() && kernelPml4 != 0 && Inv(before, kernelPml4, shape)
      requires (Abs(), r) == AllocTable(before) && r != 0
      modifies this`memory, this`shape
      ensures Valid()
      ensures (Abs(), r) == CreateSpace(before, kernelPml4)
      ensures shape == ShapeAfterCreate(before, kernelPml4, old(shape))
      ensures forall q :: PathOk(q) && q.i4 >= UPPER_HALF ==> Leaf(memory, r, q) == Leaf(memory, kernelPml4, q)
    {
      CreateSpaceCorrect(before, kernelPml4, shape);
      FreshTable(before, kernelPml4, shape);
      ghost var after := ShapeAfterCreate(before, kernelPml4, shape);
      memory := CopyUpperHalf(memory, kernelPml4, r);
      shape := after;
      assert memory[r] == UpperHalf(before.m, kernelPml4);
      forall q | PathOk(q) && q.i4 >= UPPER_HALF ensures Leaf(memory, r, q) == Leaf(memory, kernelPml4, q) {
        SpacesAgree(Abs(), kernelPml4, shape, r, q);
      }
    }

    static method CopyUpperHalf(m0: Memory, root: nat, r: nat) returns (m: Memory)
      requires root in m0 && |m0[root]| == ENTRIES && r in m0 && m0[r] == Zeros() && root != r
      ensures m == m0[r := UpperHalf(m0, root)]
    {
      m := m0;
      for i := UPPER_HALF to ENTRIES
        invariant m.Keys == m0.Keys && |m[r]| == ENTRIES
        invariant forall j :: 0 <= j < ENTRIES ==> m[r][j] == if UPPER_HALF <= j < i then m0[root][j] else 0
        invariant forall t :: t in m0 && t != r ==> m[t] == m0[t]
      {
        m := Write(m, r, i, Entry(m, root, i));
      }
      assert m[r] == UpperHalf(m0, root);
    }
  }
}
