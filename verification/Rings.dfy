/** Ring buffers addressed by ever-growing counters, of which only the low bits are stored. */
module Rings {
  import opened Bits

  /** The counters of a split virtqueue are 16 bits wide. */
  const WRAP := 0x1_0000

  function Slot(n: nat, size: nat): (r: nat)
    requires size > 0
    ensures r < size
  {
    n % size
  }

  lemma SlotsDiffer(i: nat, j: nat, size: nat)
    requires size > 0 && i < j < i + size
    ensures Slot(i, size) != Slot(j, size)
  {
    var d := j / size - i / size;
    assert j - i == size * d + (j % size - i % size);
    assert d >= 1 ==> size * d >= size;
    assert d <= 0 ==> size * d <= 0;
  }

  /** Position i of the items sits at counter start + i. */
  ghost predicate HoldsAt<T>(ring: seq<T>, start: nat, items: seq<T>, i: nat)
    requires |ring| > 0 && i < |items|
  {
    ring[Slot(start + i, |ring|)] == items[i]
  }

  ghost predicate Holds<T>(ring: seq<T>, start: nat, items: seq<T>)
    requires |ring| > 0
  {
    forall i :: 0 <= i < |items| ==> HoldsAt(ring, start, items, i)
  }

  /** Writing the slot after the last item of a ring that is not full disturbs none of them. */
  lemma Push<T>(ring: seq<T>, start: nat, items: seq<T>, x: T)
    requires |ring| > 0 && Holds(ring, start, items) && |items| < |ring|
    ensures Holds(ring[Slot(start + |items|, |ring|) := x], start, items + [x])
  {
    var n := |items|;
    var r := ring[Slot(start + n, |ring|) := x];
    forall i | 0 <= i < n + 1 ensures HoldsAt(r, start, items + [x], i) {
      if i < n {
        assert HoldsAt(ring, start, items, i);
        SlotsDiffer(start + i, start + n, |ring|);
      }
    }
  }

  lemma Pop<T>(ring: seq<T>, start: nat, items: seq<T>)
    requires |ring| > 0 && Holds(ring, start, items) && items != []
    ensures ring[Slot(start, |ring|)] == items[0]
    ensures Holds(ring, start + 1, items[1..])
  {
    assert HoldsAt(ring, start, items, 0);
    var rest, next := items[1..], start + 1;
    forall i | 0 <= i < |rest| ensures HoldsAt(ring, next, rest, i) {
      assert HoldsAt(ring, start, items, i + 1);
      assert start + 1 + i == start + (i + 1);
    }
  }

  /** Masking a wrapped counter with size - 1 gives its slot, for power-of-two sizes up to 2^15. */
  lemma {:induction false} MaskedSlot(n: nat, size: nat)
    requires IsPow2(size) && size < WRAP
    ensures size > 0 && And(n % WRAP, size - 1) == Slot(n, size)
  {
    var k := IsPow2Exponent(size);
    AndMask(n % WRAP, k);
    Divides(size);
    var d := WRAP / size;
    assert n == WRAP * (n / WRAP) + n % WRAP;
    ModMultiple(n, n / WRAP, size, d);
  }

  lemma {:induction false} Divides(size: nat)
    requires IsPow2(size) && size < WRAP
    ensures size > 0 && size * (WRAP / size) == WRAP
  {
    var k := IsPow2Exponent(size);
    PowSplit(8, 8);
    assert Pow2(8) == 256 && Pow2(16) == WRAP;
    if k >= 16 { Pow2Monotone(16, k); }
    PowSplit(k, 16 - k);
    DivModUnique(WRAP, size, Pow2(16 - k), 0);
  }

  lemma {:induction false} PowSplit(a: nat, b: nat)
    ensures Pow2(a + b) == Pow2(a) * Pow2(b)
  {
    if a > 0 {
      PowSplit(a - 1, b);
      DoubleProduct(Pow2(a - 1), Pow2(b));
    }
  }

  /** Subtracting a multiple of a multiple of the modulus keeps the remainder. */
  lemma ModMultiple(n: nat, q: nat, size: nat, d: nat)
    requires size > 0 && size * d == WRAP && n == WRAP * q + n % WRAP
    ensures n % WRAP % size == n % size
  {
    var m := n % WRAP;
    var a, r := m / size, m % size;
    assert n == size * (d * q + a) + r by {
      assert WRAP * q == size * (d * q) by { assert size * (d * q) == (size * d) * q; }
      assert size * (d * q + a) == size * (d * q) + size * a;
    }
    DivModUnique(n, size, d * q + a, r);
  }

  lemma WrapNext(n: nat)
    ensures (n % WRAP + 1) % WRAP == (n + 1) % WRAP
  {
  }

  /** Two counters less than a full wrap apart are equal exactly when their low 16 bits are. */
  lemma WrappedEqual(i: nat, j: nat)
    requires i <= j < i + 65536
    ensures i % 65536 == j % 65536 <==> i == j
  {
  }
}
