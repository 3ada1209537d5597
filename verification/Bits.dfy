/** Machine words as natural numbers, with the bitwise operators of the kernel's C code.
    Bit 0 is the least significant bit. */
module Bits {

  function Pow2(k: nat): (r: nat)
    ensures r > 0
  {
    if k == 0 then 1 else 2 * Pow2(k - 1)
  }

  predicate IsPow2(n: nat) {
    n == 1 || (n > 1 && n % 2 == 0 && IsPow2(n / 2))
  }

  predicate Bit(w: nat, k: nat) {
    if k == 0 then w % 2 == 1 else Bit(w / 2, k - 1)
  }

  function Or(a: nat, b: nat): nat
    decreases a + b
  {
    if a == 0 then b
    else if b == 0 then a
    else 2 * Or(a / 2, b / 2) + (if a % 2 == 1 || b % 2 == 1 then 1 else 0)
  }

  function And(a: nat, b: nat): nat {
    if a == 0 || b == 0 then 0
    else 2 * And(a / 2, b / 2) + (if a % 2 == 1 && b % 2 == 1 then 1 else 0)
  }

  /** a & ~b */
  function AndNot(a: nat, b: nat): nat {
    if a == 0 then 0
    else 2 * AndNot(a / 2, b / 2) + (if a % 2 == 1 && b % 2 == 0 then 1 else 0)
  }

  /** Number of trailing zero bits, as __builtin_ctz; undefined on 0. */
  function Ctz(w: nat): nat
    requires w > 0
  {
    if w % 2 == 1 then 0 else 1 + Ctz(w / 2)
  }

  lemma {:induction false} ZeroHasNoBit(k: nat)
    ensures !Bit(0, k)
  {
    if k > 0 { ZeroHasNoBit(k - 1); }
  }

  lemma {:induction false} OrBit(a: nat, b: nat, k: nat)
    ensures Bit(Or(a, b), k) <==> Bit(a, k) || Bit(b, k)
  {
    OrHalves(a, b);
    if k > 0 { OrBit(a / 2, b / 2, k - 1); }
  }

  lemma {:induction false} AndNotBit(a: nat, b: nat, k: nat)
    ensures Bit(AndNot(a, b), k) <==> Bit(a, k) && !Bit(b, k)
  {
    if a == 0 {
      ZeroHasNoBit(k);
    } else if k > 0 {
      assert AndNot(a, b) / 2 == AndNot(a / 2, b / 2);
      AndNotBit(a / 2, b / 2, k - 1);
    }
  }

  lemma {:induction false} Pow2Bit(k: nat, j: nat)
    ensures Bit(Pow2(k), j) <==> j == k
  {
    if j > 0 {
      if k == 0 {
        ZeroHasNoBit(j - 1);
      } else {
        assert Pow2(k) / 2 == Pow2(k - 1);
        Pow2Bit(k - 1, j - 1);
      }
    }
  }

  /** Setting one bit changes that bit and no other. */
  lemma SetBit(w: nat, k: nat, j: nat)
    ensures Bit(Or(w, Pow2(k)), j) <==> j == k || Bit(w, j)
  {
    OrBit(w, Pow2(k), j);
    Pow2Bit(k, j);
  }

  /** Clearing one bit changes that bit and no other. */
  lemma ClearBit(w: nat, k: nat, j: nat)
    ensures Bit(AndNot(w, Pow2(k)), j) <==> j != k && Bit(w, j)
  {
    AndNotBit(w, Pow2(k), j);
    Pow2Bit(k, j);
  }

  lemma {:induction false} HighBitsClear(w: nat, n: nat, k: nat)
    requires w < Pow2(n) && n <= k
    ensures !Bit(w, k)
  {
    if n == 0 {
      ZeroHasNoBit(k);
    } else {
      HighBitsClear(w / 2, n - 1, k - 1);
    }
  }

  lemma {:induction false} OrBound(a: nat, b: nat, n: nat)
    requires a < Pow2(n) && b < Pow2(n)
    ensures Or(a, b) < Pow2(n)
  {
    if n > 0 && a > 0 && b > 0 { OrBound(a / 2, b / 2, n - 1); }
  }

  lemma {:induction false} AndNotBound(a: nat, b: nat)
    ensures AndNot(a, b) <= a
  {
    if a > 0 { AndNotBound(a / 2, b / 2); }
  }

  lemma {:induction false} Pow2Monotone(j: nat, k: nat)
    requires j <= k
    ensures Pow2(j) <= Pow2(k)
  {
    if j < k { Pow2Monotone(j, k - 1); }
  }

  /** Ctz finds the lowest set bit. */
  lemma {:induction false} CtzIsLowest(w: nat, k: nat)
    requires w > 0
    ensures Bit(w, Ctz(w))
    ensures k < Ctz(w) ==> !Bit(w, k)
  {
    if w % 2 == 0 {
      CtzIsLowest(w / 2, if k == 0 then 0 else k - 1);
    }
  }

  /** a >> k and the k bits below. */
  function Shr(a: nat, k: nat): nat {
    if k == 0 then a else Shr(a / 2, k - 1)
  }

  function Low(a: nat, k: nat): nat {
    if k == 0 then 0 else 2 * Low(a / 2, k - 1) + a % 2
  }

  lemma {:induction false} ShrLow(a: nat, k: nat)
    ensures a == Pow2(k) * Shr(a, k) + Low(a, k) && Low(a, k) < Pow2(k)
    ensures Shr(a, k) == a / Pow2(k) && Low(a, k) == a % Pow2(k)
  {
    if k > 0 {
      ShrLow(a / 2, k - 1);
      DoubleProduct(Pow2(k - 1), Shr(a, k));
    }
    DivModUnique(a, Pow2(k), Shr(a, k), Low(a, k));
  }

  /** The number with its low n bits cleared. */
  function ClearLow(x: nat, n: nat): nat { if n == 0 then x else 2 * ClearLow(x / 2, n - 1) }

  lemma {:induction false} ClearLowBit(x: nat, n: nat, k: nat)
    ensures Bit(ClearLow(x, n), k) <==> k >= n && Bit(x, k)
  {
    if n > 0 && k > 0 { ClearLowBit(x / 2, n - 1, k - 1); }
  }

  lemma {:induction false} ClearLowIs(x: nat, n: nat)
    ensures ClearLow(x, n) + Low(x, n) == x
  {
    if n > 0 { ClearLowIs(x / 2, n - 1); }
  }

  lemma DoubleProduct(p: nat, q: nat)
    ensures 2 * (p * q) == (2 * p) * q
  {
  }

  /** Or splits at any bit position: the parts above and below are Or-ed separately. */
  lemma {:induction false} OrSplit(a: nat, b: nat, k: nat)
    ensures Shr(Or(a, b), k) == Or(Shr(a, k), Shr(b, k))
    ensures Low(Or(a, b), k) == Or(Low(a, k), Low(b, k))
  {
    if k > 0 {
      OrHalves(a, b);
      OrSplit(a / 2, b / 2, k - 1);
      OrDouble(Low(a / 2, k - 1), a % 2, Low(b / 2, k - 1), b % 2);
    }
  }

  lemma OrHalves(a: nat, b: nat)
    ensures Or(a, b) / 2 == Or(a / 2, b / 2)
    ensures Or(a, b) % 2 == if a % 2 == 1 || b % 2 == 1 then 1 else 0
  {
  }

  lemma OrDouble(x: nat, c: nat, y: nat, d: nat)
    requires c < 2 && d < 2
    ensures Or(2 * x + c, 2 * y + d) == 2 * Or(x, y) + if c == 1 || d == 1 then 1 else 0
  {
    OrHalves(2 * x + c, 2 * y + d);
  }

  lemma DivModUnique(a: int, d: int, q: int, r: int)
    requires d > 0 && 0 <= r < d && a == d * q + r
    ensures a / d == q && a % d == r
  {
    var e := a / d - q;
    assert d * e == r - a % d;
    assert e >= 1 ==> d * e >= d;
    assert e <= -1 ==> d * e <= -d;
  }

  /** Masking with 2^k - 1 keeps the low k bits: the remainder modulo 2^k. */
  lemma {:induction false} AndMask(x: nat, k: nat)
    ensures And(x, Pow2(k) - 1) == Low(x, k) == x % Pow2(k)
  {
    ShrLow(x, k);
    if k > 0 {
      AndMask(x / 2, k - 1);
      assert (Pow2(k) - 1) / 2 == Pow2(k - 1) - 1;
    }
  }

  lemma {:induction false} IsPow2Exponent(n: nat) returns (k: nat)
    requires IsPow2(n)
    ensures n == Pow2(k)
  {
    if n == 1 {
      k := 0;
    } else {
      k := IsPow2Exponent(n / 2);
      k := k + 1;
    }
  }

  lemma {:induction false} AndSelf(x: nat)
    ensures And(x, x) == x
  {
    if x > 0 { AndSelf(x / 2); }
  }

  lemma {:induction false} AndPredZero(n: nat)
    requires n > 0 && And(n, n - 1) == 0
    ensures IsPow2(n)
  {
    if n % 2 == 1 {
      AndSelf(n / 2);
    } else {
      AndPredZero(n / 2);
    }
  }

  /** x & (n - 1) is x mod n for every x exactly when n is a power of two. */
  lemma MaskIsModulo(n: nat)
    requires n > 0
    ensures (forall x: nat :: And(x, n - 1) == x % n) <==> IsPow2(n)
  {
    if IsPow2(n) {
      var k := IsPow2Exponent(n);
      forall x: nat ensures And(x, n - 1) == x % n { AndMask(x, k); }
    } else if forall x: nat :: And(x, n - 1) == x % n {
      assert And(n, n - 1) == n % n;
      AndPredZero(n);
    }
  }
}
