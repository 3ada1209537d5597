/** The Internet checksum (RFC 1071) as the network code computes it: little-endian 16-bit words
    added in a 32-bit accumulator that may wrap, then folded. */
module Checksum {
  import opened Bits

  const WORD32 := 0x1_0000_0000

  predicate IsBytes(data: seq<nat>) { forall i :: 0 <= i < |data| ==> data[i] < 256 }

  /** The sum of the little-endian words from position i on; an odd last byte counts as itself. */
  function SumFrom(data: seq<nat>, i: nat): nat
    requires i <= |data|
    decreases |data| - i
  {
    if i == |data| then 0
    else if i + 1 == |data| then data[i]
    else data[i] + 256 * data[i + 1] + SumFrom(data, i + 2)
  }

  /** The carry-folding loop. */
  function Fold(x: nat): nat { if x < 0x1_0000 then x else Fold(x % 0x1_0000 + x / 0x1_0000) }

  /** The residue modulo 65535 that folding leaves: 1 to 65535, and 0 only for 0. */
  function Norm(x: nat): nat { if x == 0 then 0 else 1 + (x - 1) % 0xFFFF }

  lemma NormCongruent(x: nat, y: nat, k: int)
    requires x > 0 && y > 0 && x - y == 0xFFFF * k
    ensures Norm(x) == Norm(y)
  {
    var q, r := (y - 1) / 0xFFFF, (y - 1) % 0xFFFF;
    assert y - 1 == 0xFFFF * q + r;
    DivModUnique(x - 1, 0xFFFF, q + k, r);
  }

  lemma {:induction false} FoldIsNorm(x: nat)
    ensures Fold(x) == Norm(x) < 0x1_0000
  {
    if x >= 0x1_0000 {
      var y := x % 0x1_0000 + x / 0x1_0000;
      FoldIsNorm(y);
      NormCongruent(x, y, x / 0x1_0000);
    }
  }

  function Checksum(data: seq<nat>): nat { 0xFFFF - Norm(SumFrom(data, 0) % WORD32) }

  /** Wrapping early does not change the wrapped total. */
  lemma WrapEarly(sum: nat, w: nat, rest: nat)
    ensures ((sum + w) % WORD32 + rest) % WORD32 == (sum + (w + rest)) % WORD32
  {
  }

  method IpChecksum(data: seq<nat>) returns (c: nat)
    requires IsBytes(data)
    ensures c == Checksum(data)
  {
    var sum: nat, len: nat, p: nat := 0, |data|, 0;
    while len > 1
      invariant p + len == |data| && sum < WORD32
      invariant (sum + SumFrom(data, p)) % WORD32 == SumFrom(data, 0) % WORD32
    {
      WrapEarly(sum, data[p] + 256 * data[p + 1], SumFrom(data, p + 2));
      sum := (sum + (data[p] + 256 * data[p + 1])) % WORD32;
      len := len - 2;
      p := p + 2;
    }
    if len == 1 {
      WrapEarly(sum, data[p], 0);
      sum := (sum + data[p]) % WORD32;
    }
    sum := FoldCarries(sum);
    c := 0xFFFF - sum;
  }

  method FoldCarries(s: nat) returns (sum: nat)
    ensures sum == Norm(s)
  {
    sum := s;
    while sum / 0x1_0000 != 0
      invariant Fold(sum) == Fold(s)
      decreases sum
    {
      sum := sum % 0x1_0000 + sum / 0x1_0000;
    }
    FoldIsNorm(s);
  }

  // ---------------------------------------------------------------- a stored checksum verifies

  /** The bytes of the field once the checksum is stored, low byte first. */
  function Store(data: seq<nat>, k: nat, c: nat): seq<nat>
    requires k + 1 < |data|
  {
    data[k := c % 256][k + 1 := c / 256]
  }

  lemma {:induction false} SumAfterStore(data: seq<nat>, k: nat, c: nat, i: nat)
    requires k + 1 < |data| && data[k] == 0 && data[k + 1] == 0 && i <= |data| && i % 2 == k % 2
    ensures SumFrom(Store(data, k, c), i) == SumFrom(data, i) + if i <= k then c else 0
    decreases |data| - i
  {
    if i + 1 < |data| { SumAfterStore(data, k, c, i + 2); }
  }

  /** Adding the complement of the folded sum never wraps and gives a multiple of 65535. */
  lemma ComplementFits(t: nat)
    requires t < WORD32
    ensures 0 < t + (0xFFFF - Norm(t)) < WORD32 && Norm(t + (0xFFFF - Norm(t))) == 0xFFFF
  {
    if t > 0 {
      var q := (t - 1) / 0xFFFF;
      assert q <= 0x1_0000;
      assert t + (0xFFFF - Norm(t)) == 0xFFFF * (q + 1);
    }
  }

  lemma WrapLate(s: nat, c: nat)
    requires s % WORD32 + c < WORD32
    ensures (s + c) % WORD32 == s % WORD32 + c
  {
  }

  /** Whatever the length, even when the accumulator wraps: storing the checksum in a zeroed,
      16-bit-aligned field makes the recomputed checksum 0. */
  lemma StoredVerifies(data: seq<nat>, k: nat)
    requires k % 2 == 0 && k + 1 < |data| && data[k] == 0 && data[k + 1] == 0
    ensures Checksum(Store(data, k, Checksum(data))) == 0
  {
    var c, s := Checksum(data), SumFrom(data, 0);
    SumAfterStore(data, k, c, 0);
    ComplementFits(s % WORD32);
    WrapLate(s, c);
  }

  // ---------------------------------------------------------------- the definition of RFC 1071

  /** One's complement addition of 16-bit numbers, with end-around carry. */
  function OnesAdd(a: nat, b: nat): nat { if a + b > 0xFFFF then a + b - 0xFFFF else a + b }

  /** The one's complement sum of the big-endian words; an odd byte is padded with zero on the right. */
  function OnesSum(data: seq<nat>, i: nat): nat
    requires i <= |data|
    decreases |data| - i
  {
    if i == |data| then 0
    else if i + 1 == |data| then OnesAdd(256 * data[i], 0)
    else OnesAdd(256 * data[i] + data[i + 1], OnesSum(data, i + 2))
  }

  function RfcChecksum(data: seq<nat>): int { 0xFFFF - OnesSum(data, 0) }

  function BigSum(data: seq<nat>, i: nat): nat
    requires i <= |data|
    decreases |data| - i
  {
    if i == |data| then 0
    else if i + 1 == |data| then 256 * data[i]
    else 256 * data[i] + data[i + 1] + BigSum(data, i + 2)
  }

  /** The first bytes of all words. */
  function Firsts(data: seq<nat>, i: nat): nat
    requires i <= |data|
    decreases |data| - i
  {
    if i >= |data| - 1 then (if i == |data| then 0 else data[i]) else data[i] + Firsts(data, i + 2)
  }

  lemma NormAdd(a: nat, x: nat)
    requires a <= 0xFFFF
    ensures OnesAdd(a, Norm(x)) == Norm(a + x)
  {
    if x > 0 {
      var q := (x - 1) / 0xFFFF;
      assert x == 0xFFFF * q + Norm(x);
      NormCongruent(a + x, a + Norm(x), q);
    }
  }

  lemma {:induction false} OnesSumIsNorm(data: seq<nat>, i: nat)
    requires IsBytes(data) && i <= |data|
    ensures OnesSum(data, i) == Norm(BigSum(data, i))
    decreases |data| - i
  {
    if i + 1 < |data| {
      OnesSumIsNorm(data, i + 2);
      NormAdd(256 * data[i] + data[i + 1], BigSum(data, i + 2));
    }
  }

  /** Byte order costs a factor of 256 modulo 65535. */
  lemma {:induction false} OrderFactor(data: seq<nat>, i: nat)
    requires i <= |data|
    ensures 256 * BigSum(data, i) == SumFrom(data, i) + 0xFFFF * Firsts(data, i)
    decreases |data| - i
  {
    if i + 1 < |data| { OrderFactor(data, i + 2); }
  }

  /** htons */
  function Swap(x: nat): nat { x % 256 * 256 + x / 256 }

  lemma SwapIsTimes256(f: nat)
    requires 1 <= f <= 0xFFFF
    ensures 256 * f == Swap(f) + 0xFFFF * (f / 256) && 1 <= Swap(f) <= 0xFFFF
  {
    var a, b := f / 256, f % 256;
    assert f == 256 * a + b && a < 256;
  }

  lemma SwapNorm(big: nat, little: nat, k: nat)
    requires 256 * big == little + 0xFFFF * k
    ensures Norm(little) == Swap(Norm(big)) || (little == 0 && big > 0)
    ensures little > 0 ==> big > 0
  {
    if little > 0 {
      var f := Norm(big);
      var q := (big - 1) / 0xFFFF;
      assert big == 0xFFFF * q + f && 1 <= f <= 0xFFFF;
      SwapIsTimes256(f);
      assert little - Swap(f) == 0xFFFF * (256 * q + f / 256 - k);
      NormCongruent(little, Swap(f), 256 * q + f / 256 - k);
    }
  }

  lemma {:induction false} SumBounds(data: seq<nat>, i: nat)
    requires IsBytes(data) && i <= |data|
    ensures SumFrom(data, i) <= 0x8000 * (|data| - i)
    ensures SumFrom(data, i) == 0 <==> BigSum(data, i) == 0
    decreases |data| - i
  {
    if i + 1 < |data| { SumBounds(data, i + 2); }
  }

  lemma SwapComplement(f: nat)
    requires f <= 0xFFFF
    ensures Swap(0xFFFF - f) == 0xFFFF - Swap(f)
  {
    var a, b := f / 256, f % 256;
    assert f == 256 * a + b && a < 256;
    assert 0xFFFF - f == 256 * (255 - a) + (255 - b);
  }

  /** On every length a C int can hold, the stored bytes are those of the RFC's definition exactly
      when the sum of the words fits in 32 bits. */
  lemma MatchesRfc(data: seq<nat>)
    requires IsBytes(data) && |data| < 0x8000_0000
    ensures Swap(Checksum(data)) == RfcChecksum(data) <==> SumFrom(data, 0) < WORD32
  {
    var s, b := SumFrom(data, 0), BigSum(data, 0);
    OnesSumIsNorm(data, 0);
    OrderFactor(data, 0);
    SumBounds(data, 0);
    SwapNorm(b, s, Firsts(data, 0));
    SwapComplement(Norm(s % WORD32));
    WrapShifts(s);
    SwapInjective(Norm(s % WORD32), Norm(s));
    SwapTwice(Norm(b));
  }

  /** Each wrap of the accumulator shifts the residue by one. */
  lemma WrapShifts(s: nat)
    requires s < 0x4000_0000_0000
    ensures Norm(s % WORD32) == Norm(s) <==> s < WORD32
  {
    var w, t := s / WORD32, s % WORD32;
    if w > 0 {
      assert s - w - t == 0xFFFF * (0x1_0001 * w);
      assert 0 < w < 0xFFFF;
      if t > 0 {
        var q := (t - 1) / 0xFFFF;
        assert s == 0xFFFF * (0x1_0001 * w + q) + Norm(t) + w;
      }
    }
  }

  lemma SwapInjective(x: nat, y: nat)
    requires x <= 0xFFFF && y <= 0xFFFF
    ensures Swap(x) == Swap(y) <==> x == y
  {
    SwapTwice(x);
    SwapTwice(y);
  }

  lemma SwapTwice(x: nat)
    requires x <= 0xFFFF
    ensures Swap(Swap(x)) == x && Swap(x) <= 0xFFFF
  {
    var a, b := x / 256, x % 256;
    assert Swap(x) == 256 * b + a && a < 256;
  }

  lemma {:induction false} AllOnesSum(n: nat, i: nat)
    requires i <= n && i % 2 == n % 2
    ensures SumFrom(seq(n, _ => 255), i) == 0xFFFF * ((n - i) / 2)
    decreases n - i
  {
    if i < n { AllOnesSum(n, i + 2); }
  }

  /** The bound is met by real inputs: 131076 bytes of 0xFF overflow the accumulator. */
  lemma LongInputDiffers()
    ensures var data := seq(131076, _ => 255); Swap(Checksum(data)) != RfcChecksum(data)
  {
    var data: seq<nat> := seq(131076, _ => 255);
    AllOnesSum(131076, 0);
    MatchesRfc(data);
  }
}
