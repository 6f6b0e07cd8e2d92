// Bit-level helpers shared by the whole model.
//
// SPGrid stores directions, boundary flags and periodicity as small unsigned
// bit fields.  The model keeps them as natural numbers and reads their bits
// with the recursive functions below; `Pow2(i)` stands for `1 << i`.

module Bits {

  /** `std::numeric_limits< unsigned int >::max()`, the "no neighbour" marker. */
  const MaxUnsigned: nat := 0xFFFF_FFFF

  /** `std::numeric_limits< int >::max()`, the past-the-end id component. */
  const MaxInt: int := 0x7FFF_FFFF

  function Pow2(n: nat): (r: nat)
    ensures r >= 1
  {
    if n == 0 then 1 else 2 * Pow2(n - 1)
  }

  /** Bit `i` of `x`, that is `(x >> i) & 1`. */
  function Bit(x: nat, i: nat): (b: nat)
    ensures b == 0 || b == 1
  {
    if i == 0 then x % 2 else Bit(x / 2, i - 1)
  }

  /** `x >> j`: j halvings. */
  function Shr(x: nat, j: nat): nat
  {
    if j == 0 then x else Shr(x / 2, j - 1)
  }

  /** Bit j of x is the lowest bit of x >> j. */
  lemma {:induction false} BitOfShr(x: nat, j: nat)
    ensures Bit(x, j) == Shr(x, j) % 2
  {
    if j > 0 {
      BitOfShr(x / 2, j - 1);
    }
  }

  /** Shifting once more halves. */
  lemma {:induction false} ShrStep(x: nat, j: nat)
    ensures Shr(x, j + 1) == Shr(x, j) / 2
  {
    if j > 0 {
      ShrStep(x / 2, j - 1);
    }
  }

  /** Number of set bits of `x` (Dune's `bitCount`). */
  function PopCount(x: nat): nat
  {
    if x == 0 then 0 else x % 2 + PopCount(x / 2)
  }

  /** `x ^ (1 << i)`: bit `i` toggled, every other bit kept. */
  function Toggle(x: nat, i: nat): nat
  {
    if Bit(x, i) == 1 then BitSetBound(x, i); x - Pow2(i) else x + Pow2(i)
  }

  lemma {:induction false} BitSetBound(x: nat, i: nat)
    requires Bit(x, i) == 1
    ensures x >= Pow2(i)
  {
    if i > 0 { BitSetBound(x / 2, i - 1); }
  }

  /** `x | y` on natural numbers. */
  function Or(x: nat, y: nat): nat
  {
    if x == 0 then y else if y == 0 then x
    else (if x % 2 == 1 || y % 2 == 1 then 1 else 0) + 2 * Or(x / 2, y / 2)
  }

  /** `(x & y) != 0`: some bit is set in both. */
  function Overlaps(x: nat, y: nat): bool
  {
    if x == 0 || y == 0 then false
    else (x % 2 == 1 && y % 2 == 1) || Overlaps(x / 2, y / 2)
  }

  /** A bit set in both fields makes them overlap. */
  lemma {:induction false} OverlapsAt(x: nat, y: nat, i: nat)
    requires Bit(x, i) == 1 && Bit(y, i) == 1
    ensures Overlaps(x, y)
  {
    if x == 0 { ZeroBits(i); }
    else if y == 0 { ZeroBits(i); }
    else if i > 0 { OverlapsAt(x / 2, y / 2, i - 1); }
  }

  /** Overlapping fields share a set bit. */
  lemma {:induction false} OverlapsWitness(x: nat, y: nat) returns (i: nat)
    requires Overlaps(x, y)
    ensures Bit(x, i) == 1 && Bit(y, i) == 1
  {
    if x % 2 == 1 && y % 2 == 1 {
      i := 0;
    } else {
      var j := OverlapsWitness(x / 2, y / 2);
      i := j + 1;
    }
  }

  lemma {:induction false} Pow2Add(a: nat, b: nat)
    ensures Pow2(a + b) == Pow2(a) * Pow2(b)
  {
    if a > 0 { Pow2Add(a - 1, b); }
  }

  lemma {:induction false} Pow2Monotone(a: nat, b: nat)
    requires a <= b
    ensures Pow2(a) <= Pow2(b)
  {
    if a < b { Pow2Monotone(a, b - 1); }
  }

  lemma {:induction false} BitOfPow2Below(x: nat, i: nat)
    requires x < Pow2(i + 1)
    ensures x < Pow2(i) <==> Bit(x, i) == 0
  {
    if i > 0 { BitOfPow2Below(x / 2, i - 1); }
  }

  lemma {:induction false} BitsAbove(x: nat, n: nat, i: nat)
    requires x < Pow2(n) && n <= i
    ensures Bit(x, i) == 0
  {
    if i > 0 {
      if n > 0 { BitsAbove(x / 2, n - 1, i - 1); } else { BitsAbove(x / 2, 0, i - 1); }
    }
  }

  lemma {:induction false} PopCountBound(x: nat, n: nat)
    requires x < Pow2(n)
    ensures PopCount(x) <= n
  {
    if x > 0 { PopCountBound(x / 2, n - 1); }
  }

  /** A bit field below 2^n is determined by its low n bits. */
  lemma {:induction false} BitsDetermine(x: nat, y: nat, n: nat)
    requires x < Pow2(n) && y < Pow2(n)
    requires forall i :: 0 <= i < n ==> Bit(x, i) == Bit(y, i)
    ensures x == y
  {
    if n > 0 {
      assert Bit(x, 0) == Bit(y, 0);
      forall i | 0 <= i < n - 1 ensures Bit(x / 2, i) == Bit(y / 2, i) {
        assert Bit(x, i + 1) == Bit(y, i + 1);
      }
      BitsDetermine(x / 2, y / 2, n - 1);
    }
  }

  lemma {:induction false} ToggleBits(x: nat, i: nat, j: nat)
    ensures Bit(Toggle(x, i), j) == if i == j then 1 - Bit(x, j) else Bit(x, j)
  {
    if i == 0 {
      if j > 0 {
        assert Toggle(x, i) / 2 == x / 2;
      }
    } else {
      var t := Toggle(x, i);
      assert Bit(x, i) == Bit(x / 2, i - 1);
      assert t / 2 == Toggle(x / 2, i - 1) && t % 2 == x % 2;
      if j > 0 { ToggleBits(x / 2, i - 1, j - 1); }
    }
  }

  lemma {:induction false} ToggleBound(x: nat, i: nat, n: nat)
    requires x < Pow2(n) && i < n
    ensures Toggle(x, i) < Pow2(n)
  {
    if i == 0 {
      assert Pow2(n) == 2 * Pow2(n - 1);
    } else {
      ToggleBound(x / 2, i - 1, n - 1);
      assert Toggle(x, i) / 2 == Toggle(x / 2, i - 1) && Toggle(x, i) % 2 == x % 2;
    }
  }

  lemma {:induction false} OrBits(x: nat, y: nat, i: nat)
    ensures Bit(Or(x, y), i) == if Bit(x, i) == 1 || Bit(y, i) == 1 then 1 else 0
  {
    if x == 0 {
      ZeroBitsOf(x, i);
    } else if y == 0 {
      ZeroBitsOf(y, i);
    } else if i > 0 {
      OrBits(x / 2, y / 2, i - 1);
    }
  }

  lemma {:induction false} ZeroBits(i: nat)
    ensures Bit(0, i) == 0
  {
    if i > 0 { ZeroBits(i - 1); }
  }

  lemma {:induction false} ZeroBitsOf(x: nat, i: nat)
    requires x == 0
    ensures Bit(x, i) == 0
  {
    ZeroBits(i);
  }

  /** A field whose bits are all clear is zero. */
  lemma {:induction false} AllBitsZero(x: nat, n: nat)
    requires x < Pow2(n)
    requires forall i :: 0 <= i < n ==> Bit(x, i) == 0
    ensures x == 0
  {
    forall i | 0 <= i < n ensures Bit(x, i) == Bit(0, i) { ZeroBits(i); }
    BitsDetermine(x, 0, n);
  }

  /** The low m bits of 2^m - 1 are all set. */
  lemma {:induction false} AllOnesBit(m: nat, i: nat)
    requires i < m
    ensures Bit(Pow2(m) - 1, i) == 1
  {
    assert (Pow2(m) - 1) / 2 == Pow2(m - 1) - 1;
    if i > 0 { AllOnesBit(m - 1, i - 1); }
  }

  /** A field below 2^m - 1 has a clear bit below m. */
  lemma {:induction false} ClearBitBelow(x: nat, m: nat) returns (i: nat)
    requires x < Pow2(m) - 1
    ensures i < m && Bit(x, i) == 0
  {
    if forall k :: 0 <= k < m ==> Bit(x, k) == 1 {
      forall k | 0 <= k < m ensures Bit(x, k) == Bit(Pow2(m) - 1, k) { AllOnesBit(m, k); }
      BitsDetermine(x, Pow2(m) - 1, m);
    }
    i :| i < m && Bit(x, i) == 0;
  }

  /** A nonzero field below 2^m has a set bit below m. */
  lemma {:induction false} SetBitBelow(x: nat, m: nat) returns (i: nat)
    requires 0 < x < Pow2(m)
    ensures i < m && Bit(x, i) == 1
  {
    if forall k :: 0 <= k < m ==> Bit(x, k) == 0 {
      AllBitsZero(x, m);
    }
    i :| i < m && Bit(x, i) == 1;
  }

  lemma {:induction false} OrBound(x: nat, y: nat, n: nat)
    requires x < Pow2(n) && y < Pow2(n)
    ensures Or(x, y) < Pow2(n)
  {
    if x != 0 && y != 0 {
      OrBound(x / 2, y / 2, n - 1);
    }
  }

  /** Builds the bit field whose bit i is bs[i]. */
  function FromBits(bs: seq<bool>): (r: nat)
    ensures r < Pow2(|bs|)
  {
    if bs == [] then 0 else (if bs[0] then 1 else 0) + 2 * FromBits(bs[1..])
  }

  lemma {:induction false} FromBitsBit(bs: seq<bool>, i: nat)
    ensures Bit(FromBits(bs), i) == if i < |bs| && bs[i] then 1 else 0
  {
    if bs == [] {
      ZeroBits(i);
    } else if i > 0 {
      FromBitsBit(bs[1..], i - 1);
    }
  }

  /** The low n bits of x are the flags bs[0], ..., bs[n-1]. */
  ghost predicate BitsAre(x: nat, bs: seq<bool>, n: nat)
  {
    n <= |bs| && forall f :: 0 <= f < n ==> Bit(x, f) == (if bs[f] then 1 else 0)
  }

  /** `x |= flag << n` with flag bs[n] extends the match by one bit. */
  lemma {:induction false} BitsAreStep(x: nat, bs: seq<bool>, n: nat)
    requires x < Pow2(n) && BitsAre(x, bs, n) && n < |bs|
    ensures Or(x, Pow2(n) * (if bs[n] then 1 else 0)) < Pow2(n + 1)
    ensures BitsAre(Or(x, Pow2(n) * (if bs[n] then 1 else 0)), bs, n + 1)
  {
    OrPow2Step(x, n, if bs[n] then 1 else 0);
  }

  /** A field of |bs| bits matching every flag is FromBits(bs). */
  lemma {:induction false} BitsAreFromBits(x: nat, bs: seq<bool>)
    requires x < Pow2(|bs|) && BitsAre(x, bs, |bs|)
    ensures x == FromBits(bs)
  {
    forall f | 0 <= f < |bs| ensures Bit(x, f) == Bit(FromBits(bs), f) {
      FromBitsBit(bs, f);
    }
    BitsDetermine(x, FromBits(bs), |bs|);
  }

  /** The low `n` bits of `x`, that is `x & ((1 << n) - 1)`. */
  function LowBits(x: nat, n: nat): (r: nat)
  {
    x % Pow2(n)
  }

  lemma {:induction false} LowBitsBit(x: nat, n: nat, i: nat)
    ensures Bit(LowBits(x, n), i) == if i < n then Bit(x, i) else 0
  {
    if n == 0 {
      ZeroBits(i);
    } else {
      var l := LowBits(x, n);
      assert Pow2(n) == 2 * Pow2(n - 1);
      assert l % 2 == x % 2 && l / 2 == LowBits(x / 2, n - 1) by {
        DivModPow2(x, Pow2(n - 1));
      }
      if i > 0 { LowBitsBit(x / 2, n - 1, i - 1); }
    }
  }

  lemma {:induction false} DivModPow2(x: nat, p: nat)
    requires p >= 1
    ensures (x % (2 * p)) % 2 == x % 2
    ensures (x % (2 * p)) / 2 == (x / 2) % p
  {
    var q := x / (2 * p);
    var r := x % (2 * p);
    assert x == 2 * (p * q) + r;
    assert r == 2 * (r / 2) + r % 2;
    assert x == 2 * (p * q + r / 2) + r % 2;
    DivModUnique(x, 2, p * q + r / 2, r % 2);
    DivModUnique(x / 2, p, q, r / 2);
  }

  lemma {:induction false} DivModUnique(a: int, d: int, q: int, r: int)
    requires d > 0 && 0 <= r < d && a == d * q + r
    ensures a / d == q && a % d == r
  {
    var q0, r0 := a / d, a % d;
    assert a == d * q0 + r0;
    if q0 > q {
      MulDistance(d, q0, q);
    } else if q0 < q {
      MulDistance(d, q, q0);
    }
  }

  lemma {:induction false} MulDistance(d: int, x: int, y: int)
    requires d > 0 && x > y
    ensures d * x - d * y >= d
  {
    var k := x - y - 1;
    assert k >= 0;
    assert d * x == d * y + d + d * k by {
      assert x == y + 1 + k;
    }
    NonNegMul(d, k);
  }

  lemma {:induction false} NonNegMul(a: int, b: int)
    requires a >= 0 && b >= 0
    ensures a * b >= 0
  {
  }

  lemma {:induction false} Pow2Bits(i: nat, j: nat)
    ensures Bit(Pow2(i), j) == if i == j then 1 else 0
  {
    if i == 0 {
      if j > 0 { ZeroBits(j - 1); }
    } else if j > 0 {
      Pow2Bits(i - 1, j - 1);
    }
  }

  /** `p | (b << i)` on a field below 2^i sets bit i to b and keeps the bits below. */
  lemma {:induction false} OrPow2Step(p: nat, i: nat, b: nat)
    requires p < Pow2(i) && b <= 1
    ensures Or(p, Pow2(i) * b) < Pow2(i + 1)
    ensures Bit(Or(p, Pow2(i) * b), i) == b
    ensures forall j :: 0 <= j < i ==> Bit(Or(p, Pow2(i) * b), j) == Bit(p, j)
  {
    var q := Pow2(i) * b;
    forall j | 0 <= j <= i ensures Bit(Or(p, q), j) == if j < i then Bit(p, j) else b {
      OrBits(p, q, j);
      Pow2Bits(i, j);
      if b == 0 { ZeroBits(j); }
      if j == i { BitsAbove(p, i, i); }
    }
    Pow2Monotone(i, i + 1);
    OrBound(p, q, i + 1);
  }

  /** `1 << 31`, the largest shift an int admits here. */
  lemma {:induction false} Pow2ThirtyOne()
    ensures Pow2(31) == 0x8000_0000
  {
    Pow2Add(8, 23);
    Pow2Add(8, 15);
    Pow2Add(8, 7);
    assert Pow2(8) == 256 && Pow2(7) == 128;
  }

  /** The sum of the lowest n bits. */
  function LowSum(x: nat, n: nat): nat
  {
    if n == 0 then 0 else x % 2 + LowSum(x / 2, n - 1)
  }

  lemma {:induction false} LowSumIsPopCount(x: nat, n: nat)
    requires x < Pow2(n)
    ensures LowSum(x, n) == PopCount(x)
  {
    if n > 0 {
      LowSumIsPopCount(x / 2, n - 1);
    }
  }

  lemma {:induction false} LowSumSnoc(x: nat, k: nat)
    ensures LowSum(x, k + 1) == LowSum(x, k) + Bit(x, k)
  {
    if k > 0 {
      LowSumSnoc(x / 2, k - 1);
    }
  }

  /** The low bits add up at most one per position. */
  lemma {:induction false} LowSumSteps(x: nat, j: nat, n: nat)
    requires j <= n
    ensures LowSum(x, j) <= LowSum(x, n) && j - LowSum(x, j) <= n - LowSum(x, n)
    decreases n - j
  {
    if j < n {
      LowSumSnoc(x, n - 1);
      LowSumSteps(x, j, n - 1);
    }
  }
}
