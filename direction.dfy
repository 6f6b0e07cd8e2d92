// SPDirection, SPEntityDirection and SPDirectionIterator.
//
// A direction is a bit field of `dim` bits; bit i is set when the entity
// extends along axis i.  Its `mydimension` is the number of set bits.

module Directions {
  import opened Bits
  import opened MultiIndices

  /** `SPDirection(bits)`: a bitset of `dim` bits keeps only the low bits. */
  function FromBitsValue(dim: nat, bits: nat): (d: nat)
    ensures d < Pow2(dim)
    ensures forall i :: 0 <= i < dim ==> Bit(d, i) == Bit(bits, i)
  {
    forall i | 0 <= i < dim ensures Bit(LowBits(bits, dim), i) == Bit(bits, i) {
      LowBitsBit(bits, dim, i);
    }
    LowBits(bits, dim)
  }

  lemma {:induction false} SmallBitsValue(dim: nat, bits: nat)
    requires bits < Pow2(dim)
    ensures FromBitsValue(dim, bits) == bits
  {
    DivModUnique(bits, Pow2(dim), 0, bits);
  }

  /** `mydimension()`: the number of set bits. */
  function MyDimension(dim: nat, d: nat): (m: nat)
    requires d < Pow2(dim)
    ensures m <= dim
  {
    PopCountBound(d, dim);
    PopCount(d)
  }

  /** `codimension()`: dim minus `mydimension()`. */
  function Codimension(dim: nat, d: nat): (c: nat)
    requires d < Pow2(dim)
    ensures c + MyDimension(dim, d) == dim
  {
    dim - MyDimension(dim, d)
  }

  /** The direction built from a multi-index has the multi-index's codimension. */
  lemma {:induction false} DirectionCodimension(id: MultiIndex)
    ensures DirectionOf(id) < Pow2(|id|)
    ensures Codimension(|id|, DirectionOf(id)) == CodimensionOf(id)
    ensures MyDimension(|id|, DirectionOf(id)) == OddCount(id)
  {
    DirectionBound(id);
    DirectionPopCount(id);
    assert MyDimension(|id|, DirectionOf(id)) == PopCount(DirectionOf(id));
  }

  // ---------------------------------------------------------------------
  // SPEntityDirection
  // ---------------------------------------------------------------------

  /**
   * The direction an `SPEntityDirection<dim, mydim>` converts to.  The
   * vertex (mydim = 0) and element (mydim = dim) specialisations return a
   * constant and assert that the id has that direction.
   */
  function EntityDirection(dim: nat, mydim: nat, id: MultiIndex): (d: nat)
    requires |id| == dim && mydim <= dim
    requires mydim == 0 ==> DirectionOf(id) == 0
    requires mydim == dim ==> DirectionOf(id) == Pow2(dim) - 1
    ensures d == DirectionOf(id)
  {
    if mydim == 0 then 0
    else if mydim == dim then Pow2(dim) - 1
    else DirectionOf(id)
  }

  /** The default-constructed generic entity direction is 0. */
  function DefaultEntityDirection(dim: nat, mydim: nat): (d: nat)
    requires mydim <= dim
    ensures d < Pow2(dim)
    ensures mydim == dim ==> d == Pow2(dim) - 1
    ensures mydim < dim ==> d == 0
  {
    if mydim == dim && dim > 0 then Pow2(dim) - 1 else 0
  }

  /** Every vertex id (all components even) passes the assertion of the vertex specialisation. */
  lemma {:induction false} VertexDirection(id: MultiIndex)
    requires forall i :: 0 <= i < |id| ==> id[i] % 2 == 0
    ensures DirectionOf(id) == 0
  {
    if id != [] {
      VertexDirection(id[1..]);
    }
  }

  /** Every element id (all components odd) passes the assertion of the element specialisation. */
  lemma {:induction false} ElementDirection(id: MultiIndex)
    requires forall i :: 0 <= i < |id| ==> id[i] % 2 == 1
    ensures DirectionOf(id) == Pow2(|id|) - 1
  {
    if id != [] {
      ElementDirection(id[1..]);
    }
  }

  // ---------------------------------------------------------------------
  // SPDirectionIterator
  // ---------------------------------------------------------------------

  /** The value at which the iterator becomes false: (1<<dim) - (1<<codim) + 1. */
  function Sentinel(dim: nat, codim: nat): (s: nat)
    requires codim <= dim
    ensures 1 <= s <= Pow2(dim)
  {
    Pow2Monotone(codim, dim);
    Pow2(dim) - Pow2(codim) + 1
  }

  lemma {:induction false} AllOnesPopCount(m: nat)
    ensures PopCount(Pow2(m) - 1) == m
  {
    if m > 0 {
      AllOnesPopCount(m - 1);
      assert (Pow2(m) - 1) / 2 == Pow2(m - 1) - 1;
    }
  }

  /** No bit pattern below (1<<m)-1 has m bits set. */
  lemma {:induction false} BelowFirstPattern(b: nat, m: nat)
    requires b < Pow2(m) - 1
    ensures PopCount(b) < m
  {
    if b % 2 == 1 {
      BelowFirstPattern(b / 2, m - 1);
    } else if b > 0 {
      PopCountBound(b / 2, m - 1);
    }
  }

  /** The largest pattern below 2^n with m bits set is 2^n - 2^(n-m). */
  lemma {:induction false} AboveLastPattern(b: nat, n: nat, m: nat)
    requires b < Pow2(n) && PopCount(b) == m
    ensures m <= n && b + Pow2(n - m) <= Pow2(n)
  {
    PopCountBound(b, n);
    if n > 0 {
      if b % 2 == 1 {
        AboveLastPattern(b / 2, n - 1, m - 1);
        assert Pow2(n - m + 1) == 2 * Pow2(n - m);
      } else {
        PopCountBound(b / 2, n - 1);
        if b > 0 {
          AboveLastPattern(b / 2, n - 1, m);
        }
        assert n - m > 0 ==> Pow2(n - m) == 2 * Pow2(n - 1 - m);
      }
    }
  }

  /** Every bit pattern of m bits below 2^dim lies before the sentinel. */
  lemma {:induction false} PatternsBeforeSentinel(b: nat, dim: nat, codim: nat)
    requires codim <= dim && b < Pow2(dim) && PopCount(b) == dim - codim
    ensures b < Sentinel(dim, codim)
  {
    AboveLastPattern(b, dim, dim - codim);
  }

  class DirectionIterator {
    const dim: nat
    const codim: nat
    var bits: nat

    /** The iterator is within its range and, unless at the end, on a direction of the right dimension. */
    ghost predicate Valid()
      reads this
    {
      codim <= dim && bits <= Sentinel(dim, codim)
      && (bits < Sentinel(dim, codim) ==> PopCount(bits) == dim - codim)
    }

    /** `SPDirectionIterator()`: the first pattern, (1 << (dim - codim)) - 1. */
    constructor (dim: nat, codim: nat)
      requires codim <= dim
      ensures Valid() && this.dim == dim && this.codim == codim
      ensures bits == Pow2(dim - codim) - 1
    {
      this.dim := dim;
      this.codim := codim;
      bits := Pow2(dim - codim) - 1;
      new;
      AllOnesPopCount(dim - codim);
      Pow2Monotone(dim - codim, dim);
      if Pow2(dim - codim) - 1 >= Sentinel(dim, codim) {
        PatternsBeforeSentinel(Pow2(dim - codim) - 1, dim, codim);
      }
    }

    /** `SPDirectionIterator(direction)` for a direction of the iterator's codimension. */
    constructor FromDirection(dim: nat, codim: nat, d: nat)
      requires codim <= dim && d < Pow2(dim) && PopCount(d) == dim - codim
      ensures Valid() && this.dim == dim && this.codim == codim && bits == d
    {
      this.dim := dim;
      this.codim := codim;
      bits := d;
      new;
      PatternsBeforeSentinel(d, dim, codim);
    }

    /** `operator bool`. */
    predicate IsValid()
      reads this
      requires codim <= dim
    {
      bits != Sentinel(dim, codim)
    }

    /** `operator*`. */
    function Current(): (d: nat)
      reads this
    {
      FromBitsValue(dim, bits)
    }

    /**
     * `operator++`: moves to the next larger bit pattern with dim - codim
     * bits set, or to the sentinel when there is none.
     */
    method Increment()
      requires Valid() && IsValid()
      modifies this`bits
      ensures Valid()
      ensures old(bits) < bits
      ensures forall b: nat :: old(bits) < b < bits ==> PopCount(b) != dim - codim
    {
      var s := Sentinel(dim, codim);
      bits := bits + 1;
      while bits != s && MyDimension(dim, FromBitsValue(dim, bits)) != dim - codim
        invariant old(bits) < bits <= s
        invariant forall b: nat :: old(bits) < b < bits ==> PopCount(b) != dim - codim
        decreases s - bits
      {
        SmallBitsValue(dim, bits);
        bits := bits + 1;
      }
      if bits != s {
        SmallBitsValue(dim, bits);
      }
    }
  }

  /** ds lists, in increasing order, exactly the bit patterns below bound with m bits set. */
  ghost predicate Swept(ds: seq<nat>, bound: nat, m: nat)
  {
    (forall k :: 0 <= k < |ds| ==> ds[k] < bound && PopCount(ds[k]) == m)
    && (forall k, l :: 0 <= k < l < |ds| ==> ds[k] < ds[l])
    && (forall b: nat :: b < bound && PopCount(b) == m ==> b in ds)
  }

  /** One step of the sweep: the current pattern joins the list, and the patterns skipped up to next have the wrong count. */
  lemma {:induction false} SweepStep(ds: seq<nat>, d: nat, next: nat, m: nat)
    requires Swept(ds, d, m) && PopCount(d) == m && d < next
    requires forall b: nat :: d < b < next ==> PopCount(b) != m
    ensures Swept(ds + [d], next, m)
  {
    var ds' := ds + [d];
    forall b: nat | b < next && PopCount(b) == m ensures b in ds' {
      if b < d {
        assert b in ds;
      } else {
        assert ds'[|ds|] == b;
      }
    }
  }

  /**
   * A full sweep with the direction iterator, as the partition iterator and
   * the geometry caches do: it visits every direction of dimension
   * dim - codim exactly once, in increasing order.
   */
  method AllDirections(dim: nat, codim: nat) returns (ds: seq<nat>)
    requires codim <= dim
    ensures (forall k :: 0 <= k < |ds| ==> ds[k] < Pow2(dim) && PopCount(ds[k]) == dim - codim)
    ensures forall k, l :: 0 <= k < l < |ds| ==> ds[k] < ds[l]
    ensures forall d: nat :: d < Pow2(dim) && PopCount(d) == dim - codim ==> d in ds
  {
    var it := new DirectionIterator(dim, codim);
    ds := [];
    SweepStart(dim - codim);
    while it.IsValid()
      invariant it.Valid() && it.dim == dim && it.codim == codim
      invariant Swept(ds, it.bits, dim - codim)
      decreases Sentinel(dim, codim) - it.bits
    {
      SmallBitsValue(dim, it.bits);
      ghost var before := it.bits;
      var d := it.Current();
      assert d == before;
      it.Increment();
      SweepStep(ds, d, it.bits, dim - codim);
      ds := ds + [d];
    }
    SweepDone(ds, dim, codim);
  }

  /** Before the first pattern nothing has been missed. */
  lemma {:induction false} SweepStart(m: nat)
    ensures Swept([], Pow2(m) - 1, m)
  {
    forall b: nat | b < Pow2(m) - 1 ensures PopCount(b) != m {
      BelowFirstPattern(b, m);
    }
  }

  /** A sweep up to the sentinel has seen every direction of the codimension. */
  lemma {:induction false} SweepDone(ds: seq<nat>, dim: nat, codim: nat)
    requires codim <= dim && Swept(ds, Sentinel(dim, codim), dim - codim)
    ensures forall k :: 0 <= k < |ds| ==> ds[k] < Pow2(dim) && PopCount(ds[k]) == dim - codim
    ensures forall d: nat :: d < Pow2(dim) && PopCount(d) == dim - codim ==> d in ds
  {
    forall d: nat | d < Pow2(dim) && PopCount(d) == dim - codim ensures d in ds {
      PatternsBeforeSentinel(d, dim, codim);
    }
  }
}
