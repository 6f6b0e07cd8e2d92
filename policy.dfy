// The refinement policies of SPGrid: how many times each axis of an
// element is split when a level is refined.
//
//   isotropic    every axis twice
//   anisotropic  the axes in the bit field refDir twice, the others once
//   bisection    one axis twice; by default the axes are cycled level by level
//   arbitrary    any positive factor per axis
//
// Each policy is written to and read from a stream; the stream is modelled
// as a sequence of tokens (see MultiIndices.Token).

module Policies {
  import opened Bits
  import opened Errors
  import opened MultiIndices
  import opened Directions

  datatype Policy =
    | IsotropicPolicy
    | AnisotropicPolicy(refDir: nat)
    | BisectionPolicy(dir: int)
    | ArbitraryPolicy(factors: seq<int>)

  /** What the constructors of each policy admit; dir = -1 is the bisection default. */
  predicate ValidPolicy(dim: nat, p: Policy)
  {
    match p
    case IsotropicPolicy => true
    case AnisotropicPolicy(refDir) => refDir < Pow2(dim)
    case BisectionPolicy(dir) => -1 <= dir < dim
    case ArbitraryPolicy(factors) => |factors| == dim && forall i :: 0 <= i < dim ==> factors[i] > 0
  }

  // ---------------------------------------------------------------------
  // Construction
  // ---------------------------------------------------------------------

  /** `SPAnisotropicRefinementPolicy()`: every axis refined. */
  function DefaultAnisotropic(dim: nat): (p: Policy)
    ensures ValidPolicy(dim, p) && Weight(dim, p) == dim
  {
    AllOnesPopCount(dim);
    AnisotropicPolicy(Pow2(dim) - 1)
  }

  /** `SPAnisotropicRefinementPolicy(refDir)`: GridError unless refDir < 2^dim. */
  function MakeAnisotropic(dim: nat, refDir: nat): (r: Result<Policy>)
    ensures r.Ok? <==> refDir < Pow2(dim)
    ensures r.Ok? ==> r.value == AnisotropicPolicy(refDir) && ValidPolicy(dim, r.value)
    ensures r.Err? ==> r.error == GridError
  {
    if refDir >= Pow2(dim) then Err(GridError) else Ok(AnisotropicPolicy(refDir))
  }

  /** `SPBisectionRefinementPolicy()`: no axis chosen yet. */
  function DefaultBisection(): (p: Policy)
    ensures p.BisectionPolicy? && p.dir == -1
  {
    BisectionPolicy(-1)
  }

  /** `SPBisectionRefinementPolicy(dir)`: GridError unless 0 <= dir < dim. */
  function MakeBisection(dim: nat, dir: int): (r: Result<Policy>)
    ensures r.Ok? <==> 0 <= dir < dim
    ensures r.Ok? ==> r.value == BisectionPolicy(dir) && ValidPolicy(dim, r.value)
    ensures r.Err? ==> r.error == GridError
  {
    if dir < 0 || dir >= dim then Err(GridError) else Ok(BisectionPolicy(dir))
  }

  /**
   * The private `SPBisectionRefinementPolicy(father, policy)`: a policy
   * without an axis takes the axis after the father's.
   */
  function BisectionChildPolicy(dim: nat, father: Policy, policy: Policy): (p: Policy)
    requires dim >= 1
    requires father.BisectionPolicy? && ValidPolicy(dim, father)
    requires policy.BisectionPolicy? && ValidPolicy(dim, policy)
    ensures p.BisectionPolicy? && 0 <= p.dir < dim
    ensures policy.dir >= 0 ==> p.dir == policy.dir
    ensures policy.dir < 0 && father.dir + 1 < dim ==> p.dir == father.dir + 1
    ensures policy.dir < 0 && father.dir + 1 == dim ==> p.dir == 0
  {
    if policy.dir < 0 then
      NextAxis(father.dir, dim);
      BisectionPolicy((father.dir + 1) % dim)
    else policy
  }

  lemma {:induction false} NextAxis(dir: int, dim: nat)
    requires dim >= 1 && -1 <= dir < dim
    ensures 0 <= (dir + 1) % dim < dim
    ensures dir + 1 < dim ==> (dir + 1) % dim == dir + 1
    ensures dir + 1 == dim ==> (dir + 1) % dim == 0
  {
    if dir + 1 < dim {
      DivModUnique(dir + 1, dim, 0, dir + 1);
    } else {
      DivModUnique(dir + 1, dim, 1, 0);
    }
  }

  /** The axis of level n when every level is refined with the default bisection policy. */
  function BisectionAxisOfLevel(dim: nat, n: nat): (p: Policy)
    requires dim >= 1
    ensures p.BisectionPolicy? && ValidPolicy(dim, p)
  {
    if n == 0 then DefaultBisection()
    else BisectionChildPolicy(dim, BisectionAxisOfLevel(dim, n - 1), DefaultBisection())
  }

  /** By default the bisection axes cycle 0, 1, ..., dim-1, 0, ...: level n >= 1 splits axis (n-1) % dim. */
  lemma {:induction false} BisectionAxesCycle(dim: nat, n: nat)
    requires dim >= 1 && n >= 1
    ensures BisectionAxisOfLevel(dim, n).dir == (n - 1) % dim
  {
    var p := BisectionAxisOfLevel(dim, n);
    if n == 1 {
      DivModUnique(0, dim, 0, 0);
    } else {
      BisectionAxesCycle(dim, n - 1);
      var q, r := (n - 2) / dim, (n - 2) % dim;
      assert n - 2 == dim * q + r;
      if r + 1 < dim {
        DivModUnique(n - 1, dim, q, r + 1);
      } else {
        DivModUnique(n - 1, dim, q + 1, 0);
      }
    }
  }

  /** `SPArbitraryRefinementPolicy(factor)`: the same factor on every axis; GridError unless positive. */
  function MakeArbitraryUniform(dim: nat, factor: int): (r: Result<Policy>)
    ensures r.Ok? <==> factor > 0
    ensures r.Ok? ==> ValidPolicy(dim, r.value) && r.value.ArbitraryPolicy?
                      && forall i :: 0 <= i < dim ==> r.value.factors[i] == factor
    ensures r.Err? ==> r.error == GridError
  {
    if factor <= 0 then Err(GridError) else Ok(ArbitraryPolicy(seq(dim, _ => factor)))
  }

  /** `SPArbitraryRefinementPolicy(factor)` from a multi-index: GridError if some factor is not positive. */
  function MakeArbitrary(factors: seq<int>): (r: Result<Policy>)
    ensures r.Ok? <==> forall i :: 0 <= i < |factors| ==> factors[i] > 0
    ensures r.Ok? ==> r.value == ArbitraryPolicy(factors) && ValidPolicy(|factors|, r.value)
    ensures r.Err? ==> r.error == GridError
  {
    if exists i :: 0 <= i < |factors| && factors[i] <= 0 then Err(GridError)
    else Ok(ArbitraryPolicy(factors))
  }

  // ---------------------------------------------------------------------
  // Weight and factors
  // ---------------------------------------------------------------------

  /** `weight()`: the number of refined axes (dim for isotropic and arbitrary policies). */
  function Weight(dim: nat, p: Policy): nat
  {
    match p
    case IsotropicPolicy => dim
    case AnisotropicPolicy(refDir) => PopCount(refDir)
    case BisectionPolicy(_) => 1
    case ArbitraryPolicy(_) => dim
  }

  /** `factor(i)`: how many children an element has along axis i. */
  function Factor(dim: nat, p: Policy, i: int): (a: int)
    requires ValidPolicy(dim, p) && 0 <= i < dim
    ensures a >= 1
    ensures !p.ArbitraryPolicy? ==> a == 1 || a == 2
  {
    match p
    case IsotropicPolicy => 2
    case AnisotropicPolicy(refDir) => Bit(refDir, i) + 1
    case BisectionPolicy(dir) => if i == dir then 2 else 1
    case ArbitraryPolicy(factors) => factors[i]
  }

  /** The factors of all axes, in axis order. */
  function Factors(dim: nat, p: Policy): (f: seq<int>)
    requires ValidPolicy(dim, p)
    ensures |f| == dim && forall i :: 0 <= i < dim ==> f[i] == Factor(dim, p, i) && f[i] >= 1
  {
    seq(dim, i requires 0 <= i < dim => Factor(dim, p, i))
  }

  /** `type()`. */
  function TypeName(p: Policy): string
  {
    match p
    case IsotropicPolicy => "isotropic"
    case AnisotropicPolicy(_) => "anisotropic"
    case BisectionPolicy(_) => "bisection"
    case ArbitraryPolicy(_) => "arbitrary"
  }

  /** Isotropic refinement: every axis twice, so 2^dim children. */
  lemma {:induction false} IsotropicChildren(dim: nat)
    ensures Weight(dim, IsotropicPolicy) == dim
    ensures Product(Factors(dim, IsotropicPolicy)) == Pow2(dim)
  {
    if dim > 0 {
      IsotropicChildren(dim - 1);
      assert Factors(dim, IsotropicPolicy)[1..] == Factors(dim - 1, IsotropicPolicy);
    }
  }

  /** Anisotropic refinement: factor(i) is bit i of refDir plus one, so 2^popcount(refDir) children. */
  lemma {:induction false} AnisotropicChildren(dim: nat, refDir: nat)
    requires refDir < Pow2(dim)
    ensures Product(Factors(dim, AnisotropicPolicy(refDir))) == Pow2(Weight(dim, AnisotropicPolicy(refDir)))
  {
    if dim > 0 {
      var f := Factors(dim, AnisotropicPolicy(refDir));
      AnisotropicChildren(dim - 1, refDir / 2);
      assert f[1..] == Factors(dim - 1, AnisotropicPolicy(refDir / 2));
      assert f[0] == refDir % 2 + 1;
      Pow2Add(refDir % 2, PopCount(refDir / 2));
    } else {
      assert refDir == 0;
    }
  }

  /** Bisection refinement along a chosen axis: weight 1 and exactly two children. */
  lemma {:induction false} BisectionChildren(dim: nat, dir: int)
    requires 0 <= dir < dim
    ensures Weight(dim, BisectionPolicy(dir)) == 1
    ensures Product(Factors(dim, BisectionPolicy(dir))) == 2
  {
    var f := Factors(dim, BisectionPolicy(dir));
    if dir == 0 {
      UnrefinedProduct(dim - 1, f[1..]);
    } else {
      BisectionChildren(dim - 1, dir - 1);
      assert f[1..] == Factors(dim - 1, BisectionPolicy(dir - 1));
    }
  }

  lemma {:induction false} UnrefinedProduct(n: nat, f: seq<int>)
    requires |f| == n && forall i :: 0 <= i < n ==> f[i] == 1
    ensures Product(f) == 1
  {
    if n > 0 {
      UnrefinedProduct(n - 1, f[1..]);
    }
  }

  // ---------------------------------------------------------------------
  // Stream output and input
  // ---------------------------------------------------------------------

  /** The outcome of `in >> policy`. */
  datatype PolicyRead =
    | Parsed(policy: Policy, rest: seq<Token>)  // the policy is assigned
    | StreamFailed                              // the stream fails; the policy is unchanged
    | Thrown(error: Error)                      // the constructor throws

  /** `out << policy`. */
  function WritePolicy(dim: nat, p: Policy): seq<Token>
    requires ValidPolicy(dim, p) && dim >= 1
    requires p.BisectionPolicy? ==> p.dir >= 0
  {
    match p
    case IsotropicPolicy => [Num(Pow2(dim) - 1)]
    case AnisotropicPolicy(refDir) => [Num(refDir)]
    case BisectionPolicy(dir) => [Num(Pow2(dir))]
    case ArbitraryPolicy(factors) => Write(factors)
  }

  /** `in >> match((1 << dim) - 1)`: the stream fails unless exactly that value follows. */
  function ReadIsotropic(dim: nat, ts: seq<Token>): (r: PolicyRead)
    ensures r.Parsed? <==> |ts| >= 1 && ts[0] == Num(Pow2(dim) - 1)
    ensures r.Parsed? ==> r.policy == IsotropicPolicy && r.rest == ts[1..]
    ensures !r.Thrown?
  {
    if |ts| >= 1 && ts[0] == Num(Pow2(dim) - 1) then Parsed(IsotropicPolicy, ts[1..]) else StreamFailed
  }

  /** 2^32, one more than the largest `unsigned int`. */
  const UnsignedRange: int := 0x1_0000_0000

  /**
   * `in >> unsigned int` succeeds on a number whose magnitude fits in 32
   * bits, a leading minus included; any other token fails the stream.
   */
  predicate HeadUnsigned(ts: seq<Token>)
  {
    |ts| >= 1 && ts[0].Num? && -UnsignedRange < ts[0].value < UnsignedRange
  }

  /** The value that extraction stores: a negative number is negated in the unsigned type, i.e. taken modulo 2^32. */
  function HeadValue(ts: seq<Token>): (v: nat)
    requires HeadUnsigned(ts)
    ensures v < UnsignedRange && (v - ts[0].value) % UnsignedRange == 0
    ensures ts[0].value >= 0 ==> v == ts[0].value
  {
    if ts[0].value >= 0 then ts[0].value else UnsignedRange + ts[0].value
  }

  /** The anisotropic input operator reads refDir and rebuilds the policy through its validating constructor. */
  function ReadAnisotropic(dim: nat, ts: seq<Token>): (r: PolicyRead)
    ensures !HeadUnsigned(ts) <==> r.StreamFailed?
    ensures r.Thrown? <==> HeadUnsigned(ts) && HeadValue(ts) >= Pow2(dim)
    ensures r.Parsed? ==> r.policy == AnisotropicPolicy(HeadValue(ts)) && ValidPolicy(dim, r.policy) && r.rest == ts[1..]
  {
    if !HeadUnsigned(ts) then StreamFailed
    else match MakeAnisotropic(dim, HeadValue(ts))
      case Ok(p) => Parsed(p, ts[1..])
      case Err(e) => Thrown(e)
  }

  /**
   * The position of the highest set bit; -1 for 0.  This is what the loop in
   * the bisection input operator counts.
   */
  function HighestBit(x: nat): (d: int)
    ensures d >= -1
  {
    if x == 0 then -1 else 1 + HighestBit(x / 2)
  }

  lemma {:induction false} HighestBitOfPow2(d: nat)
    ensures HighestBit(Pow2(d)) == d
  {
    if d > 0 {
      HighestBitOfPow2(d - 1);
      assert Pow2(d) / 2 == Pow2(d - 1);
    }
  }

  /** A value with one bit set is the power of two of its highest bit. */
  lemma {:induction false} SingleBitIsPow2(x: nat)
    requires PopCount(x) == 1
    ensures HighestBit(x) >= 0 && x == Pow2(HighestBit(x))
  {
    if x % 2 == 1 {
      assert PopCount(x / 2) == 0;
      ZeroPopCount(x / 2);
    } else {
      SingleBitIsPow2(x / 2);
    }
  }

  lemma {:induction false} ZeroPopCount(x: nat)
    requires PopCount(x) == 0
    ensures x == 0
  {
    if x > 0 {
      ZeroPopCount(x / 2);
    }
  }

  lemma {:induction false} PopCountOfPow2(d: nat)
    ensures PopCount(Pow2(d)) == 1
  {
    if d > 0 {
      PopCountOfPow2(d - 1);
      assert Pow2(d) / 2 == Pow2(d - 1) && Pow2(d) % 2 == 0;
    }
  }

  /** The loop `for(dir = -1; refDir != 0; ++dir) refDir >>= 1` of the bisection input operator. */
  method HighestBitLoop(refDir: nat) returns (dir: int)
    ensures dir == HighestBit(refDir)
  {
    dir := -1;
    var rest := refDir;
    while rest != 0
      invariant dir + 1 + HighestBit(rest) == HighestBit(refDir)
    {
      rest := rest / 2;
      dir := dir + 1;
    }
  }

  /**
   * The bisection input operator: GridError for a value with other than one
   * bit set; otherwise the policy of that bit's axis, which must be below dim.
   */
  function ReadBisection(dim: nat, ts: seq<Token>): (r: PolicyRead)
    ensures !HeadUnsigned(ts) <==> r.StreamFailed?
    ensures HeadUnsigned(ts) && PopCount(HeadValue(ts)) != 1 ==> r == Thrown(GridError)
    ensures r.Parsed? ==> r.policy.BisectionPolicy? && ValidPolicy(dim, r.policy) && r.policy.dir >= 0
                          && HeadValue(ts) == Pow2(r.policy.dir) && r.rest == ts[1..]
  {
    if !HeadUnsigned(ts) then StreamFailed
    else if PopCount(HeadValue(ts)) != 1 then Thrown(GridError)
    else
      SingleBitIsPow2(HeadValue(ts));
      match MakeBisection(dim, HighestBit(HeadValue(ts)))
      case Ok(p) => Parsed(p, ts[1..])
      case Err(e) => Thrown(e)
  }

  /** The arbitrary policy reads its factor multi-index directly; the factors are not validated. */
  function ReadArbitrary(dim: nat, ts: seq<Token>): (r: PolicyRead)
    requires dim >= 1
    ensures r.StreamFailed? <==> Read(ts, dim).None?
    ensures r.Parsed? ==> r.policy == ArbitraryPolicy(Read(ts, dim).value.0) && r.rest == Read(ts, dim).value.1
    ensures !r.Thrown?
  {
    match Read(ts, dim)
    case None => StreamFailed
    case Some((factors, rest)) => Parsed(ArbitraryPolicy(factors), rest)
  }

  /** The input operator of the policy's kind. */
  function ReadPolicy(dim: nat, kind: Policy, ts: seq<Token>): PolicyRead
    requires dim >= 1
  {
    match kind
    case IsotropicPolicy => ReadIsotropic(dim, ts)
    case AnisotropicPolicy(_) => ReadAnisotropic(dim, ts)
    case BisectionPolicy(_) => ReadBisection(dim, ts)
    case ArbitraryPolicy(_) => ReadArbitrary(dim, ts)
  }

  /** `1 << 32`: the bits of an `unsigned int`. */
  lemma {:induction false} Pow2ThirtyTwo()
    ensures Pow2(32) == UnsignedRange
  {
    Pow2ThirtyOne();
  }

  /** A value below 2^dim, with at most 32 axes, is read back as itself. */
  lemma {:induction false} HeadValueOfDirection(dim: nat, v: nat, rest: seq<Token>)
    requires dim <= 32 && v < Pow2(dim)
    ensures HeadUnsigned([Num(v)] + rest) && HeadValue([Num(v)] + rest) == v && ([Num(v)] + rest)[1..] == rest
  {
    Pow2ThirtyTwo();
    Pow2Monotone(dim, 32);
    assert ([Num(v)] + rest)[1..] == rest;
  }

  /**
   * Writing a valid policy and reading it back yields the same policy and
   * consumes exactly what was written.  An `unsigned int` holds the
   * direction bits of at most 32 axes.
   */
  lemma {:induction false} ReadWritePolicy(dim: nat, p: Policy, rest: seq<Token>)
    requires ValidPolicy(dim, p) && 1 <= dim <= 32
    requires p.BisectionPolicy? ==> p.dir >= 0
    ensures ReadPolicy(dim, p, WritePolicy(dim, p) + rest) == Parsed(p, rest)
  {
    var ts := WritePolicy(dim, p) + rest;
    match p
    case IsotropicPolicy =>
      assert ts[1..] == rest;
    case AnisotropicPolicy(refDir) =>
      HeadValueOfDirection(dim, refDir, rest);
    case BisectionPolicy(dir) =>
      Pow2Monotone(dir + 1, dim);
      HeadValueOfDirection(dim, Pow2(dir), rest);
      PopCountOfPow2(dir);
      HighestBitOfPow2(dir);
    case ArbitraryPolicy(factors) =>
      ReadWrite(factors, rest);
  }

  /** A bisection value with a single bit names an axis; one bit of an `unsigned int` beyond the axes throws. */
  lemma {:induction false} ReadBisectionRejects(dim: nat, d: nat, rest: seq<Token>)
    requires dim <= d < 32
    ensures ReadBisection(dim, [Num(Pow2(d))] + rest) == Thrown(GridError)
  {
    Pow2ThirtyTwo();
    Pow2Monotone(d, 31);
    Pow2ThirtyOne();
    PopCountOfPow2(d);
    HighestBitOfPow2(d);
  }

  /**
   * `-1` is read as the largest `unsigned int`, 2^32 - 1: it has 32 bits
   * set, so both readers throw GridError rather than failing the stream.
   */
  lemma {:induction false} ReadMinusOneThrows(dim: nat, rest: seq<Token>)
    requires dim <= 31
    ensures ReadAnisotropic(dim, [Num(-1)] + rest) == Thrown(GridError)
    ensures ReadBisection(dim, [Num(-1)] + rest) == Thrown(GridError)
  {
    var ts := [Num(-1)] + rest;
    Pow2ThirtyTwo();
    Pow2ThirtyOne();
    Pow2Monotone(dim, 31);
    assert HeadUnsigned(ts) && HeadValue(ts) == Pow2(32) - 1;
    AllOnesPopCount(32);
  }

  /** A number of magnitude 2^32 or more fails the stream of both readers, leaving the policy unchanged. */
  lemma {:induction false} ReadOutOfRangeFails(dim: nat, v: int, rest: seq<Token>)
    requires v >= UnsignedRange || v <= -UnsignedRange
    ensures ReadAnisotropic(dim, [Num(v)] + rest) == StreamFailed
    ensures ReadBisection(dim, [Num(v)] + rest) == StreamFailed
  {
    assert !HeadUnsigned([Num(v)] + rest);
  }
}
