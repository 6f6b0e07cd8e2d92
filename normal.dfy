// SPNormalId and SPNormalVector.
//
// A face of the reference cube is numbered `face = 2*axis + s`, where s = 1
// for the face on the upper side of the axis.  An SPNormalId stores that
// number; an SPNormalVector is the sparse vector p * e_axis.  The source's
// floating-point field type is modelled by `real`.

module Normals {
  import opened MultiIndices

  // ---------------------------------------------------------------------
  // SPNormalId
  // ---------------------------------------------------------------------

  datatype NormalId = NormalId(face: int)

  /** The default-constructed normal id has face 2*dim (one past the last face). */
  function DefaultNormalId(dim: nat): (n: NormalId)
    ensures n.face == 2 * dim && Axis(n) == dim
  {
    NormalId(2 * dim)
  }

  /** `axis()`: face >> 1. */
  function Axis(n: NormalId): (a: int)
    ensures 2 * a <= n.face <= 2 * a + 1
  {
    n.face / 2
  }

  /** `sign()`: 2*(face & 1) - 1. */
  function Sign(n: NormalId): (s: int)
    ensures s == -1 || s == 1
    ensures s == 1 <==> n.face == 2 * Axis(n) + 1
  {
    2 * (n.face % 2) - 1
  }

  /** Unary minus: face ^ 1, the opposite face of the same axis. */
  function Neg(n: NormalId): (m: NormalId)
    ensures Axis(m) == Axis(n) && Sign(m) == -Sign(n)
  {
    NormalId(if n.face % 2 == 0 then n.face + 1 else n.face - 1)
  }

  lemma {:induction false} NegInvolutive(n: NormalId)
    ensures Neg(Neg(n)) == n
  {
  }

  /** A face number is determined by its axis and sign. */
  lemma {:induction false} AxisSignDetermine(n: NormalId, m: NormalId)
    requires Axis(n) == Axis(m) && Sign(n) == Sign(m)
    ensures n == m
  {
  }

  /** The face of a given axis and sign. */
  function FaceOf(axis: int, sign: int): (n: NormalId)
    requires sign == -1 || sign == 1
    ensures Axis(n) == axis && Sign(n) == sign
  {
    NormalId(2 * axis + (sign + 1) / 2)
  }

  /** `id + n` and `n + id`: component axis(n) moves by sign(n). */
  function AddNormal(id: MultiIndex, n: NormalId): (r: MultiIndex)
    requires 0 <= Axis(n) < |id|
    ensures |r| == |id|
    ensures forall i :: 0 <= i < |id| && i != Axis(n) ==> r[i] == id[i]
    ensures r[Axis(n)] - id[Axis(n)] == Sign(n)
  {
    id[Axis(n) := id[Axis(n)] + Sign(n)]
  }

  /** `id - n`: component axis(n) moves by -sign(n). */
  function SubNormal(id: MultiIndex, n: NormalId): (r: MultiIndex)
    requires 0 <= Axis(n) < |id|
    ensures |r| == |id|
    ensures forall i :: 0 <= i < |id| && i != Axis(n) ==> r[i] == id[i]
    ensures id[Axis(n)] - r[Axis(n)] == Sign(n)
  {
    id[Axis(n) := id[Axis(n)] - Sign(n)]
  }

  /** `n - id`: the negated id, moved by sign(n) along axis(n). */
  function NormalSub(n: NormalId, id: MultiIndex): (r: MultiIndex)
    requires 0 <= Axis(n) < |id|
    ensures |r| == |id|
  {
    AddNormal(Scale(id, -1), n)
  }

  /** `id * n` and `n * id`: the signed component along the normal. */
  function DotNormal(id: MultiIndex, n: NormalId): (r: int)
    requires 0 <= Axis(n) < |id|
    ensures r == id[Axis(n)] || r == -id[Axis(n)]
  {
    Sign(n) * id[Axis(n)]
  }

  /** Moving along a normal and back restores the id. */
  lemma {:induction false} AddSubNormal(id: MultiIndex, n: NormalId)
    requires 0 <= Axis(n) < |id|
    ensures SubNormal(AddNormal(id, n), n) == id
    ensures AddNormal(id, Neg(n)) == SubNormal(id, n)
  {
  }

  /** `n - id` is `-(id - n)`: componentwise negation of the id moved against n. */
  lemma {:induction false} NormalSubIsNegated(n: NormalId, id: MultiIndex)
    requires 0 <= Axis(n) < |id|
    ensures NormalSub(n, id) == Scale(SubNormal(id, n), -1)
  {
  }

  /** Moving one step along n raises the signed component by exactly one. */
  lemma {:induction false} DotAfterAdd(id: MultiIndex, n: NormalId)
    requires 0 <= Axis(n) < |id|
    ensures DotNormal(AddNormal(id, n), n) == DotNormal(id, n) + 1
  {
    var a := Axis(n);
    assert AddNormal(id, n)[a] == id[a] + Sign(n);
    assert Sign(n) * Sign(n) == 1;
    calc {
      DotNormal(AddNormal(id, n), n);
      Sign(n) * (id[a] + Sign(n));
      Sign(n) * id[a] + Sign(n) * Sign(n);
    }
  }

  /** The opposite normal gives the opposite signed component. */
  lemma {:induction false} DotNeg(id: MultiIndex, n: NormalId)
    requires 0 <= Axis(n) < |id|
    ensures DotNormal(id, Neg(n)) == -DotNormal(id, n)
  {
  }

  // ---------------------------------------------------------------------
  // Dense vectors (Dune::FieldVector) as the reference definition
  // ---------------------------------------------------------------------

  function DenseDot(u: seq<real>, v: seq<real>): real
    requires |u| == |v|
  {
    if |u| == 0 then 0.0 else u[0] * v[0] + DenseDot(u[1..], v[1..])
  }

  function Abs(x: real): (r: real)
    ensures r >= 0.0 && (r == x || r == -x)
  {
    if x < 0.0 then -x else x
  }

  function AbsSum(u: seq<real>): real
  {
    if |u| == 0 then 0.0 else Abs(u[0]) + AbsSum(u[1..])
  }

  function AbsMax(u: seq<real>): (r: real)
    ensures r >= 0.0
  {
    if |u| == 0 then 0.0
    else var m := AbsMax(u[1..]); if Abs(u[0]) > m then Abs(u[0]) else m
  }

  lemma {:induction false} SingleEntryDot(u: seq<real>, v: seq<real>, i: nat)
    requires |u| == |v| && i < |u|
    requires forall k :: 0 <= k < |u| && k != i ==> u[k] == 0.0
    ensures DenseDot(u, v) == u[i] * v[i]
  {
    if i == 0 {
      ZeroDot(u[1..], v[1..]);
    } else {
      SingleEntryDot(u[1..], v[1..], i - 1);
    }
  }

  lemma {:induction false} ZeroDot(u: seq<real>, v: seq<real>)
    requires |u| == |v|
    requires forall k :: 0 <= k < |u| ==> u[k] == 0.0
    ensures DenseDot(u, v) == 0.0
  {
    if |u| > 0 {
      ZeroDot(u[1..], v[1..]);
    }
  }

  lemma {:induction false} SingleEntryAbs(u: seq<real>, i: nat)
    requires i < |u|
    requires forall k :: 0 <= k < |u| && k != i ==> u[k] == 0.0
    ensures AbsSum(u) == Abs(u[i]) && AbsMax(u) == Abs(u[i])
  {
    if i == 0 {
      ZeroAbs(u[1..]);
    } else {
      SingleEntryAbs(u[1..], i - 1);
    }
  }

  lemma {:induction false} ZeroAbs(u: seq<real>)
    requires forall k :: 0 <= k < |u| ==> u[k] == 0.0
    ensures AbsSum(u) == 0.0 && AbsMax(u) == 0.0
  {
    if |u| > 0 {
      ZeroAbs(u[1..]);
    }
  }

  // ---------------------------------------------------------------------
  // SPNormalVector
  // ---------------------------------------------------------------------

  class NormalVector {
    const dim: nat
    const i: nat
    var p: real

    /** `SPNormalVector(i, p)`. */
    constructor (dim: nat, i: nat, p: real)
      ensures this.dim == dim && this.i == i && this.p == p
    {
      this.dim := dim;
      this.i := i;
      this.p := p;
    }

    /** The conversion to a dense FieldVector: p at position i, zero elsewhere. */
    function Dense(): (v: seq<real>)
      reads this
      requires i < dim
      ensures |v| == dim && v[i] == p
      ensures forall k :: 0 <= k < dim && k != i ==> v[k] == 0.0
    {
      var value := p;
      seq(dim, k => if k == i then value else 0.0)
    }

    /** `operator*=`. */
    method MulAssign(s: real)
      modifies this`p
      ensures p == old(p) * s
    {
      p := p * s;
    }

    /** `operator/=`. */
    method DivAssign(s: real)
      requires s != 0.0
      modifies this`p
      ensures p * s == old(p)
    {
      p := p / s;
    }

    /** `operator==` and, negated, `operator!=`. */
    predicate Equals(other: NormalVector)
      reads this, other
    {
      i == other.i && p == other.p
    }

    /** `operator*` with another normal vector. */
    function Dot(other: NormalVector): real
      reads this, other
    {
      if i == other.i then p * other.p else 0.0
    }

    /** `operator*` with a dense vector. */
    function DotField(v: seq<real>): real
      reads this
      requires i < |v|
    {
      p * v[i]
    }

    function OneNorm(): real
      reads this
    {
      Abs(p)
    }

    /** `two_norm()`: the length |p| of the single-entry vector. */
    function TwoNorm(): real
      reads this
    {
      Abs(p)
    }

    function TwoNorm2(): real
      reads this
    {
      p * p
    }

    function InfinityNorm(): real
      reads this
    {
      Abs(p)
    }
  }

  /** `!=` is exactly the negation of `==`, and `==` compares axis and value. */
  lemma {:induction false} NotEqualsIsNegation(a: NormalVector, b: NormalVector)
    ensures (a.i != b.i || a.p != b.p) <==> !a.Equals(b)
    ensures a.Equals(b) <==> a.i == b.i && a.p == b.p
  {
  }

  /** Equal normal vectors of the same dimension have the same dense form. */
  lemma {:induction false} EqualsDense(a: NormalVector, b: NormalVector)
    requires a.dim == b.dim && a.i < a.dim && b.i < b.dim
    requires a.Equals(b)
    ensures a.Dense() == b.Dense()
  {
  }

  /** The sparse dot products agree with the dense dot product. */
  lemma {:induction false} DotIsDenseDot(a: NormalVector, b: NormalVector)
    requires a.dim == b.dim && a.i < a.dim && b.i < b.dim
    ensures a.Dot(b) == DenseDot(a.Dense(), b.Dense())
  {
    SingleEntryDot(a.Dense(), b.Dense(), a.i);
  }

  lemma {:induction false} DotFieldIsDenseDot(a: NormalVector, v: seq<real>)
    requires |v| == a.dim && a.i < a.dim
    ensures a.DotField(v) == DenseDot(a.Dense(), v)
  {
    SingleEntryDot(a.Dense(), v, a.i);
  }

  /** The norms agree with the norms of the dense vector. */
  lemma {:induction false} NormsAreDenseNorms(a: NormalVector)
    requires a.i < a.dim
    ensures a.OneNorm() == AbsSum(a.Dense())
    ensures a.InfinityNorm() == AbsMax(a.Dense())
    ensures a.TwoNorm2() == DenseDot(a.Dense(), a.Dense())
    ensures a.TwoNorm() * a.TwoNorm() == a.TwoNorm2()
  {
    SingleEntryAbs(a.Dense(), a.i);
    SingleEntryDot(a.Dense(), a.Dense(), a.i);
  }

  /** `a * n` and `n * a`: a scaled copy, the argument unchanged. */
  method Scaled(a: real, b: NormalVector) returns (c: NormalVector)
    ensures fresh(c)
    ensures c.dim == b.dim && c.i == b.i && c.p == a * b.p
  {
    c := new NormalVector(b.dim, b.i, b.p);
    c.MulAssign(a);
  }

  /** The conversion SPNormalId -> SPNormalVector: the unit vector sign * e_axis. */
  method ToVector(dim: nat, n: NormalId) returns (v: NormalVector)
    requires 0 <= Axis(n) < dim
    ensures fresh(v) && v.dim == dim && v.i == Axis(n)
    ensures v.p == Sign(n) as real
    ensures v.TwoNorm2() == 1.0
  {
    v := new NormalVector(dim, Axis(n), Sign(n) as real);
  }
}
