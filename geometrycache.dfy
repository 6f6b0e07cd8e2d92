// SPGeometryPattern and the transposed Jacobian of SPGeometryCache.
//
// An entity of direction dir extends along the axes whose direction bit is
// set.  Its transposed Jacobian is a (dim - codim) x dim matrix with a single
// nonzero per row: the grid width h[j] of the k-th extending axis j sits in
// column nonzero(k).  The cache keeps only those widths and the pattern.
// Coordinates are modelled as `real`, so the arithmetic is exact.

module GeometryCaches {
  import opened Bits
  import opened Errors

  predicate Increasing(s: seq<nat>)
  {
    forall a, b :: 0 <= a < b < |s| ==> s[a] < s[b]
  }

  /** `0, 1, ..., n - 1`. */
  function Iota(n: nat): (s: seq<nat>)
    ensures |s| == n && forall k :: 0 <= k < n ==> s[k] == k
  {
    if n == 0 then [] else Iota(n - 1) + [n - 1]
  }

  /** The axes below n along which dir extends, in increasing order. */
  function NonzeroAxes(n: nat, dir: nat): (axes: seq<nat>)
    ensures |axes| == LowSum(dir, n) && forall k :: 0 <= k < |axes| ==> axes[k] < n
  {
    if n == 0 then []
    else
      LowSumSnoc(dir, n - 1);
      NonzeroAxes(n - 1, dir) + (if Bit(dir, n - 1) == 1 then [n - 1] else [])
  }

  /** The axes below n along which dir does not extend, in increasing order. */
  function ZeroAxes(n: nat, dir: nat): (axes: seq<nat>)
    ensures |axes| + LowSum(dir, n) == n && forall k :: 0 <= k < |axes| ==> axes[k] < n
  {
    if n == 0 then []
    else
      LowSumSnoc(dir, n - 1);
      ZeroAxes(n - 1, dir) + (if Bit(dir, n - 1) == 0 then [n - 1] else [])
  }

  /** The lists are increasing, and their axes have the bit that put them there. */
  lemma {:induction false} AxesBits(n: nat, dir: nat)
    ensures Increasing(NonzeroAxes(n, dir)) && Increasing(ZeroAxes(n, dir))
    ensures forall k :: 0 <= k < |NonzeroAxes(n, dir)| ==> Bit(dir, NonzeroAxes(n, dir)[k]) == 1
    ensures forall k :: 0 <= k < |ZeroAxes(n, dir)| ==> Bit(dir, ZeroAxes(n, dir)[k]) == 0
  {
    if n > 0 {
      AxesBits(n - 1, dir);
    }
  }

  /** The k-th extending axis occurs once in the nonzero list and not in the zero list. */
  lemma {:induction false} NonzeroAxisUnique(n: nat, dir: nat, k: nat)
    requires k < |NonzeroAxes(n, dir)|
    ensures forall i :: 0 <= i < |NonzeroAxes(n, dir)| && i != k ==> NonzeroAxes(n, dir)[i] != NonzeroAxes(n, dir)[k]
    ensures forall i :: 0 <= i < |ZeroAxes(n, dir)| ==> ZeroAxes(n, dir)[i] != NonzeroAxes(n, dir)[k]
  {
    AxesBits(n, dir);
  }

  /** Every axis below n is in exactly one of the two lists, the one its bit selects. */
  lemma {:induction false} AxesCover(n: nat, dir: nat, j: nat)
    requires j < n
    ensures j in NonzeroAxes(n, dir) <==> Bit(dir, j) == 1
    ensures j in ZeroAxes(n, dir) <==> Bit(dir, j) == 0
  {
    if j < n - 1 {
      AxesCover(n - 1, dir, j);
    }
  }

  /** With every low bit set, the extending axes are all axes. */
  lemma {:induction false} AllAxesExtend(n: nat, dir: nat)
    requires LowSum(dir, n) == n
    ensures NonzeroAxes(n, dir) == Iota(n) && ZeroAxes(n, dir) == []
  {
    if n > 0 {
      LowSumSnoc(dir, n - 1);
      LowSumSteps(dir, 0, n - 1);
      AllAxesExtend(n - 1, dir);
    }
  }

  /** With no low bit set, no axis extends. */
  lemma {:induction false} NoAxisExtends(n: nat, dir: nat)
    requires LowSum(dir, n) == 0
    ensures NonzeroAxes(n, dir) == [] && ZeroAxes(n, dir) == Iota(n)
  {
    if n > 0 {
      LowSumSnoc(dir, n - 1);
      NoAxisExtends(n - 1, dir);
      assert Bit(dir, n - 1) == 0;
      assert ZeroAxes(n, dir) == Iota(n - 1) + [n - 1];
    }
  }

  // ---------------------------------------------------------------------
  // SPGeometryPattern
  // ---------------------------------------------------------------------

  /** `nonzero_` and `zero_`: the extending and the remaining axes. */
  datatype Pattern = Pattern(nonzero: seq<nat>, zero: seq<nat>)

  /**
   * The pattern of `SPGeometryPattern< dim, codim >( dir )`: the
   * specialisation for codim 0 answers nonzero(k) = k and the one for
   * codim dim answers zero(k) = k, neither looking at dir; the general
   * template lists the axes by their direction bits.
   */
  function PatternOf(dim: nat, codim: nat, dir: nat): (p: Pattern)
    requires codim <= dim
    ensures |p.nonzero| + |p.zero| == dim
  {
    if codim == 0 then Pattern(Iota(dim), [])
    else if codim == dim then Pattern([], Iota(dim))
    else Pattern(NonzeroAxes(dim, dir), ZeroAxes(dim, dir))
  }

  /**
   * For a direction of the right mydimension the specialisations agree
   * with the general template: the nonzero list has dim - codim entries,
   * exactly the axes of the set bits.
   */
  lemma {:induction false} PatternAgrees(dim: nat, codim: nat, dir: nat)
    requires codim <= dim && dir < Pow2(dim) && PopCount(dir) == dim - codim
    ensures PatternOf(dim, codim, dir) == Pattern(NonzeroAxes(dim, dir), ZeroAxes(dim, dir))
    ensures |NonzeroAxes(dim, dir)| == dim - codim && |ZeroAxes(dim, dir)| == codim
  {
    LowSumIsPopCount(dir, dim);
    if codim == 0 {
      AllAxesExtend(dim, dir);
    } else if codim == dim {
      NoAxisExtends(dim, dir);
    }
  }

  /**
   * The constructor of the general template: one pass over the axes,
   * appending each axis to `nonzero_` or `zero_`.  The source asserts
   * afterwards that dim - codim axes were nonzero; here that is the
   * precondition, and the postcondition gives the lengths.
   */
  method MakePattern(dim: nat, codim: nat, dir: nat) returns (p: Pattern)
    requires codim <= dim && dir < Pow2(dim) && PopCount(dir) == dim - codim
    ensures p == Pattern(NonzeroAxes(dim, dir), ZeroAxes(dim, dir))
    ensures |p.nonzero| == dim - codim && |p.zero| == codim
  {
    LowSumIsPopCount(dir, dim);
    var nonzero: seq<nat> := [];
    var zero: seq<nat> := [];
    for j := 0 to dim
      invariant nonzero == NonzeroAxes(j, dir) && zero == ZeroAxes(j, dir)
    {
      if Bit(dir, j) != 0 {
        nonzero := nonzero + [j];
      } else {
        zero := zero + [j];
      }
    }
    p := Pattern(nonzero, zero);
  }

  // ---------------------------------------------------------------------
  // SPGeometryCache::JacobianTransposed
  // ---------------------------------------------------------------------

  /** `storage_`: the pattern of dir in dim dimensions and the widths h. */
  datatype Jacobian = Jacobian(dim: nat, dir: nat, h: seq<real>)

  predicate ValidJacobian(jt: Jacobian)
  {
    jt.dir < Pow2(jt.dim) && |jt.h| == LowSum(jt.dir, jt.dim)
  }

  function Nonzero(jt: Jacobian): seq<nat>
  {
    NonzeroAxes(jt.dim, jt.dir)
  }

  function Zero(jt: Jacobian): seq<nat>
  {
    ZeroAxes(jt.dim, jt.dir)
  }

  /** Entry (k, j) of the matrix the transposed Jacobian stands for. */
  function Entry(jt: Jacobian, k: nat, j: nat): real
    requires ValidJacobian(jt) && k < |jt.h|
  {
    if j == Nonzero(jt)[k] then jt.h[k] else 0.0
  }

  function Row(jt: Jacobian, k: nat): (r: seq<real>)
    requires ValidJacobian(jt) && k < |jt.h|
    ensures |r| == jt.dim
  {
    seq(jt.dim, j requires 0 <= j < jt.dim => Entry(jt, k, j))
  }

  function Column(jt: Jacobian, j: nat): (c: seq<real>)
    requires ValidJacobian(jt)
    ensures |c| == |jt.h|
  {
    seq(|jt.h|, k requires 0 <= k < |jt.h| => Entry(jt, k, j))
  }

  function Dot(a: seq<real>, b: seq<real>): real
    requires |a| == |b|
  {
    DotUpTo(a, b, |a|)
  }

  /** The sum of a[i] * b[i] over i < n. */
  function DotUpTo(a: seq<real>, b: seq<real>, n: nat): real
    requires n <= |a| == |b|
  {
    if n == 0 then 0.0 else DotUpTo(a, b, n - 1) + a[n - 1] * b[n - 1]
  }

  /** The matrix times x: one entry per row. */
  function MatrixProduct(jt: Jacobian, x: seq<real>): (y: seq<real>)
    requires ValidJacobian(jt) && |x| == jt.dim
    ensures |y| == |jt.h|
  {
    seq(|jt.h|, k requires 0 <= k < |jt.h| => Dot(Row(jt, k), x))
  }

  /** The transposed matrix times x: one entry per column. */
  function TransposedProduct(jt: Jacobian, x: seq<real>): (y: seq<real>)
    requires ValidJacobian(jt) && |x| == |jt.h|
    ensures |y| == jt.dim
  {
    seq(jt.dim, j requires 0 <= j < jt.dim => Dot(Column(jt, j), x))
  }

  function RealProduct(h: seq<real>): real
  {
    if h == [] then 1.0 else RealProduct(h[..|h| - 1]) * h[|h| - 1]
  }

  /** A vector with one possibly nonzero entry p picks x[p]. */
  lemma {:induction false} DotSingle(a: seq<real>, b: seq<real>, p: nat, n: nat)
    requires n <= |a| == |b| && p < n
    requires forall j :: 0 <= j < |a| && j != p ==> a[j] == 0.0
    ensures DotUpTo(a, b, n) == a[p] * b[p]
  {
    if p < n - 1 {
      DotSingle(a, b, p, n - 1);
    } else {
      DotZero(a, b, n - 1);
    }
  }

  lemma {:induction false} DotZero(a: seq<real>, b: seq<real>, n: nat)
    requires n <= |a| == |b| && forall j :: 0 <= j < n ==> a[j] == 0.0
    ensures DotUpTo(a, b, n) == 0.0
  {
    if n > 0 {
      DotZero(a, b, n - 1);
    }
  }

  /** Row k of the product is h[k] times the component of its extending axis. */
  lemma {:induction false} ProductEntry(jt: Jacobian, x: seq<real>, k: nat)
    requires ValidJacobian(jt) && |x| == jt.dim && k < |jt.h|
    ensures MatrixProduct(jt, x)[k] == jt.h[k] * x[Nonzero(jt)[k]]
  {
    DotSingle(Row(jt, k), x, Nonzero(jt)[k], jt.dim);
  }

  /** Column nonzero(k) of the transposed product is h[k] x[k]; a zero axis gets 0. */
  lemma {:induction false} TransposedProductEntry(jt: Jacobian, x: seq<real>, j: nat)
    requires ValidJacobian(jt) && |x| == |jt.h| && j < jt.dim
    ensures forall k :: 0 <= k < |jt.h| && Nonzero(jt)[k] == j ==> TransposedProduct(jt, x)[j] == jt.h[k] * x[k]
    ensures Bit(jt.dir, j) == 0 ==> TransposedProduct(jt, x)[j] == 0.0
  {
    AxesBits(jt.dim, jt.dir);
    var nz := Nonzero(jt);
    forall k | 0 <= k < |jt.h| && nz[k] == j
      ensures TransposedProduct(jt, x)[j] == jt.h[k] * x[k]
    {
      DotSingle(Column(jt, j), x, k, |jt.h|);
    }
    if Bit(jt.dir, j) == 0 {
      DotZero(Column(jt, j), x, |jt.h|);
    }
  }

  /** Every axis is covered once: a nonzero axis by its row, a zero axis by 0. */
  lemma {:induction false} TransposedProductIs(jt: Jacobian, x: seq<real>, y: seq<real>)
    requires ValidJacobian(jt) && |x| == |jt.h| && |y| == jt.dim
    requires forall k :: 0 <= k < |jt.h| ==> y[Nonzero(jt)[k]] == jt.h[k] * x[k]
    requires forall k :: 0 <= k < |Zero(jt)| ==> y[Zero(jt)[k]] == 0.0
    ensures y == TransposedProduct(jt, x)
  {
    forall j | 0 <= j < jt.dim ensures y[j] == TransposedProduct(jt, x)[j] {
      AxesCover(jt.dim, jt.dir, j);
      TransposedProductEntry(jt, x, j);
      if Bit(jt.dir, j) == 1 {
        var k :| 0 <= k < |Nonzero(jt)| && Nonzero(jt)[k] == j;
      } else {
        var k :| 0 <= k < |Zero(jt)| && Zero(jt)[k] == j;
      }
    }
  }

  /**
   * `JacobianTransposed( h, dir )`: the width of the k-th extending axis
   * is taken from the global widths.
   */
  method MakeJacobian(dim: nat, codim: nat, hGlobal: seq<real>, dir: nat) returns (jt: Jacobian)
    requires codim <= dim && dir < Pow2(dim) && PopCount(dir) == dim - codim && |hGlobal| == dim
    ensures ValidJacobian(jt) && jt.dim == dim && jt.dir == dir && |jt.h| == dim - codim
    ensures forall k :: 0 <= k < |jt.h| ==> jt.h[k] == hGlobal[Nonzero(jt)[k]]
  {
    PatternAgrees(dim, codim, dir);
    LowSumIsPopCount(dir, dim);
    var p := PatternOf(dim, codim, dir);
    var h := new real[dim - codim];
    for k := 0 to dim - codim
      invariant forall i :: 0 <= i < k ==> h[i] == hGlobal[p.nonzero[i]]
    {
      h[k] := hGlobal[p.nonzero[k]];
    }
    jt := Jacobian(dim, dir, h[..]);
  }

  /**
   * For an element (codim 0) the matrix is diagonal with the global
   * widths, and its determinant is their product.
   */
  lemma {:induction false} ElementJacobian(jt: Jacobian, hGlobal: seq<real>)
    requires ValidJacobian(jt) && LowSum(jt.dir, jt.dim) == jt.dim && |hGlobal| == jt.dim
    requires forall k :: 0 <= k < |jt.h| ==> jt.h[k] == hGlobal[Nonzero(jt)[k]]
    ensures jt.h == hGlobal
    ensures forall k, j :: 0 <= k < jt.dim && 0 <= j < jt.dim ==> Entry(jt, k, j) == if j == k then hGlobal[k] else 0.0
    ensures RealProduct(jt.h) == RealProduct(hGlobal)
  {
    AllAxesExtend(jt.dim, jt.dir);
  }

  /** `operator FieldMatrix`: zero everywhere but h[k] at (k, nonzero(k)). */
  method ToMatrix(jt: Jacobian) returns (m: array2<real>)
    requires ValidJacobian(jt)
    ensures fresh(m) && m.Length0 == |jt.h| && m.Length1 == jt.dim
    ensures forall k, j :: 0 <= k < |jt.h| && 0 <= j < jt.dim ==> m[k, j] == Row(jt, k)[j]
  {
    var nz := Nonzero(jt);
    m := new real[|jt.h|, jt.dim]((k, j) => 0.0);
    for k := 0 to |jt.h|
      invariant forall r, j :: 0 <= r < k && 0 <= j < jt.dim ==> m[r, j] == Row(jt, r)[j]
      invariant forall r, j :: k <= r < |jt.h| && 0 <= j < jt.dim ==> m[r, j] == 0.0
    {
      m[k, nz[k]] := jt.h[k];
    }
  }

  /** `mv( x, y )`: y = J x, writing y[k] for every row k. */
  method Mv(jt: Jacobian, x: seq<real>, y: array<real>)
    requires ValidJacobian(jt) && |x| == jt.dim && y.Length == |jt.h|
    modifies y
    ensures y[..] == MatrixProduct(jt, x)
  {
    var nz := Nonzero(jt);
    for k := 0 to |jt.h|
      invariant forall i :: 0 <= i < k ==> y[i] == jt.h[i] * x[nz[i]]
    {
      y[k] := jt.h[k] * x[nz[k]];
    }
    forall k | 0 <= k < |jt.h| ensures y[k] == MatrixProduct(jt, x)[k] {
      ProductEntry(jt, x, k);
    }
  }

  /** `usmv( alpha, x, y )`: y += alpha J x; `umv` is alpha = 1 and `mmv` alpha = -1. */
  method Usmv(jt: Jacobian, alpha: real, x: seq<real>, y: array<real>)
    requires ValidJacobian(jt) && |x| == jt.dim && y.Length == |jt.h|
    modifies y
    ensures forall k :: 0 <= k < |jt.h| ==> y[k] == old(y[k]) + alpha * MatrixProduct(jt, x)[k]
  {
    var nz := Nonzero(jt);
    for k := 0 to |jt.h|
      invariant forall i :: 0 <= i < k ==> y[i] == old(y[i]) + alpha * jt.h[i] * x[nz[i]]
      invariant forall i :: k <= i < |jt.h| ==> y[i] == old(y[i])
    {
      y[k] := y[k] + alpha * jt.h[k] * x[nz[k]];
    }
    forall k | 0 <= k < |jt.h| ensures y[k] == old(y[k]) + alpha * MatrixProduct(jt, x)[k] {
      ProductEntry(jt, x, k);
    }
  }

  method Umv(jt: Jacobian, x: seq<real>, y: array<real>)
    requires ValidJacobian(jt) && |x| == jt.dim && y.Length == |jt.h|
    modifies y
    ensures forall k :: 0 <= k < |jt.h| ==> y[k] == old(y[k]) + MatrixProduct(jt, x)[k]
  {
    Usmv(jt, 1.0, x, y);
  }

  method Mmv(jt: Jacobian, x: seq<real>, y: array<real>)
    requires ValidJacobian(jt) && |x| == jt.dim && y.Length == |jt.h|
    modifies y
    ensures forall k :: 0 <= k < |jt.h| ==> y[k] == old(y[k]) - MatrixProduct(jt, x)[k]
  {
    Usmv(jt, -1.0, x, y);
  }

  /** Adding alpha times row k at axis nonzero(k), and nothing elsewhere, adds alpha J^T x. */
  lemma {:induction false} TransposedProductVanishes(jt: Jacobian, x: seq<real>)
    requires ValidJacobian(jt) && |x| == |jt.h|
    ensures forall k :: 0 <= k < |Zero(jt)| ==> TransposedProduct(jt, x)[Zero(jt)[k]] == 0.0
  {
    AxesBits(jt.dim, jt.dir);
    forall k | 0 <= k < |Zero(jt)| ensures TransposedProduct(jt, x)[Zero(jt)[k]] == 0.0 {
      TransposedProductEntry(jt, x, Zero(jt)[k]);
    }
  }

  /** Multiplying equals by alpha gives equals (kept apart from the nonlinear context). */
  lemma ScaleEqual(alpha: real, a: real, b: real)
    requires a == b
    ensures alpha * a == alpha * b
  {
  }

  /** An update of every nonzero axis by alpha tp, vanishing on the zero axes, adds alpha tp. */
  lemma {:induction false} ScaledUpdateIs(jt: Jacobian, alpha: real, tp: seq<real>, y0: seq<real>, y1: seq<real>)
    requires ValidJacobian(jt) && |tp| == jt.dim && |y0| == jt.dim && |y1| == jt.dim
    requires forall k :: 0 <= k < |Nonzero(jt)| ==> y1[Nonzero(jt)[k]] == y0[Nonzero(jt)[k]] + alpha * tp[Nonzero(jt)[k]]
    requires forall k :: 0 <= k < |Zero(jt)| ==> y1[Zero(jt)[k]] == y0[Zero(jt)[k]] && tp[Zero(jt)[k]] == 0.0
    ensures forall j :: 0 <= j < jt.dim ==> y1[j] == y0[j] + alpha * tp[j]
  {
    forall j | 0 <= j < jt.dim ensures y1[j] == y0[j] + alpha * tp[j] {
      AxesCover(jt.dim, jt.dir, j);
      if Bit(jt.dir, j) == 1 {
        var k :| 0 <= k < |Nonzero(jt)| && Nonzero(jt)[k] == j;
      } else {
        var k :| 0 <= k < |Zero(jt)| && Zero(jt)[k] == j;
      }
    }
  }

  /** Adding alpha h[k] x[k] at each nonzero axis and nothing elsewhere adds alpha J^T x. */
  lemma {:induction false} ScaledTransposedProductIs(jt: Jacobian, alpha: real, x: seq<real>, y0: seq<real>, y1: seq<real>)
    requires ValidJacobian(jt) && |x| == |jt.h| && |y0| == jt.dim && |y1| == jt.dim
    requires forall k :: 0 <= k < |Nonzero(jt)| ==> y1[Nonzero(jt)[k]] == y0[Nonzero(jt)[k]] + alpha * (jt.h[k] * x[k])
    requires forall k :: 0 <= k < |Zero(jt)| ==> y1[Zero(jt)[k]] == y0[Zero(jt)[k]]
    ensures forall j :: 0 <= j < jt.dim ==> y1[j] == y0[j] + alpha * TransposedProduct(jt, x)[j]
  {
    ScaledRows(jt, alpha, x);
    TransposedProductVanishes(jt, x);
    ScaledUpdateIs(jt, alpha, TransposedProduct(jt, x), y0, y1);
  }

  lemma {:induction false} ScaledRows(jt: Jacobian, alpha: real, x: seq<real>)
    requires ValidJacobian(jt) && |x| == |jt.h|
    ensures forall k :: 0 <= k < |Nonzero(jt)| ==>
      alpha * (jt.h[k] * x[k]) == alpha * TransposedProduct(jt, x)[Nonzero(jt)[k]]
  {
    var nz := Nonzero(jt);
    var tp := TransposedProduct(jt, x);
    forall k | 0 <= k < |nz| ensures alpha * (jt.h[k] * x[k]) == alpha * tp[nz[k]] {
      TransposedProductEntry(jt, x, nz[k]);
      ScaleEqual(alpha, jt.h[k] * x[k], tp[nz[k]]);
    }
  }

  /**
   * `mtv( x, y )`: y = J^T x.  The first loop writes the nonzero axes,
   * the second zeroes the others, so every entry of y is written once.
   */
  method Mtv(jt: Jacobian, x: seq<real>, y: array<real>)
    requires ValidJacobian(jt) && |x| == |jt.h| && y.Length == jt.dim
    modifies y
    ensures y[..] == TransposedProduct(jt, x)
  {
    var nz := Nonzero(jt);
    var z := Zero(jt);
    AxesBits(jt.dim, jt.dir);
    for k := 0 to |nz|
      invariant forall i :: 0 <= i < k ==> y[nz[i]] == jt.h[i] * x[i]
    {
      y[nz[k]] := jt.h[k] * x[k];
    }
    for k := 0 to |z|
      invariant forall i :: 0 <= i < |nz| ==> y[nz[i]] == jt.h[i] * x[i]
      invariant forall i :: 0 <= i < k ==> y[z[i]] == 0.0
    {
      y[z[k]] := 0.0;
    }
    TransposedProductIs(jt, x, y[..]);
  }

  /**
   * `usmtv( alpha, x, y )`: y += alpha J^T x, touching only the nonzero
   * axes; `umtv` is alpha = 1 and `mmtv` alpha = -1.
   */
  method Usmtv(jt: Jacobian, alpha: real, x: seq<real>, y: array<real>)
    requires ValidJacobian(jt) && |x| == |jt.h| && y.Length == jt.dim
    modifies y
    ensures forall j :: 0 <= j < jt.dim ==> y[j] == old(y[j]) + alpha * TransposedProduct(jt, x)[j]
    ensures forall k :: 0 <= k < |Zero(jt)| ==> y[Zero(jt)[k]] == old(y[Zero(jt)[k]])
  {
    var nz := Nonzero(jt);
    ghost var z := Zero(jt);
    AxesBits(jt.dim, jt.dir);
    for k := 0 to |nz|
      invariant forall i :: 0 <= i < k ==> y[nz[i]] == old(y[nz[i]]) + alpha * (jt.h[i] * x[i])
      invariant forall i :: k <= i < |nz| ==> y[nz[i]] == old(y[nz[i]])
      invariant forall i :: 0 <= i < |z| ==> y[z[i]] == old(y[z[i]])
    {
      y[nz[k]] := y[nz[k]] + alpha * (jt.h[k] * x[k]);
    }
    ScaledTransposedProductIs(jt, alpha, x, old(y[..]), y[..]);
  }

  method Umtv(jt: Jacobian, x: seq<real>, y: array<real>)
    requires ValidJacobian(jt) && |x| == |jt.h| && y.Length == jt.dim
    modifies y
    ensures forall j :: 0 <= j < jt.dim ==> y[j] == old(y[j]) + TransposedProduct(jt, x)[j]
    ensures forall k :: 0 <= k < |Zero(jt)| ==> y[Zero(jt)[k]] == old(y[Zero(jt)[k]])
  {
    Usmtv(jt, 1.0, x, y);
  }

  method Mmtv(jt: Jacobian, x: seq<real>, y: array<real>)
    requires ValidJacobian(jt) && |x| == |jt.h| && y.Length == jt.dim
    modifies y
    ensures forall j :: 0 <= j < jt.dim ==> y[j] == old(y[j]) - TransposedProduct(jt, x)[j]
    ensures forall k :: 0 <= k < |Zero(jt)| ==> y[Zero(jt)[k]] == old(y[Zero(jt)[k]])
  {
    Usmtv(jt, -1.0, x, y);
  }

  /** `det()`: the product of the stored widths. */
  method Det(jt: Jacobian) returns (det: real)
    ensures det == RealProduct(jt.h)
  {
    det := 1.0;
    for k := 0 to |jt.h|
      invariant det == RealProduct(jt.h[..k])
    {
      assert jt.h[..k + 1][..k] == jt.h[..k];
      det := det * jt.h[k];
    }
    assert jt.h[..|jt.h|] == jt.h;
  }

  /** `determinant()`: only a square matrix, that is an element's, has one. */
  method Determinant(jt: Jacobian) returns (r: Result<real>)
    ensures |jt.h| == jt.dim ==> r == Ok(RealProduct(jt.h))
    ensures |jt.h| != jt.dim ==> r == Err(FMatrixError)
  {
    if |jt.h| == jt.dim {
      var det := Det(jt);
      r := Ok(det);
    } else {
      r := Err(FMatrixError);
    }
  }

  // ---------------------------------------------------------------------
  // SPGeometryCache
  // ---------------------------------------------------------------------

  /** The cache of one direction: codimension, transposed Jacobian and volume. */
  datatype GeometryCache = GeometryCache(codim: nat, jacobian: Jacobian, volume: real)

  /** `SPGeometryCache( h, dir )`: the volume is the Jacobian's determinant. */
  method MakeGeometryCache(dim: nat, codim: nat, hGlobal: seq<real>, dir: nat) returns (c: GeometryCache)
    requires codim <= dim && dir < Pow2(dim) && PopCount(dir) == dim - codim && |hGlobal| == dim
    ensures c.codim == codim && ValidJacobian(c.jacobian) && c.jacobian.dim == dim && c.jacobian.dir == dir
    ensures |c.jacobian.h| == dim - codim
    ensures forall k :: 0 <= k < |c.jacobian.h| ==> c.jacobian.h[k] == hGlobal[Nonzero(c.jacobian)[k]]
    ensures c.volume == RealProduct(c.jacobian.h)
  {
    var jt := MakeJacobian(dim, codim, hGlobal, dir);
    var volume := Det(jt);
    c := GeometryCache(codim, jt, volume);
  }
}
