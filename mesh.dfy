// SPMesh: a box of cells [begin, end) given by two multi-indices in cell
// coordinates (not doubled).  The box is empty when some end is below its
// begin; widths are not clamped at zero.

module Meshes {
  import opened Bits
  import opened MultiIndices
  import opened Normals

  datatype Mesh = Mesh(begin: MultiIndex, end: MultiIndex)

  predicate ValidMesh(dim: nat, m: Mesh)
  {
    |m.begin| == dim && |m.end| == dim
  }

  /** `SPMesh(width)`: from the origin to width. */
  function MeshOfWidth(w: MultiIndex): (m: Mesh)
    ensures ValidMesh(|w|, m) && Widths(m) == w
  {
    Mesh(Zeros(|w|), w)
  }

  /** `bound(b)`: begin for 0, end for 1. */
  function Bound(m: Mesh, b: int): MultiIndex
    requires b == 0 || b == 1
  {
    if b == 0 then m.begin else m.end
  }

  /** `bound(normal)`: the bound on the normal's axis, end for an outer normal, begin otherwise. */
  function BoundOfNormal(m: Mesh, n: NormalId): (v: int)
    requires ValidMesh(|m.begin|, m) && 0 <= n.face < 2 * |m.begin|
    ensures Sign(n) == 1 ==> v == m.end[Axis(n)]
    ensures Sign(n) == -1 ==> v == m.begin[Axis(n)]
  {
    Bound(m, n.face % 2)[Axis(n)]
  }

  /** `width(i)` for every axis: end - begin, possibly negative. */
  function Widths(m: Mesh): (w: MultiIndex)
    requires |m.begin| == |m.end|
    ensures |w| == |m.begin|
    ensures forall i :: 0 <= i < |w| ==> w[i] == m.end[i] - m.begin[i]
  {
    Sub(m.end, m.begin)
  }

  /** `volume()`: the product of the widths. */
  function Volume(m: Mesh): int
    requires |m.begin| == |m.end|
  {
    Product(Widths(m))
  }

  /** `empty()`: some end is below its begin. */
  predicate IsEmpty(m: Mesh)
    requires |m.begin| == |m.end|
  {
    exists i :: 0 <= i < |m.begin| && m.end[i] < m.begin[i]
  }

  /** Componentwise maximum, the intended reading of `std::max` on multi-indices. */
  function Max(a: MultiIndex, b: MultiIndex): (r: MultiIndex)
    requires |a| == |b|
    ensures |r| == |a|
    ensures forall i :: 0 <= i < |a| ==> r[i] >= a[i] && r[i] >= b[i] && (r[i] == a[i] || r[i] == b[i])
  {
    seq(|a|, i requires 0 <= i < |a| => if a[i] >= b[i] then a[i] else b[i])
  }

  /** Componentwise minimum, the intended reading of `std::min` on multi-indices. */
  function Min(a: MultiIndex, b: MultiIndex): (r: MultiIndex)
    requires |a| == |b|
    ensures |r| == |a|
    ensures forall i :: 0 <= i < |a| ==> r[i] <= a[i] && r[i] <= b[i] && (r[i] == a[i] || r[i] == b[i])
  {
    seq(|a|, i requires 0 <= i < |a| => if a[i] <= b[i] then a[i] else b[i])
  }

  /** `refine(refinement)`: both bounds multiplied by factor(i). */
  function Refined(m: Mesh, f: seq<int>): (r: Mesh)
    requires ValidMesh(|f|, m)
    ensures ValidMesh(|f|, r)
    ensures forall i :: 0 <= i < |f| ==> r.begin[i] == f[i] * m.begin[i] && r.end[i] == f[i] * m.end[i]
  {
    Mesh(seq(|f|, i requires 0 <= i < |f| => f[i] * m.begin[i]),
         seq(|f|, i requires 0 <= i < |f| => f[i] * m.end[i]))
  }

  /** `grow(size)`: size subtracted from begin and added to end. */
  function Grown(m: Mesh, size: MultiIndex): (r: Mesh)
    requires |m.begin| == |m.end| == |size|
    ensures ValidMesh(|size|, r)
    ensures forall i :: 0 <= i < |size| ==> Widths(r)[i] == Widths(m)[i] + 2 * size[i]
  {
    Mesh(Sub(m.begin, size), Add(m.end, size))
  }

  /** `grow(int size)`: the same amount on every axis (see README.md on this overload). */
  function GrownBy(m: Mesh, size: int): (r: Mesh)
    requires |m.begin| == |m.end|
    ensures ValidMesh(|m.begin|, r)
    ensures forall i :: 0 <= i < |m.begin| ==> r.begin[i] == m.begin[i] - size && r.end[i] == m.end[i] + size
  {
    Grown(m, seq(|m.begin|, _ => size))
  }

  /** `intersect(other)`. */
  function Intersection(m: Mesh, o: Mesh): (r: Mesh)
    requires |m.begin| == |m.end| == |o.begin| == |o.end|
    ensures ValidMesh(|m.begin|, r)
    ensures forall i :: 0 <= i < |m.begin| ==>
              r.begin[i] >= m.begin[i] && r.begin[i] >= o.begin[i] && (r.begin[i] == m.begin[i] || r.begin[i] == o.begin[i])
    ensures forall i :: 0 <= i < |m.begin| ==>
              r.end[i] <= m.end[i] && r.end[i] <= o.end[i] && (r.end[i] == m.end[i] || r.end[i] == o.end[i])
  {
    Mesh(Max(m.begin, o.begin), Min(m.end, o.end))
  }

  /** C++ integer division, truncating toward zero. */
  function Quot(a: int, b: int): (q: int)
    requires b != 0
    ensures a >= 0 && b > 0 ==> q == a / b
  {
    if b > 0 then (if a >= 0 then a / b else -((-a) / b))
    else (if a >= 0 then -(a / (-b)) else (-a) / (-b))
  }

  /** The left width of `split(dir, l, r)`: (l * width) / (l + r), truncated. */
  function LeftWidth(m: Mesh, dir: int, l: int, r: int): int
    requires |m.begin| == |m.end| && 0 <= dir < |m.begin| && l + r != 0
  {
    Quot(l * (m.end[dir] - m.begin[dir]), l + r)
  }

  /** `split(dir, l, r)`: cut at begin[dir] + leftWidth along dir. */
  function Split(m: Mesh, dir: int, l: int, r: int): (halves: (Mesh, Mesh))
    requires |m.begin| == |m.end| && 0 <= dir < |m.begin| && l + r != 0
    ensures ValidMesh(|m.begin|, halves.0) && ValidMesh(|m.begin|, halves.1)
    ensures halves.0.begin == m.begin && halves.1.end == m.end && halves.0.end[dir] == halves.1.begin[dir]
    ensures forall i :: 0 <= i < |m.begin| && i != dir ==> halves.0.end[i] == m.end[i] && halves.1.begin[i] == m.begin[i]
  {
    var cut := m.begin[dir] + LeftWidth(m, dir, l, r);
    (Mesh(m.begin, m.end[dir := cut]), Mesh(m.begin[dir := cut], m.end))
  }

  /** `unitMesh()`: [0, 1)^dim. */
  function UnitMesh(dim: nat): (m: Mesh)
    ensures ValidMesh(dim, m)
    ensures forall i :: 0 <= i < dim ==> m.begin[i] == 0 && m.end[i] == 1
  {
    Mesh(Zeros(dim), seq(dim, _ => 1))
  }

  /** `mesh + shift`. */
  function Shifted(m: Mesh, s: MultiIndex): (r: Mesh)
    requires |m.begin| == |m.end| == |s|
    ensures ValidMesh(|s|, r)
    ensures forall i :: 0 <= i < |s| ==> r.begin[i] == m.begin[i] + s[i] && r.end[i] == m.end[i] + s[i]
  {
    Mesh(Add(m.begin, s), Add(m.end, s))
  }

  /** `mesh - shift`. */
  function Unshifted(m: Mesh, s: MultiIndex): (r: Mesh)
    requires |m.begin| == |m.end| == |s|
    ensures ValidMesh(|s|, r)
    ensures forall i :: 0 <= i < |s| ==> r.begin[i] == m.begin[i] - s[i] && r.end[i] == m.end[i] - s[i]
  {
    Mesh(Sub(m.begin, s), Sub(m.end, s))
  }

  // ---------------------------------------------------------------------
  // Properties
  // ---------------------------------------------------------------------

  /** Empty exactly when some width is negative; a non-empty mesh has a nonnegative volume. */
  lemma {:induction false} EmptyIffNegativeWidth(m: Mesh)
    requires |m.begin| == |m.end|
    ensures IsEmpty(m) <==> exists i :: 0 <= i < |m.begin| && Widths(m)[i] < 0
    ensures !IsEmpty(m) ==> Volume(m) >= 0
  {
    var w := Widths(m);
    if IsEmpty(m) {
      var i :| 0 <= i < |m.begin| && m.end[i] < m.begin[i];
      assert w[i] < 0;
    } else {
      assert forall i :: 0 <= i < |w| ==> w[i] >= 0;
      NonNegativeProduct(w);
    }
  }

  lemma {:induction false} NonNegativeProduct(w: seq<int>)
    requires forall i :: 0 <= i < |w| ==> w[i] >= 0
    ensures Product(w) >= 0
  {
    if w != [] {
      NonNegativeProduct(w[1..]);
      NonNegMul(w[0], Product(w[1..]));
    }
  }

  lemma {:induction false} ProductOfProducts(f: seq<int>, w: seq<int>)
    requires |f| == |w|
    ensures Product(seq(|f|, i requires 0 <= i < |f| => f[i] * w[i])) == Product(f) * Product(w)
  {
    if f != [] {
      var fw := seq(|f|, i requires 0 <= i < |f| => f[i] * w[i]);
      ProductOfProducts(f[1..], w[1..]);
      assert fw[1..] == seq(|f| - 1, i requires 0 <= i < |f| - 1 => f[1..][i] * w[1..][i]);
      var a, b, p, q := f[0], w[0], Product(f[1..]), Product(w[1..]);
      assert (a * b) * (p * q) == (a * p) * (b * q);
    }
  }

  /** Refining multiplies every width by its factor, and the volume by the number of children. */
  lemma {:induction false} RefineScalesWidths(m: Mesh, f: seq<int>)
    requires ValidMesh(|f|, m)
    ensures forall i :: 0 <= i < |f| ==> Widths(Refined(m, f))[i] == f[i] * Widths(m)[i]
    ensures Volume(Refined(m, f)) == Product(f) * Volume(m)
  {
    var r := Refined(m, f);
    var w := Widths(m);
    forall i | 0 <= i < |f| ensures Widths(r)[i] == f[i] * w[i] {
      assert f[i] * m.end[i] - f[i] * m.begin[i] == f[i] * (m.end[i] - m.begin[i]);
    }
    assert Widths(r) == seq(|f|, i requires 0 <= i < |f| => f[i] * w[i]);
    ProductOfProducts(f, w);
  }

  /** The int overload of `grow` is `grow` by the constant vector, so it widens every axis by 2k. */
  lemma {:induction false} GrowWidens(m: Mesh, k: int)
    requires |m.begin| == |m.end|
    ensures GrownBy(m, k) == Grown(m, seq(|m.begin|, _ => k))
    ensures forall i :: 0 <= i < |m.begin| ==> Widths(GrownBy(m, k))[i] == Widths(m)[i] + 2 * k
  {
  }

  /** Every box inside both meshes lies inside their intersection: it is the largest such box. */
  lemma {:induction false} IntersectionIsGreatestLowerBound(m: Mesh, o: Mesh, c: Mesh)
    requires |m.begin| == |m.end| == |o.begin| == |o.end| == |c.begin| == |c.end|
    ensures (forall i :: 0 <= i < |m.begin| ==>
              c.begin[i] >= m.begin[i] && c.begin[i] >= o.begin[i] && c.end[i] <= m.end[i] && c.end[i] <= o.end[i])
            ==> forall i :: 0 <= i < |m.begin| ==>
              c.begin[i] >= Intersection(m, o).begin[i] && c.end[i] <= Intersection(m, o).end[i]
  {
  }

  lemma {:induction false} IntersectionSymmetric(m: Mesh, o: Mesh)
    requires |m.begin| == |m.end| == |o.begin| == |o.end|
    ensures Intersection(m, o) == Intersection(o, m)
    ensures Intersection(m, m) == m
  {
  }

  lemma {:induction false} ProductUpdate(w: seq<int>, dir: nat, a: int, b: int)
    requires dir < |w|
    ensures Product(w[dir := a]) + Product(w[dir := b]) == Product(w[dir := a + b])
  {
    if dir == 0 {
      assert w[0 := a][1..] == w[1..] && w[0 := b][1..] == w[1..] && w[0 := a + b][1..] == w[1..];
      assert a * Product(w[1..]) + b * Product(w[1..]) == (a + b) * Product(w[1..]);
    } else {
      ProductUpdate(w[1..], dir - 1, a, b);
      assert w[dir := a][1..] == w[1..][dir - 1 := a];
      assert w[dir := b][1..] == w[1..][dir - 1 := b];
      assert w[dir := a + b][1..] == w[1..][dir - 1 := a + b];
      var p, q := Product(w[1..][dir - 1 := a]), Product(w[1..][dir - 1 := b]);
      assert w[0] * p + w[0] * q == w[0] * (p + q);
    }
  }

  /**
   * The two halves of `split` partition the mesh: their widths along dir
   * add up to the mesh's, and so do their volumes.
   */
  lemma {:induction false} SplitHalves(m: Mesh, dir: int, l: int, r: int)
    requires |m.begin| == |m.end| && 0 <= dir < |m.begin| && l + r != 0
    ensures var (left, right) := Split(m, dir, l, r);
            && Widths(left)[dir] + Widths(right)[dir] == Widths(m)[dir]
            && Volume(left) + Volume(right) == Volume(m)
  {
    var (left, right) := Split(m, dir, l, r);
    var w := Widths(m);
    var lw := LeftWidth(m, dir, l, r);
    assert Widths(left) == w[dir := lw];
    assert Widths(right) == w[dir := w[dir] - lw];
    ProductUpdate(w, dir, lw, w[dir] - lw);
    assert w[dir := lw + (w[dir] - lw)] == w;
  }

  /** With nonnegative weights, not both zero, a mesh of nonnegative width splits into halves of nonnegative width. */
  lemma {:induction false} SplitWidthsBounded(m: Mesh, dir: int, l: int, r: int)
    requires |m.begin| == |m.end| && 0 <= dir < |m.begin|
    requires l >= 0 && r >= 0 && l + r > 0 && m.end[dir] >= m.begin[dir]
    ensures 0 <= LeftWidth(m, dir, l, r) <= m.end[dir] - m.begin[dir]
  {
    var w := m.end[dir] - m.begin[dir];
    NonNegMul(l, w);
    NonNegMul(r, w);
    var q := (l * w) / (l + r);
    assert l * w == (l + r) * q + (l * w) % (l + r);
    assert (l + r) * (w + 1) == l * w + r * w + (l + r);
    if q > w {
      MulLess(l + r, w + 1, q);
    }
  }

  /** `m + s - s == m`; shifting moves both bounds by s, so the widths stay. */
  lemma {:induction false} ShiftRoundTrip(m: Mesh, s: MultiIndex)
    requires |m.begin| == |m.end| == |s|
    ensures Unshifted(Shifted(m, s), s) == m
    ensures Shifted(Unshifted(m, s), s) == m
    ensures Widths(Shifted(m, s)) == Widths(m)
  {
    SubAddCancel(m.begin, s);
    SubAddCancel(m.end, s);
  }

  lemma {:induction false} UnitMeshVolume(dim: nat)
    ensures Widths(UnitMesh(dim)) == seq(dim, _ => 1)
    ensures Volume(UnitMesh(dim)) == 1 && !IsEmpty(UnitMesh(dim))
  {
    assert Widths(UnitMesh(dim)) == seq(dim, _ => 1);
    UnitProduct(dim);
  }

  lemma {:induction false} UnitProduct(n: nat)
    ensures Product(seq(n, _ => 1)) == 1
  {
    if n > 0 {
      assert seq(n, _ => 1)[1..] == seq(n - 1, _ => 1);
      UnitProduct(n - 1);
    }
  }

  // ---------------------------------------------------------------------
  // The loops of the source
  // ---------------------------------------------------------------------

  /** `operator+=`: both entries of `bound_` shifted. */
  method ShiftAssign(bound: array<MultiIndex>, shift: MultiIndex)
    requires bound.Length == 2 && |bound[0]| == |bound[1]| == |shift|
    modifies bound
    ensures bound[..] == [Add(old(bound[0]), shift), Add(old(bound[1]), shift)]
    ensures Mesh(bound[0], bound[1]) == Shifted(Mesh(old(bound[0]), old(bound[1])), shift)
  {
    for b := 0 to 2
      invariant forall c :: 0 <= c < b ==> bound[c] == Add(old(bound[c]), shift)
      invariant forall c :: b <= c < 2 ==> bound[c] == old(bound[c])
    {
      bound[b] := Add(bound[b], shift);
    }
  }

  /** `operator-=`. */
  method UnshiftAssign(bound: array<MultiIndex>, shift: MultiIndex)
    requires bound.Length == 2 && |bound[0]| == |bound[1]| == |shift|
    modifies bound
    ensures bound[..] == [Sub(old(bound[0]), shift), Sub(old(bound[1]), shift)]
    ensures Mesh(bound[0], bound[1]) == Unshifted(Mesh(old(bound[0]), old(bound[1])), shift)
  {
    for b := 0 to 2
      invariant forall c :: 0 <= c < b ==> bound[c] == Sub(old(bound[c]), shift)
      invariant forall c :: b <= c < 2 ==> bound[c] == old(bound[c])
    {
      bound[b] := Sub(bound[b], shift);
    }
  }

  /** `empty()`. */
  method Empty(m: Mesh) returns (empty: bool)
    requires |m.begin| == |m.end|
    ensures empty == IsEmpty(m)
  {
    empty := false;
    for i := 0 to |m.begin|
      invariant empty == exists j :: 0 <= j < i && m.end[j] < m.begin[j]
    {
      empty := empty || m.end[i] < m.begin[i];
    }
  }

  /** `refine(refinement)`. */
  method Refine(m: Mesh, f: seq<int>) returns (r: Mesh)
    requires ValidMesh(|f|, m)
    ensures r == Refined(m, f)
  {
    var childBegin, childEnd := m.begin, m.end;
    for i := 0 to |f|
      invariant |childBegin| == |childEnd| == |f|
      invariant forall j :: 0 <= j < i ==> childBegin[j] == f[j] * m.begin[j] && childEnd[j] == f[j] * m.end[j]
    {
      childBegin := childBegin[i := f[i] * m.begin[i]];
      childEnd := childEnd[i := f[i] * m.end[i]];
    }
    r := Mesh(childBegin, childEnd);
  }

  /** `grow(int size)`. */
  method Grow(m: Mesh, size: int) returns (r: Mesh)
    requires |m.begin| == |m.end|
    ensures r == GrownBy(m, size)
  {
    var begin, end := m.begin, m.end;
    for i := 0 to |m.begin|
      invariant |begin| == |end| == |m.begin|
      invariant forall j :: 0 <= j < i ==> begin[j] == m.begin[j] - size && end[j] == m.end[j] + size
      invariant forall j :: i <= j < |m.begin| ==> begin[j] == m.begin[j] && end[j] == m.end[j]
    {
      begin := begin[i := begin[i] - size];
      end := end[i := end[i] + size];
    }
    r := Mesh(begin, end);
  }

  /** `width()`. */
  method Width(m: Mesh) returns (w: MultiIndex)
    requires |m.begin| == |m.end|
    ensures w == Widths(m)
  {
    w := Zeros(|m.begin|);
    for i := 0 to |m.begin|
      invariant |w| == |m.begin|
      invariant forall j :: 0 <= j < i ==> w[j] == m.end[j] - m.begin[j]
    {
      w := w[i := m.end[i] - m.begin[i]];
    }
  }

  /** `volume()`. */
  method VolumeOf(m: Mesh) returns (volume: int)
    requires |m.begin| == |m.end|
    ensures volume == Volume(m)
  {
    var w := Width(m);
    volume := 1;
    for i := 0 to |w|
      invariant volume == Product(w[..i])
    {
      ProductSnoc(w[..i], w[i]);
      assert w[..i + 1] == w[..i] + [w[i]];
      volume := volume * w[i];
    }
    assert w[..|w|] == w;
  }

  /** `unitMesh()`. */
  method MakeUnitMesh(dim: nat) returns (m: Mesh)
    ensures m == UnitMesh(dim)
  {
    var w := Zeros(dim);
    for i := 0 to dim
      invariant |w| == dim
      invariant forall j :: 0 <= j < i ==> w[j] == 1
      invariant forall j :: i <= j < dim ==> w[j] == 0
    {
      w := w[i := 1];
    }
    m := MeshOfWidth(w);
  }
}
