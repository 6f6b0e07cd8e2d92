// SPBasicPartition and SPPartition: a box [begin, end] in doubled
// coordinates (even values are vertex planes, odd values cell midpoints),
// and the same box with a number, a neighbour per face and a boundary bit
// per face.

module Partitions {
  import opened Bits
  import opened MultiIndices
  import opened Meshes
  import opened Normals

  datatype BasicPartition = BasicPartition(begin: MultiIndex, end: MultiIndex)

  predicate ValidBasic(dim: nat, p: BasicPartition)
  {
    |p.begin| == dim && |p.end| == dim
  }

  /** `bound(b)`: begin for b = 0, end for b = 1. */
  function BoundOf(p: BasicPartition, b: nat): (v: MultiIndex)
    requires b <= 1
  {
    if b == 0 then p.begin else p.end
  }

  /**
   * `bound(b, i, d)`: the raw bound moved by one step inwards when its
   * parity is not d.  `(x ^ d) & 1` is the parity difference of x and d.
   */
  function Bound(p: BasicPartition, b: nat, i: nat, d: nat): (r: int)
    requires ValidBasic(|p.begin|, p) && i < |p.begin| && b <= 1 && d <= 1
    ensures r % 2 == d
    ensures b == 0 ==> p.begin[i] <= r <= p.begin[i] + 1
    ensures b == 1 ==> p.end[i] - 1 <= r <= p.end[i]
  {
    var x := BoundOf(p, b)[i];
    x - (2 * b - 1) * ((x % 2 + d) % 2)
  }

  /** `bound(normal)`: the bound of the normal's side on the normal's axis. */
  function BoundOfNormal(p: BasicPartition, n: NormalId): (v: int)
    requires ValidBasic(|p.begin|, p) && 0 <= n.face < 2 * |p.begin|
    ensures v == if Sign(n) == 1 then p.end[Axis(n)] else p.begin[Axis(n)]
  {
    BoundOf(p, n.face % 2)[Axis(n)]
  }

  /** `intersect(other)`: componentwise max of the begins and min of the ends. */
  function Intersect(p: BasicPartition, q: BasicPartition): (r: BasicPartition)
    requires ValidBasic(|p.begin|, p) && ValidBasic(|p.begin|, q)
    ensures ValidBasic(|p.begin|, r)
  {
    BasicPartition(Max(p.begin, q.begin), Min(p.end, q.end))
  }

  /** Membership of an id, as `contains(id)` accumulates it. */
  predicate Contains(p: BasicPartition, id: MultiIndex)
    requires ValidBasic(|id|, p)
  {
    forall i :: 0 <= i < |id| ==> p.begin[i] <= id[i] <= p.end[i]
  }

  /** `empty()` as a property: some axis has begin > end. */
  predicate IsEmpty(p: BasicPartition)
    requires ValidBasic(|p.begin|, p)
  {
    exists i :: 0 <= i < |p.begin| && p.begin[i] > p.end[i]
  }

  /** `empty(dir)` as a property: on some axis no value of the direction's parity lies between the bounds. */
  predicate IsEmptyIn(p: BasicPartition, dir: nat)
    requires ValidBasic(|p.begin|, p)
  {
    exists i :: 0 <= i < |p.begin| && EmptyAxis(p, dir, i)
  }

  /** On axis i, the lower bound of the direction's parity lies above the upper one. */
  predicate EmptyAxis(p: BasicPartition, dir: nat, i: nat)
    requires ValidBasic(|p.begin|, p) && i < |p.begin|
  {
    Bound(p, 0, i, Bit(dir, i)) > Bound(p, 1, i, Bit(dir, i))
  }

  /** An id whose component parities are the bits of dir. */
  predicate HasDirection(id: MultiIndex, dir: nat)
  {
    forall i :: 0 <= i < |id| ==> id[i] % 2 == Bit(dir, i)
  }

  /** `width(i)`: max((end+1)/2 - begin/2, 0), with C++ truncating division. */
  function Width(p: BasicPartition, i: nat): (w: int)
    requires ValidBasic(|p.begin|, p) && i < |p.begin|
    ensures w >= 0
  {
    var w := Quot(p.end[i] + 1, 2) - Quot(p.begin[i], 2);
    if w > 0 then w else 0
  }

  function Widths(p: BasicPartition): (w: MultiIndex)
    requires ValidBasic(|p.begin|, p)
    ensures |w| == |p.begin| && forall i :: 0 <= i < |w| ==> w[i] == Width(p, i)
  {
    seq(|p.begin|, i requires 0 <= i < |p.begin| => Width(p, i))
  }

  /** `volume()`: the product of the widths. */
  function Volume(p: BasicPartition): (v: int)
    requires ValidBasic(|p.begin|, p)
    ensures v >= 0
  {
    NonNegativeProduct(Widths(p));
    Product(Widths(p))
  }

  // ---------------------------------------------------------------------
  // Properties of basic partitions
  // ---------------------------------------------------------------------

  /** The bound of parity d is the nearest value of that parity inside the raw bound. */
  lemma {:induction false} BoundIsTight(p: BasicPartition, i: nat, d: nat, x: int)
    requires ValidBasic(|p.begin|, p) && i < |p.begin| && d <= 1 && x % 2 == d
    ensures p.begin[i] <= x ==> Bound(p, 0, i, d) <= x
    ensures x <= p.end[i] ==> x <= Bound(p, 1, i, d)
  {
  }

  /** The intersection contains exactly the ids both partitions contain. */
  lemma {:induction false} IntersectContains(p: BasicPartition, q: BasicPartition, id: MultiIndex)
    requires ValidBasic(|id|, p) && ValidBasic(|id|, q)
    ensures Contains(Intersect(p, q), id) <==> Contains(p, id) && Contains(q, id)
  {
  }

  /** A partition is empty exactly when it contains no id at all. */
  lemma {:induction false} EmptyIffNoId(p: BasicPartition)
    requires ValidBasic(|p.begin|, p)
    ensures IsEmpty(p) <==> forall id :: |id| == |p.begin| ==> !Contains(p, id)
  {
    if !IsEmpty(p) {
      assert Contains(p, p.begin);
    }
  }

  /** A partition is empty for dir exactly when it contains no id of direction dir. */
  lemma {:induction false} EmptyInIffNoEntity(p: BasicPartition, dir: nat)
    requires ValidBasic(|p.begin|, p)
    ensures IsEmptyIn(p, dir) <==> forall id :: |id| == |p.begin| && HasDirection(id, dir) ==> !Contains(p, id)
  {
    var n := |p.begin|;
    if IsEmptyIn(p, dir) {
      forall id | |id| == n && HasDirection(id, dir) ensures !Contains(p, id) {
        var i :| 0 <= i < n && EmptyAxis(p, dir, i);
        BoundIsTight(p, i, Bit(dir, i), id[i]);
      }
    } else {
      var id := seq(n, i requires 0 <= i < n => Bound(p, 0, i, Bit(dir, i)));
      assert HasDirection(id, dir);
      forall i | 0 <= i < n ensures p.begin[i] <= id[i] <= p.end[i] {
        assert !EmptyAxis(p, dir, i);
      }
      assert Contains(p, id);
    }
  }

  /**
   * For a nonnegative begin, width(i) counts the cells inside the partition
   * along axis i: cell k (midpoint 2k+1) lies in [begin, end] exactly when
   * begin/2 <= k < begin/2 + width(i).
   */
  lemma {:induction false} WidthCountsCells(p: BasicPartition, i: nat, k: int)
    requires ValidBasic(|p.begin|, p) && i < |p.begin| && p.begin[i] >= 0
    ensures p.begin[i] <= 2 * k + 1 <= p.end[i] <==> p.begin[i] / 2 <= k < p.begin[i] / 2 + Width(p, i)
  {
    var b, e := p.begin[i], p.end[i];
    if e + 1 >= 0 {
      assert Quot(e + 1, 2) == (e + 1) / 2;
    } else {
      assert Quot(e + 1, 2) <= 0;
    }
  }

  // ---------------------------------------------------------------------
  // The loops of SPBasicPartition
  // ---------------------------------------------------------------------

  /** `contains(id)`. */
  method ContainsId(p: BasicPartition, id: MultiIndex) returns (contains: bool)
    requires ValidBasic(|id|, p)
    ensures contains == Contains(p, id)
  {
    contains := true;
    for i := 0 to |id|
      invariant contains == forall j :: 0 <= j < i ==> p.begin[j] <= id[j] <= p.end[j]
    {
      contains := contains && id[i] >= p.begin[i] && id[i] <= p.end[i];
    }
  }

  /** `empty()`. */
  method Empty(p: BasicPartition) returns (empty: bool)
    requires ValidBasic(|p.begin|, p)
    ensures empty == IsEmpty(p)
  {
    empty := false;
    for i := 0 to |p.begin|
      invariant empty == exists j :: 0 <= j < i && p.begin[j] > p.end[j]
    {
      empty := empty || p.begin[i] > p.end[i];
    }
  }

  /** `empty(dir)`. */
  method EmptyIn(p: BasicPartition, dir: nat) returns (empty: bool)
    requires ValidBasic(|p.begin|, p)
    ensures empty == IsEmptyIn(p, dir)
  {
    empty := false;
    for i := 0 to |p.begin|
      invariant empty == exists j :: 0 <= j < i && EmptyAxis(p, dir, j)
    {
      empty := empty || Bound(p, 0, i, Bit(dir, i)) > Bound(p, 1, i, Bit(dir, i));
      assert empty == ((exists j :: 0 <= j < i && EmptyAxis(p, dir, j)) || EmptyAxis(p, dir, i));
    }
  }

  /** `width()`. */
  method WidthVector(p: BasicPartition) returns (w: MultiIndex)
    requires ValidBasic(|p.begin|, p)
    ensures w == Widths(p)
  {
    w := Zeros(|p.begin|);
    for i := 0 to |p.begin|
      invariant |w| == |p.begin|
      invariant forall j :: 0 <= j < i ==> w[j] == Width(p, j)
    {
      w := w[i := Width(p, i)];
    }
  }

  /** `volume()`. */
  method VolumeOf(p: BasicPartition) returns (volume: int)
    requires ValidBasic(|p.begin|, p)
    ensures volume == Volume(p)
  {
    var w := Widths(p);
    volume := 1;
    for i := 0 to |p.begin|
      invariant volume == Product(w[..i])
    {
      ProductSnoc(w[..i], Width(p, i));
      assert w[..i + 1] == w[..i] + [Width(p, i)];
      volume := volume * Width(p, i);
    }
    assert w[..|p.begin|] == w;
  }

  // ---------------------------------------------------------------------
  // SPPartition
  // ---------------------------------------------------------------------

  datatype Partition = Partition(base: BasicPartition, number: nat, neighbor: seq<nat>, boundary: nat)

  predicate ValidPartition(dim: nat, p: Partition)
  {
    ValidBasic(dim, p.base) && |p.neighbor| == 2 * dim
  }

  /** Every partition of the list has dimension dim. */
  predicate AllFit(ps: seq<Partition>, dim: nat)
  {
    forall k :: 0 <= k < |ps| ==> ValidBasic(dim, ps[k].base)
  }

  /** Every face without a neighbour. */
  function NoNeighbors(n: nat): (s: seq<nat>)
    ensures |s| == n && forall f :: 0 <= f < n ==> s[f] == MaxUnsigned
  {
    if n == 0 then [] else NoNeighbors(n - 1) + [MaxUnsigned]
  }

  /** `((1 << (2dim-1)) - 1) | (1 << (2dim-1))`: the flags of a partition without a global mesh. */
  function AllFaces(dim: nat): (flags: nat)
    requires dim >= 1
  {
    Or(Pow2(2 * dim - 1) - 1, Pow2(2 * dim - 1))
  }

  /** `SPPartition(base, number)` and `SPPartition(begin, end, number)`. */
  function PartitionOf(base: BasicPartition, number: nat): (p: Partition)
    requires ValidBasic(|base.begin|, base) && |base.begin| >= 1
    ensures ValidPartition(|base.begin|, p)
  {
    Partition(base, number, NoNeighbors(2 * |base.begin|), AllFaces(|base.begin|))
  }

  /** Boundary bit f of a box in a global mesh: 2i for the lower, 2i+1 for the upper face of axis i. */
  function BoundaryBits(begin: MultiIndex, end: MultiIndex, global: Mesh): (bs: seq<bool>)
    requires |begin| == |end| == |global.begin| == |global.end|
    ensures |bs| == 2 * |begin|
  {
    seq(2 * |begin|, f requires 0 <= f < 2 * |begin| =>
      if f % 2 == 0 then begin[f / 2] == 2 * global.begin[f / 2] else end[f / 2] == 2 * global.end[f / 2])
  }

  /** `SPPartition(begin, end, globalMesh, number)`. */
  function PartitionInMesh(begin: MultiIndex, end: MultiIndex, global: Mesh, number: nat): (p: Partition)
    requires |begin| == |end| == |global.begin| == |global.end|
    ensures ValidPartition(|begin|, p)
  {
    Partition(BasicPartition(begin, end), number, NoNeighbors(2 * |begin|), FromBits(BoundaryBits(begin, end, global)))
  }

  /** `neighbor(face)`. */
  function Neighbor(p: Partition, face: int): nat
    requires 0 <= face < |p.neighbor|
  {
    p.neighbor[face]
  }

  /** Assignment through the mutable `neighbor(face)` reference. */
  function SetNeighbor(p: Partition, face: int, n: nat): (q: Partition)
    requires 0 <= face < |p.neighbor|
    ensures q.base == p.base && q.number == p.number && q.boundary == p.boundary
    ensures |q.neighbor| == |p.neighbor| && q.neighbor[face] == n
    ensures forall f :: 0 <= f < |p.neighbor| && f != face ==> q.neighbor[f] == p.neighbor[f]
  {
    p.(neighbor := p.neighbor[face := n])
  }

  /** `hasNeighbor(face)`. */
  predicate HasNeighbor(p: Partition, face: int)
    requires 0 <= face < |p.neighbor|
  {
    p.neighbor[face] < MaxUnsigned
  }

  /** `boundary(face)`. */
  predicate Boundary(p: Partition, face: int)
    requires 0 <= face < |p.neighbor|
  {
    Bit(p.boundary, face) == 1
  }

  // ---------------------------------------------------------------------
  // Properties of SPPartition
  // ---------------------------------------------------------------------

  /** Without a global mesh, every one of the 2*dim faces is a boundary face. */
  lemma {:induction false} AllFacesAreBoundary(dim: nat, f: nat)
    requires dim >= 1 && f < 2 * dim
    ensures Bit(AllFaces(dim), f) == 1
  {
    var top := 2 * dim - 1;
    assert Pow2(top) >= 1;
    OrBits(Pow2(top) - 1, Pow2(top), f);
    Pow2Bits(top, f);
    if f < top {
      AllOnesBit(top, f);
    } else {
      BitsAbove(Pow2(top) - 1, top, top);
    }
  }

  /** A partition built from a base has every boundary bit set and no neighbour. */
  lemma {:induction false} PartitionOfFaces(base: BasicPartition, number: nat, f: int)
    requires ValidBasic(|base.begin|, base) && |base.begin| >= 1 && 0 <= f < 2 * |base.begin|
    ensures Boundary(PartitionOf(base, number), f) && !HasNeighbor(PartitionOf(base, number), f)
  {
    AllFacesAreBoundary(|base.begin|, f);
  }

  /** In a global mesh, the boundary bits mark exactly the faces on the global boundary; no face has a neighbour yet. */
  lemma {:induction false} PartitionInMeshFaces(begin: MultiIndex, end: MultiIndex, global: Mesh, number: nat, i: nat)
    requires |begin| == |end| == |global.begin| == |global.end| && i < |begin|
    ensures Boundary(PartitionInMesh(begin, end, global, number), 2 * i) <==> begin[i] == 2 * global.begin[i]
    ensures Boundary(PartitionInMesh(begin, end, global, number), 2 * i + 1) <==> end[i] == 2 * global.end[i]
    ensures !HasNeighbor(PartitionInMesh(begin, end, global, number), 2 * i)
    ensures !HasNeighbor(PartitionInMesh(begin, end, global, number), 2 * i + 1)
  {
    var bs := BoundaryBits(begin, end, global);
    FromBitsBit(bs, 2 * i);
    FromBitsBit(bs, 2 * i + 1);
    assert (2 * i) / 2 == i && (2 * i + 1) / 2 == i;
  }

  /** The flags of the two faces of axis i. */
  lemma {:induction false} BoundaryBitsOfAxis(begin: MultiIndex, end: MultiIndex, global: Mesh, i: nat)
    requires |begin| == |end| == |global.begin| == |global.end| && i < |begin|
    ensures BoundaryBits(begin, end, global)[2 * i] <==> begin[i] == 2 * global.begin[i]
    ensures BoundaryBits(begin, end, global)[2 * i + 1] <==> end[i] == 2 * global.end[i]
  {
    assert (2 * i) / 2 == i && (2 * i + 1) / 2 == i && (2 * i) % 2 == 0 && (2 * i + 1) % 2 == 1;
  }

  /** One pass of that loop: the flags of faces 2i and 2i + 1 are or-ed into boundary. */
  method SetBoundaryFlags(boundary: nat, begin: MultiIndex, end: MultiIndex, global: Mesh, i: nat) returns (next: nat)
    requires |begin| == |end| == |global.begin| == |global.end| && i < |begin|
    requires boundary < Pow2(2 * i) && BitsAre(boundary, BoundaryBits(begin, end, global), 2 * i)
    ensures next < Pow2(2 * i + 2) && BitsAre(next, BoundaryBits(begin, end, global), 2 * i + 2)
  {
    ghost var bs := BoundaryBits(begin, end, global);
    BoundaryBitsOfAxis(begin, end, global, i);
    var lower := if begin[i] == 2 * global.begin[i] then 1 else 0;
    var upper := if end[i] == 2 * global.end[i] then 1 else 0;
    BitsAreStep(boundary, bs, 2 * i);
    next := Or(boundary, Pow2(2 * i) * lower);
    BitsAreStep(next, bs, 2 * i + 1);
    next := Or(next, Pow2(2 * i + 1) * upper);
  }

  /** The loop of the global-mesh constructor: `boundary_ |= flag << face`, face by face. */
  method MakePartitionInMesh(begin: MultiIndex, end: MultiIndex, global: Mesh, number: nat) returns (p: Partition)
    requires |begin| == |end| == |global.begin| == |global.end|
    ensures p == PartitionInMesh(begin, end, global, number)
  {
    var dim := |begin|;
    var bs := BoundaryBits(begin, end, global);
    var neighbor := NoNeighbors(2 * dim);
    var boundary: nat := 0;
    var i := 0;
    while i < dim
      invariant 0 <= i <= dim
      invariant boundary < Pow2(2 * i) && BitsAre(boundary, bs, 2 * i)
    {
      boundary := SetBoundaryFlags(boundary, begin, end, global, i);
      i := i + 1;
    }
    BitsAreFromBits(boundary, bs);
    p := Partition(BasicPartition(begin, end), number, neighbor, boundary);
  }
}
