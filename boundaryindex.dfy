// The numbering of the boundary segments of SPGrid.  Every face of a
// partition of the macro level's overlap-front list that lies on the
// boundary of the global mesh is cut into macro cells; the segments are
// numbered partition by partition and face by face (2i the lower, 2i+1 the
// upper face of axis i), and the segments of one face by the mixed-radix
// value of the macro cell's position on the face.

module BoundaryIndices {
  import opened Bits
  import opened MultiIndices
  import Meshes
  import opened Partitions
  import opened CachedPartitionLists
  import IndexSets
  import PartitionPools

  /** Every partition of the list has dim axes and 2*dim faces. */
  predicate AllValidPartitions(ps: seq<Partition>, dim: nat)
  {
    forall k :: 0 <= k < |ps| ==> ValidPartition(dim, ps[k])
  }

  /** `(end[j] - begin[j]) >> 1`: the number of macro cells of a closed partition along axis j. */
  function HalfWidth(p: Partition, j: nat): int
    requires j < |p.base.begin| && j < |p.base.end|
  {
    (p.base.end[j] - p.base.begin[j]) / 2
  }

  /** The factors of the size of a face normal to axis i: 1 on axis i, the half width on the others. */
  function FaceRadices(p: Partition, dim: nat, i: nat): (w: seq<int>)
    requires ValidPartition(dim, p)
    ensures |w| == dim
    ensures forall j :: 0 <= j < dim ==> w[j] == if j == i then 1 else HalfWidth(p, j)
  {
    seq(dim, j requires 0 <= j < dim => if j == i then 1 else HalfWidth(p, j))
  }

  /** The number of segments of a face normal to axis i. */
  function FaceSize(p: Partition, dim: nat, i: nat): int
    requires ValidPartition(dim, p)
  {
    Product(FaceRadices(p, dim, i))
  }

  /** What face f adds to the running total: its size on the boundary, nothing elsewhere. */
  function FaceSegments(p: Partition, dim: nat, f: nat): int
    requires ValidPartition(dim, p) && f < 2 * dim
  {
    if Boundary(p, f) then FaceSize(p, dim, f / 2) else 0
  }

  /** The segments of the faces of p before face f. */
  function PartitionSegments(p: Partition, dim: nat, f: nat): int
    requires ValidPartition(dim, p) && f <= 2 * dim
  {
    if f == 0 then 0 else PartitionSegments(p, dim, f - 1) + FaceSegments(p, dim, f - 1)
  }

  /** The segments of the partitions before the k-th. */
  function ListSegments(ps: seq<Partition>, dim: nat, k: nat): int
    requires AllValidPartitions(ps, dim) && k <= |ps|
  {
    if k == 0 then 0 else ListSegments(ps, dim, k - 1) + PartitionSegments(ps[k - 1], dim, 2 * dim)
  }

  /** The first segment number of face f of the k-th partition. */
  function FaceOffset(ps: seq<Partition>, dim: nat, k: nat, f: nat): int
    requires AllValidPartitions(ps, dim) && k < |ps| && f <= 2 * dim
  {
    ListSegments(ps, dim, k) + PartitionSegments(ps[k], dim, f)
  }

  /** The row of offsets of the k-th partition, one per face. */
  function BoundaryRow(ps: seq<Partition>, dim: nat, k: nat): (row: seq<int>)
    requires AllValidPartitions(ps, dim) && k < |ps|
    ensures |row| == 2 * dim && forall f :: 0 <= f < 2 * dim ==> row[f] == FaceOffset(ps, dim, k, f)
  {
    seq(2 * dim, f requires 0 <= f < 2 * dim => FaceOffset(ps, dim, k, f))
  }

  /** The table once the first i partitions have written their rows over base, at `number - first`. */
  function BoundaryTable(ps: seq<Partition>, i: nat, dim: nat, first: nat, base: seq<seq<int>>): (t: seq<seq<int>>)
    requires AllValidPartitions(ps, dim) && i <= |ps|
    ensures |t| == |base|
  {
    seq(|base|, s requires 0 <= s < |base| =>
      var k := IndexSets.LastWith(ps[..i], first + s);
      if k >= 0 then BoundaryRow(ps, dim, k) else base[s])
  }

  /**
   * The table and the total `setupBoundaryIndices` computes from ps: the
   * total counts every segment, and the row of each number is the row of
   * the last partition with that number.
   */
  ghost predicate Tabulated(ps: seq<Partition>, dim: nat, first: nat, offsets: seq<seq<int>>, total: int)
  {
    AllValidPartitions(ps, dim) && total == ListSegments(ps, dim, |ps|)
    && forall k :: 0 <= k < |ps| ==>
         first <= ps[k].number && ps[k].number - first < |offsets|
         && offsets[ps[k].number - first] == BoundaryRow(ps, dim, IndexSets.LastWith(ps, ps[k].number))
  }

  // ---------------------------------------------------------------------
  // The index of a segment
  // ---------------------------------------------------------------------

  /** `(macroId[i] - begin[i]) >> 1` on the axes along the face, 0 on the axis normal to it. */
  function FaceDigits(p: Partition, dim: nat, id: MultiIndex, face: nat): (x: seq<int>)
    requires ValidPartition(dim, p) && |id| == dim
    ensures |x| == dim
  {
    seq(dim, i requires 0 <= i < dim => if i == face / 2 then 0 else (id[i] - p.base.begin[i]) / 2)
  }

  /** The macro cell lies on the face: the asserted `0 <= k < w` on every axis along the face. */
  predicate OnFace(p: Partition, dim: nat, id: MultiIndex, face: nat)
    requires ValidPartition(dim, p) && |id| == dim
  {
    forall i :: 0 <= i < dim && i != face / 2 ==> 0 <= (id[i] - p.base.begin[i]) / 2 < HalfWidth(p, i)
  }

  /** The position of the macro cell among the segments of the face. */
  function LocalSegment(p: Partition, dim: nat, id: MultiIndex, face: nat): int
    requires ValidPartition(dim, p) && |id| == dim
  {
    MixedRadix(FaceDigits(p, dim, id, face), FaceRadices(p, dim, face / 2))
  }

  /** Every axis has begin <= end, so no half width is negative. */
  predicate AllNonEmpty(ps: seq<Partition>, dim: nat)
    requires AllValidPartitions(ps, dim)
  {
    forall k, i :: 0 <= k < |ps| && 0 <= i < dim ==> ps[k].base.begin[i] <= ps[k].base.end[i]
  }

  // ---------------------------------------------------------------------
  // The loops of setupBoundaryIndices and boundaryIndex
  // ---------------------------------------------------------------------

  /** The innermost loop: `size *= (i == j ? 1 : w_j)` over every axis j. */
  method FaceSizeOf(p: Partition, dim: nat, i: nat) returns (size: int)
    requires ValidPartition(dim, p)
    ensures size == FaceSize(p, dim, i)
  {
    ghost var w := FaceRadices(p, dim, i);
    size := 1;
    for j := 0 to dim
      invariant size == Product(w[..j])
    {
      ProductSnoc(w[..j], w[j]);
      assert w[..j + 1] == w[..j] + [w[j]];
      size := size * (if i == j then 1 else (p.base.end[j] - p.base.begin[j]) / 2);
    }
    assert w[..dim] == w;
  }

  /**
   * The loop over the axes for one partition: the offset of each face is
   * the running total, which then grows by the face's size if the face is
   * a boundary face.  All 2*dim entries of the row are overwritten.
   */
  method PartitionRow(p: Partition, dim: nat, row0: seq<int>, total: int) returns (row: seq<int>, next: int)
    requires ValidPartition(dim, p) && |row0| == 2 * dim
    ensures |row| == 2 * dim && forall f {:trigger row[f]} :: 0 <= f < 2 * dim ==> row[f] == total + PartitionSegments(p, dim, f)
    ensures next == total + PartitionSegments(p, dim, 2 * dim)
  {
    row, next := row0, total;
    for i := 0 to dim
      invariant |row| == 2 * dim
      invariant forall f {:trigger row[f]} :: 0 <= f < 2 * i ==> row[f] == total + PartitionSegments(p, dim, f)
      invariant next == total + PartitionSegments(p, dim, 2 * i)
    {
      row, next := AxisFaces(p, dim, i, row, total, next);
    }
  }

  /** The body of that loop: the offsets of the lower and the upper face of axis i. */
  method AxisFaces(p: Partition, dim: nat, i: nat, row: seq<int>, ghost total: int, next: int)
    returns (row': seq<int>, next': int)
    requires ValidPartition(dim, p) && i < dim && |row| == 2 * dim
    requires next == total + PartitionSegments(p, dim, 2 * i)
    ensures |row'| == 2 * dim
    ensures forall f :: 0 <= f < 2 * i ==> row'[f] == row[f]
    ensures row'[2 * i] == total + PartitionSegments(p, dim, 2 * i)
    ensures row'[2 * i + 1] == total + PartitionSegments(p, dim, 2 * i + 1)
    ensures next' == total + PartitionSegments(p, dim, 2 * i + 2)
  {
    var size := FaceSizeOf(p, dim, i);
    SegmentsStep(p, dim, i);
    row' := row[2 * i := next];
    next' := next + (if Bit(p.boundary, 2 * i) == 1 then size else 0);
    row' := row'[2 * i + 1 := next'];
    next' := next' + (if Bit(p.boundary, 2 * i + 1) == 1 then size else 0);
  }

  /** The two faces of axis i in the running total. */
  lemma {:induction false} SegmentsStep(p: Partition, dim: nat, i: nat)
    requires ValidPartition(dim, p) && i < dim
    ensures PartitionSegments(p, dim, 2 * i + 1)
      == PartitionSegments(p, dim, 2 * i) + (if Bit(p.boundary, 2 * i) == 1 then FaceSize(p, dim, i) else 0)
    ensures PartitionSegments(p, dim, 2 * i + 2)
      == PartitionSegments(p, dim, 2 * i + 1) + (if Bit(p.boundary, 2 * i + 1) == 1 then FaceSize(p, dim, i) else 0)
  {
    assert (2 * i) / 2 == i && (2 * i + 1) / 2 == i;
  }

  /**
   * `setupBoundaryIndices()` on the overlap-front list ps of the macro
   * level: the table is resized to `maxNumber - minNumber + 1` zero rows,
   * the row of each partition is filled in, and the total is the number
   * of boundary segments.
   */
  method SetupBoundaryIndices(ps: seq<Partition>, dim: nat) returns (total: int, offsets: seq<seq<int>>)
    requires AllValidPartitions(ps, dim) && UnsignedNumbers(ps)
    ensures offsets == BoundaryTable(ps, |ps|, dim, MinNumber(ps),
                                     IndexSets.Resized([], CacheSize(MinNumber(ps), MaxNumber(ps)), 2 * dim))
    ensures Tabulated(ps, dim, MinNumber(ps), offsets, total)
  {
    var lo, hi := NumberRange(ps);
    var base := IndexSets.Resized([], CacheSize(lo, hi), 2 * dim);
    if ps != [] {
      RangeFits(ps);
    }
    assert forall k :: 0 <= k < |ps| ==> lo <= ps[k].number && ps[k].number - lo < |base|;
    total := 0;
    offsets := base;
    TableStart(ps, dim, lo, base);
    for k := 0 to |ps|
      invariant total == ListSegments(ps, dim, k)
      invariant offsets == BoundaryTable(ps, k, dim, lo, base)
      invariant forall s :: 0 <= s < |offsets| ==> |offsets[s]| == 2 * dim
    {
      var p := ps[k];
      var index := p.number - lo;
      var row, next := PartitionRow(p, dim, offsets[index], total);
      RowIsBoundaryRow(ps, dim, k, total, row);
      TableStep(ps, k, dim, lo, base, offsets, row);
      offsets := offsets[index := row];
      total := next;
    }
    TableDescribes(ps, dim, lo, base, offsets, total);
  }

  /** The row PartitionRow computes from the running total is partition k's row of offsets. */
  lemma {:induction false} RowIsBoundaryRow(ps: seq<Partition>, dim: nat, k: nat, total: int, row: seq<int>)
    requires AllValidPartitions(ps, dim) && k < |ps| && total == ListSegments(ps, dim, k)
    requires |row| == 2 * dim && forall f {:trigger row[f]} :: 0 <= f < 2 * dim ==> row[f] == total + PartitionSegments(ps[k], dim, f)
    ensures row == BoundaryRow(ps, dim, k)
  {
    var r := BoundaryRow(ps, dim, k);
    forall f | 0 <= f < 2 * dim ensures row[f] == r[f] {
      assert r[f] == FaceOffset(ps, dim, k, f);
    }
  }

  lemma {:induction false} TableStart(ps: seq<Partition>, dim: nat, first: nat, base: seq<seq<int>>)
    requires AllValidPartitions(ps, dim)
    ensures BoundaryTable(ps, 0, dim, first, base) == base
  {
    assert ps[..0] == [];
    forall s | 0 <= s < |base| ensures BoundaryTable(ps, 0, dim, first, base)[s] == base[s] {
      assert IndexSets.LastWith(ps[..0], first + s) == -1;
    }
  }

  /** Writing the row of partition i into the table of the first i partitions. */
  lemma {:induction false} TableStep(ps: seq<Partition>, i: nat, dim: nat, first: nat, base: seq<seq<int>>,
                                     before: seq<seq<int>>, row: seq<int>)
    requires AllValidPartitions(ps, dim) && i < |ps| && first <= ps[i].number && ps[i].number - first < |base|
    requires before == BoundaryTable(ps, i, dim, first, base)
    requires row == BoundaryRow(ps, dim, i)
    ensures before[ps[i].number - first := row] == BoundaryTable(ps, i + 1, dim, first, base)
  {
    var after := before[ps[i].number - first := row];
    assert ps[..i + 1][..i] == ps[..i];
    forall s | 0 <= s < |after| ensures after[s] == BoundaryTable(ps, i + 1, dim, first, base)[s] {
      assert IndexSets.LastWith(ps[..i + 1], first + s)
        == if first + s == ps[i].number then i else IndexSets.LastWith(ps[..i], first + s);
    }
  }

  /** Once every partition is done, each number's row is that of its last partition. */
  lemma {:induction false} TableDescribes(ps: seq<Partition>, dim: nat, first: nat, base: seq<seq<int>>,
                                          table: seq<seq<int>>, total: int)
    requires AllValidPartitions(ps, dim) && table == BoundaryTable(ps, |ps|, dim, first, base)
    requires forall k :: 0 <= k < |ps| ==> first <= ps[k].number && ps[k].number - first < |base|
    requires total == ListSegments(ps, dim, |ps|)
    ensures Tabulated(ps, dim, first, table, total)
  {
    assert ps[..|ps|] == ps;
    forall k | 0 <= k < |ps|
      ensures table[ps[k].number - first] == BoundaryRow(ps, dim, IndexSets.LastWith(ps, ps[k].number))
    {
      assert IndexSets.LastWith(ps, first + (ps[k].number - first)) >= 0;
    }
  }

  /**
   * The loop of `boundaryIndex` over the axes along the face: the digit k of
   * each axis is added with the product of the widths before it.
   */
  method LocalSegmentOf(p: Partition, dim: nat, id: MultiIndex, face: nat) returns (index: int)
    requires ValidPartition(dim, p) && |id| == dim && face < 2 * dim
    requires OnFace(p, dim, id, face)
    ensures index == LocalSegment(p, dim, id, face)
  {
    ghost var x := FaceDigits(p, dim, id, face);
    ghost var w := FaceRadices(p, dim, face / 2);
    index := 0;
    var factor := 1;
    for i := 0 to dim
      invariant index == MixedRadix(x[..i], w[..i]) && factor == Product(w[..i])
    {
      IndexSets.MixedRadixSnoc(x[..i], w[..i], x[i], w[i]);
      ProductSnoc(w[..i], w[i]);
      assert x[..i + 1] == x[..i] + [x[i]] && w[..i + 1] == w[..i] + [w[i]];
      if i == face / 2 {
        continue;
      }
      var k := (id[i] - p.base.begin[i]) / 2;
      var wi := (p.base.end[i] - p.base.begin[i]) / 2;
      index := index + k * factor;
      factor := factor * wi;
    }
    assert x[..dim] == x && w[..dim] == w;
  }

  // ---------------------------------------------------------------------
  // Properties of the numbering
  // ---------------------------------------------------------------------

  /** A macro cell on the face is one of the face's segments. */
  lemma {:induction false} LocalSegmentInFace(p: Partition, dim: nat, id: MultiIndex, face: nat)
    requires ValidPartition(dim, p) && |id| == dim && face < 2 * dim
    requires OnFace(p, dim, id, face)
    ensures 0 <= LocalSegment(p, dim, id, face) < FaceSize(p, dim, face / 2)
  {
    MixedRadixBound(FaceDigits(p, dim, id, face), FaceRadices(p, dim, face / 2));
  }

  /** Different macro cells on one face are different segments. */
  lemma {:induction false} LocalSegmentInjective(p: Partition, dim: nat, a: MultiIndex, b: MultiIndex, face: nat)
    requires ValidPartition(dim, p) && |a| == dim && |b| == dim && face < 2 * dim
    requires OnFace(p, dim, a, face) && OnFace(p, dim, b, face)
    requires LocalSegment(p, dim, a, face) == LocalSegment(p, dim, b, face)
    ensures FaceDigits(p, dim, a, face) == FaceDigits(p, dim, b, face)
  {
    IndexSets.MixedRadixInjective(FaceDigits(p, dim, a, face), FaceDigits(p, dim, b, face), FaceRadices(p, dim, face / 2));
  }

  lemma {:induction false} FaceSizeNonNegative(p: Partition, dim: nat, i: nat)
    requires ValidPartition(dim, p) && forall j :: 0 <= j < dim ==> p.base.begin[j] <= p.base.end[j]
    ensures FaceSize(p, dim, i) >= 0
  {
    Meshes.NonNegativeProduct(FaceRadices(p, dim, i));
  }

  /** The faces of one partition take consecutive stretches: face f ends where face g > f can start. */
  lemma {:induction false} PartitionSegmentsMonotone(p: Partition, dim: nat, f: nat, g: nat)
    requires ValidPartition(dim, p) && forall j :: 0 <= j < dim ==> p.base.begin[j] <= p.base.end[j]
    requires f < g <= 2 * dim
    ensures PartitionSegments(p, dim, f) + FaceSegments(p, dim, f) <= PartitionSegments(p, dim, g)
    decreases g
  {
    if f + 1 < g {
      PartitionSegmentsMonotone(p, dim, f, g - 1);
      FaceSizeNonNegative(p, dim, (g - 1) / 2);
    }
  }

  /** The partitions take consecutive stretches too. */
  lemma {:induction false} ListSegmentsMonotone(ps: seq<Partition>, dim: nat, k: nat, l: nat)
    requires AllValidPartitions(ps, dim) && AllNonEmpty(ps, dim) && k < l <= |ps|
    ensures ListSegments(ps, dim, k) + PartitionSegments(ps[k], dim, 2 * dim) <= ListSegments(ps, dim, l)
    decreases l
  {
    if k + 1 < l {
      ListSegmentsMonotone(ps, dim, k, l - 1);
      PartitionSegmentsNonNegative(ps[l - 1], dim, 2 * dim);
      assert ListSegments(ps, dim, l) == ListSegments(ps, dim, l - 1) + PartitionSegments(ps[l - 1], dim, 2 * dim);
    }
  }

  lemma {:induction false} PartitionSegmentsNonNegative(p: Partition, dim: nat, f: nat)
    requires ValidPartition(dim, p) && forall j :: 0 <= j < dim ==> p.base.begin[j] <= p.base.end[j]
    requires f <= 2 * dim
    ensures PartitionSegments(p, dim, f) >= 0
    decreases f
  {
    if f > 0 {
      PartitionSegmentsNonNegative(p, dim, f - 1);
      FaceSizeNonNegative(p, dim, (f - 1) / 2);
    }
  }

  /** Face f of partition k, taken in the order of the loops, lies before face g of partition l. */
  predicate FaceBefore(k: nat, f: nat, l: nat, g: nat)
  {
    k < l || (k == l && f < g)
  }

  /**
   * The stretch of segments of face f of partition k ends where the
   * stretch of any later face begins, and no stretch ends past the total.
   */
  lemma {:induction false} FaceStretchesOrdered(ps: seq<Partition>, dim: nat, k: nat, f: nat, l: nat, g: nat)
    requires AllValidPartitions(ps, dim) && AllNonEmpty(ps, dim)
    requires k < |ps| && f < 2 * dim && l < |ps| && g < 2 * dim
    ensures FaceOffset(ps, dim, k, f) + FaceSegments(ps[k], dim, f) <= ListSegments(ps, dim, |ps|)
    ensures FaceBefore(k, f, l, g) ==> FaceOffset(ps, dim, k, f) + FaceSegments(ps[k], dim, f) <= FaceOffset(ps, dim, l, g)
  {
    PartitionSegmentsMonotone(ps[k], dim, f, 2 * dim);
    ListSegmentsMonotone(ps, dim, k, |ps|);
    if k < l {
      ListSegmentsMonotone(ps, dim, k, l);
      PartitionSegmentsNonNegative(ps[l], dim, g);
    } else if k == l && f < g {
      PartitionSegmentsMonotone(ps[k], dim, f, g);
    }
  }

  /**
   * The boundary segment numbering is one-to-one and below the number of
   * boundary segments: a macro cell on a boundary face of a partition gets
   * a number below the total, and two cells get the same number only on
   * the same face of the same partition at the same position.
   */
  lemma {:induction false} SegmentNumbersDistinct(ps: seq<Partition>, dim: nat,
                                                  k: nat, f: nat, a: MultiIndex, l: nat, g: nat, b: MultiIndex)
    requires AllValidPartitions(ps, dim) && AllNonEmpty(ps, dim)
    requires k < |ps| && f < 2 * dim && Boundary(ps[k], f) && |a| == dim && OnFace(ps[k], dim, a, f)
    requires l < |ps| && g < 2 * dim && Boundary(ps[l], g) && |b| == dim && OnFace(ps[l], dim, b, g)
    ensures 0 <= FaceOffset(ps, dim, k, f) + LocalSegment(ps[k], dim, a, f) < ListSegments(ps, dim, |ps|)
    ensures FaceOffset(ps, dim, k, f) + LocalSegment(ps[k], dim, a, f) == FaceOffset(ps, dim, l, g) + LocalSegment(ps[l], dim, b, g)
      ==> k == l && f == g && FaceDigits(ps[k], dim, a, f) == FaceDigits(ps[l], dim, b, g)
  {
    LocalSegmentInFace(ps[k], dim, a, f);
    LocalSegmentInFace(ps[l], dim, b, g);
    FaceStretchesOrdered(ps, dim, k, f, l, g);
    FaceStretchesOrdered(ps, dim, l, g, k, f);
    ListSegmentsNonNegative(ps, dim, k);
    PartitionSegmentsNonNegative(ps[k], dim, f);
    if k == l && f == g && FaceOffset(ps, dim, k, f) + LocalSegment(ps[k], dim, a, f) == FaceOffset(ps, dim, l, g) + LocalSegment(ps[l], dim, b, g) {
      LocalSegmentInjective(ps[k], dim, a, b, f);
    }
  }

  lemma {:induction false} ListSegmentsNonNegative(ps: seq<Partition>, dim: nat, k: nat)
    requires AllValidPartitions(ps, dim) && AllNonEmpty(ps, dim) && k <= |ps|
    ensures ListSegments(ps, dim, k) >= 0
  {
    if k > 0 {
      ListSegmentsNonNegative(ps, dim, k - 1);
      PartitionSegmentsNonNegative(ps[k - 1], dim, 2 * dim);
    }
  }

  /**
   * `boundaryIndex` on a table: the offset of the face in the row of the
   * partition number plus the position of the cell on the face; on a
   * boundary face of a list of non-empty partitions it lies below the
   * total.
   */
  method SegmentIndex(ps: seq<Partition>, dim: nat, offsets: seq<seq<int>>, total: int,
                      id: MultiIndex, number: nat, face: nat) returns (index: int)
    requires Tabulated(ps, dim, MinNumber(ps), offsets, total) && |id| == dim && face < 2 * dim
    requires exists k :: 0 <= k < |ps| && ps[k].number == number
    requires OnFace(ps[IndexSets.LastWith(ps, number)], dim, id, face)
    ensures ghost var k := IndexSets.LastWith(ps, number);
      index == FaceOffset(ps, dim, k, face) + LocalSegment(ps[k], dim, id, face)
    ensures ghost var k := IndexSets.LastWith(ps, number);
      AllNonEmpty(ps, dim) && Boundary(ps[k], face) ==> 0 <= index < total
  {
    var k := IndexSets.LastWith(ps, number);
    var local := LocalSegmentOf(ps[k], dim, id, face);
    ghost var j :| 0 <= j < |ps| && ps[j].number == number;
    var row := offsets[number - MinNumber(ps)];
    assert row == BoundaryRow(ps, dim, k);
    index := local + row[face];
    if AllNonEmpty(ps, dim) && Boundary(ps[k], face) {
      SegmentNumbersDistinct(ps, dim, k, face, id, k, face, id);
    }
  }

  /**
   * The boundary table and total of a macro level with these meshes: built
   * on the overlap-front list of the level's partition pool (no overlap, no
   * periodic axis), whose partitions are valid with unsigned numbers.
   */
  ghost predicate MacroNumbering(local: Meshes.Mesh, global: Meshes.Mesh, dim: nat, front: seq<Partition>, offsets: seq<seq<int>>, size: int)
  {
    Meshes.ValidMesh(dim, local) && Meshes.ValidMesh(dim, global)
    && front == PartitionPools.PoolContents(local, global, Zeros(dim), 0)[PartitionPools.OverlapFrontPartition]
    && AllValidPartitions(front, dim) && UnsignedNumbers(front)
    && Tabulated(front, dim, MinNumber(front), offsets, size)
  }
}
