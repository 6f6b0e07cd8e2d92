// SPIndexSet: the index set of one grid level.  Entities are numbered
// partition by partition (in list order of the All partition list) and,
// within a partition, direction by direction; every (partition, direction)
// pair owns a block of consecutive indices of its codimension, and inside a
// block an entity's index is the mixed-radix number of its local
// coordinates.

module IndexSets {
  import opened Bits
  import opened MultiIndices
  import Meshes
  import opened Directions
  import opened Partitions
  import opened CachedPartitionLists
  import opened ReferenceCubes

  // ---------------------------------------------------------------------
  // Counting the entities of a partition
  // ---------------------------------------------------------------------

  /** On axis j, the number of values of the parity of bit j of dir between the bounds: `w / 2 + 1`. */
  function AxisCount(p: BasicPartition, dir: nat, j: nat): int
    requires ValidBasic(|p.begin|, p) && j < |p.begin|
  {
    (Partitions.Bound(p, 1, j, Bit(dir, j)) - Partitions.Bound(p, 0, j, Bit(dir, j))) / 2 + 1
  }

  function Counts(p: BasicPartition, dir: nat): (w: seq<int>)
    requires ValidBasic(|p.begin|, p)
    ensures |w| == |p.begin| && forall j :: 0 <= j < |w| ==> w[j] == AxisCount(p, dir, j)
  {
    seq(|p.begin|, j requires 0 <= j < |p.begin| => AxisCount(p, dir, j))
  }

  /** The `factor` of update: the size of the block of direction dir. */
  function Factor(p: BasicPartition, dir: nat): int
    requires ValidBasic(|p.begin|, p)
  {
    Product(Counts(p, dir))
  }

  /** The sum of the factors of the directions below n that have codimension c. */
  function DirTotal(p: BasicPartition, c: int, n: nat): int
    requires ValidBasic(|p.begin|, p) && n <= Pow2(|p.begin|)
  {
    if n == 0 then 0
    else DirTotal(p, c, n - 1) + (if Directions.Codimension(|p.begin|, n - 1) == c then Factor(p, n - 1) else 0)
  }

  /** `size(c)` once the partitions ps have been counted. */
  function ListTotal(ps: seq<Partition>, dim: nat, c: int): int
    requires AllFit(ps, dim)
  {
    if ps == [] then 0
    else
      assert AllFit(ps[..|ps| - 1], dim) by {
        assert forall k :: 0 <= k < |ps| - 1 ==> ps[..|ps| - 1][k] == ps[k];
      }
      ListTotal(ps[..|ps| - 1], dim, c) + DirTotal(ps[|ps| - 1].base, c, Pow2(dim))
  }

  /** The first index of the block of direction dir of the k-th partition. */
  function OffsetOf(ps: seq<Partition>, dim: nat, k: nat, dir: nat): int
    requires AllFit(ps, dim) && k < |ps| && dir < Pow2(dim)
  {
    assert AllFit(ps[..k], dim) by {
      assert forall l :: 0 <= l < k ==> ps[..k][l] == ps[l];
    }
    ListTotal(ps[..k], dim, Directions.Codimension(dim, dir)) + DirTotal(ps[k].base, Directions.Codimension(dim, dir), dir)
  }

  /** The offsets of all directions of the k-th partition. */
  function OffsetRow(ps: seq<Partition>, dim: nat, k: nat): (row: seq<int>)
    requires AllFit(ps, dim) && k < |ps|
    ensures |row| == Pow2(dim) && forall dir :: 0 <= dir < Pow2(dim) ==> row[dir] == OffsetOf(ps, dim, k, dir)
  {
    seq(Pow2(dim), dir requires 0 <= dir < Pow2(dim) => OffsetOf(ps, dim, k, dir))
  }

  /** The position of the last partition numbered n, or -1. */
  function LastWith(ps: seq<Partition>, n: nat): (k: int)
    ensures -1 <= k < |ps|
    ensures k >= 0 ==> ps[k].number == n && forall l :: k < l < |ps| ==> ps[l].number != n
    ensures k == -1 ==> forall l :: 0 <= l < |ps| ==> ps[l].number != n
  {
    if ps == [] then -1
    else if ps[|ps| - 1].number == n then |ps| - 1
    else LastWith(ps[..|ps| - 1], n)
  }

  /** `std::vector::resize`: the rows that fit are kept, new rows are zero. */
  function Resized(t: seq<seq<int>>, size: nat, width: nat): (r: seq<seq<int>>)
    ensures |r| == size
    ensures forall s :: 0 <= s < size && s < |t| ==> r[s] == t[s]
    ensures forall s :: |t| <= s < size ==> r[s] == Zeros(width)
  {
    seq(size, s requires 0 <= s < size => if s < |t| then t[s] else Zeros(width))
  }

  /** The offset table once the first i partitions have written their rows over base. */
  function OffsetTable(ps: seq<Partition>, i: nat, dim: nat, first: nat, base: seq<seq<int>>): (t: seq<seq<int>>)
    requires AllFit(ps, dim) && i <= |ps|
    ensures |t| == |base|
  {
    seq(|base|, s requires 0 <= s < |base| =>
      var k := LastWith(ps[..i], first + s);
      if k >= 0 then OffsetRow(ps, dim, k) else base[s])
  }

  // ---------------------------------------------------------------------
  // Local coordinates
  // ---------------------------------------------------------------------

  /** `(id[j] - bound(0, j, d)) >> 1` on every axis, d the parity of id[j]. */
  function LocalCoords(p: BasicPartition, id: MultiIndex): (x: seq<int>)
    requires ValidBasic(|id|, p)
    ensures |x| == |id|
  {
    seq(|id|, j requires 0 <= j < |id| => (id[j] - Partitions.Bound(p, 0, j, id[j] % 2)) / 2)
  }

  /** `((end - begin) >> 1) + 1` on every axis: the number of values of id[j]'s parity. */
  function Radices(p: BasicPartition, id: MultiIndex): (w: seq<int>)
    requires ValidBasic(|id|, p)
    ensures |w| == |id|
  {
    seq(|id|, j requires 0 <= j < |id| => (Partitions.Bound(p, 1, j, id[j] % 2) - Partitions.Bound(p, 0, j, id[j] % 2)) / 2 + 1)
  }

  /** The index `update` and `index` give the entity id of the k-th partition. */
  function IndexOf(ps: seq<Partition>, dim: nat, k: nat, id: MultiIndex): int
    requires AllFit(ps, dim) && k < |ps| && |id| == dim
  {
    DirectionBound(id);
    OffsetOf(ps, dim, k, DirectionOf(id)) + MixedRadix(LocalCoords(ps[k].base, id), Radices(ps[k].base, id))
  }

  /**
   * offsets and sizes hold what `update` computes from ps: the sizes are the
   * totals per codimension, and the row of each number is the row of the
   * last partition with that number.
   */
  ghost predicate Tabulated(ps: seq<Partition>, dim: nat, first: nat, offsets: seq<seq<int>>, sizes: seq<int>)
  {
    AllFit(ps, dim) && |sizes| == dim + 1
    && (forall c :: 0 <= c <= dim ==> sizes[c] == ListTotal(ps, dim, c))
    && forall k :: 0 <= k < |ps| ==>
         first <= ps[k].number && ps[k].number - first < |offsets|
         && offsets[ps[k].number - first] == OffsetRow(ps, dim, LastWith(ps, ps[k].number))
  }

  /** The partitions have begin <= end on every axis. */
  predicate AllNonEmpty(ps: seq<Partition>, dim: nat)
    requires AllFit(ps, dim)
  {
    forall k, i :: 0 <= k < |ps| && 0 <= i < dim ==> ps[k].base.begin[i] <= ps[k].base.end[i]
  }

  // ---------------------------------------------------------------------
  // Helpers on bits and mixed radices
  // ---------------------------------------------------------------------

  lemma {:induction false} MixedRadixSnoc(x: seq<int>, b: seq<int>, v: int, w: int)
    requires |x| == |b|
    ensures MixedRadix(x + [v], b + [w]) == MixedRadix(x, b) + v * Product(b)
  {
    if x != [] {
      assert (x + [v])[1..] == x[1..] + [v];
      assert (b + [w])[1..] == b[1..] + [w];
      MixedRadixSnoc(x[1..], b[1..], v, w);
      var m, p := MixedRadix(x[1..], b[1..]), Product(b[1..]);
      assert b[0] * (m + v * p) == b[0] * m + v * (b[0] * p);
    }
  }

  /** Different local coordinates within the radices have different mixed-radix values. */
  lemma {:induction false} MixedRadixInjective(x: seq<int>, y: seq<int>, b: seq<int>)
    requires |x| == |b| && |y| == |b| && InRange(x, b) && InRange(y, b)
    requires MixedRadix(x, b) == MixedRadix(y, b)
    ensures x == y
  {
    if x != [] {
      var m, n := MixedRadix(x[1..], b[1..]), MixedRadix(y[1..], b[1..]);
      DivModUnique(MixedRadix(x, b), b[0], m, x[0]);
      DivModUnique(MixedRadix(x, b), b[0], n, y[0]);
      MixedRadixInjective(x[1..], y[1..], b[1..]);
      assert x == [x[0]] + x[1..] && y == [y[0]] + y[1..];
    }
  }

  // ---------------------------------------------------------------------
  // Properties of the counts
  // ---------------------------------------------------------------------

  /** The counts of an id's own direction are the radices of its local coordinates. */
  lemma {:induction false} RadicesAreCounts(p: BasicPartition, id: MultiIndex)
    requires ValidBasic(|id|, p)
    ensures Radices(p, id) == Counts(p, DirectionOf(id))
  {
    forall j | 0 <= j < |id| ensures Radices(p, id)[j] == Counts(p, DirectionOf(id))[j] {
      DirectionBits(id, j);
    }
  }

  /**
   * The asserted range of the local coordinates holds exactly for the ids
   * the partition contains; the id is then the lower bound of its parity
   * plus twice its local coordinate.
   */
  lemma {:induction false} LocalCoordsInRange(p: BasicPartition, id: MultiIndex)
    requires ValidBasic(|id|, p)
    ensures InRange(LocalCoords(p, id), Radices(p, id)) <==> Contains(p, id)
    ensures forall j :: 0 <= j < |id| ==> id[j] == Partitions.Bound(p, 0, j, id[j] % 2) + 2 * LocalCoords(p, id)[j]
  {
    forall j | 0 <= j < |id|
      ensures 0 <= LocalCoords(p, id)[j] < Radices(p, id)[j] <==> p.begin[j] <= id[j] <= p.end[j]
      ensures id[j] == Partitions.Bound(p, 0, j, id[j] % 2) + 2 * LocalCoords(p, id)[j]
    {
      BoundIsTight(p, j, id[j] % 2, id[j]);
    }
  }

  /** A count of a non-empty axis is never negative, so neither is a factor. */
  lemma {:induction false} FactorNonNegative(p: BasicPartition, dir: nat)
    requires ValidBasic(|p.begin|, p)
    requires forall i :: 0 <= i < |p.begin| ==> p.begin[i] <= p.end[i]
    ensures Factor(p, dir) >= 0
  {
    Meshes.NonNegativeProduct(Counts(p, dir));
  }

  lemma {:induction false} DirTotalMonotone(p: BasicPartition, c: int, a: nat, b: nat)
    requires ValidBasic(|p.begin|, p) && a <= b <= Pow2(|p.begin|)
    requires forall i :: 0 <= i < |p.begin| ==> p.begin[i] <= p.end[i]
    ensures DirTotal(p, c, a) <= DirTotal(p, c, b)
    decreases b
  {
    if a < b {
      DirTotalMonotone(p, c, a, b - 1);
      FactorNonNegative(p, b - 1);
    }
  }

  lemma {:induction false} ListTotalMonotone(ps: seq<Partition>, dim: nat, c: int, a: nat, b: nat)
    requires AllFit(ps, dim) && AllNonEmpty(ps, dim) && a <= b <= |ps|
    ensures AllFit(ps[..a], dim) && AllFit(ps[..b], dim)
    ensures ListTotal(ps[..a], dim, c) <= ListTotal(ps[..b], dim, c)
    decreases b
  {
    assert forall l :: 0 <= l < b ==> ps[..b][l] == ps[l];
    assert forall l :: 0 <= l < a ==> ps[..a][l] == ps[l];
    if a < b {
      ListTotalMonotone(ps, dim, c, a, b - 1);
      assert ps[..b][..b - 1] == ps[..b - 1];
      DirTotalMonotone(ps[b - 1].base, c, 0, Pow2(dim));
    }
  }

  /** The block of (k, dir) ends where the counting of partition k ends or earlier. */
  lemma {:induction false} BlockInPartition(ps: seq<Partition>, dim: nat, k: nat, dir: nat)
    requires AllFit(ps, dim) && AllNonEmpty(ps, dim) && k < |ps| && dir < Pow2(dim)
    ensures AllFit(ps[..k + 1], dim)
    ensures OffsetOf(ps, dim, k, dir) + Factor(ps[k].base, dir) <= ListTotal(ps[..k + 1], dim, Directions.Codimension(dim, dir))
  {
    var c := Directions.Codimension(dim, dir);
    ListTotalMonotone(ps, dim, c, k, k + 1);
    assert ps[..k + 1][..k] == ps[..k];
    DirTotalMonotone(ps[k].base, c, dir + 1, Pow2(dim));
  }

  /** Blocks of one codimension follow each other: (k1, d1) before (k2, d2) ends before it starts. */
  lemma {:induction false} BlocksOrdered(ps: seq<Partition>, dim: nat, k1: nat, d1: nat, k2: nat, d2: nat)
    requires AllFit(ps, dim) && AllNonEmpty(ps, dim) && k1 <= k2 < |ps| && d1 < Pow2(dim) && d2 < Pow2(dim)
    requires Directions.Codimension(dim, d1) == Directions.Codimension(dim, d2)
    requires k1 < k2 || d1 < d2
    ensures OffsetOf(ps, dim, k1, d1) + Factor(ps[k1].base, d1) <= OffsetOf(ps, dim, k2, d2)
  {
    var c := Directions.Codimension(dim, d2);
    if k1 == k2 {
      DirTotalMonotone(ps[k1].base, c, d1 + 1, d2);
    } else {
      BlockInPartition(ps, dim, k1, d1);
      ListTotalMonotone(ps, dim, c, k1 + 1, k2);
      DirTotalMonotone(ps[k2].base, c, 0, d2);
    }
  }

  /** The index of an entity lies in the block of its partition and direction. */
  lemma {:induction false} IndexInBlock(ps: seq<Partition>, dim: nat, k: nat, id: MultiIndex)
    requires AllFit(ps, dim) && k < |ps| && |id| == dim
    requires Contains(ps[k].base, id)
    ensures DirectionOf(id) < Pow2(dim) && Directions.Codimension(dim, DirectionOf(id)) == CodimensionOf(id)
    ensures OffsetOf(ps, dim, k, DirectionOf(id)) <= IndexOf(ps, dim, k, id)
                < OffsetOf(ps, dim, k, DirectionOf(id)) + Factor(ps[k].base, DirectionOf(id))
  {
    var p := ps[k].base;
    DirectionCodimension(id);
    LocalCoordsInRange(p, id);
    RadicesAreCounts(p, id);
    MixedRadixBound(LocalCoords(p, id), Radices(p, id));
  }

  /** The blocks of partition k start at or after 0. */
  lemma {:induction false} OffsetNonNegative(ps: seq<Partition>, dim: nat, k: nat, dir: nat)
    requires AllFit(ps, dim) && AllNonEmpty(ps, dim) && k < |ps| && dir < Pow2(dim)
    ensures OffsetOf(ps, dim, k, dir) >= 0
  {
    var c := Directions.Codimension(dim, dir);
    var p := ps[k].base;
    ListTotalMonotone(ps, dim, c, 0, k);
    assert ps[..0] == [];
    assert ListTotal(ps[..0], dim, c) == 0;
    DirTotalMonotone(p, c, 0, dir);
    assert DirTotal(p, c, 0) == 0;
  }

  /** The block of (k, dir) ends within the total of its codimension. */
  lemma {:induction false} BlockInList(ps: seq<Partition>, dim: nat, k: nat, dir: nat)
    requires AllFit(ps, dim) && AllNonEmpty(ps, dim) && k < |ps| && dir < Pow2(dim)
    ensures OffsetOf(ps, dim, k, dir) + Factor(ps[k].base, dir) <= ListTotal(ps, dim, Directions.Codimension(dim, dir))
  {
    var c := Directions.Codimension(dim, dir);
    BlockInPartition(ps, dim, k, dir);
    ListTotalMonotone(ps, dim, c, k + 1, |ps|);
    assert ps[..|ps|] == ps;
  }

  /**
   * Every entity of a partition gets an index below `size` of its
   * codimension.
   */
  lemma {:induction false} IndexBelowSize(ps: seq<Partition>, dim: nat, k: nat, id: MultiIndex)
    requires AllFit(ps, dim) && AllNonEmpty(ps, dim) && k < |ps| && |id| == dim
    requires Contains(ps[k].base, id)
    ensures 0 <= IndexOf(ps, dim, k, id) < ListTotal(ps, dim, CodimensionOf(id))
  {
    IndexInBlock(ps, dim, k, id);
    var dir := DirectionOf(id);
    OffsetNonNegative(ps, dim, k, dir);
    BlockInList(ps, dim, k, dir);
  }

  /** Within one block, equal indices mean equal ids. */
  lemma {:induction false} SameBlockSameId(p: BasicPartition, id1: MultiIndex, id2: MultiIndex)
    requires ValidBasic(|id1|, p) && |id2| == |id1|
    requires Contains(p, id1) && Contains(p, id2) && DirectionOf(id1) == DirectionOf(id2)
    requires MixedRadix(LocalCoords(p, id1), Radices(p, id1)) == MixedRadix(LocalCoords(p, id2), Radices(p, id2))
    ensures id1 == id2
  {
    LocalCoordsInRange(p, id1);
    LocalCoordsInRange(p, id2);
    RadicesAreCounts(p, id1);
    RadicesAreCounts(p, id2);
    MixedRadixInjective(LocalCoords(p, id1), LocalCoords(p, id2), Radices(p, id1));
    forall j | 0 <= j < |id1| ensures id1[j] == id2[j] {
      DirectionBits(id1, j);
      DirectionBits(id2, j);
    }
  }

  /**
   * Different entities of one codimension get different indices, whether
   * they differ in partition, in direction or in position.
   */
  lemma {:induction false} IndexInjective(ps: seq<Partition>, dim: nat, k1: nat, id1: MultiIndex, k2: nat, id2: MultiIndex)
    requires AllFit(ps, dim) && AllNonEmpty(ps, dim) && k1 < |ps| && k2 < |ps| && |id1| == dim && |id2| == dim
    requires Contains(ps[k1].base, id1) && Contains(ps[k2].base, id2)
    requires CodimensionOf(id1) == CodimensionOf(id2)
    requires IndexOf(ps, dim, k1, id1) == IndexOf(ps, dim, k2, id2)
    ensures k1 == k2 && id1 == id2
  {
    IndexInBlock(ps, dim, k1, id1);
    IndexInBlock(ps, dim, k2, id2);
    var d1, d2 := DirectionOf(id1), DirectionOf(id2);
    if k1 < k2 || (k1 == k2 && d1 < d2) {
      BlocksOrdered(ps, dim, k1, d1, k2, d2);
    } else if k2 < k1 || (k1 == k2 && d2 < d1) {
      BlocksOrdered(ps, dim, k2, d2, k1, d1);
    } else {
      SameBlockSameId(ps[k1].base, id1, id2);
    }
  }

  // ---------------------------------------------------------------------
  // Sub-entities
  // ---------------------------------------------------------------------

  /**
   * The id of a sub-entity: the components of ref are added, in order, to
   * the odd components of id (the axes the entity extends along).
   */
  function Embed(id: MultiIndex, ref: MultiIndex): (s: MultiIndex)
    requires |ref| == OddCount(id)
    ensures |s| == |id|
    decreases |id|
  {
    if id == [] then []
    else
      var n := |id| - 1;
      OddCountSnoc(id[..n], id[n]);
      assert id[..n] + [id[n]] == id;
      if id[n] % 2 != 0 then Embed(id[..n], ref[..|ref| - 1]) + [id[n] + ref[|ref| - 1]]
      else Embed(id[..n], ref) + [id[n]]
  }

  /** The even components (the axes the entity does not extend along) are kept. */
  lemma {:induction false} EmbedKeepsEven(id: MultiIndex, ref: MultiIndex, j: nat)
    requires |ref| == OddCount(id) && j < |id| && id[j] % 2 == 0
    ensures Embed(id, ref)[j] == id[j]
    decreases |id|
  {
    var n := |id| - 1;
    OddCountSnoc(id[..n], id[n]);
    assert id[..n] + [id[n]] == id;
    if j < n {
      if id[n] % 2 != 0 {
        EmbedKeepsEven(id[..n], ref[..|ref| - 1], j);
      } else {
        EmbedKeepsEven(id[..n], ref, j);
      }
    }
  }

  /** For an element every component is odd, and the sub-entity id is `id + subId`. */
  lemma {:induction false} EmbedInElement(id: MultiIndex, ref: MultiIndex)
    requires forall j :: 0 <= j < |id| ==> id[j] % 2 == 1
    requires |ref| == |id|
    ensures OddCount(id) == |id| && Embed(id, ref) == Add(id, ref)
    decreases |id|
  {
    if id != [] {
      var n := |id| - 1;
      OddCountSnoc(id[..n], id[n]);
      assert id[..n] + [id[n]] == id;
      EmbedInElement(id[..n], ref[..n]);
    }
  }

  /** For a vertex no component is odd, and the only sub-entity is the vertex itself. */
  lemma {:induction false} EmbedInVertex(id: MultiIndex)
    requires forall j :: 0 <= j < |id| ==> id[j] % 2 == 0
    ensures OddCount(id) == 0 && Embed(id, []) == id
    decreases |id|
  {
    if id != [] {
      var n := |id| - 1;
      OddCountSnoc(id[..n], id[n]);
      assert id[..n] + [id[n]] == id;
      EmbedInVertex(id[..n]);
    }
  }

  /** Embed unfolded at the last component. */
  lemma {:induction false} EmbedLast(id: MultiIndex, ref: MultiIndex)
    requires |ref| == OddCount(id) && id != []
    ensures OddCount(id[..|id| - 1]) + id[|id| - 1] % 2 == OddCount(id)
    ensures id[|id| - 1] % 2 != 0 ==>
      (|ref| > 0 && |ref| - 1 == OddCount(id[..|id| - 1])
       && Embed(id, ref) == Embed(id[..|id| - 1], ref[..|ref| - 1]) + [id[|id| - 1] + ref[|ref| - 1]])
    ensures id[|id| - 1] % 2 == 0 ==>
      (|ref| == OddCount(id[..|id| - 1]) && Embed(id, ref) == Embed(id[..|id| - 1], ref) + [id[|id| - 1]])
  {
    var n := |id| - 1;
    OddCountSnoc(id[..n], id[n]);
    assert id[..n] + [id[n]] == id;
  }

  /** An odd component moved by -1, 0 or 1 is even exactly when it moved. */
  lemma {:induction false} ParityStep(x: int, v: int)
    requires x % 2 == 1 && -1 <= v <= 1
    ensures (x + v) % 2 == if v != 0 then 0 else 1
  {
  }

  /** Each nonzero component of an offset in {-1, 0, 1} makes one odd component even. */
  lemma {:induction false} EmbedCodimension(id: MultiIndex, ref: MultiIndex)
    requires |ref| == OddCount(id) && IsOffset(ref)
    ensures OddCount(Embed(id, ref)) == OddCount(id) - NonzeroCount(ref)
    decreases |id|
  {
    if id != [] {
      var n := |id| - 1;
      EmbedLast(id, ref);
      if id[n] % 2 != 0 {
        var r := ref[..|ref| - 1];
        var v := ref[|ref| - 1];
        assert IsOffset(r) by {
          assert forall k :: 0 <= k < |r| ==> r[k] == ref[k];
        }
        EmbedCodimension(id[..n], r);
        OddCountSnoc(Embed(id[..n], r), id[n] + v);
        ParityStep(id[n], v);
      } else {
        EmbedCodimension(id[..n], ref);
        OddCountSnoc(Embed(id[..n], ref), id[n]);
      }
    }
  }

  lemma {:induction false} OddCountPrefix(id: MultiIndex, k: nat)
    requires k <= |id|
    ensures OddCount(id[..k]) <= OddCount(id)
    decreases |id| - k
  {
    if k < |id| {
      OddCountPrefix(id, k + 1);
      OddCountSnoc(id[..k], id[k]);
      assert id[..k + 1] == id[..k] + [id[k]];
    } else {
      assert id[..k] == id;
    }
  }

  /** One component more of the sub-entity id. */
  lemma {:induction false} EmbedStep(id: MultiIndex, ref: MultiIndex, k: nat, l: nat)
    requires k < |id| && l == OddCount(id[..k]) && OddCount(id[..k + 1]) <= |ref|
    ensures OddCount(id[..k + 1]) == l + id[k] % 2
    ensures Embed(id[..k + 1], ref[..l + id[k] % 2])
      == Embed(id[..k], ref[..l]) + [if id[k] % 2 != 0 then id[k] + ref[l] else id[k]]
  {
    OddCountSnoc(id[..k], id[k]);
    assert id[..k + 1] == id[..k] + [id[k]];
    assert id[..k + 1][..k] == id[..k];
    if id[k] % 2 != 0 {
      assert ref[..l + 1][..l] == ref[..l];
    }
    EmbedLast(id[..k + 1], ref[..l + id[k] % 2]);
  }

  /** Two bounds of one parity are an even distance apart. */
  lemma {:induction false} SameParityGap(a: int, b: int)
    requires a % 2 == b % 2
    ensures (b - a) % 2 == 0
  {
    var q, r := a / 2, a % 2;
    var q', r' := b / 2, b % 2;
    assert b - a == 2 * (q' - q);
  }

  lemma {:induction false} PrefixSnoc<T>(s: seq<T>, j: nat)
    requires j < |s|
    ensures s[..j + 1] == s[..j] + [s[j]]
  {
  }

  /** Replacing the first element after a prefix. */
  lemma {:induction false} ReplaceAfter(pre: seq<int>, rest: seq<int>, v: int)
    requires rest != []
    ensures (pre + rest)[|pre| := v] == pre + [v] + rest[1..]
  {
  }

  /** One pass of the loop of the generic `subIndex`: component k is moved when it is odd. */
  lemma {:induction false} SubIdStep(id: MultiIndex, ref: MultiIndex, k: nat, l: nat, subId: MultiIndex)
    requires |ref| == OddCount(id) && k < |id| && l == OddCount(id[..k]) && l <= |ref|
    requires subId == Embed(id[..k], ref[..l]) + id[k..]
    ensures subId[k] == id[k] && l + id[k] % 2 == OddCount(id[..k + 1]) <= |ref|
    ensures id[k] % 2 != 0 ==> l < |ref| && subId[k := subId[k] + ref[l]] == Embed(id[..k + 1], ref[..l + 1]) + id[k + 1..]
    ensures id[k] % 2 == 0 ==> subId == Embed(id[..k + 1], ref[..l]) + id[k + 1..]
  {
    OddCountPrefix(id, k + 1);
    EmbedStep(id, ref, k, l);
    var pre := Embed(id[..k], ref[..l]);
    var v := if id[k] % 2 != 0 then id[k] + ref[l] else id[k];
    ReplaceAfter(pre, id[k..], v);
    assert id[k..][1..] == id[k + 1..];
    assert subId[k] == id[k..][0];
    if id[k] % 2 == 0 {
      assert subId == subId[k := v];
    }
  }

  /** The id of sub-entity i of codimension codim of an entity of codimension cd. */
  function SubEntityOf(id: MultiIndex, cd: nat, codim: nat, i: nat): (s: MultiIndex)
    requires cd <= codim <= |id| && OddCount(id) == |id| - cd && i < NumSubEntities(|id| - cd, codim - cd)
    ensures |s| == |id|
  {
    Embed(id, SubIdOf(|id| - cd, codim - cd, i))
  }

  /** The loop of the generic `subIndex`: `subId[k] += refId[l++]` on the odd components. */
  method SubEntityId(id: MultiIndex, ref: MultiIndex) returns (subId: MultiIndex)
    requires |ref| == OddCount(id)
    ensures subId == Embed(id, ref)
  {
    subId := id;
    var k, l := 0, 0;
    assert id[..0] == [] && ref[..0] == [];
    while k < |id|
      invariant 0 <= k <= |id| && l == OddCount(id[..k]) && l <= |ref|
      invariant subId == Embed(id[..k], ref[..l]) + id[k..]
    {
      SubIdStep(id, ref, k, l, subId);
      if id[k] % 2 != 0 {
        subId := subId[k := subId[k] + ref[l]];
        l := l + 1;
      }
      k := k + 1;
    }
    assert id[..k] == id;
    OddCountPrefix(id, k);
    assert ref[..l] == ref;
  }

  /** `type.dim()` and `type.isCube()` of a geometry type. */
  datatype GeometryType = GeometryType(isCube: bool, dim: nat)

  /** `GeometryTypes::cube(mydim)`. */
  function CubeType(mydim: nat): (t: GeometryType)
    ensures t.isCube && t.dim == mydim
  {
    GeometryType(true, mydim)
  }

  /** `size(type)` of either index set: the count of the cube's codimension, and zero for a type that is no cube. */
  function TypeSize(sizes: seq<int>, dim: nat, t: GeometryType): (n: int)
    requires |sizes| == dim + 1 && (t.isCube ==> t.dim <= dim)
    ensures t.isCube ==> n == sizes[dim - t.dim]
    ensures !t.isCube ==> n == 0
  {
    if t.isCube then sizes[dim - t.dim] else 0
  }

  /** `types(codim)` of either index set: the one cube type of dimension dim - codim. */
  function CubeTypes(dim: nat, codim: int): (ts: seq<GeometryType>)
    requires 0 <= codim <= dim
    ensures |ts| == 1 && ts[0].isCube && ts[0].dim + codim == dim
  {
    [CubeType(dim - codim)]
  }

  // ---------------------------------------------------------------------
  // SPIndexSet
  // ---------------------------------------------------------------------

  class IndexSet {
    const dim: nat
    /** The identity of the grid level (`gridLevel_`). */
    var level: int
    /** `partitions_`: the All partition list of the level. */
    var all: CachedPartitionList
    var offsets: seq<seq<int>>
    var sizes: seq<int>

    /** One size per codimension, one row of 2^dim offsets per partition number in the list's range. */
    ghost predicate Shaped()
      reads this, all
    {
      |sizes| == dim + 1
      && (forall s :: 0 <= s < |offsets| ==> |offsets[s]| == Pow2(dim))
      && (all.first <= all.last ==> |offsets| == all.last - all.first + 1)
    }

    /** The table holds what `update` computes from the current list. */
    ghost predicate Describes()
      reads this, all, all.list
    {
      Shaped() && Tabulated(all.list.partitions, dim, all.first, offsets, sizes)
    }

    /** The list is valid, its bounds have dim axes and it holds a partition with that number. */
    ghost predicate Numbered(number: nat)
      reads this, all, all.list, all.cache
    {
      all.Valid() && AllFit(all.list.partitions, dim) && all.ContainsNumber(number)
    }

    /** The id lies in the partition with that number: each local coordinate is below its radix. */
    ghost predicate Locates(id: MultiIndex, number: nat)
      reads this, all, all.list, all.cache
      requires Numbered(number) && |id| == dim
    {
      InRange(LocalCoords(all.PartitionNumbered(number).base, id), Radices(all.PartitionNumbered(number).base, id))
    }

    /** What `index(id, number)` asserts: the id lies in the partition with that number. */
    ghost predicate Indexable(id: MultiIndex, number: nat)
      reads this, all, all.list, all.cache
    {
      Shaped() && Numbered(number) && |id| == dim && Locates(id, number)
    }

    /** The index that `update` assigns the id in the last partition with that number. */
    ghost function TableIndex(id: MultiIndex, number: nat): int
      reads this, all, all.list, all.cache
      requires Numbered(number) && |id| == dim
    {
      IndexOf(all.list.partitions, dim, LastWith(all.list.partitions, number), id)
    }

    /** `SPIndexSet(gridLevel)`: `update(gridLevel)`. */
    constructor (dim: nat, gridLevel: int, partitions: CachedPartitionList)
      requires partitions.Valid() && partitions.last < MaxUnsigned && AllFit(partitions.list.partitions, dim)
      ensures this.dim == dim && level == gridLevel && all == partitions
      ensures Describes()
    {
      this.dim := dim;
      level := gridLevel;
      all := partitions;
      offsets := [];
      sizes := Zeros(dim + 1);
      new;
      Update(gridLevel, partitions);
    }

    /**
     * `update(gridLevel)`: every size is zeroed, the table is resized to the
     * range of numbers, and each partition in list order adds the factor of
     * each direction to the size of the direction's codimension, writing the
     * running total as the offset of that direction.
     */
    method Update(gridLevel: int, partitions: CachedPartitionList)
      requires partitions.Valid() && partitions.last < MaxUnsigned && AllFit(partitions.list.partitions, dim)
      requires forall s :: 0 <= s < |offsets| ==> |offsets[s]| == Pow2(dim)
      modifies this
      ensures level == gridLevel && all == partitions
      ensures |sizes| == dim + 1 && forall c :: 0 <= c <= dim ==> sizes[c] == ListTotal(all.list.partitions, dim, c)
      ensures offsets == OffsetTable(all.list.partitions, |all.list.partitions|, dim, all.first,
                                     Resized(old(offsets), CacheSize(all.first, all.last), Pow2(dim)))
      ensures Describes()
    {
      var lo, hi := partitions.first, partitions.last;
      var ps := partitions.list.partitions;
      SlotsFit(ps, lo, hi, partitions.cache[..]);
      var base := Resized(offsets, CacheSize(lo, hi), Pow2(dim));
      var table, totals := BuildTable(ps, dim, lo, base);
      TableDescribes(ps, dim, lo, base, table, totals);
      level, all := gridLevel, partitions;
      sizes, offsets := totals, table;
    }

    /** `size(codim)`. */
    function Size(codim: int): (n: int)
      reads this
      requires |sizes| == dim + 1 && 0 <= codim <= dim
      ensures n == sizes[codim]
    {
      sizes[codim]
    }

    /** `size(type)`: zero for a type that is no cube. */
    function SizeOfType(t: GeometryType): (n: int)
      reads this
      requires |sizes| == dim + 1 && (t.isCube ==> t.dim <= dim)
      ensures t.isCube ==> n == Size(dim - t.dim)
      ensures !t.isCube ==> n == 0
    {
      TypeSize(sizes, dim, t)
    }

    /** `types(codim)`: the one cube type of dimension dim - codim. */
    function Types(codim: int): (ts: seq<GeometryType>)
      requires 0 <= codim <= dim
      ensures |ts| == 1 && ts[0].isCube && ts[0].dim + codim == dim
    {
      CubeTypes(dim, codim)
    }

    /** `contains(entity)`: the partition number is asserted to exist; the entity must live on this level. */
    predicate ContainsEntity(entityLevel: int, number: nat)
      reads this, all, all.list, all.cache
      requires all.Valid() && all.ContainsNumber(number)
    {
      entityLevel == level
    }

    /**
     * `index(id, number)`: the offset of the id's direction in the row of
     * its partition plus the mixed-radix number of its local coordinates,
     * each asserted to lie within its radix.
     */
    method Index(id: MultiIndex, number: nat) returns (index: int)
      requires Indexable(id, number)
      ensures number - all.first < |offsets|
      ensures DirectionOf(id) < Pow2(dim)
      ensures index == offsets[number - all.first][DirectionOf(id)]
                       + MixedRadix(LocalCoords(all.PartitionNumbered(number).base, id), Radices(all.PartitionNumbered(number).base, id))
      ensures Tabulated(all.list.partitions, dim, all.first, offsets, sizes) ==>
        index == TableIndex(id, number)
    {
      var p := all.PartitionNumbered(number);
      var local, dir := LocalIndex(p.base, id);
      index := offsets[number - all.first][dir] + local;
      IndexAgreesWhen(all.list.partitions, dim, all.first, all.last, all.cache[..], offsets, sizes, p, id, number, index);
    }

    /**
     * `subIndex(id, i, codim, number)` of an entity of codimension cd: the
     * index of the id moved, along the axes the entity extends along, by
     * sub-entity i of codimension codim - cd of the level's reference cube
     * of dimension dim - cd.
     */
    method SubIndex(id: MultiIndex, cd: nat, i: nat, codim: nat, number: nat, refCube: ReferenceCube) returns (index: int)
      requires |id| == dim && OddCount(id) == dim - cd && cd <= codim <= dim
      requires refCube.Valid() && refCube.dim == dim - cd && i < NumSubEntities(dim - cd, codim - cd)
      requires Indexable(SubEntityOf(id, cd, codim, i), number)
      ensures Describes() ==> index == TableIndex(SubEntityOf(id, cd, codim, i), number)
    {
      var refId := refCube.SubId(codim - cd, i);
      var subId := SubEntityId(id, refId);
      assert subId == SubEntityOf(id, cd, codim, i);
      index := Index(subId, number);
    }

    /** `subIndex` of an element (cd = 0): the index of `id + subId(codim, i)`. */
    method ElementSubIndex(id: MultiIndex, i: nat, codim: nat, number: nat, refCube: ReferenceCube) returns (index: int)
      requires |id| == dim && (forall j :: 0 <= j < dim ==> id[j] % 2 == 1) && codim <= dim
      requires refCube.Valid() && refCube.dim == dim && i < NumSubEntities(dim, codim)
      requires Indexable(Add(id, SubIdOf(dim, codim, i)), number)
      ensures ghost var s := Add(id, SubIdOf(dim, codim, i));
        Describes() ==> index == TableIndex(s, number)
    {
      EmbedInElement(id, SubIdOf(dim, codim, i));
      var refId := refCube.SubId(codim, i);
      index := Index(Add(id, refId), number);
    }

    /** `subIndex` of a vertex (cd = dim): only the vertex itself, so codim = dim and i = 0. */
    method VertexSubIndex(id: MultiIndex, i: nat, codim: nat, number: nat) returns (index: int)
      requires |id| == dim && (forall j :: 0 <= j < dim ==> id[j] % 2 == 0)
      requires codim == dim && i == 0
      requires Indexable(id, number)
      ensures Describes() ==> index == TableIndex(id, number)
    {
      EmbedInVertex(id);
      index := Index(id, number);
    }
  }

  /** The inner loop of `update`: the factor of a direction and its codimension. */
  method DirectionFactor(p: BasicPartition, dir: nat, dim: nat) returns (factor: int, codim: int)
    requires ValidBasic(dim, p) && dir < Pow2(dim)
    ensures factor == Factor(p, dir) && codim == Directions.Codimension(dim, dir)
  {
    factor := 1;
    codim := dim;
    var j := 0;
    while j < dim
      invariant j <= dim
      invariant factor == Product(Counts(p, dir)[..j])
      invariant codim == dim - LowSum(dir, j)
    {
      var d := Bit(dir, j);
      var w := Partitions.Bound(p, 1, j, d) - Partitions.Bound(p, 0, j, d);
      SameParityGap(Partitions.Bound(p, 0, j, d), Partitions.Bound(p, 1, j, d));
      assert w % 2 == 0;
      assert w / 2 + 1 == Counts(p, dir)[j];
      PrefixSnoc(Counts(p, dir), j);
      ProductSnoc(Counts(p, dir)[..j], w / 2 + 1);
      LowSumSnoc(dir, j);
      factor := factor * (w / 2 + 1);
      codim := codim - d;
      j := j + 1;
    }
    assert Counts(p, dir)[..j] == Counts(p, dir);
    LowSumIsPopCount(dir, dim);
  }

  /** With distinct numbers, a partition of the list is the last one with its number. */
  lemma {:induction false} NumberedIsLast(ps: seq<Partition>, p: Partition)
    requires DistinctNumbers(ps) && p in ps
    ensures 0 <= LastWith(ps, p.number) && ps[LastWith(ps, p.number)] == p
  {
    var k :| 0 <= k < |ps| && ps[k] == p;
    var l := LastWith(ps, p.number);
    assert l >= 0 && ps[l].number == ps[k].number;
  }

  /** A table of slots holds each number once. */
  lemma {:induction false} CachedNumbersDistinct(ps: seq<Partition>, first: nat, last: nat, cache: seq<int>)
    requires CacheDescribes(ps, first, last, cache)
    ensures DistinctNumbers(ps)
  {
    forall k, l | 0 <= k < l < |ps| ensures ps[k].number != ps[l].number {
      assert cache[ps[k].number - first] == k && cache[ps[l].number - first] == l;
    }
  }

  /** Every number of a valid list has its slot in the table a resize to the number range makes. */
  lemma {:induction false} SlotsFit(ps: seq<Partition>, first: nat, last: nat, c: seq<int>)
    requires CacheDescribes(ps, first, last, c) && last < MaxUnsigned
    ensures forall k :: 0 <= k < |ps| ==> first <= ps[k].number && ps[k].number - first < CacheSize(first, last)
    ensures first <= last ==> CacheSize(first, last) == last - first + 1
  {
    if first <= last {
      SmallCacheSize(first, last);
    }
  }

  lemma {:induction false} SmallCacheSize(first: nat, last: nat)
    requires first <= last < MaxUnsigned
    ensures CacheSize(first, last) == last - first + 1
  {
    DivModUnique(last - first + 1, MaxUnsigned + 1, 0, last - first + 1);
  }

  /** Before the first partition the table is the resized one. */
  lemma {:induction false} TableStart(ps: seq<Partition>, dim: nat, first: nat, base: seq<seq<int>>)
    requires AllFit(ps, dim)
    ensures OffsetTable(ps, 0, dim, first, base) == base
    ensures forall c :: ListTotal(ps[..0], dim, c) == 0
  {
    assert ps[..0] == [];
    forall s | 0 <= s < |base| ensures OffsetTable(ps, 0, dim, first, base)[s] == base[s] {
      assert LastWith(ps[..0], first + s) == -1;
    }
  }

  /**
   * The offset CountPartition gives direction d: the running total of d's
   * codimension before the partition plus the blocks of the same
   * codimension that precede d within it.
   */
  function RowEntry(p: BasicPartition, dim: nat, sizes: seq<int>, d: nat): int
    requires ValidBasic(dim, p) && |sizes| == dim + 1 && d < Pow2(dim)
  {
    var c := Directions.Codimension(dim, d);
    sizes[c] + DirTotal(p, c, d)
  }

  /** The row CountPartition computes from the running totals is partition i's row of offsets. */
  lemma {:induction false} RowIsOffsetRow(ps: seq<Partition>, dim: nat, i: nat, totals: seq<int>, row: seq<int>)
    requires AllFit(ps, dim) && i < |ps| && |totals| == dim + 1
    requires forall c :: 0 <= c <= dim ==> totals[c] == ListTotal(ps[..i], dim, c)
    requires |row| == Pow2(dim)
    requires forall d :: 0 <= d < Pow2(dim) ==>
      row[d] == RowEntry(ps[i].base, dim, totals, d)
    ensures row == OffsetRow(ps, dim, i)
  {
    forall d | 0 <= d < Pow2(dim) ensures row[d] == OffsetRow(ps, dim, i)[d] {
      var c := Directions.Codimension(dim, d);
      assert row[d] == ListTotal(ps[..i], dim, c) + DirTotal(ps[i].base, c, d);
    }
  }

  /** Adding partition i's totals gives the totals of the first i + 1 partitions. */
  lemma {:induction false} TotalsStep(ps: seq<Partition>, dim: nat, i: nat, totals: seq<int>, next: seq<int>)
    requires AllFit(ps, dim) && i < |ps| && |totals| == dim + 1 && |next| == dim + 1
    requires forall c :: 0 <= c <= dim ==> totals[c] == ListTotal(ps[..i], dim, c)
    requires forall c :: 0 <= c <= dim ==> next[c] == totals[c] + DirTotal(ps[i].base, c, Pow2(dim))
    ensures forall c :: 0 <= c <= dim ==> next[c] == ListTotal(ps[..i + 1], dim, c)
  {
    assert ps[..i + 1][..i] == ps[..i];
  }

  /** After partition i has written its row, the table is that of the first i + 1 partitions. */
  lemma {:induction false} UpdateStep(ps: seq<Partition>, i: nat, dim: nat, first: nat, base: seq<seq<int>>,
                                      before: seq<seq<int>>, row: seq<int>)
    requires AllFit(ps, dim) && i < |ps| && first <= ps[i].number && ps[i].number - first < |base|
    requires before == OffsetTable(ps, i, dim, first, base)
    requires row == OffsetRow(ps, dim, i)
    ensures before[ps[i].number - first := row] == OffsetTable(ps, i + 1, dim, first, base)
  {
    var after := before[ps[i].number - first := row];
    assert ps[..i + 1][..i] == ps[..i];
    forall s | 0 <= s < |after| ensures after[s] == OffsetTable(ps, i + 1, dim, first, base)[s] {
      assert LastWith(ps[..i + 1], first + s) == if first + s == ps[i].number then i else LastWith(ps[..i], first + s);
    }
  }

  /** Once every partition is counted, each number's row is that of its last partition. */
  lemma {:induction false} TableDescribes(ps: seq<Partition>, dim: nat, first: nat, base: seq<seq<int>>,
                                          table: seq<seq<int>>, totals: seq<int>)
    requires AllFit(ps, dim) && table == OffsetTable(ps, |ps|, dim, first, base)
    requires forall k :: 0 <= k < |ps| ==> first <= ps[k].number && ps[k].number - first < |base|
    requires |totals| == dim + 1 && forall c :: 0 <= c <= dim ==> totals[c] == ListTotal(ps, dim, c)
    ensures Tabulated(ps, dim, first, table, totals)
  {
    assert ps[..|ps|] == ps;
    forall k | 0 <= k < |ps| ensures table[ps[k].number - first] == OffsetRow(ps, dim, LastWith(ps, ps[k].number)) {
      assert LastWith(ps, first + (ps[k].number - first)) >= 0;
    }
  }

  /** A tabulated row and the local index give the index of the id. */
  lemma {:induction false} IndexAgrees(ps: seq<Partition>, dim: nat, first: nat, last: nat, cache: seq<int>,
                                       offsets: seq<seq<int>>, sizes: seq<int>, p: Partition, id: MultiIndex,
                                       number: nat, index: int)
    requires CacheDescribes(ps, first, last, cache)
    requires Tabulated(ps, dim, first, offsets, sizes) && p in ps && p.number == number && |id| == dim
    requires ValidBasic(dim, p.base) && first <= number && number - first < |offsets|
    requires DirectionOf(id) < |offsets[number - first]|
    requires index == offsets[number - first][DirectionOf(id)] + MixedRadix(LocalCoords(p.base, id), Radices(p.base, id))
    ensures index == IndexOf(ps, dim, LastWith(ps, number), id)
  {
    DirectionBound(id);
    CachedNumbersDistinct(ps, first, last, cache);
    NumberedIsLast(ps, p);
    var k := LastWith(ps, number);
    var row := OffsetRow(ps, dim, k);
    assert offsets[number - first] == row by {
      assert ps[k].number == number;
    }
    assert row[DirectionOf(id)] == OffsetOf(ps, dim, k, DirectionOf(id));
  }

  /** `IndexAgrees` for a table that may not describe the list. */
  lemma {:induction false} IndexAgreesWhen(ps: seq<Partition>, dim: nat, first: nat, last: nat, cache: seq<int>,
                                           offsets: seq<seq<int>>, sizes: seq<int>, p: Partition, id: MultiIndex,
                                           number: nat, index: int)
    requires CacheDescribes(ps, first, last, cache)
    requires p in ps && p.number == number && |id| == dim
    requires ValidBasic(dim, p.base) && first <= number && number - first < |offsets|
    requires DirectionOf(id) < |offsets[number - first]|
    requires index == offsets[number - first][DirectionOf(id)] + MixedRadix(LocalCoords(p.base, id), Radices(p.base, id))
    ensures Tabulated(ps, dim, first, offsets, sizes) ==> index == IndexOf(ps, dim, LastWith(ps, number), id)
  {
    if Tabulated(ps, dim, first, offsets, sizes) {
      IndexAgrees(ps, dim, first, last, cache, offsets, sizes, p, id, number, index);
    }
  }

  /** The loops of `update` over the partitions, on the resized table. */
  method BuildTable(ps: seq<Partition>, dim: nat, first: nat, base: seq<seq<int>>) returns (table: seq<seq<int>>, totals: seq<int>)
    requires AllFit(ps, dim)
    requires forall k :: 0 <= k < |ps| ==> first <= ps[k].number && ps[k].number - first < |base|
    requires forall s :: 0 <= s < |base| ==> |base[s]| == Pow2(dim)
    ensures table == OffsetTable(ps, |ps|, dim, first, base)
    ensures forall s :: 0 <= s < |table| ==> |table[s]| == Pow2(dim)
    ensures |totals| == dim + 1 && forall c :: 0 <= c <= dim ==> totals[c] == ListTotal(ps, dim, c)
  {
    table := base;
    totals := Zeros(dim + 1);
    TableStart(ps, dim, first, base);
    for i := 0 to |ps|
      invariant |totals| == dim + 1 && forall c :: 0 <= c <= dim ==> totals[c] == ListTotal(ps[..i], dim, c)
      invariant table == OffsetTable(ps, i, dim, first, base)
      invariant forall s :: 0 <= s < |table| ==> |table[s]| == Pow2(dim)
    {
      var p := ps[i];
      var row, next := CountPartition(p.base, dim, totals);
      RowIsOffsetRow(ps, dim, i, totals, row);
      TotalsStep(ps, dim, i, totals, next);
      UpdateStep(ps, i, dim, first, base, table, row);
      table := table[p.number - first := row];
      totals := next;
    }
    assert ps[..|ps|] == ps;
  }

  /**
   * The inner loops of `update` for one partition: each direction's offset
   * is the running total of its codimension, which then grows by the
   * direction's factor.
   */
  method CountPartition(p: BasicPartition, dim: nat, sizes: seq<int>) returns (row: seq<int>, next: seq<int>)
    requires ValidBasic(dim, p) && |sizes| == dim + 1
    ensures |row| == Pow2(dim) && |next| == dim + 1
    ensures forall d :: 0 <= d < Pow2(dim) ==>
      row[d] == RowEntry(p, dim, sizes, d)
    ensures forall c :: 0 <= c <= dim ==> next[c] == sizes[c] + DirTotal(p, c, Pow2(dim))
  {
    row := Zeros(Pow2(dim));
    next := sizes;
    for dir := 0 to Pow2(dim)
      invariant |row| == Pow2(dim) && |next| == dim + 1
      invariant forall d :: 0 <= d < dir ==>
        row[d] == RowEntry(p, dim, sizes, d)
      invariant forall c :: 0 <= c <= dim ==> next[c] == sizes[c] + DirTotal(p, c, dir)
    {
      var factor, codim := DirectionFactor(p, dir, dim);
      var row', next' := row[dir := next[codim]], next[codim := next[codim] + factor];
      CountStep(p, dim, sizes, row, next, dir, row', next');
      row, next := row', next';
    }
  }

  /** One direction more in CountPartition. */
  lemma {:induction false} CountStep(p: BasicPartition, dim: nat, sizes: seq<int>, row: seq<int>, next: seq<int>, dir: nat,
                                     row': seq<int>, next': seq<int>)
    requires ValidBasic(dim, p) && |sizes| == dim + 1 && |row| == Pow2(dim) && |next| == dim + 1 && dir < Pow2(dim)
    requires forall d :: 0 <= d < dir ==>
      row[d] == RowEntry(p, dim, sizes, d)
    requires forall c :: 0 <= c <= dim ==> next[c] == sizes[c] + DirTotal(p, c, dir)
    requires row' == row[dir := next[Directions.Codimension(dim, dir)]]
    requires next' == next[Directions.Codimension(dim, dir) := next[Directions.Codimension(dim, dir)] + Factor(p, dir)]
    ensures |row'| == Pow2(dim) && |next'| == dim + 1
    ensures forall d :: 0 <= d < dir + 1 ==>
      row'[d] == RowEntry(p, dim, sizes, d)
    ensures forall c :: 0 <= c <= dim ==> next'[c] == sizes[c] + DirTotal(p, c, dir + 1)
  {
  }

  /** The mixed-radix loop of `index`: the local index of id within its block, and its direction. */
  method LocalIndex(p: BasicPartition, id: MultiIndex) returns (index: int, dir: nat)
    requires ValidBasic(|id|, p)
    ensures dir == DirectionOf(id) && dir < Pow2(|id|)
    ensures index == MixedRadix(LocalCoords(p, id), Radices(p, id))
  {
    DirectionBound(id);
    ghost var x, b := LocalCoords(p, id), Radices(p, id);
    index := 0;
    var factor := 1;
    dir := 0;
    var j := 0;
    while j < |id|
      invariant j <= |id|
      invariant dir == DirectionOf(id[..j])
      invariant factor == Product(b[..j])
      invariant index == MixedRadix(x[..j], b[..j])
    {
      var d := id[j] % 2;
      DirectionSnoc(id[..j], id[j]);
      PrefixSnoc(id, j);
      var begin := Partitions.Bound(p, 0, j, d);
      var end := Partitions.Bound(p, 1, j, d);
      var idLocal := (id[j] - begin) / 2;
      var width := (end - begin) / 2 + 1;
      assert idLocal == x[j] && width == b[j];
      PrefixSnoc(x, j);
      PrefixSnoc(b, j);
      MixedRadixSnoc(x[..j], b[..j], idLocal, width);
      ProductSnoc(b[..j], width);
      dir := dir + d * Pow2(j);
      index := index + idLocal * factor;
      factor := factor * width;
      j := j + 1;
    }
    assert id[..j] == id && x[..j] == x && b[..j] == b;
  }
}
