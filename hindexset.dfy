// SPHierarchyIndexSet: one index range for all levels together.  The levels
// are stacked per codimension: level l's indices of codimension c start
// where level l - 1's end, so an entity's hierarchic index is its level's
// offset plus its level index.

module HierarchyIndexSets {
  import opened Bits
  import opened MultiIndices
  import opened Partitions
  import opened CachedPartitionLists
  import opened ReferenceCubes
  import opened IndexSets

  /** Every level has one size per codimension 0 .. dim. */
  predicate Rows(ls: seq<seq<int>>, dim: nat)
  {
    forall m :: 0 <= m < |ls| ==> |ls[m]| == dim + 1
  }

  /** No level has a negative size (the sizes are unsigned). */
  predicate NonNegativeRows(ls: seq<seq<int>>, dim: nat)
    requires Rows(ls, dim)
  {
    forall m, c :: 0 <= m < |ls| && 0 <= c <= dim ==> ls[m][c] >= 0
  }

  /** The sizes of codimension c of the levels below l, added up. */
  function Stacked(ls: seq<seq<int>>, dim: nat, l: nat, c: nat): int
    requires Rows(ls, dim) && l <= |ls| && c <= dim
  {
    if l == 0 then 0 else Stacked(ls, dim, l - 1, c) + ls[l - 1][c]
  }

  /** The running totals of all codimensions before level l: the offsets of level l. */
  function StackedRow(ls: seq<seq<int>>, dim: nat, l: nat): (row: seq<int>)
    requires Rows(ls, dim) && l <= |ls|
    ensures |row| == dim + 1 && forall c :: 0 <= c <= dim ==> row[c] == Stacked(ls, dim, l, c)
  {
    seq(dim + 1, c requires 0 <= c <= dim => Stacked(ls, dim, l, c))
  }

  /** Adding level l's sizes to the totals before level l gives the totals before level l + 1. */
  lemma {:induction false} StackedRowStep(ls: seq<seq<int>>, dim: nat, l: nat, next: seq<int>)
    requires Rows(ls, dim) && l < |ls|
    requires |next| == dim + 1 && forall c :: 0 <= c <= dim ==> next[c] == StackedRow(ls, dim, l)[c] + ls[l][c]
    ensures next == StackedRow(ls, dim, l + 1)
  {
    var r := StackedRow(ls, dim, l + 1);
    forall c | 0 <= c <= dim
      ensures next[c] == r[c]
    {
      assert next[c] == StackedRow(ls, dim, l)[c] + ls[l][c];
    }
  }

  /** The sizes of the level index sets, level by level. */
  function SizesOf(levels: seq<IndexSet>): (ls: seq<seq<int>>)
    reads levels
    ensures |ls| == |levels| && forall m :: 0 <= m < |levels| ==> ls[m] == levels[m].sizes
  {
    seq(|levels|, m requires 0 <= m < |levels| reads levels => levels[m].sizes)
  }

  lemma {:induction false} StackedMonotone(ls: seq<seq<int>>, dim: nat, c: nat, a: nat, b: nat)
    requires Rows(ls, dim) && NonNegativeRows(ls, dim) && a < b <= |ls| && c <= dim
    ensures Stacked(ls, dim, a, c) + ls[a][c] <= Stacked(ls, dim, b, c)
    decreases b
  {
    if a + 1 < b {
      StackedMonotone(ls, dim, c, a, b - 1);
    }
  }

  /** The hierarchic index of an entity of level l is below the total size. */
  lemma {:induction false} HierarchicBelowSize(ls: seq<seq<int>>, dim: nat, l: nat, c: nat, i: int)
    requires Rows(ls, dim) && NonNegativeRows(ls, dim) && l < |ls| && c <= dim
    requires 0 <= i < ls[l][c]
    ensures 0 <= Stacked(ls, dim, l, c) + i < Stacked(ls, dim, |ls|, c)
  {
    StackedMonotone(ls, dim, c, l, |ls|);
    if l > 0 {
      StackedMonotone(ls, dim, c, 0, l);
    }
  }

  /**
   * Level ranges do not overlap: equal hierarchic indices of one
   * codimension come from the same level and the same level index.
   */
  lemma {:induction false} HierarchicInjective(ls: seq<seq<int>>, dim: nat, c: nat, l1: nat, i1: int, l2: nat, i2: int)
    requires Rows(ls, dim) && NonNegativeRows(ls, dim) && l1 < |ls| && l2 < |ls| && c <= dim
    requires 0 <= i1 < ls[l1][c] && 0 <= i2 < ls[l2][c]
    requires Stacked(ls, dim, l1, c) + i1 == Stacked(ls, dim, l2, c) + i2
    ensures l1 == l2 && i1 == i2
  {
    if l1 < l2 {
      StackedMonotone(ls, dim, c, l1, l2);
    } else if l2 < l1 {
      StackedMonotone(ls, dim, c, l2, l1);
    }
  }

  /** The level guard of `levelIndexSet` as written: `level <= size`. */
  predicate LevelInRangeAsWritten(level: int, count: nat)
  {
    level >= 0 && level <= count
  }

  /** The guard admits level == size, one past the last stored level index set. */
  lemma AsWrittenGuardAdmitsPastEnd(count: nat)
    ensures LevelInRangeAsWritten(count, count) && !(count < count)
  {
  }

  /** The guard evidently intended: `level < size`. */
  predicate LevelInRange(level: int, count: nat)
  {
    level >= 0 && level < count
  }

  /** The intended guard admits exactly the stored positions, and is stricter than the written one. */
  lemma {:induction false} LevelGuardCorrected(level: int, count: nat)
    ensures LevelInRange(level, count) ==> LevelInRangeAsWritten(level, count)
    ensures LevelInRangeAsWritten(level, count) && level != count ==> LevelInRange(level, count)
  {
  }

  class HierarchyIndexSet {
    const dim: nat
    /** `levelIndexSets_`. */
    var levelSets: seq<IndexSet>
    var offsets: seq<seq<int>>
    var sizes: seq<int>

    /** `SPHierarchyIndexSet(grid)`: no level yet and every size zero. */
    constructor (dim: nat)
      ensures this.dim == dim && levelSets == [] && offsets == [] && sizes == Zeros(dim + 1)
    {
      this.dim := dim;
      levelSets := [];
      offsets := [];
      sizes := Zeros(dim + 1);
    }

    /**
     * `update()`: the level index sets of levels 0 .. maxLevel are stored,
     * and for each level and codimension the running total of the sizes
     * becomes the level's offset before the level's size is added.
     */
    method Update(levels: seq<IndexSet>)
      requires forall m :: 0 <= m < |levels| ==> |levels[m].sizes| == dim + 1
      modifies this
      ensures levelSets == levels
      ensures Rows(SizesOf(levels), dim)
      ensures |offsets| == |levels| && forall l :: 0 <= l < |levels| ==> offsets[l] == StackedRow(SizesOf(levels), dim, l)
      ensures sizes == StackedRow(SizesOf(levels), dim, |levels|)
    {
      ghost var ls := SizesOf(levels);
      assert Rows(ls, dim);
      var totals := Zeros(dim + 1);
      assert totals == StackedRow(ls, dim, 0);
      var table: seq<seq<int>> := [];
      for level := 0 to |levels|
        invariant totals == StackedRow(ls, dim, level)
        invariant |table| == level && forall l :: 0 <= l < level ==> table[l] == StackedRow(ls, dim, l)
      {
        var levelSizes := levels[level].sizes;
        var row, next := StackLevel(totals, levelSizes);
        StackedRowStep(ls, dim, level, next);
        table := table + [row];
        totals := next;
      }
      levelSets, offsets, sizes := levels, table, totals;
    }

    /** `levelIndexSet(level)`, with the guard `level < size` and the stored count checked against maxLevel + 1. */
    function LevelIndexSet(level: int, maxLevel: int): (s: IndexSet)
      reads this
      requires LevelInRange(level, |levelSets|) && |levelSets| == maxLevel + 1
      ensures s in levelSets && s == levelSets[level]
    {
      levelSets[level]
    }

    /**
     * `index(entity)` of an entity of codimension codim on level `level`:
     * the level's offset plus the level index set's index of the id.
     */
    method Index(level: nat, codim: nat, id: MultiIndex, number: nat) returns (index: int)
      requires level < |levelSets| && level < |offsets| && Rows(offsets, dim) && codim <= dim
      requires ghost var ix := levelSets[level];
        ix.dim == dim && ix.Indexable(id, number)
      ensures ghost var ix := levelSets[level];
        ix.Describes() ==>
          index == offsets[level][codim] + ix.TableIndex(id, number)
    {
      var offset := offsets[level][codim];
      var local := levelSets[level].Index(id, number);
      index := offset + local;
    }

    /**
     * `subIndex(entity, i, codim)` of an entity of codimension cd on level
     * `level`: the offset of the target codimension plus the level index
     * set's sub-index.
     */
    method SubIndex(level: nat, id: MultiIndex, cd: nat, i: nat, codim: nat, number: nat, refCube: ReferenceCube) returns (index: int)
      requires level < |levelSets| && level < |offsets| && Rows(offsets, dim)
      requires |id| == dim && OddCount(id) == dim - cd && cd <= codim <= dim
      requires refCube.Valid() && refCube.dim == dim - cd && i < NumSubEntities(dim - cd, codim - cd)
      requires levelSets[level].dim == dim && levelSets[level].Indexable(SubEntityOf(id, cd, codim, i), number)
      ensures levelSets[level].Describes() ==>
        index == offsets[level][codim] + levelSets[level].TableIndex(SubEntityOf(id, cd, codim, i), number)
    {
      var offset := offsets[level][codim];
      var local := levelSets[level].SubIndex(id, cd, i, codim, number, refCube);
      index := offset + local;
    }

    /** `size(codim)`. */
    function Size(codim: int): (n: int)
      reads this
      requires |sizes| == dim + 1 && 0 <= codim <= dim
      ensures n == sizes[codim]
    {
      sizes[codim]
    }

    /** `size(type)`: zero for a type that is no cube. */
    function SizeOfType(t: GeometryType): (n: int)
      reads this
      requires |sizes| == dim + 1 && (t.isCube ==> t.dim <= dim)
      ensures t.isCube ==> n == Size(dim - t.dim)
      ensures !t.isCube ==> n == 0
    {
      TypeSize(sizes, dim, t)
    }

    /** `types(codim)`: the one cube type of dimension dim - codim. */
    function Types(codim: int): (ts: seq<GeometryType>)
      requires 0 <= codim <= dim
      ensures |ts| == 1 && ts[0].isCube && ts[0].dim + codim == dim
    {
      CubeTypes(dim, codim)
    }

    /** `contains(entity)`: every entity of the grid is indexed. */
    predicate Contains(entityLevel: int)
    {
      true
    }
  }

  /**
   * The inner loop of `update` for one level: the row of offsets is the
   * running total per codimension, which then grows by the level's size.
   */
  method StackLevel(totals: seq<int>, levelSizes: seq<int>) returns (row: seq<int>, next: seq<int>)
    requires |levelSizes| == |totals|
    ensures row == totals
    ensures |next| == |totals| && forall c :: 0 <= c < |totals| ==> next[c] == totals[c] + levelSizes[c]
  {
    row := [];
    next := totals;
    for codim := 0 to |totals|
      invariant |row| == codim && forall c :: 0 <= c < codim ==> row[c] == totals[c]
      invariant |next| == |totals|
      invariant forall c :: 0 <= c < |totals| ==> next[c] == totals[c] + (if c < codim then levelSizes[c] else 0)
    {
      row := row + [next[codim]];
      next := next[codim := next[codim] + levelSizes[codim]];
    }
  }
}
