// SPGrid: the chain of grid levels from the macro level down to the leaf
// level, the level views bound to them, global refinement and the
// numbering of the boundary segments of the macro level.

module Grids {
  import opened Bits
  import opened MultiIndices
  import opened Meshes
  import opened Decompositions
  import opened Errors
  import opened Policies
  import opened Refinements
  import opened RefinementOps
  import opened Partitions
  import opened CachedPartitionLists
  import opened PartitionPools
  import opened GridLevels
  import opened BoundaryIndices
  import IndexSets

  /** The policy suits the grid's refinement class (a template parameter in the source). */
  predicate PolicyFits(dim: nat, kind: Kind, policy: Policy)
  {
    ValidRefinement(dim, Refinement(kind, policy)) && (kind == BisectionKind ==> dim >= 1)
  }

  /** The cell widths of a refined level: each width divided by the axis's factor. */
  function ChildWidths(h: seq<real>, f: seq<int>): (c: seq<real>)
    requires |f| == |h| && ValidFactors(f)
    ensures |c| == |h| && forall i :: 0 <= i < |h| ==> c[i] * (f[i] as real) == h[i]
  {
    seq(|h|, i requires 0 <= i < |h| => h[i] / (f[i] as real))
  }

  /** The overlap-front list of a level's pool has valid partitions with distinct unsigned numbers. */
  lemma {:induction false} MacroFrontValid(local: Mesh, global: Mesh)
    requires SameDim(local, global) && |local.begin| < 31
    ensures ghost var ps := PoolContents(local, global, Zeros(|local.begin|), 0)[OverlapFrontPartition];
      AllValidPartitions(ps, |global.begin|) && DistinctNumbers(ps) && UnsignedNumbers(ps)
  {
    var st := PoolSplit(local, global, Zeros(|local.begin|), 0);
    SplitAxesFacts(Meshes.Grown(local, Zeros(|local.begin|)), global, 0, |local.begin|);
    PieceNumbers(false, global, 0, st);
  }

  /**
   * The work of `setupMacroGrid()`: the macro level of this rank in the
   * decomposition of the cells over the processes, the overlap-front list
   * of its pool, and the boundary numbering built on that list.
   */
  method SetupMacroGrid(cells: MultiIndex, commSize: nat, rank: nat, h: seq<real>)
    returns (leaf: GridLevel, ps: seq<Partition>, size: int, offsets: seq<seq<int>>)
    requires |h| == |cells| && |cells| < 31
    requires rank < commSize && (commSize > 1 ==> |cells| >= 1)
    ensures fresh(leaf) && Hierarchy([leaf], |cells|) && leaf.refinement.None?
    ensures leaf.globalMesh == MeshOfWidth(cells)
    ensures MacroNumbering(leaf.localMesh, leaf.globalMesh, |cells|, ps, offsets, size)
  {
    var global := MeshOfWidth(cells);
    var d := MakeDecomposition(global, commSize);
    BuildLeavesValid(global, commSize);
    leaf := new GridLevel.Macro(|cells|, d, rank, h);
    ps := leaf.PartitionOf(OverlapFrontPartition).value;
    MacroHierarchy(leaf);
    MacroFrontValid(leaf.localMesh, leaf.globalMesh);
    size, offsets := SetupBoundaryIndices(ps, |cells|);
  }

  /**
   * child was refined from father by the policy: with the father's own
   * refinement, or with the grid's refinement when the father is the
   * macro level (which has none).
   */
  ghost predicate RefinedBy(dim: nat, father: GridLevel, child: GridLevel, macroRefinement: Refinement, policy: Policy)
  {
    var base := if father.refinement.Some? then father.refinement.value else macroRefinement;
    ValidRefinement(dim, base) && PolicyFits(dim, base.kind, policy)
    && child.refinement == Some(ChildRefinement(dim, base, policy))
  }

  /** Appending a level refined from the last one keeps every level from n0 on refined from its father. */
  lemma {:induction false} RefinedStep(before: seq<GridLevel>, after: seq<GridLevel>, n0: nat, dim: nat, macroRefinement: Refinement, policy: Policy)
    requires 1 <= n0 <= |before| && |after| == |before| + 1 && after[..|before|] == before
    requires forall k :: n0 <= k < |before| ==> RefinedBy(dim, before[k - 1], before[k], macroRefinement, policy)
    requires RefinedBy(dim, after[|before| - 1], after[|before|], macroRefinement, policy)
    ensures forall k :: n0 <= k < |after| ==> RefinedBy(dim, after[k - 1], after[k], macroRefinement, policy)
  {
    forall k | n0 <= k < |after|
      ensures RefinedBy(dim, after[k - 1], after[k], macroRefinement, policy)
    {
      if k < |before| {
        assert after[k - 1] == before[k - 1] && after[k] == before[k];
      }
    }
  }

  class Grid {
    const dim: nat
    /** The refinement the macro level is default-constructed with. */
    const macroRefinement: Refinement
    /** `globalMesh_`: the mesh of the given cells. */
    const globalMesh: Mesh
    const overlap: MultiIndex
    /** The macro level, `gridLevels_.front()`. */
    const macro: GridLevel
    /** `gridLevels_`, from the macro level down. */
    var levels: seq<GridLevel>
    /** `levelGridViews_`: the grid level each level view is bound to. */
    var levelViews: seq<GridLevel>
    /** `leafGridView_`: the grid level the leaf view is bound to. */
    var leafView: GridLevel
    /** The overlap-front list of the macro level, which the boundary numbering is built on. */
    const front: seq<Partition>
    const boundarySize: int
    const boundaryOffset: seq<seq<int>>

    /**
     * The levels form a hierarchy of this grid's dimension and refinement
     * class starting at the macro level, and the k-th level view is bound
     * to the k-th level.
     */
    ghost predicate Levels()
      reads this, levels
    {
      Hierarchy(levels, dim) && levels[0] == macro && levelViews == levels
      && (forall k :: 0 <= k < |levels| ==> levels[k].refinement.Some? ==> levels[k].refinement.value.kind == macroRefinement.kind)
    }

    /** The levels and level views are in place and the leaf view is bound to the leaf level. */
    ghost predicate Valid()
      reads this, levels
    {
      Levels() && leafView == levels[|levels| - 1]
    }

    /** The grid's refinement class is valid for its dimension. */
    ghost predicate Refines()
    {
      ValidRefinement(dim, macroRefinement) && (macroRefinement.kind == BisectionKind ==> dim >= 1)
    }

    /**
     * The macro level spans the global mesh, and the boundary table and
     * total are those of its overlap-front list.
     */
    ghost predicate Numbered()
    {
      macro.globalMesh == globalMesh
      && MacroNumbering(macro.localMesh, macro.globalMesh, dim, front, boundaryOffset, boundarySize)
    }

    /**
     * `SPGrid(domain, cells, overlap, comm)` with `setupMacroGrid()`: the
     * cells are decomposed over the processes, the macro level of this rank
     * is the only level, both views are bound to it, and the boundary
     * segments are numbered.
     */
    constructor (cells: MultiIndex, overlap: MultiIndex, commSize: nat, rank: nat, h: seq<real>, macroRefinement: Refinement)
      requires |overlap| == |cells| && |h| == |cells| && |cells| < 31
      requires rank < commSize && (commSize > 1 ==> |cells| >= 1)
      requires ValidRefinement(|cells|, macroRefinement) && (macroRefinement.kind == BisectionKind ==> |cells| >= 1)
      ensures Valid() && Refines() && Numbered() && dim == |cells| && this.overlap == overlap && this.macroRefinement == macroRefinement
      ensures |levels| == 1 && fresh(levels[0]) && MaxLevel() == 0
      ensures levels[0].globalMesh == MeshOfWidth(cells)
    {
      var leaf, ps, size, offsets := SetupMacroGrid(cells, commSize, rank, h);
      dim := |cells|;
      this.macroRefinement := macroRefinement;
      globalMesh := leaf.globalMesh;
      macro := leaf;
      this.overlap := overlap;
      levels := [leaf];
      levelViews := [leaf];
      leafView := leaf;
      front := ps;
      boundarySize := size;
      boundaryOffset := offsets;
    }

    /** `maxLevel()`: the level of the leaf level. */
    function MaxLevel(): (l: int)
      reads this, levels
      requires Valid()
      ensures l == |levels| - 1
    {
      levels[|levels| - 1].level
    }

    /** `gridLevel(level)`, asserting 0 <= level < the number of levels. */
    function GridLevelAt(level: int): (l: GridLevel)
      reads this, levels
      requires Valid() && 0 <= level < |levels|
      ensures l in levels && l.level == level && l.Valid() && l.dim == dim
    {
      LevelValid(levels, dim, level);
      levels[level]
    }

    /** `leafLevel()`, asserting that there is a level: the one without a child. */
    function LeafLevel(): (l: GridLevel)
      reads this, levels
      requires Valid()
      ensures l in levels && l.child == null && l.level == MaxLevel()
    {
      levels[|levels| - 1]
    }

    /** `levelGridView(level)`, asserting 0 <= level <= maxLevel(): the grid level that view is bound to. */
    function LevelGridView(level: int): (l: GridLevel)
      reads this, levels
      requires Valid() && 0 <= level <= MaxLevel()
      ensures l == GridLevelAt(level)
    {
      levelViews[level]
    }

    /** `leafGridView()`: bound to the leaf level. */
    function LeafGridView(): (l: GridLevel)
      reads this, levels
      requires Valid()
      ensures l == LeafLevel()
    {
      leafView
    }

    /** `mark(refCount, e)`: local adaptation is not supported. */
    function Mark(refCount: int): (marked: bool)
      ensures !marked
    {
      false
    }

    /** `getMark(e)`. */
    function GetMark(): (m: int)
      ensures m == 0
    {
      0
    }

    /** `preAdapt()`: nothing will be coarsened. */
    function PreAdapt(): (b: bool)
      ensures !b
    {
      false
    }

    /** `adapt()` and `adapt(handle)`: nothing is refined. */
    function Adapt(): (b: bool)
      ensures !b
    {
      false
    }

    /** `postAdapt()`. */
    method PostAdapt()
      ensures unchanged(this)
    {
    }

    /**
     * One round of `globalRefine`: a level refined from the leaf level by
     * the policy is appended together with its level view.
     */
    method AppendLevel(policy: Policy)
      requires Levels() && Refines() && PolicyFits(dim, macroRefinement.kind, policy)
      modifies this, levels[|levels| - 1]
      ensures Levels() && leafView == old(leafView)
      ensures |levels| == old(|levels|) + 1 && levels[..old(|levels|)] == old(levels) && fresh(levels[|levels| - 1])
      ensures RefinedBy(dim, levels[|levels| - 2], levels[|levels| - 1], macroRefinement, policy)
    {
      var leaf := levels[|levels| - 1];
      var fatherRefinement := if leaf.IsMacro() then macroRefinement else leaf.LevelRefinement();
      var r := ChildRefinement(dim, fatherRefinement, policy);
      var child := RefineLeaf(levels, dim, r, ChildWidths(leaf.h, RefFactors(dim, r)));
      levels := levels + [child];
      levelViews := levelViews + [child];
    }

    /**
     * `globalRefine(refCount, policy)`: refCount times, a level refined from
     * the leaf level by the policy is appended together with its level
     * view; then the leaf view is bound to the new leaf level.
     */
    method GlobalRefine(refCount: int, policy: Policy)
      requires Valid() && Refines() && PolicyFits(dim, macroRefinement.kind, policy)
      modifies this, levels
      ensures Valid()
      ensures |levels| == old(|levels|) + (if refCount > 0 then refCount else 0)
      ensures levels[..old(|levels|)] == old(levels)
      ensures forall k :: old(|levels|) <= k < |levels| ==>
        RefinedBy(dim, levels[k - 1], levels[k], macroRefinement, policy)
    {
      ghost var n0 := |levels|;
      var i := 0;
      while i < refCount
        invariant Levels() && (i <= refCount || i == 0)
        invariant |levels| == n0 + i && levels[..n0] == old(levels)
        invariant i > 0 ==> fresh(levels[|levels| - 1])
        invariant forall k :: n0 <= k < |levels| ==>
          RefinedBy(dim, levels[k - 1], levels[k], macroRefinement, policy)
        decreases refCount - i
      {
        ghost var before := levels;
        AppendLevel(policy);
        RefinedStep(before, levels, n0, dim, macroRefinement, policy);
        i := i + 1;
      }
      leafView := levels[|levels| - 1];
    }

    /** `numBoundarySegments()`: the segments of every boundary face of the macro level's overlap-front list. */
    function NumBoundarySegments(): (n: int)
      requires Numbered()
      ensures n == ListSegments(front, dim, |front|)
    {
      boundarySize
    }

    /**
     * `boundaryIndex(macroId, partitionNumber, face)`, asserting 0 <= face <
     * 2*dim and that the macro cell lies on the face of the partition with
     * that number: the face's offset plus the mixed-radix position of the
     * cell on the face.  On a boundary face the index is a segment number,
     * below numBoundarySegments().
     */
    method BoundaryIndex(macroId: MultiIndex, partitionNumber: nat, face: int) returns (index: int)
      requires Numbered() && |macroId| == dim && 0 <= face < 2 * dim
      requires exists k :: 0 <= k < |front| && front[k].number == partitionNumber
      requires OnFace(front[IndexSets.LastWith(front, partitionNumber)], dim, macroId, face)
      ensures ghost var k := IndexSets.LastWith(front, partitionNumber);
        index == FaceOffset(front, dim, k, face) + LocalSegment(front[k], dim, macroId, face)
      ensures ghost var k := IndexSets.LastWith(front, partitionNumber);
        AllNonEmpty(front, dim) && Boundary(front[k], face) ==> 0 <= index < NumBoundarySegments()
    {
      index := SegmentIndex(front, dim, boundaryOffset, boundarySize, macroId, partitionNumber, face);
    }
  }
}
