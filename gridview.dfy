// SPGridView: a view of one grid level.  All copies of a view share one
// heap pair of an index set and a reference count; the index set is
// represented here by the grid level it is bound to (the index tables
// themselves are modelled in IndexSets).  Copies increment the count,
// destruction decrements it and frees the pair at zero, and `update`
// rebinds the shared index set, which every copy then sees.

module GridViews {
  import opened Errors
  import opened MultiIndices
  import opened Partitions
  import opened PartitionPools
  import opened GridLevels
  import opened Entities

  /** `std::pair<IndexSet, unsigned int>` on the heap. */
  class IndexSetPair {
    /** The grid level of `first`, null while the index set is unbound. */
    var level: GridLevel?
    /** `second`, the number of views sharing the pair. */
    var count: int

    /** `new IndexSetPair`: an unbound index set; the count is set by the view. */
    constructor ()
      ensures level == null && count == 0
    {
      level := null;
      count := 0;
    }
  }

  class GridView {
    /** `indexSet_`. */
    var shared: IndexSetPair

    /** `SPGridView()`: a fresh pair with an unbound index set and count 1. */
    constructor Default()
      ensures fresh(shared) && shared.level == null && shared.count == 1
    {
      var pair := new IndexSetPair();
      pair.count := 1;
      shared := pair;
    }

    /** `SPGridView(gridLevel)`: a fresh pair bound to the level, count 1. */
    constructor (gridLevel: GridLevel)
      ensures fresh(shared) && shared.level == gridLevel && shared.count == 1
    {
      var pair := new IndexSetPair();
      pair.level := gridLevel;
      pair.count := 1;
      shared := pair;
    }

    /** The copy constructors: the other view's pair, with one more reference. */
    constructor Copy(other: GridView)
      modifies other.shared
      ensures shared == other.shared && shared.level == old(other.shared.level)
      ensures shared.count == old(other.shared.count) + 1
    {
      shared := other.shared;
      new;
      shared.count := shared.count + 1;
    }

    /** `~SPGridView()`: one reference less; the pair is freed when none is left. */
    method Release() returns (freed: bool)
      modifies shared
      ensures shared.count == old(shared.count) - 1 && shared.level == old(shared.level)
      ensures freed <==> shared.count == 0
    {
      shared.count := shared.count - 1;
      freed := shared.count == 0;
    }

    /**
     * `operator=(other)`: the other pair gains a reference before the own
     * pair loses one, so assigning a view to itself (or to a copy) keeps
     * the count and never frees the pair in use.
     */
    method Assign(other: GridView) returns (freed: bool)
      requires shared.count >= 1
      modifies this, shared, other.shared
      ensures shared == old(other.shared) && shared.level == old(other.shared.level)
      ensures old(shared) == old(other.shared) ==> shared.count == old(shared.count) && !freed
      ensures old(shared) != old(other.shared) ==>
                shared.count == old(other.shared.count) + 1
                && old(shared).count == old(shared.count) - 1
                && (freed <==> old(shared).count == 0)
      ensures old(shared).level == old(shared.level)
    {
      var pair := other.shared;
      pair.count := pair.count + 1;
      shared.count := shared.count - 1;
      freed := shared.count == 0;
      shared := pair;
    }

    /** `gridLevel()`: the level of the shared index set. */
    function GridLevelOf(): (l: GridLevel)
      reads this, shared
      requires shared.level != null
      ensures l == shared.level
    {
      shared.level
    }

    /** `update(gridLevel)`: the shared index set is rebound to the level. */
    method Update(gridLevel: GridLevel)
      modifies shared
      ensures shared.level == gridLevel && shared.count == old(shared.count)
    {
      shared.level := gridLevel;
    }

    /**
     * `overlapSize(codim)`: for elements the overlap-front cells minus the
     * interior-border cells; NotImplemented for any other codimension.
     */
    function OverlapSize(codim: int): (r: Result<int>)
      reads this, shared
      requires codim == 0 ==> shared.level != null && shared.level.Valid()
      ensures codim != 0 <==> r == Err(NotImplemented)
      ensures codim == 0 ==>
                r == Ok(LevelVolume(GridLevelOf(), OverlapFrontPartition) - LevelVolume(GridLevelOf(), InteriorBorderPartition))
    {
      if codim != 0 then Err(NotImplemented)
      else Ok(LevelVolume(GridLevelOf(), OverlapFrontPartition) - LevelVolume(GridLevelOf(), InteriorBorderPartition))
    }

    /** `ghostSize(codim)`: for elements the cells of the ghost list; NotImplemented otherwise. */
    function GhostSize(codim: int): (r: Result<int>)
      reads this, shared
      requires codim == 0 ==> shared.level != null && shared.level.Valid()
      ensures codim != 0 <==> r == Err(NotImplemented)
      ensures codim == 0 ==> r == Ok(0)
    {
      if codim != 0 then Err(NotImplemented)
      else
        GhostListEmpty(GridLevelOf());
        Ok(LevelVolume(GridLevelOf(), GhostPartition))
    }

    /** `ibegin(entity)`: the intersection on face 0 of the element. */
    function IBegin(entity: Entity): (it: IntersectionPosition)
      reads entity, entity.info
      ensures it == entity.ILevelBegin() && it.face == 0
    {
      IntersectionPosition(entity.info.gridLevel, entity.info.id, entity.info.partitionNumber, 0)
    }

    /** `iend(entity)`: the intersection one past the last face, numFaces = 2 * dim. */
    function IEnd(entity: Entity): (it: IntersectionPosition)
      reads entity, entity.info
      ensures it == entity.ILevelEnd() && it.face == 2 * entity.info.dim
    {
      IntersectionPosition(entity.info.gridLevel, entity.info.id, entity.info.partitionNumber, 2 * entity.info.dim)
    }
  }

  /** The number of cells of a list of partitions: the sum of their volumes. */
  function ListVolume(ps: seq<Partition>, dim: nat): (v: int)
    requires AllFit(ps, dim)
    ensures v >= 0
    ensures ps == [] ==> v == 0
  {
    if ps == [] then 0
    else
      var last := ps[|ps| - 1];
      assert ValidBasic(dim, last.base);
      ListVolume(ps[..|ps| - 1], dim) + Volume(last.base)
  }

  /** The volume of two lists joined is the sum of their volumes. */
  lemma {:induction false} ListVolumeAppend(a: seq<Partition>, b: seq<Partition>, dim: nat)
    requires AllFit(a, dim) && AllFit(b, dim)
    ensures AllFit(a + b, dim)
    ensures ListVolume(a + b, dim) == ListVolume(a, dim) + ListVolume(b, dim)
    decreases |b|
  {
    assert AllFit(a + b, dim) by {
      forall k | 0 <= k < |a + b|
        ensures ValidBasic(dim, (a + b)[k].base)
      {
        if k >= |a| {
          assert (a + b)[k] == b[k - |a|];
        }
      }
    }
    if b != [] {
      var n := |b| - 1;
      assert (a + b)[..|a + b| - 1] == a + b[..n];
      assert AllFit(b[..n], dim) by {
        assert forall k :: 0 <= k < n ==> b[..n][k] == b[k];
      }
      ListVolumeAppend(a, b[..n], dim);
      assert (a + b)[|a + b| - 1] == b[n];
    } else {
      assert a + b == a;
    }
  }

  /** The volume of the list of one type of a level's partition pool. */
  function LevelVolume(l: GridLevel, pitype: int): (v: int)
    requires l.Valid() && InteriorPartition <= pitype <= GhostPartition
    ensures v >= 0
    ensures v == ListVolume(l.PartitionOf(pitype).value, l.dim)
  {
    PoolContentsFit(l.localMesh, l.globalMesh, Zeros(l.dim), 0);
    ListVolume(l.PartitionOf(pitype).value, l.dim)
  }

  /** The ghost list of a level built without overlap is empty. */
  lemma {:induction false} GhostListEmpty(l: GridLevel)
    requires l.Valid()
    ensures l.PartitionOf(GhostPartition) == Ok([])
    ensures LevelVolume(l, GhostPartition) == 0
  {
  }

  /**
   * The partners of `overlapSize` and `ghostSize`: every level builds its
   * pool without overlap, so once its local mesh lies inside the global
   * one a view of it has no overlap and no ghost elements.
   */
  lemma {:induction false} NoOverlapElements(v: GridView)
    requires v.shared.level != null && v.shared.level.Valid()
    requires Inside(v.shared.level.localMesh, v.shared.level.globalMesh)
    ensures v.OverlapSize(0) == Ok(0) && v.GhostSize(0) == Ok(0)
  {
    var l := v.shared.level;
    PoolWithoutOverlap(l.localMesh, l.globalMesh);
  }

  /**
   * Rebinding one view of a family of copies: all of them share the pair,
   * so each one's `gridLevel()` is the new level afterwards.
   */
  method UpdateShared(views: seq<GridView>, v: GridView, gridLevel: GridLevel)
    requires v in views && forall w :: w in views ==> w.shared == v.shared
    modifies v.shared
    ensures forall w :: w in views ==> w.shared.level == gridLevel && w.GridLevelOf() == gridLevel
  {
    v.Update(gridLevel);
  }
}
