// SPEntityInfo: what an entity of codimension `codim` is made of: the grid
// level it lives on (by identity), its multi-index, the direction of that
// index and the number of the partition it was found in.  Iterators and
// entities move an info through the hierarchy with `up`, `down` and
// `nextChild`, which apply the refinement of a level to the index.

module EntityInfos {
  import opened Bits
  import opened MultiIndices
  import opened Directions
  import opened Refinements
  import opened RefinementOps
  import opened Partitions
  import opened PartitionPools
  import opened GridLevels

  /** `contains(id, number)` of a partition list: the partition with that number holds the id. */
  predicate Listed(ps: seq<Partition>, id: MultiIndex, number: nat)
  {
    exists k :: 0 <= k < |ps| && ps[k].number == number && ValidBasic(|id|, ps[k].base) && Contains(ps[k].base, id)
  }

  /** What the assertions of `update()` demand of an id on a level. */
  ghost predicate Placeable(l: GridLevel, codim: nat, id: MultiIndex, number: nat)
  {
    l.Valid() && |id| == l.dim && codim <= l.dim
    && (forall i :: 0 <= i < |id| ==> id[i] != MaxInt)
    && Listed(PoolContents(l.localMesh, l.globalMesh, Zeros(l.dim), 0)[AllPartition], id, number)
    && (codim == l.dim ==> DirectionOf(id) == 0)
    && (codim == 0 ==> DirectionOf(id) == Pow2(l.dim) - 1)
  }

  /** The level k of a grid's hierarchy is `l`: what `grid.gridLevel(level)` finds. */
  ghost predicate AtLevel(levels: seq<GridLevel>, dim: nat, l: GridLevel?)
    reads levels
  {
    Hierarchy(levels, dim) && l != null && l.level < |levels| && levels[l.level] == l
  }

  class EntityInfo {
    const dim: nat
    const codim: nat
    /** `gridLevel_`: null for a default-constructed info. */
    var gridLevel: GridLevel?
    var id: MultiIndex
    /** `direction_`, the bit pattern of the odd components of the id. */
    var direction: nat
    var partitionNumber: nat

    /** The index has the grid's dimension and the level, when set, is of that dimension. */
    predicate Shaped()
      reads this
    {
      codim <= dim && |id| == dim && (gridLevel != null ==> gridLevel.dim == dim)
    }

    /**
     * `EntityInfo()`: no level and partition number UINT_MAX.  The id,
     * which C++ leaves uninitialised, is zero here.
     */
    constructor Empty(dim: nat, codim: nat)
      requires codim <= dim
      ensures this.dim == dim && this.codim == codim && Shaped()
      ensures gridLevel == null && partitionNumber == MaxUnsigned
      ensures direction == DefaultEntityDirection(dim, dim - codim)
    {
      this.dim := dim;
      this.codim := codim;
      gridLevel := null;
      id := Zeros(dim);
      direction := DefaultEntityDirection(dim, dim - codim);
      partitionNumber := MaxUnsigned;
    }

    /** `EntityInfo(gridLevel)`: bound to the level, partition number UINT_MAX. */
    constructor OnLevel(gridLevel: GridLevel, codim: nat)
      requires codim <= gridLevel.dim
      ensures dim == gridLevel.dim && this.codim == codim && Shaped()
      ensures this.gridLevel == gridLevel && partitionNumber == MaxUnsigned
      ensures direction == DefaultEntityDirection(dim, dim - codim)
    {
      dim := gridLevel.dim;
      this.codim := codim;
      this.gridLevel := gridLevel;
      id := Zeros(gridLevel.dim);
      direction := DefaultEntityDirection(gridLevel.dim, gridLevel.dim - codim);
      partitionNumber := MaxUnsigned;
    }

    /**
     * `EntityInfo(gridLevel, id, partitionNumber)`: the direction is that of
     * the id (the vertex and element directions assert their constant).
     */
    constructor (gridLevel: GridLevel, codim: nat, id: MultiIndex, partitionNumber: nat)
      requires codim <= gridLevel.dim && |id| == gridLevel.dim
      requires codim == gridLevel.dim ==> DirectionOf(id) == 0
      requires codim == 0 ==> DirectionOf(id) == Pow2(gridLevel.dim) - 1
      ensures dim == gridLevel.dim && this.codim == codim && Shaped()
      ensures this.gridLevel == gridLevel && this.id == id && this.partitionNumber == partitionNumber
      ensures direction == DirectionOf(id)
    {
      dim := gridLevel.dim;
      this.codim := codim;
      this.gridLevel := gridLevel;
      this.id := id;
      direction := EntityDirection(gridLevel.dim, gridLevel.dim - codim, id);
      this.partitionNumber := partitionNumber;
    }

    /** The copy constructor: the same level, id, direction and number. */
    constructor Copy(other: EntityInfo)
      ensures dim == other.dim && codim == other.codim && gridLevel == other.gridLevel
      ensures id == other.id && direction == other.direction && partitionNumber == other.partitionNumber
    {
      dim := other.dim;
      codim := other.codim;
      gridLevel := other.gridLevel;
      id := other.id;
      direction := other.direction;
      partitionNumber := other.partitionNumber;
    }

    /** Assignment of `EntityInfo()`: no level and partition number UINT_MAX. */
    method Clear()
      requires codim <= dim
      modifies this
      ensures Shaped() && gridLevel == null && partitionNumber == MaxUnsigned
      ensures id == Zeros(dim) && direction == DefaultEntityDirection(dim, dim - codim)
    {
      gridLevel := null;
      id := Zeros(dim);
      direction := DefaultEntityDirection(dim, dim - codim);
      partitionNumber := MaxUnsigned;
    }

    /** `equals(other)`: the same level, by identity, and the same id. */
    predicate Equals(other: EntityInfo)
      reads this, other
      requires gridLevel != null && other.gridLevel != null
      ensures Equals(other) ==> Level() == other.Level()
    {
      gridLevel == other.gridLevel && id == other.id
    }

    /** `level()` of the info's grid level. */
    function Level(): (l: nat)
      reads this
      requires gridLevel != null
      ensures l == gridLevel.level
    {
      gridLevel.level
    }

    /** `update()`: asserts that the id is placeable and recomputes the direction. */
    method Update()
      requires Shaped() && gridLevel != null && Placeable(gridLevel, codim, id, partitionNumber)
      modifies this
      ensures direction == DirectionOf(id)
      ensures gridLevel == old(gridLevel) && id == old(id) && partitionNumber == old(partitionNumber)
    {
      direction := EntityDirection(dim, dim - codim, id);
    }

    /** `update(partitionNumber)`: stores the number, then `update()`. */
    method UpdateNumber(number: nat)
      requires Shaped() && gridLevel != null && Placeable(gridLevel, codim, id, number)
      modifies this
      ensures partitionNumber == number && direction == DirectionOf(id)
      ensures gridLevel == old(gridLevel) && id == old(id)
    {
      partitionNumber := number;
      Update();
    }

    /**
     * `up()`: the father rule of the current level's refinement (which
     * asserts that this is not the macro level) applied to the id, then the
     * level one coarser.  The direction is not recomputed.
     */
    method Up(levels: seq<GridLevel>)
      requires Shaped() && AtLevel(levels, dim, gridLevel) && gridLevel.level > 0
      modifies this
      ensures Shaped() && AtLevel(levels, dim, gridLevel) && old(gridLevel).Valid() && gridLevel.Valid()
      ensures gridLevel == old(gridLevel).father && gridLevel.level == old(gridLevel.level) - 1
      ensures id == RefFather(dim, old(gridLevel).LevelRefinement(), old(id))
      ensures direction == old(direction) && partitionNumber == old(partitionNumber)
    {
      var l := gridLevel.level;
      LevelValid(levels, dim, l);
      LevelValid(levels, dim, l - 1);
      assert levels[l].father == levels[l - 1];
      id := RefFather(dim, gridLevel.LevelRefinement(), id);
      gridLevel := levels[l - 1];
    }

    /**
     * `down()`: the level one finer (which `gridLevel(level + 1)` asserts
     * exists), then the first-child rule of that level's refinement.
     */
    method Down(levels: seq<GridLevel>)
      requires Shaped() && AtLevel(levels, dim, gridLevel) && gridLevel.level + 1 < |levels|
      modifies this
      ensures Shaped() && AtLevel(levels, dim, gridLevel) && gridLevel.Valid()
      ensures gridLevel.father == old(gridLevel) && gridLevel.level == old(gridLevel.level) + 1
      ensures id == RefFirstChild(dim, gridLevel.LevelRefinement(), old(id))
      ensures direction == old(direction) && partitionNumber == old(partitionNumber)
    {
      var l := gridLevel.level;
      LevelValid(levels, dim, l + 1);
      assert levels[l + 1].father == levels[l];
      gridLevel := levels[l + 1];
      id := RefFirstChild(dim, gridLevel.LevelRefinement(), id);
    }

    /** `nextChild()`: the next-child rule of the current level's refinement; false after the last child. */
    method NextChild() returns (more: bool)
      requires Shaped() && gridLevel != null && gridLevel.Valid() && !gridLevel.IsMacro()
      modifies this
      ensures Shaped() && gridLevel == old(gridLevel)
      ensures (id, more) == RefNextChild(dim, gridLevel.LevelRefinement(), old(id))
      ensures direction == old(direction) && partitionNumber == old(partitionNumber)
    {
      var next := RefNextChild(dim, gridLevel.LevelRefinement(), id);
      id := next.0;
      more := next.1;
    }
  }

  /**
   * Going down to the first child and back up restores an element's id:
   * `up()` undoes `down()` for elements.
   */
  lemma {:induction false} UpUndoesDown(dim: nat, r: Refinement, x: MultiIndex)
    requires Ready(dim, r) && |x| == dim && IsElement(x)
    ensures RefFather(dim, r, RefFirstChild(dim, r, x)) == x
  {
    NumChildrenIsProduct(dim, r);
    RefinementChildren(dim, r, x, 0);
  }

  /**
   * Starting from the first child, `nextChild()` visits the children in
   * order and answers false exactly when it wraps from the last child back
   * to the first; every child has the element as father.
   */
  lemma {:induction false} SiblingsShareFather(dim: nat, r: Refinement, x: MultiIndex, k: int)
    requires Ready(dim, r) && |x| == dim && IsElement(x) && 0 <= k < RefNumChildren(dim, r)
    ensures var y := ChildOf(RefFactors(dim, r), x, k);
            var next := RefNextChild(dim, r, y);
            && RefFather(dim, r, y) == x
            && RefFather(dim, r, next.0) == x
            && (next.1 <==> k + 1 < RefNumChildren(dim, r))
  {
    RefinementChildren(dim, r, x, k);
    var n := RefNumChildren(dim, r);
    if k + 1 < n {
      RefinementChildren(dim, r, x, k + 1);
    } else {
      NumChildrenIsProduct(dim, r);
      RefinementChildren(dim, r, x, 0);
    }
  }
  /**
   * Any element is a child of its father, and `nextChild()` moves it to a
   * sibling: another element with the same father.  It answers true
   * exactly when the element is not its father's last child.
   */
  lemma {:induction false} NextChildIsSibling(dim: nat, r: Refinement, y: MultiIndex)
    requires Ready(dim, r) && |y| == dim && IsElement(y)
    ensures var next := RefNextChild(dim, r, y);
            && IsElement(RefFather(dim, r, y))
            && IsElement(next.0)
            && RefFather(dim, r, next.0) == RefFather(dim, r, y)
            && (next.1 <==> RefChildIndex(dim, r, y) + 1 < RefNumChildren(dim, r))
  {
    var f := RefFactors(dim, r);
    var n := RefNumChildren(dim, r);
    RefinementsAgree(dim, r, y);
    ElementIsChildOfFather(f, y);
    NumChildrenIsProduct(dim, r);
    var x := FatherOf(f, y);
    var k := ChildIndexOf(f, y);
    assert y == ChildOf(f, x, k) && RefFather(dim, r, y) == x && RefChildIndex(dim, r, y) == k;
    var j := if k + 1 < n then k + 1 else 0;
    assert RefNextChild(dim, r, y) == (ChildOf(f, x, j), k + 1 < n) by {
      RefinementChildren(dim, r, x, k);
    }
    RefinementChildren(dim, r, x, j);
  }

  /** `nextChild()` moves an element to an element of the same father, which is an element too. */
  lemma {:induction false} SiblingsFather(dim: nat, r: Refinement, y: MultiIndex)
    requires Ready(dim, r) && |y| == dim && IsElement(y)
    ensures IsElement(RefFather(dim, r, y)) && IsElement(RefNextChild(dim, r, y).0)
            && RefFather(dim, r, RefNextChild(dim, r, y).0) == RefFather(dim, r, y)
  {
    NextChildIsSibling(dim, r, y);
  }

  /** `down()` of an element gives an element whose father is the element. */
  lemma {:induction false} FirstChildIsChild(dim: nat, r: Refinement, x: MultiIndex)
    requires Ready(dim, r) && |x| == dim && IsElement(x)
    ensures IsElement(RefFirstChild(dim, r, x))
    ensures RefFather(dim, r, RefFirstChild(dim, r, x)) == x
  {
    NumChildrenIsProduct(dim, r);
    RefinementChildren(dim, r, x, 0);
  }
}
