// SPEntity: an entity is a view of an entity info it owns.  The queries
// read the info's grid level and id; `subEntity` and `father` build the
// info of another entity from it.  Intersection iterators are modelled by
// their position: the inside element's level, id and partition number and
// the face they stand on.

module Entities {
  import opened Bits
  import opened MultiIndices
  import opened Meshes
  import opened Directions
  import opened Refinements
  import opened RefinementOps
  import opened ReferenceCubes
  import opened GridLevels
  import opened EntitySeeds
  import opened EntityInfos
  import opened Grids

  /** `SPIntersectionIterator(entityInfo, face)`, by the element it is built from and its face. */
  datatype IntersectionPosition = IntersectionPosition(gridLevel: GridLevel?, id: MultiIndex, partitionNumber: nat, face: int)

  /** Some component of an element lies next to the global boundary: 2*begin+1 or 2*end-1. */
  predicate TouchesBoundary(id: MultiIndex, global: Mesh)
    requires |global.begin| == |id| && |global.end| == |id|
  {
    exists i :: 0 <= i < |id| && (id[i] == 2 * global.begin[i] + 1 || id[i] == 2 * global.end[i] - 1)
  }

  /** The id of the face `face` of an element: one step down or up along axis face / 2. */
  function FaceId(id: MultiIndex, face: nat): (f: MultiIndex)
    requires face < 2 * |id|
    ensures |f| == |id|
    ensures forall i :: 0 <= i < |id| && i != face / 2 ==> f[i] == id[i]
    ensures f[face / 2] == id[face / 2] + 2 * (face % 2) - 1
  {
    id[face / 2 := id[face / 2] + 2 * (face % 2) - 1]
  }

  /** The face lies in the global boundary face it points to: 2*begin for a lower face, 2*end for an upper one. */
  predicate FaceOnBoundary(id: MultiIndex, global: Mesh, face: nat)
    requires face < 2 * |id| && |global.begin| == |id| && |global.end| == |id|
  {
    var x := FaceId(id, face)[face / 2];
    if face % 2 == 0 then x == 2 * global.begin[face / 2] else x == 2 * global.end[face / 2]
  }

  /** An element touches the boundary exactly when one of its faces is a boundary face. */
  lemma {:induction false} TouchesBoundaryIffBoundaryFace(id: MultiIndex, global: Mesh)
    requires |global.begin| == |id| && |global.end| == |id|
    ensures TouchesBoundary(id, global) <==> exists face :: 0 <= face < 2 * |id| && FaceOnBoundary(id, global, face)
  {
    if TouchesBoundary(id, global) {
      var i :| 0 <= i < |id| && (id[i] == 2 * global.begin[i] + 1 || id[i] == 2 * global.end[i] - 1);
      var face := if id[i] == 2 * global.begin[i] + 1 then 2 * i else 2 * i + 1;
      assert face / 2 == i && face % 2 == (if id[i] == 2 * global.begin[i] + 1 then 0 else 1);
      assert FaceOnBoundary(id, global, face);
    }
    if exists face :: 0 <= face < 2 * |id| && FaceOnBoundary(id, global, face) {
      var face :| 0 <= face < 2 * |id| && FaceOnBoundary(id, global, face);
      var i := face / 2;
      assert id[i] == 2 * global.begin[i] + 1 || id[i] == 2 * global.end[i] - 1;
    }
  }

  // Sub-entity offsets: an element id plus a reference-cube offset with c
  // nonzero components is an id of codimension c.

  lemma {:induction false} OddCountSnoc(x: MultiIndex, a: int)
    ensures OddCount(x + [a]) == OddCount(x) + a % 2
  {
    if x != [] {
      assert (x + [a])[1..] == x[1..] + [a];
      OddCountSnoc(x[1..], a);
    }
  }

  /** An id is odd exactly where a {-1,0,1} offset is zero: its odd count is the offset's zero count. */
  lemma {:induction false} OddWhereZero(y: MultiIndex, s: MultiIndex)
    requires |y| == |s|
    requires forall k :: 0 <= k < |y| ==> y[k] % 2 == (if s[k] == 0 then 1 else 0)
    ensures OddCount(y) + NonzeroCount(s) == |y|
  {
    if |y| > 0 {
      var n := |y| - 1;
      assert y == y[..n] + [y[n]];
      OddCountSnoc(y[..n], y[n]);
      OddWhereZero(y[..n], s[..n]);
    }
  }

  /** A count of nonzero components of 0 or of |s| means none or all are nonzero. */
  lemma {:induction false} NonzeroExtremes(s: MultiIndex)
    ensures NonzeroCount(s) == 0 ==> forall k :: 0 <= k < |s| ==> s[k] == 0
    ensures NonzeroCount(s) == |s| ==> forall k :: 0 <= k < |s| ==> s[k] != 0
  {
    if |s| > 0 {
      NonzeroExtremes(s[..|s| - 1]);
    }
  }

  /**
   * The id `subEntity<codim>(i)` computes from an element: its codimension
   * is codim, and the vertex and element cases have the constant directions
   * their entity directions assert.
   */
  lemma {:induction false} SubEntityCodimension(x: MultiIndex, codim: nat, i: nat)
    requires IsElement(x) && codim <= |x| && i < NumSubEntities(|x|, codim)
    ensures var y := Add(x, SubIdOf(|x|, codim, i));
            && CodimensionOf(y) == codim
            && (codim == |x| ==> DirectionOf(y) == 0)
            && (codim == 0 ==> DirectionOf(y) == Pow2(|x|) - 1)
  {
    var s := SubIdOf(|x|, codim, i);
    var y := Add(x, s);
    SubIdShape(|x|, codim, i);
    forall k | 0 <= k < |y|
      ensures y[k] % 2 == (if s[k] == 0 then 1 else 0)
    {
      assert x[k] % 2 == 1 && -1 <= s[k] <= 1;
    }
    OddWhereZero(y, s);
    NonzeroExtremes(s);
    if codim == |x| {
      VertexDirection(y);
    }
    if codim == 0 {
      ElementDirection(y);
    }
  }

  class Entity {
    /** `entityInfo_`, owned by value. */
    const info: EntityInfo

    /** `SPBasicEntity(entityInfo)`: a copy of the info. */
    constructor (entityInfo: EntityInfo)
      ensures fresh(info)
      ensures info.dim == entityInfo.dim && info.codim == entityInfo.codim && info.gridLevel == entityInfo.gridLevel
      ensures info.id == entityInfo.id && info.direction == entityInfo.direction && info.partitionNumber == entityInfo.partitionNumber
    {
      info := new EntityInfo.Copy(entityInfo);
    }

    /** `level()`. */
    function Level(): (l: nat)
      reads this, info
      requires info.gridLevel != null
      ensures l == info.gridLevel.level
    {
      info.Level()
    }

    /** `isLeaf()`: the level is the grid's maximal level. */
    predicate IsLeaf(grid: Grid)
      reads this, info, grid, grid.levels
      requires info.gridLevel != null && grid.Valid()
    {
      Level() == grid.MaxLevel()
    }

    /** `hasFather()`: the level is above the macro level. */
    predicate HasFather()
      reads this, info
      requires info.gridLevel != null
    {
      Level() > 0
    }

    /** `equals(other)`: the infos are equal. */
    predicate Equals(other: Entity)
      reads this, info, other, other.info
      requires info.gridLevel != null && other.info.gridLevel != null
      ensures Equals(other) ==> Level() == other.Level()
    {
      info.Equals(other.info)
    }

    /** `seed()`: a valid seed that gives back the level, id and partition number. */
    function Seed(): (s: EntitySeed)
      reads this, info
      requires info.gridLevel != null
      ensures s.IsValid() && s.Level() == Level() && s.Id() == info.id && s.PartitionNumber() == info.partitionNumber
    {
      MakeSeed(Level(), info.id, info.partitionNumber)
    }

    /** `count<codim>()` and `subEntities(codim)`: the cube has choose(dim, codim) * 2^codim sub-entities. */
    function Count(codim: int): (n: nat)
      reads this, info
      requires 0 <= codim <= info.dim
      ensures n == Binomial(info.dim, codim) * Pow2(codim) && n >= 1
    {
      NumSubEntitiesClosedForm(info.dim, codim);
      NumSubEntitiesPositive(info.dim, codim);
      NumSubEntities(info.dim, codim)
    }

    /** `ilevelbegin()`: the intersection on face 0 of this element. */
    function ILevelBegin(): (it: IntersectionPosition)
      reads this, info
      ensures it.face == 0
      ensures it.gridLevel == info.gridLevel && it.id == info.id && it.partitionNumber == info.partitionNumber
    {
      IntersectionPosition(info.gridLevel, info.id, info.partitionNumber, 0)
    }

    /** `ilevelend()`: one past the last face, numFaces = 2 * dim. */
    function ILevelEnd(): (it: IntersectionPosition)
      reads this, info
      ensures it.face == 2 * info.dim
      ensures it.gridLevel == info.gridLevel && it.id == info.id && it.partitionNumber == info.partitionNumber
    {
      IntersectionPosition(info.gridLevel, info.id, info.partitionNumber, 2 * info.dim)
    }

    /** `ileafbegin()`: the level range on a leaf entity, the level end (an empty range) otherwise. */
    function ILeafBegin(grid: Grid): (it: IntersectionPosition)
      reads this, info, grid, grid.levels
      requires info.gridLevel != null && grid.Valid()
      ensures IsLeaf(grid) ==> it == ILevelBegin()
      ensures !IsLeaf(grid) ==> it == ILevelEnd()
    {
      if IsLeaf(grid) then ILevelBegin() else ILevelEnd()
    }

    /** `ileafend()`: the level end. */
    function ILeafEnd(): (it: IntersectionPosition)
      reads this, info
      ensures it == ILevelEnd()
    {
      ILevelEnd()
    }

    /**
     * `hasBoundaryIntersections()`: or-ing, axis by axis, whether the id
     * lies next to the lower or upper end of the global mesh.
     */
    method HasBoundaryIntersections() returns (b: bool)
      requires info.Shaped() && info.gridLevel != null && info.gridLevel.Valid()
      ensures b <==> TouchesBoundary(info.id, info.gridLevel.globalMesh)
    {
      var global := info.gridLevel.globalMesh;
      var id := info.id;
      b := false;
      var i := 0;
      while i < info.dim
        invariant 0 <= i <= info.dim
        invariant b <==> exists k :: 0 <= k < i && (id[k] == 2 * global.begin[k] + 1 || id[k] == 2 * global.end[k] - 1)
      {
        b := b || id[i] == 2 * global.begin[i] + 1;
        b := b || id[i] == 2 * global.end[i] - 1;
        i := i + 1;
      }
    }

    /**
     * `subEntity<codim>(i)` of an element: the info on the same level with
     * id + subId(codim, i) and the same partition number.
     */
    method SubEntity(codim: nat, i: int) returns (sub: EntityInfo)
      requires info.Shaped() && info.codim == 0 && info.gridLevel != null && IsElement(info.id)
      requires codim <= info.dim && 0 <= i < Count(codim)
      ensures fresh(sub) && sub.Shaped() && sub.codim == codim && sub.gridLevel == info.gridLevel
      ensures sub.id == Add(info.id, SubIdOf(info.dim, codim, i)) && sub.partitionNumber == info.partitionNumber
      ensures CodimensionOf(sub.id) == codim && sub.direction == DirectionOf(sub.id)
    {
      NumSubEntitiesClosedForm(info.dim, codim);
      SubEntityCodimension(info.id, codim, i);
      var id := Add(info.id, SubIdOf(info.dim, codim, i));
      sub := new EntityInfo(info.gridLevel, codim, id, info.partitionNumber);
    }

    /**
     * `father()`: a copy of the info moved up one level and updated, whose
     * assertions demand that the father's id lies in the coarser level.
     */
    method Father(levels: seq<GridLevel>) returns (f: Entity)
      requires info.Shaped() && AtLevel(levels, info.dim, info.gridLevel) && HasFather()
      requires info.gridLevel.Valid()
      requires Placeable(info.gridLevel.father, info.codim, RefFather(info.dim, info.gridLevel.LevelRefinement(), info.id), info.partitionNumber)
      ensures fresh(f) && fresh(f.info) && f.info.Shaped() && f.info.codim == info.codim
      ensures f.info.gridLevel == info.gridLevel.father
      ensures f.info.id == RefFather(info.dim, info.gridLevel.LevelRefinement(), info.id)
      ensures f.info.partitionNumber == info.partitionNumber && f.info.direction == DirectionOf(f.info.id)
    {
      var fatherInfo := new EntityInfo.Copy(info);
      fatherInfo.Up(levels);
      fatherInfo.Update();
      f := new Entity(fatherInfo);
    }

    /** `isRegular()`: every entity of the grid is regular. */
    predicate IsRegular()
      ensures IsRegular()
    {
      true
    }

    /** `isNew()`: no entity is new, the grid has no local adaptation. */
    predicate IsNew()
      ensures !IsNew()
    {
      false
    }

    /** `mightVanish()`: no entity may vanish. */
    predicate MightVanish()
      ensures !MightVanish()
    {
      false
    }
  }

  /** An entity is a leaf exactly when its level has no child level. */
  lemma {:induction false} LeafIffNoChild(e: Entity, grid: Grid)
    requires grid.Valid() && AtLevel(grid.levels, grid.dim, e.info.gridLevel)
    ensures e.IsLeaf(grid) <==> e.info.gridLevel.IsLeaf()
  {
    var k := e.info.gridLevel.level;
    var levels := grid.levels;
    if k + 1 < |levels| {
      assert levels[k + 1].father == levels[k] && levels[k].child == levels[k + 1];
    }
  }

  /** An entity on a valid level has a father exactly when its level is not the macro level. */
  lemma {:induction false} FatherIffNotMacro(e: Entity)
    requires e.info.gridLevel != null && e.info.gridLevel.Valid()
    ensures e.HasFather() <==> !e.info.gridLevel.IsMacro()
  {
    e.info.gridLevel.MacroIffLevelZero();
  }

  /**
   * The leaf intersection range of an element of a grid of dimension at
   * least 1 is empty exactly when its level has been refined.
   */
  lemma {:induction false} LeafRangeEmptyIffRefined(e: Entity, grid: Grid)
    requires grid.Valid() && AtLevel(grid.levels, grid.dim, e.info.gridLevel) && e.info.dim >= 1
    ensures e.ILeafBegin(grid) == e.ILeafEnd() <==> e.info.gridLevel.child != null
  {
    LeafIffNoChild(e, grid);
  }
}
