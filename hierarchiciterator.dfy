// SPHierarchicIterator: the descendants of an element, depth first.  The
// iterator owns an entity info that starts at the element; each increment
// either goes down to the first child (while the level is below the
// maximal level) or, at the maximal level, climbs up through the fathers
// until some level above the element's own has a next child.  Climbing
// back to the element's level is the end, which is where `hend()` sits.

module HierarchicIterators {
  import opened Bits
  import opened MultiIndices
  import opened Directions
  import opened Refinements
  import opened RefinementOps
  import opened GridLevels
  import opened EntityInfos
  import opened Entities
  import opened Grids

  /** A position in the hierarchy: a level and the id of an element on it. */
  datatype Place = Place(level: nat, id: MultiIndex)

  /** The refinement each level came from its father by; the macro level's slot is never read. */
  function LevelRefinements(levels: seq<GridLevel>): (refs: seq<Refinement>)
    ensures |refs| == |levels|
  {
    seq(|levels|, k requires 0 <= k < |levels| =>
      if levels[k].refinement.Some? then levels[k].refinement.value else IsotropicRefinement())
  }

  /** Every level below the macro level has a refinement its operations accept. */
  predicate Refined(dim: nat, refs: seq<Refinement>)
  {
    forall k :: 1 <= k < |refs| ==> Ready(dim, refs[k])
  }

  /** The refinements of a hierarchy are those its levels report. */
  lemma {:induction false} HierarchyRefined(levels: seq<GridLevel>, dim: nat)
    requires Hierarchy(levels, dim)
    ensures Refined(dim, LevelRefinements(levels))
    ensures forall k :: 1 <= k < |levels| ==>
              levels[k].refinement.Some? && LevelRefinements(levels)[k] == levels[k].refinement.value
  {
    forall k | 1 <= k < |levels|
      ensures levels[k].refinement.Some? && Ready(dim, levels[k].refinement.value)
    {
      LevelValid(levels, dim, k);
      levels[k].MacroIffLevelZero();
    }
  }

  /**
   * The climbing loop of `increment`: while the level is above `minLevel`
   * and `nextChild()` wraps around, go up to the father of the (wrapped)
   * id.  It stops at the first next sibling or on reaching `minLevel`.
   */
  function Climb(dim: nat, refs: seq<Refinement>, minLevel: nat, p: Place): (q: Place)
    requires Refined(dim, refs) && p.level < |refs| && |p.id| == dim
    ensures q.level <= p.level && |q.id| == dim
    decreases p.level
  {
    if p.level <= minLevel then p
    else
      var r := refs[p.level];
      var next := RefNextChild(dim, r, p.id);
      if next.1 then Place(p.level, next.0)
      else Climb(dim, refs, minLevel, Place(p.level - 1, RefFather(dim, r, next.0)))
  }

  /**
   * One `increment`: below `maxLevel` the first child on the next finer
   * level, at or past it the climb.
   */
  function Step(dim: nat, refs: seq<Refinement>, minLevel: nat, maxLevel: int, p: Place): (q: Place)
    requires Refined(dim, refs) && p.level < |refs| && |p.id| == dim && maxLevel < |refs|
    ensures q.level < |refs| && |q.id| == dim
  {
    if p.level >= maxLevel then Climb(dim, refs, minLevel, p)
    else Place(p.level + 1, RefFirstChild(dim, refs[p.level + 1], p.id))
  }

  /** The ancestor of a position on level `minLevel`: the father rule applied level by level. */
  function Ancestor(dim: nat, refs: seq<Refinement>, minLevel: nat, p: Place): (a: MultiIndex)
    requires Refined(dim, refs) && p.level < |refs| && |p.id| == dim
    ensures |a| == dim
    decreases p.level
  {
    if p.level <= minLevel then p.id
    else
      var r := refs[p.level];
      Ancestor(dim, refs, minLevel, Place(p.level - 1, RefFather(dim, r, p.id)))
  }

  /**
   * A position of the traversal below `start` on level `minLevel`: an
   * element between the two levels whose ancestor on `minLevel` is `start`.
   */
  predicate Below(dim: nat, refs: seq<Refinement>, minLevel: nat, maxLevel: int, start: MultiIndex, p: Place)
  {
    Refined(dim, refs) && minLevel <= p.level && p.level <= maxLevel && maxLevel < |refs|
    && |p.id| == dim && IsElement(p.id)
    && Ancestor(dim, refs, minLevel, p) == start
  }

  /** On level `minLevel` the only position below `start` is `start` itself. */
  lemma {:induction false} BelowAtRoot(dim: nat, refs: seq<Refinement>, minLevel: nat, maxLevel: int, start: MultiIndex, p: Place)
    requires Below(dim, refs, minLevel, maxLevel, start, p)
    ensures p.level == minLevel <==> p == Place(minLevel, start)
  {
  }

  /** The father of a place below `start`, when an element, is below `start` too. */
  lemma {:induction false} FatherBelow(dim: nat, refs: seq<Refinement>, minLevel: nat, maxLevel: int, start: MultiIndex, p: Place)
    requires Below(dim, refs, minLevel, maxLevel, start, p) && p.level > minLevel
    requires IsElement(RefFather(dim, refs[p.level], p.id))
    ensures Below(dim, refs, minLevel, maxLevel, start, Place(p.level - 1, RefFather(dim, refs[p.level], p.id)))
  {
  }

  /** An element with the same father as a place below `start` is below `start` too. */
  lemma {:induction false} SiblingBelow(dim: nat, refs: seq<Refinement>, minLevel: nat, maxLevel: int, start: MultiIndex, p: Place, q: Place)
    requires Below(dim, refs, minLevel, maxLevel, start, p) && p.level > minLevel
    requires q.level == p.level && |q.id| == dim && IsElement(q.id)
    requires RefFather(dim, refs[p.level], q.id) == RefFather(dim, refs[p.level], p.id)
    ensures Below(dim, refs, minLevel, maxLevel, start, q)
  {
  }

  /**
   * The climb keeps the traversal below `start`: a next sibling has the
   * same father, a wrapped-around child the same father too, and that
   * father is again an element.
   */
  lemma {:induction false} ClimbBelow(dim: nat, refs: seq<Refinement>, minLevel: nat, maxLevel: int, start: MultiIndex, p: Place)
    requires Below(dim, refs, minLevel, maxLevel, start, p)
    ensures Below(dim, refs, minLevel, maxLevel, start, Climb(dim, refs, minLevel, p))
    decreases p.level
  {
    if p.level > minLevel {
      var r := refs[p.level];
      var next := RefNextChild(dim, r, p.id);
      SiblingsFather(dim, r, p.id);
      if next.1 {
        SiblingBelow(dim, refs, minLevel, maxLevel, start, p, Place(p.level, next.0));
      } else {
        var up := Place(p.level - 1, RefFather(dim, r, p.id));
        FatherBelow(dim, refs, minLevel, maxLevel, start, p);
        assert Climb(dim, refs, minLevel, p) == Climb(dim, refs, minLevel, up);
        ClimbBelow(dim, refs, minLevel, maxLevel, start, up);
      }
    }
  }

  /** Every increment keeps the traversal below `start`. */
  lemma {:induction false} StepBelow(dim: nat, refs: seq<Refinement>, minLevel: nat, maxLevel: int, start: MultiIndex, p: Place)
    requires Below(dim, refs, minLevel, maxLevel, start, p)
    ensures Below(dim, refs, minLevel, maxLevel, start, Step(dim, refs, minLevel, maxLevel, p))
  {
    if p.level >= maxLevel {
      assert Step(dim, refs, minLevel, maxLevel, p) == Climb(dim, refs, minLevel, p);
      ClimbBelow(dim, refs, minLevel, maxLevel, start, p);
    } else {
      var r := refs[p.level + 1];
      var c := RefFirstChild(dim, r, p.id);
      var q := Place(p.level + 1, c);
      assert Step(dim, refs, minLevel, maxLevel, p) == q;
      FirstChildIsChild(dim, r, p.id);
      assert Ancestor(dim, refs, minLevel, q) == Ancestor(dim, refs, minLevel, Place(p.level, RefFather(dim, r, c)));
      assert Place(p.level, RefFather(dim, r, c)) == p;
    }
  }

  /** `n` increments from a position. */
  function Run(dim: nat, refs: seq<Refinement>, minLevel: nat, maxLevel: int, p: Place, n: nat): (q: Place)
    requires Refined(dim, refs) && p.level < |refs| && |p.id| == dim && maxLevel < |refs|
    ensures q.level < |refs| && |q.id| == dim
    decreases n
  {
    if n == 0 then p else Run(dim, refs, minLevel, maxLevel, Step(dim, refs, minLevel, maxLevel, p), n - 1)
  }

  /**
   * From `hbegin(maxLevel)` with `maxLevel >= level`, every position the
   * iterator reaches is an element between the start's level and
   * `maxLevel` descending from the start, and it is on the start's own
   * level exactly when it is the start itself, i.e. `hend()`.
   */
  lemma {:induction false} TraversalBelow(dim: nat, refs: seq<Refinement>, minLevel: nat, maxLevel: int, start: MultiIndex, n: nat)
    requires Refined(dim, refs) && minLevel <= maxLevel < |refs| && |start| == dim && IsElement(start)
    ensures var q := Run(dim, refs, minLevel, maxLevel, Step(dim, refs, minLevel, maxLevel, Place(minLevel, start)), n);
            && Below(dim, refs, minLevel, maxLevel, start, q)
            && (q.level == minLevel <==> q == Place(minLevel, start))
  {
    var p := Place(minLevel, start);
    assert Below(dim, refs, minLevel, maxLevel, start, p);
    StepBelow(dim, refs, minLevel, maxLevel, start, p);
    RunBelow(dim, refs, minLevel, maxLevel, start, Step(dim, refs, minLevel, maxLevel, p), n);
    BelowAtRoot(dim, refs, minLevel, maxLevel, start, Run(dim, refs, minLevel, maxLevel, Step(dim, refs, minLevel, maxLevel, p), n));
  }

  /** Any number of increments keeps the traversal below `start`. */
  lemma {:induction false} RunBelow(dim: nat, refs: seq<Refinement>, minLevel: nat, maxLevel: int, start: MultiIndex, p: Place, n: nat)
    requires Below(dim, refs, minLevel, maxLevel, start, p)
    ensures Below(dim, refs, minLevel, maxLevel, start, Run(dim, refs, minLevel, maxLevel, p, n))
    decreases n
  {
    if n > 0 {
      StepBelow(dim, refs, minLevel, maxLevel, start, p);
      RunBelow(dim, refs, minLevel, maxLevel, start, Step(dim, refs, minLevel, maxLevel, p), n - 1);
    }
  }

  /**
   * The first increment leaves the start: with `maxLevel` above the start's
   * level it is the first child on the next level, so the start itself is
   * never yielded; with `maxLevel` equal to it nothing moves, which is
   * `hend()` (built with the entity's own level as maximum).
   */
  lemma {:induction false} FirstStep(dim: nat, refs: seq<Refinement>, minLevel: nat, maxLevel: int, start: MultiIndex)
    requires Refined(dim, refs) && minLevel <= maxLevel < |refs| && |start| == dim && IsElement(start)
    ensures var q := Step(dim, refs, minLevel, maxLevel, Place(minLevel, start));
            && (maxLevel > minLevel ==> q.level == minLevel + 1 && q != Place(minLevel, start))
            && (maxLevel == minLevel ==> q == Place(minLevel, start))
  {
  }

  /** `std::min(maxLevel, grid.maxLevel())`. */
  function Capped(requested: int, gridMax: int): (m: int)
    ensures m <= requested && m <= gridMax && (m == requested || m == gridMax)
  {
    if requested < gridMax then requested else gridMax
  }

  /** `Step` over the refinements of a hierarchy of levels. */
  ghost function StepIn(levels: seq<GridLevel>, dim: nat, minLevel: nat, maxLevel: int, p: Place): (q: Place)
    requires Hierarchy(levels, dim) && p.level < |levels| && |p.id| == dim && maxLevel < |levels|
    reads levels
    ensures q.level < |levels| && |q.id| == dim
  {
    HierarchyRefined(levels, dim);
    Step(dim, LevelRefinements(levels), minLevel, maxLevel, p)
  }

  class HierarchicIterator {
    const dim: nat
    /** The levels of the grid, reached through the entity's `grid()`. */
    const levels: seq<GridLevel>
    /** The entity info of the iterator's entity pointer, owned by value. */
    const info: EntityInfo
    /** `minLevel_`: the level of the start element. */
    const minLevel: nat
    /** `maxLevel_`: the requested maximum, capped by the grid's maximal level. */
    const maxLevel: int

    /** The info is an element of this grid's dimension on one of its levels. */
    ghost predicate Valid()
      reads this, info, levels
    {
      info.dim == dim && info.codim == 0 && info.Shaped()
      && AtLevel(levels, dim, info.gridLevel) && maxLevel < |levels|
    }

    /** The current position. */
    function Here(): (p: Place)
      reads this, info
      requires info.gridLevel != null
      ensures p.level == info.gridLevel.level && p.id == info.id
    {
      Place(info.gridLevel.level, info.id)
    }

    /** The position after one increment. */
    ghost function Next(): (p: Place)
      reads this, info, levels
      requires Valid()
    {
      StepIn(levels, dim, minLevel, maxLevel, Here())
    }

    /**
     * `SPHierarchicIterator(entity, maxLevel)`: a copy of the entity's
     * info, the entity's level as minimum, the smaller of the requested
     * and the grid's maximal level as maximum, then one increment; the
     * increment's `update()` asserts that the new position is placeable.
     */
    constructor (entity: Entity, grid: Grid, maxLevel: int)
      requires grid.Valid() && entity.info.dim == grid.dim && entity.info.codim == 0 && entity.info.Shaped()
      requires AtLevel(grid.levels, grid.dim, entity.info.gridLevel)
      requires var q := StepIn(grid.levels, grid.dim, entity.info.gridLevel.level, Capped(maxLevel, grid.MaxLevel()), Place(entity.info.gridLevel.level, entity.info.id));
               Placeable(grid.levels[q.level], 0, q.id, entity.info.partitionNumber)
      ensures dim == grid.dim && levels == grid.levels && fresh(info)
      ensures minLevel == entity.Level() && this.maxLevel == Capped(maxLevel, grid.MaxLevel())
      ensures Valid()
      ensures Here() == StepIn(levels, dim, minLevel, this.maxLevel, Place(minLevel, entity.info.id))
      ensures info.partitionNumber == entity.info.partitionNumber && info.direction == DirectionOf(info.id)
    {
      dim := grid.dim;
      levels := grid.levels;
      info := new EntityInfo.Copy(entity.info);
      minLevel := entity.info.gridLevel.level;
      this.maxLevel := Capped(maxLevel, grid.MaxLevel());
      new;
      Increment();
    }

    /**
     * `increment()`: the info moves to `Step` of its position (by `down()`
     * below the maximal level, by `nextChild()` and `up()` otherwise), then
     * `update()`, whose assertions demand that the new position be
     * placeable with the unchanged partition number, recomputes the
     * direction.
     */
    method Increment()
      requires Valid() && Placeable(levels[Next().level], 0, Next().id, info.partitionNumber)
      modifies info
      ensures Valid() && Here() == old(Next())
      ensures info.partitionNumber == old(info.partitionNumber) && info.direction == DirectionOf(info.id)
    {
      Move();
      info.Update();
    }

    /** The moving part of `increment()`, before `update()`. */
    method Move()
      requires Valid()
      modifies info
      ensures Valid() && Here() == old(Next())
      ensures info.partitionNumber == old(info.partitionNumber)
    {
      ghost var refs := LevelRefinements(levels);
      ghost var target := Next();
      HierarchyRefined(levels, dim);
      if info.gridLevel.level >= maxLevel {
        while info.gridLevel.level > minLevel
          invariant Valid() && Climb(dim, refs, minLevel, Here()) == target
          invariant info.partitionNumber == old(info.partitionNumber)
          decreases info.gridLevel.level
        {
          ghost var p := Here();
          LevelValid(levels, dim, p.level);
          info.gridLevel.MacroIffLevelZero();
          var more := info.NextChild();
          if more {
            assert Here() == target;
            break;
          }
          info.Up(levels);
          assert Here() == Place(p.level - 1, RefFather(dim, refs[p.level], RefNextChild(dim, refs[p.level], p.id).0));
        }
      } else {
        info.Down(levels);
      }
      assert Here() == target;
    }
  }

  /** `hbegin(maxLevel)`, which asserts `maxLevel >= level()`: the iterator built with that maximum. */
  method HBegin(entity: Entity, grid: Grid, maxLevel: int) returns (it: HierarchicIterator)
    requires grid.Valid() && entity.info.dim == grid.dim && entity.info.codim == 0 && entity.info.Shaped()
    requires AtLevel(grid.levels, grid.dim, entity.info.gridLevel) && maxLevel >= entity.Level()
    requires var q := StepIn(grid.levels, grid.dim, entity.info.gridLevel.level, Capped(maxLevel, grid.MaxLevel()), Place(entity.info.gridLevel.level, entity.info.id));
             Placeable(grid.levels[q.level], 0, q.id, entity.info.partitionNumber)
    ensures fresh(it) && fresh(it.info) && it.Valid() && it.levels == grid.levels && it.minLevel == entity.Level()
    ensures it.maxLevel == Capped(maxLevel, grid.MaxLevel())
    ensures it.Here() == StepIn(grid.levels, grid.dim, it.minLevel, it.maxLevel, Place(it.minLevel, entity.info.id))
  {
    it := new HierarchicIterator(entity, grid, maxLevel);
  }

  /**
   * `hend(maxLevel)`, which asserts `maxLevel >= level()`: the iterator
   * built with the entity's own level as maximum, which stays at the
   * entity.
   */
  method HEnd(entity: Entity, grid: Grid, maxLevel: int) returns (it: HierarchicIterator)
    requires grid.Valid() && entity.info.dim == grid.dim && entity.info.codim == 0 && entity.info.Shaped()
    requires AtLevel(grid.levels, grid.dim, entity.info.gridLevel) && maxLevel >= entity.Level()
    requires Placeable(entity.info.gridLevel, 0, entity.info.id, entity.info.partitionNumber)
    ensures fresh(it) && fresh(it.info) && it.Valid() && it.levels == grid.levels
    ensures it.minLevel == it.maxLevel == entity.Level()
    ensures it.Here() == Place(entity.Level(), entity.info.id)
  {
    var level := entity.info.gridLevel.level;
    HierarchyRefined(grid.levels, grid.dim);
    assert Step(grid.dim, LevelRefinements(grid.levels), level, level, Place(level, entity.info.id)) == Place(level, entity.info.id);
    it := new HierarchicIterator(entity, grid, level);
  }
}
