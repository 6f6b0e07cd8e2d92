// EntityTree and IntersectionTree: the descendants of an entity (or of an
// intersection) in the refinement tree, depth first, pruned by a predicate
// `isLeaf`.  The traversal starts at the entity itself.  Each increment
// either descends to the first child or, at a leaf (by the predicate or
// because the level is the grid's leaf level), climbs through the fathers
// until some level below the root has a next child; climbing back to the
// root's level is the end.

module Trees {
  import opened Bits
  import opened Errors
  import opened MultiIndices
  import opened Refinements
  import opened RefinementOps
  import opened GridLevels
  import opened EntityInfos
  import opened Entities
  import opened HierarchicIterators

  /** A tree iterator's position: a place in the hierarchy, or the end (no grid level). */
  datatype TreePos = At(place: Place) | AtEnd

  /**
   * The climbing loop of `increment`: while the level is not the root's,
   * `nextChild()`, and on a wrap-around `up()`.  Reaching the root's level
   * is the end.
   */
  function TreeClimb(dim: nat, refs: seq<Refinement>, root: nat, p: Place): (t: TreePos)
    requires Refined(dim, refs) && root <= p.level < |refs| && |p.id| == dim
    ensures t.At? ==> root < t.place.level <= p.level && |t.place.id| == dim
    decreases p.level
  {
    if p.level == root then AtEnd
    else
      var r := refs[p.level];
      var next := RefNextChild(dim, r, p.id);
      if next.1 then At(Place(p.level, next.0))
      else TreeClimb(dim, refs, root, Place(p.level - 1, RefFather(dim, r, next.0)))
  }

  /**
   * One `increment`: at a leaf (the predicate holds or the level is the
   * leaf level) the climb, otherwise `down()` to the first child.
   */
  function TreeStep(dim: nat, refs: seq<Refinement>, root: nat, isLeaf: Place -> bool, p: Place): (t: TreePos)
    requires Refined(dim, refs) && root <= p.level < |refs| && |p.id| == dim
    ensures t.At? ==> root < t.place.level < |refs| && |t.place.id| == dim
  {
    if isLeaf(p) || p.level == |refs| - 1 then TreeClimb(dim, refs, root, p)
    else At(Place(p.level + 1, RefFirstChild(dim, refs[p.level + 1], p.id)))
  }

  /** `n` increments from a position; the end stays the end. */
  function TreeRun(dim: nat, refs: seq<Refinement>, root: nat, isLeaf: Place -> bool, t: TreePos, n: nat): (u: TreePos)
    requires Refined(dim, refs) && (t.At? ==> root <= t.place.level < |refs| && |t.place.id| == dim)
    ensures u.At? ==> root <= u.place.level < |refs| && |u.place.id| == dim
    decreases n
  {
    if n == 0 || t.AtEnd? then t
    else TreeRun(dim, refs, root, isLeaf, TreeStep(dim, refs, root, isLeaf, t.place), n - 1)
  }

  /**
   * The tree's climb is the hierarchic iterator's climb with the root's
   * level as minimum: it ends exactly where that climb comes back to the
   * root's level, and otherwise stops at the same next sibling.
   */
  lemma {:induction false} TreeClimbIsClimb(dim: nat, refs: seq<Refinement>, root: nat, p: Place)
    requires Refined(dim, refs) && root <= p.level < |refs| && |p.id| == dim
    ensures var q := Climb(dim, refs, root, p);
            TreeClimb(dim, refs, root, p) == if q.level == root then AtEnd else At(q)
    decreases p.level
  {
    if p.level > root {
      var r := refs[p.level];
      var next := RefNextChild(dim, r, p.id);
      if !next.1 {
        TreeClimbIsClimb(dim, refs, root, Place(p.level - 1, RefFather(dim, r, next.0)));
      }
    }
  }

  /**
   * No strict ancestor of `p` from the root's level on is a leaf by the
   * predicate: the traversal never went below a leaf to reach `p`.
   */
  predicate Pruned(dim: nat, refs: seq<Refinement>, root: nat, isLeaf: Place -> bool, p: Place)
    requires Refined(dim, refs) && p.level < |refs| && |p.id| == dim
    decreases p.level
  {
    p.level <= root
    || (var f := Place(p.level - 1, RefFather(dim, refs[p.level], p.id));
        !isLeaf(f) && Pruned(dim, refs, root, isLeaf, f))
  }

  /** A pruned place below the root has a father that is no leaf and is pruned itself. */
  lemma {:induction false} FatherPruned(dim: nat, refs: seq<Refinement>, root: nat, isLeaf: Place -> bool, p: Place)
    requires Refined(dim, refs) && root < p.level < |refs| && |p.id| == dim
    requires Pruned(dim, refs, root, isLeaf, p)
    ensures var f := Place(p.level - 1, RefFather(dim, refs[p.level], p.id));
            !isLeaf(f) && Pruned(dim, refs, root, isLeaf, f)
  {
  }

  /** A sibling of a pruned place, one with the same father, is pruned. */
  lemma {:induction false} SiblingPruned(dim: nat, refs: seq<Refinement>, root: nat, isLeaf: Place -> bool, p: Place, q: Place)
    requires Refined(dim, refs) && root < p.level < |refs| && |p.id| == dim && |q.id| == dim && q.level == p.level
    requires RefFather(dim, refs[p.level], q.id) == RefFather(dim, refs[p.level], p.id)
    requires Pruned(dim, refs, root, isLeaf, p)
    ensures Pruned(dim, refs, root, isLeaf, q)
  {
  }

  /** Above the minimum level, a climb that finds a next sibling stops there. */
  lemma {:induction false} ClimbToSibling(dim: nat, refs: seq<Refinement>, root: nat, p: Place)
    requires Refined(dim, refs) && root < p.level < |refs| && |p.id| == dim
    requires RefNextChild(dim, refs[p.level], p.id).1
    ensures Climb(dim, refs, root, p) == Place(p.level, RefNextChild(dim, refs[p.level], p.id).0)
  {
  }

  /** Above the minimum level, a climb that wraps around goes on from the father of an element. */
  lemma {:induction false} ClimbToFather(dim: nat, refs: seq<Refinement>, root: nat, p: Place)
    requires Refined(dim, refs) && root < p.level < |refs| && |p.id| == dim && IsElement(p.id)
    requires !RefNextChild(dim, refs[p.level], p.id).1
    ensures IsElement(RefFather(dim, refs[p.level], p.id))
    ensures Climb(dim, refs, root, p) == Climb(dim, refs, root, Place(p.level - 1, RefFather(dim, refs[p.level], p.id)))
  {
    assert Ready(dim, refs[p.level]);
    SiblingsFather(dim, refs[p.level], p.id);
  }

  /** The climb keeps the traversal pruned: a sibling, or an ancestor's sibling, has the same pruned fathers. */
  lemma {:induction false} ClimbPruned(dim: nat, refs: seq<Refinement>, root: nat, isLeaf: Place -> bool, p: Place)
    requires Refined(dim, refs) && root <= p.level < |refs| && |p.id| == dim && IsElement(p.id)
    requires Pruned(dim, refs, root, isLeaf, p)
    ensures Pruned(dim, refs, root, isLeaf, Climb(dim, refs, root, p))
    decreases p.level
  {
    if p.level > root {
      var r := refs[p.level];
      if RefNextChild(dim, r, p.id).1 {
        ClimbToSibling(dim, refs, root, p);
        assert Ready(dim, r);
        SiblingsFather(dim, r, p.id);
        SiblingPruned(dim, refs, root, isLeaf, p, Place(p.level, RefNextChild(dim, r, p.id).0));
      } else {
        ClimbToFather(dim, refs, root, p);
        FatherPruned(dim, refs, root, isLeaf, p);
        ClimbPruned(dim, refs, root, isLeaf, Place(p.level - 1, RefFather(dim, r, p.id)));
      }
    }
  }

  /**
   * Every increment from an element below the root (on the root's level or
   * finer) either ends or reaches an element strictly below the root,
   * descending from it, on a level no finer than the leaf level, and with
   * no leaf among its ancestors.
   */
  lemma {:induction false} TreeStepBelow(dim: nat, refs: seq<Refinement>, root: nat, isLeaf: Place -> bool, start: MultiIndex, p: Place)
    requires Below(dim, refs, root, |refs| - 1, start, p) && Pruned(dim, refs, root, isLeaf, p)
    ensures var t := TreeStep(dim, refs, root, isLeaf, p);
            t.At? ==> t.place.level > root && Below(dim, refs, root, |refs| - 1, start, t.place)
                      && Pruned(dim, refs, root, isLeaf, t.place)
  {
    var maxLevel := |refs| - 1;
    if isLeaf(p) || p.level == maxLevel {
      TreeClimbIsClimb(dim, refs, root, p);
      ClimbBelow(dim, refs, root, maxLevel, start, p);
      ClimbPruned(dim, refs, root, isLeaf, p);
    } else {
      var r := refs[p.level + 1];
      var q := Place(p.level + 1, RefFirstChild(dim, r, p.id));
      assert Step(dim, refs, root, maxLevel, p) == q;
      StepBelow(dim, refs, root, maxLevel, start, p);
      FirstChildIsChild(dim, r, p.id);
      assert Place(p.level, RefFather(dim, r, q.id)) == p;
    }
  }

  /** Any number of increments from such a position keeps it so. */
  lemma {:induction false} TreeRunBelow(dim: nat, refs: seq<Refinement>, root: nat, isLeaf: Place -> bool, start: MultiIndex, p: Place, n: nat)
    requires Below(dim, refs, root, |refs| - 1, start, p) && Pruned(dim, refs, root, isLeaf, p)
    ensures var t := TreeRun(dim, refs, root, isLeaf, At(p), n);
            t.At? ==> Below(dim, refs, root, |refs| - 1, start, t.place) && Pruned(dim, refs, root, isLeaf, t.place)
                      && (n > 0 ==> t.place.level > root)
    decreases n
  {
    if n > 0 {
      TreeStepBelow(dim, refs, root, isLeaf, start, p);
      var t := TreeStep(dim, refs, root, isLeaf, p);
      if t.At? {
        TreeRunBelow(dim, refs, root, isLeaf, start, t.place, n - 1);
        if n > 1 {
          assert TreeRun(dim, refs, root, isLeaf, At(p), n) == TreeRun(dim, refs, root, isLeaf, At(t.place), n - 1);
        }
      }
    }
  }

  /**
   * From `begin()` on an element: the root comes first and never again;
   * every later position is an element strictly below the root, descending
   * from it, no finer than the leaf level, reached without passing a leaf.
   */
  lemma {:induction false} TreeTraversal(dim: nat, refs: seq<Refinement>, root: nat, isLeaf: Place -> bool, start: MultiIndex, n: nat)
    requires Refined(dim, refs) && root < |refs| && |start| == dim && IsElement(start)
    ensures TreeRun(dim, refs, root, isLeaf, At(Place(root, start)), 0) == At(Place(root, start))
    ensures var t := TreeRun(dim, refs, root, isLeaf, At(Place(root, start)), n + 1);
            t.At? ==> t.place.level > root && t.place != Place(root, start)
                      && Below(dim, refs, root, |refs| - 1, start, t.place) && Pruned(dim, refs, root, isLeaf, t.place)
  {
    var p := Place(root, start);
    assert Below(dim, refs, root, |refs| - 1, start, p);
    TreeRunBelow(dim, refs, root, isLeaf, start, p, n + 1);
  }

  /** `TreeClimb` over the refinements of a hierarchy of levels. */
  ghost function TreeClimbIn(levels: seq<GridLevel>, dim: nat, root: nat, p: Place): (t: TreePos)
    requires Hierarchy(levels, dim) && root <= p.level < |levels| && |p.id| == dim
    reads levels
  {
    HierarchyRefined(levels, dim);
    TreeClimb(dim, LevelRefinements(levels), root, p)
  }

  /** `TreeStep` over the refinements of a hierarchy of levels. */
  ghost function TreeStepIn(levels: seq<GridLevel>, dim: nat, root: nat, isLeaf: Place -> bool, p: Place): (t: TreePos)
    requires Hierarchy(levels, dim) && root <= p.level < |levels| && |p.id| == dim
    reads levels
  {
    HierarchyRefined(levels, dim);
    TreeStep(dim, LevelRefinements(levels), root, isLeaf, p)
  }

  /** `TreeIterator< Entity, IsLeaf >`: an entity pointer with the root level and the leaf predicate. */
  class TreeIterator {
    const dim: nat
    /** The levels of the grid, reached through `gridLevel().grid()`. */
    const levels: seq<GridLevel>
    /** The entity info of the entity pointer, owned by value. */
    const info: EntityInfo
    /** `isDone_`'s `rootLevel_`: null for the default and end iterators. */
    const rootLevel: GridLevel?
    /** `isLeaf_`, on the level and id of the entity. */
    const isLeaf: Place -> bool

    /** The info is an entity on a level of the grid, at or below the root's level. */
    ghost predicate Valid()
      reads this, info, levels
    {
      info.dim == dim && info.Shaped() && AtLevel(levels, dim, info.gridLevel)
      && AtLevel(levels, dim, rootLevel) && rootLevel.level <= info.gridLevel.level
    }

    /** The current place. */
    function Here(): (p: Place)
      reads this, info
      requires info.gridLevel != null
      ensures p.level == info.gridLevel.level && p.id == info.id
    {
      Place(info.gridLevel.level, info.id)
    }

    /** The position: the end once the info has no grid level. */
    function Position(): (t: TreePos)
      reads this, info
      ensures t.AtEnd? <==> info.gridLevel == null
      ensures t.At? ==> t.place == Here()
    {
      if info.gridLevel == null then AtEnd else At(Here())
    }

    /** `isDone_(dereference())`: the info's grid level is the root level, by identity; that is, on the root's level. */
    function IsDone(): (done: bool)
      reads this, info, levels
      requires Valid()
      ensures done <==> info.gridLevel.level == rootLevel.level
    {
      info.gridLevel == rootLevel
    }

    /** The position after one increment. */
    ghost function Next(): (t: TreePos)
      reads this, info, levels
      requires Valid()
    {
      TreeStepIn(levels, dim, rootLevel.level, isLeaf, Here())
    }

    /** `TreeIterator(entity, isLeaf)`: a copy of the entity's info, with the entity's level as root. */
    constructor (entity: Entity, levels: seq<GridLevel>, isLeaf: Place -> bool)
      requires entity.info.Shaped() && AtLevel(levels, entity.info.dim, entity.info.gridLevel)
      ensures dim == entity.info.dim && this.levels == levels && this.isLeaf == isLeaf && fresh(info)
      ensures rootLevel == entity.info.gridLevel && Valid() && IsDone()
      ensures Position() == At(Place(entity.Level(), entity.info.id))
      ensures info.partitionNumber == entity.info.partitionNumber && info.direction == entity.info.direction
    {
      dim := entity.info.dim;
      this.levels := levels;
      info := new EntityInfo.Copy(entity.info);
      rootLevel := entity.info.gridLevel;
      this.isLeaf := isLeaf;
    }

    /** `TreeIterator(isLeaf)`: an empty info and no root level, the end. */
    constructor End(dim: nat, codim: nat, levels: seq<GridLevel>, isLeaf: Place -> bool)
      requires codim <= dim
      ensures this.dim == dim && this.levels == levels && this.isLeaf == isLeaf && fresh(info)
      ensures rootLevel == null && Position() == AtEnd && info.partitionNumber == MaxUnsigned
    {
      this.dim := dim;
      this.levels := levels;
      info := new EntityInfo.Empty(dim, codim);
      rootLevel := null;
      this.isLeaf := isLeaf;
    }

    /**
     * `increment()`: at a leaf the loop of `nextChild()` and `up()`,
     * otherwise `down()`.
     */
    method Increment()
      requires Valid()
      modifies info
      ensures Position() == old(Next())
      ensures info.gridLevel != null ==> Valid() && info.partitionNumber == old(info.partitionNumber)
    {
      ghost var target := Next();
      HierarchyRefined(levels, dim);
      if isLeaf(Here()) || info.gridLevel == levels[|levels| - 1] {
        assert target == TreeClimbIn(levels, dim, rootLevel.level, Here());
        Ascend();
      } else {
        info.Down(levels);
        assert Position() == target;
      }
    }

    /**
     * The loop of `increment()`: `nextChild()` until a next sibling is found
     * (return), `up()` after each wrap-around, and at the root's level the
     * info becomes `EntityInfo()`.
     */
    method Ascend()
      requires Valid()
      modifies info
      ensures Position() == old(TreeClimbIn(levels, dim, rootLevel.level, Here()))
      ensures info.gridLevel != null ==> Valid() && info.partitionNumber == old(info.partitionNumber)
    {
      ghost var refs := LevelRefinements(levels);
      ghost var root := rootLevel.level;
      ghost var target := TreeClimbIn(levels, dim, root, Here());
      HierarchyRefined(levels, dim);
      while info.gridLevel != rootLevel
        invariant Valid() && TreeClimb(dim, refs, root, Here()) == target
        invariant info.partitionNumber == old(info.partitionNumber)
        decreases info.gridLevel.level
      {
        ghost var p := Here();
        LevelValid(levels, dim, p.level);
        info.gridLevel.MacroIffLevelZero();
        var more := info.NextChild();
        if more {
          assert Position() == target;
          return;
        }
        info.Up(levels);
        assert Here() == Place(p.level - 1, RefFather(dim, refs[p.level], RefNextChild(dim, refs[p.level], p.id).0));
      }
      info.Clear();
    }
  }

  /** `EntityTree(grid, entity, isLeaf)`: the tree below an entity. */
  class EntityTree {
    const levels: seq<GridLevel>
    /** `entity_`, a copy of the entity. */
    const entity: Entity
    const isLeaf: Place -> bool

    constructor (levels: seq<GridLevel>, entity: Entity, isLeaf: Place -> bool)
      ensures this.levels == levels && this.isLeaf == isLeaf && fresh(this.entity) && fresh(this.entity.info)
      ensures this.entity.info.dim == entity.info.dim && this.entity.info.codim == entity.info.codim
      ensures this.entity.info.gridLevel == entity.info.gridLevel && this.entity.info.id == entity.info.id
      ensures this.entity.info.partitionNumber == entity.info.partitionNumber
      ensures this.entity.info.direction == entity.info.direction
    {
      this.levels := levels;
      this.entity := new Entity(entity.info);
      this.isLeaf := isLeaf;
    }

    /** `begin()`: the iterator at the entity itself, with its level as root. */
    method Begin() returns (it: TreeIterator)
      requires entity.info.Shaped() && AtLevel(levels, entity.info.dim, entity.info.gridLevel)
      ensures fresh(it) && fresh(it.info) && it.levels == levels && it.isLeaf == isLeaf
      ensures it.Valid() && it.rootLevel == entity.info.gridLevel
      ensures it.Position() == At(Place(entity.Level(), entity.info.id))
    {
      it := new TreeIterator(entity, levels, isLeaf);
    }

    /** `end()`: the default iterator. */
    method End() returns (it: TreeIterator)
      requires entity.info.codim <= entity.info.dim
      ensures fresh(it) && fresh(it.info) && it.Position() == AtEnd && it.rootLevel == null
    {
      it := new TreeIterator.End(entity.info.dim, entity.info.codim, levels, isLeaf);
    }

    /** `empty()`: a tree always holds its root. */
    function Empty(): (empty: bool)
      ensures !empty
    {
      false
    }
  }

  /**
   * What the intersection tree iterator reads and writes of an
   * intersection: the info of the intersection's entity (its level and
   * id), whether the inside element is set, and the face `indexInInside()`.
   */
  datatype TreeIntersection = TreeIntersection(info: Place, hasInside: bool, face: int)

  /** `TreeIterator< Intersection, IsLeaf >`: an intersection with the root level and the leaf predicate. */
  class IntersectionTreeIterator {
    const dim: nat
    /** The refinements the grid's levels were made by. */
    const refs: seq<Refinement>
    /** `isDone_`'s root level, absent for the end iterator. */
    const rootLevel: Option<nat>
    const isLeaf: Place -> bool
    /** `intersection_`. */
    var intersection: TreeIntersection

    /** The intersection's info is on a level of the grid, at or below the root's level. */
    predicate Valid()
      reads this
    {
      Refined(dim, refs) && rootLevel.Some? && |intersection.info.id| == dim
      && rootLevel.value <= intersection.info.level < |refs|
    }

    /** The position after one increment. */
    function Next(): (t: TreePos)
      reads this
      requires Valid()
    {
      TreeStep(dim, refs, rootLevel.value, isLeaf, intersection.info)
    }

    /** `TreeIterator(intersection, isLeaf)`: a copy of the intersection, with its level as root. */
    constructor (dim: nat, refs: seq<Refinement>, intersection: TreeIntersection, isLeaf: Place -> bool)
      requires Refined(dim, refs) && |intersection.info.id| == dim && intersection.info.level < |refs|
      ensures this.dim == dim && this.refs == refs && this.isLeaf == isLeaf
      ensures this.intersection == intersection && rootLevel == Some(intersection.info.level) && Valid()
    {
      this.dim := dim;
      this.refs := refs;
      this.intersection := intersection;
      rootLevel := Some(intersection.info.level);
      this.isLeaf := isLeaf;
    }

    /**
     * `TreeIterator(face, isLeaf)`: an intersection of `face` with no inside
     * element; the entity info, which C++ takes from that empty element, is
     * the macro level's zero id here.  C++ ignores `isLeaf` and
     * default-constructs the predicate; an end is never incremented, so the
     * model keeps the caller's predicate.
     */
    constructor End(dim: nat, refs: seq<Refinement>, face: int, isLeaf: Place -> bool)
      ensures this.dim == dim && this.refs == refs && this.isLeaf == isLeaf && rootLevel.None?
      ensures intersection == TreeIntersection(Place(0, Zeros(dim)), false, face)
    {
      this.dim := dim;
      this.refs := refs;
      intersection := TreeIntersection(Place(0, Zeros(dim)), false, face);
      rootLevel := None;
      this.isLeaf := isLeaf;
    }

    /**
     * `increment()` on a copy of the intersection's entity info: a next
     * sibling or the first child is written back with `setEntityInfo`; at
     * the root's level only the inside element is cleared (`setInside(
     * ElementInfo())`), the intersection keeping its info and face.
     */
    method Increment()
      requires Valid()
      modifies this
      ensures old(Next()).At? ==> intersection == old(intersection).(info := old(Next()).place) && Valid()
      ensures old(Next()).AtEnd? ==> intersection == old(intersection).(hasInside := false)
    {
      ghost var target := Next();
      var e := intersection.info;
      var root := rootLevel.value;
      if isLeaf(e) || e.level == |refs| - 1 {
        while e.level != root
          invariant root <= e.level < |refs| && |e.id| == dim
          invariant TreeClimb(dim, refs, root, e) == target
          decreases e.level
        {
          var r := refs[e.level];
          var next := RefNextChild(dim, r, e.id);
          if next.1 {
            intersection := intersection.(info := Place(e.level, next.0));
            return;
          }
          e := Place(e.level - 1, RefFather(dim, r, next.0));
        }
        intersection := intersection.(hasInside := false);
      } else {
        e := Place(e.level + 1, RefFirstChild(dim, refs[e.level + 1], e.id));
        intersection := intersection.(info := e);
      }
    }
  }

  /** `IntersectionTree(grid, intersection, isLeaf)`: the tree below an intersection. */
  class IntersectionTree {
    const dim: nat
    const refs: seq<Refinement>
    const intersection: TreeIntersection
    const isLeaf: Place -> bool

    constructor (dim: nat, refs: seq<Refinement>, intersection: TreeIntersection, isLeaf: Place -> bool)
      ensures this.dim == dim && this.refs == refs && this.intersection == intersection && this.isLeaf == isLeaf
    {
      this.dim := dim;
      this.refs := refs;
      this.intersection := intersection;
      this.isLeaf := isLeaf;
    }

    /** `begin()`: the iterator at the intersection itself. */
    method Begin() returns (it: IntersectionTreeIterator)
      requires Refined(dim, refs) && |intersection.info.id| == dim && intersection.info.level < |refs|
      ensures fresh(it) && it.Valid() && it.intersection == intersection
      ensures it.rootLevel == Some(intersection.info.level) && it.isLeaf == isLeaf
    {
      it := new IntersectionTreeIterator(dim, refs, intersection, isLeaf);
    }

    /** `end()`: an intersection of the same face without an inside element. */
    method End() returns (it: IntersectionTreeIterator)
      ensures fresh(it) && !it.intersection.hasInside && it.intersection.face == intersection.face
      ensures it.rootLevel.None?
    {
      it := new IntersectionTreeIterator.End(dim, refs, intersection.face, isLeaf);
    }

    /** `empty()`: a tree always holds its root. */
    function Empty(): (empty: bool)
      ensures !empty
    {
      false
    }
  }
}
