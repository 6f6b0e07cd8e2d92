// SPGridLevel: one level of the grid hierarchy.  A level knows its father
// and child level, how much finer than the macro level it is on each axis
// (the macro factor), its global and local mesh, its partition pool and one
// geometry cache per direction.

module GridLevels {
  import opened Bits
  import opened MultiIndices
  import opened Meshes
  import opened Decompositions
  import opened Refinements
  import opened RefinementOps
  import opened Partitions
  import opened PartitionPools
  import opened GeometryCaches
  import opened Errors

  // ---------------------------------------------------------------------
  // Macro ids
  // ---------------------------------------------------------------------

  /** `macroId(id)`: the cell index id[i] >> 1 shrinks by the macro factor, the parity bit stays. */
  function MacroIdOf(mf: seq<int>, id: MultiIndex): (m: MultiIndex)
    requires |mf| == |id| && ValidFactors(mf)
    ensures |m| == |id|
  {
    seq(|id|, i requires 0 <= i < |id| => 2 * ((id[i] / 2) / mf[i]) + id[i] % 2)
  }

  /** Nested floor divisions by positive numbers are one division by their product. */
  lemma {:induction false} DivDiv(y: int, a: int, m: int)
    requires a >= 1 && m >= 1
    ensures (y / a) / m == y / (a * m)
  {
    var q, r := y / a, y % a;
    var s, t := q / m, q % m;
    assert y == a * q + r;
    assert q == m * s + t;
    assert y == (a * m) * s + (a * t + r) by {
      assert a * q == a * (m * s) + a * t;
    }
    NonNegMul(a, t);
    NonNegMul(a, m - 1 - t);
    assert a * (m - 1 - t) == a * m - a - a * t;
    DivModUnique(y, a * m, s, a * t + r);
  }

  /** 2q + b with b a parity bit has quotient q and remainder b. */
  lemma {:induction false} HalfOf(q: int, b: int)
    requires 0 <= b < 2
    ensures (2 * q + b) / 2 == q && (2 * q + b) % 2 == b
  {
    DivModUnique(2 * q + b, 2, q, b);
  }

  /** Each component keeps its parity, and its cell index is the id's cell index divided by the factor. */
  lemma {:induction false} MacroIdParity(mf: seq<int>, id: MultiIndex, i: nat)
    requires |mf| == |id| && ValidFactors(mf) && i < |id|
    ensures MacroIdOf(mf, id)[i] % 2 == id[i] % 2
    ensures MacroIdOf(mf, id)[i] / 2 == (id[i] / 2) / mf[i]
  {
    HalfOf((id[i] / 2) / mf[i], id[i] % 2);
  }

  /** On the macro level (every factor 1) an id is its own macro id. */
  lemma {:induction false} MacroIdOfUnit(mf: seq<int>, id: MultiIndex)
    requires |mf| == |id| && forall i :: 0 <= i < |mf| ==> mf[i] == 1
    ensures MacroIdOf(mf, id) == id
  {
    forall i | 0 <= i < |id|
      ensures MacroIdOf(mf, id)[i] == id[i]
    {
      assert (id[i] / 2) / mf[i] == id[i] / 2;
    }
  }

  /** The father component's cell index is the cell index divided by the factor. */
  lemma {:induction false} FatherCell(x: int, a: int)
    requires a >= 1
    ensures FatherComponent(x, a) / 2 == (x / 2) / a && FatherComponent(x, a) % 2 == x % 2
  {
    var q := x / a;
    assert q - q % 2 == 2 * (q / 2);
    HalfOf(q / 2, x % 2);
    DivDiv(x, a, 2);
    DivDiv(x, 2, a);
  }

  /** A factor at least 1 times a factor at least 1 is at least 1. */
  lemma {:induction false} FactorProduct(a: int, b: int)
    requires a >= 1 && b >= 1
    ensures a * b >= 1
  {
    NonNegMul(a - 1, b - 1);
  }

  /**
   * The macro id of an id on a level with factors mf * f is the macro id,
   * on the father level with factors mf, of the father of the id.
   */
  lemma {:induction false} MacroIdThroughFather(mf: seq<int>, f: seq<int>, child: seq<int>, id: MultiIndex)
    requires |mf| == |f| == |child| == |id| && ValidFactors(mf) && ValidFactors(f)
    requires forall i :: 0 <= i < |id| ==> child[i] == mf[i] * f[i]
    ensures ValidFactors(child)
    ensures MacroIdOf(child, id) == MacroIdOf(mf, FatherOf(f, id))
  {
    forall i | 0 <= i < |id|
      ensures child[i] >= 1
    {
      FactorProduct(mf[i], f[i]);
    }
    var father := FatherOf(f, id);
    forall i | 0 <= i < |id|
      ensures MacroIdOf(child, id)[i] == MacroIdOf(mf, father)[i]
    {
      FatherCell(id[i], f[i]);
      DivDiv(id[i] / 2, f[i], mf[i]);
      assert f[i] * mf[i] == child[i];
    }
  }

  /**
   * The quick macro id of `boundaryIndex`, id[i] / macroFactor[i], and the
   * macro id agree in everything but the parity bit.
   */
  lemma {:induction false} BoundaryMacroIdAgrees(mf: seq<int>, id: MultiIndex, i: nat)
    requires |mf| == |id| && ValidFactors(mf) && i < |id|
    ensures (id[i] / mf[i]) / 2 == MacroIdOf(mf, id)[i] / 2
  {
    MacroIdParity(mf, id, i);
    DivDiv(id[i], mf[i], 2);
    DivDiv(id[i], 2, mf[i]);
  }

  /** The macro factors of a macro level: `macroFactor_[i] = 1`. */
  method UnitFactors(dim: nat) returns (mf: seq<int>)
    ensures |mf| == dim && forall i :: 0 <= i < dim ==> mf[i] == 1
  {
    mf := [];
    for i := 0 to dim
      invariant |mf| == i && forall k :: 0 <= k < i ==> mf[k] == 1
    {
      mf := mf + [1];
    }
  }

  /** The macro factors of a child level: `father.macroFactor_[i] * refinement.factor(i)`. */
  method ScaleFactors(mf: seq<int>, f: seq<int>) returns (r: seq<int>)
    requires |mf| == |f|
    ensures |r| == |f| && forall i :: 0 <= i < |f| ==> r[i] == mf[i] * f[i]
  {
    r := [];
    for i := 0 to |f|
      invariant |r| == i && forall k :: 0 <= k < i ==> r[k] == mf[k] * f[k]
    {
      r := r + [mf[i] * f[i]];
    }
  }

  // ---------------------------------------------------------------------
  // The geometry-cache table
  // ---------------------------------------------------------------------

  /** c is the cache `SPGeometryCache(h, dir)` of codimension dim - bitCount(dir). */
  ghost predicate CacheFor(dim: nat, h: seq<real>, dir: nat, c: GeometryCache)
  {
    c.codim + PopCount(dir) == dim && |h| == dim
    && ValidJacobian(c.jacobian) && c.jacobian.dim == dim && c.jacobian.dir == dir
    && (forall k :: 0 <= k < |c.jacobian.h| ==> c.jacobian.h[k] == h[Nonzero(c.jacobian)[k]])
    && c.volume == RealProduct(c.jacobian.h)
  }

  /** Every direction of the level has its cache. */
  ghost predicate CachesBuilt(dim: nat, h: seq<real>, caches: seq<Option<GeometryCache>>)
  {
    |caches| == Pow2(dim)
    && forall dir :: 0 <= dir < Pow2(dim) ==> caches[dir].Some? && CacheFor(dim, h, dir, caches[dir].value)
  }

  /** `BuildGeometryCache<codim>::apply`: a cache for each direction with bitCount(dir) == dim - codim. */
  method BuildCodim(dim: nat, codim: nat, h: seq<real>, caches: seq<Option<GeometryCache>>) returns (r: seq<Option<GeometryCache>>)
    requires codim <= dim && |h| == dim && |caches| == Pow2(dim)
    ensures |r| == Pow2(dim)
    ensures forall dir :: 0 <= dir < Pow2(dim) && PopCount(dir) + codim == dim ==>
      r[dir].Some? && CacheFor(dim, h, dir, r[dir].value)
    ensures forall dir :: 0 <= dir < Pow2(dim) && PopCount(dir) + codim != dim ==> r[dir] == caches[dir]
  {
    r := caches;
    for dir := 0 to Pow2(dim)
      invariant |r| == Pow2(dim)
      invariant forall d :: 0 <= d < dir && PopCount(d) + codim == dim ==> r[d].Some? && CacheFor(dim, h, d, r[d].value)
      invariant forall d :: 0 <= d < Pow2(dim) && (d >= dir || PopCount(d) + codim != dim) ==> r[d] == caches[d]
    {
      if PopCount(dir) == dim - codim {
        var c := MakeGeometryCache(dim, codim, h, dir);
        r := r[dir := Some(c)];
      }
    }
  }

  /**
   * `ForLoop<BuildGeometryCache, 0, dimension>`: codimension by codimension;
   * once codimension codim is done, exactly the directions of the
   * codimensions up to codim have their cache.
   */
  method BuildGeometryCaches(dim: nat, h: seq<real>) returns (caches: seq<Option<GeometryCache>>)
    requires |h| == dim
    ensures CachesBuilt(dim, h, caches)
  {
    caches := seq(Pow2(dim), _ => None);
    forall dir | 0 <= dir < Pow2(dim)
      ensures PopCount(dir) <= dim
    {
      PopCountBound(dir, dim);
    }
    for codim := 0 to dim + 1
      invariant |caches| == Pow2(dim)
      invariant forall dir :: 0 <= dir < Pow2(dim) && PopCount(dir) + codim > dim ==>
        caches[dir].Some? && CacheFor(dim, h, dir, caches[dir].value)
      invariant forall dir :: 0 <= dir < Pow2(dim) && PopCount(dir) + codim <= dim ==> caches[dir].None?
    {
      caches := BuildCodim(dim, codim, h, caches);
    }
  }

  /** The cache of a direction has the codimension its bit count fixes, and holds only for it. */
  lemma {:induction false} CacheCodimension(dim: nat, h: seq<real>, caches: seq<Option<GeometryCache>>, codim: nat, dir: nat)
    requires CachesBuilt(dim, h, caches) && dir < Pow2(dim)
    ensures caches[dir].value.codim == codim <==> PopCount(dir) == dim - codim
  {
  }

  // ---------------------------------------------------------------------
  // Levels
  // ---------------------------------------------------------------------

  class GridLevel {
    const dim: nat
    /** `father_`: null on the macro level. */
    const father: GridLevel?
    /** `child_`: the next finer level, null on the leaf level. */
    var child: GridLevel?
    const level: nat
    /** `refinement_`: how this level came from its father; unread on the macro level. */
    const refinement: Option<Refinement>
    const macroFactor: seq<int>
    const globalMesh: Mesh
    const localMesh: Mesh
    /** `h_`: the cell widths, which come from the domain. */
    const h: seq<real>
    /** `geometryCache_`, one slot per direction. */
    const geometryCaches: seq<Option<GeometryCache>>

    /**
     * What the constructors establish: the macro level has level 0 and
     * factor 1 on every axis; a child level is one deeper than its father,
     * its macro factor is the father's times the refinement's factor, and
     * its meshes are the father's refined.
     */
    ghost predicate Valid()
      decreases level
    {
      |macroFactor| == dim && ValidFactors(macroFactor) && |h| == dim && dim < 31
      && ValidMesh(dim, globalMesh) && ValidMesh(dim, localMesh)
      && CachesBuilt(dim, h, geometryCaches)
      && (father == null ==>
            level == 0 && refinement.None? && forall i :: 0 <= i < dim ==> macroFactor[i] == 1)
      && (father != null ==>
            father.level + 1 == level && father.dim == dim
            && refinement.Some? && Ready(dim, refinement.value) && father.Valid()
            && (forall i :: 0 <= i < dim ==> macroFactor[i] == father.macroFactor[i] * RefFactors(dim, refinement.value)[i])
            && globalMesh == Refined(father.globalMesh, RefFactors(dim, refinement.value))
            && localMesh == Refined(father.localMesh, RefFactors(dim, refinement.value)))
    }

    /**
     * `SPGridLevel(grid, decomposition)`: the macro level of this process,
     * the global mesh the decomposition's and the local mesh the rank's
     * piece of it; no father, no child, level 0, macro factor 1.
     */
    constructor Macro(dim: nat, d: Decomposition, rank: nat, h: seq<real>)
      requires WellFormed(d.root) && rank < d.root.size
      requires ValidMesh(dim, d.root.mesh) && AllValid(dim, Leaves(d.root))
      requires |h| == dim && dim < 31
      ensures Valid() && father == null && child == null && level == 0
      ensures this.dim == dim && this.h == h
      ensures forall i :: 0 <= i < dim ==> macroFactor[i] == 1
      ensures globalMesh == d.root.mesh && localMesh == SubMesh(d.root, rank)
    {
      SubMeshIsLeaf(d.root, rank);
      var local := SubMesh(d.root, rank);
      var mf := UnitFactors(dim);
      var caches := BuildGeometryCaches(dim, h);
      this.dim := dim;
      father := null;
      child := null;
      level := 0;
      refinement := None;
      macroFactor := mf;
      globalMesh := d.root.mesh;
      localMesh := local;
      this.h := h;
      geometryCaches := caches;
    }

    /**
     * `SPGridLevel(father, refinement)`: the father must not have a child
     * yet and gets this level as its child; the level is one deeper, the
     * macro factor grows by the refinement's factor and both meshes are
     * refined.
     */
    constructor Refine(father: GridLevel, refinement: Refinement, h: seq<real>)
      requires father.Valid() && father.child == null
      requires Ready(father.dim, refinement) && |h| == father.dim
      modifies father
      ensures Valid() && this.father == father && father.child == this && child == null
      ensures level == father.level + 1 && dim == father.dim && this.h == h && this.refinement == Some(refinement)
      ensures forall i :: 0 <= i < dim ==> macroFactor[i] == father.macroFactor[i] * RefFactors(dim, refinement)[i]
      ensures globalMesh == Refined(father.globalMesh, RefFactors(dim, refinement))
      ensures localMesh == Refined(father.localMesh, RefFactors(dim, refinement))
    {
      var dim := father.dim;
      var f := RefFactors(dim, refinement);
      var global := Refined(father.globalMesh, f);
      var local := Refined(father.localMesh, f);
      var mf := ScaleFactors(father.macroFactor, f);
      forall i | 0 <= i < dim
        ensures mf[i] >= 1
      {
        FactorProduct(father.macroFactor[i], f[i]);
      }
      var caches := BuildGeometryCaches(dim, h);
      this.dim := dim;
      this.father := father;
      child := null;
      level := father.level + 1;
      this.refinement := Some(refinement);
      macroFactor := mf;
      globalMesh := global;
      localMesh := local;
      this.h := h;
      geometryCaches := caches;
      new;
      father.child := this;
    }

    /** `isMacro()`. */
    predicate IsMacro()
    {
      father == null
    }

    /** `isLeaf()`. */
    predicate IsLeaf()
      reads this
    {
      child == null
    }

    /** On a valid level, being the macro level and having level 0 are the same. */
    lemma {:induction false} MacroIffLevelZero()
      requires Valid()
      ensures IsMacro() <==> level == 0
    {
    }

    /** `fatherLevel()`, which asserts that this is not the macro level: one level coarser. */
    function FatherLevel(): (f: GridLevel)
      requires Valid() && !IsMacro()
      ensures f == father && f.Valid() && f.level + 1 == level && f.dim == dim
    {
      father
    }

    /** `childLevel()`, which asserts that this is not the leaf level. */
    function ChildLevel(): (c: GridLevel)
      reads this
      requires !IsLeaf()
      ensures c == child
    {
      child
    }

    /** `refinement()`, which asserts that this is not the macro level. */
    function LevelRefinement(): (r: Refinement)
      requires Valid() && !IsMacro()
      ensures Ready(dim, r) && Some(r) == refinement
    {
      refinement.value
    }

    /**
     * `partition<pitype>()`: the list of that type of the level's partition
     * pool, which is built from the level's meshes with no overlap and no
     * periodic axis; GridError for an unknown type.
     */
    function PartitionOf(pitype: int): (r: Result<seq<Partition>>)
      requires Valid()
      ensures r.Ok? <==> InteriorPartition <= pitype <= GhostPartition
      ensures r.Ok? ==> r.value == PoolContents(localMesh, globalMesh, Zeros(dim), 0)[pitype]
      ensures r.Err? ==> r.error == GridError
    {
      if InteriorPartition <= pitype <= GhostPartition then
        Ok(PoolContents(localMesh, globalMesh, Zeros(dim), 0)[pitype])
      else Err(GridError)
    }

    /** `macroId(id)`. */
    method MacroId(id: MultiIndex) returns (m: MultiIndex)
      requires Valid() && |id| == dim
      ensures m == MacroIdOf(macroFactor, id)
    {
      m := [];
      for i := 0 to dim
        invariant |m| == i && forall k :: 0 <= k < i ==> m[k] == MacroIdOf(macroFactor, id)[k]
      {
        m := m + [2 * ((id[i] / 2) / macroFactor[i]) + id[i] % 2];
      }
    }

    /** The macro id that `boundaryIndex` hands to the grid: id[i] / macroFactor[i]. */
    method BoundaryMacroId(id: MultiIndex) returns (m: MultiIndex)
      requires Valid() && |id| == dim
      ensures |m| == dim && forall i :: 0 <= i < dim ==> m[i] / 2 == MacroIdOf(macroFactor, id)[i] / 2
      ensures forall i :: 0 <= i < dim ==> m[i] == id[i] / macroFactor[i]
    {
      m := [];
      for i := 0 to dim
        invariant |m| == i && forall k :: 0 <= k < i ==> m[k] == id[k] / macroFactor[k]
      {
        m := m + [id[i] / macroFactor[i]];
      }
      forall i | 0 <= i < dim
        ensures m[i] / 2 == MacroIdOf(macroFactor, id)[i] / 2
      {
        BoundaryMacroIdAgrees(macroFactor, id, i);
      }
    }

    /** `geometryCache<codim>(dir)`, which asserts bitCount(dir) == dim - codim. */
    function GeometryCacheAt(codim: nat, dir: nat): (c: GeometryCache)
      requires Valid() && codim <= dim && dir < Pow2(dim) && PopCount(dir) == dim - codim
      ensures c.codim == codim && CacheFor(dim, h, dir, c)
    {
      geometryCaches[dir].value
    }

    /** `size()`: the number of cells, the product of the cell counts per axis. */
    method Size(cells: MultiIndex) returns (n: int)
      requires |cells| == dim
      ensures n == Product(cells)
    {
      n := 1;
      for i := 0 to dim
        invariant n == Product(cells[..i])
      {
        assert cells[..i + 1] == cells[..i] + [cells[i]];
        ProductSnoc(cells[..i], cells[i]);
        n := n * cells[i];
      }
      assert cells[..dim] == cells;
    }
  }

  /**
   * The macro element an id lies in, found by applying the father rule of
   * each level's refinement until the macro level is reached.
   */
  ghost function MacroAncestor(l: GridLevel, id: MultiIndex): (m: MultiIndex)
    requires l.Valid() && |id| == l.dim
    ensures |m| == l.dim
    decreases l.level
  {
    if l.father == null then id
    else MacroAncestor(l.father, RefFather(l.dim, l.refinement.value, id))
  }

  /** `macroId` takes an id straight to the macro level: it is the id's macro ancestor. */
  lemma {:induction false} MacroIdIsMacroAncestor(l: GridLevel, id: MultiIndex)
    requires l.Valid() && |id| == l.dim
    ensures MacroIdOf(l.macroFactor, id) == MacroAncestor(l, id)
    decreases l.level
  {
    if l.father == null {
      MacroIdOfUnit(l.macroFactor, id);
    } else {
      var r := l.refinement.value;
      var f := RefFactors(l.dim, r);
      RefinementsAgree(l.dim, r, id);
      MacroIdThroughFather(l.father.macroFactor, f, l.macroFactor, id);
      MacroIdIsMacroAncestor(l.father, RefFather(l.dim, r, id));
    }
  }

  /**
   * The levels of a grid from the macro level down: level k is the k-th,
   * each level's child is the next one and the last one has none.
   */
  ghost predicate Linked(levels: seq<GridLevel>)
    reads levels
  {
    |levels| >= 1 && levels[0].father == null
    && (forall k :: 0 <= k < |levels| ==> levels[k].level == k)
    && (forall j, k :: 0 <= j < |levels| && k == j + 1 < |levels| ==> levels[k].father == levels[j] && levels[j].child == levels[k])
    && levels[|levels| - 1].child == null
  }

  /**
   * The levels of one grid: linked, and the leaf level valid with the
   * grid's dimension (and so, through the father pointers, every level;
   * see LevelValid).
   */
  ghost predicate Hierarchy(levels: seq<GridLevel>, dim: nat)
    reads levels
  {
    Linked(levels) && levels[|levels| - 1].Valid() && levels[|levels| - 1].dim == dim
  }

  /** Every level of a hierarchy is valid with the grid's dimension. */
  lemma {:induction false} LevelValid(levels: seq<GridLevel>, dim: nat, k: nat)
    requires Hierarchy(levels, dim) && k < |levels|
    ensures levels[k].Valid() && levels[k].dim == dim
    decreases |levels| - k
  {
    if k < |levels| - 1 {
      LevelValid(levels, dim, k + 1);
      assert levels[k + 1].father == levels[k];
    }
  }

  /** The macro level on its own is a hierarchy. */
  lemma MacroHierarchy(l: GridLevel)
    requires l.Valid() && l.father == null && l.child == null
    ensures Hierarchy([l], l.dim)
  {
  }

  /**
   * `new SPGridLevel(leafLevel(), refinement)` at the end of a hierarchy:
   * the old leaf level gets the new level as its child, and the levels
   * with the new one appended are a hierarchy again.
   */
  method RefineLeaf(levels: seq<GridLevel>, dim: nat, refinement: Refinement, h: seq<real>) returns (child: GridLevel)
    requires Hierarchy(levels, dim) && Ready(dim, refinement) && |h| == dim
    modifies levels[|levels| - 1]
    ensures fresh(child) && Hierarchy(levels + [child], dim)
    ensures child.father == levels[|levels| - 1] && child.refinement == Some(refinement) && child.h == h
  {
    var leaf := levels[|levels| - 1];
    assert forall k :: 0 <= k < |levels| - 1 ==> levels[k].level != leaf.level;
    child := new GridLevel.Refine(leaf, refinement, h);
    assert (levels + [child])[|levels|] == child;
  }

  /**
   * `~SPGridLevel()` of level i: its child is destroyed first (which clears
   * this level's child pointer), then the father's child pointer is
   * cleared.  Afterwards no level from i - 1 on has a child, and the
   * levels above are untouched.
   */
  method Destroy(levels: seq<GridLevel>, i: nat)
    requires Linked(levels) && i < |levels|
    modifies levels
    ensures forall k :: 0 <= k < |levels| ==> levels[k].child == (if k + 1 < i then old(levels[k].child) else null)
    decreases |levels| - i
  {
    var l := levels[i];
    assert l.father == (if i == 0 then null else levels[i - 1]);
    assert forall k :: 0 <= k < |levels| ==> levels[k].level == k;
    assert i + 1 < |levels| ==> l.child == levels[i + 1];
    if l.child != null {
      Destroy(levels, i + 1);
    }
    assert forall k :: 0 <= k < |levels| ==> levels[k].child == (if k < i then old(levels[k].child) else null);
    if l.father != null {
      l.father.child := null;
    }
  }
}
