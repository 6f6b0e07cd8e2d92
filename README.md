# SPGrid index arithmetic in Dafny

This project models the integer core of SPGrid, the structured parallel
Cartesian grid of DUNE, and proves properties of that model.

SPGrid names every entity of a level by a multi-index in doubled
coordinates:
- component i is odd when the entity extends along axis i and even when the
  entity is pinned there;
- the parities give the entity's direction, a bit field below 2^dim, and its
  codimension.

On top of that encoding the model covers:

- **Vocabulary.** `SPMultiIndex` arithmetic and increment
  (`MultiIndices`), `SPDirection` and its iterator (`Directions`), the
  face numbering of `SPNormalId` and the sparse `SPNormalVector`
  (`Normals`), and the sub-entity table of `SPReferenceCube`
  (`ReferenceCubes`).
- **Refinement.** The four refinement policies with their stream format
  (`Policies`). The child, father, child-index and sibling rules of the
  default, binary and bisection refinements on the factors of a policy
  (`Refinements`). The refinement classes that update an id in place
  (`RefinementOps`).
- **Meshes and partitions.** `SPMesh` (`Meshes`) and the recursive
  bisection `SPDecomposition` (`Decompositions`). The single-node
  `SPTopology` (`Topologies`), with its shared, reference-counted table.
  `SPBasicPartition`/`SPPartition` in doubled coordinates (`Partitions`).
  The linked `SPPartitionList` (`PartitionLists`) and its numbered cache
  (`CachedPartitionLists`). `SPPartitionPool` (`PartitionPools`): it builds
  the interior, interior-border, overlap, overlap-front, all and ghost lists
  and classifies an id.
- **Communication lists.** `SPLinkage` (`Linkages`): for every other rank,
  the non-empty intersections of local and remote partition lists, per
  interface.
- **Index sets.** `SPIndexSet` (`IndexSets`): blocks per partition and
  direction, with mixed-radix local indices, shown to be injective and
  below the size. `SPHierarchyIndexSet` (`HierarchyIndexSets`): the levels
  stacked per codimension.
- **Grid bookkeeping.** `SPGridLevel` (`GridLevels`), with father and child
  links, macro factors, macro ids and one geometry cache per direction.
  `SPGrid` (`Grids`): the level chain, `globalRefine` and the no-op
  adaptation. The boundary-segment numbering (`BoundaryIndices`).
  `SPGridView` (`GridViews`): a shared, reference-counted index set.
- **Entities.** The entity info moved by `up`/`down`/`nextChild`
  (`EntityInfos`), the entity queries (`Entities`) and the entity seed
  (`EntitySeeds`).
- **Traversals.** The traversal state machines: `SPPartitionIterator`
  (`PartitionIterators`), `SPHierarchicIterator`
  (`HierarchicIterators`), the pruned trees of `tree.hh` (`Trees`),
  `SPSuperEntityIterator` (`SuperEntityIterators`) and
  `SPSuperElementIterator` (`SuperElementIterators`).
- **Geometry and helpers.**
  - The geometry pattern and transposed Jacobian of `SPGeometryCache`
    (`GeometryCaches`).
  - The serial packed message buffers (`MessageBuffers`).
  - `transform` (`Misc`).
  - The Python factories: type names, include lists, registry and the
    refinement-mask rule of the generated `globalRefine` (`PythonFrontEnd`).
- **Shared modules.** `Bits` (bit fields as naturals) and `Errors`
  (exceptions as values).

Each C++ file that changes state in place has a Dafny class or method with
`modifies` clauses. That method is proved against a specification function
of the state it leaves behind. Pure C++ code becomes functions, and the
properties relating several calls are lemmas.

Two readings of the source need saying up front:

- **`SPMesh::grow(int)`.** In `mesh.hh:134-143` the locals `begin` and `end`
  shadow the member functions of the same name. The calls `begin()[ i ]` and
  `end()[ i ]` therefore name the local arrays and do not compile.
  `Meshes.GrownBy` models the evident intent: every axis grows by `size` on
  both sides, as the `grow(MultiIndex)` overload does.
- **Defects.** Five places in the source compute something other than what
  the surrounding code needs. Each has an as-written and a corrected member
  under "## Findings". The rest of the model uses the corrected member.

## Model

| member | source | states |
|---|---|---|
| MultiIndices.AddAssign | dune/grid/spgrid/multiindex.hh:48-53 | `id += other` leaves every component i equal to old id[i] + other[i] |
| MultiIndices.SubAssign | dune/grid/spgrid/multiindex.hh:55-60 | `id -= other` leaves every component i equal to old id[i] − other[i] |
| MultiIndices.ScaleAssign | dune/grid/spgrid/multiindex.hh:62-67 | `id *= a` multiplies every component by a |
| MultiIndices.AxpyAssign | dune/grid/spgrid/multiindex.hh:95-99 | `axpy(a, other)` adds a·other[i] to every component |
| MultiIndices.Equals | dune/grid/spgrid/multiindex.hh:79-85 | `==` holds iff all components are equal |
| MultiIndices.NotEquals | dune/grid/spgrid/multiindex.hh:87-93 | `!=` holds iff some component differs, the exact negation of `==` |
| MultiIndices.Clear | dune/grid/spgrid/multiindex.hh:101-105 | `clear()` leaves all components zero |
| MultiIndices.Zero | dune/grid/spgrid/multiindex.hh:134-139 | `zero()` is a fresh index with all components zero |
| MultiIndices.Increment | dune/grid/spgrid/multiindex.hh:107-116 | `increment(bound, k)` adds k to component 0; a component that reaches its bound is reset to 0 and k is carried to the next one |
| MultiIndices.IncrementFromSplit | dune/grid/spgrid/multiindex.hh:107-116 | the loop from component i on keeps the components below i and increments the rest |
| MultiIndices.IncrementInRange | dune/grid/spgrid/multiindex.hh:107-116 | with k = 1 every component stays within its bound |
| MultiIndices.IncrementIsOdometer | dune/grid/spgrid/multiindex.hh:107-116 | with k = 1 the mixed-radix value grows by one, and the last index wraps round to all zeros |
| MultiIndices.Codimension | dune/grid/spgrid/multiindex.hh:118-124 | `codimension()` is dim minus the number of odd components, between 0 and dim |
| MultiIndices.Direction | dune/grid/spgrid/multiindex.hh:126-132 | bit i of `direction()` is the parity of component i |
| MultiIndices.DirectionBits | dune/grid/spgrid/multiindex.hh:126-132 | the direction is below 2^dim and its bit i is the parity of component i |
| MultiIndices.DirectionPopCount | dune/grid/spgrid/multiindex.hh:118-132 | popcount(direction()) is the number of odd components, that is dim − codimension() |
| MultiIndices.Plus | dune/grid/spgrid/multiindex.hh:172-179 | `a + b` is a fresh index holding the componentwise sum |
| MultiIndices.Minus | dune/grid/spgrid/multiindex.hh:182-189 | `a - b` is a fresh index holding the componentwise difference |
| MultiIndices.SubAddCancel | dune/grid/spgrid/multiindex.hh:172-189 | (a + b) − b == a and (a − b) + b == a |
| MultiIndices.ReadWrite | dune/grid/spgrid/multiindex.hh:146-169 | reading what `<<` printed recovers the index and consumes exactly the printed tokens |
| MultiIndices.ReadInto | dune/grid/spgrid/multiindex.hh:157-169 | `>>` assigns the target only when the whole `( a, b, … )` was read, and leaves it unchanged otherwise |
| MultiIndices.Read | dune/grid/spgrid/multiindex.hh:157-169 | a successful read yields dim components and consumes at least the parentheses |
| Directions.FromBitsValue | dune/grid/spgrid/direction.hh:31 | a direction built from an `unsigned long` keeps exactly the low `dim` bits: the result is below 2^dim and agrees bit by bit with the argument |
| Directions.SmallBitsValue | dune/grid/spgrid/direction.hh:31 | a value already below 2^dim is kept unchanged |
| Directions.MyDimension | dune/grid/spgrid/direction.hh:38 | `mydimension()` is the number of set bits and never exceeds dim |
| Directions.Codimension | dune/grid/spgrid/direction.hh:39 | `codimension()` plus `mydimension()` is dim |
| Directions.DirectionCodimension | dune/grid/spgrid/direction.hh:191-196 | the direction of a multi-index is below 2^dim, its dimension is the number of odd components and its codimension is the multi-index's codimension |
| Directions.EntityDirection | dune/grid/spgrid/direction.hh:84-128 | every specialisation of `SPEntityDirection` built from an id of its dimension converts to the direction of that id |
| Directions.DefaultEntityDirection | dune/grid/spgrid/direction.hh:84-128 | a default-constructed entity direction is 0, except for elements, where it is 2^dim − 1 |
| Directions.VertexDirection | dune/grid/spgrid/direction.hh:107 | every vertex id (all components even) passes the vertex specialisation's assertion: its direction is 0 |
| Directions.ElementDirection | dune/grid/spgrid/direction.hh:126 | every element id (all components odd) passes the element specialisation's assertion: its direction is 2^dim − 1 |
| Directions.Sentinel | dune/grid/spgrid/direction.hh:172 | the end value (1<<dim) − (1<<codim) + 1 lies in 1 .. 2^dim |
| Directions.BelowFirstPattern | dune/grid/spgrid/direction.hh:163 | no pattern below the start value (1<<m) − 1 has m bits set |
| Directions.PatternsBeforeSentinel | dune/grid/spgrid/direction.hh:172 | every pattern below 2^dim with dim − codim bits set lies before the end value, so the iterator cannot stop early |
| Directions.DirectionIterator.constructor | dune/grid/spgrid/direction.hh:163 | the default iterator starts on the pattern (1 << (dim − codim)) − 1 |
| Directions.DirectionIterator.FromDirection | dune/grid/spgrid/direction.hh:164 | the iterator built from a direction of its codimension sits on that direction |
| Directions.DirectionIterator.Increment | dune/grid/spgrid/direction.hh:211-220 | `++` moves strictly forward, skips only patterns whose bit count differs from dim − codim, and stays on a valid direction or the end value |
| Directions.AllDirections | dune/grid/spgrid/direction.hh:163-220 | a full sweep of the iterator lists, in strictly increasing order, every direction below 2^dim with dim − codim bits set and nothing else |
| Directions.SweepStep | dune/grid/spgrid/direction.hh:216-218 | one step of the sweep keeps "increasing, and exactly the right patterns below the current one" |
| Directions.SweepDone | dune/grid/spgrid/direction.hh:172 | a sweep that reached the end value has seen every direction of the codimension |
| Normals.DefaultNormalId | dune/grid/spgrid/normal.hh:70 | the default normal id has face 2·dim, one past the last face, on axis dim |
| Normals.Axis | dune/grid/spgrid/normal.hh:84 | `axis()` is the axis a with face ∈ {2a, 2a+1} |
| Normals.Sign | dune/grid/spgrid/normal.hh:86 | `sign()` is −1 or 1, and 1 exactly for the odd (upper) face |
| Normals.Neg | dune/grid/spgrid/normal.hh:80 | unary minus keeps the axis and flips the sign |
| Normals.NegInvolutive | dune/grid/spgrid/normal.hh:80 | negating twice gives the original normal id |
| Normals.AxisSignDetermine | dune/grid/spgrid/normal.hh:84-86 | two normal ids with the same axis and sign are equal |
| Normals.FaceOf | dune/grid/spgrid/normal.hh:72-86 | for every axis and sign there is a face with that axis and sign |
| Normals.AddNormal | dune/grid/spgrid/normal.hh:236-250 | `id + n` changes only component axis(n), by sign(n) |
| Normals.SubNormal | dune/grid/spgrid/normal.hh:254-259 | `id − n` changes only component axis(n), by −sign(n) |
| Normals.NormalSubIsNegated | dune/grid/spgrid/normal.hh:263-268 | `n − id` is the componentwise negation of `id − n` |
| Normals.DotNormal | dune/grid/spgrid/normal.hh:272-281 | `id · n` is ± the component of id along axis(n) |
| Normals.AddSubNormal | dune/grid/spgrid/normal.hh:236-259 | `(id + n) − n == id`, and adding −n is subtracting n |
| Normals.DotAfterAdd | dune/grid/spgrid/normal.hh:236-281 | one step along n raises `id · n` by exactly one |
| Normals.DotNeg | dune/grid/spgrid/normal.hh:80-281 | the opposite normal gives the opposite signed component |
| Normals.NormalVector.constructor | dune/grid/spgrid/normal.hh:29 | `SPNormalVector(i, p)` holds position i and value p |
| Normals.NormalVector.Dense | dune/grid/spgrid/normal.hh:31-35 | the dense vector has p at position i and zero elsewhere |
| Normals.NormalVector.MulAssign | dune/grid/spgrid/normal.hh:152-157 | `*= s` multiplies the value by s |
| Normals.NormalVector.DivAssign | dune/grid/spgrid/normal.hh:161-166 | `/= s` divides the value by s (new value times s is the old value) |
| Normals.NotEqualsIsNegation | dune/grid/spgrid/normal.hh:170-180 | `!=` is exactly the negation of `==`, and `==` compares position and value |
| Normals.EqualsDense | dune/grid/spgrid/normal.hh:120-144 | equal normal vectors have equal dense forms, so the mixed comparisons agree with `==` |
| Normals.DotIsDenseDot | dune/grid/spgrid/normal.hh:184-188 | the sparse dot product of two normal vectors equals the dense dot product |
| Normals.DotFieldIsDenseDot | dune/grid/spgrid/normal.hh:192-196 | the product with a dense vector equals the dense dot product |
| Normals.NormsAreDenseNorms | dune/grid/spgrid/normal.hh:200-229 | one-, two-, squared two- and infinity-norm equal the norms of the dense vector |
| Normals.Scaled | dune/grid/spgrid/normal.hh:104-117 | `a·n` and `n·a` are fresh copies with the value scaled by a |
| Normals.ToVector | dune/grid/spgrid/normal.hh:74-78 | the conversion of a normal id is the unit vector sign·e_axis, of squared length one |
| ReferenceCubes.NumSubEntitiesPositive | dune/grid/spgrid/referencecube.hh:20-32 | the recurrence `numSubEntities(d, c)` is at least one for every c ≤ d |
| ReferenceCubes.NumCorners | dune/grid/spgrid/referencecube.hh:54 | the cube has `numCorners` = 2^d sub-entities of codimension d |
| ReferenceCubes.NumFaces | dune/grid/spgrid/referencecube.hh:55 | the cube has `numFaces` = 2d sub-entities of codimension 1 |
| ReferenceCubes.NumSubEntitiesClosedForm | dune/grid/spgrid/referencecube.hh:20-32 | the recurrence counts choose(d, c)·2^c sub-entities |
| ReferenceCubes.SubIdShape | dune/grid/spgrid/referencecube.hh:78-97 | every `subId(c, i)` lies in {−1, 0, 1}^d and has exactly c nonzero components |
| ReferenceCubes.IndexOfSubIdOf | dune/grid/spgrid/referencecube.hh:78-97 | the table position of `subId(c, i)` is i: the offsets can be looked up by value |
| ReferenceCubes.SubIdOfIndexOf | dune/grid/spgrid/referencecube.hh:78-97 | every offset with c nonzero components is the entry at its table position |
| ReferenceCubes.SideDivMod | dune/grid/spgrid/referencecube.hh:94-96 | past the first n0 entries, `(i−n0)%n1` and `2·((i−n0)/n1)−1` pick the entry and the side (−1 or 1) of the last axis |
| ReferenceCubes.SubIdSurjective | dune/grid/spgrid/referencecube.hh:105-115 | every offset in {−1,0,1}^d with c nonzero components appears in row c |
| ReferenceCubes.SubIdInjective | dune/grid/spgrid/referencecube.hh:105-115 | distinct positions of row c hold distinct offsets |
| ReferenceCubes.VertexOffsetIsZero | dune/grid/spgrid/referencecube.hh:83-90 | the only codimension-0 offset is the zero index (the element itself) |
| ReferenceCubes.FaceOffsetIsNormal | dune/grid/spgrid/referencecube.hh:78-97 | `subId(1, face)` is the unit normal of that face as `SPNormalId(face)` describes it |
| ReferenceCubes.CornerOffset | dune/grid/spgrid/referencecube.hh:78-97 | `subId(d, i)` is the corner whose component j is 2·bit j of i − 1 |
| ReferenceCubes.SubIdInto | dune/grid/spgrid/referencecube.hh:78-97 | the private `subId(d, c, i, sId)` writes the offset into the first d components of sId and leaves the rest unchanged |
| ReferenceCubes.ReferenceCube.constructor | dune/grid/spgrid/referencecube.hh:105-115 | the constructor fills one row per codimension 0 .. dim with the recursion's offsets |
| ReferenceCubes.ReferenceCube.Count | dune/grid/spgrid/referencecube.hh:65-69 | `count(codim)` is `numSubEntities(dim, codim)` |
| ReferenceCubes.ReferenceCube.SubId | dune/grid/spgrid/referencecube.hh:59-63 | `subId(codim, i)` is the table's offset: d components in {−1,0,1} with codim nonzero ones |
| ReferenceCubes.Corner | dune/grid/spgrid/referencecube.hh:118-131 | `corner(i)` has coordinate j equal to bit j of i |
| ReferenceCubes.Center | dune/grid/spgrid/referencecube.hh:134-142 | `center()` has every coordinate 1/2 |
| ReferenceCubes.CornerMatchesOffset | dune/grid/spgrid/referencecube.hh:118-131 | `corner(i)` is the corner offset `subId(d, i)` moved from [−1,1] to [0,1] |
| Policies.DefaultAnisotropic | dune/grid/spgrid/refinement.hh:72-74 | the default anisotropic policy refines every axis: refDir = 2^dim − 1, weight dim |
| Policies.MakeAnisotropic | dune/grid/spgrid/refinement.hh:76-81 | the constructor succeeds iff refDir < 2^dim and otherwise throws GridError |
| Policies.DefaultBisection | dune/grid/spgrid/refinement.hh:133-135 | the default bisection policy has direction −1 ("next axis") |
| Policies.MakeBisection | dune/grid/spgrid/refinement.hh:137-142 | the constructor succeeds iff 0 ≤ dir < dim and otherwise throws GridError |
| Policies.BisectionChildPolicy | dune/grid/spgrid/refinement.hh:145-147 | the child policy keeps an explicit direction, and otherwise takes the father's direction plus one modulo dim |
| Policies.BisectionAxesCycle | dune/grid/spgrid/refinement.hh:145-147 | repeated default bisection refines axis (n − 1) mod dim at level n: the axes cycle |
| Policies.MakeArbitraryUniform | dune/grid/spgrid/refinement.hh:208-213 | the uniform constructor succeeds iff factor > 0, giving that factor on every axis |
| Policies.MakeArbitrary | dune/grid/spgrid/refinement.hh:215-223 | the multi-index constructor succeeds iff every factor is positive |
| Policies.Factor | dune/grid/spgrid/refinement.hh:34-227 | `factor(i)` is at least 1, and 1 or 2 for all but the arbitrary policy |
| Policies.Factors | dune/grid/spgrid/refinement.hh:34-227 | the factor table has one entry ≥ 1 per axis |
| Policies.IsotropicChildren | dune/grid/spgrid/refinement.hh:29-37 | isotropic refinement has weight dim and 2^dim children |
| Policies.AnisotropicChildren | dune/grid/spgrid/refinement.hh:83-92 | anisotropic refinement has 2^weight children, weight the number of refined axes |
| Policies.BisectionChildren | dune/grid/spgrid/refinement.hh:150-159 | bisection has weight 1 and two children |
| Policies.ReadIsotropic | dune/grid/spgrid/refinement.hh:48-54 | reading succeeds iff the next token is 2^dim − 1 and never throws |
| Policies.HeadValue | dune/grid/spgrid/refinement.hh:108 | extracting an `unsigned int` stores a value below 2^32 congruent to the token modulo 2^32, the token itself when it is not negative |
| Policies.ReadAnisotropic | dune/grid/spgrid/refinement.hh:103-112 | reading fails iff no number of magnitude below 2^32 follows; a negative number wraps modulo 2^32; the read throws iff the wrapped value is ≥ 2^dim, and otherwise yields that valid policy |
| Policies.HighestBitLoop | dune/grid/spgrid/refinement.hh:181-183 | the shift loop finds the position of the highest set bit |
| Policies.ReadBisection | dune/grid/spgrid/refinement.hh:171-187 | reading fails iff no number of magnitude below 2^32 follows; on the value wrapped modulo 2^32 it throws unless exactly one bit is set at a position below dim, and otherwise yields the bisection policy of that bit |
| Policies.ReadArbitrary | dune/grid/spgrid/refinement.hh:238-243 | reading is reading a multi-index of factors and never throws |
| Policies.ReadWritePolicy | dune/grid/spgrid/refinement.hh:41-243 | for 1 ≤ dim ≤ 32, reading back what `<<` wrote gives the same policy and leaves the rest of the stream |
| Policies.ReadBisectionRejects | dune/grid/spgrid/refinement.hh:137-184 | a single bit at a position from dim up to 31 is accepted by the bit-count test but rejected by the constructor: the read throws GridError |
| Policies.ReadMinusOneThrows | dune/grid/spgrid/refinement.hh:103-184 | for dim ≤ 31 the token −1 is read as 2^32 − 1, so both the anisotropic and the bisection read throw GridError instead of failing the stream |
| Policies.ReadOutOfRangeFails | dune/grid/spgrid/refinement.hh:103-184 | a number of magnitude at least 2^32 does not fit an `unsigned int`: both reads fail the stream |
| Refinements.FatherOfChildComponent | dune/grid/spgrid/refinement.hh:282-296 | per component, the father rule undoes the (corrected) child rule |
| Refinements.DigitOfChildComponent | dune/grid/spgrid/refinement.hh:299-309 | per component, the child-index digit `(id >> 1) % α` of child r is r, and every child component is odd |
| Refinements.NextChildComponent | dune/grid/spgrid/refinement.hh:320-331 | per component, adding 2 moves to the next child digit, and the `(id % 2α) & ~1` test fails exactly when the digit wraps around, after which subtracting 2α gives digit 0 |
| Refinements.ChildAsWrittenSmallFactor | dune/grid/spgrid/refinement.hh:294 | for factors 1 and 2 the child formula as written agrees with the intended one |
| Refinements.MixedRadixOfDigits | dune/grid/spgrid/refinement.hh:291-296 | splitting a child index into mixed-radix digits (`index % α`, `index /= α`) and recombining them gives the index back |
| Refinements.DigitsOfMixedRadix | dune/grid/spgrid/refinement.hh:299-309 | recombining digits that are in range and splitting them again gives the digits back |
| Refinements.FatherOfChild | dune/grid/spgrid/refinement.hh:282-296 | for every element x and every index k < numChildren, child k of x is an element whose father is x |
| Refinements.ChildIndexOfChild | dune/grid/spgrid/refinement.hh:288-309 | `childIndex(child(x, k)) == k` |
| Refinements.ChildInjective | dune/grid/spgrid/refinement.hh:288-297 | distinct child indices give distinct children |
| Refinements.FirstChildIsChildZero | dune/grid/spgrid/refinement.hh:311-318 | `firstChild(x)` is child 0 of x |
| Refinements.ElementIsChildOfFather | dune/grid/spgrid/refinement.hh:282-309 | every element y is child `childIndex(y)` of its father, and its father is an element |
| Refinements.IncrementStaysBelow | dune/grid/spgrid/refinement.hh:320-331 | the digit increment carries out of the last digit exactly when the index was the last child |
| Refinements.NextChildOfChild | dune/grid/spgrid/refinement.hh:320-331 | `nextChild` on child k gives child k+1 and true, or child 0 and false after the last child |
| Refinements.ChildCycle | dune/grid/spgrid/refinement.hh:320-331 | repeating `nextChild` from child k returns true until it wraps to child 0 after the last child, then false once |
| Refinements.FirstChildCycle | dune/grid/spgrid/refinement.hh:311-331 | from `firstChild` the `nextChild` loop visits all numChildren children and comes back to the first |
| Refinements.ChildAsWrittenBinary | dune/grid/spgrid/refinement.hh:294 | for factors 1 and 2 (all binary refinements) the as-written child rule is correct |
| Refinements.ChildAsWrittenFactorThree | dune/grid/spgrid/refinement.hh:294 | with factor 3, child 1 of element 1 is 4 as written: not an element, and its father is 0, not 1 |
| Refinements.ChildFactorThree | dune/grid/spgrid/refinement.hh:294 | with factor 3 the corrected rule gives child 1 of element 1 as 3 |
| Refinements.BinaryFirstChildAgrees | dune/grid/spgrid/refinement.hh:396-403 | the binary `firstChild` (α·id − α/2) agrees with the default one for factors 1 and 2 |
| Refinements.ToggleAgrees | dune/grid/spgrid/refinement.hh:411-412 | for factor 2, toggling bit 1 and testing it agrees with the default add-2, test-and-wrap step |
| Refinements.BinaryNextChildAgrees | dune/grid/spgrid/refinement.hh:405-416 | the binary `nextChild` agrees with the default one for factors 1 and 2 |
| Refinements.BinaryIsCopyAgrees | dune/grid/spgrid/refinement.hh:418-424 | the binary `isCopy` (`id & 3 == 0`) agrees with the default one for factors 1 and 2 |
| Refinements.BisectionFactorsArePolicyFactors | dune/grid/spgrid/refinement.hh:155-159 | bisection's factors are 2 on its axis and 1 elsewhere, the bisection policy's factors |
| Refinements.BisectionNextChildIsBinary | dune/grid/spgrid/refinement.hh:559-565 | bisection's `nextChild` agrees with the binary one for its factors |
| Refinements.BisectionChildIsDefault | dune/grid/spgrid/refinement.hh:535-541 | bisection's `child` (2·(id + index) − 1 on its axis) agrees with the default child rule, as written and corrected |
| Refinements.BisectionFatherIsDefault | dune/grid/spgrid/refinement.hh:528-533 | bisection's `father` agrees with the default father rule |
| Refinements.BisectionChildIndexIsDefault | dune/grid/spgrid/refinement.hh:543-550 | bisection's `childIndex` agrees with the default one |
| Refinements.BisectionFirstChildIsBinary | dune/grid/spgrid/refinement.hh:552-557 | bisection's `firstChild` agrees with the binary one |
| Refinements.BisectionIsCopyIsBinary | dune/grid/spgrid/refinement.hh:567-572 | bisection's `isCopy` agrees with the binary one |
| RefinementOps.NumChildren | dune/grid/spgrid/refinement.hh:274-280 | the loop computes the product of the factors, at least one |
| RefinementOps.Father | dune/grid/spgrid/refinement.hh:282-286 | `father` replaces the id in place by its father |
| RefinementOps.ChildAsWritten | dune/grid/spgrid/refinement.hh:288-297 | the loop as written replaces the id by the as-written child (see Findings) |
| RefinementOps.Child | dune/grid/spgrid/refinement.hh:288-297 | the corrected loop replaces the id by child `index`, whose father is the old id |
| RefinementOps.ChildIndex | dune/grid/spgrid/refinement.hh:299-309 | the loop computes the child index, below numChildren |
| RefinementOps.FirstChild | dune/grid/spgrid/refinement.hh:311-318 | `firstChild` replaces the id by child 0 |
| RefinementOps.NextChild | dune/grid/spgrid/refinement.hh:320-331 | `nextChild` advances the id to the next child and reports whether one was left |
| RefinementOps.IsCopy | dune/grid/spgrid/refinement.hh:333-342 | `isCopy` tests every refined axis for `id % 2α == 0` |
| RefinementOps.BinaryFirstChild | dune/grid/spgrid/refinement.hh:396-403 | the binary `firstChild` loop, equal to the default first child |
| RefinementOps.BinaryNextChild | dune/grid/spgrid/refinement.hh:405-416 | the binary `nextChild` loop, equal to the default next child |
| RefinementOps.BinaryIsCopy | dune/grid/spgrid/refinement.hh:418-424 | the binary `isCopy` loop |
| RefinementOps.BisectionFatherOp | dune/grid/spgrid/refinement.hh:528-533 | bisection `father` changes only the bisection axis |
| RefinementOps.BisectionChildOp | dune/grid/spgrid/refinement.hh:535-541 | bisection `child` changes only the bisection axis |
| RefinementOps.BisectionChildIndexOp | dune/grid/spgrid/refinement.hh:543-550 | bisection `childIndex` reads bit 1 of the bisection axis |
| RefinementOps.BisectionFirstChildOp | dune/grid/spgrid/refinement.hh:552-557 | bisection `firstChild` |
| RefinementOps.BisectionNextChildOp | dune/grid/spgrid/refinement.hh:559-565 | bisection `nextChild` toggles bit 1 of the axis and reports it |
| RefinementOps.BisectionIsCopyOp | dune/grid/spgrid/refinement.hh:567-572 | bisection `isCopy` |
| RefinementOps.RefFactors | dune/grid/spgrid/refinement.hh:254-581 | every refinement has one factor ≥ 1 per axis, and the binary refinements only 1 and 2 |
| RefinementOps.IsotropicRefinement | dune/grid/spgrid/refinement.hh:450 | the isotropic refinement is usable in every dimension |
| RefinementOps.AnisotropicRefinement | dune/grid/spgrid/refinement.hh:480 | the anisotropic refinement holds its policy |
| RefinementOps.BisectionRefinement | dune/grid/spgrid/refinement.hh:515 | the bisection refinement holds its policy |
| RefinementOps.ArbitraryRefinement | dune/grid/spgrid/refinement.hh:266 | the arbitrary refinement holds its policy |
| RefinementOps.ChildRefinement | dune/grid/spgrid/refinement.hh:452-518 | the child refinement has the father's kind and the given policy, except that bisection with the default direction moves to the next axis |
| RefinementOps.NumChildrenIsProduct | dune/grid/spgrid/refinement.hh:454-526 | the specialised `numChildren` (2^dim, 2^bitCount(refDir), 2) is the product of the factors |
| RefinementOps.RefinementsAgree | dune/grid/spgrid/refinement.hh:377-581 | every refinement's father, childIndex, child, firstChild, nextChild and isCopy agree with the default rules on its factors |
| RefinementOps.RefinementChildren | dune/grid/spgrid/refinement.hh:254-581 | for every refinement, child k of an element is an element with father x and child index k |
| RefinementOps.RefineFather | dune/grid/spgrid/refinement.hh:282-533 | the dispatching `father` replaces the id by the refinement's father |
| RefinementOps.RefineChildIndex | dune/grid/spgrid/refinement.hh:299-550 | the dispatching `childIndex` |
| RefinementOps.RefineFirstChild | dune/grid/spgrid/refinement.hh:311-557 | the dispatching `firstChild` |
| RefinementOps.RefineNextChild | dune/grid/spgrid/refinement.hh:320-565 | the dispatching `nextChild` |
| RefinementOps.RefineIsCopy | dune/grid/spgrid/refinement.hh:333-572 | the dispatching `isCopy` |
| Meshes.MeshOfWidth | dune/grid/spgrid/mesh.hh:73-77 | the mesh built from a width starts at zero and has exactly that width |
| Meshes.BoundOfNormal | dune/grid/spgrid/mesh.hh:41 | `bound(n)` is end[axis] for an upper face and begin[axis] for a lower face |
| Meshes.Widths | dune/grid/spgrid/mesh.hh:194-208 | `width()` has component i equal to end[i] − begin[i] |
| Meshes.Max | dune/grid/spgrid/mesh.hh:159 | the componentwise maximum is at least both arguments and equal to one of them in every component |
| Meshes.Min | dune/grid/spgrid/mesh.hh:159 | the componentwise minimum is at most both arguments and equal to one of them in every component |
| Meshes.Refined | dune/grid/spgrid/mesh.hh:120-131 | `refine` multiplies begin and end componentwise by the refinement's factors |
| Meshes.Quot | dune/grid/spgrid/mesh.hh:172 | C++ integer division truncates toward zero; on non-negative operands it is Dafny's division |
| Meshes.EmptyIffNegativeWidth | dune/grid/spgrid/mesh.hh:109-115 | a mesh is empty iff some width is negative, and a non-empty mesh has non-negative volume |
| Meshes.RefineScalesWidths | dune/grid/spgrid/mesh.hh:120-131 | refinement scales every width by its factor and the volume by the product of the factors |
| Meshes.Grown | dune/grid/spgrid/mesh.hh:148-152 | `grow(size)` widens axis i by 2·size[i] |
| Meshes.GrownBy | dune/grid/spgrid/mesh.hh:135-144 | `grow(int)` moves every begin down and every end up by the same amount |
| Meshes.GrowWidens | dune/grid/spgrid/mesh.hh:135-152 | `grow(int)` is `grow` by the constant vector and so widens every axis by twice the amount |
| Meshes.Intersection | dune/grid/spgrid/mesh.hh:156-160 | `intersect` lies inside both meshes, each bound taken from one of them |
| Meshes.IntersectionIsGreatestLowerBound | dune/grid/spgrid/mesh.hh:156-160 | every mesh inside both meshes lies inside their intersection |
| Meshes.IntersectionSymmetric | dune/grid/spgrid/mesh.hh:156-160 | intersection is symmetric and idempotent |
| Meshes.Split | dune/grid/spgrid/mesh.hh:164-179 | `split` keeps the outer bounds, the two halves meet at one plane of axis dir and agree with the mesh on every other axis |
| Meshes.SplitHalves | dune/grid/spgrid/mesh.hh:164-179 | the widths of the halves along dir add up to the mesh's, and so do their volumes |
| Meshes.SplitWidthsBounded | dune/grid/spgrid/mesh.hh:171-172 | with non-negative weights and width the left width lies between 0 and the width |
| Meshes.Shifted | dune/grid/spgrid/mesh.hh:235-241 | `mesh + shift` moves both bounds by the shift |
| Meshes.Unshifted | dune/grid/spgrid/mesh.hh:244-250 | `mesh - shift` moves both bounds back by the shift |
| Meshes.ShiftRoundTrip | dune/grid/spgrid/mesh.hh:89-105 | `+= s` and `-= s` undo each other and keep the widths |
| Meshes.UnitMesh | dune/grid/spgrid/mesh.hh:212-219 | `unitMesh()` spans [0, 1) on every axis |
| Meshes.UnitMeshVolume | dune/grid/spgrid/mesh.hh:212-219 | `unitMesh()` has width one on every axis, volume one, and is not empty |
| Meshes.ShiftAssign | dune/grid/spgrid/mesh.hh:89-95 | `+=` adds the shift to both bounds in place |
| Meshes.UnshiftAssign | dune/grid/spgrid/mesh.hh:99-105 | `-=` subtracts the shift from both bounds in place |
| Meshes.Empty | dune/grid/spgrid/mesh.hh:109-115 | the `empty()` loop computes emptiness (some end below its begin) |
| Meshes.Refine | dune/grid/spgrid/mesh.hh:120-131 | the `refine` loop computes the refined mesh |
| Meshes.Grow | dune/grid/spgrid/mesh.hh:135-144 | the `grow(int)` loop computes the uniformly grown mesh |
| Meshes.Width | dune/grid/spgrid/mesh.hh:194-200 | the `width()` loop computes the widths |
| Meshes.VolumeOf | dune/grid/spgrid/mesh.hh:183-190 | the `volume()` loop computes the product of the widths |
| Meshes.MakeUnitMesh | dune/grid/spgrid/mesh.hh:212-219 | the `unitMesh()` loop computes the unit mesh |
| Decompositions.FirstMaxAxis | dune/grid/spgrid/decomposition.hh:75-77 | `max_element` picks the first axis of maximal width |
| Decompositions.Build | dune/grid/spgrid/decomposition.hh:64-81 | a node keeps its mesh and size and has children exactly when size > 1 |
| Decompositions.SubMeshesInto | dune/grid/spgrid/decomposition.hh:119-130 | `subMeshes(meshes)` appends the leaves of the node, left before right |
| Decompositions.BuildIsWellFormed | dune/grid/spgrid/decomposition.hh:64-81 | the children have sizes size/2 and size − size/2 and are the two halves of the split along the widest axis |
| Decompositions.BuildLeavesValid | dune/grid/spgrid/decomposition.hh:64-81 | every leaf of a decomposition of a valid mesh is a valid mesh |
| Decompositions.LeafCount | dune/grid/spgrid/decomposition.hh:119-130 | a node of size ≥ 1 has exactly size leaves; a node of size 0 lists its own mesh |
| Decompositions.SubMeshIsLeaf | dune/grid/spgrid/decomposition.hh:101-116 | `subMesh(rank)` is leaf number rank of `subMeshes()` |
| Decompositions.LeafVolumes | dune/grid/spgrid/decomposition.hh:64-81 | the leaves' volumes add up to the volume of the decomposed mesh: the split loses and duplicates no cell |
| Decompositions.HalvesVolume | dune/grid/spgrid/decomposition.hh:72-77 | the two halves of a split have volumes adding up to the mesh's volume |
| Decompositions.MakeDecomposition | dune/grid/spgrid/decomposition.hh:145-149 | the decomposition's root holds the mesh and the size and is well formed |
| Decompositions.DecompositionOfWidth | dune/grid/spgrid/decomposition.hh:152-156 | the width constructor decomposes the mesh from zero to that width |
| Decompositions.SubMeshes | dune/grid/spgrid/decomposition.hh:175-182 | `subMeshes()` lists the leaves, size of them, entry rank being `subMesh(rank)` |
| Topologies.NeighborEntry | dune/grid/spgrid/topology.hh:116-121 | a face's entry is 0 (the node itself) iff its axis is periodic, and UINT_MAX otherwise |
| Topologies.Topology.constructor | dune/grid/spgrid/topology.hh:109-122 | a fresh block with one node, reference count one, and the neighbour entries of the periodicity bit field |
| Topologies.Topology.Copy | dune/grid/spgrid/topology.hh:126-130 | the copy shares the other's block and raises its reference count by one, nothing else changes |
| Topologies.Topology.Release | dune/grid/spgrid/topology.hh:134-138 | the destructor lowers the reference count by one and frees the block exactly when it reaches zero |
| Topologies.Topology.Assign | dune/grid/spgrid/topology.hh:142-150 | assignment shares the other block; self-assignment keeps the count, otherwise the new count rises by one and the old one falls by one |
| Topologies.Topology.Neighbor | dune/grid/spgrid/topology.hh:161-166 | `neighbor(0, face)` is 0 or UINT_MAX |
| Topologies.Topology.OppositeFaces | dune/grid/spgrid/topology.hh:120 | the two faces of an axis have the same neighbour entry |
| Topologies.Topology.Periodic | dune/grid/spgrid/topology.hh:179-185 | the periodicity bit field has bit i set iff axis i is periodic |
| Topologies.HasNeighborOfNew | dune/grid/spgrid/topology.hh:154-157 | in a new topology a face has a neighbour iff its axis is periodic in the constructor's bit field |
| Topologies.PeriodicOfNew | dune/grid/spgrid/topology.hh:109-185 | `periodic()` gives back the low dim bits of the constructor's bit field |
| Partitions.Bound | dune/grid/spgrid/partition.hh:39-43 | `bound(b, i, d)` has parity d and is the raw bound or the next value inward |
| Partitions.BoundOfNormal | dune/grid/spgrid/partition.hh:45 | `bound(n)` is end[axis] for an upper face and begin[axis] for a lower one |
| Partitions.BoundIsTight | dune/grid/spgrid/partition.hh:39-43 | no value of parity d inside the raw bounds lies beyond `bound(b, i, d)` |
| Partitions.IntersectContains | dune/grid/spgrid/partition.hh:47-50 | the intersection contains exactly the ids both partitions contain |
| Partitions.EmptyIffNoId | dune/grid/spgrid/partition.hh:127-133 | `empty()` holds iff the partition contains no id |
| Partitions.EmptyInIffNoEntity | dune/grid/spgrid/partition.hh:137-143 | `empty(dir)` holds iff the partition contains no id of direction dir |
| Partitions.Width | dune/grid/spgrid/partition.hh:59 | `width(i)` = max((end+1)/2 − begin/2, 0), never negative |
| Partitions.WidthCountsCells | dune/grid/spgrid/partition.hh:59 | `width(i)` counts the odd (element) values between begin and end on axis i |
| Partitions.Volume | dune/grid/spgrid/partition.hh:147-153 | `volume()` is non-negative |
| Partitions.ContainsId | dune/grid/spgrid/partition.hh:117-123 | the `contains` loop tests begin ≤ id ≤ end on every axis |
| Partitions.Empty | dune/grid/spgrid/partition.hh:127-133 | the `empty()` loop |
| Partitions.EmptyIn | dune/grid/spgrid/partition.hh:137-143 | the `empty(dir)` loop compares the parity-d bounds |
| Partitions.WidthVector | dune/grid/spgrid/partition.hh:157-164 | the `width()` loop |
| Partitions.VolumeOf | dune/grid/spgrid/partition.hh:147-153 | the `volume()` loop multiplies the widths |
| Partitions.NoNeighbors | dune/grid/spgrid/partition.hh:206-207 | every face starts without a neighbour (UINT_MAX) |
| Partitions.PartitionOf | dune/grid/spgrid/partition.hh:201-222 | `SPPartition(base, number)` is a valid partition |
| Partitions.PartitionOfFaces | dune/grid/spgrid/partition.hh:201-222 | without a global mesh every face is a boundary face and has no neighbour |
| Partitions.AllFacesAreBoundary | dune/grid/spgrid/partition.hh:204 | the flag value ((1 << (2dim−1)) − 1) \| (1 << (2dim−1)) has all 2dim face bits set |
| Partitions.PartitionInMesh | dune/grid/spgrid/partition.hh:225-238 | `SPPartition(begin, end, globalMesh, number)` is a valid partition |
| Partitions.PartitionInMeshFaces | dune/grid/spgrid/partition.hh:225-238 | face 2i or 2i+1 is a boundary face iff the box touches the lower or upper global boundary there; no face has a neighbour yet |
| Partitions.SetBoundaryFlags | dune/grid/spgrid/partition.hh:232-237 | one pass of the loop sets the flags of faces 2i and 2i+1 |
| Partitions.MakePartitionInMesh | dune/grid/spgrid/partition.hh:225-238 | the constructor's loop computes that partition |
| Partitions.SetNeighbor | dune/grid/spgrid/partition.hh:258-263 | writing through `neighbor(face)` changes that entry only |
| PartitionLists.PartitionList.constructor | dune/grid/spgrid/partitionlist.hh:62 | a list whose head pointer is null holds no partition |
| PartitionLists.PartitionList.Copy | dune/grid/spgrid/partitionlist.hh:33-35 | the copy constructor clones every node: the copy holds the same partitions in the same order |
| PartitionLists.PartitionList.Assign | dune/grid/spgrid/partitionlist.hh:42-46 | assignment, read as the deep copy it intends, leaves the other list's partitions |
| PartitionLists.PartitionList.Append | dune/grid/spgrid/partitionpool.hh:71-72 | `list += partition`, as the pool uses it, adds the partition at the tail |
| PartitionLists.Begin | dune/grid/spgrid/partitionlist.hh:48-51 | `begin()` is the end iterator iff the list is empty |
| PartitionLists.Next | dune/grid/spgrid/partitionlist.hh:101-106 | `++` moves to the next node or to the end |
| PartitionLists.Advance | dune/grid/spgrid/partitionlist.hh:101-106 | advancing k times stays inside the same list |
| PartitionLists.IterationInOrder | dune/grid/spgrid/partitionlist.hh:48-127 | after k increments from `begin()` the iterator dereferences to partition k, and after all of them it equals `end()` |
| PartitionLists.AdvanceLast | dune/grid/spgrid/partitionlist.hh:101-106 | one more increment is `++` on the k-th position |
| CachedPartitionLists.MinNumber | dune/grid/spgrid/cachedpartitionlist.hh:119-125 | the running minimum is at most every number, UINT_MAX for an empty list, and one of the numbers otherwise |
| CachedPartitionLists.MaxNumber | dune/grid/spgrid/cachedpartitionlist.hh:120-125 | the running maximum is at least every number, 0 for an empty list, and one of the numbers otherwise |
| CachedPartitionLists.NumberRange | dune/grid/spgrid/cachedpartitionlist.hh:119-129 | the first loop finds the minimum and the maximum number; for a non-empty list the 32-bit `last − first + 1` is the true range size |
| CachedPartitionLists.RangeFits | dune/grid/spgrid/cachedpartitionlist.hh:129 | when all numbers are below UINT_MAX the cache size does not wrap |
| CachedPartitionLists.FillCache | dune/grid/spgrid/cachedpartitionlist.hh:128-141 | the second loop succeeds iff all numbers are distinct, and then slot n − first points at the partition numbered n |
| CachedPartitionLists.CachedPartitionList.constructor | dune/grid/spgrid/cachedpartitionlist.hh:30-34 | the default list is empty with first = UINT_MAX and last = 0 |
| CachedPartitionLists.CachedPartitionList.ContainsNumber | dune/grid/spgrid/cachedpartitionlist.hh:72-77 | `contains(number)` holds iff some partition of the list has that number |
| CachedPartitionLists.CachedPartitionList.ContainsId | dune/grid/spgrid/cachedpartitionlist.hh:81-89 | `contains(id, number)` holds iff the partition with that number contains id |
| CachedPartitionLists.CachedPartitionList.PartitionNumbered | dune/grid/spgrid/cachedpartitionlist.hh:93-98 | `partition(number)` is the list's partition with that number |
| CachedPartitionLists.CachedPartitionList.UpdateCache | dune/grid/spgrid/cachedpartitionlist.hh:116-142 | `updateCache` sets first and last to the minimum and maximum, allocates the cache of the wrapped size, and throws GridError iff two partitions share a number |
| CachedPartitionLists.CachedPartitionList.Append | dune/grid/spgrid/partitionpool.hh:71-72 | `+=` adds the partition at the tail of the underlying list |
| CachedPartitionLists.CopyList | dune/grid/spgrid/cachedpartitionlist.hh:36-41 | the copy holds the same partitions, and its cache is valid iff their numbers are distinct |
| CachedPartitionLists.AssignList | dune/grid/spgrid/cachedpartitionlist.hh:45-50 | assignment copies the partitions and rebuilds the cache, throwing iff the numbers are not distinct |
| PartitionPools.ClosedPartition | dune/grid/spgrid/partitionpool.hh:189-211 | `closedPartition` is a valid partition with the given number |
| PartitionPools.OpenPartition | dune/grid/spgrid/partitionpool.hh:215-243 | `openPartition` is a valid partition with the given number |
| PartitionPools.SelfNeighborFaces | dune/grid/spgrid/partitionpool.hh:202-208 | the self-neighbour loop sets both faces of an axis to the partition's own number iff the axis is periodic and the local mesh spans the global one there |
| PartitionPools.PartitionFaces | dune/grid/spgrid/partitionpool.hh:189-243 | in both partitions the boundary flags and the neighbour entries of every axis are as the global mesh and the periodicity say |
| PartitionPools.OpenBounds | dune/grid/spgrid/partitionpool.hh:199-231 | the closed bounds are twice the local mesh; the open bounds move inward by one except on the global boundary |
| PartitionPools.OpenInClosed | dune/grid/spgrid/partitionpool.hh:189-243 | every id of the open partition lies in the closed partition |
| PartitionPools.AddSelfNeighbors | dune/grid/spgrid/partitionpool.hh:202-208 | the loop computes the self-neighbour table |
| PartitionPools.MakeClosedPartition | dune/grid/spgrid/partitionpool.hh:189-211 | the method computes `closedPartition` |
| PartitionPools.MakeOpenPartition | dune/grid/spgrid/partitionpool.hh:215-243 | the method computes `openPartition` |
| PartitionPools.SplitAxesFacts | dune/grid/spgrid/partitionpool.hh:83-106 | after the split loop, an axis is a split axis iff it is periodic, narrower than the global mesh and sticks out on one side; axes covering the whole period are clamped to the global mesh |
| PartitionPools.SplitAxis | dune/grid/spgrid/partitionpool.hh:85-104 | one pass of the split loop on axis i |
| PartitionPools.SplitOverlap | dune/grid/spgrid/partitionpool.hh:77-106 | the loop computes the clamped overlap mesh, the shifts and the split axes |
| PartitionPools.OverlapNeighborFace | dune/grid/spgrid/partitionpool.hh:119-120 | the intended face of split k is a face of axis dir[k] |
| PartitionPools.OverlapNeighborFaceAsWritten | dune/grid/spgrid/partitionpool.hh:119-120 | the face as written, 2i + j, is a face of axis i, the split's position rather than its axis |
| PartitionPools.OverlapPiece | dune/grid/spgrid/partitionpool.hh:109-121 | piece d is a valid partition numbered d |
| PartitionPools.Pieces | dune/grid/spgrid/partitionpool.hh:108-124 | the overlap lists hold 2^n pieces, piece d at position d |
| PartitionPools.PieceNeighborFace | dune/grid/spgrid/partitionpool.hh:116-121 | the face of piece d towards split k names piece d ^ (1 << k) |
| PartitionPools.PartnerSide | dune/grid/spgrid/partitionpool.hh:118 | the partner piece d ^ (1 << k) leaves by the opposite side j |
| PartitionPools.OverlapNeighborsSymmetric | dune/grid/spgrid/partitionpool.hh:116-121 | (corrected) if piece d names piece e across a split face, then e names d across the opposite face |
| PartitionPools.WithPieceNeighborsAsWritten | dune/grid/spgrid/partitionpool.hh:116-121 | the loop as written writes only faces of the first n axes |
| PartitionPools.OverlapPieceAsWritten | dune/grid/spgrid/partitionpool.hh:109-121 | an as-written piece is valid and numbered d, and faces of axes ≥ n keep their unlinked values |
| PartitionPools.AsWrittenSkipsSplitFace | dune/grid/spgrid/partitionpool.hh:119-120 | in two dimensions with only axis 1 split, the as-written piece 0 does not name piece 1 across the face of axis 1 |
| PartitionPools.AsWrittenNeighborsNotSymmetric | dune/grid/spgrid/partitionpool.hh:119-120 | for the concrete mesh of the Findings the as-written table misses the link |
| PartitionPools.PieceNumbers | dune/grid/spgrid/partitionpool.hh:108-126 | the pieces have distinct numbers below UINT_MAX, so `updateCache` does not throw |
| PartitionPools.MakePieceShift | dune/grid/spgrid/partitionpool.hh:111-113 | the loop computes the shift of piece d |
| PartitionPools.LinkPiece | dune/grid/spgrid/partitionpool.hh:116-121 | the (corrected) loop writes the piece neighbours into both partitions |
| PartitionPools.MakePiece | dune/grid/spgrid/partitionpool.hh:111-121 | the method computes the open and closed piece d |
| PartitionPools.AppendPieces | dune/grid/spgrid/partitionpool.hh:108-124 | the loop appends every piece to the overlap and overlap-front lists in order |
| PartitionPools.MakePieces | dune/grid/spgrid/partitionpool.hh:108-126 | the overlap and overlap-front lists hold the pieces and have valid caches |
| PartitionPools.PoolContents | dune/grid/spgrid/partitionpool.hh:50-55 | a pool holds six lists |
| PartitionPools.PoolContentsFit | dune/grid/spgrid/partitionpool.hh:64-131 | every partition of every list has the grid's dimension |
| PartitionPools.OverlapInFront | dune/grid/spgrid/partitionpool.hh:114-115 | every id of an open piece lies in the closed piece |
| PartitionPools.PiecesListed | dune/grid/spgrid/partitionpool.hh:108-124 | a list of pieces contains (id, number) iff number < 2^n and piece number contains id |
| PartitionPools.InteriorLists | dune/grid/spgrid/partitionpool.hh:71-74 | the interior list holds the open and the interior-border list the closed partition 0, with valid caches |
| PartitionPools.OverlapLists | dune/grid/spgrid/partitionpool.hh:77-129 | the overlap and overlap-front lists hold the pieces, the all list a copy of the overlap-front list |
| PartitionPools.PartitionPool.constructor | dune/grid/spgrid/partitionpool.hh:64-131 | the pool holds its meshes, overlap and periodicity and the six lists built from them; the ghost list stays empty |
| PartitionPools.PartitionPool.Get | dune/grid/spgrid/partitionpool.hh:135-162 | `get<pitype>()` returns the list of that type and throws GridError for any other value |
| PartitionPools.PartitionPool.PartitionType | dune/grid/spgrid/partitionpool.hh:166-177 | interior or border iff in the closed partition 0, interior iff also codim 0 or in the open one; overlap or front only inside the closed piece; front iff in neither partition 0 nor the open piece and codim ≠ 0; overlap only for codim 0 or inside the open piece; never ghost |
| Linkages.Communication | dune/grid/spgrid/linkage.hh:102-137 | each of the five interfaces sends one partition type and receives one no smaller; the two coincide exactly for InteriorBorder–InteriorBorder and All–All |
| Linkages.RowCovers | dune/grid/spgrid/linkage.hh:221-230 | the inner loop's list covers (id, n) iff the local partition has number n, contains id, and some remote partition contains id |
| Linkages.IntersectCovers | dune/grid/spgrid/linkage.hh:213-232 | `intersect` covers (id, n) iff a local partition numbered n and some remote partition both contain id |
| Linkages.IntersectEntries | dune/grid/spgrid/linkage.hh:221-230 | every entry of `intersect` keeps the number of a local partition and lies inside it |
| Linkages.IntersectEmptyIff | dune/grid/spgrid/linkage.hh:227-228 | `intersect` is empty iff no id is shared by a local and a remote partition (empty intersections are dropped) |
| Linkages.IntersectRowInto | dune/grid/spgrid/linkage.hh:224-229 | the inner loop appends the non-empty intersections of one local partition |
| Linkages.IntersectLists | dune/grid/spgrid/linkage.hh:213-232 | the two loops build a fresh list of all non-empty pairwise intersections, numbered by the local partition |
| Linkages.Rank | dune/grid/spgrid/linkage.hh:307-311 | `rank()` is the node's rank |
| Linkages.SendList | dune/grid/spgrid/linkage.hh:315-321 | `sendList(d)` is the send list forwards and the receive list backwards |
| Linkages.ReceiveList | dune/grid/spgrid/linkage.hh:324-330 | `receiveList(d)` is `sendList(1 − d)`: the two directions swap the lists |
| Linkages.BuildRank | dune/grid/spgrid/linkage.hh:183-209 | a node built for a peer carries that peer's rank |
| Linkages.BuildNoneIffDisjoint | dune/grid/spgrid/linkage.hh:198-204 | `build` adds no node iff neither the send nor the receive intersection shares an id |
| Linkages.PeerNodes | dune/grid/spgrid/linkage.hh:160-167 | the five nodes built for one peer, each for that peer's rank |
| Linkages.AllPeerNodes | dune/grid/spgrid/linkage.hh:156-168 | one set of nodes per peer of the decomposition |
| Linkages.AddNodeKeeps | dune/grid/spgrid/linkage.hh:285-289 | `add` keeps every node already in an interface |
| Linkages.PeerStepLinked | dune/grid/spgrid/linkage.hh:156-168 | after the pass for peer p, every node belongs to a peer below p + 1 other than the own rank |
| Linkages.LinkageLinked | dune/grid/spgrid/linkage.hh:145-169 | every node of the linkage belongs to a peer other than the own rank |
| Linkages.RemotePool | dune/grid/spgrid/linkage.hh:160 | the remote pool is built from the peer's mesh with the local pool's global mesh, overlap and periodicity |
| Linkages.MadeForIsPeers | dune/grid/spgrid/linkage.hh:156-168 | the nodes built for the decomposition are exactly the specified peer nodes |
| Linkages.Linkage.Build | dune/grid/spgrid/linkage.hh:183-209 | `build` adds a node to the interface iff one of its intersections is non-empty, and reports it |
| Linkages.Linkage.Link | dune/grid/spgrid/linkage.hh:189-208 | the send list pairs local send with remote receive, the receive list local receive with remote send (shared when the types coincide) |
| Linkages.Linkage.constructor | dune/grid/spgrid/linkage.hh:145-169 | the linkage skips its own rank and, for every peer sharing any entity (All–All), builds the other four interfaces |
| Linkages.Linkage.PeerPass | dune/grid/spgrid/linkage.hh:158-167 | one pass of the constructor's loop |
| Linkages.Linkage.InterfaceOf | dune/grid/spgrid/linkage.hh:173-178 | `interface(i)` is interface i |
| IndexSets.Counts | dune/grid/spgrid/indexset.hh:115-121 | the per-axis counts `w/2 + 1` of the entities of direction dir in a partition |
| IndexSets.LastWith | dune/grid/spgrid/indexset.hh:109-124 | the last partition of the list with a given number (later rows overwrite earlier ones), or −1 |
| IndexSets.Resized | dune/grid/spgrid/indexset.hh:108 | `offsets_.resize` keeps the rows it already has and adds zero rows |
| IndexSets.MixedRadixInjective | dune/grid/spgrid/indexset.hh:139-153 | different local coordinates in range give different local indices |
| IndexSets.RadicesAreCounts | dune/grid/spgrid/indexset.hh:118-148 | the widths `index` computes are the counts `update` multiplies, for the id's direction |
| IndexSets.LocalCoordsInRange | dune/grid/spgrid/indexset.hh:144-149 | the assertion `0 ≤ idLocal < width` holds on every axis iff the partition contains the id, and id = bound + 2·idLocal |
| IndexSets.FactorNonNegative | dune/grid/spgrid/indexset.hh:113-120 | the number of entities of a direction in a partition is never negative |
| IndexSets.BlockInPartition | dune/grid/spgrid/indexset.hh:123-124 | a partition's block of a direction ends within the running size of its codimension |
| IndexSets.BlocksOrdered | dune/grid/spgrid/indexset.hh:109-124 | two blocks of the same codimension (earlier partition or earlier direction) do not overlap |
| IndexSets.IndexInBlock | dune/grid/spgrid/indexset.hh:132-155 | the index of a contained id lies in its partition's block for its direction |
| IndexSets.IndexBelowSize | dune/grid/spgrid/indexset.hh:130-155 | every index is in 0 .. size(codim) − 1 |
| IndexSets.IndexInjective | dune/grid/spgrid/indexset.hh:99-155 | two ids contained in partitions with distinct numbers get the same index only if they are the same id in the same partition |
| IndexSets.EmbedKeepsEven | dune/grid/spgrid/indexset.hh:166-171 | the sub-entity id leaves the even components of the id unchanged |
| IndexSets.EmbedInElement | dune/grid/spgrid/indexset.hh:176-181 | for elements the general sub-entity rule is `id + subId(codim, i)` |
| IndexSets.EmbedInVertex | dune/grid/spgrid/indexset.hh:183-190 | for vertices the sub-entity rule leaves the id unchanged |
| IndexSets.EmbedCodimension | dune/grid/spgrid/indexset.hh:164-172 | the sub-entity has codimension codim: the offsets' nonzero entries make that many odd components even |
| IndexSets.SubEntityId | dune/grid/spgrid/indexset.hh:166-171 | the loop adds refId[l] to the l-th odd component and nothing else |
| IndexSets.CubeType | dune/grid/spgrid/indexset.hh:72 | `cube(mydim)` is a cube of that dimension |
| IndexSets.IndexSet.constructor | dune/grid/spgrid/indexset.hh:47 | the constructor runs `update` on the level's All list |
| IndexSets.IndexSet.Update | dune/grid/spgrid/indexset.hh:99-127 | `update` sets size(c) to the number of codimension-c entities of all partitions, and row n − minNumber of the offsets to the offsets of the last partition numbered n |
| IndexSets.IndexSet.Size | dune/grid/spgrid/indexset.hh:245-251 | `size(codim)` |
| IndexSets.TypeSize | dune/grid/spgrid/indexset.hh:237-242 | the size of a cube type is the count of its codimension, and that of any other type is zero; both index sets answer `size(type)` with it |
| IndexSets.CubeTypes | dune/grid/spgrid/indexset.hh:72 | the types of a codimension are exactly one cube type, of dimension dim − codim; both index sets answer `types(codim)` with it |
| IndexSets.IndexSet.SizeOfType | dune/grid/spgrid/indexset.hh:237-242 | `size(type)` is size(dim − type.dim) for a cube and zero otherwise |
| IndexSets.IndexSet.Types | dune/grid/spgrid/indexset.hh:72 | `types(codim)` is one cube type of dimension dim − codim |
| IndexSets.IndexSet.Index | dune/grid/spgrid/indexset.hh:130-155 | `index(id, number)` is the partition's offset for the id's direction plus the mixed-radix local index |
| IndexSets.IndexSet.SubIndex | dune/grid/spgrid/indexset.hh:158-173 | `subIndex` is the index of the sub-entity id |
| IndexSets.IndexSet.ElementSubIndex | dune/grid/spgrid/indexset.hh:175-181 | the element specialisation is the index of `id + subId(codim, i)` |
| IndexSets.IndexSet.VertexSubIndex | dune/grid/spgrid/indexset.hh:183-190 | the vertex specialisation is the index of the vertex itself |
| IndexSets.DirectionFactor | dune/grid/spgrid/indexset.hh:113-122 | the inner loop computes the number of entities of direction dir and their codimension |
| IndexSets.CachedNumbersDistinct | dune/grid/spgrid/cachedpartitionlist.hh:135-141 | a list with a valid cache has distinct numbers, so `LastWith` is the only partition with that number |
| IndexSets.SlotsFit | dune/grid/spgrid/indexset.hh:108-123 | every partition number minus the minimum is a row of the resized table |
| IndexSets.UpdateStep | dune/grid/spgrid/indexset.hh:123 | writing a partition's row extends the table to one more partition |
| IndexSets.TableDescribes | dune/grid/spgrid/indexset.hh:99-127 | the completed table has exactly the meaning `index` relies on |
| IndexSets.IndexAgrees | dune/grid/spgrid/indexset.hh:130-155 | the computed index is the specified index in the last partition with that number |
| IndexSets.BuildTable | dune/grid/spgrid/indexset.hh:105-127 | the partition loop builds the offset table and the sizes |
| IndexSets.CountPartition | dune/grid/spgrid/indexset.hh:111-125 | the direction loop of one partition writes its offset row and raises the sizes |
| IndexSets.LocalIndex | dune/grid/spgrid/indexset.hh:136-153 | the loop of `index` computes the id's direction and the mixed-radix local index |
| HierarchyIndexSets.StackedRow | dune/grid/spgrid/hindexset.hh:65-69 | the offset row of level l: per codimension the sizes of all coarser levels added up |
| HierarchyIndexSets.StackedMonotone | dune/grid/spgrid/hindexset.hh:61-70 | a level's block [offset, offset + size) ends at or before the offset of every finer level |
| HierarchyIndexSets.HierarchicBelowSize | dune/grid/spgrid/hindexset.hh:79-85 | offset plus a level index below the level's size is below the hierarchic size |
| HierarchyIndexSets.HierarchicInjective | dune/grid/spgrid/hindexset.hh:79-85 | different (level, level index) pairs give different hierarchic indices |
| HierarchyIndexSets.AsWrittenGuardAdmitsPastEnd | dune/grid/spgrid/hindexset.hh:140 | the guard `level <= size` lets level = size through, one past the last level set |
| HierarchyIndexSets.LevelGuardCorrected | dune/grid/spgrid/hindexset.hh:140 | the corrected guard `level < size` differs from the written one exactly at level = size |
| HierarchyIndexSets.HierarchyIndexSet.constructor | dune/grid/spgrid/hindexset.hh:46-51 | a new hierarchic index set has no level sets and all sizes zero |
| HierarchyIndexSets.HierarchyIndexSet.Update | dune/grid/spgrid/hindexset.hh:53-71 | `update` keeps one level set per level, the stacked offsets of each level and as sizes the sums over all levels |
| HierarchyIndexSets.HierarchyIndexSet.LevelIndexSet | dune/grid/spgrid/hindexset.hh:138-143 | (corrected guard) `levelIndexSet(level)` is the level's index set |
| HierarchyIndexSets.HierarchyIndexSet.Index | dune/grid/spgrid/hindexset.hh:79-85 | `index` is the level's offset for the codimension plus the level index |
| HierarchyIndexSets.HierarchyIndexSet.SubIndex | dune/grid/spgrid/hindexset.hh:94-101 | `subIndex` is the level's offset plus the level sub-index |
| HierarchyIndexSets.HierarchyIndexSet.Size | dune/grid/spgrid/hindexset.hh:115-119 | `size(codim)` |
| HierarchyIndexSets.HierarchyIndexSet.SizeOfType | dune/grid/spgrid/hindexset.hh:110-113 | `size(type)` is size(dim − type.dim) for a cube and zero otherwise |
| HierarchyIndexSets.HierarchyIndexSet.Types | dune/grid/spgrid/hindexset.hh:103 | `types(codim)` is one cube type of dimension dim − codim |
| HierarchyIndexSets.StackLevel | dune/grid/spgrid/hindexset.hh:65-69 | the codimension loop records the running sizes as the level's offsets and adds the level's sizes |
| GeometryCaches.NonzeroAxes | dune/grid/spgrid/geometrycache.hh:278-290 | the extended axes of a direction: one per set bit, each below dim |
| GeometryCaches.ZeroAxes | dune/grid/spgrid/geometrycache.hh:278-290 | the pinned axes: together with the extended ones, dim of them |
| GeometryCaches.AxesBits | dune/grid/spgrid/geometrycache.hh:282-288 | both axis lists are strictly increasing, the extended ones are the set bits and the pinned ones the clear bits |
| GeometryCaches.AxesCover | dune/grid/spgrid/geometrycache.hh:282-288 | an axis is in the extended list iff its bit is set and in the pinned list iff it is clear |
| GeometryCaches.AllAxesExtend | dune/grid/spgrid/geometrycache.hh:301-306 | for elements (codim 0) `nonzero(k) == k` and there are no pinned axes, as the specialisation says |
| GeometryCaches.NoAxisExtends | dune/grid/spgrid/geometrycache.hh:340-345 | for vertices (codim dim) `zero(k) == k` and there are no extended axes |
| GeometryCaches.PatternAgrees | dune/grid/spgrid/geometrycache.hh:278-351 | every specialisation of `SPGeometryPattern` is the general pattern, with dim − codim extended and codim pinned axes |
| GeometryCaches.MakePattern | dune/grid/spgrid/geometrycache.hh:278-290 | the constructor's loop fills `nonzero_` and `zero_`, and the assertion k == dim − codim holds |
| GeometryCaches.ProductEntry | dune/grid/spgrid/geometrycache.hh:400-404 | entry k of Jᵀx is h[k]·x[nonzero(k)] |
| GeometryCaches.TransposedProductEntry | dune/grid/spgrid/geometrycache.hh:410-416 | entry nonzero(k) of Jx is h[k]·x[k], and the entries of pinned axes are zero |
| GeometryCaches.TransposedProductIs | dune/grid/spgrid/geometrycache.hh:410-416 | the transposed product as `mtv` writes it, column by column |
| GeometryCaches.MakeJacobian | dune/grid/spgrid/geometrycache.hh:148-153 | the Jacobian keeps h of the extended axes, dim − codim of them |
| GeometryCaches.ElementJacobian | dune/grid/spgrid/geometrycache.hh:148-153 | for elements the Jacobian is diag(h) and its determinant the product of all widths |
| GeometryCaches.ToMatrix | dune/grid/spgrid/geometrycache.hh:387-394 | the dense matrix has h[k] at (k, nonzero(k)) and zero elsewhere |
| GeometryCaches.Mv | dune/grid/spgrid/geometrycache.hh:397-404 | `mv` stores Jᵀx in y |
| GeometryCaches.Umv | dune/grid/spgrid/geometrycache.hh:431-438 | `umv` adds Jᵀx to y |
| GeometryCaches.Mmv | dune/grid/spgrid/geometrycache.hh:491-498 | `mmv` subtracts Jᵀx from y |
| GeometryCaches.Usmv | dune/grid/spgrid/geometrycache.hh:461-468 | `usmv` adds α·Jᵀx to y |
| GeometryCaches.Mtv | dune/grid/spgrid/geometrycache.hh:407-416 | `mtv` stores Jx in y, including the zeros of the pinned axes |
| GeometryCaches.Umtv | dune/grid/spgrid/geometrycache.hh:441-448 | `umtv` adds Jx to y and leaves the pinned entries unchanged |
| GeometryCaches.Mmtv | dune/grid/spgrid/geometrycache.hh:501-508 | `mmtv` subtracts Jx from y and leaves the pinned entries unchanged |
| GeometryCaches.Usmtv | dune/grid/spgrid/geometrycache.hh:471-478 | `usmtv` adds α·Jx to y and leaves the pinned entries unchanged |
| GeometryCaches.Det | dune/grid/spgrid/geometrycache.hh:521-529 | `det()` is the product of the h entries |
| GeometryCaches.Determinant | dune/grid/spgrid/geometrycache.hh:175-181 | `determinant()` is `det()` for a square matrix and throws FMatrixError otherwise |
| GeometryCaches.MakeGeometryCache | dune/grid/spgrid/geometrycache.hh:102-106 | the cache holds the Jacobian of the direction and as volume its determinant |
| GridLevels.MacroIdOf | dune/grid/spgrid/gridlevel.hh:170-176 | `macroId` keeps the dimension of the id |
| GridLevels.MacroIdParity | dune/grid/spgrid/gridlevel.hh:170-176 | every component of the macro id keeps the id's parity (its entity direction) and its cell index is the id's cell index divided by the macro factor |
| GridLevels.MacroIdOfUnit | dune/grid/spgrid/gridlevel.hh:170-176 | with macro factor 1 on every axis (the macro level) the macro id is the id itself |
| GridLevels.FatherCell | dune/grid/spgrid/gridlevel.hh:170-176 | one step of the father rule divides the cell index by the refinement factor and keeps the parity |
| GridLevels.MacroIdThroughFather | dune/grid/spgrid/gridlevel.hh:170-176 | the child level's macro factor is valid and its macro id of an id equals the father level's macro id of the id's father |
| GridLevels.BoundaryMacroIdAgrees | dune/grid/spgrid/gridlevel.hh:183-191 | dividing the whole id by the macro factor gives the same cell as `macroId`, which is why `boundaryIndex` may skip the last bit |
| GridLevels.UnitFactors | dune/grid/spgrid/gridlevel.hh:258-259 | the macro level's factor is 1 on every axis |
| GridLevels.ScaleFactors | dune/grid/spgrid/gridlevel.hh:281-282 | the child's macro factor is the father's times the refinement factor, axis by axis |
| GridLevels.BuildCodim | dune/grid/spgrid/gridlevel.hh:339-353 | the loop over directions builds the cache of exactly the directions of codimension codim and leaves the other slots as they were |
| GridLevels.BuildGeometryCaches | dune/grid/spgrid/gridlevel.hh:339-353 | after all codimensions every direction holds the cache for its own codimension and the level's widths |
| GridLevels.CacheCodimension | dune/grid/spgrid/gridlevel.hh:200-206 | the cache of a direction has codimension codim exactly when the direction's bit count is dim - codim |
| GridLevels.GridLevel.Macro | dune/grid/spgrid/gridlevel.hh:245-261 | the macro level: no father or child, level 0, macro factor 1, the decomposition's mesh as global and the rank's piece as local mesh |
| GridLevels.GridLevel.Refine | dune/grid/spgrid/gridlevel.hh:266-295 | a child level: linked both ways with its father, one level deeper, macro factor scaled by the refinement and both meshes refined |
| GridLevels.GridLevel.MacroIffLevelZero | dune/grid/spgrid/gridlevel.hh:144-147 | a level is the macro level (no father) exactly when its level number is 0 |
| GridLevels.GridLevel.FatherLevel | dune/grid/spgrid/gridlevel.hh:132-136 | a non-macro level's father is a valid level of the same dimension one level up |
| GridLevels.GridLevel.ChildLevel | dune/grid/spgrid/gridlevel.hh:138-142 | a non-leaf level returns its child |
| GridLevels.GridLevel.LevelRefinement | dune/grid/spgrid/gridlevel.hh:164-168 | a non-macro level returns the refinement it was built with |
| GridLevels.GridLevel.PartitionOf | dune/grid/spgrid/gridlevel.hh:120-124 | for each of the six partition iterator types (Interior_Partition to Ghost_Partition) the pool's list of that type; any other value is a grid error |
| GridLevels.GridLevel.MacroId | dune/grid/spgrid/gridlevel.hh:170-176 | the level's macro id uses its own macro factor |
| GridLevels.GridLevel.BoundaryMacroId | dune/grid/spgrid/gridlevel.hh:183-191 | the id divided by the macro factor, which lies in the same macro cell as `macroId` |
| GridLevels.GridLevel.GeometryCacheAt | dune/grid/spgrid/gridlevel.hh:199-206 | the cache of a direction with dim - codim bits has codimension codim and is that direction's cache |
| GridLevels.GridLevel.Size | dune/grid/spgrid/gridlevel.hh:214-220 | the number of elements of the level is the product of its cell counts |
| GridLevels.MacroAncestor | dune/grid/spgrid/gridlevel.hh:170-176 | the macro element reached by the father rule keeps the dimension |
| GridLevels.MacroIdIsMacroAncestor | dune/grid/spgrid/gridlevel.hh:170-176 | `macroId` jumps straight to the macro ancestor that repeated `father` steps reach |
| GridLevels.LevelValid | dune/grid/spgrid/grid.hh:484 | every level of the grid's list of levels is valid with the grid's dimension |
| GridLevels.MacroHierarchy | dune/grid/spgrid/grid.hh:756-757 | the macro level alone is a hierarchy |
| GridLevels.RefineLeaf | dune/grid/spgrid/grid.hh:629 | a new level appended below the leaf level keeps the list a hierarchy |
| GridLevels.Destroy | dune/grid/spgrid/gridlevel.hh:299-316 | destroying level i clears the child pointers from level i - 1 on and leaves the levels above untouched |
| BoundaryIndices.FaceRadices | dune/grid/spgrid/grid.hh:779-781 | the factors of a face's size: 1 on the face's normal axis and the partition's half width on every other axis |
| BoundaryIndices.BoundaryRow | dune/grid/spgrid/grid.hh:783-789 | a partition's row of offsets has 2*dim entries, entry f being the first segment number of face f |
| BoundaryIndices.BoundaryTable | dune/grid/spgrid/grid.hh:773-775 | writing the rows keeps the table's length (`maxNumber - minNumber + 1`) |
| BoundaryIndices.FaceDigits | dune/grid/spgrid/grid.hh:714-721 | the macro cell's digit along each axis of the face, one per axis |
| BoundaryIndices.FaceSizeOf | dune/grid/spgrid/grid.hh:779-781 | the inner loop computes the face's number of segments |
| BoundaryIndices.PartitionRow | dune/grid/spgrid/grid.hh:776-790 | each face's offset is the running total before it, and the total grows by exactly the sizes of the partition's boundary faces |
| BoundaryIndices.AxisFaces | dune/grid/spgrid/grid.hh:783-789 | one axis writes the offsets of its lower and upper face and leaves the earlier faces as they were |
| BoundaryIndices.SegmentsStep | dune/grid/spgrid/grid.hh:783-789 | the lower and then the upper face of an axis add their size to the running total exactly when they are boundary faces |
| BoundaryIndices.SetupBoundaryIndices | dune/grid/spgrid/grid.hh:766-792 | `setupBoundaryIndices` resizes the table to one zero row per partition number and then yields every partition's row at its number, with the total counting every boundary segment |
| BoundaryIndices.RowIsBoundaryRow | dune/grid/spgrid/grid.hh:776-790 | the row the loop builds from the running total is the partition's row of offsets |
| BoundaryIndices.TableStart | dune/grid/spgrid/grid.hh:773 | before any partition is visited the table is the resized one |
| BoundaryIndices.TableStep | dune/grid/spgrid/grid.hh:774-776 | one more partition overwrites the row at its number, and nothing else |
| BoundaryIndices.TableDescribes | dune/grid/spgrid/grid.hh:766-792 | after the loop each number's row is that of the last partition carrying it, and the total is every partition's boundary segments |
| BoundaryIndices.LocalSegmentOf | dune/grid/spgrid/grid.hh:710-722 | the loop of `boundaryIndex` computes the cell's position on the face, digits weighted by the widths before them |
| BoundaryIndices.LocalSegmentInFace | dune/grid/spgrid/grid.hh:716-719 | a macro cell on the face (the asserted `0 <= k < w`) gets a position below the face's size |
| BoundaryIndices.LocalSegmentInjective | dune/grid/spgrid/grid.hh:710-722 | two macro cells on a face with the same position have the same digits |
| BoundaryIndices.FaceSizeNonNegative | dune/grid/spgrid/grid.hh:779-781 | with begin <= end a face has a non-negative number of segments |
| BoundaryIndices.PartitionSegmentsMonotone | dune/grid/spgrid/grid.hh:783-789 | the faces of one partition take consecutive stretches of numbers |
| BoundaryIndices.ListSegmentsMonotone | dune/grid/spgrid/grid.hh:774-790 | the partitions of the list take consecutive stretches of numbers |
| BoundaryIndices.PartitionSegmentsNonNegative | dune/grid/spgrid/grid.hh:783-789 | the running total of a partition never drops below where it started |
| BoundaryIndices.FaceStretchesOrdered | dune/grid/spgrid/grid.hh:774-790 | the stretch of a face ends before that of every later face in loop order and within the total |
| BoundaryIndices.SegmentNumbersDistinct | dune/grid/spgrid/grid.hh:698-723 | boundary segment numbers are below `numBoundarySegments` and one-to-one: equal numbers mean the same partition, face and macro cell |
| BoundaryIndices.ListSegmentsNonNegative | dune/grid/spgrid/grid.hh:774-790 | the running total over the partitions never goes negative |
| BoundaryIndices.SegmentIndex | dune/grid/spgrid/grid.hh:698-723 | `boundaryIndex` is the face offset in the row of the partition number plus the cell's position on the face, and on a boundary face it is below the total |
| Grids.ChildWidths | dune/grid/spgrid/gridlevel.hh:270-274 | a refined level's cell width times the refinement factor is the father's width, axis by axis |
| Grids.MacroFrontValid | dune/grid/spgrid/gridlevel.hh:254 | the overlap-front list of the macro level's pool (built without overlap) holds valid partitions with distinct, unsigned numbers, as `setupBoundaryIndices` needs |
| Grids.SetupMacroGrid | dune/grid/spgrid/grid.hh:752-762 | `setupMacroGrid` makes a fresh macro level, the only level of a hierarchy, spanning the cells, and numbers its boundary segments on its overlap-front list |
| Grids.RefinedStep | dune/grid/spgrid/grid.hh:627-631 | appending one more refined level keeps every appended level refined from its father |
| Grids.Grid.constructor | dune/grid/spgrid/grid.hh:517-530 | the new grid has exactly one level, the macro level spanning the cells, bound to both views, with the given overlap and its boundary segments numbered |
| Grids.Grid.MaxLevel | dune/grid/spgrid/grid.hh:232-235 | the maximal level is the number of levels minus one |
| Grids.Grid.GridLevelAt | dune/grid/spgrid/grid.hh:672-678 | level k of the grid is a valid level of the grid's dimension whose level number is k |
| Grids.Grid.LeafLevel | dune/grid/spgrid/grid.hh:681-687 | the leaf level is the last level: it has no child and its level number is maxLevel |
| Grids.Grid.LevelGridView | dune/grid/spgrid/grid.hh:257-261 | the level view of level k is bound to grid level k |
| Grids.Grid.LeafGridView | dune/grid/spgrid/grid.hh:263 | the leaf view is bound to the leaf level |
| Grids.Grid.Mark | dune/grid/spgrid/grid.hh:579-584 | marking never succeeds: local adaptation is not supported |
| Grids.Grid.GetMark | dune/grid/spgrid/grid.hh:587-592 | every element's mark is 0 |
| Grids.Grid.PreAdapt | dune/grid/spgrid/grid.hh:595-599 | `preAdapt` reports that nothing may be coarsened |
| Grids.Grid.Adapt | dune/grid/spgrid/grid.hh:602-615 | `adapt` reports that nothing was refined |
| Grids.Grid.PostAdapt | dune/grid/spgrid/grid.hh:618-620 | `postAdapt` changes nothing |
| Grids.Grid.AppendLevel | dune/grid/spgrid/grid.hh:628-630 | one round appends a fresh level refined from the leaf level by the policy, keeps the earlier levels and keeps the hierarchy |
| Grids.Grid.GlobalRefine | dune/grid/spgrid/grid.hh:623-633 | refCount rounds (none for refCount <= 0) append that many levels, each refined from the previous by the policy; the old levels stay and the leaf view moves to the new leaf level |
| Grids.Grid.NumBoundarySegments | dune/grid/spgrid/grid.hh:689-693 | the number of boundary segments is the sum of the boundary face sizes over the macro overlap-front list |
| Grids.Grid.BoundaryIndex | dune/grid/spgrid/grid.hh:697-723 | the boundary index is the face offset of the partition with that number plus the cell's position on the face, below `numBoundarySegments` on a boundary face |
| EntitySeeds.DefaultSeed | dune/grid/spgrid/entityseed.hh:58-60 | a default-constructed seed (level -1) is invalid |
| EntitySeeds.MakeSeed | dune/grid/spgrid/entityseed.hh:70-108 | a seed is valid exactly when its level is non-negative, and a valid seed gives back the level, id and partition number it was made from |
| Misc.Transform | dune/grid/spgrid/misc.hh:22-32 | `transform` returns a vector as long as its input whose i-th entry is the operation applied to the i-th input |
| MessageBuffers.Packed | dune/grid/spgrid/messagebuffer.hh:30-37 | packing copies the value's bytes to the position and leaves every other byte of the buffer as it was |
| MessageBuffers.Unpacked | dune/grid/spgrid/messagebuffer.hh:39-46 | unpacking reads the width bytes that start at the position |
| MessageBuffers.UnpackAfterPack | dune/grid/spgrid/messagebuffer.hh:30-46 | unpacking at the position of a pack gives back the packed value |
| MessageBuffers.PackKeepsDisjoint | dune/grid/spgrid/messagebuffer.hh:30-46 | a pack does not change what is read from a range it does not overlap |
| MessageBuffers.Pack | dune/grid/spgrid/messagebuffer.hh:30-37 | `pack` on a buffer object writes the value's bytes at the position, returns the position after them and changes no other byte |
| MessageBuffers.Unpack | dune/grid/spgrid/messagebuffer.hh:39-46 | `unpack` returns the bytes at the position and the position after them |
| MessageBuffers.GrownCapacity | dune/grid/spgrid/messagebuffer.hh:148-164 | `reserve`'s choice: the old capacity when it suffices, else max(size, 2*capacity) if that can be allocated, else capacity + size, and out of memory exactly when neither can be |
| MessageBuffers.Realloc | dune/grid/spgrid/messagebuffer.hh:154 | `realloc` gives a fresh block of the length asked for that starts with the old block's written bytes |
| MessageBuffers.WriteBuffer.Contents | dune/grid/spgrid/messagebuffer.hh:167-168 | the bytes written so far are exactly `position_` many |
| MessageBuffers.WriteBuffer.constructor | dune/grid/spgrid/messagebuffer.hh:105-110 | a new write buffer holds no memory, is at position 0 and has capacity 0 |
| MessageBuffers.WriteBuffer.Moved | dune/grid/spgrid/messagebuffer.hh:114-120 | the move constructor takes over the other buffer's memory, position and capacity and leaves the other one empty |
| MessageBuffers.WriteBuffer.MoveAssign | dune/grid/spgrid/messagebuffer.hh:126-133 | move assignment takes over the other buffer's state and empties the other one (which, for self-assignment, empties this one) |
| MessageBuffers.WriteBuffer.Reserve | dune/grid/spgrid/messagebuffer.hh:148-164 | `reserve` keeps the position and the written bytes, grows the capacity to the chosen size, and throws OutOfMemoryError with nothing changed when no allocation succeeds |
| MessageBuffers.WriteBuffer.Write | dune/grid/spgrid/messagebuffer.hh:135-141 | `write` appends the value's bytes to the contents and advances the position, or throws OutOfMemoryError with the contents unchanged |
| MessageBuffers.WriteBuffer.Send | dune/grid/spgrid/messagebuffer.hh:189 | the serial `send` changes nothing |
| MessageBuffers.WriteBuffer.Wait | dune/grid/spgrid/messagebuffer.hh:190 | the serial `wait` changes nothing |
| MessageBuffers.ReadBuffer.constructor | dune/grid/spgrid/messagebuffer.hh:227-232 | a new read buffer holds no memory and has position and size 0 |
| MessageBuffers.ReadBuffer.Moved | dune/grid/spgrid/messagebuffer.hh:236-242 | the move constructor takes over the other buffer's memory, position and size and leaves the other one empty |
| MessageBuffers.ReadBuffer.MoveAssign | dune/grid/spgrid/messagebuffer.hh:248-255 | move assignment takes over the other buffer's state and empties the other one |
| MessageBuffers.ReadBuffer.Read | dune/grid/spgrid/messagebuffer.hh:257-264 | `read` before the end returns the bytes at the position and advances past them; at or past the end it throws IOError and changes nothing |
| MessageBuffers.ReadBuffer.Reset | dune/grid/spgrid/messagebuffer.hh:271-281 | `reset(n)` rewinds to 0; with n == 0 or a failed allocation no memory is held (the latter throwing OutOfMemoryError), otherwise a fresh block of n bytes |
| MessageBuffers.ReadBuffer.Receive | dune/grid/spgrid/messagebuffer.hh:306-312 | the serial `receive` always throws IOError |
| MessageBuffers.ReadBuffer.Rank | dune/grid/spgrid/messagebuffer.hh:314 | the serial rank is 0 |
| MessageBuffers.ReadBuffer.Wait | dune/grid/spgrid/messagebuffer.hh:316 | the serial `wait` changes nothing |
| PythonFrontEnd.NatToString | python/dune/spgrid/__init__.py:11 | `str()` of a natural number is a non-empty string of decimal digits |
| PythonFrontEnd.IntToString | python/dune/spgrid/__init__.py:11 | `str()` of an int starts with a minus sign exactly for negative numbers, followed by the digits of the magnitude |
| PythonFrontEnd.IntToStringNoComma | python/dune/spgrid/__init__.py:11 | `str()` of an int contains no comma, so the dimension cannot run into the refinement part of the type name |
| PythonFrontEnd.NatToStringValue | python/dune/spgrid/__init__.py:11 | the digits `str()` writes denote the number |
| PythonFrontEnd.IntToStringInjective | python/dune/spgrid/__init__.py:11 | distinct dimensions give distinct strings |
| PythonFrontEnd.SplitAtComma | python/dune/spgrid/__init__.py:11 | a comma-free word before a comma-led tail is determined by the whole string |
| PythonFrontEnd.FamilyTail | python/dune/spgrid/__init__.py:11 | the refinement part of the type name starts with a comma and then names the family |
| PythonFrontEnd.TypeNameDetermines | python/dune/spgrid/__init__.py:11-37 | for one coordinate type, the type name determines the dimension and the refinement family: different factory calls request different grid types |
| PythonFrontEnd.Layout | python/dune/spgrid/__init__.py:11 | the factories' left-nested string concatenation spells the type name |
| PythonFrontEnd.BisectionTail | python/dune/spgrid/__init__.py:11 | the bisection grid's type name ends in `, Dune::SPBisectionRefinement >` |
| PythonFrontEnd.IsotropicTail | python/dune/spgrid/__init__.py:24 | the isotropic grid's type name ends in `, Dune::SPIsotropicRefinement >` |
| PythonFrontEnd.AnisotropicTail | python/dune/spgrid/__init__.py:37 | the anisotropic grid's type name ends in `, Dune::SPAnisotropicRefinement >` |
| PythonFrontEnd.GridDimension | python/dune/spgrid/__init__.py:8-9 | `dimgrid` is taken from the domain exactly when it was not given |
| PythonFrontEnd.SpBisectionGrid | python/dune/spgrid/__init__.py:5-15 | `spBisectionGrid` requests the bisection grid type of that dimension with the two headers and no extra method |
| PythonFrontEnd.SpIsotropicGrid | python/dune/spgrid/__init__.py:18-28 | `spIsotropicGrid` requests the isotropic grid type of that dimension with the two headers and no extra method |
| PythonFrontEnd.SpAnisotropicGrid | python/dune/spgrid/__init__.py:30-53 | `spAnisotropicGrid` requests the anisotropic grid type with the two headers and exactly one generated `globalRefine(level, refDir)` method |
| PythonFrontEnd.AddonBisectionGrid | python/dune/spgrid/_grids.py:6-15 | the add-on `spBisectionGrid` raises what the configuration check raises, and otherwise requests the bisection type with the three headers |
| PythonFrontEnd.AddonIsotropicGrid | python/dune/spgrid/_grids.py:18-27 | the add-on `spIsotropicGrid` raises what the configuration check raises, and otherwise requests the isotropic type with the three headers |
| PythonFrontEnd.AddonMatchesInit | python/dune/spgrid/_grids.py:11-24 | the add-on factories request the same types as the package ones, with `pickle.hh` appended to the headers |
| PythonFrontEnd.GridRegistry | python/dune/spgrid/__init__.py:59-65 | `registry["grid"]` has exactly the keys SP, SPBisection, SPIsotropic and SPAnisotropic |
| PythonFrontEnd.RegistryFamilies | python/dune/spgrid/__init__.py:60-65 | "SP" and "SPIsotropic" give the isotropic grid, "SPBisection" the bisection grid and "SPAnisotropic" the anisotropic grid |
| PythonFrontEnd.MaskFlags | python/dune/spgrid/__init__.py:42-47 | the flags loop sets bit i of the mask exactly when i is below both dim and the list's length and refDir[i] is non-zero |
| PythonFrontEnd.GlobalRefineMask | python/dune/spgrid/__init__.py:42-48 | the mask the generated method builds has exactly those bits, and the anisotropic policy accepts it |
| EntityInfos.EntityInfo.Empty | dune/grid/spgrid/entityinfo.hh:118 | a default info has no level and partition number UINT_MAX |
| EntityInfos.EntityInfo.OnLevel | dune/grid/spgrid/entityinfo.hh:120-123 | an info on a level is bound to it with partition number UINT_MAX |
| EntityInfos.EntityInfo.constructor | dune/grid/spgrid/entityinfo.hh:125-128 | an info from level, id and number keeps all three and takes the id's direction |
| EntityInfos.EntityInfo.Copy | dune/grid/spgrid/entityinfo.hh:165 | a copy has the same level, id, direction and partition number |
| EntityInfos.EntityInfo.Clear | dune/grid/spgrid/entityinfo.hh:118 | assigning a default info leaves no level and partition number UINT_MAX |
| EntityInfos.EntityInfo.Equals | dune/grid/spgrid/entityinfo.hh:134-137 | equal infos are on the same level |
| EntityInfos.EntityInfo.Level | dune/grid/spgrid/entityinfo.hh:52 | the level of an info is that of its grid level |
| EntityInfos.EntityInfo.Update | dune/grid/spgrid/entityinfo.hh:151-156 | `update()` recomputes the direction from the id and changes nothing else |
| EntityInfos.EntityInfo.UpdateNumber | dune/grid/spgrid/entityinfo.hh:158-162 | `update(number)` stores the number and recomputes the direction, keeping level and id |
| EntityInfos.EntityInfo.Up | dune/grid/spgrid/entityinfo.hh:63-69 | `up()` moves to the father level, one level coarser, with the id mapped by that refinement's father rule |
| EntityInfos.EntityInfo.Down | dune/grid/spgrid/entityinfo.hh:71-77 | `down()` moves to the child level, one level finer, with the id mapped to the first child |
| EntityInfos.EntityInfo.NextChild | dune/grid/spgrid/entityinfo.hh:79-82 | `nextChild()` stays on the level and applies the refinement's next-child rule |
| EntityInfos.UpUndoesDown | dune/grid/spgrid/entityinfo.hh:63-77 | `up()` after `down()` gives back the element's id |
| EntityInfos.SiblingsShareFather | dune/grid/spgrid/entityinfo.hh:79-82 | from the k-th child, `nextChild()` reaches another child of the same father, answering true exactly when k is not the last child |
| EntityInfos.NextChildIsSibling | dune/grid/spgrid/entityinfo.hh:79-82 | any element and the one `nextChild()` moves it to are elements with the same father, and the answer is true exactly unless the element was the last child |
| EntityInfos.SiblingsFather | dune/grid/spgrid/entityinfo.hh:79-82 | `nextChild()` keeps an element among the children of its father |
| EntityInfos.FirstChildIsChild | dune/grid/spgrid/entityinfo.hh:71-77 | the first child is an element whose father is the element itself |
| Entities.FaceId | dune/grid/spgrid/entity.hh:289 | the face `face` of an element (the element's id plus `subId(1, face)`) moves one step down (even face) or up (odd face) along axis face / 2 and keeps the other components |
| Entities.TouchesBoundaryIffBoundaryFace | dune/grid/spgrid/entity.hh:295-307 | an element touches the global boundary exactly when one of its faces lies in the boundary |
| Entities.OddWhereZero | dune/grid/spgrid/entity.hh:288-289 | an element id plus a {-1,0,1} offset is odd exactly where the offset is zero |
| Entities.NonzeroExtremes | dune/grid/spgrid/entity.hh:288-289 | an offset with no non-zero component is zero and one with only non-zero components has none zero |
| Entities.SubEntityCodimension | dune/grid/spgrid/entity.hh:284-291 | the id `subEntity<codim>(i)` computes has codimension codim, with the vertex direction 0 and the element direction 2^dim - 1 |
| Entities.Entity.constructor | dune/grid/spgrid/entity.hh:60 | an entity holds a fresh copy of the info it was built from |
| Entities.Entity.Level | dune/grid/spgrid/entity.hh:64-67 | an entity's level is that of its grid level |
| Entities.Entity.Equals | dune/grid/spgrid/entity.hh:90-93 | equal entities are on the same level |
| Entities.Entity.Seed | dune/grid/spgrid/entity.hh:95-98 | the seed of an entity is valid and gives back its level, id and partition number |
| Entities.Entity.Count | dune/grid/spgrid/entity.hh:200-208 | an element has choose(dim, codim) * 2^codim sub-entities of codimension codim, at least one |
| Entities.Entity.ILevelBegin | dune/grid/spgrid/entity.hh:223-226 | the level intersection range starts at face 0 of this element |
| Entities.Entity.ILevelEnd | dune/grid/spgrid/entity.hh:228-231 | the level intersection range ends at face 2*dim of this element |
| Entities.Entity.ILeafBegin | dune/grid/spgrid/entity.hh:213-216 | the leaf range starts like the level range on a leaf element and at the level end otherwise |
| Entities.Entity.ILeafEnd | dune/grid/spgrid/entity.hh:218-221 | the leaf range ends at the level end |
| Entities.Entity.HasBoundaryIntersections | dune/grid/spgrid/entity.hh:295-307 | the or-loop answers true exactly when some component of the id lies next to the lower or upper end of the global mesh |
| Entities.Entity.SubEntity | dune/grid/spgrid/entity.hh:284-291 | a sub-entity is a fresh info on the same level and partition with id plus `subId(codim, i)`, of codimension codim and with that id's direction |
| Entities.Entity.Father | dune/grid/spgrid/entity.hh:311-318 | the father is a fresh entity on the father level with the id mapped by the refinement's father rule and the same partition number and codimension |
| Entities.Entity.IsRegular | dune/grid/spgrid/entity.hh:259-262 | every entity is regular |
| Entities.Entity.IsNew | dune/grid/spgrid/entity.hh:264-267 | no entity is new |
| Entities.Entity.MightVanish | dune/grid/spgrid/entity.hh:269-272 | no entity might vanish |
| Entities.LeafIffNoChild | dune/grid/spgrid/entity.hh:69-72 | an entity is a leaf (its level is maxLevel) exactly when its level has no child |
| Entities.FatherIffNotMacro | dune/grid/spgrid/entity.hh:235-238 | an entity has a father (level > 0) exactly when its level is not the macro level |
| Entities.LeafRangeEmptyIffRefined | dune/grid/spgrid/entity.hh:213-221 | the leaf intersection range is empty exactly when the element's level has been refined |
| GridViews.IndexSetPair.constructor | dune/grid/spgrid/gridview.hh:220 | a new pair's index set is unbound |
| GridViews.GridView.Default | dune/grid/spgrid/gridview.hh:218-223 | a default view owns a fresh unbound pair with reference count 1 |
| GridViews.GridView.constructor | dune/grid/spgrid/gridview.hh:226-232 | a view of a level owns a fresh pair bound to the level with reference count 1 |
| GridViews.GridView.Copy | dune/grid/spgrid/gridview.hh:235-249 | a copy shares the other view's pair, which gains one reference |
| GridViews.GridView.Release | dune/grid/spgrid/gridview.hh:252-257 | destruction drops one reference and frees the pair exactly when none is left |
| GridViews.GridView.Assign | dune/grid/spgrid/gridview.hh:260-269 | assignment shares the other pair; assigning a view its own pair keeps the count and frees nothing, otherwise the other pair gains a reference and the old one loses one |
| GridViews.GridView.GridLevelOf | dune/grid/spgrid/gridview.hh:431-435 | a view's level is the level of its shared index set |
| GridViews.GridView.Update | dune/grid/spgrid/gridview.hh:438-442 | `update` rebinds the shared index set to the level and keeps the count |
| GridViews.GridView.OverlapSize | dune/grid/spgrid/gridview.hh:302-310 | `overlapSize` throws NotImplemented exactly for codim != 0; for elements it is the overlap-front cells minus the interior-border cells |
| GridViews.GridView.GhostSize | dune/grid/spgrid/gridview.hh:313-319 | `ghostSize` throws NotImplemented exactly for codim != 0; for elements it is the size of the ghost list, which is empty |
| GridViews.GridView.IBegin | dune/grid/spgrid/gridview.hh:367-371 | `ibegin` is the entity's level intersection begin, on face 0 |
| GridViews.GridView.IEnd | dune/grid/spgrid/gridview.hh:375-379 | `iend` is the entity's level intersection end, at face 2*dim |
| GridViews.ListVolume | dune/grid/spgrid/gridview.hh:306-307 | the number of cells of a list of partitions is non-negative, 0 for no partition |
| GridViews.ListVolumeAppend | dune/grid/spgrid/gridview.hh:306-307 | the cells of two joined lists are the cells of the first plus those of the second |
| GridViews.LevelVolume | dune/grid/spgrid/gridview.hh:306-318 | the cells of a level's list of one iterator type, never negative |
| GridViews.GhostListEmpty | dune/grid/spgrid/gridview.hh:318 | a level's ghost list is empty and has no cells |
| GridViews.NoOverlapElements | dune/grid/spgrid/gridview.hh:302-319 | on a level whose local mesh lies inside its global mesh both `overlapSize(0)` and `ghostSize(0)` are 0, since the level's pool is built without overlap |
| GridViews.UpdateShared | dune/grid/spgrid/gridview.hh:438-442 | rebinding one view rebinds every copy sharing its pair |
| PartitionPools.NoPeriodicNoSplit | dune/grid/spgrid/partitionpool.hh:83-101 | without periodic axes the split loop keeps the overlap mesh and splits no axis |
| PartitionPools.PoolWithoutOverlap | dune/grid/spgrid/partitionpool.hh:62-121 | a pool without overlap or periodic axes on a local mesh inside the global one has the interior list as overlap list and the interior-border list as overlap-front and all list |
| PartitionPools.NoOverlapSplit | dune/grid/spgrid/partitionpool.hh:77-104 | with zero overlap and no periodic axis the grown overlap mesh is the local mesh, and the split loop keeps it and splits no axis |
| PartitionPools.NoOverlapPiece | dune/grid/spgrid/partitionpool.hh:107-115 | the only piece of an unsplit local mesh inside the global one is the local mesh itself |
| PartitionIterators.BeginAt | dune/grid/spgrid/iterator.hh:143-148 | `begin(i, dir)` has the parity of the direction on axis i and lies at the lower bound when sweeping up and at the upper bound when sweeping down |
| PartitionIterators.EndAt | dune/grid/spgrid/iterator.hh:151-157 | `end(i, dir)` is one step of 2 beyond the bound on the far side of the sweep |
| PartitionIterators.StepOf | dune/grid/spgrid/iterator.hh:118-119 | the step of a component is +2 when sweeping up and -2 when sweeping down |
| PartitionIterators.InsideIsEntity | dune/grid/spgrid/iterator.hh:115-123 | an id between the bounds with the direction's parity is an entity of the partition with that direction, which is then not empty |
| PartitionIterators.Begins | dune/grid/spgrid/iterator.hh:131-172 | the first id of a sweep is `begin(i, dir)` on every axis |
| PartitionIterators.BeginsInside | dune/grid/spgrid/iterator.hh:171-172 | in a direction that is not empty the first id lies inside the partition |
| PartitionIterators.Odometer | dune/grid/spgrid/iterator.hh:115-123 | the component loop of `increment` keeps the dimension of the id |
| PartitionIterators.StepWithin | dune/grid/spgrid/iterator.hh:119-120 | a step of 2 that does not reach `end` stays between the bounds and keeps the parity |
| PartitionIterators.OdometerInside | dune/grid/spgrid/iterator.hh:115-123 | the component loop keeps the id inside; when every component from i on wraps they are back at their first value and the others are untouched |
| PartitionIterators.OdometerWraps | dune/grid/spgrid/iterator.hh:115-123 | a full wrap gives back the first id of the sweep |
| PartitionIterators.StepComponents | dune/grid/spgrid/iterator.hh:115-123 | the component loop on an id computes the odometer step and tells whether a component moved |
| PartitionIterators.MoveToBegin | dune/grid/spgrid/iterator.hh:131-132 | the reset loop puts the id on the first id of the sweep in that direction |
| PartitionIterators.FirstPattern | dune/grid/spgrid/direction.hh:163 | the direction iterator starts at `(1 << (dim - codim)) - 1`, below the sentinel and with dim - codim bits set |
| PartitionIterators.FirstNonEmpty | dune/grid/spgrid/iterator.hh:127-168 | the skip loop stops at or after where it starts and no later than the sentinel |
| PartitionIterators.FirstNonEmptyMeans | dune/grid/spgrid/iterator.hh:127-168 | the skip loop stops on a pattern of the codimension that is not empty, every such pattern it passed being empty, or at the sentinel when all are |
| PartitionIterators.FirstNonEmptySkip | dune/grid/spgrid/iterator.hh:127-128 | starting the skip loop past empty patterns or patterns of another dimension finds the same pattern |
| PartitionIterators.SkipEmptyDirections | dune/grid/spgrid/iterator.hh:127-168 | the skip loop on a direction iterator leaves it on the first non-empty pattern from where it stood |
| PartitionIterators.StartOn | dune/grid/spgrid/iterator.hh:169-174 | starting a sweep on the direction found puts the iterator on an entity of that direction |
| PartitionIterators.StepOn | dune/grid/spgrid/iterator.hh:115-123 | the component step keeps the iterator on an entity of the same direction, and a full wrap returns to the first id |
| PartitionIterators.EndIds | dune/grid/spgrid/iterator.hh:182 | at the end every component of the id is INT_MAX |
| PartitionIterators.EndPosition | dune/grid/spgrid/iterator.hh:90-100 | the end position is past the last partition with the INT_MAX id |
| PartitionIterators.Resume | dune/grid/spgrid/iterator.hh:125-139 | the direction search from partition k lands on k or a later partition, or at the end |
| PartitionIterators.Landed | dune/grid/spgrid/iterator.hh:160-183 | `init` lands on the current or a later partition, or at the end |
| PartitionIterators.ResumeSettled | dune/grid/spgrid/iterator.hh:125-139 | the direction search lands on an entity of a non-empty direction carrying the partition's number, or at the end |
| PartitionIterators.LandedSettled | dune/grid/spgrid/iterator.hh:160-183 | `init` lands on an entity carrying the partition's number, or at the end |
| PartitionIterators.ResumeSkip | dune/grid/spgrid/iterator.hh:125-139 | starting the search past patterns that are empty or of another dimension changes nothing |
| PartitionIterators.ResumeSkipsEmpty | dune/grid/spgrid/iterator.hh:125-139 | the search passes only directions that are empty in the partition, and it leaves a partition only when all its remaining directions are empty |
| PartitionIterators.LandedSkipsEmpty | dune/grid/spgrid/iterator.hh:175-179 | `init` passes only partitions that hold no entity of the codimension |
| PartitionIterators.Following | dune/grid/spgrid/iterator.hh:112-140 | `increment` never moves back in the list |
| PartitionIterators.FollowingSettled | dune/grid/spgrid/iterator.hh:112-140 | `increment` keeps the iterator on an entity of its list or at the end |
| PartitionIterators.FollowingSkipsNothing | dune/grid/spgrid/iterator.hh:112-140 | `increment` skips no entity: the directions and partitions it passes over hold none |
| PartitionIterators.PartitionIterator.Index | dune/grid/spgrid/iterator.hh:68 | the position in the list is at most its length and below it exactly while the partition iterator is on a node |
| PartitionIterators.PartitionIterator.Current | dune/grid/spgrid/iterator.hh:115 | the iterator's state as a value: the position in the list and the id |
| PartitionIterators.PartitionIterator.IsTrue | dune/grid/spgrid/iterator.hh:56 | the iterator converts to true exactly before the end of the list |
| PartitionIterators.PartitionIterator.Begin | dune/grid/spgrid/iterator.hh:77-87 | the begin iterator keeps level, list and sweep and stands where `init` lands from the first partition |
| PartitionIterators.PartitionIterator.End | dune/grid/spgrid/iterator.hh:90-100 | the end iterator stands past the last partition with the INT_MAX id and is false |
| PartitionIterators.PartitionIterator.Init | dune/grid/spgrid/iterator.hh:160-183 | `init` moves the iterator to where the specification of `init` lands from the current partition |
| PartitionIterators.PartitionIterator.Settle | dune/grid/spgrid/iterator.hh:125-179 | the shared direction search moves the iterator to the specified landing position |
| PartitionIterators.PartitionIterator.Increment | dune/grid/spgrid/iterator.hh:103-140 | `++` keeps the iterator valid and moves it to the specified next position |
| PartitionIterators.PartitionIterator.Advance | dune/grid/spgrid/iterator.hh:115-123 | the component loop applies the odometer step to the id and keeps the direction when a component moved |
| PartitionIterators.PartitionIterator.NextDirection | dune/grid/spgrid/iterator.hh:125-139 | after a full wrap the search resumes from the pattern after the current direction |
| PartitionIterators.PartitionIterator.DirectionAfter | dune/grid/spgrid/iterator.hh:125-126 | a direction iterator on the current direction, once incremented, finds what the search from the next pattern finds |
| PartitionIterators.Run | dune/grid/spgrid/iterator.hh:103-109 | n increments never move back in the list |
| PartitionIterators.IterationSettled | dune/grid/spgrid/iterator.hh:103-140 | from a settled position any number of increments keeps the invariant |
| HierarchicIterators.LevelRefinements | dune/grid/spgrid/gridlevel.hh:164-168 | one refinement per level, the one each level came from its father by |
| HierarchicIterators.HierarchyRefined | dune/grid/spgrid/gridlevel.hh:164-168 | the refinements of a hierarchy are those its levels report, each one its operations accept |
| HierarchicIterators.Climb | dune/grid/spgrid/hierarchiciterator.hh:49-50 | the climbing loop never goes below `minLevel` and keeps the dimension of the id |
| HierarchicIterators.Step | dune/grid/spgrid/hierarchiciterator.hh:45-55 | one increment stays on a level of the hierarchy |
| HierarchicIterators.Ancestor | dune/grid/spgrid/hierarchiciterator.hh:49-50 | the ancestor on `minLevel` reached by the father rule has the dimension of the id |
| HierarchicIterators.BelowAtRoot | dune/grid/spgrid/hierarchiciterator.hh:35 | on level `minLevel` the only position below the start is the start |
| HierarchicIterators.FatherBelow | dune/grid/spgrid/hierarchiciterator.hh:50 | `up()` from a position below the start stays below the start |
| HierarchicIterators.SiblingBelow | dune/grid/spgrid/hierarchiciterator.hh:49 | `nextChild()` from a position below the start stays below the start |
| HierarchicIterators.ClimbBelow | dune/grid/spgrid/hierarchiciterator.hh:47-51 | the climb keeps the traversal below the start |
| HierarchicIterators.StepBelow | dune/grid/spgrid/hierarchiciterator.hh:45-55 | every increment keeps the traversal below the start, between the two levels |
| HierarchicIterators.Run | dune/grid/spgrid/hierarchiciterator.hh:45-55 | n increments stay on levels of the hierarchy |
| HierarchicIterators.TraversalBelow | dune/grid/spgrid/hierarchiciterator.hh:33-55 | every position reached from `hbegin` is an element between the start's level and `maxLevel` descending from the start, and it is back on the start's level only at the start itself (the end) |
| HierarchicIterators.RunBelow | dune/grid/spgrid/hierarchiciterator.hh:45-55 | any number of increments keeps the traversal below the start |
| HierarchicIterators.FirstStep | dune/grid/spgrid/hierarchiciterator.hh:38-53 | with `maxLevel` above the start's level the first increment goes to the first child one level down, so the start itself is never yielded; otherwise it stays at the start |
| HierarchicIterators.Capped | dune/grid/spgrid/hierarchiciterator.hh:36 | the maximal level is the smaller of the requested and the grid's maximal level |
| HierarchicIterators.StepIn | dune/grid/spgrid/hierarchiciterator.hh:45-55 | one increment on a grid's levels stays on one of them |
| HierarchicIterators.HierarchicIterator.Here | dune/grid/spgrid/hierarchiciterator.hh:42-43 | the current position is the info's level and id |
| HierarchicIterators.HierarchicIterator.constructor | dune/grid/spgrid/hierarchiciterator.hh:33-39 | the iterator copies the entity's info, takes its level as minimum and the capped maximum, and stands where one increment from the entity leads |
| HierarchicIterators.HierarchicIterator.Increment | dune/grid/spgrid/hierarchiciterator.hh:45-55 | `increment` moves the info to the specified next position, keeps the partition number and recomputes the direction |
| HierarchicIterators.HierarchicIterator.Move | dune/grid/spgrid/hierarchiciterator.hh:47-53 | the moving part of `increment` reaches the specified next position |
| HierarchicIterators.HBegin | dune/grid/spgrid/entity.hh:247-251 | `hbegin(maxLevel)` is a fresh iterator from the entity with the capped maximum, on the first position of the traversal |
| HierarchicIterators.HEnd | dune/grid/spgrid/entity.hh:253-257 | `hend(maxLevel)` is an iterator with the entity's level as minimum and maximum, standing at the entity |
| Trees.TreeClimb | dune/grid/spgrid/tree.hh:97-103 | the climbing loop either ends or stops strictly below the root's level, no finer than where it started |
| Trees.TreeStep | dune/grid/spgrid/tree.hh:93-107 | one increment either ends or stays strictly below the root's level on a level of the hierarchy |
| Trees.TreeRun | dune/grid/spgrid/tree.hh:93-107 | any number of increments either ends or stays on the root's level or finer |
| Trees.TreeClimbIsClimb | dune/grid/spgrid/tree.hh:97-103 | the tree's climb is the hierarchic iterator's climb with the root's level as minimum, ending exactly where that climb returns to the root's level |
| Trees.FatherPruned | dune/grid/spgrid/tree.hh:95-106 | the father of a place reached below the root is no leaf and was itself reached without passing a leaf |
| Trees.SiblingPruned | dune/grid/spgrid/tree.hh:99 | a sibling of a place reached without passing a leaf was too |
| Trees.ClimbToSibling | dune/grid/spgrid/hierarchiciterator.hh:49-50 | above the minimum level, a climb that finds a next sibling stops on it |
| Trees.ClimbToFather | dune/grid/spgrid/hierarchiciterator.hh:49-50 | above the minimum level, a climb that wraps around goes on from the element's father, which is an element |
| Trees.ClimbPruned | dune/grid/spgrid/tree.hh:97-103 | the climb keeps the traversal from going below a leaf |
| Trees.TreeStepBelow | dune/grid/spgrid/tree.hh:93-107 | every increment either ends or reaches an element strictly below the root, descending from it, with no leaf among its strict ancestors |
| Trees.TreeRunBelow | dune/grid/spgrid/tree.hh:93-107 | any number of increments keeps that so |
| Trees.TreeTraversal | dune/grid/spgrid/tree.hh:81-107 | the traversal from `begin()` yields the root first and never again, and every later position is an element descending from the root with no leaf between them |
| Trees.TreeIterator.Here | dune/grid/spgrid/tree.hh:73-75 | the current place is the info's level and id |
| Trees.TreeIterator.Position | dune/grid/spgrid/tree.hh:103 | an iterator is at the end exactly when its info has no grid level, and otherwise at its place |
| Trees.TreeIterator.IsDone | dune/grid/spgrid/tree.hh:58-70 | `isDone_` holds exactly when the info is on the root's level |
| Trees.TreeIterator.constructor | dune/grid/spgrid/tree.hh:81-85 | the iterator starts at the entity with the entity's level as root |
| Trees.TreeIterator.End | dune/grid/spgrid/tree.hh:77-79 | the end iterator has no root level and an empty info |
| Trees.TreeIterator.Increment | dune/grid/spgrid/tree.hh:93-107 | `increment` moves the iterator to the specified next position and keeps the partition number while not at the end |
| Trees.TreeIterator.Ascend | dune/grid/spgrid/tree.hh:97-103 | the `nextChild`/`up` loop moves the iterator where the specified climb leads |
| Trees.EntityTree.constructor | dune/grid/spgrid/tree.hh:223-225 | the tree holds a copy of the entity and the predicate |
| Trees.EntityTree.Begin | dune/grid/spgrid/tree.hh:227 | `begin()` stands at the entity with its level as root |
| Trees.EntityTree.End | dune/grid/spgrid/tree.hh:228 | `end()` is the end iterator |
| Trees.EntityTree.Empty | dune/grid/spgrid/tree.hh:230 | a tree is never empty |
| Trees.IntersectionTreeIterator.constructor | dune/grid/spgrid/tree.hh:159-163 | the iterator starts at the intersection with its level as root |
| Trees.IntersectionTreeIterator.End | dune/grid/spgrid/tree.hh:155-157 | the end iterator is an intersection of the face without an inside element |
| Trees.IntersectionTreeIterator.Increment | dune/grid/spgrid/tree.hh:178-199 | `increment` writes the next position back into the intersection, or drops the inside element at the end |
| Trees.IntersectionTree.constructor | dune/grid/spgrid/tree.hh:251-253 | the tree holds the intersection and the predicate |
| Trees.IntersectionTree.Begin | dune/grid/spgrid/tree.hh:255 | `begin()` stands at the intersection with its level as root |
| Trees.IntersectionTree.End | dune/grid/spgrid/tree.hh:256 | `end()` is an intersection of the same face without an inside element |
| Trees.IntersectionTree.Empty | dune/grid/spgrid/tree.hh:258 | an intersection tree is never empty |
| SuperEntityIterators.TargetsExactly | dune/grid/spgrid/superentityiterator.hh:163-166 | a direction d is a target of dir exactly when d is below 2^dim and shares no bit with dir |
| SuperEntityIterators.TargetsIncreasing | dune/grid/spgrid/superentityiterator.hh:163-166 | the provider's loop visits the targets in strictly increasing order |
| SuperEntityIterators.TargetsStartAtZero | dune/grid/spgrid/superentityiterator.hh:163-166 | every direction has a target, and the first is the direction 0 |
| SuperEntityIterators.AxisArithmetic | dune/grid/spgrid/superentityiterator.hh:170-176 | the C++ products `(1-dirbit)(2 dbit-1)` and `(1-dirbit) p` are the offset along an axis and a flag that vanishes along the entity |
| SuperEntityIterators.EntryFlagsOfAxis | dune/grid/spgrid/superentityiterator.hh:170-176 | the entry of target d carries face 2i exactly when the entity is pinned on axis i and bit i of d is 0, and face 2i+1 when that bit is 1 |
| SuperEntityIterators.OffsetShape | dune/grid/spgrid/superentityiterator.hh:170-189 | the negated offset of a target is a sub-entity offset with as many non-zero components as the entity's codimension |
| SuperEntityIterators.IndexFor | dune/grid/spgrid/superentityiterator.hh:177-187 | the number recorded for a target is a valid sub-entity number of the entity's codimension whose offset is the negated target offset |
| SuperEntityIterators.TargetIsElement | dune/grid/spgrid/superentityiterator.hh:170-176 | the id reached by the offset of any target is an element (all components odd) |
| SuperEntityIterators.TargetContainsEntity | dune/grid/spgrid/superentityiterator.hh:177-187 | the entity is the recorded sub-entity of each target's element |
| SuperEntityIterators.ChainTelescopes | dune/grid/spgrid/superentityiterator.hh:188-209 | `begin_[dir]` ends in an entry on no face, and its entries step from the entity through each target to the closing position |
| SuperEntityIterators.ChainStep | dune/grid/spgrid/superentityiterator.hh:188-209 | entry k of `begin_[dir]` steps exactly from stop k to stop k + 1 |
| SuperEntityIterators.EndTelescopes | dune/grid/spgrid/superentityiterator.hh:196-202 | `end_[dir]` is a single entry on no face that steps from the entity to the end position |
| SuperEntityIterators.ChainMeetsEnd | dune/grid/spgrid/superentityiterator.hh:188-209 | the begin and the end chain of a direction finish at the same position, 3 along every pinned axis |
| SuperEntityIterators.ChainVisitsTargets | dune/grid/spgrid/superentityiterator.hh:163-209 | at stop j + 1 the walk is at the element of the j-th target, the entry's index names the entity among its sub-entities, and its flags are that target's |
| SuperEntityIterators.ChainEntry | dune/grid/spgrid/superentityiterator.hh:163-189 | entry j of `begin_[dir]` is the entry the loop builds for the j-th target |
| SuperEntityIterators.AxisOutside | dune/grid/spgrid/superentityiterator.hh:66-72 | along axis i the target leaves the closed domain exactly when the entity lies on the face that the entry flags for that axis and that bit of d |
| SuperEntityIterators.SkipIffOutside | dune/grid/spgrid/superentityiterator.hh:66-98 | for an entity in the domain, `(fBoundary_ & fBoundary) != 0` holds exactly when the target's element lies outside the domain |
| SuperEntityIterators.FlagStep | dune/grid/spgrid/superentityiterator.hh:175 | or-ing in the flag of axis i keeps the flag word below 2^(2i+2) and its bits those of the entry's faces so far |
| SuperEntityIterators.TargetEntry | dune/grid/spgrid/superentityiterator.hh:170-176 | the loop over the axes computes the target's offset and exactly the entry flags of the target |
| SuperEntityIterators.AxisEntry | dune/grid/spgrid/superentityiterator.hh:172-175 | one pass appends the axis offset and extends the flags by that axis's faces |
| SuperEntityIterators.NegatedEqual | dune/grid/spgrid/superentityiterator.hh:181-183 | the inner loop's `found` is true exactly when subId is the negated idAdd |
| SuperEntityIterators.SubIdMatches | dune/grid/spgrid/superentityiterator.hh:177-187 | a sub-entity number has a given offset exactly when it is the number the reference cube assigns to that offset |
| SuperEntityIterators.FindIndex | dune/grid/spgrid/superentityiterator.hh:177-187 | the search over the sub-entities finds a valid number whose subId is -idAdd (the assertion that one exists holds) |
| SuperEntityIterators.TargetsSnoc | dune/grid/spgrid/superentityiterator.hh:163-166 | the targets below d + 1 are those below d, followed by d when it avoids dir |
| SuperEntityIterators.EntriesSnoc | dune/grid/spgrid/superentityiterator.hh:163-189 | the entries for a longer target list extend those of the shorter list by the new target's entry |
| SuperEntityIterators.EntryAtSnoc | dune/grid/spgrid/superentityiterator.hh:163-189 | appending a target leaves the earlier entries unchanged |
| SuperEntityIterators.BuildEntries | dune/grid/spgrid/superentityiterator.hh:163-190 | the loop over the directions builds the entries of all targets in order and leaves the head at the last target |
| SuperEntityIterators.AddTarget | dune/grid/spgrid/superentityiterator.hh:167-189 | one pass on a target appends its entry, whose step goes from the head to the target, and moves the head there |
| SuperEntityIterators.EndStep | dune/grid/spgrid/superentityiterator.hh:200-201 | the end loop's idAdd is 3 along every pinned axis and 0 elsewhere |
| SuperEntityIterators.BuildSequence | dune/grid/spgrid/superentityiterator.hh:158-210 | one direction of the constructor yields exactly `begin_[dir]` and `end_[dir]` as specified |
| SuperEntityIterators.SequenceProvider.constructor | dune/grid/spgrid/superentityiterator.hh:150-211 | the provider holds, for every direction below 2^dim, the specified begin and end chains |
| SuperEntityIterators.SequenceProvider.Sequence | dune/grid/spgrid/superentityiterator.hh:120-132 | `sequence(direction, be)` returns the begin or the end chain of that direction, which walks its stops |
| SuperEntityIterators.SequenceTelescopes | dune/grid/spgrid/superentityiterator.hh:120-209 | both chains of every direction end on no face and step through their stops |
| SuperEntityIterators.FirstKept | dune/grid/spgrid/superentityiterator.hh:94-100 | there is a first not-skipped entry from any position on, and every entry before it is skipped |
| SuperEntityIterators.NextStop | dune/grid/spgrid/superentityiterator.hh:91-102 | `next` always advances and stays within the chain |
| SuperEntityIterators.StepLands | dune/grid/spgrid/superentityiterator.hh:96 | adding a step to the id moves it from one stop to the next |
| SuperEntityIterators.EntityBoundary | dune/grid/spgrid/superentityiterator.hh:66-72 | the constructor's loop sets in fBoundary_ exactly the flags of the domain faces the entity lies on |
| SuperEntityIterators.SuperEntityIterator.constructor | dune/grid/spgrid/superentityiterator.hh:56-76 | the iterator takes the direction's chain, starts at the entity, records its face flags, and stands after `next` at the first element in the domain with the entity's partition number, or at the end |
| SuperEntityIterators.SuperEntityIterator.Start | dune/grid/spgrid/superentityiterator.hh:74-75 | `next`, then `update(partitionNumber)` when an element was found: the position and the index are those after the first kept entry |
| SuperEntityIterators.SuperEntityIterator.LandNumber | dune/grid/spgrid/superentityiterator.hh:75 | the update sets the given partition number and the element's direction and keeps the id and level |
| SuperEntityIterators.SuperEntityIterator.Next | dune/grid/spgrid/superentityiterator.hh:91-102 | `next` moves to one past the first kept entry, records that entry's index, and reports more exactly when the chain is not exhausted |
| SuperEntityIterators.SuperEntityIterator.Increment | dune/grid/spgrid/superentityiterator.hh:79-83 | an increment moves along the chain as `next` does, updating the direction when an element was found |
| SuperEntityIterators.SuperEntityIterator.Land | dune/grid/spgrid/superentityiterator.hh:82 | `update()` sets the element's direction and keeps id, level and partition number |
| SuperEntityIterators.SuperEntityIterator.Index | dune/grid/spgrid/superentityiterator.hh:85-88 | the index is the one recorded by the last `next` |
| SuperEntityIterators.StopsBeforeEndDiffer | dune/grid/spgrid/superentityiterator.hh:188-202 | for an entity of codimension at least one, every stop of `begin_[dir]` before its null pointer differs on some axis from the position the end iterator reaches |
| SuperEntityIterators.ElementTargets | dune/grid/spgrid/superentityiterator.hh:163-166 | for an element (every direction bit set) the only target is the direction 0 |
| SuperEntityIterators.ElementChainShape | dune/grid/spgrid/superentityiterator.hh:163-209 | for an element, `begin_[dir]` has two entries, the first on no face with index 0, its walk stays at the element, and the end step is zero |
| SuperEntityIterators.KeepsFirst | dune/grid/spgrid/superentityiterator.hh:91-102 | on a two-entry chain whose first entry is on no face, `next` from the start stops after the first entry, and the next call stops after the second |
| SuperEntityIterators.ElementWalk | dune/grid/spgrid/superentityiterator.hh:74-102 | for an element, the constructor's `next` stops after the first entry, at the element itself with index 0, and both chains of the element stay at it |
| SuperEntityIterators.EqualsEndIffDone | dune/grid/spgrid/superentityiterator.hh:79-102 | for codimension at least one, an iterator along `begin_[dir]` equals the end iterator of the same entity (same level, same id) exactly when its chain is done |
| SuperEntityIterators.CodimZeroBeginEqualsEnd | dune/grid/spgrid/superentityiterator.hh:188-202 | for an element, the begin iterator's chain is not done, yet it equals the end iterator, so a loop up to the end visits nothing |
| SuperEntityIterators.CodimZeroVisitsElement | dune/grid/spgrid/superentityiterator.hh:91-102 | for an element, the begin iterator stands on the element itself with index 0, and the next increment ends its chain |
| SuperElementIterators.ElementChain | dune/grid/spgrid/seiterator.hh:128-157 | `begin_[dir]` has one step per target plus the former head, each of the grid's dimension |
| SuperElementIterators.EndChain | dune/grid/spgrid/seiterator.hh:148-152 | `end_[dir]` is a single node whose step is the end offset, 3 along every pinned axis |
| SuperElementIterators.ElementChainIsEntityChain | dune/grid/spgrid/seiterator.hh:126-158 | the super-element chain is the super-entity chain of superentityiterator.hh with indices and flags dropped |
| SuperElementIterators.ElementChainAt | dune/grid/spgrid/seiterator.hh:126-158 | step k of the super-element chain is the idAdd of entry k of the super-entity chain |
| SuperElementIterators.ElementChainStep | dune/grid/spgrid/seiterator.hh:140-156 | step k of `begin_[dir]` goes from stop k to stop k + 1 of the walk over the targets |
| SuperElementIterators.StepArrives | dune/grid/spgrid/seiterator.hh:140-141 | `next->idAdd -= head->idAdd` followed by adding it to the head lands on the target |
| SuperElementIterators.WalkSums | dune/grid/spgrid/seiterator.hh:61-72 | along any chain that walks its stops, the sum of the first p steps is stop p |
| SuperElementIterators.ElementChainSums | dune/grid/spgrid/seiterator.hh:61-141 | after p steps of `begin_[dir]` the iterator stands at stop p: the targets in turn, then the end offset |
| SuperElementIterators.ElementChainVisitsTargets | dune/grid/spgrid/seiterator.hh:132-141 | after j + 1 steps the iterator stands at the element of the j-th target, a direction sharing no bit with dir |
| SuperElementIterators.OffsetFormula | dune/grid/spgrid/seiterator.hh:139 | axis i of a target's offset is `(1 - dir_i)(2 d_i - 1)` |
| SuperElementIterators.ElementChainMeetsEnd | dune/grid/spgrid/seiterator.hh:146-157 | the whole begin chain sums to the end chain's offset, so the begin walk ends where the end iterator stands |
| SuperElementIterators.ElementSequenceWalks | dune/grid/spgrid/seiterator.hh:93-158 | both chains of every direction walk the stops of the super-entity chains |
| SuperElementIterators.ElementStop | dune/grid/spgrid/seiterator.hh:61-73 | every position the iterator reaches after the entity is an element: the update sees an odd id on every axis |
| SuperElementIterators.EndIsElement | dune/grid/spgrid/seiterator.hh:148-152 | the end position is an element |
| SuperElementIterators.EndIsOdd | dune/grid/spgrid/seiterator.hh:148-152 | every component of the end position is odd |
| SuperElementIterators.EndAxisOdd | dune/grid/spgrid/seiterator.hh:151 | the end offset is odd exactly on the axes where the entity's id is even |
| SuperElementIterators.ParityAfterEnd | dune/grid/spgrid/seiterator.hh:151 | `x + 3(1 - b)` is odd when the parity of x is given by b |
| SuperElementIterators.ElementOffset | dune/grid/spgrid/seiterator.hh:138-139 | the axis loop computes exactly the target's offset |
| SuperElementIterators.StepsSnoc | dune/grid/spgrid/seiterator.hh:132-145 | the steps of a longer target list extend those of the shorter by the step from the last stop to the new target |
| SuperElementIterators.BuildSteps | dune/grid/spgrid/seiterator.hh:128-146 | the loop over d builds the steps of all targets and leaves the head at the last target |
| SuperElementIterators.BuildElementSequence | dune/grid/spgrid/seiterator.hh:126-158 | one direction of the constructor yields exactly `begin_[dir]` and `end_[dir]` as specified |
| SuperElementIterators.SequenceProvider.constructor | dune/grid/spgrid/seiterator.hh:123-159 | the provider holds, for every direction below 2^dim, the specified begin and end chains |
| SuperElementIterators.SequenceProvider.Sequence | dune/grid/spgrid/seiterator.hh:93-105 | `sequence(direction, be)` returns the begin or the end chain of that direction, which walks its stops |
| SuperElementIterators.SuperElementIterator.constructor | dune/grid/spgrid/seiterator.hh:51-63 | the iterator takes the direction's chain and stands at the entity's id plus the first step, with that element's direction |
| SuperElementIterators.SuperElementIterator.Increment | dune/grid/spgrid/seiterator.hh:66-74 | the increment moves to the next node, which exists, adds its step and updates the direction, keeping level and partition number |
| SuperElementIterators.ElementStops | dune/grid/spgrid/seiterator.hh:126-157 | for an element, `begin_[dir]` has two nodes, the first of which stays at the element, and the end node's offset is zero |
| SuperElementIterators.EqualsEndIffDone | dune/grid/spgrid/seiterator.hh:56-74 | for codimension at least one, an iterator along `begin_[dir]` equals the end iterator of the same entity (same level, same id) exactly when it stands on the last node |
| SuperElementIterators.CodimZeroBeginEqualsEnd | dune/grid/spgrid/seiterator.hh:146-157 | for an element, the begin iterator still has a node to go, yet it equals the end iterator, so a loop up to the end visits nothing |
| SuperElementIterators.CodimZeroVisitsElement | dune/grid/spgrid/seiterator.hh:56-74 | for an element, the begin iterator stands on the element itself and one increment reaches the last node |

## Left out

Arithmetic and representation:

- Refinements.FatherOf: `father` divides the `int` component by the unsigned `factor(i)` (refinement.hh:285), which in C++ converts a negative id to unsigned first. The model uses Dafny's floor division, which differs only for negative ids. Grid ids are never negative, because every global mesh starts at 0 and partitions are cut to it.
- Refinements.ChildAsWrittenOf: the same unsigned conversion applies to `(id + index % alpha) * alpha` at refinement.hh:294. The model reads the expression over the integers.
- GridLevels.MacroIdOf: `(id >> 1) / macroFactor_` (gridlevel.hh:174) divides by the `unsigned int` macro factor (gridlevel.hh:230), so C++ converts a negative left operand to unsigned first. The same holds for `id[ i ] / macroFactor_[ i ]` in `boundaryIndex` (gridlevel.hh:189, `GridLevels.GridLevel.BoundaryMacroId`). The model uses floor division, which again differs only for negative ids.
- 32-bit `int` and `unsigned int` overflow is not modelled. This covers the sizes, offsets and mixed-radix products in indexset.hh, the running sums in hindexset.hh, the segment counts of the boundary numbering (grid.hh:766-792), partition and mesh volumes, and `GridLevel::size`. All of them are unbounded integers here. `std::size_t` overflow of buffer positions is not modelled either.
- Floating point (`ctype`, `field_type`) is modelled as exact `real`: the normal vectors in normal.dfy and the Jacobians in geometrycache.dfy. Rounding is not modelled.
- Normals.NormalVector.DivAssign: dividing a normal by zero gives infinities or NaN in floating point, which an exact `real` cannot hold, so the operation requires a divisor other than 0.0.
- Policies.ReadWritePolicy: the round trip requires 1 ≤ dim ≤ 32, because the written direction set is read back into an `unsigned int` of 32 bits. The overflow of the `int` shift `1 << dir` for dir ≥ 31 is not modelled.
- GeometryCaches.MakeGeometryCache: the inverse transposed Jacobian (geometrycache.hh:226-268, the `1/h` entries) is not modelled. Neither are the hermitian products `mhv`/`umhv`/`mmhv`/`usmhv` (which equal the transposed ones on reals) or the norms (geometrycache.hh:183-186, 261-264).
- The heap-allocated linked nodes are sequences, and a node is addressed by its position: the partition list, the super-entity and super-element chains, and the interface node vectors. Aliasing between lists is not modelled, apart from the explicit identity of grid levels and of shared reference-counted blocks.
- MessageBuffers.Realloc: `realloc` is a fresh array with the old bytes copied in. Bytes fresh from the allocator are indeterminate in C++. In the model they are Dafny's default byte 0, and no contract speaks of them. Whether an allocation succeeds (messagebuffer.hh:154-160, 277-280) is a parameter of `MessageBuffers.WriteBuffer.Reserve` and `MessageBuffers.ReadBuffer.Reset`.
- EntitySeeds.DefaultSeed: the default seed's id and partition number are uninitialised in C++ and zero in the model. No accessor can read them.

Source that does not compile as written, modelled by its evident intent:

- Meshes.GrownBy: `grow(int)` (mesh.hh:134-143) shadows `begin()`/`end()` by its locals, as described above.
- PartitionLists.PartitionList.Assign: `operator=` (partitionlist.hh:42-46) passes a `Node*` to the `Node` constructor and returns nothing. The model deep-copies the other list.
- The `SPPartitionList(const Mesh &)` constructor (partitionlist.hh:29-31) builds a `Partition(mesh)`, and `SPPartition` has no constructor from a mesh. The static `create` (partitionlist.hh:146-149) returns such a list. Neither is modelled. The model's `PartitionLists.PartitionList.constructor` is the empty list that the partition pool starts from: partitionlist.hh declares no default constructor, but the pool needs one.
- The `Interface` copy constructor (linkage.hh:245-255) calls `push_back` through `nodes_->`, which is not a pointer. Interfaces are values in the model, so a copy is a copy of its nodes.
- Grids.Grid.GlobalRefine: `new GridLevel( leafLevel(), policy )` (grid.hh:629) passes a refinement policy where the constructor takes a `Refinement`. The model builds the child level's refinement with `RefinementOps.ChildRefinement` from the father's refinement and the policy (`Grids.RefinedStep`).
- GridViews.ListVolume: `overlapSize` and `ghostSize` (gridview.hh:302-319) call `volume()` on a partition list, and `SPPartitionList` has no such member. The model takes the sum of the partition volumes.
- PythonFrontEnd.GlobalRefineMask: the generated `globalRefine` (python/dune/spgrid/__init__.py:48) passes a `std::bitset` to the `explicit` constructor `SPAnisotropicRefinementPolicy(unsigned int)`. The model passes the bit field's value.
- Misc.Transform: misc.hh:27 declares `std::vector< T > out` while returning a vector of `op`'s result type, which compiles only when `op` returns `T`. The model lets the result type differ.
- PartitionLists.PartitionList.Append and CachedPartitionLists.CachedPartitionList.Append: partitionpool.hh:71-72, partitionpool.hh:122-123 and linkage.hh:228 use `+=` on partition lists, and neither partitionlist.hh nor cachedpartitionlist.hh declares an `operator+=`. The model reads `+=` as appending the partition at the tail of the list.
- GridLevels.GridLevel.BoundaryMacroId: `boundaryIndex` (gridlevel.hh:190) calls `grid().boundaryIndex( macroId, face )` with two arguments, while grid.hh:462-464 declares only a private three-argument `boundaryIndex( macroId, partitionNumber, face )`. The model returns the macro id the level hands over and does not choose a partition number for the call.
- GridLevels.GridLevel.Size: `size()` (gridlevel.hh:214-220) multiplies into `const int size`. The model returns the product of the cell counts.
- Meshes.Max and Meshes.Min: `intersect` (mesh.hh:159, and partition.hh:49 for `Partitions.Intersect`) calls `std::max( begin(), other.begin() )` and `std::min( end(), other.end() )` on multi-indices. `SPMultiIndex` declares no `operator<`, and even a compiling `std::max` would return one whole index rather than a componentwise one. The model takes the maximum and the minimum component by component, as an intersection of boxes needs (`Meshes.Intersection`, `Partitions.Intersect`).
- PartitionPools.PartitionPool.constructor and Linkages.Linkage.constructor: linkage.hh:153-154 call `localPool.overlap()` and `localPool.periodic()`, and `SPPartitionPool` (partitionpool.hh:16-55) declares neither accessor and keeps no overlap. The model gives the pool `overlap` and `periodic` fields set from its constructor's arguments, and the linkage (with `Linkages.RemotePool`) reads them.
- PartitionIterators.EndIds: the end state (iterator.hh:182) calls `std::fill( id.begin(), id.end(), INT_MAX )`, and `SPMultiIndex` has no `begin()`/`end()`. The model sets every component of the id to INT_MAX.
- PartitionPools.PartitionPool.PartitionType: `SPGridLevel::partitionType` (gridlevel.hh:127-130) takes only an id and calls the pool's `partitionType< codim >( id )` with one argument, while the pool declares `partitionType( id, number )` (partitionpool.hh:37). `SPEntityInfo::partitionType` (entityinfo.hh:141-144) calls the level's version with the id and the partition number. The model keeps only the pool's two-argument version, to be called with the id and the entity's partition number, as the entity info intends.
- SuperElementIterators.SuperElementIterator.constructor: seiterator.hh:60 reads `entityImpl().entityInfo.id()`, calling the entity and reading a member function as data. The model starts at the entity's id.

Behaviour of the source that the model does not carry:

- MessageBuffers.WriteBuffer.MoveAssign and MessageBuffers.ReadBuffer.MoveAssign: the move assignments (messagebuffer.hh:126-133, 248-255) do not `return *this`, and they drop the target's old block without freeing it. The model states the fields after the move. The leak and the missing return value are not modelled.
- GridLevels.Destroy: the destructor (gridlevel.hh:299-316) is modelled by what it does to the links: every level from the destroyed one on loses its child link. Freeing the levels, the geometry-in-father table and the geometry caches is not modelled.
- Grids.Grid.GlobalRefine: the update of the hierarchic index set after the new levels (grid.hh:633) is not part of the `Grid` class. `HierarchyIndexSets.HierarchyIndexSet.Update` models that update on its own.
- The `globalRefine` overload with an adaptation data handle (grid.hh:637-661) and `adapt` with a data handle (grid.hh:608-613) call into user code and are not modelled.
- The other `SPGrid` constructors (grid.hh:201-215, from corner points, with or without overlap, and the move constructor) are not modelled. They compute the domain in floating point and then call the same macro-grid setup that `Grids.Grid.constructor` models.
- Grid forwarders: `referenceCube`, `size(level, codim)`, the iterator ranges `lbegin`/`lend`/`leafbegin`/`leafend`, the id and index set accessors, and `overlapSize`/`ghostSize` of the grid (grid.hh:217-392). Also `entity(seed)`, `hasFather`/`father` of entities and intersections (grid.hh:416-455) and `comm`. These only forward to the level, the view or the entity models. Communication (`communicate`, grid.hh:396-410, gridview.hh:202, 419) is MPI and not modelled.
- Grid view forwarders: the view's `begin`/`end` iterators and `superEntityBegin`/`End` (gridview.hh:174-197) construct the iterators modelled in `PartitionIterators` and `SuperEntityIterators`. `size` and `indexSet` forward to the index set.
- Level accessors: `cube`, `domain`, `h`, `geometryInFather` and `volumeNormal` of `SPGridLevel` (gridlevel.hh:94-112, 154-157, 193-197, 208-212) hold floating-point geometry, as do `buildGeometry`'s local geometries (gridlevel.hh:223, 284-292) and the normal scaling at gridlevel.hh:320-331. `partitionType` (gridlevel.hh:127-130) and the entity info's `partitionType` are not modelled as members of their own: the level's one-argument call to the pool does not compile (see above), and the model answers both with `PartitionPools.PartitionPool.PartitionType` on the id and the entity's partition number.
- Entity forwarders: `partitionType` (entityinfo.hh:141-144, entity.hh:74-77), `geometryCache` (entityinfo.hh:146-149), `hasFather` of the info (entityinfo.hh:58-61), and `type`, `geometry`, `geometryInFather`, `subEntities`, `entityInfo`, `gridLevel` and `grid` of the entity (entity.hh:79-118, 205-209, 242-245). These read the level or floating-point geometry.
- Index-set overloads on entities: `index`, `subIndex` and `contains` of `SPIndexSet` and `SPHierarchyIndexSet` (indexset.hh:193-269, hindexset.hh:74-131) read the entity's info and call the id-based operations that are modelled. The grid-level pointer comparison in `contains` and `geomTypes` (hindexset.hh:105-108) are not modelled.
- `SPPartitionList::Iterator` comparison and `operator!` (partitionlist.hh:108-121) compare node pointers. The model compares positions (`PartitionLists.Next`).
- `argmax`/`argmin` (multiindex.hh:193-211) are used by no modelled code and are not modelled.
- Stream output of meshes, partitions and topologies (mesh.hh:228, partition.hh:62-65, 295, topology.hh:204-240) is not modelled. Multi-indices and refinement policies are read and written at the token level (`MultiIndices.ReadWrite`, `Policies.ReadWritePolicy`), and decimal formatting is left out.
- `SPSimpleSerialize::maxSize` (messagebuffer.hh:25-28) is `sizeof(T)`, the length of the value's byte representation in the model. The MPI serializer and buffers (messagebuffer.hh:54-92, 193-214, 319-360) are MPI and not modelled.
- The super-entity and super-element providers' destructors (superentityiterator.hh:214-227, seiterator.hh:162-175) free the chains. Freeing is not modelled.
- HierarchicIterators.TraversalBelow and Trees.TreeTraversal: the depth-first traversals are proved to stay between the start's level and the maximal level, below the start, and never to return to the start before the end. That the traversal reaches the end after finitely many steps, and visits every descendant, is not stated.
- PartitionPools.OverlapLists and PartitionPools.PartitionPool.constructor: the piece numbers `d < 2^n` fit an unsigned int only for `n < 31` split axes. Both require a dimension below 31, which the source does not check.
- Trees.IntersectionTreeIterator.constructor: the intersections themselves (intersection.hh) are not part of this model. An intersection is its inside entity and its face, and the end iterator carries no entity info.
- Trees.IntersectionTreeIterator.End: the face constructor (tree.hh:155-157) ignores its `isLeaf` argument and default-constructs the predicate. The model stores the caller's predicate instead. An end iterator is compared but never incremented, so it never consults the predicate.
- The Python pipeline: `module()`, `getDimgrid`, `checkconfiguration.have` and the returned grid objects are external. Their outcomes are parameters, and the factories return the request they would send (`PythonFrontEnd.SpBisectionGrid` and the others).
- intersection.hh, intersectioniterator.hh, idset.hh, boundarysegmentiterator.hh, geometry.hh and the CartesianGrid wrapper are not part of this model.

## Findings

| source | as written | input that shows it | evidently intended | confidence | as-written member | corrected member |
|---|---|---|---|---|---|---|
| dune/grid/spgrid/refinement.hh:294 | `SPDefaultRefinement::child` sets component i to `(id + index % alpha) * alpha - (alpha - 1)` | factor 3, element id 1 (cell 0), child index 1: the result is 4. That id is even, so it is no element, and its father is 0, not 1 | child digit r of cell j is cell `alpha*j + r`, id `alpha*(id - 1) + 2r + 1`, which gives 3. The two formulas agree for factors 1 and 2, so only arbitrary refinements with a factor of 3 or more are affected | not executed | Refinements.ChildAsWrittenOf, shown by Refinements.ChildAsWrittenFactorThree | Refinements.ChildOf, with Refinements.ChildFactorThree and Refinements.FatherOfChild |
| dune/grid/spgrid/hindexset.hh:140 | `levelIndexSet` asserts `level <= levelIndexSets_.size()` | level equal to the number of levels passes the guard and reads one past the end of `levelIndexSets_` | `level < levelIndexSets_.size()` | not executed | HierarchyIndexSets.LevelInRangeAsWritten, shown by HierarchyIndexSets.AsWrittenGuardAdmitsPastEnd | HierarchyIndexSets.LevelInRange, with HierarchyIndexSets.LevelGuardCorrected |
| dune/grid/spgrid/partitionpool.hh:119-120 | the overlap piece d gets neighbour `d ^ (1 << i)` on face `2*i + j`, where i numbers the split axes | dimension 2, periodic along axis 1 only, global mesh [0,0]-[4,4], local mesh [0,0]-[4,1], overlap [0,1]. The only split axis is `dir[0] = 1`, but the neighbour is set on face 0 or 1, which belongs to axis 0; faces 2 and 3 do not name the partner piece | face `2*dir[i] + j`, on the split axis itself. The neighbour links of the pieces are then symmetric | not executed | PartitionPools.OverlapPieceAsWritten, shown by PartitionPools.AsWrittenNeighborsNotSymmetric | PartitionPools.OverlapPiece, with PartitionPools.OverlapNeighborsSymmetric |
| dune/grid/spgrid/superentityiterator.hh:188-202 | for an element the only target is the direction 0, so `begin_[dir]` steps by zero, and `end_[dir]` also steps by zero, since no axis is pinned | any element: the begin and the end iterator both stand at the element's id on the same level, so they compare equal, and `for (it = begin; it != end; ++it)` visits nothing, although the begin iterator's chain is not done | dune/grid/spgrid/capabilities.hh:213 advertises super-entity iterators for codimensions 0 to dim, and an element lies in exactly one element, itself. The test in dune/grid/test/checkseiterator.hh:53-56 only walks codimensions 1 to dim | not executed | SuperEntityIterators.CodimZeroBeginEqualsEnd | SuperEntityIterators.CodimZeroVisitsElement, with the walk ended by its chain (`Done`), which SuperEntityIterators.EqualsEndIffDone shows agrees with the comparison for every other codimension |
| dune/grid/spgrid/seiterator.hh:146-157 | the same construction: for an element the begin chain's first step and the end node's offset are both zero | any element: the begin iterator stands at the element and equals the end iterator, although one node is left, so the loop up to the end visits nothing | one super-element, the element itself, as for the super-entity iterator | not executed | SuperElementIterators.CodimZeroBeginEqualsEnd | SuperElementIterators.CodimZeroVisitsElement, with the walk ended on the last node (`Done`), which SuperElementIterators.EqualsEndIffDone shows agrees with the comparison for every other codimension |
