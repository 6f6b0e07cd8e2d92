// SPReferenceCube: numbering of the sub-entities of the reference cube.
//
// A sub-entity of codimension c of the d-dimensional reference cube is
// addressed by an offset from the cube's centre in {-1, 0, 1}^d with exactly
// c nonzero components (the axes it is "pinned" on).  The table is built by
// a recursion on the last axis: first the sub-entities that extend along it
// (offset 0), then those on its lower side (-1), then its upper side (+1).

module ReferenceCubes {
  import opened Bits
  import opened MultiIndices
  import opened Normals

  /** `SPReferenceCubeHelper::numSubEntities(dimension, codim)`. */
  function NumSubEntities(d: nat, c: nat): (n: nat)
    requires c <= d
  {
    if c > 0 then
      (if c < d then NumSubEntities(d - 1, c) else 0) + 2 * NumSubEntities(d - 1, c - 1)
    else 1
  }

  lemma {:induction false} NumSubEntitiesPositive(d: nat, c: nat)
    requires c <= d
    ensures NumSubEntities(d, c) >= 1
  {
    if c > 0 {
      NumSubEntitiesPositive(d - 1, c - 1);
    }
  }

  /** The cube has 2^d corners. */
  lemma {:induction false} NumCorners(d: nat)
    ensures NumSubEntities(d, d) == Pow2(d)
  {
    if d > 0 {
      NumCorners(d - 1);
    }
  }

  /** The cube has 2d faces. */
  lemma {:induction false} NumFaces(d: nat)
    requires d >= 1
    ensures NumSubEntities(d, 1) == 2 * d
  {
    if d > 1 {
      NumFaces(d - 1);
    }
  }

  /** Binomial coefficients by Pascal's rule. */
  function Binomial(d: nat, c: nat): nat
  {
    if c == 0 then 1
    else if d == 0 then 0
    else Binomial(d - 1, c) + Binomial(d - 1, c - 1)
  }

  lemma {:induction false} BinomialAbove(d: nat, c: nat)
    requires c > d
    ensures Binomial(d, c) == 0
  {
    if d > 0 {
      BinomialAbove(d - 1, c);
      BinomialAbove(d - 1, c - 1);
    }
  }

  /** The recurrence counts choose(d, c) choices of pinned axes times 2^c sides. */
  lemma {:induction false} NumSubEntitiesClosedForm(d: nat, c: nat)
    requires c <= d
    ensures NumSubEntities(d, c) == Binomial(d, c) * Pow2(c)
  {
    if c > 0 {
      NumSubEntitiesClosedForm(d - 1, c - 1);
      if c < d {
        NumSubEntitiesClosedForm(d - 1, c);
      } else {
        BinomialAbove(d - 1, c);
      }
      assert Pow2(c) == 2 * Pow2(c - 1);
      Distribute(Binomial(d - 1, c), Binomial(d - 1, c - 1), Pow2(c - 1));
    }
  }

  lemma {:induction false} Distribute(a: int, b: int, p: int)
    ensures a * (2 * p) + 2 * (b * p) == (a + b) * (2 * p)
  {
  }

  // ---------------------------------------------------------------------
  // The sub-entity offsets
  // ---------------------------------------------------------------------

  /** Splits j < 2n into the side j / n in {0, 1} and the remainder j % n. */
  lemma {:induction false} SplitSide(j: int, n: int)
    requires n >= 1 && 0 <= j < 2 * n
    ensures j < n ==> j / n == 0 && j % n == j
    ensures j >= n ==> j / n == 1 && j % n == j - n
  {
    if j < n {
      DivModUnique(j, n, 0, j);
    } else {
      DivModUnique(j, n, 1, j - n);
    }
  }

  /** The value `subId(d, c, i, sId)` leaves in the first d components of sId. */
  function SubIdOf(d: nat, c: nat, i: nat): (s: MultiIndex)
    requires c <= d && i < NumSubEntities(d, c)
    ensures |s| == d
    decreases d
  {
    if d == 0 then []
    else
      var n0 := if c < d then NumSubEntities(d - 1, c) else 0;
      if i < n0 then SubIdOf(d - 1, c, i) + [0]
      else
        var n1 := NumSubEntities(d - 1, c - 1);
        if i - n0 < n1 then SubIdOf(d - 1, c - 1, i - n0) + [-1]
        else SubIdOf(d - 1, c - 1, i - n0 - n1) + [1]
  }

  /** Every component is -1, 0 or 1. */
  predicate IsOffset(v: MultiIndex)
  {
    forall k :: 0 <= k < |v| ==> -1 <= v[k] <= 1
  }

  /** Number of nonzero components. */
  function NonzeroCount(v: MultiIndex): (n: nat)
    ensures n <= |v|
  {
    if |v| == 0 then 0
    else (if v[|v| - 1] != 0 then 1 else 0) + NonzeroCount(v[..|v| - 1])
  }

  /** Every subId(c, i) lies in {-1,0,1}^d and has exactly c nonzero components. */
  lemma {:induction false} SubIdShape(d: nat, c: nat, i: nat)
    requires c <= d && i < NumSubEntities(d, c)
    ensures IsOffset(SubIdOf(d, c, i))
    ensures NonzeroCount(SubIdOf(d, c, i)) == c
  {
    SubIdIsOffset(d, c, i);
    SubIdNonzeroCount(d, c, i);
  }

  /** The last component of SubIdOf(d, c, i) and the entry its front comes from. */
  lemma {:induction false} SubIdLast(d: nat, c: nat, i: nat) returns (c0: nat, i0: nat, last: int)
    requires c <= d && i < NumSubEntities(d, c) && d > 0
    ensures c0 <= d - 1 && i0 < NumSubEntities(d - 1, c0) && -1 <= last <= 1
    ensures c0 == c - (if last != 0 then 1 else 0)
    ensures last != 0 ==> 1 <= c && i == SideIndex(d, c, last == 1, i0)
    ensures last == 0 ==> i == i0
    ensures SubIdOf(d, c, i)[..d - 1] == SubIdOf(d - 1, c0, i0) && SubIdOf(d, c, i)[d - 1] == last
  {
    var n0 := if c < d then NumSubEntities(d - 1, c) else 0;
    if i < n0 {
      SubIdOfCentre(d, c, i);
      c0, i0, last := c, i, 0;
    } else {
      var upper, r := SideOf(d, c, i);
      SubIdOfSide(d, c, upper, r);
      c0, i0, last := c - 1, r, if upper then 1 else -1;
    }
  }

  lemma {:induction false} SubIdIsOffset(d: nat, c: nat, i: nat)
    requires c <= d && i < NumSubEntities(d, c)
    ensures IsOffset(SubIdOf(d, c, i))
  {
    if d > 0 {
      var c0, i0, last := SubIdLast(d, c, i);
      SubIdIsOffset(d - 1, c0, i0);
      LastOffset(SubIdOf(d, c, i));
    }
  }

  lemma {:induction false} SubIdNonzeroCount(d: nat, c: nat, i: nat)
    requires c <= d && i < NumSubEntities(d, c)
    ensures NonzeroCount(SubIdOf(d, c, i)) == c
  {
    if d > 0 {
      var c0, i0, last := SubIdLast(d, c, i);
      SubIdNonzeroCount(d - 1, c0, i0);
    }
  }

  /** A position past the centre block is entry r of the lower or the upper side. */
  lemma {:induction false} SideOf(d: nat, c: nat, i: nat) returns (upper: bool, r: nat)
    requires c <= d && i < NumSubEntities(d, c) && 0 < d
    requires i >= (if c < d then NumSubEntities(d - 1, c) else 0)
    ensures 1 <= c && r < NumSubEntities(d - 1, c - 1) && i == SideIndex(d, c, upper, r)
  {
    var n0 := if c < d then NumSubEntities(d - 1, c) else 0;
    var n1 := NumSubEntities(d - 1, c - 1);
    upper := i - n0 >= n1;
    r := if upper then i - n0 - n1 else i - n0;
  }

  /** A multi-index is an offset when its front is one and its last component is -1, 0 or 1. */
  lemma {:induction false} LastOffset(s: MultiIndex)
    requires |s| > 0 && IsOffset(s[..|s| - 1]) && -1 <= s[|s| - 1] <= 1
    ensures IsOffset(s)
  {
    assert forall k :: 0 <= k < |s| - 1 ==> s[k] == s[..|s| - 1][k];
  }

  /**
   * The position of an offset in the table: the inverse of SubIdOf, used
   * to justify the lookups of the super-entity sequences.
   */
  function IndexOfSubId(v: MultiIndex, c: nat): (i: nat)
    requires IsOffset(v) && NonzeroCount(v) == c
    ensures c <= |v| && i < NumSubEntities(|v|, c)
  {
    if |v| == 0 then 0
    else
      var d := |v|;
      var pre := v[..d - 1];
      assert IsOffset(pre);
      var n0 := if c < d then NumSubEntities(d - 1, c) else 0;
      if v[d - 1] == 0 then IndexOfSubId(pre, c)
      else SideIndex(d, c, v[d - 1] == 1, IndexOfSubId(pre, c - 1))
  }

  /** Unfolds IndexOfSubId at its last component. */
  lemma {:induction false} IndexOfSubIdLast(v: MultiIndex, c: nat) returns (c0: nat, i0: nat)
    requires IsOffset(v) && NonzeroCount(v) == c && |v| > 0
    ensures IsOffset(v[..|v| - 1]) && NonzeroCount(v[..|v| - 1]) == c0
    ensures c0 == c - (if v[|v| - 1] != 0 then 1 else 0) && c0 <= |v| - 1
    ensures v[|v| - 1] != 0 ==> 1 <= c <= |v|
    ensures i0 == IndexOfSubId(v[..|v| - 1], c0) && i0 < NumSubEntities(|v| - 1, c0)
    ensures IndexOfSubId(v, c) == if v[|v| - 1] == 0 then i0 else SideIndex(|v|, c, v[|v| - 1] == 1, i0)
  {
    var pre := v[..|v| - 1];
    assert forall k :: 0 <= k < |pre| ==> pre[k] == v[k];
    c0 := c - (if v[|v| - 1] != 0 then 1 else 0);
    i0 := IndexOfSubId(pre, c0);
  }

  lemma {:induction false} IndexOfSubIdOf(d: nat, c: nat, i: nat)
    requires c <= d && i < NumSubEntities(d, c)
    ensures IsOffset(SubIdOf(d, c, i)) && NonzeroCount(SubIdOf(d, c, i)) == c
    ensures IndexOfSubId(SubIdOf(d, c, i), c) == i
  {
    SubIdShape(d, c, i);
    if d > 0 {
      var s := SubIdOf(d, c, i);
      var c0, i0, last := SubIdLast(d, c, i);
      IndexOfSubIdOf(d - 1, c0, i0);
      var c1, j := IndexOfSubIdLast(s, c);
    }
  }

  lemma {:induction false} SubIdOfIndexOf(v: MultiIndex, c: nat)
    requires IsOffset(v) && NonzeroCount(v) == c
    ensures SubIdOf(|v|, c, IndexOfSubId(v, c)) == v
  {
    if |v| > 0 {
      var c0, i0 := IndexOfSubIdLast(v, c);
      SubIdOfIndexOf(v[..|v| - 1], c0);
      SubIdOfIndexStep(v, c, c0, i0);
    }
  }

  /** The entry at IndexOfSubId(v, c) is v once the entry of its front is the front. */
  lemma {:induction false} SubIdOfIndexStep(v: MultiIndex, c: nat, c0: nat, i0: nat)
    requires IsOffset(v) && NonzeroCount(v) == c && |v| > 0
    requires c0 == c - (if v[|v| - 1] != 0 then 1 else 0) && c0 <= |v| - 1
    requires v[|v| - 1] != 0 ==> 1 <= c <= |v|
    requires i0 < NumSubEntities(|v| - 1, c0) && SubIdOf(|v| - 1, c0, i0) == v[..|v| - 1]
    requires IndexOfSubId(v, c) == if v[|v| - 1] == 0 then i0 else SideIndex(|v|, c, v[|v| - 1] == 1, i0)
    ensures SubIdOf(|v|, c, IndexOfSubId(v, c)) == v
  {
    var d := |v|;
    assert v == v[..d - 1] + [v[d - 1]];
    if v[d - 1] == 0 {
      SubIdOfCentre(d, c, i0);
    } else {
      SubIdOfSide(d, c, v[d - 1] == 1, i0);
    }
  }

  /** Unfolds SubIdOf at a position that extends along the last axis. */
  lemma {:induction false} SubIdOfCentre(d: nat, c: nat, i: nat)
    requires c < d && i < NumSubEntities(d - 1, c)
    ensures i < NumSubEntities(d, c)
    ensures SubIdOf(d, c, i) == SubIdOf(d - 1, c, i) + [0]
  {
  }

  /** Unfolds SubIdOf at a position on the lower or (`upper`) the upper side of the last axis. */
  lemma {:induction false} SubIdOfSide(d: nat, c: nat, upper: bool, r: nat)
    requires 1 <= c <= d && r < NumSubEntities(d - 1, c - 1)
    ensures SideIndex(d, c, upper, r) < NumSubEntities(d, c)
    ensures SubIdOf(d, c, SideIndex(d, c, upper, r)) == SubIdOf(d - 1, c - 1, r) + [if upper then 1 else -1]
  {
  }

  /** The source's division and remainder by the side size pick the side and the entry in it. */
  lemma {:induction false} SideDivMod(d: nat, c: nat, i: nat) returns (r: nat, last: int)
    requires c <= d && i < NumSubEntities(d, c) && 0 < d
    requires i >= (if c < d then NumSubEntities(d - 1, c) else 0)
    ensures ghost var n0 := if c < d then NumSubEntities(d - 1, c) else 0;
      ghost var n1 := NumSubEntities(d - 1, c - 1);
      1 <= c && n1 >= 1 && (i - n0) % n1 == r && 2 * ((i - n0) / n1) - 1 == last
      && r < n1 && SubIdOf(d, c, i) == SubIdOf(d - 1, c - 1, r) + [last]
  {
    var n0 := if c < d then NumSubEntities(d - 1, c) else 0;
    var n1 := NumSubEntities(d - 1, c - 1);
    var upper;
    upper, r := SideOf(d, c, i);
    last := if upper then 1 else -1;
    SplitSide(i - n0, n1);
    SubIdOfSide(d, c, upper, r);
  }

  /** The table position of entry r of the lower or upper side of the last axis. */
  function SideIndex(d: nat, c: nat, upper: bool, r: nat): nat
    requires 1 <= c <= d
  {
    (if c < d then NumSubEntities(d - 1, c) else 0) + (if upper then NumSubEntities(d - 1, c - 1) else 0) + r
  }

  /** Every offset with c nonzero components in {-1,0,1}^d appears in the table. */
  lemma {:induction false} SubIdSurjective(v: MultiIndex, c: nat)
    requires IsOffset(v) && NonzeroCount(v) == c
    ensures c <= |v|
    ensures exists i :: 0 <= i < NumSubEntities(|v|, c) && SubIdOf(|v|, c, i) == v
  {
    SubIdOfIndexOf(v, c);
  }

  /** Distinct positions hold distinct offsets. */
  lemma {:induction false} SubIdInjective(d: nat, c: nat, i: nat, j: nat)
    requires c <= d && i < NumSubEntities(d, c) && j < NumSubEntities(d, c)
    requires SubIdOf(d, c, i) == SubIdOf(d, c, j)
    ensures i == j
  {
    IndexOfSubIdOf(d, c, i);
    IndexOfSubIdOf(d, c, j);
  }

  lemma {:induction false} VertexOffsetIsZero(d: nat)
    ensures SubIdOf(d, 0, 0) == Zeros(d)
  {
    if d > 0 {
      VertexOffsetIsZero(d - 1);
    }
  }

  /** subId(1, face) is the unit normal of that face, as SPNormalId describes it. */
  lemma {:induction false} FaceOffsetIsNormal(d: nat, face: nat)
    requires face < 2 * d
    ensures d >= 1 && NumSubEntities(d, 1) == 2 * d
    ensures SubIdOf(d, 1, face) == AddNormal(Zeros(d), NormalId(face))
  {
    NumFaces(d);
    var n0 := if 1 < d then NumSubEntities(d - 1, 1) else 0;
    if d > 1 {
      NumFaces(d - 1);
    }
    if face < n0 {
      FaceOffsetIsNormal(d - 1, face);
      SubIdOfCentre(d, 1, face);
      NormalOfLowerFace(d, face);
    } else {
      var upper, r := SideOf(d, 1, face);
      SubIdOfSide(d, 1, upper, r);
      VertexOffsetIsZero(d - 1);
      NormalOfLastFace(d, face);
    }
  }

  /** The unit normal of a face of a lower axis ends in 0. */
  lemma {:induction false} NormalOfLowerFace(d: nat, face: nat)
    requires face < 2 * (d - 1) && d >= 1
    ensures AddNormal(Zeros(d), NormalId(face)) == AddNormal(Zeros(d - 1), NormalId(face)) + [0]
  {
  }

  /** The unit normal of a face of the last axis is -1 or 1 there and 0 elsewhere. */
  lemma {:induction false} NormalOfLastFace(d: nat, face: nat)
    requires 2 * (d - 1) <= face < 2 * d && d >= 1
    ensures AddNormal(Zeros(d), NormalId(face)) == Zeros(d - 1) + [if face % 2 == 1 then 1 else -1]
  {
    assert Axis(NormalId(face)) == d - 1;
  }

  /** subId(d, i) is the corner whose coordinate j is bit j of i, shifted to {-1, 1}. */
  lemma {:induction false} CornerOffset(d: nat, i: nat, j: nat)
    requires i < Pow2(d) && j < d
    ensures NumSubEntities(d, d) == Pow2(d)
    ensures SubIdOf(d, d, i)[j] == 2 * Bit(i, j) - 1
  {
    NumCorners(d);
    NumCorners(d - 1);
    var n1 := Pow2(d - 1);
    SplitSide(i, n1);
    var upper, r := SideOf(d, d, i);
    SubIdOfSide(d, d, upper, r);
    assert SubIdOf(d, d, i) == SubIdOf(d - 1, d - 1, i % n1) + [2 * (i / n1) - 1];
    if j == d - 1 {
      BitOfPow2Below(i, d - 1);
    } else {
      LowBitsBit(i, d - 1, j);
      CornerOffset(d - 1, i % n1, j);
    }
  }

  // ---------------------------------------------------------------------
  // The table
  // ---------------------------------------------------------------------

  /** The private `subId(dimension, codim, i, sId)`: fills sId[0 .. d). */
  method SubIdInto(d: nat, c: nat, i: nat, sId: array<int>)
    requires c <= d && i < NumSubEntities(d, c) && d <= sId.Length
    modifies sId
    ensures sId[..d] == SubIdOf(d, c, i)
    ensures forall k :: d <= k < sId.Length ==> sId[k] == old(sId[k])
    decreases d
  {
    if d == 0 {
      return;
    }
    var n0 := if c < d then NumSubEntities(d - 1, c) else 0;
    if i < n0 {
      assert SubIdOf(d, c, i) == SubIdOf(d - 1, c, i) + [0] by {
        SubIdOfCentre(d, c, i);
      }
      SubIdInto(d - 1, c, i, sId);
      ghost var front := sId[..d - 1];
      sId[d - 1] := 0;
      assert sId[..d] == front + [0];
    } else {
      var n1 := NumSubEntities(d - 1, c - 1);
      ghost var r, last := SideDivMod(d, c, i);
      var side := 2 * ((i - n0) / n1) - 1;
      SubIdInto(d - 1, c - 1, (i - n0) % n1, sId);
      ghost var front := sId[..d - 1];
      sId[d - 1] := side;
      assert sId[..d] == front + [last];
    }
  }

  /** The row of codimension c: all sub-entity offsets in table order. */
  function Row(d: nat, c: nat): (row: seq<MultiIndex>)
    requires c <= d
    ensures |row| == NumSubEntities(d, c)
  {
    seq(NumSubEntities(d, c), i requires 0 <= i < NumSubEntities(d, c) => SubIdOf(d, c, i))
  }

  class ReferenceCube {
    const dim: nat
    var subIds: seq<seq<MultiIndex>>

    /** One row per codimension 0 .. dim, each filled from the recursion. */
    ghost predicate Valid()
      reads this
    {
      |subIds| == dim + 1 && forall c :: 0 <= c <= dim ==> subIds[c] == Row(dim, c)
    }

    /** `SPReferenceCube()`: fills every row with the private subId. */
    constructor (dim: nat)
      ensures this.dim == dim && Valid()
    {
      this.dim := dim;
      new;
      var table: seq<seq<MultiIndex>> := [];
      var codim := 0;
      while codim <= dim
        invariant codim <= dim + 1 && |table| == codim
        invariant forall c :: 0 <= c < codim ==> table[c] == Row(dim, c)
      {
        var size := NumSubEntities(dim, codim);
        var row: seq<MultiIndex> := [];
        var i := 0;
        while i < size
          invariant i <= size && |row| == i
          invariant forall k :: 0 <= k < i ==> row[k] == SubIdOf(dim, codim, k)
        {
          var sId := new int[dim];
          SubIdInto(dim, codim, i, sId);
          assert sId[..] == sId[..dim];
          row := row + [sId[..]];
          i := i + 1;
        }
        table := table + [row];
        codim := codim + 1;
      }
      subIds := table;
    }

    /** `count(codim)`. */
    function Count(codim: int): (n: nat)
      reads this
      requires Valid() && 0 <= codim <= dim
      ensures n == NumSubEntities(dim, codim)
    {
      |subIds[codim]|
    }

    /** `subId(codim, i)`. */
    function SubId(codim: int, i: int): (s: MultiIndex)
      reads this
      requires Valid() && 0 <= codim <= dim && 0 <= i < Count(codim)
      ensures s == SubIdOf(dim, codim, i)
      ensures |s| == dim && IsOffset(s) && NonzeroCount(s) == codim
    {
      SubIdShape(dim, codim, i);
      subIds[codim][i]
    }
  }

  /** `corner(i)`: coordinate j is bit j of i. */
  method Corner(dim: nat, i: int) returns (corner: seq<real>)
    requires 0 <= i < Pow2(dim)
    ensures |corner| == dim
    ensures forall j :: 0 <= j < dim ==> corner[j] == Bit(i, j) as real
  {
    corner := [];
    var rest: nat := i;
    var j := 0;
    while j < dim
      invariant j <= dim && |corner| == j
      invariant forall k :: 0 <= k < j ==> corner[k] == Bit(i, k) as real
      invariant rest == Shr(i, j)
    {
      BitOfShr(i, j);
      ShrStep(i, j);
      corner := corner + [(rest % 2) as real];
      rest := rest / 2;
      j := j + 1;
    }
  }

  /** `center()`: every coordinate is 1/2. */
  method Center(dim: nat) returns (center: seq<real>)
    ensures |center| == dim
    ensures forall j :: 0 <= j < dim ==> center[j] == 0.5
  {
    center := [];
    var j := 0;
    while j < dim
      invariant j <= dim && |center| == j
      invariant forall k :: 0 <= k < j ==> center[k] == 0.5
    {
      center := center + [1.0 / 2.0];
      j := j + 1;
    }
  }

  /** The corner in unit coordinates is the corner offset moved from [-1,1] to [0,1]. */
  lemma {:induction false} CornerMatchesOffset(d: nat, i: nat, j: nat)
    requires i < Pow2(d) && j < d
    ensures NumSubEntities(d, d) == Pow2(d)
    ensures Bit(i, j) == (SubIdOf(d, d, i)[j] + 1) / 2
  {
    CornerOffset(d, i, j);
  }
}
