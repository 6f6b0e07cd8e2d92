// SPSuperEntityIterator: the elements containing an entity.
//
// An entity of direction `dir` (bit i set when the entity extends along
// axis i) lies in the elements at offset Offset(dim, dir, d) from it, one
// per direction d with `(d & dir) == 0`: -1 or +1 along every axis the
// entity is pinned on (by bit i of d), 0 along its own axes.  For every
// direction the SequenceProvider prepares a chain of entries, one per such
// d in increasing order and a final sentinel; an entry holds the step from
// the previous target, the number of the entity as a sub-entity of the
// target and the two faces of the domain beyond which the target lies.  The
// C++ chain is a linked list of heap nodes; here it is a sequence, and
// the iterator's `sequence_` pointer is a position in it (one past the end
// for the null pointer).

module SuperEntityIterators {
  import opened Bits
  import opened MultiIndices
  import opened Meshes
  import opened Directions
  import opened ReferenceCubes
  import opened Partitions
  import opened GridLevels
  import opened EntityInfos
  import opened Entities

  // ---------------------------------------------------------------------
  // Targets, offsets and steps
  // ---------------------------------------------------------------------

  /** The directions d < n with `(d & dir) == 0`, in increasing order. */
  function Targets(dir: nat, n: nat): (ts: seq<nat>)
    ensures |ts| <= n
  {
    if n == 0 then [] else Targets(dir, n - 1) + (if Overlaps(n - 1, dir) then [] else [n - 1])
  }

  /** The targets are exactly the directions below n that avoid dir. */
  lemma {:induction false} TargetsExactly(dir: nat, n: nat, d: nat)
    ensures d in Targets(dir, n) <==> d < n && !Overlaps(d, dir)
  {
    if n > 0 {
      TargetsExactly(dir, n - 1, d);
      assert d in Targets(dir, n) <==> d in Targets(dir, n - 1) || (d == n - 1 && !Overlaps(d, dir));
    }
  }

  /** The targets are visited in strictly increasing order. */
  lemma {:induction false} TargetsIncreasing(dir: nat, n: nat)
    ensures forall j, k :: 0 <= j < k < |Targets(dir, n)| ==> Targets(dir, n)[j] < Targets(dir, n)[k]
  {
    if n > 0 {
      TargetsIncreasing(dir, n - 1);
      var ts := Targets(dir, n - 1);
      forall j | 0 <= j < |ts| ensures ts[j] < n - 1 {
        TargetsExactly(dir, n - 1, ts[j]);
      }
    }
  }

  /** The first target is the direction 0: the element below the entity along every pinned axis. */
  lemma {:induction false} TargetsStartAtZero(dir: nat, n: nat)
    requires n > 0
    ensures |Targets(dir, n)| > 0 && Targets(dir, n)[0] == 0
  {
    if n > 1 {
      TargetsStartAtZero(dir, n - 1);
    } else {
      assert Targets(dir, 1) == [0];
    }
  }

  /** The offset from the entity to the element of target d. */
  function Offset(dim: nat, dir: nat, d: nat): (v: MultiIndex)
    ensures |v| == dim
  {
    seq(dim, i requires 0 <= i < dim => OffsetAlong(Bit(dir, i), Bit(d, i)))
  }

  /** `(1 - dirbit) * (2*dbit - 1)`: 0 along the entity, -1 or +1 by dbit across it. */
  function OffsetAlong(dirbit: nat, dbit: nat): int
  {
    if dirbit == 1 then 0 else if dbit == 1 then 1 else -1
  }

  /** The C++ arithmetic of the offset and of the flag of one axis, on bits. */
  lemma AxisArithmetic(dirbit: nat, dbit: nat, p: nat)
    requires dirbit <= 1 && dbit <= 1
    ensures (1 - dirbit) * (2 * dbit - 1) == OffsetAlong(dirbit, dbit)
    ensures (1 - dirbit) * p == if dirbit == 1 then 0 else p
  {
  }

  /** The end node's `idAdd`: 3 along every pinned axis, past every target. */
  function EndAdd(dim: nat, dir: nat): (v: MultiIndex)
    ensures |v| == dim
  {
    seq(dim, i requires 0 <= i < dim => 3 * (1 - Bit(dir, i)))
  }

  /** The boundary flags of target d: face 2i + b when the entity is pinned on axis i and b is bit i of d. */
  function EntryFlags(dim: nat, dir: nat, d: nat): (bs: seq<bool>)
    ensures |bs| == 2 * dim
  {
    seq(2 * dim, f requires 0 <= f < 2 * dim => Bit(dir, f / 2) == 0 && Bit(d, f / 2) == f % 2)
  }

  /** The flags of the two faces of axis i. */
  lemma EntryFlagsOfAxis(dim: nat, dir: nat, d: nat, i: nat)
    requires i < dim
    ensures EntryFlags(dim, dir, d)[2 * i] <==> Bit(dir, i) == 0 && Bit(d, i) == 0
    ensures EntryFlags(dim, dir, d)[2 * i + 1] <==> Bit(dir, i) == 0 && Bit(d, i) == 1
  {
    var bs := EntryFlags(dim, dir, d);
    Halves(i);
    assert bs[2 * i] <==> Bit(dir, (2 * i) / 2) == 0 && Bit(d, (2 * i) / 2) == (2 * i) % 2;
    assert bs[2 * i + 1] <==> Bit(dir, (2 * i + 1) / 2) == 0 && Bit(d, (2 * i + 1) / 2) == (2 * i + 1) % 2;
  }

  /** Faces 2i and 2i + 1 belong to axis i. */
  lemma Halves(i: nat)
    ensures (2 * i) / 2 == i && (2 * i + 1) / 2 == i && (2 * i) % 2 == 0 && (2 * i + 1) % 2 == 1
  {
  }

  /**
   * The p-th position of the walk over the targets ts: the entity itself,
   * then the element of each target, then the end position.
   */
  function Stop(dim: nat, dir: nat, ts: seq<nat>, p: nat): (v: MultiIndex)
    requires p <= |ts| + 1
    ensures |v| == dim
  {
    if p == 0 then Zeros(dim) else if p <= |ts| then Offset(dim, dir, ts[p - 1]) else EndAdd(dim, dir)
  }

  /** The negated offset of a target is a sub-entity offset of the entity's codimension. */
  lemma {:induction false} OffsetShape(dim: nat, dir: nat, d: nat)
    ensures IsOffset(Scale(Offset(dim, dir, d), -1))
    ensures NonzeroCount(Scale(Offset(dim, dir, d), -1)) == dim - LowSum(dir, dim)
  {
    var v := Scale(Offset(dim, dir, d), -1);
    forall k | 0 <= k < dim ensures -1 <= v[k] <= 1 && (v[k] != 0 <==> Bit(dir, k) == 0) {
      assert v[k] == -OffsetAlong(Bit(dir, k), Bit(d, k));
    }
    if dim > 0 {
      assert v[..dim - 1] == Scale(Offset(dim - 1, dir, d), -1);
      OffsetShape(dim - 1, dir, d);
      LowSumSnoc(dir, dim - 1);
    }
  }

  /** The number of the entity among the sub-entities of the element of target d. */
  function IndexFor(dim: nat, dir: nat, d: nat): (k: nat)
    requires dir < Pow2(dim)
    ensures k < NumSubEntities(dim, Directions.Codimension(dim, dir))
    ensures SubIdOf(dim, Directions.Codimension(dim, dir), k) == Scale(Offset(dim, dir, d), -1)
  {
    OffsetShape(dim, dir, d);
    LowSumIsPopCount(dir, dim);
    SubIdOfIndexOf(Scale(Offset(dim, dir, d), -1), Directions.Codimension(dim, dir));
    IndexOfSubId(Scale(Offset(dim, dir, d), -1), Directions.Codimension(dim, dir))
  }

  /** The targets of an entity are elements: all their components are odd. */
  lemma {:induction false} TargetIsElement(id: MultiIndex, d: nat)
    ensures DirectionOf(Add(id, Offset(|id|, DirectionOf(id), d))) == Pow2(|id|) - 1
  {
    var y := Add(id, Offset(|id|, DirectionOf(id), d));
    forall i | 0 <= i < |id| ensures y[i] % 2 == 1 {
      DirectionBits(id, i);
    }
    ElementDirection(y);
  }

  /** The entity is the sub-entity IndexFor(d) of the element of target d. */
  lemma {:induction false} TargetContainsEntity(id: MultiIndex, dir: nat, d: nat)
    requires dir < Pow2(|id|)
    ensures Add(Add(id, Offset(|id|, dir, d)), SubIdOf(|id|, Directions.Codimension(|id|, dir), IndexFor(|id|, dir, d))) == id
  {
    var s := SubIdOf(|id|, Directions.Codimension(|id|, dir), IndexFor(|id|, dir, d));
    assert s == Scale(Offset(|id|, dir, d), -1);
  }

  // ---------------------------------------------------------------------
  // The chain of a direction
  // ---------------------------------------------------------------------

  /** A node `Sequence` without its `next` pointer. */
  datatype Entry = Entry(idAdd: MultiIndex, index: int, fBoundary: nat)

  /** The entry for the j-th of the targets ts: the step from the previous stop to the j-th target. */
  function EntryAt(dim: nat, dir: nat, ts: seq<nat>, j: nat): Entry
    requires dir < Pow2(dim) && j < |ts|
  {
    Entry(Sub(Stop(dim, dir, ts, j + 1), Stop(dim, dir, ts, j)), IndexFor(dim, dir, ts[j]), FromBits(EntryFlags(dim, dir, ts[j])))
  }

  /** The entries for the targets ts. */
  function EntriesFor(dim: nat, dir: nat, ts: seq<nat>): (es: seq<Entry>)
    requires dir < Pow2(dim)
    ensures |es| == |ts|
  {
    seq(|ts|, j requires 0 <= j < |ts| => EntryAt(dim, dir, ts, j))
  }

  /** `end_[dir]`. */
  function EndEntry(dim: nat, dir: nat): Entry
  {
    Entry(EndAdd(dim, dir), -1, 0)
  }

  /** `begin_[dir]`: an entry per target and the former head, which steps on to the end position. */
  function ChainOf(dim: nat, dir: nat): (chain: seq<Entry>)
    requires dir < Pow2(dim)
  {
    var ts := Targets(dir, Pow2(dim));
    EntriesFor(dim, dir, ts) + [Entry(Sub(Stop(dim, dir, ts, |ts| + 1), Stop(dim, dir, ts, |ts|)), -1, 0)]
  }

  /** The stops of the walk along `begin_[dir]`. */
  ghost function StopsOf(dim: nat, dir: nat): seq<MultiIndex>
  {
    var ts := Targets(dir, Pow2(dim));
    seq(|ts| + 2, p requires 0 <= p < |ts| + 2 => Stop(dim, dir, ts, p))
  }

  /** The stops along `end_[dir]`: the entity, then the end position. */
  ghost function EndStops(dim: nat, dir: nat): seq<MultiIndex>
  {
    [Zeros(dim), EndAdd(dim, dir)]
  }

  /** The chain ends in an entry that lies on no face, so that `next` stops there at the latest. */
  ghost predicate Walkable(chain: seq<Entry>)
  {
    0 < |chain| && chain[|chain| - 1].fBoundary == 0
  }

  /** Starting at the entity, entry k steps from stop k to stop k + 1. */
  ghost predicate Telescopes(chain: seq<Entry>, stops: seq<MultiIndex>, dim: nat)
  {
    |stops| == |chain| + 1 && stops[0] == Zeros(dim)
    && (forall p :: 0 <= p < |stops| ==> |stops[p]| == dim)
    && forall k :: 0 <= k < |chain| ==> chain[k].idAdd == Sub(stops[k + 1], stops[k])
  }

  /** `begin_[dir]` walks its stops. */
  lemma ChainTelescopes(dim: nat, dir: nat)
    requires dir < Pow2(dim)
    ensures Walkable(ChainOf(dim, dir)) && Telescopes(ChainOf(dim, dir), StopsOf(dim, dir), dim)
  {
    var ts := Targets(dir, Pow2(dim));
    var chain := ChainOf(dim, dir);
    var stops := StopsOf(dim, dir);
    assert |chain| == |ts| + 1 && |stops| == |ts| + 2;
    assert chain[|ts|].fBoundary == 0;
    assert stops[0] == Zeros(dim);
    forall p | 0 <= p < |stops| ensures |stops[p]| == dim {
      assert stops[p] == Stop(dim, dir, ts, p);
    }
    forall k | 0 <= k < |chain| ensures chain[k].idAdd == Sub(stops[k + 1], stops[k]) {
      ChainStep(dim, dir, k);
    }
  }

  /** Entry k of `begin_[dir]` steps from stop k to stop k + 1. */
  lemma ChainStep(dim: nat, dir: nat, k: nat)
    requires dir < Pow2(dim) && k <= |Targets(dir, Pow2(dim))|
    ensures ChainOf(dim, dir)[k].idAdd == Sub(StopsOf(dim, dir)[k + 1], StopsOf(dim, dir)[k])
  {
    var ts := Targets(dir, Pow2(dim));
    assert StopsOf(dim, dir)[k + 1] == Stop(dim, dir, ts, k + 1);
    assert StopsOf(dim, dir)[k] == Stop(dim, dir, ts, k);
    if k < |ts| {
      ChainEntry(dim, dir, k);
    }
  }

  /** `end_[dir]` walks its stops. */
  lemma EndTelescopes(dim: nat, dir: nat)
    ensures Walkable([EndEntry(dim, dir)]) && Telescopes([EndEntry(dim, dir)], EndStops(dim, dir), dim)
  {
    assert Sub(EndAdd(dim, dir), Zeros(dim)) == EndAdd(dim, dir);
  }

  /** Both chains of a direction end at the same position. */
  lemma ChainMeetsEnd(dim: nat, dir: nat)
    requires dir < Pow2(dim)
    ensures StopsOf(dim, dir)[|ChainOf(dim, dir)|] == EndStops(dim, dir)[1] == EndAdd(dim, dir)
  {
  }

  /**
   * What the walk along `begin_[dir]` visits: at stop j + 1, before the
   * end, the element of the j-th target, of which the entity is the
   * sub-entity given by the entry's index, and which the entry's flags
   * mark as lying beyond the faces of that target.
   */
  lemma {:induction false} ChainVisitsTargets(dim: nat, dir: nat, origin: MultiIndex, j: nat)
    requires dir < Pow2(dim) && |origin| == dim && j < |Targets(dir, Pow2(dim))|
    ensures var ts := Targets(dir, Pow2(dim));
            var y := Add(origin, StopsOf(dim, dir)[j + 1]);
            y == Add(origin, Offset(dim, dir, ts[j]))
            && Add(y, SubIdOf(dim, Directions.Codimension(dim, dir), ChainOf(dim, dir)[j].index)) == origin
            && ChainOf(dim, dir)[j].fBoundary == FromBits(EntryFlags(dim, dir, ts[j]))
  {
    var ts := Targets(dir, Pow2(dim));
    ChainEntry(dim, dir, j);
    assert StopsOf(dim, dir)[j + 1] == Offset(dim, dir, ts[j]);
    TargetContainsEntity(origin, dir, ts[j]);
  }

  /** Entry j of `begin_[dir]`, before the former head, is the entry of the j-th target. */
  lemma ChainEntry(dim: nat, dir: nat, j: nat)
    requires dir < Pow2(dim) && j < |Targets(dir, Pow2(dim))|
    ensures ChainOf(dim, dir)[j] == EntryAt(dim, dir, Targets(dir, Pow2(dim)), j)
  {
    var ts := Targets(dir, Pow2(dim));
    assert ChainOf(dim, dir)[j] == EntriesFor(dim, dir, ts)[j];
  }

  /**
   * An entity of codimension at least one is pinned on some axis, where the
   * end offset is 3 and every earlier stop has -1, 0 or +1: no stop before
   * the last reaches the end position.
   */
  lemma {:induction false} StopsBeforeEndDiffer(dim: nat, dir: nat, p: nat)
    requires dir < Pow2(dim) - 1 && p < |ChainOf(dim, dir)|
    ensures StopsOf(dim, dir)[p] != EndAdd(dim, dir)
  {
    var ts := Targets(dir, Pow2(dim));
    var i := ClearBitBelow(dir, dim);
    assert EndAdd(dim, dir)[i] == 3;
    assert StopsOf(dim, dir)[p] == Stop(dim, dir, ts, p);
    if p == 0 {
      assert Stop(dim, dir, ts, p)[i] == 0;
    } else {
      assert Stop(dim, dir, ts, p)[i] == OffsetAlong(0, Bit(ts[p - 1], i));
    }
  }

  /** An element (every direction bit set) has the single target 0. */
  lemma {:induction false} ElementTargets(dim: nat)
    ensures |Targets(Pow2(dim) - 1, Pow2(dim))| == 1 && Targets(Pow2(dim) - 1, Pow2(dim))[0] == 0
  {
    var dir := Pow2(dim) - 1;
    var ts := Targets(dir, Pow2(dim));
    TargetsStartAtZero(dir, Pow2(dim));
    if |ts| > 1 {
      TargetsIncreasing(dir, Pow2(dim));
      TargetsExactly(dir, Pow2(dim), ts[1]);
      var j := SetBitBelow(ts[1], dim);
      AllOnesBit(dim, j);
      OverlapsAt(ts[1], dir, j);
    }
  }

  /**
   * Along the chain of an element the only entry steps by nothing, lies on
   * no face of the domain and numbers the element as its own sub-entity 0;
   * the end offset is zero as well.
   */
  lemma {:induction false} ElementChainShape(dim: nat)
    ensures var dir := Pow2(dim) - 1;
            && |ChainOf(dim, dir)| == 2
            && StopsOf(dim, dir)[1] == Zeros(dim) && EndAdd(dim, dir) == Zeros(dim)
            && ChainOf(dim, dir)[0].fBoundary == 0 && ChainOf(dim, dir)[0].index == 0
  {
    var dir := Pow2(dim) - 1;
    var ts := Targets(dir, Pow2(dim));
    ElementTargets(dim);
    forall i | 0 <= i < dim ensures Bit(dir, i) == 1 { AllOnesBit(dim, i); }
    assert Offset(dim, dir, 0) == Zeros(dim);
    assert StopsOf(dim, dir)[1] == Stop(dim, dir, ts, 1);
    assert EndAdd(dim, dir) == Zeros(dim);
    var flags := EntryFlags(dim, dir, 0);
    forall f | 0 <= f < 2 * dim ensures !flags[f] { assert Bit(dir, f / 2) == 1; }
    if FromBits(flags) != 0 {
      var f := SetBitBelow(FromBits(flags), 2 * dim);
      FromBitsBit(flags, f);
    }
    ChainEntry(dim, dir, 0);
    AllOnesPopCount(dim);
    assert NumSubEntities(dim, Directions.Codimension(dim, dir)) == 1;
  }

  /**
   * A two-entry chain whose first entry lies on no face: `next` keeps that
   * entry, whatever faces the entity lies on, and then runs off the chain.
   */
  lemma {:induction false} KeepsFirst(chain: seq<Entry>, fBoundary: nat)
    requires Walkable(chain) && |chain| == 2 && chain[0].fBoundary == 0
    ensures NextStop(chain, fBoundary, 0) == 1 && NextStop(chain, fBoundary, 1) == 2
  {
    assert !Overlaps(fBoundary, chain[0].fBoundary);
    assert !Overlaps(fBoundary, chain[1].fBoundary);
  }

  /**
   * The walk of an element, from the first `next` on: it stops at the
   * element itself, numbered 0, and the next step runs off the chain; the
   * end chain of an element stays at the element too.
   */
  lemma {:induction false} ElementWalk(dim: nat, chain: seq<Entry>, stops: seq<MultiIndex>, fBoundary: nat, pos: nat)
    requires chain == ChainOf(dim, Pow2(dim) - 1) && stops == StopsOf(dim, Pow2(dim) - 1)
    requires Walkable(chain) && pos == NextStop(chain, fBoundary, 0)
    ensures pos == 1 && |chain| == 2 && |stops| == 3 && stops[1] == Zeros(dim) && chain[0].index == 0
    ensures NextStop(chain, fBoundary, 1) == 2
    ensures EndStops(dim, Pow2(dim) - 1) == [Zeros(dim), Zeros(dim)]
  {
    ElementChainShape(dim);
    KeepsFirst(chain, fBoundary);
  }

  /** Adding the zero offset keeps an id. */
  lemma AddZeros(id: MultiIndex)
    ensures Add(id, Zeros(|id|)) == id
  {
  }

  // ---------------------------------------------------------------------
  // Boundary flags
  // ---------------------------------------------------------------------

  /** The id lies in the closed domain of the global mesh, [2 begin, 2 end]. */
  predicate InDomain(id: MultiIndex, global: Mesh)
    requires |id| == |global.begin| == |global.end|
  {
    forall i :: 0 <= i < |id| ==> 2 * global.begin[i] <= id[i] <= 2 * global.end[i]
  }

  /** Along axis i, the target leaves the domain exactly when the entity lies on the face that face 2i + bit i of d names. */
  lemma AxisOutside(id: MultiIndex, global: Mesh, dir: nat, d: nat, i: nat)
    requires |id| == |global.begin| == |global.end| && i < |id| && 2 * global.begin[i] <= id[i] <= 2 * global.end[i]
    ensures Bit(d, i) == 0 ==>
              (!(2 * global.begin[i] <= Add(id, Offset(|id|, dir, d))[i] <= 2 * global.end[i])
               <==> BoundaryBits(id, id, global)[2 * i] && EntryFlags(|id|, dir, d)[2 * i])
    ensures Bit(d, i) == 1 ==>
              (!(2 * global.begin[i] <= Add(id, Offset(|id|, dir, d))[i] <= 2 * global.end[i])
               <==> BoundaryBits(id, id, global)[2 * i + 1] && EntryFlags(|id|, dir, d)[2 * i + 1])
  {
    var y := Add(id, Offset(|id|, dir, d));
    var lo, hi := 2 * global.begin[i], 2 * global.end[i];
    var mine, theirs := BoundaryBits(id, id, global), EntryFlags(|id|, dir, d);
    BoundaryBitsOfAxis(id, id, global, i);
    EntryFlagsOfAxis(|id|, dir, d, i);
    assert y[i] == id[i] + OffsetAlong(Bit(dir, i), Bit(d, i));
    if Bit(d, i) == 0 {
      assert !theirs[2 * i] <==> Bit(dir, i) == 1;
      assert mine[2 * i] <==> id[i] == lo;
      if Bit(dir, i) == 1 {
        assert y[i] == id[i];
      } else {
        assert y[i] == id[i] - 1;
      }
      assert !(lo <= y[i] <= hi) <==> mine[2 * i] && theirs[2 * i];
    } else {
      assert !theirs[2 * i + 1] <==> Bit(dir, i) == 1;
      assert mine[2 * i + 1] <==> id[i] == hi;
      if Bit(dir, i) == 1 {
        assert y[i] == id[i];
      } else {
        assert y[i] == id[i] + 1;
      }
      assert !(lo <= y[i] <= hi) <==> mine[2 * i + 1] && theirs[2 * i + 1];
    }
  }

  /**
   * `(fBoundary_ & fBoundary) != 0`: for an entity inside the domain, the
   * entry of target d is skipped exactly when the target's element lies
   * outside the domain.
   */
  lemma {:induction false} SkipIffOutside(id: MultiIndex, global: Mesh, dir: nat, d: nat)
    requires |id| == |global.begin| == |global.end| && InDomain(id, global)
    ensures Overlaps(FromBits(BoundaryBits(id, id, global)), FromBits(EntryFlags(|id|, dir, d)))
            <==> !InDomain(Add(id, Offset(|id|, dir, d)), global)
  {
    var dim := |id|;
    var mine := BoundaryBits(id, id, global);
    var theirs := EntryFlags(dim, dir, d);
    var y := Add(id, Offset(dim, dir, d));
    if Overlaps(FromBits(mine), FromBits(theirs)) {
      var f := OverlapsWitness(FromBits(mine), FromBits(theirs));
      FromBitsBit(mine, f);
      FromBitsBit(theirs, f);
      var i := f / 2;
      Halves(i);
      assert f == 2 * i || f == 2 * i + 1;
      EntryFlagsOfAxis(dim, dir, d, i);
      AxisOutside(id, global, dir, d, i);
      if f == 2 * i {
        assert Bit(d, i) == 0;
      } else {
        assert Bit(d, i) == 1;
      }
    }
    if !InDomain(y, global) {
      var i :| 0 <= i < dim && !(2 * global.begin[i] <= y[i] <= 2 * global.end[i]);
      var f := if Bit(d, i) == 0 then 2 * i else 2 * i + 1;
      AxisOutside(id, global, dir, d, i);
      FromBitsBit(mine, f);
      FromBitsBit(theirs, f);
      OverlapsAt(FromBits(mine), FromBits(theirs), f);
    }
  }

  /** `fBoundary |= (1 - dirbit) * (1 << (2*i + dbit))` extends the flags by the two faces of axis i. */
  lemma {:induction false} FlagStep(x: nat, bs: seq<bool>, i: nat, dirbit: nat, dbit: nat)
    requires 2 * i + 1 < |bs| && x < Pow2(2 * i) && BitsAre(x, bs, 2 * i) && dirbit <= 1 && dbit <= 1
    requires bs[2 * i] == (dirbit == 0 && dbit == 0) && bs[2 * i + 1] == (dirbit == 0 && dbit == 1)
    ensures Or(x, if dirbit == 1 then 0 else Pow2(2 * i + dbit)) < Pow2(2 * i + 2)
    ensures BitsAre(Or(x, if dirbit == 1 then 0 else Pow2(2 * i + dbit)), bs, 2 * i + 2)
  {
    BitsAreStep(x, bs, 2 * i);
    if dirbit == 0 && dbit == 0 {
      var y := Or(x, Pow2(2 * i));
      assert Pow2(2 * i) * 1 == Pow2(2 * i);
      BitsAreStep(y, bs, 2 * i + 1);
      assert Pow2(2 * i + 1) * 0 == 0;
      assert Or(y, 0) == y;
    } else {
      assert Pow2(2 * i) * 0 == 0;
      assert Or(x, 0) == x;
      BitsAreStep(x, bs, 2 * i + 1);
      if dirbit == 0 {
        assert Pow2(2 * i + 1) * 1 == Pow2(2 * i + 1);
      } else {
        assert Pow2(2 * i + 1) * 0 == 0;
      }
    }
  }

  // ---------------------------------------------------------------------
  // The provider's loops
  // ---------------------------------------------------------------------

  /** The loop over the axes: the offset of target d and its boundary flags. */
  method TargetEntry(dim: nat, dir: nat, d: nat) returns (idAdd: MultiIndex, fBoundary: nat)
    ensures idAdd == Offset(dim, dir, d) && fBoundary == FromBits(EntryFlags(dim, dir, d))
  {
    ghost var flags := EntryFlags(dim, dir, d);
    idAdd := [];
    fBoundary := 0;
    var i := 0;
    while i < dim
      invariant i <= dim && |idAdd| == i
      invariant forall k :: 0 <= k < i ==> idAdd[k] == OffsetAlong(Bit(dir, k), Bit(d, k))
      invariant fBoundary < Pow2(2 * i) && BitsAre(fBoundary, flags, 2 * i)
    {
      EntryFlagsOfAxis(dim, dir, d, i);
      ghost var before := idAdd;
      idAdd, fBoundary := AxisEntry(dir, d, i, idAdd, fBoundary, flags);
      assert forall k :: 0 <= k < i ==> idAdd[k] == before[k];
      i := i + 1;
    }
    assert idAdd == Offset(dim, dir, d);
    BitsAreFromBits(fBoundary, flags);
  }

  /** One pass of that loop: `idAdd[i] = (1 - dirbit) * (2 * dbit - 1)`, then `fBoundary |= (1 - dirbit) * (1 << (2*i + dbit))`. */
  method AxisEntry(dir: nat, d: nat, i: nat, idAdd: MultiIndex, fBoundary: nat, ghost flags: seq<bool>)
    returns (idAdd': MultiIndex, fBoundary': nat)
    requires 2 * i + 1 < |flags| && fBoundary < Pow2(2 * i) && BitsAre(fBoundary, flags, 2 * i)
    requires flags[2 * i] == (Bit(dir, i) == 0 && Bit(d, i) == 0)
    requires flags[2 * i + 1] == (Bit(dir, i) == 0 && Bit(d, i) == 1)
    ensures idAdd' == idAdd + [OffsetAlong(Bit(dir, i), Bit(d, i))]
    ensures fBoundary' < Pow2(2 * (i + 1)) && BitsAre(fBoundary', flags, 2 * (i + 1))
  {
    var dirbit := Bit(dir, i);
    var dbit := Bit(d, i);
    AxisArithmetic(dirbit, dbit, Pow2(2 * i + dbit));
    idAdd' := idAdd + [(1 - dirbit) * (2 * dbit - 1)];
    FlagStep(fBoundary, flags, i, dirbit, dbit);
    fBoundary' := Or(fBoundary, (1 - dirbit) * Pow2(2 * i + dbit));
    assert 2 * (i + 1) == 2 * i + 2;
  }

  /** The inner loop `found &= (idAdd[i] == -subId[i])`. */
  method NegatedEqual(idAdd: MultiIndex, subId: MultiIndex) returns (found: bool)
    requires |idAdd| == |subId|
    ensures found <==> subId == Scale(idAdd, -1)
  {
    found := true;
    var i := 0;
    while i < |idAdd|
      invariant i <= |idAdd|
      invariant found <==> forall k :: 0 <= k < i ==> idAdd[k] == -subId[k]
    {
      found := found && idAdd[i] == -subId[i];
      i := i + 1;
    }
    if found {
      assert forall k :: 0 <= k < |subId| ==> subId[k] == Scale(idAdd, -1)[k];
    }
  }

  /** A sub-entity number k has the offset v exactly when it is the number IndexOfSubId gives v. */
  lemma {:induction false} SubIdMatches(d: nat, c: nat, k: nat, v: MultiIndex)
    requires c <= d && k < NumSubEntities(d, c) && |v| == d && IsOffset(v) && NonzeroCount(v) == c
    ensures SubIdOf(d, c, k) == v <==> k == IndexOfSubId(v, c)
  {
    IndexOfSubIdOf(d, c, k);
    SubIdOfIndexOf(v, c);
  }

  /** The loop over the sub-entities: the last k of codimension codim whose subId is -idAdd, which exists. */
  method FindIndex(refCube: ReferenceCube, codim: nat, idAdd: MultiIndex) returns (index: int)
    requires refCube.Valid() && codim <= refCube.dim && |idAdd| == refCube.dim
    requires IsOffset(Scale(idAdd, -1)) && NonzeroCount(Scale(idAdd, -1)) == codim
    ensures 0 <= index < NumSubEntities(refCube.dim, codim)
    ensures SubIdOf(refCube.dim, codim, index) == Scale(idAdd, -1)
  {
    ghost var v := Scale(idAdd, -1);
    ghost var target := IndexOfSubId(v, codim);
    SubIdOfIndexOf(v, codim);
    index := -1;
    var k := 0;
    while k < refCube.Count(codim)
      invariant k <= NumSubEntities(refCube.dim, codim)
      invariant index == if target < k then target else -1
    {
      var subId := refCube.SubId(codim, k);
      var found := NegatedEqual(idAdd, subId);
      SubIdMatches(refCube.dim, codim, k, v);
      if found {
        index := k;
      }
      k := k + 1;
    }
  }

  /** The targets below d + 1. */
  lemma TargetsSnoc(dir: nat, d: nat)
    ensures Targets(dir, d + 1) == Targets(dir, d) + (if Overlaps(d, dir) then [] else [d])
  {
  }

  /** The entries of a longer list of targets extend those of the shorter. */
  lemma {:induction false} EntriesSnoc(dim: nat, dir: nat, ts: seq<nat>, d: nat)
    requires dir < Pow2(dim)
    ensures EntriesFor(dim, dir, ts + [d]) == EntriesFor(dim, dir, ts) + [EntryAt(dim, dir, ts + [d], |ts|)]
  {
    var us := ts + [d];
    var longer, shorter := EntriesFor(dim, dir, us), EntriesFor(dim, dir, ts) + [EntryAt(dim, dir, us, |ts|)];
    assert |longer| == |shorter| == |us|;
    forall j | 0 <= j < |us| ensures longer[j] == shorter[j] {
      EntriesSnocAt(dim, dir, ts, d, j);
    }
  }

  /** Position j of both sides of EntriesSnoc. */
  lemma EntriesSnocAt(dim: nat, dir: nat, ts: seq<nat>, d: nat, j: nat)
    requires dir < Pow2(dim) && j <= |ts|
    ensures EntriesFor(dim, dir, ts + [d])[j] == (EntriesFor(dim, dir, ts) + [EntryAt(dim, dir, ts + [d], |ts|)])[j]
  {
    EntriesForAt(dim, dir, ts + [d], j);
    if j < |ts| {
      EntriesForAt(dim, dir, ts, j);
      EntryAtSnoc(dim, dir, ts, d, j);
    }
  }

  /** Position j of EntriesFor. */
  lemma EntriesForAt(dim: nat, dir: nat, ts: seq<nat>, j: nat)
    requires dir < Pow2(dim) && j < |ts|
    ensures EntriesFor(dim, dir, ts)[j] == EntryAt(dim, dir, ts, j)
  {
  }

  /** A target appended after the j-th leaves the j-th entry as it was. */
  lemma EntryAtSnoc(dim: nat, dir: nat, ts: seq<nat>, d: nat, j: nat)
    requires dir < Pow2(dim) && j < |ts|
    ensures EntryAt(dim, dir, ts + [d], j) == EntryAt(dim, dir, ts, j)
  {
    var us := ts + [d];
    assert us[j] == ts[j];
    assert Stop(dim, dir, us, j + 1) == Stop(dim, dir, ts, j + 1);
    assert Stop(dim, dir, us, j) == Stop(dim, dir, ts, j);
  }

  /** The loop over the directions d of `begin_[dir]`: the entries of the targets and the running `head->idAdd`. */
  method BuildEntries(refCube: ReferenceCube, dir: nat) returns (entries: seq<Entry>, head: MultiIndex)
    requires refCube.Valid() && dir < Pow2(refCube.dim)
    ensures var ts := Targets(dir, Pow2(refCube.dim));
            entries == EntriesFor(refCube.dim, dir, ts) && head == Stop(refCube.dim, dir, ts, |ts|)
  {
    var dim := refCube.dim;
    head := Zeros(dim);
    entries := [];
    ghost var ts: seq<nat> := [];
    var d := 0;
    while d < Pow2(dim)
      invariant d <= Pow2(dim) && ts == Targets(dir, d)
      invariant entries == EntriesFor(dim, dir, ts) && head == Stop(dim, dir, ts, |ts|)
    {
      TargetsSnoc(dir, d);
      if !Overlaps(d, dir) {
        entries, head := AddTarget(refCube, dir, ts, entries, head, d);
        ts := ts + [d];
      }
      d := d + 1;
    }
    assert d == Pow2(dim);
  }

  /** One pass of that loop on a target d: the entry whose `idAdd` steps from the head to d, then the head moves to d. */
  method AddTarget(refCube: ReferenceCube, dir: nat, ghost ts: seq<nat>, entries: seq<Entry>, head: MultiIndex, d: nat)
    returns (entries': seq<Entry>, head': MultiIndex)
    requires refCube.Valid() && dir < Pow2(refCube.dim)
    requires entries == EntriesFor(refCube.dim, dir, ts) && head == Stop(refCube.dim, dir, ts, |ts|)
    ensures entries' == EntriesFor(refCube.dim, dir, ts + [d]) && head' == Stop(refCube.dim, dir, ts + [d], |ts| + 1)
  {
    var dim := refCube.dim;
    var codim := Directions.Codimension(dim, dir);
    LowSumIsPopCount(dir, dim);
    var idAdd, fBoundary := TargetEntry(dim, dir, d);
    OffsetShape(dim, dir, d);
    var index := FindIndex(refCube, codim, idAdd);
    SubIdMatches(dim, codim, index, Scale(idAdd, -1));
    EntriesSnoc(dim, dir, ts, d);
    idAdd := Sub(idAdd, head);
    head' := Add(head, idAdd);
    assert head' == Offset(dim, dir, d);
    entries' := entries + [Entry(idAdd, index, fBoundary)];
  }

  /** The loop `end->idAdd[i] = 3 * (1 - dirbit)`. */
  method EndStep(dim: nat, dir: nat) returns (endAdd: MultiIndex)
    ensures endAdd == EndAdd(dim, dir)
  {
    endAdd := [];
    var i := 0;
    while i < dim
      invariant i <= dim && |endAdd| == i
      invariant forall k :: 0 <= k < i ==> endAdd[k] == 3 * (1 - Bit(dir, k))
    {
      endAdd := endAdd + [3 * (1 - Bit(dir, i))];
      i := i + 1;
    }
  }

  /** One direction of the provider's constructor: `begin_[dir]` and `end_[dir]`. */
  method BuildSequence(refCube: ReferenceCube, dir: nat) returns (begin: seq<Entry>, end: Entry)
    requires refCube.Valid() && dir < Pow2(refCube.dim)
    ensures begin == ChainOf(refCube.dim, dir) && end == EndEntry(refCube.dim, dir)
  {
    ghost var ts := Targets(dir, Pow2(refCube.dim));
    var entries, head := BuildEntries(refCube, dir);
    var endAdd := EndStep(refCube.dim, dir);
    end := Entry(endAdd, -1, 0);
    var last := Scale(Sub(head, endAdd), -1);
    assert last == Sub(Stop(refCube.dim, dir, ts, |ts| + 1), Stop(refCube.dim, dir, ts, |ts|));
    begin := entries + [Entry(last, end.index, end.fBoundary)];
  }

  /** The singleton `SequenceProvider`: the chains of every direction. */
  class SequenceProvider {
    const dim: nat
    /** `begin_`. */
    var begins: seq<seq<Entry>>
    /** `end_`. */
    var ends: seq<Entry>

    ghost predicate Valid()
      reads this
    {
      |begins| == Pow2(dim) && |ends| == Pow2(dim)
      && forall dir :: 0 <= dir < Pow2(dim) ==> begins[dir] == ChainOf(dim, dir) && ends[dir] == EndEntry(dim, dir)
    }

    /** `SequenceProvider()`: the loop over all directions. */
    constructor (dim: nat)
      ensures this.dim == dim && Valid()
    {
      this.dim := dim;
      var refCube := new ReferenceCube(dim);
      var bs: seq<seq<Entry>> := [];
      var es: seq<Entry> := [];
      var dir := 0;
      while dir < Pow2(dim)
        invariant dir <= Pow2(dim) && |bs| == dir && |es| == dir && refCube.Valid() && refCube.dim == dim
        invariant forall k :: 0 <= k < dir ==> bs[k] == ChainOf(dim, k) && es[k] == EndEntry(dim, k)
      {
        var b, e := BuildSequence(refCube, dir);
        bs := bs + [b];
        es := es + [e];
        dir := dir + 1;
      }
      begins := bs;
      ends := es;
    }

    /** `sequence(direction, Begin())` and `sequence(direction, End())`, which assert the direction's range. */
    function Sequence(direction: nat, atEnd: bool): (chain: seq<Entry>)
      reads this
      requires Valid() && direction < Pow2(dim)
      ensures chain == if atEnd then [EndEntry(dim, direction)] else ChainOf(dim, direction)
      ensures Walkable(chain) && Telescopes(chain, StopsFor(dim, direction, atEnd), dim)
    {
      SequenceTelescopes(dim, direction, atEnd);
      if atEnd then [ends[direction]] else begins[direction]
    }
  }

  /** The stops the chain `sequence(direction, be)` walks. */
  ghost function StopsFor(dim: nat, direction: nat, atEnd: bool): seq<MultiIndex>
  {
    if atEnd then EndStops(dim, direction) else StopsOf(dim, direction)
  }

  /** Both chains of a direction walk their stops. */
  lemma SequenceTelescopes(dim: nat, direction: nat, atEnd: bool)
    requires direction < Pow2(dim)
    ensures var chain := if atEnd then [EndEntry(dim, direction)] else ChainOf(dim, direction);
            Walkable(chain) && Telescopes(chain, StopsFor(dim, direction, atEnd), dim)
  {
    if atEnd { EndTelescopes(dim, direction); } else { ChainTelescopes(dim, direction); }
  }

  // ---------------------------------------------------------------------
  // The iterator
  // ---------------------------------------------------------------------

  /** The first entry from `from` on whose faces the entity does not lie: where `next` stops. */
  function FirstKept(chain: seq<Entry>, fBoundary: nat, from: nat): (j: nat)
    requires from < |chain| && chain[|chain| - 1].fBoundary == 0
    ensures from <= j < |chain| && !Overlaps(fBoundary, chain[j].fBoundary)
    ensures forall k :: from <= k < j ==> Overlaps(fBoundary, chain[k].fBoundary)
    decreases |chain| - from
  {
    if !Overlaps(fBoundary, chain[from].fBoundary) then from else FirstKept(chain, fBoundary, from + 1)
  }

  /** The position after `next` from entry `from`: one past the first kept entry. */
  ghost function NextStop(chain: seq<Entry>, fBoundary: nat, from: nat): (p: nat)
    requires Walkable(chain) && from < |chain|
    ensures from < p <= |chain|
  {
    FirstKept(chain, fBoundary, from) + 1
  }

  /** One step of `id += sequence_->idAdd` along the stops. */
  lemma StepLands(origin: MultiIndex, a: MultiIndex, b: MultiIndex)
    requires |origin| == |a| == |b|
    ensures Add(Add(origin, a), Sub(b, a)) == Add(origin, b)
  {
  }

  /** The constructor's loop: the flags of the faces of the domain that the entity `id` lies on. */
  method EntityBoundary(id: MultiIndex, global: Mesh) returns (fBoundary: nat)
    requires |id| == |global.begin| == |global.end|
    ensures fBoundary == FromBits(BoundaryBits(id, id, global))
  {
    var boundary: nat := 0;
    var i := 0;
    while i < |id|
      invariant i <= |id|
      invariant boundary < Pow2(2 * i) && BitsAre(boundary, BoundaryBits(id, id, global), 2 * i)
    {
      boundary := SetBoundaryFlags(boundary, id, id, global, i);
      i := i + 1;
    }
    BitsAreFromBits(boundary, BoundaryBits(id, id, global));
    fBoundary := boundary;
  }

  class SuperEntityIterator {
    const dim: nat
    /** The entity info of the element the iterator points to (an entity pointer of codimension 0). */
    const info: EntityInfo
    /** The chain `sequence_` walks; `sequence_` is chain[pos], null once pos == |chain|. */
    const chain: seq<Entry>
    var pos: nat
    /** `index_`: the entity's number within the current element. */
    var index: int
    /** `fBoundary_`: the faces of the domain the entity lies on. */
    const fBoundary: nat
    /** The id of the entity whose elements are visited. */
    ghost const origin: MultiIndex
    /** The positions, relative to the origin, the chain steps through. */
    ghost const stops: seq<MultiIndex>

    /** The id stands at the origin plus the stop of the current position. */
    ghost predicate Valid()
      reads this, info
    {
      info.dim == dim && info.codim == 0 && info.Shaped() && info.gridLevel != null
      && |origin| == dim && Walkable(chain) && Telescopes(chain, stops, dim) && pos <= |chain|
      && info.id == Add(origin, stops[pos])
    }

    /** The C++ constructor: the boundary flags of the entity, then `next`, then `update(partitionNumber)`. */
    constructor (entity: Entity, provider: SequenceProvider, atEnd: bool)
      requires provider.Valid() && entity.info.Shaped() && entity.info.gridLevel != null
      requires entity.info.dim == provider.dim && entity.info.direction < Pow2(provider.dim)
      requires ValidMesh(provider.dim, entity.info.gridLevel.globalMesh)
      requires var chain := provider.Sequence(entity.info.direction, atEnd);
               var n := NextStop(chain, FromBits(BoundaryBits(entity.info.id, entity.info.id, entity.info.gridLevel.globalMesh)), 0);
               n < |chain| ==> Placeable(entity.info.gridLevel, 0,
                                 Add(entity.info.id, StopsFor(provider.dim, entity.info.direction, atEnd)[n]), entity.info.partitionNumber)
      ensures Valid() && chain == old(provider.Sequence(entity.info.direction, atEnd)) && origin == old(entity.info.id)
      ensures stops == StopsFor(provider.dim, old(entity.info.direction), atEnd)
      ensures fBoundary == FromBits(BoundaryBits(origin, origin, old(entity.info.gridLevel).globalMesh))
      ensures info.gridLevel == old(entity.info.gridLevel)
      ensures pos == NextStop(chain, fBoundary, 0) && index == chain[pos - 1].index
      ensures pos < |chain| ==> info.partitionNumber == old(entity.info.partitionNumber) && info.direction == DirectionOf(info.id)
      ensures pos == |chain| ==> info.partitionNumber == MaxUnsigned
    {
      var l := entity.info.gridLevel;
      var global := l.globalMesh;
      var id := entity.info.id;
      ghost var number := entity.info.partitionNumber;
      dim := provider.dim;
      chain := provider.Sequence(entity.info.direction, atEnd);
      stops := StopsFor(provider.dim, entity.info.direction, atEnd);
      var base := new EntityInfo.OnLevel(l, 0);
      base.id := id;
      info := base;
      origin := id;
      var boundary := EntityBoundary(id, global);
      fBoundary := boundary;
      pos := 0;
      index := -1;
      new;
      assert Add(id, Zeros(dim)) == id;
      assert NextStop(chain, fBoundary, 0) < |chain| ==>
               Placeable(l, 0, Add(id, stops[NextStop(chain, fBoundary, 0)]), number);
      Start(entity.info.partitionNumber);
    }

    /** The end of the constructor: `next`, then `update(partitionNumber)` when an element was found. */
    method Start(number: nat)
      requires Valid() && pos == 0
      requires NextStop(chain, fBoundary, 0) < |chain| ==>
                 Placeable(info.gridLevel, 0, Add(origin, stops[NextStop(chain, fBoundary, 0)]), number)
      modifies this, info
      ensures Valid() && pos == NextStop(chain, fBoundary, 0) && index == chain[pos - 1].index
      ensures info.gridLevel == old(info.gridLevel)
      ensures pos < |chain| ==> info.partitionNumber == number && info.direction == DirectionOf(info.id)
      ensures pos == |chain| ==> info.partitionNumber == old(info.partitionNumber)
    {
      ghost var l, target := info.gridLevel, Add(origin, stops[NextStop(chain, fBoundary, 0)]);
      var more := Next();
      assert more ==> Placeable(l, 0, target, number);
      LandNumber(more, number);
    }

    /** `update(number)` when `more`, at an element the caller knows to be placeable with that number. */
    method LandNumber(more: bool, number: nat)
      requires Valid() && (more ==> Placeable(info.gridLevel, 0, info.id, number))
      modifies info
      ensures Valid() && info.gridLevel == old(info.gridLevel) && info.id == old(info.id)
      ensures more ==> info.partitionNumber == number && info.direction == DirectionOf(info.id)
      ensures !more ==> info.partitionNumber == old(info.partitionNumber)
    {
      if more {
        info.UpdateNumber(number);
      }
    }

    /** `next(id)`: step until an entry whose element lies in the domain; false when the chain is done. */
    method Next() returns (more: bool)
      requires Valid() && pos < |chain|
      modifies this, info
      ensures Valid() && pos == NextStop(chain, fBoundary, old(pos)) && index == chain[pos - 1].index
      ensures more <==> pos < |chain|
      ensures info.gridLevel == old(info.gridLevel) && info.partitionNumber == old(info.partitionNumber)
      ensures info.direction == old(info.direction)
    {
      ghost var from := pos;
      var skip := true;
      while skip
        invariant Valid() && from <= pos <= |chain|
        invariant info.gridLevel == old(info.gridLevel) && info.partitionNumber == old(info.partitionNumber)
        invariant info.direction == old(info.direction)
        invariant skip ==> pos <= FirstKept(chain, fBoundary, from)
        invariant !skip ==> pos == FirstKept(chain, fBoundary, from) + 1 && index == chain[pos - 1].index
        decreases |chain| - pos
      {
        StepLands(origin, stops[pos], stops[pos + 1]);
        info.id := Add(info.id, chain[pos].idAdd);
        index := chain[pos].index;
        skip := Overlaps(fBoundary, chain[pos].fBoundary);
        pos := pos + 1;
      }
      more := pos < |chain|;
    }

    /** `increment()`: `next`, then `update()` when an element was found. */
    method Increment()
      requires Valid() && pos < |chain|
      requires NextStop(chain, fBoundary, pos) < |chain| ==>
                 Placeable(info.gridLevel, 0, Add(origin, stops[NextStop(chain, fBoundary, pos)]), info.partitionNumber)
      modifies this, info
      ensures Valid() && pos == NextStop(chain, fBoundary, old(pos)) && index == chain[pos - 1].index
      ensures info.gridLevel == old(info.gridLevel) && info.partitionNumber == old(info.partitionNumber)
      ensures pos < |chain| ==> info.direction == DirectionOf(info.id)
    {
      ghost var n := info.partitionNumber;
      ghost var l, target := info.gridLevel, Add(origin, stops[NextStop(chain, fBoundary, pos)]);
      var more := Next();
      assert more ==> Placeable(l, 0, target, n);
      Land(more);
    }

    /** `update()` when `more`, at an element the caller knows to be placeable. */
    method Land(more: bool)
      requires Valid() && (more ==> Placeable(info.gridLevel, 0, info.id, info.partitionNumber))
      modifies info
      ensures Valid() && (more ==> info.direction == DirectionOf(info.id))
      ensures info.gridLevel == old(info.gridLevel) && info.id == old(info.id) && info.partitionNumber == old(info.partitionNumber)
    {
      if more {
        info.Update();
      }
    }

    /** `index()`. */
    function Index(): (k: int)
      reads this
      ensures k == index
    {
      index
    }

    /** `equals(other)` of the entity pointer: the same grid level, by identity, and the same id. */
    predicate Equals(other: SuperEntityIterator)
      reads info, other.info
      requires info.gridLevel != null && other.info.gridLevel != null
    {
      info.Equals(other.info)
    }

    /** `sequence_` is null: `next` has stepped past the last entry. */
    predicate Done()
      reads this
    {
      pos == |chain|
    }
  }

  // ---------------------------------------------------------------------
  // Comparing with the end iterator
  // ---------------------------------------------------------------------

  /**
   * For an entity of codimension at least one, comparing an iterator along
   * `begin_[dir]` with the end iterator of the same entity is asking whether
   * its chain is done: `seIt != seEnd` stops exactly at the null pointer.
   */
  lemma {:induction false} EqualsEndIffDone(it: SuperEntityIterator, e: SuperEntityIterator, dir: nat)
    requires it.Valid() && e.Valid() && it.dim == e.dim && it.origin == e.origin && it.info.gridLevel == e.info.gridLevel
    requires dir < Pow2(it.dim) - 1 && it.stops == StopsOf(it.dim, dir) && e.stops == EndStops(it.dim, dir) && e.Done()
    ensures it.Equals(e) <==> it.Done()
  {
    var dim, o := it.dim, it.origin;
    var ts := Targets(dir, Pow2(dim));
    assert e.info.id == Add(o, EndAdd(dim, dir));
    if it.Done() {
      assert it.stops[it.pos] == Stop(dim, dir, ts, |ts| + 1);
    } else {
      StopsBeforeEndDiffer(dim, dir, it.pos);
      var x, y := it.stops[it.pos], EndAdd(dim, dir);
      var i :| 0 <= i < dim && x[i] != y[i];
      assert it.info.id[i] == o[i] + x[i] && e.info.id[i] == o[i] + y[i];
    }
  }

  /**
   * As written, for an element (codimension 0, every direction bit set) the
   * begin iterator stands on the element with its chain not done, yet it
   * equals the end iterator, whose only step is zero: a loop `seIt != seEnd`
   * visits nothing.
   */
  lemma {:induction false} CodimZeroBeginEqualsEnd(b: SuperEntityIterator, e: SuperEntityIterator)
    requires b.Valid() && e.Valid() && b.dim == e.dim && b.origin == e.origin && b.info.gridLevel == e.info.gridLevel
    requires b.stops == StopsOf(b.dim, Pow2(b.dim) - 1) && b.chain == ChainOf(b.dim, Pow2(b.dim) - 1)
    requires b.pos == NextStop(b.chain, b.fBoundary, 0) && e.stops == EndStops(b.dim, Pow2(b.dim) - 1) && e.Done()
    ensures !b.Done() && b.Equals(e)
  {
    var dim, o := b.dim, b.origin;
    ElementWalk(dim, b.chain, b.stops, b.fBoundary, b.pos);
    AddZeros(o);
    assert b.info.id == Add(o, b.stops[1]) == o;
    assert e.info.id == Add(o, e.stops[1]) == o;
  }

  /**
   * What the source evidently intends for an element, with the end of the
   * walk taken from the chain (`Done`): the element is visited once, as its
   * own sub-entity 0, and the next increment ends the chain.
   */
  lemma {:induction false} CodimZeroVisitsElement(b: SuperEntityIterator)
    requires b.Valid() && b.stops == StopsOf(b.dim, Pow2(b.dim) - 1) && b.chain == ChainOf(b.dim, Pow2(b.dim) - 1)
    requires b.pos == NextStop(b.chain, b.fBoundary, 0) && b.index == b.chain[b.pos - 1].index
    ensures !b.Done() && b.info.id == b.origin && b.index == 0
    ensures NextStop(b.chain, b.fBoundary, b.pos) == |b.chain|
  {
    var dim, o := b.dim, b.origin;
    ElementWalk(dim, b.chain, b.stops, b.fBoundary, b.pos);
    AddZeros(o);
    assert b.info.id == Add(o, b.stops[1]) == o;
  }
}
