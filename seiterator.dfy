// SPSuperElementIterator: the elements containing an entity, without the
// boundary checks of SPSuperEntityIterator.
//
// For every direction the SequenceProvider stores a chain of steps: one per
// direction d with `(d & dir) == 0`, in increasing d, each the difference
// from the previous element to the element at offset Offset(dim, dir, d),
// then the former head node, which steps on to the end position
// EndAdd(dim, dir).  `end_[dir]` is a single node with that end offset and a
// null `next`.  The targets, offsets and stops are those of the super-entity
// chain.  The linked nodes are a sequence here, and `sequence_` is a
// position in it.

module SuperElementIterators {
  import opened Bits
  import opened MultiIndices
  import opened Directions
  import opened EntityInfos
  import opened Entities
  import SE = SuperEntityIterators

  // ---------------------------------------------------------------------
  // The chain of a direction
  // ---------------------------------------------------------------------

  /** The steps between the stops 0 .. |ts| of the walk over the targets ts. */
  function Steps(dim: nat, dir: nat, ts: seq<nat>): (vs: seq<MultiIndex>)
    ensures |vs| == |ts|
  {
    seq(|ts|, k requires 0 <= k < |ts| => Sub(SE.Stop(dim, dir, ts, k + 1), SE.Stop(dim, dir, ts, k)))
  }

  /** `begin_[dir]`: a step per target, then the former head, which steps on to the end position. */
  function ElementChain(dim: nat, dir: nat): (chain: seq<MultiIndex>)
    ensures |chain| == |SE.Targets(dir, Pow2(dim))| + 1
    ensures forall k :: 0 <= k < |chain| ==> |chain[k]| == dim
  {
    var ts := SE.Targets(dir, Pow2(dim));
    Steps(dim, dir, ts) + [Sub(SE.Stop(dim, dir, ts, |ts| + 1), SE.Stop(dim, dir, ts, |ts|))]
  }

  /** `end_[dir]`: one node with the end offset and a null `next`. */
  function EndChain(dim: nat, dir: nat): (chain: seq<MultiIndex>)
    ensures |chain| == 1 && chain[0] == SE.EndAdd(dim, dir)
  {
    [SE.EndAdd(dim, dir)]
  }

  /** The chain of the super-element iterator is the chain of the super-entity iterator without indices and flags. */
  lemma ElementChainIsEntityChain(dim: nat, dir: nat)
    requires dir < Pow2(dim)
    ensures ElementChain(dim, dir) == seq(|SE.ChainOf(dim, dir)|, k requires 0 <= k < |SE.ChainOf(dim, dir)| => SE.ChainOf(dim, dir)[k].idAdd)
  {
    var ts := SE.Targets(dir, Pow2(dim));
    var chain := ElementChain(dim, dir);
    var entities := SE.ChainOf(dim, dir);
    var steps := seq(|entities|, k requires 0 <= k < |entities| => entities[k].idAdd);
    assert |entities| == |ts| + 1;
    forall k | 0 <= k < |chain| ensures chain[k] == steps[k] {
      ElementChainAt(dim, dir, k);
    }
    assert chain == steps;
  }

  /** Step k of both chains goes from stop k to stop k + 1. */
  lemma ElementChainAt(dim: nat, dir: nat, k: nat)
    requires dir < Pow2(dim) && k <= |SE.Targets(dir, Pow2(dim))|
    ensures ElementChain(dim, dir)[k] == SE.ChainOf(dim, dir)[k].idAdd
  {
    var ts := SE.Targets(dir, Pow2(dim));
    ElementChainStep(dim, dir, k);
    if k < |ts| {
      SE.ChainEntry(dim, dir, k);
    }
  }

  /** Step k of `begin_[dir]` goes from stop k to stop k + 1 of the walk over the targets. */
  lemma ElementChainStep(dim: nat, dir: nat, k: nat)
    requires k <= |SE.Targets(dir, Pow2(dim))|
    ensures var ts := SE.Targets(dir, Pow2(dim));
      ElementChain(dim, dir)[k] == Sub(SE.Stop(dim, dir, ts, k + 1), SE.Stop(dim, dir, ts, k))
  {
    var ts := SE.Targets(dir, Pow2(dim));
    if k < |ts| {
      assert ElementChain(dim, dir)[k] == Steps(dim, dir, ts)[k];
    }
  }

  /** The sum of a sequence of steps, starting at 0. */
  function Total(dim: nat, vs: seq<MultiIndex>): (v: MultiIndex)
    requires forall k :: 0 <= k < |vs| ==> |vs[k]| == dim
    ensures |v| == dim
  {
    if vs == [] then Zeros(dim) else Add(Total(dim, vs[..|vs| - 1]), vs[|vs| - 1])
  }

  /** Adding the step from b to a to b gives a. */
  lemma StepArrives(a: MultiIndex, b: MultiIndex)
    requires |a| == |b|
    ensures Add(b, Sub(a, b)) == a
  {
  }

  /** Along a walk, the running sum of the first p steps is stop p. */
  lemma {:induction false} WalkSums(chain: seq<MultiIndex>, stops: seq<MultiIndex>, dim: nat, p: nat)
    requires Walks(chain, stops, dim) && p <= |chain|
    ensures forall k :: 0 <= k < |chain| ==> |chain[k]| == dim
    ensures Total(dim, chain[..p]) == stops[p]
  {
    forall k | 0 <= k < |chain| ensures |chain[k]| == dim {
      assert chain[k] == Sub(stops[k + 1], stops[k]);
    }
    var prefix := chain[..p];
    if p > 0 {
      WalkSums(chain, stops, dim, p - 1);
      assert prefix[..p - 1] == chain[..p - 1] && prefix[p - 1] == chain[p - 1];
      StepArrives(stops[p], stops[p - 1]);
    } else {
      assert prefix == [];
    }
  }

  /** The running sum of the first p steps of `begin_[dir]` is stop p: the targets in turn, then the end offset. */
  lemma ElementChainSums(dim: nat, dir: nat, p: nat)
    requires p <= |ElementChain(dim, dir)|
    ensures Total(dim, ElementChain(dim, dir)[..p]) == SE.Stop(dim, dir, SE.Targets(dir, Pow2(dim)), p)
  {
    ElementSequenceWalks(dim, dir, false);
    WalkSums(ElementChain(dim, dir), SE.StopsOf(dim, dir), dim, p);
  }

  /** After j + 1 steps the walk stands at the element of the j-th target, a direction that avoids dir. */
  lemma ElementChainVisitsTargets(dim: nat, dir: nat, j: nat)
    requires j < |SE.Targets(dir, Pow2(dim))|
    ensures var d := SE.Targets(dir, Pow2(dim))[j];
      Total(dim, ElementChain(dim, dir)[..j + 1]) == SE.Offset(dim, dir, d) && !Overlaps(d, dir)
  {
    var ts := SE.Targets(dir, Pow2(dim));
    ElementChainSums(dim, dir, j + 1);
    SE.TargetsExactly(dir, Pow2(dim), ts[j]);
  }

  /** Axis i of the offset of target d is `(1 - dir_i) * (2*d_i - 1)`, the source's arithmetic. */
  lemma OffsetFormula(dim: nat, dir: nat, d: nat, i: nat)
    requires i < dim
    ensures SE.Offset(dim, dir, d)[i] == (1 - Bit(dir, i)) * (2 * Bit(d, i) - 1)
  {
    assert SE.Offset(dim, dir, d)[i] == SE.OffsetAlong(Bit(dir, i), Bit(d, i));
    SE.AxisArithmetic(Bit(dir, i), Bit(d, i), 0);
  }

  /** The whole of `begin_[dir]` sums to the offset of `end_[dir]`: the begin walk ends where the end iterator stands. */
  lemma ElementChainMeetsEnd(dim: nat, dir: nat)
    ensures Total(dim, ElementChain(dim, dir)) == Total(dim, EndChain(dim, dir)) == SE.EndAdd(dim, dir)
  {
    var chain := ElementChain(dim, dir);
    ElementChainSums(dim, dir, |chain|);
    assert chain[..|chain|] == chain;
    var ends := EndChain(dim, dir);
    assert ends[..0] == [];
  }

  /** Starting at the entity, step k goes from stop k to stop k + 1. */
  ghost predicate Walks(chain: seq<MultiIndex>, stops: seq<MultiIndex>, dim: nat)
  {
    |stops| == |chain| + 1 && stops[0] == Zeros(dim)
    && (forall p :: 0 <= p < |stops| ==> |stops[p]| == dim)
    && forall k :: 0 <= k < |chain| ==> chain[k] == Sub(stops[k + 1], stops[k])
  }

  /** Both chains of a direction walk the stops of the super-entity chains. */
  lemma ElementSequenceWalks(dim: nat, dir: nat, atEnd: bool)
    ensures Walks(if atEnd then EndChain(dim, dir) else ElementChain(dim, dir), SE.StopsFor(dim, dir, atEnd), dim)
  {
    var ts := SE.Targets(dir, Pow2(dim));
    if atEnd {
      assert Sub(SE.EndAdd(dim, dir), Zeros(dim)) == SE.EndAdd(dim, dir);
    } else {
      var chain := ElementChain(dim, dir);
      var stops := SE.StopsOf(dim, dir);
      forall p | 0 <= p < |stops| ensures |stops[p]| == dim && stops[p] == SE.Stop(dim, dir, ts, p) {
      }
      forall k | 0 <= k < |chain| ensures chain[k] == Sub(stops[k + 1], stops[k]) {
        assert stops[k + 1] == SE.Stop(dim, dir, ts, k + 1);
      }
    }
  }

  /** Every stop after the entity itself is an element: all its components are odd. */
  lemma ElementStop(origin: MultiIndex, atEnd: bool, p: nat)
    requires 0 < p < |SE.StopsFor(|origin|, DirectionOf(origin), atEnd)|
    ensures |SE.StopsFor(|origin|, DirectionOf(origin), atEnd)[p]| == |origin|
    ensures DirectionOf(Add(origin, SE.StopsFor(|origin|, DirectionOf(origin), atEnd)[p])) == Pow2(|origin|) - 1
  {
    var dim, dir := |origin|, DirectionOf(origin);
    var ts := SE.Targets(dir, Pow2(dim));
    var s := SE.StopsFor(dim, dir, atEnd)[p];
    if !atEnd && p <= |ts| {
      assert s == SE.Offset(dim, dir, ts[p - 1]);
      SE.TargetIsElement(origin, ts[p - 1]);
    } else {
      assert s == SE.EndAdd(dim, dir);
      EndIsElement(origin);
    }
  }

  /** The end position is an element. */
  lemma EndIsElement(origin: MultiIndex)
    ensures DirectionOf(Add(origin, SE.EndAdd(|origin|, DirectionOf(origin)))) == Pow2(|origin|) - 1
  {
    var y := Add(origin, SE.EndAdd(|origin|, DirectionOf(origin)));
    EndIsOdd(origin);
    assert forall i :: 0 <= i < |y| ==> y[i] % 2 == 1;
    ElementDirection(y);
  }

  /** Every component of the end position is odd. */
  lemma EndIsOdd(origin: MultiIndex)
    ensures forall i :: 0 <= i < |origin| ==> Add(origin, SE.EndAdd(|origin|, DirectionOf(origin)))[i] % 2 == 1
  {
    var e := SE.EndAdd(|origin|, DirectionOf(origin));
    var y := Add(origin, e);
    forall i | 0 <= i < |origin| ensures y[i] % 2 == 1 {
      assert y[i] == origin[i] + e[i];
      EndAxisOdd(origin, i);
    }
  }

  /** The end offset is odd exactly on the axes where the entity is even, so the end position is odd on every axis. */
  lemma EndAxisOdd(origin: MultiIndex, i: nat)
    requires i < |origin|
    ensures (origin[i] + SE.EndAdd(|origin|, DirectionOf(origin))[i]) % 2 == 1
  {
    var e := SE.EndAdd(|origin|, DirectionOf(origin));
    DirectionBits(origin, i);
    assert e[i] == 3 * (1 - Bit(DirectionOf(origin), i));
    ParityAfterEnd(origin[i], Bit(DirectionOf(origin), i));
  }

  lemma ParityAfterEnd(x: int, b: int)
    requires b == x % 2
    ensures (x + 3 * (1 - b)) % 2 == 1
  {
    if b == 0 {
      assert x + 3 == 2 * (x / 2 + 1) + 1;
    }
  }

  // ---------------------------------------------------------------------
  // SequenceProvider
  // ---------------------------------------------------------------------

  /** The loop `next->idAdd[i] = (1 - dirbit) * (2*dbit - 1)`. */
  method ElementOffset(dim: nat, dir: nat, d: nat) returns (v: MultiIndex)
    ensures v == SE.Offset(dim, dir, d)
  {
    v := [];
    var i := 0;
    while i < dim
      invariant i <= dim && |v| == i
      invariant forall k :: 0 <= k < i ==> v[k] == SE.OffsetAlong(Bit(dir, k), Bit(d, k))
    {
      SE.AxisArithmetic(Bit(dir, i), Bit(d, i), 0);
      v := v + [(1 - Bit(dir, i)) * (2 * Bit(d, i) - 1)];
      i := i + 1;
    }
  }

  /** The steps of a longer list of targets extend those of the shorter. */
  lemma StepsSnoc(dim: nat, dir: nat, ts: seq<nat>, d: nat)
    ensures Steps(dim, dir, ts + [d]) == Steps(dim, dir, ts) + [Sub(SE.Offset(dim, dir, d), SE.Stop(dim, dir, ts, |ts|))]
  {
    var us := ts + [d];
    forall k | 0 <= k <= |ts| ensures SE.Stop(dim, dir, us, k) == SE.Stop(dim, dir, ts, k) {
    }
    assert SE.Stop(dim, dir, us, |ts| + 1) == SE.Offset(dim, dir, d);
  }

  /** The loop over d of one direction: `next->idAdd -= head->idAdd; head->idAdd += next->idAdd` for every target. */
  method BuildSteps(dim: nat, dir: nat) returns (steps: seq<MultiIndex>, head: MultiIndex)
    ensures var ts := SE.Targets(dir, Pow2(dim));
            steps == Steps(dim, dir, ts) && head == SE.Stop(dim, dir, ts, |ts|)
  {
    head := Zeros(dim);
    steps := [];
    ghost var ts: seq<nat> := [];
    var d := 0;
    while d < Pow2(dim)
      invariant d <= Pow2(dim) && ts == SE.Targets(dir, d)
      invariant steps == Steps(dim, dir, ts) && head == SE.Stop(dim, dir, ts, |ts|)
    {
      SE.TargetsSnoc(dir, d);
      if !Overlaps(d, dir) {
        var next := ElementOffset(dim, dir, d);
        StepsSnoc(dim, dir, ts, d);
        next := Sub(next, head);
        steps := steps + [next];
        head := Add(head, next);
        SubAddCancel(SE.Offset(dim, dir, d), SE.Stop(dim, dir, ts, |ts|));
        ts := ts + [d];
      }
      d := d + 1;
    }
    assert d == Pow2(dim);
  }

  /** One direction of the provider's constructor: `begin_[dir]`, then `end_[dir]`, then the head turned into the last step. */
  method BuildElementSequence(dim: nat, dir: nat) returns (begin: seq<MultiIndex>, end: seq<MultiIndex>)
    ensures begin == ElementChain(dim, dir) && end == EndChain(dim, dir)
  {
    ghost var ts := SE.Targets(dir, Pow2(dim));
    var steps, head := BuildSteps(dim, dir);
    var endAdd := SE.EndStep(dim, dir);
    end := [endAdd];
    var last := Scale(Sub(head, endAdd), -1);
    assert last == Sub(SE.Stop(dim, dir, ts, |ts| + 1), SE.Stop(dim, dir, ts, |ts|));
    begin := steps + [last];
  }

  /** The singleton `SequenceProvider` of the super-element iterator. */
  class SequenceProvider {
    const dim: nat
    /** `begin_`. */
    var begins: seq<seq<MultiIndex>>
    /** `end_`. */
    var ends: seq<seq<MultiIndex>>

    ghost predicate Valid()
      reads this
    {
      |begins| == Pow2(dim) && |ends| == Pow2(dim)
      && forall dir :: 0 <= dir < Pow2(dim) ==> begins[dir] == ElementChain(dim, dir) && ends[dir] == EndChain(dim, dir)
    }

    /** `SequenceProvider()`: the loop over all directions. */
    constructor (dim: nat)
      ensures this.dim == dim && Valid()
    {
      this.dim := dim;
      var bs: seq<seq<MultiIndex>> := [];
      var es: seq<seq<MultiIndex>> := [];
      var dir := 0;
      while dir < Pow2(dim)
        invariant dir <= Pow2(dim) && |bs| == dir && |es| == dir
        invariant forall k :: 0 <= k < dir ==> bs[k] == ElementChain(dim, k) && es[k] == EndChain(dim, k)
      {
        var b, e := BuildElementSequence(dim, dir);
        bs := bs + [b];
        es := es + [e];
        dir := dir + 1;
      }
      begins := bs;
      ends := es;
    }

    /** `sequence(direction, Begin())` and `sequence(direction, End())`, which assert the direction's range. */
    function Sequence(direction: nat, atEnd: bool): (chain: seq<MultiIndex>)
      reads this
      requires Valid() && direction < Pow2(dim)
      ensures chain == if atEnd then EndChain(dim, direction) else ElementChain(dim, direction)
      ensures Walks(chain, SE.StopsFor(dim, direction, atEnd), dim)
    {
      ElementSequenceWalks(dim, direction, atEnd);
      if atEnd then ends[direction] else begins[direction]
    }
  }

  // ---------------------------------------------------------------------
  // The iterator
  // ---------------------------------------------------------------------

  class SuperElementIterator {
    const dim: nat
    /** The entity info of the element the iterator points to (an entity pointer of codimension 0). */
    const info: EntityInfo
    /** The chain `sequence_` walks; `sequence_` is chain[pos]. */
    const chain: seq<MultiIndex>
    var pos: nat
    /** The id of the entity whose elements are visited. */
    ghost const origin: MultiIndex
    /** Whether the chain is `end_[dir]` rather than `begin_[dir]`. */
    ghost const atEnd: bool
    /** The positions, relative to the origin, the chain steps through. */
    ghost const stops: seq<MultiIndex>

    /** The id stands at the origin plus the stop after the current node. */
    ghost predicate Valid()
      reads this, info
    {
      info.dim == dim && info.codim == 0 && info.Shaped() && |origin| == dim
      && stops == SE.StopsFor(dim, DirectionOf(origin), atEnd)
      && Walks(chain, stops, dim) && pos < |chain|
      && info.id == Add(origin, stops[pos + 1])
    }

    /** The C++ constructor: the id of the entity plus the first step, then `update()`. */
    constructor (entity: Entity, provider: SequenceProvider, atEnd: bool)
      requires provider.Valid() && entity.info.Shaped() && entity.info.gridLevel != null
      requires entity.info.dim == provider.dim && entity.info.direction == DirectionOf(entity.info.id)
      requires entity.info.direction < Pow2(provider.dim)
      ensures Valid() && this.atEnd == atEnd && origin == old(entity.info.id)
      ensures chain == old(provider.Sequence(entity.info.direction, atEnd))
      ensures pos == 0 && info.id == Add(origin, chain[0]) && info.direction == DirectionOf(info.id)
      ensures info.gridLevel == old(entity.info.gridLevel) && info.partitionNumber == MaxUnsigned
    {
      var l := entity.info.gridLevel;
      var id := entity.info.id;
      DirectionBound(id);
      dim := provider.dim;
      chain := provider.Sequence(entity.info.direction, atEnd);
      stops := SE.StopsFor(provider.dim, entity.info.direction, atEnd);
      this.atEnd := atEnd;
      origin := id;
      var element := new EntityInfo.OnLevel(l, 0);
      element.id := id;
      info := element;
      pos := 0;
      new;
      assert Sub(stops[1], stops[0]) == stops[1];
      info.id := Add(info.id, chain[0]);
      ElementStop(origin, atEnd, 1);
      info.direction := EntityDirection(dim, dim, info.id);
    }

    /** `increment()`: move to the non-null successor, add its step to the id, then `update()`. */
    method Increment()
      requires Valid() && pos + 1 < |chain|
      modifies this, info
      ensures Valid() && pos == old(pos) + 1
      ensures info.id == Add(old(info.id), chain[pos]) && info.direction == DirectionOf(info.id)
      ensures info.gridLevel == old(info.gridLevel) && info.partitionNumber == old(info.partitionNumber)
    {
      pos := pos + 1;
      SE.StepLands(origin, stops[pos], stops[pos + 1]);
      info.id := Add(info.id, chain[pos]);
      ElementStop(origin, atEnd, pos + 1);
      info.direction := EntityDirection(dim, dim, info.id);
    }

    /** `equals(other)` of the entity pointer: the same grid level, by identity, and the same id. */
    predicate Equals(other: SuperElementIterator)
      reads info, other.info
      requires info.gridLevel != null && other.info.gridLevel != null
    {
      info.Equals(other.info)
    }

    /** `sequence_` is the former head, the last node, whose `next` is null: no increment is left. */
    predicate Done()
      reads this
    {
      pos + 1 == |chain|
    }
  }

  // ---------------------------------------------------------------------
  // Comparing with the end iterator
  // ---------------------------------------------------------------------

  /** The walk of an element: two nodes, both of which stay at the element, as does its end node. */
  lemma {:induction false} ElementStops(dim: nat)
    ensures |ElementChain(dim, Pow2(dim) - 1)| == 2 && SE.StopsOf(dim, Pow2(dim) - 1)[1] == Zeros(dim)
    ensures SE.EndStops(dim, Pow2(dim) - 1) == [Zeros(dim), Zeros(dim)]
  {
    SE.ElementChainShape(dim);
  }

  /**
   * For an entity of codimension at least one, comparing an iterator along
   * `begin_[dir]` with the end iterator of the same entity is asking whether
   * it stands on the last node: `seIt != seEnd` stops exactly there.
   */
  lemma {:induction false} EqualsEndIffDone(it: SuperElementIterator, e: SuperElementIterator)
    requires it.Valid() && e.Valid() && it.dim == e.dim && it.origin == e.origin
    requires it.info.gridLevel != null && it.info.gridLevel == e.info.gridLevel
    requires !it.atEnd && e.atEnd && DirectionOf(it.origin) < Pow2(it.dim) - 1
    ensures it.Equals(e) <==> it.Done()
  {
    var dim, dir, o := it.dim, DirectionOf(it.origin), it.origin;
    var ts := SE.Targets(dir, Pow2(dim));
    assert e.info.id == Add(o, SE.EndAdd(dim, dir));
    if it.Done() {
      assert it.stops[it.pos + 1] == SE.Stop(dim, dir, ts, |ts| + 1);
    } else {
      SE.StopsBeforeEndDiffer(dim, dir, it.pos + 1);
      var x, y := it.stops[it.pos + 1], SE.EndAdd(dim, dir);
      var i :| 0 <= i < dim && x[i] != y[i];
      assert it.info.id[i] == o[i] + x[i] && e.info.id[i] == o[i] + y[i];
    }
  }

  /**
   * As written, for an element (codimension 0) the begin iterator stands on
   * the element with a node still to go, yet it equals the end iterator,
   * whose only step is zero: a loop `seIt != seEnd` visits nothing.
   */
  lemma {:induction false} CodimZeroBeginEqualsEnd(b: SuperElementIterator, e: SuperElementIterator)
    requires b.Valid() && e.Valid() && b.dim == e.dim && b.origin == e.origin
    requires b.info.gridLevel != null && b.info.gridLevel == e.info.gridLevel
    requires !b.atEnd && e.atEnd && DirectionOf(b.origin) == Pow2(b.dim) - 1 && b.pos == 0
    ensures !b.Done() && b.Equals(e)
  {
    var dim, o := b.dim, b.origin;
    ElementStops(dim);
    SE.AddZeros(o);
    assert b.info.id == Add(o, b.stops[1]) == o;
    assert e.info.id == Add(o, e.stops[1]) == o;
  }

  /**
   * What the source evidently intends for an element, with the end of the
   * walk taken from the chain (`Done`): the begin iterator visits the
   * element itself, and one increment reaches the last node.
   */
  lemma {:induction false} CodimZeroVisitsElement(b: SuperElementIterator)
    requires b.Valid() && !b.atEnd && DirectionOf(b.origin) == Pow2(b.dim) - 1 && b.pos == 0
    ensures !b.Done() && b.info.id == b.origin && b.pos + 2 == |b.chain|
  {
    var dim, o := b.dim, b.origin;
    ElementStops(dim);
    SE.AddZeros(o);
    assert b.info.id == Add(o, b.stops[1]) == o;
  }
}
