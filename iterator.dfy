// SPPartitionIterator: the entities of one codimension in a list of
// partitions.  Within a partition the iterator sweeps the directions of
// the codimension in increasing order and, for each direction that is not
// empty there, the ids of that direction like an odometer: component i
// moves by 2 (by -2 when bit i of the sweep direction is set) and, one step
// past its last value, is reset and carries into component i + 1.  Past
// the last partition every id component is INT_MAX.
//
// The iterator's entity info is held as its own fields: `id`, `direction`
// and `partitionNumber`.

module PartitionIterators {
  import opened Bits
  import opened Errors
  import opened MultiIndices
  import opened Directions
  import opened Partitions
  import opened PartitionLists
  import opened GridLevels

  // ---------------------------------------------------------------------
  // The sweep over one partition and one direction
  // ---------------------------------------------------------------------

  /** `begin(i, dir)`: on axis i the bound of the direction's parity on the sweep's starting side. */
  function BeginAt(p: BasicPartition, sweep: nat, dir: nat, i: nat): (r: int)
    requires ValidBasic(|p.begin|, p) && i < |p.begin|
    ensures r % 2 == Bit(dir, i)
    ensures Bit(sweep, i) == 0 ==> p.begin[i] <= r <= p.begin[i] + 1
    ensures Bit(sweep, i) == 1 ==> p.end[i] - 1 <= r <= p.end[i]
  {
    Bound(p, Bit(sweep, i), i, Bit(dir, i))
  }

  /** `end(i, dir)`: one step past the bound on the other side. */
  function EndAt(p: BasicPartition, sweep: nat, dir: nat, i: nat): (r: int)
    requires ValidBasic(|p.begin|, p) && i < |p.begin|
    ensures Bit(sweep, i) == 0 ==> r == Bound(p, 1, i, Bit(dir, i)) + 2
    ensures Bit(sweep, i) == 1 ==> r == Bound(p, 0, i, Bit(dir, i)) - 2
  {
    var s := Bit(sweep, i);
    Bound(p, 1 - s, i, Bit(dir, i)) + 2 * (2 * (1 - s) - 1)
  }

  /** The step of component i: `2 - 4 * sweep`. */
  function StepOf(sweep: nat, i: nat): (d: int)
    ensures Bit(sweep, i) == 0 ==> d == 2
    ensures Bit(sweep, i) == 1 ==> d == -2
  {
    2 - 4 * Bit(sweep, i)
  }

  /** Every component lies between the bounds of its direction's parity and has that parity. */
  predicate Inside(p: BasicPartition, dir: nat, id: MultiIndex)
    requires ValidBasic(|id|, p)
  {
    forall i :: 0 <= i < |id| ==>
      Bound(p, 0, i, Bit(dir, i)) <= id[i] <= Bound(p, 1, i, Bit(dir, i)) && id[i] % 2 == Bit(dir, i)
  }

  /** An id inside is an entity of the partition with that direction, which is then not empty. */
  lemma {:induction false} InsideIsEntity(p: BasicPartition, dir: nat, id: MultiIndex)
    requires ValidBasic(|id|, p) && Inside(p, dir, id) && dir < Pow2(|id|)
    ensures Contains(p, id) && HasDirection(id, dir) && !IsEmptyIn(p, dir)
    ensures DirectionOf(id) == dir
  {
    forall i | 0 <= i < |id|
      ensures Bit(DirectionOf(id), i) == Bit(dir, i)
    {
      DirectionBits(id, i);
    }
    DirectionBound(id);
    BitsDetermine(DirectionOf(id), dir, |id|);
  }

  /** The first id of the sweep: `begin(i, dir)` on every axis. */
  function Begins(p: BasicPartition, sweep: nat, dir: nat): (b: MultiIndex)
    requires ValidBasic(|p.begin|, p)
    ensures |b| == |p.begin| && forall i :: 0 <= i < |b| ==> b[i] == BeginAt(p, sweep, dir, i)
  {
    seq(|p.begin|, i requires 0 <= i < |p.begin| => BeginAt(p, sweep, dir, i))
  }

  /** In a direction that is not empty, the first id is inside. */
  lemma {:induction false} BeginsInside(p: BasicPartition, sweep: nat, dir: nat)
    requires ValidBasic(|p.begin|, p) && !IsEmptyIn(p, dir)
    ensures Inside(p, dir, Begins(p, sweep, dir))
  {
    var b := Begins(p, sweep, dir);
    forall i | 0 <= i < |b|
      ensures Bound(p, 0, i, Bit(dir, i)) <= b[i] <= Bound(p, 1, i, Bit(dir, i))
    {
      assert !EmptyAxis(p, dir, i);
    }
  }

  /**
   * The component loop of `increment()` from axis i on: the id after the
   * step and whether some component moved without wrapping (false when
   * every component from i on wrapped).
   */
  function Odometer(p: BasicPartition, sweep: nat, dir: nat, id: MultiIndex, i: nat): (r: (MultiIndex, bool))
    requires ValidBasic(|id|, p) && i <= |id|
    ensures |r.0| == |id|
    decreases |id| - i
  {
    if i == |id| then (id, false)
    else
      var x := id[i] + StepOf(sweep, i);
      if x != EndAt(p, sweep, dir, i) then (id[i := x], true)
      else Odometer(p, sweep, dir, id[i := BeginAt(p, sweep, dir, i)], i + 1)
  }

  /** A step of 2 between two bounds of the same parity stays between them unless it starts on the bound it moves towards. */
  lemma {:induction false} StepWithin(lo: int, hi: int, x: int, s: int)
    requires lo % 2 == x % 2 && hi % 2 == x % 2 && lo <= x <= hi && (s == 2 || s == -2)
    requires s == 2 ==> x != hi
    requires s == -2 ==> x != lo
    ensures lo <= x + s <= hi && (x + s) % 2 == x % 2
  {
    var q, r := x / 2, x % 2;
    assert x == 2 * q + r;
    assert lo == 2 * (lo / 2) + r && hi == 2 * (hi / 2) + r;
  }

  /**
   * The odometer keeps an id inside; when it wraps, the components from i
   * on are back at their first value and the others are untouched.
   */
  lemma {:induction false} OdometerInside(p: BasicPartition, sweep: nat, dir: nat, id: MultiIndex, i: nat)
    requires ValidBasic(|id|, p) && i <= |id| && Inside(p, dir, id)
    ensures var r := Odometer(p, sweep, dir, id, i);
            && Inside(p, dir, r.0)
            && (!r.1 ==> (forall j :: i <= j < |id| ==> r.0[j] == BeginAt(p, sweep, dir, j)))
            && (!r.1 ==> (forall j :: 0 <= j < i ==> r.0[j] == id[j]))
    decreases |id| - i
  {
    if i < |id| {
      var b0, b1 := Bound(p, 0, i, Bit(dir, i)), Bound(p, 1, i, Bit(dir, i));
      var x := id[i] + StepOf(sweep, i);
      if x != EndAt(p, sweep, dir, i) {
        StepWithin(b0, b1, id[i], StepOf(sweep, i));
        assert Odometer(p, sweep, dir, id, i) == (id[i := x], true);
        assert Inside(p, dir, id[i := x]);
      } else {
        var y := id[i := BeginAt(p, sweep, dir, i)];
        assert Odometer(p, sweep, dir, id, i) == Odometer(p, sweep, dir, y, i + 1);
        assert Inside(p, dir, y);
        OdometerInside(p, sweep, dir, y, i + 1);
      }
    }
  }

  /** A full wrap from axis 0 gives back the first id of the sweep. */
  lemma {:induction false} OdometerWraps(p: BasicPartition, sweep: nat, dir: nat, id: MultiIndex)
    requires ValidBasic(|id|, p) && Inside(p, dir, id)
    ensures var r := Odometer(p, sweep, dir, id, 0);
            Inside(p, dir, r.0) && (!r.1 ==> r.0 == Begins(p, sweep, dir))
  {
    OdometerInside(p, sweep, dir, id, 0);
  }

  /** The component loop of `increment()`, on the id of the iterator. */
  method StepComponents(p: BasicPartition, sweep: nat, dir: nat, id: MultiIndex) returns (next: MultiIndex, moved: bool)
    requires ValidBasic(|id|, p)
    ensures (next, moved) == Odometer(p, sweep, dir, id, 0)
  {
    next := id;
    var i := 0;
    while i < |id|
      invariant 0 <= i <= |id| && |next| == |id|
      invariant Odometer(p, sweep, dir, next, i) == Odometer(p, sweep, dir, id, 0)
      decreases |id| - i
    {
      var x := next[i] + StepOf(sweep, i);
      if x != EndAt(p, sweep, dir, i) {
        next := next[i := x];
        moved := true;
        return;
      }
      next := next[i := BeginAt(p, sweep, dir, i)];
      i := i + 1;
    }
    moved := false;
  }

  /** `for i: id[i] = begin(i, dir)`. */
  method MoveToBegin(p: BasicPartition, sweep: nat, dir: nat, id: MultiIndex) returns (next: MultiIndex)
    requires ValidBasic(|id|, p)
    ensures next == Begins(p, sweep, dir)
  {
    next := id;
    for i := 0 to |id|
      invariant |next| == |id|
      invariant forall j :: 0 <= j < i ==> next[j] == BeginAt(p, sweep, dir, j)
    {
      next := next[i := BeginAt(p, sweep, dir, i)];
    }
  }

  // ---------------------------------------------------------------------
  // Directions that are not empty
  // ---------------------------------------------------------------------

  /** The first pattern of the direction iterator, (1 << (dim - codim)) - 1. */
  function FirstPattern(dim: nat, codim: nat): (b: nat)
    requires codim <= dim
    ensures b < Sentinel(dim, codim) && PopCount(b) == dim - codim
  {
    AllOnesPopCount(dim - codim);
    Pow2Monotone(dim - codim, dim);
    PatternsBeforeSentinel(Pow2(dim - codim) - 1, dim, codim);
    Pow2(dim - codim) - 1
  }

  /**
   * The first pattern from `bits` on with dim - codim bits set that is not
   * empty in the partition, or the sentinel when there is none.
   */
  function FirstNonEmpty(p: BasicPartition, dim: nat, codim: nat, bits: nat): (d: nat)
    requires ValidBasic(|p.begin|, p) && codim <= dim && bits <= Sentinel(dim, codim)
    ensures bits <= d <= Sentinel(dim, codim)
    decreases Sentinel(dim, codim) - bits
  {
    if bits == Sentinel(dim, codim) then bits
    else if PopCount(bits) == dim - codim && !IsEmptyIn(p, bits) then bits
    else FirstNonEmpty(p, dim, codim, bits + 1)
  }

  /**
   * What FirstNonEmpty finds: a pattern of the codimension that is not
   * empty, with every pattern of the codimension before it (from bits on)
   * empty; at the sentinel every such pattern from bits on is empty.
   */
  lemma {:induction false} FirstNonEmptyMeans(p: BasicPartition, dim: nat, codim: nat, bits: nat)
    requires ValidBasic(|p.begin|, p) && codim <= dim && bits <= Sentinel(dim, codim)
    ensures var d := FirstNonEmpty(p, dim, codim, bits);
            && (d < Sentinel(dim, codim) ==> PopCount(d) == dim - codim && !IsEmptyIn(p, d))
            && (forall b: nat :: bits <= b < d && PopCount(b) == dim - codim ==> IsEmptyIn(p, b))
    decreases Sentinel(dim, codim) - bits
  {
    if bits < Sentinel(dim, codim) && !(PopCount(bits) == dim - codim && !IsEmptyIn(p, bits)) {
      FirstNonEmptyMeans(p, dim, codim, bits + 1);
    }
  }

  /** Skipping patterns that are empty or of another dimension does not change what is found. */
  lemma {:induction false} FirstNonEmptySkip(p: BasicPartition, dim: nat, codim: nat, b: nat, next: nat)
    requires ValidBasic(|p.begin|, p) && codim <= dim && b <= next <= Sentinel(dim, codim)
    requires forall c: nat :: b <= c < next ==> PopCount(c) != dim - codim || IsEmptyIn(p, c)
    ensures FirstNonEmpty(p, dim, codim, b) == FirstNonEmpty(p, dim, codim, next)
    decreases next - b
  {
    if b < next {
      assert PopCount(b) != dim - codim || IsEmptyIn(p, b);
      assert FirstNonEmpty(p, dim, codim, b) == FirstNonEmpty(p, dim, codim, b + 1);
      FirstNonEmptySkip(p, dim, codim, b + 1, next);
    }
  }

  /**
   * `for( ; dirIt && partition.empty( *dirIt ); ++dirIt )`: the iterator
   * stops on the first pattern from where it stood that is not empty.
   */
  method SkipEmptyDirections(p: BasicPartition, it: DirectionIterator)
    requires ValidBasic(|p.begin|, p) && it.Valid() && it.dim == |p.begin|
    modifies it
    ensures it.Valid() && it.bits == FirstNonEmpty(p, it.dim, it.codim, old(it.bits))
  {
    ghost var target := FirstNonEmpty(p, it.dim, it.codim, it.bits);
    var going := it.IsValid();
    if going {
      SmallBitsValue(it.dim, it.bits);
      going := EmptyIn(p, it.Current());
    }
    while going
      invariant it.Valid() && FirstNonEmpty(p, it.dim, it.codim, it.bits) == target
      invariant going <==> it.IsValid() && IsEmptyIn(p, it.bits)
      decreases Sentinel(it.dim, it.codim) - it.bits
    {
      ghost var before := it.bits;
      it.Increment();
      FirstNonEmptySkip(p, it.dim, it.codim, before, it.bits);
      going := it.IsValid();
      if going {
        SmallBitsValue(it.dim, it.bits);
        going := EmptyIn(p, it.Current());
      }
    }
  }

  // ---------------------------------------------------------------------
  // Entities of a partition
  // ---------------------------------------------------------------------

  /** The id is an entity of the partition whose direction has dim - codim bits set. */
  predicate OnEntity(p: BasicPartition, dim: nat, codim: nat, dir: nat, id: MultiIndex)
  {
    codim <= dim && |id| == dim && dir < Pow2(dim) && PopCount(dir) == dim - codim
    && dir < Sentinel(dim, codim) && ValidBasic(dim, p) && Inside(p, dir, id)
  }

  /** Starting a direction sweep where FirstNonEmpty lands puts the iterator on an entity of that direction. */
  lemma {:induction false} StartOn(p: BasicPartition, dim: nat, codim: nat, sweep: nat, bits: nat)
    requires ValidBasic(dim, p) && codim <= dim && bits <= Sentinel(dim, codim)
    ensures var d := FirstNonEmpty(p, dim, codim, bits);
            d < Sentinel(dim, codim) ==>
              OnEntity(p, dim, codim, d, Begins(p, sweep, d)) && DirectionOf(Begins(p, sweep, d)) == d
  {
    FirstNonEmptyMeans(p, dim, codim, bits);
    var d := FirstNonEmpty(p, dim, codim, bits);
    if d < Sentinel(dim, codim) {
      BeginsInside(p, sweep, d);
      InsideIsEntity(p, d, Begins(p, sweep, d));
    }
  }

  /** The odometer step keeps the iterator on an entity of the same direction. */
  lemma {:induction false} StepOn(p: BasicPartition, dim: nat, codim: nat, sweep: nat, dir: nat, id: MultiIndex)
    requires OnEntity(p, dim, codim, dir, id)
    ensures var r := Odometer(p, sweep, dir, id, 0);
            && OnEntity(p, dim, codim, dir, r.0) && DirectionOf(r.0) == dir
            && (!r.1 ==> r.0 == Begins(p, sweep, dir))
  {
    OdometerWraps(p, sweep, dir, id);
    InsideIsEntity(p, dir, Odometer(p, sweep, dir, id, 0).0);
  }

  // ---------------------------------------------------------------------
  // Positions of the iterator
  // ---------------------------------------------------------------------

  /**
   * What the iterator stands on: the list index of its partition (the
   * list's length at the end), the direction, the id and the partition
   * number.  At the end only the index and the id mean anything.
   */
  datatype Position = Position(index: nat, direction: nat, id: MultiIndex, number: nat)

  /** The id past the last partition: INT_MAX in every component. */
  function EndIds(dim: nat): (id: MultiIndex)
    ensures |id| == dim && forall i :: 0 <= i < dim ==> id[i] == MaxInt
  {
    seq(dim, i => MaxInt)
  }

  /** The position at the end of the list. */
  function EndPosition(ps: seq<Partition>, dim: nat): (pos: Position)
    ensures pos.index == |ps| && pos.id == EndIds(dim)
  {
    Position(|ps|, 0, EndIds(dim), 0)
  }

  /**
   * The invariant of the iterator: on a partition of the list the id is an
   * entity of it with a direction of the codimension and carries the
   * partition's number; at the end the id is the end id.
   */
  predicate Settled(ps: seq<Partition>, dim: nat, codim: nat, pos: Position)
  {
    pos.index <= |ps|
    && (pos.index < |ps| ==>
          OnEntity(ps[pos.index].base, dim, codim, pos.direction, pos.id) && pos.number == ps[pos.index].number)
    && (pos.index == |ps| ==> pos == EndPosition(ps, dim))
  }

  /**
   * The direction search in partition k from pattern `bits` on: the first
   * id of the first direction that is not empty there, with the
   * partition's number; when there is none, where `init()` lands from the
   * next partition.
   */
  function Resume(ps: seq<Partition>, dim: nat, codim: nat, sweep: nat, k: nat, bits: nat): (pos: Position)
    requires AllFit(ps, dim) && codim <= dim && k < |ps| && bits <= Sentinel(dim, codim)
    ensures k <= pos.index <= |ps|
    decreases |ps| - k, 1
  {
    var q := ps[k];
    var d := FirstNonEmpty(q.base, dim, codim, bits);
    if d < Sentinel(dim, codim) then Position(k, d, Begins(q.base, sweep, d), q.number)
    else Landed(ps, dim, codim, sweep, k + 1)
  }

  /** Where `init()` lands from list index k: the direction search from the first pattern, or the end. */
  function Landed(ps: seq<Partition>, dim: nat, codim: nat, sweep: nat, k: nat): (pos: Position)
    requires AllFit(ps, dim) && codim <= dim && k <= |ps|
    ensures k <= pos.index <= |ps|
    decreases |ps| - k, 2
  {
    if k == |ps| then EndPosition(ps, dim)
    else Resume(ps, dim, codim, sweep, k, FirstPattern(dim, codim))
  }

  /** The direction search lands on an entity or at the end. */
  lemma {:induction false} ResumeSettled(ps: seq<Partition>, dim: nat, codim: nat, sweep: nat, k: nat, bits: nat)
    requires AllFit(ps, dim) && codim <= dim && k < |ps| && bits <= Sentinel(dim, codim)
    ensures Settled(ps, dim, codim, Resume(ps, dim, codim, sweep, k, bits))
    decreases |ps| - k, 1
  {
    var q := ps[k];
    assert ValidBasic(dim, q.base);
    var d := FirstNonEmpty(q.base, dim, codim, bits);
    if d < Sentinel(dim, codim) {
      StartOn(q.base, dim, codim, sweep, bits);
    } else {
      LandedSettled(ps, dim, codim, sweep, k + 1);
    }
  }

  /** `init()` lands on an entity or at the end. */
  lemma {:induction false} LandedSettled(ps: seq<Partition>, dim: nat, codim: nat, sweep: nat, k: nat)
    requires AllFit(ps, dim) && codim <= dim && k <= |ps|
    ensures Settled(ps, dim, codim, Landed(ps, dim, codim, sweep, k))
    decreases |ps| - k, 2
  {
    if k < |ps| {
      ResumeSettled(ps, dim, codim, sweep, k, FirstPattern(dim, codim));
    }
  }

  /** Starting the search on a later pattern, past patterns of another dimension or empty in the partition, changes nothing. */
  lemma {:induction false} ResumeSkip(ps: seq<Partition>, dim: nat, codim: nat, sweep: nat, k: nat, b: nat, next: nat)
    requires AllFit(ps, dim) && codim <= dim && k < |ps| && b <= next <= Sentinel(dim, codim)
    requires forall c: nat :: b <= c < next ==> PopCount(c) != dim - codim || IsEmptyIn(ps[k].base, c)
    ensures Resume(ps, dim, codim, sweep, k, b) == Resume(ps, dim, codim, sweep, k, next)
  {
    assert ValidBasic(dim, ps[k].base);
    FirstNonEmptySkip(ps[k].base, dim, codim, b, next);
  }

  /**
   * The direction search leaves out no entity: on the partition it lands
   * on, every direction of the codimension it passed is empty; when it
   * moves on, every such direction from `bits` on is empty in partition k
   * and every partition it passes holds no entity of the codimension.
   */
  lemma {:induction false} ResumeSkipsEmpty(ps: seq<Partition>, dim: nat, codim: nat, sweep: nat, k: nat, bits: nat)
    requires AllFit(ps, dim) && codim <= dim && k < |ps| && bits <= Sentinel(dim, codim)
    ensures var r := Resume(ps, dim, codim, sweep, k, bits);
            && (r.index == k ==>
                  forall b: nat :: bits <= b < r.direction && PopCount(b) == dim - codim ==> IsEmptyIn(ps[k].base, b))
            && (r.index > k ==>
                  forall b: nat :: bits <= b < Pow2(dim) && PopCount(b) == dim - codim ==> IsEmptyIn(ps[k].base, b))
            && (forall l, d: nat :: k < l < r.index && d < Pow2(dim) && PopCount(d) == dim - codim ==> IsEmptyIn(ps[l].base, d))
    decreases |ps| - k, 1
  {
    var q := ps[k].base;
    assert ValidBasic(dim, q);
    FirstNonEmptyMeans(q, dim, codim, bits);
    var d := FirstNonEmpty(q, dim, codim, bits);
    if d == Sentinel(dim, codim) {
      forall b: nat | bits <= b < Pow2(dim) && PopCount(b) == dim - codim
        ensures IsEmptyIn(q, b)
      {
        PatternsBeforeSentinel(b, dim, codim);
      }
      LandedSkipsEmpty(ps, dim, codim, sweep, k + 1);
    }
  }

  /** `init()` from partition k passes only partitions that hold no entity of the codimension. */
  lemma {:induction false} LandedSkipsEmpty(ps: seq<Partition>, dim: nat, codim: nat, sweep: nat, k: nat)
    requires AllFit(ps, dim) && codim <= dim && k <= |ps|
    ensures var r := Landed(ps, dim, codim, sweep, k);
            forall l, d: nat :: k <= l < r.index && d < Pow2(dim) && PopCount(d) == dim - codim ==> IsEmptyIn(ps[l].base, d)
    decreases |ps| - k, 2
  {
    if k < |ps| {
      var first := FirstPattern(dim, codim);
      ResumeSkipsEmpty(ps, dim, codim, sweep, k, first);
      forall d: nat | d < first
        ensures PopCount(d) != dim - codim
      {
        BelowFirstPattern(d, dim - codim);
      }
    }
  }

  /** What Following needs of a position: on a partition, with an id of the grid's dimension and a direction before the sentinel. */
  predicate Steppable(ps: seq<Partition>, dim: nat, codim: nat, pos: Position)
  {
    pos.index < |ps| && codim <= dim && |pos.id| == dim && pos.direction < Sentinel(dim, codim)
  }

  /**
   * The specification of `increment()` on a partition: the next id of the
   * odometer; after a full wrap the direction search from the next
   * pattern after the current direction.
   */
  function Following(ps: seq<Partition>, dim: nat, codim: nat, sweep: nat, pos: Position): (next: Position)
    requires AllFit(ps, dim) && Steppable(ps, dim, codim, pos)
    ensures pos.index <= next.index
  {
    var step := Odometer(ps[pos.index].base, sweep, pos.direction, pos.id, 0);
    if step.1 then pos.(id := step.0)
    else Resume(ps, dim, codim, sweep, pos.index, pos.direction + 1)
  }

  /** `increment()` keeps the invariant. */
  lemma {:induction false} FollowingSettled(ps: seq<Partition>, dim: nat, codim: nat, sweep: nat, pos: Position)
    requires AllFit(ps, dim) && pos.index < |ps| && Settled(ps, dim, codim, pos)
    ensures Settled(ps, dim, codim, Following(ps, dim, codim, sweep, pos))
  {
    var q := ps[pos.index].base;
    if Odometer(q, sweep, pos.direction, pos.id, 0).1 {
      StepOn(q, dim, codim, sweep, pos.direction, pos.id);
    } else {
      ResumeSettled(ps, dim, codim, sweep, pos.index, pos.direction + 1);
    }
  }

  /**
   * `increment()` never leaves out an entity: within a partition the
   * directions it passes over are empty there; when it leaves the
   * partition, every later direction is empty there and every partition it
   * passes holds no entity of the codimension.
   */
  lemma {:induction false} FollowingSkipsNothing(ps: seq<Partition>, dim: nat, codim: nat, sweep: nat, pos: Position)
    requires AllFit(ps, dim) && Steppable(ps, dim, codim, pos)
    ensures var next := Following(ps, dim, codim, sweep, pos);
            var q := ps[pos.index].base;
            && (next.index == pos.index ==>
                  forall b: nat :: pos.direction < b < next.direction && PopCount(b) == dim - codim ==> IsEmptyIn(q, b))
            && (next.index > pos.index ==>
                  forall b: nat :: pos.direction < b < Pow2(dim) && PopCount(b) == dim - codim ==> IsEmptyIn(q, b))
            && (forall l, d: nat :: pos.index < l < next.index && d < Pow2(dim) && PopCount(d) == dim - codim ==> IsEmptyIn(ps[l].base, d))
  {
    if !Odometer(ps[pos.index].base, sweep, pos.direction, pos.id, 0).1 {
      ResumeSkipsEmpty(ps, dim, codim, sweep, pos.index, pos.direction + 1);
    }
  }

  // ---------------------------------------------------------------------
  // The iterator
  // ---------------------------------------------------------------------

  class PartitionIterator {
    const dim: nat
    const codim: nat
    /** The grid level of the entity info. */
    const gridLevel: GridLevel
    /** The partition list the iterator walks. */
    const list: PartitionList
    /** `sweepDirection_`: bit i set sweeps axis i downwards. */
    const sweepDirection: nat
    /** `partition_`. */
    var partition: ListIterator
    var id: MultiIndex
    var direction: nat
    var partitionNumber: nat

    /** The consts fit and the partition iterator is on a node of the list or at its end. */
    ghost predicate Framed()
      reads this, list
    {
      codim <= dim && |id| == dim && sweepDirection < Pow2(dim) && AllFit(list.partitions, dim)
      && (partition.node.Some? ==> partition.node.value.0 == list && partition.node.value.1 < |list.partitions|)
    }

    /** The position in the list: the node's index, or the list's length at the end. */
    function Index(): (k: nat)
      reads this, list
      requires Framed()
      ensures k <= |list.partitions|
      ensures k < |list.partitions| <==> partition.node.Some?
    {
      if partition.node.Some? then partition.node.value.1 else |list.partitions|
    }

    /** The iterator's state as a value; at the end the direction and number are not part of it. */
    function Current(): (pos: Position)
      reads this, list
      requires Framed()
      ensures pos.index == Index() && pos.id == id
    {
      if partition.node.Some? then Position(Index(), direction, id, partitionNumber)
      else Position(|list.partitions|, 0, id, 0)
    }

    /** The iterator stands on an entity of its list, or at the end with the end id. */
    ghost predicate Valid()
      reads this, list
    {
      Framed() && Settled(list.partitions, dim, codim, Current())
    }

    /** `operator bool`: the partition iterator is not at the end. */
    predicate IsTrue()
      reads this, list
      requires Framed()
      ensures IsTrue() <==> Index() < |list.partitions|
    {
      !AtEnd(partition)
    }

    /** `SPPartitionIterator(gridLevel, list, Begin, sweepDir)`, asserting sweepDir < 2^dim. */
    constructor Begin(gridLevel: GridLevel, list: PartitionList, codim: nat, sweepDir: nat)
      requires codim <= gridLevel.dim && sweepDir < Pow2(gridLevel.dim) && AllFit(list.partitions, gridLevel.dim)
      ensures Valid() && dim == gridLevel.dim && this.codim == codim && this.list == list && sweepDirection == sweepDir
      ensures Current() == Landed(list.partitions, dim, codim, sweepDir, 0)
    {
      dim := gridLevel.dim;
      this.codim := codim;
      this.gridLevel := gridLevel;
      this.list := list;
      sweepDirection := sweepDir;
      partition := PartitionLists.Begin(list);
      id := Zeros(gridLevel.dim);
      direction := DefaultEntityDirection(gridLevel.dim, gridLevel.dim - codim);
      partitionNumber := MaxUnsigned;
      new;
      Init();
      LandedSettled(list.partitions, dim, codim, sweepDirection, 0);
    }

    /** `SPPartitionIterator(gridLevel, list, End, sweepDir)`: at the end of the list. */
    constructor End(gridLevel: GridLevel, list: PartitionList, codim: nat, sweepDir: nat)
      requires codim <= gridLevel.dim && sweepDir < Pow2(gridLevel.dim) && AllFit(list.partitions, gridLevel.dim)
      ensures Valid() && dim == gridLevel.dim && this.codim == codim && this.list == list && sweepDirection == sweepDir
      ensures Current() == EndPosition(list.partitions, dim) && !IsTrue()
    {
      dim := gridLevel.dim;
      this.codim := codim;
      this.gridLevel := gridLevel;
      this.list := list;
      sweepDirection := sweepDir;
      partition := PartitionLists.End();
      id := Zeros(gridLevel.dim);
      direction := DefaultEntityDirection(gridLevel.dim, gridLevel.dim - codim);
      partitionNumber := MaxUnsigned;
      new;
      Init();
    }

    /**
     * `init()`: from the current partition on, the first partition with a
     * direction that is not empty, on its first such direction and the
     * first id of the sweep; at the end the id is filled with INT_MAX.
     */
    method Init()
      requires Framed()
      modifies this
      ensures Framed() && Current() == Landed(list.partitions, dim, codim, sweepDirection, old(Index()))
      decreases |list.partitions| - Index(), 1
    {
      if partition.node.Some? {
        var it := new DirectionIterator(dim, codim);
        assert it.bits == FirstPattern(dim, codim);
        Settle(it);
      } else {
        id := EndIds(dim);
      }
    }

    /**
     * The direction search `init()` and `increment()` share: from the
     * direction iterator's pattern on, skip the directions empty in the
     * current partition; on the first that is not, move the id to its
     * first entity and `update(number)`; when there is none, `++partition_`
     * and `init()`.
     */
    method Settle(it: DirectionIterator)
      requires Framed() && partition.node.Some? && it.Valid() && it.dim == dim && it.codim == codim
      modifies this, it
      ensures Framed()
      ensures Current() == Resume(list.partitions, dim, codim, sweepDirection, old(Index()), old(it.bits))
      decreases |list.partitions| - Index(), 0
    {
      var q := Deref(partition);
      ghost var start := it.bits;
      SkipEmptyDirections(q.base, it);
      StartOn(q.base, dim, codim, sweepDirection, start);
      if it.IsValid() {
        SmallBitsValue(dim, it.bits);
        var d := it.Current();
        id := MoveToBegin(q.base, sweepDirection, d, id);
        partitionNumber := q.number;
        direction := DirectionOf(id);
      } else {
        ghost var k := Index();
        partition := Next(partition);
        assert Index() == k + 1;
        Init();
      }
    }

    /**
     * `increment()`: the odometer step over the components; after a full
     * wrap the next direction of the codimension that is not empty in this
     * partition, at the first id of the sweep; when there is none the next
     * partition, through `init()`.
     */
    method Increment()
      requires Valid() && partition.node.Some?
      modifies this
      ensures Valid()
      ensures Current() == Following(list.partitions, dim, codim, sweepDirection, old(Current()))
    {
      ghost var before := Current();
      assert before == Position(Index(), direction, id, partitionNumber);
      ghost var target := Following(list.partitions, dim, codim, sweepDirection, before);
      FollowingSettled(list.partitions, dim, codim, sweepDirection, before);
      var moved := Advance();
      if moved {
        direction := DirectionOf(id);
        assert Current() == target;
      } else {
        assert target == Resume(list.partitions, dim, codim, sweepDirection, before.index, before.direction + 1);
        NextDirection();
        assert Current() == target;
      }
    }

    /** The component loop of `increment()` on the iterator's id; a component that moved keeps the direction. */
    method Advance() returns (moved: bool)
      requires Framed() && partition.node.Some?
      requires OnEntity(list.partitions[Index()].base, dim, codim, direction, id)
      modifies this`id
      ensures Framed()
      ensures (id, moved) == Odometer(list.partitions[Index()].base, sweepDirection, direction, old(id), 0)
      ensures moved ==> DirectionOf(id) == direction
    {
      var q := Deref(partition).base;
      StepOn(q, dim, codim, sweepDirection, direction, id);
      var next;
      next, moved := StepComponents(q, sweepDirection, direction, id);
      id := next;
    }

    /**
     * The tail of `increment()` after every component wrapped: a direction
     * iterator on the current direction, `++dirIt`, and the direction
     * search from there.
     */
    method NextDirection()
      requires Framed() && partition.node.Some?
      requires direction < Pow2(dim) && PopCount(direction) == dim - codim
      modifies this
      ensures Framed()
      ensures old(direction) + 1 <= Sentinel(dim, codim)
      ensures Current() == Resume(list.partitions, dim, codim, sweepDirection, old(Index()), old(direction) + 1)
    {
      var it := DirectionAfter();
      Settle(it);
    }

    /** `SPDirectionIterator dirIt( direction ); ++dirIt;`: the search from there finds what it finds after the direction. */
    method DirectionAfter() returns (it: DirectionIterator)
      requires Framed() && partition.node.Some? && direction < Pow2(dim) && PopCount(direction) == dim - codim
      ensures fresh(it) && it.Valid() && it.dim == dim && it.codim == codim
      ensures direction + 1 <= Sentinel(dim, codim)
      ensures Resume(list.partitions, dim, codim, sweepDirection, Index(), it.bits)
           == Resume(list.partitions, dim, codim, sweepDirection, Index(), direction + 1)
    {
      it := new DirectionIterator.FromDirection(dim, codim, direction);
      PatternsBeforeSentinel(direction, dim, codim);
      it.Increment();
      ResumeSkip(list.partitions, dim, codim, sweepDirection, Index(), direction + 1, it.bits);
    }
  }

  /** n increments, stopping at the end. */
  function Run(ps: seq<Partition>, dim: nat, codim: nat, sweep: nat, pos: Position, n: nat): (r: Position)
    requires AllFit(ps, dim) && Settled(ps, dim, codim, pos)
    ensures pos.index <= r.index <= |ps|
    decreases n
  {
    if n == 0 || pos.index == |ps| then pos
    else
      FollowingSettled(ps, dim, codim, sweep, pos);
      Run(ps, dim, codim, sweep, Following(ps, dim, codim, sweep, pos), n - 1)
  }

  /** Run from a settled position, the iterator keeps its invariant after any number of increments. */
  lemma {:induction false} IterationSettled(ps: seq<Partition>, dim: nat, codim: nat, sweep: nat, pos: Position, n: nat)
    requires AllFit(ps, dim) && Settled(ps, dim, codim, pos)
    ensures Settled(ps, dim, codim, Run(ps, dim, codim, sweep, pos, n))
    decreases n
  {
    if n > 0 && pos.index < |ps| {
      FollowingSettled(ps, dim, codim, sweep, pos);
      IterationSettled(ps, dim, codim, sweep, Following(ps, dim, codim, sweep, pos), n - 1);
    }
  }
}
