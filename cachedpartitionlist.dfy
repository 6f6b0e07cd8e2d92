// SPCachedPartitionList: a partition list with a lookup table from
// partition numbers to nodes.  The table covers the numbers from the
// smallest to the largest one in the list; a slot holds the position of the
// node with that number, or -1 for an unused number (a null pointer).

module CachedPartitionLists {
  import opened Bits
  import opened Errors
  import opened MultiIndices
  import opened Partitions
  import opened PartitionLists

  /** The smallest partition number; the largest unsigned value for an empty list. */
  function MinNumber(ps: seq<Partition>): (n: nat)
    ensures forall k :: 0 <= k < |ps| ==> n <= ps[k].number
    ensures ps == [] ==> n == MaxUnsigned
    ensures ps != [] && (forall k :: 0 <= k < |ps| ==> ps[k].number <= MaxUnsigned) ==>
      exists k :: 0 <= k < |ps| && ps[k].number == n
  {
    if ps == [] then MaxUnsigned
    else
      var m := MinNumber(ps[..|ps| - 1]);
      var x := ps[|ps| - 1].number;
      assert forall k :: 0 <= k < |ps| - 1 ==> ps[..|ps| - 1][k] == ps[k];
      if x < m then x else m
  }

  /** The largest partition number; zero for an empty list. */
  function MaxNumber(ps: seq<Partition>): (n: nat)
    ensures forall k :: 0 <= k < |ps| ==> ps[k].number <= n
    ensures ps == [] ==> n == 0
    ensures ps != [] ==> exists k :: 0 <= k < |ps| && ps[k].number == n
  {
    if ps == [] then 0
    else
      var m := MaxNumber(ps[..|ps| - 1]);
      var x := ps[|ps| - 1].number;
      assert forall k :: 0 <= k < |ps| - 1 ==> ps[..|ps| - 1][k] == ps[k];
      if x > m then x else m
  }

  predicate DistinctNumbers(ps: seq<Partition>)
  {
    forall k, l :: 0 <= k < l < |ps| ==> ps[k].number != ps[l].number
  }

  /** Partition numbers are unsigned ints below the largest one, so that the table size cannot wrap to 0. */
  predicate UnsignedNumbers(ps: seq<Partition>)
  {
    forall k :: 0 <= k < |ps| ==> ps[k].number < MaxUnsigned
  }

  /** `last - first + 1` in unsigned arithmetic: 2 for an empty list. */
  function CacheSize(first: nat, last: nat): (size: nat)
  {
    (last - first + 1) % (MaxUnsigned + 1)
  }

  /** The table c describes ps: used slots point at the node of their number, and every node is in its slot. */
  ghost predicate CacheDescribes(ps: seq<Partition>, first: nat, last: nat, c: seq<int>)
  {
    (first <= last ==> |c| == last - first + 1)
    && (forall j :: 0 <= j < |c| ==> c[j] == -1 || (0 <= c[j] < |ps| && ps[c[j]].number == first + j))
    && (forall k :: 0 <= k < |ps| ==>
          first <= ps[k].number <= last && ps[k].number - first < |c| && c[ps[k].number - first] == k)
  }

  /** The first loop of `updateCache()`: the smallest and the largest number. */
  method NumberRange(ps: seq<Partition>) returns (lo: nat, hi: nat)
    requires UnsignedNumbers(ps)
    ensures lo == MinNumber(ps) && hi == MaxNumber(ps)
    ensures ps != [] ==> lo <= hi <= MaxUnsigned && CacheSize(lo, hi) == hi - lo + 1
  {
    lo, hi := MaxUnsigned, 0;
    for i := 0 to |ps|
      invariant lo == MinNumber(ps[..i]) && hi == MaxNumber(ps[..i])
    {
      RangeStep(ps, i);
      var n := ps[i].number;
      lo := if n < lo then n else lo;
      hi := if n > hi then n else hi;
    }
    assert ps[..|ps|] == ps;
    if ps != [] {
      RangeFits(ps);
    }
  }

  /** Taking one more partition into account. */
  lemma {:induction false} RangeStep(ps: seq<Partition>, i: nat)
    requires i < |ps|
    ensures ghost var n := ps[i].number;
      MinNumber(ps[..i + 1]) == (if n < MinNumber(ps[..i]) then n else MinNumber(ps[..i]))
      && MaxNumber(ps[..i + 1]) == (if n > MaxNumber(ps[..i]) then n else MaxNumber(ps[..i]))
  {
    assert ps[..i + 1][..i] == ps[..i];
  }

  /** For a non-empty list of unsigned numbers the table size does not wrap. */
  lemma {:induction false} RangeFits(ps: seq<Partition>)
    requires UnsignedNumbers(ps) && ps != []
    ensures MinNumber(ps) <= MaxNumber(ps) < MaxUnsigned
    ensures CacheSize(MinNumber(ps), MaxNumber(ps)) == MaxNumber(ps) - MinNumber(ps) + 1
  {
    var lo, hi := MinNumber(ps), MaxNumber(ps);
    assert lo <= ps[0].number <= hi;
    var k :| 0 <= k < |ps| && ps[k].number == hi;
    assert hi < MaxUnsigned;
    SmallRemainder(hi - lo + 1, MaxUnsigned + 1);
  }

  lemma {:induction false} SmallRemainder(a: nat, m: nat)
    requires a < m
    ensures a % m == a
  {
  }

  /** Every used slot of c points at an entered node (below i) of its number. */
  ghost predicate SlotsPoint(ps: seq<Partition>, lo: nat, c: seq<int>, i: nat)
  {
    forall j :: 0 <= j < |c| ==> c[j] == -1 || (0 <= c[j] < i <= |ps| && ps[c[j]].number == lo + j)
  }

  /** The nodes below i are in the slots of their numbers. */
  ghost predicate Entered(ps: seq<Partition>, lo: nat, c: seq<int>, i: nat)
  {
    forall k :: 0 <= k < i <= |ps| ==> lo <= ps[k].number && ps[k].number - lo < |c| && c[ps[k].number - lo] == k
  }

  /** Entering node i in a free slot keeps the table consistent and shows its number is new. */
  lemma {:induction false} FillStep(ps: seq<Partition>, lo: nat, c: seq<int>, i: nat, slot: nat)
    requires i < |ps| && slot == ps[i].number - lo && slot < |c| && c[slot] == -1
    requires SlotsPoint(ps, lo, c, i) && Entered(ps, lo, c, i) && DistinctNumbers(ps[..i])
    ensures SlotsPoint(ps, lo, c[slot := i], i + 1) && Entered(ps, lo, c[slot := i], i + 1)
    ensures DistinctNumbers(ps[..i + 1])
  {
    forall k | 0 <= k < i ensures ps[k].number != ps[i].number {
      assert c[ps[k].number - lo] == k;
    }
  }

  /** A used slot for node i's number shows a repeated number. */
  lemma {:induction false} FillClash(ps: seq<Partition>, lo: nat, c: seq<int>, i: nat, slot: nat)
    requires i < |ps| && slot == ps[i].number - lo && slot < |c| && c[slot] != -1
    requires SlotsPoint(ps, lo, c, i)
    ensures !DistinctNumbers(ps)
  {
    var k := c[slot];
    assert 0 <= k < i && ps[k].number == ps[i].number;
  }

  /**
   * The last loop of `updateCache()`: each node is entered in the slot of
   * its number; false (GridError) as soon as that slot is already used.
   */
  method FillCache(ps: seq<Partition>, lo: nat, hi: nat, c: array<int>) returns (unique: bool)
    requires forall k :: 0 <= k < |ps| ==> lo <= ps[k].number <= hi
    requires lo <= hi ==> c.Length == hi - lo + 1
    requires forall j :: 0 <= j < c.Length ==> c[j] == -1
    modifies c
    ensures unique <==> DistinctNumbers(ps)
    ensures unique ==> CacheDescribes(ps, lo, hi, c[..])
  {
    for i := 0 to |ps|
      invariant SlotsPoint(ps, lo, c[..], i) && Entered(ps, lo, c[..], i)
      invariant DistinctNumbers(ps[..i])
    {
      var n := ps[i].number;
      assert lo <= n <= hi;
      var slot := n - lo;
      if c[slot] != -1 {
        FillClash(ps, lo, c[..], i, slot);
        return false;
      }
      FillStep(ps, lo, c[..], i, slot);
      c[slot] := i;
    }
    assert ps[..|ps|] == ps;
    unique := true;
  }

  class CachedPartitionList {
    const list: PartitionList
    var first: nat
    var last: nat
    var cache: array<int>

    ghost predicate Valid()
      reads this, list, cache
    {
      CacheDescribes(list.partitions, first, last, cache[..])
    }

    /** The empty list with an empty table. */
    constructor ()
      ensures Valid() && fresh(list) && list.partitions == []
      ensures first == MaxUnsigned && last == 0
    {
      list := new PartitionList();
      first := MaxUnsigned;
      last := 0;
      cache := new int[0];
    }

    /** `contains(number)`. */
    predicate ContainsNumber(number: nat)
      reads this, list, cache
      requires Valid()
      ensures ContainsNumber(number) <==> exists k :: 0 <= k < |list.partitions| && list.partitions[k].number == number
    {
      var inRange := number >= first && number <= last;
      assert forall k :: 0 <= k < |list.partitions| ==>
        cache[list.partitions[k].number - first] == k;
      inRange && cache[number - first] != -1
    }

    /** `contains(id, number)`. */
    predicate ContainsId(id: MultiIndex, number: nat)
      reads this, list, cache
      requires Valid()
      requires forall k :: 0 <= k < |list.partitions| ==> ValidBasic(|id|, list.partitions[k].base)
      ensures ContainsId(id, number) <==>
        exists k :: 0 <= k < |list.partitions| && list.partitions[k].number == number && Contains(list.partitions[k].base, id)
    {
      if ContainsNumber(number) then
        var k := cache[number - first];
        assert forall l :: 0 <= l < |list.partitions| && list.partitions[l].number == number ==> l == k;
        Contains(list.partitions[k].base, id)
      else false
    }

    /** `partition(number)`. */
    function PartitionNumbered(number: nat): (p: Partition)
      reads this, list, cache
      requires Valid() && ContainsNumber(number)
      ensures p in list.partitions && p.number == number
    {
      list.partitions[cache[number - first]]
    }

    /**
     * `updateCache()`: recomputes the number range, allocates a table for it
     * and fills it; a number used twice raises GridError.
     */
    method UpdateCache() returns (status: Result<()>)
      requires UnsignedNumbers(list.partitions)
      modifies this
      ensures first == MinNumber(list.partitions) && last == MaxNumber(list.partitions)
      ensures fresh(cache) && cache.Length == CacheSize(first, last)
      ensures status.Ok? <==> DistinctNumbers(list.partitions)
      ensures status.Ok? ==> Valid()
      ensures status.Err? ==> status.error == GridError
    {
      var ps := list.partitions;
      var lo, hi := NumberRange(ps);
      var size := CacheSize(lo, hi);
      var c := new int[size];
      for i := 0 to size
        invariant forall j :: 0 <= j < i ==> c[j] == -1
      {
        c[i] := -1;
      }
      if ps != [] {
        assert lo <= ps[0].number <= hi;
      }
      var unique := FillCache(ps, lo, hi, c);
      first, last, cache := lo, hi, c;
      status := if unique then Ok(()) else Err(GridError);
    }

    /** `+= partition` on the underlying list; the table is stale until the next update. */
    method Append(p: Partition)
      modifies list
      ensures list.partitions == old(list.partitions) + [p]
    {
      list.Append(p);
    }
  }

  /** The copy constructor: a deep copy of the list, then `updateCache()`. */
  method CopyList(other: CachedPartitionList) returns (copy: CachedPartitionList, status: Result<()>)
    requires UnsignedNumbers(other.list.partitions)
    ensures fresh(copy) && fresh(copy.list)
    ensures copy.list.partitions == other.list.partitions
    ensures status.Ok? <==> DistinctNumbers(other.list.partitions)
    ensures status.Ok? ==> copy.Valid()
  {
    copy := new CachedPartitionList();
    copy.list.Assign(other.list);
    status := copy.UpdateCache();
  }

  /** `operator=`: the list is replaced by a copy of the other one and the table rebuilt. */
  method AssignList(target: CachedPartitionList, other: CachedPartitionList) returns (status: Result<()>)
    requires UnsignedNumbers(other.list.partitions)
    modifies target, target.list
    ensures target.list.partitions == old(other.list.partitions)
    ensures status.Ok? <==> DistinctNumbers(target.list.partitions)
    ensures status.Ok? ==> target.Valid()
  {
    target.list.Assign(other.list);
    status := target.UpdateCache();
  }
}
