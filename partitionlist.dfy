// SPPartitionList: a singly linked list of partitions.  The model keeps the
// partitions of the chain, in order, in a sequence field; a node is named by
// its list and its position, so that iterators still compare by node
// identity.  Appending and the emptiness test are the operations the
// partition pool and the linkage rely on.

module PartitionLists {
  import opened Errors
  import opened Partitions

  class PartitionList {
    var partitions: seq<Partition>

    /** The empty list (its head pointer is null). */
    constructor ()
      ensures partitions == []
    {
      partitions := [];
    }

    /** The copy constructor: every node is cloned with its successors, so this is a deep copy. */
    constructor Copy(other: PartitionList)
      ensures partitions == other.partitions
    {
      partitions := other.partitions;
    }

    /** `operator=`, read as the deep copy it evidently intends. */
    method Assign(other: PartitionList)
      modifies this
      ensures partitions == old(other.partitions)
    {
      partitions := other.partitions;
    }

    /** `+= partition`: a new node at the tail. */
    method Append(p: Partition)
      modifies this
      ensures partitions == old(partitions) + [p]
    {
      partitions := partitions + [p];
    }

    /** `empty()`: the head pointer is null. */
    predicate IsEmpty()
      reads this
    {
      |partitions| == 0
    }
  }

  /** `SPPartitionList::Iterator`: a node of a list, or null past the end. */
  datatype ListIterator = ListIterator(node: Option<(PartitionList, nat)>)

  /** `begin()`. */
  function Begin(l: PartitionList): (it: ListIterator)
    reads l
    ensures it.node.None? <==> l.IsEmpty()
  {
    if |l.partitions| == 0 then ListIterator(None) else ListIterator(Some((l, 0)))
  }

  /** `end()`: the null node. */
  function End(): ListIterator
  {
    ListIterator(None)
  }

  /** `!it`. */
  predicate AtEnd(it: ListIterator)
  {
    it.node.None?
  }

  /** A non-null iterator names an existing node of its list. */
  predicate OnNode(it: ListIterator)
    reads if it.node.Some? then {it.node.value.0} else {}
  {
    it.node.Some? ==> it.node.value.1 < |it.node.value.0.partitions|
  }

  /** `++it`: the successor node, null after the last one. */
  function Next(it: ListIterator): (next: ListIterator)
    reads if it.node.Some? then {it.node.value.0} else {}
    requires !AtEnd(it) && OnNode(it)
    ensures OnNode(next)
  {
    var (l, k) := it.node.value;
    if k + 1 < |l.partitions| then ListIterator(Some((l, k + 1))) else ListIterator(None)
  }

  /** `*it`. */
  function Deref(it: ListIterator): Partition
    reads if it.node.Some? then {it.node.value.0} else {}
    requires !AtEnd(it) && OnNode(it)
  {
    it.node.value.0.partitions[it.node.value.1]
  }

  /** `it == other`: the same node. */
  predicate SameNode(it: ListIterator, other: ListIterator)
  {
    it.node == other.node
  }

  /** k applications of `++` (stopping at the end). */
  function Advance(it: ListIterator, k: nat): (r: ListIterator)
    reads if it.node.Some? then {it.node.value.0} else {}
    requires OnNode(it)
    ensures OnNode(r)
    ensures r.node.Some? ==> it.node.Some? && r.node.value.0 == it.node.value.0
    decreases k
  {
    if k == 0 || AtEnd(it) then it else Advance(Next(it), k - 1)
  }

  /**
   * Iterating from `begin()` visits the partitions in list order: after k
   * steps the iterator is on partition k, and after as many steps as there
   * are partitions it is `end()`.
   */
  lemma {:induction false} IterationInOrder(l: PartitionList, k: nat)
    requires k <= |l.partitions|
    ensures k < |l.partitions| ==> !AtEnd(Advance(Begin(l), k)) && Deref(Advance(Begin(l), k)) == l.partitions[k]
    ensures k == |l.partitions| ==> SameNode(Advance(Begin(l), k), End())
  {
    if k < |l.partitions| {
      AdvanceFromBegin(l, k);
    } else if k > 0 {
      AdvanceFromBegin(l, k - 1);
      AdvanceLast(Begin(l), k - 1);
    }
  }

  /** One more step after k steps is k + 1 steps. */
  lemma {:induction false} AdvanceLast(it: ListIterator, k: nat)
    requires OnNode(it)
    ensures ghost var r := Advance(it, k);
      Advance(it, k + 1) == if AtEnd(r) then r else Next(r)
    decreases k
  {
    if k > 0 && !AtEnd(it) {
      AdvanceLast(Next(it), k - 1);
    }
  }

  /** The positions reached from `begin()`: after k steps, node k. */
  lemma {:induction false} AdvanceFromBegin(l: PartitionList, k: nat)
    requires k < |l.partitions|
    ensures Advance(Begin(l), k) == ListIterator(Some((l, k)))
  {
    if k > 0 {
      AdvanceFromBegin(l, k - 1);
      AdvanceLast(Begin(l), k - 1);
    }
  }
}
