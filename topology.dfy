// SPTopology: the connectivity of the macro cubes ("nodes") of the grid.
// Only a single node is supported; its neighbour over a face is itself
// (node 0) on a periodic axis and the marker MaxUnsigned otherwise.
//
// The heap block `data_` is an array shared by all copies: cell 0 holds the
// number of nodes, cell 1 the reference count and cell 2 + node*2*dim + face
// the neighbour table.

module Topologies {
  import opened Bits

  /** The neighbour the constructor stores for `face`: `(1 - b) * max` with b the periodic bit of the face's axis. */
  function NeighborEntry(periodic: nat, face: nat): (n: nat)
    ensures n == 0 <==> Bit(periodic, face / 2) == 1
    ensures n == 0 || n == MaxUnsigned
  {
    (1 - Bit(periodic, face / 2)) * MaxUnsigned
  }

  class Topology {
    const dim: nat
    var data: array<int>

    /** The shared block has the layout above, one node, a live reference and a consistent table. */
    ghost predicate Valid()
      reads this, data
    {
      data.Length == 2 + 2 * dim && data[0] == 1 && data[1] >= 1
      && forall i :: 0 <= i < dim ==>
           data[2 + 2 * i] == data[3 + 2 * i] && (data[2 + 2 * i] == 0 || data[2 + 2 * i] == MaxUnsigned)
    }

    /** `SPTopology(periodic)`. */
    constructor (dim: nat, periodic: nat)
      ensures Valid() && this.dim == dim && fresh(data)
      ensures NumNodes() == 1 && RefCount() == 1
      ensures forall face :: 0 <= face < 2 * dim ==> Neighbor(0, face) == NeighborEntry(periodic, face)
      ensures forall i :: 0 <= i < dim ==> (IsPeriodic(i) <==> Bit(periodic, i) == 1)
    {
      var a := new int[2 + 2 * dim];
      a[0] := 1;
      a[1] := 1;
      var i := 0;
      while i < dim
        invariant 0 <= i <= dim
        invariant a[0] == 1 && a[1] == 1
        invariant forall f :: 0 <= f < 2 * i ==> a[2 + f] == NeighborEntry(periodic, f)
      {
        var b := Bit(periodic, i);
        assert (2 * i) / 2 == i && (2 * i + 1) / 2 == i;
        a[2 + 2 * i + 1] := (1 - b) * MaxUnsigned;
        a[2 + 2 * i] := (1 - b) * MaxUnsigned;
        i := i + 1;
      }
      this.dim := dim;
      data := a;
      new;
      forall j | 0 <= j < dim
        ensures data[2 + 2 * j] == data[3 + 2 * j] == NeighborEntry(periodic, 2 * j)
      {
        assert (2 * j) / 2 == j && (2 * j + 1) / 2 == j;
        assert NeighborEntry(periodic, 2 * j + 1) == NeighborEntry(periodic, 2 * j);
        assert data[2 + 2 * j] == NeighborEntry(periodic, 2 * j);
        assert data[2 + (2 * j + 1)] == NeighborEntry(periodic, 2 * j + 1);
      }
    }

    /** The copy constructor: shares the block and takes a reference. */
    constructor Copy(other: Topology)
      requires other.Valid()
      modifies other.data
      ensures Valid() && dim == other.dim && data == other.data
      ensures data[1] == old(other.data[1]) + 1
      ensures forall k :: 0 <= k < data.Length && k != 1 ==> data[k] == old(other.data[k])
    {
      dim := other.dim;
      data := other.data;
      new;
      data[1] := data[1] + 1;
    }

    /** The destructor: drops a reference; the block is freed when none is left. */
    method Release() returns (freed: bool)
      requires Valid()
      modifies data
      ensures data[1] == old(data[1]) - 1 && (freed <==> data[1] == 0)
      ensures forall k :: 0 <= k < data.Length && k != 1 ==> data[k] == old(data[k])
    {
      data[1] := data[1] - 1;
      freed := data[1] == 0;
    }

    /**
     * `operator=`: takes a reference to the source block before dropping
     * its own, so assigning a topology to itself (or to a copy sharing its
     * block) never frees the block.
     */
    method Assign(other: Topology) returns (freed: bool)
      requires Valid() && other.Valid() && dim == other.dim
      modifies this, data, other.data
      ensures data == other.data && Valid()
      ensures old(data) == other.data ==> !freed && data[1] == old(data[1])
      ensures old(data) != other.data ==>
        data[1] == old(other.data[1]) + 1
        && old(data)[1] == old(data[1]) - 1 && (freed <==> old(data)[1] == 0)
      ensures forall k :: 0 <= k < data.Length && k != 1 ==> data[k] == old(other.data[k])
    {
      other.data[1] := other.data[1] + 1;
      data[1] := data[1] - 1;
      freed := data[1] == 0;
      data := other.data;
    }

    /** `numNodes()`. */
    function NumNodes(): int
      reads this, data
      requires data.Length >= 1
    {
      data[0]
    }

    function RefCount(): int
      reads this, data
      requires data.Length >= 2
    {
      data[1]
    }

    /** `neighbor(node, face)`. */
    function Neighbor(node: nat, face: int): (n: int)
      reads this, data
      requires Valid() && node < NumNodes() && 0 <= face < 2 * dim
      ensures n == 0 || n == MaxUnsigned
    {
      assert node == 0;
      var i := face / 2;
      assert face == 2 * i || face == 2 * i + 1;
      data[node * 2 * dim + face + 2]
    }

    /** Both faces of an axis have the same neighbour. */
    lemma {:induction false} OppositeFaces(i: nat)
      requires Valid() && i < dim
      ensures Neighbor(0, 2 * i) == Neighbor(0, 2 * i + 1)
    {
    }

    /** `hasNeighbor(node, face)`. */
    predicate HasNeighbor(node: nat, face: int)
      reads this, data
      requires Valid() && node < NumNodes() && 0 <= face < 2 * dim
    {
      Neighbor(node, face) < NumNodes()
    }

    /** `periodic(i)`. */
    predicate IsPeriodic(i: int)
      reads this, data
      requires Valid() && NumNodes() == 1 && 0 <= i < dim
    {
      Neighbor(0, 2 * i) == 0
    }

    /** `periodic()`: the bit field of periodic axes. */
    method Periodic() returns (p: nat)
      requires Valid()
      ensures p < Pow2(dim)
      ensures forall i :: 0 <= i < dim ==> (Bit(p, i) == 1 <==> IsPeriodic(i))
    {
      p := 0;
      var i := 0;
      while i < dim
        invariant 0 <= i <= dim
        invariant p < Pow2(i)
        invariant forall j :: 0 <= j < i ==> (Bit(p, j) == 1 <==> IsPeriodic(j))
      {
        var b := if IsPeriodic(i) then 1 else 0;
        OrPow2Step(p, i, b);
        p := Or(p, Pow2(i) * b);
        i := i + 1;
      }
    }
  }

  /** On a fresh topology, a face has a neighbour exactly when its axis is periodic. */
  method HasNeighborOfNew(dim: nat, periodic: nat, face: nat) returns (h: bool)
    requires face < 2 * dim
    ensures h <==> Bit(periodic, face / 2) == 1
  {
    var t := new Topology(dim, periodic);
    h := t.HasNeighbor(0, face);
  }

  /** On a fresh topology, `periodic()` gives back the low dim bits of the constructor's argument. */
  method PeriodicOfNew(dim: nat, periodic: nat) returns (p: nat)
    ensures p == LowBits(periodic, dim)
  {
    var t := new Topology(dim, periodic);
    p := t.Periodic();
    forall i | 0 <= i < dim ensures Bit(p, i) == Bit(LowBits(periodic, dim), i) {
      LowBitsBit(periodic, dim, i);
    }
    BitsDetermine(p, LowBits(periodic, dim), dim);
  }
}
