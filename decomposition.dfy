// SPDecomposition: recursive bisection of a mesh into `size` sub-meshes,
// one per rank.  A node of size above one splits its mesh along the first
// axis of largest width in the ratio size/2 : size - size/2.

module Decompositions {
  import opened MultiIndices
  import opened Meshes

  datatype Node =
    | Leaf(mesh: Mesh, size: nat)
    | Inner(mesh: Mesh, size: nat, left: Node, right: Node)

  /** The first axis of largest width: `std::max_element(width) - width.begin()`. */
  function FirstMaxAxis(w: seq<int>): (k: nat)
    requires |w| >= 1
    ensures k < |w|
    ensures forall j :: 0 <= j < |w| ==> w[j] <= w[k]
    ensures forall j :: 0 <= j < k ==> w[j] < w[k]
  {
    if |w| == 1 then 0
    else
      var k := FirstMaxAxis(w[..|w| - 1]);
      if w[|w| - 1] > w[k] then |w| - 1 else k
  }

  /** A dimension to split along exists whenever the node has to split. */
  predicate Splittable(m: Mesh, size: nat)
  {
    |m.begin| == |m.end| && (size > 1 ==> |m.begin| >= 1)
  }

  /** The halves of the mesh of a node of the given size. */
  function Halves(m: Mesh, size: nat): (h: (Mesh, Mesh))
    requires |m.begin| == |m.end| >= 1 && size > 1
    ensures ValidMesh(|m.begin|, h.0) && ValidMesh(|m.begin|, h.1)
  {
    Split(m, FirstMaxAxis(Widths(m)), size / 2, size - size / 2)
  }

  /** `Node(mesh, size)`. */
  function Build(m: Mesh, size: nat): (n: Node)
    requires Splittable(m, size)
    ensures n.mesh == m && n.size == size
    ensures n.Inner? <==> size > 1
    decreases size
  {
    if size > 1 then
      var h := Halves(m, size);
      Inner(m, size, Build(h.0, size / 2), Build(h.1, size - size / 2))
    else Leaf(m, size)
  }

  /** `subMesh(rank)`: the left subtree has ranks below size/2. */
  function SubMesh(n: Node, rank: nat): Mesh
    requires WellFormed(n) && rank < n.size
  {
    match n
    case Leaf(m, _) => m
    case Inner(_, size, left, right) =>
      if rank < size / 2 then SubMesh(left, rank) else SubMesh(right, rank - size / 2)
  }

  /** The sizes of the children are size/2 and size - size/2, all the way down. */
  predicate WellFormed(n: Node)
  {
    match n
    case Leaf(_, size) => size <= 1
    case Inner(_, size, left, right) =>
      size > 1 && left.size == size / 2 && right.size == size - size / 2
      && WellFormed(left) && WellFormed(right)
  }

  /** The meshes of the leaves, left to right. */
  function Leaves(n: Node): seq<Mesh>
  {
    match n
    case Leaf(m, _) => [m]
    case Inner(_, _, left, right) => Leaves(left) + Leaves(right)
  }

  /** `subMeshes(meshes)`: the leaves appended to meshes. */
  method SubMeshesInto(n: Node, meshes: seq<Mesh>) returns (result: seq<Mesh>)
    ensures result == meshes + Leaves(n)
  {
    match n
    case Leaf(m, _) =>
      result := meshes + [m];
    case Inner(_, _, left, right) =>
      var withLeft := SubMeshesInto(left, meshes);
      result := SubMeshesInto(right, withLeft);
  }

  // ---------------------------------------------------------------------
  // Properties
  // ---------------------------------------------------------------------

  /** The halves of a node that splits can be built from in turn, with smaller sizes. */
  lemma {:induction false} HalvesSplittable(m: Mesh, size: nat)
    requires Splittable(m, size) && size > 1
    ensures Splittable(Halves(m, size).0, size / 2) && Splittable(Halves(m, size).1, size - size / 2)
    ensures |Halves(m, size).0.begin| == |Halves(m, size).1.begin| == |m.begin|
    ensures size / 2 < size && size - size / 2 < size
  {
  }

  lemma {:induction false} BuildIsWellFormed(m: Mesh, size: nat)
    requires Splittable(m, size)
    ensures WellFormed(Build(m, size))
    decreases size
  {
    if size > 1 {
      var h := Halves(m, size);
      HalvesSplittable(m, size);
      BuildIsWellFormed(h.0, size / 2);
      BuildIsWellFormed(h.1, size - size / 2);
    }
  }

  lemma {:induction false} BuildLeavesValid(m: Mesh, size: nat)
    requires Splittable(m, size)
    ensures AllValid(|m.begin|, Leaves(Build(m, size)))
    decreases size
  {
    if size > 1 {
      var h := Halves(m, size);
      HalvesSplittable(m, size);
      var left, right := Build(h.0, size / 2), Build(h.1, size - size / 2);
      assert Leaves(Build(m, size)) == Leaves(left) + Leaves(right);
      BuildLeavesValid(h.0, size / 2);
      BuildLeavesValid(h.1, size - size / 2);
      AllValidAppend(|m.begin|, Leaves(left), Leaves(right));
    }
  }

  predicate AllValid(dim: nat, ms: seq<Mesh>)
  {
    forall i :: 0 <= i < |ms| ==> ValidMesh(dim, ms[i])
  }

  lemma {:induction false} AllValidAppend(dim: nat, a: seq<Mesh>, b: seq<Mesh>)
    requires AllValid(dim, a) && AllValid(dim, b)
    ensures AllValid(dim, a + b)
  {
    forall i | 0 <= i < |a + b| ensures ValidMesh(dim, (a + b)[i]) {
      if i >= |a| {
        assert (a + b)[i] == b[i - |a|];
      }
    }
  }

  /** A node of size s >= 1 has s leaves; a node of size 0 still lists its own mesh. */
  lemma {:induction false} LeafCount(n: Node)
    requires WellFormed(n)
    ensures n.size >= 1 ==> |Leaves(n)| == n.size
    ensures n.size == 0 ==> Leaves(n) == [n.mesh]
  {
    if n.Inner? {
      LeafCount(n.left);
      LeafCount(n.right);
    }
  }

  /** `subMeshes()[rank] == subMesh(rank)` for every rank. */
  lemma {:induction false} SubMeshIsLeaf(n: Node, rank: nat)
    requires WellFormed(n) && rank < n.size
    ensures |Leaves(n)| == n.size && SubMesh(n, rank) == Leaves(n)[rank]
  {
    LeafCount(n);
    if n.Inner? {
      LeafCount(n.left);
      if rank < n.size / 2 {
        SubMeshIsLeaf(n.left, rank);
      } else {
        SubMeshIsLeaf(n.right, rank - n.size / 2);
      }
    }
  }

  function SumOfVolumes(dim: nat, ms: seq<Mesh>): int
    requires AllValid(dim, ms)
  {
    if ms == [] then 0 else Volume(ms[0]) + SumOfVolumes(dim, ms[1..])
  }

  lemma {:induction false} SumOfVolumesAppend(dim: nat, a: seq<Mesh>, b: seq<Mesh>)
    requires AllValid(dim, a) && AllValid(dim, b)
    ensures AllValid(dim, a + b)
    ensures SumOfVolumes(dim, a + b) == SumOfVolumes(dim, a) + SumOfVolumes(dim, b)
  {
    AllValidAppend(dim, a, b);
    if a == [] {
      assert a + b == b;
    } else {
      assert (a + b)[0] == a[0];
      assert (a + b)[1..] == a[1..] + b;
      SumOfVolumesAppend(dim, a[1..], b);
    }
  }

  /** The leaf volumes add up to the volume of the root mesh. */
  lemma {:induction false} LeafVolumes(m: Mesh, size: nat)
    requires Splittable(m, size)
    ensures AllValid(|m.begin|, Leaves(Build(m, size)))
    ensures SumOfVolumes(|m.begin|, Leaves(Build(m, size))) == Volume(m)
    decreases size
  {
    var dim := |m.begin|;
    BuildLeavesValid(m, size);
    if size > 1 {
      var h := Halves(m, size);
      HalvesSplittable(m, size);
      var left, right := Leaves(Build(h.0, size / 2)), Leaves(Build(h.1, size - size / 2));
      assert Leaves(Build(m, size)) == left + right;
      LeafVolumes(h.0, size / 2);
      LeafVolumes(h.1, size - size / 2);
      SumOfVolumesAppend(dim, left, right);
      HalvesVolume(m, size);
      assert SumOfVolumes(dim, left + right) == Volume(m);
    } else {
      assert Leaves(Build(m, size)) == [m];
      assert SumOfVolumes(dim, [m]) == Volume(m) + SumOfVolumes(dim, []);
      assert SumOfVolumes(dim, [m]) == Volume(m);
    }
  }

  /** The volumes of the halves add up to the volume of the mesh. */
  lemma {:induction false} HalvesVolume(m: Mesh, size: nat)
    requires |m.begin| == |m.end| >= 1 && size > 1
    ensures Volume(Halves(m, size).0) + Volume(Halves(m, size).1) == Volume(m)
  {
    SplitHalves(m, FirstMaxAxis(Widths(m)), size / 2, size - size / 2);
  }

  // ---------------------------------------------------------------------
  // SPDecomposition
  // ---------------------------------------------------------------------

  datatype Decomposition = Decomposition(root: Node)

  /** `SPDecomposition(mesh, size)`. */
  function MakeDecomposition(m: Mesh, size: nat): (d: Decomposition)
    requires Splittable(m, size)
    ensures d.root.mesh == m && d.root.size == size && WellFormed(d.root)
  {
    BuildIsWellFormed(m, size);
    Decomposition(Build(m, size))
  }

  /** `SPDecomposition(width, size)`: the mesh from the origin to width. */
  function DecompositionOfWidth(w: MultiIndex, size: nat): (d: Decomposition)
    requires size > 1 ==> |w| >= 1
    ensures d.root.mesh == MeshOfWidth(w) && d.root.size == size && WellFormed(d.root)
  {
    MakeDecomposition(MeshOfWidth(w), size)
  }

  /** `subMeshes()`. */
  method SubMeshes(d: Decomposition) returns (meshes: seq<Mesh>)
    requires WellFormed(d.root)
    ensures meshes == Leaves(d.root)
    ensures d.root.size >= 1 ==> |meshes| == d.root.size
    ensures forall r :: 0 <= r < d.root.size ==> meshes[r] == SubMesh(d.root, r)
  {
    meshes := SubMeshesInto(d.root, []);
    assert [] + Leaves(d.root) == Leaves(d.root);
    LeafCount(d.root);
    forall r | 0 <= r < d.root.size ensures meshes[r] == SubMesh(d.root, r) {
      SubMeshIsLeaf(d.root, r);
    }
  }
}
