// SPPartitionPool: the six partition lists of one process (interior,
// interior-border, overlap, overlap-front, all, ghost) built from its local
// mesh, the global mesh, the overlap width and the periodicity bit field.
//
// Partitions live in doubled coordinates.  The closed partition of a local
// mesh spans [2 lbegin, 2 lend]; the open one drops every face that is not
// on the global boundary.  Along a periodic axis that the grown overlap mesh
// does not cover, the overlap is cut into pieces that wrap around the
// global mesh; the 2^n pieces of n such axes are numbered by bit fields d
// and linked, across the wrap, to the piece d ^ (1 << k).

module PartitionPools {
  import opened Bits
  import opened Errors
  import opened MultiIndices
  import opened Meshes
  import opened Partitions
  import opened PartitionLists
  import opened CachedPartitionLists

  // PartitionIteratorType
  const InteriorPartition: int := 0
  const InteriorBorderPartition: int := 1
  const OverlapPartition: int := 2
  const OverlapFrontPartition: int := 3
  const AllPartition: int := 4
  const GhostPartition: int := 5

  /** Dune's PartitionType of an entity. */
  datatype EntityPartition = InteriorEntity | BorderEntity | OverlapEntity | FrontEntity | GhostEntity

  predicate SameDim(local: Mesh, global: Mesh)
  {
    ValidMesh(|local.begin|, local) && ValidMesh(|local.begin|, global)
  }

  // ---------------------------------------------------------------------
  // closedPartition and openPartition
  // ---------------------------------------------------------------------

  /** Axis i is periodic and the local mesh spans the global mesh along it. */
  predicate SelfNeighbored(local: Mesh, global: Mesh, periodic: nat, i: nat)
    requires SameDim(local, global) && i < |local.begin|
  {
    Bit(periodic, i) == 1 && local.begin[i] == global.begin[i] && local.end[i] == global.end[i]
  }

  /** The self-neighbour loop over the axes below n: both faces of such an axis get the partition's own number. */
  function WithSelfNeighbors(p: Partition, local: Mesh, global: Mesh, periodic: nat, n: nat): (q: Partition)
    requires SameDim(local, global) && ValidPartition(|local.begin|, p) && n <= |local.begin|
    ensures q.base == p.base && q.number == p.number && q.boundary == p.boundary
    ensures |q.neighbor| == |p.neighbor|
  {
    if n == 0 then p
    else
      var q := WithSelfNeighbors(p, local, global, periodic, n - 1);
      var i := n - 1;
      if SelfNeighbored(local, global, periodic, i) then
        SetNeighbor(SetNeighbor(q, 2 * i, p.number), 2 * i + 1, p.number)
      else q
  }

  /** `closedPartition(localMesh, number)`. */
  function ClosedPartition(local: Mesh, global: Mesh, periodic: nat, number: nat): (r: Partition)
    requires SameDim(local, global)
    ensures ValidPartition(|local.begin|, r) && r.number == number
  {
    var p := PartitionInMesh(Scale(local.begin, 2), Scale(local.end, 2), global, number);
    WithSelfNeighbors(p, local, global, periodic, |local.begin|)
  }

  /** The bounds of `openPartition`: a face not on the global boundary moves inwards by one. */
  function OpenBegin(local: Mesh, global: Mesh): (b: MultiIndex)
    requires SameDim(local, global)
    ensures |b| == |local.begin|
  {
    seq(|local.begin|, i requires 0 <= i < |local.begin| =>
      2 * local.begin[i] + (if local.begin[i] != global.begin[i] then 1 else 0))
  }

  function OpenEnd(local: Mesh, global: Mesh): (e: MultiIndex)
    requires SameDim(local, global)
    ensures |e| == |local.begin|
  {
    seq(|local.begin|, i requires 0 <= i < |local.begin| =>
      2 * local.end[i] - (if local.end[i] != global.end[i] then 1 else 0))
  }

  /** `openPartition(localMesh, number)`. */
  function OpenPartition(local: Mesh, global: Mesh, periodic: nat, number: nat): (r: Partition)
    requires SameDim(local, global)
    ensures ValidPartition(|local.begin|, r) && r.number == number
  {
    var p := PartitionInMesh(OpenBegin(local, global), OpenEnd(local, global), global, number);
    WithSelfNeighbors(p, local, global, periodic, |local.begin|)
  }

  // Properties of the open and closed partitions

  /** After the self-neighbour loop over n axes, a face keeps its neighbour unless its axis is self-neighboured. */
  lemma {:induction false} SelfNeighborFaces(p: Partition, local: Mesh, global: Mesh, periodic: nat, n: nat, f: nat)
    requires SameDim(local, global) && ValidPartition(|local.begin|, p) && n <= |local.begin|
    requires f < 2 * |local.begin|
    ensures WithSelfNeighbors(p, local, global, periodic, n).neighbor[f] ==
      if f / 2 < n && SelfNeighbored(local, global, periodic, f / 2) then p.number else p.neighbor[f]
  {
    if n > 0 {
      SelfNeighborFaces(p, local, global, periodic, n - 1, f);
    }
  }

  /**
   * A face is a boundary face exactly when the local mesh reaches the global
   * boundary there; both faces of a periodic axis spanned by the local mesh
   * have the partition itself as neighbour, and every other face has none.
   */
  predicate FacesAgree(p: Partition, local: Mesh, global: Mesh, periodic: nat, i: nat)
    requires SameDim(local, global) && i < |local.begin| && ValidPartition(|local.begin|, p)
  {
    (Boundary(p, 2 * i) <==> local.begin[i] == global.begin[i])
    && (Boundary(p, 2 * i + 1) <==> local.end[i] == global.end[i])
    && Neighbor(p, 2 * i) == Neighbor(p, 2 * i + 1)
    && Neighbor(p, 2 * i) == (if SelfNeighbored(local, global, periodic, i) then p.number else MaxUnsigned)
  }

  lemma {:induction false} PartitionFaces(local: Mesh, global: Mesh, periodic: nat, number: nat, i: nat)
    requires SameDim(local, global) && i < |local.begin|
    ensures FacesAgree(ClosedPartition(local, global, periodic, number), local, global, periodic, i)
    ensures FacesAgree(OpenPartition(local, global, periodic, number), local, global, periodic, i)
  {
    var dim := |local.begin|;
    var closed0 := PartitionInMesh(Scale(local.begin, 2), Scale(local.end, 2), global, number);
    var open0 := PartitionInMesh(OpenBegin(local, global), OpenEnd(local, global), global, number);
    PartitionInMeshFaces(Scale(local.begin, 2), Scale(local.end, 2), global, number, i);
    PartitionInMeshFaces(OpenBegin(local, global), OpenEnd(local, global), global, number, i);
    assert (2 * i) / 2 == i && (2 * i + 1) / 2 == i;
    assert OpenBegin(local, global)[i] == 2 * global.begin[i] <==> local.begin[i] == global.begin[i];
    assert OpenEnd(local, global)[i] == 2 * global.end[i] <==> local.end[i] == global.end[i];
    SelfNeighborFaces(closed0, local, global, periodic, dim, 2 * i);
    SelfNeighborFaces(closed0, local, global, periodic, dim, 2 * i + 1);
    SelfNeighborFaces(open0, local, global, periodic, dim, 2 * i);
    SelfNeighborFaces(open0, local, global, periodic, dim, 2 * i + 1);
  }

  /** The open partition lies inside the closed one. */
  lemma {:induction false} OpenInClosed(local: Mesh, global: Mesh, periodic: nat, number: nat, id: MultiIndex)
    requires SameDim(local, global) && |id| == |local.begin|
    ensures Contains(OpenPartition(local, global, periodic, number).base, id) ==>
      Contains(ClosedPartition(local, global, periodic, number).base, id)
  {
    forall i | 0 <= i < |id| {
      OpenBounds(local, global, periodic, number, i);
    }
  }

  /** The open partition's bounds lie within the closed partition's, by one at most. */
  lemma {:induction false} OpenBounds(local: Mesh, global: Mesh, periodic: nat, number: nat, i: nat)
    requires SameDim(local, global) && i < |local.begin|
    ensures var o := OpenPartition(local, global, periodic, number).base;
      var c := ClosedPartition(local, global, periodic, number).base;
      c.begin[i] == 2 * local.begin[i] && c.end[i] == 2 * local.end[i]
      && o.begin[i] == c.begin[i] + (if local.begin[i] == global.begin[i] then 0 else 1)
      && o.end[i] == c.end[i] - (if local.end[i] == global.end[i] then 0 else 1)
  {
  }

  /** The self-neighbour loop. */
  method AddSelfNeighbors(p: Partition, local: Mesh, global: Mesh, periodic: nat) returns (q: Partition)
    requires SameDim(local, global) && ValidPartition(|local.begin|, p)
    ensures q == WithSelfNeighbors(p, local, global, periodic, |local.begin|)
  {
    q := p;
    for i := 0 to |local.begin|
      invariant q == WithSelfNeighbors(p, local, global, periodic, i)
    {
      if Bit(periodic, i) == 0 {
        continue;
      }
      if local.begin[i] == global.begin[i] && local.end[i] == global.end[i] {
        q := SetNeighbor(SetNeighbor(q, 2 * i, p.number), 2 * i + 1, p.number);
      }
    }
  }

  /** `closedPartition`: the partition [2 lbegin, 2 lend] in the global mesh, then the self-neighbours. */
  method MakeClosedPartition(local: Mesh, global: Mesh, periodic: nat, number: nat) returns (p: Partition)
    requires SameDim(local, global)
    ensures p == ClosedPartition(local, global, periodic, number)
  {
    var begin := Scale(local.begin, 2);
    var end := Scale(local.end, 2);
    p := MakePartitionInMesh(begin, end, global, number);
    p := AddSelfNeighbors(p, local, global, periodic);
  }

  /** `openPartition`: the bounds axis by axis, then the partition and its self-neighbours. */
  method MakeOpenPartition(local: Mesh, global: Mesh, periodic: nat, number: nat) returns (p: Partition)
    requires SameDim(local, global)
    ensures p == OpenPartition(local, global, periodic, number)
  {
    var dim := |local.begin|;
    var begin := Zeros(dim);
    var end := Zeros(dim);
    for i := 0 to dim
      invariant |begin| == |end| == dim
      invariant forall k :: 0 <= k < i ==> begin[k] == OpenBegin(local, global)[k] && end[k] == OpenEnd(local, global)[k]
    {
      begin := begin[i := 2 * local.begin[i] + (if local.begin[i] != global.begin[i] then 1 else 0)];
      end := end[i := 2 * local.end[i] - (if local.end[i] != global.end[i] then 1 else 0)];
    }
    assert begin == OpenBegin(local, global) && end == OpenEnd(local, global);
    p := MakePartitionInMesh(begin, end, global, number);
    p := AddSelfNeighbors(p, local, global, periodic);
  }

  // ---------------------------------------------------------------------
  // The axes to split in the overlap
  // ---------------------------------------------------------------------

  /** The overlap mesh, the shifts and the split axes after some axes have been looked at. */
  datatype SplitState = SplitState(mesh: Mesh, shifts: seq<int>, dirs: seq<nat>)

  /** The shift that moves an overlap sticking out of the global mesh on axis i back across it. */
  function WrapShift(om: Mesh, global: Mesh, i: nat): int
    requires SameDim(om, global) && i < |om.begin|
  {
    var gw := global.end[i] - global.begin[i];
    (if om.begin[i] < global.begin[i] then gw else 0) - (if om.end[i] > global.end[i] then gw else 0)
  }

  /** Axis i is periodic, the overlap does not cover the global mesh along it, and it sticks out on one side. */
  predicate Wraps(om: Mesh, global: Mesh, periodic: nat, i: nat)
    requires SameDim(om, global) && i < |om.begin|
  {
    Bit(periodic, i) == 1 && om.end[i] - om.begin[i] < global.end[i] - global.begin[i]
    && WrapShift(om, global, i) != 0
  }

  /** Axis i is periodic and the overlap covers the global mesh along it. */
  predicate Spans(om: Mesh, global: Mesh, periodic: nat, i: nat)
    requires SameDim(om, global) && i < |om.begin|
  {
    Bit(periodic, i) == 1 && om.end[i] - om.begin[i] >= global.end[i] - global.begin[i]
  }

  /** One pass of the split loop; ow is the overlap width taken before the loop. */
  function SplitStep(st: SplitState, global: Mesh, periodic: nat, ow: MultiIndex, i: nat): (r: SplitState)
    requires SameDim(st.mesh, global) && |ow| == |global.begin| && i < |ow|
    requires AxesIn(|ow|, st.shifts, st.dirs)
    ensures SameDim(r.mesh, global) && |r.mesh.begin| == |st.mesh.begin|
    ensures AxesIn(|ow|, r.shifts, r.dirs)
  {
    if Bit(periodic, i) == 0 then st
    else if ow[i] >= global.end[i] - global.begin[i] then
      st.(mesh := Mesh(st.mesh.begin[i := global.begin[i]], st.mesh.end[i := global.end[i]]))
    else
      var shift := WrapShift(st.mesh, global, i);
      if shift != 0 then st.(shifts := st.shifts + [shift], dirs := st.dirs + [i]) else st
  }

  /** The split loop over the axes below n, starting from the grown local mesh om. */
  function SplitAxes(om: Mesh, global: Mesh, periodic: nat, n: nat): (r: SplitState)
    requires SameDim(om, global) && n <= |om.begin|
    ensures SameDim(r.mesh, global) && |r.mesh.begin| == |om.begin|
    ensures AxesIn(|om.begin|, r.shifts, r.dirs)
  {
    if n == 0 then SplitState(om, [], [])
    else SplitStep(SplitAxes(om, global, periodic, n - 1), global, periodic, Meshes.Widths(om), n - 1)
  }

  /** The split axes are increasing and in range, each a wrapping axis with its shift, and no wrapping axis is missed. */
  predicate SplitDirs(om: Mesh, global: Mesh, periodic: nat, n: nat, st: SplitState)
    requires SameDim(om, global) && n <= |om.begin|
  {
    |st.shifts| == |st.dirs| <= n
    && (forall k :: 0 <= k < |st.dirs| ==> st.dirs[k] < n)
    && (forall k, l :: 0 <= k < l < |st.dirs| ==> st.dirs[k] < st.dirs[l])
    && (forall k :: 0 <= k < |st.dirs| ==>
          Wraps(om, global, periodic, st.dirs[k]) && st.shifts[k] == WrapShift(om, global, st.dirs[k]))
    && (forall i :: 0 <= i < n && Wraps(om, global, periodic, i) ==> i in st.dirs)
  }

  /** The overlap mesh takes the global bounds on the spanned axes below n and keeps its own elsewhere. */
  predicate SplitMesh(om: Mesh, global: Mesh, periodic: nat, n: nat, st: SplitState)
    requires SameDim(om, global) && n <= |om.begin| && SameDim(st.mesh, global)
  {
    forall i :: 0 <= i < |om.begin| ==>
      if i < n && Spans(om, global, periodic, i) then
        st.mesh.begin[i] == global.begin[i] && st.mesh.end[i] == global.end[i]
      else st.mesh.begin[i] == om.begin[i] && st.mesh.end[i] == om.end[i]
  }

  lemma {:induction false} SplitAxesMesh(om: Mesh, global: Mesh, periodic: nat, n: nat)
    requires SameDim(om, global) && n <= |om.begin|
    ensures SplitMesh(om, global, periodic, n, SplitAxes(om, global, periodic, n))
  {
    if n > 0 {
      SplitAxesMesh(om, global, periodic, n - 1);
      SplitMeshStep(om, global, periodic, n, SplitAxes(om, global, periodic, n - 1));
    }
  }

  /** Pass n - 1 of the split loop changes the overlap mesh on axis n - 1 only, and only if that axis spans. */
  lemma {:induction false} SplitMeshStep(om: Mesh, global: Mesh, periodic: nat, n: nat, st: SplitState)
    requires SameDim(om, global) && 0 < n <= |om.begin|
    requires SameDim(st.mesh, global) && |st.mesh.begin| == |om.begin| && AxesIn(|om.begin|, st.shifts, st.dirs)
    requires SplitMesh(om, global, periodic, n - 1, st)
    ensures SplitMesh(om, global, periodic, n, SplitStep(st, global, periodic, Meshes.Widths(om), n - 1))
  {
    var r := SplitStep(st, global, periodic, Meshes.Widths(om), n - 1);
    var j := n - 1;
    assert Meshes.Widths(om)[j] == om.end[j] - om.begin[j];
    forall i | 0 <= i < |om.begin| && i != j
      ensures r.mesh.begin[i] == st.mesh.begin[i] && r.mesh.end[i] == st.mesh.end[i]
    {
    }
  }

  /** A wrapping axis n - 1 is appended to the split axes found below it. */
  lemma {:induction false} DirsExtend(om: Mesh, global: Mesh, periodic: nat, n: nat, st: SplitState, r: SplitState)
    requires SameDim(om, global) && 0 < n <= |om.begin|
    requires SplitDirs(om, global, periodic, n - 1, st) && Wraps(om, global, periodic, n - 1)
    requires r.dirs == st.dirs + [n - 1] && r.shifts == st.shifts + [WrapShift(om, global, n - 1)]
    ensures SplitDirs(om, global, periodic, n, r)
  {
    assert r.dirs[|st.dirs|] == n - 1;
    assert forall k :: 0 <= k < |st.dirs| ==> r.dirs[k] == st.dirs[k] && r.shifts[k] == st.shifts[k];
  }

  /** An axis n - 1 that does not wrap leaves the split axes as they are. */
  lemma {:induction false} DirsKeep(om: Mesh, global: Mesh, periodic: nat, n: nat, st: SplitState, r: SplitState)
    requires SameDim(om, global) && 0 < n <= |om.begin|
    requires SplitDirs(om, global, periodic, n - 1, st) && !Wraps(om, global, periodic, n - 1)
    requires r.dirs == st.dirs && r.shifts == st.shifts
    ensures SplitDirs(om, global, periodic, n, r)
  {
  }

  /** The split loop finds exactly the wrapping axes, in increasing order, and covers the spanned ones. */
  lemma {:induction false} SplitAxesFacts(om: Mesh, global: Mesh, periodic: nat, n: nat)
    requires SameDim(om, global) && n <= |om.begin|
    ensures SplitDirs(om, global, periodic, n, SplitAxes(om, global, periodic, n))
    ensures SplitMesh(om, global, periodic, n, SplitAxes(om, global, periodic, n))
  {
    SplitAxesMesh(om, global, periodic, n);
    if n > 0 {
      SplitAxesFacts(om, global, periodic, n - 1);
      var st := SplitAxes(om, global, periodic, n - 1);
      var r := SplitAxes(om, global, periodic, n);
      var i := n - 1;
      assert st.mesh.begin[i] == om.begin[i] && st.mesh.end[i] == om.end[i];
      assert WrapShift(st.mesh, global, i) == WrapShift(om, global, i);
      if Wraps(om, global, periodic, i) {
        DirsExtend(om, global, periodic, n, st, r);
      } else {
        DirsKeep(om, global, periodic, n, st, r);
      }
    }
  }

  /** One pass of the split loop on axis i; the kept shifts and axes are shift[..n] and dir[..n]. */
  method SplitAxis(global: Mesh, periodic: nat, globalWidth: MultiIndex, overlapWidth: MultiIndex,
                   mesh: Mesh, shift: array<int>, dir: array<nat>, n: nat, i: nat) returns (next: Mesh, count: nat)
    requires SameDim(mesh, global) && globalWidth == Meshes.Widths(global)
    requires n <= i < |overlapWidth| == |global.begin| == shift.Length == dir.Length
    requires AxesIn(|overlapWidth|, shift[..n], dir[..n])
    modifies shift, dir
    ensures count <= i + 1
    ensures SplitState(next, shift[..count], dir[..count])
      == SplitStep(SplitState(mesh, old(shift[..n]), old(dir[..n])), global, periodic, overlapWidth, i)
  {
    next, count := mesh, n;
    if Bit(periodic, i) == 0 {
      return;
    }
    if overlapWidth[i] >= globalWidth[i] {
      var begin := mesh.begin[i := global.begin[i]];
      var end := mesh.end[i := global.end[i]];
      next := Mesh(begin, end);
      return;
    }
    // shift[n] is built in a local and stored once it is known to be kept
    var s := 0;
    if mesh.begin[i] < global.begin[i] {
      s := s + globalWidth[i];
    }
    if mesh.end[i] > global.end[i] {
      s := s - globalWidth[i];
    }
    assert s == WrapShift(mesh, global, i);
    if s != 0 {
      shift[n] := s;
      dir[n] := i;
      assert shift[..n + 1] == old(shift[..n]) + [s];
      assert dir[..n + 1] == old(dir[..n]) + [i];
      count := n + 1;
    }
  }

  /** The split loop: the wide axes are set to the global bounds and the wrapping ones recorded in shift and dir. */
  method SplitOverlap(om: Mesh, global: Mesh, periodic: nat) returns (mesh: Mesh, shifts: seq<int>, dirs: seq<nat>)
    requires SameDim(om, global)
    ensures SplitState(mesh, shifts, dirs) == SplitAxes(om, global, periodic, |om.begin|)
  {
    var dim := |om.begin|;
    var globalWidth := Meshes.Width(global);
    var overlapWidth := Meshes.Width(om);
    var shift := new int[dim];
    var dir := new nat[dim];
    var n: nat := 0;
    mesh := om;
    for i := 0 to dim
      invariant n <= i
      invariant SplitState(mesh, shift[..n], dir[..n]) == SplitAxes(om, global, periodic, i)
    {
      mesh, n := SplitAxis(global, periodic, globalWidth, overlapWidth, mesh, shift, dir, n, i);
    }
    shifts, dirs := shift[..n], dir[..n];
  }

  // ---------------------------------------------------------------------
  // The overlap pieces
  // ---------------------------------------------------------------------

  predicate AxesIn(dim: nat, shifts: seq<int>, dirs: seq<nat>)
  {
    |shifts| == |dirs| && forall k :: 0 <= k < |dirs| ==> dirs[k] < dim
  }

  /** The shift of piece d after k split axes: `s[dir[i]] = ((d >> i) & 1) * shift[i]`. */
  function PieceShift(dim: nat, shifts: seq<int>, dirs: seq<nat>, d: nat, k: nat): (s: MultiIndex)
    requires AxesIn(dim, shifts, dirs) && k <= |dirs|
    ensures |s| == dim
  {
    if k == 0 then Zeros(dim)
    else PieceShift(dim, shifts, dirs, d, k - 1)[dirs[k - 1] := Bit(d, k - 1) * shifts[k - 1]]
  }

  /** The mesh of piece d: the overlap mesh shifted by the piece's shift, cut to the global mesh. */
  function PieceMesh(global: Mesh, st: SplitState, d: nat): (m: Mesh)
    requires SameDim(st.mesh, global) && AxesIn(|global.begin|, st.shifts, st.dirs)
    ensures SameDim(m, global) && |m.begin| == |global.begin|
  {
    Intersection(global, Shifted(st.mesh, PieceShift(|global.begin|, st.shifts, st.dirs, d, |st.dirs|)))
  }

  /** `(shift[k] < 0) ^ ((d >> k) & 1)`: the side of split axis k on which piece d meets its partner. */
  function PieceSide(shifts: seq<int>, d: nat, k: nat): (j: nat)
    requires k < |shifts|
    ensures j <= 1
  {
    ((if shifts[k] < 0 then 1 else 0) + Bit(d, k)) % 2
  }

  /** The face across which piece d meets its partner on split k: the side j of axis dirs[k]. */
  function OverlapNeighborFace(dirs: seq<nat>, k: nat, j: nat): (face: nat)
    requires k < |dirs| && j <= 1
    ensures face / 2 == dirs[k] && face % 2 == j
  {
    2 * dirs[k] + j
  }

  /** The face as the source writes it, `2*i + j`, where i counts the split axes rather than naming one. */
  function OverlapNeighborFaceAsWritten(k: nat, j: nat): (face: nat)
    requires j <= 1
    ensures face / 2 == k && face % 2 == j
  {
    2 * k + j
  }

  /** The neighbour loop over the splits below k: piece d ^ (1 << i) across the face of split i. */
  function WithPieceNeighbors(p: Partition, shifts: seq<int>, dirs: seq<nat>, d: nat, k: nat): (q: Partition)
    requires AxesIn(|p.neighbor| / 2, shifts, dirs) && |p.neighbor| % 2 == 0 && k <= |dirs|
    ensures q.base == p.base && q.number == p.number && q.boundary == p.boundary
    ensures |q.neighbor| == |p.neighbor|
  {
    if k == 0 then p
    else
      var q := WithPieceNeighbors(p, shifts, dirs, d, k - 1);
      SetNeighbor(q, OverlapNeighborFace(dirs, k - 1, PieceSide(shifts, d, k - 1)), Toggle(d, k - 1))
  }

  /** Piece d of the overlap (open) or overlap-front (closed) list. */
  function OverlapPiece(open: bool, global: Mesh, periodic: nat, st: SplitState, d: nat): (p: Partition)
    requires SameDim(st.mesh, global) && AxesIn(|global.begin|, st.shifts, st.dirs)
    ensures ValidPartition(|global.begin|, p) && p.number == d
  {
    var m := PieceMesh(global, st, d);
    var p := if open then OpenPartition(m, global, periodic, d) else ClosedPartition(m, global, periodic, d);
    assert |p.neighbor| / 2 == |global.begin|;
    WithPieceNeighbors(p, st.shifts, st.dirs, d, |st.dirs|)
  }

  /** The overlap (open) or overlap-front (closed) list: the pieces 0 .. 2^n - 1. */
  function Pieces(open: bool, global: Mesh, periodic: nat, st: SplitState): (ps: seq<Partition>)
    requires SameDim(st.mesh, global) && AxesIn(|global.begin|, st.shifts, st.dirs)
    ensures |ps| == Pow2(|st.dirs|)
    ensures forall d :: 0 <= d < |ps| ==> ps[d] == OverlapPiece(open, global, periodic, st, d)
  {
    seq(Pow2(|st.dirs|), d requires 0 <= d => OverlapPiece(open, global, periodic, st, d))
  }

  // Properties of the pieces

  /** The face of split k is set to d ^ (1 << k) and no later split overwrites it, as the axes differ. */
  lemma {:induction false} PieceNeighborFace(p: Partition, shifts: seq<int>, dirs: seq<nat>, d: nat, k: nat, n: nat)
    requires AxesIn(|p.neighbor| / 2, shifts, dirs) && |p.neighbor| % 2 == 0 && k < n <= |dirs|
    requires forall a, b :: 0 <= a < b < |dirs| ==> dirs[a] < dirs[b]
    ensures WithPieceNeighbors(p, shifts, dirs, d, n).neighbor[OverlapNeighborFace(dirs, k, PieceSide(shifts, d, k))] == Toggle(d, k)
  {
    if k < n - 1 {
      PieceNeighborFace(p, shifts, dirs, d, k, n - 1);
    }
  }

  lemma {:induction false} ToggleTwice(d: nat, k: nat)
    ensures Toggle(Toggle(d, k), k) == d
  {
    ToggleBits(d, k, k);
  }

  /** Piece x has piece x ^ (1 << k) as neighbour across the face of split k. */
  lemma {:induction false} PieceLink(open: bool, global: Mesh, periodic: nat, st: SplitState, x: nat, k: nat)
    requires SameDim(st.mesh, global) && AxesIn(|global.begin|, st.shifts, st.dirs) && k < |st.dirs|
    requires forall a, b :: 0 <= a < b < |st.dirs| ==> st.dirs[a] < st.dirs[b]
    ensures Neighbor(OverlapPiece(open, global, periodic, st, x), OverlapNeighborFace(st.dirs, k, PieceSide(st.shifts, x, k))) == Toggle(x, k)
  {
    var m := PieceMesh(global, st, x);
    var p := if open then OpenPartition(m, global, periodic, x) else ClosedPartition(m, global, periodic, x);
    assert |p.neighbor| / 2 == |global.begin|;
    PieceNeighborFace(p, st.shifts, st.dirs, x, k, |st.dirs|);
  }

  /**
   * The pieces are linked in pairs: piece d meets piece e = d ^ (1 << k)
   * across one face of split axis dirs[k], and piece e meets d across the
   * opposite face of the same axis.
   */
  lemma {:induction false} OverlapNeighborsSymmetric(open: bool, global: Mesh, periodic: nat, st: SplitState, d: nat, k: nat)
    requires SameDim(st.mesh, global) && AxesIn(|global.begin|, st.shifts, st.dirs)
    requires forall a, b :: 0 <= a < b < |st.dirs| ==> st.dirs[a] < st.dirs[b]
    requires k < |st.dirs| && d < Pow2(|st.dirs|)
    ensures Toggle(d, k) < Pow2(|st.dirs|) && Toggle(Toggle(d, k), k) == d
    ensures PieceSide(st.shifts, Toggle(d, k), k) == 1 - PieceSide(st.shifts, d, k)
    ensures Neighbor(OverlapPiece(open, global, periodic, st, d), OverlapNeighborFace(st.dirs, k, PieceSide(st.shifts, d, k))) == Toggle(d, k)
    ensures Neighbor(OverlapPiece(open, global, periodic, st, Toggle(d, k)), OverlapNeighborFace(st.dirs, k, 1 - PieceSide(st.shifts, d, k))) == d
  {
    var e := Toggle(d, k);
    ToggleBound(d, k, |st.dirs|);
    ToggleTwice(d, k);
    PartnerSide(st.shifts, d, k);
    PieceLink(open, global, periodic, st, d, k);
    PieceLink(open, global, periodic, st, e, k);
  }

  /** The partner piece lies on the other side of the split. */
  lemma {:induction false} PartnerSide(shifts: seq<int>, d: nat, k: nat)
    requires k < |shifts|
    ensures PieceSide(shifts, Toggle(d, k), k) == 1 - PieceSide(shifts, d, k)
  {
    ToggleBits(d, k, k);
  }

  // ---------------------------------------------------------------------
  // Finding: the neighbour face of the overlap pieces
  // ---------------------------------------------------------------------

  /**
   * A two-dimensional grid, periodic along axis 1 only, whose overlap wraps
   * along axis 1: the split list is [1], so the face the source writes,
   * 2*0 + j, lies on axis 0, the axis that is neither periodic nor split.
   */
  lemma {:induction false} AsWrittenFaceMissesSplitAxis(j: nat)
    requires j <= 1
    ensures var global := Mesh([0, 0], [4, 4]);
      var om := Grown(Mesh([0, 0], [4, 1]), [0, 1]);
      var st := SplitAxes(om, global, 2, 2);
      st.dirs == [1] && OverlapNeighborFaceAsWritten(0, j) / 2 == 0
      && OverlapNeighborFace(st.dirs, 0, j) / 2 == 1 && Bit(2, 0) == 0
  {
    var global := Mesh([0, 0], [4, 4]);
    var om := Grown(Mesh([0, 0], [4, 1]), [0, 1]);
    assert om == Mesh([0, -1], [4, 2]);
    assert Bit(2, 0) == 0 && Bit(2, 1) == 1;
    var st0 := SplitAxes(om, global, 2, 0);
    var st1 := SplitAxes(om, global, 2, 1);
    assert st1 == st0;
    assert Meshes.Widths(om)[1] == 3;
    assert WrapShift(st1.mesh, global, 1) == 4;
  }

  /** The neighbour loop as the source writes it: split i sets face `2*i + j`, whatever axis it split. */
  function WithPieceNeighborsAsWritten(p: Partition, shifts: seq<int>, d: nat, k: nat): (q: Partition)
    requires |shifts| <= |p.neighbor| / 2 && |p.neighbor| % 2 == 0 && k <= |shifts|
    ensures q.base == p.base && q.number == p.number && q.boundary == p.boundary
    ensures |q.neighbor| == |p.neighbor|
    ensures forall f :: 0 <= f < |p.neighbor| && f / 2 >= k ==> q.neighbor[f] == p.neighbor[f]
  {
    if k == 0 then p
    else
      var q := WithPieceNeighborsAsWritten(p, shifts, d, k - 1);
      SetNeighbor(q, OverlapNeighborFaceAsWritten(k - 1, PieceSide(shifts, d, k - 1)), Toggle(d, k - 1))
  }

  /** Piece d of the overlap or overlap-front list, with the neighbour table as the source writes it. */
  function OverlapPieceAsWritten(open: bool, global: Mesh, periodic: nat, st: SplitState, d: nat): (p: Partition)
    requires SameDim(st.mesh, global) && AxesIn(|global.begin|, st.shifts, st.dirs)
    requires |st.dirs| <= |global.begin|
    ensures ValidPartition(|global.begin|, p) && p.number == d
    ensures forall f :: 0 <= f < 2 * |global.begin| && f / 2 >= |st.dirs| ==>
      p.neighbor[f] == (if open then OpenPartition(PieceMesh(global, st, d), global, periodic, d)
                        else ClosedPartition(PieceMesh(global, st, d), global, periodic, d)).neighbor[f]
  {
    var m := PieceMesh(global, st, d);
    var p := if open then OpenPartition(m, global, periodic, d) else ClosedPartition(m, global, periodic, d);
    assert |p.neighbor| / 2 == |global.begin|;
    WithPieceNeighborsAsWritten(p, st.shifts, d, |st.dirs|)
  }

  /**
   * With the split list [1] in two dimensions, the table as written leaves
   * the face of split axis 1 as the open or closed partition had it: no
   * neighbour, or piece 0 itself, never its partner 0 ^ 1.
   */
  lemma AsWrittenSkipsSplitFace(open: bool, global: Mesh, periodic: nat, st: SplitState)
    requires SameDim(st.mesh, global) && AxesIn(|global.begin|, st.shifts, st.dirs)
    requires |global.begin| == 2 && st.dirs == [1]
    ensures Neighbor(OverlapPieceAsWritten(open, global, periodic, st, 0), OverlapNeighborFace(st.dirs, 0, PieceSide(st.shifts, 0, 0))) != Toggle(0, 0)
  {
    var f := OverlapNeighborFace(st.dirs, 0, PieceSide(st.shifts, 0, 0));
    var m := PieceMesh(global, st, 0);
    var base := if open then PartitionInMesh(OpenBegin(m, global), OpenEnd(m, global), global, 0)
      else PartitionInMesh(Scale(m.begin, 2), Scale(m.end, 2), global, 0);
    SelfNeighborFaces(base, m, global, periodic, 2, f);
    assert Toggle(0, 0) == 1;
  }

  /**
   * On the grid of AsWrittenFaceMissesSplitAxis the table as written breaks
   * the pairing that OverlapNeighborsSymmetric proves for the corrected one.
   */
  lemma AsWrittenNeighborsNotSymmetric(open: bool)
    ensures var global := Mesh([0, 0], [4, 4]);
      var st := SplitAxes(Grown(Mesh([0, 0], [4, 1]), [0, 1]), global, 2, 2);
      st.dirs == [1]
      && Neighbor(OverlapPieceAsWritten(open, global, 2, st, 0), OverlapNeighborFace(st.dirs, 0, PieceSide(st.shifts, 0, 0))) != Toggle(0, 0)
  {
    var global := Mesh([0, 0], [4, 4]);
    var st := SplitAxes(Grown(Mesh([0, 0], [4, 1]), [0, 1]), global, 2, 2);
    AsWrittenFaceMissesSplitAxis(0);
    AsWrittenSkipsSplitFace(open, global, 2, st);
  }

  /** The pieces are numbered 0 .. 2^n - 1, so their numbers are distinct and fit an unsigned int for n < 31. */
  lemma {:induction false} PieceNumbers(open: bool, global: Mesh, periodic: nat, st: SplitState)
    requires SameDim(st.mesh, global) && AxesIn(|global.begin|, st.shifts, st.dirs) && |st.dirs| < 31
    ensures DistinctNumbers(Pieces(open, global, periodic, st)) && UnsignedNumbers(Pieces(open, global, periodic, st))
  {
    Pow2Monotone(|st.dirs|, 31);
    Pow2ThirtyOne();
  }

  /** The inner loop of the pieces: `s[dir[i]] = ((d >> i) & 1) * shift[i]`. */
  method MakePieceShift(dim: nat, shifts: seq<int>, dirs: seq<nat>, d: nat) returns (s: MultiIndex)
    requires AxesIn(dim, shifts, dirs)
    ensures s == PieceShift(dim, shifts, dirs, d, |dirs|)
  {
    s := Zeros(dim);
    for i := 0 to |dirs|
      invariant s == PieceShift(dim, shifts, dirs, d, i)
    {
      s := s[dirs[i] := Bit(d, i) * shifts[i]];
    }
  }

  /** The neighbour loop of piece d, applied to its open and its closed partition together. */
  method LinkPiece(open: Partition, closed: Partition, shifts: seq<int>, dirs: seq<nat>, d: nat)
    returns (linkedOpen: Partition, linkedClosed: Partition)
    requires |open.neighbor| == |closed.neighbor| && |open.neighbor| % 2 == 0
    requires AxesIn(|open.neighbor| / 2, shifts, dirs)
    ensures linkedOpen == WithPieceNeighbors(open, shifts, dirs, d, |dirs|)
    ensures linkedClosed == WithPieceNeighbors(closed, shifts, dirs, d, |dirs|)
  {
    linkedOpen, linkedClosed := open, closed;
    for i := 0 to |dirs|
      invariant linkedOpen == WithPieceNeighbors(open, shifts, dirs, d, i)
      invariant linkedClosed == WithPieceNeighbors(closed, shifts, dirs, d, i)
    {
      var j := ((if shifts[i] < 0 then 1 else 0) + Bit(d, i)) % 2;
      var face := OverlapNeighborFace(dirs, i, j);
      linkedOpen := SetNeighbor(linkedOpen, face, Toggle(d, i));
      linkedClosed := SetNeighbor(linkedClosed, face, Toggle(d, i));
    }
  }

  /** The body of the pieces loop: piece d of both lists. */
  method MakePiece(global: Mesh, periodic: nat, st: SplitState, d: nat) returns (open: Partition, closed: Partition)
    requires SameDim(st.mesh, global) && AxesIn(|global.begin|, st.shifts, st.dirs)
    ensures open == OverlapPiece(true, global, periodic, st, d)
    ensures closed == OverlapPiece(false, global, periodic, st, d)
  {
    var s := MakePieceShift(|global.begin|, st.shifts, st.dirs, d);
    var m := Intersection(global, Shifted(st.mesh, s));
    open := MakeOpenPartition(m, global, periodic, d);
    closed := MakeClosedPartition(m, global, periodic, d);
    open, closed := LinkPiece(open, closed, st.shifts, st.dirs, d);
  }

  /** `updateCache()` on a list whose numbers are distinct unsigned ints and whose bounds have dim axes. */
  method CacheList(l: CachedPartitionList, ghost dim: nat)
    requires DistinctNumbers(l.list.partitions) && UnsignedNumbers(l.list.partitions)
    requires forall k :: 0 <= k < |l.list.partitions| ==> ValidBasic(dim, l.list.partitions[k].base)
    modifies l
    ensures l.Valid() && BasesFit(l, dim) && fresh(l.cache)
  {
    var status := l.UpdateCache();
  }

  /** A fresh cached list holding one partition, its table built. */
  method SingletonList(p: Partition, ghost dim: nat) returns (l: CachedPartitionList)
    requires p.number < MaxUnsigned && ValidBasic(dim, p.base)
    ensures fresh(l) && fresh(l.list) && fresh(l.cache)
    ensures l.list.partitions == [p] && l.Valid() && BasesFit(l, dim)
  {
    l := new CachedPartitionList();
    l.Append(p);
    assert l.list.partitions == [p];
    CacheList(l, dim);
  }

  lemma {:induction false} PrefixStep(ps: seq<Partition>, d: nat)
    requires d < |ps|
    ensures ps[..d + 1] == ps[..d] + [ps[d]]
  {
  }

  /** The pieces loop: piece d of the overlap and of the overlap-front list, d = 0 .. 2^n - 1. */
  method AppendPieces(global: Mesh, periodic: nat, st: SplitState, overlap: PartitionList, front: PartitionList)
    requires SameDim(st.mesh, global) && AxesIn(|global.begin|, st.shifts, st.dirs)
    requires overlap != front && overlap.partitions == [] && front.partitions == []
    modifies overlap, front
    ensures overlap.partitions == Pieces(true, global, periodic, st)
    ensures front.partitions == Pieces(false, global, periodic, st)
  {
    ghost var opens := Pieces(true, global, periodic, st);
    ghost var closeds := Pieces(false, global, periodic, st);
    var size := Pow2(|st.dirs|);
    for d := 0 to size
      invariant overlap.partitions == opens[..d]
      invariant front.partitions == closeds[..d]
    {
      var open, closed := MakePiece(global, periodic, st, d);
      assert open == opens[d] && closed == closeds[d];
      overlap.Append(open);
      front.Append(closed);
      PrefixStep(opens, d);
      PrefixStep(closeds, d);
    }
    assert opens[..size] == opens;
    assert closeds[..size] == closeds;
  }

  /** The bounds of every piece have dim axes. */
  lemma {:induction false} PieceBases(open: bool, global: Mesh, periodic: nat, st: SplitState)
    requires SameDim(st.mesh, global) && AxesIn(|global.begin|, st.shifts, st.dirs)
    ensures forall k :: 0 <= k < |Pieces(open, global, periodic, st)| ==>
      ValidBasic(|global.begin|, Pieces(open, global, periodic, st)[k].base)
  {
  }

  /** The overlap and overlap-front lists with their tables. */
  method MakePieces(global: Mesh, periodic: nat, st: SplitState) returns (overlap: CachedPartitionList, front: CachedPartitionList)
    requires SameDim(st.mesh, global) && AxesIn(|global.begin|, st.shifts, st.dirs) && |st.dirs| < 31
    ensures fresh(overlap) && fresh(overlap.list) && fresh(overlap.cache)
    ensures fresh(front) && fresh(front.list) && fresh(front.cache)
    ensures overlap.list.partitions == Pieces(true, global, periodic, st) && overlap.Valid()
    ensures front.list.partitions == Pieces(false, global, periodic, st) && front.Valid()
    ensures BasesFit(overlap, |global.begin|) && BasesFit(front, |global.begin|)
  {
    overlap := new CachedPartitionList();
    front := new CachedPartitionList();
    AppendPieces(global, periodic, st, overlap.list, front.list);
    PieceNumbers(true, global, periodic, st);
    PieceNumbers(false, global, periodic, st);
    PieceBases(true, global, periodic, st);
    PieceBases(false, global, periodic, st);
    CacheList(overlap, |global.begin|);
    CacheList(front, |global.begin|);
  }

  // ---------------------------------------------------------------------
  // SPPartitionPool
  // ---------------------------------------------------------------------

  /** The split state of a pool: the split loop run over the local mesh grown by the overlap. */
  function PoolSplit(local: Mesh, global: Mesh, overlap: MultiIndex, periodic: nat): (st: SplitState)
    requires SameDim(local, global) && |overlap| == |local.begin|
    ensures SameDim(st.mesh, global) && AxesIn(|global.begin|, st.shifts, st.dirs)
  {
    SplitAxes(Grown(local, overlap), global, periodic, |local.begin|)
  }

  /** The six lists of a pool, in PartitionIteratorType order. */
  function PoolContents(local: Mesh, global: Mesh, overlap: MultiIndex, periodic: nat): (c: seq<seq<Partition>>)
    requires SameDim(local, global) && |overlap| == |local.begin|
    ensures |c| == 6
  {
    var st := PoolSplit(local, global, overlap, periodic);
    [ [OpenPartition(local, global, periodic, 0)],
      [ClosedPartition(local, global, periodic, 0)],
      Pieces(true, global, periodic, st),
      Pieces(false, global, periodic, st),
      Pieces(false, global, periodic, st),
      [] ]
  }

  /** Every partition of the six lists of a pool has dim-dimensional bounds. */
  lemma {:induction false} PoolContentsFit(local: Mesh, global: Mesh, overlap: MultiIndex, periodic: nat)
    requires SameDim(local, global) && |overlap| == |local.begin|
    ensures ListsFit(PoolContents(local, global, overlap, periodic), |global.begin|)
  {
    var st := PoolSplit(local, global, overlap, periodic);
    PieceBases(true, global, periodic, st);
    PieceBases(false, global, periodic, st);
  }

  /** Without periodic axes the split loop keeps the overlap mesh and splits no axis. */
  lemma {:induction false} NoPeriodicNoSplit(om: Mesh, global: Mesh, n: nat)
    requires SameDim(om, global) && n <= |om.begin|
    ensures SplitAxes(om, global, 0, n) == SplitState(om, [], [])
  {
    if n > 0 {
      NoPeriodicNoSplit(om, global, n - 1);
      ZeroBits(n - 1);
    }
  }

  /** The local mesh lies inside the global one on every axis. */
  predicate Inside(local: Mesh, global: Mesh)
    requires SameDim(local, global)
  {
    forall i :: 0 <= i < |local.begin| ==> global.begin[i] <= local.begin[i] && local.end[i] <= global.end[i]
  }

  /**
   * A pool built without overlap and without periodic axes, as every grid
   * level builds its own: there is one overlap piece, the local mesh
   * itself, so the overlap list is the interior list and the overlap-front
   * and all lists are the interior-border list.
   */
  lemma {:induction false} PoolWithoutOverlap(local: Mesh, global: Mesh)
    requires SameDim(local, global) && Inside(local, global)
    ensures ghost var c := PoolContents(local, global, Zeros(|local.begin|), 0);
      c[OverlapPartition] == c[InteriorPartition]
      && c[OverlapFrontPartition] == c[InteriorBorderPartition] && c[AllPartition] == c[InteriorBorderPartition]
  {
    var st := SplitState(local, [], []);
    NoOverlapSplit(local, global);
    NoOverlapPiece(local, global);
    assert Pieces(true, global, 0, st) == [OpenPartition(local, global, 0, 0)];
    assert Pieces(false, global, 0, st) == [ClosedPartition(local, global, 0, 0)];
  }

  /** Without overlap and periodic axes the split loop keeps the local mesh itself and splits no axis. */
  lemma {:induction false} NoOverlapSplit(local: Mesh, global: Mesh)
    requires SameDim(local, global)
    ensures PoolSplit(local, global, Zeros(|local.begin|), 0) == SplitState(local, [], [])
  {
    var dim := |local.begin|;
    var om := Grown(local, Zeros(dim));
    assert om.begin == local.begin && om.end == local.end;
    assert om == local;
    NoPeriodicNoSplit(local, global, dim);
  }

  /** The one piece of an unsplit local mesh inside the global one is that mesh. */
  lemma {:induction false} NoOverlapPiece(local: Mesh, global: Mesh)
    requires SameDim(local, global) && Inside(local, global)
    ensures PieceMesh(global, SplitState(local, [], []), 0) == local
  {
    var dim := |local.begin|;
    var m := PieceMesh(global, SplitState(local, [], []), 0);
    assert Shifted(local, Zeros(dim)) == local by {
      assert Add(local.begin, Zeros(dim)) == local.begin;
      assert Add(local.end, Zeros(dim)) == local.end;
    }
    assert forall i :: 0 <= i < dim ==> m.begin[i] == local.begin[i] && m.end[i] == local.end[i];
    assert m.begin == local.begin && m.end == local.end;
  }

  /** Six lists whose partitions all have dim-dimensional bounds. */
  predicate ListsFit(c: seq<seq<Partition>>, dim: nat)
  {
    |c| == 6 && forall t, k :: 0 <= t < 6 && 0 <= k < |c[t]| ==> ValidBasic(dim, c[t][k].base)
  }

  /** Every partition of the list has dim-dimensional bounds. */
  predicate BasesFit(l: CachedPartitionList, dim: nat)
    reads l, l.list
  {
    forall k :: 0 <= k < |l.list.partitions| ==> ValidBasic(dim, l.list.partitions[k].base)
  }

  /** A piece of the overlap list lies inside the same piece of the overlap-front list. */
  lemma {:induction false} OverlapInFront(global: Mesh, periodic: nat, st: SplitState, d: nat, id: MultiIndex)
    requires SameDim(st.mesh, global) && AxesIn(|global.begin|, st.shifts, st.dirs) && |id| == |global.begin|
    ensures Contains(OverlapPiece(true, global, periodic, st, d).base, id) ==>
      Contains(OverlapPiece(false, global, periodic, st, d).base, id)
  {
    OpenInClosed(PieceMesh(global, st, d), global, periodic, d, id);
  }

  /** A one-partition list holds (id, number) exactly when its partition does. */
  lemma {:induction false} SingletonListed(p: Partition, id: MultiIndex, number: nat)
    requires ValidBasic(|id|, p.base)
    ensures (exists k :: 0 <= k < |[p]| && [p][k].number == number && Contains([p][k].base, id)) <==>
      p.number == number && Contains(p.base, id)
  {
    if p.number == number && Contains(p.base, id) {
      assert [p][0] == p;
    }
  }

  /** The pieces hold (id, number) exactly when piece number exists and contains id. */
  lemma {:induction false} PiecesListed(open: bool, global: Mesh, periodic: nat, st: SplitState, id: MultiIndex, number: nat)
    requires SameDim(st.mesh, global) && AxesIn(|global.begin|, st.shifts, st.dirs) && |id| == |global.begin|
    ensures ghost var ps := Pieces(open, global, periodic, st);
      (exists k :: 0 <= k < |ps| && ps[k].number == number && Contains(ps[k].base, id)) <==>
      number < Pow2(|st.dirs|) && Contains(OverlapPiece(open, global, periodic, st, number).base, id)
  {
    ghost var ps := Pieces(open, global, periodic, st);
    if number < Pow2(|st.dirs|) && Contains(OverlapPiece(open, global, periodic, st, number).base, id) {
      assert ps[number].number == number;
    }
  }

  /** The interior and interior-border lists of a pool: the open and the closed local partition, number 0. */
  method InteriorLists(local: Mesh, global: Mesh, periodic: nat) returns (interior: CachedPartitionList, border: CachedPartitionList)
    requires SameDim(local, global)
    ensures fresh(interior) && fresh(interior.list) && fresh(interior.cache)
    ensures fresh(border) && fresh(border.list) && fresh(border.cache)
    ensures interior.list.partitions == [OpenPartition(local, global, periodic, 0)]
    ensures border.list.partitions == [ClosedPartition(local, global, periodic, 0)]
    ensures interior.Valid() && border.Valid()
    ensures BasesFit(interior, |global.begin|) && BasesFit(border, |global.begin|)
  {
    var open := MakeOpenPartition(local, global, periodic, 0);
    var closed := MakeClosedPartition(local, global, periodic, 0);
    interior := SingletonList(open, |local.begin|);
    border := SingletonList(closed, |local.begin|);
  }

  /** The overlap, overlap-front and all lists of a pool: the pieces of the split overlap; all is a copy of the front. */
  method OverlapLists(local: Mesh, global: Mesh, overlap: MultiIndex, periodic: nat)
    returns (overlapL: CachedPartitionList, frontL: CachedPartitionList, allL: CachedPartitionList)
    requires SameDim(local, global) && |overlap| == |local.begin| && |overlap| < 31
    ensures fresh(overlapL) && fresh(overlapL.list) && fresh(overlapL.cache)
    ensures fresh(frontL) && fresh(frontL.list) && fresh(frontL.cache)
    ensures fresh(allL) && fresh(allL.list) && fresh(allL.cache)
    ensures ghost var st := PoolSplit(local, global, overlap, periodic);
      overlapL.list.partitions == Pieces(true, global, periodic, st)
      && frontL.list.partitions == Pieces(false, global, periodic, st)
      && allL.list.partitions == Pieces(false, global, periodic, st)
    ensures overlapL.Valid() && frontL.Valid() && allL.Valid()
    ensures BasesFit(overlapL, |global.begin|) && BasesFit(frontL, |global.begin|) && BasesFit(allL, |global.begin|)
  {
    var om, shifts, dirs := SplitOverlap(Grown(local, overlap), global, periodic);
    var st := SplitState(om, shifts, dirs);
    SplitAxesFacts(Grown(local, overlap), global, periodic, |local.begin|);
    overlapL, frontL := MakePieces(global, periodic, st);
    allL := new CachedPartitionList();
    PieceNumbers(false, global, periodic, st);
    PieceBases(false, global, periodic, st);
    allL.list.Assign(frontL.list);
    CacheList(allL, |global.begin|);
  }

  class PartitionPool {
    const globalMesh: Mesh
    const overlap: MultiIndex
    const periodic: nat
    /** The local mesh the pool was built from; the source does not keep it. */
    ghost const localMesh: Mesh
    /** The partitions of the six lists, fixed at construction. */
    ghost const contents: seq<seq<Partition>>

    const interior: CachedPartitionList
    const interiorBorder: CachedPartitionList
    const overlapList: CachedPartitionList
    const overlapFront: CachedPartitionList
    const all: CachedPartitionList
    const ghostList: CachedPartitionList

    /** The lists hold the pool's contents, with bounds of the grid's dimension. */
    ghost predicate Holds()
      reads this, interior, interior.list, interiorBorder, interiorBorder.list, overlapList, overlapList.list,
        overlapFront, overlapFront.list, all, all.list, ghostList, ghostList.list
    {
      SameDim(localMesh, globalMesh) && |overlap| == |localMesh.begin|
      && Contents() == contents && ListsFit(contents, |globalMesh.begin|)
    }

    /** The lists hold the pool's contents and every list's number table is up to date. */
    ghost predicate Valid()
      reads this, interior, interior.list, interior.cache, interiorBorder, interiorBorder.list, interiorBorder.cache,
        overlapList, overlapList.list, overlapList.cache, overlapFront, overlapFront.list, overlapFront.cache,
        all, all.list, all.cache, ghostList, ghostList.list, ghostList.cache
    {
      Holds()
      && interior.Valid() && interiorBorder.Valid() && overlapList.Valid()
      && overlapFront.Valid() && all.Valid() && ghostList.Valid()
      && BasesFit(interior, |globalMesh.begin|) && BasesFit(interiorBorder, |globalMesh.begin|)
      && BasesFit(overlapList, |globalMesh.begin|) && BasesFit(overlapFront, |globalMesh.begin|)
      && BasesFit(all, |globalMesh.begin|)
    }

    /** The lists hold what the constructor puts in them. */
    ghost predicate Built()
    {
      SameDim(localMesh, globalMesh) && |overlap| == |localMesh.begin|
      && contents == PoolContents(localMesh, globalMesh, overlap, periodic)
    }

    /** The partitions of the six lists. */
    function Contents(): (c: seq<seq<Partition>>)
      reads this, interior, interior.list, interiorBorder, interiorBorder.list, overlapList, overlapList.list,
        overlapFront, overlapFront.list, all, all.list, ghostList, ghostList.list
      ensures |c| == 6
    {
      [interior.list.partitions, interiorBorder.list.partitions, overlapList.list.partitions,
       overlapFront.list.partitions, all.list.partitions, ghostList.list.partitions]
    }

    /** `SPPartitionPool(localMesh, globalMesh, overlap, periodic)`. */
    constructor (local: Mesh, global: Mesh, overlap: MultiIndex, periodic: nat)
      requires SameDim(local, global) && |overlap| == |local.begin| && |overlap| < 31
      ensures Valid() && Built()
      ensures localMesh == local && globalMesh == global && this.overlap == overlap && this.periodic == periodic
    {
      var ghostL := new CachedPartitionList();
      var interiorL, interiorBorderL := InteriorLists(local, global, periodic);
      var overlapL, frontL, allL := OverlapLists(local, global, overlap, periodic);
      globalMesh, this.overlap, this.periodic, localMesh := global, overlap, periodic, local;
      contents := PoolContents(local, global, overlap, periodic);
      PoolContentsFit(local, global, overlap, periodic);
      interior, interiorBorder, overlapList, overlapFront, all, ghostList :=
        interiorL, interiorBorderL, overlapL, frontL, allL, ghostL;
    }

    /** `get<pitype>()`: the list of that type; GridError for an unknown type. */
    method Get(pitype: int) returns (r: Result<CachedPartitionList>)
      requires Holds()
      ensures r.Ok? <==> InteriorPartition <= pitype <= GhostPartition
      ensures r.Ok? ==> r.value.list.partitions == contents[pitype]
      ensures r.Err? ==> r.error == GridError
    {
      match pitype
      case 0 => r := Ok(interior);
      case 1 => r := Ok(interiorBorder);
      case 2 => r := Ok(overlapList);
      case 3 => r := Ok(overlapFront);
      case 4 => r := Ok(all);
      case 5 => r := Ok(ghostList);
      case _ => r := Err(GridError);
    }

    /**
     * `partitionType<codim>(id, number)`: interior or border inside the
     * interior-border partition, overlap or front inside the overlap-front
     * partition; as the all list is the overlap-front list, ghost never comes out.
     */
    method PartitionType(codim: nat, id: MultiIndex, number: nat) returns (t: EntityPartition)
      requires Valid() && Built() && |id| == |globalMesh.begin|
      requires all.ContainsId(id, number)
      ensures t != GhostEntity
      ensures (t == InteriorEntity || t == BorderEntity) <==>
        number == 0 && Contains(ClosedPartition(localMesh, globalMesh, periodic, 0).base, id)
      ensures t == InteriorEntity <==>
        number == 0 && Contains(ClosedPartition(localMesh, globalMesh, periodic, 0).base, id)
        && (codim == 0 || Contains(OpenPartition(localMesh, globalMesh, periodic, 0).base, id))
      ensures ghost var st := PoolSplit(localMesh, globalMesh, overlap, periodic);
        (t == OverlapEntity || t == FrontEntity) ==>
          number < Pow2(|st.dirs|) && Contains(OverlapPiece(false, globalMesh, periodic, st, number).base, id)
      ensures ghost var st := PoolSplit(localMesh, globalMesh, overlap, periodic);
        t == FrontEntity <==>
          !(number == 0 && Contains(ClosedPartition(localMesh, globalMesh, periodic, 0).base, id))
          && codim != 0 && !(number < Pow2(|st.dirs|) && Contains(OverlapPiece(true, globalMesh, periodic, st, number).base, id))
      ensures ghost var st := PoolSplit(localMesh, globalMesh, overlap, periodic);
        t == OverlapEntity ==> codim == 0 || (number < Pow2(|st.dirs|) && Contains(OverlapPiece(true, globalMesh, periodic, st, number).base, id))
    {
      ghost var st := PoolSplit(localMesh, globalMesh, overlap, periodic);
      SingletonListed(OpenPartition(localMesh, globalMesh, periodic, 0), id, number);
      SingletonListed(ClosedPartition(localMesh, globalMesh, periodic, 0), id, number);
      PiecesListed(true, globalMesh, periodic, st, id, number);
      PiecesListed(false, globalMesh, periodic, st, id, number);
      OverlapInFront(globalMesh, periodic, st, number, id);
      assert overlapFront.ContainsId(id, number);
      if interiorBorder.ContainsId(id, number) {
        t := if codim == 0 || interior.ContainsId(id, number) then InteriorEntity else BorderEntity;
      } else if overlapFront.ContainsId(id, number) {
        t := if codim == 0 || overlapList.ContainsId(id, number) then OverlapEntity else FrontEntity;
      } else {
        t := GhostEntity;
      }
    }
  }
}
