// SPLinkage: the communication interfaces of one process.  For every other
// rank, the partition pool of that rank's sub-mesh is rebuilt and each of
// the five interface types gets a node whose send and receive lists are the
// non-empty intersections of a local list with a remote one.

module Linkages {
  import opened Errors
  import opened MultiIndices
  import opened Meshes
  import opened Partitions
  import opened PartitionLists
  import opened CachedPartitionLists
  import opened PartitionPools

  // InterfaceType
  const InteriorBorderInteriorBorderInterface: nat := 0
  const InteriorBorderAllInterface: nat := 1
  const OverlapOverlapFrontInterface: nat := 2
  const OverlapAllInterface: nat := 3
  const AllAllInterface: nat := 4

  /** `SPCommunicationInterface<iface>`: the partition types sent and received. */
  function Communication(iface: nat): (sr: (int, int))
    requires iface < 5
    ensures InteriorBorderPartition <= sr.0 <= sr.1 <= AllPartition
    ensures sr.0 == sr.1 <==> iface == InteriorBorderInteriorBorderInterface || iface == AllAllInterface
    ensures sr.0 == InteriorBorderPartition <==> iface < OverlapOverlapFrontInterface
    ensures sr.1 == AllPartition <==> iface % 2 == 1 || iface == AllAllInterface
  {
    if iface == InteriorBorderInteriorBorderInterface then (InteriorBorderPartition, InteriorBorderPartition)
    else if iface == InteriorBorderAllInterface then (InteriorBorderPartition, AllPartition)
    else if iface == OverlapOverlapFrontInterface then (OverlapPartition, OverlapFrontPartition)
    else if iface == OverlapAllInterface then (OverlapPartition, AllPartition)
    else (AllPartition, AllPartition)
  }

  // ---------------------------------------------------------------------
  // intersect
  // ---------------------------------------------------------------------

  /** The inner loop of `intersect`: the non-empty intersections of l with the remote partitions, tagged with l's number. */
  function IntersectRow(l: Partition, rs: seq<Partition>, dim: nat): (row: seq<Partition>)
    requires dim >= 1 && ValidBasic(dim, l.base) && AllFit(rs, dim)
    decreases |rs|
  {
    if rs == [] then []
    else
      var x := Intersect(l.base, rs[|rs| - 1].base);
      IntersectRow(l, rs[..|rs| - 1], dim) + (if Partitions.IsEmpty(x) then [] else [PartitionOf(x, l.number)])
  }

  /** `intersect(local, remote)`: the rows of the local partitions, in list order. */
  function IntersectAll(ls: seq<Partition>, rs: seq<Partition>, dim: nat): (link: seq<Partition>)
    requires dim >= 1 && AllFit(ls, dim) && AllFit(rs, dim)
    decreases |ls|
  {
    if ls == [] then []
    else IntersectAll(ls[..|ls| - 1], rs, dim) + IntersectRow(ls[|ls| - 1], rs, dim)
  }

  /** Some partition of ps numbered n contains id. */
  predicate Covered(ps: seq<Partition>, id: MultiIndex, n: nat)
    requires AllFit(ps, |id|)
  {
    exists k :: 0 <= k < |ps| && ps[k].number == n && Contains(ps[k].base, id)
  }

  /** Some partition of ps contains id. */
  predicate SomeContains(ps: seq<Partition>, id: MultiIndex)
    requires AllFit(ps, |id|)
  {
    exists k :: 0 <= k < |ps| && Contains(ps[k].base, id)
  }

  /** A local partition numbered n and some remote partition both contain id. */
  predicate SharedBy(ls: seq<Partition>, rs: seq<Partition>, id: MultiIndex, n: nat)
    requires AllFit(ls, |id|) && AllFit(rs, |id|)
  {
    exists i :: 0 <= i < |ls| && ls[i].number == n && Contains(ls[i].base, id) && SomeContains(rs, id)
  }

  lemma {:induction false} CoveredAppend(a: seq<Partition>, b: seq<Partition>, id: MultiIndex, n: nat)
    requires AllFit(a, |id|) && AllFit(b, |id|)
    ensures AllFit(a + b, |id|)
    ensures Covered(a + b, id, n) <==> Covered(a, id, n) || Covered(b, id, n)
  {
    assert forall k :: 0 <= k < |a| ==> (a + b)[k] == a[k];
    assert forall k :: |a| <= k < |a + b| ==> (a + b)[k] == b[k - |a|];
    if Covered(b, id, n) {
      var k :| 0 <= k < |b| && b[k].number == n && Contains(b[k].base, id);
      assert (a + b)[|a| + k] == b[k];
    }
  }

  /** A row covers (id, n) exactly when l is numbered n and l and some remote partition contain id. */
  lemma {:induction false} RowCovers(l: Partition, rs: seq<Partition>, id: MultiIndex, n: nat)
    requires |id| >= 1 && ValidBasic(|id|, l.base) && AllFit(rs, |id|)
    ensures AllFit(IntersectRow(l, rs, |id|), |id|)
    ensures Covered(IntersectRow(l, rs, |id|), id, n) <==> l.number == n && Contains(l.base, id) && SomeContains(rs, id)
    decreases |rs|
  {
    var dim := |id|;
    RowEntries(l, rs, dim);
    if rs != [] {
      var front := rs[..|rs| - 1];
      var last := rs[|rs| - 1];
      var x := Intersect(l.base, last.base);
      var tail: seq<Partition> := if Partitions.IsEmpty(x) then [] else [PartitionOf(x, l.number)];
      RowCovers(l, front, id, n);
      RowEntries(l, front, dim);
      CoveredAppend(IntersectRow(l, front, dim), tail, id, n);
      IntersectContains(l.base, last.base, id);
      EmptyIffNoId(x);
      if Covered(tail, id, n) {
        assert Contains(last.base, id);
      }
      if l.number == n && Contains(l.base, id) && Contains(last.base, id) {
        assert tail[0].base == x;
      }
      SomeContainsLast(rs, id);
    }
  }

  lemma {:induction false} SomeContainsLast(rs: seq<Partition>, id: MultiIndex)
    requires rs != [] && AllFit(rs, |id|)
    ensures AllFit(rs[..|rs| - 1], |id|)
    ensures SomeContains(rs, id) <==> SomeContains(rs[..|rs| - 1], id) || Contains(rs[|rs| - 1].base, id)
  {
    var front := rs[..|rs| - 1];
    if SomeContains(front, id) {
      var k :| 0 <= k < |front| && Contains(front[k].base, id);
      assert rs[k] == front[k];
    }
  }

  /** Some local partition carries number n. */
  predicate NumberIn(ls: seq<Partition>, n: nat)
  {
    exists i :: 0 <= i < |ls| && ls[i].number == n
  }

  /** Every entry is a non-empty dim-dimensional box carrying the number of some local partition. */
  predicate Entries(link: seq<Partition>, ls: seq<Partition>, dim: nat)
  {
    AllFit(link, dim) && forall k :: 0 <= k < |link| ==> !Partitions.IsEmpty(link[k].base) && NumberIn(ls, link[k].number)
  }

  lemma {:induction false} EntriesAppend(a: seq<Partition>, b: seq<Partition>, ls: seq<Partition>, dim: nat)
    requires Entries(a, ls, dim) && Entries(b, ls, dim)
    ensures Entries(a + b, ls, dim)
  {
    assert forall k :: 0 <= k < |a| ==> (a + b)[k] == a[k];
    assert forall k :: |a| <= k < |a + b| ==> (a + b)[k] == b[k - |a|];
  }

  lemma {:induction false} EntriesWiden(link: seq<Partition>, ls: seq<Partition>, wider: seq<Partition>, dim: nat)
    requires Entries(link, ls, dim)
    requires forall i :: 0 <= i < |ls| ==> NumberIn(wider, ls[i].number)
    ensures Entries(link, wider, dim)
  {
    forall k | 0 <= k < |link| ensures NumberIn(wider, link[k].number) {
      var i :| 0 <= i < |ls| && ls[i].number == link[k].number;
      assert NumberIn(wider, ls[i].number);
    }
  }

  /** The results of a row are non-empty, dim-dimensional, and numbered like l. */
  lemma {:induction false} RowEntries(l: Partition, rs: seq<Partition>, dim: nat)
    requires dim >= 1 && ValidBasic(dim, l.base) && AllFit(rs, dim)
    ensures Entries(IntersectRow(l, rs, dim), [l], dim)
    decreases |rs|
  {
    if rs != [] {
      var x := Intersect(l.base, rs[|rs| - 1].base);
      var tail: seq<Partition> := if Partitions.IsEmpty(x) then [] else [PartitionOf(x, l.number)];
      RowEntries(l, rs[..|rs| - 1], dim);
      if tail != [] {
        assert tail[0].number == [l][0].number;
      }
      assert Entries(tail, [l], dim);
      EntriesAppend(IntersectRow(l, rs[..|rs| - 1], dim), tail, [l], dim);
    }
  }

  /** Every entry of `intersect` is a non-empty intersection carrying the number of some local partition. */
  lemma {:induction false} IntersectEntries(ls: seq<Partition>, rs: seq<Partition>, dim: nat)
    requires dim >= 1 && AllFit(ls, dim) && AllFit(rs, dim)
    ensures Entries(IntersectAll(ls, rs, dim), ls, dim)
    decreases |ls|
  {
    if ls != [] {
      var front := ls[..|ls| - 1];
      var last := ls[|ls| - 1];
      assert ls == front + [last];
      IntersectEntries(front, rs, dim);
      forall i | 0 <= i < |front| ensures NumberIn(ls, front[i].number) {
        assert ls[i] == front[i];
      }
      EntriesWiden(IntersectAll(front, rs, dim), front, ls, dim);
      RowEntries(last, rs, dim);
      assert NumberIn(ls, [last][0].number) by {
        assert ls[|ls| - 1] == last;
      }
      EntriesWiden(IntersectRow(last, rs, dim), [last], ls, dim);
      EntriesAppend(IntersectAll(front, rs, dim), IntersectRow(last, rs, dim), ls, dim);
    }
  }

  /**
   * `intersect` covers (id, n) exactly when a local partition numbered n and
   * some remote partition both contain id.
   */
  lemma {:induction false} IntersectCovers(ls: seq<Partition>, rs: seq<Partition>, id: MultiIndex, n: nat)
    requires |id| >= 1 && AllFit(ls, |id|) && AllFit(rs, |id|)
    ensures AllFit(IntersectAll(ls, rs, |id|), |id|)
    ensures Covered(IntersectAll(ls, rs, |id|), id, n) <==> SharedBy(ls, rs, id, n)
    decreases |ls|
  {
    var dim := |id|;
    IntersectEntries(ls, rs, dim);
    if ls != [] {
      var front := ls[..|ls| - 1];
      var last := ls[|ls| - 1];
      IntersectCovers(front, rs, id, n);
      RowCovers(last, rs, id, n);
      IntersectEntries(front, rs, dim);
      CoveredAppend(IntersectAll(front, rs, dim), IntersectRow(last, rs, dim), id, n);
      SharedByLast(ls, rs, id, n);
    }
  }

  lemma {:induction false} SharedByLast(ls: seq<Partition>, rs: seq<Partition>, id: MultiIndex, n: nat)
    requires ls != [] && AllFit(ls, |id|) && AllFit(rs, |id|)
    ensures AllFit(ls[..|ls| - 1], |id|)
    ensures SharedBy(ls, rs, id, n) <==>
      SharedBy(ls[..|ls| - 1], rs, id, n) || (ls[|ls| - 1].number == n && Contains(ls[|ls| - 1].base, id) && SomeContains(rs, id))
  {
    var front := ls[..|ls| - 1];
    if SharedBy(front, rs, id, n) {
      var i :| 0 <= i < |front| && front[i].number == n && Contains(front[i].base, id) && SomeContains(rs, id);
      assert ls[i] == front[i];
    }
    if SharedBy(ls, rs, id, n) {
      var i :| 0 <= i < |ls| && ls[i].number == n && Contains(ls[i].base, id) && SomeContains(rs, id);
      if i < |front| {
        assert ls[i] == front[i];
      }
    }
  }

  /** `intersect` is empty exactly when no local and remote partition share an id. */
  lemma {:induction false} IntersectEmptyIff(ls: seq<Partition>, rs: seq<Partition>, dim: nat)
    requires dim >= 1 && AllFit(ls, dim) && AllFit(rs, dim)
    ensures IntersectAll(ls, rs, dim) == [] <==>
      forall id, n :: |id| == dim && AllFit(ls, |id|) && AllFit(rs, |id|) ==> !SharedBy(ls, rs, id, n)
  {
    var link := IntersectAll(ls, rs, dim);
    IntersectEntries(ls, rs, dim);
    if link != [] {
      var x := link[0].base;
      EmptyIffNoId(x);
      var id :| |id| == dim && Contains(x, id);
      IntersectCovers(ls, rs, id, link[0].number);
      assert Covered(link, id, link[0].number);
    } else {
      forall id, n | |id| == dim && AllFit(ls, |id|) && AllFit(rs, |id|) ensures !SharedBy(ls, rs, id, n) {
        IntersectCovers(ls, rs, id, n);
      }
    }
  }

  lemma {:induction false} AllFitPrefix(ps: seq<Partition>, dim: nat, i: nat)
    requires AllFit(ps, dim) && i <= |ps|
    ensures AllFit(ps[..i], dim)
  {
  }

  /** The inner loop of `intersect`: the non-empty intersections of l with the remote list, appended to link. */
  method IntersectRowInto(link: PartitionList, l: Partition, remote: PartitionList, ghost dim: nat)
    requires dim >= 1 && ValidBasic(dim, l.base) && AllFit(remote.partitions, dim) && link != remote
    modifies link
    ensures link.partitions == old(link.partitions) + IntersectRow(l, remote.partitions, dim)
  {
    ghost var rs, start := remote.partitions, link.partitions;
    var number := l.number;
    var j := 0;
    while j < |remote.partitions|
      invariant 0 <= j <= |rs| && remote.partitions == rs
      invariant link.partitions == start + IntersectRow(l, rs[..j], dim)
    {
      var x := Intersect(l.base, remote.partitions[j].base);
      var empty := Partitions.Empty(x);
      assert rs[..j + 1][..j] == rs[..j];
      if !empty {
        link.Append(PartitionOf(x, number));
      }
      j := j + 1;
    }
    assert rs[..j] == rs;
  }

  /** `intersect(local, remote)`: a new list, filled by the two nested loops over the lists. */
  method IntersectLists(local: PartitionList, remote: PartitionList, ghost dim: nat) returns (link: PartitionList)
    requires dim >= 1 && AllFit(local.partitions, dim) && AllFit(remote.partitions, dim)
    ensures fresh(link)
    ensures link.partitions == IntersectAll(local.partitions, remote.partitions, dim)
  {
    link := new PartitionList();
    ghost var ls, rs := local.partitions, remote.partitions;
    var i := 0;
    while i < |local.partitions|
      invariant 0 <= i <= |ls| && local.partitions == ls && remote.partitions == rs
      invariant fresh(link)
      invariant link.partitions == IntersectAll(ls[..i], rs, dim)
    {
      var l := local.partitions[i];
      IntersectRowInto(link, l, remote, dim);
      assert ls[..i + 1][..i] == ls[..i];
      i := i + 1;
    }
    assert ls[..i] == ls;
  }

  // ---------------------------------------------------------------------
  // Interface and Interface::Node
  // ---------------------------------------------------------------------

  /** `Interface::Node`: partitionList_[0] is the send list, partitionList_[1] the receive list. */
  datatype LinkNode = LinkNode(rank: int, send: seq<Partition>, receive: seq<Partition>)

  /** `rank()`: asserted non-negative. */
  function Rank(node: LinkNode): (r: nat)
    requires node.rank >= 0
    ensures r == node.rank
  {
    node.rank
  }

  /** `sendList(direction)`: partitionList_[direction]. */
  function SendList(node: LinkNode, direction: int): (l: seq<Partition>)
    requires 0 <= direction <= 1
    ensures direction == 0 ==> l == node.send
    ensures direction == 1 ==> l == node.receive
  {
    if direction == 0 then node.send else node.receive
  }

  /** `receiveList(direction)`: partitionList_[1 - direction], the send list of the opposite direction. */
  function ReceiveList(node: LinkNode, direction: int): (l: seq<Partition>)
    requires 0 <= direction <= 1
    ensures l == SendList(node, 1 - direction)
    ensures direction == 0 ==> l == node.receive
  {
    if 1 - direction == 0 then node.send else node.receive
  }

  /** `SPLinkage::Interface`: its nodes, in the order `add` appended them. */
  datatype Interface = Interface(nodes: seq<LinkNode>)

  // ---------------------------------------------------------------------
  // build and the constructor
  // ---------------------------------------------------------------------

  /** The node `build<iface>(rank, ...)` adds, if any: none when both lists are empty. */
  function BuildOf(iface: nat, rank: int, localC: seq<seq<Partition>>, remoteC: seq<seq<Partition>>, dim: nat): Option<LinkNode>
    requires iface < 5 && dim >= 1 && ListsFit(localC, dim) && ListsFit(remoteC, dim)
  {
    var (s, r) := Communication(iface);
    LinkOf(rank, s != r, localC[s], localC[r], remoteC[s], remoteC[r], dim)
  }

  /** The send list intersects the local send type with the remote receive type; the receive list the other way round, or is the send list. */
  function LinkOf(rank: int, twoLists: bool, localSend: seq<Partition>, localReceive: seq<Partition>,
                  remoteSend: seq<Partition>, remoteReceive: seq<Partition>, dim: nat): Option<LinkNode>
    requires dim >= 1 && AllFit(localSend, dim) && AllFit(localReceive, dim) && AllFit(remoteSend, dim) && AllFit(remoteReceive, dim)
  {
    var sendList := IntersectAll(localSend, remoteReceive, dim);
    var receiveList := if twoLists then IntersectAll(localReceive, remoteSend, dim) else sendList;
    if sendList == [] && receiveList == [] then None else Some(LinkNode(rank, sendList, receiveList))
  }

  lemma {:induction false} BuildRank(iface: nat, rank: int, localC: seq<seq<Partition>>, remoteC: seq<seq<Partition>>, dim: nat)
    requires iface < 5 && dim >= 1 && ListsFit(localC, dim) && ListsFit(remoteC, dim)
    ensures BuildOf(iface, rank, localC, remoteC, dim).Some? ==> BuildOf(iface, rank, localC, remoteC, dim).value.rank == rank
  {
  }

  /** `interface_[iface].add(...)` when a node was built. */
  function AddNode(ifaces: seq<Interface>, iface: nat, node: Option<LinkNode>): (r: seq<Interface>)
    requires iface < |ifaces|
    ensures |r| == |ifaces|
  {
    match node
    case None => ifaces
    case Some(n) => ifaces[iface := Interface(ifaces[iface].nodes + [n])]
  }

  /**
   * `build` adds no node exactly when, for its send and receive types, no
   * local partition shares an id with a remote one in either direction.
   */
  lemma {:induction false} BuildNoneIffDisjoint(iface: nat, rank: int, localC: seq<seq<Partition>>, remoteC: seq<seq<Partition>>, dim: nat)
    requires iface < 5 && dim >= 1 && ListsFit(localC, dim) && ListsFit(remoteC, dim)
    ensures ghost var (s, r) := Communication(iface);
      BuildOf(iface, rank, localC, remoteC, dim).None? <==>
        forall id, n :: |id| == dim && ListsFit(localC, |id|) && ListsFit(remoteC, |id|) ==>
          !SharedBy(localC[s], remoteC[r], id, n) && !SharedBy(localC[r], remoteC[s], id, n)
  {
    var (s, r) := Communication(iface);
    IntersectEmptyIff(localC[s], remoteC[r], dim);
    IntersectEmptyIff(localC[r], remoteC[s], dim);
  }

  /** The remote pool of rank p: its sub-mesh with the local pool's global mesh, overlap and periodicity. */
  function RemoteContents(decomposition: seq<Mesh>, p: nat, global: Mesh, overlap: MultiIndex, periodic: nat): (c: seq<seq<Partition>>)
    requires p < |decomposition| && SameDim(decomposition[p], global) && |overlap| == |global.begin|
    ensures ListsFit(c, |global.begin|)
  {
    PoolContentsFit(decomposition[p], global, overlap, periodic);
    PoolContents(decomposition[p], global, overlap, periodic)
  }

  /** The nodes `build` makes for peer p, indexed by interface type. */
  function PeerNodes(p: nat, localC: seq<seq<Partition>>, remoteC: seq<seq<Partition>>, dim: nat): (o: seq<Option<LinkNode>>)
    requires dim >= 1 && ListsFit(localC, dim) && ListsFit(remoteC, dim)
    ensures |o| == 5 && forall i :: 0 <= i < 5 ==> o[i] == BuildOf(i, p, localC, remoteC, dim)
    ensures forall i :: 0 <= i < 5 && o[i].Some? ==> o[i].value.rank == p
  {
    [BuildOf(0, p, localC, remoteC, dim), BuildOf(1, p, localC, remoteC, dim), BuildOf(2, p, localC, remoteC, dim),
     BuildOf(3, p, localC, remoteC, dim), BuildOf(4, p, localC, remoteC, dim)]
  }

  /** One pass of the constructor's peer loop: All_All first, the other four only if it got a node. */
  function PeerStep(ifaces: seq<Interface>, rank: int, p: nat, o: seq<Option<LinkNode>>): (r: seq<Interface>)
    requires |ifaces| == 5 && |o| == 5
    ensures |r| == 5
  {
    if p == rank || o[AllAllInterface].None? then ifaces
    else
      var r := AddNode(ifaces, AllAllInterface, o[AllAllInterface]);
      var r := AddNode(r, 0, o[0]);
      var r := AddNode(r, 1, o[1]);
      var r := AddNode(r, 2, o[2]);
      AddNode(r, 3, o[3])
  }

  predicate DecompositionFits(decomposition: seq<Mesh>, global: Mesh)
  {
    forall p :: 0 <= p < |decomposition| ==> SameDim(decomposition[p], global)
  }

  function NoInterfaces(): (r: seq<Interface>)
    ensures |r| == 5
  {
    [Interface([]), Interface([]), Interface([]), Interface([]), Interface([])]
  }

  /** The pools of all ranks, each built from its sub-mesh. */
  function RemotePools(decomposition: seq<Mesh>, global: Mesh, overlap: MultiIndex, periodic: nat): (rc: seq<seq<seq<Partition>>>)
    requires DecompositionFits(decomposition, global) && |overlap| == |global.begin|
    ensures AllPoolsFit(rc, |global.begin|) && |rc| == |decomposition|
  {
    seq(|decomposition|, p requires 0 <= p < |decomposition| => RemoteContents(decomposition, p, global, overlap, periodic))
  }

  predicate AllPoolsFit(rc: seq<seq<seq<Partition>>>, dim: nat)
  {
    forall p :: 0 <= p < |rc| ==> ListsFit(rc[p], dim)
  }

  /** Every peer p has five nodes, and each node made for it is for rank p. */
  predicate NodesFor(nodes: seq<seq<Option<LinkNode>>>)
  {
    forall p :: 0 <= p < |nodes| ==>
      |nodes[p]| == 5 && forall i :: 0 <= i < 5 && nodes[p][i].Some? ==> nodes[p][i].value.rank == p
  }

  /** The nodes `build` makes for every peer, given the contents of every rank's pool. */
  function AllPeerNodes(localC: seq<seq<Partition>>, remotes: seq<seq<seq<Partition>>>, dim: nat): (nodes: seq<seq<Option<LinkNode>>>)
    requires dim >= 1 && ListsFit(localC, dim) && AllPoolsFit(remotes, dim)
    ensures |nodes| == |remotes| && NodesFor(nodes)
    ensures forall p :: 0 <= p < |remotes| ==> nodes[p] == PeerNodes(p, localC, remotes[p], dim)
  {
    seq(|remotes|, p requires 0 <= p < |remotes| => PeerNodes(p, localC, remotes[p], dim))
  }

  /** The interfaces after the peers below n, given the nodes made for every peer. */
  function LinkageOf(rank: int, nodes: seq<seq<Option<LinkNode>>>, n: nat): (r: seq<Interface>)
    requires NodesFor(nodes) && n <= |nodes|
    ensures |r| == 5
    decreases n
  {
    if n == 0 then NoInterfaces()
    else PeerStep(LinkageOf(rank, nodes, n - 1), rank, n - 1, nodes[n - 1])
  }

  /** Some node of the interface is for rank q. */
  predicate HasPeer(i: Interface, q: int)
  {
    exists k :: 0 <= k < |i.nodes| && i.nodes[k].rank == q
  }

  /** Every node is for a rank below n other than the own rank, and that rank also has an All_All node. */
  predicate PeersLinked(ifaces: seq<Interface>, rank: int, n: nat)
    requires |ifaces| == 5
  {
    forall t, k :: 0 <= t < 5 && 0 <= k < |ifaces[t].nodes| ==>
      0 <= ifaces[t].nodes[k].rank < n && ifaces[t].nodes[k].rank != rank && HasPeer(ifaces[AllAllInterface], ifaces[t].nodes[k].rank)
  }

  lemma {:induction false} AddNodeKeeps(ifaces: seq<Interface>, iface: nat, node: Option<LinkNode>, t: nat, k: nat)
    requires iface < |ifaces| && t < |ifaces| && k < |ifaces[t].nodes|
    ensures ghost var r := AddNode(ifaces, iface, node);
      k < |r[t].nodes| && r[t].nodes[k] == ifaces[t].nodes[k]
  {
  }

  lemma {:induction false} PeerStepLinked(ifaces: seq<Interface>, rank: int, p: nat, o: seq<Option<LinkNode>>)
    requires |ifaces| == 5 && |o| == 5
    requires forall i :: 0 <= i < 5 && o[i].Some? ==> o[i].value.rank == p
    requires PeersLinked(ifaces, rank, p)
    ensures PeersLinked(PeerStep(ifaces, rank, p, o), rank, p + 1)
  {
    if p != rank && o[AllAllInterface].Some? {
      var r0 := AddNode(ifaces, AllAllInterface, o[AllAllInterface]);
      assert r0[AllAllInterface].nodes[|ifaces[AllAllInterface].nodes|].rank == p;
      var r1 := AddNode(r0, 0, o[0]);
      var r2 := AddNode(r1, 1, o[1]);
      var r3 := AddNode(r2, 2, o[2]);
      var r4 := AddNode(r3, 3, o[3]);
      assert r4[AllAllInterface] == r0[AllAllInterface];
      assert HasPeer(r4[AllAllInterface], p);
      forall q | HasPeer(ifaces[AllAllInterface], q) ensures HasPeer(r4[AllAllInterface], q) {
        var k :| 0 <= k < |ifaces[AllAllInterface].nodes| && ifaces[AllAllInterface].nodes[k].rank == q;
        AddNodeKeeps(ifaces, AllAllInterface, o[AllAllInterface], AllAllInterface, k);
      }
      forall t, k | 0 <= t < 5 && 0 <= k < |r4[t].nodes|
        ensures 0 <= r4[t].nodes[k].rank < p + 1 && r4[t].nodes[k].rank != rank
        ensures HasPeer(r4[AllAllInterface], r4[t].nodes[k].rank)
      {
        NodeOrigin(ifaces, r0, r1, r2, r3, r4, o, p, t, k);
      }
    } else {
      forall t, k | 0 <= t < 5 && 0 <= k < |ifaces[t].nodes| ensures ifaces[t].nodes[k].rank < p + 1 {
      }
    }
  }

  /** A node after the peer step is either an old node or a node for the new peer p. */
  lemma {:induction false} NodeOrigin(ifaces: seq<Interface>, r0: seq<Interface>, r1: seq<Interface>, r2: seq<Interface>,
                                      r3: seq<Interface>, r4: seq<Interface>, o: seq<Option<LinkNode>>, p: nat, t: nat, k: nat)
    requires |ifaces| == 5 && |o| == 5
    requires forall i :: 0 <= i < 5 && o[i].Some? ==> o[i].value.rank == p
    requires r0 == AddNode(ifaces, AllAllInterface, o[4])
    requires r1 == AddNode(r0, 0, o[0])
    requires r2 == AddNode(r1, 1, o[1])
    requires r3 == AddNode(r2, 2, o[2])
    requires r4 == AddNode(r3, 3, o[3])
    requires t < 5 && k < |r4[t].nodes|
    ensures k < |ifaces[t].nodes| ==> r4[t].nodes[k] == ifaces[t].nodes[k]
    ensures k >= |ifaces[t].nodes| ==> r4[t].nodes[k].rank == p
  {
  }

  /**
   * Every node of every interface is for another rank below n, and a rank
   * has nodes only if its All_All intersection gave it one.
   */
  lemma {:induction false} LinkageLinked(rank: int, nodes: seq<seq<Option<LinkNode>>>, n: nat)
    requires NodesFor(nodes) && n <= |nodes|
    ensures PeersLinked(LinkageOf(rank, nodes, n), rank, n)
    decreases n
  {
    if n > 0 {
      LinkageLinked(rank, nodes, n - 1);
      PeerStepLinked(LinkageOf(rank, nodes, n - 1), rank, n - 1, nodes[n - 1]);
    }
  }

  /** The pool of a remote rank, `SPPartitionPool(decomposition[p], globalMesh, overlap, periodic)`. */
  method RemotePool(local: Mesh, global: Mesh, overlap: MultiIndex, periodic: nat) returns (pool: PartitionPool)
    requires SameDim(local, global) && |overlap| == |local.begin| && |overlap| < 31
    ensures fresh(pool) && pool.Holds() && pool.Built()
    ensures pool.localMesh == local && pool.globalMesh == global && pool.overlap == overlap && pool.periodic == periodic
  {
    pool := new PartitionPool(local, global, overlap, periodic);
  }

  /** What the constructor of a linkage needs of the local pool and the decomposition. */
  ghost predicate PoolFits(localPool: PartitionPool, decomposition: seq<Mesh>)
  {
    && |localPool.globalMesh.begin| >= 1 && ListsFit(localPool.contents, |localPool.globalMesh.begin|)
    && |localPool.overlap| == |localPool.globalMesh.begin| && DecompositionFits(decomposition, localPool.globalMesh)
  }

  /** The nodes made for every rank of the decomposition against the local pool. */
  ghost function PeersOf(localPool: PartitionPool, decomposition: seq<Mesh>): (nodes: seq<seq<Option<LinkNode>>>)
    requires PoolFits(localPool, decomposition)
    ensures |nodes| == |decomposition| && NodesFor(nodes)
  {
    AllPeerNodes(localPool.contents, RemotePools(decomposition, localPool.globalMesh, localPool.overlap, localPool.periodic),
                 |localPool.globalMesh.begin|)
  }

  /** Peer q's nodes are the ones `build` makes against the remote pool of rank q. */
  ghost predicate PeerRow(nodes: seq<seq<Option<LinkNode>>>, q: nat, localPool: PartitionPool, decomposition: seq<Mesh>)
    requires PoolFits(localPool, decomposition) && q < |nodes| && q < |decomposition|
  {
    nodes[q] == PeerNodes(q, localPool.contents,
                          RemoteContents(decomposition, q, localPool.globalMesh, localPool.overlap, localPool.periodic),
                          |localPool.globalMesh.begin|)
  }

  /** The nodes are those made for every rank, one peer at a time. */
  ghost predicate MadeFor(nodes: seq<seq<Option<LinkNode>>>, localPool: PartitionPool, decomposition: seq<Mesh>)
    requires PoolFits(localPool, decomposition)
  {
    |nodes| == |decomposition| && NodesFor(nodes)
    && forall q :: 0 <= q < |nodes| ==> PeerRow(nodes, q, localPool, decomposition)
  }

  /** Only the nodes of `PeersOf` are made for every rank, and they are. */
  lemma {:induction false} MadeForIsPeers(nodes: seq<seq<Option<LinkNode>>>, localPool: PartitionPool, decomposition: seq<Mesh>)
    requires PoolFits(localPool, decomposition)
    ensures MadeFor(nodes, localPool, decomposition) <==> nodes == PeersOf(localPool, decomposition)
  {
    var peers := PeersOf(localPool, decomposition);
    var remotes := RemotePools(decomposition, localPool.globalMesh, localPool.overlap, localPool.periodic);
    forall q | 0 <= q < |peers|
      ensures PeerRow(peers, q, localPool, decomposition)
    {
      assert remotes[q] == RemoteContents(decomposition, q, localPool.globalMesh, localPool.overlap, localPool.periodic);
    }
    if MadeFor(nodes, localPool, decomposition) {
      forall q | 0 <= q < |nodes|
        ensures nodes[q] == peers[q]
      {
        assert PeerRow(nodes, q, localPool, decomposition) && PeerRow(peers, q, localPool, decomposition);
      }
    }
  }

  /** The nodes made for every rank, without naming how they are computed. */
  lemma {:induction false} SomePeers(localPool: PartitionPool, decomposition: seq<Mesh>) returns (nodes: seq<seq<Option<LinkNode>>>)
    requires PoolFits(localPool, decomposition)
    ensures MadeFor(nodes, localPool, decomposition)
  {
    nodes := PeersOf(localPool, decomposition);
    MadeForIsPeers(nodes, localPool, decomposition);
  }

  class Linkage {
    var interfaces: seq<Interface>

    /** `build<iface>(rank, localPool, remotePool)`. */
    method Build(iface: nat, rank: int, localPool: PartitionPool, remotePool: PartitionPool) returns (added: bool)
      requires iface < 5 && |interfaces| == 5
      requires localPool.Holds() && remotePool.Holds()
      requires |localPool.globalMesh.begin| >= 1 && remotePool.globalMesh == localPool.globalMesh
      modifies this
      ensures ghost var node := BuildOf(iface, rank, localPool.contents, remotePool.contents, |localPool.globalMesh.begin|);
        (added <==> node.Some?) && interfaces == AddNode(old(interfaces), iface, node)
    {
      ghost var dim := |localPool.globalMesh.begin|;
      var (s, r) := Communication(iface);
      var localSend := localPool.Get(s);
      var localReceive := localPool.Get(r);
      var remoteSend := remotePool.Get(s);
      var remoteReceive := remotePool.Get(r);
      assert localPool.contents[s] == localSend.value.list.partitions;
      assert localPool.contents[r] == localReceive.value.list.partitions;
      assert remotePool.contents[s] == remoteSend.value.list.partitions;
      assert remotePool.contents[r] == remoteReceive.value.list.partitions;
      added := Link(iface, rank, s != r, localSend.value.list, localReceive.value.list,
                    remoteSend.value.list, remoteReceive.value.list, dim);
    }

    /** The lists of `build` from the four partition lists, and the node added when one is non-empty. */
    method Link(iface: nat, rank: int, twoLists: bool, localSend: PartitionList, localReceive: PartitionList,
                remoteSend: PartitionList, remoteReceive: PartitionList, ghost dim: nat) returns (added: bool)
      requires iface < 5 && |interfaces| == 5 && dim >= 1
      requires AllFit(localSend.partitions, dim) && AllFit(localReceive.partitions, dim)
      requires AllFit(remoteSend.partitions, dim) && AllFit(remoteReceive.partitions, dim)
      modifies this
      ensures ghost var node := LinkOf(rank, twoLists, localSend.partitions, localReceive.partitions,
                                       remoteSend.partitions, remoteReceive.partitions, dim);
        (added <==> node.Some?) && interfaces == AddNode(old(interfaces), iface, node)
    {
      var sendList := IntersectLists(localSend, remoteReceive, dim);
      var receiveList := sendList;
      if twoLists {
        receiveList := IntersectLists(localReceive, remoteSend, dim);
      }
      if sendList.IsEmpty() && receiveList.IsEmpty() {
        added := false;
      } else {
        interfaces := interfaces[iface := Interface(interfaces[iface].nodes + [LinkNode(rank, sendList.partitions, receiveList.partitions)])];
        added := true;
      }
    }

    /** `SPLinkage(rank, localPool, decomposition)`. */
    constructor (rank: int, localPool: PartitionPool, decomposition: seq<Mesh>)
      requires localPool.Holds() && |localPool.globalMesh.begin| >= 1 && |localPool.overlap| < 31
      requires DecompositionFits(decomposition, localPool.globalMesh)
      ensures PoolFits(localPool, decomposition)
      ensures interfaces == LinkageOf(rank, PeersOf(localPool, decomposition), |decomposition|)
    {
      interfaces := NoInterfaces();
      new;
      ghost var nodes := SomePeers(localPool, decomposition);
      for p := 0 to |decomposition|
        invariant interfaces == LinkageOf(rank, nodes, p)
      {
        PeerPass(rank, p, localPool, decomposition, nodes);
      }
      MadeForIsPeers(nodes, localPool, decomposition);
    }

    /** The body of the peer loop: nothing for the own rank, otherwise the remote pool and the builds. */
    method PeerPass(rank: int, p: nat, localPool: PartitionPool, decomposition: seq<Mesh>, ghost nodes: seq<seq<Option<LinkNode>>>)
      requires localPool.Holds() && |localPool.overlap| < 31 && PoolFits(localPool, decomposition)
      requires MadeFor(nodes, localPool, decomposition) && p < |decomposition| && |interfaces| == 5
      modifies this
      ensures interfaces == PeerStep(old(interfaces), rank, p, nodes[p])
    {
      if p != rank {
        var remotePool := RemotePool(decomposition[p], localPool.globalMesh, localPool.overlap, localPool.periodic);
        var linked := Build(AllAllInterface, p, localPool, remotePool);
        if linked {
          var _ := Build(InteriorBorderInteriorBorderInterface, p, localPool, remotePool);
          var _ := Build(InteriorBorderAllInterface, p, localPool, remotePool);
          var _ := Build(OverlapOverlapFrontInterface, p, localPool, remotePool);
          var _ := Build(OverlapAllInterface, p, localPool, remotePool);
        }
      }
      assert PeerRow(nodes, p, localPool, decomposition);
    }

    /** `interface(i)`: asserted 0 <= i < 5. */
    function InterfaceOf(i: int): (r: Interface)
      reads this
      requires 0 <= i < 5 && |interfaces| == 5
      ensures r == interfaces[i]
    {
      interfaces[i]
    }
  }
}
