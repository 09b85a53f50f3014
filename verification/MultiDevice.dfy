/**
 The multi-device backend: one bridge for every linked node pair, one tap device for every
 potential neighbour. A tap device can be on one bridge only.
 */
module MultiDevice {
  import opened Topology
  import opened Counting
  import opened Arithmetic
  import opened StaticTopology

  /** A tap device belongs to an interface of a node. */
  type Tap = (nat, Iface)

  /** The topologies connect the two nodes. */
  predicate InUnion(all: Adjacency, p: NodePair) {
    p.0 < p.1 && p.1 in At(all, p.0) && p.0 in At(all, p.1)
  }

  /** The bridges and, for each tap device in use, the bridge it is on. */
  datatype Book = Book(bridges: map<NodePair, IfacePair>, owner: map<Tap, NodePair>) {

    /** The bridge of the pair holds the tap device of this interface of the node. */
    ghost predicate On(p: NodePair, t: Tap) {
      p in bridges && (t == (p.0, bridges[p].0) || t == (p.1, bridges[p].1))
    }

    /** A bridge holds one tap device of each node of its pair, and the tap devices in use are
        exactly those on the bridges. Since the owner of a tap device is one bridge, no tap
        device is on two of them. */
    ghost predicate Valid() {
      && (forall p {:trigger p in bridges} :: p in bridges ==> p.0 < p.1)
      && (forall p, t {:trigger On(p, t)} :: On(p, t) ==> t in owner && owner[t] == p)
      && (forall t {:trigger t in owner} :: t in owner ==> On(owner[t], t))
    }

    /** Only pairs that the topologies connect have a bridge. */
    ghost predicate Within(all: Adjacency) {
      forall p {:trigger p in bridges} :: p in bridges ==> InUnion(all, p)
    }

    predicate Free(p: NodePair, ip: IfacePair) {
      (p.0, ip.0) !in owner && (p.1, ip.1) !in owner
    }

    function WithBridge(p: NodePair, ip: IfacePair): (r: Book) {
      Book(bridges[p := ip], owner[(p.0, ip.0) := p][(p.1, ip.1) := p])
    }
  }

  lemma NoTapOnTwoBridges(b: Book, p: NodePair, q: NodePair, t: Tap)
    requires b.Valid() && b.On(p, t) && b.On(q, t)
    ensures p == q
  {
  }

  lemma NewBridgeKeepsValid(b: Book, p: NodePair, ip: IfacePair)
    requires b.Valid() && p !in b.bridges && b.Free(p, ip) && p.0 < p.1
    ensures b.WithBridge(p, ip).Valid()
  {
    var b' := b.WithBridge(p, ip);
    forall q, t | b'.On(q, t)
      ensures t in b'.owner && b'.owner[t] == q
    {
      assert q != p ==> b.On(q, t);
    }
    forall t | t in b'.owner
      ensures b'.On(b'.owner[t], t)
    {
      assert t in b.owner ==> b.On(b.owner[t], t);
    }
  }

  // ----- There is always an unused tap device -----------------------------------------

  /** The other node of a pair. */
  function Peer(p: NodePair, n: nat): (r: nat) {
    if p.0 == n then p.1 else p.0
  }

  /** Different tap devices of one node lead to different neighbours. */
  lemma PeersDiffer(b: Book, n: nat, i: Iface, j: Iface)
    requires b.Valid() && (n, i) in b.owner && (n, j) in b.owner && i != j
    ensures Peer(b.owner[(n, i)], n) != Peer(b.owner[(n, j)], n)
  {
    var p, q := b.owner[(n, i)], b.owner[(n, j)];
    assert b.On(p, (n, i)) && b.On(q, (n, j));
  }

  ghost predicate AllInUse(b: Book, n: nat, kind: Kind, d: nat) {
    forall k: nat {:trigger Iface(kind, k)} :: 1 <= k <= d ==> (n, Iface(kind, k)) in b.owner
  }

  /** The neighbours that the first d tap devices of a kind lead to. */
  ghost function Peers(b: Book, n: nat, kind: Kind, d: nat): (r: seq<nat>)
    requires AllInUse(b, n, kind, d)
    ensures |r| == d
    ensures forall k :: 0 <= k < d ==> r[k] == Peer(b.owner[(n, Iface(kind, k + 1))], n)
  {
    if d == 0 then [] else Peers(b, n, kind, d - 1) + [Peer(b.owner[(n, Iface(kind, d))], n)]
  }

  lemma PeersAreDistinct(b: Book, n: nat, kind: Kind, d: nat)
    requires b.Valid() && AllInUse(b, n, kind, d)
    ensures Distinct(Peers(b, n, kind, d))
  {
    var peers := Peers(b, n, kind, d);
    forall j, k | 0 <= j < k < d
      ensures peers[j] != peers[k]
    {
      PeersDiffer(b, n, Iface(kind, j + 1), Iface(kind, k + 1));
    }
  }

  lemma PeersAreNeighbours(b: Book, all: Adjacency, n: nat, kind: Kind, d: nat, y: nat)
    requires b.Valid() && b.Within(all) && AllInUse(b, n, kind, d)
    requires (n, y) !in b.bridges && (y, n) !in b.bridges
    ensures ToSet(Peers(b, n, kind, d)) <= At(all, n) - {y}
  {
    var peers := Peers(b, n, kind, d);
    forall k | 0 <= k < d
      ensures peers[k] in At(all, n) - {y}
    {
      assert b.On(b.owner[(n, Iface(kind, k + 1))], (n, Iface(kind, k + 1)));
    }
  }

  /** A node with a neighbour that it has no bridge with yet has an unused tap device of
      every kind: each used one leads to a neighbour of its own. */
  lemma UnusedTap(b: Book, all: Adjacency, n: nat, y: nat, kind: Kind) returns (nr: nat)
    requires b.Valid() && b.Within(all) && y in At(all, n)
    requires (n, y) !in b.bridges && (y, n) !in b.bridges
    ensures 1 <= nr <= |At(all, n)| && (n, Iface(kind, nr)) !in b.owner
  {
    var d := |At(all, n)|;
    if AllInUse(b, n, kind, d) {
      PeersAreDistinct(b, n, kind, d);
      PeersAreNeighbours(b, all, n, kind, d, y);
      DistinctSize(Peers(b, n, kind, d));
      SubsetSize(ToSet(Peers(b, n, kind, d)), At(all, n) - {y});
      assert false;
    }
    nr :| 1 <= nr <= d && (n, Iface(kind, nr)) !in b.owner;
  }

  lemma SubsetSize<T>(a: set<T>, b: set<T>)
    requires a <= b
    ensures |a| <= |b|
  {
    assert |b| == |b - a| + |a|;
  }

  /** A node has a tap device per neighbour for every kind of interface it has. */
  ghost predicate Equipped(ifs: seq<Iface>, degree: nat) {
    forall i, nr: nat {:trigger i in ifs, Iface(i.kind, nr)} ::
      i in ifs && PerLink(i.kind) && 1 <= nr <= degree ==> Iface(i.kind, nr) in ifs
  }

  lemma AdjustedIsEquipped(kinds: seq<Kind>, ifs: seq<Iface>, degree: nat)
    requires forall i :: i in ifs <==> 1 <= i.nr <= Taps(kinds, i.kind, |kinds|, degree)
    ensures Equipped(ifs, degree)
  {
    forall i, nr: nat | i in ifs && PerLink(i.kind) && 1 <= nr <= degree
      ensures Iface(i.kind, nr) in ifs
    {
      ProductMonotone(1, Count(kinds, i.kind, |kinds|), degree);
    }
  }

  /** Both nodes have the interfaces of the pair. */
  predicate Offers(nodes: Nodes, p: NodePair, ip: IfacePair) {
    && p.0 in nodes && p.1 in nodes
    && ip.0 in Normal(nodes[p.0]) && ip.1 in Normal(nodes[p.1]) && Linkable(ip)
  }

  /** Both nodes of a pair without bridge still have an unused tap device of each kind of
      interface that they have in common. */
  lemma FreePair(b: Book, all: Adjacency, nodes: Nodes, p: NodePair, ip: IfacePair)
    returns (free: IfacePair)
    requires b.Valid() && b.Within(all) && InUnion(all, p) && p !in b.bridges
    requires Offers(nodes, p, ip)
    requires Equipped(nodes[p.0], |At(all, p.0)|) && Equipped(nodes[p.1], |At(all, p.1)|)
    ensures Offers(nodes, p, free) && b.Free(p, free)
  {
    assert (p.1, p.0) !in b.bridges;
    var kind := ip.0.kind;
    var x := UnusedTap(b, all, p.0, p.1, kind);
    var y := UnusedTap(b, all, p.1, p.0, kind);
    free := (Iface(kind, x), Iface(kind, y));
    assert ip.0 in nodes[p.0] && ip.1 in nodes[p.1];
    assert free.0 in nodes[p.0] && free.1 in nodes[p.1];
  }
}
