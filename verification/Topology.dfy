/**
 Nodes, interfaces and distance matrices: the vocabulary that the network manager,
 the network backends and the provisioners share.
 */
module Topology {

  datatype Option<+T> = None | Some(value: T)

  /** The interface classes; two interfaces have the same type iff their kinds are equal. */
  datatype Kind = AP | Mesh | ADHoc | Bluetooth | WifiDirect | HubWiFi | Management

  /** An interface is identified by its class and its number on the host. */
  datatype Iface = Iface(kind: Kind, nr: nat)

  type NodePair = (nat, nat)
  type IfacePair = (Iface, Iface)

  /** A distance for every listed node pair. */
  type Matrix = map<NodePair, int>

  /** What a node offers to the network: its interfaces in host order. */
  type Nodes = map<nat, seq<Iface>>

  predicate IsNormal(i: Iface) {
    i.kind in {HubWiFi, AP, Mesh, ADHoc, Bluetooth}
  }

  /** The normal interfaces of a node, in order. */
  function Normal(ifs: seq<Iface>): (r: seq<Iface>)
    ensures forall i :: i in r <==> i in ifs && IsNormal(i)
  {
    if ifs == [] then []
    else (if IsNormal(ifs[0]) then [ifs[0]] else []) + Normal(ifs[1..])
  }

  /** Adding an interface behind the others adds it behind the normal ones, iff its kind is one
      of these: nothing is lost, repeated or moved. */
  lemma {:induction false} NormalAppends(ifs: seq<Iface>, i: Iface)
    ensures Normal([]) == []
    ensures Normal(ifs + [i]) ==
            Normal(ifs) + if i.kind in {AP, Mesh, ADHoc, Bluetooth, HubWiFi} then [i] else []
  {
    if ifs == [] {
      assert [i][1..] == [];
    } else {
      NormalAppends(ifs[1..], i);
      assert (ifs + [i])[1..] == ifs[1..] + [i];
    }
  }

  /** Every normal interface stays as often as it is listed. */
  lemma {:induction false} NormalKeepsAll(ifs: seq<Iface>, i: Iface)
    ensures multiset(Normal(ifs))[i] ==
            if i.kind in {AP, Mesh, ADHoc, Bluetooth, HubWiFi} then multiset(ifs)[i] else 0
  {
    if ifs != [] {
      NormalKeepsAll(ifs[1..], i);
      assert ifs == [ifs[0]] + ifs[1..];
    }
  }

  /** Only interfaces of one type are linked, never management and never hub ones. */
  predicate Linkable(p: IfacePair) {
    p.0.kind == p.1.kind && p.0.kind != Management && p.0.kind != HubWiFi
  }

  /** The single-device filter pairs the i-th normal interfaces of both nodes. It assumes
      that the second node has at least as many of them as the first. */
  function EqualInterfaceNumbers(xs: seq<Iface>, ys: seq<Iface>): (r: seq<IfacePair>)
    requires |xs| <= |ys|
  {
    seq(|xs|, i requires 0 <= i < |xs| => (xs[i], ys[i]))
  }

  /** Both nodes of the pair exist and the interface filter can run on them. */
  predicate Known(nodes: Nodes, p: NodePair) {
    && p.0 in nodes && p.1 in nodes
    && |Normal(nodes[p.0])| <= |Normal(nodes[p.1])|
  }

  function Offered(nodes: Nodes, p: NodePair): (r: seq<IfacePair>)
    requires Known(nodes, p)
  {
    EqualInterfaceNumbers(Normal(nodes[p.0]), Normal(nodes[p.1]))
  }

  /** The interface pairs that a link between the two nodes consists of. */
  function Wanted(nodes: Nodes, p: NodePair): (r: set<IfacePair>)
    requires Known(nodes, p)
  {
    set ip | ip in Offered(nodes, p) && Linkable(ip)
  }

  /** The interfaces are the i-th normal ones of both nodes, for some i; they have the same kind,
      and it is neither a hub nor the management one. */
  predicate LinkedAt(nodes: Nodes, p: NodePair, ip: IfacePair)
    requires p.0 in nodes && p.1 in nodes && |Normal(nodes[p.0])| <= |Normal(nodes[p.1])|
  {
    && (exists i :: 0 <= i < |Normal(nodes[p.0])| &&
                    Normal(nodes[p.0])[i] == ip.0 && Normal(nodes[p.1])[i] == ip.1)
    && ip.0.kind == ip.1.kind && ip.0.kind != HubWiFi && ip.0.kind != Management
  }

  /** A link consists of exactly these interfaces. */
  lemma WantedIff(nodes: Nodes, p: NodePair, ip: IfacePair)
    requires Known(nodes, p)
    ensures ip in Wanted(nodes, p) <==> LinkedAt(nodes, p, ip)
  {
    var xs, ys, offered := Normal(nodes[p.0]), Normal(nodes[p.1]), Offered(nodes, p);
    if ip in offered {
      var i :| 0 <= i < |offered| && offered[i] == ip;
      assert xs[i] == ip.0 && ys[i] == ip.1;
    }
    if i :| 0 <= i < |xs| && xs[i] == ip.0 && ys[i] == ip.1 {
      assert offered[i] == ip;
    }
  }
}
