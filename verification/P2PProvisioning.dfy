/**
 Point-to-point provisioning: every connected node pair gets a subnet of its own, and both
 nodes get an address in it.
 */
module P2PProvisioning {
  import opened Folding
  import opened Topology
  import opened Arithmetic
  import opened Subnets

  /** The key of a connection: the smaller node id first. */
  function Key(p: NodePair): (k: NodePair) {
    if p.0 <= p.1 then p else (p.1, p.0)
  }

  function Swap(p: NodePair): (r: NodePair) { (p.1, p.0) }

  predicate LexLe(p: NodePair, q: NodePair) {
    p.0 < q.0 || (p.0 == q.0 && p.1 <= q.1)
  }

  lemma {:induction false} FirstExists(todo: set<NodePair>)
    requires todo != {}
    ensures exists p :: p in todo && forall q :: q in todo ==> LexLe(p, q)
  {
    var x :| x in todo;
    if todo != {x} {
      FirstExists(todo - {x});
      var p :| p in todo - {x} && forall q :: q in todo - {x} ==> LexLe(p, q);
      var first := if LexLe(x, p) then x else p;
      assert forall q :: q in todo ==> q == x || q in todo - {x};
      assert first in todo && forall q :: q in todo ==> LexLe(first, q);
    }
  }

  /** What configuring one direction of a connection gives. */
  datatype Outcome = Assigned(ip: nat, subnet: Network) | NoMoreSubnets | NoMoreIps

  /** The address of a node towards its peer in their subnet: host 1 for the smaller id and
      host 2 for the greater one. */
  function HostIn(subnet: Network, p: NodePair): (ip: nat) {
    subnet.addr + if p.0 < p.1 then 1 else 2
  }

  /** One of the two directions of the pair is listed. */
  predicate Listed(conns: map<NodePair, IfacePair>, p: NodePair) {
    p in conns || Swap(p) in conns
  }

  /** The interface that a node uses towards its peer. */
  function NicOf(conns: map<NodePair, IfacePair>, p: NodePair): (i: Iface)
    requires Listed(conns, p)
  {
    if p in conns then conns[p].0 else conns[Swap(p)].1
  }

  /** The node with the smaller id gets the first host of the subnet for its interface, the other
      one the second host, and each of them pings the address of the other. */
  ghost predicate Supplied(cmds: map<NodePair, (Iface, nat)>, pings: map<NodePair, nat>, p: NodePair,
                           ip: IfacePair, addr: nat) {
    && p in cmds && cmds[p] == (ip.0, addr + 1)
    && (p.1, p.0) in cmds && cmds[(p.1, p.0)] == (ip.1, addr + 2)
    && p in pings && pings[p] == addr + 2
    && (p.1, p.0) in pings && pings[(p.1, p.0)] == addr + 1
  }

  /** Exactly the nodes of the connections are supplied. */
  ghost predicate Served(conns: map<NodePair, IfacePair>, used: map<NodePair, Network>,
                         cmds: map<NodePair, (Iface, nat)>, pings: map<NodePair, nat>) {
    && (forall p {:trigger p in cmds} :: p in cmds <==> Listed(conns, p))
    && (forall p {:trigger p in pings} :: p in pings <==> Listed(conns, p))
    && (forall p {:trigger p in conns} ::
          p in conns ==> p in used && Supplied(cmds, pings, p, conns[p], used[p].addr))
  }

  /** The connections are new, and whenever the first direction is to do, so is the second. */
  ghost predicate TodoOk(conns: map<NodePair, IfacePair>, before: set<NodePair>,
                         todo: set<NodePair>, used: map<NodePair, Network>) {
    && (forall p {:trigger p in todo} :: p in todo ==> Listed(conns, p))
    && (forall p {:trigger p in conns} ::
          p in conns ==> p.0 < p.1 && p !in before && (p in todo ==> Swap(p) in todo))
    && (forall p {:trigger p in used} :: p in used <==> p in before || (p in conns && p !in todo))
  }

  ghost predicate CmdsOk(conns: map<NodePair, IfacePair>, todo: set<NodePair>,
                         used: map<NodePair, Network>, cmds: map<NodePair, (Iface, nat)>) {
    && (forall p {:trigger p in cmds} :: p in cmds <==> Listed(conns, p) && p !in todo)
    && (forall p {:trigger cmds[p]} :: p in cmds ==>
          Key(p) in used && cmds[p] == (NicOf(conns, p), HostIn(used[Key(p)], p)))
  }

  ghost predicate PingsOk(conns: map<NodePair, IfacePair>, todo: set<NodePair>,
                          used: map<NodePair, Network>, pings: map<NodePair, nat>) {
    && (forall p {:trigger p in pings} :: p in pings <==> Listed(conns, p) && Swap(p) !in todo)
    && (forall p {:trigger pings[p]} :: p in pings ==>
          Key(p) in used && pings[p] == HostIn(used[Key(p)], Swap(p)))
  }

  ghost predicate IsFirst(p: NodePair, todo: set<NodePair>) {
    p in todo && forall q :: q in todo ==> LexLe(p, q)
  }

  /** The sorted order makes the smaller node come first. */
  lemma SmallerNodeFirst(conns: map<NodePair, IfacePair>, before: set<NodePair>,
                         todo: set<NodePair>, used: map<NodePair, Network>, p: NodePair)
    requires TodoOk(conns, before, todo, used) && IsFirst(p, todo)
    ensures p.0 != p.1 && Key(p) in conns
    ensures p in conns <==> p.0 < p.1
    ensures Key(p) in used <==> p.0 > p.1
  {
    if p.0 > p.1 {
      assert !LexLe(p, Swap(p));
      assert Swap(p) !in todo && Swap(p) in conns;
    } else {
      assert p in conns;
    }
  }

  lemma TodoNext(conns: map<NodePair, IfacePair>, before: set<NodePair>,
                 todo: set<NodePair>, used: map<NodePair, Network>, p: NodePair, subnet: Network)
    requires TodoOk(conns, before, todo, used) && IsFirst(p, todo)
    ensures TodoOk(conns, before, todo - {p}, used[Key(p) := subnet])
  {
    SmallerNodeFirst(conns, before, todo, used, p);
  }

  lemma CmdsNext(conns: map<NodePair, IfacePair>, todo: set<NodePair>,
                 used: map<NodePair, Network>, cmds: map<NodePair, (Iface, nat)>,
                 p: NodePair, subnet: Network)
    requires CmdsOk(conns, todo, used, cmds) && Listed(conns, p) && p in todo
    requires Key(p) in used ==> used[Key(p)] == subnet
    ensures CmdsOk(conns, todo - {p}, used[Key(p) := subnet],
                   cmds[p := (NicOf(conns, p), HostIn(subnet, p))])
  {
  }

  lemma PingsNext(conns: map<NodePair, IfacePair>, todo: set<NodePair>,
                  used: map<NodePair, Network>, pings: map<NodePair, nat>,
                  p: NodePair, subnet: Network)
    requires PingsOk(conns, todo, used, pings) && Listed(conns, p) && p in todo
    requires Key(p) in used ==> used[Key(p)] == subnet
    ensures PingsOk(conns, todo - {p}, used[Key(p) := subnet], pings[Swap(p) := HostIn(subnet, p)])
  {
    assert Swap(Swap(p)) == p && Key(Swap(p)) == Key(p);
    forall q
      ensures Swap(q) == p <==> q == Swap(p)
    {
    }
  }

  /** Every address that was given out is the right host of the subnet of the connection. */
  ghost predicate IssuedOk(issued: map<NodePair, nat>, used: map<NodePair, Network>) {
    forall p {:trigger p in issued} :: p in issued ==>
      p.0 != p.1 && Key(p) in used && issued[p] == HostIn(used[Key(p)], p)
  }

  ghost function Ips(cmds: map<NodePair, (Iface, nat)>): map<NodePair, nat> {
    map p | p in cmds :: cmds[p].1
  }

  lemma AtLeastFour(prefixlen: nat)
    requires prefixlen <= 30
    ensures Size(prefixlen) >= 4
  {
    Pow2Monotone(2, 32 - prefixlen);
    assert Pow2(2) == 4;
  }

  lemma StillMissing(all: set<NodePair>, todo: set<NodePair>, p: NodePair)
    requires p in all && p in todo
    ensures |all - todo| < |all|
  {
    assert p in all * todo;
    assert all == (all - todo) + (all * todo);
  }

  /** How far the configuration is, folded: only UnfoldProgress makes the parts available. */
  ghost predicate Progress(conns: map<NodePair, IfacePair>, before: set<NodePair>,
                           todo: set<NodePair>, used: map<NodePair, Network>,
                           cmds: map<NodePair, (Iface, nat)>, pings: map<NodePair, nat>) {
    forall b {:trigger Unfolding(ProgressPart, b)} :: Unfolding(ProgressPart, b) ==>
      && TodoOk(conns, before, todo, used)
      && CmdsOk(conns, todo, used, cmds) && PingsOk(conns, todo, used, pings)
  }

  lemma UnfoldProgress(conns: map<NodePair, IfacePair>, before: set<NodePair>,
                       todo: set<NodePair>, used: map<NodePair, Network>,
                       cmds: map<NodePair, (Iface, nat)>, pings: map<NodePair, nat>)
    requires Progress(conns, before, todo, used, cmds, pings)
    ensures TodoOk(conns, before, todo, used)
    ensures CmdsOk(conns, todo, used, cmds) && PingsOk(conns, todo, used, pings)
  {
    assert Unfolding(ProgressPart, true);
  }

  /** Every connection has the subnet of its position among the owners; folded. */
  ghost predicate Allocated(base: Network, prefixlen: nat, owners: seq<NodePair>,
                            index: map<NodePair, nat>, used: map<NodePair, Network>)
    requires prefixlen <= 32
  {
    forall b {:trigger Unfolding(OwnersPart, b)} :: Unfolding(OwnersPart, b) ==>
      && index.Keys == used.Keys
      && forall k {:trigger used[k]} {:trigger index[k]} :: k in used ==>
           && k.0 < k.1 && index[k] < |owners| && owners[index[k]] == k
           && used[k] == Block(base, prefixlen, index[k])
  }

  lemma AllocateNext(base: Network, prefixlen: nat, owners: seq<NodePair>,
                     index: map<NodePair, nat>, used: map<NodePair, Network>, key: NodePair)
    requires prefixlen <= 32 && Allocated(base, prefixlen, owners, index, used)
    requires key.0 < key.1 && key !in used
    ensures Allocated(base, prefixlen, owners + [key], index[key := |owners|],
                      used[key := Block(base, prefixlen, |owners|)])
  {
    assert Unfolding(OwnersPart, true);
  }

  lemma AllocatedAt(base: Network, prefixlen: nat, owners: seq<NodePair>,
                    index: map<NodePair, nat>, used: map<NodePair, Network>, k: NodePair)
    requires prefixlen <= 32 && Allocated(base, prefixlen, owners, index, used) && k in used
    ensures k.0 < k.1 && k in index && index[k] < |owners| && owners[index[k]] == k
    ensures used[k] == Block(base, prefixlen, index[k])
  {
    assert Unfolding(OwnersPart, true);
  }

  class NetworkConfiguratorP2P {
    const base: Network
    const prefixlen: nat
    const generator: seq<Network>
    /** The position of the subnet generator, and the subnet of every connection so far. */
    var next: nat
    var used: map<NodePair, Network>
    /** The node pairs in the order in which they took their subnets. */
    ghost var owners: seq<NodePair>
    ghost var index: map<NodePair, nat>
    /** All addresses given out so far, by node and peer. */
    ghost var issued: map<NodePair, nat>

    ghost function Total(): nat
      requires base.len < prefixlen
    {
      Pow2(prefixlen - base.len)
    }

    ghost predicate Valid()
      reads this
    {
      && base.len < prefixlen <= 32 && YieldsBlocks(generator, base, prefixlen)
      && |owners| == next <= Total()
      && Allocated(base, prefixlen, owners, index, used)
      && IssuedOk(issued, used)
    }

    constructor (base: Network, prefixlen: nat)
      requires base.len < prefixlen <= 32
      ensures Valid() && used == map[] && issued == map[]
      ensures this.base == base && this.prefixlen == prefixlen && next == 0
      ensures generator == GetSlashX(Halves(base), prefixlen)
    {
      this.base, this.prefixlen, generator := base, prefixlen, Generator(base, prefixlen);
      next, used, owners, index, issued := 0, map[], [], map[], map[];
      assert Allocated(base, prefixlen, [], map[], map[]);
    }

    /** One direction of a connection: the first call for a node pair takes a new subnet and
        host 1, every later call takes host 2. */
    method ConfigureConnection(p: NodePair) returns (r: Outcome)
      requires Valid() && p.0 != p.1
      modifies this`next, this`used, this`owners, this`index
      ensures Valid()
      ensures Key(p) in old(used) ==> used == old(used) && next == old(next) && index == old(index)
      ensures Key(p) !in old(used) && old(next) == Total() ==>
                r == NoMoreSubnets && used == old(used) && next == old(next)
      ensures Key(p) !in old(used) && old(next) < Total() ==>
                && used == old(used)[Key(p) := generator[old(next)]]
                && next == old(next) + 1 && index == old(index)[Key(p) := old(next)]
      ensures Key(p) in used ==>
                var host := if Key(p) in old(used) then 2 else 1;
                r == if host < Size(prefixlen) then Assigned(used[Key(p)].addr + host, used[Key(p)])
                     else NoMoreIps
    {
      var key := if p.0 <= p.1 then p else (p.1, p.0);
      var isNewSubnet := key !in used;
      var subnet;
      if !isNewSubnet {
        subnet := used[key];
      } else {
        if next == |generator| {
          return NoMoreSubnets;
        }
        subnet := generator[next];
        AllocateNext(base, prefixlen, owners, index, used, key);
        owners, index := owners + [key], index[key := next];
        used, next := used[key := subnet], next + 1;
      }
      var offset := if isNewSubnet then 0 else 1;
      if 1 + offset >= Size(prefixlen) {
        return NoMoreIps;
      }
      return Assigned(subnet.addr + 1 + offset, subnet);
    }

    /** Both directions of one connection, in order: the two addresses differ iff the node pair
        was not configured before. */
    method ConfigureBothDirections(p: NodePair) returns (x: Outcome, y: Outcome)
      requires Valid() && p.0 < p.1 && prefixlen <= 30
      modifies this`next, this`used, this`owners, this`index
      ensures Valid()
      ensures x.Assigned? <==> Key(p) in old(used) || old(next) < Total()
      ensures x.Assigned? ==> y.Assigned? && x.subnet == y.subnet
      ensures x.Assigned? ==> (x.ip != y.ip <==> p !in old(used))
    {
      AtLeastFour(prefixlen);
      x := ConfigureConnection(p);
      y := ConfigureConnection(Swap(p));
    }

    /** All new connections, with their interfaces. Every connection is handled in both
        directions, sorted by node ids. It succeeds iff there are enough subnets; then every
        node has its address and is told to ping the address of its peer. */
    method GetNicConfigurationCommands(conns: map<NodePair, IfacePair>)
      returns (ok: bool, cmds: map<NodePair, (Iface, nat)>, pings: map<NodePair, nat>)
      requires Valid() && prefixlen <= 30
      requires forall p :: p in conns ==> p.0 < p.1 && p !in used
      modifies this
      ensures Valid()
      ensures ok <==> old(next) + |conns| <= Total()
      ensures ok ==> Served(conns, used, cmds, pings)
      ensures ok ==> Ascending(conns, used)
      ensures ok ==> used.Keys == old(used).Keys + conns.Keys
      ensures issued == if ok then old(issued) + Ips(cmds) else old(issued)
    {
      ok, cmds, pings := ConfigureNew(conns);
      if ok {
        issued := issued + Ips(cmds);
      }
    }

    method ConfigureNew(conns: map<NodePair, IfacePair>)
      returns (ok: bool, cmds: map<NodePair, (Iface, nat)>, pings: map<NodePair, nat>)
      requires Valid() && prefixlen <= 30
      requires forall p :: p in conns ==> p.0 < p.1 && p !in used
      modifies this`next, this`used, this`owners, this`index
      ensures Valid()
      ensures ok <==> old(next) + |conns| <= Total()
      ensures ok ==> Served(conns, used, cmds, pings) && Ascending(conns, used)
      ensures ok ==> used.Keys == old(used).Keys + conns.Keys
      ensures ok ==> IssuedOk(issued + Ips(cmds), used)
    {
      ghost var before := used.Keys;
      ok, cmds, pings := ConfigureAll(conns);
      if ok {
        Complete(this, conns, before, cmds, pings);
      }
    }

    method ConfigureAll(conns: map<NodePair, IfacePair>)
      returns (ok: bool, cmds: map<NodePair, (Iface, nat)>, pings: map<NodePair, nat>)
      requires Valid() && prefixlen <= 30
      requires forall p :: p in conns ==> p.0 < p.1 && p !in used
      modifies this`next, this`used, this`owners, this`index
      ensures Valid()
      ensures ok <==> old(next) + |conns| <= Total()
      ensures ok ==> Progress(conns, old(used).Keys, {}, used, cmds, pings)
      ensures ok ==> TakenInOrder(conns, {}, index, next)
    {
      var todo := conns.Keys + set p | p in conns :: Swap(p);
      cmds, pings := map[], map[];
      ghost var before := used.Keys;
      Started(conns, used, todo);
      while todo != {}
        invariant Valid() && Progress(conns, before, todo, used, cmds, pings)
        invariant TakenInOrder(conns, todo, index, next)
        invariant next == old(next) + |conns.Keys - todo|
      {
        FirstExists(todo);
        var p :| p in todo && forall q :: q in todo ==> LexLe(p, q);
        ok, cmds, pings := ConfigureFirst(conns, before, todo, p, cmds, pings);
        if !ok {
          StillMissing(conns.Keys, todo, p);
          return;
        }
        OneLess(conns.Keys, todo, p);
        todo := todo - {p};
      }
      assert conns.Keys - {} == conns.Keys;
      ok := true;
    }

    /** The next direction in sorted order. */
    method ConfigureFirst(conns: map<NodePair, IfacePair>, ghost before: set<NodePair>,
                          ghost todo: set<NodePair>, p: NodePair,
                          cmds0: map<NodePair, (Iface, nat)>, pings0: map<NodePair, nat>)
      returns (ok: bool, cmds: map<NodePair, (Iface, nat)>, pings: map<NodePair, nat>)
      requires Valid() && prefixlen <= 30
      requires Progress(conns, before, todo, used, cmds0, pings0) && IsFirst(p, todo)
      requires TakenInOrder(conns, todo, index, next)
      modifies this`next, this`used, this`owners, this`index
      ensures Valid()
      ensures ok ==> Progress(conns, before, todo - {p}, used, cmds, pings)
      ensures ok ==> next == old(next) + if p in conns then 1 else 0
      ensures ok ==> TakenInOrder(conns, todo - {p}, index, next)
      ensures !ok ==> p in conns && next == old(next) == Total()
    {
      AtLeastFour(prefixlen);
      ghost var was := used;
      TakenNext(conns, todo, index, p, next);
      UnfoldProgress(conns, before, todo, was, cmds0, pings0);
      SmallerNodeFirst(conns, before, todo, was, p);
      var r := ConfigureConnection(p);
      if r == NoMoreSubnets {
        return false, cmds0, pings0;
      }
      assert used == was[Key(p) := r.subnet] && r.ip == HostIn(r.subnet, p);
      TodoNext(conns, before, todo, was, p, r.subnet);
      CmdsNext(conns, todo, was, cmds0, p, r.subnet);
      PingsNext(conns, todo, was, pings0, p, r.subnet);
      return true, cmds0[p := (NicOf(conns, p), r.ip)], pings0[Swap(p) := r.ip];
    }
  }

  lemma Started(conns: map<NodePair, IfacePair>, used: map<NodePair, Network>, todo: set<NodePair>)
    requires forall p {:trigger p in conns} :: p in conns ==> p.0 < p.1 && p !in used
    requires todo == conns.Keys + set p | p in conns :: Swap(p)
    ensures Progress(conns, used.Keys, todo, used, map[], map[])
    ensures conns.Keys - todo == {}
  {
    forall p
      ensures p in todo <==> Listed(conns, p)
      ensures Swap(p) in todo <==> Listed(conns, p)
    {
      assert Swap(Swap(p)) == p;
    }
  }

  lemma IssueMore(issued: map<NodePair, nat>, used: map<NodePair, Network>,
                  cmds: map<NodePair, (Iface, nat)>)
    requires IssuedOk(issued, used)
    requires forall p {:trigger cmds[p]} :: p in cmds ==>
               p.0 != p.1 && Key(p) in used && cmds[p].1 == HostIn(used[Key(p)], p)
    ensures IssuedOk(issued + Ips(cmds), used)
  {
  }

  lemma OneLess(all: set<NodePair>, todo: set<NodePair>, p: NodePair)
    requires p in todo
    ensures |all - (todo - {p})| == |all - todo| + if p in all then 1 else 0
  {
    if p in all {
      assert all - (todo - {p}) == (all - todo) + {p};
    } else {
      assert all - (todo - {p}) == all - todo;
    }
  }

  /** The connections took their subnets in sorted order; folded. */
  ghost predicate TakenInOrder(conns: map<NodePair, IfacePair>, todo: set<NodePair>,
                               index: map<NodePair, nat>, next: nat) {
    forall b {:trigger Unfolding(OrderPart, b)} :: Unfolding(OrderPart, b) ==>
      && (forall p {:trigger p in conns} :: p in conns && p !in todo ==> p in index && index[p] < next)
      && (forall p, q {:trigger p in conns, q in todo} ::
            p in conns && p !in todo && q in todo ==> LexLe(p, q))
      && (forall p, q {:trigger p in conns, q in conns} ::
            p in conns && q in conns && p !in todo && q !in todo && LexLe(p, q) && p != q ==>
              index[p] < index[q])
  }

  lemma TakenNext(conns: map<NodePair, IfacePair>, todo: set<NodePair>, index: map<NodePair, nat>,
                  p: NodePair, next: nat)
    requires TakenInOrder(conns, todo, index, next) && IsFirst(p, todo)
    ensures if p in conns then TakenInOrder(conns, todo - {p}, index[p := next], next + 1)
            else TakenInOrder(conns, todo - {p}, index, next)
  {
    assert Unfolding(OrderPart, true);
  }

  /** A later subnet begins behind the end of an earlier one. */
  lemma LaterIsHigher(base: Network, prefixlen: nat, k: nat, l: nat)
    requires prefixlen <= 32 && k < l
    ensures Block(base, prefixlen, k).addr + Pow2(32 - prefixlen) <= Block(base, prefixlen, l).addr
  {
    Distribute(k, l - k, Size(prefixlen));
    ProductMonotone(1, l - k, Size(prefixlen));
  }

  /** Sorted by node ids, the connections have subnets of ascending addresses. */
  ghost predicate Ascending(conns: map<NodePair, IfacePair>, used: map<NodePair, Network>) {
    conns.Keys <= used.Keys &&
    forall p, q {:trigger used[p], used[q]} :: p in conns && q in conns ==>
      (p.0 < q.0 || (p.0 == q.0 && p.1 < q.1)) ==> used[p].addr < used[q].addr
  }

  lemma SubnetsAscend(base: Network, prefixlen: nat, conns: map<NodePair, IfacePair>, owners: seq<NodePair>,
                      used: map<NodePair, Network>, index: map<NodePair, nat>, next: nat)
    requires prefixlen <= 32 && TakenInOrder(conns, {}, index, next)
    requires Allocated(base, prefixlen, owners, index, used) && conns.Keys <= used.Keys
    ensures Ascending(conns, used)
  {
    assert Unfolding(OrderPart, true);
    forall p, q | p in conns && q in conns && (p.0 < q.0 || (p.0 == q.0 && p.1 < q.1))
      ensures used[p].addr < used[q].addr
    {
      assert LexLe(p, q) && p != q;
      AllocatedAt(base, prefixlen, owners, index, used, p);
      AllocatedAt(base, prefixlen, owners, index, used, q);
      LaterIsHigher(base, prefixlen, index[p], index[q]);
    }
  }

  lemma OneSupplied(conns: map<NodePair, IfacePair>, before: set<NodePair>, used: map<NodePair, Network>,
                    cmds: map<NodePair, (Iface, nat)>, pings: map<NodePair, nat>, p: NodePair)
    requires TodoOk(conns, before, {}, used) && CmdsOk(conns, {}, used, cmds) && PingsOk(conns, {}, used, pings)
    requires p in conns
    ensures p in used && Supplied(cmds, pings, p, conns[p], used[p].addr)
  {
    var q := (p.1, p.0);
    assert p.0 < p.1 && Swap(p) == q && Swap(q) == p && Key(p) == p && Key(q) == p;
    assert q !in conns;
    assert p in cmds && q in cmds && p in pings && q in pings;
  }

  lemma Finished(conns: map<NodePair, IfacePair>, before: set<NodePair>,
                 used: map<NodePair, Network>, cmds: map<NodePair, (Iface, nat)>,
                 pings: map<NodePair, nat>)
    requires Progress(conns, before, {}, used, cmds, pings)
    ensures Served(conns, used, cmds, pings) && used.Keys == before + conns.Keys
    ensures forall p {:trigger cmds[p]} :: p in cmds ==>
              p.0 != p.1 && Key(p) in used && cmds[p].1 == HostIn(used[Key(p)], p)
  {
    UnfoldProgress(conns, before, {}, used, cmds, pings);
    forall p | p in conns
      ensures p in used && Supplied(cmds, pings, p, conns[p], used[p].addr)
    {
      OneSupplied(conns, before, used, cmds, pings, p);
    }
  }

  lemma Complete(c: NetworkConfiguratorP2P, conns: map<NodePair, IfacePair>, before: set<NodePair>,
                 cmds: map<NodePair, (Iface, nat)>, pings: map<NodePair, nat>)
    requires c.Valid() && Progress(conns, before, {}, c.used, cmds, pings)
    requires TakenInOrder(conns, {}, c.index, c.next)
    ensures Served(conns, c.used, cmds, pings) && Ascending(conns, c.used)
    ensures c.used.Keys == before + conns.Keys && IssuedOk(c.issued + Ips(cmds), c.used)
  {
    Finished(conns, before, c.used, cmds, pings);
    IssueMore(c.issued, c.used, cmds);
    SubnetsAscend(c.base, c.prefixlen, conns, c.owners, c.used, c.index, c.next);
  }

  /** No address is ever given out twice: over any run, different nodes or peers have
      different addresses, and different connections have disjoint subnets. */
  lemma NoAddressTwice(c: NetworkConfiguratorP2P, p: NodePair, q: NodePair)
    requires c.Valid() && c.prefixlen <= 30 && p in c.issued && q in c.issued && p != q
    ensures c.issued[p] != c.issued[q]
    ensures Key(p) != Key(q) ==>
              var x, y, size := c.used[Key(p)].addr, c.used[Key(q)].addr, Pow2(32 - c.prefixlen);
              x + size <= y || y + size <= x
  {
    AtLeastFour(c.prefixlen);
    AllocatedAt(c.base, c.prefixlen, c.owners, c.index, c.used, Key(p));
    AllocatedAt(c.base, c.prefixlen, c.owners, c.index, c.used, Key(q));
    if Key(p) != Key(q) {
      var k, l := c.index[Key(p)], c.index[Key(q)];
      assert c.owners[k] == Key(p) && c.owners[l] == Key(q);
      if k < l {
        LaterIsHigher(c.base, c.prefixlen, k, l);
      } else {
        LaterIsHigher(c.base, c.prefixlen, l, k);
      }
    }
  }
}
