/**
 Same-subnet provisioning: every interface (type and number) has a subnet, and the address
 of a node in it follows from the node id alone, so that all servers compute the same one.
 */
module SameSubnetProvisioning {
  import opened Folding
  import opened Topology
  import opened Arithmetic
  import opened Counting
  import opened Subnets

  /** Appends the first j of the listed interfaces in the order of their first appearance. */
  function AddFirst(order: seq<Iface>, ifs: seq<Iface>, j: nat): (r: seq<Iface>)
    requires j <= |ifs|
  {
    if j == 0 then order else AddNew(AddFirst(order, ifs, j - 1), ifs[j - 1])
  }

  function AddAll(order: seq<Iface>, ifs: seq<Iface>): (r: seq<Iface>) {
    AddFirst(order, ifs, |ifs|)
  }

  /** The order in which nodes 1..k ask for the subnets of their interfaces. */
  function Order(nodes: Nodes, k: nat): (r: seq<Iface>)
    requires forall n :: 1 <= n <= k ==> n in nodes
  {
    if k == 0 then [] else AddAll(Order(nodes, k - 1), Normal(nodes[k]))
  }

  /** How many of the first n interfaces are of this type. */
  function CountKind(ifs: seq<Iface>, kind: Kind, n: nat): (c: nat)
    requires n <= |ifs|
    ensures (exists k :: 0 <= k < n && ifs[k].kind == kind) ==> c >= 1
  {
    if n == 0 then 0
    else CountKind(ifs, kind, n - 1) + if ifs[n - 1].kind == kind then 1 else 0
  }

  /** The host number of an interface of a node. */
  function HostNumber(ifs: seq<Iface>, node: nat, i: Iface): (h: nat) {
    node * CountKind(ifs, i.kind, |ifs|)
  }

  /** The first position of an interface at or behind k. */
  function IndexFrom(order: seq<Iface>, i: Iface, k: nat): (r: nat)
    requires exists l :: k <= l < |order| && order[l] == i
    ensures k <= r < |order| && order[r] == i
    decreases |order| - k
  {
    if order[k] == i then k else IndexFrom(order, i, k + 1)
  }

  function IndexOf(order: seq<Iface>, i: Iface): (k: nat)
    requires i in order
    ensures k < |order| && order[k] == i
  {
    IndexFrom(order, i, 0)
  }

  /** The base network, the prefix length of the subnets, and the interfaces of every node. */
  datatype Plan = Plan(base: Network, prefixlen: nat, nodes: Nodes, cnt: nat) {

    ghost predicate Valid() {
      base.len < prefixlen <= 32 && forall n :: 1 <= n <= cnt ==> n in nodes
    }

    /** How many subnets there are. */
    function Total(): (r: nat)
      requires base.len < prefixlen
    {
      Pow2(prefixlen - base.len)
    }

    /** The address of an interface of a node when the subnets were asked for in this order. */
    function AddressIn(order: seq<Iface>, node: nat, i: Iface): (ip: nat)
      requires prefixlen <= 32 && node in nodes && i in order
    {
      Block(base, prefixlen, IndexOf(order, i)).addr + HostNumber(nodes[node], node, i)
    }

    ghost predicate FirstHostsFit(node: nat, j: nat)
      requires prefixlen <= 32 && node in nodes && j <= |Normal(nodes[node])|
    {
      forall k :: 0 <= k < j ==>
        HostNumber(nodes[node], node, Normal(nodes[node])[k]) < Size(prefixlen)
    }

    /** The host number of every normal interface of the node lies inside its subnet. */
    ghost predicate HostsFit(node: nat)
      requires prefixlen <= 32 && node in nodes
    {
      FirstHostsFit(node, |Normal(nodes[node])|)
    }

    /** There are subnets for all interfaces, and addresses for all nodes in them. */
    ghost predicate Sufficient()
      requires Valid()
    {
      |Order(nodes, cnt)| <= Total() && FirstFit(cnt)
    }

    ghost predicate FirstFit(k: nat)
      requires Valid() && k <= cnt
    {
      forall n {:trigger HostsFit(n)} :: 1 <= n <= k ==> HostsFit(n)
    }

    lemma FirstFitNext(k: nat)
      requires Valid() && k < cnt && FirstFit(k) && HostsFit(k + 1)
      ensures FirstFit(k + 1)
    {
    }

    /** Interface i belongs to node n of the scenario. */
    predicate Has(n: nat, i: Iface) {
      1 <= n <= cnt && n in nodes && i in Normal(nodes[n])
    }

    /** The address of an interface of a node: it depends on the scenario only. */
    function AddressOf(node: nat, i: Iface): (ip: nat)
      requires Valid() && Has(node, i)
    {
      OrderKeeps(nodes, cnt);
      AddressIn(Order(nodes, cnt), node, i)
    }

    /** The node got the address of each of its normal interfaces. */
    ghost predicate Configured(node: nat, addresses: seq<nat>)
      requires Valid() && 1 <= node <= cnt
    {
      && |addresses| == |Normal(nodes[node])|
      && forall k :: 0 <= k < |addresses| ==>
           addresses[k] == AddressOf(node, Normal(nodes[node])[k])
    }

    /** Exactly the first j listed nodes have been configured. */
    ghost predicate AllConfigured(locals: seq<nat>, j: nat, commands: map<nat, seq<nat>>)
      requires Valid() && j <= |locals|
    {
      && (forall n :: n in commands ==> 1 <= n <= cnt && Configured(n, commands[n]))
      && (forall n :: n in commands ==> n in locals)
      && (forall k :: 0 <= k < j ==> locals[k] in commands)
    }

    /** The order after the first k nodes, in the first or in a later pass over all nodes. */
    ghost function Reached(again: bool, k: nat): seq<Iface>
      requires Valid() && k <= cnt
    {
      Order(nodes, if again then cnt else k)
    }

    lemma ReachedNext(again: bool, k: nat)
      requires Valid() && k < cnt
      ensures AddAll(Reached(again, k), Normal(nodes[k + 1])) == Reached(again, k + 1)
      ensures |Reached(again, k + 1)| <= |Order(nodes, cnt)|
      ensures Sufficient() ==> HostsFit(k + 1)
    {
      if again {
        AlreadyOrdered(k + 1);
      }
      OrderGrows(nodes, k + 1, cnt);
    }

    /** No node asks for a subnet that is not in the order already. */
    lemma AlreadyOrdered(node: nat)
      requires Valid() && 1 <= node <= cnt
      ensures AddAll(Order(nodes, cnt), Normal(nodes[node])) == Order(nodes, cnt)
    {
      OrderKeeps(nodes, cnt);
      AddKnown(Order(nodes, cnt), Normal(nodes[node]), |Normal(nodes[node])|);
    }
  }

  // ----- Facts about the order --------------------------------------------------------

  lemma {:induction false} AddFirstKeeps(order: seq<Iface>, ifs: seq<Iface>, j: nat)
    requires Distinct(order) && j <= |ifs|
    ensures Distinct(AddFirst(order, ifs, j)) && order <= AddFirst(order, ifs, j)
    ensures forall k :: 0 <= k < j ==> ifs[k] in AddFirst(order, ifs, j)
  {
    if j > 0 {
      AddFirstKeeps(order, ifs, j - 1);
    }
  }

  lemma AddAllKeeps(order: seq<Iface>, ifs: seq<Iface>)
    requires Distinct(order)
    ensures Distinct(AddAll(order, ifs)) && order <= AddAll(order, ifs)
    ensures forall i :: i in ifs ==> i in AddAll(order, ifs)
  {
    AddFirstKeeps(order, ifs, |ifs|);
  }

  lemma {:induction false} OrderKeeps(nodes: Nodes, k: nat)
    requires forall n :: 1 <= n <= k ==> n in nodes
    ensures Distinct(Order(nodes, k))
    ensures forall n, i :: 1 <= n <= k && i in Normal(nodes[n]) ==> i in Order(nodes, k)
  {
    if k > 0 {
      OrderKeeps(nodes, k - 1);
      AddAllKeeps(Order(nodes, k - 1), Normal(nodes[k]));
      forall n, i | 1 <= n < k && i in Normal(nodes[n])
        ensures i in Order(nodes, k)
      {
        assert i in Order(nodes, k - 1);
      }
    }
  }

  lemma {:induction false} OrderGrows(nodes: Nodes, k: nat, l: nat)
    requires k <= l && forall n :: 1 <= n <= l ==> n in nodes
    ensures Order(nodes, k) <= Order(nodes, l)
    decreases l
  {
    if k < l {
      OrderGrows(nodes, k, l - 1);
      OrderKeeps(nodes, l - 1);
      AddAllKeeps(Order(nodes, l - 1), Normal(nodes[l]));
    }
  }

  lemma {:induction false} AddFirstGrows(order: seq<Iface>, ifs: seq<Iface>, j: nat)
    requires j <= |ifs|
    ensures AddFirst(order, ifs, j) <= AddAll(order, ifs)
    decreases |ifs| - j
  {
    if j < |ifs| {
      AddFirstGrows(order, ifs, j + 1);
    }
  }

  lemma {:induction false} AddKnown(order: seq<Iface>, ifs: seq<Iface>, j: nat)
    requires j <= |ifs| && forall i :: i in ifs ==> i in order
    ensures AddFirst(order, ifs, j) == order
  {
    if j > 0 {
      AddKnown(order, ifs, j - 1);
    }
  }

  lemma {:induction false} IndexFromIsStable(order: seq<Iface>, order': seq<Iface>, i: Iface, k: nat)
    requires order <= order' && exists l :: k <= l < |order| && order[l] == i
    ensures IndexFrom(order', i, k) == IndexFrom(order, i, k)
    decreases |order| - k
  {
    if order[k] != i {
      IndexFromIsStable(order, order', i, k + 1);
    }
  }

  lemma IndexIsStable(order: seq<Iface>, order': seq<Iface>, i: Iface)
    requires i in order && order <= order'
    ensures i in order' && IndexOf(order', i) == IndexOf(order, i)
  {
    IndexFromIsStable(order, order', i, 0);
  }

  // ----- The configurator -------------------------------------------------------------

  /** The addresses of the first interfaces of a node, folded. */
  ghost predicate Listed(p: Plan, order: seq<Iface>, node: nat, addresses: seq<nat>)
    requires p.prefixlen <= 32 && node in p.nodes && |addresses| <= |Normal(p.nodes[node])|
  {
    forall b {:trigger Unfolding(AddressesPart, b)} :: Unfolding(AddressesPart, b) ==>
      forall k :: 0 <= k < |addresses| ==>
        var i := Normal(p.nodes[node])[k];
        i in order && addresses[k] == p.AddressIn(order, node, i)
  }

  /** The addresses of all interfaces are those that the scenario determines. */
  lemma ListedIsConfigured(p: Plan, node: nat, addresses: seq<nat>)
    requires p.Valid() && 1 <= node <= p.cnt && |addresses| == |Normal(p.nodes[node])|
    requires Listed(p, Order(p.nodes, p.cnt), node, addresses)
    ensures p.Configured(node, addresses)
  {
    assert Unfolding(AddressesPart, true);
  }

  lemma ListedNext(p: Plan, order: seq<Iface>, full: seq<Iface>, node: nat, addresses: seq<nat>)
    requires p.prefixlen <= 32 && node in p.nodes && order <= full
    requires |addresses| < |Normal(p.nodes[node])| && Listed(p, full, node, addresses)
    requires Normal(p.nodes[node])[|addresses|] in order
    ensures var i := Normal(p.nodes[node])[|addresses|];
            Listed(p, full, node, addresses + [p.AddressIn(order, node, i)])
  {
    assert Unfolding(AddressesPart, true);
    IndexIsStable(order, full, Normal(p.nodes[node])[|addresses|]);
  }

  class NetworkConfiguratorSameSubnet {
    const plan: Plan
    const generator: seq<Network>
    var next: nat
    var subnets: map<Iface, Network>
    var ips: map<(nat, Iface), nat>
    ghost var order: seq<Iface>

    ghost predicate SubnetsOk()
      reads this
      requires plan.prefixlen <= 32
    {
      && |order| == next && YieldsBlocks(generator, plan.base, plan.prefixlen)
      && (forall i :: i in subnets <==> i in order)
      && (forall i :: i in subnets ==>
            subnets[i] == Block(plan.base, plan.prefixlen, IndexOf(order, i)))
    }

    /** A remembered address is the one that the node id and the subnet determine. */
    ghost predicate IpsOk()
      reads this
      requires plan.prefixlen <= 32
    {
      forall n, i {:trigger (n, i) in ips} :: (n, i) in ips ==>
        && n in plan.nodes && i in order
        && HostNumber(plan.nodes[n], n, i) < Size(plan.prefixlen)
        && ips[(n, i)] == plan.AddressIn(order, n, i)
    }

    /** The invariant, folded: only the lemma Unfold makes it available. */
    ghost predicate Valid()
      reads this
    {
      && plan.Valid() && |order| <= plan.Total() == |generator|
      && (forall b {:trigger Unfolding(SubnetsPart, b)} :: Unfolding(SubnetsPart, b) ==> SubnetsOk() && IpsOk())
    }

    constructor (plan: Plan)
      requires plan.Valid()
      ensures Valid() && order == [] && this.plan == plan
      ensures generator == GetSlashX(Halves(plan.base), plan.prefixlen)
    {
      this.plan, generator := plan, Generator(plan.base, plan.prefixlen);
      next, subnets, ips, order := 0, map[], map[], [];
    }

    lemma Unfold()
      requires Valid()
      ensures SubnetsOk() && IpsOk()
    {
      assert Unfolding(SubnetsPart, true);
    }

    /** The subnet of an interface: the old one, or the next one of the generator. */
    method GetSubnet(i: Iface) returns (r: Option<Network>)
      requires Valid()
      modifies this`next, this`subnets, this`order
      ensures Valid()
      ensures r.None? <==> i !in old(order) && |old(order)| == plan.Total()
      ensures r.None? ==> order == old(order)
      ensures r.Some? ==>
                && order == AddNew(old(order), i)
                && r.value == generator[IndexOf(order, i)]
    {
      Unfold();
      if i !in subnets {
        if next == |generator| {
          return None;
        }
        subnets := subnets[i := generator[next]];
        order := order + [i];
        next := next + 1;
        assert i in order;
        forall j | j in old(order)
          ensures IndexOf(order, j) == IndexOf(old(order), j)
        {
          IndexIsStable(old(order), order, j);
        }
      }
      return Some(subnets[i]);
    }

    /** The address of one interface of a node: the remembered one, or a new one. */
    method ConfigureInterface(node: nat, i: Iface) returns (ip: Option<nat>)
      requires Valid() && node in plan.nodes
      modifies this`next, this`subnets, this`order, this`ips
      ensures Valid()
      ensures ip.None? <==>
                || (i !in old(order) && |old(order)| == plan.Total())
                || HostNumber(plan.nodes[node], node, i) >= Size(plan.prefixlen)
      ensures ip.Some? ==>
                order == AddNew(old(order), i) && ip.value == plan.AddressIn(order, node, i)
    {
      var subnet := GetSubnet(i);
      if subnet == None {
        return None;
      }
      Unfold();
      if (node, i) in ips {
        ip := Some(ips[(node, i)]);
      } else {
        var offset := HostNumber(plan.nodes[node], node, i);
        if offset >= Size(plan.prefixlen) {
          return None;
        }
        ip := Some(subnet.value.addr + offset);
      }
      ips := ips[(node, i) := ip.value];
    }

    /** Configures the normal interfaces of one node in order. */
    method ConfigureConnection(node: nat) returns (r: Option<seq<nat>>)
      requires Valid() && node in plan.nodes
      modifies this`next, this`subnets, this`order, this`ips
      ensures Valid()
      ensures r.Some? <==>
                && |AddAll(old(order), Normal(plan.nodes[node]))| <= plan.Total()
                && plan.HostsFit(node)
      ensures r.Some? ==>
                && order == AddAll(old(order), Normal(plan.nodes[node]))
                && |r.value| == |Normal(plan.nodes[node])|
                && Listed(plan, order, node, r.value)
    {
      var normal := Normal(plan.nodes[node]);
      var addresses: seq<nat> := [];
      ghost var full := AddAll(order, normal);
      for j := 0 to |normal|
        invariant Valid()
        invariant order == AddFirst(old(order), normal, j) && |addresses| == j
        invariant Listed(plan, full, node, addresses)
        invariant plan.FirstHostsFit(node, j)
      {
        AddFirstGrows(old(order), normal, j + 1);
        var ip := ConfigureInterface(node, normal[j]);
        if ip == None {
          return None;
        }
        ListedNext(plan, order, full, node, addresses);
        addresses := addresses + [ip.value];
      }
      return Some(addresses);
    }

    /** Nothing was asked for yet, or everything was. */
    ghost predicate Settled()
      reads this
      requires plan.Valid()
    {
      order == [] || order == Order(plan.nodes, plan.cnt)
    }

    /** Every server runs over all nodes of the scenario first. */
    method AllocateIps() returns (ok: bool)
      requires Valid() && Settled()
      modifies this`next, this`subnets, this`order, this`ips
      ensures Valid()
      ensures ok <==> plan.Sufficient()
      ensures ok ==> order == Order(plan.nodes, plan.cnt)
    {
      ghost var again := order == Order(plan.nodes, plan.cnt);
      for k := 0 to plan.cnt
        invariant Valid() && order == plan.Reached(again, k)
        invariant plan.FirstFit(k)
      {
        plan.ReachedNext(again, k);
        var addresses := ConfigureConnection(k + 1);
        if addresses == None {
          return false;
        }
        plan.FirstFitNext(k);
      }
      return true;
    }

    /** The addresses of the nodes of this server. Calling it again gives the same ones. */
    method GetNicConfigurationCommands(locals: seq<nat>) returns (r: Option<map<nat, seq<nat>>>)
      requires Valid() && Settled()
      requires forall k :: 0 <= k < |locals| ==> 1 <= locals[k] <= plan.cnt
      modifies this`next, this`subnets, this`order, this`ips
      ensures r.Some? <==> plan.Sufficient()
      ensures r.Some? ==> Valid() && Settled() && plan.AllConfigured(locals, |locals|, r.value)
    {
      var ok := AllocateIps();
      if !ok {
        return None;
      }
      ghost var all := Order(plan.nodes, plan.cnt);
      var commands := map[];
      for j := 0 to |locals|
        invariant Valid() && order == all
        invariant plan.AllConfigured(locals, j, commands)
      {
        var node := locals[j];
        plan.AlreadyOrdered(node);
        var addresses := ConfigureConnection(node);
        ListedIsConfigured(plan, node, addresses.value);
        commands := commands[node := addresses.value];
      }
      return Some(commands);
    }
  }

  // ----- Properties of the addresses --------------------------------------------------

  /** Every address lies inside the subnet of its interface and is not the network address. */
  lemma AddressIsHost(p: Plan, n: nat, i: Iface)
    requires p.Valid() && p.Sufficient() && p.Has(n, i)
    ensures i in Order(p.nodes, p.cnt) && IndexOf(Order(p.nodes, p.cnt), i) < p.Total()
    ensures var subnet := Block(p.base, p.prefixlen, IndexOf(Order(p.nodes, p.cnt), i));
            Contains(subnet, p.AddressOf(n, i)) && p.AddressOf(n, i) != subnet.addr
  {
    OrderKeeps(p.nodes, p.cnt);
    assert p.HostsFit(n);
    var ifs := p.nodes[n];
    var k :| 0 <= k < |ifs| && ifs[k] == i;
    ProductMonotone(1, CountKind(ifs, i.kind, |ifs|), n);
  }

  /** Two addresses coincide exactly when one interface has two nodes with one host number. */
  lemma CollisionIff(p: Plan, n: nat, i: Iface, m: nat, j: Iface)
    requires p.Valid() && p.Sufficient() && p.Has(n, i) && p.Has(m, j)
    ensures p.AddressOf(n, i) == p.AddressOf(m, j) <==>
            i == j && HostNumber(p.nodes[n], n, i) == HostNumber(p.nodes[m], m, i)
  {
    AddressIsHost(p, n, i);
    AddressIsHost(p, m, j);
    var order := Order(p.nodes, p.cnt);
    if p.AddressOf(n, i) == p.AddressOf(m, j) {
      BlocksDisjoint(p.base, p.prefixlen, IndexOf(order, i), IndexOf(order, j), p.AddressOf(n, i));
    }
  }

  /** When the nodes have the same interfaces, no address is given out twice. */
  lemma SameInterfacesNeverCollide(p: Plan, n: nat, i: Iface, m: nat, j: Iface)
    requires p.Valid() && p.Sufficient() && p.Has(n, i) && p.Has(m, j)
    requires p.nodes[n] == p.nodes[m]
    ensures p.AddressOf(n, i) == p.AddressOf(m, j) <==> n == m && i == j
  {
    CollisionIff(p, n, i, m, j);
    var count := CountKind(p.nodes[n], i.kind, |p.nodes[n]|);
    var k :| 0 <= k < |p.nodes[n]| && p.nodes[n][k] == i;
    if n < m {
      StrictProduct(n, m, count);
    } else if m < n {
      StrictProduct(m, n, count);
    }
  }

  lemma StrictProduct(a: nat, b: nat, c: nat)
    requires a < b && c > 0
    ensures a * c < b * c
  {
    Distribute(a, b - a, c);
    ProductMonotone(1, b - a, c);
  }

  /** With different interface counts the promise fails: node 1 with two mesh interfaces and
      node 2 with one share an address. */
  lemma DifferentCountsCollide()
    ensures var one := Iface(Mesh, 1);
            var p := Plan(Network(0x0a00_0000, 8), 16,
                          map[1 := [one, Iface(Mesh, 2)], 2 := [one]], 2);
            && p.Valid() && p.Sufficient() && p.Has(1, one) && p.Has(2, one)
            && p.AddressOf(1, one) == p.AddressOf(2, one)
  {
    var one, two := Iface(Mesh, 1), Iface(Mesh, 2);
    var p := Plan(Network(0x0a00_0000, 8), 16, map[1 := [one, two], 2 := [one]], 2);
    assert CountKind([one, two], Mesh, 1) == 1 && CountKind([one, two], Mesh, 2) == 2;
    assert CountKind([one], Mesh, 1) == 1;
    TwoMeshInterfaces();
    assert Order(p.nodes, 1) == AddAll([], Normal([one, two])) == [one, two];
    AddKnown([one, two], [one], 1);
    assert Order(p.nodes, 2) == AddAll([one, two], Normal([one])) == [one, two];
    assert HostNumber(p.nodes[1], 1, one) == 2 == HostNumber(p.nodes[1], 1, two);
    assert HostNumber(p.nodes[2], 2, one) == 2;
    assert p.HostsFit(1) && p.HostsFit(2);
  }

  lemma TwoMeshInterfaces()
    ensures var one, two := Iface(Mesh, 1), Iface(Mesh, 2);
            Normal([one, two]) == [one, two] == AddAll([], [one, two]) && Normal([one]) == [one]
  {
    var one, two := Iface(Mesh, 1), Iface(Mesh, 2);
    assert [one, two][1..] == [two] && [two][1..] == [] && [one][1..] == [];
    assert Normal([two]) == [two];
    assert AddFirst([], [one, two], 1) == [one];
  }

  // ----- The addresses as numbers -----------------------------------------------------

  /** The positions of the interfaces of this type among the first n. */
  function OfKind(ifs: seq<Iface>, kind: Kind, n: nat): (r: set<nat>)
    requires n <= |ifs|
  {
    set k: nat | k < n && ifs[k].kind == kind
  }

  lemma OfKindNext(ifs: seq<Iface>, kind: Kind, n: nat)
    requires n < |ifs|
    ensures |OfKind(ifs, kind, n + 1)| == |OfKind(ifs, kind, n)| + if ifs[n].kind == kind then 1 else 0
  {
    assert OfKind(ifs, kind, n + 1) == if ifs[n].kind == kind then OfKind(ifs, kind, n) + {n} else OfKind(ifs, kind, n);
  }

  lemma {:induction false} CountKindIs(ifs: seq<Iface>, kind: Kind, n: nat)
    requires n <= |ifs|
    ensures CountKind(ifs, kind, n) == |OfKind(ifs, kind, n)|
  {
    if n > 0 {
      CountKindIs(ifs, kind, n - 1);
      OfKindNext(ifs, kind, n - 1);
    }
  }

  /** The address of an interface of a node: the subnet of the interface, and in it the id of the
      node times the number of its interfaces of this type. */
  lemma AddressAsNumber(p: Plan, n: nat, i: Iface)
    requires p.Valid() && p.Has(n, i)
    ensures i in Order(p.nodes, p.cnt)
    ensures p.AddressOf(n, i) ==
            p.base.addr + IndexOf(Order(p.nodes, p.cnt), i) * Pow2(32 - p.prefixlen) +
            n * |set k: nat | k < |p.nodes[n]| && p.nodes[n][k].kind == i.kind|
  {
    OrderKeeps(p.nodes, p.cnt);
    CountKindIs(p.nodes[n], i.kind, |p.nodes[n]|);
    assert OfKind(p.nodes[n], i.kind, |p.nodes[n]|) ==
           set k: nat | k < |p.nodes[n]| && p.nodes[n][k].kind == i.kind;
  }

  lemma {:induction false} OnlyAsked(nodes: Nodes, n: nat, i: Iface)
    requires forall m :: 1 <= m <= n ==> m in nodes
    requires forall m :: 1 <= m <= n ==> i !in Normal(nodes[m])
    ensures i !in Order(nodes, n)
  {
    if n > 0 {
      OnlyAsked(nodes, n - 1, i);
      OnlyAdded(Order(nodes, n - 1), Normal(nodes[n]), |Normal(nodes[n])|, i);
    }
  }

  lemma {:induction false} OnlyAdded(order: seq<Iface>, ifs: seq<Iface>, j: nat, i: Iface)
    requires j <= |ifs| && i !in order && forall l :: 0 <= l < j ==> ifs[l] != i
    ensures i !in AddFirst(order, ifs, j)
  {
    if j > 0 {
      OnlyAdded(order, ifs, j - 1, i);
    }
  }

  lemma AddedSoFar(before: seq<Iface>, ifs: seq<Iface>, k: nat, j: Iface)
    requires k < |ifs| && j !in before && forall l :: 0 <= l <= k ==> ifs[l] != j
    ensures ifs[k] in AddFirst(before, ifs, k + 1) && j !in AddFirst(before, ifs, k + 1)
    ensures AddFirst(before, ifs, k + 1) <= AddAll(before, ifs)
  {
    OnlyAdded(before, ifs, k + 1, j);
    AddFirstGrows(before, ifs, k + 1);
  }

  lemma EarlierIndex(order: seq<Iface>, full: seq<Iface>, i: Iface, j: Iface)
    requires order <= full && i in order && j !in order && j in full
    ensures IndexOf(full, i) < IndexOf(full, j)
  {
    IndexIsStable(order, full, i);
    if IndexOf(full, j) < |order| {
      assert false;
    }
  }

  /** Subnets are taken in the order in which the nodes 1, 2, ... first need them: an interface
      that no node before node n has, nor node n up to its k-th normal interface, has a later
      subnet than this one. */
  lemma EarlierTakesFirst(nodes: Nodes, cnt: nat, n: nat, k: nat, j: Iface)
    requires (forall m :: 1 <= m <= cnt ==> m in nodes) && 1 <= n <= cnt && k < |Normal(nodes[n])|
    requires forall m :: 1 <= m <= n - 1 ==> j !in Normal(nodes[m])
    requires forall l :: 0 <= l <= k ==> Normal(nodes[n])[l] != j
    requires j in Order(nodes, cnt)
    ensures Normal(nodes[n])[k] in Order(nodes, cnt)
    ensures IndexOf(Order(nodes, cnt), Normal(nodes[n])[k]) < IndexOf(Order(nodes, cnt), j)
  {
    OnlyAsked(nodes, n - 1, j);
    AddedSoFar(Order(nodes, n - 1), Normal(nodes[n]), k, j);
    OrderGrows(nodes, n, cnt);
    EarlierIndex(AddFirst(Order(nodes, n - 1), Normal(nodes[n]), k + 1), Order(nodes, cnt), Normal(nodes[n])[k], j);
  }
}
