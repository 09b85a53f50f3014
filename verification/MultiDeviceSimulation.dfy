/**
 Simulation steps in multi-device mode.
 */
module MultiDeviceSimulation {
  import opened Folding
  import opened Topology
  import opened Connections
  import opened StaticTopology
  import opened MultiDevice
  import opened Switching

  const MAX_ID: nat := 100_000

  /** Remembers which node pairs have been connected and which tap devices are in use. */
  class ConnectionBookKeeper {
    var connections: set<NodePair>
    var interfaceStates: map<Tap, bool>

    constructor ()
      ensures connections == {} && interfaceStates == map[]
    {
      connections, interfaceStates := {}, map[];
    }

    /** Neither are the nodes connected nor is one of the tap devices in use. */
    predicate ShouldCreateNewConnection(p: NodePair, ip: IfacePair)
      reads this
    {
      p !in connections && (p.0, ip.0) !in interfaceStates && (p.1, ip.1) !in interfaceStates
    }

    method RememberBidirectionalConnection(p: NodePair, ip: IfacePair)
      modifies this
      ensures connections == old(connections) + {p}
      ensures interfaceStates == old(interfaceStates)[(p.0, ip.0) := false][(p.1, ip.1) := false]
    {
      interfaceStates := interfaceStates[(p.0, ip.0) := false];
      interfaceStates := interfaceStates[(p.1, ip.1) := false];
      connections := connections + {p};
    }
  }

  class NetworkBackendBridgedMultiDevice {
    const all: Adjacency
    const keeper: ConnectionBookKeeper
    var bridges: map<NodePair, IfacePair>
    ghost var book: Book

    ghost predicate Valid()
      reads this, keeper
    {
      && book.bridges == bridges && keeper.connections == bridges.Keys
      && keeper.interfaceStates.Keys == book.owner.Keys
      && (forall b {:trigger Unfolding(BridgesPart, b)} :: Unfolding(BridgesPart, b) ==> book.Valid())
    }

    constructor (all: Adjacency)
      ensures Valid() && book == Book(map[], map[]) && this.all == all && fresh(keeper)
    {
      this.all := all;
      keeper := new ConnectionBookKeeper();
      bridges, book := map[], Book(map[], map[]);
    }

    lemma Unfold()
      requires Valid()
      ensures book.Valid()
    {
      assert Unfolding(BridgesPart, true);
    }

    /** Creates a bridge with the two tap devices, unless the nodes have a bridge already or
        one of the tap devices is in use. Bridge names have room for five digits only. */
    method CreateConnection(p: NodePair, ip: IfacePair) returns (r: Option<bool>)
      requires Valid() && p.0 < p.1
      modifies this`bridges, this`book, keeper
      ensures Valid()
      ensures r == if p in old(bridges) || !old(book).Free(p, ip) then Some(false)
                   else if p.0 > 100_000 || p.1 > 100_000 then None
                   else Some(true)
      ensures book == if r == Some(true) then old(book).WithBridge(p, ip) else old(book)
    {
      if !keeper.ShouldCreateNewConnection(p, ip) {
        return Some(false);
      }
      if p.0 > MAX_ID || p.1 > MAX_ID {
        return None;
      }
      Unfold();
      NewBridgeKeepsValid(book, p, ip);
      bridges := bridges[p := ip];
      keeper.RememberBidirectionalConnection(p, ip);
      book := book.WithBridge(p, ip);
      return Some(true);
    }
  }

  /** One interface with the first k interfaces of the other node. */
  function Row(x: Iface, ys: seq<Iface>, k: nat): (r: seq<IfacePair>)
    requires k <= |ys|
  {
    if k == 0 then [] else Row(x, ys, k - 1) + [(x, ys[k - 1])]
  }

  /** The first j interfaces of a node, each with all interfaces of the other node. */
  function Rows(xs: seq<Iface>, ys: seq<Iface>, j: nat): (r: seq<IfacePair>)
    requires j <= |xs|
  {
    if j == 0 then [] else Rows(xs, ys, j - 1) + Row(xs[j - 1], ys, |ys|)
  }

  lemma {:induction false} InRow(x: Iface, ys: seq<Iface>, k: nat, ip: IfacePair)
    requires k <= |ys|
    ensures ip in Row(x, ys, k) <==> ip.0 == x && ip.1 in ys[..k]
  {
    if k > 0 {
      InRow(x, ys, k - 1, ip);
      assert ys[..k] == ys[..k - 1] + [ys[k - 1]];
    }
  }

  lemma InOneRow(x: Iface, ys: seq<Iface>, ip: IfacePair)
    ensures ip in Row(x, ys, |ys|) <==> ip.0 == x && ip.1 in ys
  {
    InRow(x, ys, |ys|, ip);
    assert ys[..|ys|] == ys;
  }

  lemma InBoth<T>(a: seq<T>, b: seq<T>, x: T)
    ensures x in a + b <==> x in a || x in b
  {
  }

  lemma InLonger<T>(xs: seq<T>, j: nat, x: T)
    requires j < |xs|
    ensures x in xs[..j + 1] <==> x in xs[..j] || x == xs[j]
  {
    assert xs[..j + 1] == xs[..j] + [xs[j]];
  }

  lemma {:induction false} InRows(xs: seq<Iface>, ys: seq<Iface>, j: nat, ip: IfacePair)
    requires j <= |xs|
    ensures ip in Rows(xs, ys, j) <==> ip.0 in xs[..j] && ip.1 in ys
  {
    if j > 0 {
      InRows(xs, ys, j - 1, ip);
      InOneRow(xs[j - 1], ys, ip);
      InBoth(Rows(xs, ys, j - 1), Row(xs[j - 1], ys, |ys|), ip);
      InLonger(xs, j - 1, ip.0);
    }
  }

  lemma {:induction false} RowAt(x: Iface, ys: seq<Iface>, k: nat)
    requires k <= |ys|
    ensures |Row(x, ys, k)| == k && forall b :: 0 <= b < k ==> Row(x, ys, k)[b] == (x, ys[b])
  {
    if k > 0 {
      RowAt(x, ys, k - 1);
    }
  }

  /** The pair comes before position k of the scan. */
  ghost predicate ComesBefore(r: seq<IfacePair>, ip: IfacePair, k: nat) {
    exists l :: 0 <= l < k && l < |r| && r[l] == ip
  }

  lemma StillBefore(r: seq<IfacePair>, more: seq<IfacePair>, ip: IfacePair, k: nat)
    requires ComesBefore(r, ip, k)
    ensures ComesBefore(r + more, ip, k)
  {
    var l :| 0 <= l < k && l < |r| && r[l] == ip;
    assert (r + more)[l] == ip;
  }

  /** All pairs of earlier rows come before position k, and those of earlier columns in its row;
      folded. */
  ghost predicate ScannedUpTo(xs: seq<Iface>, ys: seq<Iface>, r: seq<IfacePair>, k: nat, a: nat, b: nat)
    requires a < |xs| && b < |ys|
  {
    forall f {:trigger Unfolding(ScanPart, f)} :: Unfolding(ScanPart, f) ==>
      forall a', b' :: 0 <= a' <= a && 0 <= b' < |ys| && (a' < a || b' < b) ==>
        ComesBefore(r, (xs[a'], ys[b']), k)
  }

  lemma MoreRows(xs: seq<Iface>, ys: seq<Iface>, r: seq<IfacePair>, more: seq<IfacePair>, k: nat, a: nat, b: nat)
    requires a < |xs| && b < |ys| && ScannedUpTo(xs, ys, r, k, a, b)
    ensures ScannedUpTo(xs, ys, r + more, k, a, b)
  {
    assert Unfolding(ScanPart, true);
    forall a', b' | 0 <= a' <= a && 0 <= b' < |ys| && (a' < a || b' < b)
      ensures ComesBefore(r + more, (xs[a'], ys[b']), k)
    {
      StillBefore(r, more, (xs[a'], ys[b']), k);
    }
  }

  lemma InLastRow(xs: seq<Iface>, ys: seq<Iface>, j: nat, b: nat)
    requires j < |xs| && b < |ys|
    ensures var k := |Rows(xs, ys, j)| + b;
            && k < |Rows(xs, ys, j + 1)| && Rows(xs, ys, j + 1)[k] == (xs[j], ys[b])
            && ScannedUpTo(xs, ys, Rows(xs, ys, j + 1), k, j, b)
  {
    var before, all, k := Rows(xs, ys, j), Rows(xs, ys, j + 1), |Rows(xs, ys, j)| + b;
    RowAt(xs[j], ys, |ys|);
    forall a', b' | 0 <= a' <= j && 0 <= b' < |ys| && (a' < j || b' < b)
      ensures ComesBefore(all, (xs[a'], ys[b']), k)
    {
      if a' == j {
        assert all[|before| + b'] == (xs[a'], ys[b']);
      } else {
        InRows(xs, ys, j, (xs[a'], ys[b']));
        assert xs[..j][a'] == xs[a'];
        var l :| 0 <= l < |before| && before[l] == (xs[a'], ys[b']);
        assert all[l] == before[l];
      }
    }
  }

  lemma LastRowPosition(xs: seq<Iface>, ys: seq<Iface>, j: nat, k: nat) returns (b: nat)
    requires j < |xs| && |Rows(xs, ys, j)| <= k < |Rows(xs, ys, j + 1)|
    ensures b < |ys| && Rows(xs, ys, j + 1)[k] == (xs[j], ys[b])
    ensures ScannedUpTo(xs, ys, Rows(xs, ys, j + 1), k, j, b)
  {
    RowAt(xs[j], ys, |ys|);
    b := k - |Rows(xs, ys, j)|;
    InLastRow(xs, ys, j, b);
  }

  /** Where position k of the scan is. */
  lemma {:induction false} ScanPosition(xs: seq<Iface>, ys: seq<Iface>, j: nat, k: nat) returns (a: nat, b: nat)
    requires j <= |xs| && k < |Rows(xs, ys, j)|
    ensures a < |xs| && b < |ys| && Rows(xs, ys, j)[k] == (xs[a], ys[b])
    ensures ScannedUpTo(xs, ys, Rows(xs, ys, j), k, a, b)
  {
    if k < |Rows(xs, ys, j - 1)| {
      a, b := ScanPosition(xs, ys, j - 1, k);
      MoreRows(xs, ys, Rows(xs, ys, j - 1), Row(xs[j - 1], ys, |ys|), k, a, b);
    } else {
      a := j - 1;
      b := LastRowPosition(xs, ys, j - 1, k);
    }
  }

  /** Every interface of the first node with every interface of the second one, row by row. */
  method AllInterfaces(xs: seq<Iface>, ys: seq<Iface>) returns (r: seq<IfacePair>)
    ensures r == Rows(xs, ys, |xs|)
    ensures forall ip: IfacePair {:trigger ip in r} :: ip in r <==> ip.0 in xs && ip.1 in ys
  {
    r := [];
    for j := 0 to |xs|
      invariant r == Rows(xs, ys, j)
    {
      ghost var before := r;
      for k := 0 to |ys|
        invariant r == before + Row(xs[j], ys, k)
      {
        r := r + [(xs[j], ys[k])];
      }
    }
    forall ip: IfacePair
      ensures ip in r <==> ip.0 in xs && ip.1 in ys
    {
      InRows(xs, ys, |xs|, ip);
      assert xs[..|xs|] == xs;
    }
  }

  /** Some interface of one node can be linked with some interface of the other. */
  ghost predicate HaveCommonKind(nodes: Nodes, p: NodePair) {
    exists ip :: Offers(nodes, p, ip)
  }

  /** Both nodes have an unused tap device of a common kind. */
  ghost predicate CanConnect(nodes: Nodes, b: Book, p: NodePair) {
    exists ip :: Offers(nodes, p, ip) && b.Free(p, ip)
  }

  predicate TooLarge(p: NodePair) {
    p.0 > MAX_ID || p.1 > MAX_ID
  }

  /** The life of a node pair: its link is brought up once, and once down it is lost. */
  datatype Phase = Fresh | Linked | Lost

  function Next(ph: Phase, up: bool, possible: bool): (r: Phase) {
    match ph
    case Fresh => if up && possible then Linked else Fresh
    case Linked => if up then Linked else Lost
    case Lost => Lost
  }

  /** The bridges and the active connections. */
  datatype Net = Net(book: Book, active: NodeStore) {

    function With(p: NodePair, ip: IfacePair): (r: Net) {
      Net(book.WithBridge(p, ip), active[p := map[ip := Details(Connection(p, ip), None)]])
    }

    /** An active pair has exactly the connection of its bridge. */
    ghost predicate Consistent() {
      forall p {:trigger p in active} :: p in active ==>
        && p in book.bridges && active[p].Keys == {book.bridges[p]}
        && active[p][book.bridges[p]].connection == Connection(p, book.bridges[p])
    }

    predicate Eligible(p: NodePair, ip: IfacePair, up: bool) {
      up && Linkable(ip) && p !in book.bridges && book.Free(p, ip)
    }

    function PhaseOf(p: NodePair): (r: Phase) {
      if p !in book.bridges then Fresh else if p in active then Linked else Lost
    }
  }

  class MultiDeviceManager {
    const nodes: Nodes
    const model: int -> bool
    const backend: NetworkBackendBridgedMultiDevice
    const store: ConnectionStore
    var distanceMatrix: Matrix
    ghost var history: seq<Matrix>

    constructor (nodes: Nodes, all: Adjacency, model: int -> bool)
      requires AllEquipped(nodes, all)
      ensures Valid() && history == [] && State() == Net(Book(map[], map[]), map[])
      ensures this.nodes == nodes && this.model == model && backend.all == all
      ensures fresh(backend) && fresh(backend.keeper) && fresh(store)
    {
      this.nodes, this.model := nodes, model;
      backend := new NetworkBackendBridgedMultiDevice(all);
      store := new ConnectionStore();
      distanceMatrix, history := map[], [];
    }

    ghost function State(): Net
      reads backend, store
    {
      Net(backend.book, store.active)
    }

    ghost predicate Synced()
      reads backend, backend.keeper, store
    {
      && backend.Valid() && store.inactive == map[] && State().Consistent()
      && AllEquipped(nodes, backend.all)
    }

    /** Every node pair is where its history has led it. */
    ghost predicate Valid()
      reads this, backend, backend.keeper, store
    {
      && Synced() && distanceMatrix == Last(history)
      && (AllFit(history) ==>
            && backend.book.Within(backend.all)
            && forall p :: State().PhaseOf(p) == PhaseAfter(nodes, model, history, p))
    }

    /** Connects one interface pair, unless the backend refuses. */
    method ConnectInterfaces(p: NodePair, ip: IfacePair, up: bool) returns (ok: bool)
      requires Synced() && p.0 < p.1
      modifies store, backend`bridges, backend`book, backend.keeper
      ensures Synced()
      ensures ok <==> !(old(State()).Eligible(p, ip, up) && TooLarge(p))
      ensures State() == if ok && old(State()).Eligible(p, ip, up) then old(State()).With(p, ip)
                         else old(State())
    {
      if ip.0.kind == ip.1.kind && ip.0.kind != Management {
        if store.GetConnectionsForNodesImplicit(p, ip) == Nowhere {
          if ip.0.kind != HubWiFi && up {
            var connected := backend.CreateConnection(p, ip);
            if connected == None {
              return false;
            }
            if connected.value {
              store.AddConnection(Connection(p, ip), true, None);
              var _ := store.ChangeConnectionState(p, ip, true);
            }
          }
        }
      }
      return true;
    }

    /** Runs over all interface pairs of two nodes. If they are to be linked, never were and
        have unused tap devices of a common kind, exactly one such pair of tap devices is
        connected; otherwise nothing happens. */
    method StepNoConnectionYet(p: NodePair, up: bool) returns (ok: bool)
      requires Synced() && p.0 < p.1 && p.0 in nodes && p.1 in nodes
      modifies store, backend`bridges, backend`book, backend.keeper
      ensures Synced()
      ensures Scanned(nodes, old(State()), State(), p, up, ok)
      ensures FirstConnected(old(State()), State(), p, up, Normal(nodes[p.0]), Normal(nodes[p.1]))
    {
      var offered := AllInterfaces(Normal(nodes[p.0]), Normal(nodes[p.1]));
      ghost var was := State();
      ghost var made: Option<nat> := None;
      for j := 0 to |offered|
        invariant Synced()
        invariant Progress(was, State(), p, up, offered, j, made)
      {
        ok := ConnectInterfaces(p, offered[j], up);
        if !ok {
          ScanFails(nodes, was, State(), p, up, offered, j, made);
          return;
        }
        if made == None && was.Eligible(p, offered[j], up) {
          made := Some(j);
        }
      }
      ScanDone(nodes, was, State(), p, up, made);
      return true;
    }

    /** Takes the connection of a pair down; it leaves the store. */
    method LinksDown(p: NodePair)
      requires Synced() && p in store.active
      modifies store
      ensures Synced() && store.active == old(store.active) - {p}
    {
      ghost var ip := backend.book.bridges[p];
      var nics := store.active[p];
      var todo := nics.Keys;
      while todo != {}
        invariant Synced()
        invariant if todo == {} then store.active == old(store.active) - {p}
                  else todo == {ip} && store.active == old(store.active)
      {
        var ifaces :| ifaces in todo;
        assert ifaces == ip && store.active[p] - {ip} == map[];
        var _ := store.ChangeConnectionState(p, ifaces, false);
        todo := todo - {ifaces};
      }
    }

    /** Handles one changed entry. */
    method StepInner(p: NodePair, up: bool) returns (ok: bool)
      requires Synced() && p.0 < p.1 && p.0 in nodes && p.1 in nodes
      modifies store, backend`bridges, backend`book, backend.keeper
      ensures Synced()
      ensures ok <==> !(up && old(State()).PhaseOf(p) == Fresh &&
                        CanConnect(nodes, old(State()).book, p) && TooLarge(p))
      ensures Moved(old(State()), State(), p,
                    Next(old(State()).PhaseOf(p), up,
                         CanConnect(nodes, old(State()).book, p) && !TooLarge(p)))
    {
      if !up && !(p in store.active && store.active[p] != map[]) {
        return true;
      }
      ghost var was := State();
      ok := StepNoConnectionYet(p, up);
      ghost var mid := State();
      if ok && p in store.active && !up {
        LinksDown(p);
      }
      StepMoves(nodes, was, mid, State(), p, up, ok);
    }

    /** Handles all changed entries of the upper triangle, in any order. If only pairs of the
        topologies are linked, every pair moves as its distance says. */
    method SwitchChanged(diff: Matrix) returns (ok: bool)
      requires Synced() && Lists(nodes, diff)
      modifies store, backend`bridges, backend`book, backend.keeper
      ensures Synced()
      ensures Regular(old(State()).book, diff) ==>
                && (ok <==> NoneRejected(nodes, model, old(State()), diff, diff.Keys))
                && (ok ==> backend.book.Within(backend.all) &&
                           Advanced(nodes, model, old(State()), State(), diff, diff.Keys))
    {
      ghost var was, regular := State(), Regular(State().book, diff);
      var todo := diff.Keys;
      while todo != {}
        invariant todo <= diff.Keys && Synced()
        invariant regular ==> Switched(was, State(), diff, diff.Keys - todo)
      {
        var p :| p in todo;
        assert p in diff;
        if p.0 < p.1 {
          ghost var before := State();
          if regular {
            backend.Unfold();
            RegularEntry(was, before, diff, diff.Keys - todo, p);
          }
          ok := StepInner(p, model(diff[p]));
          if !ok {
            return;
          }
          if regular {
            RegularNext(was, before, State(), diff, diff.Keys - todo, p);
          }
        }
        assert diff.Keys - (todo - {p}) == diff.Keys - todo + {p};
        todo := todo - {p};
      }
      return true;
    }

    /** Only pairs of the topologies are linked, before and by this matrix. */
    ghost predicate Regular(b: Book, m: Matrix)
      requires Lists(nodes, m)
    {
      b.Within(backend.all) && Fits(nodes, backend.all, model, m)
    }

    /** How far the changed entries have been handled. */
    ghost predicate Switched(was: Net, now: Net, diff: Matrix, done: set<NodePair>)
      requires done <= diff.Keys
    {
      && now.book.Within(backend.all)
      && Advanced(nodes, model, was, now, diff, done)
      && NoneRejected(nodes, model, was, diff, done)
    }

    /** The next entry finds its pair where it was, and it can be linked iff the nodes have a
        common kind of interface. */
    lemma RegularEntry(was: Net, before: Net, diff: Matrix, done: set<NodePair>, p: NodePair)
      requires before.book.Valid() && before.book.Within(backend.all) && AllEquipped(nodes, backend.all)
      requires Fits(nodes, backend.all, model, diff) && p in diff && p !in done && p.0 < p.1
      requires done <= diff.Keys && Advanced(nodes, model, was, before, diff, done)
      ensures before.PhaseOf(p) == was.PhaseOf(p)
      ensures model(diff[p]) && before.PhaseOf(p) == Fresh ==>
                (CanConnect(nodes, before.book, p) <==> HaveCommonKind(nodes, p))
    {
      if model(diff[p]) && p !in before.book.bridges {
        CanConnectIff(nodes, backend.all, before.book, p);
      }
    }

    /** After a pair of the topologies was handled, one more entry is done. */
    lemma RegularNext(was: Net, before: Net, now: Net, diff: Matrix, done: set<NodePair>, p: NodePair)
      requires Fits(nodes, backend.all, model, diff) && p in diff && p !in done && p.0 < p.1
      requires done <= diff.Keys && Switched(was, before, diff, done)
      requires var can := CanConnect(nodes, before.book, p);
               && Moved(before, now, p, Next(before.PhaseOf(p), model(diff[p]), can && !TooLarge(p)))
               && !(model(diff[p]) && before.PhaseOf(p) == Fresh && can && TooLarge(p))
               && (model(diff[p]) && before.PhaseOf(p) == Fresh ==> (can <==> HaveCommonKind(nodes, p)))
      ensures Switched(was, now, diff, done + {p})
    {
      AdvancedNext(nodes, model, was, before, now, diff, done, p);
      WithinNext(before, now, backend.all, p, model(diff[p]),
                 CanConnect(nodes, before.book, p) && !TooLarge(p));
      assert before.PhaseOf(p) == was.PhaseOf(p);
    }

    /** One simulation step. As long as only pairs of the topologies are linked, the active
        pairs are those that have been linked at all and whose link never went down. */
    method Step(m: Matrix) returns (ok: bool)
      requires Valid() && Lists(nodes, m)
      modifies this`distanceMatrix, this`history, store, backend`bridges, backend`book, backend.keeper
      ensures backend.book.Valid()
      ensures AllFit(old(history) + [m]) ==>
              (ok <==> NoneRejected(nodes, model, old(State()), m, Diff(old(distanceMatrix), m).Keys))
      ensures ok ==> Valid() && history == old(history) + [m]
      ensures ok && AllFit(history) ==>
              forall p :: p in store.active <==> PhaseAfter(nodes, model, history, p) == Linked
    {
      var diff := Diff(distanceMatrix, m);
      distanceMatrix := m;
      ghost var was := State();
      if AllFit(history + [m]) {
        LastFits(history, m);
      }
      ok := SwitchChanged(diff);
      backend.Unfold();
      if ok {
        if AllFit(history + [m]) {
          LastFits(history, m);
          DiffAdvances(nodes, model, history, m, was, State());
        }
        history := history + [m];
        ActiveMeansLinked(State());
      }
    }

    /** All matrices link only pairs of the topologies. */
    ghost predicate AllFit(h: seq<Matrix>) {
      forall k :: 0 <= k < |h| ==> Fits(nodes, backend.all, model, h[k])
    }

    /** In this mode the active pairs are those of the latest matrix iff no pair deviates. */
    lemma ActiveFollowsLatestIff()
      requires Valid() && AllFit(history)
      ensures (forall p :: p in store.active <==> LatestConnects(nodes, model, history, p)) <==>
              (forall p :: !Deviates(nodes, model, history, p))
    {
      ActiveMeansLinked(State());
      forall p
        ensures (p in store.active <==> LatestConnects(nodes, model, history, p)) <==>
                !Deviates(nodes, model, history, p)
      {
        assert State().PhaseOf(p) == PhaseAfter(nodes, model, history, p);
        FollowsLatestIff(nodes, model, history, p);
      }
    }

    lemma LastFits(h: seq<Matrix>, m: Matrix)
      requires AllFit(h + [m])
      ensures AllFit(h) && Fits(nodes, backend.all, model, m)
      ensures Fits(nodes, backend.all, model, Diff(Last(h), m))
    {
      assert (h + [m])[|h|] == m;
      assert forall k :: 0 <= k < |h| ==> (h + [m])[k] == h[k];
    }
  }

  /** Every node has a tap device per neighbour for each of its interface kinds. */
  ghost predicate AllEquipped(nodes: Nodes, all: Adjacency) {
    forall n {:trigger n in nodes} :: n in nodes ==> Equipped(nodes[n], |At(all, n)|)
  }

  /** As long as only pairs of the topologies were linked, two nodes of such a pair that were
      never linked have unused tap devices of a common kind iff they have a common kind. */
  lemma CanConnectIff(nodes: Nodes, all: Adjacency, b: Book, p: NodePair)
    requires b.Valid() && b.Within(all) && AllEquipped(nodes, all)
    requires InUnion(all, p) && p !in b.bridges
    ensures CanConnect(nodes, b, p) <==> HaveCommonKind(nodes, p)
  {
    if ip :| Offers(nodes, p, ip) {
      var free := FreePair(b, all, nodes, p, ip);
      assert CanConnect(nodes, b, p);
    }
  }

  /** The pair can be linked at all. */
  ghost predicate Possible(nodes: Nodes, p: NodePair) {
    HaveCommonKind(nodes, p) && !TooLarge(p)
  }

  /** One pair moved to the given phase, no other pair moved, and no bridge changed. */
  ghost predicate Moved(was: Net, now: Net, p: NodePair, ph: Phase) {
    && now.PhaseOf(p) == ph
    && (forall q {:trigger q in was.book.bridges} {:trigger q in now.book.bridges} ::
          q in was.book.bridges ==>
            q in now.book.bridges && now.book.bridges[q] == was.book.bridges[q])
    && forall q {:trigger now.PhaseOf(q)} {:trigger was.PhaseOf(q)} ::
         q != p ==> now.PhaseOf(q) == was.PhaseOf(q)
  }

  lemma StepMoves(nodes: Nodes, was: Net, mid: Net, now: Net, p: NodePair, up: bool, ok: bool)
    requires was.Consistent() && Scanned(nodes, was, mid, p, up, ok)
    requires now == if ok && p in mid.active && !up then mid.(active := mid.active - {p}) else mid
    ensures Moved(was, now, p,
                  Next(was.PhaseOf(p), up, CanConnect(nodes, was.book, p) && !TooLarge(p)))
  {
  }

  /** The matrix lists existing nodes in its upper triangle. */
  predicate Lists(nodes: Nodes, m: Matrix) {
    forall p {:trigger p in m} :: p in m && p.0 < p.1 ==> p.0 in nodes && p.1 in nodes
  }

  /** Linking a pair of the topologies keeps the bridges within them. */
  lemma WithinNext(was: Net, now: Net, all: Adjacency, p: NodePair, up: bool, possible: bool)
    requires was.book.Within(all) && (up ==> InUnion(all, p))
    requires Moved(was, now, p, Next(was.PhaseOf(p), up, possible))
    ensures now.book.Within(all)
  {
    forall q | q in now.book.bridges
      ensures InUnion(all, q)
    {
      assert now.PhaseOf(q) != Fresh;
    }
  }

  ghost predicate NoneRejected(nodes: Nodes, model: int -> bool, was: Net, m: Matrix,
                               done: set<NodePair>) {
    forall p {:trigger p in done} :: p in done && p in m ==> !Rejected(nodes, model, was, m, p)
  }

  /** The matrix lists existing nodes, and connects only what some topology connects. */
  predicate Fits(nodes: Nodes, all: Adjacency, model: int -> bool, m: Matrix) {
    forall p {:trigger p in m} :: p in m && p.0 < p.1 ==>
      p.0 in nodes && p.1 in nodes && (model(m[p]) ==> InUnion(all, p))
  }

  /** The pair would get a bridge whose name has no room for the node ids. */
  ghost predicate Rejected(nodes: Nodes, model: int -> bool, was: Net, m: Matrix, p: NodePair)
    requires p in m
  {
    && p.0 < p.1 && model(m[p]) && was.PhaseOf(p) == Fresh
    && HaveCommonKind(nodes, p) && TooLarge(p)
  }

  /** The handled pairs moved on, all others stayed. */
  ghost predicate Advanced(nodes: Nodes, model: int -> bool, was: Net, now: Net, m: Matrix,
                           handled: set<NodePair>)
    requires handled <= m.Keys
  {
    forall p {:trigger now.PhaseOf(p)} {:trigger was.PhaseOf(p)} ::
      now.PhaseOf(p) == if p in handled && p.0 < p.1
                        then Next(was.PhaseOf(p), model(m[p]), Possible(nodes, p))
                        else was.PhaseOf(p)
  }

  /** Where a run of matrices leads a node pair. */
  ghost function PhaseAfter(nodes: Nodes, model: int -> bool, history: seq<Matrix>, p: NodePair)
    : (r: Phase)
  {
    if history == [] then Fresh
    else
      var before := PhaseAfter(nodes, model, history[..|history| - 1], p);
      if p in Last(history) && p.0 < p.1
      then Next(before, model(Last(history)[p]), Possible(nodes, p))
      else before
  }

  /** Entries that did not change need not be looked at again. */
  lemma DiffAdvances(nodes: Nodes, model: int -> bool, history: seq<Matrix>, m: Matrix, was: Net, now: Net)
    requires forall p :: was.PhaseOf(p) == PhaseAfter(nodes, model, history, p)
    requires var diff := Diff(Last(history), m);
             Advanced(nodes, model, was, now, diff, diff.Keys)
    ensures forall p :: now.PhaseOf(p) == PhaseAfter(nodes, model, history + [m], p)
  {
    assert (history + [m])[..|history|] == history;
  }

  lemma ActiveMeansLinked(net: Net)
    requires net.Consistent()
    ensures forall p {:trigger p in net.active} :: p in net.active <==> net.PhaseOf(p) == Linked
  {
  }

  lemma AdvancedNext(nodes: Nodes, model: int -> bool, was: Net, before: Net, now: Net, m: Matrix,
                     handled: set<NodePair>, p: NodePair)
    requires handled <= m.Keys && p in m && p !in handled && p.0 < p.1
    requires Advanced(nodes, model, was, before, m, handled)
    requires var can := CanConnect(nodes, before.book, p) && !TooLarge(p);
             Moved(before, now, p, Next(before.PhaseOf(p), model(m[p]), can))
    requires model(m[p]) && before.PhaseOf(p) == Fresh ==>
               (CanConnect(nodes, before.book, p) <==> HaveCommonKind(nodes, p))
    ensures Advanced(nodes, model, was, now, m, handled + {p})
  {
  }

  /** What a scan of all interface pairs achieves. */
  ghost predicate Scanned(nodes: Nodes, was: Net, now: Net, p: NodePair, up: bool, ok: bool) {
    var start := up && p !in was.book.bridges && CanConnect(nodes, was.book, p);
    && (ok <==> !(start && TooLarge(p)))
    && (ok && start ==> exists ip :: Offers(nodes, p, ip) && was.book.Free(p, ip) && now == was.With(p, ip))
    && (!(ok && start) ==> now == was)
  }

  /** Either no interface pair so far was eligible and nothing was connected, or the first one
      that was eligible was connected. */
  ghost predicate Progress(was: Net, now: Net, p: NodePair, up: bool, offered: seq<IfacePair>, j: nat,
                           made: Option<nat>)
    requires j <= |offered|
  {
    match made
    case None => now == was && forall k :: 0 <= k < j ==> !was.Eligible(p, offered[k], up)
    case Some(at) =>
      && at < j && was.Eligible(p, offered[at], up) && !TooLarge(p) && now == was.With(p, offered[at])
      && forall k :: 0 <= k < at ==> !was.Eligible(p, offered[k], up)
  }

  /** The a-th interface of one node and the b-th of the other are eligible, but no pair of an
      earlier row, or of an earlier column in this row, is. */
  ghost predicate FirstEligible(was: Net, p: NodePair, up: bool, xs: seq<Iface>, ys: seq<Iface>, a: nat, b: nat)
    requires a < |xs| && b < |ys|
  {
    && was.Eligible(p, (xs[a], ys[b]), up)
    && forall a', b' :: 0 <= a' <= a && 0 <= b' < |ys| && (a' < a || b' < b) ==>
         !was.Eligible(p, (xs[a'], ys[b']), up)
  }

  /** Nothing happened, or the first eligible pair was connected. */
  ghost predicate FirstConnected(was: Net, now: Net, p: NodePair, up: bool, xs: seq<Iface>, ys: seq<Iface>) {
    now == was ||
    exists a, b :: 0 <= a < |xs| && 0 <= b < |ys| && now == was.With(p, (xs[a], ys[b])) &&
                   FirstEligible(was, p, up, xs, ys, a, b)
  }

  lemma FirstInScan(was: Net, now: Net, p: NodePair, up: bool, xs: seq<Iface>, ys: seq<Iface>, k: nat)
    requires k < |Rows(xs, ys, |xs|)| && was.Eligible(p, Rows(xs, ys, |xs|)[k], up)
    requires forall l :: 0 <= l < k ==> !was.Eligible(p, Rows(xs, ys, |xs|)[l], up)
    requires now == was.With(p, Rows(xs, ys, |xs|)[k])
    ensures FirstConnected(was, now, p, up, xs, ys)
  {
    var a, b := ScanPosition(xs, ys, |xs|, k);
    assert Unfolding(ScanPart, true);
    forall a', b' | 0 <= a' <= a && 0 <= b' < |ys| && (a' < a || b' < b)
      ensures !was.Eligible(p, (xs[a'], ys[b']), up)
    {
      assert ComesBefore(Rows(xs, ys, |xs|), (xs[a'], ys[b']), k);
    }
    assert FirstEligible(was, p, up, xs, ys, a, b);
  }

  lemma ScanDone(nodes: Nodes, was: Net, now: Net, p: NodePair, up: bool, made: Option<nat>)
    requires p.0 in nodes && p.1 in nodes
    requires var xs, ys := Normal(nodes[p.0]), Normal(nodes[p.1]);
             Progress(was, now, p, up, Rows(xs, ys, |xs|), |Rows(xs, ys, |xs|)|, made)
    ensures Scanned(nodes, was, now, p, up, true)
    ensures FirstConnected(was, now, p, up, Normal(nodes[p.0]), Normal(nodes[p.1]))
  {
    var xs, ys := Normal(nodes[p.0]), Normal(nodes[p.1]);
    var offered := Rows(xs, ys, |xs|);
    forall ip: IfacePair
      ensures ip in offered <==> ip.0 in xs && ip.1 in ys
    {
      InRows(xs, ys, |xs|, ip);
      assert xs[..|xs|] == xs;
    }
    if made.Some? {
      assert offered[made.value] in offered && Offers(nodes, p, offered[made.value]);
      FirstInScan(was, now, p, up, xs, ys, made.value);
    } else if up && p !in was.book.bridges && CanConnect(nodes, was.book, p) {
      var ip :| Offers(nodes, p, ip) && was.book.Free(p, ip);
      assert ip in offered && was.Eligible(p, ip, up);
      assert false;
    }
  }

  /** The first eligible pair needs a bridge whose name has no room for the ids. */
  lemma ScanFails(nodes: Nodes, was: Net, now: Net, p: NodePair, up: bool, offered: seq<IfacePair>, j: nat,
                  made: Option<nat>)
    requires p.0 in nodes && p.1 in nodes && j < |offered| && TooLarge(p)
    requires forall ip: IfacePair {:trigger ip in offered} ::
               ip in offered <==> ip.0 in Normal(nodes[p.0]) && ip.1 in Normal(nodes[p.1])
    requires Progress(was, now, p, up, offered, j, made) && now.Eligible(p, offered[j], up)
    ensures Scanned(nodes, was, now, p, up, false)
    ensures FirstConnected(was, now, p, up, Normal(nodes[p.0]), Normal(nodes[p.1]))
  {
    assert offered[j] in offered && Offers(nodes, p, offered[j]);
  }

  // ----- Runs -------------------------------------------------------------------------

  /** Matrix k connects the pair. */
  predicate UpAt(model: int -> bool, h: seq<Matrix>, p: NodePair, k: nat)
    requires k < |h|
  {
    p in h[k] && model(h[k][p])
  }

  /** Matrix k lists the pair and does not connect it. */
  predicate DownAt(model: int -> bool, h: seq<Matrix>, p: NodePair, k: nat)
    requires k < |h|
  {
    p in h[k] && !model(h[k][p])
  }

  /** The pair is first connected by matrix f, and no later matrix disconnects it. */
  ghost predicate RisesAt(model: int -> bool, h: seq<Matrix>, p: NodePair, f: nat)
    requires f < |h|
  {
    && UpAt(model, h, p, f)
    && (forall k :: 0 <= k < f ==> !UpAt(model, h, p, k))
    && (forall k :: f <= k < |h| ==> !DownAt(model, h, p, k))
  }

  ghost predicate EverUp(model: int -> bool, h: seq<Matrix>, p: NodePair) {
    exists k :: 0 <= k < |h| && UpAt(model, h, p, k)
  }

  /** The pair was connected once and unconnected later. */
  ghost predicate WentDown(model: int -> bool, h: seq<Matrix>, p: NodePair) {
    exists j, k :: 0 <= j < k < |h| && UpAt(model, h, p, j) && DownAt(model, h, p, k)
  }

  /** The pair is in the upper triangle and can be linked at all. */
  ghost predicate Able(nodes: Nodes, p: NodePair) {
    p.0 < p.1 && Possible(nodes, p)
  }

  lemma EverUpNext(model: int -> bool, h: seq<Matrix>, m: Matrix, p: NodePair)
    ensures EverUp(model, h + [m], p) <==> EverUp(model, h, p) || (p in m && model(m[p]))
  {
    var h' := h + [m];
    forall k | 0 <= k < |h|
      ensures UpAt(model, h', p, k) <==> UpAt(model, h, p, k)
    {
    }
    assert UpAt(model, h', p, |h|) <==> p in m && model(m[p]);
    if k :| 0 <= k < |h| && UpAt(model, h, p, k) {
      assert UpAt(model, h', p, k);
    }
  }

  lemma WentDownNext(model: int -> bool, h: seq<Matrix>, m: Matrix, p: NodePair)
    ensures WentDown(model, h + [m], p) <==>
            WentDown(model, h, p) || (EverUp(model, h, p) && p in m && !model(m[p]))
  {
    var h' := h + [m];
    forall k | 0 <= k < |h|
      ensures UpAt(model, h', p, k) <==> UpAt(model, h, p, k)
      ensures DownAt(model, h', p, k) <==> DownAt(model, h, p, k)
    {
    }
    assert DownAt(model, h', p, |h|) <==> p in m && !model(m[p]);
    if j, k :| 0 <= j < k < |h| && UpAt(model, h, p, j) && DownAt(model, h, p, k) {
      assert UpAt(model, h', p, j) && DownAt(model, h', p, k);
    }
    if j :| 0 <= j < |h| && UpAt(model, h, p, j) {
      assert UpAt(model, h', p, j);
    }
  }

  /** Where any run leads any pair, told by the distances alone. */
  lemma {:induction false} PhaseOfRun(nodes: Nodes, model: int -> bool, h: seq<Matrix>, p: NodePair)
    ensures PhaseAfter(nodes, model, h, p) ==
            if !Able(nodes, p) || !EverUp(model, h, p) then Fresh
            else if WentDown(model, h, p) then Lost
            else Linked
  {
    if h != [] {
      var h', m := h[..|h| - 1], h[|h| - 1];
      assert h == h' + [m];
      PhaseOfRun(nodes, model, h', p);
      EverUpNext(model, h', m, p);
      WentDownNext(model, h', m, p);
    }
  }

  /** A pair is active iff it can be linked, and some matrix connected it first and no later
      one disconnected it. */
  lemma LinkedIff(nodes: Nodes, model: int -> bool, h: seq<Matrix>, p: NodePair)
    ensures PhaseAfter(nodes, model, h, p) == Linked <==>
            Able(nodes, p) && exists f: nat :: f < |h| && RisesAt(model, h, p, f)
  {
    PhaseOfRun(nodes, model, h, p);
    if EverUp(model, h, p) {
      var f := FirstUp(model, h, p, 0);
      if !WentDown(model, h, p) {
        assert RisesAt(model, h, p, f);
      }
    }
    if f: nat :| f < |h| && RisesAt(model, h, p, f) {
      assert EverUp(model, h, p);
      if j, k :| 0 <= j < k < |h| && UpAt(model, h, p, j) && DownAt(model, h, p, k) {
        assert false;
      }
    }
  }

  lemma {:induction false} FirstUp(model: int -> bool, h: seq<Matrix>, p: NodePair, from: nat) returns (f: nat)
    requires exists k :: from <= k < |h| && UpAt(model, h, p, k)
    requires forall k :: 0 <= k < from ==> !UpAt(model, h, p, k)
    ensures f < |h| && UpAt(model, h, p, f) && forall k :: 0 <= k < f ==> !UpAt(model, h, p, k)
    decreases |h| - from
  {
    if UpAt(model, h, p, from) {
      f := from;
    } else {
      f := FirstUp(model, h, p, from + 1);
    }
  }

  /** The latest matrix connects the pair. */
  ghost predicate LatestConnects(nodes: Nodes, model: int -> bool, h: seq<Matrix>, p: NodePair) {
    Able(nodes, p) && p in Last(h) && model(Last(h)[p])
  }

  /** The pair has no link although the latest matrix connects it, because it went down
      before; or it still has one although the latest matrix does not list it any more. */
  ghost predicate Deviates(nodes: Nodes, model: int -> bool, h: seq<Matrix>, p: NodePair) {
    Able(nodes, p) &&
    if p in Last(h) then model(Last(h)[p]) && WentDown(model, h, p)
    else EverUp(model, h, p) && !WentDown(model, h, p)
  }

  /** For any run and any pair: it is active iff the latest matrix connects it, exactly when
      it does not deviate. */
  lemma FollowsLatestIff(nodes: Nodes, model: int -> bool, h: seq<Matrix>, p: NodePair)
    ensures (PhaseAfter(nodes, model, h, p) == Linked <==> LatestConnects(nodes, model, h, p)) <==>
            !Deviates(nodes, model, h, p)
  {
    PhaseOfRun(nodes, model, h, p);
    if p in Last(h) {
      LatestCounts(model, h, p);
    }
  }

  lemma LatestCounts(model: int -> bool, h: seq<Matrix>, p: NodePair)
    requires p in Last(h)
    ensures model(Last(h)[p]) ==> EverUp(model, h, p)
    ensures !model(Last(h)[p]) && EverUp(model, h, p) ==> WentDown(model, h, p)
  {
    var last := |h| - 1;
    assert UpAt(model, h, p, last) || DownAt(model, h, p, last);
    if k :| 0 <= k < |h| && UpAt(model, h, p, k) {
      assert DownAt(model, h, p, last) ==> k < last;
    }
  }

  /** A link that returns after going down is refused. */
  lemma ReturningLinkIsRefused(nodes: Nodes, model: int -> bool, p: NodePair, near: int, far: int)
    requires p.0 < p.1 && Possible(nodes, p) && model(near) && !model(far)
    ensures var up, down := map[p := near], map[p := far];
            PhaseAfter(nodes, model, [up, down, up], p) == Lost
  {
    var up, down := map[p := near], map[p := far];
    var h := [up, down, up];
    assert UpAt(model, h, p, 0) && DownAt(model, h, p, 1);
    PhaseOfRun(nodes, model, h, p);
  }

  // ----- Setting up -------------------------------------------------------------------

  /** Gives every node its tap devices for the union of all topologies. */
  method EquipNodes(topology: NetworkBackendStatic, kinds: map<nat, seq<Kind>>)
    returns (nodes: Nodes, all: Adjacency)
    requires topology.Valid()
    modifies topology
    ensures forall a, b :: b in At(all, a) <==> Adjacent(topology.cores, a, b)
    ensures nodes.Keys == kinds.Keys
    ensures AllEquipped(nodes, all)
    ensures forall n, i :: n in nodes ==>
              (i in nodes[n] <==> 1 <= i.nr <= Taps(kinds[n], i.kind, |kinds[n]|, |At(all, n)|))
  {
    all := topology.GetAllConnections();
    nodes := map[];
    var todo := kinds.Keys;
    while todo != {}
      invariant todo <= kinds.Keys && nodes.Keys == kinds.Keys - todo && topology.Valid()
      invariant topology.allConnections == Some(all)
      invariant AllEquipped(nodes, all)
      invariant forall n, i :: n in nodes ==>
                  (i in nodes[n] <==> 1 <= i.nr <= Taps(kinds[n], i.kind, |kinds[n]|, |At(all, n)|))
    {
      var n :| n in todo;
      var connections := topology.GetAllConnections();
      var ifs := AdjustInterfacesToNumberOfLinks(kinds[n], At(connections, n));
      AdjustedIsEquipped(kinds[n], ifs, |At(all, n)|);
      nodes := nodes[n := ifs];
      todo := todo - {n};
    }
  }
}
