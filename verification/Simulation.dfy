/**
 The simulation manager in single-device mode with local links: it drives the connection
 store and the backend through the steps of a simulation.
 */
module Simulation {
  import opened Folding
  import opened Topology
  import opened Connections
  import opened Counting
  import opened Ebtables
  import opened SingleDevice
  import opened Switching

  /** The store with one more connection. */
  function Added(s: NodeStore, d: Details): (r: NodeStore) {
    var c := d.connection;
    s[c.nodes := (if c.nodes in s then s[c.nodes] else map[])[c.ifaces := d]]
  }

  /** The store with exactly these connections of a pair, none of them adjusted yet. */
  function Started(s: NodeStore, p: NodePair, ips: set<IfacePair>): (r: NodeStore) {
    if ips == {} then s else s[p := map ip | ip in ips :: Details(Connection(p, ip), None)]
  }

  function LinkableIn(ips: seq<IfacePair>): (r: set<IfacePair>) {
    set ip | ip in ips && Linkable(ip)
  }

  lemma LinkableStep(ips: seq<IfacePair>, i: nat)
    requires i < |ips|
    ensures LinkableIn(ips[..i + 1]) ==
            if Linkable(ips[i]) then LinkableIn(ips[..i]) + {ips[i]} else LinkableIn(ips[..i])
  {
    assert ips[..i + 1] == ips[..i] + [ips[i]];
  }

  lemma StartedStep(s: NodeStore, p: NodePair, ips: set<IfacePair>, ip: IfacePair)
    requires p !in s
    ensures Started(s, p, ips + {ip}) == Added(Started(s, p, ips), Details(Connection(p, ip), None))
    ensures Has(Started(s, p, ips), p, ip) <==> ip in ips
  {
    var added := Added(Started(s, p, ips), Details(Connection(p, ip), None));
    var both := map i | i in ips + {ip} :: Details(Connection(p, i), None);
    assert added[p] == both;
    assert added == s[p := both];
  }

  /** Linked interfaces have the same number on both nodes. */
  ghost predicate UniformNodes(nodes: Nodes) {
    forall p, ip {:trigger Known(nodes, p), Linkable(ip)} ::
      Known(nodes, p) && ip in Offered(nodes, p) && Linkable(ip) ==> ip.0.nr == ip.1.nr
  }

  /** On uniform nodes, uniform connections are started; folded. */
  ghost predicate StartedOk(nodes: Nodes, started: set<Connection>) {
    forall b {:trigger Unfolding(UniformPart, b)} :: Unfolding(UniformPart, b) ==>
      (UniformNodes(nodes) ==> Uniform(started))
  }

  lemma StartUniform(nodes: Nodes, started: set<Connection>, c: Connection)
    requires StartedOk(nodes, started) && Known(nodes, c.nodes)
    requires c.ifaces in Offered(nodes, c.nodes) && Linkable(c.ifaces)
    ensures StartedOk(nodes, started + {c})
  {
    assert Unfolding(UniformPart, true);
  }

  /** Nodes with the same normal interfaces are uniform. */
  lemma SameInterfacesAreUniform(nodes: Nodes)
    requires forall a, b :: a in nodes && b in nodes ==> Normal(nodes[a]) == Normal(nodes[b])
    ensures UniformNodes(nodes)
  {
  }

  /** The stored connections are those that are up once the queue of the backend has run;
      folded. */
  ghost predicate Agree(base: set<Connection>, ups: set<Connection>, downs: set<Connection>,
                        active: NodeStore) {
    forall b {:trigger Unfolding(AgreementPart, b)} :: Unfolding(AgreementPart, b) ==>
      forall c: Connection {:trigger c in base} {:trigger c in ups} {:trigger c in downs}
             {:trigger Has(active, c.nodes, c.ifaces)} ::
        (c in base || c in ups) && c !in downs <==> Has(active, c.nodes, c.ifaces)
  }

  lemma AgreeOn(base: set<Connection>, ups: set<Connection>, downs: set<Connection>,
                active: NodeStore, c: Connection)
    requires Agree(base, ups, downs, active)
    ensures (c in base || c in ups) && c !in downs <==> Has(active, c.nodes, c.ifaces)
  {
    assert Unfolding(AgreementPart, true);
  }

  lemma AgreeAdded(base: set<Connection>, ups: set<Connection>, downs: set<Connection>,
                   active: NodeStore, c: Connection)
    requires Agree(base, ups, downs, active) && c !in downs
    ensures Agree(base, ups + {c}, downs, Added(active, Details(c, None)))
  {
    assert Unfolding(AgreementPart, true);
    forall d: Connection
      ensures Has(Added(active, Details(c, None)), d.nodes, d.ifaces) <==>
              Has(active, d.nodes, d.ifaces) || d == c
    {
    }
  }

  lemma AgreeWithout(base: set<Connection>, ups: set<Connection>, downs: set<Connection>,
                     active: NodeStore, c: Connection)
    requires Agree(base, ups, downs, active) && Has(active, c.nodes, c.ifaces)
    ensures Agree(base, ups, downs + {c}, Without(active, c.nodes, c.ifaces))
  {
    assert Unfolding(AgreementPart, true);
    forall d: Connection
      ensures Has(Without(active, c.nodes, c.ifaces), d.nodes, d.ifaces) <==>
              Has(active, d.nodes, d.ifaces) && d != c
    {
    }
  }

  lemma AgreeAdjusted(base: set<Connection>, ups: set<Connection>, downs: set<Connection>,
                      active: NodeStore, active': NodeStore)
    requires Agree(base, ups, downs, active)
    requires forall n, i :: Has(active', n, i) <==> Has(active, n, i)
    ensures Agree(base, ups, downs, active')
  {
    assert Unfolding(AgreementPart, true);
  }

  lemma AgreeFlushed(base: set<Connection>, ups: set<Connection>, downs: set<Connection>,
                     active: NodeStore)
    requires Agree(base, ups, downs, active)
    ensures Agree(base + ups - downs, {}, {}, active)
  {
    assert Unfolding(AgreementPart, true);
  }

  /** If the pair is connected at all, then over all its interfaces. */
  ghost predicate WholeIn(nodes: Nodes, active: NodeStore, p: NodePair)
    requires Known(nodes, p)
  {
    p in active ==>
      && active[p].Keys == Wanted(nodes, p) && active[p] != map[]
      && forall ip {:trigger active[p][ip]} :: ip in active[p] ==>
           active[p][ip].connection == Connection(p, ip)
  }

  /** Connecting what the filter offers makes the pair whole. */
  lemma WholeConnected(nodes: Nodes, active: NodeStore, p: NodePair, connected: bool)
    requires Known(nodes, p) && WholeIn(nodes, active, p)
    ensures WholeIn(nodes, Connected(active, p, connected, Wanted(nodes, p)), p)
  {
    if p !in active && connected && Wanted(nodes, p) != {} {
      var ip :| ip in Wanted(nodes, p);
      var nics := Connected(active, p, connected, Wanted(nodes, p))[p];
      assert ip in nics && nics.Keys == Wanted(nodes, p);
    }
  }

  lemma WantedIsLinked(nodes: Nodes, active: NodeStore, p: NodePair)
    requires Known(nodes, p) && WholeIn(nodes, active, p)
    ensures forall ip :: Has(Connected(active, p, true, Wanted(nodes, p)), p, ip) <==> LinkedAt(nodes, p, ip)
  {
    forall ip
      ensures ip in Wanted(nodes, p) <==> LinkedAt(nodes, p, ip)
    {
      WantedIff(nodes, p, ip);
    }
  }

  /** Connecting and then adjusting or disconnecting gives the pair what its distance asks. */
  lemma LinkedAsAsked(s: Scenario, was: NodeStore, mid: NodeStore, after: NodeStore, p: NodePair,
                      distance: int, q: Quality)
    requires p.0 < p.1 && Known(s.nodes, p) && WholeIn(s.nodes, was, p)
    requires mid == Connected(was, p, s.model(distance).connected, Wanted(s.nodes, p))
    requires after == if p !in mid then mid
                      else if s.model(distance).connected then mid[p := s.Nics(p, Some(q))]
                      else mid - {p}
    ensures after == if s.Up(p, distance) then was[p := s.Nics(p, Some(q))] else was - {p}
  {
    if p in was {
      assert was[p].Keys == Wanted(s.nodes, p) && was[p] != map[];
      var ip :| ip in was[p];
      assert ip in Wanted(s.nodes, p);
    }
  }

  /** Only pairs of the upper triangle are connected, and every one of them is whole; folded. */
  ghost predicate AllWhole(nodes: Nodes, active: NodeStore) {
    forall b {:trigger Unfolding(WholePart, b)} :: Unfolding(WholePart, b) ==>
      forall p {:trigger p in active} :: p in active ==>
        p.0 < p.1 && Known(nodes, p) && WholeIn(nodes, active, p)
  }

  lemma WholeAt(nodes: Nodes, active: NodeStore, p: NodePair)
    requires AllWhole(nodes, active)
    ensures p in active ==> p.0 < p.1 && Known(nodes, p) && WholeIn(nodes, active, p)
  {
    assert Unfolding(WholePart, true);
  }

  /** The links of a run are whole. */
  lemma LinksAreWhole(s: Scenario, history: seq<Matrix>)
    ensures AllWhole(s.nodes, s.Links(history))
  {
    var links := s.Links(history);
    forall p | p in links
      ensures p.0 < p.1 && Known(s.nodes, p) && WholeIn(s.nodes, links, p)
    {
      NicsAreWhole(s, links, p, Some(s.QualityAt(history, p)));
    }
  }

  lemma NicsAreWhole(s: Scenario, active: NodeStore, p: NodePair, q: Option<Quality>)
    requires Known(s.nodes, p) && Wanted(s.nodes, p) != {} && p in active && active[p] == s.Nics(p, q)
    ensures WholeIn(s.nodes, active, p)
  {
    var ip :| ip in Wanted(s.nodes, p);
    assert ip in active[p];
  }

  /** All matrices of the run list existing nodes; folded. */
  ghost predicate AllFit(s: Scenario, history: seq<Matrix>) {
    forall b {:trigger Unfolding(HistoryPart, b)} :: Unfolding(HistoryPart, b) ==>
      forall k :: 0 <= k < |history| ==> s.Fits(history[k])
  }

  lemma AllFitNext(s: Scenario, history: seq<Matrix>, m: Matrix)
    requires AllFit(s, history) && s.Fits(m)
    ensures AllFit(s, history + [m])
  {
    assert Unfolding(HistoryPart, true);
  }

  lemma LastFits(s: Scenario, history: seq<Matrix>)
    requires AllFit(s, history) && history != []
    ensures s.Fits(history[|history| - 1])
  {
    assert Unfolding(HistoryPart, true);
  }

  class SimulationManager {
    const scenario: Scenario
    const store: ConnectionStore
    const backend: SingleDeviceBackend
    var distanceMatrix: Matrix
    var currentStep: nat
    /** The matrices of all steps so far. */
    ghost var history: seq<Matrix>

    /** Store and backend agree, and there are no inactive connections. */
    ghost predicate Synced()
      reads store, backend
    {
      && store.inactive == map[]
      && backend.Valid()
      && Agree(backend.base, backend.ups, backend.downs, store.active)
      && StartedOk(scenario.nodes, backend.started)
    }

    /** No command is queued for the pair yet. */
    ghost predicate Idle(p: NodePair)
      reads backend
    {
      forall c :: c in backend.ups || c in backend.downs ==> c.nodes != p
    }

    ghost predicate Whole(p: NodePair)
      requires Known(scenario.nodes, p)
      reads store
    {
      WholeIn(scenario.nodes, store.active, p)
    }

    /** Between two steps: the active connections are the links of the run so far, the
        inactive ones are empty, and the bridge chains hold the rules of the active ones. */
    ghost predicate Valid()
      reads this, store, backend
    {
      && Synced() && backend.QueueEmpty()
      && store.active == scenario.Links(history)
      && distanceMatrix == Last(history)
      && currentStep == |history|
      && AllFit(scenario, history)
    }

    constructor (scenario: Scenario)
      ensures Valid() && history == [] && this.scenario == scenario
      ensures fresh(store) && fresh(backend)
    {
      this.scenario := scenario;
      var s := new ConnectionStore();
      var b := new SingleDeviceBackend();
      store, backend := s, b;
      distanceMatrix, currentStep, history := map[], 0, [];
    }

    /** The backend starts the link, it is stored as active, and then it is brought up. */
    method LinkInitialStart(c: Connection)
      requires Synced() && Oriented(c)
      requires !Has(store.active, c.nodes, c.ifaces) && c !in backend.downs
      requires Known(scenario.nodes, c.nodes) && c.ifaces in Offered(scenario.nodes, c.nodes)
      requires Linkable(c.ifaces)
      modifies store, backend
      ensures Synced()
      ensures store.active == Added(old(store.active), Details(c, None))
      ensures backend.base == old(backend.base)
      ensures backend.names.Extends(old(backend.names))
      ensures backend.ups == old(backend.ups) + {c} && backend.downs == old(backend.downs)
    {
      StartUniform(scenario.nodes, backend.started, c);
      AgreeAdded(backend.base, backend.ups, backend.downs, store.active, c);
      AgreeOn(backend.base, backend.ups, backend.downs, store.active, c);
      var connected := backend.BeforeLinkInitialStart(c);
      if connected {
        store.AddConnection(c, true, None);
      }
      if connected {
        var _ := store.ChangeConnectionState(c.nodes, c.ifaces, true);
        backend.SetConnectionState(c, true);
      }
    }

    method LinkDown(c: Connection)
      requires Synced() && Has(store.active, c.nodes, c.ifaces) && c !in backend.ups
      modifies store, backend
      ensures Synced()
      ensures store.active == Without(old(store.active), c.nodes, c.ifaces)
      ensures backend.base == old(backend.base)
      ensures backend.names.Extends(old(backend.names))
      ensures backend.ups == old(backend.ups) && backend.downs == old(backend.downs) + {c}
    {
      AgreeOn(backend.base, backend.ups, backend.downs, store.active, c);
      AgreeWithout(backend.base, backend.ups, backend.downs, store.active, c);
      var _ := store.ChangeConnectionState(c.nodes, c.ifaces, false);
      backend.SetConnectionState(c, false);
    }

    /** Connects one offered interface pair, unless it already is. */
    method ConnectInterfaces(p: NodePair, ip: IfacePair, connected: bool)
      requires Synced() && p.0 < p.1 && Connection(p, ip) !in backend.downs
      requires Known(scenario.nodes, p) && ip in Offered(scenario.nodes, p)
      modifies store, backend
      ensures Synced()
      ensures store.active == if connected && Linkable(ip) && !Has(old(store.active), p, ip)
                              then Added(old(store.active), Details(Connection(p, ip), None))
                              else old(store.active)
      ensures backend.base == old(backend.base) && backend.downs == old(backend.downs)
      ensures backend.names.Extends(old(backend.names))
      ensures forall c :: c in backend.ups ==> c in old(backend.ups) || (connected && c.nodes == p)
    {
      if ip.0.kind == ip.1.kind && ip.0.kind != Management {
        if store.GetConnectionsForNodesImplicit(p, ip) == Nowhere {
          if ip.0.kind != HubWiFi && connected {
            assert Linkable(ip);
            LinkInitialStart(Connection(p, ip));
          }
        }
      }
    }

    /** Connects the interface pairs that the filter offers, unless they already are. */
    method StepNoConnectionYet(p: NodePair, connected: bool)
      requires Synced() && p.0 < p.1 && Known(scenario.nodes, p) && Idle(p) && Whole(p)
      modifies store, backend
      ensures Synced()
      ensures store.active == Connected(old(store.active), p, connected, Wanted(scenario.nodes, p))
      ensures connected ==> forall ip :: Has(store.active, p, ip) <==> LinkedAt(scenario.nodes, p, ip)
      ensures backend.base == old(backend.base) && backend.downs == old(backend.downs)
      ensures backend.names.Extends(old(backend.names))
      ensures forall c :: c in backend.ups ==> c in old(backend.ups) || (connected && c.nodes == p)
    {
      var offered := Offered(scenario.nodes, p);
      assert offered[..|offered|] == offered;
      ghost var before := store.active;
      for i := 0 to |offered|
        invariant Synced()
        invariant store.active == Connected(before, p, connected, LinkableIn(offered[..i]))
        invariant backend.base == old(backend.base) && backend.downs == old(backend.downs)
        invariant backend.names.Extends(old(backend.names))
        invariant forall c :: c in backend.ups ==>
                                c in old(backend.ups) || (connected && c.nodes == p)
      {
        ConnectedStep(scenario.nodes, before, p, connected, i);
        assert offered[i] in offered;
        ConnectInterfaces(p, offered[i], connected);
      }
      WantedIsLinked(scenario.nodes, before, p);
    }

    /** Adjusts the link quality of all connections of the pair, or takes them all down. */
    method StepConnection(p: NodePair, v: Verdict)
      requires Synced() && Known(scenario.nodes, p) && Whole(p)
      requires !v.connected ==> Idle(p)
      modifies store, backend
      ensures Synced()
      ensures store.active ==
              if p !in old(store.active) then old(store.active)
              else if v.connected then
                old(store.active)[p := scenario.Nics(p, Some(QualityNow(v)))]
              else old(store.active) - {p}
      ensures backend.base == old(backend.base) && backend.ups == old(backend.ups)
      ensures backend.names.Extends(old(backend.names))
      ensures forall c :: c in backend.downs ==> c in old(backend.downs) || c.nodes == p
    {
      if p in store.active {
        if v.connected {
          AdjustLinkQuality(p, QualityNow(v));
        } else {
          LinksDown(p);
        }
      } else if v.connected && p in store.inactive {
        // A stored inactive connection would be brought up here; there never is one.
        assert false;
      }
    }

    /** In the first step, the initial link quality is merged into the one of the distance. */
    function QualityNow(v: Verdict): Quality
      reads this
    {
      if currentStep == 0 then scenario.initial + v.quality else v.quality
    }

    method AdjustLinkQuality(p: NodePair, q: Quality)
      requires Synced() && Known(scenario.nodes, p) && Whole(p) && p in store.active
      modifies store
      ensures Synced()
      ensures store.active == old(store.active)[p := scenario.Nics(p, Some(q))]
    {
      ghost var before := store.active;
      UpdateLinkQualities(p, q);
      assert Adjusted(before[p], {}, q) == scenario.Nics(p, Some(q));
      AgreeAdjusted(backend.base, backend.ups, backend.downs, before, store.active);
    }

    method UpdateLinkQualities(p: NodePair, q: Quality)
      requires p in store.active
      modifies store
      ensures store.inactive == old(store.inactive)
      ensures store.active == old(store.active)[p := Adjusted(old(store.active)[p], {}, q)]
    {
      ghost var before := store.active;
      var todo := store.active[p].Keys;
      assert Adjusted(before[p], todo, q) == before[p];
      assert before[p := before[p]] == before;
      while todo != {}
        invariant todo <= before[p].Keys && store.inactive == old(store.inactive)
        invariant store.active == before[p := Adjusted(before[p], todo, q)]
      {
        var ip :| ip in todo;
        AdjustedStep(before[p], todo, ip, q);
        var _ := store.UpdateLinkQuality(p, ip, q);
        todo := todo - {ip};
      }
    }

    method LinksDown(p: NodePair)
      requires Synced() && Known(scenario.nodes, p) && Whole(p) && p in store.active && Idle(p)
      modifies store, backend
      ensures Synced()
      ensures store.active == old(store.active) - {p}
      ensures backend.base == old(backend.base) && backend.ups == old(backend.ups)
      ensures backend.names.Extends(old(backend.names))
      ensures forall c :: c in backend.downs ==> c in old(backend.downs) || c.nodes == p
    {
      ghost var before := store.active;
      var nics := store.active[p];
      var todo := nics.Keys;
      RemainingStart(before, p);
      while todo != {}
        invariant todo <= nics.Keys && Synced()
        invariant store.active == Remaining(before, p, todo)
        invariant backend.base == old(backend.base) && backend.ups == old(backend.ups)
        invariant backend.names.Extends(old(backend.names))
        invariant forall c :: c in backend.downs ==> c in old(backend.downs) || c.nodes == p
      {
        var ip :| ip in todo;
        RemainingStep(before, p, todo, ip);
        LinkDown(nics[ip].connection);
        todo := todo - {ip};
      }
    }

    /** Handles one changed entry: afterwards the pair has exactly the link that its new
        distance asks for. */
    method StepInner(p: NodePair, distance: int)
      requires Synced() && p.0 < p.1 && Known(scenario.nodes, p) && Idle(p) && Whole(p)
      modifies store, backend
      ensures Synced()
      ensures store.active ==
              if scenario.Up(p, distance) then
                old(store.active)[p := scenario.Nics(p, Some(StepQuality(scenario, currentStep, distance)))]
              else old(store.active) - {p}
      ensures backend.base == old(backend.base)
      ensures backend.names.Extends(old(backend.names))
      ensures forall c :: c in backend.ups || c in backend.downs ==>
                            c in old(backend.ups) || c in old(backend.downs) || c.nodes == p
    {
      var v := scenario.model(distance);
      if !v.connected && !(p in store.active && store.active[p] != map[]) {
        return;
      }
      ghost var was := store.active;
      WholeConnected(scenario.nodes, was, p, v.connected);
      StepNoConnectionYet(p, v.connected);
      ghost var mid := store.active;
      StepConnection(p, v);
      LinkedAsAsked(scenario, was, mid, store.active, p, distance, QualityNow(v));
    }

    /** The entries that changed; the new matrix is remembered. */
    method GetDistanceMatrixDiff(m: Matrix) returns (diff: Matrix)
      modifies this`distanceMatrix
      ensures diff == Diff(old(distanceMatrix), m) && distanceMatrix == m
      ensures forall p {:trigger p in diff} :: p in diff <==>
                p in m && (p !in old(distanceMatrix) || old(distanceMatrix)[p] != m[p])
      ensures forall p {:trigger p in diff} :: p in diff ==> diff[p] == m[p]
    {
      diff := map p | p in m && !(p in distanceMatrix && distanceMatrix[p] == m[p]) :: m[p];
      distanceMatrix := m;
    }

    /** One simulation step. Without a matrix the movement director is asked for one; if
        there is no director, the step fails. Whatever the run so far, the active connections
        afterwards are the links of the run, and the chains hold exactly their rules. */
    method Step(given: Matrix, fromDirector: Option<Matrix>) returns (ok: bool)
      requires Valid()
      requires scenario.Fits(given) && (fromDirector.Some? ==> scenario.Fits(fromDirector.value))
      modifies this, store, backend
      ensures Valid()
      ensures ok <==> given != map[] || fromDirector.Some?
      ensures history ==
              if !ok then old(history)
              else old(history) + [if given != map[] then given else fromDirector.value]
      ensures backend.names.Extends(old(backend.names))
    {
      var m := given;
      if m == map[] {
        if fromDirector == None {
          return false;
        }
        m := fromDirector.value;
      }
      StepWith(m);
      return true;
    }

    /** One step with a matrix. */
    method StepWith(m: Matrix)
      requires Valid() && scenario.Fits(m)
      modifies this, store, backend
      ensures Valid() && history == old(history) + [m]
      ensures backend.names.Extends(old(backend.names))
    {
      var diff := GetDistanceMatrixDiff(m);
      LinksAreWhole(scenario, history);
      NothingSwitched(scenario, currentStep, store.active, map[], {});
      if currentStep == 0 || diff != map[] {
        SwitchChanged(diff);
        AgreeFlushed(backend.base, backend.ups, backend.downs, store.active);
        backend.RunCommands();
      }
      SwitchedIsRebuilt(scenario, history, m, store.active);
      AllFitNext(scenario, history, m);
      history := history + [m];
      currentStep := currentStep + 1;
    }

    /** Handles all changed entries of the upper triangle, in any order. */
    method SwitchChanged(diff: Matrix)
      requires Synced() && backend.QueueEmpty() && scenario.Fits(diff)
      requires AllWhole(scenario.nodes, store.active)
      modifies store, backend
      ensures Synced()
      ensures Switched(scenario, currentStep, old(store.active), store.active, diff, diff.Keys)
      ensures backend.names.Extends(old(backend.names))
    {
      ghost var before := store.active;
      var todo := diff.Keys;
      NothingSwitched(scenario, currentStep, before, diff, diff.Keys - todo);
      while todo != {}
        invariant todo <= diff.Keys && Synced()
        invariant backend.names.Extends(old(backend.names))
        invariant forall c :: c in backend.ups || c in backend.downs ==> c.nodes !in todo
        invariant Switched(scenario, currentStep, before, store.active, diff, diff.Keys - todo)
      {
        var p :| p in todo;
        ghost var was := store.active;
        WholeAt(scenario.nodes, before, p);
        StillPending(scenario, currentStep, before, was, diff, diff.Keys - todo, p);
        if p.0 < p.1 {
          StepInner(p, diff[p]);
        }
        SwitchedNext(scenario, currentStep, before, was, store.active, diff, diff.Keys - todo, p);
        assert diff.Keys - (todo - {p}) == diff.Keys - todo + {p};
        todo := todo - {p};
      }
      assert diff.Keys - {} == diff.Keys;
    }

    /** The law of differential switching: if all matrices of a run list the same pairs, then
        after every step the active store holds exactly the offered interface pairs of the
        node pairs that the link model connects in the latest matrix, whatever the history,
        and nothing is stored as inactive. */
    lemma ActiveFollowsLatest(p: NodePair, ip: IfacePair)
      requires Valid()
      requires forall i, j :: 0 <= i < |history| && 0 <= j < |history| ==>
                                history[i].Keys == history[j].Keys
      ensures store.inactive == map[]
      ensures Has(store.active, p, ip) <==>
              && p in Last(history) && p.0 < p.1 && Known(scenario.nodes, p)
              && scenario.model(Last(history)[p]).connected && ip in Wanted(scenario.nodes, p)
    {
      SameKeysMeansLatest(history);
      assert p in store.active <==> p in scenario.Links(history);
    }

    /** The same law, interface by interface: a pair that the latest matrix connects is linked
        over the i-th normal interfaces of both nodes, for every i at which they have the same
        kind and it is neither a hub nor the management one. */
    lemma LinkedInterfaces(p: NodePair, ip: IfacePair)
      requires Valid() && history != []
      requires forall i, j :: 0 <= i < |history| && 0 <= j < |history| ==>
                                history[i].Keys == history[j].Keys
      requires var m := history[|history| - 1]; p in m && p.0 < p.1 && scenario.model(m[p]).connected
      ensures p.0 in scenario.nodes && p.1 in scenario.nodes
      ensures |Normal(scenario.nodes[p.0])| <= |Normal(scenario.nodes[p.1])|
      ensures Has(store.active, p, ip) <==> LinkedAt(scenario.nodes, p, ip)
    {
      LastFits(scenario, history);
      assert Known(scenario.nodes, p);
      ActiveFollowsLatest(p, ip);
      WantedIff(scenario.nodes, p, ip);
    }

    /** No other pair has a link. */
    lemma NoOtherLinks(p: NodePair, ip: IfacePair)
      requires Valid() && history != []
      requires forall i, j :: 0 <= i < |history| && 0 <= j < |history| ==>
                                history[i].Keys == history[j].Keys
      requires var m := history[|history| - 1]; !(p in m && p.0 < p.1 && scenario.model(m[p]).connected)
      ensures !Has(store.active, p, ip)
    {
      ActiveFollowsLatest(p, ip);
    }

    /** The stored quality of every connection of a linked pair is the one of the run. */
    lemma StoredQuality(p: NodePair, ip: IfacePair)
      requires Valid() && Has(store.active, p, ip)
      ensures store.active[p][ip].connection == Connection(p, ip)
      ensures p in Overlay(history)
      ensures store.active[p][ip].quality == Some(scenario.QualityAt(history, p))
    {
    }

    /** From frame to link: on uniform nodes, a frame between two taps is accepted with a mark
        iff an active connection has the rule for it; every other frame is dropped or cannot
        reach the tap, and no frame goes around the chains. */
    lemma FramesFollowLinks(src: Tap, dst: Tap, mark: nat)
      requires Valid()
      ensures var fate := FateOf(backend.table, backend.forward, backend.ports, src, dst);
              && fate != Unfiltered
              && (fate == Accepted(mark) <==>
                    exists c: Connection, f: bool ::
                      && Has(scenario.Links(history), c.nodes, c.ifaces)
                      && OnBridge(backend.names, backend.ports, c)
                      && backend.names.RuleOf(c, f) == Rule(src, dst, mark))
      ensures UniformNodes(scenario.nodes) ==>
              forall c: Connection :: Has(scenario.Links(history), c.nodes, c.ifaces) ==>
                OnBridge(backend.names, backend.ports, c)
    {
      assert Unfolding(UniformPart, true);
      Unfold(backend.State());
      UnfoldPorts(backend.State(), backend.ports, backend.started);
      backend.UnfoldRedirects();
      assert backend.table.Keys == backend.bridges;
      FateMeansConnected(backend.names, backend.base, backend.table, backend.forward, backend.ports,
                         backend.started, src, dst, mark);
      forall c: Connection
        ensures c in backend.base <==> Has(scenario.Links(history), c.nodes, c.ifaces)
        ensures UniformNodes(scenario.nodes) && c in backend.base ==>
                  OnBridge(backend.names, backend.ports, c)
      {
        AgreeOn(backend.base, backend.ups, backend.downs, store.active, c);
        if UniformNodes(scenario.nodes) && c in backend.base {
          UniformIsOnBridge(backend.names, backend.ports, backend.bridges, backend.started, c);
        }
      }
    }

    /** What the invariant means for layer 2: each active connection has exactly one accept
        rule per direction in the chain of its bridge, there is no other rule, and a frame
        passes between two taps iff an active connection links them. */
    lemma Layer2FollowsLinks(chain: nat, src: Tap, dst: Tap, mark: nat)
      requires Valid()
      ensures AllNamed(backend.names, backend.base) && backend.names.Valid()
      ensures forall c :: c in backend.base <==> Has(scenario.Links(history), c.nodes, c.ifaces)
      ensures Holds(backend.table, backend.names.Rules(backend.base))
      ensures Forward(backend.table, chain, src, dst) == Some(mark) <==>
              exists c: Connection, forward: bool ::
                && Has(scenario.Links(history), c.nodes, c.ifaces) && Chain(c) == chain
                && backend.names.RuleOf(c, forward) == Rule(src, dst, mark)
    {
      Unfold(backend.State());
      forall c
        ensures c in backend.base <==> Has(scenario.Links(history), c.nodes, c.ifaces)
      {
        AgreeOn(backend.base, backend.ups, backend.downs, store.active, c);
      }
      ForwardMeansConnected(backend.names, backend.base, backend.table, chain, src, dst, mark);
    }

    /** What the chains hold, tap by tap: for every active connection the chain of the number of
        its first interface has one accept rule from tap to tap and one back, both with the
        mark of this pair of taps, and no chain has any other rule. A frame gets the mark of
        the rule from its tap to the other. */
    lemma ChainsHoldLinks(chain: nat, r: Rule)
      requires Valid()
      ensures chain in backend.table && r in backend.table[chain] <==>
              exists p: NodePair, ip: IfacePair ::
                Has(store.active, p, ip) && ip.0.nr == chain && IsRuleOf(backend.names, p, ip, r)
      ensures chain in backend.table ==> Distinct(backend.table[chain])
      ensures Forward(backend.table, chain, r.src, r.dst) == Some(r.mark) <==>
              chain in backend.table && r in backend.table[chain]
    {
      Unfold(backend.State());
      RulesTapByTap(backend.names, backend.base, backend.table, chain, r);
      forall c: Connection
        ensures c in backend.base <==> Has(store.active, c.nodes, c.ifaces)
      {
        AgreeOn(backend.base, backend.ups, backend.downs, store.active, c);
      }
      if p: NodePair, ip: IfacePair :|
           Has(store.active, p, ip) && ip.0.nr == chain && IsRuleOf(backend.names, p, ip, r) {
        assert Connection(p, ip) in backend.base;
      }
    }
  }

  /** The connections of a pair, all but the remaining ones adjusted. */
  function Adjusted(nics: NicStore, todo: set<IfacePair>, q: Quality): NicStore {
    map ip | ip in nics :: if ip in todo then nics[ip] else nics[ip].(quality := Some(q))
  }

  lemma AdjustedStep(nics: NicStore, todo: set<IfacePair>, ip: IfacePair, q: Quality)
    requires todo <= nics.Keys && ip in todo
    ensures Adjusted(nics, todo - {ip}, q) ==
            Adjusted(nics, todo, q)[ip := Adjusted(nics, todo, q)[ip].(quality := Some(q))]
  {
  }

  /** The store with only these connections of the pair left. */
  function Remaining(s: NodeStore, p: NodePair, todo: set<IfacePair>): NodeStore
    requires p in s
  {
    if todo == {} then s - {p} else s[p := map ip | ip in s[p] && ip in todo :: s[p][ip]]
  }

  lemma RemainingStart(s: NodeStore, p: NodePair)
    requires p in s && s[p] != map[]
    ensures Remaining(s, p, s[p].Keys) == s
  {
    assert Remaining(s, p, s[p].Keys)[p] == s[p];
  }

  lemma RemainingStep(s: NodeStore, p: NodePair, todo: set<IfacePair>, ip: IfacePair)
    requires p in s && todo <= s[p].Keys && ip in todo
    ensures Has(Remaining(s, p, todo), p, ip)
    ensures Without(Remaining(s, p, todo), p, ip) == Remaining(s, p, todo - {ip})
  {
    var now, next := Remaining(s, p, todo), Remaining(s, p, todo - {ip});
    assert (now[p] - {ip}).Keys == todo - {ip};
    if todo != {ip} {
      assert todo - {ip} != {};
      assert next[p] == now[p] - {ip};
    }
  }

  /** The store once these interface pairs have been offered. */
  function Connected(s: NodeStore, p: NodePair, connected: bool, ips: set<IfacePair>): NodeStore {
    if connected && p !in s then Started(s, p, ips) else s
  }

  lemma ConnectedStep(nodes: Nodes, s: NodeStore, p: NodePair, connected: bool, i: nat)
    requires Known(nodes, p) && i < |Offered(nodes, p)|
    requires p in s ==> s[p].Keys == Wanted(nodes, p)
    ensures var ips, ip := Offered(nodes, p), Offered(nodes, p)[i];
            var now := Connected(s, p, connected, LinkableIn(ips[..i]));
            Connected(s, p, connected, LinkableIn(ips[..i + 1])) ==
            if connected && Linkable(ip) && !Has(now, p, ip)
            then Added(now, Details(Connection(p, ip), None)) else now
  {
    var ips, ip := Offered(nodes, p), Offered(nodes, p)[i];
    LinkableStep(ips, i);
    if p !in s {
      StartedStep(s, p, LinkableIn(ips[..i]), ip);
      assert Linkable(ip) && ip in LinkableIn(ips[..i]) ==>
               LinkableIn(ips[..i + 1]) == LinkableIn(ips[..i]);
    } else {
      assert ip in ips;
    }
  }
}
