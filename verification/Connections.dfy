/**
 The connection store: for every node pair the interface pairs that are connected,
 split into active and inactive connections.
 */
module Connections {
  import opened Topology

  type Quality = map<string, string>

  datatype Connection = Connection(nodes: NodePair, ifaces: IfacePair)

  /** A connection with its link quality; the quality is unknown until the first adjustment. */
  datatype Details = Details(connection: Connection, quality: Option<Quality>)

  type NicStore = map<IfacePair, Details>
  type NodeStore = map<NodePair, NicStore>

  datatype Place = Active | Inactive | Nowhere

  datatype Outcome = Changed | Unchanged | UnknownConnection

  predicate Has(store: NodeStore, nodes: NodePair, ifaces: IfacePair) {
    nodes in store && ifaces in store[nodes]
  }

  /** The store after one interface pair was deleted; an emptied node entry goes too. */
  function Without(store: NodeStore, nodes: NodePair, ifaces: IfacePair): (r: NodeStore)
    requires Has(store, nodes, ifaces)
    ensures forall n, i :: Has(r, n, i) <==> Has(store, n, i) && (n, i) != (nodes, ifaces)
    ensures forall n, i :: Has(r, n, i) ==> Has(store, n, i) && r[n][i] == store[n][i]
    ensures nodes in r ==> r[nodes] != map[]
    ensures r - {nodes} == store - {nodes}
  {
    var rest := store[nodes] - {ifaces};
    assert forall i :: i in store[nodes] <==> i in rest || i == ifaces;
    if rest == map[] then store - {nodes} else store[nodes := rest]
  }

  class ConnectionStore {
    var active: NodeStore
    var inactive: NodeStore

    constructor ()
      ensures active == map[] && inactive == map[]
    {
      active, inactive := map[], map[];
    }

    /** Adds a connection; an entry without any connection is replaced by a fresh one. */
    method AddConnection(c: Connection, isActive: bool, quality: Option<Quality>)
      modifies this
      ensures var before := if isActive then old(active) else old(inactive);
              var nics := if c.nodes in before then before[c.nodes] else map[];
              var after := before[c.nodes := nics[c.ifaces := Details(c, quality)]];
              if isActive then active == after && inactive == old(inactive)
              else inactive == after && active == old(active)
    {
      var store := if isActive then active else inactive;
      var conns: NicStore := map[];
      if c.nodes in store && store[c.nodes] != map[] {
        conns := store[c.nodes];
      }
      conns := conns[c.ifaces := Details(c, quality)];
      store := store[c.nodes := conns];
      if isActive { active := store; } else { inactive := store; }
    }

    /** Where the connection is stored; the active connections are searched first. */
    function GetConnectionsForNodesImplicit(nodes: NodePair, ifaces: IfacePair): (r: Place)
      reads this
      ensures r == Active <==> Has(active, nodes, ifaces)
      ensures r == Nowhere <==> !Has(active, nodes, ifaces) && !Has(inactive, nodes, ifaces)
    {
      if Has(active, nodes, ifaces) then Active
      else if Has(inactive, nodes, ifaces) then Inactive
      else Nowhere
    }

    /** Flags a connection as active or inactive. The connection leaves its store, but it
        only arrives in the other one if that store already has an entry for the node pair:
        otherwise the write hits a missing key, and the error is swallowed. What arrives is
        some details object of the node pair, not necessarily the one of this connection. */
    method ChangeConnectionState(nodes: NodePair, ifaces: IfacePair, nowActive: bool)
      returns (r: Outcome)
      modifies this
      ensures r == UnknownConnection <==>
              old(GetConnectionsForNodesImplicit(nodes, ifaces)) == Nowhere
      ensures r == Changed <==>
              old(GetConnectionsForNodesImplicit(nodes, ifaces)) ==
              (if nowActive then Inactive else Active)
      ensures r != Changed ==> active == old(active) && inactive == old(inactive)
      ensures r == Changed && !nowActive ==> active == Without(old(active), nodes, ifaces)
      ensures r == Changed && nowActive ==> inactive == Without(old(inactive), nodes, ifaces)
      ensures r == Changed ==>
                var target := if nowActive then active else inactive;
                var before := if nowActive then old(active) else old(inactive);
                var source := if nowActive then old(inactive) else old(active);
                if nodes !in before then target == before
                else exists d :: d in source[nodes].Values &&
                                 target == before[nodes := before[nodes][ifaces := d]]
    {
      var place := GetConnectionsForNodesImplicit(nodes, ifaces);
      if place == Nowhere {
        return UnknownConnection;
      }
      var nics := if place == Active then active[nodes] else inactive[nodes];
      assert nics[ifaces] in nics.Values;
      var details :| details in nics.Values;
      if (place == Active) == nowActive {
        return Unchanged;
      }
      if nowActive {
        inactive := Without(inactive, nodes, ifaces);
        if nodes in active {
          active := active[nodes := active[nodes][ifaces := details]];
        }
      } else {
        active := Without(active, nodes, ifaces);
        if nodes in inactive {
          inactive := inactive[nodes := inactive[nodes][ifaces := details]];
        }
      }
      return Changed;
    }

    /** Records the new link quality of a stored connection. */
    method UpdateLinkQuality(nodes: NodePair, ifaces: IfacePair, quality: Quality)
      returns (r: Place)
      modifies this
      ensures r == old(GetConnectionsForNodesImplicit(nodes, ifaces))
      ensures active == if r != Active then old(active) else
                        old(active)[nodes := old(active)[nodes][ifaces :=
                          old(active)[nodes][ifaces].(quality := Some(quality))]]
      ensures inactive == if r != Inactive then old(inactive) else
                          old(inactive)[nodes := old(inactive)[nodes][ifaces :=
                            old(inactive)[nodes][ifaces].(quality := Some(quality))]]
    {
      r := GetConnectionsForNodesImplicit(nodes, ifaces);
      match r
      case Active =>
        var d := active[nodes][ifaces].(quality := Some(quality));
        active := active[nodes := active[nodes][ifaces := d]];
      case Inactive =>
        var d := inactive[nodes][ifaces].(quality := Some(quality));
        inactive := inactive[nodes := inactive[nodes][ifaces := d]];
      case Nowhere =>
    }
  }
}
