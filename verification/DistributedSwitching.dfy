/**
 Coordinator protocol and differential switching together: what the clients have linked after a
 step is what one server with all nodes would have linked.
 */
module DistributedSwitching {
  import opened Topology
  import opened MatrixDistribution
  import opened Scheduler
  import opened Switching
  import opened Protocol
  import opened ProtocolSafety
  import opened ProtocolTheorems

  /** One endpoint of the pair is among the nodes. */
  predicate Touches(nodes: seq<nat>, p: NodePair) {
    p.0 in nodes || p.1 in nodes
  }

  /** The parts of all matrices of a run. */
  ghost predicate AreParts(parts: seq<Matrix>, matrices: seq<Matrix>, nodes: seq<nat>) {
    && |parts| == |matrices|
    && forall j :: 0 <= j < |parts| ==> parts[j] == Local(matrices[j], nodes)
  }

  /** The latest distances of the parts are the part of the latest distances. */
  lemma {:induction false} OverlayOfParts(parts: seq<Matrix>, matrices: seq<Matrix>, nodes: seq<nat>)
    requires AreParts(parts, matrices, nodes)
    ensures Overlay(parts) == Local(Overlay(matrices), nodes)
  {
    if parts != [] {
      var last := |parts| - 1;
      OverlayOfParts(parts[..last], matrices[..last], nodes);
      assert parts[last] == Local(matrices[last], nodes);
    }
  }

  /** A pair on the server changes in its parts exactly when it changes. */
  lemma UntouchedInParts(parts: seq<Matrix>, matrices: seq<Matrix>, nodes: seq<nat>, p: NodePair)
    requires AreParts(parts, matrices, nodes) && Touches(nodes, p)
    ensures Untouched(parts, p) <==> Untouched(matrices, p)
  {
    forall i | 1 <= i < |parts|
      ensures p in Diff(parts[i - 1], parts[i]) <==> p in Diff(matrices[i - 1], matrices[i])
    {
      assert parts[i - 1] == Local(matrices[i - 1], nodes) && parts[i] == Local(matrices[i], nodes);
    }
  }

  /** A server that steps on its parts has exactly the links of the whole run that touch its
      nodes, with the same quality. */
  lemma LinksOfParts(s: Scenario, parts: seq<Matrix>, matrices: seq<Matrix>, nodes: seq<nat>, p: NodePair)
    requires AreParts(parts, matrices, nodes)
    ensures p in s.Links(parts) <==> p in s.Links(matrices) && Touches(nodes, p)
    ensures p in s.Links(parts) ==> s.Links(parts)[p] == s.Links(matrices)[p]
  {
    OverlayOfParts(parts, matrices, nodes);
    if Touches(nodes, p) {
      UntouchedInParts(parts, matrices, nodes, p);
      assert p in Overlay(parts) <==> p in Overlay(matrices);
      if p in Overlay(parts) {
        assert s.QualityAt(parts, p) == s.QualityAt(matrices, p);
      }
    }
  }

  /** A client that has stepped on its parts of the matrices has the links that touch one of its
      nodes. */
  ghost predicate HasItsLinks(s: Scenario, c: Client, matrices: seq<Matrix>) {
    && c.config.Some?
    && forall p :: (p in s.Links(c.applied) <==> p in s.Links(matrices) && Touches(NodesOf(c.config.value), p))
                   && (p in s.Links(c.applied) ==> s.Links(c.applied)[p] == s.Links(matrices)[p])
  }

  lemma AppliedGivesLinks(s: Scenario, c: Client, matrices: seq<Matrix>)
    requires HasApplied(c, matrices) && c.config.Some?
    ensures HasItsLinks(s, c, matrices)
  {
    forall p
      ensures p in s.Links(c.applied) <==> p in s.Links(matrices) && Touches(NodesOf(c.config.value), p)
      ensures p in s.Links(c.applied) ==> s.Links(c.applied)[p] == s.Links(matrices)[p]
    {
      LinksOfParts(s, c.applied, matrices, NodesOf(c.config.value), p);
    }
  }

  /** After a publish-subscribe step has returned, the links of a client are exactly the links
      of the whole network that touch one of its nodes. */
  lemma ClientHasItsLinks(s: Scenario, nodes: seq<nat>, hosts: seq<Host>, sys: System, a: nat)
    requires Reachable(Multicast, nodes, hosts, sys) && sys.server.stage == Waiting
    requires a < |hosts| && sys.server.matrices != []
    ensures |sys.clients| == |hosts| && HasItsLinks(s, sys.clients[a], sys.server.matrices)
  {
    PubSubLockstep(nodes, hosts, sys, a);
    AppliedGivesLinks(s, sys.clients[a], sys.server.matrices);
  }

  /** After request-reply step k has returned, the links of a client are those of the network
      after step k or after step k - 1. */
  lemma ReqReplyClientHasItsLinks(s: Scenario, mode: Mode, nodes: seq<nat>, hosts: seq<Host>,
                                  sys: System, a: nat)
    requires mode != Multicast && Reachable(mode, nodes, hosts, sys) && sys.server.stage == Waiting
    requires a < |hosts| && sys.server.matrices != []
    ensures |sys.clients| == |hosts|
    ensures var c, k := sys.clients[a], |sys.server.matrices| - 1;
            HasItsLinks(s, c, sys.server.matrices) || HasItsLinks(s, c, sys.server.matrices[..k])
  {
    var matrices, k := sys.server.matrices, |sys.server.matrices| - 1;
    ReqReplyLockstep(mode, nodes, hosts, sys, a);
    ReachableInv(mode, nodes, hosts, sys);
    HasConfig(sys, a);
    if |sys.clients[a].applied| == k {
      AppliedGivesLinks(s, sys.clients[a], matrices[..k]);
    } else {
      assert matrices[..k + 1] == matrices;
      AppliedGivesLinks(s, sys.clients[a], matrices);
    }
  }

  /** Once the clients have come to rest, the links are those after step k, unless the client has
      no part in the last matrix. */
  lemma ReqReplyLinksSettle(s: Scenario, mode: Mode, nodes: seq<nat>, hosts: seq<Host>,
                            sys: System, a: nat)
    requires mode != Multicast && Reachable(mode, nodes, hosts, sys) && sys.server.stage == Waiting
    requires a < |hosts| && sys.server.matrices != []
    requires forall x :: Enabled(sys, x) ==> Begins(x)
    ensures |sys.clients| == |hosts| && sys.clients[a].config.Some?
    ensures var c, matrices := sys.clients[a], sys.server.matrices;
            if Local(matrices[|matrices| - 1], NodesOf(c.config.value)) == map[] then
              c.pc == Failed && HasItsLinks(s, c, matrices[..|matrices| - 1])
            else c.pc != Failed && HasItsLinks(s, c, matrices)
  {
    ReqReplySettles(mode, nodes, hosts, sys, a);
    var c, matrices := sys.clients[a], sys.server.matrices;
    if c.pc == Failed {
      AppliedGivesLinks(s, c, matrices[..|matrices| - 1]);
    } else {
      AppliedGivesLinks(s, c, matrices);
    }
  }

  lemma HasConfig(sys: System, a: nat)
    requires Inv(sys) && a < |sys.clients| && sys.server.matrices != [] && sys.server.stage == Waiting
    ensures sys.clients[a].config.Some?
  {
    assert ClientOk(sys.server, a, sys.clients[a]);
    UnfoldData(sys.server, a, sys.clients[a]);
  }

  /** Clients that are up to date together have all links: a pair of scheduled nodes is linked
      in the whole network iff some client has the link. */
  lemma TogetherAllLinks(s: Scenario, mode: Mode, nodes: seq<nat>, hosts: seq<Host>, sys: System, p: NodePair)
    requires Reachable(mode, nodes, hosts, sys) && hosts != [] && |sys.clients| == |hosts|
    requires forall a :: 0 <= a < |hosts| ==> HasItsLinks(s, sys.clients[a], sys.server.matrices)
    requires (forall n :: Count(nodes, n) <= 1) && Touches(nodes, p)
    ensures p in s.Links(sys.server.matrices) <==>
            exists a :: 0 <= a < |hosts| && p in s.Links(sys.clients[a].applied)
  {
    forall c | c in sys.clients
      ensures c.config.Some?
    {
      var a :| 0 <= a < |sys.clients| && sys.clients[a] == c;
    }
    var node := if p.0 in nodes then p.0 else p.1;
    EveryNodeStartsOnce(mode, nodes, hosts, sys, node);
    var a :| 0 <= a < |sys.clients| && node in NodesOf(sys.clients[a].config.value);
    assert Touches(NodesOf(sys.clients[a].config.value), p);
  }

  /** The clients together have all links: in publish-subscribe mode whenever a step has
      returned, in the other modes once the clients have come to rest and none has failed. */
  lemma ClientsHaveAllLinks(s: Scenario, mode: Mode, nodes: seq<nat>, hosts: seq<Host>, sys: System, p: NodePair)
    requires Reachable(mode, nodes, hosts, sys) && sys.server.stage == Waiting
    requires hosts != [] && sys.server.matrices != []
    requires mode == Multicast ||
             ((forall x :: Enabled(sys, x) ==> Begins(x)) && forall c :: c in sys.clients ==> c.pc != Failed)
    requires (forall n :: Count(nodes, n) <= 1) && Touches(nodes, p)
    ensures |sys.clients| == |hosts|
    ensures p in s.Links(sys.server.matrices) <==>
            exists a :: 0 <= a < |hosts| && p in s.Links(sys.clients[a].applied)
  {
    ReachableInv(mode, nodes, hosts, sys);
    forall a | 0 <= a < |hosts|
      ensures HasItsLinks(s, sys.clients[a], sys.server.matrices)
    {
      if mode == Multicast {
        ClientHasItsLinks(s, nodes, hosts, sys, a);
      } else {
        assert sys.clients[a] in sys.clients;
        ReqReplyLinksSettle(s, mode, nodes, hosts, sys, a);
      }
    }
    TogetherAllLinks(s, mode, nodes, hosts, sys, p);
  }
}
