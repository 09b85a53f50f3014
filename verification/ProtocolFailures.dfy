/**
 When the coordinator waits for ever: a client whose server has no part in a matrix fails, and
 the next barrier is never complete. Servers without nodes are the usual reason.
 */
module ProtocolFailures {
  import opened Topology
  import opened MatrixDistribution
  import opened Scheduler
  import opened Protocol
  import opened ProtocolSafety
  import opened ProtocolTheorems
  import opened ProtocolProgress

  /** The nodes of the servers 1..k. */
  function NodesUpTo(d: Mapping, k: nat): (r: seq<nat>)
    requires forall id :: 1 <= id <= k ==> id in d
  {
    if k == 0 then [] else NodesUpTo(d, k - 1) + d[k]
  }

  lemma {:induction false} CountIsMultiplicity(ids: seq<nat>, node: nat)
    ensures Count(ids, node) == multiset(ids)[node]
  {
    if ids != [] {
      var last := |ids| - 1;
      CountIsMultiplicity(ids[..last], node);
      assert ids == ids[..last] + [ids[last]];
    }
  }

  lemma {:induction false} CountUpTo(d: Mapping, k: nat, node: nat)
    requires forall id :: 1 <= id <= k ==> id in d
    ensures multiset(NodesUpTo(d, k))[node] == TotalCount(d, k, node)
  {
    if k > 0 {
      CountUpTo(d, k - 1, node);
      CountIsMultiplicity(d[k], node);
    }
  }

  lemma {:induction false} OneNodeEach(d: Mapping, k: nat)
    requires forall id :: 1 <= id <= k ==> id in d && d[id] != []
    ensures |NodesUpTo(d, k)| >= k
  {
    if k > 0 {
      OneNodeEach(d, k - 1);
    }
  }

  /** With more servers than nodes, every distribution leaves a server empty. */
  lemma FewNodesLeaveEmpty(d: Mapping, nodes: seq<nat>, cnt: nat) returns (id: nat)
    requires Distributes(d, nodes, cnt) && |nodes| < cnt
    ensures id in d && d[id] == []
  {
    var all: multiset<nat>, listed: multiset<nat> := multiset(NodesUpTo(d, cnt)), multiset(nodes);
    forall node: nat
      ensures all[node] == listed[node]
    {
      CountUpTo(d, cnt, node);
      CountIsMultiplicity(nodes, node);
    }
    assert all == listed;
    assert |NodesUpTo(d, cnt)| == |all| == |nodes|;
    if forall id :: 1 <= id <= cnt ==> d[id] != [] {
      OneNodeEach(d, cnt);
      assert false;
    }
    id :| 1 <= id <= cnt && d[id] == [];
  }

  /** A server without nodes takes part in no matrix. */
  lemma EmptyTakesNoPart(d: Mapping, id: nat, m: Matrix)
    requires id in d && d[id] == []
    ensures !AllTakePart(d, m)
  {
  }

  /** With more servers than nodes the coordinator makes no progress: in publish-subscribe mode
      not even the first step ever returns, otherwise not the second. */
  lemma FewNodesNeverStep(mode: Mode, nodes: seq<nat>, hosts: seq<Host>, sys: System)
    requires Reachable(mode, nodes, hosts, sys) && |nodes| < |hosts|
    requires sys.server.stage == Waiting
    ensures |sys.server.matrices| <= if mode == Multicast then 0 else 1
  {
    ReachableInv(mode, nodes, hosts, sys);
    WaitingMeansStepped(sys);
    var s := sys.server;
    if Awaited(s) > 0 {
      UnfoldMapping(s);
      var id := FewNodesLeaveEmpty(s.mapping, nodes, |hosts|);
      EmptyTakesNoPart(s.mapping, id, s.matrices[0]);
    }
  }

  // ----- Reaching the hang ------------------------------------------------------------

  /** The server is in this round, or has finished it. */
  predicate InRound(s: Server, round: nat) {
    if s.stage == Waiting then s.round == round + 1 else s.round == round
  }

  lemma {:induction false} QuietKeepsRound(start: System, actions: seq<Action>, end: System, round: nat)
    requires IsRun(start, actions, end) && Quiet(actions) && InRound(start.server, round) && round < 3
    ensures InRound(end.server, round)
    decreases actions
  {
    if actions != [] {
      assert InRound(Apply(start, actions[0]).server, round);
      QuietKeepsRound(Apply(start, actions[0]), actions[1..], end, round);
    }
  }

  /** The server waits, with these nodes for its servers once they are distributed. */
  ghost predicate WaitsWith(mode: Mode, nodes: seq<nat>, hosts: seq<Host>, d: Mapping, sys: System) {
    Reachable(mode, nodes, hosts, sys) && sys.server.stage == Waiting && MapsTo(sys.server, d)
  }

  /** What is left of a round, with this distribution. */
  lemma RunOn(mode: Mode, nodes: seq<nat>, hosts: seq<Host>, d: Mapping, sys: System)
    returns (actions: seq<Action>, end: System)
    requires Reachable(mode, nodes, hosts, sys) && MapsTo(sys.server, d)
    requires Distributes(d, nodes, |hosts|)
    ensures Finishes(sys, actions, end) && Reachable(mode, nodes, hosts, end)
    ensures MapsTo(end.server, d) && SameStep(sys.server, end.server)
  {
    ReachableInv(mode, nodes, hosts, sys);
    actions, end := SomeRunFinishes(sys, d);
    StaysReachable(mode, nodes, hosts, sys, actions, end);
    QuietKeepsStep(sys, actions, end);
  }

  /** A phase before the first step always passes. */
  lemma PhasePasses(mode: Mode, nodes: seq<nat>, hosts: seq<Host>, d: Mapping, sys: System)
    returns (end: System)
    requires WaitsWith(mode, nodes, hosts, d, sys) && sys.server.round < 3
    requires Distributes(d, nodes, |hosts|) && hosts != []
    ensures WaitsWith(mode, nodes, hosts, d, end) && end.server.round == sys.server.round + 1
  {
    ReachableInv(mode, nodes, hosts, sys);
    var begun := Apply(sys, Begin);
    assert IsRun(sys, [Begin], begun);
    StaysReachable(mode, nodes, hosts, sys, [Begin], begun);
    var actions;
    actions, end := RunOn(mode, nodes, hosts, d, begun);
    EveryRoundEnds(mode, nodes, hosts, begun, actions, end);
    QuietKeepsRound(begun, actions, end, sys.server.round);
  }

  /** Every distribution of the nodes can be the one that a scenario starts with. */
  lemma ScenarioStarts(mode: Mode, nodes: seq<nat>, hosts: seq<Host>, d: Mapping) returns (sys: System)
    requires Distributes(d, nodes, |hosts|) && hosts != []
    ensures WaitsWith(mode, nodes, hosts, d, sys)
    ensures sys.server.round == 3 && sys.server.mapping == d && sys.server.matrices == []
  {
    sys := Initial(mode, nodes, hosts);
    assert IsRun(sys, [], sys);
    sys := PhasePasses(mode, nodes, hosts, d, sys);
    sys := PhasePasses(mode, nodes, hosts, d, sys);
    sys := PhasePasses(mode, nodes, hosts, d, sys);
    ReachableInv(mode, nodes, hosts, sys);
  }

  /** The coordinator's step, run until nothing is possible any more. */
  lemma RunStep(mode: Mode, nodes: seq<nat>, hosts: seq<Host>, d: Mapping, sys: System, m: Matrix)
    returns (end: System)
    requires WaitsWith(mode, nodes, hosts, d, sys) && sys.server.round >= 3
    requires Distributes(d, nodes, |hosts|) && hosts != []
    ensures Reachable(mode, nodes, hosts, end)
    ensures end.server.mapping == d && end.server.matrices == sys.server.matrices + [m]
    ensures end.server.stage == Waiting || (end.server.stage == Expecting && forall a :: !Enabled(end, a))
    ensures end.server.stage == Waiting <==>
              if mode == Multicast then AllTakePart(d, m)
              else sys.server.matrices != [] ==>
                AllTakePart(d, sys.server.matrices[|sys.server.matrices| - 1])
  {
    var begun := Apply(sys, BeginStep(m));
    assert IsRun(sys, [BeginStep(m)], begun);
    StaysReachable(mode, nodes, hosts, sys, [BeginStep(m)], begun);
    var actions;
    actions, end := RunOn(mode, nodes, hosts, d, begun);
    EveryRoundEnds(mode, nodes, hosts, begun, actions, end);
    NextStepReturnsIff(mode, nodes, hosts, sys, m, actions, end);
  }

  /** The coordinator waits for messages, and nobody can do anything any more. */
  ghost predicate Hangs(mode: Mode, nodes: seq<nat>, hosts: seq<Host>, d: Mapping, sys: System) {
    && Reachable(mode, nodes, hosts, sys) && sys.server.mapping == d
    && sys.server.stage == Expecting && forall a :: !Enabled(sys, a)
  }

  /** Whenever a server gets no node, the coordinator hangs in the first step, or in the second
      one if it does not wait for the clients to have stepped; whatever the matrix. */
  lemma EmptyServerHangs(mode: Mode, nodes: seq<nat>, hosts: seq<Host>, d: Mapping, id: nat, m: Matrix)
    returns (sys: System)
    requires Distributes(d, nodes, |hosts|) && hosts != [] && id in d && d[id] == []
    ensures Hangs(mode, nodes, hosts, d, sys)
    ensures sys.server.matrices == if mode == Multicast then [m] else [m, m]
  {
    EmptyTakesNoPart(d, id, m);
    sys := ScenarioStarts(mode, nodes, hosts, d);
    sys := RunStep(mode, nodes, hosts, d, sys, m);
    if mode != Multicast {
      ReachableInv(mode, nodes, hosts, sys);
      assert sys.server.matrices == [m];
      assert MapsTo(sys.server, d);
      sys := RunStep(mode, nodes, hosts, d, sys, m);
    }
  }

  /** The equal strategy with the nodes 1 and 2 on three servers: server 3 gets nothing, and the
      coordinator hangs. */
  method EqualStrategyHangs(mode: Mode, hosts: seq<Host>, m: Matrix) returns (d: Mapping)
    requires |hosts| == 3
    ensures Distributes(d, [1, 2], 3) && d[3] == []
    ensures exists sys :: Hangs(mode, [1, 2], hosts, d, sys) &&
                          sys.server.matrices == if mode == Multicast then [m] else [m, m]
  {
    assert NodeIds(2) == [1, 2];
    d := DistributeEqually([1, 2], 3);
    ghost var sys := EmptyServerHangs(mode, [1, 2], hosts, d, 3, m);
  }
}
