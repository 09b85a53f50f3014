/**
 What the coordinator protocol guarantees in every state of every run.
 */
module ProtocolTheorems {
  import opened Topology
  import opened MatrixDistribution
  import opened Scheduler
  import opened Counting
  import opened Protocol
  import opened ProtocolSafety

  /** The requests that a client has sent so far. */
  function Sent(c: Client): nat {
    c.round + if c.pc == AwaitReply then 1 else 0
  }

  ghost predicate Reachable(mode: Mode, nodes: seq<nat>, hosts: seq<Host>, sys: System) {
    exists actions :: IsRun(Initial(mode, nodes, hosts), actions, sys)
  }

  /** Only the user begins something new: the next phase or the next step. */
  predicate Begins(a: Action) {
    a.Begin? || a.BeginStep?
  }

  /** The scenario and the clients do not change along a run. */
  ghost predicate SameSetting(a: System, b: System) {
    && a.server.mode == b.server.mode && a.server.nodes == b.server.nodes
    && a.server.cnt == b.server.cnt
  }

  lemma {:induction false} RunKeepsSetting(start: System, actions: seq<Action>, end: System)
    requires IsRun(start, actions, end)
    ensures SameSetting(start, end)
    decreases actions
  {
    if actions != [] {
      RunKeepsSetting(Apply(start, actions[0]), actions[1..], end);
    }
  }

  lemma ReachableInv(mode: Mode, nodes: seq<nat>, hosts: seq<Host>, sys: System)
    requires Reachable(mode, nodes, hosts, sys)
    ensures Inv(sys)
    ensures sys.server.mode == mode && sys.server.nodes == nodes && sys.server.cnt == |hosts|
  {
    var actions :| IsRun(Initial(mode, nodes, hosts), actions, sys);
    InitialInv(mode, nodes, hosts);
    RunKeepsInv(Initial(mode, nodes, hosts), actions, sys);
    RunKeepsSetting(Initial(mode, nodes, hosts), actions, sys);
  }

  lemma RoundBounds(sys: System, a: nat)
    requires Inv(sys) && a < |sys.clients|
    ensures var s, c := sys.server, sys.clients[a];
            && Sent(c) >= Answers(s, a) >= c.round && c.round + 1 >= Answers(s, a)
            && (Unanswered(s, a) ==> Sent(c) == s.round + 1)
  {
    assert ClientOk(sys.server, a, sys.clients[a]);
    UnfoldData(sys.server, a, sys.clients[a]);
  }

  /** A barrier in every round: no client has received more replies than any other client
      has sent requests, so nobody passes a round before all have entered it. */
  lemma BarrierHolds(mode: Mode, nodes: seq<nat>, hosts: seq<Host>, sys: System, a: nat, b: nat)
    requires Reachable(mode, nodes, hosts, sys)
    requires a < |hosts| && b < |hosts|
    ensures |sys.clients| == |hosts|
    ensures sys.clients[a].round <= Sent(sys.clients[b])
    ensures sys.clients[a].round <= sys.clients[b].round + 1
  {
    ReachableInv(mode, nodes, hosts, sys);
    RoundBounds(sys, a);
    RoundBounds(sys, b);
  }

  /** The server never drops a message, and whenever its expecter is done, it has collected
      exactly one message from every client, all of them for the current round. */
  lemma ExpecterCollectsAll(mode: Mode, nodes: seq<nat>, hosts: seq<Host>, sys: System)
    requires Reachable(mode, nodes, hosts, sys)
    ensures sys.server.rejected == 0 && |sys.clients| == |hosts|
    ensures sys.server.stage == Expecting ==> Distinct(Addresses(sys.server.storage))
    ensures sys.server.stage == Expecting && |sys.server.storage| == |hosts| ==>
              forall a :: 0 <= a < |hosts| ==>
                && a in Addresses(sys.server.storage)
                && RequestOf(a, sys.clients[a]) in sys.server.storage
                && sys.clients[a].round == sys.server.round
  {
    ReachableInv(mode, nodes, hosts, sys);
    if sys.server.stage == Expecting && |sys.server.storage| == |hosts| {
      forall a | 0 <= a < |hosts|
        ensures a in Addresses(sys.server.storage)
        ensures RequestOf(a, sys.clients[a]) in sys.server.storage
        ensures sys.clients[a].round == sys.server.round
      {
        FullRound(sys, a);
      }
    }
  }

  lemma {:induction false} RunKeepsHosts(start: System, actions: seq<Action>, end: System)
    requires IsRun(start, actions, end)
    ensures |end.clients| == |start.clients|
    ensures forall a :: 0 <= a < |start.clients| ==> end.clients[a].host == start.clients[a].host
    decreases actions
  {
    if actions != [] {
      ActionKeepsHosts(start, actions[0]);
      RunKeepsHosts(Apply(start, actions[0]), actions[1..], end);
    }
  }

  lemma ActionKeepsHosts(sys: System, a: Action)
    requires Enabled(sys, a)
    ensures var sys' := Apply(sys, a);
            && |sys'.clients| == |sys.clients|
            && forall i :: 0 <= i < |sys.clients| ==> sys'.clients[i].host == sys.clients[i].host
  {
  }

  /** What the coordinator has collected when its expecter is done, part by part: from every
      client exactly the message of this phase. The registration is empty, the exchange brings
      the id, the tunnel address and the score of the host of the client, and all later
      messages bring the id. */
  lemma MessagesOfPhase(mode: Mode, nodes: seq<nat>, hosts: seq<Host>, sys: System, a: nat)
    requires Reachable(mode, nodes, hosts, sys) && a < |hosts|
    requires sys.server.stage == Expecting && |sys.server.storage| == |hosts|
    ensures |sys.clients| == |hosts| && sys.clients[a].host == hosts[a]
    ensures sys.server.round > 0 ==> sys.clients[a].id.Some?
    ensures var r, c := sys.server.round, sys.clients[a];
            (if r == 0 then Request(a, StateRegister, [])
             else if r == 1 then
               Request(a, StateExchange, [ServerId(c.id.value), TunnelIp(hosts[a].ip),
                                          ServerScore(hosts[a].cpu, hosts[a].freeMem)])
             else if r == 2 then Request(a, StateStartNodes, [ServerId(c.id.value)])
             else Request(a, StateDistanceMatrix, [ServerId(c.id.value)])) in sys.server.storage
  {
    ReachableInv(mode, nodes, hosts, sys);
    var actions :| IsRun(Initial(mode, nodes, hosts), actions, sys);
    RunKeepsHosts(Initial(mode, nodes, hosts), actions, sys);
    FullRound(sys, a);
    assert ClientOk(sys.server, a, sys.clients[a]);
    UnfoldData(sys.server, a, sys.clients[a]);
  }

  /** The matrices a client has stepped on, as its config says. */
  ghost predicate HasApplied(c: Client, matrices: seq<Matrix>) {
    && |c.applied| == |matrices|
    && (matrices != [] ==> c.config.Some?)
    && forall j :: 0 <= j < |matrices| ==>
         c.applied[j] == Local(matrices[j], NodesOf(c.config.value))
  }

  lemma AppliedPrefix(sys: System, a: nat)
    requires Inv(sys) && a < |sys.clients|
    ensures var s, c := sys.server, sys.clients[a];
            |c.applied| <= |s.matrices| && HasApplied(c, s.matrices[..|c.applied|])
  {
    assert ClientOk(sys.server, a, sys.clients[a]);
    UnfoldData(sys.server, a, sys.clients[a]);
  }

  /** Publish-subscribe: whenever a step of the coordinator has returned, every client has
      stepped on exactly its part of all matrices so far, in order. */
  lemma PubSubLockstep(nodes: seq<nat>, hosts: seq<Host>, sys: System, a: nat)
    requires Reachable(Multicast, nodes, hosts, sys) && a < |hosts|
    requires sys.server.stage == Waiting
    ensures |sys.clients| == |hosts| && HasApplied(sys.clients[a], sys.server.matrices)
  {
    ReachableInv(Multicast, nodes, hosts, sys);
    AppliedPrefix(sys, a);
    var s, c := sys.server, sys.clients[a];
    assert ClientOk(s, a, c);
    UnfoldData(s, a, c);
    assert |c.applied| == |s.matrices|;
    assert s.matrices[..|c.applied|] == s.matrices;
  }

  /** Publish-subscribe: at any time two clients differ by at most one step. */
  lemma PubSubWithinOne(nodes: seq<nat>, hosts: seq<Host>, sys: System, a: nat, b: nat)
    requires Reachable(Multicast, nodes, hosts, sys) && a < |hosts| && b < |hosts|
    ensures |sys.clients| == |hosts|
    ensures |sys.clients[a].applied| <= |sys.clients[b].applied| + 1
    ensures |sys.clients[a].applied| <= |sys.server.matrices|
    ensures HasApplied(sys.clients[a], sys.server.matrices[..|sys.clients[a].applied|])
  {
    ReachableInv(Multicast, nodes, hosts, sys);
    AppliedPrefix(sys, a);
    assert ClientOk(sys.server, a, sys.clients[a]);
    UnfoldData(sys.server, a, sys.clients[a]);
    assert ClientOk(sys.server, b, sys.clients[b]);
    UnfoldData(sys.server, b, sys.clients[b]);
  }

  /** Request-reply: whenever step k of the coordinator has returned, every client has stepped
      on its part of all matrices so far, except possibly the last one. */
  lemma ReqReplyLockstep(mode: Mode, nodes: seq<nat>, hosts: seq<Host>, sys: System, a: nat)
    requires mode != Multicast && Reachable(mode, nodes, hosts, sys) && a < |hosts|
    requires sys.server.stage == Waiting
    ensures |sys.clients| == |hosts|
    ensures |sys.server.matrices| - 1 <= |sys.clients[a].applied| <= |sys.server.matrices|
    ensures HasApplied(sys.clients[a], sys.server.matrices[..|sys.clients[a].applied|])
  {
    ReachableInv(mode, nodes, hosts, sys);
    AppliedPrefix(sys, a);
    assert ClientOk(sys.server, a, sys.clients[a]);
    UnfoldData(sys.server, a, sys.clients[a]);
  }

  /** Request-reply: when a step has returned and the clients have come to rest, every client
      has stepped on its part of all matrices, or has failed because its part of the last one
      is empty. */
  lemma ReqReplySettles(mode: Mode, nodes: seq<nat>, hosts: seq<Host>, sys: System, a: nat)
    requires mode != Multicast && Reachable(mode, nodes, hosts, sys) && a < |hosts|
    requires sys.server.stage == Waiting && sys.server.matrices != []
    requires forall x :: Enabled(sys, x) ==> Begins(x)
    ensures |sys.clients| == |hosts| && sys.clients[a].config.Some?
    ensures var c, last := sys.clients[a], |sys.server.matrices| - 1;
            && (c.pc == Failed <==> Local(sys.server.matrices[last], NodesOf(c.config.value)) == map[])
            && (if c.pc == Failed then HasApplied(c, sys.server.matrices[..last])
                else HasApplied(c, sys.server.matrices))
  {
    ReachableInv(mode, nodes, hosts, sys);
    AppliedPrefix(sys, a);
    var s, c := sys.server, sys.clients[a];
    assert ClientOk(s, a, c);
    UnfoldData(s, a, c);
    assert !Enabled(sys, ClientSend(a)) && !Enabled(sys, ClientReceive(a));
    assert Tried(c) == |s.matrices|;
    assert s.matrices[..|s.matrices|] == s.matrices;
  }

  /** Registration: every registered client has an id of its own in 1..n, and the config that
      it gets is the one made for this id. */
  lemma ConfigMatchesId(mode: Mode, nodes: seq<nat>, hosts: seq<Host>, sys: System, a: nat, b: nat)
    requires Reachable(mode, nodes, hosts, sys) && a < |hosts| && b < |hosts|
    ensures |sys.clients| == |hosts|
    ensures var c, d := sys.clients[a], sys.clients[b];
            && (c.id.Some? ==> 1 <= c.id.value <= |hosts|)
            && (c.id.Some? && c.id == d.id ==> a == b)
            && (c.config.Some? ==> c.id == Some(c.config.value.serverId))
            && (c.config.Some? && d.config.Some? ==> c.config.value.mapping == d.config.value.mapping)
  {
    ReachableInv(mode, nodes, hosts, sys);
    assert ClientOk(sys.server, a, sys.clients[a]);
    UnfoldData(sys.server, a, sys.clients[a]);
    assert ClientOk(sys.server, b, sys.clients[b]);
    UnfoldData(sys.server, b, sys.clients[b]);
    assert Unanswered(sys.server, a) || !Unanswered(sys.server, a);
    if sys.clients[a].id.Some? {
      UnfoldIds(sys.server);
    }
  }

  /** Once all clients have their config, every emulation node is started by exactly one. */
  lemma EveryNodeStartsOnce(mode: Mode, nodes: seq<nat>, hosts: seq<Host>, sys: System, node: nat)
    requires Reachable(mode, nodes, hosts, sys) && hosts != []
    requires forall n :: Count(nodes, n) <= 1
    requires forall c :: c in sys.clients ==> c.config.Some?
    requires node in nodes
    ensures exists a :: 0 <= a < |sys.clients| && node in NodesOf(sys.clients[a].config.value)
    ensures forall a, b | 0 <= a < |sys.clients| && 0 <= b < |sys.clients| ::
              (node in NodesOf(sys.clients[a].config.value) &&
               node in NodesOf(sys.clients[b].config.value)) ==> a == b
  {
    ReachableInv(mode, nodes, hosts, sys);
    var s := sys.server;
    forall a | 0 <= a < |sys.clients|
      ensures sys.clients[a].config == Some(Config(IdOf(s, a), s.mapping))
    {
      assert sys.clients[a] in sys.clients;
      assert ClientOk(s, a, sys.clients[a]);
      UnfoldData(s, a, sys.clients[a]);
    }
    AllExchanged(sys);
    DistributionIsPartition(s.mapping, nodes, s.cnt);
    var owner :| owner in s.mapping && node in s.mapping[owner];
    SomeClientHasId(s.ids, s.cnt, owner);
    var a :| 0 <= a < s.cnt && s.ids[a] == owner;
    assert node in NodesOf(sys.clients[a].config.value);
  }

  /** If somebody has a config, then the exchange was answered. */
  lemma AllExchanged(sys: System)
    requires Inv(sys) && sys.clients != [] && sys.clients[0].config.Some?
    ensures IdsOk(sys.server.ids, sys.server.cnt)
    ensures Distributes(sys.server.mapping, sys.server.nodes, sys.server.cnt)
  {
    RoundBounds(sys, 0);
    assert ClientOk(sys.server, 0, sys.clients[0]);
    UnfoldData(sys.server, 0, sys.clients[0]);
    UnfoldIds(sys.server);
    UnfoldMapping(sys.server);
  }

  /** A bijection reaches every id. */
  lemma SomeClientHasId(ids: map<nat, nat>, cnt: nat, id: nat)
    requires IdsOk(ids, cnt) && 1 <= id <= cnt
    ensures exists a :: 0 <= a < cnt && ids[a] == id
  {
    var order := seq(cnt, a requires 0 <= a < cnt => ids[a] - 1);
    Pigeonhole(order, cnt, id - 1);
    var a :| 0 <= a < cnt && order[a] == id - 1;
    assert ids[a] == id;
  }

  // ----- Progress ---------------------------------------------------------------------

  /** The mapping that gives all nodes to the first server. */
  function AllToFirst(nodes: seq<nat>, cnt: nat): (d: Mapping) {
    if cnt == 0 then map[]
    else AllToFirst(nodes, cnt - 1)[cnt := if cnt == 1 then nodes else []]
  }

  lemma {:induction false} AllToFirstDistributes(nodes: seq<nat>, cnt: nat, k: nat, node: nat)
    requires k <= cnt
    ensures ServersOf(AllToFirst(nodes, cnt), cnt)
    ensures TotalCount(AllToFirst(nodes, cnt), k, node) == if k == 0 then 0 else Count(nodes, node)
    decreases cnt, k
  {
    if k > 0 {
      AllToFirstDistributes(nodes, cnt, k - 1, node);
      AllToFirstEntries(nodes, cnt);
    } else if cnt > 0 {
      AllToFirstDistributes(nodes, cnt - 1, 0, node);
    }
  }

  lemma {:induction false} AllToFirstEntries(nodes: seq<nat>, cnt: nat)
    ensures ServersOf(AllToFirst(nodes, cnt), cnt)
    ensures forall s :: 1 <= s <= cnt ==> AllToFirst(nodes, cnt)[s] == if s == 1 then nodes else []
  {
    if cnt > 0 {
      AllToFirstEntries(nodes, cnt - 1);
    }
  }

  lemma AllToFirstIsDistribution(nodes: seq<nat>, cnt: nat)
    requires cnt > 0
    ensures Distributes(AllToFirst(nodes, cnt), nodes, cnt)
  {
    AllToFirstEntries(nodes, cnt);
    forall node: nat
      ensures TotalCount(AllToFirst(nodes, cnt), cnt, node) == Count(nodes, node)
    {
      AllToFirstDistributes(nodes, cnt, cnt, node);
    }
  }

  /** A client that the expecter still misses has failed, or it can do something, or its
      message can be taken. */
  lemma MissingClientMoves(sys: System, a: nat)
    requires Inv(sys) && sys.server.stage == Expecting && |sys.server.storage| < sys.server.cnt
    requires a < |sys.clients| && a !in Addresses(sys.server.storage)
    ensures Enabled(sys, ClientSend(a)) || Enabled(sys, ClientReceive(a)) ||
            Enabled(sys, ClientStep(a)) || Enabled(sys, Receive(a)) || sys.clients[a].pc == Failed
  {
    assert ClientOk(sys.server, a, sys.clients[a]);
    UnfoldData(sys.server, a, sys.clients[a]);
  }

  /** Some client has failed, and the server waits for messages. */
  ghost predicate WaitsForFailed(sys: System) {
    sys.server.stage == Expecting && exists a :: 0 <= a < |sys.clients| && sys.clients[a].pc == Failed
  }

  /** As long as a round or a publication is under way, some action of the round is enabled,
      unless the server waits for a client that has failed. */
  lemma RoundMoves(sys: System)
    requires Inv(sys) && sys.clients != [] && sys.server.stage != Waiting
    ensures WaitsForFailed(sys) || exists a :: Enabled(sys, a) && !Begins(a)
  {
    var s := sys.server;
    match s.stage
    case Publishing => assert Enabled(sys, Publish);
    case Responding =>
      if s.pending == [] {
        assert Enabled(sys, EndRound);
      } else {
        assert s.pending[0] in s.pending;
        assert Enabled(sys, SendReply);
      }
    case Expecting =>
      if |s.storage| == s.cnt {
        AllToFirstIsDistribution(s.nodes, s.cnt);
        assert Enabled(sys, Respond(AllToFirst(s.nodes, s.cnt)));
      } else {
        var a := SomebodyMissing(Addresses(s.storage), s.cnt);
        MissingClientMoves(sys, a);
      }
    case Waiting =>
  }

  /** Every server holds an endpoint of some entry of the matrix. */
  ghost predicate AllTakePart(mapping: Mapping, m: Matrix) {
    forall id :: id in mapping ==> exists p :: p in m && (p.0 in mapping[id] || p.1 in mapping[id])
  }

  /** The matrices that the clients must have stepped on before the server waits again: in
      publish-subscribe mode all, otherwise all but the last. */
  function Awaited(s: Server): nat {
    if s.mode == Multicast || s.matrices == [] then |s.matrices| else |s.matrices| - 1
  }

  /** Every server takes part in all matrices that have to be stepped on. */
  ghost predicate AllServersStep(s: Server) {
    forall j :: 0 <= j < Awaited(s) ==> AllTakePart(s.mapping, s.matrices[j])
  }

  lemma EmptyPart(m: Matrix, nodes: seq<nat>)
    ensures Local(m, nodes) == map[] <==> !exists p :: p in m && (p.0 in nodes || p.1 in nodes)
  {
    if p :| p in m && (p.0 in nodes || p.1 in nodes) {
      assert p in Local(m, nodes);
    }
  }

  /** The server of a failed client has no part in one of the matrices. */
  lemma FailedHasNoPart(sys: System, a: nat)
    requires Inv(sys) && sys.server.stage == Expecting
    requires a < |sys.clients| && sys.clients[a].pc == Failed
    ensures !AllServersStep(sys.server)
  {
    var s, c := sys.server, sys.clients[a];
    assert ClientOk(s, a, c);
    UnfoldData(s, a, c);
    UnfoldIds(s);
    UnfoldMapping(s);
    assert IdOf(s, a) in s.mapping;
    EmptyPart(s.matrices[|c.applied|], s.mapping[IdOf(s, a)]);
    assert !AllTakePart(s.mapping, s.matrices[|c.applied|]);
  }

  /** The protocol cannot get stuck while every server takes part: as long as a round or a
      publication is under way, some action of the round is enabled. */
  lemma NoDeadlock(mode: Mode, nodes: seq<nat>, hosts: seq<Host>, sys: System)
    requires Reachable(mode, nodes, hosts, sys) && hosts != [] && sys.server.stage != Waiting
    requires AllServersStep(sys.server)
    ensures exists a :: Enabled(sys, a) && !Begins(a)
  {
    ReachableInv(mode, nodes, hosts, sys);
    RoundMoves(sys);
    if WaitsForFailed(sys) {
      var a :| 0 <= a < |sys.clients| && sys.clients[a].pc == Failed;
      FailedHasNoPart(sys, a);
    }
  }

  /** Once the server waits for the user again, every server took part. */
  lemma WaitingMeansStepped(sys: System)
    requires Inv(sys) && sys.server.stage == Waiting
    ensures AllServersStep(sys.server)
  {
    var s := sys.server;
    forall j | 0 <= j < Awaited(s)
      ensures AllTakePart(s.mapping, s.matrices[j])
    {
      forall id | id in s.mapping
        ensures exists p :: p in s.matrices[j] && (p.0 in s.mapping[id] || p.1 in s.mapping[id])
      {
        ServerStepped(sys, j, id);
      }
    }
  }

  lemma ServerStepped(sys: System, j: nat, id: nat)
    requires Inv(sys) && sys.server.stage == Waiting
    requires j < Awaited(sys.server) && id in sys.server.mapping
    ensures var s := sys.server;
            exists p :: p in s.matrices[j] && (p.0 in s.mapping[id] || p.1 in s.mapping[id])
  {
    var s := sys.server;
    UnfoldIds(s);
    UnfoldMapping(s);
    SomeClientHasId(s.ids, s.cnt, id);
    var a :| 0 <= a < s.cnt && s.ids[a] == id;
    assert ClientOk(s, a, sys.clients[a]);
    UnfoldData(s, a, sys.clients[a]);
    EmptyPart(s.matrices[j], s.mapping[id]);
    assert sys.clients[a].applied[j] == Local(s.matrices[j], NodesAt(s, a));
  }

  lemma SomebodyMissing(xs: seq<nat>, n: nat) returns (a: nat)
    requires |xs| < n
    ensures a < n && a !in xs
  {
    if Upto(n) <= ToSet(xs) {
      SubsetOfSameSize(Upto(n), ToSet(xs));
      assert false;
    }
    a :| a in Upto(n) && a !in ToSet(xs);
  }
}
