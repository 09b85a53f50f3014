/**
 Every round of the coordinator protocol ends: each action of server and clients uses up part
 of a bounded amount of work.
 */
module ProtocolProgress {
  import opened Topology
  import opened MatrixDistribution
  import opened Scheduler
  import opened Protocol
  import opened ProtocolSafety
  import opened ProtocolTheorems

  /** How many changes of its stage the server makes until it waits for the user again. */
  function StagesLeft(s: Server): (r: nat)
    ensures r <= 5
  {
    var more := if s.mode == Multicast && s.round == 3 then 3 else 0;
    match s.stage
    case Waiting => 0
    case Publishing => 3
    case Expecting => 2 + more
    case Responding => 1 + more
  }

  /** How far a client is from having its next request taken; a client whose request was
      taken has everything ahead of it again as soon as the server responds. */
  function Effort(responding: bool, c: Client): (r: nat)
    ensures r <= 5
  {
    match c.pc
    case Failed => 0
    case ToSend => 2
    case AwaitMatrix => 3
    case AwaitReply =>
      if c.toClient != [] then 4
      else if c.toServer != [] then 1
      else if responding then 5
      else 0
  }

  function Efforts(responding: bool, clients: seq<Client>, n: nat): (r: nat)
    requires n <= |clients|
    ensures r <= 5 * n
  {
    if n == 0 then 0
    else Efforts(responding, clients, n - 1) + Effort(responding, clients[n - 1])
  }

  function Weighted(stages: nat, n: nat): (r: nat) {
    if stages == 0 then 0 else Weighted(stages - 1, n) + 5 * n + 1
  }

  /** The work that is left in the current round. */
  function Rank(sys: System): (r: nat) {
    var n := |sys.clients|;
    Weighted(StagesLeft(sys.server), n) + Efforts(sys.server.stage == Responding, sys.clients, n)
  }

  /** There is never more work left than 30 actions per client and 5 more. */
  lemma RankIsBounded(sys: System)
    ensures Rank(sys) <= 30 * |sys.clients| + 5
  {
    var n := |sys.clients|;
    assert Weighted(1, n) == 5 * n + 1 && Weighted(2, n) == 10 * n + 2;
    assert Weighted(3, n) == 15 * n + 3 && Weighted(4, n) == 20 * n + 4;
    assert Weighted(5, n) == 25 * n + 5;
  }

  // ----- One client moves -------------------------------------------------------------

  lemma {:induction false} OneEffort(responding: bool, clients: seq<Client>, i: nat, c: Client, n: nat)
    requires i < |clients| && n <= |clients|
    ensures Efforts(responding, clients[i := c], n) ==
            Efforts(responding, clients, n) +
            if i < n then Effort(responding, c) - Effort(responding, clients[i]) else 0
  {
    if n > 0 {
      OneEffort(responding, clients, i, c, n - 1);
    }
  }

  /** An action that changes one client and not the stage of the server. */
  lemma OneClientFalls(sys: System, sys': System, i: nat, c: Client)
    requires i < |sys.clients| && sys'.clients == sys.clients[i := c]
    requires sys'.server.stage == sys.server.stage && StagesLeft(sys'.server) == StagesLeft(sys.server)
    requires Effort(sys.server.stage == Responding, c) < Effort(sys.server.stage == Responding, sys.clients[i])
    ensures Rank(sys') < Rank(sys)
  {
    OneEffort(sys.server.stage == Responding, sys.clients, i, c, |sys.clients|);
  }

  lemma ClientActionFalls(sys: System, a: Action)
    requires Inv(sys) && Enabled(sys, a) && (a.ClientSend? || a.ClientReceive? || a.ClientStep?)
    ensures Rank(Apply(sys, a)) < Rank(sys)
  {
    var i := a.client;
    assert ClientOk(sys.server, i, sys.clients[i]);
    OneClientFalls(sys, Apply(sys, a), i, Apply(sys, a).clients[i]);
  }

  lemma ReceiveFalls(sys: System, i: nat)
    requires Inv(sys) && Enabled(sys, Receive(i))
    ensures Rank(Apply(sys, Receive(i))) < Rank(sys)
  {
    assert ClientOk(sys.server, i, sys.clients[i]);
    var sys' := Apply(sys, Receive(i));
    OneClientFalls(sys, sys', i, sys'.clients[i]);
  }

  lemma SendReplyFalls(sys: System)
    requires Inv(sys) && Enabled(sys, SendReply)
    ensures Rank(Apply(sys, SendReply)) < Rank(sys)
  {
    var s := sys.server;
    var i := s.pending[0].0;
    assert Targets(s.pending)[0] == i;
    assert ClientOk(s, i, sys.clients[i]);
    var sys' := Apply(sys, SendReply);
    OneClientFalls(sys, sys', i, sys'.clients[i]);
  }

  // ----- The server moves -------------------------------------------------------------

  lemma StageFalls(sys: System, a: Action)
    requires Inv(sys) && Enabled(sys, a) && (a.Publish? || a.Respond? || a.EndRound?)
    ensures Rank(Apply(sys, a)) < Rank(sys)
  {
    var sys', n := Apply(sys, a), |sys.clients|;
    assert StagesLeft(sys'.server) + 1 == StagesLeft(sys.server);
    assert Weighted(StagesLeft(sys.server), n) == Weighted(StagesLeft(sys'.server), n) + 5 * n + 1;
  }

  /** Every action but the beginning of something new uses up work. */
  lemma RankFalls(sys: System, a: Action)
    requires Inv(sys) && Enabled(sys, a) && !Begins(a)
    ensures Rank(Apply(sys, a)) < Rank(sys)
  {
    match a
    case Begin =>
    case BeginStep(_) =>
    case Publish => StageFalls(sys, a);
    case Respond(_) => StageFalls(sys, a);
    case EndRound => StageFalls(sys, a);
    case Receive(i) => ReceiveFalls(sys, i);
    case SendReply => SendReplyFalls(sys);
    case ClientSend(_) => ClientActionFalls(sys, a);
    case ClientReceive(_) => ClientActionFalls(sys, a);
    case ClientStep(_) => ClientActionFalls(sys, a);
  }

  // ----- Rounds end -------------------------------------------------------------------

  ghost predicate Quiet(actions: seq<Action>) {
    forall i :: 0 <= i < |actions| ==> !Begins(actions[i])
  }

  /** A run in which nothing new begins is no longer than the work that was left. */
  lemma {:induction false} QuietRunsAreShort(start: System, actions: seq<Action>, end: System)
    requires Inv(start) && IsRun(start, actions, end) && Quiet(actions)
    ensures |actions| + Rank(end) <= Rank(start)
    decreases actions
  {
    if actions != [] {
      RankFalls(start, actions[0]);
      ActionKeepsInv(start, actions[0]);
      QuietRunsAreShort(Apply(start, actions[0]), actions[1..], end);
    }
  }

  lemma {:induction false} RunsJoin(a: System, xs: seq<Action>, b: System, ys: seq<Action>, c: System)
    requires IsRun(a, xs, b) && IsRun(b, ys, c)
    ensures IsRun(a, xs + ys, c)
    decreases xs
  {
    if xs == [] {
      assert xs + ys == ys;
    } else {
      assert (xs + ys)[1..] == xs[1..] + ys;
      RunsJoin(Apply(a, xs[0]), xs[1..], b, ys, c);
    }
  }

  lemma StaysReachable(mode: Mode, nodes: seq<nat>, hosts: seq<Host>, sys: System,
                       actions: seq<Action>, end: System)
    requires Reachable(mode, nodes, hosts, sys) && IsRun(sys, actions, end)
    ensures Reachable(mode, nodes, hosts, end)
  {
    var before :| IsRun(Initial(mode, nodes, hosts), before, sys);
    RunsJoin(Initial(mode, nodes, hosts), before, sys, actions, end);
  }

  // ----- What rounds end with ---------------------------------------------------------

  /** A run in which nothing new begins and that cannot go on. */
  ghost predicate Finishes(sys: System, actions: seq<Action>, end: System) {
    IsRun(sys, actions, end) && Quiet(actions) && forall a :: Enabled(end, a) ==> Begins(a)
  }

  /** The matrices of the step are fixed once it has begun, and so are the nodes. */
  ghost predicate SameStep(s: Server, s': Server) {
    s'.mode == s.mode && s'.matrices == s.matrices && (s.matrices != [] ==> s'.mapping == s.mapping)
  }

  lemma {:induction false} QuietKeepsStep(start: System, actions: seq<Action>, end: System)
    requires Inv(start) && IsRun(start, actions, end) && Quiet(actions)
    ensures SameStep(start.server, end.server)
    decreases actions
  {
    if actions != [] {
      ActionKeepsInv(start, actions[0]);
      assert SameStep(start.server, Apply(start, actions[0]).server);
      QuietKeepsStep(Apply(start, actions[0]), actions[1..], end);
    }
  }

  lemma SameStepSameParts(s: Server, s': Server)
    requires SameStep(s, s')
    ensures AllServersStep(s) <==> AllServersStep(s')
  {
    assert Awaited(s) == Awaited(s');
    if s.matrices == [] {
      assert Awaited(s) == 0;
    }
  }

  /** Every round ends, and how: from any reachable state, every run in which nothing new
      begins has at most 30 actions per client and 5 more. If it cannot go on, then the
      server has finished the round and waits iff every server takes part in all matrices
      that must have been stepped on. Otherwise it waits for a client that has failed, and
      no action is possible at all. */
  lemma EveryRoundEnds(mode: Mode, nodes: seq<nat>, hosts: seq<Host>, sys: System,
                       actions: seq<Action>, end: System)
    requires Reachable(mode, nodes, hosts, sys) && hosts != []
    requires IsRun(sys, actions, end) && Quiet(actions)
    ensures |actions| <= 30 * |hosts| + 5
    ensures Finishes(sys, actions, end) ==>
              (end.server.stage == Waiting <==> AllServersStep(sys.server))
    ensures Finishes(sys, actions, end) && !AllServersStep(sys.server) ==>
              WaitsForFailed(end) && forall a :: !Enabled(end, a)
  {
    ReachableInv(mode, nodes, hosts, sys);
    QuietRunsAreShort(sys, actions, end);
    RankIsBounded(sys);
    RunKeepsInv(sys, actions, end);
    RunKeepsSetting(sys, actions, end);
    QuietKeepsStep(sys, actions, end);
    SameStepSameParts(sys.server, end.server);
    if Finishes(sys, actions, end) {
      if end.server.stage == Waiting {
        WaitingMeansStepped(end);
      } else {
        RoundMoves(end);
        var a :| 0 <= a < |end.clients| && end.clients[a].pc == Failed;
        FailedHasNoPart(end, a);
      }
    }
  }

  /** If the nodes are distributed already, then this way. */
  predicate MapsTo(s: Server, d: Mapping) {
    s.round > 1 || (s.round == 1 && s.stage == Responding) ==> s.mapping == d
  }

  /** One action of the round, with the given distribution where one is needed. */
  lemma NextAction(sys: System, d: Mapping, a: Action) returns (next: Action)
    requires Inv(sys) && Distributes(d, sys.server.nodes, sys.server.cnt)
    requires Enabled(sys, a) && !Begins(a)
    ensures Enabled(sys, next) && !Begins(next)
    ensures MapsTo(sys.server, d) ==> MapsTo(Apply(sys, next).server, d)
    ensures SameSetting(sys, Apply(sys, next))
  {
    next := if a.Respond? then Respond(d) else a;
  }

  lemma FinishesLater(sys: System, next: Action, rest: seq<Action>, end: System)
    requires Enabled(sys, next) && !Begins(next) && Finishes(Apply(sys, next), rest, end)
    ensures Finishes(sys, [next] + rest, end)
  {
    assert ([next] + rest)[1..] == rest;
  }

  /** Every run can be continued until it cannot go on; whenever nodes have to be distributed,
      the given distribution can be the one. */
  lemma {:induction false} SomeRunFinishes(sys: System, d: Mapping)
    returns (actions: seq<Action>, end: System)
    requires Inv(sys) && Distributes(d, sys.server.nodes, sys.server.cnt)
    ensures Finishes(sys, actions, end)
    ensures MapsTo(sys.server, d) ==> MapsTo(end.server, d)
    decreases Rank(sys)
  {
    if a :| Enabled(sys, a) && !Begins(a) {
      var next := NextAction(sys, d, a);
      RankFalls(sys, next);
      ActionKeepsInv(sys, next);
      var rest;
      rest, end := SomeRunFinishes(Apply(sys, next), d);
      FinishesLater(sys, next, rest, end);
      actions := [next] + rest;
    } else {
      actions, end := [], sys;
    }
  }

  /** Whether the coordinator's step returns does not depend on the interleaving: all runs that
      cannot go on finish the round if every server takes part, and none otherwise. */
  lemma StepReturnsIff(mode: Mode, nodes: seq<nat>, hosts: seq<Host>, sys: System)
    requires Reachable(mode, nodes, hosts, sys) && hosts != []
    ensures AllServersStep(sys.server) <==>
            forall actions, end :: Finishes(sys, actions, end) ==> end.server.stage == Waiting
    ensures AllServersStep(sys.server) <==>
            exists actions, end :: Finishes(sys, actions, end) && end.server.stage == Waiting
  {
    ReachableInv(mode, nodes, hosts, sys);
    forall actions, end | Finishes(sys, actions, end)
      ensures end.server.stage == Waiting <==> AllServersStep(sys.server)
    {
      EveryRoundEnds(mode, nodes, hosts, sys, actions, end);
    }
    AllToFirstIsDistribution(nodes, |hosts|);
    var actions, end := SomeRunFinishes(sys, AllToFirst(nodes, |hosts|));
    assert Finishes(sys, actions, end);
  }

  /** What a caller can check before the step. Publish-subscribe: the step on m returns iff
      every server holds an endpoint of some entry of m. Request-reply: the step returns iff
      this is true of the matrix before m. */
  lemma NextStepReturnsIff(mode: Mode, nodes: seq<nat>, hosts: seq<Host>, sys: System, m: Matrix,
                           actions: seq<Action>, end: System)
    requires Reachable(mode, nodes, hosts, sys) && hosts != [] && Enabled(sys, BeginStep(m))
    requires Finishes(Apply(sys, BeginStep(m)), actions, end)
    ensures var s := sys.server;
            end.server.stage == Waiting <==>
              if mode == Multicast then AllTakePart(s.mapping, m)
              else s.matrices != [] ==> AllTakePart(s.mapping, s.matrices[|s.matrices| - 1])
  {
    ReachableInv(mode, nodes, hosts, sys);
    WaitingMeansStepped(sys);
    var begun := Apply(sys, BeginStep(m));
    assert IsRun(sys, [BeginStep(m)], begun);
    StaysReachable(mode, nodes, hosts, sys, [BeginStep(m)], begun);
    EveryRoundEnds(mode, nodes, hosts, begun, actions, end);
    OneMoreMatrix(sys.server, begun.server, m);
  }

  lemma OneMoreMatrix(s: Server, s': Server, m: Matrix)
    requires AllServersStep(s) && s'.mode == s.mode && s'.mapping == s.mapping
    requires s'.matrices == s.matrices + [m]
    ensures AllServersStep(s') <==>
              if s.mode == Multicast then AllTakePart(s.mapping, m)
              else s.matrices != [] ==> AllTakePart(s.mapping, s.matrices[|s.matrices| - 1])
  {
    var last := Awaited(s') - 1;
    assert last >= 0 ==> last == Awaited(s);
    assert AllServersStep(s') <==> last >= 0 ==> AllTakePart(s.mapping, s'.matrices[last]) by {
      forall j | 0 <= j < Awaited(s)
        ensures AllTakePart(s'.mapping, s'.matrices[j])
      {
        assert AllTakePart(s.mapping, s.matrices[j]);
      }
    }
  }
}
