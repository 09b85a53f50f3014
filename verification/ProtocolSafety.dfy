/**
 What every interleaving of the coordinator protocol keeps.
 */
module ProtocolSafety {
  import opened Folding
  import opened Topology
  import opened MatrixDistribution
  import opened Scheduler
  import opened Counting
  import opened Protocol

  // ----- The invariant ----------------------------------------------------------------

  function Addresses(storage: seq<Request>): (r: seq<nat>)
    ensures |r| == |storage| && forall i :: 0 <= i < |r| ==> r[i] == storage[i].addr
  {
    seq(|storage|, i requires 0 <= i < |storage| => storage[i].addr)
  }

  function Targets(pending: seq<(nat, Reply)>): (r: seq<nat>)
    ensures |r| == |pending| && forall i :: 0 <= i < |r| ==> r[i] == pending[i].0
  {
    seq(|pending|, i requires 0 <= i < |pending| => pending[i].0)
  }

  /** The server has the request of the client in this round, but did not answer it yet. */
  predicate Unanswered(s: Server, a: nat) {
    || (s.stage == Expecting && a in Addresses(s.storage))
    || (s.stage == Responding && a in Targets(s.pending))
  }

  /** The number of answers that the server has sent to the client. */
  function Answers(s: Server, a: nat): nat {
    if s.stage == Responding && a !in Targets(s.pending) then s.round + 1 else s.round
  }

  function IdOf(s: Server, a: nat): nat {
    if a in s.ids then s.ids[a] else 0
  }

  /** The messages of a client: at most one is under way, and it is the one that is due. */
  predicate ChannelsOk(s: Server, a: nat, c: Client) {
    if Unanswered(s, a) then
      && c.pc == AwaitReply && c.round == s.round && c.toServer == [] && c.toClient == []
      && (s.stage == Expecting ==> RequestOf(a, c) in s.storage)
    else if c.pc != AwaitReply then
      c.toServer == [] && c.toClient == [] && c.round == Answers(s, a)
    else
      || (c.toServer == [RequestOf(a, c)] && c.toClient == [] && c.round == Answers(s, a))
      || (c.toServer == [] && c.toClient == [ReplyOf(s, c.round, IdOf(s, a))] &&
          c.round + 1 == Answers(s, a))
  }

  /** How many matrices a client has stepped on. */
  function Steps(mode: Mode, c: Client): int {
    if c.round < 3 || (mode == Multicast && c.round == 3) then 0
    else if c.pc == AwaitMatrix || c.pc == Failed then c.round - 4
    else c.round - 3
  }

  /** How many matrices a client has taken: it may have failed on the last one. */
  function Tried(c: Client): nat {
    |c.applied| + if c.pc == Failed then 1 else 0
  }

  /** The nodes of the client with this address. */
  function NodesAt(s: Server, a: nat): seq<nat> {
    NodesOf(Config(IdOf(s, a), s.mapping))
  }

  /** A client has stepped on its parts of the first matrices, none of them empty; if it has
      failed, then its part of the next one is. */
  predicate HasStepped(matrices: seq<Matrix>, nodes: seq<nat>, applied: seq<Matrix>, failed: bool) {
    && |applied| + (if failed then 1 else 0) <= |matrices|
    && (forall j :: 0 <= j < |applied| ==> applied[j] == Local(matrices[j], nodes) != map[])
    && (failed ==> Local(matrices[|applied|], nodes) == map[])
  }

  /** The published matrices that a client has not taken yet. */
  predicate IsQueue(mode: Mode, matrices: seq<Matrix>, published: nat, tried: nat, queue: seq<Matrix>) {
    if mode == Multicast then tried <= published <= |matrices| && queue == matrices[tried..published]
    else queue == []
  }

  predicate DataFacts(s: Server, a: nat, c: Client) {
    && c.id == (if c.round == 0 then None else Some(IdOf(s, a)))
    && c.config == (if c.round <= 1 then None else Some(Config(IdOf(s, a), s.mapping)))
    && (c.pc == AwaitMatrix ==> s.mode == Multicast && c.round >= 4)
    && (c.pc == Failed ==> c.round >= 4)
    && |c.applied| == Steps(s.mode, c)
    && HasStepped(s.matrices, NodesAt(s, a), c.applied, c.pc == Failed)
    && IsQueue(s.mode, s.matrices, s.published, Tried(c), c.queue)
  }

  /** What a client has received and stepped on; folded. */
  ghost predicate DataOk(s: Server, a: nat, c: Client) {
    forall b {:trigger Unfolding(DataPart, b)} :: Unfolding(DataPart, b) ==> DataFacts(s, a, c)
  }

  lemma UnfoldData(s: Server, a: nat, c: Client)
    requires DataOk(s, a, c)
    ensures DataFacts(s, a, c)
  {
    assert Unfolding(DataPart, true);
  }

  /** The data does not depend on the messages under way. */
  lemma SameData(s: Server, s': Server, a: nat, c: Client, c': Client)
    requires DataOk(s, a, c)
    requires s'.mode == s.mode && s'.ids == s.ids && s'.mapping == s.mapping
    requires s'.matrices == s.matrices && s'.published == s.published
    requires c'.round == c.round && c'.id == c.id && c'.config == c.config
    requires c'.applied == c.applied && c'.queue == c.queue
    requires c'.pc == c.pc || (c.pc == ToSend && c'.pc == AwaitReply)
    ensures DataOk(s', a, c')
  {
    UnfoldData(s, a, c);
  }

  /** The ids are a bijection between the clients and 1..cnt. */
  ghost predicate IdsOk(ids: map<nat, nat>, cnt: nat) {
    && (forall a: nat :: a in ids <==> a < cnt)
    && (forall a :: a in ids ==> 1 <= ids[a] <= cnt)
    && (forall a, b :: a in ids && b in ids && ids[a] == ids[b] ==> a == b)
  }

  /** How many steps were begun and published, seen from the round. */
  predicate StepsOk(s: Server) {
    var busy := s.stage == Expecting || s.stage == Responding;
    if s.round < 3 then s.matrices == [] && s.published == 0 && s.stage != Publishing
    else if s.mode != Multicast then
      && s.stage != Publishing && s.published == 0
      && |s.matrices| == if busy then s.round - 2 else s.round - 3
    else if s.round == 3 then
      && s.stage != Publishing && s.published == 0
      && |s.matrices| == if busy then 1 else 0
    else
      && (s.stage == Waiting ==> s.round >= 5)
      && |s.matrices| == (if s.stage == Waiting then s.round - 4 else s.round - 3)
      && s.published == (if busy then s.round - 3 else s.round - 4)
  }

  ghost predicate ServerOk(s: Server) {
    && s.rejected == 0 && StepsOk(s)
    && (s.stage == Expecting ==>
          && Distinct(Addresses(s.storage)) && |s.storage| <= s.cnt
          && forall m :: m in s.storage ==> m.addr < s.cnt)
    && (s.stage == Responding ==>
          && Distinct(Targets(s.pending))
          && forall p :: p in s.pending ==>
               p.0 < s.cnt && p.1 == ReplyOf(s, s.round, IdOf(s, p.0)))
    && (s.round > 0 || s.stage == Responding ==> Registered(s))
    && (s.round > 1 || (s.round == 1 && s.stage == Responding) ==> Mapped(s))
  }

  /** The ids are a bijection; folded. */
  ghost predicate Registered(s: Server) {
    forall b {:trigger Unfolding(RegistrationPart, b)} :: Unfolding(RegistrationPart, b) ==>
      IdsOk(s.ids, s.cnt)
  }

  /** The nodes are distributed; folded. */
  ghost predicate Mapped(s: Server) {
    forall b {:trigger Unfolding(MappingPart, b)} :: Unfolding(MappingPart, b) ==>
      Distributes(s.mapping, s.nodes, s.cnt)
  }

  lemma UnfoldIds(s: Server)
    requires Registered(s)
    ensures IdsOk(s.ids, s.cnt)
  {
    assert Unfolding(RegistrationPart, true);
  }

  lemma UnfoldMapping(s: Server)
    requires Mapped(s)
    ensures Distributes(s.mapping, s.nodes, s.cnt)
  {
    assert Unfolding(MappingPart, true);
  }

  ghost predicate ClientOk(s: Server, a: nat, c: Client) {
    ChannelsOk(s, a, c) && DataOk(s, a, c)
  }

  ghost predicate Inv(sys: System) {
    && |sys.clients| == sys.server.cnt
    && ServerOk(sys.server)
    && forall a :: 0 <= a < |sys.clients| ==> ClientOk(sys.server, a, sys.clients[a])
  }

  lemma InitialData(s: Server, a: nat, c: Client)
    requires s.matrices == [] && s.published == 0
    requires c.pc == ToSend && c.round == 0 && c.id == None && c.config == None
    requires c.applied == [] && c.queue == []
    ensures DataOk(s, a, c)
  {
    assert IsQueue(s.mode, s.matrices, 0, 0, c.queue);
    assert HasStepped(s.matrices, NodesAt(s, a), c.applied, false);
  }

  lemma InitialClient(s: Server, a: nat, c: Client)
    requires s.round == 0 && s.stage == Waiting && s.matrices == [] && s.published == 0
    requires c.pc == ToSend && c.round == 0 && c.id == None && c.config == None
    requires c.applied == [] && c.queue == [] && c.toServer == [] && c.toClient == []
    ensures ClientOk(s, a, c)
  {
    InitialData(s, a, c);
  }

  lemma InitialInv(mode: Mode, nodes: seq<nat>, hosts: seq<Host>)
    ensures Inv(Initial(mode, nodes, hosts))
  {
    var sys := Initial(mode, nodes, hosts);
    forall a | 0 <= a < |sys.clients|
      ensures ClientOk(sys.server, a, sys.clients[a])
    {
      InitialClient(sys.server, a, sys.clients[a]);
    }
  }

  // ----- The actions of the clients ---------------------------------------------------

  /** If one client changes, the others stay as they are. */
  lemma OneClient(sys: System, i: nat, c: Client)
    requires Inv(sys) && i < |sys.clients| && ClientOk(sys.server, i, c)
    ensures Inv(WithClient(sys, i, c))
  {
  }

  lemma ClientSendKeepsInv(sys: System, i: nat)
    requires Inv(sys) && Enabled(sys, ClientSend(i))
    ensures Inv(Apply(sys, ClientSend(i)))
  {
    var c := sys.clients[i];
    assert ClientOk(sys.server, i, c);
    var c' := c.(pc := AwaitReply, toServer := c.toServer + [RequestOf(i, c)]);
    assert RequestOf(i, c') == RequestOf(i, c);
    SameData(sys.server, sys.server, i, c, c');
    OneClient(sys, i, c');
  }

  lemma SteppedData(s: Server, a: nat, c: Client)
    requires DataOk(s, a, c) && c.pc == AwaitMatrix && c.queue != []
    ensures DataOk(s, a, Stepped(s.mode, c))
  {
    UnfoldData(s, a, c);
  }

  lemma ClientStepKeepsInv(sys: System, i: nat)
    requires Inv(sys) && Enabled(sys, ClientStep(i))
    ensures Inv(Apply(sys, ClientStep(i)))
  {
    var c := sys.clients[i];
    assert ClientOk(sys.server, i, c);
    SteppedData(sys.server, i, c);
    OneClient(sys, i, Stepped(sys.server.mode, c));
  }

  /** The matrix in a reply: its part is the one that the client is to step on. */
  lemma MatrixInReply(s: Server, a: nat, c: Client)
    requires ServerOk(s) && a < s.cnt && DataOk(s, a, c) && s.mode != Multicast
    requires 3 <= c.round < s.round + 1 && c.round - 3 < |s.matrices|
    ensures c.config.Some? && ReplyOf(s, c.round, IdOf(s, a)).YourMatrix?
    ensures Taken(s.mode, NodesOf(c.config.value), ReplyOf(s, c.round, IdOf(s, a)).matrix) ==
            Local(s.matrices[c.round - 3], NodesAt(s, a))
  {
    UnfoldData(s, a, c);
    UnfoldIds(s);
    UnfoldMapping(s);
    assert IdOf(s, a) in s.mapping;
    TakenIsLocal(s.mode, s.mapping, s.matrices[c.round - 3], IdOf(s, a));
  }

  lemma ReceivedMatrix(s: Server, a: nat, c: Client)
    requires ServerOk(s) && a < s.cnt && DataOk(s, a, c) && s.mode != Multicast
    requires 3 <= c.round < s.round + 1 && c.round - 3 < |s.matrices|
    requires c.pc == AwaitReply && c.toClient == [ReplyOf(s, c.round, IdOf(s, a))]
    ensures DataOk(s, a, Received(s.mode, c))
  {
    UnfoldData(s, a, c);
    MatrixInReply(s, a, c);
  }

  lemma ReceivedData(s: Server, a: nat, c: Client)
    requires DataOk(s, a, c) && (c.round < 3 || s.mode == Multicast)
    requires c.pc == AwaitReply && c.toClient == [ReplyOf(s, c.round, IdOf(s, a))]
    ensures DataOk(s, a, Received(s.mode, c))
  {
    UnfoldData(s, a, c);
  }

  lemma ReceivedChannels(s: Server, a: nat, c: Client)
    requires ChannelsOk(s, a, c) && c.pc == AwaitReply && c.toClient != []
    ensures ChannelsOk(s, a, Received(s.mode, c))
    ensures c.toClient == [ReplyOf(s, c.round, IdOf(s, a))] && c.round + 1 == Answers(s, a)
  {
  }

  /** The reply that arrives is the one that the client's round asks for. */
  lemma ReplyFits(s: Server, a: nat, c: Client)
    requires ServerOk(s) && a < s.cnt && ClientOk(s, a, c)
    requires c.pc == AwaitReply && c.toClient != []
    ensures ClientOk(s, a, Received(s.mode, c))
  {
    ReceivedChannels(s, a, c);
    if c.round >= 3 && s.mode != Multicast {
      ReceivedMatrix(s, a, c);
    } else {
      ReceivedData(s, a, c);
    }
  }

  lemma ClientReceiveKeepsInv(sys: System, i: nat)
    requires Inv(sys) && Enabled(sys, ClientReceive(i))
    ensures Inv(Apply(sys, ClientReceive(i)))
  {
    assert ClientOk(sys.server, i, sys.clients[i]);
    ReplyFits(sys.server, i, sys.clients[i]);
    OneClient(sys, i, Received(sys.server.mode, sys.clients[i]));
  }

  // ----- The actions of the server ----------------------------------------------------

  lemma BeginKeepsInv(sys: System)
    requires Inv(sys) && Enabled(sys, Begin)
    ensures Inv(Apply(sys, Begin))
  {
    var s, s' := sys.server, Apply(sys, Begin).server;
    forall a | 0 <= a < |sys.clients|
      ensures ClientOk(s', a, sys.clients[a])
    {
      assert ClientOk(s, a, sys.clients[a]);
      SameData(s, s', a, sys.clients[a], sys.clients[a]);
    }
  }

  /** The server once a step has begun. */
  function AfterBeginStep(s: Server, m: Matrix): Server {
    s.(stage := if s.mode == Multicast && s.matrices != [] then Publishing else Expecting,
       storage := [], matrices := s.matrices + [m])
  }

  lemma BeginStepServer(s: Server, m: Matrix)
    requires ServerOk(s) && s.stage == Waiting && s.round >= 3
    ensures ServerOk(AfterBeginStep(s, m))
  {
  }

  lemma BeginStepData(s: Server, m: Matrix, a: nat, c: Client)
    requires DataOk(s, a, c)
    ensures DataOk(AfterBeginStep(s, m), a, c)
  {
    UnfoldData(s, a, c);
    if s.mode == Multicast {
      assert (s.matrices + [m])[Tried(c)..s.published] == s.matrices[Tried(c)..s.published];
    }
  }

  lemma BeginStepChannels(s: Server, m: Matrix, a: nat, c: Client)
    requires StepsOk(s) && s.stage == Waiting && s.round >= 3 && ChannelsOk(s, a, c)
    ensures ChannelsOk(AfterBeginStep(s, m), a, c)
  {
    var s' := AfterBeginStep(s, m);
    assert !Unanswered(s, a) && !Unanswered(s', a) && Answers(s', a) == Answers(s, a);
    if c.toClient != [] {
      assert ReplyOf(s', c.round, IdOf(s', a)) == ReplyOf(s, c.round, IdOf(s, a));
    }
  }

  lemma BeginStepKeepsInv(sys: System, m: Matrix)
    requires Inv(sys) && Enabled(sys, BeginStep(m))
    ensures Inv(Apply(sys, BeginStep(m)))
  {
    BeginStepServer(sys.server, m);
    forall a | 0 <= a < |sys.clients|
      ensures ClientOk(AfterBeginStep(sys.server, m), a, sys.clients[a])
    {
      assert ClientOk(sys.server, a, sys.clients[a]);
      BeginStepData(sys.server, m, a, sys.clients[a]);
      BeginStepChannels(sys.server, m, a, sys.clients[a]);
    }
  }

  /** The server once the latest matrix is published. */
  function AfterPublish(s: Server): Server {
    s.(stage := Expecting, storage := [], published := s.published + 1)
  }

  lemma QueueGrows(matrices: seq<Matrix>, published: nat, tried: nat, queue: seq<Matrix>)
    requires IsQueue(Multicast, matrices, published, tried, queue) && published < |matrices|
    ensures IsQueue(Multicast, matrices, published + 1, tried, queue + [matrices[published]])
  {
    assert matrices[tried..published + 1] == matrices[tried..published] + [matrices[published]];
  }

  /** Only the published matrices and the queue change. */
  lemma DataWithQueue(s: Server, a: nat, c: Client, queue: seq<Matrix>)
    requires DataOk(s, a, c) && IsQueue(s.mode, s.matrices, s.published + 1, Tried(c), queue)
    ensures DataOk(AfterPublish(s), a, c.(queue := queue))
  {
    UnfoldData(s, a, c);
  }

  lemma PublishedQueue(s: Server, a: nat, c: Client, queue: seq<Matrix>)
    requires StepsOk(s) && s.stage == Publishing && s.matrices != [] && DataOk(s, a, c)
    requires queue == c.queue + [s.matrices[|s.matrices| - 1]]
    ensures IsQueue(s.mode, s.matrices, s.published + 1, Tried(c), queue)
  {
    UnfoldData(s, a, c);
    QueueGrows(s.matrices, s.published, Tried(c), c.queue);
  }

  lemma PublishData(s: Server, a: nat, c: Client, queue: seq<Matrix>)
    requires StepsOk(s) && s.stage == Publishing && s.matrices != [] && DataOk(s, a, c)
    requires queue == c.queue + [s.matrices[|s.matrices| - 1]]
    ensures DataOk(AfterPublish(s), a, c.(queue := queue))
  {
    PublishedQueue(s, a, c, queue);
    DataWithQueue(s, a, c, queue);
  }

  lemma PublishChannels(s: Server, a: nat, c: Client, queue: seq<Matrix>)
    requires s.stage == Publishing && ChannelsOk(s, a, c)
    ensures ChannelsOk(AfterPublish(s), a, c.(queue := queue))
  {
    var s', c' := AfterPublish(s), c.(queue := queue);
    assert !Unanswered(s, a) && !Unanswered(s', a);
    assert RequestOf(a, c') == RequestOf(a, c) && Answers(s', a) == Answers(s, a);
    assert ReplyOf(s', c.round, IdOf(s', a)) == ReplyOf(s, c.round, IdOf(s, a));
  }

  lemma PublishClient(s: Server, a: nat, c: Client)
    requires ServerOk(s) && s.stage == Publishing && s.matrices != [] && ClientOk(s, a, c)
    ensures ClientOk(AfterPublish(s), a, c.(queue := c.queue + [s.matrices[|s.matrices| - 1]]))
  {
    var queue := c.queue + [s.matrices[|s.matrices| - 1]];
    PublishData(s, a, c, queue);
    PublishChannels(s, a, c, queue);
  }

  lemma PublishServer(s: Server)
    requires ServerOk(s) && s.stage == Publishing
    ensures ServerOk(AfterPublish(s))
  {
  }

  lemma PublishKeepsInv(sys: System)
    requires Inv(sys) && Enabled(sys, Publish)
    ensures Inv(Apply(sys, Publish))
  {
    var s, sys' := sys.server, Apply(sys, Publish);
    PublishServer(s);
    forall a | 0 <= a < |sys.clients|
      ensures ClientOk(sys'.server, a, sys'.clients[a])
    {
      assert ClientOk(s, a, sys.clients[a]);
      PublishClient(s, a, sys.clients[a]);
    }
  }

  /** The message that the server takes is never rejected, and its sender is new. */
  lemma MessageFits(sys: System, i: nat)
    requires Inv(sys) && Enabled(sys, Receive(i))
    ensures var s, m := sys.server, sys.clients[i].toServer[0];
            && m == RequestOf(i, sys.clients[i]) && sys.clients[i].toServer == [m]
            && i !in Addresses(s.storage) && sys.clients[i].round == s.round
            && Expect(s, m) == s.(storage := s.storage + [m])
  {
    assert ClientOk(sys.server, i, sys.clients[i]);
  }

  lemma ReceiveOther(s: Server, m: Request, a: nat, c: Client)
    requires s.stage == Expecting && ClientOk(s, a, c) && a != m.addr
    ensures ClientOk(s.(storage := s.storage + [m]), a, c)
  {
    assert Addresses(s.storage + [m]) == Addresses(s.storage) + [m.addr];
    SameData(s, s.(storage := s.storage + [m]), a, c, c);
  }

  lemma ReceiveFrom(s: Server, a: nat, c: Client)
    requires s.stage == Expecting && ClientOk(s, a, c) && c.toServer == [RequestOf(a, c)]
    ensures ClientOk(s.(storage := s.storage + [RequestOf(a, c)]), a, c.(toServer := []))
  {
    var m := RequestOf(a, c);
    assert Addresses(s.storage + [m]) == Addresses(s.storage) + [a];
    assert m in s.storage + [m];
    assert RequestOf(a, c.(toServer := [])) == m;
    SameData(s, s.(storage := s.storage + [m]), a, c, c.(toServer := []));
  }

  lemma ReceiveKeepsInv(sys: System, i: nat)
    requires Inv(sys) && Enabled(sys, Receive(i))
    ensures Inv(Apply(sys, Receive(i)))
  {
    var s, sys' := sys.server, Apply(sys, Receive(i));
    var m := sys.clients[i].toServer[0];
    MessageFits(sys, i);
    assert Addresses(s.storage + [m]) == Addresses(s.storage) + [i];
    forall a | 0 <= a < |sys.clients|
      ensures ClientOk(sys'.server, a, sys'.clients[a])
    {
      if a == i {
        ReceiveFrom(s, a, sys.clients[a]);
      } else {
        ReceiveOther(s, m, a, sys.clients[a]);
      }
    }
  }

  lemma TailTargets(pending: seq<(nat, Reply)>)
    requires pending != [] && Distinct(Targets(pending))
    ensures Distinct(Targets(pending[1..]))
    ensures forall a :: a in Targets(pending[1..]) <==> a in Targets(pending) && a != pending[0].0
  {
    var all, tail := Targets(pending), Targets(pending[1..]);
    assert all == [pending[0].0] + tail;
    forall a | a in tail
      ensures a != pending[0].0
    {
      var i :| 0 <= i < |tail| && tail[i] == a;
      assert all[i + 1] == a && all[0] == pending[0].0;
    }
  }

  lemma SendReplyServer(s: Server)
    requires ServerOk(s) && s.stage == Responding && s.pending != []
    ensures ServerOk(s.(pending := s.pending[1..]))
    ensures s.pending[0].1 == ReplyOf(s, s.round, IdOf(s, s.pending[0].0))
    ensures forall a :: a in Targets(s.pending[1..]) <==>
                        a in Targets(s.pending) && a != s.pending[0].0
  {
    var s' := s.(pending := s.pending[1..]);
    assert s.pending[0] in s.pending;
    TailTargets(s.pending);
    forall p | p in s'.pending
      ensures p.0 < s.cnt && p.1 == ReplyOf(s', s'.round, IdOf(s', p.0))
    {
      assert p in s.pending;
      assert ReplyOf(s', s'.round, IdOf(s', p.0)) == ReplyOf(s, s.round, IdOf(s, p.0));
    }
  }

  lemma SendReplyClient(s: Server, a: nat, c: Client)
    requires ServerOk(s) && s.stage == Responding && s.pending != [] && ClientOk(s, a, c)
    ensures var c' := if a == s.pending[0].0 then c.(toClient := c.toClient + [s.pending[0].1]) else c;
            ClientOk(s.(pending := s.pending[1..]), a, c')
  {
    var s' := s.(pending := s.pending[1..]);
    SendReplyServer(s);
    assert s.pending[0].0 == Targets(s.pending)[0];
    if a == s.pending[0].0 {
      var c' := c.(toClient := c.toClient + [s.pending[0].1]);
      SameData(s, s', a, c, c');
      assert ReplyOf(s', c.round, IdOf(s', a)) == ReplyOf(s, c.round, IdOf(s, a));
    } else {
      SameData(s, s', a, c, c);
      SendReplyOther(s, a, c);
    }
  }

  lemma SendReplyOther(s: Server, a: nat, c: Client)
    requires ServerOk(s) && s.stage == Responding && s.pending != [] && ChannelsOk(s, a, c)
    requires a != s.pending[0].0
    ensures ChannelsOk(s.(pending := s.pending[1..]), a, c)
  {
    var s' := s.(pending := s.pending[1..]);
    SendReplyServer(s);
    assert Unanswered(s', a) == Unanswered(s, a) && Answers(s', a) == Answers(s, a);
    assert ReplyOf(s', c.round, IdOf(s', a)) == ReplyOf(s, c.round, IdOf(s, a));
  }

  lemma SendReplyKeepsInv(sys: System)
    requires Inv(sys) && Enabled(sys, SendReply)
    ensures Inv(Apply(sys, SendReply))
  {
    var s, sys' := sys.server, Apply(sys, SendReply);
    SendReplyServer(s);
    forall a | 0 <= a < |sys.clients|
      ensures ClientOk(sys'.server, a, sys'.clients[a])
    {
      SendReplyClient(s, a, sys.clients[a]);
    }
  }

  /** The server once all answers of a round are sent. */
  function AfterRound(s: Server): Server {
    s.(stage := if s.mode == Multicast && s.round == 3 then Publishing else Waiting,
       round := s.round + 1, storage := [])
  }

  lemma EndRoundServer(s: Server)
    requires ServerOk(s) && s.stage == Responding && s.pending == []
    ensures ServerOk(AfterRound(s))
  {
  }

  lemma EndRoundChannels(s: Server, a: nat, c: Client)
    requires s.stage == Responding && s.pending == [] && ChannelsOk(s, a, c)
    ensures ChannelsOk(AfterRound(s), a, c)
  {
    var s' := AfterRound(s);
    assert !Unanswered(s, a) && !Unanswered(s', a) && Answers(s', a) == Answers(s, a);
    assert ReplyOf(s', c.round, IdOf(s', a)) == ReplyOf(s, c.round, IdOf(s, a));
  }

  lemma EndRoundKeepsInv(sys: System)
    requires Inv(sys) && Enabled(sys, EndRound)
    ensures Inv(Apply(sys, EndRound))
  {
    EndRoundServer(sys.server);
    forall a | 0 <= a < |sys.clients|
      ensures ClientOk(AfterRound(sys.server), a, sys.clients[a])
    {
      assert ClientOk(sys.server, a, sys.clients[a]);
      EndRoundChannels(sys.server, a, sys.clients[a]);
      SameData(sys.server, AfterRound(sys.server), a, sys.clients[a], sys.clients[a]);
    }
  }

  // ----- Answering a full round -------------------------------------------------------

  /** The addresses got the ids 1, 2, and so on. */
  ghost predicate InOrder(ids: map<nat, nat>, addrs: seq<nat>) {
    && (forall a :: a in ids <==> a in addrs)
    && (forall i :: 0 <= i < |addrs| ==> ids[addrs[i]] == i + 1)
  }

  lemma InOrderNext(ids: map<nat, nat>, addrs: seq<nat>, a: nat)
    requires InOrder(ids, addrs) && a !in addrs
    ensures InOrder(ids[a := |addrs| + 1], addrs + [a])
  {
  }

  lemma {:induction false} RegisteredInOrder(storage: seq<Request>)
    requires Distinct(Addresses(storage))
    ensures InOrder(RegisteredIds(storage), Addresses(storage))
  {
    if storage != [] {
      var last := |storage| - 1;
      var addrs := Addresses(storage);
      assert Addresses(storage[..last]) == addrs[..last];
      RegisteredInOrder(storage[..last]);
      InOrderNext(RegisteredIds(storage[..last]), addrs[..last], addrs[last]);
      assert addrs == addrs[..last] + [addrs[last]];
    }
  }

  lemma StoredAddresses(storage: seq<Request>, cnt: nat)
    requires forall m :: m in storage ==> m.addr < cnt
    ensures forall x :: x in Addresses(storage) ==> x < cnt
  {
    forall x | x in Addresses(storage)
      ensures x < cnt
    {
      var i :| 0 <= i < |storage| && Addresses(storage)[i] == x;
      assert storage[i] in storage;
    }
  }

  lemma OrderIsBijection(ids: map<nat, nat>, addrs: seq<nat>)
    requires Distinct(addrs) && InOrder(ids, addrs) && forall x :: x in addrs ==> x < |addrs|
    ensures IdsOk(ids, |addrs|)
  {
    var cnt := |addrs|;
    forall a: nat
      ensures a in ids <==> a < cnt
      ensures a in ids ==> 1 <= ids[a] <= cnt && addrs[ids[a] - 1] == a
    {
      if a < cnt {
        Pigeonhole(addrs, cnt, a);
        var i :| 0 <= i < cnt && addrs[i] == a;
      }
    }
  }

  /** The ids that the registrations get are a bijection onto 1..cnt. */
  lemma RegistrationIsBijection(storage: seq<Request>, cnt: nat)
    requires Distinct(Addresses(storage)) && |storage| == cnt
    requires forall m :: m in storage ==> m.addr < cnt
    ensures IdsOk(RegisteredIds(storage), cnt)
  {
    StoredAddresses(storage, cnt);
    RegisteredInOrder(storage);
    OrderIsBijection(RegisteredIds(storage), Addresses(storage));
  }

  lemma {:induction false} AssocNew(d: seq<(nat, nat)>, key: nat, value: nat)
    requires forall i :: 0 <= i < |d| ==> d[i].0 != key
    ensures Assoc(d, key, value) == d + [(key, value)]
  {
    if d != [] {
      AssocNew(d[1..], key, value);
    }
  }

  /** With different server ids, nobody is dropped from the dictionary. */
  lemma {:induction false} IdAddressesInOrder(storage: seq<Request>)
    requires forall i, j :: 0 <= i < j < |storage| ==> IdIn(storage[i]) != IdIn(storage[j])
    ensures |IdAddresses(storage)| == |storage|
    ensures forall i :: 0 <= i < |storage| ==>
              IdAddresses(storage)[i] == (IdIn(storage[i]), storage[i].addr)
  {
    if storage != [] {
      var last := |storage| - 1;
      IdAddressesInOrder(storage[..last]);
      AssocNew(IdAddresses(storage[..last]), IdIn(storage[last]), storage[last].addr);
    }
  }

  /** In a full round, every client waits for its answer and its request is stored. */
  lemma FullRound(sys: System, a: nat)
    requires Inv(sys) && sys.server.stage == Expecting && |sys.server.storage| == sys.server.cnt
    requires a < |sys.clients|
    ensures Unanswered(sys.server, a) && RequestOf(a, sys.clients[a]) in sys.server.storage
    ensures sys.clients[a].round == sys.server.round
  {
    var s := sys.server;
    StoredAddresses(s.storage, s.cnt);
    Pigeonhole(Addresses(s.storage), s.cnt, a);
    assert ClientOk(s, a, sys.clients[a]);
  }

  /** A stored message is the current request of its sender. */
  lemma StoredRequest(sys: System, i: nat)
    requires Inv(sys) && sys.server.stage == Expecting && |sys.server.storage| == sys.server.cnt
    requires i < |sys.server.storage|
    ensures var m := sys.server.storage[i];
            m.addr < |sys.clients| && m == RequestOf(m.addr, sys.clients[m.addr])
  {
    var s, m := sys.server, sys.server.storage[i];
    assert m in s.storage;
    FullRound(sys, m.addr);
    var j :| 0 <= j < |s.storage| && s.storage[j] == RequestOf(m.addr, sys.clients[m.addr]);
    assert Addresses(s.storage)[i] == Addresses(s.storage)[j];
  }

  lemma StoredId(sys: System, i: nat)
    requires Inv(sys) && sys.server.stage == Expecting && |sys.server.storage| == sys.server.cnt
    requires i < |sys.server.storage| && sys.server.round > 0
    ensures IdIn(sys.server.storage[i]) == IdOf(sys.server, sys.server.storage[i].addr)
  {
    var s, m := sys.server, sys.server.storage[i];
    StoredRequest(sys, i);
    FullRound(sys, m.addr);
    assert ClientOk(s, m.addr, sys.clients[m.addr]);
    UnfoldData(s, m.addr, sys.clients[m.addr]);
  }

  /** The responses of a full round: one for every stored request, in order, and each is the
      one that its client is due. */
  lemma ResponsesFit(sys: System, d: Mapping)
    requires Inv(sys) && Enabled(sys, Respond(d))
    ensures AnswersInOrder(sys.server, Responded(sys.server, d))
  {
    if sys.server.round == 0 {
      RegistrationFits(sys, d);
    } else if sys.server.round == 1 || (sys.server.round >= 3 && sys.server.mode != Multicast) {
      PerServerIdFits(sys, d);
    } else {
      SyncFits(sys, d);
    }
  }

  ghost predicate AnswersInOrder(s: Server, s': Server) {
    && |s'.pending| == |s.storage|
    && forall i :: 0 <= i < |s.storage| ==>
         s'.pending[i] == (s.storage[i].addr, ReplyOf(s', s.round, IdOf(s', s.storage[i].addr)))
  }

  /** Registration: the answers are the ids, in the order of the requests. */
  lemma RegistrationFits(sys: System, d: Mapping)
    requires Inv(sys) && Enabled(sys, Respond(d)) && sys.server.round == 0
    ensures AnswersInOrder(sys.server, Responded(sys.server, d))
  {
    var s, s' := sys.server, Responded(sys.server, d);
    RegisteredInOrder(s.storage);
    forall i | 0 <= i < |s.storage|
      ensures IdOf(s', s.storage[i].addr) == i + 1
    {
      assert Addresses(s.storage)[i] == s.storage[i].addr;
    }
  }

  /** Exchange and matrices: every request carries the id of its client, so the dictionary
      of ids has one entry per request. */
  lemma PerServerIdFits(sys: System, d: Mapping)
    requires Inv(sys) && Enabled(sys, Respond(d))
    requires sys.server.round == 1 || (sys.server.round >= 3 && sys.server.mode != Multicast)
    ensures AnswersInOrder(sys.server, Responded(sys.server, d))
  {
    var s := sys.server;
    StoredIdsDiffer(sys);
    IdAddressesInOrder(s.storage);
    forall i | 0 <= i < |s.storage|
      ensures IdIn(s.storage[i]) == IdOf(s, s.storage[i].addr)
    {
      StoredId(sys, i);
    }
  }

  lemma StoredIdsDiffer(sys: System)
    requires Inv(sys) && sys.server.stage == Expecting && |sys.server.storage| == sys.server.cnt
    requires sys.server.round > 0
    ensures forall i, j :: 0 <= i < j < |sys.server.storage| ==>
              IdIn(sys.server.storage[i]) != IdIn(sys.server.storage[j])
  {
    var s := sys.server;
    forall i, j | 0 <= i < j < |s.storage|
      ensures IdIn(s.storage[i]) != IdIn(s.storage[j])
    {
      StoredId(sys, i);
      StoredId(sys, j);
      UnfoldIds(s);
      assert s.storage[i] in s.storage && s.storage[j] in s.storage;
      assert Addresses(s.storage)[i] != Addresses(s.storage)[j];
    }
  }

  /** The rest is a plain sync. */
  lemma SyncFits(sys: System, d: Mapping)
    requires Inv(sys) && Enabled(sys, Respond(d))
    requires sys.server.round == 2 || (sys.server.round >= 3 && sys.server.mode == Multicast)
    ensures AnswersInOrder(sys.server, Responded(sys.server, d))
  {
  }

  lemma RespondServer(sys: System, d: Mapping)
    requires Inv(sys) && Enabled(sys, Respond(d))
    ensures ServerOk(Responded(sys.server, d))
    ensures Targets(Responded(sys.server, d).pending) == Addresses(sys.server.storage)
  {
    var s, s' := sys.server, Responded(sys.server, d);
    ResponsesFit(sys, d);
    assert Targets(s'.pending) == Addresses(s.storage);
    if s.round == 0 {
      RegistrationIsBijection(s.storage, s.cnt);
    }
    forall p | p in s'.pending
      ensures p.0 < s.cnt && p.1 == ReplyOf(s', s'.round, IdOf(s', p.0))
    {
      var i :| 0 <= i < |s'.pending| && s'.pending[i] == p;
      assert s.storage[i] in s.storage;
    }
  }

  lemma RespondData(s: Server, d: Mapping, a: nat, c: Client)
    requires DataOk(s, a, c) && c.round == s.round && StepsOk(s) && s.stage == Expecting
    ensures DataOk(Responded(s, d), a, c)
  {
    UnfoldData(s, a, c);
  }

  lemma RespondKeepsInv(sys: System, d: Mapping)
    requires Inv(sys) && Enabled(sys, Respond(d))
    ensures Inv(Apply(sys, Respond(d)))
  {
    var s, s' := sys.server, Responded(sys.server, d);
    RespondServer(sys, d);
    forall a | 0 <= a < |sys.clients|
      ensures ClientOk(s', a, sys.clients[a])
    {
      assert ClientOk(s, a, sys.clients[a]);
      FullRound(sys, a);
      RespondData(s, d, a, sys.clients[a]);
    }
  }

  // ----- All runs ---------------------------------------------------------------------

  lemma ActionKeepsInv(sys: System, a: Action)
    requires Inv(sys) && Enabled(sys, a)
    ensures Inv(Apply(sys, a))
  {
    match a
    case Begin => BeginKeepsInv(sys);
    case BeginStep(m) => BeginStepKeepsInv(sys, m);
    case Publish => PublishKeepsInv(sys);
    case Receive(i) => ReceiveKeepsInv(sys, i);
    case Respond(d) => RespondKeepsInv(sys, d);
    case SendReply => SendReplyKeepsInv(sys);
    case EndRound => EndRoundKeepsInv(sys);
    case ClientSend(i) => ClientSendKeepsInv(sys, i);
    case ClientReceive(i) => ClientReceiveKeepsInv(sys, i);
    case ClientStep(i) => ClientStepKeepsInv(sys, i);
  }

  lemma {:induction false} RunKeepsInv(start: System, actions: seq<Action>, end: System)
    requires Inv(start) && IsRun(start, actions, end)
    ensures Inv(end)
    decreases actions
  {
    if actions != [] {
      ActionKeepsInv(start, actions[0]);
      RunKeepsInv(Apply(start, actions[0]), actions[1..], end);
    }
  }
}
