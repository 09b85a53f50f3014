/**
 The score strategy inside the coordinator protocol: the scores that the clients send in the
 information exchange are read per server id and decide how the nodes are distributed.
 */
module ScoreExchange {
  import opened Topology
  import opened MatrixDistribution
  import opened Scheduler
  import opened ScoreScheduler
  import opened Protocol
  import opened ProtocolSafety
  import opened ProtocolTheorems

  /** The score that a message of the exchange carries as its last part. */
  predicate CarriesScore(m: Request) {
    |m.args| == 3 && m.args[0].ServerId? && m.args[1].TunnelIp? && m.args[2].ServerScore?
  }

  /** The scores that the first k messages carry, per server id; a later message with the same
      id replaces the score. */
  function ScoresIn(storage: seq<Request>, k: nat): (r: Scores)
    requires k <= |storage| && forall m :: m in storage ==> CarriesScore(m)
  {
    if k == 0 then map[]
    else
      var m := storage[k - 1];
      assert m in storage;
      ScoresIn(storage, k - 1)[m.args[0].id := Score(m.args[2].cpu, m.args[2].freeMem)]
  }

  method GetServerScores(storage: seq<Request>) returns (scores: Scores)
    requires forall m :: m in storage ==> CarriesScore(m)
    ensures scores == ScoresIn(storage, |storage|)
  {
    scores := map[];
    for k := 0 to |storage|
      invariant scores == ScoresIn(storage, k)
    {
      var m := storage[k];
      assert m in storage;
      scores := scores[m.args[0].id := Score(m.args[2].cpu, m.args[2].freeMem)];
    }
  }

  /** If no id comes twice, no score is lost. */
  lemma {:induction false} ScoreStays(storage: seq<Request>, k: nat, i: nat)
    requires i < k <= |storage| && forall m :: m in storage ==> CarriesScore(m)
    requires forall j, l :: 0 <= j < l < |storage| ==> IdIn(storage[j]) != IdIn(storage[l])
    ensures CarriesScore(storage[i])
    ensures var id, score := storage[i].args[0].id, storage[i].args[2];
            id in ScoresIn(storage, k) && ScoresIn(storage, k)[id] == Score(score.cpu, score.freeMem)
  {
    assert storage[i] in storage && storage[k - 1] in storage;
    if i < k - 1 {
      ScoreStays(storage, k - 1, i);
      assert IdIn(storage[i]) != IdIn(storage[k - 1]);
    }
  }

  lemma {:induction false} ScoreHasMessage(storage: seq<Request>, k: nat, id: nat) returns (i: nat)
    requires k <= |storage| && forall m :: m in storage ==> CarriesScore(m)
    requires id in ScoresIn(storage, k)
    ensures i < k && CarriesScore(storage[i]) && storage[i].args[0] == ServerId(id)
  {
    assert storage[k - 1] in storage;
    if storage[k - 1].args[0].id == id {
      i := k - 1;
    } else {
      i := ScoreHasMessage(storage, k - 1, id);
    }
  }

  /** The scores are those of the hosts, each under the id of its client. */
  ghost predicate AreHostScores(scores: Scores, hosts: seq<Host>, clients: seq<Client>) {
    && |clients| == |hosts|
    && (forall id :: id in scores <==> 1 <= id <= |hosts|)
    && forall a :: 0 <= a < |hosts| ==>
         && clients[a].id.Some? && clients[a].id.value in scores
         && scores[clients[a].id.value] == Score(hosts[a].cpu, hosts[a].freeMem)
  }

  /** The stored message of a client in the exchange. */
  lemma ExchangeMessage(mode: Mode, nodes: seq<nat>, hosts: seq<Host>, sys: System, a: nat) returns (i: nat)
    requires Reachable(mode, nodes, hosts, sys) && a < |hosts|
    requires sys.server.stage == Expecting && |sys.server.storage| == |hosts| && sys.server.round == 1
    ensures |sys.clients| == |hosts| && sys.clients[a].id.Some? && 1 <= sys.clients[a].id.value <= |hosts|
    ensures i < |sys.server.storage|
    ensures sys.server.storage[i].args == [ServerId(sys.clients[a].id.value), TunnelIp(hosts[a].ip),
                                           ServerScore(hosts[a].cpu, hosts[a].freeMem)]
    ensures sys.server.storage[i].addr == a
  {
    MessagesOfPhase(mode, nodes, hosts, sys, a);
    ConfigMatchesId(mode, nodes, hosts, sys, a, a);
    i :| 0 <= i < |sys.server.storage| &&
         sys.server.storage[i] == Request(a, StateExchange,
                                          [ServerId(sys.clients[a].id.value), TunnelIp(hosts[a].ip),
                                           ServerScore(hosts[a].cpu, hosts[a].freeMem)]);
  }

  /** Every stored message of the exchange is the one of its sender. */
  lemma ExchangeStorage(mode: Mode, nodes: seq<nat>, hosts: seq<Host>, sys: System, i: nat)
    requires Reachable(mode, nodes, hosts, sys) && i < |sys.server.storage|
    requires sys.server.stage == Expecting && |sys.server.storage| == |hosts| && sys.server.round == 1
    ensures var m := sys.server.storage[i];
            && CarriesScore(m) && m.addr < |hosts| && |sys.clients| == |hosts|
            && sys.clients[m.addr].id == Some(m.args[0].id)
            && m.args[2] == ServerScore(hosts[m.addr].cpu, hosts[m.addr].freeMem)
  {
    ReachableInv(mode, nodes, hosts, sys);
    StoredRequest(sys, i);
    var m := sys.server.storage[i];
    var k := ExchangeMessage(mode, nodes, hosts, sys, m.addr);
    assert Addresses(sys.server.storage)[i] == Addresses(sys.server.storage)[k];
  }

  lemma IdHasClient(mode: Mode, nodes: seq<nat>, hosts: seq<Host>, sys: System, id: nat) returns (a: nat)
    requires Reachable(mode, nodes, hosts, sys) && 1 <= id <= |hosts|
    requires sys.server.stage == Expecting && |sys.server.storage| == |hosts| && sys.server.round == 1
    ensures a < |hosts| && |sys.clients| == |hosts| && sys.clients[a].id == Some(id)
  {
    ReachableInv(mode, nodes, hosts, sys);
    var s := sys.server;
    UnfoldIds(s);
    SomeClientHasId(s.ids, s.cnt, id);
    a :| 0 <= a < s.cnt && s.ids[a] == id;
    FullRound(sys, a);
    assert ClientOk(s, a, sys.clients[a]);
    UnfoldData(s, a, sys.clients[a]);
  }

  /** What the proofs below need to know about the stored messages. */
  lemma ExchangeIsGood(mode: Mode, nodes: seq<nat>, hosts: seq<Host>, sys: System)
    requires Reachable(mode, nodes, hosts, sys)
    requires sys.server.stage == Expecting && |sys.server.storage| == |hosts| && sys.server.round == 1
    ensures forall m :: m in sys.server.storage ==> CarriesScore(m)
    ensures forall i, j :: 0 <= i < j < |sys.server.storage| ==>
              IdIn(sys.server.storage[i]) != IdIn(sys.server.storage[j])
  {
    forall m | m in sys.server.storage
      ensures CarriesScore(m)
    {
      var i :| 0 <= i < |sys.server.storage| && sys.server.storage[i] == m;
      ExchangeStorage(mode, nodes, hosts, sys, i);
    }
    ReachableInv(mode, nodes, hosts, sys);
    StoredIdsDiffer(sys);
  }

  lemma ScoreOfHost(mode: Mode, nodes: seq<nat>, hosts: seq<Host>, sys: System, scores: Scores, a: nat)
    requires Reachable(mode, nodes, hosts, sys) && a < |hosts|
    requires sys.server.stage == Expecting && |sys.server.storage| == |hosts| && sys.server.round == 1
    requires forall m :: m in sys.server.storage ==> CarriesScore(m)
    requires scores == ScoresIn(sys.server.storage, |sys.server.storage|)
    ensures |sys.clients| == |hosts| && sys.clients[a].id.Some? && sys.clients[a].id.value in scores
    ensures scores[sys.clients[a].id.value] == Score(hosts[a].cpu, hosts[a].freeMem)
  {
    var i := ExchangeMessage(mode, nodes, hosts, sys, a);
    ExchangeIsGood(mode, nodes, hosts, sys);
    ScoreStays(sys.server.storage, |sys.server.storage|, i);
  }

  lemma ScoresHaveIds(mode: Mode, nodes: seq<nat>, hosts: seq<Host>, sys: System, scores: Scores, id: nat)
    requires Reachable(mode, nodes, hosts, sys)
    requires sys.server.stage == Expecting && |sys.server.storage| == |hosts| && sys.server.round == 1
    requires forall m :: m in sys.server.storage ==> CarriesScore(m)
    requires scores == ScoresIn(sys.server.storage, |sys.server.storage|)
    ensures id in scores <==> 1 <= id <= |hosts|
  {
    if id in scores {
      var i := ScoreHasMessage(sys.server.storage, |sys.server.storage|, id);
      ExchangeStorage(mode, nodes, hosts, sys, i);
      var a := sys.server.storage[i].addr;
      ConfigMatchesId(mode, nodes, hosts, sys, a, a);
    }
    if 1 <= id <= |hosts| {
      var a := IdHasClient(mode, nodes, hosts, sys, id);
      ScoreOfHost(mode, nodes, hosts, sys, scores, a);
    }
  }

  /** When the exchange is complete, the coordinator has the score of every host under the id of
      its client. */
  method ReadScores(ghost mode: Mode, ghost nodes: seq<nat>, hosts: seq<Host>, sys: System)
    returns (scores: Scores)
    requires Reachable(mode, nodes, hosts, sys)
    requires sys.server.stage == Expecting && |sys.server.storage| == |hosts| && sys.server.round == 1
    ensures AreHostScores(scores, hosts, sys.clients)
  {
    ExchangeIsGood(mode, nodes, hosts, sys);
    scores := GetServerScores(sys.server.storage);
    AllScoresRead(mode, nodes, hosts, sys, scores);
  }

  lemma AllScoresRead(mode: Mode, nodes: seq<nat>, hosts: seq<Host>, sys: System, scores: Scores)
    requires Reachable(mode, nodes, hosts, sys)
    requires sys.server.stage == Expecting && |sys.server.storage| == |hosts| && sys.server.round == 1
    requires forall m :: m in sys.server.storage ==> CarriesScore(m)
    requires scores == ScoresIn(sys.server.storage, |sys.server.storage|)
    ensures AreHostScores(scores, hosts, sys.clients)
  {
    forall a | 0 <= a < |hosts|
      ensures |sys.clients| == |hosts| && sys.clients[a].id.Some? && sys.clients[a].id.value in scores
      ensures scores[sys.clients[a].id.value] == Score(hosts[a].cpu, hosts[a].freeMem)
    {
      ScoreOfHost(mode, nodes, hosts, sys, scores, a);
    }
    forall id: nat
      ensures id in scores <==> 1 <= id <= |hosts|
    {
      ScoresHaveIds(mode, nodes, hosts, sys, scores, id);
    }
    ClientsOfHosts(mode, nodes, hosts, sys);
  }

  lemma ClientsOfHosts(mode: Mode, nodes: seq<nat>, hosts: seq<Host>, sys: System)
    requires Reachable(mode, nodes, hosts, sys)
    ensures |sys.clients| == |hosts|
  {
    ReachableInv(mode, nodes, hosts, sys);
  }

  lemma {:induction false} SumIsPositive(scores: Scores, k: nat, s: nat)
    requires forall t :: 1 <= t <= k ==> t in scores && scores[t].cpu >= 0.0
    ensures SumCpu(scores, k) >= 0.0
    ensures 1 <= s <= k && scores[s].cpu > 0.0 ==> SumCpu(scores, k) > 0.0
  {
    if k > 0 {
      SumIsPositive(scores, k - 1, s);
    }
  }

  /** The exchange under the score strategy: the quotas come from the scores of the hosts, and
      the coordinator answers with the distribution that they give. */
  method DistributeByHostScores(ghost mode: Mode, nodes: seq<nat>, hosts: seq<Host>, sys: System, vmSize: nat)
    returns (d: Mapping, scores: Scores, quotas: Quotas)
    requires Reachable(mode, nodes, hosts, sys)
    requires sys.server.stage == Expecting && |sys.server.storage| == |hosts| && sys.server.round == 1
    requires forall h :: h in hosts ==> h.cpu >= 0.0 && h.freeMem >= 0.0
    requires exists h :: h in hosts && h.cpu > 0.0
    ensures Enabled(sys, Respond(d)) && Distributes(d, nodes, |hosts|)
    ensures AreHostScores(scores, hosts, sys.clients) && ValidScores(scores, |hosts|)
    ensures AreQuotas(quotas, scores, |hosts|, |nodes|, vmSize)
    ensures Prefix(quotas, |hosts|) >= |nodes| ==> WithinMemory(d, scores, vmSize)
  {
    scores := ReadScores(mode, nodes, hosts, sys);
    HostScoresAreValid(mode, nodes, hosts, sys, scores);
    ReachableInv(mode, nodes, hosts, sys);
    var order;
    d, quotas, order := DistributeByScore(nodes, |hosts|, scores, vmSize);
  }

  lemma HostScoresAreValid(mode: Mode, nodes: seq<nat>, hosts: seq<Host>, sys: System, scores: Scores)
    requires Reachable(mode, nodes, hosts, sys) && AreHostScores(scores, hosts, sys.clients)
    requires sys.server.stage == Expecting && |sys.server.storage| == |hosts| && sys.server.round == 1
    requires forall h :: h in hosts ==> h.cpu >= 0.0 && h.freeMem >= 0.0
    requires exists h :: h in hosts && h.cpu > 0.0
    ensures ValidScores(scores, |hosts|)
  {
    forall id | id in scores
      ensures scores[id].cpu >= 0.0 && scores[id].freeMem >= 0.0
    {
      var a := IdHasClient(mode, nodes, hosts, sys, id);
      assert hosts[a] in hosts;
    }
    var h :| h in hosts && h.cpu > 0.0;
    var a :| 0 <= a < |hosts| && hosts[a] == h;
    SumIsPositive(scores, |hosts|, sys.clients[a].id.value);
  }
}
