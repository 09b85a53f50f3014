/**
 The loops of the expecter and of the responders, against the functions that the protocol
 model uses for them.
 */
module StateMachine {
  import opened Topology
  import opened MatrixDistribution
  import opened Protocol

  /** The server after its expecter has read these messages. */
  function Collected(s: Server, msgs: seq<Request>): (r: Server) {
    if msgs == [] then s
    else Expect(Collected(s, msgs[..|msgs| - 1]), msgs[|msgs| - 1])
  }

  class Expecter {
    var server: Server

    constructor (s: Server)
      ensures server == s.(storage := [])
    {
      server := s.(storage := []);
    }

    /** Reads one message; it counts only if parts and state are right. */
    method ExpectOne(m: Request) returns (ok: bool)
      modifies this
      ensures server == Expect(old(server), m)
      ensures ok <==>
              (if old(server).round == 0 then m.state == StateRegister && m.args == []
               else if old(server).round == 1 then m.state == StateExchange && |m.args| == 3
               else m.state == (if old(server).round == 2 then StateStartNodes else StateDistanceMatrix) &&
                    |m.args| == 1)
      ensures server == if ok then old(server).(storage := old(server).storage + [m])
                        else old(server).(rejected := old(server).rejected + 1)
    {
      if |m.args| == PartsOf(server.round) {
        if m.state == StateOf(server.round) {
          server := server.(storage := server.storage + [m]);
          return true;
        }
      }
      server := server.(rejected := server.rejected + 1);
      return false;
    }

    /** Reads from the socket until there is one valid message per client, or until nothing
        is left to read, in which case the real call would go on waiting. */
    method ExpectForAll(inbox: seq<Request>) returns (used: nat, done: bool)
      requires server.storage == []
      modifies this
      ensures used <= |inbox| && server == Collected(old(server), inbox[..used])
      ensures done ==> |server.storage| == server.cnt
      ensures !done ==> used == |inbox| && |server.storage| < server.cnt
    {
      used := 0;
      var s0 := server;
      var idx := 1;
      while idx < s0.cnt + 1
        invariant 1 <= idx <= s0.cnt + 1 && used <= |inbox|
        invariant server == Collected(s0, inbox[..used]) && server.cnt == s0.cnt
        invariant |server.storage| == idx - 1
      {
        var ok := false;
        while !ok
          invariant used <= |inbox|
          invariant server == Collected(s0, inbox[..used]) && server.cnt == s0.cnt
          invariant |server.storage| == if ok then idx else idx - 1
          decreases !ok, |inbox| - used
        {
          if used == |inbox| {
            return used, false;
          }
          assert inbox[..used + 1][..used] == inbox[..used];
          ok := ExpectOne(inbox[used]);
          used := used + 1;
        }
        idx := idx + 1;
      }
      return used, true;
    }
  }

  /** Sends each client its id, in the order of registration. */
  method RespondServerIds(s: Server) returns (out: seq<(nat, Reply)>, addrOfId: map<nat, nat>)
    requires s.round == 0
    ensures out == Responses(s) && |out| == |s.storage|
    ensures forall i :: 0 <= i < |out| ==> out[i] == (s.storage[i].addr, YourId(i + 1))
    ensures forall i :: i in addrOfId <==> 1 <= i <= |s.storage|
    ensures forall i :: i in addrOfId ==> addrOfId[i] == s.storage[i - 1].addr
  {
    out, addrOfId := [], map[];
    for idx := 1 to |s.storage| + 1
      invariant |out| == idx - 1
      invariant forall i :: 0 <= i < |out| ==> out[i] == (s.storage[i].addr, YourId(i + 1))
      invariant forall i :: i in addrOfId <==> 1 <= i < idx
      invariant forall i :: i in addrOfId ==> addrOfId[i] == s.storage[i - 1].addr
    {
      var addr := s.storage[idx - 1].addr;
      out := out + [(addr, YourId(idx))];
      addrOfId := addrOfId[idx := addr];
    }
  }

  lemma {:induction false} AssocKeys(d: seq<(nat, nat)>, key: nat, value: nat, keys: set<nat>)
    requires key in keys && forall i :: 0 <= i < |d| ==> d[i].0 in keys
    ensures forall i :: 0 <= i < |Assoc(d, key, value)| ==> Assoc(d, key, value)[i].0 in keys
  {
    if d != [] && d[0].0 != key {
      AssocKeys(d[1..], key, value, keys);
    }
  }

  lemma {:induction false} AssocEntry(d: seq<(nat, nat)>, key: nat, value: nat, other: (nat, nat))
    ensures (key, value) in Assoc(d, key, value)
    ensures other.0 != key ==> (other in Assoc(d, key, value) <==> other in d)
  {
    if d == [] {
      assert [(key, value)][0] == (key, value);
    } else if d[0].0 == key {
      assert d == [d[0]] + d[1..];
      assert ([(key, value)] + d[1..])[0] == (key, value);
    } else {
      AssocEntry(d[1..], key, value, other);
      assert d == [d[0]] + d[1..];
    }
  }

  /** The dictionary has the address of the last message with a server id. */
  lemma {:induction false} LastAddressWins(storage: seq<Request>, i: nat)
    requires i < |storage| && forall j :: i < j < |storage| ==> IdIn(storage[j]) != IdIn(storage[i])
    ensures (IdIn(storage[i]), storage[i].addr) in IdAddresses(storage)
  {
    var last := |storage| - 1;
    var entry := (IdIn(storage[i]), storage[i].addr);
    AssocEntry(IdAddresses(storage[..last]), IdIn(storage[last]), storage[last].addr, entry);
    if i < last {
      LastAddressWins(storage[..last], i);
    }
  }

  /** Sends each client the response for its server id. */
  method RespondPerServerId(storage: seq<Request>, responses: map<nat, Reply>) returns (out: seq<(nat, Reply)>)
    requires forall m :: m in storage ==> IdIn(m) in responses
    ensures |out| == |IdAddresses(storage)|
    ensures forall i :: 0 <= i < |out| ==>
              var (id, addr) := IdAddresses(storage)[i];
              id in responses && out[i] == (addr, responses[id])
  {
    var dict: seq<(nat, nat)> := [];
    for i := 0 to |storage|
      invariant dict == IdAddresses(storage[..i])
      invariant forall j :: 0 <= j < |dict| ==> dict[j].0 in responses
    {
      assert storage[..i + 1][..i] == storage[..i];
      AssocKeys(dict, IdIn(storage[i]), storage[i].addr, responses.Keys);
      dict := Assoc(dict, IdIn(storage[i]), storage[i].addr);
    }
    assert storage[..|storage|] == storage;
    out := [];
    for i := 0 to |dict|
      invariant |out| == i
      invariant forall j :: 0 <= j < i ==> out[j] == (dict[j].1, responses[dict[j].0])
    {
      out := out + [(dict[i].1, responses[dict[i].0])];
    }
  }

  // ----- The information exchange -----------------------------------------------------

  /** The data of a scenario config: one shared object, and copies of it. */
  class ScenarioData {
    var serverId: nat
    var mapping: Mapping

    function Value(): (c: Config)
      reads this
    {
      Config(serverId, mapping)
    }

    constructor Copy(other: ScenarioData)
      ensures Value() == other.Value()
    {
      serverId, mapping := other.serverId, other.mapping;
    }
  }

  /** One config per server: the shared one is given the id of the server and copied. Every
      copy keeps its own id, although the shared config goes on changing. */
  method CreateScenarioConfigs(shared: ScenarioData, servers: set<nat>)
    returns (configs: map<nat, ScenarioData>)
    modifies shared`serverId
    ensures configs.Keys == servers
    ensures forall id :: id in configs ==> configs[id].Value() == Config(id, shared.mapping)
    ensures forall id :: id in configs ==> fresh(configs[id])
    ensures forall i, j :: i in configs && j in configs && i != j ==> configs[i] != configs[j]
  {
    configs := map[];
    var todo := servers;
    while todo != {}
      invariant todo <= servers && configs.Keys == servers - todo
      invariant forall id :: id in configs ==> fresh(configs[id])
      invariant forall id :: id in configs ==> configs[id].Value() == Config(id, shared.mapping)
    {
      var server :| server in todo;
      shared.serverId := server;
      var copy := new ScenarioData.Copy(shared);
      configs := configs[server := copy];
      todo := todo - {server};
    }
    assert forall id :: id in configs ==> configs[id].Value().serverId == id;
  }

  /** The answers of the information exchange: once the nodes are distributed, every client gets
      the config made for its id. */
  method HandleInformationExchange(s: Server, shared: ScenarioData, d: Mapping)
    returns (out: seq<(nat, Reply)>)
    requires s.round == 1 && forall m :: m in s.storage ==> IdIn(m) in d
    modifies shared
    ensures out == Responded(s, d).pending && shared.mapping == d
  {
    shared.mapping := d;
    var configs := CreateScenarioConfigs(shared, d.Keys);
    var responses := map id | id in configs :: YourConfig(configs[id].Value());
    out := RespondPerServerId(s.storage, responses);
  }

  // ----- The matrices of the request-reply mode ---------------------------------------

  /** The answers of a step: every client gets what its mode sends to its id. */
  method HandleDistanceMatrix(s: Server) returns (out: seq<(nat, Reply)>)
    requires s.mode != Multicast && s.round >= 3 && s.round - 3 < |s.matrices|
    requires forall m :: m in s.storage ==> IdIn(m) in s.mapping
    requires s.mode == IndividualMatrices ==> Disjoint(s.mapping)
    ensures out == Responses(s)
  {
    var m := s.matrices[s.round - 3];
    var perServer := MapDistanceMatrixToServers(s.mapping, m, s.mode == IndividualMatrices);
    var responses := map id | id in s.mapping :: YourMatrix(perServer[Some(id)]);
    out := RespondPerServerId(s.storage, responses);
  }
}
