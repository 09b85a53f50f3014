/**
 The protocol between the coordinator and the emulation servers over ZeroMQ, as a state
 machine: a ROUTER socket that collects one request from every client and then answers all of
 them, n clients with REQ sockets, and a publish channel for the multicast mode.
 */
module Protocol {
  import opened Topology
  import opened MatrixDistribution
  import opened Scheduler

  // ----- Messages ---------------------------------------------------------------------

  datatype State = StateRegister | StateExchange | StateStartNodes | StateDistanceMatrix

  datatype Arg = ServerId(id: nat) | TunnelIp(ip: string) | ServerScore(cpu: real, freeMem: real)

  /** A request as the ROUTER socket sees it: with the address of the client. */
  datatype Request = Request(addr: nat, state: State, args: seq<Arg>)

  datatype Config = Config(serverId: nat, mapping: Mapping)

  datatype Reply = YourId(id: nat) | YourConfig(config: Config) | Sync | YourMatrix(matrix: Matrix)

  // ----- The server -------------------------------------------------------------------

  /** Between two rounds the server waits for the scenario or for the next step. */
  datatype Stage = Waiting | Publishing | Expecting | Responding

  datatype Server = Server(
    mode: Mode, cnt: nat, nodes: seq<nat>,
    round: nat, stage: Stage,
    storage: seq<Request>, pending: seq<(nat, Reply)>, rejected: nat,
    ids: map<nat, nat>, mapping: Mapping,
    matrices: seq<Matrix>, published: nat)

  /** The state that a round belongs to: register, exchange, start nodes, and then distance
      matrices for ever. */
  function StateOf(round: nat): State {
    if round == 0 then StateRegister
    else if round == 1 then StateExchange
    else if round == 2 then StateStartNodes
    else StateDistanceMatrix
  }

  /** The number of message parts that the expecter of the round asks for. */
  function PartsOf(round: nat): nat {
    if round == 0 then 0 else if round == 1 then 3 else 1
  }

  /** The expecter keeps a message with the right number of parts in the right state, and
      drops any other. */
  function Expect(s: Server, m: Request): Server {
    if |m.args| == PartsOf(s.round) && m.state == StateOf(s.round) then
      s.(storage := s.storage + [m])
    else
      s.(rejected := s.rejected + 1)
  }

  /** The server id that a message carries as its first part. */
  function IdIn(m: Request): nat {
    if m.args != [] && m.args[0].ServerId? then m.args[0].id else 0
  }

  /** The dictionary from server id to address, as a list in insertion order: a later message
      with the same id replaces the address. */
  function IdAddresses(storage: seq<Request>): (r: seq<(nat, nat)>) {
    if storage == [] then []
    else
      var m := storage[|storage| - 1];
      Assoc(IdAddresses(storage[..|storage| - 1]), IdIn(m), m.addr)
  }

  function Assoc(d: seq<(nat, nat)>, key: nat, value: nat): (r: seq<(nat, nat)>) {
    if d == [] then [(key, value)]
    else if d[0].0 == key then [(key, value)] + d[1..]
    else [d[0]] + Assoc(d[1..], key, value)
  }

  /** The answer that the server owes the client with this id in a round. */
  function ReplyOf(s: Server, round: nat, id: nat): Reply {
    if round == 0 then YourId(id)
    else if round == 1 then YourConfig(Config(id, s.mapping))
    else if round == 2 || s.mode == Multicast then Sync
    else if round - 3 < |s.matrices| && id in s.mapping then
      YourMatrix(Payload(s.mode, s.mapping, s.matrices[round - 3], id))
    else Sync
  }

  /** The responses of a round: the ids are given out in the order of the registrations; the
      exchange and the matrices are answered per server id; the rest is a plain sync. */
  function Responses(s: Server): (r: seq<(nat, Reply)>) {
    if s.round == 0 then
      seq(|s.storage|, i requires 0 <= i < |s.storage| => (s.storage[i].addr, YourId(i + 1)))
    else if s.round == 1 || (s.round >= 3 && s.mode != Multicast) then
      var dict := IdAddresses(s.storage);
      seq(|dict|, i requires 0 <= i < |dict| => (dict[i].1, ReplyOf(s, s.round, dict[i].0)))
    else
      seq(|s.storage|, i requires 0 <= i < |s.storage| => (s.storage[i].addr, Sync))
  }

  /** The ids that the registrations get: first come, first served. */
  function RegisteredIds(storage: seq<Request>): (r: map<nat, nat>) {
    if storage == [] then map[]
    else
      RegisteredIds(storage[..|storage| - 1])[storage[|storage| - 1].addr := |storage|]
  }

  // ----- The clients ------------------------------------------------------------------

  /** Where a client is in its loop; a client that failed has left it. */
  datatype Pc = ToSend | AwaitReply | AwaitMatrix | Failed

  /** What a client tells the coordinator about its host. */
  datatype Host = Host(ip: string, cpu: real, freeMem: real)

  /** A client with its two pipes and its subscription. Its round counts the replies. */
  datatype Client = Client(
    host: Host, pc: Pc, round: nat, id: Option<nat>, config: Option<Config>,
    applied: seq<Matrix>, toServer: seq<Request>, toClient: seq<Reply>, queue: seq<Matrix>)

  /** The request that a client sends in its current round. */
  function RequestOf(addr: nat, c: Client): Request {
    var id := ServerId(if c.id.Some? then c.id.value else 0);
    Request(addr, StateOf(c.round),
            if c.round == 0 then []
            else if c.round == 1 then [id, TunnelIp(c.host.ip), ServerScore(c.host.cpu, c.host.freeMem)]
            else [id])
  }

  /** The nodes that the config makes a client start. */
  function NodesOf(c: Config): seq<nat> {
    if c.serverId in c.mapping then c.mapping[c.serverId] else []
  }

  /** A client steps on its part of a matrix. It has no movement director to ask for another
      matrix, so an empty part makes it fail. */
  function StepOn(c: Client, part: Matrix): Client {
    if part == map[] then c.(pc := Failed)
    else c.(pc := ToSend, applied := c.applied + [part])
  }

  /** What a client does with the next reply: remember its id, start its nodes, or step. */
  function Received(mode: Mode, c: Client): Client
    requires c.toClient != []
  {
    var next := c.(round := c.round + 1, toClient := c.toClient[1..],
                   pc := if c.round >= 3 && mode == Multicast then AwaitMatrix else ToSend);
    match c.toClient[0]
    case YourId(id) => next.(id := Some(id))
    case YourConfig(config) => next.(config := Some(config))
    case Sync => next
    case YourMatrix(m) =>
      if c.config.Some? then StepOn(next, Taken(mode, NodesOf(c.config.value), m)) else next
  }

  /** What a client does with the next published matrix: it steps on its part of it. */
  function Stepped(mode: Mode, c: Client): Client
    requires c.queue != []
  {
    var nodes := if c.config.Some? then NodesOf(c.config.value) else [];
    StepOn(c.(queue := c.queue[1..]), Taken(mode, nodes, c.queue[0]))
  }

  // ----- The system -------------------------------------------------------------------

  datatype System = System(server: Server, clients: seq<Client>)

  datatype Action =
    | Begin
    | BeginStep(matrix: Matrix)
    | Publish
    | Receive(from: nat)
    | Respond(distribution: Mapping)
    | SendReply
    | EndRound
    | ClientSend(client: nat)
    | ClientReceive(client: nat)
    | ClientStep(client: nat)

  ghost predicate Enabled(sys: System, a: Action) {
    var s := sys.server;
    match a
    // the server is started, or the scenario is set
    case Begin => s.stage == Waiting && s.round < 3
    // the coordinator makes a step
    case BeginStep(_) => s.stage == Waiting && s.round >= 3
    case Publish => s.stage == Publishing && s.matrices != []
    // any waiting message may come next
    case Receive(i) =>
      s.stage == Expecting && |s.storage| < s.cnt && i < |sys.clients| &&
      sys.clients[i].toServer != []
    // all messages of the round are there; in the exchange the nodes are distributed
    case Respond(d) =>
      s.stage == Expecting && |s.storage| == s.cnt && (s.round == 1 ==> Distributes(d, s.nodes, s.cnt))
    case SendReply => s.stage == Responding && s.pending != [] && s.pending[0].0 < |sys.clients|
    case EndRound => s.stage == Responding && s.pending == []
    case ClientSend(i) => i < |sys.clients| && sys.clients[i].pc == ToSend
    case ClientReceive(i) =>
      i < |sys.clients| && sys.clients[i].pc == AwaitReply && sys.clients[i].toClient != []
    case ClientStep(i) =>
      i < |sys.clients| && sys.clients[i].pc == AwaitMatrix && sys.clients[i].queue != []
  }

  function WithClient(sys: System, i: nat, c: Client): System
    requires i < |sys.clients|
  {
    sys.(clients := sys.clients[i := c])
  }

  /** All subscribers get the matrix. */
  function Published(clients: seq<Client>, m: Matrix): (r: seq<Client>)
    ensures |r| == |clients|
    ensures forall i :: 0 <= i < |r| ==> r[i] == clients[i].(queue := clients[i].queue + [m])
  {
    seq(|clients|, i requires 0 <= i < |clients| => clients[i].(queue := clients[i].queue + [m]))
  }

  function Apply(sys: System, a: Action): System
    requires Enabled(sys, a)
  {
    var s := sys.server;
    match a
    case Begin => sys.(server := s.(stage := Expecting, storage := []))
    case BeginStep(m) =>
      var stage := if s.mode == Multicast && s.matrices != [] then Publishing else Expecting;
      sys.(server := s.(stage := stage, storage := [], matrices := s.matrices + [m]))
    case Publish =>
      System(s.(stage := Expecting, storage := [], published := s.published + 1),
             Published(sys.clients, s.matrices[|s.matrices| - 1]))
    case Receive(i) =>
      var c := sys.clients[i];
      WithClient(sys.(server := Expect(s, c.toServer[0])), i, c.(toServer := c.toServer[1..]))
    case Respond(d) =>
      sys.(server := Responded(s, d))
    case SendReply =>
      var (i, reply) := s.pending[0];
      var c := sys.clients[i];
      WithClient(sys.(server := s.(pending := s.pending[1..])), i,
                 c.(toClient := c.toClient + [reply]))
    case EndRound =>
      var stage := if s.mode == Multicast && s.round == 3 then Publishing else Waiting;
      sys.(server := s.(stage := stage, round := s.round + 1, storage := []))
    case ClientSend(i) =>
      var c := sys.clients[i];
      WithClient(sys, i, c.(pc := AwaitReply, toServer := c.toServer + [RequestOf(i, c)]))
    case ClientReceive(i) => WithClient(sys, i, Received(s.mode, sys.clients[i]))
    case ClientStep(i) => WithClient(sys, i, Stepped(s.mode, sys.clients[i]))
  }

  function Responded(s: Server, d: Mapping): Server {
    var s' := if s.round == 1 then s.(mapping := d)
              else if s.round == 0 then s.(ids := RegisteredIds(s.storage))
              else s;
    s'.(stage := Responding, pending := Responses(s'))
  }

  function Initial(mode: Mode, nodes: seq<nat>, hosts: seq<Host>): System {
    System(Server(mode, |hosts|, nodes, 0, Waiting, [], [], 0, map[], map[], [], 0),
           seq(|hosts|, i requires 0 <= i < |hosts| =>
             Client(hosts[i], ToSend, 0, None, None, [], [], [], [])))
  }

  /** The states along a run: every action is enabled where it happens. */
  ghost predicate IsRun(start: System, actions: seq<Action>, end: System)
    decreases actions
  {
    if actions == [] then start == end
    else Enabled(start, actions[0]) && IsRun(Apply(start, actions[0]), actions[1..], end)
  }
}
