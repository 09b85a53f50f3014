# MiniWorld: a verified model

MiniWorld emulates wireless networks with virtual machines. Step by step, a movement director
produces a matrix of node distances, a link quality model says which node pairs are
connected, and the network backend moves bridges, tap devices and firewall rules along. A
coordinator distributes the nodes and the matrices over several emulation servers.

This project models the parts of MiniWorld that are hard to get right and proves what they are
for. It consists of Dafny 4.11 modules, one file each; `dafny verify dfyconfig.toml` checks all of
them.

| module | what it models |
|---|---|
| `Topology`, `Connections` | nodes, interfaces, matrices; the store of active and inactive connections |
| `Ebtables`, `EbtablesEvents`, `SingleDevice` | single-device backend: tap and mark allocation, bridge ports, bridge chains; the command lines that it adds to the command queue, and running them |
| `Switching`, `Simulation` | differential switching: only changed matrix entries are looked at |
| `StaticTopology`, `MultiDevice`, `MultiDeviceSimulation` | multi-device backend: one tap per potential neighbour, one bridge per pair |
| `Protocol`, `ProtocolSafety`, `ProtocolTheorems`, `ProtocolProgress`, `ProtocolFailures`, `StateMachine` | coordinator and clients over ZeroMQ as a state machine with arbitrary interleaving |
| `DistributedSwitching` | protocol and switching together |
| `MatrixDistribution` | which part of a matrix a server steps on, and the wire format |
| `Scheduler`, `ScoreScheduler`, `ScoreExchange` | distributing nodes over servers, equally or by score; the scores that the clients send |
| `Subnets`, `P2PProvisioning`, `SameSubnetProvisioning` | subnet enumeration and IP provisioning |
| `CommandQueue`, `Chunking` | the ordered command queue and its shell lines |
| `LinkQuality`, `TunnelId` | connectivity thresholds, tunnel ids |
| `Arithmetic`, `Counting`, `Folding` | division, powers of two, finite counting, and how large invariants are kept out of sight |

## Main results

* **Switching follows the latest matrix.** `Simulation.SimulationManager.Step` keeps an invariant
  over all runs: the active connections are what a rebuild from the latest distances would
  give, including the stored link quality, and nothing is ever stored as inactive. For
  matrices with one key set the active pairs are those of the latest matrix, interface by interface
  (`LinkedInterfaces`, `NoOtherLinks`); in general this holds iff no pair that dropped out of the
  matrix still had a link (`AgreesWithLatestIff`). An unchanged entry changes nothing
  (`RepeatedMatrixKeepsLinks`), not even the initial quality that it still carries (`QualityOfRun`).
* **Layer 2 follows the links.** After each step the bridge chains hold one accept rule per
  direction of every active connection and no other rule, tap by tap (`ChainsHoldLinks`); a frame
  passes iff a connection links the two taps and both are on its bridge. What the backend adds to the command queue always
  matches its plan, and the event order makes every order inside an event run without failure.
* **Barriers and lockstep.** In every interleaving no client passes a phase before all entered it,
  no message is rejected, registration is a bijection that the configs respect, and clients apply
  the matrices in order and within one step of each other. Once all clients are done with a step,
  together they have exactly the links that one server with all nodes would have.
* **When the coordinator's step returns.** A client whose server has no part in a matrix fails, and
  then the next barrier is never complete. Every run of a round is bounded
  (`EveryRoundEnds`), and whether it ends with the coordinator waiting for the next step does not
  depend on the interleaving: it does iff every server holds an endpoint of some entry of each
  matrix that must have been stepped on, which in publish-subscribe mode includes the current
  matrix and in request-reply mode ends with the one before (`StepReturnsIff`,
  `NextStepReturnsIff`). Under this condition no reachable state is stuck (`NoDeadlock`). With more
  servers than nodes the first or the second step never returns (`FewNodesNeverStep`).
* **One tap is always free.** When a pair of the CORE topologies is linked for the first time, both
  nodes have an unused tap (a counting argument), exactly one connection is created, and no tap
  is ever on two bridges. The switching law fails in this mode: a link that returns is refused.
  `ActiveFollowsLatestIff` says exactly when it still holds.
* **The scheduler partitions the nodes**, fairly and within memory, by the scores that the hosts have
  sent (`DistributeByHostScores`); **all distribution modes agree**; **subnets are partitioned**, and addresses are unique (with the exact condition where the
  code's own assumption is not met); **the command list does not depend on the order of adding**;
  **connectivity has a threshold**; **tunnel ids are a bijection**.

## Where the code differs from its documentation

* `change_connection_state` says that it raises `UnknownConnection`. For an unknown connection the
  lookup returns `None`, and `None.items()` fails before the check. The model reports the
  unknown connection without saying how it is raised. The write into the other store hits a
  missing key and the error is swallowed, so a downed link leaves both stores; the branch that
  reactivates inactive connections is dead.
* In multi-device mode the book keeper never forgets a pair, so a pair that went down stays down.
* `get_one_shell_call_commands` aims at lines of at most 131072 characters. A line can be longer,
  even if every command would fit on a line of its own (`LineCanBeTooLong`, `LinesFitIff`).
* The same-subnet provisioner assumes that all nodes have the same interfaces. Otherwise two nodes
  can get one address (`DifferentCountsCollide`, `CollisionIff`).
* `LinkQualityModelWiFiLinear` connects the "unlimited" distance -1 (`UnlimitedDistance`).
* The equal strategy keys its quotas by node ids and reads them by server ids; the model does the same.
* A distributed client has no movement director, although `is_movement_director_enabled` says
  that it is enabled in distributed mode. Its `step` on an empty local matrix asks the missing
  director for another one and fails, so the client leaves its loop and the coordinator waits for
  it for ever. The equal strategy with two nodes and three servers is enough
  (`EqualStrategyHangs`).
* The subnet generator recurses without yielding anything if the base network is not larger than
  the wanted subnets, a single address excepted (`GeneratorEndsIff`); the provisioners are modelled
  for a shorter base prefix.

## Model

| member | source | states |
|---|---|---|
| `Connections.Without` | miniworld/model/network/connections/ConnectionStore.py:323-352 | deleting an interface pair removes exactly it, and the node entry once it is empty |
| `Connections.ConnectionStore.AddConnection` | miniworld/model/network/connections/ConnectionStore.py:194-217 | the connection is in the chosen store with its quality, everything else is unchanged |
| `Connections.ConnectionStore.GetConnectionsForNodesImplicit` | miniworld/model/network/connections/ConnectionStore.py:254-281 | finds a connection in the active store first, then in the inactive one |
| `Connections.ConnectionStore.ChangeConnectionState` | miniworld/model/network/connections/ConnectionStore.py:283-352 | the connection leaves its store, and arrives in the other one only if that has an entry for the node pair already |
| `Connections.ConnectionStore.UpdateLinkQuality` | miniworld/model/network/connections/ConnectionStore.py:410-445 | the quality of the one stored connection changes, in whichever store it is |
| `Ebtables.WithLinkKeepsNames` | miniworld/model/network/backends/bridged/NetworkBackendBridged.py:180-207 | allocating taps and a mark keeps all names distinct and never changes an earlier one |
| `Ebtables.RuleIdentifiesConnection` | miniworld/model/network/backends/bridged/singledevice/ConnectionEbtables.py:62-77 | a rule determines its connection and direction, and a mark determines the tap pair |
| `Ebtables.NamesAreStable` | miniworld/model/network/backends/bridged/singledevice/ConnectionEbtables.py:69-77 | taps, marks and rules of a connection never change over a run |
| `Ebtables.RemoveFirst` | miniworld/model/network/backends/bridged/singledevice/ConnectionEbtables.py:127-149 | deleting a rule removes one occurrence and keeps the other rules distinct |
| `Ebtables.ExecKeepsRules` | miniworld/model/network/backends/bridged/singledevice/ConnectionEbtables.py:127-149 | one applicable command succeeds and changes exactly its own rule |
| `Ebtables.RunInAnyOrder` | miniworld/model/network/backends/bridged/singledevice/NetworkBackendBridgedSingleDevice.py:33-40 | any execution order of the distinct commands of the ebtables event succeeds and gives the same rules |
| `Ebtables.ForwardMeansConnected` | miniworld/model/network/backends/bridged/singledevice/ConnectionEbtables.py:84-90 | a frame passes between two taps with a mark iff some connection of the set has that rule |
| `Ebtables.FateMeansConnected` | miniworld/model/network/backends/bridged/singledevice/NetworkBackendBridgedSingleDevice.py:105-171 | through bridge ports, redirect and chain: a frame is accepted with a mark iff a connection has its rule and both taps are on its bridge; none goes through unfiltered |
| `Ebtables.StartKeepsPorts` | miniworld/model/network/backends/bridged/singledevice/NetworkBackendBridgedSingleDevice.py:138-145 | adding both taps to the bridge plugs the connection in and moves no tap of a uniform connection |
| `Ebtables.UniformIsOnBridge` | miniworld/model/network/backends/bridged/singledevice/NetworkBackendBridgedSingleDevice.py:112-145 | if linked interfaces have equal numbers, both taps of every started connection are on its bridge |
| `Ebtables.QueuedOnce` | miniworld/management/serialization/ShellCommandSerializer.py:335-350 | a command is queued once, and no other command is lost |
| `Ebtables.QueueingKeepsValid` | miniworld/model/network/backends/bridged/Connection.py:202-239 | queueing both directions of one more connection keeps the invariant of the backend |
| `Ebtables.RunningTheQueue` | miniworld/management/serialization/ShellCommandSerializer.py:201-228 | in whatever order the queue runs, no command fails, and then the rules are those of the planned connections |
| `SingleDevice.SingleDeviceBackend.GetTapName` | miniworld/model/network/backends/bridged/NetworkBackendBridged.py:180-207 | the old tap number of the interface, or the next one of the node |
| `SingleDevice.SingleDeviceBackend.GetConnectionId` | miniworld/model/network/backends/bridged/singledevice/ConnectionEbtables.py:62-77 | one mark per unordered tap pair: the old one or the next one |
| `SingleDevice.SingleDeviceBackend.BeforeLinkInitialStart` | miniworld/model/network/backends/bridged/singledevice/NetworkBackendBridgedSingleDevice.py:105-171 | always accepts; the first link on a bridge queues its chain and its redirect; both taps become ports of the bridge |
| `SingleDevice.SingleDeviceBackend.CreateBridge` | miniworld/model/network/backends/bridged/singledevice/NetworkBackendBridgedSingleDevice.py:114-129 | exactly one more bridge; its chain and its redirect are added to their events of the command queue |
| `SingleDevice.SingleDeviceBackend.TapLinkUp` | miniworld/model/network/backends/bridged/singledevice/ConnectionEbtables.py:84-90 | adds the insertion or deletion of the marked accept rule of one direction to the event of the rule commands |
| `SingleDevice.SingleDeviceBackend.SetConnectionState` | miniworld/model/network/backends/bridged/Connection.py:202-239 | both directions are planned and no others, and the invariant stays |
| `SingleDevice.SingleDeviceBackend.QueueBothDirections` | miniworld/model/network/backends/bridged/Connection.py:232-239 | both rules of the connection are queued, once each |
| `SingleDevice.SingleDeviceBackend.RunCommands` | miniworld/model/network/backends/bridged/singledevice/NetworkBackendBridgedSingleDevice.py:173-211 | after the queue ran, the installed connections are the old ones plus the planned ups minus the planned downs |
| `SingleDevice.SingleDeviceBackend.GetSerializedCommands` | miniworld/management/serialization/ShellCommandSerializer.py:172-184 | the serialized commands of the backend run without failure and install what was planned |
| `SingleDevice.RunEvents` | miniworld/management/serialization/ShellCommandSerializer.py:201-228 | running event by event, in an arbitrary order inside each event, creates every chain with one redirect and reaches the planned rules |
| `EbtablesEvents.RecordChain` | miniworld/model/network/backends/bridged/singledevice/NetworkBackendBridgedSingleDevice.py:117-125 | adding a chain and its redirect keeps the queue in step with the new bridges |
| `EbtablesEvents.RecordRule` | miniworld/model/network/backends/bridged/singledevice/NetworkBackendBridgedSingleDevice.py:50-53 | adding a rule command keeps the queue in step with the planned rules |
| `EbtablesEvents.BlocksInOrder` | miniworld/model/network/backends/bridged/singledevice/NetworkBackendBridgedSingleDevice.py:33-40 | with the event order of the backend the group is init, chains, redirects, rules, finish, in this order |
| `EbtablesEvents.EventOrderStays` | miniworld/model/network/backends/bridged/singledevice/NetworkBackendBridgedSingleDevice.py:55-58 | once set, the order stays whatever is added |
| `EbtablesEvents.EventsRun` | miniworld/model/network/backends/bridged/singledevice/NetworkBackendBridgedSingleDevice.py:33-40 | in any order inside the events no command line fails, and then the planned rules are installed and every chain has one redirect |
| `EbtablesEvents.SerializedCommandsRun` | miniworld/management/serialization/ShellCommandSerializer.py:172-184 | the same for the serialized list of any log that is in step with the backend, which every call of the backend keeps |
| `EbtablesEvents.RuleBeforeChainFails` | miniworld/model/network/backends/bridged/singledevice/NetworkBackendBridgedSingleDevice.py:33-40 | a rule line before the line that creates its chain fails, and succeeds after it |
| `Switching.SwitchedIsRebuilt` | miniworld/management/SimulationManager.py:705-710 | switching only the changed pairs leads to the store that a rebuild over the whole run would give |
| `Switching.SameKeysMeansLatest` | miniworld/management/SimulationManager.py:615-640 | with one key set, the latest distances of a run are its latest matrix |
| `Switching.AgreesWithLatestIff` | miniworld/management/SimulationManager.py:615-640 | the active pairs are those of the latest matrix iff no pair that dropped out of it still had a link |
| `Switching.RepeatedMatrixKeepsLinks` | miniworld/management/SimulationManager.py:615-640 | a step with the matrix of the step before changes no link and no quality |
| `Switching.QualityOfRun` | miniworld/management/SimulationManager.py:931-947 | value by value: the model decides, and the initial quality fills in the rest iff no later entry of the pair differs from the matrix before |
| `Simulation.SimulationManager.GetDistanceMatrixDiff` | miniworld/management/SimulationManager.py:615-640 | exactly the entries that the remembered matrix does not have with this distance; the new matrix is remembered |
| `Simulation.SimulationManager.LinkInitialStart` | miniworld/management/network/manager/NetworkManager.py:273-341 | the link is stored as active and planned in the backend |
| `Simulation.SimulationManager.LinkDown` | miniworld/management/network/manager/NetworkManager.py:343-353 | the link leaves the store and its removal is planned in the backend |
| `Simulation.SimulationManager.ConnectInterfaces` | miniworld/management/SimulationManager.py:871-904 | an offered pair is connected iff the model says so, it is linkable and it is not connected yet |
| `Simulation.SimulationManager.StepNoConnectionYet` | miniworld/management/SimulationManager.py:823-912 | a pair to be connected ends up linked over exactly the i-th normal interfaces of both nodes that have the same kind, neither hub nor management |
| `Simulation.SimulationManager.StepConnection` | miniworld/management/SimulationManager.py:915-980 | an active pair gets its new quality on all links, or loses all of them; the reactivating branch is unreachable |
| `Simulation.SimulationManager.AdjustLinkQuality` | miniworld/management/SimulationManager.py:931-947 | all connections of the pair have the new quality and nothing else changes |
| `Simulation.SimulationManager.LinksDown` | miniworld/management/SimulationManager.py:949-966 | all connections of the pair leave the store |
| `Simulation.SimulationManager.StepInner` | miniworld/management/SimulationManager.py:765-821 | the pair has exactly the link that its new distance asks for, all other pairs keep theirs |
| `Simulation.SimulationManager.SwitchChanged` | miniworld/management/SimulationManager.py:705-710 | every changed pair of the upper triangle is switched, in any order of the entries |
| `Simulation.SimulationManager.Step` | miniworld/management/SimulationManager.py:642-729 | for every run: active store equal to the rebuild, empty inactive store, installed rules equal to the active connections |
| `Simulation.SimulationManager.ActiveFollowsLatest` | miniworld/management/SimulationManager.py:615-980 | with one key set, the active store holds exactly the offered pairs that the latest matrix connects |
| `Simulation.SimulationManager.LinkedInterfaces` | miniworld/model/network/backends/InterfaceFilter.py:32-39 | with one key set, a pair that the latest matrix connects is linked at every position at which the normal interfaces have the same kind, neither hub nor management |
| `Simulation.SimulationManager.NoOtherLinks` | miniworld/management/SimulationManager.py:615-980 | no other pair has a link |
| `Simulation.SimulationManager.StoredQuality` | miniworld/management/SimulationManager.py:931-947 | every stored connection of a pair has the quality of the run |
| `Simulation.SimulationManager.ChainsHoldLinks` | miniworld/model/network/backends/bridged/singledevice/ConnectionEbtables.py:84-90 | tap by tap: the chain of the first interface's number holds one rule each way with the mark of the tap pair, for every active connection and nothing else |
| `Topology.NormalAppends` | miniworld/model/network/interface/Interfaces.py:106-107 | the normal interfaces are those of five kinds, in host order, none lost or repeated |
| `Topology.WantedIff` | miniworld/model/network/backends/InterfaceFilter.py:32-39 | a link consists of the interfaces at equal positions, for every position |
| `Simulation.SimulationManager.FramesFollowLinks` | miniworld/model/network/backends/bridged/singledevice/NetworkBackendBridgedSingleDevice.py:105-171 | after every step a frame is accepted iff an active connection with both taps on its bridge allows it, which on uniform nodes is every active connection |
| `Simulation.SameInterfacesAreUniform` | miniworld/model/network/backends/InterfaceFilter.py:21-39 | nodes with the same interfaces link only interfaces with equal numbers |
| `Simulation.SimulationManager.Layer2FollowsLinks` | miniworld/model/network/backends/bridged/singledevice/ConnectionEbtables.py:84-149 | one accept rule per direction of each active connection and no other; frames pass iff linked |
| `StaticTopology.ToFullyStaffedMatrix` | miniworld/util/DictUtil.py:23-45 | the symmetric closure, no more and no less |
| `StaticTopology.NetworkBackendStatic.GetAllConnections` | miniworld/model/network/backends/NetworkBackendStatic.py:30-60 | two nodes are adjacent iff some topology connects them; computed once |
| `StaticTopology.Factory` | miniworld/model/network/interface/Interfaces.py:67-94 | the k-th interface of a kind gets number k |
| `StaticTopology.FactoryNumbers` | miniworld/model/network/interface/Interfaces.py:67-94 | the numbers of a kind are exactly 1 up to its count |
| `StaticTopology.AdjustInterfacesToNumberOfLinks` | miniworld/model/network/backends/bridged/EmulationNodeNetworkBackendBridgedMultiDevice.py:17-39 | of every kind exactly as many interfaces as it is listed times the number of neighbours, hub and management ones once per listing, numbered from 1 |
| `StaticTopology.ExpandedAppends` | miniworld/model/network/backends/bridged/EmulationNodeNetworkBackendBridgedMultiDevice.py:17-39 | the interfaces of a listed kind stand together, behind those of the kinds listed before |
| `MultiDevice.AdjustedIsEquipped` | miniworld/model/network/backends/bridged/EmulationNodeNetworkBackendBridgedMultiDevice.py:31-39 | hence it has as many taps of every such kind as neighbours |
| `MultiDevice.NoTapOnTwoBridges` | miniworld/model/network/backends/bridged/ConnectionBookKeeper.py:82-102 | a tap belongs to one bridge |
| `MultiDevice.NewBridgeKeepsValid` | miniworld/model/network/backends/bridged/multidevice/NetworkBackendBridgedMultiDevice.py:99-121 | a bridge for a new pair over two unused taps keeps the book valid |
| `MultiDevice.UnusedTap` | miniworld/model/network/backends/bridged/EmulationNodeNetworkBackendBridgedMultiDevice.py:31-39 | a node with an unlinked neighbour has an unused tap of every kind |
| `MultiDevice.FreePair` | miniworld/model/network/backends/bridged/ConnectionBookKeeper.py:58-80 | both nodes of an unlinked pair have unused taps of each common kind |
| `MultiDeviceSimulation.ConnectionBookKeeper.RememberBidirectionalConnection` | miniworld/model/network/backends/bridged/ConnectionBookKeeper.py:82-102 | the pair and both taps are remembered, nothing else |
| `MultiDeviceSimulation.NetworkBackendBridgedMultiDevice.CreateConnection` | miniworld/model/network/backends/bridged/multidevice/NetworkBackendBridgedMultiDevice.py:52-121 | refused iff the pair has a bridge or a tap is in use; fails iff a node id is beyond 100000; otherwise one bridge with both taps |
| `MultiDeviceSimulation.AllInterfaces` | miniworld/model/network/backends/InterfaceFilter.py:46-53 | exactly the pairs of an interface of each node, row by row |
| `MultiDeviceSimulation.CanConnectIff` | miniworld/model/network/backends/bridged/ConnectionBookKeeper.py:58-80 | the nodes of a pair of the topologies that was never linked have unused taps of a common kind iff they have a common kind |
| `MultiDeviceSimulation.MultiDeviceManager.ConnectInterfaces` | miniworld/management/SimulationManager.py:871-904 | connects an eligible interface pair and leaves everything else alone |
| `MultiDeviceSimulation.MultiDeviceManager.StepNoConnectionYet` | miniworld/management/SimulationManager.py:823-904 | the scan creates exactly one connection if the pair was never linked and has unused taps of a common kind, and none otherwise; it is the first eligible one, row by row |
| `MultiDeviceSimulation.MultiDeviceManager.LinksDown` | miniworld/management/SimulationManager.py:949-966 | the connection of the pair leaves the store |
| `MultiDeviceSimulation.MultiDeviceManager.StepInner` | miniworld/management/SimulationManager.py:765-821 | the pair moves from unlinked to linked to lost as its distance says; no other pair moves and no bridge changes |
| `MultiDeviceSimulation.MultiDeviceManager.SwitchChanged` | miniworld/management/SimulationManager.py:705-710 | if only pairs of the topologies are linked, all changed pairs move on, and it fails iff one of them needs a bridge name that is too long |
| `MultiDeviceSimulation.MultiDeviceManager.Step` | miniworld/management/SimulationManager.py:642-729 | the bridges are valid for any matrix; over every run within the topologies the active pairs are those that were linked and never went down |
| `MultiDeviceSimulation.PhaseOfRun` | miniworld/model/network/backends/bridged/ConnectionBookKeeper.py:74-80 | for any run and pair: unlinked iff never connected or not linkable, lost iff connected and later unconnected, linked otherwise |
| `MultiDeviceSimulation.LinkedIff` | miniworld/model/network/backends/bridged/ConnectionBookKeeper.py:74-80 | a pair is active iff it is linkable and some matrix connects it first and no later one disconnects it |
| `MultiDeviceSimulation.FollowsLatestIff` | miniworld/model/network/backends/bridged/ConnectionBookKeeper.py:74-80 | for any run and pair, the exact condition under which the pair is active iff the latest matrix connects it |
| `MultiDeviceSimulation.MultiDeviceManager.ActiveFollowsLatestIff` | miniworld/model/network/backends/bridged/ConnectionBookKeeper.py:74-80 | the active pairs are those of the latest matrix iff no pair deviates |
| `MultiDeviceSimulation.ReturningLinkIsRefused` | miniworld/model/network/backends/bridged/ConnectionBookKeeper.py:74-80 | near, far, near again: the link stays down |
| `MultiDeviceSimulation.EquipNodes` | miniworld/model/network/backends/bridged/EmulationNodeNetworkBackendBridgedMultiDevice.py:11-39 | every node of the scenario has its taps for the union of the topologies |
| `ProtocolSafety.RegistrationIsBijection` | miniworld/rpc/zeromq/StateMachine.py:269-288 | the ids given out are a bijection of the clients onto 1..n |
| `ProtocolSafety.IdAddressesInOrder` | miniworld/rpc/zeromq/StateMachine.py:191-199 | with different ids nobody is dropped from the dictionary of addresses |
| `ProtocolSafety.ResponsesFit` | miniworld/rpc/zeromq/ZeroMQProtoServer.py:149-221 | every client of a full round is answered once, with the reply that its id is due |
| `ProtocolSafety.FullRound` | miniworld/rpc/zeromq/StateMachine.py:83-106 | when the expecter is done, every client waits and its own request is stored |
| `ProtocolSafety.ActionKeepsInv` | miniworld/rpc/zeromq/ZeroMQProtoServer.py:109-221 | every action of server and clients keeps the protocol invariant |
| `ProtocolSafety.RunKeepsInv` | miniworld/rpc/zeromq/ZeroMQProtoClient.py:175-234 | so does every run |
| `ProtocolTheorems.BarrierHolds` | miniworld/rpc/zeromq/StateMachine.py:83-106 | nobody has more replies than any other client has sent requests |
| `ProtocolTheorems.ExpecterCollectsAll` | miniworld/rpc/zeromq/StateMachine.py:83-131 | no message is ever rejected, and a finished expecter holds one message of each client for the current phase |
| `ProtocolTheorems.MessagesOfPhase` | miniworld/rpc/zeromq/ZeroMQProtoClient.py:189-228 | a finished expecter holds from every client the message of the phase, part by part; in the exchange its id, tunnel address, CPU and free memory of its own host |
| `ProtocolTheorems.PubSubLockstep` | miniworld/rpc/zeromq/ZeroMQProtoServer.py:339-346 | when a step returned, every client has applied its part of exactly all matrices so far, in order |
| `ProtocolTheorems.PubSubWithinOne` | miniworld/rpc/zeromq/ZeroMQProtoClient.py:359-424 | at any time clients differ by at most one matrix |
| `ProtocolTheorems.ReqReplyLockstep` | miniworld/rpc/zeromq/ZeroMQProtoServer.py:269-289 | when step k returned, every client has applied at least 0..k-1 and at most 0..k |
| `ProtocolTheorems.ReqReplySettles` | miniworld/rpc/zeromq/ZeroMQProtoClient.py:259-271 | once the clients have come to rest, each has applied all matrices, or failed, which it did iff its part of the last one is empty |
| `ProtocolTheorems.ConfigMatchesId` | miniworld/rpc/zeromq/ZeroMQProtoServer.py:149-195 | ids are unique in 1..n and a client gets the config made for its id |
| `ProtocolTheorems.EveryNodeStartsOnce` | miniworld/rpc/zeromq/ZeroMQProtoServer.py:163-195 | once all have their config, every node is started by exactly one client |
| `ProtocolTheorems.NoDeadlock` | miniworld/rpc/zeromq/ZeroMQProtoServer.py:109-221 | while every server takes part in the matrices to be stepped on, a round or publication under way has an enabled action |
| `ProtocolTheorems.FailedHasNoPart` | miniworld/management/SimulationManager.py:676-680 | if the server waits and a client has failed, then some server has no part in one of these matrices |
| `ProtocolTheorems.WaitingMeansStepped` | miniworld/rpc/zeromq/StateMachine.py:83-106 | when a step has returned, every server took part in all of them |
| `ProtocolProgress.RankFalls` | miniworld/rpc/zeromq/ZeroMQProtoServer.py:109-221 | every action except the beginning of a phase or step uses up part of the work that is left |
| `ProtocolProgress.QuietRunsAreShort` | miniworld/rpc/zeromq/ZeroMQProtoServer.py:223-232 | a run in which nothing new begins is no longer than the work that was left |
| `ProtocolProgress.EveryRoundEnds` | miniworld/rpc/zeromq/ZeroMQProtoServer.py:223-232 | at most 30 actions per client and 5 more; a run that cannot go on has finished the round iff every server takes part, and otherwise the server waits for a failed client and no action is possible |
| `ProtocolProgress.StepReturnsIff` | miniworld/rpc/zeromq/ZeroMQProtoServer.py:223-232 | if every server takes part, all interleavings finish the round, otherwise none does |
| `ProtocolProgress.NextStepReturnsIff` | miniworld/management/SimulationManager.py:1194-1246 | before a step: it returns iff every server holds an endpoint of its matrix (publish-subscribe) or of the matrix before (request-reply) |
| `ProtocolFailures.FewNodesLeaveEmpty` | miniworld/management/NodeDistributionStrategy.py:59-98 | with more servers than nodes every distribution leaves a server without nodes |
| `ProtocolFailures.FewNodesNeverStep` | miniworld/management/SimulationManager.py:676-680 | then over all runs no publish-subscribe step ever returns, and at most one request-reply step |
| `ProtocolFailures.EmptyServerHangs` | miniworld/management/SimulationManager.py:676-680 | whenever a server gets no node, a state is reached in which the coordinator waits and nobody can do anything |
| `ProtocolFailures.EqualStrategyHangs` | miniworld/management/NodeDistributionStrategy.py:59-106 | the equal strategy with nodes 1 and 2 on three servers leads there, for every matrix and in every mode |
| `DistributedSwitching.LinksOfParts` | miniworld/management/SimulationManager.py:1091-1113 | stepping on the parts of a server gives exactly the links of the whole run that touch its nodes, with the same quality |
| `DistributedSwitching.ClientHasItsLinks` | miniworld/rpc/zeromq/ZeroMQProtoClient.py:359-424 | after a publish-subscribe step every client has the links of the whole network that touch its nodes |
| `DistributedSwitching.ReqReplyClientHasItsLinks` | miniworld/rpc/zeromq/ZeroMQProtoClient.py:259-271 | after request-reply step k a client has its links of the network after step k or k-1 |
| `DistributedSwitching.ReqReplyLinksSettle` | miniworld/rpc/zeromq/ZeroMQProtoClient.py:259-271 | once the clients rest, a client has its links of step k, unless its part of the last matrix is empty: then it has failed with those of step k-1 |
| `DistributedSwitching.ClientsHaveAllLinks` | miniworld/rpc/zeromq/ZeroMQProtoServer.py:269-346 | a pair of scheduled nodes is linked in the whole network iff some client has the link: after every publish-subscribe step, and after a request-reply step once the clients rest and none has failed |
| `StateMachine.Expecter.ExpectOne` | miniworld/rpc/zeromq/StateMachine.py:108-131 | a message counts iff its state and its number of parts are those of the phase, written out phase by phase |
| `StateMachine.Expecter.ExpectForAll` | miniworld/rpc/zeromq/StateMachine.py:83-106 | reads until one valid message per peer is there, like the state machine does |
| `StateMachine.RespondServerIds` | miniworld/rpc/zeromq/StateMachine.py:269-288 | ids in the order of registration, and the address of each id |
| `StateMachine.RespondPerServerId` | miniworld/rpc/zeromq/StateMachine.py:305-320 | one response per server id, taken from the given dictionary, to the address that sent the id last |
| `StateMachine.LastAddressWins` | miniworld/rpc/zeromq/StateMachine.py:191-199 | the dictionary has the address of the last message with an id |
| `StateMachine.CreateScenarioConfigs` | miniworld/management/SimulationManager.py:1155-1173 | one object per server; each copy keeps its own id while the shared config goes on changing |
| `StateMachine.HandleInformationExchange` | miniworld/rpc/zeromq/ZeroMQProtoServer.py:163-195 | the responses are those of the protocol model: every client gets the config made for its id |
| `StateMachine.HandleDistanceMatrix` | miniworld/rpc/zeromq/ZeroMQProtoServer.py:269-289 | so are the matrices that a step sends, whole or per server |
| `MatrixDistribution.GetServerForNode` | miniworld/management/SimulationManager.py:1004-1007 | a server of the node, or none iff nobody has it |
| `MatrixDistribution.MapDistanceMatrixToServers` | miniworld/management/SimulationManager.py:1024-1056 | the whole matrix for everybody, or for each server its entries only |
| `MatrixDistribution.GetLocalDistanceMatrix` | miniworld/management/SimulationManager.py:1091-1113 | exactly the entries with an endpoint on the server |
| `MatrixDistribution.ModesAgree` | miniworld/rpc/zeromq/ZeroMQProtoClient.py:263-282 | the protocol model's payloads lead to one matrix in all modes; no entry is lost iff every entry has a served endpoint |
| `MatrixDistribution.TransformDistanceMatrix` | miniworld/model/collections/DistanceMatrix.py:6-20 | the wire form lists every entry once and nothing else |
| `MatrixDistribution.DetransformDistanceMatrix` | miniworld/model/collections/DistanceMatrix.py:23-38 | reads every entry back, a later one wins |
| `MatrixDistribution.LastEntryWins` | miniworld/model/collections/DistanceMatrix.py:23-38 | the last list entry for a pair decides |
| `MatrixDistribution.WireRoundTrip` | miniworld/model/collections/DistanceMatrix.py:6-38 | transform then detransform is the identity |
| `MatrixDistribution.Deliver` | miniworld/rpc/zeromq/ZeroMQProtoClient.py:341-349 | through filters and wire format of any mode, a client steps on its part |
| `Scheduler.ApplyDistributionStrategy` | miniworld/management/NodeDistributionStrategy.py:36-98 | terminates with an entry for each server: its slice and its round-robin share |
| `Scheduler.DealRemaining` | miniworld/management/NodeDistributionStrategy.py:86-96 | the endless loop ends, and everything left is dealt in turn |
| `Scheduler.SharesDistribute` | miniworld/management/NodeDistributionStrategy.py:59-98 | whatever the quotas, every node is distributed as often as it is listed |
| `Scheduler.SliceHoldsNode` | miniworld/management/NodeDistributionStrategy.py:74-84 | servers 1, 2, ... take their quotas from the front of the list: which node stands where |
| `Scheduler.RestHoldsNode` | miniworld/management/NodeDistributionStrategy.py:86-96 | in round q of the dealing the i-th server of the order gets the i-th node of the round, behind its slice |
| `Scheduler.DistributionIsPartition` | miniworld/management/NodeDistributionStrategy.py:59-98 | every listed node has exactly one server |
| `Scheduler.DistributeAndDeliver` | miniworld/management/SimulationManager.py:1024-1056 | scheduler, filters and wire format together: each server steps on its part, and the parts of all servers are the whole matrix, in every mode |
| `Scheduler.DealtIsFair` | miniworld/management/NodeDistributionStrategy.py:86-96 | dealt shares differ by at most one, earlier servers first |
| `Scheduler.DistributeEqually` | miniworld/management/NodeDistributionStrategy.py:104-106 | for nodes 1..n a server has as many nodes as a later one, or one more |
| `ScoreScheduler.CapQuota` | miniworld/management/NodeDistributionStrategy.py:133-149 | the largest count c that fits the free memory and for which c-1 is less than the exact CPU share |
| `ScoreScheduler.RankByCpu` | miniworld/management/NodeDistributionStrategy.py:124-124 | every server once, best CPU first |
| `ScoreScheduler.ComputeQuotas` | miniworld/management/NodeDistributionStrategy.py:126-151 | every server has such a quota |
| `ScoreScheduler.DistributeByScore` | miniworld/management/NodeDistributionStrategy.py:111-155 | a partition; the ranking lists each server once; within memory if the quotas suffice, otherwise quota plus a fair part of the overflow, best CPU first |
| `ScoreScheduler.UncappedQuotasSuffice` | miniworld/management/NodeDistributionStrategy.py:132-137 | rounded shares cover all n nodes, with less than n plus the number of servers in all |
| `ScoreScheduler.AmpleMemoryKeepsShare` | miniworld/management/NodeDistributionStrategy.py:132-148 | a server whose memory holds one more node than its quota has its rounded share |
| `ScoreExchange.GetServerScores` | miniworld/rpc/zeromq/StateMachine.py:156-169 | the score of each server id, the last message wins |
| `ScoreExchange.ReadScores` | miniworld/rpc/zeromq/ZeroMQProtoServer.py:170-175 | after the exchange the coordinator has the score of every host under the id of its client |
| `ScoreExchange.DistributeByHostScores` | miniworld/rpc/zeromq/ZeroMQProtoServer.py:163-195 | the score strategy works on these scores, and its distribution is one that the exchange can answer with |
| `Subnets.GeneratorYieldsBlocks` | miniworld/util/NetUtil.py:31-57 | recursive splitting yields the 2^(p-b) consecutive blocks in ascending order |
| `Subnets.GeneratorAddress` | miniworld/util/NetUtil.py:51-57 | element k begins k times 2^(32-p) addresses behind the base, and there are 2^(p-b) elements |
| `Subnets.GeneratorCovers` | miniworld/util/NetUtil.py:51-57 | for an aligned base an address lies in some element iff it has the network part of the base |
| `Subnets.ElementsAreDisjoint` | miniworld/util/NetUtil.py:51-57 | and in no two elements |
| `Subnets.GeneratorEndsIff` | miniworld/util/NetUtil.py:31-57 | the generator ends, at any depth of recursion, iff the base prefix is shorter than p or base and subnet are one single address |
| `Subnets.TooSmallGoesOn` | miniworld/util/NetUtil.py:51-57 | a network smaller than the wanted subnets yields nothing at any depth |
| `Subnets.Generator` | miniworld/management/network/manager/provisioner/NetworkConfigurator.py:86-87 | element k of the generator is block k of the base network |
| `P2PProvisioning.NetworkConfiguratorP2P.constructor` | miniworld/management/network/manager/provisioner/NetworkConfiguratorP2P.py:25-29 | no subnet is used yet, and subnets come from the recursive enumeration of the base network |
| `SameSubnetProvisioning.NetworkConfiguratorSameSubnet.constructor` | miniworld/management/network/manager/provisioner/NetworkConfiguratorSameSubnet.py:33-39 | the same for the same-subnet provisioner |
| `Subnets.SplittingGivesBlocks` | miniworld/util/NetUtil.py:51-57 | the same for a single network of any shorter or equal prefix |
| `Subnets.BlocksPartition` | miniworld/management/network/manager/provisioner/NetworkConfigurator.py:87-87 | an address of the base network lies in exactly the block of its quotient |
| `Subnets.CoveredByBlock` | miniworld/util/NetUtil.py:51-57 | the blocks cover the base network |
| `Subnets.BlocksDisjoint` | miniworld/util/NetUtil.py:51-57 | different blocks share no address |
| `P2PProvisioning.NetworkConfiguratorP2P.ConfigureConnection` | miniworld/management/network/manager/provisioner/NetworkConfiguratorP2P.py:41-96 | a new subnet and host 1 for the first call of a pair, host 2 for later ones, with both failures |
| `P2PProvisioning.NetworkConfiguratorP2P.ConfigureBothDirections` | miniworld/management/network/manager/provisioner/NetworkConfiguratorP2P.py:41-91 | both ends share a subnet, and their addresses differ iff the pair is new |
| `P2PProvisioning.NetworkConfiguratorP2P.ConfigureAll` | miniworld/management/network/manager/provisioner/NetworkConfiguratorConnectionBased.py:32-54 | sorted by node ids every connection is handled in both directions; succeeds iff there are subnets enough |
| `P2PProvisioning.NetworkConfiguratorP2P.GetNicConfigurationCommands` | miniworld/management/network/manager/provisioner/NetworkConfiguratorConnectionBased.py:12-54 | of every connection the smaller id gets the first host for its own interface and the greater id the second one for its own, each pings the address of the other, and subnets ascend with the sorted pairs |
| `P2PProvisioning.NoAddressTwice` | miniworld/management/network/manager/provisioner/NetworkConfiguratorP2P.py:34-96 | over any run no address is issued twice and the address ranges of different pairs do not meet |
| `SameSubnetProvisioning.NetworkConfiguratorSameSubnet.GetSubnet` | miniworld/management/network/manager/provisioner/NetworkConfiguratorSameSubnet.py:41-61 | the remembered subnet of the interface or the next block, none iff all are used |
| `SameSubnetProvisioning.NetworkConfiguratorSameSubnet.ConfigureInterface` | miniworld/management/network/manager/provisioner/NetworkConfiguratorSameSubnet.py:75-102 | the address that node id and subnet determine, whether remembered or new |
| `SameSubnetProvisioning.NetworkConfiguratorSameSubnet.ConfigureConnection` | miniworld/management/network/manager/provisioner/NetworkConfiguratorSameSubnet.py:63-106 | succeeds iff subnets and addresses suffice; the addresses of all interfaces in order |
| `SameSubnetProvisioning.NetworkConfiguratorSameSubnet.AllocateIps` | miniworld/management/network/manager/provisioner/NetworkConfiguratorConnectionLess.py:16-24 | afterwards the order of the subnets is that of the scenario, the same on every server and in every call |
| `SameSubnetProvisioning.NetworkConfiguratorSameSubnet.GetNicConfigurationCommands` | miniworld/management/network/manager/provisioner/NetworkConfiguratorConnectionLess.py:26-66 | whatever the local nodes, and in every call, each gets the addresses that the scenario determines |
| `SameSubnetProvisioning.AddressIsHost` | miniworld/management/network/manager/provisioner/NetworkConfiguratorSameSubnet.py:108-113 | every address is inside its subnet and not the network address |
| `SameSubnetProvisioning.AddressAsNumber` | miniworld/management/network/manager/provisioner/NetworkConfiguratorSameSubnet.py:75-113 | base plus subnet number times 2^(32-p) plus node id times the number of interfaces of the type |
| `SameSubnetProvisioning.EarlierTakesFirst` | miniworld/management/network/manager/provisioner/NetworkConfiguratorConnectionLess.py:16-24 | interfaces take their subnets in the order in which nodes 1, 2, ... first have them |
| `SameSubnetProvisioning.CollisionIff` | miniworld/management/network/manager/provisioner/NetworkConfiguratorSameSubnet.py:84-92 | two addresses coincide iff the interface is the same and the host numbers are |
| `SameSubnetProvisioning.SameInterfacesNeverCollide` | miniworld/management/network/manager/provisioner/NetworkConfiguratorSameSubnet.py:84-92 | nodes with the same interfaces never share an address |
| `SameSubnetProvisioning.DifferentCountsCollide` | miniworld/management/network/manager/provisioner/NetworkConfiguratorSameSubnet.py:84-92 | two interfaces on node 1, one on node 2: one address for both |
| `CommandQueue.CommandStore.AddCommand` | miniworld/management/serialization/ShellCommandSerializer.py:335-350 | appended unless the same command line is there |
| `CommandQueue.ShellCommandSerializer.EventStore` | miniworld/management/serialization/ShellCommandSerializer.py:240-265 | an unknown event comes last in its group, a known one stays where it is |
| `CommandQueue.ShellCommandSerializer.AddCommand` | miniworld/management/serialization/ShellCommandSerializer.py:90-112 | the queue represents one more add |
| `CommandQueue.ShellCommandSerializer.AddGroup` | miniworld/management/serialization/ShellCommandSerializer.py:118-119 | a new group comes last |
| `CommandQueue.ShellCommandSerializer.SetGroupOrder` | miniworld/management/serialization/ShellCommandSerializer.py:121-129 | the given order without later duplicates |
| `CommandQueue.ShellCommandSerializer.SetEventOrder` | miniworld/management/serialization/ShellCommandSerializer.py:135-147 | the events are mentioned in the given order, no command is added |
| `CommandQueue.ShellCommandSerializer.GetAllCommands` | miniworld/management/serialization/ShellCommandSerializer.py:172-184 | by group order, then event order, each event's commands without later duplicates |
| `CommandQueue.SerializeGroup` | miniworld/management/serialization/ShellCommandSerializer.py:172-184 | a group whose event order is set first yields its commands by this order, whatever the order of adding |
| `CommandQueue.DedupKeepsOnce` | miniworld/management/serialization/ShellCommandSerializer.py:335-350 | every command stays and stays once |
| `CommandQueue.EventAppends` | miniworld/management/serialization/ShellCommandSerializer.py:335-350 | within an event a new command comes last, a known one stays where it is |
| `CommandQueue.EarlierEventFirst` | miniworld/management/serialization/ShellCommandSerializer.py:172-184 | a command of an earlier event of a group stands before one of a later event |
| `CommandQueue.EarlierGroupFirst` | miniworld/management/serialization/ShellCommandSerializer.py:172-184 | a command of an earlier group stands before one of a later group |
| `CommandQueue.SetOrderIsOrder` | miniworld/management/serialization/ShellCommandSerializer.py:135-147 | setting an order of different events makes it the order of the group |
| `CommandQueue.ReorderingKeepsCommands` | miniworld/management/serialization/ShellCommandSerializer.py:14-30 | once the event order is set, reordering adds of different events never changes the list |
| `CommandQueue.SwapIsReordering` | miniworld/management/serialization/ShellCommandSerializer.py:14-30 | swapping adds to different events anywhere is such a reordering |
| `CommandQueue.UnsetOrderMatters` | miniworld/management/serialization/ShellCommandSerializer.py:259-265 | without a set order the first add decides |
| `Chunking.ChunkIt` | miniworld/management/serialization/ShellCommandSerializer.py:300-310 | terminates with num chunks that concatenate to the whole list |
| `Chunking.GetOneShellCallCommands` | miniworld/management/serialization/ShellCommandSerializer.py:312-333 | one quoted shell call per chunk, as many as the joined length needs |
| `Chunking.JoinSplits` | miniworld/management/serialization/ShellCommandSerializer.py:326-332 | a line holds its commands in order with a separator between any two neighbours |
| `Chunking.LineBound` | miniworld/management/serialization/ShellCommandSerializer.py:320-333 | m lines of commands of length L have at most 131072 + (L+8)(1-1/m) characters |
| `Chunking.LinesFitIff` | miniworld/management/serialization/ShellCommandSerializer.py:320-333 | all lines respect the limit iff one with ceil(n/m) commands does |
| `Chunking.LineCanBeTooLong` | miniworld/management/serialization/ShellCommandSerializer.py:320-333 | three commands of 80000 characters exceed it |
| `LinkQuality.ShorterIsConnected` | miniworld/model/network/linkqualitymodels/LinkQualityModelRange.py:14-140 | connectivity is downward closed in all three models |
| `LinkQuality.FarIsUnconnected` | miniworld/model/network/linkqualitymodels/LinkQualityModelRange.py:50-140 | every model has an unconnected distance |
| `LinkQuality.LinearThreshold` | miniworld/model/network/linkqualitymodels/LinkQualityModelRange.py:50-89 | the linear model connects d iff the bandwidth is at least 500(d+1), or the minimum for d up to 1 |
| `LinkQuality.ExponentialThreshold` | miniworld/model/network/linkqualitymodels/LinkQualityModelRange.py:98-140 | the exponential model connects d iff the bandwidth is at least the minimum times 2^(d/4) |
| `LinkQuality.Precalculate` | miniworld/model/network/linkqualitymodels/LinkQualityModel.py:42-53 | its result T satisfies connected(d) iff d < T for all d; fails iff every counter value is connected |
| `LinkQuality.UnlimitedDistance` | miniworld/model/network/linkqualitymodels/LinkQualityModelRange.py:14-140 | only the linear model connects -1, namely whenever it connects 0 |
| `LinkQuality.DefaultThresholds` | miniworld/model/network/linkqualitymodels/LinkQualityModelRange.py:14-140 | with the default bandwidth the thresholds are 30, 108 and 24 |
| `TunnelId.UnpairPair` | miniworld/util/NetworkBackendUtil.py:2-21 | the node pair can be read off its tunnel id |
| `TunnelId.PairUnpair` | miniworld/util/NetworkBackendUtil.py:2-21 | every number is the id of a pair |
| `TunnelId.FitsGreKey` | miniworld/model/network/backends/bridged/iproute2/Tunnel.py:40-41 | for x < y the id fits a 32-bit GRE key (section 2.1 of RFC 2890) iff y is at most 65535 |

## Left out

- Links between servers (`connection_across_servers`, tunnels on bridges): the switching modules model local links; of the tunnels only the id is modelled.
- HubWiFi and central nodes: `pre_calculate_hubwifi_distance_matrix` subscripts a keys view and does not run under Python 3; hub and management interfaces occur only as interfaces that are never linked.
- Traffic shaping: the text of tc, netem, brctl and ip commands and pyroute2 calls, and `shaped_ifaces`, which only matters for them.
- Reset and abort paths of the ZeroMQ client and server, and timeouts: they restart the protocol.
- ZeroMQ itself: pipes are reliable and in order, and subscribers are connected before the initial sync; serialisation is left out.
- Floating point: bandwidths, CPU shares and chunk positions are exact rationals or reals; distances are integers.
- String formats: taps, bridges, chains and marks are structured values; the five digits of a bridge name appear as the limit 100000 on node ids.
- Dictionary order: loops over dictionaries and sets pick an arbitrary next element, which covers every order; "the first item" of a connection store is an arbitrary one.
- `steps` greater than one, the run loop, snapshots, event progress, RPC, QEMU and shell execution: plumbing or repetition of one step.
- Simulation.SimulationManager.Step: requires that the matrix lists existing nodes and that the second node of a pair has at least as many normal interfaces as the first, since the interface filter indexes both lists.
- Connections.ConnectionStore.GetConnectionsForNodesImplicit: returns where the connection is, not the interface dictionary next to it; where that is needed, the model reads it from the store.
- SingleDevice.SingleDeviceBackend.BeforeLinkInitialStart: a tap that is added to a second bridge moves there; on nodes whose linked interfaces have different numbers this is up to the bridge tool.
- Simulation.SimulationManager.StepInner: the branch for nodes on different servers is left out with the tunnels.
- MultiDeviceSimulation.MultiDeviceManager.StepInner: does not model link quality adjustment, which is the same as in single-device mode.
- MultiDeviceSimulation.MultiDeviceManager.LinksDown: the up and down state of the tap devices is left out.
- MultiDeviceSimulation.MultiDeviceManager.Step: says where the pairs are only for runs that connect pairs of the CORE topologies, as the director of this mode does; other pairs take taps away from the planned ones.
- MultiDeviceSimulation.MultiDeviceManager.ConnectInterfaces: taps are identified by node and interface; that tap names are unique and stable is proved in `Ebtables`.
- Scheduler.ApplyDistributionStrategy: does not model `distribute_remaining_fair=False`, which no strategy uses.
- ScoreScheduler.DistributeByScore: requires nonnegative scores with a positive CPU sum; with a sum of zero the source divides by zero, and with negative memory it counts below zero.
- P2PProvisioning.NetworkConfiguratorP2P.GetNicConfigurationCommands: models one interface pair per node pair, each pair presented once and a prefix length of at most 30; for other calls only ConfigureConnection and ConfigureBothDirections speak, and the node and interface filters, which let every pair of normal interfaces of emulation nodes through, are left out.
- SameSubnetProvisioning.NetworkConfiguratorSameSubnet.GetNicConfigurationCommands: the connection-based ping commands of `get_nic_check_commands` are left out.
- CommandQueue.ShellCommandSerializer.GetAllCommands: an unknown group yields nothing, without the empty entry that the source creates for it; names and commands are of an arbitrary type, since they are only compared.
- LinkQuality.Precalculate: the link quality values themselves (loss, delay) are left out.
