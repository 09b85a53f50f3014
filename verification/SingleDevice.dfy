/**
 The single-device backend with its command queue: what it adds to the queue, and what the queue
 makes of it.
 */
module SingleDevice {
  import opened Folding
  import opened Topology
  import opened Connections
  import opened Counting
  import opened Ebtables
  import opened EbtablesEvents
  import opened CommandQueue

  class SingleDeviceBackend {
    var names: Names
    var bridges: set<nat>
    /** The command lines that were added to the command queue since it last ran. */
    var log: Log
    /** What they are for: bridges without a chain yet, and changes of rules. */
    ghost var newChains: seq<nat>
    ghost var commands: seq<Ebtables.Command>
    /** The kernel: the bridge chains, and the redirects in the FORWARD chain. */
    var table: Table
    var forward: seq<nat>
    /** The bridge that each tap was added to. */
    var ports: Ports
    ghost var base: set<Connection>
    ghost var ups: set<Connection>
    ghost var downs: set<Connection>
    /** All connections that were ever started. */
    ghost var started: set<Connection>

    ghost function State(): View
      reads this
    {
      View(names, bridges, newChains, commands, table, base, ups, downs)
    }

    ghost predicate QueueEmpty()
      reads this
    {
      log == [] && newChains == [] && commands == [] && ups == {} && downs == {}
    }

    /** Every chain has exactly one redirect into it; folded. */
    ghost predicate Redirected()
      reads this
    {
      forall b {:trigger Unfolding(RedirectsPart, b)} :: Unfolding(RedirectsPart, b) ==>
        Distinct(forward) && Elements(forward) == table.Keys
    }

    lemma UnfoldRedirects()
      requires Redirected()
      ensures Distinct(forward) && Elements(forward) == table.Keys
    {
      assert Unfolding(RedirectsPart, true);
    }

    ghost predicate Valid()
      reads this
    {
      && State().Valid() && Redirected() && Wired(State(), ports, started)
      && Recorded(log, newChains, commands)
    }

    constructor ()
      ensures Valid() && QueueEmpty() && base == {} && started == {}
      ensures names == Names(map[], map[], map[], 1)
    {
      names := Names(map[], map[], map[], 1);
      bridges, log, newChains, commands, table, forward := {}, [], [], [], map[], [];
      base, ups, downs := {}, {}, {};
      ports, started := map[], {};
      NothingRecorded();
    }

    method GetTapName(node: nat, iface: Iface) returns (tap: Tap)
      modifies this`names
      ensures names == old(names).WithTap(node, iface) && tap == names.TapOf(node, iface)
      ensures tap.node == node && names.taps == old(names).taps[(node, iface) := tap.nr]
      ensures (node, iface) in old(names).taps ==> names == old(names)
      ensures (node, iface) !in old(names).taps ==>
                && tap.nr == (if node in old(names).nextTap then old(names).nextTap[node] else 1)
                && names.nextTap == old(names).nextTap[node := tap.nr + 1]
    {
      var shortId := if node in names.nextTap then names.nextTap[node] else 1;
      if (node, iface) !in names.taps {
        names := names.(taps := names.taps[(node, iface) := shortId],
                        nextTap := names.nextTap[node := shortId + 1]);
      }
      tap := Tap(node, names.taps[(node, iface)]);
    }

    method GetConnectionId(tapX: Tap, tapY: Tap) returns (mark: nat)
      modifies this`names
      ensures names == old(names).WithMark(Sorted(tapX, tapY)) && mark == names.MarkOf(Sorted(tapX, tapY))
      ensures (Sorted(tapX, tapY) in old(names).marks && names == old(names)) ||
              (mark == old(names).nextMark && names.nextMark == mark + 1)
    {
      if Sorted(tapX, tapY) !in names.marks {
        names := names.(marks := names.marks[Sorted(tapX, tapY) := names.nextMark],
                        nextMark := names.nextMark + 1);
      }
      mark := names.marks[Sorted(tapX, tapY)];
    }

    /** The first link on a bridge creates it: its chain and the redirect into it are queued.
        Both taps are added to the bridge. This backend accepts every link. */
    method BeforeLinkInitialStart(c: Connection) returns (connected: bool)
      requires Valid()
      modifies this`names, this`bridges, this`log, this`newChains, this`ports, this`started
      ensures Valid() && names.Extends(old(names))
      ensures connected && Chain(c) in bridges && started == old(started) + {c}
      ensures ports == WithPorts(names, old(ports), c)
    {
      CreateBridge(Chain(c));
      ghost var v := State();
      NamingTapsKeepsValid(v, c);
      StartKeepsWired(v, ports, started, c);
      AddTaps(c);
      started := started + {c};
      assert State() == v.(names := WithTaps(v.names, c));
      return true;
    }

    method AddTaps(c: Connection)
      modifies this`names, this`ports
      ensures names == WithTaps(old(names), c) && ports == WithPorts(names, old(ports), c)
    {
      var tapX := GetTapName(c.nodes.0, c.ifaces.0);
      var tapY := GetTapName(c.nodes.1, c.ifaces.1);
      assert tapX == names.TapX(c);
      ports := ports[tapX := Chain(c)][tapY := Chain(c)];
    }

    method AddShellEbtablesCommand(event: Word, shell: Shell)
      modifies this`log
      ensures log == old(log) + [Entry(event, shell)]
    {
      log := log + [((EbtablesGroup, event), Line(shell))];
    }

    method CreateBridge(br: nat)
      requires Valid()
      modifies this`bridges, this`log, this`newChains
      ensures Valid() && bridges == old(bridges) + {br}
    {
      if br !in bridges {
        ghost var v := State();
        NewChainKeepsValid(v, br);
        RecordChain(log, newChains, commands, br);
        bridges := bridges + {br};
        AddShellEbtablesCommand(CreateChains, NewChain(br));
        AddShellEbtablesCommand(RedirectEvent, Redirect(br));
        newChains := newChains + [br];
        BridgeKeepsWired(v, State(), ports, started);
      }
    }

    /** Queues the insertion or deletion of one accept rule. */
    method TapLinkUp(chain: nat, tapX: Tap, tapY: Tap, up: bool)
      requires Recorded(log, newChains, commands)
      modifies this`names, this`log, this`commands
      ensures Recorded(log, newChains, commands)
      ensures names == old(names).WithMark(Sorted(tapX, tapY))
      ensures var cmd := Ebtables.Command(up, chain, Rule(tapX, tapY, names.MarkOf(Sorted(tapX, tapY))));
              log == old(log) + [Entry(CommandsEvent, Change(cmd))] && commands == AddNew(old(commands), cmd)
    {
      var mark := GetConnectionId(tapX, tapY);
      var cmd := Ebtables.Command(up, chain, Rule(tapX, tapY, mark));
      RecordRule(log, newChains, commands, cmd);
      AddShellEbtablesCommand(CommandsEvent, Change(cmd));
      commands := AddNew(commands, cmd);
    }

    /** Brings a connection up or down, in both directions, as soon as the queue runs. */
    method SetConnectionState(c: Connection, up: bool)
      requires Valid()
      requires up ==> Oriented(c) && Chain(c) in bridges && c in started
      requires if up then c !in base && c !in ups else c in base && c !in downs
      modifies this`names, this`log, this`commands, this`ups, this`downs
      ensures Valid() && names.Extends(old(names))
      ensures ups == if up then old(ups) + {c} else old(ups)
      ensures downs == if up then old(downs) else old(downs) + {c}
    {
      ghost var v := State();
      assert c in v.base + v.ups || c in started;
      QueueingKeepsValid(v, c, up);
      QueueingKeepsWired(v, ports, started, c, up);
      Queue(c, up);
    }

    method Queue(c: Connection, up: bool)
      requires Recorded(log, newChains, commands)
      modifies this`names, this`log, this`commands, this`ups, this`downs
      ensures State() == Queued(old(State()), c, up) && Recorded(log, newChains, commands)
    {
      QueueBothDirections(c, up);
      ups := if up then ups + {c} else ups;
      downs := if up then downs else downs + {c};
    }

    method QueueBothDirections(c: Connection, up: bool)
      requires Recorded(log, newChains, commands)
      modifies this`names, this`log, this`commands
      ensures Recorded(log, newChains, commands)
      ensures names == WithLink(old(names), c)
      ensures commands == QueueBoth(old(commands), names, c, up)
    {
      var tapX := GetTapName(c.nodes.0, c.ifaces.0);
      var tapY := GetTapName(c.nodes.1, c.ifaces.1);
      assert tapX == names.TapX(c);
      TapLinkUp(Chain(c), tapX, tapY, up);
      TapLinkUp(Chain(c), tapY, tapX, up);
    }

    /** The commands of the group as the command queue serializes them. */
    method GetSerializedCommands() returns (lines: seq<Word>)
      requires Valid()
      ensures lines == OfEvents(EbtablesGroup, EVENT_ORDER, log, 5)
      ensures var r := RunLines(Kernel(table, forward), lines);
              r.Some? && Flushed(State(), r.value.table).Valid()
    {
      UnfoldLog(log, newChains, commands);
      lines := Serialize(log);
      UnfoldRedirects();
      SerializedCommandsRun(State(), Kernel(table, forward), log);
    }

    /** Runs the queue, event by event. The commands of one event run in parallel, so in any
        order. */
    method RunCommands()
      requires Valid()
      modifies this
      ensures Valid() && QueueEmpty()
      ensures base == old(base) + old(ups) - old(downs)
      ensures names == old(names) && bridges == old(bridges)
      ensures ports == old(ports) && started == old(started)
    {
      ghost var v := State();
      UnfoldRedirects();
      var k := RunEvents(v, Kernel(table, forward), log);
      table, forward := k.table, k.forward;
      log, newChains, commands := [], [], [];
      base, ups, downs := base + ups - downs, {}, {};
      assert State() == Flushed(v, table);
      BridgeKeepsWired(v.(base := base, ups := {}), State(), ports, started);
      NothingRecorded();
    }
  }

  /** The serializer of the command queue, with the event order of the backend: it returns the
      commands by this order, whatever the order in which they were added. */
  method Serialize(log: Log) returns (lines: seq<Word>)
    requires AllIn(log, Slots(EbtablesGroup, EVENT_ORDER, 5))
    ensures lines == OfEvents(EbtablesGroup, EVENT_ORDER, log, 5)
  {
    var order := EVENT_ORDER;
    lines := SerializeGroup(EbtablesGroup, order, log);
  }

  /** The lines of one event in an arbitrary order. */
  method AnyOrder(lines: seq<Word>) returns (order: seq<Word>)
    ensures SameLines(order, lines)
  {
    order := [];
    var todo := Elements(lines);
    while todo != {}
      invariant Distinct(order)
      invariant Elements(order) + todo == Elements(lines) && Elements(order) !! todo
    {
      var line :| line in todo;
      NextInOrder(order, line);
      todo := todo - {line};
      order := order + [line];
    }
  }

  /** Runs the lines one after the other. */
  method RunAll(k0: Kernel, lines: seq<Word>) returns (k: Kernel)
    requires RunLines(k0, lines).Some?
    ensures RunLines(k0, lines) == Some(k)
  {
    k := k0;
    for i := 0 to |lines|
      invariant RunLines(k, lines[i..]) == RunLines(k0, lines)
    {
      assert lines[i..][1..] == lines[i + 1..] && lines[i..][0] == lines[i];
      k := RunLine(k, lines[i]).value;
    }
  }

  /** Runs the events of the group in their order, and each of them in an arbitrary order. */
  method RunEvents(ghost v: View, k0: Kernel, log: Log) returns (k: Kernel)
    requires v.Valid() && k0.table == v.table && Recorded(log, v.newChains, v.commands)
    requires Distinct(k0.forward) && Elements(k0.forward) == k0.table.Keys
    ensures Flushed(v, k.table).Valid()
    ensures Distinct(k.forward) && Elements(k.forward) == k.table.Keys
  {
    var blocks: seq<seq<Word>> := [];
    for i := 0 to |EVENT_ORDER|
      invariant |blocks| == i && forall j :: 0 <= j < i ==> SameLines(blocks[j], Of(log, EVENT_ORDER[j]))
    {
      var order := AnyOrder(Of(log, EVENT_ORDER[i]));
      blocks := blocks + [order];
    }
    var e := Events(blocks[0], blocks[1], blocks[2], blocks[3], blocks[4]);
    UnfoldLog(log, v.newChains, v.commands);
    ReorderedMatch(Logged(log), e, Elements(v.newChains), Elements(v.commands));
    EventsRun(v, k0, e);
    k := RunAll(k0, e.All());
  }
}
