/**
 The ebtables commands in the command queue: the event order of the single-device backend
 puts chains before redirects and redirects before rules, in whatever order they are added.
 */
module EbtablesEvents {
  import opened Folding
  import opened Topology
  import opened Counting
  import opened Ebtables
  import opened CommandQueue

  /** What stands in the queue: names of groups and events, and command lines. */
  datatype Word =
    | EbtablesGroup
    | Init | CreateChains | RedirectEvent | CommandsEvent | Finish
    | Line(shell: Shell)

  /** The command lines: 'ebtables -N', 'ebtables -A FORWARD', 'ebtables -I' and '-D', and the
      ones that prepare or commit a batch. */
  datatype Shell = NewChain(br: nat) | Redirect(br: nat) | Change(cmd: Ebtables.Command) | Batch

  const EVENT_ORDER: seq<Word> := [Init, CreateChains, RedirectEvent, CommandsEvent, Finish]

  /** The commands that one event of the group got. */
  function Of(log: seq<(Slot<Word>, Word)>, event: Word): (r: seq<Word>) {
    Dedup(Select(log, (EbtablesGroup, event)))
  }

  /** With this event order, the group is the concatenation of its events. */
  lemma BlocksInOrder(log: seq<(Slot<Word>, Word)>)
    ensures OfEvents(EbtablesGroup, EVENT_ORDER, log, 5) ==
            Of(log, Init) + Of(log, CreateChains) + Of(log, RedirectEvent) + Of(log, CommandsEvent) +
            Of(log, Finish)
  {
    assert OfEvents(EbtablesGroup, EVENT_ORDER, log, 1) == Of(log, Init);
    assert OfEvents(EbtablesGroup, EVENT_ORDER, log, 2) == Of(log, Init) + Of(log, CreateChains);
    assert OfEvents(EbtablesGroup, EVENT_ORDER, log, 3) ==
           Of(log, Init) + Of(log, CreateChains) + Of(log, RedirectEvent);
    assert OfEvents(EbtablesGroup, EVENT_ORDER, log, 4) ==
           Of(log, Init) + Of(log, CreateChains) + Of(log, RedirectEvent) + Of(log, CommandsEvent);
  }

  /** Once the backend has set its event order, adding commands to these events keeps it. */
  lemma EventOrderStays(log: seq<(Slot<Word>, Word)>)
    requires AllIn(log, Slots(EbtablesGroup, EVENT_ORDER, 5))
    ensures Dedup(Select(Slots(EbtablesGroup, EVENT_ORDER, 5) + CommandQueue.Added(log), EbtablesGroup))
            == EVENT_ORDER
  {
    SetOrderStays(Slots(EbtablesGroup, EVENT_ORDER, 5), log, EbtablesGroup);
    SetOrderIsOrder(EbtablesGroup, EVENT_ORDER, 5);
    assert EVENT_ORDER[..5] == EVENT_ORDER;
  }

  // ----- Running command lines --------------------------------------------------------

  /** What the kernel holds: the chains, and the redirects in the FORWARD chain. */
  datatype Kernel = Kernel(table: Table, forward: seq<nat>)

  /** A chain can be created once, and a redirect needs its chain. */
  function RunLine(k: Kernel, w: Word): (r: Option<Kernel>) {
    if !w.Line? then None
    else
      match w.shell
      case NewChain(br) => if br in k.table then None else Some(k.(table := k.table[br := []]))
      case Redirect(br) => if br in k.table then Some(k.(forward := k.forward + [br])) else None
      case Change(cmd) =>
        (match Exec(k.table, cmd)
         case None => None
         case Some(t) => Some(k.(table := t)))
      case Batch => Some(k)
  }

  function RunLines(k: Kernel, ws: seq<Word>): (r: Option<Kernel>)
    decreases ws
  {
    if ws == [] then Some(k)
    else
      match RunLine(k, ws[0])
      case None => None
      case Some(k') => RunLines(k', ws[1..])
  }

  lemma {:induction false} RunBoth(k: Kernel, a: seq<Word>, b: seq<Word>)
    requires RunLines(k, a).Some?
    ensures RunLines(k, a + b) == RunLines(RunLines(k, a).value, b)
    decreases a
  {
    if a == [] {
      assert a + b == b;
    } else {
      assert (a + b)[1..] == a[1..] + b;
      RunBoth(RunLine(k, a[0]).value, a[1..], b);
    }
  }

  ghost predicate AllBatch(ws: seq<Word>) {
    forall i :: 0 <= i < |ws| ==> ws[i] == Line(Batch)
  }

  lemma {:induction false} RunBatch(k: Kernel, ws: seq<Word>)
    requires AllBatch(ws)
    ensures RunLines(k, ws) == Some(k)
    decreases ws
  {
    if ws != [] {
      RunBatch(k, ws[1..]);
    }
  }

  /** The lines that create the given chains, in any order. */
  ghost predicate AreChains(ws: seq<Word>, chains: set<nat>) {
    && Distinct(ws)
    && (forall w :: w in ws ==> w.Line? && w.shell.NewChain? && w.shell.br in chains)
    && (forall br :: br in chains ==> Line(NewChain(br)) in ws)
  }

  lemma ChainsTail(ws: seq<Word>, chains: set<nat>)
    requires AreChains(ws, chains) && ws != []
    ensures ws[0].Line? && ws[0].shell.NewChain? && ws[0].shell.br in chains
    ensures AreChains(ws[1..], chains - {ws[0].shell.br})
  {
    assert ws[0] in ws;
    forall br | br in chains - {ws[0].shell.br}
      ensures Line(NewChain(br)) in ws[1..]
    {
      assert Line(NewChain(br)) in ws;
    }
  }

  /** The chains with new empty ones. */
  function WithChains(t: Table, chains: set<nat>): (r: Table) {
    t + map br | br in chains :: []
  }

  lemma OneChainFirst(t: Table, chains: set<nat>, br: nat)
    requires br in chains && chains !! t.Keys
    ensures WithChains(t[br := []], chains - {br}) == WithChains(t, chains)
  {
  }

  lemma {:induction false} RunChains(k: Kernel, ws: seq<Word>, chains: set<nat>)
    requires AreChains(ws, chains) && chains !! k.table.Keys
    ensures RunLines(k, ws) == Some(k.(table := WithChains(k.table, chains)))
    decreases ws
  {
    if ws == [] {
      assert chains == {} by {
        assert forall br :: br in chains ==> Line(NewChain(br)) in ws;
      }
      assert WithChains(k.table, chains) == k.table;
    } else {
      var br := ws[0].shell.br;
      ChainsTail(ws, chains);
      OneChainFirst(k.table, chains, br);
      RunChains(k.(table := k.table[br := []]), ws[1..], chains - {br});
    }
  }

  /** The lines that redirect into the given chains, in any order. */
  ghost predicate AreRedirects(ws: seq<Word>, chains: set<nat>) {
    && Distinct(ws)
    && (forall w :: w in ws ==> w.Line? && w.shell.Redirect? && w.shell.br in chains)
    && (forall br :: br in chains ==> Line(Redirect(br)) in ws)
  }

  lemma RedirectsTail(ws: seq<Word>, chains: set<nat>)
    requires AreRedirects(ws, chains) && ws != []
    ensures ws[0].Line? && ws[0].shell.Redirect? && ws[0].shell.br in chains
    ensures AreRedirects(ws[1..], chains - {ws[0].shell.br})
  {
    assert ws[0] in ws;
    forall br | br in chains - {ws[0].shell.br}
      ensures Line(Redirect(br)) in ws[1..]
    {
      assert Line(Redirect(br)) in ws;
    }
  }

  lemma {:induction false} RunRedirects(k: Kernel, ws: seq<Word>, chains: set<nat>)
    requires AreRedirects(ws, chains) && chains <= k.table.Keys
    requires Distinct(k.forward) && Elements(k.forward) !! chains
    ensures RunLines(k, ws).Some? && RunLines(k, ws).value.table == k.table
    ensures Distinct(RunLines(k, ws).value.forward)
    ensures Elements(RunLines(k, ws).value.forward) == Elements(k.forward) + chains
    decreases ws
  {
    if ws == [] {
      assert chains == {} by {
        assert forall br :: br in chains ==> Line(Redirect(br)) in ws;
      }
    } else {
      var br := ws[0].shell.br;
      RedirectsTail(ws, chains);
      NextInOrder(k.forward, br);
      RunRedirects(k.(forward := k.forward + [br]), ws[1..], chains - {br});
    }
  }

  function Changes(ws: seq<Word>): (r: seq<Ebtables.Command>)
    requires forall w :: w in ws ==> w.Line? && w.shell.Change?
    ensures |r| == |ws| && forall i :: 0 <= i < |ws| ==> Line(Change(r[i])) == ws[i]
  {
    if ws == [] then []
    else
      assert ws[0] in ws;
      [ws[0].shell.cmd] + Changes(ws[1..])
  }

  /** Rule lines run like the commands they hold. */
  lemma {:induction false} RunChanges(k: Kernel, ws: seq<Word>)
    requires forall w :: w in ws ==> w.Line? && w.shell.Change?
    requires Run(k.table, Changes(ws)).Some?
    ensures RunLines(k, ws) == Some(k.(table := Run(k.table, Changes(ws)).value))
    decreases ws
  {
    if ws != [] {
      assert ws[0] in ws;
      assert Changes(ws)[1..] == Changes(ws[1..]);
      RunChanges(RunLine(k, ws[0]).value, ws[1..]);
    }
  }

  /** The lines that change exactly the given rules, in any order. */
  ghost predicate AreRules(ws: seq<Word>, commands: set<Ebtables.Command>) {
    && Distinct(ws)
    && (forall w :: w in ws ==> w.Line? && w.shell.Change? && w.shell.cmd in commands)
    && (forall cmd :: cmd in commands ==> Line(Change(cmd)) in ws)
  }

  lemma ChangesOfRules(ws: seq<Word>, commands: set<Ebtables.Command>)
    requires AreRules(ws, commands)
    ensures Distinct(Changes(ws)) && Elements(Changes(ws)) == commands
  {
    var cs := Changes(ws);
    forall cmd
      ensures cmd in cs <==> cmd in commands
    {
      if cmd in cs {
        var i :| 0 <= i < |cs| && cs[i] == cmd;
        assert ws[i] in ws;
      }
      if cmd in commands {
        var i :| 0 <= i < |ws| && ws[i] == Line(Change(cmd));
        assert cs[i] == cmd;
      }
    }
  }

  /** What the backend has queued, event by event; inside an event the order is arbitrary. */
  datatype Events = Events(init: seq<Word>, chains: seq<Word>, redirects: seq<Word>, rules: seq<Word>,
                           finish: seq<Word>)
  {
    function All(): (r: seq<Word>) {
      init + chains + redirects + rules + finish
    }

    /** Exactly the given chains with their redirects, and the given rule commands. */
    ghost predicate Match(newChains: set<nat>, commands: set<Ebtables.Command>) {
      && AllBatch(init) && AllBatch(finish)
      && AreChains(chains, newChains) && AreRedirects(redirects, newChains)
      && AreRules(rules, commands)
    }
  }

  /** The chains exist before the rules are changed, so no line fails. */
  lemma EventsRun(v: View, k: Kernel, e: Events)
    requires v.Valid() && e.Match(Elements(v.newChains), Elements(v.commands)) && k.table == v.table
    requires Distinct(k.forward) && Elements(k.forward) == k.table.Keys
    ensures var r := RunLines(k, e.All());
            && r.Some? && Flushed(v, r.value.table).Valid()
            && Distinct(r.value.forward) && Elements(r.value.forward) == r.value.table.Keys
  {
    var chains := Elements(v.newChains);
    ChainsToCreate(v);
    RunBatch(k, e.init);
    RunChains(k, e.chains, chains);
    var k1 := RunLines(k, e.chains).value;
    assert k1.table.Keys == v.bridges;
    RunRedirects(k1, e.redirects, chains);
    var k2 := RunLines(k1, e.redirects).value;
    CreatingChains(v, k2.table);
    ChangesOfRules(e.rules, Elements(v.commands));
    RunningTheQueue(v, k2.table, Changes(e.rules));
    RunChanges(k2, e.rules);
    var k3 := RunLines(k2, e.rules).value;
    RunBatch(k3, e.finish);
    RunFive(k, k1, k2, k3, e);
  }

  lemma RunFive(k: Kernel, k1: Kernel, k2: Kernel, k3: Kernel, e: Events)
    requires RunLines(k, e.init) == Some(k) && RunLines(k, e.chains) == Some(k1)
    requires RunLines(k1, e.redirects) == Some(k2) && RunLines(k2, e.rules) == Some(k3)
    requires RunLines(k3, e.finish) == Some(k3)
    ensures RunLines(k, e.All()) == Some(k3)
  {
    RunBoth(k, e.init, e.chains);
    RunBoth(k, e.init + e.chains, e.redirects);
    RunBoth(k, e.init + e.chains + e.redirects, e.rules);
    RunBoth(k, e.init + e.chains + e.redirects + e.rules, e.finish);
  }

  // ----- What the backend adds --------------------------------------------------------

  type Log = seq<(Slot<Word>, Word)>

  /** What was added to the queue, event by event. */
  function Logged(log: Log): (e: Events) {
    Events(Of(log, Init), Of(log, CreateChains), Of(log, RedirectEvent), Of(log, CommandsEvent),
           Of(log, Finish))
  }

  /** A command line that is added to one event of the group. */
  function Entry(event: Word, shell: Shell): (Slot<Word>, Word) {
    ((EbtablesGroup, event), Line(shell))
  }

  lemma OfNext(log: Log, event: Word, shell: Shell, other: Word)
    ensures Of(log + [Entry(event, shell)], other) ==
            if other == event then AddNew(Of(log, other), Line(shell)) else Of(log, other)
  {
    SelectNext(log, (EbtablesGroup, event), Line(shell), (EbtablesGroup, other));
    DedupNext(Select(log, (EbtablesGroup, other)), Line(shell));
  }

  /** An add changes the commands of its own event only. */
  lemma LoggedNext(log: Log, event: Word, shell: Shell)
    ensures var e, line := Logged(log), Line(shell);
            Logged(log + [Entry(event, shell)]) ==
            Events(if event == Init then AddNew(e.init, line) else e.init,
                   if event == CreateChains then AddNew(e.chains, line) else e.chains,
                   if event == RedirectEvent then AddNew(e.redirects, line) else e.redirects,
                   if event == CommandsEvent then AddNew(e.rules, line) else e.rules,
                   if event == Finish then AddNew(e.finish, line) else e.finish)
  {
    OfNext(log, event, shell, Init);
    OfNext(log, event, shell, CreateChains);
    OfNext(log, event, shell, RedirectEvent);
    OfNext(log, event, shell, CommandsEvent);
    OfNext(log, event, shell, Finish);
  }

  /** The log holds the new chains with their redirects and the rule commands, and it mentions
      no event beyond the event order. */
  ghost predicate LogFacts(log: Log, newChains: set<nat>, commands: set<Ebtables.Command>) {
    && AllIn(log, Slots(EbtablesGroup, EVENT_ORDER, 5))
    && Logged(log).Match(newChains, commands)
  }

  /** The same, folded. */
  ghost predicate Recorded(log: Log, newChains: seq<nat>, commands: seq<Ebtables.Command>) {
    forall b {:trigger Unfolding(LogPart, b)} :: Unfolding(LogPart, b) ==>
      LogFacts(log, Elements(newChains), Elements(commands))
  }

  lemma UnfoldLog(log: Log, newChains: seq<nat>, commands: seq<Ebtables.Command>)
    requires Recorded(log, newChains, commands)
    ensures LogFacts(log, Elements(newChains), Elements(commands))
  {
    assert Unfolding(LogPart, true);
  }

  lemma NothingRecorded()
    ensures Recorded([], [], [])
  {
    assert Logged([]) == Events([], [], [], [], []);
  }

  lemma KnownEvent(event: Word)
    requires event in EVENT_ORDER
    ensures (EbtablesGroup, event) in Slots(EbtablesGroup, EVENT_ORDER, 5)
  {
    var k :| 0 <= k < 5 && EVENT_ORDER[k] == event;
    SlotAt(k, 5);
  }

  lemma {:induction false} SlotAt(k: nat, n: nat)
    requires k < n <= 5
    ensures (EbtablesGroup, EVENT_ORDER[k]) in Slots(EbtablesGroup, EVENT_ORDER, n)
  {
    if k < n - 1 {
      SlotAt(k, n - 1);
    }
  }

  lemma OneChainMore(ws: seq<Word>, chains: set<nat>, br: nat)
    requires AreChains(ws, chains)
    ensures AreChains(AddNew(ws, Line(NewChain(br))), chains + {br})
  {
  }

  lemma OneRedirectMore(ws: seq<Word>, chains: set<nat>, br: nat)
    requires AreRedirects(ws, chains)
    ensures AreRedirects(AddNew(ws, Line(Redirect(br))), chains + {br})
  {
  }

  lemma OneRuleMore(ws: seq<Word>, commands: set<Ebtables.Command>, cmd: Ebtables.Command)
    requires AreRules(ws, commands)
    ensures AreRules(AddNew(ws, Line(Change(cmd))), commands + {cmd})
  {
  }

  lemma KnownNext(log: Log, event: Word, shell: Shell)
    requires AllIn(log, Slots(EbtablesGroup, EVENT_ORDER, 5)) && event in EVENT_ORDER
    ensures AllIn(log + [Entry(event, shell)], Slots(EbtablesGroup, EVENT_ORDER, 5))
  {
    KnownEvent(event);
  }

  /** The events once a chain with its redirect is added. */
  function WithChain(e: Events, br: nat): (r: Events) {
    e.(chains := AddNew(e.chains, Line(NewChain(br))), redirects := AddNew(e.redirects, Line(Redirect(br))))
  }

  lemma WithChainMatches(e: Events, newChains: set<nat>, commands: set<Ebtables.Command>, br: nat)
    requires e.Match(newChains, commands)
    ensures WithChain(e, br).Match(newChains + {br}, commands)
  {
    OneChainMore(e.chains, newChains, br);
    OneRedirectMore(e.redirects, newChains, br);
  }

  lemma ChainFacts(log: Log, newChains: set<nat>, commands: set<Ebtables.Command>, br: nat)
    requires LogFacts(log, newChains, commands)
    ensures LogFacts(log + [Entry(CreateChains, NewChain(br))] + [Entry(RedirectEvent, Redirect(br))],
                     newChains + {br}, commands)
  {
    var log' := log + [Entry(CreateChains, NewChain(br))];
    KnownNext(log, CreateChains, NewChain(br));
    KnownNext(log', RedirectEvent, Redirect(br));
    assert Logged(log' + [Entry(RedirectEvent, Redirect(br))]) == WithChain(Logged(log), br) by {
      LoggedNext(log, CreateChains, NewChain(br));
      LoggedNext(log', RedirectEvent, Redirect(br));
    }
    WithChainMatches(Logged(log), newChains, commands, br);
  }

  lemma RuleFacts(log: Log, newChains: set<nat>, commands: set<Ebtables.Command>, cmd: Ebtables.Command)
    requires LogFacts(log, newChains, commands)
    ensures LogFacts(log + [Entry(CommandsEvent, Change(cmd))], newChains, commands + {cmd})
  {
    KnownNext(log, CommandsEvent, Change(cmd));
    LoggedNext(log, CommandsEvent, Change(cmd));
    OneRuleMore(Logged(log).rules, commands, cmd);
  }

  /** A new bridge adds its chain and its redirect. */
  lemma RecordChain(log: Log, newChains: seq<nat>, commands: seq<Ebtables.Command>, br: nat)
    requires Recorded(log, newChains, commands)
    ensures Recorded(log + [Entry(CreateChains, NewChain(br))] + [Entry(RedirectEvent, Redirect(br))],
                     newChains + [br], commands)
  {
    UnfoldLog(log, newChains, commands);
    ChainFacts(log, Elements(newChains), Elements(commands), br);
    assert Elements(newChains + [br]) == Elements(newChains) + {br};
  }

  /** A link that goes up or down adds its rule command. */
  lemma RecordRule(log: Log, newChains: seq<nat>, commands: seq<Ebtables.Command>, cmd: Ebtables.Command)
    requires Recorded(log, newChains, commands)
    ensures Recorded(log + [Entry(CommandsEvent, Change(cmd))], newChains, AddNew(commands, cmd))
  {
    UnfoldLog(log, newChains, commands);
    RuleFacts(log, Elements(newChains), Elements(commands), cmd);
    QueuedOnce(commands, cmd);
  }

  /** The order inside the events does not matter. */
  ghost predicate SameLines(a: seq<Word>, b: seq<Word>) {
    Distinct(a) && Elements(a) == Elements(b)
  }

  lemma ReorderedMatch(e: Events, e': Events, newChains: set<nat>, commands: set<Ebtables.Command>)
    requires e.Match(newChains, commands)
    requires SameLines(e'.init, e.init) && SameLines(e'.chains, e.chains)
    requires SameLines(e'.redirects, e.redirects) && SameLines(e'.rules, e.rules)
    requires SameLines(e'.finish, e.finish)
    ensures e'.Match(newChains, commands)
  {
    SameMembers(e'.init, e.init);
    SameMembers(e'.chains, e.chains);
    SameMembers(e'.redirects, e.redirects);
    SameMembers(e'.rules, e.rules);
    SameMembers(e'.finish, e.finish);
    assert forall i :: 0 <= i < |e'.init| ==> e'.init[i] in e'.init;
    assert forall i :: 0 <= i < |e'.finish| ==> e'.finish[i] in e'.finish;
  }

  lemma SameMembers(a: seq<Word>, b: seq<Word>)
    requires SameLines(a, b)
    ensures forall w :: w in a <==> w in b
  {
    forall w
      ensures w in a <==> w in b
    {
      assert w in Elements(a) <==> w in a;
    }
  }

  /** However the commands were added: with the event order set, the serialized commands of
      the group run without failure and install exactly the rules that were planned. */
  lemma SerializedCommandsRun(v: View, k: Kernel, log: Log)
    requires v.Valid() && k.table == v.table && Recorded(log, v.newChains, v.commands)
    requires Distinct(k.forward) && Elements(k.forward) == k.table.Keys
    ensures var r := RunLines(k, OfEvents(EbtablesGroup, EVENT_ORDER, log, 5));
            && r.Some? && Flushed(v, r.value.table).Valid()
            && Distinct(r.value.forward) && Elements(r.value.forward) == r.value.table.Keys
  {
    BlocksInOrder(log);
    UnfoldLog(log, v.newChains, v.commands);
    EventsRun(v, k, Logged(log));
  }

  /** A rule that comes before its chain fails, so the order of the two events matters. */
  lemma RuleBeforeChainFails(k: Kernel, cmd: Ebtables.Command)
    requires cmd.chain !in k.table
    ensures RunLines(k, [Line(Change(cmd)), Line(NewChain(cmd.chain))]) == None
    ensures cmd.insert ==> RunLines(k, [Line(NewChain(cmd.chain)), Line(Change(cmd))]).Some?
  {
    var change, create := Line(Change(cmd)), Line(NewChain(cmd.chain));
    assert [create, change][1..] == [change] && [change][1..] == [];
    assert RunLines(RunLine(k, create).value, [change]).Some? || !cmd.insert;
  }
}
