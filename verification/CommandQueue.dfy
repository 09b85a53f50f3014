/**
 The ordered command queue: commands are grouped, every group has ordered events, and
 the resulting command list does not depend on the order in which they were added.
 */
module CommandQueue {
  import opened Folding
  import opened Counting

  // ----- What the queue promises ------------------------------------------------------

  /** The values that were recorded under a key, in order. */
  function Select<K(==), V>(xs: seq<(K, V)>, k: K): (r: seq<V>) {
    if xs == [] then []
    else
      var last := xs[|xs| - 1];
      var before := Select(xs[..|xs| - 1], k);
      if last.0 == k then before + [last.1] else before
  }

  /** The sequence without later duplicates. */
  function Dedup<T(==)>(xs: seq<T>): (r: seq<T>) {
    if xs == [] then [] else AddNew(Dedup(xs[..|xs| - 1]), xs[|xs| - 1])
  }

  /** A group and one of its events. Names and commands are of an arbitrary type N, since the
      queue only compares them. */
  type Slot<N> = (N, N)

  /** The commands of the first n events of a group. */
  function OfEvents<N(==)>(group: N, events: seq<N>, log: seq<(Slot<N>, N)>, n: nat)
    : (r: seq<N>)
    requires n <= |events|
  {
    if n == 0 then []
    else OfEvents(group, events, log, n - 1) + Dedup(Select(log, (group, events[n - 1])))
  }

  /** The commands of one group. The event order of a group is the order in which its events
      were first mentioned. */
  function OfGroup<N(==)>(group: N, mentions: seq<Slot<N>>, log: seq<(Slot<N>, N)>): (r: seq<N>) {
    var events := Dedup(Select(mentions, group));
    OfEvents(group, events, log, |events|)
  }

  /** The commands of the first n groups: by group order, then by event order, each event
      with its commands in order and without later duplicates. */
  function OfGroups<N(==)>(groups: seq<N>, mentions: seq<Slot<N>>, log: seq<(Slot<N>, N)>, n: nat)
    : (r: seq<N>)
    requires n <= |groups|
  {
    if n == 0 then []
    else OfGroups(groups, mentions, log, n - 1) + OfGroup(groups[n - 1], mentions, log)
  }

  lemma SelectNext<K, V>(xs: seq<(K, V)>, k: K, v: V, l: K)
    ensures Select(xs + [(k, v)], l) == if k == l then Select(xs, l) + [v] else Select(xs, l)
  {
    assert (xs + [(k, v)])[..|xs|] == xs;
  }

  lemma DedupNext<T>(xs: seq<T>, x: T)
    ensures Dedup(xs + [x]) == AddNew(Dedup(xs), x)
  {
    assert (xs + [x])[..|xs|] == xs;
  }

  /** Every value stays, and it stays once. */
  lemma {:induction false} DedupKeepsOnce<T(!new)>(xs: seq<T>)
    ensures Distinct(Dedup(xs)) && forall x :: x in Dedup(xs) <==> x in xs
  {
    if xs != [] {
      DedupKeepsOnce(xs[..|xs| - 1]);
    }
  }

  lemma {:induction false} Selected<K, V>(xs: seq<(K, V)>, k: K, v: V)
    ensures v in Select(xs, k) <==> (k, v) in xs
  {
    if xs != [] {
      Selected(xs[..|xs| - 1], k, v);
    }
  }

  /** The events of a group in order. */
  function Events<N>(events: map<N, seq<N>>, group: N): (r: seq<N>) {
    if group in events then events[group] else []
  }

  ghost predicate EventsOk<N(!new)>(events: map<N, seq<N>>, mentions: seq<Slot<N>>) {
    forall g {:trigger Events(events, g)} {:trigger Select(mentions, g)} ::
      Events(events, g) == Dedup(Select(mentions, g))
  }

  /** Mentioning an event again changes nothing; a new one comes last in its group. */
  lemma MentionNext<N(!new)>(events: map<N, seq<N>>, mentions: seq<Slot<N>>, slot: Slot<N>)
    requires EventsOk(events, mentions)
    ensures var events' := if slot in mentions then events
                           else events[slot.0 := Events(events, slot.0) + [slot.1]];
            EventsOk(events', mentions + [slot])
  {
    assert slot == (slot.0, slot.1);
    var events' := if slot in mentions then events
                   else events[slot.0 := Events(events, slot.0) + [slot.1]];
    forall g
      ensures Events(events', g) == Dedup(Select(mentions + [slot], g))
    {
      SelectNext(mentions, slot.0, slot.1, g);
      if g == slot.0 {
        DedupNext(Select(mentions, g), slot.1);
        DedupKeepsOnce(Select(mentions, g));
        Selected(mentions, g, slot.1);
      }
    }
  }

  // ----- The queue --------------------------------------------------------------------

  datatype Command<N> = Command(id: N, cmd: N, prefixes: seq<N>)

  function Lines<N>(commands: seq<Command<N>>): (r: seq<N>) {
    if commands == [] then []
    else Lines(commands[..|commands| - 1]) + [commands[|commands| - 1].cmd]
  }

  /** The commands of one event, which may run in parallel. */
  class CommandStore<N(==, !new)> {
    const name: N
    ghost const slot: Slot<N>
    var shellCommandArgs: seq<Command<N>>
    var uniqShellCommands: set<N>

    ghost predicate Valid()
      reads this
    {
      forall c :: c in uniqShellCommands <==> c in GetShellCommands()
    }

    /** The store belongs to this event and holds these commands. */
    ghost predicate Holds(s: Slot<N>, lines: seq<N>)
      reads this
    {
      slot == s && Valid() && GetShellCommands() == lines
    }

    constructor (ghost slot: Slot<N>, name: N)
      ensures Valid() && this.slot == slot && GetShellCommands() == []
    {
      this.slot, this.name := slot, name;
      shellCommandArgs, uniqShellCommands := [], {};
    }

    function GetShellCommands(): (r: seq<N>)
      reads this
    {
      Lines(shellCommandArgs)
    }

    /** Appends a command, unless the same command line is there already. */
    method AddCommand(id: N, cmd: N, prefixes: seq<N>)
      requires Valid()
      modifies this
      ensures Valid() && GetShellCommands() == AddNew(old(GetShellCommands()), cmd)
    {
      if cmd !in uniqShellCommands {
        uniqShellCommands := uniqShellCommands + {cmd};
        shellCommandArgs := shellCommandArgs + [Command(id, cmd, prefixes)];
        assert shellCommandArgs[..|shellCommandArgs| - 1] == old(shellCommandArgs);
      }
    }
  }

  /** The state of the serializer together with what happened to it. */
  datatype Queue<N> = Queue(events: map<N, seq<N>>, contents: map<Slot<N>, seq<N>>,
                            mentions: seq<Slot<N>>, log: seq<(Slot<N>, N)>)

  ghost predicate ContentsOk<N(!new)>(q: Queue<N>) {
    && (forall s {:trigger s in q.contents} :: s in q.contents <==> s in q.mentions)
    && (forall s {:trigger s in q.contents} :: s in q.contents ==>
          q.contents[s] == Dedup(Select(q.log, s)))
    && (forall s {:trigger Select(q.log, s)} :: s !in q.mentions ==> Select(q.log, s) == [])
  }

  /** The invariant of the queue, folded: only the lemma Unfold makes it available. */
  ghost predicate Represents<N(!new)>(q: Queue<N>) {
    forall b {:trigger Unfolding(QueuePart, b)} :: Unfolding(QueuePart, b) ==>
      EventsOk(q.events, q.mentions) && ContentsOk(q)
  }

  lemma Unfold<N(!new)>(q: Queue<N>)
    requires Represents(q)
    ensures EventsOk(q.events, q.mentions) && ContentsOk(q)
  {
    assert Unfolding(QueuePart, true);
  }

  /** The queue once an event has been mentioned. */
  function Mentioned<N(==)>(q: Queue<N>, slot: Slot<N>): (r: Queue<N>) {
    var q' := q.(mentions := q.mentions + [slot]);
    if slot in q.contents then q'
    else q'.(contents := q.contents[slot := []],
             events := q.events[slot.0 := Events(q.events, slot.0) + [slot.1]])
  }

  lemma MentionedContents<N(!new)>(q: Queue<N>, slot: Slot<N>)
    requires ContentsOk(q)
    ensures ContentsOk(Mentioned(q, slot))
  {
    var q' := Mentioned(q, slot);
    assert forall s :: s in q'.mentions <==> s in q.mentions || s == slot;
    assert slot !in q.mentions ==> Dedup(Select(q.log, slot)) == [];
  }

  lemma MentionedRepresents<N(!new)>(q: Queue<N>, slot: Slot<N>)
    requires Represents(q)
    ensures Represents(Mentioned(q, slot))
  {
    Unfold(q);
    MentionNext(q.events, q.mentions, slot);
    MentionedContents(q, slot);
  }

  lemma AddedRepresents<N(!new)>(q: Queue<N>, slot: Slot<N>, cmd: N)
    requires Represents(q) && slot in q.contents
    ensures Represents(q.(contents := q.contents[slot := AddNew(q.contents[slot], cmd)],
                          log := q.log + [(slot, cmd)]))
  {
    Unfold(q);
    forall s
      ensures Select(q.log + [(slot, cmd)], s) ==
              if slot == s then Select(q.log, s) + [cmd] else Select(q.log, s)
    {
      SelectNext(q.log, slot, cmd, s);
    }
    DedupNext(Select(q.log, slot), cmd);
  }

  /** The stored events of a group are those mentioned, and so are their commands. */
  lemma EventIsStored<N(!new)>(q: Queue<N>, group: N, k: nat)
    requires Represents(q) && k < |Events(q.events, group)|
    ensures Events(q.events, group) == Dedup(Select(q.mentions, group))
    ensures var slot := (group, Events(q.events, group)[k]);
            slot in q.contents && q.contents[slot] == Dedup(Select(q.log, slot))
  {
    Unfold(q);
    var event := Events(q.events, group)[k];
    assert event in Dedup(Select(q.mentions, group));
    DedupKeepsOnce(Select(q.mentions, group));
    Selected(q.mentions, group, event);
  }

  lemma EventsAreMentioned<N(!new)>(q: Queue<N>, group: N)
    requires Represents(q)
    ensures Events(q.events, group) == Dedup(Select(q.mentions, group))
  {
    Unfold(q);
  }

  class ShellCommandSerializer<N(==, !new)> {
    var events: map<N, seq<N>>
    var stores: map<Slot<N>, CommandStore<N>>
    var groupOrder: seq<N>
    ghost var queue: Queue<N>

    ghost predicate Valid()
      reads this, stores.Values
    {
      && queue.events == events && queue.contents.Keys == stores.Keys
      && (forall s {:trigger s in stores} :: s in stores ==>
            stores[s].Holds(s, queue.contents[s]))
      && Represents(queue)
    }

    constructor ()
      ensures Valid() && queue == Queue(map[], map[], [], []) && groupOrder == []
    {
      events, stores, groupOrder := map[], map[], [];
      queue := Queue(map[], map[], [], []);
    }

    /** The commands of an event; an event that is not known yet comes last in its group. */
    method EventStore(group: N, event: N) returns (cs: CommandStore<N>)
      requires Valid()
      modifies this`events, this`stores, this`queue
      ensures Valid() && queue == Mentioned(old(queue), (group, event))
      ensures (group, event) in stores && cs == stores[(group, event)]
      ensures forall s :: s in old(stores) ==> s in stores && stores[s] == old(stores)[s]
      ensures forall s :: s in stores && s !in old(stores) ==> fresh(stores[s])
    {
      var slot := (group, event);
      MentionedRepresents(queue, slot);
      if slot !in stores {
        cs := new CommandStore(slot, event);
        stores := stores[slot := cs];
        events := events[group := Events(events, group) + [event]];
      }
      cs := stores[slot];
      queue := Mentioned(queue, slot);
    }

    /** Adds a command to a known event. */
    method AddTo(slot: Slot<N>, id: N, cmd: N, prefixes: seq<N>)
      requires Valid() && slot in stores
      modifies this`queue, stores[slot]
      ensures Valid() && queue.mentions == old(queue.mentions)
      ensures queue.log == old(queue.log) + [(slot, cmd)]
    {
      var cs := stores[slot];
      AddedRepresents(queue, slot, cmd);
      assert forall s {:trigger s in stores} :: s in stores && s != slot ==> stores[s] != cs;
      cs.AddCommand(id, cmd, prefixes);
      queue := queue.(contents := queue.contents[slot := AddNew(queue.contents[slot], cmd)],
                      log := queue.log + [(slot, cmd)]);
    }

    method AddCommand(group: N, event: N, id: N, cmd: N, prefixes: seq<N>)
      requires Valid()
      modifies this`events, this`stores, this`queue, stores.Values
      ensures Valid()
      ensures queue.mentions == old(queue.mentions) + [(group, event)]
      ensures queue.log == old(queue.log) + [((group, event), cmd)]
      ensures forall s :: s in stores ==> (s in old(stores) && stores[s] == old(stores)[s]) || fresh(stores[s])
    {
      var cs := EventStore(group, event);
      AddTo((group, event), id, cmd, prefixes);
    }

    method AddGroup(group: N)
      modifies this`groupOrder
      ensures groupOrder == AddNew(old(groupOrder), group)
    {
      if group !in groupOrder {
        groupOrder := groupOrder + [group];
      }
    }

    method SetGroupOrder(order: seq<N>)
      modifies this`groupOrder
      ensures groupOrder == Dedup(order)
    {
      groupOrder := [];
      for j := 0 to |order|
        invariant groupOrder == Dedup(order[..j])
      {
        assert order[..j + 1][..j] == order[..j];
        AddGroup(order[j]);
      }
      assert order[..|order|] == order;
    }

    /** Mentions the events of a group in the given order. */
    method SetEventOrder(group: N, order: seq<N>)
      requires Valid()
      modifies this`events, this`stores, this`queue
      ensures Valid()
      ensures queue.log == old(queue.log)
      ensures queue.mentions == old(queue.mentions) + Slots(group, order, |order|)
      ensures forall s :: s in stores ==> (s in old(stores) && stores[s] == old(stores)[s]) || fresh(stores[s])
    {
      for j := 0 to |order|
        invariant Valid() && queue.log == old(queue.log)
        invariant queue.mentions == old(queue.mentions) + Slots(group, order, j)
        invariant forall s :: s in stores ==> (s in old(stores) && stores[s] == old(stores)[s]) || fresh(stores[s])
      {
        var _ := EventStore(group, order[j]);
      }
    }

    /** The commands of one group, by event order. */
    method GetGroupCommands(group: N) returns (res: seq<N>)
      requires Valid()
      ensures res == OfGroup(group, queue.mentions, queue.log)
    {
      var order := Events(events, group);
      EventsAreMentioned(queue, group);
      res := [];
      for k := 0 to |order|
        invariant res == OfEvents(group, order, queue.log, k)
      {
        EventIsStored(queue, group, k);
        var cs := stores[(group, order[k])];
        res := res + cs.GetShellCommands();
      }
    }

    /** All commands, by group order and then by event order. */
    method GetAllCommands() returns (res: seq<N>)
      requires Valid()
      ensures res == OfGroups(groupOrder, queue.mentions, queue.log, |groupOrder|)
    {
      res := [];
      for n := 0 to |groupOrder|
        invariant res == OfGroups(groupOrder, queue.mentions, queue.log, n)
      {
        var commands := GetGroupCommands(groupOrder[n]);
        res := res + commands;
      }
    }
  }

  /** The first n events of a list as slots of a group. */
  function Slots<N>(group: N, events: seq<N>, n: nat): (r: seq<Slot<N>>)
    requires n <= |events|
  {
    if n == 0 then [] else Slots(group, events, n - 1) + [(group, events[n - 1])]
  }

  /** Setting an order of different events makes it the order of the group. */
  lemma {:induction false} SetOrderIsOrder<N(!new)>(group: N, events: seq<N>, n: nat)
    requires n <= |events| && Distinct(events)
    ensures Dedup(Select(Slots(group, events, n), group)) == events[..n]
  {
    if n > 0 {
      SetOrderIsOrder(group, events, n - 1);
      SelectOfSlots(group, events, n);
      DedupNext(Select(Slots(group, events, n - 1), group), events[n - 1]);
      PrefixGrows(events, n);
    }
  }

  lemma SelectOfSlots<N(!new)>(group: N, events: seq<N>, n: nat)
    requires 0 < n <= |events|
    ensures Select(Slots(group, events, n), group) ==
            Select(Slots(group, events, n - 1), group) + [events[n - 1]]
  {
    SelectNext(Slots(group, events, n - 1), group, events[n - 1], group);
  }

  lemma PrefixGrows<N>(events: seq<N>, n: nat)
    requires 0 < n <= |events| && Distinct(events)
    ensures AddNew(events[..n - 1], events[n - 1]) == events[..n]
  {
  }

  // ----- The order of adding does not matter ------------------------------------------

  /** The events that a list of commands was added to. */
  function Added<N>(log: seq<(Slot<N>, N)>): (r: seq<Slot<N>>) {
    if log == [] then [] else Added(log[..|log| - 1]) + [log[|log| - 1].0]
  }

  /** Both lists add the same commands in the same order to every event. */
  ghost predicate SamePerEvent<N(!new)>(log: seq<(Slot<N>, N)>, log': seq<(Slot<N>, N)>) {
    forall s {:trigger Select(log, s)} {:trigger Select(log', s)} :: Select(log, s) == Select(log', s)
  }

  ghost predicate AllIn<N(!new)>(log: seq<(Slot<N>, N)>, order: seq<Slot<N>>) {
    forall k :: 0 <= k < |log| ==> log[k].0 in order
  }

  /** Adding to events whose order is set does not change the order. */
  lemma {:induction false} SetOrderStays<N(!new)>(order: seq<Slot<N>>, log: seq<(Slot<N>, N)>, g: N)
    requires AllIn(log, order)
    ensures Dedup(Select(order + Added(log), g)) == Dedup(Select(order, g))
  {
    if log == [] {
      assert order + Added(log) == order;
    } else {
      var log', slot := log[..|log| - 1], log[|log| - 1].0;
      assert AllIn(log', order);
      SetOrderStays(order, log', g);
      var before := order + Added(log');
      assert order + Added(log) == before + [slot] && slot == (slot.0, slot.1);
      SelectNext(before, slot.0, slot.1, g);
      if slot.0 == g {
        DedupNext(Select(before, g), slot.1);
        DedupKeepsOnce(Select(before, g));
        Selected(before, g, slot.1);
      }
    }
  }

  /** The event order of a group that was set before the commands were added. */
  lemma OrderOfGroup<N(!new)>(group: N, order: seq<N>, log: seq<(Slot<N>, N)>)
    requires Distinct(order) && AllIn(log, Slots(group, order, |order|))
    ensures Dedup(Select(Slots(group, order, |order|) + Added(log), group)) == order
  {
    SetOrderStays(Slots(group, order, |order|), log, group);
    SetOrderIsOrder(group, order, |order|);
    assert order[..|order|] == order;
  }

  lemma LogPrefix<N>(log: seq<(Slot<N>, N)>, i: nat)
    requires i < |log|
    ensures log[..i + 1] == log[..i] + [log[i]] && log[i] == ((log[i].0.0, log[i].0.1), log[i].1)
    ensures Added(log[..i + 1]) == Added(log[..i]) + [log[i].0]
  {
    assert log[..i + 1][..i] == log[..i];
  }

  method AddAll<N(==, !new)>(queue: ShellCommandSerializer<N>, log: seq<(Slot<N>, N)>)
    requires queue.Valid()
    modifies queue, queue.stores.Values
    ensures queue.Valid() && queue.queue.log == old(queue.queue.log) + log
    ensures queue.queue.mentions == old(queue.queue.mentions) + Added(log)
  {
    ghost var q0 := queue.queue;
    for i := 0 to |log|
      invariant queue.Valid() && queue.queue.log == q0.log + log[..i]
      invariant queue.queue.mentions == q0.mentions + Added(log[..i])
      invariant forall s :: s in queue.stores ==>
                  (s in old(queue.stores) && queue.stores[s] == old(queue.stores)[s]) || fresh(queue.stores[s])
    {
      LogPrefix(log, i);
      queue.AddCommand(log[i].0.0, log[i].0.1, log[i].1, log[i].1, []);
    }
    assert log[..|log|] == log;
  }

  /** A group whose event order is set first: its commands come out by this order, whatever the
      order in which they are added. */
  method SerializeGroup<N(==, !new)>(group: N, order: seq<N>, log: seq<(Slot<N>, N)>) returns (lines: seq<N>)
    requires Distinct(order) && AllIn(log, Slots(group, order, |order|))
    ensures lines == OfEvents(group, order, log, |order|)
  {
    var queue := new ShellCommandSerializer<N>();
    queue.AddGroup(group);
    queue.SetEventOrder(group, order);
    AddAll(queue, log);
    OrderOfGroup(group, order, log);
    assert queue.queue.log == log && queue.queue.mentions == Slots(group, order, |order|) + Added(log);
    lines := queue.GetGroupCommands(group);
  }

  lemma {:induction false} EventsAgree<N(!new)>(g: N, events: seq<N>, log: seq<(Slot<N>, N)>,
                                                log': seq<(Slot<N>, N)>, n: nat)
    requires n <= |events| && SamePerEvent(log, log')
    ensures OfEvents(g, events, log, n) == OfEvents(g, events, log', n)
  {
    if n > 0 {
      EventsAgree(g, events, log, log', n - 1);
    }
  }

  /** The command list is determined by the event orders and by what each event got. */
  lemma {:induction false} GroupsAgree<N(!new)>(groups: seq<N>, mentions: seq<Slot<N>>, mentions': seq<Slot<N>>,
                                                log: seq<(Slot<N>, N)>, log': seq<(Slot<N>, N)>, n: nat)
    requires n <= |groups| && SamePerEvent(log, log')
    requires forall g :: Dedup(Select(mentions, g)) == Dedup(Select(mentions', g))
    ensures OfGroups(groups, mentions, log, n) == OfGroups(groups, mentions', log', n)
  {
    if n > 0 {
      GroupsAgree(groups, mentions, mentions', log, log', n - 1);
      var g := groups[n - 1];
      var events := Dedup(Select(mentions, g));
      assert events == Dedup(Select(mentions', g));
      EventsAgree(g, events, log, log', |events|);
    }
  }

  /** Once the event order is set, reordering the adds of different events never changes the
      command list: it is given by the set order alone. */
  lemma ReorderingKeepsCommands<N(!new)>(groups: seq<N>, order: seq<Slot<N>>, log: seq<(Slot<N>, N)>,
                                         log': seq<(Slot<N>, N)>)
    requires AllIn(log, order) && AllIn(log', order) && SamePerEvent(log, log')
    ensures OfGroups(groups, order + Added(log), log, |groups|) ==
            OfGroups(groups, order + Added(log'), log', |groups|) ==
            OfGroups(groups, order, log, |groups|)
  {
    forall g
      ensures Dedup(Select(order + Added(log), g)) == Dedup(Select(order, g))
      ensures Dedup(Select(order + Added(log'), g)) == Dedup(Select(order, g))
    {
      SetOrderStays(order, log, g);
      SetOrderStays(order, log', g);
    }
    GroupsAgree(groups, order + Added(log), order + Added(log'), log, log', |groups|);
    GroupsAgree(groups, order + Added(log), order, log, log, |groups|);
  }

  /** Swapping two adds to different events is such a reordering. */
  lemma {:induction false} SwapIsReordering<N(!new)>(a: seq<(Slot<N>, N)>, x: (Slot<N>, N), y: (Slot<N>, N),
                                                     b: seq<(Slot<N>, N)>)
    requires x.0 != y.0
    ensures SamePerEvent(a + [x, y] + b, a + [y, x] + b)
  {
    if b == [] {
      forall s
        ensures Select(a + [x, y], s) == Select(a + [y, x], s)
      {
        SwapTwo(a, x, y, s);
      }
      assert a + [x, y] + b == a + [x, y] && a + [y, x] + b == a + [y, x];
    } else {
      var b', z := b[..|b| - 1], b[|b| - 1];
      SwapIsReordering(a, x, y, b');
      var l, l' := a + [x, y] + b', a + [y, x] + b';
      assert a + [x, y] + b == l + [z] && a + [y, x] + b == l' + [z] && z == (z.0, z.1);
      forall s
        ensures Select(l + [z], s) == Select(l' + [z], s)
      {
        SelectNext(l, z.0, z.1, s);
        SelectNext(l', z.0, z.1, s);
      }
    }
  }

  lemma SwapTwo<N>(a: seq<(Slot<N>, N)>, x: (Slot<N>, N), y: (Slot<N>, N), s: Slot<N>)
    requires x.0 != y.0
    ensures Select(a + [x, y], s) == Select(a + [y, x], s)
  {
    assert a + [x, y] == a + [x] + [y] && a + [y, x] == a + [y] + [x];
    assert x == (x.0, x.1) && y == (y.0, y.1);
    SelectNext(a, x.0, x.1, s);
    SelectNext(a + [x], y.0, y.1, s);
    SelectNext(a, y.0, y.1, s);
    SelectNext(a + [y], x.0, x.1, s);
  }

  // ----- What the order of the list is ------------------------------------------------

  /** One event: a command that is added comes behind the others, unless it is there. */
  lemma EventAppends<N(!new)>(xs: seq<N>, x: N)
    ensures Dedup<N>([]) == []
    ensures Dedup(xs + [x]) == if x in xs then Dedup(xs) else Dedup(xs) + [x]
  {
    DedupNext(xs, x);
    DedupKeepsOnce(xs);
  }

  /** The list has c at some position, and d at a later one. */
  ghost predicate StandsBefore<N(!new)>(r: seq<N>, c: N, d: N) {
    exists k, l :: 0 <= k < l < |r| && r[k] == c && r[l] == d
  }

  lemma FirstPartBefore<N(!new)>(a: seq<N>, b: seq<N>, c: N, d: N)
    requires c in a && d in b
    ensures StandsBefore(a + b, c, d)
  {
    var k :| 0 <= k < |a| && a[k] == c;
    var l :| 0 <= l < |b| && b[l] == d;
    assert (a + b)[k] == c && (a + b)[|a| + l] == d;
  }

  lemma BeforeStays<N(!new)>(a: seq<N>, b: seq<N>, c: N, d: N)
    requires StandsBefore(a, c, d)
    ensures StandsBefore(a + b, c, d)
  {
    var k, l :| 0 <= k < l < |a| && a[k] == c && a[l] == d;
    assert (a + b)[k] == c && (a + b)[l] == d;
  }

  lemma InEvent<N(!new)>(log: seq<(Slot<N>, N)>, slot: Slot<N>, c: N)
    requires (slot, c) in log
    ensures c in Dedup(Select(log, slot))
  {
    Selected(log, slot, c);
    DedupKeepsOnce(Select(log, slot));
  }

  lemma {:induction false} InEvents<N(!new)>(group: N, events: seq<N>, log: seq<(Slot<N>, N)>, n: nat, i: nat, c: N)
    requires i < n <= |events| && ((group, events[i]), c) in log
    ensures c in OfEvents(group, events, log, n)
  {
    var before, last := OfEvents(group, events, log, n - 1), Dedup(Select(log, (group, events[n - 1])));
    if i < n - 1 {
      InEvents(group, events, log, n - 1, i, c);
      assert c in before;
    } else {
      InEvent(log, (group, events[i]), c);
      assert c in last;
    }
    assert c in before + last;
  }

  /** A command of an earlier event of the group stands before one of a later event. */
  lemma {:induction false} EarlierEventFirst<N(!new)>(group: N, events: seq<N>, log: seq<(Slot<N>, N)>, n: nat,
                                                      i: nat, j: nat, c: N, d: N)
    requires i < j < n <= |events|
    requires ((group, events[i]), c) in log && ((group, events[j]), d) in log
    ensures StandsBefore(OfEvents(group, events, log, n), c, d)
  {
    var before, last := OfEvents(group, events, log, n - 1), Dedup(Select(log, (group, events[n - 1])));
    if j < n - 1 {
      EarlierEventFirst(group, events, log, n - 1, i, j, c, d);
      BeforeStays(before, last, c, d);
    } else {
      InEvents(group, events, log, n - 1, i, c);
      InEvent(log, (group, events[j]), d);
      FirstPartBefore(before, last, c, d);
    }
  }

  lemma InGroup<N(!new)>(group: N, mentions: seq<Slot<N>>, log: seq<(Slot<N>, N)>, event: N, c: N)
    requires (group, event) in mentions && ((group, event), c) in log
    ensures c in OfGroup(group, mentions, log)
  {
    var events := Dedup(Select(mentions, group));
    Selected(mentions, group, event);
    DedupKeepsOnce(Select(mentions, group));
    var i :| 0 <= i < |events| && events[i] == event;
    InEvents(group, events, log, |events|, i, c);
  }

  lemma {:induction false} InGroups<N(!new)>(groups: seq<N>, mentions: seq<Slot<N>>, log: seq<(Slot<N>, N)>, n: nat,
                                             i: nat, event: N, c: N)
    requires i < n <= |groups| && (groups[i], event) in mentions && ((groups[i], event), c) in log
    ensures c in OfGroups(groups, mentions, log, n)
  {
    var before, last := OfGroups(groups, mentions, log, n - 1), OfGroup(groups[n - 1], mentions, log);
    if i < n - 1 {
      InGroups(groups, mentions, log, n - 1, i, event, c);
      assert c in before;
    } else {
      InGroup(groups[i], mentions, log, event, c);
      assert c in last;
    }
    assert c in before + last;
  }

  /** A command of an earlier group stands before one of a later group. */
  lemma {:induction false} EarlierGroupFirst<N(!new)>(groups: seq<N>, mentions: seq<Slot<N>>, log: seq<(Slot<N>, N)>,
                                                      n: nat, i: nat, e: N, c: N, j: nat, f: N, d: N)
    requires i < j < n <= |groups|
    requires (groups[i], e) in mentions && ((groups[i], e), c) in log
    requires (groups[j], f) in mentions && ((groups[j], f), d) in log
    ensures StandsBefore(OfGroups(groups, mentions, log, n), c, d)
  {
    var before, last := OfGroups(groups, mentions, log, n - 1), OfGroup(groups[n - 1], mentions, log);
    if j < n - 1 {
      EarlierGroupFirst(groups, mentions, log, n - 1, i, e, c, j, f, d);
      BeforeStays(before, last, c, d);
    } else {
      InGroups(groups, mentions, log, n - 1, i, e, c);
      InGroup(groups[j], mentions, log, f, d);
      FirstPartBefore(before, last, c, d);
    }
  }

  /** If the order of two events was never set, the add that comes first decides. */
  lemma UnsetOrderMatters<N(!new)>(g: N, e: N, f: N, c: N, d: N)
    requires e != f && c != d
    ensures var log, log' := [((g, e), c), ((g, f), d)], [((g, f), d), ((g, e), c)];
            && SamePerEvent(log, log')
            && OfGroups([g], Added(log), log, 1) == [c, d]
            && OfGroups([g], Added(log'), log', 1) == [d, c]
  {
    var log, log' := [((g, e), c), ((g, f), d)], [((g, f), d), ((g, e), c)];
    SwapIsReordering([], log[0], log[1], []);
    assert [] + [log[0], log[1]] + [] == log && [] + [log[1], log[0]] + [] == log';
    TwoEvents(g, e, f, c, d);
    TwoEvents(g, f, e, d, c);
  }

  lemma DedupOne<T>(x: T)
    ensures Dedup([x]) == [x]
  {
    assert [x][..0] == [];
  }

  lemma DedupTwo<T>(x: T, y: T)
    requires x != y
    ensures Dedup([x, y]) == [x, y]
  {
    DedupOne(x);
    DedupNext([x], y);
    assert [x] + [y] == [x, y] && AddNew([x], y) == [x, y];
  }

  lemma SelectTwo<K, V>(x: (K, V), y: (K, V), k: K)
    ensures Select([x, y], k) ==
            (if x.0 == k then [x.1] else []) + (if y.0 == k then [y.1] else [])
  {
    assert [x, y][..1] == [x] && [x][..0] == [];
    assert Select([x], k) == if x.0 == k then [x.1] else [];
  }

  lemma AddedTwo<N>(x: (Slot<N>, N), y: (Slot<N>, N))
    ensures Added([x, y]) == [x.0, y.0]
  {
    assert [x, y][..1] == [x] && [x][..0] == [];
    assert Added([x]) == [x.0];
  }

  lemma TwoEvents<N(!new)>(g: N, e: N, f: N, c: N, d: N)
    requires e != f
    ensures var log := [((g, e), c), ((g, f), d)];
            OfGroups([g], Added(log), log, 1) == [c, d]
  {
    var x: (Slot<N>, N), y: (Slot<N>, N) := ((g, e), c), ((g, f), d);
    var log := [x, y];
    AddedTwo(x, y);
    SelectTwo(x.0, y.0, g);
    assert Select(Added(log), g) == [e, f];
    DedupTwo(e, f);
    SelectTwo(x, y, (g, e));
    SelectTwo(x, y, (g, f));
    assert Select(log, (g, e)) == [c] && Select(log, (g, f)) == [d];
    DedupOne(c);
    DedupOne(d);
    assert OfEvents(g, [e, f], log, 1) == [c];
    assert OfEvents(g, [e, f], log, 2) == [c, d];
  }
}
