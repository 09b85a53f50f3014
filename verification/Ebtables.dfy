/**
 The single-device backend: all taps of one host interface number hang on one bridge, and
 the ebtables chain of that bridge says who may talk to whom.
 */
module Ebtables {
  import opened Folding
  import opened Topology
  import opened Connections
  import opened Counting

  /** The tap device 'tap_<node>_<nr>'. */
  datatype Tap = Tap(node: nat, nr: nat)

  /** Accept frames from one tap to another and mark them. */
  datatype Rule = Rule(src: Tap, dst: Tap, mark: nat)

  /** ebtables -I or -D on a chain; the chain of bridge 'wifi<n>' is written n. */
  datatype Command = Command(insert: bool, chain: nat, rule: Rule)

  /** The chains of the bridges, in rule order. The policy of every chain is to drop. */
  type Table = map<nat, seq<Rule>>

  type ChainRule = (nat, Rule)

  /** The two taps in sorted order, so that both directions have the same key. */
  function Sorted(a: Tap, b: Tap): (r: (Tap, Tap)) {
    if a.node < b.node || (a.node == b.node && a.nr <= b.nr) then (a, b) else (b, a)
  }

  function Elements<T>(s: seq<T>): (r: set<T>) {
    set x | x in s
  }

  // ----- Names: tap numbers and connection marks --------------------------------------

  /** The allocators: a tap number for every interface of a node, counted per node, and a
      mark for every unordered pair of taps, counted globally. */
  datatype Names = Names(
    taps: map<(nat, Iface), nat>, nextTap: map<nat, nat>,
    marks: map<(Tap, Tap), nat>, nextMark: nat)
  {
    ghost predicate Valid() {
      && (forall k {:trigger taps[k]} ::
            k in taps ==> k.0 in nextTap && 1 <= taps[k] < nextTap[k.0])
      && (forall n :: n in nextTap ==> 1 <= nextTap[n])
      && (forall k, l {:trigger taps[k], taps[l]} ::
            k in taps && l in taps && k.0 == l.0 && taps[k] == taps[l] ==> k == l)
      && 1 <= nextMark
      && (forall k {:trigger marks[k]} :: k in marks ==> 1 <= marks[k] < nextMark)
      && (forall k, l {:trigger marks[k], marks[l]} ::
            k in marks && l in marks && marks[k] == marks[l] ==> k == l)
    }

    /** Nothing that was named before has changed its name. */
    ghost predicate Extends(before: Names) {
      && (forall k {:trigger k in before.taps} ::
            k in before.taps ==> k in taps && taps[k] == before.taps[k])
      && (forall k {:trigger k in before.marks} ::
            k in before.marks ==> k in marks && marks[k] == before.marks[k])
    }

    function TapOf(node: nat, i: Iface): Tap {
      Tap(node, if (node, i) in taps then taps[(node, i)] else 0)
    }

    function MarkOf(pair: (Tap, Tap)): nat {
      if pair in marks then marks[pair] else 0
    }

    /** A tap number for the interface: the old one, or the next one of the node. */
    function WithTap(node: nat, i: Iface): (r: Names) {
      if (node, i) in taps then this
      else
        var shortId := if node in nextTap then nextTap[node] else 1;
        this.(taps := taps[(node, i) := shortId], nextTap := nextTap[node := shortId + 1])
    }

    /** A mark for the pair of taps: the old one, or the next one. */
    function WithMark(pair: (Tap, Tap)): (r: Names) {
      if pair in marks then this
      else this.(marks := marks[pair := nextMark], nextMark := nextMark + 1)
    }

    function TapX(c: Connection): Tap { TapOf(c.nodes.0, c.ifaces.0) }

    function TapY(c: Connection): Tap { TapOf(c.nodes.1, c.ifaces.1) }

    ghost predicate Named(c: Connection) {
      && (c.nodes.0, c.ifaces.0) in taps
      && (c.nodes.1, c.ifaces.1) in taps
      && Sorted(TapX(c), TapY(c)) in marks
    }

    /** The accept rule of a connection for one direction. */
    function RuleOf(c: Connection, forward: bool): Rule {
      var mark := MarkOf(Sorted(TapX(c), TapY(c)));
      if forward then Rule(TapX(c), TapY(c), mark) else Rule(TapY(c), TapX(c), mark)
    }

    ghost function Rules(cs: set<Connection>): set<ChainRule> {
      set c, forward | c in cs :: (Chain(c), RuleOf(c, forward))
    }

    ghost function Commands(insert: bool, cs: set<Connection>): set<Command> {
      set c, forward | c in cs :: Command(insert, Chain(c), RuleOf(c, forward))
    }
  }

  function Chain(c: Connection): nat { c.ifaces.0.nr }

  /** Connections are stored with the smaller node id first. */
  predicate Oriented(c: Connection) { c.nodes.0 < c.nodes.1 }

  ghost predicate AllNamed(n: Names, cs: set<Connection>) {
    forall c :: c in cs ==> Oriented(c) && n.Named(c)
  }

  /** A rule identifies its connection and its direction, and the mark identifies the pair
      of taps: different connections have different marks. */
  lemma RuleIdentifiesConnection(n: Names, c: Connection, f: bool, c': Connection, f': bool)
    requires n.Valid() && n.Named(c) && n.Named(c') && Oriented(c) && Oriented(c')
    ensures n.RuleOf(c, f) == n.RuleOf(c', f') ==> c == c' && f == f'
    ensures n.RuleOf(c, f).mark == n.RuleOf(c', f').mark ==> c == c'
  {
    if n.RuleOf(c, f).mark == n.RuleOf(c', f').mark {
      SameTapsSameConnection(n, c, c');
    }
  }

  lemma SameTapsSameConnection(n: Names, c: Connection, c': Connection)
    requires n.Valid() && n.Named(c) && n.Named(c') && Oriented(c) && Oriented(c')
    requires Sorted(n.TapX(c), n.TapY(c)) == Sorted(n.TapX(c'), n.TapY(c'))
    ensures c == c'
  {
    assert n.TapX(c) == n.TapX(c') && n.TapY(c) == n.TapY(c');
    assert (c.nodes.0, c.ifaces.0) == (c'.nodes.0, c'.ifaces.0);
    assert (c.nodes.1, c.ifaces.1) == (c'.nodes.1, c'.ifaces.1);
  }

  function WithTaps(n: Names, c: Connection): (r: Names) {
    n.WithTap(c.nodes.0, c.ifaces.0).WithTap(c.nodes.1, c.ifaces.1)
  }

  /** Naming the taps of a connection and then the pair of them names the connection. */
  function WithLink(n: Names, c: Connection): (r: Names) {
    var named := WithTaps(n, c);
    named.WithMark(Sorted(named.TapX(c), named.TapY(c)))
  }

  lemma WithTapKeepsNames(n: Names, node: nat, i: Iface)
    requires n.Valid()
    ensures n.WithTap(node, i).Valid() && n.WithTap(node, i).Extends(n)
  {
  }

  lemma WithMarkKeepsNames(n: Names, pair: (Tap, Tap))
    requires n.Valid()
    ensures n.WithMark(pair).Valid() && n.WithMark(pair).Extends(n)
  {
  }

  lemma ExtendsTransitive(a: Names, b: Names, c: Names)
    requires b.Extends(a) && c.Extends(b)
    ensures c.Extends(a)
  {
  }

  lemma WithTapsKeepsNames(n: Names, c: Connection)
    requires n.Valid()
    ensures WithTaps(n, c).Valid() && WithTaps(n, c).Extends(n)
  {
    WithTapKeepsNames(n, c.nodes.0, c.ifaces.0);
    var m := n.WithTap(c.nodes.0, c.ifaces.0);
    WithTapKeepsNames(m, c.nodes.1, c.ifaces.1);
    ExtendsTransitive(n, m, WithTaps(n, c));
  }

  lemma WithLinkKeepsNames(n: Names, c: Connection)
    requires n.Valid()
    ensures WithLink(n, c).Valid() && WithLink(n, c).Extends(n) && WithLink(n, c).Named(c)
  {
    WithTapsKeepsNames(n, c);
    var m := WithTaps(n, c);
    WithMarkKeepsNames(m, Sorted(m.TapX(c), m.TapY(c)));
    ExtendsTransitive(n, m, WithLink(n, c));
  }

  /** Marks and rules are stable: later allocations never change them. */
  lemma NamesAreStable(before: Names, after: Names, c: Connection, forward: bool)
    requires after.Extends(before) && before.Named(c)
    ensures after.Named(c) && after.RuleOf(c, forward) == before.RuleOf(c, forward)
  {
    assert after.TapX(c) == before.TapX(c) && after.TapY(c) == before.TapY(c);
  }

  lemma RulesAreStable(before: Names, after: Names, cs: set<Connection>)
    requires after.Extends(before) && AllNamed(before, cs)
    ensures AllNamed(after, cs)
    ensures after.Rules(cs) == before.Rules(cs)
    ensures forall insert :: after.Commands(insert, cs) == before.Commands(insert, cs)
  {
    forall c, forward | c in cs
      ensures after.Named(c) && after.RuleOf(c, forward) == before.RuleOf(c, forward)
    {
      NamesAreStable(before, after, c, forward);
    }
  }

  // ----- The kernel's table -----------------------------------------------------------

  function RemoveFirst(s: seq<Rule>, r: Rule): (t: seq<Rule>)
    requires r in s
    ensures Distinct(s) ==> Distinct(t) && Elements(t) == Elements(s) - {r}
    ensures |t| == |s| - 1
  {
    if s[0] == r then
      assert Distinct(s) ==> r !in s[1..];
      s[1..]
    else
      var t := RemoveFirst(s[1..], r);
      assert Distinct(s) ==> Distinct(s[1..]) && s[0] !in s[1..];
      assert Distinct(s) ==> s[0] !in Elements(t);
      assert Elements(s) == {s[0]} + Elements(s[1..]);
      assert Elements([s[0]] + t) == {s[0]} + Elements(t);
      [s[0]] + t
  }

  /** One ebtables call: it fails on an unknown chain and when the rule to delete is missing. */
  function Exec(t: Table, c: Command): (r: Option<Table>) {
    if c.chain !in t then None
    else if c.insert then Some(t[c.chain := [c.rule] + t[c.chain]])
    else if c.rule !in t[c.chain] then None
    else Some(t[c.chain := RemoveFirst(t[c.chain], c.rule)])
  }

  function Run(t: Table, cs: seq<Command>): (r: Option<Table>) {
    if cs == [] then Some(t)
    else
      match Exec(t, cs[0])
      case None => None
      case Some(t') => Run(t', cs[1..])
  }

  /** The table holds exactly these rules, each of them once. */
  ghost predicate Holds(t: Table, rules: set<ChainRule>) {
    && (forall ch :: ch in t ==> Distinct(t[ch]))
    && (forall ch, r :: ch in t && r in t[ch] ==> (ch, r) in rules)
    && (forall ch, r :: (ch, r) in rules ==> ch in t && r in t[ch])
  }

  function Inserted(cs: set<Command>): (r: set<ChainRule>) {
    set c | c in cs && c.insert :: (c.chain, c.rule)
  }

  function Deleted(cs: set<Command>): (r: set<ChainRule>) {
    set c | c in cs && !c.insert :: (c.chain, c.rule)
  }

  /** Every command finds its chain, inserts only new rules and deletes only present ones. */
  ghost predicate Applicable(t: Table, rules: set<ChainRule>, cs: set<Command>) {
    forall c :: c in cs ==>
                  c.chain in t && (c.insert <==> (c.chain, c.rule) !in rules)
  }

  lemma ExecKeepsRules(t: Table, rules: set<ChainRule>, c: Command)
    requires Holds(t, rules) && Applicable(t, rules, {c})
    ensures Exec(t, c).Some? && Exec(t, c).value.Keys == t.Keys
    ensures Holds(Exec(t, c).value, rules + Inserted({c}) - Deleted({c}))
  {
    assert c in {c};
    var t' := Exec(t, c).value;
    if c.insert {
      assert Inserted({c}) == {(c.chain, c.rule)} && Deleted({c}) == {};
      assert Distinct(t'[c.chain]);
    } else {
      assert Inserted({c}) == {} && Deleted({c}) == {(c.chain, c.rule)};
      var s, s' := t[c.chain], t'[c.chain];
      assert forall r :: r in s' <==> r in Elements(s');
      assert forall r :: r in s <==> r in Elements(s);
    }
  }

  /** Distinct applicable commands can run in any order: each succeeds, and the rules in the
      table afterwards depend only on which commands ran. */
  lemma {:induction false} RunInAnyOrder(t: Table, rules: set<ChainRule>, cs: seq<Command>)
    requires Holds(t, rules) && Distinct(cs) && Applicable(t, rules, Elements(cs))
    ensures Run(t, cs).Some? && Run(t, cs).value.Keys == t.Keys
    ensures Holds(Run(t, cs).value,
                  rules + Inserted(Elements(cs)) - Deleted(Elements(cs)))
    decreases cs
  {
    if cs == [] {
      assert rules + Inserted(Elements(cs)) - Deleted(Elements(cs)) == rules;
    } else {
      var c, rest := cs[0], cs[1..];
      assert c in Elements(cs);
      ExecKeepsRules(t, rules, c);
      var t' := Exec(t, c).value;
      var rules' := rules + Inserted({c}) - Deleted({c});
      forall d | d in Elements(rest)
        ensures d in Elements(cs) && d != c
        ensures (d.chain, d.rule) in rules' <==> (d.chain, d.rule) in rules
      {
        assert d in cs;
      }
      RunInAnyOrder(t', rules', rest);
      SplitCommands(rules, c, Elements(rest));
      assert Elements(cs) == {c} + Elements(rest);
    }
  }

  lemma SplitCommands(rules: set<ChainRule>, c: Command, rest: set<Command>)
    requires forall d :: d in rest ==> (d.chain, d.rule) != (c.chain, c.rule)
    ensures rules + Inserted({c}) - Deleted({c}) + Inserted(rest) - Deleted(rest) ==
            rules + Inserted({c} + rest) - Deleted({c} + rest)
  {
    assert Inserted({c} + rest) == Inserted({c}) + Inserted(rest);
    assert Deleted({c} + rest) == Deleted({c}) + Deleted(rest);
    assert Deleted({c}) !! Inserted(rest);
  }

  // ----- What the table means for a frame ---------------------------------------------

  /** The mark of the first rule that matches a frame from src to dst; None is a drop. */
  function FirstMatch(s: seq<Rule>, src: Tap, dst: Tap): (r: Option<nat>) {
    if s == [] then None
    else if s[0].src == src && s[0].dst == dst then Some(s[0].mark)
    else FirstMatch(s[1..], src, dst)
  }

  function Forward(t: Table, chain: nat, src: Tap, dst: Tap): (r: Option<nat>) {
    if chain in t then FirstMatch(t[chain], src, dst) else None
  }

  lemma {:induction false} FirstMatchFindsRule(s: seq<Rule>, src: Tap, dst: Tap)
    ensures FirstMatch(s, src, dst).Some? ==>
              Rule(src, dst, FirstMatch(s, src, dst).value) in s
    ensures forall mark :: Rule(src, dst, mark) in s ==> FirstMatch(s, src, dst).Some?
  {
    if s != [] && !(s[0].src == src && s[0].dst == dst) {
      FirstMatchFindsRule(s[1..], src, dst);
      assert forall r :: r in s <==> r == s[0] || r in s[1..];
    }
  }

  /** If the table holds the rules of a set of connections, then a frame passes between two
      taps iff one of the connections links them on that chain; it gets that mark. */
  lemma ForwardMeansConnected(n: Names, cs: set<Connection>, t: Table, chain: nat,
                              src: Tap, dst: Tap, mark: nat)
    requires n.Valid() && AllNamed(n, cs) && Holds(t, n.Rules(cs))
    ensures Forward(t, chain, src, dst) == Some(mark) <==>
            exists c, forward ::
              c in cs && Chain(c) == chain && n.RuleOf(c, forward) == Rule(src, dst, mark)
  {
    var found := Forward(t, chain, src, dst);
    if chain in t {
      FirstMatchFindsRule(t[chain], src, dst);
    }
    if found == Some(mark) {
      assert (chain, Rule(src, dst, mark)) in n.Rules(cs);
    }
    if c, forward :| c in cs && Chain(c) == chain && n.RuleOf(c, forward) == Rule(src, dst, mark) {
      assert (chain, Rule(src, dst, mark)) in n.Rules(cs);
      assert (chain, Rule(src, dst, found.value)) in n.Rules(cs);
      var c', forward' :|
        c' in cs && Chain(c') == chain && n.RuleOf(c', forward') == Rule(src, dst, found.value);
      assert Sorted(n.TapX(c), n.TapY(c)) == Sorted(src, dst) == Sorted(n.TapX(c'), n.TapY(c'));
    }
  }

  /** The rule lets frames pass between the taps of the two interfaces, one way or the other,
      with the mark of this pair of taps. */
  ghost predicate IsRuleOf(n: Names, p: NodePair, ip: IfacePair, r: Rule) {
    && (p.0, ip.0) in n.taps && (p.1, ip.1) in n.taps
    && var x, y := Tap(p.0, n.taps[(p.0, ip.0)]), Tap(p.1, n.taps[(p.1, ip.1)]);
       (x, y) in n.marks && (r == Rule(x, y, n.marks[(x, y)]) || r == Rule(y, x, n.marks[(x, y)]))
  }

  lemma RuleTapByTap(n: Names, c: Connection, r: Rule)
    requires n.Named(c) && Oriented(c)
    ensures IsRuleOf(n, c.nodes, c.ifaces, r) <==> exists f :: n.RuleOf(c, f) == r
  {
    if IsRuleOf(n, c.nodes, c.ifaces, r) {
      assert n.RuleOf(c, true) == r || n.RuleOf(c, false) == r;
    }
  }

  /** Tap by tap: the rules in a table, and what they do with a frame. */
  lemma RulesTapByTap(n: Names, cs: set<Connection>, t: Table, chain: nat, r: Rule)
    requires n.Valid() && AllNamed(n, cs) && Holds(t, n.Rules(cs))
    ensures chain in t && r in t[chain] <==>
            exists c: Connection :: c in cs && c.ifaces.0.nr == chain && IsRuleOf(n, c.nodes, c.ifaces, r)
    ensures Forward(t, chain, r.src, r.dst) == Some(r.mark) <==> chain in t && r in t[chain]
  {
    assert r == Rule(r.src, r.dst, r.mark);
    ForwardMeansConnected(n, cs, t, chain, r.src, r.dst, r.mark);
    if (chain, r) in n.Rules(cs) {
      var c, f :| c in cs && (Chain(c), n.RuleOf(c, f)) == (chain, r);
      RuleTapByTap(n, c, r);
    }
    if c: Connection :| c in cs && c.ifaces.0.nr == chain && IsRuleOf(n, c.nodes, c.ifaces, r) {
      RuleTapByTap(n, c, r);
      var f :| n.RuleOf(c, f) == r;
      assert (chain, r) in n.Rules(cs);
    }
  }

  // ----- Bridges ----------------------------------------------------------------------

  /** The bridge that each tap is a port of. */
  type Ports = map<Tap, nat>

  /** What happens to a frame from one tap to another: a bridge forwards only between its
      own ports, a bridge with a redirect filters with its chain, and the FORWARD chain lets
      all other frames through. */
  datatype Fate = NotBridged | Unfiltered | Dropped | Accepted(mark: nat)

  function FateOf(t: Table, forward: seq<nat>, ports: Ports, src: Tap, dst: Tap): (r: Fate) {
    if src in ports && dst in ports && ports[src] == ports[dst] then
      if ports[src] !in forward then Unfiltered
      else
        match Forward(t, ports[src], src, dst)
        case None => Dropped
        case Some(mark) => Accepted(mark)
    else NotBridged
  }

  /** Both interfaces of each connection have the same number. */
  ghost predicate Uniform(cs: set<Connection>) {
    forall c {:trigger c in cs} :: c in cs ==> c.ifaces.0.nr == c.ifaces.1.nr
  }

  /** Both taps of the connection have a name and hang on a bridge. */
  ghost predicate Plugged(n: Names, ports: Ports, c: Connection) {
    && (c.nodes.0, c.ifaces.0) in n.taps && (c.nodes.1, c.ifaces.1) in n.taps
    && n.TapX(c) in ports && n.TapY(c) in ports
  }

  /** Ports are named taps on existing bridges, all connections that were started are plugged
      in, and if these are uniform, every tap is on the bridge of its interface number. */
  ghost predicate PortsOk(n: Names, ports: Ports, bridges: set<nat>, started: set<Connection>) {
    && (forall t {:trigger t in ports} :: t in ports ==>
          ports[t] in bridges && t.node in n.nextTap && t.nr < n.nextTap[t.node])
    && (forall c {:trigger c in started} :: c in started ==> Plugged(n, ports, c))
    && (Uniform(started) ==>
          forall k {:trigger k in n.taps} :: k in n.taps && n.TapOf(k.0, k.1) in ports ==>
            ports[n.TapOf(k.0, k.1)] == k.1.nr)
  }

  /** The ports once both taps of a connection have been added to its bridge. */
  function WithPorts(n: Names, ports: Ports, c: Connection): (r: Ports) {
    ports[n.TapX(c) := Chain(c)][n.TapY(c) := Chain(c)]
  }

  /** Naming one more tap leaves all ports as they are. */
  lemma NewTapKeepsPorts(n: Names, ports: Ports, bridges: set<nat>, started: set<Connection>,
                         node: nat, i: Iface)
    requires n.Valid() && PortsOk(n, ports, bridges, started)
    ensures PortsOk(n.WithTap(node, i), ports, bridges, started)
  {
    var n' := n.WithTap(node, i);
    forall c | c in started
      ensures Plugged(n', ports, c)
    {
      assert Plugged(n, ports, c);
    }
    if Uniform(started) {
      forall k | k in n'.taps && n'.TapOf(k.0, k.1) in ports
        ensures ports[n'.TapOf(k.0, k.1)] == k.1.nr
      {
        assert k in n.taps && n.TapOf(k.0, k.1) == n'.TapOf(k.0, k.1);
      }
    }
  }

  /** Starting a connection plugs in both of its taps. */
  lemma StartKeepsPorts(n: Names, ports: Ports, bridges: set<nat>, started: set<Connection>,
                        c: Connection)
    requires n.Valid() && PortsOk(n, ports, bridges, started) && Chain(c) in bridges
    requires (c.nodes.0, c.ifaces.0) in n.taps && (c.nodes.1, c.ifaces.1) in n.taps
    ensures PortsOk(n, WithPorts(n, ports, c), bridges, started + {c})
  {
    var ports' := WithPorts(n, ports, c);
    forall d | d in started + {c}
      ensures Plugged(n, ports', d)
    {
      assert d in started ==> Plugged(n, ports, d);
    }
    if Uniform(started + {c}) {
      assert Uniform(started) by {
        assert forall d :: d in started ==> d in started + {c};
      }
      assert c in started + {c};
      forall k | k in n.taps && n.TapOf(k.0, k.1) in ports'
        ensures ports'[n.TapOf(k.0, k.1)] == k.1.nr
      {
        var x, y := (c.nodes.0, c.ifaces.0), (c.nodes.1, c.ifaces.1);
        assert n.TapOf(k.0, k.1) == n.TapX(c) ==> k == x;
        assert n.TapOf(k.0, k.1) == n.TapY(c) ==> k == y;
      }
    }
  }

  /** Only the taps and their counters matter for the ports. */
  lemma MarksKeepPorts(n: Names, n': Names, ports: Ports, bridges: set<nat>, started: set<Connection>)
    requires PortsOk(n, ports, bridges, started) && n'.taps == n.taps && n'.nextTap == n.nextTap
    ensures PortsOk(n', ports, bridges, started)
  {
    forall c | c in started
      ensures Plugged(n', ports, c)
    {
      assert Plugged(n, ports, c);
    }
  }

  lemma MoreBridgesKeepPorts(n: Names, ports: Ports, bridges: set<nat>, more: set<nat>,
                             started: set<Connection>)
    requires PortsOk(n, ports, bridges, started) && bridges <= more
    ensures PortsOk(n, ports, more, started)
  {
  }

  /** A frame is accepted with a mark iff a connection has the rule for it and both of its
      taps are on the bridge of the connection; no frame goes through unfiltered. */
  lemma FateMeansConnected(n: Names, cs: set<Connection>, t: Table, forward: seq<nat>, ports: Ports,
                           started: set<Connection>, src: Tap, dst: Tap, mark: nat)
    requires n.Valid() && AllNamed(n, cs) && Holds(t, n.Rules(cs)) && cs <= started
    requires Elements(forward) == t.Keys && PortsOk(n, ports, t.Keys, started)
    ensures FateOf(t, forward, ports, src, dst) != Unfiltered
    ensures FateOf(t, forward, ports, src, dst) == Accepted(mark) <==>
            exists c: Connection, f: bool :: c in cs && OnBridge(n, ports, c) &&
                                             n.RuleOf(c, f) == Rule(src, dst, mark)
  {
    if src in ports && dst in ports && ports[src] == ports[dst] {
      assert ports[src] in Elements(forward);
      ForwardMeansConnected(n, cs, t, ports[src], src, dst, mark);
    }
    if c: Connection, f: bool :| c in cs && OnBridge(n, ports, c) && n.RuleOf(c, f) == Rule(src, dst, mark) {
      assert c in started && Plugged(n, ports, c);
    }
  }

  /** Both taps of the connection are ports of its bridge. */
  ghost predicate OnBridge(n: Names, ports: Ports, c: Connection) {
    && n.TapX(c) in ports && ports[n.TapX(c)] == Chain(c)
    && n.TapY(c) in ports && ports[n.TapY(c)] == Chain(c)
  }

  /** With uniform connections, all of them are on their bridges. */
  lemma UniformIsOnBridge(n: Names, ports: Ports, bridges: set<nat>, started: set<Connection>, c: Connection)
    requires PortsOk(n, ports, bridges, started) && Uniform(started) && c in started
    ensures OnBridge(n, ports, c)
  {
    assert Plugged(n, ports, c);
    var x, y := (c.nodes.0, c.ifaces.0), (c.nodes.1, c.ifaces.1);
    assert x in n.taps && y in n.taps;
  }

  /** The state of the ports, folded: the connections that are or will be up were started. */
  ghost predicate Wired(v: View, ports: Ports, started: set<Connection>) {
    && v.base + v.ups <= started
    && forall b {:trigger Unfolding(PortsPart, b)} :: Unfolding(PortsPart, b) ==>
         PortsOk(v.names, ports, v.bridges, started)
  }

  lemma UnfoldPorts(v: View, ports: Ports, started: set<Connection>)
    requires Wired(v, ports, started)
    ensures PortsOk(v.names, ports, v.bridges, started)
  {
    assert Unfolding(PortsPart, true);
  }

  lemma BridgeKeepsWired(v: View, v': View, ports: Ports, started: set<Connection>)
    requires Wired(v, ports, started) && v'.names == v.names && v.bridges <= v'.bridges
    requires v'.base == v.base && v'.ups == v.ups
    ensures Wired(v', ports, started)
  {
    UnfoldPorts(v, ports, started);
    MoreBridgesKeepPorts(v.names, ports, v.bridges, v'.bridges, started);
  }

  lemma StartKeepsWired(v: View, ports: Ports, started: set<Connection>, c: Connection)
    requires v.Valid() && Wired(v, ports, started) && Chain(c) in v.bridges
    ensures var n := WithTaps(v.names, c);
            Wired(v.(names := n), WithPorts(n, ports, c), started + {c})
  {
    Unfold(v);
    UnfoldPorts(v, ports, started);
    var n := v.names.WithTap(c.nodes.0, c.ifaces.0);
    WithTapKeepsNames(v.names, c.nodes.0, c.ifaces.0);
    NewTapKeepsPorts(v.names, ports, v.bridges, started, c.nodes.0, c.ifaces.0);
    WithTapKeepsNames(n, c.nodes.1, c.ifaces.1);
    NewTapKeepsPorts(n, ports, v.bridges, started, c.nodes.1, c.ifaces.1);
    StartKeepsPorts(WithTaps(v.names, c), ports, v.bridges, started, c);
  }

  /** Queueing a started connection names no new taps. */
  lemma QueueingKeepsWired(v: View, ports: Ports, started: set<Connection>, c: Connection, up: bool)
    requires Wired(v, ports, started) && c in started
    ensures Wired(Queued(v, c, up), ports, started)
  {
    UnfoldPorts(v, ports, started);
    assert Plugged(v.names, ports, c);
    MarksKeepPorts(v.names, WithLink(v.names, c), ports, v.bridges, started);
  }

  // ----- The backend ------------------------------------------------------------------

  /** The command store of one event keeps each command once. */
  lemma QueuedOnce<T>(queue: seq<T>, cmd: T)
    ensures Distinct(queue) ==> Distinct(AddNew(queue, cmd))
    ensures Elements(AddNew(queue, cmd)) == Elements(queue) + {cmd}
  {
  }

  /** Everything the invariant of the backend speaks about. The connections in base are the
      ones whose rules are installed; the rules of ups and downs are queued. */
  datatype View = View(
    names: Names, bridges: set<nat>, newChains: seq<nat>, commands: seq<Command>,
    table: Table, base: set<Connection>, ups: set<Connection>, downs: set<Connection>)
  {
    ghost predicate NamesOk() {
      && names.Valid() && AllNamed(names, base) && AllNamed(names, ups)
      && downs <= base && ups !! base
    }

    ghost predicate ChainsOk() {
      && (forall c :: c in base || c in ups ==> Chain(c) in bridges)
      && Distinct(newChains) && Elements(newChains) !! table.Keys
      && table.Keys + Elements(newChains) == bridges
    }

    ghost predicate QueueOk() {
      && Distinct(commands)
      && Elements(commands) == names.Commands(true, ups) + names.Commands(false, downs)
    }

    ghost predicate Inv() {
      NamesOk() && ChainsOk() && QueueOk() && Holds(table, names.Rules(base))
    }

    /** The invariant, folded: only the lemma Unfold makes it available. */
    ghost predicate Valid() {
      forall b {:trigger Unfolding(RulesPart, b)} :: Unfolding(RulesPart, b) ==> Inv()
    }
  }

  lemma Unfold(v: View)
    requires v.Valid()
    ensures v.Inv()
  {
    assert Unfolding(RulesPart, true);
  }

  /** New names do not disturb the backend. */
  lemma RenamingKeepsInv(v: View, names': Names)
    requires v.Inv() && names'.Valid() && names'.Extends(v.names)
    ensures v.(names := names').Inv()
  {
    RulesAreStable(v.names, names', v.base);
    RulesAreStable(v.names, names', v.ups);
    DownsAreNamed(v);
    RulesAreStable(v.names, names', v.downs);
  }

  lemma DownsAreNamed(v: View)
    requires v.NamesOk()
    ensures AllNamed(v.names, v.downs)
  {
  }

  lemma CommandsOfOne(n: Names, insert: bool, c: Connection)
    ensures n.Commands(insert, {c}) == {Command(insert, Chain(c), n.RuleOf(c, true)),
                                        Command(insert, Chain(c), n.RuleOf(c, false))}
  {
    assert c in {c};
    forall cmd | cmd in n.Commands(insert, {c})
      ensures cmd == Command(insert, Chain(c), n.RuleOf(c, true)) ||
              cmd == Command(insert, Chain(c), n.RuleOf(c, false))
    {
      var x, f :| x in {c} && cmd == Command(insert, Chain(x), n.RuleOf(x, f));
      assert f == true || f == false;
    }
  }

  lemma CommandsOfMore(n: Names, insert: bool, cs: set<Connection>, c: Connection)
    ensures n.Commands(insert, cs + {c}) == n.Commands(insert, cs) + n.Commands(insert, {c})
  {
  }

  /** The queue with both directions of a connection. */
  function QueueBoth(commands: seq<Command>, n: Names, c: Connection, up: bool): (r: seq<Command>)
    ensures Distinct(commands) ==> Distinct(r)
    ensures Elements(r) == Elements(commands) + n.Commands(up, {c})
  {
    CommandsOfOne(n, up, c);
    var first, second := Command(up, Chain(c), n.RuleOf(c, true)), Command(up, Chain(c), n.RuleOf(c, false));
    QueuedOnce(commands, first);
    QueuedOnce(AddNew(commands, first), second);
    AddNew(AddNew(commands, first), second)
  }

  lemma QueueStaysOk(v: View, c: Connection, up: bool)
    requires v.QueueOk()
    ensures v.(commands := QueueBoth(v.commands, v.names, c, up),
               ups := if up then v.ups + {c} else v.ups,
               downs := if up then v.downs else v.downs + {c}).QueueOk()
  {
    CommandsOfMore(v.names, up, if up then v.ups else v.downs, c);
  }

  lemma QueueingKeepsInv(v: View, c: Connection, up: bool)
    requires v.Inv() && Oriented(c) && v.names.Named(c) && Chain(c) in v.bridges
    requires if up then c !in v.base && c !in v.ups else c in v.base && c !in v.downs
    ensures v.(commands := QueueBoth(v.commands, v.names, c, up),
               ups := if up then v.ups + {c} else v.ups,
               downs := if up then v.downs else v.downs + {c}).Inv()
  {
    QueueStaysOk(v, c, up);
    var v' := v.(commands := QueueBoth(v.commands, v.names, c, up),
                 ups := if up then v.ups + {c} else v.ups,
                 downs := if up then v.downs else v.downs + {c});
    assert v'.NamesOk() && v'.ChainsOk();
  }

  /** The backend once both directions of a connection have been queued. */
  ghost function Queued(v: View, c: Connection, up: bool): View {
    v.(names := WithLink(v.names, c),
       commands := QueueBoth(v.commands, WithLink(v.names, c), c, up),
       ups := if up then v.ups + {c} else v.ups,
       downs := if up then v.downs else v.downs + {c})
  }

  /** Queueing both directions of one more connection keeps the invariant. */
  lemma QueueingKeepsValid(v: View, c: Connection, up: bool)
    requires v.Valid() && (up ==> Oriented(c) && Chain(c) in v.bridges)
    requires if up then c !in v.base && c !in v.ups else c in v.base && c !in v.downs
    ensures WithLink(v.names, c).Extends(v.names)
    ensures Queued(v, c, up).Valid()
  {
    Unfold(v);
    WithLinkKeepsNames(v.names, c);
    RenamingKeepsInv(v, WithLink(v.names, c));
    QueueingKeepsInv(v.(names := WithLink(v.names, c)), c, up);
  }

  lemma NamingTapsKeepsValid(v: View, c: Connection)
    requires v.Valid()
    ensures WithTaps(v.names, c).Extends(v.names)
    ensures v.(names := WithTaps(v.names, c)).Valid()
  {
    Unfold(v);
    WithTapsKeepsNames(v.names, c);
    RenamingKeepsInv(v, WithTaps(v.names, c));
  }

  lemma NewChainKeepsValid(v: View, br: nat)
    requires v.Valid() && br !in v.bridges
    ensures br !in v.newChains
    ensures v.(bridges := v.bridges + {br}, newChains := v.newChains + [br]).Valid()
  {
    Unfold(v);
    assert br !in Elements(v.newChains);
    assert Elements(v.newChains + [br]) == Elements(v.newChains) + {br};
  }

  lemma InRules(n: Names, cs: set<Connection>, c: Connection, f: bool)
    requires n.Valid() && AllNamed(n, cs) && n.Named(c) && Oriented(c)
    ensures (Chain(c), n.RuleOf(c, f)) in n.Rules(cs) <==> c in cs
  {
    if (Chain(c), n.RuleOf(c, f)) in n.Rules(cs) {
      var d, g :| d in cs && (Chain(d), n.RuleOf(d, g)) == (Chain(c), n.RuleOf(c, f));
      RuleIdentifiesConnection(n, c, f, d, g);
    }
  }

  /** The queued commands fit the installed rules, once all queued chains exist. */
  lemma QueueIsApplicable(v: View, t: Table)
    requires v.Inv() && t.Keys == v.bridges
    ensures Applicable(t, v.names.Rules(v.base), Elements(v.commands))
  {
    forall cmd | cmd in Elements(v.commands)
      ensures cmd.chain in t && (cmd.insert <==> (cmd.chain, cmd.rule) !in v.names.Rules(v.base))
    {
      var cs := if cmd in v.names.Commands(true, v.ups) then v.ups else v.downs;
      var c, f :| c in cs && cmd == Command(cmd.insert, Chain(c), v.names.RuleOf(c, f));
      InRules(v.names, v.base, c, f);
    }
  }

  lemma RulesOfTarget(v: View)
    requires v.Inv()
    ensures v.names.Rules(v.base) + Inserted(Elements(v.commands)) - Deleted(Elements(v.commands))
            == v.names.Rules(v.base + v.ups - v.downs)
  {
    var n, target := v.names, v.base + v.ups - v.downs;
    InsertedAndDeleted(v);
    forall r | r in n.Rules(v.base) + n.Rules(v.ups)
      ensures r in n.Rules(v.downs) <==> r !in n.Rules(target)
    {
      var c, f :| c in v.base + v.ups && r == (Chain(c), n.RuleOf(c, f));
      InRules(n, v.downs, c, f);
      InRules(n, target, c, f);
    }
    assert n.Rules(target) <= n.Rules(v.base) + n.Rules(v.ups);
  }

  lemma InsertedAndDeleted(v: View)
    requires v.QueueOk()
    ensures Inserted(Elements(v.commands)) == v.names.Rules(v.ups)
    ensures Deleted(Elements(v.commands)) == v.names.Rules(v.downs)
  {
    var n, all := v.names, Elements(v.commands);
    forall c, f | c in v.ups
      ensures (Chain(c), n.RuleOf(c, f)) in Inserted(all)
    {
      assert Command(true, Chain(c), n.RuleOf(c, f)) in all;
    }
    forall c, f | c in v.downs
      ensures (Chain(c), n.RuleOf(c, f)) in Deleted(all)
    {
      assert Command(false, Chain(c), n.RuleOf(c, f)) in all;
    }
  }

  /** The backend after its queue has run. */
  ghost function Flushed(v: View, t: Table): View {
    v.(newChains := [], commands := [], table := t, base := v.base + v.ups - v.downs,
       ups := {}, downs := {})
  }

  /** In whatever order the queued commands run, none fails, and afterwards the table holds
      exactly the rules of the connections that are meant to be up. */
  lemma RunningTheQueue(v: View, t: Table, order: seq<Command>)
    requires v.Valid() && t.Keys == v.bridges && Holds(t, v.names.Rules(v.base))
    requires Distinct(order) && Elements(order) <= Elements(v.commands)
    ensures Run(t, order).Some? && Run(t, order).value.Keys == t.Keys
    ensures Elements(order) == Elements(v.commands) ==> Flushed(v, Run(t, order).value).Valid()
  {
    Unfold(v);
    QueueIsApplicable(v, t);
    RunInAnyOrder(t, v.names.Rules(v.base), order);
    if Elements(order) == Elements(v.commands) {
      RulesOfTarget(v);
      FlushedInv(v, Run(t, order).value);
    }
  }

  lemma FlushedInv(v: View, t: Table)
    requires v.Inv() && t.Keys == v.bridges
    requires Holds(t, v.names.Rules(v.base + v.ups - v.downs))
    ensures Flushed(v, t).Inv()
  {
  }

  lemma CreatingChains(v: View, t: Table)
    requires v.Valid() && v.table.Keys <= t.Keys
    requires forall ch :: ch in t ==> t[ch] == if ch in v.table then v.table[ch] else []
    ensures Holds(t, v.names.Rules(v.base))
  {
    Unfold(v);
  }

  lemma ChainsToCreate(v: View)
    requires v.Valid()
    ensures v.table.Keys + Elements(v.newChains) == v.bridges
    ensures Elements(v.newChains) !! v.table.Keys && Distinct(v.newChains)
  {
    Unfold(v);
  }

  lemma NextInOrder<T>(s: seq<T>, x: T)
    ensures Elements(s + [x]) == Elements(s) + {x}
    ensures Distinct(s) && x !in Elements(s) ==> Distinct(s + [x])
  {
  }
}
