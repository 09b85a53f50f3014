/**
 What a static network backend knows beforehand: the union of all CORE topologies of the
 scenario, and the tap devices that every node gets for it.
 */
module StaticTopology {
  import opened Topology
  import opened Counting

  /** For every listed node the nodes it is connected to. */
  type Adjacency = map<nat, set<nat>>

  function At(d: Adjacency, a: nat): (r: set<nat>) {
    if a in d then d[a] else {}
  }

  /** One of the topologies connects the two nodes, in whichever direction it lists them. */
  ghost predicate Adjacent(cores: seq<Adjacency>, a: nat, b: nat) {
    exists i :: 0 <= i < |cores| && (b in At(cores[i], a) || a in At(cores[i], b))
  }

  /** Enters k at all the given nodes. */
  method AddBack(d: Adjacency, nodes: set<nat>, k: nat) returns (r: Adjacency)
    ensures forall a, b :: b in At(r, a) <==> b in At(d, a) || (b == k && a in nodes)
  {
    r := d;
    var todo := nodes;
    while todo != {}
      invariant todo <= nodes
      invariant forall a, b :: b in At(r, a) <==> b in At(d, a) || (b == k && a in nodes - todo)
    {
      var a :| a in todo;
      ghost var was := r;
      r := r[a := At(r, a) + {k}];
      assert forall x :: At(r, x) == if x == a then At(was, x) + {k} else At(was, x);
      todo := todo - {a};
    }
  }

  /** The symmetric closure. */
  method ToFullyStaffedMatrix(d: Adjacency) returns (r: Adjacency)
    ensures forall a, b :: b in At(r, a) <==> b in At(d, a) || a in At(d, b)
  {
    r := d;
    var todo := d.Keys;
    while todo != {}
      invariant todo <= d.Keys
      invariant forall a, b ::
        b in At(r, a) <==> b in At(d, a) || (a in At(d, b) && b !in todo)
    {
      var k :| k in todo;
      r := AddBack(r, d[k], k);
      todo := todo - {k};
    }
  }

  /** Adds the connections of one topology. */
  method Update(d: Adjacency, core: Adjacency) returns (r: Adjacency)
    ensures forall a :: At(r, a) == At(d, a) + At(core, a)
  {
    r := d;
    var todo := core.Keys;
    while todo != {}
      invariant todo <= core.Keys
      invariant forall a :: At(r, a) == At(d, a) + (if a in todo then {} else At(core, a))
    {
      var k :| k in todo;
      r := r[k := At(r, k) + core[k]];
      todo := todo - {k};
    }
  }

  lemma ClosureIsAdjacency(cores: seq<Adjacency>, union: Adjacency, all: Adjacency, a: nat, b: nat)
    requires forall x, y {:trigger y in At(union, x)} ::
               y in At(union, x) <==> exists j :: 0 <= j < |cores| && y in At(cores[j], x)
    requires forall x, y {:trigger y in At(all, x)} ::
               y in At(all, x) <==> y in At(union, x) || x in At(union, y)
    ensures b in At(all, a) <==> Adjacent(cores, a, b)
  {
    var here, there, back := At(all, a), At(union, a), At(union, b);
    assert b in here <==> b in there || a in back;
  }

  class NetworkBackendStatic {
    const cores: seq<Adjacency>
    var allConnections: Option<Adjacency>

    ghost predicate Valid()
      reads this
    {
      allConnections.Some? ==>
        forall a, b :: b in At(allConnections.value, a) <==> Adjacent(cores, a, b)
    }

    constructor (cores: seq<Adjacency>)
      ensures Valid() && this.cores == cores
    {
      this.cores := cores;
      allConnections := None;
    }

    /** All connections the nodes will ever have, computed once. */
    method GetAllConnections() returns (all: Adjacency)
      requires Valid()
      modifies this
      ensures Valid() && allConnections == Some(all)
      ensures old(allConnections).Some? ==> all == old(allConnections).value
      ensures forall a, b :: b in At(all, a) <==> Adjacent(cores, a, b)
    {
      if allConnections.Some? {
        return allConnections.value;
      }
      var union: Adjacency := map[];
      for i := 0 to |cores|
        invariant allConnections == None
        invariant forall a, b :: b in At(union, a) <==>
                    exists j :: 0 <= j < i && b in At(cores[j], a)
      {
        union := Update(union, cores[i]);
      }
      all := ToFullyStaffedMatrix(union);
      forall a, b
        ensures b in At(all, a) <==> Adjacent(cores, a, b)
      {
        ClosureIsAdjacency(cores, union, all, a, b);
      }
      allConnections := Some(all);
    }
  }

  // ----- Tap devices ------------------------------------------------------------------

  /** How many of the first n entries are of this kind. */
  function Count(kinds: seq<Kind>, kind: Kind, n: nat): (r: nat)
    requires n <= |kinds|
  {
    if n == 0 then 0
    else Count(kinds, kind, n - 1) + if kinds[n - 1] == kind then 1 else 0
  }

  /** Interfaces that get one tap device per neighbour. */
  predicate PerLink(kind: Kind) {
    kind != HubWiFi && kind != Management
  }

  /** The interfaces of every kind are numbered from 1. */
  ghost predicate Numbered(kinds: seq<Kind>, r: seq<Iface>) {
    && |r| <= |kinds|
    && forall k {:trigger r[k]} :: 0 <= k < |r| ==>
         r[k].kind == kinds[k] && r[k].nr == Count(kinds, kinds[k], k) + 1
  }

  /** Numbers the interfaces of every kind from 1. */
  method Factory(kinds: seq<Kind>) returns (r: seq<Iface>)
    ensures |r| == |kinds| && Numbered(kinds, r)
  {
    var counter: map<Kind, nat> := map[];
    r := [];
    for j := 0 to |kinds|
      invariant |r| == j && Numbered(kinds, r)
      invariant forall kind :: Count(kinds, kind, j) + 1 == if kind in counter then counter[kind] else 1
    {
      var kind := kinds[j];
      var nr := if kind in counter then counter[kind] else 1;
      r := r + [Iface(kind, nr)];
      counter := counter[kind := nr + 1];
    }
  }

  lemma {:induction false} CountIsMonotone(kinds: seq<Kind>, kind: Kind, j: nat, n: nat)
    requires j <= n <= |kinds|
    ensures Count(kinds, kind, j) <= Count(kinds, kind, n)
    decreases n
  {
    if j < n {
      CountIsMonotone(kinds, kind, j, n - 1);
    }
  }

  /** The nr-th entry of a kind. */
  lemma {:induction false} NthOfKind(kinds: seq<Kind>, kind: Kind, n: nat, nr: nat) returns (k: nat)
    requires n <= |kinds| && 1 <= nr <= Count(kinds, kind, n)
    ensures k < n && kinds[k] == kind && Count(kinds, kind, k) + 1 == nr
    decreases n
  {
    if nr == Count(kinds, kind, n) && kinds[n - 1] == kind {
      k := n - 1;
    } else {
      k := NthOfKind(kinds, kind, n - 1, nr);
    }
  }

  /** The numbers of a kind are 1 up to its count. */
  lemma FactoryNumbers(kinds: seq<Kind>, r: seq<Iface>, i: Iface)
    requires |r| == |kinds| && Numbered(kinds, r)
    ensures i in r <==> 1 <= i.nr <= Count(kinds, i.kind, |kinds|)
  {
    if i in r {
      var k :| 0 <= k < |r| && r[k] == i;
      CountIsMonotone(kinds, i.kind, k + 1, |kinds|);
    }
    if 1 <= i.nr <= Count(kinds, i.kind, |kinds|) {
      var k := NthOfKind(kinds, i.kind, |kinds|, i.nr);
      assert r[k] == i;
    }
  }

  /** No two interfaces of a node get the same number. */
  lemma FactoryDistinct(kinds: seq<Kind>, r: seq<Iface>)
    requires |r| == |kinds| && Numbered(kinds, r)
    ensures Distinct(r)
  {
    forall j, k | 0 <= j < k < |r|
      ensures r[j] != r[k]
    {
      CountIsMonotone(kinds, kinds[j], j + 1, k);
    }
  }

  lemma {:induction false} CountOfPrefix(xs: seq<Kind>, ys: seq<Kind>, kind: Kind, n: nat)
    requires n <= |xs|
    ensures Count(xs + ys, kind, n) == Count(xs, kind, n)
  {
    if n > 0 {
      CountOfPrefix(xs, ys, kind, n - 1);
    }
  }

  lemma CountAppended(xs: seq<Kind>, x: Kind, kind: Kind)
    ensures Count(xs + [x], kind, |xs + [x]|) == Count(xs, kind, |xs|) + if x == kind then 1 else 0
  {
    CountOfPrefix(xs, [x], kind, |xs|);
  }

  function Repeated(kind: Kind, n: nat): (r: seq<Kind>)
    ensures |r| == n && forall k :: 0 <= k < n ==> r[k] == kind
  {
    if n == 0 then [] else Repeated(kind, n - 1) + [kind]
  }

  /** The kinds of the first n entries, each as often as it needs interfaces. */
  function Expanded(kinds: seq<Kind>, n: nat, degree: nat): (r: seq<Kind>)
    requires n <= |kinds|
  {
    if n == 0 then []
    else Expanded(kinds, n - 1, degree) + Repeated(kinds[n - 1], if PerLink(kinds[n - 1]) then degree else 1)
  }

  lemma {:induction false} ExpandedPrefix(xs: seq<Kind>, ys: seq<Kind>, n: nat, degree: nat)
    requires n <= |xs|
    ensures Expanded(xs + ys, n, degree) == Expanded(xs, n, degree)
  {
    if n > 0 {
      ExpandedPrefix(xs, ys, n - 1, degree);
    }
  }

  /** One more entry puts its interfaces behind those of the others: one per neighbour, or only
      one for a hub or management interface. */
  lemma ExpandedAppends(kinds: seq<Kind>, kind: Kind, degree: nat)
    ensures Expanded([], 0, degree) == []
    ensures Expanded(kinds + [kind], |kinds| + 1, degree) ==
            Expanded(kinds, |kinds|, degree) +
            seq(if kind == HubWiFi || kind == Management then 1 else degree, _ => kind)
  {
    ExpandedPrefix(kinds, [kind], |kinds|, degree);
    var n := if kind == HubWiFi || kind == Management then 1 else degree;
    assert Repeated(kind, n) == seq(n, _ => kind);
  }

  /** One entry of the kind for every neighbour. */
  method Extend(kinds: seq<Kind>, kind: Kind, neighbours: set<nat>) returns (r: seq<Kind>)
    ensures r == kinds + Repeated(kind, |neighbours|)
    ensures forall k :: Count(r, k, |r|) ==
              Count(kinds, k, |kinds|) + if k == kind then |neighbours| else 0
  {
    r := kinds;
    var todo := neighbours;
    while todo != {}
      invariant todo <= neighbours && |todo| <= |neighbours|
      invariant r == kinds + Repeated(kind, |neighbours| - |todo|)
      invariant forall k :: Count(r, k, |r|) ==
                  Count(kinds, k, |kinds|) + if k == kind then |neighbours| - |todo| else 0
    {
      var a :| a in todo;
      forall k ensures Count(r + [kind], k, |r + [kind]|) ==
                       Count(r, k, |r|) + if kind == k then 1 else 0
      {
        CountAppended(r, kind, k);
      }
      r := r + [kind];
      todo := todo - {a};
    }
  }

  /** How many interfaces of a kind a node ends up with. */
  function Taps(kinds: seq<Kind>, kind: Kind, n: nat, degree: nat): (r: nat)
    requires n <= |kinds|
  {
    Count(kinds, kind, n) * if PerLink(kind) then degree else 1
  }

  lemma {:induction false} CountIsCardinality(kinds: seq<Kind>, kind: Kind, n: nat)
    requires n <= |kinds|
    ensures Count(kinds, kind, n) == |set k: nat | k < n && kinds[k] == kind|
  {
    if n > 0 {
      CountIsCardinality(kinds, kind, n - 1);
      OneMorePosition(kinds, kind, n - 1);
    }
  }

  lemma OneMorePosition(kinds: seq<Kind>, kind: Kind, n: nat)
    requires n < |kinds|
    ensures |set k: nat | k < n + 1 && kinds[k] == kind| ==
            |set k: nat | k < n && kinds[k] == kind| + if kinds[n] == kind then 1 else 0
  {
    var more, less := set k: nat | k < n + 1 && kinds[k] == kind, set k: nat | k < n && kinds[k] == kind;
    assert more == if kinds[n] == kind then less + {n} else less;
  }

  /** An interface has the number behind those of its kind before it. */
  lemma NumberAsCount(kinds: seq<Kind>, r: seq<Iface>, k: nat)
    requires |r| == |kinds| && Numbered(kinds, r) && k < |r|
    ensures r[k].nr == |set l: nat | l < k && r[l].kind == r[k].kind| + 1
  {
    CountIsCardinality(kinds, kinds[k], k);
    assert (set l: nat | l < k && r[l].kind == r[k].kind) == set l: nat | l < k && kinds[l] == kinds[k];
  }

  /** How often a kind is listed. */
  function Listed(kinds: seq<Kind>, kind: Kind): (n: nat) {
    |set k: nat | k < |kinds| && kinds[k] == kind|
  }

  lemma TapsNext(kinds: seq<Kind>, j: nat, degree: nat, kind: Kind)
    requires j < |kinds|
    ensures Taps(kinds, kind, j + 1, degree) == Taps(kinds, kind, j, degree) +
            if kind != kinds[j] then 0 else if PerLink(kind) then degree else 1
  {
  }

  /** The kinds of the interfaces, in order. */
  method AdjustKinds(kinds: seq<Kind>, neighbours: set<nat>) returns (adjusted: seq<Kind>)
    ensures forall k :: Count(adjusted, k, |adjusted|) == Taps(kinds, k, |kinds|, |neighbours|)
    ensures adjusted == Expanded(kinds, |kinds|, |neighbours|)
  {
    adjusted := [];
    for j := 0 to |kinds|
      invariant forall k :: Count(adjusted, k, |adjusted|) == Taps(kinds, k, j, |neighbours|)
      invariant adjusted == Expanded(kinds, j, |neighbours|)
    {
      forall k ensures Taps(kinds, k, j + 1, |neighbours|) == Taps(kinds, k, j, |neighbours|) +
          if k != kinds[j] then 0 else if PerLink(k) then |neighbours| else 1
      {
        TapsNext(kinds, j, |neighbours|, k);
      }
      if PerLink(kinds[j]) {
        adjusted := Extend(adjusted, kinds[j], neighbours);
      } else {
        forall k ensures Count(adjusted + [kinds[j]], k, |adjusted + [kinds[j]]|) ==
                         Count(adjusted, k, |adjusted|) + if kinds[j] == k then 1 else 0
        {
          CountAppended(adjusted, kinds[j], k);
        }
        assert Repeated(kinds[j], 1) == [kinds[j]];
        adjusted := adjusted + [kinds[j]];
      }
    }
  }

  lemma AdjustedNumbers(kinds: seq<Kind>, adjusted: seq<Kind>, ifs: seq<Iface>, degree: nat, i: Iface)
    requires forall k :: Count(adjusted, k, |adjusted|) == Taps(kinds, k, |kinds|, degree)
    requires |ifs| == |adjusted| && Numbered(adjusted, ifs)
    ensures i in ifs <==> 1 <= i.nr <= Taps(kinds, i.kind, |kinds|, degree)
    ensures Taps(kinds, i.kind, |kinds|, degree) ==
            Listed(kinds, i.kind) * if i.kind == HubWiFi || i.kind == Management then 1 else degree
  {
    FactoryNumbers(adjusted, ifs, i);
    CountIsCardinality(kinds, i.kind, |kinds|);
  }

  /** For each link of the node, one more interface of every kind it has. */
  method AdjustInterfacesToNumberOfLinks(kinds: seq<Kind>, neighbours: set<nat>)
    returns (ifs: seq<Iface>)
    ensures Distinct(ifs)
    ensures forall i :: i in ifs <==> 1 <= i.nr <= Taps(kinds, i.kind, |kinds|, |neighbours|)
    ensures forall i {:trigger i in ifs} :: i in ifs <==>
              1 <= i.nr <= Listed(kinds, i.kind) * if i.kind == HubWiFi || i.kind == Management then 1 else |neighbours|
    ensures |ifs| == |Expanded(kinds, |kinds|, |neighbours|)|
    ensures forall k :: 0 <= k < |ifs| ==>
              && ifs[k].kind == Expanded(kinds, |kinds|, |neighbours|)[k]
              && ifs[k].nr == |set l: nat | l < k && ifs[l].kind == ifs[k].kind| + 1
  {
    var adjusted := AdjustKinds(kinds, neighbours);
    ifs := Factory(adjusted);
    forall k | 0 <= k < |ifs|
      ensures ifs[k].nr == |set l: nat | l < k && ifs[l].kind == ifs[k].kind| + 1
    {
      NumberAsCount(adjusted, ifs, k);
    }
    FactoryDistinct(adjusted, ifs);
    forall i: Iface
      ensures i in ifs <==> 1 <= i.nr <= Taps(kinds, i.kind, |kinds|, |neighbours|)
      ensures Taps(kinds, i.kind, |kinds|, |neighbours|) ==
              Listed(kinds, i.kind) * if i.kind == HubWiFi || i.kind == Management then 1 else |neighbours|
    {
      AdjustedNumbers(kinds, adjusted, ifs, |neighbours|, i);
    }
  }
}
