/**
 Distributing a distance matrix to the emulation servers: which part of it a server needs,
 and the form in which it travels.
 */
module MatrixDistribution {
  import opened Topology

  /** The nodes that each emulation server maintains. */
  type Mapping = map<nat, seq<nat>>

  /** The entries with at least one endpoint among the nodes. */
  function Local(m: Matrix, nodes: seq<nat>): (r: Matrix) {
    map p | p in m && (p.0 in nodes || p.1 in nodes) :: m[p]
  }

  /** No node has two servers. */
  predicate Disjoint(mapping: Mapping) {
    forall s, t, node :: s in mapping && t in mapping && node in mapping[s] && node in mapping[t]
                         ==> s == t
  }

  ghost predicate Owned(mapping: Mapping, node: nat) {
    exists s :: s in mapping && node in mapping[s]
  }

  /** Every entry of the matrix has an endpoint on some server. */
  ghost predicate Covers(mapping: Mapping, m: Matrix) {
    forall p {:trigger p in m} :: p in m ==> Owned(mapping, p.0) || Owned(mapping, p.1)
  }

  method GetServerForNode(mapping: Mapping, node: nat) returns (server: Option<nat>)
    ensures IsServerOf(mapping, node, server)
  {
    var todo := mapping.Keys;
    while todo != {}
      invariant todo <= mapping.Keys
      invariant forall s :: s in mapping && s !in todo ==> node !in mapping[s]
    {
      var s :| s in todo;
      if node in mapping[s] {
        return Some(s);
      }
      todo := todo - {s};
    }
    return None;
  }

  /** The matrices that the coordinator hands out, per server. An entry goes to the servers of
      its two endpoints; the key None collects endpoints that no server maintains. */
  method MapDistanceMatrixToServers(mapping: Mapping, m: Matrix, individual: bool)
    returns (res: map<Option<nat>, Matrix>)
    ensures forall s :: s in mapping ==> Some(s) in res
    ensures !individual ==> forall s :: s in mapping ==> res[Some(s)] == m
    ensures individual && Disjoint(mapping) ==>
              forall s :: s in mapping ==> res[Some(s)] == Local(m, mapping[s])
  {
    if !individual {
      res := ForEachServer(mapping.Keys, m);
      return;
    }
    res := ForEachServer(mapping.Keys, map[]);
    var todo := m.Keys;
    while todo != {}
      invariant todo <= m.Keys
      invariant forall s :: s in mapping ==> Some(s) in res
      invariant Disjoint(mapping) ==>
                  forall s :: s in mapping ==> res[Some(s)] == Local(m - todo, mapping[s])
    {
      var p :| p in todo;
      var sx := GetServerForNode(mapping, p.0);
      var sy := GetServerForNode(mapping, p.1);
      if Disjoint(mapping) {
        forall s | s in mapping
          ensures Put(Put(res, sx, p, m[p]), sy, p, m[p])[Some(s)] ==
                  Local(m - (todo - {p}), mapping[s])
        {
          PutReachesOwners(mapping, m, res, todo, p, sx, sy, s);
        }
      }
      res := Put(res, sx, p, m[p]);
      res := Put(res, sy, p, m[p]);
      todo := todo - {p};
    }
    assert m - {} == m;
  }

  method ForEachServer(servers: set<nat>, m: Matrix) returns (res: map<Option<nat>, Matrix>)
    ensures forall s :: s in servers ==> Some(s) in res && res[Some(s)] == m
  {
    res := map[];
    var todo := servers;
    while todo != {}
      invariant todo <= servers
      invariant forall s :: s in servers && s !in todo ==> Some(s) in res && res[Some(s)] == m
    {
      var s :| s in todo;
      res := res[Some(s) := m];
      todo := todo - {s};
    }
  }

  /** A write into a dictionary of dictionaries that creates missing entries. */
  function Put(res: map<Option<nat>, Matrix>, k: Option<nat>, p: NodePair, d: int)
    : (r: map<Option<nat>, Matrix>)
  {
    res[k := (if k in res then res[k] else map[])[p := d]]
  }

  ghost predicate IsServerOf(mapping: Mapping, node: nat, server: Option<nat>) {
    && (server.Some? ==> server.value in mapping && node in mapping[server.value])
    && (server.Some? <==> Owned(mapping, node))
  }

  lemma PutReachesOwners(mapping: Mapping, m: Matrix, res: map<Option<nat>, Matrix>,
                         todo: set<NodePair>, p: NodePair, sx: Option<nat>, sy: Option<nat>, s: nat)
    requires Disjoint(mapping) && s in mapping && Some(s) in res && p in todo && p in m
    requires res[Some(s)] == Local(m - todo, mapping[s])
    requires IsServerOf(mapping, p.0, sx) && IsServerOf(mapping, p.1, sy)
    ensures Put(Put(res, sx, p, m[p]), sy, p, m[p])[Some(s)] == Local(m - (todo - {p}), mapping[s])
  {
    var after := Put(Put(res, sx, p, m[p]), sy, p, m[p])[Some(s)];
    assert p.0 in mapping[s] <==> sx == Some(s);
    assert p.1 in mapping[s] <==> sy == Some(s);
    assert after == if sx == Some(s) || sy == Some(s) then res[Some(s)][p := m[p]] else res[Some(s)];
  }

  method GetLocalDistanceMatrix(m: Matrix, nodes: seq<nat>) returns (res: Matrix)
    ensures res == Local(m, nodes)
  {
    res := map[];
    var todo := m.Keys;
    while todo != {}
      invariant todo <= m.Keys
      invariant res == map p | p in m && p !in todo && (p.0 in nodes || p.1 in nodes) :: m[p]
    {
      var p :| p in todo;
      if p.0 in nodes || p.1 in nodes {
        res := res[p := m[p]];
      }
      todo := todo - {p};
    }
  }

  // ----- The three ways to distribute a matrix ----------------------------------------

  datatype Mode = Multicast | WholeMatrices | IndividualMatrices

  /** What travels to a server. */
  function Payload(mode: Mode, mapping: Mapping, m: Matrix, server: nat): (r: Matrix)
    requires server in mapping
  {
    if mode == IndividualMatrices then Local(m, mapping[server]) else m
  }

  /** What a client with these nodes steps on, given what it received. */
  function Taken(mode: Mode, nodes: seq<nat>, payload: Matrix): (r: Matrix) {
    if mode == IndividualMatrices then payload else Local(payload, nodes)
  }

  lemma TakenIsLocal(mode: Mode, mapping: Mapping, m: Matrix, s: nat)
    requires s in mapping
    ensures Taken(mode, mapping[s], Payload(mode, mapping, m, s)) == Local(m, mapping[s])
  {
  }

  /** All modes make a client step on the same matrix, and no entry is lost: together the
      clients step on the whole matrix. */
  lemma ModesAgree(mode: Mode, mapping: Mapping, m: Matrix)
    ensures forall s :: s in mapping ==>
              Taken(mode, mapping[s], Payload(mode, mapping, m, s)) == Local(m, mapping[s])
    ensures Covers(mapping, m) <==>
            forall p :: p in m ==> exists s :: s in mapping && p in Local(m, mapping[s])
  {
    if Covers(mapping, m) {
      forall p | p in m
        ensures exists s :: s in mapping && p in Local(m, mapping[s])
      {
        var node := if Owned(mapping, p.0) then p.0 else p.1;
        var s :| s in mapping && node in mapping[s];
        assert p in Local(m, mapping[s]);
      }
    }
  }

  // ----- The wire format --------------------------------------------------------------

  /** For each first node the list of second nodes and distances. */
  type Wire = map<nat, seq<(nat, int)>>

  /** The wire form lists every entry of the matrix exactly once, and nothing else. */
  ghost predicate IsWire(m: Matrix, w: Wire) {
    && (forall x :: x in w ==> w[x] != [])
    && (forall x, i, j :: x in w && 0 <= i < j < |w[x]| ==> w[x][i].0 != w[x][j].0)
    && (forall x, e {:trigger e in w[x]} ::
          x in w && e in w[x] ==> (x, e.0) in m && m[(x, e.0)] == e.1)
    && (forall p {:trigger p in m} :: p in m ==> p.0 in w && (p.1, m[p]) in w[p.0])
  }

  method TransformDistanceMatrix(m: Matrix) returns (w: Wire)
    ensures IsWire(m, w)
  {
    w := map[];
    var todo := m.Keys;
    ghost var done: Matrix := map[];
    while todo != {}
      invariant todo <= m.Keys
      invariant done == map p | p in m && p !in todo :: m[p]
      invariant IsWire(done, w)
    {
      var p :| p in todo;
      WireGrows(done, w, p, m[p]);
      w := w[p.0 := (if p.0 in w then w[p.0] else []) + [(p.1, m[p])]];
      todo := todo - {p};
      done := done[p := m[p]];
    }
    assert done == m;
  }

  lemma WireGrows(m: Matrix, w: Wire, p: NodePair, d: int)
    requires IsWire(m, w) && p !in m
    ensures IsWire(m[p := d], w[p.0 := (if p.0 in w then w[p.0] else []) + [(p.1, d)]])
  {
    var row := if p.0 in w then w[p.0] else [];
    var w' := w[p.0 := row + [(p.1, d)]];
    assert (p.1, d) in w'[p.0];
    forall i | 0 <= i < |row|
      ensures row[i].0 != p.1
    {
      assert row[i] in row;
    }
    forall q | q in m
      ensures q.0 in w' && (q.1, m[q]) in w'[q.0]
    {
      if q.0 == p.0 {
        assert (q.1, m[q]) in row;
      }
    }
  }

  /** The distance that the last list entry for y gives. */
  function LastDistance(entries: seq<(nat, int)>, y: nat): (r: Option<int>)
    ensures r.Some? <==> exists e :: e in entries && e.0 == y
    ensures r.Some? ==> (y, r.value) in entries
  {
    if entries == [] then None
    else
      var e := entries[|entries| - 1];
      if e.0 == y then Some(e.1) else LastDistance(entries[..|entries| - 1], y)
  }

  /** The last entry for y decides. */
  lemma {:induction false} LastEntryWins(entries: seq<(nat, int)>, i: nat)
    requires i < |entries| && forall j :: i < j < |entries| ==> entries[j].0 != entries[i].0
    ensures LastDistance(entries, entries[i].0) == Some(entries[i].1)
  {
    if i < |entries| - 1 {
      LastEntryWins(entries[..|entries| - 1], i);
    }
  }

  method DetransformDistanceMatrix(w: Wire) returns (m: Matrix)
    ensures forall p {:trigger p in m} :: p in m <==> p.0 in w && LastDistance(w[p.0], p.1).Some?
    ensures forall p :: p in m ==> LastDistance(w[p.0], p.1) == Some(m[p])
  {
    m := map[];
    var todo := w.Keys;
    while todo != {}
      invariant todo <= w.Keys
      invariant forall p {:trigger p in m} :: p in m <==> p.0 in w && p.0 !in todo && LastDistance(w[p.0], p.1).Some?
      invariant forall p :: p in m ==> LastDistance(w[p.0], p.1) == Some(m[p])
    {
      var x :| x in todo;
      todo := todo - {x};
      m := DetransformRow(m, x, w[x]);
    }
  }

  method DetransformRow(m0: Matrix, x: nat, entries: seq<(nat, int)>) returns (m: Matrix)
    ensures forall p: NodePair {:trigger p in m} ::
                p.0 != x ==> (p in m <==> p in m0) && (p in m ==> m[p] == m0[p])
    ensures forall y: nat :: (x, y) in m <==> (x, y) in m0 || LastDistance(entries, y).Some?
    ensures forall y: nat :: LastDistance(entries, y).Some? ==>
                          LastDistance(entries, y) == Some(m[(x, y)])
  {
    m := m0;
    for i := 0 to |entries|
      invariant forall p: NodePair {:trigger p in m} ::
                p.0 != x ==> (p in m <==> p in m0) && (p in m ==> m[p] == m0[p])
      invariant forall y: nat :: (x, y) in m <==> (x, y) in m0 || LastDistance(entries[..i], y).Some?
      invariant forall y: nat :: LastDistance(entries[..i], y).Some? ==>
                              LastDistance(entries[..i], y) == Some(m[(x, y)])
    {
      m := m[(x, entries[i].0) := entries[i].1];
      assert entries[..i + 1][..i] == entries[..i];
    }
    assert entries[..|entries|] == entries;
  }

  /** What was transformed is detransformed to the same matrix. */
  method WireRoundTrip(m: Matrix) returns (r: Matrix)
    ensures r == m
  {
    var w := TransformDistanceMatrix(m);
    r := DetransformDistanceMatrix(w);
    forall p
      ensures p in r <==> p in m
      ensures p in r ==> r[p] == m[p]
    {
      WireEntry(m, w, p);
    }
  }

  /** The way of a matrix from the coordinator's step to the step of one client, through the
      filters and the wire format of the chosen mode. */
  method Deliver(mode: Mode, mapping: Mapping, m: Matrix, server: nat) returns (r: Matrix)
    requires Disjoint(mapping) && server in mapping
    ensures r == Local(m, mapping[server])
  {
    if mode == Multicast {
      r := WireRoundTrip(m);
      r := GetLocalDistanceMatrix(r, mapping[server]);
    } else {
      var perServer := MapDistanceMatrixToServers(mapping, m, mode == IndividualMatrices);
      r := WireRoundTrip(perServer[Some(server)]);
      if mode != IndividualMatrices {
        r := GetLocalDistanceMatrix(r, mapping[server]);
      }
    }
  }

  /** Reading one pair from a wire form of a matrix gives the entry of the matrix. */
  lemma WireEntry(m: Matrix, w: Wire, p: NodePair)
    requires IsWire(m, w)
    ensures p in m <==> p.0 in w && LastDistance(w[p.0], p.1).Some?
    ensures p in m ==> LastDistance(w[p.0], p.1) == Some(m[p])
  {
    if p in m {
      assert (p.1, m[p]) in w[p.0];
    }
    if p.0 in w && LastDistance(w[p.0], p.1).Some? {
      var e := (p.1, LastDistance(w[p.0], p.1).value);
      assert e in w[p.0];
      assert (p.0, e.0) in m;
    }
  }
}
