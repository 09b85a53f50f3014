/**
 The node scheduler: distributes the emulation nodes over the emulation servers.
 */
module Scheduler {
  import opened Folding
  import opened Topology
  import opened MatrixDistribution
  import opened Arithmetic
  import opened Counting

  /** How many nodes a server shall get. */
  type Quotas = map<nat, nat>

  // ----- The specification ------------------------------------------------------------

  /** The quotas are used for the servers 1, 2, ... up to the first one without a quota. */
  function Served(quotas: Quotas, cnt: nat): (k: nat)
    ensures k <= cnt
    ensures forall s :: 1 <= s <= k ==> s in quotas
    ensures k < cnt ==> k + 1 !in quotas
  {
    if cnt == 0 then 0
    else
      var k := Served(quotas, cnt - 1);
      if k == cnt - 1 && cnt in quotas then cnt else k
  }

  function Quota(quotas: Quotas, s: nat): (q: nat) {
    if s in quotas then quotas[s] else 0
  }

  /** The sum of the quotas of the servers 1..k. */
  function Prefix(quotas: Quotas, k: nat): (sum: nat) {
    if k == 0 then 0 else Prefix(quotas, k - 1) + Quota(quotas, k)
  }

  function Min(a: int, b: int): int { if a <= b then a else b }

  /** A slice that is cut off at the end of the sequence. */
  function Slice(ids: seq<nat>, lo: nat, hi: nat): (r: seq<nat>)
    requires lo <= hi
  {
    ids[Min(lo, |ids|)..Min(hi, |ids|)]
  }

  /** Whose turn it is for the j-th node when n servers take turns. */
  function Turn(j: nat, n: nat): (i: nat)
    requires n > 0
    ensures i < n
  {
    if j == 0 then 0
    else
      var i := Turn(j - 1, n);
      if i + 1 == n then 0 else i + 1
  }

  /** What server s gets when the nodes are dealt round-robin. */
  function Dealt(rest: seq<nat>, order: seq<nat>, s: nat): (r: seq<nat>)
    requires order != []
  {
    if rest == [] then []
    else
      var last := |rest| - 1;
      Dealt(rest[..last], order, s) + if order[Turn(last, |order|)] == s then [rest[last]] else []
  }

  /** What the slices leave over. */
  function Rest(ids: seq<nat>, cnt: nat, quotas: Quotas): (r: seq<nat>) {
    ids[Min(Prefix(quotas, Served(quotas, cnt)), |ids|)..]
  }

  /** The nodes of a server: its slice, and its share of what the slices left over. */
  function Share(ids: seq<nat>, cnt: nat, quotas: Quotas, order: seq<nat>, s: nat): (r: seq<nat>)
    requires order != []
  {
    (if 1 <= s <= Served(quotas, cnt) then SliceOf(ids, quotas, s) else [])
    + Dealt(Rest(ids, cnt, quotas), order, s)
  }

  // ----- The algorithm ----------------------------------------------------------------

  ghost predicate ServersOf(res: Mapping, cnt: nat) {
    forall s :: s in res <==> 1 <= s <= cnt
  }

  /** Every server has its share, folded: use the lemma ShareOf. */
  ghost predicate AreShares(res: Mapping, ids: seq<nat>, cnt: nat, quotas: Quotas, order: seq<nat>)
    requires order != []
  {
    && ServersOf(res, cnt)
    && forall b {:trigger Unfolding(SharesPart, b)} :: Unfolding(SharesPart, b) ==>
         forall s :: s in res ==> res[s] == Share(ids, cnt, quotas, order, s)
  }

  lemma ShareOf(res: Mapping, ids: seq<nat>, cnt: nat, quotas: Quotas, order: seq<nat>, s: nat)
    requires order != [] && AreShares(res, ids, cnt, quotas, order) && 1 <= s <= cnt
    ensures s in res && res[s] == Share(ids, cnt, quotas, order, s)
  {
    assert Unfolding(SharesPart, true);
  }

  method ApplyDistributionStrategy(ids: seq<nat>, cnt: nat, quotas: Quotas, order: seq<nat>)
    returns (res: Mapping)
    requires order != [] && forall s :: s in order ==> 1 <= s <= cnt
    ensures AreShares(res, ids, cnt, quotas, order)
  {
    res := EmptyEntries(cnt);
    var lastPos, curPos := 0, 0;
    ghost var k := Served(quotas, cnt);
    var server := 1;
    NoSlices(res, ids, quotas);
    while server <= cnt && server in quotas
      invariant 1 <= server <= k + 1 && lastPos == curPos == Prefix(quotas, server - 1)
      invariant ServersOf(res, cnt) && HasSlices(res, ids, quotas, server)
    {
      curPos := curPos + quotas[server];
      if lastPos >= |ids| {
        NothingToDeal(res, ids, cnt, quotas, order, server);
        return;
      }
      SlicesNext(res, ids, quotas, server);
      res := res[server := Slice(ids, lastPos, curPos)];
      lastPos := curPos;
      server := server + 1;
    }
    ghost var slices := res;
    assert server == k + 1 && lastPos == Prefix(quotas, k);
    res := DealRemaining(ids, lastPos, order, res);
    assert HasDealt(res, slices, Rest(ids, cnt, quotas), order);
    SlicesAndDeals(res, slices, ids, cnt, quotas, order);
  }

  /** The slice of a server. */
  function SliceOf(ids: seq<nat>, quotas: Quotas, s: nat): (r: seq<nat>)
    requires s >= 1
  {
    Slice(ids, Prefix(quotas, s - 1), Prefix(quotas, s))
  }

  /** The servers before the given one have their slices, all others nothing; folded. */
  ghost predicate HasSlices(res: Mapping, ids: seq<nat>, quotas: Quotas, server: nat) {
    forall b {:trigger Unfolding(SlicesPart, b)} :: Unfolding(SlicesPart, b) ==>
      forall s {:trigger res[s]} :: s in res && s >= 1 ==>
        res[s] == if s < server then SliceOf(ids, quotas, s) else []
  }

  lemma NoSlices(res: Mapping, ids: seq<nat>, quotas: Quotas)
    requires forall s :: s in res ==> res[s] == []
    ensures HasSlices(res, ids, quotas, 1)
  {
  }

  lemma SlicesNext(res: Mapping, ids: seq<nat>, quotas: Quotas, server: nat)
    requires server >= 1 && HasSlices(res, ids, quotas, server)
    ensures HasSlices(res[server := SliceOf(ids, quotas, server)], ids, quotas, server + 1)
  {
    assert Unfolding(SlicesPart, true);
  }

  /** The slices used up all nodes before the last server came up. */
  lemma NothingToDeal(res: Mapping, ids: seq<nat>, cnt: nat, quotas: Quotas, order: seq<nat>,
                      server: nat)
    requires order != [] && 1 <= server <= Served(quotas, cnt)
    requires |ids| <= Prefix(quotas, server - 1)
    requires ServersOf(res, cnt) && HasSlices(res, ids, quotas, server)
    ensures AreShares(res, ids, cnt, quotas, order)
  {
    assert Unfolding(SlicesPart, true);
    forall s | s in res
      ensures res[s] == Share(ids, cnt, quotas, order, s)
    {
      NothingLeft(ids, cnt, quotas, order, server, s);
    }
  }

  /** Slices and what was dealt make the shares. */
  lemma SlicesAndDeals(res: Mapping, slices: Mapping, ids: seq<nat>, cnt: nat, quotas: Quotas,
                       order: seq<nat>)
    requires order != [] && ServersOf(slices, cnt)
    requires HasSlices(slices, ids, quotas, Served(quotas, cnt) + 1)
    requires HasDealt(res, slices, Rest(ids, cnt, quotas), order)
    ensures AreShares(res, ids, cnt, quotas, order)
  {
    assert Unfolding(SlicesPart, true) && Unfolding(DealsPart, true);
  }

  method EmptyEntries(cnt: nat) returns (res: Mapping)
    ensures ServersOf(res, cnt) && forall s :: s in res ==> res[s] == []
  {
    res := map[];
    for s := 1 to cnt + 1
      invariant ServersOf(res, s - 1) && forall t :: t in res ==> res[t] == []
    {
      res := res[s := []];
    }
  }

  /** Once the slices are behind the end of the list, all further shares are empty. */
  lemma NothingLeft(ids: seq<nat>, cnt: nat, quotas: Quotas, order: seq<nat>, server: nat, s: nat)
    requires order != [] && 1 <= server <= Served(quotas, cnt) && 1 <= s <= cnt
    requires |ids| <= Prefix(quotas, server - 1)
    ensures Share(ids, cnt, quotas, order, s) ==
            if s < server then SliceOf(ids, quotas, s) else []
  {
    var k := Served(quotas, cnt);
    PrefixMonotone(quotas, server - 1, k);
    assert ids[Min(Prefix(quotas, k), |ids|)..] == [];
    if server <= s {
      PrefixMonotone(quotas, server - 1, s - 1);
    }
  }

  lemma {:induction false} PrefixMonotone(quotas: Quotas, i: nat, j: nat)
    requires i <= j
    ensures Prefix(quotas, i) <= Prefix(quotas, j)
    decreases j
  {
    if i < j {
      PrefixMonotone(quotas, i, j - 1);
    }
  }

  /** Deals what is left, one node at a time, round and round in the given order. */
  method DealRemaining(ids: seq<nat>, start: nat, order: seq<nat>, slices: Mapping)
    returns (res: Mapping)
    requires order != [] && forall s :: s in order ==> s in slices
    ensures HasDealt(res, slices, ids[Min(start, |ids|)..], order)
  {
    res := slices;
    ghost var rest := ids[Min(start, |ids|)..];
    var dealt, done := 0, false;
    NothingDealt(slices, order);
    assert rest[..0] == [];
    while !done
      invariant dealt <= |rest| && (done ==> dealt == |rest|)
      invariant !done ==> Turn(dealt, |order|) == 0
      invariant HasDealt(res, slices, rest[..dealt], order)
      decreases |rest| - dealt, !done
    {
      res, dealt, done := DealRound(ids, start, dealt, order, slices, rest, res);
    }
    assert rest[..dealt] == rest;
  }

  /** One round: every server gets a node, until none is left. */
  method DealRound(ids: seq<nat>, start: nat, from: nat, order: seq<nat>, ghost slices: Mapping,
                   ghost rest: seq<nat>, res0: Mapping)
    returns (res: Mapping, dealt: nat, done: bool)
    requires order != [] && (forall s :: s in order ==> s in slices)
    requires |rest| == |ids| - Min(start, |ids|)
    requires forall t {:trigger rest[t]} :: 0 <= t < |rest| ==> ids[start + t] == rest[t]
    requires from <= |rest| && Turn(from, |order|) == 0
    requires HasDealt(res0, slices, rest[..from], order)
    ensures dealt <= |rest| && HasDealt(res, slices, rest[..dealt], order)
    ensures if done then dealt == |rest| else dealt == from + |order| && Turn(dealt, |order|) == 0
  {
    res, dealt := res0, from;
    for i := 0 to |order|
      invariant dealt == from + i <= |rest|
      invariant Turn(dealt, |order|) == if i < |order| then i else 0
      invariant HasDealt(res, slices, rest[..dealt], order)
    {
      if start + dealt >= |ids| {
        return res, dealt, true;
      }
      DealtNext(res, slices, rest, dealt, order);
      assert ids[start + dealt] == rest[dealt];
      res := res[order[i] := res[order[i]] + [ids[start + dealt]]];
      dealt := dealt + 1;
    }
    done := false;
  }

  ghost predicate HasDealt(res: Mapping, slices: Mapping, rest: seq<nat>, order: seq<nat>)
    requires order != []
  {
    && res.Keys == slices.Keys
    && forall b {:trigger Unfolding(DealsPart, b)} :: Unfolding(DealsPart, b) ==>
         forall s :: s in res ==> res[s] == slices[s] + Dealt(rest, order, s)
  }

  /** The next node goes to the server whose turn it is. */
  lemma DealtNext(res: Mapping, slices: Mapping, rest: seq<nat>, t: nat, order: seq<nat>)
    requires order != [] && t < |rest| && HasDealt(res, slices, rest[..t], order)
    requires order[Turn(t, |order|)] in res
    ensures var turn := order[Turn(t, |order|)];
            HasDealt(res[turn := res[turn] + [rest[t]]], slices, rest[..t + 1], order)
  {
    assert Unfolding(DealsPart, true);
    assert rest[..t + 1][..t] == rest[..t];
  }

  lemma NothingDealt(slices: Mapping, order: seq<nat>)
    requires order != []
    ensures HasDealt(slices, slices, [], order)
  {
  }

  // ----- The result is a partition ----------------------------------------------------

  function Count(ids: seq<nat>, node: nat): (c: nat) {
    if ids == [] then 0
    else
      var last := |ids| - 1;
      Count(ids[..last], node) + if ids[last] == node then 1 else 0
  }

  lemma {:induction false} CountJoin(a: seq<nat>, b: seq<nat>, node: nat)
    ensures Count(a + b, node) == Count(a, node) + Count(b, node)
    decreases b
  {
    if b == [] {
      assert a + b == a;
    } else {
      var last := |b| - 1;
      assert (a + b)[..|a| + last] == a + b[..last];
      CountJoin(a, b[..last], node);
    }
  }

  lemma {:induction false} CountPositive(ids: seq<nat>, node: nat)
    ensures Count(ids, node) > 0 <==> node in ids
  {
    if ids != [] {
      CountPositive(ids[..|ids| - 1], node);
    }
  }

  /** How often the servers 1..k together hold the node. */
  function TotalCount(res: Mapping, k: nat, node: nat): (c: nat)
    requires forall s :: 1 <= s <= k ==> s in res
  {
    if k == 0 then 0 else TotalCount(res, k - 1, node) + Count(res[k], node)
  }

  function DealCount(rest: seq<nat>, order: seq<nat>, k: nat, node: nat): (c: nat)
    requires order != []
  {
    if k == 0 then 0
    else DealCount(rest, order, k - 1, node) + Count(Dealt(rest, order, k), node)
  }

  lemma CountDealt(rest: seq<nat>, order: seq<nat>, s: nat, node: nat)
    requires order != [] && rest != []
    ensures var last := |rest| - 1;
            Count(Dealt(rest, order, s), node) ==
            Count(Dealt(rest[..last], order, s), node) +
            if order[Turn(last, |order|)] == s && rest[last] == node then 1 else 0
  {
    var last := |rest| - 1;
    var more := if order[Turn(last, |order|)] == s then [rest[last]] else [];
    CountJoin(Dealt(rest[..last], order, s), more, node);
  }

  lemma {:induction false} DealCountNext(rest: seq<nat>, order: seq<nat>, k: nat, node: nat)
    requires order != [] && rest != [] && order[Turn(|rest| - 1, |order|)] >= 1
    ensures var last := |rest| - 1;
            DealCount(rest, order, k, node) ==
            DealCount(rest[..last], order, k, node) +
            if order[Turn(last, |order|)] <= k && rest[last] == node then 1 else 0
  {
    if k > 0 {
      DealCountNext(rest, order, k - 1, node);
      CountDealt(rest, order, k, node);
    }
  }

  lemma {:induction false} DealingLosesNothing(rest: seq<nat>, order: seq<nat>, cnt: nat, node: nat)
    requires order != [] && forall s :: s in order ==> 1 <= s <= cnt
    ensures DealCount(rest, order, cnt, node) == Count(rest, node)
  {
    if rest == [] {
      DealNothing(order, cnt, node);
    } else {
      assert order[Turn(|rest| - 1, |order|)] in order;
      DealCountNext(rest, order, cnt, node);
      DealingLosesNothing(rest[..|rest| - 1], order, cnt, node);
    }
  }

  lemma {:induction false} DealNothing(order: seq<nat>, k: nat, node: nat)
    requires order != []
    ensures DealCount([], order, k, node) == 0
  {
    if k > 0 {
      DealNothing(order, k - 1, node);
    }
  }

  /** The part of the list that the slices of the first k servers cover. */
  function Sliced(ids: seq<nat>, quotas: Quotas, k: nat): (r: seq<nat>) {
    ids[..Min(Prefix(quotas, k), |ids|)]
  }

  lemma SlicedNext(ids: seq<nat>, quotas: Quotas, k: nat)
    requires k >= 1
    ensures Sliced(ids, quotas, k) == Sliced(ids, quotas, k - 1) + SliceOf(ids, quotas, k)
  {
  }

  /** Up to server k, the entries hold the first slices and what was dealt to them. */
  lemma {:induction false} CountOfShares(res: Mapping, ids: seq<nat>, cnt: nat, quotas: Quotas,
                                         order: seq<nat>, k: nat, node: nat)
    requires order != [] && k <= cnt && AreShares(res, ids, cnt, quotas, order)
    ensures TotalCount(res, k, node) ==
            Count(Sliced(ids, quotas, Min(k, Served(quotas, cnt))), node) +
            DealCount(Rest(ids, cnt, quotas), order, k, node)
  {
    if k == 0 {
      assert Sliced(ids, quotas, 0) == [];
    } else {
      CountOfShares(res, ids, cnt, quotas, order, k - 1, node);
      CountOfEntry(res, ids, cnt, quotas, order, k, node);
      TotalCountNext(res, k, node);
      DealCountOfServer(Rest(ids, cnt, quotas), order, k, node);
    }
  }

  lemma CountOfEntry(res: Mapping, ids: seq<nat>, cnt: nat, quotas: Quotas, order: seq<nat>, k: nat,
                     node: nat)
    requires order != [] && 1 <= k <= cnt && AreShares(res, ids, cnt, quotas, order)
    ensures var served := Served(quotas, cnt);
            Count(res[k], node) + Count(Sliced(ids, quotas, Min(k - 1, served)), node) ==
            Count(Sliced(ids, quotas, Min(k, served)), node) +
            Count(Dealt(Rest(ids, cnt, quotas), order, k), node)
  {
    ShareOf(res, ids, cnt, quotas, order, k);
    CountOfShare(ids, cnt, quotas, order, k, node);
  }

  lemma TotalCountNext(res: Mapping, k: nat, node: nat)
    requires k > 0 && forall s :: 1 <= s <= k ==> s in res
    ensures TotalCount(res, k, node) == TotalCount(res, k - 1, node) + Count(res[k], node)
  {
  }

  lemma DealCountOfServer(rest: seq<nat>, order: seq<nat>, k: nat, node: nat)
    requires order != [] && k > 0
    ensures DealCount(rest, order, k, node) ==
            DealCount(rest, order, k - 1, node) + Count(Dealt(rest, order, k), node)
  {
  }

  lemma CountOfShare(ids: seq<nat>, cnt: nat, quotas: Quotas, order: seq<nat>, k: nat, node: nat)
    requires order != [] && 1 <= k <= cnt
    ensures var served := Served(quotas, cnt);
            Count(Share(ids, cnt, quotas, order, k), node) +
            Count(Sliced(ids, quotas, Min(k - 1, served)), node) ==
            Count(Sliced(ids, quotas, Min(k, served)), node) +
            Count(Dealt(Rest(ids, cnt, quotas), order, k), node)
  {
    var served := Served(quotas, cnt);
    var dealt := Dealt(Rest(ids, cnt, quotas), order, k);
    if k <= served {
      SlicedNext(ids, quotas, k);
      CountJoin(SliceOf(ids, quotas, k), dealt, node);
      CountJoin(Sliced(ids, quotas, k - 1), SliceOf(ids, quotas, k), node);
    } else {
      CountJoin([], dealt, node);
    }
  }

  /** Every server has an entry, and together the entries hold each node as often as the
      list of nodes does. */
  ghost predicate Distributes(res: Mapping, ids: seq<nat>, cnt: nat) {
    ServersOf(res, cnt) && forall node :: TotalCount(res, cnt, node) == Count(ids, node)
  }

  /** Whatever the quotas, the shares distribute the nodes. */
  lemma SharesDistribute(res: Mapping, ids: seq<nat>, cnt: nat, quotas: Quotas, order: seq<nat>)
    requires order != [] && forall s :: s in order ==> 1 <= s <= cnt
    requires AreShares(res, ids, cnt, quotas, order)
    ensures Distributes(res, ids, cnt)
  {
    var at := Min(Prefix(quotas, Served(quotas, cnt)), |ids|);
    assert ids == ids[..at] + ids[at..];
    forall node: nat
      ensures TotalCount(res, cnt, node) == Count(ids, node)
    {
      CountOfShares(res, ids, cnt, quotas, order, cnt, node);
      DealingLosesNothing(ids[at..], order, cnt, node);
      CountJoin(ids[..at], ids[at..], node);
    }
  }

  lemma {:induction false} InTotal(res: Mapping, k: nat, s: nat, node: nat)
    requires forall t :: 1 <= t <= k ==> t in res
    requires 1 <= s <= k && node in res[s]
    ensures TotalCount(res, k, node) >= 1
  {
    if s < k {
      InTotal(res, k - 1, s, node);
    } else {
      CountPositive(res[s], node);
    }
  }

  lemma {:induction false} TwiceInTotal(res: Mapping, k: nat, s: nat, t: nat, node: nat)
    requires forall u :: 1 <= u <= k ==> u in res
    requires 1 <= s < t <= k && node in res[s] && node in res[t]
    ensures TotalCount(res, k, node) >= 2
  {
    if t < k {
      TwiceInTotal(res, k - 1, s, t, node);
    } else {
      InTotal(res, k - 1, s, node);
      CountPositive(res[t], node);
    }
  }

  lemma {:induction false} FromTotal(res: Mapping, k: nat, node: nat)
    requires forall u :: 1 <= u <= k ==> u in res
    requires TotalCount(res, k, node) > 0
    ensures exists s :: 1 <= s <= k && node in res[s]
  {
    CountPositive(res[k], node);
    if node !in res[k] {
      FromTotal(res, k - 1, node);
    }
  }

  /** If no node is listed twice, every listed node has exactly one server. */
  lemma DistributionIsPartition(res: Mapping, ids: seq<nat>, cnt: nat)
    requires Distributes(res, ids, cnt)
    requires forall node :: Count(ids, node) <= 1
    ensures Disjoint(res)
    ensures forall node :: node in ids <==> Owned(res, node)
  {
    forall s, t, node | s in res && t in res && node in res[s] && node in res[t]
      ensures s == t
    {
      if s < t {
        TwiceInTotal(res, cnt, s, t, node);
      } else if t < s {
        TwiceInTotal(res, cnt, t, s, node);
      }
    }
    forall node: nat
      ensures node in ids <==> Owned(res, node)
    {
      CountPositive(ids, node);
      if node in ids {
        FromTotal(res, cnt, node);
      }
      if s :| s in res && node in res[s] {
        InTotal(res, cnt, s, node);
      }
    }
  }

  /** From the scheduler to the clients: the nodes are distributed, and every server gets its
      part of a matrix through the filters and the wire format of the mode. Each server
      steps on exactly the entries with an endpoint on it, and together the parts are the
      whole matrix. */
  method DistributeAndDeliver(ids: seq<nat>, cnt: nat, quotas: Quotas, order: seq<nat>, mode: Mode,
                              m: Matrix)
    returns (res: Mapping, parts: map<nat, Matrix>)
    requires order != [] && forall s :: s in order ==> 1 <= s <= cnt
    requires forall node :: Count(ids, node) <= 1
    requires forall p {:trigger p in m} :: p in m ==> p.0 in ids && p.1 in ids
    ensures Distributes(res, ids, cnt) && parts.Keys == res.Keys
    ensures forall s :: s in parts ==> parts[s] == Local(m, res[s])
    ensures forall p :: p in m ==> exists s :: s in parts && p in parts[s] && parts[s][p] == m[p]
    ensures forall s, p :: s in parts && p in parts[s] ==> p in m
  {
    res := ApplyDistributionStrategy(ids, cnt, quotas, order);
    SharesDistribute(res, ids, cnt, quotas, order);
    DistributionIsPartition(res, ids, cnt);
    parts := map[];
    var todo := res.Keys;
    while todo != {}
      invariant todo <= res.Keys && parts.Keys == res.Keys - todo
      invariant forall s :: s in parts ==> parts[s] == Local(m, res[s])
    {
      var s :| s in todo;
      var part := Deliver(mode, res, m, s);
      parts := parts[s := part];
      todo := todo - {s};
    }
    PartsAreWhole(res, m, parts);
  }

  lemma PartsAreWhole(res: Mapping, m: Matrix, parts: map<nat, Matrix>)
    requires parts.Keys == res.Keys && forall s :: s in parts ==> parts[s] == Local(m, res[s])
    requires forall p {:trigger p in m} :: p in m ==> Owned(res, p.0) && Owned(res, p.1)
    ensures forall p :: p in m ==> exists s :: s in parts && p in parts[s] && parts[s][p] == m[p]
  {
    forall p | p in m
      ensures exists s :: s in parts && p in parts[s] && parts[s][p] == m[p]
    {
      var s :| s in res && p.0 in res[s];
      assert s in parts && parts[s] == Local(m, res[s]);
      assert p in parts[s] && parts[s][p] == m[p];
    }
  }

  // ----- Round-robin is fair ----------------------------------------------------------

  lemma {:induction false} TurnIsRemainder(j: nat, n: nat)
    requires n > 0
    ensures Turn(j, n) == j % n
  {
    if j > 0 {
      TurnIsRemainder(j - 1, n);
      DivModNext(j - 1, n);
    }
  }

  /** Of r nodes, each of n servers gets r / n, and the first r % n one more. */
  function FairShare(r: nat, n: nat, i: nat): (k: nat)
    requires n > 0
  {
    r / n + if i < r % n then 1 else 0
  }

  lemma {:induction false} DealtIsFair(rest: seq<nat>, order: seq<nat>, i: nat)
    requires Distinct(order) && i < |order|
    ensures |Dealt(rest, order, order[i])| == FairShare(|rest|, |order|, i)
  {
    if rest != [] {
      var last, n := |rest| - 1, |order|;
      DealtIsFair(rest[..last], order, i);
      FairShareNext(last, n, i);
      assert order[Turn(last, n)] == order[i] <==> Turn(last, n) == i;
    }
  }

  lemma FairShareNext(r: nat, n: nat, i: nat)
    requires i < n
    ensures FairShare(r + 1, n, i) == FairShare(r, n, i) + if Turn(r, n) == i then 1 else 0
  {
    TurnIsRemainder(r, n);
    DivModNext(r, n);
  }

  // ----- The equal strategy -----------------------------------------------------------

  /** Every server gets the same quota. The quotas are keyed by the node ids. */
  method DistributeEqually(ids: seq<nat>, cnt: nat) returns (res: Mapping)
    requires cnt >= 1
    ensures Distributes(res, ids, cnt)
    ensures ids == NodeIds(|ids|) ==>
              forall s :: s in res ==> |res[s]| == FairShare(|ids|, cnt, s - 1)
    ensures ids == NodeIds(|ids|) ==>
              forall s, t :: s in res && t in res && s < t ==> |res[t]| <= |res[s]| <= |res[t]| + 1
  {
    var quota := if |ids| / cnt >= 1 then |ids| / cnt else 1;
    var quotas := map id | id in ids :: quota;
    var order := NodeIds(cnt);
    res := ApplyDistributionStrategy(ids, cnt, quotas, order);
    SharesDistribute(res, ids, cnt, quotas, order);
    if ids == NodeIds(|ids|) {
      EqualShares(res, ids, cnt, quotas, quota);
    }
  }

  lemma EqualShares(res: Mapping, ids: seq<nat>, cnt: nat, quotas: Quotas, q: nat)
    requires cnt >= 1 && ids == NodeIds(|ids|) && quotas == map id | id in ids :: q
    requires q == if |ids| / cnt >= 1 then |ids| / cnt else 1
    requires AreShares(res, ids, cnt, quotas, NodeIds(cnt))
    ensures forall s :: s in res ==> |res[s]| == FairShare(|ids|, cnt, s - 1)
  {
    forall s | s in res
      ensures |res[s]| == FairShare(|ids|, cnt, s - 1)
    {
      ShareOf(res, ids, cnt, quotas, NodeIds(cnt), s);
      EqualShare(ids, cnt, quotas, q, s);
    }
  }

  /** The ids 1..n. */
  function NodeIds(n: nat): (r: seq<nat>)
    ensures |r| == n && forall i :: 0 <= i < n ==> r[i] == i + 1
  {
    seq(n, i => i + 1)
  }

  lemma {:induction false} PrefixOfEqual(quotas: Quotas, q: nat, k: nat)
    requires forall s :: 1 <= s <= k ==> s in quotas && quotas[s] == q
    ensures Prefix(quotas, k) == k * q
  {
    if k > 0 {
      PrefixOfEqual(quotas, q, k - 1);
      assert k * q == (k - 1) * q + q;
    }
  }

  lemma NodeIdsMembers(n: nat, i: nat)
    ensures i in NodeIds(n) <==> 1 <= i <= n
  {
    if 1 <= i <= n {
      assert NodeIds(n)[i - 1] == i;
    }
  }

  lemma ServedByIds(quotas: Quotas, q: nat, n: nat, cnt: nat)
    requires quotas == map id | id in NodeIds(n) :: q
    ensures Served(quotas, cnt) == Min(n, cnt)
    ensures forall k :: 0 <= k <= Min(n, cnt) ==> Prefix(quotas, k) == k * q
  {
    var served := Served(quotas, cnt);
    NodeIdsMembers(n, served);
    NodeIdsMembers(n, served + 1);
    forall k | 0 <= k <= Min(n, cnt)
      ensures Prefix(quotas, k) == k * q
    {
      forall i | 1 <= i <= k
        ensures i in quotas && quotas[i] == q
      {
        NodeIdsMembers(n, i);
      }
      PrefixOfEqual(quotas, q, k);
    }
  }

  /** The size of a share: the slice up to the end of the list, and a part of what k slices
      left over. */
  function SizeOf(n: nat, quotas: Quotas, k: nat, s: nat, m: nat, i: nat): (r: int)
    requires s >= 1 && m > 0
  {
    (if s <= k then Min(Prefix(quotas, s), n) - Min(Prefix(quotas, s - 1), n) else 0) +
    FairShare(n - Min(Prefix(quotas, k), n), m, i)
  }

  lemma ShareSize(ids: seq<nat>, cnt: nat, quotas: Quotas, order: seq<nat>, i: nat)
    requires Distinct(order) && i < |order| && 1 <= order[i] <= cnt
    ensures |Share(ids, cnt, quotas, order, order[i])| ==
            SizeOf(|ids|, quotas, Served(quotas, cnt), order[i], |order|, i)
  {
    var k := Served(quotas, cnt);
    DealtIsFair(ids[Min(Prefix(quotas, k), |ids|)..], order, i);
  }

  lemma EqualShare(ids: seq<nat>, cnt: nat, quotas: Quotas, q: nat, s: nat)
    requires cnt >= 1 && ids == NodeIds(|ids|) && 1 <= s <= cnt
    requires quotas == map id | id in ids :: q
    requires q == if |ids| / cnt >= 1 then |ids| / cnt else 1
    ensures |Share(ids, cnt, quotas, NodeIds(cnt), s)| == FairShare(|ids|, cnt, s - 1)
  {
    var order := NodeIds(cnt);
    assert order[s - 1] == s && |order| == cnt;
    ShareSize(ids, cnt, quotas, order, s - 1);
    EqualPrefixes(quotas, q, |ids|, cnt, s);
  }

  lemma EqualPrefixes(quotas: Quotas, q: nat, n: nat, cnt: nat, s: nat)
    requires 1 <= s <= cnt && quotas == map id | id in NodeIds(n) :: q
    requires q == if n / cnt >= 1 then n / cnt else 1
    ensures SizeOf(n, quotas, Served(quotas, cnt), s, cnt, s - 1) == FairShare(n, cnt, s - 1)
  {
    ServedByIds(quotas, q, n, cnt);
    EqualSizes(n, cnt, q, Min(n, cnt), s);
  }

  /** The size of a slice and of a share of the rest, for equal quotas. */
  lemma EqualSizes(n: nat, cnt: nat, q: nat, k: nat, s: nat)
    requires 1 <= s <= cnt && k == Min(n, cnt)
    requires q == if n / cnt >= 1 then n / cnt else 1
    ensures 0 <= k * q <= n
    ensures (if s <= k then Min(s * q, n) - Min((s - 1) * q, n) else 0) +
            FairShare(n - k * q, cnt, s - 1) == FairShare(n, cnt, s - 1)
  {
    if n < cnt {
      DivModUnique(0, n, cnt);
      DivModUnique(0, 0, cnt);
    } else {
      EqualPrefixFits(n, cnt, s);
      DivModUnique(0, n % cnt, cnt);
    }
  }

  lemma EqualPrefixFits(n: nat, cnt: nat, s: nat)
    requires cnt >= 1 && n >= cnt && 1 <= s <= cnt
    ensures n / cnt >= 1 && n - cnt * (n / cnt) == n % cnt
    ensures s * (n / cnt) == (s - 1) * (n / cnt) + n / cnt <= cnt * (n / cnt) <= n
  {
    var q := n / cnt;
    assert n == q * cnt + n % cnt;
    assert (cnt - s) * q == cnt * q - s * q;
    assert (cnt - s) * q >= 0;
    assert q == 0 ==> q * cnt == 0;
  }

  // ----- Which node goes where --------------------------------------------------------

  lemma {:induction false} ServedIs(quotas: Quotas, cnt: nat, k: nat)
    requires k <= cnt && forall t :: 1 <= t <= k ==> t in quotas
    ensures Served(quotas, cnt) >= k
    ensures k == cnt || k + 1 !in quotas ==> Served(quotas, cnt) == k
  {
    if k < cnt {
      ServedIs(quotas, cnt - 1, k);
    } else if cnt > 0 {
      ServedIs(quotas, cnt - 1, k - 1);
    }
  }

  /** Servers 1, 2, ... take their quotas from the list of nodes, from the front. */
  lemma SliceHoldsNode(res: Mapping, ids: seq<nat>, cnt: nat, quotas: Quotas, order: seq<nat>, s: nat, j: nat)
    requires order != [] && AreShares(res, ids, cnt, quotas, order) && 1 <= s <= cnt
    requires forall t :: 1 <= t <= s ==> t in quotas
    requires j < |ids| && Prefix(quotas, s - 1) <= j < Prefix(quotas, s)
    ensures s in res && j - Prefix(quotas, s - 1) < |res[s]|
    ensures res[s][j - Prefix(quotas, s - 1)] == ids[j]
  {
    ShareOf(res, ids, cnt, quotas, order, s);
    ServedIs(quotas, cnt, s);
  }

  lemma {:induction false} DealtPrefix(rest: seq<nat>, order: seq<nat>, s: nat, m: nat)
    requires order != [] && m <= |rest|
    ensures Dealt(rest[..m], order, s) <= Dealt(rest, order, s)
  {
    if m < |rest| {
      var last := |rest| - 1;
      DealtPrefix(rest[..last], order, s, m);
      assert rest[..last][..m] == rest[..m];
    } else {
      assert rest[..m] == rest;
    }
  }

  lemma RoundBegins(n: nat, q: nat, i: nat, m: nat)
    requires i < n && m == q * n + i
    ensures Turn(m, n) == i && FairShare(m, n, i) == q
  {
    DivModUnique(q, i, n);
    TurnIsRemainder(m, n);
  }

  /** Round-robin: in round q, the i-th server of the order gets the i-th node of the round. */
  lemma DealtNode(rest: seq<nat>, order: seq<nat>, q: nat, i: nat, m: nat)
    requires Distinct(order) && i < |order| && m == q * |order| + i && m < |rest|
    ensures var dealt := Dealt(rest, order, order[i]);
            q < |dealt| && dealt[q] == rest[m]
  {
    RoundBegins(|order|, q, i, m);
    DealtIsFair(rest[..m], order, i);
    assert rest[..m + 1][..m] == rest[..m];
    assert Dealt(rest[..m + 1], order, order[i]) == Dealt(rest[..m], order, order[i]) + [rest[m]];
    DealtPrefix(rest, order, order[i], m + 1);
  }

  /** How many nodes a server has got before the dealing begins. */
  function SliceSize(quotas: Quotas, k: nat, t: nat): (r: nat)
    requires forall s :: 1 <= s <= k ==> s in quotas
  {
    if 1 <= t <= k then quotas[t] else 0
  }

  lemma SliceIsFull(ids: seq<nat>, quotas: Quotas, k: nat, t: nat)
    requires (forall s :: 1 <= s <= k ==> s in quotas) && Prefix(quotas, k) <= |ids| && 1 <= t <= k
    ensures |SliceOf(ids, quotas, t)| == quotas[t]
  {
    PrefixMonotone(quotas, t, k);
  }

  /** What the quotas of servers 1..k leave over is dealt in this way. */
  lemma RestHoldsNode(res: Mapping, ids: seq<nat>, cnt: nat, quotas: Quotas, order: seq<nat>, k: nat,
                      q: nat, i: nat, j: nat)
    requires Distinct(order) && i < |order| && forall t :: t in order ==> 1 <= t <= cnt
    requires AreShares(res, ids, cnt, quotas, order)
    requires k <= cnt && (forall t :: 1 <= t <= k ==> t in quotas) && (k == cnt || k + 1 !in quotas)
    requires j == Prefix(quotas, k) + (q * |order| + i) && j < |ids|
    ensures order[i] in res && SliceSize(quotas, k, order[i]) + q < |res[order[i]]|
    ensures res[order[i]][SliceSize(quotas, k, order[i]) + q] == ids[j]
  {
    var t := order[i];
    assert t in order;
    ServedIs(quotas, cnt, k);
    ShareOf(res, ids, cnt, quotas, order, t);
    NotNegative(q, |order|);
    var rest := Rest(ids, cnt, quotas);
    assert rest == ids[Prefix(quotas, k)..];
    DealtNode(rest, order, q, i, j - Prefix(quotas, k));
    if t <= k {
      SliceIsFull(ids, quotas, k, t);
    }
  }
}
