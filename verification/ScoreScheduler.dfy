/**
 The score strategy of the node scheduler: quotas follow the CPU share of a server and are
 capped by its free memory. Shares are computed in exact arithmetic.
 */
module ScoreScheduler {
  import opened Folding
  import opened MatrixDistribution
  import opened Scheduler
  import opened Counting

  datatype Score = Score(cpu: real, freeMem: real)

  type Scores = map<nat, Score>

  function Ceil(x: real): (c: int)
    ensures x <= c as real < x + 1.0
  {
    -((-x).Floor)
  }

  function SumCpu(scores: Scores, k: nat): (sum: real)
    requires forall s :: 1 <= s <= k ==> s in scores
  {
    if k == 0 then 0.0 else SumCpu(scores, k - 1) + scores[k].cpu
  }

  /** Every server has a score, and the servers together have some CPU. */
  ghost predicate ValidScores(scores: Scores, cnt: nat) {
    && (forall s :: s in scores <==> 1 <= s <= cnt)
    && (forall s :: s in scores ==> scores[s].cpu >= 0.0 && scores[s].freeMem >= 0.0)
    && SumCpu(scores, cnt) > 0.0
  }

  /** The CPU share of n nodes, rounded up. */
  function Uncapped(cpu: real, sum: real, n: nat): (c: int)
    requires sum > 0.0
  {
    Ceil(cpu / sum * n as real)
  }

  /** c nodes of the given size fit into the memory. */
  predicate Fits(c: nat, vmSize: nat, freeMem: real) {
    (c * vmSize) as real <= freeMem
  }

  /** A server may get c nodes by its CPU share of n nodes, rounded up: the share is more than
      c - 1 nodes. */
  predicate WithinShare(c: nat, cpu: real, sum: real, n: nat) {
    c == 0 || (c - 1) as real * sum < cpu * n as real
  }

  /** The CPU share, rounded up, is the largest count within the share. */
  lemma RoundedShare(cpu: real, sum: real, n: nat, c: nat)
    requires sum > 0.0 && cpu >= 0.0
    ensures Uncapped(cpu, sum, n) >= 0
    ensures WithinShare(c, cpu, sum, n) <==> c <= Uncapped(cpu, sum, n)
  {
    ShareNotNegative(cpu, sum, n);
    if c > 0 {
      ShareCompared(cpu, sum, n, c - 1);
    }
  }

  /** A share of n nodes is more than c nodes iff its multiple is. */
  lemma ShareCompared(cpu: real, sum: real, n: nat, c: nat)
    requires sum > 0.0
    ensures cpu / sum * n as real > c as real <==> c as real * sum < cpu * n as real
  {
    var x := cpu / sum * n as real;
    assert x * sum == cpu * n as real by {
      assert cpu / sum * sum == cpu;
      assert x * sum == (cpu / sum * sum) * n as real;
    }
    if x > c as real {
      assert (x - c as real) * sum > 0.0;
    } else {
      assert (c as real - x) * sum >= 0.0;
    }
  }

  /** The largest count up to the CPU share that fits into the memory. */
  ghost predicate QuotaFacts(q: nat, score: Score, sum: real, n: nat, vmSize: nat) {
    && (q > 0 ==> (q - 1) as real * sum < score.cpu * n as real)
    && (q * vmSize) as real <= score.freeMem
    && forall c: nat :: q < c && (c - 1) as real * sum < score.cpu * n as real ==>
                          (c * vmSize) as real > score.freeMem
  }

  /** The same, folded. */
  ghost predicate IsQuota(q: nat, score: Score, sum: real, n: nat, vmSize: nat) {
    forall b {:trigger Unfolding(QuotaPart, b)} :: Unfolding(QuotaPart, b) ==>
      QuotaFacts(q, score, sum, n, vmSize)
  }

  lemma UnfoldQuota(q: nat, score: Score, sum: real, n: nat, vmSize: nat)
    requires IsQuota(q, score, sum, n, vmSize)
    ensures QuotaFacts(q, score, sum, n, vmSize)
  {
    assert Unfolding(QuotaPart, true);
  }

  lemma ShareNotNegative(cpu: real, sum: real, n: nat)
    requires cpu >= 0.0 && sum > 0.0
    ensures Uncapped(cpu, sum, n) >= 0
  {
    assert cpu / sum >= 0.0;
    assert cpu / sum * n as real >= 0.0;
  }

  method CapQuota(score: Score, sum: real, n: nat, vmSize: nat) returns (q: nat)
    requires sum > 0.0 && score.cpu >= 0.0 && score.freeMem >= 0.0
    ensures q > 0 ==> (q - 1) as real * sum < score.cpu * n as real
    ensures (q * vmSize) as real <= score.freeMem
    ensures forall c: nat :: q < c && (c - 1) as real * sum < score.cpu * n as real ==>
                               (c * vmSize) as real > score.freeMem
  {
    ShareNotNegative(score.cpu, sum, n);
    q := Uncapped(score.cpu, sum, n);
    while !Fits(q, vmSize, score.freeMem)
      invariant 0 <= q <= Uncapped(score.cpu, sum, n)
      invariant forall c: nat :: q < c <= Uncapped(score.cpu, sum, n) ==>
                                   !Fits(c, vmSize, score.freeMem)
      decreases q
    {
      q := q - 1;
    }
    RoundedShare(score.cpu, sum, n, q);
    forall c: nat | q < c && (c - 1) as real * sum < score.cpu * n as real
      ensures (c * vmSize) as real > score.freeMem
    {
      RoundedShare(score.cpu, sum, n, c);
      assert !Fits(c, vmSize, score.freeMem);
    }
  }

  method QuotaOf(score: Score, sum: real, n: nat, vmSize: nat) returns (q: nat)
    requires sum > 0.0 && score.cpu >= 0.0 && score.freeMem >= 0.0
    ensures IsQuota(q, score, sum, n, vmSize)
  {
    q := CapQuota(score, sum, n, vmSize);
  }

  // ----- The ranking ------------------------------------------------------------------

  ghost predicate BestFirst(order: seq<nat>, scores: Scores)
    requires forall s :: s in order ==> s in scores
  {
    forall i, j :: 0 <= i < j < |order| ==> scores[order[i]].cpu >= scores[order[j]].cpu
  }

  lemma {:induction false} BestExists(todo: set<nat>, scores: Scores)
    requires todo != {} && todo <= scores.Keys
    ensures exists b :: b in todo && forall s :: s in todo ==> scores[b].cpu >= scores[s].cpu
  {
    var x :| x in todo;
    if todo == {x} {
    } else {
      BestExists(todo - {x}, scores);
      var b :| b in todo - {x} && forall s :: s in todo - {x} ==> scores[b].cpu >= scores[s].cpu;
      var best := if scores[x].cpu > scores[b].cpu then x else b;
      assert forall s :: s in todo ==> s == x || s in todo - {x};
      assert best in todo && forall s :: s in todo ==> scores[best].cpu >= scores[s].cpu;
    }
  }

  /** The servers, best CPU first. */
  method RankByCpu(scores: Scores) returns (order: seq<nat>)
    ensures Distinct(order)
    ensures forall s :: s in order <==> s in scores
    ensures BestFirst(order, scores) && |order| == |scores.Keys|
  {
    order := [];
    var todo := scores.Keys;
    while todo != {}
      invariant todo <= scores.Keys && Distinct(order)
      invariant forall s :: s in order <==> s in scores && s !in todo
      invariant BestFirst(order, scores) && |order| + |todo| == |scores.Keys|
      invariant forall i, s :: 0 <= i < |order| && s in todo ==>
                                 scores[order[i]].cpu >= scores[s].cpu
    {
      BestExists(todo, scores);
      var b :| b in todo && forall s :: s in todo ==> scores[b].cpu >= scores[s].cpu;
      order := order + [b];
      todo := todo - {b};
    }
  }

  // ----- The strategy -----------------------------------------------------------------

  /** All servers have the quota that the strategy promises. */
  ghost predicate AreQuotas(quotas: Quotas, scores: Scores, cnt: nat, n: nat, vmSize: nat)
    requires ValidScores(scores, cnt)
  {
    && (forall s :: s in quotas <==> 1 <= s <= cnt)
    && forall s :: s in quotas ==> IsQuota(quotas[s], scores[s], SumCpu(scores, cnt), n, vmSize)
  }

  method ComputeQuotas(scores: Scores, cnt: nat, n: nat, vmSize: nat) returns (quotas: Quotas)
    requires ValidScores(scores, cnt)
    ensures AreQuotas(quotas, scores, cnt, n, vmSize)
  {
    var sum := 0.0;
    for s := 1 to cnt + 1
      invariant sum == SumCpu(scores, s - 1)
    {
      sum := sum + scores[s].cpu;
    }
    quotas := map[];
    for s := 1 to cnt + 1
      invariant forall t :: t in quotas <==> 1 <= t < s
      invariant forall t :: t in quotas ==> IsQuota(quotas[t], scores[t], sum, n, vmSize)
    {
      var q := QuotaOf(scores[s], sum, n, vmSize);
      quotas := quotas[s := q];
    }
  }

  /** No server holds more nodes than its memory can. */
  ghost predicate WithinMemory(res: Mapping, scores: Scores, vmSize: nat) {
    forall s :: s in res && s in scores ==> Fits(|res[s]|, vmSize, scores[s].freeMem)
  }

  /** Every server has its quota and a fair part of the overflow: no server gets more of it than
      a better one, and the best one at most one node more than any other. */
  ghost predicate OverflowIsFair(res: Mapping, quotas: Quotas, order: seq<nat>, overflow: nat) {
    && (forall i :: 0 <= i < |order| ==>
          order[i] in res && order[i] in quotas &&
          |res[order[i]]| == quotas[order[i]] + FairShare(overflow, |order|, i))
    && (forall i, j :: 0 <= i < j < |order| ==>
          var x, y := |res[order[i]]| - quotas[order[i]], |res[order[j]]| - quotas[order[j]];
          0 <= y <= x <= y + 1)
  }

  method DistributeByScore(ids: seq<nat>, cnt: nat, scores: Scores, vmSize: nat)
    returns (res: Mapping, quotas: Quotas, order: seq<nat>)
    requires ValidScores(scores, cnt)
    ensures Distributes(res, ids, cnt)
    ensures AreQuotas(quotas, scores, cnt, |ids|, vmSize)
    ensures Distinct(order) && |order| == cnt
    ensures (forall s :: s in order <==> s in scores) && BestFirst(order, scores)
    ensures Prefix(quotas, cnt) >= |ids| ==> WithinMemory(res, scores, vmSize)
    ensures Prefix(quotas, cnt) <= |ids| ==>
              OverflowIsFair(res, quotas, order, |ids| - Prefix(quotas, cnt))
  {
    order := RankByCpu(scores);
    CountServers(scores, cnt);
    quotas := ComputeQuotas(scores, cnt, |ids|, vmSize);
    assert cnt >= 1 && 1 in scores;
    res := ApplyDistributionStrategy(ids, cnt, quotas, order);
    SharesDistribute(res, ids, cnt, quotas, order);
    ScoreShares(res, ids, cnt, quotas, order);
    if Prefix(quotas, cnt) >= |ids| {
      QuotasFit(res, scores, quotas, vmSize, cnt, |ids|);
    }
  }

  lemma QuotasFit(res: Mapping, scores: Scores, quotas: Quotas, vmSize: nat, cnt: nat, n: nat)
    requires ValidScores(scores, cnt) && AreQuotas(quotas, scores, cnt, n, vmSize)
    requires forall s :: s in res ==> s in quotas && |res[s]| <= quotas[s]
    ensures WithinMemory(res, scores, vmSize)
  {
    forall s | s in res && s in scores
      ensures Fits(|res[s]|, vmSize, scores[s].freeMem)
    {
      UnfoldQuota(quotas[s], scores[s], SumCpu(scores, cnt), n, vmSize);
      FewerFit(|res[s]|, quotas[s], vmSize, scores[s].freeMem);
    }
  }

  lemma ScoreShares(res: Mapping, ids: seq<nat>, cnt: nat, quotas: Quotas, order: seq<nat>)
    requires Distinct(order) && |order| == cnt > 0 && AreShares(res, ids, cnt, quotas, order)
    requires forall s :: s in order <==> 1 <= s <= cnt
    requires forall s :: s in quotas <==> 1 <= s <= cnt
    ensures Prefix(quotas, cnt) >= |ids| ==> forall s :: s in res ==> |res[s]| <= quotas[s]
    ensures Prefix(quotas, cnt) <= |ids| ==>
              OverflowIsFair(res, quotas, order, |ids| - Prefix(quotas, cnt))
  {
    forall i | 0 <= i < cnt
      ensures var s := order[i];
              && s in res && s in quotas
              && (Prefix(quotas, cnt) >= |ids| ==> |res[s]| <= quotas[s])
              && (Prefix(quotas, cnt) <= |ids| ==>
                    |res[s]| == quotas[s] + FairShare(|ids| - Prefix(quotas, cnt), cnt, i))
    {
      assert order[i] in order;
      ShareOf(res, ids, cnt, quotas, order, order[i]);
      ScoreShare(ids, cnt, quotas, order, i);
    }
    forall s | s in res
      ensures Prefix(quotas, cnt) >= |ids| ==> |res[s]| <= quotas[s]
    {
      assert s in order;
      var i :| 0 <= i < |order| && order[i] == s;
    }
  }

  lemma FewerFit(a: nat, b: nat, vmSize: nat, freeMem: real)
    requires a <= b && Fits(b, vmSize, freeMem)
    ensures Fits(a, vmSize, freeMem)
  {
    assert (b - a) * vmSize >= 0;
    assert (b - a) * vmSize == b * vmSize - a * vmSize;
  }

  lemma {:induction false} CountServers(scores: Scores, cnt: nat)
    requires forall s :: s in scores <==> 1 <= s <= cnt
    ensures |scores.Keys| == cnt
  {
    if cnt == 0 {
      assert scores.Keys == {};
    } else {
      CountServers(scores - {cnt}, cnt - 1);
      assert scores.Keys == (scores - {cnt}).Keys + {cnt};
    }
  }

  /** With a quota for every server, a share is at most the quota while the quotas suffice,
      and the quota plus a fair part of the overflow if they do not. */
  lemma ScoreShare(ids: seq<nat>, cnt: nat, quotas: Quotas, order: seq<nat>, i: nat)
    requires Distinct(order) && |order| == cnt && i < cnt && 1 <= order[i] <= cnt
    requires forall s :: s in quotas <==> 1 <= s <= cnt
    ensures var share := |Share(ids, cnt, quotas, order, order[i])|;
            && (Prefix(quotas, cnt) >= |ids| ==> share <= quotas[order[i]])
            && (Prefix(quotas, cnt) <= |ids| ==>
                  share == quotas[order[i]] + FairShare(|ids| - Prefix(quotas, cnt), cnt, i))
  {
    ShareSize(ids, cnt, quotas, order, i);
    assert Served(quotas, cnt) == cnt;
    PrefixMonotone(quotas, order[i], cnt);
  }

  // ----- What the quotas add up to ----------------------------------------------------

  lemma ShareSplits(a: real, b: real, sum: real, n: nat)
    requires sum > 0.0
    ensures (a + b) / sum * n as real == a / sum * n as real + b / sum * n as real
  {
    assert (a + b) / sum == a / sum + b / sum;
    assert (a / sum + b / sum) * n as real == a / sum * n as real + b / sum * n as real;
  }

  lemma WholeShare(sum: real, n: nat)
    requires sum > 0.0
    ensures sum / sum * n as real == n as real && 0.0 / sum * n as real == 0.0
  {
    assert sum / sum == 1.0 by {
      assert sum * (sum / sum) == sum;
    }
    assert 0.0 / sum == 0.0;
  }

  /** The quota is the share of n nodes, rounded up; folded. */
  ghost predicate IsRounded(q: nat, cpu: real, sum: real, n: nat)
    requires sum > 0.0
  {
    forall b {:trigger Unfolding(RoundPart, b)} :: Unfolding(RoundPart, b) ==>
      cpu / sum * n as real <= q as real < cpu / sum * n as real + 1.0
  }

  /** The quotas of k servers with this CPU cover their share, with less than one node too many
      for each of them; folded. */
  ghost predicate Cover(p: nat, cpu: real, sum: real, n: nat, k: nat)
    requires sum > 0.0
  {
    forall b {:trigger Unfolding(SumPart, b)} :: Unfolding(SumPart, b) ==>
      && cpu / sum * n as real <= p as real <= cpu / sum * n as real + k as real
      && (k > 0 ==> p as real < cpu / sum * n as real + k as real)
  }

  lemma CoverNext(a: real, cpu: real, sum: real, n: nat, p: nat, q: nat, k: nat)
    requires sum > 0.0 && IsRounded(q, cpu, sum, n) && Cover(p, a, sum, n, k)
    ensures Cover(p + q, a + cpu, sum, n, k + 1)
  {
    assert Unfolding(RoundPart, true);
    assert Unfolding(SumPart, true);
    ShareSplits(a, cpu, sum, n);
  }

  lemma {:induction false} RoundedAddUp(quotas: Quotas, scores: Scores, sum: real, n: nat, k: nat)
    requires sum > 0.0 && forall s :: 1 <= s <= k ==> s in scores && s in quotas
    requires forall s :: 1 <= s <= k ==> IsRounded(quotas[s], scores[s].cpu, sum, n)
    ensures Cover(Prefix(quotas, k), SumCpu(scores, k), sum, n, k)
  {
    if k == 0 {
      WholeShare(sum, n);
    } else {
      RoundedAddUp(quotas, scores, sum, n, k - 1);
      CoverNext(SumCpu(scores, k - 1), scores[k].cpu, sum, n, Prefix(quotas, k - 1), quotas[k], k - 1);
    }
  }

  /** Quotas that are not capped by the memory cover all nodes, and in all they are less than
      one node per server too large. */
  lemma UncappedQuotasSuffice(quotas: Quotas, scores: Scores, cnt: nat, n: nat)
    requires ValidScores(scores, cnt) && forall s :: s in quotas <==> 1 <= s <= cnt
    requires forall s :: s in quotas ==> IsRounded(quotas[s], scores[s].cpu, SumCpu(scores, cnt), n)
    ensures n <= Prefix(quotas, cnt) < n + cnt
  {
    RoundedAddUp(quotas, scores, SumCpu(scores, cnt), n, cnt);
    CoverAll(Prefix(quotas, cnt), SumCpu(scores, cnt), n, cnt);
  }

  /** A server whose memory holds one more node than its quota has its rounded share. */
  lemma AmpleMemoryKeepsShare(q: nat, score: Score, sum: real, n: nat, vmSize: nat)
    requires sum > 0.0 && score.cpu >= 0.0 && IsQuota(q, score, sum, n, vmSize)
    requires ((q + 1) * vmSize) as real <= score.freeMem
    ensures IsRounded(q, score.cpu, sum, n)
  {
    UnfoldQuota(q, score, sum, n, vmSize);
    ShareCompared(score.cpu, sum, n, q);
    if q > 0 {
      ShareCompared(score.cpu, sum, n, q - 1);
    } else {
      ShareNotNegative(score.cpu, sum, n);
    }
  }

  lemma CoverAll(p: nat, sum: real, n: nat, cnt: nat)
    requires sum > 0.0 && cnt > 0 && Cover(p, sum, sum, n, cnt)
    ensures n <= p < n + cnt
  {
    assert Unfolding(SumPart, true);
    WholeShare(sum, n);
  }
}
