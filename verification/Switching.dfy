/**
 Differential network switching: a simulation step looks only at the entries of the distance
 matrix that changed, and moves the connection store and the layer-2 rules along.
 */
module Switching {
  import opened Folding
  import opened Topology
  import opened Connections

  /** What the link quality model says about a distance. */
  datatype Verdict = Verdict(connected: bool, quality: Quality)

  datatype Scenario = Scenario(nodes: Nodes, model: int -> Verdict, initial: Quality) {

    /** The node pair has a link at this distance, over at least one interface pair. */
    predicate Up(p: NodePair, distance: int) {
      p.0 < p.1 && Known(nodes, p) && model(distance).connected && Wanted(nodes, p) != {}
    }

    /** All connections of a node pair, with one link quality. */
    function Nics(p: NodePair, q: Option<Quality>): NicStore
      requires Known(nodes, p)
    {
      map ip | ip in Wanted(nodes, p) :: Details(Connection(p, ip), q)
    }

    /** The matrix lists only existing nodes in its upper triangle. */
    predicate Fits(m: Matrix) {
      forall p {:trigger p in m} :: p in m && p.0 < p.1 ==> Known(nodes, p)
    }

    /** The link quality of a pair: the initial quality is merged in for as long as the entry
        of the pair has not changed since the first step. */
    ghost function QualityAt(history: seq<Matrix>, p: NodePair): Quality
      requires p in Overlay(history)
    {
      var q := model(Overlay(history)[p]).quality;
      if Untouched(history, p) then initial + q else q
    }

    /** What building the network from scratch would store as active. */
    ghost function Links(history: seq<Matrix>): NodeStore {
      map p | p in Overlay(history) && Up(p, Overlay(history)[p]) ::
        Nics(p, Some(QualityAt(history, p)))
    }
  }

  /** The entries of the new matrix that are not in the old one. */
  function Diff(before: Matrix, after: Matrix): (r: Matrix) {
    map p | p in after && !(p in before && before[p] == after[p]) :: after[p]
  }

  /** The latest distance of every pair that any matrix of the run listed. */
  function Overlay(history: seq<Matrix>): (r: Matrix) {
    if history == [] then map[]
    else Overlay(history[..|history| - 1]) + history[|history| - 1]
  }

  /** The entry of the pair was never part of a change after the first step. */
  ghost predicate Untouched(history: seq<Matrix>, p: NodePair) {
    forall i :: 1 <= i < |history| ==> p !in Diff(history[i - 1], history[i])
  }

  function Last(history: seq<Matrix>): (r: Matrix) {
    if history == [] then map[] else history[|history| - 1]
  }

  lemma OverlayEndsWithLast(history: seq<Matrix>, p: NodePair)
    requires p in Last(history)
    ensures p in Overlay(history) && Overlay(history)[p] == Last(history)[p]
  {
  }

  /** What one step has to achieve: changed pairs get the link that the new distance asks
      for, all others keep theirs; folded. */
  ghost predicate Switched(s: Scenario, step: nat, before: NodeStore, after: NodeStore,
                           diff: Matrix, done: set<NodePair>) {
    forall b {:trigger Unfolding(SwitchPart, b)} :: Unfolding(SwitchPart, b) ==>
      forall p :: SwitchedAt(s, step, before, after, diff, done, p)
  }

  ghost predicate SwitchedAt(s: Scenario, step: nat, before: NodeStore, after: NodeStore,
                             diff: Matrix, done: set<NodePair>, p: NodePair) {
    if p !in done || p !in diff then SamePair(after, before, p)
    else
      && (p in after <==> s.Up(p, diff[p]))
      && (p in after ==> after[p] == s.Nics(p, Some(StepQuality(s, step, diff[p]))))
  }

  lemma NothingSwitched(s: Scenario, step: nat, store: NodeStore, diff: Matrix, done: set<NodePair>)
    requires forall p :: p in done ==> p !in diff
    ensures Switched(s, step, store, store, diff, done)
  {
  }

  /** A pair that was not handled yet is as before. */
  lemma StillPending(s: Scenario, step: nat, before: NodeStore, after: NodeStore,
                     diff: Matrix, done: set<NodePair>, p: NodePair)
    requires Switched(s, step, before, after, diff, done) && p !in done
    ensures SamePair(after, before, p)
  {
    assert Unfolding(SwitchPart, true);
    assert SwitchedAt(s, step, before, after, diff, done, p);
  }

  /** Switching one more changed pair. */
  lemma SwitchedNext(s: Scenario, step: nat, before: NodeStore, was: NodeStore, after: NodeStore,
                     diff: Matrix, done: set<NodePair>, p: NodePair)
    requires Switched(s, step, before, was, diff, done) && p in diff && p !in done
    requires after == if p.0 >= p.1 then was
                      else if s.Up(p, diff[p]) then
                        was[p := s.Nics(p, Some(StepQuality(s, step, diff[p])))]
                      else was - {p}
    requires p.0 >= p.1 ==> p !in before
    ensures Switched(s, step, before, after, diff, done + {p})
  {
    assert Unfolding(SwitchPart, true);
    forall q
      ensures SwitchedAt(s, step, before, after, diff, done + {p}, q)
    {
      assert SwitchedAt(s, step, before, was, diff, done, q);
    }
  }

  function StepQuality(s: Scenario, step: nat, distance: int): Quality {
    if step == 0 then s.initial + s.model(distance).quality else s.model(distance).quality
  }

  lemma UntouchedStep(history: seq<Matrix>, m: Matrix, p: NodePair)
    requires history != []
    ensures Untouched(history + [m], p) <==> Untouched(history, p) && p !in Diff(Last(history), m)
  {
    var h := history + [m];
    assert h[|h| - 2] == Last(history) && h[|h| - 1] == m;
    assert forall i :: 0 <= i < |history| ==> h[i] == history[i];
  }

  /** A pair that did not change keeps both its distance and its quality. */
  lemma UnchangedPair(s: Scenario, history: seq<Matrix>, m: Matrix, p: NodePair)
    requires p !in Diff(Last(history), m)
    ensures p in Overlay(history + [m]) <==> p in Overlay(history)
    ensures p in Overlay(history) ==>
              && Overlay(history + [m])[p] == Overlay(history)[p]
              && s.QualityAt(history + [m], p) == s.QualityAt(history, p)
  {
    assert (history + [m])[..|history|] == history;
    if history != [] {
      UntouchedStep(history, m, p);
    }
  }

  lemma ChangedPair(s: Scenario, history: seq<Matrix>, m: Matrix, p: NodePair)
    requires p in Diff(Last(history), m)
    ensures p in Overlay(history + [m]) && Overlay(history + [m])[p] == m[p]
    ensures s.QualityAt(history + [m], p) == StepQuality(s, |history|, m[p])
  {
    if history != [] {
      UntouchedStep(history, m, p);
    }
  }

  lemma SwitchedPair(s: Scenario, history: seq<Matrix>, m: Matrix, after: NodeStore, p: NodePair)
    requires var diff := Diff(Last(history), m);
             Switched(s, |history|, s.Links(history), after, diff, diff.Keys)
    ensures p in after <==> p in s.Links(history + [m])
    ensures p in after ==> after[p] == s.Links(history + [m])[p]
  {
    assert Unfolding(SwitchPart, true);
    var diff := Diff(Last(history), m);
    assert SwitchedAt(s, |history|, s.Links(history), after, diff, diff.Keys, p);
    if p in Diff(Last(history), m) {
      ChangedPair(s, history, m, p);
    } else {
      UnchangedPair(s, history, m, p);
    }
  }

  /** Switching only what changed leads to what a rebuild would give. */
  lemma SwitchedIsRebuilt(s: Scenario, history: seq<Matrix>, m: Matrix, after: NodeStore)
    requires var diff := Diff(Last(history), m);
             Switched(s, |history|, s.Links(history), after, diff, diff.Keys)
    ensures after == s.Links(history + [m])
  {
    var links := s.Links(history + [m]);
    forall p
      ensures SamePair(after, links, p)
    {
      SwitchedPair(s, history, m, after, p);
    }
    SameStores(after, links);
  }

  ghost predicate SamePair(a: NodeStore, b: NodeStore, p: NodePair) {
    (p in a <==> p in b) && (p in a ==> a[p] == b[p])
  }

  lemma SameStores(a: NodeStore, b: NodeStore)
    requires forall p :: SamePair(a, b, p)
    ensures a == b
  {
    assert forall p {:trigger p in a} {:trigger p in b} :: SamePair(a, b, p);
  }

  lemma UnchangedLink(s: Scenario, history: seq<Matrix>, m: Matrix, p: NodePair)
    requires p !in Diff(Last(history), m)
    ensures SamePair(s.Links(history + [m]), s.Links(history), p)
  {
    UnchangedPair(s, history, m, p);
  }

  /** A step with the matrix of the step before changes nothing, not even a link quality. */
  lemma RepeatedMatrixKeepsLinks(s: Scenario, history: seq<Matrix>)
    requires history != []
    ensures s.Links(history + [history[|history| - 1]]) == s.Links(history)
  {
    var m := history[|history| - 1];
    forall p
      ensures SamePair(s.Links(history + [m]), s.Links(history), p)
    {
      UnchangedLink(s, history, m, p);
    }
    SameStores(s.Links(history + [m]), s.Links(history));
  }

  /** The matrix says about the pair what the matrix before said, or nothing. */
  predicate Steady(before: Matrix, after: Matrix, p: NodePair) {
    p in after ==> p in before && before[p] == after[p]
  }

  /** The quality of a link, value by value: the model decides for the latest distance, and the
      initial values fill in what the model leaves open iff no matrix after the first one has
      another entry for the pair than the matrix before. */
  lemma QualityOfRun(s: Scenario, history: seq<Matrix>, p: NodePair)
    requires p in Overlay(history)
    ensures var q, latest := s.QualityAt(history, p), s.model(Overlay(history)[p]).quality;
            var merged := forall i :: 1 <= i < |history| ==> Steady(history[i - 1], history[i], p);
            && (forall k :: k in q <==> k in latest || (merged && k in s.initial))
            && (forall k :: k in q ==> q[k] == if k in latest then latest[k] else s.initial[k])
  {
    assert Untouched(history, p) <==>
           forall i :: 1 <= i < |history| ==> Steady(history[i - 1], history[i], p);
  }

  /** If all matrices list the same pairs, the history does not matter: the active pairs are
      the ones that the link model connects in the latest matrix. */
  lemma {:induction false} SameKeysMeansLatest(history: seq<Matrix>)
    requires forall i, j :: 0 <= i < |history| && 0 <= j < |history| ==>
                              history[i].Keys == history[j].Keys
    ensures Overlay(history) == Last(history)
  {
    if |history| > 1 {
      var h := history[..|history| - 1];
      SameKeysMeansLatest(h);
      assert Last(h) == history[|history| - 2];
    }
  }

  /** In general the active pairs agree with the latest matrix iff no pair that dropped out
      of the matrix still had a link. */
  lemma AgreesWithLatestIff(s: Scenario, history: seq<Matrix>)
    ensures (s.Links(history).Keys ==
             set p | p in Last(history) && s.Up(p, Last(history)[p])) <==>
            (forall p :: p in Overlay(history) && p !in Last(history) ==>
                           !s.Up(p, Overlay(history)[p]))
  {
    var latest := set p | p in Last(history) && s.Up(p, Last(history)[p]);
    forall p | p in Last(history)
      ensures p in Overlay(history) && Overlay(history)[p] == Last(history)[p]
    {
      OverlayEndsWithLast(history, p);
    }
    if forall p :: p in Overlay(history) && p !in Last(history) ==>
                     !s.Up(p, Overlay(history)[p]) {
      assert forall p :: p in s.Links(history).Keys <==> p in latest;
    } else {
      var p :| p in Overlay(history) && p !in Last(history) && s.Up(p, Overlay(history)[p]);
      assert p in s.Links(history).Keys && p !in latest;
    }
  }
}
