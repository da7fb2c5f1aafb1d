/** Planning is optimistic, applying is not: what the two passes bracket, for every batch and every
    answer of GitHub. */
module MergeReaperSafety {
  import opened Wrappers
  import opened MergeOrder
  import opened MergeReaper

  // ---- the right answer: dependency-closed sets of candidates ----

  /** Candidate `i` may merge once the candidates of `s` have: its own checks pass, its dependencies
      inside the batch are in `s`, and those outside are merged. */
  predicate Supported(cs: seq<Inspected>, live: Live, s: set<nat>, i: nat) {
    i < |cs| && cs[i].baseOk
    && forall d :: d in cs[i].candidate.dependencies ==>
         var j := Lookup(cs, d);
         if j.Some? then j.value in s else live(d).Merged?
  }

  /** A set of candidates that could all merge if they could all wait for each other. */
  predicate Closed(cs: seq<Inspected>, live: Live, s: set<nat>) {
    forall i :: i in s ==> Supported(cs, live, s, i)
  }

  /** In the greatest closed set. */
  ghost predicate InGreatest(cs: seq<Inspected>, live: Live, i: nat) {
    exists s: set<nat> :: i in s && Closed(cs, live, s)
  }

  /** A set that contains everything it supports. */
  ghost predicate Inductive(cs: seq<Inspected>, live: Live, s: set<nat>) {
    forall i: nat :: Supported(cs, live, s, i) ==> i in s
  }

  /** In the least set that contains everything it supports: what can merge one at a time, each after
      all its dependencies. */
  ghost predicate InLeast(cs: seq<Inspected>, live: Live, i: nat) {
    forall s: set<nat> :: Inductive(cs, live, s) ==> i in s
  }

  // ---- planning keeps the greatest set ----

  lemma {:induction false} PlanKeepsClosed(cs: seq<Inspected>, live: Live, s: set<nat>, n: nat)
    requires Closed(cs, live, s) && n <= |cs|
    ensures forall i :: i in s ==> i < |cs| && PlanAfter(cs, live, n)[i]
  {
    forall i | i in s
      ensures i < |cs| && cs[i].baseOk
    {
      assert Supported(cs, live, s, i);
    }
    if n > 0 {
      var before := PlanAfter(cs, live, n - 1);
      PlanKeepsClosed(cs, live, s, n - 1);
      if n - 1 in s {
        assert Supported(cs, live, s, n - 1);
        var states := StatesOf(cs, before, live, cs[n - 1].candidate.dependencies);
        assert forall d :: d in states ==> Satisfied(states[d]);
      }
    }
  }

  /** Whatever the candidate order, the planned-eligible candidates include the greatest closed set. */
  lemma PlanningIncludesGreatest(cs: seq<Inspected>, live: Live, i: nat)
    requires InGreatest(cs, live, i)
    ensures i < |cs| && Plan(cs, live)[i]
  {
    var s: set<nat> :| i in s && Closed(cs, live, s);
    PlanKeepsClosed(cs, live, s, |cs|);
  }

  lemma {:induction false} PlanStable(cs: seq<Inspected>, live: Live, n: nat, m: nat)
    requires n <= m <= |cs|
    ensures forall i :: 0 <= i < n ==> PlanAfter(cs, live, m)[i] == PlanAfter(cs, live, n)[i]
    ensures forall i :: m <= i < |cs| ==> PlanAfter(cs, live, m)[i] == cs[i].baseOk
    decreases m
  {
    if n < m {
      PlanStable(cs, live, n, m - 1);
    } else if m > 0 {
      PlanStable(cs, live, m - 1, m - 1);
    }
  }

  /** When candidate `i` is re-evaluated, candidates before it already have their final evaluation and
      the others still the one without dependencies. */
  predicate PlannedDependency(cs: seq<Inspected>, live: Live, i: nat, d: Key)
    requires i < |cs|
  {
    var j := Lookup(cs, d);
    if j.None? then live(d).Merged?
    else if j.value < i then Plan(cs, live)[j.value]
    else cs[j.value].baseOk
  }

  /** Exactly what the pass leaves eligible. */
  lemma PlanExact(cs: seq<Inspected>, live: Live, i: nat)
    requires i < |cs|
    ensures Plan(cs, live)[i] <==>
            cs[i].baseOk && forall d :: d in cs[i].candidate.dependencies ==> PlannedDependency(cs, live, i, d)
  {
    var before := PlanAfter(cs, live, i);
    var deps := cs[i].candidate.dependencies;
    var states := StatesOf(cs, before, live, deps);
    PlanStable(cs, live, i + 1, |cs|);
    PlanStable(cs, live, i, |cs|);
    PlanStable(cs, live, i, i);
    assert Plan(cs, live)[i] == Evaluate(cs[i].baseOk, states);
    forall d | d in deps
      ensures Satisfied(states[d]) <==> PlannedDependency(cs, live, i, d)
    {
    }
  }

  /** The planned-eligible set contains everything it supports. */
  lemma PlanIsInductive(cs: seq<Inspected>, live: Live)
    ensures Inductive(cs, live, set i: nat | i in Below(|cs|) && Plan(cs, live)[i])
  {
    var s := set i: nat | i in Below(|cs|) && Plan(cs, live)[i];
    forall i: nat | Supported(cs, live, s, i)
      ensures i in s
    {
      forall d | d in cs[i].candidate.dependencies
        ensures PlannedDependency(cs, live, i, d)
      {
        var j := Lookup(cs, d);
        if j.Some? {
          assert j.value in s;
          PlanExact(cs, live, j.value);
        }
      }
      PlanExact(cs, live, i);
    }
  }

  lemma LeastIsPlanned(cs: seq<Inspected>, live: Live, i: nat)
    requires InLeast(cs, live, i)
    ensures i < |cs| && Plan(cs, live)[i]
  {
    PlanIsInductive(cs, live);
  }

  // ---- what a merge in the apply loop depends on ----

  predicate MergedAt(cs: seq<Inspected>, selected: seq<nat>, reread: seq<Fresh>, k: nat)
    requires Selection(cs, selected, reread)
  {
    k < |selected| && OutcomeOf(cs, selected, reread, k).MergedNow?
  }

  /** Some turn before `k` merged the candidate with this key. */
  predicate MergedEarlier(cs: seq<Inspected>, selected: seq<nat>, reread: seq<Fresh>, k: nat, key: Key)
    requires Selection(cs, selected, reread) && k <= |selected|
  {
    exists j :: 0 <= j < k && MergedAt(cs, selected, reread, j) && cs[selected[j]].candidate.key == key
  }

  lemma MergedBeforeStep(cs: seq<Inspected>, selected: seq<nat>, reread: seq<Fresh>, k: nat, key: Key)
    requires Selection(cs, selected, reread) && 0 < k <= |selected|
    ensures key in MergedBefore(cs, selected, reread, k) <==>
            key in MergedBefore(cs, selected, reread, k - 1)
            || (MergedAt(cs, selected, reread, k - 1) && cs[selected[k - 1]].candidate.key == key)
  {
  }

  lemma {:induction false} TurnOfKey(cs: seq<Inspected>, selected: seq<nat>, reread: seq<Fresh>, k: nat, key: Key)
      returns (j: nat)
    requires Selection(cs, selected, reread) && k <= |selected| && key in MergedBefore(cs, selected, reread, k)
    ensures j < k && MergedAt(cs, selected, reread, j) && cs[selected[j]].candidate.key == key
  {
    MergedBeforeStep(cs, selected, reread, k, key);
    if key in MergedBefore(cs, selected, reread, k - 1) {
      j := TurnOfKey(cs, selected, reread, k - 1, key);
    } else {
      j := k - 1;
    }
  }

  lemma {:induction false} KeyOfTurn(cs: seq<Inspected>, selected: seq<nat>, reread: seq<Fresh>, j: nat, k: nat)
    requires Selection(cs, selected, reread) && j < k <= |selected| && MergedAt(cs, selected, reread, j)
    ensures cs[selected[j]].candidate.key in MergedBefore(cs, selected, reread, k)
  {
    MergedBeforeStep(cs, selected, reread, k, cs[selected[j]].candidate.key);
    if j < k - 1 {
      KeyOfTurn(cs, selected, reread, j, k - 1);
    }
  }

  /** The loop's `mergedKeys` holds exactly the keys merged earlier. */
  lemma MergedKeysExact(cs: seq<Inspected>, selected: seq<nat>, reread: seq<Fresh>, k: nat, key: Key)
    requires Selection(cs, selected, reread) && k <= |selected|
    ensures key in MergedBefore(cs, selected, reread, k) <==> MergedEarlier(cs, selected, reread, k, key)
  {
    if key in MergedBefore(cs, selected, reread, k) {
      var j := TurnOfKey(cs, selected, reread, k, key);
    }
    if MergedEarlier(cs, selected, reread, k, key) {
      var j :| 0 <= j < k && MergedAt(cs, selected, reread, j) && cs[selected[j]].candidate.key == key;
      KeyOfTurn(cs, selected, reread, j, k);
    }
  }

  /** Against any answers of GitHub: when a candidate merges, its recorded dependencies inside the batch
      were all merged in strictly earlier turns. */
  lemma MergedDependenciesEarlier(cs: seq<Inspected>, selected: seq<nat>, reread: seq<Fresh>, k: nat, d: Key)
    requires Selection(cs, selected, reread) && MergedAt(cs, selected, reread, k)
    requires d in cs[selected[k]].candidate.dependencies && d in KeysOf(cs)
    ensures MergedEarlier(cs, selected, reread, k, d)
  {
    var merged := MergedBefore(cs, selected, reread, k);
    assert !HasUnmet(cs, selected[k], merged);
    MergedKeysExact(cs, selected, reread, k, d);
  }

  /** And each dependency read afresh was merged by this run or read live as merged; a state of the
      planning pass never counts. */
  lemma FreshDependenciesMerged(cs: seq<Inspected>, selected: seq<nat>, reread: seq<Fresh>, k: nat, d: Key)
    requires Selection(cs, selected, reread) && MergedAt(cs, selected, reread, k)
    requires reread[selected[k]].FreshRead? && d in reread[selected[k]].dependencies
    ensures MergedEarlier(cs, selected, reread, k, d) || reread[selected[k]].live(d) == DependencyState.Merged
  {
    var merged := MergedBefore(cs, selected, reread, k);
    var f := reread[selected[k]];
    var states := FreshStates(f.dependencies, merged, f.live);
    assert d in states;
    MergedKeysExact(cs, selected, reread, k, d);
  }

  /** A merge was preceded by a full fresh inspection whose own checks passed. */
  lemma FreshChecksPassed(cs: seq<Inspected>, selected: seq<nat>, reread: seq<Fresh>, k: nat)
    requires Selection(cs, selected, reread) && MergedAt(cs, selected, reread, k)
    ensures var f := reread[selected[k]]; f.FreshRead? && f.full && f.baseOk && f.mergeSucceeds
  {
  }

  /** The recorded dependencies that are candidates of the batch were all merged earlier. */
  predicate BatchDependenciesMerged(cs: seq<Inspected>, selected: seq<nat>, reread: seq<Fresh>, k: nat)
    requires Selection(cs, selected, reread) && k < |selected|
  {
    forall j :: 0 <= j < |cs| && cs[j].candidate.key in cs[selected[k]].candidate.dependencies
      ==> MergedEarlier(cs, selected, reread, k, cs[j].candidate.key)
  }

  /** The fresh inspection was full, its own checks passed, and each dependency it found was merged by this
      run or is read as merged now. */
  predicate FreshlyEligible(cs: seq<Inspected>, selected: seq<nat>, reread: seq<Fresh>, k: nat)
    requires Selection(cs, selected, reread) && k < |selected|
  {
    var f := reread[selected[k]];
    f.FreshRead? && f.full && f.baseOk
    && forall d :: d in f.dependencies ==> MergedEarlier(cs, selected, reread, k, d) || f.live(d).Merged?
  }

  /** What every turn of the apply loop ends in, in terms of the turns before it. */
  lemma OutcomeExactly(cs: seq<Inspected>, selected: seq<nat>, reread: seq<Fresh>, k: nat)
    requires Selection(cs, selected, reread) && k < |selected|
    ensures var outcome, f := OutcomeOf(cs, selected, reread, k), reread[selected[k]];
            var met := BatchDependenciesMerged(cs, selected, reread, k);
            var eligible := FreshlyEligible(cs, selected, reread, k);
            && (outcome == UnmetInBatch <==> !met)
            && (outcome == FreshRejected <==> met && f.FreshRead? && !eligible)
            && (outcome == MergedNow <==> met && eligible && f.mergeSucceeds)
            && (outcome == MergeFailed <==> met && (f.FreshThrows? || (eligible && !f.mergeSucceeds)))
  {
    var merged := MergedBefore(cs, selected, reread, k);
    assert HasUnmet(cs, selected[k], merged) <==> !BatchDependenciesMerged(cs, selected, reread, k) by {
      UnmetExactly(cs, selected, reread, k);
    }
    if reread[selected[k]].FreshRead? {
      FreshExactly(cs, selected, reread, k);
    }
  }

  lemma UnmetExactly(cs: seq<Inspected>, selected: seq<nat>, reread: seq<Fresh>, k: nat)
    requires Selection(cs, selected, reread) && k < |selected|
    ensures HasUnmet(cs, selected[k], MergedBefore(cs, selected, reread, k))
            <==> !BatchDependenciesMerged(cs, selected, reread, k)
  {
    var merged := MergedBefore(cs, selected, reread, k);
    if HasUnmet(cs, selected[k], merged) {
      var d :| d in cs[selected[k]].candidate.dependencies && d in KeysOf(cs) && d !in merged;
      var c :| c in cs && c.candidate.key == d;
      var j :| 0 <= j < |cs| && cs[j] == c;
      MergedKeysExact(cs, selected, reread, k, d);
      assert cs[j].candidate.key == d;
    } else {
      forall j | 0 <= j < |cs| && cs[j].candidate.key in cs[selected[k]].candidate.dependencies
        ensures MergedEarlier(cs, selected, reread, k, cs[j].candidate.key)
      {
        assert cs[j] in cs;
        MergedKeysExact(cs, selected, reread, k, cs[j].candidate.key);
      }
    }
  }

  lemma FreshExactly(cs: seq<Inspected>, selected: seq<nat>, reread: seq<Fresh>, k: nat)
    requires Selection(cs, selected, reread) && k < |selected| && reread[selected[k]].FreshRead?
    ensures FreshEligible(reread[selected[k]], MergedBefore(cs, selected, reread, k))
            <==> FreshlyEligible(cs, selected, reread, k)
  {
    var f, merged := reread[selected[k]], MergedBefore(cs, selected, reread, k);
    var states := FreshStates(f.dependencies, merged, f.live);
    forall d | d in f.dependencies
      ensures Satisfied(states[d]) <==> MergedEarlier(cs, selected, reread, k, d) || f.live(d).Merged?
    {
      MergedKeysExact(cs, selected, reread, k, d);
    }
    assert forall d :: d in states <==> d in f.dependencies;
  }

  /** Candidates of the batch, each recording the next as a dependency. */
  predicate DependencyChain(cs: seq<Inspected>, p: seq<nat>) {
    (forall k :: 0 <= k < |p| ==> p[k] < |cs|)
    && forall k :: 0 <= k < |p| - 1 ==> cs[p[k + 1]].candidate.key in cs[p[k]].candidate.dependencies
  }

  lemma UniqueIndex(cs: seq<Inspected>, i: nat, j: nat)
    requires UniqueKeys(cs) && i < |cs| && j < |cs| && cs[i].candidate.key == cs[j].candidate.key
    ensures i == j
  {
  }

  /** Along a chain of dependencies, the far end merged strictly before the near end. */
  lemma {:induction false} ChainMergesBackwards(cs: seq<Inspected>, selected: seq<nat>, reread: seq<Fresh>, p: seq<nat>, k: nat)
      returns (j: nat)
    requires Selection(cs, selected, reread) && UniqueKeys(cs) && |p| >= 2 && DependencyChain(cs, p)
    requires MergedAt(cs, selected, reread, k) && selected[k] == p[0]
    ensures j < k && MergedAt(cs, selected, reread, j) && selected[j] == p[|p| - 1]
    decreases |p|
  {
    var d := cs[p[0 + 1]].candidate.key;
    assert d in cs[p[0]].candidate.dependencies;
    assert cs[p[1]] in cs;
    MergedDependenciesEarlier(cs, selected, reread, k, d);
    j :| 0 <= j < k && MergedAt(cs, selected, reread, j) && cs[selected[j]].candidate.key == d;
    UniqueIndex(cs, selected[j], p[1]);
    if |p| > 2 {
      var q := p[1..];
      forall m | 0 <= m < |q| - 1
        ensures cs[q[m + 1]].candidate.key in cs[q[m]].candidate.dependencies
      {
        assert cs[p[m + 1 + 1]].candidate.key in cs[p[m + 1]].candidate.dependencies;
      }
      j := ChainMergesBackwards(cs, selected, reread, q, j);
    }
  }

  /** One candidate that did not merge blocks every candidate that depends on it, however indirectly. */
  lemma UnmergedBlocksDependents(cs: seq<Inspected>, selected: seq<nat>, reread: seq<Fresh>, p: seq<nat>, k: nat)
    requires Selection(cs, selected, reread) && UniqueKeys(cs) && |p| >= 2 && DependencyChain(cs, p)
    requires forall j: nat :: MergedAt(cs, selected, reread, j) ==> selected[j] != p[|p| - 1]
    requires k < |selected| && selected[k] == p[0]
    ensures !MergedAt(cs, selected, reread, k)
  {
    if MergedAt(cs, selected, reread, k) {
      var j := ChainMergesBackwards(cs, selected, reread, p, k);
    }
  }

  /** No member of a cycle of recorded dependencies ever merges. */
  lemma {:induction false} CycleNeverMerges(cs: seq<Inspected>, selected: seq<nat>, reread: seq<Fresh>, p: seq<nat>, k: nat)
    requires Selection(cs, selected, reread) && UniqueKeys(cs) && |p| >= 2 && DependencyChain(cs, p) && p[0] == p[|p| - 1]
    requires k < |selected| && selected[k] == p[0]
    ensures !MergedAt(cs, selected, reread, k)
    decreases k
  {
    if MergedAt(cs, selected, reread, k) {
      var j := ChainMergesBackwards(cs, selected, reread, p, k);
      CycleNeverMerges(cs, selected, reread, p, j);
    }
  }

  // ---- applying stays within the least set ----

  lemma {:induction false} MergedIsInductivelySupported(cs: seq<Inspected>, live: Live, selected: seq<nat>, reread: seq<Fresh>,
                                                       k: nat, s: set<nat>)
    requires Selection(cs, selected, reread) && UniqueKeys(cs) && Scheduled(cs, live, selected)
    requires MergedAt(cs, selected, reread, k) && Inductive(cs, live, s)
    ensures selected[k] in s
    decreases k
  {
    var i := selected[k];
    PlanExact(cs, live, i);
    forall d | d in cs[i].candidate.dependencies
      ensures var j := Lookup(cs, d); if j.Some? then j.value in s else live(d).Merged?
    {
      assert PlannedDependency(cs, live, i, d);
      var j := Lookup(cs, d);
      if j.Some? {
        assert cs[j.value] in cs;
        MergedDependenciesEarlier(cs, selected, reread, k, d);
        var m :| 0 <= m < k && MergedAt(cs, selected, reread, m) && cs[selected[m]].candidate.key == d;
        UniqueIndex(cs, selected[m], j.value);
        MergedIsInductivelySupported(cs, live, selected, reread, m, s);
      }
    }
    assert Supported(cs, live, s, i);
  }

  /** Whatever GitHub answers, only candidates of the least set merge: an early "eligible" that later
      turns out wrong never yields a merge. */
  lemma ApplyStaysWithinLeast(cs: seq<Inspected>, live: Live, selected: seq<nat>, reread: seq<Fresh>, k: nat)
    requires Selection(cs, selected, reread) && UniqueKeys(cs) && Scheduled(cs, live, selected)
    requires MergedAt(cs, selected, reread, k)
    ensures InLeast(cs, live, selected[k])
  {
    forall s: set<nat> | Inductive(cs, live, s)
      ensures selected[k] in s
    {
      MergedIsInductivelySupported(cs, live, selected, reread, k, s);
    }
  }

  // ---- and reaches all of it when nothing goes wrong ----

  ghost function Least(cs: seq<Inspected>, live: Live): set<nat> {
    set i | i in Below(|cs|) && InLeast(cs, live, i)
  }

  lemma SupportedMonotone(cs: seq<Inspected>, live: Live, a: set<nat>, b: set<nat>, i: nat)
    requires a <= b && Supported(cs, live, a, i)
    ensures Supported(cs, live, b, i)
  {
  }

  /** The least set supports each of its members. */
  lemma LeastIsClosed(cs: seq<Inspected>, live: Live, i: nat)
    requires InLeast(cs, live, i)
    ensures Supported(cs, live, Least(cs, live), i)
  {
    var least := Least(cs, live);
    var step := set j | j in Below(|cs|) && Supported(cs, live, least, j);
    forall j | j in step
      ensures j in least
    {
      forall s: set<nat> | Inductive(cs, live, s)
        ensures j in s
      {
        assert least <= s;
        SupportedMonotone(cs, live, least, s, j);
      }
    }
    forall j: nat | Supported(cs, live, step, j)
      ensures j in step
    {
      SupportedMonotone(cs, live, step, least, j);
    }
    assert Inductive(cs, live, step);
  }

  /** Every fresh inspection passes, finds only merged dependencies, and the merge call succeeds. */
  predicate Favourable(f: Fresh) {
    f.FreshRead? && f.full && f.baseOk && f.mergeSucceeds
    && forall d :: d in f.dependencies ==> f.live(d).Merged?
  }

  lemma {:induction false} FavourableMerges(cs: seq<Inspected>, live: Live, selected: seq<nat>, reread: seq<Fresh>, k: nat)
    requires Selection(cs, selected, reread) && UniqueKeys(cs) && Scheduled(cs, live, selected) && k < |selected|
    requires forall m :: 0 <= m < |selected| ==> Favourable(reread[selected[m]])
    requires forall i :: 0 <= i < |cs| ==> cs[i].candidate.key !in cs[i].candidate.dependencies
    requires InLeast(cs, live, selected[k])
    ensures MergedAt(cs, selected, reread, k)
    decreases k
  {
    var i := selected[k];
    var merged := MergedBefore(cs, selected, reread, k);
    LeastIsClosed(cs, live, i);
    forall d | d in cs[i].candidate.dependencies && d in KeysOf(cs)
      ensures d in merged
    {
      var j := Lookup(cs, d).value;
      assert j in Least(cs, live) && j != i;
      LeastIsPlanned(cs, live, j);
      assert j in selected[..k];
      var m :| 0 <= m < k && selected[..k][m] == j;
      FavourableMerges(cs, live, selected, reread, m);
      MergedKeysExact(cs, selected, reread, k, d);
    }
    assert !HasUnmet(cs, i, merged);
  }

  /** When every fresh answer is favourable, the selected candidates that merge are exactly those of
      the least set. */
  lemma FavourableRunIsExact(cs: seq<Inspected>, live: Live, selected: seq<nat>, reread: seq<Fresh>, k: nat)
    requires Selection(cs, selected, reread) && UniqueKeys(cs) && Scheduled(cs, live, selected) && k < |selected|
    requires forall m :: 0 <= m < |selected| ==> Favourable(reread[selected[m]])
    requires forall i :: 0 <= i < |cs| ==> cs[i].candidate.key !in cs[i].candidate.dependencies
    ensures MergedAt(cs, selected, reread, k) <==> InLeast(cs, live, selected[k])
  {
    if InLeast(cs, live, selected[k]) {
      FavourableMerges(cs, live, selected, reread, k);
    }
    if MergedAt(cs, selected, reread, k) {
      ApplyStaysWithinLeast(cs, live, selected, reread, k);
    }
  }

  // ---- planning can be strictly optimistic ----

  /** A batch of two: the first depends on the second, which depends on an open pull request outside. */
  function OptimisticBatch(): seq<Inspected> {
    [Inspected(Candidate(1, 0, 0, [2]), true), Inspected(Candidate(2, 0, 0, [3]), true)]
  }

  /** The single pass accepts the first candidate before it rejects the second, although no closed set
      holds the first; the bracket between planning and applying is strict. */
  lemma PlanningCanBeOptimistic(live: Live)
    requires live(3) == Open
    ensures Plan(OptimisticBatch(), live) == [true, false]
    ensures !InGreatest(OptimisticBatch(), live, 0)
  {
    var cs := OptimisticBatch();
    assert cs[..1] == [cs[0]] && cs[..1][..0] == [];
    assert Lookup(cs, 2) == Some(1) && Lookup(cs[..1], 3) == None && Lookup(cs, 3) == None;
    assert 2 in cs[0].candidate.dependencies && 3 in cs[1].candidate.dependencies;
    PlanExact(cs, live, 0);
    PlanExact(cs, live, 1);
    assert !PlannedDependency(cs, live, 1, 3);
    assert forall d :: d in cs[0].candidate.dependencies ==> d == 2;
  }
}
