/** The merge reaper: one optimistic planning pass over the fully inspected candidates, an order, a
    batch, and an apply loop that re-reads everything before each merge
    (apps/reaper/src/main.mjs, apps/reaper/src/dependency-states.mjs). */
module MergeReaper {
  import opened Wrappers
  import opened MergeOrder

  /** A fully inspected candidate; `baseOk` is the evaluation of everything but its dependencies. */
  datatype Inspected = Inspected(candidate: Candidate, baseOk: bool)

  datatype DependencyState = Merged | Open | ClosedUnmerged | Unavailable | EligibleEarlier | CandidateBlocked

  /** What GitHub can answer about a dependency outside the batch. */
  type LiveState = s: DependencyState | !s.EligibleEarlier? && !s.CandidateBlocked? witness Open

  /** GitHub's answer for each key during one pass; each key is asked once and then cached. */
  type Live = Key -> LiveState

  predicate Satisfied(s: DependencyState) {
    s.Merged? || s.EligibleEarlier?
  }

  /** `evaluateMergeCandidate`, with everything but the dependency states summed up in `baseOk`. */
  predicate Evaluate(baseOk: bool, states: map<Key, DependencyState>) {
    baseOk && forall d :: d in states ==> Satisfied(states[d])
  }

  function KeysOf(cs: seq<Inspected>): set<Key> {
    set c | c in cs :: c.candidate.key
  }

  predicate UniqueKeys(cs: seq<Inspected>) {
    forall i, j :: 0 <= i < j < |cs| ==> cs[i].candidate.key != cs[j].candidate.key
  }

  /** `candidateByKey.get(key)`: the last candidate entered under the key. */
  function Lookup(cs: seq<Inspected>, key: Key): (i: Option<nat>)
    ensures i.Some? ==> i.value < |cs| && cs[i.value].candidate.key == key
    ensures i.Some? ==> forall k :: i.value < k < |cs| ==> cs[k].candidate.key != key
    ensures i.None? ==> forall k :: 0 <= k < |cs| ==> cs[k].candidate.key != key
  {
    if cs == [] then None
    else if cs[|cs| - 1].candidate.key == key then Some(|cs| - 1)
    else Lookup(cs[..|cs| - 1], key)
  }

  /** No later candidate has the same key. */
  predicate LastOfKey(cs: seq<Inspected>, j: nat)
    requires j < |cs|
  {
    forall k :: j < k < |cs| ==> cs[k].candidate.key != cs[j].candidate.key
  }

  // ---- planning ----

  function Resolve(cs: seq<Inspected>, eligible: seq<bool>, live: Live, d: Key): DependencyState
    requires |eligible| == |cs|
  {
    var i := Lookup(cs, d);
    if i.Some? then if eligible[i.value] then EligibleEarlier else CandidateBlocked else live(d)
  }

  function StatesOf(cs: seq<Inspected>, eligible: seq<bool>, live: Live, dependencies: seq<Key>): map<Key, DependencyState>
    requires |eligible| == |cs|
  {
    map d | d in dependencies :: Resolve(cs, eligible, live, d)
  }

  function Reevaluated(cs: seq<Inspected>, eligible: seq<bool>, live: Live, i: nat): bool
    requires |eligible| == |cs| && i < |cs|
  {
    Evaluate(cs[i].baseOk, StatesOf(cs, eligible, live, cs[i].candidate.dependencies))
  }

  function BaseEvaluations(cs: seq<Inspected>): seq<bool> {
    seq(|cs|, i requires 0 <= i < |cs| => cs[i].baseOk)
  }

  /** The evaluations after the first `n` candidates were re-evaluated in place. */
  function PlanAfter(cs: seq<Inspected>, live: Live, n: nat): (eligible: seq<bool>)
    requires n <= |cs|
    ensures |eligible| == |cs|
  {
    if n == 0 then BaseEvaluations(cs)
    else
      var before := PlanAfter(cs, live, n - 1);
      before[n - 1 := Reevaluated(cs, before, live, n - 1)]
  }

  function Plan(cs: seq<Inspected>, live: Live): (eligible: seq<bool>)
    ensures |eligible| == |cs|
  {
    PlanAfter(cs, live, |cs|)
  }

  /** A dependency on a candidate reads as that candidate's current evaluation, any other as GitHub answers. */
  lemma StatesExactly(cs: seq<Inspected>, eligible: seq<bool>, live: Live, dependencies: seq<Key>, d: Key)
    requires |eligible| == |cs|
    ensures var states := StatesOf(cs, eligible, live, dependencies);
            && (d in states <==> d in dependencies)
            && (d in states && d !in KeysOf(cs) ==> states[d] == live(d))
            && (d in states ==> forall j :: 0 <= j < |cs| && cs[j].candidate.key == d && LastOfKey(cs, j) ==>
                  states[d] == (if eligible[j] then EligibleEarlier else CandidateBlocked))
  {
  }

  /** One candidate's dependency states, asking GitHub at most once for each key. */
  method ResolveDependencies(cs: seq<Inspected>, eligible: seq<bool>, live: Live, dependencies: seq<Key>,
                             cache: map<Key, DependencyState>)
      returns (states: map<Key, DependencyState>, newCache: map<Key, DependencyState>)
    requires |eligible| == |cs| && forall d :: d in cache ==> cache[d] == live(d)
    ensures states == StatesOf(cs, eligible, live, dependencies)
    ensures forall d :: d in newCache ==> newCache[d] == live(d)
  {
    states, newCache := map[], cache;
    for k := 0 to |dependencies|
      invariant states == StatesOf(cs, eligible, live, dependencies[..k])
      invariant forall d :: d in newCache ==> newCache[d] == live(d)
    {
      var d := dependencies[k];
      var i := Lookup(cs, d);
      assert dependencies[..k + 1] == dependencies[..k] + [d];
      if i.Some? {
        states := states[d := if eligible[i.value] then EligibleEarlier else CandidateBlocked];
      } else {
        if d !in newCache {
          newCache := newCache[d := live(d)];
        }
        states := states[d := newCache[d]];
      }
    }
    assert dependencies[..|dependencies|] == dependencies;
  }

  /** `applyDependencyStates`: one pass in list order that overwrites each evaluation in place. */
  method ApplyDependencyStates(cs: seq<Inspected>, live: Live, evaluations: array<bool>)
    requires evaluations.Length == |cs| && evaluations[..] == BaseEvaluations(cs)
    modifies evaluations
    ensures evaluations[..] == Plan(cs, live)
  {
    var cache: map<Key, DependencyState> := map[];
    for i := 0 to |cs|
      invariant evaluations[..] == PlanAfter(cs, live, i)
      invariant forall d :: d in cache ==> cache[d] == live(d)
    {
      var states;
      states, cache := ResolveDependencies(cs, evaluations[..], live, cs[i].candidate.dependencies, cache);
      evaluations[i] := Evaluate(cs[i].baseOk, states);
      assert evaluations[..] == PlanAfter(cs, live, i)[i := Reevaluated(cs, PlanAfter(cs, live, i), live, i)];
    }
  }

  // ---- applying ----

  /** What GitHub answers when one selected candidate is read again: an error anywhere, or a reread
      inspection with its dependencies, live states for them, and the outcome of the merge call. */
  datatype Fresh =
    | FreshThrows
    | FreshRead(full: bool, baseOk: bool, dependencies: seq<Key>, live: Live, mergeSucceeds: bool)

  datatype Outcome = UnmetInBatch | FreshRejected | MergeFailed | MergedNow

  /** `resolveFreshDependencyStates` */
  function FreshStates(dependencies: seq<Key>, merged: set<Key>, live: Live): map<Key, DependencyState> {
    map d | d in dependencies :: if d in merged then DependencyState.Merged else live(d)
  }

  method ResolveFreshDependencyStates(dependencies: seq<Key>, merged: set<Key>, live: Live)
      returns (states: map<Key, DependencyState>)
    ensures states == FreshStates(dependencies, merged, live)
  {
    states := map[];
    for k := 0 to |dependencies|
      invariant states == FreshStates(dependencies[..k], merged, live)
    {
      var d := dependencies[k];
      assert dependencies[..k + 1] == dependencies[..k] + [d];
      states := states[d := if d in merged then DependencyState.Merged else live(d)];
    }
    assert dependencies[..|dependencies|] == dependencies;
  }

  /** A recorded dependency inside the batch that this run has not merged. */
  predicate HasUnmet(cs: seq<Inspected>, i: nat, merged: set<Key>)
    requires i < |cs|
  {
    exists d :: d in cs[i].candidate.dependencies && d in KeysOf(cs) && d !in merged
  }

  predicate FreshEligible(reread: Fresh, merged: set<Key>)
    requires reread.FreshRead?
  {
    reread.full && Evaluate(reread.baseOk, FreshStates(reread.dependencies, merged, reread.live))
  }

  /** What one turn of the apply loop does with candidate `i`. */
  function Decide(cs: seq<Inspected>, i: nat, reread: Fresh, merged: set<Key>): Outcome
    requires i < |cs|
  {
    if HasUnmet(cs, i, merged) then UnmetInBatch
    else if reread.FreshThrows? then MergeFailed
    else if !FreshEligible(reread, merged) then FreshRejected
    else if reread.mergeSucceeds then MergedNow
    else MergeFailed
  }

  predicate Selection(cs: seq<Inspected>, selected: seq<nat>, reread: seq<Fresh>) {
    |reread| == |cs| && forall k :: 0 <= k < |selected| ==> selected[k] < |cs|
  }

  /** The keys merged by the first `k` turns. */
  function MergedBefore(cs: seq<Inspected>, selected: seq<nat>, reread: seq<Fresh>, k: nat): set<Key>
    requires Selection(cs, selected, reread) && k <= |selected|
  {
    if k == 0 then {}
    else
      var merged := MergedBefore(cs, selected, reread, k - 1);
      var i := selected[k - 1];
      if Decide(cs, i, reread[i], merged).MergedNow? then merged + {cs[i].candidate.key} else merged
  }

  function OutcomeOf(cs: seq<Inspected>, selected: seq<nat>, reread: seq<Fresh>, k: nat): Outcome
    requires Selection(cs, selected, reread) && k < |selected|
  {
    Decide(cs, selected[k], reread[selected[k]], MergedBefore(cs, selected, reread, k))
  }

  /** The apply loop over the selected candidates. */
  method ApplyMerges(cs: seq<Inspected>, selected: seq<nat>, reread: seq<Fresh>)
      returns (results: seq<Outcome>, mergedKeys: set<Key>)
    requires Selection(cs, selected, reread)
    ensures |results| == |selected| && forall k :: 0 <= k < |selected| ==> results[k] == OutcomeOf(cs, selected, reread, k)
    ensures mergedKeys == MergedBefore(cs, selected, reread, |selected|)
  {
    results, mergedKeys := [], {};
    for k := 0 to |selected|
      invariant |results| == k && forall m :: 0 <= m < k ==> results[m] == OutcomeOf(cs, selected, reread, m)
      invariant mergedKeys == MergedBefore(cs, selected, reread, k)
    {
      var i := selected[k];
      var unmet := set d | d in cs[i].candidate.dependencies && d in KeysOf(cs) && d !in mergedKeys;
      assert forall d :: d in cs[i].candidate.dependencies && d in KeysOf(cs) && d !in mergedKeys ==> d in unmet;
      if unmet != {} {
        assert HasUnmet(cs, i, mergedKeys) by {
          var d :| d in unmet;
        }
        results := results + [UnmetInBatch];
        continue;
      }
      match reread[i] {
        case FreshThrows =>
          results := results + [MergeFailed];
        case FreshRead(full, baseOk, dependencies, live, mergeSucceeds) =>
          var states := ResolveFreshDependencyStates(dependencies, mergedKeys, live);
          if !full || !Evaluate(baseOk, states) {
            results := results + [FreshRejected];
          } else if mergeSucceeds {
            mergedKeys := mergedKeys + {cs[i].candidate.key};
            results := results + [MergedNow];
          } else {
            results := results + [MergeFailed];
          }
      }
    }
  }

  // ---- a whole run ----

  /** Positions of the eligible candidates, in list order. */
  function EligiblePositions(eligible: seq<bool>): (positions: seq<nat>)
    ensures forall k :: 0 <= k < |positions| ==> positions[k] < |eligible| && eligible[positions[k]]
    ensures forall k, m :: 0 <= k < m < |positions| ==> positions[k] < positions[m]
    ensures forall i :: 0 <= i < |eligible| && eligible[i] ==> i in positions
  {
    if eligible == [] then []
    else
      var n := |eligible| - 1;
      var front := EligiblePositions(eligible[..n]);
      if eligible[n] then front + [n] else front
  }

  /** The eligible candidates as the ordering sees them: dependencies outside the batch are dropped. */
  function ToOrder(cs: seq<Inspected>, positions: seq<nat>): (r: seq<Candidate>)
    requires forall k :: 0 <= k < |positions| ==> positions[k] < |cs|
    ensures |r| == |positions|
  {
    seq(|positions|, k requires 0 <= k < |positions| =>
      var c := cs[positions[k]].candidate;
      c.(dependencies := InBatch(cs, c.dependencies)))
  }

  function InBatch(cs: seq<Inspected>, dependencies: seq<Key>): (r: seq<Key>)
    ensures forall d :: d in r <==> d in dependencies && d in KeysOf(cs)
  {
    if dependencies == [] then []
    else if dependencies[0] in KeysOf(cs) then [dependencies[0]] + InBatch(cs, dependencies[1..])
    else InBatch(cs, dependencies[1..])
  }

  /** A batch the planner may hand to the apply loop: distinct planned-eligible candidates, each after
      every planned-eligible candidate it depends on. */
  predicate Scheduled(cs: seq<Inspected>, live: Live, selected: seq<nat>) {
    (forall k :: 0 <= k < |selected| ==> selected[k] < |cs| && Plan(cs, live)[selected[k]])
    && (forall k, m :: 0 <= k < m < |selected| ==> selected[k] != selected[m])
    && (forall k, i :: 0 <= k < |selected| && 0 <= i < |cs| && i != selected[k] && Plan(cs, live)[i]
         && cs[i].candidate.key in cs[selected[k]].candidate.dependencies
         ==> i in selected[..k])
  }

  lemma DependencyIsEdge(cs: seq<Inspected>, positions: seq<nat>, deps: RepositoryDependencies, p: nat, q: nat)
    requires forall k :: 0 <= k < |positions| ==> positions[k] < |cs|
    requires p < |positions| && q < |positions| && p != q
    requires cs[positions[p]].candidate.key in cs[positions[q]].candidate.dependencies
    ensures Edge(DependentsTable(ToOrder(cs, positions), deps), p, q)
  {
  }

  lemma DependencyComesFirst(cs: seq<Inspected>, plan: seq<bool>, deps: RepositoryDependencies, order: seq<nat>, k: nat, i: nat)
    requires |plan| == |cs| && i < |cs| && plan[i]
    requires var positions := EligiblePositions(plan); var os := ToOrder(cs, positions);
             Greedy(os, DependentsTable(os, deps), order) && k < |order| && order[k] < |positions|
             && i != positions[order[k]]
             && cs[i].candidate.key in cs[positions[order[k]]].candidate.dependencies
    ensures exists m :: 0 <= m < k && order[m] < |EligiblePositions(plan)| && EligiblePositions(plan)[order[m]] == i
  {
    var positions := EligiblePositions(plan);
    var os := ToOrder(cs, positions);
    assert i in positions;
    var p :| 0 <= p < |positions| && positions[p] == i;
    DependencyIsEdge(cs, positions, deps, p, order[k]);
    GreedyRespectsEdges(os, DependentsTable(os, deps), order, p, k);
  }

  /** `selected` is the front of the order, read back as candidates of the batch. */
  predicate FrontOf(positions: seq<nat>, order: seq<nat>, selected: seq<nat>) {
    |selected| <= |order|
    && forall k :: 0 <= k < |selected| ==> order[k] < |positions| && selected[k] == positions[order[k]]
  }

  lemma FrontRespectsDependencies(cs: seq<Inspected>, plan: seq<bool>, deps: RepositoryDependencies, order: seq<nat>,
                                  selected: seq<nat>, k: nat, i: nat)
    requires |plan| == |cs| && i < |cs| && plan[i] && FrontOf(EligiblePositions(plan), order, selected)
    requires var os := ToOrder(cs, EligiblePositions(plan)); Greedy(os, DependentsTable(os, deps), order)
    requires k < |selected| && i != selected[k] && selected[k] < |cs|
    requires cs[i].candidate.key in cs[selected[k]].candidate.dependencies
    ensures i in selected[..k]
  {
    DependencyComesFirst(cs, plan, deps, order, k, i);
    var m :| 0 <= m < k && order[m] < |EligiblePositions(plan)| && EligiblePositions(plan)[order[m]] == i;
    assert selected[..k][m] == i;
  }

  lemma FrontIsScheduled(cs: seq<Inspected>, live: Live, deps: RepositoryDependencies, order: seq<nat>, selected: seq<nat>)
    requires Greedy(PlannedBatch(cs, live), PlannedGraph(cs, live, deps), order)
    requires FrontOf(EligiblePositions(Plan(cs, live)), order, selected)
    ensures Scheduled(cs, live, selected)
  {
    var plan := Plan(cs, live);
    GreedyDistinct(PlannedBatch(cs, live), PlannedGraph(cs, live, deps), order);
    forall k, m | 0 <= k < m < |selected|
      ensures selected[k] != selected[m]
    {
      assert order[k] != order[m];
      assert order[k] < order[m] || order[m] < order[k];
    }
    forall k, i | 0 <= k < |selected| && 0 <= i < |cs| && i != selected[k] && plan[i]
                  && cs[i].candidate.key in cs[selected[k]].candidate.dependencies
      ensures i in selected[..k]
    {
      FrontRespectsDependencies(cs, plan, deps, order, selected, k, i);
    }
  }

  /** The planned-eligible candidates as the ordering receives them. */
  function PlannedBatch(cs: seq<Inspected>, live: Live): seq<Candidate> {
    ToOrder(cs, EligiblePositions(Plan(cs, live)))
  }

  /** What the planned-eligible candidates have to wait for. */
  function PlannedGraph(cs: seq<Inspected>, live: Live, deps: RepositoryDependencies): Graph {
    DependentsTable(PlannedBatch(cs, live), deps)
  }

  lemma UniqueKeysStayDistinct(cs: seq<Inspected>, live: Live)
    requires UniqueKeys(cs)
    ensures DistinctKeys(PlannedBatch(cs, live))
  {
    var positions := EligiblePositions(Plan(cs, live));
    forall p, q | 0 <= p < q < |positions|
      ensures cs[positions[p]].candidate.key != cs[positions[q]].candidate.key
    {
      assert positions[p] < positions[q];
    }
  }

  // ---- the batch, without the ordering that computes it ----

  /** Candidate `i` has to wait for `j`: it records it as a dependency, or the policy lets its repository
      wait for the repository of `j`. */
  predicate WaitsFor(cs: seq<Inspected>, deps: RepositoryDependencies, i: nat, j: nat)
    requires i < |cs| && j < |cs|
  {
    var a, b := cs[i].candidate, cs[j].candidate;
    i != j && (b.key in a.dependencies || (a.repository in deps && b.repository in deps[a.repository]))
  }

  /** Planned eligible, not taken yet, and waiting for no planned candidate that is not taken. */
  predicate Available(cs: seq<Inspected>, live: Live, deps: RepositoryDependencies, taken: seq<nat>, i: nat) {
    i < |cs| && Plan(cs, live)[i] && i !in taken
    && forall j :: 0 <= j < |cs| && Plan(cs, live)[j] && WaitsFor(cs, deps, i, j) ==> j in taken
  }

  /** `i` was created first, or at the same time and has the lesser key. */
  predicate Older(cs: seq<Inspected>, i: nat, j: nat)
    requires i < |cs| && j < |cs|
  {
    var a, b := cs[i].candidate, cs[j].candidate;
    a.createdAt < b.createdAt || (a.createdAt == b.createdAt && a.key < b.key)
  }

  /** The candidate to take next. */
  predicate TakenNext(cs: seq<Inspected>, live: Live, deps: RepositoryDependencies, taken: seq<nat>, i: nat) {
    Available(cs, live, deps, taken, i)
    && forall j :: 0 <= j < |cs| && Available(cs, live, deps, taken, j) && j != i ==> Older(cs, i, j)
  }

  function PlannedSet(cs: seq<Inspected>, live: Live): set<nat> {
    set i: nat | 0 <= i < |cs| && Plan(cs, live)[i]
  }

  /** The oldest available candidate first, until the maximum is reached or no planned one is left. */
  ghost predicate Batch(cs: seq<Inspected>, live: Live, deps: RepositoryDependencies, maxMerges: nat, selected: seq<nat>) {
    |selected| == (if |PlannedSet(cs, live)| <= maxMerges then |PlannedSet(cs, live)| else maxMerges)
    && forall k :: 0 <= k < |selected| ==> TakenNext(cs, live, deps, selected[..k], selected[k])
  }

  lemma PlannedCount(cs: seq<Inspected>, live: Live)
    ensures |EligiblePositions(Plan(cs, live))| == |PlannedSet(cs, live)|
  {
    var positions := EligiblePositions(Plan(cs, live));
    forall p, q | 0 <= p < q < |positions|
      ensures positions[p] != positions[q]
    {
      assert positions[p] < positions[q];
    }
    DistinctElements(positions);
    assert Elements(positions) == PlannedSet(cs, live);
  }

  lemma WaitIsEdge(cs: seq<Inspected>, positions: seq<nat>, deps: RepositoryDependencies, p: nat, q: nat)
    requires forall k :: 0 <= k < |positions| ==> positions[k] < |cs|
    requires p < |positions| && q < |positions| && (p != q ==> positions[p] != positions[q])
    ensures Edge(DependentsTable(ToOrder(cs, positions), deps), p, q) <==> WaitsFor(cs, deps, positions[q], positions[p])
  {
    assert cs[positions[p]] in cs;
  }

  /** `taken` lists, as candidates of the batch, what `done` lists as positions. */
  predicate SameTaken(positions: seq<nat>, done: set<nat>, taken: seq<nat>) {
    forall p :: 0 <= p < |positions| ==> (positions[p] in taken <==> p in done)
  }

  lemma ReadyIsAvailable(cs: seq<Inspected>, live: Live, deps: RepositoryDependencies, done: set<nat>, taken: seq<nat>, p: nat)
    requires var positions := EligiblePositions(Plan(cs, live)); SameTaken(positions, done, taken) && p < |positions|
    ensures ReadyAfter(PlannedGraph(cs, live, deps), done, p)
            <==> Available(cs, live, deps, taken, EligiblePositions(Plan(cs, live))[p])
  {
    var positions, g := EligiblePositions(Plan(cs, live)), PlannedGraph(cs, live, deps);
    var i := positions[p];
    forall q | 0 <= q < |positions|
      ensures Edge(g, q, p) <==> WaitsFor(cs, deps, i, positions[q])
    {
      WaitIsEdge(cs, positions, deps, q, p);
    }
    if ReadyAfter(g, done, p) {
      forall j | 0 <= j < |cs| && Plan(cs, live)[j] && WaitsFor(cs, deps, i, j)
        ensures j in taken
      {
        var q :| 0 <= q < |positions| && positions[q] == j;
        assert q in Predecessors(g, p);
      }
    }
    if Available(cs, live, deps, taken, i) {
      forall q | q in Predecessors(g, p)
        ensures q in done
      {
        assert WaitsFor(cs, deps, i, positions[q]);
      }
    }
  }

  lemma FirstIsTakenNext(cs: seq<Inspected>, live: Live, deps: RepositoryDependencies, done: set<nat>, taken: seq<nat>, p: nat)
    requires var positions := EligiblePositions(Plan(cs, live)); SameTaken(positions, done, taken) && p < |positions|
    requires FirstReady(PlannedBatch(cs, live), PlannedGraph(cs, live, deps), done, p)
    ensures TakenNext(cs, live, deps, taken, EligiblePositions(Plan(cs, live))[p])
  {
    var positions := EligiblePositions(Plan(cs, live));
    ReadyIsAvailable(cs, live, deps, done, taken, p);
    forall j | 0 <= j < |cs| && Available(cs, live, deps, taken, j) && j != positions[p]
      ensures Older(cs, positions[p], j)
    {
      var q :| 0 <= q < |positions| && positions[q] == j;
      ReadyIsAvailable(cs, live, deps, done, taken, q);
    }
  }

  /** The front of the greedy order, read back as candidates, is the batch. */
  lemma FrontIsBatch(cs: seq<Inspected>, live: Live, deps: RepositoryDependencies, maxMerges: nat,
                    order: seq<nat>, selected: seq<nat>)
    requires Greedy(PlannedBatch(cs, live), PlannedGraph(cs, live, deps), order)
    requires var positions := EligiblePositions(Plan(cs, live)); |order| == |positions| && FrontOf(positions, order, selected)
    requires |selected| == if |order| <= maxMerges then |order| else maxMerges
    ensures Batch(cs, live, deps, maxMerges, selected)
  {
    var positions := EligiblePositions(Plan(cs, live));
    PlannedCount(cs, live);
    GreedyDistinct(PlannedBatch(cs, live), PlannedGraph(cs, live, deps), order);
    forall k | 0 <= k < |selected|
      ensures TakenNext(cs, live, deps, selected[..k], selected[k])
    {
      FrontTaken(positions, order, selected, k);
      FirstIsTakenNext(cs, live, deps, Elements(order[..k]), selected[..k], order[k]);
    }
  }

  lemma FrontTaken(positions: seq<nat>, order: seq<nat>, selected: seq<nat>, k: nat)
    requires FrontOf(positions, order, selected) && k <= |selected|
    requires forall p, q :: 0 <= p < q < |positions| ==> positions[p] < positions[q]
    ensures SameTaken(positions, Elements(order[..k]), selected[..k])
  {
    forall p | 0 <= p < |positions|
      ensures positions[p] in selected[..k] <==> p in Elements(order[..k])
    {
      if positions[p] in selected[..k] {
        var m :| 0 <= m < k && selected[..k][m] == positions[p];
        assert order[m] == p;
        assert order[..k][m] == p;
      }
      if p in Elements(order[..k]) {
        var m :| 0 <= m < k && order[..k][m] == p;
        assert selected[..k][m] == positions[p];
      }
    }
  }

  /** The rule leaves no choice. */
  lemma {:induction false} BatchUnique(cs: seq<Inspected>, live: Live, deps: RepositoryDependencies,
                                       a: seq<nat>, b: seq<nat>, k: nat)
    requires k <= |a| && k <= |b|
    requires forall m :: 0 <= m < k ==> TakenNext(cs, live, deps, a[..m], a[m]) && TakenNext(cs, live, deps, b[..m], b[m])
    ensures a[..k] == b[..k]
  {
    if k > 0 {
      BatchUnique(cs, live, deps, a, b, k - 1);
      assert a[k - 1] == b[k - 1];
      assert a[..k] == a[..k - 1] + [a[k - 1]] && b[..k] == b[..k - 1] + [b[k - 1]];
    }
  }

  /** The planning pass, run in place over the evaluations. */
  method PlanBatch(cs: seq<Inspected>, live: Live) returns (positions: seq<nat>)
    ensures positions == EligiblePositions(Plan(cs, live))
  {
    var evaluations := new bool[|cs|](i requires 0 <= i < |cs| => cs[i].baseOk);
    assert evaluations[..] == BaseEvaluations(cs);
    ApplyDependencyStates(cs, live, evaluations);
    positions := EligiblePositions(evaluations[..]);
  }

  /** Plan, order and select the batch. */
  method SelectBatch(cs: seq<Inspected>, live: Live, deps: RepositoryDependencies, maxMerges: nat)
      returns (r: Result<seq<nat>, OrderError>)
    ensures r.Ok? ==> Batch(cs, live, deps, maxMerges, r.value) && Scheduled(cs, live, r.value)
    ensures r == Err(DuplicateKeys) <==> !DistinctKeys(PlannedBatch(cs, live))
    ensures DistinctKeys(PlannedBatch(cs, live)) ==> (r == Err(DependencyCycle) <==> Cyclic(PlannedGraph(cs, live, deps)))
  {
    var positions := PlanBatch(cs, live);
    var planned := ToOrder(cs, positions);
    var ordered := OrderMergeCandidates(planned, deps);
    if ordered.Err? {
      return Err(ordered.error);
    }
    var order := SelectMergeBatch(ordered.value, maxMerges);
    GreedyDistinct(planned, PlannedGraph(cs, live, deps), ordered.value);
    var selected := seq(|order|, k requires 0 <= k < |order| => positions[order[k]]);
    FrontIsScheduled(cs, live, deps, ordered.value, selected);
    FrontIsBatch(cs, live, deps, maxMerges, ordered.value, selected);
    r := Ok(selected);
  }

  /** Plan, order, select and apply. A cycle among the planned-eligible candidates, and nothing else once
      keys are unique, aborts the whole run before any merge. */
  method Reap(cs: seq<Inspected>, live: Live, deps: RepositoryDependencies, maxMerges: nat, reread: seq<Fresh>)
      returns (r: Result<seq<nat>, OrderError>, results: seq<Outcome>)
    requires |reread| == |cs|
    ensures r.Ok? ==> Batch(cs, live, deps, maxMerges, r.value) && Scheduled(cs, live, r.value) && |results| == |r.value|
    ensures r.Ok? ==> forall k :: 0 <= k < |results| ==> results[k] == OutcomeOf(cs, r.value, reread, k)
    ensures r.Err? ==> results == []
    ensures r == Err(DuplicateKeys) <==> !DistinctKeys(PlannedBatch(cs, live))
    ensures DistinctKeys(PlannedBatch(cs, live)) ==> (r == Err(DependencyCycle) <==> Cyclic(PlannedGraph(cs, live, deps)))
    ensures UniqueKeys(cs) ==> (r.Err? <==> Cyclic(PlannedGraph(cs, live, deps)))
  {
    r := SelectBatch(cs, live, deps, maxMerges);
    results := [];
    if UniqueKeys(cs) {
      UniqueKeysStayDistinct(cs, live);
    }
    if r.Ok? {
      var mergedKeys;
      results, mergedKeys := ApplyMerges(cs, r.value, reread);
    } else {
      assert r.error == DuplicateKeys || r.error == DependencyCycle;
    }
  }
}
