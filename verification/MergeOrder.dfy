/** Ordering of merge candidates: the ready list of `orderMergeCandidates` and the batch it feeds
    (packages/engine/src/merge-reaper.mjs). Candidates are identified by their position in the list. */
module MergeOrder {
  import opened Collections
  import opened Wrappers

  /** Keys are numbered in the order `localeCompare` gives them. */
  type Key = int

  datatype Candidate = Candidate(key: Key, repository: int, createdAt: int, dependencies: seq<Key>)

  /** Repository dependencies of the policy: each repository waits for the ones it maps to. */
  type RepositoryDependencies = map<int, set<int>>

  datatype OrderError = DuplicateKeys | DependencyCycle

  predicate DistinctKeys(cs: seq<Candidate>) {
    forall i, j :: 0 <= i < j < |cs| ==> cs[i].key != cs[j].key
  }

  /** Candidate `i` has to come before candidate `j`. */
  predicate MustPrecede(cs: seq<Candidate>, deps: RepositoryDependencies, i: nat, j: nat)
    requires i < |cs| && j < |cs|
  {
    i != j
    && (cs[i].key in cs[j].dependencies
        || (cs[j].repository in deps && cs[i].repository in deps[cs[j].repository]))
  }

  /** `compare`: older first, then by key. */
  predicate Precedes(a: Candidate, b: Candidate) {
    a.createdAt < b.createdAt || (a.createdAt == b.createdAt && a.key < b.key)
  }

  function Below(n: nat): (r: set<nat>)
    ensures |r| == n && forall i: nat :: i in r <==> i < n
  {
    if n == 0 then {} else Below(n - 1) + {n - 1}
  }

  /** The `dependents` table: for each candidate, those that have to come after it. */
  type Graph = seq<set<nat>>

  function DependentsTable(cs: seq<Candidate>, deps: RepositoryDependencies): (g: Graph)
    ensures |g| == |cs|
    ensures forall i, j: nat :: 0 <= i < |cs| && j < |cs| ==> (j in g[i] <==> MustPrecede(cs, deps, i, j))
    ensures WellFormed(g)
  {
    seq(|cs|, i requires 0 <= i < |cs| => set j | j in Below(|cs|) && MustPrecede(cs, deps, i, j))
  }

  predicate WellFormed(g: Graph) {
    forall i, j :: 0 <= i < |g| && j in g[i] ==> j < |g|
  }

  predicate Edge(g: Graph, i: nat, j: nat) {
    i < |g| && j in g[i]
  }

  function Predecessors(g: Graph, j: nat): set<nat> {
    set i | i in Below(|g|) && Edge(g, i, j)
  }

  function Elements(order: seq<nat>): set<nat> {
    set i | i in order
  }

  /** Not yet emitted, and nothing it waits for is missing. */
  predicate ReadyAfter(g: Graph, done: set<nat>, j: nat) {
    j < |g| && j !in done && Predecessors(g, j) <= done
  }

  /** At this point `first` is ready, and comes first of all that are ready. */
  predicate FirstReady(cs: seq<Candidate>, g: Graph, done: set<nat>, first: nat)
    requires |g| == |cs|
  {
    ReadyAfter(g, done, first)
    && forall j :: 0 <= j < |cs| && j != first && ReadyAfter(g, done, j) ==> Precedes(cs[first], cs[j])
  }

  /** Every position holds the first, in comparison order, of the candidates ready at that point. */
  predicate Greedy(cs: seq<Candidate>, g: Graph, order: seq<nat>)
    requires |g| == |cs|
  {
    forall k :: 0 <= k < |order| ==> FirstReady(cs, g, Elements(order[..k]), order[k])
  }

  /** A chain of candidates, each of which has to come before the next. */
  predicate Path(g: Graph, p: seq<nat>) {
    forall k :: 0 <= k < |p| - 1 ==> Edge(g, p[k], p[k + 1])
  }

  predicate Cycle(g: Graph, p: seq<nat>) {
    |p| >= 2 && p[0] == p[|p| - 1] && Path(g, p)
  }

  ghost predicate Cyclic(g: Graph) {
    exists p :: Cycle(g, p)
  }

  // ---- stuck means cyclic ----

  lemma {:induction false} DistinctElements(s: seq<nat>)
    requires forall i, j :: 0 <= i < j < |s| ==> s[i] != s[j]
    ensures |Elements(s)| == |s|
  {
    if s != [] {
      var front := s[..|s| - 1];
      DistinctElements(front);
      assert Elements(s) == Elements(front) + {s[|s| - 1]};
    }
  }

  /** More positions than values: some value repeats. */
  lemma Pigeonhole(s: seq<nat>, n: nat)
    requires |s| > n && forall i :: 0 <= i < |s| ==> s[i] < n
    ensures exists i, j :: 0 <= i < j < |s| && s[i] == s[j]
  {
    if forall i, j :: 0 <= i < j < |s| ==> s[i] != s[j] {
      DistinctElements(s);
      SubsetSize(Elements(s), Below(n));
    }
  }

  /** Something of the set has to come before `j`. */
  predicate WaitsWithin(g: Graph, stuck: set<nat>, j: nat) {
    exists i :: i in stuck && Edge(g, i, j)
  }

  predicate AllWaitWithin(g: Graph, stuck: set<nat>) {
    forall j {:trigger WaitsWithin(g, stuck, j)} :: j in stuck ==> WaitsWithin(g, stuck, j)
  }

  /** Walk back inside a set in which everything still waits for something of the set. */
  lemma {:induction false} WalkBack(g: Graph, stuck: set<nat>, start: nat, length: nat) returns (p: seq<nat>)
    requires start in stuck && AllWaitWithin(g, stuck)
    ensures |p| == length + 1 && Path(g, p) && forall k :: 0 <= k < |p| ==> p[k] in stuck
  {
    if length == 0 {
      p := [start];
    } else {
      var rest := WalkBack(g, stuck, start, length - 1);
      assert WaitsWithin(g, stuck, rest[0]);
      var i :| i in stuck && Edge(g, i, rest[0]);
      p := [i] + rest;
    }
  }

  lemma RepeatIsCycle(g: Graph, p: seq<nat>, a: nat, b: nat)
    requires Path(g, p) && a < b < |p| && p[a] == p[b]
    ensures Cycle(g, p[a..b + 1])
  {
  }

  lemma StuckIsCyclic(g: Graph, stuck: set<nat>)
    requires stuck != {} && AllWaitWithin(g, stuck) && stuck <= Below(|g|)
    ensures Cyclic(g)
  {
    var start :| start in stuck;
    var p := WalkBack(g, stuck, start, |g|);
    assert forall k :: 0 <= k < |p| ==> p[k] < |g|;
    Pigeonhole(p, |g|);
    var a, b :| 0 <= a < b < |p| && p[a] == p[b];
    RepeatIsCycle(g, p, a, b);
  }

  // ---- a complete greedy order is a topological permutation ----

  lemma GreedyDistinct(cs: seq<Candidate>, g: Graph, order: seq<nat>)
    requires |g| == |cs| && Greedy(cs, g, order)
    ensures forall i, j :: 0 <= i < j < |order| ==> order[i] != order[j]
    ensures forall i :: 0 <= i < |order| ==> order[i] < |cs|
    ensures Elements(order) <= Below(|cs|) && |Elements(order)| == |order|
  {
    forall i, j | 0 <= i < j < |order|
      ensures order[i] != order[j]
    {
      assert order[..j][i] in Elements(order[..j]);
      assert FirstReady(cs, g, Elements(order[..j]), order[j]);
    }
    assert forall i :: 0 <= i < |order| ==> FirstReady(cs, g, Elements(order[..i]), order[i]);
    DistinctElements(order);
  }

  /** A greedy order of full length holds every candidate, each once. */
  lemma GreedyComplete(cs: seq<Candidate>, g: Graph, order: seq<nat>)
    requires |g| == |cs| && Greedy(cs, g, order) && |order| == |cs|
    ensures Elements(order) == Below(|cs|)
  {
    GreedyDistinct(cs, g, order);
    SubsetSize(Elements(order), Below(|cs|));
  }

  /** What has to come first does come first. */
  lemma GreedyRespectsEdges(cs: seq<Candidate>, g: Graph, order: seq<nat>, i: nat, k: nat)
    requires |g| == |cs| && Greedy(cs, g, order) && k < |order| && Edge(g, i, order[k])
    ensures exists m :: 0 <= m < k && order[m] == i
  {
    assert FirstReady(cs, g, Elements(order[..k]), order[k]);
    assert i in Predecessors(g, order[k]);
    assert i in Elements(order[..k]);
    var m :| 0 <= m < k && order[..k][m] == i;
    assert order[m] == i;
  }

  lemma PositionOf(order: seq<nat>, x: nat) returns (k: nat)
    requires x in Elements(order)
    ensures k < |order| && order[k] == x
  {
    k :| 0 <= k < |order| && order[k] == x;
  }

  /** Along a path, positions in a greedy order strictly increase. */
  lemma {:induction false} PathIncreases(cs: seq<Candidate>, g: Graph, order: seq<nat>, p: seq<nat>, a: nat, b: nat)
    requires |g| == |cs| && Greedy(cs, g, order) && |p| >= 2 && Path(g, p)
    requires a < |order| && b < |order| && order[a] == p[0] && order[b] == p[|p| - 1]
    ensures a < b
    decreases |p|
  {
    var n := |p| - 1;
    GreedyDistinct(cs, g, order);
    assert Edge(g, p[n - 1], p[n - 1 + 1]);
    GreedyRespectsEdges(cs, g, order, p[n - 1], b);
    var m :| 0 <= m < b && order[m] == p[n - 1];
    if n >= 2 {
      PathIncreases(cs, g, order, p[..n], a, m);
    }
  }

  lemma CompleteOrderIsAcyclic(cs: seq<Candidate>, g: Graph, order: seq<nat>)
    requires |g| == |cs| && Greedy(cs, g, order) && |order| == |cs|
    ensures !Cyclic(g)
  {
    if Cyclic(g) {
      var p :| Cycle(g, p);
      GreedyComplete(cs, g, order);
      assert Edge(g, p[0], p[0 + 1]);
      var a := PositionOf(order, p[0]);
      PathIncreases(cs, g, order, p, a, a);
    }
  }

  /** The greedy order is unique: comparison order and the edges determine the whole list. */
  lemma {:induction false} GreedyUnique(cs: seq<Candidate>, g: Graph, a: seq<nat>, b: seq<nat>)
    requires |g| == |cs| && Greedy(cs, g, a) && Greedy(cs, g, b) && |a| == |b|
    ensures a == b
    decreases |a|
  {
    if a != [] {
      var n := |a| - 1;
      GreedyPrefix(cs, g, a);
      GreedyPrefix(cs, g, b);
      GreedyUnique(cs, g, a[..n], b[..n]);
      assert FirstReady(cs, g, Elements(a[..n]), a[n]) && FirstReady(cs, g, Elements(b[..n]), b[n]);
      assert a == a[..n] + [a[n]] && b == b[..n] + [b[n]];
    }
  }

  lemma GreedyPrefix(cs: seq<Candidate>, g: Graph, a: seq<nat>)
    requires |g| == |cs| && Greedy(cs, g, a) && a != []
    ensures Greedy(cs, g, a[..|a| - 1])
  {
    var f := a[..|a| - 1];
    forall k | 0 <= k < |f|
      ensures FirstReady(cs, g, Elements(f[..k]), f[k])
    {
      assert f[..k] == a[..k];
    }
  }

  // ---- the ready list ----

  function Waiting(g: Graph, done: set<nat>, j: nat): set<nat> {
    Predecessors(g, j) - done
  }

  /** `ready` is kept sorted, so `shift` takes its least member. */
  method TakeFirst(cs: seq<Candidate>, ready: set<nat>) returns (first: nat)
    requires ready != {} && DistinctKeys(cs) && forall i :: i in ready ==> i < |cs|
    ensures first in ready && forall j :: j in ready && j != first ==> Precedes(cs[first], cs[j])
  {
    first :| first in ready;
    var rest := ready - {first};
    while rest != {}
      invariant first in ready && rest <= ready - {first}
      invariant forall j :: j in ready && j != first && j !in rest ==> Precedes(cs[first], cs[j])
      decreases rest
    {
      var j :| j in rest;
      rest := rest - {j};
      if Precedes(cs[j], cs[first]) {
        first := j;
      }
    }
  }

  /** Emitting a candidate takes it off the indegree of each of its dependents; those it leaves at
      zero become ready. */
  method Release(dependents: set<nat>, indegree: seq<nat>, ready: set<nat>) returns (after: seq<nat>, nowReady: set<nat>)
    requires forall j :: j in dependents ==> j < |indegree| && indegree[j] >= 1
    ensures Released(dependents, indegree, after)
    ensures forall j :: j in nowReady <==> j in ready || (j in dependents && j < |after| && after[j] == 0)
  {
    after, nowReady := indegree, ready;
    var todo := dependents;
    while todo != {}
      invariant todo <= dependents && |after| == |indegree|
      invariant forall j :: 0 <= j < |after| ==> after[j] + (if j in dependents && j !in todo then 1 else 0) == indegree[j]
      invariant forall j :: j in nowReady <==> j in ready || (j in dependents && j !in todo && after[j] == 0)
      decreases todo
    {
      var j :| j in todo;
      after := after[j := after[j] - 1];
      if after[j] == 0 {
        nowReady := nowReady + {j};
      }
      todo := todo - {j};
    }
  }

  predicate Released(dependents: set<nat>, before: seq<nat>, after: seq<nat>) {
    |after| == |before|
    && forall j :: 0 <= j < |after| ==> after[j] + (if j in dependents then 1 else 0) == before[j]
  }

  lemma WaitingKept(g: Graph, done: set<nat>, key: nat, j: nat)
    requires key < |g| && j !in g[key]
    ensures Waiting(g, done + {key}, j) == Waiting(g, done, j)
  {
  }

  lemma WaitingShrinks(g: Graph, done: set<nat>, key: nat, j: nat)
    requires key < |g| && key !in done && j in g[key]
    ensures |Waiting(g, done + {key}, j)| == |Waiting(g, done, j)| - 1
    ensures |Waiting(g, done + {key}, j)| == 0 <==> Waiting(g, done + {key}, j) == {}
  {
    assert key in Waiting(g, done, j);
    assert Waiting(g, done + {key}, j) == Waiting(g, done, j) - {key};
  }

  ghost predicate ReadySet(g: Graph, done: set<nat>, ready: set<nat>) {
    forall j: nat {:trigger j in ready} {:trigger ReadyAfter(g, done, j)} :: j in ready <==> ReadyAfter(g, done, j)
  }

  /** An emitted candidate waited only for emitted ones. */
  predicate Emitted(g: Graph, done: set<nat>) {
    forall j :: j in done ==> j < |g| && Predecessors(g, j) <= done
  }

  lemma ReadyAfterRelease(g: Graph, done: set<nat>, ready: set<nat>, key: nat, nowReady: set<nat>)
    requires WellFormed(g) && Emitted(g, done) && ReadySet(g, done, ready) && key in ready
    requires forall j :: j in nowReady <==> j in ready - {key} || (j in g[key] && |Waiting(g, done + {key}, j)| == 0)
    requires key !in g[key]
    ensures ReadySet(g, done + {key}, nowReady)
  {
  }

  lemma ExtendGreedy(cs: seq<Candidate>, g: Graph, order: seq<nat>, key: nat)
    requires |g| == |cs| && Greedy(cs, g, order) && FirstReady(cs, g, Elements(order), key)
    ensures Greedy(cs, g, order + [key]) && Elements(order + [key]) == Elements(order) + {key}
  {
    var longer := order + [key];
    assert longer[..|order|] == order;
    forall k | 0 <= k < |longer|
      ensures FirstReady(cs, g, Elements(longer[..k]), longer[k])
    {
      if k < |order| {
        assert longer[..k] == order[..k];
      }
    }
  }

  lemma GreedyEmitted(cs: seq<Candidate>, g: Graph, order: seq<nat>)
    requires |g| == |cs| && Greedy(cs, g, order)
    ensures Emitted(g, Elements(order))
  {
  }

  predicate CountsWaiting(g: Graph, done: set<nat>, indegree: seq<nat>) {
    |indegree| == |g| && forall j :: 0 <= j < |g| ==> indegree[j] == |Waiting(g, done, j)|
  }

  lemma CountsAfterRelease(g: Graph, done: set<nat>, key: nat, before: seq<nat>, after: seq<nat>)
    requires CountsWaiting(g, done, before) && key < |g| && key !in done && Released(g[key], before, after)
    ensures CountsWaiting(g, done + {key}, after)
  {
    forall j | 0 <= j < |g|
      ensures after[j] == |Waiting(g, done + {key}, j)|
    {
      if j in g[key] {
        WaitingShrinks(g, done, key, j);
      } else {
        WaitingKept(g, done, key, j);
      }
    }
  }

  lemma InitialCounts(g: Graph)
    requires WellFormed(g)
    ensures CountsWaiting(g, {}, seq(|g|, j requires 0 <= j < |g| => |Predecessors(g, j)|))
    ensures ReadySet(g, {}, set j | j in Below(|g|) && Predecessors(g, j) == {})
  {
  }

  lemma NothingReadyIsCyclic(cs: seq<Candidate>, g: Graph, order: seq<nat>)
    requires |g| == |cs| && Greedy(cs, g, order) && |order| != |cs| && ReadySet(g, Elements(order), {})
    ensures Cyclic(g)
  {
    GreedyDistinct(cs, g, order);
    var stuck := Below(|cs|) - Elements(order);
    assert |stuck| == |Below(|cs|)| - |Elements(order)|;
    SubsetSize(Elements(order), Below(|cs|));
    forall j | j in stuck
      ensures WaitsWithin(g, stuck, j)
    {
      assert !ReadyAfter(g, Elements(order), j);
      var i :| i in Predecessors(g, j) && i !in Elements(order);
      assert i in stuck;
    }
    StuckIsCyclic(g, stuck);
  }

  /** What holds at the head of the loop of `orderMergeCandidates`. */
  ghost predicate LoopState(cs: seq<Candidate>, g: Graph, order: seq<nat>, ready: set<nat>, indegree: seq<nat>)
    requires |g| == |cs|
  {
    Greedy(cs, g, order) && ReadySet(g, Elements(order), ready) && CountsWaiting(g, Elements(order), indegree)
  }

  lemma ReadyInRange(g: Graph, done: set<nat>, ready: set<nat>, indegree: seq<nat>, key: nat)
    requires ReadySet(g, done, ready) && CountsWaiting(g, done, indegree) && key in ready && WellFormed(g)
    ensures key < |g| && key !in done && forall j :: j in g[key] ==> j < |g| && indegree[j] >= 1
  {
  }

  lemma AllReadyInRange(g: Graph, done: set<nat>, ready: set<nat>)
    requires ReadySet(g, done, ready)
    ensures forall j :: j in ready ==> j < |g|
  {
  }

  lemma ReadyStep(g: Graph, done: set<nat>, ready: set<nat>, before: seq<nat>, key: nat, after: seq<nat>, nowReady: set<nat>)
    requires WellFormed(g) && Emitted(g, done) && ReadySet(g, done, ready) && CountsWaiting(g, done, before)
    requires key in ready && key < |g| && key !in done && key !in g[key] && Released(g[key], before, after)
    requires forall j :: j in nowReady <==> j in ready - {key} || (j in g[key] && j < |after| && after[j] == 0)
    ensures ReadySet(g, done + {key}, nowReady) && CountsWaiting(g, done + {key}, after)
  {
    CountsAfterRelease(g, done, key, before, after);
    assert forall j :: j in g[key] ==> j < |g| && after[j] == |Waiting(g, done + {key}, j)|;
    ReadyAfterRelease(g, done, ready, key, nowReady);
  }

  lemma FirstOfReady(cs: seq<Candidate>, g: Graph, done: set<nat>, ready: set<nat>, key: nat)
    requires |g| == |cs| && ReadySet(g, done, ready) && key in ready
    requires forall j :: j in ready && j != key ==> j < |cs| && key < |cs| && Precedes(cs[key], cs[j])
    ensures FirstReady(cs, g, done, key)
  {
  }

  lemma OneLessToEmit(g: Graph, order: seq<nat>, key: nat)
    requires key < |g| && key !in Elements(order) && Elements(order + [key]) == Elements(order) + {key}
    ensures |Below(|g|) - Elements(order + [key])| < |Below(|g|) - Elements(order)|
  {
    var left := Below(|g|) - Elements(order);
    assert Below(|g|) - Elements(order + [key]) == left - {key};
    assert key in left;
  }

  lemma LoopStep(cs: seq<Candidate>, g: Graph, order: seq<nat>, ready: set<nat>, before: seq<nat>, key: nat,
                 after: seq<nat>, nowReady: set<nat>)
    requires |g| == |cs| && WellFormed(g) && LoopState(cs, g, order, ready, before)
    requires key in ready && key < |g| && key !in g[key]
    requires forall j :: j in ready && j != key ==> j < |cs| && Precedes(cs[key], cs[j])
    requires Released(g[key], before, after)
    requires forall j :: j in nowReady <==> j in ready - {key} || (j in g[key] && j < |after| && after[j] == 0)
    ensures LoopState(cs, g, order + [key], nowReady, after)
    ensures |Below(|g|) - Elements(order + [key])| < |Below(|g|) - Elements(order)|
  {
    var done := Elements(order);
    ReadyInRange(g, done, ready, before, key);
    GreedyEmitted(cs, g, order);
    FirstOfReady(cs, g, done, ready, key);
    ExtendGreedy(cs, g, order, key);
    ReadyStep(g, done, ready, before, key, after, nowReady);
    OneLessToEmit(g, order, key);
  }

  /** The loop of `orderMergeCandidates`: emit the first ready candidate until none is ready. */
  method EmitReady(cs: seq<Candidate>, g: Graph) returns (order: seq<nat>)
    requires |g| == |cs| && WellFormed(g) && DistinctKeys(cs) && forall i :: 0 <= i < |g| ==> i !in g[i]
    ensures Greedy(cs, g, order) && ReadySet(g, Elements(order), {})
  {
    var indegree: seq<nat> := seq(|g|, j requires 0 <= j < |g| => |Predecessors(g, j)|);
    var ready: set<nat> := set j | j in Below(|g|) && Predecessors(g, j) == {};
    order := [];
    InitialCounts(g);
    assert Elements(order) == {};
    while ready != {}
      invariant LoopState(cs, g, order, ready, indegree)
      decreases |Below(|g|) - Elements(order)|
    {
      AllReadyInRange(g, Elements(order), ready);
      var key := TakeFirst(cs, ready);
      ReadyInRange(g, Elements(order), ready, indegree, key);
      var after, nowReady := Release(g[key], indegree, ready - {key});
      LoopStep(cs, g, order, ready, indegree, key, after, nowReady);
      order, ready, indegree := order + [key], nowReady, after;
    }
  }

  /** Order the candidates, or report what makes that impossible: a dependency cycle exactly when
      there is one. The order is the one greedy order, so it respects every edge. */
  method OrderMergeCandidates(cs: seq<Candidate>, deps: RepositoryDependencies) returns (r: Result<seq<nat>, OrderError>)
    ensures r == Err(DuplicateKeys) <==> !DistinctKeys(cs)
    ensures r.Ok? ==> Greedy(cs, DependentsTable(cs, deps), r.value) && Elements(r.value) == Below(|cs|) && |r.value| == |cs|
    ensures DistinctKeys(cs) ==> (r == Err(DependencyCycle) <==> Cyclic(DependentsTable(cs, deps)))
  {
    if !DistinctKeys(cs) {
      return Err(DuplicateKeys);
    }
    var g := DependentsTable(cs, deps);
    var order := EmitReady(cs, g);
    if |order| != |cs| {
      NothingReadyIsCyclic(cs, g, order);
      return Err(DependencyCycle);
    }
    GreedyComplete(cs, g, order);
    CompleteOrderIsAcyclic(cs, g, order);
    r := Ok(order);
  }

  /** `selectMergeBatch`: at most `maximum` candidates, from the front of the order. */
  function SelectMergeBatch(order: seq<nat>, maximum: nat): seq<nat> {
    if |order| <= maximum then order else order[..maximum]
  }
}
