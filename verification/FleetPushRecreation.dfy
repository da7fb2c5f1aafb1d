/** Which pushes create a branch on a remote, and so which runs bring back one that was deleted there. */
module FleetPushRecreation {
  import opened Wrappers
  import opened FleetPush
  import opened FleetPushRuns

  /** The name is absent before and present after. */
  predicate Appears(before: Refs, after: Refs, name: string) {
    name !in before && name in after
  }

  // ---- one branch ----

  /** The local tip is a proper descendant of what was fetched, or nothing was fetched and no upstream is
      configured: the two cases in which the script pushes. */
  predicate PushWanted(tracked: Option<Commit>, upstream: bool, tip: Commit) {
    if tracked.Some? then tip != tracked.value && Ancestor(tracked.value, tip) else !upstream
  }

  /** A push creates its branch exactly when the remote, as it then stands, lacks it, the server does not
      refuse, and the branch was fetched with the tip properly ahead of it or neither fetched nor given
      an upstream. It creates no other branch. */
  lemma CreatesExactly(path: string, origin: int, g: Ground, local: Local, w: Weather, other: string)
    requires local.tip.Some?
    ensures var now := Standing(g.refs, w.others);
            var after := BranchTrip(true, path, origin, g, local, w).ground.refs;
            && (Appears(now, after, local.name) <==>
                  local.name !in now && !w.answer.Refused?
                  && PushWanted(Lookup(g.tracking, local.name), local.name in g.upstream, local.tip.value))
            && (Appears(now, after, local.name) ==> after[local.name] == local.tip.value)
            && (other != local.name ==> (other in after <==> other in now))
  {
  }

  /** Every race brings the branch back: fetched, deleted by others before the push, and ahead locally. */
  lemma RaceRecreates(path: string, origin: int, g: Ground, local: Local, w: Weather)
    requires local.tip.Some? && local.name in g.tracking && !w.answer.Refused?
    requires local.tip.value != g.tracking[local.name] && Ancestor(g.tracking[local.name], local.tip.value)
    requires w.others.Some? && local.name !in w.others.value
    ensures Lookup(BranchTrip(true, path, origin, g, local, w).ground.refs, local.name) == local.tip
  {
    CreatesExactly(path, origin, g, local, w, local.name);
  }

  lemma RaceExample(path: string, origin: int)
    ensures var held: Refs := map["b" := ROOT];
            var trip := BranchTrip(true, path, origin, Ground(held, held, {"b"}), Local("b", Some(TIP)),
                                   Weather(Some(map[]), Served));
            Lookup(trip.ground.refs, "b") == Some(TIP) && trip.rows == [Row(path, "b", Pushed)]
  {
    assert Ancestor(ROOT, TIP.parents[0]);
    assert Ancestor(ROOT, TIP) && TIP != ROOT;
    RaceRecreates(path, origin, Ground(map["b" := ROOT], map["b" := ROOT], {"b"}), Local("b", Some(TIP)),
                  Weather(Some(map[]), Served));
  }

  /** With a configured upstream a branch is created exactly in such a race. */
  lemma RecreationNeedsARace(path: string, origin: int, g: Ground, local: Local, w: Weather)
    requires local.tip.Some? && local.name in g.upstream
    ensures var now := Standing(g.refs, w.others);
            Appears(now, BranchTrip(true, path, origin, g, local, w).ground.refs, local.name) <==>
              local.name !in now && !w.answer.Refused? && local.name in g.tracking
              && local.tip.value != g.tracking[local.name] && Ancestor(g.tracking[local.name], local.tip.value)
  {
    CreatesExactly(path, origin, g, local, w, local.name);
  }

  // ---- the branches of one clone ----

  /** Where a clone stands when its branch `i` has its turn. */
  function AtTurn(path: string, origin: int, start: Ground, branches: seq<Local>, pushes: seq<Weather>, i: nat): Ground
    requires i <= |branches|
  {
    BranchesTrip(true, path, origin, start, branches, pushes, i).ground
  }

  /** The remote as branch `i` meets it. */
  function RemoteAtTurn(path: string, origin: int, start: Ground, branches: seq<Local>, pushes: seq<Weather>, i: nat): Refs
    requires i <= |branches|
  {
    Standing(AtTurn(path, origin, start, branches, pushes, i).refs, WeatherAt(pushes, i).others)
  }

  /** A turn leaves the tracking ref and the upstream of every other branch alone. */
  lemma TurnKeepsOthers(path: string, origin: int, g: Ground, local: Local, w: Weather, name: string)
    requires name != local.name
    ensures var h := BranchTrip(true, path, origin, g, local, w).ground;
            Lookup(h.tracking, name) == Lookup(g.tracking, name) && (name in h.upstream <==> name in g.upstream)
  {
  }

  /** What a branch is judged by at its turn is what was there when the clone was fetched. */
  lemma {:induction false} JudgedAsFetched(path: string, origin: int, start: Ground, branches: seq<Local>,
                                          pushes: seq<Weather>, i: nat, k: nat)
    requires DistinctNames(branches) && i <= k < |branches|
    ensures var g := AtTurn(path, origin, start, branches, pushes, i);
            && Lookup(g.tracking, branches[k].name) == Lookup(start.tracking, branches[k].name)
            && (branches[k].name in g.upstream <==> branches[k].name in start.upstream)
  {
    if i > 0 {
      JudgedAsFetched(path, origin, start, branches, pushes, i - 1, k);
      var g := AtTurn(path, origin, start, branches, pushes, i - 1);
      TurnKeepsOthers(path, origin, g, branches[i - 1], WeatherAt(pushes, i - 1), branches[k].name);
    }
  }

  /** Branch `i` is created at its turn: the remote lacks it then, the server does not refuse, and what was
      fetched and configured calls for a push. */
  predicate CreatedAtTurn(path: string, origin: int, start: Ground, branches: seq<Local>, pushes: seq<Weather>, i: nat)
  {
    i < |branches| && branches[i].tip.Some?
    && branches[i].name !in RemoteAtTurn(path, origin, start, branches, pushes, i)
    && !WeatherAt(pushes, i).answer.Refused?
    && PushWanted(Lookup(start.tracking, branches[i].name), branches[i].name in start.upstream, branches[i].tip.value)
  }

  /** Some push of these created the branch. */
  ghost predicate Created(writes: seq<Write>, origin: int, name: string) {
    exists w :: w in writes && w.origin == origin && w.name == name && Appears(w.before, w.after, name)
  }

  lemma CreatedConcat(a: seq<Write>, b: seq<Write>, origin: int, name: string)
    ensures Created(a + b, origin, name) <==> Created(a, origin, name) || Created(b, origin, name)
  {
    assert forall w :: w in a + b <==> w in a || w in b;
  }

  lemma TurnCreatesExactly(path: string, origin: int, start: Ground, branches: seq<Local>, pushes: seq<Weather>,
                           i: nat, name: string)
    requires DistinctNames(branches) && i < |branches|
    ensures var trip := BranchTrip(true, path, origin, AtTurn(path, origin, start, branches, pushes, i), branches[i],
                                   WeatherAt(pushes, i));
            Created(trip.writes, origin, name) <==>
              branches[i].name == name && CreatedAtTurn(path, origin, start, branches, pushes, i)
  {
    var g, local, w := AtTurn(path, origin, start, branches, pushes, i), branches[i], WeatherAt(pushes, i);
    var trip := BranchTrip(true, path, origin, g, local, w);
    JudgedAsFetched(path, origin, start, branches, pushes, i, i);
    if local.tip.Some? {
      CreatesExactly(path, origin, g, local, w, name);
      OneWriteAtMost(path, origin, g, local, w);
    }
  }

  lemma OneWriteAtMost(path: string, origin: int, g: Ground, local: Local, w: Weather)
    ensures var trip := BranchTrip(true, path, origin, g, local, w);
            var now := Standing(g.refs, w.others);
            || (trip.writes == [] && trip.ground.refs == now)
            || trip.writes == [Write(origin, local.name, now, trip.ground.refs)]
  {
  }

  /** One of the first `n` branches has this name and is created at its turn. */
  ghost predicate SomeCreated(path: string, origin: int, start: Ground, branches: seq<Local>, pushes: seq<Weather>,
                              n: nat, name: string)
  {
    exists i :: 0 <= i < n && i < |branches| && branches[i].name == name
                && CreatedAtTurn(path, origin, start, branches, pushes, i)
  }

  lemma SomeCreatedNext(path: string, origin: int, start: Ground, branches: seq<Local>, pushes: seq<Weather>,
                        n: nat, name: string)
    requires n < |branches|
    ensures SomeCreated(path, origin, start, branches, pushes, n + 1, name) <==>
            SomeCreated(path, origin, start, branches, pushes, n, name)
            || (branches[n].name == name && CreatedAtTurn(path, origin, start, branches, pushes, n))
  {
  }

  /** A clone's part of a run creates exactly the branches that are created at their turns. */
  lemma {:induction false} CloneCreatesExactly(path: string, origin: int, start: Ground, branches: seq<Local>,
                                              pushes: seq<Weather>, n: nat, name: string, trip: Trip)
    requires DistinctNames(branches) && Travelled(true, path, origin, start, branches, pushes, n, trip)
    ensures Created(trip.writes, origin, name) <==> SomeCreated(path, origin, start, branches, pushes, n, name)
  {
    if n > 0 {
      var before := BranchesTrip(true, path, origin, start, branches, pushes, n - 1);
      var step := BranchTrip(true, path, origin, before.ground, branches[n - 1], WeatherAt(pushes, n - 1));
      CloneCreatesExactly(path, origin, start, branches, pushes, n - 1, name, before);
      SomeCreatedNext(path, origin, start, branches, pushes, n - 1, name);
      TurnCreatesExactly(path, origin, start, branches, pushes, n - 1, name);
      CreatedConcat(before.writes, step.writes, origin, name);
    }
  }

  /** Others deleted the branch after the fetch, before or at turn `i`. */
  ghost predicate DeletedByOthers(pushes: seq<Weather>, name: string, i: nat) {
    exists j: nat :: j <= i && WeatherAt(pushes, j).others.Some? && name !in WeatherAt(pushes, j).others.value
  }

  lemma {:induction false} OnlyOthersDelete(path: string, origin: int, start: Ground, branches: seq<Local>,
                                           pushes: seq<Weather>, i: nat, name: string)
    requires i <= |branches| && name in start.refs && name !in RemoteAtTurn(path, origin, start, branches, pushes, i)
    ensures DeletedByOthers(pushes, name, i)
  {
    if WeatherAt(pushes, i).others.None? {
      assert i > 0;
      var g := AtTurn(path, origin, start, branches, pushes, i - 1);
      TurnDeletesNothing(path, origin, g, branches[i - 1], WeatherAt(pushes, i - 1), name);
      OnlyOthersDelete(path, origin, start, branches, pushes, i - 1, name);
    }
  }

  lemma TurnDeletesNothing(path: string, origin: int, g: Ground, local: Local, w: Weather, name: string)
    ensures name in Standing(g.refs, w.others) ==> name in BranchTrip(true, path, origin, g, local, w).ground.refs
  {
  }

  // ---- whole runs ----

  /** Clone `k` as it stands when its turn comes. */
  function CloneAtTurn(fleet: Fleet, weather: seq<CloneWeather>, k: nat): Clone
    requires k < |fleet.clones|
  {
    FleetTrip(true, fleet, weather, k).fleet.clones[k]
  }

  /** What clone `k` fetches. */
  function FetchedBy(fleet: Fleet, weather: seq<CloneWeather>, k: nat): Refs
    requires k < |fleet.clones|
  {
    Standing(RefsAt(FleetTrip(true, fleet, weather, k).fleet.remotes, CloneAtTurn(fleet, weather, k)),
             CloneWeatherAt(weather, k).others)
  }

  function StartOf(fleet: Fleet, weather: seq<CloneWeather>, k: nat): Ground
    requires k < |fleet.clones|
  {
    var fetched := FetchedBy(fleet, weather, k);
    Ground(fetched, fetched, CloneAtTurn(fleet, weather, k).upstream)
  }

  /** Clone `k` is gone through, and its branch `i` is created at its turn. */
  predicate CreatedInRun(fleet: Fleet, weather: seq<CloneWeather>, k: nat, i: nat)
    requires k < |fleet.clones|
  {
    var clone, cw := CloneAtTurn(fleet, weather, k), CloneWeatherAt(weather, k);
    SkipReason(clone, cw.fetched).None?
    && CreatedAtTurn(clone.path, clone.origin.value, StartOf(fleet, weather, k), clone.branches, cw.pushes, i)
  }

  /** Some branch of this name, of clone `k` with this remote, is created at its turn. */
  ghost predicate CloneCreates(fleet: Fleet, weather: seq<CloneWeather>, k: nat, origin: int, name: string)
    requires k < |fleet.clones|
  {
    var clone := CloneAtTurn(fleet, weather, k);
    clone.origin == Some(origin)
    && exists i :: 0 <= i < |clone.branches| && clone.branches[i].name == name && CreatedInRun(fleet, weather, k, i)
  }

  lemma {:induction false} ListsStay(fleet: Fleet, weather: seq<CloneWeather>, n: nat, k: nat)
    requires n <= |fleet.clones| && k < |fleet.clones|
    ensures FleetTrip(true, fleet, weather, n).fleet.clones[k].branches == fleet.clones[k].branches
  {
    if n > 0 {
      ListsStay(fleet, weather, n - 1, k);
    }
  }

  function WritesOf(fleet: Fleet, weather: seq<CloneWeather>, k: nat): seq<Write>
    requires k < |fleet.clones|
  {
    var clone := CloneAtTurn(fleet, weather, k);
    CloneTrip(true, clone, RefsAt(FleetTrip(true, fleet, weather, k).fleet.remotes, clone), CloneWeatherAt(weather, k)).writes
  }

  lemma WritesGrow(fleet: Fleet, weather: seq<CloneWeather>, k: nat)
    requires k < |fleet.clones|
    ensures FleetTrip(true, fleet, weather, k + 1).writes
         == FleetTrip(true, fleet, weather, k).writes + WritesOf(fleet, weather, k)
  {
  }

  lemma {:induction false} WritesGoToOrigin(path: string, own: int, start: Ground, branches: seq<Local>,
                                           pushes: seq<Weather>, n: nat, w: Write)
    requires n <= |branches| && w in BranchesTrip(true, path, own, start, branches, pushes, n).writes
    ensures w.origin == own
  {
    var before := BranchesTrip(true, path, own, start, branches, pushes, n - 1);
    if w in before.writes {
      WritesGoToOrigin(path, own, start, branches, pushes, n - 1, w);
    } else {
      OneWriteAtMost(path, own, before.ground, branches[n - 1], WeatherAt(pushes, n - 1));
    }
  }

  lemma CloneWritesCreate(fleet: Fleet, weather: seq<CloneWeather>, k: nat, origin: int, name: string)
    requires k < |fleet.clones| && WellListed(fleet.clones)
    ensures Created(WritesOf(fleet, weather, k), origin, name) <==> CloneCreates(fleet, weather, k, origin, name)
  {
    ListsStay(fleet, weather, k, k);
    var clone, cw := CloneAtTurn(fleet, weather, k), CloneWeatherAt(weather, k);
    if SkipReason(clone, cw.fetched).None? {
      var own, start := clone.origin.value, StartOf(fleet, weather, k);
      var trip := BranchesTrip(true, clone.path, own, start, clone.branches, cw.pushes, |clone.branches|);
      CloneCreatesExactly(clone.path, own, start, clone.branches, cw.pushes, |clone.branches|, name, trip);
      forall w | w in WritesOf(fleet, weather, k)
        ensures w.origin == own
      {
        WritesGoToOrigin(clone.path, own, start, clone.branches, cw.pushes, |clone.branches|, w);
      }
    }
  }

  /** One of the first `n` clones creates the branch. */
  ghost predicate SomeCloneCreates(fleet: Fleet, weather: seq<CloneWeather>, n: nat, origin: int, name: string) {
    exists k :: 0 <= k < n && k < |fleet.clones| && CloneCreates(fleet, weather, k, origin, name)
  }

  lemma SomeCloneNext(fleet: Fleet, weather: seq<CloneWeather>, k: nat, origin: int, name: string)
    requires k < |fleet.clones|
    ensures SomeCloneCreates(fleet, weather, k + 1, origin, name) <==>
            SomeCloneCreates(fleet, weather, k, origin, name) || CloneCreates(fleet, weather, k, origin, name)
  {
  }

  lemma {:induction false} WritesCreateExactly(fleet: Fleet, weather: seq<CloneWeather>, n: nat, origin: int, name: string,
                                              writes: seq<Write>)
    requires WellListed(fleet.clones) && n <= |fleet.clones| && writes == FleetTrip(true, fleet, weather, n).writes
    ensures Created(writes, origin, name) <==> SomeCloneCreates(fleet, weather, n, origin, name)
  {
    if n > 0 {
      var k := n - 1;
      var before, more := FleetTrip(true, fleet, weather, k).writes, WritesOf(fleet, weather, k);
      WritesGrow(fleet, weather, k);
      assert Created(writes, origin, name) <==> Created(before, origin, name) || Created(more, origin, name) by {
        CreatedConcat(before, more, origin, name);
      }
      assert Created(before, origin, name) <==> SomeCloneCreates(fleet, weather, k, origin, name) by {
        WritesCreateExactly(fleet, weather, k, origin, name, before);
      }
      assert Created(more, origin, name) <==> CloneCreates(fleet, weather, k, origin, name) by {
        CloneWritesCreate(fleet, weather, k, origin, name);
      }
      SomeCloneNext(fleet, weather, k, origin, name);
    }
  }

  /** A run, whatever others do meanwhile, creates a branch on a remote exactly when some clone of that
      remote creates it: the remote lacks it at its turn, the server does not refuse, and it was either
      fetched with the local tip ahead or neither fetched nor given an upstream. For a branch that the
      remote held before, these are exactly the runs that bring it back. */
  lemma RunCreatesExactly(fleet: Fleet, weather: seq<CloneWeather>, origin: int, name: string)
    requires WellListed(fleet.clones)
    ensures Created(FleetTrip(true, fleet, weather, |fleet.clones|).writes, origin, name)
        <==> SomeCloneCreates(fleet, weather, |fleet.clones|, origin, name)
  {
    var n := |fleet.clones|;
    WritesCreateExactly(fleet, weather, n, origin, name, FleetTrip(true, fleet, weather, n).writes);
  }

  /** Bringing back a branch that the remote held before takes one of two things: others deleted it after
      the fetch that still saw it, or the clone has no upstream configured for it. */
  lemma WhyABranchComesBack(fleet: Fleet, weather: seq<CloneWeather>, k: nat, i: nat)
    requires k < |fleet.clones| && CreatedInRun(fleet, weather, k, i)
    ensures var clone := CloneAtTurn(fleet, weather, k);
            var name := clone.branches[i].name;
            if name in FetchedBy(fleet, weather, k) then DeletedByOthers(CloneWeatherAt(weather, k).pushes, name, i)
            else name !in clone.upstream
  {
    var clone, cw := CloneAtTurn(fleet, weather, k), CloneWeatherAt(weather, k);
    if clone.branches[i].name in FetchedBy(fleet, weather, k) {
      OnlyOthersDelete(clone.path, clone.origin.value, StartOf(fleet, weather, k), clone.branches, cw.pushes, i,
                       clone.branches[i].name);
    }
  }

  // ---- nobody else writes after the fetch ----

  /** In calm weather the remote, at the turn of branch `k`, agrees with what was fetched for it. */
  lemma {:induction false} CalmRemote(path: string, origin: int, start: Ground, branches: seq<Local>,
                                     pushes: seq<Weather>, i: nat, k: nat)
    requires DistinctNames(branches) && CalmPushes(pushes) && i <= k < |branches|
    ensures Lookup(AtTurn(path, origin, start, branches, pushes, i).refs, branches[k].name)
         == Lookup(start.refs, branches[k].name)
  {
    if i > 0 {
      CalmRemote(path, origin, start, branches, pushes, i - 1, k);
      var g := AtTurn(path, origin, start, branches, pushes, i - 1);
      TurnMovesOnlyItsOwn(path, origin, g, branches[i - 1], WeatherAt(pushes, i - 1), branches[k].name);
    }
  }

  lemma TurnMovesOnlyItsOwn(path: string, origin: int, g: Ground, local: Local, w: Weather, name: string)
    requires name != local.name
    ensures Lookup(BranchTrip(true, path, origin, g, local, w).ground.refs, name) == Lookup(Standing(g.refs, w.others), name)
  {
  }

  /** Without other writers after the fetch, a run creates exactly the branches that were neither fetched
      nor given an upstream and are not refused: a deleted branch comes back exactly when the clone never
      recorded an upstream for it. */
  lemma CalmRunCreatesExactly(fleet: Fleet, weather: seq<CloneWeather>, k: nat, i: nat)
    requires k < |fleet.clones| && WellListed(fleet.clones) && CalmPushes(CloneWeatherAt(weather, k).pushes)
    requires i < |CloneAtTurn(fleet, weather, k).branches|
    ensures var clone, cw := CloneAtTurn(fleet, weather, k), CloneWeatherAt(weather, k);
            var local := clone.branches[i];
            CreatedInRun(fleet, weather, k, i) <==>
              SkipReason(clone, cw.fetched).None? && local.tip.Some? && !WeatherAt(cw.pushes, i).answer.Refused?
              && local.name !in FetchedBy(fleet, weather, k) && local.name !in clone.upstream
  {
    ListsStay(fleet, weather, k, k);
    var clone, cw := CloneAtTurn(fleet, weather, k), CloneWeatherAt(weather, k);
    if SkipReason(clone, cw.fetched).None? {
      CalmRemote(clone.path, clone.origin.value, StartOf(fleet, weather, k), clone.branches, cw.pushes, i, i);
    }
  }

  /** In clone `k` of this remote, gone through and not refused, stands a resolvable branch of this name that
      was not fetched and has no upstream. */
  predicate UnfetchedWithoutUpstream(fleet: Fleet, weather: seq<CloneWeather>, k: nat, i: nat, origin: int, name: string)
    requires k < |fleet.clones|
  {
    var clone, cw := CloneAtTurn(fleet, weather, k), CloneWeatherAt(weather, k);
    clone.origin == Some(origin) && SkipReason(clone, cw.fetched).None?
    && i < |clone.branches| && clone.branches[i].name == name && clone.branches[i].tip.Some?
    && !WeatherAt(cw.pushes, i).answer.Refused?
    && name !in FetchedBy(fleet, weather, k) && name !in clone.upstream
  }

  /** Without other writers after the fetches, a whole run brings a branch back exactly when such a clone
      is part of it. */
  lemma CalmRunBringsBackExactly(fleet: Fleet, weather: seq<CloneWeather>, origin: int, name: string)
    requires WellListed(fleet.clones)
    requires forall k: nat :: k < |fleet.clones| ==> CalmPushes(CloneWeatherAt(weather, k).pushes)
    ensures Created(FleetTrip(true, fleet, weather, |fleet.clones|).writes, origin, name) <==>
            exists k: nat, i: nat :: k < |fleet.clones| && UnfetchedWithoutUpstream(fleet, weather, k, i, origin, name)
  {
    RunCreatesExactly(fleet, weather, origin, name);
    forall k: nat, i: nat | k < |fleet.clones| && i < |CloneAtTurn(fleet, weather, k).branches|
      ensures UnfetchedWithoutUpstream(fleet, weather, k, i, origin, name) <==>
              CloneAtTurn(fleet, weather, k).origin == Some(origin)
              && CloneAtTurn(fleet, weather, k).branches[i].name == name && CreatedInRun(fleet, weather, k, i)
    {
      CalmRunCreatesExactly(fleet, weather, k, i);
    }
    if SomeCloneCreates(fleet, weather, |fleet.clones|, origin, name) {
      var k :| 0 <= k < |fleet.clones| && CloneCreates(fleet, weather, k, origin, name);
      var i :| 0 <= i < |CloneAtTurn(fleet, weather, k).branches|
        && CloneAtTurn(fleet, weather, k).branches[i].name == name && CreatedInRun(fleet, weather, k, i);
      assert UnfetchedWithoutUpstream(fleet, weather, k, i, origin, name);
    }
    if k: nat, i: nat :| k < |fleet.clones| && UnfetchedWithoutUpstream(fleet, weather, k, i, origin, name) {
      assert CreatedInRun(fleet, weather, k, i);
      assert CloneCreates(fleet, weather, k, origin, name);
    }
  }

  /** With nobody else writing, every push that is attempted is acceptable to the remote as it stands: what the
      classification contributes, before the server has a say. */
  lemma CalmPushesAreAcceptable(path: string, origin: int, start: Ground, branches: seq<Local>, pushes: seq<Weather>, i: nat)
    requires DistinctNames(branches) && CalmPushes(pushes) && start.tracking == start.refs
    requires i < |branches| && branches[i].tip.Some?
    requires BranchTrip(true, path, origin, AtTurn(path, origin, start, branches, pushes, i), branches[i],
                        WeatherAt(pushes, i)).writes != []
    ensures Acceptable(RemoteAtTurn(path, origin, start, branches, pushes, i), branches[i].name, branches[i].tip.value)
  {
    CalmRemote(path, origin, start, branches, pushes, i, i);
    JudgedAsFetched(path, origin, start, branches, pushes, i, i);
  }

  // ---- from one run to the next ----

  /** A run configures upstreams exactly for the branches it reports as newly pushed. */
  lemma {:induction false} UpstreamsAfter(path: string, origin: int, start: Ground, branches: seq<Local>,
                                         pushes: seq<Weather>, n: nat, name: string)
    requires n <= |branches|
    ensures var trip := BranchesTrip(true, path, origin, start, branches, pushes, n);
            name in trip.ground.upstream <==> name in start.upstream || Row(path, name, PushedNew) in trip.rows
  {
    if n > 0 {
      UpstreamsAfter(path, origin, start, branches, pushes, n - 1, name);
      var before := BranchesTrip(true, path, origin, start, branches, pushes, n - 1);
      UpstreamAfterTurn(path, origin, before.ground, branches[n - 1], WeatherAt(pushes, n - 1), name);
      var step := BranchTrip(true, path, origin, before.ground, branches[n - 1], WeatherAt(pushes, n - 1));
      assert Row(path, name, PushedNew) in before.rows + step.rows <==>
        Row(path, name, PushedNew) in before.rows || Row(path, name, PushedNew) in step.rows;
    }
  }

  lemma UpstreamAfterTurn(path: string, origin: int, g: Ground, local: Local, w: Weather, name: string)
    ensures var trip := BranchTrip(true, path, origin, g, local, w);
            name in trip.ground.upstream <==> name in g.upstream || Row(path, name, PushedNew) in trip.rows
  {
  }

  /** A clone is gone through twice; between the runs others delete branch `i` on the remote, and nobody
      else writes after the second fetch. The second run brings the branch back exactly when no upstream
      was configured for it before the first run and the first run did not report it as newly pushed. */
  lemma SecondRunBringsBackExactly(clone: Clone, refs: Refs, first: CloneWeather, second: CloneWeather, i: nat)
    requires DistinctNames(clone.branches) && i < |clone.branches| && clone.branches[i].tip.Some?
    requires SkipReason(clone, first.fetched).None? && SkipReason(clone, second.fetched).None?
    requires second.others.Some? && clone.branches[i].name !in second.others.value
    requires CalmPushes(second.pushes) && !WeatherAt(second.pushes, i).answer.Refused?
    ensures var one := CloneTrip(true, clone, refs, first);
            var two := CloneTrip(true, clone.(upstream := one.ground.upstream), one.ground.refs, second);
            var name := clone.branches[i].name;
            Created(two.writes, clone.origin.value, name) <==>
              name !in clone.upstream && Row(clone.path, name, PushedNew) !in one.rows
  {
    var now, own, name := Standing(refs, first.others), clone.origin.value, clone.branches[i].name;
    var n := |clone.branches|;
    UpstreamsAfter(clone.path, own, Ground(now, now, clone.upstream), clone.branches, first.pushes, n, name);
    var one := CloneTrip(true, clone, refs, first);
    var start := Ground(second.others.value, second.others.value, one.ground.upstream);
    CloneCreatesExactly(clone.path, own, start, clone.branches, second.pushes, n, name,
                        BranchesTrip(true, clone.path, own, start, clone.branches, second.pushes, n));
    CalmRemote(clone.path, own, start, clone.branches, second.pushes, i, i);
  }

  const ROOT: Commit := Commit(0, [])
  const TIP: Commit := Commit(1, [ROOT])

  lemma OneBranchTrip(path: string, origin: int, start: Ground, local: Local)
    ensures BranchesTrip(true, path, origin, start, [local], [], 1)
         == BranchTrip(true, path, origin, start, local, Weather(None, Served))
  {
    var step := BranchTrip(true, path, origin, start, local, WeatherAt([], 0));
    assert BranchesTrip(true, path, origin, start, [local], [], 0) == Trip(start, [], []);
    assert BranchesTrip(true, path, origin, start, [local], [], 1) == Then(Trip(start, [], []), step);
    assert [] + step.rows == step.rows && [] + step.writes == step.writes;
  }

  lemma AheadIsPushed(path: string, origin: int)
    ensures var refs: Refs := map["b" := ROOT];
            var trip := BranchTrip(true, path, origin, Ground(refs, refs, {}), Local("b", Some(TIP)), Weather(None, Served));
            trip.rows == [Row(path, "b", Pushed)] && trip.ground.refs == map["b" := TIP] && trip.ground.upstream == {}
  {
    assert Ancestor(ROOT, TIP.parents[0]);
    assert Ancestor(ROOT, TIP) && TIP != ROOT;
    var refs: Refs := map["b" := ROOT];
    assert refs["b" := TIP] == map["b" := TIP];
  }

  lemma AbsentIsPushedNew(path: string, origin: int)
    ensures var refs: Refs := map[];
            var trip := BranchTrip(true, path, origin, Ground(refs, refs, {}), Local("b", Some(TIP)), Weather(None, Served));
            trip.rows == [Row(path, "b", PushedNew)] && trip.ground.refs == map["b" := TIP]
  {
    var refs: Refs := map[];
    assert refs["b" := TIP] == map["b" := TIP];
  }

  /** The first run fast-forwards the branch, others delete it, and the next run creates it again although
      nobody writes after that fetch. */
  lemma DeletedBranchComesBack()
    ensures var clone := Clone("repo", Some(7), "ORESoftware", true, [Local("b", Some(TIP))], {});
            var one := CloneTrip(true, clone, map["b" := ROOT], CloneWeather(None, true, []));
            var two := CloneTrip(true, clone.(upstream := one.ground.upstream), one.ground.refs,
                                 CloneWeather(Some(map[]), true, []));
            && one.rows == [Row("repo", "b", Pushed)] && one.ground.refs == map["b" := TIP]
            && two.rows == [Row("repo", "b", PushedNew)] && two.ground.refs == map["b" := TIP]
  {
    var held: Refs, gone: Refs := map["b" := ROOT], map[];
    var local := Local("b", Some(TIP));
    assert "ORESoftware"[0] == 'O';
    assert "ORESoftware" !in FOREIGN_OWNERS;
    AheadIsPushed("repo", 7);
    OneBranchTrip("repo", 7, Ground(held, held, {}), local);
    AbsentIsPushedNew("repo", 7);
    OneBranchTrip("repo", 7, Ground(gone, gone, {}), local);
  }
}
