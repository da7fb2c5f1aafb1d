/** Runs of the fleet push against each other: a second run pushes nothing, and a dry run forecasts the
    run it precedes. */
module FleetPushRuns {
  import opened Wrappers
  import opened FleetPush

  ghost predicate DistinctNames(branches: seq<Local>) {
    forall i, j :: 0 <= i < j < |branches| ==> branches[i].name != branches[j].name
  }

  /** Every remote belongs to at most one clone. */
  ghost predicate OneClonePerRemote(clones: seq<Clone>) {
    forall i, j :: 0 <= i < j < |clones| && clones[i].origin.Some? && clones[j].origin.Some?
      ==> clones[i].origin != clones[j].origin
  }

  ghost predicate WellListed(clones: seq<Clone>) {
    forall k :: 0 <= k < |clones| ==> DistinctNames(clones[k].branches)
  }

  ghost predicate CalmPushes(pushes: seq<Weather>) {
    forall i :: 0 <= i < |pushes| ==> pushes[i].others.None?
  }

  /** Nobody else writes and every fetch succeeds; pushes may still be refused or lose their reply. */
  ghost predicate Calm(cw: CloneWeather) {
    cw.others.None? && cw.fetched && CalmPushes(cw.pushes)
  }

  ghost predicate AllCalm(weather: seq<CloneWeather>) {
    forall k :: 0 <= k < |weather| ==> Calm(weather[k])
  }

  // ---- a clone after a run without failures ----

  /** The branch has nothing to push. */
  predicate Settled(refs: Refs, upstream: set<string>, local: Local) {
    local.tip.None?
    || var verdict := Classify(local.tip.value, Lookup(refs, local.name), local.name in upstream);
       verdict != BranchNew && verdict != BranchAhead
  }

  ghost predicate NoFailure(rows: seq<Row>) {
    forall i :: 0 <= i < |rows| ==> rows[i].action != PushFailed
  }

  /** Nothing was pushed, could have been, or failed. */
  ghost predicate Quiet(rows: seq<Row>) {
    forall i :: 0 <= i < |rows| ==>
      BucketOf(rows[i].action) != InPushed && BucketOf(rows[i].action) != InNew && BucketOf(rows[i].action) != InFailed
  }

  lemma SettlesBranch(path: string, origin: int, g: Ground, local: Local, w: Weather)
    requires w.others.None? && g.tracking == g.refs
    requires NoFailure(BranchTrip(true, path, origin, g, local, w).rows)
    ensures var h := BranchTrip(true, path, origin, g, local, w).ground;
            && h.tracking == h.refs && Settled(h.refs, h.upstream, local)
            && (forall m :: m != local.name ==> Lookup(h.refs, m) == Lookup(g.refs, m))
            && (forall m :: m != local.name ==> (m in h.upstream <==> m in g.upstream))
  {
    var trip := BranchTrip(true, path, origin, g, local, w);
    assert trip.rows != [] ==> trip.rows[0].action != PushFailed;
  }

  lemma NoFailureSplit(a: seq<Row>, b: seq<Row>)
    requires NoFailure(a + b)
    ensures NoFailure(a) && NoFailure(b)
  {
    assert forall i :: 0 <= i < |a| ==> a[i] == (a + b)[i];
    assert forall i :: 0 <= i < |b| ==> b[i] == (a + b)[|a| + i];
  }

  lemma SettlesNext(g: Ground, h: Ground, branches: seq<Local>, n: nat)
    requires n < |branches| && DistinctNames(branches)
    requires forall i :: 0 <= i < n ==> Settled(g.refs, g.upstream, branches[i])
    requires Settled(h.refs, h.upstream, branches[n])
    requires forall m :: m != branches[n].name ==> Lookup(h.refs, m) == Lookup(g.refs, m)
    requires forall m :: m != branches[n].name ==> (m in h.upstream <==> m in g.upstream)
    ensures forall i :: 0 <= i < n + 1 ==> Settled(h.refs, h.upstream, branches[i])
  {
  }

  /** Everything up to the `n`-th branch is settled and the tracking refs are true. */
  ghost predicate SettledUpTo(g: Ground, branches: seq<Local>, n: nat) {
    n <= |branches| && g.tracking == g.refs && forall i :: 0 <= i < n ==> Settled(g.refs, g.upstream, branches[i])
  }

  lemma SettlesNextBranch(path: string, origin: int, g: Ground, branches: seq<Local>, w: Weather, n: nat)
    requires n < |branches| && DistinctNames(branches) && w.others.None? && SettledUpTo(g, branches, n)
    requires NoFailure(BranchTrip(true, path, origin, g, branches[n], w).rows)
    ensures SettledUpTo(BranchTrip(true, path, origin, g, branches[n], w).ground, branches, n + 1)
  {
    SettlesBranch(path, origin, g, branches[n], w);
    SettlesNext(g, BranchTrip(true, path, origin, g, branches[n], w).ground, branches, n);
  }

  lemma {:induction false} SettlesClone(path: string, origin: int, start: Ground, branches: seq<Local>,
                                       pushes: seq<Weather>, n: nat)
    requires n <= |branches| && DistinctNames(branches) && CalmPushes(pushes) && start.tracking == start.refs
    requires NoFailure(BranchesTrip(true, path, origin, start, branches, pushes, n).rows)
    ensures SettledUpTo(BranchesTrip(true, path, origin, start, branches, pushes, n).ground, branches, n)
  {
    if n > 0 {
      var before := BranchesTrip(true, path, origin, start, branches, pushes, n - 1);
      var w := WeatherAt(pushes, n - 1);
      NoFailureSplit(before.rows, BranchTrip(true, path, origin, before.ground, branches[n - 1], w).rows);
      SettlesClone(path, origin, start, branches, pushes, n - 1);
      SettlesNextBranch(path, origin, before.ground, branches, w, n - 1);
    }
  }

  lemma SettledBranchIsQuiet(apply: bool, path: string, origin: int, g: Ground, local: Local, w: Weather)
    requires w.others.None? && g.tracking == g.refs && Settled(g.refs, g.upstream, local)
    ensures var step := BranchTrip(apply, path, origin, g, local, w);
            step.ground == g && Quiet(step.rows) && step.writes == []
  {
  }

  lemma {:induction false} SettledCloneIsQuiet(apply: bool, path: string, origin: int, start: Ground,
                                              branches: seq<Local>, pushes: seq<Weather>, n: nat)
    requires n <= |branches| && CalmPushes(pushes) && start.tracking == start.refs
    requires forall i :: 0 <= i < |branches| ==> Settled(start.refs, start.upstream, branches[i])
    ensures var trip := BranchesTrip(apply, path, origin, start, branches, pushes, n);
            trip.ground == start && Quiet(trip.rows) && trip.writes == []
  {
    if n > 0 {
      SettledCloneIsQuiet(apply, path, origin, start, branches, pushes, n - 1);
      var before := BranchesTrip(apply, path, origin, start, branches, pushes, n - 1);
      var w := WeatherAt(pushes, n - 1);
      SettledBranchIsQuiet(apply, path, origin, start, branches[n - 1], w);
      QuietConcat(before.rows, BranchTrip(apply, path, origin, start, branches[n - 1], w).rows);
    }
  }

  /** One clone, run twice in calm weather, the first time for real and without a failed push. */
  lemma SecondCloneTripQuiet(apply: bool, clone: Clone, refs: Refs, first: CloneWeather, second: CloneWeather)
    requires DistinctNames(clone.branches) && Calm(first) && Calm(second)
    requires NoFailure(CloneTrip(true, clone, refs, first).rows)
    ensures var g := CloneTrip(true, clone, refs, first).ground;
            var again := CloneTrip(apply, clone.(upstream := g.upstream), if clone.origin.Some? then g.refs else map[], second);
            Quiet(again.rows) && again.writes == []
  {
    if SkipReason(clone, true).None? {
      var start := Ground(refs, refs, clone.upstream);
      SettlesClone(clone.path, clone.origin.value, start, clone.branches, first.pushes, |clone.branches|);
      var g := CloneTrip(true, clone, refs, first).ground;
      SettledCloneIsQuiet(apply, clone.path, clone.origin.value, Ground(g.refs, g.refs, g.upstream),
                          clone.branches, second.pushes, |clone.branches|);
    }
  }

  // ---- clones do not disturb one another ----

  function TripOf(apply: bool, fleet: Fleet, weather: seq<CloneWeather>, k: nat): Trip
    requires k < |fleet.clones|
  {
    CloneTrip(apply, fleet.clones[k], RefsAt(fleet.remotes, fleet.clones[k]), CloneWeatherAt(weather, k))
  }

  lemma {:induction false} Untouched(apply: bool, fleet: Fleet, weather: seq<CloneWeather>, n: nat, k: nat)
    requires OneClonePerRemote(fleet.clones) && n <= k < |fleet.clones|
    ensures var after := FleetTrip(apply, fleet, weather, n).fleet;
            after.clones[k] == fleet.clones[k]
            && RefsAt(after.remotes, fleet.clones[k]) == RefsAt(fleet.remotes, fleet.clones[k])
  {
    if n > 0 {
      Untouched(apply, fleet, weather, n - 1, k);
      Untouched(apply, fleet, weather, n - 1, n - 1);
      var before := FleetTrip(apply, fleet, weather, n - 1).fleet;
      var clone := before.clones[n - 1];
      var trip := CloneTrip(apply, clone, RefsAt(before.remotes, clone), CloneWeatherAt(weather, n - 1));
      OtherCloneKept(before, n - 1, trip.ground, k);
    }
  }

  lemma OtherCloneKept(fleet: Fleet, i: nat, ground: Ground, k: nat)
    requires i < |fleet.clones| && k < |fleet.clones| && i != k
    requires fleet.clones[i].origin.Some? ==> fleet.clones[k].origin != fleet.clones[i].origin
    ensures var after := AfterClone(fleet, i, ground);
            after.clones[k] == fleet.clones[k] && RefsAt(after.remotes, fleet.clones[k]) == RefsAt(fleet.remotes, fleet.clones[k])
  {
  }

  /** With one clone per remote, each clone's part of a run is what it would have been alone. */
  lemma {:induction false} Alone(apply: bool, fleet: Fleet, weather: seq<CloneWeather>, n: nat, k: nat)
    requires OneClonePerRemote(fleet.clones) && k < n <= |fleet.clones|
    ensures var after := FleetTrip(apply, fleet, weather, n).fleet;
            var g := TripOf(apply, fleet, weather, k).ground;
            after.clones[k] == fleet.clones[k].(upstream := g.upstream)
            && RefsAt(after.remotes, fleet.clones[k]) == if fleet.clones[k].origin.Some? then g.refs else map[]
  {
    var before := FleetTrip(apply, fleet, weather, n - 1).fleet;
    var g := TripOf(apply, fleet, weather, n - 1).ground;
    Untouched(apply, fleet, weather, n - 1, n - 1);
    assert FleetTrip(apply, fleet, weather, n).fleet == AfterClone(before, n - 1, g);
    if k < n - 1 {
      Alone(apply, fleet, weather, n - 1, k);
      OtherCloneKept(before, n - 1, g, k);
    }
  }

  lemma StepIsOwnTrip(apply: bool, fleet: Fleet, weather: seq<CloneWeather>, k: nat)
    requires OneClonePerRemote(fleet.clones) && k < |fleet.clones|
    ensures FleetTrip(apply, fleet, weather, k + 1).rows
         == FleetTrip(apply, fleet, weather, k).rows + TripOf(apply, fleet, weather, k).rows
    ensures FleetTrip(apply, fleet, weather, k + 1).writes
         == FleetTrip(apply, fleet, weather, k).writes + TripOf(apply, fleet, weather, k).writes
  {
    Untouched(apply, fleet, weather, k, k);
  }

  // ---- the second run ----

  lemma {:induction false} NoCloneFailed(fleet: Fleet, weather: seq<CloneWeather>, n: nat, k: nat)
    requires OneClonePerRemote(fleet.clones) && k < n <= |fleet.clones|
    requires NoFailure(FleetTrip(true, fleet, weather, n).rows)
    ensures NoFailure(TripOf(true, fleet, weather, k).rows)
  {
    StepIsOwnTrip(true, fleet, weather, n - 1);
    NoFailureSplit(FleetTrip(true, fleet, weather, n - 1).rows, TripOf(true, fleet, weather, n - 1).rows);
    if k < n - 1 {
      NoCloneFailed(fleet, weather, n - 1, k);
    }
  }

  lemma QuietConcat(a: seq<Row>, b: seq<Row>)
    requires Quiet(a) && Quiet(b)
    ensures Quiet(a + b)
  {
  }

  /** The fleet a run without failures leaves behind, clone by clone. */
  ghost predicate LeftBehind(between: Fleet, fleet: Fleet, first: seq<CloneWeather>) {
    && |between.clones| == |fleet.clones|
    && forall k :: 0 <= k < |fleet.clones| ==>
         var g := TripOf(true, fleet, first, k).ground;
         && NoFailure(TripOf(true, fleet, first, k).rows)
         && between.clones[k] == fleet.clones[k].(upstream := g.upstream)
         && RefsAt(between.remotes, fleet.clones[k]) == (if fleet.clones[k].origin.Some? then g.refs else map[])
  }

  lemma WhatARunLeaves(fleet: Fleet, first: seq<CloneWeather>)
    requires OneClonePerRemote(fleet.clones)
    requires NoFailure(FleetTrip(true, fleet, first, |fleet.clones|).rows)
    ensures LeftBehind(FleetTrip(true, fleet, first, |fleet.clones|).fleet, fleet, first)
  {
    var n := |fleet.clones|;
    forall k | 0 <= k < n
      ensures var g := TripOf(true, fleet, first, k).ground;
              var between := FleetTrip(true, fleet, first, n).fleet;
              && NoFailure(TripOf(true, fleet, first, k).rows)
              && between.clones[k] == fleet.clones[k].(upstream := g.upstream)
              && RefsAt(between.remotes, fleet.clones[k]) == (if fleet.clones[k].origin.Some? then g.refs else map[])
    {
      Alone(true, fleet, first, n, k);
      NoCloneFailed(fleet, first, n, k);
    }
  }

  lemma {:induction false} QuietSecondRun(apply: bool, fleet: Fleet, between: Fleet, first: seq<CloneWeather>,
                                         second: seq<CloneWeather>, m: nat)
    requires OneClonePerRemote(fleet.clones) && WellListed(fleet.clones) && AllCalm(first) && AllCalm(second)
    requires LeftBehind(between, fleet, first) && m <= |fleet.clones|
    ensures var again := FleetTrip(apply, between, second, m); Quiet(again.rows) && again.writes == []
  {
    if m > 0 {
      var k := m - 1;
      QuietSecondRun(apply, fleet, between, first, second, k);
      assert OneClonePerRemote(between.clones);
      StepIsOwnTrip(apply, between, second, k);
      SecondCloneTripQuiet(apply, fleet.clones[k], RefsAt(fleet.remotes, fleet.clones[k]),
                           CloneWeatherAt(first, k), CloneWeatherAt(second, k));
      assert RefsAt(between.remotes, between.clones[k]) == RefsAt(between.remotes, fleet.clones[k]);
      QuietConcat(FleetTrip(apply, between, second, k).rows, TripOf(apply, between, second, k).rows);
    }
  }

  lemma {:induction false} QuietTotals(rows: seq<Row>, n: nat)
    requires n <= |rows| && Quiet(rows)
    ensures var t := TotalledUpTo(rows, n); t.pushed == 0 && t.newBranches == 0 && t.failed == 0
  {
    if n > 0 {
      QuietTotals(rows, n - 1);
    }
  }

  lemma {:induction false} FailuresAreCounted(rows: seq<Row>, n: nat, i: nat)
    requires i < n <= |rows| && rows[i].action == PushFailed
    ensures TotalledUpTo(rows, n).failed > 0
  {
    if i < n - 1 {
      FailuresAreCounted(rows, n - 1, i);
    }
  }

  /** With one clone per remote and nobody else writing, a run that reports no failure leaves nothing to
      push: whatever the server answers, the next run pushes nothing, creates nothing and fails nothing. */
  lemma SecondRunPushesNothing(apply: bool, fleet: Fleet, first: seq<CloneWeather>, second: seq<CloneWeather>)
    requires OneClonePerRemote(fleet.clones) && WellListed(fleet.clones) && AllCalm(first) && AllCalm(second)
    requires Totalled(FleetTrip(true, fleet, first, |fleet.clones|).rows).failed == 0
    ensures var between := FleetTrip(true, fleet, first, |fleet.clones|).fleet;
            var again := FleetTrip(apply, between, second, |between.clones|);
            var t := Totalled(again.rows);
            again.writes == [] && t.pushed == 0 && t.newBranches == 0 && t.failed == 0
  {
    var n := |fleet.clones|;
    var rows := FleetTrip(true, fleet, first, n).rows;
    forall i | 0 <= i < |rows|
      ensures rows[i].action != PushFailed
    {
      if rows[i].action == PushFailed {
        FailuresAreCounted(rows, |rows|, i);
      }
    }
    var between := FleetTrip(true, fleet, first, n).fleet;
    WhatARunLeaves(fleet, first);
    QuietSecondRun(apply, fleet, between, first, second, n);
    var again := FleetTrip(apply, between, second, n).rows;
    QuietTotals(again, |again|);
  }

  // ---- the dry run ----

  ghost predicate AllServed(pushes: seq<Weather>) {
    forall i :: 0 <= i < |pushes| ==> pushes[i].answer.Served?
  }

  ghost predicate Fair(weather: seq<CloneWeather>) {
    forall k :: 0 <= k < |weather| ==> AllServed(weather[k].pushes)
  }

  /** Line by line the same branch under the same counter. */
  ghost predicate SameLines(a: seq<Row>, b: seq<Row>) {
    |a| == |b| && forall i :: 0 <= i < |a| ==>
      a[i].path == b[i].path && a[i].branch == b[i].branch && BucketOf(a[i].action) == BucketOf(b[i].action)
  }

  /** The two grounds show the same about this branch. */
  predicate Alike(g: Ground, h: Ground, local: Local) {
    && Lookup(g.refs, local.name) == Lookup(h.refs, local.name)
    && (local.name in g.upstream <==> local.name in h.upstream)
  }

  lemma ForecastBranch(path: string, origin: int, g: Ground, h: Ground, local: Local, w: Weather)
    requires w.others.None? && w.answer.Served? && g.tracking == g.refs && h.tracking == h.refs
    requires Alike(g, h, local)
    ensures var dry := BranchTrip(false, path, origin, g, local, w);
            var live := BranchTrip(true, path, origin, h, local, w);
            && dry.ground == g && SameLines(dry.rows, live.rows)
            && live.ground.tracking == live.ground.refs
            && (forall other: Local :: other.name != local.name && Alike(g, h, other) ==> Alike(g, live.ground, other))
  {
  }

  lemma {:induction false} ForecastClone(path: string, origin: int, start: Ground, branches: seq<Local>,
                                        pushes: seq<Weather>, n: nat)
    requires n <= |branches| && DistinctNames(branches) && CalmPushes(pushes) && AllServed(pushes)
    requires start.tracking == start.refs
    ensures var dry := BranchesTrip(false, path, origin, start, branches, pushes, n);
            var live := BranchesTrip(true, path, origin, start, branches, pushes, n);
            && dry.ground == start && SameLines(dry.rows, live.rows)
            && live.ground.tracking == live.ground.refs
            && (forall i :: n <= i < |branches| ==> Alike(start, live.ground, branches[i]))
  {
    if n > 0 {
      ForecastClone(path, origin, start, branches, pushes, n - 1);
      var live := BranchesTrip(true, path, origin, start, branches, pushes, n - 1);
      ForecastBranch(path, origin, start, live.ground, branches[n - 1], WeatherAt(pushes, n - 1));
    }
  }

  lemma SameLinesConcat(a: seq<Row>, b: seq<Row>, c: seq<Row>, d: seq<Row>)
    requires SameLines(a, b) && SameLines(c, d)
    ensures SameLines(a + c, b + d)
  {
  }

  lemma {:induction false} ForecastFleet(fleet: Fleet, weather: seq<CloneWeather>, n: nat)
    requires OneClonePerRemote(fleet.clones) && WellListed(fleet.clones) && AllCalm(weather) && Fair(weather)
    requires n <= |fleet.clones|
    ensures SameLines(FleetTrip(false, fleet, weather, n).rows, FleetTrip(true, fleet, weather, n).rows)
  {
    if n > 0 {
      var k := n - 1;
      ForecastFleet(fleet, weather, k);
      StepIsOwnTrip(false, fleet, weather, k);
      StepIsOwnTrip(true, fleet, weather, k);
      var clone, cw := fleet.clones[k], CloneWeatherAt(weather, k);
      var refs := RefsAt(fleet.remotes, clone);
      if SkipReason(clone, true).None? {
        ForecastClone(clone.path, clone.origin.value, Ground(refs, refs, clone.upstream), clone.branches,
                      cw.pushes, |clone.branches|);
      }
      SameLinesConcat(FleetTrip(false, fleet, weather, k).rows, FleetTrip(true, fleet, weather, k).rows,
                      TripOf(false, fleet, weather, k).rows, TripOf(true, fleet, weather, k).rows);
    }
  }

  lemma {:induction false} SameLinesSameTotals(a: seq<Row>, b: seq<Row>, n: nat)
    requires SameLines(a, b) && n <= |a|
    ensures TotalledUpTo(a, n) == TotalledUpTo(b, n)
  {
    if n > 0 {
      SameLinesSameTotals(a, b, n - 1);
    }
  }

  /** With one clone per remote, nobody else writing and every push served, a dry run reports the totals
      the live run will. */
  lemma DryRunForecasts(fleet: Fleet, weather: seq<CloneWeather>)
    requires OneClonePerRemote(fleet.clones) && WellListed(fleet.clones) && AllCalm(weather) && Fair(weather)
    ensures Totalled(FleetTrip(false, fleet, weather, |fleet.clones|).rows)
         == Totalled(FleetTrip(true, fleet, weather, |fleet.clones|).rows)
  {
    var n := |fleet.clones|;
    ForecastFleet(fleet, weather, n);
    var dry, live := FleetTrip(false, fleet, weather, n).rows, FleetTrip(true, fleet, weather, n).rows;
    SameLinesSameTotals(dry, live, |dry|);
  }
}
