/** What a fleet push reports and writes, clone by clone and branch by branch, in terms of the clones, the
    commits and the answers alone. */
module FleetPushReport {
  import opened Wrappers
  import opened FleetPush
  import opened FleetPushSafety

  // ---- ancestry is reachability ----

  /** Each commit is a parent of the next. */
  predicate Line(p: seq<Commit>) {
    forall k :: 0 <= k < |p| - 1 ==> p[k] in p[k + 1].parents
  }

  predicate Connects(p: seq<Commit>, a: Commit, b: Commit) {
    |p| >= 1 && p[0] == a && p[|p| - 1] == b && Line(p)
  }

  lemma {:induction false} LineOf(a: Commit, b: Commit) returns (p: seq<Commit>)
    requires Ancestor(a, b)
    ensures Connects(p, a, b)
    decreases b
  {
    if a == b {
      p := [a];
    } else {
      var i :| 0 <= i < |b.parents| && Ancestor(a, b.parents[i]);
      var q := LineOf(a, b.parents[i]);
      p := q + [b];
    }
  }

  lemma {:induction false} AncestorByLine(p: seq<Commit>, a: Commit, b: Commit)
    requires Connects(p, a, b)
    ensures Ancestor(a, b)
    decreases |p|
  {
    if |p| > 1 {
      var n := |p| - 1;
      AncestorByLine(p[..n], a, p[n - 1]);
      assert p[n - 1] in p[n - 1 + 1].parents;
      var i :| 0 <= i < |b.parents| && b.parents[i] == p[n - 1];
      assert Ancestor(a, b.parents[i]);
    }
  }

  /** A commit is an ancestor exactly when a line of parents leads to it, over any parent of a merge. */
  lemma AncestorExactly(a: Commit, b: Commit)
    ensures Ancestor(a, b) <==> exists p :: Connects(p, a, b)
  {
    if Ancestor(a, b) {
      var p := LineOf(a, b);
    }
    if exists p :: Connects(p, a, b) {
      var p :| Connects(p, a, b);
      AncestorByLine(p, a, b);
    }
  }

  // ---- one branch ----

  /** The server takes the push: the branch is absent on the remote as it stands, or the push goes forward. */
  predicate Takes(now: Refs, name: string, tip: Commit) {
    name !in now || Ancestor(now[name], tip)
  }

  /** What the report says about a branch at `tip`, of which `tracked` was fetched. */
  predicate Says(action: Action, apply: bool, tracked: Option<Commit>, upstream: bool, tip: Commit, accepted: bool) {
    match action
    case UpstreamDeleted => tracked.None? && upstream
    case WouldPushNew => tracked.None? && !upstream && !apply
    case PushedNew => tracked.None? && !upstream && apply && accepted
    case UpToDate => tracked == Some(tip)
    case WouldPush => Forward(tracked, tip) && !apply
    case Pushed => Forward(tracked, tip) && apply && accepted
    case PushFailed => ((tracked.None? && !upstream) || Forward(tracked, tip)) && apply && !accepted
    case Behind => tracked.Some? && tracked.value != tip && Ancestor(tip, tracked.value)
    case Diverged => tracked.Some? && !Ancestor(tip, tracked.value) && !Ancestor(tracked.value, tip)
    case _ => false
  }

  predicate Forward(tracked: Option<Commit>, tip: Commit) {
    tracked.Some? && tracked.value != tip && Ancestor(tracked.value, tip)
  }

  /** A resolvable branch gets one line that says what it is, one that does not resolve gets none; the remote
      changes exactly when a push was wanted and the server took it. */
  lemma BranchReported(apply: bool, path: string, origin: int, g: Ground, local: Local, w: Weather)
    ensures var trip := BranchTrip(apply, path, origin, g, local, w);
            var now, name := Standing(g.refs, w.others), local.name;
            && (local.tip.None? ==> trip.rows == [] && trip.ground.refs == now)
            && (local.tip.Some? ==>
                  var tip, tracked := local.tip.value, if name in g.tracking then Some(g.tracking[name]) else None;
                  var pushes := apply && ((tracked.None? && name !in g.upstream) || Forward(tracked, tip));
                  && |trip.rows| == 1 && trip.rows[0].path == path && trip.rows[0].branch == name
                  && Says(trip.rows[0].action, apply, tracked, name in g.upstream, tip,
                          w.answer.Served? && Takes(now, name, tip))
                  && trip.ground.refs == (if pushes && !w.answer.Refused? && Takes(now, name, tip)
                                          then now[name := tip] else now))
  {
    if local.tip.Some? && local.name in g.tracking {
      VerdictsAreExclusive(local.tip.value, g.tracking[local.name], local.name in g.upstream);
    }
  }

  /** At most one thing can be said of a branch. */
  lemma OneThingIsSaid(a: Action, b: Action, apply: bool, tracked: Option<Commit>, upstream: bool, tip: Commit, accepted: bool)
    requires Says(a, apply, tracked, upstream, tip, accepted) && Says(b, apply, tracked, upstream, tip, accepted)
    ensures a == b
  {
    if tracked.Some? {
      VerdictsAreExclusive(tip, tracked.value, upstream);
    }
  }

  // ---- clones that are passed over ----

  predicate Ours(clone: Clone) {
    clone.owner != "rabbitmq" && clone.owner != "gleam-lang"
  }

  /** The clone has a remote, is ours, was fetched and has commits. */
  predicate GoneThrough(clone: Clone, fetched: bool) {
    clone.origin.Some? && Ours(clone) && fetched && clone.hasCommits
  }

  /** Why a clone is passed over; of several reasons the first one the script comes to. */
  predicate PassedOver(clone: Clone, fetched: bool, reason: Action) {
    match reason
    case NoRemote => clone.origin.None?
    case SkippedForeign => clone.origin.Some? && !Ours(clone)
    case FetchFailed => clone.origin.Some? && Ours(clone) && !fetched
    case EmptyRepo => clone.origin.Some? && Ours(clone) && fetched && !clone.hasCommits
    case _ => false
  }

  /** A clone is gone through, or adds one line with the reason and changes nothing. */
  lemma CloneReported(apply: bool, clone: Clone, refs: Refs, cw: CloneWeather)
    ensures var trip := CloneTrip(apply, clone, refs, cw);
            if GoneThrough(clone, cw.fetched) then
              RowNames(trip.rows) == ResolvableNames(clone.branches, |clone.branches|) && NoneSkipped(trip.rows)
            else
              && |trip.rows| == 1 && trip.rows[0].path == clone.path && trip.rows[0].branch == "-"
              && PassedOver(clone, cw.fetched, trip.rows[0].action)
              && trip.writes == [] && trip.ground.refs == Standing(refs, cw.others) && trip.ground.upstream == clone.upstream
  {
    if GoneThrough(clone, cw.fetched) {
      var now := Standing(refs, cw.others);
      OneRowPerBranch(apply, clone.path, clone.origin.value, Ground(now, now, clone.upstream), clone.branches, cw.pushes,
                      |clone.branches|);
    }
  }

  lemma {:induction false} ReportGrows(apply: bool, fleet: Fleet, weather: seq<CloneWeather>, k: nat, n: nat)
    requires k <= n <= |fleet.clones|
    ensures FleetTrip(apply, fleet, weather, k).rows <= FleetTrip(apply, fleet, weather, n).rows
    ensures FleetTrip(apply, fleet, weather, k).writes <= FleetTrip(apply, fleet, weather, n).writes
  {
    if k < n {
      ReportGrows(apply, fleet, weather, k, n - 1);
    }
  }

  /** A clone that is passed over in a run adds exactly one line, right after those of the clones before it,
      and no write; the clones stay as they were, and its remote as others left it. */
  lemma PassedOverInRun(apply: bool, fleet: Fleet, weather: seq<CloneWeather>, k: nat, reason: Action)
    requires k < |fleet.clones| && PassedOver(fleet.clones[k], CloneWeatherAt(weather, k).fetched, reason)
    ensures var before, after := FleetTrip(apply, fleet, weather, k), FleetTrip(apply, fleet, weather, k + 1);
            && after.rows == before.rows + [Row(fleet.clones[k].path, "-", reason)]
            && after.writes == before.writes && after.fleet.clones == before.fleet.clones
            && (forall o :: fleet.clones[k].origin != Some(o)
                  ==> RefsOf(after.fleet.remotes, o) == RefsOf(before.fleet.remotes, o))
            && (fleet.clones[k].origin.Some? ==>
                  RefsAt(after.fleet.remotes, fleet.clones[k])
                  == Standing(RefsAt(before.fleet.remotes, fleet.clones[k]), CloneWeatherAt(weather, k).others))
    ensures FleetTrip(apply, fleet, weather, k + 1).rows <= FleetTrip(apply, fleet, weather, |fleet.clones|).rows
  {
    ClonesKeepTheirBranches(apply, fleet, weather, k, k);
    var before := FleetTrip(apply, fleet, weather, k);
    var clone := before.fleet.clones[k];
    CloneReported(apply, clone, RefsAt(before.fleet.remotes, clone), CloneWeatherAt(weather, k));
    ReportGrows(apply, fleet, weather, k + 1, |fleet.clones|);
  }

  // ---- who writes ----

  /** The push is one of this branch: it leaves the remote alone or puts the branch at its tip. */
  predicate PushOf(w: Write, local: Local) {
    local.tip.Some? && w.name == local.name && (w.after == w.before || w.after == w.before[local.name := local.tip.value])
  }

  /** The push is one of a branch of a clone that has this remote, is ours, was fetched and has commits. */
  ghost predicate FromOurs(w: Write, clones: seq<Clone>, weather: seq<CloneWeather>) {
    exists k, i :: 0 <= k < |clones| && 0 <= i < |clones[k].branches|
      && GoneThrough(clones[k], CloneWeatherAt(weather, k).fetched) && clones[k].origin == Some(w.origin)
      && PushOf(w, clones[k].branches[i])
  }

  lemma {:induction false} BranchesWrite(apply: bool, path: string, origin: int, start: Ground, branches: seq<Local>,
                                        pushes: seq<Weather>, n: nat, w: Write)
    requires n <= |branches| && w in BranchesTrip(apply, path, origin, start, branches, pushes, n).writes
    ensures apply && w.origin == origin && exists i :: 0 <= i < n && PushOf(w, branches[i])
  {
    var before := BranchesTrip(apply, path, origin, start, branches, pushes, n - 1);
    if w in before.writes {
      BranchesWrite(apply, path, origin, start, branches, pushes, n - 1, w);
    } else {
      BranchWrites(apply, path, origin, before.ground, branches[n - 1], WeatherAt(pushes, n - 1), w);
    }
  }

  lemma BranchWrites(apply: bool, path: string, origin: int, g: Ground, local: Local, weather: Weather, w: Write)
    requires w in BranchTrip(apply, path, origin, g, local, weather).writes
    ensures apply && w.origin == origin && PushOf(w, local)
  {
  }

  /** Every push of a run, whatever others do, comes from a clone that is ours, was fetched and has commits,
      and is a push of one of its branches; a dry run has none. */
  lemma {:induction false} OnlyOursWrites(apply: bool, fleet: Fleet, weather: seq<CloneWeather>, n: nat, w: Write)
    requires n <= |fleet.clones| && w in FleetTrip(apply, fleet, weather, n).writes
    ensures apply && FromOurs(w, fleet.clones, weather)
  {
    var k := n - 1;
    var before := FleetTrip(apply, fleet, weather, k);
    if w in before.writes {
      OnlyOursWrites(apply, fleet, weather, k, w);
    } else {
      ClonesKeepTheirBranches(apply, fleet, weather, k, k);
      var clone, cw := before.fleet.clones[k], CloneWeatherAt(weather, k);
      CloneReported(apply, clone, RefsAt(before.fleet.remotes, clone), cw);
      var now := Standing(RefsAt(before.fleet.remotes, clone), cw.others);
      BranchesWrite(apply, clone.path, clone.origin.value, Ground(now, now, clone.upstream), clone.branches, cw.pushes,
                    |clone.branches|, w);
    }
  }

  // ---- the counters ----

  /** The positions, before `n`, of the lines with this action. */
  function Lines(rows: seq<Row>, n: nat, action: Action): set<nat>
    requires n <= |rows|
  {
    set i: nat | 0 <= i < n && rows[i].action == action
  }

  lemma LinesNext(rows: seq<Row>, n: nat, action: Action)
    requires n < |rows|
    ensures |Lines(rows, n + 1, action)| == |Lines(rows, n, action)| + if rows[n].action == action then 1 else 0
  {
    var all, front := Lines(rows, n + 1, action), Lines(rows, n, action);
    assert all == if rows[n].action == action then front + {n} else front;
  }

  /** How many lines report this, among the first `n`. */
  function Count(rows: seq<Row>, n: nat, action: Action): nat
    requires n <= |rows|
  {
    |Lines(rows, n, action)|
  }

  /** The counters as the numbers of lines among the first `n`. */
  function Tally(rows: seq<Row>, n: nat): Totals
    requires n <= |rows|
  {
    Totals(Count(rows, n, Pushed) + Count(rows, n, WouldPush),
           Count(rows, n, PushedNew) + Count(rows, n, WouldPushNew),
           Count(rows, n, Diverged),
           Count(rows, n, UpToDate) + Count(rows, n, Behind),
           Count(rows, n, PushFailed),
           Count(rows, n, NoRemote) + Count(rows, n, SkippedForeign) + Count(rows, n, FetchFailed) + Count(rows, n, EmptyRepo),
           Count(rows, n, UpstreamDeleted))
  }

  lemma CountNext(rows: seq<Row>, n: nat, action: Action)
    requires n < |rows|
    ensures Count(rows, n + 1, action) == Count(rows, n, action) + if rows[n].action == action then 1 else 0
  {
    LinesNext(rows, n, action);
  }

  lemma TallyNext(rows: seq<Row>, n: nat)
    requires n < |rows|
    ensures Tally(rows, n + 1) == Counted(Tally(rows, n), BucketOf(rows[n].action))
  {
    CountNext(rows, n, Pushed);
    CountNext(rows, n, WouldPush);
    CountNext(rows, n, PushedNew);
    CountNext(rows, n, WouldPushNew);
    CountNext(rows, n, Diverged);
    CountNext(rows, n, UpToDate);
    CountNext(rows, n, Behind);
    CountNext(rows, n, PushFailed);
    CountNext(rows, n, UpstreamDeleted);
    CountNext(rows, n, NoRemote);
    CountNext(rows, n, SkippedForeign);
    CountNext(rows, n, FetchFailed);
    CountNext(rows, n, EmptyRepo);
  }

  lemma TotalsNext(rows: seq<Row>, n: nat)
    requires n < |rows| && TotalledUpTo(rows, n) == Tally(rows, n)
    ensures TotalledUpTo(rows, n + 1) == Tally(rows, n + 1)
  {
    TallyNext(rows, n);
  }

  lemma {:induction false} TotalsTally(rows: seq<Row>, n: nat)
    requires n <= |rows|
    ensures TotalledUpTo(rows, n) == Tally(rows, n)
  {
    if n > 0 {
      var m := n - 1;
      TotalsTally(rows, m);
      TotalsNext(rows, m);
    }
  }

  /** Each counter of the summary is the number of report lines with its actions. */
  lemma CountersOnTheReport(rows: seq<Row>)
    ensures Totalled(rows) == Tally(rows, |rows|)
  {
    TotalsTally(rows, |rows|);
  }

  /** The considered repositories are the clones with a remote that are ours. */
  lemma {:induction false} ConsideredExactly(clones: seq<Clone>, n: nat, these: set<nat>)
    requires n <= |clones| && forall k: nat :: k in these <==> k < n && clones[k].origin.Some? && Ours(clones[k])
    ensures ConsideredCount(clones, n) == |these|
  {
    if n == 0 {
      assert these == {};
    } else {
      var rest := these - {n - 1};
      ConsideredExactly(clones, n - 1, rest);
      assert these == if n - 1 in these then rest + {n - 1} else rest;
    }
  }
}
