/** Pushing every local branch of a fleet of clones without ever rewriting a remote
    (scripts/push-fleet.sh). Remotes may be moved by others between the fetch and each push. */
module FleetPush {
  import opened Collections
  import opened Wrappers

  /** A commit names its parents by content, so histories form a directed acyclic graph. */
  datatype Commit = Commit(id: int, parents: seq<Commit>)

  /** `merge-base --is-ancestor a b`. */
  predicate Ancestor(a: Commit, b: Commit)
    decreases b
  {
    a == b || exists i | 0 <= i < |b.parents| :: Ancestor(a, b.parents[i])
  }

  type Refs = map<string, Commit>

  /** A listed branch; its short name may fail to resolve. */
  datatype Local = Local(name: string, tip: Option<Commit>)

  datatype Clone = Clone(
    path: string,
    origin: Option<int>,
    owner: string,
    hasCommits: bool,
    branches: seq<Local>,
    upstream: set<string>)

  /** The fate of one push: answered truthfully by the server, refused for a reason of its own, or
      carried out with the reply lost. */
  datatype Answer = Served | Refused | ReplyLost

  /** What others did to the remote since our last look (`None`: nothing), and the fate of our push. */
  datatype Weather = Weather(others: Option<Refs>, answer: Answer)

  datatype CloneWeather = CloneWeather(others: Option<Refs>, fetched: bool, pushes: seq<Weather>)

  datatype Action =
    | PushedNew | WouldPushNew | Pushed | WouldPush | PushFailed
    | UpToDate | Behind | Diverged | UpstreamDeleted
    | NoRemote | SkippedForeign | FetchFailed | EmptyRepo

  /** One line of the report. */
  datatype Row = Row(path: string, branch: string, action: Action)

  /** One push as the remote saw it. */
  datatype Write = Write(origin: int, name: string, before: Refs, after: Refs)

  const FOREIGN_OWNERS: seq<string> := ["rabbitmq", "gleam-lang"]

  // ---- classification ----

  datatype Verdict = BranchGone | BranchNew | BranchCurrent | BranchAhead | BranchBehind | BranchDiverged

  function Lookup(refs: Refs, name: string): Option<Commit> {
    if name in refs then Some(refs[name]) else None
  }

  /** Where the local tip stands against the remote-tracking ref. */
  function Classify(tip: Commit, tracked: Option<Commit>, upstream: bool): Verdict {
    if tracked.None? then (if upstream then BranchGone else BranchNew)
    else if tip == tracked.value then BranchCurrent
    else if Ancestor(tracked.value, tip) then BranchAhead
    else if Ancestor(tip, tracked.value) then BranchBehind
    else BranchDiverged
  }

  // ---- one push ----

  function Standing(refs: Refs, others: Option<Refs>): Refs {
    if others.Some? then others.value else refs
  }

  /** A push without force is accepted on an absent branch or as a fast-forward. */
  predicate Acceptable(refs: Refs, name: string, tip: Commit) {
    name in refs ==> Ancestor(refs[name], tip)
  }

  function Landed(refs: Refs, name: string, tip: Commit, answer: Answer): Refs {
    if answer.Refused? || !Acceptable(refs, name, tip) then refs else refs[name := tip]
  }

  predicate Succeeds(refs: Refs, name: string, tip: Commit, answer: Answer) {
    answer.Served? && Acceptable(refs, name, tip)
  }

  // ---- the specification: what one branch, one clone and the fleet do ----

  /** The remote, the remote-tracking refs of the clone, and the branches with a configured upstream. */
  datatype Ground = Ground(refs: Refs, tracking: Refs, upstream: set<string>)

  datatype Trip = Trip(ground: Ground, rows: seq<Row>, writes: seq<Write>)

  function PushTrip(path: string, origin: int, g: Ground, name: string, tip: Commit, answer: Answer, isNew: bool): Trip {
    var after := Landed(g.refs, name, tip, answer);
    var ok := Succeeds(g.refs, name, tip, answer);
    var action := if !ok then PushFailed else if isNew then PushedNew else Pushed;
    Trip(Ground(after,
                if ok then g.tracking[name := tip] else g.tracking,
                if ok && isNew then g.upstream + {name} else g.upstream),
         [Row(path, name, action)],
         [Write(origin, name, g.refs, after)])
  }

  /** One resolvable branch, against the remote as it now stands. */
  function SendTrip(apply: bool, path: string, origin: int, g: Ground, name: string, tip: Commit, answer: Answer): Trip {
    match Classify(tip, Lookup(g.tracking, name), name in g.upstream)
    case BranchGone => Trip(g, [Row(path, name, UpstreamDeleted)], [])
    case BranchNew =>
      if apply then PushTrip(path, origin, g, name, tip, answer, true)
      else Trip(g, [Row(path, name, WouldPushNew)], [])
    case BranchCurrent => Trip(g, [Row(path, name, UpToDate)], [])
    case BranchAhead =>
      if apply then PushTrip(path, origin, g, name, tip, answer, false)
      else Trip(g, [Row(path, name, WouldPush)], [])
    case BranchBehind => Trip(g, [Row(path, name, Behind)], [])
    case BranchDiverged => Trip(g, [Row(path, name, Diverged)], [])
  }

  function BranchTrip(apply: bool, path: string, origin: int, before: Ground, local: Local, w: Weather): Trip {
    var g := before.(refs := Standing(before.refs, w.others));
    if local.tip.None? then Trip(g, [], [])
    else SendTrip(apply, path, origin, g, local.name, local.tip.value, w.answer)
  }

  function WeatherAt(pushes: seq<Weather>, i: nat): Weather {
    if i < |pushes| then pushes[i] else Weather(None, Served)
  }

  function Then(first: Trip, second: Trip): Trip {
    Trip(second.ground, first.rows + second.rows, first.writes + second.writes)
  }

  /** The first `n` branches of a clone. */
  function BranchesTrip(apply: bool, path: string, origin: int, start: Ground, branches: seq<Local>,
                        pushes: seq<Weather>, n: nat): Trip
    requires n <= |branches|
  {
    if n == 0 then Trip(start, [], [])
    else
      var before := BranchesTrip(apply, path, origin, start, branches, pushes, n - 1);
      Then(before, BranchTrip(apply, path, origin, before.ground, branches[n - 1], WeatherAt(pushes, n - 1)))
  }

  /** Why a clone is skipped, if it is. */
  function SkipReason(clone: Clone, fetched: bool): Option<Action> {
    if clone.origin.None? then Some(NoRemote)
    else if clone.owner in FOREIGN_OWNERS then Some(SkippedForeign)
    else if !fetched then Some(FetchFailed)
    else if !clone.hasCommits then Some(EmptyRepo)
    else None
  }

  /** One clone against its remote: a fetch with pruning, then every branch. */
  function CloneTrip(apply: bool, clone: Clone, refs: Refs, cw: CloneWeather): Trip {
    var now := Standing(refs, cw.others);
    var skip := SkipReason(clone, cw.fetched);
    if skip.Some? then Trip(Ground(now, map[], clone.upstream), [Row(clone.path, "-", skip.value)], [])
    else BranchesTrip(apply, clone.path, clone.origin.value, Ground(now, now, clone.upstream),
                      clone.branches, cw.pushes, |clone.branches|)
  }

  datatype Fleet = Fleet(remotes: map<int, Refs>, clones: seq<Clone>)

  datatype Outing = Outing(fleet: Fleet, rows: seq<Row>, writes: seq<Write>)

  function RefsOf(remotes: map<int, Refs>, origin: int): Refs {
    if origin in remotes then remotes[origin] else map[]
  }

  function RefsAt(remotes: map<int, Refs>, clone: Clone): Refs {
    if clone.origin.Some? then RefsOf(remotes, clone.origin.value) else map[]
  }

  function AfterClone(fleet: Fleet, i: nat, ground: Ground): Fleet
    requires i < |fleet.clones|
  {
    var clone := fleet.clones[i];
    Fleet(if clone.origin.Some? then fleet.remotes[clone.origin.value := ground.refs] else fleet.remotes,
          fleet.clones[i := clone.(upstream := ground.upstream)])
  }

  function CloneWeatherAt(weather: seq<CloneWeather>, i: nat): CloneWeather {
    if i < |weather| then weather[i] else CloneWeather(None, true, [])
  }

  /** Clones that count as considered: one of ours, with a remote. */
  predicate Considered(clone: Clone) {
    clone.origin.Some? && clone.owner !in FOREIGN_OWNERS
  }

  function ConsideredCount(clones: seq<Clone>, n: nat): nat
    requires n <= |clones|
  {
    if n == 0 then 0 else ConsideredCount(clones, n - 1) + (if Considered(clones[n - 1]) then 1 else 0)
  }

  /** The first `n` clones of the fleet. */
  function FleetTrip(apply: bool, fleet: Fleet, weather: seq<CloneWeather>, n: nat): (o: Outing)
    requires n <= |fleet.clones|
    ensures |o.fleet.clones| == |fleet.clones|
  {
    if n == 0 then Outing(fleet, [], [])
    else
      var before := FleetTrip(apply, fleet, weather, n - 1);
      var clone := before.fleet.clones[n - 1];
      var trip := CloneTrip(apply, clone, RefsAt(before.fleet.remotes, clone), CloneWeatherAt(weather, n - 1));
      Outing(AfterClone(before.fleet, n - 1, trip.ground), before.rows + trip.rows, before.writes + trip.writes)
  }

  // ---- the report and its totals ----

  /** The counter an action is summed under. */
  datatype Bucket = InPushed | InNew | InDiverged | InUpToDate | InFailed | InSkipped | InDeleted

  function BucketOf(action: Action): Bucket {
    match action
    case Pushed | WouldPush => InPushed
    case PushedNew | WouldPushNew => InNew
    case Diverged => InDiverged
    case UpToDate | Behind => InUpToDate
    case PushFailed => InFailed
    case UpstreamDeleted => InDeleted
    case NoRemote | SkippedForeign | FetchFailed | EmptyRepo => InSkipped
  }

  datatype Totals = Totals(
    pushed: nat, newBranches: nat, diverged: nat, upToDate: nat, failed: nat, skipped: nat, deletedUpstream: nat)

  function Counted(t: Totals, bucket: Bucket): Totals {
    match bucket
    case InPushed => t.(pushed := t.pushed + 1)
    case InNew => t.(newBranches := t.newBranches + 1)
    case InDiverged => t.(diverged := t.diverged + 1)
    case InUpToDate => t.(upToDate := t.upToDate + 1)
    case InFailed => t.(failed := t.failed + 1)
    case InSkipped => t.(skipped := t.skipped + 1)
    case InDeleted => t.(deletedUpstream := t.deletedUpstream + 1)
  }

  /** The totals of the first `n` rows. */
  function TotalledUpTo(rows: seq<Row>, n: nat): Totals
    requires n <= |rows|
  {
    if n == 0 then Totals(0, 0, 0, 0, 0, 0, 0)
    else Counted(TotalledUpTo(rows, n - 1), BucketOf(rows[n - 1].action))
  }

  /** The totals a report adds up to. */
  function Totalled(rows: seq<Row>): Totals {
    TotalledUpTo(rows, |rows|)
  }

  lemma {:induction false} TotalledPrefix(rows: seq<Row>, more: seq<Row>, n: nat)
    requires n <= |rows|
    ensures TotalledUpTo(rows + more, n) == TotalledUpTo(rows, n)
  {
    if n > 0 {
      TotalledPrefix(rows, more, n - 1);
    }
  }

  lemma TotalledOneMore(rows: seq<Row>, row: Row)
    ensures Totalled(rows + [row]) == Counted(Totalled(rows), BucketOf(row.action))
  {
    TotalledPrefix(rows, [row], |rows|);
  }

  // ---- the loops, one turn at a time ----

  /** After its first `n` branches a clone stands at `trip`. */
  ghost predicate Travelled(apply: bool, path: string, origin: int, start: Ground, branches: seq<Local>,
                            pushes: seq<Weather>, n: nat, trip: Trip)
  {
    n <= |branches| && BranchesTrip(apply, path, origin, start, branches, pushes, n) == trip
  }

  lemma TravelOn(apply: bool, path: string, origin: int, start: Ground, branches: seq<Local>, pushes: seq<Weather>,
                 n: nat, before: Trip, step: Trip)
    requires n < |branches| && Travelled(apply, path, origin, start, branches, pushes, n, before)
    requires step == BranchTrip(apply, path, origin, before.ground, branches[n], WeatherAt(pushes, n))
    ensures Travelled(apply, path, origin, start, branches, pushes, n + 1, Then(before, step))
  {
  }

  /** After its first `n` clones the sweep stands at `outing`. */
  ghost predicate Swept(apply: bool, fleet: Fleet, weather: seq<CloneWeather>, n: nat, outing: Outing) {
    n <= |fleet.clones| && FleetTrip(apply, fleet, weather, n) == outing
  }

  function After(before: Outing, n: nat, trip: Trip): Outing
    requires n < |before.fleet.clones|
  {
    Outing(AfterClone(before.fleet, n, trip.ground), before.rows + trip.rows, before.writes + trip.writes)
  }

  lemma SweepOn(apply: bool, fleet: Fleet, weather: seq<CloneWeather>, n: nat, before: Outing, trip: Trip)
    requires n < |fleet.clones| && Swept(apply, fleet, weather, n, before)
    requires n < |before.fleet.clones|
    requires var clone := before.fleet.clones[n];
             trip == CloneTrip(apply, clone, RefsAt(before.fleet.remotes, clone), CloneWeatherAt(weather, n))
    ensures Swept(apply, fleet, weather, n + 1, After(before, n, trip))
  {
  }

  // ---- the script ----

  class Sweep {
    const apply: bool
    var remotes: map<int, Refs>
    var clones: seq<Clone>
    var report: seq<Row>
    var totalRepos: nat
    var pushed: nat
    var newBranches: nat
    var diverged: nat
    var upToDate: nat
    var failed: nat
    var skipped: nat
    var deletedUpstream: nat
    ghost var writes: seq<Write>

    function Counters(): Totals
      reads this
    {
      Totals(pushed, newBranches, diverged, upToDate, failed, skipped, deletedUpstream)
    }

    /** The counters always equal the totals of the report. */
    ghost predicate Valid()
      reads this
    {
      Counters() == Totalled(report)
    }

    constructor (apply: bool, remotes: map<int, Refs>, clones: seq<Clone>)
      ensures Valid() && report == [] && writes == [] && totalRepos == 0
      ensures this.apply == apply && this.remotes == remotes && this.clones == clones
    {
      this.apply := apply;
      this.remotes, this.clones, report, writes := remotes, clones, [], [];
      totalRepos, pushed, newBranches, diverged, upToDate := 0, 0, 0, 0, 0;
      failed, skipped, deletedUpstream := 0, 0, 0;
    }

    /** `rec`, together with the counter that belongs to the action. */
    method Record(path: string, branch: string, action: Action)
      requires Valid()
      modifies `report, `pushed, `newBranches, `diverged, `upToDate, `failed, `skipped, `deletedUpstream
      ensures Valid()
      ensures report == old(report) + [Row(path, branch, action)]
    {
      var row := Row(path, branch, action);
      TotalledOneMore(report, row);
      report := report + [row];
      match BucketOf(action) {
        case InPushed => pushed := pushed + 1;
        case InNew => newBranches := newBranches + 1;
        case InDiverged => diverged := diverged + 1;
        case InUpToDate => upToDate := upToDate + 1;
        case InFailed => failed := failed + 1;
        case InSkipped => skipped := skipped + 1;
        case InDeleted => deletedUpstream := deletedUpstream + 1;
      }
    }

    /** Other writers reach the remote before our next command does. */
    method Drift(origin: int, others: Option<Refs>)
      modifies `remotes
      ensures remotes == old(remotes)[origin := Standing(RefsOf(old(remotes), origin), others)]
    {
      remotes := remotes[origin := if others.Some? then others.value else RefsOf(remotes, origin)];
    }

    /** `git push` without force, as the server carries it out. */
    method Push(origin: int, name: string, tip: Commit, answer: Answer) returns (ok: bool)
      requires origin in remotes
      modifies `remotes, `writes
      ensures ok <==> Succeeds(old(remotes)[origin], name, tip, answer)
      ensures remotes == old(remotes)[origin := Landed(old(remotes)[origin], name, tip, answer)]
      ensures writes == old(writes) + [Write(origin, name, old(remotes)[origin], remotes[origin])]
    {
      var refs := remotes[origin];
      if !answer.Refused? && (name !in refs || Ancestor(refs[name], tip)) {
        remotes := remotes[origin := refs[name := tip]];
        ok := answer.Served?;
      } else {
        ok := false;
        assert remotes == remotes[origin := refs];
      }
      writes := writes + [Write(origin, name, refs, remotes[origin])];
    }

    /** A push, its report line, and what a success configures. */
    method PushAndRecord(path: string, origin: int, tracking: Refs, upstream: set<string>, name: string, tip: Commit,
                         answer: Answer, isNew: bool) returns (tracking': Refs, upstream': set<string>, ghost trip: Trip)
      requires Valid() && origin in remotes
      modifies `remotes, `writes, `report, `pushed, `newBranches,
               `diverged, `upToDate, `failed, `skipped, `deletedUpstream
      ensures Valid()
      ensures trip == PushTrip(path, origin, Ground(old(remotes)[origin], tracking, upstream), name, tip, answer, isNew)
      ensures remotes == old(remotes)[origin := trip.ground.refs]
      ensures tracking' == trip.ground.tracking && upstream' == trip.ground.upstream
      ensures report == old(report) + trip.rows && writes == old(writes) + trip.writes
    {
      trip := PushTrip(path, origin, Ground(remotes[origin], tracking, upstream), name, tip, answer, isNew);
      tracking', upstream' := tracking, upstream;
      var ok := Push(origin, name, tip, answer);
      if ok {
        if isNew {
          upstream' := upstream + {name};
        }
        tracking' := tracking[name := tip];
        Record(path, name, if isNew then PushedNew else Pushed);
      } else {
        Record(path, name, PushFailed);
      }
    }

    /** The decision for one resolvable branch. */
    method Send(path: string, origin: int, tracking: Refs, upstream: set<string>, name: string, tip: Commit,
                answer: Answer) returns (tracking': Refs, upstream': set<string>, ghost trip: Trip)
      requires Valid() && origin in remotes
      modifies `remotes, `writes, `report, `pushed, `newBranches,
               `diverged, `upToDate, `failed, `skipped, `deletedUpstream
      ensures Valid()
      ensures trip == SendTrip(apply, path, origin, Ground(old(remotes)[origin], tracking, upstream), name, tip, answer)
      ensures remotes == old(remotes)[origin := trip.ground.refs]
      ensures tracking' == trip.ground.tracking && upstream' == trip.ground.upstream
      ensures report == old(report) + trip.rows && writes == old(writes) + trip.writes
    {
      tracking', upstream' := tracking, upstream;
      ghost var g := Ground(remotes[origin], tracking, upstream);
      trip := SendTrip(apply, path, origin, g, name, tip, answer);
      assert remotes == remotes[origin := g.refs];
      if name !in tracking {
        if name in upstream {
          Record(path, name, UpstreamDeleted);
        } else if apply {
          tracking', upstream', trip := PushAndRecord(path, origin, tracking, upstream, name, tip, answer, true);
        } else {
          Record(path, name, WouldPushNew);
        }
        return;
      }
      if tip == tracking[name] {
        Record(path, name, UpToDate);
        return;
      }
      if Ancestor(tracking[name], tip) {
        if apply {
          tracking', upstream', trip := PushAndRecord(path, origin, tracking, upstream, name, tip, answer, false);
        } else {
          Record(path, name, WouldPush);
        }
        return;
      }
      if Ancestor(tip, tracking[name]) {
        Record(path, name, Behind);
        return;
      }
      Record(path, name, Diverged);
    }

    /** The body of the branch loop. */
    method SendBranch(path: string, origin: int, tracking: Refs, upstream: set<string>, local: Local, w: Weather)
        returns (tracking': Refs, upstream': set<string>, ghost trip: Trip)
      requires Valid() && origin in remotes
      modifies `remotes, `writes, `report, `pushed, `newBranches,
               `diverged, `upToDate, `failed, `skipped, `deletedUpstream
      ensures Valid()
      ensures trip == BranchTrip(apply, path, origin, Ground(old(remotes)[origin], tracking, upstream), local, w)
      ensures remotes == old(remotes)[origin := trip.ground.refs]
      ensures tracking' == trip.ground.tracking && upstream' == trip.ground.upstream
      ensures report == old(report) + trip.rows && writes == old(writes) + trip.writes
    {
      ghost var atFirst := remotes;
      Drift(origin, w.others);
      ghost var drifted := remotes[origin];
      ghost var g := Ground(drifted, tracking, upstream);
      if local.tip.None? {
        tracking', upstream', trip := tracking, upstream, Trip(g, [], []);
        assert report == report + trip.rows && writes == writes + trip.writes;
      } else {
        tracking', upstream', trip := Send(path, origin, tracking, upstream, local.name, local.tip.value, w.answer);
        assert remotes == atFirst[origin := drifted][origin := trip.ground.refs];
      }
      assert trip == BranchTrip(apply, path, origin, Ground(atFirst[origin], tracking, upstream), local, w);
    }

    /** Turn `i` of the branch loop, continuing the trip so far. */
    method SendNext(path: string, origin: int, tracking: Refs, upstream: set<string>, branches: seq<Local>,
                    pushes: seq<Weather>, i: nat, ghost start: Ground, ghost before: Trip,
                    ghost remotes0: map<int, Refs>, ghost report0: seq<Row>, ghost writes0: seq<Write>)
        returns (tracking': Refs, upstream': set<string>, ghost after: Trip)
      requires Valid() && i < |branches|
      requires Travelled(apply, path, origin, start, branches, pushes, i, before)
      requires remotes == remotes0[origin := before.ground.refs]
      requires tracking == before.ground.tracking && upstream == before.ground.upstream
      requires report == report0 + before.rows && writes == writes0 + before.writes
      modifies `remotes, `writes, `report, `pushed, `newBranches,
               `diverged, `upToDate, `failed, `skipped, `deletedUpstream
      ensures Valid()
      ensures Travelled(apply, path, origin, start, branches, pushes, i + 1, after)
      ensures remotes == remotes0[origin := after.ground.refs]
      ensures tracking' == after.ground.tracking && upstream' == after.ground.upstream
      ensures report == report0 + after.rows && writes == writes0 + after.writes
    {
      assert before.ground == Ground(remotes[origin], tracking, upstream);
      ghost var step;
      tracking', upstream', step := SendBranch(path, origin, tracking, upstream, branches[i], WeatherAt(pushes, i));
      TravelOn(apply, path, origin, start, branches, pushes, i, before, step);
      Reassociate(report0, before.rows, step.rows);
      Reassociate(writes0, before.writes, step.writes);
      after := Then(before, step);
    }

    /** The branch loop of one clone. */
    method SendBranches(path: string, origin: int, start: Ground, branches: seq<Local>, pushes: seq<Weather>)
        returns (upstream: set<string>, ghost trip: Trip)
      requires Valid() && origin in remotes && remotes[origin] == start.refs
      modifies `remotes, `writes, `report, `pushed, `newBranches,
               `diverged, `upToDate, `failed, `skipped, `deletedUpstream
      ensures Valid()
      ensures trip == BranchesTrip(apply, path, origin, start, branches, pushes, |branches|)
      ensures remotes == old(remotes)[origin := trip.ground.refs] && upstream == trip.ground.upstream
      ensures report == old(report) + trip.rows && writes == old(writes) + trip.writes
    {
      ghost var remotes0, report0, writes0 := remotes, report, writes;
      var tracking := start.tracking;
      upstream, trip := start.upstream, Trip(start, [], []);
      assert remotes == remotes[origin := start.refs];
      assert report == report + [] && writes == writes + [];
      var i := 0;
      while i < |branches|
        invariant i <= |branches| && Valid()
        invariant Travelled(apply, path, origin, start, branches, pushes, i, trip)
        invariant remotes == remotes0[origin := trip.ground.refs]
        invariant tracking == trip.ground.tracking && upstream == trip.ground.upstream
        invariant report == report0 + trip.rows && writes == writes0 + trip.writes
      {
        tracking, upstream, trip := SendNext(path, origin, tracking, upstream, branches, pushes, i,
                                             start, trip, remotes0, report0, writes0);
        i := i + 1;
      }
    }

    /** One clone: skip it for a reason, or fetch and go through its branches. */
    method Process(clone: Clone, cw: CloneWeather) returns (upstream: set<string>, ghost trip: Trip)
      requires Valid()
      modifies `remotes, `writes, `report, `totalRepos, `pushed, `newBranches,
               `diverged, `upToDate, `failed, `skipped, `deletedUpstream
      ensures Valid()
      ensures trip == CloneTrip(apply, clone, RefsAt(old(remotes), clone), cw)
      ensures remotes == if clone.origin.Some? then old(remotes)[clone.origin.value := trip.ground.refs] else old(remotes)
      ensures upstream == trip.ground.upstream
      ensures totalRepos == old(totalRepos) + if Considered(clone) then 1 else 0
      ensures report == old(report) + trip.rows && writes == old(writes) + trip.writes
    {
      upstream, trip := clone.upstream, CloneTrip(apply, clone, RefsAt(remotes, clone), cw);
      if clone.origin.None? {
        Record(clone.path, "-", NoRemote);
        return;
      }
      var origin := clone.origin.value;
      Drift(origin, cw.others);
      if clone.owner in FOREIGN_OWNERS {
        Record(clone.path, "-", SkippedForeign);
        return;
      }
      totalRepos := totalRepos + 1;
      if !cw.fetched {
        Record(clone.path, "-", FetchFailed);
        return;
      }
      if !clone.hasCommits {
        Record(clone.path, "-", EmptyRepo);
        return;
      }
      var now := remotes[origin];
      upstream, trip := SendBranches(clone.path, origin, Ground(now, now, clone.upstream), clone.branches, cw.pushes);
    }

    /** The object stands where the specified outing is after `i` clones, and has not touched the rest. */
    ghost predicate StandsAt(start: Fleet, weather: seq<CloneWeather>, i: nat, outing: Outing)
      reads this
    {
      i <= |clones| == |start.clones| && Valid()
      && Swept(apply, start, weather, i, outing) && outing == Outing(Fleet(remotes, clones), report, writes)
      && (forall k :: i <= k < |clones| ==> clones[k] == start.clones[k])
      && totalRepos == ConsideredCount(start.clones, i)
    }

    /** Turn `i` of the sweep. */
    method Visit(weather: seq<CloneWeather>, i: nat, ghost start: Fleet, ghost before: Outing) returns (ghost after: Outing)
      requires StandsAt(start, weather, i, before) && i < |clones|
      modifies this
      ensures StandsAt(start, weather, i + 1, after)
    {
      var clone := clones[i];
      var upstream;
      ghost var trip;
      upstream, trip := Process(clone, CloneWeatherAt(weather, i));
      clones := clones[i := clone.(upstream := upstream)];
      SweepOn(apply, start, weather, i, before, trip);
      after := After(before, i, trip);
    }

    /** The whole sweep. */
    method Run(weather: seq<CloneWeather>)
      requires Valid() && report == [] && writes == [] && totalRepos == 0
      modifies this
      ensures Valid()
      ensures var trip := FleetTrip(apply, Fleet(old(remotes), old(clones)), weather, |old(clones)|);
              Fleet(remotes, clones) == trip.fleet && report == trip.rows && writes == trip.writes
      ensures totalRepos == ConsideredCount(old(clones), |old(clones)|)
    {
      ghost var start := Fleet(remotes, clones);
      ghost var outing := Outing(start, [], []);
      var i := 0;
      while i < |clones|
        invariant StandsAt(start, weather, i, outing)
        decreases |start.clones| - i
      {
        outing := Visit(weather, i, start, outing);
        i := i + 1;
      }
    }
  }
}
