/** One pull request's turn in the nightly pass, and the pass itself: what is read, what is decided and
    which mutating calls are issued, in order (src/reconcile.ts). */
module Reconcile {
  import opened Collections
  import opened Wrappers
  import opened DepGraph
  import opened Readiness

  datatype PullId = PullId(repo: Repo, number: int)

  /** A mutating call, recorded when it is issued, whether or not it succeeds. */
  datatype Effect =
    | MergeCall(id: PullId)
    | UpdateCall(id: PullId)
    | LabelCall(id: PullId)
    | CommentCall(id: PullId)

  datatype Action = Merged | Updated | Escalated | Held | Skipped | Failed

  datatype Outcome = Outcome(id: PullId, action: Action, confidence: real, hoursOpen: real, disturbedBy: set<Repo>)

  /** Why `reconcilePull`, and with it the whole pass, rejects. */
  datatype Rejection =
    | PullUnreadable | EvidenceUnreadable | Unevaluable(error: EvaluationError)
    | FilesUnreadable | LabelRefused | CommentRefused

  /** `update-branch`: done, refused as a conflict (409 or 422), or any other failure. */
  datatype UpdateAnswer = BranchUpdated | UpdateRefused | UpdateThrew

  /** Everything GitHub answers about one pull request; `None` and `false` are rejected calls. */
  datatype Answers = Answers(
    pull: Option<PullRequest>,
    reviews: Option<seq<Review>>,
    checks: Option<seq<CheckRun>>,
    merge: bool,
    update: UpdateAnswer,
    files: bool,
    addLabels: bool,
    comment: bool)

  datatype Pass = Pass(pushedAt: map<Repo, Time>, now: int, dryRun: bool)

  const CONFLICT_LABEL := "needs-semantic-merge"

  predicate Flagged(pr: PullRequest) {
    CONFLICT_LABEL in pr.labels
  }

  // ---- rounding of the reported hours ----

  /** `Number(x.toFixed(2))`: nearest hundredth, ties away from zero. */
  function Hundredths(x: real): real {
    if x < 0.0 then -((-x * 100.0 + 0.5).Floor as real / 100.0)
    else (x * 100.0 + 0.5).Floor as real / 100.0
  }

  // ---- one pull request ----

  datatype Assessment = Assessment(id: PullId, pr: PullRequest, readiness: Readiness, age: real, moved: set<Repo>)

  datatype Turn = Turn(result: Result<Outcome, Rejection>, trace: seq<Effect>)

  ghost function EvidenceInput(edges: seq<DepEdge>, pass: Pass, id: PullId, answers: Answers): Input
    requires answers.pull.Some? && answers.reviews.Some? && answers.checks.Some?
  {
    var pr := answers.pull.value;
    var moved := Moved(edges, id.repo, pr.updatedAt, pass.pushedAt);
    Input(pr, answers.reviews.value, answers.checks.value, pass.now, moved, [])
  }

  ghost function Assess(edges: seq<DepEdge>, pass: Pass, id: PullId, answers: Answers): (r: Result<Assessment, Rejection>)
  {
    if answers.pull.None? then Err(PullUnreadable)
    else if answers.reviews.None? || answers.checks.None? then Err(EvidenceUnreadable)
    else
      var input := EvidenceInput(edges, pass, id, answers);
      var verdict := Evaluated(input);
      if verdict.Err? then Err(Unevaluable(verdict.error))
      else Ok(Assessment(id, input.pr, verdict.value,
                         HoursBetween(input.pr.createdAt.value, pass.now), input.disturbedBy))
  }

  function Report(a: Assessment, action: Action): Outcome {
    Outcome(a.id, action, a.readiness.confidence, Hundredths(a.age), a.moved)
  }

  /** The inner `escalate`. The files are always read; the label goes on before the comment. */
  function EscalateTurn(a: Assessment, pass: Pass, answers: Answers): Turn {
    if !answers.files then Turn(Err(FilesUnreadable), [])
    else if pass.dryRun || Flagged(a.pr) then Turn(Ok(Report(a, Escalated)), [])
    else if !answers.addLabels then Turn(Err(LabelRefused), [LabelCall(a.id)])
    else if !answers.comment then Turn(Err(CommentRefused), [LabelCall(a.id), CommentCall(a.id)])
    else Turn(Ok(Report(a, Escalated)), [LabelCall(a.id), CommentCall(a.id)])
  }

  function ActTurn(a: Assessment, pass: Pass, answers: Answers): Turn {
    match a.readiness.recommendation
    case RecommendMerge =>
      if a.age < MIN_OPEN_HOURS then Turn(Ok(Report(a, Held)), [])
      else if !ConfidenceClearsExclusiveThreshold(a.readiness.confidence) then Turn(Ok(Report(a, Held)), [])
      else if pass.dryRun then Turn(Ok(Report(a, Skipped)), [])
      else Turn(Ok(Report(a, if answers.merge then Merged else Failed)), [MergeCall(a.id)])
    case RecommendUpdate =>
      if pass.dryRun then Turn(Ok(Report(a, Skipped)), [])
      else if answers.update.BranchUpdated? then Turn(Ok(Report(a, Updated)), [UpdateCall(a.id)])
      else if answers.update.UpdateThrew? then Turn(Ok(Report(a, Failed)), [UpdateCall(a.id)])
      else
        var turn := EscalateTurn(a, pass, answers);
        Turn(turn.result, [UpdateCall(a.id)] + turn.trace)
    case RecommendEscalate => EscalateTurn(a, pass, answers)
    case RecommendHold => Turn(Ok(Report(a, Held)), [])
  }

  ghost function TurnOf(edges: seq<DepEdge>, pass: Pass, id: PullId, answers: Answers): Turn {
    var a := Assess(edges, pass, id, answers);
    if a.Err? then Turn(Err(a.error), []) else ActTurn(a.value, pass, answers)
  }

  // ---- the client and the code that drives it ----

  class Client {
    var trace: seq<Effect>

    constructor ()
      ensures trace == []
    {
      trace := [];
    }

    method Issue(effect: Effect)
      modifies this
      ensures trace == old(trace) + [effect]
    {
      trace := trace + [effect];
    }
  }

  method EscalatePull(gh: Client, a: Assessment, pass: Pass, answers: Answers) returns (r: Result<Outcome, Rejection>)
    modifies gh
    ensures r == EscalateTurn(a, pass, answers).result
    ensures gh.trace == old(gh.trace) + EscalateTurn(a, pass, answers).trace
  {
    if !answers.files {
      return Err(FilesUnreadable);
    }
    if !pass.dryRun {
      var alreadyFlagged := Flagged(a.pr);
      if !alreadyFlagged {
        gh.Issue(LabelCall(a.id));
        if !answers.addLabels {
          return Err(LabelRefused);
        }
        gh.Issue(CommentCall(a.id));
        if !answers.comment {
          return Err(CommentRefused);
        }
      }
    }
    r := Ok(Report(a, Escalated));
  }

  /** `reconcilePull`. A merge or update that throws is caught and reported; `escalate` is returned without
      being awaited inside the `try`, so what it throws is not. */
  method ReconcilePull(gh: Client, graph: Graph, pass: Pass, id: PullId, answers: Answers, ghost edges: seq<DepEdge>)
      returns (r: Result<Outcome, Rejection>)
    requires Represents(graph, edges)
    modifies gh
    ensures r == TurnOf(edges, pass, id, answers).result
    ensures gh.trace == old(gh.trace) + TurnOf(edges, pass, id, answers).trace
  {
    if answers.pull.None? {
      return Err(PullUnreadable);
    }
    var pr := answers.pull.value;
    var moved := DisturbedSince(graph, id.repo, pr.updatedAt, pass.pushedAt, edges);
    if answers.reviews.None? || answers.checks.None? {
      return Err(EvidenceUnreadable);
    }
    var readiness := Evaluate(Input(pr, answers.reviews.value, answers.checks.value, pass.now, moved, []));
    if readiness.Err? {
      return Err(Unevaluable(readiness.error));
    }
    var age := HoursBetween(pr.createdAt.value, pass.now);
    var a := Assessment(id, pr, readiness.value, age, moved);
    assert Assess(edges, pass, id, answers) == Ok(a);
    match readiness.value.recommendation {
      case RecommendMerge =>
        if age < MIN_OPEN_HOURS {
          return Ok(Report(a, Held));
        }
        if !ConfidenceClearsExclusiveThreshold(readiness.value.confidence) {
          return Ok(Report(a, Held));
        }
        if pass.dryRun {
          return Ok(Report(a, Skipped));
        }
        gh.Issue(MergeCall(id));
        r := Ok(Report(a, if answers.merge then Merged else Failed));
      case RecommendUpdate =>
        if pass.dryRun {
          return Ok(Report(a, Skipped));
        }
        gh.Issue(UpdateCall(id));
        match answers.update {
          case BranchUpdated => r := Ok(Report(a, Updated));
          case UpdateThrew => r := Ok(Report(a, Failed));
          case UpdateRefused => r := EscalatePull(gh, a, pass, answers);
        }
      case RecommendEscalate =>
        r := EscalatePull(gh, a, pass, answers);
      case RecommendHold =>
        r := Ok(Report(a, Held));
    }
  }

  // ---- the pass ----

  /** The open pull requests of one repository; an unreadable list skips the repository. */
  datatype Listing = Listing(repo: Repo, pulls: Option<seq<(int, Answers)>>)

  datatype PassReport = PassReport(dryRun: bool, reposScanned: nat, pullsScanned: nat, outcomes: seq<Outcome>)

  function VisitsOf(repo: Repo, pulls: seq<(int, Answers)>): seq<(PullId, Answers)> {
    seq(|pulls|, i requires 0 <= i < |pulls| => (PullId(repo, pulls[i].0), pulls[i].1))
  }

  function Visits(listing: Listing): seq<(PullId, Answers)> {
    if listing.pulls.Some? then VisitsOf(listing.repo, listing.pulls.value) else []
  }

  function AllVisits(listings: seq<Listing>): seq<(PullId, Answers)> {
    if listings == [] then []
    else AllVisits(listings[..|listings| - 1]) + Visits(listings[|listings| - 1])
  }

  datatype PassTurn = PassTurn(result: Result<seq<Outcome>, Rejection>, trace: seq<Effect>)

  /** The visits taken in order until one rejects. */
  ghost function Visited(edges: seq<DepEdge>, pass: Pass, visits: seq<(PullId, Answers)>): PassTurn {
    if visits == [] then PassTurn(Ok([]), [])
    else
      var before := Visited(edges, pass, visits[..|visits| - 1]);
      if before.result.Err? then before
      else
        var (id, answers) := visits[|visits| - 1];
        var turn := TurnOf(edges, pass, id, answers);
        Extended(before, turn)
  }

  lemma {:induction false} RejectionStopsThePass(edges: seq<DepEdge>, pass: Pass,
                                                a: seq<(PullId, Answers)>, b: seq<(PullId, Answers)>)
    requires Visited(edges, pass, a).result.Err?
    ensures Visited(edges, pass, a + b) == Visited(edges, pass, a)
    decreases |b|
  {
    if b == [] {
      assert a + b == a;
    } else {
      assert (a + b)[..|a + b| - 1] == a + b[..|b| - 1];
      RejectionStopsThePass(edges, pass, a, b[..|b| - 1]);
    }
  }

  /** The visits of the listings from position `i` on. */
  function VisitsFrom(listings: seq<Listing>, i: nat): seq<(PullId, Answers)>
    requires i <= |listings|
    decreases |listings| - i
  {
    if i == |listings| then [] else Visits(listings[i]) + VisitsFrom(listings, i + 1)
  }

  lemma {:induction false} VisitsSplit(listings: seq<Listing>, i: nat)
    requires i <= |listings|
    ensures AllVisits(listings) == AllVisits(listings[..i]) + VisitsFrom(listings, i)
    decreases |listings| - i
  {
    if i == |listings| {
      assert listings[..i] == listings;
    } else {
      VisitsSplit(listings, i + 1);
      assert listings[..i + 1][..i] == listings[..i];
    }
  }

  lemma AfterRejection(edges: seq<DepEdge>, pass: Pass, done: seq<(PullId, Answers)>,
                       visits: seq<(PullId, Answers)>, count: nat, later: seq<(PullId, Answers)>)
    requires count <= |visits|
    requires Visited(edges, pass, done + visits[..count]).result.Err?
    ensures Visited(edges, pass, done + (visits + later)) == Visited(edges, pass, done + visits[..count])
  {
    var rest := visits[count..] + later;
    assert done + (visits + later) == done + visits[..count] + rest;
    RejectionStopsThePass(edges, pass, done + visits[..count], rest);
  }

  function Reported(pass: Pass, repos: nat, result: Result<seq<Outcome>, Rejection>): Result<PassReport, Rejection> {
    if result.Err? then Err(result.error)
    else Ok(PassReport(pass.dryRun, repos, |result.value|, result.value))
  }

  /** After the first `n` pull requests of a repository, the pass stands at `turn`. */
  ghost predicate StandsAt(edges: seq<DepEdge>, pass: Pass, done: seq<(PullId, Answers)>, repo: Repo,
                           pulls: seq<(int, Answers)>, n: nat, turn: PassTurn)
  {
    n <= |pulls| && Visited(edges, pass, done + VisitsOf(repo, pulls)[..n]) == turn
  }

  function Extended(before: PassTurn, turn: Turn): PassTurn
    requires before.result.Ok?
  {
    PassTurn(if turn.result.Err? then Err(turn.result.error) else Ok(before.result.value + [turn.result.value]),
             before.trace + turn.trace)
  }

  lemma VisitedSnoc(edges: seq<DepEdge>, pass: Pass, visits: seq<(PullId, Answers)>, visit: (PullId, Answers))
    requires Visited(edges, pass, visits).result.Ok?
    ensures Visited(edges, pass, visits + [visit])
         == Extended(Visited(edges, pass, visits), TurnOf(edges, pass, visit.0, visit.1))
  {
    var longer := visits + [visit];
    assert longer[..|longer| - 1] == visits;
  }

  lemma OneMoreVisit(edges: seq<DepEdge>, pass: Pass, done: seq<(PullId, Answers)>, repo: Repo,
                     pulls: seq<(int, Answers)>, n: nat, before: PassTurn)
    requires n < |pulls| && before.result.Ok?
    requires StandsAt(edges, pass, done, repo, pulls, n, before)
    ensures StandsAt(edges, pass, done, repo, pulls, n + 1,
                     Extended(before, TurnOf(edges, pass, PullId(repo, pulls[n].0), pulls[n].1)))
  {
    var visits := VisitsOf(repo, pulls);
    VisitedSnoc(edges, pass, done + visits[..n], visits[n]);
    assert done + visits[..n + 1] == (done + visits[..n]) + [visits[n]];
  }

  /** The inner loop: the open pull requests of one repository, after the visits `done`. */
  method ReconcileRepo(gh: Client, graph: Graph, pass: Pass, repo: Repo, pulls: seq<(int, Answers)>,
                       outcomes: seq<Outcome>, ghost edges: seq<DepEdge>, ghost done: seq<(PullId, Answers)>,
                       ghost start: seq<Effect>)
      returns (r: Result<seq<Outcome>, Rejection>, scanned: nat, ghost turn: PassTurn)
    requires Represents(graph, edges)
    requires Visited(edges, pass, done).result == Ok(outcomes)
    requires gh.trace == start + Visited(edges, pass, done).trace
    modifies gh
    ensures scanned <= |pulls| && (r.Ok? ==> scanned == |pulls| && |r.value| == |outcomes| + scanned)
    ensures StandsAt(edges, pass, done, repo, pulls, scanned, turn)
    ensures r == turn.result && gh.trace == start + turn.trace
  {
    var all := outcomes;
    scanned, turn := 0, Visited(edges, pass, done);
    assert done + VisitsOf(repo, pulls)[..0] == done;
    while scanned < |pulls|
      invariant scanned <= |pulls| && |all| == |outcomes| + scanned
      invariant StandsAt(edges, pass, done, repo, pulls, scanned, turn)
      invariant turn.result == Ok(all) && gh.trace == start + turn.trace
    {
      var (number, answers) := pulls[scanned];
      var id := PullId(repo, number);
      OneMoreVisit(edges, pass, done, repo, pulls, scanned, turn);
      ghost var next := TurnOf(edges, pass, id, answers);
      Reassociate(start, turn.trace, next.trace);
      turn := Extended(turn, next);
      scanned := scanned + 1;
      var outcome := ReconcilePull(gh, graph, pass, id, answers, edges);
      if outcome.Err? {
        return Err(outcome.error), scanned, turn;
      }
      all := all + [outcome.value];
    }
    r := Ok(all);
  }

  method Reconcile(gh: Client, edges: seq<DepEdge>, pass: Pass, listings: seq<Listing>)
      returns (r: Result<PassReport, Rejection>)
    modifies gh
    ensures gh.trace == old(gh.trace) + Visited(edges, pass, AllVisits(listings)).trace
    ensures r == Reported(pass, |listings|, Visited(edges, pass, AllVisits(listings)).result)
  {
    var graph := BuildGraph(edges);
    var outcomes: seq<Outcome> := [];
    var pullsScanned := 0;
    ghost var start := gh.trace;
    for i := 0 to |listings|
      invariant Visited(edges, pass, AllVisits(listings[..i])).result == Ok(outcomes)
      invariant gh.trace == start + Visited(edges, pass, AllVisits(listings[..i])).trace
      invariant pullsScanned == |outcomes|
    {
      ghost var done := AllVisits(listings[..i]);
      ghost var visits := Visits(listings[i]);
      assert listings[..i + 1][..i] == listings[..i];
      assert AllVisits(listings[..i + 1]) == done + visits;
      if listings[i].pulls.None? {
        assert done + visits == done;
        continue;
      }
      var more, count, turn := ReconcileRepo(gh, graph, pass, listings[i].repo, listings[i].pulls.value, outcomes,
                                       edges, done, start);
      pullsScanned := pullsScanned + count;
      if more.Err? {
        VisitsSplit(listings, i);
        AfterRejection(edges, pass, done, visits, count, VisitsFrom(listings, i + 1));
        return Err(more.error);
      }
      assert visits[..count] == visits;
      outcomes := more.value;
    }
    assert listings[..|listings|] == listings;
    r := Ok(PassReport(pass.dryRun, |listings|, pullsScanned, outcomes));
  }
}
