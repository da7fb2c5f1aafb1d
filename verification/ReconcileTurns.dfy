/** What each turn and each pass of the reconciler does, in terms of what GitHub answered: the calls in
    order, what is reported, and what a conflict gets over the nights. */
module ReconcileTurns {
  import opened Wrappers
  import opened DepGraph
  import opened Readiness
  import opened ReadinessFacts
  import opened Reconcile
  import opened ReconcileSafety

  // ---- what moved underneath ----

  /** `x` is a dependency of `n`, a dependent, or a dependent of a dependent; no repository counts as its own. */
  ghost predicate Neighbour(edges: seq<DepEdge>, x: Repo, n: Repo) {
    x != n
    && (DepEdge(n, x) in edges || DepEdge(x, n) in edges
        || exists m :: m != n && m != x && DepEdge(m, n) in edges && DepEdge(x, m) in edges)
  }

  /** ... and was pushed after the pull request last moved, both times being known. */
  ghost predicate MovedUnder(edges: seq<DepEdge>, pass: Pass, id: PullId, pr: PullRequest, x: Repo) {
    Neighbour(edges, x, id.repo)
    && x in pass.pushedAt && pass.pushedAt[x].Some? && pr.updatedAt.Some? && pass.pushedAt[x].value > pr.updatedAt.value
  }

  lemma NeighbourExactly(edges: seq<DepEdge>, x: Repo, n: Repo)
    ensures Neighbour(edges, x, n) <==> Disturbs(edges, x, n)
  {
    if x != n && exists m :: Depends(edges, m, n) && Depends(edges, x, m) {
      var m :| Depends(edges, m, n) && Depends(edges, x, m);
      assert m != n && m != x && DepEdge(m, n) in edges && DepEdge(x, m) in edges;
    }
    if x != n && exists m :: m != n && m != x && DepEdge(m, n) in edges && DepEdge(x, m) in edges {
      var m :| m != n && m != x && DepEdge(m, n) in edges && DepEdge(x, m) in edges;
      assert Depends(edges, m, n) && Depends(edges, x, m);
    }
  }

  lemma MovedExactly(edges: seq<DepEdge>, pass: Pass, id: PullId, pr: PullRequest, x: Repo)
    ensures x in Moved(edges, id.repo, pr.updatedAt, pass.pushedAt) <==> MovedUnder(edges, pass, id, pr, x)
  {
    NeighbourExactly(edges, x, id.repo);
  }

  // ---- the facts of a turn ----

  ghost predicate Readable(answers: Answers) {
    answers.pull.Some? && answers.reviews.Some? && answers.checks.Some?
  }

  /** The evaluation does not throw. */
  ghost predicate Evaluable(answers: Answers)
    requires Readable(answers)
  {
    var pr := answers.pull.value;
    pr.createdAt.Some? && (pr.author.Some? || forall who :: !Approves(answers.reviews.value, who))
  }

  predicate Protected(pr: PullRequest) {
    pr.draft || Withheld(pr.labels)
  }

  predicate Conflicted(pr: PullRequest) {
    pr.mergeable != Some(true)
  }

  /** A neighbour moved, or GitHub says the branch is behind. */
  ghost predicate Outdated(edges: seq<DepEdge>, pass: Pass, id: PullId, pr: PullRequest) {
    pr.mergeableState == Some("behind") || exists x :: MovedUnder(edges, pass, id, pr, x)
  }

  /** Open for 55 hours, protected by nothing, mergeable and clean, no neighbour moved, approved by somebody else
      with nobody objecting, and every check, at least one, completed and not bad. */
  ghost predicate Ready(edges: seq<DepEdge>, pass: Pass, id: PullId, answers: Answers)
    requires Readable(answers) && answers.pull.value.createdAt.Some?
  {
    var pr, reviews, checks := answers.pull.value, answers.reviews.value, answers.checks.value;
    && pass.now - pr.createdAt.value >= 55 * 60 * 60 * 1000
    && !Protected(pr) && !Conflicted(pr) && pr.mergeableState == Some("clean")
    && (forall x :: !MovedUnder(edges, pass, id, pr, x))
    && ApprovedByOther(reviews, pr.author) && (forall who :: !Objects(reviews, who))
    && checks != [] && forall c :: c in checks ==> c.completed && NotBad(c.conclusion)
  }

  // ---- the turn ----

  /** What `escalate` adds after the calls `head`: nothing without the files, in a dry run or when the label is on;
      else the label, and the comment once the label is on. */
  predicate Escalation(t: Turn, head: seq<Effect>, id: PullId, pr: PullRequest, pass: Pass, answers: Answers) {
    if !answers.files then t.result == Err(FilesUnreadable) && t.trace == head
    else if pass.dryRun || "needs-semantic-merge" in pr.labels then Does(t, Escalated, head)
    else if !answers.addLabels then t.result == Err(LabelRefused) && t.trace == head + [LabelCall(id)]
    else if !answers.comment then t.result == Err(CommentRefused) && t.trace == head + [LabelCall(id), CommentCall(id)]
    else Does(t, Escalated, head + [LabelCall(id), CommentCall(id)])
  }

  predicate Does(t: Turn, action: Action, trace: seq<Effect>) {
    t.result.Ok? && t.result.value.action == action && t.trace == trace
  }

  /** The evaluation's input, and that what it says moved is what the facts say. */
  lemma InputFacts(edges: seq<DepEdge>, pass: Pass, id: PullId, answers: Answers)
    requires Readable(answers)
    ensures var input := EvidenceInput(edges, pass, id, answers);
            && (Evaluated(input).Ok? <==> Evaluable(answers))
            && (input.disturbedBy == {} <==> forall x :: !MovedUnder(edges, pass, id, input.pr, x))
            && (input.pr.createdAt.Some? ==>
                  (Ready(edges, pass, id, answers) <==>
                     AllOpen(input) && ApprovedByOther(input.reviews, input.pr.author)
                     && (exists c :: c in input.checks && c.completed) && input.pr.mergeableState == Some("clean")))
  {
    var input := EvidenceInput(edges, pass, id, answers);
    EvaluationThrows(input);
    forall x
      ensures x in input.disturbedBy <==> MovedUnder(edges, pass, id, input.pr, x)
    {
      MovedExactly(edges, pass, id, input.pr, x);
    }
    assert (forall x :: !MovedUnder(edges, pass, id, input.pr, x)) ==> input.disturbedBy == {};
    if input.pr.createdAt.Some? {
      GatesOpen(input);
      if input.checks != [] {
        assert input.checks[0] in input.checks;
      }
    }
  }

  lemma GatesOpen(input: Input)
    requires input.pr.createdAt.Some? && input.required == []
    ensures AllOpen(input) <==>
            && input.now - input.pr.createdAt.value >= 55 * 60 * 60 * 1000
            && !Protected(input.pr) && !Conflicted(input.pr) && (forall who :: !Objects(input.reviews, who))
            && (forall c :: c in input.checks ==> c.completed && NotBad(c.conclusion)) && input.disturbedBy == {}
  {
    if AllOpen(input) {
      assert Open(OpenLongEnough, input) && Open(NotDraft, input) && Open(NoConflicts, input) && Open(NoChangesRequested, input)
          && Open(ChecksNotFailing, input) && Open(ChecksComplete, input) && Open(NoHoldLabel, input) && Open(Undisturbed, input);
    }
  }

  /** What a turn with readable evidence is recommended. */
  lemma RecommendationFacts(edges: seq<DepEdge>, pass: Pass, id: PullId, answers: Answers, a: Assessment)
    requires Assess(edges, pass, id, answers) == Ok(a)
    ensures Readable(answers) && Evaluable(answers) && a.id == id && a.pr == answers.pull.value
    ensures a.readiness.recommendation ==
            if Ready(edges, pass, id, answers) then RecommendMerge
            else if Protected(a.pr) then RecommendHold
            else if Conflicted(a.pr) then RecommendEscalate
            else if Outdated(edges, pass, id, a.pr) then RecommendUpdate
            else RecommendHold
  {
    InputFacts(edges, pass, id, answers);
    EvaluationOnTheFacts(EvidenceInput(edges, pass, id, answers));
  }

  lemma MergeGoesAhead(edges: seq<DepEdge>, pass: Pass, id: PullId, answers: Answers, a: Assessment)
    requires Assess(edges, pass, id, answers) == Ok(a) && a.readiness.recommendation == RecommendMerge
    ensures a.age >= MIN_OPEN_HOURS && ConfidenceClearsExclusiveThreshold(a.readiness.confidence)
  {
    MergeRecommendedWhenWarranted(edges, pass, id, answers);
    RecheckNeverFires(edges, pass, id, answers);
  }

  /** A turn whose evidence can be evaluated. */
  ghost predicate TurnTable(t: Turn, edges: seq<DepEdge>, pass: Pass, id: PullId, answers: Answers)
    requires Readable(answers) && Evaluable(answers)
  {
    var pr := answers.pull.value;
    if Ready(edges, pass, id, answers) then
      if pass.dryRun then Does(t, Skipped, []) else Does(t, if answers.merge then Merged else Failed, [MergeCall(id)])
    else if Protected(pr) then Does(t, Held, [])
    else if Conflicted(pr) then Escalation(t, [], id, pr, pass, answers)
    else if Outdated(edges, pass, id, pr) then
      if pass.dryRun then Does(t, Skipped, [])
      else
        match answers.update
        case BranchUpdated => Does(t, Updated, [UpdateCall(id)])
        case UpdateThrew => Does(t, Failed, [UpdateCall(id)])
        case UpdateRefused => Escalation(t, [UpdateCall(id)], id, pr, pass, answers)
    else Does(t, Held, [])
  }

  /** Every turn: which calls are issued, in which order, and what it returns. */
  lemma TurnOnTheFacts(edges: seq<DepEdge>, pass: Pass, id: PullId, answers: Answers)
    ensures var t := TurnOf(edges, pass, id, answers);
            if answers.pull.None? then t == Turn(Err(PullUnreadable), [])
            else if !Readable(answers) then t == Turn(Err(EvidenceUnreadable), [])
            else if !Evaluable(answers) then
              t == Turn(Err(Unevaluable(if answers.pull.value.createdAt.None? then UnparseableCreatedAt else UnknownAuthor)), [])
            else TurnTable(t, edges, pass, id, answers)
  {
    if Readable(answers) {
      InputFacts(edges, pass, id, answers);
      EvaluationThrows(EvidenceInput(edges, pass, id, answers));
      if Evaluable(answers) {
        EvaluatedTurn(edges, pass, id, answers, Assess(edges, pass, id, answers).value);
      }
    }
  }

  lemma EvaluatedTurn(edges: seq<DepEdge>, pass: Pass, id: PullId, answers: Answers, a: Assessment)
    requires Assess(edges, pass, id, answers) == Ok(a)
    ensures Readable(answers) && Evaluable(answers)
    ensures TurnTable(TurnOf(edges, pass, id, answers), edges, pass, id, answers)
  {
    RecommendationFacts(edges, pass, id, answers, a);
    if a.readiness.recommendation == RecommendMerge {
      MergeGoesAhead(edges, pass, id, answers, a);
    }
    assert TurnOf(edges, pass, id, answers) == ActTurn(a, pass, answers) by {
      TurnActs(edges, pass, id, answers, a);
    }
    ActsByRecommendation(a, pass, answers);
    TableByRecommendation(edges, pass, id, answers, a, ActTurn(a, pass, answers));
  }

  /** The turn that goes with the recommendation. */
  predicate Acts(t: Turn, a: Assessment, pass: Pass, answers: Answers) {
    match a.readiness.recommendation
    case RecommendMerge =>
      if pass.dryRun then Does(t, Skipped, []) else Does(t, if answers.merge then Merged else Failed, [MergeCall(a.id)])
    case RecommendUpdate =>
      if pass.dryRun then Does(t, Skipped, [])
      else
        (match answers.update
         case BranchUpdated => Does(t, Updated, [UpdateCall(a.id)])
         case UpdateThrew => Does(t, Failed, [UpdateCall(a.id)])
         case UpdateRefused => Escalation(t, [UpdateCall(a.id)], a.id, a.pr, pass, answers))
    case RecommendEscalate => Escalation(t, [], a.id, a.pr, pass, answers)
    case RecommendHold => Does(t, Held, [])
  }

  lemma ActsByRecommendation(a: Assessment, pass: Pass, answers: Answers)
    requires a.readiness.recommendation == RecommendMerge ==>
      a.age >= MIN_OPEN_HOURS && ConfidenceClearsExclusiveThreshold(a.readiness.confidence)
    ensures Acts(ActTurn(a, pass, answers), a, pass, answers)
  {
    EscalationOf(a, pass, answers);
  }

  lemma TableByRecommendation(edges: seq<DepEdge>, pass: Pass, id: PullId, answers: Answers, a: Assessment, t: Turn)
    requires Acts(t, a, pass, answers) && Readable(answers) && Evaluable(answers)
    requires a.id == id && a.pr == answers.pull.value
    requires a.readiness.recommendation ==
             if Ready(edges, pass, id, answers) then RecommendMerge
             else if Protected(a.pr) then RecommendHold
             else if Conflicted(a.pr) then RecommendEscalate
             else if Outdated(edges, pass, id, a.pr) then RecommendUpdate
             else RecommendHold
    ensures TurnTable(t, edges, pass, id, answers)
  {
  }

  lemma EscalationOf(a: Assessment, pass: Pass, answers: Answers)
    ensures Escalation(EscalateTurn(a, pass, answers), [], a.id, a.pr, pass, answers)
    ensures !pass.dryRun ==>
              var t := EscalateTurn(a, pass, answers);
              Escalation(Turn(t.result, [UpdateCall(a.id)] + t.trace), [UpdateCall(a.id)], a.id, a.pr, pass, answers)
  {
  }

  // ---- what is reported ----

  /** `y` is `x` to the nearest hundredth, ties away from zero. */
  ghost predicate Rounded(x: real, y: real) {
    exists k: int :: Hundredth(x, y, k)
  }

  predicate Hundredth(x: real, y: real, k: int) {
    y == k as real / 100.0 && NearestTo(x * 100.0, k)
  }

  predicate NearestTo(z: real, k: int) {
    if z < 0.0 then -0.5 < z - k as real <= 0.5 else -0.5 <= z - k as real < 0.5
  }

  lemma HundredthsRound(x: real)
    ensures Rounded(x, Hundredths(x))
  {
    var z := x * 100.0;
    var k := if x < 0.0 then -((-z + 0.5).Floor) else (z + 0.5).Floor;
    assert -x * 100.0 == -z;
    assert Hundredth(x, Hundredths(x), k);
  }

  /** The outcome of a turn carries the pull request, what moved under it, the confidence and the hours open. */
  lemma OutcomeOnTheFacts(edges: seq<DepEdge>, pass: Pass, id: PullId, answers: Answers)
    requires TurnOf(edges, pass, id, answers).result.Ok?
    ensures Readable(answers) && answers.pull.value.createdAt.Some?
    ensures var o, pr := TurnOf(edges, pass, id, answers).result.value, answers.pull.value;
            var input := EvidenceInput(edges, pass, id, answers);
            && o.id == id
            && (forall x :: x in o.disturbedBy <==> MovedUnder(edges, pass, id, pr, x))
            && o.confidence == (if AllOpen(input) then
                                  Product(ApprovedByOther(input.reviews, pr.author), exists c :: c in input.checks && c.completed,
                                          pr.mergeableState == Some("clean"))
                                else 0.0)
            && Rounded((pass.now - pr.createdAt.value) as real / 3600000.0, o.hoursOpen)
  {
    var a := Assess(edges, pass, id, answers).value;
    TurnActs(edges, pass, id, answers, a);
    OutcomeReports(a, pass, answers);
    EvaluationOnTheFacts(EvidenceInput(edges, pass, id, answers));
    HundredthsRound(a.age);
    forall x
      ensures x in a.moved <==> MovedUnder(edges, pass, id, a.pr, x)
    {
      MovedExactly(edges, pass, id, a.pr, x);
    }
  }

  lemma OutcomeReports(a: Assessment, pass: Pass, answers: Answers)
    ensures var t := ActTurn(a, pass, answers);
            t.result.Ok? ==>
              var o := t.result.value;
              o.id == a.id && o.disturbedBy == a.moved
              && o.confidence == a.readiness.confidence && o.hoursOpen == Hundredths(a.age)
  {
  }

  // ---- the label and the dossier ----

  /** The turn comes to put the label on: an unprotected conflict, or an update that GitHub refused, in apply mode,
      with the files read and the label not there. */
  ghost predicate Labels(edges: seq<DepEdge>, pass: Pass, id: PullId, answers: Answers) {
    Readable(answers) && Evaluable(answers)
    && var pr := answers.pull.value;
       && !pass.dryRun && answers.files && "needs-semantic-merge" !in pr.labels && !Protected(pr)
       && (Conflicted(pr) || (Outdated(edges, pass, id, pr) && answers.update.UpdateRefused?))
  }

  lemma TableLabels(t: Turn, edges: seq<DepEdge>, pass: Pass, id: PullId, answers: Answers)
    requires Readable(answers) && Evaluable(answers) && TurnTable(t, edges, pass, id, answers)
    ensures LabelCall(id) in t.trace <==> Labels(edges, pass, id, answers)
    ensures CommentCall(id) in t.trace <==> LabelCall(id) in t.trace && answers.addLabels
    ensures CommentCall(id) in t.trace ==>
              exists head :: t.trace == head + [LabelCall(id), CommentCall(id)]
                && LabelCall(id) !in head && CommentCall(id) !in head
  {
    if LabelCall(id) in t.trace {
      var head: seq<Effect> := if Conflicted(answers.pull.value) then [] else [UpdateCall(id)];
      assert Escalation(t, head, id, answers.pull.value, pass, answers);
      assert answers.addLabels ==> t.trace == head + [LabelCall(id), CommentCall(id)];
    }
  }

  /** The dossier comment is attempted exactly when the label call was issued and succeeded, directly after it and
      last of all; the label call is issued exactly for a conflict or refused update that has no label yet. */
  lemma CommentCallExactly(edges: seq<DepEdge>, pass: Pass, id: PullId, answers: Answers)
    ensures var trace := TurnOf(edges, pass, id, answers).trace;
            && (LabelCall(id) in trace <==> Labels(edges, pass, id, answers))
            && (CommentCall(id) in trace <==> LabelCall(id) in trace && answers.addLabels)
            && (CommentCall(id) in trace ==>
                  exists head :: trace == head + [LabelCall(id), CommentCall(id)]
                    && LabelCall(id) !in head && CommentCall(id) !in head)
  {
    TurnOnTheFacts(edges, pass, id, answers);
    if Readable(answers) && Evaluable(answers) {
      TableLabels(TurnOf(edges, pass, id, answers), edges, pass, id, answers);
    }
  }

  /** Over any number of nights: the night that comes to put the label on, and on which GitHub accepts it, attempts
      the dossier comment, once; no other night does. */
  lemma ConflictGetsOneDossier(edges: seq<DepEdge>, id: PullId, nights: seq<Night>, i: nat)
    requires LabelStays(edges, id, nights) && i < |nights|
    requires Labels(edges, nights[i].pass, id, nights[i].answers) && nights[i].answers.addLabels
    ensures multiset(NightTrace(edges, id, nights[i]))[CommentCall(id)] == 1
    ensures forall j :: 0 <= j < |nights| && j != i ==> CommentCall(id) !in NightTrace(edges, id, nights[j])
  {
    CommentCallExactly(edges, nights[i].pass, id, nights[i].answers);
    forall j | 0 <= j < |nights| && CommentCall(id) in NightTrace(edges, id, nights[j])
      ensures j == i
    {
      OneDossier(edges, id, nights, i, j);
    }
    OneDossier(edges, id, nights, i, i);
  }

  // ---- the pass ----

  function Joined(parts: seq<seq<Effect>>): seq<Effect> {
    if parts == [] then [] else Joined(parts[..|parts| - 1]) + parts[|parts| - 1]
  }

  ghost function TurnAt(edges: seq<DepEdge>, pass: Pass, visits: seq<(PullId, Answers)>, k: nat): Turn
    requires k < |visits|
  {
    TurnOf(edges, pass, visits[k].0, visits[k].1)
  }

  ghost function Traces(edges: seq<DepEdge>, pass: Pass, visits: seq<(PullId, Answers)>, n: nat): (parts: seq<seq<Effect>>)
    requires n <= |visits|
    ensures |parts| == n && forall k :: 0 <= k < n ==> parts[k] == TurnAt(edges, pass, visits, k).trace
  {
    seq(n, k requires 0 <= k < n => TurnAt(edges, pass, visits, k).trace)
  }

  /** The first `n` turns were taken, and the pass stands at `t`: all went well so far, or only the last rejected. */
  ghost predicate Taken(edges: seq<DepEdge>, pass: Pass, visits: seq<(PullId, Answers)>, n: nat, t: PassTurn) {
    n <= |visits| && t.trace == Joined(Traces(edges, pass, visits, n))
    && match t.result
       case Ok(outcomes) =>
         n == |visits| == |outcomes| && forall k :: 0 <= k < n ==> TurnAt(edges, pass, visits, k).result == Ok(outcomes[k])
       case Err(e) =>
         n >= 1 && TurnAt(edges, pass, visits, n - 1).result == Err(e)
         && forall k :: 0 <= k < n - 1 ==> TurnAt(edges, pass, visits, k).result.Ok?
  }

  lemma TracesPrefix(edges: seq<DepEdge>, pass: Pass, visits: seq<(PullId, Answers)>, m: nat, n: nat)
    requires n <= m <= |visits|
    ensures Traces(edges, pass, visits[..m], n) == Traces(edges, pass, visits, n)
  {
  }

  lemma TracesNext(edges: seq<DepEdge>, pass: Pass, visits: seq<(PullId, Answers)>, n: nat)
    requires n < |visits|
    ensures Joined(Traces(edges, pass, visits, n + 1))
         == Joined(Traces(edges, pass, visits, n)) + TurnAt(edges, pass, visits, n).trace
  {
    var parts := Traces(edges, pass, visits, n + 1);
    assert parts[..n] == Traces(edges, pass, visits, n);
  }

  lemma TakenStays(edges: seq<DepEdge>, pass: Pass, visits: seq<(PullId, Answers)>, m: nat, n: nat, t: PassTurn)
    requires m < |visits| && Taken(edges, pass, visits[..m], n, t) && t.result.Err?
    ensures Taken(edges, pass, visits, n, t)
  {
    TracesPrefix(edges, pass, visits, m, n);
    assert forall k :: 0 <= k < m ==> TurnAt(edges, pass, visits[..m], k) == TurnAt(edges, pass, visits, k);
  }

  lemma TakenOn(edges: seq<DepEdge>, pass: Pass, visits: seq<(PullId, Answers)>, m: nat, t: PassTurn)
    requires m + 1 == |visits| && Taken(edges, pass, visits[..m], m, t) && t.result.Ok?
    ensures Taken(edges, pass, visits, m + 1, Extended(t, TurnAt(edges, pass, visits, m)))
  {
    TracesPrefix(edges, pass, visits, m, m);
    TracesNext(edges, pass, visits, m);
    assert forall k :: 0 <= k < m ==> TurnAt(edges, pass, visits[..m], k) == TurnAt(edges, pass, visits, k);
  }

  /** The visits of a pass are taken in order until one rejects, each exactly once. */
  lemma {:induction false} VisitsInOrder(edges: seq<DepEdge>, pass: Pass, visits: seq<(PullId, Answers)>) returns (n: nat)
    ensures Taken(edges, pass, visits, n, Visited(edges, pass, visits))
    decreases |visits|
  {
    if visits == [] {
      n := 0;
    } else {
      var m := |visits| - 1;
      var before := Visited(edges, pass, visits[..m]);
      n := VisitsInOrder(edges, pass, visits[..m]);
      if before.result.Ok? {
        TakenOn(edges, pass, visits, m, before);
        assert Visited(edges, pass, visits) == Extended(before, TurnAt(edges, pass, visits, m));
        n := m + 1;
      } else {
        TakenStays(edges, pass, visits, m, n, before);
      }
    }
  }

  function PullCount(listing: Listing): nat {
    if listing.pulls.Some? then |listing.pulls.value| else 0
  }

  /** How many pull requests the first `i` listings hold. */
  function Offset(listings: seq<Listing>, i: nat): nat
    requires i <= |listings|
  {
    if i == 0 then 0 else Offset(listings, i - 1) + PullCount(listings[i - 1])
  }

  lemma {:induction false} VisitsUpTo(listings: seq<Listing>, n: nat)
    requires n <= |listings|
    ensures |AllVisits(listings[..n])| == Offset(listings, n)
  {
    if n > 0 {
      VisitsUpTo(listings, n - 1);
      assert listings[..n][..n - 1] == listings[..n - 1];
    }
  }

  /** The `j`-th pull request of the `i`-th listing has its own place among the visits. */
  lemma {:induction false} VisitAt(listings: seq<Listing>, n: nat, i: nat, j: nat)
    requires i < n <= |listings| && listings[i].pulls.Some? && j < |listings[i].pulls.value|
    ensures var visits, (number, answers) := AllVisits(listings[..n]), listings[i].pulls.value[j];
            Offset(listings, i) + j < |visits| && visits[Offset(listings, i) + j] == (PullId(listings[i].repo, number), answers)
  {
    VisitsUpTo(listings, n - 1);
    assert listings[..n][..n - 1] == listings[..n - 1];
    if i < n - 1 {
      VisitAt(listings, n - 1, i, j);
    }
  }

  /** A pass that does not reject reports every pull request of every readable listing, in order, with what its
      turn returned, and counts them. */
  lemma PassReportsEveryPull(edges: seq<DepEdge>, pass: Pass, listings: seq<Listing>, i: nat, j: nat)
    requires Reported(pass, |listings|, Visited(edges, pass, AllVisits(listings)).result).Ok?
    ensures var r := Reported(pass, |listings|, Visited(edges, pass, AllVisits(listings)).result).value;
            && r.dryRun == pass.dryRun && r.reposScanned == |listings|
            && r.pullsScanned == |r.outcomes| == Offset(listings, |listings|)
            && (i < |listings| && listings[i].pulls.Some? && j < |listings[i].pulls.value| ==>
                  var (number, answers) := listings[i].pulls.value[j];
                  Offset(listings, i) + j < |r.outcomes|
                  && TurnOf(edges, pass, PullId(listings[i].repo, number), answers).result
                      == Ok(r.outcomes[Offset(listings, i) + j]))
  {
    var visits := AllVisits(listings);
    assert listings[..|listings|] == listings;
    VisitsUpTo(listings, |listings|);
    var n := VisitsInOrder(edges, pass, visits);
    if i < |listings| && listings[i].pulls.Some? && j < |listings[i].pulls.value| {
      VisitAt(listings, |listings|, i, j);
      assert TurnAt(edges, pass, visits, Offset(listings, i) + j).result.Ok?;
    }
  }
}
