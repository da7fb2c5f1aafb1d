/** What the nightly pass can and cannot do to a pull request, for every answer GitHub may give. */
module ReconcileSafety {
  import opened Wrappers
  import opened DepGraph
  import opened Readiness
  import opened Reconcile

  // ---- merging ----

  /** Everything was readable and every condition of an unattended merge holds. */
  ghost predicate MergeWarranted(edges: seq<DepEdge>, pass: Pass, id: PullId, answers: Answers) {
    answers.pull.Some? && answers.reviews.Some? && answers.checks.Some?
    && var pr := answers.pull.value;
       pr.createdAt.Some? && pr.author.Some?
       && AllGatesPass(EvidenceInput(edges, pass, id, answers), HoursBetween(pr.createdAt.value, pass.now))
       && LastWordIsIndependentApproval(answers.reviews.value, pr.author.value)
       && AnyCompleted(answers.checks.value)
       && pr.mergeableState == Some("clean")
  }

  lemma AuthorlessNeverMerges(input: Input)
    requires input.pr.author.None?
    ensures Evaluated(input).Ok? ==> Evaluated(input).value.recommendation != RecommendMerge
  {
  }

  lemma MergeRecommendedWhenWarranted(edges: seq<DepEdge>, pass: Pass, id: PullId, answers: Answers)
    ensures var a := Assess(edges, pass, id, answers);
            a.Ok? && a.value.readiness.recommendation == RecommendMerge
            <==> MergeWarranted(edges, pass, id, answers)
  {
    if answers.pull.Some? && answers.reviews.Some? && answers.checks.Some? {
      var input := EvidenceInput(edges, pass, id, answers);
      if input.pr.author.None? {
        AuthorlessNeverMerges(input);
      } else if input.pr.createdAt.Some? {
        MergeRecommendedExactly(input);
      }
    }
  }

  /** The soak and confidence conditions asserted again at the point of action. */
  lemma RecheckNeverFires(edges: seq<DepEdge>, pass: Pass, id: PullId, answers: Answers)
    requires MergeWarranted(edges, pass, id, answers)
    ensures var a := Assess(edges, pass, id, answers);
            a.Ok? && a.value.age >= MIN_OPEN_HOURS
            && ConfidenceClearsExclusiveThreshold(a.value.readiness.confidence)
            && a.value.moved == {}
  {
    MergeRecommendedWhenWarranted(edges, pass, id, answers);
    var input := EvidenceInput(edges, pass, id, answers);
    var age := HoursBetween(input.pr.createdAt.value, pass.now);
    assert OpenLongEnough in GATES && Undisturbed in GATES;
    assert GatePasses(OpenLongEnough, input, age, Latest(input.reviews));
    assert GatePasses(Undisturbed, input, age, Latest(input.reviews));
  }

  /** A merge call is issued exactly when the pass may act and the merge is warranted; it is then the
      only call. */
  lemma MergeCallExactly(edges: seq<DepEdge>, pass: Pass, id: PullId, answers: Answers)
    ensures MergeCall(id) in TurnOf(edges, pass, id, answers).trace
            <==> !pass.dryRun && MergeWarranted(edges, pass, id, answers)
    ensures MergeCall(id) in TurnOf(edges, pass, id, answers).trace
            ==> TurnOf(edges, pass, id, answers).trace == [MergeCall(id)]
  {
    MergeRecommendedWhenWarranted(edges, pass, id, answers);
    if MergeWarranted(edges, pass, id, answers) {
      RecheckNeverFires(edges, pass, id, answers);
    }
  }

  /** The conditions of an unattended merge in terms of what GitHub answered. */
  ghost predicate ReadyOnTheFacts(edges: seq<DepEdge>, pass: Pass, id: PullId, pr: PullRequest,
                                  reviews: seq<Review>, checks: seq<CheckRun>)
  {
    && pr.createdAt.Some? && pass.now - pr.createdAt.value >= 55 * 3600000
    && pr.author.Some? && !pr.draft && pr.mergeable == Some(true) && pr.mergeableState == Some("clean")
    && (forall l :: l in pr.labels ==> !HoldLabel(l))
    && (forall who, k :: LastReview(reviews, who, k) ==> !reviews[k].state.ChangesRequested?)
    && LastWordIsIndependentApproval(reviews, pr.author.value)
    && checks != []
    && (forall c :: c in checks ==> c.completed && PassingConclusion(c.conclusion))
    && (forall x :: Disturbs(edges, x, id.repo) ==> !PushedAfter(pass.pushedAt, x, pr.updatedAt))
  }

  predicate PassingConclusion(conclusion: Option<string>) {
    conclusion.None? || conclusion.value == "success" || conclusion.value == "neutral" || conclusion.value == "skipped"
  }

  lemma NobodyRequestsChanges(reviews: seq<Review>)
    ensures !AnyIs(Latest(reviews), ChangesRequested) <==>
            forall who, k :: LastReview(reviews, who, k) ==> !reviews[k].state.ChangesRequested?
  {
    var latest := Latest(reviews);
    if AnyIs(latest, ChangesRequested) {
      var who :| who in latest && latest[who] == ChangesRequested;
      LatestIsLast(reviews, who);
      var k :| LastReview(reviews, who, k);
      assert reviews[k].state.ChangesRequested?;
    }
    forall who, k | LastReview(reviews, who, k) && reviews[k].state.ChangesRequested?
      ensures AnyIs(latest, ChangesRequested)
    {
      LatestIsLast(reviews, who);
    }
  }

  lemma EveryCheckPassed(checks: seq<CheckRun>)
    ensures AnyCompleted(checks) && !AnyFailing(checks) && !AnyPending(checks) <==>
            checks != [] && forall c :: c in checks ==> c.completed && PassingConclusion(c.conclusion)
  {
    if checks != [] {
      assert checks[0] in checks;
    }
  }

  /** All gates, spelled out. */
  lemma GatesSpelledOut(input: Input, age: real)
    ensures AllGatesPass(input, age) <==>
            && age >= MIN_OPEN_HOURS && !input.pr.draft && input.pr.mergeable == Some(true)
            && !AnyIs(Latest(input.reviews), ChangesRequested)
            && !AnyFailing(input.checks) && !AnyPending(input.checks)
            && (forall name :: name in input.required ==> GreenCheck(input.checks, name))
            && !UnderHold(input.pr.labels) && input.disturbedBy == {}
  {
    var latest := Latest(input.reviews);
    if AllGatesPass(input, age) {
      assert OpenLongEnough in GATES && NotDraft in GATES && NoConflicts in GATES && NoChangesRequested in GATES
          && ChecksNotFailing in GATES && ChecksComplete in GATES && RequiredChecksGreen in GATES
          && NoHoldLabel in GATES && Undisturbed in GATES;
      assert GatePasses(OpenLongEnough, input, age, latest) && GatePasses(NotDraft, input, age, latest)
          && GatePasses(NoConflicts, input, age, latest) && GatePasses(NoChangesRequested, input, age, latest)
          && GatePasses(ChecksNotFailing, input, age, latest) && GatePasses(ChecksComplete, input, age, latest)
          && GatePasses(RequiredChecksGreen, input, age, latest) && GatePasses(NoHoldLabel, input, age, latest)
          && GatePasses(Undisturbed, input, age, latest);
    }
  }

  lemma SoakSpelledOut(created: int, now: int)
    ensures HoursBetween(created, now) >= MIN_OPEN_HOURS <==> now - created >= 55 * 3600000
  {
    var ms := (now - created) as real;
    assert ms / 3600000.0 >= 55.0 <==> ms >= 198000000.0;
  }

  lemma UndisturbedSpelledOut(edges: seq<DepEdge>, n: Repo, updatedAt: Time, pushedAt: map<Repo, Time>)
    ensures Moved(edges, n, updatedAt, pushedAt) == {} <==>
            forall x :: Disturbs(edges, x, n) ==> !PushedAfter(pushedAt, x, updatedAt)
  {
    forall x | Disturbs(edges, x, n) && PushedAfter(pushedAt, x, updatedAt)
      ensures x in Moved(edges, n, updatedAt, pushedAt)
    {
    }
  }

  /** The merge is warranted exactly when everything was readable and the facts say so. */
  lemma WarrantedOnTheFacts(edges: seq<DepEdge>, pass: Pass, id: PullId, answers: Answers)
    ensures MergeWarranted(edges, pass, id, answers) <==>
            && answers.pull.Some? && answers.reviews.Some? && answers.checks.Some?
            && ReadyOnTheFacts(edges, pass, id, answers.pull.value, answers.reviews.value, answers.checks.value)
  {
    if answers.pull.Some? && answers.reviews.Some? && answers.checks.Some? && answers.pull.value.createdAt.Some? {
      var input := EvidenceInput(edges, pass, id, answers);
      GatesSpelledOut(input, HoursBetween(input.pr.createdAt.value, pass.now));
      SoakSpelledOut(input.pr.createdAt.value, pass.now);
      NobodyRequestsChanges(input.reviews);
      EveryCheckPassed(input.checks);
      UndisturbedSpelledOut(edges, id.repo, input.pr.updatedAt, pass.pushedAt);
    }
  }

  /** Nothing is merged while a repository that disturbs it was pushed after the pull request moved. */
  lemma NeverMergesWhileDisturbed(edges: seq<DepEdge>, pass: Pass, id: PullId, answers: Answers, x: Repo)
    requires answers.pull.Some?
    requires Disturbs(edges, x, id.repo) && PushedAfter(pass.pushedAt, x, answers.pull.value.updatedAt)
    ensures MergeCall(id) !in TurnOf(edges, pass, id, answers).trace
  {
    MergeCallExactly(edges, pass, id, answers);
    assert x in Moved(edges, id.repo, answers.pull.value.updatedAt, pass.pushedAt);
    if MergeWarranted(edges, pass, id, answers) {
      RecheckNeverFires(edges, pass, id, answers);
      assert false;
    }
  }

  /** Comments, pending reviews and the order of different people's reviews change nothing the pass does. */
  lemma TurnDependsOnVerdictsOnly(edges: seq<DepEdge>, pass: Pass, id: PullId, answers: Answers,
                                  a: seq<Review>, r: Review, s: Review, b: seq<Review>)
    ensures !Counts(r) ==>
      TurnOf(edges, pass, id, answers.(reviews := Some(a + [r] + b)))
      == TurnOf(edges, pass, id, answers.(reviews := Some(a + b)))
    ensures r.who != s.who ==>
      TurnOf(edges, pass, id, answers.(reviews := Some(a + [r, s] + b)))
      == TurnOf(edges, pass, id, answers.(reviews := Some(a + [s, r] + b)))
  {
    if answers.pull.Some? && answers.checks.Some? {
      var input := EvidenceInput(edges, pass, id, answers.(reviews := Some([])));
      if !Counts(r) {
        InsertedCommentIgnored(input, a, r, b);
        SameVerdictSameTurn(edges, pass, id, answers, a + [r] + b, a + b, input);
      }
      if r.who != s.who {
        SwappedReviewersIgnored(input, a, r, s, b);
        SameVerdictSameTurn(edges, pass, id, answers, a + [r, s] + b, a + [s, r] + b, input);
      }
    }
  }

  lemma SameVerdictSameTurn(edges: seq<DepEdge>, pass: Pass, id: PullId, answers: Answers,
                            a: seq<Review>, b: seq<Review>, input: Input)
    requires answers.pull.Some? && answers.checks.Some?
    requires input == EvidenceInput(edges, pass, id, answers.(reviews := Some([])))
    requires Evaluated(input.(reviews := a)) == Evaluated(input.(reviews := b))
    ensures TurnOf(edges, pass, id, answers.(reviews := Some(a)))
         == TurnOf(edges, pass, id, answers.(reviews := Some(b)))
  {
  }

  // ---- pull requests that are left alone ----

  /** A draft, a pull request under a hold label, and any pull request in a dry run see no call at all. */
  lemma ProtectedSeesNoCall(edges: seq<DepEdge>, pass: Pass, id: PullId, answers: Answers)
    requires pass.dryRun || (answers.pull.Some? && (answers.pull.value.draft || UnderHold(answers.pull.value.labels)))
    ensures TurnOf(edges, pass, id, answers).trace == []
  {
    var a := Assess(edges, pass, id, answers);
    if !pass.dryRun && a.Ok? {
      var input := EvidenceInput(edges, pass, id, answers);
      var age := HoursBetween(input.pr.createdAt.value, pass.now);
      var blockedBy := BlockedBy(input, age, Latest(input.reviews));
      assert NotDraft in GATES && NoHoldLabel in GATES;
      assert NotDraft in blockedBy || NoHoldLabel in blockedBy;
      assert a.value.readiness.recommendation == RecommendHold;
    }
  }

  // ---- what is reported as failed, and what rejects the whole pass ----

  /** The turn ends in `escalate`. */
  ghost predicate Escalates(a: Assessment, pass: Pass, answers: Answers) {
    a.readiness.recommendation == RecommendEscalate
    || (a.readiness.recommendation == RecommendUpdate && !pass.dryRun && answers.update.UpdateRefused?)
  }

  /** A turn is reported as failed exactly when the merge or update call it issued threw. */
  lemma FailedExactly(edges: seq<DepEdge>, pass: Pass, id: PullId, answers: Answers)
    ensures var turn := TurnOf(edges, pass, id, answers);
            turn.result.Ok? && turn.result.value.action == Failed
            <==> (MergeCall(id) in turn.trace && !answers.merge)
                 || (UpdateCall(id) in turn.trace && answers.update.UpdateThrew?)
  {
  }

  /** A failure inside `escalate` is not turned into a failed outcome; it rejects, as unreadable evidence
      does, and nothing else rejects. */
  lemma RejectedExactly(edges: seq<DepEdge>, pass: Pass, id: PullId, answers: Answers)
    ensures var a := Assess(edges, pass, id, answers);
            var turn := TurnOf(edges, pass, id, answers);
            turn.result.Err? <==>
              a.Err?
              || (Escalates(a.value, pass, answers)
                  && (!answers.files
                      || (!pass.dryRun && !Flagged(a.value.pr) && (!answers.addLabels || !answers.comment))))
  {
  }

  /** A conflict on a pull request that is neither a draft nor held always goes to `escalate`. */
  lemma ConflictEscalates(edges: seq<DepEdge>, pass: Pass, id: PullId, answers: Answers)
    ensures var a := Assess(edges, pass, id, answers);
            a.Ok? ==> (a.value.readiness.recommendation == RecommendEscalate <==>
                       !a.value.pr.draft && !UnderHold(a.value.pr.labels) && a.value.pr.mergeable != Some(true))
  {
    var a := Assess(edges, pass, id, answers);
    if a.Ok? {
      var input := EvidenceInput(edges, pass, id, answers);
      var age := HoursBetween(input.pr.createdAt.value, pass.now);
      var latest := Latest(input.reviews);
      assert NotDraft in GATES && NoHoldLabel in GATES && NoConflicts in GATES;
      assert NotDraft in BlockedBy(input, age, latest) <==> input.pr.draft;
      assert NoHoldLabel in BlockedBy(input, age, latest) <==> UnderHold(input.pr.labels);
      assert NoConflicts in BlockedBy(input, age, latest) <==> input.pr.mergeable != Some(true);
    }
  }

  /** The branch is to be brought up to date: nobody protects it, nothing conflicts, and either a
      disturbing repository moved or GitHub says the branch is behind. */
  ghost predicate NeedsUpdate(a: Assessment) {
    !a.pr.draft && !UnderHold(a.pr.labels) && a.pr.mergeable == Some(true)
    && (a.moved != {} || a.pr.mergeableState == Some("behind"))
  }

  lemma UpdateRecommendedExactly(edges: seq<DepEdge>, pass: Pass, id: PullId, answers: Answers)
    ensures var a := Assess(edges, pass, id, answers);
            a.Ok? ==> (a.value.readiness.recommendation == RecommendUpdate <==> NeedsUpdate(a.value))
  {
    var a := Assess(edges, pass, id, answers);
    if a.Ok? {
      var input := EvidenceInput(edges, pass, id, answers);
      var age := HoursBetween(input.pr.createdAt.value, pass.now);
      var latest := Latest(input.reviews);
      var blockedBy := BlockedBy(input, age, latest);
      var approved := input.pr.author.Some? && IndependentlyApproved(latest, input.pr.author.value);
      var clean := input.pr.mergeableState == Some("clean");
      assert NotDraft in GATES && NoHoldLabel in GATES && NoConflicts in GATES && Undisturbed in GATES;
      assert NotDraft in blockedBy <==> input.pr.draft;
      assert NoHoldLabel in blockedBy <==> UnderHold(input.pr.labels);
      assert NoConflicts in blockedBy <==> input.pr.mergeable != Some(true);
      assert Undisturbed in blockedBy <==> input.disturbedBy != {};
      ProductClearsOnlyWhenComplete(approved, AnyCompleted(input.checks), clean);
      assert "clean"[0] != "behind"[0];
    }
  }

  /** The branch update is attempted exactly in apply mode on a branch that needs it. */
  lemma UpdateCallExactly(edges: seq<DepEdge>, pass: Pass, id: PullId, answers: Answers)
    ensures var a := Assess(edges, pass, id, answers);
            UpdateCall(id) in TurnOf(edges, pass, id, answers).trace
            <==> !pass.dryRun && a.Ok? && NeedsUpdate(a.value)
  {
    UpdateRecommendedExactly(edges, pass, id, answers);
    var a := Assess(edges, pass, id, answers);
    if a.Ok? {
      assert a.value.id == id;
    }
  }

  lemma LabelWritten(a: Assessment, pass: Pass, answers: Answers)
    ensures LabelCall(a.id) in ActTurn(a, pass, answers).trace
            <==> Escalates(a, pass, answers) && !pass.dryRun && answers.files && !Flagged(a.pr)
  {
  }

  lemma TurnActs(edges: seq<DepEdge>, pass: Pass, id: PullId, answers: Answers, a: Assessment)
    requires Assess(edges, pass, id, answers) == Ok(a)
    ensures a.id == id && TurnOf(edges, pass, id, answers) == ActTurn(a, pass, answers)
  {
  }

  /** The conflict label is put on exactly in apply mode, on an unlabelled pull request whose files could
      be read, for a conflict or for a branch update that GitHub refused. */
  lemma LabelCallExactly(edges: seq<DepEdge>, pass: Pass, id: PullId, answers: Answers)
    ensures var a := Assess(edges, pass, id, answers);
            LabelCall(id) in TurnOf(edges, pass, id, answers).trace
            <==> !pass.dryRun && a.Ok? && answers.files && !Flagged(a.value.pr)
                 && !a.value.pr.draft && !UnderHold(a.value.pr.labels)
                 && (a.value.pr.mergeable != Some(true) || (NeedsUpdate(a.value) && answers.update.UpdateRefused?))
  {
    var r := Assess(edges, pass, id, answers);
    if r.Err? {
      assert TurnOf(edges, pass, id, answers).trace == [];
    } else {
      var a := r.value;
      TurnActs(edges, pass, id, answers, a);
      LabelWritten(a, pass, answers);
      assert a.readiness.recommendation == RecommendUpdate <==> NeedsUpdate(a) by {
        UpdateRecommendedExactly(edges, pass, id, answers);
      }
      assert a.readiness.recommendation == RecommendEscalate <==>
             !a.pr.draft && !UnderHold(a.pr.labels) && a.pr.mergeable != Some(true) by {
        ConflictEscalates(edges, pass, id, answers);
      }
    }
  }

  /** One unreadable conflict file list loses the report of a pass, whatever was merged before it. */
  lemma UnreadableFilesRejectThePass(edges: seq<DepEdge>, pass: Pass, before: seq<(PullId, Answers)>,
                                     id: PullId, answers: Answers, later: seq<(PullId, Answers)>)
    requires Visited(edges, pass, before).result.Ok?
    requires Assess(edges, pass, id, answers).Ok?
    requires Escalates(Assess(edges, pass, id, answers).value, pass, answers) && !answers.files
    ensures Visited(edges, pass, before + [(id, answers)] + later).result == Err(FilesUnreadable)
  {
    var upTo := before + [(id, answers)];
    assert upTo[..|upTo| - 1] == before;
    RejectionStopsThePass(edges, pass, upTo, later);
  }

  // ---- one dossier per conflict ----

  /** One night: the pass, what GitHub answers, and whether the label is on when the pull request is read. */
  datatype Night = Night(pass: Pass, answers: Answers, labelled: bool)

  ghost function NightTrace(edges: seq<DepEdge>, id: PullId, night: Night): seq<Effect> {
    TurnOf(edges, night.pass, id, night.answers).trace
  }

  /** What is read is what is there; what is put on stays on. */
  ghost predicate LabelStays(edges: seq<DepEdge>, id: PullId, nights: seq<Night>) {
    && (forall i :: 0 <= i < |nights| && nights[i].answers.pull.Some? ==>
          (Flagged(nights[i].answers.pull.value) <==> nights[i].labelled))
    && (forall i, j :: 0 <= i < j < |nights| && nights[i].labelled ==> nights[j].labelled)
    && (forall i, j ::
          0 <= i < j < |nights| && nights[i].answers.addLabels && LabelCall(id) in NightTrace(edges, id, nights[i])
          ==> nights[j].labelled)
  }

  /** A comment is attempted only on an unlabelled pull request, and only once the label is on. */
  lemma CommentFollowsLabel(edges: seq<DepEdge>, id: PullId, night: Night)
    requires CommentCall(id) in NightTrace(edges, id, night)
    ensures night.answers.pull.Some? && !Flagged(night.answers.pull.value)
    ensures night.answers.addLabels && LabelCall(id) in NightTrace(edges, id, night)
  {
  }

  /** Over any number of nights at most one dossier comment is attempted, whichever calls fail. */
  lemma OneDossier(edges: seq<DepEdge>, id: PullId, nights: seq<Night>, i: nat, j: nat)
    requires LabelStays(edges, id, nights)
    requires i < |nights| && CommentCall(id) in NightTrace(edges, id, nights[i])
    requires j < |nights| && CommentCall(id) in NightTrace(edges, id, nights[j])
    ensures i == j
    ensures multiset(NightTrace(edges, id, nights[i]))[CommentCall(id)] == 1
  {
    CommentFollowsLabel(edges, id, nights[i]);
    CommentFollowsLabel(edges, id, nights[j]);
    OneCommentANight(edges, id, nights[i]);
  }

  lemma OneCommentANight(edges: seq<DepEdge>, id: PullId, night: Night)
    ensures multiset(NightTrace(edges, id, night))[CommentCall(id)] <= 1
  {
  }

  // ---- what a report can claim ----

  predicate Claims(outcome: Outcome, dryRun: bool) {
    outcome.action == Merged ==>
      !dryRun && outcome.hoursOpen >= MIN_OPEN_HOURS
      && outcome.confidence > MERGE_CONFIDENCE_THRESHOLD && outcome.disturbedBy == {}
  }

  lemma RoundingKeepsTheFloor(age: real)
    requires age >= MIN_OPEN_HOURS
    ensures Hundredths(age) >= MIN_OPEN_HOURS
  {
  }

  lemma TurnClaims(edges: seq<DepEdge>, pass: Pass, id: PullId, answers: Answers)
    ensures var r := TurnOf(edges, pass, id, answers).result; r.Ok? ==> Claims(r.value, pass.dryRun)
  {
    var r := TurnOf(edges, pass, id, answers).result;
    if r.Ok? && r.value.action == Merged {
      MergeRecommendedWhenWarranted(edges, pass, id, answers);
      RecheckNeverFires(edges, pass, id, answers);
      RoundingKeepsTheFloor(Assess(edges, pass, id, answers).value.age);
    }
  }

  ghost predicate AllClaim(outcomes: seq<Outcome>, dryRun: bool) {
    forall o :: o in outcomes ==> Claims(o, dryRun)
  }

  lemma {:induction false} PassClaims(edges: seq<DepEdge>, pass: Pass, visits: seq<(PullId, Answers)>)
    ensures Visited(edges, pass, visits).result.Ok? ==> AllClaim(Visited(edges, pass, visits).result.value, pass.dryRun)
    decreases |visits|
  {
    if visits != [] {
      var n := |visits| - 1;
      PassClaims(edges, pass, visits[..n]);
      TurnClaims(edges, pass, visits[n].0, visits[n].1);
    }
  }
}
