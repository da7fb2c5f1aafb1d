/** Gates and signals: whether a pull request is ready for an unattended merge (src/readiness.ts). */
module Readiness {
  import opened Wrappers
  import DepGraph
  import JsText

  datatype ReviewState = Approved | ChangesRequested | Commented | Dismissed | Pending

  /** `who` is the reviewer's login; reviews without one, or with an empty one, do not count. */
  datatype Review = Review(state: ReviewState, who: Option<string>)

  datatype CheckRun = CheckRun(name: string, completed: bool, conclusion: Option<string>)

  datatype PullRequest = PullRequest(
    createdAt: DepGraph.Time,
    updatedAt: DepGraph.Time,
    draft: bool,
    mergeable: Option<bool>,
    mergeableState: Option<string>,
    labels: seq<string>,
    author: Option<string>)

  datatype Input = Input(
    pr: PullRequest,
    reviews: seq<Review>,
    checks: seq<CheckRun>,
    now: int,
    disturbedBy: set<string>,
    required: seq<string>)

  datatype Gate =
    | OpenLongEnough | NotDraft | NoConflicts | NoChangesRequested | ChecksNotFailing
    | ChecksComplete | RequiredChecksGreen | NoHoldLabel | Undisturbed

  datatype Recommendation = RecommendMerge | RecommendUpdate | RecommendHold | RecommendEscalate

  datatype Readiness = Readiness(blockedBy: set<Gate>, confidence: real, mergeable: bool, recommendation: Recommendation)

  /** The two ways `evaluate` throws. */
  datatype EvaluationError = UnparseableCreatedAt | UnknownAuthor

  const MIN_OPEN_HOURS := 55.0
  const MERGE_CONFIDENCE_THRESHOLD := 0.995

  predicate ConfidenceClearsExclusiveThreshold(confidence: real) {
    confidence > MERGE_CONFIDENCE_THRESHOLD
  }

  function HoursBetween(created: int, now: int): real {
    (now - created) as real / 3600000.0
  }

  // ---- reviews ----

  predicate Counts(r: Review) {
    !r.state.Commented? && !r.state.Pending? && r.who.Some? && r.who.value != ""
  }

  /** The last counting review of each reviewer. */
  function Latest(reviews: seq<Review>): map<string, ReviewState>
    decreases |reviews|
  {
    if reviews == [] then map[]
    else
      var before := Latest(reviews[..|reviews| - 1]);
      var r := reviews[|reviews| - 1];
      if Counts(r) then before[r.who.value := r.state] else before
  }

  method LatestByReviewer(reviews: seq<Review>) returns (latest: map<string, ReviewState>)
    ensures latest == Latest(reviews)
  {
    latest := map[];
    for i := 0 to |reviews|
      invariant latest == Latest(reviews[..i])
    {
      var r := reviews[i];
      assert reviews[..i + 1][..i] == reviews[..i];
      if r.state.Commented? || r.state.Pending? {
        continue;
      }
      if r.who.None? || r.who.value == "" {
        continue;
      }
      latest := latest[r.who.value := r.state];
    }
    assert reviews[..|reviews|] == reviews;
  }

  /** Some reviewer other than the author last approved. */
  predicate IndependentlyApproved(latest: map<string, ReviewState>, author: string) {
    exists who :: who in latest && latest[who].Approved? && who != author
  }

  predicate AnyIs(latest: map<string, ReviewState>, state: ReviewState) {
    exists who :: who in latest && latest[who] == state
  }

  // ---- checks ----

  predicate AnyCompleted(checks: seq<CheckRun>) {
    exists c :: c in checks && c.completed
  }

  predicate AnyFailing(checks: seq<CheckRun>) {
    exists c :: c in checks && c.completed && c.conclusion.Some?
      && c.conclusion.value != "success" && c.conclusion.value != "neutral" && c.conclusion.value != "skipped"
  }

  predicate AnyPending(checks: seq<CheckRun>) {
    exists c :: c in checks && !c.completed
  }

  predicate GreenCheck(checks: seq<CheckRun>, name: string) {
    exists c :: c in checks && c.completed && c.name == name && c.conclusion == Some("success")
  }

  // ---- labels ----

  predicate HoldLabel(name: string) {
    var l := JsText.LowerAscii(name);
    l == "do-not-merge" || l == "hold" || l == "wip" || l == "blocked"
  }

  predicate UnderHold(labels: seq<string>) {
    exists l :: l in labels && HoldLabel(l)
  }

  // ---- evaluation ----

  predicate GatePasses(gate: Gate, input: Input, age: real, latest: map<string, ReviewState>) {
    match gate
    case OpenLongEnough => age >= MIN_OPEN_HOURS
    case NotDraft => !input.pr.draft
    case NoConflicts => input.pr.mergeable == Some(true)
    case NoChangesRequested => !AnyIs(latest, ChangesRequested)
    case ChecksNotFailing => !AnyFailing(input.checks)
    case ChecksComplete => !AnyPending(input.checks)
    case RequiredChecksGreen => forall name :: name in input.required ==> GreenCheck(input.checks, name)
    case NoHoldLabel => !UnderHold(input.pr.labels)
    case Undisturbed => input.disturbedBy == {}
  }

  const GATES: set<Gate> := {OpenLongEnough, NotDraft, NoConflicts, NoChangesRequested, ChecksNotFailing,
                             ChecksComplete, RequiredChecksGreen, NoHoldLabel, Undisturbed}

  function BlockedBy(input: Input, age: real, latest: map<string, ReviewState>): set<Gate> {
    set g | g in GATES && !GatePasses(g, input, age, latest)
  }

  /** The product of the three signals; absent evidence lowers it. */
  function Confidence(approved: bool, covered: bool, clean: bool): real {
    (if approved then 1.0 else 0.9) * (if covered then 1.0 else 0.7) * (if clean then 1.0 else 0.9)
  }

  function Recommend(input: Input, blockedBy: set<Gate>, mergeable: bool): Recommendation {
    if mergeable then RecommendMerge
    else if NotDraft in blockedBy || NoHoldLabel in blockedBy then RecommendHold
    else if NoConflicts in blockedBy then RecommendEscalate
    else if Undisturbed in blockedBy || input.pr.mergeableState == Some("behind") then RecommendUpdate
    else RecommendHold
  }

  /** The result for given ages, verdicts and author. */
  function Judge(input: Input, age: real, latest: map<string, ReviewState>, approved: bool): Readiness {
    var blockedBy := BlockedBy(input, age, latest);
    var confidence :=
      if blockedBy != {} then 0.0
      else Confidence(approved, AnyCompleted(input.checks), input.pr.mergeableState == Some("clean"));
    var mergeable := blockedBy == {} && ConfidenceClearsExclusiveThreshold(confidence);
    Readiness(blockedBy, confidence, mergeable, Recommend(input, blockedBy, mergeable))
  }

  /** `evaluate`. Reading the author's login throws for a deleted author, but only once some verdict is
      an approval. */
  function Evaluated(input: Input): Result<Readiness, EvaluationError> {
    if input.pr.createdAt.None? then Err(UnparseableCreatedAt)
    else
      var latest := Latest(input.reviews);
      if input.pr.author.None? && AnyIs(latest, Approved) then Err(UnknownAuthor)
      else
        var approved := input.pr.author.Some? && IndependentlyApproved(latest, input.pr.author.value);
        Ok(Judge(input, HoursBetween(input.pr.createdAt.value, input.now), latest, approved))
  }

  method Evaluate(input: Input) returns (r: Result<Readiness, EvaluationError>)
    ensures r == Evaluated(input)
  {
    if input.pr.createdAt.None? {
      return Err(UnparseableCreatedAt);
    }
    var age := HoursBetween(input.pr.createdAt.value, input.now);
    var latest := LatestByReviewer(input.reviews);
    if input.pr.author.None? && AnyIs(latest, Approved) {
      return Err(UnknownAuthor);
    }
    var approved := input.pr.author.Some? && IndependentlyApproved(latest, input.pr.author.value);
    var blockedBy := BlockedBy(input, age, latest);
    var confidence := 0.0;
    if blockedBy == {} {
      confidence := Confidence(approved, AnyCompleted(input.checks), input.pr.mergeableState == Some("clean"));
    }
    var mergeable := blockedBy == {} && ConfidenceClearsExclusiveThreshold(confidence);
    var recommendation;
    if mergeable {
      recommendation := RecommendMerge;
    } else if NotDraft in blockedBy || NoHoldLabel in blockedBy {
      recommendation := RecommendHold;
    } else if NoConflicts in blockedBy {
      recommendation := RecommendEscalate;
    } else if Undisturbed in blockedBy || input.pr.mergeableState == Some("behind") {
      recommendation := RecommendUpdate;
    } else {
      recommendation := RecommendHold;
    }
    r := Ok(Readiness(blockedBy, confidence, mergeable, recommendation));
  }

  // ---- what a recommendation to merge means ----

  lemma ProductClearsOnlyWhenComplete(approved: bool, covered: bool, clean: bool)
    ensures ConfidenceClearsExclusiveThreshold(Confidence(approved, covered, clean)) <==> approved && covered && clean
  {
  }

  /** At position `k` stands the last counting review of this reviewer. */
  predicate LastReview(reviews: seq<Review>, who: string, k: int) {
    0 <= k < |reviews| && Counts(reviews[k]) && reviews[k].who == Some(who)
    && forall m :: k < m < |reviews| && Counts(reviews[m]) ==> reviews[m].who != Some(who)
  }

  lemma {:induction false} LatestIsLast(reviews: seq<Review>, who: string)
    ensures who in Latest(reviews) <==> exists k :: LastReview(reviews, who, k)
    ensures forall k :: LastReview(reviews, who, k) ==> who in Latest(reviews) && Latest(reviews)[who] == reviews[k].state
    decreases |reviews|
  {
    if reviews != [] {
      var n := |reviews| - 1;
      var front := reviews[..n];
      LatestIsLast(front, who);
      if Counts(reviews[n]) && reviews[n].who == Some(who) {
        assert LastReview(reviews, who, n);
      } else {
        assert forall k :: LastReview(reviews, who, k) <==> LastReview(front, who, k);
      }
    }
  }

  /** Some reviewer other than the author: their last review that is not a comment or pending approves. */
  ghost predicate LastWordIsIndependentApproval(reviews: seq<Review>, author: string) {
    exists who, k :: LastReview(reviews, who, k) && reviews[k].state.Approved? && who != author
  }

  lemma IndependentApprovalExact(reviews: seq<Review>, author: string)
    ensures IndependentlyApproved(Latest(reviews), author) <==> LastWordIsIndependentApproval(reviews, author)
  {
    var latest := Latest(reviews);
    if IndependentlyApproved(latest, author) {
      var who :| who in latest && latest[who].Approved? && who != author;
      LatestIsLast(reviews, who);
      var k :| LastReview(reviews, who, k);
    }
    if LastWordIsIndependentApproval(reviews, author) {
      var who, k :| LastReview(reviews, who, k) && reviews[k].state.Approved? && who != author;
      LatestIsLast(reviews, who);
    }
  }

  /** Every gate passes. */
  predicate AllGatesPass(input: Input, age: real) {
    forall g :: g in GATES ==> GatePasses(g, input, age, Latest(input.reviews))
  }

  /** A merge is recommended exactly when every gate passes and no evidence is missing: an independent
      last-word approval, a completed check, a clean merge state. No other product of signals exceeds
      the threshold. */
  lemma MergeRecommendedExactly(input: Input)
    requires input.pr.createdAt.Some? && input.pr.author.Some?
    ensures Evaluated(input).Ok?
    ensures Evaluated(input).value.recommendation == RecommendMerge <==>
            AllGatesPass(input, HoursBetween(input.pr.createdAt.value, input.now))
            && LastWordIsIndependentApproval(input.reviews, input.pr.author.value)
            && AnyCompleted(input.checks) && input.pr.mergeableState == Some("clean")
  {
    var latest := Latest(input.reviews);
    var age := HoursBetween(input.pr.createdAt.value, input.now);
    var approved := IndependentlyApproved(latest, input.pr.author.value);
    IndependentApprovalExact(input.reviews, input.pr.author.value);
    ProductClearsOnlyWhenComplete(approved, AnyCompleted(input.checks), input.pr.mergeableState == Some("clean"));
    assert BlockedBy(input, age, latest) == {} <==> AllGatesPass(input, age) by {
      if !AllGatesPass(input, age) {
        var g :| g in GATES && !GatePasses(g, input, age, latest);
        assert g in BlockedBy(input, age, latest);
      }
    }
  }

  // ---- the decision does not depend on comments or on the order of different reviewers ----

  lemma {:induction false} LatestAppend(a: seq<Review>, b: seq<Review>)
    ensures Latest(a + b) == Latest(a) + Latest(b)
    decreases |b|
  {
    if b == [] {
      assert a + b == a;
    } else {
      var n := |b| - 1;
      assert (a + b)[..|a + b| - 1] == a + b[..n];
      LatestAppend(a, b[..n]);
    }
  }

  lemma LatestOne(r: Review)
    ensures Latest([r]) == if Counts(r) then map[r.who.value := r.state] else map[]
  {
  }

  /** Inserting a comment, a pending review or an anonymous one anywhere changes nothing. */
  lemma InsertedCommentIgnored(input: Input, a: seq<Review>, r: Review, b: seq<Review>)
    requires !Counts(r)
    ensures Evaluated(input.(reviews := a + [r] + b)) == Evaluated(input.(reviews := a + b))
  {
    LatestOne(r);
    LatestAppend(a, [r]);
    LatestAppend(a + [r], b);
    LatestAppend(a, b);
    assert Latest(a) + map[] == Latest(a);
    SameLatestSameResult(input, a + [r] + b, a + b);
  }

  /** Swapping adjacent reviews of different people changes nothing. */
  lemma SwappedReviewersIgnored(input: Input, a: seq<Review>, r: Review, s: Review, b: seq<Review>)
    requires r.who != s.who
    ensures Evaluated(input.(reviews := a + [r, s] + b)) == Evaluated(input.(reviews := a + [s, r] + b))
  {
    LatestOne(r);
    LatestOne(s);
    assert [r, s] == [r] + [s] && [s, r] == [s] + [r];
    LatestAppend([r], [s]);
    LatestAppend([s], [r]);
    assert Latest([r, s]) == Latest([s, r]);
    LatestAppend(a, [r, s]);
    LatestAppend(a + [r, s], b);
    LatestAppend(a, [s, r]);
    LatestAppend(a + [s, r], b);
    SameLatestSameResult(input, a + [r, s] + b, a + [s, r] + b);
  }

  lemma SameLatestSameResult(input: Input, a: seq<Review>, b: seq<Review>)
    requires Latest(a) == Latest(b)
    ensures Evaluated(input.(reviews := a)) == Evaluated(input.(reviews := b))
  {
    if input.pr.createdAt.Some? {
      var age := HoursBetween(input.pr.createdAt.value, input.now);
      var l := Latest(a);
      assert forall g :: GatePasses(g, input.(reviews := a), age, l) == GatePasses(g, input.(reviews := b), age, l);
      assert BlockedBy(input.(reviews := a), age, l) == BlockedBy(input.(reviews := b), age, l);
    }
  }
}
