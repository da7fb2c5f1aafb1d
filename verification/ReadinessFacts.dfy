/** What the evaluation of a pull request concludes, in terms of what GitHub answered about it. */
module ReadinessFacts {
  import opened Wrappers
  import opened Readiness
  import JsText

  // ---- the facts ----

  /** An approval, a request for changes or a dismissal by this person. */
  predicate Word(r: Review, who: string) {
    r.who == Some(who) && who != "" && (r.state.Approved? || r.state.ChangesRequested? || r.state.Dismissed?)
  }

  /** At position `k` stands the last such word of this person. */
  predicate LastWord(reviews: seq<Review>, who: string, k: int) {
    0 <= k < |reviews| && Word(reviews[k], who) && forall m :: k < m < |reviews| ==> !Word(reviews[m], who)
  }

  ghost predicate Approves(reviews: seq<Review>, who: string) {
    exists k :: LastWord(reviews, who, k) && reviews[k].state.Approved?
  }

  ghost predicate Objects(reviews: seq<Review>, who: string) {
    exists k :: LastWord(reviews, who, k) && reviews[k].state.ChangesRequested?
  }

  /** Someone other than the author approves. */
  ghost predicate ApprovedByOther(reviews: seq<Review>, author: Option<string>) {
    author.Some? && exists who :: who != author.value && Approves(reviews, who)
  }

  /** One of the four labels that take a pull request out of automation, in any case. */
  predicate Withheld(labels: seq<string>) {
    exists l :: l in labels
      && (JsText.LowerAscii(l) == "do-not-merge" || JsText.LowerAscii(l) == "hold"
          || JsText.LowerAscii(l) == "wip" || JsText.LowerAscii(l) == "blocked")
  }

  predicate NotBad(conclusion: Option<string>) {
    conclusion.None? || conclusion.value == "success" || conclusion.value == "neutral" || conclusion.value == "skipped"
  }

  /** The gate is open. */
  ghost predicate Open(gate: Gate, input: Input)
    requires input.pr.createdAt.Some?
  {
    match gate
    case OpenLongEnough => input.now - input.pr.createdAt.value >= 55 * 60 * 60 * 1000
    case NotDraft => !input.pr.draft
    case NoConflicts => input.pr.mergeable == Some(true)
    case NoChangesRequested => forall who :: !Objects(input.reviews, who)
    case ChecksNotFailing => forall c :: c in input.checks && c.completed ==> NotBad(c.conclusion)
    case ChecksComplete => forall c :: c in input.checks ==> c.completed
    case RequiredChecksGreen =>
      forall name :: name in input.required ==>
        exists c :: c in input.checks && c.completed && c.name == name && c.conclusion == Some("success")
    case NoHoldLabel => !Withheld(input.pr.labels)
    case Undisturbed => input.disturbedBy == {}
  }

  ghost predicate AllOpen(input: Input)
    requires input.pr.createdAt.Some?
  {
    forall gate :: Open(gate, input)
  }

  // ---- the functions agree with the facts ----

  lemma LastWordIsLastReview(reviews: seq<Review>, who: string, k: int)
    ensures LastWord(reviews, who, k) <==> LastReview(reviews, who, k)
  {
    forall m | 0 <= m < |reviews|
      ensures Word(reviews[m], who) <==> Counts(reviews[m]) && reviews[m].who == Some(who)
    {
    }
  }

  lemma VerdictOf(reviews: seq<Review>, who: string)
    ensures who in Latest(reviews) && Latest(reviews)[who] == ReviewState.Approved <==> Approves(reviews, who)
    ensures who in Latest(reviews) && Latest(reviews)[who] == ChangesRequested <==> Objects(reviews, who)
  {
    LatestIsLast(reviews, who);
    forall k
      ensures LastWord(reviews, who, k) <==> LastReview(reviews, who, k)
    {
      LastWordIsLastReview(reviews, who, k);
    }
    if who in Latest(reviews) {
      var k :| LastReview(reviews, who, k);
      assert LastWord(reviews, who, k) && Latest(reviews)[who] == reviews[k].state;
    }
  }

  lemma ReviewsRead(reviews: seq<Review>, author: Option<string>)
    ensures AnyIs(Latest(reviews), ReviewState.Approved) <==> exists who :: Approves(reviews, who)
    ensures AnyIs(Latest(reviews), ChangesRequested) <==> exists who :: Objects(reviews, who)
    ensures author.Some? && IndependentlyApproved(Latest(reviews), author.value) <==> ApprovedByOther(reviews, author)
  {
    forall who
      ensures who in Latest(reviews) && Latest(reviews)[who] == ReviewState.Approved <==> Approves(reviews, who)
      ensures who in Latest(reviews) && Latest(reviews)[who] == ChangesRequested <==> Objects(reviews, who)
    {
      VerdictOf(reviews, who);
    }
  }

  lemma GateExactly(gate: Gate, input: Input)
    requires input.pr.createdAt.Some?
    ensures gate in BlockedBy(input, HoursBetween(input.pr.createdAt.value, input.now), Latest(input.reviews))
            <==> !Open(gate, input)
  {
    var age := HoursBetween(input.pr.createdAt.value, input.now);
    assert gate in GATES;
    match gate {
      case OpenLongEnough => SoakExactly(input.pr.createdAt.value, input.now);
      case NoChangesRequested => ReviewsRead(input.reviews, None);
      case NoHoldLabel => assert UnderHold(input.pr.labels) <==> Withheld(input.pr.labels);
      case _ =>
    }
  }

  lemma SoakExactly(created: int, now: int)
    ensures HoursBetween(created, now) >= MIN_OPEN_HOURS <==> now - created >= 55 * 60 * 60 * 1000
  {
    var ms := (now - created) as real;
    assert ms / 3600000.0 >= 55.0 <==> ms >= 198000000.0;
  }

  /** The product of the signals: 1, or 0.9, 0.7 and 0.9 for what is missing. */
  function Product(approved: bool, covered: bool, clean: bool): real {
    if approved && covered && clean then 1.0
    else if covered then (if approved || clean then 0.9 else 0.81)
    else if approved && clean then 0.7
    else if approved || clean then 0.63
    else 0.567
  }

  lemma ProductExactly(approved: bool, covered: bool, clean: bool)
    ensures Confidence(approved, covered, clean) == Product(approved, covered, clean)
    ensures Product(approved, covered, clean) > 0.995 <==> approved && covered && clean
  {
  }

  /** Evaluation throws exactly for a creation time that does not parse, or an approval when the author is gone. */
  lemma EvaluationThrows(input: Input)
    ensures Evaluated(input) == Err(UnparseableCreatedAt) <==> input.pr.createdAt.None?
    ensures Evaluated(input) == Err(UnknownAuthor) <==>
            input.pr.createdAt.Some? && input.pr.author.None? && exists who :: Approves(input.reviews, who)
    ensures Evaluated(input).Ok? <==>
            input.pr.createdAt.Some? && (input.pr.author.Some? || forall who :: !Approves(input.reviews, who))
  {
    ReviewsRead(input.reviews, input.pr.author);
  }

  /** The threshold is exclusive, for every confidence. */
  lemma ThresholdExactly(confidence: real)
    ensures ConfidenceClearsExclusiveThreshold(confidence) <==> confidence * 1000.0 > 995.0
  {
  }

  /** Everything the evaluation concludes: the closed gates, the confidence, and what it recommends. */
  lemma EvaluationOnTheFacts(input: Input)
    requires Evaluated(input).Ok?
    ensures input.pr.createdAt.Some?
    ensures var r := Evaluated(input).value;
            var approved, covered := ApprovedByOther(input.reviews, input.pr.author),
                                     exists c :: c in input.checks && c.completed;
            var clean := input.pr.mergeableState == Some("clean");
            && (forall gate :: gate in r.blockedBy <==> !Open(gate, input))
            && r.confidence == (if AllOpen(input) then Product(approved, covered, clean) else 0.0)
            && (r.mergeable <==> AllOpen(input) && approved && covered && clean)
            && r.recommendation ==
               if AllOpen(input) && approved && covered && clean then RecommendMerge
               else if input.pr.draft || Withheld(input.pr.labels) then RecommendHold
               else if input.pr.mergeable != Some(true) then RecommendEscalate
               else if input.disturbedBy != {} || input.pr.mergeableState == Some("behind") then RecommendUpdate
               else RecommendHold
  {
    var age, latest := HoursBetween(input.pr.createdAt.value, input.now), Latest(input.reviews);
    var approved, covered := ApprovedByOther(input.reviews, input.pr.author),
                                     exists c :: c in input.checks && c.completed;
    var clean := input.pr.mergeableState == Some("clean");
    ReviewsRead(input.reviews, input.pr.author);
    var blocked := BlockedBy(input, age, latest);
    assert Evaluated(input).value == Judge(input, age, latest, approved);
    forall gate
      ensures gate in blocked <==> !Open(gate, input)
    {
      GateExactly(gate, input);
    }
    assert blocked == {} <==> AllOpen(input) by {
      if !AllOpen(input) {
        var gate :| !Open(gate, input);
        assert gate in blocked;
      }
    }
    ProductExactly(approved, covered, clean);
    assert NotDraft in blocked <==> input.pr.draft;
    assert NoHoldLabel in blocked <==> Withheld(input.pr.labels);
    assert NoConflicts in blocked <==> input.pr.mergeable != Some(true);
    assert Undisturbed in blocked <==> input.disturbedBy != {};
  }
}
