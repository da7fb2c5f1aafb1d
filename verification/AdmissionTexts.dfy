/** The evidence classifier on the texts that arrive: which words in which fields give which job verdict,
    which outcome and which flags. */
module AdmissionTexts {
  import opened Wrappers
  import opened Admission
  import opened AdmissionLaws
  import JsText

  // ---- the words ----

  /** A string of at most 64 characters that is this word once trimmed and lower-cased. */
  predicate Says(raw: Raw, word: string) {
    raw.Text? && |raw.text| <= 64 && JsText.ToLowerCase(JsText.Trim(raw.text)) == word
  }

  predicate SaysPassing(raw: Raw) {
    Says(raw, "success") || Says(raw, "neutral") || Says(raw, "skipped")
  }

  predicate SaysFailing(raw: Raw) {
    Says(raw, "failure") || Says(raw, "timed_out") || Says(raw, "stale")
  }

  predicate SaysNotAdmitted(raw: Raw) {
    Says(raw, "action_required") || Says(raw, "startup_failure")
  }

  /** Any word that is a conclusion. */
  predicate SaysConclusion(raw: Raw) {
    SaysPassing(raw) || SaysFailing(raw) || SaysNotAdmitted(raw) || Says(raw, "cancelled")
  }

  lemma StatusWords()
    ensures "completed"[0] == 'c' && "queued"[0] == 'q' && "in_progress"[0] == 'i' && "waiting"[0] == 'w'
    ensures "requested"[0] == 'r' && "pending"[0] == 'p'
  {
  }

  lemma ConclusionWords()
    ensures "success"[..2] == "su" && "skipped"[..2] == "sk" && "neutral"[..2] == "ne" && "action_required"[..2] == "ac"
    ensures "startup_failure"[..3] == "sta" && |"startup_failure"| == 15 && |"stale"| == 5 && "stale"[..3] == "sta"
    ensures "failure"[..2] == "fa" && "timed_out"[..2] == "ti" && "cancelled"[..2] == "ca"
  {
  }

  lemma StatusRead(raw: Raw)
    ensures ReadStatus(raw) == Some(Completed) <==> Says(raw, "completed")
    ensures ReadStatus(raw) == Some(InProgress) <==> Says(raw, "in_progress")
  {
    StatusWords();
  }

  lemma PassingRead(raw: Raw)
    ensures SuccessConclusion(ReadConclusion(raw)) <==> SaysPassing(raw)
  {
    ConclusionWords();
  }

  lemma SuccessRead(raw: Raw)
    ensures ReadConclusion(raw) == Some(Success) <==> Says(raw, "success")
    ensures ReadConclusion(raw) == Some(Skipped) <==> Says(raw, "skipped")
  {
    ConclusionWords();
  }

  lemma FailingRead(raw: Raw)
    ensures ReadConclusion(raw) == Some(Failure) <==> Says(raw, "failure")
    ensures FailureConclusion(ReadConclusion(raw)) <==> SaysFailing(raw)
  {
    ConclusionWords();
  }

  lemma NotAdmittedRead(raw: Raw)
    ensures ReadConclusion(raw) == Some(StartupFailure) <==> Says(raw, "startup_failure")
    ensures AdmissionConclusion(ReadConclusion(raw)) <==> SaysNotAdmitted(raw)
  {
    ConclusionWords();
  }

  lemma CancelledRead(raw: Raw)
    ensures ReadConclusion(raw) == Some(Cancelled) <==> Says(raw, "cancelled")
  {
    ConclusionWords();
  }

  lemma ConclusionRead(raw: Raw)
    ensures ReadConclusion(raw) == Some(Success) <==> Says(raw, "success")
    ensures ReadConclusion(raw) == Some(Skipped) <==> Says(raw, "skipped")
    ensures ReadConclusion(raw) == Some(Failure) <==> Says(raw, "failure")
    ensures ReadConclusion(raw) == Some(StartupFailure) <==> Says(raw, "startup_failure")
    ensures ReadConclusion(raw) == Some(Cancelled) <==> Says(raw, "cancelled")
    ensures SuccessConclusion(ReadConclusion(raw)) <==> SaysPassing(raw)
    ensures FailureConclusion(ReadConclusion(raw)) <==> SaysFailing(raw)
    ensures AdmissionConclusion(ReadConclusion(raw)) <==> SaysNotAdmitted(raw)
    ensures ReadConclusion(raw).Some? <==> SaysConclusion(raw)
  {
    PassingRead(raw);
    SuccessRead(raw);
    FailingRead(raw);
    NotAdmittedRead(raw);
    CancelledRead(raw);
    ConclusionFamilies(ReadConclusion(raw));
  }

  lemma ConclusionFamilies(c: Option<Conclusion>)
    ensures c.Some? <==> SuccessConclusion(c) || FailureConclusion(c) || AdmissionConclusion(c) || c == Some(Cancelled)
  {
    if c.Some? {
      match c.value
      case Success | Neutral | Skipped =>
      case ActionRequired | StartupFailure =>
      case Failure | TimedOut | Stale =>
      case Cancelled =>
    }
  }

  // ---- steps ----

  function StepsOf(job: JobValue): seq<StepValue>
    requires job.Job?
  {
    if job.steps.Steps? then job.steps.steps else []
  }

  /** The step was more than listed: it is not marked skipped, and it has a time, or is running, or
      completed with a conclusion. */
  predicate Ran(step: StepValue) {
    step.Step? && !Says(step.conclusion, "skipped")
    && (step.timed || Says(step.status, "in_progress") || (Says(step.status, "completed") && SaysConclusion(step.conclusion)))
  }

  predicate Passed(step: StepValue) {
    step.Step? && Says(step.status, "completed") && SaysPassing(step.conclusion)
  }

  predicate SomeRan(job: JobValue) {
    job.Job? && exists s :: s in StepsOf(job) && Ran(s)
  }

  lemma StepRead(step: StepValue)
    ensures StepExecuted(step) <==> Ran(step)
    ensures ConsistentStep(step) <==> Passed(step)
  {
    if step.Step? {
      StatusRead(step.status);
      ConclusionRead(step.conclusion);
    }
  }

  lemma StepsRead(steps: seq<StepValue>)
    ensures (forall s :: s in steps ==> ConsistentStep(s)) <==> forall s :: s in steps ==> Passed(s)
    ensures ExecutedCount(steps) > 0 <==> exists s :: s in steps && Ran(s)
  {
    SomeStepExecuted(steps);
    forall s | s in steps
      ensures (StepExecuted(s) <==> Ran(s)) && (ConsistentStep(s) <==> Passed(s))
    {
      StepRead(s);
    }
  }

  // ---- jobs ----

  /** A job the classifier accepts: an object whose steps, if any, are a list of objects. */
  predicate WellFormedJob(job: JobValue) {
    job.Job? && !job.steps.StepsNotArray? && forall s :: s in StepsOf(job) ==> s.Step?
  }

  predicate JobPassed(job: JobValue) {
    job.Job? && Says(job.status, "completed") && SaysPassing(job.conclusion)
    && (forall s :: s in StepsOf(job) ==> Passed(s)) && (Says(job.conclusion, "skipped") || SomeRan(job))
  }

  /** The verdict on a job, in the words of its fields. */
  function KindOfTexts(job: JobValue): Kind
    requires job.Job?
  {
    if !Says(job.status, "completed") then Pending
    else if JobPassed(job) then Succeeded
    else if Says(job.conclusion, "cancelled") && !SomeRan(job) then CancelledBeforeExecution
    else if SaysFailing(job.conclusion) && SomeRan(job) then ExecutedFailure
    else if SaysNotAdmitted(job.conclusion) && !SomeRan(job) then
      if job.runnerAssigned then RunnerInfrastructureFailure else AdmissionFailure
    else UnknownFailure
  }

  lemma FamiliesDiffer(raw: Raw)
    ensures !(SaysPassing(raw) && SaysFailing(raw)) && !(SaysPassing(raw) && SaysNotAdmitted(raw))
    ensures !(SaysFailing(raw) && SaysNotAdmitted(raw))
    ensures Says(raw, "cancelled") ==> !SaysPassing(raw) && !SaysFailing(raw) && !SaysNotAdmitted(raw)
  {
    ConclusionWords();
  }

  /** Every job verdict: its kind, its two flags and its step counts. */
  lemma JobOnTheTexts(job: JobValue)
    ensures ClassifyJob(job).Ok? <==> WellFormedJob(job)
    ensures WellFormedJob(job) ==>
              var v := ClassifyJob(job).value;
              && v.kind == KindOfTexts(job)
              && (v.productFailure <==> v.kind == ExecutedFailure)
              && (v.retryable <==> Says(job.status, "completed") && Says(job.conclusion, "startup_failure") && !SomeRan(job))
              && (v.executed > 0 <==> SomeRan(job))
              && v.steps == |StepsOf(job)|
  {
    if WellFormedJob(job) {
      var steps := StepsOf(job);
      assert NormalizeSteps(job.steps) == Ok(steps);
      StepsRead(steps);
      StatusRead(job.status);
      ConclusionRead(job.conclusion);
      FamiliesDiffer(job.conclusion);
    }
  }

  /** The number of executed steps is the number of steps that ran. */
  lemma {:induction false} ExecutedExactly(steps: seq<StepValue>)
    ensures ExecutedCount(steps) == |set i | 0 <= i < |steps| && Ran(steps[i])|
    decreases |steps|
  {
    if steps != [] {
      var n := |steps| - 1;
      var front, all := set i | 0 <= i < n && Ran(steps[..n][i]), set i | 0 <= i < |steps| && Ran(steps[i]);
      ExecutedExactly(steps[..n]);
      StepRead(steps[n]);
      assert front == set i | 0 <= i < n && Ran(steps[i]);
      assert all == if Ran(steps[n]) then front + {n} else front;
    }
  }

  // ---- runs ----

  predicate RunPassed(run: Run) {
    Says(run.status, "completed") && Says(run.conclusion, "success")
  }

  /** What a run says when it has to speak for the evidence. */
  function RunKindOfTexts(run: Run): Kind {
    if !Says(run.status, "completed") then Pending
    else if SaysNotAdmitted(run.conclusion) then AdmissionFailure
    else if Says(run.conclusion, "cancelled") then CancelledBeforeExecution
    else UnknownFailure
  }

  lemma RunRead(run: Run)
    ensures Certified(run) <==> RunPassed(run)
    ensures RunOnly(run) == RunKindOfTexts(run)
    ensures FailedToStart(run) <==> Says(run.status, "completed") && Says(run.conclusion, "startup_failure")
    ensures Rerunnable(run) <==>
              Says(run.status, "completed") && (Says(run.conclusion, "failure") || Says(run.conclusion, "startup_failure"))
  {
    StatusRead(run.status);
    ConclusionRead(run.conclusion);
    FamiliesDiffer(run.conclusion);
  }

  // ---- evidence ----

  /** The runs the evidence mentions: `workflow_run`, `run`, and itself if it has a status or conclusion. */
  predicate Mentions(input: Input, run: Run)
    requires input.Evidence?
  {
    input.workflowRun == RunObject(run) || input.run == RunObject(run) || (input.hasOwn && input.own == run)
  }

  ghost predicate AllRunsPassed(input: Input)
    requires input.Evidence?
  {
    forall run :: Mentions(input, run) ==> RunPassed(run)
  }

  function JobsOf(input: Input): seq<JobValue>
    requires input.Evidence?
  {
    if input.jobs.Jobs? then input.jobs.jobs else []
  }

  predicate WellFormedInput(input: Input) {
    && input.Evidence? && !input.jobs.JobsNotArray? && !input.workflowRun.RunNotObject? && !input.run.RunNotObject?
    && forall j :: j in JobsOf(input) ==> WellFormedJob(j)
  }

  lemma MentionedRuns(input: Input, run: Run)
    requires input.Evidence? && RunsOf(input).Ok?
    ensures run in RunsOf(input).value <==> Mentions(input, run)
  {
  }

  lemma AcceptedExactly(input: Input)
    ensures Classified(input).Ok? <==> WellFormedInput(input)
  {
    RefusedExactly(input);
    if input.Evidence? && input.jobs.Jobs? {
      forall j | j in input.jobs.jobs
        ensures ClassifyJob(j).Ok? <==> WellFormedJob(j)
      {
        JobOnTheTexts(j);
      }
    }
  }

  /** The verdicts of accepted evidence are those of its jobs, one by one. */
  lemma VerdictOfJob(input: Input, i: nat)
    requires WellFormedInput(input)
    ensures Classified(input).Ok? && |Classified(input).value.jobs| == |JobsOf(input)|
    ensures i < |JobsOf(input)| ==> ClassifyJob(JobsOf(input)[i]) == Ok(Classified(input).value.jobs[i])
  {
    AcceptedExactly(input);
    VerdictPerJob(JobsOf(input));
  }

  /** The job completed as a startup failure and nothing of it ran. */
  predicate JobRetries(job: JobValue) {
    job.Job? && Says(job.status, "completed") && Says(job.conclusion, "startup_failure") && !SomeRan(job)
  }

  /** The verdict on a job says what its texts say. */
  predicate Fits(job: JobValue, v: JobVerdict) {
    job.Job? && v.kind == KindOfTexts(job) && (v.retryable <==> JobRetries(job)) && (v.executed > 0 <==> SomeRan(job))
  }

  predicate Judged(jobs: seq<JobValue>, verdicts: seq<JobVerdict>) {
    |jobs| == |verdicts| && forall i :: 0 <= i < |jobs| ==> Fits(jobs[i], verdicts[i])
  }

  /** What a receipt is made of. */
  lemma ReceiptParts(input: Input) returns (verdicts: seq<JobVerdict>, runs: seq<Run>)
    requires WellFormedInput(input)
    ensures Classified(input) == Ok(Sealed(verdicts, runs, input.own)) && Judged(JobsOf(input), verdicts)
    ensures forall run :: run in runs <==> Mentions(input, run)
    ensures if runs == [] then Speaker(input) == input.own else Speaker(input) == runs[0]
  {
    AcceptedExactly(input);
    runs := RunsOf(input).value;
    verdicts := Verdicts(JobsOf(input)).value;
    forall i | 0 <= i < |JobsOf(input)|
      ensures |verdicts| == |JobsOf(input)| && Fits(JobsOf(input)[i], verdicts[i])
    {
      VerdictOfJob(input, i);
      JobOnTheTexts(JobsOf(input)[i]);
    }
    VerdictOfJob(input, 0);
    forall run
      ensures run in runs <==> Mentions(input, run)
    {
      MentionedRuns(input, run);
    }
  }

  lemma JobOfVerdict(jobs: seq<JobValue>, verdicts: seq<JobVerdict>, v: JobVerdict) returns (j: JobValue)
    requires Judged(jobs, verdicts) && v in verdicts
    ensures j in jobs && Fits(j, v)
  {
    var i :| 0 <= i < |verdicts| && verdicts[i] == v;
    assert Fits(jobs[i], verdicts[i]);
    j := jobs[i];
  }

  lemma VerdictOn(jobs: seq<JobValue>, verdicts: seq<JobVerdict>, j: JobValue) returns (v: JobVerdict)
    requires Judged(jobs, verdicts) && j in jobs
    ensures v in verdicts && Fits(j, v)
  {
    var i :| 0 <= i < |jobs| && jobs[i] == j;
    assert Fits(jobs[i], verdicts[i]);
    v := verdicts[i];
  }

  lemma AllPassed(jobs: seq<JobValue>, verdicts: seq<JobVerdict>)
    requires Judged(jobs, verdicts)
    ensures AllSucceeded(verdicts) <==> forall j :: j in jobs ==> JobPassed(j)
  {
    forall j | j in jobs && AllSucceeded(verdicts)
      ensures JobPassed(j)
    {
      var v := VerdictOn(jobs, verdicts, j);
    }
    forall v | v in verdicts && forall j :: j in jobs ==> JobPassed(j)
      ensures v.kind == Succeeded
    {
      var j := JobOfVerdict(jobs, verdicts, v);
    }
  }

  lemma AnyRan(jobs: seq<JobValue>, verdicts: seq<JobVerdict>)
    requires Judged(jobs, verdicts)
    ensures SomeExecuted(verdicts) <==> exists j :: j in jobs && SomeRan(j)
  {
    forall v | v in verdicts && v.executed > 0
      ensures exists j :: j in jobs && SomeRan(j)
    {
      var j := JobOfVerdict(jobs, verdicts, v);
    }
    forall j | j in jobs && SomeRan(j)
      ensures SomeExecuted(verdicts)
    {
      var v := VerdictOn(jobs, verdicts, j);
    }
  }

  /** Evidence lets a merge through exactly when it is well-formed, has a job, every job completed and
      passed with steps that did, some step ran, and every run it mentions says completed and success. */
  lemma NonBlockingOnTheTexts(input: Input)
    ensures Classified(input).Ok? && !Classified(input).value.mergeBlocking <==>
              && WellFormedInput(input) && JobsOf(input) != []
              && (forall j :: j in JobsOf(input) ==> JobPassed(j))
              && (exists j :: j in JobsOf(input) && SomeRan(j))
              && AllRunsPassed(input)
  {
    AcceptedExactly(input);
    if WellFormedInput(input) {
      var verdicts, runs := ReceiptParts(input);
      OutcomeSucceedsExactly(verdicts, runs, input.own);
      AllPassed(JobsOf(input), verdicts);
      AnyRan(JobsOf(input), verdicts);
      RunsPassedExactly(input, runs);
    }
  }

  lemma RunsPassedExactly(input: Input, runs: seq<Run>)
    requires input.Evidence? && forall run :: run in runs <==> Mentions(input, run)
    ensures AllCertified(runs) <==> AllRunsPassed(input)
  {
    forall run
      ensures Certified(run) <==> RunPassed(run)
    {
      RunRead(run);
    }
  }

  /** A product failure is reported exactly when some job completed with a failing word after a step ran. */
  lemma ProductFailureOnTheTexts(input: Input)
    requires WellFormedInput(input)
    ensures Classified(input).Ok?
    ensures Classified(input).value.productFailure <==>
              exists j :: j in JobsOf(input) && Says(j.status, "completed") && SaysFailing(j.conclusion) && SomeRan(j)
  {
    var verdicts, runs := ReceiptParts(input);
    var jobs := JobsOf(input);
    KindsOfJobs(jobs, verdicts);
    forall j | j in jobs && j.Job?
      ensures KindOfTexts(j) == ExecutedFailure <==> Says(j.status, "completed") && SaysFailing(j.conclusion) && SomeRan(j)
    {
      FamiliesDiffer(j.conclusion);
    }
    assert forall j :: j in jobs ==> j.Job?;
  }

  // ---- the outcome ----

  lemma {:induction false} FirstIsWorst(present: set<Kind>, i: nat)
    requires i <= |PRIORITY| && forall k :: k in present ==> Rank(k) >= i
    ensures if present == {} then FirstPresent(present, i) == UnknownFailure
            else FirstPresent(present, i) in present && forall k :: k in present ==> Rank(FirstPresent(present, i)) <= Rank(k)
    decreases |PRIORITY| - i
  {
    PriorityRanksSuccessLast();
    if i < |PRIORITY| {
      assert Rank(PRIORITY[i]) == i;
      if PRIORITY[i] !in present {
        forall k | k in present
          ensures Rank(k) >= i + 1
        {
          assert Rank(k) == i ==> k == PRIORITY[i];
        }
        FirstIsWorst(present, i + 1);
      }
    }
  }

  /** The run that speaks for evidence without jobs. */
  function Speaker(input: Input): Run
    requires input.Evidence?
  {
    if input.workflowRun.RunObject? then input.workflowRun.run
    else if input.run.RunObject? then input.run.run
    else input.own
  }

  /** `kind` is the worst of the kinds of these jobs. */
  ghost predicate WorstOfJobs(jobs: seq<JobValue>, kind: Kind) {
    (exists j :: j in jobs && j.Job? && KindOfTexts(j) == kind)
    && forall j :: j in jobs && j.Job? ==> Rank(kind) <= Rank(KindOfTexts(j))
  }

  /** `kind` is the worst of what the mentioned runs say that did not pass. */
  ghost predicate WorstOfRuns(input: Input, kind: Kind)
    requires input.Evidence?
  {
    (exists run :: Mentions(input, run) && !RunPassed(run) && RunKindOfTexts(run) == kind)
    && forall run :: Mentions(input, run) && !RunPassed(run) ==> Rank(kind) <= Rank(RunKindOfTexts(run))
  }

  lemma KindsOfJobs(jobs: seq<JobValue>, verdicts: seq<JobVerdict>)
    requires Judged(jobs, verdicts)
    ensures forall kind :: kind in Kinds(verdicts) <==> exists j :: j in jobs && j.Job? && KindOfTexts(j) == kind
  {
    forall v | v in verdicts
      ensures exists j :: j in jobs && j.Job? && KindOfTexts(j) == v.kind
    {
      var j := JobOfVerdict(jobs, verdicts, v);
    }
    forall j | j in jobs && j.Job?
      ensures KindOfTexts(j) in Kinds(verdicts)
    {
      var v := VerdictOn(jobs, verdicts, j);
    }
  }

  lemma KindsOfRuns(input: Input, runs: seq<Run>)
    requires input.Evidence? && forall run :: run in runs <==> Mentions(input, run)
    ensures forall kind :: kind in Vetoes(runs) <==>
              exists run :: Mentions(input, run) && !RunPassed(run) && RunKindOfTexts(run) == kind
  {
    forall run
      ensures (Certified(run) <==> RunPassed(run)) && RunOnly(run) == RunKindOfTexts(run)
    {
      RunRead(run);
    }
    forall run | Mentions(input, run) && !RunPassed(run)
      ensures RunKindOfTexts(run) in Vetoes(runs)
    {
      assert run in runs && !Certified(run);
    }
  }

  lemma WorstJob(jobs: seq<JobValue>, verdicts: seq<JobVerdict>)
    requires Judged(jobs, verdicts) && jobs != []
    ensures WorstOfJobs(jobs, Worst(Kinds(verdicts)))
  {
    KindsOfJobs(jobs, verdicts);
    assert verdicts[0].kind in Kinds(verdicts);
    FirstIsWorst(Kinds(verdicts), 0);
    forall j | j in jobs && j.Job?
      ensures Rank(Worst(Kinds(verdicts))) <= Rank(KindOfTexts(j))
    {
      assert KindOfTexts(j) in Kinds(verdicts);
    }
  }

  lemma WorstRun(input: Input, runs: seq<Run>)
    requires input.Evidence? && (forall run :: run in runs <==> Mentions(input, run)) && !AllRunsPassed(input)
    ensures Vetoes(runs) != {} && WorstOfRuns(input, Worst(Vetoes(runs)))
  {
    KindsOfRuns(input, runs);
    var bad :| Mentions(input, bad) && !RunPassed(bad);
    assert RunKindOfTexts(bad) in Vetoes(runs);
    FirstIsWorst(Vetoes(runs), 0);
    forall run | Mentions(input, run) && !RunPassed(run)
      ensures Rank(Worst(Vetoes(runs))) <= Rank(RunKindOfTexts(run))
    {
      assert RunKindOfTexts(run) in Vetoes(runs);
    }
  }

  /** The outcome of accepted evidence. Without jobs the first run speaks, or the evidence itself. With a
      job that did not pass it is the worst kind among the jobs; with none it is the worst thing a run says
      that did not pass; with none of those either it is success, unless nothing ran at all. */
  lemma OutcomeOnTheTexts(input: Input)
    requires WellFormedInput(input)
    ensures Classified(input).Ok?
    ensures var jobs, outcome := JobsOf(input), Classified(input).value.outcome;
            var passed := forall j :: j in jobs ==> JobPassed(j);
            && (jobs == [] ==> outcome == RunKindOfTexts(Speaker(input)))
            && (!passed ==> WorstOfJobs(jobs, outcome))
            && (jobs != [] && passed && !AllRunsPassed(input) ==> WorstOfRuns(input, outcome))
            && (jobs != [] && passed && AllRunsPassed(input) ==>
                  outcome == if exists j :: j in jobs && SomeRan(j) then Succeeded else UnknownFailure)
    ensures Classified(input).value.mergeBlocking <==> Classified(input).value.outcome != Succeeded
  {
    var verdicts, runs := ReceiptParts(input);
    var jobs := JobsOf(input);
    AllPassed(jobs, verdicts);
    AnyRan(jobs, verdicts);
    RunsPassedExactly(input, runs);
    VetoedSets(verdicts, runs);
    WorstSucceeds(Kinds(verdicts));
    if jobs == [] {
      RunRead(Speaker(input));
    } else {
      WorstJob(jobs, verdicts);
      if !AllRunsPassed(input) {
        WorstRun(input, runs);
      }
    }
  }

  // ---- the retry hint and the counts ----

  predicate RunSaysCompleted(run: Run, word: string) {
    Says(run.status, "completed") && Says(run.conclusion, word)
  }

  /** The retry hint: without jobs, some run is mentioned and every one says startup failure; with jobs, every
      run says failure or startup failure, some job retries, and every other one passed. */
  lemma RetryOnTheTexts(input: Input)
    requires WellFormedInput(input)
    ensures Classified(input).Ok?
    ensures Classified(input).value.retryable <==>
              var jobs := JobsOf(input);
              if jobs == [] then
                (exists run :: Mentions(input, run))
                 && forall run :: Mentions(input, run) ==> RunSaysCompleted(run, "startup_failure")
              else
                && (forall run :: Mentions(input, run) ==>
                      RunSaysCompleted(run, "failure") || RunSaysCompleted(run, "startup_failure"))
                && (exists j :: j in jobs && JobRetries(j))
                && (forall j :: j in jobs ==> JobPassed(j) || JobRetries(j))
  {
    var verdicts, runs := ReceiptParts(input);
    var jobs := JobsOf(input);
    if jobs == [] {
      StartupRuns(input, runs);
    } else {
      RerunnableRuns(input, runs);
      RetryingJobs(jobs, verdicts);
    }
  }

  lemma StartupRuns(input: Input, runs: seq<Run>)
    requires input.Evidence? && forall run :: run in runs <==> Mentions(input, run)
    ensures runs != [] && (forall r :: r in runs ==> FailedToStart(r)) <==>
            (exists run :: Mentions(input, run))
                 && forall run :: Mentions(input, run) ==> RunSaysCompleted(run, "startup_failure")
  {
    forall run
      ensures FailedToStart(run) <==> RunSaysCompleted(run, "startup_failure")
    {
      RunRead(run);
    }
    if runs != [] {
      assert runs[0] in runs;
    }
  }

  lemma RerunnableRuns(input: Input, runs: seq<Run>)
    requires input.Evidence? && forall run :: run in runs <==> Mentions(input, run)
    ensures (forall r :: r in runs ==> Rerunnable(r)) <==>
            forall run :: Mentions(input, run) ==> RunSaysCompleted(run, "failure") || RunSaysCompleted(run, "startup_failure")
  {
    forall run
      ensures Rerunnable(run) <==> RunSaysCompleted(run, "failure") || RunSaysCompleted(run, "startup_failure")
    {
      RunRead(run);
    }
  }

  lemma RetryingJobs(jobs: seq<JobValue>, verdicts: seq<JobVerdict>)
    requires Judged(jobs, verdicts)
    ensures (exists v :: v in verdicts && v.retryable) <==> exists j :: j in jobs && JobRetries(j)
    ensures (forall v :: v in verdicts ==> v.kind == Succeeded || v.retryable)
            <==> forall j :: j in jobs ==> JobPassed(j) || JobRetries(j)
  {
    forall v | v in verdicts && v.retryable
      ensures exists j :: j in jobs && JobRetries(j)
    {
      var j := JobOfVerdict(jobs, verdicts, v);
    }
    forall j | j in jobs
      ensures JobRetries(j) ==> exists v :: v in verdicts && v.retryable
      ensures (forall v :: v in verdicts ==> v.kind == Succeeded || v.retryable) ==> JobPassed(j) || JobRetries(j)
    {
      var v := VerdictOn(jobs, verdicts, j);
    }
    forall v | v in verdicts && forall j :: j in jobs ==> JobPassed(j) || JobRetries(j)
      ensures v.kind == Succeeded || v.retryable
    {
      var j := JobOfVerdict(jobs, verdicts, v);
    }
  }

  lemma {:induction false} CountExactly(verdicts: seq<JobVerdict>, n: nat, kind: Kind, these: set<nat>)
    requires n <= |verdicts| && forall i: nat :: i in these <==> i < n && verdicts[i].kind == kind
    ensures CountKind(verdicts[..n], kind) == |these|
  {
    if n == 0 {
      assert these == {};
    } else {
      var rest := these - {n - 1};
      assert verdicts[..n][..n - 1] == verdicts[..n - 1];
      CountExactly(verdicts, n - 1, kind, rest);
      assert these == if n - 1 in these then rest + {n - 1} else rest;
    }
  }

  /** The positions of the jobs whose texts give this kind. */
  function JobsOfKind(input: Input, kind: Kind): set<nat>
    requires input.Evidence?
  {
    set i: nat | 0 <= i < |JobsOf(input)| && JobsOf(input)[i].Job? && KindOfTexts(JobsOf(input)[i]) == kind
  }

  /** Every kind is counted, with the number of jobs of that kind. */
  lemma CountsOnTheTexts(input: Input, kind: Kind)
    requires WellFormedInput(input)
    ensures Classified(input).Ok?
    ensures kind in Classified(input).value.counts && Classified(input).value.counts[kind] == |JobsOfKind(input, kind)|
  {
    var verdicts, runs := ReceiptParts(input);
    assert verdicts[..|verdicts|] == verdicts;
    forall i: nat
      ensures i in JobsOfKind(input, kind) <==> i < |verdicts| && verdicts[i].kind == kind
    {
      assert i < |verdicts| ==> Fits(JobsOf(input)[i], verdicts[i]);
    }
    CountExactly(verdicts, |verdicts|, kind, JobsOfKind(input, kind));
  }

  // ---- refusals ----

  /** What is wrong with a job that is not well formed. */
  function JobFault(job: JobValue): TypeFault {
    if job.JobNotObject? then JobNotAnObject
    else if job.steps.StepsNotArray? then StepsNotAnArray
    else StepNotAnObject
  }

  /** The first job that is not well formed stands at `i`. */
  predicate FirstFaulty(jobs: seq<JobValue>, i: int) {
    0 <= i < |jobs| && !WellFormedJob(jobs[i]) && forall k :: 0 <= k < i ==> WellFormedJob(jobs[k])
  }

  lemma JobRefused(job: JobValue)
    ensures WellFormedJob(job) <==> ClassifyJob(job).Ok?
    ensures !WellFormedJob(job) ==> ClassifyJob(job) == Err(JobFault(job))
  {
    JobOnTheTexts(job);
  }

  lemma {:induction false} FineSoFar(jobs: seq<JobValue>, n: nat)
    requires n <= |jobs| && forall k :: 0 <= k < n ==> WellFormedJob(jobs[k])
    ensures Collected(EachClassified(jobs), n).Ok?
  {
    if n > 0 {
      FineSoFar(jobs, n - 1);
      JobRefused(jobs[n - 1]);
      assert EachClassified(jobs)[n - 1].Ok?;
    }
  }

  lemma FaultHere(jobs: seq<JobValue>, i: nat)
    requires FirstFaulty(jobs, i)
    ensures Collected(EachClassified(jobs), i + 1) == Err(JobFault(jobs[i]))
  {
    FineSoFar(jobs, i);
    JobRefused(jobs[i]);
    assert EachClassified(jobs)[i] == Err(JobFault(jobs[i]));
  }

  lemma FirstFault(jobs: seq<JobValue>, i: nat)
    requires FirstFaulty(jobs, i)
    ensures Verdicts(jobs) == Err(JobFault(jobs[i]))
  {
    FaultHere(jobs, i);
    StaysFaulty(EachClassified(jobs), i + 1, |jobs|);
  }

  lemma {:induction false} SomeFaulty(jobs: seq<JobValue>, n: nat) returns (i: int)
    requires n <= |jobs|
    ensures FirstFaulty(jobs, i) || forall k :: 0 <= k < n ==> WellFormedJob(jobs[k])
  {
    i := 0;
    if n > 0 {
      i := SomeFaulty(jobs, n - 1);
      if !FirstFaulty(jobs, i) && !WellFormedJob(jobs[n - 1]) {
        i := n - 1;
      }
    }
  }

  /** Evidence that is no object is refused as such, then a job list that is no array, then the first faulty job, and
      last a run that is no object. */
  lemma RefusedOnTheTexts(input: Input) returns (i: int)
    requires Classified(input).Err?
    ensures var fault := Classified(input).error;
            if input.NotAnObject? then fault == EvidenceNotAnObject
            else if input.jobs.JobsNotArray? then fault == JobsNotAnArray
            else if FirstFaulty(JobsOf(input), i) then fault == JobFault(JobsOf(input)[i])
            else fault == RunNotAnObject && (input.workflowRun.RunNotObject? || input.run.RunNotObject?)
                 && forall k :: 0 <= k < |JobsOf(input)| ==> WellFormedJob(JobsOf(input)[k])
  {
    i := 0;
    if input.Evidence? && !input.jobs.JobsNotArray? {
      var jobs := JobsOf(input);
      i := SomeFaulty(jobs, |jobs|);
      if FirstFaulty(jobs, i) {
        FirstFault(jobs, i);
      } else {
        FineSoFar(jobs, |jobs|);
      }
    }
  }
}
