/** Laws of the evidence classifier: exactly when it lets a merge through, and what it ignores. */
module AdmissionLaws {
  import opened Wrappers
  import opened Admission

  // ---- exactly when evidence does not block ----

  lemma PriorityRanksSuccessLast()
    ensures |PRIORITY| == 7 && PRIORITY[6] == Succeeded
    ensures PRIORITY[0] == ExecutedFailure && PRIORITY[1] == UnknownFailure
         && PRIORITY[2] == RunnerInfrastructureFailure && PRIORITY[3] == AdmissionFailure
         && PRIORITY[4] == CancelledBeforeExecution && PRIORITY[5] == Pending
  {
  }

  lemma {:induction false} FirstPresentSucceeds(present: set<Kind>, i: nat)
    requires i <= |PRIORITY|
    ensures FirstPresent(present, i) == Succeeded <==>
            i < |PRIORITY| && Succeeded in present && forall k :: i <= k < |PRIORITY| - 1 ==> PRIORITY[k] !in present
    decreases |PRIORITY| - i
  {
  }

  function Rank(kind: Kind): nat {
    match kind
    case ExecutedFailure => 0
    case UnknownFailure => 1
    case RunnerInfrastructureFailure => 2
    case AdmissionFailure => 3
    case CancelledBeforeExecution => 4
    case Pending => 5
    case Succeeded => 6
  }

  lemma WorstSucceeds(present: set<Kind>)
    ensures Worst(present) == Succeeded <==> present == {Succeeded}
  {
    FirstPresentSucceeds(present, 0);
    PriorityRanksSuccessLast();
    if Worst(present) == Succeeded {
      forall kind | kind in present
        ensures kind == Succeeded
      {
        assert kind == PRIORITY[Rank(kind)];
      }
    }
  }

  predicate AllSucceeded(verdicts: seq<JobVerdict>) {
    forall v :: v in verdicts ==> v.kind == Succeeded
  }

  predicate AllCertified(runs: seq<Run>) {
    forall r :: r in runs ==> Certified(r)
  }

  lemma VetoedSets(verdicts: seq<JobVerdict>, runs: seq<Run>)
    ensures Kinds(verdicts) == {Succeeded} <==> verdicts != [] && AllSucceeded(verdicts)
    ensures Vetoes(runs) == {} <==> AllCertified(runs)
    ensures Vetoes(runs) != {Succeeded}
  {
    if verdicts != [] {
      assert verdicts[0].kind in Kinds(verdicts);
    }
    if !AllSucceeded(verdicts) {
      var v :| v in verdicts && v.kind != Succeeded;
      assert v.kind in Kinds(verdicts);
    }
    if !AllCertified(runs) {
      var r :| r in runs && !Certified(r);
      assert RunOnly(r) in Vetoes(runs);
    }
  }

  lemma OutcomeSucceedsExactly(verdicts: seq<JobVerdict>, runs: seq<Run>, own: Run)
    ensures Outcome(verdicts, runs, own) == Succeeded <==>
            verdicts != [] && AllSucceeded(verdicts) && SomeExecuted(verdicts) && AllCertified(runs)
  {
    VetoedSets(verdicts, runs);
    WorstSucceeds(Kinds(verdicts));
    WorstSucceeds(Vetoes(runs));
  }

  /** Evidence lets a merge through exactly when there is a job, every job succeeded, some step ran, and
      every run that is mentioned completed with success. */
  lemma NonBlockingExactly(input: Input)
    requires Classified(input).Ok?
    ensures var receipt := Classified(input).value;
            !receipt.mergeBlocking <==>
              receipt.jobs != [] && AllSucceeded(receipt.jobs) && SomeExecuted(receipt.jobs)
              && AllCertified(RunsOf(input).value)
  {
    OutcomeSucceedsExactly(Classified(input).value.jobs, RunsOf(input).value, input.own);
  }

  /** A job succeeds exactly when it completed with a passing conclusion, all its steps completed and
      passed, and some step ran unless the job as a whole was skipped. */
  lemma JobSucceedsExactly(job: JobValue)
    requires ClassifyJob(job).Ok?
    ensures var steps := NormalizeSteps(job.steps).value;
            var conclusion := ReadConclusion(job.conclusion);
            ClassifyJob(job).value.kind == Succeeded <==>
              && ReadStatus(job.status) == Some(Completed) && SuccessConclusion(conclusion)
              && (forall s :: s in steps ==> ConsistentStep(s))
              && (conclusion == Some(Skipped) || exists s :: s in steps && StepExecuted(s))
  {
    SomeStepExecuted(NormalizeSteps(job.steps).value);
  }

  lemma {:induction false} SomeStepExecuted(steps: seq<StepValue>)
    ensures ExecutedCount(steps) > 0 <==> exists s :: s in steps && StepExecuted(s)
    decreases |steps|
  {
    if steps != [] {
      var n := |steps| - 1;
      SomeStepExecuted(steps[..n]);
      assert steps == steps[..n] + [steps[n]];
      if exists s :: s in steps && StepExecuted(s) {
        var s :| s in steps && StepExecuted(s);
        assert s in steps[..n] || s == steps[n];
      }
      if StepExecuted(steps[n]) {
        assert steps[n] in steps;
      }
    }
  }

  // ---- counts ----

  /** The counts add up to the number of jobs. */
  lemma {:induction false} CountsAddUp(verdicts: seq<JobVerdict>)
    ensures CountKind(verdicts, ExecutedFailure) + CountKind(verdicts, UnknownFailure)
            + CountKind(verdicts, RunnerInfrastructureFailure) + CountKind(verdicts, AdmissionFailure)
            + CountKind(verdicts, CancelledBeforeExecution) + CountKind(verdicts, Pending)
            + CountKind(verdicts, Succeeded) == |verdicts|
    decreases |verdicts|
  {
    if verdicts != [] {
      CountsAddUp(verdicts[..|verdicts| - 1]);
    }
  }

  lemma {:induction false} ValuePerResult<T>(results: seq<Result<T, TypeFault>>, n: nat)
    requires n <= |results| && Collected(results, n).Ok?
    ensures |Collected(results, n).value| == n
    ensures forall i :: 0 <= i < n ==> results[i] == Ok(Collected(results, n).value[i])
  {
    if n > 0 {
      ValuePerResult(results, n - 1);
    }
  }

  /** `images` are the results of `f` on `a`, one by one. */
  ghost predicate Images<T(!new), U>(f: T -> Result<U, TypeFault>, a: seq<T>, images: seq<U>) {
    |a| == |images| && forall i :: 0 <= i < |a| ==> f(a[i]) == Ok(images[i])
  }

  lemma VerdictPerJob(jobs: seq<JobValue>)
    requires Verdicts(jobs).Ok?
    ensures Images(ClassifyJob, jobs, Verdicts(jobs).value)
  {
    var results := EachClassified(jobs);
    ValuePerResult(results, |jobs|);
    forall i | 0 <= i < |jobs|
      ensures ClassifyJob(jobs[i]) == Ok(Verdicts(jobs).value[i])
    {
      assert results[i] == ClassifyJob(jobs[i]);
    }
  }

  // ---- the order of jobs does not matter ----

  function Without<T>(a: seq<T>, j: nat): seq<T>
    requires j < |a|
  {
    a[..j] + a[j + 1..]
  }

  lemma BagWithout<T>(a: seq<T>, j: nat)
    requires j < |a|
    ensures multiset(a) == multiset(Without(a, j)) + multiset{a[j]}
  {
    assert a == a[..j] + [a[j]] + a[j + 1..];
  }

  lemma SameBagWithout<T>(a: seq<T>, i: nat, b: seq<T>, j: nat)
    requires multiset(a) == multiset(b) && i < |a| && j < |b| && a[i] == b[j]
    ensures multiset(Without(a, i)) == multiset(Without(b, j))
  {
    BagWithout(a, i);
    BagWithout(b, j);
    assert multiset(Without(a, i)) == multiset(a) - multiset{a[i]};
    assert multiset(Without(b, j)) == multiset(b) - multiset{b[j]};
  }

  lemma ImagesWithout<T(!new), U>(f: T -> Result<U, TypeFault>, a: seq<T>, images: seq<U>, j: nat)
    requires Images(f, a, images) && j < |a|
    ensures Images(f, Without(a, j), Without(images, j))
  {
  }

  lemma {:induction false} SameBagSameImages<T(!new), U>(f: T -> Result<U, TypeFault>, a: seq<T>, va: seq<U>,
                                                        b: seq<T>, vb: seq<U>)
    requires multiset(a) == multiset(b) && Images(f, a, va) && Images(f, b, vb)
    ensures multiset(va) == multiset(vb)
    decreases |a|
  {
    if a == [] {
      assert |multiset(b)| == |b|;
    } else {
      assert a[0] in multiset(b);
      var j :| 0 <= j < |b| && b[j] == a[0];
      SameBagWithout(a, 0, b, j);
      ImagesWithout(f, a, va, 0);
      ImagesWithout(f, b, vb, j);
      SameBagSameImages(f, Without(a, 0), Without(va, 0), Without(b, j), Without(vb, j));
      BagWithout(va, 0);
      BagWithout(vb, j);
    }
  }

  lemma {:induction false} CountConcat(a: seq<JobVerdict>, b: seq<JobVerdict>, kind: Kind)
    ensures CountKind(a + b, kind) == CountKind(a, kind) + CountKind(b, kind)
    decreases |b|
  {
    if b == [] {
      assert a + b == a;
    } else {
      assert (a + b)[..|a + b| - 1] == a + b[..|b| - 1];
      CountConcat(a, b[..|b| - 1], kind);
    }
  }

  lemma CountWithout(a: seq<JobVerdict>, j: nat, kind: Kind)
    requires j < |a|
    ensures CountKind(a, kind) == CountKind(Without(a, j), kind) + (if a[j].kind == kind then 1 else 0)
  {
    assert a == (a[..j] + [a[j]]) + a[j + 1..];
    CountConcat(a[..j] + [a[j]], a[j + 1..], kind);
    CountOneMore(a[..j], a[j], kind);
    CountConcat(a[..j], a[j + 1..], kind);
  }

  lemma {:induction false} SameBagSameCount(a: seq<JobVerdict>, b: seq<JobVerdict>, kind: Kind)
    requires multiset(a) == multiset(b)
    ensures CountKind(a, kind) == CountKind(b, kind)
    decreases |a|
  {
    if a == [] {
      assert |multiset(b)| == |b|;
    } else {
      assert a[0] in multiset(b);
      var j :| 0 <= j < |b| && b[j] == a[0];
      SameBagWithout(a, 0, b, j);
      CountWithout(a, 0, kind);
      CountWithout(b, j, kind);
      SameBagSameCount(Without(a, 0), Without(b, j), kind);
    }
  }

  lemma SameBagSameReceipt(a: seq<JobVerdict>, b: seq<JobVerdict>, runs: seq<Run>, own: Run)
    requires multiset(a) == multiset(b)
    ensures Sealed(a, runs, own).(jobs := []) == Sealed(b, runs, own).(jobs := [])
  {
    assert forall v :: v in a <==> v in multiset(a);
    assert forall v :: v in b <==> v in multiset(b);
    assert forall v :: v in a <==> v in b;
    assert Kinds(a) == Kinds(b);
    assert |multiset(a)| == |a| && |multiset(b)| == |b|;
    forall kind | kind in KINDS
      ensures CountKind(a, kind) == CountKind(b, kind)
    {
      SameBagSameCount(a, b, kind);
    }
    assert CountTable(a) == CountTable(b);
  }

  ghost predicate AllWellFormed(jobs: seq<JobValue>) {
    forall i :: 0 <= i < |jobs| ==> ClassifyJob(jobs[i]).Ok?
  }

  lemma {:induction false} AllCollected<T>(results: seq<Result<T, TypeFault>>, n: nat)
    requires n <= |results| && forall i :: 0 <= i < n ==> results[i].Ok?
    ensures Collected(results, n).Ok?
  {
    if n > 0 {
      AllCollected(results, n - 1);
    }
  }

  lemma WellFormedExactly(jobs: seq<JobValue>)
    ensures Verdicts(jobs).Ok? <==> AllWellFormed(jobs)
  {
    if AllWellFormed(jobs) {
      AllCollected(EachClassified(jobs), |jobs|);
    }
    if Verdicts(jobs).Ok? {
      VerdictPerJob(jobs);
    }
  }

  lemma SameBagWellFormed(a: seq<JobValue>, b: seq<JobValue>)
    requires multiset(a) == multiset(b) && AllWellFormed(a)
    ensures AllWellFormed(b)
  {
    forall i | 0 <= i < |b|
      ensures ClassifyJob(b[i]).Ok?
    {
      assert b[i] in multiset(a);
      var j :| 0 <= j < |a| && a[j] == b[i];
    }
  }

  lemma SameBagSameVerdicts(a: seq<JobValue>, b: seq<JobValue>)
    requires multiset(a) == multiset(b)
    ensures Verdicts(a).Ok? <==> Verdicts(b).Ok?
    ensures Verdicts(a).Ok? ==> multiset(Verdicts(a).value) == multiset(Verdicts(b).value)
  {
    WellFormedExactly(a);
    WellFormedExactly(b);
    if AllWellFormed(b) {
      SameBagWellFormed(b, a);
    }
    if AllWellFormed(a) {
      SameBagWellFormed(a, b);
      VerdictPerJob(a);
      VerdictPerJob(b);
      SameBagSameImages(ClassifyJob, a, Verdicts(a).value, b, Verdicts(b).value);
    }
  }

  /** Whatever the order of the jobs, the same evidence is accepted, with the same outcome, flags and
      counts. */
  lemma OrderIsIgnored(input: Input, a: seq<JobValue>, b: seq<JobValue>)
    requires input.Evidence? && multiset(a) == multiset(b)
    ensures var ra, rb := Classified(input.(jobs := Jobs(a))), Classified(input.(jobs := Jobs(b)));
            (ra.Ok? <==> rb.Ok?) && (ra.Ok? ==> ra.value.(jobs := []) == rb.value.(jobs := []))
  {
    SameBagSameVerdicts(a, b);
    if Verdicts(a).Ok? && RunsOf(input).Ok? {
      SameBagSameReceipt(Verdicts(a).value, Verdicts(b).value, RunsOf(input).value, input.own);
    }
  }

  // ---- what blocks keeps blocking ----

  /** A job that did not succeed blocks every list it is part of, whatever runs come with it. */
  lemma BlockingIsKeptByExtension(input: Input, jobs: seq<JobValue>, i: nat)
    requires input.Evidence? && input.jobs == Jobs(jobs) && Classified(input).Ok?
    requires i < |jobs| && ClassifyJob(jobs[i]).Ok? && ClassifyJob(jobs[i]).value.kind != Succeeded
    ensures Classified(input).value.mergeBlocking
  {
    NonBlockingExactly(input);
    VerdictPerJob(jobs);
    var receipt := Classified(input).value;
    assert receipt.jobs[i] in receipt.jobs;
  }

  lemma RetryableJobIsNoSuccess(job: JobValue)
    ensures ClassifyJob(job).Ok? && ClassifyJob(job).value.retryable
            ==> ClassifyJob(job).value.kind == AdmissionFailure || ClassifyJob(job).value.kind == RunnerInfrastructureFailure
  {
  }

  /** A job carries the retry hint exactly when it completed as a startup failure and no step ran. */
  lemma JobRetryableExactly(job: JobValue)
    requires ClassifyJob(job).Ok?
    ensures ClassifyJob(job).value.retryable <==>
              && ReadStatus(job.status) == Some(Completed) && ReadConclusion(job.conclusion) == Some(StartupFailure)
              && !(exists s :: s in NormalizeSteps(job.steps).value && StepExecuted(s))
  {
    SomeStepExecuted(NormalizeSteps(job.steps).value);
  }

  /** A job is a product failure exactly when it completed with a failing conclusion after some step ran. */
  lemma JobFailsExactly(job: JobValue)
    requires ClassifyJob(job).Ok?
    ensures ClassifyJob(job).value.kind == ExecutedFailure <==>
              && ReadStatus(job.status) == Some(Completed) && FailureConclusion(ReadConclusion(job.conclusion))
              && exists s :: s in NormalizeSteps(job.steps).value && StepExecuted(s)
  {
    SomeStepExecuted(NormalizeSteps(job.steps).value);
  }

  /** Evidence reports a product failure exactly when one of its jobs is one, whatever the runs say. */
  lemma ProductFailureExactly(input: Input)
    requires Classified(input).Ok?
    ensures var jobs := JobList(input.jobs).value;
            Classified(input).value.productFailure <==>
              exists i :: 0 <= i < |jobs| && ClassifyJob(jobs[i]).Ok? && ClassifyJob(jobs[i]).value.kind == ExecutedFailure
  {
    var jobs, verdicts := JobList(input.jobs).value, Classified(input).value.jobs;
    VerdictPerJob(jobs);
    if ExecutedFailure in Kinds(verdicts) {
      var v :| v in verdicts && v.kind == ExecutedFailure;
      var i :| 0 <= i < |verdicts| && verdicts[i] == v;
      assert ClassifyJob(jobs[i]) == Ok(v);
    }
    forall i | 0 <= i < |jobs| && ClassifyJob(jobs[i]).Ok? && ClassifyJob(jobs[i]).value.kind == ExecutedFailure
      ensures ExecutedFailure in Kinds(verdicts)
    {
      assert verdicts[i] in verdicts;
    }
  }

  /** The retry hint is never an authorisation: it comes only with blocking evidence, and never with a
      product failure. */
  lemma RetryHintBlocks(input: Input)
    requires Classified(input).Ok? && Classified(input).value.retryable
    ensures Classified(input).value.mergeBlocking && !Classified(input).value.productFailure
  {
    NonBlockingExactly(input);
    var jobs := JobList(input.jobs).value;
    var receipt := Classified(input).value;
    VerdictPerJob(jobs);
    forall i | 0 <= i < |jobs| && receipt.jobs[i].retryable
      ensures receipt.jobs[i].kind != Succeeded && receipt.jobs[i].kind != ExecutedFailure
    {
      RetryableJobIsNoSuccess(jobs[i]);
    }
  }

  /** Evidence is refused exactly when it, its job list, one of its jobs or one of its runs is malformed. */
  lemma RefusedExactly(input: Input)
    ensures Classified(input).Err? <==>
              input.NotAnObject? || input.jobs.JobsNotArray?
              || (input.jobs.Jobs? && exists job :: job in input.jobs.jobs && ClassifyJob(job).Err?)
              || input.workflowRun.RunNotObject? || input.run.RunNotObject?
  {
    if input.Evidence? && input.jobs.Jobs? {
      WellFormedExactly(input.jobs.jobs);
    }
  }
}
