/** Whether workflow evidence blocks a merge: a priority classifier over a list of jobs, with vetoes by
    the runs they belong to (packages/core/src/admission.mjs). */
module Admission {
  import opened Wrappers
  import JsText

  /** A field as it arrives: a string, or anything else (absent, null, a number, ...). */
  datatype Raw = Text(text: string) | NotText

  datatype Status = Completed | Queued | InProgress | Waiting | Requested | StillPending

  datatype Conclusion =
    | Success | Neutral | Skipped
    | ActionRequired | StartupFailure
    | Failure | TimedOut | Stale
    | Cancelled

  // ---- normalisation ----

  function Normalized(raw: Raw): Option<string> {
    if raw.NotText? || |raw.text| > 64 then None
    else Some(JsText.ToLowerCase(JsText.Trim(raw.text)))
  }

  function ReadStatus(raw: Raw): Option<Status> {
    var text := Normalized(raw);
    if text == Some("completed") then Some(Completed)
    else if text == Some("queued") then Some(Queued)
    else if text == Some("in_progress") then Some(InProgress)
    else if text == Some("waiting") then Some(Waiting)
    else if text == Some("requested") then Some(Requested)
    else if text == Some("pending") then Some(StillPending)
    else None
  }

  function ReadConclusion(raw: Raw): Option<Conclusion> {
    var text := Normalized(raw);
    if text == Some("success") then Some(Success)
    else if text == Some("neutral") then Some(Neutral)
    else if text == Some("skipped") then Some(Skipped)
    else if text == Some("action_required") then Some(ActionRequired)
    else if text == Some("startup_failure") then Some(StartupFailure)
    else if text == Some("failure") then Some(Failure)
    else if text == Some("timed_out") then Some(TimedOut)
    else if text == Some("stale") then Some(Stale)
    else if text == Some("cancelled") then Some(Cancelled)
    else None
  }

  predicate SuccessConclusion(c: Option<Conclusion>) {
    c == Some(Success) || c == Some(Neutral) || c == Some(Skipped)
  }

  predicate AdmissionConclusion(c: Option<Conclusion>) {
    c == Some(ActionRequired) || c == Some(StartupFailure)
  }

  predicate FailureConclusion(c: Option<Conclusion>) {
    c == Some(Failure) || c == Some(TimedOut) || c == Some(Stale)
  }

  // ---- steps and jobs ----

  /** `timed`: a start or completion time was observed. */
  datatype StepValue = StepNotObject | Step(status: Raw, conclusion: Raw, timed: bool)

  datatype StepsField = NoSteps | StepsNotArray | Steps(steps: seq<StepValue>)

  datatype JobValue =
    | JobNotObject
    | Job(status: Raw, conclusion: Raw, steps: StepsField, runnerAssigned: bool)

  /** The type errors thrown. */
  datatype TypeFault =
    | EvidenceNotAnObject | JobsNotAnArray | JobNotAnObject | StepsNotAnArray | StepNotAnObject | RunNotAnObject

  datatype Kind =
    | ExecutedFailure | UnknownFailure | RunnerInfrastructureFailure | AdmissionFailure
    | CancelledBeforeExecution | Pending | Succeeded

  datatype JobVerdict = JobVerdict(kind: Kind, productFailure: bool, retryable: bool, steps: nat, executed: nat)

  predicate StepExecuted(step: StepValue) {
    step.Step?
    && var conclusion := ReadConclusion(step.conclusion);
       conclusion != Some(Skipped)
       && (step.timed
           || ReadStatus(step.status) == Some(InProgress)
           || (ReadStatus(step.status) == Some(Completed) && conclusion.Some?))
  }

  function ExecutedCount(steps: seq<StepValue>): nat {
    if steps == [] then 0
    else ExecutedCount(steps[..|steps| - 1]) + (if StepExecuted(steps[|steps| - 1]) then 1 else 0)
  }

  predicate ConsistentStep(step: StepValue) {
    step.Step? && ReadStatus(step.status) == Some(Completed) && SuccessConclusion(ReadConclusion(step.conclusion))
  }

  function NormalizeSteps(field: StepsField): Result<seq<StepValue>, TypeFault> {
    match field
    case NoSteps => Ok([])
    case StepsNotArray => Err(StepsNotAnArray)
    case Steps(steps) => if exists s :: s in steps && s.StepNotObject? then Err(StepNotAnObject) else Ok(steps)
  }

  /** The verdict on a job of which `executed` of these steps ran. */
  function JudgeJob(status: Option<Status>, conclusion: Option<Conclusion>, steps: seq<StepValue>, executed: nat,
                    runnerAssigned: bool): JobVerdict {
    var consistent := forall s :: s in steps ==> ConsistentStep(s);
    if status != Some(Completed) then JobVerdict(Pending, false, false, |steps|, executed)
    else if SuccessConclusion(conclusion) && (!consistent || (conclusion != Some(Skipped) && executed == 0)) then
      JobVerdict(UnknownFailure, false, false, |steps|, executed)
    else if SuccessConclusion(conclusion) then JobVerdict(Succeeded, false, false, |steps|, executed)
    else if conclusion == Some(Cancelled) && executed == 0 then
      JobVerdict(CancelledBeforeExecution, false, false, |steps|, executed)
    else if executed > 0 && FailureConclusion(conclusion) then
      JobVerdict(ExecutedFailure, true, false, |steps|, executed)
    else if executed == 0 && !runnerAssigned && AdmissionConclusion(conclusion) then
      JobVerdict(AdmissionFailure, false, conclusion == Some(StartupFailure), |steps|, executed)
    else if executed == 0 && runnerAssigned && AdmissionConclusion(conclusion) then
      JobVerdict(RunnerInfrastructureFailure, false, conclusion == Some(StartupFailure), |steps|, executed)
    else JobVerdict(UnknownFailure, false, false, |steps|, executed)
  }

  /** `classifyWorkflowJob`. */
  function ClassifyJob(job: JobValue): Result<JobVerdict, TypeFault> {
    if job.JobNotObject? then Err(JobNotAnObject)
    else
      var steps := NormalizeSteps(job.steps);
      if steps.Err? then Err(steps.error)
      else Ok(JudgeJob(ReadStatus(job.status), ReadConclusion(job.conclusion), steps.value,
                       ExecutedCount(steps.value), job.runnerAssigned))
  }

  // ---- runs ----

  datatype Run = Run(status: Raw, conclusion: Raw)

  datatype RunField = NoRun | RunNotObject | RunObject(run: Run)

  function RunOnly(run: Run): Kind {
    var conclusion := ReadConclusion(run.conclusion);
    if ReadStatus(run.status) != Some(Completed) then Pending
    else if AdmissionConclusion(conclusion) then AdmissionFailure
    else if conclusion == Some(Cancelled) then CancelledBeforeExecution
    else UnknownFailure
  }

  /** Only an explicit conclusion of success certifies a run. */
  predicate Certified(run: Run) {
    ReadStatus(run.status) == Some(Completed) && ReadConclusion(run.conclusion) == Some(Success)
  }

  predicate Rerunnable(run: Run) {
    ReadStatus(run.status) == Some(Completed)
    && (ReadConclusion(run.conclusion) == Some(Failure) || ReadConclusion(run.conclusion) == Some(StartupFailure))
  }

  predicate FailedToStart(run: Run) {
    ReadStatus(run.status) == Some(Completed) && ReadConclusion(run.conclusion) == Some(StartupFailure)
  }

  // ---- evidence ----

  datatype JobsField = NoJobs | JobsNotArray | Jobs(jobs: seq<JobValue>)

  /** `own` holds the evidence object's own status and conclusion; `hasOwn` says that it carries either. */
  datatype Input =
    | NotAnObject
    | Evidence(jobs: JobsField, workflowRun: RunField, run: RunField, hasOwn: bool, own: Run)

  datatype Receipt = Receipt(
    outcome: Kind,
    mergeBlocking: bool,
    productFailure: bool,
    retryable: bool,
    counts: map<Kind, nat>,
    jobs: seq<JobVerdict>)

  const PRIORITY: seq<Kind> := [ExecutedFailure, UnknownFailure, RunnerInfrastructureFailure, AdmissionFailure,
                                CancelledBeforeExecution, Pending, Succeeded]

  /** The first kind in order of priority that is present. */
  function FirstPresent(present: set<Kind>, i: nat): Kind
    requires i <= |PRIORITY|
    decreases |PRIORITY| - i
  {
    if i == |PRIORITY| then UnknownFailure
    else if PRIORITY[i] in present then PRIORITY[i]
    else FirstPresent(present, i + 1)
  }

  function Worst(present: set<Kind>): Kind {
    FirstPresent(present, 0)
  }

  function CountKind(verdicts: seq<JobVerdict>, kind: Kind): nat {
    if verdicts == [] then 0
    else CountKind(verdicts[..|verdicts| - 1], kind) + (if verdicts[|verdicts| - 1].kind == kind then 1 else 0)
  }

  const KINDS: set<Kind> := {ExecutedFailure, UnknownFailure, RunnerInfrastructureFailure, AdmissionFailure,
                             CancelledBeforeExecution, Pending, Succeeded}

  function CountTable(verdicts: seq<JobVerdict>): map<Kind, nat> {
    map kind | kind in KINDS :: CountKind(verdicts, kind)
  }

  function Kinds(verdicts: seq<JobVerdict>): set<Kind> {
    set v | v in verdicts :: v.kind
  }

  predicate SomeExecuted(verdicts: seq<JobVerdict>) {
    exists v :: v in verdicts && v.executed > 0
  }

  function Vetoes(runs: seq<Run>): set<Kind> {
    set r | r in runs && !Certified(r) :: RunOnly(r)
  }

  /** The outcome for these job verdicts and runs; `own` speaks for the evidence when there is no run. */
  function Outcome(verdicts: seq<JobVerdict>, runs: seq<Run>, own: Run): Kind {
    var first := if verdicts == [] then RunOnly(if runs == [] then own else runs[0]) else Worst(Kinds(verdicts));
    var vetoed := if first == Succeeded && Vetoes(runs) != {} then Worst(Vetoes(runs)) else first;
    if vetoed == Succeeded && !SomeExecuted(verdicts) then UnknownFailure else vetoed
  }

  predicate Retryable(verdicts: seq<JobVerdict>, runs: seq<Run>) {
    if verdicts == [] then runs != [] && forall r :: r in runs ==> FailedToStart(r)
    else
      && (forall r :: r in runs ==> Rerunnable(r))
      && (exists v :: v in verdicts && v.retryable)
      && (forall v :: v in verdicts ==> v.kind == Succeeded || v.retryable)
  }

  function Sealed(verdicts: seq<JobVerdict>, runs: seq<Run>, own: Run): Receipt {
    var outcome := Outcome(verdicts, runs, own);
    Receipt(outcome, outcome != Succeeded, ExecutedFailure in Kinds(verdicts), Retryable(verdicts, runs),
            CountTable(verdicts), verdicts)
  }

  function JobList(field: JobsField): Result<seq<JobValue>, TypeFault> {
    match field
    case NoJobs => Ok([])
    case JobsNotArray => Err(JobsNotAnArray)
    case Jobs(jobs) => Ok(jobs)
  }

  function EachClassified(jobs: seq<JobValue>): seq<Result<JobVerdict, TypeFault>> {
    seq(|jobs|, i requires 0 <= i < |jobs| => ClassifyJob(jobs[i]))
  }

  /** The values of the first `n` results, or the first error among them. */
  function Collected<T>(results: seq<Result<T, TypeFault>>, n: nat): Result<seq<T>, TypeFault>
    requires n <= |results|
  {
    if n == 0 then Ok([])
    else
      var before := Collected(results, n - 1);
      if before.Err? then before
      else if results[n - 1].Err? then Err(results[n - 1].error)
      else Ok(before.value + [results[n - 1].value])
  }

  /** The verdicts on the jobs, or the first type error among them. */
  function Verdicts(jobs: seq<JobValue>): Result<seq<JobVerdict>, TypeFault> {
    Collected(EachClassified(jobs), |jobs|)
  }

  function RunsOf(input: Input): Result<seq<Run>, TypeFault>
    requires input.Evidence?
  {
    if input.workflowRun.RunNotObject? || input.run.RunNotObject? then Err(RunNotAnObject)
    else
      Ok((if input.workflowRun.RunObject? then [input.workflowRun.run] else [])
         + (if input.run.RunObject? then [input.run.run] else [])
         + (if input.hasOwn then [input.own] else []))
  }

  /** `classifyWorkflowEvidence`. */
  function Classified(input: Input): Result<Receipt, TypeFault> {
    if input.NotAnObject? then Err(EvidenceNotAnObject)
    else
      var jobs := JobList(input.jobs);
      if jobs.Err? then Err(jobs.error)
      else
        var verdicts := Verdicts(jobs.value);
        var runs := RunsOf(input);
        if verdicts.Err? then Err(verdicts.error)
        else if runs.Err? then Err(runs.error)
        else Ok(Sealed(verdicts.value, runs.value, input.own))
  }

  // ---- the loops ----

  lemma CountOneMore(verdicts: seq<JobVerdict>, v: JobVerdict, kind: Kind)
    ensures CountKind(verdicts + [v], kind) == CountKind(verdicts, kind) + (if v.kind == kind then 1 else 0)
  {
  }

  method CountVerdicts(verdicts: seq<JobVerdict>) returns (counts: map<Kind, nat>)
    ensures counts == CountTable(verdicts)
  {
    counts := CountTable([]);
    for i := 0 to |verdicts|
      invariant counts == CountTable(verdicts[..i])
    {
      var kind := verdicts[i].kind;
      assert verdicts[..i + 1] == verdicts[..i] + [verdicts[i]];
      forall k | k in KINDS
        ensures CountKind(verdicts[..i + 1], k) == CountKind(verdicts[..i], k) + (if kind == k then 1 else 0)
      {
        CountOneMore(verdicts[..i], verdicts[i], k);
      }
      counts := counts[kind := counts[kind] + 1];
    }
    assert verdicts[..|verdicts|] == verdicts;
  }

  method ClassifyJobs(jobs: seq<JobValue>) returns (r: Result<seq<JobVerdict>, TypeFault>)
    ensures r == Verdicts(jobs)
  {
    ghost var results := EachClassified(jobs);
    var verdicts: seq<JobVerdict> := [];
    for i := 0 to |jobs|
      invariant Collected(results, i) == Ok(verdicts)
    {
      var verdict := ClassifyJob(jobs[i]);
      assert results[i] == verdict;
      if verdict.Err? {
        StaysFaulty(results, i + 1, |jobs|);
        return Err(verdict.error);
      }
      verdicts := verdicts + [verdict.value];
    }
    r := Ok(verdicts);
  }

  lemma {:induction false} StaysFaulty<T>(results: seq<Result<T, TypeFault>>, i: nat, n: nat)
    requires i <= n <= |results| && Collected(results, i).Err?
    ensures Collected(results, n) == Collected(results, i)
  {
    if i < n {
      StaysFaulty(results, i, n - 1);
    }
  }

  /** The loop over the wrapper keys, then the evidence's own fields. */
  method CollectRuns(input: Input) returns (r: Result<seq<Run>, TypeFault>)
    requires input.Evidence?
    ensures r == RunsOf(input)
  {
    var runs: seq<Run> := [];
    var wrappers := [input.workflowRun, input.run];
    for i := 0 to |wrappers|
      invariant i >= 1 ==> !input.workflowRun.RunNotObject?
      invariant i >= 2 ==> !input.run.RunNotObject?
      invariant runs == (if i >= 1 && input.workflowRun.RunObject? then [input.workflowRun.run] else [])
                        + (if i >= 2 && input.run.RunObject? then [input.run.run] else [])
    {
      match wrappers[i] {
        case NoRun => {}
        case RunNotObject => return Err(RunNotAnObject);
        case RunObject(run) => runs := runs + [run];
      }
    }
    assert runs == runs + [];
    if input.hasOwn {
      runs := runs + [input.own];
    }
    r := Ok(runs);
  }

  method ClassifyWorkflowEvidence(input: Input) returns (r: Result<Receipt, TypeFault>)
    ensures r == Classified(input)
  {
    if input.NotAnObject? {
      return Err(EvidenceNotAnObject);
    }
    var jobs := JobList(input.jobs);
    if jobs.Err? {
      return Err(jobs.error);
    }
    var verdicts := ClassifyJobs(jobs.value);
    if verdicts.Err? {
      return Err(verdicts.error);
    }
    var counts := CountVerdicts(verdicts.value);
    var collected := CollectRuns(input);
    if collected.Err? {
      return Err(collected.error);
    }
    var runs := collected.value;
    var outcome;
    if |verdicts.value| == 0 {
      outcome := RunOnly(if runs == [] then input.own else runs[0]);
    } else {
      outcome := Worst(set kind | kind in KINDS && counts[kind] > 0);
      CountedArePresent(verdicts.value);
    }
    var vetoes := Vetoes(runs);
    if outcome == Succeeded && vetoes != {} {
      outcome := Worst(vetoes);
    }
    if outcome == Succeeded && !SomeExecuted(verdicts.value) {
      outcome := UnknownFailure;
    }
    PresentExactlyWhenCounted(verdicts.value, ExecutedFailure);
    r := Ok(Receipt(outcome, outcome != Succeeded, counts[ExecutedFailure] > 0, Retryable(verdicts.value, runs),
                    counts, verdicts.value));
  }

  lemma {:induction false} PresentExactlyWhenCounted(verdicts: seq<JobVerdict>, kind: Kind)
    ensures kind in Kinds(verdicts) <==> CountKind(verdicts, kind) > 0
    decreases |verdicts|
  {
    if verdicts != [] {
      var n := |verdicts| - 1;
      PresentExactlyWhenCounted(verdicts[..n], kind);
      assert verdicts == verdicts[..n] + [verdicts[n]];
      assert Kinds(verdicts) == Kinds(verdicts[..n]) + {verdicts[n].kind};
    }
  }

  lemma CountedArePresent(verdicts: seq<JobVerdict>)
    ensures (set kind | kind in KINDS && CountTable(verdicts)[kind] > 0) == Kinds(verdicts)
  {
    forall kind
      ensures kind in KINDS && (CountTable(verdicts)[kind] > 0 <==> kind in Kinds(verdicts))
    {
      PresentExactlyWhenCounted(verdicts, kind);
    }
  }
}
