/** Properties of every run of the worker pool, whatever the queue and the engine answer and in
    whatever order the sections interleave. */
module WorkerPoolRuns {
  import opened Wrappers
  import opened WorkerPool

  // ---- events of one worker ----

  predicate OfWorker(e: Event, w: nat) {
    !e.ExternalAbort? && !e.Stop? && e.w == w
  }

  predicate IsClaim(e: Event, w: nat) {
    e.Claim? && e.w == w
  }

  predicate IsAck(e: Event, w: nat) {
    (e.Complete? || e.Fail?) && e.w == w
  }

  /** The worker's own events since its last `claimNext`, that call included. */
  function History(es: seq<Event>, w: nat): seq<Event>
    decreases |es|
  {
    if es == [] then []
    else
      var e := es[|es| - 1];
      if IsClaim(e, w) then [e]
      else if OfWorker(e, w) then History(es[..|es| - 1], w) + [e]
      else History(es[..|es| - 1], w)
  }

  // ---- runs ----

  predicate Runs(expected: nat, es: seq<Event>) {
    Run(Initial(expected), es).Some?
  }

  function StateAfter(expected: nat, es: seq<Event>): Pool
    requires Runs(expected, es)
  {
    Run(Initial(expected), es).value
  }

  lemma {:induction false} PrefixRuns(expected: nat, es: seq<Event>, i: nat)
    requires Runs(expected, es) && i <= |es|
    ensures Runs(expected, es[..i])
    decreases |es|
  {
    if i < |es| {
      var front := es[..|es| - 1];
      assert Runs(expected, front);
      PrefixRuns(expected, front, i);
      assert front[..i] == es[..i];
    } else {
      assert es[..i] == es;
    }
  }

  /** The state before and after the event at `i`. */
  lemma StepAt(expected: nat, es: seq<Event>, i: nat)
    requires Runs(expected, es) && i < |es|
    ensures Runs(expected, es[..i]) && Runs(expected, es[..i + 1])
    ensures Next(StateAfter(expected, es[..i]), es[i]) == Some(StateAfter(expected, es[..i + 1]))
  {
    PrefixRuns(expected, es, i);
    PrefixRuns(expected, es, i + 1);
    assert es[..i + 1][..i] == es[..i];
  }

  // ---- the invariant of the shared variables ----

  predicate InBody(phase: Phase) {
    !phase.Starting? && !phase.Exited?
  }

  function BodyCount(workers: seq<Phase>): nat {
    if workers == [] then 0 else BodyCount(workers[..|workers| - 1]) + if InBody(workers[|workers| - 1]) then 1 else 0
  }

  predicate LeaseLost(phase: Phase) {
    (phase.Running? || phase.Acking?) && phase.leaseLost
  }

  predicate Sound(p: Pool) {
    p.active == BodyCount(p.workers)
    && (p.failed ==> p.controllerAbort)
    && p.callbacks == (if p.failed then 1 else 0)
    && (forall w :: 0 <= w < |p.workers| ==> SoundPhase(p.workers[w], p.Aborted(), p.failed))
  }

  lemma {:induction false} BodyCountUpdate(workers: seq<Phase>, w: nat, phase: Phase)
    requires w < |workers|
    ensures BodyCount(workers[w := phase])
         == BodyCount(workers) - (if InBody(workers[w]) then 1 else 0) + (if InBody(phase) then 1 else 0)
  {
    var n := |workers| - 1;
    if w == n {
      assert workers[w := phase][..n] == workers[..n];
    } else {
      assert workers[w := phase][..n] == workers[..n][w := phase];
      BodyCountUpdate(workers[..n], w, phase);
    }
  }

  lemma {:induction false} BodyCountBound(workers: seq<Phase>)
    ensures BodyCount(workers) <= |workers|
    ensures BodyCount(workers) == |workers| ==> forall w :: 0 <= w < |workers| ==> InBody(workers[w])
  {
    if workers != [] {
      BodyCountBound(workers[..|workers| - 1]);
    }
  }

  lemma {:induction false} BodyCountStarting(expected: nat)
    ensures BodyCount(Initial(expected).workers) == 0
  {
    if expected > 0 {
      assert Initial(expected).workers[..expected - 1] == Initial(expected - 1).workers;
      BodyCountStarting(expected - 1);
    }
  }

  lemma SharedFrame(p: Pool, e: Event)
    ensures var q := SharedStep(p, e);
            q.workers == p.workers && (p.Aborted() ==> q.Aborted()) && (p.failed ==> q.failed)
  {
  }

  /** Flags only rise, and only the event's own task changes its phase. */
  lemma StepFrame(p: Pool, e: Event)
    requires Next(p, e).Some?
    ensures var q := Next(p, e).value;
            |q.workers| == |p.workers| && (p.Aborted() ==> q.Aborted()) && (p.failed ==> q.failed)
            && (forall w :: 0 <= w < |p.workers| && !OfWorker(e, w) ==> q.workers[w] == p.workers[w])
            && (forall w :: 0 <= w < |p.workers| && OfWorker(e, w) ==>
                  TaskStep(p.workers[w], p.Aborted(), e) == Some(q.workers[w]))
  {
    SharedFrame(p, e);
    if !e.ExternalAbort? && !e.Stop? {
      assert Next(p, e) == Some(SharedStep(p, e).With(e.w, TaskStep(p.workers[e.w], p.Aborted(), e).value));
    }
  }

  lemma ActiveStep(p: Pool, e: Event)
    requires Next(p, e).Some? && p.active == BodyCount(p.workers)
    ensures Next(p, e).value.active == BodyCount(Next(p, e).value.workers)
  {
    if !e.ExternalAbort? && !e.Stop? {
      var phase := TaskStep(p.workers[e.w], p.Aborted(), e).value;
      BodyCountUpdate(p.workers, e.w, phase);
      BodyChange(p, e);
    }
  }

  /** A task enters its body by starting and leaves it by its `finally`. */
  lemma BodyChange(p: Pool, e: Event)
    requires !e.ExternalAbort? && !e.Stop? && e.w < |p.workers| && TaskStep(p.workers[e.w], p.Aborted(), e).Some?
    ensures SharedStep(p, e).active - p.active
         == (if InBody(TaskStep(p.workers[e.w], p.Aborted(), e).value) then 1 else 0) - (if InBody(p.workers[e.w]) then 1 else 0)
  {
  }

  predicate SoundPhase(phase: Phase, aborted: bool, failed: bool) {
    (LeaseLost(phase) ==> failed)
    && (phase.Leaving? || phase.Exited? ==> aborted)
    && (phase == Exited(true) ==> failed)
  }

  lemma SoundStep(p: Pool, e: Event)
    requires Sound(p) && Next(p, e).Some?
    ensures Sound(Next(p, e).value)
  {
    var q := Next(p, e).value;
    ActiveStep(p, e);
    StepFrame(p, e);
    forall w | 0 <= w < |q.workers|
      ensures SoundPhase(q.workers[w], q.Aborted(), q.failed)
    {
      SoundPhaseStep(p, e, w);
    }
  }

  lemma SoundPhaseStep(p: Pool, e: Event, w: nat)
    requires Sound(p) && Next(p, e).Some? && w < |Next(p, e).value.workers|
    ensures var q := Next(p, e).value; SoundPhase(q.workers[w], q.Aborted(), q.failed)
  {
    StepFrame(p, e);
    if OfWorker(e, w) {
      OwnPhaseSound(p, e, p.workers[w], Next(p, e).value.workers[w]);
    }
  }

  lemma OwnPhaseSound(p: Pool, e: Event, before: Phase, after: Phase)
    requires !e.ExternalAbort? && !e.Stop? && TaskStep(before, p.Aborted(), e) == Some(after)
    requires SoundPhase(before, p.Aborted(), p.failed) && (p.failed ==> p.controllerAbort)
    ensures SoundPhase(after, SharedStep(p, e).Aborted(), SharedStep(p, e).failed)
  {
  }

  /** In every state of every run: `active` counts the tasks inside their body, the caller's callback
      ran once if the pool failed and not otherwise, and tasks only leave an aborted pool. */
  lemma {:induction false} SoundRun(expected: nat, es: seq<Event>)
    requires Runs(expected, es)
    ensures Sound(StateAfter(expected, es)) && |StateAfter(expected, es).workers| == expected
    decreases |es|
  {
    if es == [] {
      BodyCountStarting(expected);
    } else {
      SoundRun(expected, es[..|es| - 1]);
      SoundStep(StateAfter(expected, es[..|es| - 1]), es[|es| - 1]);
      StepFrame(StateAfter(expected, es[..|es| - 1]), es[|es| - 1]);
    }
  }

  // ---- acknowledgements ----

  predicate Beats(es: seq<Event>, w: nat, lost: bool) {
    (forall i :: 0 <= i < |es| ==> es[i] == Heartbeat(w, true) || es[i] == Heartbeat(w, false) || es[i] == IdleHeartbeat(w))
    && (lost <==> exists i :: 0 <= i < |es| && es[i] == Heartbeat(w, false))
  }

  /** What a task's phase says about its events since the last claim. */
  predicate Explains(h: seq<Event>, w: nat, phase: Phase) {
    match phase
    case Running(job, lost) => |h| >= 1 && h[0] == Claim(w, Got(job)) && Beats(h[1..], w, lost)
    case Acking(job, lost, threw) =>
      |h| >= 2 && h[0] == Claim(w, Got(job)) && Beats(h[1..|h| - 1], w, lost) && h[|h| - 1] == Settle(w, threw)
    case _ => true
  }

  lemma ExplainsBeat(h: seq<Event>, w: nat, job: JobId, lost: bool, e: Event)
    requires Explains(h, w, Running(job, lost))
    requires e == Heartbeat(w, true) || e == Heartbeat(w, false) || e == IdleHeartbeat(w)
    ensures Explains(h + [e], w, Running(job, lost || e == Heartbeat(w, false)))
  {
    var bs, cs := h[1..], (h + [e])[1..];
    assert cs == bs + [e];
    if lost {
      var i :| 0 <= i < |bs| && bs[i] == Heartbeat(w, false);
      assert cs[i] == Heartbeat(w, false);
    }
    if e == Heartbeat(w, false) {
      assert cs[|bs|] == Heartbeat(w, false);
    }
  }

  lemma ExplainsStep(h: seq<Event>, w: nat, phase: Phase, aborted: bool, e: Event)
    requires Explains(h, w, phase) && OfWorker(e, w) && TaskStep(phase, aborted, e).Some?
    ensures Explains(if IsClaim(e, w) then [e] else h + [e], w, TaskStep(phase, aborted, e).value)
  {
    if e.Heartbeat? || e.IdleHeartbeat? {
      ExplainsBeat(h, w, phase.job, phase.leaseLost, e);
    } else if e.Settle? {
      assert (h + [e])[1..|h|] == h[1..];
    }
  }

  lemma {:induction false} ExplainsRun(expected: nat, es: seq<Event>, w: nat)
    requires Runs(expected, es) && w < expected
    ensures |StateAfter(expected, es).workers| == expected
    ensures Explains(History(es, w), w, StateAfter(expected, es).workers[w])
    decreases |es|
  {
    SoundRun(expected, es);
    if es != [] {
      var front, e := es[..|es| - 1], es[|es| - 1];
      var before := StateAfter(expected, front);
      ExplainsRun(expected, front, w);
      StepFrame(before, e);
      if OfWorker(e, w) {
        ExplainsStep(History(front, w), w, before.workers[w], before.Aborted(), e);
      }
    }
  }

  /** Every `complete` or `fail` of a job, in every run, ends this story of its worker: it claimed that
      job, every heartbeat since kept the lease, and the engine settled once — resolved for `complete`,
      thrown for `fail`. Nothing else happened to the worker since the claim, so no earlier
      acknowledgement either. */
  lemma AcknowledgementStory(expected: nat, es: seq<Event>, j: nat, w: nat)
    requires Runs(expected, es) && j < |es| && IsAck(es[j], w)
    ensures var h := History(es[..j], w); var n := |h| - 1;
            n >= 1 && h[0] == Claim(w, Got(es[j].job)) && h[n] == Settle(w, es[j].Fail?)
            && forall i :: 1 <= i < n ==> h[i] == Heartbeat(w, true)
  {
    StepAt(expected, es, j);
    SoundRun(expected, es[..j]);
    ExplainsRun(expected, es[..j], w);
    var h := History(es[..j], w);
    var bs := h[1..|h| - 1];
    forall i | 1 <= i < |h| - 1
      ensures h[i] == Heartbeat(w, true)
    {
      assert bs[i - 1] == h[i];
      NoIdleBeatWithLease(expected, es[..j], w);
    }
  }

  /** Skipped heartbeats only follow a lost lease. */
  lemma {:induction false} NoIdleBeatWithLease(expected: nat, es: seq<Event>, w: nat)
    requires Runs(expected, es) && w < |StateAfter(expected, es).workers|
    requires var phase := StateAfter(expected, es).workers[w]; (phase.Running? || phase.Acking?) && !phase.leaseLost
    ensures IdleHeartbeat(w) !in History(es, w)
    decreases |es|
  {
    if es != [] {
      var front, e := es[..|es| - 1], es[|es| - 1];
      StepFrame(StateAfter(expected, front), e);
      if !IsClaim(e, w) {
        NoIdleBeatWithLease(expected, front, w);
      }
    }
  }

  lemma {:induction false} HistoryKeeps(es: seq<Event>, w: nat, i: nat)
    requires i < |es| && OfWorker(es[i], w) && forall k :: i < k < |es| ==> !IsClaim(es[k], w)
    ensures es[i] in History(es, w)
    decreases |es|
  {
    if i < |es| - 1 {
      HistoryKeeps(es[..|es| - 1], w, i);
    }
  }

  /** Between two acknowledgements of one worker there is a claim: no claimed job gets two. */
  lemma OneAcknowledgementPerClaim(expected: nat, es: seq<Event>, i: nat, j: nat, w: nat)
    requires Runs(expected, es) && i < j < |es| && IsAck(es[i], w) && IsAck(es[j], w)
    ensures exists k :: i < k < j && IsClaim(es[k], w)
  {
    if forall k :: i < k < j ==> !IsClaim(es[k], w) {
      AcknowledgementStory(expected, es, j, w);
      HistoryKeeps(es[..j], w, i);
    }
  }

  // ---- the abort signal ----

  lemma {:induction false} FlagsRise(expected: nat, es: seq<Event>, i: nat, j: nat)
    requires Runs(expected, es) && i <= j <= |es|
    ensures Runs(expected, es[..i]) && Runs(expected, es[..j])
    ensures var p, q := StateAfter(expected, es[..i]), StateAfter(expected, es[..j]);
            (p.Aborted() ==> q.Aborted()) && (p.failed ==> q.failed)
    decreases j - i
  {
    PrefixRuns(expected, es, i);
    PrefixRuns(expected, es, j);
    if i < j {
      StepAt(expected, es, i);
      StepFrame(StateAfter(expected, es[..i]), es[i]);
      FlagsRise(expected, es, i + 1, j);
    }
  }

  /** No `claimNext` happens in any state from the first abort on, external or internal. */
  lemma NoClaimAfterAbort(expected: nat, es: seq<Event>, i: nat, j: nat)
    requires Runs(expected, es) && i <= j < |es|
    requires Runs(expected, es[..i]) && StateAfter(expected, es[..i]).Aborted()
    ensures !es[j].Claim?
  {
    FlagsRise(expected, es, i, j);
    StepAt(expected, es, j);
  }

  /** `active` never falls while the signal is not aborted. */
  lemma {:induction false} ActiveOnlyFallsAfterAbort(expected: nat, es: seq<Event>, i: nat, j: nat)
    requires Runs(expected, es) && i <= j <= |es|
    ensures Runs(expected, es[..i]) && Runs(expected, es[..j])
    ensures !StateAfter(expected, es[..j]).Aborted()
            ==> StateAfter(expected, es[..i]).active <= StateAfter(expected, es[..j]).active
    decreases j - i
  {
    PrefixRuns(expected, es, i);
    PrefixRuns(expected, es, j);
    if i < j {
      ActiveOnlyFallsAfterAbort(expected, es, i + 1, j);
      if !StateAfter(expected, es[..j]).Aborted() {
        ActiveRisesAt(expected, es, i, j);
      }
    }
  }

  lemma ActiveRisesAt(expected: nat, es: seq<Event>, i: nat, j: nat)
    requires Runs(expected, es) && i < j <= |es|
    requires Runs(expected, es[..j]) && !StateAfter(expected, es[..j]).Aborted()
    ensures Runs(expected, es[..i]) && Runs(expected, es[..i + 1])
    ensures StateAfter(expected, es[..i]).active <= StateAfter(expected, es[..i + 1]).active
  {
    StepAt(expected, es, i);
    SoundRun(expected, es[..i]);
    FlagsRise(expected, es, i + 1, j);
    ActiveFalls(StateAfter(expected, es[..i]), es[i]);
  }

  lemma ActiveFalls(p: Pool, e: Event)
    requires Sound(p) && Next(p, e).Some? && !Next(p, e).value.Aborted()
    ensures p.active <= Next(p, e).value.active
  {
  }

  /** Health is one contiguous interval of every run: healthy, then unhealthy, then never healthy again. */
  lemma HealthIsAnInterval(expected: nat, es: seq<Event>, i: nat, j: nat, k: nat)
    requires Runs(expected, es) && i <= j <= k <= |es|
    requires Runs(expected, es[..i]) && Runs(expected, es[..j]) && Runs(expected, es[..k])
    requires StateAfter(expected, es[..i]).Healthy() && !StateAfter(expected, es[..j]).Healthy()
    ensures !StateAfter(expected, es[..k]).Healthy()
  {
    SoundRun(expected, es[..i]);
    SoundRun(expected, es[..j]);
    BodyCountBound(StateAfter(expected, es[..j]).workers);
    ActiveOnlyFallsAfterAbort(expected, es, i, j);
    FlagsRise(expected, es, j, k);
  }

  /** A healthy pool has every expected worker inside its body, and has not failed. */
  lemma HealthyMeansAllIn(expected: nat, es: seq<Event>)
    requires Runs(expected, es) && StateAfter(expected, es).Healthy()
    ensures var p := StateAfter(expected, es);
            |p.workers| == expected && p.callbacks == 0 && forall w :: 0 <= w < expected ==> InBody(p.workers[w])
  {
    SoundRun(expected, es);
    BodyCountBound(StateAfter(expected, es).workers);
  }

  // ---- the fatal latch ----

  /** A queue or timer failure, as opposed to an engine error. */
  predicate Infrastructure(p: Pool, e: Event) {
    match e
    case Claim(_, answer) => answer.ClaimThrew?
    case Wake(_, threw) => threw && !p.Aborted()
    case Heartbeat(_, kept) => !kept
    case Complete(_, _, accepted) => !accepted
    case Fail(_, _, accepted) => !accepted
    case _ => false
  }

  predicate InfrastructureAt(expected: nat, es: seq<Event>, i: nat)
    requires Runs(expected, es)
  {
    i < |es| && Runs(expected, es[..i]) && Infrastructure(StateAfter(expected, es[..i]), es[i])
  }

  ghost predicate HadInfrastructure(expected: nat, es: seq<Event>)
    requires Runs(expected, es)
  {
    exists i: nat :: InfrastructureAt(expected, es, i)
  }

  predicate SomeFailed(p: Pool) {
    exists w :: 0 <= w < |p.workers| && p.workers[w].Failed?
  }

  /** Some failure is on its way to the latch or has reached it. */
  predicate Failing(p: Pool) {
    p.failed || SomeFailed(p)
  }

  /** A section that is not itself the catch fails its task exactly when the infrastructure failed. */
  lemma FailureOfTask(p: Pool, e: Event)
    requires Sound(p) && Next(p, e).Some? && !e.ExternalAbort? && !e.Stop?
    ensures var q := Next(p, e).value;
            (Infrastructure(p, e) ==> q.failed || q.workers[e.w].Failed?)
            && (p.workers[e.w].Failed? ==> q.failed)
            && (q.workers[e.w].Failed? || (q.failed && !p.failed) ==> Infrastructure(p, e) || p.workers[e.w].Failed? || p.failed)
  {
  }

  lemma FailingStep(p: Pool, e: Event)
    requires Sound(p) && Next(p, e).Some?
    ensures Failing(Next(p, e).value) <==> Failing(p) || Infrastructure(p, e)
  {
    var q := Next(p, e).value;
    StepFrame(p, e);
    if !e.ExternalAbort? && !e.Stop? {
      FailureOfTask(p, e);
    }
    if SomeFailed(p) {
      var w :| 0 <= w < |p.workers| && p.workers[w].Failed?;
      assert q.failed || q.workers[w].Failed?;
    }
    if SomeFailed(q) {
      var w :| 0 <= w < |q.workers| && q.workers[w].Failed?;
      assert p.workers[w].Failed? || Infrastructure(p, e) || p.failed;
    }
  }

  lemma InfrastructureExtends(expected: nat, es: seq<Event>)
    requires Runs(expected, es) && es != []
    ensures var front := es[..|es| - 1];
            Runs(expected, front)
            && (HadInfrastructure(expected, es)
                <==> HadInfrastructure(expected, front) || Infrastructure(StateAfter(expected, front), es[|es| - 1]))
  {
    var n := |es| - 1;
    var front := es[..n];
    PrefixRuns(expected, es, n);
    assert forall i :: 0 <= i <= n ==> front[..i] == es[..i];
    if HadInfrastructure(expected, front) {
      var i: nat :| InfrastructureAt(expected, front, i);
      assert InfrastructureAt(expected, es, i);
    }
    if Infrastructure(StateAfter(expected, front), es[n]) {
      assert InfrastructureAt(expected, es, n);
    }
    if HadInfrastructure(expected, es) {
      var i: nat :| InfrastructureAt(expected, es, i);
      assert i < n ==> InfrastructureAt(expected, front, i);
    }
  }

  lemma {:induction false} FailingRun(expected: nat, es: seq<Event>)
    requires Runs(expected, es)
    ensures Failing(StateAfter(expected, es)) <==> HadInfrastructure(expected, es)
    decreases |es|
  {
    if es != [] {
      var front := es[..|es| - 1];
      InfrastructureExtends(expected, es);
      FailingRun(expected, front);
      SoundRun(expected, front);
      FailingStep(StateAfter(expected, front), es[|es| - 1]);
    }
  }

  /** The caller's callback fires at most once, only after an infrastructure failure, and once the
      pool has settled it has fired exactly when there was one: engine errors alone never fire it. */
  lemma FatalExactlyOnInfrastructureFailure(expected: nat, es: seq<Event>)
    requires Runs(expected, es)
    ensures var p := StateAfter(expected, es);
            p.callbacks <= 1
            && (p.callbacks == 1 ==> HadInfrastructure(expected, es))
            && (p.Settled() ==> (p.callbacks == 1 <==> HadInfrastructure(expected, es)))
  {
    SoundRun(expected, es);
    FailingRun(expected, es);
  }

  // ---- what settling means ----

  predicate NoClaimAfter(es: seq<Event>, w: nat, i: nat) {
    forall k :: i < k < |es| ==> !IsClaim(es[k], w)
  }

  predicate GotAt(es: seq<Event>, i: nat) {
    i < |es| && es[i].Claim? && es[i].answer.Got?
  }

  /** `e` is this worker's accepted acknowledgement of the job. */
  predicate AcceptedAck(e: Event, w: nat, job: JobId) {
    IsAck(e, w) && e.job == job && e.accepted
  }

  /** The claim at `i` was followed, before its worker's next claim, by an accepted acknowledgement. */
  predicate AckedAfter(es: seq<Event>, i: nat) {
    GotAt(es, i) && exists j :: i < j < |es| && AcceptedAck(es[j], es[i].w, es[i].answer.job)
                                && NoClaimAfter(es[..j], es[i].w, i)
  }

  /** The engine call of the claim at `i` has returned. */
  predicate SettledAfter(es: seq<Event>, i: nat) {
    GotAt(es, i) && exists j :: i < j < |es| && es[j].Settle? && es[j].w == es[i].w && NoClaimAfter(es[..j], es[i].w, i)
  }

  predicate Handles(phase: Phase, job: JobId) {
    (phase.Running? || phase.Acking?) && phase.job == job
  }

  predicate ClaimAccounted(es: seq<Event>, i: nat, phase: Phase) {
    GotAt(es, i)
    && (AckedAfter(es, i) || phase.Failed? || phase == Exited(true)
        || (Handles(phase, es[i].answer.job) && NoClaimAfter(es, es[i].w, i)))
    && (SettledAfter(es, i)
        || (phase == Running(es[i].answer.job, phase.Running? && phase.leaseLost) && NoClaimAfter(es, es[i].w, i)))
  }

  lemma AckedExtends(es: seq<Event>, e: Event, i: nat)
    requires GotAt(es, i)
    ensures AckedAfter(es, i) ==> AckedAfter(es + [e], i)
    ensures SettledAfter(es, i) ==> SettledAfter(es + [e], i)
  {
    var fs := es + [e];
    if AckedAfter(es, i) {
      var j :| i < j < |es| && AcceptedAck(es[j], es[i].w, es[i].answer.job) && NoClaimAfter(es[..j], es[i].w, i);
      assert fs[..j] == es[..j] && fs[j] == es[j];
    }
    if SettledAfter(es, i) {
      var j :| i < j < |es| && es[j].Settle? && es[j].w == es[i].w && NoClaimAfter(es[..j], es[i].w, i);
      assert fs[..j] == es[..j] && fs[j] == es[j];
    }
  }

  lemma ClaimAccountedStep(es: seq<Event>, e: Event, i: nat, phase: Phase, aborted: bool)
    requires ClaimAccounted(es, i, phase) && OfWorker(e, es[i].w) && TaskStep(phase, aborted, e).Some?
    ensures ClaimAccounted(es + [e], i, TaskStep(phase, aborted, e).value)
  {
    var fs := es + [e];
    AckedExtends(es, e, i);
    assert fs[..|es|] == es && fs[|es|] == e;
    if (e.Complete? || e.Fail?) && NoClaimAfter(es, es[i].w, i) && Handles(phase, es[i].answer.job) && e.accepted {
      assert AcceptedAck(fs[|es|], es[i].w, es[i].answer.job);
      assert AckedAfter(fs, i);
    }
    if e.Settle? && NoClaimAfter(es, es[i].w, i) {
      assert SettledAfter(fs, i);
    }
  }

  lemma ClaimAccountedFrame(es: seq<Event>, e: Event, i: nat, phase: Phase)
    requires ClaimAccounted(es, i, phase) && !OfWorker(e, es[i].w)
    ensures ClaimAccounted(es + [e], i, phase)
  {
    AckedExtends(es, e, i);
  }

  lemma ClaimAccountedNew(es: seq<Event>, w: nat, job: JobId)
    ensures ClaimAccounted(es + [Claim(w, Got(job))], |es|, Running(job, false))
  {
  }

  lemma {:induction false} ClaimAccountedRun(expected: nat, es: seq<Event>, i: nat)
    requires Runs(expected, es) && GotAt(es, i)
    ensures es[i].w < |StateAfter(expected, es).workers|
    ensures ClaimAccounted(es, i, StateAfter(expected, es).workers[es[i].w])
    decreases |es|
  {
    var n := |es| - 1;
    var front, e := es[..n], es[n];
    assert es == front + [e];
    PrefixRuns(expected, es, n);
    var before := StateAfter(expected, front);
    StepFrame(before, e);
    if i == n {
      ClaimAccountedNew(front, e.w, e.answer.job);
    } else {
      ClaimAccountedRun(expected, front, i);
      var w := front[i].w;
      if OfWorker(e, w) {
        ClaimAccountedStep(front, e, i, before.workers[w], before.Aborted());
      } else {
        ClaimAccountedFrame(front, e, i, before.workers[w]);
      }
    }
  }

  /** When every task has exited, every claimed engine call has returned, and every claim got its
      accepted acknowledgement or the pool has failed. */
  lemma SettlingAccountsForEveryClaim(expected: nat, es: seq<Event>, i: nat)
    requires Runs(expected, es) && StateAfter(expected, es).Settled() && GotAt(es, i)
    ensures SettledAfter(es, i)
    ensures AckedAfter(es, i) || StateAfter(expected, es).failed
  {
    ClaimAccountedRun(expected, es, i);
    SoundRun(expected, es);
    var p := StateAfter(expected, es);
    assert SoundPhase(p.workers[es[i].w], p.Aborted(), p.failed);
  }

  // ---- draining ----

  function PhaseRank(phase: Phase): nat {
    match phase
    case Exited(_) => 0
    case Starting => 1
    case Leaving => 1
    case Failed => 1
    case Loop => 2
    case Sleeping => 3
    case Acking(_, _, _) => 3
    case Running(_, _) => 4
  }

  /** What is left for the tasks to do once the signal is aborted. */
  function Rank(workers: seq<Phase>): nat {
    if workers == [] then 0 else Rank(workers[..|workers| - 1]) + PhaseRank(workers[|workers| - 1])
  }

  lemma {:induction false} RankUpdate(workers: seq<Phase>, w: nat, phase: Phase)
    requires w < |workers|
    ensures Rank(workers[w := phase]) == Rank(workers) - PhaseRank(workers[w]) + PhaseRank(phase)
  {
    var n := |workers| - 1;
    if w == n {
      assert workers[w := phase][..n] == workers[..n];
    } else {
      assert workers[w := phase][..n] == workers[..n][w := phase];
      RankUpdate(workers[..n], w, phase);
    }
  }

  lemma {:induction false} RankBound(workers: seq<Phase>)
    ensures Rank(workers) <= 4 * |workers|
  {
    if workers != [] {
      RankBound(workers[..|workers| - 1]);
    }
  }

  /** Heartbeats and abort requests move no task on. */
  predicate Advances(e: Event) {
    !e.Heartbeat? && !e.IdleHeartbeat? && !e.ExternalAbort? && !e.Stop?
  }

  lemma RankStep(p: Pool, e: Event)
    requires Next(p, e).Some? && p.Aborted()
    ensures var q := Next(p, e).value;
            q.Aborted() && if Advances(e) then Rank(q.workers) < Rank(p.workers) else Rank(q.workers) == Rank(p.workers)
  {
    if !e.ExternalAbort? && !e.Stop? {
      RankUpdate(p.workers, e.w, TaskStep(p.workers[e.w], p.Aborted(), e).value);
    }
  }

  function AdvanceCount(es: seq<Event>): nat {
    if es == [] then 0 else AdvanceCount(es[..|es| - 1]) + if Advances(es[|es| - 1]) then 1 else 0
  }

  /** From an aborted state, every run makes at most four steps per worker besides heartbeats. */
  lemma {:induction false} DrainIsBounded(p: Pool, es: seq<Event>)
    requires p.Aborted() && Run(p, es).Some?
    ensures Run(p, es).value.Aborted()
    ensures AdvanceCount(es) + Rank(Run(p, es).value.workers) <= Rank(p.workers) <= 4 * |p.workers|
    decreases |es|
  {
    RankBound(p.workers);
    if es != [] {
      DrainIsBounded(p, es[..|es| - 1]);
      RankStep(Run(p, es[..|es| - 1]).value, es[|es| - 1]);
    }
  }

  /** The next section of a task that has not exited; for a running or sleeping task it is the return
      of the engine or of the sleep. */
  function NextSection(p: Pool, w: nat): Event
    requires w < |p.workers| && !p.workers[w].Exited? && p.Aborted()
  {
    match p.workers[w]
    case Starting => Start(w)
    case Loop => EndLoop(w)
    case Sleeping => Wake(w, true)
    case Running(_, _) => Settle(w, false)
    case Acking(job, lost, threw) => if lost then Refuse(w) else if threw then Fail(w, job, true) else Complete(w, job, true)
    case Failed => Catch(w)
    case Leaving => Finish(w)
  }

  /** An aborted pool never gets stuck: every task that has not exited has a next section, and taking
      it brings the pool closer to settling. */
  lemma DrainProgresses(p: Pool, w: nat)
    requires w < |p.workers| && !p.workers[w].Exited? && p.Aborted()
    ensures Next(p, NextSection(p, w)).Some?
    ensures Rank(Next(p, NextSection(p, w)).value.workers) < Rank(p.workers)
  {
    RankStep(p, NextSection(p, w));
  }
}
