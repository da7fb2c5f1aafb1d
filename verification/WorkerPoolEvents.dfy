/** The runs of the worker pool in terms of their events alone: which section may come next, and what
    the caller of the pool sees, without a word about phases or flags. */
module WorkerPoolEvents {
  import opened Wrappers
  import opened WorkerPool
  import opened WorkerPoolRuns

  // ---- reading a run ----

  /** An infrastructure failure reaches the latch: a lost heartbeat, or a task's `catch`. */
  predicate Fails(e: Event) {
    e.Catch? || (e.Heartbeat? && !e.kept)
  }

  predicate FailureIn(es: seq<Event>) {
    exists i :: 0 <= i < |es| && Fails(es[i])
  }

  /** The signal is aborted from here on: somebody asked for it, or the pool failed. */
  predicate AbortIn(es: seq<Event>) {
    FailureIn(es) || ExternalAbort in es || Event.Stop in es
  }

  /** The position of the worker's last own event. */
  function LastOwn(es: seq<Event>, w: nat): (k: Option<nat>)
    ensures k.Some? ==> k.value < |es| && OfWorker(es[k.value], w)
  {
    if es == [] then None
    else if OfWorker(es[|es| - 1], w) then Some(|es| - 1)
    else LastOwn(es[..|es| - 1], w)
  }

  /** The worker's last own event is such that it is at the head of its claim loop. */
  predicate AtLoopHead(es: seq<Event>, w: nat) {
    var k := LastOwn(es, w);
    k.Some? &&
    match es[k.value]
    case Start(_) => !AbortIn(es[..k.value])
    case Wake(_, threw) => !threw || AbortIn(es[..k.value])
    case Complete(_, _, accepted) => accepted
    case Fail(_, _, accepted) => accepted
    case _ => false
  }

  /** ... that its claim loop has thrown: the queue, the timer, a lost lease or a refused acknowledgement. */
  predicate LoopThrew(es: seq<Event>, w: nat) {
    var k := LastOwn(es, w);
    k.Some? &&
    match es[k.value]
    case Claim(_, answer) => answer.ClaimThrew?
    case Wake(_, threw) => threw && !AbortIn(es[..k.value])
    case Refuse(_) => true
    case Complete(_, _, accepted) => !accepted
    case Fail(_, _, accepted) => !accepted
    case _ => false
  }

  /** ... that its engine call is still running. */
  predicate EngineRuns(es: seq<Event>, w: nat) {
    var k := LastOwn(es, w);
    k.Some?
    && ((es[k.value].Claim? && es[k.value].answer.Got?) || es[k.value].Heartbeat? || es[k.value].IdleHeartbeat?)
  }

  predicate LastIs(es: seq<Event>, w: nat, e: Event) {
    var k := LastOwn(es, w);
    k.Some? && es[k.value] == e
  }

  /** The worker's last claim got this job. */
  predicate Claimed(es: seq<Event>, w: nat, job: JobId) {
    var h := History(es, w);
    h != [] && h[0] == Claim(w, Got(job))
  }

  predicate LostSinceClaim(es: seq<Event>, w: nat) {
    Heartbeat(w, false) in History(es, w)
  }

  /** The task is over: it caught a failure, it finished, or it started on an aborted signal. */
  predicate Over(es: seq<Event>, w: nat) {
    var k := LastOwn(es, w);
    k.Some?
    && (es[k.value].Catch? || es[k.value].Finish? || (es[k.value].Start? && AbortIn(es[..k.value])))
  }

  /** The section may come next after these. */
  predicate Allowed(expected: nat, es: seq<Event>, e: Event) {
    if e.ExternalAbort? || e.Stop? then true
    else
      var w := e.w;
      w < expected &&
      match e
      case Start(_) => LastOwn(es, w).None?
      case Claim(_, _) => AtLoopHead(es, w) && !AbortIn(es)
      case EndLoop(_) => AtLoopHead(es, w) && AbortIn(es)
      case Wake(_, _) => LastIs(es, w, Claim(w, NoJob))
      case Heartbeat(_, _) => EngineRuns(es, w) && !LostSinceClaim(es, w)
      case IdleHeartbeat(_) => EngineRuns(es, w) && LostSinceClaim(es, w)
      case Settle(_, _) => EngineRuns(es, w)
      case Refuse(_) => (LastIs(es, w, Settle(w, true)) || LastIs(es, w, Settle(w, false))) && LostSinceClaim(es, w)
      case Complete(_, job, _) => LastIs(es, w, Settle(w, false)) && !LostSinceClaim(es, w) && Claimed(es, w, job)
      case Fail(_, job, _) => LastIs(es, w, Settle(w, true)) && !LostSinceClaim(es, w) && Claimed(es, w, job)
      case Catch(_) => LoopThrew(es, w)
      case Finish(_) => LastIs(es, w, EndLoop(w))
      case _ => false
  }

  // ---- events and phases agree ----

  /** What the events say when the task is in this phase. */
  predicate Reads(es: seq<Event>, w: nat, phase: Phase) {
    match phase
    case Starting => LastOwn(es, w).None?
    case Loop => AtLoopHead(es, w)
    case Sleeping => LastIs(es, w, Claim(w, NoJob))
    case Running(job, lost) => EngineRuns(es, w) && Claimed(es, w, job) && (lost <==> LostSinceClaim(es, w))
    case Acking(job, lost, threw) =>
      LastIs(es, w, Settle(w, threw)) && Claimed(es, w, job) && (lost <==> LostSinceClaim(es, w))
    case Failed => LoopThrew(es, w)
    case Leaving => LastIs(es, w, EndLoop(w))
    case Exited(rejected) => Over(es, w) && (rejected <==> LastIs(es, w, Catch(w)))
  }

  /** The shared variables, as the events say. */
  predicate Agrees(p: Pool, expected: nat, es: seq<Event>) {
    |p.workers| == expected && (p.Aborted() <==> AbortIn(es)) && (p.failed <==> FailureIn(es))
    && forall w :: 0 <= w < expected ==> Reads(es, w, p.workers[w])
  }

  lemma FailureExtends(es: seq<Event>, e: Event)
    ensures FailureIn(es + [e]) <==> FailureIn(es) || Fails(e)
    ensures AbortIn(es + [e]) <==> AbortIn(es) || Fails(e) || e.ExternalAbort? || e.Stop?
  {
    var fs := es + [e];
    assert fs[|es|] == e;
    if FailureIn(es) {
      var i :| 0 <= i < |es| && Fails(es[i]);
      assert fs[i] == es[i];
    }
  }

  lemma OwnExtends(es: seq<Event>, e: Event, w: nat)
    ensures LastOwn(es + [e], w) == if OfWorker(e, w) then Some(|es|) else LastOwn(es, w)
    ensures History(es + [e], w) ==
            if IsClaim(e, w) then [e] else if OfWorker(e, w) then History(es, w) + [e] else History(es, w)
    ensures var k := LastOwn(es, w); k.Some? ==> (es + [e])[..k.value] == es[..k.value]
  {
    assert (es + [e])[..|es|] == es;
  }

  /** Another task's event, or an abort request, changes nothing that is read of this task. */
  lemma ReadsFrame(es: seq<Event>, e: Event, w: nat, phase: Phase)
    requires Reads(es, w, phase) && !OfWorker(e, w)
    ensures Reads(es + [e], w, phase)
  {
    OwnExtends(es, e, w);
  }

  /** A task can take a section exactly when its events allow it. */
  lemma StepAllowed(expected: nat, es: seq<Event>, e: Event, phase: Phase)
    requires !e.ExternalAbort? && !e.Stop? && e.w < expected && Reads(es, e.w, phase)
    ensures TaskStep(phase, AbortIn(es), e).Some? <==> Allowed(expected, es, e)
  {
  }

  lemma ReadsStep(es: seq<Event>, e: Event, phase: Phase)
    requires !e.ExternalAbort? && !e.Stop? && Reads(es, e.w, phase) && TaskStep(phase, AbortIn(es), e).Some?
    ensures Reads(es + [e], e.w, TaskStep(phase, AbortIn(es), e).value)
  {
    var fs := es + [e];
    OwnExtends(es, e, e.w);
    assert fs[|es|] == e && fs[..|es|] == es;
  }

  lemma SharedAgrees(p: Pool, es: seq<Event>, e: Event)
    requires (p.Aborted() <==> AbortIn(es)) && (p.failed <==> FailureIn(es)) && (p.failed ==> p.controllerAbort)
    ensures var q := SharedStep(p, e);
            (q.Aborted() <==> AbortIn(es + [e])) && (q.failed <==> FailureIn(es + [e]))
  {
    FailureExtends(es, e);
  }

  lemma NextAllowed(p: Pool, expected: nat, es: seq<Event>, e: Event)
    requires Agrees(p, expected, es)
    ensures Next(p, e).Some? <==> Allowed(expected, es, e)
  {
    if !e.ExternalAbort? && !e.Stop? && e.w < expected {
      StepAllowed(expected, es, e, p.workers[e.w]);
    }
  }

  lemma AgreesStep(p: Pool, expected: nat, es: seq<Event>, e: Event)
    requires Agrees(p, expected, es) && Sound(p) && Next(p, e).Some?
    ensures Agrees(Next(p, e).value, expected, es + [e])
  {
    var q := Next(p, e).value;
    StepFrame(p, e);
    SharedAgrees(p, es, e);
    forall w | 0 <= w < expected
      ensures Reads(es + [e], w, q.workers[w])
    {
      if OfWorker(e, w) {
        ReadsStep(es, e, p.workers[w]);
      } else {
        ReadsFrame(es, e, w, p.workers[w]);
      }
    }
  }

  lemma {:induction false} AgreesRun(expected: nat, es: seq<Event>)
    requires Runs(expected, es)
    ensures Agrees(StateAfter(expected, es), expected, es)
    decreases |es|
  {
    if es != [] {
      var n := |es| - 1;
      var front := es[..n];
      assert es == front + [es[n]];
      PrefixRuns(expected, es, n);
      AgreesRun(expected, front);
      SoundRun(expected, front);
      AgreesStep(StateAfter(expected, front), expected, front, es[n]);
    }
  }

  // ---- the theorems ----

  /** Every event was allowed by the events before it. */
  ghost predicate AllAllowed(expected: nat, es: seq<Event>) {
    forall j :: 0 <= j < |es| ==> Allowed(expected, es[..j], es[j])
  }

  lemma AllAllowedExtends(expected: nat, es: seq<Event>)
    requires es != []
    ensures var n := |es| - 1; AllAllowed(expected, es) <==> AllAllowed(expected, es[..n]) && Allowed(expected, es[..n], es[n])
  {
    var n := |es| - 1;
    assert forall j :: 0 <= j < n ==> es[..n][..j] == es[..j];
  }

  /** The runs of the pool are exactly the sequences in which every event is allowed by those before it. */
  lemma {:induction false} RunsExactly(expected: nat, es: seq<Event>)
    ensures Runs(expected, es) <==> AllAllowed(expected, es)
    decreases |es|
  {
    if es != [] {
      var n := |es| - 1;
      var front := es[..n];
      RunsExactly(expected, front);
      AllAllowedExtends(expected, es);
      if Runs(expected, front) {
        AgreesRun(expected, front);
        NextAllowed(StateAfter(expected, front), expected, front, es[n]);
      }
    }
  }

  lemma {:induction false} BodySet(workers: seq<Phase>, n: nat, inside: set<nat>)
    requires n <= |workers| && forall w: nat :: w in inside <==> w < n && InBody(workers[w])
    ensures BodyCount(workers[..n]) == |inside|
  {
    if n > 0 {
      var m := n - 1;
      var rest := inside - {m};
      assert workers[..n][..m] == workers[..m];
      BodySet(workers, m, rest);
      assert if m in inside then inside == rest + {m} else inside == rest;
    } else {
      assert inside == {};
    }
  }

  /** The workers whose task has begun and is not over. */
  function Inside(expected: nat, es: seq<Event>): set<nat> {
    set w: nat | 0 <= w < expected && LastOwn(es, w).Some? && !Over(es, w)
  }

  /** Everything the pool shows its caller, read off the events: `stopping`, `failed`, the callback count,
      `active`, and whether all tasks have settled. */
  lemma ObservedExactly(expected: nat, es: seq<Event>)
    requires Runs(expected, es)
    ensures var p := StateAfter(expected, es);
            && (p.Aborted() <==> AbortIn(es))
            && (p.failed <==> FailureIn(es))
            && p.callbacks == (if FailureIn(es) then 1 else 0)
            && p.active == |Inside(expected, es)|
            && (p.Settled() <==> forall w: nat :: w < expected ==> Over(es, w))
  {
    var p := StateAfter(expected, es);
    AgreesRun(expected, es);
    SoundRun(expected, es);
    forall w: nat | w < expected
      ensures InBody(p.workers[w]) <==> w in Inside(expected, es)
      ensures p.workers[w].Exited? <==> Over(es, w)
    {
      assert Reads(es, w, p.workers[w]);
    }
    assert p.workers[..expected] == p.workers;
    BodySet(p.workers, expected, Inside(expected, es));
  }

  /** The pool is healthy exactly as long as nobody asked it to stop, nothing failed, and every worker has
      started. */
  lemma HealthyExactly(expected: nat, es: seq<Event>)
    requires Runs(expected, es)
    ensures StateAfter(expected, es).Healthy() <==>
            !AbortIn(es) && forall w: nat :: w < expected ==> Start(w) in es
  {
    var p := StateAfter(expected, es);
    AgreesRun(expected, es);
    SoundRun(expected, es);
    BodyCountBound(p.workers);
    forall w: nat | w < expected
      ensures LastOwn(es, w).Some? <==> Start(w) in es
    {
      StartedFirst(expected, es, w);
    }
    if !AbortIn(es) {
      forall w: nat | w < expected
        ensures InBody(p.workers[w]) <==> Start(w) in es
      {
        assert Reads(es, w, p.workers[w]) && SoundPhase(p.workers[w], p.Aborted(), p.failed);
      }
      if forall w: nat :: w < expected ==> Start(w) in es {
        AllInBody(p.workers);
      }
    }
  }

  lemma {:induction false} AllInBody(workers: seq<Phase>)
    requires forall w :: 0 <= w < |workers| ==> InBody(workers[w])
    ensures BodyCount(workers) == |workers|
  {
    if workers != [] {
      AllInBody(workers[..|workers| - 1]);
    }
  }

  /** A worker's first event is its start. */
  lemma {:induction false} StartedFirst(expected: nat, es: seq<Event>, w: nat)
    requires Runs(expected, es)
    ensures LastOwn(es, w).Some? <==> Start(w) in es
    decreases |es|
  {
    if es != [] {
      var n := |es| - 1;
      assert es == es[..n] + [es[n]];
      PrefixRuns(expected, es, n);
      StartedFirst(expected, es[..n], w);
      if OfWorker(es[n], w) && LastOwn(es[..n], w).None? {
        AgreesRun(expected, es[..n]);
        NextAllowed(StateAfter(expected, es[..n]), expected, es[..n], es[n]);
      }
    }
  }

  /** After an abort request nothing is claimed, the pool is never healthy again, and a task that starts
      only then does nothing at all. */
  lemma AbortStopsThePool(expected: nat, es: seq<Event>, i: nat, j: nat)
    requires Runs(expected, es) && i < j < |es| && (es[i] == ExternalAbort || es[i] == Event.Stop)
    ensures !es[j].Claim?
    ensures Runs(expected, es[..j]) && StateAfter(expected, es[..j]).Aborted() && !StateAfter(expected, es[..j]).Healthy()
    ensures es[j].Start? ==> Over(es[..j + 1], es[j].w) && forall k :: j < k < |es| ==> !OfWorker(es[k], es[j].w)
  {
    AbortStays(es, i, j);
    RunsExactly(expected, es);
    AbortSeen(expected, es, j);
    assert Allowed(expected, es[..j], es[j]);
    if es[j].Start? {
      LateStarter(expected, es, j, es[j].w);
    }
  }

  lemma AbortStays(es: seq<Event>, i: nat, j: nat)
    requires i < j <= |es| && (es[i] == ExternalAbort || es[i] == Event.Stop)
    ensures AbortIn(es[..j])
  {
    assert es[..j][i] == es[i];
  }

  lemma AbortSeen(expected: nat, es: seq<Event>, j: nat)
    requires Runs(expected, es) && j <= |es| && AbortIn(es[..j])
    ensures Runs(expected, es[..j]) && StateAfter(expected, es[..j]).Aborted() && !StateAfter(expected, es[..j]).Healthy()
  {
    PrefixRuns(expected, es, j);
    ObservedExactly(expected, es[..j]);
  }

  lemma LateStarter(expected: nat, es: seq<Event>, j: nat, w: nat)
    requires AllAllowed(expected, es) && j < |es| && AbortIn(es[..j]) && es[j] == Start(w)
    ensures Over(es[..j + 1], w) && forall k :: j < k < |es| ==> !OfWorker(es[k], w)
  {
    LateStart(es[..j], w);
    assert es[..j + 1] == es[..j] + [Start(w)];
    forall k | j < k < |es|
      ensures !OfWorker(es[k], w)
    {
      OverStays(expected, es, j + 1, k, w);
      OverNext(expected, es, k, w);
    }
  }

  lemma LateStart(es: seq<Event>, w: nat)
    requires AbortIn(es)
    ensures Over(es + [Start(w)], w)
  {
    OwnExtends(es, Start(w), w);
    assert (es + [Start(w)])[..|es|] == es;
  }

  lemma OverForbids(expected: nat, es: seq<Event>, e: Event, w: nat)
    requires Over(es, w) && Allowed(expected, es, e)
    ensures !OfWorker(e, w) && Over(es + [e], w)
  {
    OwnExtends(es, e, w);
  }

  lemma OverNext(expected: nat, es: seq<Event>, k: nat, w: nat)
    requires AllAllowed(expected, es) && k < |es| && Over(es[..k], w)
    ensures !OfWorker(es[k], w) && Over(es[..k + 1], w)
  {
    OverForbids(expected, es[..k], es[k], w);
    assert es[..k + 1] == es[..k] + [es[k]];
  }

  /** A task that is over has no further event. */
  lemma {:induction false} OverStays(expected: nat, es: seq<Event>, i: nat, k: nat, w: nat)
    requires AllAllowed(expected, es) && i <= k <= |es| && Over(es[..i], w)
    ensures Over(es[..k], w)
    decreases k - i
  {
    if i < k {
      OverNext(expected, es, i, w);
      OverStays(expected, es, i + 1, k, w);
    }
  }
}
